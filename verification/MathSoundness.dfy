/** Whatever the math parser accepts is spelled as the grammar says and stands for the tree that is read. */
module MathSoundness {
  import opened Wrappers
  import opened Whitespace
  import opened MathSyntax
  import opened MathParsing

  /** The text is spelled as the grammar says and stands for the tree. */
  predicate Fits(lexicon: Lexicon, s: Syntax, text: string, node: MathNode) {
    IsGrammatical(lexicon, s) && Spell(s) == text && Meaning(s) == node
  }

  lemma Enclosed(input: string, start: nat, end: nat)
    requires start + 1 < end <= |input|
    ensures [input[start]] + input[start + 1..end - 1] + [input[end - 1]] == input[start..end]
  {
  }

  lemma BracesFit(lexicon: Lexicon, inner: Syntax, text: string, node: MathNode)
    requires inner.Sequence? && Fits(lexicon, inner, text, node) && !IsEmpty(node)
    ensures Fits(lexicon, Braces(inner), "{" + text + "}", node)
  {
    NotEmptyIsGroup(lexicon, inner, text, node);
  }

  lemma NotEmptyIsGroup(lexicon: Lexicon, inner: Syntax, text: string, node: MathNode)
    requires inner.Sequence? && Fits(lexicon, inner, text, node) && !IsEmpty(node)
    ensures IsGroup(inner)
  {
    assert MeaningAll([]) == [];
  }

  /** The spelling of a root's degree, with its brackets. */
  predicate DegreeFits(lexicon: Lexicon, degree: Option<Syntax>, text: string, node: Option<MathNode>) {
    && (degree.Some? <==> node.Some?)
    && (degree.None? ==> text == [])
    && (degree.Some? && node.Some? ==>
      IsGroup(degree.value) && IsGrammatical(lexicon, degree.value) && "[" + Spell(degree.value) + "]" == text
      && Meaning(degree.value) == node.value)
  }

  lemma DegreeIs(lexicon: Lexicon, inner: Syntax, text: string, node: MathNode)
    requires IsGroup(inner) && Fits(lexicon, inner, text, node)
    ensures DegreeFits(lexicon, Some(inner), "[" + text + "]", Some(node))
  {
  }

  /** A sequence under construction. */
  predicate ItemsFit(lexicon: Lexicon, s: Syntax, text: string, nodes: seq<MathNode>)
    requires s.Sequence?
  {
    IsGrammatical(lexicon, s) && Spell(s) == text && MeaningAll(s.items) == nodes
  }

  lemma LeadFits(lexicon: Lexicon, lead: string)
    requires IsBlank(lead)
    ensures ItemsFit(lexicon, Sequence(lead, []), lead, [])
  {
    assert lead + [] == lead;
  }

  lemma ItemsAreSequence(lexicon: Lexicon, s: Syntax, text: string, nodes: seq<MathNode>)
    requires s.Sequence? && ItemsFit(lexicon, s, text, nodes)
    ensures Fits(lexicon, s, text, RowOf(nodes))
  {
  }

  lemma MoreItems(lexicon: Lexicon, s: Syntax, text: string, nodes: seq<MathNode>, item: Syntax, itemText: string,
                  node: MathNode)
    requires s.Sequence? && ItemsFit(lexicon, s, text, nodes) && item.Item? && Fits(lexicon, item, itemText, node)
    ensures ItemsFit(lexicon, Sequence(s.lead, s.items + [item]), text + itemText, nodes + [node])
  {
    hide IsLiteral, IsDelimiter, IsBlank;
    var items := s.items + [item];
    assert items[..|items| - 1] == s.items && items[|items| - 1] == item;
    assert SpellAll(items) == SpellAll(s.items) + Spell(item);
    assert s.lead + (SpellAll(s.items) + Spell(item)) == s.lead + SpellAll(s.items) + Spell(item);
    assert AllGrammatical(lexicon, items);
    assert forall i :: 0 <= i < |items| ==> items[i].Item?;
  }

  /** What the scripts after an atom say. */
  predicate ScriptsFit(lexicon: Lexicon, scripts: seq<Syntax>, text: string, subscript: Option<MathNode>,
                       superscript: Option<MathNode>) {
    && AllGrammatical(lexicon, scripts)
    && (forall i :: 0 <= i < |scripts| ==> scripts[i].Script?)
    && SpellAll(scripts) == text
    && ScriptMeaning(scripts, false) == subscript && ScriptMeaning(scripts, true) == superscript
    && |scripts| == (if subscript.Some? then 1 else 0) + (if superscript.Some? then 1 else 0)
  }

  /** An atom, its scripts and the white space after them, at these places of the input. */
  lemma ItemFits(lexicon: Lexicon, input: string, at: nat, middle: nat, split: nat, end: nat,
                 atom: Syntax, base: MathNode, scripts: seq<Syntax>)
    requires at <= middle <= split <= end <= |input|
    requires IsAtom(atom) && Fits(lexicon, atom, input[at..middle], base) && IsBlank(input[split..end])
    requires ScriptsFit(lexicon, scripts, input[middle..split], ScriptMeaning(scripts, false),
      ScriptMeaning(scripts, true))
    ensures Fits(lexicon, Item(atom, scripts, input[split..end]), input[at..end],
                 WithScripts(base, ScriptMeaning(scripts, false), ScriptMeaning(scripts, true)))
  {
    hide IsLiteral, IsDelimiter, IsBlank, AllGrammatical, IsAtom;
    TwoScripts(scripts);
    Cut(input, at, middle, split);
    Cut(input, at, split, end);
  }

  lemma TwoScripts(scripts: seq<Syntax>)
    requires forall i :: 0 <= i < |scripts| ==> scripts[i].Script?
    ensures |scripts| == 2 && ScriptMeaning(scripts, false).Some? && ScriptMeaning(scripts, true).Some?
      ==> scripts[0].isSuper != scripts[1].isSuper
    ensures scripts != [] ==> ScriptMeaning(scripts, false).Some? || ScriptMeaning(scripts, true).Some?
  {
    if |scripts| == 2 {
      assert scripts[..1][..0] == [] && scripts[..1][0] == scripts[0];
      assert ScriptMeaning([], true) == None && ScriptMeaning([], false) == None;
      assert ScriptMeaning(scripts[..1], !scripts[0].isSuper) == None;
    }
  }

  lemma BlankEndStays(input: string, i: nat)
    requires i <= |input| && (i < |input| ==> !IsWhitespace(input[i]))
    ensures BlankEnd(input, i) == i
  {
  }

  lemma OneChar(input: string, i: nat)
    requires i < |input|
    ensures input[i..i + 1] == [input[i]]
  {
  }

  lemma NumberFits(lexicon: Lexicon, text: string)
    requires IsNumberText(text)
    ensures Fits(lexicon, Literal(text, Number(text)), text, Number(text))
  {
  }

  lemma LetterFits(lexicon: Lexicon, c: char)
    requires lexicon.isLetter(c)
    ensures Fits(lexicon, Literal([c], Identifier([c])), [c], Identifier([c]))
  {
  }

  lemma OperatorFits(lexicon: Lexicon, c: char)
    requires IsOperatorChar(c)
    ensures Fits(lexicon, Literal([c], Operator([c])), [c], Operator([c]))
  {
  }

  lemma NoScripts(lexicon: Lexicon)
    ensures ScriptsFit(lexicon, [], "", None, None)
  {
  }

  lemma ScriptsSay(lexicon: Lexicon, scripts: seq<Syntax>, text: string, subscript: Option<MathNode>,
                   superscript: Option<MathNode>)
    requires ScriptsFit(lexicon, scripts, text, subscript, superscript)
    ensures ScriptMeaning(scripts, false) == subscript && ScriptMeaning(scripts, true) == superscript
  {
  }

  lemma ScriptFits(lexicon: Lexicon, script: Syntax, text: string, node: MathNode)
    requires script.Script? && IsBlank(script.lead) && IsBlank(script.gap) && IsAtom(script.argument)
    requires Fits(lexicon, script.argument, text, node)
    ensures Fits(lexicon, script, script.lead + (if script.isSuper then "^" else "_") + script.gap + text, node)
  {
    hide IsAtom;
  }

  lemma ScriptText(input: string, at: nat, mark: nat, gapEnd: nat, end: nat)
    requires at <= mark < gapEnd <= end <= |input|
    ensures input[at..mark] + [input[mark]] + input[mark + 1..gapEnd] + input[gapEnd..end] == input[at..end]
  {
  }

  lemma MoreScripts(lexicon: Lexicon, scripts: seq<Syntax>, text: string, subscript: Option<MathNode>,
                    superscript: Option<MathNode>, script: Syntax, scriptText: string, node: MathNode)
    requires ScriptsFit(lexicon, scripts, text, subscript, superscript)
    requires script.Script? && Fits(lexicon, script, scriptText, node)
    requires if script.isSuper then superscript.None? else subscript.None?
    ensures ScriptsFit(lexicon, scripts + [script], text + scriptText,
                       if script.isSuper then subscript else Some(node),
                       if script.isSuper then Some(node) else superscript)
  {
    hide IsGrammatical, Spell, Meaning;
    var more := scripts + [script];
    assert more[..|more| - 1] == scripts;
  }

  lemma BreakFits(lexicon: Lexicon)
    ensures Fits(lexicon, Literal("\\\\", Space), "\\\\", Space)
  {
  }

  lemma EscapedFits(lexicon: Lexicon, c: char, node: MathNode)
    requires EscapedNode(c) == Some(node)
    ensures Fits(lexicon, Literal("\\" + [c], node), "\\" + [c], node)
  {
    hide IsNumberText, WordNode;
    var text := "\\" + [c];
    assert |text| == 2 && text[0] == '\\' && text[1] == c;
    assert IsLiteral(lexicon, text, node);
  }

  lemma WordFits(lexicon: Lexicon, word: string, node: MathNode)
    requires WordNode(lexicon, word) == Some(node)
    ensures Fits(lexicon, Literal("\\" + word, node), "\\" + word, node)
  {
    hide IsNumberText, WordNode;
    var text := "\\" + word;
    assert "\\" <= text && text[1..] == word;
    assert IsLiteral(lexicon, text, node);
  }

  lemma FracFits(lexicon: Lexicon, gap: string, over: Syntax, overText: string, numerator: MathNode, gap2: string,
                 under: Syntax, underText: string, denominator: MathNode)
    requires IsBlank(gap) && IsBlank(gap2) && over.Braces? && under.Braces?
    requires Fits(lexicon, over, overText, numerator) && Fits(lexicon, under, underText, denominator)
    ensures Fits(lexicon, Frac(gap, over, gap2, under), "\\frac" + gap + overText + gap2 + underText,
                 Fraction(numerator, denominator))
  {
  }

  lemma RootFits(lexicon: Lexicon, gap: string, degree: Option<Syntax>, degreeText: string,
                 degreeNode: Option<MathNode>, gap2: string, body: Syntax, bodyText: string, radicand: MathNode)
    requires IsBlank(gap) && IsBlank(gap2) && body.Braces?
    requires DegreeFits(lexicon, degree, degreeText, degreeNode) && Fits(lexicon, body, bodyText, radicand)
    ensures Fits(lexicon, Root(gap, degree, gap2, body), "\\sqrt" + gap + degreeText + gap2 + bodyText,
                 Sqrt(degreeNode, radicand))
  {
  }

  lemma LeftRightFits(lexicon: Lexicon, open: Delimiter, body: Syntax, bodyText: string, node: MathNode,
                      close: Delimiter)
    requires IsDelimiter(open) && IsDelimiter(close) && body.Sequence? && Fits(lexicon, body, bodyText, node)
    ensures Fits(lexicon, LeftRight(open, body, close),
                 "\\left" + (open.gap + open.spelling) + bodyText + "\\right" + (close.gap + close.spelling),
                 Fenced(open.text, node, close.text))
  {
    hide IsDelimiter;
    var left, right := "\\left" + (open.gap + open.spelling), close.gap + close.spelling;
    assert left == "\\left" + open.gap + open.spelling;
    assert left + bodyText + "\\right" + right == left + bodyText + "\\right" + close.gap + close.spelling;
  }

  /** Five pieces of the input in a row. */
  lemma FiveCuts(input: string, a: nat, b: nat, c: nat, d: nat, e: nat, f: nat)
    requires a <= b <= c <= d <= e <= f <= |input|
    ensures input[a..b] + input[b..c] + input[c..d] + input[d..e] + input[e..f] == input[a..f]
  {
    Cut(input, a, b, c);
    Cut(input, a, c, d);
    Cut(input, a, d, e);
    Cut(input, a, e, f);
  }

  predicate CellsFit(lexicon: Lexicon, cells: seq<Syntax>, text: string, nodes: seq<MathNode>) {
    && AllGrammatical(lexicon, cells) && (forall i :: 0 <= i < |cells| ==> cells[i].Sequence?)
    && SpellCells(cells) == text && MeaningAll(cells) == nodes
  }

  predicate RowsFit(lexicon: Lexicon, rows: seq<SyntaxRow>, text: string, nodes: seq<MatrixRow>) {
    AllRowsGrammatical(lexicon, rows) && SpellRows(rows) == text && MeaningRows(rows) == nodes
  }

  lemma NothingFits(lexicon: Lexicon)
    ensures CellsFit(lexicon, [], "", []) && RowsFit(lexicon, [], "", [])
  {
  }

  lemma MoreCells(lexicon: Lexicon, cells: seq<Syntax>, text: string, nodes: seq<MathNode>, cell: Syntax,
                  cellText: string, node: MathNode)
    requires CellsFit(lexicon, cells, text, nodes) && cell.Sequence? && Fits(lexicon, cell, cellText, node)
    ensures CellsFit(lexicon, cells + [cell], if cells == [] then cellText else text + "&" + cellText, nodes + [node])
  {
    hide IsGrammatical, Spell, Meaning;
    var more := cells + [cell];
    assert more[..|more| - 1] == cells;
  }

  lemma MoreRows(lexicon: Lexicon, rows: seq<SyntaxRow>, text: string, nodes: seq<MatrixRow>, cells: seq<Syntax>,
                 cellsText: string, row: seq<MathNode>)
    requires RowsFit(lexicon, rows, text, nodes) && cells != [] && CellsFit(lexicon, cells, cellsText, row)
    ensures RowsFit(lexicon, rows + [SyntaxRow(cells)],
                    if rows == [] then cellsText else text + "\\\\" + cellsText, nodes + [MatrixRow(row)])
  {
    hide AllGrammatical, SpellCells, MeaningAll;
    var more := rows + [SyntaxRow(cells)];
    assert more[..|more| - 1] == rows;
  }

  /** The cells of the row that starts at `rowStart` are read up to `at`, with the `&` behind them. */
  ghost predicate CellsUpTo(lexicon: Lexicon, input: string, rowStart: nat, at: nat, cells: seq<Syntax>,
                            row: seq<MathNode>) {
    && rowStart <= at <= |input|
    && if cells == [] then at == rowStart && row == []
       else rowStart < at && input[at - 1] == '&' && CellsFit(lexicon, cells, input[rowStart..at - 1], row)
  }

  lemma AddCell(lexicon: Lexicon, input: string, rowStart: nat, at: nat, cells: seq<Syntax>, row: seq<MathNode>,
                cell: Syntax, end: nat, node: MathNode)
    requires CellsUpTo(lexicon, input, rowStart, at, cells, row) && at <= end <= |input|
    requires cell.Sequence? && Fits(lexicon, cell, input[at..end], node)
    ensures CellsFit(lexicon, cells + [cell], input[rowStart..end], row + [node])
  {
    hide Fits, CellsFit;
    NothingFits(lexicon);
    if cells == [] {
      MoreCells(lexicon, [], "", [], cell, input[at..end], node);
    } else {
      MoreCells(lexicon, cells, input[rowStart..at - 1], row, cell, input[at..end], node);
      assert input[rowStart..at - 1] + "&" + input[at..end] == input[rowStart..end];
    }
  }

  /** The rows from `start` are read up to `rowStart`, with the `\\` behind them. */
  ghost predicate RowsUpTo(lexicon: Lexicon, input: string, start: nat, rowStart: nat, rows: seq<SyntaxRow>,
                           nodes: seq<MatrixRow>) {
    && start <= rowStart <= |input|
    && if rows == [] then rowStart == start && nodes == []
       else
         && start + 2 <= rowStart && input[rowStart - 2..rowStart] == "\\\\"
         && RowsFit(lexicon, rows, input[start..rowStart - 2], nodes)
  }

  lemma StartMatrix(lexicon: Lexicon, input: string, start: nat)
    requires start <= |input|
    ensures RowsUpTo(lexicon, input, start, start, [], []) && CellsUpTo(lexicon, input, start, start, [], [])
  {
  }

  lemma NextCell(lexicon: Lexicon, input: string, rowStart: nat, at: nat, cells: seq<Syntax>, row: seq<MathNode>)
    requires rowStart < at <= |input| && input[at - 1] == '&' && cells != []
      && CellsFit(lexicon, cells, input[rowStart..at - 1], row)
    ensures CellsUpTo(lexicon, input, rowStart, at, cells, row)
  {
  }

  lemma NextRow(lexicon: Lexicon, input: string, start: nat, rowStart: nat, rows: seq<SyntaxRow>, nodes: seq<MatrixRow>)
    requires start + 2 <= rowStart <= |input| && input[rowStart - 2..rowStart] == "\\\\" && rows != []
    requires RowsFit(lexicon, rows, input[start..rowStart - 2], nodes)
    ensures RowsUpTo(lexicon, input, start, rowStart, rows, nodes)
    ensures CellsUpTo(lexicon, input, rowStart, rowStart, [], [])
  {
  }

  lemma AddRow(lexicon: Lexicon, input: string, start: nat, rowStart: nat, rows: seq<SyntaxRow>, nodes: seq<MatrixRow>,
               cells: seq<Syntax>, end: nat, row: seq<MathNode>)
    requires RowsUpTo(lexicon, input, start, rowStart, rows, nodes) && rowStart <= end <= |input|
    requires cells != [] && CellsFit(lexicon, cells, input[rowStart..end], row)
    ensures RowsFit(lexicon, rows + [SyntaxRow(cells)], input[start..end], nodes + [MatrixRow(row)])
  {
    hide CellsFit, RowsFit;
    NothingFits(lexicon);
    if rows == [] {
      MoreRows(lexicon, [], "", [], cells, input[rowStart..end], row);
    } else {
      MoreRows(lexicon, rows, input[start..rowStart - 2], nodes, cells, input[rowStart..end], row);
      Cut(input, start, rowStart - 2, rowStart);
      Cut(input, start, rowStart, end);
    }
  }

  lemma MatrixFits(lexicon: Lexicon, gap: string, rows: seq<SyntaxRow>, text: string, nodes: seq<MatrixRow>,
                   gap2: string)
    requires IsBlank(gap) && IsBlank(gap2) && rows != [] && RowsFit(lexicon, rows, text, nodes)
    ensures Fits(lexicon, MatrixEnv(gap, rows, gap2),
                 "\\begin" + gap + "{matrix}" + text + ("\\end" + gap2 + "{matrix}"), Matrix(nodes))
  {
    var head := "\\begin" + gap + "{matrix}" + text;
    assert head + ("\\end" + gap2 + "{matrix}") == head + "\\end" + gap2 + "{matrix}";
  }

  lemma {:induction false} GroupSound(lexicon: Lexicon, input: string, i: nat, context: string) returns (s: Syntax)
    requires i <= |input| && GroupAt(lexicon, input, i, context).Ok?
    ensures var read := GroupAt(lexicon, input, i, context).value;
      s.Braces? && Fits(lexicon, s, input[BlankEnd(input, i)..read.next], read.value)
    decreases |input| - i, 0
  {
    hide Fits, SequenceAt, BlankEnd;
    var start, stops := BlankEnd(input, i), NoStop.(groupEnd := true);
    var inner := SequenceSound(lexicon, input, start + 1, stops);
    var read := SequenceAt(lexicon, input, start + 1, stops).value;
    BracesFit(lexicon, inner, input[start + 1..read.next], read.value.0);
    Enclosed(input, start, read.next + 1);
    s := Braces(inner);
  }

  lemma {:induction false} DegreeSound(lexicon: Lexicon, input: string, i: nat) returns (degree: Option<Syntax>)
    requires i <= |input| && DegreeAt(lexicon, input, i).Ok?
    ensures var read := DegreeAt(lexicon, input, i).value;
      DegreeFits(lexicon, degree, input[BlankEnd(input, i)..read.next], read.value)
    decreases |input| - i, 0
  {
    hide Fits, SequenceAt, BlankEnd, IsGrammatical, Spell, Meaning;
    var start, stops := BlankEnd(input, i), NoStop.(bracketEnd := true);
    if start == |input| || input[start] != '[' {
      degree := None;
    } else {
      var inner := SequenceSound(lexicon, input, start + 1, stops);
      var read := SequenceAt(lexicon, input, start + 1, stops).value;
      NotEmptyIsGroup(lexicon, inner, input[start + 1..read.next], read.value.0);
      DegreeIs(lexicon, inner, input[start + 1..read.next], read.value.0);
      Enclosed(input, start, read.next + 1);
      degree := Some(inner);
    }
  }

  /** Whatever a sequence reads is spelled by the grammar and stands for the tree it gives. */
  lemma {:induction false} SequenceSound(lexicon: Lexicon, input: string, i: nat, stops: StopSet) returns (s: Syntax)
    requires i <= |input| && SequenceAt(lexicon, input, i, stops).Ok?
    ensures var read := SequenceAt(lexicon, input, i, stops).value;
      s.Sequence? && Fits(lexicon, s, input[i..read.next], read.value.0)
    decreases |input| - i, 6
  {
    hide Fits, ItemsFit;
    var at := BlankEnd(input, i);
    SkipLead(lexicon, input, i, stops);
    LeadFits(lexicon, input[i..at]);
    BlankEndStays(input, at);
    s := ItemsSound(lexicon, input, i, at, stops, Sequence(input[i..at], []), []);
  }

  lemma SkipLead(lexicon: Lexicon, input: string, i: nat, stops: StopSet)
    requires i <= |input|
    ensures SequenceAt(lexicon, input, i, stops) == ItemsAt(lexicon, input, BlankEnd(input, i), stops, [])
  {
    hide StopAt, AtomAt, ScriptsAt;
    BlankEndStays(input, BlankEnd(input, i));
  }

  lemma {:induction false} ItemsSound(lexicon: Lexicon, input: string, start: nat, i: nat, stops: StopSet,
                                      before: Syntax, nodes: seq<MathNode>)
    returns (s: Syntax)
    requires start <= i <= |input| && BlankEnd(input, i) == i && before.Sequence?
    requires ItemsFit(lexicon, before, input[start..i], nodes) && ItemsAt(lexicon, input, i, stops, nodes).Ok?
    ensures var read := ItemsAt(lexicon, input, i, stops, nodes).value;
      s.Sequence? && Fits(lexicon, s, input[start..read.next], read.value.0)
    decreases |input| - i, 5
  {
    hide Fits, ItemsFit, AtomAt, ScriptsAt, StopAt, BlankEnd, ScriptsFit;
    if StopAt(input, i, stops).Some? {
      s := before;
      ItemsAreSequence(lexicon, s, input[start..i], nodes);
    } else {
      var atom := AtomAt(lexicon, input, i).value;
      var item := ScriptsAt(lexicon, input, atom.next, atom.value, None, None).value;
      var atomSyntax := AtomSound(lexicon, input, i);
      NoScripts(lexicon);
      assert input[atom.next..atom.next] == "";
      var scripts, split := ScriptsSound(lexicon, input, atom.next, atom.next, atom.value, None, None, []);
      ItemFits(lexicon, input, i, atom.next, split, item.next, atomSyntax, atom.value, scripts);
      var syntax := Item(atomSyntax, scripts, input[split..item.next]);
      MoreItems(lexicon, before, input[start..i], nodes, syntax, input[i..item.next], item.value);
      Cut(input, start, i, item.next);
      s := ItemsSound(lexicon, input, start, item.next, stops, Sequence(before.lead, before.items + [syntax]),
        nodes + [item.value]);
    }
  }

  lemma {:induction false} AtomSound(lexicon: Lexicon, input: string, i: nat) returns (s: Syntax)
    requires i <= |input| && AtomAt(lexicon, input, i).Ok?
    ensures var read := AtomAt(lexicon, input, i).value;
      IsAtom(s) && Fits(lexicon, s, input[BlankEnd(input, i)..read.next], read.value)
    decreases |input| - i, 2
  {
    hide Fits, GroupAt, CommandAtomAt, NumberEnd, IsNumberText, IsOperatorChar;
    var at := BlankEnd(input, i);
    BlankEndStays(input, at);
    hide BlankEnd;
    if input[at] == '{' {
      s := GroupSound(lexicon, input, at, "group");
    } else if input[at] == '\\' {
      s := CommandAtomSound(lexicon, input, at);
    } else if IsNumberAt(input, at) {
      var text := input[at..NumberEnd(input, at, false)];
      NumberTextAt(input, at);
      NumberFits(lexicon, text);
      s := Literal(text, Number(text));
    } else if lexicon.isLetter(input[at]) {
      LetterFits(lexicon, input[at]);
      OneChar(input, at);
      s := Literal([input[at]], Identifier([input[at]]));
    } else {
      OperatorFits(lexicon, input[at]);
      OneChar(input, at);
      s := Literal([input[at]], Operator([input[at]]));
    }
  }

  lemma NumberTextAt(input: string, i: nat)
    requires IsNumberAt(input, i)
    ensures IsNumberText(input[i..NumberEnd(input, i, false)])
  {
    var end := NumberEnd(input, i, false);
    if input[i] == '.' { assert NumberEnd(input, i + 1, true) > i + 1; }
  }

  lemma {:induction false} CommandAtomSound(lexicon: Lexicon, input: string, i: nat) returns (s: Syntax)
    requires i <= |input| && CommandAtomAt(lexicon, input, i).Ok?
    ensures var read := CommandAtomAt(lexicon, input, i).value;
      IsAtom(s) && Fits(lexicon, s, input[i..read.next], read.value)
    decreases |input| - i, 1
  {
    hide Fits, GroupAt, DegreeAt, LeftRightAt, BeginAt, CommandAt, BlankEnd, EscapedNode, WordNode, DegreeFits;
    var command := CommandAt(input, i).value;
    match command.value {
      case LineBreak =>
        BreakFits(lexicon);
        s := Literal("\\\\", Space);
      case Symbol(c) =>
        EscapedFits(lexicon, c, EscapedNode(c).value);
        s := Literal("\\" + [c], EscapedNode(c).value);
      case Word(word) =>
        if word == "begin" {
          s := BeginSound(lexicon, input, i, command.next);
        } else if word == "frac" {
          s := FracSound(lexicon, input, i, command.next);
        } else if word == "left" {
          s := LeftRightSound(lexicon, input, i, command.next);
        } else if word == "sqrt" {
          s := RootSound(lexicon, input, i, command.next);
        } else {
          WordFits(lexicon, word, WordNode(lexicon, word).value);
          s := Literal("\\" + word, WordNode(lexicon, word).value);
        }
    }
  }

  lemma {:induction false} FracSound(lexicon: Lexicon, input: string, start: nat, i: nat) returns (s: Syntax)
    requires start < i <= |input| && input[start..i] == SpellCommand(Word("frac"))
    requires GroupAt(lexicon, input, i, "\\frac numerator").Ok?
    requires GroupAt(lexicon, input, GroupAt(lexicon, input, i, "\\frac numerator").value.next,
      "\\frac denominator").Ok?
    ensures var over := GroupAt(lexicon, input, i, "\\frac numerator").value;
      var under := GroupAt(lexicon, input, over.next, "\\frac denominator").value;
      s.Frac? && Fits(lexicon, s, input[start..under.next], Fraction(over.value, under.value))
    decreases |input| - i, 1
  {
    hide Fits, GroupAt, BlankEnd;
    var over := GroupAt(lexicon, input, i, "\\frac numerator").value;
    var under := GroupAt(lexicon, input, over.next, "\\frac denominator").value;
    var b := over.next;
    var a := GroupSound(lexicon, input, i, "\\frac numerator");
    var c := GroupSound(lexicon, input, b, "\\frac denominator");
    var a1, b1 := BlankEnd(input, i), BlankEnd(input, b);
    FracFits(lexicon, input[i..a1], a, input[a1..b], over.value, input[b..b1], c, input[b1..under.next], under.value);
    FiveCuts(input, start, i, a1, b, b1, under.next);
    assert input[start..i] == "\\frac";
    s := Frac(input[i..a1], a, input[b..b1], c);
  }

  lemma {:induction false} RootSound(lexicon: Lexicon, input: string, start: nat, i: nat) returns (s: Syntax)
    requires start < i <= |input| && input[start..i] == SpellCommand(Word("sqrt"))
    requires DegreeAt(lexicon, input, i).Ok?
    requires GroupAt(lexicon, input, DegreeAt(lexicon, input, i).value.next, "\\sqrt radicand").Ok?
    ensures var degree := DegreeAt(lexicon, input, i).value;
      var body := GroupAt(lexicon, input, degree.next, "\\sqrt radicand").value;
      s.Root? && Fits(lexicon, s, input[start..body.next], Sqrt(degree.value, body.value))
    decreases |input| - i, 1
  {
    hide Fits, GroupAt, DegreeAt, BlankEnd, DegreeFits;
    var degree := DegreeAt(lexicon, input, i).value;
    var body := GroupAt(lexicon, input, degree.next, "\\sqrt radicand").value;
    var a := DegreeSound(lexicon, input, i);
    var b := degree.next;
    var c := GroupSound(lexicon, input, b, "\\sqrt radicand");
    var a1, b1 := BlankEnd(input, i), BlankEnd(input, b);
    RootFits(lexicon, input[i..a1], a, input[a1..b], degree.value, input[b..b1], c, input[b1..body.next], body.value);
    FiveCuts(input, start, i, a1, b, b1, body.next);
    assert input[start..i] == "\\sqrt";
    s := Root(input[i..a1], a, input[b..b1], c);
  }

  lemma {:induction false} ScriptsSound(lexicon: Lexicon, input: string, start: nat, i: nat, base: MathNode,
                                        subscript: Option<MathNode>, superscript: Option<MathNode>, before: seq<Syntax>)
    returns (scripts: seq<Syntax>, split: nat)
    requires start <= i <= |input| && ScriptsAt(lexicon, input, i, base, subscript, superscript).Ok?
    requires ScriptsFit(lexicon, before, input[start..i], subscript, superscript)
    ensures var read := ScriptsAt(lexicon, input, i, base, subscript, superscript).value;
      && start <= split <= read.next && IsBlank(input[split..read.next])
      && ScriptsFit(lexicon, scripts, input[start..split], ScriptMeaning(scripts, false), ScriptMeaning(scripts, true))
      && read.value == WithScripts(base, ScriptMeaning(scripts, false), ScriptMeaning(scripts, true))
    decreases |input| - i, 4
  {
    hide Fits, ScriptsFit, BlankEnd, ArgumentAt, ScriptMeaning;
    var at := BlankEnd(input, i);
    if at == |input| || (input[at] != '_' && input[at] != '^') {
      ScriptsSay(lexicon, before, input[start..i], subscript, superscript);
      scripts, split := before, i;
    } else {
      var isSuper := input[at] == '^';
      var argument := ArgumentAt(lexicon, input, at + 1).value;
      var syntax := ArgumentSound(lexicon, input, at + 1);
      var gapEnd := BlankEnd(input, at + 1);
      var script := Script(input[i..at], isSuper, input[at + 1..gapEnd], syntax);
      ScriptFits(lexicon, script, input[gapEnd..argument.next], argument.value);
      ScriptText(input, i, at, gapEnd, argument.next);
      MoreScripts(lexicon, before, input[start..i], subscript, superscript, script, input[i..argument.next],
        argument.value);
      Cut(input, start, i, argument.next);
      scripts, split := ScriptsSound(lexicon, input, start, argument.next, base,
        if isSuper then subscript else Some(argument.value),
        if isSuper then Some(argument.value) else superscript, before + [script]);
    }
  }

  lemma {:induction false} ArgumentSound(lexicon: Lexicon, input: string, i: nat) returns (s: Syntax)
    requires i <= |input| && ArgumentAt(lexicon, input, i).Ok?
    ensures var read := ArgumentAt(lexicon, input, i).value;
      IsAtom(s) && Fits(lexicon, s, input[BlankEnd(input, i)..read.next], read.value)
    decreases |input| - i, 3
  {
    hide Fits, GroupAt, AtomAt;
    var at := BlankEnd(input, i);
    BlankEndStays(input, at);
    hide BlankEnd;
    if at < |input| && input[at] == '{' {
      s := GroupSound(lexicon, input, at, "script argument");
    } else {
      s := AtomSound(lexicon, input, at);
    }
  }

  lemma DelimiterSound(input: string, i: nat) returns (d: Delimiter)
    requires i <= |input| && DelimiterAt(input, i).Ok?
    ensures var read := DelimiterAt(input, i).value;
      IsDelimiter(d) && d.text == read.value && d.gap + d.spelling == input[i..read.next]
  {
    var start, read := BlankEnd(input, i), DelimiterAt(input, i).value;
    d := Delimiter(input[i..start], input[start..read.next], read.value);
    Cut(input, i, start, read.next);
    hide BlankEnd, IsBlank;
  }

  lemma {:induction false} LeftRightSound(lexicon: Lexicon, input: string, start: nat, i: nat) returns (s: Syntax)
    requires start < i <= |input| && input[start..i] == SpellCommand(Word("left")) && LeftRightAt(lexicon, input, i).Ok?
    ensures var read := LeftRightAt(lexicon, input, i).value;
      s.LeftRight? && Fits(lexicon, s, input[start..read.next], read.value)
    decreases |input| - i, 6
  {
    hide Fits, SequenceAt, CommandAt, DelimiterAt, IsDelimiter, BlankEnd;
    var open := DelimiterAt(input, i).value;
    var body := SequenceAt(lexicon, input, open.next, NoStop.(rightDelimiter := true)).value;
    var command := CommandAt(input, body.next).value;
    var close := DelimiterAt(input, command.next).value;
    var a := DelimiterSound(input, i);
    var b := SequenceSound(lexicon, input, open.next, NoStop.(rightDelimiter := true));
    var c := DelimiterSound(input, command.next);
    LeftRightFits(lexicon, a, b, input[open.next..body.next], body.value.0, c);
    FiveCuts(input, start, i, open.next, body.next, command.next, close.next);
    assert input[start..i] == "\\left" && input[body.next..command.next] == "\\right";
    s := LeftRight(a, b, c);
  }

  lemma {:induction false} BeginSound(lexicon: Lexicon, input: string, start: nat, i: nat) returns (s: Syntax)
    requires start < i <= |input| && input[start..i] == SpellCommand(Word("begin")) && BeginAt(lexicon, input, i).Ok?
    ensures var read := BeginAt(lexicon, input, i).value;
      s.MatrixEnv? && Fits(lexicon, s, input[start..read.next], read.value)
    decreases |input| - i, 8
  {
    hide Fits, RowsAt, NameAt, BlankEnd, RowsFit, RowsUpTo, CellsUpTo;
    var name := NameAt(input, i).value;
    var rows := RowsAt(lexicon, input, name.next, [], []).value;
    StartMatrix(lexicon, input, name.next);
    var syntax, gap, split := RowsSound(lexicon, input, name.next, name.next, name.next, [], [], [], []);
    var a := BlankEnd(input, i);
    MatrixFits(lexicon, input[i..a], syntax, input[name.next..split], rows.value, gap);
    FiveCuts(input, start, i, a, name.next, split, rows.next);
    assert input[start..i] == "\\begin" && input[a..name.next] == "{matrix}";
    s := MatrixEnv(input[i..a], syntax, gap);
  }

  lemma StopIs(input: string, i: nat, stop: StopKind)
    requires i <= |input| && StopAt(input, i, CellStops) == Some(stop)
    ensures stop == AtCell ==> i < |input| && input[i] == '&'
    ensures stop == AtRow ==>
      CommandAt(input, i) == Ok(Read(LineBreak, i + 2)) && i + 2 <= |input| && input[i..i + 2] == "\\\\"
    ensures stop in [AtCell, AtRow, AtMatrixEnd, AtEnd]
  {
    hide NameAt, LettersEnd;
  }

  /** The rows from `start`, the current one starting at `rowStart`, up to the end of the environment
      at `split`. */
  lemma {:induction false} RowsSound(lexicon: Lexicon, input: string, start: nat, rowStart: nat, i: nat,
                                     rows: seq<SyntaxRow>, nodes: seq<MatrixRow>, cells: seq<Syntax>,
                                       row: seq<MathNode>)
    returns (all: seq<SyntaxRow>, gap: string, split: nat)
    requires start <= rowStart <= i <= |input| && RowsAt(lexicon, input, i, nodes, row).Ok?
    requires RowsUpTo(lexicon, input, start, rowStart, rows, nodes)
      && CellsUpTo(lexicon, input, rowStart, i, cells, row)
    ensures var read := RowsAt(lexicon, input, i, nodes, row).value;
      && start <= split <= read.next && IsBlank(gap) && all != []
      && RowsFit(lexicon, all, input[start..split], read.value)
      && input[split..read.next] == "\\end" + gap + "{matrix}"
    decreases |input| - i, 7
  {
    hide Fits, SequenceAt, RowsFit, CellsFit, RowsUpTo, CellsUpTo, MatrixEndAt, IsBlank, BlankEnd, StopAt, CommandAt;
    var parsed := SequenceAt(lexicon, input, i, CellStops).value;
    var next := parsed.next;
    var cell := SequenceSound(lexicon, input, i, CellStops);
    AddCell(lexicon, input, rowStart, i, cells, row, cell, next, parsed.value.0);
    var cells', row' := cells + [cell], row + [parsed.value.0];
    AddRow(lexicon, input, start, rowStart, rows, nodes, cells', next, row');
    var rows', nodes' := rows + [SyntaxRow(cells')], nodes + [MatrixRow(row')];
    StopIs(input, next, parsed.value.1);
    if parsed.value.1 == AtCell {
      NextCell(lexicon, input, rowStart, next + 1, cells', row');
      all, gap, split := RowsSound(lexicon, input, start, rowStart, next + 1, rows, nodes, cells', row');
    } else if parsed.value.1 == AtRow {
      var after := next + 2;
      NextRow(lexicon, input, start, after, rows', nodes');
      all, gap, split := RowsSound(lexicon, input, start, after, after, rows', nodes', [], []);
    } else {
      all, gap, split := rows', MatrixEndAt(input, next).value.value, next;
    }
  }

  /** An accepted input is spelled, from its first to its last character, by the grammar, and stands for
      the tree it gives, which is in normal form and not empty. */
  lemma DocumentSound(lexicon: Lexicon, input: string) returns (s: Syntax)
    requires DocumentAt(lexicon, input).Ok?
    ensures Fits(lexicon, s, input, DocumentAt(lexicon, input).value) && IsContent(DocumentAt(lexicon, input).value)
  {
    hide SequenceAt, IsGrammatical, Spell, Meaning, IsProper;
    s := SequenceSound(lexicon, input, 0, NoStop);
    var read := SequenceAt(lexicon, input, 0, NoStop).value;
    assert read.next == |input| && input[0..|input|] == input;
    GrammaticalIsProper(lexicon, s);
  }
}
