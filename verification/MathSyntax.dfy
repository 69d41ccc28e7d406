/** TeX-like math: the tree the parser builds, and a grammar that says which texts spell which trees. */
module MathSyntax {
  import opened Wrappers
  import opened Whitespace

  datatype MathNode =
    | Fraction(numerator: MathNode, denominator: MathNode)
    | Fenced(open: string, body: MathNode, close: string)
    | Identifier(text: string)
    | Matrix(rows: seq<MatrixRow>)
    | Number(text: string)
    | Operator(text: string)
    | Row(nodes: seq<MathNode>)
    | Space
    | Sqrt(degree: Option<MathNode>, radicand: MathNode)
    | SupSub(base: MathNode, subscript: Option<MathNode>, superscript: Option<MathNode>)

  datatype MatrixRow = MatrixRow(cells: seq<MathNode>)

  datatype Symbol = Named(text: string) | Sign(text: string)

  /** Which characters are letters, and what the commands without arguments stand for. */
  datatype Lexicon = Lexicon(isLetter: char -> bool, word: string -> Option<Symbol>)

  predicate IsDigit(c: char) {
    '0' <= c <= '9'
  }

  predicate IsAsciiLetter(c: char) {
    'a' <= c <= 'z' || 'A' <= c <= 'Z'
  }

  predicate IsOperatorChar(c: char) {
    c in "!()*+,-./:;<=>?[]|"
  }

  function RowOf(nodes: seq<MathNode>): MathNode {
    if |nodes| == 1 then nodes[0] else Row(nodes)
  }

  predicate IsEmpty(node: MathNode) {
    node == Row([])
  }

  function SymbolNode(symbol: Symbol): MathNode {
    match symbol
    case Named(text) => Identifier(text)
    case Sign(text) => Operator(text)
  }

  /** What an escaped character stands for. */
  function EscapedNode(c: char): Option<MathNode> {
    if c in " ,:;!" then Some(Space)
    else if c in "{}$%#&_^\\" || IsOperatorChar(c) then Some(Operator([c]))
    else None
  }

  /** Commands that are not looked up as symbols. */
  predicate IsReserved(word: string) {
    word in ["begin", "end", "frac", "left", "right", "sqrt"]
  }

  /** What a command without arguments stands for. */
  function WordNode(lexicon: Lexicon, word: string): Option<MathNode> {
    if IsReserved(word) then None
    else if word == "quad" then Some(Space)
    else if word == "qquad" then Some(Row([Space, Space]))
    else match lexicon.word(word) case None => None case Some(symbol) => Some(SymbolNode(symbol))
  }

  function DelimiterOfChar(c: char): Option<string> {
    if c == '.' then Some("") else if c in "()[]{}|" then Some([c]) else None
  }

  function DelimiterOfWord(word: string): Option<string> {
    if word == "langle" then Some(['\U{27E8}'])
    else if word == "lbrace" then Some("{")
    else if word == "lceil" then Some(['\U{2308}'])
    else if word == "lfloor" then Some(['\U{230A}'])
    else if word == "rangle" then Some(['\U{27E9}'])
    else if word == "rbrace" then Some("}")
    else if word == "rceil" then Some(['\U{2309}'])
    else if word == "rfloor" then Some(['\U{230B}'])
    else if word == "vert" then Some("|")
    else None
  }

  /** The commands without arguments: two spaces, none of the commands with arguments, and the lexicon's words as
      names and signs. */
  lemma WordsMean(lexicon: Lexicon, word: string)
    ensures word == "quad" ==> WordNode(lexicon, word) == Some(Space)
    ensures word == "qquad" ==> WordNode(lexicon, word) == Some(Row([Space, Space]))
    ensures word in {"begin", "end", "frac", "left", "right", "sqrt"} ==> WordNode(lexicon, word) == None
    ensures word !in {"begin", "end", "frac", "left", "right", "sqrt", "quad", "qquad"} ==>
      && (lexicon.word(word) == None ==> WordNode(lexicon, word) == None)
      && (forall text :: lexicon.word(word) == Some(Named(text)) ==> WordNode(lexicon, word) == Some(Identifier(text)))
      && (forall text :: lexicon.word(word) == Some(Sign(text)) ==> WordNode(lexicon, word) == Some(Operator(text)))
  {
    assert |"quad"| == 4 && |"qquad"| == 5 && "quad"[0] == 'q' && "qquad"[0] == 'q';
    assert "begin"[0] == 'b' && "end"[0] == 'e' && "frac"[0] == 'f' && "left"[0] == 'l' && "right"[0] == 'r';
    assert "sqrt"[0] == 's';
  }

  /** The characters of numbers and of words. */
  lemma CharactersMean(c: char)
    ensures IsDigit(c) <==> c in {'0', '1', '2', '3', '4', '5', '6', '7', '8', '9'}
    ensures c in {'a', 'e', 'm', 'z', 'A', 'E', 'M', 'Z'} ==> IsAsciiLetter(c)
    ensures IsAsciiLetter(c) ==> !IsDigit(c) && c !in {'@', '[', '`', '{', '\\', '*', '_'}
  {
  }

  /** An escaped mark is a space, a brace or another sign that has a meaning of its own is itself. */
  lemma EscapesMean(c: char)
    ensures EscapedNode(c) == Some(Space) <==> c in {' ', ',', ':', ';', '!'}
    ensures EscapedNode(c) == Some(Operator([c])) <==>
      c in {'{', '}', '$', '%', '#', '&', '_', '^', '\\', '(', ')', '*', '+', '-', '.', '/', '<', '=', '>', '?', '[',
            ']', '|'}
    ensures EscapedNode(c) in {None, Some(Space), Some(Operator([c]))}
  {
  }

  const DELIMITERS: map<string, string> := map[
    "langle" := ['\U{27E8}'], "rangle" := ['\U{27E9}'], "lbrace" := "{", "rbrace" := "}", "lceil" := ['\U{2308}'],
    "rceil" := ['\U{2309}'], "lfloor" := ['\U{230A}'], "rfloor" := ['\U{230B}'], "vert" := "|"]

  /** What may stand behind `\left` and `\right`: a bracket or bar, nothing for a dot, or one of nine words. */
  lemma DelimitersMean(word: string, c: char)
    ensures DelimiterOfWord(word) == if word in DELIMITERS then Some(DELIMITERS[word]) else None
    ensures DelimiterOfChar('.') == Some("")
    ensures c in {'(', ')', '[', ']', '{', '}', '|'} ==> DelimiterOfChar(c) == Some([c])
    ensures c !in {'(', ')', '[', ']', '{', '}', '|', '.'} ==> DelimiterOfChar(c) == None
  {
  }

  /** A text with its structure. `lead`, `gap` and `trail` are white space. */
  datatype Syntax =
    | Sequence(lead: string, items: seq<Syntax>)
    | Item(atom: Syntax, scripts: seq<Syntax>, trail: string)
    | Script(lead: string, isSuper: bool, gap: string, argument: Syntax)
    | Braces(inner: Syntax)
    | Literal(text: string, node: MathNode)
    | Frac(gap: string, over: Syntax, gap2: string, under: Syntax)
    | Root(gap: string, degree: Option<Syntax>, gap2: string, body: Syntax)
    | LeftRight(open: Delimiter, body: Syntax, close: Delimiter)
    | MatrixEnv(gap: string, rows: seq<SyntaxRow>, gap2: string)

  datatype SyntaxRow = SyntaxRow(cells: seq<Syntax>)

  datatype Delimiter = Delimiter(gap: string, spelling: string, text: string)

  function Spell(s: Syntax): string {
    match s
    case Sequence(lead, items) => lead + SpellAll(items)
    case Item(atom, scripts, trail) => Spell(atom) + SpellAll(scripts) + trail
    case Script(lead, isSuper, gap, argument) => lead + (if isSuper then "^" else "_") + gap + Spell(argument)
    case Braces(inner) => "{" + Spell(inner) + "}"
    case Literal(text, _) => text
    case Frac(gap, over, gap2, under) => "\\frac" + gap + Spell(over) + gap2 + Spell(under)
    case Root(gap, degree, gap2, body) =>
      "\\sqrt" + gap + (if degree.Some? then "[" + Spell(degree.value) + "]" else "") + gap2 + Spell(body)
    case LeftRight(open, body, close) =>
      "\\left" + open.gap + open.spelling + Spell(body) + "\\right" + close.gap + close.spelling
    case MatrixEnv(gap, rows, gap2) =>
      "\\begin" + gap + "{matrix}" + SpellRows(rows) + "\\end" + gap2 + "{matrix}"
  }

  function SpellAll(all: seq<Syntax>): string {
    if all == [] then [] else SpellAll(all[..|all| - 1]) + Spell(all[|all| - 1])
  }

  function SpellCells(cells: seq<Syntax>): string {
    if cells == [] then []
    else if |cells| == 1 then Spell(cells[0])
    else SpellCells(cells[..|cells| - 1]) + "&" + Spell(cells[|cells| - 1])
  }

  function SpellRows(rows: seq<SyntaxRow>): string {
    if rows == [] then []
    else if |rows| == 1 then SpellCells(rows[0].cells)
    else SpellRows(rows[..|rows| - 1]) + "\\\\" + SpellCells(rows[|rows| - 1].cells)
  }

  /** The tree a text stands for. */
  function Meaning(s: Syntax): MathNode {
    match s
    case Sequence(_, items) => RowOf(MeaningAll(items))
    case Item(atom, scripts, _) =>
      if scripts == [] then Meaning(atom)
      else SupSub(Meaning(atom), ScriptMeaning(scripts, false), ScriptMeaning(scripts, true))
    case Script(_, _, _, argument) => Meaning(argument)
    case Braces(inner) => Meaning(inner)
    case Literal(_, node) => node
    case Frac(_, over, _, under) => Fraction(Meaning(over), Meaning(under))
    case Root(_, degree, _, body) => Sqrt(if degree.Some? then Some(Meaning(degree.value)) else None, Meaning(body))
    case LeftRight(open, body, close) => Fenced(open.text, Meaning(body), close.text)
    case MatrixEnv(_, rows, _) => Matrix(MeaningRows(rows))
  }

  function MeaningAll(all: seq<Syntax>): (r: seq<MathNode>)
    ensures |r| == |all|
  {
    if all == [] then [] else MeaningAll(all[..|all| - 1]) + [Meaning(all[|all| - 1])]
  }

  function MeaningRows(rows: seq<SyntaxRow>): (r: seq<MatrixRow>)
    ensures |r| == |rows|
  {
    if rows == [] then [] else MeaningRows(rows[..|rows| - 1]) + [MatrixRow(MeaningAll(rows[|rows| - 1].cells))]
  }

  /** The last script of the wanted kind. */
  function ScriptMeaning(scripts: seq<Syntax>, isSuper: bool): Option<MathNode> {
    if scripts == [] then None
    else
      var last := scripts[|scripts| - 1];
      if last.Script? && last.isSuper == isSuper then Some(Meaning(last))
      else ScriptMeaning(scripts[..|scripts| - 1], isSuper)
  }

  predicate IsNumberText(text: string) {
    && text != []
    && (forall i :: 0 <= i < |text| ==> IsDigit(text[i]) || text[i] == '.')
    && (forall i, j :: 0 <= i < j < |text| ==> text[i] != '.' || text[j] != '.')
    && (IsDigit(text[0]) || (|text| > 1 && IsDigit(text[1])))
  }

  predicate IsLiteral(lexicon: Lexicon, text: string, node: MathNode) {
    || (IsNumberText(text) && node == Number(text))
    || (|text| == 1 && lexicon.isLetter(text[0]) && node == Identifier(text))
    || (|text| == 1 && IsOperatorChar(text[0]) && node == Operator(text))
    || (text == "\\\\" && node == Space)
    || (|text| == 2 && text[0] == '\\' && EscapedNode(text[1]) == Some(node))
    || ("\\" <= text && WordNode(lexicon, text[1..]) == Some(node))
  }

  predicate IsDelimiter(d: Delimiter) {
    && IsBlank(d.gap)
    && (|| (|d.spelling| == 1 && DelimiterOfChar(d.spelling[0]) == Some(d.text))
        || (|d.spelling| == 2 && d.spelling[0] == '\\' && DelimiterOfChar(d.spelling[1]) == Some(d.text))
        || ("\\" <= d.spelling && DelimiterOfWord(d.spelling[1..]) == Some(d.text)))
  }

  predicate IsAtom(s: Syntax) {
    s.Braces? || s.Literal? || s.Frac? || s.Root? || s.LeftRight? || s.MatrixEnv?
  }

  /** The grammar. */
  predicate IsGrammatical(lexicon: Lexicon, s: Syntax)
    decreases s
  {
    match s
    case Sequence(lead, items) =>
      IsBlank(lead) && AllGrammatical(lexicon, items) && forall i :: 0 <= i < |items| ==> items[i].Item?
    case Item(atom, scripts, trail) =>
      && IsAtom(atom) && IsGrammatical(lexicon, atom) && AllGrammatical(lexicon, scripts) && IsBlank(trail)
      && (forall i :: 0 <= i < |scripts| ==> scripts[i].Script?)
      && |scripts| <= 2
        && (|scripts| == 2 && scripts[0].Script? && scripts[1].Script? ==> scripts[0].isSuper != scripts[1].isSuper)
    case Script(lead, _, gap, argument) => IsBlank(lead) && IsBlank(gap) && IsAtom(argument)
      && IsGrammatical(lexicon, argument)
    case Braces(inner) => IsGroup(inner) && IsGrammatical(lexicon, inner)
    case Literal(text, node) => IsLiteral(lexicon, text, node)
    case Frac(gap, over, gap2, under) =>
      && IsBlank(gap) && IsBlank(gap2) && over.Braces? && under.Braces?
      && IsGrammatical(lexicon, over) && IsGrammatical(lexicon, under)
    case Root(gap, degree, gap2, body) =>
      && IsBlank(gap) && IsBlank(gap2) && body.Braces? && IsGrammatical(lexicon, body)
      && (degree.Some? ==> IsGroup(degree.value) && IsGrammatical(lexicon, degree.value))
    case LeftRight(open, body, close) =>
      IsDelimiter(open) && IsDelimiter(close) && body.Sequence? && IsGrammatical(lexicon, body)
    case MatrixEnv(gap, rows, gap2) =>
      IsBlank(gap) && IsBlank(gap2) && rows != [] && AllRowsGrammatical(lexicon, rows)
  }

  /** What may stand between braces or brackets. */
  predicate IsGroup(inner: Syntax) {
    inner.Sequence? && inner.items != []
  }

  predicate AllGrammatical(lexicon: Lexicon, all: seq<Syntax>)
    decreases all
  {
    all == [] || (AllGrammatical(lexicon, all[..|all| - 1]) && IsGrammatical(lexicon, all[|all| - 1]))
  }

  predicate AllRowsGrammatical(lexicon: Lexicon, rows: seq<SyntaxRow>)
    decreases rows
  {
    rows == []
    || (AllRowsGrammatical(lexicon, rows[..|rows| - 1]) && AreCells(rows[|rows| - 1].cells)
        && AllGrammatical(lexicon, rows[|rows| - 1].cells))
  }

  predicate AreCells(cells: seq<Syntax>) {
    cells != [] && forall i :: 0 <= i < |cells| ==> cells[i].Sequence?
  }

  /** A tree in normal form: no row of one, every script, fraction, radicand and degree has a content, a
      script node has a script, and a matrix has rows with cells. */
  predicate IsProper(node: MathNode)
    decreases node, 0
  {
    match node
    case Fraction(numerator, denominator) => IsContent(numerator) && IsContent(denominator)
    case Fenced(_, body, _) => IsProper(body)
    case Matrix(rows) => rows != [] && AllRowsProper(rows)
    case Row(nodes) => |nodes| != 1 && AllContent(nodes)
    case Sqrt(degree, radicand) => IsContent(radicand) && (degree.Some? ==> IsContent(degree.value))
    case SupSub(base, subscript, superscript) =>
      && IsContent(base) && (subscript.Some? || superscript.Some?)
      && (subscript.Some? ==> IsContent(subscript.value)) && (superscript.Some? ==> IsContent(superscript.value))
    case _ => true
  }

  predicate IsContent(node: MathNode)
    decreases node, 1
  {
    !IsEmpty(node) && IsProper(node)
  }

  predicate AllContent(nodes: seq<MathNode>)
    decreases nodes
  {
    nodes == [] || (AllContent(nodes[..|nodes| - 1]) && IsContent(nodes[|nodes| - 1]))
  }

  predicate AllProper(nodes: seq<MathNode>)
    decreases nodes
  {
    nodes == [] || (AllProper(nodes[..|nodes| - 1]) && IsProper(nodes[|nodes| - 1]))
  }

  predicate AllRowsProper(rows: seq<MatrixRow>)
    decreases rows
  {
    rows == []
    || (AllRowsProper(rows[..|rows| - 1]) && rows[|rows| - 1].cells != [] && AllProper(rows[|rows| - 1].cells))
  }

  /** What a grammatical text stands for is in normal form; only an empty sequence stands for the empty
      row. */
  lemma {:induction false} GrammaticalIsProper(lexicon: Lexicon, s: Syntax)
    requires IsGrammatical(lexicon, s)
    ensures IsProper(Meaning(s))
    ensures IsEmpty(Meaning(s)) ==> s.Sequence? && s.items == []
    decreases s, 1
  {
    hide IsLiteral, IsDelimiter, IsBlank, AllContent, AllRowsProper, AllGrammatical, AllRowsGrammatical, MeaningAll,
      MeaningRows,
      ScriptMeaning, IsAtom;
    match s {
      case Sequence(_, items) => ItemsAreContent(lexicon, items); RowIsProper(MeaningAll(items));
      case Item(_, _, _) => ItemIsContent(lexicon, s);
      case Script(_, _, _, argument) => AtomIsContent(lexicon, argument);
      case Braces(inner) => GrammaticalIsProper(lexicon, inner);
      case Literal(text, node) => LiteralIsProper(lexicon, text, node);
      case Frac(_, over, _, under) => GrammaticalIsProper(lexicon, over); GrammaticalIsProper(lexicon, under);
      case Root(_, degree, _, body) =>
        GrammaticalIsProper(lexicon, body);
        if degree.Some? { GrammaticalIsProper(lexicon, degree.value); }
      case LeftRight(_, body, _) => GrammaticalIsProper(lexicon, body);
      case MatrixEnv(_, rows, _) => RowsAreProper(lexicon, rows);
    }
  }

  lemma LiteralIsProper(lexicon: Lexicon, text: string, node: MathNode)
    requires IsLiteral(lexicon, text, node)
    ensures IsContent(node)
  {
    assert AllContent([]) && AllContent([Space]) by { assert [Space][..0] == []; }
    assert [Space, Space][..1] == [Space];
  }

  lemma RowIsProper(nodes: seq<MathNode>)
    requires AllContent(nodes)
    ensures IsProper(RowOf(nodes)) && (IsEmpty(RowOf(nodes)) ==> nodes == [])
  {
    if |nodes| == 1 { assert IsContent(nodes[0]); }
  }

  lemma {:induction false} AtomIsContent(lexicon: Lexicon, atom: Syntax)
    requires IsAtom(atom) && IsGrammatical(lexicon, atom)
    ensures IsContent(Meaning(atom))
    decreases atom, 2
  {
    GrammaticalIsProper(lexicon, atom);
    hide IsGrammatical, Meaning, IsProper, IsEmpty;
  }

  lemma {:induction false} ItemIsContent(lexicon: Lexicon, s: Syntax)
    requires s.Item? && IsGrammatical(lexicon, s)
    ensures IsContent(Meaning(s))
    decreases s, 0
  {
    hide IsBlank, AllContent, AllRowsProper, MeaningAll, MeaningRows, ScriptMeaning, AllGrammatical, IsAtom;
    AtomIsContent(lexicon, s.atom);
    ScriptsAreContent(lexicon, s.scripts, false);
    ScriptsAreContent(lexicon, s.scripts, true);
    if s.scripts != [] { LastScript(s.scripts); }
  }

  lemma {:induction false} ItemsAreContent(lexicon: Lexicon, items: seq<Syntax>)
    requires AllGrammatical(lexicon, items) && forall i :: 0 <= i < |items| ==> !items[i].Sequence?
    ensures AllContent(MeaningAll(items))
    decreases items
  {
    if items != [] {
      var n := |items| - 1;
      ItemsAreContent(lexicon, items[..n]);
      GrammaticalIsProper(lexicon, items[n]);
      assert MeaningAll(items)[..n] == MeaningAll(items[..n]);
    }
  }

  lemma {:induction false} CellsAreProper(lexicon: Lexicon, cells: seq<Syntax>)
    requires AllGrammatical(lexicon, cells)
    ensures AllProper(MeaningAll(cells))
    decreases cells
  {
    if cells != [] {
      var n := |cells| - 1;
      CellsAreProper(lexicon, cells[..n]);
      GrammaticalIsProper(lexicon, cells[n]);
      assert MeaningAll(cells)[..n] == MeaningAll(cells[..n]);
    }
  }

  lemma {:induction false} RowsAreProper(lexicon: Lexicon, rows: seq<SyntaxRow>)
    requires AllRowsGrammatical(lexicon, rows)
    ensures AllRowsProper(MeaningRows(rows))
    decreases rows
  {
    if rows != [] {
      var n := |rows| - 1;
      RowsAreProper(lexicon, rows[..n]);
      CellsAreProper(lexicon, rows[n].cells);
      assert MeaningRows(rows)[..n] == MeaningRows(rows[..n]);
    }
  }

  lemma {:induction false} ScriptsAreContent(lexicon: Lexicon, scripts: seq<Syntax>, isSuper: bool)
    requires AllGrammatical(lexicon, scripts)
    ensures var m := ScriptMeaning(scripts, isSuper); m.Some? ==> IsContent(m.value)
    decreases scripts
  {
    if scripts != [] {
      var n := |scripts| - 1;
      ScriptsAreContent(lexicon, scripts[..n], isSuper);
      GrammaticalIsProper(lexicon, scripts[n]);
    }
  }

  lemma LastScript(scripts: seq<Syntax>)
    requires scripts != [] && scripts[|scripts| - 1].Script?
    ensures ScriptMeaning(scripts, scripts[|scripts| - 1].isSuper).Some?
  {
  }
}
