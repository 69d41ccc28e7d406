/** The parser reads every text of the grammar whose words and numbers are as long as can be, and gives the
    tree the text stands for. */
module MathCompleteness {
  import opened Wrappers
  import opened Whitespace
  import opened MathSyntax
  import opened MathParsing

  predicate Occurs(input: string, i: nat, text: string) {
    i + |text| <= |input| && input[i..i + |text|] == text
  }

  lemma OccursParts(input: string, i: nat, a: string, b: string)
    ensures Occurs(input, i, a + b) <==> Occurs(input, i, a) && Occurs(input, i + |a|, b)
  {
    var n := i + |a| + |b|;
    if n <= |input| {
      assert input[i..n] == input[i..i + |a|] + input[i + |a|..n];
      if Occurs(input, i, a + b) {
        assert input[i..n][..|a|] == a && input[i..n][|a|..] == b;
      }
    }
  }

  lemma OccursAt(input: string, i: nat, text: string, k: nat)
    requires Occurs(input, i, text) && k < |text|
    ensures i + k < |input| && input[i + k] == text[k]
  {
    assert input[i..i + |text|][k] == input[i + k];
  }

  /** Nothing follows that would make a run of such characters longer. */
  predicate NoLetterAt(input: string, j: nat) {
    j < |input| ==> !IsAsciiLetter(input[j])
  }

  predicate AllLetters(s: string) {
    forall k :: 0 <= k < |s| ==> IsAsciiLetter(s[k])
  }

  /** A character that starts no other kind of token. */
  predicate IsPlainCharacter(c: char) {
    !IsWhitespace(c) && !IsDigit(c) && c !in "{}\\^_&"
  }

  predicate LongestNumber(text: string, node: MathNode, input: string, j: nat) {
    && IsNumberText(text) && node == Number(text)
    && (j < |input| ==> !IsDigit(input[j]) && (input[j] != '.' || '.' in text))
  }

  predicate LongestCharacter(lexicon: Lexicon, text: string, node: MathNode, input: string, j: nat) {
    && |text| == 1
    && (if lexicon.isLetter(text[0]) then IsPlainCharacter(text[0]) && node == Identifier(text)
        else IsOperatorChar(text[0]) && node == Operator(text))
    && (text[0] == '.' && j < |input| ==> !IsDigit(input[j]))
  }

  predicate LongestCommand(lexicon: Lexicon, text: string, node: MathNode, input: string, j: nat) {
    || (text == "\\\\" && node == Space)
    || (|text| == 2 && text[0] == '\\' && text[1] != '\\' && EscapedNode(text[1]) == Some(node))
    || ("\\" < text && AllLetters(text[1..]) && WordNode(lexicon, text[1..]) == Some(node) && NoLetterAt(input, j))
  }

  /** A literal that is as long as what follows at `j` allows. */
  predicate IsLongest(lexicon: Lexicon, text: string, node: MathNode, input: string, j: nat) {
    || LongestNumber(text, node, input, j) || LongestCharacter(lexicon, text, node, input, j)
    || LongestCommand(lexicon, text, node, input, j)
  }

  /** A delimiter whose word is as long as can be. */
  predicate DelimiterIsLongest(d: Delimiter, input: string, j: nat) {
    |d.spelling| > 1 && DelimiterOfWord(d.spelling[1..]).Some? ==> NoLetterAt(input, j)
  }

  /** A literal that would end the sequence it is in. */
  predicate IsStop(text: string, stops: StopSet) {
    (text == "]" && stops.bracketEnd) || (text == "\\\\" && stops.matrixRow)
  }

  /** Every token of the text, which is at `i`, is as long as can be, and none ends its sequence early. */
  predicate Maximal(lexicon: Lexicon, input: string, i: nat, s: Syntax, stops: StopSet)
    decreases s, 1
  {
    match s
    case Sequence(lead, items) => MaximalAll(lexicon, input, i + |lead|, items, stops)
    case Item(atom, scripts, _) =>
      && (atom.Literal? ==> !IsStop(atom.text, stops))
      && Maximal(lexicon, input, i, atom, NoStop)
      && MaximalAll(lexicon, input, i + |Spell(atom)|, scripts, NoStop)
    case Script(lead, _, gap, argument) => Maximal(lexicon, input, i + |lead| + 1 + |gap|, argument, NoStop)
    case Braces(inner) => Maximal(lexicon, input, i + 1, inner, NoStop.(groupEnd := true))
    case Literal(text, node) => IsLongest(lexicon, text, node, input, i + |text|)
    case Frac(gap, over, gap2, under) =>
      && Maximal(lexicon, input, i + 5 + |gap|, over, NoStop)
      && Maximal(lexicon, input, i + 5 + |gap| + |Spell(over)| + |gap2|, under, NoStop)
    case Root(gap, degree, gap2, body) =>
      var n := i + 5 + |gap|;
      && (degree.Some? ==> Maximal(lexicon, input, n + 1, degree.value, NoStop.(bracketEnd := true)))
      && Maximal(lexicon, input, n + (if degree.Some? then |Spell(degree.value)| + 2 else 0) + |gap2|, body, NoStop)
    case LeftRight(open, body, close) =>
      var n := i + 5 + |open.gap| + |open.spelling|;
      var m := n + |Spell(body)|;
      && DelimiterIsLongest(open, input, n)
      && Maximal(lexicon, input, n, body, NoStop.(rightDelimiter := true))
      && DelimiterIsLongest(close, input, m + 6 + |close.gap| + |close.spelling|)
    case MatrixEnv(gap, rows, _) => MaximalRows(lexicon, input, i + 14 + |gap|, rows)
  }

  predicate MaximalAll(lexicon: Lexicon, input: string, i: nat, all: seq<Syntax>, stops: StopSet)
    decreases all, 0
  {
    all == []
    || (MaximalAll(lexicon, input, i, all[..|all| - 1], stops)
        && Maximal(lexicon, input, i + |SpellAll(all[..|all| - 1])|, all[|all| - 1], stops))
  }

  /** Where the last cell starts. */
  function LastCellAt(i: nat, cells: seq<Syntax>): nat
    requires cells != []
  {
    i + if |cells| == 1 then 0 else |SpellCells(cells[..|cells| - 1])| + 1
  }

  predicate MaximalCells(lexicon: Lexicon, input: string, i: nat, cells: seq<Syntax>)
    decreases cells, 0
  {
    cells == []
    || (MaximalCells(lexicon, input, i, cells[..|cells| - 1])
        && Maximal(lexicon, input, LastCellAt(i, cells), cells[|cells| - 1], CellStops))
  }

  /** Where the last row starts. */
  function LastRowAt(i: nat, rows: seq<SyntaxRow>): nat
    requires rows != []
  {
    i + if |rows| == 1 then 0 else |SpellRows(rows[..|rows| - 1])| + 2
  }

  predicate MaximalRows(lexicon: Lexicon, input: string, i: nat, rows: seq<SyntaxRow>)
    decreases rows, 0
  {
    rows == []
    || (MaximalRows(lexicon, input, i, rows[..|rows| - 1])
        && MaximalCells(lexicon, input, LastRowAt(i, rows), rows[|rows| - 1].cells))
  }

  lemma {:induction false} LettersEndAt(input: string, i: nat, j: nat)
    requires i <= j <= |input| && (forall k :: i <= k < j ==> IsAsciiLetter(input[k])) && NoLetterAt(input, j)
    ensures LettersEnd(input, i) == j
    decreases j - i
  {
    if i < j { LettersEndAt(input, i + 1, j); }
  }

  lemma {:induction false} BlankEndAt(input: string, i: nat, gap: string)
    requires Occurs(input, i, gap) && IsBlank(gap)
    requires i + |gap| < |input| ==> !IsWhitespace(input[i + |gap|])
    ensures BlankEnd(input, i) == i + |gap|
    decreases |gap|
  {
    if gap != [] {
      OccursAt(input, i, gap, 0);
      OccursParts(input, i, [gap[0]], gap[1..]);
      assert [gap[0]] + gap[1..] == gap;
      hide IsWhitespace;
      BlankEndAt(input, i + 1, gap[1..]);
    }
  }

  /** A word is read to its end. */
  lemma CommandWord(input: string, i: nat, word: string)
    requires Occurs(input, i, "\\" + word) && word != [] && AllLetters(word) && NoLetterAt(input, i + 1 + |word|)
    ensures CommandAt(input, i) == Ok(Read(Word(word), i + 1 + |word|))
    ensures i < |input| && input[i] == '\\'
  {
    OccursParts(input, i, "\\", word);
    OccursAt(input, i, "\\", 0);
    WordEnds(input, i + 1, word);
    hide IsAsciiLetter, LettersEnd, AllLetters, NoLetterAt;
  }

  lemma WordEnds(input: string, i: nat, word: string)
    requires Occurs(input, i, word) && word != [] && AllLetters(word) && NoLetterAt(input, i + |word|)
    ensures LettersEnd(input, i) == i + |word| && IsAsciiLetter(input[i]) && input[i] != '\\'
  {
    forall k | i <= k < i + |word| ensures IsAsciiLetter(input[k]) && input[k] == word[k - i] {
      OccursAt(input, i, word, k - i);
      assert IsAsciiLetter(word[k - i]);
    }
    LettersEndAt(input, i, i + |word|);
  }

  lemma CommandBreak(input: string, i: nat)
    requires Occurs(input, i, "\\\\")
    ensures i < |input| && input[i] == '\\' && CommandAt(input, i) == Ok(Read(LineBreak, i + 2))
  {
    OccursAt(input, i, "\\\\", 0);
    OccursAt(input, i, "\\\\", 1);
  }

  lemma CommandSymbol(input: string, i: nat, c: char)
    requires Occurs(input, i, ['\\', c]) && c != '\\' && !IsAsciiLetter(c)
    ensures i < |input| && input[i] == '\\' && CommandAt(input, i) == Ok(Read(Symbol(c), i + 2))
  {
    OccursAt(input, i, ['\\', c], 0);
    OccursAt(input, i, ['\\', c], 1);
  }

  lemma {:induction false} NumberEndAt(input: string, i: nat, j: nat, seenDot: bool)
    requires i <= j <= |input|
    requires forall k :: i <= k < j ==> IsDigit(input[k]) || input[k] == '.'
    requires forall k, l :: i <= k < l < j ==> input[k] != '.' || input[l] != '.'
    requires seenDot ==> forall k :: i <= k < j ==> input[k] != '.'
    requires j < |input| ==>
      !IsDigit(input[j]) && (input[j] != '.' || seenDot || exists k :: i <= k < j && input[k] == '.')
    ensures NumberEnd(input, i, seenDot) == j
    decreases j - i
  {
    if i < j { NumberEndAt(input, i + 1, j, seenDot || input[i] == '.'); }
  }

  /** How a token or a structure starts: not with white space, nor with anything that ends a sequence. */
  predicate StartsAtom(input: string, i: nat) {
    i < |input| && !IsWhitespace(input[i]) && input[i] !in "}^_&"
  }

  predicate IsReservedCommand(command: Command) {
    command.Word? && IsReserved(command.text)
  }

  /** The literal is read as it stands, and what it starts with tells it from anything that ends a sequence. */
  predicate ReadsAs(lexicon: Lexicon, input: string, i: nat, text: string, node: MathNode) {
    && StartsAtom(input, i) && AtomAt(lexicon, input, i) == Ok(Read(node, i + |text|))
    && (input[i] == ']' ==> text == "]")
    && (input[i] == '\\' ==>
          var command := CommandAt(input, i);
          && command.Ok? && !IsReservedCommand(command.value.value)
          && (command.value.value == LineBreak ==> text == "\\\\"))
    && input[i] != '{'
  }

  lemma NumberIsRead(lexicon: Lexicon, input: string, i: nat, text: string, node: MathNode)
    requires Occurs(input, i, text) && LongestNumber(text, node, input, i + |text|)
    ensures ReadsAs(lexicon, input, i, text, node)
  {
    hide GroupAt, CommandAtomAt;
    var j := i + |text|;
    forall k | i <= k < j ensures input[k] == text[k - i] { OccursAt(input, i, text, k - i); }
    assert IsDigit(text[0]) || text[0] == '.';
    if '.' in text {
      var k :| 0 <= k < |text| && text[k] == '.';
      assert input[i + k] == '.';
    }
    NumberEndAt(input, i, j, false);
    assert IsNumberAt(input, i);
  }

  lemma CharacterIsRead(lexicon: Lexicon, input: string, i: nat, text: string, node: MathNode)
    requires Occurs(input, i, text) && LongestCharacter(lexicon, text, node, input, i + |text|)
    ensures ReadsAs(lexicon, input, i, text, node)
  {
    hide GroupAt, CommandAtomAt;
    OccursAt(input, i, text, 0);
    assert text == [text[0]];
    OperatorsAreApart(text[0]);
  }

  lemma OperatorsAreApart(c: char)
    ensures IsOperatorChar(c) ==> !IsWhitespace(c) && !IsDigit(c) && c !in "{}\\^_&"
  {
  }

  lemma CommandIsRead(lexicon: Lexicon, input: string, i: nat, text: string, node: MathNode)
    requires Occurs(input, i, text) && LongestCommand(lexicon, text, node, input, i + |text|)
    ensures ReadsAs(lexicon, input, i, text, node)
  {
    hide ReadsAs, CommandAt, Occurs, WordNode, EscapedNode;
    if text == "\\\\" && node == Space {
      CommandBreak(input, i);
      CommandReads(lexicon, input, i, text, node, LineBreak);
    } else if |text| == 2 && text[0] == '\\' && text[1] != '\\' && EscapedNode(text[1]) == Some(node) {
      EscapesAreNoLetters(text[1]);
      assert text == ['\\', text[1]];
      CommandSymbol(input, i, text[1]);
      CommandReads(lexicon, input, i, text, node, Symbol(text[1]));
    } else {
      WordIsSome(lexicon, text[1..]);
      assert text == "\\" + text[1..];
      CommandWord(input, i, text[1..]);
      CommandReads(lexicon, input, i, text, node, Word(text[1..]));
    }
  }

  /** What a command without arguments stands for. */
  function CommandNode(lexicon: Lexicon, command: Command): Option<MathNode> {
    match command
    case LineBreak => Some(Space)
    case Symbol(c) => EscapedNode(c)
    case Word(word) => WordNode(lexicon, word)
  }

  lemma CommandReads(lexicon: Lexicon, input: string, i: nat, text: string, node: MathNode, command: Command)
    requires i < |input| && input[i] == '\\' && CommandAt(input, i) == Ok(Read(command, i + |text|))
    requires CommandNode(lexicon, command) == Some(node) && (command == LineBreak ==> text == "\\\\")
    ensures ReadsAs(lexicon, input, i, text, node)
  {
    hide GroupAt, BeginAt, LeftRightAt, DegreeAt, CommandAt, EscapedNode, WordNode, IsReserved, IsWhitespace;
    BackslashStarts(lexicon, input, i);
    if command.Word? { WordIsSome(lexicon, command.text); NotReserved(command.text); }
    assert CommandAtomAt(lexicon, input, i) == Ok(Read(node, i + |text|));
  }

  /** A backslash is no white space, and an atom that starts with one is a command. */
  lemma BackslashStarts(lexicon: Lexicon, input: string, i: nat)
    requires i < |input| && input[i] == '\\'
    ensures StartsAtom(input, i) && BlankEnd(input, i) == i
    ensures AtomAt(lexicon, input, i) == CommandAtomAt(lexicon, input, i)
  {
    hide CommandAtomAt, GroupAt;
    assert !IsWhitespace('\\');
    assert '\\' !in "}^_&";
  }

  lemma NotReserved(word: string)
    requires !IsReserved(word)
    ensures word != "begin" && word != "end" && word != "frac" && word != "left" && word != "right" && word != "sqrt"
  {
  }

  lemma EscapesAreNoLetters(c: char)
    ensures EscapedNode(c).Some? ==> !IsAsciiLetter(c)
  {
  }

  lemma WordIsSome(lexicon: Lexicon, word: string)
    ensures WordNode(lexicon, word).Some? ==> !IsReserved(word)
  {
  }

  /** A literal that is as long as can be is read as it stands. */
  lemma LiteralIsRead(lexicon: Lexicon, input: string, i: nat, text: string, node: MathNode)
    requires Occurs(input, i, text) && IsLongest(lexicon, text, node, input, i + |text|)
    ensures ReadsAs(lexicon, input, i, text, node)
  {
    hide LongestNumber, LongestCharacter, LongestCommand, ReadsAs;
    if LongestNumber(text, node, input, i + |text|) {
      NumberIsRead(lexicon, input, i, text, node);
    } else if LongestCharacter(lexicon, text, node, input, i + |text|) {
      CharacterIsRead(lexicon, input, i, text, node);
    } else {
      CommandIsRead(lexicon, input, i, text, node);
    }
  }

  /** A text of the grammar stands at `i`, with its tokens as long as can be. */
  predicate Here(lexicon: Lexicon, input: string, i: nat, s: Syntax, stops: StopSet) {
    IsGrammatical(lexicon, s) && Occurs(input, i, Spell(s)) && Maximal(lexicon, input, i, s, stops)
  }

  predicate HereAll(lexicon: Lexicon, input: string, i: nat, all: seq<Syntax>, stops: StopSet) {
    AllGrammatical(lexicon, all) && Occurs(input, i, SpellAll(all)) && MaximalAll(lexicon, input, i, all, stops)
  }

  lemma HereLast(lexicon: Lexicon, input: string, i: nat, all: seq<Syntax>, stops: StopSet)
    requires HereAll(lexicon, input, i, all, stops) && all != []
    ensures var n := |all| - 1;
      && HereAll(lexicon, input, i, all[..n], stops)
      && Here(lexicon, input, i + |SpellAll(all[..n])|, all[n], stops)
      && SpellAll(all) == SpellAll(all[..n]) + Spell(all[n])
  {
    hide Occurs, Maximal, IsGrammatical, Spell, SpellAll, AllGrammatical, MaximalAll;
    var n := |all| - 1;
    GrammaticalLast(lexicon, all);
    SpellLast(all);
    MaximalLast(lexicon, input, i, all, stops);
    OccursParts(input, i, SpellAll(all[..n]), Spell(all[n]));
  }

  lemma GrammaticalLast(lexicon: Lexicon, all: seq<Syntax>)
    requires AllGrammatical(lexicon, all) && all != []
    ensures AllGrammatical(lexicon, all[..|all| - 1]) && IsGrammatical(lexicon, all[|all| - 1])
  {
    hide IsGrammatical;
  }

  lemma SpellLast(all: seq<Syntax>)
    requires all != []
    ensures SpellAll(all) == SpellAll(all[..|all| - 1]) + Spell(all[|all| - 1])
  {
    hide Spell;
  }

  lemma MaximalLast(lexicon: Lexicon, input: string, i: nat, all: seq<Syntax>, stops: StopSet)
    requires MaximalAll(lexicon, input, i, all, stops) && all != []
    ensures MaximalAll(lexicon, input, i, all[..|all| - 1], stops)
    ensures Maximal(lexicon, input, i + |SpellAll(all[..|all| - 1])|, all[|all| - 1], stops)
  {
    hide Maximal, SpellAll;
  }

  /** One of a list of texts. */
  lemma {:induction false} HereAt(lexicon: Lexicon, input: string, i: nat, all: seq<Syntax>, stops: StopSet, k: nat)
    requires HereAll(lexicon, input, i, all, stops) && k < |all|
    ensures Here(lexicon, input, i + |SpellAll(all[..k])|, all[k], stops)
    ensures SpellAll(all[..k + 1]) == SpellAll(all[..k]) + Spell(all[k])
    ensures Occurs(input, i, SpellAll(all[..k]))
    decreases |all|
  {
    hide HereAll, Here, Spell;
    HereLast(lexicon, input, i, all, stops);
    var n := |all| - 1;
    if k < n {
      HereAt(lexicon, input, i, all[..n], stops, k);
      assert all[..n][..k] == all[..k] && all[..n][..k + 1] == all[..k + 1];
    } else {
      assert all[..k + 1] == all && all[..n] == all[..k];
      PrefixOccurs(lexicon, input, i, all[..n], stops);
    }
  }

  lemma PrefixOccurs(lexicon: Lexicon, input: string, i: nat, all: seq<Syntax>, stops: StopSet)
    requires HereAll(lexicon, input, i, all, stops)
    ensures Occurs(input, i, SpellAll(all))
  {
  }

  /** White space, and something else behind it. */
  lemma GapThen(input: string, i: nat, gap: string)
    requires Occurs(input, i, gap) && IsBlank(gap) && i + |gap| < |input|
    requires !IsWhitespace(input[i + |gap|]) && !IsAsciiLetter(input[i + |gap|])
    ensures NoLetterAt(input, i) && BlankEnd(input, i) == i + |gap|
  {
    BlankEndAt(input, i, gap);
    if gap != [] {
      OccursAt(input, i, gap, 0);
      WhitespaceIsNoLetter(gap[0]);
    }
  }

  lemma WhitespaceIsNoLetter(c: char)
    ensures IsWhitespace(c) ==> !IsAsciiLetter(c)
  {
  }

  lemma SignsAreSigns()
    ensures forall c :: c in "{}[]()|\\^_&." ==> !IsWhitespace(c) && !IsAsciiLetter(c)
  {
  }

  /** What may follow a sequence that stops at `j`. */
  predicate EndsAt(input: string, j: nat, stops: StopSet, kind: StopKind) {
    && j <= |input| && StopAt(input, j, stops) == Some(kind)
    && NoScriptAt(input, j)
  }

  /** Neither white space nor a script follows. */
  predicate NoScriptAt(input: string, j: nat) {
    j < |input| ==> !IsWhitespace(input[j]) && input[j] != '^' && input[j] != '_'
  }

  predicate IsCommandSyntax(s: Syntax) {
    s.Frac? || s.Root? || s.LeftRight? || s.MatrixEnv?
  }

  function CommandWordOf(s: Syntax): string
    requires IsCommandSyntax(s)
  {
    match s
    case Frac(_, _, _, _) => "frac"
    case Root(_, _, _, _) => "sqrt"
    case LeftRight(_, _, _) => "left"
    case MatrixEnv(_, _, _) => "begin"
  }

  /** What a command's text goes on with: white space, and no letter behind it. */
  lemma CommandGap(lexicon: Lexicon, input: string, i: nat, s: Syntax, stops: StopSet)
    requires IsCommandSyntax(s) && Here(lexicon, input, i, s, stops)
    ensures CommandAt(input, i) == Ok(Read(Word(CommandWordOf(s)), i + 1 + |CommandWordOf(s)|))
    ensures i < |input| && input[i] == '\\'
  {
    hide CommandAt, Occurs, IsBlank, Maximal, IsGrammatical;
    SignsAreSigns();
    var word := CommandWordOf(s);
    WordsAreLetters(s);
    var gap, first := GapOf(s), FirstAfterGap(s);
    var rest := SpellsCommand(lexicon, s);
    OccursParts(input, i, "\\" + word, gap + ([first] + rest));
    OccursParts(input, i + 1 + |word|, gap, [first] + rest);
    OccursParts(input, i + 1 + |word| + |gap|, [first], rest);
    FirstIs(input, i + 1 + |word| + |gap|, first);
    GapThen(input, i + 1 + |word|, gap);
    CommandWord(input, i, word);
  }

  lemma FirstIs(input: string, i: nat, c: char)
    requires Occurs(input, i, [c])
    ensures i < |input| && input[i] == c
  {
    OccursAt(input, i, [c], 0);
  }

  lemma WordsAreLetters(s: Syntax)
    requires IsCommandSyntax(s)
    ensures CommandWordOf(s) != [] && AllLetters(CommandWordOf(s))
  {
  }

  function GapOf(s: Syntax): string
    requires IsCommandSyntax(s)
  {
    match s
    case Frac(gap, _, _, _) => gap
    case Root(gap, degree, gap2, _) => if degree.Some? then gap else gap + gap2
    case LeftRight(open, _, _) => open.gap
    case MatrixEnv(gap, _, _) => gap
  }

  function FirstAfterGap(s: Syntax): char
    requires IsCommandSyntax(s)
  {
    match s
    case Root(_, Some(_), _, _) => '['
    case LeftRight(open, _, _) => if open.spelling == [] then '.' else open.spelling[0]
    case _ => '{'
  }

  lemma SpellsCommand(lexicon: Lexicon, s: Syntax) returns (rest: string)
    requires IsCommandSyntax(s) && IsGrammatical(lexicon, s)
    ensures SpellsWith(s, rest)
  {
    if s.Frac? {
      rest := SpellsFrac(lexicon, s);
    } else if s.Root? {
      rest := SpellsRoot(lexicon, s);
    } else if s.LeftRight? {
      rest := SpellsLeft(lexicon, s);
    } else {
      rest := SpellsMatrix(lexicon, s);
    }
    hide *;
  }

  /** The text of a command: its word, white space, a sign, and the rest. */
  predicate SpellsWith(s: Syntax, rest: string)
    requires IsCommandSyntax(s)
  {
    && Spell(s) == "\\" + CommandWordOf(s) + (GapOf(s) + ([FirstAfterGap(s)] + rest)) && IsBlank(GapOf(s))
    && FirstAfterGap(s) in "{}[]()|\\."
  }

  lemma SpellsFrac(lexicon: Lexicon, s: Syntax) returns (rest: string)
    requires s.Frac? && IsGrammatical(lexicon, s)
    ensures SpellsWith(s, rest)
  {
    hide IsBlank;
    rest := FracText(s.gap, Spell(s.over.inner), s.gap2, Spell(s.under));
    BracesText(s.over);
    assert Spell(s) == "\\frac" + s.gap + Spell(s.over) + s.gap2 + Spell(s.under);
  }

  lemma BracesText(s: Syntax)
    requires s.Braces?
    ensures Spell(s) == "{" + Spell(s.inner) + "}"
  {
  }

  lemma SpellsRoot(lexicon: Lexicon, s: Syntax) returns (rest: string)
    requires s.Root? && IsGrammatical(lexicon, s)
    ensures SpellsWith(s, rest)
  {
    hide IsBlank;
    if s.degree.Some? {
      rest := RootText(s.gap, Spell(s.degree.value), s.gap2, Spell(s.body));
      assert Spell(s) == "\\sqrt" + s.gap + ("[" + Spell(s.degree.value) + "]") + s.gap2 + Spell(s.body);
    } else {
      rest := BareRootText(s.gap, s.gap2, Spell(s.body.inner));
      BracesText(s.body);
      assert Spell(s) == "\\sqrt" + s.gap + "" + s.gap2 + Spell(s.body);
      BlankConcat(s.gap, s.gap2);
    }
  }

  lemma SpellsLeft(lexicon: Lexicon, s: Syntax) returns (rest: string)
    requires s.LeftRight? && IsGrammatical(lexicon, s)
    ensures SpellsWith(s, rest)
  {
    hide IsBlank, IsDelimiter;
    var open, tail := s.open, Spell(s.body) + "\\right" + s.close.gap + s.close.spelling;
    DelimiterStarts(open);
    rest := LeftText(open.gap, open.spelling, tail);
    assert Spell(s) == "\\left" + open.gap + open.spelling + tail;
  }

  lemma SpellsMatrix(lexicon: Lexicon, s: Syntax) returns (rest: string)
    requires s.MatrixEnv? && IsGrammatical(lexicon, s)
    ensures SpellsWith(s, rest)
  {
    hide IsBlank;
    var tail := SpellRows(s.rows) + "\\end" + s.gap2 + "{matrix}";
    rest := BeginText(s.gap, tail);
    assert Spell(s) == "\\begin" + s.gap + "{matrix}" + tail;
  }

  lemma FracText(gap: string, over: string, gap2: string, under: string) returns (rest: string)
    ensures "\\frac" + gap + ("{" + over + "}") + gap2 + under == "\\" + "frac" + (gap + (['{'] + rest))
  {
    rest := over + "}" + gap2 + under;
  }

  lemma BareRootText(gap: string, gap2: string, body: string) returns (rest: string)
    ensures "\\sqrt" + gap + "" + gap2 + ("{" + body + "}") == "\\" + "sqrt" + (gap + gap2 + (['{'] + rest))
  {
    rest := body + "}";
  }

  lemma RootText(gap: string, degree: string, gap2: string, body: string) returns (rest: string)
    ensures "\\sqrt" + gap + ("[" + degree + "]") + gap2 + body == "\\" + "sqrt" + (gap + (['['] + rest))
  {
    rest := degree + "]" + gap2 + body;
  }

  lemma LeftText(gap: string, spelling: string, more: string) returns (rest: string)
    requires spelling != []
    ensures "\\left" + gap + spelling + more == "\\" + "left" + (gap + ([spelling[0]] + rest))
  {
    rest := spelling[1..] + more;
    assert spelling == [spelling[0]] + spelling[1..];
  }

  lemma BeginText(gap: string, more: string) returns (rest: string)
    ensures "\\begin" + gap + "{matrix}" + more == "\\" + "begin" + (gap + (['{'] + rest))
  {
    rest := "matrix}" + more;
    assert "{matrix}" == ['{'] + "matrix}";
  }

  lemma BlankConcat(a: string, b: string)
    requires IsBlank(a) && IsBlank(b)
    ensures IsBlank(a + b)
  {
    hide IsWhitespace;
  }

  lemma DelimiterStarts(d: Delimiter)
    requires IsDelimiter(d)
    ensures IsBlank(d.gap) && d.spelling != [] && d.spelling[0] in "{}[]()|\\."
  {
    hide IsBlank;
  }

  /** A literal that ends no sequence. */
  lemma LiteralDoesNotStop(lexicon: Lexicon, input: string, i: nat, text: string, node: MathNode, stops: StopSet)
    requires ReadsAs(lexicon, input, i, text, node) && !IsStop(text, stops)
    ensures StopAt(input, i, stops).None?
  {
    hide AtomAt, CommandAt, NameAt;
    assert IsReserved("right") && IsReserved("end");
  }

  /** An atom starts with neither white space nor anything that ends a sequence. */
  lemma AtomStarts(lexicon: Lexicon, input: string, i: nat, s: Syntax, stops: StopSet)
    requires IsAtom(s) && Here(lexicon, input, i, s, NoStop) && (s.Literal? ==> !IsStop(s.text, stops))
    ensures StartsAtom(input, i) && StopAt(input, i, stops).None?
  {
    hide Occurs, IsGrammatical, CommandAt, NameAt, Spell, Maximal, StopAt, StartsAtom;
    if s.Literal? {
      LiteralHere(lexicon, input, i, s);
      LiteralIsRead(lexicon, input, i, s.text, s.node);
      LiteralDoesNotStop(lexicon, input, i, s.text, s.node, stops);
      ReadsStarts(lexicon, input, i, s.text, s.node);
    } else if s.Braces? {
      BracesParts(lexicon, input, i, s);
      BraceDoesNotStop(input, i, stops);
    } else {
      CommandGap(lexicon, input, i, s, NoStop);
      CommandDoesNotStop(input, i, s, stops);
    }
  }

  lemma LiteralHere(lexicon: Lexicon, input: string, i: nat, s: Syntax)
    requires s.Literal? && Here(lexicon, input, i, s, NoStop)
    ensures Occurs(input, i, s.text) && IsLongest(lexicon, s.text, s.node, input, i + |s.text|)
    ensures Spell(s) == s.text && Meaning(s) == s.node
  {
  }

  lemma ReadsStarts(lexicon: Lexicon, input: string, i: nat, text: string, node: MathNode)
    requires ReadsAs(lexicon, input, i, text, node)
    ensures StartsAtom(input, i)
  {
  }

  lemma BraceDoesNotStop(input: string, i: nat, stops: StopSet)
    requires i < |input| && input[i] == '{'
    ensures StopAt(input, i, stops).None? && StartsAtom(input, i)
  {
    SignsAreSigns();
  }

  lemma CommandDoesNotStop(input: string, i: nat, s: Syntax, stops: StopSet)
    requires IsCommandSyntax(s) && i < |input| && input[i] == '\\'
    requires CommandAt(input, i) == Ok(Read(Word(CommandWordOf(s)), i + 1 + |CommandWordOf(s)|))
    ensures StopAt(input, i, stops).None? && StartsAtom(input, i)
  {
    hide CommandAt, NameAt;
    SignsAreSigns();
    OtherWords(s);
  }

  lemma OtherWords(s: Syntax)
    requires IsCommandSyntax(s)
    ensures CommandWordOf(s) != "right" && CommandWordOf(s) != "end"
  {
    assert "frac"[0] == 'f' && "sqrt"[0] == 's' && "left"[0] == 'l' && "begin"[0] == 'b';
  }

  lemma BracesParts(lexicon: Lexicon, input: string, i: nat, s: Syntax)
    requires s.Braces? && Here(lexicon, input, i, s, NoStop)
    ensures i < |input| && input[i] == '{' && IsGroup(s.inner)
    ensures Here(lexicon, input, i + 1, s.inner, NoStop.(groupEnd := true))
    ensures var j := i + 1 + |Spell(s.inner)|; j < |input| && input[j] == '}' && j + 1 == i + |Spell(s)|
  {
    hide Occurs, IsBlank;
    var inner := Spell(s.inner);
    OccursParts(input, i, "{" + inner, "}");
    OccursParts(input, i, "{", inner);
    FirstIs(input, i, '{');
    FirstIs(input, i + 1 + |inner|, '}');
  }

  lemma FracParts(lexicon: Lexicon, input: string, i: nat, s: Syntax)
    requires s.Frac? && Here(lexicon, input, i, s, NoStop)
    ensures var p := i + 5 + |s.gap|;
      var q := p + |Spell(s.over)|;
      && s.over.Braces? && s.under.Braces?
      && Occurs(input, i + 5, s.gap) && IsBlank(s.gap) && Here(lexicon, input, p, s.over, NoStop)
      && Occurs(input, q, s.gap2) && IsBlank(s.gap2) && Here(lexicon, input, q + |s.gap2|, s.under, NoStop)
      && i + |Spell(s)| == q + |s.gap2| + |Spell(s.under)|
  {
    hide Occurs, IsBlank;
    var over, under := Spell(s.over), Spell(s.under);
    OccursParts(input, i, "\\frac" + s.gap + over + s.gap2, under);
    OccursParts(input, i, "\\frac" + s.gap + over, s.gap2);
    OccursParts(input, i, "\\frac" + s.gap, over);
    OccursParts(input, i, "\\frac", s.gap);
  }

  /** A root's degree with its brackets. */
  function DegreeText(s: Syntax): string
    requires s.Root?
  {
    if s.degree.Some? then "[" + Spell(s.degree.value) + "]" else ""
  }

  lemma RootParts(lexicon: Lexicon, input: string, i: nat, s: Syntax)
    requires s.Root? && Here(lexicon, input, i, s, NoStop)
    ensures var p := i + 5 + |s.gap|;
      var q := p + |DegreeText(s)|;
      && s.body.Braces?
      && Occurs(input, i + 5, s.gap) && IsBlank(s.gap) && Occurs(input, p, DegreeText(s))
      && (s.degree.Some? ==>
            IsGroup(s.degree.value) && Here(lexicon, input, p + 1, s.degree.value, NoStop.(bracketEnd := true)))
      && Occurs(input, q, s.gap2) && IsBlank(s.gap2) && Here(lexicon, input, q + |s.gap2|, s.body, NoStop)
      && i + |Spell(s)| == q + |s.gap2| + |Spell(s.body)|
  {
    hide Occurs, IsBlank;
    var degree, body := DegreeText(s), Spell(s.body);
    OccursParts(input, i, "\\sqrt" + s.gap + degree + s.gap2, body);
    OccursParts(input, i, "\\sqrt" + s.gap + degree, s.gap2);
    OccursParts(input, i, "\\sqrt" + s.gap, degree);
    OccursParts(input, i, "\\sqrt", s.gap);
    if s.degree.Some? {
      OccursParts(input, i + 5 + |s.gap|, "[" + Spell(s.degree.value), "]");
      OccursParts(input, i + 5 + |s.gap|, "[", Spell(s.degree.value));
    }
  }

  lemma LeftRightParts(lexicon: Lexicon, input: string, i: nat, s: Syntax)
    requires s.LeftRight? && Here(lexicon, input, i, s, NoStop)
    ensures var n := i + 5 + |s.open.gap| + |s.open.spelling|;
      var m := n + |Spell(s.body)|;
      && IsDelimiter(s.open) && IsDelimiter(s.close) && s.body.Sequence?
      && Occurs(input, i + 5, s.open.gap + s.open.spelling) && DelimiterIsLongest(s.open, input, n)
      && Here(lexicon, input, n, s.body, NoStop.(rightDelimiter := true))
      && Occurs(input, m, "\\right") && Occurs(input, m + 6, s.close.gap + s.close.spelling)
      && DelimiterIsLongest(s.close, input, m + 6 + |s.close.gap| + |s.close.spelling|)
      && i + |Spell(s)| == m + 6 + |s.close.gap| + |s.close.spelling|
  {
    hide Occurs, IsBlank, IsDelimiter, DelimiterIsLongest;
    var open, close, body := s.open, s.close, Spell(s.body);
    var head := "\\left" + open.gap + open.spelling;
    assert Spell(s) == head + body + "\\right" + (close.gap + close.spelling);
    OccursParts(input, i, head + body + "\\right", close.gap + close.spelling);
    OccursParts(input, i, head + body, "\\right");
    OccursParts(input, i, head, body);
    assert head == "\\left" + (open.gap + open.spelling);
    OccursParts(input, i, "\\left", open.gap + open.spelling);
  }

  lemma MatrixParts(lexicon: Lexicon, input: string, i: nat, s: Syntax)
    requires s.MatrixEnv? && Here(lexicon, input, i, s, NoStop)
    ensures var p := i + 14 + |s.gap|;
      var q := p + |SpellRows(s.rows)|;
      && s.rows != [] && AllRowsGrammatical(lexicon, s.rows)
      && Occurs(input, i + 6, s.gap + "{matrix}") && IsBlank(s.gap)
      && Occurs(input, p, SpellRows(s.rows)) && MaximalRows(lexicon, input, p, s.rows)
      && Occurs(input, q, "\\end" + s.gap2 + "{matrix}") && IsBlank(s.gap2)
      && i + |Spell(s)| == q + 12 + |s.gap2|
  {
    hide Occurs, IsBlank;
    var rows, tail := SpellRows(s.rows), "\\end" + s.gap2 + "{matrix}";
    assert Spell(s) == "\\begin" + (s.gap + "{matrix}") + rows + tail;
    OccursParts(input, i, "\\begin" + (s.gap + "{matrix}") + rows, tail);
    OccursParts(input, i, "\\begin" + (s.gap + "{matrix}"), rows);
    OccursParts(input, i, "\\begin", s.gap + "{matrix}");
    assert |"\\begin"| == 6 && |"{matrix}"| == 8 && |"\\end"| == 4;
  }

  lemma ItemParts(lexicon: Lexicon, input: string, i: nat, s: Syntax, stops: StopSet)
    requires s.Item? && Here(lexicon, input, i, s, stops)
    ensures var p := i + |Spell(s.atom)|;
      var q := p + |SpellAll(s.scripts)|;
      && IsAtom(s.atom) && (s.atom.Literal? ==> !IsStop(s.atom.text, stops))
      && Here(lexicon, input, i, s.atom, NoStop) && HereAll(lexicon, input, p, s.scripts, NoStop)
      && (forall k :: 0 <= k < |s.scripts| ==> s.scripts[k].Script?) && |s.scripts| <= 2
      && (|s.scripts| == 2 ==> s.scripts[0].isSuper != s.scripts[1].isSuper)
      && Occurs(input, q, s.trail) && IsBlank(s.trail) && i + |Spell(s)| == q + |s.trail|
  {
    hide Occurs, IsBlank, IsAtom, IsStop;
    OccursParts(input, i, Spell(s.atom) + SpellAll(s.scripts), s.trail);
    OccursParts(input, i, Spell(s.atom), SpellAll(s.scripts));
  }

  lemma ScriptParts(lexicon: Lexicon, input: string, i: nat, s: Syntax)
    requires s.Script? && Here(lexicon, input, i, s, NoStop)
    ensures var p := i + |s.lead|;
      && Occurs(input, i, s.lead) && IsBlank(s.lead) && p < |input| && input[p] == (if s.isSuper then '^' else '_')
      && Occurs(input, p + 1, s.gap) && IsBlank(s.gap)
      && IsAtom(s.argument) && Here(lexicon, input, p + 1 + |s.gap|, s.argument, NoStop)
      && i + |Spell(s)| == p + 1 + |s.gap| + |Spell(s.argument)|
  {
    hide Occurs, IsBlank, IsAtom;
    var mark := if s.isSuper then "^" else "_";
    OccursParts(input, i, s.lead + mark + s.gap, Spell(s.argument));
    OccursParts(input, i, s.lead + mark, s.gap);
    OccursParts(input, i, s.lead, mark);
    FirstIs(input, i + |s.lead|, mark[0]);
    assert mark == [mark[0]];
  }

  lemma SequenceParts(lexicon: Lexicon, input: string, i: nat, s: Syntax, stops: StopSet)
    requires s.Sequence? && Here(lexicon, input, i, s, stops)
    ensures Occurs(input, i, s.lead) && IsBlank(s.lead) && HereAll(lexicon, input, i + |s.lead|, s.items, stops)
    ensures (forall k :: 0 <= k < |s.items| ==> s.items[k].Item?) && |Spell(s)| == |s.lead| + |SpellAll(s.items)|
  {
    hide Occurs, IsBlank;
    OccursParts(input, i, s.lead, SpellAll(s.items));
  }

  lemma DelimiterWords(word: string)
    ensures DelimiterOfWord(word).Some? ==> |word| > 1 && AllLetters(word)
  {
  }

  lemma DelimiterCharacters(c: char)
    ensures DelimiterOfChar(c).Some? ==> !IsWhitespace(c) && !IsAsciiLetter(c) && c != '\\'
  {
  }

  lemma SignReads(input: string, i: nat, at: nat, text: string)
    requires i <= at < |input| && BlankEnd(input, i) == at && input[at] != '\\' && DelimiterIn(input[at]) == Ok(text)
    ensures DelimiterAt(input, i) == Ok(Read(text, at + 1))
  {
    hide CommandAt, BlankEnd, DelimiterIn;
  }

  lemma CommandReadsAs(input: string, i: nat, at: nat, command: Command, text: string, next: nat)
    requires i <= at < |input| && BlankEnd(input, i) == at && input[at] == '\\'
    requires CommandAt(input, at) == Ok(Read(command, next)) && DelimiterOfCommand(command) == Ok(text)
    ensures DelimiterAt(input, i) == Ok(Read(text, next))
  {
    hide CommandAt, BlankEnd, DelimiterOfCommand;
  }

  lemma SignIsRead(input: string, i: nat, gap: string, c: char, text: string)
    requires IsBlank(gap) && Occurs(input, i, gap + [c]) && DelimiterOfChar(c) == Some(text)
    ensures DelimiterAt(input, i) == Ok(Read(text, i + |gap| + 1))
  {
    hide Occurs, IsBlank, DelimiterOfChar, IsWhitespace, BlankEnd, DelimiterAt;
    OccursParts(input, i, gap, [c]);
    FirstIs(input, i + |gap|, c);
    DelimiterCharacters(c);
    BlankEndAt(input, i, gap);
    SignReads(input, i, i + |gap|, text);
  }

  lemma EscapedSignIsRead(input: string, i: nat, gap: string, c: char, text: string)
    requires IsBlank(gap) && Occurs(input, i, gap + ['\\', c]) && DelimiterOfChar(c) == Some(text)
    ensures DelimiterAt(input, i) == Ok(Read(text, i + |gap| + 2))
  {
    hide Occurs, IsBlank, DelimiterOfChar, IsWhitespace, BlankEnd, DelimiterAt, CommandAt;
    OccursParts(input, i, gap, ['\\', c]);
    DelimiterCharacters(c);
    CommandSymbol(input, i + |gap|, c);
    BackslashIsNoSpace();
    BlankEndAt(input, i, gap);
    CommandReadsAs(input, i, i + |gap|, Symbol(c), text, i + |gap| + 2);
  }

  lemma DelimiterWordIsRead(input: string, i: nat, gap: string, word: string, text: string)
    requires IsBlank(gap) && Occurs(input, i, gap + ("\\" + word)) && DelimiterOfWord(word) == Some(text)
    requires NoLetterAt(input, i + |gap| + 1 + |word|)
    ensures DelimiterAt(input, i) == Ok(Read(text, i + |gap| + 1 + |word|))
  {
    hide Occurs, IsBlank, DelimiterOfWord, IsWhitespace, BlankEnd, DelimiterAt, CommandAt, NoLetterAt, AllLetters;
    OccursParts(input, i, gap, "\\" + word);
    DelimiterWords(word);
    CommandWord(input, i + |gap|, word);
    BackslashIsNoSpace();
    BlankEndAt(input, i, gap);
    CommandReadsAs(input, i, i + |gap|, Word(word), text, i + |gap| + 1 + |word|);
  }

  lemma DelimiterIsRead(d: Delimiter, input: string, i: nat)
    requires IsDelimiter(d) && Occurs(input, i, d.gap + d.spelling)
    requires DelimiterIsLongest(d, input, i + |d.gap| + |d.spelling|)
    ensures DelimiterAt(input, i) == Ok(Read(d.text, i + |d.gap| + |d.spelling|))
  {
    hide Occurs, IsBlank, DelimiterOfWord, DelimiterOfChar, DelimiterAt, NoLetterAt;
    var spelling := d.spelling;
    if |spelling| == 1 && DelimiterOfChar(spelling[0]) == Some(d.text) {
      assert spelling == [spelling[0]];
      SignIsRead(input, i, d.gap, spelling[0], d.text);
    } else if |spelling| == 2 && spelling[0] == '\\' && DelimiterOfChar(spelling[1]) == Some(d.text) {
      assert spelling == ['\\', spelling[1]];
      EscapedSignIsRead(input, i, d.gap, spelling[1], d.text);
    } else {
      DelimiterWords(spelling[1..]);
      assert spelling == "\\" + spelling[1..];
      DelimiterWordIsRead(input, i, d.gap, spelling[1..], d.text);
    }
  }

  lemma BackslashIsNoSpace()
    ensures !IsWhitespace('\\')
  {
  }

  lemma {:induction false} NameEndAt(input: string, i: nat, j: nat)
    requires i <= j <= |input| && (forall k :: i <= k < j ==> IsNameChar(input[k]))
    requires j < |input| ==> !IsNameChar(input[j])
    ensures NameEnd(input, i) == j
    decreases j - i
  {
    if i < j { NameEndAt(input, i + 1, j); }
  }

  lemma NameIsRead(input: string, i: nat, gap: string)
    requires IsBlank(gap) && Occurs(input, i, gap + "{matrix}")
    ensures NameAt(input, i) == Ok(Read("matrix", i + |gap| + 8))
    ensures NoLetterAt(input, i) && BlankEnd(input, i) == i + |gap|
  {
    hide IsBlank, NameEnd, BlankEnd, Occurs, IsWhitespace;
    var at := i + |gap|;
    OccursParts(input, i, gap, "{matrix}");
    MatrixName(input, at);
    BraceIsSign();
    GapThen(input, i, gap);
  }

  lemma BraceIsSign()
    ensures !IsWhitespace('{') && !IsAsciiLetter('{')
  {
  }

  /** The name of the environment and its braces. */
  lemma MatrixName(input: string, at: nat)
    requires Occurs(input, at, "{matrix}")
    ensures at + 8 <= |input| && input[at] == '{' && input[at + 7] == '}' && NameEnd(input, at + 1) == at + 7
    ensures input[at + 1..at + 7] == "matrix"
  {
    hide Occurs, NameEnd;
    assert "{matrix}" == "{" + "matrix" + "}";
    OccursParts(input, at, "{" + "matrix", "}");
    OccursParts(input, at, "{", "matrix");
    FirstIs(input, at, '{');
    FirstIs(input, at + 7, '}');
    OccursSlice(input, at + 1, "matrix");
    forall k | at + 1 <= k < at + 7 ensures IsNameChar(input[k]) {
      assert input[k] == input[at + 1..at + 7][k - at - 1] == "matrix"[k - at - 1];
    }
    NameEndAt(input, at + 1, at + 7);
  }

  lemma MatrixEndIsRead(input: string, i: nat, gap: string)
    requires IsBlank(gap) && Occurs(input, i, "\\end" + gap + "{matrix}")
    ensures MatrixEndAt(input, i) == Ok(Read(gap, i + 12 + |gap|))
    ensures EndsAt(input, i, CellStops, AtMatrixEnd)
  {
    hide NameAt, CommandAt, Occurs, IsBlank, NoLetterAt, BlankEnd, IsWhitespace;
    assert "\\end" + gap + "{matrix}" == "\\end" + (gap + "{matrix}") && "\\end" == "\\" + "end";
    OccursParts(input, i, "\\end", gap + "{matrix}");
    OccursParts(input, i + 4, gap, "{matrix}");
    NameIsRead(input, i + 4, gap);
    EndIsWord();
    CommandWord(input, i, "end");
    BackslashIsNoSpace();
    OccursSlice(input, i + 4, gap);
  }

  lemma OccursSlice(input: string, i: nat, text: string)
    requires Occurs(input, i, text)
    ensures i + |text| <= |input| && input[i..i + |text|] == text
  {
  }

  lemma EndIsWord()
    ensures AllLetters("end") && AllLetters("right") && Word("end") != LineBreak
  {
  }

  /** Where a group, a degree, a cell, a row or the body of a fence ends. */
  lemma EndsAtSign(input: string, j: nat)
    requires j < |input|
    ensures input[j] == '}' ==> EndsAt(input, j, NoStop.(groupEnd := true), AtGroupEnd)
    ensures input[j] == ']' ==> EndsAt(input, j, NoStop.(bracketEnd := true), AtBracketEnd)
    ensures input[j] == '&' ==> EndsAt(input, j, CellStops, AtCell)
  {
    SignsAreSigns();
  }

  lemma EndsAtBreak(input: string, j: nat)
    requires Occurs(input, j, "\\\\")
    ensures EndsAt(input, j, CellStops, AtRow) && CommandAt(input, j) == Ok(Read(LineBreak, j + 2))
  {
    CommandBreak(input, j);
    BackslashIsNoSpace();
  }

  lemma EndsAtRight(input: string, j: nat)
    requires Occurs(input, j, "\\right") && NoLetterAt(input, j + 6)
    ensures EndsAt(input, j, NoStop.(rightDelimiter := true), AtRight)
    ensures CommandAt(input, j) == Ok(Read(Word("right"), j + 6))
  {
    hide CommandAt, NameAt;
    EndIsWord();
    assert "\\right" == "\\" + "right";
    CommandWord(input, j, "right");
    BackslashIsNoSpace();
  }

  lemma NoLetterBeforeDelimiter(d: Delimiter, input: string, i: nat)
    requires IsDelimiter(d) && Occurs(input, i, d.gap + d.spelling)
    ensures NoLetterAt(input, i)
  {
    hide IsBlank, IsWhitespace;
    SignsAreSigns();
    DelimiterStarts(d);
    OccursParts(input, i, d.gap, d.spelling);
    OccursAt(input, i + |d.gap|, d.spelling, 0);
    GapThen(input, i, d.gap);
  }

  /** What follows item `k` of a sequence, or its start, is neither white space nor a script. */
  lemma NothingBefore(lexicon: Lexicon, input: string, i: nat, items: seq<Syntax>, stops: StopSet, kind: StopKind,
                      k: nat)
    requires HereAll(lexicon, input, i, items, stops) && k <= |items|
    requires forall m :: 0 <= m < |items| ==> items[m].Item?
    requires EndsAt(input, i + |SpellAll(items)|, stops, kind)
    ensures var p := i + |SpellAll(items[..k])|;
      && p <= |input| && NoScriptAt(input, p) && BlankEnd(input, p) == p
      && (k < |items| ==> p < |input| && StopAt(input, p, stops).None?)
  {
    hide HereAll, Here, IsAtom, IsStop, StopAt;
    var p := i + |SpellAll(items[..k])|;
    if k < |items| {
      HereAt(lexicon, input, i, items, stops, k);
      ItemParts(lexicon, input, p, items[k], stops);
      AtomStarts(lexicon, input, p, items[k].atom, stops);
    } else {
      assert items[..k] == items;
    }
  }

  lemma ItemsSkipSpace(lexicon: Lexicon, input: string, i: nat, stops: StopSet, nodes: seq<MathNode>)
    requires i <= |input|
    ensures ItemsAt(lexicon, input, i, stops, nodes) == ItemsAt(lexicon, input, BlankEnd(input, i), stops, nodes)
  {
    hide StopAt, AtomAt, ScriptsAt;
    var at := BlankEnd(input, i);
    assert BlankEnd(input, at) == at;
  }

  /** A sequence is read up to what ends it. */
  lemma {:induction false} SequenceIsRead(lexicon: Lexicon, input: string, i: nat, s: Syntax, stops: StopSet,
                                          kind: StopKind)
    requires s.Sequence? && Here(lexicon, input, i, s, stops) && EndsAt(input, i + |Spell(s)|, stops, kind)
    ensures SequenceAt(lexicon, input, i, stops) == Ok(Read((Meaning(s), kind), i + |Spell(s)|))
    decreases s, 6
  {
    hide *;
    SequenceUnfolds(lexicon, input, i, stops);
    NothingSpelled();
    assert s.items[..0] == [];
    SequenceParts(lexicon, input, i, s, stops);
    var p := i + |s.lead|;
    NothingBefore(lexicon, input, p, s.items, stops, kind, 0);
    ItemsAreRead(lexicon, input, p, s, stops, kind, 0);
    assert s.items[..0] == [];
    LeadIsSkipped(input, i, s.lead);
    ItemsSkipSpace(lexicon, input, i, stops, []);
  }

  lemma SequenceUnfolds(lexicon: Lexicon, input: string, i: nat, stops: StopSet)
    ensures i <= |input| ==> SequenceAt(lexicon, input, i, stops) == ItemsAt(lexicon, input, i, stops, [])
  {
    hide ItemsAt;
  }

  lemma LeadIsSkipped(input: string, i: nat, lead: string)
    requires Occurs(input, i, lead) && IsBlank(lead) && NoScriptAt(input, i + |lead|)
    ensures i <= |input| && BlankEnd(input, i) == i + |lead|
  {
    BlankEndAt(input, i, lead);
  }

  lemma NothingSpelled()
    ensures SpellAll([]) == [] && MeaningAll([]) == []
  {
  }

  lemma ItemsStep(lexicon: Lexicon, input: string, i: nat, stops: StopSet, nodes: seq<MathNode>, atom: Read<MathNode>,
                  item: Read<MathNode>)
    requires i < |input| && BlankEnd(input, i) == i && NoScriptAt(input, i) && StopAt(input, i, stops).None?
    requires AtomAt(lexicon, input, i) == Ok(atom)
    requires ScriptsAt(lexicon, input, atom.next, atom.value, None, None) == Ok(item)
    ensures item.next <= |input|
    ensures ItemsAt(lexicon, input, i, stops, nodes) == ItemsAt(lexicon, input, item.next, stops, nodes + [item.value])
  {
    hide StopAt, AtomAt, ScriptsAt, BlankEnd;
  }

  lemma ItemsStopHere(lexicon: Lexicon, input: string, i: nat, stops: StopSet, nodes: seq<MathNode>, kind: StopKind)
    requires EndsAt(input, i, stops, kind)
    ensures ItemsAt(lexicon, input, i, stops, nodes) == Ok(Read((RowOf(nodes), kind), i))
  {
    hide StopAt, AtomAt, ScriptsAt;
  }

  lemma SequenceMeaning(s: Syntax)
    requires s.Sequence?
    ensures Meaning(s) == RowOf(MeaningAll(s.items))
  {
  }

  lemma MeaningStep(s: Syntax, k: nat)
    requires s.Sequence? && k < |s.items|
    ensures MeaningAll(s.items[..k + 1]) == MeaningAll(s.items[..k]) + [Meaning(s.items[k])]
  {
    hide Meaning;
    assert s.items[..k + 1][..k] == s.items[..k];
  }

  /** The items from `k` on are read after those before. */
  lemma {:induction false} ItemsAreRead(lexicon: Lexicon, input: string, i: nat, s: Syntax, stops: StopSet,
                                        kind: StopKind,
                                        k: nat)
    requires s.Sequence? && HereAll(lexicon, input, i, s.items, stops) && k <= |s.items|
    requires forall m :: 0 <= m < |s.items| ==> s.items[m].Item?
    requires EndsAt(input, i + |SpellAll(s.items)|, stops, kind)
    ensures i + |SpellAll(s.items[..k])| <= |input|
    ensures ItemsAt(lexicon, input, i + |SpellAll(s.items[..k])|, stops, MeaningAll(s.items[..k]))
      == Ok(Read((Meaning(s), kind), i + |SpellAll(s.items)|))
    decreases s, 5, |s.items| - k
  {
    hide *;
    SequenceMeaning(s);
    var p := i + |SpellAll(s.items[..k])|;
    NothingBefore(lexicon, input, i, s.items, stops, kind, k);
    if k == |s.items| {
      assert s.items[..k] == s.items;
      ItemsStopHere(lexicon, input, p, stops, MeaningAll(s.items), kind);
    } else {
      var item := s.items[k];
      HereAt(lexicon, input, i, s.items, stops, k);
      NothingBefore(lexicon, input, i, s.items, stops, kind, k + 1);
      MeaningStep(s, k);
      ItemIsRead(lexicon, input, p, item, stops);
      var atom := Read(Meaning(item.atom), p + |Spell(item.atom)|);
      ItemsStep(lexicon, input, p, stops, MeaningAll(s.items[..k]), atom, Read(Meaning(item), p + |Spell(item)|));
      ItemsAreRead(lexicon, input, i, s, stops, kind, k + 1);
    }
  }

  /** An item: its atom, then its scripts and the white space behind them. */
  lemma {:induction false} ItemIsRead(lexicon: Lexicon, input: string, i: nat, s: Syntax, stops: StopSet)
    requires s.Item? && Here(lexicon, input, i, s, stops) && NoScriptAt(input, i + |Spell(s)|)
    ensures AtomAt(lexicon, input, i) == Ok(Read(Meaning(s.atom), i + |Spell(s.atom)|))
    ensures i + |Spell(s.atom)| <= |input|
    ensures ScriptsAt(lexicon, input, i + |Spell(s.atom)|, Meaning(s.atom), None, None)
      == Ok(Read(Meaning(s), i + |Spell(s)|))
    decreases s, 3
  {
    hide Here, AtomAt, ScriptsAt, NoScriptAt, Spell, Meaning, IsStop, HereAll;
    ItemParts(lexicon, input, i, s, stops);
    AtomIsRead(lexicon, input, i, s.atom);
    ScriptsAreRead(lexicon, input, i, s, stops, 0);
    NoScriptsYet(s.scripts);
  }

  lemma NoScriptsYet(scripts: seq<Syntax>)
    ensures scripts[..0] == [] && SpellAll(scripts[..0]) == []
    ensures ScriptMeaning(scripts[..0], false) == None && ScriptMeaning(scripts[..0], true) == None
  {
  }

  lemma ScriptsEnd(lexicon: Lexicon, input: string, i: nat, trail: string, base: MathNode, subscript: Option<MathNode>,
                   superscript: Option<MathNode>)
    requires Occurs(input, i, trail) && IsBlank(trail) && NoScriptAt(input, i + |trail|)
    ensures ScriptsAt(lexicon, input, i, base, subscript, superscript)
      == Ok(Read(WithScripts(base, subscript, superscript), i + |trail|))
  {
    hide ArgumentAt;
    BlankEndAt(input, i, trail);
  }

  lemma ScriptsStep(lexicon: Lexicon, input: string, i: nat, lead: string, isSuper: bool, base: MathNode,
                    subscript: Option<MathNode>, superscript: Option<MathNode>, argument: Read<MathNode>)
    requires Occurs(input, i, lead) && IsBlank(lead)
    requires i + |lead| < |input| && input[i + |lead|] == if isSuper then '^' else '_'
    requires if isSuper then superscript.None? else subscript.None?
    requires ArgumentAt(lexicon, input, i + |lead| + 1) == Ok(argument)
    ensures argument.next <= |input|
    ensures ScriptsAt(lexicon, input, i, base, subscript, superscript)
      == ScriptsAt(lexicon, input, argument.next, base, if isSuper then subscript else Some(argument.value),
                   if isSuper then Some(argument.value) else superscript)
  {
    hide ArgumentAt;
    SignsAreSigns();
    BlankEndAt(input, i, lead);
  }

  /** What the scripts before `m` say, and that script `m` is of another kind. */
  lemma ScriptsBefore(s: Syntax, m: nat)
    requires s.Item? && m < |s.scripts| <= 2 && forall k :: 0 <= k < |s.scripts| ==> s.scripts[k].Script?
    requires |s.scripts| == 2 ==> s.scripts[0].isSuper != s.scripts[1].isSuper
    ensures var before, after, script := s.scripts[..m], s.scripts[..m + 1], s.scripts[m];
      && ScriptMeaning(before, script.isSuper) == None
      && ScriptMeaning(after, script.isSuper) == Some(Meaning(script))
      && ScriptMeaning(after, !script.isSuper) == ScriptMeaning(before, !script.isSuper)
      && Meaning(script) == Meaning(script.argument)
  {
    var after := s.scripts[..m + 1];
    assert after[..m] == s.scripts[..m] && after[m] == s.scripts[m];
    if m == 1 { assert s.scripts[..1][..0] == []; }
    assert ScriptMeaning([], true) == None && ScriptMeaning([], false) == None;
  }

  lemma ItemMeaning(s: Syntax)
    requires s.Item? && |s.scripts| <= 2 && forall k :: 0 <= k < |s.scripts| ==> s.scripts[k].Script?
    ensures Meaning(s)
      == WithScripts(Meaning(s.atom), ScriptMeaning(s.scripts, false), ScriptMeaning(s.scripts, true))
  {
    if s.scripts != [] { assert s.scripts[|s.scripts| - 1].Script?; }
  }

  /** The scripts from `m` on are read after those before. */
  lemma {:induction false} ScriptsAreRead(lexicon: Lexicon, input: string, i: nat, s: Syntax, stops: StopSet, m: nat)
    requires s.Item? && Here(lexicon, input, i, s, stops) && NoScriptAt(input, i + |Spell(s)|) && m <= |s.scripts|
    ensures var p := i + |Spell(s.atom)| + |SpellAll(s.scripts[..m])|;
      && p <= |input|
      && ScriptsAt(lexicon, input, p, Meaning(s.atom), ScriptMeaning(s.scripts[..m], false),
                   ScriptMeaning(s.scripts[..m], true)) == Ok(Read(Meaning(s), i + |Spell(s)|))
    decreases s, 2, |s.scripts| - m
  {
    hide *;
    ItemParts(lexicon, input, i, s, stops);
    var base := i + |Spell(s.atom)|;
    var p := base + |SpellAll(s.scripts[..m])|;
    if m == |s.scripts| {
      assert s.scripts[..m] == s.scripts;
      OccursInside(input, p, s.trail);
      ItemMeaning(s);
      ScriptsEnd(lexicon, input, p, s.trail, Meaning(s.atom), ScriptMeaning(s.scripts, false),
        ScriptMeaning(s.scripts, true));
    } else {
      var script := s.scripts[m];
      HereAt(lexicon, input, base, s.scripts, NoStop, m);
      ScriptParts(lexicon, input, p, script);
      ScriptsBefore(s, m);
      OccursInside(input, p, script.lead);
      ArgumentIsRead(lexicon, input, p + |script.lead| + 1, script.gap, script.argument);
      var argument := Read(Meaning(script.argument), p + |Spell(script)|);
      ScriptsStep(lexicon, input, p, script.lead, script.isSuper, Meaning(s.atom), ScriptMeaning(s.scripts[..m], false),
        ScriptMeaning(s.scripts[..m], true), argument);
      ScriptsAreRead(lexicon, input, i, s, stops, m + 1);
    }
  }

  lemma OccursInside(input: string, i: nat, text: string)
    requires Occurs(input, i, text)
    ensures i + |text| <= |input|
  {
  }

  lemma AtomSkipsSpace(lexicon: Lexicon, input: string, i: nat)
    requires i <= |input|
    ensures AtomAt(lexicon, input, i) == AtomAt(lexicon, input, BlankEnd(input, i))
  {
    hide GroupAt, CommandAtomAt, NumberEnd;
    var at := BlankEnd(input, i);
    assert BlankEnd(input, at) == at;
  }

  /** The argument of a script, after white space. */
  lemma {:induction false} ArgumentIsRead(lexicon: Lexicon, input: string, i: nat, gap: string, s: Syntax)
    requires Occurs(input, i, gap) && IsBlank(gap) && IsAtom(s) && Here(lexicon, input, i + |gap|, s, NoStop)
    ensures i <= |input| && ArgumentAt(lexicon, input, i) == Ok(Read(Meaning(s), i + |gap| + |Spell(s)|))
    decreases s, 4
  {
    hide Here, AtomAt, GroupAt, Meaning, Spell, IsAtom, StopAt, IsBlank;
    var at := i + |gap|;
    NoStopIsNone(s);
    AtomStarts(lexicon, input, at, s, NoStop);
    BlankEndAt(input, i, gap);
    if s.Braces? {
      BracesParts(lexicon, input, at, s);
      NothingOccurs(input, at);
      GroupIsRead(lexicon, input, at, "", s, "script argument");
    } else {
      AtomIsRead(lexicon, input, at, s);
      NotBraces(lexicon, input, at, s);
      AtomSkipsSpace(lexicon, input, i);
    }
  }

  lemma NoStopIsNone(s: Syntax)
    ensures s.Literal? ==> !IsStop(s.text, NoStop)
  {
  }

  lemma NothingOccurs(input: string, i: nat)
    requires i <= |input|
    ensures Occurs(input, i, "") && IsBlank("")
  {
    assert input[i..i + 0] == "";
  }

  lemma NotBraces(lexicon: Lexicon, input: string, i: nat, s: Syntax)
    requires IsAtom(s) && !s.Braces? && Here(lexicon, input, i, s, NoStop)
    ensures i < |input| && input[i] != '{'
  {
    hide Here;
    if s.Literal? {
      LiteralHere(lexicon, input, i, s);
      LiteralIsRead(lexicon, input, i, s.text, s.node);
    } else {
      CommandGap(lexicon, input, i, s, NoStop);
    }
  }

  /** A group in braces, after white space. */
  lemma {:induction false} GroupIsRead(lexicon: Lexicon, input: string, i: nat, gap: string, s: Syntax, context: string)
    requires Occurs(input, i, gap) && IsBlank(gap) && s.Braces? && Here(lexicon, input, i + |gap|, s, NoStop)
    ensures i <= |input| && GroupAt(lexicon, input, i, context) == Ok(Read(Meaning(s), i + |gap| + |Spell(s)|))
    decreases s, 1
  {
    hide Here, SequenceAt, Spell, IsBlank, StopAt, IsEmpty;
    var at := i + |gap|;
    var end := at + 1 + |Spell(s.inner)|;
    BracesParts(lexicon, input, at, s);
    SignsAreSigns();
    BlankEndAt(input, i, gap);
    EndsAtSign(input, end);
    SequenceIsRead(lexicon, input, at + 1, s.inner, NoStop.(groupEnd := true), AtGroupEnd);
    GroupIsNotEmpty(lexicon, input, at + 1, s.inner, NoStop.(groupEnd := true));
  }

  lemma GroupIsNotEmpty(lexicon: Lexicon, input: string, i: nat, s: Syntax, stops: StopSet)
    requires Here(lexicon, input, i, s, stops) && IsGroup(s)
    ensures !IsEmpty(Meaning(s))
  {
    GrammaticalIsProper(lexicon, s);
  }

  /** An atom of any kind. */
  lemma {:induction false} AtomIsRead(lexicon: Lexicon, input: string, i: nat, s: Syntax)
    requires IsAtom(s) && Here(lexicon, input, i, s, NoStop)
    ensures i <= |input| && AtomAt(lexicon, input, i) == Ok(Read(Meaning(s), i + |Spell(s)|))
    decreases s, 3
  {
    hide Here, AtomAt, Meaning, Spell;
    if s.Literal? {
      LiteralHere(lexicon, input, i, s);
      LiteralIsRead(lexicon, input, i, s.text, s.node);
    } else if s.Braces? {
      BracesParts(lexicon, input, i, s);
      NothingOccurs(input, i);
      GroupIsRead(lexicon, input, i, "", s, "group");
      BraceStarts(lexicon, input, i);
    } else {
      CommandGap(lexicon, input, i, s, NoStop);
      BackslashStarts(lexicon, input, i);
      StructureIsRead(lexicon, input, i, s);
    }
  }

  lemma BraceStarts(lexicon: Lexicon, input: string, i: nat)
    requires i < |input| && input[i] == '{'
    ensures AtomAt(lexicon, input, i) == GroupAt(lexicon, input, i, "group")
  {
    hide GroupAt, CommandAtomAt;
    SignsAreSigns();
  }

  /** A command with its arguments. */
  lemma {:induction false} StructureIsRead(lexicon: Lexicon, input: string, i: nat, s: Syntax)
    requires IsCommandSyntax(s) && Here(lexicon, input, i, s, NoStop)
    ensures i <= |input| && CommandAtomAt(lexicon, input, i) == Ok(Read(Meaning(s), i + |Spell(s)|))
    decreases s, 2
  {
    CommandGap(lexicon, input, i, s, NoStop);
    hide *;
    match s {
      case Frac(_, _, _, _) => FracIsRead(lexicon, input, i, s);
      case Root(_, None, _, _) => BareRootIsRead(lexicon, input, i, s);
      case Root(_, Some(_), _, _) => RootIsRead(lexicon, input, i, s);
      case LeftRight(_, _, _) => LeftRightIsRead(lexicon, input, i, s);
      case MatrixEnv(_, _, _) => MatrixIsRead(lexicon, input, i, s);
    }
  }

  lemma {:induction false} FracIsRead(lexicon: Lexicon, input: string, i: nat, s: Syntax)
    requires s.Frac? && Here(lexicon, input, i, s, NoStop)
    requires i <= |input| && CommandAt(input, i) == Ok(Read(Word("frac"), i + 5))
    ensures CommandAtomAt(lexicon, input, i) == Ok(Read(Meaning(s), i + |Spell(s)|))
    decreases s, 0
  {
    hide *;
    FracParts(lexicon, input, i, s);
    var q := i + 5 + |s.gap| + |Spell(s.over)|;
    GroupIsRead(lexicon, input, i + 5, s.gap, s.over, "\\frac numerator");
    GroupIsRead(lexicon, input, q, s.gap2, s.under, "\\frac denominator");
    FracReads(lexicon, input, i, Read(Meaning(s.over), q), Read(Meaning(s.under), q + |s.gap2| + |Spell(s.under)|));
    MeaningOf(s);
  }

  lemma {:induction false} LeftRightIsRead(lexicon: Lexicon, input: string, i: nat, s: Syntax)
    requires s.LeftRight? && Here(lexicon, input, i, s, NoStop)
    requires i <= |input| && CommandAt(input, i) == Ok(Read(Word("left"), i + 5))
    ensures CommandAtomAt(lexicon, input, i) == Ok(Read(Meaning(s), i + |Spell(s)|))
    decreases s, 0
  {
    hide *;
    LeftRightParts(lexicon, input, i, s);
    var n := i + 5 + |s.open.gap| + |s.open.spelling|;
    var m := n + |Spell(s.body)|;
    var end := m + 6 + |s.close.gap| + |s.close.spelling|;
    NoLetterBeforeDelimiter(s.close, input, m + 6);
    OccursInside(input, m, "\\right");
    OccursInside(input, i + 5, s.open.gap + s.open.spelling);
    EndsAtRight(input, m);
    DelimiterIsRead(s.open, input, i + 5);
    DelimiterIsRead(s.close, input, m + 6);
    SequenceIsRead(lexicon, input, n, s.body, NoStop.(rightDelimiter := true), AtRight);
    LeftRightReads(lexicon, input, i, Read(s.open.text, n), Read((Meaning(s.body), AtRight), m),
      Read(s.close.text, end));
    MeaningOf(s);
  }

  lemma {:induction false} MatrixIsRead(lexicon: Lexicon, input: string, i: nat, s: Syntax)
    requires s.MatrixEnv? && Here(lexicon, input, i, s, NoStop)
    requires i <= |input| && CommandAt(input, i) == Ok(Read(Word("begin"), i + 6))
    ensures CommandAtomAt(lexicon, input, i) == Ok(Read(Meaning(s), i + |Spell(s)|))
    decreases s, 1
  {
    hide *;
    MatrixParts(lexicon, input, i, s);
    var start := i + 14 + |s.gap|;
    OccursInside(input, i + 6, s.gap + "{matrix}");
    NameIsRead(input, i + 6, s.gap);
    RowsAreHere(lexicon, input, start, s.rows);
    NoRowsYet(start, s.rows);
    RowsAreRead(lexicon, input, start, s, 0, 0);
    BeginReads(lexicon, input, i, start, Read(MeaningRows(s.rows), start + |SpellRows(s.rows)| + 12 + |s.gap2|));
    MeaningOf(s);
  }

  lemma RowsAreHere(lexicon: Lexicon, input: string, i: nat, rows: seq<SyntaxRow>)
    requires rows != [] && AllRowsGrammatical(lexicon, rows) && Occurs(input, i, SpellRows(rows))
    requires MaximalRows(lexicon, input, i, rows)
    ensures HereRows(lexicon, input, i, rows) && rows[0].cells != []
  {
    hide Occurs, AllRowsGrammatical, MaximalRows, SpellRows;
    RowHere(lexicon, input, i, rows, 0);
    CellsAreSome(lexicon, input, RowStart(i, rows, 0), rows[0].cells);
  }

  lemma MeaningOf(s: Syntax)
    ensures s.Frac? ==> Meaning(s) == Fraction(Meaning(s.over), Meaning(s.under))
    ensures s.Root? ==>
      Meaning(s) == Sqrt(if s.degree.Some? then Some(Meaning(s.degree.value)) else None, Meaning(s.body))
    ensures s.LeftRight? ==> Meaning(s) == Fenced(s.open.text, Meaning(s.body), s.close.text)
    ensures s.MatrixEnv? ==> Meaning(s) == Matrix(MeaningRows(s.rows))
  {
  }

  lemma FracReads(lexicon: Lexicon, input: string, i: nat, over: Read<MathNode>, under: Read<MathNode>)
    requires i <= |input| && CommandAt(input, i) == Ok(Read(Word("frac"), i + 5))
    requires GroupAt(lexicon, input, i + 5, "\\frac numerator") == Ok(over)
    requires over.next <= |input| && GroupAt(lexicon, input, over.next, "\\frac denominator") == Ok(under)
    ensures CommandAtomAt(lexicon, input, i) == Ok(Read(Fraction(over.value, under.value), under.next))
  {
    hide CommandAt, GroupAt, BeginAt, LeftRightAt, DegreeAt;
  }

  lemma RootReads(lexicon: Lexicon, input: string, i: nat, degree: Read<Option<MathNode>>, body: Read<MathNode>)
    requires i <= |input| && CommandAt(input, i) == Ok(Read(Word("sqrt"), i + 5))
    requires DegreeAt(lexicon, input, i + 5) == Ok(degree)
    requires degree.next <= |input| && GroupAt(lexicon, input, degree.next, "\\sqrt radicand") == Ok(body)
    ensures CommandAtomAt(lexicon, input, i) == Ok(Read(Sqrt(degree.value, body.value), body.next))
  {
    hide CommandAt, GroupAt, BeginAt, LeftRightAt, DegreeAt;
  }

  lemma LeftRightReads(lexicon: Lexicon, input: string, i: nat, open: Read<string>, body: Read<(MathNode, StopKind)>,
                       close: Read<string>)
    requires i <= |input| && CommandAt(input, i) == Ok(Read(Word("left"), i + 5))
    requires i + 5 <= |input| && DelimiterAt(input, i + 5) == Ok(open)
    requires open.next <= |input| && SequenceAt(lexicon, input, open.next, NoStop.(rightDelimiter := true)) == Ok(body)
    requires body.value.1 == AtRight && body.next <= |input|
    requires CommandAt(input, body.next) == Ok(Read(Word("right"), body.next + 6))
    requires body.next + 6 <= |input| && DelimiterAt(input, body.next + 6) == Ok(close)
    ensures CommandAtomAt(lexicon, input, i) == Ok(Read(Fenced(open.value, body.value.0, close.value), close.next))
  {
    hide CommandAt, GroupAt, BeginAt, DegreeAt, DelimiterAt, SequenceAt;
    assert LeftRightAt(lexicon, input, i + 5) == Ok(Read(Fenced(open.value, body.value.0, close.value), close.next));
  }

  lemma BeginReads(lexicon: Lexicon, input: string, i: nat, start: nat, rows: Read<seq<MatrixRow>>)
    requires i <= |input| && CommandAt(input, i) == Ok(Read(Word("begin"), i + 6))
    requires i + 6 <= |input| && NameAt(input, i + 6) == Ok(Read("matrix", start))
    requires start <= |input| && RowsAt(lexicon, input, start, [], []) == Ok(rows)
    ensures CommandAtomAt(lexicon, input, i) == Ok(Read(Matrix(rows.value), rows.next))
  {
    hide CommandAt, GroupAt, LeftRightAt, DegreeAt, NameAt, RowsAt;
    assert BeginAt(lexicon, input, i + 6) == Ok(Read(Matrix(rows.value), rows.next));
  }

  lemma {:induction false} BareRootIsRead(lexicon: Lexicon, input: string, i: nat, s: Syntax)
    requires s.Root? && s.degree.None? && Here(lexicon, input, i, s, NoStop)
    requires i <= |input| && CommandAt(input, i) == Ok(Read(Word("sqrt"), i + 5))
    ensures CommandAtomAt(lexicon, input, i) == Ok(Read(Meaning(s), i + |Spell(s)|))
    decreases s, 0
  {
    hide *;
    NoDegreeText(s);
    RootParts(lexicon, input, i, s);
    var gap := s.gap + s.gap2;
    var at := i + 5 + |gap|;
    BracesParts(lexicon, input, at, s.body);
    OccursParts(input, i + 5, s.gap, s.gap2);
    BlankConcat(s.gap, s.gap2);
    BareDegree(lexicon, input, i + 5, gap);
    NothingOccurs(input, at);
    GroupIsRead(lexicon, input, at, "", s.body, "\\sqrt radicand");
    RootReads(lexicon, input, i, Read(None, at), Read(Meaning(s.body), at + |Spell(s.body)|));
    MeaningOf(s);
  }

  lemma NoDegreeText(s: Syntax)
    requires s.Root? && s.degree.None?
    ensures DegreeText(s) == ""
  {
  }

  lemma BareDegree(lexicon: Lexicon, input: string, i: nat, gap: string)
    requires Occurs(input, i, gap) && IsBlank(gap) && i + |gap| < |input| && input[i + |gap|] == '{'
    ensures DegreeAt(lexicon, input, i) == Ok(Read(None, i + |gap|))
  {
    hide SequenceAt;
    SignsAreSigns();
    BlankEndAt(input, i, gap);
  }

  lemma {:induction false} RootIsRead(lexicon: Lexicon, input: string, i: nat, s: Syntax)
    requires s.Root? && s.degree.Some? && Here(lexicon, input, i, s, NoStop)
    requires i <= |input| && CommandAt(input, i) == Ok(Read(Word("sqrt"), i + 5))
    ensures CommandAtomAt(lexicon, input, i) == Ok(Read(Meaning(s), i + |Spell(s)|))
    decreases s, 0
  {
    hide *;
    RootParts(lexicon, input, i, s);
    DegreeTextIs(s);
    GroupIsSequence(s.degree.value);
    var at, degree := i + 5 + |s.gap|, s.degree.value;
    var end := at + 1 + |Spell(degree)|;
    BracketsStand(input, at, Spell(degree));
    EndsAtSign(input, end);
    SequenceIsRead(lexicon, input, at + 1, degree, NoStop.(bracketEnd := true), AtBracketEnd);
    GroupIsNotEmpty(lexicon, input, at + 1, degree, NoStop.(bracketEnd := true));
    DegreeReads(lexicon, input, i + 5, s.gap, Read((Meaning(degree), AtBracketEnd), end));
    GroupIsRead(lexicon, input, end + 1, s.gap2, s.body, "\\sqrt radicand");
    RootReads(lexicon, input, i, Read(Some(Meaning(degree)), end + 1),
      Read(Meaning(s.body), end + 1 + |s.gap2| + |Spell(s.body)|));
    MeaningOf(s);
  }

  lemma DegreeTextIs(s: Syntax)
    requires s.Root? && s.degree.Some?
    ensures DegreeText(s) == "[" + Spell(s.degree.value) + "]"
  {
    hide Spell;
  }

  lemma GroupIsSequence(s: Syntax)
    requires IsGroup(s)
    ensures s.Sequence?
  {
  }

  lemma BracketsStand(input: string, i: nat, text: string)
    requires Occurs(input, i, "[" + text + "]")
    ensures i < |input| && input[i] == '[' && i + 1 + |text| < |input| && input[i + 1 + |text|] == ']'
  {
    OccursAt(input, i, "[" + text + "]", 0);
    OccursAt(input, i, "[" + text + "]", 1 + |text|);
  }

  lemma DegreeReads(lexicon: Lexicon, input: string, i: nat, gap: string, inner: Read<(MathNode, StopKind)>)
    requires Occurs(input, i, gap) && IsBlank(gap) && i + |gap| < |input| && input[i + |gap|] == '['
    requires SequenceAt(lexicon, input, i + |gap| + 1, NoStop.(bracketEnd := true)) == Ok(inner)
    requires inner.value.1 == AtBracketEnd && !IsEmpty(inner.value.0)
    ensures DegreeAt(lexicon, input, i) == Ok(Read(Some(inner.value.0), inner.next + 1))
  {
    hide SequenceAt, IsEmpty, Occurs, IsBlank, BlankEnd, IsWhitespace;
    BracketIsNoSpace();
    BlankEndAt(input, i, gap);
  }

  lemma BracketIsNoSpace()
    ensures !IsWhitespace('[')
  {
  }

  /** Where row `r` starts. */
  function RowStart(i: nat, rows: seq<SyntaxRow>, r: nat): nat
    requires r <= |rows|
  {
    i + if r == 0 then 0 else |SpellRows(rows[..r])| + 2
  }

  /** Where cell `c` of a row starts. */
  function CellStart(i: nat, cells: seq<Syntax>, c: nat): nat
    requires c <= |cells|
  {
    i + if c == 0 then 0 else |SpellCells(cells[..c])| + 1
  }

  predicate HereCells(lexicon: Lexicon, input: string, i: nat, cells: seq<Syntax>) {
    && AllGrammatical(lexicon, cells) && AreCells(cells)
    && Occurs(input, i, SpellCells(cells)) && MaximalCells(lexicon, input, i, cells)
  }

  predicate HereRows(lexicon: Lexicon, input: string, i: nat, rows: seq<SyntaxRow>) {
    && AllRowsGrammatical(lexicon, rows)
    && Occurs(input, i, SpellRows(rows)) && MaximalRows(lexicon, input, i, rows)
  }

  lemma {:induction false} CellHere(lexicon: Lexicon, input: string, i: nat, cells: seq<Syntax>, c: nat)
    requires HereCells(lexicon, input, i, cells) && c < |cells|
    ensures var p := CellStart(i, cells, c);
      var end := p + |Spell(cells[c])|;
      && cells[c].Sequence? && Here(lexicon, input, p, cells[c], CellStops)
      && end == i + |SpellCells(cells[..c + 1])|
      && (c + 1 < |cells| ==> Occurs(input, end, "&") && CellStart(i, cells, c + 1) == end + 1)
    decreases |cells|
  {
    hide Occurs, Maximal, IsGrammatical, Spell;
    var n := |cells| - 1;
    assert cells[..|cells|] == cells;
    if n == 0 {
      assert cells[..1] == cells;
    } else {
      OccursParts(input, i, SpellCells(cells[..n]) + "&", Spell(cells[n]));
      OccursParts(input, i, SpellCells(cells[..n]), "&");
      if c < n {
        CellHere(lexicon, input, i, cells[..n], c);
        assert cells[..n][..c] == cells[..c] && cells[..n][..c + 1] == cells[..c + 1];
        if c + 1 < n { assert CellStart(i, cells[..n], c + 1) == CellStart(i, cells, c + 1); }
      }
    }
  }

  lemma {:induction false} RowHere(lexicon: Lexicon, input: string, i: nat, rows: seq<SyntaxRow>, r: nat)
    requires HereRows(lexicon, input, i, rows) && r < |rows|
    ensures var p := RowStart(i, rows, r);
      var end := p + |SpellCells(rows[r].cells)|;
      && HereCells(lexicon, input, p, rows[r].cells)
      && end == i + |SpellRows(rows[..r + 1])|
      && (r + 1 < |rows| ==> Occurs(input, end, "\\\\") && RowStart(i, rows, r + 1) == end + 2)
    decreases |rows|
  {
    hide Occurs, MaximalCells, AllGrammatical, SpellCells;
    var n := |rows| - 1;
    assert rows[..|rows|] == rows;
    if n == 0 {
      assert rows[..1] == rows;
    } else {
      OccursParts(input, i, SpellRows(rows[..n]) + "\\\\", SpellCells(rows[n].cells));
      OccursParts(input, i, SpellRows(rows[..n]), "\\\\");
      if r < n {
        RowHere(lexicon, input, i, rows[..n], r);
        assert rows[..n][..r] == rows[..r] && rows[..n][..r + 1] == rows[..r + 1];
        if r + 1 < n { assert RowStart(i, rows[..n], r + 1) == RowStart(i, rows, r + 1); }
      }
    }
  }

  lemma NoRowsYet(i: nat, rows: seq<SyntaxRow>)
    requires rows != []
    ensures RowStart(i, rows, 0) == i && MeaningRows(rows[..0]) == []
    ensures CellStart(i, rows[0].cells, 0) == i && MeaningAll(rows[0].cells[..0]) == []
  {
  }

  lemma CellReads(lexicon: Lexicon, input: string, i: nat, rows: seq<MatrixRow>, row: seq<MathNode>, cell: MathNode,
                  end: nat)
    requires i <= end < |input|
    requires SequenceAt(lexicon, input, i, CellStops) == Ok(Read((cell, AtCell), end))
    ensures RowsAt(lexicon, input, i, rows, row) == RowsAt(lexicon, input, end + 1, rows, row + [cell])
  {
    hide SequenceAt, CommandAt, MatrixEndAt;
  }

  lemma RowReads(lexicon: Lexicon, input: string, i: nat, rows: seq<MatrixRow>, row: seq<MathNode>, cell: MathNode,
                 end: nat)
    requires i <= end <= |input| - 2
    requires SequenceAt(lexicon, input, i, CellStops) == Ok(Read((cell, AtRow), end))
    requires CommandAt(input, end) == Ok(Read(LineBreak, end + 2))
    ensures RowsAt(lexicon, input, i, rows, row)
      == RowsAt(lexicon, input, end + 2, rows + [MatrixRow(row + [cell])], [])
  {
    hide SequenceAt, CommandAt, MatrixEndAt;
  }

  lemma MatrixReads(lexicon: Lexicon, input: string, i: nat, rows: seq<MatrixRow>, row: seq<MathNode>, cell: MathNode,
                    end: nat, close: Read<string>)
    requires i <= end <= |input|
    requires SequenceAt(lexicon, input, i, CellStops) == Ok(Read((cell, AtMatrixEnd), end))
    requires MatrixEndAt(input, end) == Ok(close)
    ensures RowsAt(lexicon, input, i, rows, row) == Ok(Read(rows + [MatrixRow(row + [cell])], close.next))
  {
    hide SequenceAt, CommandAt, MatrixEndAt;
  }

  lemma RowsMeaning(rows: seq<SyntaxRow>, r: nat, c: nat)
    requires r < |rows| && c < |rows[r].cells|
    ensures var cells := rows[r].cells;
      && MeaningAll(cells[..c + 1]) == MeaningAll(cells[..c]) + [Meaning(cells[c])]
      && MeaningRows(rows[..r + 1]) == MeaningRows(rows[..r]) + [MatrixRow(MeaningAll(cells))]
      && cells[..|cells|] == cells && rows[..|rows|] == rows
  {
    hide Meaning;
    var cells := rows[r].cells;
    assert cells[..c + 1][..c] == cells[..c] && rows[..r + 1][..r] == rows[..r];
  }

  /** Where the cell's text and its meaning stand. */
  lemma CellFacts(lexicon: Lexicon, input: string, i: nat, rows: seq<SyntaxRow>, r: nat, c: nat)
    requires HereRows(lexicon, input, i, rows) && r < |rows| && c < |rows[r].cells|
    ensures var cells := rows[r].cells;
      var p := CellStart(RowStart(i, rows, r), cells, c);
      var end := p + |Spell(cells[c])|;
      && cells[c].Sequence? && Here(lexicon, input, p, cells[c], CellStops) && end <= |input|
      && MeaningAll(cells[..c + 1]) == MeaningAll(cells[..c]) + [Meaning(cells[c])]
      && (c + 1 < |cells| ==>
            end < |input| && input[end] == '&' && CellStart(RowStart(i, rows, r), cells, c + 1) == end + 1)
      && (c + 1 == |cells| ==>
            MeaningRows(rows[..r + 1])
              == MeaningRows(rows[..r]) + [MatrixRow(MeaningAll(cells[..c]) + [Meaning(cells[c])])])
      && (c + 1 == |cells| && r + 1 < |rows| ==>
            && Occurs(input, end, "\\\\") && rows[r + 1].cells != []
            && CellStart(RowStart(i, rows, r + 1), rows[r + 1].cells, 0) == end + 2
            && MeaningAll(rows[r + 1].cells[..0]) == [])
      && (c + 1 == |cells| && r + 1 == |rows| ==> end == i + |SpellRows(rows)| && rows[..r + 1] == rows)
  {
    hide HereRows, HereCells, Spell, Meaning, Occurs, MeaningAll, MeaningRows, SpellRows, SpellCells;
    var cells := rows[r].cells;
    RowHere(lexicon, input, i, rows, r);
    CellHere(lexicon, input, RowStart(i, rows, r), cells, c);
    RowsMeaning(rows, r, c);
    var end := CellStart(RowStart(i, rows, r), cells, c) + |Spell(cells[c])|;
    OccursInside(input, CellStart(RowStart(i, rows, r), cells, c), Spell(cells[c]));
    if c + 1 < |cells| {
      FirstIs(input, end, '&');
    } else if r + 1 < |rows| {
      RowHere(lexicon, input, i, rows, r + 1);
      CellsAreSome(lexicon, input, RowStart(i, rows, r + 1), rows[r + 1].cells);
    }
  }

  /** The matrix from row `r` and cell `c` on is read after what comes before. */
  lemma {:induction false} RowsAreRead(lexicon: Lexicon, input: string, i: nat, s: Syntax, r: nat, c: nat)
    requires s.MatrixEnv? && HereRows(lexicon, input, i, s.rows) && r < |s.rows| && c < |s.rows[r].cells|
    requires IsBlank(s.gap2) && Occurs(input, i + |SpellRows(s.rows)|, "\\end" + s.gap2 + "{matrix}")
    ensures var p := CellStart(RowStart(i, s.rows, r), s.rows[r].cells, c);
      && p <= |input|
      && RowsAt(lexicon, input, p, MeaningRows(s.rows[..r]), MeaningAll(s.rows[r].cells[..c]))
         == Ok(Read(MeaningRows(s.rows), i + |SpellRows(s.rows)| + 12 + |s.gap2|))
    decreases s, 0, |s.rows| - r, |s.rows[r].cells| - c
  {
    hide *;
    var cells := s.rows[r].cells;
    var p, cell := CellStart(RowStart(i, s.rows, r), cells, c), cells[c];
    var end := p + |Spell(cell)|;
    var rows, row := MeaningRows(s.rows[..r]), MeaningAll(cells[..c]);
    CellFacts(lexicon, input, i, s.rows, r, c);
    if c + 1 < |cells| {
      EndsAtSign(input, end);
      SequenceIsRead(lexicon, input, p, cell, CellStops, AtCell);
      CellReads(lexicon, input, p, rows, row, Meaning(cell), end);
      RowsAreRead(lexicon, input, i, s, r, c + 1);
    } else if r + 1 < |s.rows| {
      OccursInside(input, end, "\\\\");
      EndsAtBreak(input, end);
      SequenceIsRead(lexicon, input, p, cell, CellStops, AtRow);
      RowReads(lexicon, input, p, rows, row, Meaning(cell), end);
      RowsAreRead(lexicon, input, i, s, r + 1, 0);
    } else {
      MatrixEndIsRead(input, end, s.gap2);
      SequenceIsRead(lexicon, input, p, cell, CellStops, AtMatrixEnd);
      MatrixReads(lexicon, input, p, rows, row, Meaning(cell), end, Read(s.gap2, end + 12 + |s.gap2|));
    }
  }

  lemma CellsAreSome(lexicon: Lexicon, input: string, i: nat, cells: seq<Syntax>)
    requires HereCells(lexicon, input, i, cells)
    ensures cells != [] && CellStart(i, cells, 0) == i && MeaningAll(cells[..0]) == []
  {
  }

  /** Completeness: a non-empty text of the grammar whose tokens are as long as can be is accepted, and read
      as the tree it stands for. */
  lemma DocumentIsRead(lexicon: Lexicon, s: Syntax)
    requires IsGroup(s) && IsGrammatical(lexicon, s) && Maximal(lexicon, Spell(s), 0, s, NoStop)
    ensures DocumentAt(lexicon, Spell(s)) == Ok(Meaning(s))
  {
    hide Maximal, Spell, SequenceAt, IsGrammatical;
    var input := Spell(s);
    assert input[0..0 + |input|] == input;
    assert Here(lexicon, input, 0, s, NoStop);
    GroupIsNotEmpty(lexicon, input, 0, s, NoStop);
    SequenceIsRead(lexicon, input, 0, s, NoStop, AtEnd);
  }

  /** So such a text stands for one tree only. */
  lemma MeaningIsUnique(lexicon: Lexicon, a: Syntax, b: Syntax)
    requires IsGroup(a) && IsGrammatical(lexicon, a) && Maximal(lexicon, Spell(a), 0, a, NoStop)
    requires IsGroup(b) && IsGrammatical(lexicon, b) && Maximal(lexicon, Spell(b), 0, b, NoStop)
    requires Spell(a) == Spell(b)
    ensures Meaning(a) == Meaning(b)
  {
    hide *;
    DocumentIsRead(lexicon, a);
    DocumentIsRead(lexicon, b);
  }
}
