/** What the parser for TeX-like math reads at each place of the input, or why it refuses. */
module MathParsing {
  import opened Wrappers
  import opened Whitespace
  import opened MathSyntax

  datatype Command = LineBreak | Symbol(character: char) | Word(text: string)

  datatype StopKind = AtBracketEnd | AtEnd | AtGroupEnd | AtCell | AtMatrixEnd | AtRow | AtRight

  datatype StopSet = StopSet(
    bracketEnd: bool, groupEnd: bool, matrixCell: bool, matrixEnd: bool, matrixRow: bool, rightDelimiter: bool)

  const NoStop := StopSet(false, false, false, false, false, false)

  function BlankEnd(input: string, i: nat): (end: nat)
    requires i <= |input|
    ensures i <= end <= |input| && IsBlank(input[i..end])
    ensures end < |input| ==> !IsWhitespace(input[end])
    decreases |input| - i
  {
    if i < |input| && IsWhitespace(input[i]) then
      var end := BlankEnd(input, i + 1);
      assert forall k :: 0 <= k < end - i ==> input[i..end][k] == if k == 0 then input[i] else input[i + 1..end][k - 1];
      end
    else i
  }

  function LettersEnd(input: string, i: nat): (end: nat)
    requires i <= |input|
    ensures i <= end <= |input|
    decreases |input| - i
  {
    if i < |input| && IsAsciiLetter(input[i]) then LettersEnd(input, i + 1) else i
  }

  predicate IsNameChar(c: char) {
    IsAsciiLetter(c) || IsDigit(c) || c == '*'
  }

  function NameEnd(input: string, i: nat): (end: nat)
    requires i <= |input|
    ensures i <= end <= |input|
    decreases |input| - i
  {
    if i < |input| && IsNameChar(input[i]) then NameEnd(input, i + 1) else i
  }

  datatype Read<T> = Read(value: T, next: nat)

  /** The command at `i`. */
  function CommandAt(input: string, i: nat): (r: Result<Read<Command>, string>)
    requires i <= |input|
    ensures r.Ok? ==>
      i + 1 < r.value.next <= |input| && input[i] == '\\' && input[i..r.value.next] == SpellCommand(r.value.value)
  {
    if i == |input| || input[i] != '\\' then Err("expected command")
    else if i + 1 == |input| then Err("dangling escape")
    else if input[i + 1] == '\\' then
      assert input[i..i + 2] == "\\\\";
      Ok(Read(LineBreak, i + 2))
    else if IsAsciiLetter(input[i + 1]) then
      var end := LettersEnd(input, i + 1);
      assert input[i..end] == "\\" + input[i + 1..end];
      Ok(Read(Word(input[i + 1..end]), end))
    else
      assert input[i..i + 2] == "\\" + [input[i + 1]];
      Ok(Read(Symbol(input[i + 1]), i + 2))
  }

  function SpellCommand(command: Command): string {
    match command
    case LineBreak => "\\\\"
    case Symbol(c) => "\\" + [c]
    case Word(text) => "\\" + text
  }

  /** The environment name in braces after white space. */
  function NameAt(input: string, i: nat): (r: Result<Read<string>, string>)
    requires i <= |input|
    ensures r.Ok? ==> var start := BlankEnd(input, i);
      start < r.value.next <= |input| && input[start..r.value.next] == "{" + r.value.value + "}"
  {
    var start := BlankEnd(input, i);
    if start == |input| || input[start] != '{' then Err("environment name requires `{...}`")
    else
      var end := NameEnd(input, start + 1);
      if end == start + 1 then Err("environment name is empty")
      else if end == |input| || input[end] != '}' then Err("environment name missing closing `}`")
      else
        assert input[start..end + 1] == "{" + input[start + 1..end] + "}";
        Ok(Read(input[start + 1..end], end + 1))
  }

  predicate EndsMatrix(input: string, i: nat)
    requires i <= |input|
  {
    match CommandAt(input, i)
    case Ok(Read(Word(word), next)) => word == "end"
      && (match NameAt(input, next) case Ok(name) => name.value == "matrix" case Err(_) => false)
    case _ => false
  }

  /** Whether a sequence stops at `i`, and at what. */
  function StopAt(input: string, i: nat, stops: StopSet): (r: Option<StopKind>)
    requires i <= |input|
  {
    if i == |input| then Some(AtEnd)
    else if input[i] == '}' && stops.groupEnd then Some(AtGroupEnd)
    else if input[i] == ']' && stops.bracketEnd then Some(AtBracketEnd)
    else if input[i] == '&' && stops.matrixCell then Some(AtCell)
    else if input[i] == '\\' then
      var command := CommandAt(input, i);
      if stops.matrixRow && command.Ok? && command.value.value == LineBreak then Some(AtRow)
      else if stops.rightDelimiter && command.Ok? && command.value.value == Word("right") then Some(AtRight)
      else if stops.matrixEnd && EndsMatrix(input, i) then Some(AtMatrixEnd)
      else None
    else None
  }

  /** The delimiter after white space at `i`. */
  function DelimiterAt(input: string, i: nat): (r: Result<Read<string>, string>)
    requires i <= |input|
    ensures r.Ok? ==> BlankEnd(input, i) < r.value.next <= |input|
  {
    var start := BlankEnd(input, i);
    if start < |input| && input[start] == '\\' then
      match CommandAt(input, start)
      case Err(e) => Err(e)
      case Ok(read) =>
        match DelimiterOfCommand(read.value)
        case Err(e) => Err(e)
        case Ok(text) => Ok(Read(text, read.next))
    else if start == |input| then Err("missing delimiter")
    else
      match DelimiterIn(input[start])
      case Err(e) => Err(e)
      case Ok(text) => Ok(Read(text, start + 1))
  }

  function DelimiterIn(c: char): Result<string, string> {
    match DelimiterOfChar(c)
    case Some(text) => Ok(text)
    case None => Err("unsupported delimiter `" + [c] + "`")
  }

  function DelimiterOfCommand(command: Command): Result<string, string> {
    match command
    case Symbol(c) => DelimiterIn(c)
    case Word(word) =>
      (match DelimiterOfWord(word)
       case Some(text) => Ok(text)
       case None => Err("unsupported delimiter `\\" + word + "`"))
    case LineBreak => Err("line break cannot be delimiter")
  }

  predicate IsNumberAt(input: string, i: nat) {
    i < |input| && (IsDigit(input[i]) || (input[i] == '.' && i + 1 < |input| && IsDigit(input[i + 1])))
  }

  /** Where the number that is read from `i` ends: before the second dot, or the first other character. */
  function NumberEnd(input: string, i: nat, seenDot: bool): (end: nat)
    requires i <= |input|
    ensures i <= end <= |input|
    ensures forall k :: i <= k < end ==> IsDigit(input[k]) || (input[k] == '.' && !seenDot)
    ensures forall j, k :: i <= j < k < end ==> input[j] != '.' || input[k] != '.'
    decreases |input| - i
  {
    if i == |input| then i
    else if IsDigit(input[i]) then NumberEnd(input, i + 1, seenDot)
    else if input[i] == '.' && !seenDot then NumberEnd(input, i + 1, true)
    else i
  }

  function WithScripts(base: MathNode, subscript: Option<MathNode>, superscript: Option<MathNode>): MathNode {
    if subscript.None? && superscript.None? then base else SupSub(base, subscript, superscript)
  }

  function GroupAt(lexicon: Lexicon, input: string, i: nat, context: string): (r: Result<Read<MathNode>, string>)
    requires i <= |input|
    ensures r.Ok? ==> BlankEnd(input, i) < r.value.next <= |input|
    decreases |input| - i, 0
  {
    var start := BlankEnd(input, i);
    if start == |input| || input[start] != '{' then Err(context + " requires `{...}`")
    else
      match SequenceAt(lexicon, input, start + 1, NoStop.(groupEnd := true))
      case Err(e) => Err(e)
      case Ok(read) =>
        if read.value.1 != AtGroupEnd then Err(context + " missing closing `}`")
        else if IsEmpty(read.value.0) then Err(context + " is empty")
        else Ok(Read(read.value.0, read.next + 1))
  }

  function DegreeAt(lexicon: Lexicon, input: string, i: nat): (r: Result<Read<Option<MathNode>>, string>)
    requires i <= |input|
    ensures r.Ok? ==> BlankEnd(input, i) <= r.value.next <= |input|
    decreases |input| - i, 0
  {
    var start := BlankEnd(input, i);
    if start == |input| || input[start] != '[' then Ok(Read(None, start))
    else
      match SequenceAt(lexicon, input, start + 1, NoStop.(bracketEnd := true))
      case Err(e) => Err(e)
      case Ok(read) =>
        if read.value.1 != AtBracketEnd then Err("optional root degree missing closing `]`")
        else if IsEmpty(read.value.0) then Err("optional root degree is empty")
        else Ok(Read(Some(read.value.0), read.next + 1))
  }

  function SequenceAt(lexicon: Lexicon, input: string, i: nat, stops: StopSet)
    : (r: Result<Read<(MathNode, StopKind)>, string>)
    requires i <= |input|
    ensures r.Ok? ==> i <= r.value.next <= |input| && StopAt(input, r.value.next, stops) == Some(r.value.value.1)
    decreases |input| - i, 5
  {
    ItemsAt(lexicon, input, i, stops, [])
  }

  /** The rest of a sequence whose first items are `nodes`. */
  function ItemsAt(lexicon: Lexicon, input: string, i: nat, stops: StopSet, nodes: seq<MathNode>)
    : (r: Result<Read<(MathNode, StopKind)>, string>)
    requires i <= |input|
    ensures r.Ok? ==> i <= r.value.next <= |input| && StopAt(input, r.value.next, stops) == Some(r.value.value.1)
    decreases |input| - i, 4
  {
    var at := BlankEnd(input, i);
    var stop := StopAt(input, at, stops);
    if stop.Some? then Ok(Read((RowOf(nodes), stop.value), at))
    else if at < |input| && (input[at] == '^' || input[at] == '_') then Err("script marker has no base")
    else
      match AtomAt(lexicon, input, at)
      case Err(e) => Err(e)
      case Ok(atom) =>
        match ScriptsAt(lexicon, input, atom.next, atom.value, None, None)
        case Err(e) => Err(e)
        case Ok(item) => ItemsAt(lexicon, input, item.next, stops, nodes + [item.value])
  }

  function AtomAt(lexicon: Lexicon, input: string, i: nat): (r: Result<Read<MathNode>, string>)
    requires i <= |input|
    ensures r.Ok? ==> BlankEnd(input, i) < r.value.next <= |input|
    decreases |input| - i, 2
  {
    var at := BlankEnd(input, i);
    if at == |input| then Err("unexpected end of math expression")
    else if input[at] == '{' then GroupAt(lexicon, input, at, "group")
    else if input[at] == '\\' then CommandAtomAt(lexicon, input, at)
    else if IsNumberAt(input, at) then
      var end := NumberEnd(input, at, false);
      Ok(Read(Number(input[at..end]), end))
    else if lexicon.isLetter(input[at]) then Ok(Read(Identifier([input[at]]), at + 1))
    else if IsOperatorChar(input[at]) then Ok(Read(Operator([input[at]]), at + 1))
    else Err("unsupported math character `" + [input[at]] + "`")
  }

  function CommandAtomAt(lexicon: Lexicon, input: string, i: nat): (r: Result<Read<MathNode>, string>)
    requires i <= |input|
    ensures r.Ok? ==> i < r.value.next <= |input|
    decreases |input| - i, 1
  {
    match CommandAt(input, i)
    case Err(e) => Err(e)
    case Ok(Read(LineBreak, next)) => Ok(Read(Space, next))
    case Ok(Read(Symbol(c), next)) =>
      if EscapedNode(c).Some? then Ok(Read(EscapedNode(c).value, next))
      else Err("unsupported escaped math character `\\" + [c] + "`")
    case Ok(Read(Word(word), next)) =>
      if word == "begin" then BeginAt(lexicon, input, next)
      else if word == "end" then Err("unexpected \\end")
      else if word == "frac" then
        match GroupAt(lexicon, input, next, "\\frac numerator")
        case Err(e) => Err(e)
        case Ok(over) =>
          match GroupAt(lexicon, input, over.next, "\\frac denominator")
          case Err(e) => Err(e)
          case Ok(under) => Ok(Read(Fraction(over.value, under.value), under.next))
      else if word == "left" then LeftRightAt(lexicon, input, next)
      else if word == "right" then Err("unexpected \\right")
      else if word == "sqrt" then
        match DegreeAt(lexicon, input, next)
        case Err(e) => Err(e)
        case Ok(degree) =>
          match GroupAt(lexicon, input, degree.next, "\\sqrt radicand")
          case Err(e) => Err(e)
          case Ok(body) => Ok(Read(Sqrt(degree.value, body.value), body.next))
      else if WordNode(lexicon, word).Some? then Ok(Read(WordNode(lexicon, word).value, next))
      else Err("unsupported math command `\\" + word + "`")
  }

  function ScriptsAt(lexicon: Lexicon, input: string, i: nat, base: MathNode, subscript: Option<MathNode>,
                     superscript: Option<MathNode>)
    : (r: Result<Read<MathNode>, string>)
    requires i <= |input|
    ensures r.Ok? ==> i <= r.value.next <= |input| && BlankEnd(input, r.value.next) == r.value.next
    decreases |input| - i, 4
  {
    var at := BlankEnd(input, i);
    if at == |input| || (input[at] != '_' && input[at] != '^') then
      Ok(Read(WithScripts(base, subscript, superscript), at))
    else if input[at] == '_' && subscript.Some? then Err("duplicate subscript")
    else if input[at] == '^' && superscript.Some? then Err("duplicate superscript")
    else
      match ArgumentAt(lexicon, input, at + 1)
      case Err(e) => Err(e)
      case Ok(argument) =>
        if input[at] == '_' then ScriptsAt(lexicon, input, argument.next, base, Some(argument.value), superscript)
        else ScriptsAt(lexicon, input, argument.next, base, subscript, Some(argument.value))
  }

  function ArgumentAt(lexicon: Lexicon, input: string, i: nat): (r: Result<Read<MathNode>, string>)
    requires i <= |input|
    ensures r.Ok? ==> BlankEnd(input, i) < r.value.next <= |input|
    decreases |input| - i, 3
  {
    var at := BlankEnd(input, i);
    if at < |input| && input[at] == '{' then GroupAt(lexicon, input, at, "script argument")
      else AtomAt(lexicon, input, at)
  }

  /** What follows `\left`. */
  function LeftRightAt(lexicon: Lexicon, input: string, i: nat): (r: Result<Read<MathNode>, string>)
    requires i <= |input|
    ensures r.Ok? ==> i < r.value.next <= |input|
    decreases |input| - i, 5
  {
    match DelimiterAt(input, i)
    case Err(e) => Err(e)
    case Ok(open) =>
      match SequenceAt(lexicon, input, open.next, NoStop.(rightDelimiter := true))
      case Err(e) => Err(e)
      case Ok(body) =>
        if body.value.1 != AtRight then Err("\\left missing matching \\right")
        else
          match CommandAt(input, body.next)
          case Err(e) => Err(e)
          case Ok(command) =>
            if command.value != Word("right") then Err("\\left missing matching \\right")
            else
              match DelimiterAt(input, command.next)
              case Err(e) => Err(e)
              case Ok(close) => Ok(Read(Fenced(open.value, body.value.0, close.value), close.next))
  }

  /** What follows `\begin`. */
  function BeginAt(lexicon: Lexicon, input: string, i: nat): (r: Result<Read<MathNode>, string>)
    requires i <= |input|
    ensures r.Ok? ==> i < r.value.next <= |input|
    decreases |input| - i, 7
  {
    match NameAt(input, i)
    case Err(e) => Err(e)
    case Ok(name) =>
      if name.value != "matrix" then Err("unsupported math environment `" + name.value + "`")
      else
        match RowsAt(lexicon, input, name.next, [], [])
        case Err(e) => Err(e)
        case Ok(rows) => Ok(Read(Matrix(rows.value), rows.next))
  }

  /** The rest of a matrix after these rows and these cells of the current row, with its end. */
  function RowsAt(lexicon: Lexicon, input: string, i: nat, rows: seq<MatrixRow>, row: seq<MathNode>)
    : (r: Result<Read<seq<MatrixRow>>, string>)
    requires i <= |input|
    ensures r.Ok? ==> i <= r.value.next <= |input|
    decreases |input| - i, 6
  {
    match SequenceAt(lexicon, input, i, CellStops)
    case Err(e) => Err(e)
    case Ok(Read((cell, stop), next)) =>
      match stop
      case AtCell => RowsAt(lexicon, input, next + 1, rows, row + [cell])
      case AtRow =>
        (match CommandAt(input, next)
         case Err(e) => Err(e)
         case Ok(command) => RowsAt(lexicon, input, command.next, rows + [MatrixRow(row + [cell])], []))
      case AtMatrixEnd =>
        (match MatrixEndAt(input, next)
         case Err(e) => Err(e)
         case Ok(end) => Ok(Read(rows + [MatrixRow(row + [cell])], end.next)))
      case AtEnd => Err("matrix missing \\end{matrix}")
      case _ => Err("invalid matrix delimiter")
  }

  const CellStops := NoStop.(matrixCell := true, matrixEnd := true, matrixRow := true)

  /** `\end{matrix}`; the value is the white space before the name. */
  function MatrixEndAt(input: string, i: nat): (r: Result<Read<string>, string>)
    requires i <= |input|
    ensures r.Ok? ==> i < r.value.next <= |input| && IsBlank(r.value.value)
    ensures r.Ok? ==> input[i..r.value.next] == "\\end" + r.value.value + "{matrix}"
  {
    match CommandAt(input, i)
    case Err(e) => Err(e)
    case Ok(command) =>
      if command.value != Word("end") then Err("missing \\end{matrix}")
      else
        match NameAt(input, command.next)
        case Err(e) => Err(e)
        case Ok(name) =>
          if name.value != "matrix" then Err("expected \\end{matrix}, found \\end{" + name.value + "}")
          else
            MatrixEndText(input, i, command, name);
            Ok(Read(input[command.next..BlankEnd(input, command.next)], name.next))
  }

  lemma Cut(input: string, a: nat, b: nat, c: nat)
    requires a <= b <= c <= |input|
    ensures input[a..b] + input[b..c] == input[a..c]
  {
  }

  lemma MatrixEndText(input: string, i: nat, command: Read<Command>, name: Read<string>)
    requires i <= command.next <= |input| && input[i..command.next] == SpellCommand(Word("end"))
    requires var start := BlankEnd(input, command.next);
      start < name.next <= |input| && input[start..name.next] == "{" + "matrix" + "}"
    ensures input[i..name.next] == "\\end" + input[command.next..BlankEnd(input, command.next)] + "{matrix}"
  {
    EndLiterals();
    hide *;
    var start := BlankEnd(input, command.next);
    Cut(input, i, command.next, start);
    Cut(input, i, start, name.next);
  }

  lemma EndLiterals()
    ensures SpellCommand(Word("end")) == "\\end" && "{" + "matrix" + "}" == "{matrix}"
  {
  }

  /** The whole input. */
  function DocumentAt(lexicon: Lexicon, input: string): Result<MathNode, string> {
    match SequenceAt(lexicon, input, 0, NoStop)
    case Err(e) => Err(e)
    case Ok(read) =>
      if read.value.1 != AtEnd then Err("unexpected math delimiter")
      else if IsEmpty(read.value.0) then Err("empty math expression")
      else Ok(read.value.0)
  }
}
