/** The parser for TeX-like math: a cursor that moves over the input. Each method reads what the function
    of its name says, or refuses with the same message. */
module MathParsers {
  import opened Wrappers
  import opened Whitespace
  import opened MathSyntax
  import opened MathParsing

  /** A method that moved the cursor did what the function says. */
  predicate Reads<T(==)>(expected: Result<Read<T>, string>, r: Result<T, string>, cursor: nat) {
    match expected
    case Ok(read) => r == Ok(read.value) && cursor == read.next
    case Err(e) => r == Err(e)
  }

  lemma BlankEndTwice(input: string, i: nat)
    requires i <= |input|
    ensures BlankEnd(input, BlankEnd(input, i)) == BlankEnd(input, i)
  {
  }

  class MathParser {
    const input: string
    const lexicon: Lexicon
    var cursor: nat

    constructor (input: string, lexicon: Lexicon)
      ensures this.input == input && this.lexicon == lexicon && cursor == 0
    {
      this.input, this.lexicon, cursor := input, lexicon, 0;
    }

    ghost predicate Valid()
      reads this
    {
      cursor <= |input|
    }

    method SkipWhitespace()
      requires Valid()
      modifies `cursor
      ensures Valid() && cursor == BlankEnd(input, old(cursor))
    {
      while cursor < |input| && IsWhitespace(input[cursor])
        invariant Valid() && BlankEnd(input, cursor) == BlankEnd(input, old(cursor))
      {
        cursor := cursor + 1;
      }
    }

    method ReadCommand() returns (r: Result<Command, string>)
      requires Valid()
      modifies `cursor
      ensures Valid() && old(cursor) <= cursor
      ensures Reads(CommandAt(input, old(cursor)), r, cursor)
    {
      if cursor == |input| || input[cursor] != '\\' {
        return Err("expected command");
      }
      cursor := cursor + 1;
      if cursor == |input| {
        return Err("dangling escape");
      }
      var character := input[cursor];
      if character == '\\' {
        cursor := cursor + 1;
        return Ok(LineBreak);
      }
      if IsAsciiLetter(character) {
        var start := cursor;
        while cursor < |input| && IsAsciiLetter(input[cursor])
          invariant Valid() && start <= cursor && LettersEnd(input, cursor) == LettersEnd(input, start)
        {
          cursor := cursor + 1;
        }
        return Ok(Word(input[start..cursor]));
      }
      cursor := cursor + 1;
      return Ok(Symbol(character));
    }

    method ReadEnvironmentName() returns (r: Result<string, string>)
      requires Valid()
      modifies `cursor
      ensures Valid() && old(cursor) <= cursor
      ensures Reads(NameAt(input, old(cursor)), r, cursor)
    {
      SkipWhitespace();
      if cursor == |input| || input[cursor] != '{' {
        return Err("environment name requires `{...}`");
      }
      cursor := cursor + 1;
      var start := cursor;
      while cursor < |input| && IsNameChar(input[cursor])
        invariant Valid() && start <= cursor && NameEnd(input, cursor) == NameEnd(input, start)
      {
        cursor := cursor + 1;
      }
      var name := input[start..cursor];
      if name == [] {
        return Err("environment name is empty");
      }
      if cursor == |input| || input[cursor] != '}' {
        return Err("environment name missing closing `}`");
      }
      cursor := cursor + 1;
      return Ok(name);
    }

    method ReadNumber() returns (text: string)
      requires Valid() && IsNumberAt(input, cursor)
      modifies `cursor
      ensures Valid() && cursor == NumberEnd(input, old(cursor), false) && text == input[old(cursor)..cursor]
    {
      var start := cursor;
      var seenDot := false;
      while cursor < |input|
        invariant Valid() && start <= cursor && NumberEnd(input, cursor, seenDot) == NumberEnd(input, start, false)
      {
        if IsDigit(input[cursor]) {
          cursor := cursor + 1;
          continue;
        }
        if input[cursor] == '.' && !seenDot {
          seenDot := true;
          cursor := cursor + 1;
          continue;
        }
        break;
      }
      text := input[start..cursor];
    }

    /** A delimiter after `\left` or `\right`. */
    method ReadDelimiter() returns (r: Result<string, string>)
      requires Valid()
      modifies `cursor
      ensures Valid() && old(cursor) <= cursor && Reads(DelimiterAt(input, old(cursor)), r, cursor)
    {
      SkipWhitespace();
      if cursor < |input| && input[cursor] == '\\' {
        var command := ReadCommand();
        if command.Err? {
          return Err(command.error);
        }
        return DelimiterOfCommand(command.value);
      }
      if cursor == |input| {
        return Err("missing delimiter");
      }
      cursor := cursor + 1;
      return DelimiterIn(input[cursor - 1]);
    }

    /** `{`, a sequence that is not empty, `}`, after white space. */
    method ParseRequiredGroup(context: string) returns (r: Result<MathNode, string>)
      requires Valid()
      modifies `cursor
      ensures Valid() && old(cursor) <= cursor && Reads(GroupAt(lexicon, input, old(cursor), context), r, cursor)
      decreases |input| - cursor, 0
    {
      SkipWhitespace();
      if cursor == |input| || input[cursor] != '{' {
        return Err(context + " requires `{...}`");
      }
      cursor := cursor + 1;
      hide SequenceAt;
      var parsed := ParseSequence(NoStop.(groupEnd := true));
      if parsed.Err? {
        return Err(parsed.error);
      }
      if parsed.value.1 != AtGroupEnd {
        return Err(context + " missing closing `}`");
      }
      cursor := cursor + 1;
      if IsEmpty(parsed.value.0) {
        return Err(context + " is empty");
      }
      return Ok(parsed.value.0);
    }

    /** `[`, a sequence that is not empty, `]`, if there is a `[` after white space. */
    method ParseOptionalBracketGroup() returns (r: Result<Option<MathNode>, string>)
      requires Valid()
      modifies `cursor
      ensures Valid() && old(cursor) <= cursor && Reads(DegreeAt(lexicon, input, old(cursor)), r, cursor)
      decreases |input| - cursor, 0
    {
      SkipWhitespace();
      if cursor == |input| || input[cursor] != '[' {
        return Ok(None);
      }
      cursor := cursor + 1;
      hide SequenceAt;
      var parsed := ParseSequence(NoStop.(bracketEnd := true));
      if parsed.Err? {
        return Err(parsed.error);
      }
      if parsed.value.1 != AtBracketEnd {
        return Err("optional root degree missing closing `]`");
      }
      cursor := cursor + 1;
      if IsEmpty(parsed.value.0) {
        return Err("optional root degree is empty");
      }
      return Ok(Some(parsed.value.0));
    }

    /** Items until a stop. */
    method ParseSequence(stops: StopSet) returns (r: Result<(MathNode, StopKind), string>)
      requires Valid()
      modifies `cursor
      ensures Valid() && old(cursor) <= cursor && Reads(SequenceAt(lexicon, input, old(cursor), stops), r, cursor)
      decreases |input| - cursor, 4
    {
      hide StopAt, AtomAt, ScriptsAt;
      ghost var start := cursor;
      var nodes: seq<MathNode> := [];
      while true
        invariant Valid() && start <= cursor
        invariant SequenceAt(lexicon, input, start, stops) == ItemsAt(lexicon, input, cursor, stops, nodes)
        decreases |input| - cursor
      {
        BlankEndTwice(input, cursor);
        SkipWhitespace();
        var stop := StopAt(input, cursor, stops);
        if stop.Some? {
          return Ok((RowOf(nodes), stop.value));
        }
        if cursor < |input| && (input[cursor] == '^' || input[cursor] == '_') {
          return Err("script marker has no base");
        }
        var atom := ParseAtom();
        if atom.Err? {
          return Err(atom.error);
        }
        var item := ParseScripts(atom.value);
        if item.Err? {
          return Err(item.error);
        }
        nodes := nodes + [item.value];
      }
    }

    method ParseAtom() returns (r: Result<MathNode, string>)
      requires Valid()
      modifies `cursor
      ensures Valid() && old(cursor) <= cursor && Reads(AtomAt(lexicon, input, old(cursor)), r, cursor)
      decreases |input| - cursor, 2
    {
      hide GroupAt, CommandAtomAt, NumberEnd, IsOperatorChar;
      SkipWhitespace();
      if cursor == |input| {
        return Err("unexpected end of math expression");
      }
      var character := input[cursor];
      if character == '{' {
        r := ParseRequiredGroup("group");
        return;
      }
      if character == '\\' {
        r := ParseCommandAtom();
        return;
      }
      if IsNumberAt(input, cursor) {
        var text := ReadNumber();
        return Ok(Number(text));
      }
      if lexicon.isLetter(character) {
        cursor := cursor + 1;
        return Ok(Identifier([character]));
      }
      if IsOperatorChar(character) {
        cursor := cursor + 1;
        return Ok(Operator([character]));
      }
      return Err("unsupported math character `" + [character] + "`");
    }

    /** Scripts after an atom, in any order, at most one of each kind. */
    method ParseScripts(base: MathNode) returns (r: Result<MathNode, string>)
      requires Valid()
      modifies `cursor
      ensures Valid() && old(cursor) <= cursor
        && Reads(ScriptsAt(lexicon, input, old(cursor), base, None, None), r, cursor)
      decreases |input| - cursor, 4
    {
      hide ArgumentAt, WithScripts, IsBlank;
      ghost var start := cursor;
      var subscript: Option<MathNode> := None;
      var superscript: Option<MathNode> := None;
      while true
        invariant Valid() && start <= cursor
        invariant ScriptsAt(lexicon, input, start, base, None, None)
          == ScriptsAt(lexicon, input, cursor, base, subscript, superscript)
        decreases |input| - cursor
      {
        SkipWhitespace();
        if cursor == |input| || (input[cursor] != '_' && input[cursor] != '^') {
          return Ok(WithScripts(base, subscript, superscript));
        }
        var isSuper := input[cursor] == '^';
        if !isSuper && subscript.Some? {
          return Err("duplicate subscript");
        }
        if isSuper && superscript.Some? {
          return Err("duplicate superscript");
        }
        cursor := cursor + 1;
        var argument := ParseScriptArgument();
        if argument.Err? {
          return Err(argument.error);
        }
        if isSuper {
          superscript := Some(argument.value);
        } else {
          subscript := Some(argument.value);
        }
      }
    }

    method ParseScriptArgument() returns (r: Result<MathNode, string>)
      requires Valid()
      modifies `cursor
      ensures Valid() && old(cursor) <= cursor && Reads(ArgumentAt(lexicon, input, old(cursor)), r, cursor)
      decreases |input| - cursor, 3
    {
      hide GroupAt, AtomAt;
      SkipWhitespace();
      if cursor < |input| && input[cursor] == '{' {
        r := ParseRequiredGroup("script argument");
        return;
      }
      r := ParseAtom();
    }

    method ParseCommandAtom() returns (r: Result<MathNode, string>)
      requires Valid()
      modifies `cursor
      ensures Valid() && old(cursor) <= cursor && Reads(CommandAtomAt(lexicon, input, old(cursor)), r, cursor)
      decreases |input| - cursor, 1
    {
      hide GroupAt, DegreeAt, LeftRightAt, BeginAt, CommandAt, EscapedNode, WordNode;
      var read := ReadCommand();
      if read.Err? {
        return Err(read.error);
      }
      var command := read.value;
      if command.LineBreak? {
        return Ok(Space);
      }
      if command.Symbol? {
        var escaped := EscapedNode(command.character);
        if escaped.None? {
          return Err("unsupported escaped math character `\\" + [command.character] + "`");
        }
        return Ok(escaped.value);
      }
      if command.text == "begin" {
        r := ParseBeginEnvironment();
        return;
      }
      if command.text == "end" {
        return Err("unexpected \\end");
      }
      if command.text == "frac" {
        var numerator := ParseRequiredGroup("\\frac numerator");
        if numerator.Err? {
          return Err(numerator.error);
        }
        var denominator := ParseRequiredGroup("\\frac denominator");
        if denominator.Err? {
          return Err(denominator.error);
        }
        return Ok(Fraction(numerator.value, denominator.value));
      }
      if command.text == "left" {
        r := ParseLeftRightGroup();
        return;
      }
      if command.text == "right" {
        return Err("unexpected \\right");
      }
      if command.text == "sqrt" {
        var degree := ParseOptionalBracketGroup();
        if degree.Err? {
          return Err(degree.error);
        }
        var radicand := ParseRequiredGroup("\\sqrt radicand");
        if radicand.Err? {
          return Err(radicand.error);
        }
        return Ok(Sqrt(degree.value, radicand.value));
      }
      var node := WordNode(lexicon, command.text);
      if node.None? {
        return Err("unsupported math command `\\" + command.text + "`");
      }
      return Ok(node.value);
    }

    method ParseLeftRightGroup() returns (r: Result<MathNode, string>)
      requires Valid()
      modifies `cursor
      ensures Valid() && old(cursor) <= cursor && Reads(LeftRightAt(lexicon, input, old(cursor)), r, cursor)
      decreases |input| - cursor, 5
    {
      hide SequenceAt, CommandAt, DelimiterAt;
      var open := ReadDelimiter();
      if open.Err? {
        return Err(open.error);
      }
      var parsed := ParseSequence(NoStop.(rightDelimiter := true));
      if parsed.Err? {
        return Err(parsed.error);
      }
      if parsed.value.1 != AtRight {
        return Err("\\left missing matching \\right");
      }
      var command := ReadCommand();
      if command.Err? {
        return Err(command.error);
      }
      if command.value != Word("right") {
        return Err("\\left missing matching \\right");
      }
      var close := ReadDelimiter();
      if close.Err? {
        return Err(close.error);
      }
      return Ok(Fenced(open.value, parsed.value.0, close.value));
    }

    method ParseBeginEnvironment() returns (r: Result<MathNode, string>)
      requires Valid()
      modifies `cursor
      ensures Valid() && old(cursor) <= cursor && Reads(BeginAt(lexicon, input, old(cursor)), r, cursor)
      decreases |input| - cursor, 6
    {
      hide NameAt, RowsAt;
      var environment := ReadEnvironmentName();
      if environment.Err? {
        return Err(environment.error);
      }
      if environment.value != "matrix" {
        return Err("unsupported math environment `" + environment.value + "`");
      }
      var rows := ParseMatrixEnvironment();
      if rows.Err? {
        return Err(rows.error);
      }
      return Ok(Matrix(rows.value));
    }

    /** The cells and rows up to and with the end of the environment. */
    method ParseMatrixEnvironment() returns (r: Result<seq<MatrixRow>, string>)
      requires Valid()
      modifies `cursor
      ensures Valid() && old(cursor) <= cursor && Reads(RowsAt(lexicon, input, old(cursor), [], []), r, cursor)
      decreases |input| - cursor, 5
    {
      hide SequenceAt, MatrixEndAt;
      ghost var start := cursor;
      var rows: seq<MatrixRow> := [];
      var currentRow: seq<MathNode> := [];
      while true
        invariant Valid() && start <= cursor
        invariant RowsAt(lexicon, input, start, [], []) == RowsAt(lexicon, input, cursor, rows, currentRow)
        decreases |input| - cursor
      {
        var parsed := ParseSequence(CellStops);
        if parsed.Err? {
          return Err(parsed.error);
        }
        currentRow := currentRow + [parsed.value.0];
        match parsed.value.1 {
          case AtCell =>
            cursor := cursor + 1;
          case AtRow =>
            var command := ReadCommand();
            if command.Err? {
              return Err(command.error);
            }
            rows := rows + [MatrixRow(currentRow)];
            currentRow := [];
          case AtMatrixEnd =>
            var consumed := ConsumeEndEnvironment();
            if consumed.Err? {
              return Err(consumed.error);
            }
            return Ok(rows + [MatrixRow(currentRow)]);
          case AtEnd =>
            return Err("matrix missing \\end{matrix}");
          case _ =>
            return Err("invalid matrix delimiter");
        }
      }
    }

    method ConsumeEndEnvironment() returns (r: Result<(), string>)
      requires Valid()
      modifies `cursor
      ensures Valid() && old(cursor) <= cursor
      ensures match MatrixEndAt(input, old(cursor))
        case Ok(read) => r.Ok? && cursor == read.next
        case Err(e) => r == Err(e)
    {
      hide CommandAt, NameAt;
      var command := ReadCommand();
      if command.Err? {
        return Err(command.error);
      }
      if command.value != Word("end") {
        return Err("missing \\end{matrix}");
      }
      var environment := ReadEnvironmentName();
      if environment.Err? {
        return Err(environment.error);
      }
      if environment.value != "matrix" {
        return Err("expected \\end{matrix}, found \\end{" + environment.value + "}");
      }
      return Ok(());
    }

    /** The whole input. */
    method ParseDocument() returns (r: Result<MathNode, string>)
      requires cursor == 0
      modifies `cursor
      ensures Valid() && r == DocumentAt(lexicon, input)
      ensures r.Ok? ==> cursor == |input|
    {
      hide SequenceAt;
      var parsed := ParseSequence(NoStop);
      if parsed.Err? {
        return Err(parsed.error);
      }
      if parsed.value.1 != AtEnd {
        return Err("unexpected math delimiter");
      }
      if IsEmpty(parsed.value.0) {
        return Err("empty math expression");
      }
      return Ok(parsed.value.0);
    }
  }
}
