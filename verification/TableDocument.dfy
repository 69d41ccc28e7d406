/** Formatting the pipe tables of a whole Markdown text: code fences, indented code, where tables start
    and end, line endings, and the filter that says which tables to format. */
module TableDocument {
  import opened Wrappers
  import opened Whitespace
  import opened SourceLines
  import opened TableScanner
  import opened TableFormat
  import opened TableTheorems

  datatype Fence = Fence(marker: char, length: nat)

  datatype Options = Options(style: Style, preserveLineEnding: bool)

  /** A filter over the first and the last line number of a table. */
  type Filter = (nat, nat) -> bool

  /** What follows the leading spaces; a fifth space makes it no fence line. */
  function AfterSpaces(line: string, spaces: nat): Option<string> {
    if line == [] then Some([])
    else if line[0] != ' ' then Some(line)
    else if spaces < 4 then AfterSpaces(line[1..], spaces + 1)
    else None
  }

  function Run(s: string, c: char): (n: nat)
    ensures n <= |s|
  {
    if s != [] && s[0] == c then 1 + Run(s[1..], c) else 0
  }

  function FenceStart(line: string): Option<Fence> {
    match AfterSpaces(line, 0)
    case None => None
    case Some(t) =>
      if t == [] || (t[0] != '`' && t[0] != '~') then None
      else if Run(t, t[0]) >= 3 then Some(Fence(t[0], Run(t, t[0])))
      else None
  }

  /** A fence may stand behind up to four spaces. */
  lemma FenceIndentation(n: nat)
    ensures FenceStart(Repeat(' ', n) + "```").Some? <==> n <= 4
  {
    var fence := "```";
    AfterSpaceRun(n, fence, 0);
    assert fence[1..] == "``" && "``"[1..] == "`" && "`"[1..] == "";
    assert Run("`", '`') == 1 && Run("``", '`') == 2;
  }

  lemma {:induction false} AfterSpaceRun(n: nat, rest: string, spaces: nat)
    requires rest != [] && rest[0] != ' ' && spaces <= 4
    ensures AfterSpaces(Repeat(' ', n) + rest, spaces) == if spaces + n <= 4 then Some(rest) else None
    decreases n
  {
    var line := Repeat(' ', n) + rest;
    if n == 0 {
      assert line == rest;
    } else {
      assert line[1..] == Repeat(' ', n - 1) + rest;
      if spaces < 4 { AfterSpaceRun(n - 1, rest, spaces + 1); }
    }
  }

  predicate FenceCloses(line: string, fence: Fence) {
    match AfterSpaces(line, 0)
    case None => false
    case Some(t) => Run(t, fence.marker) >= fence.length && AllPads(t[Run(t, fence.marker)..])
  }

  predicate IsIndentedCode(line: string) {
    "\t" <= line || "    " <= line
  }

  predicate IsTableStart(lines: seq<Line>) {
    && |lines| >= 2
    && !IsIndentedCode(lines[1].text)
    && FenceStart(lines[1].text).None?
    && HasDelimiter(lines[0].text)
    && HasDelimiter(lines[1].text)
    && ParseSeparator(Cells(lines[1].text)).Some?
  }

  predicate EndsTable(line: string) {
    IsBlank(line) || IsIndentedCode(line) || FenceStart(line).Some? || !HasDelimiter(line)
  }

  function BodyLength(lines: seq<Line>): (n: nat)
    ensures n <= |lines|
  {
    if lines == [] || EndsTable(lines[0].text) then 0 else 1 + BodyLength(lines[1..])
  }

  function TableEnd(lines: seq<Line>): (n: nat)
    requires |lines| >= 2
    ensures 2 <= n <= |lines|
  {
    2 + BodyLength(lines[2..])
  }

  function Texts(lines: seq<Line>): (r: seq<string>)
    ensures |r| == |lines| && forall k :: 0 <= k < |r| ==> r[k] == lines[k].text
  {
    seq(|lines|, k requires 0 <= k < |lines| => lines[k].text)
  }

  function FirstEnding(lines: seq<Line>): string {
    if lines == [] then "\n" else if lines[0].ending != [] then lines[0].ending else FirstEnding(lines[1..])
  }

  function TableEnding(table: seq<Line>, o: Options): string {
    if o.preserveLineEnding then FirstEnding(table) else "\n"
  }

  /** The formatted rows as lines: all end alike, but the last has an ending only if it had one. */
  function Block(rows: seq<string>, table: seq<Line>, o: Options): (r: seq<Line>)
    requires table != []
    ensures |r| == |rows|
  {
    seq(|rows|, k requires 0 <= k < |rows| =>
      Line(rows[k], if k + 1 < |rows| || table[|table| - 1].ending != [] then TableEnding(table, o) else []))
  }

  /** What one turn of the loop does: how many lines it takes, what it writes and reports, and the
      code fence that is open afterwards. */
  datatype Turn = Turn(taken: nat, out: seq<Line>, mismatches: seq<Mismatch>, fence: Option<Fence>)

  function Keep(lines: seq<Line>, taken: nat, fence: Option<Fence>): Turn
    requires taken <= |lines|
  {
    Turn(taken, lines[..taken], [], fence)
  }

  function TakeTurn(lines: seq<Line>, number: nat, fence: Option<Fence>, filter: Filter, o: Options): (r: Turn)
    requires lines != []
    ensures 1 <= r.taken <= |lines|
  {
    var text := lines[0].text;
    if fence.Some? then Keep(lines, 1, if FenceCloses(text, fence.value) then None else fence)
    else if FenceStart(text).Some? then Keep(lines, 1, FenceStart(text))
    else if IsIndentedCode(text) then Keep(lines, 1, None)
    else if IsTableStart(lines) then TableTurn(lines, number, filter, o)
    else Keep(lines, 1, None)
  }

  function TableTurn(lines: seq<Line>, number: nat, filter: Filter, o: Options): (r: Turn)
    requires IsTableStart(lines)
    ensures 1 <= r.taken <= |lines|
  {
    var end := TableEnd(lines);
    var table := lines[..end];
    if !filter(number, number + end - 1) then Keep(lines, end, None)
    else
      match FormatTable(Texts(table), o.style)
      case Some(rows) => Turn(end, Block(rows, table, o), TableMismatches(Texts(table), number), None)
      case None => Keep(lines, 1, None)
  }

  /** The lines from line `number` on, formatted; `fence` is the code fence that is open there. */
  function FormatFrom(lines: seq<Line>, number: nat, fence: Option<Fence>, filter: Filter, o: Options): seq<Line> {
    if lines == [] then []
    else
      var turn := TakeTurn(lines, number, fence, filter, o);
      turn.out + FormatFrom(lines[turn.taken..], number + turn.taken, turn.fence, filter, o)
  }

  /** The ragged rows reported on the way. */
  function DiagnosticsFrom(lines: seq<Line>, number: nat, fence: Option<Fence>, filter: Filter,
                           o: Options): seq<Mismatch> {
    if lines == [] then []
    else
      var turn := TakeTurn(lines, number, fence, filter, o);
      turn.mismatches + DiagnosticsFrom(lines[turn.taken..], number + turn.taken, turn.fence, filter, o)
  }

  function TableMismatches(rows: seq<string>, number: nat): seq<Mismatch> {
    match ParseTable(rows)
    case None => []
    case Some(t) => Mismatches(t, number)
  }

  function Format(source: string, filter: Filter, o: Options): string {
    Join(FormatFrom(Split(source), 1, None, filter, o))
  }

  function Diagnostics(source: string, filter: Filter, o: Options): seq<Mismatch> {
    DiagnosticsFrom(Split(source), 1, None, filter, o)
  }

  function AllTables(): Filter {
    (first: nat, last: nat) => true
  }

  datatype LineRange = LineRange(startLine: nat, endLine: nat)

  function Min(a: nat, b: nat): nat {
    if a < b then a else b
  }

  predicate Intersects(range: LineRange, first: nat, last: nat) {
    && Max(Min(range.startLine, range.endLine), 1) <= last
    && first <= Max(Max(range.startLine, range.endLine), 1)
  }

  function InRanges(ranges: seq<LineRange>): Filter {
    (first: nat, last: nat) => exists k :: 0 <= k < |ranges| && Intersects(ranges[k], first, last)
  }

  method CollectTableEnd(lines: seq<Line>, start: nat) returns (end: nat)
    requires start + 2 <= |lines|
    ensures end == start + TableEnd(lines[start..])
  {
    end := start + 2;
    assert lines[start..][2..] == lines[end..];
    while end < |lines|
      invariant start + 2 <= end <= |lines|
      invariant start + TableEnd(lines[start..]) == end + BodyLength(lines[end..])
    {
      if EndsTable(lines[end].text) {
        break;
      }
      assert lines[end..][1..] == lines[end + 1..];
      end := end + 1;
    }
  }

  method PushOriginalLine(output: string, line: Line) returns (r: string)
    ensures r == output + (line.text + line.ending)
  {
    r := output + line.text;
    r := r + line.ending;
  }

  method PushOriginalLines(output: string, lines: seq<Line>) returns (r: string)
    ensures r == output + Join(lines)
  {
    r := output;
    for k := 0 to |lines|
      invariant r == output + Join(lines[..k])
    {
      assert lines[..k + 1] == lines[..k] + [lines[k]];
      JoinConcat(lines[..k], [lines[k]]);
      JoinOne(lines[k]);
      r := PushOriginalLine(r, lines[k]);
    }
    assert lines[..|lines|] == lines;
  }

  lemma JoinNothing()
    ensures Join([]) == []
  {
  }

  lemma JoinOne(line: Line)
    ensures Join([line]) == line.text + line.ending
  {
    assert Join([line]) == line.text + line.ending + Join([]);
  }

  method PushFormattedTableBlock(output: string, original: seq<Line>, rows: seq<string>, o: Options) returns (r: string)
    requires original != []
    ensures r == output + Join(Block(rows, original, o))
  {
    hide *;
    var lineEnding := TableEnding(original, o);
    var hasTrailing := original[|original| - 1].ending != [];
    JoinNothing();
    r := output;
    for k := 0 to |rows|
      invariant r == output + Join(Block(rows, original, o)[..k])
    {
      JoinRow(rows, original, o, k);
      r := r + rows[k];
      if k + 1 < |rows| || hasTrailing {
        r := r + lineEnding;
      }
    }
    assert Block(rows, original, o)[..|rows|] == Block(rows, original, o);
  }

  lemma JoinRow(rows: seq<string>, table: seq<Line>, o: Options, k: nat)
    requires table != [] && k < |rows|
    ensures var block, hasTrailing := Block(rows, table, o), table[|table| - 1].ending != [];
      Join(block[..k + 1])
      == Join(block[..k]) + (rows[k] + if k + 1 < |rows| || hasTrailing then TableEnding(table, o) else [])
  {
    hide Join, TableEnding;
    var block := Block(rows, table, o);
    assert block[..k + 1] == block[..k] + [block[k]];
    JoinConcat(block[..k], [block[k]]);
    JoinOne(block[k]);
  }

  method FormatMarkdownTablesWithFilter(source: string, o: Options, filter: Filter)
    returns (text: string, diagnostics: seq<Mismatch>)
    ensures text == Format(source, filter, o)
    ensures diagnostics == Diagnostics(source, filter, o)
  {
    hide *;
    var lines := SplitSourceLines(source);
    FormatIsFrom(source, filter, o);
    if lines == [] {
      return source, [];
    }
    text, diagnostics := "", [];
    var activeFence: Option<Fence> := None;
    var i := 0;
    assert lines[0..] == lines;
    while i < |lines|
      invariant 0 <= i <= |lines|
      invariant Format(source, filter, o) == text + Join(FormatFrom(lines[i..], i + 1, activeFence, filter, o))
      invariant Diagnostics(source, filter, o)
        == diagnostics + DiagnosticsFrom(lines[i..], i + 1, activeFence, filter, o)
    {
      ghost var rest := lines[i..];
      var line := lines[i];
      Advance(lines, i, activeFence, filter, o);
      LineTurns(rest, i + 1, activeFence, filter, o);
      if activeFence.Some? {
        text := PushOriginalLine(text, line);
        if FenceCloses(line.text, activeFence.value) {
          activeFence := None;
        }
        i := i + 1;
        continue;
      }
      if FenceStart(line.text).Some? {
        text := PushOriginalLine(text, line);
        activeFence := FenceStart(line.text);
        i := i + 1;
        continue;
      }
      if IsIndentedCode(line.text) {
        text := PushOriginalLine(text, line);
        i := i + 1;
        continue;
      }
      if IsTableStart(lines[i..]) {
        TableTurns(rest, i + 1, filter, o);
        var tableEnd := CollectTableEnd(lines, i);
        var table := lines[i..tableEnd];
        assert table == rest[..tableEnd - i];
        if !filter(i + 1, tableEnd) {
          text := PushOriginalLines(text, table);
          i := tableEnd;
          continue;
        }
        var formatted := FormatTable(Texts(table), o.style);
        if formatted.Some? {
          diagnostics := diagnostics + TableMismatches(Texts(table), i + 1);
          text := PushFormattedTableBlock(text, table, formatted.value, o);
          i := tableEnd;
        } else {
          text := PushOriginalLine(text, line);
          i := i + 1;
        }
        continue;
      }
      text := PushOriginalLine(text, line);
      i := i + 1;
    }
    EndOfLines(filter, o, |lines| + 1, activeFence);
  }

  method FormatMarkdownTablesInLineRanges(source: string, ranges: seq<LineRange>, o: Options)
    returns (text: string, diagnostics: seq<Mismatch>)
    ensures text == if ranges == [] then source else Format(source, InRanges(ranges), o)
    ensures diagnostics == if ranges == [] then [] else Diagnostics(source, InRanges(ranges), o)
  {
    if ranges == [] {
      return source, [];
    }
    text, diagnostics := FormatMarkdownTablesWithFilter(source, o, InRanges(ranges));
  }

  lemma EndOfLines(filter: Filter, o: Options, number: nat, fence: Option<Fence>)
    ensures Join(FormatFrom([], number, fence, filter, o)) == [] && DiagnosticsFrom([], number, fence, filter, o) == []
  {
  }

  lemma FormatIsFrom(source: string, filter: Filter, o: Options)
    ensures Format(source, filter, o) == Join(FormatFrom(Split(source), 1, None, filter, o))
    ensures Diagnostics(source, filter, o) == DiagnosticsFrom(Split(source), 1, None, filter, o)
    ensures Split(source) == [] ==> Format(source, filter, o) == source && Diagnostics(source, filter, o) == []
  {
    JoinSplit(source, 0, 0);
    assert source[0..] == source;
  }

  lemma LineTurns(lines: seq<Line>, number: nat, fence: Option<Fence>, filter: Filter, o: Options)
    requires lines != []
    ensures var turn, text := TakeTurn(lines, number, fence, filter, o), lines[0].text;
      if fence.Some? then turn == Turn(1, lines[..1], [], if FenceCloses(text, fence.value) then None else fence)
      else if FenceStart(text).Some? then turn == Turn(1, lines[..1], [], FenceStart(text))
      else if IsIndentedCode(text) || !IsTableStart(lines) then turn == Turn(1, lines[..1], [], None)
      else turn == TableTurn(lines, number, filter, o)
  {
    hide FenceCloses, FenceStart, IsIndentedCode, IsTableStart, TableTurn;
  }

  lemma TableTurns(lines: seq<Line>, number: nat, filter: Filter, o: Options)
    requires IsTableStart(lines)
    ensures |lines| >= 2
    ensures var turn, end := TableTurn(lines, number, filter, o), TableEnd(lines);
      var table := lines[..end];
      var rows := FormatTable(Texts(table), o.style);
      if !filter(number, number + end - 1) then turn == Turn(end, table, [], None)
      else if rows.Some?
        then turn == Turn(end, Block(rows.value, table, o), TableMismatches(Texts(table), number), None)
      else turn == Turn(1, lines[..1], [], None)
  {
    hide FormatTable, Texts, Block, TableEnd, TableMismatches;
  }

  lemma Advance(lines: seq<Line>, i: nat, fence: Option<Fence>, filter: Filter, o: Options)
    requires i < |lines|
    ensures var turn := TakeTurn(lines[i..], i + 1, fence, filter, o);
      && i + turn.taken <= |lines|
      && Join(FormatFrom(lines[i..], i + 1, fence, filter, o))
        == Join(turn.out) + Join(FormatFrom(lines[i + turn.taken..], i + 1 + turn.taken, turn.fence, filter, o))
      && DiagnosticsFrom(lines[i..], i + 1, fence, filter, o)
        == turn.mismatches + DiagnosticsFrom(lines[i + turn.taken..], i + 1 + turn.taken, turn.fence, filter, o)
    ensures Join(lines[i..][..1]) == lines[i].text + lines[i].ending
  {
    hide TakeTurn, Join;
    var turn := TakeTurn(lines[i..], i + 1, fence, filter, o);
    assert lines[i..][turn.taken..] == lines[i + turn.taken..];
    JoinConcat(turn.out, FormatFrom(lines[i + turn.taken..], i + 1 + turn.taken, turn.fence, filter, o));
    assert lines[i..][..1] == [lines[i]];
    JoinOne(lines[i]);
  }
}
