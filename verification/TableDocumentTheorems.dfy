/** What formatting the tables of a whole text means: it works table by table and leaves the rest
    alone, its output has the same tables again, and a second pass changes nothing exactly when every
    formatted table is free of rows that end inside a code span. */
module TableDocumentTheorems {
  import opened Wrappers
  import opened Whitespace
  import opened SourceLines
  import opened TableScanner
  import opened TableFormat
  import opened TableTheorems
  import opened TableDocument

  /** A text is made of lines outside tables and of tables, which know their first line number. */
  datatype Segment = Prose(line: Line) | Grid(table: seq<Line>, first: nat)

  function LinesOf(segment: Segment): seq<Line> {
    match segment
    case Prose(line) => [line]
    case Grid(table, _) => table
  }

  function FirstSegment(lines: seq<Line>, number: nat, fence: Option<Fence>): (r: Segment)
    requires lines != []
    ensures 1 <= |LinesOf(r)| <= |lines| && LinesOf(r) == lines[..|LinesOf(r)|]
  {
    var text := lines[0].text;
    if fence.None? && FenceStart(text).None? && !IsIndentedCode(text) && IsTableStart(lines)
    then Grid(lines[..TableEnd(lines)], number)
    else Prose(lines[0])
  }

  function FenceAfter(text: string, fence: Option<Fence>): Option<Fence> {
    if fence.None? then FenceStart(text) else if FenceCloses(text, fence.value) then None else fence
  }

  /** The segments do not depend on which tables are to be formatted. */
  function Segments(lines: seq<Line>, number: nat, fence: Option<Fence>): seq<Segment> {
    if lines == [] then []
    else
      var first := FirstSegment(lines, number, fence);
      var n := |LinesOf(first)|;
      [first] + Segments(lines[n..], number + n, FenceAfter(lines[0].text, fence))
  }

  predicate Selects(filter: Filter, segment: Segment) {
    segment.Grid? && segment.table != [] && filter(segment.first, segment.first + |segment.table| - 1)
  }

  function FormatSegment(segment: Segment, filter: Filter, o: Options): (r: Segment)
    ensures r.Grid? <==> segment.Grid?
    ensures r.Grid? ==> r.first == segment.first
  {
    if !Selects(filter, segment) then segment
    else
      match FormatTable(Texts(segment.table), o.style)
      case Some(rows) => Grid(Block(rows, segment.table, o), segment.first)
      case None => segment
  }

  function FormatEach(segments: seq<Segment>, filter: Filter, o: Options): (r: seq<Segment>)
    ensures |r| == |segments|
  {
    if segments == [] then [] else [FormatSegment(segments[0], filter, o)] + FormatEach(segments[1..], filter, o)
  }

  function Flatten(segments: seq<Segment>): seq<Line> {
    if segments == [] then [] else LinesOf(segments[0]) + Flatten(segments[1..])
  }

  function SegmentMismatches(segment: Segment, filter: Filter): seq<Mismatch> {
    if Selects(filter, segment) then TableMismatches(Texts(segment.table), segment.first) else []
  }

  function AllMismatches(segments: seq<Segment>, filter: Filter): seq<Mismatch> {
    if segments == [] then [] else SegmentMismatches(segments[0], filter) + AllMismatches(segments[1..], filter)
  }

  /** The segments are the text. */
  lemma {:induction false} SegmentsCover(lines: seq<Line>, number: nat, fence: Option<Fence>)
    ensures Flatten(Segments(lines, number, fence)) == lines
    decreases |lines|
  {
    hide FirstSegment, FenceAfter, LinesOf;
    if lines != [] {
      var n := |LinesOf(FirstSegment(lines, number, fence))|;
      SegmentsCover(lines[n..], number + n, FenceAfter(lines[0].text, fence));
      assert lines[..n] + lines[n..] == lines;
    }
  }

  /** Lines that are a table wherever a text starts with them, as long as the next line ends it. */
  predicate IsGrid(table: seq<Line>) {
    && IsTableStart(table)
    && FenceStart(table[0].text).None?
    && !IsIndentedCode(table[0].text)
    && forall k :: 2 <= k < |table| ==> !EndsTable(table[k].text)
  }

  lemma {:induction false} BodyLengthIs(a: seq<Line>, b: seq<Line>)
    requires forall k :: 0 <= k < |a| ==> !EndsTable(a[k].text)
    requires b == [] || EndsTable(b[0].text)
    ensures BodyLength(a + b) == |a|
  {
    hide EndsTable;
    if a == [] {
      assert a + b == b;
    } else {
      assert (a + b)[1..] == a[1..] + b;
      BodyLengthIs(a[1..], b);
    }
  }

  lemma {:induction false} BodyLengthSplits(lines: seq<Line>)
    ensures var n := BodyLength(lines);
      && (forall k :: 0 <= k < n ==> !EndsTable(lines[k].text))
      && (n == |lines| || EndsTable(lines[n].text))
  {
    hide EndsTable;
    if lines != [] && !EndsTable(lines[0].text) {
      BodyLengthSplits(lines[1..]);
      assert forall k :: 1 <= k < |lines| ==> lines[k] == lines[1..][k - 1];
    }
  }

  lemma FirstGrid(lines: seq<Line>, number: nat, fence: Option<Fence>)
    requires lines != [] && FirstSegment(lines, number, fence).Grid?
    ensures var table := FirstSegment(lines, number, fence).table;
      && IsGrid(table) && fence.None? && FenceAfter(lines[0].text, fence).None?
      && FirstSegment(lines, number, fence) == Grid(lines[..|table|], number)
      && (|table| == |lines| || EndsTable(lines[|table|].text))
  {
    hide EndsTable, FenceStart, IsIndentedCode, HasDelimiter, Cells, ParseSeparator, BodyLength;
    BodyLengthSplits(lines[2..]);
    var table := FirstSegment(lines, number, fence).table;
    assert forall k :: 2 <= k < |lines| ==> lines[k] == lines[2..][k - 2];
  }

  lemma GridStarts(table: seq<Line>, rest: seq<Line>, number: nat)
    requires IsGrid(table) && (rest == [] || EndsTable(rest[0].text))
    ensures FirstSegment(table + rest, number, None) == Grid(table, number)
  {
    hide EndsTable, FenceStart, IsIndentedCode, HasDelimiter, Cells, ParseSeparator, BodyLength;
    BodyLengthIs(table[2..], rest);
    assert (table + rest)[2..] == table[2..] + rest;
    assert (table + rest)[..|table|] == table;
  }

  /** A turn of the loop formats the first segment. */
  lemma TurnIsSegment(lines: seq<Line>, number: nat, fence: Option<Fence>, filter: Filter, o: Options)
    requires lines != []
    ensures var turn, first := TakeTurn(lines, number, fence, filter, o), FirstSegment(lines, number, fence);
      && turn.taken == |LinesOf(first)|
      && turn.out == LinesOf(FormatSegment(first, filter, o))
      && turn.mismatches == SegmentMismatches(first, filter)
      && turn.fence == FenceAfter(lines[0].text, fence)
  {
    hide EndsTable, FenceStart, IsIndentedCode, HasDelimiter, FenceCloses, Block, Texts, TableMismatches, BodyLength,
      Cells,
      ParseSeparator, Render;
    assert lines[..1] == [lines[0]];
    var first := FirstSegment(lines, number, fence);
    if first.Grid? {
      GridFormats(first.table, o);
    }
  }

  lemma GridFormats(table: seq<Line>, o: Options)
    requires |table| >= 2 && ParseSeparator(Cells(table[1].text)).Some?
    ensures ParseTable(Texts(table)).Some? && FormatTable(Texts(table), o.style).Some?
    ensures |FormatTable(Texts(table), o.style).value| == |table|
  {
    hide ParseSeparator, Cells;
    ParsedIsFormatted(Texts(table), o.style);
  }

  /** Formatting goes segment by segment; the filter only decides about each table by itself. */
  lemma {:induction false} FormatIsSegmentwise(lines: seq<Line>, number: nat, fence: Option<Fence>, filter: Filter,
                                               o: Options)
    ensures FormatFrom(lines, number, fence, filter, o)
      == Flatten(FormatEach(Segments(lines, number, fence), filter, o))
    ensures DiagnosticsFrom(lines, number, fence, filter, o) == AllMismatches(Segments(lines, number, fence), filter)
    decreases |lines|
  {
    hide *;
    if lines == [] {
      NothingIsNothing(number, fence, filter, o);
    } else {
      FormatUnfolds(lines, number, fence, filter, o);
      SegmentsStep(lines, number, fence);
      TurnIsSegment(lines, number, fence, filter, o);
      var first := FirstSegment(lines, number, fence);
      var n := |LinesOf(first)|;
      FormatIsSegmentwise(lines[n..], number + n, FenceAfter(lines[0].text, fence), filter, o);
      var rest := Segments(lines[n..], number + n, FenceAfter(lines[0].text, fence));
      EachStep(first, rest, filter, o);
      FlattenStep(FormatSegment(first, filter, o), FormatEach(rest, filter, o));
      MismatchesStep(first, rest, filter);
    }
  }

  lemma EachStep(first: Segment, rest: seq<Segment>, filter: Filter, o: Options)
    ensures FormatEach([first] + rest, filter, o) == [FormatSegment(first, filter, o)] + FormatEach(rest, filter, o)
  {
    hide FormatSegment;
    assert ([first] + rest)[1..] == rest;
  }

  lemma FlattenStep(first: Segment, rest: seq<Segment>)
    ensures Flatten([first] + rest) == LinesOf(first) + Flatten(rest)
  {
    hide LinesOf;
    assert ([first] + rest)[1..] == rest;
  }

  lemma MismatchesStep(first: Segment, rest: seq<Segment>, filter: Filter)
    ensures AllMismatches([first] + rest, filter) == SegmentMismatches(first, filter) + AllMismatches(rest, filter)
  {
    hide SegmentMismatches;
    assert ([first] + rest)[1..] == rest;
  }

  lemma FormatUnfolds(lines: seq<Line>, number: nat, fence: Option<Fence>, filter: Filter, o: Options)
    requires lines != []
    ensures var turn := TakeTurn(lines, number, fence, filter, o);
      && FormatFrom(lines, number, fence, filter, o)
        == turn.out + FormatFrom(lines[turn.taken..], number + turn.taken, turn.fence, filter, o)
      && DiagnosticsFrom(lines, number, fence, filter, o)
        == turn.mismatches + DiagnosticsFrom(lines[turn.taken..], number + turn.taken, turn.fence, filter, o)
  {
    hide TakeTurn;
  }

  /** The formatted text, cut off its first segment. */
  lemma FormatStep(lines: seq<Line>, number: nat, fence: Option<Fence>, filter: Filter, o: Options)
    requires lines != []
    ensures var first := FirstSegment(lines, number, fence);
      var n := |LinesOf(first)|;
      FormatFrom(lines, number, fence, filter, o)
      == LinesOf(FormatSegment(first, filter, o))
        + FormatFrom(lines[n..], number + n, FenceAfter(lines[0].text, fence), filter, o)
  {
    hide *;
    FormatUnfolds(lines, number, fence, filter, o);
    TurnIsSegment(lines, number, fence, filter, o);
  }

  lemma BlankHasNoDelimiter(line: string, i: nat)
    requires IsBlank(line) && i <= |line|
    ensures Seek(line, i, None).AtEnd?
    decreases |line| - i
  {
    if i < |line| {
      assert IsWhitespace(line[i]);
      BlankHasNoDelimiter(line, i + 1);
    }
  }

  /** A line that starts with a pipe is a table row. */
  lemma PipeStartsRow(line: string)
    requires line != [] && line[0] == '|'
    ensures HasDelimiter(line) && !IsIndentedCode(line) && FenceStart(line).None? && !EndsTable(line)
  {
    assert IsDelimiter(line, 0, None);
    assert !IsWhitespace(line[0]);
  }

  /** What a formatted table is again. */
  lemma BlockIsGrid(table: seq<Line>, o: Options)
    requires IsGrid(table) && FormatTable(Texts(table), o.style).Some?
    ensures var block := Block(FormatTable(Texts(table), o.style).value, table, o);
      |block| == |table| && IsGrid(block)
        && block[0].text == DataRow(HeaderTable(table), HeaderTable(table).header, o.style)
  {
    hide EndsTable, FenceStart, IsIndentedCode, HasDelimiter, Cells, ParseSeparator, Widths, Alignments, DataPieces,
      SeparatorPieces, Closed;
    var texts := Texts(table);
    ParsedIsFormatted(texts, o.style);
    var t := ParseTable(texts).value;
    SeparatorRowReads(t, o.style);
    var rows := Render(t, o.style);
    forall k | 0 <= k < |rows|
      ensures HasDelimiter(rows[k]) && !IsIndentedCode(rows[k]) && FenceStart(rows[k]).None? && !EndsTable(rows[k])
    {
      PipeStartsRow(rows[k]);
    }
  }

  /** The table these lines stand for. */
  function HeaderTable(table: seq<Line>): Table {
    match ParseTable(Texts(table))
    case Some(t) => t
    case None => Table([], [], [])
  }

  lemma FormattedGrid(table: seq<Line>, first: nat, filter: Filter, o: Options)
    requires IsGrid(table)
    ensures var again := FormatSegment(Grid(table, first), filter, o).table;
      && IsGrid(again) && |again| == |table|
      && (again[0] == table[0] || again[0].text == DataRow(HeaderTable(table), HeaderTable(table).header, o.style))
  {
    GridFormats(table, o);
    BlockIsGrid(table, o);
    hide IsGrid, FormatTable, Texts, Block, DataRow, HeaderTable;
  }

  /** The text is the formatted header of a table that starts with the line. */
  ghost predicate IsHeaderOf(table: seq<Line>, line: Line, text: string, o: Options) {
    && IsGrid(table)
    && table[0] == line
    && text == DataRow(HeaderTable(table), HeaderTable(table).header, o.style)
  }

  /** The first line either stays or is the header of a formatted table. */
  lemma FirstLine(lines: seq<Line>, number: nat, filter: Filter, o: Options)
    requires lines != []
    ensures var out := FormatFrom(lines, number, None, filter, o);
      && out != []
      && (EndsTable(lines[0].text) ==> out[0] == lines[0])
      && (out[0] == lines[0] || exists table :: IsHeaderOf(table, lines[0], out[0].text, o))
  {
    hide FormatFrom, DataRow, HeaderTable, FenceStart, IsIndentedCode, Cells, ParseSeparator, Seek;
    FormatStep(lines, number, None, filter, o);
    var first := FirstSegment(lines, number, None);
    if first.Grid? {
      FirstGrid(lines, number, None);
      FormattedGrid(first.table, number, filter, o);
      if IsBlank(lines[0].text) { BlankHasNoDelimiter(lines[0].text, 0); }
      var out := FormatFrom(lines, number, None, filter, o);
      assert out[0] != lines[0] ==> IsHeaderOf(first.table, lines[0], out[0].text, o);
    }
  }

  /** A formatted header reads as a separator only if the header did. */
  lemma HeaderStays(table: seq<Line>, style: Style)
    requires IsGrid(table) && ParseSeparator(Cells(table[0].text)).None?
    ensures ParseSeparator(Cells(DataRow(HeaderTable(table), HeaderTable(table).header, style))).None?
  {
    GridParses(table);
    hide IsTableStart, EndsTable, DataRow, EndSpan, Columns;
    var texts, line := Texts(table), table[0].text;
    ParsedIsFormatted(texts, style);
    var t := ParseTable(texts).value;
    var row := DataRow(t, t.header, style);
    assert t.header == Cells(line);
    hide Cells;
    RowFits(t, 0);
    CellsAreGood(line);
    if ParseSeparator(Cells(row)).Some? {
      SeparatorIsClosed(row);
      CellsAreGood(row);
      if EndSpan(line, 0).Some? {
        OpenRowGrows(t, t.header, style);
        OpenIsNotGood(Cells(row));
        assert false;
      } else {
        DataRowReads(t, t.header, style);
        PaddedSeparator(t.header, Columns(t));
        assert false;
      }
    }
  }

  lemma GridParses(table: seq<Line>)
    requires IsGrid(table)
    ensures |table| >= 2 && ParseSeparator(Cells(table[1].text)).Some?
  {
  }

  lemma PaddedSeparator(cells: seq<string>, n: nat)
    requires ParseSeparator(PadTo(cells, n)).Some? && 0 < n
    ensures ParseSeparator(cells).Some?
  {
    var padded := PadTo(cells, n);
    assert forall k :: 0 <= k < |cells| ==> padded[k] == CellAt(padded, k) == CellAt(cells, k) == cells[k];
    assert padded[0] == CellAt(padded, 0) == CellAt(cells, 0);
    assert ParseSeparatorCell([]).None?;
    EachParses(padded, 0);
    forall k | 0 <= k < |cells| ensures ParseSeparatorCell(cells[k]).Some? {
      EachParses(padded, k);
    }
    AllParse(cells);
  }

  lemma {:induction false} AllParse(cells: seq<string>)
    requires forall k :: 0 <= k < |cells| ==> ParseSeparatorCell(cells[k]).Some?
    ensures ParseEach(cells).Some?
  {
    hide ParseSeparatorCell;
    if cells != [] {
      assert ParseSeparatorCell(cells[0]).Some?;
      AllParse(cells[1..]);
    }
  }

  /** A line before a table does not become the header of one. */
  lemma ProseStays(line: Line, rest: seq<Line>, number: nat, filter: Filter, o: Options)
    requires !IsTableStart([line] + rest)
    ensures !IsTableStart([line] + FormatFrom(rest, number, None, filter, o))
  {
    hide FormatFrom, DataRow, HeaderTable, FenceStart, IsIndentedCode, Cells, ParseSeparator, EndsTable, HasDelimiter;
    var out := FormatFrom(rest, number, None, filter, o);
    if rest == [] {
      NothingIsNothing(number, None, filter, o);
    } else {
      FirstLine(rest, number, filter, o);
      if out[0] != rest[0] {
        var table :| IsHeaderOf(table, rest[0], out[0].text, o);
        if ParseSeparator(Cells(rest[0].text)).None? {
          HeaderStays(table, o.style);
        }
      }
    }
  }

  lemma NothingIsNothing(number: nat, fence: Option<Fence>, filter: Filter, o: Options)
    ensures FormatFrom([], number, fence, filter, o) == [] && Segments([], number, fence) == []
      && FormatEach([], filter, o) == []
    ensures DiagnosticsFrom([], number, fence, filter, o) == [] && AllMismatches([], filter) == [] && Flatten([]) == []
  {
  }

  lemma SegmentsStep(lines: seq<Line>, number: nat, fence: Option<Fence>)
    requires lines != []
    ensures var first := FirstSegment(lines, number, fence);
      var n := |LinesOf(first)|;
      Segments(lines, number, fence) == [first] + Segments(lines[n..], number + n, FenceAfter(lines[0].text, fence))
  {
    hide FirstSegment, FenceAfter, LinesOf;
  }

  /** The formatted text has the formatted segments as its segments: tables start and end at the same
      lines again. */
  lemma {:induction false} SegmentsAgain(lines: seq<Line>, number: nat, fence: Option<Fence>, filter: Filter,
                                         o: Options)
    ensures Segments(FormatFrom(lines, number, fence, filter, o), number, fence)
      == FormatEach(Segments(lines, number, fence), filter, o)
    decreases |lines|
  {
    hide *;
    if lines == [] {
      NothingIsNothing(number, fence, filter, o);
    } else {
      var first := FirstSegment(lines, number, fence);
      var n, next := |LinesOf(first)|, FenceAfter(lines[0].text, fence);
      var rest := lines[n..];
      SegmentsAgain(rest, number + n, next, filter, o);
      SegmentsStep(lines, number, fence);
      EachStep(first, Segments(rest, number + n, next), filter, o);
      OutStep(lines, number, fence, filter, o);
    }
  }

  lemma OutStep(lines: seq<Line>, number: nat, fence: Option<Fence>, filter: Filter, o: Options)
    requires lines != []
    ensures var first := FirstSegment(lines, number, fence);
      var n, next := |LinesOf(first)|, FenceAfter(lines[0].text, fence);
      Segments(FormatFrom(lines, number, fence, filter, o), number, fence)
      == [FormatSegment(first, filter, o)]
        + Segments(FormatFrom(lines[n..], number + n, next, filter, o), number + n, next)
  {
    hide *;
    var out := FormatFrom(lines, number, fence, filter, o);
    FirstAgain(lines, number, fence, filter, o);
    FormatStep(lines, number, fence, filter, o);
    SegmentsStep(out, number, fence);
    var first := FirstSegment(lines, number, fence);
    var n, next := |LinesOf(first)|, FenceAfter(lines[0].text, fence);
    assert out[n..] == FormatFrom(lines[n..], number + n, next, filter, o);
  }

  lemma FirstAgain(lines: seq<Line>, number: nat, fence: Option<Fence>, filter: Filter, o: Options)
    requires lines != []
    ensures var first, out := FirstSegment(lines, number, fence), FormatFrom(lines, number, fence, filter, o);
      && out != []
      && FirstSegment(out, number, fence) == FormatSegment(first, filter, o)
      && |LinesOf(FormatSegment(first, filter, o))| == |LinesOf(first)|
      && FenceAfter(out[0].text, fence) == FenceAfter(lines[0].text, fence)
  {
    hide *;
    if FirstSegment(lines, number, fence).Grid? {
      GridAgain(lines, number, fence, filter, o);
    } else {
      ProseAgain(lines, number, fence, filter, o);
    }
  }

  lemma GridAgain(lines: seq<Line>, number: nat, fence: Option<Fence>, filter: Filter, o: Options)
    requires lines != [] && FirstSegment(lines, number, fence).Grid?
    ensures var first, out := FirstSegment(lines, number, fence), FormatFrom(lines, number, fence, filter, o);
      && out != []
      && FirstSegment(out, number, fence) == FormatSegment(first, filter, o)
      && |LinesOf(FormatSegment(first, filter, o))| == |LinesOf(first)|
      && FenceAfter(out[0].text, fence) == FenceAfter(lines[0].text, fence)
  {
    hide FormatFrom, FenceStart, FenceCloses, IsIndentedCode, IsTableStart, EndsTable, TableEnd, FirstSegment,
      FormatSegment, FenceAfter, DataRow, HeaderTable, Cells, ParseSeparator;
    FormatStep(lines, number, fence, filter, o);
    FirstGrid(lines, number, fence);
    var first := FirstSegment(lines, number, fence);
    var n := |first.table|;
    var rest := FormatFrom(lines[n..], number + n, None, filter, o);
    var again := FormatSegment(first, filter, o).table;
    FormattedGrid(first.table, number, filter, o);
    if n < |lines| { FirstLine(lines[n..], number + n, filter, o); }
      else { NothingIsNothing(number + n, None, filter, o); }
    GridStarts(again, rest, number);
    NoFence(again);
    NoFence(first.table);
  }

  lemma NoFence(table: seq<Line>)
    requires IsGrid(table)
    ensures |table| >= 2 && FenceAfter(table[0].text, None).None?
  {
  }

  lemma ProseAgain(lines: seq<Line>, number: nat, fence: Option<Fence>, filter: Filter, o: Options)
    requires lines != [] && FirstSegment(lines, number, fence).Prose?
    ensures var first, out := FirstSegment(lines, number, fence), FormatFrom(lines, number, fence, filter, o);
      && out != [] && out[0] == lines[0]
      && FormatSegment(first, filter, o) == first
      && FirstSegment(out, number, fence) == first
  {
    hide FormatFrom, FenceStart, FenceCloses, IsIndentedCode, IsTableStart, TableEnd;
    FormatStep(lines, number, fence, filter, o);
    assert lines == [lines[0]] + lines[1..];
    if fence.None? && FenceStart(lines[0].text).None? && !IsIndentedCode(lines[0].text) {
      ProseStays(lines[0], lines[1..], number + 1, filter, o);
    }
  }

  /** A segment as it comes out of a text: a line, or the lines of a table. */
  predicate IsSegment(segment: Segment) {
    segment.Grid? ==> IsGrid(segment.table)
  }

  lemma {:induction false} SegmentsAreSegments(lines: seq<Line>, number: nat, fence: Option<Fence>, k: nat)
    requires k < |Segments(lines, number, fence)|
    ensures IsSegment(Segments(lines, number, fence)[k])
    decreases |lines|
  {
    hide *;
    NothingIsNothing(number, fence, AllTables(), Options(Style(s => 0, s => false, false, 0), false));
    SegmentsStep(lines, number, fence);
    var first := FirstSegment(lines, number, fence);
    if k == 0 {
      FirstIsSegment(lines, number, fence);
    } else {
      var n := |LinesOf(first)|;
      SegmentsAreSegments(lines[n..], number + n, FenceAfter(lines[0].text, fence), k - 1);
    }
  }

  lemma FirstIsSegment(lines: seq<Line>, number: nat, fence: Option<Fence>)
    requires lines != []
    ensures IsSegment(FirstSegment(lines, number, fence))
  {
    if FirstSegment(lines, number, fence).Grid? { FirstGrid(lines, number, fence); }
    hide IsGrid, FirstSegment;
  }

  /** The table is not to be formatted, or all its rows end outside code spans. */
  ghost predicate IsSettled(segment: Segment, filter: Filter) {
    Selects(filter, segment) ==> AllClosed(Texts(segment.table))
  }

  /** A second pass leaves a segment alone exactly when it is settled; it then has nothing to report. */
  lemma SegmentTwiceIff(segment: Segment, filter: Filter, o: Options)
    requires IsSegment(segment) && IsSane(o.style)
    ensures var once := FormatSegment(segment, filter, o);
      && (FormatSegment(once, filter, o) == once <==> IsSettled(segment, filter))
      && (IsSettled(segment, filter) ==> SegmentMismatches(once, filter) == [])
      && IsSegment(once) && |LinesOf(once)| == |LinesOf(segment)|
  {
    hide *;
    if Selects(filter, segment) {
      SelectedTwiceIff(segment, filter, o);
      if IsSettled(segment, filter) { SettledTable(segment, filter); SelectedMismatches(segment, filter, o); }
    } else {
      NotSelected(segment, filter, o);
    }
  }

  lemma SettledTable(segment: Segment, filter: Filter)
    requires IsSettled(segment, filter) && Selects(filter, segment)
    ensures AllClosed(Texts(segment.table))
  {
  }

  lemma SelectedTwiceIff(segment: Segment, filter: Filter, o: Options)
    requires IsSegment(segment) && IsSane(o.style) && Selects(filter, segment)
    ensures var once := FormatSegment(segment, filter, o);
      && (FormatSegment(once, filter, o) == once <==> IsSettled(segment, filter))
      && IsSegment(once) && |LinesOf(once)| == |LinesOf(segment)|
  {
    hide *;
    SegmentIsGrid(segment, filter);
    var table := segment.table;
    GridTwiceIff(table, o);
    IsGridHasTwo(table);
    GridFormats(table, o);
    SelectedFormats(segment, filter, o);
    var once := FormatSegment(segment, filter, o);
    FormattedGrid(table, segment.first, filter, o);
    SelectedFormats(once, filter, o);
  }

  lemma SegmentIsGrid(segment: Segment, filter: Filter)
    requires IsSegment(segment) && Selects(filter, segment)
    ensures segment.Grid? && IsGrid(segment.table)
    ensures IsSettled(segment, filter) <==> AllClosed(Texts(segment.table))
  {
  }

  lemma SelectedFormats(segment: Segment, filter: Filter, o: Options)
    requires segment.Grid? && segment.table != [] && Selects(filter, segment)
    requires FormatTable(Texts(segment.table), o.style).Some?
    ensures var block := Block(FormatTable(Texts(segment.table), o.style).value, segment.table, o);
      && FormatSegment(segment, filter, o) == Grid(block, segment.first)
      && LinesOf(FormatSegment(segment, filter, o)) == block && LinesOf(segment) == segment.table
      && (IsGrid(block) ==> IsSegment(FormatSegment(segment, filter, o)))
      && (|block| == |segment.table| ==> Selects(filter, FormatSegment(segment, filter, o)))
  {
    hide FormatTable, Texts, Block, IsGrid;
  }

  lemma NotSelected(segment: Segment, filter: Filter, o: Options)
    requires !Selects(filter, segment)
    ensures FormatSegment(segment, filter, o) == segment && SegmentMismatches(segment, filter) == []
    ensures IsSettled(segment, filter)
  {
  }

  lemma IsGridHasTwo(table: seq<Line>)
    requires IsGrid(table)
    ensures |table| >= 2 && ParseSeparator(Cells(table[1].text)).Some?
  {
  }

  lemma {:induction false} EndingIsNotEmpty(lines: seq<Line>)
    ensures FirstEnding(lines) != []
  {
    if lines != [] { EndingIsNotEmpty(lines[1..]); }
  }

  /** A block keeps its line endings when it is written again. */
  lemma BlockAgain(rows: seq<string>, again: seq<string>, table: seq<Line>, o: Options)
    requires table != [] && |again| == |rows| >= 2
    ensures Block(again, Block(rows, table, o), o) == Block(again, table, o)
  {
    EndingIsNotEmpty(table);
    var block := Block(rows, table, o);
    assert block[0].ending == TableEnding(table, o);
    assert TableEnding(block, o) == TableEnding(table, o);
    hide FirstEnding, TableEnding;
    assert block[|block| - 1].ending != [] <==> table[|table| - 1].ending != [] by {
      assert TableEnding(table, o) != [] by { EndingIsSome(table, o); }
    }
  }

  /** A table with one kind of line ending keeps every line's ending, unless LF is asked for. */
  lemma EndingsAreKept(rows: seq<string>, table: seq<Line>, ending: string, o: Options, k: nat)
    requires o.preserveLineEnding && |rows| == |table| && ending != [] && k < |table|
    requires forall j :: 0 <= j < |table| ==> table[j].ending == ending || (j == |table| - 1 && table[j].ending == [])
    ensures Block(rows, table, o)[k].ending == table[k].ending
  {
    BlockLine(rows, table, o, k);
    var last := |table| - 1;
    assert table[k].ending == ending || (k == last && table[last].ending == []);
    assert table[last].ending == ending || table[last].ending == [];
    assert table[0].ending == ending || (last == 0 && table[0].ending == []);
    assert table[0].ending == ending ==> FirstEnding(table) == ending;
  }

  lemma EndingIsSome(table: seq<Line>, o: Options)
    ensures TableEnding(table, o) != []
  {
    EndingIsNotEmpty(table);
  }

  lemma GridTwiceIff(table: seq<Line>, o: Options)
    requires IsGrid(table) && IsSane(o.style)
    ensures FormatTable(Texts(table), o.style).Some?
    ensures var block := Block(FormatTable(Texts(table), o.style).value, table, o);
      && block != [] && FormatTable(Texts(block), o.style).Some?
      && (Block(FormatTable(Texts(block), o.style).value, block, o) == block <==> AllClosed(Texts(table)))
  {
    hide *;
    IsGridHasTwo(table);
    GridFormats(table, o);
    var rows := FormatTable(Texts(table), o.style).value;
    var block := Block(rows, table, o);
    FormatTwiceIff(Texts(table), o.style);
    BlockTexts(rows, table, o);
    var again := FormatTable(rows, o.style).value;
    FormatKeepsLength(rows, o.style);
    BlockAgain(rows, again, table, o);
    BlockTexts(again, table, o);
  }

  lemma FormatKeepsLength(lines: seq<string>, style: Style)
    requires FormatTable(lines, style).Some?
    ensures |FormatTable(lines, style).value| == |lines|
  {
    hide Cells, ParseSeparator, Columns;
  }

  lemma SelectedMismatches(segment: Segment, filter: Filter, o: Options)
    requires IsSegment(segment) && IsSane(o.style) && Selects(filter, segment) && AllClosed(Texts(segment.table))
    ensures SegmentMismatches(FormatSegment(segment, filter, o), filter) == []
  {
    var table := segment.table;
    GridFormats(table, o);
    ClosedFormatsOnce(Texts(table), o.style, segment.first);
    var rows := FormatTable(Texts(table), o.style).value;
    BlockTexts(rows, table, o);
    hide FormatTable, ParseTable, Mismatches, AllClosed, Block, Texts, IsSane;
  }

  lemma BlockTexts(rows: seq<string>, table: seq<Line>, o: Options)
    requires table != []
    ensures Texts(Block(rows, table, o)) == rows
  {
  }

  lemma {:induction false} FlattenLength(a: seq<Segment>, b: seq<Segment>)
    requires |a| == |b| && forall k :: 0 <= k < |a| ==> |LinesOf(a[k])| == |LinesOf(b[k])|
    requires forall k :: 0 <= k < |a| ==> SameKind(a[k], b[k])
    ensures Flatten(a) == Flatten(b) <==> a == b
    ensures |Flatten(a)| == |Flatten(b)|
  {
    hide LinesOf, SameKind;
    if a != [] {
      FlattenLength(a[1..], b[1..]);
      var n := |LinesOf(a[0])|;
      assert Flatten(a)[..n] == LinesOf(a[0]) && Flatten(b)[..n] == LinesOf(b[0]);
      assert Flatten(a)[n..] == Flatten(a[1..]) && Flatten(b)[n..] == Flatten(b[1..]);
      assert SameKind(a[0], b[0]);
      SameLines(a[0], b[0]);
      assert a == [a[0]] + a[1..] && b == [b[0]] + b[1..];
    }
  }

  predicate SameKind(a: Segment, b: Segment) {
    (a.Grid? <==> b.Grid?) && (a.Grid? && b.Grid? ==> a.first == b.first)
  }

  lemma SameLines(a: Segment, b: Segment)
    requires SameKind(a, b)
    ensures LinesOf(a) == LinesOf(b) <==> a == b
  {
    if a.Prose? && LinesOf(a) == LinesOf(b) { assert LinesOf(a)[0] == LinesOf(b)[0]; }
  }

  lemma {:induction false} EachIs(segments: seq<Segment>, filter: Filter, o: Options, k: nat)
    requires k < |segments|
    ensures FormatEach(segments, filter, o)[k] == FormatSegment(segments[k], filter, o)
  {
    hide FormatSegment;
    if 0 < k { EachIs(segments[1..], filter, o, k - 1); }
  }

  /** Every formatted table of these segments has all its rows end outside code spans. */
  ghost predicate AllSettled(segments: seq<Segment>, filter: Filter) {
    forall k :: 0 <= k < |segments| ==> IsSettled(segments[k], filter)
  }

  lemma EachTwiceIff(segments: seq<Segment>, filter: Filter, o: Options)
    requires IsSane(o.style) && forall k :: 0 <= k < |segments| ==> IsSegment(segments[k])
    ensures var once := FormatEach(segments, filter, o);
      var twice := FormatEach(once, filter, o);
      && (Flatten(twice) == Flatten(once) <==> AllSettled(segments, filter))
      && |Flatten(once)| == |Flatten(segments)|
  {
    hide IsSegment, FormatEach, LinesOf, IsSettled, IsSane, Flatten;
    var once := FormatEach(segments, filter, o);
    var twice := FormatEach(once, filter, o);
    forall k | 0 <= k < |segments|
      ensures SameKind(once[k], segments[k]) && SameKind(twice[k], once[k])
      ensures |LinesOf(once[k])| == |LinesOf(segments[k])| && |LinesOf(twice[k])| == |LinesOf(once[k])|
      ensures twice[k] == once[k] <==> IsSettled(segments[k], filter)
    {
      EachIs(segments, filter, o, k);
      EachIs(once, filter, o, k);
      SegmentTwiceIff(segments[k], filter, o);
      SegmentTwiceIff(once[k], filter, o);
    }
    hide FormatSegment;
    FlattenLength(once, segments);
    FlattenLength(twice, once);
  }

  lemma {:induction false} SettledIsClean(segments: seq<Segment>, filter: Filter, o: Options)
    requires IsSane(o.style) && AllSettled(segments, filter)
    requires forall k :: 0 <= k < |segments| ==> IsSegment(segments[k])
    ensures AllMismatches(FormatEach(segments, filter, o), filter) == []
  {
    hide IsSegment, IsSettled, FormatSegment, IsSane, SegmentMismatches;
    if segments != [] {
      SegmentTwiceIff(segments[0], filter, o);
      SettledIsClean(segments[1..], filter, o);
      EachStep(segments[0], segments[1..], filter, o);
      assert segments == [segments[0]] + segments[1..];
      MismatchesStep(FormatSegment(segments[0], filter, o), FormatEach(segments[1..], filter, o), filter);
    }
  }

  /** On lines: the number of lines stays, a second pass changes nothing exactly when the formatted
      tables are settled, and it then reports nothing. */
  lemma LinesTwiceIff(lines: seq<Line>, filter: Filter, o: Options)
    requires IsSane(o.style)
    ensures var once := FormatFrom(lines, 1, None, filter, o);
      && |once| == |lines|
      && (FormatFrom(once, 1, None, filter, o) == once <==> AllSettled(Segments(lines, 1, None), filter))
      && (AllSettled(Segments(lines, 1, None), filter) ==> DiagnosticsFrom(once, 1, None, filter, o) == [])
  {
    hide *;
    var once, segments := FormatFrom(lines, 1, None, filter, o), Segments(lines, 1, None);
    forall k | 0 <= k < |segments| ensures IsSegment(segments[k]) { SegmentsAreSegments(lines, 1, None, k); }
    FormatIsSegmentwise(lines, 1, None, filter, o);
    SegmentsAgain(lines, 1, None, filter, o);
    FormatIsSegmentwise(once, 1, None, filter, o);
    SegmentsCover(lines, 1, None);
    EachTwiceIff(segments, filter, o);
    if AllSettled(segments, filter) { SettledIsClean(segments, filter, o); }
  }

  /** No line break gets into a formatted row. */
  lemma CellsHaveNoBreaks(line: string)
    requires NoBreaks(line)
    ensures forall k :: 0 <= k < |Cells(line)| ==> NoBreaks(Cells(line)[k])
  {
    PiecesHaveNoBreaks(line, 0);
    var raw := TrimAll(Pieces(line, 0));
    hide Pieces, Trim, NoBreaks;
    forall k | 0 <= k < |raw| ensures NoBreaks(raw[k]) { TrimHasNoBreaks(Pieces(line, 0)[k]); }
    var a, b := KeptCells(line, raw);
    hide DropBoundaries;
    assert forall k :: 0 <= k < |raw[a..b]| ==> raw[a..b][k] == raw[a + k];
  }

  lemma {:induction false} PiecesHaveNoBreaks(line: string, start: nat)
    requires NoBreaks(line) && start <= |line|
    ensures forall k :: 0 <= k < |Pieces(line, start)| ==> NoBreaks(Pieces(line, start)[k])
    decreases |line| - start
  {
    hide Seek, Pieces, EndSpan, IsEscaped;
    NextPiece(line, start);
    var stop := Seek(line, start, None);
    if stop.AtPipe? { PiecesHaveNoBreaks(line, stop.index + 1); }
  }

  lemma TrimHasNoBreaks(s: string)
    requires NoBreaks(s)
    ensures NoBreaks(Trim(s))
  {
    var left, right := TrimSplits(s);
    hide Trim;
    assert forall k :: 0 <= k < |Trim(s)| ==> s[|left| + k] == Trim(s)[k];
  }

  lemma {:induction false} ClosedHasNoBreaks(pieces: seq<string>)
    requires forall k :: 0 <= k < |pieces| ==> NoBreaks(pieces[k])
    ensures NoBreaks(Closed(pieces))
  {
    if pieces != [] {
      assert NoBreaks(pieces[0]);
      ClosedHasNoBreaks(pieces[1..]);
    }
  }

  lemma DataRowHasNoBreaks(t: Table, cells: seq<string>, style: Style)
    requires forall k :: 0 <= k < |cells| ==> NoBreaks(cells[k])
    ensures NoBreaks(DataRow(t, cells, style))
  {
    var widths, alignments := Widths(t, style), Alignments(t, style);
    var pieces := DataPieces(cells, widths, alignments, style);
    hide Widths, Alignments, PadCell, Trim, Closed;
    forall k | 0 <= k < |pieces| ensures NoBreaks(pieces[k]) {
      PieceHasNoBreaks(CellAt(cells, k), widths[k], alignments[k], style);
    }
    ClosedHasNoBreaks(pieces);
  }

  lemma PieceHasNoBreaks(cell: string, width: nat, alignment: Alignment, style: Style)
    requires NoBreaks(cell)
    ensures NoBreaks(" " + PadCell(Trim(cell), width, alignment, style) + " ")
  {
    TrimHasNoBreaks(cell);
    hide Trim, PadCell;
    var left, right := PadSplits(Trim(cell), width, alignment, style);
  }

  lemma SeparatorRowHasNoBreaks(t: Table, style: Style)
    ensures NoBreaks(SeparatorRow(t, style))
  {
    var widths, alignments := Widths(t, style), Alignments(t, style);
    var pieces := SeparatorPieces(widths, alignments, style);
    hide Widths, Alignments, SeparatorCell, Closed;
    forall k | 0 <= k < |pieces| ensures NoBreaks(pieces[k]) {
      MarksHaveNoBreaks(widths[k], alignments[k], style);
    }
    ClosedHasNoBreaks(pieces);
  }

  lemma MarksHaveNoBreaks(width: nat, alignment: Alignment, style: Style)
    ensures NoBreaks(SeparatorCell(width, alignment, style))
  {
  }

  lemma FormatHasNoBreaks(lines: seq<string>, style: Style)
    requires FormatTable(lines, style).Some? && forall k :: 0 <= k < |lines| ==> NoBreaks(lines[k])
    ensures forall k :: 0 <= k < |FormatTable(lines, style).value| ==>
      NoBreaks(FormatTable(lines, style).value[k]) && FormatTable(lines, style).value[k] != []
  {
    hide NoBreaks, Cells, ParseSeparator, DataRow, SeparatorRow, Columns;
    var t := ParseTable(lines).value;
    var rows := Render(t, style);
    RowsAreNotEmpty(t, style);
    SeparatorRowHasNoBreaks(t, style);
    forall k | 0 <= k < |rows| ensures NoBreaks(rows[k]) && rows[k] != [] {
      if k != 1 {
        var row := if k == 0 then 0 else k - 1;
        RowsAreCells(lines, row);
        RenderedLine(t, style, row);
        CellsHaveNoBreaks(lines[k]);
        DataRowHasNoBreaks(t, Cells(lines[k]), style);
      }
    }
  }

  lemma RowsAreNotEmpty(t: Table, style: Style)
    ensures forall k :: 0 <= k < |Render(t, style)| ==> Render(t, style)[k] != []
  {
    hide Widths, Alignments, DataPieces, SeparatorPieces;
  }

  /** These lines may stand in a text, and at its end if `isLast`. */
  predicate MayStand(lines: seq<Line>, isLast: bool) {
    forall k :: 0 <= k < |lines| ==> IsLine(lines[k], isLast && k + 1 == |lines|)
  }

  lemma MayStandParts(a: seq<Line>, b: seq<Line>)
    ensures AreLines(a + b) <==> MayStand(a, b == []) && AreLines(b)
  {
    hide IsLine;
    var all := a + b;
    if AreLines(all) {
      forall k | 0 <= k < |a| ensures IsLine(a[k], b == [] && k + 1 == |a|) { assert IsLine(all[k], k + 1 == |all|); }
      forall k | 0 <= k < |b| ensures IsLine(b[k], k + 1 == |b|) { assert IsLine(all[|a| + k], |a| + k + 1 == |all|); }
    }
    if MayStand(a, b == []) && AreLines(b) {
      forall k | 0 <= k < |all| ensures IsLine(all[k], k + 1 == |all|) {
        if k < |a| { assert all[k] == a[k]; } else { assert all[k] == b[k - |a|]; }
      }
    }
  }

  lemma EndingIsProper(lines: seq<Line>, isLast: bool)
    requires MayStand(lines, isLast)
    ensures FirstEnding(lines) in ["\n", "\r\n", "\r"]
  {
    if lines != [] {
      assert IsLine(lines[0], isLast && 0 + 1 == |lines|);
      if lines[0].ending == [] { assert lines[1..] == []; }
    }
  }

  lemma BlockMayStand(table: seq<Line>, isLast: bool, o: Options)
    requires MayStand(table, isLast) && table != [] && FormatTable(Texts(table), o.style).Some?
    ensures MayStand(Block(FormatTable(Texts(table), o.style).value, table, o), isLast)
  {
    hide FormatTable, Texts, NoBreaks;
    var rows := FormatTable(Texts(table), o.style).value;
    FormatKeepsLength(Texts(table), o.style);
    forall k | 0 <= k < |table| ensures NoBreaks(Texts(table)[k]) {
      assert IsLine(table[k], isLast && k + 1 == |table|);
    }
    FormatHasNoBreaks(Texts(table), o.style);
    EndingIsProper(table, isLast);
    var n := |table|;
    assert IsLine(table[n - 1], isLast && n == |table|);
    hide FirstEnding;
    forall k | 0 <= k < |rows| ensures IsLine(Block(rows, table, o)[k], isLast && k + 1 == |rows|) {
      assert NoBreaks(rows[k]) && rows[k] != [];
      BlockLine(rows, table, o, k);
    }
  }

  lemma BlockLine(rows: seq<string>, table: seq<Line>, o: Options, k: nat)
    requires table != [] && k < |rows|
    ensures var line := Block(rows, table, o)[k];
      && line.text == rows[k]
      && line.ending == if k + 1 < |rows| || table[|table| - 1].ending != [] then TableEnding(table, o) else []
  {
    hide TableEnding;
  }

  lemma SegmentMayStand(segment: Segment, isLast: bool, filter: Filter, o: Options)
    requires MayStand(LinesOf(segment), isLast) && IsSegment(segment)
    ensures MayStand(LinesOf(FormatSegment(segment, filter, o)), isLast)
    ensures |LinesOf(FormatSegment(segment, filter, o))| == |LinesOf(segment)|
  {
    hide IsGrid, MayStand, FormatTable, Block, Texts;
    if Selects(filter, segment) {
      IsGridHasTwo(segment.table);
      GridFormats(segment.table, o);
      BlockMayStand(segment.table, isLast, o);
    }
  }

  /** Formatted lines may again come out of a text. */
  lemma {:induction false} FormatAreLines(lines: seq<Line>, number: nat, fence: Option<Fence>, filter: Filter,
                                          o: Options)
    requires AreLines(lines)
    ensures AreLines(FormatFrom(lines, number, fence, filter, o))
    ensures |FormatFrom(lines, number, fence, filter, o)| == |lines|
    decreases |lines|
  {
    hide *;
    if lines == [] {
      NothingIsNothing(number, fence, filter, o);
      NothingAreLines();
    } else {
      var first := FirstSegment(lines, number, fence);
      var n, next := |LinesOf(first)|, FenceAfter(lines[0].text, fence);
      var rest, out := lines[n..], FormatFrom(lines[n..], number + n, next, filter, o);
      assert lines == lines[..n] + rest;
      MayStandParts(lines[..n], rest);
      FormatAreLines(rest, number + n, next, filter, o);
      FirstIsSegment(lines, number, fence);
      SegmentMayStand(first, rest == [], filter, o);
      FormatStep(lines, number, fence, filter, o);
      MayStandParts(LinesOf(FormatSegment(first, filter, o)), out);
    }
  }

  lemma NothingAreLines()
    ensures AreLines([])
  {
  }

  /** A formatted table whose last row is given a bare carriage return, before a blank line that is ended by
      a line feed: read again, the two breaks are one and the blank line is gone. */
  predicate SwallowsBlank(segment: Segment, next: Segment, filter: Filter, o: Options) {
    && Selects(filter, segment) && TableEnding(segment.table, o) == "\r"
    && segment.table[|segment.table| - 1].ending != []
    && next == Prose(Line("", "\n"))
  }

  ghost predicate KeepsBlanks(segments: seq<Segment>, filter: Filter, o: Options) {
    forall k :: 0 <= k < |segments| - 1 ==> !SwallowsBlank(segments[k], segments[k + 1], filter, o)
  }

  lemma KeepsBlanksStep(segments: seq<Segment>, filter: Filter, o: Options)
    requires segments != []
    ensures KeepsBlanks(segments, filter, o)
      <==> KeepsBlanks(segments[1..], filter, o)
           && (|segments| > 1 ==> !SwallowsBlank(segments[0], segments[1], filter, o))
  {
    hide SwallowsBlank;
    var rest := segments[1..];
    if KeepsBlanks(segments, filter, o) {
      forall k | 0 <= k < |rest| - 1 ensures !SwallowsBlank(rest[k], rest[k + 1], filter, o) {
        assert !SwallowsBlank(segments[k + 1], segments[k + 1 + 1], filter, o);
      }
      if |segments| > 1 { assert !SwallowsBlank(segments[0], segments[0 + 1], filter, o); }
    }
    if KeepsBlanks(rest, filter, o) && (|segments| > 1 ==> !SwallowsBlank(segments[0], segments[1], filter, o)) {
      forall k | 0 <= k < |segments| - 1 ensures !SwallowsBlank(segments[k], segments[k + 1], filter, o) {
        if 0 < k { assert !SwallowsBlank(rest[k - 1], rest[k - 1 + 1], filter, o); }
      }
    }
  }

  /** A formatted segment has no joining breaks, and its rows no empty texts. */
  lemma SegmentDoesNotJoin(segment: Segment, filter: Filter, o: Options)
    requires IsSegment(segment) && NoneJoin(LinesOf(segment))
    ensures NoneJoin(LinesOf(FormatSegment(segment, filter, o)))
    ensures Selects(filter, segment) ==>
      var out := LinesOf(FormatSegment(segment, filter, o));
      && |out| == |segment.table| >= 2 && out[0].text != []
      && forall k :: 0 <= k < |out| ==>
        out[k].ending == if k + 1 < |out| || segment.table[|segment.table| - 1].ending != []
                         then TableEnding(segment.table, o) else []
  {
    hide IsGrid, FormatTable, Texts, TableEnding, Block;
    if Selects(filter, segment) {
      var table := segment.table;
      IsGridHasTwo(table);
      GridFormats(table, o);
      var rows := FormatTable(Texts(table), o.style).value;
      FormattedIsNotEmpty(Texts(table), o.style);
      forall k | 0 <= k < |rows| ensures Block(rows, table, o)[k].text
        == rows[k] != [] { BlockLine(rows, table, o, k); }
      forall k | 0 <= k < |rows| - 1 ensures !Joins(Block(rows, table, o)[k], Block(rows, table, o)[k + 1]) {
        assert Block(rows, table, o)[k + 1].text != [];
      }
      forall k | 0 <= k < |rows|
        ensures Block(rows, table, o)[k].ending
          == if k + 1 < |rows| || table[|table| - 1].ending != [] then TableEnding(table, o) else []
      {
        BlockLine(rows, table, o, k);
      }
    }
  }

  lemma FormattedIsNotEmpty(lines: seq<string>, style: Style)
    requires FormatTable(lines, style).Some?
    ensures forall k :: 0 <= k < |FormatTable(lines, style).value| ==> FormatTable(lines, style).value[k] != []
  {
    hide Render, ParseTable, Columns;
    RowsAreNotEmpty(ParseTable(lines).value, style);
  }

  /** The output starts with a blank line exactly when the text does. */
  lemma BlankFirst(lines: seq<Line>, number: nat, fence: Option<Fence>, filter: Filter, o: Options)
    requires lines != []
    ensures var out := FormatFrom(lines, number, fence, filter, o);
      && out != []
      && (out[0] == Line("", "\n") <==> FirstSegment(lines, number, fence) == Prose(Line("", "\n")))
    ensures FirstSegment(lines, number, fence).Prose? ==> FirstSegment(lines, number, fence) == Prose(lines[0])
    ensures FormatFrom(lines, number, fence, filter, o)[0] == Line("", "\n") ==> lines[0] == Line("", "\n")
  {
    hide FormatFrom, FormatSegment, IsTableStart, FenceStart, IsIndentedCode, TableEnd;
    FormatStep(lines, number, fence, filter, o);
    var first := FirstSegment(lines, number, fence);
    if first.Grid? {
      FirstGrid(lines, number, fence);
      FormattedGrid(first.table, number, filter, o);
      GridIsNotBlank(first.table);
      GridIsNotBlank(FormatSegment(first, filter, o).table);
    } else {
      ProseAgain(lines, number, fence, filter, o);
    }
  }

  lemma GridIsNotBlank(table: seq<Line>)
    requires IsGrid(table)
    ensures |table| >= 2 && table[0].text != []
  {
    SeekPads([], 0, None);
  }

  /** The breaks at the end of the first segment join exactly when it swallows a blank line. */
  lemma BoundaryJoins(lines: seq<Line>, number: nat, fence: Option<Fence>, filter: Filter, o: Options)
    requires lines != [] && NoneJoin(lines)
    ensures var first := FirstSegment(lines, number, fence);
      var n, next := |LinesOf(first)|, FenceAfter(lines[0].text, fence);
      var block, rest := LinesOf(FormatSegment(first, filter, o)), FormatFrom(lines[n..], number + n, next, filter, o);
      && |block| == n && NoneJoin(block) && NoneJoin(lines[n..]) && (rest == [] <==> lines[n..] == [])
      && (rest != [] ==>
            (Joins(block[n - 1], rest[0]) <==>
               SwallowsBlank(first, FirstSegment(lines[n..], number + n, next), filter, o)))
  {
    hide *;
    var first := FirstSegment(lines, number, fence);
    var n, next := |LinesOf(first)|, FenceAfter(lines[0].text, fence);
    FirstIsSegment(lines, number, fence);
    FirstAgain(lines, number, fence, filter, o);
    assert lines == lines[..n] + lines[n..];
    NoneJoinParts(lines[..n], lines[n..]);
    SegmentDoesNotJoin(first, filter, o);
    if lines[n..] == [] {
      NothingIsNothing(number + n, next, filter, o);
    } else {
      BlankFirst(lines[n..], number + n, next, filter, o);
      EndJoins(lines, first, FirstSegment(lines[n..], number + n, next),
        FormatFrom(lines[n..], number + n, next, filter, o)[0], filter, o);
    }
  }

  /** The end of a formatted segment joins the line behind it exactly when it swallows it. */
  lemma EndJoins(lines: seq<Line>, first: Segment, next: Segment, line: Line, filter: Filter, o: Options)
    requires NoneJoin(lines) && IsSegment(first) && LinesOf(first) != []
    requires LinesOf(first) <= lines && |LinesOf(first)| < |lines|
    requires line == Line("", "\n") <==> next == Prose(Line("", "\n"))
    requires line == Line("", "\n") ==> lines[|LinesOf(first)|] == line
    ensures var block := LinesOf(FormatSegment(first, filter, o));
      block != [] && (Joins(block[|block| - 1], line) <==> SwallowsBlank(first, next, filter, o))
  {
    hide IsSegment, FormatSegment, TableEnding, LinesOf, NoneJoin;
    var here := LinesOf(first);
    assert lines == here + lines[|here|..];
    NoneJoinParts(here, lines[|here|..]);
    SegmentDoesNotJoin(first, filter, o);
    if Selects(filter, first) {
      FormattedTable(first, filter, o);
    } else {
      NotSelected(first, filter, o);
    }
  }

  /** The formatted lines have joining breaks exactly when a formatted table swallows a blank line. */
  lemma {:induction false} JoinsIffSwallows(lines: seq<Line>, number: nat, fence: Option<Fence>, filter: Filter,
                                            o: Options)
    requires NoneJoin(lines)
    ensures NoneJoin(FormatFrom(lines, number, fence, filter, o))
      <==> KeepsBlanks(Segments(lines, number, fence), filter, o)
    decreases |lines|
  {
    hide *;
    if lines == [] {
      NothingIsNothing(number, fence, filter, o);
      NoneJoinOfNothing();
      NothingIsSwallowed(filter, o);
    } else {
      var first := FirstSegment(lines, number, fence);
      var n, next := |LinesOf(first)|, FenceAfter(lines[0].text, fence);
      var block, rest := LinesOf(FormatSegment(first, filter, o)), FormatFrom(lines[n..], number + n, next, filter, o);
      BoundaryJoins(lines, number, fence, filter, o);
      JoinsIffSwallows(lines[n..], number + n, next, filter, o);
      FormatStep(lines, number, fence, filter, o);
      NoneJoinParts(block, rest);
      SegmentsStep(lines, number, fence);
      var more := Segments(lines[n..], number + n, next);
      KeepsBlanksStep([first] + more, filter, o);
      assert ([first] + more)[1..] == more;
      if lines[n..] != [] {
        SegmentsStep(lines[n..], number + n, next);
      } else {
        NothingIsNothing(number + n, next, filter, o);
      }
    }
  }

  lemma NothingIsSwallowed(filter: Filter, o: Options)
    ensures KeepsBlanks([], filter, o)
  {
  }

  /** When no formatted table swallows a blank line, formatting a second time changes nothing exactly when
      every formatted table has all its rows end outside code spans. */
  lemma FormatDocumentTwiceIff(source: string, filter: Filter, o: Options)
    requires IsSane(o.style) && KeepsBlanks(Segments(Split(source), 1, None), filter, o)
    ensures Format(Format(source, filter, o), filter, o) == Format(source, filter, o)
      <==> AllSettled(Segments(Split(source), 1, None), filter)
  {
    hide *;
    var lines := Split(source);
    var once := FormatFrom(lines, 1, None, filter, o);
    var twice := FormatFrom(once, 1, None, filter, o);
    SourceAreLines(source);
    JoinsIffSwallows(lines, 1, None, filter, o);
    FormatAreLines(lines, 1, None, filter, o);
    FormatAreLines(once, 1, None, filter, o);
    SplitJoin(once);
    SameText(twice, once);
    FormatIsFrom(source, filter, o);
    FormatIsFrom(Join(once), filter, o);
    LinesTwiceIff(lines, filter, o);
  }

  /** No blank line is swallowed in a text without a bare carriage return, nor when all endings are to be
      line feeds. */
  lemma {:induction false} BlanksAreKept(lines: seq<Line>, number: nat, fence: Option<Fence>, filter: Filter,
                                         o: Options)
    requires o.preserveLineEnding ==> forall line :: line in lines ==> line.ending != "\r"
    ensures KeepsBlanks(Segments(lines, number, fence), filter, o)
    decreases |lines|
  {
    hide FirstSegment, FenceAfter, LinesOf, KeepsBlanks, SwallowsBlank;
    if lines == [] {
      NothingIsSwallowed(filter, o);
    } else {
      var first := FirstSegment(lines, number, fence);
      var n, next := |LinesOf(first)|, FenceAfter(lines[0].text, fence);
      BlanksAreKept(lines[n..], number + n, next, filter, o);
      var more := Segments(lines[n..], number + n, next);
      KeepsBlanksStep([first] + more, filter, o);
      assert ([first] + more)[1..] == more;
      if more != [] { NothingIsSwallowedBy(first, lines[..n], more[0], filter, o); }
    }
  }

  lemma NothingIsSwallowedBy(segment: Segment, lines: seq<Line>, next: Segment, filter: Filter, o: Options)
    requires LinesOf(segment) == lines
    requires o.preserveLineEnding ==> forall line :: line in lines ==> line.ending != "\r"
    ensures !SwallowsBlank(segment, next, filter, o)
  {
    assert "\n" != "\r";
    FirstEndingIsThere(lines);
  }

  lemma {:induction false} FirstEndingIsThere(lines: seq<Line>)
    ensures FirstEnding(lines) == "\n" || exists line :: line in lines && line.ending == FirstEnding(lines)
  {
    if lines != [] {
      FirstEndingIsThere(lines[1..]);
      if lines[0].ending != [] { assert lines[0] in lines; }
    }
  }

  /** Whether lines start with a table is seen from their texts. */
  lemma SameFirst(block: seq<Line>, rest: seq<Line>, other: seq<Line>, number: nat, fence: Option<Fence>)
    requires block != [] && LinesOf(FirstSegment(block + rest, number, fence)) == block
    requires rest == [] <==> other == []
    requires rest != [] ==> rest[0].text == other[0].text
    ensures FirstSegment(block + other, number, fence) == FirstSegment(block + rest, number, fence)
  {
    var lines, again := block + rest, block + other;
    if FirstSegment(lines, number, fence).Grid? {
      FirstGrid(lines, number, fence);
      hide EndsTable, FirstSegment, IsTableStart;
      GridStarts(block, other, number);
    } else {
      hide FenceStart, IsIndentedCode, HasDelimiter, Cells, ParseSeparator, TableEnd;
      assert |block| == 1 && lines[0] == again[0];
      if |lines| >= 2 { assert lines[1] == rest[0] && again[1] == other[0]; }
    }
  }

  /** A table with a carriage return as its first ending and another one on a row does not stay. */
  lemma OddEndingChanges(lines: seq<Line>, number: nat, m: nat, o: Options)
    requires lines != [] && o.preserveLineEnding && FirstSegment(lines, number, None).Grid?
    requires 1 <= m < |FirstSegment(lines, number, None).table| && lines[0].ending == "\r" && lines[m].ending == "\r\n"
    ensures FormatFrom(lines, number, None, AllTables(), o) != lines
  {
    var filter, first := AllTables(), FirstSegment(lines, number, None);
    FormatStep(lines, number, None, filter, o);
    FirstGrid(lines, number, None);
    hide FormatFrom, FirstSegment, IsGrid, FormatTable, Texts, EndsTable;
    var table := first.table;
    IsGridHasTwo(table);
    GridFormats(table, o);
    var rows := FormatTable(Texts(table), o.style).value;
    BlockLine(rows, table, o, m);
    assert table[0] == lines[0] && table[m] == lines[m];
    assert TableEnding(table, o) == "\r";
    assert FormatFrom(lines, number, None, filter, o)[m] == Block(rows, table, o)[m];
  }

  /** Lines with the texts of a table start with one at least as long. */
  lemma SameTextsGrid(block: seq<Line>, other: seq<Line>, rest: seq<Line>, number: nat)
    requires IsGrid(block) && |other| == |block| && forall k :: 0 <= k < |block| ==> other[k].text == block[k].text
    ensures var first := FirstSegment(other + rest, number, None);
      first.Grid? && |first.table| >= |block|
  {
    hide EndsTable, FenceStart, IsIndentedCode, HasDelimiter, Cells, ParseSeparator, BodyLength;
    var lines := other + rest;
    assert lines[0] == other[0] && lines[1] == other[1];
    BodyIsLonger(other[2..], rest);
    assert lines[2..] == other[2..] + rest;
  }

  lemma {:induction false} BodyIsLonger(a: seq<Line>, b: seq<Line>)
    requires forall k :: 0 <= k < |a| ==> !EndsTable(a[k].text)
    ensures BodyLength(a + b) >= |a|
  {
    hide EndsTable;
    if a != [] {
      assert (a + b)[1..] == a[1..] + b;
      BodyIsLonger(a[1..], b);
    }
  }

  /** Cutting a block and what follows it, when the block's last break joins the next line. */
  lemma {:induction false} BlockIsJoined(block: seq<Line>, rest: seq<Line>) returns (other: seq<Line>, more: seq<Line>)
    requires AreLines(block + rest) && block != [] && rest != [] && NoneJoin(block)
      && Joins(block[|block| - 1], rest[0])
    ensures Split(Join(block + rest)) == other + more && |other| == |block|
    ensures forall k :: 0 <= k < |block| ==> other[k].text == block[k].text
    ensures other[|block| - 1].ending == "\r\n" && forall k :: 0 <= k < |block| - 1 ==> other[k] == block[k]
    decreases |block|
  {
    hide Joins, Split, Join;
    var lines := block + rest;
    TailAreLines(lines);
    assert lines[1..] == block[1..] + rest;
    if |block| == 1 {
      assert lines[1] == rest[0];
      FirstIsJoined(lines);
      other, more := [Line(block[0].text, "\r\n")], Split(Join(lines[2..]));
    } else {
      assert lines[1] == block[1];
      NoneJoinStep(block);
      FirstIsCut(lines);
      other, more := BlockIsJoined(block[1..], rest);
      other := [block[0]] + other;
    }
  }

  /** And when it does not. */
  lemma {:induction false} BlockIsCut(block: seq<Line>, rest: seq<Line>)
    requires AreLines(block + rest) && block != [] && NoneJoin(block)
    requires rest != [] ==> !Joins(block[|block| - 1], rest[0])
    ensures Split(Join(block + rest)) == block + Split(Join(rest))
    decreases |block|
  {
    hide Joins, Split, Join;
    var lines := block + rest;
    TailAreLines(lines);
    assert lines[1..] == block[1..] + rest;
    if |block| == 1 {
      if rest != [] { assert lines[1] == rest[0]; }
      FirstIsCut(lines);
      assert block[1..] + rest == rest;
    } else {
      assert lines[1] == block[1];
      NoneJoinStep(block);
      FirstIsCut(lines);
      BlockIsCut(block[1..], rest);
    }
  }

  /** A swallowed blank line makes the second pass differ: its table ends with an ending that is not the
      table's, which is written again. */
  lemma {:induction false} SwallowingDiffers(lines: seq<Line>, number: nat, fence: Option<Fence>, o: Options)
    requires AreLines(lines) && NoneJoin(lines) && lines != []
    requires !NoneJoin(FormatFrom(lines, number, fence, AllTables(), o))
    ensures var cut := Split(Join(FormatFrom(lines, number, fence, AllTables(), o)));
      FormatFrom(cut, number, fence, AllTables(), o) != cut
    decreases |lines|
  {
    hide *;
    var filter, first := AllTables(), FirstSegment(lines, number, fence);
    var n, next := |LinesOf(first)|, FenceAfter(lines[0].text, fence);
    var block, rest := LinesOf(FormatSegment(first, filter, o)), FormatFrom(lines[n..], number + n, next, filter, o);
    BoundaryJoins(lines, number, fence, filter, o);
    FormatStep(lines, number, fence, filter, o);
    FormatAreLines(lines, number, fence, filter, o);
    MayStandParts(lines[..n], lines[n..]);
    assert lines[..n] + lines[n..] == lines;
    MayStandParts(block, rest);
    NoneJoinParts(block, rest);
    if rest != [] && Joins(block[n - 1], rest[0]) {
      JoinedDiffers(lines, number, fence, o, block, rest);
    } else {
      RestDiffers(lines, number, fence, o, block, rest);
      SwallowingDiffers(lines[n..], number + n, next, o);
    }
  }

  lemma JoinedDiffers(lines: seq<Line>, number: nat, fence: Option<Fence>, o: Options, block: seq<Line>,
                      rest: seq<Line>)
    requires lines != [] && NoneJoin(lines) && AreLines(block + rest) && block != [] && NoneJoin(block)
    requires var first := FirstSegment(lines, number, fence);
      var n, next := |LinesOf(first)|, FenceAfter(lines[0].text, fence);
      && block == LinesOf(FormatSegment(first, AllTables(), o)) && |block| == n
      && rest == FormatFrom(lines[n..], number + n, next, AllTables(), o) != []
      && Joins(block[n - 1], rest[0])
    ensures var cut := Split(Join(block + rest)); FormatFrom(cut, number, fence, AllTables(), o) != cut
  {
    hide *;
    var filter, first := AllTables(), FirstSegment(lines, number, fence);
    var n, next := |LinesOf(first)|, FenceAfter(lines[0].text, fence);
    BoundaryJoins(lines, number, fence, filter, o);
    FirstIsSegment(lines, number, fence);
    SwallowerIsGrid(first, FirstSegment(lines[n..], number + n, next), filter, o);
    FirstGrid(lines, number, fence);
    FormattedGrid(first.table, number, filter, o);
    MayStandAlone(lines, first, n);
    SegmentDoesNotJoin(first, filter, o);
    var other, more := BlockIsJoined(block, rest);
    FormattedTable(first, filter, o);
    SameTextsGrid(block, other, more, number);
    OddEndingChanges(other + more, number, n - 1, o);
  }

  lemma SwallowerIsGrid(segment: Segment, next: Segment, filter: Filter, o: Options)
    requires SwallowsBlank(segment, next, filter, o)
    ensures segment.Grid? && Selects(filter, segment) && o.preserveLineEnding && TableEnding(segment.table, o) == "\r"
    ensures segment.table[|segment.table| - 1].ending != []
  {
    assert "\n" != "\r";
  }

  lemma MayStandAlone(lines: seq<Line>, first: Segment, n: nat)
    requires NoneJoin(lines) && n <= |lines| && 0 < n && LinesOf(first) == lines[..n]
    ensures NoneJoin(LinesOf(first))
  {
    hide NoneJoin, LinesOf;
    assert lines == lines[..n] + lines[n..];
    NoneJoinParts(lines[..n], lines[n..]);
  }

  lemma FormattedTable(segment: Segment, filter: Filter, o: Options)
    requires segment.Grid?
    ensures FormatSegment(segment, filter, o).Grid?
    ensures LinesOf(FormatSegment(segment, filter, o)) == FormatSegment(segment, filter, o).table
    ensures LinesOf(segment) == segment.table
  {
    hide FormatSegment;
  }

  /** If the rest does not stay, the whole does not. */
  lemma RestDiffers(lines: seq<Line>, number: nat, fence: Option<Fence>, o: Options, block: seq<Line>, rest: seq<Line>)
    requires lines != [] && AreLines(block + rest) && AreLines(rest) && block != [] && NoneJoin(block)
    requires var first := FirstSegment(lines, number, fence);
      var n, next := |LinesOf(first)|, FenceAfter(lines[0].text, fence);
      && block == LinesOf(FormatSegment(first, AllTables(), o)) && |block| == n
      && rest == FormatFrom(lines[n..], number + n, next, AllTables(), o)
      && (rest != [] ==> !Joins(block[n - 1], rest[0]))
    ensures var n, next := |block|, FenceAfter(lines[0].text, fence);
      var cut, more := Split(Join(block + rest)), Split(Join(rest));
      FormatFrom(cut, number, fence, AllTables(), o) == cut ==>
        FormatFrom(more, number + n, next, AllTables(), o) == more
  {
    hide *;
    var filter, first := AllTables(), FirstSegment(lines, number, fence);
    var n, next := |LinesOf(first)|, FenceAfter(lines[0].text, fence);
    var more := Split(Join(rest));
    var cut := block + more;
    FormatStep(lines, number, fence, filter, o);
    BlockIsCut(block, rest);
    FirstText(rest);
    FirstAgain(lines, number, fence, filter, o);
    SameFirst(block, rest, more, number, fence);
    FormatStep(cut, number, fence, filter, o);
    FirstAgain(cut, number, fence, filter, o);
    assert cut[0] == block[0] == (block + rest)[0] && cut[n..] == more;
    var again := LinesOf(FormatSegment(FirstSegment(cut, number, fence), filter, o));
    assert (again + FormatFrom(more, number + n, next, filter, o))[n..]
      == FormatFrom(more, number + n, next, filter, o);
  }

  /** Formatting all tables a second time changes nothing exactly when all rows end outside code spans and
      no table swallows a blank line. */
  lemma FormatAllTwiceIff(source: string, o: Options)
    requires IsSane(o.style)
    ensures var segments, filter := Segments(Split(source), 1, None), AllTables();
      Format(Format(source, filter, o), filter, o) == Format(source, filter, o)
      <==> AllSettled(segments, filter) && KeepsBlanks(segments, filter, o)
  {
    hide *;
    var lines, filter := Split(source), AllTables();
    var segments := Segments(lines, 1, None);
    if KeepsBlanks(segments, filter, o) {
      FormatDocumentTwiceIff(source, filter, o);
    } else {
      var once := FormatFrom(lines, 1, None, filter, o);
      var cut := Split(Join(once));
      SourceAreLines(source);
      SourceAreLines(Join(once));
      JoinsIffSwallows(lines, 1, None, filter, o);
      SomethingToSwallow(lines, filter, o);
      FormatAreLines(lines, 1, None, filter, o);
      FormatAreLines(cut, 1, None, filter, o);
      SwallowingDiffers(lines, 1, None, o);
      SameText(FormatFrom(cut, 1, None, filter, o), cut);
      SplitLosesNothing(Join(once));
      FormatIsFrom(source, filter, o);
      FormatIsFrom(Join(once), filter, o);
    }
  }

  lemma SomethingToSwallow(lines: seq<Line>, filter: Filter, o: Options)
    ensures lines == [] ==> KeepsBlanks(Segments(lines, 1, None), filter, o)
  {
  }

  /** A carriage return as the table's ending, and a blank line that is ended by a line feed behind it. */
  const OddTable := [Line("|a|", "\r"), Line("|-|", "\n"), Line("", "\n")]

  /** The second pass of this text loses its blank line. */
  lemma BlankIsSwallowed(o: Options)
    requires IsSane(o.style) && o.preserveLineEnding
    ensures var source, filter := "|a|\r|-|\n\n", AllTables();
      Format(Format(source, filter, o), filter, o) != Format(source, filter, o)
  {
    hide *;
    OddTableLines();
    SplitJoin(OddTable);
    SeparatorParses();
    OddTableSegments(o);
    FormatAllTwiceIff("|a|\r|-|\n\n", o);
  }

  lemma OddTableLines()
    ensures Join(OddTable) == "|a|\r|-|\n\n" && AreLines(OddTable) && NoneJoin(OddTable)
  {
    assert OddTable[1..] == [OddTable[1], OddTable[2]] && OddTable[1..][1..] == [OddTable[2]];
    assert [OddTable[2]][1..] == [];
    assert Join([OddTable[2]]) == "" + "\n" + Join([]);
    assert Join(OddTable[1..]) == "|-|" + "\n" + Join([OddTable[2]]);
  }

  lemma OddTableSegments(o: Options)
    requires HasDelimiter("|-|") && ParseSeparator(Cells("|-|")).Some? && o.preserveLineEnding
    ensures !KeepsBlanks(Segments(OddTable, 1, None), AllTables(), o)
  {
    hide *;
    OddTableIsGrid();
    OddTableParts();
    var table, blank := OddTable[..2], OddTable[2..];
    GridStarts(table, blank, 1);
    NoFence(table);
    SegmentsStep(OddTable, 1, None);
    SegmentsStep(blank, 3, None);
    GridLines(table, 1);
    OddTableSwallows(o, Segments(OddTable, 1, None));
  }

  lemma GridLines(table: seq<Line>, number: nat)
    ensures LinesOf(Grid(table, number)) == table
  {
  }

  lemma OddTableParts()
    ensures OddTable == OddTable[..2] + OddTable[2..] && |OddTable| == 3 && OddTable[2..] == [Line("", "\n")]
    ensures EndsTable(OddTable[2..][0].text) && OddTable[0] == OddTable[..2][0]
    ensures FirstSegment(OddTable[2..], 3, None) == Prose(Line("", "\n"))
  {
    hide IsTableStart, FenceStart, IsIndentedCode;
    assert |OddTable[2..]| == 1;
    assert !IsTableStart(OddTable[2..]) by { OneLineIsNoTable(OddTable[2..]); }
    assert IsBlank("");
  }

  lemma OneLineIsNoTable(lines: seq<Line>)
    requires |lines| < 2
    ensures !IsTableStart(lines)
  {
  }

  lemma OddTableSwallows(o: Options, segments: seq<Segment>)
    requires o.preserveLineEnding && |segments| >= 2
    requires segments[0] == Grid(OddTable[..2], 1) && segments[1] == Prose(Line("", "\n"))
    ensures !KeepsBlanks(segments, AllTables(), o)
  {
    assert FirstEnding(OddTable[..2]) == "\r";
    assert SwallowsBlank(segments[0], segments[0 + 1], AllTables(), o);
  }

  lemma OddTableIsGrid()
    requires HasDelimiter("|-|") && ParseSeparator(Cells("|-|")).Some?
    ensures IsGrid(OddTable[..2])
  {
    assert Seek("|a|", 0, None) == AtPipe(0) by { assert Backslashes("|a|", 0) == 0; }
    assert HasDelimiter("|a|");
    hide HasDelimiter, ParseSeparator, Cells;
    assert FenceStart("|a|").None? && FenceStart("|-|").None?;
  }

  /** The text after so many passes. */
  function Passes(source: string, filter: Filter, o: Options, n: nat): string
    decreases n
  {
    if n == 0 then source else Passes(Format(source, filter, o), filter, o, n - 1)
  }

  /** An open row is open again after formatting. */
  lemma UnsettledStays(segment: Segment, filter: Filter, o: Options)
    requires IsSegment(segment) && !IsSettled(segment, filter)
    ensures !IsSettled(FormatSegment(segment, filter, o), filter)
  {
    hide *;
    UnsettledIsGrid(segment, filter);
    var table := segment.table;
    IsGridHasTwo(table);
    GridFormats(table, o);
    SelectedFormats(segment, filter, o);
    FormattedGrid(table, segment.first, filter, o);
    var once := FormatSegment(segment, filter, o);
    SegmentIsGrid(once, filter);
    BlockTexts(FormatTable(Texts(table), o.style).value, table, o);
    OpenTableStaysOpen(Texts(table), o.style);
  }

  lemma UnsettledIsGrid(segment: Segment, filter: Filter)
    requires IsSegment(segment) && !IsSettled(segment, filter)
    ensures segment.Grid? && segment.table != [] && Selects(filter, segment) && IsGrid(segment.table)
    ensures !AllClosed(Texts(segment.table))
  {
  }

  lemma OpenTableStaysOpen(lines: seq<string>, style: Style)
    requires ParseTable(lines).Some? && !AllClosed(lines)
    ensures FormatTable(lines, style).Some? && !AllClosed(FormatTable(lines, style).value)
  {
    hide *;
    ParsedIsFormatted(lines, style);
    TableLines(lines, style);
    var bad := OpenLine(lines);
    SeparatorIsClosed(lines[1]);
    LineOfRow(bad);
    OpenRowStaysOpen(lines, style, if bad == 0 then 0 else bad - 1);
    NotClosed(FormatTable(lines, style).value, bad);
  }

  lemma OpenLine(lines: seq<string>) returns (bad: nat)
    requires !AllClosed(lines)
    ensures bad < |lines| && EndSpan(lines[bad], 0).Some?
  {
    hide EndSpan;
    bad :| bad < |lines| && EndSpan(lines[bad], 0).Some?;
  }

  lemma LineOfRow(k: nat)
    requires k != 1
    ensures LineOf(if k == 0 then 0 else k - 1) == k
  {
  }

  lemma NotClosed(lines: seq<string>, bad: nat)
    requires bad < |lines| && EndSpan(lines[bad], 0).Some?
    ensures !AllClosed(lines)
  {
    hide EndSpan;
  }

  /** Formatting makes no table swallow a blank line that did not before. */
  lemma BlanksStayKept(segment: Segment, next: Segment, filter: Filter, o: Options)
    requires IsSegment(segment) && !SwallowsBlank(segment, next, filter, o)
    ensures !SwallowsBlank(FormatSegment(segment, filter, o), FormatSegment(next, filter, o), filter, o)
  {
    hide IsGrid, FormatTable, Texts, FirstEnding;
    if Selects(filter, segment) {
      IsGridHasTwo(segment.table);
      GridFormats(segment.table, o);
      var rows := FormatTable(Texts(segment.table), o.style).value;
      BlockAgain(rows, rows, segment.table, o);
      BlockEnding(rows, segment.table, o);
    }
  }

  /** A block has its table's ending, and a last one if the table had. */
  lemma BlockEnding(rows: seq<string>, table: seq<Line>, o: Options)
    requires table != [] && |rows| >= 2
    ensures var block := Block(rows, table, o);
      TableEnding(block, o) == TableEnding(table, o)
        && (block[|block| - 1].ending == [] <==> table[|table| - 1].ending == [])
  {
    EndingIsNotEmpty(table);
    EndingIsSome(table, o);
    var block := Block(rows, table, o);
    BlockLine(rows, table, o, 0);
    BlockLine(rows, table, o, |rows| - 1);
    assert FirstEnding(block) == block[0].ending;
  }

  /** What one pass leaves of an unsettled text. */
  lemma PassStaysUnsettled(source: string, filter: Filter, o: Options)
    requires KeepsBlanks(Segments(Split(source), 1, None), filter, o)
    requires !AllSettled(Segments(Split(source), 1, None), filter)
    ensures KeepsBlanks(Segments(Split(Format(source, filter, o)), 1, None), filter, o)
    ensures !AllSettled(Segments(Split(Format(source, filter, o)), 1, None), filter)
  {
    hide *;
    var lines := Split(source);
    var once, segments := FormatFrom(lines, 1, None, filter, o), Segments(lines, 1, None);
    SourceAreLines(source);
    JoinsIffSwallows(lines, 1, None, filter, o);
    FormatAreLines(lines, 1, None, filter, o);
    SplitJoin(once);
    FormatIsFrom(source, filter, o);
    SegmentsAgain(lines, 1, None, filter, o);
    forall k | 0 <= k < |segments| ensures IsSegment(segments[k]) { SegmentsAreSegments(lines, 1, None, k); }
    EachStaysUnsettled(segments, filter, o);
  }

  lemma EachStaysUnsettled(segments: seq<Segment>, filter: Filter, o: Options)
    requires forall k :: 0 <= k < |segments| ==> IsSegment(segments[k])
    requires KeepsBlanks(segments, filter, o) && !AllSettled(segments, filter)
    ensures KeepsBlanks(FormatEach(segments, filter, o), filter, o)
      && !AllSettled(FormatEach(segments, filter, o), filter)
  {
    hide IsSegment, IsSettled, SwallowsBlank, FormatEach, FormatSegment;
    var once := FormatEach(segments, filter, o);
    forall k | 0 <= k < |segments| ensures once[k] == FormatSegment(segments[k], filter, o) {
      EachIs(segments, filter, o, k);
    }
    forall k | 0 <= k < |once| - 1 ensures !SwallowsBlank(once[k], once[k + 1], filter, o) {
      assert !SwallowsBlank(segments[k], segments[k + 1], filter, o);
      BlanksStayKept(segments[k], segments[k + 1], filter, o);
    }
    var bad :| 0 <= bad < |segments| && !IsSettled(segments[bad], filter);
    UnsettledStays(segments[bad], filter, o);
    assert !IsSettled(once[bad], filter);
  }

  /** No number of passes makes a text with an open row in a formatted table stay as it is. */
  lemma {:induction false} OpenRowsNeverSettle(source: string, filter: Filter, o: Options, n: nat)
    requires IsSane(o.style) && KeepsBlanks(Segments(Split(source), 1, None), filter, o)
    requires !AllSettled(Segments(Split(source), 1, None), filter)
    ensures Format(Passes(source, filter, o, n), filter, o) != Passes(source, filter, o, n)
    decreases n
  {
    hide Format, KeepsBlanks, AllSettled, Segments, Split, IsSane;
    if n == 0 {
      FormatDocumentTwiceIff(source, filter, o);
    } else {
      PassStaysUnsettled(source, filter, o);
      OpenRowsNeverSettle(Format(source, filter, o), filter, o, n - 1);
    }
  }

  /** A header that leaves a code span open over its separator. */
  const OpenTable := [Line("|`|", "\n"), Line("|-|", "\n")]

  /** A text that every pass changes. */
  lemma OpenRowNeverSettles(o: Options, n: nat)
    requires IsSane(o.style)
    ensures var once := Passes("|`|\n|-|\n", AllTables(), o, n); Format(once, AllTables(), o) != once
  {
    hide *;
    OpenTableLines();
    SplitJoin(OpenTable);
    HeaderIsOpen();
    SeparatorParses();
    OpenTableSegments(o);
    OpenRowsNeverSettle("|`|\n|-|\n", AllTables(), o, n);
  }

  lemma OpenTableLines()
    ensures Join(OpenTable) == "|`|\n|-|\n" && AreLines(OpenTable) && NoneJoin(OpenTable)
  {
    assert OpenTable[1..] == [OpenTable[1]] && OpenTable[1..][1..] == [];
    assert Join(OpenTable[1..]) == "|-|" + "\n" + Join([]);
  }

  lemma HeaderIsOpen()
    ensures HasDelimiter("|`|") && EndSpan("|`|", 0) == Some(1)
  {
    var s := "|`|";
    assert Seek(s, 0, None) == AtPipe(0) by { assert Backslashes(s, 0) == 0; }
    assert Ticks(s, 2) == 0 && Ticks(s, 1) == 1 && Backslashes(s, 1) == 0;
    assert Seek(s, 3, Some(1)) == AtEnd(Some(1));
    assert Seek(s, 2, Some(1)) == AtEnd(Some(1));
    assert Seek(s, 1, None) == AtEnd(Some(1));
  }

  lemma SeparatorIsCut()
    ensures HasDelimiter("|-|") && Pieces("|-|", 0) == ["", "-", ""]
  {
    var s := "|-|";
    assert Seek(s, 0, None) == AtPipe(0) by { assert Backslashes(s, 0) == 0; }
    assert Seek(s, 2, None) == AtPipe(2) by { assert Backslashes(s, 2) == 0; }
    assert Seek(s, 1, None) == AtPipe(2);
    assert Seek(s, 3, None) == AtEnd(None);
    hide Seek;
    assert s[0..0] == "" && s[1..2] == "-" && s[3..] == "";
    assert Pieces(s, 3) == [""] && Pieces(s, 1) == ["-"] + Pieces(s, 3) && Pieces(s, 0) == [""] + Pieces(s, 1);
  }

  lemma SeparatorParses()
    ensures HasDelimiter("|-|") && ParseSeparator(Cells("|-|")).Some?
  {
    var s := "|-|";
    SeparatorIsCut();
    hide Pieces;
    assert TrimAll(Pieces(s, 0)) == ["", "-", ""];
    assert HasLeadingPipe(s) && HasTrailingPipe(s) by { assert Backslashes(s, 2) == 0; }
    assert Cells(s) == ["-"];
    assert ["-"][1..] == [] && ParseSeparatorCell("-") == Some(Default);
  }

  lemma OpenTableSegments(o: Options)
    requires HasDelimiter("|`|") && HasDelimiter("|-|") && ParseSeparator(Cells("|-|")).Some? && EndSpan("|`|", 0).Some?
    ensures !AllSettled(Segments(OpenTable, 1, None), AllTables())
    ensures KeepsBlanks(Segments(OpenTable, 1, None), AllTables(), o)
  {
    hide HasDelimiter, ParseSeparator, Cells, EndSpan;
    assert FenceStart("|`|").None? && FenceStart("|-|").None?;
    assert IsTableStart(OpenTable);
    assert OpenTable[2..] == [] && TableEnd(OpenTable) == 2 && OpenTable[..2] == OpenTable;
    var grid := Grid(OpenTable, 1);
    assert Segments(OpenTable, 1, None)[0] == grid;
    assert Selects(AllTables(), grid) && Texts(OpenTable)[0] == "|`|";
    assert !IsSettled(grid, AllTables());
  }

  lemma SourceAreLines(source: string)
    ensures AreLines(Split(source)) && NoneJoin(Split(source))
  {
    hide LineAt, After, SplitFrom, AreLines, NoneJoin;
    SplitAreLines(source, 0, 0);
  }

  /** In that case the second pass also has no ragged row to report, and the tables are still at the
      same lines, their rows being the formatted ones. */
  lemma SecondPassIsClean(source: string, filter: Filter, o: Options)
    requires IsSane(o.style) && AllSettled(Segments(Split(source), 1, None), filter)
    requires KeepsBlanks(Segments(Split(source), 1, None), filter, o)
    ensures Diagnostics(Format(source, filter, o), filter, o) == []
    ensures Segments(Split(Format(source, filter, o)), 1, None)
      == FormatEach(Segments(Split(source), 1, None), filter, o)
  {
    hide *;
    var lines := Split(source);
    var once := FormatFrom(lines, 1, None, filter, o);
    SourceAreLines(source);
    JoinsIffSwallows(lines, 1, None, filter, o);
    FormatAreLines(lines, 1, None, filter, o);
    SplitJoin(once);
    FormatIsFrom(source, filter, o);
    FormatIsFrom(Join(once), filter, o);
    LinesTwiceIff(lines, filter, o);
    SegmentsAgain(lines, 1, None, filter, o);
  }

  /** Formatting within line ranges: the source is its segments put together, the output is the same
      segments with the tables that meet a range formatted and everything else as it was. */
  lemma RangesFormatTheirTables(source: string, ranges: seq<LineRange>, o: Options) returns (out: seq<Segment>)
    ensures var segments := Segments(Split(source), 1, None);
      && Join(Flatten(segments)) == source
      && Format(source, InRanges(ranges), o) == Join(Flatten(out))
      && |out| == |segments|
      && forall k :: 0 <= k < |segments| ==>
        out[k] == if MeetsRange(segments[k], ranges) then FormatSegment(segments[k], AllTables(), o) else segments[k]
  {
    var filter, segments := InRanges(ranges), Segments(Split(source), 1, None);
    out := FormatEach(segments, filter, o);
    hide Segments, Flatten, FormatEach, FormatFrom, Join, Split;
    SegmentsCover(Split(source), 1, None);
    assert Join(Split(source)) == source by { SplitLosesNothing(source); }
    FormatIsSegmentwise(Split(source), 1, None, filter, o);
    hide *;
    forall k | 0 <= k < |segments|
      ensures out[k] == if MeetsRange(segments[k], ranges) then FormatSegment(segments[k], AllTables(), o)
        else segments[k]
    {
      EachIs(segments, filter, o, k);
      FilterDecides(segments[k], ranges, o);
    }
  }

  lemma FilterDecides(segment: Segment, ranges: seq<LineRange>, o: Options)
    ensures FormatSegment(segment, InRanges(ranges), o)
      == if MeetsRange(segment, ranges) then FormatSegment(segment, AllTables(), o) else segment
  {
    hide Texts, Block, FormatTable, Intersects;
    assert Selects(InRanges(ranges), segment) == MeetsRange(segment, ranges);
  }

  /** Whether a line number lies in a range, whose ends may come in either order and count from 1. */
  predicate InRange(range: LineRange, line: nat) {
    Max(Min(range.startLine, range.endLine), 1) <= line <= Max(Max(range.startLine, range.endLine), 1)
  }

  /** The range test says whether the range and the table have a line in common. */
  lemma IntersectsIff(range: LineRange, first: nat, last: nat)
    requires first <= last
    ensures Intersects(range, first, last) <==> exists line: nat :: first <= line <= last && InRange(range, line)
  {
    if Intersects(range, first, last) {
      var line := Max(first, Max(Min(range.startLine, range.endLine), 1));
      assert first <= line <= last && InRange(range, line);
    }
  }

  lemma SplitLosesNothing(source: string)
    ensures Join(Split(source)) == source
  {
    JoinSplit(source, 0, 0);
    assert source[0..] == source;
  }

  /** A table that has a line in one of the ranges. */
  predicate MeetsRange(segment: Segment, ranges: seq<LineRange>) {
    && segment.Grid? && segment.table != []
    && exists k :: 0 <= k < |ranges| && Intersects(ranges[k], segment.first, segment.first + |segment.table| - 1)
  }
}
