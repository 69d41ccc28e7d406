/** What a formatted table means: it reads back, formatting it again changes nothing exactly when no
    row ends inside a code span, and its delimiter pipes line up. */
module TableTheorems {
  import opened Wrappers
  import opened TableScanner
  import opened TableFormat

  /** The rows of a table, the header first and without the separator. */
  function DataRows(t: Table): seq<seq<string>> {
    [t.header] + t.rows
  }

  /** A separator row never ends inside a code span. */
  lemma SeparatorIsClosed(line: string)
    requires ParseSeparator(Cells(line)).Some?
    ensures EndSpan(line, 0) == None && Cells(line) != []
  {
    CellsAreGood(line);
    var cells := Cells(line);
    hide Cells, EndSpan, AllGood;
    if EndSpan(line, 0).Some? {
      var cell := cells[|cells| - 1];
      EachParses(cells, |cells| - 1);
      TrimmedStays(cell);
      OnlyMarks(cell);
      SeekMarks(cell, 0);
    }
  }

  lemma {:induction false} EachParses(cells: seq<string>, k: nat)
    requires k < |cells| && ParseEach(cells).Some?
    ensures ParseSeparatorCell(cells[k]).Some?
  {
    hide ParseSeparatorCell;
    if 0 < k { EachParses(cells[1..], k - 1); }
  }

  lemma OnlyMarks(cell: string)
    requires ParseSeparatorCell(cell).Some? && Trim(cell) == cell
    ensures forall k :: 0 <= k < |cell| ==> cell[k] == '-' || cell[k] == ':'
  {
    hide Trim;
    var start, end := if cell[0] == ':' then 1 else 0, if cell[|cell| - 1] == ':' then |cell| - 1 else |cell|;
    forall k | 0 <= k < |cell| ensures cell[k] == '-' || cell[k] == ':' {
      if start <= k < end { assert cell[k] == cell[start..end][k - start]; }
    }
  }

  /** A table that parses has a column, so it is formatted: the "no columns" error never comes up. */
  lemma ParsedIsFormatted(lines: seq<string>, style: Style)
    ensures FormatTable(lines, style).Some? <==> ParseTable(lines).Some?
    ensures ParseTable(lines).Some? ==> 0 < Columns(ParseTable(lines).value)
  {
    hide Cells;
    if ParseTable(lines).Some? {
      EachLength(Cells(lines[1]));
    }
  }

  lemma {:induction false} EachLength(cells: seq<string>)
    ensures ParseEach(cells).Some? ==> |ParseEach(cells).value| == |cells|
  {
    hide ParseSeparatorCell;
    if cells != [] { EachLength(cells[1..]); }
  }

  /** No row ends inside a code span. */
  ghost predicate AllClosed(lines: seq<string>) {
    forall k :: 0 <= k < |lines| ==> EndSpan(lines[k], 0) == None
  }

  /** The `k`-th data row comes from this line of the table. */
  function LineOf(k: nat): nat {
    if k == 0 then 0 else k + 1
  }

  lemma RowsAreCells(lines: seq<string>, k: nat)
    requires ParseTable(lines).Some? && k < |DataRows(ParseTable(lines).value)|
    ensures LineOf(k) < |lines| && DataRows(ParseTable(lines).value)[k] == Cells(lines[LineOf(k)])
    ensures |DataRows(ParseTable(lines).value)[k]| <= Columns(ParseTable(lines).value)
  {
    hide Cells, ParseSeparator;
    var t := ParseTable(lines).value;
    if 0 < k { assert DataRows(t)[k] == t.rows[k - 1] && lines[2..][k - 1] == lines[k + 1]; }
  }

  lemma ClosedTableIsGood(lines: seq<string>)
    requires ParseTable(lines).Some? && AllClosed(lines)
    ensures IsGoodTable(ParseTable(lines).value)
  {
    hide Cells, EndSpan, ParseSeparator, AllGood;
    var t := ParseTable(lines).value;
    CellsAreGood(lines[0]);
    forall k | 0 <= k < |t.rows| ensures AllGood(t.rows[k]) {
      CellsAreGood(lines[2..][k]);
    }
  }

  /** Formatting a table without open rows a second time changes nothing, and there is nothing left to
      report. */
  lemma ClosedFormatsOnce(lines: seq<string>, style: Style, base: nat)
    requires IsSane(style) && ParseTable(lines).Some? && AllClosed(lines)
    ensures FormatTable(lines, style).Some?
    ensures FormatTable(FormatTable(lines, style).value, style) == FormatTable(lines, style)
    ensures ParseTable(FormatTable(lines, style).value).Some?
    ensures Mismatches(ParseTable(FormatTable(lines, style).value).value, base) == []
    ensures AllClosed(FormatTable(lines, style).value)
  {
    ParsedIsFormatted(lines, style);
    ClosedTableIsGood(lines);
    var t := ParseTable(lines).value;
    RenderReads(t, style);
    SquaredRendersTheSame(t, style);
    SquaredHasNoMismatches(t, style, base);
    SquaredColumns(t, style);
    RenderedIsClosed(t, style);
    hide ParseTable, Render, Squared, Columns, IsGoodTable, EndSpan, Mismatches;
  }

  lemma RenderedIsClosed(t: Table, style: Style)
    requires IsGoodTable(t) && 0 < Columns(t)
    ensures AllClosed(Render(t, style))
  {
    hide EndSpan, DataRow, SeparatorRow, AllGood, Columns, Cells, ParseSeparator;
    var lines := Render(t, style);
    SeparatorRowReads(t, style);
    SeparatorIsClosed(lines[1]);
    forall k | 0 <= k < |DataRows(t)| ensures EndSpan(DataRow(t, DataRows(t)[k], style), 0) == None {
      RowFits(t, k);
      DataRowReads(t, DataRows(t)[k], style);
    }
    forall k | 0 <= k < |lines| ensures EndSpan(lines[k], 0) == None {
      if k != 1 { RenderedLine(t, style, if k == 0 then 0 else k - 1); }
    }
  }

  lemma RowFits(t: Table, k: nat)
    requires k < |DataRows(t)|
    ensures |DataRows(t)[k]| <= Columns(t)
    ensures IsGoodTable(t) ==> AllGood(DataRows(t)[k])
  {
  }

  /** The separator of a rendered table reads back whatever the rows are. */
  lemma RenderedParses(t: Table, style: Style)
    requires 0 < Columns(t)
    ensures ParseTable(Render(t, style)).Some?
    ensures |ParseTable(Render(t, style)).value.rows| == |t.rows|
  {
    SeparatorRowReads(t, style);
    hide Cells, DataRow, SeparatorRow, ParseSeparator, Columns;
  }

  /** An open row is open again after formatting, and longer. */
  lemma OpenRowStaysOpen(lines: seq<string>, style: Style, k: nat)
    requires ParseTable(lines).Some? && k < |DataRows(ParseTable(lines).value)|
    requires EndSpan(lines[LineOf(k)], 0).Some?
    ensures FormatTable(lines, style).Some?
    ensures var again := FormatTable(lines, style).value;
      && |again| == |lines| && EndSpan(again[LineOf(k)], 0).Some?
      && IsOpenRow(Cells(lines[LineOf(k)])) && IsOpenRow(Cells(again[LineOf(k)]))
      && LastLength(Cells(lines[LineOf(k)])) < LastLength(Cells(again[LineOf(k)]))
  {
    ParsedIsFormatted(lines, style);
    RowsAreCells(lines, k);
    var t := ParseTable(lines).value;
    var line, row := lines[LineOf(k)], DataRows(t)[k];
    CellsAreGood(line);
    OpenRowGrows(t, row, style);
    CellsAreGood(DataRow(t, row, style));
    OpenIsNotGood(Cells(DataRow(t, row, style)));
    RenderedLine(t, style, k);
    hide Cells, EndSpan, DataRow, ParseSeparator, IsOpenRow, AllGood, Columns;
  }

  lemma RenderedLine(t: Table, style: Style, k: nat)
    requires k < |DataRows(t)|
    ensures LineOf(k) < |Render(t, style)| && Render(t, style)[LineOf(k)] == DataRow(t, DataRows(t)[k], style)
  {
  }

  lemma OpenIsNotGood(cells: seq<string>)
    requires IsOpenRow(cells)
    ensures !AllGood(cells)
  {
    assert !IsGoodCell(cells[|cells| - 1]);
  }

  function LastLength(cells: seq<string>): nat {
    if cells == [] then 0 else |cells[|cells| - 1]|
  }

  /** A second pass changes nothing exactly when every row ends outside a code span. */
  lemma FormatTwiceIff(lines: seq<string>, style: Style)
    requires IsSane(style) && ParseTable(lines).Some?
    ensures FormatTable(lines, style).Some? && FormatTable(FormatTable(lines, style).value, style).Some?
    ensures FormatTable(FormatTable(lines, style).value, style) == FormatTable(lines, style) <==> AllClosed(lines)
  {
    ParsedIsFormatted(lines, style);
    var t := ParseTable(lines).value;
    RenderedParses(t, style);
    var once := Render(t, style);
    ParsedIsFormatted(once, style);
    if AllClosed(lines) {
      ClosedFormatsOnce(lines, style, 1);
    } else {
      var bad: nat :| bad < |lines| && EndSpan(lines[bad], 0).Some?;
      SeparatorIsClosed(lines[1]);
      var k: nat := if bad == 0 then 0 else bad - 1;
      OpenRowStaysOpen(lines, style, k);
      OpenRowStaysOpen(once, style, k);
    }
  }

  predicate NoTabs(s: string) {
    '\t' !in s
  }

  /** A measure under which tab-free texts side by side are as wide as both, and the characters of the
      frame are one wide each. */
  ghost predicate IsAdditive(style: Style) {
    && style.width([]) == 0
    && style.width(" ") == style.width("|") == style.width("-") == style.width(":") == 1
    && forall a, b :: NoTabs(a) && NoTabs(b) ==> style.width(a + b) == style.width(a) + style.width(b)
  }

  lemma {:induction false} RepeatWidth(c: char, n: nat, style: Style)
    requires IsAdditive(style) && c in [' ', '-']
    ensures style.width(Repeat(c, n)) == n && NoTabs(Repeat(c, n))
  {
    if n == 0 {
      assert Repeat(c, n) == [];
    } else {
      RepeatWidth(c, n - 1, style);
      assert Repeat(c, n) == Repeat(c, n - 1) + [c];
      assert NoTabs([c]) && style.width([c]) == 1 by { assert [c] == " " || [c] == "-"; }
    }
  }

  lemma Adds(a: string, b: string, style: Style)
    requires IsAdditive(style) && NoTabs(a) && NoTabs(b)
    ensures style.width(a + b) == style.width(a) + style.width(b) && NoTabs(a + b)
  {
  }

  /** A piece that takes its column's width and the two spaces around it. */
  ghost predicate Fills(piece: string, width: nat, style: Style) {
    NoTabs(piece) && style.width(piece) == width + 2
  }

  lemma SpacedFills(s: string, style: Style)
    requires IsAdditive(style) && NoTabs(s)
    ensures Fills(" " + s + " ", style.width(s), style)
  {
    assert NoTabs(" ");
    Adds(" ", s, style);
    Adds(" " + s, " ", style);
  }

  lemma PaddedFills(cell: string, width: nat, alignment: Alignment, style: Style)
    requires IsAdditive(style) && NoTabs(cell) && style.width(cell) <= width
    ensures Fills(" " + PadCell(cell, width, alignment, style) + " ", width, style)
  {
    hide Repeat, IsAdditive, NoTabs;
    var padding := width - style.width(cell);
    var left := if alignment == Right then padding else if alignment == Center then padding / 2 else 0;
    RepeatWidth(' ', left, style);
    RepeatWidth(' ', padding - left, style);
    NoRepeat();
    var before, after := Repeat(' ', left), Repeat(' ', padding - left);
    Adds(before, cell, style);
    Adds(before + cell, after, style);
    assert PadCell(cell, width, alignment, style) == before + cell + after;
    SpacedFills(before + cell + after, style);
  }

  lemma NoRepeat()
    ensures Repeat(' ', 0) == []
  {
  }

  lemma SeparatorFills(width: nat, alignment: Alignment, style: Style)
    requires IsAdditive(style) && SeparatorFloor(alignment, style) <= width
    ensures Fills(" " + SeparatorCell(width, alignment, style) + " ", width, style)
  {
    RepeatWidth('-', width, style);
    RepeatWidth('-', width - 1, style);
    RepeatWidth('-', width - 2, style);
    assert NoTabs(":");
    hide Repeat, NoTabs;
    match alignment {
      case Default =>
      case Left => Adds(":", Repeat('-', width - 1), style);
      case Right => Adds(Repeat('-', width - 1), ":", style);
      case Center =>
        Adds(":", Repeat('-', width - 2), style);
        Adds(":" + Repeat('-', width - 2), ":", style);
    }
    SpacedFills(SeparatorCell(width, alignment, style), style);
  }

  lemma {:induction false} ContentIsWidest(rows: seq<seq<string>>, k: nat, column: nat, style: Style)
    requires k < |rows| && column < |rows[k]|
    ensures style.width(Trim(rows[k][column])) <= ContentWidth(rows, column, style)
  {
    hide Trim;
    if 0 < k { ContentIsWidest(rows[1..], k - 1, column, style); }
  }

  /** The number of cells in the `k`-th line of a table. */
  function CellsInLine(t: Table, k: nat): nat
    requires k < |t.rows| + 2
  {
    if k == 0 then |t.header| else if k == 1 then |t.separator| else |t.rows[k - 2]|
  }

  lemma {:induction false} RowMismatchesExact(rows: seq<seq<string>>, n: nat, base: nat, m: Mismatch)
    ensures m in RowMismatches(rows, n, base) <==>
      base <= m.line < base + |rows| && m.expected == n && m.actual == |rows[m.line - base]| != n
  {
    if rows != [] { RowMismatchesExact(rows[1..], n, base + 1, m); }
  }

  /** Exactly the lines whose number of cells differs from the number of columns are reported, each with
      its line number and both numbers. */
  lemma MismatchesExact(t: Table, base: nat, m: Mismatch)
    ensures m in Mismatches(t, base) <==>
      base <= m.line < base + |t.rows| + 2 && m.expected == Columns(t)
      && m.actual == CellsInLine(t, m.line - base) != Columns(t)
  {
    hide Columns;
    RowMismatchesExact(t.rows, Columns(t), base + 2, m);
  }

  /** Padding goes where the alignment says: before a right-aligned cell, after a left-aligned one, on both
      sides of a centred one with the odd space behind; and it fills the column exactly. */
  lemma PaddingIsPlaced(cell: string, width: nat, alignment: Alignment, style: Style) returns (before: nat, after: nat)
    ensures PadCell(cell, width, alignment, style) == Repeat(' ', before) + cell + Repeat(' ', after)
    ensures style.width(cell) + before + after == Max(style.width(cell), width)
    ensures alignment == Right ==> after == 0
    ensures alignment == Left || alignment == Default ==> before == 0
    ensures alignment == Center ==> before <= after <= before + 1
  {
    var padding := if style.width(cell) <= width then width - style.width(cell) else 0;
    before := if alignment == Right then padding else if alignment == Center then padding / 2 else 0;
    after := padding - before;
    NoRepeat();
  }

  /** A column is as wide as its widest cell or as its separator needs, and no wider. */
  lemma WidthIsTight(t: Table, column: nat, style: Style)
    ensures SeparatorFloor(AlignmentOf(t, column, style), style) <= WidthOf(t, column, style)
    ensures forall k :: 0 <= k < |DataRows(t)| && column < |DataRows(t)[k]| ==>
      style.width(Trim(DataRows(t)[k][column])) <= WidthOf(t, column, style)
    ensures WidthOf(t, column, style) == SeparatorFloor(AlignmentOf(t, column, style), style)
      || exists k :: 0 <= k < |DataRows(t)| && column < |DataRows(t)[k]|
           && style.width(Trim(DataRows(t)[k][column])) == WidthOf(t, column, style)
  {
    hide Trim, AlignmentOf;
    forall k | 0 <= k < |DataRows(t)| && column < |DataRows(t)[k]|
      ensures style.width(Trim(DataRows(t)[k][column])) <= WidthOf(t, column, style)
    {
      ContentIsWidest(DataRows(t), k, column, style);
    }
    if ContentWidth(DataRows(t), column, style) > 0 {
      var k := ContentIsReached(DataRows(t), column, style);
    }
  }

  function Hyphens(s: string): nat {
    if s == [] then 0 else (if s[0] == '-' then 1 else 0) + Hyphens(s[1..])
  }

  lemma {:induction false} HyphensConcat(a: string, b: string)
    ensures Hyphens(a + b) == Hyphens(a) + Hyphens(b)
  {
    if a == [] {
      assert a + b == b;
    } else {
      assert (a + b)[0] == a[0] && (a + b)[1..] == a[1..] + b;
      HyphensConcat(a[1..], b);
    }
  }

  lemma {:induction false} HyphensRepeat(n: nat)
    ensures Hyphens(Repeat('-', n)) == n
  {
    if n > 0 {
      assert Repeat('-', n)[1..] == Repeat('-', n - 1);
      HyphensRepeat(n - 1);
    }
  }

  /** The separator cell fills its column, with at least as many hyphens as are asked for and three; and with no
      more where no cell is as wide as the column. */
  lemma SeparatorFillsTheColumn(t: Table, column: nat, style: Style)
    ensures var width := WidthOf(t, column, style);
      var cell := SeparatorCell(width, AlignmentOf(t, column, style), style);
      var asked := if style.minSeparatorWidth > 3 then style.minSeparatorWidth else 3;
      && |cell| == width && Hyphens(cell) >= asked
      && (Hyphens(cell) == asked
          || exists k :: 0 <= k < |DataRows(t)| && column < |DataRows(t)[k]|
               && style.width(Trim(DataRows(t)[k][column])) == width)
  {
    WidthIsTight(t, column, style);
    var alignment, width := AlignmentOf(t, column, style), WidthOf(t, column, style);
    hide AlignmentOf, WidthOf, Trim, DataRows;
    var colons := match alignment case Default => 0 case Center => 2 case _ => 1;
    var dashes := Repeat('-', width - colons);
    HyphensRepeat(width - colons);
    assert ":"[1..] == [] && Hyphens(":") == 0;
    HyphensConcat(":", dashes);
    HyphensConcat(dashes, ":");
    HyphensConcat(":" + dashes, ":");
    hide Hyphens, Repeat;
  }

  lemma {:induction false} ContentIsReached(rows: seq<seq<string>>, column: nat, style: Style) returns (k: nat)
    requires ContentWidth(rows, column, style) > 0
    ensures k < |rows| && column < |rows[k]| && style.width(Trim(rows[k][column])) == ContentWidth(rows, column, style)
  {
    hide Trim;
    var first := if column < |rows[0]| then style.width(Trim(rows[0][column])) else 0;
    if ContentWidth(rows[1..], column, style) <= first {
      k := 0;
    } else {
      k := ContentIsReached(rows[1..], column, style);
      k := k + 1;
    }
  }

  /** How far the pipe after the first `n` columns stands from the left. */
  function ColumnOf(widths: seq<nat>, n: nat): nat
    requires n <= |widths|
  {
    if n == 0 then 0 else ColumnOf(widths, n - 1) + widths[n - 1] + 3
  }

  /** The positions of the delimiter pipes, as the scanner finds them. */
  function Pipes(line: string, start: nat): (r: seq<nat>)
    requires start <= |line|
    ensures forall k :: 0 <= k < |r| ==> start <= r[k] < |line|
    decreases |line| - start
  {
    match Seek(line, start, None)
    case AtEnd(_) => []
    case AtPipe(i) => [i] + Pipes(line, i + 1)
  }

  /** The columns at which the delimiter pipes of a line stand. */
  function PipeColumns(line: string, style: Style): (r: seq<nat>)
    ensures |r| == |Pipes(line, 0)|
  {
    var pipes := Pipes(line, 0);
    seq<nat>(|pipes|, k requires 0 <= k < |pipes| => style.width(line[..pipes[k]]))
  }

  /** The same for a row whose columns have these widths. */
  function GridColumns(widths: seq<nat>): (r: seq<nat>)
    ensures |r| == |widths| + 1
  {
    seq(|widths| + 1, n requires 0 <= n <= |widths| => ColumnOf(widths, n))
  }

  lemma PipesStep(line: string, start: nat)
    requires start <= |line|
    ensures var stop := Seek(line, start, None);
      Pipes(line, start) == if stop.AtPipe? then [stop.index] + Pipes(line, stop.index + 1) else []
  {
    hide Seek, IsEscaped;
  }

  lemma NextPipe(pre: string, piece: string, tail: string)
    requires !EndsInBackslash(pre) && IsPlain(piece) && !EndsInBackslash(piece)
    ensures var line := pre + (piece + ("|" + tail));
      Pipes(line, |pre|) == [|pre| + |piece|] + Pipes(line, |pre| + |piece| + 1)
  {
    hide EndsInBackslash, IsPlain, Pipes, Seek, IsEscaped;
    StopsAtPipe(piece, tail);
    var rest := piece + ("|" + tail);
    SeekAfter(pre, rest, 0, None);
    PipesStep(pre + rest, |pre|);
  }

  /** The pipes of `line` from `start` on stand at the columns of the grid after column `from`, up to column
      `to`. */
  ghost predicate OnGrid(line: string, start: nat, widths: seq<nat>, from: nat, to: nat, style: Style)
    requires start <= |line| && from <= to <= |widths|
  {
    && |Pipes(line, start)| == to - from
    && forall k :: 0 <= k < to - from ==>
      style.width(line[..Pipes(line, start)[k]]) == ColumnOf(widths, from + k + 1)
  }

  lemma GridStep(line: string, start: nat, pipe: nat, widths: seq<nat>, from: nat, to: nat, style: Style)
    requires start <= pipe < |line| && from < to <= |widths|
    requires Pipes(line, start) == [pipe] + Pipes(line, pipe + 1)
    requires style.width(line[..pipe]) == ColumnOf(widths, from + 1)
    requires OnGrid(line, pipe + 1, widths, from + 1, to, style)
    ensures OnGrid(line, start, widths, from, to, style)
  {
    hide Pipes, ColumnOf;
    forall k | 0 <= k < to - from
      ensures style.width(line[..Pipes(line, start)[k]]) == ColumnOf(widths, from + k + 1)
    {
      if 0 < k { assert Pipes(line, start)[k] == Pipes(line, pipe + 1)[k - 1]; }
    }
  }

  /** Pieces that are to come, each for its column. */
  ghost predicate FitFrom(pieces: seq<string>, cells: seq<string>, widths: seq<nat>, from: nat, style: Style) {
    && |pieces| == |cells| && from + |pieces| <= |widths|
    && forall k :: 0 <= k < |pieces| ==> Frames(pieces[k], cells[k]) && Fills(pieces[k], widths[from + k], style)
  }

  lemma FitStep(pieces: seq<string>, cells: seq<string>, widths: seq<nat>, from: nat, style: Style)
    requires FitFrom(pieces, cells, widths, from, style) && pieces != []
    ensures IsPlain(pieces[0]) && !EndsInBackslash(pieces[0]) && Fills(pieces[0], widths[from], style)
    ensures FitFrom(pieces[1..], cells[1..], widths, from + 1, style)
  {
    hide Fills, IsPlain, Trim;
    assert Frames(pieces[0], cells[0]) && Fills(pieces[0], widths[from + 0], style);
    forall k | 0 <= k < |pieces[1..]|
      ensures Frames(pieces[1..][k], cells[1..][k]) && Fills(pieces[1..][k], widths[from + 1 + k], style)
    {
      assert Frames(pieces[k + 1], cells[k + 1]) && Fills(pieces[k + 1], widths[from + (k + 1)], style);
    }
  }

  lemma ClosedSplits(pre: string, pieces: seq<string>, end: string)
    requires pieces != []
    ensures var piece, tail, line := pieces[0], Closed(pieces[1..]) + end, pre + (Closed(pieces) + end);
      && line == pre + (piece + ("|" + tail)) && line == (pre + piece + "|") + tail
      && line[..|pre| + |piece|] == pre + piece
  {
    hide Closed;
    ClosedHead(pieces, end);
    var piece, tail, line := pieces[0], Closed(pieces[1..]) + end, pre + (Closed(pieces) + end);
    assert line == pre + (piece + ("|" + tail));
  }

  lemma NoPipes(pre: string, end: string, widths: seq<nat>, from: nat, style: Style)
    requires !EndsInBackslash(pre) && Seek(end, 0, None).AtEnd? && from <= |widths|
    ensures OnGrid(pre + (Closed([]) + end), |pre|, widths, from, from, style)
  {
    assert Closed([]) + end == end;
    SeekAfter(pre, end, 0, None);
  }

  lemma RowStep(pre: string, pieces: seq<string>, end: string, widths: seq<nat>, from: nat, style: Style)
    returns (done: string)
    requires IsAdditive(style) && pieces != [] && from < |widths|
    requires IsPlain(pieces[0]) && !EndsInBackslash(pieces[0]) && Fills(pieces[0], widths[from], style)
    requires !EndsInBackslash(pre) && NoTabs(pre) && style.width(pre) == ColumnOf(widths, from) + 1
    ensures done == pre + pieces[0] + "|"
    ensures done + (Closed(pieces[1..]) + end) == pre + (Closed(pieces) + end)
    ensures !EndsInBackslash(done) && NoTabs(done) && style.width(done) == ColumnOf(widths, from + 1) + 1
    ensures style.width((pre + (Closed(pieces) + end))[..|done| - 1]) == ColumnOf(widths, from + 1)
    ensures var line := pre + (Closed(pieces) + end);
      |done| <= |line| && Pipes(line, |pre|) == [|done| - 1] + Pipes(line, |done|)
  {
    hide IsAdditive, IsPlain, Pipes, NoTabs, Closed;
    done := pre + pieces[0] + "|";
    ClosedSplits(pre, pieces, end);
    NextPipe(pre, pieces[0], Closed(pieces[1..]) + end);
    PieceAdds(pre, pieces[0], style);
  }

  /** The pieces that are still to come continue the grid, and what follows them adds no pipe. */
  lemma {:induction false} RowPipes(pre: string, pieces: seq<string>, cells: seq<string>, end: string, widths: seq<nat>,
                                    from: nat, style: Style)
    requires IsAdditive(style) && FitFrom(pieces, cells, widths, from, style) && Seek(end, 0, None).AtEnd?
    requires !EndsInBackslash(pre) && NoTabs(pre) && style.width(pre) == ColumnOf(widths, from) + 1
    ensures OnGrid(pre + (Closed(pieces) + end), |pre|, widths, from, from + |pieces|, style)
    decreases |pieces|
  {
    hide Seek, IsAdditive, IsPlain, Pipes, NoTabs, OnGrid, Closed, EndsInBackslash, ColumnOf, Fills, Frames;
    if pieces == [] {
      NoPipes(pre, end, widths, from, style);
    } else {
      FitStep(pieces, cells, widths, from, style);
      var done := RowStep(pre, pieces, end, widths, from, style);
      RowPipes(done, pieces[1..], cells[1..], end, widths, from + 1, style);
      GridStep(pre + (Closed(pieces) + end), |pre|, |done| - 1, widths, from, from + |pieces|, style);
    }
  }

  lemma PieceAdds(pre: string, piece: string, style: Style)
    requires IsAdditive(style) && NoTabs(pre) && NoTabs(piece)
    ensures style.width(pre + piece) == style.width(pre) + style.width(piece)
    ensures style.width(pre + piece + "|") == style.width(pre) + style.width(piece) + 1 && NoTabs(pre + piece + "|")
  {
    assert NoTabs("|");
    Adds(pre, piece, style);
    Adds(pre + piece, "|", style);
  }

  /** The delimiter pipes of a line of fitting pieces whose end has none. */
  lemma LinePipes(pieces: seq<string>, cells: seq<string>, end: string, widths: seq<nat>, style: Style)
    requires IsAdditive(style) && FitFrom(pieces, cells, widths, 0, style) && Seek(end, 0, None).AtEnd?
    ensures |pieces| <= |widths|
    ensures PipeColumns("|" + (Closed(pieces) + end), style) == GridColumns(widths)[..|pieces| + 1]
  {
    hide Frames, Fills, Closed, Pipes, Seek, FitFrom, IsAdditive, PipeColumns, GridColumns, OnGrid;
    var rest := Closed(pieces) + end;
    FitsAtMost(pieces, cells, widths, style);
    FirstPipe(rest, style);
    RowPipes("|", pieces, cells, end, widths, 0, style);
    GridFromFirst("|" + rest, widths, |pieces|, style);
  }

  lemma FirstPipe(rest: string, style: Style)
    requires IsAdditive(style)
    ensures Pipes("|" + rest, 0) == [0] + Pipes("|" + rest, 1) && style.width(("|" + rest)[..0]) == 0
    ensures NoTabs("|") && style.width("|") == 1
  {
    hide Pipes, Seek;
    SeekPads([], 0, None);
    NextPipe([], [], rest);
    assert "|" + rest == [] + ([] + ("|" + rest)) && ("|" + rest)[..0] == [];
  }

  lemma GridFromFirst(line: string, widths: seq<nat>, to: nat, style: Style)
    requires line != [] && Pipes(line, 0) == [0] + Pipes(line, 1) && style.width(line[..0]) == 0
    requires to <= |widths| && OnGrid(line, 1, widths, 0, to, style)
    ensures PipeColumns(line, style) == GridColumns(widths)[..to + 1]
  {
    hide Pipes;
    forall n | 0 <= n <= to ensures PipeColumns(line, style)[n] == GridColumns(widths)[n] {
      if 0 < n { assert Pipes(line, 0)[n] == Pipes(line, 1)[n - 1]; }
    }
  }

  lemma FitsAtMost(pieces: seq<string>, cells: seq<string>, widths: seq<nat>, style: Style)
    requires FitFrom(pieces, cells, widths, 0, style)
    ensures |pieces| <= |widths|
  {
  }

  lemma AssembledPipes(pieces: seq<string>, cells: seq<string>, widths: seq<nat>, style: Style)
    requires IsAdditive(style) && FitFrom(pieces, cells, widths, 0, style) && |pieces| == |widths|
    ensures PipeColumns(Assemble(pieces), style) == GridColumns(widths)
  {
    hide FitFrom, Closed, PipeColumns, GridColumns, Seek;
    SeekPads([], 0, None);
    assert Closed(pieces) + [] == Closed(pieces);
    LinePipes(pieces, cells, [], widths, style);
    assert GridColumns(widths)[..|pieces| + 1] == GridColumns(widths);
  }

  ghost predicate HasNoTabs(t: Table) {
    forall k, c :: 0 <= k < |DataRows(t)| && 0 <= c < |DataRows(t)[k]| ==> NoTabs(DataRows(t)[k][c])
  }

  lemma ClosedRowPipes(t: Table, k: nat, style: Style)
    requires IsAdditive(style) && k < |DataRows(t)| && AllGood(DataRows(t)[k]) && HasNoTabs(t)
    ensures PipeColumns(DataRow(t, DataRows(t)[k], style), style) == GridColumns(Widths(t, style))
  {
    var cells, widths, alignments := DataRows(t)[k], Widths(t, style), Alignments(t, style);
    RowFits(t, k);
    SeekPads([], 0, None);
    var pieces, padded := DataPieces(cells, widths, alignments, style), PadTo(cells, Columns(t));
    forall c | 0 <= c < |widths| ensures Frames(pieces[c], padded[c]) && Fills(pieces[c], widths[c], style) {
      DataPieceFits(t, k, c, style);
    }
    hide DataPieces, PadTo, Widths, Alignments, Frames, Fills;
    AssembledPipes(pieces, padded, widths, style);
  }

  /** A row that ends inside a code span has its pipes on the grid up to the cell that is open. */
  lemma OpenRowPipes(t: Table, k: nat, style: Style)
    requires IsAdditive(style) && k < |DataRows(t)| && IsOpenRow(DataRows(t)[k]) && HasNoTabs(t)
    ensures |DataRows(t)[k]| <= Columns(t)
    ensures PipeColumns(DataRow(t, DataRows(t)[k], style), style) == GridColumns(Widths(t, style))[..|DataRows(t)[k]|]
  {
    hide Columns, AllGood, Seek, Trim, Frames, Fills, Closed, DataPieces, PipeColumns, GridColumns, HasNoTabs, WidthOf,
      AlignmentOf;
    var cells, widths, alignments := DataRows(t)[k], Widths(t, style), Alignments(t, style);
    RowFits(t, k);
    var pieces, n := DataPieces(cells, widths, alignments, style), |cells| - 1;
    forall c | 0 <= c < n ensures Frames(pieces[..n][c], cells[..n][c]) && Fills(pieces[..n][c], widths[c], style) {
      GoodBefore(cells, c);
      DataPieceFits(t, k, c, style);
    }
    var left, fill := OpenTail(cells, widths, alignments, style);
    LastIsOpen(cells);
    OpenEnd(left, cells[n], fill);
    assert pieces == pieces[..n] + pieces[n..];
    ClosedConcat(pieces[..n], pieces[n..]);
    LinePipes(pieces[..n], cells[..n], left + cells[n] + fill, widths, style);
  }

  lemma LastIsOpen(cells: seq<string>)
    requires IsOpenRow(cells)
    ensures IsOpenRow([cells[|cells| - 1]])
  {
    hide Seek, IsTrimmed;
    assert [cells[|cells| - 1]][..0] == [];
  }

  lemma GoodBefore(cells: seq<string>, c: nat)
    requires IsOpenRow(cells) && c < |cells| - 1
    ensures IsGoodCell(CellAt(cells, c)) && CellAt(cells, c) == cells[c]
  {
    assert cells[..|cells| - 1][c] == cells[c];
  }

  lemma DataPieceFits(t: Table, k: nat, c: nat, style: Style)
    requires IsAdditive(style) && k < |DataRows(t)| && c < Columns(t) && HasNoTabs(t)
    requires IsGoodCell(CellAt(DataRows(t)[k], c))
    ensures var piece := DataPieces(DataRows(t)[k], Widths(t, style), Alignments(t, style), style)[c];
      Frames(piece, CellAt(DataRows(t)[k], c)) && Fills(piece, Widths(t, style)[c], style)
  {
    hide Frames, Fills, Columns, Trim, PadCell, AlignmentOf, ContentWidth, Seek;
    var cell, width := CellAt(DataRows(t)[k], c), Widths(t, style)[c];
    TrimmedStays(cell);
    if c < |DataRows(t)[k]| { ContentIsWidest(DataRows(t), k, c, style); }
    DataPieceFrames(cell, width, Alignments(t, style)[c], style);
    PaddedFills(cell, width, Alignments(t, style)[c], style);
  }

  lemma WidthsAtLeast(t: Table, c: nat, style: Style)
    requires c < Columns(t)
    ensures SeparatorFloor(Alignments(t, style)[c], style) <= Widths(t, style)[c]
  {
    hide AlignmentOf, ContentWidth;
  }

  lemma SeparatorPiece(width: nat, alignment: Alignment, style: Style)
    requires IsAdditive(style) && SeparatorFloor(alignment, style) <= width
    ensures var piece := " " + SeparatorCell(width, alignment, style) + " ";
      Frames(piece, SeparatorCell(width, alignment, style)) && Fills(piece, width, style)
  {
    hide Frames, Fills;
    var cell := SeparatorCell(width, alignment, style);
    SeparatorCellReads(width, alignment, style);
    PadIsFrame([], cell, []);
    assert " " + ([] + cell + []) + " " == " " + cell + " ";
    SeparatorFills(width, alignment, style);
  }

  lemma SeparatorPipes(t: Table, style: Style)
    requires IsAdditive(style)
    ensures PipeColumns(SeparatorRow(t, style), style) == GridColumns(Widths(t, style))
  {
    var widths, alignments := Widths(t, style), Alignments(t, style);
    var pieces := SeparatorPieces(widths, alignments, style);
    var cells := seq(|widths|, c requires 0 <= c < |widths| => SeparatorCell(widths[c], alignments[c], style));
    forall c | 0 <= c < |cells| ensures Frames(pieces[c], cells[c]) && Fills(pieces[c], widths[c], style) {
      WidthsAtLeast(t, c, style);
      SeparatorPiece(widths[c], alignments[c], style);
    }
    hide SeparatorPieces, Frames, Fills, Widths, Alignments;
    AssembledPipes(pieces, cells, widths, style);
  }

  lemma TableLines(lines: seq<string>, style: Style)
    requires ParseTable(lines).Some?
    ensures |lines| >= 2 && |DataRows(ParseTable(lines).value)| == |lines| - 1
    ensures |Render(ParseTable(lines).value, style)| == |lines|
    ensures ParseSeparator(Cells(lines[1])).Some?
  {
    hide Cells, ParseSeparator;
  }

  /** The delimiter pipes of every line of a formatted table stand on one grid: all of it for a line that
      ends outside a code span, and otherwise the part before the cell that is open. */
  lemma PipesLineUp(lines: seq<string>, style: Style)
    requires IsAdditive(style) && ParseTable(lines).Some? && HasNoTabs(ParseTable(lines).value)
    ensures FormatTable(lines, style).Some? && |FormatTable(lines, style).value| == |lines|
    ensures var grid := GridColumns(Widths(ParseTable(lines).value, style));
      forall k :: 0 <= k < |lines| ==>
        var columns := PipeColumns(FormatTable(lines, style).value[k], style);
        && columns <= grid
        && (columns == grid <==> EndSpan(lines[k], 0) == None)
        && (EndSpan(lines[k], 0).Some? ==> |columns| == |Cells(lines[k])|)
  {
    hide Cells, EndSpan, PipeColumns, GridColumns, Widths, DataRow, SeparatorRow, ParseTable, HasNoTabs, IsOpenRow,
      AllGood;
    ParsedIsFormatted(lines, style);
    TableLines(lines, style);
    var t := ParseTable(lines).value;
    var out, grid := Render(t, style), GridColumns(Widths(t, style));
    SeparatorPipes(t, style);
    SeparatorIsClosed(lines[1]);
    forall k | 0 <= k < |lines|
      ensures EndSpan(lines[k], 0).None? ==> PipeColumns(out[k], style) == grid
      ensures EndSpan(lines[k], 0).Some? ==> |Cells(lines[k])| < |grid|
      ensures EndSpan(lines[k], 0).Some? ==> PipeColumns(out[k], style) == grid[..|Cells(lines[k])|]
    {
      if k != 1 {
        var row := if k == 0 then 0 else k - 1;
        RenderedLine(t, style, row);
        RowsAreCells(lines, row);
        CellsAreGood(lines[k]);
        if EndSpan(lines[k], 0).Some? { OpenRowPipes(t, row, style); } else { ClosedRowPipes(t, row, style); }
      }
    }
  }

  /** What separator cells look like: dashes, with a colon before them for left, after them for right, and on
      both sides for centred columns. */
  lemma SeparatorCellShapes(source: string)
    ensures var cell, n := Trim(source), |Trim(source)|;
      && (ParseSeparatorCell(source) == Some(Default) <==> n >= 1 && AllDashes(cell))
      && (ParseSeparatorCell(source) == Some(Left) <==> n >= 2 && cell[0] == ':' && AllDashes(cell[1..]))
      && (ParseSeparatorCell(source) == Some(Right) <==> n >= 2 && cell[n - 1] == ':' && AllDashes(cell[..n - 1]))
      && (ParseSeparatorCell(source) == Some(Center) <==>
            n >= 3 && cell[0] == cell[n - 1] == ':' && AllDashes(cell[1..n - 1]))
  {
    hide Trim;
    var cell, n := Trim(source), |Trim(source)|;
    if n >= 1 {
      assert cell[0..n] == cell && cell[0..n - 1] == cell[..n - 1] && cell[1..n] == cell[1..];
      DashesHaveNoColon(cell);
      DashesHaveNoColon(cell[1..]);
      DashesHaveNoColon(cell[..n - 1]);
    }
  }

  lemma DashesHaveNoColon(s: string)
    ensures AllDashes(s) && s != [] ==> s[0] != ':' && s[|s| - 1] != ':'
  {
  }

  lemma {:induction false} EachIsParsed(cells: seq<string>, k: nat)
    requires ParseEach(cells).Some? && k < |cells|
    ensures |ParseEach(cells).value| == |cells| && ParseSeparatorCell(cells[k]) == Some(ParseEach(cells).value[k])
  {
    hide ParseSeparatorCell;
    EachLength(cells);
    if 0 < k { EachIsParsed(cells[1..], k - 1); }
  }

  /** There are body lines, and all have a number in this column. */
  predicate HasNumbersIn(lines: seq<string>, column: nat, style: Style) {
    |lines| > 2
    && forall k :: 2 <= k < |lines| ==>
      column < |Cells(lines[k])| && style.numeric(Trim(Cells(lines[k])[column]))
  }

  /** The separator of the formatted table says, for each column, what the given one said, and where that said
      nothing, that numbers go to the right if that is to be inferred. */
  lemma AlignmentReadsBack(lines: seq<string>, style: Style, column: nat)
    requires ParseTable(lines).Some? && column < Columns(ParseTable(lines).value)
    ensures FormatTable(lines, style).Some? && |FormatTable(lines, style).value| == |lines| >= 2
    ensures var given, written := Cells(lines[1]), Cells(FormatTable(lines, style).value[1]);
      && |written| == Columns(ParseTable(lines).value)
      && (column < |given| ==> ParseSeparatorCell(given[column]).Some?)
      && ParseSeparatorCell(written[column])
        == (if column < |given| && ParseSeparatorCell(given[column]) != Some(Default) then
              ParseSeparatorCell(given[column])
            else if style.inferNumeric && HasNumbersIn(lines, column, style) then Some(Right)
            else Some(Default))
  {
    hide Cells, ParseSeparatorCell, ParseEach, Widths, SeparatorPieces, Columns, Trim;
    ParsedIsFormatted(lines, style);
    TableLines(lines, style);
    var t := ParseTable(lines).value;
    SeparatorRowReads(t, style);
    EachLength(Cells(SeparatorRow(t, style)));
    EachIsParsed(Cells(SeparatorRow(t, style)), column);
    if column < |Cells(lines[1])| { EachIsParsed(Cells(lines[1]), column); }
    SeparatorLength(lines);
    forall k | 0 <= k < |t.rows| ensures t.rows[k] == Cells(lines[k + 2]) { assert lines[2..][k] == lines[k + 2]; }
    NumbersAreSeen(lines, t, column, style);
  }

  lemma SeparatorLength(lines: seq<string>)
    requires ParseTable(lines).Some?
    ensures |ParseTable(lines).value.separator| == |Cells(lines[1])|
  {
    hide Cells;
    EachLength(Cells(lines[1]));
    hide ParseEach;
  }

  lemma NumbersAreSeen(lines: seq<string>, t: Table, column: nat, style: Style)
    requires |lines| == |t.rows| + 2 && forall k :: 0 <= k < |t.rows| ==> t.rows[k] == Cells(lines[k + 2])
    ensures IsNumericColumn(t.rows, column, style) <==> HasNumbersIn(lines, column, style)
  {
    hide Cells, Trim;
    if IsNumericColumn(t.rows, column, style) {
      forall k | 2 <= k < |lines| ensures column < |Cells(lines[k])| && style.numeric(Trim(Cells(lines[k])[column])) {
        assert t.rows[k - 2] == Cells(lines[k - 2 + 2]);
      }
    }
    if HasNumbersIn(lines, column, style) {
      forall k | 0 <= k < |t.rows| ensures column < |t.rows[k]| && style.numeric(Trim(t.rows[k][column])) {
        assert t.rows[k] == Cells(lines[k + 2]);
      }
    }
  }

  /** Every other line of the formatted table has its cells in their columns, with the padding on the sides
      that the written separator says. */
  lemma CellsStandWhereAligned(lines: seq<string>, style: Style, k: nat, column: nat)
    returns (pieces: seq<string>, before: nat, after: nat)
    requires ParseTable(lines).Some? && k < |lines| && k != 1 && column < Columns(ParseTable(lines).value)
    ensures FormatTable(lines, style).Some? && |FormatTable(lines, style).value| == |lines| >= 2
    ensures |pieces| == Columns(ParseTable(lines).value) && FormatTable(lines, style).value[k] == Assemble(pieces)
    ensures var cell := CellAt(Cells(lines[k]), column);
      pieces[column] == " " + (Repeat(' ', before) + Trim(cell) + Repeat(' ', after)) + " "
    ensures var written := Cells(FormatTable(lines, style).value[1]);
      && column < |written| && ParseSeparatorCell(written[column]).Some?
      && match ParseSeparatorCell(written[column]).value
         case Right => after == 0
         case Center => before <= after <= before + 1
         case _ => before == 0
  {
    hide Cells, ParseSeparatorCell, ParseEach, SeparatorPieces, Columns, Trim, PadCell, ParseTable;
    ParsedIsFormatted(lines, style);
    TableLines(lines, style);
    var t := ParseTable(lines).value;
    var row := if k == 0 then 0 else k - 1;
    RowsAreCells(lines, row);
    RenderedLine(t, style, row);
    SeparatorRowReads(t, style);
    EachLength(Cells(SeparatorRow(t, style)));
    EachIsParsed(Cells(SeparatorRow(t, style)), column);
    var cells, widths, alignments := Cells(lines[k]), Widths(t, style), Alignments(t, style);
    pieces := DataPieces(cells, widths, alignments, style);
    before, after := PaddingIsPlaced(Trim(CellAt(cells, column)), widths[column], alignments[column], style);
  }
}
