/** Formatting one pipe table: columns, inferred alignments, widths, padding. How wide a text is and
    whether it reads as a number are measures given from outside. */
module TableFormat {
  import opened Wrappers
  import opened TableScanner

  datatype Alignment = Default | Left | Center | Right

  datatype Style = Style(width: string -> nat, numeric: string -> bool, inferNumeric: bool, minSeparatorWidth: nat)

  /** Nothing is no wider than nothing, and not a number. */
  predicate IsSane(style: Style) {
    style.width([]) == 0 && !style.numeric([])
  }

  datatype Table = Table(header: seq<string>, separator: seq<Alignment>, rows: seq<seq<string>>)

  function Repeat(c: char, n: nat): string {
    seq(n, _ => c)
  }

  function Max(a: nat, b: nat): nat {
    if a < b then b else a
  }

  predicate AllDashes(s: string) {
    forall k :: 0 <= k < |s| ==> s[k] == '-'
  }

  function ParseSeparatorCell(source: string): Option<Alignment> {
    var cell := Trim(source);
    if cell == [] then None
    else
      var left, right := cell[0] == ':', cell[|cell| - 1] == ':';
      var start, end := if left then 1 else 0, if right then |cell| - 1 else |cell|;
      if start >= end || !AllDashes(cell[start..end]) then None
      else if left && right then Some(Center)
      else if left then Some(Left)
      else if right then Some(Right)
      else Some(Default)
  }

  function ParseEach(cells: seq<string>): Option<seq<Alignment>> {
    if cells == [] then Some([])
    else
      match (ParseSeparatorCell(cells[0]), ParseEach(cells[1..]))
      case (Some(first), Some(rest)) => Some([first] + rest)
      case _ => None
  }

  function ParseSeparator(cells: seq<string>): Option<seq<Alignment>> {
    if cells == [] then None else ParseEach(cells)
  }

  function ParseTable(lines: seq<string>): Option<Table> {
    if |lines| < 2 then None
    else
      match ParseSeparator(Cells(lines[1]))
      case None => None
      case Some(separator) => Some(Table(Cells(lines[0]), separator, CellsOfEach(lines[2..])))
  }

  function CellsOfEach(lines: seq<string>): (r: seq<seq<string>>)
    ensures |r| == |lines| && forall k :: 0 <= k < |r| ==> r[k] == Cells(lines[k])
  {
    seq(|lines|, k requires 0 <= k < |lines| => Cells(lines[k]))
  }

  function LongestRow(rows: seq<seq<string>>): (n: nat)
    ensures forall k :: 0 <= k < |rows| ==> |rows[k]| <= n
    ensures n == 0 || exists k :: 0 <= k < |rows| && |rows[k]| == n
  {
    if rows == [] then 0
    else
      var n := LongestRow(rows[1..]);
      assert forall k :: 1 <= k < |rows| ==> rows[k] == rows[1..][k - 1];
      if n <= |rows[0]| then |rows[0]|
      else
        assert exists k :: 0 <= k < |rows[1..]| && |rows[1..][k]| == n && |rows[k + 1]| == n;
        n
  }

  function Columns(t: Table): nat {
    Max(LongestRow(t.rows), Max(|t.header|, |t.separator|))
  }

  function CellAt(cells: seq<string>, column: nat): string {
    if column < |cells| then cells[column] else []
  }

  /** Every row has a number in this column, and there is at least one row. */
  predicate IsNumericColumn(rows: seq<seq<string>>, column: nat, style: Style) {
    rows != [] && forall k :: 0 <= k < |rows| ==> column < |rows[k]| && style.numeric(Trim(rows[k][column]))
  }

  function AlignmentOf(t: Table, column: nat, style: Style): Alignment {
    var alignment := if column < |t.separator| then t.separator[column] else Default;
    if alignment == Default && style.inferNumeric && IsNumericColumn(t.rows, column, style) then Right else alignment
  }

  function Alignments(t: Table, style: Style): (r: seq<Alignment>)
    ensures |r| == Columns(t)
  {
    seq(Columns(t), c requires c >= 0 => AlignmentOf(t, c, style))
  }

  function ContentWidth(rows: seq<seq<string>>, column: nat, style: Style): nat {
    if rows == [] then 0
    else
      Max(if column < |rows[0]| then style.width(Trim(rows[0][column])) else 0, ContentWidth(rows[1..], column, style))
  }

  function MinHyphens(style: Style): nat {
    Max(style.minSeparatorWidth, 3)
  }

  function SeparatorFloor(alignment: Alignment, style: Style): nat {
    MinHyphens(style) + match alignment case Default => 0 case Center => 2 case _ => 1
  }

  function WidthOf(t: Table, column: nat, style: Style): nat {
    Max(ContentWidth([t.header] + t.rows, column, style), SeparatorFloor(AlignmentOf(t, column, style), style))
  }

  function Widths(t: Table, style: Style): (r: seq<nat>)
    ensures |r| == Columns(t)
  {
    seq(Columns(t), c requires c >= 0 => WidthOf(t, c, style))
  }

  function PadCell(cell: string, width: nat, alignment: Alignment, style: Style): string {
    var cellWidth := style.width(cell);
    var padding := if cellWidth <= width then width - cellWidth else 0;
    match alignment
    case Right => Repeat(' ', padding) + cell + []
    case Center => Repeat(' ', padding / 2) + cell + Repeat(' ', padding - padding / 2)
    case _ => [] + cell + Repeat(' ', padding)
  }

  function SeparatorCell(width: nat, alignment: Alignment, style: Style): string {
    var min := MinHyphens(style);
    match alignment
    case Default => Repeat('-', Max(width, min))
    case Left => ":" + Repeat('-', Max(if 1 <= width then width - 1 else 0, min))
    case Center => ":" + Repeat('-', Max(if 2 <= width then width - 2 else 0, min)) + ":"
    case Right => Repeat('-', Max(if 1 <= width then width - 1 else 0, min)) + ":"
  }

  /** A row from its pieces: a pipe before the first and after each. */
  function Assemble(pieces: seq<string>): string {
    "|" + Closed(pieces)
  }

  function Closed(pieces: seq<string>): string {
    if pieces == [] then [] else pieces[0] + "|" + Closed(pieces[1..])
  }

  function DataPieces(cells: seq<string>, widths: seq<nat>, alignments: seq<Alignment>, style: Style): (r: seq<string>)
    requires |widths| == |alignments|
    ensures |r| == |widths|
  {
    seq(|widths|, c requires 0 <= c < |widths| =>
      " " + PadCell(Trim(CellAt(cells, c)), widths[c], alignments[c], style) + " ")
  }

  function SeparatorPieces(widths: seq<nat>, alignments: seq<Alignment>, style: Style): (r: seq<string>)
    requires |widths| == |alignments|
    ensures |r| == |widths|
  {
    seq(|widths|, c requires 0 <= c < |widths| => " " + SeparatorCell(widths[c], alignments[c], style) + " ")
  }

  function DataRow(t: Table, cells: seq<string>, style: Style): string {
    Assemble(DataPieces(cells, Widths(t, style), Alignments(t, style), style))
  }

  function SeparatorRow(t: Table, style: Style): string {
    Assemble(SeparatorPieces(Widths(t, style), Alignments(t, style), style))
  }

  function Render(t: Table, style: Style): (lines: seq<string>)
    ensures |lines| == |t.rows| + 2
  {
    [DataRow(t, t.header, style), SeparatorRow(t, style)]
    + seq(|t.rows|, k requires 0 <= k < |t.rows| => DataRow(t, t.rows[k], style))
  }

  function FormatTable(lines: seq<string>, style: Style): Option<seq<string>> {
    match ParseTable(lines)
    case None => None
    case Some(t) => if Columns(t) == 0 then None else Some(Render(t, style))
  }

  datatype Mismatch = Mismatch(line: nat, actual: nat, expected: nat)

  /** The rows whose number of cells differs from the number of columns, as reported to the user. */
  function Mismatches(t: Table, base: nat): seq<Mismatch> {
    var n := Columns(t);
    (if |t.header| != n then [Mismatch(base, |t.header|, n)] else [])
    + (if |t.separator| != n then [Mismatch(base + 1, |t.separator|, n)] else [])
    + RowMismatches(t.rows, n, base + 2)
  }

  function RowMismatches(rows: seq<seq<string>>, n: nat, base: nat): seq<Mismatch> {
    if rows == [] then []
    else (if |rows[0]| != n then [Mismatch(base, |rows[0]|, n)] else []) + RowMismatches(rows[1..], n, base + 1)
  }

  /** A piece that scans by itself and reads as the cell. */
  predicate Frames(piece: string, cell: string) {
    piece != [] && piece[|piece| - 1] == ' ' && Trim(piece) == cell && IsPlain(piece)
  }

  predicate IsGoodCell(cell: string) {
    IsTrimmed(cell) && IsPlain(cell)
  }

  lemma {:induction false} PiecesAfter(pre: string, rest: string, start: nat)
    requires !EndsInBackslash(pre) && start <= |rest|
    ensures Pieces(pre + rest, |pre| + start) == Pieces(rest, start)
    ensures EndSpan(pre + rest, |pre| + start) == EndSpan(rest, start)
    decreases |rest| - start
  {
    hide EndsInBackslash, Seek, IsDelimiter, IsEscaped, Pieces, EndSpan;
    SeekAfter(pre, rest, start, None);
    var line, from, stop := pre + rest, |pre| + start, Seek(rest, start, None);
    NextPiece(line, from);
    NextPiece(rest, start);
    if stop.AtPipe? {
      assert line[from..|pre| + stop.index] == rest[start..stop.index];
      PiecesAfter(pre, rest, stop.index + 1);
    } else {
      assert line[from..] == rest[start..];
    }
  }

  lemma NextPiece(line: string, start: nat)
    requires start <= |line|
    ensures var stop := Seek(line, start, None);
      if stop.AtPipe? then
        && Pieces(line, start) == [line[start..stop.index]] + Pieces(line, stop.index + 1)
        && EndSpan(line, start) == EndSpan(line, stop.index + 1)
      else
        Pieces(line, start) == [line[start..]] && EndSpan(line, start) == stop.span
  {
    hide Seek, IsEscaped;
  }

  /** A plain piece followed by a pipe is the first piece of the line. */
  lemma PlainThenPipe(piece: string, tail: string)
    requires IsPlain(piece) && !EndsInBackslash(piece)
    ensures var line := piece + "|" + tail;
      && Pieces(line, 0) == [piece] + Pieces(tail, 0)
      && EndSpan(line, 0) == EndSpan(tail, 0)
  {
    hide Pieces, EndSpan, Ticks;
    var line := piece + "|" + tail;
    assert line == piece + ("|" + tail);
    StopsAtPipe(piece, tail);
    NextPiece(line, 0);
    assert line == (piece + "|") + tail && line[0..|piece|] == piece;
    PiecesAfter(piece + "|", tail, 0);
  }

  lemma StopsAtPipe(piece: string, tail: string)
    requires IsPlain(piece) && !EndsInBackslash(piece)
    ensures Seek(piece + ("|" + tail), 0, None) == AtPipe(|piece|)
  {
    var line := piece + ("|" + tail);
    SeekThrough(piece, "|" + tail, 0, None);
    BackslashesAfter(piece, "|" + tail, 0);
    hide Backslashes, EndsInBackslash;
    assert IsDelimiter(line, |piece|, None);
  }

  lemma {:induction false} ClosedPieces(pieces: seq<string>, cells: seq<string>)
    requires |pieces| == |cells| && forall k :: 0 <= k < |pieces| ==> Frames(pieces[k], cells[k])
    ensures Pieces(Closed(pieces), 0) == pieces + [[]]
    ensures EndSpan(Closed(pieces), 0) == None
  {
    if pieces != [] {
      assert Frames(pieces[0], cells[0]);
      PlainThenPipe(pieces[0], Closed(pieces[1..]));
      ClosedPieces(pieces[1..], cells[1..]);
      assert [pieces[0]] + (pieces[1..] + [[]]) == pieces + [[]];
    }
  }

  lemma {:induction false} ClosedEnd(pieces: seq<string>)
    requires pieces != [] && forall k :: 0 <= k < |pieces| ==> pieces[k] != [] && pieces[k][|pieces[k]| - 1] == ' '
    ensures var s := Closed(pieces); |s| >= 2 && s[|s| - 1] == '|' && s[|s| - 2] == ' '
  {
    if |pieces| > 1 {
      ClosedEnd(pieces[1..]);
    } else {
      assert Closed(pieces[1..]) == [];
      assert Closed(pieces) == pieces[0] + "|";
    }
  }

  /** Boundary pipes of an assembled row are seen as such. */
  lemma AssembledBoundaries(pieces: seq<string>)
    requires pieces != [] && forall k :: 0 <= k < |pieces| ==> pieces[k] != [] && pieces[k][|pieces[k]| - 1] == ' '
    ensures HasLeadingPipe(Assemble(pieces)) && HasTrailingPipe(Assemble(pieces))
  {
    var line := Assemble(pieces);
    ClosedEnd(pieces);
    assert TrimLeft(line) == line && TrimRight(line) == line;
    assert Backslashes(line, |line| - 1) == 0;
  }

  /** Reading an assembled row gives back its cells. */
  lemma AssembledCells(pieces: seq<string>, cells: seq<string>)
    requires pieces != [] && |pieces| == |cells|
    requires forall k :: 0 <= k < |pieces| ==> Frames(pieces[k], cells[k])
    ensures Cells(Assemble(pieces)) == cells && EndSpan(Assemble(pieces), 0) == None
  {
    hide Seek, Pieces, EndSpan, HasLeadingPipe, HasTrailingPipe, Trim, Closed;
    var line := Assemble(pieces);
    assert line == [] + "|" + Closed(pieces);
    SeekPads([], 0, None);
    PlainThenPipe([], Closed(pieces));
    ClosedPieces(pieces, cells);
    AssembledBoundaries(pieces);
    FramedCells(pieces, cells);
    var raw := TrimAll(Pieces(line, 0));
    assert raw[1..] == cells + [[]];
  }

  lemma FramedCells(pieces: seq<string>, cells: seq<string>)
    requires |pieces| == |cells|
    requires forall k :: 0 <= k < |pieces| ==> Frames(pieces[k], cells[k])
    ensures TrimAll([[]] + (pieces + [[]])) == [[]] + cells + [[]]
  {
    var raw := TrimAll([[]] + (pieces + [[]]));
    TrimmedStays([]);
    hide Trim;
    forall k | 0 <= k < |cells| ensures raw[k + 1] == cells[k] { assert Frames(pieces[k], cells[k]); }
  }

  lemma PadIsFrame(left: string, cell: string, right: string)
    requires AllPads(left) && AllPads(right) && IsGoodCell(cell)
    ensures Frames(" " + (left + cell + right) + " ", cell)
  {
    var piece := " " + (left + cell + right) + " ";
    assert piece == (" " + left) + cell + (right + " ");
    TrimPadded(" " + left, cell, right + " ");
    SeekPadded(" " + left, cell, right + " ");
  }

  lemma DataPieceFrames(cell: string, width: nat, alignment: Alignment, style: Style)
    requires IsGoodCell(cell)
    ensures Frames(" " + PadCell(cell, width, alignment, style) + " ", cell)
  {
    var cellWidth := style.width(cell);
    var padding := if cellWidth <= width then width - cellWidth else 0;
    PadIsFrame(Repeat(' ', padding), cell, []);
    PadIsFrame([], cell, Repeat(' ', padding));
    PadIsFrame(Repeat(' ', padding / 2), cell, Repeat(' ', padding - padding / 2));
    hide Frames;
  }

  lemma {:induction false} SeekMarks(s: string, i: nat)
    requires i <= |s| && forall k :: 0 <= k < |s| ==> s[k] == '-' || s[k] == ':'
    ensures Seek(s, i, None) == AtEnd(None)
    decreases |s| - i
  {
    if i < |s| { SeekMarks(s, i + 1); }
  }

  lemma TrimmedStays(s: string)
    requires IsTrimmed(s)
    ensures Trim(s) == s
  {
  }

  lemma SeparatorCellReads(width: nat, alignment: Alignment, style: Style)
    ensures IsGoodCell(SeparatorCell(width, alignment, style))
    ensures ParseSeparatorCell(SeparatorCell(width, alignment, style)) == Some(alignment)
  {
    var s := SeparatorCell(width, alignment, style);
    SeekMarks(s, 0);
    TrimmedStays(s);
    var start, end := if s[0] == ':' then 1 else 0, if s[|s| - 1] == ':' then |s| - 1 else |s|;
    assert AllDashes(s[start..end]);
  }

  /** The table the formatter's output stands for: every row has all columns and the alignments are
      explicit. */
  function Squared(t: Table, style: Style): Table {
    Table(PadTo(t.header, Columns(t)), Alignments(t, style),
          seq(|t.rows|, k requires 0 <= k < |t.rows| => PadTo(t.rows[k], Columns(t))))
  }

  function PadTo(cells: seq<string>, n: nat): (r: seq<string>)
    ensures |r| >= n && (|cells| <= n ==> |r| == n)
    ensures forall c: nat :: CellAt(r, c) == CellAt(cells, c)
  {
    if n <= |cells| then cells else cells + seq(n - |cells|, _ => [])
  }

  predicate AllGood(cells: seq<string>) {
    forall k :: 0 <= k < |cells| ==> IsGoodCell(cells[k])
  }

  ghost predicate IsGoodTable(t: Table) {
    AllGood(t.header) && forall k :: 0 <= k < |t.rows| ==> AllGood(t.rows[k])
  }

  lemma DataRowReads(t: Table, cells: seq<string>, style: Style)
    requires AllGood(cells) && |cells| <= Columns(t) && 0 < Columns(t)
    ensures Cells(DataRow(t, cells, style)) == PadTo(cells, Columns(t))
    ensures EndSpan(DataRow(t, cells, style), 0) == None
  {
    var widths, alignments := Widths(t, style), Alignments(t, style);
    var pieces, padded := DataPieces(cells, widths, alignments, style), PadTo(cells, Columns(t));
    forall k | 0 <= k < |pieces| ensures Frames(pieces[k], padded[k]) {
      var cell := CellAt(cells, k);
      assert padded[k] == CellAt(padded, k) == cell;
      assert IsGoodCell(cell);
      TrimmedStays(cell);
      DataPieceFrames(cell, widths[k], alignments[k], style);
    }
    hide DataPieces, Frames, PadTo, Widths, Alignments;
    AssembledCells(pieces, padded);
  }

  lemma {:induction false} ParseEachReads(cells: seq<string>, alignments: seq<Alignment>)
    requires |cells| == |alignments|
    requires forall k :: 0 <= k < |cells| ==> ParseSeparatorCell(cells[k]) == Some(alignments[k])
    ensures ParseEach(cells) == Some(alignments)
  {
    hide ParseSeparatorCell;
    if cells != [] {
      ParseEachReads(cells[1..], alignments[1..]);
      assert ParseSeparatorCell(cells[0]) == Some(alignments[0]);
      assert [alignments[0]] + alignments[1..] == alignments;
    } else {
      assert alignments == [];
    }
  }

  lemma SeparatorRowReads(t: Table, style: Style)
    requires 0 < Columns(t)
    ensures ParseSeparator(Cells(SeparatorRow(t, style))) == Some(Alignments(t, style))
  {
    var widths, alignments := Widths(t, style), Alignments(t, style);
    var pieces := SeparatorPieces(widths, alignments, style);
    var cells := seq(|widths|, c requires 0 <= c < |widths| => SeparatorCell(widths[c], alignments[c], style));
    forall k | 0 <= k < |cells|
      ensures Frames(pieces[k], cells[k]) && ParseSeparatorCell(cells[k]) == Some(alignments[k])
    {
      SeparatorCellReads(widths[k], alignments[k], style);
      PadIsFrame([], cells[k], []);
      assert " " + ([] + cells[k] + []) + " " == pieces[k];
    }
    hide SeparatorPieces, Frames, Widths, Alignments, ParseSeparatorCell;
    AssembledCells(pieces, cells);
    ParseEachReads(cells, alignments);
  }

  /** Reading a rendered table gives the squared table. */
  lemma RenderReads(t: Table, style: Style)
    requires IsGoodTable(t) && 0 < Columns(t)
    ensures ParseTable(Render(t, style)) == Some(Squared(t, style))
  {
    var lines, s := Render(t, style), Squared(t, style);
    DataRowReads(t, t.header, style);
    SeparatorRowReads(t, style);
    forall k | 0 <= k < |t.rows| ensures Cells(lines[2..][k]) == s.rows[k] {
      DataRowReads(t, t.rows[k], style);
    }
    assert CellsOfEach(lines[2..]) == s.rows;
  }

  lemma {:induction false} SameContentWidth(a: seq<seq<string>>, b: seq<seq<string>>, column: nat, style: Style)
    requires IsSane(style) && |a| == |b|
    requires forall k :: 0 <= k < |a| ==> CellAt(a[k], column) == CellAt(b[k], column)
    ensures ContentWidth(a, column, style) == ContentWidth(b, column, style)
  {
    if a != [] {
      assert Trim([]) == [];
      assert CellAt(a[0], column) == CellAt(b[0], column);
      SameContentWidth(a[1..], b[1..], column, style);
    }
  }

  lemma SquaredColumns(t: Table, style: Style)
    ensures Columns(Squared(t, style)) == Columns(t)
  {
    var s, n := Squared(t, style), Columns(t);
    assert |s.separator| == n;
    assert forall k :: 0 <= k < |s.rows| ==> |t.rows[k]| <= n && |s.rows[k]| == n;
  }

  /** Alignments and widths are inferred the same again. */
  lemma SquaredIsStable(t: Table, style: Style)
    requires IsSane(style)
    ensures Alignments(Squared(t, style), style) == Alignments(t, style)
    ensures Widths(Squared(t, style), style) == Widths(t, style)
  {
    var s, n := Squared(t, style), Columns(t);
    SquaredColumns(t, style);
    forall c: nat | c < n
      ensures AlignmentOf(s, c, style) == AlignmentOf(t, c, style) && WidthOf(s, c, style) == WidthOf(t, c, style)
    {
      AlignmentStays(t, c, style);
      var a, b := [t.header] + t.rows, [s.header] + s.rows;
      forall k | 0 <= k < |a| ensures CellAt(a[k], c) == CellAt(b[k], c) {
        if 0 < k { assert a[k] == t.rows[k - 1] && b[k] == s.rows[k - 1]; }
      }
      SameContentWidth(a, b, c, style);
    }
  }

  lemma AlignmentStays(t: Table, c: nat, style: Style)
    requires IsSane(style) && c < Columns(t)
    ensures AlignmentOf(Squared(t, style), c, style) == AlignmentOf(t, c, style)
  {
    var s := Squared(t, style);
    assert s.separator[c] == AlignmentOf(t, c, style);
    if AlignmentOf(t, c, style) == Default && style.inferNumeric && IsNumericColumn(s.rows, c, style) {
      assert Trim([]) == [];
      forall k | 0 <= k < |t.rows| ensures c < |t.rows[k]| && style.numeric(Trim(t.rows[k][c])) {
        assert s.rows[k] == PadTo(t.rows[k], Columns(t));
        assert CellAt(s.rows[k], c) == CellAt(t.rows[k], c);
        assert style.numeric(Trim(s.rows[k][c]));
      }
      assert IsNumericColumn(t.rows, c, style);
    }
  }

  lemma SamePieces(a: seq<string>, b: seq<string>, widths: seq<nat>, alignments: seq<Alignment>, style: Style)
    requires |widths| == |alignments| && forall c: nat :: CellAt(a, c) == CellAt(b, c)
    ensures DataPieces(a, widths, alignments, style) == DataPieces(b, widths, alignments, style)
  {
  }

  /** Rendering the squared table changes nothing. */
  lemma SquaredRendersTheSame(t: Table, style: Style)
    requires IsSane(style)
    ensures Render(Squared(t, style), style) == Render(t, style)
  {
    hide DataPieces, SeparatorPieces, Widths, Alignments, Assemble;
    var s := Squared(t, style);
    SquaredIsStable(t, style);
    SameRow(t, t.header, style);
    forall k | 0 <= k < |t.rows| ensures DataRow(s, s.rows[k], style) == DataRow(t, t.rows[k], style) {
      SameRow(t, t.rows[k], style);
    }
    assert Render(s, style)[2..] == Render(t, style)[2..];
  }

  lemma SameRow(t: Table, cells: seq<string>, style: Style)
    requires IsSane(style)
    ensures DataRow(Squared(t, style), PadTo(cells, Columns(t)), style) == DataRow(t, cells, style)
  {
    SquaredIsStable(t, style);
    hide DataPieces, Widths, Alignments, Assemble, Squared;
    SamePieces(PadTo(cells, Columns(t)), cells, Widths(t, style), Alignments(t, style), style);
  }

  lemma {:induction false} NoMismatches(rows: seq<seq<string>>, n: nat, base: nat)
    requires forall k :: 0 <= k < |rows| ==> |rows[k]| == n
    ensures RowMismatches(rows, n, base) == []
  {
    if rows != [] { NoMismatches(rows[1..], n, base + 1); }
  }

  /** The second pass has nothing to report. */
  lemma SquaredHasNoMismatches(t: Table, style: Style, base: nat)
    ensures Mismatches(Squared(t, style), base) == []
  {
    var s := Squared(t, style);
    SquaredColumns(t, style);
    NoMismatches(s.rows, Columns(t), base + 2);
  }

  /** Every piece but the last is plain, and the last one leaves `span` open. */
  predicate PiecesScanTo(pieces: seq<string>, span: Option<nat>) {
    && pieces != []
    && (forall k :: 0 <= k < |pieces| - 1 ==> IsPlain(pieces[k]))
    && Seek(pieces[|pieces| - 1], 0, None) == AtEnd(span)
  }

  lemma {:induction false} PiecesScan(line: string, start: nat)
    requires start <= |line| && (start == 0 || line[start - 1] == '|')
    ensures PiecesScanTo(Pieces(line, start), EndSpan(line, start))
    decreases |line| - start
  {
    FirstPieceScans(line, start);
    hide Seek, IsDelimiter, IsEscaped, IsPlain, PiecesScanTo;
    var stop := Seek(line, start, None);
    if stop.AtPipe? {
      PiecesScan(line, stop.index + 1);
      MorePieces(line[start..stop.index], Pieces(line, stop.index + 1), EndSpan(line, stop.index + 1));
    } else {
      LastPiece(line[start..], stop.span);
    }
  }

  lemma MorePieces(first: string, rest: seq<string>, span: Option<nat>)
    requires IsPlain(first) && PiecesScanTo(rest, span)
    ensures PiecesScanTo([first] + rest, span)
  {
    hide IsPlain;
  }

  lemma LastPiece(last: string, span: Option<nat>)
    requires Seek(last, 0, None) == AtEnd(span)
    ensures PiecesScanTo([last], span)
  {
    hide Seek;
  }

  lemma FirstPieceScans(line: string, start: nat)
    requires start <= |line| && (start == 0 || line[start - 1] == '|')
    ensures var stop := Seek(line, start, None);
      if stop.AtPipe? then IsPlain(line[start..stop.index]) else Seek(line[start..], 0, None) == stop
  {
    hide IsDelimiter, IsEscaped, Ticks;
    var pre, stop := line[..start], Seek(line, start, None);
    if stop.AtPipe? {
      PieceIsPlain(line, start, None);
      assert line[..stop.index] == pre + line[start..stop.index];
      SeekAfter(pre, line[start..stop.index], 0, None);
    } else {
      assert line == pre + line[start..];
      SeekAfter(pre, line[start..], 0, None);
    }
  }

  /** Cells whose last one leaves a code span open. */
  predicate IsOpenRow(cells: seq<string>) {
    && cells != []
    && AllGood(cells[..|cells| - 1])
    && IsTrimmed(cells[|cells| - 1])
    && Seek(cells[|cells| - 1], 0, None).AtEnd?
    && Seek(cells[|cells| - 1], 0, None).span.Some?
  }

  /** The pieces of a line that ends with `span` open. */
  predicate ScansTo(raw: seq<string>, span: Option<nat>) {
    && raw != []
    && AllGood(raw[..|raw| - 1])
    && IsTrimmed(raw[|raw| - 1])
    && Seek(raw[|raw| - 1], 0, None) == AtEnd(span)
  }

  lemma TrimmedPieces(line: string)
    ensures ScansTo(TrimAll(Pieces(line, 0)), EndSpan(line, 0))
  {
    var pieces := Pieces(line, 0);
    PiecesScan(line, 0);
    hide Pieces, Seek, EndSpan, Trim, IsTrimmed;
    forall k | 0 <= k < |pieces|
      ensures IsTrimmed(Trim(pieces[k])) && (IsPlain(pieces[k]) <==> IsPlain(Trim(pieces[k])))
      ensures Seek(pieces[k], 0, None).AtEnd? ==> Seek(Trim(pieces[k]), 0, None) == Seek(pieces[k], 0, None)
    {
      var left, right := TrimSplits(pieces[k]);
      TrimKeepsScan(pieces[k]);
    }
  }

  /** What a line's cells look like: all good if the line ends outside a code span, and otherwise all
      good but the last. */
  lemma CellsAreGood(line: string)
    ensures EndSpan(line, 0) == None ==> AllGood(Cells(line))
    ensures EndSpan(line, 0).Some? ==> IsOpenRow(Cells(line))
  {
    TrimmedPieces(line);
    hide Pieces, EndSpan, TrimAll, DropBoundaries;
    var raw := TrimAll(Pieces(line, 0));
    var a, b := KeptCells(line, raw);
    LastStays(raw, EndSpan(line, 0));
    KeptRow(raw, EndSpan(line, 0), a, b);
  }

  lemma LastStays(raw: seq<string>, span: Option<nat>)
    requires ScansTo(raw, span)
    ensures span.Some? ==> raw[|raw| - 1] != []
  {
    assert Seek([], 0, None) == AtEnd(None);
  }

  lemma KeptRow(raw: seq<string>, span: Option<nat>, a: nat, b: nat)
    requires ScansTo(raw, span) && a <= b <= |raw| && (span.Some? ==> a < b == |raw|)
    ensures if span.Some? then IsOpenRow(raw[a..b]) else AllGood(raw[a..b])
  {
    hide Seek, IsTrimmed;
    var last := |raw| - 1;
    assert forall k :: 0 <= k < last ==> raw[k] == raw[..last][k];
    if span.Some? {
      assert raw[a..b][..|raw[a..b]| - 1] == raw[..last][a..];
    } else {
      assert IsGoodCell(raw[last]);
    }
  }

  /** Only an empty first or last cell is dropped. */
  lemma KeptCells(line: string, raw: seq<string>) returns (a: nat, b: nat)
    requires raw != []
    ensures a <= b <= |raw| && DropBoundaries(line, raw) == raw[a..b]
    ensures raw[|raw| - 1] != [] ==> a < b == |raw|
  {
    hide HasLeadingPipe, HasTrailingPipe;
    a := if HasLeadingPipe(line) && raw[0] == [] then 1 else 0;
    b := if HasTrailingPipe(line) && a < |raw| && raw[|raw| - 1] == [] then |raw| - 1 else |raw|;
  }

  /** The whole row, up to where its code span opens, reads as before; the rest is swallowed. */
  lemma {:induction false} OpenPieces(front: seq<string>, cells: seq<string>, last: string)
    requires |front| == |cells| && forall k :: 0 <= k < |front| ==> Frames(front[k], cells[k])
    requires Seek(last, 0, None).AtEnd?
    ensures Pieces(Closed(front) + last, 0) == front + [last]
  {
    if front == [] {
      assert Closed(front) + last == last && last[0..] == last;
    } else {
      hide Seek, Trim, Pieces, EndSpan, EndsInBackslash, Closed;
      assert Frames(front[0], cells[0]);
      assert !EndsInBackslash(front[0]) by { EndsInSpace(front[0]); }
      var tail := Closed(front[1..]) + last;
      ClosedHead(front, last);
      PlainThenPipe(front[0], tail);
      OpenPieces(front[1..], cells[1..], last);
      assert [front[0]] + (front[1..] + [last]) == front + [last];
    }
  }

  lemma ClosedHead(pieces: seq<string>, tail: string)
    requires pieces != []
    ensures Closed(pieces) + tail == pieces[0] + "|" + (Closed(pieces[1..]) + tail)
  {
  }

  lemma EndsInSpace(s: string)
    requires s != [] && s[|s| - 1] == ' '
    ensures !EndsInBackslash(s)
  {
  }

  lemma {:induction false} SeekInsideSpan(s: string, i: nat, span: Option<nat>)
    requires i <= |s| && span.Some? && forall k :: i <= k < |s| ==> s[k] != '`'
    ensures Seek(s, i, span) == AtEnd(span)
    decreases |s| - i
  {
    if i < |s| { SeekInsideSpan(s, i + 1, span); }
  }

  lemma {:induction false} ClosedConcat(a: seq<string>, b: seq<string>)
    ensures Closed(a + b) == Closed(a) + Closed(b)
  {
    if a == [] {
      assert a + b == b;
    } else {
      assert (a + b)[1..] == a[1..] + b;
      ClosedConcat(a[1..], b);
    }
  }

  predicate IsFiller(s: string) {
    forall k :: 0 <= k < |s| ==> s[k] == ' ' || s[k] == '|'
  }

  lemma {:induction false} ClosedFiller(pieces: seq<string>)
    requires forall k :: 0 <= k < |pieces| ==> IsFiller(pieces[k])
    ensures IsFiller(Closed(pieces))
  {
    if pieces != [] {
      assert IsFiller(pieces[0]);
      ClosedFiller(pieces[1..]);
    }
  }

  /** Padding comes off on the left; the filler stays, since it ends in a pipe. */
  lemma OpenEnd(left: string, cell: string, fill: string)
    requires AllPads(left) && IsOpenRow([cell])
    requires fill != [] && IsFiller(fill) && fill[|fill| - 1] == '|'
    ensures Trim(left + cell + fill) == cell + fill && IsOpenRow([cell + fill])
    ensures Seek(left + cell + fill, 0, None).AtEnd?
  {
    assert left + cell + fill + [] == left + cell + fill && left + (cell + fill) + [] == left + cell + fill;
    TrimPadded(left, cell + fill, []);
    SeekThrough(cell, fill, 0, None);
    SeekInsideSpan(cell + fill, |cell|, Seek(cell, 0, None).span);
    SeekPadded(left, cell + fill, []);
  }

  /** The end of a formatted row from the open cell on: its padding, the cell and the filler. */
  lemma OpenTail(cells: seq<string>, widths: seq<nat>, alignments: seq<Alignment>, style: Style)
    returns (left: string, fill: string)
    requires |widths| == |alignments| && 0 < |cells| <= |widths| && IsTrimmed(cells[|cells| - 1])
    ensures AllPads(left) && fill != [] && IsFiller(fill) && fill[|fill| - 1] == '|'
    ensures Closed(DataPieces(cells, widths, alignments, style)[|cells| - 1..]) == left + cells[|cells| - 1] + fill
  {
    hide DataPieces, IsTrimmed, Trim, PadCell, Closed, IsFiller;
    var pieces, n := DataPieces(cells, widths, alignments, style), |cells| - 1;
    var cell, rest := cells[n], pieces[n + 1..];
    TrimmedStays(cell);
    PieceAt(cells, widths, alignments, style, n);
    var before, after := PadSplits(cell, widths[n], alignments[n], style);
    EmptyPieces(cells, widths, alignments, style);
    ClosedFiller(rest);
    ClosedPipe(rest);
    ClosedHead(pieces[n..], []);
    assert pieces[n..][1..] == rest && Closed(pieces[n..]) + [] == Closed(pieces[n..])
      && Closed(rest) + [] == Closed(rest);
    left, fill := OpenParts(before, cell, after, Closed(rest));
  }

  lemma PieceAt(cells: seq<string>, widths: seq<nat>, alignments: seq<Alignment>, style: Style, k: nat)
    requires k < |widths| == |alignments|
    ensures DataPieces(cells, widths, alignments, style)[k]
      == " " + PadCell(Trim(CellAt(cells, k)), widths[k], alignments[k], style) + " "
  {
    hide PadCell, Trim;
  }

  lemma OpenParts(left: string, cell: string, right: string, rest: string) returns (before: string, after: string)
    requires AllPads(left) && IsFiller(right) && IsFiller(rest) && (rest == [] || rest[|rest| - 1] == '|')
    ensures AllPads(before) && after != [] && IsFiller(after) && after[|after| - 1] == '|'
    ensures " " + (left + cell + right) + " " + "|" + rest == before + cell + after
  {
    before, after := " " + left, right + " |" + rest;
    assert right + " " + "|" + rest == after;
    assert " " + (left + cell + right) + " " + "|" + rest == before + cell + (right + " " + "|" + rest);
  }

  lemma EmptyPieces(cells: seq<string>, widths: seq<nat>, alignments: seq<Alignment>, style: Style)
    requires |widths| == |alignments|
    ensures var pieces := DataPieces(cells, widths, alignments, style);
      forall k :: |cells| <= k < |pieces| ==> IsFiller(pieces[k])
  {
    TrimmedStays([]);
    hide PadCell, Trim;
    forall k | |cells| <= k < |widths| ensures IsFiller(DataPieces(cells, widths, alignments, style)[k]) {
      var a, b := PadSplits([], widths[k], alignments[k], style);
    }
  }

  lemma PadSplits(cell: string, width: nat, alignment: Alignment, style: Style) returns (left: string, right: string)
    ensures PadCell(cell, width, alignment, style) == left + cell + right
    ensures AllPads(left) && IsFiller(left) && IsFiller(right)
  {
    var cellWidth := style.width(cell);
    var padding := if cellWidth <= width then width - cellWidth else 0;
    match alignment {
      case Right => left, right := Repeat(' ', padding), [];
      case Center => left, right := Repeat(' ', padding / 2), Repeat(' ', padding - padding / 2);
      case _ => left, right := [], Repeat(' ', padding);
    }
  }

  lemma {:induction false} ClosedPipe(pieces: seq<string>)
    ensures Closed(pieces) == [] || Closed(pieces)[|Closed(pieces)| - 1] == '|'
  {
    if pieces != [] { ClosedPipe(pieces[1..]); }
  }

  /** A row that ends inside a code span keeps its cells but the last, which takes in the padding and
      the pipes behind it: each pass makes it longer. */
  lemma OpenRowGrows(t: Table, cells: seq<string>, style: Style)
    requires IsOpenRow(cells) && |cells| <= Columns(t)
    ensures var again := Cells(DataRow(t, cells, style));
      && IsOpenRow(again) && |again| == |cells| && again[..|cells| - 1] == cells[..|cells| - 1]
      && |again[|cells| - 1]| > |cells[|cells| - 1]|
  {
    hide DataPieces, Widths, Alignments, Columns, Trim, Seek, IsTrimmed, Cells, Closed;
    var widths, alignments, n := Widths(t, style), Alignments(t, style), |cells| - 1;
    var pieces := DataPieces(cells, widths, alignments, style);
    var front, cell := pieces[..n], cells[n];
    FrontFrames(cells, widths, alignments, style);
    var left, fill := OpenTail(cells, widths, alignments, style);
    assert pieces == front + pieces[n..];
    ClosedConcat(front, pieces[n..]);
    OpenEnd(left, cell, fill);
    OpenRowReads(front, cells, left + cell + fill, cell + fill);
    assert DataRow(t, cells, style) == "|" + (Closed(front) + (left + cell + fill));
    assert (cells[..n] + [cell + fill])[..n] == cells[..n];
  }

  lemma FrontFrames(cells: seq<string>, widths: seq<nat>, alignments: seq<Alignment>, style: Style)
    requires |widths| == |alignments| && IsOpenRow(cells) && |cells| <= |widths|
    ensures forall k :: 0 <= k < |cells| - 1 ==> Frames(DataPieces(cells, widths, alignments, style)[k], cells[k])
  {
    hide PadCell, Frames, Trim, Seek;
    forall k | 0 <= k < |cells| - 1
      ensures Frames(DataPieces(cells, widths, alignments, style)[k], cells[k])
    {
      assert cells[k] == cells[..|cells| - 1][k] && IsGoodCell(cells[k]);
      TrimmedStays(cells[k]);
      DataPieceFrames(cells[k], widths[k], alignments[k], style);
    }
  }

  lemma OpenRowReads(front: seq<string>, cells: seq<string>, last: string, end: string)
    requires |front| == |cells| - 1 && forall k :: 0 <= k < |front| ==> Frames(front[k], cells[k])
    requires Seek(last, 0, None).AtEnd? && Trim(last) == end && end != []
    ensures Cells("|" + (Closed(front) + last)) == cells[..|cells| - 1] + [end]
  {
    hide Seek, Pieces, HasLeadingPipe, HasTrailingPipe, Trim, Closed, Frames, DropBoundaries;
    var tail := Closed(front) + last;
    var line := "|" + tail;
    OpenPieces(front, cells[..|front|], last);
    SeekPads([], 0, None);
    PlainThenPipe([], tail);
    assert line == [] + "|" + tail;
    assert Pieces(line, 0) == [[]] + (front + [last]);
    StartsWithPipe(line);
    OpenFrame(front, cells, last, end);
    assert [[]] + cells[..|front|] + [end] == [[]] + (cells[..|front|] + [end]);
    LeadingDrop(line, cells[..|front|] + [end]);
  }

  lemma LeadingDrop(line: string, cells: seq<string>)
    requires HasLeadingPipe(line) && cells != [] && cells[|cells| - 1] != []
    ensures DropBoundaries(line, [[]] + cells) == cells
  {
    hide HasLeadingPipe, HasTrailingPipe;
    assert ([[]] + cells)[1..] == cells;
  }

  lemma OpenFrame(front: seq<string>, cells: seq<string>, last: string, end: string)
    requires |front| == |cells| - 1 && forall k :: 0 <= k < |front| ==> Frames(front[k], cells[k])
    requires Trim(last) == end
    ensures TrimAll([[]] + (front + [last])) == [[]] + cells[..|front|] + [end]
  {
    var raw := TrimAll([[]] + (front + [last]));
    TrimmedStays([]);
    hide Trim;
    forall k | 0 <= k < |front| ensures raw[k + 1] == cells[k] { assert Frames(front[k], cells[k]); }
  }

  lemma StartsWithPipe(line: string)
    requires line != [] && line[0] == '|'
    ensures HasLeadingPipe(line)
  {
    var right := TrimRightSplits(line);
    assert TrimLeft(line) == line;
    assert Trim(line) == [] ==> right == line;
    assert right == line ==> !AllPads(right);
  }
}
