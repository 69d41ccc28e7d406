/** Scanning one line of a Markdown table: escape parity, backtick runs, delimiter pipes, cells. */
module TableScanner {
  import opened Wrappers

  /** How many backslashes stand directly before position `i`. */
  function Backslashes(line: string, i: nat): nat
    requires i <= |line|
  {
    if i == 0 || line[i - 1] != '\\' then 0 else 1 + Backslashes(line, i - 1)
  }

  predicate IsEscaped(line: string, i: nat)
    requires i <= |line|
  {
    Backslashes(line, i) % 2 == 1
  }

  /** The length of the backtick run at position `i`. */
  function Ticks(line: string, i: nat): (n: nat)
    requires i <= |line|
    ensures i + n <= |line|
    decreases |line| - i
  {
    if i < |line| && line[i] == '`' then 1 + Ticks(line, i + 1) else 0
  }

  /** The open code span, as the length of the run that opened it, after a run of `n` ticks. */
  function AfterTicks(line: string, i: nat, n: nat, span: Option<nat>): Option<nat>
    requires i <= |line|
  {
    if span == Some(n) then None
    else if span.None? && !IsEscaped(line, i) then Some(n)
    else span
  }

  predicate IsDelimiter(line: string, i: nat, span: Option<nat>)
    requires i < |line|
  {
    line[i] == '|' && span.None? && !IsEscaped(line, i)
  }

  datatype Stop = AtPipe(index: nat) | AtEnd(span: Option<nat>)

  /** Scans from `i` to the first delimiter pipe, or to the end. */
  function Seek(line: string, i: nat, span: Option<nat>): (stop: Stop)
    requires i <= |line|
    ensures stop.AtPipe? ==> i <= stop.index < |line| && line[stop.index] == '|' && !IsEscaped(line, stop.index)
    decreases |line| - i
  {
    if i == |line| then AtEnd(span)
    else if line[i] == '`' then
      var n := Ticks(line, i);
      Seek(line, i + n, AfterTicks(line, i, n, span))
    else if IsDelimiter(line, i, span) then AtPipe(i)
    else Seek(line, i + 1, span)
  }

  /** The raw pieces between delimiter pipes. A delimiter is only seen outside code spans, so each
      piece is scanned from scratch. */
  function Pieces(line: string, start: nat): (p: seq<string>)
    requires start <= |line|
    ensures |p| > 0
    decreases |line| - start
  {
    match Seek(line, start, None)
    case AtEnd(_) => [line[start..]]
    case AtPipe(i) => [line[start..i]] + Pieces(line, i + 1)
  }

  /** A whole run of `n` backticks stands at `j`. */
  predicate IsRunAt(line: string, from: nat, n: nat, j: nat) {
    from <= j < |line| && line[j] == '`' && (j == from || line[j - 1] != '`') && Ticks(line, j) == n
  }

  ghost predicate IsFirstRun(line: string, from: nat, n: nat, j: nat) {
    IsRunAt(line, from, n, j) && forall k: nat :: k < j ==> !IsRunAt(line, from, n, k)
  }

  ghost predicate HasNoRun(line: string, from: nat, n: nat) {
    forall j: nat :: !IsRunAt(line, from, n, j)
  }

  /** From inside a code span, the scan goes on behind the first whole run of `n` backticks, escaped or not, and
      otherwise ends with the line. */
  ghost predicate LeavesSpan(line: string, from: nat, n: nat, stop: Stop) {
    && (forall j: nat :: IsFirstRun(line, from, n, j) ==> stop == Seek(line, j + n, None))
    && (HasNoRun(line, from, n) ==> stop == AtEnd(Some(n)))
  }

  lemma {:induction false} TicksAre(line: string, i: nat)
    requires i <= |line|
    ensures var n := Ticks(line, i);
      (forall k :: i <= k < i + n ==> line[k] == '`') && (i + n < |line| ==> line[i + n] != '`')
    decreases |line| - i
  {
    if i < |line| && line[i] == '`' { TicksAre(line, i + 1); }
  }

  /** Nothing closes a span of `n` before `next`. */
  lemma SameRuns(line: string, i: nat, next: nat, n: nat)
    requires i < |line| && n > 0 && Ticks(line, i) != n && next == i + if line[i] == '`' then Ticks(line, i) else 1
    ensures forall j: nat :: IsRunAt(line, i, n, j) <==> IsRunAt(line, next, n, j)
  {
    TicksAre(line, i);
    hide Ticks;
  }

  lemma SameLeaving(line: string, i: nat, next: nat, n: nat, stop: Stop)
    requires LeavesSpan(line, next, n, stop)
    requires forall j: nat :: IsRunAt(line, i, n, j) <==> IsRunAt(line, next, n, j)
    ensures LeavesSpan(line, i, n, stop)
  {
    hide Seek, IsRunAt;
    forall j: nat | IsFirstRun(line, i, n, j) ensures IsFirstRun(line, next, n, j) {}
  }

  lemma {:induction false} SpanIsLeft(line: string, i: nat, n: nat)
    requires i <= |line| && n > 0
    ensures LeavesSpan(line, i, n, Seek(line, i, Some(n)))
    decreases |line| - i
  {
    hide IsEscaped, LeavesSpan, Ticks;
    if i == |line| {
      NothingToLeave(line, n);
    } else if Ticks(line, i) == n {
      LeftHere(line, i, n);
    } else {
      var next := i + if line[i] == '`' then Ticks(line, i) else 1;
      TicksHere(line, i);
      SpanIsLeft(line, next, n);
      SameRuns(line, i, next, n);
      SameLeaving(line, i, next, n, Seek(line, next, Some(n)));
    }
  }

  lemma TicksHere(line: string, i: nat)
    requires i < |line|
    ensures Ticks(line, i) > 0 <==> line[i] == '`'
  {
  }

  lemma NothingToLeave(line: string, n: nat)
    ensures LeavesSpan(line, |line|, n, AtEnd(Some(n)))
  {
    assert forall j: nat :: !IsRunAt(line, |line|, n, j);
  }

  lemma LeftHere(line: string, i: nat, n: nat)
    requires i < |line| && n > 0 && Ticks(line, i) == n
    ensures LeavesSpan(line, i, n, Seek(line, i, Some(n)))
  {
    TicksHere(line, i);
    hide IsEscaped, Ticks;
    assert IsRunAt(line, i, n, i);
    var stop := Seek(line, i + n, None);
    assert Seek(line, i, Some(n)) == stop;
    hide Seek;
    forall j: nat | IsFirstRun(line, i, n, j) ensures j == i {}
  }

  /** Outside code spans, a run of backticks that is not escaped opens one, which is passed over to its end; an
      escaped run, and any other character but a pipe between cells, is passed over by itself. */
  lemma SpansAreSkipped(line: string, i: nat)
    requires i < |line|
    ensures var n, stop := Ticks(line, i), Seek(line, i, None);
      && (line[i] == '`' && !IsEscaped(line, i) ==> LeavesSpan(line, i + n, n, stop))
      && (line[i] == '`' && IsEscaped(line, i) ==> stop == Seek(line, i + n, None))
      && (line[i] == '|' && !IsEscaped(line, i) ==> stop == AtPipe(i))
      && (line[i] != '`' && (line[i] != '|' || IsEscaped(line, i)) ==> stop == Seek(line, i + 1, None))
  {
    hide LeavesSpan, IsEscaped, Ticks;
    TicksHere(line, i);
    if line[i] == '`' { SpanIsLeft(line, i + Ticks(line, i), Ticks(line, i)); }
  }

  /** The code span that is still open at the end of the line. */
  function EndSpan(line: string, start: nat): Option<nat>
    requires start <= |line|
    decreases |line| - start
  {
    match Seek(line, start, None)
    case AtEnd(span) => span
    case AtPipe(i) => EndSpan(line, i + 1)
  }

  predicate IsPad(c: char) {
    c == ' ' || c == '\t'
  }

  function TrimLeft(s: string): string {
    if s != [] && IsPad(s[0]) then TrimLeft(s[1..]) else s
  }

  function TrimRight(s: string): string {
    if s != [] && IsPad(s[|s| - 1]) then TrimRight(s[..|s| - 1]) else s
  }

  function Trim(s: string): string {
    TrimRight(TrimLeft(s))
  }

  function TrimAll(pieces: seq<string>): (r: seq<string>)
    ensures |r| == |pieces| && forall k :: 0 <= k < |r| ==> r[k] == Trim(pieces[k])
  {
    seq(|pieces|, k requires 0 <= k < |pieces| => Trim(pieces[k]))
  }

  predicate HasLeadingPipe(line: string) {
    var t := Trim(line);
    t != [] && t[0] == '|'
  }

  predicate HasTrailingPipe(line: string) {
    var t := TrimRight(line);
    t != [] && t[|t| - 1] == '|' && !IsEscaped(t, |t| - 1)
  }

  /** Drops the empty cell before a leading boundary pipe and the one after a trailing one. */
  function DropBoundaries(line: string, cells: seq<string>): seq<string> {
    var c := if HasLeadingPipe(line) && cells != [] && cells[0] == [] then cells[1..] else cells;
    if HasTrailingPipe(line) && c != [] && c[|c| - 1] == [] then c[..|c| - 1] else c
  }

  function Cells(line: string): seq<string> {
    DropBoundaries(line, TrimAll(Pieces(line, 0)))
  }

  predicate HasDelimiter(line: string) {
    Seek(line, 0, None).AtPipe?
  }

  method HasTableDelimiterPipe(line: string) returns (found: bool)
    ensures found == HasDelimiter(line)
  {
    var span: Option<nat> := None;
    var index := 0;
    while index < |line|
      invariant 0 <= index <= |line|
      invariant Seek(line, 0, None) == Seek(line, index, span)
    {
      if line[index] == '`' {
        var tickCount := Ticks(line, index);
        span := AfterTicks(line, index, tickCount, span);
        index := index + tickCount;
        continue;
      }
      if line[index] == '|' && span.None? && !IsEscaped(line, index) {
        return true;
      }
      index := index + 1;
    }
    return false;
  }

  lemma PiecesStep(line: string, start: nat)
    requires start <= |line|
    ensures Seek(line, start, None).AtEnd? ==> TrimAll(Pieces(line, start)) == [Trim(line[start..])]
    ensures Seek(line, start, None).AtPipe? ==>
      var i := Seek(line, start, None).index;
      TrimAll(Pieces(line, start)) == [Trim(line[start..i])] + TrimAll(Pieces(line, i + 1))
  {
  }

  method SplitPieces(line: string) returns (cells: seq<string>)
    ensures cells == TrimAll(Pieces(line, 0))
  {
    hide Pieces, TrimAll, Trim;
    cells := [];
    var cellStart, index := 0, 0;
    var span: Option<nat> := None;
    while index < |line|
      invariant 0 <= cellStart <= index <= |line|
      invariant Seek(line, cellStart, None) == Seek(line, index, span)
      invariant TrimAll(Pieces(line, 0)) == cells + TrimAll(Pieces(line, cellStart))
    {
      if line[index] == '`' {
        var tickCount := Ticks(line, index);
        span := AfterTicks(line, index, tickCount, span);
        index := index + tickCount;
      } else if line[index] == '|' && span.None? && !IsEscaped(line, index) {
        PiecesStep(line, cellStart);
        cells := cells + [Trim(line[cellStart..index])];
        index := index + 1;
        cellStart := index;
      } else {
        index := index + 1;
      }
    }
    PiecesStep(line, cellStart);
    cells := cells + [Trim(line[cellStart..])];
  }

  method SplitTableCells(line: string) returns (cells: seq<string>)
    ensures cells == Cells(line)
  {
    cells := SplitPieces(line);
    hide TrimAll, Pieces, HasLeadingPipe, HasTrailingPipe;
    if HasLeadingPipe(line) && cells != [] && cells[0] == [] {
      cells := cells[1..];
    }
    if HasTrailingPipe(line) && cells != [] && cells[|cells| - 1] == [] {
      cells := cells[..|cells| - 1];
    }
  }

  function Shift(stop: Stop, offset: nat): Stop {
    match stop
    case AtPipe(i) => AtPipe(i + offset)
    case AtEnd(span) => AtEnd(span)
  }

  predicate EndsInBackslash(s: string) {
    s != [] && s[|s| - 1] == '\\'
  }

  lemma {:induction false} BackslashesAfter(pre: string, rest: string, i: nat)
    requires !EndsInBackslash(pre) && i <= |rest|
    ensures Backslashes(pre + rest, |pre| + i) == Backslashes(rest, i)
  {
    if 0 < i { BackslashesAfter(pre, rest, i - 1); }
  }

  lemma {:induction false} BackslashesBefore(a: string, b: string, i: nat)
    requires i <= |a|
    ensures Backslashes(a + b, i) == Backslashes(a, i)
  {
    if 0 < i { BackslashesBefore(a, b, i - 1); }
  }

  lemma {:induction false} TicksAfter(pre: string, rest: string, i: nat)
    requires i <= |rest|
    ensures Ticks(pre + rest, |pre| + i) == Ticks(rest, i)
    decreases |rest| - i
  {
    if i < |rest| { TicksAfter(pre, rest, i + 1); }
  }

  /** No backtick run crosses from `a` into `b`. */
  predicate Apart(a: string, b: string) {
    a == [] || b == [] || a[|a| - 1] != '`' || b[0] != '`'
  }

  lemma {:induction false} TicksBefore(a: string, b: string, i: nat)
    requires i <= |a| && Apart(a, b) && (i < |a| || b == [] || b[0] != '`')
    ensures Ticks(a + b, i) == Ticks(a, i)
    decreases |a| - i
  {
    if i < |a| && a[i] == '`' && i + 1 < |a| { TicksBefore(a, b, i + 1); }
  }

  /** What stands before the scanned part does not matter, unless it ends in a backslash. */
  lemma {:induction false} SeekAfter(pre: string, rest: string, i: nat, span: Option<nat>)
    requires !EndsInBackslash(pre) && i <= |rest|
    ensures Seek(pre + rest, |pre| + i, span) == Shift(Seek(rest, i, span), |pre|)
    decreases |rest| - i
  {
    if i < |rest| {
      var line := pre + rest;
      assert line[|pre| + i] == rest[i];
      BackslashesAfter(pre, rest, i);
      TicksAfter(pre, rest, i);
      if rest[i] == '`' {
        var n := Ticks(rest, i);
        SeekAfter(pre, rest, i + n, AfterTicks(rest, i, n, span));
      } else if !IsDelimiter(rest, i, span) {
        SeekAfter(pre, rest, i + 1, span);
      }
    }
  }

  /** A delimiter found in a prefix is found in the whole, and a scan that gets through the prefix
      goes on behind it. */
  lemma {:induction false} SeekThrough(a: string, b: string, i: nat, span: Option<nat>)
    requires i <= |a| && Apart(a, b)
    ensures Seek(a + b, i, span)
      == match Seek(a, i, span) case AtPipe(k) => AtPipe(k) case AtEnd(s) => Seek(a + b, |a|, s)
    decreases |a| - i
  {
    if i < |a| {
      var line := a + b;
      assert line[i] == a[i];
      BackslashesBefore(a, b, i);
      TicksBefore(a, b, i);
      if a[i] == '`' {
        var n := Ticks(a, i);
        SeekThrough(a, b, i + n, AfterTicks(a, i, n, span));
      } else if !IsDelimiter(a, i, span) {
        SeekThrough(a, b, i + 1, span);
      }
    }
  }

  /** A piece that holds no delimiter and leaves no code span open. */
  predicate IsPlain(s: string) {
    Seek(s, 0, None) == AtEnd(None)
  }

  /** The piece before a delimiter is plain. */
  lemma {:induction false} PieceIsPlain(line: string, i: nat, span: Option<nat>)
    requires i <= |line| && Seek(line, i, span).AtPipe?
    ensures Seek(line[..Seek(line, i, span).index], i, span) == AtEnd(None)
    decreases |line| - i
  {
    var e := Seek(line, i, span).index;
    var a, b := line[..e], line[e..];
    assert line == a + b;
    if i < e {
      BackslashesBefore(a, b, i);
      TicksBefore(a, b, i);
      if line[i] == '`' {
        var n := Ticks(line, i);
        PieceIsPlain(line, i + n, AfterTicks(line, i, n, span));
      } else {
        PieceIsPlain(line, i + 1, span);
      }
    } else {
      assert line[i] == '|';
    }
  }

  predicate AllPads(s: string) {
    forall k :: 0 <= k < |s| ==> IsPad(s[k])
  }

  lemma {:induction false} SeekPads(s: string, i: nat, span: Option<nat>)
    requires i <= |s| && AllPads(s[i..])
    ensures Seek(s, i, span) == AtEnd(span)
    decreases |s| - i
  {
    if i < |s| {
      assert s[i] == s[i..][0];
      assert s[i + 1..] == s[i..][1..];
      SeekPads(s, i + 1, span);
    }
  }

  /** Padding around a text does not change how it scans. */
  lemma SeekPadded(left: string, s: string, right: string)
    requires AllPads(left) && AllPads(right)
    ensures var stop := Seek(s, 0, None);
      Seek(left + s + right, 0, None) == match stop case AtPipe(k) => AtPipe(|left| + k) case AtEnd(span) => AtEnd(span)
  {
    assert left[0..] == left && right[0..] == right;
    SeekPads(left, 0, None);
    assert left + s + right == left + (s + right);
    SeekThrough(left, s + right, 0, None);
    SeekAfter(left, s + right, 0, None);
    SeekThrough(s, right, 0, None);
    if Seek(s, 0, None).AtEnd? {
      assert (s + right)[|s|..] == right;
      SeekPads(s + right, |s|, Seek(s, 0, None).span);
    }
  }

  lemma {:induction false} TrimLeftSplits(s: string) returns (left: string)
    ensures AllPads(left) && s == left + TrimLeft(s)
    ensures var t := TrimLeft(s); t != [] ==> !IsPad(t[0])
  {
    if s != [] && IsPad(s[0]) {
      assert s == [s[0]] + s[1..];
      var rest := TrimLeftSplits(s[1..]);
      left := [s[0]] + rest;
    } else {
      left := [];
    }
  }

  lemma {:induction false} TrimRightSplits(s: string) returns (right: string)
    ensures AllPads(right) && s == TrimRight(s) + right
    ensures var t := TrimRight(s); t != [] ==> !IsPad(t[|t| - 1])
  {
    if s != [] && IsPad(s[|s| - 1]) {
      var rest := TrimRightSplits(s[..|s| - 1]);
      right := rest + [s[|s| - 1]];
      assert s == s[..|s| - 1] + [s[|s| - 1]];
    } else {
      right := [];
    }
  }

  lemma TrimSplits(s: string) returns (left: string, right: string)
    ensures AllPads(left) && AllPads(right) && s == left + Trim(s) + right && IsTrimmed(Trim(s))
  {
    left := TrimLeftSplits(s);
    right := TrimRightSplits(TrimLeft(s));
    var t := Trim(s);
    if t != [] { assert TrimLeft(s)[0] == t[0]; }
  }

  predicate IsTrimmed(s: string) {
    s != [] ==> !IsPad(s[0]) && !IsPad(s[|s| - 1])
  }

  lemma TrimKeepsScan(s: string)
    ensures IsPlain(s) <==> IsPlain(Trim(s))
    ensures Seek(s, 0, None).AtEnd? ==> Seek(Trim(s), 0, None) == Seek(s, 0, None)
  {
    var left, right := TrimSplits(s);
    SeekPadded(left, Trim(s), right);
  }

  lemma {:induction false} TrimLeftPads(left: string, s: string)
    requires AllPads(left) && (s == [] || !IsPad(s[0]))
    ensures TrimLeft(left + s) == s
  {
    if left == [] {
      assert left + s == s;
    } else {
      assert (left + s)[1..] == left[1..] + s;
      TrimLeftPads(left[1..], s);
    }
  }

  lemma {:induction false} TrimRightPads(s: string, right: string)
    requires AllPads(right) && (s == [] || !IsPad(s[|s| - 1]))
    ensures TrimRight(s + right) == s
  {
    if right == [] {
      assert s + right == s;
    } else {
      var n := |right| - 1;
      assert (s + right)[..|s| + n] == s + right[..n];
      TrimRightPads(s, right[..n]);
    }
  }

  /** Trimming takes exactly the padding off. */
  lemma TrimPadded(left: string, s: string, right: string)
    requires AllPads(left) && AllPads(right) && IsTrimmed(s)
    ensures Trim(left + s + right) == s
  {
    if s == [] {
      assert left + s + right == (left + right) + [];
      TrimLeftPads(left + right, []);
    } else {
      assert left + s + right == left + (s + right);
      TrimLeftPads(left, s + right);
      TrimRightPads(s, right);
    }
  }
}
