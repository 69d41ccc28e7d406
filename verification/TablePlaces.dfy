/** Which lines of a text are code and which are tables, told by the look of the lines: every table is taken as
    a whole where it starts, and nothing else is. */
module TablePlaces {
  import opened Wrappers
  import opened Whitespace
  import opened SourceLines
  import opened TableScanner
  import opened TableFormat
  import opened TableDocument
  import opened TableDocumentTheorems

  predicate IsMarker(c: char) {
    c == '`' || c == '~'
  }

  /** Up to four spaces, at least three markers and no more of them behind. */
  ghost predicate LooksLikeFence(line: string, fence: Fence) {
    && IsMarker(fence.marker) && fence.length >= 3
    && exists indent: nat, rest: string :: IsMarked(line, indent, fence.marker, fence.length, rest)
  }

  predicate IsMarked(line: string, indent: nat, marker: char, n: nat, rest: string) {
    && indent <= 4 && line == Repeat(' ', indent) + (Repeat(marker, n) + rest)
    && (rest != [] ==> rest[0] != marker)
  }

  /** Up to four spaces, at least as many markers as opened the fence, and only spaces and tabs behind. */
  ghost predicate LooksLikeClosing(line: string, fence: Fence) {
    exists indent: nat, n: nat, rest: string ::
      IsMarked(line, indent, fence.marker, n, rest) && n >= fence.length && AllPads(rest)
  }

  /** A tab or four spaces in front. */
  predicate LooksLikeCode(line: string) {
    (line != [] && line[0] == '\t') || (|line| >= 4 && forall i :: 0 <= i < 4 ==> line[i] == ' ')
  }

  lemma {:induction false} RunSplits(s: string, c: char)
    ensures var n := Run(s, c); s == Repeat(c, n) + s[n..] && (n < |s| ==> s[n] != c)
  {
    if s != [] && s[0] == c {
      RunSplits(s[1..], c);
      var n := Run(s, c);
      assert s[1..][n - 1..] == s[n..];
      assert Repeat(c, n) == [c] + Repeat(c, n - 1);
      assert s == [c] + s[1..];
    } else {
      assert Repeat(c, 0) == [];
    }
  }

  lemma {:induction false} RunOf(c: char, n: nat, rest: string)
    requires rest != [] ==> rest[0] != c
    ensures Run(Repeat(c, n) + rest, c) == n
  {
    var s := Repeat(c, n) + rest;
    if n == 0 {
      assert s == rest;
    } else {
      assert s[1..] == Repeat(c, n - 1) + rest;
      RunOf(c, n - 1, rest);
    }
  }

  lemma {:induction false} SpacesSplit(line: string, spaces: nat) returns (indent: nat)
    requires spaces <= 4
    ensures AfterSpaces(line, spaces).Some? ==> var t := AfterSpaces(line, spaces).value;
      && spaces + indent <= 4 && line == Repeat(' ', indent) + t && (t != [] ==> t[0] != ' ')
    decreases |line|
  {
    indent := 0;
    if line != [] && line[0] == ' ' && spaces < 4 {
      indent := SpacesSplit(line[1..], spaces + 1);
      assert Repeat(' ', indent + 1) == [' '] + Repeat(' ', indent);
      assert line == [' '] + line[1..];
      indent := indent + 1;
    } else {
      assert Repeat(' ', 0) == [];
    }
  }

  lemma MarkedSplits(line: string, indent: nat, marker: char, n: nat, rest: string)
    requires IsMarked(line, indent, marker, n, rest) && IsMarker(marker) && n > 0
    ensures AfterSpaces(line, 0) == Some(Repeat(marker, n) + rest)
    ensures Run(Repeat(marker, n) + rest, marker) == n && (Repeat(marker, n) + rest)[n..] == rest
  {
    var t := Repeat(marker, n) + rest;
    assert t[0] == marker;
    AfterSpaceRun(indent, t, 0);
    RunOf(marker, n, rest);
  }

  /** A line opens a fence exactly when it looks like one. */
  lemma OpensWhenItLooksSo(line: string, fence: Fence)
    ensures FenceStart(line) == Some(fence) <==> LooksLikeFence(line, fence)
  {
    if FenceStart(line) == Some(fence) {
      var indent := SpacesSplit(line, 0);
      var t := AfterSpaces(line, 0).value;
      RunSplits(t, fence.marker);
      assert IsMarked(line, indent, fence.marker, fence.length, t[fence.length..]);
    }
    if LooksLikeFence(line, fence) {
      var indent: nat, rest: string :| IsMarked(line, indent, fence.marker, fence.length, rest);
      MarkedSplits(line, indent, fence.marker, fence.length, rest);
      assert (Repeat(fence.marker, fence.length) + rest)[0] == fence.marker;
    }
  }

  /** And closes it exactly when it looks like that. */
  lemma ClosesWhenItLooksSo(line: string, fence: Fence)
    requires IsMarker(fence.marker) && fence.length >= 3
    ensures FenceCloses(line, fence) <==> LooksLikeClosing(line, fence)
  {
    if FenceCloses(line, fence) {
      var indent := SpacesSplit(line, 0);
      var t := AfterSpaces(line, 0).value;
      var n := Run(t, fence.marker);
      RunSplits(t, fence.marker);
      assert IsMarked(line, indent, fence.marker, n, t[n..]);
    }
    if LooksLikeClosing(line, fence) {
      var indent: nat, n: nat, rest: string :|
        IsMarked(line, indent, fence.marker, n, rest) && n >= fence.length && AllPads(rest);
      MarkedSplits(line, indent, fence.marker, n, rest);
    }
  }

  lemma CodeWhenItLooksSo(line: string)
    ensures IsIndentedCode(line) <==> LooksLikeCode(line)
  {
  }

  /** Neither indented nor the start of a fence. */
  ghost predicate IsPlain(line: string) {
    !LooksLikeCode(line) && forall fence :: !LooksLikeFence(line, fence)
  }

  /** A line of a table: plain, and with a pipe between cells. */
  ghost predicate MayBeRow(line: string) {
    IsPlain(line) && HasDelimiter(line)
  }

  /** The lines from `a` to `b` are a table: a header, a separator, and all rows up to a line that is none. */
  ghost predicate IsTable(lines: seq<Line>, a: nat, b: nat) {
    && a + 2 <= b <= |lines|
    && MayBeRow(lines[a].text) && MayBeRow(lines[a + 1].text)
    && ParseSeparator(Cells(lines[a + 1].text)).Some?
    && (forall k :: a + 2 <= k < b ==> MayBeRow(lines[k].text) && !IsBlank(lines[k].text))
    && (b < |lines| ==> !MayBeRow(lines[b].text) || IsBlank(lines[b].text))
  }

  /** The code fence that is open before line `i`. */
  function FenceBefore(lines: seq<Line>, i: nat): Option<Fence>
    requires i <= |lines|
  {
    if i == 0 then None else FenceAfter(lines[i - 1].text, FenceBefore(lines, i - 1))
  }

  /** A segment is a table where one starts outside a code fence, and a single line anywhere else. */
  ghost predicate StandsAt(segment: Segment, lines: seq<Line>, i: nat)
    requires i <= |lines|
  {
    match segment
    case Grid(table, first) =>
      && FenceBefore(lines, i).None? && IsTable(lines, i, i + |table|)
      && first == i + 1 && table == lines[i..i + |table|]
    case Prose(line) =>
      && i < |lines| && line == lines[i]
      && (FenceBefore(lines, i).None? ==> forall b :: !IsTable(lines, i, b))
  }

  ghost predicate StandFrom(segments: seq<Segment>, lines: seq<Line>, i: nat)
    requires i <= |lines|
    decreases segments
  {
    if segments == [] then i == |lines|
    else
      && StandsAt(segments[0], lines, i) && i + |LinesOf(segments[0])| <= |lines|
      && StandFrom(segments[1..], lines, i + |LinesOf(segments[0])|)
  }

  lemma PlainIs(line: string)
    ensures IsPlain(line) <==> !IsIndentedCode(line) && FenceStart(line).None?
  {
    CodeWhenItLooksSo(line);
    hide LooksLikeCode, IsIndentedCode, LooksLikeFence, FenceStart;
    forall fence ensures FenceStart(line) == Some(fence) <==> LooksLikeFence(line, fence) {
      OpensWhenItLooksSo(line, fence);
    }
    if FenceStart(line).Some? { assert LooksLikeFence(line, FenceStart(line).value); }
  }

  lemma {:induction false} BodyIs(lines: seq<Line>, i: nat)
    requires i <= |lines|
    ensures var b := i + BodyLength(lines[i..]);
      && (forall k :: i <= k < b ==> MayBeRow(lines[k].text) && !IsBlank(lines[k].text))
      && (b < |lines| ==> !MayBeRow(lines[b].text) || IsBlank(lines[b].text))
    decreases |lines| - i
  {
    hide IsPlain, IsIndentedCode, FenceStart, IsBlank, HasDelimiter;
    if i < |lines| {
      assert lines[i..][0] == lines[i] && lines[i..][1..] == lines[i + 1..];
      PlainIs(lines[i].text);
      BodyIs(lines, i + 1);
    }
  }

  lemma FirstStands(lines: seq<Line>, i: nat)
    requires i < |lines|
    ensures StandsAt(FirstSegment(lines[i..], i + 1, FenceBefore(lines, i)), lines, i)
  {
    hide IsPlain, IsIndentedCode, FenceStart, IsBlank, HasDelimiter, Cells, ParseSeparator, FenceBefore, BodyLength;
    var rest := lines[i..];
    assert rest[0] == lines[i];
    PlainIs(lines[i].text);
    if i + 1 < |lines| {
      assert rest[1] == lines[i + 1] && rest[2..] == lines[i + 2..];
      PlainIs(lines[i + 1].text);
      BodyIs(lines, i + 2);
    }
  }

  lemma {:induction false} NoFenceIn(lines: seq<Line>, a: nat, b: nat)
    requires a <= b <= |lines| && FenceBefore(lines, a).None?
    requires forall k :: a <= k < b ==> FenceStart(lines[k].text).None?
    ensures FenceBefore(lines, b).None?
    decreases b - a
  {
    hide FenceStart, FenceCloses;
    if a < b { NoFenceIn(lines, a + 1, b); }
  }

  lemma StandStep(first: Segment, rest: seq<Segment>, lines: seq<Line>, i: nat)
    requires i + |LinesOf(first)| <= |lines| && StandsAt(first, lines, i)
    requires StandFrom(rest, lines, i + |LinesOf(first)|)
    ensures StandFrom([first] + rest, lines, i)
  {
    hide StandsAt, LinesOf;
    assert ([first] + rest)[1..] == rest;
  }

  lemma NothingStands(lines: seq<Line>, number: nat, fence: Option<Fence>)
    ensures StandFrom(Segments([], number, fence), lines, |lines|)
  {
  }

  lemma {:induction false} SegmentsStand(lines: seq<Line>, i: nat)
    requires i <= |lines|
    ensures StandFrom(Segments(lines[i..], i + 1, FenceBefore(lines, i)), lines, i)
    decreases |lines| - i
  {
    hide FirstSegment, StandsAt, FenceAfter, Segments, StandFrom, FenceBefore;
    var fence, rest := FenceBefore(lines, i), lines[i..];
    if i == |lines| {
      NothingStands(lines, i + 1, fence);
    } else {
      var first := FirstSegment(rest, i + 1, fence);
      var n := |LinesOf(first)|;
      FirstStands(lines, i);
      SegmentsStep(rest, i + 1, fence);
      FenceBehind(lines, i);
      assert rest[0] == lines[i] && rest[n..] == lines[i + n..];
      SegmentsStand(lines, i + n);
      StandStep(first, Segments(rest[n..], i + n + 1, FenceAfter(lines[i].text, fence)), lines, i);
    }
  }

  lemma FenceBehind(lines: seq<Line>, i: nat)
    requires i < |lines|
    ensures var first := FirstSegment(lines[i..], i + 1, FenceBefore(lines, i));
      && i + |LinesOf(first)| <= |lines|
      && FenceBefore(lines, i + |LinesOf(first)|) == FenceAfter(lines[i].text, FenceBefore(lines, i))
  {
    hide FirstSegment;
    var first := FirstSegment(lines[i..], i + 1, FenceBefore(lines, i));
    FirstStands(lines, i);
    if first.Grid? {
      hide IsPlain, IsBlank, HasDelimiter, Cells, ParseSeparator, FenceStart, FenceCloses;
      forall k | i <= k < i + |first.table| ensures FenceStart(lines[k].text).None? {
        assert MayBeRow(lines[k].text);
        PlainIs(lines[k].text);
      }
      NoFenceIn(lines, i, i + |first.table|);
    }
  }

  /** The text is cut into its tables and its other lines: wherever a table starts outside a code fence and not
      in another table, all of it is one, and there is no other. */
  lemma TablesAreWhereTheyLookSo(source: string)
    ensures StandFrom(Segments(Split(source), 1, None), Split(source), 0)
  {
    hide Segments, StandFrom;
    var lines := Split(source);
    assert lines[0..] == lines;
    SegmentsStand(lines, 0);
  }
}
