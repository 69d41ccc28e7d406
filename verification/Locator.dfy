/** Locating a passage by its text or by its lines, as a byte-addressed edit. */
module Locator {
  import opened Wrappers
  import opened Encoding
  import opened Splicing
  import opened LineEndings
  import opened TextEdits

  datatype LocatorError =
    | EmptyExpectedText | ExpectedTextNotFound | AmbiguousExpectedText | InvalidOccurrence | OccurrenceNotFound
    | InvalidLineRange | LineNotFound | ExpectedTextMismatch

  predicate OccursAt(content: string, pattern: string, i: nat) {
    i + |pattern| <= |content| && content[i..i + |pattern|] == pattern
  }

  /** Occurrences from `i` on, left to right, each search resuming after the last match. */
  function MatchIndices(content: string, pattern: string, i: nat): seq<nat>
    requires pattern != []
    decreases |content| - i
  {
    if i + |pattern| > |content| then []
    else if OccursAt(content, pattern, i) then [i] + MatchIndices(content, pattern, i + |pattern|)
    else MatchIndices(content, pattern, i + 1)
  }

  /** The edit of the scalar range from..to. */
  function EditOf(content: string, from: nat, to: nat, replacement: string): TextEdit
    requires from <= to <= |content|
  {
    TextEdit(Length(Utf8, content[..from]), Length(Utf8, content[..to]), replacement)
  }

  function ExactTextEdit(content: string, expected: string, occurrence: Option<nat>, replacement: string)
    : Result<TextEdit, LocatorError>
  {
    if expected == [] then Err(EmptyExpectedText)
    else
      var matches := MatchIndices(content, expected, 0);
      match occurrence
      case Some(n) =>
        if n == 0 then Err(InvalidOccurrence)
        else if |matches| < n then Err(OccurrenceNotFound)
        else
          MatchOccurs(content, expected, 0, n - 1);
          Ok(EditOf(content, matches[n - 1], matches[n - 1] + |expected|, replacement))
      case None =>
        if |matches| == 1 then
          MatchOccurs(content, expected, 0, 0);
          Ok(EditOf(content, matches[0], matches[0] + |expected|, replacement))
        else if matches == [] then Err(ExpectedTextNotFound)
        else Err(AmbiguousExpectedText)
  }

  /** Every reported match is an occurrence, after the end of the match before it. */
  lemma {:induction false} MatchOccurs(content: string, pattern: string, i: nat, k: nat)
    requires pattern != [] && k < |MatchIndices(content, pattern, i)|
    ensures var m := MatchIndices(content, pattern, i);
      && i <= m[k] && OccursAt(content, pattern, m[k])
      && (0 < k ==> m[k - 1] + |pattern| <= m[k])
    decreases |content| - i
  {
    var m := MatchIndices(content, pattern, i);
    if OccursAt(content, pattern, i) {
      var rest := MatchIndices(content, pattern, i + |pattern|);
      assert m == [i] + rest;
      if 0 < k {
        MatchOccurs(content, pattern, i + |pattern|, k - 1);
        assert m[k] == rest[k - 1];
        if 1 < k { assert m[k - 1] == rest[k - 2]; }
      }
    } else {
      MatchOccurs(content, pattern, i + 1, k);
    }
  }

  /** No occurrence is missed: each one starts within a reported match. */
  lemma {:induction false} MatchesCover(content: string, pattern: string, i: nat, j: nat) returns (k: nat)
    requires pattern != [] && i <= j && OccursAt(content, pattern, j)
    ensures var m := MatchIndices(content, pattern, i); k < |m| && m[k] <= j < m[k] + |pattern|
    decreases |content| - i
  {
    if !OccursAt(content, pattern, i) {
      k := MatchesCover(content, pattern, i + 1, j);
    } else if j < i + |pattern| {
      k := 0;
    } else {
      k := MatchesCover(content, pattern, i + |pattern|, j);
      k := k + 1;
    }
  }

  /** The text occurs at `i`, and every other occurrence overlaps that one from the right. */
  ghost predicate OnlyOverlaps(content: string, expected: string, i: nat) {
    OccursAt(content, expected, i) && forall j: nat :: OccursAt(content, expected, j) ==> i <= j < i + |expected|
  }

  /** Without an occurrence number the edit is accepted exactly when the text occurs and every
      other occurrence overlaps the first one. */
  lemma AcceptedWithoutNumberIff(content: string, expected: string, replacement: string)
    requires expected != []
    ensures ExactTextEdit(content, expected, None, replacement).Ok? <==> exists i :: OnlyOverlaps(content, expected, i)
  {
    var m := MatchIndices(content, expected, 0);
    assert ExactTextEdit(content, expected, None, replacement).Ok? <==> |m| == 1;
    hide ExactTextEdit, OccursAt, MatchIndices;
    if |m| == 1 {
      MatchOccurs(content, expected, 0, 0);
      forall j: nat | OccursAt(content, expected, j) ensures m[0] <= j < m[0] + |expected| {
        var k := MatchesCover(content, expected, 0, j);
      }
      assert OnlyOverlaps(content, expected, m[0]);
    } else {
      forall i | OnlyOverlaps(content, expected, i) ensures false {
        var k := MatchesCover(content, expected, 0, i);
        MatchOccurs(content, expected, 0, 0);
        MatchOccurs(content, expected, 0, 1);
      }
    }
  }

  /** The first occurrence from `from` on. */
  ghost predicate IsFirst(content: string, pattern: string, from: nat, i: nat) {
    from <= i && OccursAt(content, pattern, i) && forall j: nat :: from <= j < i ==> !OccursAt(content, pattern, j)
  }

  /** The `n`-th occurrence from `from` on, each one looked for behind the end of the one before. */
  ghost predicate IsNumbered(content: string, pattern: string, from: nat, n: nat, i: nat)
    requires n > 0
    decreases n
  {
    if n == 1 then IsFirst(content, pattern, from, i)
    else exists first: nat :: IsFirst(content, pattern, from, first)
                         && IsNumbered(content, pattern, first + |pattern|, n - 1, i)
  }

  lemma {:induction false} FirstIsMatched(content: string, pattern: string, from: nat, i: nat)
    requires pattern != [] && IsFirst(content, pattern, from, i)
    ensures MatchIndices(content, pattern, from) == [i] + MatchIndices(content, pattern, i + |pattern|)
    decreases i - from
  {
    if from < i { FirstIsMatched(content, pattern, from + 1, i); }
  }

  lemma {:induction false} NumberedIsMatched(content: string, pattern: string, from: nat, n: nat, i: nat)
    requires pattern != [] && n > 0 && IsNumbered(content, pattern, from, n, i)
    ensures n <= |MatchIndices(content, pattern, from)| && MatchIndices(content, pattern, from)[n - 1] == i
    decreases n
  {
    hide MatchIndices, OccursAt;
    if n == 1 {
      FirstIsMatched(content, pattern, from, i);
    } else {
      var first: nat :| IsFirst(content, pattern, from, first)
                   && IsNumbered(content, pattern, first + |pattern|, n - 1, i);
      FirstIsMatched(content, pattern, from, first);
      NumberedIsMatched(content, pattern, first + |pattern|, n - 1, i);
    }
  }

  lemma {:induction false} MatchedIsNumbered(content: string, pattern: string, from: nat, n: nat)
    requires pattern != [] && 0 < n <= |MatchIndices(content, pattern, from)|
    ensures IsNumbered(content, pattern, from, n, MatchIndices(content, pattern, from)[n - 1])
    decreases n
  {
    var first := FirstMatch(content, pattern, from);
    FirstIsMatched(content, pattern, from, first);
    hide MatchIndices, IsFirst;
    if n > 1 { MatchedIsNumbered(content, pattern, first + |pattern|, n - 1); }
  }

  lemma {:induction false} FirstMatch(content: string, pattern: string, from: nat) returns (first: nat)
    requires pattern != [] && MatchIndices(content, pattern, from) != []
    ensures IsFirst(content, pattern, from, first)
    decreases |content| - from
  {
    hide OccursAt;
    first := from;
    if !OccursAt(content, pattern, from) { first := FirstMatch(content, pattern, from + 1); }
  }

  /** With a number the edit is that of the occurrence with this number, and is refused exactly when there is
      none. */
  lemma NumberedOccurrenceIsEdited(content: string, expected: string, n: nat, replacement: string)
    requires expected != []
    ensures var r := ExactTextEdit(content, expected, Some(n), replacement);
      && (n == 0 ==> r == Err(InvalidOccurrence))
      && (n > 0 ==>
            && (r.Ok? <==> exists i: nat :: IsNumbered(content, expected, 0, n, i))
            && (r.Err? ==> r.error == OccurrenceNotFound)
            && forall i: nat :: IsNumbered(content, expected, 0, n, i) ==>
                 i + |expected| <= |content| && r == Ok(EditOf(content, i, i + |expected|, replacement)))
  {
    hide IsNumbered, MatchIndices, EditOf, OccursAt;
    var m := MatchIndices(content, expected, 0);
    if 0 < n <= |m| {
      MatchedIsNumbered(content, expected, 0, n);
      MatchOccurs(content, expected, 0, n - 1);
      OccursInside(content, expected, m[n - 1]);
    }
    hide ExactTextEdit;
    if 0 < n {
      forall i: nat | IsNumbered(content, expected, 0, n, i) ensures n <= |m| && m[n - 1] == i {
        NumberedIsMatched(content, expected, 0, n, i);
      }
    }
  }

  lemma OccursInside(content: string, pattern: string, i: nat)
    requires OccursAt(content, pattern, i)
    ensures i + |pattern| <= |content|
  {
  }

  /** An exact text without a number is not found exactly when it does not occur; other refusals are for an
      empty text or for a second match. */
  lemma UnnumberedRefusal(content: string, expected: string, replacement: string)
    ensures var r := ExactTextEdit(content, expected, None, replacement);
      && (expected == [] <==> r == Err(EmptyExpectedText))
      && (expected != [] ==> (r == Err(ExpectedTextNotFound) <==> forall j: nat :: !OccursAt(content, expected, j)))
      && (r.Err? ==> r.error in {EmptyExpectedText, ExpectedTextNotFound, AmbiguousExpectedText})
  {
    if expected != [] {
      var m := MatchIndices(content, expected, 0);
      hide MatchIndices, OccursAt;
      if m == [] {
        forall j: nat | OccursAt(content, expected, j) ensures false { var k := MatchesCover(content, expected, 0, j); }
      } else {
        MatchOccurs(content, expected, 0, 0);
      }
    }
  }

  /** So "unambiguous" is not "unique": overlapping occurrences are not noticed. */
  lemma OverlapsAreNotAmbiguous()
    ensures exists content, expected, i: nat, j: nat ::
      && i < j
      && OccursAt(content, expected, i) && OccursAt(content, expected, j)
      && ExactTextEdit(content, expected, None, "").Ok?
  {
    assert OccursAt("aaa", "aa", 0) && OccursAt("aaa", "aa", 1);
    assert !OccursAt("aaa", "aa", 2);
    assert MatchIndices("aaa", "aa", 2) == [];
    assert MatchIndices("aaa", "aa", 0) == [0] + MatchIndices("aaa", "aa", 2) == [0];
    assert ExactTextEdit("aaa", "aa", None, "").Ok?;
  }

  /** Positions after the line feeds from `i` on. */
  function StartsAfter(content: string, i: nat): seq<nat>
    decreases |content| - i
  {
    if |content| <= i then [] else (if content[i] == '\n' then [i + 1] else []) + StartsAfter(content, i + 1)
  }

  function LineStarts(content: string): seq<nat> {
    [0] + StartsAfter(content, 0)
  }

  /** Where the last selected line ends, without its line break. */
  function LineEnd(content: string, rawEnd: nat): nat
    requires rawEnd <= |content|
  {
    if 2 <= rawEnd && content[rawEnd - 2] == '\r' && content[rawEnd - 1] == '\n' then rawEnd - 2
    else if 1 <= rawEnd && content[rawEnd - 1] == '\n' then rawEnd - 1
    else rawEnd
  }

  function LineRangeEdit(content: string, startLine: nat, endLine: nat, expected: string, replacement: string)
    : Result<TextEdit, LocatorError>
  {
    if startLine == 0 || endLine < startLine then Err(InvalidLineRange)
    else
      var starts := LineStarts(content);
      LineStartsExact(content);
      if |starts| < startLine then Err(LineNotFound)
      else
        var start := starts[startLine - 1];
        var end := LineEnd(content, if endLine < |starts| then starts[endLine] else |content|);
        if end < start || content[start..end] != expected then Err(ExpectedTextMismatch)
        else Ok(EditOf(content, start, end, replacement))
  }

  function LineFeeds(s: string): nat {
    if s == [] then 0 else (if s[0] == '\n' then 1 else 0) + LineFeeds(s[1..])
  }

  lemma {:induction false} StartsAfterExact(content: string, i: nat)
    requires i <= |content|
    ensures var starts := StartsAfter(content, i);
      && |starts| == LineFeeds(content[i..])
      && forall k :: 0 <= k < |starts| ==>
        i < starts[k] <= |content| && content[starts[k] - 1] == '\n' && LineFeeds(content[i..starts[k]]) == k + 1
    decreases |content| - i
  {
    if i < |content| {
      StartsAfterExact(content, i + 1);
      var starts, rest := StartsAfter(content, i), StartsAfter(content, i + 1);
      assert content[i..] == [content[i]] + content[i + 1..];
      forall k | 0 <= k < |starts|
        ensures i < starts[k] <= |content| && content[starts[k] - 1] == '\n'
          && LineFeeds(content[i..starts[k]]) == k + 1
      {
        if content[i] == '\n' && k == 0 {
          assert content[i..i + 1] == ['\n'];
        } else {
          var r := if content[i] == '\n' then k - 1 else k;
          assert starts[k] == rest[r];
          assert content[i..rest[r]] == [content[i]] + content[i + 1..rest[r]];
        }
      }
    }
  }

  /** The k-th line starts right after the k-th line feed. */
  lemma LineStartsExact(content: string)
    ensures var starts := LineStarts(content);
      && |starts| == LineFeeds(content) + 1
      && forall k :: 0 <= k < |starts| ==>
        && starts[k] <= |content| && LineFeeds(content[..starts[k]]) == k
        && (starts[k] == 0 || content[starts[k] - 1] == '\n')
  {
    StartsAfterExact(content, 0);
    assert content[0..] == content && content[..0] == [];
    var starts := LineStarts(content);
    forall k | 0 <= k < |starts|
      ensures && starts[k] <= |content| && LineFeeds(content[..starts[k]]) == k
              && (starts[k] == 0 || content[starts[k] - 1] == '\n')
    {
      if 0 < k {
        assert starts[k] == StartsAfter(content, 0)[k - 1];
        assert content[0..starts[k]] == content[..starts[k]];
      }
    }
  }

  /** A located edit selects the scalar range from..to and applying it to the content it was
      located in cannot fail: prefix, normalized replacement, suffix. */
  lemma LocatedEditApplies(content: string, from: nat, to: nat, replacement: string)
    requires from <= to <= |content|
    ensures Apply(content, [EditOf(content, from, to, replacement)])
      == Ok(content[..from] + Canonical(replacement) + content[to..])
  {
    hide Encode, IsCharBoundary, StrictIndex;
    var e := EditOf(content, from, to, replacement);
    BoundaryAt(content, from);
    BoundaryAt(content, to);
    EncodeSlices(Utf8, content, from, to);
    assert [e][..0] == [] && [e][1..] == [];
    assert SortByKey([e]) == [e] by { assert SortByKey([]) == []; }
    assert FitFrom(content, [e], 0);
    var l := LocatedAll(content, [e]);
    assert l == [LocatedOne(content, e)] && l[1..] == [];
    LocatedAt(content, e, from, to);
    assert Substitute(content, to, []) == content[to..];
    assert content[0..from] == content[..from];
  }

  lemma BoundaryAt(content: string, i: nat)
    requires i <= |content|
    ensures IsCharBoundary(content, Length(Utf8, content[..i]))
  {
    StrictIndexExact(Utf8, content, Length(Utf8, content[..i]), i);
    StrictIndexSplitsNoScalar(Utf8, content, Length(Utf8, content[..i]));
  }

  lemma LocatedAt(content: string, e: TextEdit, from: nat, to: nat)
    requires from <= to <= |content| && e.start == Length(Utf8, content[..from]) && e.end == Length(Utf8, content[..to])
    requires IsCharBoundary(content, e.start) && IsCharBoundary(content, e.end)
    ensures LocatedOne(content, e) == Edit(from, to, Canonical(e.text))
  {
    StrictIndexExact(Utf8, content, e.start, from);
    StrictIndexExact(Utf8, content, e.end, to);
  }

  lemma ExactPlace(content: string, expected: string, occurrence: Option<nat>, replacement: string) returns (i: nat)
    requires ExactTextEdit(content, expected, occurrence, replacement).Ok?
    ensures OccursAt(content, expected, i)
    ensures occurrence.Some? ==>
      0 < occurrence.value <= |MatchIndices(content, expected, 0)|
        && i == MatchIndices(content, expected, 0)[occurrence.value - 1]
    ensures ExactTextEdit(content, expected, occurrence, replacement).value
      == EditOf(content, i, i + |expected|, replacement)
  {
    hide EditOf, OccursAt;
    var k := if occurrence.Some? then occurrence.value - 1 else 0;
    MatchOccurs(content, expected, 0, k);
    i := MatchIndices(content, expected, 0)[k];
  }

  /** The exact-text locator composes with editing: what it returns replaces one occurrence of the
      expected text, at scalar index `i`, and nothing else. */
  lemma ExactTextEditComposes(content: string, expected: string, occurrence: Option<nat>, replacement: string)
    returns (i: nat)
    requires ExactTextEdit(content, expected, occurrence, replacement).Ok?
    ensures OccursAt(content, expected, i)
    ensures occurrence.Some? ==>
      0 < occurrence.value <= |MatchIndices(content, expected, 0)|
        && i == MatchIndices(content, expected, 0)[occurrence.value - 1]
    ensures Apply(content, [ExactTextEdit(content, expected, occurrence, replacement).value])
      == Ok(content[..i] + Canonical(replacement) + content[i + |expected|..])
  {
    hide ExactTextEdit, Apply, EditOf, MatchIndices;
    i := ExactPlace(content, expected, occurrence, replacement);
    LocatedEditApplies(content, i, i + |expected|, replacement);
  }

  /** The position right before a line break, or the end of a text that has none there. */
  predicate IsLineEnd(content: string, j: nat)
    requires j <= |content|
  {
    if j + 1 < |content| && content[j] == '\r' && content[j + 1] == '\n' then true
    else if j < |content| then content[j] == '\n' && (j == 0 || content[j - 1] != '\r')
    else content == [] || content[|content| - 1] != '\n'
  }

  predicate HasFinalBreak(content: string) {
    content != [] && content[|content| - 1] == '\n'
  }

  /** The last line that a range can end with: the empty line after a final line break is none. */
  function LastLine(content: string): nat {
    LineFeeds(content) + if HasFinalBreak(content) then 0 else 1
  }

  function Least(a: nat, b: nat): nat {
    if a < b then a else b
  }

  /** Where line `line` ends, its line break left off. */
  function LineStop(content: string, line: nat): nat {
    LineStartsExact(content);
    var starts := LineStarts(content);
    LineEnd(content, if line < |starts| then starts[line] else |content|)
  }

  lemma LineFeedsOfNothing(content: string)
    ensures LineFeeds(content[..0]) == 0
  {
  }

  lemma {:induction false} LineFeedsConcat(a: string, b: string)
    ensures LineFeeds(a + b) == LineFeeds(a) + LineFeeds(b)
  {
    if a == [] {
      assert a + b == b;
    } else {
      assert (a + b)[1..] == a[1..] + b;
      LineFeedsConcat(a[1..], b);
    }
  }

  lemma LineFeedsOfOne(c: char)
    ensures LineFeeds([c]) == if c == '\n' then 1 else 0
  {
    assert [c][1..] == [];
  }

  /** Leaving a line break off goes back to the end of its line. */
  lemma LineEndStopsBeforeBreak(content: string, rawEnd: nat)
    requires 0 < rawEnd <= |content| && content[rawEnd - 1] == '\n'
    ensures var j := LineEnd(content, rawEnd);
      j < rawEnd && IsLineEnd(content, j) && LineFeeds(content[..j]) + 1 == LineFeeds(content[..rawEnd])
      && (content[j..rawEnd] == "\n" || content[j..rawEnd] == "\r\n")
  {
    hide LineFeeds;
    var n := rawEnd - 1;
    assert content[..rawEnd] == content[..n] + [content[n]];
    LineFeedsConcat(content[..n], [content[n]]);
    LineFeedsOfOne(content[n]);
    if 2 <= rawEnd && content[n - 1] == '\r' {
      assert content[..n] == content[..n - 1] + [content[n - 1]];
      LineFeedsConcat(content[..n - 1], [content[n - 1]]);
      LineFeedsOfOne(content[n - 1]);
    }
  }

  /** The end of a line stands where it should: as many line feeds before it as lines before its line. */
  lemma LineStopExact(content: string, line: nat)
    requires 0 < line
    ensures var j, last := LineStop(content, line), Least(line, LastLine(content));
      && (0 < last ==> j <= |content| && IsLineEnd(content, j) && LineFeeds(content[..j]) == last - 1)
      && (|LineStarts(content)| <= line ==> j <= |content| && content[j..] in ["", "\n", "\r\n"])
  {
    LineStartsExact(content);
    hide LineFeeds, LineStarts;
    var starts := LineStarts(content);
    var raw := if line < |starts| then starts[line] else |content|;
    assert content[..|content|] == content;
    if raw == 0 { LineFeedsOfNothing(content); }
    if 0 < raw && content[raw - 1] == '\n' {
      LineEndStopsBeforeBreak(content, raw);
    } else {
      assert LineEnd(content, raw) == |content| && content[|content|..] == "";
    }
  }

  /** Lines start one after the other, each before its own end. */
  lemma StartBeforeStop(content: string, startLine: nat, endLine: nat)
    requires 0 < startLine <= endLine && startLine <= |LineStarts(content)|
    ensures LineStarts(content)[startLine - 1] <= LineStop(content, endLine) <==> startLine <= LastLine(content)
  {
    LineStartsExact(content);
    LineStopExact(content, endLine);
    hide LineStarts, IsLineEnd;
    var i, j, last := LineStarts(content)[startLine - 1], LineStop(content, endLine), Least(endLine, LastLine(content));
    if startLine <= LastLine(content) {
      if j < i { FeedsBetween(content, j, i); }
    } else {
      assert startLine == |LineStarts(content)| && HasFinalBreak(content);
      StartOfTheEnd(content);
      LineStopIsBefore(content, endLine);
    }
  }

  /** From the end of a line to a later line start there is a line feed. */
  lemma FeedsBetween(content: string, j: nat, i: nat)
    requires j < i <= |content| && content[i - 1] == '\n'
    ensures LineFeeds(content[..j]) < LineFeeds(content[..i])
  {
    hide LineFeeds;
    assert content[..i] == content[..j] + (content[j..i - 1] + [content[i - 1]]);
    LineFeedsConcat(content[..j], content[j..i - 1] + [content[i - 1]]);
    LineFeedsConcat(content[j..i - 1], [content[i - 1]]);
    LineFeedsOfOne(content[i - 1]);
  }

  /** After a final line break the last line starts at the end. */
  lemma StartOfTheEnd(content: string)
    requires HasFinalBreak(content)
    ensures LineStarts(content)[|LineStarts(content)| - 1] == |content|
  {
    LineStartsExact(content);
    hide LineFeeds, LineStarts;
    var starts := LineStarts(content);
    var last := starts[|starts| - 1];
    assert content[..|content|] == content;
    if last < |content| { FeedsBetween(content, last, |content|); }
  }

  lemma LineStopIsBefore(content: string, endLine: nat)
    requires HasFinalBreak(content) && |LineStarts(content)| <= endLine
    ensures LineStop(content, endLine) < |content|
  {
  }

  /** The line-range locator accepts exactly when the range is in order, starts at a line that can be named,
      and the expected text is that of the asked lines, cut at the last line. */
  lemma LineRangeAcceptedIff(content: string, startLine: nat, endLine: nat, expected: string, replacement: string)
    ensures |LineStarts(content)| == LineFeeds(content) + 1
    ensures LineRangeEdit(content, startLine, endLine, expected, replacement).Ok? <==>
      && 1 <= startLine <= endLine && startLine <= LastLine(content)
      && LineStarts(content)[startLine - 1] <= LineStop(content, endLine) <= |content|
      && expected == content[LineStarts(content)[startLine - 1]..LineStop(content, endLine)]
  {
    LineStartsExact(content);
    hide EditOf, LineStarts, LineFeeds, LineEnd;
    if 1 <= startLine <= endLine && startLine <= |LineStarts(content)| {
      StartBeforeStop(content, startLine, endLine);
      LineStopExact(content, endLine);
    }
  }

  /** The line locator composes with editing: the edit starts at the start of line `startLine`, ends at the
      end of line `endLine` or of the last line that can be named, and replaces exactly the expected text. */
  lemma LineRangeEditComposes(content: string, startLine: nat, endLine: nat, expected: string, replacement: string)
    returns (i: nat, j: nat)
    requires LineRangeEdit(content, startLine, endLine, expected, replacement).Ok?
    ensures i <= j <= |content| && content[i..j] == expected
    ensures LineFeeds(content[..i]) == startLine - 1 && (i == 0 || content[i - 1] == '\n')
    ensures IsLineEnd(content, j) && LineFeeds(content[..j]) == Least(endLine, LastLine(content)) - 1
    ensures endLine < |LineStarts(content)| ==> j < |content| && LineFeeds(content[..j]) == endLine - 1
    ensures |LineStarts(content)| <= endLine ==> content[j..] in ["", "\n", "\r\n"]
    ensures Apply(content, [LineRangeEdit(content, startLine, endLine, expected, replacement).value])
      == Ok(content[..i] + Canonical(replacement) + content[j..])
  {
    LineStartsExact(content);
    LineRangeAcceptedIff(content, startLine, endLine, expected, replacement);
    LineStopExact(content, endLine);
    hide Apply, EditOf, LineFeeds, LineStarts, LineEnd, IsLineEnd;
    i, j := LineStarts(content)[startLine - 1], LineStop(content, endLine);
    assert LineRangeEdit(content, startLine, endLine, expected, replacement).value
      == EditOf(content, i, j, replacement);
    LocatedEditApplies(content, i, j, replacement);
    assert content[..|content|] == content;
  }

  /** An accepted range ends in the line that was asked for exactly when that line can be named. */
  lemma EndIsAskedIff(content: string, startLine: nat, endLine: nat, expected: string, replacement: string)
    requires LineRangeEdit(content, startLine, endLine, expected, replacement).Ok?
    ensures LineStop(content, endLine) <= |content|
    ensures LineFeeds(content[..LineStop(content, endLine)]) == endLine - 1 <==> endLine <= LastLine(content)
  {
    LineRangeAcceptedIff(content, startLine, endLine, expected, replacement);
    LineStopExact(content, endLine);
  }

  /** Some position lies in this line. */
  ghost predicate HasLine(content: string, line: nat) {
    exists p: nat :: p <= |content| && LineFeeds(content[..p]) == line - 1
  }

  /** All asked lines exist exactly when the end line does; the locator does not demand it. */
  lemma AskedLinesExistIff(content: string, startLine: nat, endLine: nat)
    requires 1 <= startLine <= endLine && startLine <= |LineStarts(content)|
    ensures (forall line :: startLine <= line <= endLine ==> HasLine(content, line))
      <==> endLine <= |LineStarts(content)|
  {
    LineStartsExact(content);
    hide LineFeeds, LineStarts;
    if endLine <= |LineStarts(content)| {
      forall line | startLine <= line <= endLine ensures HasLine(content, line) {
        assert LineFeeds(content[..LineStarts(content)[line - 1]]) == line - 1;
      }
    } else if HasLine(content, endLine) {
      var p: nat :| p <= |content| && LineFeeds(content[..p]) == endLine - 1;
      assert content == content[..p] + content[p..];
      LineFeedsConcat(content[..p], content[p..]);
      assert false;
    }
  }

  /** A range may end far beyond the last line. */
  lemma EndBeyondTheLastLine()
    ensures LineRangeEdit("a", 1, 7, "a", "").Ok? && |LineStarts("a")| == 1
  {
    LineStartsExact("a");
    assert LineFeeds("a") == LineFeeds("a"[1..]) == 0;
    assert LineStarts("a")[0] == 0 && "a"[0..1] == "a";
  }

  /** The empty line after a final line break is a line, but no range can start there. */
  lemma EmptyLastLineCannotBeNamed(expected: string, replacement: string)
    ensures |LineStarts("a\n")| == 2 && LineRangeEdit("a\n", 2, 2, expected, replacement).Err?
  {
    LineRangeAcceptedIff("a\n", 2, 2, expected, replacement);
    LineFeedsOfOne('a');
    LineFeedsOfOne('\n');
    assert "a\n" == "a" + "\n";
    LineFeedsConcat("a", "\n");
  }
}
