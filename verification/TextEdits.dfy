/** Byte-addressed text edits of a proposal. */
module TextEdits {
  import opened Wrappers
  import opened Encoding
  import opened Splicing
  import opened UnitSplicing
  import opened LineEndings

  /** Offsets count UTF-8 bytes. */
  datatype TextEdit = TextEdit(start: nat, end: nat, text: string)

  /** The order of the sort key (start, end). */
  predicate KeyLess(a: TextEdit, b: TextEdit) {
    a.start < b.start || (a.start == b.start && a.end < b.end)
  }

  /** Places an edit after everything whose key is not greater. */
  function InsertByKey(sorted: seq<TextEdit>, e: TextEdit): seq<TextEdit> {
    if sorted == [] || KeyLess(e, sorted[0]) then [e] + sorted
    else [sorted[0]] + InsertByKey(sorted[1..], e)
  }

  /** The stable sort by (start, end). */
  function SortByKey(edits: seq<TextEdit>): seq<TextEdit> {
    if edits == [] then [] else InsertByKey(SortByKey(edits[..|edits| - 1]), edits[|edits| - 1])
  }

  ghost predicate Sorted(edits: seq<TextEdit>) {
    forall i, j :: 0 <= i < j < |edits| ==> !KeyLess(edits[j], edits[i])
  }

  /** A byte offset where some scalar value starts, or the end of the text. */
  predicate IsCharBoundary(s: string, offset: nat) {
    var bytes := Encode(Utf8, s);
    offset <= |bytes| && (offset < |bytes| ==> Leading(Utf8, bytes[offset]))
  }

  predicate Fits(content: string, e: TextEdit, previousEnd: nat) {
    && e.start <= e.end <= Length(Utf8, content)
    && IsCharBoundary(content, e.start) && IsCharBoundary(content, e.end)
    && previousEnd <= e.start
  }

  predicate FitFrom(content: string, edits: seq<TextEdit>, previousEnd: nat) {
    edits != [] ==> Fits(content, edits[0], previousEnd) && FitFrom(content, edits[1..], edits[0].end)
  }

  /** The edits in scalar positions, with the line endings of the replacements normalized. */
  ghost function Located(content: string, edits: seq<TextEdit>, previousEnd: nat): (r: seq<Edit<char>>)
    requires FitFrom(content, edits, previousEnd)
    ensures |r| == |edits|
    decreases edits
  {
    if edits == [] then []
    else [LocatedOne(content, edits[0])] + Located(content, edits[1..], edits[0].end)
  }

  ghost function LocatedOne(content: string, e: TextEdit): Edit<char>
    requires IsCharBoundary(content, e.start) && IsCharBoundary(content, e.end)
  {
    StrictIndexSplitsNoScalar(Utf8, content, e.start);
    StrictIndexSplitsNoScalar(Utf8, content, e.end);
    Edit(StrictIndex(Utf8, content, e.start).value, StrictIndex(Utf8, content, e.end).value, Canonical(e.text))
  }

  lemma LocatedOneExact(content: string, e: TextEdit)
    requires IsCharBoundary(content, e.start) && IsCharBoundary(content, e.end) && e.start <= e.end
    ensures var l := LocatedOne(content, e);
      && l.from <= l.to <= |content|
      && Length(Utf8, content[..l.from]) == e.start && Length(Utf8, content[..l.to]) == e.end
  {
    var l := LocatedOne(content, e);
    StrictIndexSplitsNoScalar(Utf8, content, e.start);
    StrictIndexSplitsNoScalar(Utf8, content, e.end);
    StrictIndexExact(Utf8, content, e.start, l.from);
    StrictIndexExact(Utf8, content, e.end, l.to);
    if l.to < l.from { EncodeSlices(Utf8, content, l.to, l.from); }
  }

  lemma {:induction false} LocatedIsOrdered(content: string, edits: seq<TextEdit>, previousEnd: nat, pos: nat)
    requires FitFrom(content, edits, previousEnd) && pos <= |content| && Length(Utf8, content[..pos]) == previousEnd
    ensures Ordered(Located(content, edits, previousEnd), pos, |content|)
    decreases edits
  {
    hide Encode, IsCharBoundary, LocatedOne;
    if edits != [] {
      var e := edits[0];
      var l := LocatedOne(content, e);
      LocatedOneExact(content, e);
      if l.from < pos { EncodeSlices(Utf8, content, l.from, pos); }
      LocatedIsOrdered(content, edits[1..], e.end, l.to);
      assert Located(content, edits, previousEnd)[1..] == Located(content, edits[1..], e.end);
    }
  }

  ghost function LocatedAll(content: string, edits: seq<TextEdit>): (r: seq<Edit<char>>)
    requires FitFrom(content, edits, 0)
    ensures Ordered(r, 0, |content|)
  {
    assert content[..0] == [];
    LocatedIsOrdered(content, edits, 0, 0);
    Located(content, edits, 0)
  }

  /** The meaning of a list of edits: refused unless the sorted ranges are disjoint ranges between
      scalar boundaries, otherwise all of them made at once. */
  ghost function Apply(content: string, edits: seq<TextEdit>): Result<string, ()> {
    ApplyOrdered(content, SortByKey(edits))
  }

  /** What edits that are already in order make of the text. */
  ghost function ApplyOrdered(content: string, ordered: seq<TextEdit>): Result<string, ()> {
    if FitFrom(content, ordered, 0) then Ok(Substitute(content, 0, LocatedAll(content, ordered))) else Err(())
  }

  method SortEdits(operations: seq<TextEdit>) returns (ordered: seq<TextEdit>)
    ensures ordered == SortByKey(operations)
  {
    ordered := [];
    assert operations[..0] == [];
    for k := 0 to |operations|
      invariant ordered == SortByKey(operations[..k])
    {
      ordered := InsertByKey(ordered, operations[k]);
      assert operations[..k + 1][..k] == operations[..k];
    }
    assert operations[..|operations|] == operations;
  }

  /** Sorts, checks each range against the end of the one before, and replaces from the right. */
  method ApplyTextEdits(content: string, operations: seq<TextEdit>) returns (r: Result<string, ()>)
    ensures r == Apply(content, operations)
  {
    var ordered := SortEdits(operations);
    var fits := CheckRanges(content, ordered);
    if !fits {
      return Err(());
    }
    var next := ReplaceFromTheRight(content, ordered);
    return Ok(next);
  }

  method CheckRanges(content: string, ordered: seq<TextEdit>) returns (fits: bool)
    ensures fits == FitFrom(content, ordered, 0)
  {
    hide IsCharBoundary;
    var previousEnd := 0;
    assert ordered[0..] == ordered;
    for k := 0 to |ordered|
      invariant FitFrom(content, ordered, 0) == FitFrom(content, ordered[k..], previousEnd)
    {
      assert ordered[k..][1..] == ordered[k + 1..];
      var e := ordered[k];
      if e.start > e.end || e.end > Length(Utf8, content)
         || !IsCharBoundary(content, e.start) || !IsCharBoundary(content, e.end) || e.start < previousEnd {
        return false;
      }
      previousEnd := e.end;
    }
    return true;
  }

  /** Replaces the bytes of the range, located in the text as it is now. */
  method ReplaceFromTheRight(content: string, ordered: seq<TextEdit>) returns (next: string)
    requires FitFrom(content, ordered, 0)
    ensures next == Substitute(content, 0, LocatedAll(content, ordered))
  {
    hide IsCharBoundary, LocatedOne, FitFrom;
    ghost var edits := LocatedAll(content, ordered);
    LocatedElements(content, ordered, 0);
    next := content;
    var n := |ordered|;
    assert edits[n..] == [] && content[0..] == content;
    while 0 < n
      invariant 0 <= n <= |ordered| == |edits|
      invariant Ordered(edits[n..], 0, |content|)
      invariant next == Substitute(content, 0, edits[n..])
    {
      n := n - 1;
      ReplaceNext(content, edits, n);
      PrefixStays(content, edits, n);
      var e := ordered[n];
      StillAt(content, next, e, edits[n]);
      var replacement := NormalizeEditorText(e.text);
      var from, to := UnitToChar(Utf8, next, e.start), UnitToChar(Utf8, next, e.end);
      next := next[..from] + replacement.text + next[to..];
    }
    assert edits[0..] == edits;
  }

  lemma {:induction false} LocatedElements(content: string, edits: seq<TextEdit>, previousEnd: nat)
    requires FitFrom(content, edits, previousEnd)
    ensures forall k :: 0 <= k < |edits| ==>
      && IsCharBoundary(content, edits[k].start) && IsCharBoundary(content, edits[k].end)
      && edits[k].start <= edits[k].end
      && Located(content, edits, previousEnd)[k] == LocatedOne(content, edits[k])
    decreases edits
  {
    hide IsCharBoundary, LocatedOne;
    if edits != [] {
      LocatedElements(content, edits[1..], edits[0].end);
      assert forall k :: 1 <= k < |edits| ==> edits[k] == edits[1..][k - 1];
    }
  }

  /** Edits to the right of a position leave the text before it alone. */
  lemma PrefixStays(s: string, edits: seq<Edit<char>>, k: nat)
    requires Ordered(edits, 0, |s|) && k < |edits|
    ensures Ordered(edits[k + 1..], 0, |s|)
    ensures var t := Substitute(s, 0, edits[k + 1..]);
      edits[k].to <= |s| && edits[k].to <= |t| && t[..edits[k].to] == s[..edits[k].to]
  {
    OrderedTail(edits, 0, |s|, k + 1);
    OrderedBound(edits, 0, |s|);
    SubstituteFrom(s, 0, edits[k].to, edits[k + 1..]);
  }

  /** So the byte range of the next edit still names the same scalar positions. */
  lemma StillAt(content: string, next: string, e: TextEdit, l: Edit<char>)
    requires IsCharBoundary(content, e.start) && IsCharBoundary(content, e.end) && e.start <= e.end
    requires l == LocatedOne(content, e)
    requires l.to <= |content| && l.to <= |next| && next[..l.to] == content[..l.to]
    ensures e.start <= Length(Utf8, next) && e.end <= Length(Utf8, next)
    ensures UnitToChar(Utf8, next, e.start) == l.from && UnitToChar(Utf8, next, e.end) == l.to
    ensures l.insert == Canonical(e.text)
  {
    hide IsCharBoundary, Encode, UnitToChar;
    LocatedOneExact(content, e);
    assert next[..l.from] == next[..l.to][..l.from] == content[..l.from];
    StrictIndexExact(Utf8, next, e.start, l.from);
    StrictIndexExact(Utf8, next, e.end, l.to);
  }

  /** Read as bytes: the result is the byte string with the byte ranges substituted at once. */
  lemma ApplyIsByteSubstitution(content: string, operations: seq<TextEdit>)
    requires Apply(content, operations).Ok?
    ensures var edits := LocatedAll(content, SortByKey(operations));
      var bytes := UnitEdits(Utf8, content, 0, edits);
      && Ordered(bytes, 0, Length(Utf8, content))
      && Encode(Utf8, Apply(content, operations).value) == Substitute(Encode(Utf8, content), 0, bytes)
      && forall k :: 0 <= k < |bytes| ==>
        var e := SortByKey(operations)[k]; bytes[k] == Edit(e.start, e.end, Encode(Utf8, Canonical(e.text)))
  {
    hide Encode, IsCharBoundary, LocatedOne;
    var ordered := SortByKey(operations);
    assert content[..0] == [] && Length(Utf8, []) == 0 by { EmptyHasNoBytes(); }
    EncodeSubstitute(Utf8, content, 0, LocatedAll(content, ordered));
    ByteEdits(content, ordered, 0, 0);
  }

  lemma EmptyHasNoBytes()
    ensures Encode(Utf8, []) == []
  {
  }

  lemma {:induction false} ByteEdits(content: string, edits: seq<TextEdit>, previousEnd: nat, pos: nat)
    requires FitFrom(content, edits, previousEnd) && Ordered(Located(content, edits, previousEnd), pos, |content|)
    ensures var bytes := UnitEdits(Utf8, content, pos, Located(content, edits, previousEnd));
      forall k :: 0 <= k < |bytes| ==>
        bytes[k] == Edit(edits[k].start, edits[k].end, Encode(Utf8, Canonical(edits[k].text)))
    decreases edits
  {
    hide Encode, IsCharBoundary;
    if edits != [] {
      var e := edits[0];
      var l := LocatedOne(content, e);
      LocatedOneExact(content, e);
      var rest := Located(content, edits[1..], e.end);
      assert Located(content, edits, previousEnd)[1..] == rest;
      ByteEdits(content, edits[1..], e.end, l.to);
      var bytes := UnitEdits(Utf8, content, pos, Located(content, edits, previousEnd));
      assert bytes[1..] == UnitEdits(Utf8, content, l.to, rest);
      assert forall k :: 1 <= k < |edits| ==> edits[k] == edits[1..][k - 1] && bytes[k] == bytes[1..][k - 1];
    }
  }

  /** Applied edits keep canonical text canonical. */
  lemma ApplyKeepsLf(content: string, operations: seq<TextEdit>)
    requires '\r' !in content && Apply(content, operations).Ok?
    ensures '\r' !in Apply(content, operations).value
  {
    var ordered := SortByKey(operations);
    LocatedKeepsLf(content, ordered, 0, 0);
  }

  lemma {:induction false} LocatedKeepsLf(content: string, edits: seq<TextEdit>, previousEnd: nat, pos: nat)
    requires '\r' !in content
    requires FitFrom(content, edits, previousEnd) && Ordered(Located(content, edits, previousEnd), pos, |content|)
    ensures '\r' !in Substitute(content, pos, Located(content, edits, previousEnd))
    decreases edits
  {
    hide IsCharBoundary, Encode;
    if edits != [] {
      var l, rest := LocatedOne(content, edits[0]), Located(content, edits[1..], edits[0].end);
      assert Located(content, edits, previousEnd)[1..] == rest;
      OrderedBound(Located(content, edits, previousEnd), pos, |content|);
      LocatedKeepsLf(content, edits[1..], edits[0].end, l.to);
      CanonicalHasNoCr(edits[0].text);
    }
  }

  predicate DistinctRanges(edits: seq<TextEdit>) {
    forall i, j :: 0 <= i < j < |edits| ==> edits[i].start != edits[j].start || edits[i].end != edits[j].end
  }

  lemma {:induction false} InsertSorts(sorted: seq<TextEdit>, e: TextEdit)
    requires Sorted(sorted)
    ensures Sorted(InsertByKey(sorted, e))
    ensures multiset(InsertByKey(sorted, e)) == multiset(sorted) + multiset{e}
  {
    if sorted == [] || KeyLess(e, sorted[0]) {
    } else {
      var rest := InsertByKey(sorted[1..], e);
      InsertSorts(sorted[1..], e);
      assert sorted == [sorted[0]] + sorted[1..];
      forall j | 0 <= j < |rest| ensures !KeyLess(rest[j], sorted[0]) {
        assert rest[j] in multiset(rest);
        if rest[j] != e { assert rest[j] in multiset(sorted[1..]); assert rest[j] in sorted[1..]; }
      }
    }
  }

  lemma {:induction false} SortSorts(edits: seq<TextEdit>)
    ensures Sorted(SortByKey(edits)) && multiset(SortByKey(edits)) == multiset(edits)
  {
    if edits != [] {
      var n := |edits| - 1;
      SortSorts(edits[..n]);
      InsertSorts(SortByKey(edits[..n]), edits[n]);
      assert edits == edits[..n] + [edits[n]];
    }
  }

  predicate SameKey(a: TextEdit, b: TextEdit) {
    a.start == b.start && a.end == b.end
  }

  predicate Commute(a: TextEdit, b: TextEdit) {
    Canonical(a.text) + Canonical(b.text) == Canonical(b.text) + Canonical(a.text)
  }

  /** Edits of one range insert texts that commute. */
  ghost predicate AllCommute(edits: multiset<TextEdit>) {
    forall x, y :: x in edits && y in edits && SameKey(x, y) ==> Commute(x, y)
  }

  lemma {:induction false} SameKeysFit(content: string, a: seq<TextEdit>, b: seq<TextEdit>, previousEnd: nat)
    requires |a| == |b| && forall k :: 0 <= k < |a| ==> SameKey(a[k], b[k])
    ensures FitFrom(content, a, previousEnd) <==> FitFrom(content, b, previousEnd)
    decreases |a|
  {
    hide IsCharBoundary;
    if a != [] {
      assert SameKey(a[0], b[0]);
      forall k | 0 <= k < |a[1..]| ensures SameKey(a[1..][k], b[1..][k]) { assert SameKey(a[k + 1], b[k + 1]); }
      SameKeysFit(content, a[1..], b[1..], a[0].end);
    }
  }

  /** Two edits of one range can only both fit if they insert. */
  lemma {:induction false} SameKeyInserts(content: string, edits: seq<TextEdit>, previousEnd: nat, i: nat)
    requires FitFrom(content, edits, previousEnd) && i + 1 < |edits| && SameKey(edits[i], edits[i + 1])
    ensures edits[i].start == edits[i].end
    decreases |edits|
  {
    hide IsCharBoundary;
    if 0 < i { SameKeyInserts(content, edits[1..], edits[0].end, i - 1); }
  }

  /** Exchanging neighbours of one range makes no difference exactly when their texts commute, or when
      the edits are refused anyway. */
  lemma ExchangeNeighbours(content: string, edits: seq<TextEdit>, i: nat)
    requires i + 1 < |edits| && SameKey(edits[i], edits[i + 1])
    ensures var other := edits[i := edits[i + 1]][i + 1 := edits[i]];
      && ApplyOrdered(content, edits).Ok? == ApplyOrdered(content, other).Ok?
      && (ApplyOrdered(content, edits) == ApplyOrdered(content, other)
          <==> (ApplyOrdered(content, edits).Ok? ==> Commute(edits[i], edits[i + 1])))
  {
    hide FitFrom, IsCharBoundary, LocatedOne, Encode, Canonical, Located;
    var other := edits[i := edits[i + 1]][i + 1 := edits[i]];
    forall k | 0 <= k < |edits| ensures SameKey(edits[k], other[k]) {}
    SameKeysFit(content, edits, other, 0);
    if FitFrom(content, edits, 0) {
      SameKeyInserts(content, edits, 0, i);
      LocatedElements(content, edits, 0);
      LocatedElements(content, other, 0);
      var l, m := LocatedAll(content, edits), LocatedAll(content, other);
      LocatedInsertion(content, edits[i], edits[i + 1]);
      assert l == l[..i] + [l[i], l[i + 1]] + l[i + 2..];
      assert m == l[..i] + [l[i + 1], l[i]] + l[i + 2..];
      ExchangeInsertions(content, 0, l[..i], l[i], l[i + 1], l[i + 2..]);
    }
  }

  lemma LocatedInsertion(content: string, x: TextEdit, y: TextEdit)
    requires IsCharBoundary(content, x.start) && SameKey(x, y) && x.start == x.end
    ensures var l, m := LocatedOne(content, x), LocatedOne(content, y);
      && l.from == l.to == m.from == m.to && l.insert == Canonical(x.text) && m.insert == Canonical(y.text)
  {
    hide IsCharBoundary, Encode;
  }

  /** Moving an edit forward over others of its range. */
  lemma {:induction false} BringForward(content: string, edits: seq<TextEdit>, n: nat, i: nat)
    returns (moved: seq<TextEdit>)
    requires Sorted(edits) && n <= i < |edits| && SameKey(edits[n], edits[i])
    ensures moved == edits[..n] + [edits[i]] + edits[n..i] + edits[i + 1..]
    ensures Sorted(moved) && multiset(moved) == multiset(edits)
    ensures ApplyOrdered(content, moved).Ok? == ApplyOrdered(content, edits).Ok?
    ensures AllCommute(multiset(edits)) ==> ApplyOrdered(content, moved) == ApplyOrdered(content, edits)
    decreases i
  {
    hide *;
    if i == n {
      moved := edits;
      assert edits == edits[..n] + [edits[n]] + [] + edits[n + 1..];
    } else {
      var other := BringOneForward(content, edits, n, i);
      moved := BringForward(content, other, n, i - 1);
    }
  }

  lemma BringOneForward(content: string, edits: seq<TextEdit>, n: nat, i: nat) returns (other: seq<TextEdit>)
    requires Sorted(edits) && n < i < |edits| && SameKey(edits[n], edits[i])
    ensures |other| == |edits| && Sorted(other) && multiset(other) == multiset(edits)
    ensures SameKey(other[n], other[i - 1])
    ensures ApplyOrdered(content, other).Ok? == ApplyOrdered(content, edits).Ok?
    ensures AllCommute(multiset(edits)) ==> ApplyOrdered(content, other) == ApplyOrdered(content, edits)
    ensures other[..n] + [other[i - 1]] + other[n..i - 1] + other[i..]
      == edits[..n] + [edits[i]] + edits[n..i] + edits[i + 1..]
  {
    hide ApplyOrdered, Commute, Sorted, AllCommute;
    Between(edits, n, i);
    CommuteAt(edits, i - 1);
    other := edits[i - 1 := edits[i]][i := edits[i - 1]];
    ExchangeNeighbours(content, edits, i - 1);
    ExchangedIsSorted(edits, i - 1);
    BroughtForward(edits, other, n, i);
  }

  lemma CommuteAt(edits: seq<TextEdit>, i: nat)
    requires i + 1 < |edits| && SameKey(edits[i], edits[i + 1])
    ensures AllCommute(multiset(edits)) ==> Commute(edits[i], edits[i + 1])
  {
    hide Commute;
    assert edits[i] in multiset(edits) && edits[i + 1] in multiset(edits);
  }

  lemma BroughtForward(edits: seq<TextEdit>, other: seq<TextEdit>, n: nat, i: nat)
    requires n < i < |edits| && other == edits[i - 1 := edits[i]][i := edits[i - 1]]
    ensures other[..n] + [other[i - 1]] + other[n..i - 1] + other[i..]
      == edits[..n] + [edits[i]] + edits[n..i] + edits[i + 1..]
  {
    assert other[..n] == edits[..n] && other[n..i - 1] == edits[n..i - 1];
    assert edits[n..i] == edits[n..i - 1] + [edits[i - 1]] && other[i..] == [edits[i - 1]] + edits[i + 1..];
  }

  lemma Between(edits: seq<TextEdit>, n: nat, i: nat)
    requires Sorted(edits) && n < i < |edits| && SameKey(edits[n], edits[i])
    ensures SameKey(edits[n], edits[i - 1]) && SameKey(edits[i - 1], edits[i])
  {
    if n < i - 1 { assert !KeyLess(edits[i - 1], edits[n]) && !KeyLess(edits[i], edits[i - 1]); }
  }

  lemma ExchangedIsSorted(edits: seq<TextEdit>, i: nat)
    requires Sorted(edits) && i + 1 < |edits| && SameKey(edits[i], edits[i + 1])
    ensures var other := edits[i := edits[i + 1]][i + 1 := edits[i]];
      Sorted(other) && multiset(other) == multiset(edits)
  {
    var other := edits[i := edits[i + 1]][i + 1 := edits[i]];
    forall j, k | 0 <= j < k < |other| ensures !KeyLess(other[k], other[j]) {
      assert SameKey(other[j], edits[j]) && SameKey(other[k], edits[k]) && !KeyLess(edits[k], edits[j]);
    }
  }

  /** Two arrangements in order of the same edits. */
  lemma {:induction false} ArrangementsAgree(content: string, a: seq<TextEdit>, b: seq<TextEdit>, n: nat)
    requires Sorted(a) && Sorted(b) && multiset(a) == multiset(b) && n <= |a| == |b| && a[..n] == b[..n]
    ensures ApplyOrdered(content, a).Ok? == ApplyOrdered(content, b).Ok?
    ensures AllCommute(multiset(a)) ==> ApplyOrdered(content, a) == ApplyOrdered(content, b)
    decreases |a| - n
  {
    hide ApplyOrdered, Commute, Sorted;
    if n == |a| {
      assert a == a[..n] == b[..n] == b;
    } else {
      var i := NextInOrder(a, b, n);
      var moved := BringForward(content, b, n, i);
      assert moved[..n + 1] == a[..n] + [a[n]] == a[..n + 1];
      ArrangementsAgree(content, a, moved, n + 1);
    }
  }

  lemma NextInOrder(a: seq<TextEdit>, b: seq<TextEdit>, n: nat) returns (i: nat)
    requires Sorted(a) && Sorted(b) && multiset(a) == multiset(b) && n < |a| == |b| && a[..n] == b[..n]
    ensures n <= i < |b| && b[i] == a[n] && SameKey(b[n], b[i])
  {
    assert a == a[..n] + a[n..] && b == b[..n] + b[n..];
    assert multiset(a) == multiset(a[..n]) + multiset(a[n..]) && multiset(b) == multiset(b[..n]) + multiset(b[n..]);
    Cancel(multiset(a[..n]), multiset(a[n..]), multiset(b[n..]));
    assert a[n] == a[n..][0] && a[n] in multiset(b[n..]) && b[n] == b[n..][0] && b[n] in multiset(a[n..]);
    var j :| 0 <= j < |b[n..]| && b[n..][j] == a[n];
    var k :| 0 <= k < |a[n..]| && a[n..][k] == b[n];
    i := n + j;
    if 0 < j { assert !KeyLess(b[i], b[n]); }
    if 0 < k { assert !KeyLess(a[n + k], a[n]); }
  }

  lemma Cancel<T>(a: multiset<T>, x: multiset<T>, y: multiset<T>)
    requires a + x == a + y
    ensures x == y
  {
    forall e ensures x[e] == y[e] { assert (a + x)[e] == (a + y)[e]; }
  }

  /** Sorting keeps two edits of one range together that come first. */
  lemma {:induction false} FirstTwoStay(x: TextEdit, y: TextEdit, rest: seq<TextEdit>) returns (i: nat)
    requires SameKey(x, y)
    ensures var xy, yx := SortByKey([x, y] + rest), SortByKey([y, x] + rest);
      && i + 1 < |xy| && xy[i] == x && xy[i + 1] == y && yx == xy[i := y][i + 1 := x]
    decreases |rest|
  {
    if rest == [] {
      i := 0;
      assert [x, y] + rest == [x, y] && [y, x] + rest == [y, x];
      TwoSorted(x, y);
      TwoSorted(y, x);
    } else {
      var n := |rest| - 1;
      i := FirstTwoStay(x, y, rest[..n]);
      assert ([x, y] + rest)[..n + 2] == [x, y] + rest[..n] && ([y, x] + rest)[..n + 2] == [y, x] + rest[..n];
      i := InsertBeside(SortByKey([x, y] + rest[..n]), x, y, rest[n], i);
    }
  }

  lemma TwoSorted(x: TextEdit, y: TextEdit)
    requires SameKey(x, y)
    ensures SortByKey([x, y]) == [x, y]
  {
    assert [x, y][..1] == [x] && [x][..0] == [] && [x][1..] == [];
    assert SortByKey([x]) == [x] by { assert SortByKey([]) == []; }
    assert InsertByKey([x], y) == [x] + InsertByKey([], y);
  }

  lemma {:induction false} InsertBeside(sorted: seq<TextEdit>, x: TextEdit, y: TextEdit, e: TextEdit, i: nat)
    returns (j: nat)
    requires SameKey(x, y) && i + 1 < |sorted| && sorted[i] == x && sorted[i + 1] == y
    ensures var xy, yx := InsertByKey(sorted, e), InsertByKey(sorted[i := y][i + 1 := x], e);
      && j + 1 < |xy| && xy[j] == x && xy[j + 1] == y && yx == xy[j := y][j + 1 := x]
    decreases |sorted|
  {
    var other := sorted[i := y][i + 1 := x];
    if KeyLess(e, sorted[0]) {
      j := i + 1;
    } else if i == 0 {
      j := 0;
      assert sorted[1..] == [y] + sorted[2..] && other[1..] == [x] + sorted[2..];
      assert InsertByKey([y] + sorted[2..], e) == [y] + InsertByKey(sorted[2..], e);
      assert InsertByKey([x] + sorted[2..], e) == [x] + InsertByKey(sorted[2..], e);
    } else {
      var k := InsertBeside(sorted[1..], x, y, e, i - 1);
      assert other[1..] == sorted[1..][i - 1 := y][i := x];
      j := k + 1;
    }
  }

  /** The order in which a client lists its edits makes no difference exactly when the edits are refused,
      or those of one range (which can only be insertions) insert texts that commute. */
  lemma OrderDoesNotMatterIff(content: string, a: seq<TextEdit>)
    ensures (forall b :: multiset(b) == multiset(a) ==> Apply(content, b) == Apply(content, a))
      <==> (Apply(content, a).Ok? ==> AllCommute(multiset(a)))
  {
    hide ApplyOrdered, Canonical, Apply;
    if Apply(content, a).Ok? ==> AllCommute(multiset(a)) {
      forall b | multiset(b) == multiset(a) ensures Apply(content, b) == Apply(content, a) {
        OrdersAgree(content, a, b);
      }
    } else {
      var x, y :| x in multiset(a) && y in multiset(a) && SameKey(x, y) && !Commute(x, y);
      var rest := TakeOut(a, x, y);
      OrderShows(content, a, x, y, rest);
    }
  }

  lemma OrdersAgree(content: string, a: seq<TextEdit>, b: seq<TextEdit>)
    requires multiset(a) == multiset(b)
    ensures Apply(content, a).Ok? == Apply(content, b).Ok?
    ensures Apply(content, a).Err? || AllCommute(multiset(a)) ==> Apply(content, a) == Apply(content, b)
  {
    hide FitFrom, Sorted, Commute;
    SortSorts(a);
    SortSorts(b);
    var x, y := SortByKey(a), SortByKey(b);
    assert |x| == |multiset(x)| == |multiset(y)| == |y| && x[..0] == y[..0];
    ArrangementsAgree(content, x, y, 0);
  }

  lemma TakeOut(a: seq<TextEdit>, x: TextEdit, y: TextEdit) returns (rest: seq<TextEdit>)
    requires x in multiset(a) && y in multiset(a) && x != y
    ensures multiset([x, y] + rest) == multiset(a) == multiset([y, x] + rest)
  {
    var without := TakeOne(a, x);
    rest := TakeOne(without, y);
    assert multiset([x, y] + rest) == multiset{x} + (multiset{y} + multiset(rest));
    assert multiset([y, x] + rest) == multiset{x} + (multiset{y} + multiset(rest));
  }

  lemma TakeOne(a: seq<TextEdit>, x: TextEdit) returns (rest: seq<TextEdit>)
    requires x in multiset(a)
    ensures multiset(a) == multiset{x} + multiset(rest)
  {
    var i :| 0 <= i < |a| && a[i] == x;
    rest := a[..i] + a[i + 1..];
    assert a == a[..i] + ([x] + a[i + 1..]);
    assert multiset(a) == multiset(a[..i]) + (multiset{x} + multiset(a[i + 1..]));
  }

  /** Edits that do not commute give two results when they come first in either order. */
  lemma OrderShows(content: string, a: seq<TextEdit>, x: TextEdit, y: TextEdit, rest: seq<TextEdit>)
    requires Apply(content, a).Ok? && SameKey(x, y) && !Commute(x, y)
    requires multiset([x, y] + rest) == multiset(a) == multiset([y, x] + rest)
    ensures Apply(content, [x, y] + rest) != Apply(content, a) || Apply(content, [y, x] + rest) != Apply(content, a)
  {
    hide FitFrom, Sorted, Commute, Located, LocatedAll;
    OrdersAgree(content, a, [x, y] + rest);
    var i := FirstTwoStay(x, y, rest);
    ExchangeNeighbours(content, SortByKey([x, y] + rest), i);
  }

  /** In particular it makes none for edits with distinct ranges. */
  lemma OrderDoesNotMatter(content: string, a: seq<TextEdit>, b: seq<TextEdit>)
    requires multiset(a) == multiset(b) && DistinctRanges(a)
    ensures Apply(content, a) == Apply(content, b)
  {
    assert AllCommute(multiset(a));
    OrdersAgree(content, a, b);
  }

  /** The order does matter for two insertions at one point. */
  lemma OrderMattersAtOnePoint()
    ensures exists content, a, b :: multiset(a) == multiset(b) && Apply(content, a) != Apply(content, b)
  {
    var x, y := TextEdit(0, 0, "x"), TextEdit(0, 0, "y");
    TwoInsertions(x, y);
    TwoInsertions(y, x);
    assert multiset([x, y]) == multiset([y, x]);
    assert (x.text + y.text)[0] != (y.text + x.text)[0];
    assert Apply("", [x, y]) != Apply("", [y, x]);
  }

  lemma TwoInsertions(x: TextEdit, y: TextEdit)
    requires x.start == x.end == y.start == y.end == 0 && |x.text| == |y.text| == 1
    requires '\r' !in x.text && '\r' !in y.text
    ensures Apply("", [x, y]) == Ok(x.text + y.text)
  {
    var edits := [x, y];
    assert edits[..1] == [x] && [x][..0] == [] && edits[1..] == [y] && [y][1..] == [];
    assert SortByKey([x]) == [x] by { assert SortByKey([]) == []; }
    assert InsertByKey([x], y) == [x, y] by { assert [x][1..] == []; }
    assert SortByKey(edits) == edits;
    assert FitFrom("", [y], 0) && FitFrom("", edits, 0) by {
      EmptyHasNoBytes();
      assert Fits("", x, 0) && Fits("", y, 0);
    }
    LocatedElements("", edits, 0);
    var l := LocatedAll("", edits);
    LocatedOneExact("", x);
    LocatedOneExact("", y);
    CanonicalKeepsLf(x.text);
    CanonicalKeepsLf(y.text);
    assert l[1..] == [LocatedOne("", y)] && l[1..][1..] == [];
    assert Substitute("", 0, []) == "";
    assert Substitute("", 0, l[1..]) == ""[0..0] + y.text + "" == y.text;
    assert l[0] == LocatedOne("", x);
    assert Substitute("", 0, l) == ""[0..0] + x.text + y.text == x.text + y.text;
  }
}
