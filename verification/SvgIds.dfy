/** Renaming the ids of an SVG: which id becomes which, and which element keeps it when several had
    the same one. */
module SvgIds {
  import opened Wrappers

  /** One id attribute of an element that is kept. */
  datatype Occurrence = Occurrence(value: string, isRoot: bool, isExpanded: bool)

  /** The id plan and the bookkeeping behind it. */
  datatype Collector = Collector(
    mapped: map<string, string>,
    retained: map<string, nat>,
    seen: map<string, nat>,
    expanded: map<string, bool>,
    nextId: nat)

  const Fresh := Collector(map[], map[], map[], map[], 0)

  function Digits(n: nat): (r: string)
    ensures r != []
  {
    var digit := ('0' as int + n % 10) as char;
    if n < 10 then [digit] else Digits(n / 10) + [digit]
  }

  function RootId(renderId: string): string {
    "kmark-svg-" + renderId
  }

  function NumberedId(renderId: string, n: nat): string {
    "kmark-" + renderId + "-id-" + Digits(n)
  }

  predicate IsIdChar(c: char) {
    'a' <= c <= 'z' || 'A' <= c <= 'Z' || '0' <= c <= '9' || c == '-' || c == '_'
  }

  predicate IsIdText(s: string) {
    s != [] && forall i :: 0 <= i < |s| ==> IsIdChar(s[i])
  }

  /** The render ids that are accepted. */
  predicate IsRenderId(renderId: string) {
    IsIdText(renderId) && |renderId| <= 128
  }

  lemma {:induction false} DigitsAreIdText(n: nat)
    ensures IsIdText(Digits(n))
  {
    if n >= 10 { DigitsAreIdText(n / 10); }
  }

  lemma NewIdsAreIdTexts(renderId: string, n: nat)
    requires IsIdText(renderId)
    ensures IsIdText(RootId(renderId)) && IsIdText(NumberedId(renderId, n))
  {
    DigitsAreIdText(n);
    hide IsIdChar, Digits;
    assert IsIdText("kmark-svg-") && IsIdText("kmark-") && IsIdText("-id-") by { FixedIdTexts(); }
    IdTextConcat("kmark-svg-", renderId);
    IdTextConcat("kmark-", renderId);
    IdTextConcat("kmark-" + renderId, "-id-");
    IdTextConcat("kmark-" + renderId + "-id-", Digits(n));
  }

  lemma FixedIdTexts()
    ensures IsIdText("kmark-svg-") && IsIdText("kmark-") && IsIdText("-id-")
  {
  }

  lemma IdTextConcat(a: string, b: string)
    requires IsIdText(a) && IsIdText(b)
    ensures IsIdText(a + b)
  {
    hide IsIdChar;
  }

  function SeenBefore(seen: map<string, nat>, value: string): nat {
    if value in seen then seen[value] else 0
  }

  function Collect(s: Collector, o: Occurrence, renderId: string): Collector {
    var index := SeenBefore(s.seen, o.value);
    var seen := s.seen[o.value := index + 1];
    if o.value !in s.mapped then
      var nextId := if o.isRoot then s.nextId else s.nextId + 1;
      var id := if o.isRoot then RootId(renderId) else NumberedId(renderId, nextId);
      Collector(s.mapped[o.value := id], s.retained[o.value := index], seen, s.expanded[o.value := o.isExpanded],
        nextId)
    else if o.isExpanded && !(o.value in s.expanded && s.expanded[o.value]) then
      Collector(s.mapped, s.retained[o.value := index], seen, s.expanded[o.value := true], s.nextId)
    else
      s.(seen := seen)
  }

  function CollectAll(occurrences: seq<Occurrence>, renderId: string): Collector {
    if occurrences == [] then Fresh
    else
      var n := |occurrences| - 1;
      Collect(CollectAll(occurrences[..n], renderId), occurrences[n], renderId)
  }

  /** How often a value occurs. */
  function Count(occurrences: seq<Occurrence>, value: string): nat {
    if occurrences == [] then 0
    else
      var n := |occurrences| - 1;
      Count(occurrences[..n], value) + if occurrences[n].value == value then 1 else 0
  }

  /** The first occurrence of a value. */
  function First(occurrences: seq<Occurrence>, value: string): Option<Occurrence> {
    if occurrences == [] then None
    else if occurrences[0].value == value then Some(occurrences[0])
    else First(occurrences[1..], value)
  }

  /** What the second pass writes for an occurrence, the `seen` counts being those before it. */
  function Carried(s: Collector, seen: map<string, nat>, o: Occurrence): Option<string> {
    if o.isRoot || !(o.value in s.retained && s.retained[o.value] == SeenBefore(seen, o.value)) then None
    else if o.value in s.mapped then Some(s.mapped[o.value])
    else None
  }

  /** The ids that are written for the occurrences, in order. */
  function CarriedIds(s: Collector, occurrences: seq<Occurrence>): seq<string> {
    if occurrences == [] then []
    else
      var n := |occurrences| - 1;
      CarriedIds(s, occurrences[..n])
      + if IsCarrier(s, occurrences, n) then [s.mapped[occurrences[n].value]] else []
  }

  /** The element that keeps its (new) id. */
  predicate IsCarrier(s: Collector, occurrences: seq<Occurrence>, k: nat)
    requires k < |occurrences|
  {
    var o := occurrences[k];
    !o.isRoot && o.value in s.retained && o.value in s.mapped && s.retained[o.value] == Count(occurrences[..k], o.value)
  }

  /** The ids of the output: the root's, then the carriers'. */
  function OutputIds(occurrences: seq<Occurrence>, renderId: string): seq<string> {
    [RootId(renderId)] + CarriedIds(CollectAll(occurrences, renderId), occurrences)
  }

  /** The root comes first, and if anything follows it, it is not self-closing. */
  ghost predicate RootFirst(occurrences: seq<Occurrence>) {
    && (forall i, j :: 0 <= i <= j < |occurrences| && occurrences[j].isRoot ==> occurrences[i].isRoot)
    && (forall i, j :: 0 <= i <= j < |occurrences| && occurrences[i].isRoot && !occurrences[i].isExpanded ==>
      occurrences[j].isRoot)
  }

  lemma {:induction false} DigitsDiffer(a: nat, b: nat)
    requires Digits(a) == Digits(b)
    ensures a == b
    decreases a + b
  {
    var x, y := Digits(a), Digits(b);
    assert x[|x| - 1] == y[|y| - 1];
    if a >= 10 && b >= 10 {
      assert x[..|x| - 1] == Digits(a / 10) && y[..|y| - 1] == Digits(b / 10);
      DigitsDiffer(a / 10, b / 10);
    }
  }

  lemma NumberedIdsDiffer(renderId: string, a: nat, b: nat)
    ensures NumberedId(renderId, a) == NumberedId(renderId, b) <==> a == b
    ensures NumberedId(renderId, a) != RootId(renderId)
  {
    var prefix := "kmark-" + renderId + "-id-";
    assert NumberedId(renderId, a)[|prefix|..] == Digits(a);
    assert NumberedId(renderId, b)[|prefix|..] == Digits(b);
    if NumberedId(renderId, a) == NumberedId(renderId, b) { DigitsDiffer(a, b); }
    assert |RootId(renderId)| == 10 + |renderId| && |NumberedId(renderId, a)| >= 11 + |renderId|;
  }

  /** How many occurrences of the value come before its first expanded one. */
  function ExpandedIndex(occurrences: seq<Occurrence>, value: string): Option<nat> {
    if occurrences == [] then None
    else
      var n := |occurrences| - 1;
      var before := ExpandedIndex(occurrences[..n], value);
      if before.Some? then before
      else if occurrences[n].value == value && occurrences[n].isExpanded then Some(Count(occurrences[..n], value))
      else None
  }

  /** Whether the value occurred first on the root. */
  function IsRootValue(occurrences: seq<Occurrence>, value: string): bool {
    if occurrences == [] then false
    else
      var n := |occurrences| - 1;
      if Count(occurrences[..n], value) > 0 then IsRootValue(occurrences[..n], value)
      else occurrences[n].value == value && occurrences[n].isRoot
  }

  /** What the collector knows after these occurrences. */
  ghost predicate Knows(s: Collector, occurrences: seq<Occurrence>, value: string) {
    && SeenBefore(s.seen, value) == Count(occurrences, value)
    && (value in s.mapped <==> Count(occurrences, value) > 0)
    && (value in s.retained <==> value in s.mapped)
    && (value in s.expanded <==> value in s.mapped)
    && (value in s.mapped ==>
      && s.expanded[value] == ExpandedIndex(occurrences, value).Some?
      && s.retained[value] == (if s.expanded[value] then ExpandedIndex(occurrences, value).value else 0))
  }

  /** The kept occurrence of an id is its first expanded one, or its first if none is expanded. */
  lemma {:induction false} FirstExpandedIsKept(occurrences: seq<Occurrence>, renderId: string, value: string)
    ensures Knows(CollectAll(occurrences, renderId), occurrences, value)
  {
    hide NumberedId, RootId;
    if occurrences != [] {
      var n := |occurrences| - 1;
      FirstExpandedIsKept(occurrences[..n], renderId, value);
      FirstExpandedIsKept(occurrences[..n], renderId, occurrences[n].value);
      NoneYet(occurrences[..n], value);
    }
  }

  /** The occurrence that keeps the id: before all unexpanded ones if it is expanded itself, and before
      all later ones of its kind. */
  ghost predicate IsKept(occurrences: seq<Occurrence>, value: string, k: nat) {
    && k < |occurrences| && occurrences[k].value == value
    && forall j :: 0 <= j < |occurrences| && j != k && occurrences[j].value == value ==>
      if occurrences[j].isExpanded == occurrences[k].isExpanded then k < j else occurrences[k].isExpanded
  }

  /** The plan retains the index of the kept occurrence. */
  lemma {:induction false} KeptIsRetained(occurrences: seq<Occurrence>, renderId: string, value: string)
    returns (k: nat)
    requires Count(occurrences, value) > 0
    ensures IsKept(occurrences, value, k)
    ensures var s := CollectAll(occurrences, renderId);
      && value in s.mapped && value in s.retained && s.retained[value] == Count(occurrences[..k], value)
      && value in s.expanded && s.expanded[value] == occurrences[k].isExpanded
  {
    hide NumberedId, RootId, IsKept;
    var n := |occurrences| - 1;
    var before, o := occurrences[..n], occurrences[n];
    FirstExpandedIsKept(before, renderId, value);
    if Count(before, value) == 0 {
      k := n;
      NotThere(before, value);
      OnlyIsKept(occurrences, value);
    } else {
      k := KeptIsRetained(before, renderId, value);
      k := KeptNext(occurrences, value, k);
    }
  }

  lemma OnlyIsKept(occurrences: seq<Occurrence>, value: string)
    requires occurrences != [] && occurrences[|occurrences| - 1].value == value
    requires forall o :: o in occurrences[..|occurrences| - 1] ==> o.value != value
    ensures IsKept(occurrences, value, |occurrences| - 1)
  {
  }

  lemma KeptNext(occurrences: seq<Occurrence>, value: string, kept: nat) returns (k: nat)
    requires occurrences != [] && IsKept(occurrences[..|occurrences| - 1], value, kept)
    ensures kept < |occurrences| - 1 && IsKept(occurrences, value, k)
    ensures var n := |occurrences| - 1;
      k == if occurrences[n].value == value && occurrences[n].isExpanded && !occurrences[kept].isExpanded then n
        else kept
    ensures occurrences[..|occurrences| - 1][..kept] == occurrences[..kept]
    ensures occurrences[..|occurrences| - 1][kept] == occurrences[kept]
  {
    var n := |occurrences| - 1;
    k := if occurrences[n].value == value && occurrences[n].isExpanded && !occurrences[kept].isExpanded then n
      else kept;
    forall j | 0 <= j < n ensures occurrences[..n][j] == occurrences[j] {}
  }

  lemma {:induction false} NotThere(occurrences: seq<Occurrence>, value: string)
    requires Count(occurrences, value) == 0
    ensures forall o :: o in occurrences ==> o.value != value
  {
    if occurrences != [] { NotThere(occurrences[..|occurrences| - 1], value); }
  }

  lemma IsThere(occurrences: seq<Occurrence>, k: nat)
    requires k < |occurrences|
    ensures Count(occurrences, occurrences[k].value) > 0
  {
    assert occurrences[k] in occurrences;
    if Count(occurrences, occurrences[k].value) == 0 { NotThere(occurrences, occurrences[k].value); }
  }

  /** The kept occurrence of an id is on the root if the id was the root's, and carries the new id
      otherwise. */
  lemma KeptCarries(occurrences: seq<Occurrence>, renderId: string, value: string, k: nat)
    requires RootFirst(occurrences) && IsKept(occurrences, value, k)
    ensures value in CollectAll(occurrences, renderId).mapped
    ensures IsRootValue(occurrences, value) == occurrences[k].isRoot
    ensures !occurrences[k].isRoot ==> IsCarrier(CollectAll(occurrences, renderId), occurrences, k)
  {
    hide CollectAll, IsRootValue;
    IsThere(occurrences, k);
    var other := KeptIsRetained(occurrences, renderId, value);
    assert other == k;
    var first := FirstOnRoot(occurrences, value);
    if k < first { CountsDiffer(occurrences, k, first); }
    if first < k {
      assert occurrences[first].value == value;
    }
  }

  lemma {:induction false} NoneYet(occurrences: seq<Occurrence>, value: string)
    ensures ExpandedIndex(occurrences, value).Some? ==>
      ExpandedIndex(occurrences, value).value < Count(occurrences, value)
  {
    if occurrences != [] { NoneYet(occurrences[..|occurrences| - 1], value); }
  }

  /** Which id a value becomes: a number of its own, or the root's. */
  ghost predicate IsNamed(s: Collector, renderId: string, number: map<string, nat>) {
    && (forall v :: v in number ==> v in s.mapped && number[v] <= s.nextId)
    && (forall v :: v in s.mapped ==>
      s.mapped[v] == if v in number then NumberedId(renderId, number[v]) else RootId(renderId))
    && (forall v, w :: v in number && w in number && number[v] == number[w] ==> v == w)
  }

  lemma CollectKeepsNames(s: Collector, o: Occurrence, renderId: string, number: map<string, nat>)
    requires IsNamed(s, renderId, number)
    ensures var after := if o.value in s.mapped || o.isRoot then number else number[o.value := s.nextId + 1];
      IsNamed(Collect(s, o, renderId), renderId, after)
  {
    hide NumberedId, RootId;
  }

  lemma {:induction false} EachHasItsName(occurrences: seq<Occurrence>, renderId: string)
    returns (number: map<string, nat>)
    ensures IsNamed(CollectAll(occurrences, renderId), renderId, number)
    ensures forall v :: v in CollectAll(occurrences, renderId).mapped ==>
      (v in number <==> !IsRootValue(occurrences, v))
  {
    if occurrences == [] {
      number := map[];
    } else {
      var n := |occurrences| - 1;
      var before, o := occurrences[..n], occurrences[n];
      var s := CollectAll(before, renderId);
      var earlier := EachHasItsName(before, renderId);
      CollectKeepsNames(s, o, renderId, earlier);
      number := if o.value in s.mapped || o.isRoot then earlier else earlier[o.value := s.nextId + 1];
      hide NumberedId, RootId, IsNamed, Count;
      forall v | v in CollectAll(occurrences, renderId).mapped ensures v in number <==> !IsRootValue(occurrences, v) {
        FirstExpandedIsKept(before, renderId, v);
        NamedIsMapped(s, renderId, earlier, v);
      }
    }
  }

  lemma NamedIsMapped(s: Collector, renderId: string, number: map<string, nat>, v: string)
    requires IsNamed(s, renderId, number)
    ensures v in number ==> v in s.mapped
  {
  }

  /** New ids can stand wherever an id can. */
  lemma MappedAreIdTexts(occurrences: seq<Occurrence>, renderId: string)
    requires IsIdText(renderId)
    ensures forall v :: v in CollectAll(occurrences, renderId).mapped ==>
      IsIdText(CollectAll(occurrences, renderId).mapped[v])
  {
    var number := EachHasItsName(occurrences, renderId);
    hide NumberedId, RootId, CollectAll, IsIdText;
    forall v | v in CollectAll(occurrences, renderId).mapped
      ensures IsIdText(CollectAll(occurrences, renderId).mapped[v])
    {
      NewIdsAreIdTexts(renderId, if v in number then number[v] else 0);
    }
  }

  /** Two values become the same id only if both were on the root. */
  lemma NamesDiffer(occurrences: seq<Occurrence>, renderId: string, v: string, w: string)
    requires v in CollectAll(occurrences, renderId).mapped && w in CollectAll(occurrences, renderId).mapped
    ensures var mapped := CollectAll(occurrences, renderId).mapped;
      && (mapped[v] == RootId(renderId) <==> IsRootValue(occurrences, v))
      && (mapped[v] == mapped[w] ==> v == w || IsRootValue(occurrences, v))
  {
    var number := EachHasItsName(occurrences, renderId);
    hide NumberedId, RootId, CollectAll, IsRootValue;
    var a, b := if v in number then number[v] else 0, if w in number then number[w] else 0;
    NumberedIdsDiffer(renderId, a, b);
    NumberedIdsDiffer(renderId, b, a);
  }

  lemma {:induction false} CountGrows(occurrences: seq<Occurrence>, value: string, j: nat)
    requires j <= |occurrences|
    ensures Count(occurrences[..j], value) <= Count(occurrences, value)
    decreases |occurrences|
  {
    if j < |occurrences| {
      var n := |occurrences| - 1;
      CountGrows(occurrences[..n], value, j);
      assert occurrences[..n][..j] == occurrences[..j];
    } else {
      assert occurrences[..j] == occurrences;
    }
  }

  /** The occurrences of one value have different counts before them. */
  lemma CountsDiffer(occurrences: seq<Occurrence>, i: nat, j: nat)
    requires i < j <= |occurrences|
    ensures Count(occurrences[..i], occurrences[i].value) < Count(occurrences[..j], occurrences[i].value)
  {
    var value := occurrences[i].value;
    CountGrows(occurrences[..j], value, i + 1);
    assert occurrences[..j][..i + 1] == occurrences[..i + 1];
    assert occurrences[..i + 1][..i] == occurrences[..i];
  }

  /** A value that occurred first on the root occurs nowhere else first. */
  lemma {:induction false} FirstOnRoot(occurrences: seq<Occurrence>, value: string) returns (k: nat)
    requires Count(occurrences, value) > 0
    ensures k < |occurrences| && occurrences[k].value == value && Count(occurrences[..k], value) == 0
    ensures IsRootValue(occurrences, value) == occurrences[k].isRoot
  {
    var n := |occurrences| - 1;
    if Count(occurrences[..n], value) > 0 {
      k := FirstOnRoot(occurrences[..n], value);
      assert occurrences[..n][..k] == occurrences[..k];
    } else {
      k := n;
    }
  }

  lemma {:induction false} ExpandedIsFirst(occurrences: seq<Occurrence>, value: string, k: nat)
    requires k < |occurrences| && occurrences[k].value == value && occurrences[k].isExpanded
    requires Count(occurrences[..k], value) == 0
    ensures ExpandedIndex(occurrences, value) == Some(0)
    decreases |occurrences|
  {
    var n := |occurrences| - 1;
    if k < n {
      assert occurrences[..n][..k] == occurrences[..k];
      ExpandedIsFirst(occurrences[..n], value, k);
    } else {
      NoneBefore(occurrences[..n], value);
    }
  }

  lemma {:induction false} NoneBefore(occurrences: seq<Occurrence>, value: string)
    requires Count(occurrences, value) == 0
    ensures ExpandedIndex(occurrences, value) == None
  {
    if occurrences != [] { NoneBefore(occurrences[..|occurrences| - 1], value); }
  }

  /** A carrier's value did not occur on the root. */
  lemma CarrierIsNotRootValue(occurrences: seq<Occurrence>, renderId: string, k: nat)
    requires RootFirst(occurrences) && k < |occurrences|
    requires IsCarrier(CollectAll(occurrences, renderId), occurrences, k)
    ensures !IsRootValue(occurrences, occurrences[k].value)
  {
    var value := occurrences[k].value;
    FirstExpandedIsKept(occurrences, renderId, value);
    hide CollectAll;
    var first := FirstOnRoot(occurrences, value);
    if occurrences[first].isRoot {
      if first < k {
        assert occurrences[first].isExpanded;
        ExpandedIsFirst(occurrences, value, first);
        CountsDiffer(occurrences, first, k);
      }
    }
  }

  lemma {:induction false} CarriedComesFrom(s: Collector, occurrences: seq<Occurrence>, id: string) returns (k: nat)
    requires id in CarriedIds(s, occurrences)
    ensures k < |occurrences| && IsCarrier(s, occurrences, k) && s.mapped[occurrences[k].value] == id
  {
    var n := |occurrences| - 1;
    if id in CarriedIds(s, occurrences[..n]) {
      k := CarriedComesFrom(s, occurrences[..n], id);
      assert occurrences[..n][..k] == occurrences[..k];
    } else {
      k := n;
    }
  }

  lemma {:induction false} CarriedIsThere(s: Collector, occurrences: seq<Occurrence>, k: nat)
    requires k < |occurrences| && IsCarrier(s, occurrences, k)
    ensures s.mapped[occurrences[k].value] in CarriedIds(s, occurrences)
    decreases |occurrences|
  {
    var n := |occurrences| - 1;
    if k < n {
      assert occurrences[..n][..k] == occurrences[..k];
      CarriedIsThere(s, occurrences[..n], k);
    }
  }

  predicate NoDuplicates(ids: seq<string>) {
    forall i, j :: 0 <= i < j < |ids| ==> ids[i] != ids[j]
  }

  lemma {:induction false} CarriedAreDistinct(occurrences: seq<Occurrence>, renderId: string, m: nat)
    requires RootFirst(occurrences) && m <= |occurrences|
    ensures NoDuplicates(CarriedIds(CollectAll(occurrences, renderId), occurrences[..m]))
    ensures RootId(renderId) !in CarriedIds(CollectAll(occurrences, renderId), occurrences[..m])
  {
    hide CollectAll, RootId, RootFirst, IsCarrier, Count;
    var s := CollectAll(occurrences, renderId);
    if m > 0 {
      var n := m - 1;
      CarriedAreDistinct(occurrences, renderId, n);
      assert occurrences[..m][..n] == occurrences[..n];
      PrefixCarrier(s, occurrences, m, n);
      if IsCarrier(s, occurrences, n) {
        CarrierFacts(s, occurrences, n);
        CarrierIsNotRootValue(occurrences, renderId, n);
        var id := s.mapped[occurrences[n].value];
        NamesDiffer(occurrences, renderId, occurrences[n].value, occurrences[n].value);
        if id in CarriedIds(s, occurrences[..n]) {
          SameIdTwice(occurrences, renderId, n, id);
          assert false;
        }
      }
    }
  }

  lemma PrefixCarrier(s: Collector, occurrences: seq<Occurrence>, m: nat, k: nat)
    requires k < m <= |occurrences|
    ensures IsCarrier(s, occurrences[..m], k) == IsCarrier(s, occurrences, k)
  {
    assert occurrences[..m][..k] == occurrences[..k];
  }

  lemma CarrierFacts(s: Collector, occurrences: seq<Occurrence>, k: nat)
    requires k < |occurrences| && IsCarrier(s, occurrences, k)
    ensures occurrences[k].value in s.mapped
  {
  }

  /** No id is carried twice. */
  lemma SameIdTwice(occurrences: seq<Occurrence>, renderId: string, n: nat, id: string)
    requires RootFirst(occurrences) && n < |occurrences| && IsCarrier(CollectAll(occurrences, renderId), occurrences, n)
    requires CollectAll(occurrences, renderId).mapped[occurrences[n].value] == id
    ensures id !in CarriedIds(CollectAll(occurrences, renderId), occurrences[..n])
  {
    var s := CollectAll(occurrences, renderId);
    if id in CarriedIds(s, occurrences[..n]) {
      var k := CarriedComesFrom(s, occurrences[..n], id);
      PrefixCarrier(s, occurrences, n, k);
      CarrierIsNotRootValue(occurrences, renderId, n);
      NamesDiffer(occurrences, renderId, occurrences[n].value, occurrences[k].value);
      CountsDiffer(occurrences, k, n);
    }
  }

  /** Every id of the output occurs once, and the ids of the output are those that ids were renamed to
      (and the root's). */
  lemma IdsAreDistinctAndComplete(occurrences: seq<Occurrence>, renderId: string)
    requires RootFirst(occurrences)
    ensures NoDuplicates(OutputIds(occurrences, renderId))
    ensures forall v :: v in CollectAll(occurrences, renderId).mapped ==>
      CollectAll(occurrences, renderId).mapped[v] in OutputIds(occurrences, renderId)
    ensures forall id :: id in OutputIds(occurrences, renderId) ==>
      id == RootId(renderId) || id in CollectAll(occurrences, renderId).mapped.Values
  {
    var s := CollectAll(occurrences, renderId);
    assert occurrences[..|occurrences|] == occurrences;
    CarriedAreDistinct(occurrences, renderId, |occurrences|);
    hide CollectAll, CarriedIds, RootId;
    forall v | v in s.mapped ensures s.mapped[v] in OutputIds(occurrences, renderId) {
      NamesDiffer(occurrences, renderId, v, v);
      FirstExpandedIsKept(occurrences, renderId, v);
      var k := KeptIsRetained(occurrences, renderId, v);
      KeptCarries(occurrences, renderId, v, k);
      if !occurrences[k].isRoot { CarriedIsThere(s, occurrences, k); }
    }
    forall id | id in CarriedIds(s, occurrences) ensures id in s.mapped.Values {
      var k := CarriedComesFrom(s, occurrences, id);
      assert occurrences[k].value in s.mapped.Keys;
    }
  }

  /** How many different ids there are, without those that occurred first on the root. */
  function NumberedValues(occurrences: seq<Occurrence>): nat {
    if occurrences == [] then 0
    else
      var n := |occurrences| - 1;
      NumberedValues(occurrences[..n])
      + if !occurrences[n].isRoot && Count(occurrences[..n], occurrences[n].value) == 0 then 1 else 0
  }

  /** The new ids are numbered from one on, in the order in which the old ones first occur. An id of the root
      becomes the root's. */
  lemma {:induction false} IdsAreNumberedInOrder(occurrences: seq<Occurrence>, renderId: string, k: nat)
    requires k <= |occurrences|
    requires k < |occurrences| ==> Count(occurrences[..k], occurrences[k].value) == 0
    ensures CollectAll(occurrences, renderId).nextId == NumberedValues(occurrences)
    ensures k < |occurrences| ==>
      var o, mapped := occurrences[k], CollectAll(occurrences, renderId).mapped;
      && o.value in mapped
      && mapped[o.value] == if o.isRoot then RootId(renderId)
                            else NumberedId(renderId, NumberedValues(occurrences[..k + 1]))
    decreases |occurrences|
  {
    hide NumberedId, RootId;
    if occurrences != [] {
      var n := |occurrences| - 1;
      var before, last := occurrences[..n], occurrences[n];
      FirstExpandedIsKept(before, renderId, last.value);
      assert occurrences[..n + 1] == occurrences;
      if k < n {
        assert before[..k] == occurrences[..k] && before[..k + 1] == occurrences[..k + 1];
        IdsAreNumberedInOrder(before, renderId, k);
      } else {
        IdsAreNumberedInOrder(before, renderId, n);
      }
    }
  }
}
