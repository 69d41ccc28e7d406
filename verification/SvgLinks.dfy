/** Renaming the ids of an SVG keeps the edges of its reference graph: links and `url(...)` references lead
    to the tag that their id was on. It adds an edge only where a link that named nothing happens to name a
    new id. */
module SvgLinks {
  import opened Wrappers
  import opened SvgEvents
  import opened SvgIds
  import opened SvgReferences
  import opened SvgRewrite
  import opened SvgTheorems

  /** An attribute that may refer to an id: a link, or one whose value is searched for references. */
  predicate IsReferring(local: string) {
    || local == "href" || local == "src"
    || (!IsForbiddenAttribute(local) && local !in {
          "id", "style", "aria-labelledby", "aria-describedby", "role", "preserveaspectratio",
            "data-kmark-generated-svg"})
  }

  function Referring(attributes: seq<Attribute>): seq<Attribute> {
    if attributes == [] then []
    else (if IsReferring(Local(attributes[0].name)) then [attributes[0]] else []) + Referring(attributes[1..])
  }

  function ReferringAt(e: Event): seq<Attribute> {
    if IsOpening(e) then Referring(e.attributes) else []
  }

  /** A link to a renamed id follows it; any other stays, and leads to a fragment only from an `a`. In other
      values the references are moved. */
  predicate IsMoved(from: Attribute, to: Attribute, element: string, mapped: IdMap, hosts: seq<string>) {
    var link := TrimSpace(from.value);
    && to.name == from.name
    && if !IsLink(from.name) then RewriteUrls(from.value, mapped, hosts) == Ok(to.value)
       else if NamesMapped(link, mapped) then to.value == "#" + mapped[link[1..]]
       else to.value == link && ("#" <= link ==> element == "a")
  }

  predicate AreMoved(from: seq<Attribute>, to: seq<Attribute>, element: string, mapped: IdMap,
                     hosts: seq<string>) {
    |from| == |to| && forall i :: 0 <= i < |from| ==> IsMoved(from[i], to[i], element, mapped, hosts)
  }

  lemma {:induction false} ReferringConcat(a: seq<Attribute>, b: seq<Attribute>)
    ensures Referring(a + b) == Referring(a) + Referring(b)
  {
    hide IsReferring, Local;
    if a == [] {
      assert a + b == b;
    } else {
      assert (a + b)[1..] == a[1..] + b;
      ReferringConcat(a[1..], b);
    }
  }

  lemma ReferringOne(a: Attribute)
    ensures Referring([a]) == (if IsReferring(Local(a.name)) then [a] else []) && Referring([]) == []
  {
    hide IsReferring, Local;
    assert [a][1..] == [];
  }

  lemma {:induction false} AttributesMove(w: Written, attributes: seq<Attribute>, element: string, isRoot: bool,
                                          plan: Collector, rules: Rules) returns (moved: seq<Attribute>)
    requires RewriteEach(w, attributes, element, isRoot, plan, rules).Ok?
    ensures Referring(RewriteEach(w, attributes, element, isRoot, plan, rules).value.attributes)
      == Referring(w.attributes) + moved
    ensures AreMoved(Referring(attributes), moved, element, plan.mapped, rules.hosts)
    decreases |attributes|
  {
    hide RewriteAttribute, Referring, IsMoved, OccurrencesOf;
    if attributes == [] {
      moved := [];
      ReferringOne(Attribute([], []));
    } else {
      EachStep(w, attributes, element, isRoot, false, plan, rules);
      var first := AttributeMoves(w, attributes[0], element, isRoot, plan, rules);
      var next := RewriteAttribute(w, attributes[0], element, isRoot, plan, rules).value;
      var rest := AttributesMove(next, attributes[1..], element, isRoot, plan, rules);
      moved := first + rest;
      ReferringConcat([attributes[0]], attributes[1..]);
      assert [attributes[0]] + attributes[1..] == attributes;
    }
  }

  lemma AttributeMoves(w: Written, a: Attribute, element: string, isRoot: bool, plan: Collector, rules: Rules)
    returns (moved: seq<Attribute>)
    requires RewriteAttribute(w, a, element, isRoot, plan, rules).Ok?
    ensures Referring(RewriteAttribute(w, a, element, isRoot, plan, rules).value.attributes)
      == Referring(w.attributes) + moved
    ensures AreMoved(Referring([a]), moved, element, plan.mapped, rules.hosts)
  {
    hide Local, IsForbiddenAttribute, SanitizeHref, Referring, NamesMapped, RewriteUrls, Labels, IsReferring, TrimSpace;
    LinksAreAllowed(Local(a.name));
    OthersAreNotReferring(Local(a.name));
    ReferringOne(a);
    var after := RewriteAttribute(w, a, element, isRoot, plan, rules).value;
    moved := [];
    if after.attributes != w.attributes {
      var last := after.attributes[|w.attributes|];
      assert after.attributes == w.attributes + [last] && last.name == a.name;
      ReferringConcat(w.attributes, [last]);
      ReferringOne(last);
      moved := Referring([last]);
    }
  }

  lemma LinksAreAllowed(local: string)
    ensures local == "href" || local == "src" ==> !IsForbiddenAttribute(local) && IsReferring(local) && local != "id"
    ensures IsForbiddenAttribute(local) ==> !IsReferring(local)
  {
    assert "href"[0] != "on"[0] && "src"[0] != "on"[0];
    assert |"href"| == 4 && |"src"| == 3 && |"ping"| == 4 && "ping"[0] == 'p' && |"base"| == 4 && "base"[0] == 'b';
  }

  lemma NotReferring(local: string)
    requires local in {
      "id", "style", "aria-labelledby", "aria-describedby", "role", "preserveaspectratio", "data-kmark-generated-svg"}
    ensures !IsReferring(local)
  {
    assert |"href"| == 4 && |"src"| == 3 && |"id"| == 2 && |"style"| == 5 && |"role"| == 4 && "role"[0] == 'r';
    assert |"aria-labelledby"| == 15 && |"aria-describedby"| == 16 && |"preserveaspectratio"| == 19;
    assert |"data-kmark-generated-svg"| == 24;
  }

  lemma OthersAreNotReferring(local: string)
    ensures local in RootsOwn || local == "style" ==> !IsReferring(local)
    ensures local == "aria-labelledby" || local == "aria-describedby" ==> !IsReferring(local)
  {
    hide IsReferring;
    if local in RootsOwn || local in {"style", "aria-labelledby", "aria-describedby"} { NotReferring(local); }
  }

  const RootsOwn := {"id", "role", "preserveaspectratio", "data-kmark-generated-svg"}

  lemma {:induction false} WithoutKeepsReferring(attributes: seq<Attribute>)
    ensures Referring(Without(attributes, RootsOwn)) == Referring(attributes)
  {
    hide Local, IsReferring;
    if attributes != [] {
      WithoutKeepsReferring(attributes[1..]);
      var first := if Local(attributes[0].name) in RootsOwn then [] else [attributes[0]];
      ReferringConcat(first, Without(attributes[1..], RootsOwn));
      ReferringOne(attributes[0]);
      OthersAreNotReferring(Local(attributes[0].name));
    }
  }

  lemma {:induction false} NoneReferring(attributes: seq<Attribute>)
    requires forall i :: 0 <= i < |attributes| ==> !IsReferring(Local(attributes[i].name))
    ensures Referring(attributes) == []
  {
    hide IsReferring, Local;
    if attributes != [] { NoneReferring(attributes[1..]); }
  }

  lemma OwnLocals()
    ensures Local("id") == "id" && Local("style") == "style" && Local("role") == "role"
    ensures Local("preserveAspectRatio") == "preserveaspectratio"
    ensures Local("data-kmark-generated-svg") == "data-kmark-generated-svg"
  {
    LocalOf("id");
    LocalOf("data-kmark-generated-svg");
    LocalOf("style");
    LocalOf("preserveAspectRatio");
    LocalOf("role");
    assert Lower("id") == "id" && Lower("style") == "style" && Lower("role") == "role";
    assert Lower("preserveAspectRatio") == "preserveaspectratio";
    assert Lower("data-kmark-generated-svg") == "data-kmark-generated-svg";
  }

  lemma FixedLocals()
    ensures forall name :: name in {"id", "style", "role", "preserveAspectRatio", "data-kmark-generated-svg"} ==>
      !IsReferring(Local(name))
  {
    OwnLocals();
    hide Local;
    forall name | name in {"id", "style", "role", "preserveAspectRatio", "data-kmark-generated-svg"}
      ensures !IsReferring(Local(name))
    {
      NotReferring(Local(name));
    }
  }

  /** The attributes that are added to a tag refer to nothing. */
  lemma AddedAreNotReferring(attributes: seq<Attribute>, added: seq<Attribute>)
    requires forall i :: 0 <= i < |added| ==>
      added[i].name in {"id", "style", "role", "preserveAspectRatio", "data-kmark-generated-svg"}
    ensures Referring(attributes + added) == Referring(attributes)
  {
    hide Referring, IsReferring, Local;
    FixedLocals();
    NoneReferring(added);
    ReferringConcat(attributes, added);
    assert Referring(attributes) + [] == Referring(attributes);
  }

  lemma RootKeepsReferring(w: Written, renderId: string, plan: Collector, presentation: Presentation)
    requires FinishRoot(w, renderId, plan, presentation).Ok?
    ensures Referring(FinishRoot(w, renderId, plan, presentation).value) == Referring(w.attributes)
  {
    hide Without, Referring, RootId;
    WithoutKeepsReferring(w.attributes);
    var kept, style := Without(w.attributes, RootsOwn), presentation.rootStyle(w.style, plan.mapped).value;
    var own := [Attribute("id", RootId(renderId)), Attribute("data-kmark-generated-svg", "true")];
    var ratio := if presentation.preserveAspectRatio.None? then []
      else [Attribute("preserveAspectRatio", presentation.preserveAspectRatio.value)];
    var role := [Attribute("role", "img")];
    AddedAreNotReferring(kept, own);
    AddedAreNotReferring(kept + own, StyleAttribute(style));
    AddedAreNotReferring(kept + own + StyleAttribute(style), ratio);
    AddedAreNotReferring(kept + own + StyleAttribute(style) + ratio, role);
    assert kept + own + StyleAttribute(style) + [] == kept + own + StyleAttribute(style);
  }

  /** The referring attributes of a rewritten tag are its own, moved, in their order. */
  lemma TagMoves(tag: Event, out: Event, isRoot: bool, seen: map<string, nat>, k: Context)
    requires IsRewritten(tag, out, isRoot, seen, k)
    ensures AreMoved(Referring(tag.attributes), Referring(out.attributes), Local(tag.name), k.plan.mapped,
                     k.rules.hosts)
  {
    hide RewriteEach, Local, Referring, AreMoved, FinishRoot;
    var start := Written([], None, seen);
    var moved := AttributesMove(start, tag.attributes, Local(tag.name), isRoot, k.plan, k.rules);
    var w := RewriteEach(start, tag.attributes, Local(tag.name), isRoot, k.plan, k.rules).value;
    ReferringOne(Attribute([], []));
    assert [] + moved == moved;
    if isRoot {
      RootKeepsReferring(w, k.renderId, k.plan, k.presentation);
    } else {
      AddedAreNotReferring(w.attributes, if w.style.Some? then StyleAttribute(w.style.value) else []);
    }
  }

  /** The tag that gets the new id of `v`: the first opening tag with that id that is not self-closing, or
      the first self-closing one if there is no other. */
  ghost predicate IsTarget(tags: seq<Event>, v: string, n: nat) {
    && n < |tags| && v in IdsAt(tags[n])
    && forall m :: 0 <= m < |tags| && m != n && v in IdsAt(tags[m]) ==>
      if tags[m].Start? == tags[n].Start? then n < m else tags[n].Start?
  }

  lemma {:induction false} TargetExists(tags: seq<Event>, v: string) returns (n: nat)
    requires v in AllIds(tags)
    ensures IsTarget(tags, v, n)
    decreases |tags|
  {
    hide IdsAt;
    if v in AllIds(tags[1..]) {
      var m := TargetExists(tags[1..], v);
      assert forall i :: 0 < i < |tags| ==> tags[i] == tags[1..][i - 1];
      n := if v in IdsAt(tags[0]) && (tags[0].Start? || !tags[m + 1].Start?) then 0 else m + 1;
    } else {
      n := 0;
      forall m | 0 < m < |tags| ensures v !in IdsAt(tags[m]) {
        if v in IdsAt(tags[m]) { IdIsThere(tags[1..], v, m - 1); }
      }
    }
  }

  lemma {:induction false} IdIsThere(tags: seq<Event>, v: string, n: nat)
    requires n < |tags| && v in IdsAt(tags[n])
    ensures v in AllIds(tags)
    decreases |tags|
  {
    hide IdsAt;
    if n > 0 { IdIsThere(tags[1..], v, n - 1); }
  }

  /** The tag of an occurrence. */
  function TagOf(tags: seq<Event>, first: bool, k: nat): (n: nat)
    requires k < |TagOccurrences(tags, first)|
    ensures n < |tags|
    decreases tags
  {
    var here := |OccurrencesOn(tags[0], first)|;
    if k < here then 0 else 1 + TagOf(tags[1..], false, k - here)
  }

  lemma {:induction false} TagOfIsMonotone(tags: seq<Event>, first: bool, k: nat, j: nat)
    requires k <= j < |TagOccurrences(tags, first)|
    ensures TagOf(tags, first, k) <= TagOf(tags, first, j)
    decreases |tags|
  {
    hide OccurrencesOn;
    var here := |OccurrencesOn(tags[0], first)|;
    if k >= here { TagOfIsMonotone(tags[1..], false, k - here, j - here); }
  }

  lemma {:induction false} TagOfHasIt(tags: seq<Event>, first: bool, k: nat)
    requires k < |TagOccurrences(tags, first)|
    ensures var o, tag := TagOccurrences(tags, first)[k], tags[TagOf(tags, first, k)];
      o.value != [] && o.value in IdsAt(tag) && o.isExpanded == tag.Start?
    ensures TagOccurrences(tags, first)[k].isRoot == (first && TagOf(tags, first, k) == 0)
    decreases |tags|
  {
    hide OccurrencesOn, IdsAt;
    var here := OccurrencesOn(tags[0], first);
    if k < |here| {
      TagHasIt(tags[0], first, k);
    } else {
      TagOfHasIt(tags[1..], false, k - |here|);
      assert TagOccurrences(tags, first)[k] == TagOccurrences(tags[1..], false)[k - |here|];
    }
  }

  lemma TagHasIt(tag: Event, isRoot: bool, k: nat)
    requires k < |OccurrencesOn(tag, isRoot)|
    ensures var o := OccurrencesOn(tag, isRoot)[k];
      o.value != [] && o.value in IdsAt(tag) && o.isExpanded == tag.Start? && o.isRoot == isRoot
  {
    hide OccurrencesOf;
    OccurrencesAreAlike(tag.attributes, isRoot, tag.Start?);
    OccurrenceIsId(tag.attributes, isRoot, tag.Start?, k);
  }

  lemma {:induction false} OccurrenceIsId(attributes: seq<Attribute>, isRoot: bool, isExpanded: bool, k: nat)
    requires k < |OccurrencesOf(attributes, isRoot, isExpanded)|
    ensures var v := OccurrencesOf(attributes, isRoot, isExpanded)[k].value; v != [] && v in IdsIn(attributes)
  {
    hide IsId;
    var first, rest := OccurrencesOf([attributes[0]], isRoot, isExpanded),
      OccurrencesOf(attributes[1..], isRoot, isExpanded);
    OccurrencesStart(attributes, isRoot, isExpanded);
    if k >= |first| {
      OccurrenceIsId(attributes[1..], isRoot, isExpanded, k - |first|);
      assert (first + rest)[k] == rest[k - |first|];
    } else {
      assert (first + rest)[k] == first[k];
    }
  }

  lemma OccurrencesStart(attributes: seq<Attribute>, isRoot: bool, isExpanded: bool)
    requires attributes != []
    ensures var first := OccurrencesOf([attributes[0]], isRoot, isExpanded);
      && OccurrencesOf(attributes, isRoot, isExpanded) == first + OccurrencesOf(attributes[1..], isRoot, isExpanded)
      && (if IsId(attributes[0].name) && attributes[0].value != []
          then first == [Occurrence(attributes[0].value, isRoot, isExpanded)] else first == [])
  {
    hide IsId;
    assert [attributes[0]][1..] == [];
  }

  lemma {:induction false} IdIsOccurrence(attributes: seq<Attribute>, isRoot: bool, isExpanded: bool, v: string)
    returns (k: nat)
    requires v != [] && v in IdsIn(attributes)
    ensures k < |OccurrencesOf(attributes, isRoot, isExpanded)|
      && OccurrencesOf(attributes, isRoot, isExpanded)[k].value == v
  {
    hide IsId;
    if IsId(attributes[0].name) && attributes[0].value == v {
      k := 0;
    } else {
      var first, rest := OccurrencesOf([attributes[0]], isRoot, isExpanded),
        OccurrencesOf(attributes[1..], isRoot, isExpanded);
      OccurrencesStart(attributes, isRoot, isExpanded);
      var j := IdIsOccurrence(attributes[1..], isRoot, isExpanded, v);
      k := |first| + j;
      assert (first + rest)[k] == rest[j];
    }
  }

  lemma {:induction false} TagHasOccurrence(tags: seq<Event>, first: bool, n: nat, v: string) returns (k: nat)
    requires n < |tags| && v != [] && v in IdsAt(tags[n])
    ensures k < |TagOccurrences(tags, first)| && TagOccurrences(tags, first)[k].value == v && TagOf(tags, first, k) == n
    decreases |tags|
  {
    hide OccurrencesOf, IdsIn;
    var here := |OccurrencesOn(tags[0], first)|;
    if n == 0 {
      k := IdIsOccurrence(tags[0].attributes, first, tags[0].Start?, v);
    } else {
      var j := TagHasOccurrence(tags[1..], false, n - 1, v);
      k := here + j;
    }
  }

  /** The target of an id has its kept occurrence. */
  lemma TargetHasKept(tags: seq<Event>, v: string, n: nat, k: nat)
    requires v != [] && IsTarget(tags, v, n) && IsKept(TagOccurrences(tags, true), v, k)
    ensures TagOf(tags, true, k) == n
  {
    hide TagOccurrences, TagOf, IdsAt;
    TagOfHasIt(tags, true, k);
    var j := TagHasOccurrence(tags, true, n, v);
    TagOfHasIt(tags, true, j);
    if k < j { TagOfIsMonotone(tags, true, k, j); }
    if j < k { TagOfIsMonotone(tags, true, j, k); }
  }

  /** The new id of a carrier is written to its tag. */
  lemma {:induction false} TagCarriesIt(tags: seq<Event>, outs: seq<Event>, first: bool, seen: map<string, nat>,
                                        k: Context, before: seq<Occurrence>, j: nat)
    requires AreRewritten(tags, outs, first, seen, k) && j < |TagOccurrences(tags, first)| && |outs| == |tags|
    requires forall v :: SeenBefore(seen, v) == Count(before, v)
    requires IsCarrier(k.plan, before + TagOccurrences(tags, first), |before| + j)
    ensures k.plan.mapped[TagOccurrences(tags, first)[j].value] in IdsAt(outs[TagOf(tags, first, j)])
    decreases |tags|
  {
    hide IsCarrier, RewriteStart, Count, SeenBefore, CarriedFrom, SeenAfter, OccurrencesOf, IdsIn;
    var here, rest := OccurrencesOn(tags[0], first), TagOccurrences(tags[1..], false);
    var all := before + TagOccurrences(tags, first);
    assert all == before + here + rest;
    if j < |here| {
      TagCarries(tags[0].name, tags[0].attributes, first, tags[0].Start?, k, seen);
      assert all[..|before + here|] == before + here;
      PrefixCarrier(k.plan, all, |before + here|, |before| + j);
      CarriedHere(k.plan, before, here, seen, j);
      CarrierIsNotOnRoot(k.plan, all, |before| + j);
      OccurrencesAreAlike(tags[0].attributes, first, tags[0].Start?);
    } else {
      SeenCounts(before, here, seen);
      TagCarriesIt(tags[1..], outs[1..], false, SeenAfter(seen, here), k, before + here, j - |here|);
    }
  }

  lemma CarrierIsNotOnRoot(s: Collector, occurrences: seq<Occurrence>, k: nat)
    requires k < |occurrences| && IsCarrier(s, occurrences, k)
    ensures !occurrences[k].isRoot && occurrences[k].value in s.mapped
  {
  }

  lemma {:induction false} SeenCounts(a: seq<Occurrence>, b: seq<Occurrence>, seen: map<string, nat>)
    requires forall v :: SeenBefore(seen, v) == Count(a, v)
    ensures forall v :: SeenBefore(SeenAfter(seen, b), v) == Count(a + b, v)
    decreases |b|
  {
    if b == [] {
      assert a + b == a;
    } else {
      var next := a + [b[0]];
      assert next[..|a|] == a && next + b[1..] == a + b;
      var after := seen[b[0].value := SeenBefore(seen, b[0].value) + 1];
      forall v ensures SeenBefore(after, v) == Count(next, v) { assert SeenBefore(seen, v) == Count(a, v); }
      SeenCounts(next, b[1..], after);
    }
  }

  lemma {:induction false} CarriedHere(s: Collector, a: seq<Occurrence>, b: seq<Occurrence>, seen: map<string, nat>,
                                       j: nat)
    requires forall v :: SeenBefore(seen, v) == Count(a, v)
    requires j < |b| && IsCarrier(s, a + b, |a| + j)
    ensures s.mapped[b[j].value] in CarriedFrom(s, seen, b)
    decreases |b|
  {
    var next := a + [b[0]];
    assert next[..|a|] == a && next + b[1..] == a + b;
    if j == 0 {
      assert (a + b)[..|a|] == a;
      assert SeenBefore(seen, b[0].value) == Count(a, b[0].value);
    } else {
      var after := seen[b[0].value := SeenBefore(seen, b[0].value) + 1];
      forall v ensures SeenBefore(after, v) == Count(next, v) { assert SeenBefore(seen, v) == Count(a, v); }
      CarriedHere(s, next, b[1..], after, j - 1);
    }
  }

  lemma {:induction false} SameLength(tags: seq<Event>, outs: seq<Event>, first: bool, seen: map<string, nat>,
                                      k: Context)
    requires AreRewritten(tags, outs, first, seen, k)
    ensures |outs| == |tags|
    decreases |tags|
  {
    hide IsRewritten, OccurrencesOn, SeenAfter;
    if tags != [] {
      SameLength(tags[1..], outs[1..], false, SeenAfter(seen, OccurrencesOn(tags[0], first)), k);
    }
  }

  lemma {:induction false} EachIsRewritten(tags: seq<Event>, outs: seq<Event>, first: bool, seen: map<string, nat>,
                                           k: Context, n: nat)
    returns (before: map<string, nat>)
    requires AreRewritten(tags, outs, first, seen, k) && n < |tags| == |outs|
    ensures IsRewritten(tags[n], outs[n], first && n == 0, before, k)
    decreases |tags|
  {
    hide IsRewritten, OccurrencesOn, SeenAfter;
    if n == 0 {
      before := seen;
    } else {
      before := EachIsRewritten(tags[1..], outs[1..], false, SeenAfter(seen, OccurrencesOn(tags[0], first)), k, n - 1);
    }
  }

  /** An id that occurs once is on one tag. */
  lemma {:induction false} OnOneTag(tags: seq<Event>, v: string, m: nat, n: nat)
    requires NoDuplicates(AllIds(tags)) && m < n < |tags| && v in IdsAt(tags[m])
    ensures v !in IdsAt(tags[n])
    decreases |tags|
  {
    hide IdsAt;
    var here, rest := IdsAt(tags[0]), AllIds(tags[1..]);
    assert AllIds(tags) == here + rest;
    if m > 0 {
      assert forall i :: 0 <= i < |rest| ==> rest[i] == AllIds(tags)[|here| + i];
      OnOneTag(tags[1..], v, m - 1, n - 1);
    } else {
      NotInBoth(here, rest, v);
      if v in IdsAt(tags[n]) { IdIsThere(tags[1..], v, n - 1); }
    }
  }

  lemma NotInBoth(a: seq<string>, b: seq<string>, v: string)
    requires NoDuplicates(a + b) && v in a
    ensures v !in b
  {
    var i :| 0 <= i < |a| && a[i] == v;
    forall j | 0 <= j < |b| ensures b[j] != v {
      assert (a + b)[i] == v && (a + b)[|a| + j] == b[j];
    }
  }

  /** The opening tags of the output are those acted on, one for one; what refers to ids in each is the old,
      moved, in its order; and the renamed ids are the non-empty ids of the tags acted on. */
  lemma TagsAreKept(events: seq<Event>, renderId: string, presentation: Presentation, rules: Rules)
    requires Finalize(events, renderId, presentation, rules).Ok?
    ensures Inspect(events, renderId).Ok?
    ensures var tags, outs := Openings(Visited(Outside, events)),
      Openings(Finalize(events, renderId, presentation, rules).value);
      var mapped := Inspect(events, renderId).value.mapped;
      && |outs| == |tags|
      && (forall n :: 0 <= n < |tags| ==> TagIsKept(tags[n], outs[n], mapped, rules))
      && (forall v :: v in mapped <==> v != [] && v in AllIds(tags))
  {
    hide *;
    FinalizedIsRewritten(events, renderId, presentation, rules);
    var tags, outs := Openings(Visited(Outside, events)),
      Openings(Finalize(events, renderId, presentation, rules).value);
    var occurrences := TagOccurrences(tags, true);
    var plan := CollectAll(occurrences, renderId);
    var k := Context(renderId, plan, presentation, rules);
    SameLength(tags, outs, true, map[], k);
    forall n | 0 <= n < |tags| ensures TagIsKept(tags[n], outs[n], plan.mapped, rules) {
      var before := EachIsRewritten(tags, outs, true, map[], k, n);
      RewrittenIsKept(tags[n], outs[n], n == 0, before, k);
    }
    forall v ensures v in plan.mapped <==> v != [] && v in AllIds(tags) { MappedAreIds(tags, renderId, v); }
  }

  predicate TagIsKept(tag: Event, out: Event, mapped: IdMap, rules: Rules) {
    && IsOpening(tag) && IsOpening(out) && out.Start? == tag.Start? && out.name == tag.name
    && AreMoved(ReferringAt(tag), ReferringAt(out), Local(tag.name), mapped, rules.hosts)
  }

  lemma RewrittenIsKept(tag: Event, out: Event, isRoot: bool, seen: map<string, nat>, k: Context)
    requires IsRewritten(tag, out, isRoot, seen, k)
    ensures TagIsKept(tag, out, k.plan.mapped, k.rules)
  {
    hide AreMoved, Referring, Local, RewriteStart;
    TagMoves(tag, out, isRoot, seen, k);
  }

  lemma MappedAreIds(tags: seq<Event>, renderId: string, v: string)
    ensures v in CollectAll(TagOccurrences(tags, true), renderId).mapped <==> v != [] && v in AllIds(tags)
  {
    var occurrences := TagOccurrences(tags, true);
    FirstExpandedIsKept(occurrences, renderId, v);
    hide CollectAll, TagOccurrences, AllIds, IdsAt, TagOf;
    if v in CollectAll(occurrences, renderId).mapped {
      var k := KeptIsRetained(occurrences, renderId, v);
      TagOfHasIt(tags, true, k);
      IdIsThere(tags, v, TagOf(tags, true, k));
    }
    if v != [] && v in AllIds(tags) {
      var n := TargetExists(tags, v);
      var k := TagHasOccurrence(tags, true, n, v);
      IsThere(occurrences, k);
    }
  }

  /** The new id of `v` is on the tag written for the target of `v`, and on no other. */
  lemma IdsMoveWithTheirTags(events: seq<Event>, renderId: string, presentation: Presentation, rules: Rules, v: string,
                             target: nat)
    requires Finalize(events, renderId, presentation, rules).Ok?
    requires v != [] && IsTarget(Openings(Visited(Outside, events)), v, target)
    ensures Inspect(events, renderId).Ok? && v in Inspect(events, renderId).value.mapped
    ensures var id, outs := Inspect(events, renderId).value.mapped[v],
      Openings(Finalize(events, renderId, presentation, rules).value);
      target < |outs| && forall m :: 0 <= m < |outs| ==> (id in IdsAt(outs[m]) <==> m == target)
  {
    hide *;
    FinalizedIsRewritten(events, renderId, presentation, rules);
    IdsOfOutput(events, renderId, presentation, rules);
    TagsAreKept(events, renderId, presentation, rules);
    var tags, outs := Openings(Visited(Outside, events)),
      Openings(Finalize(events, renderId, presentation, rules).value);
    var occurrences := TagOccurrences(tags, true);
    var plan := CollectAll(occurrences, renderId);
    TargetIsId(tags, v, target);
    var k := KeptOfId(tags, renderId, v, target);
    KeptTagCarries(tags, outs, Context(renderId, plan, presentation, rules), v, k);
    IdsOfOpenings(Finalize(events, renderId, presentation, rules).value);
    forall m | 0 <= m < |outs| && m != target ensures plan.mapped[v] !in IdsAt(outs[m]) {
      if plan.mapped[v] in IdsAt(outs[m]) {
        OnOneTag(outs, plan.mapped[v], if m < target then m else target, if m < target then target else m);
      }
    }
  }

  lemma TargetIsId(tags: seq<Event>, v: string, n: nat)
    requires IsTarget(tags, v, n)
    ensures n < |tags| && v in AllIds(tags)
  {
    IdIsThere(tags, v, n);
  }

  lemma KeptOfId(tags: seq<Event>, renderId: string, v: string, target: nat) returns (k: nat)
    requires v != [] && IsTarget(tags, v, target)
    ensures IsKept(TagOccurrences(tags, true), v, k) && k < |TagOccurrences(tags, true)|
      && TagOf(tags, true, k) == target
  {
    hide TagOccurrences, TagOf, IdsAt, CollectAll;
    var j := TagHasOccurrence(tags, true, target, v);
    IsThere(TagOccurrences(tags, true), j);
    k := KeptIsRetained(TagOccurrences(tags, true), renderId, v);
    TargetHasKept(tags, v, target, k);
  }

  /** The tag of the kept occurrence carries the new id: as the root, or because the occurrence is the
      carrier. */
  lemma KeptTagCarries(tags: seq<Event>, outs: seq<Event>, k: Context, v: string, j: nat)
    requires k.plan == CollectAll(TagOccurrences(tags, true), k.renderId) && RootFirst(TagOccurrences(tags, true))
    requires AreRewritten(tags, outs, true, map[], k) && |outs| == |tags|
    requires IsKept(TagOccurrences(tags, true), v, j) && j < |TagOccurrences(tags, true)|
    ensures v in k.plan.mapped && k.plan.mapped[v] in IdsAt(outs[TagOf(tags, true, j)])
  {
    hide *;
    var occurrences := TagOccurrences(tags, true);
    KeptCarries(occurrences, k.renderId, v, j);
    KeptIsThere(occurrences, v, j);
    TagOfHasIt(tags, true, j);
    if occurrences[j].isRoot {
      NamesDiffer(occurrences, k.renderId, v, v);
      RootTagCarries(tags, outs, k);
    } else {
      NothingCounted();
      assert [] + occurrences == occurrences;
      TagCarriesIt(tags, outs, true, map[], k, [], j);
    }
  }

  lemma KeptIsThere(occurrences: seq<Occurrence>, v: string, k: nat)
    requires IsKept(occurrences, v, k)
    ensures k < |occurrences| && occurrences[k].value == v
  {
  }

  lemma RootTagCarries(tags: seq<Event>, outs: seq<Event>, k: Context)
    requires AreRewritten(tags, outs, true, map[], k) && tags != []
    ensures outs != [] && IdsAt(outs[0]) == [RootId(k.renderId)]
  {
    hide RewriteStart, RootId, OccurrencesOf, IdsIn;
    TagCarries(tags[0].name, tags[0].attributes, true, tags[0].Start?, k, map[]);
  }

  /** Renaming keeps the reference graph: a link that named an id of the filtered tree names, in the output,
      the id of one tag, and that tag is the one written for the target of the old link. */
  lemma LinksKeepTheirTargets(events: seq<Event>, renderId: string, presentation: Presentation, rules: Rules, n: nat,
                              i: nat, v: string, target: nat)
    requires Finalize(events, renderId, presentation, rules).Ok?
    requires var tags := Openings(Visited(Outside, events));
      && n < |tags| && i < |ReferringAt(tags[n])| && IsLink(ReferringAt(tags[n])[i].name)
      && TrimSpace(ReferringAt(tags[n])[i].value) == "#" + v
      && v != [] && IsTarget(tags, v, target)
    ensures var outs := Openings(Finalize(events, renderId, presentation, rules).value);
      && n < |outs| && i < |ReferringAt(outs[n])| && target < |outs|
      && var link := ReferringAt(outs[n])[i].value;
        && "#" <= link
        && forall m :: 0 <= m < |outs| ==> (link[1..] in IdsAt(outs[m]) <==> m == target)
  {
    hide *;
    IdsMoveWithTheirTags(events, renderId, presentation, rules, v, target);
    TagsAreKept(events, renderId, presentation, rules);
    var tags, outs := Openings(Visited(Outside, events)),
      Openings(Finalize(events, renderId, presentation, rules).value);
    var mapped := Inspect(events, renderId).value.mapped;
    assert TagIsKept(tags[n], outs[n], mapped, rules);
    LinkMoves(tags[n], outs[n], mapped, rules, i, v);
  }

  lemma LinkMoves(tag: Event, out: Event, mapped: IdMap, rules: Rules, i: nat, v: string)
    requires TagIsKept(tag, out, mapped, rules) && i < |ReferringAt(tag)| && v in mapped
      && IsLink(ReferringAt(tag)[i].name)
    requires TrimSpace(ReferringAt(tag)[i].value) == "#" + v
    ensures i < |ReferringAt(out)| && "#" <= ReferringAt(out)[i].value && ReferringAt(out)[i].value[1..] == mapped[v]
  {
    hide ReferringAt, Local, TrimSpace, RewriteUrls;
    assert IsMoved(ReferringAt(tag)[i], ReferringAt(out)[i], Local(tag.name), mapped, rules.hosts);
    assert ("#" + v)[1..] == v && ("#" + mapped[v])[1..] == mapped[v];
  }

  /** The same for a reference in a value: wherever the value reads as it was written. */
  lemma UrlsKeepTheirTargets(events: seq<Event>, renderId: string, presentation: Presentation, rules: Rules, n: nat,
                             i: nat, j: nat, v: string, target: nat)
    requires Finalize(events, renderId, presentation, rules).Ok?
    requires var tags := Openings(Visited(Outside, events));
      && n < |tags| && i < |ReferringAt(tags[n])| && !IsLink(ReferringAt(tags[n])[i].name)
      && v != [] && IsTarget(tags, v, target)
      && var refs := Read(ReferringAt(tags[n])[i].value);
        refs.Some? && KeptAreBare(refs.value) && j < |Urls(refs.value)| && Urls(refs.value)[j] == "#" + v
    ensures var outs := Openings(Finalize(events, renderId, presentation, rules).value);
      && n < |outs| && i < |ReferringAt(outs[n])| && target < |outs|
      && var refs := Read(ReferringAt(outs[n])[i].value);
        && refs.Some? && j < |Urls(refs.value)| && "#" <= Urls(refs.value)[j]
        && forall m :: 0 <= m < |outs| ==> (Urls(refs.value)[j][1..] in IdsAt(outs[m]) <==> m == target)
  {
    hide *;
    IdsMoveWithTheirTags(events, renderId, presentation, rules, v, target);
    TagsAreKept(events, renderId, presentation, rules);
    NewIdsAreSane(events, renderId, presentation, rules);
    var tags, outs := Openings(Visited(Outside, events)),
      Openings(Finalize(events, renderId, presentation, rules).value);
    var mapped := Inspect(events, renderId).value.mapped;
    assert TagIsKept(tags[n], outs[n], mapped, rules);
    UrlMoves(tags[n], outs[n], mapped, rules, i, j, v);
  }

  lemma NewIdsAreSane(events: seq<Event>, renderId: string, presentation: Presentation, rules: Rules)
    requires Finalize(events, renderId, presentation, rules).Ok?
    ensures Inspect(events, renderId).Ok? && IsSane(Inspect(events, renderId).value.mapped)
  {
    hide Inspect, RewriteFrom, AreRewritten, TagOccurrences, IsIdText, CollectAll, RootFirst;
    FinalizedIsRewritten(events, renderId, presentation, rules);
    MappedAreIdTexts(TagOccurrences(Openings(Visited(Outside, events)), true), renderId);
  }

  lemma UrlMoves(tag: Event, out: Event, mapped: IdMap, rules: Rules, i: nat, j: nat, v: string)
    requires TagIsKept(tag, out, mapped, rules) && IsSane(mapped) && v in mapped
    requires i < |ReferringAt(tag)| && !IsLink(ReferringAt(tag)[i].name)
    requires var refs := Read(ReferringAt(tag)[i].value);
      refs.Some? && KeptAreBare(refs.value) && j < |Urls(refs.value)| && Urls(refs.value)[j] == "#" + v
    ensures i < |ReferringAt(out)|
    ensures var refs := Read(ReferringAt(out)[i].value);
      refs.Some? && j < |Urls(refs.value)| && Urls(refs.value)[j] == "#" + mapped[v]
        && Urls(refs.value)[j][1..] == mapped[v]
  {
    hide ReferringAt, Local, TrimSpace, RewriteUrls, Read, Urls, KeptAreBare, IsSane, MoveAll, IsLink;
    assert IsMoved(ReferringAt(tag)[i], ReferringAt(out)[i], Local(tag.name), mapped, rules.hosts);
    UrlsAreMoved(ReferringAt(tag)[i].value, mapped, rules.hosts);
    assert ("#" + v)[1..] == v && ("#" + mapped[v])[1..] == mapped[v];
  }

  /** Every other link to a fragment is on an `a` element and is written as it was. */
  lemma FragmentsHaveTargets(events: seq<Event>, renderId: string, presentation: Presentation, rules: Rules, n: nat,
                             i: nat)
    requires Finalize(events, renderId, presentation, rules).Ok?
    requires var outs := Openings(Finalize(events, renderId, presentation, rules).value);
      && n < |outs| && i < |ReferringAt(outs[n])| && IsLink(ReferringAt(outs[n])[i].name)
      && "#" <= ReferringAt(outs[n])[i].value
    ensures var out, tags := Finalize(events, renderId, presentation, rules).value, Openings(Visited(Outside, events));
      && n < |tags| && i < |ReferringAt(tags[n])|
      && var from, to := TrimSpace(ReferringAt(tags[n])[i].value), ReferringAt(Openings(out)[n])[i].value;
        && "#" <= from
        && if from[1..] != [] && from[1..] in AllIds(tags) then to[1..] in AllIds(out)
           else to == from && Local(tags[n].name) == "a"
  {
    hide *;
    TagsAreKept(events, renderId, presentation, rules);
    IdsOfOutput(events, renderId, presentation, rules);
    var tags, outs := Openings(Visited(Outside, events)),
      Openings(Finalize(events, renderId, presentation, rules).value);
    var mapped := Inspect(events, renderId).value.mapped;
    assert TagIsKept(tags[n], outs[n], mapped, rules);
    FragmentComesFrom(tags[n], outs[n], mapped, rules, i);
  }

  lemma FragmentComesFrom(tag: Event, out: Event, mapped: IdMap, rules: Rules, i: nat)
    requires TagIsKept(tag, out, mapped, rules) && i < |ReferringAt(out)|
    requires IsLink(ReferringAt(out)[i].name) && "#" <= ReferringAt(out)[i].value
    ensures i < |ReferringAt(tag)|
    ensures var from, to := TrimSpace(ReferringAt(tag)[i].value), ReferringAt(out)[i].value;
      && "#" <= from
      && if from[1..] in mapped then to[1..] == mapped[from[1..]] else to == from && Local(tag.name) == "a"
  {
    hide ReferringAt, Local, TrimSpace, RewriteUrls;
    assert IsMoved(ReferringAt(tag)[i], ReferringAt(out)[i], Local(tag.name), mapped, rules.hosts);
  }

  /** A kept fragment, which named no id before, names one of the output exactly when it happens to be the
      root's id or one of the new ones. */
  lemma KeptFragmentIsCapturedIff(events: seq<Event>, renderId: string, presentation: Presentation, rules: Rules,
                                  n: nat, i: nat)
    requires Finalize(events, renderId, presentation, rules).Ok?
    requires var outs := Openings(Finalize(events, renderId, presentation, rules).value);
      n < |outs| && i < |ReferringAt(outs[n])| && IsLink(ReferringAt(outs[n])[i].name)
      && "#" <= ReferringAt(outs[n])[i].value
    ensures Inspect(events, renderId).Ok?
    ensures var out, tags := Finalize(events, renderId, presentation, rules).value, Openings(Visited(Outside, events));
      && n < |tags| && i < |ReferringAt(tags[n])|
      && var from, to := TrimSpace(ReferringAt(tags[n])[i].value), ReferringAt(Openings(out)[n])[i].value;
        && "#" <= from
        && (from[1..] == [] || from[1..] !in AllIds(tags) ==>
              && to == from
              && (to[1..] in AllIds(out)
                  <==> to[1..] == RootId(renderId) || to[1..] in Inspect(events, renderId).value.mapped.Values))
  {
    hide *;
    FragmentsHaveTargets(events, renderId, presentation, rules, n, i);
    IdsOfOutput(events, renderId, presentation, rules);
  }

  const Capturing := [Start("svg", []), Empty("a", [Attribute("href", "#kmark-svg-r")]), End("svg")]

  /** A link to a fragment that nothing was named, and that leads to the root afterwards. */
  lemma LinkIsCaptured(presentation: Presentation, rules: Rules)
    requires presentation.rootStyle(None, map[]).Ok?
    ensures Finalize(Capturing, "r", presentation, rules).Ok?
    ensures var out, tags := Finalize(Capturing, "r", presentation, rules).value, Openings(Visited(Outside, Capturing));
      && AllIds(tags) == []
      && |Openings(out)| == 2 && |ReferringAt(Openings(out)[1])| == 1
      && ReferringAt(Openings(out)[1])[0] == Attribute("href", "#kmark-svg-r") && "kmark-svg-r" in AllIds(out)
  {
    hide *;
    CapturingTags();
    CapturingIsAccepted(presentation, rules);
    TagsAreKept(Capturing, "r", presentation, rules);
    IdsOfOutput(Capturing, "r", presentation, rules);
    var outs := Openings(Finalize(Capturing, "r", presentation, rules).value);
    var tags, mapped := Openings(Visited(Outside, Capturing)), Inspect(Capturing, "r").value.mapped;
    assert TagIsKept(tags[1], outs[1], mapped, rules);
    CapturedStays(tags[1], outs[1], mapped, rules);
  }

  lemma CapturedStays(tag: Event, out: Event, mapped: IdMap, rules: Rules)
    requires TagIsKept(tag, out, mapped, rules) && "kmark-svg-r" !in mapped
    requires ReferringAt(tag) == [Attribute("href", "#kmark-svg-r")]
    ensures ReferringAt(out) == [Attribute("href", "#kmark-svg-r")] && RootId("r") == "kmark-svg-r"
  {
    hide ReferringAt, TrimSpace;
    SmallNames();
    CapturedLink();
    assert IsMoved(ReferringAt(tag)[0], ReferringAt(out)[0], Local(tag.name), mapped, rules.hosts);
  }

  lemma SmallNames()
    ensures Local("svg") == "svg" && Local("a") == "a" && Local("href") == "href"
  {
    LocalOf("svg");
    LocalOf("a");
    LocalOf("href");
    LowerStays("svg");
    LowerStays("a");
    LowerStays("href");
  }

  lemma CapturedLink()
    ensures TrimSpace("#kmark-svg-r") == "#kmark-svg-r" && "#kmark-svg-r"[1..] == "kmark-svg-r"
    ensures "#" <= "#kmark-svg-r" && !HasControl("kmark-svg-r")
  {
  }

  lemma CapturingTags()
    ensures var tags := Openings(Visited(Outside, Capturing));
      && tags == Capturing[..2] && |tags| == 2 && AllIds(tags) == []
      && ReferringAt(tags[1]) == [Attribute("href", "#kmark-svg-r")]
    ensures "kmark-svg-r" !in AllIds(Openings(Visited(Outside, Capturing)))
  {
    SmallNames();
    NotDropped();
    hide Local, Drops;
    var inside := Counters(1, 0, 0);
    assert Capturing[1..] == [Capturing[1], Capturing[2]] && Capturing[1..][1..] == [Capturing[2]];
    assert [Capturing[2]][1..] == [];
    assert Visited(Outside, []) == [] && Visited(inside, [Capturing[2]]) == [Capturing[2]];
    assert Visited(inside, Capturing[1..]) == [Capturing[1], Capturing[2]];
    assert Visited(Outside, Capturing) == Capturing;
    OneOpening(Capturing[2]);
    assert Openings(Capturing[1..]) == [Capturing[1]];
    assert Openings(Capturing) == Capturing[..2];
    LinksAreAllowed("href");
    ReferringOne(Attribute("href", "#kmark-svg-r"));
    assert Capturing[..2][1..] == [Capturing[1]];
    OneEvent(Capturing[1]);
    assert IdsAt(Capturing[1]) == [] && IdsAt(Capturing[0]) == [];
  }

  lemma NotDropped()
    requires Local("svg") == "svg" && Local("a") == "a"
    ensures !Drops("svg", 0) && !Drops("a", 0) && !IsForeignObject("svg") && !IsForeignObject("a")
  {
    assert !IsUnsafe("svg") by { assert |"svg"| == 3 && |"set"| == 3 && "svg"[1] != "set"[1]; }
    assert !IsUnsafe("a") by { assert |"a"| == 1; }
    assert |"foreignobject"| == 13;
  }

  lemma CapturingIsAccepted(presentation: Presentation, rules: Rules)
    requires presentation.rootStyle(None, map[]).Ok?
    ensures Finalize(Capturing, "r", presentation, rules).Ok?
  {
    CapturingIsInspected();
    var k := Context("r", Fresh, presentation, rules);
    hide Inspect, RewriteStart, Local, Drops, IsForeignObject;
    SmallNames();
    NotDropped();
    RootIsWritten(k);
    LinkIsWritten(k);
    var inside, pen := Counters(1, 0, 0), FreshPen;
    assert Capturing[1..] == [Capturing[1], Capturing[2]] && Capturing[1..][1..] == [Capturing[2]];
    assert [Capturing[2]][1..] == [];
    assert RewriteFrom([], Outside, pen, k).Ok?;
    assert RewriteFrom([Capturing[2]], inside, pen, k).Ok?;
    assert RewriteFrom(Capturing[1..], inside, pen, k).Ok?;
    assert RewriteFrom(Capturing, Outside, pen, k).Ok?;
  }

  lemma CapturingIsInspected()
    ensures Inspect(Capturing, "r") == Ok(Fresh)
  {
    SmallNames();
    NotDropped();
    hide Drops, IsForeignObject, Local;
    var inside := Counters(1, 0, 0);
    assert Capturing[1..] == [Capturing[1], Capturing[2]] && Capturing[1..][1..] == [Capturing[2]];
    assert [Capturing[2]][1..] == [];
    assert OccurrencesOf([Attribute("href", "#kmark-svg-r")], false, false) == [] by {
      assert [Attribute("href", "#kmark-svg-r")][1..] == [];
    }
    assert InspectFrom([Capturing[2]], inside, 1, Fresh, "r") == Ok(Fresh);
    assert InspectFrom(Capturing[1..], inside, 1, Fresh, "r") == Ok(Fresh);
    assert InspectFrom(Capturing, Outside, 0, Fresh, "r") == Ok(Fresh);
  }

  lemma RootIsWritten(k: Context)
    requires k.plan == Fresh && k.presentation.rootStyle(None, map[]).Ok?
    ensures RewriteStart("svg", [], true, k.renderId, k.plan, k.presentation, k.rules, map[]).Ok?
    ensures RewriteStart("svg", [], true, k.renderId, k.plan, k.presentation, k.rules, map[]).value.1 == map[]
  {
    hide RootId, Without, Local;
  }

  lemma LinkIsWritten(k: Context)
    requires k.plan == Fresh
    ensures var r := RewriteStart("a", [Attribute("href", "#kmark-svg-r")], false, k.renderId, k.plan, k.presentation,
                                  k.rules, map[]);
      r.Ok? && r.value.1 == map[]
  {
    var attribute, start := Attribute("href", "#kmark-svg-r"), Written([], None, map[]);
    SmallNames();
    LinksAreAllowed("href");
    CapturedLink();
    hide Local, IsForbiddenAttribute, TrimSpace, HasControl;
    assert RewriteAttribute(start, attribute, "a", false, k.plan, k.rules) == Ok(Push(start, "href", attribute.value));
    assert [attribute][1..] == [];
  }
}
