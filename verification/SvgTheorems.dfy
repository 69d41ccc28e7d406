/** What the two passes over a generated SVG achieve together: they act on the elements of the filtered
    tree, the output is balanced, and its ids are distinct and complete. */
module SvgTheorems {
  import opened Wrappers
  import opened SvgEvents
  import opened SvgIds
  import opened SvgReferences
  import opened SvgRewrite

  lemma {:induction false} CollectEachIsAll(a: seq<Occurrence>, b: seq<Occurrence>, renderId: string)
    ensures CollectEach(CollectAll(a, renderId), b, renderId) == CollectAll(a + b, renderId)
    decreases |b|
  {
    hide Collect;
    if b == [] {
      assert a + b == a;
    } else {
      var next := a + [b[0]];
      assert next[..|a|] == a && next + b[1..] == a + b;
      CollectEachIsAll(next, b[1..], renderId);
    }
  }

  /** The plan is made from the occurrences at the events that are acted on. */
  lemma {:induction false} PlanIsCollected(events: seq<Event>, c: Counters, roots: nat, before: seq<Occurrence>,
                                           renderId: string)
    requires InspectFrom(events, c, roots, CollectAll(before, renderId), renderId).Ok?
    ensures InspectFrom(events, c, roots, CollectAll(before, renderId), renderId).value
      == CollectAll(before + AllOccurrences(c, events), renderId)
    decreases |events|
  {
    hide CollectAll, CollectEach, OccurrencesAt, Advance, RootsAfter, InspectError;
    if events == [] {
      assert before + [] == before;
    } else {
      var here := OccurrencesAt(c, events[0]);
      CollectEachIsAll(before, here, renderId);
      PlanIsCollected(events[1..], Advance(c, events[0]), RootsAfter(c, events[0], roots), before + here, renderId);
      var rest := AllOccurrences(Advance(c, events[0]), events[1..]);
      assert before + here + rest == before + (here + rest);
    }
  }

  predicate NoneIsRoot(occurrences: seq<Occurrence>) {
    forall i :: 0 <= i < |occurrences| ==> !occurrences[i].isRoot
  }

  lemma {:induction false} OccurrencesAreAlike(attributes: seq<Attribute>, isRoot: bool, isExpanded: bool)
    ensures forall i :: 0 <= i < |OccurrencesOf(attributes, isRoot, isExpanded)| ==>
      var o := OccurrencesOf(attributes, isRoot, isExpanded)[i]; o.isRoot == isRoot && o.isExpanded == isExpanded
  {
    hide IsId;
    if attributes != [] { OccurrencesAreAlike(attributes[1..], isRoot, isExpanded); }
  }

  /** After the root's opening tag an accepted SVG has no second root, and nothing after the root. */
  lemma {:induction false} NothingElseIsRoot(events: seq<Event>, c: Counters, roots: nat, s: Collector,
                                             renderId: string)
    requires InspectFrom(events, c, roots, s, renderId).Ok? && roots >= 1
    ensures roots == 1 && NoneIsRoot(AllOccurrences(c, events))
    ensures c.depth == 0 ==> AllOccurrences(c, events) == []
    decreases |events|
  {
    hide CollectEach, OccurrencesOf, Drops, IsForeignObject, Local;
    if events != [] {
      var e := events[0];
      NothingElseIsRoot(events[1..], Advance(c, e), RootsAfter(c, e, roots),
        CollectEach(s, OccurrencesAt(c, e), renderId), renderId);
      if e.Start? { OccurrencesAreAlike(e.attributes, c.depth == 0, true); }
      if e.Empty? { OccurrencesAreAlike(e.attributes, c.depth == 0, false); }
    }
  }

  /** The root's ids come first. */
  lemma {:induction false} RootComesFirst(events: seq<Event>, s: Collector, renderId: string)
    requires InspectFrom(events, Outside, 0, s, renderId).Ok?
    ensures RootFirst(AllOccurrences(Outside, events))
    decreases |events|
  {
    hide CollectEach, OccurrencesOf, Drops, IsForeignObject, Local;
    if events != [] {
      var e := events[0];
      var next := CollectEach(s, OccurrencesAt(Outside, e), renderId);
      if e.Start? || e.Empty? {
        NothingElseIsRoot(events[1..], Advance(Outside, e), 1, next, renderId);
        OccurrencesAreAlike(e.attributes, true, e.Start?);
        var here, rest := OccurrencesAt(Outside, e), AllOccurrences(Advance(Outside, e), events[1..]);
        assert forall i :: 0 <= i < |here| ==> here[i].isRoot && here[i].isExpanded == e.Start?;
        assert e.Empty? ==> rest == [];
        assert AllOccurrences(Outside, events) == here + rest;
      } else {
        RootComesFirst(events[1..], next, renderId);
        assert OccurrencesAt(Outside, e) == []
          && AllOccurrences(Outside, events) == [] + AllOccurrences(Outside, events[1..]);
        assert AllOccurrences(Outside, events) == AllOccurrences(Outside, events[1..]);
      }
    }
  }

  /** The ids of a tag. */
  function IdsIn(attributes: seq<Attribute>): seq<string> {
    if attributes == [] then []
    else (if IsId(attributes[0].name) then [attributes[0].value] else []) + IdsIn(attributes[1..])
  }

  function IdsAt(e: Event): seq<string> {
    if e.Start? || e.Empty? then IdsIn(e.attributes) else []
  }

  /** All ids of an SVG, in document order. */
  function AllIds(events: seq<Event>): seq<string> {
    if events == [] then [] else IdsAt(events[0]) + AllIds(events[1..])
  }

  lemma {:induction false} IdsInConcat(a: seq<Attribute>, b: seq<Attribute>)
    ensures IdsIn(a + b) == IdsIn(a) + IdsIn(b)
  {
    hide IsId;
    if a == [] {
      assert a + b == b;
    } else {
      assert (a + b)[1..] == a[1..] + b;
      IdsInConcat(a[1..], b);
    }
  }

  lemma {:induction false} AllIdsConcat(a: seq<Event>, b: seq<Event>)
    ensures AllIds(a + b) == AllIds(a) + AllIds(b)
  {
    hide IdsAt;
    if a == [] {
      assert a + b == b;
    } else {
      assert (a + b)[1..] == a[1..] + b;
      AllIdsConcat(a[1..], b);
    }
  }

  lemma IdsInOne(a: Attribute)
    ensures IdsIn([a]) == if IsId(a.name) then [a.value] else []
  {
    hide IsId;
    assert [a][1..] == [];
  }

  function SeenAfter(seen: map<string, nat>, occurrences: seq<Occurrence>): map<string, nat>
    decreases occurrences
  {
    if occurrences == [] then seen
    else SeenAfter(seen[occurrences[0].value := SeenBefore(seen, occurrences[0].value) + 1], occurrences[1..])
  }

  /** The ids written for the occurrences, when these counts of ids have been seen before. */
  function CarriedFrom(s: Collector, seen: map<string, nat>, occurrences: seq<Occurrence>): seq<string>
    decreases occurrences
  {
    if occurrences == [] then []
    else
      var o := occurrences[0];
      (match Carried(s, seen, o) case None => [] case Some(id) => [id])
      + CarriedFrom(s, seen[o.value := SeenBefore(seen, o.value) + 1], occurrences[1..])
  }

  lemma {:induction false} CarriedConcat(s: Collector, seen: map<string, nat>, a: seq<Occurrence>, b: seq<Occurrence>)
    ensures CarriedFrom(s, seen, a + b) == CarriedFrom(s, seen, a) + CarriedFrom(s, SeenAfter(seen, a), b)
    ensures SeenAfter(seen, a + b) == SeenAfter(SeenAfter(seen, a), b)
    decreases |a|
  {
    hide Carried, SeenBefore;
    if a == [] {
      assert a + b == b;
    } else {
      assert (a + b)[1..] == a[1..] + b;
      CarriedConcat(s, seen[a[0].value := SeenBefore(seen, a[0].value) + 1], a[1..], b);
    }
  }

  /** Counting as the pass goes along finds the carriers of the plan. */
  lemma {:induction false} CarriedIsCarriers(s: Collector, a: seq<Occurrence>, b: seq<Occurrence>,
                                             seen: map<string, nat>)
    requires forall v :: SeenBefore(seen, v) == Count(a, v)
    ensures CarriedIds(s, a + b) == CarriedIds(s, a) + CarriedFrom(s, seen, b)
    decreases |b|
  {
    if b == [] {
      assert a + b == a;
    } else {
      var next := a + [b[0]];
      assert next[..|a|] == a && next + b[1..] == a + b;
      var after := seen[b[0].value := SeenBefore(seen, b[0].value) + 1];
      forall v ensures SeenBefore(after, v) == Count(next, v) { assert SeenBefore(seen, v) == Count(a, v); }
      CarriedIsCarriers(s, next, b[1..], after);
      assert SeenBefore(seen, b[0].value) == Count(a, b[0].value);
      hide Count, SeenBefore;
    }
  }

  lemma {:induction false} NoRootCarries(s: Collector, seen: map<string, nat>, occurrences: seq<Occurrence>)
    requires forall i :: 0 <= i < |occurrences| ==> occurrences[i].isRoot
    ensures CarriedFrom(s, seen, occurrences) == []
    decreases |occurrences|
  {
    if occurrences != [] {
      assert occurrences[0].isRoot;
      NoRootCarries(s, seen[occurrences[0].value := SeenBefore(seen, occurrences[0].value) + 1], occurrences[1..]);
    }
  }

  lemma LocalOf(name: string)
    requires ':' !in name
    ensures Local(name) == Lower(name)
  {
  }

  lemma FixedNames()
    ensures IsId("id") && !IsId("data-kmark-generated-svg") && !IsId("style") && !IsId("preserveAspectRatio")
      && !IsId("role")
  {
    LocalOf("id");
    LocalOf("data-kmark-generated-svg");
    LocalOf("style");
    LocalOf("preserveAspectRatio");
    LocalOf("role");
    assert Lower("id") == "id" && Lower("style") == "style" && Lower("role") == "role";
  }

  /** Writing the attributes of a tag writes the ids it carries. */
  lemma {:induction false} AttributesCarry(w: Written, attributes: seq<Attribute>, element: string, isRoot: bool,
                                           isExpanded: bool, plan: Collector, rules: Rules)
    requires RewriteEach(w, attributes, element, isRoot, plan, rules).Ok?
    ensures var after, here := RewriteEach(w, attributes, element, isRoot, plan, rules).value,
      OccurrencesOf(attributes, isRoot, isExpanded);
      && IdsIn(after.attributes) == IdsIn(w.attributes) + CarriedFrom(plan, w.seen, here)
      && after.seen == SeenAfter(w.seen, here)
    decreases |attributes|
  {
    hide *;
    if attributes == [] {
      NoAttributes(w, element, isRoot, isExpanded, plan, rules);
      assert IdsIn(w.attributes) + [] == IdsIn(w.attributes);
    } else {
      EachStep(w, attributes, element, isRoot, isExpanded, plan, rules);
      AttributeCarries(w, attributes[0], element, isRoot, isExpanded, plan, rules);
      var next := RewriteAttribute(w, attributes[0], element, isRoot, plan, rules).value;
      AttributesCarry(next, attributes[1..], element, isRoot, isExpanded, plan, rules);
      var first, rest := OccurrencesOf([attributes[0]], isRoot, isExpanded),
        OccurrencesOf(attributes[1..], isRoot, isExpanded);
      CarriedConcat(plan, w.seen, first, rest);
    }
  }

  lemma NoAttributes(w: Written, element: string, isRoot: bool, isExpanded: bool, plan: Collector, rules: Rules)
    ensures RewriteEach(w, [], element, isRoot, plan, rules) == Ok(w) && OccurrencesOf([], isRoot, isExpanded) == []
    ensures CarriedFrom(plan, w.seen, []) == [] && SeenAfter(w.seen, []) == w.seen
  {
  }

  lemma EachStep(w: Written, attributes: seq<Attribute>, element: string, isRoot: bool, isExpanded: bool,
                 plan: Collector, rules: Rules)
    requires attributes != []
    ensures var next := RewriteAttribute(w, attributes[0], element, isRoot, plan, rules);
      RewriteEach(w, attributes, element, isRoot, plan, rules)
      == if next.Err? then Err(next.error) else RewriteEach(next.value, attributes[1..], element, isRoot, plan, rules)
    ensures OccurrencesOf(attributes, isRoot, isExpanded)
      == OccurrencesOf([attributes[0]], isRoot, isExpanded) + OccurrencesOf(attributes[1..], isRoot, isExpanded)
  {
    hide RewriteAttribute, IsId;
    assert [attributes[0]][1..] == [];
  }

  lemma AttributeCarries(w: Written, a: Attribute, element: string, isRoot: bool, isExpanded: bool, plan: Collector,
                         rules: Rules)
    requires RewriteAttribute(w, a, element, isRoot, plan, rules).Ok?
    ensures var after, here := RewriteAttribute(w, a, element, isRoot, plan, rules).value,
      OccurrencesOf([a], isRoot, isExpanded);
      && IdsIn(after.attributes) == IdsIn(w.attributes) + CarriedFrom(plan, w.seen, here)
      && after.seen == SeenAfter(w.seen, here)
  {
    hide SanitizeHref, Local, IdsIn, CarriedFrom, SeenAfter, OccurrencesOf, IsForbiddenAttribute;
    NotForbidden(Local(a.name));
    OneOccurrence(plan, w.seen, a, isRoot, isExpanded);
    var after := RewriteAttribute(w, a, element, isRoot, plan, rules).value;
    assert IdsIn(w.attributes) + [] == IdsIn(w.attributes);
    if after.attributes != w.attributes {
      var last := after.attributes[|w.attributes|];
      IdsInConcat(w.attributes, [last]);
      IdsInOne(last);
    }
  }

  lemma OneOccurrence(plan: Collector, seen: map<string, nat>, a: Attribute, isRoot: bool, isExpanded: bool)
    ensures var here, o := OccurrencesOf([a], isRoot, isExpanded), Occurrence(a.value, isRoot, isExpanded);
      if IsId(a.name) && a.value != [] then
        && CarriedFrom(plan, seen, here)
          == (if Carried(plan, seen, o).Some? then [Carried(plan, seen, o).value] else [])
        && SeenAfter(seen, here) == seen[a.value := SeenBefore(seen, a.value) + 1]
      else
        CarriedFrom(plan, seen, here) == [] && SeenAfter(seen, here) == seen
  {
    hide Carried, SeenBefore, IsId;
    assert [a][1..] == [];
  }

  lemma NotForbidden(local: string)
    ensures local == "id" ==> !IsForbiddenAttribute(local)
  {
    assert "id"[..2] == "id" && "id"[0] != "on"[0];
    assert |"ping"| == 4 && |"base"| == 4 && |"nonce"| == 5;
  }

  lemma {:induction false} WithoutIds(attributes: seq<Attribute>, locals: set<string>)
    requires "id" in locals
    ensures IdsIn(Without(attributes, locals)) == []
  {
    hide Local;
    if attributes != [] {
      WithoutIds(attributes[1..], locals);
      var first := if Local(attributes[0].name) in locals then [] else [attributes[0]];
      IdsInConcat(first, Without(attributes[1..], locals));
      if first != [] { IdsInOne(attributes[0]); }
    }
  }

  /** A rewritten tag carries the root's id or those the plan gives it. */
  lemma TagCarries(name: string, attributes: seq<Attribute>, isRoot: bool, isExpanded: bool, k: Context,
                   seen: map<string, nat>)
    requires RewriteStart(name, attributes, isRoot, k.renderId, k.plan, k.presentation, k.rules, seen).Ok?
    ensures var r := RewriteStart(name, attributes, isRoot, k.renderId, k.plan, k.presentation, k.rules, seen).value;
      var here := OccurrencesOf(attributes, isRoot, isExpanded);
      && IdsIn(r.0) == (if isRoot then [RootId(k.renderId)] else CarriedFrom(k.plan, seen, here))
      && r.1 == SeenAfter(seen, here)
  {
    hide RewriteEach, CarriedFrom, OccurrencesOf, SeenAfter, RootId, Local;
    AttributesCarry(Written([], None, seen), attributes, Local(name), isRoot, isExpanded, k.plan, k.rules);
    var w := RewriteEach(Written([], None, seen), attributes, Local(name), isRoot, k.plan, k.rules).value;
    assert IdsIn([]) == [];
    if isRoot {
      RootCarries(w, k.renderId, k.plan, k.presentation);
    } else {
      PlainCarries(w.attributes, w.style);
    }
  }

  lemma PlainCarries(attributes: seq<Attribute>, style: Option<string>)
    ensures IdsIn(attributes + (if style.Some? then StyleAttribute(style.value) else [])) == IdsIn(attributes)
  {
    FixedNames();
    hide IsId, IsLink;
    var more := if style.Some? then StyleAttribute(style.value) else [];
    IdsInConcat(attributes, more);
    if more != [] { IdsInOne(more[0]); }
  }

  lemma RootCarries(w: Written, renderId: string, plan: Collector, presentation: Presentation)
    requires FinishRoot(w, renderId, plan, presentation).Ok?
    ensures IdsIn(FinishRoot(w, renderId, plan, presentation).value) == [RootId(renderId)]
  {
    FixedNames();
    hide IsId, IsLink, Without, RootId;
    var locals := {"id", "role", "preserveaspectratio", "data-kmark-generated-svg"};
    var without := Without(w.attributes, locals);
    WithoutIds(w.attributes, locals);
    var own := [Attribute("id", RootId(renderId)), Attribute("data-kmark-generated-svg", "true")];
    IdsInConcat([own[0]], [own[1]]);
    assert [own[0]] + [own[1]] == own;
    IdsInOne(own[0]);
    IdsInOne(own[1]);
    IdsInConcat(without, own);
    var style := presentation.rootStyle(w.style, plan.mapped).value;
    var styled := without + own + StyleAttribute(style);
    IdsInConcat(without + own, StyleAttribute(style));
    if style != [] { IdsInOne(Attribute("style", style)); }
    var ratio := if presentation.preserveAspectRatio.None? then []
      else [Attribute("preserveAspectRatio", presentation.preserveAspectRatio.value)];
    IdsInConcat(styled, ratio);
    if ratio != [] { IdsInOne(ratio[0]); }
    IdsInConcat(styled + ratio, [Attribute("role", "img")]);
    IdsInOne(Attribute("role", "img"));
    assert styled + [] == styled;
  }

  lemma WriteNothing(c: Counters, pen: Pen, k: Context, roots: nat, s: Collector)
    ensures RewriteFrom([], c, pen, k) == Ok([]) && AllIds([]) == [] && AllOccurrences(c, []) == []
    ensures CarriedFrom(k.plan, pen.seen, []) == []
    ensures InspectFrom([], c, roots, s, k.renderId).Ok? ==> roots == 1
  {
  }

  /** One step of both passes. */
  lemma BothStep(events: seq<Event>, c: Counters, pen: Pen, k: Context, roots: nat, s: Collector)
    requires events != [] && RewriteFrom(events, c, pen, k).Ok? && InspectFrom(events, c, roots, s, k.renderId).Ok?
    ensures var turn := if Visits(c, events[0]) then WriteEvent(c, events[0], pen, k) else Ok(([], pen));
      && turn.Ok?
      && RewriteFrom(events[1..], Advance(c, events[0]), turn.value.1, k).Ok?
      && RewriteFrom(events, c, pen, k).value
        == turn.value.0 + RewriteFrom(events[1..], Advance(c, events[0]), turn.value.1, k).value
    ensures InspectError(c, events[0]).None?
    ensures InspectFrom(events[1..], Advance(c, events[0]), RootsAfter(c, events[0], roots),
                        CollectEach(s, OccurrencesAt(c, events[0]), k.renderId), k.renderId).Ok?
    ensures AllOccurrences(c, events)
      == OccurrencesAt(c, events[0]) + AllOccurrences(Advance(c, events[0]), events[1..])
  {
    hide Visits, WriteEvent, Advance, CollectEach, OccurrencesAt, InspectError, RewriteError, RootsAfter;
  }

  predicate IsOpening(e: Event) {
    e.Start? || e.Empty?
  }

  /** The opening tags among the events, self-closing ones included. */
  function Openings(events: seq<Event>): seq<Event> {
    if events == [] then []
    else (if IsOpening(events[0]) then [events[0]] else []) + Openings(events[1..])
  }

  function OccurrencesOn(tag: Event, isRoot: bool): seq<Occurrence> {
    if IsOpening(tag) then OccurrencesOf(tag.attributes, isRoot, tag.Start?) else []
  }

  /** The id occurrences of the tags, the first of which is the root's if `first`. */
  function TagOccurrences(tags: seq<Event>, first: bool): seq<Occurrence>
    decreases tags
  {
    if tags == [] then [] else OccurrencesOn(tags[0], first) + TagOccurrences(tags[1..], false)
  }

  /** `out` is what the second pass writes for the tag, after these counts of ids. */
  predicate IsRewritten(tag: Event, out: Event, isRoot: bool, seen: map<string, nat>, k: Context) {
    && IsOpening(tag) && IsOpening(out) && out.Start? == tag.Start? && out.name == tag.name
    && var r := RewriteStart(tag.name, tag.attributes, isRoot, k.renderId, k.plan, k.presentation, k.rules, seen);
      r.Ok? && out.attributes == r.value.0
  }

  /** The tags in `outs` are the rewritten `tags`, one for one and in their order. */
  predicate AreRewritten(tags: seq<Event>, outs: seq<Event>, first: bool, seen: map<string, nat>, k: Context)
    decreases tags
  {
    if tags == [] then outs == []
    else
      && outs != [] && IsRewritten(tags[0], outs[0], first, seen, k)
      && AreRewritten(tags[1..], outs[1..], false, SeenAfter(seen, OccurrencesOn(tags[0], first)), k)
  }

  lemma {:induction false} OpeningsConcat(a: seq<Event>, b: seq<Event>)
    ensures Openings(a + b) == Openings(a) + Openings(b)
  {
    hide IsOpening;
    if a == [] {
      assert a + b == b;
    } else {
      assert (a + b)[1..] == a[1..] + b;
      OpeningsConcat(a[1..], b);
    }
  }

  lemma OneOpening(e: Event)
    ensures Openings([e]) == if IsOpening(e) then [e] else []
    ensures Openings([]) == []
  {
    hide IsOpening;
    assert [e][1..] == [];
  }

  /** An event writes at most one opening tag: its own, rewritten. */
  lemma EventRewrites(c: Counters, e: Event, pen: Pen, k: Context)
    requires Visits(c, e) ==> WriteEvent(c, e, pen, k).Ok?
    ensures var turn := if Visits(c, e) then WriteEvent(c, e, pen, k) else Ok(([], pen));
      var here, outs := Openings(if Visits(c, e) then [e] else []), Openings(turn.value.0);
      && |here| == |outs| <= 1
      && OccurrencesAt(c, e) == (if here == [] then [] else OccurrencesOn(here[0], c.depth == 0))
      && (here != [] ==> here[0] == e && IsRewritten(e, outs[0], c.depth == 0, pen.seen, k))
      && turn.value.1.seen == SeenAfter(pen.seen, OccurrencesAt(c, e))
  {
    hide RewriteStart, OccurrencesOf, Local, Drops, Openings, SeenAfter;
    OneOpening(e);
    NoAttributes(Written([], None, pen.seen), [], false, false, k.plan, k.rules);
    if Visits(c, e) {
      var out := WriteEvent(c, e, pen, k).value.0;
      if IsOpening(e) {
        TagCarries(e.name, e.attributes, c.depth == 0, e.Start?, k, pen.seen);
        OneOpening(out[0]);
      } else {
        WritesNoOpening(out);
      }
    }
  }

  lemma {:induction false} WritesNoOpening(events: seq<Event>)
    requires forall i :: 0 <= i < |events| ==> !IsOpening(events[i])
    ensures Openings(events) == []
  {
    if events != [] { WritesNoOpening(events[1..]); }
  }

  lemma VisitedStep(c: Counters, events: seq<Event>)
    ensures Visited(c, []) == []
    ensures events != [] ==>
      Visited(c, events)
        == (if Visits(c, events[0]) then [events[0]] else []) + Visited(Advance(c, events[0]), events[1..])
  {
    hide Visits, Advance;
  }

  /** Putting the tag of one event before those of the rest. */
  lemma TagsStep(here: seq<Event>, hereOuts: seq<Event>, tags: seq<Event>, outs: seq<Event>, first: bool,
                 seen: map<string, nat>, k: Context)
    requires |here| == |hereOuts| <= 1
    requires here != [] ==> IsRewritten(here[0], hereOuts[0], first, seen, k)
    requires AreRewritten(tags, outs, first && here == [],
                          SeenAfter(seen, if here == [] then [] else OccurrencesOn(here[0], first)), k)
    ensures AreRewritten(here + tags, hereOuts + outs, first, seen, k)
    ensures TagOccurrences(here + tags, first)
      == (if here == [] then [] else OccurrencesOn(here[0], first)) + TagOccurrences(tags, first && here == [])
  {
    hide IsRewritten, OccurrencesOn;
    if here == [] {
      assert here + tags == tags && hereOuts + outs == outs;
    } else {
      assert (here + tags)[1..] == tags && (hereOuts + outs)[1..] == outs;
    }
  }

  lemma NoTags(c: Counters, seen: map<string, nat>, k: Context)
    ensures AllOccurrences(c, []) == TagOccurrences([], false) == []
    ensures AreRewritten([], [], false, seen, k)
  {
  }

  /** After the root's opening tag, the opening tags of the output are those acted on, rewritten. */
  lemma {:induction false} RestIsRewritten(events: seq<Event>, c: Counters, pen: Pen, k: Context, roots: nat,
                                           s: Collector)
    requires InspectFrom(events, c, roots, s, k.renderId).Ok? && roots >= 1
    requires RewriteFrom(events, c, pen, k).Ok?
    ensures var tags := Openings(Visited(c, events));
      && AllOccurrences(c, events) == TagOccurrences(tags, false)
      && AreRewritten(tags, Openings(RewriteFrom(events, c, pen, k).value), false, pen.seen, k)
    decreases |events|
  {
    hide *;
    VisitedStep(c, events);
    if events == [] {
      WriteNothing(c, pen, k, roots, s);
      OneOpening(Ignored);
      NoTags(c, pen.seen, k);
    } else {
      var e := events[0];
      BothStep(events, c, pen, k, roots, s);
      EventRewrites(c, e, pen, k);
      OnlyOneRoot(events, c, roots, s, k.renderId);
      OneOpening(e);
      var turn := if Visits(c, e) then WriteEvent(c, e, pen, k) else Ok(([], pen));
      var next := CollectEach(s, OccurrencesAt(c, e), k.renderId);
      RestIsRewritten(events[1..], Advance(c, e), turn.value.1, k, RootsAfter(c, e, roots), next);
      StepIsRewritten(events, c, turn.value.0, RewriteFrom(events[1..], Advance(c, e), turn.value.1, k).value, pen.seen,
        k, false);
    }
  }

  lemma StepIsRewritten(events: seq<Event>, c: Counters, out: seq<Event>, rest: seq<Event>, seen: map<string, nat>,
                        k: Context, first: bool)
    requires events != []
    requires var e, here, outs := events[0], Openings(if Visits(c, events[0]) then [events[0]] else []), Openings(out);
      && |here| == |outs| <= 1
      && (here != [] ==> here[0] == e && IsRewritten(e, outs[0], first, seen, k))
      && OccurrencesAt(c, e) == (if here == [] then [] else OccurrencesOn(here[0], first))
      && var tags := Openings(Visited(Advance(c, e), events[1..]));
        && AllOccurrences(Advance(c, e), events[1..]) == TagOccurrences(tags, first && here == [])
        && AreRewritten(tags, Openings(rest), first && here == [], SeenAfter(seen, OccurrencesAt(c, e)), k)
    ensures AllOccurrences(c, events) == TagOccurrences(Openings(Visited(c, events)), first)
    ensures AreRewritten(Openings(Visited(c, events)), Openings(out + rest), first, seen, k)
  {
    hide *;
    var e := events[0];
    var acted, more := if Visits(c, e) then [e] else [], Visited(Advance(c, e), events[1..]);
    VisitedStep(c, events);
    OccurrencesStep(c, events);
    OpeningsConcat(acted, more);
    OpeningsConcat(out, rest);
    TagsStep(Openings(acted), Openings(out), Openings(more), Openings(rest), first, seen, k);
  }

  lemma OccurrencesStep(c: Counters, events: seq<Event>)
    requires events != []
    ensures AllOccurrences(c, events)
      == OccurrencesAt(c, events[0]) + AllOccurrences(Advance(c, events[0]), events[1..])
  {
    hide OccurrencesAt, Advance;
  }

  lemma OnlyOneRoot(events: seq<Event>, c: Counters, roots: nat, s: Collector, renderId: string)
    requires events != [] && InspectFrom(events, c, roots, s, renderId).Ok? && roots >= 1
    ensures IsOpening(events[0]) ==> c.depth > 0
    ensures RootsAfter(c, events[0], roots) >= 1
  {
    hide CollectEach, OccurrencesAt, Advance, InspectError;
    var e := events[0];
    NothingElseIsRoot(events, c, roots, s, renderId);
    NothingElseIsRoot(events[1..], Advance(c, e), RootsAfter(c, e, roots),
      CollectEach(s, OccurrencesAt(c, e), renderId), renderId);
  }

  /** The opening tags of the output are those acted on, rewritten; the first one is the root's. */
  lemma {:induction false} OutputIsRewritten(events: seq<Event>, pen: Pen, k: Context, s: Collector)
    requires InspectFrom(events, Outside, 0, s, k.renderId).Ok?
    requires RewriteFrom(events, Outside, pen, k).Ok?
    ensures var tags := Openings(Visited(Outside, events));
      && tags != []
      && AllOccurrences(Outside, events) == TagOccurrences(tags, true)
      && AreRewritten(tags, Openings(RewriteFrom(events, Outside, pen, k).value), true, pen.seen, k)
    decreases |events|
  {
    hide *;
    if events == [] {
      WriteNothing(Outside, pen, k, 0, s);
    } else {
      var e := events[0];
      BothStep(events, Outside, pen, k, 0, s);
      EventRewrites(Outside, e, pen, k);
      OutsideStep(e);
      OneOpening(e);
      VisitedStep(Outside, events);
      var turn := if Visits(Outside, e) then WriteEvent(Outside, e, pen, k) else Ok(([], pen));
      var next, c := CollectEach(s, OccurrencesAt(Outside, e), k.renderId), Advance(Outside, e);
      OpeningsConcat(if Visits(Outside, e) then [e] else [], Visited(c, events[1..]));
      if IsOpening(e) {
        RestIsRewritten(events[1..], c, turn.value.1, k, 1, next);
      } else {
        OutputIsRewritten(events[1..], turn.value.1, k, next);
      }
      StepIsRewritten(events, Outside, turn.value.0, RewriteFrom(events[1..], c, turn.value.1, k).value, pen.seen, k,
        true);
    }
  }

  lemma OutsideStep(e: Event)
    requires InspectError(Outside, e).None?
    ensures RootsAfter(Outside, e, 0) == (if IsOpening(e) then 1 else 0)
    ensures IsOpening(e) ==> Visits(Outside, e)
    ensures !IsOpening(e) ==> Advance(Outside, e) == Outside && OccurrencesAt(Outside, e) == []
    ensures forall i :: 0 <= i < |OccurrencesAt(Outside, e)| ==> OccurrencesAt(Outside, e)[i].isRoot
    ensures Outside.depth == 0
  {
    hide OccurrencesOf, Local, IsForeignObject;
    if e.Start? || e.Empty? {
      OccurrencesAreAlike(e.attributes, true, e.Start?);
      assert !IsUnsafe("svg") by { assert |"svg"| == 3 && |"set"| == 3 && "svg"[1] != "set"[1]; }
    }
  }

  lemma {:induction false} IdsOfOpenings(events: seq<Event>)
    ensures AllIds(Openings(events)) == AllIds(events)
  {
    if events != [] {
      IdsOfOpenings(events[1..]);
      AllIdsConcat(if IsOpening(events[0]) then [events[0]] else [], Openings(events[1..]));
      OneEvent(events[0]);
    }
  }

  lemma OneEvent(e: Event)
    ensures AllIds([e]) == IdsAt(e) && AllIds([]) == []
  {
    hide IdsAt;
    assert [e][1..] == [];
  }

  /** The rewritten tags carry the root's id and then those the plan gives out. */
  lemma {:induction false} TagsCarry(tags: seq<Event>, outs: seq<Event>, first: bool, seen: map<string, nat>,
                                     k: Context)
    requires AreRewritten(tags, outs, first, seen, k)
    ensures AllIds(outs)
      == (if first && tags != [] then [RootId(k.renderId)] else [])
        + CarriedFrom(k.plan, seen, TagOccurrences(tags, first))
    decreases |tags|
  {
    hide RewriteStart, OccurrencesOf, SeenAfter, CarriedFrom, RootId, IdsIn;
    NoAttributes(Written([], None, seen), [], false, false, k.plan, k.rules);
    if tags != [] {
      var here := OccurrencesOn(tags[0], first);
      TagCarries(tags[0].name, tags[0].attributes, first, tags[0].Start?, k, seen);
      OccurrencesAreAlike(tags[0].attributes, first, tags[0].Start?);
      TagsCarry(tags[1..], outs[1..], false, SeenAfter(seen, here), k);
      CarriedConcat(k.plan, seen, here, TagOccurrences(tags[1..], false));
      if first { NoRootCarries(k.plan, seen, here); }
    }
  }

  /** What the passes did, in terms of the opening tags acted on and those of the output. */
  lemma FinalizedIsRewritten(events: seq<Event>, renderId: string, presentation: Presentation, rules: Rules)
    requires Finalize(events, renderId, presentation, rules).Ok?
    ensures Inspect(events, renderId).Ok?
    ensures var tags, outs := Openings(Visited(Outside, events)),
      Openings(Finalize(events, renderId, presentation, rules).value);
      var plan := CollectAll(TagOccurrences(tags, true), renderId);
      && tags != [] && Inspect(events, renderId).value == plan && RootFirst(TagOccurrences(tags, true))
      && AreRewritten(tags, outs, true, map[], Context(renderId, plan, presentation, rules))
  {
    var occurrences := AllOccurrences(Outside, events);
    NothingYet(events, renderId);
    PlanIsCollected(events, Outside, 0, [], renderId);
    assert [] + occurrences == occurrences;
    hide InspectFrom, RewriteFrom, CollectAll, AllOccurrences, RootFirst, AreRewritten, TagOccurrences, Openings,
      Visited;
    OutputIsRewritten(events, FreshPen, Context(renderId, Inspect(events, renderId).value, presentation, rules), Fresh);
    RootComesFirst(events, Fresh, renderId);
  }

  /** In every accepted SVG all ids are distinct, every id that something was renamed to is there, and
      there are no others but the root's. */
  lemma IdsOfOutput(events: seq<Event>, renderId: string, presentation: Presentation, rules: Rules)
    requires Finalize(events, renderId, presentation, rules).Ok?
    ensures Inspect(events, renderId).Ok?
    ensures var ids, mapped := AllIds(Finalize(events, renderId, presentation, rules).value),
      Inspect(events, renderId).value.mapped;
      && NoDuplicates(ids)
      && RootId(renderId) in ids
      && (forall v :: v in mapped ==> mapped[v] in ids)
      && (forall id :: id in ids ==> id == RootId(renderId) || id in mapped.Values)
  {
    hide *;
    FinalizedIsRewritten(events, renderId, presentation, rules);
    var out, tags := Finalize(events, renderId, presentation, rules).value, Openings(Visited(Outside, events));
    var occurrences := TagOccurrences(tags, true);
    var plan := CollectAll(occurrences, renderId);
    TagsCarry(tags, Openings(out), true, map[], Context(renderId, plan, presentation, rules));
    IdsOfOpenings(out);
    NothingCounted();
    CarriedIsCarriers(plan, [], occurrences, map[]);
    NoCarriers(plan, occurrences);
    IdsAreDistinctAndComplete(occurrences, renderId);
    OutputIdsAre(occurrences, renderId);
    assert [] + CarriedFrom(plan, map[], occurrences) == CarriedFrom(plan, map[], occurrences);
    assert AllIds(out) == OutputIds(occurrences, renderId);
  }

  lemma OutputIdsAre(occurrences: seq<Occurrence>, renderId: string)
    ensures OutputIds(occurrences, renderId)
      == [RootId(renderId)] + CarriedIds(CollectAll(occurrences, renderId), occurrences)
    ensures OutputIds(occurrences, renderId)[0] == RootId(renderId)
  {
    hide CarriedIds, CollectAll, RootId;
  }

  lemma NothingYet(events: seq<Event>, renderId: string)
    ensures CollectAll([], renderId) == Fresh
  {
  }

  lemma NothingCounted()
    ensures forall v :: SeenBefore(map[], v) == Count([], v)
  {
  }

  lemma NoCarriers(plan: Collector, occurrences: seq<Occurrence>)
    ensures CarriedIds(plan, []) == [] && [] + occurrences == occurrences
  {
  }

  /** The tags of a stream without their attributes. */
  function Tags(events: seq<Event>): seq<Event> {
    if events == [] then [] else TagsAt(events[0]) + Tags(events[1..])
  }

  function TagsAt(e: Event): seq<Event> {
    match e
    case Start(name, _) => [Start(name, [])]
    case Empty(name, _) => [Empty(name, [])]
    case End(name) => [e]
    case _ => []
  }

  lemma {:induction false} TagsConcat(a: seq<Event>, b: seq<Event>)
    ensures Tags(a + b) == Tags(a) + Tags(b)
  {
    hide TagsAt;
    if a == [] {
      assert a + b == b;
    } else {
      assert (a + b)[1..] == a[1..] + b;
      TagsConcat(a[1..], b);
    }
  }

  lemma {:induction false} TagsKeepBalance(events: seq<Event>, open: seq<string>)
    ensures IsBalanced(Tags(events), open) == IsBalanced(events, open)
    decreases |events|
  {
    if events != [] {
      var e, rest := events[0], Tags(events[1..]);
      match e {
        case Start(name, _) =>
          TagsKeepBalance(events[1..], open + [name]);
          assert ([Start(name, [])] + rest)[1..] == rest;
        case Empty(name, _) =>
          TagsKeepBalance(events[1..], open);
          assert ([Empty(name, [])] + rest)[1..] == rest;
        case End(name) =>
          if open != [] { TagsKeepBalance(events[1..], open[..|open| - 1]); }
          assert ([e] + rest)[1..] == rest;
        case _ =>
          TagsKeepBalance(events[1..], open);
          assert [] + rest == rest;
      }
    }
  }

  /** The second pass writes the tags it acts on, in their order. */
  lemma {:induction false} TagsAreVisited(events: seq<Event>, c: Counters, pen: Pen, k: Context)
    requires RewriteFrom(events, c, pen, k).Ok?
    ensures Tags(RewriteFrom(events, c, pen, k).value) == Tags(Visited(c, events))
    decreases |events|
  {
    hide WriteEvent, Visits, Advance, RewriteError, Tags;
    if events != [] {
      var e := events[0];
      var turn := if Visits(c, e) then WriteEvent(c, e, pen, k) else Ok(([], pen));
      WrittenTags(c, e, pen, k);
      TagsAreVisited(events[1..], Advance(c, e), turn.value.1, k);
      TagsConcat(turn.value.0, RewriteFrom(events[1..], Advance(c, e), turn.value.1, k).value);
      TagsConcat(if Visits(c, e) then [e] else [], Visited(Advance(c, e), events[1..]));
    }
  }

  lemma WrittenTags(c: Counters, e: Event, pen: Pen, k: Context)
    ensures WriteEvent(c, e, pen, k).Ok? ==> Tags(WriteEvent(c, e, pen, k).value.0) == Tags([e])
  {
    hide RewriteStart, Local, Tags;
    if WriteEvent(c, e, pen, k).Ok? {
      var out := WriteEvent(c, e, pen, k).value.0;
      OneTag(e);
      NoTagsYet();
      if |out| == 0 { assert out == []; }
      if |out| == 1 { OneTag(out[0]); assert out == [out[0]]; }
      if |out| == 2 {
        TagsConcat([out[0]], [out[1]]);
        OneTag(out[0]);
        OneTag(out[1]);
        assert out == [out[0]] + [out[1]];
      }
    }
  }

  lemma OneTag(e: Event)
    ensures Tags([e]) == TagsAt(e)
  {
    hide TagsAt;
    assert [e][1..] == [];
  }

  lemma NoTagsYet()
    ensures Tags([]) == []
  {
  }

  /** On the events of any well-formed SVG: both passes act on exactly the filtered tree, in document
      order, and the output has its tags and is balanced. */
  lemma OutputIsFilteredTree(nodes: seq<Node>, renderId: string, presentation: Presentation, rules: Rules)
    requires Finalize(EventsOf(nodes), renderId, presentation, rules).Ok?
    ensures Inspect(EventsOf(nodes), renderId).Ok?
    ensures Inspect(EventsOf(nodes), renderId).value
      == CollectAll(AllOccurrences(Outside, EventsOf(nodes)), renderId)
    ensures Visited(Outside, EventsOf(nodes)) == EventsOf(Filter(nodes, false))
    ensures Tags(Finalize(EventsOf(nodes), renderId, presentation, rules).value) == Tags(EventsOf(Filter(nodes, false)))
    ensures IsBalanced(Finalize(EventsOf(nodes), renderId, presentation, rules).value, [])
  {
    hide InspectFrom, RewriteFrom, EventsOf, Filter, CollectAll, AllOccurrences, Tags, IsBalanced, Visited;
    var events := EventsOf(nodes);
    NothingYet(events, renderId);
    PlanIsCollected(events, Outside, 0, [], renderId);
    assert [] + AllOccurrences(Outside, events) == AllOccurrences(Outside, events);
    var k := Context(renderId, Inspect(events, renderId).value, presentation, rules);
    VisitedIsBalanced(nodes);
    TagsAreVisited(events, Outside, FreshPen, k);
    var out := RewriteFrom(events, Outside, FreshPen, k).value;
    TagsKeepBalance(out, []);
    TagsKeepBalance(Visited(Outside, events), []);
  }
}
