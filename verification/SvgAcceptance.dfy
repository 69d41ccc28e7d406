/** Exactly which SVGs are accepted: a condition on the filtered tree, read off its tags, references and style
    sheets. */
module SvgAcceptance {
  import opened Wrappers
  import opened Whitespace
  import opened SvgEvents
  import opened SvgIds
  import opened SvgReferences
  import opened SvgRewrite
  import opened SvgTheorems
  import opened SvgTexts

  predicate IsLabelList(local: string) {
    local == "aria-labelledby" || local == "aria-describedby"
  }

  /** Forbidden attributes, ids and label lists are never an error; a link must lead somewhere allowed, a style
      must pass the rules, and any other value may refer only to what is allowed. */
  predicate AttributeIsFine(a: Attribute, element: string, mapped: IdMap, rules: Rules) {
    var local := Local(a.name);
    if IsForbiddenAttribute(local) || IsId(a.name) || IsLabelList(local) then true
    else if IsLink(a.name) then
      NamesMapped(TrimSpace(a.value), mapped) || MayLead(element, TrimSpace(a.value), rules.hosts)
    else if local == "style" then rules.declarations(a.value, mapped).Ok?
    else RewriteUrls(a.value, mapped, rules.hosts).Ok?
  }

  predicate AttributesAreFine(attributes: seq<Attribute>, element: string, mapped: IdMap, rules: Rules) {
    forall i :: 0 <= i < |attributes| ==> AttributeIsFine(attributes[i], element, mapped, rules)
  }

  /** The last style attribute as the rules rewrite it. */
  function StyleOf(style: Option<string>, attributes: seq<Attribute>, mapped: IdMap, rules: Rules): Option<string>
    decreases attributes
  {
    if attributes == [] then style
    else
      var r := if Local(attributes[0].name) == "style" then rules.declarations(attributes[0].value, mapped)
        else Err(Unsafe);
      StyleOf(if r.Ok? then Some(r.value) else style, attributes[1..], mapped, rules)
  }

  predicate TagIsFine(name: string, attributes: seq<Attribute>, isRoot: bool, k: Context) {
    && AttributesAreFine(attributes, Local(name), k.plan.mapped, k.rules)
    && (isRoot ==> k.presentation.rootStyle(StyleOf(None, attributes, k.plan.mapped, k.rules), k.plan.mapped).Ok?)
  }

  /** Tags, entities and style sheets are all accepted; `kept` is the text kept for an open style element. */
  predicate AreFine(nodes: seq<Node>, isRoot: bool, k: Context, kept: Option<string>) {
    nodes == []
    || (NodeIsFine(nodes[0], isRoot, k, kept)
        && AreFine(nodes[1..], isRoot, k, DrawnNode(nodes[0], SheetOf(k), kept).1))
  }

  predicate NodeIsFine(node: Node, isRoot: bool, k: Context, kept: Option<string>) {
    match node
    case Element(name, attributes, children) =>
      var inner := if IsStyle(name) then Some("") else kept;
      && TagIsFine(name, attributes, isRoot, k) && AreFine(children, false, k, inner)
      && (IsStyle(name) ==> SheetIsFine(Drawn(children, SheetOf(k), inner).1, k))
    case SelfClosed(name, attributes) => TagIsFine(name, attributes, isRoot, k)
    case Entity(resolved) => resolved.Some?
    case _ => true
  }

  predicate SheetIsFine(text: Option<string>, k: Context) {
    text.Some? ==> k.rules.stylesheet(text.value, k.plan.mapped).Ok?
  }

  /** The document is one `svg` element; around it there is only space and comments. */
  predicate IsOneSvg(nodes: seq<Node>) {
    RootsOf(nodes) == 1 && forall i :: 0 <= i < |nodes| ==> MayStandOutside(nodes[i])
  }

  function RootsOf(nodes: seq<Node>): nat {
    if nodes == [] then 0 else (if nodes[0].Element? || nodes[0].SelfClosed? then 1 else 0) + RootsOf(nodes[1..])
  }

  predicate MayStandOutside(node: Node) {
    match node
    case Element(name, _, _) => Local(name) == "svg"
    case SelfClosed(name, _) => Local(name) == "svg"
    case Characters(text) => IsBlank(text)
    case Entity(_) => false
    case Comment => true
  }

  /** Every id that is kept somewhere has a new id. */
  predicate IsComplete(plan: Collector) {
    plan.retained.Keys <= plan.mapped.Keys
  }

  lemma {:induction false} CollectedIsComplete(occurrences: seq<Occurrence>, renderId: string)
    ensures IsComplete(CollectAll(occurrences, renderId))
  {
    if occurrences != [] { CollectedIsComplete(occurrences[..|occurrences| - 1], renderId); }
  }

  lemma AttributeIsAccepted(w: Written, a: Attribute, element: string, isRoot: bool, plan: Collector, rules: Rules)
    requires IsComplete(plan)
    ensures var r := RewriteAttribute(w, a, element, isRoot, plan, rules);
      && (r.Ok? <==> AttributeIsFine(a, element, plan.mapped, rules))
      && (r.Err? ==> r.error == Unsafe
                     || (Local(a.name) == "style" && rules.declarations(a.value, plan.mapped) == Err(r.error)))
  {
    AcceptedValueIff(a.value, plan.mapped, rules.hosts);
    hide Read, MayReferAll, MoveAll, IsUnsafeCss, Write;
    hide RewriteUrls, MayLead, Labels, NamesMapped, TrimSpace, IsForbiddenAttribute;
    assert a.value in plan.retained.Keys ==> a.value in plan.mapped.Keys;
    var r := SanitizeHref(element, a.value, plan.mapped, rules);
    hide SanitizeHref;
  }

  lemma StyleIsKept(w: Written, a: Attribute, element: string, isRoot: bool, plan: Collector, rules: Rules)
    requires RewriteAttribute(w, a, element, isRoot, plan, rules).Ok?
    ensures RewriteAttribute(w, a, element, isRoot, plan, rules).value.style
         == StyleOf(w.style, [a], plan.mapped, rules)
  {
    hide RewriteUrls, SanitizeHref, Labels, IsForbiddenAttribute;
    assert [a][1..] == [];
    StyleIsAllowed();
  }

  lemma StyleIsAllowed()
    ensures !IsForbiddenAttribute("style")
  {
    assert "style"[0] == 's';
  }

  lemma {:induction false} EachIsAccepted(w: Written, attributes: seq<Attribute>, element: string, isRoot: bool,
                                          plan: Collector, rules: Rules)
    requires IsComplete(plan)
    ensures var r := RewriteEach(w, attributes, element, isRoot, plan, rules);
      && (r.Ok? <==> AttributesAreFine(attributes, element, plan.mapped, rules))
      && (r.Ok? ==> r.value.style == StyleOf(w.style, attributes, plan.mapped, rules))
    decreases attributes
  {
    hide RewriteAttribute, AttributeIsFine, IsComplete;
    if attributes != [] {
      var a, rest := attributes[0], attributes[1..];
      AttributeIsAccepted(w, a, element, isRoot, plan, rules);
      if RewriteAttribute(w, a, element, isRoot, plan, rules).Ok? {
        StyleIsKept(w, a, element, isRoot, plan, rules);
      }
      assert [a][0] == a && [a][1..] == [];
      assert forall i :: 0 <= i < |rest| ==> rest[i] == attributes[i + 1];
      assert AttributesAreFine(attributes, element, plan.mapped, rules) <==>
        AttributeIsFine(a, element, plan.mapped, rules) && AttributesAreFine(rest, element, plan.mapped, rules);
      var r := RewriteAttribute(w, a, element, isRoot, plan, rules);
      if r.Ok? { EachIsAccepted(r.value, rest, element, isRoot, plan, rules); }
    }
  }

  lemma TagIsAccepted(name: string, attributes: seq<Attribute>, isRoot: bool, k: Context, seen: map<string, nat>)
    requires IsComplete(k.plan)
    ensures RewriteStart(name, attributes, isRoot, k.renderId, k.plan, k.presentation, k.rules, seen).Ok?
       <==> TagIsFine(name, attributes, isRoot, k)
  {
    hide RewriteEach, AttributesAreFine, StyleOf, IsComplete, Without;
    EachIsAccepted(Written([], None, seen), attributes, Local(name), isRoot, k.plan, k.rules);
  }

  lemma {:induction false} FineConcat(a: seq<Node>, b: seq<Node>, isRoot: bool, k: Context, kept: Option<string>)
    ensures AreFine(a + b, isRoot, k, kept)
      <==> AreFine(a, isRoot, k, kept) && AreFine(b, isRoot, k, Drawn(a, SheetOf(k), kept).1)
    decreases a
  {
    hide DrawnNode, NodeIsFine;
    if a == [] {
      assert a + b == b;
    } else {
      assert (a + b)[1..] == a[1..] + b;
      FineConcat(a[1..], b, isRoot, k, DrawnNode(a[0], SheetOf(k), kept).1);
    }
  }

  lemma OneIsFine(node: Node, isRoot: bool, k: Context, kept: Option<string>)
    ensures AreFine([node], isRoot, k, kept) <==> NodeIsFine(node, isRoot, k, kept)
    ensures AreFine([], isRoot, k, kept)
  {
    hide NodeIsFine, DrawnNode;
    assert [node][1..] == [];
  }

  ghost predicate Continues(filtered: seq<Node>, k: Context, pen: Pen, pen': Pen) {
    Kept(pen') == Drawn(filtered, SheetOf(k), Kept(pen)).1 && pen'.styleDepth in {None, pen.styleDepth}
  }

  /** The second pass gets past the nodes exactly when what is kept of them is fine. */
  lemma {:induction false} NodesArePassed(c: Counters, nodes: seq<Node>, rest: seq<Event>, pen: Pen, k: Context)
    returns (pen': Pen)
    requires c.suppressed == 0 && c.foreign <= 1 && (pen.styleDepth.Some? ==> pen.styleDepth.value <= c.depth)
    requires IsComplete(k.plan)
    ensures RewriteFrom(EventsOf(nodes) + rest, c, pen, k).Ok?
      <==> AreFine(Filter(nodes, c.foreign > 0), c.depth == 0, k, Kept(pen)) && RewriteFrom(rest, c, pen', k).Ok?
    ensures AreFine(Filter(nodes, c.foreign > 0), c.depth == 0, k, Kept(pen)) ==>
      Continues(Filter(nodes, c.foreign > 0), k, pen, pen')
    decreases nodes
  {
    hide RewriteFrom, FilterNode, EventsOfNode, AreFine, IsComplete;
    var isRoot := c.depth == 0;
    if nodes == [] {
      pen' := pen;
      assert EventsOf(nodes) + rest == rest;
      OneIsFine(Comment, isRoot, k, Kept(pen));
    } else {
      var first, others := FilterNode(nodes[0], c.foreign > 0), Filter(nodes[1..], c.foreign > 0);
      DrawnConcat(first, others, SheetOf(k), Kept(pen));
      FineConcat(first, others, isRoot, k, Kept(pen));
      assert EventsOf(nodes) + rest == EventsOfNode(nodes[0]) + (EventsOf(nodes[1..]) + rest);
      pen' := NodeIsPassed(c, nodes[0], EventsOf(nodes[1..]) + rest, pen, k);
      if AreFine(first, isRoot, k, Kept(pen)) { pen' := NodesArePassed(c, nodes[1..], rest, pen', k); }
    }
  }

  lemma {:induction false} NodeIsPassed(c: Counters, node: Node, rest: seq<Event>, pen: Pen, k: Context)
    returns (pen': Pen)
    requires c.suppressed == 0 && c.foreign <= 1 && (pen.styleDepth.Some? ==> pen.styleDepth.value <= c.depth)
    requires IsComplete(k.plan)
    ensures RewriteFrom(EventsOfNode(node) + rest, c, pen, k).Ok?
      <==> AreFine(FilterNode(node, c.foreign > 0), c.depth == 0, k, Kept(pen)) && RewriteFrom(rest, c, pen', k).Ok?
    ensures AreFine(FilterNode(node, c.foreign > 0), c.depth == 0, k, Kept(pen)) ==>
      Continues(FilterNode(node, c.foreign > 0), k, pen, pen')
    decreases node, 1
  {
    hide RewriteFrom, RewriteStart, EventsOf, Filter, AreFine, TagIsFine, IsComplete;
    OneNode(node, SheetOf(k), Kept(pen));
    OneIsFine(node, c.depth == 0, k, Kept(pen));
    if node.Element? {
      if Drops(node.name, c.foreign) {
        ElementEvents(node, rest);
        var start, end := Start(node.name, node.attributes), End(node.name);
        Step(start, EventsOf(node.children) + ([end] + rest), c, pen, k);
        pen' := pen;
        var inner := Advance(c, start);
        DroppedWritesNothing(inner, node.children, [end] + rest, pen, k);
        Step(end, rest, inner, pen, k);
      } else {
        pen' := ElementIsPassed(c, node, rest, pen, k);
      }
    } else {
      var e := EventsOfNode(node)[0];
      assert EventsOfNode(node) == [e];
      Step(e, rest, c, pen, k);
      if node.SelfClosed? { TagIsAccepted(node.name, node.attributes, c.depth == 0, k, pen.seen); }
      var turn := if Visits(c, e) then WriteEvent(c, e, pen, k) else Ok(([], pen));
      pen' := if turn.Ok? then turn.value.1 else pen;
    }
  }

  lemma {:induction false} ElementIsPassed(c: Counters, node: Node, rest: seq<Event>, pen: Pen, k: Context)
    returns (pen': Pen)
    requires c.suppressed == 0 && c.foreign <= 1 && (pen.styleDepth.Some? ==> pen.styleDepth.value <= c.depth)
    requires IsComplete(k.plan) && node.Element? && !Drops(node.name, c.foreign)
    ensures RewriteFrom(EventsOfNode(node) + rest, c, pen, k).Ok?
      <==> AreFine(FilterNode(node, c.foreign > 0), c.depth == 0, k, Kept(pen)) && RewriteFrom(rest, c, pen', k).Ok?
    ensures AreFine(FilterNode(node, c.foreign > 0), c.depth == 0, k, Kept(pen)) ==>
      Continues(FilterNode(node, c.foreign > 0), k, pen, pen')
    decreases node, 0
  {
    hide RewriteFrom, RewriteStart, EventsOf, Filter, Drawn, AreFine, TagIsFine, IsComplete;
    ElementEvents(node, rest);
    var start, end := Start(node.name, node.attributes), End(node.name);
    Step(start, EventsOf(node.children) + ([end] + rest), c, pen, k);
    var inner := Advance(c, start);
    ForeignIsNotNested(c, node.name);
    var filtered := Element(node.name, node.attributes, Filter(node.children, inner.foreign > 0));
    OneNode(filtered, SheetOf(k), Kept(pen));
    OneIsFine(filtered, c.depth == 0, k, Kept(pen));
    TagIsAccepted(node.name, node.attributes, c.depth == 0, k, pen.seen);
    pen' := pen;
    if TagIsFine(node.name, node.attributes, c.depth == 0, k) {
      var turn := WriteEvent(c, start, pen, k).value;
      var pen2 := NodesArePassed(inner, node.children, [end] + rest, turn.1, k);
      Step(end, rest, inner, pen2, k);
      var close := WriteEvent(inner, end, pen2, k);
      pen' := if close.Ok? then close.value.1 else pen;
    }
  }

  /** The first pass does not stop inside the root. */
  lemma {:induction false} InsideIsInspected(c: Counters, nodes: seq<Node>, rest: seq<Event>, roots: nat, s: Collector,
                                             renderId: string)
    returns (s': Collector)
    requires c.depth > 0
    ensures InspectFrom(EventsOf(nodes) + rest, c, roots, s, renderId) == InspectFrom(rest, c, roots, s', renderId)
    decreases nodes, 1
  {
    hide InspectFrom, EventsOfNode;
    if nodes == [] {
      s' := s;
      assert EventsOf(nodes) + rest == rest;
    } else {
      assert EventsOf(nodes) + rest == EventsOfNode(nodes[0]) + (EventsOf(nodes[1..]) + rest);
      var more := EventsOf(nodes[1..]) + rest;
      if nodes[0].Element? {
        s' := ElementIsInspected(c, nodes[0], more, roots, s, renderId);
      } else {
        OneEventOf(nodes[0]);
        s' := InspectOne(EventsOfNode(nodes[0])[0], more, c, roots, s, renderId);
      }
      s' := InsideIsInspected(c, nodes[1..], rest, roots, s', renderId);
    }
  }

  lemma OneEventOf(node: Node)
    requires !node.Element?
    ensures |EventsOfNode(node)| == 1 && EventsOfNode(node) == [EventsOfNode(node)[0]]
    ensures var e := EventsOfNode(node)[0]; forall c: Counters :: Advance(c, e) == c
    ensures var e := EventsOfNode(node)[0]; forall c: Counters :: c.depth > 0 ==> InspectError(c, e).None?
  {
  }

  lemma InspectOne(e: Event, rest: seq<Event>, c: Counters, roots: nat, s: Collector, renderId: string)
    returns (s': Collector)
    ensures InspectFrom([e] + rest, c, roots, s, renderId)
      == if InspectError(c, e).Some? then Err(InspectError(c, e).value)
         else InspectFrom(rest, Advance(c, e), RootsAfter(c, e, roots), s', renderId)
  {
    hide InspectError, Advance, RootsAfter, CollectEach;
    assert ([e] + rest)[1..] == rest;
    s' := CollectEach(s, OccurrencesAt(c, e), renderId);
  }

  lemma {:induction false} ElementIsInspected(c: Counters, node: Node, rest: seq<Event>, roots: nat, s: Collector,
                                              renderId: string)
    returns (s': Collector)
    requires node.Element? && (c.depth == 0 ==> Local(node.name) == "svg")
    ensures InspectFrom(EventsOfNode(node) + rest, c, roots, s, renderId)
      == InspectFrom(rest, c, if c.depth == 0 then roots + 1 else roots, s', renderId)
    decreases node, 0
  {
    hide InspectFrom, EventsOf, Local, Drops;
    ElementEvents(node, rest);
    var start, end := Start(node.name, node.attributes), End(node.name);
    var inner, more := Advance(c, start), RootsAfter(c, start, roots);
    s' := InspectOne(start, EventsOf(node.children) + ([end] + rest), c, roots, s, renderId);
    s' := InsideIsInspected(inner, node.children, [end] + rest, more, s', renderId);
    s' := InspectOne(end, rest, inner, more, s', renderId);
  }

  lemma {:induction false} OutsideIsInspected(nodes: seq<Node>, roots: nat, s: Collector, renderId: string)
    ensures InspectFrom(EventsOf(nodes), Outside, roots, s, renderId).Ok?
      <==> roots + RootsOf(nodes) == 1 && forall i :: 0 <= i < |nodes| ==> MayStandOutside(nodes[i])
    decreases nodes
  {
    hide InspectFrom, EventsOfNode, MayStandOutside;
    if nodes == [] {
      NothingIsInspected(roots, s, renderId);
    } else {
      var node, rest := nodes[0], EventsOf(nodes[1..]);
      assert forall i :: 1 <= i < |nodes| ==> nodes[i] == nodes[1..][i - 1];
      var s' := OneIsInspected(node, rest, roots, s, renderId);
      OutsideIsInspected(nodes[1..], if node.Element? || node.SelfClosed? then roots + 1 else roots, s', renderId);
    }
  }

  lemma NothingIsInspected(roots: nat, s: Collector, renderId: string)
    ensures InspectFrom([], Outside, roots, s, renderId).Ok? <==> roots == 1
  {
  }

  lemma OneIsInspected(node: Node, rest: seq<Event>, roots: nat, s: Collector, renderId: string)
    returns (s': Collector)
    ensures var more := if node.Element? || node.SelfClosed? then roots + 1 else roots;
      InspectFrom(EventsOfNode(node) + rest, Outside, roots, s, renderId).Ok?
      <==> MayStandOutside(node) && InspectFrom(rest, Outside, more, s', renderId).Ok?
  {
    hide InspectFrom, Local, EventsOf;
    if node.Element? {
      if Local(node.name) == "svg" {
        s' := ElementIsInspected(Outside, node, rest, roots, s, renderId);
      } else {
        ElementEvents(node, rest);
        var inside := EventsOf(node.children) + ([End(node.name)] + rest);
        s' := InspectOne(Start(node.name, node.attributes), inside, Outside, roots, s, renderId);
      }
    } else {
      OneEventOf(node);
      s' := InspectOne(EventsOfNode(node)[0], rest, Outside, roots, s, renderId);
    }
  }

  /** Every opening tag has its closing one, and nothing is forbidden or malformed. */
  predicate IsNested(events: seq<Event>, depth: nat)
    decreases events
  {
    if events == [] then depth == 0
    else
      match events[0]
      case Start(_, _) => IsNested(events[1..], depth + 1)
      case End(_) => depth > 0 && IsNested(events[1..], depth - 1)
      case Forbidden => false
      case Malformed => false
      case _ => IsNested(events[1..], depth)
  }

  /** Any other stream of events is refused by the first pass. */
  lemma {:induction false} InspectedIsNested(events: seq<Event>, c: Counters, roots: nat, s: Collector,
                                             renderId: string)
    ensures var r := InspectFrom(events, c, roots, s, renderId);
      && (r.Ok? ==> IsNested(events, c.depth))
      && (r.Err? ==> r.error == InvalidXml || (r.error == Unsafe && Forbidden in events))
      && (r == Err(InvalidXml) ==> events == [] || events[0] != Forbidden)
    decreases events
  {
    hide Local, Drops, IsForeignObject, CollectEach, OccurrencesAt, IsBlank;
    if events != [] && InspectError(c, events[0]).None? {
      InspectedIsNested(events[1..], Advance(c, events[0]), RootsAfter(c, events[0], roots),
        CollectEach(s, OccurrencesAt(c, events[0]), renderId), renderId);
    }
  }

  lemma {:induction false} NothingForbidden(nodes: seq<Node>)
    ensures Forbidden !in EventsOf(nodes)
    decreases nodes
  {
    if nodes != [] {
      if nodes[0].Element? { NothingForbidden(nodes[0].children); }
      NothingForbidden(nodes[1..]);
    }
  }

  /** An SVG is accepted exactly when the render id can be used, the document is one `svg` element, and in the
      filtered tree every tag, entity and style sheet is fine. */
  lemma AcceptedExactlyWhen(nodes: seq<Node>, renderId: string, presentation: Presentation, rules: Rules)
    ensures Inspect(EventsOf(nodes), renderId).Ok? <==> IsOneSvg(nodes)
    ensures Finalize(EventsOf(nodes), renderId, presentation, rules).Ok? <==>
      && IsRenderId(renderId) && IsOneSvg(nodes)
      && AreFine(Filter(nodes, false), true,
                 Context(renderId, Inspect(EventsOf(nodes), renderId).value, presentation, rules), None)
    ensures !IsRenderId(renderId) ==> Finalize(EventsOf(nodes), renderId, presentation, rules) == Err(Unsafe)
    ensures IsRenderId(renderId) && !IsOneSvg(nodes) ==>
      Finalize(EventsOf(nodes), renderId, presentation, rules) == Err(InvalidXml)
  {
    hide InspectFrom, RewriteFrom, EventsOf, Filter, AreFine, IsRenderId, AllOccurrences;
    var events := EventsOf(nodes);
    OutsideIsInspected(nodes, 0, Fresh, renderId);
    InspectedIsNested(events, Outside, 0, Fresh, renderId);
    NothingForbidden(nodes);
    if Inspect(events, renderId).Ok? {
      var plan := Inspect(events, renderId).value;
      assert CollectAll([], renderId) == Fresh;
      PlanIsCollected(events, Outside, 0, [], renderId);
      CollectedIsComplete([] + AllOccurrences(Outside, events), renderId);
      var k := Context(renderId, plan, presentation, rules);
      assert events + [] == events;
      var pen' := NodesArePassed(Outside, nodes, [], FreshPen, k);
      RewriteNothing(Outside, pen', k);
    }
  }
}
