/** XML events of a generated SVG, and which of them the two passes act on: a depth counter that
    suppresses unsafe elements against the filter on trees that it stands for. */
module SvgEvents {
  import opened Wrappers

  datatype Attribute = Attribute(name: string, value: string)

  /** What the XML reader hands out. `Reference` carries the character it stands for, if there is one;
      `Ignored` is a comment or the XML declaration, `Forbidden` a DOCTYPE or processing instruction. */
  datatype Event =
    | Start(name: string, attributes: seq<Attribute>)
    | Empty(name: string, attributes: seq<Attribute>)
    | End(name: string)
    | Text(text: string)
    | Reference(resolved: Option<string>)
    | Ignored
    | Forbidden
    | Malformed

  function Lower(s: string): (r: string)
    ensures |r| == |s|
  {
    seq(|s|, i requires 0 <= i < |s| => if 'A' <= s[i] <= 'Z' then (s[i] as int + 32) as char else s[i])
  }

  /** What follows the last colon. */
  function AfterColon(s: string): string {
    if s == [] then [] else if ':' in s then AfterColon(s[1..]) else s
  }

  function Local(name: string): string {
    Lower(AfterColon(name))
  }

  /** Names are compared without their prefix and in small letters. */
  lemma {:induction false} LocalIsBehindTheColon(prefix: string, name: string)
    requires ':' !in name
    ensures Local(prefix + ":" + name) == Local(name) && |Local(name)| == |name|
    ensures forall i :: 0 <= i < |name| ==>
      !('A' <= Local(name)[i] <= 'Z') && (!('A' <= name[i] <= 'Z') ==> Local(name)[i] == name[i])
  {
    var s := prefix + ":" + name;
    if prefix == [] {
      assert s[1..] == name && s[0] == ':';
    } else {
      assert s[|prefix|] == ':' && s[1..] == prefix[1..] + ":" + name;
      LocalIsBehindTheColon(prefix[1..], name);
    }
  }

  predicate IsUnsafe(local: string) {
    local in {
      "script", "iframe", "object", "embed", "audio", "video", "canvas", "form", "input", "button", "textarea",
      "select", "animate", "animatemotion", "animatetransform", "discard", "handler", "listener", "set"}
  }

  predicate IsSafeForeign(local: string) {
    local in {"div", "span", "p", "br", "strong", "em", "b", "i", "small"}
  }

  predicate IsForeignObject(name: string) {
    Local(name) == "foreignobject"
  }

  predicate Drops(name: string, foreign: nat) {
    IsUnsafe(Local(name)) || (foreign > 0 && !IsSafeForeign(Local(name)))
  }

  /** How many elements are open, how many of them since an element was dropped, and how many foreign
      objects are open outside dropped elements. */
  datatype Counters = Counters(depth: nat, suppressed: nat, foreign: nat)

  const Outside := Counters(0, 0, 0)

  /** The counters after an event that does not end the pass. */
  function Advance(c: Counters, e: Event): Counters {
    match e
    case Start(name, _) =>
      if c.suppressed > 0 then Counters(c.depth + 1, c.suppressed + 1, c.foreign)
      else if Drops(name, c.foreign) then Counters(c.depth + 1, 1, c.foreign)
      else Counters(c.depth + 1, 0, if IsForeignObject(name) then c.foreign + 1 else c.foreign)
    case End(name) =>
      if c.depth == 0 then c
      else if c.suppressed > 0 then Counters(c.depth - 1, c.suppressed - 1, c.foreign)
      else Counters(c.depth - 1, 0, if IsForeignObject(name) && c.foreign > 0 then c.foreign - 1 else c.foreign)
    case _ => c
  }

  function AdvanceAll(c: Counters, events: seq<Event>): Counters
    decreases events
  {
    if events == [] then c else AdvanceAll(Advance(c, events[0]), events[1..])
  }

  /** Whether the passes act on an event. */
  predicate Visits(c: Counters, e: Event) {
    match e
    case Start(name, _) => c.suppressed == 0 && !Drops(name, c.foreign)
    case Empty(name, _) => c.suppressed == 0 && !Drops(name, c.foreign)
    case Ignored => false
    case _ => c.suppressed == 0
  }

  /** The events that are acted on, in order. */
  function Visited(c: Counters, events: seq<Event>): seq<Event>
    decreases events
  {
    if events == [] then []
    else (if Visits(c, events[0]) then [events[0]] else []) + Visited(Advance(c, events[0]), events[1..])
  }

  /** A well-formed piece of XML. */
  datatype Node =
    | Element(name: string, attributes: seq<Attribute>, children: seq<Node>)
    | SelfClosed(name: string, attributes: seq<Attribute>)
    | Characters(text: string)
    | Entity(resolved: Option<string>)
    | Comment

  /** The events of the nodes, in document order. */
  function EventsOf(nodes: seq<Node>): seq<Event> {
    if nodes == [] then [] else EventsOfNode(nodes[0]) + EventsOf(nodes[1..])
  }

  function EventsOfNode(node: Node): seq<Event> {
    match node
    case Element(name, attributes, children) => [Start(name, attributes)] + EventsOf(children) + [End(name)]
    case SelfClosed(name, attributes) => [Empty(name, attributes)]
    case Characters(text) => [Text(text)]
    case Entity(resolved) => [Reference(resolved)]
    case Comment => [Ignored]
  }

  /** The filter: unsafe elements go with everything in them, and so does everything but a few text
      elements inside a foreign object. */
  function Filter(nodes: seq<Node>, inForeign: bool): seq<Node> {
    if nodes == [] then [] else FilterNode(nodes[0], inForeign) + Filter(nodes[1..], inForeign)
  }

  predicate IsFilteredOut(name: string, inForeign: bool) {
    IsUnsafe(Local(name)) || (inForeign && !IsSafeForeign(Local(name)))
  }

  function FilterNode(node: Node, inForeign: bool): seq<Node> {
    match node
    case Element(name, attributes, children) =>
      if IsFilteredOut(name, inForeign) then []
      else [Element(name, attributes, Filter(children, inForeign || IsForeignObject(name)))]
    case SelfClosed(name, _) => if IsFilteredOut(name, inForeign) then [] else [node]
    case Comment => []
    case _ => [node]
  }

  lemma {:induction false} VisitedConcat(c: Counters, a: seq<Event>, b: seq<Event>)
    ensures Visited(c, a + b) == Visited(c, a) + Visited(AdvanceAll(c, a), b)
    ensures AdvanceAll(c, a + b) == AdvanceAll(AdvanceAll(c, a), b)
    decreases a
  {
    hide Visits, Advance;
    if a == [] {
      assert a + b == b;
    } else {
      assert (a + b)[1..] == a[1..] + b;
      VisitedConcat(Advance(c, a[0]), a[1..], b);
    }
  }

  lemma VisitedOne(c: Counters, e: Event)
    ensures Visited(c, [e]) == (if Visits(c, e) then [e] else []) && AdvanceAll(c, [e]) == Advance(c, e)
  {
    hide Visits, Advance;
    assert [e][1..] == [];
  }

  /** Inside a dropped element nothing is acted on, and the counters come back. */
  lemma {:induction false} NothingInDropped(c: Counters, nodes: seq<Node>)
    requires c.suppressed > 0
    ensures Visited(c, EventsOf(nodes)) == [] && AdvanceAll(c, EventsOf(nodes)) == c
    decreases nodes
  {
    if nodes != [] {
      NothingInDroppedNode(c, nodes[0]);
      NothingInDropped(c, nodes[1..]);
      VisitedConcat(c, EventsOfNode(nodes[0]), EventsOf(nodes[1..]));
    }
  }

  lemma {:induction false} NothingInDroppedNode(c: Counters, node: Node)
    requires c.suppressed > 0
    ensures Visited(c, EventsOfNode(node)) == [] && AdvanceAll(c, EventsOfNode(node)) == c
    decreases node
  {
    if node.Element? {
      var inner := Advance(c, Start(node.name, node.attributes));
      NothingInDropped(inner, node.children);
      ElementVisited(c, node);
    } else {
      VisitedOne(c, EventsOfNode(node)[0]);
    }
  }

  lemma ElementVisited(c: Counters, node: Node)
    requires node.Element?
    ensures var inner := Advance(c, Start(node.name, node.attributes));
      var last := AdvanceAll(inner, EventsOf(node.children));
      && Visited(c, EventsOfNode(node))
        == Visited(c, [Start(node.name, node.attributes)]) + Visited(inner, EventsOf(node.children))
          + Visited(last, [End(node.name)])
      && AdvanceAll(c, EventsOfNode(node)) == Advance(last, End(node.name))
  {
    hide Visits, Advance, Visited, AdvanceAll;
    var start, end := [Start(node.name, node.attributes)], [End(node.name)];
    VisitedConcat(c, start + EventsOf(node.children), end);
    VisitedConcat(c, start, EventsOf(node.children));
    VisitedOne(c, start[0]);
    VisitedOne(AdvanceAll(Advance(c, start[0]), EventsOf(node.children)), end[0]);
  }

  /** The counters act on exactly the events of the filtered tree, in their order, and come back to
      where they were; there is never more than one foreign object open. */
  lemma {:induction false} CountersFilter(c: Counters, nodes: seq<Node>)
    requires c.suppressed == 0 && c.foreign <= 1
    ensures Visited(c, EventsOf(nodes)) == EventsOf(Filter(nodes, c.foreign > 0))
    ensures AdvanceAll(c, EventsOf(nodes)) == c
    decreases nodes
  {
    if nodes != [] {
      CountersFilterNode(c, nodes[0]);
      CountersFilter(c, nodes[1..]);
      VisitedConcat(c, EventsOfNode(nodes[0]), EventsOf(nodes[1..]));
      EventsConcat(FilterNode(nodes[0], c.foreign > 0), Filter(nodes[1..], c.foreign > 0));
    }
  }

  lemma {:induction false} EventsConcat(a: seq<Node>, b: seq<Node>)
    ensures EventsOf(a + b) == EventsOf(a) + EventsOf(b)
  {
    hide EventsOfNode;
    if a == [] {
      assert a + b == b;
    } else {
      assert (a + b)[1..] == a[1..] + b;
      EventsConcat(a[1..], b);
    }
  }

  lemma {:induction false} CountersFilterNode(c: Counters, node: Node)
    requires c.suppressed == 0 && c.foreign <= 1
    ensures Visited(c, EventsOfNode(node)) == EventsOf(FilterNode(node, c.foreign > 0))
    ensures AdvanceAll(c, EventsOfNode(node)) == c
    decreases node
  {
    var inForeign := c.foreign > 0;
    if node.Element? {
      var start, end := Start(node.name, node.attributes), End(node.name);
      var inner := Advance(c, start);
      ElementVisited(c, node);
      VisitedOne(c, start);
      if Drops(node.name, c.foreign) {
        NothingInDropped(inner, node.children);
        VisitedOne(inner, end);
      } else {
        ForeignIsNotNested(c, node.name);
        CountersFilter(inner, node.children);
        VisitedOne(inner, end);
        EventsOfOne(FilterNode(node, inForeign)[0]);
      }
    } else {
      VisitedOne(c, EventsOfNode(node)[0]);
      EventsOfOne(node);
    }
  }

  lemma EventsOfOne(node: Node)
    ensures EventsOf([node]) == EventsOfNode(node)
  {
    hide EventsOfNode;
    assert [node][1..] == [];
  }

  /** A foreign object inside a foreign object is dropped. */
  lemma ForeignIsNotNested(c: Counters, name: string)
    requires c.foreign <= 1 && !Drops(name, c.foreign)
    ensures IsForeignObject(name) ==> c.foreign == 0
  {
  }

  /** Whatever the events, at most one foreign object is open. */
  lemma {:induction false} ForeignDepthIsAtMostOne(c: Counters, events: seq<Event>)
    requires c.foreign <= 1
    ensures AdvanceAll(c, events).foreign <= 1
    decreases events
  {
    if events != [] { ForeignDepthIsAtMostOne(Advance(c, events[0]), events[1..]); }
  }

  /** Every closing tag matches the opening tag that is still open; `open` are those, innermost last. */
  predicate IsBalanced(events: seq<Event>, open: seq<string>) {
    if events == [] then open == []
    else
      match events[0]
      case Start(name, _) => IsBalanced(events[1..], open + [name])
      case End(name) => open != [] && open[|open| - 1] == name && IsBalanced(events[1..], open[..|open| - 1])
      case _ => IsBalanced(events[1..], open)
  }

  lemma {:induction false} TreesAreBalanced(nodes: seq<Node>, rest: seq<Event>, open: seq<string>)
    ensures IsBalanced(EventsOf(nodes) + rest, open) <==> IsBalanced(rest, open)
    decreases nodes
  {
    if nodes == [] {
      assert EventsOf(nodes) + rest == rest;
    } else {
      assert EventsOf(nodes) + rest == EventsOfNode(nodes[0]) + (EventsOf(nodes[1..]) + rest);
      NodesAreBalanced(nodes[0], EventsOf(nodes[1..]) + rest, open);
      TreesAreBalanced(nodes[1..], rest, open);
    }
  }

  lemma {:induction false} NodesAreBalanced(node: Node, rest: seq<Event>, open: seq<string>)
    ensures IsBalanced(EventsOfNode(node) + rest, open) <==> IsBalanced(rest, open)
    decreases node
  {
    var events := EventsOfNode(node) + rest;
    if node.Element? {
      var tail := [End(node.name)] + rest;
      assert events[1..] == EventsOf(node.children) + tail;
      TreesAreBalanced(node.children, tail, open + [node.name]);
      assert tail[1..] == rest && (open + [node.name])[..|open|] == open;
    } else {
      assert events[1..] == rest;
    }
  }

  /** The events of the filtered tree are balanced. */
  lemma VisitedIsBalanced(nodes: seq<Node>)
    ensures Visited(Outside, EventsOf(nodes)) == EventsOf(Filter(nodes, false))
    ensures IsBalanced(Visited(Outside, EventsOf(nodes)), [])
  {
    CountersFilter(Outside, nodes);
    TreesAreBalanced(Filter(nodes, false), [], []);
    assert EventsOf(Filter(nodes, false)) + [] == EventsOf(Filter(nodes, false));
  }
}
