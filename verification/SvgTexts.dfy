/** What an SVG shows after the rewriting: the tags of the filtered tree with all characters between them,
    and in each style element its rewritten sheet. */
module SvgTexts {
  import opened Wrappers
  import opened SvgEvents
  import opened SvgIds
  import opened SvgReferences
  import opened SvgRewrite
  import opened SvgTheorems

  /** An event without attributes. */
  function Bare(e: Event): Event {
    match e
    case Start(name, _) => Start(name, [])
    case Empty(name, _) => Empty(name, [])
    case _ => e
  }

  function Skeleton(events: seq<Event>): seq<Event> {
    if events == [] then [] else [Bare(events[0])] + Skeleton(events[1..])
  }

  predicate IsStyle(name: string) {
    Local(name) == "style"
  }

  /** All characters of the nodes, in document order. */
  function CharactersOf(nodes: seq<Node>): string {
    if nodes == [] then "" else CharactersOfNode(nodes[0]) + CharactersOf(nodes[1..])
  }

  function CharactersOfNode(node: Node): string {
    match node
    case Element(_, _, children) => CharactersOf(children)
    case Characters(text) => text
    case Entity(resolved) => if resolved.Some? then resolved.value else ""
    case _ => ""
  }

  function TagsOfNodes(nodes: seq<Node>): seq<Event> {
    if nodes == [] then [] else TagsOfNode(nodes[0]) + TagsOfNodes(nodes[1..])
  }

  function TagsOfNode(node: Node): seq<Event> {
    match node
    case Element(name, _, children) => [Start(name, [])] + TagsOfNodes(children) + [End(name)]
    case SelfClosed(name, _) => [Empty(name, [])]
    case _ => []
  }

  /** What is to be seen of the nodes, and the text that is kept for the sheet of a style element. Inside a
      style element characters are kept; its sheet is made of those kept since the latest opening tag of one,
      and after the sheet nothing is kept any more. */
  function Drawn(nodes: seq<Node>, sheet: string -> string, kept: Option<string>): (seq<Event>, Option<string>) {
    if nodes == [] then ([], kept)
    else
      var (first, between) := DrawnNode(nodes[0], sheet, kept);
      var (rest, after) := Drawn(nodes[1..], sheet, between);
      (first + rest, after)
  }

  function DrawnNode(node: Node, sheet: string -> string, kept: Option<string>): (seq<Event>, Option<string>) {
    match node
    case Element(name, _, children) =>
      var (inner, after) := Drawn(children, sheet, if IsStyle(name) then Some("") else kept);
      if IsStyle(name) && after.Some? then
        ([Start(name, [])] + inner + (SheetEvents(sheet(after.value)) + [End(name)]), None)
      else ([Start(name, [])] + inner + [End(name)], after)
    case SelfClosed(name, _) => ([Empty(name, [])], kept)
    case Characters(text) => DrawnText(text, kept)
    case Entity(resolved) => if resolved.Some? then DrawnText(resolved.value, kept) else ([], kept)
    case Comment => ([], kept)
  }

  function DrawnText(text: string, kept: Option<string>): (seq<Event>, Option<string>) {
    if kept.Some? then ([], Some(kept.value + text)) else ([Text(text)], None)
  }

  /** The same without style elements in style elements: tags and characters; a style element shows its
      sheet, if that is not empty, behind the tags of what else stands in it. */
  function Shown(nodes: seq<Node>, sheet: string -> string): seq<Event> {
    if nodes == [] then [] else ShownNode(nodes[0], sheet) + Shown(nodes[1..], sheet)
  }

  function ShownNode(node: Node, sheet: string -> string): seq<Event> {
    match node
    case Element(name, _, children) =>
      var inner := if IsStyle(name) then TagsOfNodes(children) + SheetEvents(sheet(CharactersOf(children)))
        else Shown(children, sheet);
      [Start(name, [])] + inner + [End(name)]
    case SelfClosed(name, _) => [Empty(name, [])]
    case Characters(text) => [Text(text)]
    case Entity(resolved) => if resolved.Some? then [Text(resolved.value)] else []
    case Comment => []
  }

  function SheetEvents(sheet: string): seq<Event> {
    if sheet == "" then [] else [Text(sheet)]
  }

  /** There is no style element among these nodes. */
  predicate HasNoStyle(nodes: seq<Node>) {
    nodes == [] || (NodeHasNoStyle(nodes[0]) && HasNoStyle(nodes[1..]))
  }

  predicate NodeHasNoStyle(node: Node) {
    node.Element? ==> !IsStyle(node.name) && HasNoStyle(node.children)
  }

  /** No style element stands in another one. */
  predicate StylesAreFlat(nodes: seq<Node>) {
    nodes == [] || (NodeIsFlat(nodes[0]) && StylesAreFlat(nodes[1..]))
  }

  predicate NodeIsFlat(node: Node) {
    node.Element? ==> if IsStyle(node.name) then HasNoStyle(node.children) else StylesAreFlat(node.children)
  }

  /** The sheet that the rules give, when they accept the text. */
  function SheetOf(k: Context): string -> string {
    text => var r := k.rules.stylesheet(text, k.plan.mapped); if r.Ok? then r.value else ""
  }

  lemma {:induction false} SkeletonConcat(a: seq<Event>, b: seq<Event>)
    ensures Skeleton(a + b) == Skeleton(a) + Skeleton(b)
  {
    hide Bare;
    if a == [] {
      assert a + b == b;
    } else {
      assert (a + b)[1..] == a[1..] + b;
      SkeletonConcat(a[1..], b);
    }
  }

  lemma SkeletonOfOne(e: Event)
    ensures Skeleton([e]) == [Bare(e)] && Skeleton([]) == []
  {
    hide Bare;
    assert [e][1..] == [];
  }

  /** One event of the second pass. */
  lemma Step(e: Event, rest: seq<Event>, c: Counters, pen: Pen, k: Context)
    ensures var turn := if Visits(c, e) then WriteEvent(c, e, pen, k) else Ok(([], pen));
      RewriteFrom([e] + rest, c, pen, k)
      == if RewriteError(c, e).Some? then Err(RewriteError(c, e).value)
         else if turn.Err? then Err(turn.error)
         else Prepend(turn.value.0, RewriteFrom(rest, Advance(c, e), turn.value.1, k))
  {
    hide Visits, WriteEvent, RewriteError, Advance;
    assert ([e] + rest)[1..] == rest;
  }

  lemma PrependTwice(a: seq<Event>, b: seq<Event>, r: Result<seq<Event>, SvgError>)
    ensures Prepend(a, Prepend(b, r)) == Prepend(a + b, r) && Prepend([], r) == r
  {
    if r.Ok? { assert a + (b + r.value) == a + b + r.value && [] + r.value == r.value; }
  }

  /** In a dropped element nothing is written. */
  lemma {:induction false} DroppedWritesNothing(c: Counters, nodes: seq<Node>, rest: seq<Event>, pen: Pen, k: Context)
    requires c.suppressed > 0
    ensures RewriteFrom(EventsOf(nodes) + rest, c, pen, k) == RewriteFrom(rest, c, pen, k)
    decreases nodes
  {
    hide RewriteFrom;
    if nodes == [] {
      assert EventsOf(nodes) + rest == rest;
    } else {
      assert EventsOf(nodes) + rest == EventsOfNode(nodes[0]) + (EventsOf(nodes[1..]) + rest);
      DroppedNodeWritesNothing(c, nodes[0], EventsOf(nodes[1..]) + rest, pen, k);
      DroppedWritesNothing(c, nodes[1..], rest, pen, k);
    }
  }

  lemma {:induction false} DroppedNodeWritesNothing(c: Counters, node: Node, rest: seq<Event>, pen: Pen, k: Context)
    requires c.suppressed > 0
    ensures RewriteFrom(EventsOfNode(node) + rest, c, pen, k) == RewriteFrom(rest, c, pen, k)
    decreases node
  {
    hide RewriteFrom, WriteEvent, EventsOf;
    if node.Element? {
      var start, end := Start(node.name, node.attributes), End(node.name);
      var inner := Advance(c, start);
      ElementEvents(node, rest);
      Step(start, EventsOf(node.children) + ([end] + rest), c, pen, k);
      DroppedWritesNothing(inner, node.children, [end] + rest, pen, k);
      Step(end, rest, inner, pen, k);
      PrependTwice([], [], RewriteFrom(rest, c, pen, k));
    } else {
      Step(EventsOfNode(node)[0], rest, c, pen, k);
      PrependTwice([], [], RewriteFrom(rest, c, pen, k));
    }
  }

  lemma ElementEvents(node: Node, rest: seq<Event>)
    requires node.Element?
    ensures EventsOfNode(node) + rest
      == [Start(node.name, node.attributes)] + (EventsOf(node.children) + ([End(node.name)] + rest))
  {
    hide EventsOf;
    assert EventsOfNode(node) == [Start(node.name, node.attributes)] + EventsOf(node.children) + [End(node.name)];
  }

  lemma {:induction false} DrawnConcat(a: seq<Node>, b: seq<Node>, sheet: string -> string, kept: Option<string>)
    ensures var (first, between) := Drawn(a, sheet, kept);
      var (rest, after) := Drawn(b, sheet, between);
      Drawn(a + b, sheet, kept) == (first + rest, after)
  {
    hide DrawnNode;
    if a == [] {
      assert a + b == b;
      assert [] + Drawn(b, sheet, kept).0 == Drawn(b, sheet, kept).0;
    } else {
      assert (a + b)[1..] == a[1..] + b;
      var (one, next) := DrawnNode(a[0], sheet, kept);
      DrawnConcat(a[1..], b, sheet, next);
      var (more, between) := Drawn(a[1..], sheet, next);
      assert one + (more + Drawn(b, sheet, between).0) == one + more + Drawn(b, sheet, between).0;
    }
  }

  lemma OneNode(node: Node, sheet: string -> string, kept: Option<string>)
    ensures Drawn([node], sheet, kept) == DrawnNode(node, sheet, kept) && Drawn([], sheet, kept) == ([], kept)
  {
    hide DrawnNode;
    assert [node][1..] == [];
    assert DrawnNode(node, sheet, kept).0 + [] == DrawnNode(node, sheet, kept).0;
  }

  /** The text kept by the second pass. */
  function Kept(pen: Pen): Option<string> {
    if pen.styleDepth.Some? then Some(pen.styleText) else None
  }

  ghost predicate Draws(filtered: seq<Node>, k: Context, pen: Pen, part: seq<Event>, pen': Pen) {
    && (Skeleton(part), Kept(pen')) == Drawn(filtered, SheetOf(k), Kept(pen))
    && pen'.styleDepth in {None, pen.styleDepth}
  }

  /** Whatever is kept of the nodes is written or held for a sheet. */
  lemma {:induction false} NodesAreDrawn(c: Counters, nodes: seq<Node>, rest: seq<Event>, pen: Pen, k: Context)
    returns (part: seq<Event>, pen': Pen)
    requires c.suppressed == 0 && c.foreign <= 1 && (pen.styleDepth.Some? ==> pen.styleDepth.value <= c.depth)
    requires RewriteFrom(EventsOf(nodes) + rest, c, pen, k).Ok?
    ensures RewriteFrom(EventsOf(nodes) + rest, c, pen, k) == Prepend(part, RewriteFrom(rest, c, pen', k))
    ensures Draws(Filter(nodes, c.foreign > 0), k, pen, part, pen')
    decreases nodes
  {
    hide RewriteFrom, FilterNode, EventsOfNode;
    if nodes == [] {
      part, pen' := [], pen;
      assert EventsOf(nodes) + rest == rest;
      PrependTwice([], [], RewriteFrom(rest, c, pen, k));
    } else {
      var first, others := FilterNode(nodes[0], c.foreign > 0), Filter(nodes[1..], c.foreign > 0);
      DrawnConcat(first, others, SheetOf(k), Kept(pen));
      assert EventsOf(nodes) + rest == EventsOfNode(nodes[0]) + (EventsOf(nodes[1..]) + rest);
      var a, pen1 := NodeIsDrawn(c, nodes[0], EventsOf(nodes[1..]) + rest, pen, k);
      var b, pen2 := NodesAreDrawn(c, nodes[1..], rest, pen1, k);
      part, pen' := a + b, pen2;
      SkeletonConcat(a, b);
      PrependTwice(a, b, RewriteFrom(rest, c, pen2, k));
    }
  }

  lemma {:induction false} NodeIsDrawn(c: Counters, node: Node, rest: seq<Event>, pen: Pen, k: Context)
    returns (part: seq<Event>, pen': Pen)
    requires c.suppressed == 0 && c.foreign <= 1 && (pen.styleDepth.Some? ==> pen.styleDepth.value <= c.depth)
    requires RewriteFrom(EventsOfNode(node) + rest, c, pen, k).Ok?
    ensures RewriteFrom(EventsOfNode(node) + rest, c, pen, k) == Prepend(part, RewriteFrom(rest, c, pen', k))
    ensures Draws(FilterNode(node, c.foreign > 0), k, pen, part, pen')
    decreases node, 1
  {
    hide RewriteFrom, RewriteStart, EventsOf, Filter;
    OneNode(node, SheetOf(k), Kept(pen));
    PrependTwice([], [], RewriteFrom(rest, c, pen, k));
    if node.Element? {
      if Drops(node.name, c.foreign) {
        ElementEvents(node, rest);
        var start, end := Start(node.name, node.attributes), End(node.name);
        Step(start, EventsOf(node.children) + ([end] + rest), c, pen, k);
        part, pen' := [], pen;
        var inner := Advance(c, start);
        DroppedWritesNothing(inner, node.children, [end] + rest, pen, k);
        Step(end, rest, inner, pen, k);
      } else {
        part, pen' := ElementIsDrawn(c, node, rest, pen, k);
      }
    } else {
      var e := EventsOfNode(node)[0];
      assert EventsOfNode(node) == [e];
      Step(e, rest, c, pen, k);
      var turn := if Visits(c, e) then WriteEvent(c, e, pen, k).value else ([], pen);
      part, pen' := turn.0, turn.1;
      if part != [] { SkeletonOfOne(part[0]); } else { SkeletonOfOne(e); }
    }
  }

  lemma {:induction false} ElementIsDrawn(c: Counters, node: Node, rest: seq<Event>, pen: Pen, k: Context)
    returns (part: seq<Event>, pen': Pen)
    requires c.suppressed == 0 && c.foreign <= 1 && (pen.styleDepth.Some? ==> pen.styleDepth.value <= c.depth)
    requires node.Element? && !Drops(node.name, c.foreign)
    requires RewriteFrom(EventsOfNode(node) + rest, c, pen, k).Ok?
    ensures RewriteFrom(EventsOfNode(node) + rest, c, pen, k) == Prepend(part, RewriteFrom(rest, c, pen', k))
    ensures Draws(FilterNode(node, c.foreign > 0), k, pen, part, pen')
    decreases node, 0
  {
    hide RewriteFrom, RewriteStart, EventsOf, Filter, Drawn;
    ElementEvents(node, rest);
    var start, end := Start(node.name, node.attributes), End(node.name);
    var tail := EventsOf(node.children) + ([end] + rest);
    Step(start, tail, c, pen, k);
    var inner := Advance(c, start);
    ForeignIsNotNested(c, node.name);
    var kept := Filter(node.children, inner.foreign > 0);
    OneNode(Element(node.name, node.attributes, kept), SheetOf(k), Kept(pen));
    var turn := WriteEvent(c, start, pen, k).value;
    SkeletonOfOne(turn.0[0]);
    var b, pen2 := NodesAreDrawn(inner, node.children, [end] + rest, turn.1, k);
    Step(end, rest, inner, pen2, k);
    var close := WriteEvent(inner, end, pen2, k).value;
    part, pen' := turn.0 + b + close.0, close.1;
    SkeletonConcat(turn.0 + b, close.0);
    SkeletonConcat(turn.0, b);
    CloseIsDrawn(close.0, end);
    PrependTwice(turn.0, b, Prepend(close.0, RewriteFrom(rest, c, close.1, k)));
    PrependTwice(turn.0 + b, close.0, RewriteFrom(rest, c, close.1, k));
  }

  lemma CloseIsDrawn(events: seq<Event>, end: Event)
    requires end.End? && (events == [end] || exists text :: events == [Text(text), end])
    ensures events == [end] ==> Skeleton(events) == [end]
    ensures forall text :: events == [Text(text), end] ==> Skeleton(events) == [Text(text)] + [end]
  {
    SkeletonOfOne(end);
    if events != [end] {
      assert events[1..] == [end];
    }
  }

  /** In a style element without another one the characters are kept and the tags shown. */
  lemma {:induction false} StyleKeeps(nodes: seq<Node>, sheet: string -> string, text: string)
    requires HasNoStyle(nodes)
    ensures Drawn(nodes, sheet, Some(text)) == (TagsOfNodes(nodes), Some(text + CharactersOf(nodes)))
    decreases nodes
  {
    if nodes == [] {
      assert text + "" == text;
    } else {
      var node := nodes[0];
      StyleNodeKeeps(node, sheet, text);
      hide DrawnNode, TagsOfNode, CharactersOfNode;
      StyleKeeps(nodes[1..], sheet, text + CharactersOfNode(node));
      assert text + CharactersOfNode(node) + CharactersOf(nodes[1..]) == text + CharactersOf(nodes);
    }
  }

  lemma {:induction false} StyleNodeKeeps(node: Node, sheet: string -> string, text: string)
    requires NodeHasNoStyle(node)
    ensures DrawnNode(node, sheet, Some(text)) == (TagsOfNode(node), Some(text + CharactersOfNode(node)))
    decreases node
  {
    hide Drawn, TagsOfNodes, CharactersOf;
    if node.Element? { StyleKeeps(node.children, sheet, text); }
    assert text + "" == text;
  }

  lemma {:induction false} FlatIsShown(nodes: seq<Node>, sheet: string -> string)
    requires StylesAreFlat(nodes)
    ensures Drawn(nodes, sheet, None) == (Shown(nodes, sheet), None)
    decreases nodes
  {
    if nodes != [] {
      var node := nodes[0];
      assert DrawnNode(node, sheet, None) == (ShownNode(node, sheet), None) by {
        if node.Element? {
          if IsStyle(node.name) {
            StyleKeeps(node.children, sheet, "");
            assert "" + CharactersOf(node.children) == CharactersOf(node.children);
            var tags, events := TagsOfNodes(node.children), SheetEvents(sheet(CharactersOf(node.children)));
            assert [Start(node.name, [])] + tags + (events + [End(node.name)])
              == [Start(node.name, [])] + (tags + events) + [End(node.name)];
          } else {
            FlatIsShown(node.children, sheet);
          }
        }
      }
      hide DrawnNode, ShownNode;
      FlatIsShown(nodes[1..], sheet);
    }
  }

  /** On any tree, an accepted SVG shows the filtered tree: its tags in their order, between them all its
      characters with references resolved, except that those of a style element make its sheet. Where no style
      element stands in another one, each holds exactly the sheet that the rules make of its characters. */
  lemma OutputShowsTheTree(nodes: seq<Node>, renderId: string, presentation: Presentation, rules: Rules)
    requires Finalize(EventsOf(nodes), renderId, presentation, rules).Ok?
    ensures Inspect(EventsOf(nodes), renderId).Ok?
    ensures var k := Context(renderId, Inspect(EventsOf(nodes), renderId).value, presentation, rules);
      var shown := Skeleton(Finalize(EventsOf(nodes), renderId, presentation, rules).value);
      && shown == Drawn(Filter(nodes, false), SheetOf(k), None).0
      && (StylesAreFlat(Filter(nodes, false)) ==> shown == Shown(Filter(nodes, false), SheetOf(k)))
  {
    var events := EventsOf(nodes);
    var k := Context(renderId, Inspect(events, renderId).value, presentation, rules);
    hide Inspect, RewriteFrom, EventsOf, Filter, StylesAreFlat, Skeleton, Drawn, Shown;
    assert events + [] == events;
    var part, pen' := NodesAreDrawn(Outside, nodes, [], FreshPen, k);
    RewriteNothing(Outside, pen', k);
    assert part + [] == part;
    if StylesAreFlat(Filter(nodes, false)) { FlatIsShown(Filter(nodes, false), SheetOf(k)); }
  }

  /** A style element in a style element makes the outer one forget its text so far, and what follows in the
      outer one is written as it stands. */
  lemma NestedStyleForgets(a: string, b: string, c: string, sheet: string -> string)
    ensures var inner := Element("style", [], [Characters(b)]);
      Drawn([Element("style", [], [Characters(a), inner, Characters(c)])], sheet, None).0
      == [Start("style", []), Start("style", [])] + SheetEvents(sheet(b))
         + [End("style"), Text(c), End("style")]
  {
    hide SheetEvents, IsStyle;
    IsStyleName();
    var inner, start, end := Element("style", [], [Characters(b)]), Start("style", []), End("style");
    var events := SheetEvents(sheet(b));
    OneNode(Characters(b), sheet, Some(""));
    assert "" + b == b;
    assert DrawnNode(inner, sheet, Some("" + a)) == ([start] + [] + (events + [end]), None);
    OneNode(Characters(c), sheet, None);
    var parts := [Characters(a), inner, Characters(c)];
    assert parts[1..] == [inner, Characters(c)] && parts[1..][1..] == [Characters(c)];
    var shown := [start] + [] + (events + [end]) + [Text(c)];
    assert Drawn(parts[1..], sheet, Some("" + a)) == (shown, None);
    assert Drawn(parts, sheet, Some("")) == ([] + shown, None);
    assert [] + shown == shown;
    OneNode(Element("style", [], parts), sheet, None);
  }

  lemma IsStyleName()
    ensures IsStyle("style")
  {
    var name := "style";
    assert Lower(name) == name;
  }
}
