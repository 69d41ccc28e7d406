/** What can stand on a tag of the output: nothing that runs or loads anything but what is allowed, the
    labels and the style of the input rewritten, and the marks of the root. */
module SvgTags {
  import opened Wrappers
  import opened SvgEvents
  import opened SvgIds
  import opened SvgReferences
  import opened SvgRewrite
  import opened SvgTheorems
  import opened SvgLinks
  import opened SvgAcceptance

  /** The attributes with this local name, in their order. */
  function Named(attributes: seq<Attribute>, local: string): seq<Attribute> {
    if attributes == [] then []
    else (if Local(attributes[0].name) == local then [attributes[0]] else []) + Named(attributes[1..], local)
  }

  /** Each label list with its known ids renamed; one without a known id goes. */
  function Relabelled(labels: seq<Attribute>, mapped: IdMap): seq<Attribute> {
    if labels == [] then []
    else
      var value := Labels(labels[0].value, mapped);
      (if value == [] then [] else [Attribute(labels[0].name, value)]) + Relabelled(labels[1..], mapped)
  }

  /** An address that a browser may be sent to, or may load a picture from. */
  predicate IsHarmless(element: string, address: string) {
    || "#" <= address
    || (element == "a" && StartsWithAny(address, ["http://", "https://", "mailto:"]))
    || (element == "image" && StartsWithAny(address, ["https://", "data:image/"]))
  }

  predicate StartsWithAny(s: string, starts: seq<string>) {
    exists i :: 0 <= i < |starts| && starts[i] <= Lower(s)
  }

  /** Neither an event handler nor an attribute that loads or sends anything. */
  predicate IsSafeName(local: string) {
    && !("on" <= local)
    && local !in {"srcdoc", "nonce", "integrity", "crossorigin", "target", "formaction", "autofocus", "ping", "base"}
  }

  /** A safe name, and no link but to a harmless address. */
  predicate AttributeIsSafe(a: Attribute, element: string) {
    IsSafeName(Local(a.name)) && (Local(a.name) in {"href", "src"} ==> IsHarmless(element, a.value))
  }

  predicate AreSafe(attributes: seq<Attribute>, element: string) {
    forall i :: 0 <= i < |attributes| ==> AttributeIsSafe(attributes[i], element)
  }

  /** The addresses an `a` may lead to outside the document. */
  lemma NavigationIs(url: string)
    ensures IsSafeNavigation(url) <==> StartsWithAny(url, ["http://", "https://", "mailto:"])
  {
    var starts := ["http://", "https://", "mailto:"];
    if IsSafeNavigation(url) {
      assert starts[0] <= Lower(url) || starts[1] <= Lower(url) || starts[2] <= Lower(url);
    }
  }

  lemma NavigationIsHarmless(url: string)
    requires IsSafeNavigation(url)
    ensures IsHarmless("a", url)
  {
    NavigationIs(url);
  }

  lemma ResourceIsHarmless(url: string, hosts: seq<string>)
    requires IsAllowedResource(url, hosts)
    ensures IsHarmless("image", url)
  {
    var starts := ["https://", "data:image/"];
    var lowered := Lower(url);
    if IsRasterData(url) {
      assert starts[1] <= lowered;
    } else {
      hide IsRasterData, AuthorityLength, WithoutPort;
      assert Lower(url[..8]) == lowered[..8];
      assert starts[0] <= lowered;
    }
  }

  lemma LinkIsHarmless(element: string, value: string, mapped: IdMap, rules: Rules)
    requires SanitizeHref(element, value, mapped, rules).Ok?
    ensures IsHarmless(element, SanitizeHref(element, value, mapped, rules).value)
  {
    hide IsHarmless, IsSafeNavigation, IsAllowedResource, HasControl, TrimSpace;
    var link := TrimSpace(value);
    if "#" <= link {
      FragmentIsHarmless(element, SanitizeHref(element, value, mapped, rules).value);
    } else if element == "a" {
      NavigationIsHarmless(link);
    } else {
      ResourceIsHarmless(link, rules.hosts);
    }
  }

  lemma FragmentIsHarmless(element: string, address: string)
    requires "#" <= address
    ensures IsHarmless(element, address)
  {
  }

  /** An attribute is dropped or written under its name: a label list relabelled, a style kept for the end. */
  lemma AttributeIsWritten(w: Written, a: Attribute, element: string, isRoot: bool, plan: Collector, rules: Rules)
    returns (written: seq<Attribute>)
    requires RewriteAttribute(w, a, element, isRoot, plan, rules).Ok?
    ensures RewriteAttribute(w, a, element, isRoot, plan, rules).value.attributes == w.attributes + written
    ensures |written| <= 1 && (written != [] ==> written[0].name == a.name) && AreSafe(written, element)
    ensures Local(a.name) == "style" ==> written == []
    ensures IsLabelList(Local(a.name)) ==> written == Relabelled([a], plan.mapped)
  {
    hide SanitizeHref, RewriteUrls, Labels, Local, IsHarmless;
    var after := RewriteAttribute(w, a, element, isRoot, plan, rules).value;
    assert [a][1..] == [];
    NamesAreApart();
    written := [];
    if after.attributes == w.attributes {
      assert w.attributes + [] == w.attributes;
    } else {
      written := [after.attributes[|w.attributes|]];
      assert after.attributes == w.attributes + written && written[0].name == a.name;
      if Local(a.name) in {"href", "src"} { LinkIsHarmless(element, a.value, plan.mapped, rules); }
    }
  }

  lemma NamesAreApart()
    ensures forall local :: IsLabelList(local) || local in {"id", "style"} ==>
      !IsForbiddenAttribute(local) && local !in {"href", "src"}
    ensures !IsLabelList("style") && !IsLabelList("id")
  {
    assert |"aria-labelledby"| == 15 && |"aria-describedby"| == 16 && |"style"| == 5 && |"id"| == 2;
    assert "aria-labelledby"[0] == 'a' && "aria-describedby"[0] == 'a' && "style"[0] == 's' && "id"[0] == 'i';
    assert |"href"| == 4 && |"src"| == 3 && "on"[0] == 'o';
    assert |"srcdoc"| == 6 && |"nonce"| == 5 && |"integrity"| == 9 && |"crossorigin"| == 11 && |"target"| == 6;
    assert |"formaction"| == 10 && |"autofocus"| == 9 && |"ping"| == 4 && |"base"| == 4 && "nonce"[0] == 'n';
  }

  lemma {:induction false} NamedConcat(a: seq<Attribute>, b: seq<Attribute>, local: string)
    ensures Named(a + b, local) == Named(a, local) + Named(b, local)
  {
    hide Local;
    if a == [] {
      assert a + b == b;
    } else {
      assert (a + b)[0] == a[0] && (a + b)[1..] == a[1..] + b;
      NamedConcat(a[1..], b, local);
      var first := if Local(a[0].name) == local then [a[0]] else [];
      assert first + (Named(a[1..], local) + Named(b, local)) == first + Named(a[1..], local) + Named(b, local);
    }
  }

  lemma OneNamed(a: Attribute, local: string)
    ensures Named([a], local) == (if Local(a.name) == local then [a] else []) && Named([], local) == []
  {
    hide Local;
    assert [a][1..] == [];
  }

  lemma SafeConcat(a: seq<Attribute>, b: seq<Attribute>, element: string)
    ensures AreSafe(a + b, element) <==> AreSafe(a, element) && AreSafe(b, element)
  {
    hide AttributeIsSafe;
    forall i | 0 <= i < |b| ensures b[i] == (a + b)[|a| + i] {}
    forall i | 0 <= i < |a| ensures a[i] == (a + b)[i] {}
  }

  /** What the attributes become, besides ids, links and values. */
  lemma {:induction false} AttributesAreWritten(w: Written, attributes: seq<Attribute>, element: string, isRoot: bool,
                                                plan: Collector, rules: Rules, local: string)
    requires RewriteEach(w, attributes, element, isRoot, plan, rules).Ok? && AreSafe(w.attributes, element)
    ensures var after := RewriteEach(w, attributes, element, isRoot, plan, rules).value.attributes;
      && AreSafe(after, element)
      && Named(after, "style") == Named(w.attributes, "style")
      && (IsLabelList(local) ==>
            Named(after, local) == Named(w.attributes, local) + Relabelled(Named(attributes, local), plan.mapped))
    decreases attributes
  {
    hide RewriteAttribute, Local, Relabelled, IsLabelList, Named, AreSafe;
    if attributes == [] {
      NothingNamed(local, plan.mapped);
      assert Named(w.attributes, local) + [] == Named(w.attributes, local);
    } else {
      var a, rest := attributes[0], attributes[1..];
      var written := AttributeIsWritten(w, a, element, isRoot, plan, rules);
      var next := RewriteAttribute(w, a, element, isRoot, plan, rules).value;
      SafeConcat(w.attributes, written, element);
      AttributesAreWritten(next, rest, element, isRoot, plan, rules, local);
      OneIsNamed(w.attributes, a, written, plan.mapped, local);
      assert attributes == [a] + rest;
      NamedConcat([a], rest, local);
      RelabelledConcat(Named([a], local), Named(rest, local), plan.mapped);
    }
  }

  lemma NothingNamed(local: string, mapped: IdMap)
    ensures Named([], local) == [] && Relabelled([], mapped) == []
  {
  }

  lemma OneIsNamed(before: seq<Attribute>, a: Attribute, written: seq<Attribute>, mapped: IdMap, local: string)
    requires |written| <= 1 && (written != [] ==> written[0].name == a.name)
    requires Local(a.name) == "style" ==> written == []
    requires IsLabelList(Local(a.name)) ==> written == Relabelled([a], mapped)
    ensures Named(before + written, "style") == Named(before, "style")
    ensures IsLabelList(local) ==>
      Named(before + written, local) == Named(before, local) + Relabelled(Named([a], local), mapped)
  {
    hide Local, Relabelled, Named, IsLabelList;
    NothingNamed(local, mapped);
    NamedConcat(before, written, "style");
    NamedConcat(before, written, local);
    OneNamed(a, local);
    if written != [] {
      assert written == [written[0]];
      OneNamed(written[0], "style");
      OneNamed(written[0], local);
    } else {
      OneNamed(a, "style");
    }
  }

  lemma {:induction false} RelabelledConcat(a: seq<Attribute>, b: seq<Attribute>, mapped: IdMap)
    ensures Relabelled(a + b, mapped) == Relabelled(a, mapped) + Relabelled(b, mapped)
  {
    hide Labels;
    if a == [] {
      assert a + b == b;
    } else {
      assert (a + b)[1..] == a[1..] + b;
      RelabelledConcat(a[1..], b, mapped);
    }
  }

  lemma {:induction false} NamedWithout(attributes: seq<Attribute>, locals: set<string>, local: string)
    ensures Named(Without(attributes, locals), local) == if local in locals then [] else Named(attributes, local)
  {
    hide Local;
    if attributes != [] {
      NamedWithout(attributes[1..], locals, local);
      var rest := Without(attributes[1..], locals);
      NamedConcat(if Local(attributes[0].name) in locals then [] else [attributes[0]], rest, local);
      OneNamed(attributes[0], local);
    }
  }

  lemma {:induction false} SafeWithout(attributes: seq<Attribute>, locals: set<string>, element: string)
    requires AreSafe(attributes, element)
    ensures AreSafe(Without(attributes, locals), element)
  {
    hide Local, AttributeIsSafe;
    if attributes != [] {
      assert forall i :: 0 <= i < |attributes[1..]| ==> attributes[1..][i] == attributes[i + 1];
      SafeWithout(attributes[1..], locals, element);
    }
  }

  /** The attributes of an output tag: all safe; the style that the rules and, on the root, the presentation
      make of the input's, if it is not empty; the labels renamed. */
  ghost predicate IsDressed(tag: Event, out: Event, isRoot: bool, k: Context)
    requires IsOpening(tag) && IsOpening(out)
  {
    var mapped := k.plan.mapped;
    var given := StyleOf(None, tag.attributes, mapped, k.rules);
    var style := if isRoot then k.presentation.rootStyle(given, mapped)
      else Ok(if given.Some? then given.value else "");
    && style.Ok? && Named(out.attributes, "style") == StyleAttribute(style.value)
    && AreSafe(out.attributes, Local(tag.name))
    && (forall local :: IsLabelList(local) ==>
          Named(out.attributes, local) == Relabelled(Named(tag.attributes, local), mapped))
    && (isRoot ==> IsMarked(out.attributes, k))
  }

  /** The root has its own id, the marker, the role and the aspect ratio asked for, each once. */
  predicate IsMarked(attributes: seq<Attribute>, k: Context) {
    && Named(attributes, "id") == [Attribute("id", RootId(k.renderId))]
    && Named(attributes, "data-kmark-generated-svg") == [Attribute("data-kmark-generated-svg", "true")]
    && Named(attributes, "role") == [Attribute("role", "img")]
    && Named(attributes, "preserveaspectratio")
       == match k.presentation.preserveAspectRatio
          case None => []
          case Some(ratio) => [Attribute("preserveAspectRatio", ratio)]
  }

  lemma RewrittenIsDressed(tag: Event, out: Event, isRoot: bool, seen: map<string, nat>, k: Context)
    requires IsRewritten(tag, out, isRoot, seen, k) && IsComplete(k.plan)
    ensures IsDressed(tag, out, isRoot, k)
  {
    hide RewriteEach, StyleOf, Named, AreSafe, Local, Relabelled, IsComplete, FinishRoot, StyleAttribute, IsMarked,
      IsLabelList;
    var element, start := Local(tag.name), Written([], None, seen);
    var w := RewriteEach(start, tag.attributes, element, isRoot, k.plan, k.rules).value;
    EachIsAccepted(start, tag.attributes, element, isRoot, k.plan, k.rules);
    NothingIsSafe(element);
    AttributesAreWritten(start, tag.attributes, element, isRoot, k.plan, k.rules, "style");
    forall local | IsLabelList(local)
      ensures Named(w.attributes, local) == Relabelled(Named(tag.attributes, local), k.plan.mapped)
    {
      AttributesAreWritten(start, tag.attributes, element, isRoot, k.plan, k.rules, local);
      var labels := Relabelled(Named(tag.attributes, local), k.plan.mapped);
      assert [] + labels == labels;
    }
    if isRoot {
      RootIsDressed(w, element, k);
    } else {
      PlainIsDressed(w.attributes, w.style, element);
    }
  }

  lemma NothingIsSafe(element: string)
    ensures AreSafe([], element) && forall local :: Named([], local) == []
  {
  }

  lemma PlainIsDressed(attributes: seq<Attribute>, style: Option<string>, element: string)
    requires AreSafe(attributes, element) && Named(attributes, "style") == []
    ensures var out := attributes + (if style.Some? then StyleAttribute(style.value) else []);
      && Named(out, "style") == StyleAttribute(if style.Some? then style.value else "")
      && AreSafe(out, element)
      && forall local :: IsLabelList(local) ==> Named(out, local) == Named(attributes, local)
  {
    hide Local, IsHarmless, Named, AreSafe;
    var added := if style.Some? then StyleAttribute(style.value) else [];
    StyleIsSafe(added, element);
    SafeConcat(attributes, added, element);
    NamedConcat(attributes, added, "style");
    assert [] + added == added;
    forall local | IsLabelList(local) ensures Named(attributes + added, local) == Named(attributes, local) {
      NamedConcat(attributes, added, local);
    }
  }

  lemma StyleIsApart()
    ensures Local("style") == "style" && IsSafeName("style") && !IsLabelList("style") && "style" !in {"href", "src"}
  {
    OwnLocals();
    SafeNames();
    NamesAreApart();
  }

  lemma StyleIsSafe(added: seq<Attribute>, element: string)
    requires added == [] || (|added| == 1 && added[0].name == "style")
    ensures AreSafe(added, element) && Named(added, "style") == added
    ensures forall local :: IsLabelList(local) ==> Named(added, local) == []
  {
    hide Local, IsSafeName, IsHarmless, Named, IsLabelList;
    StyleIsApart();
    NothingNamed("style", map[]);
    forall local ensures Named(added, local) == if local == "style" then added else [] {
      if added == [] { OneNamed(Attribute("style", ""), local); } else {
        assert added == [added[0]];
        OneNamed(added[0], local);
      }
    }
  }

  /** What the root gets besides what was on it. */
  function RootsMarks(k: Context, style: string): seq<Attribute> {
    [Attribute("id", RootId(k.renderId)), Attribute("data-kmark-generated-svg", "true")]
    + (StyleAttribute(style) + (RatioAttribute(k) + [Attribute("role", "img")]))
  }

  function RatioAttribute(k: Context): seq<Attribute> {
    match k.presentation.preserveAspectRatio
    case None => []
    case Some(ratio) => [Attribute("preserveAspectRatio", ratio)]
  }

  function IfNamed(attributes: seq<Attribute>, isNamed: bool): seq<Attribute> {
    if isNamed then attributes else []
  }

  lemma MarksAreNamed(k: Context, style: string, local: string)
    ensures Named(RootsMarks(k, style), local)
      == IfNamed([Attribute("id", RootId(k.renderId))], local == "id")
         + IfNamed([Attribute("data-kmark-generated-svg", "true")], local == "data-kmark-generated-svg")
         + (IfNamed(StyleAttribute(style), local == "style")
            + (IfNamed(RatioAttribute(k), local == "preserveaspectratio")
               + IfNamed([Attribute("role", "img")], local == "role")))
  {
    OwnLocals();
    hide Local, RootId, Named;
    var id, marker := Attribute("id", RootId(k.renderId)), Attribute("data-kmark-generated-svg", "true");
    var styles, ratio, role := StyleAttribute(style), RatioAttribute(k), [Attribute("role", "img")];
    assert RootsMarks(k, style) == [id, marker] + (styles + (ratio + role));
    NamedConcat([id, marker], styles + (ratio + role), local);
    NamedConcat(styles, ratio + role, local);
    NamedConcat(ratio, role, local);
    NamedConcat([id], [marker], local);
    assert [id] + [marker] == [id, marker];
    OneNamed(id, local);
    OneNamed(marker, local);
    OneNamed(role[0], local);
    if style != [] { OneNamed(styles[0], local); }
    if ratio != [] { OneNamed(ratio[0], local); }
  }

  lemma MarksAreSafe(k: Context, style: string, element: string)
    ensures AreSafe(RootsMarks(k, style), element)
  {
    OwnLocals();
    SafeNames();
    hide Local, RootId, IsHarmless, IsSafeName;
    var marks := RootsMarks(k, style);
    forall i | 0 <= i < |marks| ensures AttributeIsSafe(marks[i], element) {
      assert marks[i].name in ["id", "data-kmark-generated-svg", "style", "preserveAspectRatio", "role"];
    }
  }

  lemma SafeNames()
    ensures forall local :: local in {"id", "style", "role", "preserveaspectratio", "data-kmark-generated-svg"} ==>
      IsSafeName(local) && local !in {"href", "src"}
  {
    assert |"preserveaspectratio"| == 19 && |"data-kmark-generated-svg"| == 24 && |"role"| == 4 && "role"[0] == 'r';
    assert |"style"| == 5 && |"id"| == 2 && "style"[0] == 's' && "id"[0] == 'i' && "preserveaspectratio"[0] == 'p';
    assert |"href"| == 4 && |"src"| == 3 && "on"[0] == 'o' && "data-kmark-generated-svg"[0] == 'd' && "href"[0] == 'h';
    assert |"srcdoc"| == 6 && |"nonce"| == 5 && |"integrity"| == 9 && |"crossorigin"| == 11 && |"target"| == 6;
    assert |"formaction"| == 10 && |"autofocus"| == 9 && |"ping"| == 4 && |"base"| == 4 && "nonce"[0] == 'n';
    assert "ping"[0] == 'p' && "base"[0] == 'b';
  }

  lemma RootIsDressed(w: Written, element: string, k: Context)
    requires FinishRoot(w, k.renderId, k.plan, k.presentation).Ok?
    requires AreSafe(w.attributes, element) && Named(w.attributes, "style") == []
    ensures var out := FinishRoot(w, k.renderId, k.plan, k.presentation).value;
      && k.presentation.rootStyle(w.style, k.plan.mapped).Ok?
      && Named(out, "style") == StyleAttribute(k.presentation.rootStyle(w.style, k.plan.mapped).value)
      && AreSafe(out, element) && IsMarked(out, k)
      && forall local :: IsLabelList(local) ==> Named(out, local) == Named(w.attributes, local)
  {
    hide Named, AreSafe, Local, StyleAttribute, Without, RootId, IsLabelList, RootsMarks;
    var style := k.presentation.rootStyle(w.style, k.plan.mapped).value;
    var kept := Without(w.attributes, RootsOwn);
    var marks, out := RootsMarks(k, style), FinishRoot(w, k.renderId, k.plan, k.presentation).value;
    RootIsFinished(w, k);
    MarksAreSafe(k, style, element);
    SafeWithout(w.attributes, RootsOwn, element);
    SafeConcat(kept, marks, element);
    NamesHaveLengths();
    forall local
      ensures Named(out, local) == (if local in RootsOwn then [] else Named(w.attributes, local)) + Named(marks, local)
    {
      NamedConcat(kept, marks, local);
      NamedWithout(w.attributes, RootsOwn, local);
    }
    MarksAreNamed(k, style, "id");
    MarksAreNamed(k, style, "data-kmark-generated-svg");
    MarksAreNamed(k, style, "role");
    MarksAreNamed(k, style, "preserveaspectratio");
    MarksAreNamed(k, style, "style");
    forall local | IsLabelList(local) ensures Named(out, local) == Named(w.attributes, local) {
      LabelsAreApart(local);
      MarksAreNamed(k, style, local);
    }
  }

  lemma RootIsFinished(w: Written, k: Context)
    requires FinishRoot(w, k.renderId, k.plan, k.presentation).Ok?
    ensures k.presentation.rootStyle(w.style, k.plan.mapped).Ok?
    ensures FinishRoot(w, k.renderId, k.plan, k.presentation).value
      == Without(w.attributes, RootsOwn) + RootsMarks(k, k.presentation.rootStyle(w.style, k.plan.mapped).value)
  {
    hide Without, RootId;
    var style := k.presentation.rootStyle(w.style, k.plan.mapped).value;
    var kept := Without(w.attributes, RootsOwn);
    var own := [Attribute("id", RootId(k.renderId)), Attribute("data-kmark-generated-svg", "true")];
    assert kept + own + StyleAttribute(style) + RatioAttribute(k) + [Attribute("role", "img")]
      == kept + (own + (StyleAttribute(style) + (RatioAttribute(k) + [Attribute("role", "img")])));
    assert kept + own + StyleAttribute(style) + [] == kept + own + StyleAttribute(style);
  }

  lemma NamesHaveLengths()
    ensures |"preserveaspectratio"| == 19 && |"data-kmark-generated-svg"| == 24 && |"role"| == 4
    ensures |"style"| == 5 && |"id"| == 2
  {
  }

  lemma LabelsAreApart(local: string)
    requires IsLabelList(local)
    ensures local !in RootsOwn && local != "style"
  {
    assert |"aria-labelledby"| == 15 && |"aria-describedby"| == 16;
    NamesHaveLengths();
  }

  /** The elements that run or load something. */
  predicate IsActive(name: string) {
    Local(name) in {
      "script", "iframe", "object", "embed", "audio", "video", "canvas", "form", "input", "button", "textarea",
      "select", "animate", "animatemotion", "animatetransform", "discard", "handler", "listener", "set"}
  }

  predicate IsPassive(tag: Event) {
    IsOpening(tag) && !IsActive(tag.name)
  }

  lemma {:induction false} VisitedArePassive(c: Counters, events: seq<Event>)
    ensures forall i :: 0 <= i < |Openings(Visited(c, events))| ==> IsPassive(Openings(Visited(c, events))[i])
    decreases events
  {
    hide Visited, Openings, Advance;
    VisitedStep(c, events);
    if events == [] {
      OneOpening(Ignored);
    } else {
      VisitedArePassive(Advance(c, events[0]), events[1..]);
      var here, rest := if Visits(c, events[0]) then [events[0]] else [], Visited(Advance(c, events[0]), events[1..]);
      OpeningsConcat(here, rest);
      OneOpening(events[0]);
      forall i | 0 <= i < |Openings(here + rest)| ensures IsPassive(Openings(here + rest)[i]) {
        if i >= |Openings(here)| { assert Openings(here + rest)[i] == Openings(rest)[i - |Openings(here)|]; }
      }
    }
  }

  /** In every accepted SVG, no tag is one that runs or loads anything by itself, and the attributes of each tag
      are safe, with the style and the labels of the tag that it was written for; the root is marked. */
  lemma OutputTagsAreDressed(events: seq<Event>, renderId: string, presentation: Presentation, rules: Rules, n: nat)
    requires Finalize(events, renderId, presentation, rules).Ok?
    requires n < |Openings(Finalize(events, renderId, presentation, rules).value)|
    ensures var tags, outs := Openings(Visited(Outside, events)),
      Openings(Finalize(events, renderId, presentation, rules).value);
      && |tags| == |outs| && Inspect(events, renderId).Ok?
      && IsOpening(tags[n]) && IsOpening(outs[n]) && outs[n].name == tags[n].name && IsPassive(outs[n])
      && IsDressed(tags[n], outs[n], n == 0, Context(renderId, Inspect(events, renderId).value, presentation, rules))
  {
    hide *;
    FinalizedIsRewritten(events, renderId, presentation, rules);
    var tags, outs := Openings(Visited(Outside, events)),
      Openings(Finalize(events, renderId, presentation, rules).value);
    var occurrences := TagOccurrences(tags, true);
    var k := Context(renderId, CollectAll(occurrences, renderId), presentation, rules);
    CollectedIsComplete(occurrences, renderId);
    SameLength(tags, outs, true, map[], k);
    var before := EachIsRewritten(tags, outs, true, map[], k, n);
    AreOpenings(tags[n], outs[n], n == 0, before, k);
    RewrittenIsDressed(tags[n], outs[n], n == 0, before, k);
    VisitedArePassive(Outside, events);
    AlikeIsPassive(tags[n], outs[n]);
  }

  lemma AlikeIsPassive(tag: Event, out: Event)
    requires IsPassive(tag) && IsOpening(out) && out.name == tag.name
    ensures IsPassive(out)
  {
  }

  lemma AreOpenings(tag: Event, out: Event, isRoot: bool, seen: map<string, nat>, k: Context)
    requires IsRewritten(tag, out, isRoot, seen, k)
    ensures IsOpening(tag) && IsOpening(out) && out.name == tag.name
  {
  }

  /** Nothing but text elements. */
  predicate HoldsOnlyText(nodes: seq<Node>) {
    nodes == [] || (NodeIsText(nodes[0]) && HoldsOnlyText(nodes[1..]))
  }

  predicate NodeIsText(node: Node) {
    match node
    case Element(name, _, children) => IsTextElement(name) && HoldsOnlyText(children)
    case SelfClosed(name, _) => IsTextElement(name)
    case _ => true
  }

  predicate IsTextElement(name: string) {
    Local(name) in {"div", "span", "p", "br", "strong", "em", "b", "i", "small"}
  }

  /** Every foreign object holds nothing but text elements. */
  predicate ForeignHoldsText(nodes: seq<Node>) {
    nodes == [] || (NodeForeignHoldsText(nodes[0]) && ForeignHoldsText(nodes[1..]))
  }

  predicate NodeForeignHoldsText(node: Node) {
    node.Element? ==>
      if Local(node.name) == "foreignobject" then HoldsOnlyText(node.children) else ForeignHoldsText(node.children)
  }

  lemma {:induction false} TextConcat(a: seq<Node>, b: seq<Node>)
    ensures HoldsOnlyText(a + b) <==> HoldsOnlyText(a) && HoldsOnlyText(b)
    ensures ForeignHoldsText(a + b) <==> ForeignHoldsText(a) && ForeignHoldsText(b)
  {
    hide NodeIsText, NodeForeignHoldsText;
    if a == [] {
      assert a + b == b;
    } else {
      assert (a + b)[1..] == a[1..] + b;
      TextConcat(a[1..], b);
    }
  }

  /** That is so in every filtered tree, which is the tree of the output. */
  lemma {:induction false} FilteredForeignHoldsText(nodes: seq<Node>, inForeign: bool)
    ensures if inForeign then HoldsOnlyText(Filter(nodes, inForeign)) else ForeignHoldsText(Filter(nodes, inForeign))
    decreases nodes
  {
    if nodes != [] {
      var node, first, rest := nodes[0], FilterNode(nodes[0], inForeign), Filter(nodes[1..], inForeign);
      FilteredForeignHoldsText(nodes[1..], inForeign);
      TextConcat(first, rest);
      if node.Element? { FilteredForeignHoldsText(node.children, inForeign || IsForeignObject(node.name)); }
      hide Filter, Local;
      if first != [] { assert first[1..] == []; }
    }
  }

  /** Nothing else is filtered out. */
  lemma FilteredOutExactlyWhen(node: Node, inForeign: bool)
    requires node.Element? || node.SelfClosed?
    ensures FilterNode(node, inForeign) == [] <==> IsActive(node.name) || (inForeign && !IsTextElement(node.name))
  {
    hide Filter, Local;
  }
}
