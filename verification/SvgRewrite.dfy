/** The two passes over a generated SVG: the first plans the new ids, the second writes the events that
    are kept. What style sheets and style attributes are rewritten to is given from outside; `hosts` are
    those that pictures may be loaded from. */
module SvgRewrite {
  import opened Wrappers
  import opened Whitespace
  import opened SvgEvents
  import opened SvgIds
  import opened SvgReferences

  datatype Rules = Rules(
    stylesheet: (string, IdMap) -> Result<string, SvgError>,
    declarations: (string, IdMap) -> Result<string, SvgError>,
    hosts: seq<string>)

  /** What the caller wants of the root: how its style is completed, and its aspect ratio. */
  datatype Presentation = Presentation(
    rootStyle: (Option<string>, IdMap) -> Result<string, SvgError>,
    preserveAspectRatio: Option<string>)

  predicate IsId(name: string) {
    Local(name) == "id"
  }

  predicate IsLink(name: string) {
    Local(name) == "href" || Local(name) == "src"
  }

  predicate IsForbiddenAttribute(local: string) {
    "on" <= local || local in {
      "srcdoc", "nonce", "integrity", "crossorigin", "target", "formaction", "autofocus", "ping", "base"}
  }

  function OccurrencesOf(attributes: seq<Attribute>, isRoot: bool, isExpanded: bool): seq<Occurrence> {
    if attributes == [] then []
    else
      (if IsId(attributes[0].name) && attributes[0].value != []
        then [Occurrence(attributes[0].value, isRoot, isExpanded)]
       else [])
      + OccurrencesOf(attributes[1..], isRoot, isExpanded)
  }

  function CollectEach(s: Collector, occurrences: seq<Occurrence>, renderId: string): Collector
    decreases occurrences
  {
    if occurrences == [] then s else CollectEach(Collect(s, occurrences[0], renderId), occurrences[1..], renderId)
  }

  /** The id occurrences at an event. */
  function OccurrencesAt(c: Counters, e: Event): seq<Occurrence> {
    if !Visits(c, e) then []
    else
      match e
      case Start(_, attributes) => OccurrencesOf(attributes, c.depth == 0, true)
      case Empty(_, attributes) => OccurrencesOf(attributes, c.depth == 0, false)
      case _ => []
  }

  function AllOccurrences(c: Counters, events: seq<Event>): seq<Occurrence>
    decreases events
  {
    if events == [] then [] else OccurrencesAt(c, events[0]) + AllOccurrences(Advance(c, events[0]), events[1..])
  }

  /** Why the first pass stops at an event. */
  function InspectError(c: Counters, e: Event): Option<SvgError> {
    match e
    case Start(name, _) => if c.depth == 0 && Local(name) != "svg" then Some(InvalidXml) else None
    case Empty(name, _) => if c.depth == 0 && Local(name) != "svg" then Some(InvalidXml) else None
    case End(_) => if c.depth == 0 then Some(InvalidXml) else None
    case Text(text) => if c.depth == 0 && !IsBlank(text) then Some(InvalidXml) else None
    case Reference(_) => if c.depth == 0 then Some(InvalidXml) else None
    case Ignored => None
    case Forbidden => Some(Unsafe)
    case Malformed => Some(InvalidXml)
  }

  function RootsAfter(c: Counters, e: Event, roots: nat): nat {
    if (e.Start? || e.Empty?) && c.depth == 0 then roots + 1 else roots
  }

  function InspectFrom(events: seq<Event>, c: Counters, roots: nat, s: Collector,
                       renderId: string): Result<Collector, SvgError>
    decreases events
  {
    if events == [] then
      if c.depth != 0 || roots != 1 then Err(InvalidXml) else Ok(s)
    else if InspectError(c, events[0]).Some? then Err(InspectError(c, events[0]).value)
    else
      InspectFrom(events[1..], Advance(c, events[0]), RootsAfter(c, events[0], roots),
                  CollectEach(s, OccurrencesAt(c, events[0]), renderId), renderId)
  }

  function Inspect(events: seq<Event>, renderId: string): Result<Collector, SvgError> {
    InspectFrom(events, Outside, 0, Fresh, renderId)
  }

  method CollectElementId(attributes: seq<Attribute>, isRoot: bool, isSelfClosing: bool, renderId: string, s: Collector)
    returns (r: Collector)
    ensures r == CollectEach(s, OccurrencesOf(attributes, isRoot, !isSelfClosing), renderId)
  {
    hide Collect, IsId;
    r := s;
    for i := 0 to |attributes|
      invariant CollectEach(s, OccurrencesOf(attributes, isRoot, !isSelfClosing), renderId)
        == CollectEach(r, OccurrencesOf(attributes[i..], isRoot, !isSelfClosing), renderId)
    {
      var attribute := attributes[i];
      var rest := OccurrencesOf(attributes[i + 1..], isRoot, !isSelfClosing);
      assert attributes[i..][0] == attribute && attributes[i..][1..] == attributes[i + 1..];
      CollectMore(r, Occurrence(attribute.value, isRoot, !isSelfClosing), rest, renderId);
      if !IsId(attribute.name) || attribute.value == [] {
        continue;
      }
      r := Collect(r, Occurrence(attribute.value, isRoot, !isSelfClosing), renderId);
    }
  }

  lemma CollectMore(s: Collector, o: Occurrence, rest: seq<Occurrence>, renderId: string)
    ensures CollectEach(s, [o] + rest, renderId) == CollectEach(Collect(s, o, renderId), rest, renderId)
    ensures [] + rest == rest
  {
    assert ([o] + rest)[1..] == rest;
  }

  method InspectSvg(events: seq<Event>, renderId: string) returns (r: Result<Collector, SvgError>)
    ensures r == Inspect(events, renderId)
  {
    hide CollectEach, Drops, IsForeignObject, OccurrencesOf, Local, IsBlank;
    var depth, roots, suppressed, foreign := 0, 0, 0, 0;
    var idPlan := Fresh;
    for i := 0 to |events|
      invariant depth >= 0 && roots >= 0 && suppressed >= 0 && foreign >= 0
      invariant suppressed <= depth
      invariant Inspect(events, renderId)
        == InspectFrom(events[i..], Counters(depth, suppressed, foreign), roots, idPlan, renderId)
    {
      var e := events[i];
      assert events[i..][0] == e && events[i..][1..] == events[i + 1..];
      NothingCollected(idPlan, renderId);
      match e {
        case Start(name, attributes) =>
          if depth == 0 {
            if Local(name) != "svg" {
              return Err(InvalidXml);
            }
            roots := roots + 1;
          }
          if suppressed > 0 {
            suppressed := suppressed + 1;
          } else if Drops(name, foreign) {
            suppressed := 1;
          } else {
            idPlan := CollectElementId(attributes, depth == 0, false, renderId, idPlan);
            if IsForeignObject(name) {
              foreign := foreign + 1;
            }
          }
          depth := depth + 1;
        case Empty(name, attributes) =>
          if depth == 0 {
            if Local(name) != "svg" {
              return Err(InvalidXml);
            }
            roots := roots + 1;
          }
          if suppressed == 0 && !Drops(name, foreign) {
            idPlan := CollectElementId(attributes, depth == 0, true, renderId, idPlan);
          }
        case End(name) =>
          if depth == 0 {
            return Err(InvalidXml);
          }
          if suppressed > 0 {
            suppressed := suppressed - 1;
          } else if IsForeignObject(name) && foreign > 0 {
            foreign := foreign - 1;
          }
          depth := depth - 1;
        case Text(text) =>
          if depth == 0 && !IsBlank(text) {
            return Err(InvalidXml);
          }
        case Reference(_) =>
          if depth == 0 {
            return Err(InvalidXml);
          }
        case Ignored =>
        case Forbidden => return Err(Unsafe);
        case Malformed => return Err(InvalidXml);
      }
    }
    if depth != 0 || roots != 1 {
      return Err(InvalidXml);
    }
    return Ok(idPlan);
  }

  lemma NothingCollected(s: Collector, renderId: string)
    ensures CollectEach(s, [], renderId) == s
  {
  }

  /** Whether a link names an id that is renamed. */
  predicate NamesMapped(link: string, mapped: IdMap) {
    "#" <= link && link[1..] in mapped
  }

  /** Where else a link may lead: from an `a` to a heading of the page, a page or a mail address, and from an
      `image` to an allowed picture. */
  predicate MayLead(element: string, link: string, hosts: seq<string>) {
    match element
    case "a" =>
      if "#" <= link then link != "#" && forall i :: 1 <= i < |link| ==> !IsControl(link[i])
      else IsSafeNavigation(link)
    case "image" => !("#" <= link) && IsAllowedResource(link, hosts)
    case _ => false
  }

  predicate IsControl(c: char) {
    c <= '\U{1F}' || '\U{7F}' <= c <= '\U{9F}'
  }

  /** A reference of a link: into the SVG under the new id, to a heading of the page, or to an allowed
      address. Only `a` elements may lead to a heading. */
  function SanitizeHref(element: string, value: string, mapped: IdMap, rules: Rules): (r: Result<string, SvgError>)
    ensures NamesMapped(TrimSpace(value), mapped) ==> r == Ok("#" + mapped[TrimSpace(value)[1..]])
    ensures !NamesMapped(TrimSpace(value), mapped) && r.Ok? ==>
      r.value == TrimSpace(value) && ("#" <= r.value ==> element == "a")
    ensures r.Ok? <==> NamesMapped(TrimSpace(value), mapped) || MayLead(element, TrimSpace(value), rules.hosts)
    ensures r.Err? ==> r.error == Unsafe
  {
    var trimmed := TrimSpace(value);
    if "#" <= trimmed then
      var fragment := trimmed[1..];
      if fragment in mapped then Ok("#" + mapped[fragment])
      else if element == "a" && fragment != [] && !HasControl(fragment) then Ok(trimmed)
      else Err(Unsafe)
    else if element == "a" && IsSafeNavigation(trimmed) then Ok(trimmed)
    else if element == "image" && IsAllowedResource(trimmed, rules.hosts) then Ok(trimmed)
    else Err(Unsafe)
  }

  /** Control characters, the Unicode category Cc. */
  predicate HasControl(s: string) {
    exists i :: 0 <= i < |s| && (s[i] as int < 32 || 127 <= s[i] as int < 160)
  }

  /** The attributes written so far, the style that waits to be written, and how often each id has been
      seen. */
  datatype Written = Written(attributes: seq<Attribute>, style: Option<string>, seen: map<string, nat>)

  function Push(w: Written, name: string, value: string): Written {
    w.(attributes := w.attributes + [Attribute(name, value)])
  }

  /** What becomes of one attribute. */
  function RewriteAttribute(w: Written, a: Attribute, element: string, isRoot: bool, plan: Collector, rules: Rules)
    : Result<Written, SvgError>
  {
    var local := Local(a.name);
    if IsForbiddenAttribute(local) then Ok(w)
    else if local == "id" then
      if a.value == [] then Ok(w)
      else
        var index := SeenBefore(w.seen, a.value);
        var next := w.(seen := w.seen[a.value := index + 1]);
        if isRoot || !(a.value in plan.retained && plan.retained[a.value] == index) then Ok(next)
        else if a.value in plan.mapped then Ok(Push(next, a.name, plan.mapped[a.value]))
        else Err(Unsafe)
    else if local == "href" || local == "src" then
      match SanitizeHref(element, a.value, plan.mapped, rules)
      case Ok(value) => Ok(Push(w, a.name, value))
      case Err(e) => Err(e)
    else if local == "style" then
      match rules.declarations(a.value, plan.mapped)
      case Ok(value) => Ok(w.(style := Some(value)))
      case Err(e) => Err(e)
    else if local == "aria-labelledby" || local == "aria-describedby" then
      var value := Labels(a.value, plan.mapped);
      if value == [] then Ok(w) else Ok(Push(w, a.name, value))
    else
      match RewriteUrls(a.value, plan.mapped, rules.hosts)
      case Ok(value) => Ok(Push(w, a.name, value))
      case Err(e) => Err(e)
  }

  function RewriteEach(w: Written, attributes: seq<Attribute>, element: string, isRoot: bool, plan: Collector,
                       rules: Rules)
    : Result<Written, SvgError>
    decreases attributes
  {
    if attributes == [] then Ok(w)
    else
      match RewriteAttribute(w, attributes[0], element, isRoot, plan, rules)
      case Ok(next) => RewriteEach(next, attributes[1..], element, isRoot, plan, rules)
      case Err(e) => Err(e)
  }

  /** The attributes without those with these local names. */
  function Without(attributes: seq<Attribute>, locals: set<string>): seq<Attribute> {
    if attributes == [] then []
    else
      (if Local(attributes[0].name) in locals then [] else [attributes[0]]) + Without(attributes[1..], locals)
  }

  function StyleAttribute(style: string): seq<Attribute> {
    if style == [] then [] else [Attribute("style", style)]
  }

  /** The root gets its own id, marker, style, aspect ratio and role. */
  function FinishRoot(w: Written, renderId: string, plan: Collector,
                      presentation: Presentation): Result<seq<Attribute>, SvgError> {
    var kept := Without(w.attributes, {"id", "role", "preserveaspectratio", "data-kmark-generated-svg"})
      + [Attribute("id", RootId(renderId)), Attribute("data-kmark-generated-svg", "true")];
    match presentation.rootStyle(w.style, plan.mapped)
    case Err(e) => Err(e)
    case Ok(style) =>
      var styled := kept + StyleAttribute(style);
      var placed := if presentation.preserveAspectRatio.None? then styled
        else styled + [Attribute("preserveAspectRatio", presentation.preserveAspectRatio.value)];
      Ok(placed + [Attribute("role", "img")])
  }

  /** The attributes of a rewritten opening tag, and the counts of ids seen after it. */
  function RewriteStart(name: string, attributes: seq<Attribute>, isRoot: bool, renderId: string, plan: Collector,
                        presentation: Presentation, rules: Rules, seen: map<string, nat>)
    : Result<(seq<Attribute>, map<string, nat>), SvgError>
  {
    match RewriteEach(Written([], None, seen), attributes, Local(name), isRoot, plan, rules)
    case Err(e) => Err(e)
    case Ok(w) =>
      if isRoot then
        match FinishRoot(w, renderId, plan, presentation)
        case Err(e) => Err(e)
        case Ok(finished) => Ok((finished, w.seen))
      else
        Ok((w.attributes + (if w.style.Some? then StyleAttribute(w.style.value) else []), w.seen))
  }

  /** The state of the second pass besides the counters: the depth of the open style element, its text,
      and the counts of ids seen. */
  datatype Pen = Pen(styleDepth: Option<nat>, styleText: string, seen: map<string, nat>)

  const FreshPen := Pen(None, [], map[])

  datatype Context = Context(renderId: string, plan: Collector, presentation: Presentation, rules: Rules)

  function WriteCharacters(pen: Pen, text: string): (seq<Event>, Pen) {
    if pen.styleDepth.Some? then ([], pen.(styleText := pen.styleText + text)) else ([Text(text)], pen)
  }

  /** What an event that is acted on writes. */
  function WriteEvent(c: Counters, e: Event, pen: Pen, k: Context): Result<(seq<Event>, Pen), SvgError> {
    match e
    case Start(name, attributes) =>
      (match RewriteStart(name, attributes, c.depth == 0, k.renderId, k.plan, k.presentation, k.rules, pen.seen)
       case Err(error) => Err(error)
       case Ok((rewritten, seen)) =>
         var next := pen.(seen := seen);
         Ok(([Start(name, rewritten)],
             if Local(name) == "style" then next.(styleDepth := Some(c.depth + 1), styleText := []) else next)))
    case Empty(name, attributes) =>
      (match RewriteStart(name, attributes, c.depth == 0, k.renderId, k.plan, k.presentation, k.rules, pen.seen)
       case Err(error) => Err(error)
       case Ok((rewritten, seen)) => Ok(([Empty(name, rewritten)], pen.(seen := seen))))
    case End(name) =>
      if pen.styleDepth == Some(c.depth) then
        match k.rules.stylesheet(pen.styleText, k.plan.mapped)
        case Err(error) => Err(error)
        case Ok(sheet) =>
          Ok(((if sheet == [] then [] else [Text(sheet)]) + [End(name)], pen.(styleDepth := None, styleText := [])))
      else Ok(([End(name)], pen))
    case Text(text) => Ok(WriteCharacters(pen, text))
    case Reference(resolved) => if resolved.None? then Err(InvalidXml) else Ok(WriteCharacters(pen, resolved.value))
    case _ => Ok(([], pen))
  }

  /** Errors that do not depend on whether the event is in a dropped element. */
  function RewriteError(c: Counters, e: Event): Option<SvgError> {
    match e
    case End(_) => if c.depth == 0 then Some(InvalidXml) else None
    case Forbidden => Some(Unsafe)
    case Malformed => Some(InvalidXml)
    case _ => None
  }

  function RewriteFrom(events: seq<Event>, c: Counters, pen: Pen, k: Context): Result<seq<Event>, SvgError>
    decreases events
  {
    if events == [] then Ok([])
    else if RewriteError(c, events[0]).Some? then Err(RewriteError(c, events[0]).value)
    else
      var turn := if Visits(c, events[0]) then WriteEvent(c, events[0], pen, k) else Ok(([], pen));
      match turn
      case Err(error) => Err(error)
      case Ok((out, next)) =>
        match RewriteFrom(events[1..], Advance(c, events[0]), next, k)
        case Err(error) => Err(error)
        case Ok(rest) => Ok(out + rest)
  }

  /** Both passes. */
  function Finalize(events: seq<Event>, renderId: string, presentation: Presentation,
                    rules: Rules): Result<seq<Event>, SvgError> {
    if !IsRenderId(renderId) then Err(Unsafe)
    else
      match Inspect(events, renderId)
      case Err(error) => Err(error)
      case Ok(plan) => RewriteFrom(events, Outside, FreshPen, Context(renderId, plan, presentation, rules))
  }

  method RewriteStartTag(name: string, attributes: seq<Attribute>, isRoot: bool, k: Context, seen: map<string, nat>)
    returns (r: Result<(seq<Attribute>, map<string, nat>), SvgError>)
    ensures r == RewriteStart(name, attributes, isRoot, k.renderId, k.plan, k.presentation, k.rules, seen)
  {
    hide RewriteAttribute, FinishRoot, Local;
    var w := Written([], None, seen);
    for i := 0 to |attributes|
      invariant RewriteEach(Written([], None, seen), attributes, Local(name), isRoot, k.plan, k.rules)
        == RewriteEach(w, attributes[i..], Local(name), isRoot, k.plan, k.rules)
    {
      assert attributes[i..][0] == attributes[i] && attributes[i..][1..] == attributes[i + 1..];
      var next := RewriteAttribute(w, attributes[i], Local(name), isRoot, k.plan, k.rules);
      if next.Err? {
        return Err(next.error);
      }
      w := next.value;
    }
    if isRoot {
      var finished := FinishRoot(w, k.renderId, k.plan, k.presentation);
      return if finished.Err? then Err(finished.error) else Ok((finished.value, w.seen));
    }
    return Ok((w.attributes + (if w.style.Some? then StyleAttribute(w.style.value) else []), w.seen));
  }

  method RewriteSvg(events: seq<Event>, k: Context) returns (r: Result<seq<Event>, SvgError>)
    ensures r == RewriteFrom(events, Outside, FreshPen, k)
  {
    hide Drops, IsForeignObject, Local, RewriteStart, RewriteFrom;
    var writer: seq<Event> := [];
    var depth, suppressed, foreign := 0, 0, 0;
    var styleDepth: Option<nat> := None;
    var styleText := "";
    var seen: map<string, nat> := map[];
    assert events[0..] == events;
    PrependNothing(RewriteFrom(events, Outside, FreshPen, k));
    for i := 0 to |events|
      invariant depth >= 0 && suppressed >= 0 && foreign >= 0 && suppressed <= depth
      invariant RewriteFrom(events, Outside, FreshPen, k)
        == Prepend(writer,
          RewriteFrom(events[i..], Counters(depth, suppressed, foreign), Pen(styleDepth, styleText, seen), k))
    {
      var e := events[i];
      assert events[i..][0] == e && events[i..][1..] == events[i + 1..];
      ghost var c, pen, before := Counters(depth, suppressed, foreign), Pen(styleDepth, styleText, seen), writer;
      ghost var turn := if Visits(c, e) then WriteEvent(c, e, pen, k) else Ok(([], pen));
      RewriteStep(events[i..], c, pen, k, writer);
      match e {
        case Start(name, attributes) =>
          if suppressed > 0 {
            suppressed := suppressed + 1;
          } else if Drops(name, foreign) {
            suppressed := 1;
          } else {
            var tag := RewriteStartTag(name, attributes, depth == 0, k, seen);
            if tag.Err? {
              return Err(tag.error);
            }
            writer := writer + [Start(name, tag.value.0)];
            seen := tag.value.1;
            if IsForeignObject(name) {
              foreign := foreign + 1;
            }
            if Local(name) == "style" {
              styleDepth, styleText := Some(depth + 1), "";
            }
          }
          depth := depth + 1;
        case Empty(name, attributes) =>
          if suppressed == 0 && !Drops(name, foreign) {
            var tag := RewriteStartTag(name, attributes, depth == 0, k, seen);
            if tag.Err? {
              return Err(tag.error);
            }
            writer := writer + [Empty(name, tag.value.0)];
            seen := tag.value.1;
          }
        case End(name) =>
          if depth == 0 {
            return Err(InvalidXml);
          }
          if suppressed > 0 {
            suppressed := suppressed - 1;
          } else {
            if styleDepth == Some(depth) {
              var sheet := k.rules.stylesheet(styleText, k.plan.mapped);
              if sheet.Err? {
                return Err(sheet.error);
              }
              if sheet.value != [] {
                writer := writer + [Text(sheet.value)];
              }
              styleDepth, styleText := None, "";
            }
            if IsForeignObject(name) && foreign > 0 {
              foreign := foreign - 1;
            }
            writer := writer + [End(name)];
          }
          depth := depth - 1;
        case Text(text) =>
          if suppressed == 0 {
            if styleDepth.Some? {
              styleText := styleText + text;
            } else {
              writer := writer + [Text(text)];
            }
          }
        case Reference(resolved) =>
          if suppressed == 0 {
            if resolved.None? {
              return Err(InvalidXml);
            }
            if styleDepth.Some? {
              styleText := styleText + resolved.value;
            } else {
              writer := writer + [Text(resolved.value)];
            }
          }
        case Ignored =>
        case Forbidden => return Err(Unsafe);
        case Malformed => return Err(InvalidXml);
      }
      assert turn.Ok? && writer == before + turn.value.0 && Pen(styleDepth, styleText, seen) == turn.value.1;
      assert Counters(depth, suppressed, foreign) == Advance(c, e);
    }
    RewriteNothing(Counters(depth, suppressed, foreign), Pen(styleDepth, styleText, seen), k);
    assert events[|events|..] == [] && writer + [] == writer;
    return Ok(writer);
  }

  function Prepend(out: seq<Event>, r: Result<seq<Event>, SvgError>): Result<seq<Event>, SvgError> {
    if r.Err? then r else Ok(out + r.value)
  }

  lemma PrependNothing(r: Result<seq<Event>, SvgError>)
    ensures Prepend([], r) == r
  {
    assert r.Ok? ==> [] + r.value == r.value;
  }

  lemma RewriteNothing(c: Counters, pen: Pen, k: Context)
    ensures RewriteFrom([], c, pen, k) == Ok([])
  {
  }

  lemma RewriteStep(events: seq<Event>, c: Counters, pen: Pen, k: Context, before: seq<Event>)
    requires events != []
    ensures var turn := if Visits(c, events[0]) then WriteEvent(c, events[0], pen, k) else Ok(([], pen));
      Prepend(before, RewriteFrom(events, c, pen, k))
      == if RewriteError(c, events[0]).Some? then Err(RewriteError(c, events[0]).value)
         else if turn.Err? then Err(turn.error)
         else Prepend(before + turn.value.0, RewriteFrom(events[1..], Advance(c, events[0]), turn.value.1, k))
  {
    hide Visits, WriteEvent, RewriteError, Advance;
    var turn := if Visits(c, events[0]) then WriteEvent(c, events[0], pen, k) else Ok(([], pen));
    if RewriteError(c, events[0]).None? && turn.Ok? {
      var rest := RewriteFrom(events[1..], Advance(c, events[0]), turn.value.1, k);
      assert rest.Ok? ==> before + (turn.value.0 + rest.value) == before + turn.value.0 + rest.value;
    }
  }

  method FinalizeSvg(events: seq<Event>, renderId: string, presentation: Presentation, rules: Rules)
    returns (r: Result<seq<Event>, SvgError>)
    ensures r == Finalize(events, renderId, presentation, rules)
  {
    if !IsRenderId(renderId) {
      return Err(Unsafe);
    }
    var plan := InspectSvg(events, renderId);
    if plan.Err? {
      return Err(plan.error);
    }
    r := RewriteSvg(events, Context(renderId, plan.value, presentation, rules));
  }
}
