/** Rendering a math tree as MathML: the output reads back as balanced tags around the escaped texts of
    the tree, whatever those texts are. */
module MathRender {
  import opened Wrappers
  import opened MathSyntax
  import opened MathParsing
  import opened MathParsers

  function EscapeChar(c: char): string {
    if c == '&' then "&amp;"
    else if c == '"' then "&quot;"
    else if c == '\'' then "&#39;"
    else if c == '<' then "&lt;"
    else if c == '>' then "&gt;"
    else [c]
  }

  function Escape(text: string): string {
    if text == [] then [] else EscapeChar(text[0]) + Escape(text[1..])
  }

  method EscapeHtml(text: string) returns (escaped: string)
    ensures escaped == Escape(text)
  {
    hide EscapeChar;
    escaped := "";
    for i := 0 to |text|
      invariant Escape(text) == escaped + Escape(text[i..])
    {
      assert text[i..][0] == text[i] && text[i..][1..] == text[i + 1..];
      assert escaped + (EscapeChar(text[i]) + Escape(text[i + 1..]))
        == escaped + EscapeChar(text[i]) + Escape(text[i + 1..]);
      escaped := escaped + EscapeChar(text[i]);
    }
  }

  /** What a browser reads for an escaped text. */
  function Unescape(s: string): string {
    if s == [] then []
    else if "&amp;" <= s then "&" + Unescape(s[5..])
    else if "&quot;" <= s then "\"" + Unescape(s[6..])
    else if "&#39;" <= s then "'" + Unescape(s[5..])
    else if "&lt;" <= s then "<" + Unescape(s[4..])
    else if "&gt;" <= s then ">" + Unescape(s[4..])
    else [s[0]] + Unescape(s[1..])
  }

  /** An element: its opening tag with attributes, its content and its closing tag. */
  function Element(name: string, attributes: string, content: string): string {
    "<" + (name + attributes) + ">" + content + ("<" + ("/" + name) + ">")
  }

  function Fence(text: string): string {
    if text == [] then [] else Element("mo", " fence=\"true\"", Escape(text))
  }

  function Render(node: MathNode): string
    decreases node, 0
  {
    match node
    case Fraction(numerator, denominator) => Element("mfrac", "", RenderGrouped(numerator) + RenderGrouped(denominator))
    case Fenced(open, body, close) => Element("mrow", "", Fence(open) + Render(body) + Fence(close))
    case Identifier(text) => Element("mi", "", Escape(text))
    case Matrix(rows) => Element("mtable", "", RenderRows(rows))
    case Number(text) => Element("mn", "", Escape(text))
    case Operator(text) => Element("mo", "", Escape(text))
    case Row(nodes) => Element("mrow", "", RenderAll(nodes))
    case Space => "<mspace width=\"0.25em\" />"
    case Sqrt(Some(degree), radicand) => Element("mroot", "", RenderGrouped(radicand) + RenderGrouped(degree))
    case Sqrt(None, radicand) => Element("msqrt", "", Render(radicand))
    case SupSub(base, Some(sub), Some(sup)) =>
      Element("msubsup", "", RenderGrouped(base) + RenderGrouped(sub) + RenderGrouped(sup))
    case SupSub(base, Some(sub), None) => Element("msub", "", RenderGrouped(base) + RenderGrouped(sub))
    case SupSub(base, None, Some(sup)) => Element("msup", "", RenderGrouped(base) + RenderGrouped(sup))
    case SupSub(base, None, None) => Render(base)
  }

  predicate StandsAlone(node: MathNode) {
    node.Identifier? || node.Matrix? || node.Number? || node.Operator? || node.Space?
  }

  function RenderGrouped(node: MathNode): string
    decreases node, 1
  {
    if StandsAlone(node) then Render(node) else Element("mrow", "", Render(node))
  }

  function RenderAll(nodes: seq<MathNode>): string
    decreases nodes
  {
    if nodes == [] then [] else Render(nodes[0]) + RenderAll(nodes[1..])
  }

  function RenderCells(cells: seq<MathNode>): string
    decreases cells
  {
    if cells == [] then [] else Element("mtd", "", RenderGrouped(cells[0])) + RenderCells(cells[1..])
  }

  function RenderRows(rows: seq<MatrixRow>): string
    decreases rows
  {
    if rows == [] then [] else Element("mtr", "", RenderCells(rows[0].cells)) + RenderRows(rows[1..])
  }

  function Shown(text: string): seq<string> {
    if text == [] then [] else [text]
  }

  /** The texts of a tree, in the order in which MathML wants them. */
  function Leaves(node: MathNode): seq<string>
    decreases node
  {
    match node
    case Fraction(numerator, denominator) => Leaves(numerator) + Leaves(denominator)
    case Fenced(open, body, close) => Shown(open) + Leaves(body) + Shown(close)
    case Identifier(text) => Shown(text)
    case Matrix(rows) => LeavesOfRows(rows)
    case Number(text) => Shown(text)
    case Operator(text) => Shown(text)
    case Row(nodes) => LeavesOfAll(nodes)
    case Space => []
    case Sqrt(Some(degree), radicand) => Leaves(radicand) + Leaves(degree)
    case Sqrt(None, radicand) => Leaves(radicand)
    case SupSub(base, Some(sub), Some(sup)) => Leaves(base) + Leaves(sub) + Leaves(sup)
    case SupSub(base, Some(sub), None) => Leaves(base) + Leaves(sub)
    case SupSub(base, None, Some(sup)) => Leaves(base) + Leaves(sup)
    case SupSub(base, None, None) => Leaves(base)
  }

  function LeavesOfAll(nodes: seq<MathNode>): seq<string>
    decreases nodes
  {
    if nodes == [] then [] else Leaves(nodes[0]) + LeavesOfAll(nodes[1..])
  }

  function LeavesOfRows(rows: seq<MatrixRow>): seq<string>
    decreases rows
  {
    if rows == [] then [] else LeavesOfAll(rows[0].cells) + LeavesOfRows(rows[1..])
  }

  /** A tag, without its angle brackets, or a text between tags. */
  datatype Token = Tag(content: string) | Text(text: string)

  function Print(tokens: seq<Token>): string {
    if tokens == [] then [] else PrintToken(tokens[0]) + Print(tokens[1..])
  }

  function PrintToken(token: Token): string {
    match token
    case Tag(content) => "<" + content + ">"
    case Text(text) => text
  }

  function IndexOf(s: string, c: char, i: nat): (r: nat)
    requires i <= |s|
    ensures i <= r <= |s|
    decreases |s| - i
  {
    if i == |s| || s[i] == c then i else IndexOf(s, c, i + 1)
  }

  predicate HasNoAngles(s: string) {
    forall i :: 0 <= i < |s| ==> s[i] != '<' && s[i] != '>'
  }

  /** Reads tags and texts back from a string; a stray angle bracket is an error. */
  function Lex(s: string): Option<seq<Token>>
    decreases |s|
  {
    if s == [] then Some([])
    else if s[0] == '<' then
      var end := IndexOf(s, '>', 1);
      if end == |s| || !HasNoAngles(s[1..end]) then None
      else
        match Lex(s[end + 1..])
        case None => None
        case Some(rest) => Some([Tag(s[1..end])] + rest)
    else
      var end := IndexOf(s, '<', 0);
      if end == 0 || !HasNoAngles(s[..end]) then None
      else
        match Lex(s[end..])
        case None => None
        case Some(rest) => Some([Text(s[..end])] + rest)
  }

  /** Tokens that can be read back. */
  predicate IsClean(tokens: seq<Token>) {
    && (forall i :: 0 <= i < |tokens| ==>
      match tokens[i] case Tag(content) => HasNoAngles(content) case Text(text) => text != [] && HasNoAngles(text))
    && (forall i :: 0 <= i < |tokens| - 1 ==> tokens[i].Text? ==> tokens[i + 1].Tag?)
  }

  lemma {:induction false} IndexIs(s: string, c: char, i: nat, at: nat)
    requires i <= at <= |s| && (at < |s| ==> s[at] == c) && forall k :: i <= k < at ==> s[k] != c
    ensures IndexOf(s, c, i) == at
    decreases at - i
  {
    if i < at { IndexIs(s, c, i + 1, at); }
  }

  lemma {:induction false} LexPrint(tokens: seq<Token>)
    requires IsClean(tokens)
    ensures Lex(Print(tokens)) == Some(tokens)
    decreases |tokens|
  {
    if tokens != [] {
      var first, rest := tokens[0], tokens[1..];
      assert forall i :: 0 <= i < |rest| ==> rest[i] == tokens[i + 1];
      LexPrint(rest);
      var s, more := Print(tokens), Print(rest);
      assert tokens == [first] + rest;
      hide Print, IsClean, Lex, HasNoAngles;
      match first {
        case Tag(content) =>
          assert HasNoAngles(content) by { CleanFirst(tokens); }
          assert Print(tokens) == "<" + content + ">" + more by { PrintFirst(tokens); }
          LexTag(content, more);
        case Text(text) =>
          CleanFirst(tokens);
          PrintFirst(tokens);
          StartsWithTag(rest);
          LexText(text, more);
      }
    }
  }

  lemma CleanFirst(tokens: seq<Token>)
    requires IsClean(tokens) && tokens != []
    ensures match tokens[0] case Tag(content) => HasNoAngles(content) case Text(text) => text != [] && HasNoAngles(text)
    ensures tokens[0].Text? && |tokens| > 1 ==> tokens[1].Tag?
  {
  }

  lemma PrintFirst(tokens: seq<Token>)
    requires tokens != []
    ensures Print(tokens) == PrintToken(tokens[0]) + Print(tokens[1..])
  {
  }

  lemma StartsWithTag(tokens: seq<Token>)
    requires tokens == [] || tokens[0].Tag?
    ensures Print(tokens) == [] || Print(tokens)[0] == '<'
  {
  }

  lemma LexTag(content: string, rest: string)
    requires HasNoAngles(content)
    ensures Lex("<" + content + ">" + rest)
      == match Lex(rest) case None => None case Some(tokens) => Some([Tag(content)] + tokens)
  {
    var s, n := "<" + content + ">" + rest, |content| + 1;
    assert forall k :: 1 <= k < n ==> s[k] == content[k - 1];
    assert s[n] == '>';
    IndexIs(s, '>', 1, n);
    assert s[1..n] == content && s[n + 1..] == rest;
  }

  lemma LexText(text: string, rest: string)
    requires HasNoAngles(text) && text != [] && (rest == [] || rest[0] == '<')
    ensures Lex(text + rest) == match Lex(rest) case None => None case Some(tokens) => Some([Text(text)] + tokens)
  {
    var s, n := text + rest, |text|;
    assert forall k :: 0 <= k < n ==> s[k] == text[k];
    IndexIs(s, '<', 0, n);
    assert s[..n] == text && s[n..] == rest;
  }

  lemma {:induction false} EscapeHasNoAngles(text: string)
    ensures HasNoAngles(Escape(text)) && (Escape(text) == [] <==> text == [])
  {
    if text != [] { EscapeHasNoAngles(text[1..]); }
  }

  /** An escaped text can neither open a tag nor close an attribute. */
  lemma {:induction false} EscapedIsInert(text: string)
    ensures forall i :: 0 <= i < |Escape(text)| ==> Escape(text)[i] !in {'<', '>', '"', '\''}
  {
    if text != [] { EscapedIsInert(text[1..]); }
  }

  /** Escaping loses nothing. */
  lemma {:induction false} UnescapeEscape(text: string)
    ensures Unescape(Escape(text)) == text
  {
    if text != [] {
      UnescapeEscape(text[1..]);
      UnescapeOne(text[0], Escape(text[1..]));
    }
  }

  lemma UnescapeOne(c: char, rest: string)
    ensures Unescape(EscapeChar(c) + rest) == [c] + Unescape(rest)
  {
    var e := EscapeChar(c);
    var s := e + rest;
    assert s[|e|..] == rest && s[..|e|] == e && s[0] == e[0];
    if |e| == 1 {
      assert forall k :: k in ["&amp;", "&quot;", "&#39;", "&lt;", "&gt;"] ==> k[0] == '&';
      NoEntity(s);
    } else {
      EntityIsRead(e, c, rest);
    }
  }

  lemma NoEntity(s: string)
    requires s != [] && s[0] != '&'
    ensures Unescape(s) == [s[0]] + Unescape(s[1..])
  {
  }

  lemma EntityIsRead(e: string, c: char, rest: string)
    requires e == EscapeChar(c) && |e| > 1
    ensures Unescape(e + rest) == [c] + Unescape(rest)
  {
    var s := e + rest;
    assert e <= s && s[|e|..] == rest && s[1] == e[1];
    if c != '&' { Differs(s, "&amp;"); }
    if c != '"' { Differs(s, "&quot;"); }
    if c != '\'' { Differs(s, "&#39;"); }
    if c != '<' { Differs(s, "&lt;"); }
  }

  lemma Differs(s: string, e: string)
    requires |s| > 1 && |e| > 1 && s[1] != e[1]
    ensures !(e <= s)
  {
  }

  function NameOf(tag: string): string {
    if tag == [] || tag[0] == ' ' then [] else [tag[0]] + NameOf(tag[1..])
  }

  /** Opens and closes elements; the result is the elements that are open afterwards, innermost last. */
  function OpenAfter(tokens: seq<Token>, open: seq<string>): Option<seq<string>>
    decreases tokens
  {
    if tokens == [] then Some(open)
    else
      match tokens[0]
      case Text(_) => OpenAfter(tokens[1..], open)
      case Tag(tag) =>
        if "/" <= tag then
          if open == [] || open[|open| - 1] != tag[1..] then None else OpenAfter(tokens[1..], open[..|open| - 1])
        else if tag != [] && tag[|tag| - 1] == '/' then OpenAfter(tokens[1..], open)
        else OpenAfter(tokens[1..], open + [NameOf(tag)])
  }

  function TextsOf(tokens: seq<Token>): seq<string>
    decreases tokens
  {
    if tokens == [] then [] else (if tokens[0].Text? then [tokens[0].text] else []) + TextsOf(tokens[1..])
  }

  function EscapeAll(texts: seq<string>): seq<string> {
    if texts == [] then [] else [Escape(texts[0])] + EscapeAll(texts[1..])
  }

  /** What MathML lays out: each element with its parts in their places. */
  datatype Layout =
    | Chars(text: string)
    | Ident(text: string) | Num(text: string) | Op(text: string) | Stretched(text: string) | Gap
    | Over(numerator: Layout, denominator: Layout)
    | SquareRoot(inside: Layout) | DegreeRoot(degree: Layout, inside: Layout)
    | Below(base: Layout, sub: Layout) | Above(base: Layout, sup: Layout)
    | BelowAbove(base: Layout, sub: Layout, sup: Layout)
    | Table(rows: seq<Layout>) | Line(cells: seq<Layout>) | Cell(content: Layout)
    | Together(items: seq<Layout>)

  /** Grouping one thing changes nothing. */
  function Joined(items: seq<Layout>): Layout {
    if |items| == 1 then items[0] else Together(items)
  }

  predicate AreChars(parts: seq<Layout>) {
    parts == [] || (|parts| == 1 && parts[0].Chars?)
  }

  function CharsIn(parts: seq<Layout>): string
    requires AreChars(parts)
  {
    if parts == [] then [] else parts[0].text
  }

  /** The layout of an element with this opening tag around these parts, as the MathML elements are defined. */
  function ElementLayout(tag: string, parts: seq<Layout>): Option<Layout> {
    match tag
    case "mi" => if AreChars(parts) then Some(Ident(CharsIn(parts))) else None
    case "mn" => if AreChars(parts) then Some(Num(CharsIn(parts))) else None
    case "mo" => if AreChars(parts) then Some(Op(CharsIn(parts))) else None
    case "mo fence=\"true\"" => if AreChars(parts) then Some(Stretched(CharsIn(parts))) else None
    case "mrow" => Some(Joined(parts))
    case "msqrt" => Some(SquareRoot(Joined(parts)))
    case "mroot" => if |parts| == 2 then Some(DegreeRoot(parts[1], parts[0])) else None
    case "mfrac" => if |parts| == 2 then Some(Over(parts[0], parts[1])) else None
    case "msub" => if |parts| == 2 then Some(Below(parts[0], parts[1])) else None
    case "msup" => if |parts| == 2 then Some(Above(parts[0], parts[1])) else None
    case "msubsup" => if |parts| == 3 then Some(BelowAbove(parts[0], parts[1], parts[2])) else None
    case "mtable" => Some(Table(parts))
    case "mtr" => Some(Line(parts))
    case "mtd" => Some(Cell(Joined(parts)))
    case _ => None
  }

  /** An element that is still open, with the parts read so far. */
  datatype Frame = Frame(tag: string, parts: seq<Layout>)

  function Put(stack: seq<Frame>, parts: seq<Layout>): seq<Frame>
    requires stack != []
  {
    var top := stack[|stack| - 1];
    stack[..|stack| - 1] + [top.(parts := top.parts + parts)]
  }

  function ReadToken(token: Token, stack: seq<Frame>): Option<seq<Frame>> {
    if stack == [] then None
    else
      match token
      case Text(text) => Some(Put(stack, [Chars(Unescape(text))]))
      case Tag(tag) =>
        if "/" <= tag then
          var top := stack[|stack| - 1];
          if |stack| == 1 || NameOf(top.tag) != tag[1..] then None
          else
            match ElementLayout(top.tag, top.parts)
            case None => None
            case Some(layout) => Some(Put(stack[..|stack| - 1], [layout]))
        else if tag != [] && tag[|tag| - 1] == '/' then
          if tag == "mspace width=\"0.25em\" /" then Some(Put(stack, [Gap])) else None
        else Some(stack + [Frame(tag, [])])
  }

  /** Reads markup from left to right. */
  function Read(tokens: seq<Token>, stack: seq<Frame>): Option<seq<Frame>>
    decreases tokens
  {
    if tokens == [] then Some(stack)
    else
      match ReadToken(tokens[0], stack)
      case None => None
      case Some(after) => Read(tokens[1..], after)
  }

  function StretchedOf(text: string): seq<Layout> {
    if text == [] then [] else [Stretched(text)]
  }

  /** What the tree is to look like. */
  function LayoutOf(node: MathNode): Layout
    decreases node
  {
    match node
    case Fraction(numerator, denominator) => Over(LayoutOf(numerator), LayoutOf(denominator))
    case Fenced(open, body, close) => Joined(StretchedOf(open) + [LayoutOf(body)] + StretchedOf(close))
    case Identifier(text) => Ident(text)
    case Matrix(rows) => Table(LayoutsOfRows(rows))
    case Number(text) => Num(text)
    case Operator(text) => Op(text)
    case Row(nodes) => Joined(LayoutsOf(nodes))
    case Space => Gap
    case Sqrt(Some(degree), radicand) => DegreeRoot(LayoutOf(degree), LayoutOf(radicand))
    case Sqrt(None, radicand) => SquareRoot(LayoutOf(radicand))
    case SupSub(base, Some(sub), Some(sup)) => BelowAbove(LayoutOf(base), LayoutOf(sub), LayoutOf(sup))
    case SupSub(base, Some(sub), None) => Below(LayoutOf(base), LayoutOf(sub))
    case SupSub(base, None, Some(sup)) => Above(LayoutOf(base), LayoutOf(sup))
    case SupSub(base, None, None) => LayoutOf(base)
  }

  function LayoutsOf(nodes: seq<MathNode>): seq<Layout>
    decreases nodes
  {
    if nodes == [] then [] else [LayoutOf(nodes[0])] + LayoutsOf(nodes[1..])
  }

  function CellsOf(cells: seq<MathNode>): seq<Layout>
    decreases cells
  {
    if cells == [] then [] else [Cell(LayoutOf(cells[0]))] + CellsOf(cells[1..])
  }

  function LayoutsOfRows(rows: seq<MatrixRow>): seq<Layout>
    decreases rows
  {
    if rows == [] then [] else [Line(CellsOf(rows[0].cells))] + LayoutsOfRows(rows[1..])
  }

  /** The tokens are those of the string, start and end with a tag, have these texts between the tags, and
      are read as these parts. */
  ghost predicate Shows(tokens: seq<Token>, html: string, texts: seq<string>, parts: seq<Layout>) {
    && (tokens == [] || (tokens[0].Tag? && tokens[|tokens| - 1].Tag?))
    && IsContentOf(tokens, html, texts, parts)
  }

  /** What may stand inside an element: markup, or one text. */
  ghost predicate IsContentOf(inside: seq<Token>, html: string, texts: seq<string>, parts: seq<Layout>) {
    && IsClean(inside) && Print(inside) == html && TextsOf(inside) == EscapeAll(texts)
    && ReadsAs(inside, parts)
  }

  ghost predicate ReadsAs(tokens: seq<Token>, parts: seq<Layout>) {
    forall stack: seq<Frame> :: stack != [] ==> Read(tokens, stack) == Some(Put(stack, parts))
  }

  lemma {:induction false} ReadConcat(a: seq<Token>, b: seq<Token>, stack: seq<Frame>)
    ensures Read(a + b, stack) == match Read(a, stack) case None => None case Some(after) => Read(b, after)
    decreases |a|
  {
    hide ReadToken;
    if a == [] {
      assert a + b == b;
    } else {
      assert (a + b)[0] == a[0] && (a + b)[1..] == a[1..] + b;
      match ReadToken(a[0], stack) {
        case None =>
        case Some(after) => ReadConcat(a[1..], b, after);
      }
    }
  }

  lemma ReadsConcat(a: seq<Token>, x: seq<Layout>, b: seq<Token>, y: seq<Layout>)
    requires ReadsAs(a, x) && ReadsAs(b, y)
    ensures ReadsAs(a + b, x + y)
  {
    hide Read;
    forall stack: seq<Frame> | stack != [] ensures Read(a + b, stack) == Some(Put(stack, x + y)) {
      ReadConcat(a, b, stack);
      var n := |stack| - 1;
      assert (stack[n].parts + x) + y == stack[n].parts + (x + y);
      assert Put(Put(stack, x), y) == Put(stack, x + y);
    }
  }

  /** What can be read is balanced. */
  lemma {:induction false} ReadBalances(tokens: seq<Token>, stack: seq<Frame>)
    requires stack != [] && Read(tokens, stack).Some?
    ensures Read(tokens, stack).value != []
    ensures OpenAfter(tokens, OpenIn(stack)) == Some(OpenIn(Read(tokens, stack).value))
    decreases |tokens|
  {
    if tokens != [] {
      var after := ReadToken(tokens[0], stack).value;
      ReadBalances(tokens[1..], after);
      OpenOne(tokens[0], stack);
      hide ReadToken, NameOf;
      assert tokens == [tokens[0]] + tokens[1..];
      OpenConcat([tokens[0]], tokens[1..], OpenIn(stack));
    }
  }

  function OpenIn(stack: seq<Frame>): seq<string>
    requires stack != []
  {
    seq(|stack| - 1, i requires 0 <= i < |stack| - 1 => NameOf(stack[i + 1].tag))
  }

  lemma OpenOne(token: Token, stack: seq<Frame>)
    requires stack != [] && ReadToken(token, stack).Some?
    ensures ReadToken(token, stack).value != []
    ensures OpenAfter([token], OpenIn(stack)) == Some(OpenIn(ReadToken(token, stack).value))
  {
    hide NameOf, ElementLayout, Unescape;
    var open, after := OpenIn(stack), ReadToken(token, stack).value;
    assert [token][1..] == [];
    if token.Text? {
      assert OpenIn(after) == open;
    } else if "/" <= token.content {
      assert OpenIn(after) == open[..|open| - 1];
    } else if token.content != [] && token.content[|token.content| - 1] == '/' {
      assert OpenIn(after) == open;
    } else {
      assert OpenIn(after) == open + [NameOf(token.content)];
    }
  }

  lemma {:induction false} OpenConcat(a: seq<Token>, b: seq<Token>, open: seq<string>)
    ensures OpenAfter(a + b, open)
      == match OpenAfter(a, open) case None => None case Some(after) => OpenAfter(b, after)
    decreases |a|
  {
    if a == [] {
      assert a + b == b;
    } else {
      hide NameOf;
      assert (a + b)[1..] == a[1..] + b;
      match a[0] {
        case Text(_) => OpenConcat(a[1..], b, open);
        case Tag(tag) =>
          if "/" <= tag {
            if open != [] { OpenConcat(a[1..], b, open[..|open| - 1]); }
          } else {
            OpenConcat(a[1..], b, open);
            OpenConcat(a[1..], b, open + [NameOf(tag)]);
          }
      }
    }
  }

  lemma {:induction false} PrintConcat(a: seq<Token>, b: seq<Token>)
    ensures Print(a + b) == Print(a) + Print(b) && TextsOf(a + b) == TextsOf(a) + TextsOf(b)
    decreases |a|
  {
    hide PrintToken;
    if a == [] {
      assert a + b == b;
    } else {
      assert (a + b)[1..] == a[1..] + b;
      PrintConcat(a[1..], b);
    }
  }

  lemma {:induction false} EscapeAllConcat(a: seq<string>, b: seq<string>)
    ensures EscapeAll(a + b) == EscapeAll(a) + EscapeAll(b)
  {
    hide Escape;
    if a == [] {
      assert a + b == b;
    } else {
      assert (a + b)[1..] == a[1..] + b;
      EscapeAllConcat(a[1..], b);
    }
  }

  lemma CleanConcat(a: seq<Token>, b: seq<Token>)
    requires IsClean(a) && IsClean(b) && (a == [] || b == [] || a[|a| - 1].Tag? || b[0].Tag?)
    ensures IsClean(a + b)
  {
    hide HasNoAngles;
    forall i | 0 <= i < |a + b| - 1 && (a + b)[i].Text? ensures (a + b)[i + 1].Tag? {
      if i + 1 == |a| { assert (a + b)[i] == a[|a| - 1]; }
    }
  }

  lemma ShowsConcat(a: seq<Token>, x: string, l: seq<string>, p: seq<Layout>,
                    b: seq<Token>, y: string, m: seq<string>, q: seq<Layout>)
    requires Shows(a, x, l, p) && Shows(b, y, m, q)
    ensures Shows(a + b, x + y, l + m, p + q)
  {
    hide ReadsAs, Print, TextsOf, EscapeAll, IsClean;
    CleanConcat(a, b);
    PrintConcat(a, b);
    EscapeAllConcat(l, m);
    ReadsConcat(a, p, b, q);
  }

  predicate IsName(name: string) {
    name != [] && name[0] != '/' && name[|name| - 1] != '/' && forall i :: 0 <= i < |name| ==> name[i] !in "<> "
  }

  predicate AreAttributes(attributes: string) {
    attributes != [] ==> attributes[0] == ' ' && attributes[|attributes| - 1] != '/' && HasNoAngles(attributes)
  }

  lemma {:induction false} NameOfTag(name: string, attributes: string)
    requires (forall i :: 0 <= i < |name| ==> name[i] != ' ') && (attributes == [] || attributes[0] == ' ')
    ensures NameOf(name + attributes) == name
  {
    if name == [] {
      assert name + attributes == attributes;
    } else {
      assert (name + attributes)[1..] == name[1..] + attributes;
      NameOfTag(name[1..], attributes);
    }
  }

  lemma ElementReads(name: string, attributes: string, inside: seq<Token>, parts: seq<Layout>, stack: seq<Frame>)
    requires IsName(name) && AreAttributes(attributes) && ReadsAs(inside, parts) && stack != []
    requires ElementLayout(name + attributes, parts).Some?
    ensures Read([Tag(name + attributes)] + inside + [Tag("/" + name)], stack)
         == Some(Put(stack, [ElementLayout(name + attributes, parts).value]))
  {
    var tag := name + attributes;
    var start, end := Tag(tag), Tag("/" + name);
    NameOfTag(name, attributes);
    hide NameOf, ElementLayout, HasNoAngles;
    assert tag[0] == name[0] && tag[|tag| - 1] != '/';
    assert !("/" <= tag);
    var entered := stack + [Frame(tag, [])];
    assert ReadToken(start, stack) == Some(entered);
    var filled := Put(entered, parts);
    assert [] + parts == parts;
    assert filled[|stack|] == Frame(tag, parts) && filled[..|stack|] == stack;
    assert ("/" + name)[1..] == name;
    assert ReadToken(end, filled) == Some(Put(stack, [ElementLayout(tag, parts).value]));
    hide ReadToken, Put;
    ReadConcat([start] + inside, [end], stack);
    ReadConcat([start], inside, stack);
    assert [start][1..] == [] && [end][1..] == [];
    assert Read([start], stack) == Some(entered);
  }

  lemma ShowsElement(name: string, attributes: string, inside: seq<Token>, html: string, texts: seq<string>,
                     parts: seq<Layout>)
    returns (tokens: seq<Token>)
    requires IsName(name) && AreAttributes(attributes) && IsContentOf(inside, html, texts, parts)
    requires ElementLayout(name + attributes, parts).Some?
    ensures Shows(tokens, Element(name, attributes, html), texts, [ElementLayout(name + attributes, parts).value])
  {
    var start, end := Tag(name + attributes), Tag("/" + name);
    tokens := [start] + inside + [end];
    hide ElementLayout;
    forall stack: seq<Frame> | stack != []
      ensures Read(tokens, stack) == Some(Put(stack, [ElementLayout(name + attributes, parts).value]))
    {
      ElementReads(name, attributes, inside, parts, stack);
    }
    assert ReadsAs(tokens, [ElementLayout(name + attributes, parts).value]);
    assert IsClean([start]) && IsClean([end]);
    hide Read, ReadsAs, IsClean, NameOf;
    CleanConcat([start], inside);
    CleanConcat([start] + inside, [end]);
    PrintConcat([start], inside);
    PrintConcat([start] + inside, [end]);
    assert [start][1..] == [] && [end][1..] == [];
    assert Print([start]) == "<" + (name + attributes) + ">" && Print([end]) == "<" + ("/" + name) + ">";
    assert TextsOf([start]) == [] && TextsOf([end]) == [];
  }

  function CharsPart(text: string): seq<Layout> {
    if text == [] then [] else [Chars(text)]
  }

  lemma TextIsContent(text: string) returns (inside: seq<Token>)
    ensures IsContentOf(inside, Escape(text), Shown(text), CharsPart(text))
  {
    EscapeHasNoAngles(text);
    inside := if text == [] then [] else [Text(Escape(text))];
    if text == [] {
      ShowsNothing();
    } else {
      OneText(Escape(text), text);
    }
  }

  lemma OneText(escaped: string, text: string)
    requires escaped == Escape(text) && escaped != [] && HasNoAngles(escaped)
    ensures IsContentOf([Text(escaped)], escaped, [text], [Chars(text)])
  {
    hide Escape, HasNoAngles, Unescape;
    var inside := [Text(escaped)];
    assert inside[1..] == [] && [text][1..] == [];
    assert Print(inside) == escaped + Print([]) && escaped + [] == escaped;
    assert TextsOf(inside) == [escaped] + TextsOf([]);
    assert EscapeAll([text]) == [Escape(text)] + EscapeAll([]);
    assert IsClean(inside);
    UnescapeEscape(text);
    forall stack: seq<Frame> | stack != [] ensures Read(inside, stack) == Some(Put(stack, [Chars(text)])) {
      assert Read(inside[1..], Put(stack, [Chars(text)])) == Some(Put(stack, [Chars(text)]));
    }
  }

  lemma ShowsNothing()
    ensures Shows([], [], [], [])
  {
    forall stack: seq<Frame> | stack != [] ensures Put(stack, []) == stack {
      assert stack[|stack| - 1].parts + [] == stack[|stack| - 1].parts;
    }
  }

  lemma ElementShows(name: string, tokens: seq<Token>, html: string, texts: seq<string>, parts: seq<Layout>)
    returns (r: seq<Token>)
    requires IsName(name) && Shows(tokens, html, texts, parts) && ElementLayout(name, parts).Some?
    ensures Shows(r, Element(name, "", html), texts, [ElementLayout(name, parts).value])
  {
    hide IsContentOf, Element, ElementLayout, IsName;
    assert name + "" == name;
    r := ShowsElement(name, "", tokens, html, texts, parts);
  }

  lemma LeafShows(name: string, attributes: string, text: string) returns (r: seq<Token>)
    requires IsName(name) && AreAttributes(attributes) && ElementLayout(name + attributes, CharsPart(text)).Some?
    ensures Shows(r, Element(name, attributes, Escape(text)), Shown(text),
                  [ElementLayout(name + attributes, CharsPart(text)).value])
  {
    hide Shows, IsContentOf, Element, Escape, Shown, ElementLayout, CharsPart;
    var inside := TextIsContent(text);
    r := ShowsElement(name, attributes, inside, Escape(text), Shown(text), CharsPart(text));
  }

  lemma FenceShows(text: string) returns (r: seq<Token>)
    ensures Shows(r, Fence(text), Shown(text), StretchedOf(text))
  {
    hide Shows, Element, Escape;
    if text == [] {
      r := [];
      ShowsNothing();
    } else {
      assert "mo" + " fence=\"true\"" == "mo fence=\"true\"";
      assert ElementLayout("mo" + " fence=\"true\"", CharsPart(text)) == Some(Stretched(text));
      r := LeafShows("mo", " fence=\"true\"", text);
    }
  }

  lemma SpaceShows() returns (r: seq<Token>)
    ensures Shows(r, "<mspace width=\"0.25em\" />", [], [Gap])
  {
    var tag := "mspace width=\"0.25em\" /";
    r := [Tag(tag)];
    assert r[1..] == [] && tag[0] == 'm' && tag[|tag| - 1] == '/' && !("/" <= tag);
    assert Print(r) == "<" + tag + ">" + Print([]);
    assert HasNoAngles(tag);
    assert EscapeAll([]) == [] && TextsOf([]) == [];
    forall stack: seq<Frame> | stack != [] ensures Read(r, stack) == Some(Put(stack, [Gap])) {
      assert ReadToken(r[0], stack) == Some(Put(stack, [Gap]));
      hide ReadToken, Put;
      assert Read(r[1..], Put(stack, [Gap])) == Some(Put(stack, [Gap]));
    }
  }

  /** What the renderer writes reads back as the layout of the tree, with its texts escaped between tags. */
  lemma {:induction false} RenderShows(node: MathNode) returns (tokens: seq<Token>)
    ensures Shows(tokens, Render(node), Leaves(node), [LayoutOf(node)])
    decreases node, 1
  {
    hide Shows, Element, Escape, Shown, Fence, StandsAlone, RenderGrouped, StretchedOf;
    match node {
      case Fraction(numerator, denominator) => tokens := PairShows(node, "mfrac", numerator, denominator);
      case Fenced(open, body, close) =>
        var inside := FencedShows(node);
        tokens := ElementShows("mrow", inside, Fence(open) + Render(body) + Fence(close),
          Shown(open) + Leaves(body) + Shown(close), StretchedOf(open) + [LayoutOf(body)] + StretchedOf(close));
      case Identifier(text) => tokens := NamedLeafShows("mi", text);
      case Number(text) => tokens := NamedLeafShows("mn", text);
      case Operator(text) => tokens := NamedLeafShows("mo", text);
      case Matrix(rows) =>
        var inside := RowsShow(rows);
        tokens := ElementShows("mtable", inside, RenderRows(rows), LeavesOfRows(rows), LayoutsOfRows(rows));
      case Row(nodes) =>
        var inside := AllShow(nodes);
        tokens := ElementShows("mrow", inside, RenderAll(nodes), LeavesOfAll(nodes), LayoutsOf(nodes));
      case Space => tokens := SpaceShows();
      case Sqrt(Some(degree), radicand) => tokens := PairShows(node, "mroot", radicand, degree);
      case Sqrt(None, radicand) =>
        var inside := RenderShows(radicand);
        tokens := ElementShows("msqrt", inside, Render(radicand), Leaves(radicand), [LayoutOf(radicand)]);
      case SupSub(base, Some(sub), Some(sup)) => tokens := ScriptsShow(node);
      case SupSub(base, Some(sub), None) => tokens := PairShows(node, "msub", base, sub);
      case SupSub(base, None, Some(sup)) => tokens := PairShows(node, "msup", base, sup);
      case SupSub(base, None, None) => tokens := RenderShows(base);
    }
  }

  lemma NamedLeafShows(name: string, text: string) returns (r: seq<Token>)
    requires name in ["mi", "mn", "mo"]
    ensures Shows(r, Element(name, "", Escape(text)), Shown(text),
                  [match name case "mi" => Ident(text) case "mn" => Num(text) case _ => Op(text)])
  {
    hide Shows, Element, Escape, Shown;
    assert name + "" == name;
    r := LeafShows(name, "", text);
  }

  lemma {:induction false} FencedShows(node: MathNode) returns (tokens: seq<Token>)
    requires node.Fenced?
    ensures var (open, body, close) := (node.open, node.body, node.close);
      Shows(tokens, Fence(open) + Render(body) + Fence(close), Shown(open) + Leaves(body) + Shown(close),
            StretchedOf(open) + [LayoutOf(body)] + StretchedOf(close))
    decreases node, 0
  {
    hide *;
    var (open, body, close) := (node.open, node.body, node.close);
    var a := FenceShows(open);
    var c := FenceShows(close);
    var b := RenderShows(body);
    ShowsConcat(a, Fence(open), Shown(open), StretchedOf(open), b, Render(body), Leaves(body), [LayoutOf(body)]);
    ShowsConcat(a + b, Fence(open) + Render(body), Shown(open) + Leaves(body), StretchedOf(open) + [LayoutOf(body)],
      c, Fence(close), Shown(close), StretchedOf(close));
    tokens := a + b + c;
  }

  lemma {:induction false} PairShows(node: MathNode, name: string, first: MathNode, second: MathNode)
    returns (tokens: seq<Token>)
    requires IsName(name) && first < node && second < node
    requires ElementLayout(name, [LayoutOf(first), LayoutOf(second)]).Some?
    ensures Shows(tokens, Element(name, "", RenderGrouped(first) + RenderGrouped(second)),
                  Leaves(first) + Leaves(second), [ElementLayout(name, [LayoutOf(first), LayoutOf(second)]).value])
    decreases node, 0
  {
    hide *;
    var a := GroupedShows(first);
    var b := GroupedShows(second);
    ShowsConcat(a, RenderGrouped(first), Leaves(first), [LayoutOf(first)], b, RenderGrouped(second), Leaves(second),
      [LayoutOf(second)]);
    assert [LayoutOf(first)] + [LayoutOf(second)] == [LayoutOf(first), LayoutOf(second)];
    tokens := ElementShows(name, a + b, RenderGrouped(first) + RenderGrouped(second), Leaves(first) + Leaves(second),
      [LayoutOf(first), LayoutOf(second)]);
  }

  lemma {:induction false} ScriptsShow(node: MathNode) returns (tokens: seq<Token>)
    requires node.SupSub? && node.subscript.Some? && node.superscript.Some?
    ensures var (base, sub, sup) := (node.base, node.subscript.value, node.superscript.value);
      Shows(tokens, Element("msubsup", "", RenderGrouped(base) + RenderGrouped(sub) + RenderGrouped(sup)),
            Leaves(base) + Leaves(sub) + Leaves(sup), [BelowAbove(LayoutOf(base), LayoutOf(sub), LayoutOf(sup))])
    decreases node, 0
  {
    hide Shows, Element, RenderGrouped, Leaves, LayoutOf;
    var (base, sub, sup) := (node.base, node.subscript.value, node.superscript.value);
    var a := GroupedShows(base);
    var b := GroupedShows(sub);
    var c := GroupedShows(sup);
    var x, y, z := LayoutOf(base), LayoutOf(sub), LayoutOf(sup);
    ShowsConcat(a, RenderGrouped(base), Leaves(base), [x], b, RenderGrouped(sub), Leaves(sub), [y]);
    ShowsConcat(a + b, RenderGrouped(base) + RenderGrouped(sub), Leaves(base) + Leaves(sub), [x] + [y],
      c, RenderGrouped(sup), Leaves(sup), [z]);
    assert [x] + [y] + [z] == [x, y, z];
    tokens := ElementShows("msubsup", a + b + c, RenderGrouped(base) + RenderGrouped(sub) + RenderGrouped(sup),
      Leaves(base) + Leaves(sub) + Leaves(sup), [x, y, z]);
  }

  lemma {:induction false} GroupedShows(node: MathNode) returns (tokens: seq<Token>)
    ensures Shows(tokens, RenderGrouped(node), Leaves(node), [LayoutOf(node)])
    decreases node, 2
  {
    hide Shows, Element, Render, Leaves, LayoutOf;
    tokens := RenderShows(node);
    if !StandsAlone(node) { tokens := ElementShows("mrow", tokens, Render(node), Leaves(node), [LayoutOf(node)]); }
  }

  lemma {:induction false} AllShow(nodes: seq<MathNode>) returns (tokens: seq<Token>)
    ensures Shows(tokens, RenderAll(nodes), LeavesOfAll(nodes), LayoutsOf(nodes))
    decreases nodes
  {
    hide Shows, Render, Leaves, LayoutOf;
    if nodes == [] {
      tokens := [];
      ShowsNothing();
    } else {
      var a := RenderShows(nodes[0]);
      var b := AllShow(nodes[1..]);
      ShowsConcat(a, Render(nodes[0]), Leaves(nodes[0]), [LayoutOf(nodes[0])], b, RenderAll(nodes[1..]),
        LeavesOfAll(nodes[1..]), LayoutsOf(nodes[1..]));
      tokens := a + b;
    }
  }

  lemma {:induction false} CellsShow(cells: seq<MathNode>) returns (tokens: seq<Token>)
    ensures Shows(tokens, RenderCells(cells), LeavesOfAll(cells), CellsOf(cells))
    decreases cells
  {
    hide Shows, RenderGrouped, Leaves, Element, LayoutOf;
    if cells == [] {
      tokens := [];
      ShowsNothing();
    } else {
      var layout := LayoutOf(cells[0]);
      var inside := GroupedShows(cells[0]);
      var a := ElementShows("mtd", inside, RenderGrouped(cells[0]), Leaves(cells[0]), [layout]);
      var b := CellsShow(cells[1..]);
      ShowsConcat(a, Element("mtd", "", RenderGrouped(cells[0])), Leaves(cells[0]), [Cell(layout)],
        b, RenderCells(cells[1..]), LeavesOfAll(cells[1..]), CellsOf(cells[1..]));
      tokens := a + b;
    }
  }

  lemma {:induction false} RowsShow(rows: seq<MatrixRow>) returns (tokens: seq<Token>)
    ensures Shows(tokens, RenderRows(rows), LeavesOfRows(rows), LayoutsOfRows(rows))
    decreases rows
  {
    hide Shows, RenderCells, LeavesOfAll, Element, CellsOf;
    if rows == [] {
      tokens := [];
      ShowsNothing();
    } else {
      var cells := rows[0].cells;
      var inside := CellsShow(cells);
      var a := ElementShows("mtr", inside, RenderCells(cells), LeavesOfAll(cells), CellsOf(cells));
      var b := RowsShow(rows[1..]);
      ShowsConcat(a, Element("mtr", "", RenderCells(cells)), LeavesOfAll(cells), [Line(CellsOf(cells))],
        b, RenderRows(rows[1..]), LeavesOfRows(rows[1..]), LayoutsOfRows(rows[1..]));
      tokens := a + b;
    }
  }

  /** Whatever the tree, what the elements of its rendering mean in MathML is the layout of the tree. */
  lemma RenderingReadsBack(node: MathNode)
    ensures Lex(Render(node)).Some?
    ensures Read(Lex(Render(node)).value, [Frame("", [])]) == Some([Frame("", [LayoutOf(node)])])
  {
    hide Render, Lex, TextsOf, EscapeAll, Print, IsClean, LayoutOf, Leaves, Read;
    var tokens := RenderShows(node);
    LexPrint(tokens);
    var stack := [Frame("", [])];
    assert stack[0].parts + [LayoutOf(node)] == [LayoutOf(node)];
    assert Put(stack, [LayoutOf(node)]) == [Frame("", [LayoutOf(node)])];
  }

  /** Whatever the tree, reading its rendering gives balanced tags and, between them, exactly its texts
      escaped. */
  lemma RenderingIsBalancedAndEscaped(node: MathNode)
    ensures Lex(Render(node)).Some?
    ensures OpenAfter(Lex(Render(node)).value, []) == Some([])
    ensures TextsOf(Lex(Render(node)).value) == EscapeAll(Leaves(node))
  {
    hide Render, Leaves, Lex, OpenAfter, TextsOf, EscapeAll, Print, IsClean, Read, LayoutOf;
    var tokens := RenderShows(node);
    LexPrint(tokens);
    var stack := [Frame("", [])];
    assert Read(tokens, stack) == Some(Put(stack, [LayoutOf(node)]));
    assert OpenIn(stack) == [] && OpenIn(Put(stack, [LayoutOf(node)])) == [];
    ReadBalances(tokens, stack);
  }

  /** Parsing and rendering. */
  method RenderMathSource(source: string, lexicon: Lexicon) returns (r: Result<string, string>)
    ensures var parsed := DocumentAt(lexicon, source);
      r == if parsed.Ok? then Ok(Render(parsed.value)) else Err(parsed.error)
    ensures r.Ok? ==>
      && Lex(r.value).Some?
      && Read(Lex(r.value).value, [Frame("", [])]) == Some([Frame("", [LayoutOf(DocumentAt(lexicon, source).value)])])
  {
    hide DocumentAt, Render, Lex, Read, LayoutOf;
    var parser := new MathParser(source, lexicon);
    var parsed := parser.ParseDocument();
    if parsed.Err? {
      return Err(parsed.error);
    }
    RenderingReadsBack(parsed.value);
    return Ok(Render(parsed.value));
  }
}
