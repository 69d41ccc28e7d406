/** References to ids inside attribute values: label lists and `url(...)`. Reading a value into its
    references is the inverse of writing them; moving the references to new ids is proved against that. */
module SvgReferences {
  import opened Wrappers
  import opened Whitespace
  import opened SvgEvents
  import opened SvgIds

  datatype SvgError = TooLarge | InvalidXml | Unsafe

  type IdMap = map<string, string>

  function TrimSpace(s: string): string {
    if s != [] && IsWhitespace(s[0]) then TrimSpace(s[1..])
    else if s != [] && IsWhitespace(s[|s| - 1]) then TrimSpace(s[..|s| - 1])
    else s
  }

  predicate IsQuote(c: char) {
    c == '\'' || c == '"'
  }

  function TrimQuotes(s: string): string {
    if s != [] && IsQuote(s[0]) then TrimQuotes(s[1..])
    else if s != [] && IsQuote(s[|s| - 1]) then TrimQuotes(s[..|s| - 1])
    else s
  }

  function Unquoted(raw: string): string {
    TrimQuotes(TrimSpace(raw))
  }

  predicate StartsUrl(s: string, i: nat) {
    i + 4 <= |s| && Lower(s[i..i + 4]) == "url("
  }

  /** The first `url(` from `i` on, in any case. */
  function FindUrl(s: string, i: nat): (at: Option<nat>)
    requires i <= |s|
    ensures at.Some? ==> i <= at.value && StartsUrl(s, at.value)
    decreases |s| - i
  {
    if i == |s| then None else if StartsUrl(s, i) then Some(i) else FindUrl(s, i + 1)
  }

  /** The first closing parenthesis from `i` on that is not in quotes. */
  function CloseOf(s: string, i: nat, quote: Option<char>): (close: Option<nat>)
    requires i <= |s|
    ensures close.Some? ==> i <= close.value < |s| && s[close.value] == ')'
    decreases |s| - i
  {
    if i == |s| then None
    else if quote.Some? then CloseOf(s, i + 1, if s[i] == quote.value then None else quote)
    else if IsQuote(s[i]) then CloseOf(s, i + 1, Some(s[i]))
    else if s[i] == ')' then Some(i)
    else CloseOf(s, i + 1, None)
  }

  predicate IsSafeNavigation(url: string) {
    var lowered := Lower(url);
    "http://" <= lowered || "https://" <= lowered || "mailto:" <= lowered
  }

  /** A picture that is part of the address. */
  predicate IsRasterData(url: string) {
    var lowered := Lower(url);
    || "data:image/png;base64," <= lowered || "data:image/jpeg;base64," <= lowered
    || "data:image/gif;base64," <= lowered || "data:image/webp;base64," <= lowered
  }

  /** Where the host and port of an address end. */
  function AuthorityLength(rest: string): (n: nat)
    ensures n <= |rest|
  {
    if rest == [] || rest[0] in ['/', '?', '#'] then 0 else 1 + AuthorityLength(rest[1..])
  }

  function WithoutPort(authority: string): string {
    var n := |authority|;
    if n >= 4 && authority[n - 4..] == ":443" then authority[..n - 4] else authority
  }

  function HttpsAuthority(url: string): Option<string> {
    if |url| < 8 || Lower(url[..8]) != "https://" then None
    else
      var authority := url[8..][..AuthorityLength(url[8..])];
      if authority == [] || '@' in authority || exists i :: 0 <= i < |authority| && IsWhitespace(authority[i]) then None
      else Some(WithoutPort(authority))
  }

  /** A raster picture in the address itself, or one on a listed host; the path is not looked at. */
  predicate IsAllowedResource(url: string, hosts: seq<string>) {
    || IsRasterData(url)
    || (HttpsAuthority(url).Some?
        && exists i :: 0 <= i < |hosts| && Lower(hosts[i]) == Lower(HttpsAuthority(url).value))
  }

  /** A fragment moves to its new id, an allowed address stays, and anything else is refused. */
  function Move(url: string, mapped: IdMap, hosts: seq<string>): Result<string, SvgError> {
    if "#" <= url then
      if url[1..] in mapped then Ok("#" + mapped[url[1..]]) else Err(Unsafe)
    else if IsAllowedResource(url, hosts) then Ok(url)
    else Err(Unsafe)
  }

  predicate StandsAt(s: string, i: nat, part: string) {
    i + |part| <= |s| && s[i..i + |part|] == part
  }

  predicate Contains(s: string, part: string) {
    exists i :: 0 <= i <= |s| && StandsAt(s, i, part)
  }

  predicate IsUnsafeCss(s: string) {
    var lowered := Lower(s);
    || Contains(lowered, "javascript:") || Contains(lowered, "vbscript:") || Contains(lowered, "expression(")
    || Contains(lowered, "@import") || Contains(lowered, "-moz-binding")
  }

  /** The value with its references moved, before the last look at the whole. */
  function MovedText(s: string, mapped: IdMap, hosts: seq<string>): Result<string, SvgError>
    decreases |s|
  {
    match FindUrl(s, 0)
    case None => Ok(s)
    case Some(at) =>
      match CloseOf(s, at + 4, None)
      case None => Err(Unsafe)
      case Some(close) =>
        match Move(Unquoted(s[at + 4..close]), mapped, hosts)
        case Err(e) => Err(e)
        case Ok(url) => Before(s[..at] + "url(" + url + ")", MovedText(s[close + 1..], mapped, hosts))
  }

  function Before(head: string, tail: Result<string, SvgError>): Result<string, SvgError> {
    match tail
    case Ok(text) => Ok(head + text)
    case Err(e) => Err(e)
  }

  function RewriteUrls(s: string, mapped: IdMap, hosts: seq<string>): Result<string, SvgError> {
    match MovedText(s, mapped, hosts)
    case Ok(text) => if IsUnsafeCss(text) then Err(Unsafe) else Ok(text)
    case Err(e) => Err(e)
  }

  method RewriteFragmentUrls(value: string, mapped: IdMap, hosts: seq<string>)
    returns (r: Result<string, SvgError>)
    ensures r == RewriteUrls(value, mapped, hosts)
  {
    hide FindUrl, CloseOf, Move, Unquoted, IsUnsafeCss, MovedText;
    var output, cursor := "", 0;
    assert value[0..] == value;
    BeforeBefore("", "", MovedText(value, mapped, hosts));
    while cursor < |value|
      invariant 0 <= cursor <= |value|
      invariant MovedText(value, mapped, hosts) == Before(output, MovedText(value[cursor..], mapped, hosts))
    {
      var rest := value[cursor..];
      MovedStep(output, rest, mapped, hosts);
      var start := FindUrl(rest, 0);
      if start.None? {
        output, cursor := output + rest, |value|;
        break;
      }
      var close := CloseOf(rest, start.value + 4, None);
      if close.None? {
        return Err(Unsafe);
      }
      var url := Move(Unquoted(rest[start.value + 4..close.value]), mapped, hosts);
      if url.Err? {
        return Err(url.error);
      }
      output := output + (rest[..start.value] + "url(" + url.value + ")");
      assert rest[close.value + 1..] == value[cursor + close.value + 1..];
      cursor := cursor + close.value + 1;
    }
    assert value[cursor..] == [];
    NothingToMove(mapped, hosts);
    assert output + [] == output;
    return if IsUnsafeCss(output) then Err(Unsafe) else Ok(output);
  }

  lemma MovedStep(output: string, rest: string, mapped: IdMap, hosts: seq<string>)
    ensures Before(output, MovedText(rest, mapped, hosts))
      == match FindUrl(rest, 0)
         case None => Before(output + rest, MovedText([], mapped, hosts))
         case Some(at) =>
           match CloseOf(rest, at + 4, None)
           case None => Err(Unsafe)
           case Some(close) =>
             match Move(Unquoted(rest[at + 4..close]), mapped, hosts)
             case Err(e) => Err(e)
             case Ok(url) =>
               Before(output + (rest[..at] + "url(" + url + ")"), MovedText(rest[close + 1..], mapped, hosts))
  {
    hide FindUrl, CloseOf, Move, Unquoted;
    NothingToMove(mapped, hosts);
    assert output + rest + [] == output + rest;
    var start := FindUrl(rest, 0);
    if start.Some? {
      var close := CloseOf(rest, start.value + 4, None);
      if close.Some? {
        var url := Move(Unquoted(rest[start.value + 4..close.value]), mapped, hosts);
        if url.Ok? {
          var head := rest[..start.value] + "url(" + url.value + ")";
          BeforeBefore(output, head, MovedText(rest[close.value + 1..], mapped, hosts));
        }
      }
    }
  }

  lemma BeforeBefore(a: string, b: string, tail: Result<string, SvgError>)
    ensures Before(a, Before(b, tail)) == Before(a + b, tail) && Before("", tail) == tail
  {
    if tail.Ok? { assert a + (b + tail.value) == a + b + tail.value && "" + tail.value == tail.value; }
  }

  lemma NothingToMove(mapped: IdMap, hosts: seq<string>)
    ensures MovedText([], mapped, hosts) == Ok([])
  {
  }

  /** A value as texts with references between them. */
  datatype References = Last(text: string) | Url(text: string, url: string, more: References)

  function Read(s: string): Option<References>
    decreases |s|
  {
    match FindUrl(s, 0)
    case None => Some(Last(s))
    case Some(at) =>
      match CloseOf(s, at + 4, None)
      case None => None
      case Some(close) =>
        match Read(s[close + 1..])
        case None => None
        case Some(more) => Some(Url(s[..at], Unquoted(s[at + 4..close]), more))
  }

  function Write(refs: References): string {
    match refs
    case Last(text) => text
    case Url(text, url, more) => text + "url(" + url + ")" + Write(more)
  }

  function MoveAll(refs: References, mapped: IdMap, hosts: seq<string>): Result<References, SvgError> {
    match refs
    case Last(_) => Ok(refs)
    case Url(text, url, more) =>
      match (Move(url, mapped, hosts), MoveAll(more, mapped, hosts))
      case (Ok(moved), Ok(rest)) => Ok(Url(text, moved, rest))
      case _ => Err(Unsafe)
  }

  /** The texts hold no reference. */
  predicate HasPlainTexts(refs: References) {
    FindUrl(refs.text, 0).None? && (refs.Url? ==> HasPlainTexts(refs.more))
  }

  /** A reference that reads back when it is written without quotes. */
  predicate IsBare(url: string) {
    CloseOf(url + ")", 0, None) == Some(|url|) && Unquoted(url) == url
  }

  predicate AllBare(refs: References) {
    refs.Url? ==> IsBare(refs.url) && AllBare(refs.more)
  }

  /** The references that are not into the SVG read back when written without quotes. */
  predicate KeptAreBare(refs: References) {
    refs.Url? ==> ("#" <= refs.url || IsBare(refs.url)) && KeptAreBare(refs.more)
  }

  function Urls(refs: References): seq<string> {
    if refs.Last? then [] else [refs.url] + Urls(refs.more)
  }

  /** The rewriting moves what is read, and writes it. */
  lemma {:induction false} MovedIsWritten(s: string, mapped: IdMap, hosts: seq<string>)
    requires MovedText(s, mapped, hosts).Ok?
    ensures Read(s).Some? && HasPlainTexts(Read(s).value)
    ensures MoveAll(Read(s).value, mapped, hosts).Ok?
    ensures MovedText(s, mapped, hosts).value == Write(MoveAll(Read(s).value, mapped, hosts).value)
    decreases |s|
  {
    hide CloseOf, Unquoted, StartsUrl;
    var at := FindUrl(s, 0);
    if at.Some? {
      NotBefore(s, 0);
      MovedIsWritten(s[CloseOf(s, at.value + 4, None).value + 1..], mapped, hosts);
    }
  }

  /** Before the first `url(` there is none. */
  lemma {:induction false} NotBefore(s: string, i: nat)
    requires i <= |s| && FindUrl(s, i).Some?
    ensures FindUrl(s[..FindUrl(s, i).value], i).None?
    decreases |s| - i
  {
    var at := FindUrl(s, i).value;
    if i < at {
      NotBefore(s, i + 1);
      if i + 4 <= at { assert s[..at][i..i + 4] == s[i..i + 4]; }
    }
  }

  /** A `url(` put behind a text without one is the first. */
  lemma {:induction false} FoundBehind(text: string, rest: string, i: nat)
    requires i <= |text| && FindUrl(text, i).None? && "url(" <= rest
    ensures FindUrl(text + rest, i) == Some(|text|)
    decreases |text| - i
  {
    var s := text + rest;
    if i == |text| {
      assert s[i..i + 4] == rest[..4] == "url(" && Lower("url(") == "url(";
    } else {
      if i + 4 <= |text| {
        assert s[i..i + 4] == text[i..i + 4];
      } else {
        NoOverlap(s, i, |text|);
      }
      FoundBehind(text, rest, i + 1);
    }
  }

  lemma NoOverlap(s: string, i: nat, j: nat)
    requires i < j < i + 4 <= |s| && s[j] == 'u'
    ensures !StartsUrl(s, i)
  {
    assert Lower(s[i..i + 4])[j - i] == 'u';
    assert "url("[1] == 'r' && "url("[2] == 'l' && "url("[3] == '(';
  }

  /** What stands before the scanned part does not matter for where it closes. */
  lemma {:induction false} CloseAfter(head: string, s: string, i: nat, quote: Option<char>)
    requires i <= |s|
    ensures CloseOf(head + s, |head| + i, quote)
      == match CloseOf(s, i, quote) case None => None case Some(close) => Some(|head| + close)
    decreases |s| - i
  {
    if i < |s| {
      assert (head + s)[|head| + i] == s[i];
      var next := if quote.Some? then (if s[i] == quote.value then None else quote)
        else if IsQuote(s[i]) then Some(s[i]) else None;
      CloseAfter(head, s, i + 1, next);
    }
  }

  /** What closes in a prefix closes there in the whole; what does not, closes later. */
  lemma {:induction false} CloseBefore(a: string, b: string, i: nat, quote: Option<char>)
    requires i <= |a|
    ensures CloseOf(a, i, quote).Some? ==> CloseOf(a + b, i, quote) == CloseOf(a, i, quote)
    ensures CloseOf(a, i, quote).None? && CloseOf(a + b, i, quote).Some? ==> CloseOf(a + b, i, quote).value >= |a|
    decreases |a| - i
  {
    if i < |a| {
      assert (a + b)[i] == a[i];
      var next := if quote.Some? then (if a[i] == quote.value then None else quote)
        else if IsQuote(a[i]) then Some(a[i]) else None;
      CloseBefore(a, b, i + 1, next);
    }
  }

  predicate IsTrimmable(c: char) {
    IsWhitespace(c) || IsQuote(c)
  }

  ghost predicate IsCutOut(s: string, t: string, a: nat) {
    && a + |t| <= |s| && t == s[a..a + |t|]
    && (forall i :: 0 <= i < a ==> IsTrimmable(s[i]))
    && (forall i :: a + |t| <= i < |s| ==> IsTrimmable(s[i]))
  }

  lemma {:induction false} TrimSpaceCuts(s: string) returns (a: nat)
    ensures IsCutOut(s, TrimSpace(s), a)
  {
    hide IsWhitespace, IsQuote;
    if s != [] && IsWhitespace(s[0]) {
      a := TrimSpaceCuts(s[1..]);
      assert forall i :: 0 < i < |s| ==> s[i] == s[1..][i - 1];
      a := a + 1;
    } else if s != [] && IsWhitespace(s[|s| - 1]) {
      a := TrimSpaceCuts(s[..|s| - 1]);
      assert forall i :: 0 <= i < |s| - 1 ==> s[i] == s[..|s| - 1][i];
    } else {
      a := 0;
    }
  }

  lemma {:induction false} TrimQuotesCuts(s: string) returns (a: nat)
    ensures IsCutOut(s, TrimQuotes(s), a)
  {
    hide IsWhitespace, IsQuote;
    if s != [] && IsQuote(s[0]) {
      a := TrimQuotesCuts(s[1..]);
      assert forall i :: 0 < i < |s| ==> s[i] == s[1..][i - 1];
      a := a + 1;
    } else if s != [] && IsQuote(s[|s| - 1]) {
      a := TrimQuotesCuts(s[..|s| - 1]);
      assert forall i :: 0 <= i < |s| - 1 ==> s[i] == s[..|s| - 1][i];
    } else {
      a := 0;
    }
  }

  /** Nothing is left to trim. */
  lemma {:induction false} TrimmingIsDone(s: string)
    ensures TrimSpace(s) != [] ==>
      !IsWhitespace(TrimSpace(s)[0]) && !IsWhitespace(TrimSpace(s)[|TrimSpace(s)| - 1])
    ensures TrimQuotes(s) != [] ==> !IsQuote(TrimQuotes(s)[0]) && !IsQuote(TrimQuotes(s)[|TrimQuotes(s)| - 1])
  {
    hide IsWhitespace, IsQuote;
    if s != [] {
      TrimmingIsDone(s[1..]);
      TrimmingIsDone(s[..|s| - 1]);
    }
  }

  /** The start of an address on this host: its scheme in any case, perhaps the port, and what follows. */
  predicate IsOnHost(url: string, host: string, port: string, rest: string) {
    && |url| >= 8 && Lower(url[..8]) == "https://" && url[8..] == host + port + rest
    && (port == ":443" || (port == "" && !EndsWithPort(host))) && host + port != ""
    && (rest != [] ==> IsAfterHost(rest[0]))
    && forall i :: 0 <= i < |host| ==> host[i] != '@' && !IsAfterHost(host[i]) && !IsWhitespace(host[i])
  }

  predicate IsAfterHost(c: char) {
    c == '/' || c == '?' || c == '#'
  }

  predicate EndsWithPort(host: string) {
    |host| >= 4 && host[|host| - 4..] == ":443"
  }

  lemma {:induction false} AuthorityIs(s: string)
    ensures var n := AuthorityLength(s);
      && (forall i :: 0 <= i < n ==> !IsAfterHost(s[i])) && (n < |s| ==> IsAfterHost(s[n]))
  {
    if s != [] { AuthorityIs(s[1..]); }
  }

  lemma {:induction false} AuthorityEnds(s: string, n: nat)
    requires n <= |s| && (forall i :: 0 <= i < n ==> !IsAfterHost(s[i])) && (n < |s| ==> IsAfterHost(s[n]))
    ensures AuthorityLength(s) == n
  {
    if n > 0 { AuthorityEnds(s[1..], n - 1); }
  }

  /** An address is allowed exactly when it is a picture of one of the four kinds, or on a listed host, be it with
      the default port or without one. */
  lemma AllowedExactlyWhen(url: string, hosts: seq<string>)
    ensures IsAllowedResource(url, hosts) <==>
      || (exists kind :: kind in {"png", "jpeg", "gif", "webp"} && "data:image/" + kind + ";base64," <= Lower(url))
      || (exists host, port, rest, k ::
            IsOnHost(url, host, port, rest) && 0 <= k < |hosts| && Lower(hosts[k]) == Lower(host))
  {
    PicturesAre(url);
    hide IsRasterData;
    if HttpsAuthority(url).Some? {
      HostIs(url);
    }
    forall host, port, rest | IsOnHost(url, host, port, rest) ensures HttpsAuthority(url) == Some(host) {
      HostIsRead(url, host, port, rest);
    }
  }

  lemma PicturesAre(url: string)
    ensures IsRasterData(url)
      <==> exists kind :: kind in {"png", "jpeg", "gif", "webp"} && "data:image/" + kind + ";base64," <= Lower(url)
  {
    assert "data:image/" + "png" + ";base64," == "data:image/png;base64,";
    assert "data:image/" + "jpeg" + ";base64," == "data:image/jpeg;base64,";
    assert "data:image/" + "gif" + ";base64," == "data:image/gif;base64,";
    assert "data:image/" + "webp" + ";base64," == "data:image/webp;base64,";
  }

  lemma HostIs(url: string)
    requires HttpsAuthority(url).Some?
    ensures exists port, rest :: IsOnHost(url, HttpsAuthority(url).value, port, rest)
  {
    hide Lower, IsWhitespace, AuthorityLength, IsAfterHost;
    var n := AuthorityLength(url[8..]);
    var authority, rest := url[8..][..n], url[8..][n..];
    AuthorityIs(url[8..]);
    var host := WithoutPort(authority);
    var port := if host == authority then "" else ":443";
    assert host + port == authority && authority + rest == url[8..];
    if host == authority { assert !EndsWithPort(host); }
    assert IsOnHost(url, host, port, rest);
  }

  lemma HostIsRead(url: string, host: string, port: string, rest: string)
    requires IsOnHost(url, host, port, rest)
    ensures HttpsAuthority(url) == Some(host)
  {
    hide Lower;
    var authority := host + port;
    assert authority[|host|..] == port && authority[..|host|] == host;
    forall i | 0 <= i < |authority|
      ensures authority[i] != '@' && !IsAfterHost(authority[i]) && !IsWhitespace(authority[i])
    {
      if i >= |host| { assert authority[i] == ":443"[i - |host|]; }
    }
    assert url[8..] == authority + rest;
    AuthorityEnds(url[8..], |authority|);
    assert url[8..][..|authority|] == authority;
    if port == ":443" { assert authority[|authority| - 4..] == ":443"; } else { assert authority == host; }
  }

  lemma UnquotedCuts(s: string) returns (a: nat)
    ensures IsCutOut(s, Unquoted(s), a)
  {
    hide IsWhitespace, IsQuote, TrimSpace, TrimQuotes;
    var b := TrimSpaceCuts(s);
    var c := TrimQuotesCuts(TrimSpace(s));
    a := b + c;
    var t := TrimSpace(s);
    forall i | 0 <= i < |t| ensures t[i] == s[b + i] {}
    forall i | b <= i < a ensures IsTrimmable(s[i]) { assert t[i - b] == s[i]; }
    forall i | a + |Unquoted(s)| <= i < b + |t| ensures IsTrimmable(s[i]) { assert t[i - b] == s[i]; }
  }

  /** A text that goes on behind `url` with a parenthesis is never trimmed back to `url`. */
  lemma NotTrimmedBack(url: string, more: string)
    ensures Unquoted(url + ")" + more) != url
  {
    var raw := url + ")" + more;
    var a := UnquotedCuts(raw);
    hide Unquoted, IsWhitespace;
    assert raw[|url|] == ')';
    if Unquoted(raw) == url {
      assert !IsTrimmable(')') by { ParenthesisStays(); }
      assert a <= |url| && a > 0;
      Repeats(url, raw, a, |url| - a);
    }
  }

  lemma ParenthesisStays()
    ensures !IsTrimmable(')')
  {
  }

  lemma {:induction false} Repeats(url: string, raw: string, a: nat, i: nat)
    requires 0 < a && a + |url| <= |raw| && url <= raw && url == raw[a..a + |url|] && i <= |url| - a
    requires forall k :: 0 <= k < a ==> IsTrimmable(raw[k])
    ensures IsTrimmable(raw[i])
    ensures i < |url| ==> raw[a + i] == url[i]
  {
    hide IsTrimmable;
    if a <= i {
      Repeats(url, raw, a, i - a);
      assert raw[i] == raw[a + (i - a)] == url[i - a] == raw[i - a];
    }
  }

  /** Where a written reference closes, and what is read there. */
  lemma CloseStep(url: string, rest: string) returns (close: Option<nat>)
    ensures close == CloseOf(url + ")" + rest, 0, None)
    ensures IsBare(url) ==> close == Some(|url|)
    ensures close.Some? ==> (IsBare(url) <==> Unquoted((url + ")" + rest)[..close.value]) == url)
    ensures (url + ")" + rest)[..|url|] == url && (url + ")" + rest)[|url| + 1..] == rest
  {
    hide CloseOf, Unquoted;
    var tail := url + ")" + rest;
    close := CloseOf(tail, 0, None);
    CloseBefore(url + ")", rest, 0, None);
    assert tail[..|url|] == url && tail[|url| + 1..] == rest;
    if close.Some? && close.value < |url| {
      var a := UnquotedCuts(tail[..close.value]);
    } else if close.Some? && close.value > |url| {
      assert tail[..close.value] == url + ")" + tail[|url| + 1..close.value];
      NotTrimmedBack(url, tail[|url| + 1..close.value]);
    }
  }

  lemma ReadAt(s: string, at: nat, close: nat)
    requires FindUrl(s, 0) == Some(at) && at + 4 <= |s| && CloseOf(s, at + 4, None) == Some(close)
    ensures at + 4 <= close < |s|
    ensures Read(s)
      == match Read(s[close + 1..])
         case None => None
         case Some(more) => Some(Url(s[..at], Unquoted(s[at + 4..close]), more))
  {
    hide FindUrl, CloseOf, Unquoted;
  }

  lemma ReadOpen(s: string, at: nat)
    requires FindUrl(s, 0) == Some(at) && at + 4 <= |s| && CloseOf(s, at + 4, None).None?
    ensures Read(s).None?
  {
    hide FindUrl, CloseOf, Unquoted;
  }

  /** Where the parts of a written reference stand. */
  lemma Layout(text: string, tail: string, k: nat)
    requires k < |tail|
    ensures var s := text + ("url(" + tail);
      s == text + "url(" + tail && s[..|text|] == text
      && s[|text| + 4..|text| + 4 + k] == tail[..k] && s[|text| + 4 + k + 1..] == tail[k + 1..]
  {
    var s := text + ("url(" + tail);
    assert s == text + "url(" + tail;
    assert s[|text| + 4..] == tail;
  }

  lemma ReadStep(text: string, url: string, rest: string)
    requires FindUrl(text, 0).None?
    ensures var r := Read(text + ("url(" + (url + ")" + rest)));
      if IsBare(url) then r == match Read(rest) case None => None case Some(more) => Some(Url(text, url, more))
      else r.Some? ==> r.value.Url? && r.value.url != url
  {
    hide *;
    var tail := url + ")" + rest;
    var s := text + ("url(" + tail);
    Layout(text, tail, |url|);
    FoundBehind(text, "url(" + tail, 0);
    CloseAfter(text + "url(", tail, 0, None);
    var close := CloseStep(url, rest);
    if close.Some? {
      assert close.value < |tail|;
      Layout(text, tail, close.value);
      ReadAt(s, |text|, |text| + 4 + close.value);
    } else {
      ReadOpen(s, |text|);
    }
  }

  lemma ReadText(text: string)
    requires FindUrl(text, 0).None?
    ensures Read(text) == Some(Last(text))
  {
  }

  /** What is written reads back exactly when every reference can stand without quotes. */
  lemma {:induction false} ReadWrite(refs: References)
    requires HasPlainTexts(refs)
    ensures Read(Write(refs)) == Some(refs) <==> AllBare(refs)
  {
    hide FindUrl, CloseOf, Unquoted, IsBare, Read;
    if refs.Last? {
      ReadText(refs.text);
    } else {
      ReadWrite(refs.more);
      ReadStep(refs.text, refs.url, Write(refs.more));
      var tail := refs.url + ")" + Write(refs.more);
      assert Write(refs) == refs.text + ("url(" + tail);
    }
  }

  predicate IsPlain(s: string) {
    forall i :: 0 <= i < |s| ==> !IsTrimmable(s[i]) && s[i] != ')'
  }

  lemma PlainIsBare(url: string)
    requires IsPlain(url)
    ensures IsBare(url)
  {
    hide IsWhitespace;
    PlainCloses(url, 0);
    if url != [] { assert !IsTrimmable(url[0]) && !IsTrimmable(url[|url| - 1]); }
  }

  lemma {:induction false} PlainCloses(url: string, i: nat)
    requires IsPlain(url) && i <= |url|
    ensures CloseOf(url + ")", i, None) == Some(|url|)
    decreases |url| - i
  {
    hide IsWhitespace;
    if i < |url| {
      assert !IsTrimmable(url[i]) && (url + ")")[i] == url[i];
      PlainCloses(url, i + 1);
    }
  }

  lemma IdCharsArePlain(id: string)
    requires IsIdText(id)
    ensures IsPlain("#" + id)
  {
    var url := "#" + id;
    forall i | 0 <= i < |url| ensures !IsTrimmable(url[i]) && url[i] != ')' {
      if 0 < i { assert IsIdChar(id[i - 1]); }
    }
  }

  /** All new ids can stand where ids may stand. */
  ghost predicate IsSane(mapped: IdMap) {
    forall v :: v in mapped ==> IsIdText(mapped[v])
  }

  lemma {:induction false} MoveAllFacts(refs: References, mapped: IdMap, hosts: seq<string>)
    requires MoveAll(refs, mapped, hosts).Ok? && IsSane(mapped)
    ensures var moved := MoveAll(refs, mapped, hosts).value;
      && (HasPlainTexts(refs) ==> HasPlainTexts(moved))
      && (AllBare(moved) <==> KeptAreBare(refs))
      && |Urls(moved)| == |Urls(refs)|
      && forall k :: 0 <= k < |Urls(refs)| ==> Move(Urls(refs)[k], mapped, hosts) == Ok(Urls(moved)[k])
  {
    hide FindUrl, IsBare, IsIdText;
    if refs.Url? {
      MoveAllFacts(refs.more, mapped, hosts);
      if "#" <= refs.url {
        var id := mapped[refs.url[1..]];
        IdCharsArePlain(id);
        PlainIsBare("#" + id);
      }
    }
  }

  /** In an accepted value, every reference is moved and every text between them stays; and this is what
      reads back exactly when the references that are not into the SVG need no quotes, since the
      rewriting drops them. */
  lemma UrlsAreMoved(s: string, mapped: IdMap, hosts: seq<string>)
    requires RewriteUrls(s, mapped, hosts).Ok? && IsSane(mapped)
    ensures Read(s).Some? && MoveAll(Read(s).value, mapped, hosts).Ok?
    ensures var refs, moved := Read(s).value, MoveAll(Read(s).value, mapped, hosts).value;
      && |Urls(moved)| == |Urls(refs)|
      && (forall k :: 0 <= k < |Urls(refs)| ==> Move(Urls(refs)[k], mapped, hosts) == Ok(Urls(moved)[k]))
      && (Read(RewriteUrls(s, mapped, hosts).value) == Some(moved) <==> KeptAreBare(refs))
  {
    hide MovedText, Read, MoveAll, IsUnsafeCss, IsSane, Write, HasPlainTexts, AllBare, KeptAreBare, Move, Urls;
    MovedIsWritten(s, mapped, hosts);
    MoveAllFacts(Read(s).value, mapped, hosts);
    ReadWrite(MoveAll(Read(s).value, mapped, hosts).value);
  }

  /** A reference that may stay in the SVG. */
  predicate MayRefer(url: string, mapped: IdMap, hosts: seq<string>) {
    if "#" <= url then url[1..] in mapped else IsAllowedResource(url, hosts)
  }

  predicate MayReferAll(refs: References, mapped: IdMap, hosts: seq<string>) {
    refs.Url? ==> MayRefer(refs.url, mapped, hosts) && MayReferAll(refs.more, mapped, hosts)
  }

  /** A value is accepted exactly when every `url(` in it is closed, every reference is to an id of the SVG or
      to an allowed address, and what is written holds no forbidden word. */
  lemma AcceptedValueIff(s: string, mapped: IdMap, hosts: seq<string>)
    ensures RewriteUrls(s, mapped, hosts).Ok? <==>
      && Read(s).Some? && MayReferAll(Read(s).value, mapped, hosts)
      && MoveAll(Read(s).value, mapped, hosts).Ok?
      && forall word :: word in {"javascript:", "vbscript:", "expression(", "@import", "-moz-binding"} ==>
           !Contains(Lower(Write(MoveAll(Read(s).value, mapped, hosts).value)), word)
    ensures RewriteUrls(s, mapped, hosts).Err? ==> RewriteUrls(s, mapped, hosts).error == Unsafe
  {
    hide Contains, MovedText, MoveAll, Read, Write, MayReferAll;
    MovedExactlyWhen(s, mapped, hosts);
    if MovedText(s, mapped, hosts).Ok? { MovedIsWritten(s, mapped, hosts); }
  }

  lemma {:induction false} MovedExactlyWhen(s: string, mapped: IdMap, hosts: seq<string>)
    ensures MovedText(s, mapped, hosts).Ok? <==> Read(s).Some? && MayReferAll(Read(s).value, mapped, hosts)
    ensures MovedText(s, mapped, hosts).Err? ==> MovedText(s, mapped, hosts).error == Unsafe
    decreases |s|
  {
    hide IsAllowedResource, Unquoted, FindUrl, CloseOf;
    var at := FindUrl(s, 0);
    if at.Some? {
      var close := CloseOf(s, at.value + 4, None);
      if close.Some? {
        var url, rest := Unquoted(s[at.value + 4..close.value]), s[close.value + 1..];
        MovedExactlyWhen(rest, mapped, hosts);
        assert Move(url, mapped, hosts).Ok? <==> MayRefer(url, mapped, hosts);
        hide Move, MayRefer;
        assert Read(s) == match Read(rest) case None => None case Some(more) => Some(Url(s[..at.value], url, more));
      }
    }
  }

  predicate HasNoQuotes(s: string) {
    forall i :: 0 <= i < |s| ==> !IsQuote(s[i])
  }

  /** An allowed address with a parenthesis is one reference in quotes. Without them it is not, so what is
      written for it reads as something else. */
  lemma QuotesAreMissed(url: string, mapped: IdMap, hosts: seq<string>)
    requires IsAllowedResource(url, hosts) && HasNoQuotes(url) && ')' in url
    requires !IsUnsafeCss("url(" + url + ")")
    ensures Read("url('" + url + "')") == Some(Url("", url, Last("")))
    ensures RewriteUrls("url('" + url + "')", mapped, hosts) == Ok("url(" + url + ")")
    ensures Read("url(" + url + ")") != Some(Url("", url, Last("")))
  {
    AllowedIsNoFragment(url, hosts);
    QuotedIsOne(url);
    ParenthesisIsNotBare(url);
    NothingToMove(mapped, hosts);
    NothingIsPlain();
    ReadWrite(Url("", url, Last("")));
    hide Read, CloseOf, FindUrl, Unquoted, Lower, IsUnsafeCss, IsAllowedResource, IsBare;
    var s := "url('" + url + "')";
    assert "" + "url(" + url + ")" + "" == "url(" + url + ")";
  }

  lemma NothingIsPlain()
    ensures FindUrl("", 0).None?
  {
  }

  lemma AllowedIsNoFragment(url: string, hosts: seq<string>)
    requires IsAllowedResource(url, hosts)
    ensures url != [] && url[0] != '#'
  {
    if IsRasterData(url) {
      assert Lower(url)[0] == 'd';
    } else {
      assert Lower(url[..8])[0] == 'h';
    }
  }

  lemma ParenthesisIsNotBare(url: string)
    requires HasNoQuotes(url) && ')' in url
    ensures !IsBare(url)
  {
    var k :| 0 <= k < |url| && url[k] == ')';
    ClosesBy(url + ")", 0, k);
  }

  lemma {:induction false} ClosesBy(s: string, i: nat, k: nat)
    requires i <= k < |s| && s[k] == ')' && forall j :: i <= j < k ==> !IsQuote(s[j])
    ensures CloseOf(s, i, None).Some? && CloseOf(s, i, None).value <= k
    decreases k - i
  {
    if i < k { ClosesBy(s, i + 1, k); }
  }

  lemma QuotedIsOne(url: string)
    requires HasNoQuotes(url) && url != []
    ensures var s := "url('" + url + "')";
      && Read(s) == Some(Url("", url, Last("")))
      && FindUrl(s, 0) == Some(0) && CloseOf(s, 4, None) == Some(|url| + 6)
      && s[..0] == "" == s[|url| + 7..] && Unquoted(s[4..|url| + 6]) == url
  {
    var s, quote := "url('" + url + "')", Some('\'');
    assert s[0..4] == "url(" && Lower("url(") == "url(";
    assert FindUrl(s, 0) == Some(0);
    QuotedCloses(s, url, 0);
    assert s[4..|url| + 6] == "'" + url + "'" && s[|url| + 7..] == "" && s[..0] == "";
    UnquotedIs(url);
    NothingIsPlain();
    ReadAt(s, 0, |url| + 6);
    assert Read("") == Some(Last(""));
  }

  lemma {:induction false} QuotedCloses(s: string, url: string, k: nat)
    requires s == "url('" + url + "')" && HasNoQuotes(url) && k <= |url|
    ensures CloseOf(s, 5 + k, Some('\'')) == Some(|url| + 6)
    ensures k == 0 ==> CloseOf(s, 4, None) == Some(|url| + 6)
    decreases |url| - k
  {
    if k == |url| {
      assert s[5 + k] == '\'' && s[6 + k] == ')';
    } else {
      assert s[5 + k] == url[k];
      QuotedCloses(s, url, k + 1);
    }
  }

  lemma UnquotedIs(url: string)
    requires HasNoQuotes(url) && url != []
    ensures Unquoted("'" + url + "'") == url
  {
    var s := "'" + url + "'";
    assert !IsWhitespace('\'');
    assert TrimSpace(s) == s;
    assert s[1..] == url + "'" && (url + "'")[..|url|] == url;
    assert !IsQuote(url[0]) && !IsQuote(url[|url| - 1]);
    assert TrimQuotes(url) == url && TrimQuotes(url + "'") == url;
  }

  const HostUrl := "https://h/d)e"

  const DataUrl := "data:image/png;base64,a)b"

  /** Such addresses exist: on a listed host, and for a picture in the address under any list. */
  lemma AllowedWithParenthesis(mapped: IdMap, hosts: seq<string>)
    ensures IsAllowedResource(HostUrl, ["h"]) && IsAllowedResource(DataUrl, hosts)
    ensures RewriteUrls("url('" + HostUrl + "')", mapped, ["h"]) == Ok("url(" + HostUrl + ")")
    ensures Read("url('" + HostUrl + "')") == Some(Url("", HostUrl, Last("")))
    ensures Read("url(" + HostUrl + ")") != Some(Url("", HostUrl, Last("")))
    ensures !IsBare(HostUrl) && !IsBare(DataUrl)
  {
    HostIsListed();
    DataIsAllowed(hosts);
    HostIsHarmless();
    hide Read, RewriteUrls, IsAllowedResource, IsBare, IsUnsafeCss;
    QuotesAreMissed(HostUrl, mapped, ["h"]);
    ParenthesisIsNotBare(HostUrl);
    ParenthesisIsNotBare(DataUrl);
  }

  lemma DataIsAllowed(hosts: seq<string>)
    ensures IsAllowedResource(DataUrl, hosts) && HasNoQuotes(DataUrl) && ')' in DataUrl
  {
    LowerStays(DataUrl);
    assert "data:image/png;base64," <= DataUrl;
    assert DataUrl[23] == ')';
  }

  lemma HostIsHarmless()
    ensures !IsUnsafeCss("url(" + HostUrl + ")") && HasNoQuotes(HostUrl) && ')' in HostUrl
  {
    assert HostUrl[11] == ')';
    var s := "url(" + HostUrl + ")";
    forall i | 0 <= i < |s| ensures s[i] !in ['j', 'J', 'v', 'V', 'x', 'X', '@', '-'] {
      if 4 <= i < |s| - 1 { assert s[i] == HostUrl[i - 4]; }
    }
    NoUnsafeCharacter(s);
  }

  lemma HostIsListed()
    ensures IsAllowedResource(HostUrl, ["h"])
  {
    var rest := "h/d)e";
    assert HostUrl[..8] == "https://" && HostUrl[8..] == rest && rest[1..] == "/d)e";
    LowerStays("https://");
    assert AuthorityLength("/d)e") == 0 && AuthorityLength(rest) == 1 && rest[..1] == "h";
    assert !IsWhitespace('h');
    assert HttpsAuthority(HostUrl) == Some("h");
    assert ["h"][0] == "h";
  }

  lemma LowerStays(s: string)
    requires forall i :: 0 <= i < |s| ==> !('A' <= s[i] <= 'Z')
    ensures Lower(s) == s
  {
  }

  /** Without these characters none of the forbidden words can be there. */
  lemma NoUnsafeCharacter(s: string)
    requires forall i :: 0 <= i < |s| ==> s[i] !in ['j', 'J', 'v', 'V', 'x', 'X', '@', '-']
    ensures !IsUnsafeCss(s)
  {
    var lowered := Lower(s);
    assert forall i :: 0 <= i < |s| ==> lowered[i] !in ['j', 'v', 'x', '@', '-'];
    Lacks(lowered, "javascript:", 0);
    Lacks(lowered, "vbscript:", 0);
    Lacks(lowered, "expression(", 1);
    Lacks(lowered, "@import", 0);
    Lacks(lowered, "-moz-binding", 0);
  }

  lemma Lacks(s: string, part: string, k: nat)
    requires k < |part| && forall i :: 0 <= i < |s| ==> s[i] != part[k]
    ensures !Contains(s, part)
  {
    forall i | 0 <= i <= |s| ensures !StandsAt(s, i, part) {
      if i + |part| <= |s| { assert s[i..i + |part|][k] == s[i + k] != part[k]; }
    }
  }

  predicate IsAsciiSpace(c: char) {
    c in {' ', '\t', '\n', '\r', 12 as char}
  }

  function WordLength(s: string): (n: nat)
    ensures n <= |s|
  {
    if s == [] || IsAsciiSpace(s[0]) then 0 else 1 + WordLength(s[1..])
  }

  /** The words between ASCII white space. */
  function Words(s: string): seq<string> {
    if s == [] then []
    else if IsAsciiSpace(s[0]) then Words(s[1..])
    else [s[..WordLength(s)]] + Words(s[WordLength(s)..])
  }

  function JoinWords(words: seq<string>): string {
    if words == [] then [] else if |words| == 1 then words[0] else words[0] + " " + JoinWords(words[1..])
  }

  /** The new ids of those words that are ids. */
  function NewIds(words: seq<string>, mapped: IdMap): seq<string> {
    if words == [] then []
    else (if words[0] in mapped then [mapped[words[0]]] else []) + NewIds(words[1..], mapped)
  }

  function Labels(value: string, mapped: IdMap): string {
    JoinWords(NewIds(Words(value), mapped))
  }

  predicate IsWord(s: string) {
    s != [] && forall i :: 0 <= i < |s| ==> !IsAsciiSpace(s[i])
  }

  lemma {:induction false} WordLengthOf(word: string, rest: string)
    requires (forall i :: 0 <= i < |word| ==> !IsAsciiSpace(word[i])) && (rest == [] || IsAsciiSpace(rest[0]))
    ensures WordLength(word + rest) == |word|
  {
    hide IsAsciiSpace;
    if word == [] {
      assert word + rest == rest;
    } else {
      assert (word + rest)[1..] == word[1..] + rest;
      WordLengthOf(word[1..], rest);
    }
  }

  lemma {:induction false} WordsOfJoin(words: seq<string>)
    requires forall k :: 0 <= k < |words| ==> IsWord(words[k])
    ensures Words(JoinWords(words)) == words
  {
    hide IsAsciiSpace;
    if words != [] {
      var word := words[0];
      var rest := if |words| == 1 then [] else " " + JoinWords(words[1..]);
      assert IsWord(word) && IsAsciiSpace(' ') by { SpaceIsSpace(); }
      assert JoinWords(words) == word + rest;
      WordLengthOf(word, rest);
      assert (word + rest)[..|word|] == word && (word + rest)[|word|..] == rest;
      WordsOfJoin(words[1..]);
      if |words| > 1 { assert rest[1..] == JoinWords(words[1..]); }
    }
  }

  lemma SpaceIsSpace()
    ensures IsAsciiSpace(' ')
  {
  }

  /** A written label list names, in order, the new ids of the words that were ids: one word gives its new id or
      nothing, and wherever the list is cut the two parts give theirs. */
  lemma LabelsAreMoved(value: string, mapped: IdMap)
    requires IsSane(mapped)
    ensures Words(Labels(value, mapped)) == NewIds(Words(value), mapped)
    ensures forall word :: NewIds([word], mapped) == if word in mapped then [mapped[word]] else []
    ensures forall k :: 0 <= k <= |Words(value)| ==>
      NewIds(Words(value), mapped) == NewIds(Words(value)[..k], mapped) + NewIds(Words(value)[k..], mapped)
  {
    var words := Words(value);
    forall word ensures NewIds([word], mapped) == if word in mapped then [mapped[word]] else [] {
      assert [word][1..] == [];
    }
    hide Words, IsWord, JoinWords, IsIdText;
    forall k | 0 <= k <= |words|
      ensures NewIds(words, mapped) == NewIds(words[..k], mapped) + NewIds(words[k..], mapped)
    {
      assert words[..k] + words[k..] == words;
      NewIdsConcat(words[..k], words[k..], mapped);
    }
    NewIdsAreWords(words, mapped);
    WordsOfJoin(NewIds(words, mapped));
  }

  lemma {:induction false} NewIdsConcat(a: seq<string>, b: seq<string>, mapped: IdMap)
    ensures NewIds(a + b, mapped) == NewIds(a, mapped) + NewIds(b, mapped)
  {
    if a == [] {
      assert a + b == b;
    } else {
      assert (a + b)[0] == a[0] && (a + b)[1..] == a[1..] + b;
      NewIdsConcat(a[1..], b, mapped);
    }
  }

  lemma {:induction false} NewIdsAreWords(words: seq<string>, mapped: IdMap)
    requires IsSane(mapped)
    ensures forall k :: 0 <= k < |NewIds(words, mapped)| ==> IsWord(NewIds(words, mapped)[k])
  {
    hide IsWord, IsIdText;
    if words != [] {
      NewIdsAreWords(words[1..], mapped);
      if words[0] in mapped { IdIsWord(mapped[words[0]]); }
    }
  }

  lemma IdIsWord(id: string)
    requires IsIdText(id)
    ensures IsWord(id)
  {
    forall i | 0 <= i < |id| ensures !IsAsciiSpace(id[i]) { assert IsIdChar(id[i]); }
  }
}
