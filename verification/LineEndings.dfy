/** Canonical text keeps LF only; the line ending of the file is remembered beside it and put
    back when the text is written. */
module LineEndings {
  import opened Wrappers

  datatype LineEnding = Lf | CrLf

  datatype NormalizedText = NormalizedText(text: string, lineEnding: LineEnding)

  /** The line endings of a text in order. A lone carriage return counts as LF. */
  function Endings(s: string): seq<LineEnding> {
    if s == [] then []
    else if s[0] == '\r' && |s| > 1 && s[1] == '\n' then [CrLf] + Endings(s[2..])
    else if s[0] == '\r' || s[0] == '\n' then [Lf] + Endings(s[1..])
    else Endings(s[1..])
  }

  function Count(endings: seq<LineEnding>, e: LineEnding): nat {
    if endings == [] then 0 else (if endings[0] == e then 1 else 0) + Count(endings[1..], e)
  }

  /** The more frequent ending; the first one when both are equally frequent; LF without any. */
  function Dominant(endings: seq<LineEnding>): LineEnding {
    var crlf, lf := Count(endings, CrLf), Count(endings, Lf);
    if crlf > lf then CrLf
    else if crlf < lf then Lf
    else if endings == [] then Lf
    else endings[0]
  }

  function ReplaceCrLf(s: string): string {
    if s == [] then []
    else if s[0] == '\r' && |s| > 1 && s[1] == '\n' then ['\n'] + ReplaceCrLf(s[2..])
    else [s[0]] + ReplaceCrLf(s[1..])
  }

  function ReplaceCr(s: string): string {
    if s == [] then [] else [if s[0] == '\r' then '\n' else s[0]] + ReplaceCr(s[1..])
  }

  /** Every line ending as one LF, in one pass. */
  function Canonical(s: string): string {
    if s == [] then []
    else if s[0] == '\r' && |s| > 1 && s[1] == '\n' then ['\n'] + Canonical(s[2..])
    else [if s[0] == '\r' then '\n' else s[0]] + Canonical(s[1..])
  }

  function Normalize(s: string): NormalizedText {
    NormalizedText(Canonical(s), Dominant(Endings(s)))
  }

  function ToCrLf(s: string): string {
    if s == [] then []
    else (if s[0] == '\n' then "\r\n" else [s[0]]) + ToCrLf(s[1..])
  }

  /** What is written to disk for a canonical text. */
  function Persisted(text: string, lineEnding: LineEnding): string {
    match lineEnding
    case Lf => text
    case CrLf => ToCrLf(text)
  }

  lemma {:induction false} CountSplit(a: seq<LineEnding>, b: seq<LineEnding>, e: LineEnding)
    ensures Count(a + b, e) == Count(a, e) + Count(b, e)
  {
    if a == [] {
      assert a + b == b;
    } else {
      assert (a + b)[0] == a[0] && (a + b)[1..] == a[1..] + b;
      CountSplit(a[1..], b, e);
    }
  }

  lemma EndingsStep(s: string, i: nat)
    requires i < |s|
    ensures Endings(s[i..])
      == if s[i] == '\r' && i + 1 < |s| && s[i + 1] == '\n' then [CrLf] + Endings(s[i + 2..])
         else if s[i] == '\r' || s[i] == '\n' then [Lf] + Endings(s[i + 1..])
         else Endings(s[i + 1..])
  {
    assert s[i..][1..] == s[i + 1..];
    if i + 1 < |s| { assert s[i..][2..] == s[i + 2..]; }
  }

  lemma CountNext(seen: seq<LineEnding>, e: LineEnding, rest: seq<LineEnding>)
    ensures forall d :: Count(seen + [e], d) == Count(seen, d) + if d == e then 1 else 0
    ensures seen + ([e] + rest) == seen + [e] + rest
  {
    CountSplit(seen, [e], CrLf);
    CountSplit(seen, [e], Lf);
  }

  /** The majority of the endings, counted in one pass over the text. */
  method DetectLineEnding(input: string) returns (lineEnding: LineEnding)
    ensures lineEnding == Dominant(Endings(input))
  {
    var crlfCount, lfCount, first, cursor := 0, 0, None, 0;
    ghost var seen: seq<LineEnding> := [];
    assert input[0..] == input;
    hide Endings;
    while cursor < |input|
      invariant 0 <= cursor <= |input|
      invariant seen + Endings(input[cursor..]) == Endings(input)
      invariant crlfCount == Count(seen, CrLf) && lfCount == Count(seen, Lf)
      invariant first == if seen == [] then None else Some(seen[0])
    {
      EndingsStep(input, cursor);
      if input[cursor] == '\r' && cursor + 1 < |input| && input[cursor + 1] == '\n' {
        CountNext(seen, CrLf, Endings(input[cursor + 2..]));
        crlfCount, seen := crlfCount + 1, seen + [CrLf];
        first := if first == None then Some(CrLf) else first;
        cursor := cursor + 2;
      } else if input[cursor] == '\r' || input[cursor] == '\n' {
        CountNext(seen, Lf, Endings(input[cursor + 1..]));
        lfCount, seen := lfCount + 1, seen + [Lf];
        first := if first == None then Some(Lf) else first;
        cursor := cursor + 1;
      } else {
        cursor := cursor + 1;
      }
    }
    EndingsOfEmpty(input[cursor..]);
    assert seen == Endings(input);
    lineEnding := if crlfCount > lfCount then CrLf
                  else if crlfCount < lfCount then Lf
                  else if first.Some? then first.value else Lf;
  }

  lemma EndingsOfEmpty(s: string)
    requires s == []
    ensures Endings(s) == []
  {
  }

  predicate IsCrLfAt(s: string, i: int) {
    0 <= i < |s| - 1 && s[i] == '\r' && s[i + 1] == '\n'
  }

  /** A line break of one character: not part of a CRLF. */
  predicate IsLoneBreakAt(s: string, i: int) {
    0 <= i < |s| && s[i] in "\r\n" && !IsCrLfAt(s, i) && !IsCrLfAt(s, i - 1)
  }

  function CrLfPlaces(s: string, from: nat): set<nat> {
    set i | from <= i < |s| && IsCrLfAt(s, i)
  }

  function LoneBreakPlaces(s: string, from: nat): set<nat> {
    set i | from <= i < |s| && IsLoneBreakAt(s, i)
  }

  /** The first break of the text is a CRLF. */
  ghost predicate StartsWithCrLf(s: string) {
    exists i :: IsCrLfAt(s, i) && forall k | 0 <= k < i :: s[k] !in "\r\n"
  }

  lemma {:induction false} EndingsArePlaces(s: string, from: nat)
    requires from <= |s| && !IsCrLfAt(s, from - 1)
    ensures Count(Endings(s[from..]), CrLf) == |CrLfPlaces(s, from)|
    ensures Count(Endings(s[from..]), Lf) == |LoneBreakPlaces(s, from)|
    decreases |s| - from
  {
    hide Endings;
    if from == |s| {
      EndingsOfEmpty(s[from..]);
      assert CrLfPlaces(s, from) == {} && LoneBreakPlaces(s, from) == {};
    } else {
      EndingsStep(s, from);
      if IsCrLfAt(s, from) {
        EndingsArePlaces(s, from + 2);
        CountNext([], CrLf, Endings(s[from + 2..]));
        CrLfPlace(s, from);
      } else {
        EndingsArePlaces(s, from + 1);
        OtherPlace(s, from);
      }
    }
  }

  lemma CrLfPlace(s: string, from: nat)
    requires IsCrLfAt(s, from)
    ensures |CrLfPlaces(s, from)| == 1 + |CrLfPlaces(s, from + 2)|
    ensures |LoneBreakPlaces(s, from)| == |LoneBreakPlaces(s, from + 2)|
  {
    assert CrLfPlaces(s, from) == {from} + CrLfPlaces(s, from + 2);
    assert LoneBreakPlaces(s, from) == LoneBreakPlaces(s, from + 2);
  }

  lemma OtherPlace(s: string, from: nat)
    requires from < |s| && !IsCrLfAt(s, from) && !IsCrLfAt(s, from - 1)
    ensures |CrLfPlaces(s, from)| == |CrLfPlaces(s, from + 1)|
    ensures |LoneBreakPlaces(s, from)| == (if s[from] in "\r\n" then 1 else 0) + |LoneBreakPlaces(s, from + 1)|
  {
    assert IsLoneBreakAt(s, from) <==> s[from] in "\r\n";
    hide IsLoneBreakAt, IsCrLfAt;
    assert CrLfPlaces(s, from) == CrLfPlaces(s, from + 1);
    if s[from] in "\r\n" {
      assert LoneBreakPlaces(s, from) == {from} + LoneBreakPlaces(s, from + 1);
    } else {
      assert LoneBreakPlaces(s, from) == LoneBreakPlaces(s, from + 1);
    }
  }

  lemma {:induction false} FirstEnding(s: string, from: nat)
    requires from <= |s| && forall k | 0 <= k < from :: s[k] !in "\r\n"
    ensures (Endings(s[from..]) != [] && Endings(s[from..])[0] == CrLf) <==> StartsWithCrLf(s)
    decreases |s| - from
  {
    hide Endings;
    if from == |s| {
      EndingsOfEmpty(s[from..]);
      assert !StartsWithCrLf(s);
    } else {
      EndingsStep(s, from);
      if s[from] in "\r\n" {
        if IsCrLfAt(s, from) {
          assert StartsWithCrLf(s);
        } else {
          forall i | IsCrLfAt(s, i) ensures !forall k | 0 <= k < i :: s[k] !in "\r\n" {
            assert s[i] in "\r\n";
            assert i > from;
          }
        }
      } else {
        FirstEnding(s, from + 1);
      }
    }
  }

  /** More of the breaks are CRLF than are not, or as many and the first one is. */
  ghost predicate IsMostlyCrLf(s: string) {
    var crlf, lone := |CrLfPlaces(s, 0)|, |LoneBreakPlaces(s, 0)|;
    crlf > lone || (crlf == lone && StartsWithCrLf(s))
  }

  /** A text is taken as CRLF exactly when its breaks mostly are. */
  lemma EndingIsTheMajority(s: string)
    ensures Normalize(s).lineEnding == CrLf <==> IsMostlyCrLf(s)
  {
    hide Endings, Canonical;
    assert s[0..] == s;
    EndingsArePlaces(s, 0);
    FirstEnding(s, 0);
  }

  method NormalizeEditorText(input: string) returns (normalized: NormalizedText)
    ensures normalized == Normalize(input)
  {
    var lineEnding := DetectLineEnding(input);
    if '\r' in input {
      TwoPassesAreOne(input);
      normalized := NormalizedText(ReplaceCr(ReplaceCrLf(input)), lineEnding);
    } else {
      CanonicalKeepsLf(input);
      normalized := NormalizedText(input, lineEnding);
    }
  }

  lemma {:induction false} TwoPassesAreOne(s: string)
    ensures ReplaceCr(ReplaceCrLf(s)) == Canonical(s)
  {
    if s == [] {
    } else if s[0] == '\r' && |s| > 1 && s[1] == '\n' {
      TwoPassesAreOne(s[2..]);
      assert (['\n'] + ReplaceCrLf(s[2..]))[1..] == ReplaceCrLf(s[2..]);
    } else {
      TwoPassesAreOne(s[1..]);
      assert ([s[0]] + ReplaceCrLf(s[1..]))[1..] == ReplaceCrLf(s[1..]);
    }
  }

  lemma {:induction false} CanonicalKeepsLf(s: string)
    requires '\r' !in s
    ensures Canonical(s) == s
  {
    if s != [] { CanonicalKeepsLf(s[1..]); }
  }

  lemma {:induction false} CanonicalHasNoCr(s: string)
    ensures '\r' !in Canonical(s)
  {
    if s == [] {
    } else if s[0] == '\r' && |s| > 1 && s[1] == '\n' {
      CanonicalHasNoCr(s[2..]);
    } else {
      CanonicalHasNoCr(s[1..]);
    }
  }

  /** Every ending the counter sees becomes exactly one LF of the canonical text. */
  lemma {:induction false} EndingsBecomeLfs(s: string)
    ensures multiset(Canonical(s))['\n'] == |Endings(s)|
  {
    if s == [] {
    } else if s[0] == '\r' && |s| > 1 && s[1] == '\n' {
      EndingsBecomeLfs(s[2..]);
    } else {
      EndingsBecomeLfs(s[1..]);
    }
  }

  /** Reading back what was written gives the text again, and its line ending too unless the text
      is a single line, which reads as LF. */
  lemma {:induction false} PersistRoundTrip(text: string, lineEnding: LineEnding)
    requires '\r' !in text
    ensures Normalize(Persisted(text, lineEnding)).text == text
    ensures Normalize(Persisted(text, lineEnding)).lineEnding == if '\n' in text then lineEnding else Lf
  {
    match lineEnding
    case Lf =>
      CanonicalKeepsLf(text);
      EndingsOfLf(text);
    case CrLf =>
      CanonicalOfCrLf(text);
      EndingsOfCrLf(text);
  }

  predicate All(endings: seq<LineEnding>, e: LineEnding) {
    forall k :: 0 <= k < |endings| ==> endings[k] == e
  }

  lemma {:induction false} CountAll(endings: seq<LineEnding>, e: LineEnding)
    requires All(endings, e)
    ensures forall d :: Count(endings, d) == if d == e then |endings| else 0
  {
    if endings != [] { CountAll(endings[1..], e); }
  }

  lemma {:induction false} EndingsOfLf(s: string)
    requires '\r' !in s
    ensures All(Endings(s), Lf) && Dominant(Endings(s)) == Lf
  {
    if s != [] {
      EndingsOfLf(s[1..]);
    }
    CountAll(Endings(s), Lf);
  }

  lemma {:induction false} CanonicalOfCrLf(s: string)
    requires '\r' !in s
    ensures Canonical(ToCrLf(s)) == s
  {
    if s != [] {
      CanonicalOfCrLf(s[1..]);
      if s[0] == '\n' {
        assert ToCrLf(s)[2..] == ToCrLf(s[1..]);
      } else {
        assert ToCrLf(s)[1..] == ToCrLf(s[1..]);
      }
    }
  }

  lemma {:induction false} EndingsOfCrLf(s: string)
    requires '\r' !in s
    ensures All(Endings(ToCrLf(s)), CrLf) && (Endings(ToCrLf(s)) == [] <==> '\n' !in s)
    ensures Dominant(Endings(ToCrLf(s))) == if '\n' in s then CrLf else Lf
  {
    if s != [] {
      EndingsOfCrLf(s[1..]);
      if s[0] == '\n' {
        assert ToCrLf(s)[2..] == ToCrLf(s[1..]);
      } else {
        assert ToCrLf(s)[1..] == ToCrLf(s[1..]);
      }
    }
    CountAll(Endings(ToCrLf(s)), CrLf);
  }

  /** Every line break is a CR followed by an LF. */
  predicate UniformCrLf(s: string) {
    if s == [] then true
    else if s[0] == '\r' then |s| > 1 && s[1] == '\n' && UniformCrLf(s[2..])
    else s[0] != '\n' && UniformCrLf(s[1..])
  }

  /** Opening and saving a file leaves it byte for byte the same exactly when its line endings are
      uniform: no carriage return at all, or CRLF everywhere. */
  lemma OpenAndSaveIsIdentityIffUniform(file: string)
    ensures var n := Normalize(file);
      Persisted(n.text, n.lineEnding) == file <==> '\r' !in file || UniformCrLf(file)
  {
    var n := Normalize(file);
    CanonicalHasNoCr(file);
    if '\r' !in file {
      CanonicalKeepsLf(file);
      EndingsOfLf(file);
    } else if UniformCrLf(file) {
      UniformCrLfRestored(file);
      CountAll(Endings(file), CrLf);
    }
    if Persisted(n.text, n.lineEnding) == file && n.lineEnding == CrLf {
      ToCrLfIsUniform(n.text);
    }
  }

  /** A text with one ending of each kind comes back with two of the first kind. */
  lemma MixedEndingsAreNotKept()
    ensures var n := Normalize("\r\n\n"); Persisted(n.text, n.lineEnding) == "\r\n\r\n" != "\r\n\n"
  {
    var file := "\r\n\n";
    assert file[2..] == "\n" && "\n"[1..] == "";
    assert Endings("\n") == [Lf] && Endings(file) == [CrLf, Lf] && [CrLf, Lf][1..] == [Lf] && [Lf][1..] == [];
    assert Count([Lf], Lf) == 1 && Count([Lf], CrLf) == 0;
    assert Canonical("\n") == "\n" && Canonical(file) == "\n\n" && "\n\n"[1..] == "\n";
    assert ToCrLf("\n") == "\r\n" && ToCrLf("\n\n") == "\r\n\r\n";
    assert |"\r\n\r\n"| == 4 && |file| == 3;
  }

  lemma {:induction false} UniformCrLfRestored(s: string)
    requires UniformCrLf(s)
    ensures ToCrLf(Canonical(s)) == s
    ensures All(Endings(s), CrLf) && ('\r' in s ==> Endings(s) != [])
  {
    if s == [] {
    } else if s[0] == '\r' {
      UniformCrLfRestored(s[2..]);
      assert s == "\r\n" + s[2..];
      assert Canonical(s)[1..] == Canonical(s[2..]);
    } else {
      UniformCrLfRestored(s[1..]);
      assert s == [s[0]] + s[1..];
      assert Canonical(s)[1..] == Canonical(s[1..]);
    }
  }

  lemma {:induction false} ToCrLfIsUniform(s: string)
    requires '\r' !in s
    ensures UniformCrLf(ToCrLf(s))
  {
    if s != [] {
      ToCrLfIsUniform(s[1..]);
      if s[0] == '\n' {
        assert ToCrLf(s)[2..] == ToCrLf(s[1..]);
      } else {
        assert ToCrLf(s)[1..] == ToCrLf(s[1..]);
      }
    }
  }

  /** Only a text without a line feed is its own CRLF form. */
  lemma {:induction false} ToCrLfKeepsIff(s: string)
    ensures |ToCrLf(s)| >= |s| && (ToCrLf(s) == s <==> '\n' !in s)
  {
    if s != [] {
      ToCrLfKeepsIff(s[1..]);
      assert s == [s[0]] + s[1..];
      if s[0] != '\n' { assert ToCrLf(s)[1..] == ToCrLf(s[1..]); }
    }
  }

  lemma {:induction false} ToCrLfConcat(a: string, b: string)
    ensures ToCrLf(a + b) == ToCrLf(a) + ToCrLf(b)
  {
    if a == [] {
      assert a + b == b;
    } else {
      assert (a + b)[0] == a[0] && (a + b)[1..] == a[1..] + b;
      ToCrLfConcat(a[1..], b);
    }
  }

  /** An in-memory writer. */
  class Sink {
    var written: string

    constructor ()
      ensures written == []
    {
      written := [];
    }

    method WriteAll(data: string)
      modifies this
      ensures written == old(written) + data
    {
      written := written + data;
    }
  }

  /** Writes one chunk segment by segment, each LF as CRLF. */
  method WriteCrLfChunk(writer: Sink, chunk: string)
    modifies writer
    ensures writer.written == old(writer.written) + ToCrLf(chunk)
  {
    var segmentStart := 0;
    for index := 0 to |chunk|
      invariant 0 <= segmentStart <= index
      invariant '\n' !in chunk[segmentStart..index]
      invariant writer.written == old(writer.written) + ToCrLf(chunk[..segmentStart])
    {
      if chunk[index] == '\n' {
        CrLfSegment(chunk, segmentStart, index);
        CrLfBreak(chunk, index);
        writer.WriteAll(chunk[segmentStart..index]);
        writer.WriteAll("\r\n");
        segmentStart := index + 1;
      }
    }
    CrLfSegment(chunk, segmentStart, |chunk|);
    assert chunk[..|chunk|] == chunk && chunk[segmentStart..|chunk|] == chunk[segmentStart..];
    writer.WriteAll(chunk[segmentStart..]);
  }

  lemma CrLfSegment(chunk: string, start: nat, end: nat)
    requires start <= end <= |chunk| && '\n' !in chunk[start..end]
    ensures ToCrLf(chunk[..end]) == ToCrLf(chunk[..start]) + chunk[start..end]
  {
    ToCrLfOfLine(chunk[start..end]);
    ToCrLfConcat(chunk[..start], chunk[start..end]);
    assert chunk[..end] == chunk[..start] + chunk[start..end];
  }

  lemma CrLfBreak(chunk: string, end: nat)
    requires end < |chunk| && chunk[end] == '\n'
    ensures ToCrLf(chunk[..end + 1]) == ToCrLf(chunk[..end]) + "\r\n"
  {
    assert chunk[..end + 1] == chunk[..end] + "\n";
    ToCrLfConcat(chunk[..end], "\n");
    assert ToCrLf("\n") == "\r\n" + ToCrLf([]) == "\r\n";
  }

  lemma {:induction false} ToCrLfOfLine(s: string)
    requires '\n' !in s
    ensures ToCrLf(s) == s
  {
    if s != [] { ToCrLfOfLine(s[1..]); }
  }

  function Join(chunks: seq<string>): string {
    if chunks == [] then [] else chunks[0] + Join(chunks[1..])
  }

  /** Streams the chunks of a snapshot. What comes out depends only on the joined text, not on
      where the rope cut it. */
  method WriteTo(writer: Sink, chunks: seq<string>, lineEnding: LineEnding)
    modifies writer
    ensures writer.written == old(writer.written) + Persisted(Join(chunks), lineEnding)
  {
    hide ToCrLf, Join;
    ghost var before := writer.written;
    assert chunks[0..] == chunks;
    for index := 0 to |chunks|
      invariant writer.written + Persisted(Join(chunks[index..]), lineEnding)
        == before + Persisted(Join(chunks), lineEnding)
    {
      ghost var done := writer.written;
      NextChunk(done, chunks, index, lineEnding);
      match lineEnding {
        case Lf => writer.WriteAll(chunks[index]);
        case CrLf => WriteCrLfChunk(writer, chunks[index]);
      }
      assert writer.written == done + Persisted(chunks[index], lineEnding);
    }
    NothingToPersist(lineEnding);
    assert chunks[|chunks|..] == [] && writer.written + [] == writer.written;
  }

  lemma NextChunk(done: string, chunks: seq<string>, k: nat, lineEnding: LineEnding)
    requires k < |chunks|
    ensures done + Persisted(Join(chunks[k..]), lineEnding)
      == done + Persisted(chunks[k], lineEnding) + Persisted(Join(chunks[k + 1..]), lineEnding)
  {
    hide ToCrLf;
    var rest := Join(chunks[k + 1..]);
    assert chunks[k..][1..] == chunks[k + 1..] && Join(chunks[k..]) == chunks[k] + rest;
    ToCrLfConcat(chunks[k], rest);
    var a, b := Persisted(chunks[k], lineEnding), Persisted(rest, lineEnding);
    assert done + a + b == done + (a + b);
  }

  lemma NothingToPersist(lineEnding: LineEnding)
    ensures Persisted(Join([]), lineEnding) == []
  {
  }
}
