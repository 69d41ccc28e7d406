/** Cutting a text into lines that keep their line endings, and putting it together again. */
module SourceLines {
  datatype Line = Line(text: string, ending: string)

  predicate IsBreak(c: char) {
    c == '\n' || c == '\r'
  }

  /** The line that starts at `start` and is ended at `i`. */
  function LineAt(s: string, start: nat, i: nat): Line
    requires start <= i < |s| && IsBreak(s[i])
  {
    if s[i] == '\n' then
      if i > start && s[i - 1] == '\r' then Line(s[start..i - 1], "\r\n") else Line(s[start..i], "\n")
    else if i + 1 < |s| && s[i + 1] == '\n' then Line(s[start..i], "\r\n")
    else Line(s[start..i], "\r")
  }

  /** Where the line after the break at `i` starts. */
  function After(s: string, i: nat): (next: nat)
    requires i < |s|
    ensures i < next <= |s|
  {
    if s[i] == '\r' && i + 1 < |s| && s[i + 1] == '\n' then i + 2 else i + 1
  }

  /** The lines from `start` on, when nothing ends a line before `i`. */
  function SplitFrom(s: string, start: nat, i: nat): seq<Line>
    requires start <= i <= |s|
    decreases |s| - i
  {
    if i == |s| then
      if start < |s| then [Line(s[start..], "")] else []
    else if IsBreak(s[i]) then
      [LineAt(s, start, i)] + SplitFrom(s, After(s, i), After(s, i))
    else SplitFrom(s, start, i + 1)
  }

  function Split(s: string): seq<Line> {
    SplitFrom(s, 0, 0)
  }

  function Join(lines: seq<Line>): string {
    if lines == [] then [] else lines[0].text + lines[0].ending + Join(lines[1..])
  }

  method SplitSourceLines(source: string) returns (lines: seq<Line>)
    ensures lines == Split(source)
  {
    lines := [];
    var lineStart, index := 0, 0;
    while index < |source|
      invariant lineStart <= index <= |source|
      invariant Split(source) == lines + SplitFrom(source, lineStart, index)
    {
      if source[index] == '\n' {
        if index > lineStart && source[index - 1] == '\r' {
          lines := lines + [Line(source[lineStart..index - 1], "\r\n")];
        } else {
          lines := lines + [Line(source[lineStart..index], "\n")];
        }
        index := index + 1;
        lineStart := index;
      } else if source[index] == '\r' {
        if index + 1 < |source| && source[index + 1] == '\n' {
          lines := lines + [Line(source[lineStart..index], "\r\n")];
          index := index + 2;
        } else {
          lines := lines + [Line(source[lineStart..index], "\r")];
          index := index + 1;
        }
        lineStart := index;
      } else {
        index := index + 1;
      }
    }
    if lineStart < |source| {
      lines := lines + [Line(source[lineStart..], "")];
    }
  }

  lemma {:induction false} JoinConcat(a: seq<Line>, b: seq<Line>)
    ensures Join(a + b) == Join(a) + Join(b)
  {
    if a == [] {
      assert a + b == b;
    } else {
      assert (a + b)[1..] == a[1..] + b;
      JoinConcat(a[1..], b);
    }
  }

  lemma CutAt(s: string, start: nat, i: nat)
    requires start <= i < |s| && IsBreak(s[i])
    ensures s[start..] == LineAt(s, start, i).text + LineAt(s, start, i).ending + s[After(s, i)..]
  {
    if s[i] == '\n' && i > start && s[i - 1] == '\r' {
      assert s[i - 1..i + 1] == "\r\n";
    } else if After(s, i) == i + 2 {
      assert s[i..i + 2] == "\r\n";
    } else {
      assert s[i..i + 1] == [s[i]];
    }
  }

  /** Nothing is lost by cutting into lines. */
  lemma {:induction false} JoinSplit(s: string, start: nat, i: nat)
    requires start <= i <= |s|
    ensures Join(SplitFrom(s, start, i)) == s[start..]
    decreases |s| - i
  {
    hide LineAt, After, IsBreak;
    if i < |s| {
      if IsBreak(s[i]) {
        JoinSplit(s, After(s, i), After(s, i));
        CutAt(s, start, i);
      } else {
        JoinSplit(s, start, i + 1);
      }
    }
  }

  predicate NoBreaks(s: string) {
    forall k :: 0 <= k < |s| ==> s[k] != '\n' && s[k] != '\r'
  }

  /** Lines as they come out of a text, each by itself. */
  predicate AreLines(lines: seq<Line>)
  {
    forall k :: 0 <= k < |lines| ==> IsLine(lines[k], k + 1 == |lines|)
  }

  predicate IsLine(line: Line, isLast: bool) {
    && NoBreaks(line.text)
    && (line.ending == "\n" || line.ending == "\r\n" || line.ending == "\r"
      || (line.ending == "" && isLast && line.text != []))
  }

  /** The break of the first line and that of the blank second one make one break together. */
  predicate Joins(a: Line, b: Line) {
    a.ending == "\r" && b == Line("", "\n")
  }

  predicate NoneJoin(lines: seq<Line>) {
    forall k :: 0 <= k < |lines| - 1 ==> !Joins(lines[k], lines[k + 1])
  }

  lemma {:induction false} SplitAreLines(s: string, start: nat, i: nat)
    requires start <= i <= |s| && NoBreaks(s[start..i])
    ensures var lines := SplitFrom(s, start, i);
      && AreLines(lines) && NoneJoin(lines)
      && (start < |s| && s[start] != '\n' && lines != [] ==> lines[0] != Line("", "\n"))
    decreases |s| - i
  {
    hide SplitFrom, NoBreaks, AreLines, NoneJoin, IsLine, LineAt, After;
    SplitStep(s, start, i);
    if i == |s| {
      assert s[start..i] == s[start..];
      NoMoreLines(s, start, SplitFrom(s, start, i));
    } else if IsBreak(s[i]) {
      var next, line := After(s, i), LineAt(s, start, i);
      assert s[next..next] == [];
      NothingBreaks();
      SplitAreLines(s, next, next);
      LineAtIsLine(s, start, i);
      if SplitFrom(s, next, next) != [] && line.ending == "\r" { RestStarts(s, next); }
      OneMoreLine(line, SplitFrom(s, next, next));
    } else {
      assert s[start..i + 1] == s[start..i] + [s[i]];
      OneMoreCharacter(s[start..i], s[i]);
      SplitAreLines(s, start, i + 1);
    }
  }

  lemma SplitStep(s: string, start: nat, i: nat)
    requires start <= i <= |s|
    ensures SplitFrom(s, start, i) ==
      if i == |s| then (if start < |s| then [Line(s[start..], "")] else [])
      else if IsBreak(s[i]) then [LineAt(s, start, i)] + SplitFrom(s, After(s, i), After(s, i))
      else SplitFrom(s, start, i + 1)
  {
    hide LineAt, After, IsBreak;
  }

  lemma OneMoreCharacter(a: string, c: char)
    requires NoBreaks(a) && !IsBreak(c)
    ensures NoBreaks(a + [c])
  {
  }

  lemma NoMoreLines(s: string, start: nat, lines: seq<Line>)
    requires start <= |s| && NoBreaks(s[start..]) && lines == if start < |s| then [Line(s[start..], "")] else []
    ensures AreLines(lines) && NoneJoin(lines) && (lines != [] ==> lines[0] != Line("", "\n"))
  {
  }

  lemma OneMoreLine(line: Line, rest: seq<Line>)
    requires AreLines(rest) && NoneJoin(rest) && IsLine(line, false) && IsLine(line, true)
    requires rest != [] ==> !Joins(line, rest[0])
    ensures AreLines([line] + rest) && NoneJoin([line] + rest)
  {
    hide IsLine;
    var lines := [line] + rest;
    assert lines[1..] == rest;
    NoneJoinStep(lines);
    forall k | 0 <= k < |lines| ensures IsLine(lines[k], k + 1 == |lines|) {
      if 0 < k { assert IsLine(rest[k - 1], k - 1 + 1 == |rest|); }
    }
  }

  lemma NothingBreaks()
    ensures NoBreaks([])
  {
  }

  lemma RestStarts(s: string, start: nat)
    requires start <= |s| && SplitFrom(s, start, start) != []
    ensures start < |s|
  {
  }

  lemma LineAtIsLine(s: string, start: nat, i: nat)
    requires start <= i < |s| && IsBreak(s[i]) && NoBreaks(s[start..i])
    ensures IsLine(LineAt(s, start, i), false) && IsLine(LineAt(s, start, i), true)
    ensures LineAt(s, start, i) == Line("", "\n") ==> s[start] == '\n'
    ensures LineAt(s, start, i).ending == "\r" && After(s, i) < |s| ==> s[After(s, i)] != '\n'
  {
    assert forall k :: start <= k < i ==> s[k] == s[start..i][k - start];
  }

  lemma SliceAfter(a: string, b: string, j: nat, k: nat)
    requires j <= k <= |b|
    ensures (a + b)[|a| + j..|a| + k] == b[j..k]
  {
  }

  lemma {:induction false} SplitAfter(a: string, b: string, start: nat, i: nat)
    requires start <= i <= |b|
    ensures SplitFrom(a + b, |a| + start, |a| + i) == SplitFrom(b, start, i)
    decreases |b| - i
  {
    var s := a + b;
    if i == |b| {
      assert s[|a| + start..] == b[start..];
    } else {
      hide LineAt, After;
      assert s[|a| + i] == b[i];
      if IsBreak(b[i]) {
        LineAfter(a, b, start, i);
        SplitAfter(a, b, After(b, i), After(b, i));
      } else {
        SplitAfter(a, b, start, i + 1);
      }
    }
  }

  lemma LineAfter(a: string, b: string, start: nat, i: nat)
    requires start <= i < |b| && IsBreak(b[i])
    ensures LineAt(a + b, |a| + start, |a| + i) == LineAt(b, start, i)
    ensures After(a + b, |a| + i) == |a| + After(b, i)
  {
    SliceAfter(a, b, start, i);
    if i > start { SliceAfter(a, b, start, i - 1); }
  }

  lemma {:induction false} SkipText(text: string, rest: string, i: nat)
    requires NoBreaks(text) && i <= |text|
    ensures SplitFrom(text + rest, 0, i) == SplitFrom(text + rest, 0, |text|)
    decreases |text| - i
  {
    if i < |text| {
      assert (text + rest)[i] == text[i];
      SkipText(text, rest, i + 1);
    }
  }

  /** Lines put together are cut at the same places again, unless two of their breaks join. */
  lemma {:induction false} SplitJoin(lines: seq<Line>)
    requires AreLines(lines) && NoneJoin(lines)
    ensures Split(Join(lines)) == lines
  {
    if lines != [] {
      var line, rest := lines[0], lines[1..];
      TailAreLines(lines);
      NoneJoinStep(lines);
      SplitJoin(rest);
      FirstIsCut(lines);
      assert lines == [line] + rest;
    }
  }

  lemma TailAreLines(lines: seq<Line>)
    requires AreLines(lines) && lines != []
    ensures AreLines(lines[1..]) && IsLine(lines[0], |lines| == 1)
  {
    hide IsLine;
    assert IsLine(lines[0], 0 + 1 == |lines|);
    forall k | 0 <= k < |lines[1..]| ensures IsLine(lines[1..][k], k + 1 == |lines[1..]|) {
      assert IsLine(lines[k + 1], k + 2 == |lines|);
    }
  }

  /** The first line is cut off a text, unless its break joins the next one. */
  lemma FirstIsCut(lines: seq<Line>)
    requires AreLines(lines) && lines != [] && (|lines| > 1 ==> !Joins(lines[0], lines[1]))
    ensures Split(Join(lines)) == [lines[0]] + Split(Join(lines[1..]))
  {
    TailAreLines(lines);
    var rest := lines[1..];
    if rest != [] { TailAreLines(rest); }
    SplitLine(lines[0], rest == [], Join(rest));
  }

  /** And if it does, the two lines become one. */
  lemma FirstIsJoined(lines: seq<Line>)
    requires AreLines(lines) && |lines| > 1 && Joins(lines[0], lines[1])
    ensures Split(Join(lines)) == [Line(lines[0].text, "\r\n")] + Split(Join(lines[2..]))
    ensures AreLines(lines[2..])
  {
    hide Join, Split;
    TailAreLines(lines);
    TailAreLines(lines[1..]);
    JoinTwo(lines);
    assert lines[1..][1..] == lines[2..];
    SplitLine(Line(lines[0].text, "\r\n"), false, Join(lines[2..]));
  }

  lemma JoinTwo(lines: seq<Line>)
    requires |lines| > 1 && Joins(lines[0], lines[1])
    ensures Join(lines) == lines[0].text + "\r\n" + Join(lines[2..])
  {
    var rest := Join(lines[2..]);
    assert lines[1..][1..] == lines[2..];
    assert Join(lines[1..]) == "" + "\n" + rest == "\n" + rest;
    assert lines[0].text + "\r" + ("\n" + rest) == lines[0].text + "\r\n" + rest;
  }

  /** Putting lines together and cutting them again gives no more lines, and fewer if any join. */
  lemma {:induction false} JoiningShrinks(lines: seq<Line>)
    requires AreLines(lines)
    ensures |Split(Join(lines))| <= |lines|
    ensures !NoneJoin(lines) ==> |Split(Join(lines))| < |lines|
    decreases |lines|
  {
    if lines != [] {
      if |lines| > 1 && Joins(lines[0], lines[1]) {
        FirstIsJoined(lines);
        JoiningShrinks(lines[2..]);
      } else {
        TailAreLines(lines);
        FirstIsCut(lines);
        JoiningShrinks(lines[1..]);
        NoneJoinStep(lines);
      }
    }
  }

  /** Lines say the same as lines that were cut from a text only if they are those. */
  lemma SameText(lines: seq<Line>, cut: seq<Line>)
    requires AreLines(lines) && AreLines(cut) && NoneJoin(cut) && |lines| == |cut|
    ensures Join(lines) == Join(cut) <==> lines == cut
  {
    if Join(lines) == Join(cut) {
      SplitJoin(cut);
      JoiningShrinks(lines);
      SplitJoin(lines);
    }
  }

  /** Two blocks of lines have no joining breaks if neither has and they have none between them. */
  lemma {:induction false} NoneJoinParts(a: seq<Line>, b: seq<Line>)
    requires a != []
    ensures NoneJoin(a + b) <==> NoneJoin(a) && NoneJoin(b) && (b != [] ==> !Joins(a[|a| - 1], b[0]))
    decreases |a|
  {
    hide Joins, NoneJoin;
    NoneJoinStep(a);
    NoneJoinStep(a + b);
    assert (a + b)[1..] == a[1..] + b;
    if |a| == 1 {
      assert a[1..] + b == b;
      NoneJoinOfNothing();
    } else {
      NoneJoinParts(a[1..], b);
    }
  }

  lemma NoneJoinOfNothing()
    ensures NoneJoin([])
  {
  }

  lemma NoneJoinStep(lines: seq<Line>)
    requires lines != []
    ensures NoneJoin(lines) <==> NoneJoin(lines[1..]) && (|lines| > 1 ==> !Joins(lines[0], lines[1]))
  {
    hide Joins;
    var rest := lines[1..];
    if NoneJoin(lines) {
      forall k | 0 <= k < |rest| - 1 ensures !Joins(rest[k], rest[k + 1]) {
        assert !Joins(lines[k + 1], lines[k + 1 + 1]);
      }
      if |lines| > 1 { assert !Joins(lines[0], lines[0 + 1]); }
    }
    if NoneJoin(rest) && (|lines| > 1 ==> !Joins(lines[0], lines[1])) {
      forall k | 0 <= k < |lines| - 1 ensures !Joins(lines[k], lines[k + 1]) {
        if 0 < k { assert !Joins(rest[k - 1], rest[k - 1 + 1]); }
      }
    }
  }

  /** A text is cut into as many lines as need be, the first of which is known by its text. */
  lemma FirstText(lines: seq<Line>)
    requires AreLines(lines)
    ensures Split(Join(lines)) == [] <==> lines == []
    ensures lines != [] ==> Split(Join(lines))[0].text == lines[0].text
  {
    if lines != [] {
      if |lines| > 1 && Joins(lines[0], lines[1]) { FirstIsJoined(lines); } else { FirstIsCut(lines); }
    }
  }

  lemma SplitLine(line: Line, isLast: bool, rest: string)
    requires IsLine(line, isLast) && (isLast ==> rest == [])
    requires line.ending == "\r" && rest != [] ==> rest[0] != '\n'
    ensures Split(line.text + line.ending + rest) == [line] + Split(rest)
  {
    hide SplitFrom, NoBreaks;
    var text, ending, s := line.text, line.ending, line.text + line.ending + rest;
    assert s == text + (ending + rest) == (text + ending) + rest;
    SkipText(text, ending + rest, 0);
    SplitAfter(text + ending, rest, 0, 0);
    CutHere(s, line, rest);
  }

  lemma CutHere(s: string, line: Line, rest: string)
    requires s == line.text + line.ending + rest
    requires line.ending in ["\n", "\r\n", "\r", ""] && (line.ending == "" ==> rest == [] && line.text != [])
    requires NoBreaks(line.text) && (line.ending == "\r" && rest != [] ==> rest[0] != '\n')
    ensures var n, next := |line.text|, |line.text| + |line.ending|;
      SplitFrom(s, 0, n) == [line] + SplitFrom(s, next, next)
  {
    var n := |line.text|;
    assert s[0..n] == line.text;
    if line.ending == [] {
      assert s == line.text && s[0..] == line.text;
    } else {
      hide SplitFrom;
      LineHere(s, line, rest);
      CutOff(s, n);
    }
  }

  lemma CutOff(s: string, i: nat)
    requires i < |s| && IsBreak(s[i])
    ensures SplitFrom(s, 0, i) == [LineAt(s, 0, i)] + SplitFrom(s, After(s, i), After(s, i))
  {
    hide LineAt, After, IsBreak;
  }

  lemma LineHere(s: string, line: Line, rest: string)
    requires s == line.text + line.ending + rest
    requires line.ending in ["\n", "\r\n", "\r"]
    requires NoBreaks(line.text) && (line.ending == "\r" && rest != [] ==> rest[0] != '\n')
    ensures var n := |line.text|; IsBreak(s[n]) && LineAt(s, 0, n) == line && After(s, n) == n + |line.ending|
  {
    var n := |line.text|;
    assert s[0..n] == line.text && s[n] == line.ending[0];
    if 0 < n { assert s[n - 1] == line.text[n - 1]; }
    if |line.ending| == 2 { assert s[n + 1] == line.ending[1]; }
    if |line.ending| == 1 && rest != [] { assert s[n + 1] == rest[0]; }
  }
}
