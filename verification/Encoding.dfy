/** Text as a sequence of Unicode scalar values, and its UTF-8 and UTF-16 code units
    (section 3 of RFC 3629 and section 2.1 of RFC 2781). Offsets that arrive from outside count
    code units; the document itself is indexed by scalar values. */
module Encoding {
  import opened Wrappers

  datatype Form = Utf8 | Utf16

  /** The code units of one scalar value. */
  function Units(f: Form, c: char): (u: seq<nat>)
    ensures 0 < |u|
  {
    var n := c as int;
    match f
    case Utf16 =>
      if n < 0x10000 then [n]
      else [0xD800 + (n - 0x10000) / 0x400, 0xDC00 + (n - 0x10000) % 0x400]
    case Utf8 =>
      if n < 0x80 then [n]
      else if n < 0x800 then [0xC0 + n / 0x40, 0x80 + n % 0x40]
      else if n < 0x10000 then [0xE0 + n / 0x1000, 0x80 + (n / 0x40) % 0x40, 0x80 + n % 0x40]
      else [0xF0 + n / 0x40000, 0x80 + (n / 0x1000) % 0x40, 0x80 + (n / 0x40) % 0x40, 0x80 + n % 0x40]
  }

  function Encode(f: Form, s: string): seq<nat> {
    if s == [] then [] else Units(f, s[0]) + Encode(f, s[1..])
  }

  function Length(f: Form, s: string): nat {
    |Encode(f, s)|
  }

  predicate IsBetween(u: nat, low: nat, high: nat) {
    low <= u <= high
  }

  /** The code units are those of the standards: as many as the range of the scalar asks for, each in the range of
      its place, and with the bits that give the scalar back. */
  lemma UnitsAreStandard(c: char)
    ensures var u, n := Units(Utf16, c), c as int;
      if n <= 0xFFFF then u == [n]
      else
        && |u| == 2 && IsBetween(u[0], 0xD800, 0xDBFF) && IsBetween(u[1], 0xDC00, 0xDFFF)
        && n == 0x10000 + (u[0] - 0xD800) * 0x400 + (u[1] - 0xDC00)
    ensures var u, n := Units(Utf8, c), c as int;
      && (forall k :: 1 <= k < |u| ==> IsBetween(u[k], 0x80, 0xBF))
      && if n <= 0x7F then u == [n]
         else if n <= 0x7FF then
           |u| == 2 && IsBetween(u[0], 0xC0, 0xDF) && n == (u[0] - 0xC0) * 0x40 + (u[1] - 0x80)
         else if n <= 0xFFFF then
           && |u| == 3 && IsBetween(u[0], 0xE0, 0xEF)
           && n == (u[0] - 0xE0) * 0x1000 + (u[1] - 0x80) * 0x40 + (u[2] - 0x80)
         else
           && |u| == 4 && IsBetween(u[0], 0xF0, 0xF4)
           && n == (u[0] - 0xF0) * 0x40000 + (u[1] - 0x80) * 0x1000 + (u[2] - 0x80) * 0x40 + (u[3] - 0x80)
  {
    var n := c as int;
    assert n == (n / 0x40) * 0x40 + n % 0x40;
    assert n / 0x40 == (n / 0x1000) * 0x40 + (n / 0x40) % 0x40;
    assert n / 0x1000 == (n / 0x40000) * 0x40 + (n / 0x1000) % 0x40;
  }

  /** A unit that starts a scalar value: not a continuation byte, not a low surrogate. */
  predicate Leading(f: Form, u: nat) {
    match f
    case Utf8 => !(0x80 <= u < 0xC0)
    case Utf16 => !(0xDC00 <= u < 0xE000)
  }

  /** The index of the scalar value that holds unit `offset`; `|s|` for the end of the text. */
  function UnitToChar(f: Form, s: string, offset: nat): (i: nat)
    requires offset <= Length(f, s)
    ensures i <= |s|
  {
    if s == [] || offset < |Units(f, s[0])| then 0
    else 1 + UnitToChar(f, s[1..], offset - |Units(f, s[0])|)
  }

  /** The scalar index at `offset`, refused when the offset is past the end or, converted there
      and back, does not come out the same. */
  function StrictIndex(f: Form, s: string, offset: nat): Option<nat> {
    if offset > Length(f, s) then None
    else
      var i := UnitToChar(f, s, offset);
      if Length(f, s[..i]) != offset then None else Some(i)
  }

  lemma {:induction false} EncodeConcat(f: Form, a: string, b: string)
    ensures Encode(f, a + b) == Encode(f, a) + Encode(f, b)
  {
    if a == [] {
      assert a + b == b;
    } else {
      assert (a + b)[0] == a[0] && (a + b)[1..] == a[1..] + b;
      EncodeConcat(f, a[1..], b);
    }
  }

  lemma EncodeSlices(f: Form, s: string, i: nat, j: nat)
    requires i <= j <= |s|
    ensures Length(f, s[..i]) <= Length(f, s[..j]) <= Length(f, s)
    ensures Encode(f, s)[..Length(f, s[..i])] == Encode(f, s[..i])
    ensures Encode(f, s)[Length(f, s[..i])..] == Encode(f, s[i..])
    ensures Encode(f, s)[Length(f, s[..i])..Length(f, s[..j])] == Encode(f, s[i..j])
    ensures i < j ==> Length(f, s[..i]) < Length(f, s[..j])
  {
    assert s == s[..i] + s[i..] && s == s[..j] + s[j..] && s[..j] == s[..i] + s[i..j];
    EncodeConcat(f, s[..i], s[i..]);
    EncodeConcat(f, s[..j], s[j..]);
    EncodeConcat(f, s[..i], s[i..j]);
  }

  lemma {:induction false} UnitToCharIsFloor(f: Form, s: string, offset: nat)
    requires offset <= Length(f, s)
    ensures var i := UnitToChar(f, s, offset);
      Length(f, s[..i]) <= offset && (i < |s| ==> offset < Length(f, s[..i + 1]))
  {
    if s == [] {
    } else if offset < |Units(f, s[0])| {
      assert s[..1] == [s[0]] && [s[0]][1..] == [];
    } else {
      var rest := offset - |Units(f, s[0])|;
      UnitToCharIsFloor(f, s[1..], rest);
      var i := UnitToChar(f, s[1..], rest);
      assert s[..i + 1][1..] == s[1..][..i];
      if i < |s[1..]| { assert s[..i + 2][1..] == s[1..][..i + 1]; }
    }
  }

  /** An offset is accepted exactly when it is where some scalar value begins (or the end of the
      text), and then the index is the number of scalar values before it. */
  lemma StrictIndexExact(f: Form, s: string, offset: nat, i: nat)
    ensures StrictIndex(f, s, offset) == Some(i) <==> i <= |s| && Length(f, s[..i]) == offset
  {
    if i <= |s| && Length(f, s[..i]) == offset {
      EncodeSlices(f, s, i, |s|);
      UnitToCharIsFloor(f, s, offset);
      var k := UnitToChar(f, s, offset);
      if k < i { EncodeSlices(f, s, k + 1, i); }
      if i < k { EncodeSlices(f, s, i, k); }
    }
  }

  lemma UnitsShape(f: Form, c: char)
    ensures Leading(f, Units(f, c)[0])
    ensures forall k :: 1 <= k < |Units(f, c)| ==> !Leading(f, Units(f, c)[k])
  {
    var n := c as int;
    assert n < 0xD800 || 0xE000 <= n < 0x110000;
  }

  /** Seen from the code units: an offset inside the text is accepted exactly when the unit there
      does not continue a scalar value, so never between the halves of a surrogate pair and never
      inside a UTF-8 sequence. */
  lemma {:induction false} StrictIndexSplitsNoScalar(f: Form, s: string, offset: nat)
    ensures var units := Encode(f, s);
      StrictIndex(f, s, offset).Some? <==>
        offset <= |units| && (offset < |units| ==> Leading(f, units[offset]))
  {
    if offset < Length(f, s) {
      UnitToCharIsFloor(f, s, offset);
      var i := UnitToChar(f, s, offset);
      assert s[..|s|] == s;
      EncodeSlices(f, s, i, i + 1);
      var start := Length(f, s[..i]);
      assert s[i..i + 1] == [s[i]] && [s[i]][1..] == [];
      assert Encode(f, s)[start..Length(f, s[..i + 1])] == Units(f, s[i]);
      assert Encode(f, s)[offset] == Units(f, s[i])[offset - start];
      UnitsShape(f, s[i]);
    } else if offset == Length(f, s) {
      assert s[..|s|] == s;
      StrictIndexExact(f, s, offset, |s|);
    }
  }
}
