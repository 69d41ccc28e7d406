/** Edits of a sequence in old coordinates: applied all at once, and one at a time from the right. */
module Splicing {
  datatype Edit<T> = Edit(from: nat, to: nat, insert: seq<T>)

  /** Edits in ascending order, none starting before the previous one ended, all within pos..n. */
  ghost predicate Ordered<T>(edits: seq<Edit<T>>, pos: nat, n: nat) {
    if edits == [] then pos <= n
    else pos <= edits[0].from <= edits[0].to && Ordered(edits[1..], edits[0].to, n)
  }

  /** All edits at once: the pieces of `s` between the edited ranges, with the insertions between
      them. Several insertions at one point come out in the order of the edits. */
  ghost function Substitute<T>(s: seq<T>, pos: nat, edits: seq<Edit<T>>): seq<T>
    requires Ordered(edits, pos, |s|)
    decreases edits
  {
    if edits == [] then s[pos..]
    else
      OrderedBound(edits[1..], edits[0].to, |s|);
      s[pos..edits[0].from] + edits[0].insert + Substitute(s, edits[0].to, edits[1..])
  }

  lemma {:induction false} OrderedBound<T>(edits: seq<Edit<T>>, pos: nat, n: nat)
    requires Ordered(edits, pos, n)
    ensures pos <= n
    ensures forall k :: 0 <= k < |edits| ==> pos <= edits[k].from <= edits[k].to <= n
  {
    if edits != [] {
      OrderedBound(edits[1..], edits[0].to, n);
      forall k | 0 <= k < |edits| ensures pos <= edits[k].from <= edits[k].to <= n {
        if 0 < k { assert edits[k] == edits[1..][k - 1]; }
      }
    }
  }

  /** Any tail of ordered edits is ordered, from the end of the edit before it. */
  lemma {:induction false} OrderedTail<T>(edits: seq<Edit<T>>, pos: nat, n: nat, k: nat)
    requires Ordered(edits, pos, n) && k <= |edits|
    ensures Ordered(edits[k..], if k == 0 then pos else edits[k - 1].to, n)
    ensures Ordered(edits[k..], pos, n)
  {
    if 0 < k {
      OrderedBound(edits, pos, n);
      OrderedTail(edits[1..], edits[0].to, n, k - 1);
      assert edits[1..][k - 1..] == edits[k..];
      if k < |edits| { assert edits[k..][0] == edits[k]; }
    } else {
      assert edits[0..] == edits;
    }
  }

  lemma {:induction false} SubstituteFrom<T>(s: seq<T>, pos: nat, p: nat, edits: seq<Edit<T>>)
    requires pos <= p && Ordered(edits, p, |s|)
    ensures Ordered(edits, pos, |s|)
    ensures p <= |s|
    ensures Substitute(s, pos, edits) == s[pos..p] + Substitute(s, p, edits)
  {
    OrderedBound(edits, p, |s|);
    if edits == [] {
      assert s[pos..] == s[pos..p] + s[p..];
    } else {
      var e, tail := edits[0], Substitute(s, edits[0].to, edits[1..]);
      assert s[pos..e.from] == s[pos..p] + s[p..e.from];
      assert s[pos..p] + s[p..e.from] + e.insert + tail == s[pos..p] + (s[p..e.from] + e.insert + tail);
    }
  }

  /** Two insertions at one point can be exchanged exactly when what they insert commutes. */
  lemma {:induction false} ExchangeInsertions<T>(s: seq<T>, pos: nat, a: seq<Edit<T>>, x: Edit<T>, y: Edit<T>,
                                                 b: seq<Edit<T>>)
    requires x.from == x.to == y.from == y.to && Ordered(a + [x, y] + b, pos, |s|)
    ensures Ordered(a + [y, x] + b, pos, |s|)
    ensures Substitute(s, pos, a + [x, y] + b) == Substitute(s, pos, a + [y, x] + b)
      <==> x.insert + y.insert == y.insert + x.insert
    decreases a
  {
    var xy, yx := a + [x, y] + b, a + [y, x] + b;
    OrderedBound(xy, pos, |s|);
    if a == [] {
      assert xy[1..] == [y] + b && yx[1..] == [x] + b && ([y] + b)[1..] == b && ([x] + b)[1..] == b;
      var head, tail := s[pos..x.from], Substitute(s, x.to, b);
      assert s[x.from..x.from] == [];
      assert Substitute(s, pos, xy) == head + (x.insert + y.insert) + tail;
      assert Substitute(s, pos, yx) == head + (y.insert + x.insert) + tail;
      SameMiddle(head, x.insert + y.insert, y.insert + x.insert, tail);
    } else {
      assert xy[1..] == a[1..] + [x, y] + b && yx[1..] == a[1..] + [y, x] + b;
      ExchangeInsertions(s, a[0].to, a[1..], x, y, b);
      OrderedBound(yx, pos, |s|);
      SameEnd(s[pos..a[0].from] + a[0].insert, Substitute(s, a[0].to, xy[1..]), Substitute(s, a[0].to, yx[1..]));
    }
  }

  lemma SameMiddle<T>(head: seq<T>, a: seq<T>, b: seq<T>, tail: seq<T>)
    requires |a| == |b|
    ensures head + a + tail == head + b + tail <==> a == b
  {
    if head + a + tail == head + b + tail {
      assert a == (head + a + tail)[|head|..|head| + |a|] && b == (head + b + tail)[|head|..|head| + |b|];
    }
  }

  lemma SameEnd<T>(head: seq<T>, a: seq<T>, b: seq<T>)
    ensures head + a == head + b <==> a == b
  {
    assert a == (head + a)[|head|..] && b == (head + b)[|head|..];
  }

  /** One step of applying from the right: the edits after `k` are in place, so removing and
      inserting at the old coordinates of edit `k` brings edit `k` in place as well. */
  lemma ReplaceNext<T>(s: seq<T>, edits: seq<Edit<T>>, k: nat)
    requires Ordered(edits, 0, |s|) && k < |edits|
    ensures Ordered(edits[k..], 0, |s|) && Ordered(edits[k + 1..], 0, |s|)
    ensures var e := edits[k]; var t := Substitute(s, 0, edits[k + 1..]);
      e.from <= e.to <= |t| &&
      Substitute(s, 0, edits[k..]) == t[..e.from] + e.insert + t[e.to..]
  {
    var e := edits[k];
    OrderedTail(edits, 0, |s|, k);
    OrderedTail(edits, 0, |s|, k + 1);
    OrderedBound(edits[k + 1..], e.to, |s|);
    SubstituteFrom(s, 0, e.to, edits[k + 1..]);
    assert edits[k..][0] == e && edits[k..][1..] == edits[k + 1..];
    assert s[..e.to][..e.from] == s[..e.from];
  }

  /** The edits that undo `edits` on their result, where the text from `pos` on has moved to `at`:
      each covers what was inserted and puts back what was removed. */
  ghost function Inverse<T>(s: seq<T>, pos: nat, edits: seq<Edit<T>>, at: nat): (r: seq<Edit<T>>)
    requires Ordered(edits, pos, |s|)
    ensures |r| == |edits|
    decreases edits
  {
    if edits == [] then []
    else
      var e := edits[0];
      OrderedBound(edits, pos, |s|);
      var from := at + (e.from - pos);
      [Edit(from, from + |e.insert|, s[e.from..e.to])]
      + Inverse(s, e.to, edits[1..], from + |e.insert|)
  }

  lemma {:induction false} InverseRestores<T>(s: seq<T>, pos: nat, edits: seq<Edit<T>>, t: seq<T>, at: nat)
    requires Ordered(edits, pos, |s|) && pos <= |s|
    requires at <= |t| && t[at..] == Substitute(s, pos, edits)
    ensures var inverse := Inverse(s, pos, edits, at);
      Ordered(inverse, at, |t|) && Substitute(t, at, inverse) == s[pos..]
    decreases edits
  {
    if edits != [] {
      OrderedBound(edits, pos, |s|);
      var e, tail := edits[0], Substitute(s, edits[0].to, edits[1..]);
      var from := at + (e.from - pos);
      var to := from + |e.insert|;
      var head := s[pos..e.from];
      assert t[at..] == head + e.insert + tail;
      assert t[at..from] == t[at..][..|head|] == head;
      assert t[to..] == t[at..][to - at..] == tail;
      InverseRestores(s, e.to, edits[1..], t, to);
      var rest := Inverse(s, e.to, edits[1..], to);
      var inverse := Inverse(s, pos, edits, at);
      assert inverse[0] == Edit(from, to, s[e.from..e.to]) && inverse[1..] == rest;
      assert s[pos..] == head + s[e.from..e.to] + s[e.to..];
    }
  }
}

/** Splicing a text and splicing its code units agree. */
module UnitSplicing {
  import opened Encoding
  import opened Splicing

  /** The same edits, with offsets and insertions in code units. */
  ghost function UnitEdits(f: Form, s: string, pos: nat, edits: seq<Edit<char>>): (r: seq<Edit<nat>>)
    requires Ordered(edits, pos, |s|)
    ensures |r| == |edits|
    decreases edits
  {
    if edits == [] then []
    else
      OrderedBound(edits, pos, |s|);
      var e := edits[0];
      [Edit(Length(f, s[..e.from]), Length(f, s[..e.to]), Encode(f, e.insert))]
      + UnitEdits(f, s, e.to, edits[1..])
  }

  lemma {:induction false} EncodeSubstitute(f: Form, s: string, pos: nat, edits: seq<Edit<char>>)
    requires Ordered(edits, pos, |s|) && pos <= |s|
    ensures var units := UnitEdits(f, s, pos, edits); var at := Length(f, s[..pos]);
      Ordered(units, at, Length(f, s)) &&
      Encode(f, Substitute(s, pos, edits)) == Substitute(Encode(f, s), at, units)
    decreases edits
  {
    OrderedBound(edits, pos, |s|);
    if edits == [] {
      EncodeSlices(f, s, pos, |s|);
    } else {
      var e := edits[0];
      EncodeSlices(f, s, pos, e.from);
      EncodeSlices(f, s, e.from, e.to);
      EncodeSubstitute(f, s, e.to, edits[1..]);
      var tail := Substitute(s, e.to, edits[1..]);
      EncodeConcat(f, s[pos..e.from] + e.insert, tail);
      EncodeConcat(f, s[pos..e.from], e.insert);
      var units := UnitEdits(f, s, pos, edits);
      assert units[1..] == UnitEdits(f, s, e.to, edits[1..]);
    }
  }
}
