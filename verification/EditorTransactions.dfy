/** UTF-16 addressed transactions on a rope: validated in old coordinates, applied from the right. */
module EditorTransactions {
  import opened Wrappers
  import opened Encoding
  import opened Splicing

  datatype TextChange = TextChange(fromUtf16: nat, toUtf16: nat, insert: string)

  datatype Transaction = Transaction(beforeLengthUtf16: nat, changes: seq<TextChange>)

  datatype DocumentError =
    | EmptyClientId
    | EmptyBatch
    | EmptyTransaction(transaction: nat)
    | UnexpectedBatchId(expected: nat, actual: nat)
    | BatchIdReuse(batchId: nat)
    | StaleRevision(expected: nat, actual: nat)
    | InvalidTransactionLength(transaction: nat, expected: nat, actual: nat)
    | InvalidChangeRange(transaction: nat, change: nat, from: nat, to: nat)
    | OverlappingChanges(transaction: nat, change: nat)
    | InvalidUtf16Boundary(transaction: nat, change: nat, offset: nat)
    | NonCanonicalLineEnding(transaction: nat, change: nat)
    | RevisionOverflow

  function ToChar(s: string, offset: nat): Option<nat> {
    StrictIndex(Utf16, s, offset)
  }

  /** What is wrong with one change, checked in the order of the source. */
  function ChangeError(s: string, c: TextChange, k: nat, previousTo: nat, t: nat): Option<DocumentError> {
    if c.fromUtf16 > c.toUtf16 || c.toUtf16 > Length(Utf16, s) then
      Some(InvalidChangeRange(t, k, c.fromUtf16, c.toUtf16))
    else if 0 < k && c.fromUtf16 < previousTo then Some(OverlappingChanges(t, k))
    else if '\r' in c.insert then Some(NonCanonicalLineEnding(t, k))
    else if ToChar(s, c.fromUtf16).None? then Some(InvalidUtf16Boundary(t, k, c.fromUtf16))
    else if ToChar(s, c.toUtf16).None? then Some(InvalidUtf16Boundary(t, k, c.toUtf16))
    else None
  }

  /** The first error among the changes from index `k` on. */
  function FirstChangeError(s: string, changes: seq<TextChange>, k: nat, previousTo: nat, t: nat): Option<DocumentError>
    requires k <= |changes|
    decreases |changes| - k
  {
    if k == |changes| then None
    else
      var error := ChangeError(s, changes[k], k, previousTo, t);
      if error.Some? then error else FirstChangeError(s, changes, k + 1, changes[k].toUtf16, t)
  }

  function TransactionError(s: string, transaction: Transaction, t: nat): Option<DocumentError> {
    if transaction.beforeLengthUtf16 != Length(Utf16, s) then
      Some(InvalidTransactionLength(t, transaction.beforeLengthUtf16, Length(Utf16, s)))
    else if transaction.changes == [] then Some(EmptyTransaction(t))
    else FirstChangeError(s, transaction.changes, 0, 0, t)
  }

  ghost predicate AcceptableChange(s: string, c: TextChange) {
    && c.fromUtf16 <= c.toUtf16
    && ToChar(s, c.fromUtf16).Some? && ToChar(s, c.toUtf16).Some?
    && '\r' !in c.insert
  }

  ghost predicate AcceptableFrom(s: string, changes: seq<TextChange>, previousTo: nat) {
    changes != [] ==>
      && previousTo <= changes[0].fromUtf16
      && AcceptableChange(s, changes[0])
      && AcceptableFrom(s, changes[1..], changes[0].toUtf16)
  }

  /** A transaction fits a text: it counts the right length, is not empty, and its changes are
      ordered ranges between scalar boundaries whose insertions are canonical. */
  ghost predicate Accepts(s: string, transaction: Transaction) {
    && transaction.beforeLengthUtf16 == Length(Utf16, s)
    && transaction.changes != []
    && AcceptableFrom(s, transaction.changes, 0)
  }

  lemma {:induction false} FirstChangeErrorExact(s: string, changes: seq<TextChange>, k: nat, previousTo: nat, t: nat)
    requires k <= |changes|
    requires k == 0 ==> previousTo == 0
    ensures FirstChangeError(s, changes, k, previousTo, t).None? <==> AcceptableFrom(s, changes[k..], previousTo)
    decreases |changes| - k
  {
    if k < |changes| {
      var c := changes[k];
      assert changes[k..][0] == c && changes[k..][1..] == changes[k + 1..];
      FirstChangeErrorExact(s, changes, k + 1, c.toUtf16, t);
      if ToChar(s, c.toUtf16).Some? {
        var j := ToChar(s, c.toUtf16).value;
        StrictIndexExact(Utf16, s, c.toUtf16, j);
        EncodeSlices(Utf16, s, j, |s|);
      }
    }
  }

  /** The checks made one after another refuse exactly the transactions that do not fit. */
  lemma RefusedExactlyWhenUnfit(s: string, transaction: Transaction, t: nat)
    ensures TransactionError(s, transaction, t).None? <==> Accepts(s, transaction)
  {
    FirstChangeErrorExact(s, transaction.changes, 0, 0, t);
    assert transaction.changes[0..] == transaction.changes;
  }

  /** What the error says about change `k` is so, and nothing checked before it is wrong. */
  predicate IsFaultOf(s: string, changes: seq<TextChange>, k: nat, t: nat, error: DocumentError)
    requires k < |changes|
  {
    var c := changes[k];
    var inRange := c.fromUtf16 <= c.toUtf16 <= Length(Utf16, s);
    var apart := k > 0 ==> changes[k - 1].toUtf16 <= c.fromUtf16;
    var isCanonical := '\r' !in c.insert;
    match error
    case InvalidChangeRange(u, m, from, to) => u == t && m == k && from == c.fromUtf16 && to == c.toUtf16 && !inRange
    case OverlappingChanges(u, m) => u == t && m == k && inRange && !apart
    case NonCanonicalLineEnding(u, m) => u == t && m == k && inRange && apart && !isCanonical
    case InvalidUtf16Boundary(u, m, offset) =>
      && u == t && m == k && inRange && apart && isCanonical && ToChar(s, offset).None?
      && offset == if ToChar(s, c.fromUtf16).None? then c.fromUtf16 else c.toUtf16
    case _ => false
  }

  /** An error is that of the first change that does not fit. */
  lemma {:induction false} FirstFault(s: string, changes: seq<TextChange>, k: nat, t: nat) returns (m: nat)
    requires k <= |changes| && FirstChangeError(s, changes, k, if k == 0 then 0 else changes[k - 1].toUtf16, t).Some?
    ensures k <= m < |changes|
    ensures IsFaultOf(s, changes, m, t,
                      FirstChangeError(s, changes, k, if k == 0 then 0 else changes[k - 1].toUtf16, t).value)
    ensures AcceptableFrom(s, changes[k..m], if k == 0 then 0 else changes[k - 1].toUtf16)
    decreases |changes| - k
  {
    var previousTo := if k == 0 then 0 else changes[k - 1].toUtf16;
    if ChangeError(s, changes[k], k, previousTo, t).Some? {
      m := k;
      assert changes[k..k] == [];
    } else {
      m := FirstFault(s, changes, k + 1, t);
      assert changes[k..m][0] == changes[k] && changes[k..m][1..] == changes[k + 1..m];
    }
  }

  /** A refused transaction has a wrong length, or no changes, or a first change at fault, which is named
      together with the changes' transaction. */
  lemma RefusalNamesTheFault(s: string, transaction: Transaction, t: nat)
    requires TransactionError(s, transaction, t).Some?
    ensures var error, changes, n := TransactionError(s, transaction, t).value, transaction.changes, Length(Utf16, s);
      if transaction.beforeLengthUtf16 != n then error == InvalidTransactionLength(t, transaction.beforeLengthUtf16, n)
      else if changes == [] then error == EmptyTransaction(t)
      else exists k :: 0 <= k < |changes| && IsFaultOf(s, changes, k, t, error) && AcceptableFrom(s, changes[..k], 0)
  {
    if transaction.beforeLengthUtf16 == Length(Utf16, s) && transaction.changes != [] {
      var k := FirstFault(s, transaction.changes, 0, t);
      assert transaction.changes[0..k] == transaction.changes[..k];
    }
  }

  /** The changes as edits of scalar positions. */
  ghost function Resolve(s: string, changes: seq<TextChange>, previousTo: nat): (edits: seq<Edit<char>>)
    requires AcceptableFrom(s, changes, previousTo)
    ensures |edits| == |changes|
    decreases changes
  {
    if changes == [] then []
    else
      [ResolveOne(s, changes[0])] + Resolve(s, changes[1..], changes[0].toUtf16)
  }

  ghost function ResolveOne(s: string, c: TextChange): Edit<char>
    requires AcceptableChange(s, c)
  {
    Edit(ToChar(s, c.fromUtf16).value, ToChar(s, c.toUtf16).value, c.insert)
  }

  lemma BoundariesKeepOrder(s: string, a: nat, b: nat)
    requires a <= b && ToChar(s, a).Some? && ToChar(s, b).Some?
    ensures var i, j := ToChar(s, a).value, ToChar(s, b).value;
      i <= j <= |s| && Length(Utf16, s[..i]) == a && Length(Utf16, s[..j]) == b
  {
    var i, j := ToChar(s, a).value, ToChar(s, b).value;
    StrictIndexExact(Utf16, s, a, i);
    StrictIndexExact(Utf16, s, b, j);
    if j < i { EncodeSlices(Utf16, s, j, i); }
  }

  lemma {:induction false} ResolvedInOrder(s: string, changes: seq<TextChange>, previousTo: nat)
    requires AcceptableFrom(s, changes, previousTo) && ToChar(s, previousTo).Some?
    ensures Ordered(Resolve(s, changes, previousTo), ToChar(s, previousTo).value, |s|)
    decreases changes
  {
    if changes == [] {
      BoundariesKeepOrder(s, previousTo, previousTo);
    } else {
      var c := changes[0];
      BoundariesKeepOrder(s, previousTo, c.fromUtf16);
      BoundariesKeepOrder(s, c.fromUtf16, c.toUtf16);
      ResolvedInOrder(s, changes[1..], c.toUtf16);
      assert Resolve(s, changes, previousTo)[1..] == Resolve(s, changes[1..], c.toUtf16);
    }
  }

  lemma ZeroIsABoundary(s: string)
    ensures ToChar(s, 0) == Some(0)
  {
    assert s[..0] == [];
    StrictIndexExact(Utf16, s, 0, 0);
  }

  ghost function EditsOf(s: string, transaction: Transaction): (edits: seq<Edit<char>>)
    requires Accepts(s, transaction)
    ensures Ordered(edits, 0, |s|)
  {
    ZeroIsABoundary(s);
    ResolvedInOrder(s, transaction.changes, 0);
    Resolve(s, transaction.changes, 0)
  }

  /** The meaning of a transaction: all its changes at once, in old coordinates. */
  ghost function After(s: string, transaction: Transaction): string
    requires Accepts(s, transaction)
  {
    Substitute(s, 0, EditsOf(s, transaction))
  }

  /** A text edited in place. */
  class Rope {
    var text: string

    constructor (text: string)
      ensures this.text == text
    {
      this.text := text;
    }

    method Remove(from: nat, to: nat)
      requires from <= to <= |text|
      modifies this
      ensures text == old(text[..from] + text[to..])
    {
      text := text[..from] + text[to..];
    }

    method Insert(at: nat, insert: string)
      requires at <= |text|
      modifies this
      ensures text == old(text[..at]) + insert + old(text[at..])
    {
      text := text[..at] + insert + text[at..];
    }
  }

  method StrictUtf16ToChar(rope: Rope, offset: nat, t: nat, k: nat) returns (r: Result<nat, DocumentError>)
    ensures r == match ToChar(rope.text, offset)
                 case Some(i) => Ok(i)
                 case None => Err(InvalidUtf16Boundary(t, k, offset))
  {
    if offset > Length(Utf16, rope.text) {
      return Err(InvalidUtf16Boundary(t, k, offset));
    }
    var charIndex := UnitToChar(Utf16, rope.text, offset);
    if Length(Utf16, rope.text[..charIndex]) != offset {
      return Err(InvalidUtf16Boundary(t, k, offset));
    }
    return Ok(charIndex);
  }

  /** Checks every change in old coordinates before the rope is touched. */
  method ValidateChanges(rope: Rope, changes: seq<TextChange>, t: nat)
    returns (error: Option<DocumentError>, validated: seq<Edit<char>>)
    ensures error == FirstChangeError(rope.text, changes, 0, 0, t)
    ensures error.None? ==> AcceptableFrom(rope.text, changes, 0) && validated == Resolve(rope.text, changes, 0)
  {
    var s, previousTo := rope.text, 0;
    validated := [];
    for k := 0 to |changes|
      invariant FirstChangeError(s, changes, 0, 0, t) == FirstChangeError(s, changes, k, previousTo, t)
      invariant |validated| == k
      invariant forall i :: 0 <= i < k ==>
        AcceptableChange(s, changes[i]) && validated[i] == ResolveOne(s, changes[i])
    {
      var c := changes[k];
      if c.fromUtf16 > c.toUtf16 || c.toUtf16 > Length(Utf16, rope.text) {
        return Some(InvalidChangeRange(t, k, c.fromUtf16, c.toUtf16)), validated;
      }
      if 0 < k && c.fromUtf16 < previousTo {
        return Some(OverlappingChanges(t, k)), validated;
      }
      if '\r' in c.insert {
        return Some(NonCanonicalLineEnding(t, k)), validated;
      }
      var fromChar := StrictUtf16ToChar(rope, c.fromUtf16, t, k);
      if fromChar.Err? {
        return Some(fromChar.error), validated;
      }
      var toChar := StrictUtf16ToChar(rope, c.toUtf16, t, k);
      if toChar.Err? {
        return Some(toChar.error), validated;
      }
      validated := validated + [Edit(fromChar.value, toChar.value, c.insert)];
      previousTo := c.toUtf16;
    }
    error := None;
    FirstChangeErrorExact(s, changes, 0, 0, t);
    assert changes[0..] == changes;
    ResolvedElements(s, changes, 0);
  }

  /** Applying the validated changes in place from the last to the first is the same as making
      all of them at once; a transaction that does not fit leaves the rope alone. */
  method ApplyTransaction(rope: Rope, transaction: Transaction, t: nat) returns (error: Option<DocumentError>)
    modifies rope
    ensures error == TransactionError(old(rope.text), transaction, t)
    ensures error.None? <==> Accepts(old(rope.text), transaction)
    ensures rope.text == if error.None? then After(old(rope.text), transaction) else old(rope.text)
  {
    ghost var s := rope.text;
    RefusedExactlyWhenUnfit(s, transaction, t);
    var actualLength := Length(Utf16, rope.text);
    if transaction.beforeLengthUtf16 != actualLength {
      return Some(InvalidTransactionLength(t, transaction.beforeLengthUtf16, actualLength));
    }
    if transaction.changes == [] {
      return Some(EmptyTransaction(t));
    }
    var validated;
    error, validated := ValidateChanges(rope, transaction.changes, t);
    if error.Some? {
      return;
    }
    assert validated == EditsOf(s, transaction);
    ApplyFromTheRight(rope, validated);
  }

  method ApplyFromTheRight(rope: Rope, validated: seq<Edit<char>>)
    requires Ordered(validated, 0, |rope.text|)
    modifies rope
    ensures rope.text == Substitute(old(rope.text), 0, validated)
  {
    ghost var s := rope.text;
    var n := |validated|;
    assert validated[n..] == [];
    while 0 < n
      invariant 0 <= n <= |validated|
      invariant Ordered(validated[n..], 0, |s|)
      invariant rope.text == Substitute(s, 0, validated[n..])
    {
      n := n - 1;
      ReplaceNext(s, validated, n);
      ghost var u := rope.text;
      var e := validated[n];
      rope.Remove(e.from, e.to);
      rope.Insert(e.from, e.insert);
      assert (u[..e.from] + u[e.to..])[..e.from] == u[..e.from];
      assert (u[..e.from] + u[e.to..])[e.from..] == u[e.to..];
    }
    assert validated[0..] == validated;
  }

  lemma {:induction false} ResolvedElements(s: string, changes: seq<TextChange>, previousTo: nat)
    requires AcceptableFrom(s, changes, previousTo)
    ensures forall k :: 0 <= k < |changes| ==>
      AcceptableChange(s, changes[k]) && Resolve(s, changes, previousTo)[k] == ResolveOne(s, changes[k])
    decreases changes
  {
    if changes != [] {
      ResolvedElements(s, changes[1..], changes[0].toUtf16);
      assert forall k :: 1 <= k < |changes| ==> changes[k] == changes[1..][k - 1];
    }
  }

  /** The changes as a client would undo them: each offset shifted by the length change of the
      changes before it, over what was inserted, putting back what was removed. */
  ghost function InverseChanges(s: string, changes: seq<TextChange>, previousTo: nat, shift: int): seq<TextChange>
    requires AcceptableFrom(s, changes, previousTo) && 0 <= previousTo + shift
    decreases changes
  {
    if changes == [] then []
    else
      var c := changes[0];
      BoundariesKeepOrder(s, c.fromUtf16, c.toUtf16);
      var inserted := Length(Utf16, c.insert);
      [InverseChange(s, c, shift)]
      + InverseChanges(s, changes[1..], c.toUtf16, shift + inserted - (c.toUtf16 - c.fromUtf16))
  }

  ghost function InverseChange(s: string, c: TextChange, shift: int): TextChange
    requires AcceptableChange(s, c) && 0 <= c.fromUtf16 + shift
  {
    var e := ResolveOne(s, c);
    BoundariesKeepOrder(s, c.fromUtf16, c.toUtf16);
    TextChange(c.fromUtf16 + shift, c.fromUtf16 + shift + Length(Utf16, c.insert), s[e.from..e.to])
  }

  ghost function InverseTransaction(s: string, transaction: Transaction): Transaction
    requires Accepts(s, transaction)
  {
    Transaction(Length(Utf16, After(s, transaction)), InverseChanges(s, transaction.changes, 0, 0))
  }

  /** From `pos` on, where the result `u` has reached `at`: the inverse changes resolve on the
      result to the inverse edits. */
  lemma {:induction false} InverseResolves(
    s: string, changes: seq<TextChange>, previousTo: nat, pos: nat, u: string, at: nat, shift: int)
    requires '\r' !in s
    requires AcceptableFrom(s, changes, previousTo) && ToChar(s, previousTo) == Some(pos)
    requires Ordered(Resolve(s, changes, previousTo), pos, |s|)
    requires at <= |u| && u[at..] == Substitute(s, pos, Resolve(s, changes, previousTo))
    requires 0 <= previousTo + shift == Length(Utf16, u[..at])
    ensures var inverse := InverseChanges(s, changes, previousTo, shift);
      AcceptableFrom(u, inverse, previousTo + shift) &&
      Resolve(u, inverse, previousTo + shift) == Inverse(s, pos, Resolve(s, changes, previousTo), at)
    decreases changes
  {
    hide StrictIndex, Encode;
    if changes != [] {
      var c, rest := changes[0], changes[1..];
      var e, edits := ResolveOne(s, c), Resolve(s, rest, c.toUtf16);
      assert Resolve(s, changes, previousTo)[1..] == edits;
      BoundariesKeepOrder(s, previousTo, c.fromUtf16);
      BoundariesKeepOrder(s, c.fromUtf16, c.toUtf16);
      OrderedBound(edits, e.to, |s|);
      var next := shift + Length(Utf16, c.insert) - (c.toUtf16 - c.fromUtf16);
      var to := at + (e.from - pos) + |c.insert|;
      InverseResolvesOne(s, c, previousTo, pos, u, at, shift, Substitute(s, e.to, edits));
      InverseResolves(s, rest, c.toUtf16, e.to, u, to, next);
      var first, others := InverseChange(s, c, shift), InverseChanges(s, rest, c.toUtf16, next);
      var inverse := [first] + others;
      assert InverseChanges(s, changes, previousTo, shift) == inverse;
      assert inverse[0] == first && inverse[1..] == others;
    }
  }

  lemma InverseResolvesOne(
    s: string, c: TextChange, previousTo: nat, pos: nat, u: string, at: nat, shift: int, tail: string)
    requires '\r' !in s
    requires previousTo <= c.fromUtf16 && ToChar(s, previousTo) == Some(pos)
    requires AcceptableChange(s, c)
    requires var e := ResolveOne(s, c);
      pos <= e.from <= e.to <= |s| && at <= |u| && u[at..] == s[pos..e.from] + e.insert + tail
    requires 0 <= previousTo + shift == Length(Utf16, u[..at])
    ensures var e := ResolveOne(s, c); var from := at + (e.from - pos); var to := from + |c.insert|;
      && AcceptableChange(u, InverseChange(s, c, shift))
      && ResolveOne(u, InverseChange(s, c, shift)) == Edit(from, to, s[e.from..e.to])
      && to <= |u| && u[to..] == tail
      && Length(Utf16, u[..to]) == c.fromUtf16 + shift + Length(Utf16, c.insert)
  {
    hide StrictIndex, Encode;
    var e := ResolveOne(s, c);
    BoundariesKeepOrder(s, previousTo, c.fromUtf16);
    BoundariesKeepOrder(s, c.fromUtf16, c.toUtf16);
    InverseBoundaries(u, at, s[pos..e.from], c.insert, tail);
    assert s[..e.from] == s[..pos] + s[pos..e.from];
    EncodeConcat(Utf16, s[..pos], s[pos..e.from]);
  }

  /** Offsets of the cuts in a text whose part from `at` on is head, middle and tail. */
  lemma InverseBoundaries(u: string, at: nat, head: string, middle: string, tail: string)
    requires at <= |u| && u[at..] == head + middle + tail
    ensures var from := at + |head|; var to := from + |middle|; var base := Length(Utf16, u[..at]);
      && u[to..] == tail
      && ToChar(u, base + Length(Utf16, head)) == Some(from)
      && ToChar(u, base + Length(Utf16, head) + Length(Utf16, middle)) == Some(to)
      && Length(Utf16, u[..to]) == base + Length(Utf16, head) + Length(Utf16, middle)
  {
    assert head + middle + tail == head + (middle + tail);
    CutOffset(u, at, head, middle + tail);
    CutOffset(u, at + |head|, middle, tail);
  }

  lemma CutOffset(u: string, at: nat, head: string, tail: string)
    requires at <= |u| && u[at..] == head + tail
    ensures var to, offset := at + |head|, Length(Utf16, u[..at]) + Length(Utf16, head);
      to <= |u| && u[to..] == tail && ToChar(u, offset) == Some(to) && Length(Utf16, u[..to]) == offset
  {
    var to := at + |head|;
    assert u[at..][..|head|] == head && u[to..] == u[at..][|head|..];
    assert u[..to] == u[..at] + head;
    EncodeConcat(Utf16, u[..at], head);
    StrictIndexExact(Utf16, u, Length(Utf16, u[..to]), to);
  }

  /** Every accepted transaction on a canonical text can be undone: its inverse is accepted on the
      result and restores the text. */
  lemma InverseUndoes(s: string, transaction: Transaction)
    requires Accepts(s, transaction) && '\r' !in s
    ensures var u, inverse := After(s, transaction), InverseTransaction(s, transaction);
      Accepts(u, inverse) && After(u, inverse) == s
  {
    var changes, edits := transaction.changes, EditsOf(s, transaction);
    var u := After(s, transaction);
    ZeroIsABoundary(s);
    assert u[0..] == u && u[..0] == [] && s[0..] == s;
    InverseResolves(s, changes, 0, 0, u, 0, 0);
    InverseRestores(s, 0, edits, u, 0);
  }

  lemma {:induction false} SubstituteKeepsLf(s: string, pos: nat, edits: seq<Edit<char>>)
    requires Ordered(edits, pos, |s|) && '\r' !in s
    requires forall k :: 0 <= k < |edits| ==> '\r' !in edits[k].insert
    ensures '\r' !in Substitute(s, pos, edits)
    decreases edits
  {
    OrderedBound(edits, pos, |s|);
    if edits != [] {
      assert forall k :: 0 < k < |edits| ==> edits[1..][k - 1] == edits[k];
      assert forall k :: 0 <= k < |edits[1..]| ==> edits[1..][k] == edits[k + 1];
      SubstituteKeepsLf(s, edits[0].to, edits[1..]);
    }
  }

  lemma AfterKeepsLf(s: string, transaction: Transaction)
    requires Accepts(s, transaction) && '\r' !in s
    ensures '\r' !in After(s, transaction)
  {
    ResolvedElements(s, transaction.changes, 0);
    SubstituteKeepsLf(s, 0, EditsOf(s, transaction));
  }
}
