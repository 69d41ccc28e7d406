/** The promise chain that serializes operations when the browser has no lock manager: each
    arrival waits for the promise that was the tail of its name, and becomes the tail. */
module StateLock {
  import opened Wrappers

  datatype Phase = Waiting | Running | Finished

  /** `previous` is the request whose promise was the tail at arrival. */
  datatype Request = Request(name: string, previous: Option<nat>, phase: Phase)

  datatype Lock = Lock(requests: seq<Request>, tails: map<string, nat>)

  datatype Event = Arrive(name: string) | Start(index: nat) | Finish(index: nat)

  /** The promise of request `i` settles once its own gate is released and the one before settled.
      How the operations end, with a value or an error, makes no difference. */
  predicate Settled(requests: seq<Request>, i: nat)
    decreases i
  {
    && i < |requests| && requests[i].phase.Finished?
    && (requests[i].previous.Some? ==> requests[i].previous.value < i && Settled(requests, requests[i].previous.value))
  }

  predicate CanStart(l: Lock, i: nat) {
    && i < |l.requests| && l.requests[i].phase.Waiting?
    && (l.requests[i].previous.Some? ==> Settled(l.requests, l.requests[i].previous.value))
  }

  function Next(l: Lock, e: Event): Lock {
    match e
    case Arrive(name) =>
      var previous := if name in l.tails then Some(l.tails[name]) else None;
      Lock(l.requests + [Request(name, previous, Waiting)], l.tails[name := |l.requests|])
    case Start(i) =>
      if CanStart(l, i) then l.(requests := l.requests[i := l.requests[i].(phase := Running)]) else l
    case Finish(i) =>
      if i < |l.requests| && l.requests[i].phase.Running? then
        var name := l.requests[i].name;
        var requests := l.requests[i := l.requests[i].(phase := Finished)];
        Lock(requests, if name in l.tails && l.tails[name] == i then l.tails - {name} else l.tails)
      else l
  }

  function Run(l: Lock, events: seq<Event>): Lock
    decreases events
  {
    if events == [] then l else Run(Next(l, events[0]), events[1..])
  }

  const IDLE := Lock([], map[])

  class LockTable {
    var requests: seq<Request>
    var tails: map<string, nat>

    function State(): Lock
      reads this
    {
      Lock(requests, tails)
    }

    constructor ()
      ensures State() == IDLE
    {
      requests, tails := [], map[];
    }

    method Enter(name: string) returns (index: nat)
      modifies this
      ensures State() == Next(old(State()), Arrive(name)) && index == old(|requests|)
    {
      index := |requests|;
      var previous := if name in tails then Some(tails[name]) else None;
      requests := requests + [Request(name, previous, Waiting)];
      tails := tails[name := index];
    }

    method Begin(index: nat)
      requires CanStart(State(), index)
      modifies this
      ensures State() == Next(old(State()), Start(index))
    {
      requests := requests[index := requests[index].(phase := Running)];
    }

    /** Releases the gate, and forgets the name when nobody queued up behind. */
    method Leave(index: nat)
      requires index < |requests| && requests[index].phase.Running?
      modifies this
      ensures State() == Next(old(State()), Finish(index))
    {
      var name := requests[index].name;
      requests := requests[index := requests[index].(phase := Finished)];
      if name in tails && tails[name] == index {
        tails := tails - {name};
      }
    }
  }

  /** Everything of this name before `i` has finished. */
  ghost predicate DoneBefore(l: Lock, name: string, i: nat) {
    forall k :: 0 <= k < i && k < |l.requests| && l.requests[k].name == name ==> l.requests[k].phase.Finished?
  }

  /** `p` is the last request of this name before `i`. */
  ghost predicate LastBefore(l: Lock, name: string, i: nat, p: nat) {
    && p < i <= |l.requests| && l.requests[p].name == name
    && forall k :: p < k < i ==> l.requests[k].name != name
  }

  /** Who a request waits for, and what is over once it waits for nobody or has started. */
  ghost predicate RequestOk(l: Lock, i: nat)
    requires i < |l.requests|
  {
    var r := l.requests[i];
    && (r.previous.Some? ==> LastBefore(l, r.name, i, r.previous.value))
    && (r.previous.None? || !r.phase.Waiting? ==> DoneBefore(l, r.name, i))
  }

  /** The tail of a name is its last request, and is not over. */
  ghost predicate TailOk(l: Lock, name: string)
    requires name in l.tails
  {
    LastBefore(l, name, |l.requests|, l.tails[name]) && !l.requests[l.tails[name]].phase.Finished?
  }

  ghost predicate Inv(l: Lock) {
    && (forall i :: 0 <= i < |l.requests| ==> RequestOk(l, i))
    && (forall name :: name in l.tails ==> TailOk(l, name))
    && (forall name :: name !in l.tails ==> DoneBefore(l, name, |l.requests|))
  }

  lemma {:induction false} SettledMeansDone(l: Lock, i: nat)
    requires Inv(l) && Settled(l.requests, i)
    ensures DoneBefore(l, l.requests[i].name, i + 1)
    decreases i
  {
    assert RequestOk(l, i);
    if l.requests[i].previous.Some? { SettledMeansDone(l, l.requests[i].previous.value); }
  }

  lemma NextKeepsInv(l: Lock, e: Event)
    requires Inv(l)
    ensures Inv(Next(l, e))
  {
    match e {
      case Arrive(name) => ArriveKeepsInv(l, name);
      case Start(i) => if CanStart(l, i) { StartKeepsInv(l, i); }
      case Finish(i) => if i < |l.requests| && l.requests[i].phase.Running? { FinishKeepsInv(l, i); }
    }
  }

  lemma ArriveKeepsInv(l: Lock, name: string)
    requires Inv(l)
    ensures Inv(Next(l, Arrive(name)))
  {
    var l' := Next(l, Arrive(name));
    forall k | 0 <= k < |l'.requests| ensures RequestOk(l', k) {
      if k < |l.requests| { assert RequestOk(l, k); }
    }
  }

  lemma StartKeepsInv(l: Lock, i: nat)
    requires Inv(l) && CanStart(l, i)
    ensures Inv(Next(l, Start(i)))
  {
    var l', r := Next(l, Start(i)), l.requests[i];
    assert RequestOk(l, i);
    if r.previous.Some? { SettledMeansDone(l, r.previous.value); }
    forall k | 0 <= k < |l'.requests| ensures RequestOk(l', k) {
      assert RequestOk(l, k);
    }
  }

  lemma FinishKeepsInv(l: Lock, i: nat)
    requires Inv(l) && i < |l.requests| && l.requests[i].phase.Running?
    ensures Inv(Next(l, Finish(i)))
  {
    var l', name := Next(l, Finish(i)), l.requests[i].name;
    assert RequestOk(l, i);
    forall k | 0 <= k < |l'.requests| ensures RequestOk(l', k) {
      assert RequestOk(l, k);
    }
    forall n | n !in l'.tails ensures DoneBefore(l', n, |l'.requests|) {
      if n != name { assert DoneBefore(l, n, |l.requests|); }
    }
  }

  lemma {:induction false} RunKeepsInv(l: Lock, events: seq<Event>)
    requires Inv(l)
    ensures Inv(Run(l, events))
    decreases events
  {
    hide Next, Inv;
    if events != [] {
      NextKeepsInv(l, events[0]);
      RunKeepsInv(Next(l, events[0]), events[1..]);
    }
  }

  /** Mutual exclusion and first-come order for each name, for any arrivals, completions and
      failures: whenever a request has started, everything of its name that came before it is over. */
  lemma FirstComeOneAtATime(events: seq<Event>)
    ensures var l := Run(IDLE, events);
      forall i, j :: (0 <= i < j < |l.requests| && l.requests[i].name == l.requests[j].name
                      && !l.requests[j].phase.Waiting?) ==> l.requests[i].phase.Finished?
  {
    RunKeepsInv(IDLE, events);
    var l := Run(IDLE, events);
    hide Run;
    forall i, j | 0 <= i < j < |l.requests| && l.requests[i].name == l.requests[j].name && !l.requests[j].phase.Waiting?
      ensures l.requests[i].phase.Finished?
    {
      assert RequestOk(l, j);
    }
  }

  /** In every reachable state a name has a tail exactly when some request of that name waits or runs. */
  lemma TailDroppedIffIdle(events: seq<Event>, name: string)
    ensures var l := Run(IDLE, events); name !in l.tails <==> DoneBefore(l, name, |l.requests|)
  {
    var l := Run(IDLE, events);
    RunKeepsInv(IDLE, events);
    hide Run;
    if name in l.tails { assert TailOk(l, name); }
  }

  /** No request is stuck: when nobody of a name is running, the first one waiting may start. */
  lemma FirstWaitingCanStart(events: seq<Event>, i: nat)
    requires var l := Run(IDLE, events);
      i < |l.requests| && l.requests[i].phase.Waiting? && DoneBefore(l, l.requests[i].name, i)
    ensures CanStart(Run(IDLE, events), i)
  {
    var l := Run(IDLE, events);
    RunKeepsInv(IDLE, events);
    hide Run;
    assert RequestOk(l, i);
    if l.requests[i].previous.Some? { DoneMeansSettled(l, l.requests[i].previous.value); }
  }

  lemma {:induction false} DoneMeansSettled(l: Lock, i: nat)
    requires Inv(l) && i < |l.requests| && DoneBefore(l, l.requests[i].name, i + 1)
    ensures Settled(l.requests, i)
    decreases i
  {
    assert RequestOk(l, i);
    if l.requests[i].previous.Some? { DoneMeansSettled(l, l.requests[i].previous.value); }
  }

  predicate AreFinished(l: Lock, n: nat) {
    n <= |l.requests| && forall k :: 0 <= k < n ==> l.requests[k].phase.Finished?
  }

  lemma StepFirst(l: Lock, e: Event, more: seq<Event>)
    ensures Run(l, [e] + more) == Run(Next(l, e), more) && Run(l, []) == l
  {
    hide Next;
    assert ([e] + more)[1..] == more;
  }

  lemma {:induction false} RunConcat(l: Lock, a: seq<Event>, b: seq<Event>)
    ensures Run(l, a + b) == Run(Run(l, a), b)
    decreases a
  {
    hide Next;
    if a == [] {
      assert a + b == b;
    } else {
      assert (a + b)[1..] == a[1..] + b;
      RunConcat(Next(l, a[0]), a[1..], b);
    }
  }

  lemma {:induction false} CanBeFinished(l: Lock, n: nat) returns (more: seq<Event>)
    requires Inv(l) && AreFinished(l, n)
    ensures var l' := Run(l, more);
      |l'.requests| == |l.requests| && AreFinished(l', |l'.requests|) && l'.tails == map[]
    decreases |l.requests| - n
  {
    hide Run;
    more := [];
    if n == |l.requests| {
      StepFirst(l, Start(0), []);
      assert forall name :: name in l.tails ==> TailOk(l, name);
      assert l.tails == map[];
    } else if l.requests[n].phase.Finished? {
      more := CanBeFinished(l, n + 1);
    } else {
      assert RequestOk(l, n);
      var l1 := l;
      if l.requests[n].phase.Waiting? {
        if l.requests[n].previous.Some? { DoneMeansSettled(l, l.requests[n].previous.value); }
        NextKeepsInv(l, Start(n));
        l1 := Next(l, Start(n));
      }
      NextKeepsInv(l1, Finish(n));
      more := CanBeFinished(Next(l1, Finish(n)), n + 1);
      StepFirst(l1, Finish(n), more);
      more := [Finish(n)] + more;
      if l1 != l {
        StepFirst(l, Start(n), more);
        more := [Start(n)] + more;
      }
    }
  }

  /** From every reachable state all requests can be brought to their end, in the order of their arrival, and then
      no name is kept any more. */
  lemma EveryRequestCanFinish(events: seq<Event>) returns (more: seq<Event>)
    ensures var l, l' := Run(IDLE, events), Run(IDLE, events + more);
      |l'.requests| == |l.requests| && AreFinished(l', |l'.requests|) && l'.tails == map[]
  {
    RunKeepsInv(IDLE, events);
    more := CanBeFinished(Run(IDLE, events), 0);
    RunConcat(IDLE, events, more);
  }
}
