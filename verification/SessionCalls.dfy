/** The same sections with every public call run without interruption, and what that adds: the
    pending link and the finality of statuses. Then, section by section, exactly when an
    interrupted call keeps them. */
module SessionCalls {
  import opened Wrappers
  import opened EditorDocuments
  import opened Sessions
  import opened SessionProtocol

  datatype Call =
    | COpen(text: string, isDirty: bool, names: FileNames, visible: bool, fingerprint: Option<string>)
    | CSync(session: nat, revision: u64, names: FileNames, content: string, isDirty: bool)
    | CBatch(session: nat, batch: Batch)
    | CMarkSaved(session: nat, revisionOpt: Option<u64>, names: FileNames, fingerprint: Option<string>)
    | CPropose(session: nat, revision: u64, kind: ProposalKind)
    | CReject(pid: nat)
    | CAccept(pid: nat, current: string)
    | CCommit(session: nat, renamed: Option<RenamedFile>)
    | CCancel(session: nat)
    | CRender(session: nat, revision: u64)

  /** Accepting from start to end: read, for a file operation check the file, then the last section,
      and mark the proposal stale when its revision has passed. `current` is the fingerprint the
      file has on disk. */
  ghost function AcceptCall(st: State, pid: nat, current: string): State {
    if pid !in st.proposals || !st.proposals[pid].status.Pending? then st
    else
      var p := st.proposals[pid];
      if p.kind.TextEdit? then Conclude(st, pid, None)
      else if p.session !in st.sessions then st
      else
        var s := st.sessions[p.session];
        if s.document.revision != p.baseRevision then MarkStale(st, pid, p.session)
        else if s.rootId.None? || s.relativePath.None? then st
        else if s.fingerprint.Some? && s.fingerprint.value != current then st
        else Conclude(st, pid, Some(FileStamp(Place(s.rootId.value, s.relativePath.value), current)))
  }

  ghost function Conclude(st: State, pid: nat, stamp: Option<FileStamp>): State
    requires pid in st.proposals
  {
    var (st', outcome) := FinishAccept(st, pid, st.proposals[pid], stamp);
    if outcome.OutOfDate? then MarkStale(st', pid, st.proposals[pid].session) else st'
  }

  function CommitCall(st: State, id: nat, renamed: Option<RenamedFile>): State {
    if id !in st.sessions || st.sessions[id].staged.None? then st
    else
      var stage := st.sessions[id].staged.value;
      if stage.kind.StagedRename? != renamed.Some? then st
      else FinishCommit(st, id, stage, st.sessions[id].document.text, renamed).0
  }

  ghost function Perform(st: State, call: Call): State {
    match call
    case COpen(text, isDirty, names, visible, fingerprint) =>
      if st.nextId == U64_MAX then st else Open(st, NewSession(text, isDirty, names, visible, fingerprint))
    case CSync(id, revision, names, content, isDirty) => Sync(st, id, revision, names, content, isDirty).0
    case CBatch(id, batch) => ApplyBatch(st, id, batch).0
    case CMarkSaved(id, revision, names, fingerprint) => MarkSaved(st, id, revision, names, fingerprint).0
    case CPropose(id, revision, kind) => if st.nextId == U64_MAX then st else CreateProposal(st, id, revision, kind).0
    case CReject(pid) => Reject(st, pid).0
    case CAccept(pid, current) => AcceptCall(st, pid, current)
    case CCommit(id, renamed) => CommitCall(st, id, renamed)
    case CCancel(id) => CancelStaged(st, id).0
    case CRender(id, revision) =>
      var (st', r) := BeginRender(st, id, revision); if r.Ok? then FinishRender(st', id, revision).0 else st
  }

  ghost function PerformAll(st: State, calls: seq<Call>): State
    decreases calls
  {
    if calls == [] then st else PerformAll(Perform(st, calls[0]), calls[1..])
  }

  /** A session's pending id is p exactly when proposal p of that session is pending. */
  ghost predicate Linked(st: State) {
    && (forall id :: id in st.sessions && st.sessions[id].pending.Some? ==>
          var pid := st.sessions[id].pending.value;
          pid in st.proposals && st.proposals[pid].session == id && st.proposals[pid].status == Pending)
    && (forall pid :: pid in st.proposals && st.proposals[pid].status == Pending ==>
          var id := st.proposals[pid].session; id in st.sessions && st.sessions[id].pending == Some(pid))
  }

  ghost predicate IdsBounded(st: State) {
    (forall id :: id in st.sessions ==> id <= st.nextId) && (forall pid :: pid in st.proposals ==> pid <= st.nextId)
  }

  /** Accepted, rejected and stale are final. */
  ghost predicate Final(st: State, st': State) {
    forall pid :: pid in st.proposals ==>
      pid in st'.proposals
        && (st.proposals[pid].status != Pending ==> st'.proposals[pid].status == st.proposals[pid].status)
  }

  /** At most one session changed, and its link did not. */
  ghost predicate KeepsLinks(st: State, st': State) {
    && st'.proposals == st.proposals && st'.nextId == st.nextId && st'.sessions.Keys == st.sessions.Keys
    && forall id :: id in st.sessions ==> st'.sessions[id].pending == st.sessions[id].pending
  }

  lemma KeptLinks(st: State, st': State)
    requires Linked(st) && IdsBounded(st) && KeepsLinks(st, st')
    ensures Linked(st') && IdsBounded(st') && Final(st, st')
  {
  }

  lemma OtherCallsKeepLinks(st: State, call: Call)
    requires !call.COpen? && !call.CPropose? && !call.CReject? && !call.CAccept?
    ensures KeepsLinks(st, Perform(st, call))
  {
    hide Sync, ApplyBatch, CommitCall, KeepsLinks, WithTouch, AsSaved;
    match call {
      case CSync(id, revision, names, content, isDirty) => SyncKeepsLinks(st, id, revision, names, content, isDirty);
      case CBatch(id, batch) => BatchKeepsLinks(st, id, batch);
      case CCommit(id, renamed) => CommitKeepsLinks(st, id, renamed);
      case CMarkSaved(id, revision, names, fingerprint) => SavedKeepsLinks(st, id, revision, names, fingerprint);
      case CCancel(id) => CancelKeepsLinks(st, id);
      case CRender(id, revision) => RenderCallKeepsLinks(st, id, revision);
    }
  }

  lemma SavedKeepsLinks(st: State, id: nat, revision: Option<u64>, names: FileNames, fingerprint: Option<string>)
    ensures KeepsLinks(st, MarkSaved(st, id, revision, names, fingerprint).0)
  {
    hide AsSaved;
  }

  lemma CancelKeepsLinks(st: State, id: nat)
    ensures KeepsLinks(st, CancelStaged(st, id).0)
  {
    hide WithTouch;
  }

  lemma RenderCallKeepsLinks(st: State, id: nat, revision: u64)
    ensures KeepsLinks(st, Perform(st, CRender(id, revision)))
  {
  }

  lemma NothingKeepsLinks(st: State)
    ensures KeepsLinks(st, st)
  {
  }

  lemma SyncKeepsLinks(st: State, id: nat, revision: u64, names: FileNames, content: string, isDirty: bool)
    ensures KeepsLinks(st, Sync(st, id, revision, names, content, isDirty).0)
  {
    hide WithText;
  }

  lemma BatchKeepsLinks(st: State, id: nat, batch: Batch)
    ensures KeepsLinks(st, ApplyBatch(st, id, batch).0)
  {
    hide Apply, SingleChangeImpact;
  }

  lemma CommitKeepsLinks(st: State, id: nat, renamed: Option<RenamedFile>)
    ensures KeepsLinks(st, CommitCall(st, id, renamed))
  {
    hide WithTouch, WithDirty;
  }

  /** A pending proposal leaves that status and its session's link is cleared. */
  lemma SettlingKeepsLinked(st: State, pid: nat, status: ProposalStatus, st': State)
    requires Linked(st) && IdsBounded(st) && pid in st.proposals && st.proposals[pid].status == Pending
      && status != Pending
    requires var id := st.proposals[pid].session;
      && id in st'.sessions && st'.nextId == st.nextId
      && st'.proposals == st.proposals[pid := st.proposals[pid].(status := status)]
      && st'.sessions == st.sessions[id := st'.sessions[id]] && st'.sessions[id].pending == None
    ensures Linked(st') && IdsBounded(st') && Final(st, st')
  {
  }

  lemma AcceptKeepsLinked(st: State, pid: nat, current: string)
    requires Linked(st) && IdsBounded(st)
    ensures var st' := AcceptCall(st, pid, current); Linked(st') && IdsBounded(st') && Final(st, st')
  {
    hide Linked, IdsBounded, Final, Conclude;
    KeptLinks(st, st);
    if pid in st.proposals && st.proposals[pid].status == Pending {
      LinkAt(st, pid);
      forall stamp { ConcludeKeepsLinked(st, pid, stamp); }
      SettlingKeepsLinked(st, pid, Stale, MarkStale(st, pid, st.proposals[pid].session));
    }
  }

  lemma ConcludeKeepsLinked(st: State, pid: nat, stamp: Option<FileStamp>)
    requires Linked(st) && IdsBounded(st) && pid in st.proposals && st.proposals[pid].status == Pending
    ensures var st' := Conclude(st, pid, stamp); Linked(st') && IdsBounded(st') && Final(st, st')
  {
    var st' := Conclude(st, pid, stamp);
    FinishAcceptShape(st, pid, st.proposals[pid], stamp);
    LinkAt(st, pid);
    hide Linked, IdsBounded, Final, FinishAccept;
    if st' == st {
      KeptLinks(st, st);
    } else {
      SettlingKeepsLinked(st, pid, st'.proposals[pid].status, st');
    }
  }

  /** The last section either leaves the state alone or accepts and unlinks. */
  lemma FinishAcceptShape(st: State, pid: nat, copy: Proposal, stamp: Option<FileStamp>)
    ensures var (st', outcome) := FinishAccept(st, pid, copy, stamp); var id := copy.session;
      if outcome.Done? then
        && pid in st.proposals && id in st.sessions && id in st'.sessions && st'.nextId == st.nextId
        && st'.proposals == st.proposals[pid := st.proposals[pid].(status := Accepted)]
        && st'.sessions == st.sessions[id := st'.sessions[id]] && st'.sessions[id].pending.None?
      else st' == st
  {
    hide ContentHash, Accepting;
    if copy.session in st.sessions { AcceptingClears(st.sessions[copy.session], copy.kind, stamp); }
  }

  lemma LinkAt(st: State, pid: nat)
    requires Linked(st) && pid in st.proposals && st.proposals[pid].status == Pending
    ensures var id := st.proposals[pid].session; id in st.sessions && st.sessions[id].pending == Some(pid)
  {
  }

  lemma AcceptingClears(s: Session, kind: ProposalKind, stamp: Option<FileStamp>)
    ensures Accepting(s, kind, stamp).Ok? ==> Accepting(s, kind, stamp).value.pending.None?
  {
  }

  lemma RejectKeepsLinked(st: State, pid: nat)
    requires Linked(st) && IdsBounded(st)
    ensures var st' := Reject(st, pid).0; Linked(st') && IdsBounded(st') && Final(st, st')
  {
    var (st', r) := Reject(st, pid);
    hide Linked, IdsBounded, Final;
    if r.Ok? {
      LinkAt(st, pid);
      SettlingKeepsLinked(st, pid, Rejected, st');
    } else {
      KeptLinks(st, st);
    }
  }

  lemma ProposeKeepsLinked(st: State, id: nat, revision: u64, kind: ProposalKind)
    requires Linked(st) && IdsBounded(st) && st.nextId < U64_MAX
    ensures var st' := CreateProposal(st, id, revision, kind).0; Linked(st') && IdsBounded(st') && Final(st, st')
  {
    hide Propose, ContentHash;
  }

  lemma OpenKeepsLinked(st: State, s: Session)
    requires Linked(st) && IdsBounded(st) && st.nextId < U64_MAX && s.pending.None?
    ensures var st' := Open(st, s); Linked(st') && IdsBounded(st') && Final(st, st')
  {
    hide Consistent;
  }

  lemma PerformKeepsLinked(st: State, call: Call)
    requires Linked(st) && IdsBounded(st)
    ensures var st' := Perform(st, call); Linked(st') && IdsBounded(st') && Final(st, st')
  {
    KeptLinks(st, st);
    if call.COpen? || call.CPropose? || call.CReject? || call.CAccept? {
      hide Linked, IdsBounded, Final, Open, CreateProposal, Reject, AcceptCall, NewSession;
      match call {
        case COpen(text, isDirty, names, visible, fingerprint) =>
          NewSessionIsUnlinked(text, isDirty, names, visible, fingerprint);
          if st.nextId < U64_MAX { OpenKeepsLinked(st, NewSession(text, isDirty, names, visible, fingerprint)); }
        case CPropose(id, revision, kind) => if st.nextId < U64_MAX { ProposeKeepsLinked(st, id, revision, kind); }
        case CReject(pid) => RejectKeepsLinked(st, pid);
        case CAccept(pid, current) => AcceptKeepsLinked(st, pid, current);
      }
    } else {
      OtherCallsKeepLinks(st, call);
      hide Perform;
      KeptLinks(st, Perform(st, call));
    }
  }

  lemma NewSessionIsUnlinked(text: string, isDirty: bool, names: FileNames, visible: bool, fingerprint: Option<string>)
    ensures NewSession(text, isDirty, names, visible, fingerprint).pending.None?
  {
  }

  /** With public calls atomic, in every reachable state the link is exact, and no proposal ever
      leaves Accepted, Rejected or Stale. */
  lemma {:induction false} CallsKeepLinked(st: State, calls: seq<Call>)
    requires Linked(st) && IdsBounded(st)
    ensures var st' := PerformAll(st, calls); Linked(st') && IdsBounded(st') && Final(st, st')
    decreases calls
  {
    if calls == [] {
      KeptLinks(st, st);
    } else {
      var next := Perform(st, calls[0]);
      PerformKeepsLinked(st, calls[0]);
      hide Perform, Linked, IdsBounded;
      CallsKeepLinked(next, calls[1..]);
    }
  }

  ghost predicate AtMostOnePending(st: State) {
    forall p, q ::
      (p in st.proposals && q in st.proposals && st.proposals[p].session == st.proposals[q].session
       && st.proposals[p].status == st.proposals[q].status == Pending) ==> p == q
  }

  lemma LinkedFromTheStart(calls: seq<Call>)
    ensures Linked(PerformAll(EMPTY, calls))
    ensures AtMostOnePending(PerformAll(EMPTY, calls))
  {
    CallsKeepLinked(EMPTY, calls);
    var st := PerformAll(EMPTY, calls);
    hide PerformAll;
    forall p, q | p in st.proposals && q in st.proposals && st.proposals[p].session == st.proposals[q].session
      && st.proposals[p].status == st.proposals[q].status == Pending
      ensures p == q
    {
      LinkAt(st, p);
      LinkAt(st, q);
    }
  }

  /** The session's link is free, or this proposal's. */
  predicate LinkIsOurs(st: State, pid: nat, id: nat) {
    id in st.sessions ==> st.sessions[id].pending.None? || st.sessions[id].pending == Some(pid)
  }

  /** Marking stale on its own, after others ran: the link stays exact exactly when the session is
      not linked to another proposal by now. */
  lemma MarkStaleKeepsLinkedIff(st: State, pid: nat)
    requires Linked(st) && pid in st.proposals
    ensures var id := st.proposals[pid].session;
      Linked(MarkStale(st, pid, id)) <==> LinkIsOurs(st, pid, id)
  {
    var id := st.proposals[pid].session;
    var st' := MarkStale(st, pid, id);
    if id in st.sessions && st.sessions[id].pending.Some? && st.sessions[id].pending != Some(pid) {
      var other := st.sessions[id].pending.value;
      assert st'.proposals[other].status == Pending && st'.sessions[id].pending.None?;
      assert !Linked(st');
    }
  }

  /** And no final status is overwritten exactly when this one is not accepted or rejected by now. */
  lemma MarkStaleIsFinalIff(st: State, pid: nat)
    requires pid in st.proposals
    ensures Final(st, MarkStale(st, pid, st.proposals[pid].session)) <==>
      st.proposals[pid].status == Pending || st.proposals[pid].status == Stale
  {
    var st' := MarkStale(st, pid, st.proposals[pid].session);
    assert st'.proposals[pid].status == Stale;
  }

  /** The last section of accepting overwrites no final status exactly when this one is not rejected or
      stale by now. */
  lemma FinishAcceptIsFinalIff(st: State, pid: nat, copy: Proposal, stamp: Option<FileStamp>)
    requires pid in st.proposals && FinishAccept(st, pid, copy, stamp).1.Done?
    ensures Final(st, FinishAccept(st, pid, copy, stamp).0) <==>
      st.proposals[pid].status == Pending || st.proposals[pid].status == Accepted
  {
    hide FinishAccept;
    FinishAcceptShape(st, pid, copy, stamp);
    assert FinishAccept(st, pid, copy, stamp).0.proposals[pid].status == Accepted;
  }

  /** The last section of accepting, likewise. */
  lemma FinishAcceptKeepsLinkedIff(st: State, pid: nat, copy: Proposal, stamp: Option<FileStamp>)
    requires Linked(st) && pid in st.proposals && SameProposal(copy, st.proposals[pid])
    requires FinishAccept(st, pid, copy, stamp).1.Done?
    ensures Linked(FinishAccept(st, pid, copy, stamp).0) <==> LinkIsOurs(st, pid, copy.session)
    ensures Final(st, FinishAccept(st, pid, copy, stamp).0) <==>
      st.proposals[pid].status == Pending || st.proposals[pid].status == Accepted
  {
    var id := copy.session;
    var st' := FinishAccept(st, pid, copy, stamp).0;
    hide FinishAccept;
    FinishAcceptShape(st, pid, copy, stamp);
    FinishAcceptIsFinalIff(st, pid, copy, stamp);
    if st.sessions[id].pending.Some? && st.sessions[id].pending != Some(pid) {
      var other := st.sessions[id].pending.value;
      assert st'.proposals[other].status == Pending;
      assert !Linked(st');
    }
  }

  /** The proposal that a section is about to settle from what its call read earlier. */
  ghost function Settles(w: World, a: Action): Option<nat> {
    if a.AcceptFinish? && a.call in w.frames && w.frames[a.call].AcceptFrame? then
      var f := w.frames[a.call];
      if (f.copy.kind.TextEdit? || f.stamp.Some?) && FinishAccept(w.state, f.pid, f.copy, f.stamp).1.Done?
        then Some(f.pid)
      else None
    else if a.StaleFinish? && a.call in w.frames && w.frames[a.call].StaleFrame? then Some(w.frames[a.call].pid)
    else None
  }

  /** Whatever section runs, the links stay exact, except that the two sections that settle a proposal keep
      them exactly when its session is not linked to another proposal by now. */
  lemma NextKeepsLinkedIff(w: World, a: Action)
    requires Inv(w) && Linked(w.state)
    ensures Settles(w, a).Some? ==> Settles(w, a).value in w.state.proposals
    ensures var settled := Settles(w, a);
      Linked(Next(w, a).state) <==>
        (settled.Some? ==> LinkIsOurs(w.state, settled.value, w.state.proposals[settled.value].session))
  {
    hide Linked, Inv, LinkIsOurs;
    if Settles(w, a).Some? {
      SettlingSection(w, a);
    } else {
      InvBounds(w);
      OtherSectionsKeepLinked(w, a);
    }
  }

  /** What a settling section makes of its proposal. */
  ghost function SettledAs(a: Action): ProposalStatus {
    if a.StaleFinish? then Stale else Accepted
  }

  /** Whatever section runs, no final status is left, except that the two settling sections overwrite one
      exactly when their proposal has been settled otherwise by now. */
  lemma NextIsFinalIff(w: World, a: Action)
    requires Inv(w)
    ensures Settles(w, a).Some? ==> Settles(w, a).value in w.state.proposals
    ensures var settled := Settles(w, a);
      Final(w.state, Next(w, a).state) <==>
        (settled.Some? ==> w.state.proposals[settled.value].status in {Pending, SettledAs(a)})
  {
    hide Inv, Final;
    if Settles(w, a).Some? {
      SettlingIsFinalIff(w, a);
    } else {
      InvBounds(w);
      OtherSectionsAreFinal(w, a);
    }
  }

  lemma SettlingIsFinalIff(w: World, a: Action)
    requires Inv(w) && Settles(w, a).Some?
    ensures var pid := Settles(w, a).value;
      pid in w.state.proposals
      && (Final(w.state, Next(w, a).state) <==> w.state.proposals[pid].status in {Pending, SettledAs(a)})
  {
    hide Final, Inv, FinishAccept, MarkStale, Record;
    var f := w.frames[a.call];
    InvRefers(w, a.call);
    if a.AcceptFinish? {
      FinishAcceptIsFinalIff(w.state, f.pid, f.copy, f.stamp);
    } else {
      MarkStaleIsFinalIff(w.state, f.pid);
    }
  }

  lemma OtherSectionsAreFinal(w: World, a: Action)
    requires IdsBounded(w.state) && Settles(w, a).None?
    ensures Final(w.state, Next(w, a).state)
  {
    hide *;
    if CallOf(w, a).Some? {
      CallRunsTheSection(w, a);
      CallIsFinal(w.state, CallOf(w, a).value);
    } else {
      NoCallKeepsLinks(w, a);
      KeptFinal(w.state, Next(w, a).state);
    }
  }

  lemma KeptFinal(st: State, st': State)
    requires KeepsLinks(st, st')
    ensures Final(st, st')
  {
  }

  lemma CallIsFinal(st: State, call: Call)
    requires IdsBounded(st) && !call.CAccept?
    ensures Final(st, Perform(st, call))
  {
    if call.COpen? || call.CPropose? || call.CReject? {
      hide NewSession, Propose, ContentHash;
    } else {
      OtherCallsKeepLinks(st, call);
      hide Perform;
      KeptFinal(st, Perform(st, call));
    }
  }

  lemma InvBounds(w: World)
    requires Inv(w)
    ensures IdsBounded(w.state)
  {
  }

  lemma InvRefers(w: World, call: nat)
    requires Inv(w) && call in w.frames
    ensures Refers(w.state, w.frames[call])
  {
  }

  lemma SettlingSection(w: World, a: Action)
    requires Inv(w) && Linked(w.state) && Settles(w, a).Some?
    ensures var pid := Settles(w, a).value;
      pid in w.state.proposals
      && (Linked(Next(w, a).state) <==> LinkIsOurs(w.state, pid, w.state.proposals[pid].session))
  {
    hide Linked, Inv, LinkIsOurs, FinishAccept, MarkStale, Record;
    var f := w.frames[a.call];
    InvRefers(w, a.call);
    if a.AcceptFinish? {
      FinishAcceptKeepsLinkedIff(w.state, f.pid, f.copy, f.stamp);
    } else {
      MarkStaleKeepsLinkedIff(w.state, f.pid);
    }
  }

  /** The public call that runs the same section, if there is one. */
  ghost function CallOf(w: World, a: Action): Option<Call> {
    match a
    case OpenSession(text, isDirty, names, visible, fingerprint) =>
      Some(COpen(text, isDirty, names, visible, fingerprint))
    case SyncSession(id, revision, names, content, isDirty) => Some(CSync(id, revision, names, content, isDirty))
    case DeliverBatch(id, batch) => Some(CBatch(id, batch))
    case MarkSessionSaved(id, revision, names, fingerprint) => Some(CMarkSaved(id, revision, names, fingerprint))
    case CreateSessionProposal(id, revision, kind) => Some(CPropose(id, revision, kind))
    case RejectProposal(pid) => Some(CReject(pid))
    case Cancel(id) => Some(CCancel(id))
    case SaveMark(call, names, fingerprint) =>
      if call in w.frames && w.frames[call].WrittenFrame? then
        Some(CMarkSaved(w.frames[call].session, Some(w.frames[call].snapshot.revision), names, fingerprint))
      else None
    case _ => None
  }

  lemma CallRunsTheSection(w: World, a: Action)
    requires CallOf(w, a).Some?
    ensures !CallOf(w, a).value.CAccept?
    ensures Next(w, a).state == Perform(w.state, CallOf(w, a).value)
  {
    hide Open, CreateProposal, Reject, NewSession, Sync, ApplyBatch, MarkSaved, CancelStaged, Record;
  }

  lemma NoCallKeepsLinks(w: World, a: Action)
    requires CallOf(w, a).None? && Settles(w, a).None?
    ensures KeepsLinks(w.state, Next(w, a).state)
  {
    hide FinishAccept, MarkStale, MarkSaved, FinishCommit, BeginRender, FinishRender, Record, CheckFile, TakeSnapshot,
      KeepsLinks;
    var st := w.state;
    NothingKeepsLinks(st);
    match a {
      case AcceptFinish(call) =>
        if call in w.frames && w.frames[call].AcceptFrame? {
          FinishAcceptShape(st, w.frames[call].pid, w.frames[call].copy, w.frames[call].stamp);
        }
      case CommitFinish(call, renamed) =>
        if call in w.frames && w.frames[call].CommitFrame? {
          FinishCommitKeepsLinks(st, w.frames[call].session, w.frames[call].stage, w.frames[call].content, renamed);
        }
      case RenderRead(call, id, revision) => RenderKeepsLinks(st, id, revision);
      case RenderFinish(call) =>
        if call in w.frames && w.frames[call].RenderFrame? {
          RenderKeepsLinks(st, w.frames[call].session, w.frames[call].revision);
        }
      case _ =>
    }
  }

  lemma OtherSectionsKeepLinked(w: World, a: Action)
    requires Linked(w.state) && IdsBounded(w.state) && Settles(w, a).None?
    ensures Linked(Next(w, a).state)
  {
    hide *;
    if CallOf(w, a).Some? {
      CallRunsTheSection(w, a);
      PerformKeepsLinked(w.state, CallOf(w, a).value);
    } else {
      NoCallKeepsLinks(w, a);
      KeptLinks(w.state, Next(w, a).state);
    }
  }

  lemma FinishCommitKeepsLinks(st: State, id: nat, stage: StagedOperation, content: string,
                               renamed: Option<RenamedFile>)
    ensures KeepsLinks(st, FinishCommit(st, id, stage, content, renamed).0)
  {
    hide WithTouch, WithDirty;
  }

  lemma RenderKeepsLinks(st: State, id: nat, revision: u64)
    ensures KeepsLinks(st, BeginRender(st, id, revision).0) && KeepsLinks(st, FinishRender(st, id, revision).0)
  {
  }
}
