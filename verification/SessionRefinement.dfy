/** The two models of the service agree: a public call whose sections run one after the other, with nothing
    between them, does to the state what the call does as one step. */
module SessionRefinement {
  import opened Wrappers
  import opened LineEndings
  import opened EditorDocuments
  import opened Sessions
  import opened SessionProtocol
  import opened SessionCalls

  /** The sections of a call, in their order; those that do not apply do nothing. */
  function SectionsOf(call: Call, frame: nat): seq<Action> {
    match call
    case COpen(text, isDirty, names, visible, fingerprint) => [OpenSession(text, isDirty, names, visible, fingerprint)]
    case CSync(id, revision, names, content, isDirty) => [SyncSession(id, revision, names, content, isDirty)]
    case CBatch(id, batch) => [DeliverBatch(id, batch)]
    case CMarkSaved(id, revision, names, fingerprint) => [MarkSessionSaved(id, revision, names, fingerprint)]
    case CPropose(id, revision, kind) => [CreateSessionProposal(id, revision, kind)]
    case CReject(pid) => [RejectProposal(pid)]
    case CAccept(pid, current) =>
      [AcceptRead(frame, pid), AcceptCheckFile(frame, current), AcceptFinish(frame), StaleFinish(frame)]
    case CCommit(id, renamed) => [CommitRead(frame, id), CommitFinish(frame, renamed), Abandon(frame)]
    case CCancel(id) => [Cancel(id)]
    case CRender(id, revision) => [RenderRead(frame, id, revision), RenderFinish(frame)]
  }

  lemma RunStep(w: World, a: Action, rest: seq<Action>)
    ensures Interleave(w, [a] + rest) == Interleave(Next(w, a), rest)
    ensures Interleave(w, []) == w
  {
    hide Next;
    assert ([a] + rest)[1..] == rest;
  }

  lemma OneSection(w: World, a: Action)
    ensures Interleave(w, [a]) == Next(w, a)
  {
    hide Next;
    RunStep(w, a, []);
    RunStep(Next(w, a), a, []);
    assert [a] + [] == [a];
  }

  lemma TwoSections(w: World, a: Action, b: Action)
    ensures Interleave(w, [a, b]) == Next(Next(w, a), b)
  {
    hide Next;
    RunStep(w, a, [b]);
    OneSection(Next(w, a), b);
    assert [a] + [b] == [a, b];
  }

  lemma ThreeSections(w: World, a: Action, b: Action, c: Action)
    ensures Interleave(w, [a, b, c]) == Next(Next(Next(w, a), b), c)
  {
    hide Next;
    RunStep(w, a, [b, c]);
    TwoSections(Next(w, a), b, c);
    assert [a] + [b, c] == [a, b, c];
  }

  lemma FourSections(w: World, a: Action, b: Action, c: Action, d: Action)
    ensures Interleave(w, [a, b, c, d]) == Next(Next(Next(Next(w, a), b), c), d)
  {
    hide Next;
    RunStep(w, a, [b, c, d]);
    ThreeSections(Next(w, a), b, c, d);
    assert [a] + [b, c, d] == [a, b, c, d];
  }

  /** The state is the one after the call, and no frame is left. */
  ghost predicate Amounts(w: World, actions: seq<Action>, st: State) {
    Interleave(w, actions).state == st && Interleave(w, actions).frames == w.frames
  }

  lemma AcceptAmounts(w: World, pid: nat, current: string, frame: nat)
    requires frame !in w.frames
    ensures Amounts(w, SectionsOf(CAccept(pid, current), frame), AcceptCall(w.state, pid, current))
  {
    hide Interleave, AcceptCall, Next;
    FourSections(w, AcceptRead(frame, pid), AcceptCheckFile(frame, current), AcceptFinish(frame), StaleFinish(frame));
    if pid !in w.state.proposals || !w.state.proposals[pid].status.Pending? {
      NothingToAccept(w, pid, current, frame);
    } else {
      var copy := w.state.proposals[pid];
      var w2 := Next(Next(w, AcceptRead(frame, pid)), AcceptCheckFile(frame, current));
      CheckAmounts(w, pid, current, frame);
      if frame in w2.frames && w2.frames[frame].AcceptFrame? {
        FinishAmounts(w, w2, pid, copy, w2.frames[frame].stamp, frame);
      }
    }
  }

  lemma NothingToAccept(w: World, pid: nat, current: string, frame: nat)
    requires frame !in w.frames && (pid !in w.state.proposals || !w.state.proposals[pid].status.Pending?)
    ensures Next(w, AcceptRead(frame, pid)) == w && Next(w, AcceptCheckFile(frame, current)) == w
    ensures Next(w, AcceptFinish(frame)) == w && Next(w, StaleFinish(frame)) == w
    ensures AcceptCall(w.state, pid, current) == w.state
  {
  }

  /** After the first two sections the call goes on, or it is over but for marking the proposal stale. */
  lemma CheckAmounts(w: World, pid: nat, current: string, frame: nat)
    requires frame !in w.frames && pid in w.state.proposals && w.state.proposals[pid].status.Pending?
    ensures var w2 := Next(Next(w, AcceptRead(frame, pid)), AcceptCheckFile(frame, current));
      var copy := w.state.proposals[pid];
      if frame in w2.frames && w2.frames[frame].AcceptFrame? then
        var stamp := w2.frames[frame].stamp;
        && w2.state == w.state && w2.frames == w.frames[frame := AcceptFrame(pid, copy, stamp)]
        && (copy.kind.TextEdit? || stamp.Some?)
        && AcceptCall(w.state, pid, current) == Conclude(w.state, pid, stamp)
      else
        var w4 := Next(Next(w2, AcceptFinish(frame)), StaleFinish(frame));
        w4.state == AcceptCall(w.state, pid, current) && w4.frames == w.frames
  {
    hide FinishAccept, Conclude, Record, MarkStale, DocumentOf;
    var copy := w.state.proposals[pid];
    var w1 := Next(w, AcceptRead(frame, pid));
    assert w1.frames == w.frames[frame := AcceptFrame(pid, copy, None)] && w1.state == w.state;
    assert w1.frames - {frame} == w.frames;
    assert w.frames[frame := StaleFrame(pid, copy.session)] - {frame} == w.frames;
  }

  lemma FinishAmounts(w: World, w2: World, pid: nat, copy: Proposal, stamp: Option<FileStamp>, frame: nat)
    requires frame !in w.frames && pid in w.state.proposals && copy == w.state.proposals[pid]
    requires w2.state == w.state && w2.frames == w.frames[frame := AcceptFrame(pid, copy, stamp)]
    requires copy.kind.TextEdit? || stamp.Some?
    ensures var w4 := Next(Next(w2, AcceptFinish(frame)), StaleFinish(frame));
      w4.state == Conclude(w.state, pid, stamp) && w4.frames == w.frames
  {
    hide FinishAccept, Record, MarkStale, DocumentOf;
    var w3 := Next(w2, AcceptFinish(frame));
    var outcome := FinishAccept(w.state, pid, copy, stamp).1;
    if outcome.OutOfDate? {
      assert w3.frames == w.frames[frame := StaleFrame(pid, copy.session)];
      assert w.frames[frame := StaleFrame(pid, copy.session)] - {frame} == w.frames;
    } else {
      assert w.frames[frame := AcceptFrame(pid, copy, stamp)] - {frame} == w.frames;
      assert w3.frames == w.frames;
    }
  }

  lemma CommitAmounts(w: World, id: nat, renamed: Option<RenamedFile>, frame: nat)
    requires frame !in w.frames
    ensures Amounts(w, SectionsOf(CCommit(id, renamed), frame), CommitCall(w.state, id, renamed))
  {
    hide Interleave, FinishCommit, Record, Sync, ApplyBatch, MarkSaved, CreateProposal, Reject, CancelStaged,
      BeginRender, FinishRender, Open, NewSession, TakeSnapshot, MarkStale, FinishAccept, CheckFile, Accept;
    var st := w.state;
    ThreeSections(w, CommitRead(frame, id), CommitFinish(frame, renamed), Abandon(frame));
    if id !in st.sessions || st.sessions[id].staged.None? {
      assert w.frames - {frame} == w.frames;
    } else {
      var held := CommitFrame(id, st.sessions[id].staged.value, st.sessions[id].document.text);
      assert Next(w, CommitRead(frame, id)).frames == w.frames[frame := held];
      assert w.frames[frame := held] - {frame} == w.frames && w.frames - {frame} == w.frames;
    }
  }

  lemma RenderAmounts(w: World, id: nat, revision: u64, frame: nat)
    requires frame !in w.frames
    ensures Amounts(w, SectionsOf(CRender(id, revision), frame), Perform(w.state, CRender(id, revision)))
  {
    hide Interleave, FinishCommit, Record, HintAt, Sync, ApplyBatch, MarkSaved, CreateProposal, Reject, CancelStaged,
      Open, NewSession, TakeSnapshot, MarkStale, FinishAccept, CheckFile, Accept;
    TwoSections(w, RenderRead(frame, id, revision), RenderFinish(frame));
    var r := BeginRender(w.state, id, revision).1;
    if r.Ok? {
      var held := RenderFrame(id, revision, r.value.0, r.value.1);
      assert Next(w, RenderRead(frame, id, revision)).frames == w.frames[frame := held];
      assert w.frames[frame := held] - {frame} == w.frames;
    }
  }

  /** Saving without interruption marks the session saved, if it was at the expected revision. */
  lemma SaveAmounts(w: World, id: nat, revision: u64, names: FileNames, fingerprint: Option<string>, frame: nat)
    requires frame !in w.frames
    ensures Amounts(w, [SaveRead(frame, id, revision), SaveWrite(frame), SaveMark(frame, names, fingerprint)],
                    MarkSaved(w.state, id, Some(revision), names, fingerprint).0)
  {
    hide Interleave, FinishCommit, Record, HintAt, Sync, ApplyBatch, CreateProposal, Reject, CancelStaged, Open,
      NewSession, MarkStale, FinishAccept, CheckFile, Accept, Persisted, AtPlace, AsSaved;
    ThreeSections(w, SaveRead(frame, id, revision), SaveWrite(frame), SaveMark(frame, names, fingerprint));
    var w1 := Next(w, SaveRead(frame, id, revision));
    var w2 := Next(w1, SaveWrite(frame));
    if TakeSnapshot(w.state, id, revision).Ok? {
      assert w2.frames - {frame} == w.frames;
    }
  }

  /** Every public call, run without interruption in its sections, is the call as one step. */
  lemma SectionsAmountToTheCall(w: World, call: Call, frame: nat)
    requires frame !in w.frames
    ensures Amounts(w, SectionsOf(call, frame), Perform(w.state, call))
  {
    match call {
      case CAccept(pid, current) =>
        hide *;
        AcceptAmounts(w, pid, current, frame);
        AcceptIs(w.state, pid, current);
      case CCommit(id, renamed) =>
        hide *;
        CommitAmounts(w, id, renamed, frame);
        CommitIs(w.state, id, renamed);
      case CRender(id, revision) =>
        hide *;
        RenderAmounts(w, id, revision, frame);
      case _ =>
        hide Interleave, Record, Sync, ApplyBatch, MarkSaved, CreateProposal, Reject, CancelStaged, Open, NewSession;
        OneSection(w, SectionsOf(call, frame)[0]);
        assert SectionsOf(call, frame) == [SectionsOf(call, frame)[0]];
    }
  }

  lemma AcceptIs(st: State, pid: nat, current: string)
    ensures Perform(st, CAccept(pid, current)) == AcceptCall(st, pid, current)
  {
    hide AcceptCall;
  }

  lemma CommitIs(st: State, id: nat, renamed: Option<RenamedFile>)
    ensures Perform(st, CCommit(id, renamed)) == CommitCall(st, id, renamed)
  {
    hide CommitCall;
  }
}
