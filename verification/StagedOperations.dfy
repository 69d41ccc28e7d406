/** What accepting a proposal does to its session, and that a rename or a deletion is only ever committed
    because a proposal of that kind was accepted. */
module StagedOperations {
  import opened Wrappers
  import opened LineEndings
  import opened EditorDocuments
  import opened Sessions
  import opened SessionProtocol
  import opened SessionTheorems
  import Edits = TextEdits

  /** The staged operation is the one that the proposal asks for. */
  predicate IsFor(stage: StagedKind, kind: ProposalKind) {
    match kind
    case RenameDocument(target) => stage == StagedRename(target)
    case DeleteDocument => stage == StagedDelete
    case TextEdit(_) => false
  }

  /** Only the document, the pending proposal and what is staged may differ. */
  predicate SamePlace(s: Session, s': Session) {
    && s'.fileName == s.fileName && s'.filePath == s.filePath && s'.rootId == s.rootId
    && s'.relativePath == s.relativePath && s'.visible == s.visible && s'.fingerprint == s.fingerprint
  }

  /** An accepted text edit makes the document dirty, without a baseline, and stages nothing. An accepted
      rename or deletion leaves the text alone and stages exactly that, at the place and with the fingerprint
      the file had when it was looked at. */
  lemma AcceptanceTakesEffect(st: State, pid: nat, copy: Proposal, stamp: Option<FileStamp>)
    requires FinishAccept(st, pid, copy, stamp).1.Done?
    ensures var st', id := FinishAccept(st, pid, copy, stamp).0, copy.session;
      && id in st.sessions && pid in st.proposals && st'.sessions.Keys == st.sessions.Keys
      && (forall other :: other in st.sessions && other != id ==> st'.sessions[other] == st.sessions[other])
      && st'.proposals == st.proposals[pid := st.proposals[pid].(status := Accepted)]
      && st'.nextId == st.nextId && st'.impacts == st.impacts && st'.previews == st.previews
      && var s, s' := st.sessions[id], st'.sessions[id];
      && SamePlace(s, s') && s'.pending.None?
      && s'.document.revision == s.document.revision + 1 && s'.document.lineEnding == s.document.lineEnding
      && s'.document.lastBatches == s.document.lastBatches
      && if copy.kind.TextEdit? then
           && Edits.Apply(s.document.text, copy.kind.operations) == Ok(s'.document.text)
           && s'.document.isDirty && s'.document.savedText.None? && s'.staged == s.staged
         else
           && s'.document.text == s.document.text && s'.document.isDirty == s.document.isDirty
           && s'.document.savedText == s.document.savedText
           && stamp.Some? && s'.staged.Some? && IsFor(s'.staged.value.kind, copy.kind)
           && s'.staged.value.rootId == stamp.value.place.rootId
           && s'.staged.value.relativePath == stamp.value.place.relativePath
           && s'.staged.value.fingerprint == stamp.value.fingerprint
           && s'.staged.value.stagedAtRevision == s'.document.revision
  {
    hide ContentHash, Edits.Apply;
  }

  /** What is left to do for the proposal can be done. */
  ghost predicate CanTakeEffect(s: Session, kind: ProposalKind, stamp: Option<FileStamp>) {
    s.document.revision < U64_MAX && if kind.TextEdit? then EditsFit(s, kind.operations) else stamp.Some?
  }

  ghost predicate EditsFit(s: Session, operations: seq<Edits.TextEdit>) {
    Edits.Apply(s.document.text, operations).Ok? && '\r' !in Edits.Apply(s.document.text, operations).value
  }

  /** Accepting succeeds exactly when the revision and the hash are still those of the proposal and it can take
      effect; it is out of date exactly when one of the two is not; and any other failure is for the reason
      named. Nothing changes unless it succeeds. */
  lemma AcceptanceSucceedsIff(st: State, pid: nat, copy: Proposal, stamp: Option<FileStamp>)
    ensures var (st', outcome) := FinishAccept(st, pid, copy, stamp);
      && (outcome != Done ==> st' == st)
      && if copy.session !in st.sessions || pid !in st.proposals then outcome == Failed(SessionNotFound)
         else
           var s := st.sessions[copy.session];
           var isCurrent := s.document.revision == copy.baseRevision && ContentHash(s.document.text) == copy.baseHash;
           && (outcome == OutOfDate <==> !isCurrent)
           && (outcome == Done <==> isCurrent && CanTakeEffect(s, copy.kind, stamp))
           && (outcome.Failed? ==> outcome.error in {InvalidEditRange, InvalidState})
           && (outcome == Failed(InvalidEditRange)
               <==> isCurrent && copy.kind.TextEdit? && !EditsFit(s, copy.kind.operations))
  {
    hide ContentHash, Edits.Apply;
  }

  /** A stage goes back to an acceptance of its session. */
  ghost predicate IsAccepted(accepted: seq<Acceptance>, id: nat, stage: StagedOperation) {
    exists k :: 0 <= k < |accepted| && IsStagedBy(accepted[k], id, stage)
  }

  predicate IsStagedBy(e: Acceptance, id: nat, stage: StagedOperation) {
    e.session == id && IsFor(stage.kind, e.kind) && stage.stagedAtRevision == e.baseRevision + 1
  }

  /** Everything that is staged, or about to be committed, was accepted. */
  ghost predicate StagesOk(w: World) {
    && (forall id :: id in w.state.sessions && w.state.sessions[id].staged.Some? ==>
          IsAccepted(w.accepted, id, w.state.sessions[id].staged.value))
    && (forall call :: call in w.frames && w.frames[call].CommitFrame? ==>
          IsAccepted(w.accepted, w.frames[call].session, w.frames[call].stage))
  }

  lemma StaysAccepted(a: seq<Acceptance>, more: seq<Acceptance>, id: nat, stage: StagedOperation)
    requires IsAccepted(a, id, stage)
    ensures IsAccepted(a + more, id, stage)
  {
    var k :| 0 <= k < |a| && IsStagedBy(a[k], id, stage);
    assert (a + more)[k] == a[k];
  }

  /** Every session's stage is gone or as it was, or else a proposal for it was accepted just now. */
  ghost predicate StagesStay(st: State, st': State) {
    forall id :: id in st'.sessions && st'.sessions[id].staged.Some? ==>
      id in st.sessions && st.sessions[id].staged == st'.sessions[id].staged
  }

  lemma SectionsKeepStages(w: World, a: Action)
    requires !a.AcceptFinish?
    ensures StagesStay(w.state, Next(w, a).state) && Next(w, a).accepted == w.accepted
  {
    hide Next, StagesStay;
    if a.SaveMark? { SaveMarkKeepsStages(w, a); }
    else if a.CommitFinish? { CommitFinishKeepsStages(w, a); }
    else if MovesDocument(a) { DocumentSectionsKeepStages(w, a); }
    else { OtherSectionsKeepStages(w, a); }
  }

  predicate MovesDocument(a: Action) {
    a.OpenSession? || a.SyncSession? || a.DeliverBatch? || a.MarkSessionSaved? || a.CreateSessionProposal?
  }

  lemma DocumentSectionsKeepStages(w: World, a: Action)
    requires MovesDocument(a)
    ensures StagesStay(w.state, Next(w, a).state) && Next(w, a).accepted == w.accepted
  {
    hide Record, ApplyBatch, CreateProposal, Sync, MarkSaved, NewSession, Open, StagesStay;
    StagesStayAsTheyAre(w.state);
    match a {
      case OpenSession(text, isDirty, names, visible, fingerprint) =>
        NothingStaged(text, isDirty, names, visible, fingerprint);
        OpenKeepsStages(w.state, NewSession(text, isDirty, names, visible, fingerprint));
      case SyncSession(id, revision, names, content, isDirty) =>
        SyncKeepsStages(w.state, id, revision, names, content, isDirty);
      case DeliverBatch(id, batch) => BatchKeepsStages(w.state, id, batch);
      case MarkSessionSaved(id, revision, names, fingerprint) =>
        SavedKeepsStages(w.state, id, revision, names, fingerprint);
      case CreateSessionProposal(id, revision, kind) => ProposeKeepsStages(w.state, id, revision, kind);
    }
  }

  lemma OtherSectionsKeepStages(w: World, a: Action)
    requires !MovesDocument(a) && !a.AcceptFinish? && !a.SaveMark? && !a.CommitFinish?
    ensures StagesStay(w.state, Next(w, a).state) && Next(w, a).accepted == w.accepted
  {
    hide Record, CheckFile, TakeSnapshot, WithTouch, Sync, ApplyBatch, MarkSaved, CreateProposal, FinishCommit,
      NewSession;
  }

  lemma StagesStayAsTheyAre(st: State)
    ensures StagesStay(st, st)
  {
  }

  lemma OpenKeepsStages(st: State, s: Session)
    requires s.staged.None?
    ensures StagesStay(st, Open(st, s))
  {
  }

  lemma SaveMarkKeepsStages(w: World, a: Action)
    requires a.SaveMark?
    ensures StagesStay(w.state, Next(w, a).state) && Next(w, a).accepted == w.accepted
  {
    hide Record, MarkSaved;
    if a.call in w.frames && w.frames[a.call].WrittenFrame? {
      var f := w.frames[a.call];
      SavedKeepsStages(w.state, f.session, Some(f.snapshot.revision), a.names, a.fingerprint);
    }
  }

  lemma CommitFinishKeepsStages(w: World, a: Action)
    requires a.CommitFinish?
    ensures StagesStay(w.state, Next(w, a).state) && Next(w, a).accepted == w.accepted
  {
    hide Record, FinishCommit;
    if a.call in w.frames && w.frames[a.call].CommitFrame? {
      var f := w.frames[a.call];
      CommitKeepsStages(w.state, f.session, f.stage, f.content, a.renamed);
    }
  }

  lemma NothingStaged(text: string, isDirty: bool, names: FileNames, visible: bool, fingerprint: Option<string>)
    ensures NewSession(text, isDirty, names, visible, fingerprint).staged.None?
  {
  }

  lemma SyncKeepsStages(st: State, id: nat, revision: u64, names: FileNames, content: string, isDirty: bool)
    ensures StagesStay(st, Sync(st, id, revision, names, content, isDirty).0)
  {
    hide WithText, Normalize;
  }

  lemma BatchKeepsStages(st: State, id: nat, batch: Batch)
    ensures StagesStay(st, ApplyBatch(st, id, batch).0)
  {
    hide Apply, SingleChangeImpact;
  }

  lemma SavedKeepsStages(st: State, id: nat, revision: Option<u64>, names: FileNames, fingerprint: Option<string>)
    ensures StagesStay(st, MarkSaved(st, id, revision, names, fingerprint).0)
  {
    hide AsSaved;
  }

  lemma ProposeKeepsStages(st: State, id: nat, revision: u64, kind: ProposalKind)
    ensures StagesStay(st, CreateProposal(st, id, revision, kind).0)
  {
    hide Propose, ContentHash;
  }

  lemma CommitKeepsStages(st: State, id: nat, stage: StagedOperation, content: string, renamed: Option<RenamedFile>)
    ensures StagesStay(st, FinishCommit(st, id, stage, content, renamed).0)
  {
    hide WithTouch, WithDirty;
  }

  /** A new commit frame holds what is staged now. */
  lemma FramesKeepStages(w: World, a: Action, call: nat)
    requires call in Next(w, a).frames && Next(w, a).frames[call].CommitFrame?
    ensures var f := Next(w, a).frames[call];
      || (call in w.frames && w.frames[call] == f)
      || (f.session in w.state.sessions && w.state.sessions[f.session].staged == Some(f.stage))
  {
    hide Record, TakeSnapshot, ApplyBatch, CreateProposal, Sync, MarkSaved, FinishCommit, NewSession, FinishAccept,
      CancelStaged, Reject, MarkStale, BeginRender, FinishRender, Open;
  }

  lemma NextKeepsStages(w: World, a: Action)
    requires StagesOk(w)
    ensures StagesOk(Next(w, a))
  {
    var w' := Next(w, a);
    NextAccepts(w, a);
    hide Next, IsAccepted;
    var more := if w'.accepted == w.accepted then [] else w'.accepted[|w.accepted|..];
    assert w'.accepted == w.accepted + more;
    forall id | id in w'.state.sessions && w'.state.sessions[id].staged.Some?
      ensures IsAccepted(w'.accepted, id, w'.state.sessions[id].staged.value)
    {
      SessionStage(w, a, id);
      if id in w.state.sessions && w.state.sessions[id].staged == w'.state.sessions[id].staged {
        StaysAccepted(w.accepted, more, id, w'.state.sessions[id].staged.value);
      }
    }
    forall call | call in w'.frames && w'.frames[call].CommitFrame?
      ensures IsAccepted(w'.accepted, w'.frames[call].session, w'.frames[call].stage)
    {
      FramesKeepStages(w, a, call);
      StaysAccepted(w.accepted, more, w'.frames[call].session, w'.frames[call].stage);
    }
  }

  /** A session's stage was there before, or was accepted in this step. */
  lemma SessionStage(w: World, a: Action, id: nat)
    requires id in Next(w, a).state.sessions && Next(w, a).state.sessions[id].staged.Some?
    ensures var w' := Next(w, a); var stage := w'.state.sessions[id].staged;
      || (id in w.state.sessions && w.state.sessions[id].staged == stage)
      || IsAccepted(w'.accepted, id, stage.value)
  {
    if a.AcceptFinish? {
      NextAccepts(w, a);
      AcceptStages(w, a, id);
    } else {
      SectionsKeepStages(w, a);
      hide Next;
    }
  }

  lemma AcceptStages(w: World, a: Action, id: nat)
    requires a.AcceptFinish? && id in Next(w, a).state.sessions && Next(w, a).state.sessions[id].staged.Some?
    ensures var w' := Next(w, a); var stage := w'.state.sessions[id].staged;
      || (id in w.state.sessions && w.state.sessions[id].staged == stage)
      || IsAccepted(w'.accepted, id, stage.value)
  {
    hide FinishAccept, Record, DocumentOf, IsFor;
    var w' := Next(w, a);
    if a.call in w.frames && w.frames[a.call].AcceptFrame? {
      var f := w.frames[a.call];
      if FinishAccept(w.state, f.pid, f.copy, f.stamp).1.Done? {
        AcceptanceTakesEffect(w.state, f.pid, f.copy, f.stamp);
        BaseWasCurrent(w.state, f.pid, f.copy, f.stamp);
        if id == f.copy.session && !f.copy.kind.TextEdit? && f.stamp.Some? {
          assert IsStagedBy(w'.accepted[|w.accepted|], id, w'.state.sessions[id].staged.value);
        }
      } else {
        NotDoneLeaves(w.state, f.pid, f.copy, f.stamp);
      }
    }
  }

  lemma BaseWasCurrent(st: State, pid: nat, copy: Proposal, stamp: Option<FileStamp>)
    requires FinishAccept(st, pid, copy, stamp).1.Done?
    ensures copy.session in st.sessions && st.sessions[copy.session].document.revision == copy.baseRevision
  {
    hide ContentHash, Accepting;
  }

  lemma NotDoneLeaves(st: State, pid: nat, copy: Proposal, stamp: Option<FileStamp>)
    requires !FinishAccept(st, pid, copy, stamp).1.Done?
    ensures FinishAccept(st, pid, copy, stamp).0 == st
  {
    hide ContentHash, Accepting;
  }

  lemma {:induction false} RunKeepsStages(w: World, actions: seq<Action>)
    requires StagesOk(w)
    ensures StagesOk(Interleave(w, actions))
    decreases actions
  {
    hide Next, StagesOk;
    if actions != [] {
      NextKeepsStages(w, actions[0]);
      RunKeepsStages(Next(w, actions[0]), actions[1..]);
    }
  }

  /** However the sections interleave, a rename or a deletion that is committed was staged by an accepted
      proposal of its session, of that kind and with that target, at the revision right after its base. */
  lemma CommitComesFromAcceptance(actions: seq<Action>, call: nat)
    requires var w := Interleave(START, actions); call in w.frames && w.frames[call].CommitFrame?
    ensures var w := Interleave(START, actions); var f := w.frames[call];
      exists k :: 0 <= k < |w.accepted| && IsStagedBy(w.accepted[k], f.session, f.stage)
        && w.accepted[k].pid in w.state.proposals && w.state.proposals[w.accepted[k].pid].kind == w.accepted[k].kind
  {
    RunKeepsStages(START, actions);
    ReachableInv(actions);
    var w := Interleave(START, actions);
    hide Interleave, IsStagedBy;
    var k :| 0 <= k < |w.accepted| && IsStagedBy(w.accepted[k], w.frames[call].session, w.frames[call].stage);
    assert AcceptanceOk(w.history, w.state, w.accepted[k]);
  }
}
