/** Every interleaving of lock-held sections. A call that takes the lock more than once keeps what
    it read in a frame of its own; between its sections any other section may run. */
module SessionProtocol {
  import opened Wrappers
  import opened LineEndings
  import opened EditorTransactions
  import opened EditorDocuments
  import opened Sessions
  import Edits = TextEdits

  datatype Frame =
    | AcceptFrame(pid: nat, copy: Proposal, stamp: Option<FileStamp>)
    | StaleFrame(pid: nat, session: nat)
    | SaveFrame(session: nat, snapshot: Snapshot)
    | WrittenFrame(session: nat, snapshot: Snapshot, bytes: string)
    | CommitFrame(session: nat, stage: StagedOperation, content: string)
    | RenderFrame(session: nat, revision: u64, document: Document, hint: Option<Impact>)

  /** What a revision of a session stands for. */
  datatype Version = Version(text: string, lineEnding: LineEnding)

  /** A proposal that was accepted: of which kind, on which text, at which revision, with which text as the
      result. */
  datatype Acceptance = Acceptance(
    pid: nat, session: nat, kind: ProposalKind, baseRevision: nat, before: string, after: string)

  /** The state, the calls under way, and two records kept only to speak about the past. */
  datatype World = World(
    state: State,
    frames: map<nat, Frame>,
    history: map<nat, map<nat, Version>>,
    accepted: seq<Acceptance>)

  datatype Action =
    | OpenSession(text: string, isDirty: bool, names: FileNames, visible: bool, fingerprint: Option<string>)
    | SyncSession(session: nat, revision: u64, names: FileNames, content: string, isDirty: bool)
    | DeliverBatch(session: nat, batch: Batch)
    | MarkSessionSaved(session: nat, revisionOpt: Option<u64>, names: FileNames, fingerprint: Option<string>)
    | CreateSessionProposal(session: nat, revision: u64, kind: ProposalKind)
    | RejectProposal(pid: nat)
    | AcceptRead(call: nat, pid: nat)
    | AcceptCheckFile(call: nat, current: string)
    | AcceptFinish(call: nat)
    | StaleFinish(call: nat)
    | SaveRead(call: nat, session: nat, revision: u64)
    | SaveWrite(call: nat)
    | SaveMark(call: nat, names: FileNames, fingerprint: Option<string>)
    | CommitRead(call: nat, session: nat)
    | CommitFinish(call: nat, renamed: Option<RenamedFile>)
    | Cancel(session: nat)
    | RenderRead(call: nat, session: nat, revision: u64)
    | RenderFinish(call: nat)
    | Abandon(call: nat)

  const START := World(EMPTY, map[], map[], [])

  function VersionOf(d: Document): Version {
    Version(d.text, d.lineEnding)
  }

  /** Notes the current version of every session under its current revision. */
  function Record(history: map<nat, map<nat, Version>>, st: State): map<nat, map<nat, Version>> {
    map id | id in st.sessions ::
      (if id in history then history[id] else map[])[
        st.sessions[id].document.revision := VersionOf(st.sessions[id].document)]
  }

  function Advance(w: World, st: State, frames: map<nat, Frame>): World {
    World(st, frames, Record(w.history, st), w.accepted)
  }

  /** One lock-held section, or one disk write between two of them. A section whose call is not at
      that point does nothing. */
  ghost function Next(w: World, a: Action): World {
    var st, frames := w.state, w.frames;
    match a
    case OpenSession(text, isDirty, names, visible, fingerprint) =>
      if st.nextId == U64_MAX then w
      else Advance(w, Open(st, NewSession(text, isDirty, names, visible, fingerprint)), frames)
    case SyncSession(id, revision, names, content, isDirty) =>
      Advance(w, Sync(st, id, revision, names, content, isDirty).0, frames)
    case DeliverBatch(id, batch) => Advance(w, ApplyBatch(st, id, batch).0, frames)
    case MarkSessionSaved(id, revision, names, fingerprint) =>
      Advance(w, MarkSaved(st, id, revision, names, fingerprint).0, frames)
    case CreateSessionProposal(id, revision, kind) =>
      if st.nextId == U64_MAX then w else Advance(w, CreateProposal(st, id, revision, kind).0, frames)
    case RejectProposal(pid) => Advance(w, Reject(st, pid).0, frames)
    case AcceptRead(call, pid) =>
      if call in frames || pid !in st.proposals || !st.proposals[pid].status.Pending? then w
      else w.(frames := frames[call := AcceptFrame(pid, st.proposals[pid], None)])
    case AcceptCheckFile(call, current) =>
      if call !in frames || !frames[call].AcceptFrame? || frames[call].copy.kind.TextEdit? then w
      else w.(frames := CheckFile(st, frames, call, current))
    case AcceptFinish(call) => if call in frames && frames[call].AcceptFrame? then Accept(w, call) else w
    case StaleFinish(call) =>
      if call !in frames || !frames[call].StaleFrame? then w
      else Advance(w, MarkStale(st, frames[call].pid, frames[call].session), frames - {call})
    case SaveRead(call, id, revision) =>
      var r := TakeSnapshot(st, id, revision);
      if call in frames || r.Err? then w else w.(frames := frames[call := SaveFrame(id, r.value)])
    case SaveWrite(call) =>
      if call !in frames || !frames[call].SaveFrame? then w
      else
        var f := frames[call];
        w.(frames := frames[call := WrittenFrame(f.session, f.snapshot,
          Persisted(f.snapshot.text, f.snapshot.lineEnding))])
    case SaveMark(call, names, fingerprint) =>
      if call !in frames || !frames[call].WrittenFrame? then w
      else
        var f := frames[call];
        Advance(w, MarkSaved(st, f.session, Some(f.snapshot.revision), names, fingerprint).0, frames - {call})
    case CommitRead(call, id) =>
      if call in frames || id !in st.sessions || st.sessions[id].staged.None? then w
      else w.(frames := frames[call := CommitFrame(id, st.sessions[id].staged.value, st.sessions[id].document.text)])
    case CommitFinish(call, renamed) =>
      if call !in frames || !frames[call].CommitFrame? || frames[call].stage.kind.StagedRename? != renamed.Some? then w
      else
        var f := frames[call];
        Advance(w, FinishCommit(st, f.session, f.stage, f.content, renamed).0, frames - {call})
    case Cancel(id) => Advance(w, CancelStaged(st, id).0, frames)
    case RenderRead(call, id, revision) =>
      var (st', r) := BeginRender(st, id, revision);
      if call in frames || r.Err? then w
      else Advance(w, st', frames[call := RenderFrame(id, revision, r.value.0, r.value.1)])
    case RenderFinish(call) =>
      if call !in frames || !frames[call].RenderFrame? then w
      else Advance(w, FinishRender(st, frames[call].session, frames[call].revision).0, frames - {call})
    case Abandon(call) => w.(frames := frames - {call})
  }

  /** The second section of accepting a rename or a delete: the revision is checked, the place is
      read, and outside the lock the file's fingerprint is compared. */
  function CheckFile(st: State, frames: map<nat, Frame>, call: nat, current: string): map<nat, Frame>
    requires call in frames && frames[call].AcceptFrame?
  {
    var f := frames[call];
    var id := f.copy.session;
    if id !in st.sessions then frames - {call}
    else
      var s := st.sessions[id];
      if s.document.revision != f.copy.baseRevision then frames[call := StaleFrame(f.pid, id)]
      else if s.rootId.None? || s.relativePath.None? then frames - {call}
      else if s.fingerprint.Some? && s.fingerprint.value != current then frames - {call}
      else frames[call := f.(stamp := Some(FileStamp(Place(s.rootId.value, s.relativePath.value), current)))]
  }

  ghost function Accept(w: World, call: nat): World
    requires call in w.frames && w.frames[call].AcceptFrame?
  {
    var f := w.frames[call];
    if !f.copy.kind.TextEdit? && f.stamp.None? then w
    else
      var (st', outcome) := FinishAccept(w.state, f.pid, f.copy, f.stamp);
      match outcome
      case Failed(_) => Advance(w, st', w.frames - {call})
      case OutOfDate => Advance(w, st', w.frames[call := StaleFrame(f.pid, f.copy.session)])
      case Done =>
        var id := f.copy.session;
        Advance(w, st', w.frames - {call})
          .(accepted := w.accepted
              + [Acceptance(f.pid, id, f.copy.kind, f.copy.baseRevision, DocumentOf(w.state, id).text,
                            DocumentOf(st', id).text)])
  }

  function DocumentOf(st: State, id: nat): Document {
    if id in st.sessions then st.sessions[id].document else Document("", None, 0, Lf, true, map[])
  }

  ghost function Interleave(w: World, actions: seq<Action>): World
    decreases actions
  {
    if actions == [] then w else Interleave(Next(w, actions[0]), actions[1..])
  }

  /** A document either keeps its version or moves on to the next revision. */
  ghost predicate DocumentEvolves(d: Document, d': Document) {
    && Consistent(d')
    && (d'.revision == d.revision + 1 || (d'.revision == d.revision && VersionOf(d') == VersionOf(d)))
  }

  ghost predicate WellFormed(st: State) {
    && (forall id :: id in st.sessions ==> id <= st.nextId && Consistent(st.sessions[id].document))
    && (forall pid :: pid in st.proposals ==> pid <= st.nextId)
  }

  ghost predicate SameProposal(p: Proposal, p': Proposal) {
    p' == p.(status := p'.status)
  }

  ghost predicate ProposalsEvolve(st: State, st': State) {
    && st.proposals.Keys <= st'.proposals.Keys
    && (forall pid :: pid in st.proposals ==> SameProposal(st.proposals[pid], st'.proposals[pid]))
    && (forall pid :: pid in st'.proposals && pid !in st.proposals ==> pid <= st'.nextId)
  }

  ghost predicate Evolves(st: State, st': State) {
    && st.nextId <= st'.nextId
    && st.sessions.Keys <= st'.sessions.Keys
    && (forall id :: id in st.sessions ==> DocumentEvolves(st.sessions[id].document, st'.sessions[id].document))
    && (forall id :: id in st'.sessions && id !in st.sessions ==>
          id <= st'.nextId && Consistent(st'.sessions[id].document))
    && ProposalsEvolve(st, st')
  }

  lemma EvolvesKeepsWellFormed(st: State, st': State)
    requires WellFormed(st) && Evolves(st, st')
    ensures WellFormed(st')
  {
    hide Consistent;
  }

  lemma ConsistentAt(st: State, id: nat)
    requires WellFormed(st) && id in st.sessions
    ensures Consistent(st.sessions[id].document)
  {
  }

  /** A section that replaces one session and at most changes statuses of proposals. */
  lemma OneSessionEvolves(st: State, st': State, id: nat)
    requires WellFormed(st) && id in st.sessions && id in st'.sessions
    requires st'.sessions == st.sessions[id := st'.sessions[id]]
    requires DocumentEvolves(st.sessions[id].document, st'.sessions[id].document)
    requires st.nextId <= st'.nextId && ProposalsEvolve(st, st')
    ensures Evolves(st, st')
  {
    hide Consistent, ProposalsEvolve;
  }

  lemma SameSessionsEvolve(st: State, st': State)
    requires WellFormed(st) && st'.sessions == st.sessions
    requires st.nextId <= st'.nextId && ProposalsEvolve(st, st')
    ensures Evolves(st, st')
  {
    hide Consistent, ProposalsEvolve;
  }

  lemma SameProposalsEvolve(st: State, st': State)
    requires st'.proposals == st.proposals
    ensures ProposalsEvolve(st, st')
  {
  }

  lemma StatusEvolves(st: State, st': State, pid: nat, status: ProposalStatus)
    requires pid in st.proposals && st'.proposals == st.proposals[pid := st.proposals[pid].(status := status)]
    ensures ProposalsEvolve(st, st')
  {
  }

  /** What the sections do to a document directly. */
  lemma SimpleChangesEvolve(d: Document)
    requires Consistent(d)
    ensures DocumentEvolves(d, d) && DocumentEvolves(d, AsSaved(d))
    ensures WithTouch(d).Ok? ==> DocumentEvolves(d, WithTouch(d).value)
    ensures forall isDirty :: WithDirty(d, isDirty).Ok? ==> DocumentEvolves(d, WithDirty(d, isDirty).value)
  {
  }

  lemma NewTextEvolves(d: Document, text: string, isDirty: bool, lineEnding: LineEnding)
    requires Consistent(d) && WithText(d, text, isDirty).Ok?
    ensures DocumentEvolves(d, WithText(d, text, isDirty).value)
    ensures DocumentEvolves(d, WithText(d, text, isDirty).value.(lineEnding := lineEnding))
  {
  }

  lemma SyncEvolves(st: State, id: nat, revision: u64, names: FileNames, content: string, isDirty: bool)
    requires WellFormed(st)
    ensures Evolves(st, Sync(st, id, revision, names, content, isDirty).0)
  {
    hide WellFormed, Evolves, ProposalsEvolve, Consistent, DocumentEvolves, WithText, Normalize, AtPlace, Sync;
    var st' := Sync(st, id, revision, names, content, isDirty).0;
    SyncShape(st, id, revision, names, content, isDirty);
    SameProposalsEvolve(st, st');
    if id in st.sessions {
      OneSessionEvolves(st, st', id);
    } else {
      SameSessionsEvolve(st, st');
    }
  }

  lemma SyncShape(st: State, id: nat, revision: u64, names: FileNames, content: string, isDirty: bool)
    requires WellFormed(st)
    ensures var st' := Sync(st, id, revision, names, content, isDirty).0;
      && st'.nextId == st.nextId && st'.proposals == st.proposals
      && (id !in st.sessions ==> st' == st)
      && (id in st.sessions ==>
        && id in st'.sessions && st'.sessions == st.sessions[id := st'.sessions[id]]
        && DocumentEvolves(st.sessions[id].document, st'.sessions[id].document))
  {
    hide WellFormed, Consistent, DocumentEvolves, WithText, Normalize, AtPlace;
    if id in st.sessions {
      var d, n := st.sessions[id].document, Normalize(content);
      ConsistentAt(st, id);
      SimpleChangesEvolve(d);
      if WithText(d, n.text, isDirty).Ok? { NewTextEvolves(d, n.text, isDirty, n.lineEnding); }
      AtPlaceKeepsDocument(st.sessions[id], names);
    }
  }

  lemma AtPlaceKeepsDocument(s: Session, names: FileNames)
    ensures AtPlace(s, names).document == s.document
  {
  }

  lemma ApplyBatchEvolves(st: State, id: nat, batch: Batch)
    requires WellFormed(st)
    ensures Evolves(st, ApplyBatch(st, id, batch).0)
  {
    var st' := ApplyBatch(st, id, batch).0;
    SameProposalsEvolve(st, st');
    hide Apply, Consistent, DocumentEvolves, SingleChangeImpact, WellFormed, Evolves, ProposalsEvolve;
    if st' != st {
      var s := st.sessions[id];
      assert st'.sessions == st.sessions[id := s.(document := Apply(s.document, batch).0)];
      ConsistentAt(st, id);
      ApplyEvolves(s.document, batch);
      OneSessionEvolves(st, st', id);
    } else {
      SameSessionsEvolve(st, st');
    }
  }

  lemma ApplyEvolves(d: Document, batch: Batch)
    requires Consistent(d)
    ensures DocumentEvolves(d, Apply(d, batch).0) && DocumentEvolves(d, d)
  {
    StepIsConsistent(d, Deliver(batch));
    ApplyKeepsLineEnding(d, batch);
    hide Apply, Consistent;
  }

  lemma ApplyKeepsLineEnding(d: Document, batch: Batch)
    ensures Apply(d, batch).0.lineEnding == d.lineEnding
    ensures Apply(d, batch).1.Err? || Apply(d, batch).1.value.replayed ==> Apply(d, batch).0 == d
    ensures Step(d, Deliver(batch)) == Apply(d, batch).0
    ensures var r := Apply(d, batch).1; r.Ok? && !r.value.replayed ==>
      r.value.revision == d.revision + 1 == Apply(d, batch).0.revision
    ensures Consistent(d) && Apply(d, batch).1.Ok? && Apply(d, batch).1.value.replayed ==> Admit(d, batch).Replay?
  {
    hide AfterTransactions;
  }

  lemma MarkSavedEvolves(st: State, id: nat, revision: Option<u64>, names: FileNames, fingerprint: Option<string>)
    requires WellFormed(st)
    ensures Evolves(st, MarkSaved(st, id, revision, names, fingerprint).0)
  {
    var st' := MarkSaved(st, id, revision, names, fingerprint).0;
    SameProposalsEvolve(st, st');
    hide WellFormed, Evolves, ProposalsEvolve, Consistent, DocumentEvolves, WithTouch, WithDirty;
    if id in st.sessions {
      ConsistentAt(st, id);
      SimpleChangesEvolve(st.sessions[id].document);
      OneSessionEvolves(st, st', id);
    } else {
      SameSessionsEvolve(st, st');
    }
  }

  lemma FinishCommitEvolves(st: State, id: nat, stage: StagedOperation, content: string, renamed: Option<RenamedFile>)
    requires WellFormed(st)
    ensures Evolves(st, FinishCommit(st, id, stage, content, renamed).0)
  {
    var st' := FinishCommit(st, id, stage, content, renamed).0;
    SameProposalsEvolve(st, st');
    hide WellFormed, Evolves, ProposalsEvolve, Consistent, DocumentEvolves, WithTouch, WithDirty;
    if id in st.sessions {
      ConsistentAt(st, id);
      SimpleChangesEvolve(st.sessions[id].document);
      OneSessionEvolves(st, st', id);
    } else {
      SameSessionsEvolve(st, st');
    }
  }

  lemma CancelEvolves(st: State, id: nat)
    requires WellFormed(st)
    ensures Evolves(st, CancelStaged(st, id).0)
  {
    var st' := CancelStaged(st, id).0;
    SameProposalsEvolve(st, st');
    hide WellFormed, Evolves, ProposalsEvolve, Consistent, DocumentEvolves, WithTouch, WithDirty;
    if id in st.sessions {
      ConsistentAt(st, id);
      SimpleChangesEvolve(st.sessions[id].document);
      OneSessionEvolves(st, st', id);
    } else {
      SameSessionsEvolve(st, st');
    }
  }

  lemma AcceptingEvolves(s: Session, kind: ProposalKind, stamp: Option<FileStamp>)
    requires Consistent(s.document) && Accepting(s, kind, stamp).Ok?
    ensures var d, d' := s.document, Accepting(s, kind, stamp).value.document;
      DocumentEvolves(d, d') && d'.revision == d.revision + 1
      && d'.text == match kind case TextEdit(operations) => Edits.Apply(d.text, operations).value case _ => d.text
  {
    hide Edits.Apply;
    if kind.TextEdit? { Edits.ApplyKeepsLf(s.document.text, kind.operations); }
  }

  lemma FinishAcceptEvolves(st: State, pid: nat, copy: Proposal, stamp: Option<FileStamp>)
    requires WellFormed(st)
    ensures Evolves(st, FinishAccept(st, pid, copy, stamp).0)
  {
    var (st', outcome) := FinishAccept(st, pid, copy, stamp);
    hide WellFormed, Evolves, ProposalsEvolve, Accepting, DocumentEvolves, ContentHash;
    if outcome.Done? {
      ConsistentAt(st, copy.session);
      AcceptingEvolves(st.sessions[copy.session], copy.kind, stamp);
      StatusEvolves(st, st', pid, Accepted);
      OneSessionEvolves(st, st', copy.session);
    } else {
      SameProposalsEvolve(st, st');
      SameSessionsEvolve(st, st');
    }
  }

  lemma AcceptEvolves(w: World, call: nat)
    requires WellFormed(w.state) && call in w.frames && w.frames[call].AcceptFrame?
    ensures Evolves(w.state, Accept(w, call).state)
  {
    hide WellFormed, Evolves, ProposalsEvolve, FinishAccept;
    SameProposalsEvolve(w.state, w.state);
    SameSessionsEvolve(w.state, w.state);
    FinishAcceptEvolves(w.state, w.frames[call].pid, w.frames[call].copy, w.frames[call].stamp);
  }

  lemma NewSessionIsConsistent(text: string, isDirty: bool, names: FileNames, visible: bool,
                               fingerprint: Option<string>)
    ensures Consistent(NewSession(text, isDirty, names, visible, fingerprint).document)
  {
    hide Canonical, Normalize;
  }

  lemma OpenEvolves(st: State, s: Session)
    requires WellFormed(st) && st.nextId < U64_MAX && Consistent(s.document)
    ensures Evolves(st, Open(st, s))
  {
    hide Consistent;
  }

  lemma CreateProposalEvolves(st: State, id: nat, revision: u64, kind: ProposalKind)
    requires WellFormed(st) && st.nextId < U64_MAX
    ensures Evolves(st, CreateProposal(st, id, revision, kind).0)
  {
    var (st', r) := CreateProposal(st, id, revision, kind);
    hide Propose, ContentHash;
    NewProposalEvolves(st, st', NextId(st));
    hide WellFormed, Evolves, ProposalsEvolve;
    if r.Ok? {
      ConsistentAt(st, id);
      OneSessionEvolves(st, st', id);
    } else {
      SameSessionsEvolve(st, st');
    }
  }

  lemma NewProposalEvolves(st: State, st': State, pid: nat)
    requires WellFormed(st) && st.nextId < pid
    requires st'.proposals == st.proposals
      || (pid in st'.proposals && st'.proposals == st.proposals[pid := st'.proposals[pid]] && pid <= st'.nextId)
    ensures ProposalsEvolve(st, st')
  {
    hide Consistent;
  }

  lemma RejectEvolves(st: State, pid: nat)
    requires WellFormed(st)
    ensures Evolves(st, Reject(st, pid).0)
  {
    var (st', r) := Reject(st, pid);
    hide WellFormed, Evolves, ProposalsEvolve;
    if r.Ok? {
      StatusEvolves(st, st', pid, Rejected);
    } else {
      SameProposalsEvolve(st, st');
    }
    if r.Ok? && st.proposals[pid].session in st.sessions {
      ConsistentAt(st, st.proposals[pid].session);
      OneSessionEvolves(st, st', st.proposals[pid].session);
    } else {
      SameSessionsEvolve(st, st');
    }
  }

  lemma MarkStaleEvolves(st: State, pid: nat, id: nat)
    requires WellFormed(st)
    ensures Evolves(st, MarkStale(st, pid, id))
  {
    var st' := MarkStale(st, pid, id);
    hide WellFormed, Evolves, ProposalsEvolve;
    if pid in st.proposals {
      StatusEvolves(st, st', pid, Stale);
    } else {
      SameProposalsEvolve(st, st');
    }
    if id in st.sessions {
      ConsistentAt(st, id);
      OneSessionEvolves(st, st', id);
    } else {
      SameSessionsEvolve(st, st');
    }
  }

  /** Every section lets every session evolve and keeps every proposal but for its status. */
  lemma NextEvolves(w: World, a: Action)
    requires WellFormed(w.state)
    ensures Evolves(w.state, Next(w, a).state)
  {
    hide *;
    if IsOneSection(a) { CallEvolves(w, a); } else { FrameEvolves(w, a); }
  }

  /** The calls that take the lock once. */
  predicate IsOneSection(a: Action) {
    a.OpenSession? || a.SyncSession? || a.DeliverBatch? || a.MarkSessionSaved? || a.CreateSessionProposal?
    || a.RejectProposal? || a.Cancel?
  }

  lemma CallEvolves(w: World, a: Action)
    requires WellFormed(w.state) && IsOneSection(a)
    ensures Evolves(w.state, Next(w, a).state)
  {
    var st := w.state;
    SameProposalsEvolve(st, st);
    SameSessionsEvolve(st, st);
    hide WellFormed, Evolves, ProposalsEvolve, Open, Sync, ApplyBatch, MarkSaved, CreateProposal, Reject, CancelStaged,
      Record,
      NewSession, DocumentEvolves, Consistent;
    match a {
      case OpenSession(text, isDirty, names, visible, fingerprint) =>
        NewSessionIsConsistent(text, isDirty, names, visible, fingerprint);
        if st.nextId < U64_MAX { OpenEvolves(st, NewSession(text, isDirty, names, visible, fingerprint)); }
      case SyncSession(id, revision, names, content, isDirty) => SyncEvolves(st, id, revision, names, content, isDirty);
      case DeliverBatch(id, batch) => ApplyBatchEvolves(st, id, batch);
      case MarkSessionSaved(id, revision, names, fingerprint) => MarkSavedEvolves(st, id, revision, names, fingerprint);
      case CreateSessionProposal(id, revision, kind) =>
        if st.nextId < U64_MAX { CreateProposalEvolves(st, id, revision, kind); }
      case RejectProposal(pid) => RejectEvolves(st, pid);
      case Cancel(id) => CancelEvolves(st, id);
    }
  }

  lemma FrameEvolves(w: World, a: Action)
    requires WellFormed(w.state) && !IsOneSection(a)
    ensures Evolves(w.state, Next(w, a).state)
  {
    var st := w.state;
    SameProposalsEvolve(st, st);
    SameSessionsEvolve(st, st);
    hide WellFormed, Evolves, ProposalsEvolve, MarkSaved, MarkStale, FinishAccept, FinishCommit, Record, CheckFile,
      TakeSnapshot,
      Accept, DocumentEvolves, Consistent;
    match a {
      case AcceptFinish(call) =>
        if call in w.frames && w.frames[call].AcceptFrame? { AcceptEvolves(w, call); }
      case StaleFinish(call) =>
        if call in w.frames && w.frames[call].StaleFrame? {
          MarkStaleEvolves(st, w.frames[call].pid, w.frames[call].session);
        }
      case SaveMark(call, names, fingerprint) =>
        if call in w.frames && w.frames[call].WrittenFrame? {
          var f := w.frames[call];
          MarkSavedEvolves(st, f.session, Some(f.snapshot.revision), names, fingerprint);
        }
      case CommitFinish(call, renamed) =>
        if call in w.frames && w.frames[call].CommitFrame? {
          FinishCommitEvolves(st, w.frames[call].session, w.frames[call].stage, w.frames[call].content, renamed);
        }
      case RenderRead(call, id, revision) =>
        SameProposalsEvolve(st, BeginRender(st, id, revision).0);
        SameSessionsEvolve(st, BeginRender(st, id, revision).0);
      case RenderFinish(call) =>
        if call in w.frames && w.frames[call].RenderFrame? {
          SameProposalsEvolve(st, FinishRender(st, w.frames[call].session, w.frames[call].revision).0);
          SameSessionsEvolve(st, FinishRender(st, w.frames[call].session, w.frames[call].revision).0);
        }
      case _ =>
    }
  }

  /** Every version a session ever had is on record, and the newest one is the current one. */
  ghost predicate HistoryOk(h: map<nat, map<nat, Version>>, st: State) {
    && h.Keys == st.sessions.Keys
    && forall id :: id in st.sessions ==>
      var d := st.sessions[id].document;
      Known(h, id, d.revision, VersionOf(d)) && forall r :: r in h[id] ==> r <= d.revision
  }

  ghost predicate Known(h: map<nat, map<nat, Version>>, id: nat, revision: nat, v: Version) {
    id in h && revision in h[id] && h[id][revision] == v
  }

  ghost predicate Extends(h: map<nat, map<nat, Version>>, h': map<nat, map<nat, Version>>) {
    forall id, r :: id in h && r in h[id] ==> Known(h', id, r, h[id][r])
  }

  lemma RecordExtends(h: map<nat, map<nat, Version>>, st: State, st': State)
    requires HistoryOk(h, st) && Evolves(st, st')
    ensures HistoryOk(Record(h, st'), st') && Extends(h, Record(h, st'))
  {
    RecordKeeps(h, st, st');
    RecordIsCurrent(h, st, st');
    hide *;
  }

  lemma RecordKeeps(h: map<nat, map<nat, Version>>, st: State, st': State)
    requires HistoryOk(h, st) && Evolves(st, st')
    ensures Extends(h, Record(h, st'))
  {
    hide Consistent, ProposalsEvolve;
    var h' := Record(h, st');
    forall id, r | id in h && r in h[id] ensures Known(h', id, r, h[id][r]) {
      assert DocumentEvolves(st.sessions[id].document, st'.sessions[id].document);
    }
  }

  lemma RecordIsCurrent(h: map<nat, map<nat, Version>>, st: State, st': State)
    requires HistoryOk(h, st) && Evolves(st, st')
    ensures HistoryOk(Record(h, st'), st')
  {
    assert Record(h, st').Keys == st'.sessions.Keys;
    hide Record, Evolves, Known;
    forall id | id in st'.sessions
      ensures var d := st'.sessions[id].document;
        Known(Record(h, st'), id, d.revision, VersionOf(d)) && forall r :: r in Record(h, st')[id] ==> r <= d.revision
    {
      CurrentAt(h, st, st', id);
    }
  }

  lemma CurrentAt(h: map<nat, map<nat, Version>>, st: State, st': State, id: nat)
    requires HistoryOk(h, st) && Evolves(st, st') && id in st'.sessions
    ensures var d := st'.sessions[id].document;
      Known(Record(h, st'), id, d.revision, VersionOf(d)) && forall r :: r in Record(h, st')[id] ==> r <= d.revision
  {
    hide Consistent, ProposalsEvolve, Known, VersionOf;
    var d, before := st'.sessions[id].document, if id in h then h[id] else map[];
    if id in h {
      assert DocumentEvolves(st.sessions[id].document, d);
      assert forall r :: r in before ==> r <= st.sessions[id].document.revision;
    }
    RecordAt(h, st', id);
  }

  lemma RecordAt(h: map<nat, map<nat, Version>>, st: State, id: nat)
    requires id in st.sessions
    ensures var d := st.sessions[id].document;
      && id in Record(h, st)
      && Record(h, st)[id] == (if id in h then h[id] else map[])[d.revision := VersionOf(d)]
      && Known(Record(h, st), id, d.revision, VersionOf(d))
  {
  }

  lemma NextExtends(w: World, a: Action)
    requires WellFormed(w.state) && HistoryOk(w.history, w.state)
    ensures HistoryOk(Next(w, a).history, Next(w, a).state) && Extends(w.history, Next(w, a).history)
  {
    NextEvolves(w, a);
    NextRecords(w, a);
    hide Next, WellFormed, Evolves, HistoryOk, Record, Extends;
    ExtendsItself(w.history);
    if Next(w, a).history == Record(w.history, Next(w, a).state) {
      RecordExtends(w.history, w.state, Next(w, a).state);
    }
  }

  lemma ExtendsItself(h: map<nat, map<nat, Version>>)
    ensures Extends(h, h)
  {
  }

  lemma NextRecords(w: World, a: Action)
    ensures var w' := Next(w, a);
      w'.history == Record(w.history, w'.state) || (w'.history == w.history && w'.state == w.state)
  {
    hide Open, Sync, ApplyBatch, MarkSaved, CreateProposal, Reject, MarkStale, FinishAccept, FinishCommit,
      CancelStaged, Record, CheckFile, TakeSnapshot, BeginRender, FinishRender, NewSession;
  }

  /** A proposal was computed from the text its base revision stands for. */
  ghost predicate ProposalOk(h: map<nat, map<nat, Version>>, p: Proposal) {
    && p.session in h && p.baseRevision in h[p.session]
    && h[p.session][p.baseRevision].text == p.diff.base
    && p.baseHash == ContentHash(p.diff.base)
    && (if p.kind.TextEdit? then Edits.Apply(p.diff.base, p.kind.operations) == Ok(p.diff.proposed)
        else p.diff.proposed == p.diff.base)
  }

  /** A hint stored for a revision is the one splice that led to it. */
  ghost predicate HintOk(h: map<nat, map<nat, Version>>, id: nat, revision: nat, hint: Option<Impact>) {
    hint.Some? ==>
      && 0 < revision && id in h && revision in h[id] && revision - 1 in h[id]
      && IsSplice(h[id][revision - 1].text, h[id][revision].text, hint.value)
  }

  ghost predicate FrameOk(h: map<nat, map<nat, Version>>, f: Frame) {
    match f
    case AcceptFrame(pid, copy, _) => ProposalOk(h, copy)
    case SaveFrame(id, snapshot) => Known(h, id, snapshot.revision, Version(snapshot.text, snapshot.lineEnding))
    case WrittenFrame(id, snapshot, bytes) =>
      && Known(h, id, snapshot.revision, Version(snapshot.text, snapshot.lineEnding))
      && bytes == Persisted(snapshot.text, snapshot.lineEnding)
    case RenderFrame(id, revision, document, hint) =>
      && document.revision == revision && Known(h, id, revision, VersionOf(document))
      && HintOk(h, id, revision, hint)
    case _ => true
  }

  /** An accepted edit led from the version of its base revision to the version right after. */
  ghost predicate AcceptanceOk(h: map<nat, map<nat, Version>>, st: State, e: Acceptance) {
    && e.session in h && e.baseRevision in h[e.session] && e.baseRevision + 1 in h[e.session]
    && h[e.session][e.baseRevision].text == e.before && h[e.session][e.baseRevision + 1].text == e.after
    && e.pid in st.proposals
    && st.proposals[e.pid].session == e.session && st.proposals[e.pid].baseRevision == e.baseRevision
    && st.proposals[e.pid].diff == Diff(e.before, e.after) && st.proposals[e.pid].kind == e.kind
  }

  ghost predicate AtMostOnePerBase(edits: seq<Acceptance>) {
    forall i, j :: 0 <= i < j < |edits| && edits[i].session == edits[j].session ==>
      edits[i].baseRevision < edits[j].baseRevision
  }

  ghost predicate ProposalsOk(w: World) {
    forall pid :: pid in w.state.proposals ==> ProposalOk(w.history, w.state.proposals[pid])
  }

  ghost predicate HintsOk(w: World) {
    forall id :: id in w.state.impacts ==> HintOk(w.history, id, w.state.impacts[id].0, w.state.impacts[id].1)
  }

  ghost predicate FramesOk(w: World) {
    forall call :: call in w.frames ==>
      && FrameOk(w.history, w.frames[call])
      && Refers(w.state, w.frames[call])
  }

  /** The proposal a call works on exists, and is still the one that was read. */
  ghost predicate Refers(st: State, f: Frame) {
    match f
    case AcceptFrame(pid, copy, _) => pid in st.proposals && SameProposal(st.proposals[pid], copy)
    case StaleFrame(pid, id) => pid in st.proposals && st.proposals[pid].session == id
    case _ => true
  }

  ghost predicate AcceptancesOk(w: World) {
    && AtMostOnePerBase(w.accepted)
    && forall k :: 0 <= k < |w.accepted| ==> AcceptanceOk(w.history, w.state, w.accepted[k])
  }

  ghost predicate Inv(w: World) {
    WellFormed(w.state) && HistoryOk(w.history, w.state) && ProposalsOk(w) && HintsOk(w) && FramesOk(w)
      && AcceptancesOk(w)
  }

  lemma FactsPersist(h: map<nat, map<nat, Version>>, h': map<nat, map<nat, Version>>)
    requires Extends(h, h')
    ensures forall p :: ProposalOk(h, p) ==> ProposalOk(h', p)
    ensures forall id, r, hint :: HintOk(h, id, r, hint) ==> HintOk(h', id, r, hint)
    ensures forall f :: FrameOk(h, f) ==> FrameOk(h', f)
  {
    hide ContentHash, Edits.Apply, IsSplice, Persisted;
    forall p | ProposalOk(h, p) ensures ProposalOk(h', p) {}
    forall id, r, hint | HintOk(h, id, r, hint) ensures HintOk(h', id, r, hint) {
      if hint.Some? { assert Known(h', id, r, h[id][r]) && Known(h', id, r - 1, h[id][r - 1]); }
    }
    forall f | FrameOk(h, f) ensures FrameOk(h', f) {
    }
  }

  /** A new proposal describes the document as it is. */
  ghost predicate Describes(p: Proposal, id: nat, d: Document) {
    && p.session == id && p.baseRevision == d.revision && p.diff.base == d.text
    && p.baseHash == ContentHash(p.diff.base)
    && (if p.kind.TextEdit? then Edits.Apply(p.diff.base, p.kind.operations) == Ok(p.diff.proposed)
        else p.diff.proposed == p.diff.base)
  }

  lemma CreatedProposalDescribes(st: State, id: nat, revision: u64, kind: ProposalKind, pid: nat)
    requires pid !in st.proposals && pid in CreateProposal(st, id, revision, kind).0.proposals
    ensures var st' := CreateProposal(st, id, revision, kind).0;
      id in st'.sessions && Describes(st'.proposals[pid], id, st'.sessions[id].document)
  {
    hide ContentHash, Edits.Apply;
  }

  lemma NewProposalIsOk(w: World, a: Action, pid: nat)
    requires WellFormed(w.state) && HistoryOk(w.history, w.state)
    requires pid in Next(w, a).state.proposals && pid !in w.state.proposals
    ensures ProposalOk(Next(w, a).history, Next(w, a).state.proposals[pid])
  {
    NextExtends(w, a);
    if a.CreateSessionProposal? {
      assert w.state.nextId < U64_MAX;
      assert Next(w, a).state == CreateProposal(w.state, a.session, a.revision, a.kind).0;
      hide WellFormed, HistoryOk, Next, Record, ContentHash, Edits.Apply, CreateProposal, Extends;
      CreatedProposalDescribes(w.state, a.session, a.revision, a.kind, pid);
      KnownNow(Next(w, a), a.session);
    } else {
      KeepsProposals(w, a, pid);
    }
  }

  lemma NextKeepsProposals(w: World, a: Action)
    requires Inv(w)
    ensures ProposalsOk(Next(w, a))
  {
    hide Next, Inv, ProposalOk, Extends, Evolves;
    InvEvolves(w, a);
    var w' := Next(w, a);
    forall pid | pid in w'.state.proposals ensures ProposalOk(w'.history, w'.state.proposals[pid]) {
      if pid in w.state.proposals { OldProposalIsOk(w, w', pid); } else { InvNewProposalIsOk(w, a, pid); }
    }
  }

  lemma OldProposalIsOk(w: World, w': World, pid: nat)
    requires Inv(w) && Extends(w.history, w'.history) && Evolves(w.state, w'.state) && pid in w.state.proposals
    ensures pid in w'.state.proposals && ProposalOk(w'.history, w'.state.proposals[pid])
  {
    FactsPersist(w.history, w'.history);
    hide WellFormed, HistoryOk, Extends, HintsOk, FramesOk, AcceptancesOk, DocumentEvolves, Consistent;
    assert ProposalOk(w'.history, w.state.proposals[pid]);
    assert SameProposal(w.state.proposals[pid], w'.state.proposals[pid]);
  }

  lemma InvNewProposalIsOk(w: World, a: Action, pid: nat)
    requires Inv(w) && pid in Next(w, a).state.proposals && pid !in w.state.proposals
    ensures ProposalOk(Next(w, a).history, Next(w, a).state.proposals[pid])
  {
    NewProposalIsOk(w, a, pid);
    hide *;
  }

  lemma KnownNow(w: World, id: nat)
    requires HistoryOk(w.history, w.state) && id in w.state.sessions
    ensures Known(w.history, id, w.state.sessions[id].document.revision, VersionOf(w.state.sessions[id].document))
  {
  }

  lemma KeepsProposals(w: World, a: Action, pid: nat)
    requires pid !in w.state.proposals && !a.CreateSessionProposal?
    ensures pid !in Next(w, a).state.proposals
  {
    hide Record, CheckFile, TakeSnapshot, NewSession, Accepting, ContentHash, Apply, WithText, Normalize, WithTouch,
      WithDirty, AtPlace, SingleChangeImpact;
  }

  lemma NextKeepsHints(w: World, a: Action)
    requires Inv(w)
    ensures HintsOk(Next(w, a))
  {
    NextExtends(w, a);
    var w' := Next(w, a);
    FactsPersist(w.history, w'.history);
    forall id | id in w'.state.impacts
      ensures HintOk(w'.history, id, w'.state.impacts[id].0, w'.state.impacts[id].1)
    {
      if id in w.state.impacts && w'.state.impacts[id] == w.state.impacts[id] {
        hide Next, WellFormed, HistoryOk, ProposalsOk, FramesOk, AcceptancesOk, Extends, IsSplice;
        assert HintOk(w.history, id, w.state.impacts[id].0, w.state.impacts[id].1);
      } else {
        NewHint(w, a, id);
        hide Next, WellFormed, HistoryOk, ProposalsOk, FramesOk, AcceptancesOk, Extends, IsSplice, Apply;
        var d, d', i := w.state.sessions[id].document, w'.state.sessions[id].document, w'.state.impacts[id];
        KnownNow(w, id);
        KnownNow(w', id);
        if i.1.Some? {
          ImpactIsTheSplice(d, a.batch);
          KnownPersists(w.history, w'.history, id, d.revision, VersionOf(d));
        }
      }
    }
  }

  lemma KnownPersists(h: map<nat, map<nat, Version>>, h': map<nat, map<nat, Version>>, id: nat, r: nat, v: Version)
    requires Extends(h, h') && Known(h, id, r, v)
    ensures Known(h', id, r, v)
  {
  }

  /** Only an applied batch stores a hint, for the revision it leads to. */
  lemma NewHint(w: World, a: Action, id: nat)
    requires id in Next(w, a).state.impacts
    requires id !in w.state.impacts || Next(w, a).state.impacts[id] != w.state.impacts[id]
    ensures a.DeliverBatch? && a.session == id && id in w.state.sessions && id in Next(w, a).state.sessions
    ensures var d, d' := w.state.sessions[id].document, Next(w, a).state.sessions[id].document;
      var r := Apply(d, a.batch).1;
      && r.Ok? && !r.value.replayed && d' == Apply(d, a.batch).0 && d'.revision == d.revision + 1
      && Next(w, a).state.impacts[id] == (d'.revision, SingleChangeImpact(d, a.batch))
  {
    if a.DeliverBatch? {
      hide Record, Apply, SingleChangeImpact;
      if a.session in w.state.sessions {
        ApplyKeepsLineEnding(w.state.sessions[a.session].document, a.batch);
      }
    } else {
      NoNewHint(w, a, id);
    }
  }

  lemma NoNewHint(w: World, a: Action, id: nat)
    requires !a.DeliverBatch? && id in Next(w, a).state.impacts
    ensures id in w.state.impacts && Next(w, a).state.impacts[id] == w.state.impacts[id]
  {
    hide Record, CheckFile, TakeSnapshot, NewSession, Accepting, ContentHash, Apply, WithText, Normalize, WithTouch,
      WithDirty, AtPlace, SingleChangeImpact, Propose;
  }

  /** Where a frame's contents come from: the state, or the frame the call had before. */
  ghost predicate ReadFrom(w: World, call: nat, f: Frame) {
    match f
    case AcceptFrame(pid, copy, _) =>
      || (pid in w.state.proposals && copy == w.state.proposals[pid])
      || (call in w.frames && w.frames[call].AcceptFrame? && w.frames[call].pid == pid && w.frames[call].copy == copy)
    case SaveFrame(id, snapshot) =>
      && id in w.state.sessions
      && var d := w.state.sessions[id].document; snapshot == Snapshot(d.text, d.revision, d.lineEnding)
    case StaleFrame(pid, id) =>
      call in w.frames && w.frames[call].AcceptFrame? && w.frames[call].pid == pid && w.frames[call].copy.session == id
    case WrittenFrame(id, snapshot, bytes) =>
      && call in w.frames && w.frames[call] == SaveFrame(id, snapshot)
      && bytes == Persisted(snapshot.text, snapshot.lineEnding)
    case RenderFrame(id, revision, document, hint) =>
      && id in w.state.sessions && document == w.state.sessions[id].document && revision == document.revision
      && hint == HintAt(w.state, id, revision)
    case _ => true
  }

  lemma NewFrameIsRead(w: World, a: Action, call: nat)
    requires call in Next(w, a).frames && (call !in w.frames || Next(w, a).frames[call] != w.frames[call])
    ensures ReadFrom(w, call, Next(w, a).frames[call])
  {
    hide Open, Sync, ApplyBatch, MarkSaved, CreateProposal, Reject, MarkStale, FinishAccept, FinishCommit, CancelStaged,
      Record, NewSession, FinishRender, Persisted, HintAt;
  }

  lemma ReadFramesAreOk(w: World, call: nat, f: Frame)
    requires Inv(w) && ReadFrom(w, call, f)
    ensures FrameOk(w.history, f)
    ensures Refers(w.state, f)
  {
    if f.SaveFrame? || f.RenderFrame? { KnownNow(w, f.session); }
    if f.RenderFrame? { HintAtIsOk(w, f.session, f.revision); }
    hide WellFormed, HistoryOk, AcceptancesOk, HintsOk, HintOk, ProposalOk, Persisted, HintAt;
    if f.WrittenFrame? { assert FrameOk(w.history, w.frames[call]); }
  }

  /** What a new frame holds is true when it is written down. */
  lemma NewFrameIsOk(w: World, a: Action, call: nat)
    requires Inv(w)
    requires call in Next(w, a).frames && (call !in w.frames || Next(w, a).frames[call] != w.frames[call])
    ensures FrameOk(Next(w, a).history, Next(w, a).frames[call])
    ensures Refers(w.state, Next(w, a).frames[call])
  {
    NextExtends(w, a);
    NewFrameIsRead(w, a, call);
    hide Next, ReadFrom, FrameOk, Refers;
    FactsPersist(w.history, Next(w, a).history);
    ReadFramesAreOk(w, call, Next(w, a).frames[call]);
  }

  lemma HintAtIsOk(w: World, id: nat, revision: u64)
    requires HintsOk(w)
    ensures HintOk(w.history, id, revision, HintAt(w.state, id, revision))
  {
    hide IsSplice;
  }

  lemma NextKeepsFrames(w: World, a: Action)
    requires Inv(w)
    ensures FramesOk(Next(w, a))
  {
    hide Next, Inv, FrameOk, Refers, Extends, Evolves;
    InvEvolves(w, a);
    var w' := Next(w, a);
    forall call | call in w'.frames ensures FrameOk(w'.history, w'.frames[call]) && Refers(w'.state, w'.frames[call]) {
      if call !in w.frames || w'.frames[call] != w.frames[call] {
        NewFrameIsOk(w, a, call);
      } else {
        OldFrameIsOk(w, call);
        FactsPersist(w.history, w'.history);
      }
      StillRefers(w.state, w'.state, w'.frames[call]);
    }
  }

  lemma InvEvolves(w: World, a: Action)
    requires Inv(w)
    ensures Evolves(w.state, Next(w, a).state) && Extends(w.history, Next(w, a).history)
  {
    NextEvolves(w, a);
    NextExtends(w, a);
    hide *;
  }

  lemma OldFrameIsOk(w: World, call: nat)
    requires Inv(w) && call in w.frames
    ensures FrameOk(w.history, w.frames[call]) && Refers(w.state, w.frames[call])
  {
    hide FrameOk, Refers, WellFormed, HistoryOk, ProposalsOk, HintsOk, AcceptancesOk;
  }

  lemma StillRefers(st: State, st': State, f: Frame)
    requires Evolves(st, st') && Refers(st, f)
    ensures Refers(st', f)
  {
    hide DocumentEvolves, Consistent;
    if f.AcceptFrame? || f.StaleFrame? { assert SameProposal(st.proposals[f.pid], st'.proposals[f.pid]); }
  }

  /** Accepting with success: the base test and the hash test passed, on the very text the diff was
      computed from, and the document moved from there to the proposed text at the next revision. */
  lemma AcceptedExactly(w: World, call: nat)
    requires Inv(w) && call in w.frames && w.frames[call].AcceptFrame?
    requires var f := w.frames[call]; FinishAccept(w.state, f.pid, f.copy, f.stamp).1.Done?
    ensures var f := w.frames[call];
      var st' := FinishAccept(w.state, f.pid, f.copy, f.stamp).0; var id := f.copy.session;
      && id in w.state.sessions && id in st'.sessions
      && var d, d' := w.state.sessions[id].document, st'.sessions[id].document;
      && d.revision == f.copy.baseRevision && d.text == f.copy.diff.base
      && d'.revision == d.revision + 1
      && d'.text == f.copy.diff.proposed
  {
    var f := w.frames[call];
    var id := f.copy.session;
    assert FrameOk(w.history, f);
    KnownNow(w, id);
    ConsistentAt(w.state, id);
    AcceptingEvolves(w.state.sessions[id], f.copy.kind, f.stamp);
    hide WellFormed, HistoryOk, ProposalsOk, HintsOk, FramesOk, AcceptancesOk, Accepting, ContentHash, Edits.Apply,
      Consistent;
  }

  /** For every kind of proposal: it is found stale exactly when its base revision has passed, so once the
      revision test has passed neither the hash test nor, for a text edit, the range test can fail. Only
      an exhausted revision counter, or a file that was not looked at yet, stops it then. */
  lemma CreatedProposalsAlwaysApply(w: World, call: nat)
    requires Inv(w) && call in w.frames && w.frames[call].AcceptFrame?
    ensures var f := w.frames[call]; var id := f.copy.session;
      && id in w.state.sessions && f.copy.baseRevision <= w.state.sessions[id].document.revision
      && var d := w.state.sessions[id].document; var outcome := FinishAccept(w.state, f.pid, f.copy, f.stamp).1;
      && (outcome.OutOfDate? <==> d.revision != f.copy.baseRevision)
      && (outcome.Done? <==> d.revision == f.copy.baseRevision && d.revision < U64_MAX
                             && (f.copy.kind.TextEdit? || f.stamp.Some?))
  {
    var f := w.frames[call];
    var id := f.copy.session;
    BaseIsKnown(w, call);
    hide Inv, ProposalOk, FinishAccept;
    AcceptOutcomeIs(w.state, f.pid, f.copy, f.stamp);
  }

  /** What a call that is to accept relies on: its session and proposal are there, the base revision has
      not been passed by, and as long as it is current its text is the text now. */
  lemma BaseIsKnown(w: World, call: nat)
    requires Inv(w) && call in w.frames && w.frames[call].AcceptFrame?
    ensures var f := w.frames[call]; var id := f.copy.session;
      && id in w.state.sessions && f.pid in w.state.proposals && ProposalOk(w.history, f.copy)
      && Consistent(w.state.sessions[id].document)
      && var d := w.state.sessions[id].document;
      && f.copy.baseRevision <= d.revision
      && (f.copy.baseRevision == d.revision ==> d.text == f.copy.diff.base)
      && f.copy.baseHash == ContentHash(f.copy.diff.base)
      && (f.copy.kind.TextEdit? ==> Edits.Apply(f.copy.diff.base, f.copy.kind.operations).Ok?)
  {
    var f := w.frames[call];
    assert FrameOk(w.history, f) && Refers(w.state, f);
    KnownNow(w, f.copy.session);
    ConsistentAt(w.state, f.copy.session);
    hide WellFormed, ProposalsOk, HintsOk, AcceptancesOk, ContentHash, Edits.Apply, Consistent;
  }

  lemma AcceptOutcomeIs(st: State, pid: nat, copy: Proposal, stamp: Option<FileStamp>)
    requires copy.session in st.sessions && pid in st.proposals && Consistent(st.sessions[copy.session].document)
    requires var d := st.sessions[copy.session].document; copy.baseRevision == d.revision ==> d.text == copy.diff.base
    requires copy.baseHash == ContentHash(copy.diff.base)
    requires copy.kind.TextEdit? ==> Edits.Apply(copy.diff.base, copy.kind.operations).Ok?
    ensures var d, outcome := st.sessions[copy.session].document, FinishAccept(st, pid, copy, stamp).1;
      && (outcome.OutOfDate? <==> d.revision != copy.baseRevision)
      && (outcome.Done? <==>
        d.revision == copy.baseRevision && d.revision < U64_MAX && (copy.kind.TextEdit? || stamp.Some?))
  {
    var s := st.sessions[copy.session];
    if s.document.revision == copy.baseRevision && copy.kind.TextEdit? {
      Edits.ApplyKeepsLf(s.document.text, copy.kind.operations);
    }
    hide ContentHash, Edits.Apply, MapError;
  }

  lemma NextKeepsAcceptances(w: World, a: Action)
    requires Inv(w)
    ensures AcceptancesOk(Next(w, a))
  {
    NextExtends(w, a);
    NextEvolves(w, a);
    NextAccepts(w, a);
    AcceptancesKept(w, a, Next(w, a));
  }

  lemma AcceptancesKept(w: World, a: Action, w': World)
    requires Inv(w) && (w'.accepted == w.accepted || AcceptsProposal(w, a, w'))
    requires HistoryOk(w'.history, w'.state) && Extends(w.history, w'.history) && Evolves(w.state, w'.state)
    ensures AcceptancesOk(w')
  {
    hide Next, AcceptanceOk, FinishAccept, Extends, Evolves, WellFormed, HistoryOk, ProposalsOk, HintsOk, FramesOk;
    OldAcceptancesPersist(w, w');
    if w'.accepted != w.accepted {
      NewAcceptanceIsOk(w, w', a.call);
      NewAcceptanceIsLater(w, w'.accepted[|w.accepted|], a.call);
    }
  }

  ghost predicate AcceptsProposal(w: World, a: Action, w': World) {
    && a.AcceptFinish? && a.call in w.frames && w.frames[a.call].AcceptFrame?
    && var f := w.frames[a.call];
      && FinishAccept(w.state, f.pid, f.copy, f.stamp) == (w'.state, Done)
      && var id := f.copy.session;
      w'.accepted == w.accepted
        + [Acceptance(f.pid, id, f.copy.kind, f.copy.baseRevision, DocumentOf(w.state, id).text,
                      DocumentOf(w'.state, id).text)]
  }

  lemma NextAccepts(w: World, a: Action)
    ensures Next(w, a).accepted == w.accepted || AcceptsProposal(w, a, Next(w, a))
  {
    hide Open, Sync, ApplyBatch, MarkSaved, CreateProposal, Reject, MarkStale, FinishAccept, FinishCommit, CancelStaged,
      Record, NewSession, FinishRender, BeginRender, CheckFile, TakeSnapshot, DocumentOf;
  }

  lemma NewAcceptanceIsOk(w: World, w': World, call: nat)
    requires Inv(w) && AcceptsProposal(w, AcceptFinish(call), w')
    requires HistoryOk(w'.history, w'.state) && Extends(w.history, w'.history) && Evolves(w.state, w'.state)
    ensures AcceptanceOk(w'.history, w'.state, w'.accepted[|w.accepted|])
  {
    hide FinishAccept, WellFormed, HistoryOk, ProposalsOk, HintsOk, AcceptancesOk, Extends, FrameOk;
    var f := w.frames[call];
    var id := f.copy.session;
    AcceptedExactly(w, call);
    KnownNow(w, id);
    KnownNow(w', id);
    KnownPersists(w.history, w'.history, id, f.copy.baseRevision, VersionOf(w.state.sessions[id].document));
    ProposalPersists(w, w', call);
    hide FramesOk, Evolves;
  }

  lemma ProposalPersists(w: World, w': World, call: nat)
    requires FramesOk(w) && Evolves(w.state, w'.state) && call in w.frames && w.frames[call].AcceptFrame?
    ensures var f := w.frames[call]; f.pid in w'.state.proposals && SameProposal(w'.state.proposals[f.pid], f.copy)
  {
    hide FrameOk, DocumentEvolves, Consistent;
    var f := w.frames[call];
    assert Refers(w.state, f);
    assert SameProposal(w.state.proposals[f.pid], w'.state.proposals[f.pid]);
  }

  /** The base of an earlier accepted edit of the session is older: its result is already a revision
      of the session, and the session has not gone past this base yet. */
  lemma NewAcceptanceIsLater(w: World, e: Acceptance, call: nat)
    requires Inv(w) && call in w.frames && w.frames[call].AcceptFrame?
    requires var f := w.frames[call]; FinishAccept(w.state, f.pid, f.copy, f.stamp).1.Done?
    requires var f := w.frames[call]; e.session == f.copy.session && e.baseRevision == f.copy.baseRevision
    ensures forall k :: 0 <= k < |w.accepted| && w.accepted[k].session == e.session ==>
      w.accepted[k].baseRevision < e.baseRevision
  {
    AcceptedExactly(w, call);
    hide FinishAccept, WellFormed, ProposalsOk, HintsOk, FramesOk;
    forall k | 0 <= k < |w.accepted| && w.accepted[k].session == e.session
      ensures w.accepted[k].baseRevision < e.baseRevision
    {
      assert AcceptanceOk(w.history, w.state, w.accepted[k]);
      assert w.accepted[k].baseRevision + 1 in w.history[e.session];
    }
  }

  lemma OldAcceptancesPersist(w: World, w': World)
    requires AcceptancesOk(w) && Extends(w.history, w'.history) && Evolves(w.state, w'.state)
    ensures forall k :: 0 <= k < |w.accepted| ==> AcceptanceOk(w'.history, w'.state, w.accepted[k])
  {
  }
}
