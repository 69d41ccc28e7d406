/** The state behind the application lock and what each lock-held section does to it. A public call
    that takes the lock several times is several sections here. */
module Sessions {
  import opened Wrappers
  import opened Encoding
  import opened LineEndings
  import opened EditorTransactions
  import opened EditorDocuments
  import Edits = TextEdits

  datatype Error =
    | SessionNotFound | ProposalNotFound | ProposalPending | RevisionConflict(current: nat) | DeleteStaged
    | StaleProposal | InvalidState | InvalidEditRange | StagedOperationNotFound | DiskFileChanged

  datatype ProposalKind = TextEdit(operations: seq<Edits.TextEdit>) | RenameDocument(target: string) | DeleteDocument

  datatype ProposalStatus = Pending | Accepted | Rejected | Stale

  /** What the user is shown; the unified diff is a rendering of these two texts. */
  datatype Diff = Diff(base: string, proposed: string)

  datatype Proposal = Proposal(
    session: nat, baseRevision: u64, baseHash: bv64, status: ProposalStatus, kind: ProposalKind, diff: Diff)

  datatype StagedKind = StagedRename(target: string) | StagedDelete

  datatype StagedOperation = StagedOperation(
    kind: StagedKind, rootId: string, relativePath: string, fingerprint: string, stagedAtRevision: u64)

  /** A place under a registered root. */
  datatype Place = Place(rootId: string, relativePath: string)

  datatype FileStamp = FileStamp(place: Place, fingerprint: string)

  datatype FileNames = FileNames(fileName: string, filePath: Option<string>, place: Option<Place>)

  datatype Session = Session(
    document: Document,
    fileName: string,
    filePath: Option<string>,
    rootId: Option<string>,
    relativePath: Option<string>,
    visible: bool,
    fingerprint: Option<string>,
    pending: Option<nat>,
    staged: Option<StagedOperation>)

  /** Sessions and proposals draw their ids from one counter. */
  datatype State = State(
    nextId: u64,
    sessions: map<nat, Session>,
    impacts: map<nat, (u64, Option<Impact>)>,
    previews: map<nat, u64>,
    proposals: map<nat, Proposal>)

  const EMPTY := State(0, map[], map[], map[], map[])

  function Fnv1a(hash: bv64, bytes: seq<nat>): bv64
    decreases bytes
  {
    if bytes == [] then hash
    else Fnv1a((hash ^ ((bytes[0] % 0x100) as bv64)) * 0x100000001b3, bytes[1..])
  }

  /** The in-memory guard against stale content. */
  function ContentHash(text: string): bv64 {
    Fnv1a(0xcbf29ce484222325, Encode(Utf8, text))
  }

  function MapError(error: DocumentError): Error {
    match error
    case StaleRevision(_, actual) => RevisionConflict(actual)
    case InvalidChangeRange(_, _, _, _) => InvalidEditRange
    case OverlappingChanges(_, _) => InvalidEditRange
    case InvalidUtf16Boundary(_, _, _) => InvalidEditRange
    case NonCanonicalLineEnding(_, _) => InvalidEditRange
    case _ => InvalidState
  }

  /** The counter saturates. */
  function NextId(st: State): u64 {
    if st.nextId == U64_MAX then U64_MAX else st.nextId + 1
  }

  function WithSession(st: State, id: nat, s: Session): State {
    st.(sessions := st.sessions[id := s])
  }

  function AtPlace(s: Session, names: FileNames): Session {
    s.(fileName := names.fileName, filePath := names.filePath,
       rootId := if names.place.Some? then Some(names.place.value.rootId) else None,
       relativePath := if names.place.Some? then Some(names.place.value.relativePath) else None,
       visible := names.place.Some? || s.visible)
  }

  function NewSession(text: string, isDirty: bool, names: FileNames, visible: bool,
                      fingerprint: Option<string>): Session {
    AtPlace(Session(FromExternalText(text, 1, isDirty), names.fileName, names.filePath, None, None, visible,
                    fingerprint, None, None), names)
  }

  /** Registering a window's document, opening a file, or accepting a new document. */
  function Open(st: State, s: Session): State {
    var id := NextId(st);
    WithSession(st.(nextId := id), id, s)
  }

  predicate DeleteIsStaged(s: Session) {
    s.staged.Some? && s.staged.value.kind.StagedDelete?
  }

  function Sync(st: State, id: nat, expectedRevision: u64, names: FileNames, content: string, isDirty: bool)
    : (State, Result<(), Error>)
  {
    if id !in st.sessions then (st, Err(SessionNotFound))
    else
      var s := st.sessions[id];
      if s.document.revision != expectedRevision then (st, Err(RevisionConflict(s.document.revision)))
      else if DeleteIsStaged(s) then (st, Err(DeleteStaged))
      else
        var n := Normalize(content);
        if s.fileName == names.fileName && s.filePath == names.filePath && s.document.text == n.text
           && s.document.isDirty == isDirty then (st, Ok(()))
        else
          var moved := AtPlace(s, names);
          match WithText(s.document, n.text, isDirty)
          case Err(error) => (WithSession(st, id, moved), Err(MapError(error)))
          case Ok(d) =>
            var document := if '\r' in content then d.(lineEnding := n.lineEnding) else d;
            (WithSession(st, id, moved.(document := document)), Ok(()))
  }

  ghost function ApplyBatch(st: State, id: nat, batch: Batch): (State, Result<Ack, Error>) {
    if id !in st.sessions then (st, Err(SessionNotFound))
    else
      var s := st.sessions[id];
      if DeleteIsStaged(s) then (st, Err(DeleteStaged))
      else
        var (document, r) := Apply(s.document, batch);
        if r.Err? then (st, Err(MapError(r.error)))
        else if r.value.replayed then (st, Ok(r.value))
        else
          (WithSession(st, id, s.(document := document))
             .(impacts := st.impacts[id := (r.value.revision, SingleChangeImpact(s.document, batch))]),
           Ok(r.value))
  }

  /** What is written to disk, taken under the lock at an expected revision. */
  datatype Snapshot = Snapshot(text: string, revision: u64, lineEnding: LineEnding)

  function TakeSnapshot(st: State, id: nat, expectedRevision: u64): Result<Snapshot, Error> {
    if id !in st.sessions then Err(SessionNotFound)
    else
      var d := st.sessions[id].document;
      if d.revision != expectedRevision then Err(RevisionConflict(d.revision))
      else Ok(Snapshot(d.text, d.revision, d.lineEnding))
  }

  function MarkSaved(st: State, id: nat, expectedRevision: Option<u64>, names: FileNames, fingerprint: Option<string>)
    : (State, Result<(), Error>)
  {
    if id !in st.sessions then (st, Err(SessionNotFound))
    else
      var s := st.sessions[id];
      if expectedRevision.Some? && s.document.revision != expectedRevision.value then
        (st, Err(RevisionConflict(s.document.revision)))
      else
        (WithSession(st, id, AtPlace(s, names).(fingerprint := fingerprint, document := AsSaved(s.document))), Ok(()))
  }

  /** The proposed text, or why the proposal cannot be made. */
  ghost function Propose(s: Session, kind: ProposalKind): Result<string, Error> {
    match kind
    case TextEdit(operations) =>
      (match Edits.Apply(s.document.text, operations)
       case Ok(text) => Ok(text)
       case Err(_) => Err(InvalidEditRange))
    case _ => if s.rootId.None? || s.relativePath.None? then Err(InvalidState) else Ok(s.document.text)
  }

  ghost function CreateProposal(st: State, id: nat, expectedRevision: u64, kind: ProposalKind)
    : (State, Result<nat, Error>)
  {
    if id !in st.sessions || !st.sessions[id].visible then (st, Err(SessionNotFound))
    else
      var s := st.sessions[id];
      if s.pending.Some? then (st, Err(ProposalPending))
      else if s.document.revision != expectedRevision then (st, Err(RevisionConflict(s.document.revision)))
      else
        match Propose(s, kind)
        case Err(error) => (st, Err(error))
        case Ok(proposed) =>
          var text := s.document.text;
          var pid := NextId(st);
          var p := Proposal(id, expectedRevision, ContentHash(text), Pending, kind, Diff(text, proposed));
          (WithSession(st, id, s.(pending := Some(pid))).(nextId := pid, proposals := st.proposals[pid := p]), Ok(pid))
  }

  /** The session after accepting a proposal of this kind at its current revision. */
  ghost function Accepting(s: Session, kind: ProposalKind, stamp: Option<FileStamp>): Result<Session, Error> {
    match kind
    case TextEdit(operations) =>
      (match Edits.Apply(s.document.text, operations)
       case Err(_) => Err(InvalidEditRange)
       case Ok(text) =>
         match WithText(s.document, text, true)
         case Err(error) => Err(MapError(error))
         case Ok(d) => Ok(s.(document := d, pending := None)))
    case RenameDocument(target) => Staging(s, StagedRename(target), stamp)
    case DeleteDocument => Staging(s, StagedDelete, stamp)
  }

  function Staging(s: Session, kind: StagedKind, stamp: Option<FileStamp>): Result<Session, Error> {
    if stamp.None? || s.document.revision == U64_MAX then Err(InvalidState)
    else
      var place := stamp.value.place;
      var next := s.document.revision + 1;
      Ok(s.(staged := Some(StagedOperation(kind, place.rootId, place.relativePath, stamp.value.fingerprint, next)),
            document := s.document.(revision := next), pending := None))
  }

  datatype AcceptOutcome = Done | OutOfDate | Failed(error: Error)

  /** The last section of accepting, working on a copy of the proposal read earlier. */
  ghost function FinishAccept(st: State, pid: nat, copy: Proposal, stamp: Option<FileStamp>): (State, AcceptOutcome) {
    if copy.session !in st.sessions || pid !in st.proposals then (st, Failed(SessionNotFound))
    else
      var s := st.sessions[copy.session];
      if s.document.revision != copy.baseRevision then (st, OutOfDate)
      else if ContentHash(s.document.text) != copy.baseHash then (st, OutOfDate)
      else
        match Accepting(s, copy.kind, stamp)
        case Err(error) => (st, Failed(error))
        case Ok(s') =>
          (WithSession(st, copy.session, s').(proposals := st.proposals[pid := st.proposals[pid].(status := Accepted)]),
           Done)
  }

  function MarkStale(st: State, pid: nat, id: nat): State {
    var st' := if pid in st.proposals then st.(proposals := st.proposals[pid := st.proposals[pid].(status := Stale)])
      else st;
    if id in st.sessions then WithSession(st', id, st.sessions[id].(pending := None)) else st'
  }

  function Reject(st: State, pid: nat): (State, Result<(), Error>) {
    if pid !in st.proposals then (st, Err(ProposalNotFound))
    else
      var p := st.proposals[pid];
      if !p.status.Pending? then (st, Err(InvalidState))
      else
        var st' := st.(proposals := st.proposals[pid := p.(status := Rejected)]);
        (if p.session in st.sessions then WithSession(st', p.session, st.sessions[p.session].(pending := None))
          else st',
         Ok(()))
  }

  datatype RenamedFile = RenamedFile(fileName: string, filePath: string, relativePath: string, fingerprint: string)

  /** The last section of committing a staged operation, after the file was renamed or trashed. */
  function FinishCommit(st: State, id: nat, stage: StagedOperation, content: string, renamed: Option<RenamedFile>)
    : (State, Result<(), Error>)
  {
    if id !in st.sessions then (st, Err(SessionNotFound))
    else
      var s := st.sessions[id];
      if s.staged != Some(stage) then (st, Err(InvalidState))
      else
        match renamed
        case Some(file) =>
          var s' := s.(filePath := Some(file.filePath), relativePath := Some(file.relativePath),
                       fileName := file.fileName, fingerprint := Some(file.fingerprint), staged := None);
          (match WithTouch(s.document)
           case Err(error) => (WithSession(st, id, s'), Err(MapError(error)))
           case Ok(d) => (WithSession(st, id, s'.(document := d)), Ok(())))
        case None =>
          var s' := s.(filePath := None, rootId := None, relativePath := None, fingerprint := None);
          match WithDirty(s.document, content != [])
          case Err(error) => (WithSession(st, id, s'), Err(MapError(error)))
          case Ok(d) => (WithSession(st, id, s'.(document := d, staged := None)), Ok(()))
  }

  function CancelStaged(st: State, id: nat): (State, Result<(), Error>) {
    if id !in st.sessions then (st, Err(SessionNotFound))
    else
      var s := st.sessions[id];
      if s.staged.None? then (st, Err(StagedOperationNotFound))
      else
        match WithTouch(s.document)
        case Err(error) => (WithSession(st, id, s.(staged := None)), Err(MapError(error)))
        case Ok(d) => (WithSession(st, id, s.(staged := None, document := d)), Ok(()))
  }

  /** The hint that belongs to exactly this revision. */
  function HintAt(st: State, id: nat, revision: u64): Option<Impact> {
    if id in st.impacts && st.impacts[id].0 == revision then st.impacts[id].1 else None
  }

  function BeginRender(st: State, id: nat, expectedRevision: u64): (State, Result<(Document, Option<Impact>), Error>) {
    if id !in st.sessions then (st, Err(SessionNotFound))
    else
      var d := st.sessions[id].document;
      if d.revision != expectedRevision then (st, Err(RevisionConflict(d.revision)))
      else (st.(previews := st.previews - {id}), Ok((d, HintAt(st, id, expectedRevision))))
  }

  function FinishRender(st: State, id: nat, expectedRevision: u64): (State, Result<(), Error>) {
    if id !in st.sessions then (st, Err(SessionNotFound))
    else
      var d := st.sessions[id].document;
      if d.revision != expectedRevision then (st, Err(RevisionConflict(d.revision)))
      else (st.(previews := st.previews[id := expectedRevision]), Ok(()))
  }
}
