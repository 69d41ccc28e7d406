/** The application state as the service updates it, one method for each lock-held section. */
module ApplicationServices {
  import opened Wrappers
  import opened LineEndings
  import opened EditorDocuments
  import opened Sessions
  import Edits = TextEdits

  class ApplicationService {
    var nextId: u64
    var sessions: map<nat, Session>
    var impacts: map<nat, (u64, Option<Impact>)>
    var previews: map<nat, u64>
    var proposals: map<nat, Proposal>

    function State(): Sessions.State
      reads this
    {
      Sessions.State(nextId, sessions, impacts, previews, proposals)
    }

    constructor ()
      ensures State() == EMPTY
    {
      nextId, sessions, impacts, previews, proposals := 0, map[], map[], map[], map[];
    }

    method TakeId() returns (id: u64)
      modifies this`nextId
      ensures id == nextId == NextId(old(State()))
    {
      if nextId < U64_MAX {
        nextId := nextId + 1;
      }
      id := nextId;
    }

    method OpenSession(session: Session) returns (id: nat)
      modifies this
      ensures State() == Open(old(State()), session) && id == NextId(old(State()))
    {
      id := TakeId();
      sessions := sessions[id := session];
    }

    /** A refused sync leaves the state alone, except that an exhausted revision is found only
        after the names were updated. */
    method SyncFrontendSession(id: nat, expectedRevision: u64, names: FileNames, content: string, isDirty: bool)
      returns (r: Result<(), Error>)
      modifies this
      ensures (State(), r) == Sync(old(State()), id, expectedRevision, names, content, isDirty)
    {
      if id !in sessions {
        return Err(SessionNotFound);
      }
      var session := sessions[id];
      if session.document.revision != expectedRevision {
        return Err(RevisionConflict(session.document.revision));
      }
      if session.staged.Some? && session.staged.value.kind.StagedDelete? {
        return Err(DeleteStaged);
      }
      var normalized := NormalizeEditorText(content);
      if session.fileName == names.fileName && session.filePath == names.filePath
         && session.document.text == normalized.text && session.document.isDirty == isDirty {
        return Ok(());
      }
      session := AtPlace(session, names);
      sessions := sessions[id := session];
      CanonicalHasNoCr(content);
      if session.document.revision == U64_MAX {
        return Err(InvalidState);
      }
      var document := session.document.(text := normalized.text, isDirty := isDirty,
                                        savedText := if isDirty then None else Some(normalized.text),
                                        revision := session.document.revision + 1);
      if '\r' in content {
        document := document.(lineEnding := normalized.lineEnding);
      }
      sessions := sessions[id := session.(document := document)];
      assert sessions == old(sessions)[id := session.(document := document)];
      return Ok(());
    }

    method ApplyEditorMutationBatch(id: nat, batch: Batch) returns (r: Result<Ack, Error>)
      modifies this
      ensures (State(), r) == ApplyBatch(old(State()), id, batch)
    {
      if id !in sessions {
        return Err(SessionNotFound);
      }
      var session := sessions[id];
      if session.staged.Some? && session.staged.value.kind.StagedDelete? {
        return Err(DeleteStaged);
      }
      hide Apply, SingleChangeImpact;
      var impact := SingleChangeImpact(session.document, batch);
      var document := new EditorDocument.Of(session.document);
      var ack := document.ApplyMutationBatch(batch);
      if ack.Err? {
        return Err(MapError(ack.error));
      }
      if !ack.value.replayed {
        sessions := sessions[id := session.(document := document.State())];
        impacts := impacts[id := (ack.value.revision, impact)];
      }
      return Ok(ack.value);
    }

    method MarkFrontendSessionSaved(id: nat, expectedRevision: Option<u64>, names: FileNames,
                                    fingerprint: Option<string>)
      returns (r: Result<(), Error>)
      modifies this
      ensures (State(), r) == MarkSaved(old(State()), id, expectedRevision, names, fingerprint)
    {
      if id !in sessions {
        return Err(SessionNotFound);
      }
      var session := sessions[id];
      if expectedRevision.Some? && session.document.revision != expectedRevision.value {
        return Err(RevisionConflict(session.document.revision));
      }
      session := AtPlace(session, names).(fingerprint := fingerprint);
      var document := session.document.(savedText := Some(session.document.text), isDirty := false);
      sessions := sessions[id := session.(document := document)];
      return Ok(());
    }

    method ProposedText(session: Session, kind: ProposalKind) returns (r: Result<string, Error>)
      ensures r == Propose(session, kind)
    {
      hide Edits.Apply;
      match kind {
        case TextEdit(operations) =>
          var edited := Edits.ApplyTextEdits(session.document.text, operations);
          r := if edited.Ok? then Ok(edited.value) else Err(InvalidEditRange);
        case _ =>
          r := if session.rootId.None? || session.relativePath.None? then Err(InvalidState)
               else Ok(session.document.text);
      }
    }

    method CreateSessionProposal(id: nat, expectedRevision: u64, kind: ProposalKind) returns (r: Result<nat, Error>)
      modifies this
      ensures (State(), r) == CreateProposal(old(State()), id, expectedRevision, kind)
    {
      hide Propose, ContentHash;
      if id !in sessions || !sessions[id].visible {
        return Err(SessionNotFound);
      }
      var session := sessions[id];
      if session.pending.Some? {
        return Err(ProposalPending);
      }
      if session.document.revision != expectedRevision {
        return Err(RevisionConflict(session.document.revision));
      }
      var proposed := ProposedText(session, kind);
      if proposed.Err? {
        return Err(proposed.error);
      }
      var text := session.document.text;
      var pid := TakeId();
      sessions := sessions[id := session.(pending := Some(pid))];
      proposals := proposals[pid := Proposal(id, session.document.revision, ContentHash(text), Pending, kind,
                                             Diff(text, proposed.value))];
      return Ok(pid);
    }

    method ReplacedSession(session: Session, text: string) returns (r: Result<Session, Error>)
      ensures r == match WithText(session.document, text, true)
                   case Err(error) => Err(MapError(error))
                   case Ok(d) => Ok(session.(document := d, pending := None))
    {
      var document := new EditorDocument.Of(session.document);
      var error := document.ReplaceCanonicalText(text, true);
      if error.Some? {
        return Err(MapError(error.value));
      }
      return Ok(session.(document := document.State(), pending := None));
    }

    method AcceptedSession(session: Session, kind: ProposalKind, stamp: Option<FileStamp>)
      returns (r: Result<Session, Error>)
      ensures r == Accepting(session, kind, stamp)
    {
      hide Edits.Apply;
      match kind {
        case TextEdit(operations) =>
          var edited := Edits.ApplyTextEdits(session.document.text, operations);
          if edited.Err? {
            return Err(InvalidEditRange);
          }
          r := ReplacedSession(session, edited.value);
        case RenameDocument(target) => return Staging(session, StagedRename(target), stamp);
        case DeleteDocument => return Staging(session, StagedDelete, stamp);
      }
    }

    method FinishAcceptProposal(pid: nat, copy: Proposal, stamp: Option<FileStamp>) returns (outcome: AcceptOutcome)
      modifies this
      ensures (State(), outcome) == FinishAccept(old(State()), pid, copy, stamp)
    {
      hide Accepting, ContentHash;
      if copy.session !in sessions || pid !in proposals {
        return Failed(SessionNotFound);
      }
      var session := sessions[copy.session];
      if session.document.revision != copy.baseRevision {
        return OutOfDate;
      }
      if ContentHash(session.document.text) != copy.baseHash {
        return OutOfDate;
      }
      var accepted := AcceptedSession(session, copy.kind, stamp);
      if accepted.Err? {
        return Failed(accepted.error);
      }
      sessions := sessions[copy.session := accepted.value];
      proposals := proposals[pid := proposals[pid].(status := Accepted)];
      return Done;
    }

    method MarkProposalStale(pid: nat, id: nat)
      modifies this
      ensures State() == MarkStale(old(State()), pid, id)
    {
      if pid in proposals {
        proposals := proposals[pid := proposals[pid].(status := Stale)];
      }
      if id in sessions {
        sessions := sessions[id := sessions[id].(pending := None)];
      }
    }

    method RejectSessionProposal(pid: nat) returns (r: Result<(), Error>)
      modifies this
      ensures (State(), r) == Reject(old(State()), pid)
    {
      if pid !in proposals {
        return Err(ProposalNotFound);
      }
      var proposal := proposals[pid];
      if proposal.status != Pending {
        return Err(InvalidState);
      }
      proposals := proposals[pid := proposal.(status := Rejected)];
      if proposal.session in sessions {
        sessions := sessions[proposal.session := sessions[proposal.session].(pending := None)];
      }
      return Ok(());
    }

    method CancelStagedFileOperation(id: nat) returns (r: Result<(), Error>)
      modifies this
      ensures (State(), r) == CancelStaged(old(State()), id)
    {
      if id !in sessions {
        return Err(SessionNotFound);
      }
      var session := sessions[id];
      if session.staged.None? {
        return Err(StagedOperationNotFound);
      }
      session := session.(staged := None);
      sessions := sessions[id := session];
      if session.document.revision == U64_MAX {
        return Err(InvalidState);
      }
      session := session.(document := session.document.(revision := session.document.revision + 1));
      sessions := sessions[id := session];
      assert sessions == old(sessions)[id := session];
      return Ok(());
    }

    method FinishCommitStaged(id: nat, stage: StagedOperation, content: string, renamed: Option<RenamedFile>)
      returns (r: Result<(), Error>)
      modifies this
      ensures (State(), r) == FinishCommit(old(State()), id, stage, content, renamed)
    {
      if id !in sessions {
        return Err(SessionNotFound);
      }
      var session := sessions[id];
      if session.staged != Some(stage) {
        return Err(InvalidState);
      }
      var document := new EditorDocument.Of(session.document);
      var error;
      match renamed {
        case Some(file) =>
          session := session.(filePath := Some(file.filePath), relativePath := Some(file.relativePath),
                              fileName := file.fileName, fingerprint := Some(file.fingerprint), staged := None);
          error := document.Touch();
        case None =>
          session := session.(filePath := None, rootId := None, relativePath := None, fingerprint := None);
          error := document.SetDirtyAndTouch(content != []);
          if error.None? {
            session := session.(staged := None);
          }
      }
      sessions := sessions[id := session.(document := document.State())];
      if error.Some? {
        return Err(MapError(error.value));
      }
      return Ok(());
    }

    method BeginRenderPreview(id: nat, expectedRevision: u64) returns (r: Result<(Document, Option<Impact>), Error>)
      modifies this
      ensures (State(), r) == BeginRender(old(State()), id, expectedRevision)
    {
      if id !in sessions {
        return Err(SessionNotFound);
      }
      var document := sessions[id].document;
      if document.revision != expectedRevision {
        return Err(RevisionConflict(document.revision));
      }
      var hint := if id in impacts && impacts[id].0 == expectedRevision then impacts[id].1 else None;
      previews := previews - {id};
      return Ok((document, hint));
    }

    method FinishRenderPreview(id: nat, expectedRevision: u64) returns (r: Result<(), Error>)
      modifies this
      ensures (State(), r) == FinishRender(old(State()), id, expectedRevision)
    {
      if id !in sessions {
        return Err(SessionNotFound);
      }
      if sessions[id].document.revision != expectedRevision {
        return Err(RevisionConflict(sessions[id].document.revision));
      }
      previews := previews[id := expectedRevision];
      return Ok(());
    }
  }

  /** Saving without interruption: take the snapshot, stream its chunks to the file, mark saved.
      `chunks` is where the rope happens to cut the text and `writable` whether the disk takes it. */
  method PersistEditorSession(app: ApplicationService, file: Sink, id: nat, expectedRevision: u64, names: FileNames,
                              fingerprint: Option<string>, chunks: seq<string>, writable: bool)
    returns (r: Result<(), Error>)
    requires id in app.sessions ==> Join(chunks) == app.sessions[id].document.text
    modifies app, file
    ensures r.Ok? <==>
      id in old(app.sessions) && old(app.sessions[id].document.revision) == expectedRevision && writable
    ensures r.Ok? ==>
      && id in app.sessions
      && file.written == old(file.written) + PersistedText(app.sessions[id].document)
      && app.sessions[id].document == old(AsSaved(app.sessions[id].document))
    ensures r.Err? ==> app.State() == old(app.State()) && file.written == old(file.written)
  {
    var snapshot := TakeSnapshot(app.State(), id, expectedRevision);
    if snapshot.Err? {
      return Err(snapshot.error);
    }
    if !writable {
      return Err(DiskFileChanged);
    }
    WriteTo(file, chunks, snapshot.value.lineEnding);
    r := app.MarkFrontendSessionSaved(id, Some(expectedRevision), names, fingerprint);
  }
}
