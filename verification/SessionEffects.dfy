/** When each call on a session succeeds and what the sessions and proposals are afterwards, told without
    the functions that compute it, and what calls in sequence amount to. */
module SessionEffects {
  import opened Wrappers
  import opened Encoding
  import opened LineEndings
  import opened EditorTransactions
  import opened EditorDocuments
  import opened Sessions
  import Edits = TextEdits

  /** The answer to a revision that is not the session's. */
  function RevisionError(st: State, id: nat): Error {
    if id in st.sessions then RevisionConflict(st.sessions[id].document.revision) else SessionNotFound
  }

  /** Only this session may differ. */
  predicate OnlySession(st: State, st': State, id: nat) {
    && id in st.sessions && st'.sessions.Keys == st.sessions.Keys
    && (forall other :: other in st.sessions && other != id ==> st'.sessions[other] == st.sessions[other])
    && st'.nextId == st.nextId && st'.impacts == st.impacts && st'.previews == st.previews
    && st'.proposals == st.proposals
  }

  /** The session has these names. With a place it is visible from then on; without one it has none. */
  predicate IsNamed(s: Session, names: FileNames, wasVisible: bool) {
    && s.fileName == names.fileName && s.filePath == names.filePath
    && match names.place
       case Some(place) => s.rootId == Some(place.rootId) && s.relativePath == Some(place.relativePath) && s.visible
       case None => s.rootId.None? && s.relativePath.None? && s.visible == wasVisible
  }

  /** The document was replaced: at the next revision, and as the new baseline unless it is dirty. */
  predicate IsReplaced(d: Document, d': Document, text: string, isDirty: bool) {
    && d'.text == text && d'.isDirty == isDirty && d'.revision == d.revision + 1
    && d'.savedText == (if isDirty then None else Some(text)) && d'.lastBatches == d.lastBatches
  }

  predicate IsDeletionStaged(s: Session) {
    s.staged.Some? && s.staged.value.kind == StagedDelete
  }

  /** What the frontend reports is what the session already has. The place is not looked at. */
  predicate IsReported(s: Session, names: FileNames, content: string, isDirty: bool) {
    && s.fileName == names.fileName && s.filePath == names.filePath
    && s.document.text == Canonical(content) && s.document.isDirty == isDirty
  }

  /** A window's document or an opened file gets a new id, its text at revision 1 and nothing else. */
  lemma OpenTakesEffect(st: State, text: string, isDirty: bool, names: FileNames, visible: bool,
                        fingerprint: Option<string>)
    requires st.nextId < U64_MAX && forall id :: id in st.sessions ==> id <= st.nextId
    ensures var st', id := Open(st, NewSession(text, isDirty, names, visible, fingerprint)), st.nextId + 1;
      && id !in st.sessions && st'.nextId == id && st'.sessions.Keys == st.sessions.Keys + {id}
      && (forall other :: other in st.sessions ==> st'.sessions[other] == st.sessions[other])
      && st'.impacts == st.impacts && st'.previews == st.previews && st'.proposals == st.proposals
      && var s := st'.sessions[id];
      && IsNamed(s, names, visible) && s.fingerprint == fingerprint && s.pending.None? && s.staged.None?
      && s.document == Document(Canonical(text), if isDirty then None else Some(Canonical(text)), 1,
                                if IsMostlyCrLf(text) then CrLf else Lf, isDirty, map[])
  {
    hide Canonical, IsMostlyCrLf;
    EndingIsTheMajority(text);
    CanonicalHasNoCr(text);
  }

  /** A sync succeeds at the current revision, unless a deletion is staged or the revisions are used up. The
      session then has what was reported: the content in canonical form, the names, the flag; carriage
      returns decide the line ending anew. A report of what is already there changes nothing. */
  lemma SyncTakesEffect(st: State, id: nat, revision: u64, names: FileNames, content: string, isDirty: bool)
    ensures var (st', r) := Sync(st, id, revision, names, content, isDirty);
      && (r.Ok? <==>
            && id in st.sessions && st.sessions[id].document.revision == revision && !IsDeletionStaged(st.sessions[id])
            && (IsReported(st.sessions[id], names, content, isDirty) || revision < U64_MAX))
      && (r.Ok? && IsReported(st.sessions[id], names, content, isDirty) ==> st' == st)
      && (r.Ok? && !IsReported(st.sessions[id], names, content, isDirty) ==>
            && OnlySession(st, st', id)
            && var s, s' := st.sessions[id], st'.sessions[id];
            && IsNamed(s', names, s.visible) && IsReplaced(s.document, s'.document, Canonical(content), isDirty)
            && s'.document.lineEnding
               == (if '\r' !in content then s.document.lineEnding else if IsMostlyCrLf(content) then CrLf else Lf)
            && s'.fingerprint == s.fingerprint && s'.pending == s.pending && s'.staged == s.staged)
  {
    hide Canonical, IsMostlyCrLf;
    EndingIsTheMajority(content);
    CanonicalHasNoCr(content);
  }

  /** A refused sync says why, and leaves the document alone; the names are already changed when the
      revisions are found to be used up. */
  lemma SyncRefusal(st: State, id: nat, revision: u64, names: FileNames, content: string, isDirty: bool)
    requires Sync(st, id, revision, names, content, isDirty).1.Err?
    ensures var (st', r) := Sync(st, id, revision, names, content, isDirty);
      && (r.error == SessionNotFound <==> id !in st.sessions)
      && (id in st.sessions ==>
            var s := st.sessions[id];
            && (s.document.revision != revision <==> r.error.RevisionConflict?)
            && (s.document.revision != revision ==> r.error == RevisionConflict(s.document.revision))
            && (s.document.revision == revision && IsDeletionStaged(s) <==> r.error == DeleteStaged))
      && (r.error == InvalidState ==>
            revision == U64_MAX && OnlySession(st, st', id) && IsNamed(st'.sessions[id], names, st.sessions[id].visible)
            && st'.sessions[id].document == st.sessions[id].document)
      && (r.error != InvalidState ==> st' == st)
  {
    hide Canonical;
    CanonicalHasNoCr(content);
  }

  /** What was synced is what is saved: the content comes back byte for byte from the snapshot that is taken next,
      exactly when all its breaks are CRLF, or it has no carriage return and the session's ending is LF or there
      is no break at all. */
  lemma SyncedContentIsSaved(st: State, id: nat, revision: u64, names: FileNames, content: string, isDirty: bool)
    requires var (st', r) := Sync(st, id, revision, names, content, isDirty); r.Ok? && st' != st
    ensures var st' := Sync(st, id, revision, names, content, isDirty).0;
      && revision < U64_MAX && TakeSnapshot(st', id, revision + 1).Ok?
      && var snapshot := TakeSnapshot(st', id, revision + 1).value;
      Persisted(snapshot.text, snapshot.lineEnding) == content <==>
        if '\r' in content then UniformCrLf(content)
        else st.sessions[id].document.lineEnding == Lf || '\n' !in content
  {
    SyncTakesEffect(st, id, revision, names, content, isDirty);
    OpenAndSaveIsIdentityIffUniform(content);
    EndingIsTheMajority(content);
    hide Canonical, IsMostlyCrLf, UniformCrLf, Sync;
    if '\r' !in content {
      CanonicalKeepsLf(content);
      ToCrLfKeepsIff(content);
    }
  }

  /** Marking as saved succeeds at the expected revision. The text becomes the baseline and nothing of the
      text or its revision changes. */
  lemma SavedBecomesTheBaseline(st: State, id: nat, expected: Option<u64>, names: FileNames,
                                fingerprint: Option<string>)
    ensures var (st', r) := MarkSaved(st, id, expected, names, fingerprint);
      && (r.Ok? <==> id in st.sessions && expected in {None, Some(st.sessions[id].document.revision)})
      && (r.Err? ==> st' == st && r.error == RevisionError(st, id))
      && (r.Ok? ==>
            && OnlySession(st, st', id)
            && var s, s' := st.sessions[id], st'.sessions[id]; var d, d' := s.document, s'.document;
            && IsNamed(s', names, s.visible) && s'.fingerprint == fingerprint
            && s'.pending == s.pending && s'.staged == s.staged
            && d'.text == d.text && d'.revision == d.revision && d'.lineEnding == d.lineEnding
            && d'.lastBatches == d.lastBatches && !d'.isDirty && d'.savedText == Some(d.text))
  {
  }

  /** A snapshot is what the document holds at the expected revision. */
  lemma SnapshotIsTheDocument(st: State, id: nat, revision: u64)
    ensures var r := TakeSnapshot(st, id, revision);
      && (r.Ok? <==> id in st.sessions && st.sessions[id].document.revision == revision)
      && (r.Ok? ==> Persisted(r.value.text, r.value.lineEnding) == PersistedText(st.sessions[id].document)
                    && r.value.revision == revision)
      && (r.Err? ==> r.error == RevisionError(st, id))
  {
  }

  /** A proposal can be made for a visible session without a pending one, at its current revision: a text edit
      if it applies, a rename or a deletion if the file has a place. */
  ghost predicate CanPropose(st: State, id: nat, revision: u64, kind: ProposalKind) {
    && id in st.sessions
    && var s := st.sessions[id];
    && s.visible && s.pending.None? && s.document.revision == revision
    && if kind.TextEdit? then Edits.Apply(s.document.text, kind.operations).Ok?
       else s.rootId.Some? && s.relativePath.Some?
  }

  /** It is made exactly then, shows the text before and after, and becomes the session's pending one. */
  lemma ProposalIsMadeExactlyWhen(st: State, id: nat, revision: u64, kind: ProposalKind)
    requires st.nextId < U64_MAX
    ensures var (st', r) := CreateProposal(st, id, revision, kind);
      && (r.Ok? <==> CanPropose(st, id, revision, kind))
      && (r.Err? ==> st' == st)
      && (r.Ok? ==>
            var pid, s := st.nextId + 1, st.sessions[id]; var text := s.document.text;
            && r.value == pid && st'.nextId == pid
            && st'.sessions == st.sessions[id := s.(pending := Some(pid))]
            && st'.impacts == st.impacts && st'.previews == st.previews
            && st'.proposals.Keys == st.proposals.Keys + {pid}
            && (forall other :: other in st.proposals && other != pid ==> st'.proposals[other] == st.proposals[other])
            && var p := st'.proposals[pid];
            && p.session == id && p.baseRevision == revision && p.status == Pending && p.kind == kind
            && p.baseHash == ContentHash(text) && p.diff.base == text
            && if kind.TextEdit? then Edits.Apply(text, kind.operations) == Ok(p.diff.proposed)
               else p.diff.proposed == text)
  {
    hide Edits.Apply, ContentHash;
  }

  /** Why a proposal is not made: the first of these that applies. */
  lemma ProposalRefusal(st: State, id: nat, revision: u64, kind: ProposalKind)
    requires CreateProposal(st, id, revision, kind).1.Err?
    ensures var error := CreateProposal(st, id, revision, kind).1.error;
      if id !in st.sessions || !st.sessions[id].visible then error == SessionNotFound
      else if st.sessions[id].pending.Some? then error == ProposalPending
      else if st.sessions[id].document.revision != revision then
        error == RevisionConflict(st.sessions[id].document.revision)
      else error == if kind.TextEdit? then InvalidEditRange else InvalidState
  {
    hide Edits.Apply, ContentHash;
  }

  /** Only a pending proposal can be rejected. Its session has no pending one then. */
  lemma RejectedExactlyWhenPending(st: State, pid: nat)
    ensures var (st', r) := Reject(st, pid);
      && (r.Ok? <==> pid in st.proposals && st.proposals[pid].status == Pending)
      && (r.Err? ==> st' == st && r.error == if pid in st.proposals then InvalidState else ProposalNotFound)
      && (r.Ok? ==>
            && st'.nextId == st.nextId && st'.impacts == st.impacts && st'.previews == st.previews
            && st'.proposals == st.proposals[pid := st.proposals[pid].(status := Rejected)]
            && st'.sessions.Keys == st.sessions.Keys
            && forall id :: id in st.sessions ==>
                 st'.sessions[id]
                 == if id == st.proposals[pid].session then st.sessions[id].(pending := None) else st.sessions[id])
  {
  }

  /** A proposal that is made and rejected leaves nothing but its record. */
  lemma ProposedAndRejected(st: State, id: nat, revision: u64, kind: ProposalKind)
    requires st.nextId < U64_MAX && CreateProposal(st, id, revision, kind).1.Ok?
    ensures var (made, r) := CreateProposal(st, id, revision, kind);
      && var (st', done) := Reject(made, r.value);
      && done.Ok? && st'.sessions == st.sessions && st'.impacts == st.impacts && st'.previews == st.previews
      && st'.proposals[r.value].status == Rejected
  {
    hide Propose, ContentHash;
    assert st.sessions[id].(pending := None) == st.sessions[id];
  }

  /** An out of date proposal is marked and its session freed, whichever of the two is still there. */
  lemma StaleTakesEffect(st: State, pid: nat, id: nat)
    ensures var st' := MarkStale(st, pid, id);
      && st'.nextId == st.nextId && st'.impacts == st.impacts && st'.previews == st.previews
      && st'.proposals.Keys == st.proposals.Keys && st'.sessions.Keys == st.sessions.Keys
      && (forall other :: other in st.proposals && other != pid ==> st'.proposals[other] == st.proposals[other])
      && (pid in st.proposals ==> st'.proposals[pid] == st.proposals[pid].(status := Stale))
      && (forall other :: other in st.sessions && other != id ==> st'.sessions[other] == st.sessions[other])
      && (id in st.sessions ==> st'.sessions[id] == st.sessions[id].(pending := None))
  {
  }

  /** A commit succeeds exactly while the operation is still the staged one. A renamed file gives the session
      its name, path and fingerprint and keeps the text; after a deletion the session has no file, and its
      text is dirty unless it is empty. Either way nothing is staged any more. */
  lemma CommitTakesEffect(st: State, id: nat, stage: StagedOperation, content: string, renamed: Option<RenamedFile>)
    ensures var (st', r) := FinishCommit(st, id, stage, content, renamed);
      && (r.Ok? <==>
            id in st.sessions && st.sessions[id].staged == Some(stage) && st.sessions[id].document.revision < U64_MAX)
      && (r.Ok? ==>
            && OnlySession(st, st', id)
            && var s, s' := st.sessions[id], st'.sessions[id]; var d, d' := s.document, s'.document;
            && s'.staged.None? && s'.pending == s.pending && s'.visible == s.visible
            && d'.text == d.text && d'.revision == d.revision + 1 && d'.lineEnding == d.lineEnding
            && d'.lastBatches == d.lastBatches
            && if renamed.Some? then
                 && s'.fileName == renamed.value.fileName && s'.filePath == Some(renamed.value.filePath)
                 && s'.relativePath == Some(renamed.value.relativePath) && s'.rootId == s.rootId
                 && s'.fingerprint == Some(renamed.value.fingerprint)
                 && d'.isDirty == d.isDirty && d'.savedText == d.savedText
               else
                 && s'.fileName == s.fileName && s'.filePath.None? && s'.relativePath.None? && s'.rootId.None?
                 && s'.fingerprint.None? && (d'.isDirty <==> content != "")
                 && d'.savedText == if content == "" then Some(d.text) else None)
      && (r.Err? ==>
            if id !in st.sessions then st' == st && r.error == SessionNotFound
            else if st.sessions[id].staged != Some(stage) then st' == st && r.error == InvalidState
            else
              && r.error == InvalidState && OnlySession(st, st', id)
              && st'.sessions[id].document == st.sessions[id].document)
  {
  }

  /** What is staged can be cancelled, which takes a revision and changes nothing else. */
  lemma CancelTakesEffect(st: State, id: nat)
    ensures var (st', r) := CancelStaged(st, id);
      && (r.Ok? <==> id in st.sessions && st.sessions[id].staged.Some? && st.sessions[id].document.revision < U64_MAX)
      && (r.Ok? ==> OnlySession(st, st', id) && var s := st.sessions[id];
            st'.sessions[id] == s.(staged := None, document := s.document.(revision := s.document.revision + 1)))
      && (r.Err? ==>
            if id !in st.sessions then st' == st && r.error == SessionNotFound
            else if st.sessions[id].staged.None? then st' == st && r.error == StagedOperationNotFound
            else
              && r.error == InvalidState && OnlySession(st, st', id)
              && st'.sessions[id] == st.sessions[id].(staged := None))
  {
  }

  /** A batch reaches the document of its session, unless a deletion is staged; only a new batch leaves a hint. */
  lemma BatchTakesEffect(st: State, id: nat, batch: Batch)
    ensures var (st', r) := ApplyBatch(st, id, batch);
      && (r.Ok? <==> id in st.sessions && !IsDeletionStaged(st.sessions[id])
                     && Apply(st.sessions[id].document, batch).1.Ok?)
      && (r.Ok? ==> Apply(st.sessions[id].document, batch).1 == Ok(r.value))
      && (r.Err? || r.value.replayed ==> st' == st)
      && (r.Ok? && !r.value.replayed ==>
            && st'.nextId == st.nextId && st'.previews == st.previews && st'.proposals == st.proposals
            && st'.sessions == st.sessions[id := st.sessions[id].(document := Apply(st.sessions[id].document, batch).0)]
            && st'.impacts.Keys == st.impacts.Keys + {id}
            && (forall other :: other in st.impacts && other != id ==> st'.impacts[other] == st.impacts[other])
            && st'.impacts[id] == (r.value.revision, SingleChangeImpact(st.sessions[id].document, batch)))
  {
    hide Apply, SingleChangeImpact;
  }

  /** The errors of a batch as the session reports them: a wrong revision with the current one, a change that
      does not fit as an invalid range, and everything else as an invalid state. */
  lemma BatchRefusal(st: State, id: nat, batch: Batch)
    requires ApplyBatch(st, id, batch).1.Err?
    ensures var error := ApplyBatch(st, id, batch).1.error;
      && (error == SessionNotFound <==> id !in st.sessions)
      && (error == DeleteStaged <==> id in st.sessions && IsDeletionStaged(st.sessions[id]))
      && (id in st.sessions && !IsDeletionStaged(st.sessions[id]) && Consistent(st.sessions[id].document) ==>
            var d := st.sessions[id].document;
            && (error.RevisionConflict? <==> IsNext(d, batch) && batch.expectedRevision != d.revision)
            && (error.RevisionConflict? ==> error.current == d.revision))
  {
    if id in st.sessions {
      var s := st.sessions[id];
      if Consistent(s.document) && Apply(s.document, batch).1.Err? { RefusalNamesItsReason(s.document, batch); }
    }
    hide Apply, Consistent, IsNext, SingleChangeImpact;
  }

  /** A render is begun at the current revision, on the document as it is; the cached one is given up until
      the new one is there. */
  lemma RenderTakesEffect(st: State, id: nat, revision: u64)
    ensures var (st', r) := BeginRender(st, id, revision);
      && (r.Ok? <==> id in st.sessions && st.sessions[id].document.revision == revision)
      && (r.Err? ==> st' == st && r.error == RevisionError(st, id))
      && (r.Ok? ==>
            && r.value.0 == st.sessions[id].document && id !in st'.previews
            && (forall other :: other != id ==>
                 (other in st'.previews <==> other in st.previews)
                 && (other in st.previews ==> st'.previews[other] == st.previews[other]))
            && st' == st.(previews := st'.previews))
    ensures var (st', r) := FinishRender(st, id, revision);
      && (r.Ok? <==> id in st.sessions && st.sessions[id].document.revision == revision)
      && (r.Err? ==> st' == st && r.error == RevisionError(st, id))
      && (r.Ok? ==> st' == st.(previews := st.previews[id := revision]))
  {
  }

  /** The render after a batch of one change is told where that change is. */
  lemma DeliveredChangeIsTheHint(st: State, id: nat, batch: Batch)
    requires id in st.sessions && Consistent(st.sessions[id].document)
    requires var r := ApplyBatch(st, id, batch).1; r.Ok? && !r.value.replayed
    requires |batch.transactions| == 1 && |batch.transactions[0].changes| == 1
    ensures var (st', r) := ApplyBatch(st, id, batch);
      && BeginRender(st', id, r.value.revision).1.Ok?
      && var (document, hint) := BeginRender(st', id, r.value.revision).1.value;
      && hint.Some? && IsSplice(st.sessions[id].document.text, document.text, hint.value)
  {
    var d := st.sessions[id].document;
    BatchTakesEffect(st, id, batch);
    AcceptedExactlyWhenNext(d, batch);
    ImpactIsTheSplice(d, batch);
    hide Apply, SingleChangeImpact, IsSplice, FitInTurn, AfterAll, Consistent, IsNext;
  }
}
