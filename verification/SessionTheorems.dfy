/** What holds however the lock-held sections interleave. */
module SessionTheorems {
  import opened Wrappers
  import opened LineEndings
  import opened EditorDocuments
  import opened Sessions
  import opened SessionProtocol
  import Edits = TextEdits
  import Locator

  lemma NextKeepsInv(w: World, a: Action)
    requires Inv(w)
    ensures Inv(Next(w, a))
  {
    NextEvolves(w, a);
    EvolvesKeepsWellFormed(w.state, Next(w, a).state);
    NextExtends(w, a);
    NextKeepsProposals(w, a);
    NextKeepsHints(w, a);
    NextKeepsFrames(w, a);
    NextKeepsAcceptances(w, a);
    hide Next, WellFormed, HistoryOk, ProposalsOk, HintsOk, FramesOk, AcceptancesOk;
  }

  lemma {:induction false} RunKeepsInv(w: World, actions: seq<Action>)
    requires Inv(w)
    ensures Inv(Interleave(w, actions))
    decreases actions
  {
    hide Next, Inv;
    if actions != [] {
      NextKeepsInv(w, actions[0]);
      RunKeepsInv(Next(w, actions[0]), actions[1..]);
    }
  }

  lemma ReachableInv(actions: seq<Action>)
    ensures Inv(Interleave(START, actions))
  {
    RunKeepsInv(START, actions);
  }

  lemma {:induction false} RunEvolves(w: World, actions: seq<Action>, id: nat)
    requires Inv(w) && id in w.state.sessions
    ensures id in Interleave(w, actions).state.sessions
    ensures var d, d' := w.state.sessions[id].document, Interleave(w, actions).state.sessions[id].document;
      d.revision <= d'.revision && (d.revision == d'.revision ==> VersionOf(d) == VersionOf(d'))
    decreases actions
  {
    if actions != [] {
      var w' := Next(w, actions[0]);
      NextEvolves(w, actions[0]);
      NextKeepsInv(w, actions[0]);
      assert DocumentEvolves(w.state.sessions[id].document, w'.state.sessions[id].document);
      hide Next, Inv, Evolves, Consistent;
      RunEvolves(w', actions[1..], id);
    }
  }

  /** In every interleaving a session's revision determines its canonical text and line ending. */
  lemma RevisionDeterminesText(before: seq<Action>, between: seq<Action>, id: nat)
    requires id in Interleave(START, before).state.sessions
    ensures var w := Interleave(START, before); var w' := Interleave(w, between);
      id in w'.state.sessions
      && var d, d' := w.state.sessions[id].document, w'.state.sessions[id].document;
      d.revision <= d'.revision && (d.revision == d'.revision ==> VersionOf(d) == VersionOf(d'))
  {
    ReachableInv(before);
    hide Interleave, Inv;
    RunEvolves(Interleave(START, before), between, id);
  }

  /** In every interleaving at most one proposal of any kind is applied per base revision of a session,
      each to the very text its diff was computed from, with exactly the proposed text as its result. */
  lemma AcceptedProposalsAreExact(actions: seq<Action>)
    ensures var w := Interleave(START, actions);
      && AtMostOnePerBase(w.accepted)
      && forall k :: 0 <= k < |w.accepted| ==> AcceptanceOk(w.history, w.state, w.accepted[k])
  {
    ReachableInv(actions);
    hide Interleave, WellFormed, HistoryOk, ProposalsOk, HintsOk, FramesOk, AcceptanceOk, AtMostOnePerBase;
  }

  /** Saving: however edits, syncs and proposals interleave with the disk write, if marking saved at
      the revision succeeds then the written bytes are the document's persisted text, line ending
      included, and the baseline is that text. */
  lemma SaveIsFaithful(actions: seq<Action>, call: nat, names: FileNames, fingerprint: Option<string>)
    requires var w := Interleave(START, actions);
      call in w.frames && w.frames[call].WrittenFrame?
    requires var w := Interleave(START, actions); var f := w.frames[call];
      MarkSaved(w.state, f.session, Some(f.snapshot.revision), names, fingerprint).1.Ok?
    ensures var w := Interleave(START, actions); var f := w.frames[call];
      var st' := MarkSaved(w.state, f.session, Some(f.snapshot.revision), names, fingerprint).0;
      f.session in st'.sessions
      && var d := st'.sessions[f.session].document;
      && f.bytes == PersistedText(d)
      && d.text == f.snapshot.text && d.savedText == Some(d.text) && !d.isDirty
  {
    ReachableInv(actions);
    WrittenIsCurrent(Interleave(START, actions), call, names, fingerprint);
  }

  lemma WrittenIsCurrent(w: World, call: nat, names: FileNames, fingerprint: Option<string>)
    requires Inv(w) && call in w.frames && w.frames[call].WrittenFrame?
    requires var f := w.frames[call]; MarkSaved(w.state, f.session, Some(f.snapshot.revision), names, fingerprint).1.Ok?
    ensures var f := w.frames[call];
      var st' := MarkSaved(w.state, f.session, Some(f.snapshot.revision), names, fingerprint).0;
      f.session in st'.sessions
      && var d := st'.sessions[f.session].document;
      && f.bytes == PersistedText(d)
      && d.text == f.snapshot.text && d.savedText == Some(d.text) && !d.isDirty
  {
    assert FrameOk(w.history, w.frames[call]);
    KnownNow(w, w.frames[call].session);
    hide WellFormed, HistoryOk, ProposalsOk, HintsOk, FramesOk, AcceptancesOk, Persisted;
  }

  /** A hint handed to the renderer for a revision is exactly the one splice from the text of the
      revision before; a render that is kept was made from the text that is still current. */
  lemma RenderIsConsistent(actions: seq<Action>, call: nat)
    requires var w := Interleave(START, actions);
      call in w.frames && w.frames[call].RenderFrame?
    ensures var w := Interleave(START, actions); var f := w.frames[call];
      && HintOk(w.history, f.session, f.revision, f.hint)
      && Known(w.history, f.session, f.revision, VersionOf(f.document))
      && (FinishRender(w.state, f.session, f.revision).1.Ok? ==>
            w.state.sessions[f.session].document.text == f.document.text)
  {
    ReachableInv(actions);
    var w := Interleave(START, actions);
    hide Interleave;
    assert FrameOk(w.history, w.frames[call]);
    if w.frames[call].session in w.state.sessions { KnownNow(w, w.frames[call].session); }
    hide Inv, WellFormed, HistoryOk, ProposalsOk, HintsOk, FramesOk, AcceptancesOk, HintOk;
  }

  /** The status does not guard the last section: a proposal of any kind that is rejected after it was
      read is applied all the same. */
  lemma RejectedYetApplied(w: World, call: nat)
    requires Inv(w) && call in w.frames && w.frames[call].AcceptFrame?
    requires w.frames[call].copy.kind.TextEdit? || w.frames[call].stamp.Some?
    requires var f := w.frames[call];
      && f.copy.session in w.state.sessions
      && w.state.sessions[f.copy.session].document.revision == f.copy.baseRevision < U64_MAX
    ensures var f, w' := w.frames[call], Next(w, AcceptFinish(call));
      && f.pid in w'.state.proposals && w'.state.proposals[f.pid].status == Accepted
      && f.copy.session in w'.state.sessions
      && w'.state.sessions[f.copy.session].document.text == f.copy.diff.proposed
  {
    CreatedProposalsAlwaysApply(w, call);
    AcceptedExactly(w, call);
    DoneMeansAccepted(w, call);
    hide Inv, FinishAccept, Next;
  }

  lemma DoneMeansAccepted(w: World, call: nat)
    requires call in w.frames && w.frames[call].AcceptFrame?
    requires w.frames[call].copy.kind.TextEdit? || w.frames[call].stamp.Some?
    requires var f := w.frames[call]; FinishAccept(w.state, f.pid, f.copy, f.stamp).1.Done?
    ensures var f, st' := w.frames[call], Next(w, AcceptFinish(call)).state;
      && st' == FinishAccept(w.state, f.pid, f.copy, f.stamp).0
      && f.pid in st'.proposals && st'.proposals[f.pid].status == Accepted
  {
    hide Accepting, ContentHash, Record;
  }

  /** Runs compose. */
  lemma {:induction false} RunConcat(w: World, a: seq<Action>, b: seq<Action>)
    ensures Interleave(w, a + b) == Interleave(Interleave(w, a), b)
    decreases a
  {
    hide Next;
    if a == [] {
      assert a + b == b;
    } else {
      assert (a + b)[0] == a[0] && (a + b)[1..] == a[1..] + b;
      RunConcat(Next(w, a[0]), a[1..], b);
    }
  }

  ghost function Opened(): World {
    Next(START, OpenSession("a", false, FileNames("f", None, None), true, None))
  }

  lemma OpenedFacts()
    ensures var w := Opened();
      && Inv(w) && w.state.nextId == 1 && w.frames == map[] && w.state.proposals == map[]
      && 1 in w.state.sessions && w.state.sessions[1].visible && w.state.sessions[1].pending.None?
      && w.state.sessions[1].document.text == "a" && w.state.sessions[1].document.revision == 1
  {
    NextKeepsInv(START, OpenSession("a", false, FileNames("f", None, None), true, None));
    CanonicalKeepsLf("a");
    hide Inv, Canonical, Endings, Record;
  }

  ghost function WithProposal(): World {
    Next(Opened(), CreateSessionProposal(1, 1, TextEdit([Edits.TextEdit(0, 0, "x")])))
  }

  lemma WithProposalFacts()
    ensures var w := WithProposal();
      && Inv(w) && w.frames == map[]
      && 1 in w.state.sessions && w.state.sessions[1].document.revision == 1
      && 2 in w.state.proposals && w.state.proposals[2].status == Pending
      && w.state.proposals[2].kind.TextEdit? && w.state.proposals[2].session == 1
      && w.state.proposals[2].baseRevision == 1
  {
    hide Inv, Opened, Record, Open, Sync, ApplyBatch, MarkSaved, FinishAccept, FinishCommit, CancelStaged, MarkStale,
      Reject, CheckFile, TakeSnapshot, NewSession, ContentHash, Edits.Apply;
    OpenedFacts();
    var w := Opened();
    NextKeepsInv(w, CreateSessionProposal(1, 1, TextEdit([Edits.TextEdit(0, 0, "x")])));
    Locator.LocatedEditApplies("a", 0, 0, "x");
    assert Locator.EditOf("a", 0, 0, "x") == Edits.TextEdit(0, 0, "x") by { assert "a"[..0] == []; }
  }

  ghost function ReadAndRejected(): World {
    Next(Next(WithProposal(), AcceptRead(0, 2)), RejectProposal(2))
  }

  lemma ReadAndRejectedFacts()
    ensures var w := ReadAndRejected();
      && Inv(w) && 0 in w.frames && w.frames[0].AcceptFrame? && w.frames[0].pid == 2
      && w.frames[0].copy.kind.TextEdit? && w.frames[0].copy.session == 1 && w.frames[0].copy.baseRevision == 1
      && 2 in w.state.proposals && w.state.proposals[2].status == Rejected
      && 1 in w.state.sessions && w.state.sessions[1].document.revision == 1
  {
    hide Inv, WithProposal, Record, Open, Sync, ApplyBatch, MarkSaved, CreateProposal, FinishAccept, FinishCommit,
      CancelStaged, MarkStale, CheckFile, TakeSnapshot, NewSession;
    WithProposalFacts();
    var w := WithProposal();
    NextKeepsInv(w, AcceptRead(0, 2));
    NextKeepsInv(Next(w, AcceptRead(0, 2)), RejectProposal(2));
  }

  /** Such a run exists: read for acceptance, rejected, applied. */
  lemma RejectedThenAccepted() returns (before: seq<Action>, pid: nat)
    ensures var w := Interleave(START, before); var w' := Next(w, AcceptFinish(0));
      && pid in w.state.proposals && w.state.proposals[pid].status == Rejected
      && pid in w'.state.proposals && w'.state.proposals[pid].status == Accepted
  {
    ReadAndRejectedFacts();
    RejectedYetApplied(ReadAndRejected(), 0);
    var open := OpenSession("a", false, FileNames("f", None, None), true, None);
    var propose := CreateSessionProposal(1, 1, TextEdit([Edits.TextEdit(0, 0, "x")]));
    RunTwo(START, open, propose);
    RunTwo(WithProposal(), AcceptRead(0, 2), RejectProposal(2));
    RunConcat(START, [open, propose], [AcceptRead(0, 2), RejectProposal(2)]);
    hide Next, Interleave, Inv;
    before, pid := [open, propose] + [AcceptRead(0, 2), RejectProposal(2)], 2;
  }

  lemma RunTwo(w: World, a: Action, b: Action)
    ensures Interleave(w, [a, b]) == Next(Next(w, a), b)
  {
    hide Next;
    assert [a, b][1..] == [b] && [b][1..] == [];
    assert Interleave(Next(w, a), [b]) == Interleave(Next(Next(w, a), b), []);
  }
}
