/** What is in a file after saves of the same path have run at the same time. Each save writes between two
    lock-held sections, and nothing orders the writes of two saves. */
module SaveRaces {
  import opened Wrappers
  import opened LineEndings
  import opened EditorDocuments
  import opened Sessions
  import opened SessionProtocol
  import opened SessionTheorems

  /** Which path each call writes to. */
  type Paths = nat -> string

  /** What an action writes to this path. */
  ghost function Writes(w: World, a: Action, paths: Paths, path: string): Option<string> {
    if a.SaveWrite? && paths(a.call) == path && a.call in w.frames && w.frames[a.call].SaveFrame? then
      Some(Persisted(w.frames[a.call].snapshot.text, w.frames[a.call].snapshot.lineEnding))
    else None
  }

  /** The file at this path after the actions, when it held `file` before. */
  ghost function FileAfter(w: World, actions: seq<Action>, paths: Paths, path: string,
                           file: Option<string>): Option<string>
    decreases actions
  {
    if actions == [] then file
    else
      var written := Writes(w, actions[0], paths, path);
      FileAfter(Next(w, actions[0]), actions[1..], paths, path, if written.Some? then written else file)
  }

  /** The last thing written to this path, if anything was. */
  ghost function LastWrite(w: World, actions: seq<Action>, paths: Paths, path: string): Option<string> {
    FileAfter(w, actions, paths, path, None)
  }

  lemma {:induction false} FileIsLastWrite(w: World, actions: seq<Action>, paths: Paths, path: string,
                                           file: Option<string>)
    ensures FileAfter(w, actions, paths, path, file)
      == if LastWrite(w, actions, paths, path).Some? then LastWrite(w, actions, paths, path) else file
    decreases actions
  {
    hide Next, Writes;
    if actions != [] {
      var written := Writes(w, actions[0], paths, path);
      FileIsLastWrite(Next(w, actions[0]), actions[1..], paths, path, if written.Some? then written else file);
      FileIsLastWrite(Next(w, actions[0]), actions[1..], paths, path, written);
    }
  }

  lemma {:induction false} FileConcat(w: World, a: seq<Action>, b: seq<Action>, paths: Paths, path: string,
                                      file: Option<string>)
    ensures FileAfter(w, a + b, paths, path, file)
      == FileAfter(Interleave(w, a), b, paths, path, FileAfter(w, a, paths, path, file))
    decreases a
  {
    hide Next, Writes;
    if a == [] {
      assert a + b == b;
    } else {
      assert (a + b)[0] == a[0] && (a + b)[1..] == a[1..] + b;
      var written := Writes(w, a[0], paths, path);
      FileConcat(Next(w, a[0]), a[1..], b, paths, path, if written.Some? then written else file);
    }
  }

  /** When a save is marked, the file holds the document exactly when whatever was last written to its path
      since this save's own write is the same. */
  lemma SavedFileIsCurrentIff(before: seq<Action>, between: seq<Action>, call: nat, names: FileNames,
                              fingerprint: Option<string>, paths: Paths)
    requires var w := Interleave(START, before); call in w.frames && w.frames[call].SaveFrame?
    requires var w := Interleave(START, before + [SaveWrite(call)] + between);
      && call in w.frames && w.frames[call] == Next(Interleave(START, before), SaveWrite(call)).frames[call]
      && MarkSaved(w.state, w.frames[call].session, Some(w.frames[call].snapshot.revision), names, fingerprint).1.Ok?
    ensures var w := Interleave(START, before + [SaveWrite(call)] + between);
      var st' := MarkSaved(w.state, w.frames[call].session, Some(w.frames[call].snapshot.revision), names,
        fingerprint).0;
      var since := LastWrite(Next(Interleave(START, before), SaveWrite(call)), between, paths, paths(call));
      && w.frames[call].session in st'.sessions
      && var d := st'.sessions[w.frames[call].session].document;
      && d.savedText == Some(d.text) && !d.isDirty
      && (FileAfter(START, before + [SaveWrite(call)] + between, paths, paths(call), None) == Some(PersistedText(d))
          <==> (since.Some? ==> since == Some(w.frames[call].bytes)))
  {
    var w := Interleave(START, before);
    var all := before + [SaveWrite(call)];
    OneWrite(w, call, paths);
    hide Next, Persisted, Writes;
    SaveIsFaithful(all + between, call, names, fingerprint);
    hide MarkSaved;
    FileConcat(START, all, between, paths, paths(call), None);
    FileConcat(START, before, [SaveWrite(call)], paths, paths(call), None);
    RunConcat(START, before, [SaveWrite(call)]);
    RunOne(w, SaveWrite(call));
    hide Interleave;
    var after := Next(w, SaveWrite(call));
    FileOne(w, SaveWrite(call), paths, paths(call), FileAfter(START, before, paths, paths(call), None));
    FileIsLastWrite(after, between, paths, paths(call), Writes(w, SaveWrite(call), paths, paths(call)));
  }

  lemma OneWrite(w: World, call: nat, paths: Paths)
    requires call in w.frames && w.frames[call].SaveFrame?
    ensures var w' := Next(w, SaveWrite(call));
      && call in w'.frames && w'.frames[call].WrittenFrame?
      && Writes(w, SaveWrite(call), paths, paths(call)) == Some(w'.frames[call].bytes)
  {
    hide Persisted;
  }

  lemma RunOne(w: World, a: Action)
    ensures Interleave(w, [a]) == Next(w, a)
  {
    hide Next;
    assert [a][1..] == [];
    assert Interleave(Next(w, a), []) == Next(w, a);
  }

  lemma FileOne(w: World, a: Action, paths: Paths, path: string, file: Option<string>)
    ensures FileAfter(w, [a], paths, path, file)
      == if Writes(w, a, paths, path).Some? then Writes(w, a, paths, path) else file
  {
    hide Next, Writes;
    assert [a][1..] == [];
    var written := Writes(w, a, paths, path);
    assert FileAfter(Next(w, a), [], paths, path, if written.Some? then written else file)
      == if written.Some? then written else file;
  }

  const Names := FileNames("f", None, None)

  /** A session with the text "a" is read for a save, changed to "b", and read for another save. */
  const Reads := [
    OpenSession("a", false, Names, true, None), SaveRead(0, 1, 1), SyncSession(1, 1, Names, "b", true),
      SaveRead(1, 1, 2)]

  ghost predicate IsRead(f: Frame, text: string, revision: u64) {
    f == SaveFrame(1, Snapshot(text, revision, Lf))
  }

  lemma ReadsFacts()
    ensures var w := Interleave(START, Reads);
      && w.frames.Keys == {0, 1} && IsRead(w.frames[0], "a", 1) && IsRead(w.frames[1], "b", 2)
      && 1 in w.state.sessions && w.state.sessions[1].document.text == "b" && w.state.sessions[1].document.revision == 2
      && w.state.sessions[1].document.lineEnding == Lf
  {
    hide *;
    OpenedFacts();
    OpenedIsLf();
    var read := Next(Opened(), SaveRead(0, 1, 1));
    ReadOnce(Opened(), 0, 1);
    ChangedToB(read);
    var changed := Next(read, SyncSession(1, 1, Names, "b", true));
    ReadOnce(changed, 1, 2);
    RunReads();
  }

  lemma ReadOnce(w: World, call: nat, revision: u64)
    requires 1 in w.state.sessions && w.state.sessions[1].document.revision == revision && call !in w.frames
    requires w.state.sessions[1].document.lineEnding == Lf
    ensures var w' := Next(w, SaveRead(call, 1, revision));
      && w'.state == w.state && w'.frames.Keys == w.frames.Keys + {call}
      && (forall other :: other in w.frames ==> w'.frames[other] == w.frames[other])
      && IsRead(w'.frames[call], w.state.sessions[1].document.text, revision)
  {
  }

  lemma ChangedToB(w: World)
    requires 1 in w.state.sessions && w.state.sessions[1].document.revision == 1 && w.state.sessions[1].staged.None?
    requires w.state.sessions[1].document.text == "a" && w.state.sessions[1].document.lineEnding == Lf
    ensures var w' := Next(w, SyncSession(1, 1, Names, "b", true));
      && w'.frames == w.frames && 1 in w'.state.sessions
      && w'.state.sessions[1].document.text == "b" && w'.state.sessions[1].document.revision == 2
      && w'.state.sessions[1].document.lineEnding == Lf
  {
    hide Record, Canonical, Endings;
    CanonicalIsPlain();
  }

  lemma CanonicalIsPlain()
    ensures Canonical("b") == "b"
  {
    CanonicalKeepsLf("b");
  }

  lemma OpenedIsLf()
    ensures var w := Opened();
      && 1 in w.state.sessions && w.state.sessions[1].staged.None?
      && w.state.sessions[1].document.lineEnding == Lf
  {
    OpenedFacts();
    assert Endings("a") == Endings("a"[1..]) == [];
    hide Record, Canonical, Open, Sync, ApplyBatch, MarkSaved, CreateProposal, Reject, Accept, FinishCommit,
      CancelStaged,
      BeginRender, FinishRender, MarkStale, CheckFile;
  }

  lemma RunReads()
    ensures Interleave(START, Reads)
      == Next(Next(Next(Opened(), SaveRead(0, 1, 1)), SyncSession(1, 1, Names, "b", true)), SaveRead(1, 1, 2))
  {
    hide Next;
    RunTwo(START, Reads[0], Reads[1]);
    RunTwo(Interleave(START, [Reads[0], Reads[1]]), Reads[2], Reads[3]);
    RunConcat(START, [Reads[0], Reads[1]], [Reads[2], Reads[3]]);
    assert Reads == [Reads[0], Reads[1]] + [Reads[2], Reads[3]];
  }

  /** A run in which the older save writes after the newer one and before its mark: the document is clean, and
      its file holds the older text. */
  lemma OlderWriteLandsLast(paths: Paths)
    requires paths(0) == paths(1)
    ensures var actions := Reads + [SaveWrite(1)] + [SaveWrite(0)];
      var w := Interleave(START, actions);
      var (st', r) := MarkSaved(w.state, 1, Some(2), Names, None);
      && 1 in w.frames && w.frames[1].WrittenFrame? && w.frames[1].session == 1 && w.frames[1].snapshot.revision == 2
      && r.Ok? && 1 in st'.sessions && st'.sessions[1].document.text == "b" && !st'.sessions[1].document.isDirty
      && FileAfter(START, actions, paths, paths(1), None) == Some("a") != Some(PersistedText(st'.sessions[1].document))
  {
    ReadsFacts();
    var w := Interleave(START, Reads);
    var w1 := Next(w, SaveWrite(1));
    var w2 := Next(w1, SaveWrite(0));
    BothWritten(w);
    hide Next;
    RunOne(w, SaveWrite(1));
    RunOne(w1, SaveWrite(0));
    RunConcat(START, Reads, [SaveWrite(1)]);
    RunConcat(START, Reads + [SaveWrite(1)], [SaveWrite(0)]);
    hide Interleave;
    FileConcat(START, Reads + [SaveWrite(1)], [SaveWrite(0)], paths, paths(1), None);
    hide FileAfter;
    FileOne(w1, SaveWrite(0), paths, paths(1), FileAfter(START, Reads + [SaveWrite(1)], paths, paths(1), None));
  }

  lemma BothWritten(w: World)
    requires w.frames.Keys == {0, 1} && IsRead(w.frames[0], "a", 1) && IsRead(w.frames[1], "b", 2)
    ensures var w1 := Next(w, SaveWrite(1));
      var w2 := Next(w1, SaveWrite(0));
      && 0 in w1.frames && IsRead(w1.frames[0], "a", 1)
      && 1 in w2.frames && w2.frames[1] == WrittenFrame(1, Snapshot("b", 2, Lf), "b") && w2.state == w.state
  {
  }
}
