/** The canonical document behind every editor view: batches of transactions delivered at least
    once, optimistic revisions, replayed acknowledgements, a saved baseline and a dirty flag. */
module EditorDocuments {
  import opened Wrappers
  import opened Encoding
  import opened Splicing
  import opened LineEndings
  import opened EditorTransactions
  import opened Whitespace

  const U64_MAX: nat := 0xFFFF_FFFF_FFFF_FFFF
  const FIRST_BATCH_ID: nat := 1

  type u64 = n: int | 0 <= n <= U64_MAX

  datatype Batch = Batch(clientId: string, batchId: u64, expectedRevision: u64, transactions: seq<Transaction>)

  datatype Ack = Ack(
    clientId: string, batchId: u64, revision: u64, documentLengthUtf16: nat, isDirty: bool, replayed: bool)

  datatype AppliedBatch = AppliedBatch(batch: Batch, ack: Ack)

  /** Scalar ranges of a single change, before and after. */
  datatype Impact = Impact(from: nat, beforeTo: nat, afterTo: nat)

  datatype Document = Document(
    text: string,
    savedText: Option<string>,
    revision: u64,
    lineEnding: LineEnding,
    isDirty: bool,
    lastBatches: map<string, AppliedBatch>)

  function FromCanonicalText(text: string, revision: u64, lineEnding: LineEnding, isDirty: bool)
    : Result<Document, DocumentError>
  {
    if '\r' in text then Err(NonCanonicalLineEnding(0, 0))
    else Ok(Document(text, if isDirty then None else Some(text), revision, lineEnding, isDirty, map[]))
  }

  /** Text from outside is normalized first, so this cannot fail. */
  function FromExternalText(text: string, revision: u64, isDirty: bool): (d: Document)
    ensures '\r' !in d.text && DirtyIsExact(d)
    ensures d.revision == revision && d.lastBatches == map[]
  {
    CanonicalHasNoCr(text);
    var n := Normalize(text);
    FromCanonicalText(n.text, revision, n.lineEnding, isDirty).value
  }

  function PersistedText(d: Document): string {
    Persisted(d.text, d.lineEnding)
  }

  function AsSaved(d: Document): Document {
    d.(savedText := Some(d.text), isDirty := false)
  }

  function WithTouch(d: Document): Result<Document, DocumentError> {
    if d.revision == U64_MAX then Err(RevisionOverflow) else Ok(d.(revision := d.revision + 1))
  }

  function WithText(d: Document, text: string, isDirty: bool): Result<Document, DocumentError> {
    if '\r' in text then Err(NonCanonicalLineEnding(0, 0))
    else if d.revision == U64_MAX then Err(RevisionOverflow)
    else Ok(d.(text := text, savedText := if isDirty then None else Some(text), isDirty := isDirty,
               revision := d.revision + 1))
  }

  function WithDirty(d: Document, isDirty: bool): Result<Document, DocumentError> {
    if d.revision == U64_MAX then Err(RevisionOverflow)
    else Ok(d.(savedText := if isDirty then None else Some(d.text), isDirty := isDirty, revision := d.revision + 1))
  }

  /** The text after the transactions from index `t` on, or the first error. */
  ghost function AfterTransactions(s: string, transactions: seq<Transaction>, t: nat): Result<string, DocumentError>
    requires t <= |transactions|
    decreases |transactions| - t
  {
    if t == |transactions| then Ok(s)
    else
      var error := TransactionError(s, transactions[t], t);
      if error.Some? then Err(error.value)
      else
        RefusedExactlyWhenUnfit(s, transactions[t], t);
        AfterTransactions(After(s, transactions[t]), transactions, t + 1)
  }

  /** Whether the batch is a new one, a repeat of the client's latest, or out of sequence. */
  datatype Admission = Fresh | Replay(ack: Ack) | Refused(error: DocumentError)

  function Admit(d: Document, batch: Batch): Admission {
    if IsBlank(batch.clientId) then Refused(EmptyClientId)
    else if batch.clientId in d.lastBatches then
      var applied := d.lastBatches[batch.clientId];
      if batch.batchId == applied.batch.batchId then
        if batch == applied.batch then
          var replayed := applied.ack.(replayed := true);
          Replay(if replayed.revision == d.revision then replayed.(isDirty := d.isDirty) else replayed)
        else Refused(BatchIdReuse(batch.batchId))
      else if applied.batch.batchId == U64_MAX then Refused(RevisionOverflow)
      else if batch.batchId != applied.batch.batchId + 1 then
        Refused(UnexpectedBatchId(applied.batch.batchId + 1, batch.batchId))
      else Fresh
    else if batch.batchId != FIRST_BATCH_ID then Refused(UnexpectedBatchId(FIRST_BATCH_ID, batch.batchId))
    else Fresh
  }

  /** The outcome of applying a batch. `Ok` with `replayed` unset is the only one that changes the
      document. */
  ghost function Apply(d: Document, batch: Batch): (Document, Result<Ack, DocumentError>) {
    match Admit(d, batch)
    case Refused(error) => (d, Err(error))
    case Replay(ack) => (d, Ok(ack))
    case Fresh =>
      if batch.expectedRevision != d.revision then (d, Err(StaleRevision(batch.expectedRevision, d.revision)))
      else if batch.transactions == [] then (d, Err(EmptyBatch))
      else
        match AfterTransactions(d.text, batch.transactions, 0)
        case Err(error) => (d, Err(error))
        case Ok(text) =>
          if d.revision == U64_MAX then (d, Err(RevisionOverflow))
          else
            var isDirty := d.savedText != Some(text);
            var ack := Ack(batch.clientId, batch.batchId, d.revision + 1, Length(Utf16, text), isDirty, false);
            (d.(text := text, revision := d.revision + 1, isDirty := isDirty,
                lastBatches := d.lastBatches[batch.clientId := AppliedBatch(batch, ack)]), Ok(ack))
  }

  /** The preview hint, computed before the batch is applied and without checking its id. */
  function SingleChangeImpact(d: Document, batch: Batch): Option<Impact> {
    if batch.expectedRevision != d.revision || |batch.transactions| != 1 then None
    else
      var transaction := batch.transactions[0];
      if |transaction.changes| != 1 || transaction.beforeLengthUtf16 != Length(Utf16, d.text) then None
      else
        var c := transaction.changes[0];
        if c.fromUtf16 > c.toUtf16 || '\r' in c.insert then None
        else
          match (ToChar(d.text, c.fromUtf16), ToChar(d.text, c.toUtf16))
          case (Some(from), Some(to)) => Some(Impact(from, to, from + |c.insert|))
          case _ => None
  }

  /** Applies the transactions one after another to a candidate copy of the text. */
  method ApplyTransactions(candidate: Rope, transactions: seq<Transaction>) returns (error: Option<DocumentError>)
    modifies candidate
    ensures var r := AfterTransactions(old(candidate.text), transactions, 0);
      if r.Ok? then error.None? && candidate.text == r.value else error == Some(r.error)
  {
    for t := 0 to |transactions|
      invariant AfterTransactions(old(candidate.text), transactions, 0)
        == AfterTransactions(candidate.text, transactions, t)
    {
      error := ApplyTransaction(candidate, transactions[t], t);
      if error.Some? {
        return;
      }
    }
    error := None;
  }

  class EditorDocument {
    var text: string
    var savedText: Option<string>
    var revision: u64
    var lineEnding: LineEnding
    var isDirty: bool
    var lastBatches: map<string, AppliedBatch>

    function State(): Document
      reads this
    {
      Document(text, savedText, revision, lineEnding, isDirty, lastBatches)
    }

    constructor FromExternal(text: string, revision: u64, isDirty: bool)
      ensures State() == FromExternalText(text, revision, isDirty)
    {
      var normalized := NormalizeEditorText(text);
      CanonicalHasNoCr(text);
      this.text := normalized.text;
      this.savedText := if isDirty then None else Some(normalized.text);
      this.revision := revision;
      this.lineEnding := normalized.lineEnding;
      this.isDirty := isDirty;
      this.lastBatches := map[];
    }

    constructor Of(d: Document)
      ensures State() == d
    {
      text, savedText, revision := d.text, d.savedText, d.revision;
      lineEnding, isDirty, lastBatches := d.lineEnding, d.isDirty, d.lastBatches;
    }

    method MarkSaved()
      modifies this
      ensures State() == AsSaved(old(State()))
    {
      savedText := Some(text);
      isDirty := false;
    }

    method ReplaceCanonicalText(text: string, isDirty: bool) returns (error: Option<DocumentError>)
      modifies this
      ensures var r := WithText(old(State()), text, isDirty);
        if r.Ok? then error.None? && State() == r.value else error == Some(r.error) && State() == old(State())
    {
      if '\r' in text {
        return Some(NonCanonicalLineEnding(0, 0));
      }
      if revision == U64_MAX {
        return Some(RevisionOverflow);
      }
      this.text := text;
      savedText := if isDirty then None else Some(text);
      this.isDirty := isDirty;
      revision := revision + 1;
      return None;
    }

    method SetDirtyAndTouch(isDirty: bool) returns (error: Option<DocumentError>)
      modifies this
      ensures var r := WithDirty(old(State()), isDirty);
        if r.Ok? then error.None? && State() == r.value else error == Some(r.error) && State() == old(State())
    {
      if revision == U64_MAX {
        return Some(RevisionOverflow);
      }
      savedText := if isDirty then None else Some(text);
      this.isDirty := isDirty;
      revision := revision + 1;
      return None;
    }

    method Touch() returns (error: Option<DocumentError>)
      modifies this
      ensures var r := WithTouch(old(State()));
        if r.Ok? then error.None? && State() == r.value else error == Some(r.error) && State() == old(State())
    {
      if revision == U64_MAX {
        return Some(RevisionOverflow);
      }
      revision := revision + 1;
      return None;
    }

    method AdmitBatch(batch: Batch) returns (admission: Admission)
      ensures admission == Admit(State(), batch)
    {
      if IsBlank(batch.clientId) {
        return Refused(EmptyClientId);
      }
      if batch.clientId in lastBatches {
        var applied := lastBatches[batch.clientId];
        if batch.batchId == applied.batch.batchId {
          if batch == applied.batch {
            var replayed := applied.ack.(replayed := true);
            if replayed.revision == revision {
              replayed := replayed.(isDirty := isDirty);
            }
            return Replay(replayed);
          }
          return Refused(BatchIdReuse(batch.batchId));
        }
        if applied.batch.batchId == U64_MAX {
          return Refused(RevisionOverflow);
        }
        if batch.batchId != applied.batch.batchId + 1 {
          return Refused(UnexpectedBatchId(applied.batch.batchId + 1, batch.batchId));
        }
      } else if batch.batchId != FIRST_BATCH_ID {
        return Refused(UnexpectedBatchId(FIRST_BATCH_ID, batch.batchId));
      }
      return Fresh;
    }

    /** A rejected batch and a replayed one leave every field as it was. */
    method ApplyMutationBatch(batch: Batch) returns (r: Result<Ack, DocumentError>)
      modifies this
      ensures (State(), r) == Apply(old(State()), batch)
      ensures r.Err? || r.value.replayed ==> State() == old(State())
    {
      var admission := AdmitBatch(batch);
      match admission {
        case Refused(error) => return Err(error);
        case Replay(ack) => return Ok(ack);
        case Fresh =>
      }
      hide Admit, AfterTransactions;
      if batch.expectedRevision != revision {
        return Err(StaleRevision(batch.expectedRevision, revision));
      }
      if batch.transactions == [] {
        return Err(EmptyBatch);
      }
      var candidate := new Rope(text);
      var error := ApplyTransactions(candidate, batch.transactions);
      if error.Some? {
        return Err(error.value);
      }
      if revision == U64_MAX {
        return Err(RevisionOverflow);
      }
      var nextRevision: u64 := revision + 1;
      var dirty := savedText.None? || savedText.value != candidate.text;
      var ack := Ack(batch.clientId, batch.batchId, nextRevision, Length(Utf16, candidate.text), dirty, false);
      text := candidate.text;
      revision := nextRevision;
      isDirty := dirty;
      lastBatches := lastBatches[batch.clientId := AppliedBatch(batch, ack)];
      return Ok(ack);
    }
  }

  /** The dirty flag says exactly whether the text differs from a known saved baseline. */
  predicate DirtyIsExact(d: Document) {
    d.isDirty <==> d.savedText != Some(d.text)
  }

  ghost predicate Consistent(d: Document) {
    && '\r' !in d.text
    && DirtyIsExact(d)
    && forall c :: c in d.lastBatches ==>
      var a := d.lastBatches[c];
      a.batch.clientId == a.ack.clientId == c && a.ack.batchId == a.batch.batchId && !a.ack.replayed
      && !IsBlank(c) && a.ack.revision <= d.revision && FIRST_BATCH_ID <= a.batch.batchId
  }

  /** Each transaction fits the text that those before it leave. */
  ghost predicate FitInTurn(s: string, transactions: seq<Transaction>)
    decreases |transactions|
  {
    transactions != [] ==>
      Accepts(s, transactions[0]) && FitInTurn(After(s, transactions[0]), transactions[1..])
  }

  /** The text after transactions that fit. */
  ghost function AfterAll(s: string, transactions: seq<Transaction>): string
    requires FitInTurn(s, transactions)
    decreases |transactions|
  {
    if transactions == [] then s else AfterAll(After(s, transactions[0]), transactions[1..])
  }

  lemma {:induction false} AppliedInTurn(s: string, transactions: seq<Transaction>, t: nat)
    requires t <= |transactions|
    ensures AfterTransactions(s, transactions, t).Ok? <==> FitInTurn(s, transactions[t..])
    ensures FitInTurn(s, transactions[t..]) ==>
      AfterTransactions(s, transactions, t) == Ok(AfterAll(s, transactions[t..]))
    decreases |transactions| - t
  {
    hide Accepts, After, TransactionError;
    if t < |transactions| {
      assert transactions[t..][0] == transactions[t] && transactions[t..][1..] == transactions[t + 1..];
      RefusedExactlyWhenUnfit(s, transactions[t], t);
      if Accepts(s, transactions[t]) { AppliedInTurn(After(s, transactions[t]), transactions, t + 1); }
    }
  }

  /** A client's next batch: its id continues the client's last one. */
  ghost predicate IsNext(d: Document, batch: Batch) {
    !IsBlank(batch.clientId) && batch.batchId == LastId(d, batch.clientId) + 1
  }

  /** A client's latest batch once more. */
  ghost predicate IsRepeat(d: Document, batch: Batch) {
    batch.clientId in d.lastBatches && d.lastBatches[batch.clientId].batch == batch
  }

  /** A batch changes the document exactly when it is its client's next one, was made for the current
      revision, which is not the last, and has transactions that fit in turn. The new text is theirs, and
      the acknowledgement says what the document is then. */
  lemma AcceptedExactlyWhenNext(d: Document, batch: Batch)
    requires Consistent(d)
    ensures (Apply(d, batch).1.Ok? && !Apply(d, batch).1.value.replayed) <==>
      && IsNext(d, batch) && batch.expectedRevision == d.revision < U64_MAX
      && batch.transactions != [] && FitInTurn(d.text, batch.transactions)
    ensures Apply(d, batch).1.Ok? && !Apply(d, batch).1.value.replayed ==>
      var text := AfterAll(d.text, batch.transactions);
      var isDirty := d.savedText != Some(text);
      var ack := Ack(batch.clientId, batch.batchId, d.revision + 1, Length(Utf16, text), isDirty, false);
      Apply(d, batch) == (
        Document(text, d.savedText, d.revision + 1, d.lineEnding, isDirty,
                 d.lastBatches[batch.clientId := AppliedBatch(batch, ack)]),
        Ok(ack))
  {
    hide AfterTransactions, FitInTurn, AfterAll;
    AppliedInTurn(d.text, batch.transactions, 0);
    assert batch.transactions[0..] == batch.transactions;
  }

  /** A batch is answered as a replay exactly when it is its client's latest one: with the answer of then,
      but with the dirty flag of now if nothing has changed since. */
  lemma ReplayedExactlyWhenRepeated(d: Document, batch: Batch)
    requires Consistent(d)
    ensures (Apply(d, batch).1.Ok? && Apply(d, batch).1.value.replayed) <==> IsRepeat(d, batch)
    ensures IsRepeat(d, batch) ==>
      var ack := d.lastBatches[batch.clientId].ack;
      Apply(d, batch) == (d, Ok(Ack(ack.clientId, ack.batchId, ack.revision, ack.documentLengthUtf16,
                                    if ack.revision == d.revision then d.isDirty else ack.isDirty, true)))
  {
    hide AfterTransactions;
  }

  /** Whose fault a refusal is: of the client id, of the batch id, of the revision, of the transactions, or of
      a counter that is at its end; the first of these that applies. */
  lemma RefusalNamesItsReason(d: Document, batch: Batch)
    requires Consistent(d) && Apply(d, batch).1.Err?
    ensures var error, last := Apply(d, batch).1.error, LastId(d, batch.clientId);
      && Apply(d, batch).0 == d
      && (error == EmptyClientId <==> IsBlank(batch.clientId))
      && (error.BatchIdReuse? <==> !IsBlank(batch.clientId) && batch.batchId == last && last >= FIRST_BATCH_ID)
      && (error.BatchIdReuse? ==> error.batchId == last)
      && (error.UnexpectedBatchId? <==>
            && !IsBlank(batch.clientId) && batch.batchId != last + 1 && last < U64_MAX
            && (batch.batchId == last ==> last < FIRST_BATCH_ID))
      && (error.UnexpectedBatchId? ==> error.expected == last + 1 && error.actual == batch.batchId)
      && (!IsBlank(batch.clientId) && batch.batchId != last == U64_MAX ==> error == RevisionOverflow)
      && (error.StaleRevision? <==> IsNext(d, batch) && batch.expectedRevision != d.revision)
      && (error.StaleRevision? ==> error.expected == batch.expectedRevision && error.actual == d.revision)
      && (error == EmptyBatch <==>
            IsNext(d, batch) && batch.expectedRevision == d.revision && batch.transactions == [])
      && (IsNext(d, batch) && batch.expectedRevision == d.revision && batch.transactions != [] ==>
            if FitInTurn(d.text, batch.transactions) then d.revision == U64_MAX && error == RevisionOverflow
            else AfterTransactions(d.text, batch.transactions, 0) == Err(error))
  {
    AppliedInTurn(d.text, batch.transactions, 0);
    assert batch.transactions[0..] == batch.transactions;
    TransactionErrorsAreApart(d.text, batch.transactions, 0);
    hide AfterTransactions, FitInTurn;
  }

  /** No transaction error looks like one about ids or revisions. */
  lemma {:induction false} TransactionErrorsAreApart(s: string, transactions: seq<Transaction>, t: nat)
    requires t <= |transactions|
    ensures AfterTransactions(s, transactions, t).Err? ==>
      var error := AfterTransactions(s, transactions, t).error;
      && !error.EmptyClientId? && !error.BatchIdReuse? && !error.UnexpectedBatchId? && !error.StaleRevision?
      && !error.EmptyBatch? && !error.RevisionOverflow?
    decreases |transactions| - t
  {
    if t < |transactions| {
      RefusedExactlyWhenUnfit(s, transactions[t], t);
      ErrorsAreApart(s, transactions[t].changes, 0, 0, t);
      if TransactionError(s, transactions[t], t).None? {
        TransactionErrorsAreApart(After(s, transactions[t]), transactions, t + 1);
      }
    }
  }

  lemma {:induction false} ErrorsAreApart(s: string, changes: seq<TextChange>, k: nat, previousTo: nat, t: nat)
    requires k <= |changes|
    ensures FirstChangeError(s, changes, k, previousTo, t).Some? ==>
      var error := FirstChangeError(s, changes, k, previousTo, t).value;
      && !error.EmptyClientId? && !error.BatchIdReuse? && !error.UnexpectedBatchId? && !error.StaleRevision?
      && !error.EmptyBatch? && !error.RevisionOverflow?
    decreases |changes| - k
  {
    if k < |changes| { ErrorsAreApart(s, changes, k + 1, changes[k].toUtf16, t); }
  }

  datatype Event =
    | Deliver(batch: Batch)
    | ReplaceText(text: string, isDirty: bool)
    | SetDirty(isDirty: bool)
    | TouchRevision
    | Save
    | SetLineEnding(lineEnding: LineEnding)

  /** One operation of any kind on the document; a failing one leaves it alone. */
  ghost function Step(d: Document, e: Event): Document {
    match e
    case Deliver(batch) => Apply(d, batch).0
    case ReplaceText(text, isDirty) =>
      var r := WithText(d, text, isDirty); if r.Ok? then r.value else d
    case SetDirty(isDirty) => var r := WithDirty(d, isDirty); if r.Ok? then r.value else d
    case TouchRevision => var r := WithTouch(d); if r.Ok? then r.value else d
    case Save => AsSaved(d)
    case SetLineEnding(lineEnding) => d.(lineEnding := lineEnding)
  }

  ghost function Run(d: Document, events: seq<Event>): Document
    decreases events
  {
    if events == [] then d else Run(Step(d, events[0]), events[1..])
  }

  /** What a run did to the text, one entry for each revision it went through. */
  datatype Entry = Applied(batch: Batch, ack: Ack) | Replaced(text: string) | Touched

  ghost function Effect(d: Document, e: Event): seq<Entry> {
    match e
    case Deliver(batch) =>
      var r := Apply(d, batch).1;
      if r.Ok? && !r.value.replayed then [Applied(batch, r.value)] else []
    case ReplaceText(text, isDirty) => if WithText(d, text, isDirty).Ok? then [Replaced(text)] else []
    case SetDirty(isDirty) => if WithDirty(d, isDirty).Ok? then [Touched] else []
    case TouchRevision => if WithTouch(d).Ok? then [Touched] else []
    case Save => []
    case SetLineEnding(_) => []
  }

  ghost function Log(d: Document, events: seq<Event>): seq<Entry>
    decreases events
  {
    if events == [] then [] else Effect(d, events[0]) + Log(Step(d, events[0]), events[1..])
  }

  /** The log, read from a text at a revision, makes sense: every batch was made for the revision
      it met, was acknowledged with the next one, and its transactions fit the text of that moment. */
  ghost predicate Replayable(text: string, revision: nat, log: seq<Entry>)
    decreases log
  {
    log != [] ==>
      var entry := log[0];
      && (entry.Applied? ==>
            && entry.batch.expectedRevision == revision && entry.ack.revision == revision + 1
            && entry.batch.transactions != []
            && AfterTransactions(text, entry.batch.transactions, 0).Ok?
            && entry.ack.documentLengthUtf16 == Length(Utf16, AfterEntry(text, entry)))
      && Replayable(AfterEntry(text, entry), revision + 1, log[1..])
  }

  ghost function AfterEntry(text: string, entry: Entry): string {
    match entry
    case Applied(batch, _) =>
      var r := AfterTransactions(text, batch.transactions, 0); if r.Ok? then r.value else text
    case Replaced(t) => t
    case Touched => text
  }

  ghost function AfterLog(text: string, log: seq<Entry>): string
    decreases log
  {
    if log == [] then text else AfterLog(AfterEntry(text, log[0]), log[1..])
  }

  /** The batch ids accepted from one client, in the order they were accepted. */
  ghost function BatchIds(log: seq<Entry>, client: string): seq<nat> {
    if log == [] then []
    else
      (if log[0].Applied? && log[0].batch.clientId == client then [log[0].batch.batchId] else [])
      + BatchIds(log[1..], client)
  }

  ghost function LastId(d: Document, client: string): nat {
    if client in d.lastBatches then d.lastBatches[client].batch.batchId else FIRST_BATCH_ID - 1
  }

  /** What an operation did, told by its effect alone. */
  ghost predicate Explains(d: Document, effect: seq<Entry>, d': Document) {
    if effect == [] then
      d'.revision == d.revision && d'.text == d.text && d'.lastBatches == d.lastBatches
    else
      && |effect| == 1
      && d'.revision == d.revision + 1
      && d'.text == AfterEntry(d.text, effect[0])
      && match effect[0] {
           case Applied(batch, ack) =>
             && batch.expectedRevision == d.revision && ack.revision == d.revision + 1
             && batch.transactions != [] && AfterTransactions(d.text, batch.transactions, 0).Ok?
             && ack.documentLengthUtf16 == Length(Utf16, d'.text)
             && batch.batchId == LastId(d, batch.clientId) + 1
             && d'.lastBatches == d.lastBatches[batch.clientId := AppliedBatch(batch, ack)]
           case _ => d'.lastBatches == d.lastBatches
         }
  }

  lemma StepIsExplained(d: Document, e: Event)
    requires Consistent(d)
    ensures Explains(d, Effect(d, e), Step(d, e))
  {
    hide AfterTransactions;
  }

  lemma StepIsConsistent(d: Document, e: Event)
    requires Consistent(d)
    ensures Consistent(Step(d, e))
  {
    hide AfterTransactions;
    if e.Deliver? && Apply(d, e.batch).1.Ok? {
      AfterTransactionsKeepsLf(d.text, e.batch.transactions, 0);
    }
  }

  lemma {:induction false} AfterTransactionsKeepsLf(s: string, transactions: seq<Transaction>, t: nat)
    requires t <= |transactions| && '\r' !in s
    ensures AfterTransactions(s, transactions, t).Ok? ==> '\r' !in AfterTransactions(s, transactions, t).value
    decreases |transactions| - t
  {
    if t < |transactions| && TransactionError(s, transactions[t], t).None? {
      RefusedExactlyWhenUnfit(s, transactions[t], t);
      AfterKeepsLf(s, transactions[t]);
      AfterTransactionsKeepsLf(After(s, transactions[t]), transactions, t + 1);
    }
  }

  /** In every reachable state the text has no carriage return and the dirty flag is exact, so
      coming back to the baseline always clears it. */
  lemma {:induction false} ReachableIsConsistent(d: Document, events: seq<Event>)
    requires Consistent(d)
    ensures Consistent(Run(d, events))
    decreases events
  {
    hide Step;
    if events != [] {
      StepIsConsistent(d, events[0]);
      ReachableIsConsistent(Step(d, events[0]), events[1..]);
    }
  }

  /** Exactly-once delivery: over any run with any mix of clients, resends and failures, the
      revision counts the effects, and the text is what the accepted batches and replacements give
      when applied once each in revision order. */
  lemma {:induction false} ExactlyOnce(d: Document, events: seq<Event>)
    requires Consistent(d)
    ensures var log, end := Log(d, events), Run(d, events);
      && end.revision == d.revision + |log|
      && Replayable(d.text, d.revision, log)
      && end.text == AfterLog(d.text, log)
    decreases events
  {
    hide Step, Effect;
    if events != [] {
      var e, d' := events[0], Step(d, events[0]);
      StepIsExplained(d, e);
      StepIsConsistent(d, e);
      ExactlyOnce(d', events[1..]);
      EffectThenRest(d, Effect(d, e), d', Log(d', events[1..]));
    }
  }

  lemma EffectThenRest(d: Document, effect: seq<Entry>, d': Document, rest: seq<Entry>)
    requires Explains(d, effect, d')
    ensures AfterLog(d.text, effect + rest) == AfterLog(d'.text, rest)
    ensures Replayable(d'.text, d'.revision, rest) ==> Replayable(d.text, d.revision, effect + rest)
  {
    hide AfterTransactions;
    if effect == [] {
      assert effect + rest == rest;
    } else {
      assert (effect + rest)[0] == effect[0] && (effect + rest)[1..] == rest;
    }
  }

  /** Every client's accepted ids continue from its last one without a gap or a repeat. */
  lemma {:induction false} AcceptedIdsAreContiguous(d: Document, events: seq<Event>, client: string)
    requires Consistent(d)
    ensures var ids := BatchIds(Log(d, events), client);
      && |ids| == LastId(Run(d, events), client) - LastId(d, client)
      && forall k :: 0 <= k < |ids| ==> ids[k] == LastId(d, client) + 1 + k
    decreases events
  {
    hide Step, Effect;
    if events != [] {
      var e, d' := events[0], Step(d, events[0]);
      StepIsExplained(d, e);
      StepIsConsistent(d, e);
      AcceptedIdsAreContiguous(d', events[1..], client);
      IdsOfEffect(d, Effect(d, e), d', Log(d', events[1..]), client);
    }
  }

  lemma IdsOfEffect(d: Document, effect: seq<Entry>, d': Document, rest: seq<Entry>, client: string)
    requires Explains(d, effect, d')
    ensures LastId(d, client) <= LastId(d', client) <= LastId(d, client) + 1
    ensures BatchIds(effect + rest, client)
      == (if LastId(d', client) == LastId(d, client) then [] else [LastId(d, client) + 1]) + BatchIds(rest, client)
    ensures client in d.lastBatches && LastId(d', client) == LastId(d, client) ==>
      client in d'.lastBatches && d'.lastBatches[client] == d.lastBatches[client]
  {
    hide AfterTransactions;
    if effect == [] {
      assert effect + rest == rest;
    } else {
      assert (effect + rest)[0] == effect[0] && (effect + rest)[1..] == rest;
    }
  }

  /** Sending a client's latest accepted batch again, however much the others did meanwhile,
      changes nothing and answers with the original revision and length. */
  lemma {:induction false} ResendIsIdempotent(d: Document, batch: Batch, events: seq<Event>)
    requires Consistent(d)
    requires var r := Apply(d, batch).1; r.Ok? && !r.value.replayed
    requires BatchIds(Log(Apply(d, batch).0, events), batch.clientId) == []
    ensures var ack, later := Apply(d, batch).1.value, Run(Apply(d, batch).0, events);
      Apply(later, batch)
      == (later,
        Ok(ack.(replayed := true, isDirty := if ack.revision == later.revision then later.isDirty else ack.isDirty)))
  {
    StepIsConsistent(d, Deliver(batch));
    UntouchedClient(Apply(d, batch).0, events, batch.clientId);
  }

  lemma {:induction false} UntouchedClient(d: Document, events: seq<Event>, client: string)
    requires Consistent(d) && client in d.lastBatches
    requires BatchIds(Log(d, events), client) == []
    ensures client in Run(d, events).lastBatches
    ensures Run(d, events).lastBatches[client] == d.lastBatches[client]
    decreases events
  {
    if events != [] {
      hide Step, Effect;
      var e, d' := events[0], Step(d, events[0]);
      StepIsExplained(d, e);
      StepIsConsistent(d, e);
      IdsOfEffect(d, Effect(d, e), d', Log(d', events[1..]), client);
      UntouchedClient(d', events[1..], client);
    }
  }

  /** The transactions that undo `transactions` from index `t` on, last first. */
  ghost function UndoTransactions(s: string, transactions: seq<Transaction>, t: nat): seq<Transaction>
    requires t <= |transactions| && AfterTransactions(s, transactions, t).Ok?
    decreases |transactions| - t
  {
    if t == |transactions| then []
    else
      RefusedExactlyWhenUnfit(s, transactions[t], t);
      UndoTransactions(After(s, transactions[t]), transactions, t + 1) + [InverseTransaction(s, transactions[t])]
  }

  /** Splitting a batch: the first part is applied, then the rest to its result. */
  lemma {:induction false} AfterSplit(s: string, a: seq<Transaction>, b: seq<Transaction>, t: nat)
    requires t <= |a| && AfterTransactions(s, a, t).Ok?
    ensures AfterTransactions(s, a + b, t) == AfterTransactions(AfterTransactions(s, a, t).value, a + b, |a|)
    decreases |a| - t
  {
    if t < |a| {
      assert (a + b)[t] == a[t];
      RefusedExactlyWhenUnfit(s, a[t], t);
      AfterSplit(After(s, a[t]), a, b, t + 1);
    }
  }

  lemma {:induction false} UndoRestores(s: string, transactions: seq<Transaction>, t: nat)
    requires t <= |transactions| && AfterTransactions(s, transactions, t).Ok? && '\r' !in s
    ensures var undo := UndoTransactions(s, transactions, t);
      AfterTransactions(AfterTransactions(s, transactions, t).value, undo, 0) == Ok(s)
    decreases |transactions| - t
  {
    if t < |transactions| {
      RefusedExactlyWhenUnfit(s, transactions[t], t);
      var u, inverse := After(s, transactions[t]), InverseTransaction(s, transactions[t]);
      AfterKeepsLf(s, transactions[t]);
      UndoRestores(u, transactions, t + 1);
      var undo := UndoTransactions(u, transactions, t + 1);
      AfterSplit(AfterTransactions(s, transactions, t).value, undo, [inverse], 0);
      InverseUndoes(s, transactions[t]);
      RefusedExactlyWhenUnfit(u, inverse, |undo|);
    }
  }

  /** Every accepted batch can be undone by a batch of the inverse transactions: it is accepted
      right after, restores the text, and clears the dirty flag when that text is the baseline. */
  lemma UndoBatchIsAccepted(d: Document, batch: Batch, undo: Batch)
    requires Consistent(d)
    requires var r := Apply(d, batch).1; r.Ok? && !r.value.replayed
    requires undo.transactions == UndoTransactions(d.text, batch.transactions, 0)
    requires var d' := Apply(d, batch).0;
      d'.revision < U64_MAX && undo.expectedRevision == d'.revision && IsNext(d', undo)
    ensures var (d'', r) := Apply(Apply(d, batch).0, undo);
      r.Ok? && !r.value.replayed && d''.text == d.text && (d''.isDirty <==> d.savedText != Some(d.text))
  {
    RefusedExactlyWhenUnfit(d.text, batch.transactions[0], 0);
    UndoRestores(d.text, batch.transactions, 0);
  }

  /** When a batch with a hint is applied, the hint describes exactly the one splice that leads
      from the old text to the new one; every accepted single change has a hint. */
  lemma ImpactIsTheSplice(d: Document, batch: Batch)
    requires var r := Apply(d, batch).1; r.Ok? && !r.value.replayed
    ensures var impact, text := SingleChangeImpact(d, batch), Apply(d, batch).0.text;
      && (impact.Some? <==> |batch.transactions| == 1 && |batch.transactions[0].changes| == 1)
      && (impact.Some? ==> IsSplice(d.text, text, impact.value))
  {
    var first := batch.transactions[0];
    RefusedExactlyWhenUnfit(d.text, first, 0);
    if |batch.transactions| == 1 && |first.changes| == 1 {
      var c := first.changes[0];
      assert AcceptableChange(d.text, c);
      BoundariesKeepOrder(d.text, c.fromUtf16, c.toUtf16);
      var edits := EditsOf(d.text, first);
      assert edits[0] == ResolveOne(d.text, c) && edits[1..] == [];
      assert AfterTransactions(d.text, batch.transactions, 0) == Ok(After(d.text, first));
      assert Substitute(d.text, edits[0].to, []) == d.text[edits[0].to..];
      assert After(d.text, first) == d.text[0..edits[0].from] + edits[0].insert + d.text[edits[0].to..];
    }
  }

  predicate IsSplice(before: string, after: string, i: Impact) {
    && i.from <= i.beforeTo <= |before| && i.from <= i.afterTo <= |after|
    && after == before[..i.from] + after[i.from..i.afterTo] + before[i.beforeTo..]
  }
}
