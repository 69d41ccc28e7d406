/** The two-slot state store: revisions, quarantine of corrupt slots, a stop at future schemas,
    migration of the legacy copy, and what a crash can leave behind. */
module StateStore {
  import opened Wrappers

  const MAX_SAFE_INTEGER: nat := 0x1F_FFFF_FFFF_FFFF

  /** What the text stored at one place amounts to. `Valid` parses and has the supported schema;
      its payload may still be refused by normalization. Of a future schema only the text is known. */
  datatype Slot<T> = Missing | Corrupt | Future(text: string) | Valid(revision: nat, payload: T)

  datatype Legacy<T> = NoLegacy | CorruptLegacy | FutureLegacy(text: string) | ValidLegacy(payload: T)

  datatype Store<T> = Store(slot0: Slot<T>, slot1: Slot<T>, legacy: Legacy<T>)

  datatype StoreError = UnsupportedSchema | RevisionsExhausted | InvalidValue

  type Normalizer<!T> = T -> Option<T>

  datatype Candidate<T> = Candidate(revision: nat, payload: T)

  /** Normalizing what was normalized changes nothing. */
  ghost predicate Idempotent<T(!new)>(normalize: Normalizer<T>) {
    forall v :: normalize(v).Some? ==> normalize(normalize(v).value) == normalize(v)
  }

  function ReadCandidate<T>(normalize: Normalizer<T>, slot: Slot<T>): Option<Candidate<T>> {
    if slot.Valid? && slot.revision <= MAX_SAFE_INTEGER && normalize(slot.payload).Some? then
      Some(Candidate(slot.revision, normalize(slot.payload).value))
    else None
  }

  /** Anything unreadable is moved out of the way; a future schema is not touched. */
  function Quarantined<T>(normalize: Normalizer<T>, slot: Slot<T>): Slot<T> {
    if slot.Future? || ReadCandidate(normalize, slot).Some? then slot else Missing
  }

  function Cleaned<T>(normalize: Normalizer<T>, s: Store<T>): Store<T> {
    s.(slot0 := Quarantined(normalize, s.slot0), slot1 := Quarantined(normalize, s.slot1))
  }

  predicate HasFuture<T>(s: Store<T>) {
    s.slot0.Future? || s.slot1.Future?
  }

  /** The candidate with the highest revision; on equal revisions the one in the higher slot. */
  function Newest<T>(normalize: Normalizer<T>, s: Store<T>): Option<Candidate<T>> {
    var c0, c1 := ReadCandidate(normalize, s.slot0), ReadCandidate(normalize, s.slot1);
    if c0.None? then c1
    else if c1.None? then c0
    else if c0.value.revision > c1.value.revision then c0
    else c1
  }

  function CurrentRevision<T>(normalize: Normalizer<T>, s: Store<T>): nat {
    if Newest(normalize, s).Some? then Newest(normalize, s).value.revision else 0
  }

  /** The slot a persist writes: a free one first, otherwise the lowest revision, then index. */
  function TargetIsSecond<T>(normalize: Normalizer<T>, s: Store<T>): bool {
    var c0, c1 := ReadCandidate(normalize, s.slot0), ReadCandidate(normalize, s.slot1);
    c0.Some? && (c1.None? || c1.value.revision < c0.value.revision)
  }

  function WithTarget<T>(s: Store<T>, second: bool, slot: Slot<T>): Store<T> {
    if second then s.(slot1 := slot) else s.(slot0 := slot)
  }

  function Load<T>(normalize: Normalizer<T>, initial: T, s: Store<T>): (Store<T>, Result<T, StoreError>) {
    var clean := Cleaned(normalize, s);
    if HasFuture(s) then (clean, Err(UnsupportedSchema))
    else if Newest(normalize, s).Some? then (clean, Ok(Newest(normalize, s).value.payload))
    else
      match s.legacy
      case NoLegacy => (clean, Ok(initial))
      case FutureLegacy(_) => (clean, Err(UnsupportedSchema))
      case CorruptLegacy => (clean.(legacy := NoLegacy), Ok(initial))
      case ValidLegacy(payload) =>
        match normalize(payload)
        case None => (clean.(legacy := NoLegacy), Ok(initial))
        case Some(v) => (clean.(slot0 := Valid(1, v)), Ok(v))
  }

  function Persist<T>(normalize: Normalizer<T>, s: Store<T>, value: T): (Store<T>, Result<T, StoreError>) {
    match normalize(value)
    case None => (s, Err(InvalidValue))
    case Some(v) =>
      var clean := Cleaned(normalize, s);
      var revision := CurrentRevision(normalize, s);
      if HasFuture(s) then (clean, Err(UnsupportedSchema))
      else if revision >= MAX_SAFE_INTEGER then (clean, Err(RevisionsExhausted))
      else (WithTarget(clean, TargetIsSecond(normalize, s), Valid(revision + 1, v)), Ok(v))
  }

  /** A slot that can be used: of the supported schema, with a revision that is a safe integer and a payload
      that normalizes. */
  predicate IsReadable<T>(normalize: Normalizer<T>, slot: Slot<T>) {
    slot.Valid? && slot.revision <= MAX_SAFE_INTEGER && normalize(slot.payload).Some?
  }

  /** The value that is stored, read off the slots: the readable one of the higher revision counts, the
      second one on a tie; with none, the legacy copy; without that, the initial value. Nothing is said to be
      stored when a slot, or the legacy copy that would count, is of a newer schema. */
  function Value<T>(normalize: Normalizer<T>, initial: T, s: Store<T>): Result<T, StoreError> {
    var first, second := IsReadable(normalize, s.slot0), IsReadable(normalize, s.slot1);
    if s.slot0.Future? || s.slot1.Future? then Err(UnsupportedSchema)
    else if first && second then
      Ok(normalize(if s.slot1.revision >= s.slot0.revision then s.slot1.payload else s.slot0.payload).value)
    else if first then Ok(normalize(s.slot0.payload).value)
    else if second then Ok(normalize(s.slot1.payload).value)
    else if s.legacy.FutureLegacy? then Err(UnsupportedSchema)
    else if s.legacy.ValidLegacy? && normalize(s.legacy.payload).Some? then Ok(normalize(s.legacy.payload).value)
    else Ok(initial)
  }

  /** The highest revision that is stored. */
  function HighestRevision<T>(normalize: Normalizer<T>, s: Store<T>): nat {
    var a := if IsReadable(normalize, s.slot0) then s.slot0.revision else 0;
    var b := if IsReadable(normalize, s.slot1) then s.slot1.revision else 0;
    if a < b then b else a
  }

  class WebStateStore<T> {
    const normalize: Normalizer<T>
    const initial: T
    var slot0: Slot<T>
    var slot1: Slot<T>
    var legacy: Legacy<T>

    function State(): Store<T>
      reads this
    {
      Store(slot0, slot1, legacy)
    }

    constructor (normalize: Normalizer<T>, initial: T, s: Store<T>)
      ensures State() == s && this.normalize == normalize && this.initial == initial
    {
      this.normalize, this.initial := normalize, initial;
      slot0, slot1, legacy := s.slot0, s.slot1, s.legacy;
    }

    /** Reads both slots; an unreadable one is quarantined, a future one stops the call. */
    method ReadSlots() returns (r: Result<(Option<Candidate<T>>, Option<Candidate<T>>), StoreError>)
      modifies this`slot0, this`slot1
      ensures State() == Cleaned(normalize, old(State()))
      ensures r == if HasFuture(old(State())) then Err(UnsupportedSchema)
                   else Ok((ReadCandidate(normalize, old(slot0)), ReadCandidate(normalize, old(slot1))))
    {
      var c0, c1 := ReadCandidate(normalize, slot0), ReadCandidate(normalize, slot1);
      var future := slot0.Future? || slot1.Future?;
      if c0.None? && !slot0.Future? {
        slot0 := Missing;
      }
      if c1.None? && !slot1.Future? {
        slot1 := Missing;
      }
      return if future then Err(UnsupportedSchema) else Ok((c0, c1));
    }

    method LoadState() returns (r: Result<T, StoreError>)
      modifies this
      ensures (State(), r) == Load(normalize, initial, old(State()))
    {
      var slots := ReadSlots();
      if slots.Err? {
        return Err(slots.error);
      }
      var (c0, c1) := slots.value;
      if c0.Some? && (c1.None? || c0.value.revision > c1.value.revision) {
        return Ok(c0.value.payload);
      }
      if c1.Some? {
        return Ok(c1.value.payload);
      }
      match legacy {
        case NoLegacy => return Ok(initial);
        case FutureLegacy(_) => return Err(UnsupportedSchema);
        case CorruptLegacy =>
          legacy := NoLegacy;
          return Ok(initial);
        case ValidLegacy(payload) =>
          var normalized := normalize(payload);
          if normalized.None? {
            legacy := NoLegacy;
            return Ok(initial);
          }
          slot0 := Valid(1, normalized.value);
          return Ok(normalized.value);
      }
    }

    method PersistState(value: T) returns (r: Result<T, StoreError>)
      modifies this
      ensures (State(), r) == Persist(normalize, old(State()), value)
    {
      var normalized := normalize(value);
      if normalized.None? {
        return Err(InvalidValue);
      }
      var slots := ReadSlots();
      if slots.Err? {
        return Err(slots.error);
      }
      var (c0, c1) := slots.value;
      var currentRevision := 0;
      if c0.Some? && c0.value.revision > currentRevision {
        currentRevision := c0.value.revision;
      }
      if c1.Some? && c1.value.revision > currentRevision {
        currentRevision := c1.value.revision;
      }
      if currentRevision >= MAX_SAFE_INTEGER {
        return Err(RevisionsExhausted);
      }
      var envelope := Valid(currentRevision + 1, normalized.value);
      if c0.None? {
        slot0 := envelope;
      } else if c1.None? {
        slot1 := envelope;
      } else if c0.value.revision <= c1.value.revision {
        slot0 := envelope;
      } else {
        slot1 := envelope;
      }
      return Ok(normalized.value);
    }
  }

  /** What a crash may leave in the one slot that was being written. */
  ghost predicate Torn<T>(old': Slot<T>, new': Slot<T>, s: Slot<T>) {
    s == old' || s == new' || s == Missing || s == Corrupt
  }

  /** A slot that was being quarantined: still there, or gone. */
  ghost predicate MaybeQuarantined<T>(normalize: Normalizer<T>, slot: Slot<T>, s: Slot<T>) {
    s == slot || s == Quarantined(normalize, slot)
  }

  ghost predicate MaybeCleaned<T>(normalize: Normalizer<T>, s: Store<T>, s': Store<T>) {
    && MaybeQuarantined(normalize, s.slot0, s'.slot0)
    && MaybeQuarantined(normalize, s.slot1, s'.slot1)
    && s'.legacy == s.legacy
  }

  /** Crashing anywhere in a persist: while quarantining, or while writing the target slot. */
  ghost predicate CrashedPersist<T>(normalize: Normalizer<T>, s: Store<T>, value: T, s': Store<T>) {
    || MaybeCleaned(normalize, s, s')
    || (Persist(normalize, s, value).1.Ok? &&
        var second, clean, done := TargetIsSecond(normalize, s), Cleaned(normalize, s), Persist(normalize, s, value).0;
        if second then s' == clean.(slot1 := s'.slot1) && Torn(clean.slot1, done.slot1, s'.slot1)
        else s' == clean.(slot0 := s'.slot0) && Torn(clean.slot0, done.slot0, s'.slot0))
  }

  /** Crashing anywhere in a load: while quarantining slots or the legacy copy, or while migrating. */
  ghost predicate CrashedLoad<T>(normalize: Normalizer<T>, initial: T, s: Store<T>, s': Store<T>) {
    var done := Load(normalize, initial, s).0;
    || MaybeCleaned(normalize, s, s')
    || s' == done
    || (Migrates(normalize, s) && s' == done.(slot0 := s'.slot0)
        && Torn(Cleaned(normalize, s).slot0, done.slot0, s'.slot0))
  }

  predicate Migrates<T>(normalize: Normalizer<T>, s: Store<T>) {
    && !HasSlot(normalize, s)
    && s.legacy.ValidLegacy? && normalize(s.legacy.payload).Some?
  }

  /** A load returns what is stored. It moves unreadable slots out of the way, and touches nothing else but
      for a legacy copy that it gets to: one that counts is also put into the first slot at revision 1, and one
      that cannot be read is dropped. */
  lemma LoadReturnsTheStored<T>(normalize: Normalizer<T>, initial: T, s: Store<T>)
    ensures Load(normalize, initial, s).1 == Value(normalize, initial, s)
    ensures var s', migrates := Load(normalize, initial, s).0, Migrates(normalize, s);
      && s'.slot1 == (if s.slot1.Future? || IsReadable(normalize, s.slot1) then s.slot1 else Missing)
      && s'.slot0 == (if migrates then Valid(1, normalize(s.legacy.payload).value)
                      else if s.slot0.Future? || IsReadable(normalize, s.slot0) then s.slot0 else Missing)
      && (s'.legacy == s.legacy
          || (s'.legacy.NoLegacy? && !HasSlot(normalize, s)
              && (s.legacy.CorruptLegacy? || (s.legacy.ValidLegacy? && normalize(s.legacy.payload).None?))))
  {
  }

  /** A slot counts, or stops the call. */
  predicate HasSlot<T>(normalize: Normalizer<T>, s: Store<T>) {
    s.slot0.Future? || s.slot1.Future? || IsReadable(normalize, s.slot0) || IsReadable(normalize, s.slot1)
  }

  /** A persist succeeds exactly when the value normalizes, no slot is of a newer schema, and the revision can
      still go up. It then leaves the value at the next revision in one slot, and what counted before in the
      other. */
  lemma PersistSucceedsIff<T>(normalize: Normalizer<T>, s: Store<T>, value: T)
    ensures Persist(normalize, s, value).1.Ok? <==>
      && normalize(value).Some? && !s.slot0.Future? && !s.slot1.Future?
      && HighestRevision(normalize, s) < MAX_SAFE_INTEGER
    ensures Persist(normalize, s, value).1.Err? ==>
      Persist(normalize, s, value).1.error
      == (if normalize(value).None? then InvalidValue
          else if s.slot0.Future? || s.slot1.Future? then UnsupportedSchema else RevisionsExhausted)
    ensures Persist(normalize, s, value).1.Ok? ==>
      var s', written := Persist(normalize, s, value).0,
          Valid(HighestRevision(normalize, s) + 1, normalize(value).value);
      && Persist(normalize, s, value).1 == Ok(normalize(value).value) && s'.legacy == s.legacy
      && ((s'.slot0 == written && s'.slot1 == (if IsReadable(normalize, s.slot1) then s.slot1 else Missing)
           && (IsReadable(normalize, s.slot0) ==>
                 IsReadable(normalize, s.slot1) && s.slot0.revision <= s.slot1.revision))
          || (s'.slot1 == written && s'.slot0 == s.slot0 && IsReadable(normalize, s.slot0)
              && (IsReadable(normalize, s.slot1) ==> s.slot1.revision < s.slot0.revision)))
  {
  }

  /** The slot a persist writes is never the one a load would choose, even when revisions tie. */
  lemma TargetIsNeverNewest<T>(normalize: Normalizer<T>, s: Store<T>)
    ensures Newest(normalize, s).Some? ==>
      Newest(normalize, s) == ReadCandidate(normalize, if TargetIsSecond(normalize, s) then s.slot0 else s.slot1)
  {
  }

  /** A slot that reads as absent can be missing or corrupt without a difference. */
  lemma CleaningKeepsValue<T(!new)>(normalize: Normalizer<T>, initial: T, s: Store<T>, s': Store<T>)
    requires MaybeCleaned(normalize, s, s')
    ensures Value(normalize, initial, s') == Value(normalize, initial, s)
    ensures CurrentRevision(normalize, s') == CurrentRevision(normalize, s)
  {
  }

  /** Crash safety: after a persist that was interrupted, a load returns what a load would have
      returned before, or the new value; and no revision is lost. */
  lemma CrashedPersistIsAtomic<T(!new)>(normalize: Normalizer<T>, initial: T, s: Store<T>, value: T, s': Store<T>)
    requires Idempotent(normalize) && CrashedPersist(normalize, s, value, s')
    ensures
      || Value(normalize, initial, s') == Value(normalize, initial, s)
      || (normalize(value).Some? && Value(normalize, initial, s') == Ok(normalize(value).value))
    ensures CurrentRevision(normalize, s) <= CurrentRevision(normalize, s')
  {
    if MaybeCleaned(normalize, s, s') {
      CleaningKeepsValue(normalize, initial, s, s');
    } else {
      TargetIsNeverNewest(normalize, s);
      var clean := Cleaned(normalize, s);
      CleaningKeepsValue(normalize, initial, s, clean);
    }
  }

  lemma CrashedLoadKeepsValue<T(!new)>(normalize: Normalizer<T>, initial: T, s: Store<T>, s': Store<T>)
    requires Idempotent(normalize) && CrashedLoad(normalize, initial, s, s')
    ensures Value(normalize, initial, s') == Value(normalize, initial, s)
    ensures CurrentRevision(normalize, s) <= CurrentRevision(normalize, s')
  {
    if MaybeCleaned(normalize, s, s') { CleaningKeepsValue(normalize, initial, s, s'); }
  }

  datatype Operation<T> = DoLoad | DoPersist(value: T) | CrashInLoad | CrashInPersist(value: T)

  /** One operation under the lock, with what it returned and the revision it left behind. */
  datatype Event<T> = Event(operation: Operation<T>, result: Option<Result<T, StoreError>>, after: Store<T>)

  ghost predicate Happens<T>(normalize: Normalizer<T>, initial: T, s: Store<T>, e: Event<T>) {
    match e.operation
    case DoLoad => e.result.Some? && (e.after, e.result.value) == Load(normalize, initial, s)
    case DoPersist(value) => e.result.Some? && (e.after, e.result.value) == Persist(normalize, s, value)
    case CrashInLoad => e.result.None? && CrashedLoad(normalize, initial, s, e.after)
    case CrashInPersist(value) => e.result.None? && CrashedPersist(normalize, s, value, e.after)
  }

  ghost predicate Trace<T>(normalize: Normalizer<T>, initial: T, s: Store<T>, events: seq<Event<T>>)
    decreases events
  {
    events != [] ==>
      Happens(normalize, initial, s, events[0]) && Trace(normalize, initial, events[0].after, events[1..])
  }

  /** An atomic register that may be read, written, or crashed into keeping or taking a value. */
  ghost predicate IsRegister<T>(normalize: Normalizer<T>, initial: T, value: Result<T, StoreError>,
                                events: seq<Event<T>>)
    decreases events
  {
    events != [] ==>
      var e := events[0];
      var next := Value(normalize, initial, e.after);
      && (match e.operation
          case DoLoad => e.result == Some(value) && next == value
          case DoPersist(v) =>
            e.result.Some? &&
            (if e.result.value.Ok? then normalize(v) == Some(e.result.value.value) && next == e.result.value
             else next == value)
          case CrashInLoad => next == value
          case CrashInPersist(v) => next == value || (normalize(v).Some? && next == Ok(normalize(v).value)))
      && IsRegister(normalize, initial, next, events[1..])
  }

  /** Revisions never go down, and each completed persist leaves a higher one than any before. */
  ghost predicate RevisionsIncrease<T>(normalize: Normalizer<T>, revision: nat, events: seq<Event<T>>)
    decreases events
  {
    events != [] ==>
      var e := events[0];
      var next := CurrentRevision(normalize, e.after);
      && revision <= next
      && (e.operation.DoPersist? && e.result.Some? && e.result.value.Ok? ==> revision < next)
      && RevisionsIncrease(normalize, next, events[1..])
  }

  ghost predicate KeepsFuture<T>(s: Store<T>, s': Store<T>) {
    && (s.slot0.Future? ==> s'.slot0 == s.slot0) && (s.slot1.Future? ==> s'.slot1 == s.slot1)
    && (s.legacy.FutureLegacy? ==> s'.legacy == s.legacy)
  }

  lemma StepIsRegister<T(!new)>(normalize: Normalizer<T>, initial: T, s: Store<T>, e: Event<T>)
    requires Idempotent(normalize) && Happens(normalize, initial, s, e)
    ensures IsRegister(normalize, initial, Value(normalize, initial, s), [e])
    ensures RevisionsIncrease(normalize, CurrentRevision(normalize, s), [e])
    ensures KeepsFuture(s, e.after)
  {
    assert [e][1..] == [];
    match e.operation {
      case DoLoad => LoadKeepsValue(normalize, initial, s);
      case DoPersist(value) => PersistTakesEffect(normalize, initial, s, value);
      case CrashInLoad => CrashedLoadKeepsValue(normalize, initial, s, e.after);
      case CrashInPersist(value) => CrashedPersistIsAtomic(normalize, initial, s, value, e.after);
    }
  }

  lemma LoadKeepsValue<T(!new)>(normalize: Normalizer<T>, initial: T, s: Store<T>)
    requires Idempotent(normalize)
    ensures var s' := Load(normalize, initial, s).0;
      && Value(normalize, initial, s') == Value(normalize, initial, s)
      && CurrentRevision(normalize, s) <= CurrentRevision(normalize, s')
  {
    CrashedLoadKeepsValue(normalize, initial, s, Load(normalize, initial, s).0);
  }

  lemma PersistTakesEffect<T(!new)>(normalize: Normalizer<T>, initial: T, s: Store<T>, value: T)
    requires Idempotent(normalize)
    ensures var (s', r) := Persist(normalize, s, value);
      if r.Ok? then
        && normalize(value) == Some(r.value) && Value(normalize, initial, s') == Ok(r.value)
        && CurrentRevision(normalize, s') == CurrentRevision(normalize, s) + 1
      else
        && Value(normalize, initial, s') == Value(normalize, initial, s)
        && CurrentRevision(normalize, s') == CurrentRevision(normalize, s)
  {
    if Persist(normalize, s, value).1.Err? {
      CleaningKeepsValue(normalize, initial, s, Persist(normalize, s, value).0);
    }
  }

  /** Any run of loads and persists, completed or crashed, behaves as the atomic register, with
      strictly increasing revisions of the completed persists. */
  lemma {:induction false} StoreIsARegister<T(!new)>(normalize: Normalizer<T>, initial: T, s: Store<T>,
                                              events: seq<Event<T>>)
    requires Idempotent(normalize) && Trace(normalize, initial, s, events)
    ensures IsRegister(normalize, initial, Value(normalize, initial, s), events)
    ensures RevisionsIncrease(normalize, CurrentRevision(normalize, s), events)
    decreases events
  {
    if events != [] {
      StepIsRegister(normalize, initial, s, events[0]);
      hide Happens, Load, Persist, CurrentRevision, Value;
      StoreIsARegister(normalize, initial, events[0].after, events[1..]);
    }
  }

  /** The text of a slot or a legacy copy written by a newer version is never altered, by any run. */
  lemma {:induction false} FutureIsNeverAltered<T(!new)>(normalize: Normalizer<T>, initial: T, s: Store<T>,
                                                  events: seq<Event<T>>)
    requires Idempotent(normalize) && Trace(normalize, initial, s, events)
    ensures forall k :: 0 <= k < |events| ==> KeepsFuture(s, events[k].after)
    decreases events
  {
    if events != [] {
      StepIsRegister(normalize, initial, s, events[0]);
      hide Happens;
      FutureIsNeverAltered(normalize, initial, events[0].after, events[1..]);
      forall k | 0 <= k < |events| ensures KeepsFuture(s, events[k].after) {
        if 0 < k { assert events[k] == events[1..][k - 1]; }
      }
    }
  }
}
