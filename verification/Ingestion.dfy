/** Batch import of evidence into the journal under one lock: what each record does to the journal,
    the normalizer and the reported outcomes, on every exit. */
module Ingestion {
  import opened JsonValues
  import opened Journal
  import opened Normalization
  import opened EvidenceRecords

  datatype Entry = Entry(eventId: string, fingerprint: Option<string>)

  datatype Status = Imported | Duplicate | Conflict | Failed

  datatype Outcome = Outcome(key: string, status: Status, eventId: Option<string>, error: Option<string>)

  // The surroundings of an import: disk(n) is the journal error of the n-th write, if it fails. An
  // atomic import holds the journal lock for the whole batch; a plain one takes it for each append.
  datatype World = World(
    atomic: bool,
    codec: Codec,
    persist: Event -> Persisted,
    disk: nat -> Option<string>,
    ids: nat -> string,
    now: nat -> Times,
    defaults: Defaults)

  // nextId counts identifiers and clock readings spent.
  datatype State = State(
    events: seq<Event>,
    position: Position,
    nextId: nat,
    batchSeen: map<string, Entry>,
    outcomes: seq<Outcome>)

  // What follows a record: the next one, the end of the batch, or an exception to the caller.
  datatype Step = Continue(state: State) | Stop(state: State) | Raise(state: State)

  datatype Exit = Finished | Broke | Raised

  datatype Result = Result(exit: Exit, state: State)

  const RECORD_ERROR := "evidence record could not be imported"
  const CONFLICT_ERROR := "idempotency key already used for different evidence record"

  // Later events win.
  function Existing(es: seq<Event>): map<string, Entry> {
    if es == [] then map[]
    else
      var e, before := es[|es| - 1], Existing(es[..|es| - 1]);
      match IngestKey(e.payload)
      case None => before
      case Some(key) => before[key := Entry(e.id, IngestFingerprint(e.payload))]
  }

  function Matched(r: Record, entry: Entry, fingerprint: string): Outcome {
    if entry.fingerprint.None? || entry.fingerprint == Some(fingerprint)
    then Outcome(r.key, Duplicate, Some(entry.eventId), None)
    else Outcome(r.key, Conflict, Some(entry.eventId), Some(CONFLICT_ERROR))
  }

  function Report(s: State, o: Outcome): State { s.(outcomes := s.outcomes + [o]) }

  function Fail(s: State, r: Record, error: string): State { Report(s, Outcome(r.key, Failed, None, Some(error))) }

  // A journal error ends an atomic batch, and reaches the caller if nothing was imported yet.
  function JournalError(w: World, s: State, r: Record, name: string): Step {
    if !w.atomic then Continue(Fail(s, r, name))
    else if s.batchSeen == map[] then Raise(s)
    else Stop(Fail(s, r, name))
  }

  function Import(s: State, r: Record, fingerprint: string, e: Event): State {
    Report(s.(events := s.events + [e], batchSeen := s.batchSeen[r.key := Entry(e.id, Some(fingerprint))]),
           Outcome(r.key, Imported, Some(e.id), None))
  }

  // A normalized event on its way to the journal; n numbers the write.
  function AppendOne(w: World, s: State, r: Record, fingerprint: string, e: Event, n: nat): Step {
    if e.sequence != |s.events| then JournalError(w, s, r, APPEND_ERROR)
    else match Prepare(w.codec, w.persist, e, TerminalHash(s.events, |s.events|))
      case Invalid => Continue(Fail(s, r, RECORD_ERROR))
      case Refused => Raise(s)
      case Kept(p) =>
        match w.disk(n)
        case Some(name) => JournalError(w, s, r, name)
        case None => Continue(Import(s, r, fingerprint, p))
  }

  function Normalized(w: World, s: State, r: Record, fingerprint: string): Option<(Event, Position)> {
    RecordEvent(s.position, w.ids(s.nextId), r.eventType, PayloadWithIngest(r, fingerprint),
                ContextOf(w.defaults, r.source, r.principal, r.classification, w.now(s.nextId)), None, None)
  }

  function NewOne(w: World, s: State, r: Record, fingerprint: string): Step {
    var spent := s.(nextId := s.nextId + 1);
    match Normalized(w, s, r, fingerprint)
    case None => Continue(Fail(spent, r, RECORD_ERROR))
    case Some((e, position)) => AppendOne(w, spent.(position := position), r, fingerprint, e, s.nextId)
  }

  function FingerprintOf(w: World, r: Record): string { Fingerprint(w.codec.digest, w.defaults, r) }

  function ImportOne(w: World, seen: map<string, Entry>, s: State, r: Record): Step {
    var f := FingerprintOf(w, r);
    if r.key in seen then Continue(Report(s, Matched(r, seen[r.key], f)))
    else if r.key in s.batchSeen then Continue(Report(s, Matched(r, s.batchSeen[r.key], f)))
    else NewOne(w, s, r, f)
  }

  type Turn = (State, Record) -> Step

  // The loop over the records, for any turn.
  function Loop(turn: Turn, s: State, rs: seq<Record>, i: nat): Result
    requires i <= |rs|
    decreases |rs| - i
  {
    if i == |rs| then Result(Finished, s)
    else match turn(s, rs[i])
      case Continue(s') => Loop(turn, s', rs, i + 1)
      case Stop(s') => Result(Broke, s')
      case Raise(s') => Result(Raised, s')
  }

  function OneTurn(w: World, seen: map<string, Entry>): Turn { (s: State, r: Record) => ImportOne(w, seen, s, r) }

  function ImportFrom(w: World, seen: map<string, Entry>, s: State, rs: seq<Record>, i: nat): Result
    requires i <= |rs|
  {
    Loop(OneTurn(w, seen), s, rs, i)
  }

  // One turn of the import loop.
  lemma ImportUnfolds(w: World, seen: map<string, Entry>, s: State, rs: seq<Record>, i: nat)
    returns (step: Step)
    requires i < |rs|
    ensures step == ImportOne(w, seen, s, rs[i])
    ensures step.Continue? ==> ImportFrom(w, seen, s, rs, i) == ImportFrom(w, seen, step.state, rs, i + 1)
    ensures step.Stop? ==> ImportFrom(w, seen, s, rs, i) == Result(Broke, step.state)
    ensures step.Raise? ==> ImportFrom(w, seen, s, rs, i) == Result(Raised, step.state)
  {
    step := OneTurn(w, seen)(s, rs[i]);
  }

  /** The whole atomic import into a journal that verified and held these events. */
  function ImportBatch(w: World, es: seq<Event>, position: Position, nextId: nat, records: seq<Record>): Result {
    match Rebased(position, |es|)
    case None => Result(Raised, State(es, position, nextId, map[], []))
    case Some(p) => ImportFrom(w, Existing(es), State(es, p, nextId, map[], []), Ordered(records), 0)
  }

  /** The plain import: the normalizer is taken as it stands, and the seen keys are those of whatever
      snapshot the caller supplied, none without one. */
  function ImportPlain(
    w: World, seen: map<string, Entry>, es: seq<Event>, position: Position, nextId: nat, records: seq<Record>): Result
  {
    ImportFrom(w, seen, State(es, position, nextId, map[], []), Ordered(records), 0)
  }

  // ---------------------------------------------------------------- the three kinds of step

  // Nothing but the normalizer moved.
  ghost predicate Stays(s: State, s': State) {
    s'.events == s.events && s'.batchSeen == s.batchSeen && s'.outcomes == s.outcomes
  }

  // One outcome was reported, and nothing imported.
  ghost predicate Reports(s: State, s': State, r: Record) {
    && s'.events == s.events && s'.batchSeen == s.batchSeen
    && |s'.outcomes| == |s.outcomes| + 1 && s'.outcomes[..|s.outcomes|] == s.outcomes
    && s'.outcomes[|s.outcomes|].key == r.key && s'.outcomes[|s.outcomes|].status != Imported
  }

  ghost predicate Fails(s: State, s': State, r: Record) {
    Reports(s, s', r) && s'.outcomes[|s.outcomes|].status == Failed
  }

  // The normalized record was prepared and written.
  ghost predicate Imports(w: World, s: State, s': State, r: Record, f: string) {
    && Normalized(w, s, r, f).Some?
    && var e, last := Normalized(w, s, r, f).value.0, TerminalHash(s.events, |s.events|);
    && e.sequence == |s.events|
    && Prepare(w.codec, w.persist, e, last).Kept?
    && var p := Prepare(w.codec, w.persist, e, last).event;
    && s'.events == s.events + [p]
    && s'.batchSeen == s.batchSeen[r.key := Entry(p.id, Some(f))]
    && s'.outcomes == s.outcomes + [Outcome(r.key, Imported, Some(p.id), None)]
  }

  ghost predicate ImportsNew(w: World, seen: map<string, Entry>, s: State, s': State, r: Record) {
    r.key !in seen && r.key !in s.batchSeen && Imports(w, s, s', r, FingerprintOf(w, r))
  }

  ghost predicate Appends(w: World, s: State, step: Step, r: Record, f: string, e: Event) {
    && step.Continue? && e.sequence == |s.events|
    && var prepared := Prepare(w.codec, w.persist, e, TerminalHash(s.events, |s.events|));
    && prepared.Kept? && step.state == Import(s, r, f, prepared.event)
  }

  lemma AppendMoves(w: World, s: State, r: Record, f: string, e: Event, n: nat)
    ensures
      var step := AppendOne(w, s, r, f, e, n);
      && (step.Raise? ==> step.state == s)
      && (!step.Raise? ==> Fails(s, step.state, r) || Appends(w, s, step, r, f, e))
  {
  }

  lemma NewMoves(w: World, s: State, r: Record, f: string)
    ensures
      var step := NewOne(w, s, r, f);
      && (step.Raise? ==> Stays(s, step.state))
      && (!step.Raise? ==> Fails(s, step.state, r) || (step.Continue? && Imports(w, s, step.state, r, f)))
  {
    if Normalized(w, s, r, f).Some? {
      var (e, position) := Normalized(w, s, r, f).value;
      var sent := s.(nextId := s.nextId + 1, position := position);
      AppendMoves(w, sent, r, f, e, s.nextId);
    }
  }

  /** A step raises and imports nothing, reports one outcome other than an import, or imports a record
      under a new key. */
  lemma StepMoves(w: World, seen: map<string, Entry>, s: State, r: Record)
    ensures
      var step := ImportOne(w, seen, s, r);
      && (step.Raise? ==> Stays(s, step.state))
      && (!step.Raise? ==> Reports(s, step.state, r) || (step.Continue? && ImportsNew(w, seen, s, step.state, r)))
  {
    if r.key !in seen && r.key !in s.batchSeen {
      NewMoves(w, s, r, FingerprintOf(w, r));
    }
  }

  // ---------------------------------------------------------------- every exit of every batch

  ghost predicate Trusted(w: World) {
    w.codec.Sound() && Parses(w.codec, w.persist) && KeepsChainFields(w.codec, w.persist)
  }

  function Count(os: seq<Outcome>, status: Status): nat {
    if os == [] then 0
    else Count(os[..|os| - 1], status) + if os[|os| - 1].status == status then 1 else 0
  }

  // The event ids reported for imports, in order.
  function ImportedIds(os: seq<Outcome>): seq<Option<string>> {
    if os == [] then []
    else
      var o, init := os[|os| - 1], ImportedIds(os[..|os| - 1]);
      if o.status == Imported then init + [o.eventId] else init
  }

  function EventIds(es: seq<Event>): (ids: seq<Option<string>>)
    ensures |ids| == |es| && forall i | 0 <= i < |es| :: ids[i] == Some(es[i].id)
  {
    seq(|es|, i requires 0 <= i < |es| => Some(es[i].id))
  }

  ghost predicate Follows(os: seq<Outcome>, rs: seq<Record>) {
    |os| <= |rs| && forall i | 0 <= i < |os| :: os[i].key == rs[i].key
  }

  /** The journal was only appended to, is a valid chain, grew by the events reported as imported, one
      by one, and the outcomes follow the records in order. */
  ghost predicate Accounted(c: Codec, es: seq<Event>, rs: seq<Record>, s: State) {
    && es <= s.events
    && Chained(c, s.events) && AllValid(c, s.events)
    && |s.events| == |es| + Count(s.outcomes, Imported)
    && EventIds(s.events[|es|..]) == ImportedIds(s.outcomes)
    && Follows(s.outcomes, rs)
  }

  lemma ReportKeepsAccount(c: Codec, es: seq<Event>, rs: seq<Record>, s: State, s': State)
    requires Accounted(c, es, rs, s) && |s.outcomes| < |rs| && Reports(s, s', rs[|s.outcomes|])
    ensures Accounted(c, es, rs, s')
  {
  }

  lemma ImportKeepsAccount(w: World, es: seq<Event>, rs: seq<Record>, s: State, s': State, f: string)
    requires Trusted(w) && Accounted(w.codec, es, rs, s) && |s.outcomes| < |rs|
    requires Imports(w, s, s', rs[|s.outcomes|], f)
    ensures Accounted(w.codec, es, rs, s')
  {
    var e := Normalized(w, s, rs[|s.outcomes|], f).value.0;
    PreparedEventLinks(w.codec, w.persist, s.events, e);
    PreparedIsValid(w.codec, w.persist, s.events, e);
    assert s'.outcomes[..|s.outcomes|] == s.outcomes;
    assert s'.events[|es|..] == s.events[|es|..] + [s'.events[|s.events|]];
  }

  lemma StepKeepsAccount(w: World, seen: map<string, Entry>, es: seq<Event>, rs: seq<Record>, s: State)
    requires Trusted(w) && Accounted(w.codec, es, rs, s) && |s.outcomes| < |rs|
    ensures
      var step := ImportOne(w, seen, s, rs[|s.outcomes|]);
      Accounted(w.codec, es, rs, step.state)
      && |step.state.outcomes| == |s.outcomes| + if step.Raise? then 0 else 1
  {
    var r := rs[|s.outcomes|];
    var step := ImportOne(w, seen, s, r);
    StepMoves(w, seen, s, r);
    if Reports(s, step.state, r) {
      ReportKeepsAccount(w.codec, es, rs, s, step.state);
    } else if !step.Raise? {
      ImportKeepsAccount(w, es, rs, s, step.state, FingerprintOf(w, r));
    }
  }

  lemma {:induction false} ImportKeepsAccountFrom(
    w: World, seen: map<string, Entry>, es: seq<Event>, rs: seq<Record>, s: State, i: nat)
    requires Trusted(w) && Accounted(w.codec, es, rs, s) && i == |s.outcomes| <= |rs|
    ensures
      var result := ImportFrom(w, seen, s, rs, i);
      Accounted(w.codec, es, rs, result.state)
      && (result.exit == Finished ==> |result.state.outcomes| == |rs|)
    decreases |rs| - i
  {
    if i < |rs| {
      StepKeepsAccount(w, seen, es, rs, s);
      var step := ImportOne(w, seen, s, rs[i]);
      if step.Continue? { ImportKeepsAccountFrom(w, seen, es, rs, step.state, i + 1); }
    }
  }

  /** On every exit the journal has only grown, by exactly the imported count, is still a valid chain,
      and the outcomes are those of a prefix of the sorted records: of all of them when it finishes. */
  lemma EveryExitIsAccounted(w: World, es: seq<Event>, position: Position, nextId: nat, records: seq<Record>)
    requires Trusted(w) && Chained(w.codec, es) && AllValid(w.codec, es)
    ensures
      var result := ImportBatch(w, es, position, nextId, records);
      Accounted(w.codec, es, Ordered(records), result.state)
      && (result.exit == Finished ==> |result.state.outcomes| == |Ordered(records)|)
  {
    if Rebased(position, |es|).Some? {
      var s := State(es, Rebased(position, |es|).value, nextId, map[], []);
      ImportKeepsAccountFrom(w, Existing(es), es, Ordered(records), s, 0);
    }
  }

  /** A plain import accounts for itself in the same way, and never stops early. */
  lemma PlainImportIsAccounted(
    w: World, seen: map<string, Entry>, es: seq<Event>, position: Position, nextId: nat, records: seq<Record>)
    requires !w.atomic && Trusted(w) && Chained(w.codec, es) && AllValid(w.codec, es)
    ensures
      var result := ImportPlain(w, seen, es, position, nextId, records);
      Accounted(w.codec, es, Ordered(records), result.state) && result.exit != Broke
      && (result.exit == Finished ==> |result.state.outcomes| == |Ordered(records)|)
  {
    var s := State(es, position, nextId, map[], []);
    ImportKeepsAccountFrom(w, seen, es, Ordered(records), s, 0);
    PlainNeverBreaks(w, seen, s, Ordered(records), 0, ImportPlain(w, seen, es, position, nextId, records));
  }

  lemma PlainNeverStops(w: World, seen: map<string, Entry>, s: State, r: Record)
    requires !w.atomic
    ensures !ImportOne(w, seen, s, r).Stop?
  {
  }

  lemma {:induction false} PlainNeverBreaks(
    w: World, seen: map<string, Entry>, s: State, rs: seq<Record>, i: nat, result: Result)
    requires !w.atomic && i <= |rs| && result == ImportFrom(w, seen, s, rs, i)
    ensures result.exit != Broke
    decreases |rs| - i
  {
    if i < |rs| {
      var step := ImportUnfolds(w, seen, s, rs, i);
      PlainNeverStops(w, seen, s, rs[i]);
      if step.Continue? { PlainNeverBreaks(w, seen, step.state, rs, i + 1, result); }
    }
  }

  // ---------------------------------------------------------------- idempotency keys

  /** What at-most-once rests on: the policy leaves the ingest metadata of a record readable. */
  ghost predicate KeepsIngest(w: World, r: Record) {
    forall e: Event | e.payload == PayloadWithIngest(r, FingerprintOf(w, r)) && w.persist(e).Kept? ::
      IngestKey(w.persist(e).event.payload) == Some(r.key)
      && IngestFingerprint(w.persist(e).event.payload) == Some(FingerprintOf(w, r))
  }

  ghost predicate KeepsAllIngest(w: World, rs: seq<Record>) {
    forall i | 0 <= i < |rs| :: KeepsIngest(w, rs[i])
  }

  ghost predicate KeysDiffer(e: Event, f: Event) {
    IngestKey(e.payload).Some? ==> IngestKey(e.payload) != IngestKey(f.payload)
  }

  ghost predicate KeysDistinct(es: seq<Event>) { forall i, j | 0 <= i < j < |es| :: KeysDiffer(es[i], es[j]) }

  lemma ExistingAfterAppend(es: seq<Event>, e: Event)
    ensures Existing(es + [e]) ==
      match IngestKey(e.payload)
      case None => Existing(es)
      case Some(key) => Existing(es)[key := Entry(e.id, IngestFingerprint(e.payload))]
  {
    assert (es + [e])[..|es|] == es;
  }

  lemma {:induction false} ExistingHasEveryKey(es: seq<Event>, i: nat)
    requires i < |es| && IngestKey(es[i].payload).Some?
    ensures IngestKey(es[i].payload).value in Existing(es)
  {
    if i < |es| - 1 { ExistingHasEveryKey(es[..|es| - 1], i); }
  }

  /** A scan of the journal would find what was seen before the batch and what the batch added. */
  ghost predicate Indexed(seen: map<string, Entry>, s: State) {
    Existing(s.events) == seen + s.batchSeen && s.batchSeen.Keys !! seen.Keys
  }

  // The metadata of the event that a record becomes.
  lemma PreparedKeepsIngest(w: World, r: Record, e: Event, previous: Option<string>)
    requires KeepsIngest(w, r) && e.payload == PayloadWithIngest(r, FingerprintOf(w, r))
    requires Prepare(w.codec, w.persist, e, previous).Kept?
    ensures
      var p := Prepare(w.codec, w.persist, e, previous).event;
      IngestKey(p.payload) == Some(r.key) && IngestFingerprint(p.payload) == Some(FingerprintOf(w, r))
  {
    var kept := Redacted(w.persist, e, previous);
    assert kept.Kept?;
  }

  lemma AppendKeepsKeysDistinct(es: seq<Event>, e: Event)
    requires KeysDistinct(es)
    requires IngestKey(e.payload).Some? ==> IngestKey(e.payload).value !in Existing(es)
    ensures KeysDistinct(es + [e])
  {
    forall i, j | 0 <= i < j < |es + [e]| ensures KeysDiffer((es + [e])[i], (es + [e])[j]) {
      if j == |es| && IngestKey(es[i].payload).Some? { ExistingHasEveryKey(es, i); }
    }
  }

  lemma NewEventIsIndexed(seen: map<string, Entry>, s: State, key: string, f: string, p: Event)
    requires Indexed(seen, s) && key !in seen
    requires IngestKey(p.payload) == Some(key) && IngestFingerprint(p.payload) == Some(f)
    ensures Existing(s.events + [p]) == seen + s.batchSeen[key := Entry(p.id, Some(f))]
  {
    ExistingAfterAppend(s.events, p);
  }

  lemma ImportKeepsIndex(w: World, seen: map<string, Entry>, s: State, s': State, r: Record)
    requires KeepsIngest(w, r) && Indexed(seen, s) && ImportsNew(w, seen, s, s', r)
    ensures Indexed(seen, s') && (KeysDistinct(s.events) ==> KeysDistinct(s'.events))
  {
    var f := FingerprintOf(w, r);
    var e, last := Normalized(w, s, r, f).value.0, TerminalHash(s.events, |s.events|);
    var p := Prepare(w.codec, w.persist, e, last).event;
    PreparedKeepsIngest(w, r, e, last);
    NewEventIsIndexed(seen, s, r.key, f, p);
    if KeysDistinct(s.events) { AppendKeepsKeysDistinct(s.events, p); }
  }

  lemma StepKeepsIndex(w: World, seen: map<string, Entry>, s: State, r: Record)
    requires KeepsIngest(w, r) && Indexed(seen, s)
    ensures
      var s' := ImportOne(w, seen, s, r).state;
      Indexed(seen, s') && (KeysDistinct(s.events) ==> KeysDistinct(s'.events))
  {
    var s' := ImportOne(w, seen, s, r).state;
    StepMoves(w, seen, s, r);
    if ImportsNew(w, seen, s, s', r) { ImportKeepsIndex(w, seen, s, s', r); }
  }

  lemma {:induction false} ImportKeepsIndexFrom(
    w: World, seen: map<string, Entry>, s: State, rs: seq<Record>, i: nat)
    requires KeepsAllIngest(w, rs) && Indexed(seen, s) && i <= |rs|
    ensures
      var s' := ImportFrom(w, seen, s, rs, i).state;
      Indexed(seen, s') && (KeysDistinct(s.events) ==> KeysDistinct(s'.events))
    decreases |rs| - i
  {
    if i < |rs| {
      StepKeepsIndex(w, seen, s, rs[i]);
      var step := ImportOne(w, seen, s, rs[i]);
      if step.Continue? { ImportKeepsIndexFrom(w, seen, step.state, rs, i + 1); }
    }
  }
}
