/** Where a batch import goes wrong: which record raises, which is lost, and what that does to the rest. */
module BatchExits {
  import opened JsonValues
  import opened Journal
  import opened Normalization
  import opened EvidenceRecords
  import opened Ingestion
  import opened IngestionRuns

  // ---------------------------------------------------------------- the state each record meets

  // The state before record i, if the loop gets there.
  function LoopState(turn: Turn, s: State, rs: seq<Record>, i: nat): Option<State>
    requires i <= |rs|
  {
    if i == 0 then Some(s)
    else match LoopState(turn, s, rs, i - 1)
      case None => None
      case Some(t) => After(turn(t, rs[i - 1]))
  }

  function After(step: Step): Option<State> { match step case Continue(t) => Some(t) case _ => None }

  lemma {:induction false} RestOfLoop(turn: Turn, s: State, rs: seq<Record>, i: nat, t: State)
    requires i <= |rs| && LoopState(turn, s, rs, i) == Some(t)
    ensures Loop(turn, s, rs, 0) == Loop(turn, t, rs, i)
  {
    if i > 0 { RestOfLoop(turn, s, rs, i - 1, LoopState(turn, s, rs, i - 1).value); }
  }

  // The turn at which a loop that does not finish ends.
  lemma {:induction false} LastTurn(turn: Turn, s: State, rs: seq<Record>, i: nat, t: State) returns (k: nat, u: State)
    requires i <= |rs| && LoopState(turn, s, rs, i) == Some(t) && Loop(turn, t, rs, i).exit != Finished
    ensures i <= k < |rs| && LoopState(turn, s, rs, k) == Some(u)
    ensures
      var step, result := turn(u, rs[k]), Loop(turn, t, rs, i);
      result.state == step.state && (result.exit == Broke <==> step.Stop?) && (result.exit == Raised <==> step.Raise?)
    decreases |rs| - i
  {
    k, u := i, t;
    if turn(t, rs[i]).Continue? { k, u := LastTurn(turn, s, rs, i + 1, turn(t, rs[i]).state); }
  }

  function StateAt(w: World, seen: map<string, Entry>, s: State, rs: seq<Record>, i: nat): Option<State>
    requires i <= |rs|
  {
    LoopState(OneTurn(w, seen), s, rs, i)
  }

  // Record i meets state t.
  ghost predicate Meets(w: World, seen: map<string, Entry>, s: State, rs: seq<Record>, i: nat, t: State) {
    i <= |rs| && StateAt(w, seen, s, rs, i) == Some(t)
  }

  lemma {:induction false} StepBack(w: World, seen: map<string, Entry>, s: State, rs: seq<Record>, i: nat, t: State) returns (u: State)
    requires Meets(w, seen, s, rs, i, t) && i > 0
    ensures Meets(w, seen, s, rs, i - 1, u) && ImportOne(w, seen, u, rs[i - 1]) == Continue(t)
  {
    u := StateAt(w, seen, s, rs, i - 1).value;
    assert OneTurn(w, seen)(u, rs[i - 1]) == ImportOne(w, seen, u, rs[i - 1]);
  }

  lemma StartMeets(w: World, seen: map<string, Entry>, s: State, rs: seq<Record>, t: State)
    ensures Meets(w, seen, s, rs, 0, t) <==> t == s
  {
  }

  lemma {:induction false} RestOfBatch(w: World, seen: map<string, Entry>, s: State, rs: seq<Record>, i: nat, t: State)
    requires Meets(w, seen, s, rs, i, t)
    ensures ImportFrom(w, seen, s, rs, 0) == ImportFrom(w, seen, t, rs, i)
  {
    RestOfLoop(OneTurn(w, seen), s, rs, i, t);
  }

  // The loop ends at record k, in state u.
  ghost predicate EndsAt(
    w: World, seen: map<string, Entry>, s: State, rs: seq<Record>, k: nat, u: State, result: Result)
  {
    && k < |rs| && Meets(w, seen, s, rs, k, u)
    && var step := ImportOne(w, seen, u, rs[k]);
    result.state == step.state && (result.exit == Broke <==> step.Stop?) && (result.exit == Raised <==> step.Raise?)
  }

  // The record at which a batch that does not finish ends.
  lemma {:induction false} LastRecord(w: World, seen: map<string, Entry>, s: State, rs: seq<Record>, result: Result)
    returns (k: nat, u: State)
    requires result == ImportFrom(w, seen, s, rs, 0) && result.exit != Finished
    ensures EndsAt(w, seen, s, rs, k, u, result)
  {
    k, u := LastTurn(OneTurn(w, seen), s, rs, 0, s);
    assert OneTurn(w, seen)(u, rs[k]) == ImportOne(w, seen, u, rs[k]);
  }

  // ---------------------------------------------------------------- what becomes of a new record

  predicate IsNew(seen: map<string, Entry>, s: State, r: Record) { r.key !in seen && r.key !in s.batchSeen }

  // The normalizer's next sequence is the journal's.
  predicate InStep(s: State) { s.position.sequence == |s.events| }

  function NormalizedOf(w: World, s: State, r: Record): Option<(Event, Position)> {
    Normalized(w, s, r, FingerprintOf(w, r))
  }

  function PreparedOf(w: World, s: State, r: Record): Persisted
    requires NormalizedOf(w, s, r).Some?
  {
    Prepare(w.codec, w.persist, NormalizedOf(w, s, r).value.0, TerminalHash(s.events, |s.events|))
  }

  // A new record becomes an event that continues the journal.
  predicate Sent(w: World, seen: map<string, Entry>, s: State, r: Record) {
    IsNew(seen, s, r) && NormalizedOf(w, s, r).Some? && InStep(s)
  }

  /** Preparing the record's event raises an exception the loop does not handle. */
  predicate RefusedAt(w: World, seen: map<string, Entry>, s: State, r: Record) {
    Sent(w, seen, s, r) && PreparedOf(w, s, r).Refused?
  }

  /** The record was normalized but cannot be prepared, or in a plain import cannot be written, and the
      loop goes on. */
  predicate LostAt(w: World, seen: map<string, Entry>, s: State, r: Record) {
    Sent(w, seen, s, r)
    && (PreparedOf(w, s, r).Invalid? || (PreparedOf(w, s, r).Kept? && !w.atomic && w.disk(s.nextId).Some?))
  }

  /** The record is prepared and written. */
  predicate WrittenAt(w: World, seen: map<string, Entry>, s: State, r: Record) {
    Sent(w, seen, s, r) && PreparedOf(w, s, r).Kept? && w.disk(s.nextId).None?
  }

  // A journal error of an atomic import.
  predicate FaultAt(w: World, seen: map<string, Entry>, s: State, r: Record) {
    w.atomic && IsNew(seen, s, r) && NormalizedOf(w, s, r).Some?
    && (!InStep(s) || (PreparedOf(w, s, r).Kept? && w.disk(s.nextId).Some?))
  }

  lemma SequenceOfNormalized(w: World, s: State, r: Record)
    requires NormalizedOf(w, s, r).Some?
    ensures NormalizedOf(w, s, r).value.0.sequence == s.position.sequence
    ensures NormalizedOf(w, s, r).value.1.sequence == s.position.sequence + 1
  {
  }

  lemma RaisesIff(w: World, seen: map<string, Entry>, s: State, r: Record)
    ensures ImportOne(w, seen, s, r).Raise? <==>
      RefusedAt(w, seen, s, r) || (FaultAt(w, seen, s, r) && s.batchSeen == map[])
    ensures ImportOne(w, seen, s, r).Stop? <==> FaultAt(w, seen, s, r) && s.batchSeen != map[]
  {
    if IsNew(seen, s, r) && NormalizedOf(w, s, r).Some? { SequenceOfNormalized(w, s, r); }
  }

  lemma WritesIff(w: World, seen: map<string, Entry>, s: State, r: Record)
    ensures ImportsNew(w, seen, s, ImportOne(w, seen, s, r).state, r) <==> WrittenAt(w, seen, s, r)
  {
    if IsNew(seen, s, r) && NormalizedOf(w, s, r).Some? { SequenceOfNormalized(w, s, r); }
  }

  // ---------------------------------------------------------------- exceptions

  // Nothing written while nothing is remembered.
  ghost predicate Untouched(es: seq<Event>, s: State) { es <= s.events && (s.batchSeen == map[] <==> s.events == es) }

  lemma StepKeepsUntouched(w: World, seen: map<string, Entry>, es: seq<Event>, s: State, r: Record)
    requires Untouched(es, s)
    ensures Untouched(es, ImportOne(w, seen, s, r).state)
  {
    StepMoves(w, seen, s, r);
  }

  lemma {:induction false} StatesAreUntouched(
    w: World, seen: map<string, Entry>, es: seq<Event>, s: State, rs: seq<Record>, i: nat, t: State)
    requires Untouched(es, s) && Meets(w, seen, s, rs, i, t)
    ensures Untouched(es, t)
  {
    if i == 0 {
      StartMeets(w, seen, s, rs, t);
    } else {
      var u := StepBack(w, seen, s, rs, i, t);
      StatesAreUntouched(w, seen, es, s, rs, i - 1, u);
      StepKeepsUntouched(w, seen, es, u, rs[i - 1]);
    }
  }

  // The state a batch starts from.
  function Start(es: seq<Event>, b: Batch): Option<State> {
    match Rebased(b.position, |es|)
    case None => None
    case Some(p) => Some(State(es, p, b.nextId, map[], []))
  }

  // Record i meets this state in the batch.
  ghost predicate InBatch(es: seq<Event>, b: Batch, i: nat, t: State) {
    Start(es, b).Some? && i < |Ordered(b.records)|
    && Meets(b.world, Existing(es), Start(es, b).value, Ordered(b.records), i, t)
  }

  // Record i is refused after something was written.
  ghost predicate RefusedLater(es: seq<Event>, b: Batch, i: nat, t: State) {
    InBatch(es, b, i, t) && t.events != es && RefusedAt(b.world, Existing(es), t, Ordered(b.records)[i])
  }

  lemma {:induction false} RaisedAfterWrite(es: seq<Event>, b: Batch) returns (k: nat, t: State)
    requires ImportedBy(es, b).exit == Raised && ImportedBy(es, b).state.events != es
    ensures RefusedLater(es, b, k, t)
  {
    var w, seen, s, rs := b.world, Existing(es), Start(es, b).value, Ordered(b.records);
    k, t := LastRecord(w, seen, s, rs, ImportedBy(es, b));
    StatesAreUntouched(w, seen, es, s, rs, k, t);
    StepMoves(w, seen, t, rs[k]);
    RaisesIff(w, seen, t, rs[k]);
  }

  lemma {:induction false} RefusalRaises(es: seq<Event>, b: Batch, i: nat, t: State)
    requires RefusedLater(es, b, i, t)
    ensures ImportedBy(es, b).exit == Raised && ImportedBy(es, b).state.events != es
  {
    var w, seen, s, rs := b.world, Existing(es), Start(es, b).value, Ordered(b.records);
    RestOfBatch(w, seen, s, rs, i, t);
    RaisesIff(w, seen, t, rs[i]);
    StepMoves(w, seen, t, rs[i]);
    var step := ImportUnfolds(w, seen, t, rs, i);
  }

  /** An exception leaves a batch that has written something exactly when a later new record is refused
      on its way to the journal. */
  lemma {:induction false} ExceptionAfterWriteIff(es: seq<Event>, b: Batch)
    ensures ImportedBy(es, b).exit == Raised && ImportedBy(es, b).state.events != es
       <==> exists i, t :: RefusedLater(es, b, i, t)
  {
    if ImportedBy(es, b).exit == Raised && ImportedBy(es, b).state.events != es {
      var i, t := RaisedAfterWrite(es, b);
    }
    if i, t :| RefusedLater(es, b, i, t) { RefusalRaises(es, b, i, t); }
  }

  predicate EndsInFailure(os: seq<Outcome>) { os != [] && os[|os| - 1].status == Failed }

  lemma StopFails(w: World, seen: map<string, Entry>, s: State, r: Record)
    requires ImportOne(w, seen, s, r).Stop?
    ensures EndsInFailure(ImportOne(w, seen, s, r).state.outcomes) && ImportOne(w, seen, s, r).state.events == s.events
  {
  }

  /** A batch cut short wrote something, and reports the failure last. */
  lemma {:induction false} CutShortWroteSomething(es: seq<Event>, b: Batch)
    requires ImportedBy(es, b).exit == Broke
    ensures es < ImportedBy(es, b).state.events && EndsInFailure(ImportedBy(es, b).state.outcomes)
  {
    var w, seen, s, rs := b.world, Existing(es), Start(es, b).value, Ordered(b.records);
    var k, t := LastRecord(w, seen, s, rs, ImportedBy(es, b));
    StatesAreUntouched(w, seen, es, s, rs, k, t);
    RaisesIff(w, seen, t, rs[k]);
    StopFails(w, seen, t, rs[k]);
  }

  // ---------------------------------------------------------------- an event lost after normalization

  lemma StepInStepIff(w: World, seen: map<string, Entry>, s: State, r: Record)
    requires InStep(s) && ImportOne(w, seen, s, r).Continue?
    ensures
      var s' := ImportOne(w, seen, s, r).state;
      (InStep(s') <==> !LostAt(w, seen, s, r)) && s'.position.sequence >= |s'.events|
      && (LostAt(w, seen, s, r) ==> s'.events == s.events)
  {
    if IsNew(seen, s, r) && NormalizedOf(w, s, r).Some? { SequenceOfNormalized(w, s, r); }
  }

  lemma AheadStaysAhead(w: World, seen: map<string, Entry>, s: State, r: Record)
    requires s.position.sequence > |s.events|
    ensures
      var s' := ImportOne(w, seen, s, r).state;
      s'.events == s.events && s'.position.sequence > |s'.events|
  {
  }

  // Some record before record i is lost.
  predicate LostBefore(w: World, seen: map<string, Entry>, s: State, rs: seq<Record>, i: nat)
    requires i <= |rs|
  {
    i > 0 && (LostBefore(w, seen, s, rs, i - 1) || LostHere(w, seen, StateAt(w, seen, s, rs, i - 1), rs[i - 1]))
  }

  predicate LostHere(w: World, seen: map<string, Entry>, t: Option<State>, r: Record) {
    t.Some? && LostAt(w, seen, t.value, r)
  }

  /** The normalizer is in step with the journal exactly until some record is lost. */
  lemma {:induction false} InStepIff(
    w: World, seen: map<string, Entry>, s: State, rs: seq<Record>, i: nat, t: State)
    requires InStep(s) && Meets(w, seen, s, rs, i, t)
    ensures t.position.sequence >= |t.events|
    ensures InStep(t) <==> !LostBefore(w, seen, s, rs, i)
  {
    if i == 0 {
      StartMeets(w, seen, s, rs, t);
    } else {
      var u := StepBack(w, seen, s, rs, i, t);
      InStepIff(w, seen, s, rs, i - 1, u);
      assert StateAt(w, seen, s, rs, i - 1) == Some(u);
      if InStep(u) { StepInStepIff(w, seen, u, rs[i - 1]); } else { AheadStaysAhead(w, seen, u, rs[i - 1]); }
    }
  }

  lemma {:induction false} AheadNeverGrows(
    w: World, seen: map<string, Entry>, s: State, rs: seq<Record>, i: nat, result: Result)
    requires i <= |rs| && s.position.sequence > |s.events|
    requires result == ImportFrom(w, seen, s, rs, i)
    ensures result.state.events == s.events
    decreases |rs| - i
  {
    if i < |rs| {
      var step := ImportUnfolds(w, seen, s, rs, i);
      AheadStaysAhead(w, seen, s, rs[i]);
      if step.Continue? { AheadNeverGrows(w, seen, step.state, rs, i + 1, result); }
    }
  }

  lemma LostContinues(w: World, seen: map<string, Entry>, s: State, r: Record)
    requires LostAt(w, seen, s, r)
    ensures ImportOne(w, seen, s, r).Continue?
    ensures
      var s' := ImportOne(w, seen, s, r).state;
      s'.events == s.events && s'.position.sequence > |s'.events|
  {
    RaisesIff(w, seen, s, r);
    SequenceOfNormalized(w, s, r);
    StepInStepIff(w, seen, s, r);
  }

  /** Once a record is lost, the batch writes nothing more. */
  lemma {:induction false} LostRecordEndsGrowth(es: seq<Event>, b: Batch, i: nat, t: State)
    requires InBatch(es, b, i, t) && LostAt(b.world, Existing(es), t, Ordered(b.records)[i])
    ensures ImportedBy(es, b).state.events == t.events
  {
    var w, seen, s, rs, result := b.world, Existing(es), Start(es, b).value, Ordered(b.records), ImportedBy(es, b);
    RestOfBatch(w, seen, s, rs, i, t);
    LostContinues(w, seen, t, rs[i]);
    var step := ImportUnfolds(w, seen, t, rs, i);
    AheadNeverGrows(w, seen, step.state, rs, i + 1, result);
  }

  /** A record the loop reaches is written exactly when it is new, becomes an event the policy and the
      storage let through, and no record before it in the batch was lost. */
  lemma {:induction false} WrittenIff(es: seq<Event>, b: Batch, i: nat, t: State)
    requires InBatch(es, b, i, t)
    ensures
      var w, seen, r := b.world, Existing(es), Ordered(b.records)[i];
      ImportsNew(w, seen, t, ImportOne(w, seen, t, r).state, r) <==>
        (IsNew(seen, t, r) && NormalizedOf(w, t, r).Some? && PreparedOf(w, t, r).Kept? && w.disk(t.nextId).None?
         && !LostBefore(w, seen, Start(es, b).value, Ordered(b.records), i))
  {
    var w, seen, r := b.world, Existing(es), Ordered(b.records)[i];
    WritesIff(w, seen, t, r);
    InStepIff(w, seen, Start(es, b).value, Ordered(b.records), i, t);
  }
}
