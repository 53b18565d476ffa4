/** Runs of batch imports: what every batch keeps, and what its outcomes tell. */
module IngestionRuns {
  import opened JsonValues
  import opened Journal
  import opened Normalization
  import opened EvidenceRecords
  import opened Ingestion
  import Sorting

  // ---------------------------------------------------------------- any run of batches

  datatype Batch = Batch(world: World, position: Position, nextId: nat, records: seq<Record>)

  function ImportedBy(es: seq<Event>, b: Batch): Result { ImportBatch(b.world, es, b.position, b.nextId, b.records) }

  // The journal after these batches, whatever exit each of them took.
  function Run(es: seq<Event>, batches: seq<Batch>): seq<Event>
    decreases |batches|
  {
    if batches == [] then es else Run(ImportedBy(es, batches[0]).state.events, batches[1..])
  }

  function ImportedCount(es: seq<Event>, batches: seq<Batch>): nat
    decreases |batches|
  {
    if batches == [] then 0
    else
      var s := ImportedBy(es, batches[0]).state;
      Count(s.outcomes, Imported) + ImportedCount(s.events, batches[1..])
  }

  // Batches may differ in records, normalizer, clock, storage and policy.
  ghost predicate Admissible(c: Codec, b: Batch) {
    b.world.atomic && b.world.codec == c && Trusted(b.world) && KeepsAllIngest(b.world, b.records)
  }

  // Every known key keeps its entry.
  ghost predicate Extends(m: map<string, Entry>, m': map<string, Entry>) {
    forall k | k in m :: k in m' && m'[k] == m[k]
  }

  /** The same evidence is never imported twice, and what was imported is remembered. */
  ghost predicate Grown(c: Codec, es: seq<Event>, es': seq<Event>) {
    && es <= es' && Chained(c, es') && AllValid(c, es') && KeysDistinct(es')
    && Extends(Existing(es), Existing(es'))
  }

  lemma OrderedKeepsIngest(w: World, records: seq<Record>)
    requires KeepsAllIngest(w, records)
    ensures KeepsAllIngest(w, Ordered(records))
  {
    RecordLeIsPreorder();
    Sorting.SortIsSortedPermutation(records, RecordLe);
    forall i | 0 <= i < |Ordered(records)| ensures KeepsIngest(w, Ordered(records)[i]) {
      assert Ordered(records)[i] in records;
    }
  }

  lemma {:induction false} BatchGrows(c: Codec, es: seq<Event>, b: Batch)
    requires Chained(c, es) && AllValid(c, es) && KeysDistinct(es) && Admissible(c, b)
    ensures
      var s := ImportedBy(es, b).state;
      Grown(c, es, s.events) && |s.events| == |es| + Count(s.outcomes, Imported)
  {
    EveryExitIsAccounted(b.world, es, b.position, b.nextId, b.records);
    OrderedKeepsIngest(b.world, b.records);
    if Rebased(b.position, |es|).Some? {
      var s := State(es, Rebased(b.position, |es|).value, b.nextId, map[], []);
      assert Existing(es) + map[] == Existing(es);
      ImportKeepsIndexFrom(b.world, Existing(es), s, Ordered(b.records), 0);
    }
  }

  /** Over any run of batches, on every exit, the journal only grows, stays a valid chain, grows by
      exactly what was reported imported, and never holds an idempotency key twice. */
  lemma {:induction false} EveryRunGrows(c: Codec, es: seq<Event>, batches: seq<Batch>)
    requires Chained(c, es) && AllValid(c, es) && KeysDistinct(es)
    requires forall i | 0 <= i < |batches| :: Admissible(c, batches[i])
    ensures Grown(c, es, Run(es, batches)) && |Run(es, batches)| == |es| + ImportedCount(es, batches)
    decreases |batches|
  {
    if batches != [] {
      BatchGrows(c, es, batches[0]);
      EveryRunGrows(c, ImportedBy(es, batches[0]).state.events, batches[1..]);
    }
  }

  /** A plain import keeps keys distinct when the caller supplied the journal's snapshot. */
  lemma {:induction false} PlainImportGrows(w: World, es: seq<Event>, position: Position, nextId: nat, records: seq<Record>)
    requires !w.atomic && Trusted(w) && KeepsAllIngest(w, records)
    requires Chained(w.codec, es) && AllValid(w.codec, es) && KeysDistinct(es)
    ensures Grown(w.codec, es, ImportPlain(w, Existing(es), es, position, nextId, records).state.events)
  {
    PlainImportIsAccounted(w, Existing(es), es, position, nextId, records);
    OrderedKeepsIngest(w, records);
    assert Existing(es) + map[] == Existing(es);
    ImportKeepsIndexFrom(w, Existing(es), State(es, position, nextId, map[], []), Ordered(records), 0);
  }

  // ---------------------------------------------------------------- what the loop only adds to

  // Outcomes are only added, entries only added under keys the journal did not hold.
  ghost predicate Further(seen: map<string, Entry>, s: State, s': State) {
    && Extends(s.batchSeen, s'.batchSeen) && s.outcomes <= s'.outcomes
    && (s.batchSeen.Keys !! seen.Keys ==> s'.batchSeen.Keys !! seen.Keys)
  }

  lemma StepGoesFurther(w: World, seen: map<string, Entry>, s: State, r: Record)
    ensures Further(seen, s, ImportOne(w, seen, s, r).state)
  {
    StepMoves(w, seen, s, r);
  }

  lemma {:induction false} ImportGoesFurther(
    w: World, seen: map<string, Entry>, s: State, rs: seq<Record>, i: nat, result: Result)
    requires i <= |rs| && result == ImportFrom(w, seen, s, rs, i)
    ensures Further(seen, s, result.state)
    decreases |rs| - i
  {
    if i < |rs| {
      var step := ImportUnfolds(w, seen, s, rs, i);
      StepGoesFurther(w, seen, s, rs[i]);
      if step.Continue? { ImportGoesFurther(w, seen, step.state, rs, i + 1, result); }
    }
  }

  // ---------------------------------------------------------------- what an outcome tells the caller

  // The entry of a known key is one of the journal's events.
  lemma {:induction false} ExistingNamesEvent(es: seq<Event>, key: string) returns (i: nat)
    requires key in Existing(es)
    ensures i < |es| && IngestKey(es[i].payload) == Some(key)
    ensures Existing(es)[key] == Entry(es[i].id, IngestFingerprint(es[i].payload))
  {
    var n := |es| - 1;
    if IngestKey(es[n].payload) == Some(key) { return n; }
    i := ExistingNamesEvent(es[..n], key);
  }

  /** An outcome other than a failure names an event of the journal that carries its key. */
  ghost predicate NamesEvent(es: seq<Event>, o: Outcome) {
    o.status != Failed ==>
      exists j | 0 <= j < |es| :: IngestKey(es[j].payload) == Some(o.key) && o.eventId == Some(es[j].id)
  }

  ghost predicate AllNameEvents(s: State) { forall i | 0 <= i < |s.outcomes| :: NamesEvent(s.events, s.outcomes[i]) }

  lemma NamesGrow(es: seq<Event>, es': seq<Event>, o: Outcome)
    requires NamesEvent(es, o) && es <= es'
    ensures NamesEvent(es', o)
  {
    if o.status != Failed {
      var j :| 0 <= j < |es| && IngestKey(es[j].payload) == Some(o.key) && o.eventId == Some(es[j].id);
      assert es'[j] == es[j];
    }
  }

  // The outcome is a failure or that of a key in the journal.
  ghost predicate TellsOf(es: seq<Event>, o: Outcome, key: string) {
    o.status != Failed ==>
      o.key == key && key in Existing(es) && o.eventId == Some(Existing(es)[key].eventId)
  }

  lemma NamesCarryOver(s: State, s': State, key: string)
    requires AllNameEvents(s) && s.events <= s'.events && s.outcomes <= s'.outcomes
    requires |s'.outcomes| <= |s.outcomes| + 1
    requires |s'.outcomes| > |s.outcomes| ==> TellsOf(s'.events, s'.outcomes[|s.outcomes|], key)
    ensures AllNameEvents(s')
  {
    forall i | 0 <= i < |s'.outcomes| ensures NamesEvent(s'.events, s'.outcomes[i]) {
      if i < |s.outcomes| {
        NamesGrow(s.events, s'.events, s.outcomes[i]);
      } else if s'.outcomes[i].status != Failed {
        var j := ExistingNamesEvent(s'.events, key);
      }
    }
  }

  lemma {:induction false} StepGrows(w: World, seen: map<string, Entry>, s: State, r: Record)
    ensures
      var step := ImportOne(w, seen, s, r);
      s.events <= step.state.events && s.outcomes <= step.state.outcomes
      && |step.state.outcomes| == |s.outcomes| + if step.Raise? then 0 else 1
  {
    StepMoves(w, seen, s, r);
  }

  lemma {:induction false} NewOutcomeTells(w: World, seen: map<string, Entry>, s: State, r: Record)
    requires KeepsIngest(w, r) && Indexed(seen, s)
    requires !ImportOne(w, seen, s, r).Raise?
    ensures
      var s' := ImportOne(w, seen, s, r).state;
      |s'.outcomes| == |s.outcomes| + 1 && TellsOf(s'.events, s'.outcomes[|s.outcomes|], r.key)
  {
    StepMoves(w, seen, s, r);
    StepKeepsIndex(w, seen, s, r);
    if r.key !in seen && r.key !in s.batchSeen { NewMoves(w, s, r, FingerprintOf(w, r)); }
  }

  lemma {:induction false} StepNamesEvent(w: World, seen: map<string, Entry>, s: State, r: Record)
    requires KeepsIngest(w, r) && Indexed(seen, s) && AllNameEvents(s)
    ensures AllNameEvents(ImportOne(w, seen, s, r).state)
  {
    StepGrows(w, seen, s, r);
    if !ImportOne(w, seen, s, r).Raise? { NewOutcomeTells(w, seen, s, r); }
    NamesCarryOver(s, ImportOne(w, seen, s, r).state, r.key);
  }

  lemma {:induction false} ImportNamesEvents(
    w: World, seen: map<string, Entry>, s: State, rs: seq<Record>, i: nat, result: Result)
    requires KeepsAllIngest(w, rs) && Indexed(seen, s) && AllNameEvents(s)
    requires i <= |rs| && result == ImportFrom(w, seen, s, rs, i)
    ensures AllNameEvents(result.state)
    decreases |rs| - i
  {
    if i < |rs| {
      var step := ImportUnfolds(w, seen, s, rs, i);
      StepNamesEvent(w, seen, s, rs[i]);
      StepKeepsIndex(w, seen, s, rs[i]);
      if step.Continue? { ImportNamesEvents(w, seen, step.state, rs, i + 1, result); }
    }
  }

  /** On every exit each imported, duplicate or conflicting outcome names an event of the journal that
      carries the record's key. */
  lemma {:induction false} OutcomesNameEvents(es: seq<Event>, b: Batch)
    requires KeepsAllIngest(b.world, b.records)
    ensures AllNameEvents(ImportedBy(es, b).state)
  {
    if Rebased(b.position, |es|).Some? {
      var s := State(es, Rebased(b.position, |es|).value, b.nextId, map[], []);
      OrderedKeepsIngest(b.world, b.records);
      assert Existing(es) + map[] == Existing(es);
      ImportNamesEvents(b.world, Existing(es), s, Ordered(b.records), 0, ImportedBy(es, b));
    }
  }

  // ---------------------------------------------------------------- arrival order

  /** The result does not depend on the order in which records were collected. */
  lemma {:induction false} BatchIgnoresArrival(es: seq<Event>, b: Batch, records: seq<Record>)
    requires multiset(records) == multiset(b.records)
    requires forall r, q | r in records && q in records && r.sortKey == q.sortKey && r.key == q.key :: r == q
    ensures ImportedBy(es, b.(records := records)) == ImportedBy(es, b)
  {
    OrderedIgnoresArrival(records, b.records);
  }
}
