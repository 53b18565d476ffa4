/** Importing a batch a second time: when it changes nothing and reports the same. */
module Reimport {
  import opened JsonValues
  import opened Journal
  import opened Normalization
  import opened EvidenceRecords
  import opened Ingestion
  import opened IngestionRuns

  function Repeated(o: Outcome): Outcome { if o.status == Imported then o.(status := Duplicate) else o }

  // What a run through known records reports.
  ghost predicate Known(w: World, seen: map<string, Entry>, r: Record, o: Outcome) {
    r.key in seen && o == Matched(r, seen[r.key], FingerprintOf(w, r))
  }

  // An outcome that is not a failure is what a second look at the record reports.
  lemma StepIsRepeatable(w: World, seen: map<string, Entry>, s: State, r: Record)
    requires s.batchSeen.Keys !! seen.Keys
    requires ImportOne(w, seen, s, r).Continue?
    ensures
      var s' := ImportOne(w, seen, s, r).state;
      && |s'.outcomes| == |s.outcomes| + 1
      && s'.batchSeen.Keys !! seen.Keys
      && var o := s'.outcomes[|s.outcomes|];
      (o.status != Failed ==> Known(w, seen + s'.batchSeen, r, Repeated(o)))
  {
    StepMoves(w, seen, s, r);
    if r.key !in seen && r.key !in s.batchSeen {
      NewMoves(w, s, r, FingerprintOf(w, r));
    }
  }

  lemma KnownStaysKnown(w: World, seen: map<string, Entry>, s: State, s': State, r: Record, o: Outcome)
    requires Known(w, seen + s.batchSeen, r, o) && s.batchSeen.Keys !! seen.Keys && Further(seen, s, s')
    ensures Known(w, seen + s'.batchSeen, r, o)
  {
    if r.key in s.batchSeen { assert r.key in s'.batchSeen; }
  }

  lemma {:induction false} ImportIsRepeatable(
    w: World, seen: map<string, Entry>, s: State, rs: seq<Record>, i: nat, k: nat, final: State)
    requires s.batchSeen.Keys !! seen.Keys && |s.outcomes| == i <= k < |rs|
    requires ImportFrom(w, seen, s, rs, i) == Result(Finished, final)
    ensures k < |final.outcomes|
    ensures final.outcomes[k].status != Failed ==>
      Known(w, seen + final.batchSeen, rs[k], Repeated(final.outcomes[k]))
    decreases |rs| - i
  {
    var step := ImportUnfolds(w, seen, s, rs, i);
    var s' := step.state;
    StepIsRepeatable(w, seen, s, rs[i]);
    if i < k {
      ImportIsRepeatable(w, seen, s', rs, i + 1, k, final);
    } else {
      ImportGoesFurther(w, seen, s', rs, i + 1, Result(Finished, final));
      var o := s'.outcomes[k];
      assert final.outcomes[k] == o;
      if o.status != Failed { KnownStaysKnown(w, seen, s', final, rs[k], Repeated(o)); }
    }
  }

  /** A batch of known records changes nothing and reports each of them as before. */
  lemma {:induction false} KnownRecordsChangeNothing(
    w: World, seen: map<string, Entry>, s: State, rs: seq<Record>, i: nat, os: seq<Outcome>)
    requires |os| == |rs| && i <= |rs| && s.outcomes == os[..i]
    requires forall k | 0 <= k < |rs| :: Known(w, seen, rs[k], os[k])
    ensures ImportFrom(w, seen, s, rs, i) == Result(Finished, s.(outcomes := os))
    decreases |rs| - i
  {
    if i < |rs| {
      var step := ImportUnfolds(w, seen, s, rs, i);
      assert step == Continue(Report(s, os[i])) by { assert Known(w, seen, rs[i], os[i]); }
      assert os[..i + 1] == os[..i] + [os[i]];
      KnownRecordsChangeNothing(w, seen, step.state, rs, i + 1, os);
    } else {
      assert os[..i] == os;
    }
  }

  lemma {:induction false} FinishedReportsAll(
    w: World, seen: map<string, Entry>, s: State, rs: seq<Record>, i: nat, final: State)
    requires |s.outcomes| == i <= |rs| && ImportFrom(w, seen, s, rs, i) == Result(Finished, final)
    ensures |final.outcomes| == |rs|
    decreases |rs| - i
  {
    if i < |rs| {
      var step := ImportUnfolds(w, seen, s, rs, i);
      StepMoves(w, seen, s, rs[i]);
      FinishedReportsAll(w, seen, step.state, rs, i + 1, final);
    }
  }

  function RepeatedAll(os: seq<Outcome>): (ps: seq<Outcome>)
    ensures |ps| == |os| && forall i | 0 <= i < |os| :: ps[i] == Repeated(os[i])
  {
    seq(|os|, i requires 0 <= i < |os| => Repeated(os[i]))
  }

  // Two imports fingerprint records alike.
  ghost predicate SameFingerprints(w: World, w': World) {
    w.codec.digest == w'.codec.digest && w.defaults == w'.defaults
  }

  ghost predicate NoFailure(os: seq<Outcome>) { forall i | 0 <= i < |os| :: os[i].status != Failed }

  /** A second import, with a fresh normalizer, of a batch that finished without failures. */
  ghost predicate Again(es: seq<Event>, b: Batch, again: Batch) {
    && SameFingerprints(b.world, again.world) && again.records == b.records && again.position == FRESH
    && ImportedBy(es, b).exit == Finished && NoFailure(ImportedBy(es, b).state.outcomes)
  }

  /** It leaves the journal as it is and reports the first outcomes, every imported record now a
      duplicate of the same event, in-batch conflicts included. */
  ghost predicate Repeats(es: seq<Event>, b: Batch, again: Batch) {
    var first := ImportedBy(es, b).state;
    var second := ImportedBy(first.events, again);
    second.exit == Finished && second.state.events == first.events
    && second.state.outcomes == RepeatedAll(first.outcomes)
  }

  // ---------------------------------------------------------------- what the policy must leave readable

  /** What event p must still say about the record it was imported from: its key, and its fingerprint,
      which may be gone if no other record of the batch has the key with a different fingerprint. */
  ghost predicate Recallable(w: World, rs: seq<Record>, i: nat, p: Event)
    requires i < |rs|
  {
    && IngestKey(p.payload) == Some(rs[i].key)
    && (IngestFingerprint(p.payload) == Some(FingerprintOf(w, rs[i]))
        || (IngestFingerprint(p.payload) == None && Undisputed(w, rs, rs[i].key, FingerprintOf(w, rs[i]))))
  }

  // All records of the batch with this key have this fingerprint.
  ghost predicate Undisputed(w: World, rs: seq<Record>, key: string, fingerprint: string) {
    forall k | 0 <= k < |rs| && rs[k].key == key :: FingerprintOf(w, rs[k]) == fingerprint
  }

  // Every event reported as imported says enough.
  ghost predicate AllRecallable(w: World, rs: seq<Record>, s: State)
    requires |s.outcomes| <= |rs|
  {
    forall i, j | 0 <= i < |s.outcomes| && s.outcomes[i].status == Imported && 0 <= j < |s.events|
                  && Some(s.events[j].id) == s.outcomes[i].eventId ::
      Recallable(w, rs, i, s.events[j])
  }

  // What a scan finds under a key, against what the loop remembered.
  ghost predicate Recalls(w: World, rs: seq<Record>, key: string, remembered: Entry, found: Entry) {
    found == remembered
    || (found == remembered.(fingerprint := None) && remembered.fingerprint.Some?
        && Undisputed(w, rs, key, remembered.fingerprint.value))
  }

  // A scan finds every key seen or added, with an entry as good as the one remembered.
  ghost predicate ScanRecalls(w: World, seen: map<string, Entry>, rs: seq<Record>, s: State) {
    RecallsAll(w, seen, rs, s.batchSeen, Existing(s.events))
  }

  ghost predicate RecallsAll(
    w: World, seen: map<string, Entry>, rs: seq<Record>, added: map<string, Entry>, scan: map<string, Entry>)
  {
    && scan.Keys == seen.Keys + added.Keys && added.Keys !! seen.Keys
    && (forall key | key in seen :: scan[key] == seen[key])
    && (forall key | key in added :: Recalls(w, rs, key, added[key], scan[key]))
  }

  lemma OneMoreRecalled(
    w: World, seen: map<string, Entry>, rs: seq<Record>, added: map<string, Entry>, scan: map<string, Entry>,
    key: string, remembered: Entry, found: Entry)
    requires RecallsAll(w, seen, rs, added, scan) && key !in seen && Recalls(w, rs, key, remembered, found)
    ensures RecallsAll(w, seen, rs, added[key := remembered], scan[key := found])
  {
  }

  lemma ScanAfterImport(s: State, s': State, p: Event, key: string)
    requires s'.events == s.events + [p] && IngestKey(p.payload) == Some(key)
    ensures Existing(s'.events) == Existing(s.events)[key := Entry(p.id, IngestFingerprint(p.payload))]
  {
    ExistingAfterAppend(s.events, p);
  }

  lemma {:induction false} ImportKeepsScan(w: World, seen: map<string, Entry>, rs: seq<Record>, s: State, s': State, i: nat)
    requires i < |rs| && ScanRecalls(w, seen, rs, s) && ImportsNew(w, seen, s, s', rs[i])
    requires Recallable(w, rs, i, s'.events[|s.events|])
    ensures ScanRecalls(w, seen, rs, s')
  {
    var p, key, f := s'.events[|s.events|], rs[i].key, FingerprintOf(w, rs[i]);
    ScanAfterImport(s, s', p, key);
    RecallableIsRecalled(w, rs, i, p);
    OneMoreRecalled(w, seen, rs, s.batchSeen, Existing(s.events), key,
                    Entry(p.id, Some(f)), Entry(p.id, IngestFingerprint(p.payload)));
  }

  lemma RecallableIsRecalled(w: World, rs: seq<Record>, i: nat, p: Event)
    requires i < |rs| && Recallable(w, rs, i, p)
    ensures Recalls(w, rs, rs[i].key,
      Entry(p.id, Some(FingerprintOf(w, rs[i]))), Entry(p.id, IngestFingerprint(p.payload)))
  {
  }

  lemma {:induction false} StepKeepsScan(w: World, seen: map<string, Entry>, rs: seq<Record>, s: State, i: nat)
    requires i == |s.outcomes| < |rs| && ScanRecalls(w, seen, rs, s)
    requires
      var s' := ImportOne(w, seen, s, rs[i]).state;
      ImportsNew(w, seen, s, s', rs[i]) ==> Recallable(w, rs, i, s'.events[|s.events|])
    ensures ScanRecalls(w, seen, rs, ImportOne(w, seen, s, rs[i]).state)
  {
    var s' := ImportOne(w, seen, s, rs[i]).state;
    StepMoves(w, seen, s, rs[i]);
    if ImportsNew(w, seen, s, s', rs[i]) { ImportKeepsScan(w, seen, rs, s, s', i); }
  }

  lemma {:induction false} ImportKeepsScanFrom(
    w: World, seen: map<string, Entry>, rs: seq<Record>, s: State, i: nat, final: State)
    requires i == |s.outcomes| <= |rs| && ScanRecalls(w, seen, rs, s)
    requires ImportFrom(w, seen, s, rs, i) == Result(Finished, final)
    requires |final.outcomes| <= |rs| && AllRecallable(w, rs, final)
    ensures ScanRecalls(w, seen, rs, final)
    decreases |rs| - i
  {
    if i < |rs| {
      var step := ImportUnfolds(w, seen, s, rs, i);
      StepMoves(w, seen, s, rs[i]);
      ImportGoesFurther(w, seen, step.state, rs, i + 1, Result(Finished, final));
      EventsOnlyAdded(w, seen, step.state, rs, i + 1, Result(Finished, final));
      if ImportsNew(w, seen, s, step.state, rs[i]) {
        var p := step.state.events[|s.events|];
        assert final.events[|s.events|] == p && final.outcomes[i] == step.state.outcomes[i];
        assert Recallable(w, rs, i, p);
      }
      StepKeepsScan(w, seen, rs, s, i);
      ImportKeepsScanFrom(w, seen, rs, step.state, i + 1, final);
    }
  }

  lemma {:induction false} EventsOnlyAdded(
    w: World, seen: map<string, Entry>, s: State, rs: seq<Record>, i: nat, result: Result)
    requires i <= |rs| && result == ImportFrom(w, seen, s, rs, i)
    ensures s.events <= result.state.events
    decreases |rs| - i
  {
    if i < |rs| {
      var step := ImportUnfolds(w, seen, s, rs, i);
      StepGrows(w, seen, s, rs[i]);
      if step.Continue? { EventsOnlyAdded(w, seen, step.state, rs, i + 1, result); }
    }
  }

  lemma KnownByScan(w: World, seen: map<string, Entry>, rs: seq<Record>, s: State, k: nat, o: Outcome)
    requires k < |rs| && ScanRecalls(w, seen, rs, s) && Known(w, seen + s.batchSeen, rs[k], o)
    ensures Known(w, Existing(s.events), rs[k], o)
  {
    var key := rs[k].key;
    if key in s.batchSeen { assert Recalls(w, rs, key, s.batchSeen[key], Existing(s.events)[key]); }
  }

  /** The policy left enough: the second import repeats the first. */
  lemma RecallableRepeats(es: seq<Event>, b: Batch, again: Batch)
    requires Again(es, b, again)
    requires |ImportedBy(es, b).state.outcomes| <= |Ordered(b.records)|
    requires AllRecallable(b.world, Ordered(b.records), ImportedBy(es, b).state)
    ensures Repeats(es, b, again)
  {
    var rs, seen := Ordered(b.records), Existing(es);
    var start := State(es, Rebased(b.position, |es|).value, b.nextId, map[], []);
    var first := ImportedBy(es, b).state;
    FinishedReportsAll(b.world, seen, start, rs, 0, first);
    ImportKeepsScanFrom(b.world, seen, rs, start, 0, first);
    var os := RepeatedAll(first.outcomes);
    forall k | 0 <= k < |rs| ensures Known(again.world, Existing(first.events), rs[k], os[k]) {
      ImportIsRepeatable(b.world, seen, start, rs, 0, k, first);
      KnownByScan(b.world, seen, rs, first, k, os[k]);
    }
    var restart := State(first.events, Rebased(FRESH, |first.events|).value, again.nextId, map[], []);
    KnownRecordsChangeNothing(again.world, Existing(first.events), restart, rs, 0, os);
  }

  // ---------------------------------------------------------------- and nothing less will do

  // A run that reports neither an import nor a failure matched every record against the journal.
  lemma {:induction false} MatchedAll(
    w: World, seen: map<string, Entry>, s: State, rs: seq<Record>, i: nat, k: nat, final: State)
    requires s.batchSeen == map[] && |s.outcomes| == i <= k < |rs|
    requires ImportFrom(w, seen, s, rs, i) == Result(Finished, final)
    requires forall j | 0 <= j < |final.outcomes| :: final.outcomes[j].status !in {Imported, Failed}
    ensures k < |final.outcomes| && Known(w, seen, rs[k], final.outcomes[k])
    decreases |rs| - i
  {
    var step := ImportUnfolds(w, seen, s, rs, i);
    StepMoves(w, seen, s, rs[i]);
    ImportGoesFurther(w, seen, step.state, rs, i + 1, Result(Finished, final));
    assert final.outcomes[i] == step.state.outcomes[i];
    StepMatches(w, seen, s, rs[i]);
    if i < k { MatchedAll(w, seen, step.state, rs, i + 1, k, final); }
  }

  lemma StepMatches(w: World, seen: map<string, Entry>, s: State, r: Record)
    requires s.batchSeen == map[] && ImportOne(w, seen, s, r).Continue?
    requires |ImportOne(w, seen, s, r).state.outcomes| == |s.outcomes| + 1
    requires ImportOne(w, seen, s, r).state.outcomes[|s.outcomes|].status !in {Imported, Failed}
    ensures ImportOne(w, seen, s, r).state.batchSeen == map[]
    ensures Known(w, seen, r, ImportOne(w, seen, s, r).state.outcomes[|s.outcomes|])
  {
    if r.key !in seen { NewMoves(w, s, r, FingerprintOf(w, r)); }
  }

  // The loop remembers a fingerprint for each key it adds, and adds only new keys.
  ghost predicate Remembers(s: State) { forall key | key in s.batchSeen :: s.batchSeen[key].fingerprint.Some? }

  lemma StepRemembers(w: World, seen: map<string, Entry>, s: State, r: Record)
    requires Remembers(s)
    ensures Remembers(ImportOne(w, seen, s, r).state)
  {
    StepMoves(w, seen, s, r);
  }

  lemma {:induction false} ImportRemembers(
    w: World, seen: map<string, Entry>, s: State, rs: seq<Record>, i: nat, result: Result)
    requires i <= |rs| && result == ImportFrom(w, seen, s, rs, i) && Remembers(s)
    ensures Remembers(result.state)
    decreases |rs| - i
  {
    if i < |rs| {
      var step := ImportUnfolds(w, seen, s, rs, i);
      StepRemembers(w, seen, s, rs[i]);
      if step.Continue? { ImportRemembers(w, seen, step.state, rs, i + 1, result); }
    }
  }

  // The record reported as imported is the only one with its key that is, and the journal did not hold
  // the key before.
  lemma {:induction false} ImportedOnce(
    w: World, seen: map<string, Entry>, s: State, rs: seq<Record>, i: nat, k: nat, final: State)
    requires |s.outcomes| == i <= |rs| && k < |final.outcomes| <= |rs|
    requires ImportFrom(w, seen, s, rs, i) == Result(Finished, final)
    requires i <= k && final.outcomes[k].status == Imported
    ensures rs[k].key !in seen && rs[k].key !in s.batchSeen && rs[k].key in final.batchSeen
    decreases |rs| - i
  {
    var step := ImportUnfolds(w, seen, s, rs, i);
    StepMoves(w, seen, s, rs[i]);
    ImportGoesFurther(w, seen, step.state, rs, i + 1, Result(Finished, final));
    assert final.outcomes[i] == step.state.outcomes[i];
    if i < k {
      ImportedOnce(w, seen, step.state, rs, i + 1, k, final);
      StepGoesFurther(w, seen, s, rs[i]);
    } else {
      StepAdds(w, seen, s, rs[i]);
    }
  }

  lemma StepAdds(w: World, seen: map<string, Entry>, s: State, r: Record)
    requires ImportOne(w, seen, s, r).Continue?
    requires |ImportOne(w, seen, s, r).state.outcomes| == |s.outcomes| + 1
    requires ImportOne(w, seen, s, r).state.outcomes[|s.outcomes|].status == Imported
    ensures r.key !in seen && r.key !in s.batchSeen && r.key in ImportOne(w, seen, s, r).state.batchSeen
  {
    StepMoves(w, seen, s, r);
  }

  ghost predicate DistinctIds(es: seq<Event>) { forall i, j | 0 <= i < j < |es| :: es[i].id != es[j].id }

  // A duplicate report comes from an entry without a fingerprint or with the record's own.
  lemma DuplicateOf(w: World, seen: map<string, Entry>, r: Record, o: Outcome)
    requires Known(w, seen, r, o) && o.status == Duplicate
    ensures o.eventId == Some(seen[r.key].eventId)
    ensures seen[r.key].fingerprint == None || seen[r.key].fingerprint == Some(FingerprintOf(w, r))
  {
  }

  lemma SamePlace(es: seq<Event>, i: nat, j: nat)
    requires DistinctIds(es) && i < |es| && j < |es| && es[i].id == es[j].id
    ensures i == j
  {
  }

  // The event a scan found under the key is the one with the entry's id.
  lemma {:induction false} FoundAt(fs: seq<Event>, key: string, j: nat)
    requires DistinctIds(fs) && key in Existing(fs) && j < |fs| && Existing(fs)[key].eventId == fs[j].id
    ensures IngestKey(fs[j].payload) == Some(key) && Existing(fs)[key].fingerprint == IngestFingerprint(fs[j].payload)
  {
    var j' := ExistingNamesEvent(fs, key);
    SamePlace(fs, j, j');
  }

  // With the fingerprint gone every record with the key is a duplicate, so none was in conflict.
  lemma AllAgree(w: World, found: Entry, remembered: Entry, r: Record, o: Outcome)
    requires o == Matched(r, found, FingerprintOf(w, r)) && o == Matched(r, remembered, FingerprintOf(w, r))
    requires found.fingerprint == None && remembered.fingerprint.Some?
    ensures remembered.fingerprint == Some(FingerprintOf(w, r))
  {
  }

  // Every record matches both entries maps with the same outcome.
  ghost predicate KnownTwice(
    w: World, found: map<string, Entry>, remembered: map<string, Entry>, rs: seq<Record>, os: seq<Outcome>)
  {
    |os| == |rs|
    && forall k | 0 <= k < |rs| ::
         Known(w, found, rs[k], Repeated(os[k])) && Known(w, remembered, rs[k], Repeated(os[k]))
  }

  // If the record reported as imported lost its fingerprint, no other record disputed it.
  lemma LostIsUndisputed(
    w: World, found: map<string, Entry>, remembered: map<string, Entry>, rs: seq<Record>, os: seq<Outcome>, i: nat)
    requires KnownTwice(w, found, remembered, rs, os) && i < |rs|
    requires rs[i].key in found && found[rs[i].key].fingerprint == None
    requires rs[i].key in remembered && remembered[rs[i].key].fingerprint.Some?
    ensures Undisputed(w, rs, rs[i].key, FingerprintOf(w, rs[i]))
  {
    var key := rs[i].key;
    forall k | 0 <= k < |rs| && rs[k].key == key
      ensures remembered[key].fingerprint == Some(FingerprintOf(w, rs[k]))
    {
      AllAgree(w, found[key], remembered[key], rs[k], Repeated(os[k]));
    }
  }

  lemma MustRecall(
    w: World, rs: seq<Record>, os: seq<Outcome>, found: map<string, Entry>, remembered: map<string, Entry>, i: nat, p: Event)
    requires KnownTwice(w, found, remembered, rs, os) && i < |rs| && os[i].status == Imported
    requires rs[i].key in remembered && remembered[rs[i].key].fingerprint.Some?
    requires IngestKey(p.payload) == Some(rs[i].key) && rs[i].key in found
    requires found[rs[i].key].fingerprint == IngestFingerprint(p.payload)
    ensures Recallable(w, rs, i, p)
  {
    DuplicateOf(w, found, rs[i], Repeated(os[i]));
    if found[rs[i].key].fingerprint == None { LostIsUndisputed(w, found, remembered, rs, os, i); }
  }

  lemma {:induction false} RepeatsNeedsRecallable(es: seq<Event>, b: Batch, again: Batch)
    requires Again(es, b, again) && Repeats(es, b, again) && DistinctIds(ImportedBy(es, b).state.events)
    ensures |ImportedBy(es, b).state.outcomes| == |Ordered(b.records)|
    ensures AllRecallable(b.world, Ordered(b.records), ImportedBy(es, b).state)
  {
    var rs, seen := Ordered(b.records), Existing(es);
    var start := State(es, Rebased(b.position, |es|).value, b.nextId, map[], []);
    var first := ImportedBy(es, b).state;
    FinishedReportsAll(b.world, seen, start, rs, 0, first);
    ImportRemembers(b.world, seen, start, rs, 0, ImportedBy(es, b));
    ImportGoesFurther(b.world, seen, start, rs, 0, ImportedBy(es, b));
    var remembered := seen + first.batchSeen;
    forall k | 0 <= k < |rs|
      ensures Known(b.world, Existing(first.events), rs[k], Repeated(first.outcomes[k]))
      ensures Known(b.world, remembered, rs[k], Repeated(first.outcomes[k]))
    {
      SecondKnows(es, b, again, k);
      ImportIsRepeatable(b.world, seen, start, rs, 0, k, first);
    }
    forall i, j | 0 <= i < |first.outcomes| && first.outcomes[i].status == Imported && 0 <= j < |first.events|
                  && Some(first.events[j].id) == first.outcomes[i].eventId
      ensures Recallable(b.world, rs, i, first.events[j])
    {
      ImportedOnce(b.world, seen, start, rs, 0, i, first);
      DuplicateOf(b.world, Existing(first.events), rs[i], Repeated(first.outcomes[i]));
      FoundAt(first.events, rs[i].key, j);
      MustRecall(b.world, rs, first.outcomes, Existing(first.events), remembered, i, first.events[j]);
    }
  }

  lemma {:induction false} SecondKnows(es: seq<Event>, b: Batch, again: Batch, k: nat)
    requires Again(es, b, again) && Repeats(es, b, again)
    requires k < |Ordered(b.records)| == |ImportedBy(es, b).state.outcomes|
    ensures Known(b.world, Existing(ImportedBy(es, b).state.events), Ordered(b.records)[k],
                  Repeated(ImportedBy(es, b).state.outcomes[k]))
  {
    var first := ImportedBy(es, b).state;
    var second := ImportedBy(first.events, again).state;
    var restart := State(first.events, Rebased(FRESH, |first.events|).value, again.nextId, map[], []);
    forall j | 0 <= j < |second.outcomes| ensures second.outcomes[j].status !in {Imported, Failed} {
      assert second.outcomes[j] == Repeated(first.outcomes[j]);
    }
    MatchedAll(again.world, Existing(first.events), restart, Ordered(b.records), 0, k, second);
  }

  /** Under any policy, importing again a batch that finished without failures leaves the journal as it
      is and repeats the outcomes exactly when every event the batch added still says which record it
      came from. */
  lemma {:induction false} ReimportRepeatsIff(es: seq<Event>, b: Batch, again: Batch)
    requires Again(es, b, again) && DistinctIds(ImportedBy(es, b).state.events)
    ensures |ImportedBy(es, b).state.outcomes| == |Ordered(b.records)|
    ensures Repeats(es, b, again) <==> AllRecallable(b.world, Ordered(b.records), ImportedBy(es, b).state)
  {
    var start := State(es, Rebased(b.position, |es|).value, b.nextId, map[], []);
    FinishedReportsAll(b.world, Existing(es), start, Ordered(b.records), 0, ImportedBy(es, b).state);
    if Repeats(es, b, again) { RepeatsNeedsRecallable(es, b, again); }
    if AllRecallable(b.world, Ordered(b.records), ImportedBy(es, b).state) { RecallableRepeats(es, b, again); }
  }

  /** With a policy that keeps the ingest metadata of the batch's records, importing the batch again
      changes nothing, in-batch conflicts included. */
  lemma ReimportIsIdempotent(es: seq<Event>, b: Batch, again: Batch)
    requires KeepsAllIngest(b.world, b.records) && Again(es, b, again)
    ensures Repeats(es, b, again)
  {
    var rs, seen := Ordered(b.records), Existing(es);
    var start := State(es, Rebased(b.position, |es|).value, b.nextId, map[], []);
    var first := ImportedBy(es, b).state;
    OrderedKeepsIngest(b.world, b.records);
    assert seen + map[] == seen;
    ImportKeepsIndexFrom(b.world, seen, start, rs, 0);
    FinishedReportsAll(b.world, seen, start, rs, 0, first);
    var os := RepeatedAll(first.outcomes);
    forall k | 0 <= k < |rs| ensures Known(again.world, Existing(first.events), rs[k], os[k]) {
      ImportIsRepeatable(b.world, seen, start, rs, 0, k, first);
    }
    var restart := State(first.events, Rebased(FRESH, |first.events|).value, again.nextId, map[], []);
    KnownRecordsChangeNothing(again.world, Existing(first.events), restart, rs, 0, os);
  }
}
