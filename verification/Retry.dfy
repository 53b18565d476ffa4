/** Retrying a batch with a fresh normalizer: which of the remaining records it can import. */
module Retry {
  import opened JsonValues
  import opened Journal
  import opened Normalization
  import opened EvidenceRecords
  import opened Ingestion
  import opened IngestionRuns
  import JsonLimits

  ghost predicate Generated(w: World, id: string) { exists n :: w.ids(n) == id }

  // An event that the normalizer can build from the record: it names no identifiers but the generator's.
  ghost predicate BuiltFrom(w: World, r: Record, e: Event) {
    && Generated(w, e.id) && Generated(w, e.root) && (e.parent.Some? ==> Generated(w, e.parent.value))
    && e.payload == PayloadWithIngest(r, FingerprintOf(w, r)) && e.eventType == r.eventType
    && (exists n :: e.context == ContextOf(w.defaults, r.source, r.principal, r.classification, w.now(n)))
    && e.canonicalization == CANONICALIZATION_VERSION && EnvelopeAccepts(e)
  }

  /** Identifiers, policy and storage that let the records of the batch through. */
  ghost predicate Works(w: World, rs: seq<Record>) {
    && (forall n :: w.disk(n).None? && w.ids(n) != "")
    && forall i | 0 <= i < |rs| :: LetsThrough(w, rs[i])
  }

  ghost predicate LetsThrough(w: World, r: Record) {
    forall e, previous | BuiltFrom(w, r, e) && Digested(w.codec, previous) ::
      Prepare(w.codec, w.persist, e, previous).Kept?
  }

  // A record whose event can be built and serialized, wherever in a timeline it stands.
  predicate Importable(w: World, r: Record) {
    r.eventType != "" && JsonLimits.EventNormalizes(Obj(PayloadWithIngest(r, FingerprintOf(w, r))))
  }

  lemma ImportableIsAccepted(w: World, r: Record)
    requires Importable(w, r)
    ensures JsonLimits.EnvelopeAccepts(Obj(PayloadWithIngest(r, FingerprintOf(w, r))))
  {
    JsonLimits.LimitsMeanHeight(Obj(PayloadWithIngest(r, FingerprintOf(w, r))), 0);
    JsonLimits.LimitsMeanHeight(Obj(PayloadWithIngest(r, FingerprintOf(w, r))), 1);
  }

  // A record that starts a timeline is unknown and has a root type.
  predicate StartsTimeline(seen: map<string, Entry>, r: Record) {
    r.key !in seen && r.eventType in ROOT_EVENT_TYPES
  }

  predicate Rooted(seen: map<string, Entry>, rs: seq<Record>, i: nat)
    requires i <= |rs|
  {
    i > 0 && (Rooted(seen, rs, i - 1) || StartsTimeline(seen, rs[i - 1]))
  }

  ghost predicate Ready(w: World, seen: map<string, Entry>, rs: seq<Record>, s: State) {
    var i, p := |s.outcomes|, s.position;
    && i <= |rs| && p.sequence == |s.events| && Digested(w.codec, TerminalHash(s.events, |s.events|))
    && (if Rooted(seen, rs, i)
        then p.root.Some? && Generated(w, p.root.value) && p.last.Some? && Generated(w, p.last.value)
        else p.root.None? && p.last.None? && s.batchSeen == map[])
  }

  // Where the timeline stands decides whether a record of a usable kind is normalized.
  lemma NormalizedIff(w: World, seen: map<string, Entry>, rs: seq<Record>, s: State)
    requires Works(w, rs) && Ready(w, seen, rs, s) && |s.outcomes| < |rs| && Importable(w, rs[|s.outcomes|])
    requires rs[|s.outcomes|].key !in seen
    ensures
      var i, p := |s.outcomes|, s.position;
      var n := Normalized(w, s, rs[i], FingerprintOf(w, rs[i]));
      && (n.Some? <==> Rooted(seen, rs, i + 1))
      && (n.Some? ==>
            var (e, q) := n.value;
            e.sequence == p.sequence && BuiltFrom(w, rs[i], e)
            && q.sequence == p.sequence + 1 && q.root == Some(e.root) && q.last == Some(w.ids(s.nextId)))
  {
    assert w.disk(s.nextId).None? && w.ids(s.nextId) != "";
    ImportableIsAccepted(w, rs[|s.outcomes|]);
  }

  lemma StepStaysReady(w: World, seen: map<string, Entry>, rs: seq<Record>, s: State)
    requires Works(w, rs) && Ready(w, seen, rs, s) && |s.outcomes| < |rs| && Importable(w, rs[|s.outcomes|])
    ensures
      var i, step := |s.outcomes|, ImportOne(w, seen, s, rs[|s.outcomes|]);
      && step.Continue? && Ready(w, seen, rs, step.state) && |step.state.outcomes| == i + 1
      && (step.state.outcomes[i].status == Failed <==> Orphan(seen, rs, i))
  {
    var i := |s.outcomes|;
    var r, f := rs[i], FingerprintOf(w, rs[i]);
    if r.key !in seen && r.key !in s.batchSeen {
      NormalizedIff(w, seen, rs, s);
      if Normalized(w, s, r, f).Some? {
        var (e, q) := Normalized(w, s, r, f).value;
        assert LetsThrough(w, r) && w.disk(s.nextId).None?;
        NewStaysReady(w, seen, rs, s, e, q);
      }
    }
  }

  lemma PreparedIsDigested(w: World, e: Event, previous: Option<string>)
    requires Prepare(w.codec, w.persist, e, previous).Kept?
    ensures Digested(w.codec, Prepare(w.codec, w.persist, e, previous).event.hash)
  {
  }

  lemma NewStaysReady(w: World, seen: map<string, Entry>, rs: seq<Record>, s: State, e: Event, q: Position)
    requires Ready(w, seen, rs, s) && |s.outcomes| < |rs| && rs[|s.outcomes|].key !in seen
    requires rs[|s.outcomes|].key !in s.batchSeen && w.disk(s.nextId).None? && LetsThrough(w, rs[|s.outcomes|])
    requires Normalized(w, s, rs[|s.outcomes|], FingerprintOf(w, rs[|s.outcomes|])) == Some((e, q))
    requires BuiltFrom(w, rs[|s.outcomes|], e) && e.sequence == |s.events| && Rooted(seen, rs, |s.outcomes| + 1)
    requires q.sequence == |s.events| + 1 && q.root == Some(e.root) && q.last.Some? && Generated(w, q.last.value)
    ensures
      var i, step := |s.outcomes|, ImportOne(w, seen, s, rs[|s.outcomes|]);
      && step.Continue? && Ready(w, seen, rs, step.state) && |step.state.outcomes| == i + 1
      && step.state.outcomes[i].status == Imported
  {
    var last := TerminalHash(s.events, |s.events|);
    assert Prepare(w.codec, w.persist, e, last).Kept?;
    PreparedIsDigested(w, e, last);
  }

  // Whether a record fails when nothing but its place in the batch is against it.
  predicate Orphan(seen: map<string, Entry>, rs: seq<Record>, k: nat)
    requires k < |rs|
  {
    rs[k].key !in seen && !Rooted(seen, rs, k + 1)
  }

  lemma {:induction false} ReadyFinishes(
    w: World, seen: map<string, Entry>, rs: seq<Record>, s: State, result: Result)
    requires Works(w, rs) && Ready(w, seen, rs, s) && forall i | 0 <= i < |rs| :: Importable(w, rs[i])
    requires result == ImportFrom(w, seen, s, rs, |s.outcomes|)
    ensures result.exit == Finished
    decreases |rs| - |s.outcomes|
  {
    if |s.outcomes| < |rs| {
      var step := ImportUnfolds(w, seen, s, rs, |s.outcomes|);
      StepStaysReady(w, seen, rs, s);
      ReadyFinishes(w, seen, rs, step.state, result);
    }
  }

  lemma {:induction false} ReadyReports(
    w: World, seen: map<string, Entry>, rs: seq<Record>, s: State, k: nat, result: Result)
    requires Works(w, rs) && Ready(w, seen, rs, s) && forall i | 0 <= i < |rs| :: Importable(w, rs[i])
    requires |s.outcomes| <= k < |rs| && result == ImportFrom(w, seen, s, rs, |s.outcomes|)
    ensures k < |result.state.outcomes|
    ensures result.state.outcomes[k].status == Failed <==> Orphan(seen, rs, k)
    decreases |rs| - |s.outcomes|
  {
    var step := ImportUnfolds(w, seen, s, rs, |s.outcomes|);
    StepStaysReady(w, seen, rs, s);
    if |s.outcomes| < k {
      ReadyReports(w, seen, rs, step.state, k, result);
    } else {
      ImportGoesFurther(w, seen, step.state, rs, k + 1, result);
    }
  }

  /** A retry with a fresh normalizer, with everything else in order, fails exactly the unknown records
      that come before the first unknown record of a root type. A remaining suffix without one is
      never imported. */
  lemma {:induction false} RetryFailsExactly(es: seq<Event>, b: Batch, k: nat)
    requires Chained(b.world.codec, es) && Works(b.world, Ordered(b.records)) && b.position == FRESH
    requires var rs := Ordered(b.records); k < |rs| && forall i | 0 <= i < |rs| :: Importable(b.world, rs[i])
    ensures
      var rs, seen, result := Ordered(b.records), Existing(es), ImportedBy(es, b);
      result.exit == Finished && k < |result.state.outcomes|
      && (result.state.outcomes[k].status == Failed <==> Orphan(seen, rs, k))
  {
    var s := State(es, Rebased(FRESH, |es|).value, b.nextId, map[], []);
    var rs, seen := Ordered(b.records), Existing(es);
    TerminalIsDigested(b.world.codec, es);
    ReadyFinishes(b.world, seen, rs, s, ImportFrom(b.world, seen, s, rs, 0));
    ReadyReports(b.world, seen, rs, s, k, ImportFrom(b.world, seen, s, rs, 0));
  }

  lemma {:induction false} UnrootedNeverGrows(
    w: World, seen: map<string, Entry>, s: State, rs: seq<Record>, i: nat, result: Result)
    requires i <= |rs| && s.position.root.None? && result == ImportFrom(w, seen, s, rs, i)
    requires forall k | i <= k < |rs| :: !StartsTimeline(seen, rs[k])
    ensures result.state.events == s.events
    decreases |rs| - i
  {
    if i < |rs| {
      var step := ImportUnfolds(w, seen, s, rs, i);
      UnrootedStep(w, seen, s, rs[i]);
      if step.Continue? { UnrootedNeverGrows(w, seen, step.state, rs, i + 1, result); }
    }
  }

  lemma UnrootedStep(w: World, seen: map<string, Entry>, s: State, r: Record)
    requires s.position.root.None? && !StartsTimeline(seen, r)
    ensures
      var s' := ImportOne(w, seen, s, r).state;
      s'.events == s.events && s'.position.root.None?
  {
  }

  /** In any world, a fresh normalizer imports nothing from records none of which starts a timeline. */
  lemma {:induction false} RetryNeedsRoot(es: seq<Event>, b: Batch)
    requires b.position == FRESH
    requires forall k | 0 <= k < |Ordered(b.records)| :: !StartsTimeline(Existing(es), Ordered(b.records)[k])
    ensures ImportedBy(es, b).state.events == es
  {
    var s := State(es, Rebased(FRESH, |es|).value, b.nextId, map[], []);
    UnrootedNeverGrows(b.world, Existing(es), s, Ordered(b.records), 0, ImportedBy(es, b));
  }
}
