/** The event recorder through the journal's redaction policy. */
module RecorderPersistence {
  import opened JsonValues
  import opened Journal
  import opened DictFields
  import opened EventCodec
  import opened Persistence
  import opened EventRecorder
  import opened RecorderLosses
  import opened Sorting
  import Redaction

  const RUN_KEYS: seq<string> := ["run_id", "trace_id"]

  function RunValues(env: Env, key: string): seq<Json> { [Str(RunId(env, key)), Str(TraceId(env))] }

  /** The policy leaves the recorder's first n identifiers alone wherever an event names one. */
  ghost predicate SparesIds(env: Env, policy: Redaction.Policy, n: nat) {
    forall i | 0 <= i < n :: SparesId(policy, EventId(env.scenario, env.seed, i))
  }

  predicate SparesId(policy: Redaction.Policy, id: string) {
    && Spares(policy, At(policy, "event_id"), id)
    && Spares(policy, Inside(policy, "causality", "root_event_id"), id)
    && Spares(policy, Inside(policy, "causality", "parent_event_id"), id)
  }

  /** It leaves sequences and the runs of these timelines alone. */
  ghost predicate SparesRuns(env: Env, policy: Redaction.Policy, timelines: set<string>) {
    && SparesPlaces(policy)
    && Spares(policy, Inside(policy, "correlation", "trace_id"), TraceId(env))
    && forall key | key in timelines :: Spares(policy, Inside(policy, "correlation", "run_id"), RunId(env, key))
  }

  predicate SparesPlaces(policy: Redaction.Policy) {
    && !Redaction.IsSensitive(At(policy, "causality"), policy)
    && !Redaction.IsSensitive(Inside(policy, "causality", "sequence"), policy)
    && !Redaction.IsSensitive(Inside(policy, "causality", "parent_event_id"), policy)
    && !Redaction.IsSensitive(At(policy, "correlation"), policy)
  }

  // An event's own identifiers are left alone.
  ghost predicate SparesOwnIds(policy: Redaction.Policy, e: Event) {
    && Spares(policy, At(policy, "event_id"), e.id)
    && Spares(policy, Inside(policy, "causality", "root_event_id"), e.root)
    && (e.parent.Some? ==> Spares(policy, Inside(policy, "causality", "parent_event_id"), e.parent.value))
  }

  lemma IssuedIsSpared(env: Env, policy: Redaction.Policy, id: string, n: nat)
    requires SparesIds(env, policy, n) && Issued(env, id, n)
    ensures SparesId(policy, id)
  {
    var i :| 0 <= i < n && EventId(env.scenario, env.seed, i) == id;
  }

  lemma OwnIdsAreSpared(env: Env, policy: Redaction.Policy, e: Event, n: nat, timelines: set<string>)
    requires SparesIds(env, policy, n) && OfRecorder(env, e, n, timelines)
    ensures SparesOwnIds(policy, e)
  {
    IssuedIsSpared(env, policy, e.id, n);
    IssuedIsSpared(env, policy, e.root, n);
    if e.parent.Some? { IssuedIsSpared(env, policy, e.parent.value, n); }
  }

  // ---------------------------------------------------------------- what redaction makes of the fields

  // What a text becomes that the policy leaves alone.
  lemma SparedReads(policy: Redaction.Policy, path: Redaction.Path, depth: nat, s: string)
    requires Spares(policy, path, s)
    requires Redaction.RedactValue(Redaction.Text(s), path, policy, depth, Redaction.None).Done?
    ensures Canon(FromOut(Redaction.RedactValue(Redaction.Text(s), path, policy, depth, Redaction.None).out)) == Str(s)
  {
    SparedText(policy, path, depth, s);
  }

  // What a number becomes.
  lemma PlainReads(policy: Redaction.Policy, path: Redaction.Path, depth: nat, n: int)
    requires !Redaction.IsSensitive(path, policy)
    requires Redaction.RedactValue(ToValue(Json.Int(n)), path, policy, depth, Redaction.None).Done?
    ensures
      Canon(FromOut(Redaction.RedactValue(ToValue(Json.Int(n)), path, policy, depth, Redaction.None).out)) == Json.Int(n)
  {
  }

  // A redacted field of an event.
  ghost predicate RedactedTo(policy: Redaction.Policy, v: Json, outer: string, o: Redaction.Out) {
    Redaction.RedactValue(ToValue(v), At(policy, outer), policy, 1, Redaction.None)
    == Redaction.Done(o, Redaction.None)
  }

  ghost predicate CausalityStays(v: Json, e: Event) {
    && v.Obj? && GetOrNull(v.members, "root_event_id") == Str(e.root)
    && GetOrNull(v.members, "sequence") == Json.Int(e.sequence)
    && GetOrNull(v.members, "parent_event_id") == OptionalStr(e.parent)
  }

  // What a causality field reads as after redaction.
  lemma {:induction false} CausalityEntry(
    policy: Redaction.Policy, e: Event, o: Redaction.Out, i: nat, key: string, value: Json)
    requires RedactedTo(policy, Obj(Zip(CAUSALITY_KEYS, CausalityValues(e))), "causality", o)
    requires i < 3 && key == CAUSALITY_KEYS[i] && value == CausalityValues(e)[i]
    requires !Redaction.IsSensitive(At(policy, "causality"), policy)
    ensures
      var pass := Redaction.RedactValue(ToValue(value), Inside(policy, "causality", key), policy, 2, Redaction.None);
      && pass.Done? && Canon(FromOut(o)).Obj?
      && GetOrNull(Canon(FromOut(o)).members, key) == Canon(FromOut(pass.out))
  {
    KeysAreDistinct();
    DictFieldRead(policy, CAUSALITY_KEYS, CausalityValues(e), At(policy, "causality"), 1, o, i,
                  Inside(policy, "causality", key));
  }

  lemma {:induction false} RootSurvives(policy: Redaction.Policy, e: Event, o: Redaction.Out)
    requires SparesOwnIds(policy, e) && SparesPlaces(policy)
    requires RedactedTo(policy, Obj(Zip(CAUSALITY_KEYS, CausalityValues(e))), "causality", o)
    ensures Canon(FromOut(o)).Obj? && GetOrNull(Canon(FromOut(o)).members, "root_event_id") == Str(e.root)
  {
    CausalityEntry(policy, e, o, 0, "root_event_id", Str(e.root));
    SparedReads(policy, Inside(policy, "causality", "root_event_id"), 2, e.root);
  }

  lemma {:induction false} SequenceSurvives(policy: Redaction.Policy, e: Event, o: Redaction.Out)
    requires SparesPlaces(policy)
    requires RedactedTo(policy, Obj(Zip(CAUSALITY_KEYS, CausalityValues(e))), "causality", o)
    ensures Canon(FromOut(o)).Obj? && GetOrNull(Canon(FromOut(o)).members, "sequence") == Json.Int(e.sequence)
  {
    CausalityEntry(policy, e, o, 1, "sequence", Json.Int(e.sequence));
    PlainReads(policy, Inside(policy, "causality", "sequence"), 2, e.sequence);
  }

  lemma {:induction false} ParentSurvives(policy: Redaction.Policy, e: Event, o: Redaction.Out)
    requires SparesOwnIds(policy, e) && SparesPlaces(policy)
    requires RedactedTo(policy, Obj(Zip(CAUSALITY_KEYS, CausalityValues(e))), "causality", o)
    ensures Canon(FromOut(o)).Obj?
    ensures GetOrNull(Canon(FromOut(o)).members, "parent_event_id") == OptionalStr(e.parent)
  {
    CausalityEntry(policy, e, o, 2, "parent_event_id", OptionalStr(e.parent));
    SparedOptional(policy, Inside(policy, "causality", "parent_event_id"), 2, e.parent);
  }

  lemma {:induction false} CausalitySurvives(policy: Redaction.Policy, e: Event, o: Redaction.Out)
    requires SparesOwnIds(policy, e) && SparesPlaces(policy)
    requires RedactedTo(policy, Obj(Zip(CAUSALITY_KEYS, CausalityValues(e))), "causality", o)
    ensures CausalityStays(Canon(FromOut(o)), e)
  {
    RootSurvives(policy, e, o);
    SequenceSurvives(policy, e, o);
    ParentSurvives(policy, e, o);
  }

  lemma SortedStays(ms: seq<Member>)
    requires DistinctKeys(ms) && SortedBy(ms, KeyLe) && CanonMembers(ms) == ms
    ensures Canon(Obj(ms)) == Obj(ms)
  {
    KeyLeIsPreorder();
    DistinctKeysHaveNoTies(ms);
    SortIsSortedPermutation(ms, KeyLe);
    SortedIsUnique(ms, Sort(ms, KeyLe), KeyLe);
  }

  lemma TwoInOrder(a: Member, b: Member)
    requires StringLe(a.key, b.key) && a.key != b.key && Canon(a.value) == a.value && Canon(b.value) == b.value
    ensures Canon(Obj([a, b])) == Obj([a, b])
  {
    var ms := [a, b];
    assert CanonMembers(ms) == ms;
    SortedStays(ms);
  }

  lemma RunIsInOrder(env: Env, key: string)
    ensures Correlation(env, key) == Obj(Zip(RUN_KEYS, RunValues(env, key)))
    ensures Canon(Correlation(env, key)) == Correlation(env, key)
  {
    assert "run_id"[0] == 'r' && "trace_id"[0] == 't';
    TwoInOrder(Member("run_id", Str(RunId(env, key))), Member("trace_id", Str(TraceId(env))));
  }

  // A dict of texts that are all left alone.
  lemma {:induction false} TextsSurvive(
    policy: Redaction.Policy, keys: seq<string>, values: seq<Json>, path: Redaction.Path, o: Redaction.Out)
    requires |keys| == |values| && !Redaction.IsSensitive(path, policy)
    requires forall i | 0 <= i < |keys| :: values[i].Str? && Spares(policy, path + [policy.lower(keys[i])], values[i].s)
    requires Redaction.RedactValue(ToValue(Obj(Zip(keys, values))), path, policy, 1, Redaction.None)
          == Redaction.Done(o, Redaction.None)
    ensures FromOut(o) == Obj(Zip(keys, values))
  {
    DictIsFieldwise(policy, keys, values, path, 1, o);
    forall i | 0 <= i < |keys| ensures RedactedValues(o.fields)[i] == values[i] {
      assert FieldwiseAt(policy, keys[i], values[i], path, 2, o.fields[i]);
      SparedText(policy, path + [policy.lower(keys[i])], 2, values[i].s);
    }
    assert RedactedValues(o.fields) == values;
  }

  lemma {:induction false} RunSurvives(
    env: Env, policy: Redaction.Policy, key: string, timelines: set<string>, o: Redaction.Out)
    requires SparesRuns(env, policy, timelines) && key in timelines && RedactedTo(policy, Correlation(env, key), "correlation", o)
    ensures Canon(FromOut(o)) == Correlation(env, key)
  {
    var path := At(policy, "correlation");
    RunIsInOrder(env, key);
    assert path + [policy.lower("run_id")] == Inside(policy, "correlation", "run_id");
    assert path + [policy.lower("trace_id")] == Inside(policy, "correlation", "trace_id");
    TextsSurvive(policy, RUN_KEYS, RunValues(env, key), path, o);
  }

  // ---------------------------------------------------------------- what is read back

  // The identity of an event after redaction, field by field.
  ghost predicate IdentityAfter(policy: Redaction.Policy, e: Event, id: Redaction.Out, run: Redaction.Out, causality: Redaction.Out)
  {
    && RedactedTo(policy, Str(e.id), "event_id", id)
    && RedactedTo(policy, e.context.correlation, "correlation", run)
    && RedactedTo(policy, Obj(Zip(CAUSALITY_KEYS, CausalityValues(e))), "causality", causality)
  }

  lemma IdentityIsRedacted(policy: Redaction.Policy, e: Event, outs: seq<Redaction.OutField>)
    requires RedactsTo(policy, e, outs)
    ensures IdentityAfter(policy, e, outs[1].value, outs[6].value, outs[7].value)
  {
    var keys, values := EVENT_KEYS, EventValues(e);
    assert keys[1] == "event_id" && keys[6] == "correlation" && keys[7] == "causality";
    assert values[1] == Str(e.id) && values[6] == e.context.correlation;
    assert values[7] == Obj(Zip(CAUSALITY_KEYS, CausalityValues(e)));
    assert outs[1].name == keys[1] && outs[6].name == keys[6] && outs[7].name == keys[7];
  }

  ghost predicate IdentityHeld(ms: seq<Member>, id: Json, run: Json, causality: Json) {
    && GetOrNull(ms, "event_id") == id && GetOrNull(ms, "correlation") == run && GetOrNull(ms, "causality") == causality
  }

  lemma HeldIdentity(ms: seq<Member>, values: seq<Json>)
    requires |values| == 12 && Holds(ms, EVENT_KEYS, values)
    ensures IdentityHeld(ms, values[1], values[6], values[7])
  {
    var k := EVENT_KEYS;
    assert HoldsAt(ms, k[1], values[1]) && HoldsAt(ms, k[6], values[6]) && HoldsAt(ms, k[7], values[7]);
  }

  lemma CausalityRead(ms: seq<Member>, e: Event)
    requires CausalityField(ms).Ok? && CausalityStays(GetOrNull(ms, "causality"), e)
    ensures CausalityField(ms) == Ok(Causality(e.root, e.sequence, e.parent))
  {
  }

  lemma HeadRead(ms: seq<Member>, id: string)
    requires HeadOf(ms).Ok? && GetOrNull(ms, "event_id") == Str(id)
    ensures HeadOf(ms).value.id == id
  {
  }

  // Fields that read as an event, with the identity of e, read as an event with e's identity.
  lemma SameIdentityRead(ms: seq<Member>, e: Event, r: Event)
    requires Fields(ms) == Ok(r)
    requires GetOrNull(ms, "event_id") == Str(e.id) && GetOrNull(ms, "correlation") == e.context.correlation
    requires CausalityStays(GetOrNull(ms, "causality"), e)
    ensures SameIdentity(r, e)
  {
    AssembledFrom(ms);
    HeadRead(ms, e.id);
    CausalityRead(ms, e);
  }

  lemma {:induction false} OwnRunSurvives(
    env: Env, policy: Redaction.Policy, e: Event, n: nat, timelines: set<string>, run: Redaction.Out)
    requires SparesRuns(env, policy, timelines) && OfRecorder(env, e, n, timelines)
    requires RedactedTo(policy, e.context.correlation, "correlation", run)
    ensures Canon(FromOut(run)) == e.context.correlation
  {
    var key :| key in timelines && e.context.correlation == Correlation(env, key);
    RunSurvives(env, policy, key, timelines, run);
  }

  lemma {:induction false} IdentitySurvives(
    env: Env, policy: Redaction.Policy, e: Event, n: nat, timelines: set<string>,
    id: Redaction.Out, run: Redaction.Out, causality: Redaction.Out)
    requires SparesIds(env, policy, n) && SparesRuns(env, policy, timelines) && OfRecorder(env, e, n, timelines)
    requires IdentityAfter(policy, e, id, run, causality)
    ensures Canon(FromOut(id)) == Str(e.id) && Canon(FromOut(run)) == e.context.correlation
    ensures CausalityStays(Canon(FromOut(causality)), e)
  {
    OwnIdsAreSpared(env, policy, e, n, timelines);
    SparedReads(policy, At(policy, "event_id"), 1, e.id);
    CausalitySurvives(policy, e, causality);
    OwnRunSurvives(env, policy, e, n, timelines, run);
  }

  lemma {:induction false} KeptKeepsEnvelope(
    parts: Context -> bool, policy: Redaction.Policy, env: Env, e: Event, n: nat, timelines: set<string>)
    requires SparesIds(env, policy, n) && SparesRuns(env, policy, timelines) && OfRecorder(env, e, n, timelines)
    requires PersistOne(parts, policy, e).Kept?
    ensures SameIdentity(PersistOne(parts, policy, e).event, e)
  {
    var outs := KeptFields(parts, policy, e);
    var ms := Written(EVENT_KEYS, RedactedValues(outs));
    HeldIdentity(ms, CanonAll(RedactedValues(outs)));
    IdentityIsRedacted(policy, e, outs);
    IdentitySurvives(env, policy, e, n, timelines, outs[1].value, outs[6].value, outs[7].value);
    SameIdentityRead(ms, e, PersistOne(parts, policy, e).event);
  }

  /** The journal's policy keeps what these timelines rest on, for the first n identifiers, when it leaves
      identifiers, sequences and runs alone. */
  lemma {:induction false} PersistKeepsEnvelope(
    parts: Context -> bool, policy: Redaction.Policy, env: Env, n: nat, timelines: set<string>)
    requires env.persist == Persist(parts, policy)
    requires SparesIds(env, policy, n) && SparesRuns(env, policy, timelines)
    ensures KeepsEnvelope(env, n, timelines)
  {
    forall e | env.persist(e).Kept? && OfRecorder(env, e, n, timelines)
      ensures SameIdentity(env.persist(e).event, e)
    {
      KeptKeepsEnvelope(parts, policy, env, e, n, timelines);
    }
  }

  /** Through a policy that leaves its identifiers, sequences and runs alone, the recorder's calls leave
      well-rooted timelines exactly when no lost event is followed, as its timeline's next event, by one
      recorded without an explicit parent. */
  lemma PersistedTimelinesIff(parts: Context -> bool, policy: Redaction.Policy, env: Env, calls: seq<Call>)
    requires env.persist == Persist(parts, policy)
    requires SparesIds(env, policy, |calls|) && SparesRuns(env, policy, Timelines(calls))
    requires AllAdmissible(env, INITIAL, calls)
    ensures WellRooted(env, LogOf(RunFrom(env, INITIAL, calls))) <==>
      !exists i: nat, j: nat :: LostThenRecorded(calls, Results(env, START, calls), i, j)
  {
    PersistKeepsEnvelope(parts, policy, env, |calls|, Timelines(calls));
    WellRootedIff(env, calls);
  }
}
