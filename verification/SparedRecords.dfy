/** Records that a redaction policy leaves alone are let through to the journal. */
module SparedRecords {
  import opened JsonValues
  import opened Journal
  import opened Normalization
  import opened EvidenceRecords
  import opened Ingestion
  import opened DictFields
  import opened EventCodec
  import opened Persistence
  import opened PersistedImport
  import opened Retry
  import Redaction
  import Sorting
  import JsonLimits

  // ---------------------------------------------------------------- what the policy must leave alone

  /** The policy leaves the generator's identifiers alone wherever an event names one. */
  ghost predicate SparesIdentifiers(policy: Redaction.Policy, w: World) {
    forall n ::
      && Spares(policy, At(policy, "event_id"), w.ids(n))
      && Spares(policy, Inside(policy, "causality", "root_event_id"), w.ids(n))
      && Spares(policy, Inside(policy, "causality", "parent_event_id"), w.ids(n))
  }

  predicate SparesContext(policy: Redaction.Policy, c: Context) {
    && SparesAll(policy, c.occurredAt, At(policy, "occurred_at"))
    && SparesAll(policy, c.observedAt, At(policy, "observed_at"))
    && SparesAll(policy, c.source, At(policy, "source"))
    && SparesAll(policy, c.correlation, At(policy, "correlation"))
    && SparesAll(policy, c.principal, At(policy, "principal"))
    && SparesAll(policy, c.classification, At(policy, "classification"))
  }

  // The policy leaves the envelope's own constants and null fields alone.
  predicate SparesFrame(policy: Redaction.Policy) {
    && !Redaction.IsSensitive([], policy)
    && Spares(policy, At(policy, "spec_version"), SPEC_VERSION)
    && !Redaction.IsSensitive(Inside(policy, "causality", "parent_event_id"), policy)
    && Spares(policy, Inside(policy, "integrity", "canonicalization"), CANONICALIZATION_VERSION)
    && !Redaction.IsSensitive(Inside(policy, "integrity", "event_hash"), policy)
  }

  // The record's own parts.
  ghost predicate SparesRecord(policy: Redaction.Policy, w: World, r: Record) {
    && Spares(policy, At(policy, "event_type"), r.eventType)
    && (forall n :: SparesContext(policy, ContextAt(w, r, n)))
    && SparesAll(policy, Obj(PayloadWithIngest(r, FingerprintOf(w, r))), At(policy, "payload"))
  }

  ghost predicate LeavesAlone(g: Setting, w: World, r: Record) {
    && SparesFrame(g.policy) && SparesChain(g.sha256, g.policy) && SparesIdentifiers(g.policy, w)
    && SparesRecord(g.policy, w, r)
  }

  // ---------------------------------------------------------------- events built from the record

  lemma SparesZip(policy: Redaction.Policy, keys: seq<string>, values: seq<Json>, path: Redaction.Path)
    requires |keys| == |values| && !Redaction.IsSensitive(path, policy)
    requires forall i | 0 <= i < |keys| :: SparesAll(policy, values[i], path + [policy.lower(keys[i])])
    ensures SparesAll(policy, Obj(Zip(keys, values)), path)
  {
    var ms := Zip(keys, values);
    forall m | m in ms ensures SparesAll(policy, m.value, path + [policy.lower(m.key)]) {
      var i :| 0 <= i < |ms| && ms[i] == m;
      assert m == Member(keys[i], values[i]);
    }
  }

  // The causality and integrity fields of an event.
  predicate SparesCausality(policy: Redaction.Policy, e: Event) {
    && Spares(policy, Inside(policy, "causality", "root_event_id"), e.root)
    && !Redaction.IsSensitive(Inside(policy, "causality", "sequence"), policy)
    && !Redaction.IsSensitive(Inside(policy, "causality", "parent_event_id"), policy)
    && (e.parent.Some? ==> Spares(policy, Inside(policy, "causality", "parent_event_id"), e.parent.value))
  }

  predicate SparesIntegrity(policy: Redaction.Policy, e: Event) {
    && Spares(policy, Inside(policy, "integrity", "canonicalization"), e.canonicalization)
    && !Redaction.IsSensitive(Inside(policy, "integrity", "previous_event_hash"), policy)
    && (e.previousHash.Some? ==> Spares(policy, Inside(policy, "integrity", "previous_event_hash"), e.previousHash.value))
    && !Redaction.IsSensitive(Inside(policy, "integrity", "event_hash"), policy) && e.hash.None?
  }

  lemma SparesThree(policy: Redaction.Policy, keys: seq<string>, values: seq<Json>, outer: string)
    requires |keys| == |values| == 3 && !Redaction.IsSensitive(At(policy, outer), policy)
    requires SparesAll(policy, values[0], Inside(policy, outer, keys[0]))
    requires SparesAll(policy, values[1], Inside(policy, outer, keys[1]))
    requires SparesAll(policy, values[2], Inside(policy, outer, keys[2]))
    ensures SparesAll(policy, Obj(Zip(keys, values)), At(policy, outer))
  {
    forall i | 0 <= i < 3 ensures SparesAll(policy, values[i], At(policy, outer) + [policy.lower(keys[i])]) {
      assert At(policy, outer) + [policy.lower(keys[i])] == Inside(policy, outer, keys[i]);
    }
    SparesZip(policy, keys, values, At(policy, outer));
  }

  lemma CausalityIsSpared(policy: Redaction.Policy, e: Event)
    requires SparesCausality(policy, e) && !Redaction.IsSensitive(At(policy, "causality"), policy)
    ensures SparesAll(policy, Obj(Zip(CAUSALITY_KEYS, CausalityValues(e))), At(policy, "causality"))
  {
    SparesThree(policy, CAUSALITY_KEYS, CausalityValues(e), "causality");
  }

  lemma IntegrityIsSpared(policy: Redaction.Policy, e: Event)
    requires SparesIntegrity(policy, e) && !Redaction.IsSensitive(At(policy, "integrity"), policy)
    ensures SparesAll(policy, Obj(Zip(INTEGRITY_KEYS, IntegrityValues(e))), At(policy, "integrity"))
  {
    SparesThree(policy, INTEGRITY_KEYS, IntegrityValues(e), "integrity");
  }

  // The head and payload of an event.
  predicate SparesHead(policy: Redaction.Policy, e: Event) {
    && !Redaction.IsSensitive([], policy)
    && Spares(policy, At(policy, "spec_version"), SPEC_VERSION)
    && Spares(policy, At(policy, "event_id"), e.id)
    && Spares(policy, At(policy, "event_type"), e.eventType)
    && SparesAll(policy, Obj(e.payload), At(policy, "payload"))
  }

  // The fields of an event under these keys.
  ghost predicate Outer(keys: seq<string>, values: seq<Json>, e: Event, causality: Json, integrity: Json) {
    && |keys| == |values| == 12
    && keys[0] == "spec_version" && values[0] == Str(SPEC_VERSION)
    && keys[1] == "event_id" && values[1] == Str(e.id)
    && keys[2] == "event_type" && values[2] == Str(e.eventType)
    && keys[3] == "occurred_at" && values[3] == e.context.occurredAt
    && keys[4] == "observed_at" && values[4] == e.context.observedAt
    && keys[5] == "source" && values[5] == e.context.source
    && keys[6] == "correlation" && values[6] == e.context.correlation
    && keys[7] == "causality" && values[7] == causality
    && keys[8] == "principal" && values[8] == e.context.principal
    && keys[9] == "classification" && values[9] == e.context.classification
    && keys[10] == "payload" && values[10] == Obj(e.payload)
    && keys[11] == "integrity" && values[11] == integrity
  }

  lemma EventIsOuter(e: Event)
    ensures Outer(EVENT_KEYS, EventValues(e), e, Obj(Zip(CAUSALITY_KEYS, CausalityValues(e))),
                  Obj(Zip(INTEGRITY_KEYS, IntegrityValues(e))))
  {
  }

  lemma OuterIsSpared(
    policy: Redaction.Policy, keys: seq<string>, values: seq<Json>, e: Event, causality: Json, integrity: Json)
    requires Outer(keys, values, e, causality, integrity)
    requires SparesHead(policy, e) && SparesContext(policy, e.context)
    requires SparesAll(policy, causality, At(policy, "causality"))
    requires SparesAll(policy, integrity, At(policy, "integrity"))
    ensures SparesAll(policy, Obj(Zip(keys, values)), [])
  {
    forall i | 0 <= i < 12 ensures SparesAll(policy, values[i], [] + [policy.lower(keys[i])]) {
      assert [] + [policy.lower(keys[i])] == At(policy, keys[i]);
    }
    SparesZip(policy, keys, values, []);
  }

  /** An event is spared throughout when its parts are. */
  lemma EventIsSpared(policy: Redaction.Policy, e: Event)
    requires SparesHead(policy, e) && SparesContext(policy, e.context)
    requires SparesCausality(policy, e) && !Redaction.IsSensitive(At(policy, "causality"), policy)
    requires SparesIntegrity(policy, e) && !Redaction.IsSensitive(At(policy, "integrity"), policy)
    ensures SparesAll(policy, EventJson(e), [])
  {
    CausalityIsSpared(policy, e);
    IntegrityIsSpared(policy, e);
    EventIsOuter(e);
    OuterIsSpared(policy, EVENT_KEYS, EventValues(e), e, Obj(Zip(CAUSALITY_KEYS, CausalityValues(e))),
                  Obj(Zip(INTEGRITY_KEYS, IntegrityValues(e))));
  }

  // An event built from the record, as it is sent to the policy.
  ghost predicate SentFrom(g: Setting, w: World, r: Record, e: Event) {
    BuiltFrom(w, r, e) && Digested(Standard(g.sha256, g.parts), e.previousHash) && e.hash.None?
  }

  lemma SentIsSpared(g: Setting, w: World, r: Record, e: Event)
    requires LeavesAlone(g, w, r) && SentFrom(g, w, r, e)
    ensures SparesAll(g.policy, EventJson(e), [])
  {
    var n :| e.context == ContextOf(w.defaults, r.source, r.principal, r.classification, w.now(n));
    assert SparesContext(g.policy, ContextAt(w, r, n));
    assert SparesHead(g.policy, e) && SparesCausality(g.policy, e) && SparesIntegrity(g.policy, e);
    EventIsSpared(g.policy, e);
  }

  lemma FlatInOrder(v: Json)
    requires IsFlat(v)
    ensures IsFlat(Canon(v))
  {
    var cs := CanonMembers(v.members);
    KeyLeIsPreorder();
    Sorting.SortIsSortedPermutation(cs, KeyLe);
    forall m | m in Canon(v).members ensures IsScalar(m.value) {
      assert m in cs;
      var i :| 0 <= i < |cs| && cs[i] == m;
      assert v.members[i] in v.members;
    }
  }

  // A record of Python values that can be stored, in contexts that the sub-models accept.
  ghost predicate Storing(g: Setting, w: World, r: Record) {
    Usual(w, r) && Importable(w, r) && forall n :: g.parts(ContextInOrder(ContextAt(w, r, n)))
  }

  lemma SentIsAccepted(g: Setting, w: World, r: Record, e: Event)
    requires Storing(g, w, r) && SentFrom(g, w, r, e)
    ensures Accepts(g.parts, InOrder(e))
  {
    var n :| e.context == ContextOf(w.defaults, r.source, r.principal, r.classification, w.now(n));
    assert e.context == ContextAt(w, r, n);
    FlatInOrder(e.context.correlation);
    FlatInOrder(e.context.source);
    FlatInOrder(e.context.principal);
    FlatInOrder(e.context.classification);
    JsonLimits.CanonKeepsLimits(Obj(e.payload), 0);
  }

  lemma BuiltIsPython(w: World, r: Record, e: Event)
    requires Usual(w, r) && BuiltFrom(w, r, e)
    ensures PythonEvent(e) && FlatContext(e.context)
  {
    var n :| e.context == ContextOf(w.defaults, r.source, r.principal, r.classification, w.now(n));
    assert e.context == ContextAt(w, r, n);
    IngestPayloadIsPython(r, FingerprintOf(w, r));
    EventIsWellFormed(e);
  }

  // The event goes through redaction unchanged but for the order of keys, and can be serialized.
  ghost predicate Storable(g: Setting, e: Event) {
    && PersistOne(g.parts, g.policy, e) == Kept(InOrder(e)) && Fits(InOrder(e).(hash := None))
  }

  lemma {:induction false} SentIsStorable(g: Setting, w: World, r: Record, e: Event)
    requires Roomy(g.policy) && Storing(g, w, r) && LeavesAlone(g, w, r) && SentFrom(g, w, r, e)
    ensures Storable(g, e)
  {
    SentIsSpared(g, w, r, e);
    SentIsAccepted(g, w, r, e);
    BuiltIsPython(w, r, e);
    FitsIff(e);
    SparedIsKept(g.parts, g.policy, e);
    InOrderFits(e);
  }

  lemma {:induction false} StorableIsPrepared(g: Setting, w: World, e: Event, previous: Option<string>)
    requires Uses(w, g) && e.canonicalization == CANONICALIZATION_VERSION
    requires Storable(g, e.(previousHash := previous, hash := None))
    ensures Prepare(w.codec, w.persist, e, previous).Kept?
  {
  }

  /** A policy with room for any event lets a record through when it leaves alone the identifiers of the
      generator, digests, the envelope's constants, and the record's own type, context and payload. */
  lemma {:induction false} SparedRecordIsLetThrough(g: Setting, w: World, r: Record)
    requires Uses(w, g) && Roomy(g.policy) && Storing(g, w, r) && LeavesAlone(g, w, r)
    ensures LetsThrough(w, r)
  {
    forall e, previous | BuiltFrom(w, r, e) && Digested(w.codec, previous)
      ensures Prepare(w.codec, w.persist, e, previous).Kept?
    {
      SparedIsPrepared(g, w, r, e, previous);
    }
  }

  lemma {:induction false} SparedIsPrepared(g: Setting, w: World, r: Record, e: Event, previous: Option<string>)
    requires Uses(w, g) && Roomy(g.policy) && Storing(g, w, r) && LeavesAlone(g, w, r)
    requires BuiltFrom(w, r, e) && Digested(w.codec, previous)
    ensures Prepare(w.codec, w.persist, e, previous).Kept?
  {
    var sent := e.(previousHash := previous, hash := None);
    assert SentFrom(g, w, r, sent);
    SentIsStorable(g, w, r, sent);
    StorableIsPrepared(g, w, e, previous);
  }
}
