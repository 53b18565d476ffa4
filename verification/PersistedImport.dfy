/** Batch imports through the journal's own codec and redaction policy. */
module PersistedImport {
  import opened JsonValues
  import opened Journal
  import opened Normalization
  import opened EvidenceRecords
  import opened Ingestion
  import opened IngestionRuns
  import opened BatchExits
  import opened EventCodec
  import opened DictFields
  import opened Persistence
  import Redaction
  import RedactionPlaces
  import JsonLimits

  // The hash function, the sub-models and the redaction policy in use.
  datatype Setting = Setting(sha256: string -> string, parts: Context -> bool, policy: Redaction.Policy)

  ghost predicate Uses(w: World, g: Setting) {
    w.codec == Standard(g.sha256, g.parts) && w.persist == Persist(g.parts, g.policy)
  }

  // Python values, and sub-models of scalar fields.
  ghost predicate Usual(w: World, r: Record) {
    WellFormed(Obj(r.payload))
    && forall n :: FlatContext(ContextAt(w, r, n)) && PythonContext(ContextAt(w, r, n))
  }

  function ContextAt(w: World, r: Record, n: nat): Context {
    ContextOf(w.defaults, r.source, r.principal, r.classification, w.now(n))
  }

  // ---------------------------------------------------------------- which record aborts a batch

  // The event on its way to the policy.
  function SentEvent(w: World, t: State, r: Record): Event
    requires NormalizedOf(w, t, r).Some?
  {
    NormalizedOf(w, t, r).value.0.(previousHash := TerminalHash(t.events, |t.events|), hash := None)
  }

  /** The event cannot be stored: its payload nests to the full accepted depth, its redaction fails or
      captures too much, or redaction lets it grow past the limits. */
  predicate Unstorable(g: Setting, e: Event) {
    JsonLimits.Height(Obj(e.payload)) == JsonLimits.MAX_DEPTH
    || !Redactable(g.policy, e) || Overgrown(g.parts, g.policy, e)
  }

  lemma NormalizedEvent(w: World, t: State, r: Record)
    requires NormalizedOf(w, t, r).Some?
    ensures
      var e := NormalizedOf(w, t, r).value.0;
      && e.payload == PayloadWithIngest(r, FingerprintOf(w, r)) && e.context == ContextAt(w, r, t.nextId)
      && EnvelopeAccepts(e) && e.canonicalization == CANONICALIZATION_VERSION
  {
  }

  lemma SentIsPython(w: World, t: State, r: Record)
    requires Usual(w, r) && NormalizedOf(w, t, r).Some?
    ensures PythonEvent(SentEvent(w, t, r)) && FlatContext(SentEvent(w, t, r).context)
  {
    NormalizedEvent(w, t, r);
    IngestPayloadIsPython(r, FingerprintOf(w, r));
    assert FlatContext(ContextAt(w, r, t.nextId));
    EventIsWellFormed(SentEvent(w, t, r));
  }

  /** A new record is refused exactly when its event cannot be stored. */
  lemma {:induction false} RefusedIff(g: Setting, w: World, seen: map<string, Entry>, t: State, r: Record)
    requires Uses(w, g) && Usual(w, r) && Sent(w, seen, t, r)
    ensures RefusedAt(w, seen, t, r) <==> Unstorable(g, SentEvent(w, t, r))
  {
    var e := NormalizedOf(w, t, r).value.0;
    NormalizedEvent(w, t, r);
    SentIsPython(w, t, r);
    PrepareRefusesIff(g.sha256, g.parts, g.policy, e, TerminalHash(t.events, |t.events|));
    JsonLimits.AcceptedPayloadNormalizesIff(Obj(e.payload));
    JsonLimits.LimitsMeanHeight(Obj(e.payload), 0);
  }

  // Record i is reached with something written, is new, and cannot be stored.
  ghost predicate Spoils(g: Setting, es: seq<Event>, b: Batch, i: nat, t: State) {
    InBatch(es, b, i, t) && t.events != es && Sent(b.world, Existing(es), t, Ordered(b.records)[i])
    && Unstorable(g, SentEvent(b.world, t, Ordered(b.records)[i]))
  }

  lemma {:induction false} SpoilsIff(g: Setting, es: seq<Event>, b: Batch, i: nat, t: State)
    requires Uses(b.world, g) && InBatch(es, b, i, t) && Usual(b.world, Ordered(b.records)[i])
    ensures RefusedLater(es, b, i, t) <==> Spoils(g, es, b, i, t)
  {
    var w, seen, r := b.world, Existing(es), Ordered(b.records)[i];
    if Sent(w, seen, t, r) { RefusedIff(g, w, seen, t, r); }
  }

  /** An exception leaves a batch that has written something exactly when a later new record cannot be
      stored: too deep, not redactable, or grown past the limits. */
  lemma {:induction false} BatchAbortsIff(g: Setting, es: seq<Event>, b: Batch)
    requires Uses(b.world, g) && forall i | 0 <= i < |Ordered(b.records)| :: Usual(b.world, Ordered(b.records)[i])
    ensures ImportedBy(es, b).exit == Raised && ImportedBy(es, b).state.events != es
       <==> exists i, t :: Spoils(g, es, b, i, t)
  {
    ExceptionAfterWriteIff(es, b);
    forall i: nat, t | InBatch(es, b, i, t) ensures RefusedLater(es, b, i, t) <==> Spoils(g, es, b, i, t) {
      SpoilsIff(g, es, b, i, t);
    }
  }

  // ---------------------------------------------------------------- policies that keep the metadata

  function PayloadPath(policy: Redaction.Policy): Redaction.Path { At(policy, "payload") }

  function IngestPath(policy: Redaction.Policy): Redaction.Path { Inside(policy, "payload", "ingest") }

  function FieldPath(policy: Redaction.Policy, field: string): Redaction.Path {
    [policy.lower("payload"), policy.lower("ingest"), policy.lower(field)]
  }

  /** The policy leaves the metadata of the record alone. */
  predicate SparesIngest(policy: Redaction.Policy, r: Record, fingerprint: string) {
    && !Redaction.IsSensitive(PayloadPath(policy), policy) && !Redaction.IsSensitive(IngestPath(policy), policy)
    && Spares(policy, FieldPath(policy, "idempotency_key"), r.key)
    && Spares(policy, FieldPath(policy, "record_fingerprint"), fingerprint)
  }

  // The metadata after redaction.
  lemma {:induction false} RedactedIngest(policy: Redaction.Policy, r: Record, f: string, o: Redaction.Out)
    requires SparesIngest(policy, r, f)
    requires Redaction.RedactValue(ToValue(Obj(Zip(INGEST_KEYS, IngestValues(r, f)))), IngestPath(policy), policy, 2,
                                   Redaction.None) == Redaction.Done(o, Redaction.None)
    ensures
      var v := Canon(FromOut(o));
      v.Obj? && GetOrNull(v.members, "idempotency_key") == Str(r.key)
      && GetOrNull(v.members, "record_fingerprint") == Str(f)
  {
    var keys, values := INGEST_KEYS, IngestValues(r, f);
    KeyListsAreDistinct();
    DictFieldRead(policy, keys, values, IngestPath(policy), 2, o, 1, FieldPath(policy, "idempotency_key"));
    DictFieldRead(policy, keys, values, IngestPath(policy), 2, o, 2, FieldPath(policy, "record_fingerprint"));
    SparedText(policy, FieldPath(policy, "idempotency_key"), 3, r.key);
    SparedText(policy, FieldPath(policy, "record_fingerprint"), 3, f);
  }

  lemma IngestIsMember(r: Record, f: string) returns (i: nat)
    ensures
      var ms := PayloadWithIngest(r, f);
      i < |ms| && ms[i] == Member("ingest", Obj(Zip(INGEST_KEYS, IngestValues(r, f))))
  {
    var entry := Obj(Zip(INGEST_KEYS, IngestValues(r, f)));
    GetAfterPut(r.payload, "ingest", entry, "ingest");
    var ms := PayloadWithIngest(r, f);
    assert Member("ingest", entry) in ms;
    i :| 0 <= i < |ms| && ms[i] == Member("ingest", entry);
  }

  lemma IngestFieldOf(payload: seq<Member>, ms: seq<Member>, field: string, s: string)
    requires Get(payload, "ingest") == Some(Obj(ms)) && GetOrNull(ms, field) == Str(s) && s != ""
    ensures IngestField(payload, field) == Some(s)
  {
  }

  // A redacted dict looked up at one of its members.
  lemma {:induction false} RedactedMember(
    policy: Redaction.Policy, ms: seq<Member>, path: Redaction.Path, depth: nat, o: Redaction.Out, i: nat, inner: Redaction.Out)
    requires WellFormed(Obj(ms)) && i < |ms| && !Redaction.IsSensitive(path, policy)
    requires Redaction.RedactValue(ToValue(Obj(ms)), path, policy, depth, Redaction.None)
          == Redaction.Done(o, Redaction.None)
    requires Redaction.RedactValue(ToValue(ms[i].value), path + [policy.lower(ms[i].key)], policy, depth + 1, Redaction.None)
          == Redaction.Done(inner, Redaction.None)
    ensures Canon(FromOut(o)).Obj? && Get(Canon(FromOut(o)).members, ms[i].key) == Some(Canon(FromOut(inner)))
  {
    var fields := ToFields(ms);
    assert ToValue(Obj(ms)) == Redaction.Mapping(fields);
    RedactionPlaces.FieldsOneByOne(fields, path, policy, depth + 1, i);
    RedactedIsWellFormed(Obj(ms), path, policy, depth, o);
    var js := FromFields(o.fields);
    assert js[i] == Member(ms[i].key, FromOut(inner)) && js[i] in js;
    GetOfMember(js, js[i]);
    GetCommutesWithCanon(js, ms[i].key);
  }

  lemma PassAtMember(
    policy: Redaction.Policy, ms: seq<Member>, path: Redaction.Path, depth: nat, i: nat)
    requires i < |ms| && !Redaction.IsSensitive(path, policy)
    requires Redaction.RedactValue(ToValue(Obj(ms)), path, policy, depth, Redaction.None).Done?
    ensures
      var inner := Redaction.RedactValue(
        ToValue(ms[i].value), path + [policy.lower(ms[i].key)], policy, depth + 1, Redaction.None);
      inner.Done? && inner.budget.None?
  {
    var fields := ToFields(ms);
    assert ToValue(Obj(ms)) == Redaction.Mapping(fields);
    RedactionPlaces.FieldsOneByOne(fields, path, policy, depth + 1, i);
  }

  lemma {:induction false} IngestSurvives(policy: Redaction.Policy, r: Record, f: string, ms: seq<Member>, po: Redaction.Out)
    requires SparesIngest(policy, r, f) && r.key != "" && f != ""
    requires ms == PayloadWithIngest(r, f) && WellFormed(Obj(ms))
    requires Redaction.RedactValue(ToValue(Obj(ms)), PayloadPath(policy), policy, 1, Redaction.None)
          == Redaction.Done(po, Redaction.None)
    ensures
      var v := Canon(FromOut(po));
      v.Obj? && IngestKey(v.members) == Some(r.key) && IngestFingerprint(v.members) == Some(f)
  {
    var i := IngestIsMember(r, f);
    PassAtMember(policy, ms, PayloadPath(policy), 1, i);
    assert PayloadPath(policy) + [policy.lower(ms[i].key)] == IngestPath(policy);
    var inner := Redaction.RedactValue(ToValue(ms[i].value), IngestPath(policy), policy, 2, Redaction.None).out;
    RedactedMember(policy, ms, PayloadPath(policy), 1, po, i, inner);
    RedactedIngest(policy, r, f, inner);
    var payload, read := Canon(FromOut(po)).members, Canon(FromOut(inner)).members;
    IngestFieldOf(payload, read, "idempotency_key", r.key);
    IngestFieldOf(payload, read, "record_fingerprint", f);
  }

  lemma {:induction false} KeptKeepsIngest(g: Setting, r: Record, f: string, e: Event)
    requires SparesIngest(g.policy, r, f) && r.key != "" && f != "" && e.payload == PayloadWithIngest(r, f)
    requires PersistOne(g.parts, g.policy, e).Kept?
    ensures IngestKey(PersistOne(g.parts, g.policy, e).event.payload) == Some(r.key)
    ensures IngestFingerprint(PersistOne(g.parts, g.policy, e).event.payload) == Some(f)
  {
    KeptPayloadPass(g.parts, g.policy, e);
    KeptPayloadIsPython(g.parts, g.policy, e);
    IngestSurvives(g.policy, r, f, e.payload, PayloadPass(g.policy, e).out);
  }

  lemma {:induction false} KeptPayloadIsPython(parts: Context -> bool, policy: Redaction.Policy, e: Event)
    requires PersistOne(parts, policy, e).Kept?
    ensures WellFormed(Obj(e.payload))
  {
    var ms := Zip(EVENT_KEYS, EventValues(e));
    assert ms[10] in ms && ms[10].value == Obj(e.payload);
  }

  /** The journal's policy keeps the metadata of every record whose key and fingerprint it spares. */
  lemma {:induction false} PersistKeepsIngest(g: Setting, w: World, r: Record)
    requires Uses(w, g) && r.key != "" && SparesIngest(g.policy, r, FingerprintOf(w, r))
    ensures KeepsIngest(w, r)
  {
    var f := FingerprintOf(w, r);
    forall e: Event | e.payload == PayloadWithIngest(r, f) && w.persist(e).Kept?
      ensures IngestKey(w.persist(e).event.payload) == Some(r.key)
      ensures IngestFingerprint(w.persist(e).event.payload) == Some(f)
    {
      KeptKeepsIngest(g, r, f, e);
    }
  }

  /** With a policy that spares the chain fields and the records' metadata, the journal's codec and policy
      meet everything that growth, at-most-once and repeated imports rest on. */
  lemma {:induction false} SparingBatchIsAdmissible(g: Setting, b: Batch)
    requires Uses(b.world, g) && b.world.atomic && SparesChain(g.sha256, g.policy)
    requires forall i | 0 <= i < |b.records| ::
      b.records[i].key != "" && SparesIngest(g.policy, b.records[i], FingerprintOf(b.world, b.records[i]))
    ensures Admissible(Standard(g.sha256, g.parts), b)
  {
    StandardIsSound(g.sha256, g.parts);
    PersistParses(g.sha256, g.parts, g.policy);
    PersistKeepsChainFields(g.sha256, g.parts, g.policy);
    forall i | 0 <= i < |b.records| ensures KeepsIngest(b.world, b.records[i]) {
      PersistKeepsIngest(g, b.world, b.records[i]);
    }
  }
}
