/** A batch that breaks off with an exception after a write: what is enough for it, and one such batch. */
module AbortedBatch {
  import opened JsonValues
  import opened Journal
  import opened Normalization
  import opened EvidenceRecords
  import opened Ingestion
  import opened IngestionRuns
  import opened BatchExits
  import opened Retry
  import opened DictFields
  import opened EventCodec
  import opened Persistence
  import opened PersistedImport
  import opened SparedRecords
  import Redaction
  import Sorting
  import JsonLimits

  // ---------------------------------------------------------------- any batch of two

  // A record of the full accepted depth.
  ghost predicate FullDepth(w: World, r: Record) {
    var payload := Obj(PayloadWithIngest(r, FingerprintOf(w, r)));
    r.eventType != "" && JsonLimits.EnvelopeAccepts(payload) && JsonLimits.Height(payload) == JsonLimits.MAX_DEPTH
  }

  // The two records are new, the first starts a timeline and can be stored, the second is too deep.
  ghost predicate TooDeepSecond(w: World, seen: map<string, Entry>, r: Record, q: Record) {
    && r.key !in seen && q.key !in seen && r.key != q.key
    && r.eventType in ROOT_EVENT_TYPES && Importable(w, r) && Works(w, [r])
    && FullDepth(w, q)
  }

  // The state after a first record that starts a timeline.
  ghost predicate Begun(es: seq<Event>, r: Record, t: State) {
    && |t.events| == |es| + 1 && InStep(t) && t.batchSeen.Keys == {r.key}
    && t.position.root.Some? && t.position.root.value != "" && t.position.last.Some? && t.position.last.value != ""
  }

  lemma FirstIsImported(w: World, es: seq<Event>, s: State, r: Record) returns (t: State)
    requires Chained(w.codec, es) && s.events == es && s.batchSeen == map[] && s.outcomes == []
    requires s.position == Rebased(FRESH, |es|).value
    requires r.key !in Existing(es) && r.eventType in ROOT_EVENT_TYPES && Importable(w, r) && Works(w, [r])
    ensures ImportOne(w, Existing(es), s, r) == Continue(t) && Begun(es, r, t)
  {
    var seen, rs := Existing(es), [r];
    TerminalIsDigested(w.codec, es);
    assert Ready(w, seen, rs, s);
    assert StartsTimeline(seen, rs[0]) && Rooted(seen, rs, 1);
    NormalizedIff(w, seen, rs, s);
    var (e, q) := Normalized(w, s, r, FingerprintOf(w, r)).value;
    assert LetsThrough(w, rs[0]) && Prepare(w.codec, w.persist, e, TerminalHash(es, |es|)).Kept?;
    assert w.disk(s.nextId).None?;
    t := ImportOne(w, seen, s, r).state;
    assert Generated(w, e.root) && e.root != "";
  }

  lemma SecondIsSent(w: World, seen: map<string, Entry>, es: seq<Event>, t: State, r: Record, q: Record)
    requires Begun(es, r, t) && TooDeepSecond(w, seen, r, q)
    ensures Sent(w, seen, t, q)
    ensures JsonLimits.Height(Obj(SentEvent(w, t, q).payload)) == JsonLimits.MAX_DEPTH
  {
    assert w.ids(t.nextId) != "";
  }

  /** An atomic import into any valid journal raises after writing the first of two new records when that one
      starts a timeline and can be stored, and the second has the full accepted depth. */
  lemma {:induction false} FullDepthAborts(g: Setting, es: seq<Event>, b: Batch, r: Record, q: Record)
    requires Uses(b.world, g) && Chained(b.world.codec, es) && b.position == FRESH
    requires Ordered(b.records) == [r, q] && Usual(b.world, r) && Usual(b.world, q)
    requires TooDeepSecond(b.world, Existing(es), r, q)
    ensures ImportedBy(es, b).exit == Raised && ImportedBy(es, b).state.events != es
  {
    var t := SecondIsReached(g, es, b, r, q);
    BatchAbortsIff(g, es, b);
  }

  lemma {:induction false} SecondIsReached(g: Setting, es: seq<Event>, b: Batch, r: Record, q: Record) returns (t: State)
    requires Uses(b.world, g) && Chained(b.world.codec, es) && b.position == FRESH
    requires Ordered(b.records) == [r, q] && TooDeepSecond(b.world, Existing(es), r, q)
    ensures Spoils(g, es, b, 1, t)
  {
    var w, seen, s, rs := b.world, Existing(es), Start(es, b).value, [r, q];
    t := FirstIsImported(w, es, s, r);
    SecondIsSent(w, seen, es, t, r, q);
    SecondIsMet(w, seen, s, rs, t);
    SecondSpoils(g, es, b, t, r, q);
  }

  lemma {:induction false} SecondSpoils(g: Setting, es: seq<Event>, b: Batch, t: State, r: Record, q: Record)
    requires Start(es, b).Some? && Ordered(b.records) == [r, q] && t.events != es
    requires Meets(b.world, Existing(es), Start(es, b).value, [r, q], 1, t) && Sent(b.world, Existing(es), t, q)
    requires JsonLimits.Height(Obj(SentEvent(b.world, t, q).payload)) == JsonLimits.MAX_DEPTH
    ensures Spoils(g, es, b, 1, t)
  {
  }

  lemma SecondIsMet(w: World, seen: map<string, Entry>, s: State, rs: seq<Record>, t: State)
    requires |rs| == 2 && ImportOne(w, seen, s, rs[0]) == Continue(t)
    ensures Meets(w, seen, s, rs, 1, t)
  {
    assert OneTurn(w, seen)(s, rs[0]) == ImportOne(w, seen, s, rs[0]);
    assert LoopState(OneTurn(w, seen), s, rs, 0) == Some(s);
  }

  // ---------------------------------------------------------------- one such batch

  // Nothing is sensitive to the policy, it has no patterns, and it keeps texts of up to 4096 characters.
  ghost predicate OpenPolicy(policy: Redaction.Policy) {
    && policy.sensitivePaths == {} && policy.sensitiveFieldNames == {} && policy.maxStringLength == 4096
    && Roomy(policy) && forall s :: policy.redactText(s) == s
  }

  predicate Short(v: Json) { v.Str? && |v.s| <= 4096 }

  // Storage that works, short identifiers, digests and clock readings, and empty sub-models.
  ghost predicate PlainWorld(g: Setting, w: World) {
    && Uses(w, g) && OpenPolicy(g.policy) && (forall text :: |g.sha256(text)| <= 64) && (forall c :: g.parts(c))
    && (forall n :: w.disk(n) == None && 0 < |w.ids(n)| <= 4096)
    && (forall n :: Short(w.now(n).occurredAt) && Short(w.now(n).observedAt))
    && w.defaults == Defaults(Obj([]), Obj([]), Obj([]), Obj([]))
  }

  predicate Bare(r: Record) {
    r.source.None? && r.principal.None? && r.classification.None? && 0 < |r.eventType| <= 4096
    && |r.key| <= 4096 && |r.sourceKind| <= 4096
  }

  lemma ShortIsSpared(policy: Redaction.Policy, path: Redaction.Path, s: string)
    requires OpenPolicy(policy) && |s| <= 4096
    ensures Spares(policy, path, s)
  {
  }

  lemma BareContext(g: Setting, w: World, r: Record, n: nat)
    requires PlainWorld(g, w) && Bare(r)
    ensures
      var c := ContextAt(w, r, n);
      FlatContext(c) && PythonContext(c) && SparesContext(g.policy, c)
  {
    assert Short(w.now(n).occurredAt) && Short(w.now(n).observedAt);
    EmptyContext(g.policy, ContextAt(w, r, n));
  }

  lemma EmptyContext(policy: Redaction.Policy, c: Context)
    requires OpenPolicy(policy) && Short(c.occurredAt) && Short(c.observedAt)
    requires c.correlation == c.source == c.principal == c.classification == Obj([])
    ensures FlatContext(c) && PythonContext(c) && SparesContext(policy, c)
  {
  }

  lemma BareIsUsual(g: Setting, w: World, r: Record)
    requires PlainWorld(g, w) && Bare(r) && WellFormed(Obj(r.payload))
    ensures Usual(w, r) && forall n :: SparesContext(g.policy, ContextAt(w, r, n))
  {
    forall n ensures
      FlatContext(ContextAt(w, r, n)) && PythonContext(ContextAt(w, r, n)) && SparesContext(g.policy, ContextAt(w, r, n))
    {
      BareContext(g, w, r, n);
    }
  }

  // The ingest entry of a record.
  function Ingest(r: Record, fingerprint: string): Member {
    Member("ingest", Obj(Zip(INGEST_KEYS, IngestValues(r, fingerprint))))
  }

  lemma IngestHeight(r: Record, f: string)
    ensures JsonLimits.Height(Ingest(r, f).value) == 1 && JsonLimits.NarrowEnough(Ingest(r, f).value)
  {
    var ms := Zip(INGEST_KEYS, IngestValues(r, f));
    forall m | m in ms ensures JsonLimits.Height(m.value) == 0 && JsonLimits.NarrowEnough(m.value) {
      var i :| 0 <= i < |ms| && ms[i] == m;
    }
    JsonLimits.MembersHeightBounds(ms, 0);
    JsonLimits.MembersHeightBounds(ms, 1);
    assert ms[0] in ms;
  }

  lemma EmptyPayloadIsImportable(w: World, r: Record)
    requires r.payload == [] && r.eventType != ""
    ensures PayloadWithIngest(r, FingerprintOf(w, r)) == [Ingest(r, FingerprintOf(w, r))] && Importable(w, r)
  {
    var m := Ingest(r, FingerprintOf(w, r));
    IngestHeight(r, FingerprintOf(w, r));
    assert Put([], m.key, m.value) == [m];
    JsonLimits.MembersHeightBounds([m], 2);
    JsonLimits.LimitsMeanHeight(Obj([m]), 1);
  }

  lemma {:induction false} DeepPayloadIsFullDepth(w: World, r: Record, k: Member)
    requires r.eventType != "" && r.payload == [k] && k.key != "ingest"
    requires JsonLimits.Height(k.value) == JsonLimits.MAX_DEPTH - 1 && JsonLimits.NarrowEnough(k.value)
    ensures FullDepth(w, r)
  {
    var m := Ingest(r, FingerprintOf(w, r));
    IngestHeight(r, FingerprintOf(w, r));
    PutSecond(k, m);
    TwoMembersHeight(k, m);
    JsonLimits.LimitsMeanHeight(Obj([k, m]), 0);
  }

  lemma PutSecond(k: Member, m: Member)
    requires k.key != m.key
    ensures Put([k], m.key, m.value) == [k, m]
  {
    assert [k][1..] == [];
  }

  lemma TwoMembersHeight(k: Member, m: Member)
    requires JsonLimits.Height(k.value) >= JsonLimits.Height(m.value)
    ensures JsonLimits.Height(Obj([k, m])) == 1 + JsonLimits.Height(k.value)
  {
    assert [m][1..] == [] && JsonLimits.MembersHeight([m]) == 1 + JsonLimits.Height(m.value);
    assert [k, m][1..] == [m];
  }

  lemma IngestIsSpared(policy: Redaction.Policy, r: Record, f: string)
    requires OpenPolicy(policy) && |r.key| <= 4096 && |r.sourceKind| <= 4096 && |f| <= 4096
    ensures SparesAll(policy, Obj([Ingest(r, f)]), At(policy, "payload"))
  {
    var keys, values, path := INGEST_KEYS, IngestValues(r, f), Inside(policy, "payload", "ingest");
    forall i | 0 <= i < 4 ensures SparesAll(policy, values[i], path + [policy.lower(keys[i])]) {
      ShortIsSpared(policy, path + [policy.lower(keys[i])], values[i].s);
    }
    SparesZip(policy, keys, values, path);
    assert At(policy, "payload") + [policy.lower("ingest")] == path;
  }

  lemma OpenLeavesFrame(policy: Redaction.Policy)
    requires OpenPolicy(policy)
    ensures SparesFrame(policy)
  {
    ShortIsSpared(policy, At(policy, "spec_version"), SPEC_VERSION);
    ShortIsSpared(policy, Inside(policy, "integrity", "canonicalization"), CANONICALIZATION_VERSION);
  }

  lemma OpenLeavesChain(g: Setting, w: World)
    requires PlainWorld(g, w)
    ensures SparesChain(g.sha256, g.policy)
  {
    forall text ensures Spares(g.policy, PreviousPath(g.policy), "sha256:" + g.sha256(text)) {
      ShortIsSpared(g.policy, PreviousPath(g.policy), "sha256:" + g.sha256(text));
    }
  }

  lemma OpenLeavesIdentifiers(g: Setting, w: World)
    requires PlainWorld(g, w)
    ensures SparesIdentifiers(g.policy, w)
  {
    forall n, path ensures Spares(g.policy, path, w.ids(n)) { ShortIsSpared(g.policy, path, w.ids(n)); }
  }

  lemma FingerprintIsShort(g: Setting, w: World, r: Record)
    requires PlainWorld(g, w)
    ensures |FingerprintOf(w, r)| <= 4096
  {
  }

  lemma {:induction false} EmptyRecordIsLetThrough(g: Setting, w: World, r: Record)
    requires PlainWorld(g, w) && Bare(r) && r.payload == []
    ensures LetsThrough(w, r)
  {
    BareIsUsual(g, w, r);
    EmptyPayloadIsImportable(w, r);
    FingerprintIsShort(g, w, r);
    IngestIsSpared(g.policy, r, FingerprintOf(w, r));
    OpenLeavesFrame(g.policy);
    OpenLeavesChain(g, w);
    OpenLeavesIdentifiers(g, w);
    ShortIsSpared(g.policy, At(g.policy, "event_type"), r.eventType);
    SparedRecordIsLetThrough(g, w, r);
  }

  // A record whose payload is nested to the full accepted depth, all in objects.
  predicate Nested(r: Record) { Bare(r) && r.payload == JsonLimits.Nest(JsonLimits.MAX_DEPTH).members }

  lemma {:induction false} NestedIsFullDepth(w: World, r: Record, depth: nat)
    requires Nested(r) && depth == JsonLimits.MAX_DEPTH
    ensures FullDepth(w, r) && WellFormed(Obj(r.payload))
  {
    JsonLimits.NestHeight(depth);
    JsonLimits.NestHeight(depth - 1);
    var k := Member("k", JsonLimits.Nest(depth - 1));
    assert "k"[0] != "ingest"[0] && r.payload == [k];
    DeepPayloadIsFullDepth(w, r, k);
  }

  // An empty record of a root type.
  predicate Starting(r: Record) { Bare(r) && r.payload == [] && r.eventType in ROOT_EVENT_TYPES }

  lemma {:induction false} StartingIsStored(g: Setting, w: World, r: Record)
    requires PlainWorld(g, w) && Starting(r)
    ensures Importable(w, r) && Works(w, [r])
  {
    EmptyPayloadIsImportable(w, r);
    EmptyRecordIsLetThrough(g, w, r);
    forall n ensures w.disk(n).None? && w.ids(n) != "" { assert w.disk(n) == None && 0 < |w.ids(n)|; }
  }

  /** In any plain world, two such records make a batch abort: an empty one of a root type, and one whose
      payload nests to the full accepted depth. */
  lemma {:induction false} PlainBatchAborts(g: Setting, b: Batch, r: Record, q: Record)
    requires PlainWorld(g, b.world) && b.position == FRESH && Ordered(b.records) == [r, q] && r.key != q.key
    requires Starting(r) && Nested(q)
    ensures ImportedBy([], b).exit == Raised && ImportedBy([], b).state.events != []
  {
    StartingIsStored(g, b.world, r);
    NestedIsFullDepth(b.world, q, JsonLimits.MAX_DEPTH);
    BareIsUsual(g, b.world, r);
    BareIsUsual(g, b.world, q);
    assert TooDeepSecond(b.world, Existing([]), r, q);
    FullDepthAborts(g, [], b, r, q);
  }

  const POLICY := Redaction.Policy(
    {}, {}, 4096, 4096, 128, 65536, 64, 4096, 4096, {}, (s: string) => s, (s: string) => s, (s: string) => s,
    (bs: seq<Redaction.byte>) => "")

  const SETTING := Setting((text: string) => "0", (c: Context) => true, POLICY)

  const TIME := Str("2026-01-01T00:00:00Z")

  const WORLD := World(
    true, Standard(SETTING.sha256, SETTING.parts), Persist(SETTING.parts, POLICY), (n: nat) => None,
    (n: nat) => if n == 0 then "evt_0" else "evt_1", (n: nat) => Times(TIME, TIME),
    Defaults(Obj([]), Obj([]), Obj([]), Obj([])))

  const FIRST := Record("1", "agent.run.started", [], "log", "1", None, None, None)

  const SECOND := Record("2", "agent.step", JsonLimits.Nest(JsonLimits.MAX_DEPTH).members, "log", "2", None, None, None)

  const BATCH := Batch(WORLD, FRESH, 0, [FIRST, SECOND])

  lemma InOrderStays(r: Record, q: Record)
    requires RecordLe(r, q) && !RecordLe(q, r)
    ensures Ordered([r, q]) == [r, q]
  {
    var rs := [r, q];
    RecordLeIsPreorder();
    Sorting.SortIsSortedPermutation(rs, RecordLe);
    Sorting.SortedIsUnique(rs, Ordered(rs), RecordLe);
  }

  /** Importing this batch into an empty journal writes its first record and ends in an exception. */
  lemma {:induction false} BatchCanAbort()
    ensures ImportedBy([], BATCH).exit == Raised && ImportedBy([], BATCH).state.events != []
  {
    assert "1"[0] != "2"[0];
    InOrderStays(FIRST, SECOND);
    PlainBatchAborts(SETTING, BATCH, FIRST, SECOND);
  }
}
