/** Evidence records, the fingerprint that decides whether two of them are the same evidence, and
    the metadata an imported event carries. SHA-256 is a parameter. */
module EvidenceRecords {
  import opened JsonValues
  import opened Normalization
  import opened JsonObjects
  import opened Sorting
  import JsonText

  datatype Record = Record(
    key: string,
    eventType: string,
    payload: seq<Member>,
    sourceKind: string,
    sortKey: string,
    source: Option<Json>,
    principal: Option<Json>,
    classification: Option<Json>)

  const FINGERPRINT_VERSION := "actionlineage.dev/ingest-record-fingerprint-v1"
  const PROVENANCE_VERSION := "actionlineage.dev/ingestion-provenance-v1"

  function Without(ms: seq<Member>, key: string): seq<Member> {
    if ms == [] then []
    else if ms[0].key == key then Without(ms[1..], key)
    else [ms[0]] + Without(ms[1..], key)
  }

  predicate IsServiceProvenance(v: Option<Json>) {
    v.Some? && v.value.Obj? && Get(v.value.members, "schema_version") == Some(Str(PROVENANCE_VERSION))
  }

  // The part of the payload that identifies the evidence.
  function ComparedPayload(payload: seq<Member>): seq<Member> {
    Without(if IsServiceProvenance(Get(payload, "ingested_by")) then Without(payload, "ingested_by") else payload,
            "ingest")
  }

  const PREIMAGE_KEYS: seq<string> :=
    [ "classification", "correlation", "event_type", "idempotency_key", "payload", "principal",
      "sort_key", "source", "source_kind", "version" ]

  function PreimageValues(d: Defaults, r: Record): seq<Json> {
    [ OrDefault(r.classification, d.classification), d.correlation, Str(r.eventType), Str(r.key),
      Obj(ComparedPayload(r.payload)), OrDefault(r.principal, d.principal), Str(r.sortKey),
      OrDefault(r.source, d.source), Str(r.sourceKind), Str(FINGERPRINT_VERSION) ]
  }

  function Preimage(d: Defaults, r: Record): Json { Obj(Zip(PREIMAGE_KEYS, PreimageValues(d, r))) }

  function Fingerprint(digest: string -> string, d: Defaults, r: Record): string {
    digest(JsonText.Print(Preimage(d, r)))
  }

  const INGEST_KEYS: seq<string> :=
    ["fingerprint_version", "idempotency_key", "record_fingerprint", "source_kind"]

  function IngestValues(r: Record, fingerprint: string): seq<Json> {
    [Str(FINGERPRINT_VERSION), Str(r.key), Str(fingerprint), Str(r.sourceKind)]
  }

  function PayloadWithIngest(r: Record, fingerprint: string): seq<Member> {
    Put(r.payload, "ingest", Obj(Zip(INGEST_KEYS, IngestValues(r, fingerprint))))
  }

  // A non-empty text field of the ingest metadata.
  function IngestField(payload: seq<Member>, field: string): Option<string> {
    match Get(payload, "ingest")
    case Some(Obj(ms)) =>
      (match Get(ms, field)
       case Some(Str(s)) => if s == "" then None else Some(s)
       case _ => None)
    case _ => None
  }

  function IngestKey(payload: seq<Member>): Option<string> { IngestField(payload, "idempotency_key") }

  function IngestFingerprint(payload: seq<Member>): Option<string> { IngestField(payload, "record_fingerprint") }

  lemma KeyListsAreDistinct()
    ensures Distinct(PREIMAGE_KEYS) && Distinct(INGEST_KEYS)
  {
    var p, q := PREIMAGE_KEYS, INGEST_KEYS;
    assert p[0][..2] == "cl" && p[1][..2] == "co" && p[2][..1] == "e" && p[3][..1] == "i" && p[4][..2] == "pa"
        && p[5][..2] == "pr" && p[6][..2] == "so" && p[8][..2] == "so" && p[7][..2] == "so" && p[9][..1] == "v";
    assert p[6][2] == 'r' && p[7][2] == 'u' && |p[7]| == 6 && |p[8]| == 11;
    assert p[6][3] == 't';
    assert q[0][0] == 'f' && q[1][0] == 'i' && q[2][0] == 'r' && q[3][0] == 's';
  }

  /** The metadata written into a payload is the metadata read from it. */
  lemma IngestReadsBack(r: Record, fingerprint: string)
    requires r.key != "" && fingerprint != ""
    ensures IngestKey(PayloadWithIngest(r, fingerprint)) == Some(r.key)
    ensures IngestFingerprint(PayloadWithIngest(r, fingerprint)) == Some(fingerprint)
  {
    KeyListsAreDistinct();
    var values := IngestValues(r, fingerprint);
    GetAfterPut(r.payload, "ingest", Obj(Zip(INGEST_KEYS, values)), "ingest");
    ZipLookup(INGEST_KEYS, values, 1);
    ZipLookup(INGEST_KEYS, values, 2);
  }

  /** The payload an import writes: the record's own, with one entry that names the key, the fingerprint,
      its version and the kind of source. */
  lemma IngestPayloadHolds(r: Record, fingerprint: string, key: string)
    ensures
      var payload := PayloadWithIngest(r, fingerprint);
      && (key != "ingest" ==> Get(payload, key) == Get(r.payload, key))
      && match Get(payload, "ingest")
         case Some(Obj(ms)) =>
           && |ms| == 4 && Get(ms, "idempotency_key") == Some(Str(r.key))
           && Get(ms, "record_fingerprint") == Some(Str(fingerprint))
           && Get(ms, "fingerprint_version") == Some(Str("actionlineage.dev/ingest-record-fingerprint-v1"))
           && Get(ms, "source_kind") == Some(Str(r.sourceKind))
         case _ => false
  {
    KeyListsAreDistinct();
    var values := IngestValues(r, fingerprint);
    GetAfterPut(r.payload, "ingest", Obj(Zip(INGEST_KEYS, values)), "ingest");
    GetAfterPut(r.payload, "ingest", Obj(Zip(INGEST_KEYS, values)), key);
    ZipLookup(INGEST_KEYS, values, 0);
    ZipLookup(INGEST_KEYS, values, 1);
    ZipLookup(INGEST_KEYS, values, 2);
    ZipLookup(INGEST_KEYS, values, 3);
  }

  /** The metadata is a dict like any other. */
  lemma IngestPayloadIsPython(r: Record, fingerprint: string)
    requires WellFormed(Obj(r.payload))
    ensures WellFormed(Obj(PayloadWithIngest(r, fingerprint)))
  {
    KeyListsAreDistinct();
    var values := IngestValues(r, fingerprint);
    ZipIsWellFormed(INGEST_KEYS, values);
    PutKeepsDistinct(r.payload, "ingest", Obj(Zip(INGEST_KEYS, values)));
  }

  // ---------------------------------------------------------------- what a fingerprint compares

  // Equality, types included, of everything two records are compared by.
  ghost predicate SameEvidence(d: Defaults, r: Record, q: Record) {
    && r.key == q.key && r.eventType == q.eventType && r.sourceKind == q.sourceKind && r.sortKey == q.sortKey
    && SameOr(r.source, q.source, d.source)
    && SameOr(r.principal, q.principal, d.principal)
    && SameOr(r.classification, q.classification, d.classification)
    && SameCompared(r, q)
  }

  ghost predicate SameOr(x: Option<Json>, y: Option<Json>, default: Json) {
    Same(OrDefault(x, default), OrDefault(y, default))
  }

  // What the payload holds under a key, but for the ingest entry and an entry by which the importing
  // service signs its own work.
  function ComparedAt(r: Record, key: string): Option<Json> {
    match Get(r.payload, key)
    case None => None
    case Some(v) =>
      if key == "ingest" then None
      else if key == "ingested_by" && v.Obj?
              && Get(v.members, "schema_version") == Some(Str("actionlineage.dev/ingestion-provenance-v1")) then None
      else Some(v)
  }

  ghost predicate SameCompared(r: Record, q: Record) { forall key :: SameUnder(r, q, key) }

  ghost predicate SameUnder(r: Record, q: Record, key: string) {
    match (ComparedAt(r, key), ComparedAt(q, key))
    case (None, None) => true
    case (Some(v), Some(w)) => Same(v, w)
    case _ => false
  }

  lemma {:induction false} WithoutGet(ms: seq<Member>, key: string, k: string)
    ensures Get(Without(ms, key), k) == if k == key then None else Get(ms, k)
  {
    if ms != [] {
      WithoutGet(ms[1..], key, k);
      if ms[0].key != key { assert Without(ms, key)[1..] == Without(ms[1..], key); }
    }
  }

  lemma ComparedGet(r: Record, key: string)
    ensures Get(ComparedPayload(r.payload), key) == ComparedAt(r, key)
  {
    WithoutGet(r.payload, "ingested_by", key);
    WithoutGet(r.payload, "ingest", key);
    WithoutGet(Without(r.payload, "ingested_by"), "ingest", key);
    assert "ingest"[0] == 'i' && |"ingest"| == 6 && |"ingested_by"| == 11;
  }

  ghost predicate PythonOption(x: Option<Json>) { x.Some? ==> WellFormed(x.value) }

  ghost predicate PythonRecord(r: Record) {
    WellFormed(Obj(r.payload)) && PythonOption(r.source) && PythonOption(r.principal)
    && PythonOption(r.classification)
  }

  ghost predicate PythonDefaults(d: Defaults) {
    WellFormed(d.correlation) && WellFormed(d.source) && WellFormed(d.principal) && WellFormed(d.classification)
  }

  lemma {:induction false} WithoutLooksUp(ms: seq<Member>, key: string)
    ensures forall m :: m in Without(ms, key) <==> m in ms && m.key != key
    ensures DistinctKeys(ms) ==> DistinctKeys(Without(ms, key))
  {
    if ms != [] {
      WithoutLooksUp(ms[1..], key);
      assert ms == [ms[0]] + ms[1..];
      forall m ensures m in Without(ms, key) <==> m in ms && m.key != key {}
      if DistinctKeys(ms) { forall m | m in ms[1..] ensures m.key != ms[0].key {} }
    }
  }

  lemma WithoutIsWellFormed(ms: seq<Member>, key: string)
    requires WellFormed(Obj(ms))
    ensures WellFormed(Obj(Without(ms, key)))
  {
    WithoutLooksUp(ms, key);
  }

  ghost predicate CanonAgree(vs: seq<Json>, ws: seq<Json>) {
    |vs| == |ws| && forall i | 0 <= i < |vs| :: Canon(vs[i]) == Canon(ws[i])
  }

  /** Two dict literals with the same keys are equal exactly when their values are, one by one. */
  lemma ZipCanon(keys: seq<string>, vs: seq<Json>, ws: seq<Json>)
    requires Distinct(keys) && |vs| == |keys| && |ws| == |keys|
    ensures Canon(Obj(Zip(keys, vs))) == Canon(Obj(Zip(keys, ws))) <==> CanonAgree(vs, ws)
  {
    forall i | 0 <= i < |keys| && Canon(Obj(Zip(keys, vs))) == Canon(Obj(Zip(keys, ws)))
      ensures Canon(vs[i]) == Canon(ws[i])
    {
      ZipLookup(keys, vs, i);
      ZipLookup(keys, ws, i);
    }
    if CanonAgree(vs, ws) { assert CanonMembers(Zip(keys, vs)) == CanonMembers(Zip(keys, ws)); }
  }

  lemma ComparedIsWellFormed(r: Record)
    requires PythonRecord(r)
    ensures WellFormed(Obj(ComparedPayload(r.payload)))
  {
    WithoutIsWellFormed(r.payload, "ingested_by");
    WithoutIsWellFormed(r.payload, "ingest");
    WithoutIsWellFormed(Without(r.payload, "ingested_by"), "ingest");
  }

  lemma PreimageIsWellFormed(d: Defaults, r: Record)
    requires PythonDefaults(d) && PythonRecord(r)
    ensures WellFormed(Preimage(d, r))
  {
    KeyListsAreDistinct();
    ComparedIsWellFormed(r);
    ZipIsWellFormed(PREIMAGE_KEYS, PreimageValues(d, r));
  }

  ghost predicate Agree(v: Json, w: Json) { Canon(v) == Canon(w) }

  lemma TenAgreeIff(vs: seq<Json>, ws: seq<Json>)
    requires |vs| == 10 && |ws| == 10
    ensures CanonAgree(vs, ws) <==>
      (Agree(vs[0], ws[0]) && Agree(vs[1], ws[1]) && Agree(vs[2], ws[2]) && Agree(vs[3], ws[3])
       && Agree(vs[4], ws[4]) && Agree(vs[5], ws[5]) && Agree(vs[6], ws[6]) && Agree(vs[7], ws[7])
       && Agree(vs[8], ws[8]) && Agree(vs[9], ws[9]))
  {
  }

  lemma TextsAgreeIff(a: string, b: string)
    ensures Agree(Str(a), Str(b)) <==> a == b
  {
  }

  lemma SameOrIff(x: Option<Json>, y: Option<Json>, default: Json)
    requires PythonOption(x) && PythonOption(y) && WellFormed(default)
    ensures SameOr(x, y, default) <==> Agree(OrDefault(x, default), OrDefault(y, default))
  {
    CanonDecidesSame(OrDefault(x, default), OrDefault(y, default));
  }

  lemma SameComparedIff(r: Record, q: Record)
    requires PythonRecord(r) && PythonRecord(q)
    ensures SameCompared(r, q) <==> Agree(Obj(ComparedPayload(r.payload)), Obj(ComparedPayload(q.payload)))
  {
    ComparedIsWellFormed(r);
    ComparedIsWellFormed(q);
    var v, w := Obj(ComparedPayload(r.payload)), Obj(ComparedPayload(q.payload));
    CanonDecidesSame(v, w);
    ObjectsAreSameIff(v, w);
    forall key ensures SameUnder(r, q, key) <==> SameAt(v, w, key) {
      ComparedGet(r, key);
      ComparedGet(q, key);
    }
  }

  lemma TextValuesAgreeIff(d: Defaults, r: Record, q: Record, vs: seq<Json>, ws: seq<Json>)
    requires vs == PreimageValues(d, r) && ws == PreimageValues(d, q)
    ensures |vs| == |ws| == 10 && Agree(vs[1], ws[1]) && Agree(vs[9], ws[9])
    ensures Agree(vs[2], ws[2]) <==> r.eventType == q.eventType
    ensures Agree(vs[3], ws[3]) <==> r.key == q.key
    ensures Agree(vs[6], ws[6]) <==> r.sortKey == q.sortKey
    ensures Agree(vs[8], ws[8]) <==> r.sourceKind == q.sourceKind
  {
    TextsAgreeIff(r.eventType, q.eventType);
    TextsAgreeIff(r.key, q.key);
    TextsAgreeIff(r.sortKey, q.sortKey);
    TextsAgreeIff(r.sourceKind, q.sourceKind);
  }

  lemma DictValuesAgreeIff(d: Defaults, r: Record, q: Record, vs: seq<Json>, ws: seq<Json>)
    requires PythonDefaults(d) && PythonRecord(r) && PythonRecord(q)
    requires vs == PreimageValues(d, r) && ws == PreimageValues(d, q)
    ensures |vs| == |ws| == 10
    ensures Agree(vs[0], ws[0]) <==> SameOr(r.classification, q.classification, d.classification)
    ensures Agree(vs[4], ws[4]) <==> SameCompared(r, q)
    ensures Agree(vs[5], ws[5]) <==> SameOr(r.principal, q.principal, d.principal)
    ensures Agree(vs[7], ws[7]) <==> SameOr(r.source, q.source, d.source)
  {
    SameComparedIff(r, q);
    SameOrIff(r.source, q.source, d.source);
    SameOrIff(r.principal, q.principal, d.principal);
    SameOrIff(r.classification, q.classification, d.classification);
  }

  lemma ValuesAgreeIff(d: Defaults, r: Record, q: Record)
    requires PythonDefaults(d) && PythonRecord(r) && PythonRecord(q)
    ensures CanonAgree(PreimageValues(d, r), PreimageValues(d, q)) <==> SameEvidence(d, r, q)
  {
    var vs, ws := PreimageValues(d, r), PreimageValues(d, q);
    TextValuesAgreeIff(d, r, q, vs, ws);
    DictValuesAgreeIff(d, r, q, vs, ws);
    TenAgreeIff(vs, ws);
  }

  /** Fingerprints agree exactly on the same evidence: the `ingest` entry and the importing service's
      own `ingested_by` entry are the only parts of a record they ignore. */
  lemma FingerprintsAgreeIff(digest: string -> string, d: Defaults, r: Record, q: Record)
    requires forall a, b | digest(a) == digest(b) :: a == b
    requires PythonDefaults(d) && PythonRecord(r) && PythonRecord(q)
    ensures Fingerprint(digest, d, r) == Fingerprint(digest, d, q) <==> SameEvidence(d, r, q)
  {
    PreimageIsWellFormed(d, r);
    PreimageIsWellFormed(d, q);
    var a, b := Preimage(d, r), Preimage(d, q);
    JsonText.PrintDecidesSame(a, b);
    CanonDecidesSame(a, b);
    KeyListsAreDistinct();
    ZipCanon(PREIMAGE_KEYS, PreimageValues(d, r), PreimageValues(d, q));
    ValuesAgreeIff(d, r, q);
  }

  /** Importing an imported payload again changes nothing a fingerprint sees. */
  lemma FingerprintIgnoresIngest(digest: string -> string, d: Defaults, r: Record, entry: Json)
    ensures ComparedPayload(Put(r.payload, "ingest", entry)) == ComparedPayload(r.payload)
    ensures Fingerprint(digest, d, r.(payload := Put(r.payload, "ingest", entry))) == Fingerprint(digest, d, r)
  {
    GetAfterPut(r.payload, "ingest", entry, "ingested_by");
    WithoutPut(r.payload, "ingest", entry, "ingested_by");
    WithoutPut(r.payload, "ingest", entry, "ingest");
    WithoutPut(Without(r.payload, "ingested_by"), "ingest", entry, "ingest");
    var q := r.(payload := Put(r.payload, "ingest", entry));
    assert PreimageValues(d, q) == PreimageValues(d, r);
  }

  lemma {:induction false} WithoutPut(ms: seq<Member>, key: string, value: Json, k: string)
    ensures k == key ==> Without(Put(ms, key, value), k) == Without(ms, k)
    ensures k != key ==> Without(Put(ms, key, value), k) == Put(Without(ms, k), key, value)
  {
    if ms != [] {
      WithoutPut(ms[1..], key, value, k);
      if ms[0].key == key {
        assert Put(ms, key, value)[1..] == ms[1..];
        assert k != key ==> Without(ms, k)[1..] == Without(ms[1..], k);
      } else {
        assert Put(ms, key, value)[1..] == Put(ms[1..], key, value);
        assert k != ms[0].key ==> Without(ms, k)[1..] == Without(ms[1..], k);
      }
    } else {
      assert Put(ms, key, value)[1..] == [];
    }
  }

  // ---------------------------------------------------------------- batch order

  predicate RecordLe(a: Record, b: Record) {
    if a.sortKey != b.sortKey then StringLe(a.sortKey, b.sortKey) else StringLe(a.key, b.key)
  }

  lemma RecordLeIsPreorder()
    ensures TotalPreorder(RecordLe)
  {
    forall x, y ensures RecordLe(x, y) || RecordLe(y, x) {
      StringLeIsTotal(x.sortKey, y.sortKey);
      StringLeIsTotal(x.key, y.key);
    }
    forall x, y, z | RecordLe(x, y) && RecordLe(y, z) ensures RecordLe(x, z) {
      StringLeIsTotal(x.sortKey, y.sortKey);
      if x.sortKey == y.sortKey && y.sortKey == z.sortKey {
        StringLeIsTransitive(x.key, y.key, z.key);
      } else {
        StringLeIsTotal(y.sortKey, y.sortKey);
        StringLeIsTransitive(x.sortKey, y.sortKey, z.sortKey);
      }
    }
  }

  function Ordered(records: seq<Record>): seq<Record> { Sort(records, RecordLe) }

  /** The order records are collected in does not matter when no two share both keys. */
  lemma OrderedIgnoresArrival(rs: seq<Record>, qs: seq<Record>)
    requires multiset(rs) == multiset(qs)
    requires forall r, q | r in rs && q in rs && r.sortKey == q.sortKey && r.key == q.key :: r == q
    ensures Ordered(rs) == Ordered(qs)
  {
    RecordLeIsPreorder();
    forall r, q | r in rs && q in rs && RecordLe(r, q) && RecordLe(q, r) ensures r == q {
      StringLeIsTotal(r.sortKey, q.sortKey);
      StringLeIsTotal(r.key, q.key);
    }
    SortIgnoresOrder(rs, qs, RecordLe);
  }
}
