/** Which dicts read as which events, field by field, and what an event's JSON holds. */
module EventReading {
  import opened JsonValues
  import opened DictFields
  import opened Journal
  import opened Normalization
  import opened EventCodec
  import opened EventContents
  import JsonLimits

  // ---------------------------------------------------------------- reading

  predicate TextAt(v: Option<Json>, s: string) { v == Some(Str(s)) }

  predicate MaybeTextAt(v: Option<Json>, x: Option<string>) {
    match x case None => Missing(v) case Some(s) => TextAt(v, s)
  }

  // A dict without other keys than these.
  predicate NoOthers(ms: seq<Member>, keys: set<string>) { forall m | m in ms :: m.key in keys }

  predicate CausalityReads(ms: seq<Member>, e: Event) {
    && NoOthers(ms, {"root_event_id", "sequence", "parent_event_id"})
    && TextAt(Get(ms, "root_event_id"), e.root) && Get(ms, "sequence") == Some(Int(e.sequence))
    && MaybeTextAt(Get(ms, "parent_event_id"), e.parent)
  }

  // The default version when none is given.
  predicate VersionReads(v: Option<Json>, version: string) {
    TextAt(v, version) || (v == None && version == "actionlineage.dev/json-deterministic-v0")
  }

  predicate IntegrityReads(ms: seq<Member>, e: Event) {
    && NoOthers(ms, {"canonicalization", "previous_event_hash", "event_hash"})
    && VersionReads(Get(ms, "canonicalization"), e.canonicalization)
    && MaybeTextAt(Get(ms, "previous_event_hash"), e.previousHash) && MaybeTextAt(Get(ms, "event_hash"), e.hash)
  }

  predicate HeadReads(ms: seq<Member>, e: Event) {
    && (Get(ms, "spec_version") == None || TextAt(Get(ms, "spec_version"), "actionlineage.dev/v1alpha1"))
    && TextAt(Get(ms, "event_id"), e.id) && TextAt(Get(ms, "event_type"), e.eventType)
  }

  // A part of the context, null when it is missing.
  predicate PartAt(v: Option<Json>, part: Json) { v == Some(part) || (v == None && part == Null) }

  predicate ContextReads(ms: seq<Member>, c: Context) {
    && PartAt(Get(ms, "occurred_at"), c.occurredAt) && PartAt(Get(ms, "observed_at"), c.observedAt)
    && PartAt(Get(ms, "source"), c.source) && PartAt(Get(ms, "correlation"), c.correlation)
    && PartAt(Get(ms, "principal"), c.principal) && PartAt(Get(ms, "classification"), c.classification)
  }

  // An object under a key; where it may be left out, an empty one.
  predicate ObjectAt(v: Option<Json>, ms: seq<Member>) { v == Some(Obj(ms)) || (v == None && ms == []) }

  ghost predicate EventReads(ms: seq<Member>, e: Event) {
    && NoOthers(ms, { "spec_version", "event_id", "event_type", "occurred_at", "observed_at", "source", "correlation",
                      "causality", "principal", "classification", "payload", "integrity" })
    && HeadReads(ms, e) && ContextReads(ms, e.context) && ObjectAt(Get(ms, "payload"), e.payload)
    && (exists inner :: Get(ms, "causality") == Some(Obj(inner)) && CausalityReads(inner, e))
    && (exists inner :: ObjectAt(Get(ms, "integrity"), inner) && IntegrityReads(inner, e))
  }

  lemma CausalityIff(ms: seq<Member>, e: Event)
    ensures CausalityReads(ms, e) <==> CausalityOf(ms) == Ok(Causality(e.root, e.sequence, e.parent))
  {
    SameKeys(ms, CAUSALITY_KEYS, {"root_event_id", "sequence", "parent_event_id"});
  }

  lemma VersionIff(ms: seq<Member>, version: string)
    ensures VersionReads(Get(ms, "canonicalization"), version)
       <==> EventCodec.TextOf(GetOr(ms, "canonicalization", Str(CANONICALIZATION_VERSION))) == Ok(version)
  {
  }

  lemma MaybeTextIff(ms: seq<Member>, key: string, x: Option<string>)
    ensures MaybeTextAt(Get(ms, key), x) <==> OptionalTextOf(GetOrNull(ms, key)) == Ok(x)
  {
  }

  lemma IntegrityIff(ms: seq<Member>, e: Event)
    ensures IntegrityReads(ms, e) <==> IntegrityOf(ms) == Ok(Integrity(e.canonicalization, e.previousHash, e.hash))
  {
    SameKeys(ms, INTEGRITY_KEYS, {"canonicalization", "previous_event_hash", "event_hash"});
    VersionIff(ms, e.canonicalization);
    MaybeTextIff(ms, "previous_event_hash", e.previousHash);
    MaybeTextIff(ms, "event_hash", e.hash);
  }

  lemma SameKeys(ms: seq<Member>, keys: seq<string>, names: set<string>)
    requires forall k :: k in keys <==> k in names
    ensures OnlyKeys(ms, keys) <==> NoOthers(ms, names)
  {
  }

  lemma HeadIff(ms: seq<Member>, e: Event)
    ensures HeadReads(ms, e) <==> HeadOf(ms) == Ok(Head(e.id, e.eventType))
  {
  }

  lemma ContextIff(ms: seq<Member>, c: Context)
    ensures ContextReads(ms, c) <==> ContextOfFields(ms) == c
  {
  }

  lemma CausalityFieldIff(ms: seq<Member>, e: Event)
    ensures (exists inner :: Get(ms, "causality") == Some(Obj(inner)) && CausalityReads(inner, e))
       <==> CausalityField(ms) == Ok(Causality(e.root, e.sequence, e.parent))
  {
    if Get(ms, "causality").Some? && Get(ms, "causality").value.Obj? {
      CausalityIff(Get(ms, "causality").value.members, e);
    }
  }

  lemma IntegrityFieldIff(ms: seq<Member>, e: Event)
    ensures (exists inner :: ObjectAt(Get(ms, "integrity"), inner) && IntegrityReads(inner, e))
       <==> IntegrityField(ms) == Ok(Integrity(e.canonicalization, e.previousHash, e.hash))
  {
    match Get(ms, "integrity")
    case None =>
      IntegrityIff([], e);
      assert ObjectAt(Get(ms, "integrity"), []);
    case Some(Obj(inner)) =>
      IntegrityIff(inner, e);
      assert ObjectAt(Get(ms, "integrity"), inner);
    case _ =>
  }

  lemma AssembledIff(
    head: Loaded<Head>, context: Context, causality: Loaded<Causality>, payload: Loaded<seq<Member>>,
    integrity: Loaded<Integrity>, e: Event)
    ensures Assembled(head, context, causality, payload, integrity) == Ok(e) <==>
      (head == Ok(Head(e.id, e.eventType)) && e.context == context
       && causality == Ok(Causality(e.root, e.sequence, e.parent)) && payload == Ok(e.payload)
       && integrity == Ok(Integrity(e.canonicalization, e.previousHash, e.hash)))
  {
    if Assembled(head, context, causality, payload, integrity) == Ok(e) {
      AssembledHolds(head, context, causality, payload, integrity);
    }
  }

  lemma {:induction false} FieldsIff(ms: seq<Member>, e: Event)
    ensures Fields(ms) == Ok(e) <==> EventReads(ms, e)
  {
    SameKeys(ms, EVENT_KEYS, { "spec_version", "event_id", "event_type", "occurred_at", "observed_at", "source",
                               "correlation", "causality", "principal", "classification", "payload", "integrity" });
    HeadIff(ms, e);
    ContextIff(ms, e.context);
    CausalityFieldIff(ms, e);
    IntegrityFieldIff(ms, e);
    AssembledIff(HeadOf(ms), ContextOfFields(ms), CausalityField(ms), PayloadField(ms), IntegrityField(ms), e);
  }

  // A dict of at most five fields, none of them nested.
  predicate FlatDict(v: Json) {
    v.Obj? && |v.members| <= 5 && forall m | m in v.members :: !m.value.Arr? && !m.value.Obj?
  }

  // What the event model asks of an event: of its envelope, its hashes and its sub-models.
  ghost predicate Acceptable(parts: Context -> bool, e: Event) {
    && Envelope(e.id, e.eventType, e.payload, e.root, e.parent) && e.sequence >= 0
    && e.previousHash != Some("") && e.hash != Some("")
    && FlatDict(e.context.correlation) && FlatDict(e.context.source) && FlatDict(e.context.principal)
    && FlatDict(e.context.classification) && e.context.occurredAt.Str? && e.context.observedAt.Str?
    && parts(e.context)
  }

  lemma EnvelopeIff(e: Event)
    ensures EnvelopeAccepts(e) <==> Envelope(e.id, e.eventType, e.payload, e.root, e.parent) && e.sequence >= 0
  {
    JsonLimits.LimitsMeanHeight(Obj(e.payload), 0);
  }

  lemma FlatIff(c: Context)
    ensures FlatContext(c) <==>
      (FlatDict(c.correlation) && FlatDict(c.source) && FlatDict(c.principal) && FlatDict(c.classification)
       && c.occurredAt.Str? && c.observedAt.Str?)
  {
  }

  lemma {:induction false} AcceptsIff(parts: Context -> bool, e: Event)
    ensures Accepts(parts, e) <==> Acceptable(parts, e)
  {
    EnvelopeIff(e);
    FlatIff(e.context);
  }

  /** A dict reads as an event exactly when every field is the event's and the model accepts the event. */
  lemma {:induction false} EventReadsIff(parts: Context -> bool, ms: seq<Member>, e: Event)
    ensures EventOf(parts, Obj(ms)) == Some(e) <==> EventReads(ms, e) && Acceptable(parts, e)
  {
    FieldsIff(ms, e);
    AcceptsIff(parts, e);
    assert EventOf(parts, Obj(ms)) == Some(e) <==> Fields(ms) == Ok(e) && Accepts(parts, e);
  }

  // ---------------------------------------------------------------- writing

  ghost predicate CausalityWritten(ms: seq<Member>, e: Event) {
    && |ms| == 3 && Entry(ms, "root_event_id", Str(e.root)) && Entry(ms, "sequence", Int(e.sequence))
    && Entry(ms, "parent_event_id", OptionalStr(e.parent))
  }

  ghost predicate IntegrityWritten(ms: seq<Member>, e: Event) {
    && |ms| == 3 && Entry(ms, "canonicalization", Str(e.canonicalization))
    && Entry(ms, "previous_event_hash", OptionalStr(e.previousHash)) && Entry(ms, "event_hash", OptionalStr(e.hash))
  }

  lemma CausalityIsWritten(e: Event)
    ensures CausalityWritten(Zip(CAUSALITY_KEYS, CausalityValues(e)), e)
  {
    var k, v := CAUSALITY_KEYS, CausalityValues(e);
    KeysAreDistinct();
    ZipHasEntries(k, v);
    assert Entry(Zip(k, v), k[0], v[0]) && Entry(Zip(k, v), k[1], v[1]) && Entry(Zip(k, v), k[2], v[2]);
  }

  lemma IntegrityIsWritten(e: Event)
    ensures IntegrityWritten(Zip(INTEGRITY_KEYS, IntegrityValues(e)), e)
  {
    var k, v := INTEGRITY_KEYS, IntegrityValues(e);
    KeysAreDistinct();
    ZipHasEntries(k, v);
    assert Entry(Zip(k, v), k[0], v[0]) && Entry(Zip(k, v), k[1], v[1]) && Entry(Zip(k, v), k[2], v[2]);
  }

  ghost predicate EnvelopeWritten(ms: seq<Member>, e: Event) {
    && Entry(ms, "spec_version", Str("actionlineage.dev/v1alpha1")) && Entry(ms, "event_id", Str(e.id))
    && Entry(ms, "event_type", Str(e.eventType)) && Entry(ms, "payload", Obj(e.payload))
  }

  ghost predicate ContextWritten(ms: seq<Member>, c: Context) {
    && Entry(ms, "occurred_at", c.occurredAt) && Entry(ms, "observed_at", c.observedAt)
    && Entry(ms, "source", c.source) && Entry(ms, "correlation", c.correlation)
    && Entry(ms, "principal", c.principal) && Entry(ms, "classification", c.classification)
  }

  ghost predicate HasEntries(ms: seq<Member>, e: Event) {
    |ms| == 12 && forall i | 0 <= i < 12 :: Entry(ms, EVENT_KEYS[i], EventValues(e)[i])
  }

  lemma {:induction false} EventHasEntries(e: Event)
    ensures EventJson(e).Obj? && HasEntries(EventJson(e).members, e)
  {
    KeysAreDistinct();
    ZipHasEntries(EVENT_KEYS, EventValues(e));
  }

  lemma EnvelopeIsWritten(ms: seq<Member>, e: Event)
    requires HasEntries(ms, e)
    ensures EnvelopeWritten(ms, e)
  {
    var k, v := EVENT_KEYS, EventValues(e);
    assert Entry(ms, k[0], v[0]) && Entry(ms, k[1], v[1]) && Entry(ms, k[2], v[2]) && Entry(ms, k[10], v[10]);
  }

  lemma ContextIsWritten(ms: seq<Member>, e: Event)
    requires HasEntries(ms, e)
    ensures ContextWritten(ms, e.context)
  {
    var k, v := EVENT_KEYS, EventValues(e);
    assert Entry(ms, k[3], v[3]) && Entry(ms, k[4], v[4]) && Entry(ms, k[5], v[5]) && Entry(ms, k[6], v[6])
        && Entry(ms, k[8], v[8]) && Entry(ms, k[9], v[9]);
  }

  ghost predicate LinksWritten(ms: seq<Member>, e: Event) {
    exists causality, integrity ::
      && Entry(ms, "causality", Obj(causality)) && CausalityWritten(causality, e)
      && Entry(ms, "integrity", Obj(integrity)) && IntegrityWritten(integrity, e)
  }

  lemma LinksAreWritten(ms: seq<Member>, e: Event, causality: seq<Member>, integrity: seq<Member>)
    requires HasEntries(ms, e)
    requires EventValues(e)[7] == Obj(causality) && CausalityWritten(causality, e)
    requires EventValues(e)[11] == Obj(integrity) && IntegrityWritten(integrity, e)
    ensures LinksWritten(ms, e)
  {
    var k, v := EVENT_KEYS, EventValues(e);
    assert Entry(ms, k[7], v[7]) && Entry(ms, k[11], v[11]);
  }

  lemma {:induction false} LinksOfEvent(ms: seq<Member>, e: Event)
    requires HasEntries(ms, e)
    ensures LinksWritten(ms, e)
  {
    CausalityIsWritten(e);
    IntegrityIsWritten(e);
    LinksAreWritten(ms, e, Zip(CAUSALITY_KEYS, CausalityValues(e)), Zip(INTEGRITY_KEYS, IntegrityValues(e)));
  }

  /** The JSON of an event has its twelve entries, absent texts as null, and nothing else. */
  lemma {:induction false} EventIsWritten(e: Event)
    ensures EventJson(e).Obj? && |EventJson(e).members| == 12
    ensures EnvelopeWritten(EventJson(e).members, e) && ContextWritten(EventJson(e).members, e.context)
    ensures LinksWritten(EventJson(e).members, e)
  {
    EventHasEntries(e);
    var ms := EventJson(e).members;
    EnvelopeIsWritten(ms, e);
    ContextIsWritten(ms, e);
    LinksOfEvent(ms, e);
  }
}
