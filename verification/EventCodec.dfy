/** Events as JSON text: what the event model writes, reads and accepts. SHA-256 and the checks of the
    sub-models an envelope carries are parameters. */
module EventCodec {
  import opened JsonValues
  import opened Journal
  import opened Normalization
  import opened DictFields
  import Sorting
  import JsonText
  import JsonLimits

  const SPEC_VERSION := "actionlineage.dev/v1alpha1"

  // ---------------------------------------------------------------- the JSON of an event

  const CAUSALITY_KEYS: seq<string> := ["root_event_id", "sequence", "parent_event_id"]

  function CausalityValues(e: Event): seq<Json> { [Str(e.root), Int(e.sequence), OptionalStr(e.parent)] }

  const INTEGRITY_KEYS: seq<string> := ["canonicalization", "previous_event_hash", "event_hash"]

  function IntegrityValues(e: Event): seq<Json> {
    [Str(e.canonicalization), OptionalStr(e.previousHash), OptionalStr(e.hash)]
  }

  const EVENT_KEYS: seq<string> :=
    [ "spec_version", "event_id", "event_type", "occurred_at", "observed_at", "source", "correlation", "causality",
      "principal", "classification", "payload", "integrity" ]

  function EventValues(e: Event): seq<Json> {
    [ Str(SPEC_VERSION), Str(e.id), Str(e.eventType), e.context.occurredAt, e.context.observedAt, e.context.source,
      e.context.correlation, Obj(Zip(CAUSALITY_KEYS, CausalityValues(e))), e.context.principal,
      e.context.classification, Obj(e.payload), Obj(Zip(INTEGRITY_KEYS, IntegrityValues(e))) ]
  }

  function EventJson(e: Event): Json { Obj(Zip(EVENT_KEYS, EventValues(e))) }

  // ---------------------------------------------------------------- reading

  // A model that forbids extra fields.
  predicate OnlyKeys(ms: seq<Member>, keys: seq<string>) { forall m | m in ms :: m.key in keys }

  function TextOf(v: Json): Loaded<string> { if v.Str? then Ok(v.s) else Malformed }

  function OptionalTextOf(v: Json): Loaded<Option<string>> {
    match v
    case Null => Ok(None)
    case Str(s) => Ok(Some(s))
    case _ => Malformed
  }

  function IntOf(v: Json): Loaded<int> { if v.Int? then Ok(v.n) else Malformed }

  function ObjectOf(v: Json): Loaded<seq<Member>> { if v.Obj? then Ok(v.members) else Malformed }

  datatype Causality = Causality(root: string, sequence: int, parent: Option<string>)

  function CausalityOf(ms: seq<Member>): Loaded<Causality> {
    if !OnlyKeys(ms, CAUSALITY_KEYS) then Malformed
    else
      var root :- TextOf(GetOrNull(ms, "root_event_id"));
      var sequence :- IntOf(GetOrNull(ms, "sequence"));
      var parent :- OptionalTextOf(GetOrNull(ms, "parent_event_id"));
      Ok(Causality(root, sequence, parent))
  }

  datatype Integrity = Integrity(canonicalization: string, previousHash: Option<string>, hash: Option<string>)

  function GetOr(ms: seq<Member>, key: string, default: Json): Json {
    match Get(ms, key) case None => default case Some(v) => v
  }

  function IntegrityOf(ms: seq<Member>): Loaded<Integrity> {
    if !OnlyKeys(ms, INTEGRITY_KEYS) then Malformed
    else
      var canonicalization :- TextOf(GetOr(ms, "canonicalization", Str(CANONICALIZATION_VERSION)));
      var previous :- OptionalTextOf(GetOrNull(ms, "previous_event_hash"));
      var hash :- OptionalTextOf(GetOrNull(ms, "event_hash"));
      Ok(Integrity(canonicalization, previous, hash))
  }

  datatype Head = Head(id: string, eventType: string)

  function HeadOf(ms: seq<Member>): Loaded<Head> {
    if GetOr(ms, "spec_version", Str(SPEC_VERSION)) != Str(SPEC_VERSION) then Malformed
    else
      var id :- TextOf(GetOrNull(ms, "event_id"));
      var eventType :- TextOf(GetOrNull(ms, "event_type"));
      Ok(Head(id, eventType))
  }

  function ContextOfFields(ms: seq<Member>): Context {
    Context(GetOrNull(ms, "correlation"), GetOrNull(ms, "source"), GetOrNull(ms, "principal"),
            GetOrNull(ms, "classification"), GetOrNull(ms, "occurred_at"), GetOrNull(ms, "observed_at"))
  }

  function CausalityField(ms: seq<Member>): Loaded<Causality> {
    var causality :- ObjectOf(GetOrNull(ms, "causality"));
    CausalityOf(causality)
  }

  function IntegrityField(ms: seq<Member>): Loaded<Integrity> {
    var integrity :- ObjectOf(GetOr(ms, "integrity", Obj([])));
    IntegrityOf(integrity)
  }

  function PayloadField(ms: seq<Member>): Loaded<seq<Member>> { ObjectOf(GetOr(ms, "payload", Obj([]))) }

  function Assembled(
    head: Loaded<Head>, context: Context, causality: Loaded<Causality>, payload: Loaded<seq<Member>>,
    integrity: Loaded<Integrity>): Loaded<Event>
  {
    var Head(id, eventType) :- head;
    var Causality(root, sequence, parent) :- causality;
    var ms :- payload;
    var Integrity(canonicalization, previousHash, hash) :- integrity;
    Ok(Event(id, eventType, sequence, root, parent, context, ms, canonicalization, previousHash, hash))
  }

  function Fields(ms: seq<Member>): Loaded<Event> {
    if !OnlyKeys(ms, EVENT_KEYS) then Malformed
    else Assembled(HeadOf(ms), ContextOfFields(ms), CausalityField(ms), PayloadField(ms), IntegrityField(ms))
  }

  // ---------------------------------------------------------------- what the model accepts

  predicate IsScalar(v: Json) { !v.Arr? && !v.Obj? }

  // A sub-model: at most five fields, none of them nested.
  predicate IsFlat(v: Json) { v.Obj? && |v.members| <= 5 && forall m | m in v.members :: IsScalar(m.value) }

  predicate FlatContext(c: Context) {
    IsFlat(c.correlation) && IsFlat(c.source) && IsFlat(c.principal) && IsFlat(c.classification)
    && c.occurredAt.Str? && c.observedAt.Str?
  }

  predicate Accepts(parts: Context -> bool, e: Event) {
    && EnvelopeAccepts(e) && e.previousHash != Some("") && e.hash != Some("")
    && FlatContext(e.context) && parts(e.context)
  }

  // The form in which events are held: no key twice, keys in order. Every Python event equals one.
  predicate InForm(v: Json) { WellFormed(v) && Canon(v) == v }

  predicate ContextInForm(c: Context) {
    InForm(c.correlation) && InForm(c.source) && InForm(c.principal) && InForm(c.classification)
    && InForm(c.occurredAt) && InForm(c.observedAt)
  }

  predicate EventInForm(e: Event) { ContextInForm(e.context) && InForm(Obj(e.payload)) }

  predicate Valid(parts: Context -> bool, e: Event) { Accepts(parts, e) && EventInForm(e) }

  function EventOf(parts: Context -> bool, v: Json): Option<Event> {
    match v
    case Obj(ms) =>
      (match Fields(ms)
       case Malformed => None
       case Ok(e) => if Accepts(parts, e) then Some(e) else None)
    case _ => None
  }

  function Parse(parts: Context -> bool, text: string): Option<Event> {
    match JsonText.Loads(text, true)
    case None => None
    case Some(v) => EventOf(parts, Canon(v))
  }

  function Serialize(e: Event): string { JsonText.Print(EventJson(e)) }

  predicate Fits(e: Event) { JsonLimits.WithinLimits(EventJson(e), 0) }

  /** The journal's codec. */
  function Standard(sha256: string -> string, parts: Context -> bool): Codec {
    Codec(Serialize, (text: string) => Parse(parts, text), (text: string) => "sha256:" + sha256(text),
          (e: Event) => Valid(parts, e), Fits)
  }

  // ---------------------------------------------------------------- reading back what was written

  lemma KeysAreDistinct()
    ensures Distinct(CAUSALITY_KEYS) && Distinct(INTEGRITY_KEYS) && Distinct(EVENT_KEYS)
  {
    var c, i, k := CAUSALITY_KEYS, INTEGRITY_KEYS, EVENT_KEYS;
    assert |c[0]| == 13 && |c[1]| == 8 && |c[2]| == 15 && |i[0]| == 16 && |i[1]| == 19 && |i[2]| == 10;
    assert |k[0]| == 12 && |k[1]| == 8 && |k[2]| == 10 && |k[3]| == 11 && |k[4]| == 11 && |k[5]| == 6 && |k[6]| == 11
        && |k[7]| == 9 && |k[8]| == 9 && |k[9]| == 14 && |k[10]| == 7 && |k[11]| == 9;
    assert k[3][1] == 'c' && k[4][1] == 'b' && k[6][1] == 'o';
    assert k[7][0] == 'c' && k[8][0] == 'p' && k[11][0] == 'i';
    assert k[3][0] == 'o' && k[6][0] == 'c';
  }

  // The members of a written dict, as parsed.
  function Written(keys: seq<string>, values: seq<Json>): seq<Member>
    requires |keys| == |values|
  {
    Canon(Obj(Zip(keys, values))).members
  }

  function CanonAll(values: seq<Json>): (r: seq<Json>)
    ensures |r| == |values| && forall i | 0 <= i < |r| :: r[i] == Canon(values[i])
  {
    seq(|values|, i requires 0 <= i < |values| => Canon(values[i]))
  }

  lemma WrittenHolds(keys: seq<string>, values: seq<Json>)
    requires |keys| == |values| && Distinct(keys)
    ensures Holds(Written(keys, values), keys, CanonAll(values)) && OnlyKeys(Written(keys, values), keys)
  {
    forall i | 0 <= i < |keys| { ZipLookup(keys, values, i); }
    var ms := Zip(keys, values);
    assert DistinctKeys(CanonMembers(ms));
    SortIsPermutationOfMembers(CanonMembers(ms));
    forall m | m in Written(keys, values) ensures m.key in keys {
      assert m in CanonMembers(ms);
      var i :| 0 <= i < |ms| && CanonMembers(ms)[i] == m;
      assert m.key == keys[i];
    }
  }

  lemma CausalityReadsBack(e: Event)
    ensures CausalityOf(Written(CAUSALITY_KEYS, CausalityValues(e))) == Ok(Causality(e.root, e.sequence, e.parent))
  {
    KeysAreDistinct();
    WrittenHolds(CAUSALITY_KEYS, CausalityValues(e));
    HeldCausality(Written(CAUSALITY_KEYS, CausalityValues(e)), e);
  }

  lemma HeldCausality(ms: seq<Member>, e: Event)
    requires Holds(ms, CAUSALITY_KEYS, CanonAll(CausalityValues(e))) && OnlyKeys(ms, CAUSALITY_KEYS)
    ensures CausalityOf(ms) == Ok(Causality(e.root, e.sequence, e.parent))
  {
    var k, v := CAUSALITY_KEYS, CanonAll(CausalityValues(e));
    assert HoldsAt(ms, k[0], v[0]) && HoldsAt(ms, k[1], v[1]) && HoldsAt(ms, k[2], v[2]);
  }

  lemma IntegrityReadsBack(e: Event)
    ensures IntegrityOf(Written(INTEGRITY_KEYS, IntegrityValues(e)))
         == Ok(Integrity(e.canonicalization, e.previousHash, e.hash))
  {
    KeysAreDistinct();
    WrittenHolds(INTEGRITY_KEYS, IntegrityValues(e));
    HeldIntegrity(Written(INTEGRITY_KEYS, IntegrityValues(e)), e);
  }

  lemma HeldIntegrity(ms: seq<Member>, e: Event)
    requires Holds(ms, INTEGRITY_KEYS, CanonAll(IntegrityValues(e))) && OnlyKeys(ms, INTEGRITY_KEYS)
    ensures IntegrityOf(ms) == Ok(Integrity(e.canonicalization, e.previousHash, e.hash))
  {
    var k, v := INTEGRITY_KEYS, CanonAll(IntegrityValues(e));
    assert HoldsAt(ms, k[0], v[0]) && HoldsAt(ms, k[1], v[1]) && HoldsAt(ms, k[2], v[2]);
  }

  // The members of an event's JSON, field by field.
  ghost predicate HeadReads(ms: seq<Member>, e: Event) {
    GetOrNull(ms, "spec_version") == Str(SPEC_VERSION) && GetOrNull(ms, "event_id") == Str(e.id)
    && GetOrNull(ms, "event_type") == Str(e.eventType)
  }

  ghost predicate ContextReads(ms: seq<Member>, c: Context) {
    GetOrNull(ms, "occurred_at") == Canon(c.occurredAt) && GetOrNull(ms, "observed_at") == Canon(c.observedAt)
    && GetOrNull(ms, "source") == Canon(c.source) && GetOrNull(ms, "correlation") == Canon(c.correlation)
    && GetOrNull(ms, "principal") == Canon(c.principal) && GetOrNull(ms, "classification") == Canon(c.classification)
  }

  ghost predicate BodyReads(ms: seq<Member>, e: Event) {
    GetOrNull(ms, "causality") == Obj(Written(CAUSALITY_KEYS, CausalityValues(e)))
    && GetOrNull(ms, "payload") == Canon(Obj(e.payload))
    && GetOrNull(ms, "integrity") == Obj(Written(INTEGRITY_KEYS, IntegrityValues(e)))
  }

  lemma HeldHead(ms: seq<Member>, e: Event)
    requires Holds(ms, EVENT_KEYS, CanonAll(EventValues(e)))
    ensures HeadReads(ms, e)
  {
    var k, v := EVENT_KEYS, CanonAll(EventValues(e));
    assert HoldsAt(ms, k[0], v[0]) && HoldsAt(ms, k[1], v[1]) && HoldsAt(ms, k[2], v[2]);
  }

  lemma HeldContext(ms: seq<Member>, e: Event)
    requires Holds(ms, EVENT_KEYS, CanonAll(EventValues(e)))
    ensures ContextReads(ms, e.context)
  {
    var k, v := EVENT_KEYS, CanonAll(EventValues(e));
    assert HoldsAt(ms, k[3], v[3]) && HoldsAt(ms, k[4], v[4]) && HoldsAt(ms, k[5], v[5]) && HoldsAt(ms, k[6], v[6])
        && HoldsAt(ms, k[8], v[8]) && HoldsAt(ms, k[9], v[9]);
  }

  lemma HeldBody(ms: seq<Member>, e: Event)
    requires Holds(ms, EVENT_KEYS, CanonAll(EventValues(e)))
    ensures BodyReads(ms, e)
  {
    var k, v := EVENT_KEYS, CanonAll(EventValues(e));
    assert HoldsAt(ms, k[7], v[7]) && HoldsAt(ms, k[10], v[10]) && HoldsAt(ms, k[11], v[11]);
  }

  function ContextInOrder(c: Context): Context {
    Context(Canon(c.correlation), Canon(c.source), Canon(c.principal), Canon(c.classification),
            Canon(c.occurredAt), Canon(c.observedAt))
  }

  // The event that canonical members read as.
  function InOrder(e: Event): Event {
    e.(context := ContextInOrder(e.context), payload := Canon(Obj(e.payload)).members)
  }

  lemma BodyReadsBack(ms: seq<Member>, e: Event)
    requires BodyReads(ms, e)
    ensures CausalityField(ms) == Ok(Causality(e.root, e.sequence, e.parent))
    ensures IntegrityField(ms) == Ok(Integrity(e.canonicalization, e.previousHash, e.hash))
    ensures PayloadField(ms) == Ok(Canon(Obj(e.payload)).members)
  {
    CausalityReadsBack(e);
    IntegrityReadsBack(e);
  }

  lemma HeadReadsBack(ms: seq<Member>, e: Event)
    requires HeadReads(ms, e)
    ensures HeadOf(ms) == Ok(Head(e.id, e.eventType))
  {
  }

  /** Whatever the event, its JSON reads back as the event with its keys in order. */
  lemma EventReadsBack(e: Event)
    ensures Fields(Written(EVENT_KEYS, EventValues(e))) == Ok(InOrder(e))
  {
    var ms := Written(EVENT_KEYS, EventValues(e));
    KeysAreDistinct();
    WrittenHolds(EVENT_KEYS, EventValues(e));
    HeldHead(ms, e);
    HeldContext(ms, e);
    HeldBody(ms, e);
    HeadReadsBack(ms, e);
    BodyReadsBack(ms, e);
  }

  lemma InFormIsInOrder(e: Event)
    requires EventInForm(e)
    ensures InOrder(e) == e
  {
  }

  // ---------------------------------------------------------------- the codec is sound

  lemma ScalarsAreInForm(e: Event)
    ensures forall i | 0 <= i < 3 :: WellFormed(CausalityValues(e)[i]) && WellFormed(IntegrityValues(e)[i])
  {
  }

  // The parts of an event are Python values.
  predicate PythonContext(c: Context) {
    WellFormed(c.correlation) && WellFormed(c.source) && WellFormed(c.principal) && WellFormed(c.classification)
    && WellFormed(c.occurredAt) && WellFormed(c.observedAt)
  }

  lemma EventIsWellFormed(e: Event)
    requires PythonContext(e.context) && WellFormed(Obj(e.payload))
    ensures WellFormed(EventJson(e))
  {
    KeysAreDistinct();
    ScalarsAreInForm(e);
    ZipIsWellFormed(CAUSALITY_KEYS, CausalityValues(e));
    ZipIsWellFormed(INTEGRITY_KEYS, IntegrityValues(e));
    ValuesAreWellFormed(e, Obj(Zip(CAUSALITY_KEYS, CausalityValues(e))), Obj(Zip(INTEGRITY_KEYS, IntegrityValues(e))));
    ZipIsWellFormed(EVENT_KEYS, EventValues(e));
  }

  lemma ValuesAreWellFormed(e: Event, causality: Json, integrity: Json)
    requires PythonContext(e.context) && WellFormed(Obj(e.payload)) && WellFormed(causality) && WellFormed(integrity)
    requires causality == EventValues(e)[7] && integrity == EventValues(e)[11]
    ensures forall i | 0 <= i < 12 :: WellFormed(EventValues(e)[i])
  {
  }

  /** A valid event's text parses back to the event. */
  lemma TextReadsBack(parts: Context -> bool, e: Event)
    requires Valid(parts, e)
    ensures Parse(parts, Serialize(e)) == Some(e)
  {
    var v := EventJson(e);
    EventIsWellFormed(e);
    JsonText.PrintRoundTrip(v, true);
    JsonText.CanonIsIdempotent(v);
    EventReadsBack(e);
    InFormIsInOrder(e);
    assert Canon(v) == Obj(Written(EVENT_KEYS, EventValues(e)));
  }

  /** An event's text is one line. */
  lemma TextIsOneLine(e: Event)
    ensures Serialize(e) != "" && '\n' !in Serialize(e)
  {
    var v := Canon(EventJson(e));
    JsonText.EmitStarts(v, "");
    JsonText.EmitIsOneLine(v, "");
    forall i | 0 <= i < |Serialize(e)| ensures Serialize(e)[i] != '\n' { assert Serialize(e)[i] as int >= 0x20; }
  }

  // A value held by a dict in form is in form.
  lemma FieldInForm(ms: seq<Member>, m: Member)
    requires InForm(Obj(ms)) && m in ms
    ensures InForm(m.value)
  {
    var cs := CanonMembers(ms);
    assert DistinctKeys(cs);
    SortIsPermutationOfMembers(cs);
    assert m in cs;
    var i :| 0 <= i < |cs| && cs[i] == m;
    assert cs[i] == Member(ms[i].key, Canon(ms[i].value));
    assert ms[i] in ms;
    JsonText.CanonIsIdempotent(ms[i].value);
  }

  lemma LookupInForm(ms: seq<Member>, key: string)
    requires InForm(Obj(ms))
    ensures InForm(GetOrNull(ms, key))
    ensures forall default | InForm(default) :: InForm(GetOr(ms, key, default))
  {
    match Get(ms, key)
    case Some(v) => FieldInForm(ms, Member(key, v));
    case None =>
  }

  lemma EmptyIsInForm()
    ensures InForm(Obj([]))
  {
    assert CanonMembers([]) == [];
  }

  lemma ContextFieldsInForm(ms: seq<Member>)
    requires InForm(Obj(ms))
    ensures ContextInForm(ContextOfFields(ms))
  {
    LookupInForm(ms, "correlation");
    LookupInForm(ms, "source");
    LookupInForm(ms, "principal");
    LookupInForm(ms, "classification");
    LookupInForm(ms, "occurred_at");
    LookupInForm(ms, "observed_at");
  }

  // An event that is assembled from its fields holds each of them.
  lemma AssembledHolds(
    head: Loaded<Head>, context: Context, causality: Loaded<Causality>, payload: Loaded<seq<Member>>,
    integrity: Loaded<Integrity>)
    requires Assembled(head, context, causality, payload, integrity).Ok?
    ensures
      var e := Assembled(head, context, causality, payload, integrity).value;
      && head == Ok(Head(e.id, e.eventType)) && e.context == context
      && causality == Ok(Causality(e.root, e.sequence, e.parent)) && payload == Ok(e.payload)
      && integrity == Ok(Integrity(e.canonicalization, e.previousHash, e.hash))
  {
    var h, c, i := head.value, causality.value, integrity.value;
    assert h == Head(h.id, h.eventType) && c == Causality(c.root, c.sequence, c.parent);
    assert i == Integrity(i.canonicalization, i.previousHash, i.hash);
  }

  lemma AssembledFrom(ms: seq<Member>)
    requires Fields(ms).Ok?
    ensures
      var e := Fields(ms).value;
      && HeadOf(ms) == Ok(Head(e.id, e.eventType)) && e.context == ContextOfFields(ms)
      && CausalityField(ms) == Ok(Causality(e.root, e.sequence, e.parent)) && PayloadField(ms) == Ok(e.payload)
      && IntegrityField(ms) == Ok(Integrity(e.canonicalization, e.previousHash, e.hash))
  {
    AssembledHolds(HeadOf(ms), ContextOfFields(ms), CausalityField(ms), PayloadField(ms), IntegrityField(ms));
  }

  lemma FieldsAreInForm(ms: seq<Member>)
    requires InForm(Obj(ms)) && Fields(ms).Ok?
    ensures EventInForm(Fields(ms).value)
  {
    EmptyIsInForm();
    LookupInForm(ms, "payload");
    ContextFieldsInForm(ms);
    AssembledFrom(ms);
  }

  /** What parses is valid. */
  lemma ParsedIsValid(parts: Context -> bool, text: string)
    requires Parse(parts, text).Some?
    ensures Valid(parts, Parse(parts, text).value)
  {
    var v := JsonText.Loads(text, true).value;
    JsonText.LoadsIsWellFormed(text, true);
    CanonIsWellFormed(v);
    JsonText.CanonIsIdempotent(v);
    FieldsAreInForm(Canon(v).members);
  }

  lemma FlatFits(v: Json)
    requires IsFlat(v)
    ensures JsonLimits.WithinLimits(v, 1)
  {
  }

  /** An event can be serialized exactly when its payload, one level down, is within the limits. */
  lemma FitsIff(e: Event)
    requires FlatContext(e.context)
    ensures Fits(e) <==> JsonLimits.EventNormalizes(Obj(e.payload))
  {
    var values := EventValues(e);
    FlatFits(e.context.correlation);
    FlatFits(e.context.source);
    FlatFits(e.context.principal);
    FlatFits(e.context.classification);
    assert IsFlat(values[7]) && IsFlat(values[11]);
    FlatFits(values[7]);
    FlatFits(values[11]);
    OtherFieldsFit(e);
    var ms := Zip(EVENT_KEYS, values);
    assert values[10] == Obj(e.payload) && ms[10] in ms && ms[10].value == values[10];
    if JsonLimits.EventNormalizes(Obj(e.payload)) {
      forall m | m in ms ensures JsonLimits.WithinLimits(m.value, 1) {
        var i :| 0 <= i < |ms| && ms[i] == m;
        assert m.value == values[i];
      }
    }
  }

  lemma OtherFieldsFit(e: Event)
    requires FlatContext(e.context)
    requires JsonLimits.WithinLimits(e.context.correlation, 1) && JsonLimits.WithinLimits(e.context.source, 1)
    requires JsonLimits.WithinLimits(e.context.principal, 1) && JsonLimits.WithinLimits(e.context.classification, 1)
    requires JsonLimits.WithinLimits(EventValues(e)[7], 1) && JsonLimits.WithinLimits(EventValues(e)[11], 1)
    ensures forall i | 0 <= i < 12 && i != 10 :: JsonLimits.WithinLimits(EventValues(e)[i], 1)
  {
  }

  lemma IntegrityCanBeReplaced(parts: Context -> bool, e: Event, p: Option<string>, h: Option<string>)
    requires Valid(parts, e)
    ensures p != Some("") && h != Some("") ==> Valid(parts, e.(previousHash := p, hash := h))
    ensures Fits(e.(previousHash := p, hash := h)) == Fits(e)
  {
    FitsIff(e);
    FitsIff(e.(previousHash := p, hash := h));
  }

  lemma TextsAreSound(parts: Context -> bool)
    ensures forall e | Valid(parts, e) ::
      Parse(parts, Serialize(e)) == Some(e) && Serialize(e) != "" && '\n' !in Serialize(e)
    ensures forall text | Parse(parts, text).Some? :: Valid(parts, Parse(parts, text).value)
  {
    forall e | Valid(parts, e)
      ensures Parse(parts, Serialize(e)) == Some(e) && Serialize(e) != "" && '\n' !in Serialize(e)
    {
      TextReadsBack(parts, e);
      TextIsOneLine(e);
    }
    forall text | Parse(parts, text).Some? ensures Valid(parts, Parse(parts, text).value) { ParsedIsValid(parts, text); }
  }

  /** The journal's codec keeps every promise the journal relies on, whatever the hash function and the
      sub-models are. */
  lemma StandardIsSound(sha256: string -> string, parts: Context -> bool)
    ensures Standard(sha256, parts).Sound()
  {
    TextsAreSound(parts);
    forall e, p, h | Valid(parts, e)
      ensures p != Some("") && h != Some("") ==> Valid(parts, e.(previousHash := p, hash := h))
      ensures Fits(e.(previousHash := p, hash := h)) == Fits(e)
    {
      IntegrityCanBeReplaced(parts, e, p, h);
    }
  }

  /** Distinct texts have distinct digests when SHA-256 has no collisions. */
  lemma StandardIsCollisionFree(sha256: string -> string, parts: Context -> bool)
    requires forall a, b | sha256(a) == sha256(b) :: a == b
    ensures Standard(sha256, parts).CollisionFree()
  {
    var c := Standard(sha256, parts);
    forall a, b | c.digest(a) == c.digest(b) ensures a == b {
      assert ("sha256:" + sha256(a))[7..] == sha256(a) && ("sha256:" + sha256(b))[7..] == sha256(b);
    }
  }
}
