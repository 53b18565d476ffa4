/** The redaction policy of the journal: an event's JSON is redacted, printed and read back. */
module Persistence {
  import opened JsonValues
  import opened Journal
  import opened DictFields
  import opened EventCodec
  import opened Redaction
  import opened RedactionPlaces
  import JsonText
  import JsonLimits

  // ---------------------------------------------------------------- JSON in and out of redaction

  function ToValue(v: Json): Value {
    match v
    case Null => Plain(Scalar.Null)
    case Bool(b) => Plain(Scalar.Bool(b))
    case Int(n) => Plain(Scalar.Int(n))
    case Str(s) => Text(s)
    case Arr(items) => List(ToValues(items))
    case Obj(ms) => Mapping(ToFields(ms))
  }

  function ToValues(items: seq<Json>): (r: seq<Value>)
    ensures |r| == |items| && forall i | 0 <= i < |r| :: r[i] == ToValue(items[i])
  {
    seq(|items|, i requires 0 <= i < |items| => ToValue(items[i]))
  }

  function ToFields(ms: seq<Member>): (r: seq<Field>)
    ensures |r| == |ms| && forall i | 0 <= i < |r| :: r[i] == Field(Name(ms[i].key), ToValue(ms[i].value))
  {
    seq(|ms|, i requires 0 <= i < |ms| => Field(Name(ms[i].key), ToValue(ms[i].value)))
  }

  const MARKER_KEYS: seq<string> := ["marker", "reason", "value"]

  const MARKER_VALUES: seq<Json> := [Str("actionlineage.redacted.v1"), Str("sensitive"), Str("[REDACTED:sensitive]")]

  const CAPTURE_KEYS: seq<string> :=
    ["marker", "encoding", "value", "original_length", "captured_length", "truncated", "digest", "digest_scope"]

  function CaptureValues(o: Out): seq<Json>
    requires o.Capture?
  {
    [ Str("actionlineage.capture.v1"), Str(if o.encoding.AsText? then "text" else "base64"), Str(o.value),
      Json.Int(o.originalLength), Json.Int(o.capturedLength), Json.Bool(o.truncated), Str(o.digest),
      Str("actionlineage.capture.v1/redaction-boundary") ]
  }

  function ScalarJson(s: Scalar): Json {
    match s
    case Null => Json.Null
    case Bool(b) => Json.Bool(b)
    case Int(n) => Json.Int(n)
  }

  function FromOut(o: Out): Json {
    match o
    case OutPlain(s) => ScalarJson(s)
    case OutText(t) => Str(t)
    case OutMapping(fields) => Obj(FromFields(fields))
    case OutList(items) => Arr(FromItems(items))
    case Sensitive => Obj(Zip(MARKER_KEYS, MARKER_VALUES))
    case Capture(_, _, _, _, _, _) => Obj(Zip(CAPTURE_KEYS, CaptureValues(o)))
  }

  function FromItems(items: seq<Out>): (r: seq<Json>)
    ensures |r| == |items| && forall i | 0 <= i < |r| :: r[i] == FromOut(items[i])
  {
    seq(|items|, i requires 0 <= i < |items| => FromOut(items[i]))
  }

  function FromFields(fields: seq<OutField>): (r: seq<Member>)
    ensures |r| == |fields| && forall i | 0 <= i < |r| :: r[i] == Member(fields[i].name, FromOut(fields[i].value))
  {
    seq(|fields|, i requires 0 <= i < |fields| => Member(fields[i].name, FromOut(fields[i].value)))
  }

  // ---------------------------------------------------------------- the journal's policy

  // What a Python event can be: no dict in it holds a key twice.
  predicate PythonEvent(e: Event) { WellFormed(EventJson(e)) }

  // Redact, print, parse. An event that cannot be normalized is refused like one that cannot be redacted.
  function Persist(parts: Context -> bool, policy: Policy): Event -> Persisted {
    (e: Event) => PersistOne(parts, policy, e)
  }

  function PersistOne(parts: Context -> bool, policy: Policy, e: Event): Persisted {
    if !PythonEvent(e) || !Fits(e) then Refused
    else match Apply(ToValue(EventJson(e)), policy)
      case None => Refused
      case Some(out) =>
        match Parse(parts, JsonText.Print(FromOut(out)))
        case None => Invalid
        case Some(r) => Kept(r)
  }

  lemma {:induction false} PersistParses(sha256: string -> string, parts: Context -> bool, policy: Policy)
    ensures Parses(Standard(sha256, parts), Persist(parts, policy))
  {
    TextsAreSound(parts);
  }

  // The pass without a budget.
  function FreePass(policy: Policy, e: Event): Pass<Out> {
    RedactValue(ToValue(EventJson(e)), [], policy, 0, Redaction.None)
  }

  /** The redaction of an event succeeds: the pass does, and its captures fit both limits. */
  predicate Redactable(policy: Policy, e: Event) {
    && policy.maxCaptureCount >= 0 && policy.maxCaptureBytes >= 0
    && FreePass(policy, e).Done?
    && CaptureCount(FreePass(policy, e).out) <= policy.maxCaptureCount
    && CaptureTotal(FreePass(policy, e).out) <= policy.maxCaptureBytes
  }

  lemma AppliedIff(policy: Policy, e: Event)
    ensures Apply(ToValue(EventJson(e)), policy)
         == if Redactable(policy, e) then Redaction.Some(FreePass(policy, e).out) else Redaction.None
  {
    if policy.maxCaptureCount >= 0 && policy.maxCaptureBytes >= 0 {
      ApplySucceedsIff(ToValue(EventJson(e)), policy);
    }
  }

  // ---------------------------------------------------------------- how redaction grows a value

  /** Markers and captures, which are dicts where a text or a secret was, lie above the full depth. */
  predicate MarkersAbove(o: Out, depth: nat) {
    match o
    case OutMapping(fields) => forall f | f in fields :: MarkersAbove(f.value, depth + 1)
    case OutList(items) => forall x | x in items :: MarkersAbove(x, depth + 1)
    case OutPlain(_) => true
    case OutText(_) => true
    case _ => depth < JsonLimits.MAX_DEPTH
  }

  lemma MarkerFits(o: Out, depth: nat)
    requires o.Sensitive? || o.Capture?
    ensures JsonLimits.WithinLimits(FromOut(o), depth) <==> MarkersAbove(o, depth)
  {
    match o
    case Sensitive =>
      assert FromOut(o).members[0] in FromOut(o).members;
      assert forall m | m in FromOut(o).members :: m.value.Str?;
    case Capture(_, _, _, _, _, _) =>
      var ms := FromOut(o).members;
      assert ms[0] in ms;
      forall m | m in ms ensures IsScalar(m.value) { var i :| 0 <= i < |ms| && ms[i] == m; }
  }

  /** A redacted value is within the limits the value met exactly when no marker or capture lies at the
      full depth. */
  lemma {:induction false} GrowthIff(v: Json, path: Path, policy: Policy, depth: nat, o: Out)
    requires JsonLimits.WithinLimits(v, depth)
    requires RedactValue(ToValue(v), path, policy, depth, Redaction.None) == Done(o, Redaction.None)
    ensures JsonLimits.WithinLimits(FromOut(o), depth) <==> MarkersAbove(o, depth)
    decreases v
  {
    if o.Sensitive? || o.Capture? {
      MarkerFits(o, depth);
    } else if v.Obj? {
      FieldsGrowthIff(v, path, policy, depth, o.fields);
    } else if v.Arr? {
      ItemsGrowthIff(v, path, policy, depth, o.items);
    }
  }

  lemma {:induction false} FieldsGrowthIff(v: Json, path: Path, policy: Policy, depth: nat, outs: seq<OutField>)
    requires v.Obj? && JsonLimits.WithinLimits(v, depth)
    requires RedactFields(ToFields(v.members), path, policy, depth + 1, Redaction.None) == Done(outs, Redaction.None)
    ensures JsonLimits.WithinLimits(FromOut(OutMapping(outs)), depth) <==> MarkersAbove(OutMapping(outs), depth)
    decreases v, 0
  {
    var ms := v.members;
    FieldsHaveLength(ToFields(ms), path, policy, depth + 1);
    forall i | 0 <= i < |ms|
      ensures JsonLimits.WithinLimits(FromFields(outs)[i].value, depth + 1) <==> MarkersAbove(outs[i].value, depth + 1)
    {
      FieldsOneByOne(ToFields(ms), path, policy, depth + 1, i);
      assert ms[i] in ms;
      GrowthIff(ms[i].value, path + [policy.lower(ms[i].key)], policy, depth + 1, outs[i].value);
    }
    AllByIndex(outs, depth + 1);
  }

  // Checks over all members, by place.
  lemma AllByIndex(outs: seq<OutField>, depth: nat)
    ensures (forall m | m in FromFields(outs) :: JsonLimits.WithinLimits(m.value, depth))
       <==> forall i | 0 <= i < |outs| :: JsonLimits.WithinLimits(FromFields(outs)[i].value, depth)
    ensures (forall f | f in outs :: MarkersAbove(f.value, depth))
       <==> forall i | 0 <= i < |outs| :: MarkersAbove(outs[i].value, depth)
  {
    var ms := FromFields(outs);
    if forall m | m in ms :: JsonLimits.WithinLimits(m.value, depth) {
      forall i | 0 <= i < |outs| ensures JsonLimits.WithinLimits(ms[i].value, depth) { assert ms[i] in ms; }
    }
  }

  lemma {:induction false} ItemsGrowthIff(v: Json, path: Path, policy: Policy, depth: nat, outs: seq<Out>)
    requires v.Arr? && JsonLimits.WithinLimits(v, depth)
    requires RedactItems(ToValues(v.items), path, policy, depth + 1, Redaction.None) == Done(outs, Redaction.None)
    ensures JsonLimits.WithinLimits(FromOut(OutList(outs)), depth) <==> MarkersAbove(OutList(outs), depth)
    decreases v, 0
  {
    var items := v.items;
    ItemsHaveLength(ToValues(v.items), path, policy, depth + 1);
    forall i | 0 <= i < |items|
      ensures JsonLimits.WithinLimits(FromItems(outs)[i], depth + 1) <==> MarkersAbove(outs[i], depth + 1)
    {
      ItemsOneByOne(ToValues(items), path, policy, depth + 1, i);
      assert items[i] in items;
      GrowthIff(items[i], path, policy, depth + 1, outs[i]);
    }
    ItemsByIndex(outs, depth + 1);
  }

  lemma ItemsByIndex(outs: seq<Out>, depth: nat)
    ensures (forall x | x in FromItems(outs) :: JsonLimits.WithinLimits(x, depth))
       <==> forall i | 0 <= i < |outs| :: JsonLimits.WithinLimits(FromItems(outs)[i], depth)
    ensures (forall x | x in outs :: MarkersAbove(x, depth)) <==> forall i | 0 <= i < |outs| :: MarkersAbove(outs[i], depth)
  {
    var js := FromItems(outs);
    if forall x | x in js :: JsonLimits.WithinLimits(x, depth) {
      forall i | 0 <= i < |outs| ensures JsonLimits.WithinLimits(js[i], depth) { assert js[i] in js; }
    }
  }

  // ---------------------------------------------------------------- redacted JSON is JSON

  lemma {:induction false} RedactedIsWellFormed(v: Json, path: Path, policy: Policy, depth: nat, o: Out)
    requires WellFormed(v)
    requires RedactValue(ToValue(v), path, policy, depth, Redaction.None) == Done(o, Redaction.None)
    ensures WellFormed(FromOut(o))
    decreases v
  {
    if o.Sensitive? || o.Capture? {
      MarkerIsWellFormed(o);
    } else if v.Obj? {
      var ms := v.members;
      FieldsHaveLength(ToFields(ms), path, policy, depth + 1);
      var js := FromFields(o.fields);
      forall i | 0 <= i < |ms| ensures js[i].key == ms[i].key && WellFormed(js[i].value) {
        FieldsOneByOne(ToFields(ms), path, policy, depth + 1, i);
        assert ms[i] in ms;
        RedactedIsWellFormed(ms[i].value, path + [policy.lower(ms[i].key)], policy, depth + 1, o.fields[i].value);
      }
    } else if v.Arr? {
      var items := v.items;
      ItemsHaveLength(ToValues(v.items), path, policy, depth + 1);
      var js := FromItems(o.items);
      forall i | 0 <= i < |items| ensures WellFormed(js[i]) {
        ItemsOneByOne(ToValues(v.items), path, policy, depth + 1, i);
        RedactedIsWellFormed(items[i], path, policy, depth + 1, o.items[i]);
      }
    }
  }

  lemma MarkerKeysAreDistinct()
    ensures Distinct(MARKER_KEYS) && Distinct(CAPTURE_KEYS)
  {
    var m, c := MARKER_KEYS, CAPTURE_KEYS;
    assert m[0][0] == 'm' && m[1][0] == 'r' && m[2][0] == 'v';
    assert |c[0]| == 6 && |c[1]| == 8 && |c[2]| == 5 && |c[3]| == 15 && |c[4]| == 15 && |c[5]| == 9 && |c[6]| == 6
        && |c[7]| == 12;
    assert c[0][0] == 'm' && c[6][0] == 'd' && c[3][0] == 'o' && c[4][0] == 'c';
  }

  lemma MarkerIsWellFormed(o: Out)
    requires o.Sensitive? || o.Capture?
    ensures WellFormed(FromOut(o))
  {
    MarkerKeysAreDistinct();
    if o.Sensitive? {
      ZipIsWellFormed(MARKER_KEYS, MARKER_VALUES);
    } else {
      ZipIsWellFormed(CAPTURE_KEYS, CaptureValues(o));
    }
  }

  /** What a reader finds in a marker and in a capture. */
  lemma MarkersRead(o: Out)
    requires o.Sensitive? || o.Capture?
    ensures FromOut(o).Obj?
    ensures o.Sensitive? ==>
      var ms := FromOut(o).members;
      && |ms| == 3 && GetOrNull(ms, "marker") == Str("actionlineage.redacted.v1")
      && GetOrNull(ms, "reason") == Str("sensitive") && GetOrNull(ms, "value") == Str("[REDACTED:sensitive]")
    ensures o.Capture? ==>
      var ms := FromOut(o).members;
      && |ms| == 8 && GetOrNull(ms, "marker") == Str("actionlineage.capture.v1")
      && GetOrNull(ms, "encoding") == Str(if o.encoding.AsText? then "text" else "base64")
      && GetOrNull(ms, "value") == Str(o.value) && GetOrNull(ms, "original_length") == Json.Int(o.originalLength)
      && GetOrNull(ms, "captured_length") == Json.Int(o.capturedLength)
      && GetOrNull(ms, "truncated") == Json.Bool(o.truncated) && GetOrNull(ms, "digest") == Str(o.digest)
  {
    MarkerKeysAreDistinct();
    if o.Sensitive? { MarkerHolds(); } else { CaptureHolds(o, CAPTURE_KEYS, CaptureValues(o)); }
  }

  lemma MarkerHolds()
    ensures
      var ms := FromOut(Sensitive).members;
      && |ms| == 3 && GetOrNull(ms, "marker") == Str("actionlineage.redacted.v1")
      && GetOrNull(ms, "reason") == Str("sensitive") && GetOrNull(ms, "value") == Str("[REDACTED:sensitive]")
  {
    MarkerKeysAreDistinct();
    ZipHolds(MARKER_KEYS, MARKER_VALUES);
    var k, v := MARKER_KEYS, MARKER_VALUES;
    var ms := Zip(k, v);
    assert HoldsAt(ms, k[0], v[0]) && HoldsAt(ms, k[1], v[1]) && HoldsAt(ms, k[2], v[2]);
  }

  lemma CaptureHolds(o: Out, k: seq<string>, v: seq<Json>)
    requires o.Capture? && k == CAPTURE_KEYS && v == CaptureValues(o) && Distinct(k)
    ensures
      var ms := Zip(k, v);
      && |ms| == 8 && GetOrNull(ms, "marker") == Str("actionlineage.capture.v1")
      && GetOrNull(ms, "encoding") == Str(if o.encoding.AsText? then "text" else "base64")
      && GetOrNull(ms, "value") == Str(o.value) && GetOrNull(ms, "original_length") == Json.Int(o.originalLength)
      && GetOrNull(ms, "captured_length") == Json.Int(o.capturedLength)
      && GetOrNull(ms, "truncated") == Json.Bool(o.truncated) && GetOrNull(ms, "digest") == Str(o.digest)
  {
    ZipHolds(k, v);
    var ms := Zip(k, v);
    assert HoldsAt(ms, k[0], v[0]) && HoldsAt(ms, k[1], v[1]) && HoldsAt(ms, k[2], v[2]) && HoldsAt(ms, k[3], v[3])
        && HoldsAt(ms, k[4], v[4]) && HoldsAt(ms, k[5], v[5]) && HoldsAt(ms, k[6], v[6]);
  }

  // ---------------------------------------------------------------- the event that is kept

  function RedactedValues(outs: seq<OutField>): (r: seq<Json>)
    ensures |r| == |outs| && forall i | 0 <= i < |r| :: r[i] == FromOut(outs[i].value)
  {
    seq(|outs|, i requires 0 <= i < |outs| => FromOut(outs[i].value))
  }

  // The fields of the redacted event.
  ghost predicate RedactsTo(policy: Policy, e: Event, outs: seq<OutField>) {
    && |outs| == 12
    && FreePass(policy, e) == Done(OutMapping(outs), Redaction.None)
    && forall i | 0 <= i < 12 ::
         outs[i].name == EVENT_KEYS[i]
         && RedactValue(ToValue(EventValues(e)[i]), [policy.lower(EVENT_KEYS[i])], policy, 1, Redaction.None)
            == Done(outs[i].value, Redaction.None)
  }

  // A dict with a field the event model does not know does not read as an event.
  lemma {:induction false} ForeignKeyIsInvalid(parts: Context -> bool, ms: seq<Member>, key: string)
    requires WellFormed(Obj(ms)) && Get(ms, key).Some? && key !in EVENT_KEYS
    ensures Parse(parts, JsonText.Print(Obj(ms))) == JsonValues.None
  {
    JsonText.PrintRoundTrip(Obj(ms), true);
    JsonText.CanonIsIdempotent(Obj(ms));
    GetCommutesWithCanon(ms, key);
    var cs := Canon(Obj(ms)).members;
    assert Member(key, Get(cs, key).value) in cs;
  }

  lemma MarkerDict() returns (ms: seq<Member>)
    ensures FromOut(Sensitive) == Obj(ms) && WellFormed(Obj(ms)) && Get(ms, "marker").Some?
  {
    ms := Zip(MARKER_KEYS, MARKER_VALUES);
    MarkerIsWellFormed(Sensitive);
    MarkerKeysAreDistinct();
    ZipLookup(MARKER_KEYS, MARKER_VALUES, 0);
  }

  lemma {:induction false} SensitiveRootIsInvalid(parts: Context -> bool)
    ensures Parse(parts, JsonText.Print(FromOut(Sensitive))) == JsonValues.None
  {
    var ms := MarkerDict();
    MarkerIsNoEventKey();
    ForeignKeyIsInvalid(parts, ms, "marker");
  }

  lemma MarkerIsNoEventKey()
    ensures "marker" !in EVENT_KEYS
  {
    var k := EVENT_KEYS;
    assert |"marker"| == 6 && "marker"[0] == 'm' && k[5][0] == 's' && |k[5]| == 6;
    assert |k[0]| == 12 && |k[1]| == 8 && |k[2]| == 10 && |k[3]| == 11 && |k[4]| == 11 && |k[6]| == 11 && |k[7]| == 9
        && |k[8]| == 9 && |k[9]| == 14 && |k[10]| == 7 && |k[11]| == 9;
  }

  lemma {:induction false} KeptText(parts: Context -> bool, policy: Policy, e: Event)
    requires PersistOne(parts, policy, e).Kept?
    ensures PythonEvent(e) && Fits(e) && FreePass(policy, e).Done? && FreePass(policy, e).budget.None?
    ensures Parse(parts, JsonText.Print(FromOut(FreePass(policy, e).out)))
         == JsonValues.Some(PersistOne(parts, policy, e).event)
  {
    AppliedIff(policy, e);
  }

  lemma DictPass(v: Json, path: Path, policy: Policy, depth: nat)
    requires v.Obj? && RedactValue(ToValue(v), path, policy, depth, Redaction.None).Done?
    ensures
      var out := RedactValue(ToValue(v), path, policy, depth, Redaction.None).out;
      (out.Sensitive? || out.OutMapping?) && FromOut(out).Obj?
  {
  }

  lemma {:induction false} ReadableIsDict(parts: Context -> bool, pass: Pass<Out>)
    requires pass.Done? && pass.budget.None? && (pass.out.Sensitive? || pass.out.OutMapping?)
    requires Parse(parts, JsonText.Print(FromOut(pass.out))).Some?
    ensures pass.out.OutMapping? && pass == Done(OutMapping(pass.out.fields), Redaction.None)
    ensures FromOut(pass.out) == Obj(FromFields(pass.out.fields))
  {
    SensitiveRootIsInvalid(parts);
  }

  // An event that is kept was redacted as a dict.
  lemma {:induction false} KeptOut(parts: Context -> bool, policy: Policy, e: Event) returns (outs: seq<OutField>)
    requires PersistOne(parts, policy, e).Kept?
    ensures FreePass(policy, e) == Done(OutMapping(outs), Redaction.None)
    ensures Parse(parts, JsonText.Print(Obj(FromFields(outs)))) == JsonValues.Some(PersistOne(parts, policy, e).event)
  {
    KeptText(parts, policy, e);
    DictPass(EventJson(e), [], policy, 0);
    ReadableIsDict(parts, FreePass(policy, e));
    outs := FreePass(policy, e).out.fields;
  }

  // What is read from the text of a well-formed dict.
  lemma {:induction false} ReadFromText(parts: Context -> bool, ms: seq<Member>, r: Event)
    requires WellFormed(Obj(ms)) && Parse(parts, JsonText.Print(Obj(ms))) == JsonValues.Some(r)
    ensures Fields(Canon(Obj(ms)).members) == Ok(r)
  {
    JsonText.PrintRoundTrip(Obj(ms), true);
    JsonText.CanonIsIdempotent(Obj(ms));
  }

  // It was redacted field by field, and its text read back.
  lemma {:induction false} KeptFields(parts: Context -> bool, policy: Policy, e: Event) returns (outs: seq<OutField>)
    requires PersistOne(parts, policy, e).Kept?
    ensures RedactsTo(policy, e, outs)
    ensures Fields(Written(EVENT_KEYS, RedactedValues(outs))) == Ok(PersistOne(parts, policy, e).event)
    ensures Holds(Written(EVENT_KEYS, RedactedValues(outs)), EVENT_KEYS, CanonAll(RedactedValues(outs)))
  {
    outs := KeptOut(parts, policy, e);
    OuterFields(policy, e, outs);
    RedactedIsWellFormed(EventJson(e), [], policy, 0, OutMapping(outs));
    ReadFromText(parts, FromFields(outs), PersistOne(parts, policy, e).event);
    SameAsZip(outs);
    KeysAreDistinct();
    WrittenHolds(EVENT_KEYS, RedactedValues(outs));
  }

  lemma SameAsZip(outs: seq<OutField>)
    requires |outs| == 12 && forall i | 0 <= i < 12 :: outs[i].name == EVENT_KEYS[i]
    ensures FromFields(outs) == Zip(EVENT_KEYS, RedactedValues(outs))
  {
  }

  lemma OuterFields(policy: Policy, e: Event, outs: seq<OutField>)
    requires FreePass(policy, e) == Done(OutMapping(outs), Redaction.None)
    ensures RedactsTo(policy, e, outs)
  {
    var fields := ToFields(EventJson(e).members);
    FieldsHaveLength(fields, [], policy, 1);
    forall i | 0 <= i < 12
      ensures outs[i].name == EVENT_KEYS[i]
      ensures RedactValue(ToValue(EventValues(e)[i]), [policy.lower(EVENT_KEYS[i])], policy, 1, Redaction.None)
           == Done(outs[i].value, Redaction.None)
    {
      FieldsOneByOne(fields, [], policy, 1, i);
      assert fields[i] == Field(Name(EVENT_KEYS[i]), ToValue(EventValues(e)[i]));
      assert [] + [policy.lower(EVENT_KEYS[i])] == [policy.lower(EVENT_KEYS[i])];
    }
  }

  lemma HeldPayload(ms: seq<Member>, values: seq<Json>)
    requires |values| == 12 && Holds(ms, EVENT_KEYS, values)
    ensures GetOrNull(ms, "payload") == values[10]
  {
    PayloadKey();
    assert HoldsAt(ms, EVENT_KEYS[10], values[10]);
  }

  lemma PayloadKey()
    ensures EVENT_KEYS[10] == "payload"
  {
  }

  lemma PayloadRead(ms: seq<Member>, v: Json)
    requires GetOrNull(ms, "payload") == v && v.Obj?
    ensures PayloadField(ms) == Ok(v.members)
  {
  }

  // The payload of the redacted event.
  lemma {:induction false} KeptPayload(ms: seq<Member>, rv: seq<Json>, r: Event)
    requires |rv| == 12 && Holds(ms, EVENT_KEYS, CanonAll(rv)) && Fields(ms) == Ok(r) && rv[10].Obj?
    ensures Canon(rv[10]) == Obj(r.payload)
  {
    AssembledFrom(ms);
    HeldPayload(ms, CanonAll(rv));
    PayloadRead(ms, Canon(rv[10]));
  }

  // What redaction made of the payload.
  function PayloadPass(policy: Policy, e: Event): Pass<Out> {
    RedactValue(ToValue(Obj(e.payload)), [policy.lower("payload")], policy, 1, Redaction.None)
  }

  lemma {:induction false} KeptPayloadPass(parts: Context -> bool, policy: Policy, e: Event)
    requires PersistOne(parts, policy, e).Kept?
    ensures PayloadPass(policy, e).Done? && PayloadPass(policy, e).budget.None?
    ensures Canon(FromOut(PayloadPass(policy, e).out)) == Obj(PersistOne(parts, policy, e).event.payload)
  {
    var outs := KeptFields(parts, policy, e);
    var rv := RedactedValues(outs);
    PayloadKey();
    assert EventValues(e)[10] == Obj(e.payload);
    DictPass(Obj(e.payload), [policy.lower("payload")], policy, 1);
    KeptPayload(Written(EVENT_KEYS, rv), rv, PersistOne(parts, policy, e).event);
  }

  lemma {:induction false} PayloadGrowthIff(policy: Policy, e: Event, po: Out, r: Event)
    requires Fits(e) && FlatContext(e.context) && FlatContext(r.context)
    requires PayloadPass(policy, e) == Done(po, Redaction.None) && Canon(FromOut(po)) == Obj(r.payload)
    ensures Fits(r) <==> MarkersAbove(po, 1)
  {
    FitsIff(e);
    FitsIff(r);
    GrowthIff(Obj(e.payload), [policy.lower("payload")], policy, 1, po);
    JsonLimits.CanonKeepsLimits(FromOut(po), 1);
  }

  /** A kept event can be serialized exactly when no marker or capture lies at the full depth of its
      payload. */
  lemma {:induction false} KeptFitsIff(parts: Context -> bool, policy: Policy, e: Event)
    requires PersistOne(parts, policy, e).Kept? && FlatContext(e.context)
    ensures PayloadPass(policy, e).Done?
    ensures Fits(PersistOne(parts, policy, e).event) <==> MarkersAbove(PayloadPass(policy, e).out, 1)
  {
    KeptPayloadPass(parts, policy, e);
    KeptText(parts, policy, e);
    KeptIsFlat(parts, policy, e);
    PayloadGrowthIff(policy, e, PayloadPass(policy, e).out, PersistOne(parts, policy, e).event);
  }

  lemma {:induction false} KeptIsFlat(parts: Context -> bool, policy: Policy, e: Event)
    requires PersistOne(parts, policy, e).Kept?
    ensures FlatContext(PersistOne(parts, policy, e).event.context)
  {
    AppliedIff(policy, e);
    TextsAreSound(parts);
  }

  // ---------------------------------------------------------------- when preparing raises

  /** Redaction turned something at the full depth of the payload into a dict, in an event that the
      event model and the hash still accept. */
  predicate Overgrown(parts: Context -> bool, policy: Policy, e: Event) {
    && PersistOne(parts, policy, e).Kept?
    && PersistOne(parts, policy, e).event.canonicalization == CANONICALIZATION_VERSION
    && PayloadPass(policy, e).Done? && !MarkersAbove(PayloadPass(policy, e).out, 1)
  }

  /** Preparing an event raises exactly when it nests too deep to be serialized, its redaction fails or
      captures too much, or redaction lets it grow past the limits. */
  lemma {:induction false} PrepareRefusesIff(
    sha256: string -> string, parts: Context -> bool, policy: Policy, e: Event, previous: JsonValues.Option<string>)
    requires e.canonicalization == CANONICALIZATION_VERSION && FlatContext(e.context)
    requires PythonEvent(e.(previousHash := previous, hash := JsonValues.None))
    ensures Prepare(Standard(sha256, parts), Persist(parts, policy), e, previous) == Persisted.Refused <==>
      (var sent := e.(previousHash := previous, hash := JsonValues.None);
       !JsonLimits.EventNormalizes(Obj(e.payload)) || !Redactable(policy, sent) || Overgrown(parts, policy, sent))
  {
    var sent := e.(previousHash := previous, hash := JsonValues.None);
    FitsIff(sent);
    AppliedIff(policy, sent);
    if PersistOne(parts, policy, sent).Kept? {
      var r := PersistOne(parts, policy, sent).event;
      KeptFitsIff(parts, policy, sent);
      KeptIsFlat(parts, policy, sent);
      FitsIff(r);
      FitsIff(r.(hash := JsonValues.None));
    }
  }

  // ---------------------------------------------------------------- what a policy leaves alone

  /** The policy leaves this text at this path as it is. */
  predicate Spares(policy: Policy, path: Path, s: string) {
    && !IsSensitive(path, policy) && policy.redactText(s) == s
    && (path in policy.captureExemptPaths || |s| <= policy.maxStringLength)
  }

  lemma SparedText(policy: Policy, path: Path, depth: nat, s: string)
    requires Spares(policy, path, s)
    requires RedactValue(Text(s), path, policy, depth, Redaction.None).Done?
    ensures FromOut(RedactValue(Text(s), path, policy, depth, Redaction.None).out) == Str(s)
  {
  }

  lemma SparedOptional(policy: Policy, path: Path, depth: nat, x: JsonValues.Option<string>)
    requires !IsSensitive(path, policy) && (x.Some? ==> Spares(policy, path, x.value))
    requires RedactValue(ToValue(OptionalStr(x)), path, policy, depth, Redaction.None).Done?
    ensures FromOut(RedactValue(ToValue(OptionalStr(x)), path, policy, depth, Redaction.None).out) == OptionalStr(x)
  {
    if x.Some? { SparedText(policy, path, depth, x.value); }
  }

  // A dict redacted field by field.
  ghost predicate Fieldwise(
    policy: Policy, keys: seq<string>, values: seq<Json>, path: Path, depth: nat, outs: seq<OutField>)
  {
    && |outs| == |keys| == |values|
    && forall i | 0 <= i < |outs| :: FieldwiseAt(policy, keys[i], values[i], path, depth, outs[i])
  }

  ghost predicate FieldwiseAt(policy: Policy, key: string, value: Json, path: Path, depth: nat, out: OutField) {
    && out.name == key
    && RedactValue(ToValue(value), path + [policy.lower(key)], policy, depth, Redaction.None)
       == Done(out.value, Redaction.None)
  }

  lemma {:induction false} DictIsFieldwise(
    policy: Policy, keys: seq<string>, values: seq<Json>, path: Path, depth: nat, o: Out)
    requires |keys| == |values| && !IsSensitive(path, policy)
    requires RedactValue(ToValue(Obj(Zip(keys, values))), path, policy, depth, Redaction.None)
          == Done(o, Redaction.None)
    ensures o.OutMapping? && Fieldwise(policy, keys, values, path, depth + 1, o.fields)
    ensures FromOut(o) == Obj(Zip(keys, RedactedValues(o.fields)))
  {
    var fields := ToFields(Zip(keys, values));
    assert ToValue(Obj(Zip(keys, values))) == Mapping(fields);
    FieldsHaveLength(fields, path, policy, depth + 1);
    forall i | 0 <= i < |keys| ensures FieldwiseAt(policy, keys[i], values[i], path, depth + 1, o.fields[i]) {
      FieldsOneByOne(fields, path, policy, depth + 1, i);
    }
    assert FromFields(o.fields) == Zip(keys, RedactedValues(o.fields));
  }

  // What a field of a redacted dict reads as.
  lemma {:induction false} DictFieldRead(
    policy: Policy, keys: seq<string>, values: seq<Json>, path: Path, depth: nat, o: Out, i: nat, field: Path)
    requires |keys| == |values| && i < |keys| && Distinct(keys) && !IsSensitive(path, policy)
    requires RedactValue(ToValue(Obj(Zip(keys, values))), path, policy, depth, Redaction.None)
          == Done(o, Redaction.None)
    requires field == path + [policy.lower(keys[i])]
    ensures
      var pass := RedactValue(ToValue(values[i]), field, policy, depth + 1, Redaction.None);
      && pass.Done? && Canon(FromOut(o)).Obj?
      && GetOrNull(Canon(FromOut(o)).members, keys[i]) == Canon(FromOut(pass.out))
  {
    DictIsFieldwise(policy, keys, values, path, depth, o);
    assert FieldwiseAt(policy, keys[i], values[i], path, depth + 1, o.fields[i]);
    var redacted := RedactedValues(o.fields);
    WrittenHolds(keys, redacted);
    assert HoldsAt(Written(keys, redacted), keys[i], CanonAll(redacted)[i]);
  }

  // ---------------------------------------------------------------- the chain fields

  function At(policy: Policy, outer: string): Path { [policy.lower(outer)] }

  function Inside(policy: Policy, outer: string, inner: string): Path {
    [policy.lower(outer), policy.lower(inner)]
  }

  function IntegrityPath(policy: Policy): Path { At(policy, "integrity") }

  function PreviousPath(policy: Policy): Path { Inside(policy, "integrity", "previous_event_hash") }

  function CausalityPath(policy: Policy): Path { At(policy, "causality") }

  function SequencePath(policy: Policy): Path { Inside(policy, "causality", "sequence") }

  /** The policy leaves sequences and hashes alone. */
  ghost predicate SparesChain(sha256: string -> string, policy: Policy) {
    && !IsSensitive(IntegrityPath(policy), policy) && !IsSensitive(PreviousPath(policy), policy)
    && (forall text :: Spares(policy, PreviousPath(policy), "sha256:" + sha256(text)))
    && !IsSensitive(CausalityPath(policy), policy) && !IsSensitive(SequencePath(policy), policy)
  }

  lemma HeldChainFields(ms: seq<Member>, values: seq<Json>)
    requires |values| == 12 && Holds(ms, EVENT_KEYS, values)
    ensures GetOrNull(ms, "causality") == values[7] && GetOrNull(ms, "integrity") == values[11]
  {
    var k := EVENT_KEYS;
    assert HoldsAt(ms, k[7], values[7]) && HoldsAt(ms, k[11], values[11]);
  }

  lemma {:induction false} IntegrityKept(policy: Policy, e: Event, io: Out)
    requires !IsSensitive(IntegrityPath(policy), policy) && !IsSensitive(PreviousPath(policy), policy)
    requires e.previousHash.Some? ==> Spares(policy, PreviousPath(policy), e.previousHash.value)
    requires RedactValue(ToValue(EventValues(e)[11]), IntegrityPath(policy), policy, 1, Redaction.None)
          == Done(io, Redaction.None)
    ensures Canon(FromOut(io)).Obj? && GetOrNull(Canon(FromOut(io)).members, "previous_event_hash") == OptionalStr(e.previousHash)
  {
    var keys, values := INTEGRITY_KEYS, IntegrityValues(e);
    KeysAreDistinct();
    DictFieldRead(policy, keys, values, IntegrityPath(policy), 1, io, 1, PreviousPath(policy));
    SparedOptional(policy, PreviousPath(policy), 2, e.previousHash);
  }

  lemma {:induction false} CausalityKept(policy: Policy, e: Event, co: Out)
    requires !IsSensitive(CausalityPath(policy), policy) && !IsSensitive(SequencePath(policy), policy)
    requires RedactValue(ToValue(EventValues(e)[7]), CausalityPath(policy), policy, 1, Redaction.None)
          == Done(co, Redaction.None)
    ensures Canon(FromOut(co)).Obj? && GetOrNull(Canon(FromOut(co)).members, "sequence") == Json.Int(e.sequence)
  {
    var keys, values := CAUSALITY_KEYS, CausalityValues(e);
    KeysAreDistinct();
    DictFieldRead(policy, keys, values, CausalityPath(policy), 1, co, 1, SequencePath(policy));
  }

  lemma SequenceRead(ms: seq<Member>)
    requires CausalityField(ms).Ok?
    ensures GetOrNull(ms, "causality").Obj?
    ensures GetOrNull(GetOrNull(ms, "causality").members, "sequence") == Json.Int(CausalityField(ms).value.sequence)
  {
  }

  lemma PreviousRead(ms: seq<Member>)
    requires IntegrityField(ms).Ok? && GetOrNull(ms, "integrity").Obj?
    ensures GetOrNull(GetOrNull(ms, "integrity").members, "previous_event_hash")
         == OptionalStr(IntegrityField(ms).value.previousHash)
  {
  }

  /** The journal's policy keeps the chain when it spares sequences and digests. */
  lemma {:induction false} PersistKeepsChainFields(sha256: string -> string, parts: Context -> bool, policy: Policy)
    requires SparesChain(sha256, policy)
    ensures KeepsChainFields(Standard(sha256, parts), Persist(parts, policy))
  {
    var c := Standard(sha256, parts);
    forall e | PersistOne(parts, policy, e).Kept? && Digested(c, e.previousHash)
      ensures PersistOne(parts, policy, e).event.previousHash == e.previousHash
      ensures PersistOne(parts, policy, e).event.sequence == e.sequence
    {
      KeptKeepsChain(sha256, parts, policy, e);
    }
  }

  lemma {:induction false} KeptKeepsChain(sha256: string -> string, parts: Context -> bool, policy: Policy, e: Event)
    requires SparesChain(sha256, policy)
    requires PersistOne(parts, policy, e).Kept? && Digested(Standard(sha256, parts), e.previousHash)
    ensures PersistOne(parts, policy, e).event.previousHash == e.previousHash
    ensures PersistOne(parts, policy, e).event.sequence == e.sequence
  {
    var outs := KeptFields(parts, policy, e);
    var ms := Written(EVENT_KEYS, RedactedValues(outs));
    assert e.previousHash.Some? ==> Spares(policy, PreviousPath(policy), e.previousHash.value);
    ChainKeys();
    IntegrityKept(policy, e, outs[11].value);
    CausalityKept(policy, e, outs[7].value);
    HeldChainFields(ms, CanonAll(RedactedValues(outs)));
    AssembledFrom(ms);
    SequenceRead(ms);
    PreviousRead(ms);
  }

  lemma ChainKeys()
    ensures EVENT_KEYS[7] == "causality" && EVENT_KEYS[11] == "integrity"
  {
  }

  // ---------------------------------------------------------------- events that are left as they are

  /** Nothing in the value is sensitive, and every text in it is spared. */
  predicate SparesAll(policy: Policy, v: Json, path: Path) {
    !IsSensitive(path, policy)
    && match v
       case Str(s) => Spares(policy, path, s)
       case Arr(items) => forall x | x in items :: SparesAll(policy, x, path)
       case Obj(ms) => forall m | m in ms :: SparesAll(policy, m.value, path + [policy.lower(m.key)])
       case _ => true
  }

  // Limits no tighter than the event model's.
  predicate Roomy(policy: Policy) {
    policy.maxJsonDepth >= JsonLimits.MAX_DEPTH && policy.maxObjectMembers >= JsonLimits.MAX_OBJECT_MEMBERS
    && policy.maxArrayLength >= JsonLimits.MAX_ARRAY_LENGTH && policy.maxStringLength >= 0
    && policy.maxCaptureCount >= 0 && policy.maxCaptureBytes >= 0
  }

  // The value comes out as it went in, and nothing is captured.
  ghost predicate Unchanged(p: Pass<Out>, v: Json) {
    p.Done? && p.budget.None? && FromOut(p.out) == v && CaptureCount(p.out) == 0 && CaptureTotal(p.out) == 0
  }

  lemma {:induction false} SparedPass(v: Json, path: Path, policy: Policy, depth: nat)
    requires SparesAll(policy, v, path) && Roomy(policy) && JsonLimits.WithinLimits(v, depth)
    ensures Unchanged(RedactValue(ToValue(v), path, policy, depth, Redaction.None), v)
    decreases v, 1
  {
    match v
    case Obj(ms) =>
      SparedFields(ms, path, policy, depth + 1);
      SparedDict(ms, path, policy, depth);
    case Arr(items) =>
      SparedItems(items, path, policy, depth + 1);
      SparedList(items, path, policy, depth);
    case _ => SparedScalar(v, path, policy, depth);
  }

  lemma SparedScalar(v: Json, path: Path, policy: Policy, depth: nat)
    requires !v.Obj? && !v.Arr? && SparesAll(policy, v, path) && Roomy(policy) && depth <= JsonLimits.MAX_DEPTH
    ensures Unchanged(RedactValue(ToValue(v), path, policy, depth, Redaction.None), v)
  {
  }

  // The fields come out as they went in.
  ghost predicate FieldsUnchanged(p: Pass<seq<OutField>>, ms: seq<Member>) {
    p.Done? && p.budget.None? && FromFields(p.out) == ms && FieldCaptureCount(p.out) == 0 && FieldCaptureTotal(p.out) == 0
  }

  ghost predicate ItemsUnchanged(p: Pass<seq<Out>>, items: seq<Json>) {
    p.Done? && p.budget.None? && FromItems(p.out) == items && ItemCaptureCount(p.out) == 0 && ItemCaptureTotal(p.out) == 0
  }

  lemma SparedDict(ms: seq<Member>, path: Path, policy: Policy, depth: nat)
    requires !IsSensitive(path, policy) && Roomy(policy) && depth <= JsonLimits.MAX_DEPTH
    requires |ms| <= JsonLimits.MAX_OBJECT_MEMBERS
    requires FieldsUnchanged(RedactFields(ToFields(ms), path, policy, depth + 1, Redaction.None), ms)
    ensures Unchanged(RedactValue(ToValue(Obj(ms)), path, policy, depth, Redaction.None), Obj(ms))
  {
    assert ToValue(Obj(ms)) == Mapping(ToFields(ms));
  }

  lemma SparedList(items: seq<Json>, path: Path, policy: Policy, depth: nat)
    requires !IsSensitive(path, policy) && Roomy(policy) && depth <= JsonLimits.MAX_DEPTH
    requires |items| <= JsonLimits.MAX_ARRAY_LENGTH
    requires ItemsUnchanged(RedactItems(ToValues(items), path, policy, depth + 1, Redaction.None), items)
    ensures Unchanged(RedactValue(ToValue(Arr(items)), path, policy, depth, Redaction.None), Arr(items))
  {
    assert ToValue(Arr(items)) == List(ToValues(items));
  }

  lemma OutGrows(before: seq<OutField>, out: OutField)
    ensures FromFields(before + [out]) == FromFields(before) + [Member(out.name, FromOut(out.value))]
    ensures FieldCaptureCount(before + [out]) == FieldCaptureCount(before) + CaptureCount(out.value)
    ensures FieldCaptureTotal(before + [out]) == FieldCaptureTotal(before) + CaptureTotal(out.value)
  {
    assert (before + [out])[..|before|] == before;
  }

  lemma {:induction false} FieldsGrow(init: seq<Member>, last: Member, path: Path, policy: Policy, depth: nat)
    requires FieldsUnchanged(RedactFields(ToFields(init), path, policy, depth, Redaction.None), init)
    requires Unchanged(
      RedactValue(ToValue(last.value), path + [policy.lower(last.key)], policy, depth, Redaction.None), last.value)
    ensures FieldsUnchanged(RedactFields(ToFields(init + [last]), path, policy, depth, Redaction.None), init + [last])
  {
    var fields, n := ToFields(init + [last]), |init|;
    assert fields[..n] == ToFields(init) && fields[n] == Field(Name(last.key), ToValue(last.value));
    var before := RedactFields(ToFields(init), path, policy, depth, Redaction.None).out;
    var out := OutField(last.key, RedactValue(ToValue(last.value), path + [policy.lower(last.key)], policy, depth,
                                              Redaction.None).out);
    assert RedactFields(fields, path, policy, depth, Redaction.None) == Done(before + [out], Redaction.None);
    OutGrows(before, out);
  }

  lemma {:induction false} SparedFields(ms: seq<Member>, path: Path, policy: Policy, depth: nat)
    requires Roomy(policy)
    requires forall m | m in ms ::
      SparesAll(policy, m.value, path + [policy.lower(m.key)]) && JsonLimits.WithinLimits(m.value, depth)
    ensures FieldsUnchanged(RedactFields(ToFields(ms), path, policy, depth, Redaction.None), ms)
    decreases ms, 0
  {
    if ms != [] {
      var init, last := ms[..|ms| - 1], ms[|ms| - 1];
      SparedFields(init, path, policy, depth);
      assert last in ms;
      SparedPass(last.value, path + [policy.lower(last.key)], policy, depth);
      FieldsGrow(init, last, path, policy, depth);
      assert init + [last] == ms;
    }
  }

  lemma {:induction false} SparedItems(items: seq<Json>, path: Path, policy: Policy, depth: nat)
    requires Roomy(policy)
    requires forall x | x in items :: SparesAll(policy, x, path) && JsonLimits.WithinLimits(x, depth)
    ensures ItemsUnchanged(RedactItems(ToValues(items), path, policy, depth, Redaction.None), items)
    decreases items, 0
  {
    if items != [] {
      var init, last := items[..|items| - 1], items[|items| - 1];
      SparedItems(init, path, policy, depth);
      assert last in items;
      SparedPass(last, path, policy, depth);
      assert ToValues(items)[..|items| - 1] == ToValues(init);
      var before := RedactItems(ToValues(init), path, policy, depth, Redaction.None).out;
      var out := RedactValue(ToValue(last), path, policy, depth, Redaction.None).out;
      assert (before + [out])[..|before|] == before;
      assert FromItems(before + [out]) == init + [last];
    }
  }

  lemma {:induction false} TextReadsInOrder(parts: Context -> bool, e: Event)
    requires PythonEvent(e) && Accepts(parts, InOrder(e))
    ensures Parse(parts, JsonText.Print(EventJson(e))) == JsonValues.Some(InOrder(e))
  {
    var v := EventJson(e);
    JsonText.PrintRoundTrip(v, true);
    JsonText.CanonIsIdempotent(v);
    EventReadsBack(e);
    assert Canon(v) == Obj(Written(EVENT_KEYS, EventValues(e)));
  }

  /** An event that the policy spares throughout is kept as it is. */
  lemma {:induction false} SparedIsKept(parts: Context -> bool, policy: Policy, e: Event)
    requires PythonEvent(e) && Fits(e) && Roomy(policy) && SparesAll(policy, EventJson(e), [])
    requires Accepts(parts, InOrder(e))
    ensures PersistOne(parts, policy, e) == Kept(InOrder(e))
  {
    SparedPass(EventJson(e), [], policy, 0);
    AppliedIff(policy, e);
    TextReadsInOrder(parts, e);
  }

  lemma {:induction false} InOrderFits(e: Event)
    requires FlatContext(e.context) && FlatContext(InOrder(e).context) && Fits(e)
    ensures Fits(InOrder(e).(hash := JsonValues.None))
  {
    FitsIff(e);
    FitsIff(InOrder(e).(hash := JsonValues.None));
    JsonLimits.CanonKeepsLimits(Obj(e.payload), 1);
  }
}
