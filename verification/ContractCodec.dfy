/** Lineage contracts as JSON objects. Every requirement of a contract is a record of a fixed shape. */
module ContractCodec {
  import opened JsonValues
  import opened DictFields
  import opened Sorting

  // ---------------------------------------------------------------- records of a shape

  datatype Kind =
    | Required
    | Optional
    | WithDefault(text: string)
    | ListOf(texts: seq<string>)
    | Number
    | Flag(on: bool)

  datatype Field = Field(key: string, kind: Kind)

  type Shape = seq<Field>

  datatype FieldValue = Text(s: string) | Maybe(x: Option<string>) | Texts(xs: seq<string>) | Amount(n: int) | Switch(b: bool)

  type Row = seq<FieldValue>

  predicate Typed(kind: Kind, v: FieldValue) {
    match kind
    case Required => v.Text?
    case WithDefault(d) => v.Text? && d != ""
    case Optional => v.Maybe?
    case ListOf(_) => v.Texts?
    case Number => v.Amount?
    case Flag(_) => v.Switch?
  }

  // What the type of a requirement's fields says.
  predicate TypedRow(shape: Shape, row: Row) {
    |row| == |shape| && forall i | 0 <= i < |row| :: Typed(shape[i].kind, row[i])
  }

  function Write(v: FieldValue): Json {
    match v
    case Text(s) => Str(s)
    case Maybe(x) => OptionalStr(x)
    case Texts(xs) => StrList(xs)
    case Amount(n) => Int(n)
    case Switch(b) => Bool(b)
  }

  // A lone text counts as a list of one.
  function ReadTexts(v: Json): Loaded<seq<string>> {
    match v
    case Null => Ok([])
    case Str(s) => Ok([s])
    case Arr(items) => DictFields.Texts(items)
    case _ => Malformed
  }

  // Python's bool().
  predicate Truthy(v: Json) {
    match v
    case Null => false
    case Bool(b) => b
    case Int(n) => n != 0
    case Str(s) => s != ""
    case Arr(items) => items != []
    case Obj(ms) => ms != []
  }

  function StringOrNone(v: Json): Option<string> { if v.Str? && v.s != "" then Some(v.s) else None }

  function OrNull(v: Option<Json>): Json { match v case None => Null case Some(j) => j }

  // A missing list or flag takes its default; an empty text counts as missing; a bool is a number.
  function Read(kind: Kind, v: Option<Json>): Loaded<FieldValue> {
    match kind
    case Required => (match StringOrNone(OrNull(v)) case None => Malformed case Some(s) => Ok(Text(s)))
    case Optional => Ok(Maybe(StringOrNone(OrNull(v))))
    case WithDefault(d) => Ok(Text(match StringOrNone(OrNull(v)) case None => d case Some(s) => s))
    case ListOf(d) =>
      if v.None? then Ok(Texts(d))
      else
        var xs :- ReadTexts(v.value);
        Ok(Texts(xs))
    case Number =>
      (match OrNull(v)
       case Int(n) => Ok(Amount(n))
       case Bool(b) => Ok(Amount(if b then 1 else 0))
       case _ => Malformed)
    case Flag(d) => Ok(Switch(match v case None => d case Some(j) => Truthy(j)))
  }

  // No text in it is empty.
  predicate Stated(v: FieldValue) {
    match v
    case Text(s) => s != ""
    case Maybe(x) => x != Some("")
    case Texts(xs) => NonEmpty(xs)
    case _ => true
  }

  lemma FieldRoundTripIff(kind: Kind, v: FieldValue)
    requires Typed(kind, v)
    ensures Read(kind, Some(Write(v))) == Ok(v) <==> Stated(v)
  {
    if v.Texts? { TextsRoundTrip(v.xs); }
  }

  function KeysOf(shape: Shape): seq<string> { seq(|shape|, i requires 0 <= i < |shape| => shape[i].key) }

  function WriteAll(row: Row): (r: seq<Json>)
    ensures |r| == |row| && forall i | 0 <= i < |r| :: r[i] == Write(row[i])
  {
    seq(|row|, i requires 0 <= i < |row| => Write(row[i]))
  }

  function RowToDict(shape: Shape, row: Row): seq<Member> {
    if |row| == |shape| then Zip(KeysOf(shape), WriteAll(row)) else []
  }

  // All results, or none when one is malformed.
  function Sequence<T>(xs: seq<Loaded<T>>): Loaded<seq<T>> {
    if forall i | 0 <= i < |xs| :: xs[i].Ok?
    then Ok(seq(|xs|, i requires 0 <= i < |xs| => assert xs[i].Ok?; xs[i].value))
    else Malformed
  }

  lemma SequenceIff<T>(xs: seq<Loaded<T>>, vs: seq<T>)
    requires |xs| == |vs|
    ensures Sequence(xs) == Ok(vs) <==> forall i | 0 <= i < |xs| :: xs[i] == Ok(vs[i])
  {
    if Sequence(xs) == Ok(vs) {
      forall i | 0 <= i < |xs| ensures xs[i] == Ok(vs[i]) { assert Sequence(xs).value[i] == vs[i]; }
    }
    if forall i | 0 <= i < |xs| :: xs[i] == Ok(vs[i]) { assert Sequence(xs).value == vs; }
  }

  function ReadFields(shape: Shape, ms: seq<Member>): (r: seq<Loaded<FieldValue>>)
    ensures |r| == |shape| && forall i | 0 <= i < |r| :: r[i] == Read(shape[i].kind, Get(ms, shape[i].key))
  {
    seq(|shape|, i requires 0 <= i < |shape| => Read(shape[i].kind, Get(ms, shape[i].key)))
  }

  function RowFromDict(shape: Shape, ms: seq<Member>): Loaded<Row> { Sequence(ReadFields(shape, ms)) }

  predicate StatedRow(row: Row) { forall i | 0 <= i < |row| :: Stated(row[i]) }

  /** A record got back as itself exactly when all its texts are non-empty. */
  lemma {:induction false} RowRoundTripIff(shape: Shape, row: Row)
    requires TypedRow(shape, row) && Distinct(KeysOf(shape))
    ensures RowFromDict(shape, RowToDict(shape, row)) == Ok(row) <==> StatedRow(row)
  {
    var got := ReadFields(shape, RowToDict(shape, row));
    SequenceIff(got, row);
    forall i | 0 <= i < |shape| ensures got[i] == Ok(row[i]) <==> Stated(row[i]) {
      ZipLookup(KeysOf(shape), WriteAll(row), i);
      FieldRoundTripIff(shape[i].kind, row[i]);
    }
  }

  // ---------------------------------------------------------------- the requirements of a contract

  const EVENT: Shape := [Field("type", Required), Field("requiredFields", ListOf([]))]

  const RELATIONSHIP: Shape :=
    [Field("child", Required), Field("parent", Required), Field("referenceField", Optional)]

  const EVIDENCE_LINK: Shape :=
    [ Field("eventType", WithDefault("side_effect.verified")), Field("subjectEventType", Optional),
      Field("evidenceEventType", Optional), Field("relationship", Optional), Field("verificationStatus", Optional),
      Field("corroborationTypes", ListOf([])), Field("observerIdentity", Optional) ]

  const LATENCY: Shape :=
    [ Field("startEventType", Required), Field("endEventType", Required), Field("maxSeconds", Number),
      Field("groupBy", ListOf(["correlation.run_id"])) ]

  const DESCRIPTOR: Shape :=
    [ Field("eventType", Required), Field("descriptorHashField", WithDefault("payload.tool_identity.descriptor_hash")),
      Field("toolNameField", WithDefault("payload.tool_identity.name")), Field("hashPrefix", WithDefault("sha256:")) ]

  const DETECTION: Shape :=
    [ Field("ruleId", Required), Field("required", Flag(true)), Field("requiredEventTypes", ListOf([])),
      Field("requiredVerificationStatuses", ListOf([])) ]

  const VERIFICATION: Shape := [Field("allowedStatuses", ListOf([])), Field("requiredStatus", Optional)]

  const INTEGRITY: Shape := [Field("hashChainRequired", Flag(true))]

  datatype Section = Section(key: string, shape: Shape)

  // The lists of requirements, in the order of a contract's fields.
  const SECTIONS: seq<Section> :=
    [ Section("events", EVENT), Section("relationships", RELATIONSHIP), Section("evidenceLinks", EVIDENCE_LINK),
      Section("latency", LATENCY), Section("descriptors", DESCRIPTOR), Section("detections", DETECTION) ]

  // requirements[i] holds the rows of section i.
  datatype Contract = Contract(
    name: string,
    requirements: seq<seq<Row>>,
    allowedStatuses: set<string>,
    requiredStatus: Option<string>,
    hashChainRequired: bool)

  predicate TypedRows(shape: Shape, rows: seq<Row>) { forall i | 0 <= i < |rows| :: TypedRow(shape, rows[i]) }

  predicate TypedSections(sections: seq<Section>, lists: seq<seq<Row>>) {
    |lists| == |sections| && forall i | 0 <= i < |lists| :: TypedRows(sections[i].shape, lists[i])
  }

  predicate StatedRows(rows: seq<Row>) { forall i | 0 <= i < |rows| :: StatedRow(rows[i]) }

  predicate StatedLists(lists: seq<seq<Row>>) { forall i | 0 <= i < |lists| :: StatedRows(lists[i]) }

  function SectionJson(section: Section, rows: seq<Row>): Json {
    ObjList(rows, (row: Row) => RowToDict(section.shape, row))
  }

  function SectionOf(section: Section, v: Json): Loaded<seq<Row>> {
    match v
    case Null => Ok([])
    case Arr(items) => Objects(items, (ms: seq<Member>) => RowFromDict(section.shape, ms))
    case _ => Malformed
  }

  lemma SectionRoundTripIff(section: Section, rows: seq<Row>)
    requires TypedRows(section.shape, rows) && Distinct(KeysOf(section.shape))
    ensures SectionOf(section, SectionJson(section, rows)) == Ok(rows) <==> StatedRows(rows)
  {
    var to, from := (row: Row) => RowToDict(section.shape, row), (ms: seq<Member>) => RowFromDict(section.shape, ms);
    ObjectsRoundTrip(rows, to, from);
    forall i | 0 <= i < |rows| ensures from(to(rows[i])) == Ok(rows[i]) <==> StatedRow(rows[i]) {
      RowRoundTripIff(section.shape, rows[i]);
    }
  }

  function ReadSections(sections: seq<Section>, ms: seq<Member>): (r: seq<Loaded<seq<Row>>>)
    ensures |r| == |sections|
    ensures forall i | 0 <= i < |r| :: r[i] == SectionOf(sections[i], GetOrNull(ms, sections[i].key))
  {
    seq(|sections|, i requires 0 <= i < |sections| => SectionOf(sections[i], GetOrNull(ms, sections[i].key)))
  }

  function SectionsOf(sections: seq<Section>, ms: seq<Member>): Loaded<seq<seq<Row>>> {
    Sequence(ReadSections(sections, ms))
  }

  // A section is written under its key.
  ghost predicate SectionHeld(ms: seq<Member>, section: Section, rows: seq<Row>) {
    TypedRows(section.shape, rows) && Distinct(KeysOf(section.shape))
    && GetOrNull(ms, section.key) == SectionJson(section, rows)
  }

  ghost predicate SectionsHeld(ms: seq<Member>, sections: seq<Section>, lists: seq<seq<Row>>) {
    |lists| == |sections| && forall i | 0 <= i < |lists| :: SectionHeld(ms, sections[i], lists[i])
  }

  lemma SectionsRoundTripIff(sections: seq<Section>, ms: seq<Member>, lists: seq<seq<Row>>)
    requires SectionsHeld(ms, sections, lists)
    ensures SectionsOf(sections, ms) == Ok(lists) <==> StatedLists(lists)
  {
    var got := ReadSections(sections, ms);
    SequenceIff(got, lists);
    forall i | 0 <= i < |sections| ensures got[i] == Ok(lists[i]) <==> StatedRows(lists[i]) {
      assert SectionHeld(ms, sections[i], lists[i]);
      SectionRoundTripIff(sections[i], lists[i]);
    }
  }

  // ---------------------------------------------------------------- sets of statuses

  /** The elements of a set in order. */
  ghost function SortedSet(s: set<string>): seq<string> {
    if s == {} then []
    else
      var x :| x in s;
      Insert(x, SortedSet(s - {x}), StringLe)
  }

  function ToSet(xs: seq<string>): set<string> { set x | x in xs }

  lemma {:induction false} SetRoundTrip(s: set<string>)
    ensures ToSet(SortedSet(s)) == s
    ensures forall x :: x in SortedSet(s) <==> x in s
  {
    if s != {} {
      var x :| x in s && SortedSet(s) == Insert(x, SortedSet(s - {x}), StringLe);
      var rest := SortedSet(s - {x});
      SetRoundTrip(s - {x});
      InsertKeeps(x, rest, StringLe);
      SameMembers(Insert(x, rest, StringLe), [x] + rest);
      forall y ensures y in SortedSet(s) <==> y in s { assert y in [x] + rest <==> y == x || y in rest; }
    }
  }

  lemma SetIsStatedIff(s: set<string>)
    ensures NonEmpty(SortedSet(s)) <==> "" !in s
  {
    SetRoundTrip(s);
    var xs := SortedSet(s);
    if "" !in s { forall i | 0 <= i < |xs| ensures xs[i] != "" { assert xs[i] in xs; } }
    if "" in s { var i :| 0 <= i < |xs| && xs[i] == ""; }
  }

  // ---------------------------------------------------------------- contracts

  const REQUIREMENT_KEYS: seq<string> :=
    ["events", "relationships", "evidenceLinks", "latency", "descriptors", "detections", "verification", "integrity"]

  ghost function VerificationRow(c: Contract): Row { [Texts(SortedSet(c.allowedStatuses)), Maybe(c.requiredStatus)] }

  function IntegrityRow(c: Contract): Row { [Switch(c.hashChainRequired)] }

  function SectionValues(lists: seq<seq<Row>>): (r: seq<Json>)
    requires |lists| == 6
    ensures |r| == 6 && forall i | 0 <= i < 6 :: r[i] == SectionJson(SECTIONS[i], lists[i])
  {
    seq(6, i requires 0 <= i < 6 => SectionJson(SECTIONS[i], lists[i]))
  }

  ghost function RequirementValues(c: Contract): seq<Json>
    requires |c.requirements| == 6
  {
    SectionValues(c.requirements)
    + [Obj(RowToDict(VERIFICATION, VerificationRow(c))), Obj(RowToDict(INTEGRITY, IntegrityRow(c)))]
  }

  ghost function Requirements(c: Contract): seq<Member>
    requires |c.requirements| == 6
  {
    Zip(REQUIREMENT_KEYS, RequirementValues(c))
  }

  const CONTRACT_KEYS: seq<string> := ["apiVersion", "kind", "metadata", "spec"]

  ghost function ContractValues(c: Contract): seq<Json>
    requires |c.requirements| == 6
  {
    [ Str("actionlineage.dev/contract/v1"), Str("LineageContract"), Obj(Zip(["name"], [Str(c.name)])),
      Obj(Zip(["requirements"], [Obj(Requirements(c))])) ]
  }

  ghost function ContractToDict(c: Contract): seq<Member>
    requires |c.requirements| == 6
  {
    Zip(CONTRACT_KEYS, ContractValues(c))
  }

  function ObjectOrEmpty(v: Json): Loaded<seq<Member>> {
    match v
    case Null => Ok([])
    case Obj(ms) => Ok(ms)
    case _ => Malformed
  }

  // The object under a key, or the enclosing one when the key is missing.
  function Within(ms: seq<Member>, key: string, otherwise: seq<Member>): Loaded<seq<Member>> {
    match Get(ms, key) case None => Ok(otherwise) case Some(v) => ObjectOrEmpty(v)
  }

  function ContractFromDict(data: seq<Member>): Loaded<Contract> {
    var spec :- Within(data, "spec", data);
    var metadata :- Within(data, "metadata", []);
    var requirements :- Within(spec, "requirements", spec);
    var inner := StringOrNone(GetOrNull(metadata, "name"));
    var outer := if inner.Some? then inner else StringOrNone(GetOrNull(spec, "name"));
    var name := if outer.Some? then outer else StringOrNone(GetOrNull(data, "name"));
    if name.None? then Malformed else RequirementsFrom(name.value, requirements)
  }

  function RowUnder(shape: Shape, ms: seq<Member>, key: string): Loaded<Row> {
    var inner :- ObjectOrEmpty(GetOrNull(ms, key));
    RowFromDict(shape, inner)
  }

  function RequirementsFrom(name: string, ms: seq<Member>): Loaded<Contract> {
    Assembled(name, SectionsOf(SECTIONS, ms), RowUnder(VERIFICATION, ms, "verification"),
              RowUnder(INTEGRITY, ms, "integrity"))
  }

  function Assembled(name: string, lists: Loaded<seq<seq<Row>>>, verification: Loaded<Row>, integrity: Loaded<Row>)
    : Loaded<Contract>
  {
    var requirements :- lists;
    var statuses :- verification;
    var flags :- integrity;
    if |statuses| == 2 && statuses[0].Texts? && statuses[1].Maybe? && |flags| == 1 && flags[0].Switch?
    then Ok(Contract(name, requirements, ToSet(statuses[0].xs), statuses[1].x, flags[0].b))
    else Malformed
  }

  // ---------------------------------------------------------------- the round trip

  // What the field types of a contract say.
  predicate TypedContract(c: Contract) { |c.requirements| == 6 && TypedSections(SECTIONS, c.requirements) }

  /** A contract whose texts are all non-empty. */
  predicate StatedContract(c: Contract) {
    c.name != "" && StatedLists(c.requirements) && "" !in c.allowedStatuses && c.requiredStatus != Some("")
  }

  lemma ShapesAreDistinct()
    ensures forall i | 0 <= i < 6 :: Distinct(KeysOf(SECTIONS[i].shape))
    ensures Distinct(KeysOf(VERIFICATION)) && Distinct(KeysOf(INTEGRITY))
  {
    CausalShapesAreDistinct();
    OtherShapesAreDistinct();
    var s := SECTIONS;
    assert s[0].shape == EVENT && s[1].shape == RELATIONSHIP && s[2].shape == EVIDENCE_LINK && s[3].shape == LATENCY
        && s[4].shape == DESCRIPTOR && s[5].shape == DETECTION;
  }

  lemma CausalShapesAreDistinct()
    ensures Distinct(KeysOf(EVENT)) && Distinct(KeysOf(RELATIONSHIP)) && Distinct(KeysOf(EVIDENCE_LINK))
  {
    var e, r, l := EVENT, RELATIONSHIP, EVIDENCE_LINK;
    assert |e[0].key| == 4 && |e[1].key| == 14 && |r[0].key| == 5 && |r[1].key| == 6 && |r[2].key| == 14;
    assert |l[0].key| == 9 && |l[1].key| == 16 && |l[2].key| == 17 && |l[3].key| == 12 && |l[4].key| == 18
        && |l[5].key| == 18 && |l[6].key| == 16;
    assert l[1].key[0] == 's' && l[6].key[0] == 'o' && l[4].key[0] == 'v' && l[5].key[0] == 'c';
  }

  lemma OtherShapesAreDistinct()
    ensures Distinct(KeysOf(LATENCY)) && Distinct(KeysOf(DESCRIPTOR)) && Distinct(KeysOf(DETECTION))
    ensures Distinct(KeysOf(VERIFICATION)) && Distinct(KeysOf(INTEGRITY))
  {
    var t, d, r, v := LATENCY, DESCRIPTOR, DETECTION, VERIFICATION;
    assert |t[0].key| == 14 && |t[1].key| == 12 && |t[2].key| == 10 && |t[3].key| == 7;
    assert |d[0].key| == 9 && |d[1].key| == 19 && |d[2].key| == 13 && |d[3].key| == 10;
    assert |r[0].key| == 6 && |r[1].key| == 8 && |r[2].key| == 18 && |r[3].key| == 28;
    assert |v[0].key| == 15 && |v[1].key| == 14;
  }

  lemma OuterKeysAreDistinct()
    ensures Distinct(REQUIREMENT_KEYS) && Distinct(CONTRACT_KEYS) && "name" !in CONTRACT_KEYS
    ensures forall i | 0 <= i < 6 :: SECTIONS[i].key == REQUIREMENT_KEYS[i]
  {
    var k, c := REQUIREMENT_KEYS, CONTRACT_KEYS;
    assert |k[0]| == 6 && |k[1]| == 13 && |k[2]| == 13 && |k[3]| == 7 && |k[4]| == 11 && |k[5]| == 10 && |k[6]| == 12
        && |k[7]| == 9;
    assert k[1][0] == 'r' && k[2][0] == 'e';
    assert |c[0]| == 10 && |c[1]| == 4 && |c[2]| == 8 && |c[3]| == 4 && c[1][0] == 'k' && c[3][0] == 's';
    assert "name"[0] == 'n';
  }

  lemma HeldSections(ms: seq<Member>, values: seq<Json>, lists: seq<seq<Row>>)
    requires |values| == 8 && Holds(ms, REQUIREMENT_KEYS, values) && |lists| == 6 && values[..6] == SectionValues(lists)
    requires forall i | 0 <= i < 6 :: SECTIONS[i].key == REQUIREMENT_KEYS[i]
    ensures forall i | 0 <= i < 6 :: GetOrNull(ms, SECTIONS[i].key) == SectionJson(SECTIONS[i], lists[i])
  {
    forall i | 0 <= i < 6 ensures GetOrNull(ms, SECTIONS[i].key) == SectionJson(SECTIONS[i], lists[i]) {
      assert HoldsAt(ms, REQUIREMENT_KEYS[i], values[i]) && values[..6][i] == values[i];
    }
  }

  lemma HeldControls(ms: seq<Member>, values: seq<Json>)
    requires |values| == 8 && Holds(ms, REQUIREMENT_KEYS, values)
    ensures GetOrNull(ms, "verification") == values[6] && GetOrNull(ms, "integrity") == values[7]
  {
    var k := REQUIREMENT_KEYS;
    assert HoldsAt(ms, k[6], values[6]) && HoldsAt(ms, k[7], values[7]);
  }

  lemma FlagReadsBack(c: Contract, ms: seq<Member>)
    requires GetOrNull(ms, "integrity") == Obj(RowToDict(INTEGRITY, IntegrityRow(c)))
    ensures RowUnder(INTEGRITY, ms, "integrity") == Ok(IntegrityRow(c))
  {
    ShapesAreDistinct();
    RowRoundTripIff(INTEGRITY, IntegrityRow(c));
  }

  // Statuses read from the verification object are those written exactly when they are all stated.
  lemma StatusesReadBack(c: Contract, ms: seq<Member>)
    requires GetOrNull(ms, "verification") == Obj(RowToDict(VERIFICATION, VerificationRow(c)))
    ensures
      var row := RowUnder(VERIFICATION, ms, "verification");
      (row.Ok? && |row.value| == 2 && row.value[0].Texts? && row.value[1].Maybe?
       && ToSet(row.value[0].xs) == c.allowedStatuses && row.value[1].x == c.requiredStatus)
      <==> "" !in c.allowedStatuses && c.requiredStatus != Some("")
  {
    StatusFieldsReadBack(c);
    StatusFieldsHeld(c);
    SequenceOfTwo(ReadStatuses(c), ReadRequired(c));
  }

  ghost function ReadStatuses(c: Contract): Loaded<FieldValue> {
    Read(ListOf([]), Some(StrList(SortedSet(c.allowedStatuses))))
  }

  function ReadRequired(c: Contract): Loaded<FieldValue> { Read(Optional, Some(OptionalStr(c.requiredStatus))) }

  lemma SequenceOfTwo<T>(x: Loaded<T>, y: Loaded<T>)
    ensures Sequence([x, y]) == if x.Ok? && y.Ok? then Ok([x.value, y.value]) else Malformed
  {
    var xs := [x, y];
    if x.Ok? && y.Ok? {
      SequenceIff(xs, [x.value, y.value]);
    } else {
      assert !xs[0].Ok? || !xs[1].Ok?;
    }
  }

  lemma StatusFieldsHeld(c: Contract)
    ensures RowFromDict(VERIFICATION, RowToDict(VERIFICATION, VerificationRow(c)))
         == Sequence([ReadStatuses(c), ReadRequired(c)])
  {
    var dict, row := RowToDict(VERIFICATION, VerificationRow(c)), VerificationRow(c);
    ShapesAreDistinct();
    ZipLookup(KeysOf(VERIFICATION), WriteAll(row), 0);
    ZipLookup(KeysOf(VERIFICATION), WriteAll(row), 1);
    TwoFieldsRead(VERIFICATION, dict, ReadStatuses(c), ReadRequired(c));
  }

  lemma TwoFieldsRead(shape: Shape, ms: seq<Member>, x: Loaded<FieldValue>, y: Loaded<FieldValue>)
    requires |shape| == 2
    requires Read(shape[0].kind, Get(ms, shape[0].key)) == x && Read(shape[1].kind, Get(ms, shape[1].key)) == y
    ensures RowFromDict(shape, ms) == Sequence([x, y])
  {
    assert ReadFields(shape, ms) == [x, y];
  }

  lemma StatusFieldsReadBack(c: Contract)
    ensures ReadStatuses(c) ==
      if "" in c.allowedStatuses then Malformed else Ok(Texts(SortedSet(c.allowedStatuses)))
    ensures ToSet(SortedSet(c.allowedStatuses)) == c.allowedStatuses
    ensures ReadRequired(c) == Ok(Maybe(if c.requiredStatus == Some("") then None else c.requiredStatus))
  {
    TextsRoundTrip(SortedSet(c.allowedStatuses));
    SetIsStatedIff(c.allowedStatuses);
    SetRoundTrip(c.allowedStatuses);
  }

  lemma AllSectionsHeld(ms: seq<Member>, c: Contract)
    requires TypedContract(c) && forall i | 0 <= i < 6 :: Distinct(KeysOf(SECTIONS[i].shape))
    requires forall i | 0 <= i < 6 :: GetOrNull(ms, SECTIONS[i].key) == SectionJson(SECTIONS[i], c.requirements[i])
    ensures SectionsHeld(ms, SECTIONS, c.requirements)
  {
  }

  lemma RequirementsRoundTripIff(ms: seq<Member>, c: Contract)
    requires TypedContract(c) && c.name != ""
    requires forall i | 0 <= i < 6 :: GetOrNull(ms, SECTIONS[i].key) == SectionJson(SECTIONS[i], c.requirements[i])
    requires GetOrNull(ms, "verification") == Obj(RowToDict(VERIFICATION, VerificationRow(c)))
    requires GetOrNull(ms, "integrity") == Obj(RowToDict(INTEGRITY, IntegrityRow(c)))
    ensures RequirementsFrom(c.name, ms) == Ok(c) <==> StatedContract(c)
  {
    ShapesAreDistinct();
    AllSectionsHeld(ms, c);
    SectionsRoundTripIff(SECTIONS, ms, c.requirements);
    FlagReadsBack(c, ms);
    StatusesReadBack(c, ms);
    AssembledIff(c, SectionsOf(SECTIONS, ms), RowUnder(VERIFICATION, ms, "verification"));
  }

  lemma AssembledIff(c: Contract, lists: Loaded<seq<seq<Row>>>, verification: Loaded<Row>)
    ensures Assembled(c.name, lists, verification, Ok(IntegrityRow(c))) == Ok(c) <==>
      (lists == Ok(c.requirements)
       && verification.Ok? && |verification.value| == 2 && verification.value[0].Texts? && verification.value[1].Maybe?
       && ToSet(verification.value[0].xs) == c.allowedStatuses && verification.value[1].x == c.requiredStatus)
  {
    var flags := IntegrityRow(c);
    assert |flags| == 1 && flags[0] == Switch(c.hashChainRequired);
    if lists.Ok? { assert lists == Ok(lists.value); }
  }

  lemma HeldContract(ms: seq<Member>, c: Contract)
    requires |c.requirements| == 6 && Holds(ms, CONTRACT_KEYS, ContractValues(c))
    ensures GetOrNull(ms, "metadata") == Obj(Zip(["name"], [Str(c.name)]))
    ensures GetOrNull(ms, "spec") == Obj(Zip(["requirements"], [Obj(Requirements(c))]))
  {
    var k, v := CONTRACT_KEYS, ContractValues(c);
    assert HoldsAt(ms, k[2], v[2]) && HoldsAt(ms, k[3], v[3]);
  }

  lemma NoOtherName(c: Contract)
    requires |c.requirements| == 6
    ensures GetOrNull(ContractToDict(c), "name") == Null
  {
    OuterKeysAreDistinct();
    var ms := ContractToDict(c);
    forall m | m in ms ensures m.key != "name" {
      var i :| 0 <= i < |ms| && ms[i] == m;
      assert m.key == CONTRACT_KEYS[i] && CONTRACT_KEYS[i] in CONTRACT_KEYS;
    }
  }

  lemma ContractReads(ms: seq<Member>, requirements: seq<Member>, name: string)
    requires GetOrNull(ms, "metadata") == Obj(Zip(["name"], [Str(name)])) && GetOrNull(ms, "name") == Null
    requires GetOrNull(ms, "spec") == Obj(Zip(["requirements"], [Obj(requirements)]))
    ensures ContractFromDict(ms) == if name == "" then Malformed else RequirementsFrom(name, requirements)
  {
    var metadata, spec := Zip(["name"], [Str(name)]), Zip(["requirements"], [Obj(requirements)]);
    ZipLookup(["name"], [Str(name)], 0);
    ZipLookup(["requirements"], [Obj(requirements)], 0);
    assert spec == [Member("requirements", Obj(requirements))];
    assert |"requirements"| == 12 && |"name"| == 4;
    assert Get(spec, "name").None?;
  }

  /** Writing a contract and reading it back gives the same contract exactly when all its texts are
      non-empty. */
  lemma {:induction false} ContractRoundTripIff(c: Contract)
    requires TypedContract(c)
    ensures ContractFromDict(ContractToDict(c)) == Ok(c) <==> StatedContract(c)
  {
    var ms, requirements, values := ContractToDict(c), Requirements(c), RequirementValues(c);
    OuterKeysAreDistinct();
    ZipHolds(CONTRACT_KEYS, ContractValues(c));
    HeldContract(ms, c);
    NoOtherName(c);
    ContractReads(ms, requirements, c.name);
    ZipHolds(REQUIREMENT_KEYS, values);
    assert values[..6] == SectionValues(c.requirements);
    HeldSections(requirements, values, c.requirements);
    HeldControls(requirements, values);
    if c.name != "" { RequirementsRoundTripIff(requirements, c); }
  }
}
