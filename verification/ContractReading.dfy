/** Which dicts read as which contracts: the fields by name, and what stands in for a field left out. */
module ContractReading {
  import opened JsonValues
  import opened DictFields
  import opened ContractCodec
  import opened Sorting

  // ---------------------------------------------------------------- fields

  // A text with something in it.
  predicate Filled(v: Option<Json>) { v.Some? && v.value.Str? && v.value.s != "" }

  predicate TextAt(v: Option<Json>, x: FieldValue) { x.Text? && NameAt(v, x.s) }

  predicate TextOr(v: Option<Json>, x: FieldValue, default: string) {
    x.Text? && (NameAt(v, x.s) || (!Filled(v) && x.s == default))
  }

  predicate MaybeAt(v: Option<Json>, x: FieldValue) {
    x.Maybe? && match x.x case None => !Filled(v) case Some(s) => NameAt(v, s)
  }

  // The list itself, a lone text, nothing for null, or the default when the key is missing.
  predicate Listed(v: Option<Json>, xs: seq<string>, default: seq<string>) {
    match v
    case None => xs == default
    case Some(Null) => xs == []
    case Some(Str(s)) => xs == [s]
    case Some(_) => NamesAt(v, xs)
  }

  predicate ListAt(v: Option<Json>, x: FieldValue, default: seq<string>) { x.Texts? && Listed(v, x.xs, default) }

  predicate NumberAt(v: Option<Json>, x: FieldValue) {
    x.Amount? && (v == Some(Int(x.n)) || (v == Some(Bool(true)) && x.n == 1) || (v == Some(Bool(false)) && x.n == 0))
  }

  predicate IsNothing(v: Json) {
    v == Null || v == Bool(false) || v == Int(0) || v == Str("") || v == Arr([]) || v == Obj([])
  }

  // On when the key is missing; otherwise off exactly for a value that counts as nothing.
  predicate OnUnlessNothing(v: Option<Json>, b: bool) { b <==> v == None || !IsNothing(v.value) }

  predicate FlagAt(v: Option<Json>, x: FieldValue) { x.Switch? && OnUnlessNothing(v, x.b) }

  predicate FieldAt(kind: Kind, v: Option<Json>, x: FieldValue) {
    match kind
    case Required => TextAt(v, x)
    case Optional => MaybeAt(v, x)
    case WithDefault(d) => TextOr(v, x, d)
    case ListOf(d) => ListAt(v, x, d)
    case Number => NumberAt(v, x)
    case Flag(on) => x.Switch? && if v == None then x.b == on else OnUnlessNothing(v, x.b)
  }

  lemma FieldIff(kind: Kind, v: Option<Json>, x: FieldValue)
    ensures Read(kind, v) == Ok(x) <==> FieldAt(kind, v, x)
  {
    if kind.ListOf? && x.Texts? && v.Some? && v.value.Arr? { TextsIff(v.value.items, x.xs); }
  }

  predicate FieldReads(f: Field, ms: seq<Member>, x: FieldValue) { FieldAt(f.kind, Get(ms, f.key), x) }

  predicate RowAt(shape: Shape, ms: seq<Member>, row: Row) {
    |row| == |shape| && forall i | 0 <= i < |row| :: FieldReads(shape[i], ms, row[i])
  }

  lemma RowIff(shape: Shape, ms: seq<Member>, row: Row)
    ensures RowFromDict(shape, ms) == Ok(row) <==> RowAt(shape, ms, row)
  {
    var got := ReadFields(shape, ms);
    if |row| == |shape| {
      SequenceIff(got, row);
      forall i | 0 <= i < |row| ensures got[i] == Ok(row[i]) <==> FieldReads(shape[i], ms, row[i]) {
        FieldIff(shape[i].kind, Get(ms, shape[i].key), row[i]);
      }
    }
  }

  // ---------------------------------------------------------------- the requirements

  predicate EventReads(ms: seq<Member>, row: Row) {
    && |row| == 2
    && TextAt(Get(ms, "type"), row[0]) && ListAt(Get(ms, "requiredFields"), row[1], [])
  }

  predicate RelationshipReads(ms: seq<Member>, row: Row) {
    && |row| == 3
    && TextAt(Get(ms, "child"), row[0]) && TextAt(Get(ms, "parent"), row[1]) && MaybeAt(Get(ms, "referenceField"), row[2])
  }

  predicate EvidenceLinkReads(ms: seq<Member>, row: Row) {
    && |row| == 7
    && TextOr(Get(ms, "eventType"), row[0], "side_effect.verified") && MaybeAt(Get(ms, "subjectEventType"), row[1])
    && MaybeAt(Get(ms, "evidenceEventType"), row[2]) && MaybeAt(Get(ms, "relationship"), row[3])
    && MaybeAt(Get(ms, "verificationStatus"), row[4]) && ListAt(Get(ms, "corroborationTypes"), row[5], [])
    && MaybeAt(Get(ms, "observerIdentity"), row[6])
  }

  predicate LatencyReads(ms: seq<Member>, row: Row) {
    && |row| == 4
    && TextAt(Get(ms, "startEventType"), row[0]) && TextAt(Get(ms, "endEventType"), row[1])
    && NumberAt(Get(ms, "maxSeconds"), row[2]) && ListAt(Get(ms, "groupBy"), row[3], ["correlation.run_id"])
  }

  predicate DescriptorReads(ms: seq<Member>, row: Row) {
    && |row| == 4
    && TextAt(Get(ms, "eventType"), row[0])
    && TextOr(Get(ms, "descriptorHashField"), row[1], "payload.tool_identity.descriptor_hash")
    && TextOr(Get(ms, "toolNameField"), row[2], "payload.tool_identity.name")
    && TextOr(Get(ms, "hashPrefix"), row[3], "sha256:")
  }

  predicate DetectionReads(ms: seq<Member>, row: Row) {
    && |row| == 4
    && TextAt(Get(ms, "ruleId"), row[0]) && FlagAt(Get(ms, "required"), row[1])
    && ListAt(Get(ms, "requiredEventTypes"), row[2], []) && ListAt(Get(ms, "requiredVerificationStatuses"), row[3], [])
  }

  lemma EventIff(ms: seq<Member>, row: Row)
    ensures RowFromDict(EVENT, ms) == Ok(row) <==> EventReads(ms, row)
  {
    RowIff(EVENT, ms, row);
  }

  lemma RelationshipIff(ms: seq<Member>, row: Row)
    ensures RowFromDict(RELATIONSHIP, ms) == Ok(row) <==> RelationshipReads(ms, row)
  {
    RowIff(RELATIONSHIP, ms, row);
  }

  lemma EvidenceLinkIff(ms: seq<Member>, row: Row)
    ensures RowFromDict(EVIDENCE_LINK, ms) == Ok(row) <==> EvidenceLinkReads(ms, row)
  {
    RowIff(EVIDENCE_LINK, ms, row);
    SevenFields(EVIDENCE_LINK, ms, row);
  }

  lemma SevenFields(shape: Shape, ms: seq<Member>, row: Row)
    requires |shape| == 7
    ensures RowAt(shape, ms, row) <==>
      (|row| == 7 && FieldReads(shape[0], ms, row[0]) && FieldReads(shape[1], ms, row[1])
       && FieldReads(shape[2], ms, row[2]) && FieldReads(shape[3], ms, row[3]) && FieldReads(shape[4], ms, row[4])
       && FieldReads(shape[5], ms, row[5]) && FieldReads(shape[6], ms, row[6]))
  {
  }

  lemma LatencyIff(ms: seq<Member>, row: Row)
    ensures RowFromDict(LATENCY, ms) == Ok(row) <==> LatencyReads(ms, row)
  {
    RowIff(LATENCY, ms, row);
    FourFields(LATENCY, ms, row);
  }

  lemma DescriptorIff(ms: seq<Member>, row: Row)
    ensures RowFromDict(DESCRIPTOR, ms) == Ok(row) <==> DescriptorReads(ms, row)
  {
    RowIff(DESCRIPTOR, ms, row);
    FourFields(DESCRIPTOR, ms, row);
  }

  lemma FourFields(shape: Shape, ms: seq<Member>, row: Row)
    requires |shape| == 4
    ensures RowAt(shape, ms, row) <==>
      (|row| == 4 && FieldReads(shape[0], ms, row[0]) && FieldReads(shape[1], ms, row[1])
       && FieldReads(shape[2], ms, row[2]) && FieldReads(shape[3], ms, row[3]))
  {
  }

  lemma DetectionIff(ms: seq<Member>, row: Row)
    ensures RowFromDict(DETECTION, ms) == Ok(row) <==> DetectionReads(ms, row)
  {
    RowIff(DETECTION, ms, row);
    FourFields(DETECTION, ms, row);
  }

  // ---------------------------------------------------------------- lists of requirements

  // An array of objects, each read as the row at its place; null or no array at all for no rows.
  ghost predicate ListReads(v: Option<Json>, accepts: (seq<Member>, Row) -> bool, rows: seq<Row>) {
    if Missing(v) then rows == []
    else v.value.Arr? && |v.value.items| == |rows|
         && forall i | 0 <= i < |rows| :: ItemIs(v.value.items[i], accepts, rows[i])
  }

  ghost predicate ItemIs(item: Json, accepts: (seq<Member>, Row) -> bool, row: Row) { item.Obj? && accepts(item.members, row) }

  lemma SectionIff(section: Section, ms: seq<Member>, accepts: (seq<Member>, Row) -> bool, rows: seq<Row>)
    requires forall x, row :: RowFromDict(section.shape, x) == Ok(row) <==> accepts(x, row)
    ensures SectionOf(section, GetOrNull(ms, section.key)) == Ok(rows) <==> ListReads(Get(ms, section.key), accepts, rows)
  {
    match Get(ms, section.key)
    case Some(Arr(items)) =>
      var from := (x: seq<Member>) => RowFromDict(section.shape, x);
      ObjectsIff(items, from, rows);
      forall i | 0 <= i < |items| && i < |rows|
        ensures ItemReads(items[i], from, rows[i]) <==> ItemIs(items[i], accepts, rows[i])
      {
      }
    case _ =>
  }

  // The six lists, each under its key.
  ghost predicate ListsRead(ms: seq<Member>, lists: seq<seq<Row>>) {
    && |lists| == 6
    && ListReads(Get(ms, "events"), EventReads, lists[0])
    && ListReads(Get(ms, "relationships"), RelationshipReads, lists[1])
    && ListReads(Get(ms, "evidenceLinks"), EvidenceLinkReads, lists[2])
    && ListReads(Get(ms, "latency"), LatencyReads, lists[3])
    && ListReads(Get(ms, "descriptors"), DescriptorReads, lists[4])
    && ListReads(Get(ms, "detections"), DetectionReads, lists[5])
  }

  ghost predicate SectionReadsAs(i: nat, ms: seq<Member>, rows: seq<Row>)
    requires i < 6
  {
    SectionOf(SECTIONS[i], GetOrNull(ms, SECTIONS[i].key)) == Ok(rows)
  }

  lemma CausalListsIff(ms: seq<Member>, lists: seq<seq<Row>>)
    requires |lists| == 6
    ensures SectionReadsAs(0, ms, lists[0]) <==> ListReads(Get(ms, "events"), EventReads, lists[0])
    ensures SectionReadsAs(1, ms, lists[1]) <==> ListReads(Get(ms, "relationships"), RelationshipReads, lists[1])
    ensures SectionReadsAs(2, ms, lists[2]) <==> ListReads(Get(ms, "evidenceLinks"), EvidenceLinkReads, lists[2])
  {
    forall x, row ensures RowFromDict(EVENT, x) == Ok(row) <==> EventReads(x, row) { EventIff(x, row); }
    forall x, row ensures RowFromDict(RELATIONSHIP, x) == Ok(row) <==> RelationshipReads(x, row) {
      RelationshipIff(x, row);
    }
    forall x, row ensures RowFromDict(EVIDENCE_LINK, x) == Ok(row) <==> EvidenceLinkReads(x, row) {
      EvidenceLinkIff(x, row);
    }
    SectionIff(SECTIONS[0], ms, EventReads, lists[0]);
    SectionIff(SECTIONS[1], ms, RelationshipReads, lists[1]);
    SectionIff(SECTIONS[2], ms, EvidenceLinkReads, lists[2]);
  }

  lemma OtherListsIff(ms: seq<Member>, lists: seq<seq<Row>>)
    requires |lists| == 6
    ensures SectionReadsAs(3, ms, lists[3]) <==> ListReads(Get(ms, "latency"), LatencyReads, lists[3])
    ensures SectionReadsAs(4, ms, lists[4]) <==> ListReads(Get(ms, "descriptors"), DescriptorReads, lists[4])
    ensures SectionReadsAs(5, ms, lists[5]) <==> ListReads(Get(ms, "detections"), DetectionReads, lists[5])
  {
    forall x, row ensures RowFromDict(LATENCY, x) == Ok(row) <==> LatencyReads(x, row) { LatencyIff(x, row); }
    forall x, row ensures RowFromDict(DESCRIPTOR, x) == Ok(row) <==> DescriptorReads(x, row) { DescriptorIff(x, row); }
    forall x, row ensures RowFromDict(DETECTION, x) == Ok(row) <==> DetectionReads(x, row) { DetectionIff(x, row); }
    SectionIff(SECTIONS[3], ms, LatencyReads, lists[3]);
    SectionIff(SECTIONS[4], ms, DescriptorReads, lists[4]);
    SectionIff(SECTIONS[5], ms, DetectionReads, lists[5]);
  }

  lemma ListsIff(ms: seq<Member>, lists: seq<seq<Row>>)
    ensures SectionsOf(SECTIONS, ms) == Ok(lists) <==> ListsRead(ms, lists)
  {
    if |lists| == 6 {
      SequenceIff(ReadSections(SECTIONS, ms), lists);
      CausalListsIff(ms, lists);
      OtherListsIff(ms, lists);
      EachSection(ReadSections(SECTIONS, ms), lists);
    }
  }

  lemma EachSection(got: seq<Loaded<seq<Row>>>, lists: seq<seq<Row>>)
    requires |got| == 6 && |lists| == 6
    ensures (forall i | 0 <= i < 6 :: got[i] == Ok(lists[i]))
       <==> (got[0] == Ok(lists[0]) && got[1] == Ok(lists[1]) && got[2] == Ok(lists[2])
             && got[3] == Ok(lists[3]) && got[4] == Ok(lists[4]) && got[5] == Ok(lists[5]))
  {
  }

  // ---------------------------------------------------------------- the contract

  // The object under a key, empty when there is none.
  predicate ObjectAt(v: Option<Json>, ms: seq<Member>) { v == Some(Obj(ms)) || (Missing(v) && ms == []) }

  // The same, but a missing key means the enclosing object.
  predicate ObjectOrOuter(v: Option<Json>, ms: seq<Member>, outer: seq<Member>) {
    if v == None then ms == outer else ObjectAt(v, ms)
  }

  // The first of three places that holds a name.
  predicate NameFrom(metadata: seq<Member>, spec: seq<Member>, data: seq<Member>, name: string) {
    || NameAt(Get(metadata, "name"), name)
    || (!Filled(Get(metadata, "name")) && NameAt(Get(spec, "name"), name))
    || (!Filled(Get(metadata, "name")) && !Filled(Get(spec, "name")) && NameAt(Get(data, "name"), name))
  }

  ghost predicate StatusesRead(v: Option<Json>, c: Contract) {
    exists ms, xs ::
      && ObjectAt(v, ms) && Listed(Get(ms, "allowedStatuses"), xs, [])
      && c.allowedStatuses == (set x | x in xs) && MaybeAt(Get(ms, "requiredStatus"), Maybe(c.requiredStatus))
  }

  ghost predicate ChainFlagReads(v: Option<Json>, c: Contract) {
    exists ms :: ObjectAt(v, ms) && OnUnlessNothing(Get(ms, "hashChainRequired"), c.hashChainRequired)
  }

  ghost predicate RequirementsRead(ms: seq<Member>, c: Contract) {
    ListsRead(ms, c.requirements) && StatusesRead(Get(ms, "verification"), c) && ChainFlagReads(Get(ms, "integrity"), c)
  }

  ghost predicate ContractReads(data: seq<Member>, c: Contract) {
    exists spec, metadata, requirements :: ContractReadsFrom(data, spec, metadata, requirements, c)
  }

  ghost predicate ContractReadsFrom(
    data: seq<Member>, spec: seq<Member>, metadata: seq<Member>, requirements: seq<Member>, c: Contract)
  {
    && ObjectOrOuter(Get(data, "spec"), spec, data) && ObjectAt(Get(data, "metadata"), metadata)
    && ObjectOrOuter(Get(spec, "requirements"), requirements, spec)
    && NameFrom(metadata, spec, data, c.name) && RequirementsRead(requirements, c)
  }

  // What the verification object reads as.
  ghost predicate StatusesGive(row: Loaded<Row>, c: Contract) {
    && row.Ok? && |row.value| == 2 && row.value[0].Texts? && ToSet(row.value[0].xs) == c.allowedStatuses
    && row.value[1] == Maybe(c.requiredStatus)
  }

  lemma VerificationIff(ms: seq<Member>, row: Row)
    ensures RowFromDict(VERIFICATION, ms) == Ok(row) <==>
      (|row| == 2 && ListAt(Get(ms, "allowedStatuses"), row[0], []) && MaybeAt(Get(ms, "requiredStatus"), row[1]))
  {
    RowIff(VERIFICATION, ms, row);
  }

  lemma {:induction false} StatusesIff(ms: seq<Member>, c: Contract)
    ensures StatusesRead(Get(ms, "verification"), c) <==> StatusesGive(RowUnder(VERIFICATION, ms, "verification"), c)
  {
    var v := Get(ms, "verification");
    var row := RowUnder(VERIFICATION, ms, "verification");
    if StatusesGive(row, c) {
      var inner := ObjectOrEmpty(GetOrNull(ms, "verification")).value;
      VerificationIff(inner, row.value);
      assert ObjectAt(v, inner) && Listed(Get(inner, "allowedStatuses"), row.value[0].xs, []);
    }
    if StatusesRead(v, c) {
      var inner: seq<Member>, xs: seq<string> :|
        ObjectAt(v, inner) && Listed(Get(inner, "allowedStatuses"), xs, [])
        && c.allowedStatuses == (set x | x in xs) && MaybeAt(Get(inner, "requiredStatus"), Maybe(c.requiredStatus));
      VerificationIff(inner, [FieldValue.Texts(xs), Maybe(c.requiredStatus)]);
    }
  }

  lemma ChainFlagIff(ms: seq<Member>, c: Contract)
    ensures ChainFlagReads(Get(ms, "integrity"), c)
       <==> RowUnder(INTEGRITY, ms, "integrity") == Ok([Switch(c.hashChainRequired)])
  {
    var v := Get(ms, "integrity");
    var one := [Switch(c.hashChainRequired)];
    if ObjectOrEmpty(GetOrNull(ms, "integrity")).Ok? {
      var inner := ObjectOrEmpty(GetOrNull(ms, "integrity")).value;
      RowIff(INTEGRITY, inner, one);
      assert ObjectAt(v, inner);
      assert RowAt(INTEGRITY, inner, one) <==> FieldAt(Flag(true), Get(inner, "hashChainRequired"), one[0]);
    }
  }

  lemma RequirementsIff(name: string, ms: seq<Member>, c: Contract)
    ensures RequirementsFrom(name, ms) == Ok(c) <==> c.name == name && RequirementsRead(ms, c)
  {
    ListsIff(ms, c.requirements);
    StatusesIff(ms, c);
    ChainFlagIff(ms, c);
    AssembledIff(name, SectionsOf(SECTIONS, ms), RowUnder(VERIFICATION, ms, "verification"),
                 RowUnder(INTEGRITY, ms, "integrity"), c);
    SingleFlag(ms);
  }

  lemma SingleFlag(ms: seq<Member>)
    ensures RowUnder(INTEGRITY, ms, "integrity").Ok? ==> |RowUnder(INTEGRITY, ms, "integrity").value| == 1
  {
  }

  lemma AssembledIff(
    name: string, lists: Loaded<seq<seq<Row>>>, verification: Loaded<Row>, integrity: Loaded<Row>, c: Contract)
    requires integrity.Ok? ==> |integrity.value| == 1
    ensures Assembled(name, lists, verification, integrity) == Ok(c) <==>
      (c.name == name && lists == Ok(c.requirements) && StatusesGive(verification, c)
       && integrity == Ok([Switch(c.hashChainRequired)]))
  {
    if integrity.Ok? { assert integrity.value == [integrity.value[0]]; }
  }

  lemma NameIff(metadata: seq<Member>, spec: seq<Member>, data: seq<Member>, name: string)
    ensures NameFrom(metadata, spec, data, name) <==>
      (StringOrNone(GetOrNull(metadata, "name")) == Some(name)
       || (StringOrNone(GetOrNull(metadata, "name")) == None
           && (StringOrNone(GetOrNull(spec, "name")) == Some(name)
               || (StringOrNone(GetOrNull(spec, "name")) == None
                   && StringOrNone(GetOrNull(data, "name")) == Some(name)))))
  {
  }

  lemma WithinIff(ms: seq<Member>, key: string, otherwise: seq<Member>, inner: seq<Member>)
    ensures Within(ms, key, otherwise) == Ok(inner) <==> ObjectOrOuter(Get(ms, key), inner, otherwise)
  {
  }

  lemma {:induction false} PartsIff(
    data: seq<Member>, spec: seq<Member>, metadata: seq<Member>, requirements: seq<Member>, c: Contract)
    requires Within(data, "spec", data) == Ok(spec) && Within(data, "metadata", []) == Ok(metadata)
    requires Within(spec, "requirements", spec) == Ok(requirements)
    ensures ContractFromDict(data) == Ok(c) <==>
      NameFrom(metadata, spec, data, c.name) && RequirementsRead(requirements, c)
  {
    NameIff(metadata, spec, data, c.name);
    var inner := StringOrNone(GetOrNull(metadata, "name"));
    var outer := if inner.Some? then inner else StringOrNone(GetOrNull(spec, "name"));
    var name := if outer.Some? then outer else StringOrNone(GetOrNull(data, "name"));
    assert NameFrom(metadata, spec, data, c.name) <==> name == Some(c.name);
    assert ContractFromDict(data) == if name.None? then Malformed else RequirementsFrom(name.value, requirements);
    if name.Some? { RequirementsIff(name.value, requirements, c); }
  }

  lemma {:induction false} PartsAreRead(data: seq<Member>)
    requires ContractFromDict(data).Ok?
    ensures Within(data, "spec", data).Ok? && Within(data, "metadata", []).Ok?
    ensures Within(Within(data, "spec", data).value, "requirements", Within(data, "spec", data).value).Ok?
  {
  }

  lemma {:induction false} PartsRead(
    data: seq<Member>, spec: seq<Member>, metadata: seq<Member>, requirements: seq<Member>, c: Contract)
    ensures ContractReadsFrom(data, spec, metadata, requirements, c) <==>
      (Within(data, "spec", data) == Ok(spec) && Within(data, "metadata", []) == Ok(metadata)
       && Within(spec, "requirements", spec) == Ok(requirements)
       && NameFrom(metadata, spec, data, c.name) && RequirementsRead(requirements, c))
  {
    WithinIff(data, "spec", data, spec);
    WithinIff(data, "metadata", [], metadata);
    WithinIff(spec, "requirements", spec, requirements);
  }

  /** A dict reads as a contract exactly when the contract's name is the first given by metadata, spec and dict,
      and every requirement is listed under its key: inside `spec.requirements`, or inside whatever stands for it
      when `spec` or `requirements` is left out. Fields left out have the defaults named above. */
  lemma {:induction false} ContractReadsIff(data: seq<Member>, c: Contract)
    ensures ContractFromDict(data) == Ok(c) <==> ContractReads(data, c)
  {
    if ContractFromDict(data) == Ok(c) {
      PartsAreRead(data);
      var spec := Within(data, "spec", data).value;
      var metadata := Within(data, "metadata", []).value;
      var requirements := Within(spec, "requirements", spec).value;
      PartsIff(data, spec, metadata, requirements, c);
      PartsRead(data, spec, metadata, requirements, c);
    }
    if ContractReads(data, c) {
      var spec, metadata, requirements :| ContractReadsFrom(data, spec, metadata, requirements, c);
      PartsRead(data, spec, metadata, requirements, c);
      PartsIff(data, spec, metadata, requirements, c);
    }
  }

  // ---------------------------------------------------------------- what is written

  ghost predicate RisingTexts(xs: seq<string>) {
    forall i, j | 0 <= i < j < |xs| :: StringLe(xs[i], xs[j]) && xs[i] != xs[j]
  }

  lemma StringLeIsPreorder()
    ensures TotalPreorder(StringLe)
  {
    forall a, b ensures StringLe(a, b) || StringLe(b, a) { StringLeIsTotal(a, b); }
    forall a, b, c | StringLe(a, b) && StringLe(b, c) ensures StringLe(a, c) { StringLeIsTransitive(a, b, c); }
  }

  lemma {:induction false} SetIsListedOnce(s: set<string>)
    ensures multiset(SortedSet(s)) == multiset(s) && SortedBy(SortedSet(s), StringLe)
  {
    StringLeIsPreorder();
    if s != {} {
      var x :| x in s && SortedSet(s) == Insert(x, SortedSet(s - {x}), StringLe);
      var rest := SortedSet(s - {x});
      SetIsListedOnce(s - {x});
      InsertSorted(x, rest, StringLe);
      InsertKeeps(x, rest, StringLe);
      assert s == (s - {x}) + {x};
    }
  }

  lemma TwoPlaces(xs: seq<string>, i: nat, j: nat)
    requires i < j < |xs|
    ensures xs[i] == xs[j] ==> multiset(xs)[xs[i]] >= 2
  {
    assert xs == xs[..j] + xs[j..];
    assert xs[..j][i] in multiset(xs[..j]) && xs[j..][0] in multiset(xs[j..]);
  }

  /** The statuses are written in rising order, each of them once. */
  lemma SetIsListedInOrder(s: set<string>)
    ensures RisingTexts(SortedSet(s)) && forall x :: x in SortedSet(s) <==> x in s
  {
    var xs := SortedSet(s);
    SetIsListedOnce(s);
    SetRoundTrip(s);
    forall i, j | 0 <= i < j < |xs| ensures StringLe(xs[i], xs[j]) && xs[i] != xs[j] {
      TwoPlaces(xs, i, j);
    }
  }

  ghost predicate ListsWritten(ms: seq<Member>, lists: seq<seq<Row>>)
    requires |lists| == 6
  {
    && Entry(ms, "events", SectionJson(Section("events", EVENT), lists[0]))
    && Entry(ms, "relationships", SectionJson(Section("relationships", RELATIONSHIP), lists[1]))
    && Entry(ms, "evidenceLinks", SectionJson(Section("evidenceLinks", EVIDENCE_LINK), lists[2]))
    && Entry(ms, "latency", SectionJson(Section("latency", LATENCY), lists[3]))
    && Entry(ms, "descriptors", SectionJson(Section("descriptors", DESCRIPTOR), lists[4]))
    && Entry(ms, "detections", SectionJson(Section("detections", DETECTION), lists[5]))
  }

  ghost predicate StatusesWritten(ms: seq<Member>, c: Contract) {
    exists xs, inner ::
      && Entry(ms, "verification", Obj(inner)) && |inner| == 2
      && Entry(inner, "allowedStatuses", StrList(xs)) && RisingTexts(xs)
      && (forall x :: x in xs <==> x in c.allowedStatuses)
      && Entry(inner, "requiredStatus", OptionalStr(c.requiredStatus))
  }

  ghost predicate RequirementsWritten(ms: seq<Member>, c: Contract)
    requires |c.requirements| == 6
  {
    && |ms| == 8 && ListsWritten(ms, c.requirements) && StatusesWritten(ms, c)
    && Entry(ms, "integrity", Obj([Member("hashChainRequired", Bool(c.hashChainRequired))]))
  }

  lemma {:induction false} StatusRowIsWritten(c: Contract)
    ensures
      var inner := RowToDict(VERIFICATION, VerificationRow(c));
      && |inner| == 2 && Entry(inner, "allowedStatuses", StrList(SortedSet(c.allowedStatuses)))
      && Entry(inner, "requiredStatus", OptionalStr(c.requiredStatus))
  {
    ShapesAreDistinct();
    var k, v := KeysOf(VERIFICATION), WriteAll(VerificationRow(c));
    ZipHasEntries(k, v);
    assert Entry(Zip(k, v), k[0], v[0]) && Entry(Zip(k, v), k[1], v[1]);
  }

  lemma {:induction false} ListsAreWritten(ms: seq<Member>, lists: seq<seq<Row>>)
    requires |lists| == 6
    requires forall i | 0 <= i < 6 :: Entry(ms, REQUIREMENT_KEYS[i], SectionJson(SECTIONS[i], lists[i]))
    ensures ListsWritten(ms, lists)
  {
    var k, s := REQUIREMENT_KEYS, SECTIONS;
    assert Entry(ms, k[0], SectionJson(s[0], lists[0])) && Entry(ms, k[1], SectionJson(s[1], lists[1]))
        && Entry(ms, k[2], SectionJson(s[2], lists[2])) && Entry(ms, k[3], SectionJson(s[3], lists[3]))
        && Entry(ms, k[4], SectionJson(s[4], lists[4])) && Entry(ms, k[5], SectionJson(s[5], lists[5]));
  }

  lemma {:induction false} RequirementsAreWritten(c: Contract)
    requires |c.requirements| == 6
    ensures RequirementsWritten(Requirements(c), c)
  {
    OuterKeysAreDistinct();
    var ms, values := Requirements(c), RequirementValues(c);
    ZipHasEntries(REQUIREMENT_KEYS, values);
    forall i | 0 <= i < 6 ensures Entry(ms, REQUIREMENT_KEYS[i], SectionJson(SECTIONS[i], c.requirements[i])) {
      assert Entry(ms, REQUIREMENT_KEYS[i], values[i]);
    }
    ListsAreWritten(ms, c.requirements);
    assert Entry(ms, REQUIREMENT_KEYS[6], values[6]) && Entry(ms, REQUIREMENT_KEYS[7], values[7]);
    ControlsAreWritten(ms, c);
  }

  lemma {:induction false} ControlsAreWritten(ms: seq<Member>, c: Contract)
    requires Entry(ms, "verification", Obj(RowToDict(VERIFICATION, VerificationRow(c))))
    requires Entry(ms, "integrity", Obj(RowToDict(INTEGRITY, IntegrityRow(c))))
    ensures StatusesWritten(ms, c)
    ensures Entry(ms, "integrity", Obj([Member("hashChainRequired", Bool(c.hashChainRequired))]))
  {
    StatusRowIsWritten(c);
    SetIsListedInOrder(c.allowedStatuses);
    assert RowToDict(INTEGRITY, IntegrityRow(c)) == [Member("hashChainRequired", Bool(c.hashChainRequired))];
  }

  /** A contract is written under its version and kind, its name in the metadata, with all its requirements. */
  lemma {:induction false} ContractIsWritten(c: Contract)
    requires |c.requirements| == 6
    ensures
      var data := ContractToDict(c);
      && |data| == 4 && Entry(data, "apiVersion", Str("actionlineage.dev/contract/v1"))
      && Entry(data, "kind", Str("LineageContract")) && Entry(data, "metadata", Obj([Member("name", Str(c.name))]))
      && Entry(data, "spec", Obj([Member("requirements", Obj(Requirements(c)))]))
      && RequirementsWritten(Requirements(c), c)
  {
    OuterKeysAreDistinct();
    var k, v := CONTRACT_KEYS, ContractValues(c);
    ZipHasEntries(k, v);
    assert Entry(Zip(k, v), k[0], v[0]) && Entry(Zip(k, v), k[1], v[1]) && Entry(Zip(k, v), k[2], v[2])
        && Entry(Zip(k, v), k[3], v[3]);
    assert Zip(["name"], [Str(c.name)]) == [Member("name", Str(c.name))];
    assert Zip(["requirements"], [Obj(Requirements(c))]) == [Member("requirements", Obj(Requirements(c)))];
    RequirementsAreWritten(c);
  }
}
