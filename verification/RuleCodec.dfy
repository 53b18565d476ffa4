/** Detection rules as JSON objects. Rewriting the packaged form into the flat one is a parameter. */
module RuleCodec {
  import opened JsonValues
  import opened DictFields

  datatype RuleStage = RuleStage(name: Option<string>, eventType: string, where: seq<Member>)

  datatype SequenceRule = SequenceRule(
    ruleId: Option<string>,
    name: string,
    version: string,
    severity: string,
    tags: seq<string>,
    rationale: string,
    references: seq<string>,
    requiredEvidenceQuality: seq<string>,
    groupBy: seq<string>,
    ordered: bool,
    withinSeconds: Option<int>,
    deduplicate: bool,
    suppressionSeconds: Option<int>,
    suppressionKey: seq<string>,
    stages: seq<RuleStage>)

  // ---------------------------------------------------------------- where clauses

  const OPERATORS: set<string> :=
    {"in", "exists", "prefix", "suffix", "regex", "not", "gt", "gte", "lt", "lte"}

  predicate ValidOperator(m: Member) {
    && m.key in OPERATORS
    && (m.key == "in" ==> m.value.Arr?)
    && (m.key == "exists" ==> m.value.Bool?)
    && (m.key in {"prefix", "suffix", "regex"} ==> m.value.Str?)
    && (m.key == "regex" && m.value.Str? ==> |m.value.s| <= 256)
  }

  predicate ValidPredicate(expected: Json) {
    expected.Obj? ==> forall m | m in expected.members :: ValidOperator(m)
  }

  predicate ValidWhere(ms: seq<Member>) { forall m | m in ms :: m.key != "" && ValidPredicate(m.value) }

  // ---------------------------------------------------------------- fields

  function OptionalString(v: Json): Loaded<Option<string>> {
    if v.Null? then Ok(None) else if v.Str? && v.s != "" then Ok(Some(v.s)) else Malformed
  }

  function OptionalText(v: Json): Loaded<string> {
    if v.Null? then Ok("") else if v.Str? then Ok(v.s) else Malformed
  }

  function StringTuple(v: Json): Loaded<seq<string>> {
    if v.Null? then Ok([]) else if v.Arr? then Texts(v.items) else Malformed
  }

  function BoolValue(v: Json, default: bool): Loaded<bool> {
    if v.Null? then Ok(default) else if v.Bool? then Ok(v.b) else Malformed
  }

  function OptionalNumber(v: Json): Loaded<Option<int>> {
    if v.Null? then Ok(None) else if v.Int? then Ok(Some(v.n)) else Malformed
  }

  function OrElse(x: Option<string>, default: string): string { match x case None => default case Some(s) => s }

  // ---------------------------------------------------------------- stages

  const STAGE_KEYS: seq<string> := ["name", "event_type", "where"]

  function StageToDict(s: RuleStage): seq<Member> {
    Zip(STAGE_KEYS, StageValues(s))
  }

  function StageValues(s: RuleStage): seq<Json> { [OptionalStr(s.name), Str(s.eventType), Obj(s.where)] }

  predicate NonEmptyKeys(ms: seq<Member>) { forall m | m in ms :: m.key != "" }

  function StageFromDict(ms: seq<Member>): Loaded<RuleStage> {
    if !NonEmptyKeys(ms) then Malformed
    else
      var where :- WhereFrom(Get(ms, "where"));
      var name :- OptionalString(GetOrNull(ms, "name"));
      var eventType :- RequiredString(GetOrNull(ms, "event_type"));
      Ok(RuleStage(name, eventType, where))
  }

  function WhereFrom(v: Option<Json>): Loaded<seq<Member>> {
    match v
    case None => Ok([])
    case Some(Null) => Ok([])
    case Some(Obj(ms)) => if ValidWhere(ms) then Ok(ms) else Malformed
    case _ => Malformed
  }

  predicate WellFormedStage(s: RuleStage) { s.name != Some("") && s.eventType != "" && ValidWhere(s.where) }

  lemma HeldStageReads(ms: seq<Member>, s: RuleStage)
    requires Holds(ms, STAGE_KEYS, StageValues(s))
    ensures GetOrNull(ms, "name") == OptionalStr(s.name) && GetOrNull(ms, "event_type") == Str(s.eventType)
    ensures GetOrNull(ms, "where") == Obj(s.where)
  {
    var k, v := STAGE_KEYS, StageValues(s);
    assert HoldsAt(ms, k[0], v[0]) && HoldsAt(ms, k[1], v[1]) && HoldsAt(ms, k[2], v[2]);
  }

  lemma ReadStage(ms: seq<Member>, s: RuleStage)
    requires GetOrNull(ms, "name") == OptionalStr(s.name) && GetOrNull(ms, "event_type") == Str(s.eventType)
    requires GetOrNull(ms, "where") == Obj(s.where) && NonEmptyKeys(ms)
    ensures StageFromDict(ms) == if WellFormedStage(s) then Ok(s) else Malformed
  {
  }

  lemma StageRoundTrip(s: RuleStage)
    ensures StageFromDict(StageToDict(s)) == if WellFormedStage(s) then Ok(s) else Malformed
  {
    var k := STAGE_KEYS;
    assert |k[0]| == 4 && |k[1]| == 10 && |k[2]| == 5;
    ZipHolds(STAGE_KEYS, StageValues(s));
    HeldStageReads(StageToDict(s), s);
    assert NonEmptyKeys(StageToDict(s));
    ReadStage(StageToDict(s), s);
  }

  // ---------------------------------------------------------------- rules

  const RULE_KEYS: seq<string> :=
    [ "rule_id", "name", "version", "severity", "tags", "rationale", "references", "required_evidence_quality",
      "group_by", "ordered", "within_seconds", "deduplicate", "suppression_seconds", "suppression_key", "stages" ]

  function RuleValues(r: SequenceRule): seq<Json> {
    [ OptionalStr(r.ruleId), Str(r.name), Str(r.version), Str(r.severity), StrList(r.tags), Str(r.rationale),
      StrList(r.references), StrList(r.requiredEvidenceQuality), StrList(r.groupBy), Bool(r.ordered),
      OptionalInt(r.withinSeconds), Bool(r.deduplicate), OptionalInt(r.suppressionSeconds),
      StrList(r.suppressionKey), ObjList(r.stages, StageToDict) ]
  }

  function RuleToDict(r: SequenceRule): seq<Member> { Zip(RULE_KEYS, RuleValues(r)) }

  predicate IsPackage(ms: seq<Member>) { Get(ms, "kind") == Some(Str("SequenceDetection")) || Get(ms, "spec").Some? }

  function Flat(package: seq<Member> -> Loaded<seq<Member>>, ms: seq<Member>): Loaded<seq<Member>> {
    if IsPackage(ms) then package(ms) else if NonEmptyKeys(ms) then Ok(ms) else Malformed
  }

  function RuleFromDict(package: seq<Member> -> Loaded<seq<Member>>, data: Json): Loaded<SequenceRule> {
    if !data.Obj? then Malformed
    else
      var ms :- Flat(package, data.members);
      RuleFromFields(ms)
  }

  function RuleFromFields(ms: seq<Member>): Loaded<SequenceRule> {
    match GetOrNull(ms, "stages")
    case Arr(items) =>
      if items == [] then Malformed
      else
        Combined(Identity(ms), Notes(ms), Paths(ms), Settings(ms), Objects(items, StageFromDict))
    case _ => Malformed
  }

  function Combined(
    identity: Loaded<(Option<string>, string, Option<string>, Option<string>)>,
    notes: Loaded<(seq<string>, string, seq<string>, seq<string>)>, paths: Loaded<(seq<string>, seq<string>)>,
    settings: Loaded<(bool, Option<int>, bool, Option<int>)>, stages: Loaded<seq<RuleStage>>): Loaded<SequenceRule>
  {
    var (ruleId, name, version, severity) :- identity;
    var (tags, rationale, references, quality) :- notes;
    var (groupBy, suppressionKey) :- paths;
    var (ordered, within, deduplicate, suppression) :- settings;
    var read :- stages;
    Ok(SequenceRule(
         ruleId, name, OrElse(version, "1"), OrElse(severity, "medium"), tags, rationale, references, quality,
         if groupBy == [] then ["correlation.run_id"] else groupBy, ordered, within, deduplicate, suppression,
         suppressionKey, read))
  }

  function Identity(ms: seq<Member>): Loaded<(Option<string>, string, Option<string>, Option<string>)> {
    var ruleId :- OptionalString(GetOrNull(ms, "rule_id"));
    var name :- RequiredString(GetOrNull(ms, "name"));
    var version :- OptionalString(GetOrNull(ms, "version"));
    var severity :- OptionalString(GetOrNull(ms, "severity"));
    Ok((ruleId, name, version, severity))
  }

  function Notes(ms: seq<Member>): Loaded<(seq<string>, string, seq<string>, seq<string>)> {
    var tags :- StringTuple(GetOrNull(ms, "tags"));
    var rationale :- OptionalText(GetOrNull(ms, "rationale"));
    var references :- StringTuple(GetOrNull(ms, "references"));
    var quality :- StringTuple(GetOrNull(ms, "required_evidence_quality"));
    Ok((tags, rationale, references, quality))
  }

  function Paths(ms: seq<Member>): Loaded<(seq<string>, seq<string>)> {
    var groupBy :- StringTuple(GetOrNull(ms, "group_by"));
    var suppressionKey :- StringTuple(GetOrNull(ms, "suppression_key"));
    Ok((groupBy, suppressionKey))
  }

  function Settings(ms: seq<Member>): Loaded<(bool, Option<int>, bool, Option<int>)> {
    var ordered :- BoolValue(GetOrNull(ms, "ordered"), true);
    var within :- OptionalNumber(GetOrNull(ms, "within_seconds"));
    var deduplicate :- BoolValue(GetOrNull(ms, "deduplicate"), true);
    var suppression :- OptionalNumber(GetOrNull(ms, "suppression_seconds"));
    Ok((ordered, within, deduplicate, suppression))
  }

  /** What a rule must be to survive the round trip. */
  predicate WellFormedRule(r: SequenceRule) {
    && r.ruleId != Some("") && r.name != "" && r.version != "" && r.severity != ""
    && NonEmpty(r.tags) && NonEmpty(r.references) && NonEmpty(r.requiredEvidenceQuality)
    && r.groupBy != [] && NonEmpty(r.groupBy) && NonEmpty(r.suppressionKey)
    && r.stages != [] && forall i | 0 <= i < |r.stages| :: WellFormedStage(r.stages[i])
  }

  lemma RuleKeysAreDistinct()
    ensures Distinct(RULE_KEYS)
    ensures forall i | 0 <= i < 15 :: RULE_KEYS[i] != "" && RULE_KEYS[i] != "kind" && RULE_KEYS[i] != "spec"
  {
    var k := RULE_KEYS;
    assert |k[0]| == 7 && |k[1]| == 4 && |k[2]| == 7 && |k[3]| == 8 && |k[4]| == 4 && |k[5]| == 9 && |k[6]| == 10
        && |k[7]| == 25 && |k[8]| == 8 && |k[9]| == 7 && |k[10]| == 14 && |k[11]| == 11 && |k[12]| == 19
        && |k[13]| == 15 && |k[14]| == 6;
    assert k[0][0] == 'r' && k[2][0] == 'v' && k[9][0] == 'o' && k[1][0] == 'n' && k[4][0] == 't'
        && k[3][0] == 's' && k[8][0] == 'g';
    assert "kind"[0] == 'k' && "spec"[0] == 's';
  }

  // A dict that reads, under each of these keys, as the rule's value.
  ghost predicate ReadsAs(ms: seq<Member>, r: SequenceRule) {
    IdentityReads(ms, r) && NotesRead(ms, r) && PathsRead(ms, r) && SettingsRead(ms, r)
    && GetOrNull(ms, "stages") == ObjList(r.stages, StageToDict)
  }

  ghost predicate IdentityReads(ms: seq<Member>, r: SequenceRule) {
    GetOrNull(ms, "rule_id") == OptionalStr(r.ruleId) && GetOrNull(ms, "name") == Str(r.name)
    && GetOrNull(ms, "version") == Str(r.version) && GetOrNull(ms, "severity") == Str(r.severity)
  }

  ghost predicate NotesRead(ms: seq<Member>, r: SequenceRule) {
    GetOrNull(ms, "tags") == StrList(r.tags) && GetOrNull(ms, "rationale") == Str(r.rationale)
    && GetOrNull(ms, "references") == StrList(r.references)
    && GetOrNull(ms, "required_evidence_quality") == StrList(r.requiredEvidenceQuality)
  }

  ghost predicate PathsRead(ms: seq<Member>, r: SequenceRule) {
    GetOrNull(ms, "group_by") == StrList(r.groupBy)
    && GetOrNull(ms, "suppression_key") == StrList(r.suppressionKey)
  }

  ghost predicate SettingsRead(ms: seq<Member>, r: SequenceRule) {
    GetOrNull(ms, "ordered") == Bool(r.ordered) && GetOrNull(ms, "within_seconds") == OptionalInt(r.withinSeconds)
    && GetOrNull(ms, "deduplicate") == Bool(r.deduplicate)
    && GetOrNull(ms, "suppression_seconds") == OptionalInt(r.suppressionSeconds)
  }

  lemma HeldIdentityReads(ms: seq<Member>, r: SequenceRule)
    requires Holds(ms, RULE_KEYS, RuleValues(r))
    ensures IdentityReads(ms, r)
  {
    var k, v := RULE_KEYS, RuleValues(r);
    assert HoldsAt(ms, k[0], v[0]) && HoldsAt(ms, k[1], v[1]) && HoldsAt(ms, k[2], v[2]) && HoldsAt(ms, k[3], v[3]);
  }

  lemma HeldNotesRead(ms: seq<Member>, r: SequenceRule)
    requires Holds(ms, RULE_KEYS, RuleValues(r))
    ensures NotesRead(ms, r)
  {
    var k, v := RULE_KEYS, RuleValues(r);
    assert HoldsAt(ms, k[4], v[4]) && HoldsAt(ms, k[5], v[5]) && HoldsAt(ms, k[6], v[6]) && HoldsAt(ms, k[7], v[7]);
  }

  lemma HeldPathsRead(ms: seq<Member>, r: SequenceRule)
    requires Holds(ms, RULE_KEYS, RuleValues(r))
    ensures PathsRead(ms, r) && GetOrNull(ms, "stages") == ObjList(r.stages, StageToDict)
  {
    var k, v := RULE_KEYS, RuleValues(r);
    assert HoldsAt(ms, k[8], v[8]) && HoldsAt(ms, k[13], v[13]) && HoldsAt(ms, k[14], v[14]);
  }

  lemma HeldSettingsRead(ms: seq<Member>, r: SequenceRule)
    requires Holds(ms, RULE_KEYS, RuleValues(r))
    ensures SettingsRead(ms, r)
  {
    var k, v := RULE_KEYS, RuleValues(r);
    assert HoldsAt(ms, k[9], v[9]) && HoldsAt(ms, k[10], v[10]) && HoldsAt(ms, k[11], v[11])
        && HoldsAt(ms, k[12], v[12]);
  }

  lemma StringTupleRoundTrip(xs: seq<string>)
    ensures StringTuple(StrList(xs)) == if NonEmpty(xs) then Ok(xs) else Malformed
  {
    TextsRoundTrip(xs);
  }

  lemma IdentityRoundTrip(ms: seq<Member>, r: SequenceRule)
    requires IdentityReads(ms, r)
    ensures Identity(ms) ==
      if r.ruleId != Some("") && r.name != "" && r.version != "" && r.severity != ""
      then Ok((r.ruleId, r.name, Some(r.version), Some(r.severity))) else Malformed
  {
  }

  lemma NotesRoundTrip(ms: seq<Member>, r: SequenceRule)
    requires NotesRead(ms, r)
    ensures Notes(ms) ==
      if NonEmpty(r.tags) && NonEmpty(r.references) && NonEmpty(r.requiredEvidenceQuality)
      then Ok((r.tags, r.rationale, r.references, r.requiredEvidenceQuality)) else Malformed
  {
    StringTupleRoundTrip(r.tags);
    StringTupleRoundTrip(r.references);
    StringTupleRoundTrip(r.requiredEvidenceQuality);
  }

  lemma PathsRoundTrip(ms: seq<Member>, r: SequenceRule)
    requires PathsRead(ms, r)
    ensures Paths(ms) ==
      if NonEmpty(r.groupBy) && NonEmpty(r.suppressionKey) then Ok((r.groupBy, r.suppressionKey)) else Malformed
  {
    StringTupleRoundTrip(r.groupBy);
    StringTupleRoundTrip(r.suppressionKey);
  }

  lemma SettingsRoundTrip(ms: seq<Member>, r: SequenceRule)
    requires SettingsRead(ms, r)
    ensures Settings(ms) == Ok((r.ordered, r.withinSeconds, r.deduplicate, r.suppressionSeconds))
  {
  }

  lemma RuleIsFlat(package: seq<Member> -> Loaded<seq<Member>>, r: SequenceRule)
    ensures Flat(package, RuleToDict(r)) == Ok(RuleToDict(r))
  {
    RuleKeysAreDistinct();
    var ms := RuleToDict(r);
    forall m | m in ms ensures m.key != "" && m.key != "kind" && m.key != "spec" {
      var i :| 0 <= i < |ms| && ms[i] == m;
    }
  }

  lemma StagesRoundTrip(stages: seq<RuleStage>)
    ensures Objects(ObjList(stages, StageToDict).items, StageFromDict) == Ok(stages)
       <==> forall i | 0 <= i < |stages| :: WellFormedStage(stages[i])
  {
    ObjectsRoundTrip(stages, StageToDict, StageFromDict);
    forall i | 0 <= i < |stages|
      ensures StageFromDict(StageToDict(stages[i])) == Ok(stages[i]) <==> WellFormedStage(stages[i])
    {
      StageRoundTrip(stages[i]);
    }
  }

  lemma {:induction false} FieldsRoundTrip(ms: seq<Member>, r: SequenceRule)
    requires ReadsAs(ms, r)
    ensures RuleFromFields(ms) == Ok(r) <==> WellFormedRule(r)
  {
    IdentityRoundTrip(ms, r);
    NotesRoundTrip(ms, r);
    PathsRoundTrip(ms, r);
    SettingsRoundTrip(ms, r);
    StagesRoundTrip(r.stages);
  }

  /** Writing a rule and reading it back gives the same rule exactly when it is well formed. */
  lemma RuleRoundTripIff(package: seq<Member> -> Loaded<seq<Member>>, r: SequenceRule)
    ensures RuleFromDict(package, Obj(RuleToDict(r))) == Ok(r) <==> WellFormedRule(r)
  {
    var ms := RuleToDict(r);
    RuleIsFlat(package, r);
    RuleKeysAreDistinct();
    ZipHolds(RULE_KEYS, RuleValues(r));
    HeldIdentityReads(ms, r);
    HeldNotesRead(ms, r);
    HeldPathsRead(ms, r);
    HeldSettingsRead(ms, r);
    FieldsRoundTrip(ms, r);
  }
}
