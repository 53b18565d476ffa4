/** Which dicts read as which rules: the fields by name, and what stands in for a field left out. */
module RuleReading {
  import opened JsonValues
  import opened DictFields
  import opened RuleCodec

  predicate MaybeName(v: Option<Json>, x: Option<string>) {
    match x case None => Missing(v) case Some(s) => NameAt(v, s)
  }

  predicate NameOr(v: Option<Json>, s: string, default: string) { NameAt(v, s) || (Missing(v) && s == default) }

  predicate TextOr(v: Option<Json>, s: string, default: string) { v == Some(Str(s)) || (Missing(v) && s == default) }

  predicate Names(v: Option<Json>, xs: seq<string>) { NamesAt(v, xs) || (Missing(v) && xs == []) }

  // No names, or none given, stand for the default ones.
  predicate NamesOr(v: Option<Json>, xs: seq<string>, default: seq<string>) {
    (xs != [] && NamesAt(v, xs)) || (Names(v, []) && xs == default)
  }

  predicate FlagOr(v: Option<Json>, b: bool, default: bool) { v == Some(Bool(b)) || (Missing(v) && b == default) }

  predicate MaybeNumber(v: Option<Json>, x: Option<int>) {
    match x case None => Missing(v) case Some(n) => v == Some(Int(n))
  }

  // An operator of a predicate on a field, with the kind of operand it takes.
  predicate OperatorAllowed(m: Member) {
    || (m.key == "in" && m.value.Arr?)
    || (m.key == "exists" && m.value.Bool?)
    || ((m.key == "prefix" || m.key == "suffix") && m.value.Str?)
    || (m.key == "regex" && m.value.Str? && |m.value.s| <= 256)
    || m.key == "not" || m.key == "gt" || m.key == "gte" || m.key == "lt" || m.key == "lte"
  }

  // A field is compared with a plain value, or with operators.
  predicate ExpectedAllowed(v: Json) { v.Obj? ==> forall m | m in v.members :: OperatorAllowed(m) }

  predicate WhereReads(v: Option<Json>, where: seq<Member>) {
    || (Missing(v) && where == [])
    || (v == Some(Obj(where)) && forall m | m in where :: m.key != "" && ExpectedAllowed(m.value))
  }

  predicate StageReads(ms: seq<Member>, s: RuleStage) {
    && (forall m | m in ms :: m.key != "")
    && MaybeName(Get(ms, "name"), s.name) && NameAt(Get(ms, "event_type"), s.eventType)
    && WhereReads(Get(ms, "where"), s.where)
  }

  predicate StagesRead(v: Option<Json>, stages: seq<RuleStage>) {
    && v.Some? && v.value.Arr? && stages != [] && |v.value.items| == |stages|
    && forall i | 0 <= i < |stages| :: v.value.items[i].Obj? && StageReads(v.value.items[i].members, stages[i])
  }

  predicate IdentityIs(ms: seq<Member>, r: SequenceRule) {
    && MaybeName(Get(ms, "rule_id"), r.ruleId) && NameAt(Get(ms, "name"), r.name)
    && NameOr(Get(ms, "version"), r.version, "1") && NameOr(Get(ms, "severity"), r.severity, "medium")
  }

  predicate NotesAre(ms: seq<Member>, r: SequenceRule) {
    && Names(Get(ms, "tags"), r.tags) && TextOr(Get(ms, "rationale"), r.rationale, "")
    && Names(Get(ms, "references"), r.references)
    && Names(Get(ms, "required_evidence_quality"), r.requiredEvidenceQuality)
  }

  predicate PathsAre(ms: seq<Member>, r: SequenceRule) {
    && NamesOr(Get(ms, "group_by"), r.groupBy, ["correlation.run_id"])
    && Names(Get(ms, "suppression_key"), r.suppressionKey)
  }

  predicate SettingsAre(ms: seq<Member>, r: SequenceRule) {
    && FlagOr(Get(ms, "ordered"), r.ordered, true) && MaybeNumber(Get(ms, "within_seconds"), r.withinSeconds)
    && FlagOr(Get(ms, "deduplicate"), r.deduplicate, true)
    && MaybeNumber(Get(ms, "suppression_seconds"), r.suppressionSeconds)
  }

  // ---------------------------------------------------------------- field by field

  lemma MaybeNameIff(ms: seq<Member>, key: string, x: Option<string>)
    ensures OptionalString(GetOrNull(ms, key)) == Ok(x) <==> MaybeName(Get(ms, key), x)
  {
  }

  lemma NamesIff(ms: seq<Member>, key: string, xs: seq<string>)
    ensures StringTuple(GetOrNull(ms, key)) == Ok(xs) <==> Names(Get(ms, key), xs)
  {
    match Get(ms, key)
    case Some(Arr(items)) => TextsIff(items, xs);
    case _ =>
  }

  lemma OperatorIff(m: Member)
    ensures ValidOperator(m) <==> OperatorAllowed(m)
  {
    assert |"in"| == 2 && |"gt"| == 2 && |"lt"| == 2 && |"not"| == 3 && |"gte"| == 3 && |"lte"| == 3
        && |"regex"| == 5 && |"exists"| == 6 && |"prefix"| == 6 && |"suffix"| == 6;
    assert "in"[0] == 'i' && "gt"[0] == 'g' && "lt"[0] == 'l' && "not"[0] == 'n' && "gte"[0] == 'g' && "lte"[0] == 'l'
        && "exists"[0] == 'e' && "prefix"[0] == 'p' && "suffix"[0] == 's';
  }

  lemma ExpectedIff(v: Json)
    ensures ValidPredicate(v) <==> ExpectedAllowed(v)
  {
    if v.Obj? { forall m | m in v.members ensures ValidOperator(m) <==> OperatorAllowed(m) { OperatorIff(m); } }
  }

  lemma WhereIff(v: Option<Json>, where: seq<Member>)
    ensures WhereFrom(v) == Ok(where) <==> WhereReads(v, where)
  {
    forall m: Member ensures ValidPredicate(m.value) <==> ExpectedAllowed(m.value) { ExpectedIff(m.value); }
  }

  lemma StageIff(ms: seq<Member>, s: RuleStage)
    ensures StageFromDict(ms) == Ok(s) <==> StageReads(ms, s)
  {
    WhereIff(Get(ms, "where"), s.where);
    MaybeNameIff(ms, "name", s.name);
    StageParts(ms, s);
  }

  lemma StageParts(ms: seq<Member>, s: RuleStage)
    ensures StageFromDict(ms) == Ok(s) <==>
      (NonEmptyKeys(ms) && WhereFrom(Get(ms, "where")) == Ok(s.where)
       && OptionalString(GetOrNull(ms, "name")) == Ok(s.name)
       && RequiredString(GetOrNull(ms, "event_type")) == Ok(s.eventType))
  {
  }

  lemma StagesIff(items: seq<Json>, stages: seq<RuleStage>)
    ensures Objects(items, StageFromDict) == Ok(stages) && items != [] <==> StagesRead(Some(Arr(items)), stages)
  {
    ObjectsIff(items, StageFromDict, stages);
    forall i | 0 <= i < |items| && i < |stages| && items[i].Obj?
      ensures ItemReads(items[i], StageFromDict, stages[i]) <==> StageReads(items[i].members, stages[i])
    {
      StageIff(items[i].members, stages[i]);
    }
    if StagesRead(Some(Arr(items)), stages) {
      forall i | 0 <= i < |stages| ensures ItemReads(items[i], StageFromDict, stages[i]) {
        assert items[i].Obj? && StageReads(items[i].members, stages[i]);
      }
    }
    if ItemsRead(items, StageFromDict, stages) {
      forall i | 0 <= i < |stages| ensures items[i].Obj? && StageReads(items[i].members, stages[i]) {
        assert ItemReads(items[i], StageFromDict, stages[i]);
      }
    }
  }

  lemma NameOrIff(v: Option<Json>, s: string, default: string)
    requires default != ""
    ensures NameOr(v, s, default) <==>
      var read := OptionalString(match v case None => Null case Some(j) => j);
      read.Ok? && OrElse(read.value, default) == s
  {
  }

  ghost predicate IdentityGives(
    identity: Loaded<(Option<string>, string, Option<string>, Option<string>)>, r: SequenceRule)
  {
    && identity.Ok? && identity.value.0 == r.ruleId && identity.value.1 == r.name
    && OrElse(identity.value.2, "1") == r.version && OrElse(identity.value.3, "medium") == r.severity
  }

  lemma IdentityIff(ms: seq<Member>, r: SequenceRule)
    ensures IdentityIs(ms, r) <==> IdentityGives(Identity(ms), r)
  {
    MaybeNameIff(ms, "rule_id", r.ruleId);
    NameOrIff(Get(ms, "version"), r.version, "1");
    NameOrIff(Get(ms, "severity"), r.severity, "medium");
    IdentityParts(ms, r);
  }

  lemma IdentityParts(ms: seq<Member>, r: SequenceRule)
    ensures IdentityGives(Identity(ms), r) <==>
      (OptionalString(GetOrNull(ms, "rule_id")) == Ok(r.ruleId) && RequiredString(GetOrNull(ms, "name")) == Ok(r.name)
       && OptionalString(GetOrNull(ms, "version")).Ok?
       && OrElse(OptionalString(GetOrNull(ms, "version")).value, "1") == r.version
       && OptionalString(GetOrNull(ms, "severity")).Ok?
       && OrElse(OptionalString(GetOrNull(ms, "severity")).value, "medium") == r.severity)
  {
  }

  lemma NotesIff(ms: seq<Member>, r: SequenceRule)
    ensures NotesAre(ms, r) <==> Notes(ms) == Ok((r.tags, r.rationale, r.references, r.requiredEvidenceQuality))
  {
    NamesIff(ms, "tags", r.tags);
    NamesIff(ms, "references", r.references);
    NamesIff(ms, "required_evidence_quality", r.requiredEvidenceQuality);
    NotesParts(ms, r);
  }

  lemma NotesParts(ms: seq<Member>, r: SequenceRule)
    ensures Notes(ms) == Ok((r.tags, r.rationale, r.references, r.requiredEvidenceQuality)) <==>
      (StringTuple(GetOrNull(ms, "tags")) == Ok(r.tags) && TextOr(Get(ms, "rationale"), r.rationale, "")
       && StringTuple(GetOrNull(ms, "references")) == Ok(r.references)
       && StringTuple(GetOrNull(ms, "required_evidence_quality")) == Ok(r.requiredEvidenceQuality))
  {
  }

  // What is read as group-by names, with the default for none.
  function GroupedBy(names: seq<string>): seq<string> { if names == [] then ["correlation.run_id"] else names }

  ghost predicate PathsGive(paths: Loaded<(seq<string>, seq<string>)>, r: SequenceRule) {
    paths.Ok? && GroupedBy(paths.value.0) == r.groupBy && paths.value.1 == r.suppressionKey
  }

  lemma PathsIff(ms: seq<Member>, r: SequenceRule)
    ensures PathsAre(ms, r) <==> PathsGive(Paths(ms), r)
  {
    NamesIff(ms, "group_by", r.groupBy);
    NamesIff(ms, "group_by", []);
    NamesIff(ms, "suppression_key", r.suppressionKey);
    if Paths(ms).Ok? {
      NamesIff(ms, "group_by", Paths(ms).value.0);
      NamesIff(ms, "suppression_key", Paths(ms).value.1);
    }
  }

  lemma FlagIff(ms: seq<Member>, key: string, b: bool, default: bool)
    ensures BoolValue(GetOrNull(ms, key), default) == Ok(b) <==> FlagOr(Get(ms, key), b, default)
  {
  }

  lemma NumberIff(ms: seq<Member>, key: string, x: Option<int>)
    ensures OptionalNumber(GetOrNull(ms, key)) == Ok(x) <==> MaybeNumber(Get(ms, key), x)
  {
  }

  lemma SettingsIff(ms: seq<Member>, r: SequenceRule)
    ensures SettingsAre(ms, r) <==>
      Settings(ms) == Ok((r.ordered, r.withinSeconds, r.deduplicate, r.suppressionSeconds))
  {
    FlagIff(ms, "ordered", r.ordered, true);
    NumberIff(ms, "within_seconds", r.withinSeconds);
    FlagIff(ms, "deduplicate", r.deduplicate, true);
    NumberIff(ms, "suppression_seconds", r.suppressionSeconds);
    SettingsParts(ms, r);
  }

  lemma SettingsParts(ms: seq<Member>, r: SequenceRule)
    ensures Settings(ms) == Ok((r.ordered, r.withinSeconds, r.deduplicate, r.suppressionSeconds)) <==>
      (BoolValue(GetOrNull(ms, "ordered"), true) == Ok(r.ordered)
       && OptionalNumber(GetOrNull(ms, "within_seconds")) == Ok(r.withinSeconds)
       && BoolValue(GetOrNull(ms, "deduplicate"), true) == Ok(r.deduplicate)
       && OptionalNumber(GetOrNull(ms, "suppression_seconds")) == Ok(r.suppressionSeconds))
  {
  }

  // ---------------------------------------------------------------- the rule

  predicate RuleReads(ms: seq<Member>, r: SequenceRule) {
    IdentityIs(ms, r) && NotesAre(ms, r) && PathsAre(ms, r) && SettingsAre(ms, r) && StagesRead(Get(ms, "stages"), r.stages)
  }

  lemma {:induction false} FieldsIff(ms: seq<Member>, r: SequenceRule)
    ensures RuleFromFields(ms) == Ok(r) <==> RuleReads(ms, r)
  {
    if Get(ms, "stages").Some? && Get(ms, "stages").value.Arr? { ListedIff(ms, Get(ms, "stages").value.items, r); }
  }

  lemma {:induction false} ListedIff(ms: seq<Member>, items: seq<Json>, r: SequenceRule)
    requires Get(ms, "stages") == Some(Arr(items))
    ensures RuleFromFields(ms) == Ok(r) <==> RuleReads(ms, r)
  {
    var identity, notes, paths, settings := Identity(ms), Notes(ms), Paths(ms), Settings(ms);
    IdentityIff(ms, r);
    NotesIff(ms, r);
    PathsIff(ms, r);
    SettingsIff(ms, r);
    StagesIff(items, r.stages);
    PartsIff(ms, items, r, identity, notes, paths, settings, Objects(items, StageFromDict));
    FieldsAreCombined(ms, items);
  }

  lemma {:induction false} FieldsAreCombined(ms: seq<Member>, items: seq<Json>)
    requires Get(ms, "stages") == Some(Arr(items))
    ensures RuleFromFields(ms)
         == if items == [] then Malformed
            else Combined(Identity(ms), Notes(ms), Paths(ms), Settings(ms), Objects(items, StageFromDict))
  {
  }

  lemma {:induction false} PartsIff(
    ms: seq<Member>, items: seq<Json>, r: SequenceRule,
    identity: Loaded<(Option<string>, string, Option<string>, Option<string>)>,
    notes: Loaded<(seq<string>, string, seq<string>, seq<string>)>, paths: Loaded<(seq<string>, seq<string>)>,
    settings: Loaded<(bool, Option<int>, bool, Option<int>)>, stages: Loaded<seq<RuleStage>>)
    requires Get(ms, "stages") == Some(Arr(items))
    requires IdentityIs(ms, r) <==> IdentityGives(identity, r)
    requires NotesAre(ms, r) <==> notes == Ok((r.tags, r.rationale, r.references, r.requiredEvidenceQuality))
    requires PathsAre(ms, r) <==> PathsGive(paths, r)
    requires SettingsAre(ms, r) <==>
      settings == Ok((r.ordered, r.withinSeconds, r.deduplicate, r.suppressionSeconds))
    requires stages == Ok(r.stages) && items != [] <==> StagesRead(Some(Arr(items)), r.stages)
    ensures items != [] && Combined(identity, notes, paths, settings, stages) == Ok(r) <==> RuleReads(ms, r)
  {
    CombinedIff(identity, notes, paths, settings, stages, r);
  }

  lemma CombinedIff(
    identity: Loaded<(Option<string>, string, Option<string>, Option<string>)>,
    notes: Loaded<(seq<string>, string, seq<string>, seq<string>)>, paths: Loaded<(seq<string>, seq<string>)>,
    settings: Loaded<(bool, Option<int>, bool, Option<int>)>, stages: Loaded<seq<RuleStage>>, r: SequenceRule)
    ensures Combined(identity, notes, paths, settings, stages) == Ok(r) <==>
      (IdentityGives(identity, r) && notes == Ok((r.tags, r.rationale, r.references, r.requiredEvidenceQuality))
       && PathsGive(paths, r)
       && settings == Ok((r.ordered, r.withinSeconds, r.deduplicate, r.suppressionSeconds)) && stages == Ok(r.stages))
  {
    if notes.Ok? { assert notes.value == (notes.value.0, notes.value.1, notes.value.2, notes.value.3); }
    if settings.Ok? {
      assert settings.value == (settings.value.0, settings.value.1, settings.value.2, settings.value.3);
    }
  }

  /** A flat dict reads as a rule exactly when no key in it is empty and every field is the rule's: under its
      own name, or left out where the rule has the default. */
  lemma RuleReadsIff(package: seq<Member> -> Loaded<seq<Member>>, ms: seq<Member>, r: SequenceRule)
    requires Get(ms, "kind") != Some(Str("SequenceDetection")) && Get(ms, "spec") == None
    ensures RuleFromDict(package, Obj(ms)) == Ok(r) <==> (forall m | m in ms :: m.key != "") && RuleReads(ms, r)
  {
    FieldsIff(ms, r);
  }

  // ---------------------------------------------------------------- what is written

  /** A stage is written with its three entries, empty ones included. */
  lemma StageIsWritten(s: RuleStage)
    ensures
      var ms := StageToDict(s);
      && |ms| == 3 && Entry(ms, "name", match s.name case None => Null case Some(x) => Str(x))
      && Entry(ms, "event_type", Str(s.eventType)) && Entry(ms, "where", Obj(s.where))
  {
    var k, v := STAGE_KEYS, StageValues(s);
    assert |k[0]| == 4 && |k[1]| == 10 && |k[2]| == 5;
    ZipHasEntries(k, v);
    assert Entry(Zip(k, v), k[0], v[0]) && Entry(Zip(k, v), k[1], v[1]) && Entry(Zip(k, v), k[2], v[2]);
  }

  ghost predicate NotesWritten(ms: seq<Member>, r: SequenceRule) {
    && Entry(ms, "rule_id", OptionalStr(r.ruleId)) && Entry(ms, "name", Str(r.name))
    && Entry(ms, "version", Str(r.version)) && Entry(ms, "severity", Str(r.severity))
    && Entry(ms, "tags", StrList(r.tags)) && Entry(ms, "rationale", Str(r.rationale))
    && Entry(ms, "references", StrList(r.references))
    && Entry(ms, "required_evidence_quality", StrList(r.requiredEvidenceQuality))
  }

  ghost predicate SettingsWritten(ms: seq<Member>, r: SequenceRule) {
    && Entry(ms, "group_by", StrList(r.groupBy)) && Entry(ms, "ordered", Bool(r.ordered))
    && Entry(ms, "within_seconds", OptionalInt(r.withinSeconds)) && Entry(ms, "deduplicate", Bool(r.deduplicate))
    && Entry(ms, "suppression_seconds", OptionalInt(r.suppressionSeconds))
    && Entry(ms, "suppression_key", StrList(r.suppressionKey))
  }

  ghost predicate AllEntries(ms: seq<Member>, keys: seq<string>, values: seq<Json>) {
    |keys| == |values| && forall i | 0 <= i < |keys| :: Entry(ms, keys[i], values[i])
  }

  lemma NotesAreWritten(ms: seq<Member>, r: SequenceRule)
    requires AllEntries(ms, RULE_KEYS, RuleValues(r))
    ensures NotesWritten(ms, r)
  {
    var k, v := RULE_KEYS, RuleValues(r);
    assert Entry(ms, k[0], v[0]) && Entry(ms, k[1], v[1]) && Entry(ms, k[2], v[2]) && Entry(ms, k[3], v[3])
        && Entry(ms, k[4], v[4]) && Entry(ms, k[5], v[5]) && Entry(ms, k[6], v[6]) && Entry(ms, k[7], v[7]);
  }

  lemma SettingsAreWritten(ms: seq<Member>, r: SequenceRule)
    requires AllEntries(ms, RULE_KEYS, RuleValues(r))
    ensures SettingsWritten(ms, r) && Entry(ms, "stages", ObjList(r.stages, StageToDict))
  {
    var k, v := RULE_KEYS, RuleValues(r);
    assert Entry(ms, k[8], v[8]) && Entry(ms, k[9], v[9]) && Entry(ms, k[10], v[10]) && Entry(ms, k[11], v[11])
        && Entry(ms, k[12], v[12]) && Entry(ms, k[13], v[13]) && Entry(ms, k[14], v[14]);
  }

  /** A rule is written with all its fields, the default and empty ones included, and nothing else. */
  lemma RuleIsWritten(r: SequenceRule)
    ensures
      var ms := RuleToDict(r);
      |ms| == 15 && NotesWritten(ms, r) && SettingsWritten(ms, r) && Entry(ms, "stages", ObjList(r.stages, StageToDict))
  {
    RuleKeysAreDistinct();
    ZipHasEntries(RULE_KEYS, RuleValues(r));
    NotesAreWritten(RuleToDict(r), r);
    SettingsAreWritten(RuleToDict(r), r);
  }
}
