/** Anchor-log records and their JSON form. SHA-256 and the timestamp codec are parameters. */
module AnchorRecords {
  import opened JsonValues
  import opened JsonText

  datatype Platform = Platform(
    digest: string -> string,
    parseTime: string -> Option<int>,
    formatTime: int -> string)
  {
    ghost predicate CollisionFree() { forall a, b | digest(a) == digest(b) :: a == b }

    ghost predicate TimesRoundTrip() {
      forall t :: formatTime(t) != "" && parseTime(formatTime(t)) == Some(t)
    }
  }

  /** A trusted root. Fields the reader does not check may hold any JSON value. */
  datatype Anchor = Anchor(
    anchorVersion: string,
    createdAt: int,
    journalPath: string,
    lastEventHash: Json,
    recordCount: Json,
    signature: Json,
    signatureAlgorithm: Json)

  datatype Entry = Entry(
    anchor: Anchor,
    createdAt: int,
    entryHash: Json,
    logVersion: string,
    previousEntryHash: Json,
    sequence: Json)

  const LOG_VERSION := "actionlineage.dev/journal-anchor-log-v1"

  // ---------------------------------------------------------------- records as JSON

  const ANCHOR_KEYS: seq<string> :=
    [ "anchor_version", "created_at", "journal_path", "last_event_hash", "record_count",
      "signature", "signature_algorithm" ]

  const ENTRY_KEYS: seq<string> :=
    [ "anchor", "created_at", "entry_hash", "log_version", "previous_entry_hash", "sequence" ]

  function AnchorValues(p: Platform, a: Anchor): seq<Json> {
    [ Str(a.anchorVersion), Str(p.formatTime(a.createdAt)), Str(a.journalPath), a.lastEventHash,
      a.recordCount, a.signature, a.signatureAlgorithm ]
  }

  function AnchorJson(p: Platform, a: Anchor): Json { Obj(Zip(ANCHOR_KEYS, AnchorValues(p, a))) }

  function EntryValues(p: Platform, e: Entry): seq<Json> {
    [ AnchorJson(p, e.anchor), Str(p.formatTime(e.createdAt)), e.entryHash, Str(e.logVersion),
      e.previousEntryHash, e.sequence ]
  }

  function EntryJson(p: Platform, e: Entry): Json { Obj(Zip(ENTRY_KEYS, EntryValues(p, e))) }

  function EntryText(p: Platform, e: Entry): string { Print(EntryJson(p, e)) }

  // The record's hash covers the record with its own hash left empty.
  function EntryHash(p: Platform, e: Entry): string {
    p.digest(EntryText(p, e.(entryHash := Null)))
  }

  function GetOrNull(ms: seq<Member>, key: string): Json {
    match Get(ms, key) case None => Null case Some(v) => v
  }

  function RequiredStr(ms: seq<Member>, key: string): Option<string> {
    match Get(ms, key)
    case Some(Str(s)) => if s == "" then None else Some(s)
    case _ => None
  }

  // A Python bool is an int.
  function RequiredInt(ms: seq<Member>, key: string): Option<Json> {
    match Get(ms, key)
    case Some(v) => if v.Int? || v.Bool? then Some(v) else None
    case None => None
  }

  function RequiredTime(p: Platform, ms: seq<Member>, key: string): Option<int> {
    match RequiredStr(ms, key) case None => None case Some(s) => p.parseTime(s)
  }

  function AnchorFromMembers(p: Platform, ms: seq<Member>): Option<Anchor> {
    match (RequiredTime(p, ms, "created_at"), RequiredStr(ms, "anchor_version"),
           RequiredStr(ms, "journal_path"), RequiredInt(ms, "record_count"))
    case (Some(t), Some(version), Some(path), Some(count)) =>
      Some(Anchor(version, t, path, GetOrNull(ms, "last_event_hash"), count,
                  GetOrNull(ms, "signature"), GetOrNull(ms, "signature_algorithm")))
    case _ => None
  }

  function EntryFromMembers(p: Platform, ms: seq<Member>): Option<Entry> {
    match Get(ms, "anchor")
    case Some(Obj(anchor)) =>
      (match (RequiredTime(p, ms, "created_at"), AnchorFromMembers(p, anchor),
              RequiredStr(ms, "log_version"), RequiredInt(ms, "sequence"))
       case (Some(t), Some(a), Some(version), Some(n)) =>
         Some(Entry(a, t, GetOrNull(ms, "entry_hash"), version, GetOrNull(ms, "previous_entry_hash"), n))
       case _ => None)
    case _ => None
  }

  function EntryOf(p: Platform, line: string): Option<Entry> {
    match Loads(line, false)
    case Some(Obj(ms)) => EntryFromMembers(p, ms)
    case _ => None
  }

  // ---------------------------------------------------------------- reading back what was written

  function CanonAnchor(a: Anchor): Anchor {
    a.(lastEventHash := Canon(a.lastEventHash), recordCount := Canon(a.recordCount),
       signature := Canon(a.signature), signatureAlgorithm := Canon(a.signatureAlgorithm))
  }

  /** The record with dict-valued fields in key order; the identity when hashes are text or null. */
  function CanonEntry(e: Entry): Entry {
    e.(anchor := CanonAnchor(e.anchor), entryHash := Canon(e.entryHash),
       previousEntryHash := Canon(e.previousEntryHash), sequence := Canon(e.sequence))
  }

  ghost predicate PythonAnchor(a: Anchor) {
    WellFormed(a.lastEventHash) && WellFormed(a.recordCount) && WellFormed(a.signature)
    && WellFormed(a.signatureAlgorithm)
  }

  ghost predicate PythonEntry(e: Entry) {
    PythonAnchor(e.anchor) && WellFormed(e.entryHash) && WellFormed(e.previousEntryHash)
    && WellFormed(e.sequence)
  }

  // What the reader requires of an anchor.
  predicate ReadableAnchor(a: Anchor) {
    a.anchorVersion != "" && a.journalPath != "" && (a.recordCount.Int? || a.recordCount.Bool?)
  }

  predicate ReadableEntry(e: Entry) {
    ReadableAnchor(e.anchor) && e.logVersion != "" && (e.sequence.Int? || e.sequence.Bool?)
  }

  lemma KeysAreDistinct()
    ensures Distinct(ANCHOR_KEYS) && Distinct(ENTRY_KEYS)
  {
    var a, e := ANCHOR_KEYS, ENTRY_KEYS;
    assert a[0][0] == 'a' && a[1][0] == 'c' && a[2][0] == 'j' && a[3][0] == 'l' && a[4][0] == 'r'
        && a[5][0] == 's' && a[6][0] == 's' && |a[5]| != |a[6]|;
    assert e[0][0] == 'a' && e[1][0] == 'c' && e[2][0] == 'e' && e[3][0] == 'l' && e[4][0] == 'p'
        && e[5][0] == 's';
  }

  lemma AnchorFields(p: Platform, a: Anchor)
    ensures var ms := Canon(AnchorJson(p, a)).members;
      && Get(ms, "anchor_version") == Some(Str(a.anchorVersion))
      && Get(ms, "created_at") == Some(Str(p.formatTime(a.createdAt)))
      && Get(ms, "journal_path") == Some(Str(a.journalPath))
      && Get(ms, "last_event_hash") == Some(Canon(a.lastEventHash))
      && Get(ms, "record_count") == Some(Canon(a.recordCount))
      && Get(ms, "signature") == Some(Canon(a.signature))
      && Get(ms, "signature_algorithm") == Some(Canon(a.signatureAlgorithm))
  {
    KeysAreDistinct();
    var keys, values := ANCHOR_KEYS, AnchorValues(p, a);
    ZipLookup(keys, values, 0);
    ZipLookup(keys, values, 1);
    ZipLookup(keys, values, 2);
    ZipLookup(keys, values, 3);
    ZipLookup(keys, values, 4);
    ZipLookup(keys, values, 5);
    ZipLookup(keys, values, 6);
  }

  lemma EntryFields(p: Platform, e: Entry)
    ensures var ms := Canon(EntryJson(p, e)).members;
      && Get(ms, "anchor") == Some(Canon(AnchorJson(p, e.anchor)))
      && Get(ms, "created_at") == Some(Str(p.formatTime(e.createdAt)))
      && Get(ms, "entry_hash") == Some(Canon(e.entryHash))
      && Get(ms, "log_version") == Some(Str(e.logVersion))
      && Get(ms, "previous_entry_hash") == Some(Canon(e.previousEntryHash))
      && Get(ms, "sequence") == Some(Canon(e.sequence))
  {
    KeysAreDistinct();
    var keys, values := ENTRY_KEYS, EntryValues(p, e);
    ZipLookup(keys, values, 0);
    ZipLookup(keys, values, 1);
    ZipLookup(keys, values, 2);
    ZipLookup(keys, values, 3);
    ZipLookup(keys, values, 4);
    ZipLookup(keys, values, 5);
  }

  lemma EntryIsWellFormed(p: Platform, e: Entry)
    requires PythonEntry(e)
    ensures WellFormed(EntryJson(p, e))
  {
    KeysAreDistinct();
    ZipIsWellFormed(ANCHOR_KEYS, AnchorValues(p, e.anchor));
    ZipIsWellFormed(ENTRY_KEYS, EntryValues(p, e));
  }

  lemma {:induction false} AnchorReadsBack(p: Platform, a: Anchor)
    requires p.TimesRoundTrip()
    ensures AnchorFromMembers(p, Canon(AnchorJson(p, a)).members)
         == if ReadableAnchor(a) then Some(CanonAnchor(a)) else None
  {
    AnchorFields(p, a);
  }

  lemma {:induction false} EntryFromFields(p: Platform, ms: seq<Member>, e: Entry, anchor: Option<Anchor>)
    requires p.TimesRoundTrip()
    requires Get(ms, "anchor").Some? && Get(ms, "anchor").value.Obj?
    requires anchor == AnchorFromMembers(p, Get(ms, "anchor").value.members)
    requires Get(ms, "created_at") == Some(Str(p.formatTime(e.createdAt)))
    requires Get(ms, "entry_hash") == Some(e.entryHash)
    requires Get(ms, "log_version") == Some(Str(e.logVersion))
    requires Get(ms, "previous_entry_hash") == Some(e.previousEntryHash)
    requires Get(ms, "sequence") == Some(e.sequence)
    ensures EntryFromMembers(p, ms)
         == if anchor.Some? && e.logVersion != "" && (e.sequence.Int? || e.sequence.Bool?)
            then Some(e.(anchor := anchor.value)) else None
  {
    assert RequiredTime(p, ms, "created_at") == Some(e.createdAt);
    assert RequiredStr(ms, "log_version") == if e.logVersion == "" then None else Some(e.logVersion);
  }

  lemma {:induction false} EntryMembersReadBack(p: Platform, e: Entry)
    requires p.TimesRoundTrip()
    ensures EntryFromMembers(p, Canon(EntryJson(p, e)).members)
         == if ReadableEntry(e) then Some(CanonEntry(e)) else None
  {
    EntryFields(p, e);
    AnchorReadsBack(p, e.anchor);
    EntryFromFields(p, Canon(EntryJson(p, e)).members, CanonEntry(e),
                    if ReadableAnchor(e.anchor) then Some(CanonAnchor(e.anchor)) else None);
  }

  /** A written record reads back as itself, exactly when the reader accepts its fields. */
  lemma {:induction false} EntryReadsBack(p: Platform, e: Entry)
    requires p.TimesRoundTrip() && PythonEntry(e)
    ensures EntryOf(p, EntryText(p, e)) == if ReadableEntry(e) then Some(CanonEntry(e)) else None
  {
    EntryIsWellFormed(p, e);
    PrintRoundTrip(EntryJson(p, e), false);
    EntryMembersReadBack(p, e);
  }

  lemma ZipCanonEqual(keys: seq<string>, v: seq<Json>, w: seq<Json>)
    requires |keys| == |v| == |w|
    requires forall i | 0 <= i < |v| :: Canon(v[i]) == Canon(w[i])
    ensures Canon(Obj(Zip(keys, v))) == Canon(Obj(Zip(keys, w)))
  {
    assert CanonMembers(Zip(keys, v)) == CanonMembers(Zip(keys, w));
  }

  /** Sorting dict-valued fields does not change a record's text, hence not its hash. */
  lemma CanonEntryHasSameText(p: Platform, e: Entry)
    requires PythonEntry(e)
    ensures EntryText(p, CanonEntry(e)) == EntryText(p, e)
  {
    var a, a' := AnchorValues(p, e.anchor), AnchorValues(p, CanonAnchor(e.anchor));
    forall i | 0 <= i < 7 ensures Canon(a'[i]) == Canon(a[i]) { if 3 <= i { CanonIsIdempotent(a[i]); } }
    ZipCanonEqual(ANCHOR_KEYS, a', a);
    var v, w := EntryValues(p, e), EntryValues(p, CanonEntry(e));
    CanonIsIdempotent(v[2]);
    CanonIsIdempotent(v[4]);
    CanonIsIdempotent(v[5]);
    ZipCanonEqual(ENTRY_KEYS, w, v);
  }

  /** Without collisions, equal hashes mean equal records, apart from the hash field itself. */
  lemma EqualHashesPinEntry(p: Platform, e: Entry, f: Entry)
    requires p.CollisionFree() && p.TimesRoundTrip() && PythonEntry(e) && PythonEntry(f)
    requires EntryHash(p, e) == EntryHash(p, f)
    ensures CanonEntry(e.(entryHash := Null)) == CanonEntry(f.(entryHash := Null))
  {
    var e0, f0 := e.(entryHash := Null), f.(entryHash := Null);
    EntryIsWellFormed(p, e0);
    EntryIsWellFormed(p, f0);
    PrintDecidesSame(EntryJson(p, e0), EntryJson(p, f0));
    CanonDecidesSame(EntryJson(p, e0), EntryJson(p, f0));
    EqualJsonPinsEntry(p, e0, f0);
  }

  lemma EqualJsonPinsAnchor(p: Platform, a: Anchor, b: Anchor)
    requires p.TimesRoundTrip()
    requires Canon(AnchorJson(p, a)) == Canon(AnchorJson(p, b))
    ensures CanonAnchor(a) == CanonAnchor(b)
  {
    AnchorFields(p, a);
    AnchorFields(p, b);
    assert p.parseTime(p.formatTime(a.createdAt)) == p.parseTime(p.formatTime(b.createdAt));
  }

  lemma EqualJsonPinsEntry(p: Platform, e: Entry, f: Entry)
    requires p.TimesRoundTrip()
    requires Canon(EntryJson(p, e)) == Canon(EntryJson(p, f))
    ensures CanonEntry(e) == CanonEntry(f)
  {
    EntryFields(p, e);
    EntryFields(p, f);
    assert p.parseTime(p.formatTime(e.createdAt)) == p.parseTime(p.formatTime(f.createdAt));
    EqualJsonPinsAnchor(p, e.anchor, f.anchor);
  }

  lemma LookupIsWellFormed(ms: seq<Member>, key: string)
    requires WellFormed(Obj(ms))
    ensures Get(ms, key).Some? ==> WellFormed(Get(ms, key).value)
  {
  }

  /** Every record the reader accepts holds values Python can hold. */
  lemma {:induction false} ParsedEntryIsPython(p: Platform, line: string)
    ensures EntryOf(p, line).Some? ==> PythonEntry(EntryOf(p, line).value)
  {
    LoadsIsWellFormed(line, false);
    if EntryOf(p, line).Some? { FieldsArePython(p, Loads(line, false).value.members); }
  }

  lemma {:induction false} FieldsArePython(p: Platform, ms: seq<Member>)
    requires WellFormed(Obj(ms)) && EntryFromMembers(p, ms).Some?
    ensures PythonEntry(EntryFromMembers(p, ms).value)
  {
    LookupIsWellFormed(ms, "anchor");
    LookupIsWellFormed(ms, "entry_hash");
    LookupIsWellFormed(ms, "previous_entry_hash");
    LookupIsWellFormed(ms, "sequence");
    var inner := Get(ms, "anchor").value.members;
    LookupIsWellFormed(inner, "last_event_hash");
    LookupIsWellFormed(inner, "record_count");
    LookupIsWellFormed(inner, "signature");
    LookupIsWellFormed(inner, "signature_algorithm");
  }

  lemma EntryTextIsOneLine(p: Platform, e: Entry)
    ensures EntryText(p, e) != "" && OneLine(EntryText(p, e))
  {
    var v := Canon(EntryJson(p, e));
    EmitStarts(v, "");
    EmitIsOneLine(v, "");
  }

  lemma EntryTextOpens(p: Platform, e: Entry)
    ensures EntryText(p, e) != "" && EntryText(p, e)[0] == '{'
  {
  }
}
