/** Which dicts read as which anchor-log records, and what a record's text and hash cover. */
module AnchorReading {
  import opened JsonValues
  import opened JsonText
  import opened AnchorRecords
  import DictFields

  predicate TimeAt(p: Platform, v: Option<Json>, t: int) {
    v.Some? && v.value.Str? && v.value.s != "" && p.parseTime(v.value.s) == Some(t)
  }

  // A bool is a number here.
  predicate CountAt(v: Option<Json>, n: Json) { (n.Int? || n.Bool?) && v == Some(n) }

  // A field nobody checks, null when it is missing.
  predicate AnyAt(v: Option<Json>, j: Json) { v == Some(j) || (v == None && j == Null) }

  predicate AnchorReads(p: Platform, ms: seq<Member>, a: Anchor) {
    && DictFields.NameAt(Get(ms, "anchor_version"), a.anchorVersion) && TimeAt(p, Get(ms, "created_at"), a.createdAt)
    && DictFields.NameAt(Get(ms, "journal_path"), a.journalPath) && CountAt(Get(ms, "record_count"), a.recordCount)
    && AnyAt(Get(ms, "last_event_hash"), a.lastEventHash) && AnyAt(Get(ms, "signature"), a.signature)
    && AnyAt(Get(ms, "signature_algorithm"), a.signatureAlgorithm)
  }

  ghost predicate EntryReads(p: Platform, ms: seq<Member>, e: Entry) {
    && (exists inner :: Get(ms, "anchor") == Some(Obj(inner)) && AnchorReads(p, inner, e.anchor))
    && TimeAt(p, Get(ms, "created_at"), e.createdAt) && DictFields.NameAt(Get(ms, "log_version"), e.logVersion)
    && CountAt(Get(ms, "sequence"), e.sequence)
    && AnyAt(Get(ms, "entry_hash"), e.entryHash) && AnyAt(Get(ms, "previous_entry_hash"), e.previousEntryHash)
  }

  lemma NameIff(ms: seq<Member>, key: string, s: string)
    ensures DictFields.NameAt(Get(ms, key), s) <==> RequiredStr(ms, key) == Some(s)
  {
  }

  lemma TimeIff(p: Platform, ms: seq<Member>, key: string, t: int)
    ensures TimeAt(p, Get(ms, key), t) <==> RequiredTime(p, ms, key) == Some(t)
  {
  }

  lemma CountIff(ms: seq<Member>, key: string, n: Json)
    ensures CountAt(Get(ms, key), n) <==> RequiredInt(ms, key) == Some(n)
  {
  }

  lemma AnyIff(ms: seq<Member>, key: string, j: Json)
    ensures AnyAt(Get(ms, key), j) <==> GetOrNull(ms, key) == j
  {
  }

  lemma AnchorIff(p: Platform, ms: seq<Member>, a: Anchor)
    ensures AnchorReads(p, ms, a) <==> AnchorFromMembers(p, ms) == Some(a)
  {
    NameIff(ms, "anchor_version", a.anchorVersion);
    TimeIff(p, ms, "created_at", a.createdAt);
    NameIff(ms, "journal_path", a.journalPath);
    CountIff(ms, "record_count", a.recordCount);
    AnyIff(ms, "last_event_hash", a.lastEventHash);
    AnyIff(ms, "signature", a.signature);
    AnyIff(ms, "signature_algorithm", a.signatureAlgorithm);
  }

  lemma FieldsIff(p: Platform, ms: seq<Member>, e: Entry)
    ensures EntryReads(p, ms, e) <==> EntryFromMembers(p, ms) == Some(e)
  {
    TimeIff(p, ms, "created_at", e.createdAt);
    NameIff(ms, "log_version", e.logVersion);
    CountIff(ms, "sequence", e.sequence);
    AnyIff(ms, "entry_hash", e.entryHash);
    AnyIff(ms, "previous_entry_hash", e.previousEntryHash);
    if Get(ms, "anchor").Some? && Get(ms, "anchor").value.Obj? {
      AnchorIff(p, Get(ms, "anchor").value.members, e.anchor);
    }
  }

  /** A line reads as a record exactly when it is one JSON object whose fields, by name, are the record's. */
  lemma {:induction false} LineReadsIff(p: Platform, line: string, e: Entry)
    ensures EntryOf(p, line) == Some(e) <==>
      exists ms :: Loads(line, false) == Some(Obj(ms)) && EntryReads(p, ms, e)
  {
    match Loads(line, false)
    case Some(Obj(ms)) => FieldsIff(p, ms, e);
    case _ =>
  }

  // ---------------------------------------------------------------- writing

  ghost predicate Entries(ms: seq<Member>, keys: seq<string>, values: seq<Json>) {
    |keys| == |values| == |ms| && forall i | 0 <= i < |keys| :: DictFields.Entry(ms, keys[i], values[i])
  }

  lemma ZipIsWritten(keys: seq<string>, values: seq<Json>)
    requires |keys| == |values| && Distinct(keys)
    ensures Entries(Zip(keys, values), keys, values)
  {
    DictFields.ZipHasEntries(keys, values);
  }

  ghost predicate AnchorWritten(p: Platform, ms: seq<Member>, a: Anchor) {
    Entries(ms,
            [ "anchor_version", "created_at", "journal_path", "last_event_hash", "record_count", "signature",
              "signature_algorithm" ],
            [ Str(a.anchorVersion), Str(p.formatTime(a.createdAt)), Str(a.journalPath), a.lastEventHash, a.recordCount,
              a.signature, a.signatureAlgorithm ])
  }

  // The record with the given hash.
  ghost predicate EntryWritten(p: Platform, ms: seq<Member>, e: Entry, entryHash: Json) {
    exists inner :: AnchorWritten(p, inner, e.anchor)
      && Entries(ms, ["anchor", "created_at", "entry_hash", "log_version", "previous_entry_hash", "sequence"],
                 [Obj(inner), Str(p.formatTime(e.createdAt)), entryHash, Str(e.logVersion), e.previousEntryHash, e.sequence])
  }

  lemma {:induction false} EntryIsWritten(p: Platform, e: Entry)
    ensures EntryJson(p, e).Obj? && EntryWritten(p, EntryJson(p, e).members, e, e.entryHash)
  {
    KeysAreDistinct();
    ZipIsWritten(ANCHOR_KEYS, AnchorValues(p, e.anchor));
    ZipIsWritten(ENTRY_KEYS, EntryValues(p, e));
    assert AnchorWritten(p, Zip(ANCHOR_KEYS, AnchorValues(p, e.anchor)), e.anchor);
  }

  /** A record's text holds every field of the record and its anchor, and nothing else; its hash is the digest of
      the same text with null in place of the hash. */
  lemma {:induction false} TextAndHashCover(p: Platform, e: Entry)
    ensures exists ms :: EntryText(p, e) == Print(Obj(ms)) && EntryWritten(p, ms, e, e.entryHash)
    ensures exists ms :: EntryHash(p, e) == p.digest(Print(Obj(ms))) && EntryWritten(p, ms, e, Null)
  {
    EntryIsWritten(p, e);
    var bare := e.(entryHash := Null);
    EntryIsWritten(p, bare);
    var ms := EntryJson(p, bare).members;
    assert EntryWritten(p, ms, bare, Null);
    assert EntryWritten(p, ms, e, Null);
  }
}
