/** The order a batch is imported in, and what a known record is reported as. */
module BatchOrder {
  import opened JsonValues
  import opened Sorting
  import opened Journal
  import opened Normalization
  import opened EvidenceRecords
  import opened Ingestion
  import opened IngestionRuns

  /** By sort key, and by idempotency key where sort keys are equal. */
  ghost predicate InSortOrder(rs: seq<Record>) {
    forall i, j | 0 <= i < j < |rs| ::
      StringLe(rs[i].sortKey, rs[j].sortKey)
      && (rs[i].sortKey == rs[j].sortKey ==> StringLe(rs[i].key, rs[j].key))
  }

  lemma OrderedIsInSortOrder(records: seq<Record>)
    ensures multiset(Ordered(records)) == multiset(records) && InSortOrder(Ordered(records))
  {
    RecordLeIsPreorder();
    SortIsSortedPermutation(records, RecordLe);
    var rs := Ordered(records);
    forall i, j | 0 <= i < j < |rs|
      ensures StringLe(rs[i].sortKey, rs[j].sortKey)
      ensures rs[i].sortKey == rs[j].sortKey ==> StringLe(rs[i].key, rs[j].key)
    {
      assert RecordLe(rs[i], rs[j]);
      StringLeIsTotal(rs[i].sortKey, rs[i].sortKey);
    }
  }

  lemma {:induction false} ImportedIdsGrow(os: seq<Outcome>, n: nat)
    requires n <= |os|
    ensures ImportedIds(os[..n]) <= ImportedIds(os)
    decreases |os|
  {
    if n < |os| {
      var init := os[..|os| - 1];
      ImportedIdsGrow(init, n);
      assert init[..n] == os[..n];
    } else {
      assert os[..n] == os;
    }
  }

  // The place of an imported outcome's event among those the batch added.
  lemma PlaceOfImport(os: seq<Outcome>, i: nat) returns (n: nat)
    requires i < |os| && os[i].status == Imported
    ensures n == |ImportedIds(os[..i])| < |ImportedIds(os)| && ImportedIds(os)[n] == os[i].eventId
  {
    n := |ImportedIds(os[..i])|;
    ImportedIdsGrow(os, i + 1);
    assert os[..i + 1][..i] == os[..i];
    assert ImportedIds(os[..i + 1]) == ImportedIds(os[..i]) + [os[i].eventId];
  }

  // The events of outcomes i and j, the first before the second, each with its place as sequence.
  ghost predicate Rises(es: seq<Event>, s: State, i: nat, j: nat)
    requires i < |s.outcomes| && j < |s.outcomes|
  {
    exists a, b :: |es| <= a < b < |s.events|
      && s.outcomes[i].eventId == Some(s.events[a].id) && s.outcomes[j].eventId == Some(s.events[b].id)
      && s.events[a].sequence == a && s.events[b].sequence == b
  }

  lemma ImportsRise(c: Codec, es: seq<Event>, rs: seq<Record>, s: State, i: nat, j: nat)
    requires Accounted(c, es, rs, s) && i < j < |s.outcomes|
    requires s.outcomes[i].status == Imported && s.outcomes[j].status == Imported
    ensures Rises(es, s, i, j)
  {
    var m := PlaceOfImport(s.outcomes, i);
    var n := PlaceOfImport(s.outcomes, j);
    ImportedIdsGrow(s.outcomes[..j], i + 1);
    assert s.outcomes[..j][..i + 1] == s.outcomes[..i + 1] && s.outcomes[..i + 1][..i] == s.outcomes[..i];
    assert ImportedIds(s.outcomes[..i + 1]) == ImportedIds(s.outcomes[..i]) + [s.outcomes[i].eventId];
    var added, a, b := s.events[|es|..], |es| + m, |es| + n;
    assert EventIds(added)[m] == Some(added[m].id) && EventIds(added)[n] == Some(added[n].id);
    assert added[m] == s.events[a] && added[n] == s.events[b];
    assert LinksAt(c, s.events, a) && LinksAt(c, s.events, b);
  }

  /** A batch takes its records by sort key, and by idempotency key among equal sort keys: outcomes come in
      that order, and imported events rise in sequence with it. */
  lemma BatchFollowsSortKeys(es: seq<Event>, b: Batch) returns (rs: seq<Record>)
    requires Trusted(b.world) && Chained(b.world.codec, es) && AllValid(b.world.codec, es)
    ensures multiset(rs) == multiset(b.records) && InSortOrder(rs)
    ensures
      var s := ImportedBy(es, b).state;
      && |s.outcomes| <= |rs| && (forall i | 0 <= i < |s.outcomes| :: s.outcomes[i].key == rs[i].key)
      && forall i, j | 0 <= i < j < |s.outcomes| && s.outcomes[i].status == s.outcomes[j].status == Imported ::
           Rises(es, s, i, j)
  {
    rs := Ordered(b.records);
    OrderedIsInSortOrder(b.records);
    EveryExitIsAccounted(b.world, es, b.position, b.nextId, b.records);
    var s := ImportedBy(es, b).state;
    forall i, j | 0 <= i < j < |s.outcomes| && s.outcomes[i].status == s.outcomes[j].status == Imported
      ensures Rises(es, s, i, j)
    {
      ImportsRise(b.world.codec, es, rs, s, i, j);
    }
  }

  // ---------------------------------------------------------------- known records

  // The entry a record's key is known under: the journal's before the batch's own.
  // The payload's ingest entry holds this text, which is not empty.
  ghost predicate IngestSays(payload: seq<Member>, field: string, s: string) {
    s != "" && exists ms :: Get(payload, "ingest") == Some(Obj(ms)) && Get(ms, field) == Some(Str(s))
  }

  lemma IngestSaysIff(payload: seq<Member>, field: string, s: string)
    ensures IngestSays(payload, field, s) <==> IngestField(payload, field) == Some(s)
  {
    if IngestField(payload, field) == Some(s) {
      assert Get(payload, "ingest") == Some(Obj(Get(payload, "ingest").value.members));
    }
  }

  ghost predicate HasKey(e: Event, key: string) { IngestSays(e.payload, "idempotency_key", key) }

  ghost predicate HasFingerprint(e: Event, x: Option<string>) {
    match x
    case None => forall f :: !IngestSays(e.payload, "record_fingerprint", f)
    case Some(f) => IngestSays(e.payload, "record_fingerprint", f)
  }

  // Event i is the last to carry the key.
  ghost predicate KnownFrom(es: seq<Event>, i: nat, key: string, entry: Entry)
    requires i < |es|
  {
    && HasKey(es[i], key) && entry.eventId == es[i].id && HasFingerprint(es[i], entry.fingerprint)
    && forall j | i < j < |es| :: !HasKey(es[j], key)
  }

  lemma FingerprintIff(e: Event, x: Option<string>)
    ensures HasFingerprint(e, x) <==> IngestFingerprint(e.payload) == x
  {
    forall f
      ensures IngestSays(e.payload, "record_fingerprint", f) <==> IngestField(e.payload, "record_fingerprint") == Some(f)
    {
      IngestSaysIff(e.payload, "record_fingerprint", f);
    }
    if x.None? && IngestFingerprint(e.payload).Some? {
      IngestSaysIff(e.payload, "record_fingerprint", IngestFingerprint(e.payload).value);
    }
  }

  /** A key of a journal stands for the last event that carries it, with that event's fingerprint. */
  lemma {:induction false} LastEventIsKnown(es: seq<Event>, key: string, entry: Entry)
    ensures key in Existing(es) && Existing(es)[key] == entry <==> exists i | 0 <= i < |es| :: KnownFrom(es, i, key, entry)
  {
    if es != [] {
      var n := |es| - 1;
      IngestSaysIff(es[n].payload, "idempotency_key", key);
      FingerprintIff(es[n], entry.fingerprint);
      LastEventIsKnown(es[..n], key, entry);
      if HasKey(es[n], key) {
        assert KnownFrom(es, n, key, entry) <==> Existing(es)[key] == entry;
        assert forall i | 0 <= i < |es| && KnownFrom(es, i, key, entry) :: i == n;
      } else {
        KnownBefore(es, es[..n], key, entry);
      }
    }
  }

  // The last event does not carry the key.
  lemma KnownBefore(es: seq<Event>, init: seq<Event>, key: string, entry: Entry)
    requires es != [] && !HasKey(es[|es| - 1], key) && init == es[..|es| - 1]
    ensures (exists i | 0 <= i < |es| :: KnownFrom(es, i, key, entry))
       <==> (exists i | 0 <= i < |init| :: KnownFrom(init, i, key, entry))
  {
    forall i | 0 <= i < |init| ensures KnownFrom(es, i, key, entry) <==> KnownFrom(init, i, key, entry) {
      NoneAfterIff(es, init, i, key);
    }
  }

  lemma NoneAfterIff(es: seq<Event>, init: seq<Event>, i: nat, key: string)
    requires i < |init| && es != [] && !HasKey(es[|es| - 1], key) && init == es[..|es| - 1]
    ensures (forall j | i < j < |es| :: !HasKey(es[j], key)) <==> (forall j | i < j < |init| :: !HasKey(init[j], key))
  {
    if forall j | i < j < |es| :: !HasKey(es[j], key) {
      forall j | i < j < |init| ensures !HasKey(init[j], key) { assert !HasKey(es[j], key); }
    }
    if forall j | i < j < |init| :: !HasKey(init[j], key) {
      forall j | i < j < |es| ensures !HasKey(es[j], key) { if j < |init| { assert !HasKey(init[j], key); } }
    }
  }

  function KnownAs(seen: map<string, Entry>, s: State, key: string): Option<Entry> {
    if key in seen then Some(seen[key]) else if key in s.batchSeen then Some(s.batchSeen[key]) else None
  }

  /** A record under a known key imports nothing and names the event known under it: as a conflict exactly
      when that event's record was different evidence, and as a duplicate otherwise. */
  lemma KnownRecordIsReported(w: World, seen: map<string, Entry>, s: State, r: Record, q: Record, entry: Entry)
    requires forall a, b | w.codec.digest(a) == w.codec.digest(b) :: a == b
    requires PythonDefaults(w.defaults) && PythonRecord(r) && PythonRecord(q)
    requires KnownAs(seen, s, r.key) == Some(entry)
    requires entry.fingerprint.Some? ==> entry.fingerprint.value == FingerprintOf(w, q)
    ensures
      var step := ImportOne(w, seen, s, r);
      && step.Continue? && step.state.events == s.events && step.state.batchSeen == s.batchSeen
      && step.state.position == s.position && step.state.nextId == s.nextId
      && |step.state.outcomes| == |s.outcomes| + 1
      && var o := step.state.outcomes[|s.outcomes|];
      && o.key == r.key && o.eventId == Some(entry.eventId)
      && o.status == (if entry.fingerprint.Some? && !SameEvidence(w.defaults, r, q) then Conflict else Duplicate)
      && o.error == (if o.status == Conflict then Some("idempotency key already used for different evidence record")
                     else None)
  {
    FingerprintsAgreeIff(w.codec.digest, w.defaults, r, q);
  }

  /** A record under a new key becomes an import, a failure that names nothing, or the end of the batch. */
  lemma NewRecordIsReported(w: World, seen: map<string, Entry>, s: State, r: Record)
    requires KnownAs(seen, s, r.key) == None && !ImportOne(w, seen, s, r).Raise?
    ensures
      var step := ImportOne(w, seen, s, r);
      && |step.state.outcomes| == |s.outcomes| + 1
      && var o := step.state.outcomes[|s.outcomes|];
      && o.key == r.key && o.status in {Imported, Failed}
      && (o.status == Imported ==>
            step.Continue? && o.error.None? && |step.state.events| == |s.events| + 1
            && o.eventId == Some(step.state.events[|s.events|].id)
            && step.state.batchSeen == s.batchSeen[r.key := Entry(o.eventId.value, Some(FingerprintOf(w, r)))])
      && (o.status == Failed ==> o.eventId.None? && o.error.Some? && step.state.events == s.events)
  {
    NewMoves(w, s, r, FingerprintOf(w, r));
  }

  /** A failure names its cause: the journal error of a write or of an event out of step, and nothing more than
      that the record could not be imported when the event model or the hash refuses it. */
  lemma FailureIsNamed(w: World, seen: map<string, Entry>, s: State, r: Record)
    requires KnownAs(seen, s, r.key) == None && !ImportOne(w, seen, s, r).Raise?
    requires |ImportOne(w, seen, s, r).state.outcomes| > |s.outcomes|
    requires ImportOne(w, seen, s, r).state.outcomes[|s.outcomes|].status == Failed
    ensures
      var o, made := ImportOne(w, seen, s, r).state.outcomes[|s.outcomes|], Normalized(w, s, r, FingerprintOf(w, r));
      o.error ==
        if made.None? then Some("evidence record could not be imported")
        else if made.value.0.sequence != |s.events| then Some("JournalAppendError")
        else match Prepare(w.codec, w.persist, made.value.0, TerminalHash(s.events, |s.events|))
             case Kept(_) => w.disk(s.nextId)
             case _ => Some("evidence record could not be imported")
  {
  }
}
