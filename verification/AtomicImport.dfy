/** The import loop over a journal file, a stateful normalizer and local dictionaries, proved to do
    what `ImportBatch` says. */
module AtomicImport {
  import opened JsonValues
  import opened Journal
  import opened Normalization
  import opened EvidenceRecords
  import opened Ingestion
  import opened LocalJournals

  method ExistingEntries(es: seq<Event>) returns (entries: map<string, Entry>)
    ensures entries == Existing(es)
  {
    entries := map[];
    for i := 0 to |es|
      invariant entries == Existing(es[..i])
    {
      assert es[..i + 1][..i] == es[..i];
      var key := IngestKey(es[i].payload);
      if key.Some? { entries := entries[key.value := Entry(es[i].id, IngestFingerprint(es[i].payload))]; }
    }
    assert es[..|es|] == es;
  }

  function WorldOf(normalizer: EvidenceNormalizer, journal: LocalJournal): World {
    World(true, journal.codec, journal.persist, journal.disk, normalizer.generator.ids, normalizer.clock,
          normalizer.defaults)
  }

  // The objects stand where the specification's state says.
  ghost predicate Mirrors(normalizer: EvidenceNormalizer, journal: LocalJournal, s: State)
    reads normalizer, normalizer.generator, journal
  {
    && normalizer.At() == s.position
    && normalizer.generator.index == s.nextId
    && journal.raw == JournalText(journal.codec, s.events)
  }

  /** A record under a new key. */
  method ImportNew(
    r: Record, normalizer: EvidenceNormalizer, journal: LocalJournal, fingerprint: string,
    nextSequence: nat, previous: Option<string>, empty: bool, ghost s: State)
    returns (exit: Option<Exit>, outcome: Outcome, persisted: Option<Event>)
    requires Mirrors(normalizer, journal, s)
    requires nextSequence == |s.events| && previous == TerminalHash(s.events, |s.events|)
    requires empty <==> s.batchSeen == map[]
    modifies normalizer, normalizer.generator, journal
    ensures
      var step := NewOne(WorldOf(normalizer, journal), s, r, fingerprint);
      && Mirrors(normalizer, journal, step.state)
      && exit == (match step case Continue(_) => None case Stop(_) => Some(Broke) case Raise(_) => Some(Raised))
      && (exit != Some(Raised) ==>
            if persisted.Some?
            then exit == None && step.state.outcomes == s.outcomes + [outcome]
                 && step.state.events == s.events + [persisted.value]
                 && step.state.batchSeen == s.batchSeen[r.key := Entry(persisted.value.id, Some(fingerprint))]
            else step.state.outcomes == s.outcomes + [outcome]
                 && step.state.events == s.events && step.state.batchSeen == s.batchSeen)
  {
    var n := normalizer.generator.index;
    outcome, persisted := Outcome(r.key, Failed, None, Some(RECORD_ERROR)), None;
    var event := normalizer.Record(
      r.eventType, PayloadWithIngest(r, fingerprint), r.source, r.principal, r.classification, None, None);
    if event.None? { return None, outcome, None; }
    var fault := APPEND_ERROR;
    if event.value.sequence == nextSequence {
      var result := journal.AppendInsideLock(event.value, previous, n);
      match result {
        case Written(p) =>
          TextOfAppend(journal.codec, s.events, p);
          return None, Outcome(r.key, Imported, Some(p.id), None), Some(p);
        case ValueError => return None, outcome, None;
        case RedactionError => return Some(Raised), outcome, None;
        case JournalFault(name) => fault := name;
      }
    }
    if empty { return Some(Raised), outcome, None; }
    return Some(Broke), Outcome(r.key, Failed, None, Some(fault)), None;
  }

  /** The loop over the sorted records. */
  method ImportRecords(
    ordered: seq<Record>, normalizer: EvidenceNormalizer, journal: LocalJournal, seen: map<string, Entry>,
    firstSequence: nat, lastHash: Option<string>, ghost start: State)
    returns (exit: Exit, outcomes: seq<Outcome>)
    requires Mirrors(normalizer, journal, start) && start.batchSeen == map[] && start.outcomes == []
    requires firstSequence == |start.events| && lastHash == TerminalHash(start.events, |start.events|)
    modifies normalizer, normalizer.generator, journal
    ensures
      var result := ImportFrom(WorldOf(normalizer, journal), seen, start, ordered, 0);
      && exit == result.exit && Mirrors(normalizer, journal, result.state)
      && (exit != Raised ==> outcomes == result.state.outcomes)
  {
    outcomes := [];
    ghost var w, s := WorldOf(normalizer, journal), start;
    var batchSeen: map<string, Entry> := map[];
    var nextSequence, previous := firstSequence, lastHash;
    for i := 0 to |ordered|
      invariant Mirrors(normalizer, journal, s) && s.outcomes == outcomes && s.batchSeen == batchSeen
      invariant nextSequence == |s.events| && previous == TerminalHash(s.events, |s.events|)
      invariant ImportFrom(w, seen, s, ordered, i) == ImportFrom(w, seen, start, ordered, 0)
    {
      var r := ordered[i];
      ghost var step := ImportUnfolds(w, seen, s, ordered, i);
      var f := Fingerprint(journal.codec.digest, normalizer.defaults, r);
      if r.key in seen {
        outcomes := outcomes + [Matched(r, seen[r.key], f)];
      } else if r.key in batchSeen {
        outcomes := outcomes + [Matched(r, batchSeen[r.key], f)];
      } else {
        var stop, outcome, persisted :=
          ImportNew(r, normalizer, journal, f, nextSequence, previous, batchSeen == map[], s);
        assert step == NewOne(w, s, r, f);
        if stop == Some(Raised) { return Raised, outcomes; }
        outcomes := outcomes + [outcome];
        if stop.Some? { return Broke, outcomes; }
        if persisted.Some? {
          nextSequence := nextSequence + 1;
          previous := persisted.value.hash;
          batchSeen := batchSeen[r.key := Entry(persisted.value.id, Some(f))];
        }
      }
      s := step.state;
    }
    return Finished, outcomes;
  }

  /** Import a batch into a journal file. A file that does not verify, or a normalizer already in use,
      is refused with nothing changed; otherwise file, normalizer, outcomes and exit are those of
      `ImportBatch` on the events of the file. */
  method ImportEvidenceBatchAtomically(records: seq<Record>, normalizer: EvidenceNormalizer, journal: LocalJournal)
    returns (exit: Exit, outcomes: seq<Outcome>)
    modifies normalizer, normalizer.generator, journal
    ensures
      forall es | Verifies(journal.codec, old(journal.raw), es) ::
        var w := WorldOf(normalizer, journal);
        var result := ImportBatch(w, es, old(normalizer.At()), old(normalizer.generator.index), records);
        exit == result.exit && Mirrors(normalizer, journal, result.state)
        && (exit != Raised ==> outcomes == result.state.outcomes)
    ensures
      (forall es :: !Verifies(journal.codec, old(journal.raw), es)) ==>
        exit == Raised && journal.raw == old(journal.raw) && normalizer.At() == old(normalizer.At())
        && normalizer.generator.index == old(normalizer.generator.index)
  {
    var snapshot := journal.Snapshot();
    if !snapshot.ok { return Raised, []; }
    var es := snapshot.events;
    var rebased := normalizer.RebaseInitialSequence(snapshot.recordsVerified);
    if !rebased { return Raised, []; }
    var seen := ExistingEntries(es);
    ghost var start := State(es, normalizer.At(), normalizer.generator.index, map[], []);
    exit, outcomes := ImportRecords(
      Ordered(records), normalizer, journal, seen, snapshot.recordsVerified, snapshot.lastHash, start);
  }
}
