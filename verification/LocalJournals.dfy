/** The journal file as an object. disk(n) is the journal error of the n-th write, if it fails. */
module LocalJournals {
  import opened JsonValues
  import opened Journal

  datatype Appended = Written(event: Event) | ValueError | RedactionError | JournalFault(name: string)

  class LocalJournal {
    const codec: Codec
    const persist: Event -> Persisted
    const disk: nat -> Option<string>
    var raw: string

    constructor (codec: Codec, persist: Event -> Persisted, disk: nat -> Option<string>, raw: string)
      ensures this.codec == codec && this.persist == persist && this.disk == disk && this.raw == raw
    {
      this.codec, this.persist, this.disk, this.raw := codec, persist, disk, raw;
    }

    /** Prepare an event and write its line; n numbers the write. */
    method AppendInsideLock(e: Event, previous: Option<string>, n: nat) returns (result: Appended)
      modifies this
      ensures
        match Prepare(codec, persist, e, previous)
        case Invalid => result == ValueError && raw == old(raw)
        case Refused => result == RedactionError && raw == old(raw)
        case Kept(p) =>
          match disk(n)
          case Some(name) => result == JournalFault(name) && raw == old(raw)
          case None => result == Written(p) && raw == old(raw) + (codec.serialize(p) + "\n")
    {
      var prepared := Prepare(codec, persist, e, previous);
      if prepared.Invalid? { return ValueError; }
      if prepared.Refused? { return RedactionError; }
      if disk(n).Some? { return JournalFault(disk(n).value); }
      raw := raw + (codec.serialize(prepared.event) + "\n");
      return Written(prepared.event);
    }

    /** Read and verify the file: the snapshot is good exactly when the file reads as some chain, and
        then holds the only one it reads as. */
    method Snapshot() returns (s: Journal.Snapshot)
      ensures s.ok <==> exists es :: Verifies(codec, raw, es)
      ensures s.ok ==> (forall es :: Verifies(codec, raw, es) <==> es == s.events) && raw == JournalText(codec, s.events)
      ensures s.ok ==> s.recordsVerified == |s.events| && s.lastHash == TerminalHash(s.events, |s.events|)
    {
      s := VerifiedSnapshot(codec, raw, None, None);
      if s.ok {
        forall es | Verifies(codec, raw, es) ensures es == s.events { VerifiedEventsAreUnique(codec, raw, es, s.events); }
        VerifiedText(codec, raw, s.events);
      } else {
        forall es ensures !Verifies(codec, raw, es) {
          if Verifies(codec, raw, es) { VerifyingLineExtends(codec, raw, s.events, es, s.issues[0].code); }
        }
      }
    }

    /** Append one event to a file that verifies and that the event's sequence continues. */
    method Append(e: Event, n: nat) returns (result: Appended)
      modifies this
      ensures
        if exists es :: Verifies(codec, old(raw), es) && e.sequence == |es| then
          forall es | Verifies(codec, old(raw), es) ::
            match Prepare(codec, persist, e, TerminalHash(es, |es|))
            case Invalid => result == ValueError && raw == old(raw)
            case Refused => result == RedactionError && raw == old(raw)
            case Kept(p) =>
              match disk(n)
              case Some(name) => result == JournalFault(name) && raw == old(raw)
              case None => result == Written(p) && raw == JournalText(codec, es + [p])
        else result == JournalFault(APPEND_ERROR) && raw == old(raw)
    {
      var snapshot := Snapshot();
      if !snapshot.ok || e.sequence != snapshot.recordsVerified { return JournalFault(APPEND_ERROR); }
      result := AppendInsideLock(e, snapshot.lastHash, n);
      if result.Written? { TextOfAppend(codec, snapshot.events, result.event); }
    }
  }

  lemma VerifiedEventsAreUnique(c: Codec, raw: string, es: seq<Event>, fs: seq<Event>)
    requires Verifies(c, raw, es) && Verifies(c, raw, fs)
    ensures es == fs
  {
  }

  // If the file reads as fs, no line of it is where verification gets stuck.
  lemma VerifyingLineExtends(c: Codec, raw: string, es: seq<Event>, fs: seq<Event>, code: Code)
    requires Prefix(c, RawLines(raw), es) && |es| < |RawLines(raw)| && Verifies(c, raw, fs)
    ensures !Stuck(c, RawLines(raw), es, code)
  {
    var lines, k := RawLines(raw), |es|;
    forall i | 0 <= i < k ensures es[i] == fs[i] {
      assert ReadLine(c, lines[i]) == Read(es[i]) && ReadLine(c, lines[i]) == Read(fs[i]);
    }
    assert TerminalHash(es, k) == TerminalHash(fs, k);
    assert ReadLine(c, lines[k]) == Read(fs[k]);
    assert LinksAt(c, fs, k);
  }

  lemma VerifiedText(c: Codec, raw: string, es: seq<Event>)
    requires Verifies(c, raw, es)
    ensures raw == JournalText(c, es)
  {
    VerifiedTextIsCanonical(c, RawLines(raw), es);
    JoinOfRawLines(raw);
  }
}
