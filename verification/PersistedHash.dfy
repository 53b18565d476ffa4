/** The hash of an event that was redacted on its way to the journal. */
module PersistedHash {
  import opened JsonValues
  import opened Journal
  import opened DictFields
  import opened EventCodec
  import opened Redaction
  import opened Persistence

  // What the policy's text patterns make of a previous hash.
  function Through(policy: Policy, previous: JsonValues.Option<string>): JsonValues.Option<string> {
    match previous case None => JsonValues.None case Some(h) => JsonValues.Some(policy.redactText(h))
  }

  // A redacted optional text is a marker, a capture, or the text after the policy's patterns.
  lemma RedactedOptional(policy: Policy, path: Path, depth: nat, x: JsonValues.Option<string>)
    requires RedactValue(ToValue(OptionalStr(x)), path, policy, depth, Redaction.None).Done?
    ensures
      var v := Canon(FromOut(RedactValue(ToValue(OptionalStr(x)), path, policy, depth, Redaction.None).out));
      v.Obj? || v == OptionalStr(Through(policy, x))
  {
  }

  lemma MarkerIsNoIntegrityKey()
    ensures "marker" !in INTEGRITY_KEYS
  {
    var k := INTEGRITY_KEYS;
    assert |"marker"| == 6 && |k[0]| == 16 && |k[1]| == 19 && |k[2]| == 10;
  }

  // A marker does not read as integrity fields.
  lemma MarkedIntegrityIsInvalid(v: Json)
    requires v == Canon(FromOut(Sensitive))
    ensures v.Obj? && IntegrityOf(v.members) == Malformed
  {
    var ms := MarkerDict();
    GetCommutesWithCanon(ms, "marker");
    MarkerIsNoIntegrityKey();
    assert Member("marker", Get(v.members, "marker").value) in v.members;
  }

  // The integrity fields after redaction, in an event that can still be read.
  ghost predicate IntegrityAfter(policy: Policy, e: Event, ms: seq<Member>, io: Out) {
    && RedactValue(ToValue(EventValues(e)[11]), IntegrityPath(policy), policy, 1, Redaction.None)
       == Done(io, Redaction.None)
    && GetOrNull(ms, "integrity") == Canon(FromOut(io)) && IntegrityField(ms).Ok?
  }

  lemma {:induction false} IntegrityIsNotSensitive(policy: Policy, e: Event, ms: seq<Member>, io: Out)
    requires IntegrityAfter(policy, e, ms, io)
    ensures !IsSensitive(IntegrityPath(policy), policy)
  {
    if IsSensitive(IntegrityPath(policy), policy) { MarkedIntegrityIsInvalid(Canon(FromOut(io))); }
  }

  lemma {:induction false} PreviousRedacted(policy: Policy, e: Event, io: Out)
    requires !IsSensitive(IntegrityPath(policy), policy)
    requires RedactValue(ToValue(Obj(Zip(INTEGRITY_KEYS, IntegrityValues(e)))), IntegrityPath(policy), policy, 1,
                         Redaction.None) == Done(io, Redaction.None)
    ensures
      var integrity := Canon(FromOut(io));
      && integrity.Obj?
      && var v := GetOrNull(integrity.members, "previous_event_hash");
      v.Obj? || v == OptionalStr(Through(policy, e.previousHash))
  {
    KeysAreDistinct();
    DictFieldRead(policy, INTEGRITY_KEYS, IntegrityValues(e), IntegrityPath(policy), 1, io, 1, PreviousPath(policy));
    RedactedOptional(policy, PreviousPath(policy), 2, e.previousHash);
  }

  lemma PreviousReads(ms: seq<Member>, x: JsonValues.Option<string>)
    requires IntegrityField(ms).Ok? && GetOrNull(ms, "integrity").Obj?
    requires
      var v := GetOrNull(GetOrNull(ms, "integrity").members, "previous_event_hash");
      v.Obj? || v == OptionalStr(x)
    ensures IntegrityField(ms).value.previousHash == x
  {
    PreviousRead(ms);
  }

  lemma {:induction false} PreviousAfter(policy: Policy, e: Event, ms: seq<Member>, io: Out)
    requires IntegrityAfter(policy, e, ms, io)
    ensures IntegrityField(ms).value.previousHash == Through(policy, e.previousHash)
  {
    IntegrityIsNotSensitive(policy, e, ms, io);
    PreviousRedacted(policy, e, io);
    PreviousReads(ms, Through(policy, e.previousHash));
  }

  /** A kept event names the previous hash it was given, as the policy's text patterns leave it. */
  lemma {:induction false} KeptPrevious(parts: Context -> bool, policy: Policy, e: Event)
    requires PersistOne(parts, policy, e).Kept?
    ensures PersistOne(parts, policy, e).event.previousHash == Through(policy, e.previousHash)
  {
    var outs := KeptFields(parts, policy, e);
    var ms := Written(EVENT_KEYS, RedactedValues(outs));
    ChainKeys();
    HeldChainFields(ms, CanonAll(RedactedValues(outs)));
    AssembledFrom(ms);
    PreviousAfter(policy, e, ms, outs[11].value);
  }

  /** An event prepared for the journal names the previous hash it was given, can be stored and reads
      back, and carries its own hash exactly when the policy's text patterns leave the previous hash alone. */
  lemma PreparedHashIsRightIff(
    sha256: string -> string, parts: Context -> bool, policy: Policy, e: Event, previous: JsonValues.Option<string>)
    requires forall a, b | sha256(a) == sha256(b) :: a == b
    requires previous != JsonValues.Some("")
    requires Prepare(Standard(sha256, parts), Persist(parts, policy), e, previous).Kept?
    ensures
      var c := Standard(sha256, parts);
      var p := Prepare(c, Persist(parts, policy), e, previous).event;
      && p.previousHash == previous && c.fits(p) && c.parse(c.serialize(p)) == JsonValues.Some(p)
      && (Hashes(c, p) <==> Through(policy, previous) == previous)
  {
    StandardIsSound(sha256, parts);
    StandardIsCollisionFree(sha256, parts);
    PersistParses(sha256, parts, policy);
    Journal.PreparedHashIsRightIff(Standard(sha256, parts), Persist(parts, policy), e, previous);
    KeptPrevious(parts, policy, e.(previousHash := previous, hash := JsonValues.None));
  }
}
