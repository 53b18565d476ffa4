/** What an event says: whose source, principal and payload it carries from a caller to the journal. */
module EventContents {
  import opened JsonValues
  import opened Journal
  import opened Normalization
  import opened EvidenceRecords
  import opened Ingestion
  import opened BatchExits
  import opened EventCodec
  import opened Persistence
  import opened PersistedImport
  import SparedRecords
  import EventRecorder
  import JsonLimits

  // What a caller hands in; what it leaves out the normalizer fills in.
  datatype Given = Given(
    eventType: string, payload: seq<Member>, source: Option<Json>, principal: Option<Json>, classification: Option<Json>)

  /** The event carries what the caller gave, the normalizer's parts where the caller gave none, the
      normalizer's correlation and both readings of the clock. */
  ghost predicate Carries(e: Event, given: Given, d: Defaults, now: Times) {
    && e.eventType == given.eventType && e.payload == given.payload
    && e.context.source == (if given.source.Some? then given.source.value else d.source)
    && e.context.principal == (if given.principal.Some? then given.principal.value else d.principal)
    && e.context.classification == (if given.classification.Some? then given.classification.value else d.classification)
    && e.context.correlation == d.correlation
    && e.context.occurredAt == now.occurredAt && e.context.observedAt == now.observedAt
  }

  /** The same in the journal, where the keys of dicts are in order. */
  ghost predicate CarriesInOrder(p: Event, given: Given, d: Defaults, now: Times) {
    exists e :: Carries(e, given, d, now) && InOrderOf(p, e)
  }

  ghost predicate InOrderOf(p: Event, e: Event) {
    && p.id == e.id && p.root == e.root && p.parent == e.parent && p.sequence == e.sequence
    && p.eventType == e.eventType && Obj(p.payload) == Canon(Obj(e.payload))
    && p.context.source == Canon(e.context.source) && p.context.principal == Canon(e.context.principal)
    && p.context.classification == Canon(e.context.classification)
    && p.context.correlation == Canon(e.context.correlation)
    && p.context.occurredAt == Canon(e.context.occurredAt) && p.context.observedAt == Canon(e.context.observedAt)
  }

  // ---------------------------------------------------------------- the normalizer

  // The root and the parent that a call resolves to.
  function RootOf(pos: Position, id: string, parent: Option<string>, root: Option<string>): Option<string> {
    if root.Some? then root
    else if pos.root.Some? then pos.root
    else if parent.None? then Some(id)
    else None
  }

  function ParentOf(pos: Position, parent: Option<string>, root: Option<string>): Option<string> {
    if pos.root.None? && parent.None? && root.None? then None
    else if parent.Some? && parent.value != "" then parent
    else pos.last
  }

  // What the event model asks of an envelope.
  ghost predicate Envelope(id: string, eventType: string, payload: seq<Member>, root: string, parent: Option<string>) {
    && id != "" && eventType != "" && root != "" && parent != Some("")
    && JsonLimits.Height(Obj(payload)) <= 64 && JsonLimits.NarrowEnough(Obj(payload))
    && (parent.None? ==>
          root == id && (eventType == "agent.intent.recorded" || eventType == "agent.run.started"
                         || eventType == "recorder.degraded"))
  }

  /** The normalizer makes an event exactly when a root can be resolved and the envelope is accepted. The event
      carries what the caller gave, and the timeline moves on by one. */
  lemma NormalizerMakes(pos: Position, id: string, given: Given, d: Defaults, now: Times,
                        parent: Option<string>, root: Option<string>)
    ensures
      var context := ContextOf(d, given.source, given.principal, given.classification, now);
      var made := RecordEvent(pos, id, given.eventType, given.payload, context, parent, root);
      && (made.Some? <==>
            RootOf(pos, id, parent, root).Some?
            && Envelope(id, given.eventType, given.payload, RootOf(pos, id, parent, root).value,
                        ParentOf(pos, parent, root)))
      && (made.Some? ==>
            var (e, q) := made.value;
            && Carries(e, given, d, now)
            && e.id == id && Some(e.root) == RootOf(pos, id, parent, root) && e.parent == ParentOf(pos, parent, root)
            && e.sequence == pos.sequence && e.previousHash.None? && e.hash.None?
            && q == Position(pos.initial, pos.sequence + 1, Some(e.root), Some(id)))
  {
    JsonLimits.LimitsMeanHeight(Obj(given.payload), 0);
  }

  // ---------------------------------------------------------------- the journal

  // The policy keeps the event as it is, but for the order of keys.
  ghost predicate KeptAsIs(persist: Event -> Persisted, e: Event) { persist(e) == Kept(InOrder(e)) }

  lemma PreparedIsInOrder(c: Codec, persist: Event -> Persisted, e: Event, previous: Option<string>)
    requires Prepare(c, persist, e, previous).Kept?
    requires KeptAsIs(persist, e.(previousHash := previous, hash := None))
    ensures InOrderOf(Prepare(c, persist, e, previous).event, e)
  {
  }

  function GivenOf(r: Record, fingerprint: string): Given {
    Given(r.eventType, PayloadWithIngest(r, fingerprint), r.source, r.principal, r.classification)
  }

  /** A record that is imported becomes an event that carries the record's type, payload and ingest entry,
      and its source, principal and classification wherever it gives them. */
  lemma ImportedEventCarries(g: Setting, w: World, seen: map<string, Entry>, t: State, r: Record)
    requires Uses(w, g) && WrittenAt(w, seen, t, r) && SparedRecords.Storable(g, SentEvent(w, t, r))
    ensures
      var s' := ImportOne(w, seen, t, r).state;
      && |s'.events| == |t.events| + 1 && s'.events[..|t.events|] == t.events
      && CarriesInOrder(s'.events[|t.events|], GivenOf(r, FingerprintOf(w, r)), w.defaults, w.now(t.nextId))
      && s'.events[|t.events|].sequence == |t.events|
  {
    var e := NormalizedOf(w, t, r).value.0;
    var last := TerminalHash(t.events, |t.events|);
    NormalizerMakes(t.position, w.ids(t.nextId), GivenOf(r, FingerprintOf(w, r)), w.defaults, w.now(t.nextId), None, None);
    PreparedIsInOrder(w.codec, w.persist, e, last);
    WritesIff(w, seen, t, r);
    SequenceOfNormalized(w, t, r);
  }

  // ---------------------------------------------------------------- the event recorder

  function GivenBy(call: EventRecorder.Call): Given {
    Given(call.eventType, call.payload, call.source, call.principal, call.classification)
  }

  // The event of a call on its way to the policy.
  function SentOn(st: EventRecorder.State, e: Event): Event {
    e.(sequence := |st.events|, previousHash := TerminalHash(st.events, |st.events|), hash := None)
  }

  /** An event that is recorded carries what its caller gave; where the caller gave no source, principal or
      classification it carries those of its timeline. */
  lemma RecordedEventCarries(env: EventRecorder.Env, st: EventRecorder.State, call: EventRecorder.Call)
    requires EventRecorder.Record(env, st, call).1.Recorded?
    requires
      var at := EventRecorder.PositionOf(st, EventRecorder.Timeline(call.timeline));
      forall e, q | EventRecorder.Normalized(env, at, st.nextId, call) == Some((e, q)) :: KeptAsIs(env.persist, SentOn(st, e))
    ensures
      var key := EventRecorder.Timeline(call.timeline);
      CarriesInOrder(EventRecorder.Record(env, st, call).1.event, GivenBy(call), EventRecorder.DefaultsFor(env, key), env.now)
  {
    var key := EventRecorder.Timeline(call.timeline);
    var at := EventRecorder.PositionOf(st, key);
    var d, id := EventRecorder.DefaultsFor(env, key), EventRecorder.EventId(env.scenario, env.seed, st.nextId);
    NormalizerMakes(at, id, GivenBy(call), d, env.now, call.parent, call.root);
    var (e, q) := EventRecorder.Normalized(env, at, st.nextId, call).value;
    var numbered := e.(sequence := |st.events|);
    PreparedIsInOrder(env.codec, env.persist, numbered, TerminalHash(st.events, |st.events|));
    assert Carries(numbered, GivenBy(call), d, env.now);
  }

  /** The recorder's own parts: a timeline's correlation, and the source, principal and classification of the
      agent it records. */
  lemma TimelineDefaults(env: EventRecorder.Env, key: string)
    ensures
      var d := EventRecorder.DefaultsFor(env, key);
      && d.source == env.source(key) && d.principal == env.principal && d.classification == env.classification
      && d.correlation.Obj?
      && Get(d.correlation.members, "trace_id") == Some(Str("trace_" + env.scenario + "_" + env.seed))
      && Get(d.correlation.members, "run_id")
         == Some(Str("run_" + env.scenario + (if key == "" then "" else "_" + key) + "_" + env.seed))
  {
    assert "run_id"[0] != "trace_id"[0];
  }
}
