/** Turning evidence into event envelopes with deterministic causality. */
module Normalization {
  import opened JsonValues
  import opened Journal
  import JsonLimits

  const ROOT_EVENT_TYPES: set<string> := {"agent.intent.recorded", "agent.run.started", "recorder.degraded"}

  // Values the normalizer fills in where a record leaves them out.
  datatype Defaults = Defaults(correlation: Json, source: Json, principal: Json, classification: Json)

  // Where the normalizer stands in its timeline.
  datatype Position = Position(initial: nat, sequence: nat, root: Option<string>, last: Option<string>)

  const FRESH := Position(0, 0, None, None)

  // What the event model checks when an envelope is built.
  predicate EnvelopeAccepts(e: Event) {
    && e.id != "" && e.eventType != "" && e.root != "" && e.parent != Some("") && e.sequence >= 0
    && JsonLimits.EnvelopeAccepts(Obj(e.payload))
    && (e.parent.None? ==> e.eventType in ROOT_EVENT_TYPES && e.root == e.id)
  }

  // `x or y` on optional texts: an empty text counts as absent.
  function Or(x: Option<string>, y: Option<string>): Option<string> {
    if x.Some? && x.value != "" then x else y
  }

  // Readings of the clock for one event.
  datatype Times = Times(occurredAt: Json, observedAt: Json)

  function ContextOf(
    d: Defaults, source: Option<Json>, principal: Option<Json>, classification: Option<Json>, now: Times): Context
  {
    Context(d.correlation, OrDefault(source, d.source), OrDefault(principal, d.principal),
            OrDefault(classification, d.classification), now.occurredAt, now.observedAt)
  }

  function OrDefault(x: Option<Json>, y: Json): Json { match x case Some(v) => v case None => y }

  // The next event and position, or None when the event model raises.
  function RecordEvent(
    pos: Position, id: string, eventType: string, payload: seq<Member>, context: Context,
    parent: Option<string>, root: Option<string>): Option<(Event, Position)>
  {
    var isRoot := pos.root.None? && parent.None? && root.None?;
    var resolvedRoot := if isRoot then Some(id) else if root.Some? then root else pos.root;
    if resolvedRoot.None? then None
    else
      var resolvedParent := if isRoot then None else Or(parent, pos.last);
      var e := Event(id, eventType, pos.sequence, resolvedRoot.value, resolvedParent, context, payload,
                     CANONICALIZATION_VERSION, None, None);
      if EnvelopeAccepts(e) then Some((e, pos.(sequence := pos.sequence + 1, root := Some(e.root), last := Some(id))))
      else None
  }

  function Rebased(pos: Position, initial: nat): Option<Position> {
    if pos.sequence != pos.initial || pos.root.Some? then None
    else Some(pos.(initial := initial, sequence := initial))
  }

  /** A source of identifiers; the n-th is a parameter. */
  class IdGenerator {
    const ids: nat -> string
    var index: nat

    constructor (ids: nat -> string, index: nat)
      ensures this.ids == ids && this.index == index
    {
      this.ids := ids;
      this.index := index;
    }

    method NewId() returns (id: string)
      modifies this
      ensures id == ids(old(index)) && index == old(index) + 1
    {
      id := ids(index);
      index := index + 1;
    }
  }

  class EvidenceNormalizer {
    const defaults: Defaults
    const generator: IdGenerator
    const clock: nat -> Times
    var initialSequence: nat
    var sequence: nat
    var rootEventId: Option<string>
    var lastEventId: Option<string>

    function At(): Position reads this { Position(initialSequence, sequence, rootEventId, lastEventId) }

    constructor (d: Defaults, g: IdGenerator, clock: nat -> Times)
      ensures At() == FRESH && defaults == d && generator == g && this.clock == clock
    {
      defaults, generator, this.clock := d, g, clock;
      initialSequence, sequence := 0, 0;
      rootEventId, lastEventId := None, None;
    }

    /** Set the first sequence, refused once records have been emitted. */
    method RebaseInitialSequence(initial: nat) returns (ok: bool)
      modifies this
      ensures ok <==> old(sequence) == old(initialSequence) && old(rootEventId).None?
      ensures ok <==> Rebased(old(At()), initial).Some?
      ensures At() == if ok then Position(initial, initial, None, old(lastEventId)) else old(At())
    {
      if sequence != initialSequence || rootEventId.Some? { return false; }
      initialSequence := initial;
      sequence := initial;
      return true;
    }

    /** Create the next event, or leave the timeline where it was; an identifier is spent either way. */
    method Record(eventType: string, payload: seq<Member>, source: Option<Json>, principal: Option<Json>,
                  classification: Option<Json>, parent: Option<string>, root: Option<string>)
      returns (event: Option<Event>)
      modifies this, generator
      ensures generator.index == old(generator.index) + 1
      ensures
        var n := old(generator.index);
        var context := ContextOf(defaults, source, principal, classification, clock(n));
        match RecordEvent(old(At()), generator.ids(n), eventType, payload, context, parent, root)
        case None => event == None && At() == old(At())
        case Some((e, pos)) => event == Some(e) && At() == pos
      ensures event.Some? ==>
        var e, now := event.value, clock(old(generator.index));
        && e.eventType == eventType && e.payload == payload && e.sequence == old(sequence)
        && e.context.source == (if source.Some? then source.value else defaults.source)
        && e.context.principal == (if principal.Some? then principal.value else defaults.principal)
        && e.context.classification == (if classification.Some? then classification.value else defaults.classification)
        && e.context.correlation == defaults.correlation
        && e.context.occurredAt == now.occurredAt && e.context.observedAt == now.observedAt
    {
      var now := clock(generator.index);
      var id := generator.NewId();
      var isRoot := rootEventId.None? && parent.None? && root.None?;
      var resolvedRoot := if isRoot then Some(id) else if root.Some? then root else rootEventId;
      if resolvedRoot.None? { return None; }
      var resolvedParent := if isRoot then None else Or(parent, lastEventId);
      var e := Event(id, eventType, sequence, resolvedRoot.value, resolvedParent,
                     ContextOf(defaults, source, principal, classification, now), payload,
                     CANONICALIZATION_VERSION, None, None);
      if !EnvelopeAccepts(e) { return None; }
      sequence := sequence + 1;
      rootEventId := Some(e.root);
      lastEventId := Some(e.id);
      return Some(e);
    }
  }
}
