/** Events, stages and rules of the sequence detection engine.
    Field predicates and key paths are parameters: every result holds for all of them. */
module Detection {
  import opened JsonValues

  datatype Event = Event(id: string, occurredAt: real, sequence: int, eventType: string, body: Json)

  // One stage: an event type and the meaning of its `where` clause.
  datatype Stage = Stage(eventType: string, where: Event -> bool)

  type Key = seq<string>

  datatype Rule = Rule(
    stages: seq<Stage>,
    groupKey: Event -> Key,
    ordered: bool,
    withinSeconds: Option<real>,
    deduplicate: bool,
    suppressionSeconds: Option<real>,
    suppressionKey: Option<Event -> Key>)

  predicate Matches(e: Event, stage: Stage) { e.eventType == stage.eventType && stage.where(e) }

  // min and max of the event times
  function EarliestTime(events: seq<Event>): real
    requires events != []
  {
    if |events| == 1 then events[0].occurredAt
    else
      var rest := EarliestTime(events[1..]);
      if events[0].occurredAt <= rest then events[0].occurredAt else rest
  }

  function LatestTime(events: seq<Event>): real
    requires events != []
  {
    if |events| == 1 then events[0].occurredAt
    else
      var rest := LatestTime(events[1..]);
      if events[0].occurredAt >= rest then events[0].occurredAt else rest
  }

  predicate WithinWindow(events: seq<Event>, within: Option<real>) {
    within.None? || |events| < 2 || LatestTime(events) - EarliestTime(events) <= within.value
  }

  lemma {:induction false} TimesAreBounds(events: seq<Event>)
    requires events != []
    ensures forall e | e in events :: EarliestTime(events) <= e.occurredAt <= LatestTime(events)
    ensures exists e | e in events :: e.occurredAt == EarliestTime(events)
    ensures exists e | e in events :: e.occurredAt == LatestTime(events)
  {
    assert events[0] in events;
    if |events| > 1 { TimesAreBounds(events[1..]); }
  }

  ghost predicate PairwiseWithin(events: seq<Event>, within: real) {
    forall a, b | a in events && b in events :: b.occurredAt - a.occurredAt <= within
  }

  /** Within the window means every two events are no further apart than the window. */
  lemma WindowMeansPairwise(events: seq<Event>, within: real)
    requires within >= 0.0 && events != []
    ensures WithinWindow(events, Some(within)) <==> PairwiseWithin(events, within)
  {
    TimesAreBounds(events);
    var first :| first in events && first.occurredAt == EarliestTime(events);
    var last :| last in events && last.occurredAt == LatestTime(events);
    if |events| == 1 { assert forall e | e in events :: e == events[0]; }
  }

  lemma WindowOfTwo(a: Event, b: Event, within: real)
    requires a.occurredAt <= b.occurredAt
    ensures WithinWindow([a, b], Some(within)) <==> b.occurredAt - a.occurredAt <= within
  {
    assert [a, b][1..] == [b];
    assert EarliestTime([b]) == b.occurredAt && LatestTime([b]) == b.occurredAt;
  }
}
