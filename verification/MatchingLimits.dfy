/** Exactly which rules report a group whenever it holds a match. */
module MatchingLimits {
  import opened JsonValues
  import opened Sorting
  import opened Detection
  import opened OrderedMatching
  import opened UnorderedMatching
  import opened SequenceRules

  // A stage that looks neither at when an event happened nor at its identity.
  ghost predicate Blind(stage: Stage) {
    forall e: Event, f: Event | e.eventType == f.eventType && e.body == f.body :: Matches(e, stage) <==> Matches(f, stage)
  }

  ghost predicate AllBlind(stages: seq<Stage>) { forall k | 0 <= k < |stages| :: Blind(stages[k]) }

  ghost predicate AllSatisfiable(stages: seq<Stage>) { forall k | 0 <= k < |stages| :: Satisfiable(stages[k]) }

  // The rule's grouping looks at neither.
  ghost predicate BlindKey(rule: Rule) {
    forall e: Event, f: Event | e.eventType == f.eventType && e.body == f.body :: rule.groupKey(e) == rule.groupKey(f)
  }

  // The stage, for events of one group only.
  function StageInKey(rule: Rule, stage: Stage, k: Key): Stage {
    Stage(stage.eventType, (e: Event) => stage.where(e) && rule.groupKey(e) == k)
  }

  function InKey(rule: Rule, k: Key): (r: seq<Stage>)
    ensures |r| == |rule.stages| && forall m | 0 <= m < |r| :: r[m] == StageInKey(rule, rule.stages[m], k)
  {
    seq(|rule.stages|, m requires 0 <= m < |rule.stages| => StageInKey(rule, rule.stages[m], k))
  }

  ghost predicate AllOfKey(rule: Rule, events: seq<Event>, k: Key) {
    forall e | e in events :: rule.groupKey(e) == k
  }

  lemma MatchesInKey(rule: Rule, k: Key, m: nat, e: Event)
    requires m < |rule.stages|
    ensures Matches(e, InKey(rule, k)[m]) <==> Matches(e, rule.stages[m]) && rule.groupKey(e) == k
  {
  }

  lemma InKeyIsBlind(rule: Rule, k: Key)
    requires BlindKey(rule) && AllBlind(rule.stages)
    ensures AllBlind(InKey(rule, k))
  {
    forall m | 0 <= m < |rule.stages| ensures Blind(InKey(rule, k)[m]) { assert Blind(rule.stages[m]); }
  }

  lemma {:induction false} GroupOfOneKey(rule: Rule, events: seq<Event>, k: Key)
    requires AllOfKey(rule, events, k)
    ensures Group(events, rule.groupKey, k) == events
  {
    if events != [] {
      GroupOfOneKey(rule, events[..|events| - 1], k);
      assert events == events[..|events| - 1] + [events[|events| - 1]];
    }
  }

  // Some stage fits no event of the group's key.
  ghost predicate Barred(rule: Rule, k: Key) { !AllSatisfiable(InKey(rule, k)) }

  lemma FittedIsNotBarred(rule: Rule, k: Key, picks: seq<Event>)
    requires |picks| == |rule.stages|
    requires forall m | 0 <= m < |picks| :: Matches(picks[m], rule.stages[m]) && rule.groupKey(picks[m]) == k
    ensures !Barred(rule, k)
  {
    forall m | 0 <= m < |rule.stages| ensures Satisfiable(InKey(rule, k)[m]) { MatchesInKey(rule, k, m, picks[m]); }
  }

  // ---------------------------------------------------------------- events with a place in time

  function Name(k: nat): string { seq(k + 1, _ => 'e') }

  // The event at place k and time t.
  function Stamped(e: Event, k: nat, t: real): Event { Event(Name(k), t, k, e.eventType, e.body) }

  ghost predicate InPlace(events: seq<Event>) {
    && (forall k | 0 <= k < |events| :: events[k].id == Name(k) && events[k].sequence == k)
    && forall j, k | 0 <= j < k < |events| :: events[j].occurredAt <= events[k].occurredAt
  }

  lemma InPlaceIsGroup(events: seq<Event>)
    requires InPlace(events)
    ensures SequenceRules.DistinctIds(events) && Sort(events, EventLe) == events
  {
    forall x, y | x in events && y in events && x.id == y.id ensures x == y {
      var j :| 0 <= j < |events| && events[j] == x;
      var k :| 0 <= k < |events| && events[k] == y;
      assert |Name(j)| == j + 1 && |Name(k)| == k + 1;
    }
    EventLeIsPreorder();
    DistinctIdsHaveNoTies(events);
    SortIsSortedPermutation(events, EventLe);
    assert SortedBy(events, EventLe);
    SortedIsUnique(events, Sort(events, EventLe), EventLe);
  }

  lemma {:induction false} WitnessOfEach(stages: seq<Stage>) returns (ws: seq<Event>)
    requires AllSatisfiable(stages)
    ensures |ws| == |stages| && forall k | 0 <= k < |stages| :: Matches(ws[k], stages[k])
  {
    if stages == [] {
      ws := [];
    } else {
      forall k | 0 <= k < |stages[1..]| ensures Satisfiable(stages[1..][k]) { assert Satisfiable(stages[k + 1]); }
      var rest := WitnessOfEach(stages[1..]);
      assert Satisfiable(stages[0]);
      var w :| Matches(w, stages[0]);
      ws := [w] + rest;
      forall k | 0 <= k < |stages| ensures Matches(ws[k], stages[k]) { if k > 0 { assert ws[k] == rest[k - 1]; } }
    }
  }

  // ---------------------------------------------------------------- ordered rules with a window

  /** The time-ordered group holds an embedding inside the window. */
  ghost predicate HasInWindow(rule: Rule, group: seq<Event>) {
    exists ix :: Embedding(Sort(group, EventLe), rule.stages, 0, ix) && Fits(Sort(group, EventLe), ix)
      && WithinWindow(At(Sort(group, EventLe), ix), rule.withinSeconds)
  }

  /** A group with an in-window match is reported. */
  ghost predicate WindowComplete(rule: Rule, events: seq<Event>, k: Key) {
    HasInWindow(rule, Group(events, rule.groupKey, k)) ==> OfGroup(Evaluate(events, rule), k) != []
  }

  lemma ReportedIff(rule: Rule, events: seq<Event>, k: Key)
    requires rule.stages != []
    ensures OfGroup(Evaluate(events, rule), k) != [] <==> RawMatches(rule, Group(events, rule.groupKey, k)) != []
  {
    EvaluateByGroup(events, rule, k);
    GroupIsReportedIff(rule, Group(events, rule.groupKey, k), k);
  }

  // An event of the first stage, and much later one event for each stage.
  function Decoy(ws: seq<Event>, later: real): seq<Event>
    requires ws != []
  {
    [Stamped(ws[0], 0, 0.0)] + seq(|ws|, k requires 0 <= k < |ws| => Stamped(ws[k], k + 1, later))
  }

  lemma DecoyIsInPlace(ws: seq<Event>, later: real)
    requires ws != [] && later >= 0.0
    ensures InPlace(Decoy(ws, later))
  {
  }

  function LateIndexes(n: nat): (ix: seq<nat>)
    ensures |ix| == n && forall k | 0 <= k < n :: ix[k] == k + 1
  {
    seq(n, k requires 0 <= k < n => k + 1)
  }

  lemma StampsMatch(stages: seq<Stage>, ws: seq<Event>, k: nat, j: nat, t: real)
    requires AllBlind(stages) && k < |stages| == |ws| && Matches(ws[k], stages[k])
    ensures Matches(Stamped(ws[k], j, t), stages[k])
  {
    assert Blind(stages[k]);
  }

  lemma SameTimeIsWithin(m: seq<Event>, t: real, seconds: real)
    requires m != [] && seconds >= 0.0 && forall e | e in m :: e.occurredAt == t
    ensures WithinWindow(m, Some(seconds))
  {
    TimesAreBounds(m);
  }

  // An event of the first stage, and at a later time one event for each stage.
  ghost predicate LateMatch(events: seq<Event>, stages: seq<Stage>, later: real) {
    && |events| == |stages| + 1 > 1
    && events[0].occurredAt == 0.0 && Matches(events[0], stages[0])
    && forall m | 0 <= m < |stages| :: events[m + 1].occurredAt == later && Matches(events[m + 1], stages[m])
  }

  lemma DecoyIsLateMatch(stages: seq<Stage>, ws: seq<Event>, later: real)
    requires AllBlind(stages) && |ws| == |stages| > 0
    requires forall m | 0 <= m < |stages| :: Matches(ws[m], stages[m])
    ensures LateMatch(Decoy(ws, later), stages, later)
  {
    StampsMatch(stages, ws, 0, 0, 0.0);
    forall m | 0 <= m < |stages| ensures Matches(Decoy(ws, later)[m + 1], stages[m]) {
      StampsMatch(stages, ws, m, m + 1, later);
    }
  }

  // The late events are a match inside the window.
  lemma LateMatchIsInWindow(events: seq<Event>, stages: seq<Stage>, seconds: real)
    requires LateMatch(events, stages, seconds + 1.0) && seconds >= 0.0
    ensures
      var ix := LateIndexes(|stages|);
      Embedding(events, stages, 0, ix) && Fits(events, ix) && WithinWindow(At(events, ix), Some(seconds))
  {
    var ix := LateIndexes(|stages|);
    forall m | 0 <= m < |stages|
      ensures Matches(events[ix[m]], stages[m]) && At(events, ix)[m].occurredAt == seconds + 1.0
    {
      assert Matches(events[m + 1], stages[m]);
    }
    SameTimeIsWithin(At(events, ix), seconds + 1.0, seconds);
  }

  lemma LateMatchIsSkipped(events: seq<Event>, stages: seq<Stage>, seconds: real)
    requires LateMatch(events, stages, seconds + 1.0) && |stages| > 1 && seconds >= 0.0
    ensures OrderedMatches(events, stages, Some(seconds), 0) == []
  {
    LateMatchIsInWindow(events, stages, seconds);
    forall k | 1 <= k < |events| ensures events[k].occurredAt == seconds + 1.0 {
      assert Matches(events[(k - 1) + 1], stages[k - 1]);
    }
    EarlyEventHidesRest(events, stages, LateIndexes(|stages|), seconds);
  }

  // The first pass takes the early event, and leaves too few for a second.
  lemma EarlyEventHidesRest(events: seq<Event>, stages: seq<Stage>, late: seq<nat>, seconds: real)
    requires |events| == |stages| + 1 > 2
    requires Embedding(events, stages, 0, late) && forall k | 0 <= k < |late| :: late[k] == k + 1
    requires Matches(events[0], stages[0]) && events[0].occurredAt == 0.0 && seconds >= 0.0
    requires forall k | 1 <= k < |events| :: events[k].occurredAt == seconds + 1.0
    ensures OrderedMatches(events, stages, Some(seconds), 0) == []
  {
    FirstPassIsEarly(events, stages, late);
    var ix := Scan(events, stages, 0, []).value;
    var next := LastOf(stages, ix) + 1;
    FirstPassOverruns(events, stages, ix, seconds);
    NextMatch(events, stages, Some(seconds), 0, ix);
    IncreasingIndexes(ix, |stages| - 1);
    TooFewLeft(events, stages, next);
    NoMatch(events, stages, Some(seconds), next);
  }

  lemma FirstPassIsEarly(events: seq<Event>, stages: seq<Stage>, late: seq<nat>)
    requires |stages| > 1 && events != [] && Matches(events[0], stages[0]) && Embedding(events, stages, 0, late)
    requires forall k | 0 <= k < |late| :: late[k] == k + 1
    ensures Scan(events, stages, 0, []).Some?
    ensures Embedding(events, stages, 0, Scan(events, stages, 0, []).value)
    ensures Scan(events, stages, 0, []).value[0] == 0
  {
    var early := late[0 := 0];
    assert Embedding(events, stages, 0, early);
    ScanIsEarliest(events, stages, 0, 0, [], early);
    ScanIsEmbedding(events, stages, 0, 0, []);
  }

  lemma IncreasingIndexes(ix: seq<nat>, k: nat)
    requires k < |ix| && forall p, q | 0 <= p < q < |ix| :: ix[p] < ix[q]
    ensures ix[0] + k <= ix[k]
  {
    if k > 0 { IncreasingIndexes(ix, k - 1); }
  }

  lemma FirstPassOverruns(events: seq<Event>, stages: seq<Stage>, ix: seq<nat>, seconds: real)
    requires |stages| > 1 && Embedding(events, stages, 0, ix) && ix[0] == 0 && Fits(events, ix)
    requires events[0].occurredAt == 0.0
    requires forall k | 1 <= k < |events| :: events[k].occurredAt == seconds + 1.0
    ensures !WithinWindow(At(events, ix), Some(seconds))
  {
    var m := At(events, ix);
    TimesAreBounds(m);
    assert m[0] in m && m[1] in m;
    assert ix[0] < ix[1] && m[0] == events[ix[0]] && m[1] == events[ix[1]];
  }

  // An embedding needs as many places as there are stages.
  lemma TooFewLeft(events: seq<Event>, stages: seq<Stage>, from: nat)
    requires from <= |events| && stages != [] && |events| - from < |stages|
    ensures Scan(events, stages, from, []) == None
  {
    ScanIsEmbedding(events, stages, from, from, []);
    if Scan(events, stages, from, []).Some? {
      var ix := Scan(events, stages, from, []).value;
      IncreasingIndexes(ix, |stages| - 1);
    }
  }

  // ---------------------------------------------------------------- when a window loses nothing

  lemma FirstMatchIsReported(rule: Rule, group: seq<Event>, ix: seq<nat>)
    requires rule.ordered && rule.stages != [] && Embedding(Sort(group, EventLe), rule.stages, 0, ix)
    requires rule.withinSeconds.None? || |rule.stages| == 1
    ensures RawMatches(rule, group) != []
  {
    var events := Sort(group, EventLe);
    ScanIsEarliest(events, rule.stages, 0, 0, [], ix);
    ScanIsEmbedding(events, rule.stages, 0, 0, []);
    NextMatch(events, rule.stages, rule.withinSeconds, 0, Scan(events, rule.stages, 0, []).value);
  }

  // Two or more events are never inside a negative window.
  lemma NegativeWindowIsEmpty(m: seq<Event>, seconds: real)
    requires |m| > 1 && seconds < 0.0
    ensures !WithinWindow(m, Some(seconds))
  {
    TimesAreBounds(m);
    assert m[0] in m;
  }

  /** When the window of an ordered rule loses nothing: there is none, it is negative, there is only one
      stage, or in every group some stage fits nothing. */
  ghost predicate WindowIsHarmless(rule: Rule) {
    || rule.withinSeconds.None? || rule.withinSeconds.value < 0.0
    || |rule.stages| == 1 || forall k :: Barred(rule, k)
  }

  lemma HarmlessWindowIsComplete(rule: Rule, events: seq<Event>, k: Key)
    requires rule.ordered && rule.stages != [] && WindowIsHarmless(rule)
    ensures WindowComplete(rule, events, k)
  {
    var group := Group(events, rule.groupKey, k);
    ReportedIff(rule, events, k);
    if HasInWindow(rule, group) {
      var sorted := Sort(group, EventLe);
      var ix :| Embedding(sorted, rule.stages, 0, ix) && Fits(sorted, ix)
                && WithinWindow(At(sorted, ix), rule.withinSeconds);
      SortedGroupIsOfKey(rule, events, k);
      FittedIsNotBarred(rule, k, At(sorted, ix));
      if rule.withinSeconds.Some? && |rule.stages| > 1 && rule.withinSeconds.value < 0.0 {
        NegativeWindowIsEmpty(At(sorted, ix), rule.withinSeconds.value);
      } else {
        FirstMatchIsReported(rule, group, ix);
      }
    }
  }

  lemma SortedGroupIsOfKey(rule: Rule, events: seq<Event>, k: Key)
    ensures AllOfKey(rule, Sort(Group(events, rule.groupKey, k), EventLe), k)
    ensures multiset(Sort(Group(events, rule.groupKey, k), EventLe)) == multiset(Group(events, rule.groupKey, k))
  {
    var group := Group(events, rule.groupKey, k);
    EventLeIsPreorder();
    SortIsSortedPermutation(group, EventLe);
    GroupMembers(events, rule.groupKey, k);
    forall e | e in Sort(group, EventLe) ensures e in group { assert e in multiset(group); }
  }

  // A decoy made of events of one group, for a rule that can match in that group.
  lemma DecoyOfKey(rule: Rule, k: Key, later: real) returns (events: seq<Event>)
    requires rule.stages != [] && AllBlind(rule.stages) && BlindKey(rule) && later >= 0.0 && !Barred(rule, k)
    ensures OwnGroup(rule, events, k) && LateMatch(events, rule.stages, later)
  {
    var ws := WitnessOfEach(InKey(rule, k));
    forall m | 0 <= m < |ws| ensures Matches(ws[m], rule.stages[m]) && rule.groupKey(ws[m]) == k {
      MatchesInKey(rule, k, m, ws[m]);
    }
    events := Decoy(ws, later);
    DecoyIsInPlace(ws, later);
    DecoyIsOfKey(rule, k, ws, later);
    InPlaceIsOwnGroup(rule, events, k);
    DecoyIsLateMatch(rule.stages, ws, later);
  }

  lemma DecoyIsOfKey(rule: Rule, k: Key, ws: seq<Event>, later: real)
    requires ws != [] && BlindKey(rule) && forall m | 0 <= m < |ws| :: rule.groupKey(ws[m]) == k
    ensures AllOfKey(rule, Decoy(ws, later), k)
  {
    var events := Decoy(ws, later);
    forall e | e in events ensures rule.groupKey(e) == k {
      var m :| 0 <= m < |events| && events[m] == e;
      var w := ws[if m == 0 then 0 else m - 1];
      assert e.eventType == w.eventType && e.body == w.body;
    }
  }

  // The events are the time-ordered group of their key.
  ghost predicate OwnGroup(rule: Rule, events: seq<Event>, k: Key) {
    && SequenceRules.DistinctIds(events)
    && Group(events, rule.groupKey, k) == events && Sort(events, EventLe) == events
  }

  lemma InPlaceIsOwnGroup(rule: Rule, events: seq<Event>, k: Key)
    requires InPlace(events) && AllOfKey(rule, events, k)
    ensures OwnGroup(rule, events, k)
  {
    InPlaceIsGroup(events);
    GroupOfOneKey(rule, events, k);
  }

  lemma HarmfulWindowMisses(rule: Rule, k: Key) returns (events: seq<Event>)
    requires rule.ordered && AllBlind(rule.stages) && BlindKey(rule) && |rule.stages| > 1 && !Barred(rule, k)
    requires rule.withinSeconds.Some? && rule.withinSeconds.value >= 0.0
    ensures SequenceRules.DistinctIds(events) && !WindowComplete(rule, events, k)
  {
    var seconds := rule.withinSeconds.value;
    events := DecoyOfKey(rule, k, seconds + 1.0);
    LateMatchIsInWindow(events, rule.stages, seconds);
    LateMatchIsSkipped(events, rule.stages, seconds);
    ReportedIff(rule, events, k);
  }

  /** An ordered rule whose stages and grouping are blind to time reports every group that holds an
      in-window match exactly when its window is harmless. */
  lemma WindowedRuleCompleteIff(rule: Rule)
    requires rule.ordered && rule.stages != [] && AllBlind(rule.stages) && BlindKey(rule)
    ensures (forall events, k | SequenceRules.DistinctIds(events) :: WindowComplete(rule, events, k))
      <==> WindowIsHarmless(rule)
  {
    if WindowIsHarmless(rule) {
      forall events, k ensures WindowComplete(rule, events, k) { HarmlessWindowIsComplete(rule, events, k); }
    } else {
      var k :| !Barred(rule, k);
      var events := HarmfulWindowMisses(rule, k);
    }
  }

  // ---------------------------------------------------------------- unordered rules

  ghost predicate HasAssignment(rule: Rule, group: seq<Event>) {
    exists picks :: Assignment(group, rule.stages, picks) && WithinWindow(picks, rule.withinSeconds)
  }

  /** A group with an in-window assignment is reported. */
  ghost predicate AssignmentComplete(rule: Rule, events: seq<Event>, k: Key) {
    HasAssignment(rule, Group(events, rule.groupKey, k)) ==> OfGroup(Evaluate(events, rule), k) != []
  }

  function StampAll(events: seq<Event>): (r: seq<Event>)
    ensures |r| == |events| && forall k | 0 <= k < |r| :: r[k] == Stamped(events[k], k, 0.0)
  {
    seq(|events|, k requires 0 <= k < |events| => Stamped(events[k], k, 0.0))
  }

  // The trap with its events put in place.
  function StampTrap(t: Trap): Trap {
    var all, i, j := StampAll(t.Events()), |t.a|, |t.a| + 1 + |t.b|;
    Trap(all[..i], all[i], all[i + 1..j], all[j..j + |t.c|], all[j + |t.c|])
  }

  lemma StampedTrapEvents(t: Trap)
    ensures StampTrap(t).Events() == StampAll(t.Events())
  {
  }

  // A stamp of the event: the same stages fit.
  ghost predicate Restamped(e: Event, e': Event) { e.eventType == e'.eventType && e.body == e'.body }

  lemma RestampedMatches(stages: seq<Stage>, e: Event, e': Event)
    requires AllBlind(stages) && Restamped(e, e')
    ensures forall m | 0 <= m < |stages| :: Matches(e', stages[m]) <==> Matches(e, stages[m])
  {
    forall m | 0 <= m < |stages| ensures Matches(e', stages[m]) <==> Matches(e, stages[m]) { assert Blind(stages[m]); }
  }

  ghost predicate AllRestamped(s: seq<Event>, s': seq<Event>) {
    |s| == |s'| && forall k | 0 <= k < |s| :: Restamped(s[k], s'[k])
  }

  lemma RestampedFitEach(stages: seq<Stage>, s: seq<Event>, s': seq<Event>, from: nat)
    requires AllBlind(stages) && AllRestamped(s, s') && FitEach(s, stages, from)
    ensures FitEach(s', stages, from)
  {
    forall k | 0 <= k < |s'| ensures Matches(s'[k], stages[from + k]) {
      RestampedMatches(stages, s[k], s'[k]);
      assert Matches(s[k], stages[from + k]);
    }
  }

  lemma StampedTrapParts(t: Trap)
    ensures
      var t' := StampTrap(t);
      AllRestamped(t.a, t'.a) && AllRestamped(t.b, t'.b) && AllRestamped(t.c, t'.c)
      && Restamped(t.x, t'.x) && Restamped(t.o, t'.o) && AllRestamped(t.Picks(), t'.Picks())
  {
    var t', events := StampTrap(t), t.Events();
    assert forall k | 0 <= k < |t.a| :: t.a[k] == events[k];
    assert forall k | 0 <= k < |t.b| :: t.b[k] == events[|t.a| + 1 + k];
    assert forall k | 0 <= k < |t.c| :: t.c[k] == events[|t.a| + 1 + |t.b| + k];
  }

  lemma RestampedAlike(stages: seq<Stage>, e: Event, e': Event, f: Event, f': Event)
    requires AllBlind(stages) && Restamped(e, e') && Restamped(f, f') && Alike(stages, e, f)
    ensures Alike(stages, e', f')
  {
    RestampedMatches(stages, e, e');
    RestampedMatches(stages, f, f');
  }

  lemma {:induction false} StampedTrapSprings(t: Trap, stages: seq<Stage>, i: nat, j: nat)
    requires AllBlind(stages) && Springs(t, stages, i, j)
    ensures Springs(StampTrap(t), stages, i, j)
  {
    var t' := StampTrap(t);
    StampedTrapParts(t);
    RestampedFitEach(stages, t.a, t'.a, 0);
    RestampedFitEach(stages, t.b, t'.b, i + 1);
    RestampedFitEach(stages, t.c, t'.c, j + 1);
    RestampedMatches(stages, t.x, t'.x);
    RestampedMatches(stages, t.o, t'.o);
    AlikeAfterStamps(stages, t.Picks(), t'.Picks(), t.o, t'.o, j);
  }

  // Picks that are like o wherever o fits, but at place j, stay so when all are restamped.
  lemma AlikeAfterStamps(stages: seq<Stage>, ps: seq<Event>, ps': seq<Event>, o: Event, o': Event, j: nat)
    requires AllBlind(stages) && AllRestamped(ps, ps') && Restamped(o, o') && |ps| == |stages|
    requires forall k | 0 <= k < |stages| && k != j && Matches(o, stages[k]) :: Alike(stages, ps[k], o)
    ensures forall k | 0 <= k < |stages| && k != j && Matches(o', stages[k]) :: Alike(stages, ps'[k], o')
  {
    RestampedMatches(stages, o, o');
    forall k | 0 <= k < |stages| && k != j && Matches(o', stages[k]) ensures Alike(stages, ps'[k], o') {
      RestampedAlike(stages, ps[k], ps'[k], o, o');
    }
  }

  lemma StampAllIsInPlace(events: seq<Event>)
    ensures InPlace(StampAll(events))
  {
  }

  lemma AssignmentOfKey(rule: Rule, group: seq<Event>, k: Key, picks: seq<Event>)
    requires AllOfKey(rule, group, k) && Assignment(group, rule.stages, picks)
    ensures !Barred(rule, k)
  {
    forall m | 0 <= m < |picks| ensures rule.groupKey(picks[m]) == k { assert picks[m] in multiset(picks); }
    FittedIsNotBarred(rule, k, picks);
  }

  lemma NestedInKey(rule: Rule, group: seq<Event>, k: Key)
    requires AllOfKey(rule, group, k) && PairwiseNested(InKey(rule, k))
    ensures Nested(group, rule.stages)
  {
    forall i, j | 0 <= i < j < |rule.stages| ensures NestedPair(group, rule.stages[i], rule.stages[j]) {
      assert NestedEverywhere(InKey(rule, k)[i], InKey(rule, k)[j]);
      forall e | e in group
        ensures Matches(e, InKey(rule, k)[i]) <==> Matches(e, rule.stages[i])
        ensures Matches(e, InKey(rule, k)[j]) <==> Matches(e, rule.stages[j])
      {
      }
    }
  }

  /** When an unordered rule misses nothing. Without a window: in every group its stages are pairwise
      nested or one of them fits nothing. With one: the window is negative, there is only one stage, or
      in every group some stage fits nothing. */
  ghost predicate PicksAreHarmless(rule: Rule) {
    if rule.withinSeconds.None? then forall k :: PairwiseNested(InKey(rule, k)) || Barred(rule, k)
    else rule.withinSeconds.value < 0.0 || |rule.stages| == 1 || forall k :: Barred(rule, k)
  }

  lemma SingleStageIsNested(rule: Rule, events: seq<Event>)
    requires |rule.stages| == 1
    ensures Nested(events, rule.stages)
  {
  }

  lemma HarmlessPicksAreComplete(rule: Rule, events: seq<Event>, k: Key)
    requires !rule.ordered && rule.stages != [] && PicksAreHarmless(rule)
    ensures AssignmentComplete(rule, events, k)
  {
    var group := Group(events, rule.groupKey, k);
    var sorted := Sort(group, EventLe);
    ReportedIff(rule, events, k);
    if picks :| Assignment(group, rule.stages, picks) && WithinWindow(picks, rule.withinSeconds) {
      SortedGroupIsOfKey(rule, events, k);
      assert Assignment(sorted, rule.stages, picks);
      AssignmentOfKey(rule, sorted, k, picks);
      if rule.withinSeconds.None? {
        NestedInKey(rule, sorted, k);
        UnorderedIsComplete(sorted, rule.stages);
      } else if |rule.stages| == 1 {
        SingleStageIsNested(rule, sorted);
        UnorderedIsComplete(sorted, rule.stages);
        PickIsAssignment(sorted, rule.stages);
      } else {
        NegativeWindowIsEmpty(picks, rule.withinSeconds.value);
      }
    }
  }

  // A trap for the stages of one group.
  lemma OverlapInKeyMisses(rule: Rule, k: Key) returns (events: seq<Event>)
    requires !rule.ordered && rule.withinSeconds.None? && rule.stages != []
    requires AllBlind(rule.stages) && BlindKey(rule) && !Barred(rule, k) && !PairwiseNested(InKey(rule, k))
    ensures SequenceRules.DistinctIds(events) && !AssignmentComplete(rule, events, k)
  {
    InKeyIsBlind(rule, k);
    var t, i, j := OverlapSprings(InKey(rule, k));
    TrapOfKey(rule, k, t, i, j);
    events := t.Events();
    InPlaceIsOwnGroup(rule, events, k);
    TrapIsSprung(t, rule.stages, i, j);
    ReportedIff(rule, events, k);
  }

  lemma OverlapSprings(stages: seq<Stage>) returns (t: Trap, i: nat, j: nat)
    requires AllBlind(stages) && AllSatisfiable(stages) && !PairwiseNested(stages)
    ensures InPlace(t.Events()) && Springs(t, stages, i, j)
  {
    var x, o;
    i, j, x, o := OverlapOf(stages);
    var ws := WitnessesExist(stages, o);
    var bare := TrapOf(ws, i, j, x, o);
    TrapOfWitnesses(stages, ws, i, j, x, o);
    t := StampTrap(bare);
    StampedTrapSprings(bare, stages, i, j);
    StampedTrapEvents(bare);
    StampAllIsInPlace(bare.Events());
  }

  lemma FitEachInKey(rule: Rule, k: Key, s: seq<Event>, from: nat)
    requires FitEach(s, InKey(rule, k), from)
    ensures FitEach(s, rule.stages, from) && AllOfKey(rule, s, k)
  {
    forall m | 0 <= m < |s| ensures Matches(s[m], rule.stages[from + m]) && rule.groupKey(s[m]) == k {
      assert Matches(s[m], InKey(rule, k)[from + m]);
      MatchesInKey(rule, k, from + m, s[m]);
    }
  }

  lemma AlikeInKey(rule: Rule, k: Key, e: Event, f: Event)
    requires Alike(InKey(rule, k), e, f) && rule.groupKey(e) == rule.groupKey(f) == k
    ensures Alike(rule.stages, e, f)
  {
    forall m | 0 <= m < |rule.stages| ensures Matches(e, rule.stages[m]) <==> Matches(f, rule.stages[m]) {
      MatchesInKey(rule, k, m, e);
      MatchesInKey(rule, k, m, f);
      assert Matches(e, InKey(rule, k)[m]) <==> Matches(f, InKey(rule, k)[m]);
    }
  }

  // A trap for the stages of one group is made of that group's events, and is one for the rule.
  lemma {:induction false} TrapOfKey(rule: Rule, k: Key, t: Trap, i: nat, j: nat)
    requires Springs(t, InKey(rule, k), i, j)
    ensures AllOfKey(rule, t.Events(), k) && Springs(t, rule.stages, i, j)
  {
    var stages := InKey(rule, k);
    FitEachInKey(rule, k, t.a, 0);
    FitEachInKey(rule, k, t.b, i + 1);
    FitEachInKey(rule, k, t.c, j + 1);
    MatchesInKey(rule, k, i, t.x);
    MatchesInKey(rule, k, j, t.x);
    MatchesInKey(rule, k, i, t.o);
    MatchesInKey(rule, k, j, t.o);
    assert AllOfKey(rule, t.Picks(), k);
    forall m | 0 <= m < |stages| && m != j && Matches(t.o, rule.stages[m])
      ensures Alike(rule.stages, t.Picks()[m], t.o)
    {
      MatchesInKey(rule, k, m, t.o);
      AlikeInKey(rule, k, t.Picks()[m], t.o);
    }
  }

  lemma EarlyThenLate(m: seq<Event>, seconds: real)
    requires |m| > 1 && m[0].occurredAt == 0.0 && m[1].occurredAt == seconds + 1.0
    ensures !WithinWindow(m, Some(seconds))
  {
    TimesAreBounds(m);
    assert m[0] in m && m[1] in m;
  }

  lemma LatePick(events: seq<Event>, stages: seq<Stage>, later: real, rest: seq<Event>)
    requires LateMatch(events, stages, later) && Assignment(events[1..], stages[1..], rest) && rest != []
    ensures rest[0].occurredAt == later
  {
    assert rest[0] in multiset(rest);
    assert rest[0] in events[1..];
    var m :| 0 <= m < |events[1..]| && events[1..][m] == rest[0];
    assert Matches(events[m + 1], stages[m]) && events[m + 1].occurredAt == later;
  }

  // The matcher gives the early event to the first stage, and the rest comes too late.
  lemma LatePicksOverrun(events: seq<Event>, stages: seq<Stage>, seconds: real)
    requires LateMatch(events, stages, seconds + 1.0) && |stages| > 1 && seconds >= 0.0
    ensures UnorderedMatches(events, stages, Some(seconds)) == []
  {
    HeadIsPicked(events, stages);
    PickIsAssignment(events[1..], stages[1..]);
    if Pick(events[1..], stages[1..]).Some? {
      var rest := Pick(events[1..], stages[1..]).value;
      LatePick(events, stages, seconds + 1.0, rest);
      EarlyThenLate([events[0]] + rest, seconds);
    }
  }

  lemma LateMatchIsAssignment(events: seq<Event>, stages: seq<Stage>, seconds: real)
    requires LateMatch(events, stages, seconds + 1.0) && seconds >= 0.0
    ensures Assignment(events, stages, events[1..]) && WithinWindow(events[1..], Some(seconds))
  {
    var late := events[1..];
    assert events == [events[0]] + late;
    forall m | 0 <= m < |stages| ensures Matches(late[m], stages[m]) && late[m].occurredAt == seconds + 1.0 {
      assert late[m] == events[m + 1];
    }
    SameTimeIsWithin(late, seconds + 1.0, seconds);
  }

  lemma {:induction false} LateMatchIsMissed(rule: Rule, events: seq<Event>, k: Key, seconds: real)
    requires !rule.ordered && rule.withinSeconds == Some(seconds) && seconds >= 0.0 && |rule.stages| > 1
    requires OwnGroup(rule, events, k) && LateMatch(events, rule.stages, seconds + 1.0)
    ensures !AssignmentComplete(rule, events, k)
  {
    LateMatchIsAssignment(events, rule.stages, seconds);
    LatePicksOverrun(events, rule.stages, seconds);
    ReportedIff(rule, events, k);
  }

  lemma {:induction false} HarmfulWindowMissesPicks(rule: Rule, k: Key) returns (events: seq<Event>)
    requires !rule.ordered && AllBlind(rule.stages) && BlindKey(rule) && |rule.stages| > 1 && !Barred(rule, k)
    requires rule.withinSeconds.Some? && rule.withinSeconds.value >= 0.0
    ensures SequenceRules.DistinctIds(events) && !AssignmentComplete(rule, events, k)
  {
    events := DecoyOfKey(rule, k, rule.withinSeconds.value + 1.0);
    LateMatchIsMissed(rule, events, k, rule.withinSeconds.value);
  }

  /** An unordered rule whose stages and grouping are blind to time reports every group that holds an
      in-window assignment exactly when its picks are harmless. */
  lemma UnorderedRuleCompleteIff(rule: Rule)
    requires !rule.ordered && rule.stages != [] && AllBlind(rule.stages) && BlindKey(rule)
    ensures (forall events, k | SequenceRules.DistinctIds(events) :: AssignmentComplete(rule, events, k))
      <==> PicksAreHarmless(rule)
  {
    if PicksAreHarmless(rule) {
      forall events, k ensures AssignmentComplete(rule, events, k) { HarmlessPicksAreComplete(rule, events, k); }
    } else if rule.withinSeconds.None? {
      var k :| !PairwiseNested(InKey(rule, k)) && !Barred(rule, k);
      var events := OverlapInKeyMisses(rule, k);
    } else {
      var k :| !Barred(rule, k);
      var events := HarmfulWindowMissesPicks(rule, k);
    }
  }

  // ---------------------------------------------------------------- rules grouped by event type

  /** Grouped by event type, a rule with stages of two types reports every group that holds a match, because
      none does, whatever its window and however its stages overlap. */
  lemma GroupedByTypeIsComplete(rule: Rule, i: nat, j: nat, events: seq<Event>, k: Key)
    requires forall e :: rule.groupKey(e) == [e.eventType]
    requires i < |rule.stages| && j < |rule.stages| && rule.stages[i].eventType != rule.stages[j].eventType
    ensures if rule.ordered then WindowComplete(rule, events, k) else AssignmentComplete(rule, events, k)
    ensures OfGroup(Evaluate(events, rule), k) == []
  {
    var a, b := rule.stages[i].eventType, rule.stages[j].eventType;
    assert [a][0] != [b][0];
    forall k ensures Barred(rule, k) { OtherTypeIsBarred(rule, k, if k == [a] then j else i); }
    if rule.ordered { HarmlessWindowIsComplete(rule, events, k); } else { HarmlessPicksAreComplete(rule, events, k); }
    BarredIsSilent(rule, events, k);
  }

  // A group in which some stage fits nothing has no match.
  lemma BarredIsSilent(rule: Rule, events: seq<Event>, k: Key)
    requires rule.stages != [] && Barred(rule, k)
    ensures OfGroup(Evaluate(events, rule), k) == []
  {
    var group := Group(events, rule.groupKey, k);
    ReportedIff(rule, events, k);
    RawMatchesPickStages(rule, group);
    GroupMembers(events, rule.groupKey, k);
    if RawMatches(rule, group) != [] {
      var m := RawMatches(rule, group)[0];
      assert StagePicks(rule, group, m);
      FittedIsNotBarred(rule, k, m);
    }
  }

  lemma OtherTypeIsBarred(rule: Rule, k: Key, m: nat)
    requires forall e :: rule.groupKey(e) == [e.eventType]
    requires m < |rule.stages| && k != [rule.stages[m].eventType]
    ensures Barred(rule, k)
  {
    forall e ensures !Matches(e, InKey(rule, k)[m]) { MatchesInKey(rule, k, m, e); }
    assert !Satisfiable(InKey(rule, k)[m]);
  }
}
