/** Rule evaluation: group the events, order each group, match, then suppress and de-duplicate. */
module SequenceRules {
  import opened JsonValues
  import opened Sorting
  import opened Detection
  import OrderedMatching
  import UnorderedMatching
  import opened Suppression

  // ---------------------------------------------------------------- order within a group

  predicate EventLe(a: Event, b: Event) {
    if a.occurredAt != b.occurredAt then a.occurredAt < b.occurredAt
    else if a.sequence != b.sequence then a.sequence < b.sequence
    else StringLe(a.id, b.id)
  }

  lemma EventLeIsPreorder()
    ensures TotalPreorder(EventLe)
  {
    forall x, y ensures EventLe(x, y) || EventLe(y, x) { StringLeIsTotal(x.id, y.id); }
    forall x, y, z | EventLe(x, y) && EventLe(y, z) ensures EventLe(x, z) {
      if x.occurredAt == y.occurredAt == z.occurredAt && x.sequence == y.sequence == z.sequence {
        StringLeIsTransitive(x.id, y.id, z.id);
      }
    }
  }

  ghost predicate DistinctIds(events: seq<Event>) {
    forall x, y | x in events && y in events && x.id == y.id :: x == y
  }

  lemma DistinctIdsHaveNoTies(events: seq<Event>)
    requires DistinctIds(events)
    ensures NoTies(events, EventLe)
  {
    forall x, y | x in events && y in events && EventLe(x, y) && EventLe(y, x) ensures x == y {
      StringLeIsTotal(x.id, y.id);
    }
  }

  // ---------------------------------------------------------------- groups

  function Group(events: seq<Event>, key: Event -> Key, k: Key): seq<Event> {
    if events == [] then []
    else
      var init := Group(events[..|events| - 1], key, k);
      if key(events[|events| - 1]) == k then init + [events[|events| - 1]] else init
  }

  // The group keys, each where it first appears.
  function Keys(events: seq<Event>, key: Event -> Key): seq<Key> {
    if events == [] then []
    else
      var init := Keys(events[..|events| - 1], key);
      var k := key(events[|events| - 1]);
      if k in init then init else init + [k]
  }

  /** The grouping loop: a dict from key to events, filled in arrival order. */
  method GroupEvents(events: seq<Event>, key: Event -> Key) returns (keys: seq<Key>, grouped: map<Key, seq<Event>>)
    ensures keys == Keys(events, key)
    ensures grouped.Keys == set k | k in keys
    ensures forall k | k in keys :: grouped[k] == Group(events, key, k)
  {
    keys := [];
    grouped := map[];
    for i := 0 to |events|
      invariant keys == Keys(events[..i], key)
      invariant grouped.Keys == set k | k in keys
      invariant forall k | k in keys :: grouped[k] == Group(events[..i], key, k)
      invariant forall k | k !in keys :: Group(events[..i], key, k) == []
    {
      assert events[..i + 1][..i] == events[..i];
      var k := key(events[i]);
      if k in grouped {
        grouped := grouped[k := grouped[k] + [events[i]]];
      } else {
        keys := keys + [k];
        grouped := grouped[k := [events[i]]];
      }
    }
    assert events[..|events|] == events;
  }

  /** The groups partition the events: an event occurs in the group of its own key, as often as
      in the input, and in no other. */
  lemma {:induction false} GroupsPartition(events: seq<Event>, key: Event -> Key, k: Key, e: Event)
    ensures multiset(Group(events, key, k))[e] == if key(e) == k then multiset(events)[e] else 0
  {
    if events != [] {
      var n := |events| - 1;
      GroupsPartition(events[..n], key, k, e);
      assert events == events[..n] + [events[n]];
    }
  }

  lemma {:induction false} KeysAreTheGroupKeys(events: seq<Event>, key: Event -> Key, k: Key)
    ensures k in Keys(events, key) <==> Group(events, key, k) != []
  {
    if events != [] { KeysAreTheGroupKeys(events[..|events| - 1], key, k); }
  }

  lemma {:induction false} KeysAreDistinct(events: seq<Event>, key: Event -> Key)
    ensures forall i, j | 0 <= i < j < |Keys(events, key)| :: Keys(events, key)[i] != Keys(events, key)[j]
  {
    if events != [] { KeysAreDistinct(events[..|events| - 1], key); }
  }

  lemma GroupOfPermutation(events: seq<Event>, events': seq<Event>, key: Event -> Key, k: Key)
    requires multiset(events) == multiset(events')
    ensures multiset(Group(events, key, k)) == multiset(Group(events', key, k))
  {
    forall e ensures multiset(Group(events, key, k))[e] == multiset(Group(events', key, k))[e] {
      GroupsPartition(events, key, k, e);
      GroupsPartition(events', key, k, e);
    }
  }

  lemma GroupMembers(events: seq<Event>, key: Event -> Key, k: Key)
    ensures forall e :: e in Group(events, key, k) <==> e in events && key(e) == k
  {
  }

  // ---------------------------------------------------------------- evaluation

  datatype Match = Match(eventIds: seq<string>, groupKey: Key)

  // The matches in one group before suppression.
  function RawMatches(rule: Rule, group: seq<Event>): seq<seq<Event>>
    requires rule.stages != []
  {
    var ordered := Sort(group, EventLe);
    if rule.ordered then OrderedMatching.OrderedMatches(ordered, rule.stages, rule.withinSeconds, 0)
    else UnorderedMatching.UnorderedMatches(ordered, rule.stages, rule.withinSeconds)
  }

  /** Picks of a match: for each stage one event of the group, of the stage's type and satisfying its clause. */
  ghost predicate StagePicks(rule: Rule, group: seq<Event>, m: seq<Event>) {
    |m| == |rule.stages|
    && forall i | 0 <= i < |m| ::
         m[i] in group && m[i].eventType == rule.stages[i].eventType && rule.stages[i].where(m[i])
  }

  lemma {:induction false} KeepWindowKeeps(ms: seq<seq<Event>>, within: Option<real>)
    ensures forall m | m in OrderedMatching.KeepWindow(ms, within) :: m in ms && WithinWindow(m, within)
  {
    if ms != [] { KeepWindowKeeps(ms[1..], within); }
  }

  lemma {:induction false} PackingPicks(rule: Rule, ordered: seq<Event>, from: nat, gs: seq<seq<nat>>)
    requires rule.stages != [] && OrderedMatching.Packing(ordered, rule.stages, from, gs)
    requires OrderedMatching.AllFit(ordered, gs)
    ensures forall m | m in OrderedMatching.Picks(ordered, gs) :: StagePicks(rule, ordered, m)
    decreases |gs|
  {
    if gs != [] {
      assert OrderedMatching.Embedding(ordered, rule.stages, from, gs[0]);
      assert OrderedMatching.Fits(ordered, gs[0]);
      assert StagePicks(rule, ordered, OrderedMatching.At(ordered, gs[0]));
      PackingPicks(rule, ordered, gs[0][|rule.stages| - 1] + 1, gs[1..]);
    }
  }

  lemma OrderedPickStages(rule: Rule, ordered: seq<Event>)
    requires rule.stages != []
    ensures forall m | m in OrderedMatching.OrderedMatches(ordered, rule.stages, rule.withinSeconds, 0) ::
      StagePicks(rule, ordered, m) && WithinWindow(m, rule.withinSeconds)
  {
    OrderedMatching.GreedyFits(ordered, rule.stages, 0);
    OrderedMatching.GreedyIsPacking(ordered, rule.stages, 0);
    var gs := OrderedMatching.Greedy(ordered, rule.stages, 0);
    PackingPicks(rule, ordered, 0, gs);
    KeepWindowKeeps(OrderedMatching.Picks(ordered, gs), rule.withinSeconds);
  }

  lemma UnorderedPickStages(rule: Rule, ordered: seq<Event>)
    ensures forall m | m in UnorderedMatching.UnorderedMatches(ordered, rule.stages, rule.withinSeconds) ::
      StagePicks(rule, ordered, m) && WithinWindow(m, rule.withinSeconds)
  {
    UnorderedMatching.PickIsAssignment(ordered, rule.stages);
    forall m | m in UnorderedMatching.UnorderedMatches(ordered, rule.stages, rule.withinSeconds)
      ensures StagePicks(rule, ordered, m)
    {
      forall i | 0 <= i < |m| ensures m[i] in ordered { assert m[i] in multiset(m); }
    }
  }

  /** Every match, ordered or not, picks one event of its group per stage, within the window. */
  lemma RawMatchesPickStages(rule: Rule, group: seq<Event>)
    requires rule.stages != []
    ensures forall m | m in RawMatches(rule, group) :: StagePicks(rule, group, m) && WithinWindow(m, rule.withinSeconds)
  {
    EventLeIsPreorder();
    SortIsSortedPermutation(group, EventLe);
    if rule.ordered { OrderedPickStages(rule, Sort(group, EventLe)); }
    else { UnorderedPickStages(rule, Sort(group, EventLe)); }
  }

  lemma RawMatchesAreNonEmpty(rule: Rule, group: seq<Event>)
    requires rule.stages != []
    ensures NonEmpty(RawMatches(rule, group))
  {
    RawMatchesPickStages(rule, group);
    var ms := RawMatches(rule, group);
    forall i | 0 <= i < |ms| ensures ms[i] != [] { assert StagePicks(rule, group, ms[i]); }
  }

  // ---------------------------------------------------------------- order of starts

  // In a time-ordered list a match starts at its first pick.
  lemma {:induction false} EarliestIsFirst(m: seq<Event>)
    requires m != [] && forall i, j | 0 <= i < j < |m| :: m[i].occurredAt <= m[j].occurredAt
    ensures EarliestTime(m) == m[0].occurredAt
  {
    if |m| > 1 {
      EarliestIsFirst(m[1..]);
      assert m[0].occurredAt <= m[1].occurredAt;
    }
  }

  ghost predicate StartsAfter(t: real, ms: seq<seq<Event>>) {
    forall i | 0 <= i < |ms| :: ms[i] != [] && t <= EarliestTime(ms[i])
  }

  ghost predicate StartsAscend(ms: seq<seq<Event>>) {
    NonEmpty(ms) && Ascending(ms)
  }

  lemma ConsAscends(m: seq<Event>, ms: seq<seq<Event>>)
    requires m != [] && StartsAscend(ms) && StartsAfter(EarliestTime(m), ms)
    ensures StartsAscend([m] + ms)
  {
    var all := [m] + ms;
    forall i | 0 <= i < |all| ensures all[i] != [] { if i > 0 { assert all[i] == ms[i - 1]; } }
    forall i, j | 0 <= i < j < |all| ensures StartAt(all, i) <= StartAt(all, j) {
      if i > 0 { assert StartAt(ms, i - 1) <= StartAt(ms, j - 1); }
    }
  }

  lemma ConsStartsAfter(t: real, m: seq<Event>, ms: seq<seq<Event>>)
    requires m != [] && t <= EarliestTime(m) && StartsAfter(t, ms)
    ensures StartsAfter(t, [m] + ms)
  {
  }

  lemma TailAscends(ms: seq<seq<Event>>)
    requires ms != [] && StartsAscend(ms)
    ensures StartsAscend(ms[1..]) && StartsAfter(EarliestTime(ms[0]), ms[1..])
  {
    var rest := ms[1..];
    forall i, j | 0 <= i < j < |rest| ensures StartAt(rest, i) <= StartAt(rest, j) {
      assert StartAt(ms, i + 1) <= StartAt(ms, j + 1);
    }
    forall i | 0 <= i < |rest| ensures EarliestTime(ms[0]) <= EarliestTime(rest[i]) {
      assert StartAt(ms, 0) <= StartAt(ms, i + 1);
    }
  }

  lemma {:induction false} KeepWindowAscends(ms: seq<seq<Event>>, within: Option<real>, t: real)
    requires StartsAscend(ms) && StartsAfter(t, ms)
    ensures StartsAscend(OrderedMatching.KeepWindow(ms, within))
    ensures StartsAfter(t, OrderedMatching.KeepWindow(ms, within))
  {
    if ms != [] {
      TailAscends(ms);
      KeepWindowAscends(ms[1..], within, t);
      KeepWindowAscends(ms[1..], within, EarliestTime(ms[0]));
      var kept := OrderedMatching.KeepWindow(ms[1..], within);
      ConsAscends(ms[0], kept);
      ConsStartsAfter(t, ms[0], kept);
      assert [] + kept == kept;
    }
  }

  ghost predicate TimeOrdered(events: seq<Event>) {
    forall i, j | 0 <= i < j < |events| :: events[i].occurredAt <= events[j].occurredAt
  }

  lemma EmbeddingStart(ordered: seq<Event>, stages: seq<Stage>, from: nat, ix: seq<nat>)
    requires TimeOrdered(ordered) && stages != [] && OrderedMatching.Embedding(ordered, stages, from, ix)
    ensures OrderedMatching.Fits(ordered, ix)
    ensures EarliestTime(OrderedMatching.At(ordered, ix)) == ordered[ix[0]].occurredAt && from <= ix[0]
  {
    EarliestIsFirst(OrderedMatching.At(ordered, ix));
  }

  lemma {:induction false} PackingAscends(
    ordered: seq<Event>, stages: seq<Stage>, from: nat, gs: seq<seq<nat>>, t: real)
    requires TimeOrdered(ordered) && stages != [] && OrderedMatching.Packing(ordered, stages, from, gs)
    requires OrderedMatching.AllFit(ordered, gs)
    requires forall i | from <= i < |ordered| :: t <= ordered[i].occurredAt
    ensures StartsAscend(OrderedMatching.Picks(ordered, gs)) && StartsAfter(t, OrderedMatching.Picks(ordered, gs))
    decreases |gs|
  {
    if gs != [] {
      var g := gs[0];
      var next, last := g[|stages| - 1] + 1, OrderedMatching.At(ordered, g);
      EmbeddingStart(ordered, stages, from, g);
      assert g[0] <= g[|stages| - 1];
      PackingAscends(ordered, stages, next, gs[1..], EarliestTime(last));
      PackingAscends(ordered, stages, next, gs[1..], t);
      ConsAscends(last, OrderedMatching.Picks(ordered, gs[1..]));
    }
  }

  /** The matches of a group, before suppression, are listed in the order they start. */
  lemma RawMatchesAscend(rule: Rule, group: seq<Event>)
    requires rule.stages != []
    ensures StartsAscend(RawMatches(rule, group))
  {
    RawMatchesAreNonEmpty(rule, group);
    if rule.ordered {
      EventLeIsPreorder();
      SortIsSortedPermutation(group, EventLe);
      var ordered := Sort(group, EventLe);
      assert TimeOrdered(ordered) by {
        forall i, j | 0 <= i < j < |ordered| ensures ordered[i].occurredAt <= ordered[j].occurredAt {
          assert EventLe(ordered[i], ordered[j]);
        }
      }
      var gs := OrderedMatching.Greedy(ordered, rule.stages, 0);
      OrderedMatching.GreedyFits(ordered, rule.stages, 0);
      OrderedMatching.GreedyIsPacking(ordered, rule.stages, 0);
      if ordered != [] {
        PackingAscends(ordered, rule.stages, 0, gs, ordered[0].occurredAt);
        KeepWindowAscends(OrderedMatching.Picks(ordered, gs), rule.withinSeconds, ordered[0].occurredAt);
      }
    }
  }

  /** What is reported for a group keeps the configured gap, negative or not: any two reports with the
      same suppression key start more than that far apart. */
  lemma ReportsKeepGaps(rule: Rule, group: seq<Event>, k: Key, seconds: real)
    requires rule.stages != [] && rule.suppressionSeconds == Some(seconds)
    ensures
      var ms := RawMatches(rule, group);
      && NonEmpty(ms) && InOrder(Kept(rule, k, ms), |ms|)
      && GroupMatches(rule, group, k) == Report(Select(ms, Kept(rule, k, ms)), k)
      && Gaps(rule, k, ms, Kept(rule, k, ms), seconds)
  {
    RawMatchesAscend(rule, group);
    RunKeepsGaps(rule, k, RawMatches(rule, group), |RawMatches(rule, group)|, seconds);
  }

  /** A match of a group is reported exactly when it repeats no earlier match (with de-duplication on)
      and is far from every earlier report for its suppression key. */
  lemma ReportedIffFar(rule: Rule, group: seq<Event>, k: Key, i: nat)
    requires rule.stages != [] && i < |RawMatches(rule, group)|
    ensures
      var ms := RawMatches(rule, group);
      && NonEmpty(ms) && InOrder(Kept(rule, k, ms), |ms|)
      && (i in Kept(rule, k, ms) <==>
            !(rule.deduplicate && Repeat(ms, i)) && FarFromAll(rule, k, ms, Kept(rule, k, ms), i))
  {
    RawMatchesAscend(rule, group);
    EmittedIffFar(rule, k, RawMatches(rule, group), i);
  }

  // The matches reported for one group.
  function GroupMatches(rule: Rule, group: seq<Event>, k: Key): seq<Match>
    requires rule.stages != []
  {
    RawMatchesAreNonEmpty(rule, group);
    var ms := RawMatches(rule, group);
    RunRemembers(rule, k, ms, |ms|);
    Report(Select(ms, Kept(rule, k, ms)), k)
  }

  /** Suppression and de-duplication never silence a group: it is reported exactly when it has a match. */
  lemma GroupIsReportedIff(rule: Rule, group: seq<Event>, k: Key)
    requires rule.stages != []
    ensures GroupMatches(rule, group, k) != [] <==> RawMatches(rule, group) != []
  {
    RawMatchesAreNonEmpty(rule, group);
    var ms := RawMatches(rule, group);
    RunRemembers(rule, k, ms, |ms|);
    if ms != [] { ReportedIffFar(rule, group, k, 0); }
  }

  function Report(ms: seq<seq<Event>>, k: Key): (r: seq<Match>)
    ensures |r| == |ms| && forall i | 0 <= i < |r| :: r[i] == Match(Ids(ms[i]), k)
  {
    seq(|ms|, i requires 0 <= i < |ms| => Match(Ids(ms[i]), k))
  }

  function MatchesFor(rule: Rule, events: seq<Event>, keys: seq<Key>): seq<Match>
    requires rule.stages != []
  {
    if keys == [] then []
    else
      MatchesFor(rule, events, keys[..|keys| - 1])
      + GroupMatches(rule, Group(events, rule.groupKey, keys[|keys| - 1]), keys[|keys| - 1])
  }

  function Evaluate(events: seq<Event>, rule: Rule): seq<Match> {
    if rule.stages == [] then [] else MatchesFor(rule, events, Keys(events, rule.groupKey))
  }

  method EvaluateSequenceRule(events: seq<Event>, rule: Rule) returns (matches: seq<Match>)
    ensures matches == Evaluate(events, rule)
  {
    if rule.stages == [] { return []; }
    matches := [];
    var keys, grouped := GroupEvents(events, rule.groupKey);
    for n := 0 to |keys|
      invariant matches == MatchesFor(rule, events, keys[..n])
    {
      var k := keys[n];
      var ordered := Sort(grouped[k], EventLe);
      var found: seq<seq<Event>>;
      if rule.ordered {
        found := OrderedMatching.MatchOrdered(ordered, rule.stages, rule.withinSeconds);
      } else {
        found := UnorderedMatching.MatchUnordered(ordered, rule.stages, rule.withinSeconds);
      }
      RawMatchesAreNonEmpty(rule, grouped[k]);
      var emitted := SuppressAndDedupe(found, rule, k);
      assert keys[..n + 1][..n] == keys[..n];
      matches := matches + Report(emitted, k);
    }
    assert keys[..|keys|] == keys;
  }

  // ---------------------------------------------------------------- arrival order

  // The reported matches of one group.
  function OfGroup(matches: seq<Match>, k: Key): seq<Match> {
    if matches == [] then []
    else
      var init := OfGroup(matches[..|matches| - 1], k);
      if matches[|matches| - 1].groupKey == k then init + [matches[|matches| - 1]] else init
  }

  lemma {:induction false} OfGroupAppend(a: seq<Match>, b: seq<Match>, k: Key)
    ensures OfGroup(a + b, k) == OfGroup(a, k) + OfGroup(b, k)
  {
    if b == [] {
      assert a + b == a;
    } else {
      var n := |b| - 1;
      assert (a + b)[..|a + b| - 1] == a + b[..n];
      OfGroupAppend(a, b[..n], k);
    }
  }

  lemma {:induction false} OfGroupUniform(a: seq<Match>, k: Key, k': Key)
    requires forall m | m in a :: m.groupKey == k'
    ensures OfGroup(a, k) == if k == k' then a else []
  {
    if a != [] {
      var n := |a| - 1;
      OfGroupUniform(a[..n], k, k');
      assert a == a[..n] + [a[n]];
    }
  }

  lemma {:induction false} MatchesForOneKey(rule: Rule, events: seq<Event>, keys: seq<Key>, k: Key)
    requires rule.stages != []
    requires forall i, j | 0 <= i < j < |keys| :: keys[i] != keys[j]
    ensures OfGroup(MatchesFor(rule, events, keys), k)
         == if k in keys then GroupMatches(rule, Group(events, rule.groupKey, k), k) else []
  {
    if keys != [] {
      var n := |keys| - 1;
      MatchesForOneKey(rule, events, keys[..n], k);
      var last := GroupMatches(rule, Group(events, rule.groupKey, keys[n]), keys[n]);
      OfGroupAppend(MatchesFor(rule, events, keys[..n]), last, k);
      OfGroupUniform(last, k, keys[n]);
      assert k in keys <==> k in keys[..n] || k == keys[n];
    }
  }

  lemma EmptyGroupHasNoMatches(rule: Rule, k: Key)
    requires rule.stages != []
    ensures GroupMatches(rule, [], k) == []
  {
  }

  /** The reported matches, group by group, are those of each group on its own. */
  lemma EvaluateByGroup(events: seq<Event>, rule: Rule, k: Key)
    requires rule.stages != []
    ensures OfGroup(Evaluate(events, rule), k) == GroupMatches(rule, Group(events, rule.groupKey, k), k)
  {
    KeysAreDistinct(events, rule.groupKey);
    KeysAreTheGroupKeys(events, rule.groupKey, k);
    MatchesForOneKey(rule, events, Keys(events, rule.groupKey), k);
    EmptyGroupHasNoMatches(rule, k);
  }

  /** Detections do not depend on arrival order: with distinct ids, any permutation of the
      events gives every group the same list of matches. */
  lemma ArrivalOrderIsIrrelevant(events: seq<Event>, events': seq<Event>, rule: Rule, k: Key)
    requires multiset(events) == multiset(events') && DistinctIds(events)
    ensures OfGroup(Evaluate(events, rule), k) == OfGroup(Evaluate(events', rule), k)
  {
    if rule.stages != [] {
      EvaluateByGroup(events, rule, k);
      EvaluateByGroup(events', rule, k);
      var g, g' := Group(events, rule.groupKey, k), Group(events', rule.groupKey, k);
      GroupOfPermutation(events, events', rule.groupKey, k);
      GroupMembers(events, rule.groupKey, k);
      DistinctIdsHaveNoTies(g);
      EventLeIsPreorder();
      SortIgnoresOrder(g, g', EventLe);
    }
  }

  // The reported match is one of its group's.
  lemma ReportedIsRaw(events: seq<Event>, rule: Rule, m: Match) returns (picks: seq<Event>)
    requires m in Evaluate(events, rule)
    ensures rule.stages != [] && picks in RawMatches(rule, Group(events, rule.groupKey, m.groupKey))
    ensures |picks| == |m.eventIds| && forall i | 0 <= i < |picks| :: m.eventIds[i] == picks[i].id
  {
    EvaluateByGroup(events, rule, m.groupKey);
    OfGroupContains(Evaluate(events, rule), m);
    var group := Group(events, rule.groupKey, m.groupKey);
    var reported := GroupMatches(rule, group, m.groupKey);
    var i :| 0 <= i < |reported| && reported[i] == m;
    RawMatchesAreNonEmpty(rule, group);
    var ms := RawMatches(rule, group);
    RunRemembers(rule, m.groupKey, ms, |ms|);
    picks := ms[Kept(rule, m.groupKey, ms)[i]];
  }

  /** Every reported match lies inside the group it names and has one fitting event per stage. */
  lemma MatchesAreLocal(events: seq<Event>, rule: Rule, m: Match)
    requires m in Evaluate(events, rule)
    ensures exists picks: seq<Event> ::
      && |picks| == |m.eventIds| && (forall i | 0 <= i < |picks| :: m.eventIds[i] == picks[i].id)
      && StagePicks(rule, Group(events, rule.groupKey, m.groupKey), picks)
      && WithinWindow(picks, rule.withinSeconds)
  {
    var picks := ReportedIsRaw(events, rule, m);
    RawMatchesPickStages(rule, Group(events, rule.groupKey, m.groupKey));
  }

  lemma {:induction false} OfGroupContains(matches: seq<Match>, m: Match)
    requires m in matches
    ensures m in OfGroup(matches, m.groupKey)
  {
    var n := |matches| - 1;
    if m != matches[n] {
      assert m in matches[..n];
      OfGroupContains(matches[..n], m);
    }
  }
}
