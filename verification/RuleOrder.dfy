/** The order a rule sees a group's events in, and the order of its reports. */
module RuleOrder {
  import opened JsonValues
  import opened Sorting
  import opened Detection
  import OrderedMatching
  import opened UnorderedMatching
  import Suppression
  import opened SequenceRules
  import MatchingLimits

  /** Earlier, or at the same time with the smaller sequence, or with equal sequences the smaller id. */
  ghost predicate Before(x: Event, y: Event) {
    || x.occurredAt < y.occurredAt
    || (x.occurredAt == y.occurredAt
        && (x.sequence < y.sequence || (x.sequence == y.sequence && x.id != y.id && StringLe(x.id, y.id))))
  }

  ghost predicate Chronological(es: seq<Event>) { forall i, j | 0 <= i < j < |es| :: Before(es[i], es[j]) }

  ghost predicate UniqueIds(es: seq<Event>) { forall i, j | 0 <= i < j < |es| :: es[i].id != es[j].id }

  lemma BeforeIsStrict(x: Event, y: Event)
    ensures !(Before(x, y) && Before(y, x)) && !Before(x, x)
  {
    if StringLe(x.id, y.id) && StringLe(y.id, x.id) { StringLeIsTotal(x.id, y.id); }
  }

  lemma {:induction false} UniqueCounts(es: seq<Event>, e: Event)
    requires UniqueIds(es)
    ensures multiset(es)[e] <= 1
  {
    if es != [] {
      forall i, j | 0 <= i < j < |es[1..]| ensures es[1..][i].id != es[1..][j].id { assert es[i + 1].id != es[j + 1].id; }
      UniqueCounts(es[1..], e);
      assert es == [es[0]] + es[1..];
      if e == es[0] { forall x | x in es[1..] ensures x != e {} }
    }
  }

  lemma TwiceCounts(es: seq<Event>, i: nat, j: nat)
    requires i < j < |es| && es[i] == es[j]
    ensures multiset(es)[es[i]] >= 2
  {
    assert es == es[..i] + [es[i]] + es[i + 1..];
    assert es[j] == es[i + 1..][j - i - 1] && es[j] in multiset(es[i + 1..]);
  }

  lemma UniqueAfterSort(group: seq<Event>, ordered: seq<Event>)
    requires UniqueIds(group) && multiset(group) == multiset(ordered)
    ensures UniqueIds(ordered)
  {
    forall i, j | 0 <= i < j < |ordered| ensures ordered[i].id != ordered[j].id {
      var x, y := ordered[i], ordered[j];
      assert x in multiset(group) && y in multiset(group);
      if x == y {
        TwiceCounts(ordered, i, j);
        UniqueCounts(group, x);
        assert false;
      } else {
        var p :| 0 <= p < |group| && group[p] == x;
        var q :| 0 <= q < |group| && group[q] == y;
        assert if p < q then group[p].id != group[q].id else group[q].id != group[p].id;
      }
    }
  }

  /** The list a rule is matched against holds the events of the group in chronological order. */
  lemma GroupIsChronological(group: seq<Event>)
    requires UniqueIds(group)
    ensures Chronological(Sort(group, EventLe)) && multiset(Sort(group, EventLe)) == multiset(group)
  {
    var ordered := Sort(group, EventLe);
    EventLeIsPreorder();
    SortIsSortedPermutation(group, EventLe);
    UniqueAfterSort(group, ordered);
    forall i, j | 0 <= i < j < |ordered| ensures Before(ordered[i], ordered[j]) {
      assert EventLe(ordered[i], ordered[j]) && ordered[i].id != ordered[j].id;
    }
  }

  lemma GroupIsUnique(events: seq<Event>, rule: Rule, k: Key)
    requires UniqueIds(events)
    ensures UniqueIds(Group(events, rule.groupKey, k))
  {
    GroupKeepsUnique(events, rule.groupKey, k);
  }

  lemma {:induction false} GroupKeepsUnique(events: seq<Event>, key: Event -> Key, k: Key)
    requires UniqueIds(events)
    ensures UniqueIds(Group(events, key, k))
  {
    if events != [] {
      var n := |events| - 1;
      GroupKeepsUnique(events[..n], key, k);
      GroupMembers(events[..n], key, k);
      var init := Group(events[..n], key, k);
      forall i | 0 <= i < |init| ensures init[i].id != events[n].id {
        assert init[i] in events[..n];
        var j :| 0 <= j < n && events[..n][j] == init[i];
      }
    }
  }

  // ---------------------------------------------------------------- ordered rules

  /** Events of the group for the stages of a rule, in chronological order. */
  ghost predicate PicksInOrder(rule: Rule, group: seq<Event>, picks: seq<Event>) {
    StagePicks(rule, group, picks) && Chronological(picks)
  }

  lemma EmbeddingIsInOrder(rule: Rule, ordered: seq<Event>, from: nat, ix: seq<nat>)
    requires Chronological(ordered) && OrderedMatching.Embedding(ordered, rule.stages, from, ix)
    ensures OrderedMatching.Fits(ordered, ix) && Chronological(OrderedMatching.At(ordered, ix))
  {
  }

  lemma {:induction false} PackingIsInOrder(rule: Rule, ordered: seq<Event>, from: nat, gs: seq<seq<nat>>)
    requires rule.stages != [] && Chronological(ordered) && OrderedMatching.Packing(ordered, rule.stages, from, gs)
    requires OrderedMatching.AllFit(ordered, gs)
    ensures forall m | m in OrderedMatching.Picks(ordered, gs) :: Chronological(m)
    decreases |gs|
  {
    if gs != [] {
      EmbeddingIsInOrder(rule, ordered, from, gs[0]);
      PackingIsInOrder(rule, ordered, gs[0][|rule.stages| - 1] + 1, gs[1..]);
    }
  }

  lemma OrderedMatchesAreInOrder(rule: Rule, group: seq<Event>)
    requires rule.ordered && rule.stages != [] && UniqueIds(group)
    ensures forall m | m in RawMatches(rule, group) :: PicksInOrder(rule, group, m)
  {
    var ordered := Sort(group, EventLe);
    GroupIsChronological(group);
    RawMatchesPickStages(rule, group);
    OrderedMatching.GreedyFits(ordered, rule.stages, 0);
    OrderedMatching.GreedyIsPacking(ordered, rule.stages, 0);
    var gs := OrderedMatching.Greedy(ordered, rule.stages, 0);
    PackingIsInOrder(rule, ordered, 0, gs);
    KeepWindowKeeps(OrderedMatching.Picks(ordered, gs), rule.withinSeconds);
  }

  /** What an ordered rule reports happened in the order of its stages. */
  lemma OrderedReportsAreInOrder(events: seq<Event>, rule: Rule, m: Match)
    requires rule.ordered && UniqueIds(events) && m in Evaluate(events, rule)
    ensures exists picks: seq<Event> ::
      && |picks| == |m.eventIds| && (forall i | 0 <= i < |picks| :: m.eventIds[i] == picks[i].id)
      && PicksInOrder(rule, Group(events, rule.groupKey, m.groupKey), picks)
  {
    var picks := ReportedIsRaw(events, rule, m);
    GroupIsUnique(events, rule, m.groupKey);
    OrderedMatchesAreInOrder(rule, Group(events, rule.groupKey, m.groupKey));
  }

  // Where the picks stand in the ordered list.
  lemma {:induction false} PlacesOf(ordered: seq<Event>, picks: seq<Event>) returns (ix: seq<nat>)
    requires forall m | 0 <= m < |picks| :: picks[m] in ordered
    ensures |ix| == |picks| && forall m | 0 <= m < |ix| :: ix[m] < |ordered| && ordered[ix[m]] == picks[m]
  {
    ix := [];
    if picks != [] {
      var n := |picks| - 1;
      ix := PlacesOf(ordered, picks[..n]);
      assert picks[n] in ordered;
      var i: nat :| i < |ordered| && ordered[i] == picks[n];
      ix := ix + [i];
    }
  }

  lemma PicksEmbed(rule: Rule, ordered: seq<Event>, picks: seq<Event>) returns (ix: seq<nat>)
    requires Chronological(ordered) && PicksInOrder(rule, ordered, picks)
    ensures OrderedMatching.Embedding(ordered, rule.stages, 0, ix)
  {
    ix := PlacesOf(ordered, picks);
    forall p, q | 0 <= p < q < |ix| ensures ix[p] < ix[q] {
      assert Before(picks[p], picks[q]);
      BeforeIsStrict(picks[p], picks[q]);
    }
    forall m | 0 <= m < |ix| ensures Matches(ordered[ix[m]], rule.stages[m]) { assert Matches(picks[m], rule.stages[m]); }
  }

  /** Without a window an ordered rule reports a group exactly when the group holds events for its stages in
      chronological order: by time, then by sequence whatever the ids, then by id. */
  lemma OrderedRuleReportsIff(events: seq<Event>, rule: Rule, k: Key)
    requires rule.ordered && rule.stages != [] && rule.withinSeconds.None? && UniqueIds(events)
    ensures OfGroup(Evaluate(events, rule), k) != []
       <==> exists picks :: PicksInOrder(rule, Group(events, rule.groupKey, k), picks)
  {
    var group := Group(events, rule.groupKey, k);
    var ordered := Sort(group, EventLe);
    GroupIsUnique(events, rule, k);
    GroupIsChronological(group);
    MatchingLimits.ReportedIff(rule, events, k);
    OrderedMatchesAreInOrder(rule, group);
    if RawMatches(rule, group) != [] { assert PicksInOrder(rule, group, RawMatches(rule, group)[0]); }
    if picks :| PicksInOrder(rule, group, picks) { PicksAreReported(events, rule, k, picks); }
  }

  lemma PicksAreReported(events: seq<Event>, rule: Rule, k: Key, picks: seq<Event>)
    requires rule.ordered && rule.stages != [] && rule.withinSeconds.None? && UniqueIds(events)
    requires PicksInOrder(rule, Group(events, rule.groupKey, k), picks)
    ensures OfGroup(Evaluate(events, rule), k) != []
  {
    var group := Group(events, rule.groupKey, k);
    var ordered := Sort(group, EventLe);
    GroupIsUnique(events, rule, k);
    GroupIsChronological(group);
    forall m | 0 <= m < |picks| ensures picks[m] in ordered { assert picks[m] in multiset(group); }
    var ix := PicksEmbed(rule, ordered, picks);
    MatchingLimits.FirstMatchIsReported(rule, group, ix);
    MatchingLimits.ReportedIff(rule, events, k);
  }

  /** Two events at one time, one for each of two stages: reported exactly when the first stage's event has
      the smaller sequence, whatever the ids and the order they arrive in. */
  lemma {:induction false} TieGoesBySequence(rule: Rule, x: Event, y: Event, events: seq<Event>)
    requires rule.ordered && |rule.stages| == 2 && rule.withinSeconds.None? && (events == [x, y] || events == [y, x])
    requires x.occurredAt == y.occurredAt && x.sequence != y.sequence && x.id != y.id
    requires rule.groupKey(x) == rule.groupKey(y)
    requires Matches(x, rule.stages[0]) && Matches(y, rule.stages[1])
    requires !Matches(y, rule.stages[0]) && !Matches(x, rule.stages[1])
    ensures OfGroup(Evaluate(events, rule), rule.groupKey(x)) != [] <==> x.sequence < y.sequence
  {
    var k := rule.groupKey(x);
    var group := Group(events, rule.groupKey, k);
    GroupMembers(events, rule.groupKey, k);
    assert x in events && y in events && forall e | e in events :: e == x || e == y;
    assert x in group && y in group && forall e | e in group :: e == x || e == y;
    if x.sequence < y.sequence {
      TieIsInOrder(rule, group, x, y);
      PicksAreReported(events, rule, k, [x, y]);
    } else if OfGroup(Evaluate(events, rule), k) != [] {
      OrderedRuleReportsIff(events, rule, k);
      var picks :| PicksInOrder(rule, group, picks);
      TiePicksAre(rule, group, x, y, picks);
      assert false;
    }
  }

  lemma TieIsInOrder(rule: Rule, group: seq<Event>, x: Event, y: Event)
    requires |rule.stages| == 2 && x in group && y in group
    requires Matches(x, rule.stages[0]) && Matches(y, rule.stages[1])
    requires x.occurredAt == y.occurredAt && x.sequence < y.sequence
    ensures PicksInOrder(rule, group, [x, y])
  {
    var picks := [x, y];
    assert forall i | 0 <= i < 2 :: picks[i] in group && Matches(picks[i], rule.stages[i]);
  }

  lemma TiePicksAre(rule: Rule, group: seq<Event>, x: Event, y: Event, picks: seq<Event>)
    requires |rule.stages| == 2 && (forall e | e in group :: e == x || e == y) && PicksInOrder(rule, group, picks)
    requires !Matches(y, rule.stages[0]) && !Matches(x, rule.stages[1])
    requires x.occurredAt == y.occurredAt && x.sequence != y.sequence
    ensures x.sequence < y.sequence
  {
    assert picks[0] in group && Matches(picks[0], rule.stages[0]);
    assert picks[1] in group && Matches(picks[1], rule.stages[1]);
    assert Before(picks[0], picks[1]);
  }

  // ---------------------------------------------------------------- unordered rules

  /** Each stage in turn has the earliest event that fits it and is not taken by a stage before. */
  ghost predicate EarliestPicks(stages: seq<Stage>, events: seq<Event>, picks: seq<Event>) {
    |picks| == |stages|
    && forall k, e | 0 <= k < |picks| && e in events && e !in picks[..k] && Matches(e, stages[k]) ::
         e == picks[k] || Before(picks[k], e)
  }

  lemma {:induction false} FirstFitIsFirst(events: seq<Event>, stage: Stage, i: nat)
    requires FirstFit(events, stage) == Some(i)
    ensures forall j | 0 <= j < i :: !Matches(events[j], stage)
  {
    if i > 0 {
      FirstFitIsFirst(events[1..], stage, i - 1);
      forall j | 0 <= j < i ensures !Matches(events[j], stage) { if j > 0 { assert events[j] == events[1..][j - 1]; } }
    }
  }

  lemma {:induction false} PicksAreEarliest(events: seq<Event>, stages: seq<Stage>)
    requires Chronological(events) && Pick(events, stages).Some?
    ensures EarliestPicks(stages, events, Pick(events, stages).value)
    decreases |stages|
  {
    if stages != [] {
      var i := FirstFit(events, stages[0]).value;
      var fewer := RemoveAt(events, i);
      FirstFitIsFirst(events, stages[0], i);
      PicksAreEarliest(fewer, stages[1..]);
      var rest := Pick(fewer, stages[1..]).value;
      ConsIsEarliest(events, stages, i, rest);
    }
  }

  lemma ConsIsEarliest(events: seq<Event>, stages: seq<Stage>, i: nat, rest: seq<Event>)
    requires stages != [] && i < |events| && Chronological(events)
    requires forall j | 0 <= j < i :: !Matches(events[j], stages[0])
    requires EarliestPicks(stages[1..], RemoveAt(events, i), rest)
    ensures EarliestPicks(stages, events, [events[i]] + rest)
  {
    var picks, fewer := [events[i]] + rest, RemoveAt(events, i);
    forall k, e | 0 <= k < |picks| && e in events && e !in picks[..k] && Matches(e, stages[k])
      ensures e == picks[k] || Before(picks[k], e)
    {
      var j :| 0 <= j < |events| && events[j] == e;
      if k > 0 {
        assert picks[..k] == [events[i]] + rest[..k - 1] && j != i;
        var l := if j < i then j else j - 1;
        assert e == fewer[l] && e in fewer && e !in rest[..k - 1];
        assert stages[k] == stages[1..][k - 1] && picks[k] == rest[k - 1];
      }
    }
  }

  /** What an unordered rule reports takes, stage by stage, the earliest event that is left. */
  lemma UnorderedReportsAreEarliest(events: seq<Event>, rule: Rule, m: Match)
    requires !rule.ordered && UniqueIds(events) && m in Evaluate(events, rule)
    ensures exists picks: seq<Event> ::
      && |picks| == |m.eventIds| && (forall i | 0 <= i < |picks| :: m.eventIds[i] == picks[i].id)
      && EarliestPicks(rule.stages, Group(events, rule.groupKey, m.groupKey), picks)
  {
    var picks := ReportedIsRaw(events, rule, m);
    var group := Group(events, rule.groupKey, m.groupKey);
    var ordered := Sort(group, EventLe);
    GroupIsUnique(events, rule, m.groupKey);
    GroupIsChronological(group);
    PicksAreEarliest(ordered, rule.stages);
    forall e | e in group ensures e in ordered { assert e in multiset(group); }
  }

  // ---------------------------------------------------------------- order of the reports

  // Key a first occurs before any event has key b.
  ghost predicate SeenFirst(events: seq<Event>, key: Event -> Key, a: Key, b: Key) {
    exists p :: FirstAt(events, key, a, b, p)
  }

  ghost predicate FirstAt(events: seq<Event>, key: Event -> Key, a: Key, b: Key, p: nat) {
    p < |events| && key(events[p]) == a && forall q | 0 <= q <= p :: key(events[q]) != b
  }

  lemma SeenFirstStays(events: seq<Event>, n: nat, key: Event -> Key, a: Key, b: Key)
    requires n <= |events| && SeenFirst(events[..n], key, a, b)
    ensures SeenFirst(events, key, a, b)
  {
    var p: nat :| FirstAt(events[..n], key, a, b, p);
    forall q | 0 <= q <= p ensures key(events[q]) != b { assert events[..n][q] == events[q]; }
    assert FirstAt(events, key, a, b, p);
  }

  lemma {:induction false} KeysAreSeenInOrder(events: seq<Event>, key: Event -> Key, u: nat, v: nat)
    requires u < v < |Keys(events, key)|
    ensures SeenFirst(events, key, Keys(events, key)[u], Keys(events, key)[v])
  {
    var n := |events| - 1;
    var init, all := Keys(events[..n], key), Keys(events, key);
    if v < |init| {
      KeysAreSeenInOrder(events[..n], key, u, v);
      SeenFirstStays(events, n, key, init[u], init[v]);
    } else {
      KeysAreTheGroupKeys(events[..n], key, all[u]);
      KeysAreTheGroupKeys(events[..n], key, all[v]);
      GroupMembers(events[..n], key, all[u]);
      GroupMembers(events[..n], key, all[v]);
      assert init[u] in init && all[v] !in init;
      var e := Group(events[..n], key, all[u])[0];
      assert e in Group(events[..n], key, all[u]);
      var p :| 0 <= p < n && events[..n][p] == e;
      forall q | 0 <= q <= p ensures key(events[q]) != all[v] { assert events[..n][q] == events[q]; }
      assert FirstAt(events, key, all[u], all[v], p);
    }
  }

  // The keys of earlier reports come earlier among the keys.
  lemma {:induction false} ReportsFollowKeys(rule: Rule, events: seq<Event>, keys: seq<Key>, i: nat, j: nat)
    returns (u: nat, v: nat)
    requires rule.stages != [] && i < j < |MatchesFor(rule, events, keys)|
    ensures u <= v < |keys|
    ensures MatchesFor(rule, events, keys)[i].groupKey == keys[u] && MatchesFor(rule, events, keys)[j].groupKey == keys[v]
  {
    var n := |keys| - 1;
    var before := MatchesFor(rule, events, keys[..n]);
    var last := GroupMatches(rule, Group(events, rule.groupKey, keys[n]), keys[n]);
    assert forall m | m in last :: m.groupKey == keys[n];
    if j < |before| {
      u, v := ReportsFollowKeys(rule, events, keys[..n], i, j);
    } else {
      v := n;
      assert last[j - |before|] in last;
      if i < |before| {
        u := KeyOfReport(rule, events, keys[..n], i);
      } else {
        u := n;
        assert last[i - |before|] in last;
      }
    }
  }

  lemma {:induction false} KeyOfReport(rule: Rule, events: seq<Event>, keys: seq<Key>, i: nat) returns (u: nat)
    requires rule.stages != [] && i < |MatchesFor(rule, events, keys)|
    ensures u < |keys| && MatchesFor(rule, events, keys)[i].groupKey == keys[u]
  {
    var n := |keys| - 1;
    var before := MatchesFor(rule, events, keys[..n]);
    var last := GroupMatches(rule, Group(events, rule.groupKey, keys[n]), keys[n]);
    if i < |before| {
      u := KeyOfReport(rule, events, keys[..n], i);
    } else {
      u := n;
      assert last[i - |before|].groupKey == keys[n];
    }
  }

  /** Reports come group by group, the group seen first in the events first. */
  lemma ReportsFollowArrival(events: seq<Event>, rule: Rule, i: nat, j: nat)
    requires i < j < |Evaluate(events, rule)|
    requires Evaluate(events, rule)[i].groupKey != Evaluate(events, rule)[j].groupKey
    ensures SeenFirst(events, rule.groupKey, Evaluate(events, rule)[i].groupKey, Evaluate(events, rule)[j].groupKey)
  {
    var keys := Keys(events, rule.groupKey);
    var u, v := ReportsFollowKeys(rule, events, keys, i, j);
    KeysAreSeenInOrder(events, rule.groupKey, u, v);
  }
}
