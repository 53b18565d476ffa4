/** Ordered matching: repeated greedy passes over a time-ordered event list. */
module OrderedMatching {
  import opened JsonValues
  import opened Detection

  // ---------------------------------------------------------------- what a match is

  /** Positions ix carry the stages in order, none before position `from`. */
  ghost predicate Embedding(events: seq<Event>, stages: seq<Stage>, from: nat, ix: seq<nat>) {
    |ix| == |stages| && Partial(events, stages, from, |events|, ix)
  }

  // Positions between from and to carry the first stages in order.
  ghost predicate Partial(events: seq<Event>, stages: seq<Stage>, from: nat, to: nat, ix: seq<nat>) {
    && |ix| <= |stages| && to <= |events|
    && (forall p | 0 <= p < |ix| :: from <= ix[p] < to && Matches(events[ix[p]], stages[p]))
    && (forall p, q | 0 <= p < q < |ix| :: ix[p] < ix[q])
  }

  /** Consecutive matches, each after the last position of the one before. */
  ghost predicate Packing(events: seq<Event>, stages: seq<Stage>, from: nat, ms: seq<seq<nat>>)
    requires stages != []
    decreases |ms|
  {
    ms == []
    || (Embedding(events, stages, from, ms[0])
        && Packing(events, stages, ms[0][|stages| - 1] + 1, ms[1..]))
  }

  // ---------------------------------------------------------------- the greedy pass

  /** One pass: each stage takes the first event that fits after the previous pick. */
  function Scan(events: seq<Event>, stages: seq<Stage>, from: nat, ix: seq<nat>): Option<seq<nat>>
    requires from <= |events| && |ix| <= |stages|
    decreases |events| - from
  {
    if |ix| == |stages| then Some(ix)
    else if from == |events| then None
    else Scan(events, stages, from + 1, if Matches(events[from], stages[|ix|]) then ix + [from] else ix)
  }

  lemma PartialGrows(events: seq<Event>, stages: seq<Stage>, start: nat, i: nat, ix: seq<nat>)
    requires start <= i < |events| && |ix| < |stages| && Partial(events, stages, start, i, ix)
    ensures Partial(events, stages, start, i + 1, ix)
    ensures Matches(events[i], stages[|ix|]) ==> Partial(events, stages, start, i + 1, ix + [i])
  {
  }

  lemma {:induction false} ScanIsEmbedding(events: seq<Event>, stages: seq<Stage>, start: nat, from: nat, ix: seq<nat>)
    requires start <= from <= |events| && Partial(events, stages, start, from, ix)
    ensures Scan(events, stages, from, ix).Some? ==>
      Embedding(events, stages, start, Scan(events, stages, from, ix).value)
    decreases |events| - from
  {
    if |ix| < |stages| && from < |events| {
      PartialGrows(events, stages, start, from, ix);
      ScanIsEmbedding(events, stages, start, from + 1,
                      if Matches(events[from], stages[|ix|]) then ix + [from] else ix);
    }
  }

  ghost predicate NoLater(ix: seq<nat>, jx: seq<nat>) {
    |ix| <= |jx| && forall p | 0 <= p < |ix| :: ix[p] <= jx[p]
  }

  /** No embedding picks any stage earlier than the pass does. */
  lemma {:induction false} ScanIsEarliest(
    events: seq<Event>, stages: seq<Stage>, start: nat, from: nat, ix: seq<nat>, jx: seq<nat>)
    requires from <= |events| && Embedding(events, stages, start, jx)
    requires |ix| <= |stages| && NoLater(ix, jx)
    requires |ix| < |stages| ==> from <= jx[|ix|]
    ensures Scan(events, stages, from, ix).Some?
    ensures |Scan(events, stages, from, ix).value| == |stages|
    ensures NoLater(Scan(events, stages, from, ix).value, jx)
    decreases |events| - from
  {
    if |ix| < |stages| {
      ScanIsEarliest(events, stages, start, from + 1,
                     if Matches(events[from], stages[|ix|]) then ix + [from] else ix, jx);
    }
  }

  function LastOf(stages: seq<Stage>, ix: seq<nat>): nat
    requires |ix| == |stages| > 0
  {
    ix[|stages| - 1]
  }

  /** All passes, each starting after the last position of the one before. */
  function Greedy(events: seq<Event>, stages: seq<Stage>, from: nat): seq<seq<nat>>
    requires from <= |events| && stages != []
    decreases |events| - from
  {
    match Scan(events, stages, from, [])
    case None => []
    case Some(ix) =>
      ScanIsEmbedding(events, stages, from, from, []);
      [ix] + Greedy(events, stages, LastOf(stages, ix) + 1)
  }

  lemma {:induction false} GreedyIsPacking(events: seq<Event>, stages: seq<Stage>, from: nat)
    requires from <= |events| && stages != []
    ensures Packing(events, stages, from, Greedy(events, stages, from))
    decreases |events| - from
  {
    ScanIsEmbedding(events, stages, from, from, []);
    match Scan(events, stages, from, [])
    case None =>
    case Some(ix) => GreedyIsPacking(events, stages, LastOf(stages, ix) + 1);
  }

  /** Greedy is optimal: no packing has more matches, and none ends its k-th match earlier. */
  lemma {:induction false} GreedyIsLargest(
    events: seq<Event>, stages: seq<Stage>, from: nat, from': nat, ms: seq<seq<nat>>)
    requires from <= from' && from <= |events| && stages != []
    requires Packing(events, stages, from', ms)
    ensures var gs := Greedy(events, stages, from);
      |ms| <= |gs|
      && forall k | 0 <= k < |ms| :: |gs[k]| == |ms[k]| == |stages| && LastOf(stages, gs[k]) <= LastOf(stages, ms[k])
    decreases |ms|
  {
    if ms != [] {
      assert Embedding(events, stages, from, ms[0]);
      ScanIsEarliest(events, stages, from, from, [], ms[0]);
      ScanIsEmbedding(events, stages, from, from, []);
      var ix := Scan(events, stages, from, []).value;
      GreedyIsLargest(events, stages, LastOf(stages, ix) + 1, LastOf(stages, ms[0]) + 1, ms[1..]);
      var gs := Greedy(events, stages, from);
      assert gs[1..] == Greedy(events, stages, LastOf(stages, ix) + 1);
      forall k | 0 <= k < |ms|
        ensures |gs[k]| == |ms[k]| == |stages| && LastOf(stages, gs[k]) <= LastOf(stages, ms[k])
      {
        if k > 0 { assert gs[k] == gs[1..][k - 1] && ms[k] == ms[1..][k - 1]; }
      }
    }
  }

  // ---------------------------------------------------------------- the matcher

  ghost predicate Fits(events: seq<Event>, ix: seq<nat>) { forall p | 0 <= p < |ix| :: ix[p] < |events| }

  ghost predicate AllFit(events: seq<Event>, gs: seq<seq<nat>>) { forall g | g in gs :: Fits(events, g) }

  function At(events: seq<Event>, ix: seq<nat>): (r: seq<Event>)
    requires Fits(events, ix)
    ensures |r| == |ix| && forall p | 0 <= p < |ix| :: r[p] == events[ix[p]]
  {
    seq(|ix|, p requires 0 <= p < |ix| => events[ix[p]])
  }

  lemma AtGrows(events: seq<Event>, ix: seq<nat>, i: nat)
    requires i < |events| && Fits(events, ix)
    ensures At(events, ix + [i]) == At(events, ix) + [events[i]]
  {
  }

  function Picks(events: seq<Event>, gs: seq<seq<nat>>): (r: seq<seq<Event>>)
    requires AllFit(events, gs)
    ensures |r| == |gs|
  {
    if gs == [] then [] else [At(events, gs[0])] + Picks(events, gs[1..])
  }

  function KeepWindow(ms: seq<seq<Event>>, within: Option<real>): seq<seq<Event>> {
    if ms == [] then []
    else (if WithinWindow(ms[0], within) then [ms[0]] else []) + KeepWindow(ms[1..], within)
  }

  lemma {:induction false} GreedyFits(events: seq<Event>, stages: seq<Stage>, from: nat)
    requires from <= |events| && stages != []
    ensures AllFit(events, Greedy(events, stages, from))
    decreases |events| - from
  {
    ScanIsEmbedding(events, stages, from, from, []);
    match Scan(events, stages, from, [])
    case None =>
    case Some(ix) => GreedyFits(events, stages, LastOf(stages, ix) + 1);
  }

  /** The specification: the greedy matches, filtered by the window. */
  function OrderedMatches(events: seq<Event>, stages: seq<Stage>, within: Option<real>, from: nat): seq<seq<Event>>
    requires from <= |events| && stages != []
  {
    GreedyFits(events, stages, from);
    KeepWindow(Picks(events, Greedy(events, stages, from)), within)
  }

  lemma NextMatch(events: seq<Event>, stages: seq<Stage>, within: Option<real>, from: nat, ix: seq<nat>)
    requires from <= |events| && stages != []
    requires Scan(events, stages, from, []) == Some(ix) && Embedding(events, stages, from, ix)
    ensures OrderedMatches(events, stages, within, from)
         == (if WithinWindow(At(events, ix), within) then [At(events, ix)] else [])
            + OrderedMatches(events, stages, within, LastOf(stages, ix) + 1)
  {
  }

  lemma NoMatch(events: seq<Event>, stages: seq<Stage>, within: Option<real>, from: nat)
    requires from <= |events| && stages != [] && Scan(events, stages, from, []) == None
    ensures OrderedMatches(events, stages, within, from) == []
  {
  }

  // The matches found so far, and those still to come from a position.
  ghost predicate Progress(
    events: seq<Event>, stages: seq<Stage>, within: Option<real>, start: nat, matches: seq<seq<Event>>)
    requires start <= |events| && stages != []
  {
    OrderedMatches(events, stages, within, 0) == matches + OrderedMatches(events, stages, within, start)
  }

  lemma ProgressStep(
    events: seq<Event>, stages: seq<Stage>, within: Option<real>, start: nat, matches: seq<seq<Event>>,
    ix: seq<nat>, m: seq<Event>)
    requires start <= |events| && stages != [] && Progress(events, stages, within, start, matches)
    requires Scan(events, stages, start, []) == Some(ix) && Embedding(events, stages, start, ix) && m == At(events, ix)
    ensures Progress(events, stages, within, LastOf(stages, ix) + 1,
                     if WithinWindow(m, within) then matches + [m] else matches)
  {
  }

  lemma ProgressEnds(
    events: seq<Event>, stages: seq<Stage>, within: Option<real>, start: nat, matches: seq<seq<Event>>)
    requires start <= |events| && stages != [] && Progress(events, stages, within, start, matches)
    requires Scan(events, stages, start, []) == None
    ensures OrderedMatches(events, stages, within, 0) == matches
  {
    NoMatch(events, stages, within, start);
  }

  lemma PassFound(events: seq<Event>, stages: seq<Stage>, start: nat, index: nat, ix: seq<nat>)
    requires stages != [] && |ix| == |stages| && start <= index < |events|
    requires Partial(events, stages, start, index + 1, ix) && ix[|ix| - 1] == index
    ensures Embedding(events, stages, start, ix) && LastOf(stages, ix) == index
  {
  }

  /** The inner loop: one greedy pass from a start position. */
  method MatchOnce(events: seq<Event>, stages: seq<Stage>, start: nat)
    returns (matched: seq<Event>, last: Option<nat>, ghost ix: seq<nat>)
    requires stages != [] && start <= |events|
    ensures last.Some? <==> Scan(events, stages, start, []).Some?
    ensures last.Some? ==>
      && Scan(events, stages, start, []) == Some(ix)
      && Embedding(events, stages, start, ix)
      && start <= last.value == LastOf(stages, ix) < |events|
      && matched == At(events, ix)
  {
    matched := [];
    ix := [];
    for index := start to |events|
      invariant |matched| == |ix| < |stages|
      invariant Partial(events, stages, start, index, ix)
      invariant matched == At(events, ix)
      invariant Scan(events, stages, start, []) == Scan(events, stages, index, ix)
    {
      PartialGrows(events, stages, start, index, ix);
      if Matches(events[index], stages[|matched|]) {
        AtGrows(events, ix, index);
        matched := matched + [events[index]];
        ix := ix + [index];
        if |matched| == |stages| {
          PassFound(events, stages, start, index, ix);
          last := Some(index);
          return;
        }
      }
    }
    last := None;
  }

  /** The matcher's loops compute exactly the windowed greedy matches. */
  method MatchOrdered(events: seq<Event>, stages: seq<Stage>, within: Option<real>) returns (matches: seq<seq<Event>>)
    requires stages != []
    ensures matches == OrderedMatches(events, stages, within, 0)
  {
    matches := [];
    var start := 0;
    assert Progress(events, stages, within, 0, []);
    while start < |events|
      invariant start <= |events|
      invariant Progress(events, stages, within, start, matches)
    {
      var matched, last, ix := MatchOnce(events, stages, start);
      if last.None? { break; }
      ProgressStep(events, stages, within, start, matches, ix, matched);
      if WithinWindow(matched, within) { matches := matches + [matched]; }
      start := last.value + 1;
    }
    ProgressEnds(events, stages, within, start, matches);
  }

  /** Without a window the matcher reports the largest possible number of matches. */
  lemma UnwindowedIsLargest(events: seq<Event>, stages: seq<Stage>, ms: seq<seq<nat>>)
    requires stages != [] && Packing(events, stages, 0, ms)
    ensures |ms| <= |OrderedMatches(events, stages, None, 0)| == |Greedy(events, stages, 0)|
    ensures Packing(events, stages, 0, Greedy(events, stages, 0))
  {
    GreedyIsLargest(events, stages, 0, 0, ms);
    GreedyIsPacking(events, stages, 0);
    GreedyFits(events, stages, 0);
    NoWindowKeepsAll(Picks(events, Greedy(events, stages, 0)));
  }

  lemma {:induction false} NoWindowKeepsAll(ms: seq<seq<Event>>)
    ensures KeepWindow(ms, None) == ms
  {
    if ms != [] { NoWindowKeepsAll(ms[1..]); }
  }

  const EXAMPLE_EVENTS: seq<Event> :=
    [ Event("evt_1", 0.0, 0, "a", Null), Event("evt_2", 100.0, 1, "a", Null), Event("evt_3", 101.0, 2, "b", Null) ]

  const EXAMPLE_STAGES: seq<Stage> :=
    [ Stage("a", (e: Event) => true), Stage("b", (e: Event) => true) ]

  lemma ExamplePasses()
    ensures Scan(EXAMPLE_EVENTS, EXAMPLE_STAGES, 0, []) == Some([0, 2])
    ensures Scan(EXAMPLE_EVENTS, EXAMPLE_STAGES, 3, []) == None
    ensures Embedding(EXAMPLE_EVENTS, EXAMPLE_STAGES, 0, [0, 2])
    ensures Embedding(EXAMPLE_EVENTS, EXAMPLE_STAGES, 0, [1, 2])
  {
    var es, ss := EXAMPLE_EVENTS, EXAMPLE_STAGES;
    assert "a"[0] != "b"[0];
    assert [0] + [2] == [0, 2] && [] + [0] == [0];
    assert Scan(es, ss, 3, [0, 2]) == Some([0, 2]);
    assert Scan(es, ss, 2, [0]) == Some([0, 2]);
    assert Scan(es, ss, 1, [0]) == Some([0, 2]);
  }

  /** With a window the matcher is not complete: it skips past an overlong match, and with it
      the in-window match inside. */
  lemma WindowedMatcherIsIncomplete()
    ensures Embedding(EXAMPLE_EVENTS, EXAMPLE_STAGES, 0, [1, 2])
      && WithinWindow(At(EXAMPLE_EVENTS, [1, 2]), Some(10.0))
    ensures OrderedMatches(EXAMPLE_EVENTS, EXAMPLE_STAGES, Some(10.0), 0) == []
  {
    var es := EXAMPLE_EVENTS;
    ExamplePasses();
    assert At(es, [1, 2]) == [es[1], es[2]] && At(es, [0, 2]) == [es[0], es[2]];
    WindowOfTwo(es[1], es[2], 10.0);
    WindowOfTwo(es[0], es[2], 10.0);
    NextMatch(es, EXAMPLE_STAGES, Some(10.0), 0, [0, 2]);
    NoMatch(es, EXAMPLE_STAGES, Some(10.0), 3);
  }
}
