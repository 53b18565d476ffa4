/** Unordered matching: each stage in turn removes the first remaining event that fits. */
module UnorderedMatching {
  import opened JsonValues
  import opened Detection

  // The first event that fits a stage.
  function FirstFit(events: seq<Event>, stage: Stage): (r: Option<nat>)
    ensures r.Some? ==> r.value < |events| && Matches(events[r.value], stage)
    ensures r.None? ==> forall e | e in events :: !Matches(e, stage)
  {
    if events == [] then None
    else if Matches(events[0], stage) then Some(0)
    else match FirstFit(events[1..], stage) case None => None case Some(i) => Some(i + 1)
  }

  function RemoveAt(events: seq<Event>, i: nat): seq<Event>
    requires i < |events|
  {
    events[..i] + events[i + 1..]
  }

  lemma RemoveAtTakesOne(events: seq<Event>, i: nat)
    requires i < |events|
    ensures multiset(RemoveAt(events, i)) == multiset(events) - multiset{events[i]}
  {
    assert events == events[..i] + [events[i]] + events[i + 1..];
  }

  function Pick(events: seq<Event>, stages: seq<Stage>): Option<seq<Event>>
    decreases |stages|
  {
    if stages == [] then Some([])
    else match FirstFit(events, stages[0])
      case None => None
      case Some(i) =>
        match Pick(RemoveAt(events, i), stages[1..])
        case None => None
        case Some(rest) => Some([events[i]] + rest)
  }

  function UnorderedMatches(events: seq<Event>, stages: seq<Stage>, within: Option<real>): seq<seq<Event>> {
    match Pick(events, stages)
    case None => []
    case Some(picks) => if WithinWindow(picks, within) then [picks] else []
  }

  // What the loop still has to do: the picks so far, then a pick from what remains.
  ghost predicate PickState(
    events: seq<Event>, stages: seq<Stage>, k: nat, matched: seq<Event>, remaining: seq<Event>)
    requires k <= |stages|
  {
    Pick(events, stages)
    == match Pick(remaining, stages[k..]) case None => None case Some(rest) => Some(matched + rest)
  }

  lemma PickStateStep(
    events: seq<Event>, stages: seq<Stage>, k: nat, matched: seq<Event>, remaining: seq<Event>, i: nat)
    requires k < |stages| && PickState(events, stages, k, matched, remaining)
    requires FirstFit(remaining, stages[k]) == Some(i)
    ensures PickState(events, stages, k + 1, matched + [remaining[i]], RemoveAt(remaining, i))
  {
    assert stages[k..][1..] == stages[k + 1..];
    var r := Pick(RemoveAt(remaining, i), stages[k + 1..]);
    if r.Some? { assert matched + ([remaining[i]] + r.value) == (matched + [remaining[i]]) + r.value; }
  }

  method FindFirstFit(events: seq<Event>, stage: Stage) returns (fit: Option<nat>)
    ensures fit == FirstFit(events, stage)
  {
    assert events[0..] == events;
    for i := 0 to |events|
      invariant FirstFit(events, stage)
        == match FirstFit(events[i..], stage) case None => None case Some(k) => Some(i + k)
    {
      if Matches(events[i], stage) { return Some(i); }
      assert events[i..][1..] == events[i + 1..];
    }
    return None;
  }

  /** The matcher's loops compute exactly the picks of the specification. */
  method MatchUnordered(events: seq<Event>, stages: seq<Stage>, within: Option<real>) returns (matches: seq<seq<Event>>)
    ensures matches == UnorderedMatches(events, stages, within)
  {
    var matched: seq<Event> := [];
    var remaining := events;
    if Pick(events, stages).Some? { assert [] + Pick(events, stages).value == Pick(events, stages).value; }
    assert stages[0..] == stages;
    for k := 0 to |stages|
      invariant PickState(events, stages, k, matched, remaining)
    {
      var fit := FindFirstFit(remaining, stages[k]);
      if fit.None? { return []; }
      PickStateStep(events, stages, k, matched, remaining, fit.value);
      matched := matched + [remaining[fit.value]];
      remaining := RemoveAt(remaining, fit.value);
    }
    assert matched + [] == matched;
    if !WithinWindow(matched, within) { return []; }
    return [matched];
  }

  // ---------------------------------------------------------------- assignments

  /** A one-to-one assignment: each stage gets an event that fits, no occurrence is used twice. */
  ghost predicate Assignment(events: seq<Event>, stages: seq<Stage>, picks: seq<Event>) {
    && |picks| == |stages|
    && multiset(picks) <= multiset(events)
    && forall k | 0 <= k < |stages| :: Matches(picks[k], stages[k])
  }

  lemma ConsMultiset(x: Event, rest: seq<Event>)
    ensures multiset([x] + rest) == multiset{x} + multiset(rest)
  {
  }

  /** Whenever the matcher succeeds, what it returns is an assignment. */
  lemma {:induction false} PickIsAssignment(events: seq<Event>, stages: seq<Stage>)
    ensures Pick(events, stages).Some? ==> Assignment(events, stages, Pick(events, stages).value)
    decreases |stages|
  {
    if stages != [] && FirstFit(events, stages[0]).Some? {
      var i := FirstFit(events, stages[0]).value;
      PickIsAssignment(RemoveAt(events, i), stages[1..]);
      RemoveAtTakesOne(events, i);
      if Pick(events, stages).Some? { ConsMultiset(events[i], Pick(RemoveAt(events, i), stages[1..]).value); }
    }
  }

  /** An earlier stage that shares a candidate with a later one has no candidate of its own. */
  ghost predicate Nested(events: seq<Event>, stages: seq<Stage>) {
    forall i, j | 0 <= i < j < |stages| :: NestedPair(events, stages[i], stages[j])
  }

  ghost predicate NestedPair(events: seq<Event>, first: Stage, later: Stage) {
    (exists e | e in events :: Matches(e, first) && Matches(e, later))
    ==> forall e | e in events && Matches(e, first) :: Matches(e, later)
  }

  lemma NestedShrinks(events: seq<Event>, stages: seq<Stage>, fewer: seq<Event>)
    requires stages != [] && Nested(events, stages) && forall e | e in fewer :: e in events
    ensures Nested(fewer, stages[1..])
  {
  }

  lemma Swap(s: seq<Event>, j: nat, x: Event)
    requires j < |s|
    ensures multiset(s[j := x]) == multiset(s) - multiset{s[j]} + multiset{x}
  {
  }

  lemma ExchangeCounts(all: multiset<Event>, given: Event, taken: Event, rest: multiset<Event>)
    requires multiset{given} + rest <= all && taken in all
    ensures taken in rest ==> rest - multiset{taken} + multiset{given} <= all - multiset{taken}
    ensures taken !in rest ==> rest <= all - multiset{taken}
  {
  }

  lemma SwapIn(fewer: seq<Event>, stages: seq<Stage>, rest: seq<Event>, j: nat, given: Event)
    requires |rest| == |stages| && j < |rest| && Matches(given, stages[j])
    requires forall k | 0 <= k < |stages| :: Matches(rest[k], stages[k])
    requires multiset(rest) - multiset{rest[j]} + multiset{given} <= multiset(fewer)
    ensures Assignment(fewer, stages, rest[j := given])
  {
    Swap(rest, j, given);
  }

  lemma FirstPick(events: seq<Event>, stages: seq<Stage>, picks: seq<Event>)
    requires stages != [] && Assignment(events, stages, picks)
    ensures picks[0] in events && Matches(picks[0], stages[0])
    ensures multiset{picks[0]} + multiset(picks[1..]) <= multiset(events)
    ensures forall k | 0 <= k < |picks[1..]| :: Matches(picks[1..][k], stages[1..][k])
  {
    assert picks == [picks[0]] + picks[1..];
    ConsMultiset(picks[0], picks[1..]);
    assert picks[0] in multiset(picks);
  }

  lemma NestedStageTakes(events: seq<Event>, stages: seq<Stage>, given: Event, taken: Event, j: nat)
    requires Nested(events, stages) && 0 < j < |stages| && given in events && taken in events
    requires Matches(given, stages[0]) && Matches(taken, stages[0]) && Matches(taken, stages[j])
    ensures Matches(given, stages[j])
  {
    assert NestedPair(events, stages[0], stages[j]);
  }

  // The first stage can give up its event for the one the matcher takes.
  lemma Exchange(events: seq<Event>, stages: seq<Stage>, picks: seq<Event>, i: nat) returns (rest: seq<Event>)
    requires stages != [] && Nested(events, stages) && Assignment(events, stages, picks)
    requires i < |events| && Matches(events[i], stages[0])
    ensures Assignment(RemoveAt(events, i), stages[1..], rest)
  {
    var given, taken, others := picks[0], events[i], picks[1..];
    FirstPick(events, stages, picks);
    RemoveAtTakesOne(events, i);
    ExchangeCounts(multiset(events), given, taken, multiset(others));
    rest := others;
    if taken in others {
      var j :| 0 <= j < |others| && others[j] == taken;
      assert Matches(others[j], stages[1..][j]);
      NestedStageTakes(events, stages, given, taken, j + 1);
      SwapIn(RemoveAt(events, i), stages[1..], others, j, given);
      rest := others[j := given];
    }
  }

  lemma {:induction false} NestedPickIsComplete(events: seq<Event>, stages: seq<Stage>, picks: seq<Event>)
    requires Nested(events, stages) && Assignment(events, stages, picks)
    ensures Pick(events, stages).Some?
    decreases |stages|
  {
    if stages != [] {
      assert picks[0] in multiset(picks);
      assert picks[0] in events;
      var i := FirstFit(events, stages[0]).value;
      var rest := Exchange(events, stages, picks, i);
      NestedShrinks(events, stages, RemoveAt(events, i));
      NestedPickIsComplete(RemoveAt(events, i), stages[1..], rest);
    }
  }

  /** With nested candidate sets and no window, the matcher reports a match exactly when
      some one-to-one assignment exists. */
  lemma UnorderedIsComplete(events: seq<Event>, stages: seq<Stage>)
    requires Nested(events, stages)
    ensures UnorderedMatches(events, stages, None) != [] <==> exists picks :: Assignment(events, stages, picks)
  {
    PickIsAssignment(events, stages);
    if picks :| Assignment(events, stages, picks) { NestedPickIsComplete(events, stages, picks); }
  }

  /** Equal or disjoint candidate sets are nested. */
  lemma EqualOrDisjointIsNested(events: seq<Event>, stages: seq<Stage>)
    requires forall i, j | 0 <= i < j < |stages| ::
      (forall e | e in events :: Matches(e, stages[i]) <==> Matches(e, stages[j]))
      || (forall e | e in events :: !(Matches(e, stages[i]) && Matches(e, stages[j])))
    ensures Nested(events, stages)
  {
  }

  // ---------------------------------------------------------------- exactly which rules are complete

  ghost predicate CompleteOn(events: seq<Event>, stages: seq<Stage>) {
    (exists picks :: Assignment(events, stages, picks)) ==> UnorderedMatches(events, stages, None) != []
  }

  ghost predicate Satisfiable(stage: Stage) { exists e :: Matches(e, stage) }

  /** If some event fits both stages, every event of the first fits the later one too. */
  ghost predicate NestedEverywhere(first: Stage, later: Stage) {
    (exists e :: Matches(e, first) && Matches(e, later))
    ==> forall e | Matches(e, first) :: Matches(e, later)
  }

  ghost predicate PairwiseNested(stages: seq<Stage>) {
    forall i, j | 0 <= i < j < |stages| :: NestedEverywhere(stages[i], stages[j])
  }

  // The two events fit the same stages.
  ghost predicate Alike(stages: seq<Stage>, e: Event, f: Event) {
    forall k | 0 <= k < |stages| :: Matches(e, stages[k]) <==> Matches(f, stages[k])
  }

  ghost predicate FitEach(events: seq<Event>, stages: seq<Stage>, from: nat) {
    from + |events| <= |stages| && forall k | 0 <= k < |events| :: Matches(events[k], stages[from + k])
  }

  // How many events fit the same stages as o.
  ghost function CountAlike(stages: seq<Stage>, events: seq<Event>, o: Event): nat {
    if events == [] then 0
    else (if Alike(stages, events[0], o) then 1 else 0) + CountAlike(stages, events[1..], o)
  }

  lemma {:induction false} CountOfRemoved(stages: seq<Stage>, events: seq<Event>, o: Event, i: nat)
    requires i < |events|
    ensures CountAlike(stages, events, o)
         == CountAlike(stages, RemoveAt(events, i), o) + if Alike(stages, events[i], o) then 1 else 0
  {
    if i == 0 {
      assert RemoveAt(events, 0) == events[1..];
    } else {
      CountOfRemoved(stages, events[1..], o, i - 1);
      assert RemoveAt(events, i)[1..] == RemoveAt(events[1..], i - 1);
    }
  }

  lemma {:induction false} CountOfPermutation(stages: seq<Stage>, s: seq<Event>, t: seq<Event>, o: Event)
    requires multiset(s) == multiset(t)
    ensures CountAlike(stages, s, o) == CountAlike(stages, t, o)
  {
    if s == [] {
      assert |multiset(t)| == |t| == 0;
    } else {
      assert s[0] in multiset(t);
      var i :| 0 <= i < |t| && t[i] == s[0];
      RemoveAtTakesOne(t, i);
      assert s == [s[0]] + s[1..];
      CountOfPermutation(stages, s[1..], RemoveAt(t, i), o);
      CountOfRemoved(stages, t, o, i);
    }
  }

  // Fewer events are alike when they are at fewer places.
  lemma {:induction false} FewerAlike(stages: seq<Stage>, s: seq<Event>, t: seq<Event>, o: Event)
    requires |s| == |t| && forall k | 0 <= k < |s| :: Alike(stages, s[k], o) ==> Alike(stages, t[k], o)
    ensures CountAlike(stages, s, o) <= CountAlike(stages, t, o)
    ensures (exists k | 0 <= k < |s| :: !Alike(stages, s[k], o) && Alike(stages, t[k], o)) ==>
      CountAlike(stages, s, o) < CountAlike(stages, t, o)
  {
    if s != [] {
      FewerAlike(stages, s[1..], t[1..], o);
      if k :| 0 < k < |s| && !Alike(stages, s[k], o) && Alike(stages, t[k], o) {
        assert !Alike(stages, s[1..][k - 1], o) && Alike(stages, t[1..][k - 1], o);
      }
    }
  }

  function Prepend(a: seq<Event>, r: Option<seq<Event>>): Option<seq<Event>> {
    match r case None => None case Some(rest) => Some(a + rest)
  }

  lemma HeadIsPicked(events: seq<Event>, stages: seq<Stage>)
    requires events != [] && stages != [] && Matches(events[0], stages[0])
    ensures Pick(events, stages) == Prepend([events[0]], Pick(events[1..], stages[1..]))
  {
    assert FirstFit(events, stages[0]) == Some(0);
    assert RemoveAt(events, 0) == events[1..];
  }

  lemma PrependTwice(e: Event, a: seq<Event>, r: Option<seq<Event>>)
    ensures Prepend([e], Prepend(a, r)) == Prepend([e] + a, r)
  {
    if r.Some? { assert [e] + (a + r.value) == ([e] + a) + r.value; }
  }

  lemma {:induction false} PickAfterHead(events: seq<Event>, a: seq<Event>, stages: seq<Stage>, r: Option<seq<Event>>)
    requires events != [] && a != [] && events[0] == a[0]
    requires stages != [] && Matches(events[0], stages[0])
    requires Pick(events[1..], stages[1..]) == Prepend(a[1..], r)
    ensures Pick(events, stages) == Prepend(a, r)
  {
    HeadIsPicked(events, stages);
    PrependTwice(a[0], a[1..], r);
    assert [a[0]] + a[1..] == a;
  }

  lemma PickAfterNothing(rest: seq<Event>, stages: seq<Stage>)
    ensures Pick([] + rest, stages) == Prepend([], Pick(rest, stages[0..]))
  {
    assert [] + rest == rest && stages[0..] == stages;
    if Pick(rest, stages).Some? { assert [] + Pick(rest, stages).value == Pick(rest, stages).value; }
  }

  lemma FitEachTail(a: seq<Event>, stages: seq<Stage>)
    requires a != [] && FitEach(a, stages, 0)
    ensures Matches(a[0], stages[0]) && FitEach(a[1..], stages[1..], 0)
  {
    assert Matches(a[0], stages[0 + 0]);
    forall k | 0 <= k < |a[1..]| ensures Matches(a[1..][k], stages[1..][0 + k]) {
      assert Matches(a[k + 1], stages[0 + (k + 1)]);
    }
  }

  // Events that fit the first stages in order are picked in order.
  lemma {:induction false} PrefixIsPicked(a: seq<Event>, rest: seq<Event>, stages: seq<Stage>)
    requires FitEach(a, stages, 0)
    ensures Pick(a + rest, stages) == Prepend(a, Pick(rest, stages[|a|..]))
  {
    if a == [] {
      PickAfterNothing(rest, stages);
    } else {
      FitEachTail(a, stages);
      PrefixIsPicked(a[1..], rest, stages[1..]);
      assert stages[1..][|a[1..]|..] == stages[|a|..];
      assert (a + rest)[1..] == a[1..] + rest;
      PickAfterHead(a + rest, a, stages, Pick(rest, stages[|a|..]));
    }
  }

  // x fits stages i and j, o fits stage i but not j; a, b and c fit the other stages, with events like
  // o wherever o fits. The matcher gives x to stage i, and then has one o too many.
  datatype Trap = Trap(a: seq<Event>, x: Event, b: seq<Event>, c: seq<Event>, o: Event) {
    function Events(): seq<Event> { a + [x] + b + c + [o] }
    function Picks(): seq<Event> { a + [o] + b + [x] + c }
  }

  ghost predicate Springs(t: Trap, stages: seq<Stage>, i: nat, j: nat) {
    && i < j < |stages| && |t.a| == i && |t.b| == j - i - 1 && |t.c| == |stages| - j - 1
    && FitEach(t.a, stages, 0) && FitEach(t.b, stages, i + 1) && FitEach(t.c, stages, j + 1)
    && Matches(t.x, stages[i]) && Matches(t.x, stages[j])
    && Matches(t.o, stages[i]) && !Matches(t.o, stages[j])
    && forall k | 0 <= k < |stages| && k != j && Matches(t.o, stages[k]) :: Alike(stages, t.Picks()[k], t.o)
  }

  lemma TrapIsPermuted(t: Trap)
    ensures multiset(t.Events()) == multiset(t.Picks())
  {
    assert multiset(t.Events()) == multiset(t.a) + multiset{t.x} + multiset(t.b) + multiset(t.c) + multiset{t.o};
    assert multiset(t.Picks()) == multiset(t.a) + multiset{t.o} + multiset(t.b) + multiset{t.x} + multiset(t.c);
  }

  lemma TrapPickFits(t: Trap, stages: seq<Stage>, i: nat, j: nat, k: nat)
    requires Springs(t, stages, i, j) && k < |stages|
    ensures |t.Picks()| == |stages| && Matches(t.Picks()[k], stages[k])
  {
    if k < i {
      assert t.Picks()[k] == t.a[k] && Matches(t.a[k], stages[0 + k]);
    } else if i < k < j {
      assert t.Picks()[k] == t.b[k - i - 1] && Matches(t.b[k - i - 1], stages[i + 1 + (k - i - 1)]);
    } else if j < k {
      assert t.Picks()[k] == t.c[k - j - 1] && Matches(t.c[k - j - 1], stages[j + 1 + (k - j - 1)]);
    }
  }

  lemma {:induction false} TrapHasAssignment(t: Trap, stages: seq<Stage>, i: nat, j: nat)
    requires Springs(t, stages, i, j)
    ensures Assignment(t.Events(), stages, t.Picks())
  {
    TrapIsPermuted(t);
    forall k | 0 <= k < |stages| ensures Matches(t.Picks()[k], stages[k]) { TrapPickFits(t, stages, i, j, k); }
  }

  lemma AllOfMultiset(s: seq<Event>, t: seq<Event>)
    requires multiset(s) <= multiset(t) && |s| == |t|
    ensures multiset(s) == multiset(t)
  {
    var rest := multiset(t) - multiset(s);
    assert multiset(t) == multiset(s) + rest;
    assert |multiset(t)| == |t| && |multiset(s)| == |s| && |rest| == 0;
  }

  // Every assignment of a trap's events leaves x to stage j, where o does not fit.
  lemma NotForStageI(t: Trap, stages: seq<Stage>, i: nat, j: nat, found: seq<Event>)
    requires Springs(t, stages, i, j) && Assignment(t.Events(), stages, found)
    ensures found[i] != t.x
  {
    var picks := t.Picks();
    TrapIsPermuted(t);
    AllOfMultiset(found, t.Events());
    CountOfPermutation(stages, found, picks, t.o);
    forall k | 0 <= k < |stages| && Alike(stages, found[k], t.o) ensures Alike(stages, picks[k], t.o) {
      assert Matches(found[k], stages[k]);
    }
    assert picks[i] == t.o && Alike(stages, picks[i], t.o) && !Alike(stages, t.x, t.o);
    FewerAlike(stages, found, picks, t.o);
  }

  lemma TrapHead(t: Trap, stages: seq<Stage>, i: nat, j: nat)
    requires Springs(t, stages, i, j) && Pick(t.Events(), stages).Some?
    ensures |Pick(t.Events(), stages).value| > i && Pick(t.Events(), stages).value[i] == t.x
  {
    var head, rest := t.a + [t.x], t.b + t.c + [t.o];
    forall k | 0 <= k < |head| ensures Matches(head[k], stages[0 + k]) {
      if k < i { assert head[k] == t.a[k] && Matches(t.a[k], stages[0 + k]); }
    }
    assert t.Events() == head + rest;
    PrefixIsPicked(head, rest, stages);
  }

  /** A trap holds an assignment, and the matcher finds none. */
  lemma TrapIsSprung(t: Trap, stages: seq<Stage>, i: nat, j: nat)
    requires Springs(t, stages, i, j)
    ensures Assignment(t.Events(), stages, t.Picks()) && UnorderedMatches(t.Events(), stages, None) == []
  {
    TrapHasAssignment(t, stages, i, j);
    PickIsAssignment(t.Events(), stages);
    if Pick(t.Events(), stages).Some? {
      NotForStageI(t, stages, i, j, Pick(t.Events(), stages).value);
      TrapHead(t, stages, i, j);
    }
  }

  // One witness for each stage, o wherever it fits.
  ghost predicate Witnesses(stages: seq<Stage>, ws: seq<Event>, o: Event) {
    && |ws| == |stages|
    && forall k | 0 <= k < |stages| :: Matches(ws[k], stages[k]) && (Matches(o, stages[k]) ==> ws[k] == o)
  }

  lemma {:induction false} WitnessesExist(stages: seq<Stage>, o: Event) returns (ws: seq<Event>)
    requires forall k | 0 <= k < |stages| :: Satisfiable(stages[k])
    ensures Witnesses(stages, ws, o)
  {
    if stages == [] {
      ws := [];
    } else {
      forall k | 0 <= k < |stages[1..]| ensures Satisfiable(stages[1..][k]) { assert Satisfiable(stages[k + 1]); }
      var rest := WitnessesExist(stages[1..], o);
      assert Satisfiable(stages[0]);
      var w :| Matches(w, stages[0]) && (Matches(o, stages[0]) ==> w == o);
      ws := [w] + rest;
      forall k | 0 <= k < |stages| ensures Matches(ws[k], stages[k]) && (Matches(o, stages[k]) ==> ws[k] == o) {
        if k > 0 { assert Matches(rest[k - 1], stages[1..][k - 1]); }
      }
    }
  }

  function TrapOf(ws: seq<Event>, i: nat, j: nat, x: Event, o: Event): Trap
    requires i < j < |ws|
  {
    Trap(ws[..i], x, ws[i + 1..j], ws[j + 1..], o)
  }

  lemma TrapOfWitnesses(stages: seq<Stage>, ws: seq<Event>, i: nat, j: nat, x: Event, o: Event)
    requires Witnesses(stages, ws, o) && i < j < |stages|
    requires Matches(x, stages[i]) && Matches(x, stages[j]) && Matches(o, stages[i]) && !Matches(o, stages[j])
    ensures Springs(TrapOf(ws, i, j, x, o), stages, i, j)
  {
    var t := TrapOf(ws, i, j, x, o);
    forall k | 0 <= k < |stages| && k != j && Matches(o, stages[k]) ensures Alike(stages, t.Picks()[k], o) {
      assert t.Picks()[k] == if k == i then o else ws[k];
    }
  }

  /** An unordered rule is complete on every event list exactly when some stage fits no event at all,
      or its stages are pairwise nested. */
  lemma CompleteRulesAre(stages: seq<Stage>)
    ensures (forall events :: CompleteOn(events, stages)) <==>
      (PairwiseNested(stages) || exists k | 0 <= k < |stages| :: !Satisfiable(stages[k]))
  {
    if PairwiseNested(stages) {
      forall events ensures CompleteOn(events, stages) { NestedRuleIsComplete(events, stages); }
    } else if k :| 0 <= k < |stages| && !Satisfiable(stages[k]) {
      forall events ensures CompleteOn(events, stages) { UnsatisfiableRuleIsComplete(events, stages, k); }
    } else {
      var i, j, x, o := OverlapOf(stages);
      var ws := WitnessesExist(stages, o);
      TrapOfWitnesses(stages, ws, i, j, x, o);
      var t := TrapOf(ws, i, j, x, o);
      TrapIsSprung(t, stages, i, j);
      assert !CompleteOn(t.Events(), stages);
    }
  }

  // Two stages that are not nested: an event of both, and one of the first alone.
  lemma OverlapOf(stages: seq<Stage>) returns (i: nat, j: nat, x: Event, o: Event)
    requires !PairwiseNested(stages)
    ensures i < j < |stages|
    ensures Matches(x, stages[i]) && Matches(x, stages[j]) && Matches(o, stages[i]) && !Matches(o, stages[j])
  {
    i, j :| 0 <= i < j < |stages| && !NestedEverywhere(stages[i], stages[j]);
    x :| Matches(x, stages[i]) && Matches(x, stages[j]);
    o :| Matches(o, stages[i]) && !Matches(o, stages[j]);
  }

  lemma UnsatisfiableRuleIsComplete(events: seq<Event>, stages: seq<Stage>, k: nat)
    requires k < |stages| && !Satisfiable(stages[k])
    ensures CompleteOn(events, stages)
  {
    forall picks ensures !Assignment(events, stages, picks) {
      if |picks| == |stages| { assert !Matches(picks[k], stages[k]); }
    }
  }

  /** A rule whose stages are pairwise nested is complete on every event list. */
  lemma NestedRuleIsComplete(events: seq<Event>, stages: seq<Stage>)
    requires PairwiseNested(stages)
    ensures CompleteOn(events, stages)
  {
    forall i, j | 0 <= i < j < |stages| ensures NestedPair(events, stages[i], stages[j]) {
      assert NestedEverywhere(stages[i], stages[j]);
    }
    UnorderedIsComplete(events, stages);
  }
}
