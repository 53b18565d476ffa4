/** Suppression and de-duplication of the matches found in one group. */
module Suppression {
  import opened JsonValues
  import opened Detection

  // What the loop remembers, and the positions of the matches it has emitted.
  datatype Emission = Emission(seen: set<seq<string>>, last: map<Key, real>, kept: seq<nat>)

  function Ids(m: seq<Event>): seq<string> { seq(|m|, i requires 0 <= i < |m| => m[i].id) }

  function KeyOf(rule: Rule, groupKey: Key, m: seq<Event>): Key {
    if rule.suppressionKey.None? || m == [] then groupKey else rule.suppressionKey.value(m[0])
  }

  ghost predicate NonEmpty(ms: seq<seq<Event>>) { forall i | 0 <= i < |ms| :: ms[i] != [] }

  function TooSoon(rule: Rule, last: real, start: real): bool {
    rule.suppressionSeconds.Some? && start - last <= rule.suppressionSeconds.value
  }

  function Step(rule: Rule, groupKey: Key, st: Emission, i: nat, m: seq<Event>): Emission
    requires m != []
  {
    if rule.deduplicate && Ids(m) in st.seen then st
    else
      var key, start := KeyOf(rule, groupKey, m), EarliestTime(m);
      var seen := st.seen + {Ids(m)};
      if key in st.last && TooSoon(rule, st.last[key], start) then st.(seen := seen)
      else Emission(seen, st.last[key := start], st.kept + [i])
  }

  // The state after the first n matches.
  function Run(rule: Rule, groupKey: Key, ms: seq<seq<Event>>, n: nat): Emission
    requires NonEmpty(ms) && n <= |ms|
  {
    if n == 0 then Emission({}, map[], [])
    else Step(rule, groupKey, Run(rule, groupKey, ms, n - 1), n - 1, ms[n - 1])
  }

  function Kept(rule: Rule, groupKey: Key, ms: seq<seq<Event>>): seq<nat>
    requires NonEmpty(ms)
  {
    Run(rule, groupKey, ms, |ms|).kept
  }

  function Select(ms: seq<seq<Event>>, ix: seq<nat>): (r: seq<seq<Event>>)
    requires forall p | 0 <= p < |ix| :: ix[p] < |ms|
    ensures |r| == |ix| && forall p | 0 <= p < |ix| :: r[p] == ms[ix[p]]
  {
    seq(|ix|, p requires 0 <= p < |ix| => ms[ix[p]])
  }

  method SuppressAndDedupe(matched: seq<seq<Event>>, rule: Rule, groupKey: Key) returns (emitted: seq<seq<Event>>)
    requires NonEmpty(matched)
    ensures forall p | 0 <= p < |Kept(rule, groupKey, matched)| :: Kept(rule, groupKey, matched)[p] < |matched|
    ensures emitted == Select(matched, Kept(rule, groupKey, matched))
  {
    var seen: set<seq<string>> := {};
    var last: map<Key, real> := map[];
    emitted := [];
    ghost var kept: seq<nat> := [];
    for i := 0 to |matched|
      invariant Run(rule, groupKey, matched, i) == Emission(seen, last, kept)
      invariant forall p | 0 <= p < |kept| :: kept[p] < i
      invariant emitted == Select(matched, kept)
    {
      var m := matched[i];
      var ids := Ids(m);
      if rule.deduplicate && ids in seen { continue; }
      seen := seen + {ids};
      var key := KeyOf(rule, groupKey, m);
      var start := EarliestTime(m);
      if key in last && TooSoon(rule, last[key], start) { continue; }
      last := last[key := start];
      emitted := emitted + [m];
      kept := kept + [i];
    }
  }

  // ---------------------------------------------------------------- what the state means

  // For each key, the start of the most recent of these emissions.
  function LastStarts(rule: Rule, groupKey: Key, ms: seq<seq<Event>>, kept: seq<nat>): map<Key, real>
    requires NonEmpty(ms) && forall p | 0 <= p < |kept| :: kept[p] < |ms|
  {
    if kept == [] then map[]
    else
      var m := ms[kept[|kept| - 1]];
      LastStarts(rule, groupKey, ms, kept[..|kept| - 1])[KeyOf(rule, groupKey, m) := EarliestTime(m)]
  }

  function SeenIds(ms: seq<seq<Event>>, n: nat): set<seq<string>>
    requires n <= |ms|
  {
    if n == 0 then {} else SeenIds(ms, n - 1) + {Ids(ms[n - 1])}
  }

  ghost predicate InOrder(kept: seq<nat>, n: nat) {
    (forall p | 0 <= p < |kept| :: kept[p] < n) && forall p, q | 0 <= p < q < |kept| :: kept[p] < kept[q]
  }

  // What the loop remembers after n matches, in terms of what it has emitted.
  ghost predicate Remembers(rule: Rule, groupKey: Key, ms: seq<seq<Event>>, n: nat, st: Emission)
    requires NonEmpty(ms) && n <= |ms|
  {
    && InOrder(st.kept, n)
    && (rule.deduplicate ==> st.seen == SeenIds(ms, n))
    && st.last == LastStarts(rule, groupKey, ms, st.kept)
  }

  lemma {:induction false} RunRemembers(rule: Rule, groupKey: Key, ms: seq<seq<Event>>, n: nat)
    requires NonEmpty(ms) && n <= |ms|
    ensures Remembers(rule, groupKey, ms, n, Run(rule, groupKey, ms, n))
  {
    if n > 0 {
      RunRemembers(rule, groupKey, ms, n - 1);
      var st, st' := RunUnfolds(rule, groupKey, ms, n);
      StepRemembers(rule, groupKey, ms, n - 1, st, st');
    }
  }

  ghost predicate Steps(rule: Rule, groupKey: Key, ms: seq<seq<Event>>, i: nat, st: Emission, st': Emission)
    requires NonEmpty(ms) && i < |ms|
  {
    st' == Step(rule, groupKey, st, i, ms[i])
  }

  lemma RunUnfolds(rule: Rule, groupKey: Key, ms: seq<seq<Event>>, n: nat) returns (st: Emission, st': Emission)
    requires NonEmpty(ms) && 0 < n <= |ms|
    ensures st == Run(rule, groupKey, ms, n - 1) && st' == Run(rule, groupKey, ms, n)
    ensures Steps(rule, groupKey, ms, n - 1, st, st')
  {
    st, st' := Run(rule, groupKey, ms, n - 1), Run(rule, groupKey, ms, n);
  }

  lemma StepRemembers(rule: Rule, groupKey: Key, ms: seq<seq<Event>>, i: nat, st: Emission, st': Emission)
    requires NonEmpty(ms) && i < |ms|
    requires Remembers(rule, groupKey, ms, i, st) && Steps(rule, groupKey, ms, i, st, st')
    ensures Remembers(rule, groupKey, ms, i + 1, st')
  {
    StepRemembersIds(rule, groupKey, ms, i, st, st');
    StepRemembersStarts(rule, groupKey, ms, i, st, st');
  }

  lemma StepRemembersIds(rule: Rule, groupKey: Key, ms: seq<seq<Event>>, i: nat, st: Emission, st': Emission)
    requires NonEmpty(ms) && i < |ms| && Steps(rule, groupKey, ms, i, st, st')
    requires rule.deduplicate ==> st.seen == SeenIds(ms, i)
    ensures rule.deduplicate ==> st'.seen == SeenIds(ms, i + 1)
  {
  }

  lemma StepRemembersStarts(rule: Rule, groupKey: Key, ms: seq<seq<Event>>, i: nat, st: Emission, st': Emission)
    requires NonEmpty(ms) && i < |ms| && Steps(rule, groupKey, ms, i, st, st')
    requires InOrder(st.kept, i) && st.last == LastStarts(rule, groupKey, ms, st.kept)
    ensures InOrder(st'.kept, i + 1) && st'.last == LastStarts(rule, groupKey, ms, st'.kept)
  {
    EmitGrows(rule, groupKey, ms, st.kept, i);
  }

  lemma EmitGrows(rule: Rule, groupKey: Key, ms: seq<seq<Event>>, kept: seq<nat>, i: nat)
    requires NonEmpty(ms) && i < |ms| && InOrder(kept, i)
    ensures InOrder(kept, i + 1) && InOrder(kept + [i], i + 1)
    ensures LastStarts(rule, groupKey, ms, kept + [i])
         == LastStarts(rule, groupKey, ms, kept)[KeyOf(rule, groupKey, ms[i]) := EarliestTime(ms[i])]
  {
    assert (kept + [i])[..|kept|] == kept;
  }

  lemma {:induction false} SeenMeansEarlier(ms: seq<seq<Event>>, n: nat, ids: seq<string>)
    requires n <= |ms|
    ensures ids in SeenIds(ms, n) <==> exists j | 0 <= j < n :: Ids(ms[j]) == ids
  {
    if n > 0 { SeenMeansEarlier(ms, n - 1, ids); }
  }

  // ---------------------------------------------------------------- which matches are emitted

  /** An earlier match has the same event ids. */
  ghost predicate Repeat(ms: seq<seq<Event>>, i: nat)
    requires i < |ms|
  {
    exists j | 0 <= j < i :: SameIds(ms[j], ms[i])
  }

  ghost predicate SameIds(m: seq<Event>, n: seq<Event>) {
    |m| == |n| && forall i | 0 <= i < |m| :: m[i].id == n[i].id
  }

  lemma SameIdsIff(m: seq<Event>, n: seq<Event>)
    ensures SameIds(m, n) <==> Ids(m) == Ids(n)
  {
    if Ids(m) == Ids(n) {
      forall i | 0 <= i < |m| ensures m[i].id == n[i].id { assert Ids(m)[i] == Ids(n)[i]; }
    }
  }

  /** Two matches of a group are suppressed together: the rule has no suppression key, or their first
      events have the same one. */
  ghost predicate SameKey(rule: Rule, m: seq<Event>, n: seq<Event>)
    requires m != [] && n != []
  {
    rule.suppressionKey.None? || rule.suppressionKey.value(m[0]) == rule.suppressionKey.value(n[0])
  }

  /** The most recent emission before i with the same key is too close. */
  ghost predicate Suppressed(rule: Rule, groupKey: Key, ms: seq<seq<Event>>, kept: seq<nat>, i: nat)
    requires NonEmpty(ms) && i < |ms| && InOrder(kept, |ms|)
  {
    exists p | 0 <= p < |kept| :: Blocks(rule, groupKey, ms, kept, p, i)
  }

  ghost predicate Blocks(rule: Rule, groupKey: Key, ms: seq<seq<Event>>, kept: seq<nat>, p: nat, i: nat)
    requires NonEmpty(ms) && i < |ms| && InOrder(kept, |ms|) && p < |kept|
  {
    && kept[p] < i
    && KeyOf(rule, groupKey, ms[kept[p]]) == KeyOf(rule, groupKey, ms[i])
    && TooSoon(rule, EarliestTime(ms[kept[p]]), EarliestTime(ms[i]))
    && forall q | p < q < |kept| && kept[q] < i :: KeyOf(rule, groupKey, ms[kept[q]]) != KeyOf(rule, groupKey, ms[i])
  }

  // Emission p is the most recent with this key.
  ghost predicate MostRecent(rule: Rule, groupKey: Key, ms: seq<seq<Event>>, kept: seq<nat>, key: Key, p: nat)
    requires NonEmpty(ms) && forall q | 0 <= q < |kept| :: kept[q] < |ms|
  {
    && p < |kept|
    && KeyOf(rule, groupKey, ms[kept[p]]) == key
    && forall q | p < q < |kept| :: KeyOf(rule, groupKey, ms[kept[q]]) != key
  }

  lemma {:induction false} LastStartIsMostRecent(
    rule: Rule, groupKey: Key, ms: seq<seq<Event>>, kept: seq<nat>, key: Key) returns (p: nat)
    requires NonEmpty(ms) && forall q | 0 <= q < |kept| :: kept[q] < |ms|
    ensures key in LastStarts(rule, groupKey, ms, kept) ==>
      && MostRecent(rule, groupKey, ms, kept, key, p)
      && EarliestTime(ms[kept[p]]) == LastStarts(rule, groupKey, ms, kept)[key]
    ensures key !in LastStarts(rule, groupKey, ms, kept) ==>
      forall q | 0 <= q < |kept| :: KeyOf(rule, groupKey, ms[kept[q]]) != key
  {
    p := 0;
    if kept != [] {
      var n := |kept| - 1;
      p := LastStartIsMostRecent(rule, groupKey, ms, kept[..n], key);
      if KeyOf(rule, groupKey, ms[kept[n]]) == key {
        p := n;
      } else {
        forall q | 0 <= q < n ensures kept[..n][q] == kept[q] {}
      }
    }
  }

  lemma {:induction false} RunGrows(rule: Rule, groupKey: Key, ms: seq<seq<Event>>, i: nat, n: nat)
    requires NonEmpty(ms) && i <= n <= |ms|
    ensures Run(rule, groupKey, ms, i).kept <= Run(rule, groupKey, ms, n).kept
    ensures forall p | |Run(rule, groupKey, ms, i).kept| <= p < |Run(rule, groupKey, ms, n).kept| ::
      i <= Run(rule, groupKey, ms, n).kept[p]
    decreases n - i
  {
    if i < n { RunGrows(rule, groupKey, ms, i, n - 1); }
  }

  // Whether match i is emitted is decided when the loop reaches it.
  lemma DecidedOnce(rule: Rule, groupKey: Key, ms: seq<seq<Event>>, i: nat)
    requires NonEmpty(ms) && i < |ms|
    ensures i in Kept(rule, groupKey, ms) <==> i in Run(rule, groupKey, ms, i + 1).kept
  {
    RunGrows(rule, groupKey, ms, i + 1, |ms|);
  }

  // The emissions before i are those the loop had made when it reached i.
  lemma {:induction false} BlockedByLastStart(rule: Rule, groupKey: Key, ms: seq<seq<Event>>, i: nat)
    requires NonEmpty(ms) && i < |ms|
    requires InOrder(Kept(rule, groupKey, ms), |ms|) && InOrder(Run(rule, groupKey, ms, i).kept, i)
    ensures Suppressed(rule, groupKey, ms, Kept(rule, groupKey, ms), i)
      <==> (var last, key := LastStarts(rule, groupKey, ms, Run(rule, groupKey, ms, i).kept), KeyOf(rule, groupKey, ms[i]);
            key in last && TooSoon(rule, last[key], EarliestTime(ms[i])))
  {
    RunGrows(rule, groupKey, ms, i, |ms|);
    PrefixDecides(rule, groupKey, ms, Run(rule, groupKey, ms, i).kept, Kept(rule, groupKey, ms), i);
  }

  lemma PrefixDecides(rule: Rule, groupKey: Key, ms: seq<seq<Event>>, before: seq<nat>, kept: seq<nat>, i: nat)
    requires NonEmpty(ms) && i < |ms| && InOrder(kept, |ms|) && InOrder(before, i) && before <= kept
    requires forall p | |before| <= p < |kept| :: i <= kept[p]
    ensures Suppressed(rule, groupKey, ms, kept, i)
      <==> (var last, key := LastStarts(rule, groupKey, ms, before), KeyOf(rule, groupKey, ms[i]);
            key in last && TooSoon(rule, last[key], EarliestTime(ms[i])))
  {
    var key := KeyOf(rule, groupKey, ms[i]);
    var last := LastStarts(rule, groupKey, ms, before);
    var p := LastStartIsMostRecent(rule, groupKey, ms, before, key);
    forall q | 0 <= q < |before| ensures before[q] == kept[q] {}
    if key in last && TooSoon(rule, last[key], EarliestTime(ms[i])) {
      assert Blocks(rule, groupKey, ms, kept, p, i);
    }
    forall r | 0 <= r < |kept| && Blocks(rule, groupKey, ms, kept, r, i) ensures key in last && r == p {
      assert r < |before|;
    }
  }

  /** A match is emitted exactly when it is neither a repeat (with de-duplication on) nor too
      close to the most recent emission for its key. */
  lemma EmittedIff(rule: Rule, groupKey: Key, ms: seq<seq<Event>>, i: nat)
    requires NonEmpty(ms) && i < |ms|
    ensures InOrder(Kept(rule, groupKey, ms), |ms|)
    ensures i in Kept(rule, groupKey, ms)
      <==> !(rule.deduplicate && Repeat(ms, i)) && !Suppressed(rule, groupKey, ms, Kept(rule, groupKey, ms), i)
  {
    RunRemembers(rule, groupKey, ms, i);
    RunRemembers(rule, groupKey, ms, |ms|);
    DecidedOnce(rule, groupKey, ms, i);
    BlockedByLastStart(rule, groupKey, ms, i);
    SeenMeansEarlier(ms, i, Ids(ms[i]));
    forall j | 0 <= j < i { SameIdsIff(ms[j], ms[i]); }
    assert i !in Run(rule, groupKey, ms, i).kept;
    var st := Run(rule, groupKey, ms, i);
    assert Run(rule, groupKey, ms, i + 1) == Step(rule, groupKey, st, i, ms[i]);
  }

  // ---------------------------------------------------------------- gaps

  /** Any two emissions with the same key start more than `seconds` apart, the later one later. */
  ghost predicate Gaps(rule: Rule, groupKey: Key, ms: seq<seq<Event>>, kept: seq<nat>, seconds: real)
    requires NonEmpty(ms) && InOrder(kept, |ms|)
  {
    forall p, q | 0 <= p < q < |kept| && SameKey(rule, ms[kept[p]], ms[kept[q]]) ::
      StartAt(ms, kept[q]) - StartAt(ms, kept[p]) > seconds
  }

  function StartAt(ms: seq<seq<Event>>, i: nat): real
    requires NonEmpty(ms) && i < |ms|
  {
    EarliestTime(ms[i])
  }

  /** Matches listed in the order they start. */
  ghost predicate Ascending(ms: seq<seq<Event>>)
    requires NonEmpty(ms)
  {
    forall i, j | 0 <= i < j < |ms| :: StartAt(ms, i) <= StartAt(ms, j)
  }

  ghost predicate KeepsGaps(rule: Rule, groupKey: Key, ms: seq<seq<Event>>, n: nat, st: Emission, seconds: real)
    requires NonEmpty(ms) && n <= |ms|
  {
    Remembers(rule, groupKey, ms, n, st) && Gaps(rule, groupKey, ms, st.kept, seconds)
  }

  /** Matches in order of their starts are emitted with the configured gap between any two emissions
      for one key, whatever the gap is. */
  lemma {:induction false} RunKeepsGaps(rule: Rule, groupKey: Key, ms: seq<seq<Event>>, n: nat, seconds: real)
    requires NonEmpty(ms) && n <= |ms| && Ascending(ms) && rule.suppressionSeconds == Some(seconds)
    ensures KeepsGaps(rule, groupKey, ms, n, Run(rule, groupKey, ms, n), seconds)
  {
    if n > 0 {
      RunKeepsGaps(rule, groupKey, ms, n - 1, seconds);
      var st, st' := RunUnfolds(rule, groupKey, ms, n);
      StepKeepsGaps(rule, groupKey, ms, n - 1, st, st', seconds);
    }
  }

  lemma StepKeepsGaps(
    rule: Rule, groupKey: Key, ms: seq<seq<Event>>, i: nat, st: Emission, st': Emission, seconds: real)
    requires NonEmpty(ms) && i < |ms|
    requires Ascending(ms) && rule.suppressionSeconds == Some(seconds)
    requires KeepsGaps(rule, groupKey, ms, i, st, seconds) && Steps(rule, groupKey, ms, i, st, st')
    ensures KeepsGaps(rule, groupKey, ms, i + 1, st', seconds)
  {
    StepRemembers(rule, groupKey, ms, i, st, st');
    var key := KeyOf(rule, groupKey, ms[i]);
    if key in st.last ==> StartAt(ms, i) - st.last[key] > seconds {
      NewEmissionKeepsGaps(rule, groupKey, ms, i, st, seconds);
    }
  }

  lemma NewEmissionKeepsGaps(rule: Rule, groupKey: Key, ms: seq<seq<Event>>, i: nat, st: Emission, seconds: real)
    requires NonEmpty(ms) && i < |ms| && Ascending(ms) && rule.suppressionSeconds == Some(seconds)
    requires Remembers(rule, groupKey, ms, i, st)
    requires Gaps(rule, groupKey, ms, st.kept, seconds)
    requires var key := KeyOf(rule, groupKey, ms[i]);
      key in st.last ==> StartAt(ms, i) - st.last[key] > seconds
    ensures Gaps(rule, groupKey, ms, st.kept + [i], seconds)
  {
    var key := KeyOf(rule, groupKey, ms[i]);
    var p := LastStartIsMostRecent(rule, groupKey, ms, st.kept, key);
    forall r | 0 <= r < |st.kept| && KeyOf(rule, groupKey, ms[st.kept[r]]) == key
      ensures StartAt(ms, i) - StartAt(ms, st.kept[r]) > seconds
    {
      if r < p { assert StartAt(ms, st.kept[r]) <= StartAt(ms, st.kept[p]); }
    }
  }

  // Emission p came before match i, for the same key.
  ghost predicate Precedes(rule: Rule, groupKey: Key, ms: seq<seq<Event>>, kept: seq<nat>, p: nat, i: nat)
    requires NonEmpty(ms) && i < |ms| && InOrder(kept, |ms|) && p < |kept|
  {
    kept[p] < i && SameKey(rule, ms[kept[p]], ms[i])
  }

  /** Every earlier emission for the key of match i starts more than the gap before it. */
  ghost predicate FarFromAll(rule: Rule, groupKey: Key, ms: seq<seq<Event>>, kept: seq<nat>, i: nat)
    requires NonEmpty(ms) && i < |ms| && InOrder(kept, |ms|)
  {
    forall p | 0 <= p < |kept| && Precedes(rule, groupKey, ms, kept, p, i) ::
      rule.suppressionSeconds.Some? ==> StartAt(ms, i) - StartAt(ms, kept[p]) > rule.suppressionSeconds.value
  }

  /** Matches in order of their starts: one is emitted exactly when it is no repeat (with
      de-duplication on) and far from every earlier emission for its key, not only the last. */
  lemma EmittedIffFar(rule: Rule, groupKey: Key, ms: seq<seq<Event>>, i: nat)
    requires NonEmpty(ms) && Ascending(ms) && i < |ms|
    ensures InOrder(Kept(rule, groupKey, ms), |ms|)
    ensures i in Kept(rule, groupKey, ms) <==>
      !(rule.deduplicate && Repeat(ms, i)) && FarFromAll(rule, groupKey, ms, Kept(rule, groupKey, ms), i)
  {
    EmittedIff(rule, groupKey, ms, i);
    SuppressedIffNear(rule, groupKey, ms, Kept(rule, groupKey, ms), i);
  }

  lemma SuppressedIffNear(rule: Rule, groupKey: Key, ms: seq<seq<Event>>, kept: seq<nat>, i: nat)
    requires NonEmpty(ms) && Ascending(ms) && i < |ms| && InOrder(kept, |ms|)
    ensures Suppressed(rule, groupKey, ms, kept, i) <==> !FarFromAll(rule, groupKey, ms, kept, i)
  {
    if p :| 0 <= p < |kept| && Blocks(rule, groupKey, ms, kept, p, i) {
      assert Precedes(rule, groupKey, ms, kept, p, i);
    }
    if p :| 0 <= p < |kept| && Precedes(rule, groupKey, ms, kept, p, i)
            && TooSoon(rule, StartAt(ms, kept[p]), StartAt(ms, i)) {
      var q := LastBefore(rule, groupKey, ms, kept, p, i);
      assert StartAt(ms, kept[p]) <= StartAt(ms, kept[q]);
      assert Blocks(rule, groupKey, ms, kept, q, i);
    }
  }

  // The most recent emission before i with its key, given that there is one.
  lemma {:induction false} LastBefore(rule: Rule, groupKey: Key, ms: seq<seq<Event>>, kept: seq<nat>, p: nat, i: nat)
    returns (q: nat)
    requires NonEmpty(ms) && i < |ms| && InOrder(kept, |ms|)
    requires p < |kept| && Precedes(rule, groupKey, ms, kept, p, i)
    ensures p <= q < |kept| && Precedes(rule, groupKey, ms, kept, q, i)
    ensures forall r | q < r < |kept| :: !Precedes(rule, groupKey, ms, kept, r, i)
    decreases |kept| - p
  {
    q := p;
    if r :| p < r < |kept| && Precedes(rule, groupKey, ms, kept, r, i) {
      q := LastBefore(rule, groupKey, ms, kept, r, i);
    }
  }

  /** With de-duplication on, no two emissions have the same event ids. */
  lemma EmittedIdsAreDistinct(rule: Rule, groupKey: Key, ms: seq<seq<Event>>, p: nat, q: nat)
    requires NonEmpty(ms) && rule.deduplicate && p < q < |Kept(rule, groupKey, ms)|
    ensures InOrder(Kept(rule, groupKey, ms), |ms|)
    ensures !SameIds(ms[Kept(rule, groupKey, ms)[p]], ms[Kept(rule, groupKey, ms)[q]])
  {
    RunRemembers(rule, groupKey, ms, |ms|);
    var kept := Kept(rule, groupKey, ms);
    EmittedIff(rule, groupKey, ms, kept[q]);
    assert !Repeat(ms, kept[q]);
  }
}
