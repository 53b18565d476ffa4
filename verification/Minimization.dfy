/** Delta debugging of failing transcripts and of generated mutation steps. */
module Minimization {
  import opened JsonValues

  datatype Call = Call(name: string, arguments: seq<Member>)

  datatype Turn = Turn(
    content: string, calls: seq<Call>, provider: string, modelId: string, requestIndex: int, raw: Json)

  // ---------------------------------------------------------------- deletions

  function DropAt<T>(s: seq<T>, k: nat): seq<T>
    requires k < |s|
  {
    s[..k] + s[k + 1..]
  }

  /** s is t with elements deleted. */
  predicate Subsequence<T(==)>(s: seq<T>, t: seq<T>) {
    if s == [] then true
    else if t == [] then false
    else (s[0] == t[0] && Subsequence(s[1..], t[1..])) || Subsequence(s, t[1..])
  }

  lemma {:induction false} SubsequenceIsReflexive<T>(s: seq<T>)
    ensures Subsequence(s, s)
  {
    if s != [] { SubsequenceIsReflexive(s[1..]); }
  }

  lemma {:induction false} SubsequenceSkips<T>(s: seq<T>, t: seq<T>)
    requires s != [] && Subsequence(s, t)
    ensures Subsequence(s[1..], t)
    decreases |t|
  {
    if Subsequence(s, t[1..]) {
      SubsequenceSkips(s, t[1..]);
    }
    if s[1..] != [] && s[0] == t[0] && Subsequence(s[1..], t[1..]) { assert Subsequence(s[1..], t); }
  }

  lemma {:induction false} SubsequenceIsTransitive<T>(s: seq<T>, t: seq<T>, u: seq<T>)
    requires Subsequence(s, t) && Subsequence(t, u)
    ensures Subsequence(s, u)
    decreases |u|
  {
    if s != [] {
      if Subsequence(t, u[1..]) {
        SubsequenceIsTransitive(s, t, u[1..]);
      } else if s[0] == t[0] && Subsequence(s[1..], t[1..]) {
        SubsequenceIsTransitive(s[1..], t[1..], u[1..]);
      } else {
        SubsequenceIsTransitive(s, t[1..], u[1..]);
      }
    }
  }

  lemma {:induction false} DropIsSubsequence<T>(s: seq<T>, k: nat)
    requires k < |s|
    ensures Subsequence(DropAt(s, k), s)
  {
    if k == 0 {
      SubsequenceIsReflexive(s[1..]);
      assert DropAt(s, 0) == s[1..];
    } else {
      DropIsSubsequence(s[1..], k - 1);
      assert DropAt(s, k)[1..] == DropAt(s[1..], k - 1);
    }
  }

  lemma {:induction false} SubsequenceLength<T>(s: seq<T>, t: seq<T>)
    requires Subsequence(s, t)
    ensures |s| <= |t| && (|s| == |t| ==> s == t)
    decreases |t|
  {
    if s != [] {
      if s[0] == t[0] && Subsequence(s[1..], t[1..]) {
        SubsequenceLength(s[1..], t[1..]);
        assert s == [s[0]] + s[1..] && t == [t[0]] + t[1..];
      } else {
        SubsequenceLength(s, t[1..]);
      }
    }
  }

  /** Every proper subsequence survives the deletion of some element. */
  lemma {:induction false} ProperSubsequenceMissesOne<T>(s: seq<T>, t: seq<T>) returns (k: nat)
    requires Subsequence(s, t) && s != t
    ensures k < |t| && Subsequence(s, DropAt(t, k))
    decreases |t|
  {
    if s == [] || Subsequence(s, t[1..]) {
      k := 0;
      assert DropAt(t, 0) == t[1..];
    } else {
      assert s == [s[0]] + s[1..] && t == [t[0]] + t[1..];
      var j := ProperSubsequenceMissesOne(s[1..], t[1..]);
      k := j + 1;
      assert DropAt(t, k)[1..] == DropAt(t[1..], j) && DropAt(t, k)[0] == t[0];
    }
  }

  // ---------------------------------------------------------------- tool calls

  function DropCall(turns: seq<Turn>, i: nat, j: nat): seq<Turn>
    requires i < |turns| && j < |turns[i].calls|
  {
    turns[i := turns[i].(calls := DropAt(turns[i].calls, j))]
  }

  function CallCount(turns: seq<Turn>): nat {
    if turns == [] then 0 else |turns[0].calls| + CallCount(turns[1..])
  }

  // The same turn with calls deleted.
  predicate TurnReduced(t: Turn, u: Turn) { t == u.(calls := t.calls) && Subsequence(t.calls, u.calls) }

  ghost predicate Reduced(small: seq<Turn>, turns: seq<Turn>) {
    |small| == |turns| && forall i | 0 <= i < |turns| :: TurnReduced(small[i], turns[i])
  }

  /** No single call can be deleted without losing the failure. */
  ghost predicate OneMinimal(stillFails: seq<Turn> -> bool, turns: seq<Turn>) {
    forall i | 0 <= i < |turns| :: NoneDeletable(stillFails, turns, i, |turns[i].calls|)
  }

  ghost predicate NoneDeletable(stillFails: seq<Turn> -> bool, turns: seq<Turn>, i: nat, n: nat)
    requires i < |turns| && n <= |turns[i].calls|
  {
    forall j | 0 <= j < n :: !stillFails(DropCall(turns, i, j))
  }

  lemma {:induction false} CountAfterUpdate(turns: seq<Turn>, i: nat, t: Turn)
    requires i < |turns|
    ensures CallCount(turns[i := t]) == CallCount(turns) - |turns[i].calls| + |t.calls|
  {
    if i == 0 {
      assert turns[0 := t][1..] == turns[1..];
    } else {
      CountAfterUpdate(turns[1..], i - 1, t);
      assert turns[i := t][1..] == turns[1..][i - 1 := t];
    }
  }

  lemma DropReduces(turns: seq<Turn>, i: nat, j: nat)
    requires i < |turns| && j < |turns[i].calls|
    ensures Reduced(DropCall(turns, i, j), turns) && CallCount(DropCall(turns, i, j)) == CallCount(turns) - 1
  {
    DropIsSubsequence(turns[i].calls, j);
    CountAfterUpdate(turns, i, turns[i].(calls := DropAt(turns[i].calls, j)));
    forall k | 0 <= k < |turns| { SubsequenceIsReflexive(turns[k].calls); }
  }

  lemma ReducedIsReflexive(turns: seq<Turn>)
    ensures Reduced(turns, turns)
  {
    forall k | 0 <= k < |turns| { SubsequenceIsReflexive(turns[k].calls); }
  }

  lemma ReducedIsTransitive(s: seq<Turn>, t: seq<Turn>, u: seq<Turn>)
    requires Reduced(s, t) && Reduced(t, u)
    ensures Reduced(s, u)
  {
    forall i | 0 <= i < |u| ensures TurnReduced(s[i], u[i]) {
      assert TurnReduced(s[i], t[i]) && TurnReduced(t[i], u[i]);
      SubsequenceIsTransitive(s[i].calls, t[i].calls, u[i].calls);
    }
  }

  /** A failing transcript keeps failing, loses only calls, and ends with none to spare. */
  method MinimizeToolCalls(turns: seq<Turn>, stillFails: seq<Turn> -> bool) returns (minimized: seq<Turn>)
    ensures Reduced(minimized, turns)
    ensures stillFails(turns) ==> stillFails(minimized) && OneMinimal(stillFails, minimized)
    ensures !stillFails(turns) ==> minimized == turns
  {
    minimized := turns;
    ReducedIsReflexive(turns);
    if !stillFails(turns) { return; }
    var changed := true;
    while changed
      invariant Reduced(minimized, turns) && stillFails(minimized)
      invariant !changed ==> OneMinimal(stillFails, minimized)
      decreases CallCount(minimized) + if changed then 1 else 0
    {
      changed := false;
      var current := minimized;
      for i := 0 to |current|
        invariant minimized == current && !changed
        invariant forall k | 0 <= k < i :: NoneDeletable(stillFails, current, k, |current[k].calls|)
      {
        for j := 0 to |current[i].calls|
          invariant minimized == current && !changed
          invariant NoneDeletable(stillFails, current, i, j)
        {
          var candidate := DropCall(current, i, j);
          if stillFails(candidate) {
            DropReduces(current, i, j);
            ReducedIsTransitive(candidate, current, turns);
            minimized, changed := candidate, true;
            break;
          }
        }
        if changed { break; }
      }
    }
  }

  // Deleting calls never brings a failure back.
  ghost predicate Monotone(stillFails: seq<Turn> -> bool) {
    forall small, turns | Reduced(small, turns) && stillFails(small) :: stillFails(turns)
  }

  /** For a monotone failure a one-minimal transcript is minimal outright: deleting any calls at all
      loses the failure. */
  lemma OneMinimalIsMinimal(stillFails: seq<Turn> -> bool, turns: seq<Turn>, small: seq<Turn>)
    requires Monotone(stillFails) && OneMinimal(stillFails, turns)
    requires Reduced(small, turns) && small != turns
    ensures !stillFails(small)
  {
    var i :| 0 <= i < |turns| && small[i] != turns[i];
    assert TurnReduced(small[i], turns[i]);
    var j := ProperSubsequenceMissesOne(small[i].calls, turns[i].calls);
    var dropped := DropCall(turns, i, j);
    forall k | 0 <= k < |turns| ensures TurnReduced(small[k], dropped[k]) { assert TurnReduced(small[k], turns[k]); }
    assert Reduced(small, dropped);
    assert NoneDeletable(stillFails, turns, i, |turns[i].calls|);
  }

  // ---------------------------------------------------------------- the two predicates in use

  // Agent failures: a file read whose path is not a text.
  predicate MalformedRead(c: Call) {
    c.name == "safe_files.read"
    && match Get(c.arguments, "path") case Some(Str(_)) => false case _ => true
  }

  /** A read is malformed exactly when it has no path, or one that is not a text. */
  lemma MalformedReadIff(c: Call)
    ensures MalformedRead(c) <==> c.name == "safe_files.read" && !exists s :: Get(c.arguments, "path") == Some(Str(s))
  {
    match Get(c.arguments, "path")
    case Some(Str(s)) => assert Get(c.arguments, "path") == Some(Str(s));
    case _ =>
  }

  predicate HasMalformedRead(turns: seq<Turn>) {
    exists i, j | 0 <= i < |turns| && 0 <= j < |turns[i].calls| :: MalformedRead(turns[i].calls[j])
  }

  // Every other failure class.
  predicate AnyTurn(turns: seq<Turn>) { turns != [] }

  lemma {:induction false} NoCallsCountZero(turns: seq<Turn>)
    requires forall i | 0 <= i < |turns| :: turns[i].calls == []
    ensures CallCount(turns) == 0
  {
    if turns != [] { NoCallsCountZero(turns[1..]); }
  }

  lemma OtherCallIsDeletable(turns: seq<Turn>, i: nat, j: nat, k: nat, l: nat)
    requires i < |turns| && j < |turns[i].calls| && MalformedRead(turns[i].calls[j])
    requires k < |turns| && l < |turns[k].calls| && (k != i || l != j)
    ensures HasMalformedRead(DropCall(turns, k, l))
  {
    var dropped := DropCall(turns, k, l);
    var j' := if k == i && l < j then j - 1 else j;
    assert dropped[i].calls[j'] == turns[i].calls[j];
  }

  lemma OnlyCall(turns: seq<Turn>, i: nat, j: nat, k: nat, l: nat)
    requires OneMinimal(HasMalformedRead, turns)
    requires i < |turns| && j < |turns[i].calls| && MalformedRead(turns[i].calls[j])
    requires k < |turns| && l < |turns[k].calls|
    ensures k == i && l == j
  {
    assert NoneDeletable(HasMalformedRead, turns, k, |turns[k].calls|);
    if k != i || l != j { OtherCallIsDeletable(turns, i, j, k, l); }
  }

  /** A minimized agent failure is exactly one call, the malformed read. */
  lemma MinimalMalformedReadIsAlone(turns: seq<Turn>)
    requires HasMalformedRead(turns) && OneMinimal(HasMalformedRead, turns)
    ensures CallCount(turns) == 1
    ensures exists i | 0 <= i < |turns| :: |turns[i].calls| == 1 && MalformedRead(turns[i].calls[0])
  {
    var i, j :| 0 <= i < |turns| && 0 <= j < |turns[i].calls| && MalformedRead(turns[i].calls[j]);
    OnlyCall(turns, i, j, i, 0);
    OnlyCall(turns, i, j, i, |turns[i].calls| - 1);
    var emptied := turns[i := turns[i].(calls := [])];
    forall k | 0 <= k < |turns| ensures emptied[k].calls == [] {
      if turns[k].calls != [] { OnlyCall(turns, i, j, k, 0); }
    }
    NoCallsCountZero(emptied);
    CountAfterUpdate(turns, i, emptied[i]);
  }

  lemma DropKeepsTurns(turns: seq<Turn>, i: nat, j: nat)
    requires i < |turns| && j < |turns[i].calls|
    ensures AnyTurn(DropCall(turns, i, j))
  {
    assert |DropCall(turns, i, j)| == |turns|;
  }

  /** Every other failure is minimized to no calls at all. */
  lemma MinimalAnyTurnHasNoCalls(turns: seq<Turn>)
    requires OneMinimal(AnyTurn, turns)
    ensures CallCount(turns) == 0
  {
    forall i | 0 <= i < |turns| ensures turns[i].calls == [] {
      assert NoneDeletable(AnyTurn, turns, i, |turns[i].calls|);
      if turns[i].calls != [] { DropKeepsTurns(turns, i, 0); }
    }
    NoCallsCountZero(turns);
  }

  // ---------------------------------------------------------------- mutation steps

  datatype MutationStep = MutationStep(
    dimension: string, expectedFailureClass: Option<string>, operation: string, seed: int,
    semanticProperty: string, target: string)

  // No single step can be deleted; the last one is never tried.
  ghost predicate StepMinimal(stillFails: seq<MutationStep> -> bool, steps: seq<MutationStep>) {
    |steps| > 1 ==> forall k | 0 <= k < |steps| :: !stillFails(DropAt(steps, k))
  }

  method MinimizeStatefulSteps(steps: seq<MutationStep>, stillFails: seq<MutationStep> -> bool)
    returns (minimized: seq<MutationStep>)
    ensures Subsequence(minimized, steps) && StepMinimal(stillFails, minimized)
    ensures minimized == steps || stillFails(minimized)
    ensures steps != [] ==> minimized != []
  {
    minimized := steps;
    SubsequenceIsReflexive(steps);
    var changed := true;
    while changed
      invariant Subsequence(minimized, steps)
      invariant minimized == steps || stillFails(minimized)
      invariant steps != [] ==> minimized != []
      invariant !changed ==> StepMinimal(stillFails, minimized)
      decreases |minimized| + if changed then 1 else 0
    {
      changed := false;
      var current := minimized;
      for k := 0 to |current|
        invariant minimized == current && !changed
        invariant |current| > 1 ==> forall l | 0 <= l < k :: !stillFails(DropAt(current, l))
      {
        var candidate := DropAt(current, k);
        if candidate != [] && stillFails(candidate) {
          DropIsSubsequence(current, k);
          SubsequenceIsTransitive(candidate, current, steps);
          minimized, changed := candidate, true;
          break;
        }
      }
    }
  }

  predicate DropsRequiredStatus(s: MutationStep) { s.operation == "drop_required_verification_status" }

  predicate StatefulFailure(steps: seq<MutationStep>) {
    exists k | 0 <= k < |steps| :: DropsRequiredStatus(steps[k])
  }

  lemma {:induction false} FailureSurvivesInsertion(small: seq<MutationStep>, steps: seq<MutationStep>)
    requires Subsequence(small, steps) && StatefulFailure(small)
    ensures StatefulFailure(steps)
    decreases |steps|
  {
    var k :| 0 <= k < |small| && DropsRequiredStatus(small[k]);
    if Subsequence(small, steps[1..]) {
      FailureSurvivesInsertion(small, steps[1..]);
    } else if k == 0 {
      assert DropsRequiredStatus(steps[0]);
    } else {
      assert small[1..][k - 1] == small[k];
      FailureSurvivesInsertion(small[1..], steps[1..]);
    }
    if StatefulFailure(steps[1..]) {
      var l :| 0 <= l < |steps[1..]| && DropsRequiredStatus(steps[1..][l]);
      assert DropsRequiredStatus(steps[l + 1]);
    }
  }

  lemma OtherStepIsDeletable(steps: seq<MutationStep>, k: nat, l: nat)
    requires k < |steps| && l < |steps| && k != l && DropsRequiredStatus(steps[k])
    ensures StatefulFailure(DropAt(steps, l))
  {
    var dropped := DropAt(steps, l);
    assert dropped[if k < l then k else k - 1] == steps[k];
  }

  /** What the minimizer leaves of generated steps: the one step that drops the status when the steps
      model the failure, and everything otherwise. */
  lemma MinimalStepsAre(steps: seq<MutationStep>, minimized: seq<MutationStep>)
    requires Subsequence(minimized, steps) && StepMinimal(StatefulFailure, minimized)
    requires minimized == steps || StatefulFailure(minimized)
    ensures
      if exists k | 0 <= k < |steps| :: steps[k].operation == "drop_required_verification_status"
      then |minimized| == 1 && minimized[0].operation == "drop_required_verification_status"
      else minimized == steps
  {
    if StatefulFailure(minimized) {
      FailureSurvivesInsertion(minimized, steps);
      var k :| 0 <= k < |minimized| && DropsRequiredStatus(minimized[k]);
      if |minimized| > 1 { OtherStepIsDeletable(minimized, k, if k == 0 then 1 else 0); }
    }
  }
}
