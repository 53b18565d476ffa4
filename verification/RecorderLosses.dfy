/** Which calls on the event recorder leave an event whose parent is in no journal. */
module RecorderLosses {
  import opened JsonValues
  import opened EventRecorder

  // What each call of a run comes to.
  function Results(env: Env, st: State, calls: seq<Call>): (rs: seq<Recorded>)
    ensures |rs| == |calls|
    decreases |calls|
  {
    if calls == [] then []
    else
      var (after, result) := Record(env, st, calls[0]);
      [result] + Results(env, after, calls[1..])
  }

  // Call j records an event of this timeline without an explicit parent, and no call before it moved the timeline.
  ghost predicate RecordsNext(calls: seq<Call>, rs: seq<Recorded>, key: string, j: nat)
    requires |rs| == |calls|
  {
    && j < |calls| && Timeline(calls[j].timeline) == key && rs[j].Recorded? && calls[j].parent.None?
    && forall m | 0 <= m < j && Timeline(calls[m].timeline) == key :: rs[m].Rejected?
  }

  /** The event of call i is lost, and the next event its timeline gets is recorded by call j without an
      explicit parent. */
  ghost predicate LostThenRecorded(calls: seq<Call>, rs: seq<Recorded>, i: nat, j: nat)
    requires |rs| == |calls|
  {
    && i < j < |calls| && rs[i].Lost?
    && RecordsNext(calls[i + 1..], rs[i + 1..], Timeline(calls[i].timeline), j - i - 1)
  }

  // The rest of a run dangles: it already has, on a timeline with an event lost before, or on one of its own.
  ghost predicate Dangles(run: Run, calls: seq<Call>, rs: seq<Recorded>)
    requires |rs| == |calls|
  {
    || run.dangling
    || (exists key: string, j: nat :: key in run.pending && RecordsNext(calls, rs, key, j))
    || (exists i: nat, j: nat :: LostThenRecorded(calls, rs, i, j))
  }

  lemma RecordsNextShifts(calls: seq<Call>, rs: seq<Recorded>, key: string, j: nat)
    requires |rs| == |calls| > 0
    ensures RecordsNext(calls, rs, key, j + 1)
      <==> RecordsNext(calls[1..], rs[1..], key, j) && (Timeline(calls[0].timeline) == key ==> rs[0].Rejected?)
  {
    if RecordsNext(calls, rs, key, j + 1) {
      forall m | 0 <= m < j && Timeline(calls[1..][m].timeline) == key ensures rs[1..][m].Rejected? {
        assert calls[1..][m] == calls[m + 1];
      }
    }
    if RecordsNext(calls[1..], rs[1..], key, j) && (Timeline(calls[0].timeline) == key ==> rs[0].Rejected?) {
      forall m | 0 <= m < j + 1 && Timeline(calls[m].timeline) == key ensures rs[m].Rejected? {
        if m > 0 { assert calls[1..][m - 1] == calls[m]; }
      }
    }
  }

  lemma LostThenRecordedShifts(calls: seq<Call>, rs: seq<Recorded>, i: nat, j: nat)
    requires |rs| == |calls| > 0
    ensures LostThenRecorded(calls, rs, i + 1, j + 1) <==> LostThenRecorded(calls[1..], rs[1..], i, j)
    ensures LostThenRecorded(calls, rs, 0, j + 1)
      <==> rs[0].Lost? && RecordsNext(calls[1..], rs[1..], Timeline(calls[0].timeline), j)
  {
    if i + 1 < |calls| {
      assert calls[1..][i + 1..] == calls[i + 2..] && rs[1..][i + 1..] == rs[i + 2..];
    }
  }

  lemma PendingDangles(env: Env, run: Run, calls: seq<Call>, rs: seq<Recorded>, key: string, j: nat)
    requires |rs| == |calls| > 0 && rs[0] == Record(env, run.state, calls[0]).1
    requires key in run.pending && RecordsNext(calls, rs, key, j)
    ensures Dangles(Step(env, run, calls[0]), calls[1..], rs[1..])
  {
    if j > 0 { RecordsNextShifts(calls, rs, key, j - 1); }
  }

  lemma LossIsPending(env: Env, run: Run, call: Call)
    requires Record(env, run.state, call).1.Lost?
    ensures Timeline(call.timeline) in Step(env, run, call).pending
  {
  }

  lemma LostDangles(after: Run, calls: seq<Call>, rs: seq<Recorded>, i: nat, j: nat)
    requires |rs| == |calls| > 0 && (rs[0].Lost? ==> Timeline(calls[0].timeline) in after.pending)
    requires LostThenRecorded(calls, rs, i, j)
    ensures Dangles(after, calls[1..], rs[1..])
  {
    LostThenRecordedShifts(calls, rs, if i == 0 then 0 else i - 1, j - 1);
  }

  lemma StepDangles(env: Env, run: Run, calls: seq<Call>, rs: seq<Recorded>)
    requires |rs| == |calls| > 0 && rs[0] == Record(env, run.state, calls[0]).1 && Dangles(run, calls, rs)
    ensures Dangles(Step(env, run, calls[0]), calls[1..], rs[1..])
  {
    if key: string, j: nat :| key in run.pending && RecordsNext(calls, rs, key, j) {
      PendingDangles(env, run, calls, rs, key, j);
    } else if i: nat, j: nat :| LostThenRecorded(calls, rs, i, j) {
      if rs[0].Lost? { LossIsPending(env, run, calls[0]); }
      LostDangles(Step(env, run, calls[0]), calls, rs, i, j);
    }
  }

  lemma StepDangled(env: Env, run: Run, calls: seq<Call>, rs: seq<Recorded>)
    requires |rs| == |calls| > 0 && rs[0] == Record(env, run.state, calls[0]).1
    requires Dangles(Step(env, run, calls[0]), calls[1..], rs[1..])
    ensures Dangles(run, calls, rs)
  {
    var after, key0 := Step(env, run, calls[0]), Timeline(calls[0].timeline);
    if after.dangling {
      assert run.dangling || (key0 in run.pending && RecordsNext(calls, rs, key0, 0));
    } else if key: string, j: nat :| key in after.pending && RecordsNext(calls[1..], rs[1..], key, j) {
      RecordsNextShifts(calls, rs, key, j);
      LostThenRecordedShifts(calls, rs, 0, j);
    } else if i: nat, j: nat :| LostThenRecorded(calls[1..], rs[1..], i, j) {
      LostThenRecordedShifts(calls, rs, i, j);
    }
  }

  lemma {:induction false} DanglingIff(env: Env, run: Run, calls: seq<Call>)
    ensures RunFrom(env, run, calls).dangling <==> Dangles(run, calls, Results(env, run.state, calls))
    decreases |calls|
  {
    if calls != [] {
      var rs, after := Results(env, run.state, calls), Step(env, run, calls[0]);
      assert rs[1..] == Results(env, after.state, calls[1..]);
      DanglingIff(env, after, calls[1..]);
      if Dangles(run, calls, rs) { StepDangles(env, run, calls, rs); }
      if Dangles(after, calls[1..], rs[1..]) { StepDangled(env, run, calls, rs); }
    }
  }

  /** Any interleaving of calls leaves well-rooted timelines exactly when no call loses an event and the
      next event its timeline gets is recorded without an explicit parent. */
  lemma WellRootedIff(env: Env, calls: seq<Call>)
    requires KeepsEnvelope(env, |calls|, Timelines(calls)) && AllAdmissible(env, INITIAL, calls)
    ensures WellRooted(env, LogOf(RunFrom(env, INITIAL, calls))) <==>
      !exists i: nat, j: nat :: LostThenRecorded(calls, Results(env, START, calls), i, j)
  {
    DanglingIff(env, INITIAL, calls);
    RunIsWellRootedIff(env, calls);
  }
}
