/** Recording the events of an evaluation run: labelled timelines that share one journal and one
    identifier generator. */
module EventRecorder {
  import opened JsonValues
  import opened Journal
  import opened Normalization
  import opened LocalJournals
  import JsonText

  // ---------------------------------------------------------------- identifiers

  function Zeros(n: nat): string { if n == 0 then "" else "0" + Zeros(n - 1) }

  // The index in decimal, zero-padded to a width.
  function Padded(n: nat, width: nat): string {
    var digits := JsonText.NatText(n);
    if |digits| < width then Zeros(width - |digits|) + digits else digits
  }

  function EventId(scenario: string, seed: string, index: nat): string {
    "evt_" + scenario + "_" + seed + "_" + Padded(index, 3)
  }

  lemma {:induction false} LeadingZeros(n: nat, ds: string)
    requires forall i | 0 <= i < |ds| :: JsonText.IsDigit(ds[i])
    ensures forall i | 0 <= i < |Zeros(n) + ds| :: JsonText.IsDigit((Zeros(n) + ds)[i])
    ensures JsonText.NatValue(Zeros(n) + ds) == JsonText.NatValue(ds)
    decreases n, |ds|
  {
    if ds != [] {
      var init := ds[..|ds| - 1];
      LeadingZeros(n, init);
      assert (Zeros(n) + ds)[..|Zeros(n) + ds| - 1] == Zeros(n) + init;
    } else if n > 0 {
      LeadingZeros(n - 1, "");
      ZerosEnd(n);
      assert Zeros(n) + "" == Zeros(n) && Zeros(n - 1) + "" == Zeros(n - 1);
    }
  }

  lemma {:induction false} ZerosEnd(n: nat)
    ensures |Zeros(n)| == n
    ensures n > 0 ==> Zeros(n)[..n - 1] == Zeros(n - 1) && Zeros(n)[n - 1] == '0'
  {
    if n > 0 {
      ZerosEnd(n - 1);
      if n > 1 { assert Zeros(n)[..n - 1] == "0" + Zeros(n - 1)[..n - 2]; }
    }
  }

  lemma PaddedValue(n: nat, width: nat)
    ensures forall i | 0 <= i < |Padded(n, width)| :: JsonText.IsDigit(Padded(n, width)[i])
    ensures JsonText.NatValue(Padded(n, width)) == n
  {
    var digits := JsonText.NatText(n);
    JsonText.NatTextProperties(n);
    if |digits| < width { LeadingZeros(width - |digits|, digits); }
  }

  lemma SuffixAgrees(prefix: string, a: string, b: string)
    requires prefix + a == prefix + b
    ensures a == b
  {
    assert (prefix + a)[|prefix|..] == a && (prefix + b)[|prefix|..] == b;
  }

  lemma PrefixAgrees(a: string, b: string, suffix: string)
    requires a + suffix == b + suffix
    ensures a == b
  {
    assert |a| == |b| && (a + suffix)[..|a|] == a && (b + suffix)[..|b|] == b;
  }

  lemma {:induction false} NoLeadingZero(n: nat)
    ensures n > 0 ==> JsonText.NatText(n)[0] != '0'
    ensures n < 10 ==> |JsonText.NatText(n)| == 1
  {
    JsonText.NatTextProperties(n);
  }

  /** An identifier ends in its index in decimal, with zeros in front up to three digits. */
  lemma EventIdIs(scenario: string, seed: string, index: nat) returns (digits: string)
    ensures EventId(scenario, seed, index) == "evt_" + scenario + "_" + seed + "_" + digits
    ensures (forall i | 0 <= i < |digits| :: JsonText.IsDigit(digits[i])) && JsonText.NatValue(digits) == index
    ensures |digits| >= 3 && (|digits| > 3 ==> digits[0] != '0')
  {
    digits := Padded(index, 3);
    PaddedValue(index, 3);
    NoLeadingZero(index);
    var plain := JsonText.NatText(index);
    if |plain| < 3 { ZerosEnd(3 - |plain|); }
  }

  /** No identifier is handed out twice. */
  lemma EventIdsDiffer(scenario: string, seed: string, i: nat, j: nat)
    requires EventId(scenario, seed, i) == EventId(scenario, seed, j)
    ensures i == j
  {
    SuffixAgrees("evt_" + scenario + "_" + seed + "_", Padded(i, 3), Padded(j, 3));
    PaddedValue(i, 3);
    PaddedValue(j, 3);
  }

  // ---------------------------------------------------------------- the recorder's steps

  // Scenario name in lower case and formatted seed; sources and principals are opaque values.
  datatype Env = Env(
    scenario: string,
    seed: string,
    source: string -> Json,
    principal: Json,
    classification: Json,
    now: Times,
    codec: Codec,
    persist: Event -> Persisted,
    disk: nat -> Option<string>)

  function IdOf(env: Env): nat -> string { (index: nat) => EventId(env.scenario, env.seed, index) }

  function Suffix(timeline: string): string { if timeline == "" then "" else "_" + timeline }

  function RunId(env: Env, timeline: string): string { "run_" + env.scenario + Suffix(timeline) + "_" + env.seed }

  function TraceId(env: Env): string { "trace_" + env.scenario + "_" + env.seed }

  // Keys in order, as events are held.
  function Correlation(env: Env, timeline: string): Json {
    Obj([Member("run_id", Str(RunId(env, timeline))), Member("trace_id", Str(TraceId(env)))])
  }

  function DefaultsFor(env: Env, timeline: string): Defaults {
    Defaults(Correlation(env, timeline), env.source(timeline), env.principal, env.classification)
  }

  datatype Call = Call(
    timeline: Option<string>,
    eventType: string,
    payload: seq<Member>,
    source: Option<Json>,
    principal: Option<Json>,
    classification: Option<Json>,
    parent: Option<string>,
    root: Option<string>)

  // No label and the empty label name the same timeline.
  function Timeline(timeline: Option<string>): string { match timeline case None => "" case Some(l) => l }

  datatype State = State(events: seq<Event>, positions: map<string, Position>, nextId: nat)

  // What a call comes to: an event, an error before the timeline moved, or one after.
  datatype Recorded = Recorded(event: Event) | Rejected | Lost

  function PositionOf(st: State, key: string): Position {
    if key in st.positions then st.positions[key] else FRESH
  }

  function Normalized(env: Env, position: Position, nextId: nat, call: Call): Option<(Event, Position)> {
    RecordEvent(position, EventId(env.scenario, env.seed, nextId), call.eventType, call.payload,
                ContextOf(DefaultsFor(env, Timeline(call.timeline)), call.source, call.principal,
                          call.classification, env.now),
                call.parent, call.root)
  }

  function Record(env: Env, st: State, call: Call): (State, Recorded) {
    var key := Timeline(call.timeline);
    Finish(env, st, key, Normalized(env, PositionOf(st, key), st.nextId, call))
  }

  // What follows normalization: the timeline moves, and the event is appended.
  function Finish(env: Env, st: State, key: string, made: Option<(Event, Position)>): (State, Recorded) {
    match made
    case None => (State(st.events, st.positions[key := PositionOf(st, key)], st.nextId + 1), Rejected)
    case Some((e, position)) =>
      var moved := State(st.events, st.positions[key := position], st.nextId + 1);
      match Append(env, st, e)
      case None => (moved, Lost)
      case Some(p) => (moved.(events := st.events + [p]), Recorded(p))
  }

  // The event numbered by its place among all events, prepared and written.
  function Append(env: Env, st: State, e: Event): Option<Event> {
    match Prepare(env.codec, env.persist, e.(sequence := |st.events|), TerminalHash(st.events, |st.events|))
    case Kept(p) => if env.disk(st.nextId).None? then Some(p) else None
    case _ => None
  }

  const START := State([], map[], 0)

  // ---------------------------------------------------------------- timelines

  // Identifiers come from the generator.
  ghost predicate Issued(env: Env, id: string, bound: nat) {
    exists n | 0 <= n < bound :: EventId(env.scenario, env.seed, n) == id
  }

  // An event as the recorder makes it: its identifiers are among the first n, its run is that of one
  // of these timelines.
  ghost predicate OfRecorder(env: Env, e: Event, n: nat, timelines: set<string>) {
    && Issued(env, e.id, n) && Issued(env, e.root, n) && (e.parent.Some? ==> Issued(env, e.parent.value, n))
    && exists key | key in timelines :: e.context.correlation == Correlation(env, key)
  }

  ghost predicate SameIdentity(r: Event, e: Event) {
    && r.id == e.id && r.sequence == e.sequence && r.root == e.root && r.parent == e.parent
    && r.context.correlation == e.context.correlation
  }

  /** The recorder's policy leaves its own identifiers, sequences and runs alone. */
  ghost predicate KeepsEnvelope(env: Env, n: nat, timelines: set<string>) {
    forall e | env.persist(e).Kept? && OfRecorder(env, e, n, timelines) :: SameIdentity(env.persist(e).event, e)
  }

  // A log of events and the timeline each was recorded for.
  datatype Log = Log(events: seq<Event>, owners: seq<string>)

  ghost predicate Follows(log: Log, i: nat, j: nat)
    requires i < |log.events| == |log.owners| && j < |log.events|
  {
    i < j && log.owners[i] == log.owners[j] && log.events[j].parent == Some(log.events[i].id)
  }

  // The first event of a timeline has no parent and is its own root.
  ghost predicate IsRoot(log: Log, i: nat)
    requires i < |log.events| == |log.owners|
  {
    && (forall j | 0 <= j < i :: log.owners[j] != log.owners[i])
    && log.events[i].parent.None? && log.events[i].root == log.events[i].id
  }

  ghost predicate Placed(env: Env, log: Log, i: nat)
    requires i < |log.events| == |log.owners|
  {
    && log.events[i].sequence == i
    && log.events[i].context.correlation == Correlation(env, log.owners[i])
    && (IsRoot(log, i) || exists j | 0 <= j < i :: Follows(log, j, i) && log.events[j].root == log.events[i].root)
  }

  ghost predicate DistinctIds(es: seq<Event>) { forall i, j | 0 <= i < j < |es| :: es[i].id != es[j].id }

  /** Every event has its place as sequence, carries the run of its timeline, and is the first event
      of its timeline or has an earlier event of the same timeline and root as its parent. */
  ghost predicate WellRooted(env: Env, log: Log) {
    && |log.owners| == |log.events|
    && DistinctIds(log.events)
    && forall i | 0 <= i < |log.events| :: Placed(env, log, i)
  }

  // Going from parent to parent leads from event i to event r.
  ghost predicate Leads(log: Log, i: nat, r: nat)
    requires i < |log.events| == |log.owners|
    decreases i
  {
    i == r || exists j | 0 <= j < i :: Follows(log, j, i) && Leads(log, j, r)
  }

  /** From every event, parents lead strictly backwards within its timeline to the timeline's first
      event, whose identifier is the event's root. */
  lemma {:induction false} ParentsLeadToRoot(env: Env, log: Log, i: nat) returns (r: nat)
    requires WellRooted(env, log) && i < |log.events|
    ensures r <= i && IsRoot(log, r) && Leads(log, i, r)
    ensures log.owners[r] == log.owners[i] && log.events[i].root == log.events[r].id
    decreases i
  {
    assert Placed(env, log, i);
    if IsRoot(log, i) {
      r := i;
    } else {
      var j :| 0 <= j < i && Follows(log, j, i) && log.events[j].root == log.events[i].root;
      r := ParentsLeadToRoot(env, log, j);
    }
  }

  /** Events carry the same run exactly when they belong to the same timeline. */
  lemma RunsNeverMix(env: Env, log: Log, i: nat, j: nat)
    requires WellRooted(env, log) && i < |log.events| && j < |log.events|
    ensures log.events[i].context.correlation == log.events[j].context.correlation <==> log.owners[i] == log.owners[j]
  {
    assert Placed(env, log, i) && Placed(env, log, j);
    if Correlation(env, log.owners[i]) == Correlation(env, log.owners[j]) {
      RunIdsDiffer(env, log.owners[i], log.owners[j]);
    }
  }

  lemma RunIdsDiffer(env: Env, a: string, b: string)
    requires Correlation(env, a) == Correlation(env, b)
    ensures a == b
  {
    assert Correlation(env, a).members[0] == Correlation(env, b).members[0];
    PrefixAgrees("run_" + env.scenario + Suffix(a) + "_", "run_" + env.scenario + Suffix(b) + "_", env.seed);
    PrefixAgrees("run_" + env.scenario + Suffix(a), "run_" + env.scenario + Suffix(b), "_");
    SuffixAgrees("run_" + env.scenario, Suffix(a), Suffix(b));
    if a != "" && b != "" { SuffixAgrees("_", a, b); }
  }

  // ---------------------------------------------------------------- any interleaving of calls

  // pending: timelines whose last normalized event was lost. dangling: on such a timeline, a call without
  // an explicit parent was recorded next.
  datatype Run = Run(state: State, owners: seq<string>, pending: set<string>, dangling: bool)

  function LogOf(run: Run): Log { Log(run.state.events, run.owners) }

  function Step(env: Env, run: Run, call: Call): Run {
    var key := Timeline(call.timeline);
    var (st, result) := Record(env, run.state, call);
    match result
    case Recorded(_) =>
      Run(st, run.owners + [key], run.pending - {key}, run.dangling || (key in run.pending && call.parent.None?))
    case Rejected => run.(state := st)
    case Lost => run.(state := st, pending := run.pending + {key})
  }

  function RunFrom(env: Env, run: Run, calls: seq<Call>): Run
    decreases |calls|
  {
    if calls == [] then run else RunFrom(env, Step(env, run, calls[0]), calls[1..])
  }

  const INITIAL := Run(START, [], {}, false)

  // An explicit parent is an earlier event of the same timeline; roots are never explicit.
  ghost predicate Admissible(run: Run, call: Call)
    requires |run.owners| == |run.state.events|
  {
    && call.root.None?
    && (call.parent.Some? ==>
          exists j | 0 <= j < |run.owners| ::
            run.owners[j] == Timeline(call.timeline) && run.state.events[j].id == call.parent.value)
  }

  ghost predicate AllAdmissible(env: Env, run: Run, calls: seq<Call>)
    requires |run.owners| == |run.state.events|
    decreases |calls|
  {
    calls == [] || (Admissible(run, calls[0]) && AllAdmissible(env, Step(env, run, calls[0]), calls[1..]))
  }

  ghost predicate RootShared(run: Run, key: string, root: string)
    requires |run.owners| == |run.state.events|
  {
    forall j | 0 <= j < |run.owners| && run.owners[j] == key :: run.state.events[j].root == root
  }

  ghost predicate NamesOwn(run: Run, key: string, id: string)
    requires |run.owners| == |run.state.events|
  {
    exists j | 0 <= j < |run.owners| :: run.owners[j] == key && run.state.events[j].id == id
  }

  ghost predicate NamesNone(run: Run, id: string) {
    forall j | 0 <= j < |run.state.events| :: run.state.events[j].id != id
  }

  // A timeline's position names its root, shared by its events, and the last event normalized for it:
  // one of its own, or a lost one.
  ghost predicate Tracked(env: Env, run: Run, key: string)
    requires |run.owners| == |run.state.events|
  {
    var p := PositionOf(run.state, key);
    if key in run.owners || key in run.pending
    then p.root.Some? && p.last.Some? && RootShared(run, key, p.root.value)
         && Issued(env, p.root.value, run.state.nextId) && Issued(env, p.last.value, run.state.nextId)
         && (if key in run.pending then NamesNone(run, p.last.value) else NamesOwn(run, key, p.last.value))
    else p.root.None? && p.last.None?
  }

  ghost predicate Sane(env: Env, run: Run) {
    && WellRooted(env, LogOf(run))
    && (forall i | 0 <= i < |run.state.events| :: Issued(env, run.state.events[i].id, run.state.nextId))
    && forall key :: Tracked(env, run, key)
  }

  lemma NewIdIsNew(env: Env, id: string, bound: nat)
    requires Issued(env, id, bound)
    ensures id != EventId(env.scenario, env.seed, bound)
    ensures id != "" && Issued(env, id, bound + 1)
  {
    var n :| 0 <= n < bound && EventId(env.scenario, env.seed, n) == id;
    if id == EventId(env.scenario, env.seed, bound) { EventIdsDiffer(env.scenario, env.seed, n, bound); }
  }

  lemma RootIff(log: Log, longer: Log, i: nat)
    requires i < |log.events| == |log.owners| && i < |longer.events| == |longer.owners|
    requires forall j | 0 <= j <= i :: longer.owners[j] == log.owners[j] && longer.events[j] == log.events[j]
    ensures IsRoot(longer, i) <==> IsRoot(log, i)
  {
    if IsRoot(longer, i) { forall j | 0 <= j < i ensures log.owners[j] != log.owners[i] { assert longer.owners[j] != longer.owners[i]; } }
  }

  // Whether an event is in its place does not depend on what comes later.
  lemma PlacedIff(env: Env, log: Log, e: Event, owner: string, i: nat)
    requires i < |log.events| == |log.owners|
    ensures Placed(env, Log(log.events + [e], log.owners + [owner]), i) <==> Placed(env, log, i)
  {
    var longer := Log(log.events + [e], log.owners + [owner]);
    forall j | 0 <= j <= i ensures longer.owners[j] == log.owners[j] && longer.events[j] == log.events[j] {}
    RootIff(log, longer, i);
    forall j | 0 <= j < i ensures Follows(longer, j, i) <==> Follows(log, j, i) {}
  }

  lemma LogGrows(env: Env, run: Run, e: Event, owner: string)
    requires Sane(env, run) && e.id == EventId(env.scenario, env.seed, run.state.nextId)
    requires Placed(env, Log(run.state.events + [e], run.owners + [owner]), |run.owners|)
    ensures WellRooted(env, Log(run.state.events + [e], run.owners + [owner]))
    ensures forall i | 0 <= i <= |run.state.events| ::
      Issued(env, (run.state.events + [e])[i].id, run.state.nextId + 1)
  {
    var log := LogOf(run);
    forall i | 0 <= i < |log.events|
      ensures Placed(env, Log(log.events + [e], log.owners + [owner]), i)
      ensures log.events[i].id != e.id && Issued(env, log.events[i].id, run.state.nextId + 1)
    {
      assert Placed(env, log, i);
      PlacedIff(env, log, e, owner, i);
      NewIdIsNew(env, log.events[i].id, run.state.nextId);
    }
    assert EventId(env.scenario, env.seed, run.state.nextId) == e.id;
  }

  // ---------------------------------------------------------------- one call

  // The policy leaves alone what the call's event can name.
  ghost predicate KeepsCall(env: Env, run: Run, call: Call) {
    KeepsEnvelope(env, run.state.nextId + 1, {Timeline(call.timeline)})
  }

  // The event the call's normalizer built.
  ghost predicate Built(env: Env, run: Run, call: Call, e: Event, q: Position) {
    Normalized(env, PositionOf(run.state, Timeline(call.timeline)), run.state.nextId, call) == Some((e, q))
  }

  lemma BuiltEvent(env: Env, run: Run, call: Call, e: Event, q: Position)
    requires Built(env, run, call, e, q) && call.root.None?
    ensures
      var p := PositionOf(run.state, Timeline(call.timeline));
      && e.id == EventId(env.scenario, env.seed, run.state.nextId)
      && e.context.correlation == Correlation(env, Timeline(call.timeline))
      && q.root == Some(e.root) && q.last == Some(e.id)
      && (if p.root.None? && call.parent.None? then e.parent.None? && e.root == e.id
          else p.root == Some(e.root) && e.parent == Or(call.parent, p.last))
  {
  }

  // Its root and parent are identifiers of the recorder.
  lemma BuiltIsIssued(env: Env, run: Run, call: Call, e: Event, q: Position)
    requires Sane(env, run) && Admissible(run, call) && Built(env, run, call, e, q)
    ensures OfRecorder(env, e, run.state.nextId + 1, {Timeline(call.timeline)})
  {
    var key, n := Timeline(call.timeline), run.state.nextId;
    BuiltEvent(env, run, call, e, q);
    assert Tracked(env, run, key);
    assert EventId(env.scenario, env.seed, n) == e.id;
    assert Issued(env, e.id, n + 1);
    if call.parent.Some? {
      var j :| 0 <= j < |run.owners| && run.owners[j] == key && run.state.events[j].id == call.parent.value;
      NewIdIsNew(env, run.state.events[j].id, n);
    }
    var p := PositionOf(run.state, key);
    if p.root.Some? {
      NewIdIsNew(env, p.root.value, n);
      NewIdIsNew(env, p.last.value, n);
    }
  }

  // What a recorded call adds.
  lemma RecordedEvent(env: Env, run: Run, call: Call, e: Event, q: Position)
    requires KeepsCall(env, run, call) && Sane(env, run) && Admissible(run, call) && Built(env, run, call, e, q)
    requires Record(env, run.state, call).1.Recorded?
    ensures
      var (st, result) := Record(env, run.state, call);
      && st.events == run.state.events + [result.event] && st.nextId == run.state.nextId + 1
      && st.positions == run.state.positions[Timeline(call.timeline) := q]
      && result.event.id == e.id && result.event.root == e.root && result.event.parent == e.parent
      && result.event.sequence == |run.state.events|
      && result.event.context.correlation == e.context.correlation
  {
    BuiltIsIssued(env, run, call, e, q);
    var sent := e.(sequence := |run.state.events|);
    var last := TerminalHash(run.state.events, |run.state.events|);
    assert OfRecorder(env, sent.(previousHash := last, hash := None), run.state.nextId + 1, {Timeline(call.timeline)});
    assert Redacted(env.persist, sent, last).Kept?;
  }

  lemma NewEventIsPlaced(env: Env, run: Run, call: Call, e: Event, q: Position)
    requires KeepsCall(env, run, call) && Sane(env, run) && Admissible(run, call) && Built(env, run, call, e, q)
    requires Record(env, run.state, call).1.Recorded?
    requires Timeline(call.timeline) in run.pending ==> call.parent.Some?
    ensures Placed(env, LogOf(Step(env, run, call)), |run.owners|)
  {
    var key, n, longer := Timeline(call.timeline), |run.owners|, LogOf(Step(env, run, call));
    BuiltEvent(env, run, call, e, q);
    RecordedEvent(env, run, call, e, q);
    assert Tracked(env, run, key);
    if key in run.owners {
      var j := ParentIn(env, run, call, e);
      assert Follows(longer, j, n);
    } else {
      assert call.parent.None?;
      assert IsRoot(longer, n);
    }
  }

  lemma ParentIn(env: Env, run: Run, call: Call, e: Event) returns (j: nat)
    requires Sane(env, run) && Admissible(run, call) && Timeline(call.timeline) in run.owners
    requires Timeline(call.timeline) in run.pending ==> call.parent.Some?
    requires e.parent == Or(call.parent, PositionOf(run.state, Timeline(call.timeline)).last)
    requires PositionOf(run.state, Timeline(call.timeline)).root == Some(e.root)
    ensures j < |run.owners| && run.owners[j] == Timeline(call.timeline)
    ensures e.parent == Some(run.state.events[j].id) && run.state.events[j].root == e.root
  {
    var key := Timeline(call.timeline);
    var p := PositionOf(run.state, key);
    assert Tracked(env, run, key);
    if call.parent.Some? {
      j :| 0 <= j < |run.owners| && run.owners[j] == key && run.state.events[j].id == call.parent.value;
    } else {
      j :| 0 <= j < |run.owners| && run.owners[j] == key && run.state.events[j].id == p.last.value;
    }
    NewIdIsNew(env, run.state.events[j].id, run.state.nextId);
  }

  // ---------------------------------------------------------------- keeping track

  // The run went on without touching this timeline.
  ghost predicate Passes(env: Env, run: Run, after: Run, key: string) {
    && PositionOf(after.state, key) == PositionOf(run.state, key) && after.state.nextId == run.state.nextId + 1
    && run.state.events <= after.state.events && run.owners <= after.owners
    && |run.owners| == |run.state.events| && |after.owners| == |after.state.events|
    && (key in after.pending <==> key in run.pending)
    && forall j | |run.owners| <= j < |after.owners| ::
         after.owners[j] != key && after.state.events[j].id == EventId(env.scenario, env.seed, run.state.nextId)
  }

  lemma OtherPasses(env: Env, run: Run, call: Call, key: string)
    requires |run.owners| == |run.state.events| && key != Timeline(call.timeline)
    requires Record(env, run.state, call).1.Recorded? ==>
      Record(env, run.state, call).1.event.id == EventId(env.scenario, env.seed, run.state.nextId)
    ensures Passes(env, run, Step(env, run, call), key)
  {
  }

  lemma PassingStaysTracked(env: Env, run: Run, after: Run, key: string)
    requires Passes(env, run, after, key) && Tracked(env, run, key)
    ensures Tracked(env, after, key)
  {
    var p := PositionOf(run.state, key);
    if key in run.owners || key in run.pending {
      NewIdIsNew(env, p.root.value, run.state.nextId);
      NewIdIsNew(env, p.last.value, run.state.nextId);
      if key !in run.pending {
        var j :| 0 <= j < |run.owners| && run.owners[j] == key && run.state.events[j].id == p.last.value;
        assert after.owners[j] == key && after.state.events[j].id == p.last.value;
      }
    }
  }

  lemma OtherStaysTracked(env: Env, run: Run, call: Call, key: string)
    requires Sane(env, run) && key != Timeline(call.timeline)
    requires Record(env, run.state, call).1.Recorded? ==>
      Record(env, run.state, call).1.event.id == EventId(env.scenario, env.seed, run.state.nextId)
    ensures Tracked(env, Step(env, run, call), key)
  {
    OtherPasses(env, run, call, key);
    PassingStaysTracked(env, run, Step(env, run, call), key);
  }

  lemma {:induction false} RecordedStaysTracked(env: Env, run: Run, call: Call, e: Event, q: Position)
    requires KeepsCall(env, run, call) && Sane(env, run) && Admissible(run, call) && Built(env, run, call, e, q)
    requires Record(env, run.state, call).1.Recorded?
    ensures Tracked(env, Step(env, run, call), Timeline(call.timeline))
  {
    var key, n, after := Timeline(call.timeline), |run.owners|, Step(env, run, call);
    BuiltEvent(env, run, call, e, q);
    BuiltIsIssued(env, run, call, e, q);
    RecordedEvent(env, run, call, e, q);
    assert Tracked(env, run, key);
    assert after.owners[n] == key && after.state.events[n].id == e.id;
    assert EventId(env.scenario, env.seed, run.state.nextId) == e.id;
    forall j | 0 <= j < |after.owners| && after.owners[j] == key ensures after.state.events[j].root == e.root {
      if j < n { assert run.owners[j] == key; }
    }
  }

  lemma {:induction false} LostStaysTracked(env: Env, run: Run, call: Call, e: Event, q: Position)
    requires Sane(env, run) && Admissible(run, call) && Built(env, run, call, e, q)
    requires Record(env, run.state, call).1.Lost?
    ensures Tracked(env, Step(env, run, call), Timeline(call.timeline))
  {
    var key, after := Timeline(call.timeline), Step(env, run, call);
    BuiltEvent(env, run, call, e, q);
    BuiltIsIssued(env, run, call, e, q);
    assert Tracked(env, run, key);
    assert EventId(env.scenario, env.seed, run.state.nextId) == e.id;
    forall j | 0 <= j < |run.state.events| ensures run.state.events[j].id != e.id {
      NewIdIsNew(env, run.state.events[j].id, run.state.nextId);
    }
    assert RootShared(after, key, e.root);
  }

  lemma {:induction false} RecordedKeepsSane(env: Env, run: Run, call: Call, e: Event, q: Position)
    requires KeepsCall(env, run, call) && Sane(env, run) && Admissible(run, call) && Built(env, run, call, e, q)
    requires Record(env, run.state, call).1.Recorded?
    requires Timeline(call.timeline) in run.pending ==> call.parent.Some?
    ensures Sane(env, Step(env, run, call))
  {
    var r, after := Record(env, run.state, call).1.event, Step(env, run, call);
    BuiltEvent(env, run, call, e, q);
    RecordedEvent(env, run, call, e, q);
    NewEventIsPlaced(env, run, call, e, q);
    LogGrows(env, run, r, Timeline(call.timeline));
    forall key ensures Tracked(env, after, key) {
      if key == Timeline(call.timeline) {
        RecordedStaysTracked(env, run, call, e, q);
      } else {
        OtherStaysTracked(env, run, call, key);
      }
    }
  }

  lemma UnrecordedKeepsSane(env: Env, run: Run, call: Call)
    requires Sane(env, run) && Admissible(run, call) && !Record(env, run.state, call).1.Recorded?
    ensures Sane(env, Step(env, run, call))
  {
    var after, key := Step(env, run, call), Timeline(call.timeline);
    forall i | 0 <= i < |run.state.events| ensures Issued(env, after.state.events[i].id, after.state.nextId) {
      NewIdIsNew(env, run.state.events[i].id, run.state.nextId);
    }
    forall k ensures Tracked(env, after, k) {
      if k != key {
        OtherStaysTracked(env, run, call, k);
      } else if Record(env, run.state, call).1.Lost? {
        var (e, q) := Normalized(env, PositionOf(run.state, key), run.state.nextId, call).value;
        LostStaysTracked(env, run, call, e, q);
      } else {
        RejectedStaysTracked(env, run, call);
      }
    }
  }

  lemma RejectedStaysTracked(env: Env, run: Run, call: Call)
    requires Sane(env, run) && Record(env, run.state, call).1.Rejected?
    ensures Tracked(env, Step(env, run, call), Timeline(call.timeline))
  {
    var key := Timeline(call.timeline);
    var p := PositionOf(run.state, key);
    assert Tracked(env, run, key);
    if key in run.owners || key in run.pending {
      NewIdIsNew(env, p.root.value, run.state.nextId);
      NewIdIsNew(env, p.last.value, run.state.nextId);
    }
  }

  // ---------------------------------------------------------------- dangling parents

  /** On a timeline whose last event was lost, the next event recorded without an explicit parent names
      the lost one, which no event of the log is. */
  lemma LostEventIsNamedAsParent(env: Env, run: Run, call: Call)
    requires KeepsCall(env, run, call) && Sane(env, run) && Admissible(run, call)
    requires Record(env, run.state, call).1.Recorded?
    requires Timeline(call.timeline) in run.pending && call.parent.None?
    ensures
      var after, parent := Step(env, run, call), Record(env, run.state, call).1.event.parent;
      parent.Some? && NamesNone(after, parent.value) && !WellRooted(env, LogOf(after))
  {
    var key, n, after := Timeline(call.timeline), |run.owners|, Step(env, run, call);
    var (e, q) := Normalized(env, PositionOf(run.state, key), run.state.nextId, call).value;
    assert Tracked(env, run, key);
    BuiltEvent(env, run, call, e, q);
    RecordedEvent(env, run, call, e, q);
    NewIdIsNew(env, PositionOf(run.state, key).last.value, run.state.nextId);
    assert NamesNone(after, PositionOf(run.state, key).last.value);
    assert !Placed(env, LogOf(after), n);
  }

  // A log that is not well rooted never becomes so.
  ghost predicate Misplaced(env: Env, log: Log, i: nat) {
    i < |log.events| == |log.owners| && !Placed(env, log, i)
  }

  lemma StepKeepsLengths(env: Env, run: Run, call: Call)
    requires |run.owners| == |run.state.events|
    ensures |Step(env, run, call).owners| == |Step(env, run, call).state.events|
  {
  }

  lemma StepKeepsMisplaced(env: Env, run: Run, call: Call, i: nat)
    requires Misplaced(env, LogOf(run), i)
    ensures Misplaced(env, LogOf(Step(env, run, call)), i)
  {
    var result := Record(env, run.state, call).1;
    if result.Recorded? { PlacedIff(env, LogOf(run), result.event, Timeline(call.timeline), i); }
  }

  // A run is sane, or has dangled and holds a misplaced event.
  ghost predicate Accounted(env: Env, run: Run) {
    |run.owners| == |run.state.events|
    && if run.dangling then exists i :: Misplaced(env, LogOf(run), i) else Sane(env, run)
  }

  lemma StepStaysAccounted(env: Env, run: Run, call: Call)
    requires KeepsCall(env, run, call) && Accounted(env, run) && Admissible(run, call)
    ensures Accounted(env, Step(env, run, call))
  {
    var key, result := Timeline(call.timeline), Record(env, run.state, call).1;
    StepKeepsLengths(env, run, call);
    if run.dangling {
      var i :| Misplaced(env, LogOf(run), i);
      StepKeepsMisplaced(env, run, call, i);
    } else if !result.Recorded? {
      UnrecordedKeepsSane(env, run, call);
    } else if key in run.pending && call.parent.None? {
      LostEventIsNamedAsParent(env, run, call);
      var after := Step(env, run, call);
      DistinctAfter(env, run, call);
      var i :| 0 <= i < |after.state.events| && !Placed(env, LogOf(after), i);
      assert Misplaced(env, LogOf(after), i);
    } else {
      var (e, q) := Normalized(env, PositionOf(run.state, key), run.state.nextId, call).value;
      RecordedKeepsSane(env, run, call, e, q);
    }
  }

  lemma DistinctAfter(env: Env, run: Run, call: Call)
    requires KeepsCall(env, run, call) && Sane(env, run) && Admissible(run, call)
    requires Record(env, run.state, call).1.Recorded?
    ensures DistinctIds(Step(env, run, call).state.events)
  {
    var (e, q) := Normalized(env, PositionOf(run.state, Timeline(call.timeline)), run.state.nextId, call).value;
    BuiltEvent(env, run, call, e, q);
    RecordedEvent(env, run, call, e, q);
    forall i | 0 <= i < |run.state.events| ensures run.state.events[i].id != e.id {
      NewIdIsNew(env, run.state.events[i].id, run.state.nextId);
    }
  }

  function Timelines(calls: seq<Call>): set<string> { set i | 0 <= i < |calls| :: Timeline(calls[i].timeline) }

  lemma KeepsFewer(env: Env, n: nat, timelines: set<string>, m: nat, fewer: set<string>)
    requires KeepsEnvelope(env, n, timelines) && m <= n && fewer <= timelines
    ensures KeepsEnvelope(env, m, fewer)
  {
    forall e | env.persist(e).Kept? && OfRecorder(env, e, m, fewer) ensures SameIdentity(env.persist(e).event, e) {
      var key :| key in fewer && e.context.correlation == Correlation(env, key);
      IssuedLater(env, e.id, m, n);
      IssuedLater(env, e.root, m, n);
      if e.parent.Some? { IssuedLater(env, e.parent.value, m, n); }
      assert OfRecorder(env, e, n, timelines);
    }
  }

  lemma IssuedLater(env: Env, id: string, m: nat, n: nat)
    requires Issued(env, id, m) && m <= n
    ensures Issued(env, id, n)
  {
  }

  lemma TimelinesOfRest(calls: seq<Call>)
    requires calls != []
    ensures {Timeline(calls[0].timeline)} <= Timelines(calls) && Timelines(calls[1..]) <= Timelines(calls)
  {
    forall i | 0 <= i < |calls[1..]| ensures Timeline(calls[1..][i].timeline) in Timelines(calls) {
      assert calls[1..][i] == calls[i + 1];
    }
  }

  lemma StepSpendsOne(env: Env, run: Run, call: Call)
    ensures Step(env, run, call).state.nextId == run.state.nextId + 1
  {
  }

  lemma {:induction false} RunStaysAccounted(env: Env, run: Run, calls: seq<Call>, n: nat, timelines: set<string>)
    requires KeepsEnvelope(env, n, timelines) && run.state.nextId + |calls| <= n && Timelines(calls) <= timelines
    requires Accounted(env, run) && AllAdmissible(env, run, calls)
    ensures Accounted(env, RunFrom(env, run, calls))
    decreases |calls|
  {
    if calls != [] {
      TimelinesOfRest(calls);
      KeepsFewer(env, n, timelines, run.state.nextId + 1, {Timeline(calls[0].timeline)});
      StepStaysAccounted(env, run, calls[0]);
      StepSpendsOne(env, run, calls[0]);
      RunStaysAccounted(env, Step(env, run, calls[0]), calls[1..], n, timelines);
    }
  }

  /** Any interleaving of calls leaves well-rooted timelines exactly when no lost event is followed, as
      the next event normalized for its timeline, by a recorded one without an explicit parent. */
  lemma RunIsWellRootedIff(env: Env, calls: seq<Call>)
    requires KeepsEnvelope(env, |calls|, Timelines(calls)) && AllAdmissible(env, INITIAL, calls)
    ensures WellRooted(env, LogOf(RunFrom(env, INITIAL, calls))) <==> !RunFrom(env, INITIAL, calls).dangling
  {
    forall key ensures Tracked(env, INITIAL, key) {}
    RunStaysAccounted(env, INITIAL, calls, |calls|, Timelines(calls));
    var run := RunFrom(env, INITIAL, calls);
    if run.dangling { var i :| Misplaced(env, LogOf(run), i); }
  }
}
