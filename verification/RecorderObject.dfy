/** The recorder with its dictionary of normalizers and its journal file, proved to do what `Record`
    says. */
module RecorderObject {
  import opened JsonValues
  import opened Journal
  import opened Normalization
  import opened LocalJournals
  import Spec = EventRecorder

  // What a normalizer made of a call: the event, and where the timeline stands then.
  function EventOf(made: Option<(Event, Position)>): Option<Event> {
    match made case None => None case Some((e, _)) => Some(e)
  }

  function Moved(at: Position, made: Option<(Event, Position)>): Position {
    match made case None => at case Some((_, position)) => position
  }

  lemma SetTwice(m: map<string, Position>, key: string, a: Position, b: Position)
    ensures m[key := a][key := b] == m[key := b]
  {
  }

  class EventRecorder {
    const env: Spec.Env
    const generator: IdGenerator
    const journal: LocalJournal
    var events: seq<Event>
    var normalizers: map<string, EvidenceNormalizer>

    ghost predicate Trusted() {
      env.codec.Sound() && Parses(env.codec, env.persist) && KeepsChainFields(env.codec, env.persist)
    }

    // The normalizers are one object per timeline, built for it, on the shared generator.
    ghost predicate Wired()
      reads this
    {
      && generator.ids == Spec.IdOf(env)
      && journal.codec == env.codec && journal.persist == env.persist && journal.disk == env.disk
      && (forall k | k in normalizers :: BuiltFor(normalizers[k], k))
      && (forall k, l | k in normalizers && l in normalizers && k != l :: normalizers[k] != normalizers[l])
    }

    ghost predicate BuiltFor(n: EvidenceNormalizer, key: string) {
      n.generator == generator && n.defaults == Spec.DefaultsFor(env, key) && forall i :: n.clock(i) == env.now
    }

    ghost predicate Valid()
      reads this, journal
    {
      Wired() && Verifies(env.codec, journal.raw, events)
    }

    ghost function View(): Spec.State
      reads this, generator, normalizers.Values
    {
      Spec.State(events, Positions(), generator.index)
    }

    ghost function Positions(): map<string, Position>
      reads this`normalizers, normalizers.Values
    {
      map k | k in normalizers :: normalizers[k].At()
    }

    constructor (env: Spec.Env)
      ensures Valid() && View() == Spec.START && this.env == env
      ensures fresh(generator) && fresh(journal)
    {
      this.env := env;
      generator := new IdGenerator(Spec.IdOf(env), 0);
      journal := new LocalJournal(env.codec, env.persist, env.disk, "");
      events, normalizers := [], map[];
    }

    /** The timeline's normalizer, built on first use. */
    method NormalizerFor(key: string) returns (n: EvidenceNormalizer)
      requires Wired()
      modifies this`normalizers
      ensures Wired() && key in normalizers && n == normalizers[key]
      ensures if key in old(normalizers) then n == old(normalizers[key]) else fresh(n)
      ensures normalizers == old(normalizers)[key := n]
      ensures Positions() == old(Positions())[key := n.At()]
      ensures n.At() == if key in old(normalizers) then old(Positions())[key] else FRESH
    {
      if key in normalizers { return normalizers[key]; }
      n := new EvidenceNormalizer(Spec.DefaultsFor(env, key), generator, (i: nat) => env.now);
      normalizers := normalizers[key := n];
    }

    // Moving one normalizer moves one position.
    twostate lemma OneMoved(key: string)
      requires Wired() && key in normalizers && normalizers == old(normalizers)
      requires unchanged(set k | k in normalizers && k != key :: normalizers[k])
      ensures Positions() == old(Positions())[key := normalizers[key].At()]
    {
      forall k | k in normalizers && k != key ensures normalizers[k].At() == old(normalizers[k].At()) {}
    }

    // The call's event from its timeline's normalizer, which exists.
    method NormalizeOn(n: EvidenceNormalizer, key: string, call: Spec.Call) returns (event: Option<Event>)
      requires Wired() && key == Spec.Timeline(call.timeline) && key in normalizers && n == normalizers[key]
      modifies generator, n
      ensures generator.index == old(generator.index) + 1
      ensures Positions() == old(Positions())[key := n.At()]
      ensures
        var made := Spec.Normalized(env, old(n.At()), old(generator.index), call);
        event == EventOf(made) && n.At() == Moved(old(n.At()), made)
    {
      event := n.Record(
        call.eventType, call.payload, call.source, call.principal, call.classification, call.parent, call.root);
      OneMoved(key);
    }

    // The call's event from its timeline's normalizer, built if need be.
    method Normalize(call: Spec.Call) returns (event: Option<Event>)
      requires Wired()
      modifies this`normalizers, generator, normalizers.Values
      ensures Wired() && generator.index == old(generator.index) + 1
      ensures forall k | k in normalizers :: k in old(normalizers) || fresh(normalizers[k])
      ensures
        var key := Spec.Timeline(call.timeline);
        var at := Spec.PositionOf(old(View()), key);
        var made := Spec.Normalized(env, at, old(generator.index), call);
        event == EventOf(made) && Positions() == old(Positions())[key := Moved(at, made)]
    {
      var key := Spec.Timeline(call.timeline);
      var normalizer := NormalizerFor(key);
      ghost var at, built := normalizer.At(), Positions();
      assert at == Spec.PositionOf(old(View()), key) && built == old(Positions())[key := at];
      event := NormalizeOn(normalizer, key, call);
      SetTwice(old(Positions()), key, at, normalizer.At());
    }

    // The event, numbered by its place, in the journal file; n numbers the write.
    method Write(e: Event, n: nat, ghost st: Spec.State) returns (written: Option<Event>)
      requires Valid() && Trusted() && st.events == events && st.nextId == n
      modifies this`events, journal
      ensures Valid() && written == Spec.Append(env, st, e)
      ensures events == if written.Some? then old(events) + [written.value] else old(events)
    {
      var numbered := e.(sequence := |events|);
      assert Verifies(env.codec, journal.raw, events) && numbered.sequence == |events|;
      ghost var raw := journal.raw;
      var appended := journal.Append(numbered, n);
      if !appended.Written? { return None; }
      AppendVerifies(env.codec, env.persist, raw, events, numbered);
      VerifiesIff(env.codec, raw, events);
      TextOfAppend(env.codec, events, appended.event);
      events := events + [appended.event];
      return Some(appended.event);
    }

    /** Record one event: the new state and the result are those of `Record`. */
    method Record(call: Spec.Call) returns (result: Spec.Recorded)
      requires Valid() && Trusted()
      modifies this, generator, journal, normalizers.Values
      ensures Valid()
      ensures (View(), result) == Spec.Record(env, old(View()), call)
      ensures forall k | k in normalizers :: k in old(normalizers) || fresh(normalizers[k])
    {
      ghost var before, key := View(), Spec.Timeline(call.timeline);
      ghost var made := Spec.Normalized(env, Spec.PositionOf(before, key), before.nextId, call);
      var index := generator.index;
      var event := Normalize(call);
      assert Spec.Record(env, before, call) == Spec.Finish(env, before, key, made);
      if event.None? { return Spec.Rejected; }
      var written := Write(event.value, index, before);
      return if written.Some? then Spec.Recorded(written.value) else Spec.Lost;
    }
  }
}
