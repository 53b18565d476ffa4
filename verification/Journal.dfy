/** The hash-chained event journal: preparing, appending, verifying.
    Event serialization, its parser and SHA-256 are parameters. */
module Journal {
  import opened JsonValues

  // The sub-objects of an envelope that the journal carries but does not look into.
  datatype Context = Context(
    correlation: Json,
    source: Json,
    principal: Json,
    classification: Json,
    occurredAt: Json,
    observedAt: Json)

  datatype Event = Event(
    id: string,
    eventType: string,
    sequence: int,
    root: string,
    parent: Option<string>,
    context: Context,
    payload: seq<Member>,
    canonicalization: string,
    previousHash: Option<string>,
    hash: Option<string>)

  const APPEND_ERROR := "JournalAppendError"

  const CANONICALIZATION_VERSION := "actionlineage.dev/json-deterministic-v0"

  // fits: the event nests little enough to be normalized, and so to be serialized; serializing any
  // other raises.
  datatype Codec = Codec(
    serialize: Event -> string,
    parse: string -> Option<Event>,
    digest: string -> string,
    valid: Event -> bool,
    fits: Event -> bool)
  {
    /** What the event model and its serializer promise: a validated event has a one-line text that
        parses back to it, parsing validates, and integrity fields can be replaced freely. */
    ghost predicate Sound() {
      && (forall e | valid(e) :: parse(serialize(e)) == Some(e))
      && (forall e | valid(e) :: serialize(e) != "" && '\n' !in serialize(e))
      && (forall text | parse(text).Some? :: valid(parse(text).value))
      && (forall e | valid(e) :: e.previousHash != Some("") && e.hash != Some(""))
      && (forall e, p, h | valid(e) && p != Some("") && h != Some("") :: valid(e.(previousHash := p, hash := h)))
      && (forall e, p, h | valid(e) :: fits(e.(previousHash := p, hash := h)) == fits(e))
      && (forall text :: digest(text) != "")
    }

    ghost predicate CollisionFree() { forall a, b | digest(a) == digest(b) :: a == b }
  }

  // A hash, or one of two refusals: an unsupported canonicalization label, an event that does not fit.
  datatype Hashed = Hash(value: string) | Unsupported | TooDeep

  function ComputeHash(c: Codec, e: Event): Hashed {
    if e.canonicalization != CANONICALIZATION_VERSION then Unsupported
    else if !c.fits(e.(hash := None)) then TooDeep
    else Hash(c.digest(c.serialize(e.(hash := None))))
  }

  // The event carries the hash computed over it.
  predicate Hashes(c: Codec, e: Event) { e.hash.Some? && ComputeHash(c, e) == Hash(e.hash.value) }

  // ---------------------------------------------------------------- preparing an event

  // What the redaction policy makes of an event on its way to persistence: the event that its
  // redacted text parses to, a text the event model rejects, or an exception that is neither a value
  // error nor a journal error, such as a refusal to redact.
  datatype Persisted = Kept(event: Event) | Invalid | Refused

  function Prepare(c: Codec, persist: Event -> Persisted, e: Event, previous: Option<string>): Persisted {
    if e.canonicalization != CANONICALIZATION_VERSION then Invalid
    else match persist(e.(previousHash := previous, hash := None))
      case Kept(r) =>
        (match ComputeHash(c, r)
         case Unsupported => Invalid
         case TooDeep => Refused
         case Hash(h) => Kept(r.(previousHash := previous, hash := Some(h))))
      case other => other
  }

  // The event the policy hands back for this append.
  function Redacted(persist: Event -> Persisted, e: Event, previous: Option<string>): Persisted {
    persist(e.(previousHash := previous, hash := None))
  }

  ghost predicate Parses(c: Codec, persist: Event -> Persisted) {
    forall e | persist(e).Kept? :: c.valid(persist(e).event)
  }

  /** A prepared event always carries the supplied previous hash and prints to a text that parses back;
      it carries the hash computed over it exactly when the policy kept the previous hash. */
  lemma PreparedHashIsRightIff(c: Codec, persist: Event -> Persisted, e: Event, previous: Option<string>)
    requires c.Sound() && c.CollisionFree() && Parses(c, persist)
    requires previous != Some("") && Prepare(c, persist, e, previous).Kept?
    ensures var p := Prepare(c, persist, e, previous).event;
      && p.previousHash == previous
      && c.valid(p) && c.fits(p) && c.parse(c.serialize(p)) == Some(p)
      && (Hashes(c, p) <==> Redacted(persist, e, previous).event.previousHash == previous)
  {
    var r := Redacted(persist, e, previous).event;
    var p := Prepare(c, persist, e, previous).event;
    var p0, r0 := p.(hash := None), r.(hash := None);
    assert p == r.(previousHash := previous, hash := p.hash);
    assert p0 == r.(previousHash := previous, hash := None) && r0 == r.(previousHash := r.previousHash, hash := None);
    assert c.parse(c.serialize(p0)) == Some(p0) && c.parse(c.serialize(r0)) == Some(r0);
  }

  // ---------------------------------------------------------------- the chain

  function TerminalHash(es: seq<Event>, k: nat): Option<string>
    requires k <= |es|
  {
    if k == 0 then None else es[k - 1].hash
  }

  // The event belongs at this index, after this hash.
  predicate Links(c: Codec, e: Event, index: nat, last: Option<string>) {
    e.sequence == index && e.previousHash == last && Hashes(c, e)
  }

  predicate LinksAt(c: Codec, es: seq<Event>, i: nat)
    requires i < |es|
  {
    Links(c, es[i], i, TerminalHash(es, i))
  }

  ghost predicate Chained(c: Codec, es: seq<Event>) { forall i | 0 <= i < |es| :: LinksAt(c, es, i) }

  lemma ChainGrows(c: Codec, es: seq<Event>, e: Event)
    requires Chained(c, es)
    ensures Chained(c, es + [e]) <==> Links(c, e, |es|, TerminalHash(es, |es|))
    ensures TerminalHash(es + [e], |es| + 1) == e.hash
  {
    var all := es + [e];
    assert TerminalHash(all, |es|) == TerminalHash(es, |es|);
    forall i | 0 <= i < |es| ensures LinksAt(c, all, i) {
      assert LinksAt(c, es, i);
      assert TerminalHash(all, i) == TerminalHash(es, i);
    }
    if Links(c, e, |es|, TerminalHash(es, |es|)) {
      assert LinksAt(c, all, |es|);
      forall i | 0 <= i < |all| ensures LinksAt(c, all, i) {}
    } else {
      assert !LinksAt(c, all, |es|);
    }
  }

  // A previous-hash field of a chain: absent, or some digest.
  ghost predicate Digested(c: Codec, h: Option<string>) { h.Some? ==> exists text :: h == Some(c.digest(text)) }

  /** What the policy must keep for an append to extend the chain. */
  ghost predicate KeepsChainFields(c: Codec, persist: Event -> Persisted) {
    forall e | persist(e).Kept? && Digested(c, e.previousHash) ::
      persist(e).event.previousHash == e.previousHash && persist(e).event.sequence == e.sequence
  }

  lemma TerminalIsDigested(c: Codec, es: seq<Event>)
    requires Chained(c, es)
    ensures Digested(c, TerminalHash(es, |es|))
  {
    if es != [] { assert LinksAt(c, es, |es| - 1); }
  }

  /** A prepared event links to the chain it was prepared for. */
  lemma PreparedEventLinks(c: Codec, persist: Event -> Persisted, es: seq<Event>, e: Event)
    requires c.Sound() && Parses(c, persist) && KeepsChainFields(c, persist)
    requires Chained(c, es) && e.sequence == |es|
    requires Prepare(c, persist, e, TerminalHash(es, |es|)).Kept?
    ensures Chained(c, es + [Prepare(c, persist, e, TerminalHash(es, |es|)).event])
  {
    var last := TerminalHash(es, |es|);
    var r := Redacted(persist, e, last).event;
    var p := Prepare(c, persist, e, last).event;
    TerminalIsDigested(c, es);
    assert persist(e.(previousHash := last, hash := None)) == Redacted(persist, e, last);
    assert r.previousHash == last && r.sequence == e.sequence;
    assert p.(hash := None) == r.(hash := None);
    ChainGrows(c, es, p);
  }

  /** Prepare events one after another, each numbered and linked for its place. */
  function PreparedAll(c: Codec, persist: Event -> Persisted, es: seq<Event>): Option<seq<Event>> {
    if es == [] then Some([])
    else match PreparedAll(c, persist, es[..|es| - 1])
      case None => None
      case Some(before) =>
        match Prepare(c, persist, es[|es| - 1].(sequence := |before|), TerminalHash(before, |before|))
        case Kept(p) => Some(before + [p])
        case _ => None
  }

  /** Whatever events are prepared one after another form a valid chain. */
  lemma {:induction false} PreparedAllIsChained(c: Codec, persist: Event -> Persisted, es: seq<Event>)
    requires c.Sound() && Parses(c, persist) && KeepsChainFields(c, persist) && PreparedAll(c, persist, es).Some?
    ensures
      var ps := PreparedAll(c, persist, es).value;
      |ps| == |es| && Chained(c, ps) && AllValid(c, ps)
  {
    if es != [] {
      var init, e := es[..|es| - 1], es[|es| - 1];
      PreparedAllIsChained(c, persist, init);
      var before := PreparedAll(c, persist, init).value;
      PreparedEventLinks(c, persist, before, e.(sequence := |before|));
      PreparedIsValid(c, persist, before, e.(sequence := |before|));
    }
  }

  // ---------------------------------------------------------------- lines of the file

  // The file's lines, each with its line feed; the last may lack one.
  function RawLines(raw: string): seq<string>
    decreases |raw|
  {
    if raw == "" then []
    else
      var k := LineEnd(raw);
      [raw[..k]] + RawLines(raw[k..])
  }

  function LineEnd(raw: string): (k: nat)
    requires raw != ""
    ensures 0 < k <= |raw|
  {
    if raw[0] == '\n' || |raw| == 1 then 1 else 1 + LineEnd(raw[1..])
  }

  function Join(lines: seq<string>): string {
    if lines == [] then "" else lines[0] + Join(lines[1..])
  }

  lemma {:induction false} JoinOfRawLines(raw: string)
    ensures Join(RawLines(raw)) == raw
    decreases |raw|
  {
    if raw != "" {
      var k := LineEnd(raw);
      JoinOfRawLines(raw[k..]);
      var lines := RawLines(raw);
      assert lines[1..] == RawLines(raw[k..]);
      assert raw == raw[..k] + raw[k..];
    }
  }

  lemma {:induction false} LineEndOfLine(text: string, rest: string)
    requires '\n' !in text
    ensures LineEnd(text + "\n" + rest) == |text| + 1
  {
    var raw := text + "\n" + rest;
    if text != "" {
      assert raw[1..] == text[1..] + "\n" + rest;
      assert raw[0] == text[0] && text[0] in text;
      LineEndOfLine(text[1..], rest);
    }
  }

  lemma RawLinesOfLine(text: string, rest: string)
    requires '\n' !in text
    ensures RawLines(text + "\n" + rest) == [text + "\n"] + RawLines(rest)
  {
    var raw := text + "\n" + rest;
    LineEndOfLine(text, rest);
    assert raw[..|text| + 1] == text + "\n" && raw[|text| + 1..] == rest;
  }

  // ---------------------------------------------------------------- verification

  datatype Code =
    | TruncatedRecord
    | EmptyRecord
    | ParseError
    | SerializationError
    | NoncanonicalRecord
    | SequenceMismatch
    | PreviousHashMismatch
    | EventHashMissing
    | UnsupportedCanonicalization
    | EventHashMismatch
    | ExpectedCountMismatch
    | ExpectedHashMismatch

  datatype Issue = Issue(recordNumber: nat, code: Code)

  datatype Snapshot = Snapshot(
    ok: bool, events: seq<Event>, recordsVerified: nat, lastHash: Option<string>, issues: seq<Issue>)

  // The event of a line, or what is wrong with the line's text. A serialization error stands for an
  // exception that reaches the caller.
  datatype LineResult = Read(event: Event) | Flawed(code: Code)

  function ReadLine(c: Codec, line: string): LineResult {
    if line == "" || line[|line| - 1] != '\n' then Flawed(TruncatedRecord)
    else
      var text := line[..|line| - 1];
      if text == "" then Flawed(EmptyRecord)
      else match c.parse(text)
        case None => Flawed(ParseError)
        case Some(e) =>
          if !c.fits(e) then Flawed(SerializationError)
          else if line != c.serialize(e) + "\n" then Flawed(NoncanonicalRecord)
          else Read(e)
  }

  // What is wrong with an event at this place in the chain.
  function LinkIssue(c: Codec, e: Event, index: nat, last: Option<string>): Option<Code> {
    if e.sequence != index then Some(SequenceMismatch)
    else if e.previousHash != last then Some(PreviousHashMismatch)
    else if e.hash.None? then Some(EventHashMissing)
    else match ComputeHash(c, e)
      case Unsupported => Some(UnsupportedCanonicalization)
      case TooDeep => Some(SerializationError)
      case Hash(h) => if e.hash != Some(h) then Some(EventHashMismatch) else None
  }

  /** The first k lines are the canonical texts of these events, and the events are chained. */
  ghost predicate Prefix(c: Codec, lines: seq<string>, es: seq<Event>) {
    |es| <= |lines| && Chained(c, es) && forall i | 0 <= i < |es| :: ReadLine(c, lines[i]) == Read(es[i])
  }

  // The line after these events does not extend the prefix.
  ghost predicate Stuck(c: Codec, lines: seq<string>, es: seq<Event>, code: Code)
    requires |es| < |lines|
  {
    match ReadLine(c, lines[|es|])
    case Flawed(flaw) => code == flaw
    case Read(e) => LinkIssue(c, e, |es|, TerminalHash(es, |es|)) == Some(code)
  }

  method VerifyLines(c: Codec, lines: seq<string>) returns (events: seq<Event>, flaw: Option<Code>)
    ensures Prefix(c, lines, events)
    ensures flaw.Some? <==> |events| < |lines|
    ensures flaw.Some? ==> Stuck(c, lines, events, flaw.value)
  {
    events := [];
    var last: Option<string> := None;
    for i := 0 to |lines|
      invariant |events| == i && Prefix(c, lines, events)
      invariant last == TerminalHash(events, i)
    {
      var read := ReadLine(c, lines[i]);
      if read.Flawed? { return events, Some(read.code); }
      var issue := LinkIssue(c, read.event, i, last);
      if issue.Some? { return events, issue; }
      ChainGrows(c, events, read.event);
      events := events + [read.event];
      last := read.event.hash;
    }
    return events, None;
  }

  // The text of a line, and the event whose canonical line it is.
  ghost predicate TextOf(line: string, text: string) { text != "" && line == text + "\n" }

  ghost predicate LineOf(c: Codec, line: string, e: Event) {
    c.fits(e) && exists text :: TextOf(line, text) && c.parse(text) == Some(e) && text == c.serialize(e)
  }

  /** What an issue says of the line it is raised for: nothing before it in the list of checks is wrong. */
  ghost predicate Explains(c: Codec, line: string, index: nat, last: Option<string>, code: Code) {
    match code
    case TruncatedRecord => line == "" || line[|line| - 1] != '\n'
    case EmptyRecord => line == "\n"
    case ParseError => exists text :: TextOf(line, text) && c.parse(text) == None
    case SerializationError =>
      exists text :: TextOf(line, text) && exists e :: c.parse(text) == Some(e) && (!c.fits(e) || !c.fits(e.(hash := None)))
    case NoncanonicalRecord =>
      exists text :: TextOf(line, text) && exists e :: c.parse(text) == Some(e) && c.fits(e) && text != c.serialize(e)
    case SequenceMismatch => exists e :: LineOf(c, line, e) && e.sequence != index
    case PreviousHashMismatch => exists e :: LineOf(c, line, e) && e.sequence == index && e.previousHash != last
    case EventHashMissing =>
      exists e :: LineOf(c, line, e) && e.sequence == index && e.previousHash == last && e.hash.None?
    case UnsupportedCanonicalization =>
      exists e :: LineOf(c, line, e) && e.sequence == index && e.previousHash == last && e.hash.Some?
        && e.canonicalization != "actionlineage.dev/json-deterministic-v0"
    case EventHashMismatch =>
      exists e :: LineOf(c, line, e) && e.sequence == index && e.previousHash == last && e.hash.Some?
        && e.canonicalization == "actionlineage.dev/json-deterministic-v0"
        && e.hash.value != c.digest(c.serialize(e.(hash := None)))
    case _ => false
  }

  lemma LineReads(c: Codec, line: string)
    ensures
      match ReadLine(c, line)
      case Read(e) => LineOf(c, line, e)
      case Flawed(code) => Explains(c, line, 0, None, code) && code in {TruncatedRecord, EmptyRecord, ParseError,
                                                                       SerializationError, NoncanonicalRecord}
  {
    if line != "" && line[|line| - 1] == '\n' {
      var text := line[..|line| - 1];
      assert line == text + "\n";
      if text != "" { assert TextOf(line, text); }
    }
  }

  /** The code of the first issue says what is wrong with the line it is raised for. */
  lemma StuckExplains(c: Codec, lines: seq<string>, es: seq<Event>, code: Code)
    requires |es| < |lines| && Stuck(c, lines, es, code)
    ensures Explains(c, lines[|es|], |es|, TerminalHash(es, |es|), code)
  {
    var line := lines[|es|];
    LineReads(c, line);
    match ReadLine(c, line)
    case Flawed(flaw) =>
    case Read(e) => LinkExplains(c, line, e, |es|, TerminalHash(es, |es|), code);
  }

  lemma LinkExplains(c: Codec, line: string, e: Event, index: nat, last: Option<string>, code: Code)
    requires LineOf(c, line, e) && LinkIssue(c, e, index, last) == Some(code)
    ensures Explains(c, line, index, last, code)
  {
    if code == SerializationError {
      var text :| TextOf(line, text) && c.parse(text) == Some(e) && text == c.serialize(e);
    }
  }

  // The issues of a pass: the flaw it met, and what was expected and not found.
  ghost predicate Issues(
    c: Codec, raw: string, expectedCount: Option<int>, expectedLast: Option<string>, s: Snapshot)
    requires |s.events| <= |RawLines(raw)|
  {
    forall n, code :: Issue(n, code) in s.issues <==>
      || (|s.events| < |RawLines(raw)| && n == |s.events| + 1 && Stuck(c, RawLines(raw), s.events, code))
      || (code == ExpectedCountMismatch && n == |s.events| && expectedCount.Some? && expectedCount.value != |s.events|)
      || (code == ExpectedHashMismatch && n == |s.events| && expectedLast.Some?
          && expectedLast != TerminalHash(s.events, |s.events|))
  }

  ghost predicate Verifies(c: Codec, raw: string, es: seq<Event>) {
    Prefix(c, RawLines(raw), es) && |es| == |RawLines(raw)|
  }

  /** Read, verify and capture the events of a journal file in one pass. */
  method VerifiedSnapshot(c: Codec, raw: string, expectedCount: Option<int>, expectedLast: Option<string>)
    returns (s: Snapshot)
    ensures Prefix(c, RawLines(raw), s.events) && s.recordsVerified == |s.events|
    ensures s.lastHash == TerminalHash(s.events, |s.events|)
    ensures |s.events| < |RawLines(raw)| ==>
      |s.issues| > 0 && s.issues[0].recordNumber == |s.events| + 1
      && Stuck(c, RawLines(raw), s.events, s.issues[0].code)
    ensures s.ok <==>
      (Verifies(c, raw, s.events)
       && (expectedCount.Some? ==> expectedCount.value == s.recordsVerified)
       && (expectedLast.Some? ==> s.lastHash == expectedLast))
    ensures s.ok <==> s.issues == []
    ensures Issues(c, raw, expectedCount, expectedLast, s)
  {
    var events, flaw := VerifyLines(c, RawLines(raw));
    var count := |events|;
    var last := if count == 0 then None else events[count - 1].hash;
    var issues := if flaw.Some? then [Issue(count + 1, flaw.value)] else [];
    if expectedCount.Some? && count != expectedCount.value {
      issues := issues + [Issue(count, ExpectedCountMismatch)];
    }
    if expectedLast.Some? && last != expectedLast {
      issues := issues + [Issue(count, ExpectedHashMismatch)];
    }
    s := Snapshot(issues == [], events, count, last, issues);
  }

  // ---------------------------------------------------------------- text of a chain

  function JournalText(c: Codec, es: seq<Event>): string {
    if es == [] then "" else c.serialize(es[0]) + "\n" + JournalText(c, es[1..])
  }

  /** A file that verifies is, byte for byte, the canonical text of its events. */
  lemma {:induction false} VerifiedTextIsCanonical(c: Codec, lines: seq<string>, es: seq<Event>)
    requires |es| == |lines| && forall i | 0 <= i < |es| :: ReadLine(c, lines[i]) == Read(es[i])
    ensures Join(lines) == JournalText(c, es)
  {
    if es != [] {
      assert ReadLine(c, lines[0]) == Read(es[0]);
      VerifiedTextIsCanonical(c, lines[1..], es[1..]);
    }
  }

  predicate Storable(c: Codec, e: Event) { c.valid(e) && c.fits(e) }

  ghost predicate AllValid(c: Codec, es: seq<Event>) { forall i | 0 <= i < |es| :: Storable(c, es[i]) }

  /** The canonical text of a valid chain verifies and reads back as that chain. */
  lemma {:induction false} CanonicalTextReads(c: Codec, es: seq<Event>)
    requires c.Sound() && AllValid(c, es)
    ensures |RawLines(JournalText(c, es))| == |es|
    ensures forall i | 0 <= i < |es| :: ReadLine(c, RawLines(JournalText(c, es))[i]) == Read(es[i])
  {
    if es != [] {
      var text := c.serialize(es[0]);
      assert Storable(c, es[0]);
      CanonicalTextReads(c, es[1..]);
      RawLinesOfLine(text, JournalText(c, es[1..]));
      var lines := RawLines(JournalText(c, es));
      assert lines[1..] == RawLines(JournalText(c, es[1..]));
      assert (text + "\n")[..|text|] == text;
      forall i | 0 <= i < |es| ensures ReadLine(c, lines[i]) == Read(es[i]) {
        if i > 0 { assert lines[i] == lines[1..][i - 1] && es[i] == es[1..][i - 1]; }
      }
    }
  }

  /** Verification decides exactly the canonical texts of valid chains. */
  lemma VerifiesIff(c: Codec, raw: string, es: seq<Event>)
    requires c.Sound()
    ensures Verifies(c, raw, es) <==> raw == JournalText(c, es) && Chained(c, es) && AllValid(c, es)
  {
    if Verifies(c, raw, es) {
      VerifiedTextIsCanonical(c, RawLines(raw), es);
      JoinOfRawLines(raw);
      forall i | 0 <= i < |es| ensures Storable(c, es[i]) { assert ReadLine(c, RawLines(raw)[i]) == Read(es[i]); }
    }
    if raw == JournalText(c, es) && Chained(c, es) && AllValid(c, es) { CanonicalTextReads(c, es); }
  }

  lemma {:induction false} TextOfAppend(c: Codec, es: seq<Event>, e: Event)
    ensures JournalText(c, es + [e]) == JournalText(c, es) + (c.serialize(e) + "\n")
  {
    if es == [] {
      assert [e][1..] == [];
    } else {
      assert (es + [e])[1..] == es[1..] + [e];
      TextOfAppend(c, es[1..], e);
    }
  }

  // ---------------------------------------------------------------- tamper evidence

  /** Two chains of valid events that end in the same hash are the same chain. */
  lemma {:induction false} LastHashPinsChain(c: Codec, es: seq<Event>, fs: seq<Event>)
    requires c.Sound() && c.CollisionFree()
    requires Chained(c, es) && Chained(c, fs) && AllValid(c, es) && AllValid(c, fs)
    requires TerminalHash(es, |es|) == TerminalHash(fs, |fs|)
    ensures es == fs
    decreases |es|
  {
    var n, m := |es|, |fs|;
    if n > 0 { assert LinksAt(c, es, n - 1); }
    if m > 0 { assert LinksAt(c, fs, m - 1); }
    if n > 0 && m > 0 {
      SameHashSameEvent(c, es[n - 1], fs[m - 1]);
      ChainShrinks(c, es);
      ChainShrinks(c, fs);
      LastHashPinsChain(c, es[..n - 1], fs[..m - 1]);
      assert es == es[..n - 1] + [es[n - 1]] && fs == fs[..m - 1] + [fs[m - 1]];
    }
  }

  lemma SameHashSameEvent(c: Codec, e: Event, f: Event)
    requires c.Sound() && c.CollisionFree() && c.valid(e) && c.valid(f)
    requires e.hash == f.hash && Hashes(c, e) && Hashes(c, f)
    ensures e == f
  {
  }

  lemma ChainShrinks(c: Codec, es: seq<Event>)
    requires es != [] && Chained(c, es)
    ensures Chained(c, es[..|es| - 1])
    ensures TerminalHash(es[..|es| - 1], |es| - 1) == es[|es| - 1].previousHash
  {
    var init := es[..|es| - 1];
    forall i | 0 <= i < |init| ensures LinksAt(c, init, i) {
      assert LinksAt(c, es, i);
      assert TerminalHash(init, i) == TerminalHash(es, i);
    }
    assert LinksAt(c, es, |es| - 1);
    assert TerminalHash(init, |init|) == TerminalHash(es, |init|);
  }

  /** Tamper evidence: two journal files that verify and end in the same hash are the same bytes. */
  lemma LastHashPinsJournal(c: Codec, rawA: string, es: seq<Event>, rawB: string, fs: seq<Event>)
    requires c.Sound() && c.CollisionFree()
    requires Verifies(c, rawA, es) && Verifies(c, rawB, fs)
    requires TerminalHash(es, |es|) == TerminalHash(fs, |fs|)
    ensures rawA == rawB && es == fs
  {
    VerifiesIff(c, rawA, es);
    VerifiesIff(c, rawB, fs);
    LastHashPinsChain(c, es, fs);
  }

  /** Appending a prepared event to a journal that verifies gives a journal that verifies. */
  lemma AppendVerifies(c: Codec, persist: Event -> Persisted, raw: string, es: seq<Event>, e: Event)
    requires c.Sound() && Parses(c, persist) && KeepsChainFields(c, persist)
    requires Verifies(c, raw, es) && e.sequence == |es|
    requires Prepare(c, persist, e, TerminalHash(es, |es|)).Kept?
    ensures var p := Prepare(c, persist, e, TerminalHash(es, |es|)).event;
      Verifies(c, raw + (c.serialize(p) + "\n"), es + [p])
  {
    var last := TerminalHash(es, |es|);
    var p := Prepare(c, persist, e, last).event;
    var r := Redacted(persist, e, last).event;
    VerifiesIff(c, raw, es);
    PreparedEventLinks(c, persist, es, e);
    PreparedIsValid(c, persist, es, e);
    TextOfAppend(c, es, p);
    VerifiesIff(c, raw + (c.serialize(p) + "\n"), es + [p]);
  }

  lemma PreparedIsValid(c: Codec, persist: Event -> Persisted, es: seq<Event>, e: Event)
    requires c.Sound() && Parses(c, persist) && AllValid(c, es)
    requires Prepare(c, persist, e, TerminalHash(es, |es|)).Kept?
    ensures Storable(c, Prepare(c, persist, e, TerminalHash(es, |es|)).event)
  {
  }
}
