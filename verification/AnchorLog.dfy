/** The append-only anchor log: one record per line, each holding the hash of the one before. */
module AnchorLog {
  import opened JsonValues
  import opened JsonText
  import opened JsonPrefix
  import opened TextLines
  import opened AnchorRecords

  datatype Code =
    | EmptyRecord
    | ParseError
    | SequenceMismatch
    | PreviousHashMismatch
    | EntryHashMissing
    | EntryHashMismatch
    | ExpectedCountMismatch
    | ExpectedHashMismatch

  datatype Issue = Issue(recordNumber: nat, code: Code)

  datatype Verification = Verification(ok: bool, recordsVerified: nat, lastEntryHash: Json, issues: seq<Issue>)

  function AsInt(v: Json): Option<int> {
    match v case Int(n) => Some(n) case Bool(b) => Some(if b then 1 else 0) case _ => None
  }

  // How a line reads, and the hash a record should carry.
  datatype Reader = Reader(read: string -> Option<Entry>, hash: Entry -> string)

  function FileReader(p: Platform): Reader {
    Reader(line => EntryOf(p, line), e => EntryHash(p, e))
  }

  // The first thing wrong with a record at this place in the chain.
  function LineIssue(r: Reader, line: string, sequence: nat, last: Json): Option<Code> {
    if line == "" then Some(EmptyRecord)
    else match r.read(line)
      case None => Some(ParseError)
      case Some(e) =>
        if AsInt(e.sequence) != Some(sequence) then Some(SequenceMismatch)
        else if e.previousEntryHash != last then Some(PreviousHashMismatch)
        else if e.entryHash == Null then Some(EntryHashMissing)
        else if e.entryHash != Str(r.hash(e)) then Some(EntryHashMismatch)
        else None
  }

  /** What an issue says of the line it is raised for: nothing before it in the list of checks is wrong. */
  ghost predicate Explains(r: Reader, line: string, sequence: nat, last: Json, code: Code) {
    match code
    case EmptyRecord => line == ""
    case ParseError => line != "" && r.read(line) == None
    case SequenceMismatch => exists e :: Reads(r, line, e) && AsInt(e.sequence) != Some(sequence)
    case PreviousHashMismatch =>
      exists e :: Reads(r, line, e) && AsInt(e.sequence) == Some(sequence) && e.previousEntryHash != last
    case EntryHashMissing =>
      exists e :: Reads(r, line, e) && AsInt(e.sequence) == Some(sequence) && e.previousEntryHash == last
        && e.entryHash == Null
    case EntryHashMismatch =>
      exists e :: Reads(r, line, e) && AsInt(e.sequence) == Some(sequence) && e.previousEntryHash == last
        && e.entryHash != Null && e.entryHash != Str(r.hash(e))
    case _ => false
  }

  ghost predicate Reads(r: Reader, line: string, e: Entry) { line != "" && r.read(line) == Some(e) }

  /** The code of a flaw says what is wrong with its line. */
  lemma IssueExplains(r: Reader, line: string, sequence: nat, last: Json)
    ensures LineIssue(r, line, sequence, last).Some? ==>
      Explains(r, line, sequence, last, LineIssue(r, line, sequence, last).value)
  {
    if line != "" && r.read(line).Some? { assert Reads(r, line, r.read(line).value); }
  }

  // The issues of a pass: the flaw it met, and what was expected and not found.
  ghost predicate Issues(
    r: Reader, raw: string, expectedCount: Option<int>, expectedLast: Option<string>, v: Verification)
  {
    forall n, code :: Issue(n, code) in v.issues <==>
      || (v.recordsVerified < |SplitLines(raw)| && n == v.recordsVerified + 1
          && LineIssue(r, SplitLines(raw)[v.recordsVerified], v.recordsVerified + 1, v.lastEntryHash) == Some(code))
      || (code == ExpectedCountMismatch && n == v.recordsVerified + 1 && expectedCount.Some?
          && expectedCount.value != v.recordsVerified)
      || (code == ExpectedHashMismatch && n == v.recordsVerified && expectedLast.Some?
          && Str(expectedLast.value) != v.lastEntryHash)
  }

  // The hash carried by the last of the first k records.
  function TerminalHash(r: Reader, lines: seq<string>, k: nat): Json
    requires k <= |lines|
  {
    if k == 0 then Null
    else match r.read(lines[k - 1]) case None => Null case Some(e) => e.entryHash
  }

  // The record at index i is sound and follows the one before.
  predicate SoundAt(r: Reader, lines: seq<string>, i: nat)
    requires i < |lines|
  {
    LineIssue(r, lines[i], i + 1, TerminalHash(r, lines, i)) == None
  }

  ghost predicate ValidPrefix(r: Reader, lines: seq<string>, k: nat) {
    k <= |lines| && forall i | 0 <= i < k :: SoundAt(r, lines, i)
  }

  ghost predicate LongestValidPrefix(r: Reader, lines: seq<string>, k: nat) {
    ValidPrefix(r, lines, k) && forall j: nat | ValidPrefix(r, lines, j) :: j <= k
  }

  method VerifyLines(r: Reader, lines: seq<string>)
    returns (records: nat, last: Json, issue: Option<Code>)
    ensures LongestValidPrefix(r, lines, records)
    ensures last == TerminalHash(r, lines, records)
    ensures issue == if records < |lines| then LineIssue(r, lines[records], records + 1, last) else None
    ensures issue == None <==> records == |lines|
  {
    records := 0;
    last := Null;
    while records < |lines|
      invariant ValidPrefix(r, lines, records)
      invariant last == TerminalHash(r, lines, records)
    {
      issue := LineIssue(r, lines[records], records + 1, last);
      assert issue == None <==> SoundAt(r, lines, records);
      if issue.Some? { return; }
      last := r.read(lines[records]).value.entryHash;
      records := records + 1;
    }
    issue := None;
  }

  /** Verify a log file: the records up to the first flaw, and how the file misses what was expected. */
  method VerifyAnchorLog(r: Reader, raw: string, expectedCount: Option<int>, expectedLast: Option<string>)
    returns (v: Verification)
    ensures LongestValidPrefix(r, SplitLines(raw), v.recordsVerified)
    ensures v.lastEntryHash == TerminalHash(r, SplitLines(raw), v.recordsVerified)
    ensures v.recordsVerified < |SplitLines(raw)| ==>
      && |v.issues| > 0 && v.issues[0].recordNumber == v.recordsVerified + 1
      && LineIssue(r, SplitLines(raw)[v.recordsVerified], v.recordsVerified + 1, v.lastEntryHash)
         == Some(v.issues[0].code)
    ensures v.ok <==>
      (Verifies(r, raw)
       && (expectedCount.Some? ==> expectedCount.value == v.recordsVerified)
       && (expectedLast.Some? ==> Str(expectedLast.value) == v.lastEntryHash))
    ensures v.ok <==> v.issues == []
    ensures Issues(r, raw, expectedCount, expectedLast, v)
  {
    var records, last, issue := VerifyLines(r, SplitLines(raw));
    var issues := if issue.Some? then [Issue(records + 1, issue.value)] else [];
    if expectedCount.Some? && records != expectedCount.value {
      issues := issues + [Issue(records + 1, ExpectedCountMismatch)];
    }
    if expectedLast.Some? && last != Str(expectedLast.value) {
      issues := issues + [Issue(records, ExpectedHashMismatch)];
    }
    v := Verification(issues == [], records, last, issues);
  }

  ghost predicate Verifies(r: Reader, raw: string) { ValidPrefix(r, SplitLines(raw), |SplitLines(raw)|) }

  function LastHash(r: Reader, raw: string): Json { TerminalHash(r, SplitLines(raw), |SplitLines(raw)|) }

  /** The parsed records of a log that verifies. */
  ghost function Load(r: Reader, raw: string): seq<Entry>
    requires Verifies(r, raw)
  {
    var lines := SplitLines(raw);
    seq(|lines|, i requires 0 <= i < |lines| =>
      assert SoundAt(r, lines, i);
      r.read(lines[i]).value)
  }

  // ---------------------------------------------------------------- appending

  function NewEntry(p: Platform, records: nat, last: Json, anchor: Anchor, now: int): Entry {
    var unsigned := Entry(anchor, now, Null, LOG_VERSION, last, Int(records + 1));
    unsigned.(entryHash := Str(EntryHash(p, unsigned)))
  }

  function AppendedEntry(p: Platform, raw: string, anchor: Anchor, now: int): Entry {
    NewEntry(p, |SplitLines(raw)|, LastHash(FileReader(p), raw), anchor, now)
  }

  function AppendedLog(p: Platform, raw: string, anchor: Anchor, now: int): string {
    raw + (EntryText(p, AppendedEntry(p, raw, anchor, now)) + "\n")
  }

  /** The log file. */
  class AnchorLogFile {
    const platform: Platform
    var raw: string

    constructor (p: Platform)
      ensures platform == p && raw == ""
    {
      platform := p;
      raw := "";
    }

    /** Append an anchor, or refuse because the log does not verify. */
    method Append(anchor: Anchor, now: int) returns (entry: Option<Entry>)
      modifies this
      ensures entry == if Verifies(FileReader(platform), old(raw))
                       then Some(AppendedEntry(platform, old(raw), anchor, now)) else None
      ensures raw == if entry.Some? then AppendedLog(platform, old(raw), anchor, now) else old(raw)
    {
      var r := FileReader(platform);
      var v := VerifyAnchorLog(r, raw, None, None);
      if !v.ok { return None; }
      assert v.recordsVerified == |SplitLines(raw)| && v.lastEntryHash == LastHash(r, raw);
      var e := NewEntry(platform, v.recordsVerified, v.lastEntryHash, anchor, now);
      assert e == AppendedEntry(platform, raw, anchor, now);
      raw := raw + (EntryText(platform, e) + "\n");
      return Some(e);
    }
  }

  /** The record an append adds: the anchor and the time as given, numbered after the records of the log and
      linked to the last of them. */
  lemma AppendedEntryHolds(p: Platform, raw: string, anchor: Anchor, now: int)
    ensures
      var e := AppendedEntry(p, raw, anchor, now);
      && e.anchor == anchor && e.createdAt == now && e.logVersion == "actionlineage.dev/journal-anchor-log-v1"
      && e.sequence == Int(|SplitLines(raw)| + 1) && e.previousEntryHash == LastHash(FileReader(p), raw)
      && e.entryHash == Str(p.digest(Print(EntryJson(p, e.(entryHash := Null)))))
  {
    var e := AppendedEntry(p, raw, anchor, now);
    assert e.(entryHash := Null) == Entry(anchor, now, Null, LOG_VERSION, e.previousEntryHash, e.sequence);
  }

  // A hash field that verified is text, or null before the first record.
  predicate HashField(v: Json) { v.Null? || v.Str? }

  lemma TerminalHashIsHashField(r: Reader, lines: seq<string>, k: nat)
    requires ValidPrefix(r, lines, k)
    ensures HashField(TerminalHash(r, lines, k))
    ensures TerminalHash(r, lines, k).Null? <==> k == 0
  {
    if k > 0 { assert SoundAt(r, lines, k - 1); }
  }

  lemma LineIssueOf(r: Reader, line: string, sequence: nat, last: Json, e: Entry)
    requires line != "" && (r.read(line) == Some(e) || r.read(line) == None)
    requires e.sequence == Int(sequence) && e.previousEntryHash == last && e.entryHash == Str(r.hash(e))
    ensures LineIssue(r, line, sequence, last) == if r.read(line).Some? then None else Some(ParseError)
  {
  }

  lemma PrefixOfExtension(r: Reader, lines: seq<string>, line: string)
    requires ValidPrefix(r, lines, |lines|)
    ensures var n := |lines|;
      && ValidPrefix(r, lines + [line], n)
      && TerminalHash(r, lines + [line], n) == TerminalHash(r, lines, n)
      && (ValidPrefix(r, lines + [line], n + 1) <==> LineIssue(r, line, n + 1, TerminalHash(r, lines, n)) == None)
  {
    var all := lines + [line];
    forall i | 0 <= i < |lines| ensures SoundAt(r, all, i) {
      assert SoundAt(r, lines, i);
      assert TerminalHash(r, all, i) == TerminalHash(r, lines, i);
    }
    assert SoundAt(r, all, |lines|) <==> LineIssue(r, line, |lines| + 1, TerminalHash(r, lines, |lines|)) == None;
  }

  // Nothing reads as a record once this text is glued to it.
  ghost predicate Spoils(r: Reader, line: string) {
    forall record | r.read(record).Some? :: r.read(record + line) == None
  }

  lemma LengthenedLineIsUnsound(r: Reader, lines: seq<string>, line: string)
    requires lines != [] && ValidPrefix(r, lines, |lines|) && Spoils(r, line)
    ensures !ValidPrefix(r, LastLengthened(lines, line), |lines|)
  {
    var all, i := LastLengthened(lines, line), |lines| - 1;
    assert SoundAt(r, lines, i);
    assert all[i] == lines[i] + line;
    assert !SoundAt(r, all, i);
  }

  lemma {:induction false} RecordTextSpoils(p: Platform, e: Entry)
    ensures Spoils(FileReader(p), EntryText(p, e))
  {
    var line := EntryText(p, e);
    EntryTextOpens(p, e);
    forall record | EntryOf(p, record).Some? ensures EntryOf(p, record + line) == None {
      NothingAfterObject(record, line, false);
    }
  }

  lemma LoadOfExtension(r: Reader, raw: string, raw': string, line: string)
    requires Verifies(r, raw) && Verifies(r, raw') && SplitLines(raw') == SplitLines(raw) + [line]
    requires r.read(line).Some?
    ensures Load(r, raw') == Load(r, raw) + [r.read(line).value]
    ensures LastHash(r, raw') == r.read(line).value.entryHash
  {
  }

  /** A new record reads back whole exactly when the reader accepts its anchor. */
  lemma NewEntryReads(p: Platform, records: nat, last: Json, anchor: Anchor, now: int)
    requires p.TimesRoundTrip() && PythonAnchor(anchor) && HashField(last)
    ensures var e := NewEntry(p, records, last, anchor, now);
      && EntryOf(p, EntryText(p, e)) == (if ReadableAnchor(anchor) then Some(CanonEntry(e)) else None)
      && EntryHash(p, CanonEntry(e)) == EntryHash(p, e)
      && e.entryHash == Str(EntryHash(p, e))
      && CanonEntry(e).previousEntryHash == last
  {
    var e := NewEntry(p, records, last, anchor, now);
    EntryReadsBack(p, e);
    CanonEntryHasSameText(p, e.(entryHash := Null));
    assert CanonEntry(e).(entryHash := Null) == CanonEntry(e.(entryHash := Null));
  }

  lemma OneLineHasNoBreaks(s: string)
    requires OneLine(s)
    ensures NoBreaks(s)
  {
  }

  /** The line a new record prints as, and the record it reads as. */
  ghost predicate NewLine(r: Reader, line: string, e: Entry, anchor: Anchor, sequence: nat, last: Json) {
    && NoBreaks(line) && line != "" && Spoils(r, line)
    && r.read(line) == (if ReadableAnchor(anchor) then Some(e) else None)
    && e.sequence == Int(sequence) && e.previousEntryHash == last && e.entryHash == Str(r.hash(e))
  }

  lemma {:induction false} NewEntryMakesLine(p: Platform, records: nat, last: Json, anchor: Anchor, now: int)
    requires p.TimesRoundTrip() && PythonAnchor(anchor) && HashField(last)
    ensures var e := NewEntry(p, records, last, anchor, now);
      && NewLine(FileReader(p), EntryText(p, e), CanonEntry(e), anchor, records + 1, last)
      && CanonEntry(e).entryHash == e.entryHash
  {
    var e := NewEntry(p, records, last, anchor, now);
    NewEntryReads(p, records, last, anchor, now);
    EntryTextIsOneLine(p, e);
    RecordTextSpoils(p, e);
    OneLineHasNoBreaks(EntryText(p, e));
  }

  lemma {:induction false} AppendMakesLine(p: Platform, raw: string, anchor: Anchor, now: int)
    requires p.TimesRoundTrip() && PythonAnchor(anchor) && Verifies(FileReader(p), raw)
    ensures var r, e := FileReader(p), AppendedEntry(p, raw, anchor, now);
      && NewLine(r, EntryText(p, e), CanonEntry(e), anchor, |SplitLines(raw)| + 1, LastHash(r, raw))
      && CanonEntry(e).entryHash == e.entryHash
  {
    TerminalHashIsHashField(FileReader(p), SplitLines(raw), |SplitLines(raw)|);
    NewEntryMakesLine(p, |SplitLines(raw)|, LastHash(FileReader(p), raw), anchor, now);
  }

  /** What one more record does to a file that verifies. */
  lemma {:induction false} ExtendedFile(r: Reader, raw: string, line: string, e: Entry, anchor: Anchor)
    requires Verifies(r, raw) && NewLine(r, line, e, anchor, |SplitLines(raw)| + 1, LastHash(r, raw))
    ensures Verifies(r, raw + (line + "\n")) <==> Terminated(raw) && ReadableAnchor(anchor)
    ensures Terminated(raw) ==> SplitLines(raw + (line + "\n")) == SplitLines(raw) + [line]
  {
    SplitAfterAppend(raw, line);
    LineIssueOf(r, line, |SplitLines(raw)| + 1, LastHash(r, raw), e);
    if Terminated(raw) {
      PrefixOfExtension(r, SplitLines(raw), line);
    } else {
      LengthenedLineIsUnsound(r, SplitLines(raw), line);
    }
  }

  /** Appending to a log that verifies keeps it verifying exactly when the file ended in a line
      break and the anchor is one the reader accepts. A file that did not end in a line break
      gets the record glued to its last line, which no longer parses. */
  lemma {:induction false} AppendExtendsLog(p: Platform, raw: string, anchor: Anchor, now: int)
    requires p.TimesRoundTrip() && PythonAnchor(anchor)
    requires Verifies(FileReader(p), raw)
    ensures Verifies(FileReader(p), AppendedLog(p, raw, anchor, now))
      <==> Terminated(raw) && ReadableAnchor(anchor)
  {
    var e := AppendedEntry(p, raw, anchor, now);
    AppendMakesLine(p, raw, anchor, now);
    ExtendedFile(FileReader(p), raw, EntryText(p, e), CanonEntry(e), anchor);
  }

  const EXAMPLE_ANCHOR := Anchor("1", 0, "journal.jsonl", Null, Int(0), Null, Null)

  lemma LinesOfOneLine(line: string)
    requires NoBreaks(line) && line != ""
    ensures SplitLines(line) == [line] == SplitLines(line + "\n") && !Terminated(line)
  {
    assert line[..|line|] == line;
    LineLengthOf(line, |line|);
    SplitOneLine(line);
  }

  /** Both failures happen. A log of one record without its line break verifies, and no longer does after
      an append; nor does an empty log after the append of an anchor without a journal path. */
  lemma AppendCanSpoilLog(p: Platform)
    requires p.TimesRoundTrip()
    ensures
      var raw := EntryText(p, AppendedEntry(p, "", EXAMPLE_ANCHOR, 0));
      Verifies(FileReader(p), raw) && !Verifies(FileReader(p), AppendedLog(p, raw, EXAMPLE_ANCHOR, 0))
    ensures
      Verifies(FileReader(p), "")
      && !Verifies(FileReader(p), AppendedLog(p, "", EXAMPLE_ANCHOR.(journalPath := ""), 0))
  {
    var r, raw := FileReader(p), EntryText(p, AppendedEntry(p, "", EXAMPLE_ANCHOR, 0));
    AppendMakesLine(p, "", EXAMPLE_ANCHOR, 0);
    AppendedRecordIsLast(p, "", EXAMPLE_ANCHOR, 0);
    LinesOfOneLine(raw);
    assert AppendedLog(p, "", EXAMPLE_ANCHOR, 0) == raw + "\n";
    AppendExtendsLog(p, raw, EXAMPLE_ANCHOR, 0);
    AppendExtendsLog(p, "", EXAMPLE_ANCHOR.(journalPath := ""), 0);
  }

  /** After such an append the log ends in the new record and its hash. */
  lemma AppendedRecordIsLast(p: Platform, raw: string, anchor: Anchor, now: int)
    requires p.TimesRoundTrip() && PythonAnchor(anchor)
    requires Verifies(FileReader(p), raw) && Terminated(raw) && ReadableAnchor(anchor)
    ensures var raw', e := AppendedLog(p, raw, anchor, now), AppendedEntry(p, raw, anchor, now);
      && Verifies(FileReader(p), raw') && Terminated(raw')
      && LastHash(FileReader(p), raw') == e.entryHash
      && Load(FileReader(p), raw') == Load(FileReader(p), raw) + [CanonEntry(e)]
  {
    var e := AppendedEntry(p, raw, anchor, now);
    AppendMakesLine(p, raw, anchor, now);
    ExtendedFile(FileReader(p), raw, EntryText(p, e), CanonEntry(e), anchor);
    LoadOfExtension(FileReader(p), raw, AppendedLog(p, raw, anchor, now), EntryText(p, e));
  }

  /** The log after appending these anchors, in order, to an empty file. */
  function Replay(p: Platform, anchors: seq<(Anchor, int)>): string {
    if anchors == [] then ""
    else
      var (anchor, now) := anchors[|anchors| - 1];
      AppendedLog(p, Replay(p, anchors[..|anchors| - 1]), anchor, now)
  }

  ghost predicate Records(es: seq<Entry>, anchors: seq<(Anchor, int)>) {
    |es| == |anchors|
    && forall i | 0 <= i < |es| :: es[i].anchor == CanonAnchor(anchors[i].0) && es[i].createdAt == anchors[i].1
  }

  lemma RecordsGrow(es: seq<Entry>, anchors: seq<(Anchor, int)>, e: Entry)
    requires anchors != [] && Records(es, anchors[..|anchors| - 1])
    requires e.anchor == CanonAnchor(anchors[|anchors| - 1].0) && e.createdAt == anchors[|anchors| - 1].1
    ensures Records(es + [e], anchors)
  {
  }

  ghost predicate WritableAnchors(anchors: seq<(Anchor, int)>) {
    forall i | 0 <= i < |anchors| :: PythonAnchor(anchors[i].0) && ReadableAnchor(anchors[i].0)
  }

  /** A log built by appends verifies, and loads the anchors that were appended. */
  lemma {:induction false} ReplayLoads(p: Platform, anchors: seq<(Anchor, int)>)
    requires p.TimesRoundTrip() && WritableAnchors(anchors)
    ensures Verifies(FileReader(p), Replay(p, anchors)) && Terminated(Replay(p, anchors))
    ensures Records(Load(FileReader(p), Replay(p, anchors)), anchors)
  {
    if anchors != [] {
      var init := anchors[..|anchors| - 1];
      var last := anchors[|anchors| - 1];
      var raw := Replay(p, init);
      ReplayLoads(p, init);
      AppendedRecordIsLast(p, raw, last.0, last.1);
      RecordsGrow(Load(FileReader(p), raw), anchors, CanonEntry(AppendedEntry(p, raw, last.0, last.1)));
    }
  }

  // ---------------------------------------------------------------- tamper evidence

  // Sound records with the same hash hold the same data.
  ghost predicate HashesPin(r: Reader) {
    forall x, y | r.read(x).Some? && r.read(y).Some? :: SameHashSameRecord(r, r.read(x).value, r.read(y).value)
  }

  ghost predicate SameHashSameRecord(r: Reader, e: Entry, f: Entry) {
    e.entryHash == f.entryHash == Str(r.hash(e)) == Str(r.hash(f)) ==>
      && CanonEntry(e) == CanonEntry(f)
      && AsInt(e.sequence) == AsInt(f.sequence)
      && (HashField(e.previousEntryHash) && HashField(f.previousEntryHash) ==>
            e.previousEntryHash == f.previousEntryHash)
  }

  ghost predicate SameRecord(r: Reader, x: string, y: string) {
    r.read(x).Some? && r.read(y).Some? && CanonEntry(r.read(x).value) == CanonEntry(r.read(y).value)
  }

  lemma LastRecord(r: Reader, lines: seq<string>, k: nat) returns (e: Entry)
    requires ValidPrefix(r, lines, k) && k > 0
    ensures r.read(lines[k - 1]) == Some(e)
    ensures e.entryHash == TerminalHash(r, lines, k) == Str(r.hash(e))
    ensures e.previousEntryHash == TerminalHash(r, lines, k - 1) && HashField(e.previousEntryHash)
    ensures AsInt(e.sequence) == Some(k)
  {
    assert SoundAt(r, lines, k - 1);
    e := r.read(lines[k - 1]).value;
    TerminalHashIsHashField(r, lines, k - 1);
  }

  lemma {:induction false} LastIsPinned(r: Reader, a: seq<string>, b: seq<string>, i: nat, j: nat)
    requires HashesPin(r) && i > 0 && j > 0
    requires ValidPrefix(r, a, i) && ValidPrefix(r, b, j)
    requires TerminalHash(r, a, i) == TerminalHash(r, b, j)
    ensures SameRecord(r, a[i - 1], b[j - 1]) && i == j
    ensures TerminalHash(r, a, i - 1) == TerminalHash(r, b, j - 1)
  {
    var e := LastRecord(r, a, i);
    var f := LastRecord(r, b, j);
    assert SameHashSameRecord(r, e, f);
  }

  /** Two valid prefixes that end in the same hash are the same records in the same order. */
  lemma {:induction false} PrefixIsPinned(r: Reader, a: seq<string>, b: seq<string>, i: nat, j: nat)
    requires HashesPin(r)
    requires ValidPrefix(r, a, i) && ValidPrefix(r, b, j)
    requires TerminalHash(r, a, i) == TerminalHash(r, b, j)
    ensures i == j
    ensures forall k | 0 <= k < i :: SameRecord(r, a[k], b[k])
  {
    TerminalHashIsHashField(r, a, i);
    TerminalHashIsHashField(r, b, j);
    if i > 0 && j > 0 {
      LastIsPinned(r, a, b, i, j);
      PrefixIsPinned(r, a, b, i - 1, j - 1);
    }
  }

  lemma {:induction false} RecordIsPinned(p: Platform, lineA: string, lineB: string, e: Entry, f: Entry)
    requires p.CollisionFree() && p.TimesRoundTrip()
    requires EntryOf(p, lineA) == Some(e) && EntryOf(p, lineB) == Some(f)
    requires e.entryHash == f.entryHash == Str(EntryHash(p, e)) == Str(EntryHash(p, f))
    ensures CanonEntry(e) == CanonEntry(f)
    ensures AsInt(e.sequence) == AsInt(f.sequence)
    ensures HashField(e.previousEntryHash) && HashField(f.previousEntryHash) ==>
      e.previousEntryHash == f.previousEntryHash
  {
    ParsedEntryIsPython(p, lineA);
    ParsedEntryIsPython(p, lineB);
    EqualHashesPinEntry(p, e, f);
    var e0, f0 := CanonEntry(e.(entryHash := Null)), CanonEntry(f.(entryHash := Null));
    assert e0.sequence == Canon(e.sequence) && f0.sequence == Canon(f.sequence);
    assert e0.previousEntryHash == Canon(e.previousEntryHash);
    assert f0.previousEntryHash == Canon(f.previousEntryHash);
  }

  lemma {:induction false} FileHashesPin(p: Platform)
    requires p.CollisionFree() && p.TimesRoundTrip()
    ensures HashesPin(FileReader(p))
  {
    var r := FileReader(p);
    forall x, y | r.read(x).Some? && r.read(y).Some?
      ensures SameHashSameRecord(r, r.read(x).value, r.read(y).value)
    {
      var e, f := r.read(x).value, r.read(y).value;
      if e.entryHash == f.entryHash == Str(r.hash(e)) == Str(r.hash(f)) { RecordIsPinned(p, x, y, e, f); }
    }
  }

  /** Tamper evidence: the last hash of a log that verifies pins all its records. Any edit,
      reorder, insertion or truncation that still verifies ends in another hash. */
  lemma {:induction false} LastHashPinsLog(p: Platform, rawA: string, rawB: string)
    requires p.CollisionFree() && p.TimesRoundTrip()
    requires Verifies(FileReader(p), rawA) && Verifies(FileReader(p), rawB)
    requires LastHash(FileReader(p), rawA) == LastHash(FileReader(p), rawB)
    ensures var es, fs := Load(FileReader(p), rawA), Load(FileReader(p), rawB);
      |es| == |fs| && forall k | 0 <= k < |es| :: CanonEntry(es[k]) == CanonEntry(fs[k])
  {
    FileHashesPin(p);
    PinnedLoads(FileReader(p), rawA, rawB);
  }

  lemma PinnedLoads(r: Reader, rawA: string, rawB: string)
    requires HashesPin(r) && Verifies(r, rawA) && Verifies(r, rawB) && LastHash(r, rawA) == LastHash(r, rawB)
    ensures var es, fs := Load(r, rawA), Load(r, rawB);
      |es| == |fs| && forall k | 0 <= k < |es| :: CanonEntry(es[k]) == CanonEntry(fs[k])
  {
    var a, b := SplitLines(rawA), SplitLines(rawB);
    PrefixIsPinned(r, a, b, |a|, |b|);
    forall k | 0 <= k < |a| ensures CanonEntry(Load(r, rawA)[k]) == CanonEntry(Load(r, rawB)[k]) {
      assert SameRecord(r, a[k], b[k]);
    }
  }
}
