# ActionLineage verification model

ActionLineage keeps an append-only, hash-chained evidence journal. Records are imported idempotently, redacted on
their way to the journal, and searched by sequence detections; anchor logs and evaluation tooling sit beside it. This
project models those parts in Dafny and proves what they promise, for all inputs, all runs and all reachable states.

Verify with `dafny verify dfyconfig.toml`.

## How it is built

| files | part of the system |
|---|---|
| `Sorting`, `JsonValues`, `JsonObjects`, `TextLines` | `sorted`, Python JSON values and their equality, `bytes.splitlines` |
| `JsonText`, `JsonPrefix`, `JsonGrammar`, `JsonPrinting` | deterministic JSON text and its parser, the grammar that texts are read and printed by |
| `JsonLimits` | depth and width limits of payloads |
| `Detection`, `OrderedMatching`, `UnorderedMatching`, `Suppression`, `SequenceRules`, `RuleOrder`, `MatchingLimits` | the sequence detection engine, the order it sees events in, and which rules it evaluates completely |
| `Journal`, `LocalJournals`, `EventCodec`, `EventReading` | preparing, appending and verifying the hash-chained journal file; events as JSON text |
| `Normalization`, `EvidenceRecords`, `Ingestion`, `IngestionRuns`, `BatchOrder`, `AtomicImport`, `EventContents` | normalizing evidence and importing batches of it, in which order, and what the events carry |
| `Reimport`, `BatchExits`, `Retry` | importing a batch again, what aborts a batch, retrying what is left of it |
| `AnchorRecords`, `AnchorReading`, `AnchorLog` | the hash-chained anchor log |
| `Redaction`, `RedactionPlaces`, `Persistence`, `PersistedHash`, `PersistedImport`, `SparedRecords`, `AbortedBatch` | fail-closed redaction with a capture budget; redacting events on their way to the journal; imports under such a policy |
| `EventRecorder`, `RecorderLosses`, `RecorderPersistence`, `RecorderObject` | labelled timelines of an evaluation run |
| `Minimization`, `JsonDiff`, `DiffPlaces` | delta minimizers and the structural diff of reports |
| `DictFields`, `RuleCodec`, `RuleReading`, `ContractCodec`, `ContractReading` | rules and contracts as JSON objects |

Code that computes values is functions. Code that updates fields, dictionaries or files is classes and methods with
loops, each proved to do what a specification function says; the properties are lemmas about that function.

Parameters, for which every result holds whatever they are: SHA-256, timestamps, the checks inside the event model's
flat sub-models, regular expressions and case folding, field predicates and key paths of detection rules, identifiers,
clocks, and the outcome of each write. Where a result needs more of a parameter (no hash collisions) the lemma says so
in a `requires`. `Journal` and the import modules are stated for any event codec and any redaction policy;
`EventCodec.StandardIsSound` proves that the JSON codec keeps what they ask of a codec, and `Persistence`,
`PersistedImport`, `SparedRecords` and `RecorderPersistence` prove which policies keep what they ask of a policy. Files
are their text, a locked import is one step, and every append writes its whole line or nothing.

## What the code does not do

These are proved, each with the exact condition under which the code does meet the promise.

- With `within_seconds` set, the ordered matcher skips past an overlong match and can miss a match inside it
  (`OrderedMatching.WindowedMatcherIsIncomplete`). A rule whose stages and grouping do not look at times reports every
  group that holds an in-window match exactly when it has no window, a negative window or one stage, or in every group
  some stage fits nothing (`MatchingLimits.WindowedRuleCompleteIff`).
- The unordered matcher can miss an assignment. On arbitrary event lists it is complete exactly when the stages are
  pairwise nested (disjoint, or the earlier one's events all fit the later one) or some stage fits no event
  (`UnorderedMatching.CompleteRulesAre`). On the groups of a rule the same holds group by group, and with a window it
  is complete only in the cases listed for ordered rules (`MatchingLimits.UnorderedRuleCompleteIff`). A rule grouped by
  event type with stages of two types misses nothing (`MatchingLimits.GroupedByTypeIsComplete`).
- Appending to an anchor log that verifies keeps it verifying exactly when it ends in a line break and the reader
  accepts the anchor; otherwise the append succeeds and the log no longer verifies (`AnchorLog.AppendExtendsLog`; both
  failures in `AnchorLog.AppendCanSpoilLog`).
- `docs/OPERATIONS.md:120-121` says that retrying a batch can import the remaining suffix once storage recovers. The
  code does not always: a fresh normalizer makes the first remaining record a root, which the event model rejects
  unless its type is a documented root type. `Retry.RetryFailsExactly` says which records fail, and
  `Retry.RetryNeedsRoot` that nothing is imported when no remaining record has such a type.
- A record normalized but not written leaves the normalizer one sequence ahead of the journal, and nothing after it in
  the batch is imported (`BatchExits.LostRecordEndsGrowth`); the two are in step exactly until a record is lost
  (`BatchExits.InStepIff`), and `BatchExits.WrittenIff` says which records are written. In the event recorder the same
  loss leaves an event whose parent is in no journal; timelines are well rooted exactly when no loss is followed, as its
  timeline's next event, by one recorded without an explicit parent (`RecorderLosses.WellRootedIff`).
- A payload is accepted at a depth one deeper than can be serialized (`JsonLimits.FullDepthIsAcceptedButNotNormalized`),
  redaction can refuse an event, and it can make one grow past the depth limit. Each raises an exception that the atomic
  import does not turn into an outcome: a batch that has written something ends in an exception exactly when a later new
  record is one of these (`PersistedImport.BatchAbortsIff`; for any codec and policy,
  `BatchExits.ExceptionAfterWriteIff`; one such batch, `AbortedBatch.BatchCanAbort`).
- A prepared event carries the right hash exactly when the text patterns of the redaction policy leave the previous hash
  alone (`PersistedHash.PreparedHashIsRightIff`). Importing a batch again repeats its outcomes exactly when every
  imported event still carries its idempotency key, and its fingerprint unless no other record of the batch disputes it
  (`Reimport.ReimportRepeatsIff`).
- Rules and contracts survive a round trip through their JSON form exactly when their texts are non-empty, and for rules
  when stages and `group_by` are non-empty too (`RuleCodec.RuleRoundTripIff`, `ContractCodec.ContractRoundTripIff`).

## Model

| member | source | states |
|---|---|---|
| Sorting.SortIsSortedPermutation | src/actionlineage/domain/serialization.py:89-95 | sorting, as key ordering and `sorted` use it, orders and permutes |
| Sorting.SortIgnoresOrder | src/actionlineage/detection/sequence.py:209-239 | sorting permutations of a tie-free list gives one result |
| Sorting.StringLeIff | src/actionlineage/domain/serialization.py:89-95 | texts compare at the first character where they differ, a text before any that it starts |
| JsonValues.CanonDecidesSame | src/actionlineage/domain/serialization.py:82-95 | key-sorted forms coincide exactly for equal values, types included |
| JsonValues.CanonKeysRise | src/actionlineage/domain/serialization.py:89-95 | the key-sorted form of a dict holds its members, each once, under strictly rising keys |
| JsonGrammar.LoadsIff | src/actionlineage/domain/serialization.py:98-114 | a text parses to a value exactly when it is a spelling of the JSON grammar with white space around it (any white space, any escape, surrogate pairs, no superfluous leading zero), and the value is what the hook makes of the entries it spells |
| JsonPrinting.PrintIsCompact | src/actionlineage/domain/serialization.py:82-95 | a value is printed as the compact spelling of itself: strictly rising keys in every object, no white space, letters for the escapes that have one, four lower-case digits for the other control characters, nothing else escaped |
| JsonText.PrintRoundTrip | src/actionlineage/domain/serialization.py:82-114 | parsing the printed text of any float-free value gives the value back, keys sorted, which is equal to it |
| JsonText.PrintDecidesSame | src/actionlineage/domain/serialization.py:82-95 | printed texts are equal exactly for equal values, types included: insertion order is ignored and nothing else is identified |
| JsonText.RepeatedKeyIsRefused | src/actionlineage/domain/serialization.py:98-114 | a printed text in which some object, at any depth, repeats a key is refused by the strict parse; any other reads back as it was printed |
| JsonText.LenientKeepsLast | src/actionlineage/journal/anchors.py:320-336 | a parse without the hook refuses no printed text, and keeps for each key the last value, itself read the same way |
| JsonText.LoadsIsWellFormed | src/actionlineage/domain/serialization.py:98-114 | whatever text is parsed, strictly or not, no object of the result repeats a key |
| JsonText.RejectDuplicateObjectKeys | src/actionlineage/domain/serialization.py:106-114 | the hook's loop returns the pairs unchanged, and refuses exactly when a key repeats |
| JsonText.EmitIsOneLine | src/actionlineage/domain/serialization.py:82-95 | printed text holds no control character, hence no line break |
| JsonLimits.LimitsMeanHeight | src/actionlineage/domain/events.py:488-535 | the recursive check accepts exactly the values whose widths fit and whose height plus starting depth is at most 64 |
| JsonLimits.AcceptedPayloadNormalizesIff | src/actionlineage/domain/serialization.py:121-173 | an accepted payload can be normalized, one level down, exactly when its height is below 64 |
| JsonLimits.FullDepthIsAcceptedButNotNormalized | src/actionlineage/domain/events.py:424-440 | an object of height 64 is accepted as a payload and cannot be normalized |
| TextLines.SplitAfterAppend | src/actionlineage/journal/anchors.py:275-308 | an appended line becomes one more line of a terminated file, and is glued to the last line of any other |
| TextLines.SplitAtBreak | src/actionlineage/journal/anchors.py:398-410 | a line ends at the first `\n`, `\r\n` or `\r`, the rest is split in the same way, and only an empty text has no line |
| JsonPrefix.NothingAfterObject | src/actionlineage/domain/serialization.py:98-114 | a text that holds a complete object no longer parses once anything but white space follows |
| Detection.WindowMeansPairwise | src/actionlineage/detection/sequence.py:707-715 | the min-max window test holds exactly when every two events are at most that far apart |
| OrderedMatching.ScanIsEarliest | src/actionlineage/detection/sequence.py:530-556 | one pass finds an embedding whenever there is one, and ends no later than any |
| OrderedMatching.GreedyIsPacking | src/actionlineage/detection/sequence.py:530-556 | the matches are embeddings of the stage list on consecutive disjoint index ranges |
| OrderedMatching.GreedyIsLargest | src/actionlineage/detection/sequence.py:530-556 | no such packing has more matches, and none ends its k-th match earlier |
| OrderedMatching.UnwindowedIsLargest | src/actionlineage/detection/sequence.py:530-556 | without a window the number reported is the largest number of repetitions that embed |
| OrderedMatching.WindowedMatcherIsIncomplete | src/actionlineage/detection/sequence.py:553-555 | three events whose in-window match is not reported |
| OrderedMatching.MatchOnce | src/actionlineage/detection/sequence.py:538-552 | the inner loop returns the greedy embedding from its start, or nothing when the pass fails |
| OrderedMatching.MatchOrdered | src/actionlineage/detection/sequence.py:530-556 | the loops return the greedy matches that fit the window, in order |
| UnorderedMatching.FindFirstFit | src/actionlineage/detection/sequence.py:565-573 | the search returns the first remaining event that fits |
| UnorderedMatching.MatchUnordered | src/actionlineage/detection/sequence.py:559-577 | the loops return the greedy picks when they exist and fit the window |
| UnorderedMatching.PickIsAssignment | src/actionlineage/detection/sequence.py:559-577 | what is returned gives each stage a fitting event and uses none twice |
| UnorderedMatching.UnorderedIsComplete | src/actionlineage/detection/sequence.py:559-577 | with nested candidate sets and no window a match is reported exactly when a one-to-one assignment exists |
| UnorderedMatching.EqualOrDisjointIsNested | src/actionlineage/detection/sequence.py:559-577 | pairwise equal or disjoint candidate sets are nested |
| UnorderedMatching.TrapIsSprung | src/actionlineage/detection/sequence.py:559-577 | for stages that are not pairwise nested, a list of events that holds an assignment and in which the matcher finds none |
| UnorderedMatching.CompleteRulesAre | src/actionlineage/detection/sequence.py:559-577 | a rule of any length is complete on every event list exactly when its stages are pairwise nested or some stage fits no event |
| UnorderedMatching.NestedRuleIsComplete | src/actionlineage/detection/sequence.py:559-577 | a rule of any length with pairwise nested stages is complete |
| Suppression.SuppressAndDedupe | src/actionlineage/detection/sequence.py:580-605 | the loop returns the matches the emission state machine keeps |
| Suppression.EmittedIff | src/actionlineage/detection/sequence.py:580-618 | a match is emitted exactly when it is no repeat (with de-duplication) and not too close to the last emission for its key |
| Suppression.EmittedIffFar | src/actionlineage/detection/sequence.py:580-618 | for matches in order of their starts: emitted exactly when no repeat and far from every earlier emission for its key |
| Suppression.RunKeepsGaps | src/actionlineage/detection/sequence.py:580-605 | for matches in order of their starts and any configured gap, emissions with one key start more than the gap apart |
| Suppression.EmittedIdsAreDistinct | src/actionlineage/detection/sequence.py:590-594 | with de-duplication no two emissions have the same event ids |
| SequenceRules.GroupEvents | src/actionlineage/detection/sequence.py:632-641 | the loop fills one entry per key, in first-seen order, with that key's events in arrival order |
| SequenceRules.GroupsPartition | src/actionlineage/detection/sequence.py:632-641 | an event occurs in its own key's group as often as in the input, and in no other group |
| SequenceRules.RawMatchesPickStages | src/actionlineage/detection/sequence.py:209-239 | every match, ordered or not, has one fitting event of its group per stage, within the window |
| SequenceRules.RawMatchesAscend | src/actionlineage/detection/sequence.py:209-239 | the matches of a group, before suppression, are listed in the order they start |
| SequenceRules.ReportsKeepGaps | src/actionlineage/detection/sequence.py:209-249 | whatever `suppression_seconds` is, two reports of a group with one suppression key start more than that far apart |
| SequenceRules.ReportedIffFar | src/actionlineage/detection/sequence.py:209-249 | a match of a group is reported exactly when it is no repeat (with de-duplication) and far from every earlier report for its key |
| SequenceRules.GroupIsReportedIff | src/actionlineage/detection/sequence.py:580-605 | suppression and de-duplication never silence a group: it is reported exactly when it has a match |
| MatchingLimits.WindowedRuleCompleteIff | src/actionlineage/detection/sequence.py:209-249 | an ordered rule with time-blind stages and grouping reports every group that holds an in-window match exactly when it has no window, a negative one or one stage, or in every group some stage fits nothing |
| MatchingLimits.UnorderedRuleCompleteIff | src/actionlineage/detection/sequence.py:209-249 | an unordered rule with time-blind stages and grouping reports every group that holds an in-window assignment exactly when, without a window, the stages are pairwise nested or one fits nothing in every group, and with one, it is negative, there is one stage, or some stage fits nothing in every group |
| MatchingLimits.GroupedByTypeIsComplete | src/actionlineage/detection/sequence.py:632-641 | grouped by event type, a rule with stages of two types reports nothing and misses nothing, whatever its window and overlaps |
| SequenceRules.EvaluateSequenceRule | src/actionlineage/detection/sequence.py:209-249 | the evaluation loops return the matches of every group, groups in first-seen order |
| SequenceRules.EvaluateByGroup | src/actionlineage/detection/sequence.py:209-249 | the matches reported for a key are those of its group alone |
| SequenceRules.ArrivalOrderIsIrrelevant | src/actionlineage/detection/sequence.py:209-249 | with distinct ids, permuting the events changes no group's list of matches |
| SequenceRules.MatchesAreLocal | src/actionlineage/detection/sequence.py:209-249 | each reported match lists the ids of events of the group it names, one per stage |
| RuleOrder.GroupIsChronological | src/actionlineage/detection/sequence.py:220-229 | the list that is matched holds the events of the group by time, then by sequence whatever the ids, then by id |
| RuleOrder.OrderedRuleReportsIff | src/actionlineage/detection/sequence.py:530-556 | without a window an ordered rule reports a group exactly when the group holds, in that order, an event of the right type and satisfying the clause for each stage |
| RuleOrder.TieGoesBySequence | src/actionlineage/detection/sequence.py:223-227 | two events at one time, one for each of two stages: reported exactly when the first stage's event has the smaller sequence, whatever the ids and the order of arrival |
| RuleOrder.OrderedReportsAreInOrder | src/actionlineage/detection/sequence.py:209-249 | what an ordered rule reports, window or not, are events of the group for its stages in that order |
| RuleOrder.UnorderedReportsAreEarliest | src/actionlineage/detection/sequence.py:559-577 | what an unordered rule reports takes, stage by stage, the earliest fitting event that is left |
| RuleOrder.ReportsFollowArrival | src/actionlineage/detection/sequence.py:632-641 | reports come group by group, the group whose key is seen first in the events first |
| PersistedHash.PreparedHashIsRightIff | src/actionlineage/journal/hashing.py:44-80 | a prepared event has the supplied previous hash, can be stored and reads back, and carries its own hash exactly when the policy's text patterns leave the previous hash alone |
| Journal.ChainGrows | src/actionlineage/journal/local.py:312-536 | an event extends a chain exactly when sequence, previous hash and own hash link it |
| Journal.PreparedEventLinks | src/actionlineage/journal/hashing.py:44-68 | an event prepared for a chain by a policy that keeps sequences and digests extends that chain |
| Journal.PreparedAllIsChained | src/actionlineage/journal/hashing.py:44-80 | preparing any events one after another, with a policy that keeps the chain fields, gives a valid chain of that length |
| Journal.VerifyLines | src/actionlineage/journal/local.py:312-536 | the loop returns the events of a valid prefix and the flaw of the first line that does not extend it |
| Journal.VerifiedSnapshot | src/actionlineage/journal/local.py:312-536 | a snapshot is good exactly when the whole file verifies and meets the expected count and hash; the first issue names the first flawed record |
| Journal.StuckExplains | src/actionlineage/journal/local.py:312-536 | the code of the first issue says what is wrong with its line: unreadable, unsupported or not canonical text, a wrong sequence, previous hash or event hash |
| Journal.VerifiesIff | src/actionlineage/journal/local.py:312-536 | a file verifies as a list of events exactly when it is their canonical text and they are a valid chain |
| Journal.LastHashPinsChain | src/actionlineage/journal/hashing.py:71-80 | without collisions, valid chains that end in the same hash are the same |
| Journal.LastHashPinsJournal | src/actionlineage/journal/local.py:312-536 | without collisions, files that verify and end in the same hash are the same bytes |
| Journal.AppendVerifies | src/actionlineage/journal/local.py:232-248 | appending a prepared event to a file that verifies gives a file that verifies with one more event |
| EventCodec.EventReadsBack | src/actionlineage/domain/serialization.py:29-52 | the JSON object written for any event reads back as that event, keys in order |
| EventCodec.TextReadsBack | src/actionlineage/domain/serialization.py:29-79 | a valid event's text parses back to the event |
| EventReading.EventReadsIff | src/actionlineage/domain/events.py:393-468 | a dict reads as an event exactly when it has no other keys, every field is the event's under its own name or left out where there is a default, and the model accepts the envelope, hashes and sub-models |
| EventReading.EventIsWritten | src/actionlineage/domain/serialization.py:29-32 | the JSON of an event has its twelve entries, absent texts as null, and nothing else |
| EventCodec.FitsIff | src/actionlineage/domain/serialization.py:29-32 | an event can be serialized exactly when its payload, one level down, is within the limits |
| EventCodec.StandardIsSound | src/actionlineage/domain/serialization.py:29-114 | the JSON codec keeps every promise the journal relies on, whatever the hash function and the sub-model checks are |
| EventCodec.StandardIsCollisionFree | src/actionlineage/journal/hashing.py:71-80 | digests of texts collide only if SHA-256 does |
| LocalJournals.LocalJournal.AppendInsideLock | src/actionlineage/evidence/ingestion.py:643-658 | writes exactly the prepared event's line, or reports why not and writes nothing |
| LocalJournals.LocalJournal.Snapshot | src/actionlineage/journal/local.py:312-536 | good exactly when the file reads as some chain, and then holds the only one it reads as |
| LocalJournals.LocalJournal.Append | src/actionlineage/journal/local.py:200-248 | a verifying file whose length is the event's sequence gets the prepared event; every other call leaves the file alone |
| Normalization.IdGenerator.NewId | evals/actionlineage_evals/eventing.py:37-48 | hands out the next identifier of the sequence |
| Normalization.EvidenceNormalizer.RebaseInitialSequence | src/actionlineage/evidence/normalization.py:43-51 | moves a fresh timeline's start, and refuses with nothing changed once an event was emitted |
| Normalization.EvidenceNormalizer.Record | src/actionlineage/evidence/normalization.py:53-96 | the next event and position, or an unmoved timeline when the event model rejects; an identifier is spent either way |
| EventContents.NormalizerMakes | src/actionlineage/evidence/normalization.py:53-96 | an event is made exactly when a root can be resolved and the model accepts the envelope; it carries the caller's type and payload, the caller's source, principal and classification wherever given and the normalizer's otherwise, the correlation and both clock readings |
| EventContents.ImportedEventCarries | src/actionlineage/evidence/ingestion.py:461-512 | under a policy that spares it, the journal's event for an imported record carries the record's type, its payload with the ingest entry, its own source, principal and classification wherever given, and the next sequence |
| EvidenceRecords.IngestPayloadHolds | src/actionlineage/evidence/ingestion.py:532-544 | the payload keeps every other entry, and its ingest entry holds exactly key, fingerprint, version and source kind |
| EvidenceRecords.IngestReadsBack | src/actionlineage/evidence/ingestion.py:532-591 | the ingest metadata written into any payload is what a journal scan reads |
| EvidenceRecords.FingerprintsAgreeIff | src/actionlineage/evidence/ingestion.py:613-640 | without collisions, fingerprints agree exactly when two records agree in everything but the ingest entry and the service's own provenance entry |
| EvidenceRecords.FingerprintIgnoresIngest | src/actionlineage/evidence/ingestion.py:532-544 | adding any ingest entry to a payload leaves its fingerprint alone |
| EvidenceRecords.OrderedIgnoresArrival | src/actionlineage/evidence/ingestion.py:421-421 | batch order depends only on the records when no two share both sort keys |
| Ingestion.StepMoves | src/actionlineage/evidence/ingestion.py:450-512 | each record raises with nothing imported, reports one non-import, or imports under a key seen nowhere before |
| Ingestion.EveryExitIsAccounted | src/actionlineage/evidence/ingestion.py:407-514 | on every exit the journal only grew, by the imported count and by exactly the events reported as imported, is a valid chain, and the outcomes follow a prefix of the sorted records, all of them when it finishes |
| Ingestion.PlainImportIsAccounted | src/actionlineage/evidence/ingestion.py:346-404 | the same of the non-atomic import, which never stops early |
| IngestionRuns.BatchGrows | src/actionlineage/evidence/ingestion.py:407-514 | one batch keeps the chain valid, keys distinct and every known key's entry |
| IngestionRuns.EveryRunGrows | src/actionlineage/evidence/ingestion.py:407-514 | over any run of batches, whatever exits they take, the journal only grows, by what was reported, stays valid and never holds an idempotency key twice |
| IngestionRuns.PlainImportGrows | src/actionlineage/evidence/ingestion.py:346-404 | so does the non-atomic import given the journal's snapshot |
| IngestionRuns.BatchIgnoresArrival | src/actionlineage/evidence/ingestion.py:421-514 | the result does not depend on the order records were collected in |
| IngestionRuns.OutcomesNameEvents | src/actionlineage/evidence/ingestion.py:444-514 | on every exit each imported, duplicate or conflicting outcome names an event of the journal that carries the record's key |
| BatchOrder.BatchFollowsSortKeys | src/actionlineage/evidence/ingestion.py:421-514 | the outcomes follow the records by sort key and then by idempotency key, whatever order they came in, and imported events rise in sequence with them |
| BatchOrder.LastEventIsKnown | src/actionlineage/evidence/ingestion.py:547-591 | a key of a journal stands for the last event whose ingest entry holds it as a non-empty text, with the fingerprint found there |
| BatchOrder.KnownRecordIsReported | src/actionlineage/evidence/ingestion.py:444-459 | a record under a known key is reported with the known event, as a conflict exactly when that event's record was different evidence and as a duplicate otherwise, and changes nothing |
| BatchOrder.NewRecordIsReported | src/actionlineage/evidence/ingestion.py:461-512 | a record under a new key is one more outcome: an import that names the event just added and is remembered, or a failure |
| BatchOrder.FailureIsNamed | src/actionlineage/evidence/ingestion.py:461-498 | the error of a failure tells which step failed |
| BatchExits.ExceptionAfterWriteIff | src/actionlineage/evidence/ingestion.py:461-514 | a batch that has written something ends in an exception exactly when a later new record is refused on its way to the journal |
| BatchExits.CutShortWroteSomething | src/actionlineage/evidence/ingestion.py:479-489 | a batch cut short wrote something and reports the failure last |
| Reimport.ReimportRepeatsIff | src/actionlineage/evidence/ingestion.py:407-610 | under any policy, importing again a batch that finished without failures changes nothing and repeats the outcomes exactly when each imported event still carries its key, and its fingerprint unless undisputed |
| Reimport.ReimportIsIdempotent | src/actionlineage/evidence/ingestion.py:444-512 | under a policy that keeps the batch's ingest metadata it always does, in-batch conflicts included |
| BatchExits.InStepIff | src/actionlineage/evidence/ingestion.py:461-498 | the normalizer's next sequence is the journal's exactly until some record was normalized and could not be prepared or written |
| BatchExits.LostRecordEndsGrowth | src/actionlineage/evidence/ingestion.py:461-498 | after such a record nothing more of the batch is imported |
| BatchExits.WrittenIff | src/actionlineage/evidence/ingestion.py:444-512 | a record the loop reaches is written exactly when it is new, normalizes, passes the policy and the write, and no earlier record was lost |
| PersistedImport.BatchAbortsIff | src/actionlineage/evidence/ingestion.py:461-514 | under the redaction policy, a batch that has written something ends in an exception exactly when a later new record has the full accepted depth, cannot be redacted within the capture limits, or grows past the depth limit when redacted |
| PersistedImport.PersistKeepsIngest | src/actionlineage/evidence/ingestion.py:532-591 | a policy that spares a record's key and fingerprint keeps them in every event it lets through |
| PersistedImport.SparingBatchIsAdmissible | src/actionlineage/evidence/ingestion.py:407-514 | with the JSON codec, a policy that spares chain fields and ingest metadata meets all that growth, at-most-once and re-import rest on |
| SparedRecords.SparedRecordIsLetThrough | src/actionlineage/journal/hashing.py:44-68 | a policy with room for any event that leaves alone the generator's identifiers, digests, the envelope's constants and the record's own type, context and payload lets the record through |
| AbortedBatch.FullDepthAborts | src/actionlineage/evidence/ingestion.py:461-514 | an import of two new records into any valid journal writes the first and raises when that one starts a timeline and can be stored and the second has the full accepted depth |
| AbortedBatch.BatchCanAbort | src/actionlineage/evidence/ingestion.py:461-514 | a concrete batch of two records that writes the first and ends in an exception |
| Retry.RetryFailsExactly | src/actionlineage/evidence/ingestion.py:444-498 | with a fresh normalizer, a valid chain and nothing else wrong, the batch finishes and exactly the unknown records before the first unknown record of a root type fail |
| Retry.RetryNeedsRoot | src/actionlineage/domain/events.py:457-468 | a fresh normalizer imports nothing from records none of which is unknown and of a root type |
| AtomicImport.ExistingEntries | src/actionlineage/evidence/ingestion.py:547-569 | the scan maps each readable key to its last event and fingerprint |
| AtomicImport.ImportRecords | src/actionlineage/evidence/ingestion.py:444-512 | the loop leaves file, normalizer, outcomes and exit as the state machine does |
| AtomicImport.ImportEvidenceBatchAtomically | src/actionlineage/evidence/ingestion.py:407-514 | the import on a file and a normalizer is the state machine on the file's events; a file that does not verify is refused unchanged |
| AnchorRecords.EntryReadsBack | src/actionlineage/journal/anchors.py:653-707 | a written record reads back as itself exactly when the reader accepts its fields |
| AnchorRecords.EqualHashesPinEntry | src/actionlineage/journal/anchors.py:648-651 | without collisions, equal hashes mean equal records apart from the hash field |
| AnchorRecords.EntryTextIsOneLine | src/actionlineage/journal/anchors.py:105-133 | a record's text is a single non-empty line |
| AnchorReading.LineReadsIff | src/actionlineage/journal/anchors.py:653-707 | a line reads as a record exactly when it is one JSON object whose fields, by name, are those of the record and its anchor |
| AnchorReading.TextAndHashCover | src/actionlineage/journal/anchors.py:105-133 | a record's text holds all its fields and its anchor's and nothing else; its hash is the digest of that text with null for the hash |
| AnchorLog.VerifyLines | src/actionlineage/journal/anchors.py:385-520 | the loop returns the longest valid prefix, its terminal hash and the first flaw |
| AnchorLog.VerifyAnchorLog | src/actionlineage/journal/anchors.py:385-520 | `records_verified` and `last_entry_hash` are those of the longest valid prefix; ok exactly when all records are valid and expectations are met |
| AnchorLog.IssueExplains | src/actionlineage/journal/anchors.py:385-520 | the code of a flaw says what is wrong with its line |
| AnchorLog.AnchorLogFile.Append | src/actionlineage/journal/anchors.py:275-308 | appends one record computed from the whole log, or refuses a log that does not verify and writes nothing |
| AnchorLog.AppendedEntryHolds | src/actionlineage/journal/anchors.py:275-308 | the record appended carries the anchor and the time, the next sequence, the last hash of the log and its own hash |
| AnchorLog.AppendExtendsLog | src/actionlineage/journal/anchors.py:275-308 | a log that verifies still verifies after an append exactly when it ended in a line break and the anchor is readable |
| AnchorLog.AppendCanSpoilLog | src/actionlineage/journal/anchors.py:275-308 | a log of one record without its line break verifies and no longer does after an append; nor does an empty log after the append of an unreadable anchor |
| AnchorLog.AppendedRecordIsLast | src/actionlineage/journal/anchors.py:275-308 | the log then ends in the new record's hash and loads as before plus that record |
| AnchorLog.ReplayLoads | src/actionlineage/journal/anchors.py:320-336 | every log built by appends verifies and loads the appended anchors in order |
| AnchorLog.LastHashPinsLog | src/actionlineage/journal/anchors.py:385-520 | without collisions, logs that verify and end in the same hash hold the same parsed records in the same order |
| Redaction.Base64Length | src/actionlineage/domain/redaction.py:502-519 | base64 of n bytes is 4 * ceil(n / 3) characters, section 4 of RFC 4648 |
| Redaction.CaptureBudget.Record | src/actionlineage/domain/redaction.py:229-248 | charges one capture when it fits both limits, and otherwise refuses with nothing changed |
| Redaction.Redact | src/actionlineage/domain/redaction.py:274-339 | the recursion with a shared mutable budget gives the result and the remaining budget of the threaded pass |
| Redaction.BudgetIsTotals | src/actionlineage/domain/redaction.py:229-259 | a budgeted pass is the unbudgeted pass charged once with the count and bytes of what it captured |
| Redaction.ApplySucceedsIff | src/actionlineage/domain/redaction.py:222-226 | a policy succeeds exactly when the unbudgeted pass does and its captures fit both limits, with the same output |
| Redaction.NonInterference | src/actionlineage/domain/redaction.py:274-339 | values that differ only below sensitive paths or names give the same output and remaining budget, or both fail |
| RedactionPlaces.PassSucceedsIff | src/actionlineage/domain/redaction.py:274-339 | the pass over a value succeeds exactly when every place that is neither hidden nor below something hidden nests within the limit and is a value of a type that can be shown |
| RedactionPlaces.RedactedAt | src/actionlineage/domain/redaction.py:274-339 | at any depth, what stands at a hidden place (its path listed, or its name, lowered and with `-` read as `_`, among the sensitive ones) comes out as the sensitive marker, and everything else as the policy shows it |
| RedactionPlaces.AppliedAt | src/actionlineage/domain/redaction.py:222-226 | the same of a policy applied to a whole value within its capture limits |
| RedactionPlaces.Base64ReadsBack | src/actionlineage/domain/redaction.py:502-519 | the base64 of a capture decodes to its bytes |
| RedactionPlaces.Utf8LengthIs | src/actionlineage/domain/redaction.py:229-259 | a text is charged the length of its UTF-8 form, from which it can be read back |
| Persistence.GrowthIff | src/actionlineage/domain/redaction.py:274-339 | a redacted value stays within the limits of the value it came from exactly when no marker or capture lies at the full depth |
| Persistence.MarkersRead | src/actionlineage/domain/redaction.py:382-388 | a marker and a capture hold exactly the entries a reader looks for |
| Persistence.KeptFitsIff | src/actionlineage/domain/serialization.py:58-79 | a redacted event that is accepted can be serialized exactly when no marker or capture lies at the full depth of its payload |
| Persistence.PrepareRefusesIff | src/actionlineage/journal/hashing.py:44-80 | preparing an event raises exactly when it nests too deep, its redaction fails or captures too much, or redaction makes it too deep |
| Persistence.PersistKeepsChainFields | src/actionlineage/journal/hashing.py:44-68 | a policy that spares sequences and digests keeps both in every event it lets through |
| Persistence.SparedIsKept | src/actionlineage/domain/serialization.py:58-79 | an event that the policy spares throughout goes through unchanged |
| EventRecorder.EventIdsDiffer | evals/actionlineage_evals/eventing.py:45-48 | no identifier is handed out twice |
| EventRecorder.EventIdIs | evals/actionlineage_evals/eventing.py:45-48 | an identifier is made of scenario, seed and its index in decimal, with zeros in front up to three digits |
| EventContents.RecordedEventCarries | evals/actionlineage_evals/eventing.py:98-133 | under a policy that spares it, a recorded event carries what its caller gave, and its timeline's source, principal and classification where the caller gave none |
| EventContents.TimelineDefaults | evals/actionlineage_evals/eventing.py:240-267 | a timeline carries the trace of its scenario and seed, and its own run |
| RecorderLosses.WellRootedIff | evals/actionlineage_evals/eventing.py:98-133 | any interleaving leaves every event with its place as sequence, distinct ids, and each event first of its timeline or with an earlier event of the same timeline and root as parent, exactly when no lost event is followed, as the timeline's next event, by one recorded without an explicit parent |
| RecorderPersistence.PersistKeepsEnvelope | evals/actionlineage_evals/eventing.py:98-133 | a redaction policy that leaves alone the first n identifiers, sequences and the runs of some timelines keeps what those timelines rest on |
| RecorderPersistence.PersistedTimelinesIff | evals/actionlineage_evals/eventing.py:98-133 | through such a policy, calls leave well-rooted timelines exactly when no lost event is followed, as its timeline's next event, by one recorded without an explicit parent |
| EventRecorder.ParentsLeadToRoot | evals/actionlineage_evals/eventing.py:98-133 | following parents goes strictly backwards inside the timeline and reaches its first event, whose id is the root |
| EventRecorder.RunsNeverMix | evals/actionlineage_evals/eventing.py:230-267 | events carry the same run exactly when they belong to the same timeline |
| EventRecorder.LostEventIsNamedAsParent | evals/actionlineage_evals/eventing.py:112-133 | on a timeline whose last event was lost, however many calls on others came between, the next event recorded without an explicit parent names a parent that no event has |
| RecorderObject.EventRecorder.NormalizerFor | evals/actionlineage_evals/eventing.py:230-238 | one normalizer per timeline, built on first use and kept |
| RecorderObject.EventRecorder.Record | evals/actionlineage_evals/eventing.py:98-133 | the recorder object moves as the specified step does, and its file verifies as its events |
| Minimization.MinimizeToolCalls | evals/actionlineage_evals/minimization.py:10-47 | terminates with the input minus calls; a failing input still fails and no single call can be dropped; any other input is returned |
| Minimization.OneMinimalIsMinimal | evals/actionlineage_evals/minimization.py:10-47 | for a failure that deletions never bring back, no deletion of any size keeps a one-minimal transcript failing |
| Minimization.MinimalMalformedReadIsAlone | evals/actionlineage_evals/runner.py:767-771 | a minimized agent failure is exactly one call, the malformed read |
| Minimization.MalformedReadIff | evals/actionlineage_evals/runner.py:767-771 | a read is malformed exactly when it has no path or one that is not a text |
| Minimization.MinimalAnyTurnHasNoCalls | evals/actionlineage_evals/runner.py:765-766 | every other failure is minimized to no calls |
| Minimization.MinimizeStatefulSteps | evals/actionlineage_evals/stateful.py:165-184 | terminates with a subsequence that is the input or fails, from which no single step can be dropped, never emptied |
| Minimization.MinimalStepsAre | evals/actionlineage_evals/stateful.py:187-190 | exactly the one status-dropping step remains when the steps model the failure, and everything otherwise |
| JsonDiff.DiffEmptyIff | evals/actionlineage_evals/baseline.py:199-224 | no differences exactly when the values are equal in type and structure at every level |
| DiffPlaces.DiffTellsExactly | evals/actionlineage_evals/baseline.py:199-224 | a difference is reported exactly when it names a place, by the path to it, where the two values part, with what the left value holds there as committed and the right as current: null for a missing member, lengths at `.length` |
| DiffPlaces.MembersInOrder | evals/actionlineage_evals/baseline.py:199-224 | the differences inside an object come in the order of its keys |
| DiffPlaces.ItemsAfterLength | evals/actionlineage_evals/baseline.py:199-224 | the difference in length of two lists comes first, and then those of their items in order |
| JsonDiff.DiffCommutes | evals/actionlineage_evals/baseline.py:199-224 | swapping the arguments gives the same paths in the same order with the sides exchanged |
| JsonDiff.DiffJson | evals/actionlineage_evals/baseline.py:199-224 | the recursive loops build exactly that list |
| RuleCodec.RuleRoundTripIff | src/actionlineage/detection/sequence.py:145-206 | a rule survives the round trip exactly when stages and group-by are non-empty, its texts are non-empty and its predicates are valid |
| RuleCodec.StageRoundTrip | src/actionlineage/detection/sequence.py:411-420 | a written stage reads back as itself when well formed and is refused otherwise |
| RuleReading.RuleReadsIff | src/actionlineage/detection/sequence.py:145-177 | a flat dict reads as a rule exactly when every field is the rule's under its own name, or left out where the rule has the default, every stage has its type and every clause only allowed operators with operands of their kind |
| RuleReading.RuleIsWritten | src/actionlineage/detection/sequence.py:180-206 | a rule is written with all its fields, default and empty ones included, and nothing else |
| ContractCodec.ContractRoundTripIff | src/actionlineage/contracts/validation.py:362-521 | a contract survives the round trip exactly when all its texts are non-empty |
| ContractCodec.SectionRoundTripIff | src/actionlineage/contracts/validation.py:362-513 | a list of requirements of any kind reads back as written exactly when each of them holds no empty text |
| ContractCodec.SetRoundTrip | src/actionlineage/contracts/validation.py:514-517 | the sorted list of a set of statuses reads back as the set |
| ContractReading.ContractReadsIff | src/actionlineage/contracts/validation.py:362-446 | a dict reads as a contract exactly when its name is the first given by metadata, spec and dict, and every requirement stands under its key in `spec.requirements`, or in what stands for it when either is left out, with the defaults named for each field |
| ContractReading.ContractIsWritten | src/actionlineage/contracts/validation.py:449-521 | a contract is written under its version and kind with its name and all its requirements, statuses in rising order and each once |

## Left out

- Floats and non-finite numbers in JSON, lone surrogates, byte-order marks and the digit limit of Python integers:
  JSON numbers are integers of any size, text is code points, and a fraction or exponent is refused; redaction passes
  integers, booleans and null through and fails on non-finite numbers. Rule windows and
  gaps are real numbers; durations in the rule and contract round trips are integers.
- Recursion limits of the JSON library: `EvidenceRecords.Fingerprint` is total.
- Torn and partial writes, locks, permissions, file handles and lost power: a write succeeds whole or fails whole.
- `journal/local.py` beyond append and verification, projections, observers, the service, MCP and SDK layers, exporters,
  the CLI and consoles.
- The event model's checks inside source, correlation, principal and classification, of timestamps, and of event types:
  one parameter, for flat sub-models with at most five scalar fields. Values of another type in the event's own fields
  and other spellings of a default are refused rather than coerced.
- A stored line whose event cannot be serialized: the code raises out of verification, the model reports it as the
  line's flaw.
- Structured-log redaction and capture summaries (`domain/redaction.py:390-466`), pattern construction and digest
  scopes.
- HMAC signatures of anchors, segment manifests and exported prefixes.
- Field predicates (`_matches_expected`), path lookups, comparisons and the regular-expression operator of detection
  rules: stages carry an arbitrary predicate. `explain_sequence_rule` only adds candidate lists to the same evaluation.
- The packaged form of rules: rewriting it into the flat form is a parameter of `RuleCodec.RuleFromDict`.
- MatchingLimits.WindowedRuleCompleteIff: stages and grouping do not look at an event's identifier, time or sequence;
  rules that do can be complete for other reasons.
- MatchingLimits.UnorderedRuleCompleteIff: the same.
- ContractCodec.ContractRoundTripIff: a contract is six lists of rows, each row having the field kinds of its
  requirement class.
- PersistedImport.BatchAbortsIff: the event sent to the journal is a Python value with flat sub-models, as the
  normalizer builds it.
- Ingestion.ImportPlain: the non-atomic import is modelled on values only, not as a loop over a journal object.
- RecorderLosses.WellRootedIff: explicit root identifiers are excluded, and an explicit parent must be
  an earlier event of the same timeline, because the recorder takes any identifier a caller passes.
- Contract validation (`validate_contract` and its requirement checks): a fold of independent per-requirement checks.
- Freezing and thawing payload containers: values here are immutable, so both are the identity.
- Exceptions other than journal errors, value errors and redaction errors.
