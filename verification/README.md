# io-email: what its algorithms promise

io-email gives one interface over IMAP, JMAP, Gmail, Maildir and m2dir. Most of it is adapters without I/O of
their own; below them are a few real algorithms. This project models those and proves what their callers rely on:

- **Incremental synchronisation.** A caller keeps a replica of a mailbox and an opaque checkpoint. `ImapServer` and
  `JmapServer` model a server by everything that can happen to it: appends, flag changes, expunges and a recreated
  mailbox for IMAP; a history of account states, with change rounds truncated wherever the server likes, for JMAP.
  `ImapClient` and `JmapClient` are the two `diff_envelopes`; `ImapSync` and `JmapSync` prove that replica plus diff
  gives the mailbox back over whole runs, with other clients acting between any two requests; `ImapOutcomes` and
  `JmapOutcomes` say when a call succeeds, with which kind of result, and that a client always recovers.
- **The JMAP watch.** `JmapWatch` is the state machine with its shadow, queue and bootstrap suppression;
  `JmapWatchProofs` proves that it never goes stale, that events leave in order, and when they replay to the shadow;
  `JmapWatchEvents` that every event emitted is true of the account.
- **The search language.** `FilterParser`, `SortParser` and `QueryParser` are the grammars, `FilterPrinter` a printer
  that writes only the parentheses precedence needs. `FilterRoundTrip`, `FilterTrimming` and `QueryParser` prove
  exactly when printing and parsing are inverse; `FilterPhrases` and `SortPhrases` describe every text that is
  accepted. `ImapSearch` and `JmapSearch` compile a filter for a server and are compared with
  the local evaluator (`Evaluator`); `LocalSearch` is the local pipeline, and
  `LocalOrder` says what its result is without the comparator.
- **Pagination.** Five implementations of one idea; all are proved to denote `Pagination.Slice`, or, for Gmail's
  token walk, the page of a chain.
- **Moving and copying in m2dir** (`M2dirTransfer`), and **Gmail's labels** (`GmailLabels`, `GmailStore`,
  `GmailHistory`, `GmailList`).

`Flags` is underneath most of this: flags compare, order and hash by a normalised key, so a set of flags is modelled
as a set of keys. Objects whose methods update fields are classes whose methods are proved against a function of the
old state (`Model()`); the theorems are about that function. Lemmas carry `{:induction false}`: each proof is its body.

## How the code is read

- **Inner coroutines** are finite scripts of outcomes: what each call of the inner coroutine comes back with, in
  order. When the script ends the inner coroutine wants more I/O. A constructor that fails is a `Failed` outcome.
- **Requests of the synchronising clients** are answered from a sequence of replies; no reply left is a broken
  connection. What a lawful reply is, is said by `Answers` in each server module. Replies may always fail.
- **A JMAP server** never reuses an id and never changes an email's header. It may cut a round of changes anywhere,
  report ids that did not change, and leave out or report a record created and destroyed within a round
  (section 5.2 of RFC 8620).
- **The caller** applies flag updates to ids it knows, then new envelopes, then vanished ids; stores the new checkpoint
  with the replica; and after a full-list answer lists the mailbox (IMAP) or the whole account (JMAP, where the replica
  is the account).
- **A JMAP token that is not UTF-8** is the missing state. Checkpoint bytes are decoded and encoded only for IMAP.
- **Library facts** are parameters: a `Calendar` (days that exist, how one is written, what a text means in a
  format), a `Locale` (lower-casing), a `Reader` (parsing a stored message), `WireRules` (what IMAP types accept).
- **Strings** are sequences of Unicode scalar values, whose order is also that of their UTF-8 bytes.
- **Fixed-width arithmetic** saturates where the code saturates, at the code's widths.
- `slice::sort_by` is a stable sort; `LocalSearch.StableSortIsUnique` shows that this fixes the result.
- An IMAP mailbox keeps mod-sequences; one that answers NOMODSEQ is not modelled. The rows of a
  UID FETCH answer name their UIDs. Between the rows asked for there may be rows with the flags of any message, when other
  clients change them.
- The JMAP watch starts from the empty token, which names an empty account. A JMAP query without limit returns all of
  its results.
- The window of an IMAP fetch, `high+1:*`, is modelled by its start. When nothing is newer it addresses the last
  message, as section 6.4.8 of RFC 3501 has it.
- Move and copy in m2dir are one class; `removes` tells them apart.

## Where code and documentation disagree

The model follows the code.

- The comment at `src/envelope/types.rs:35-36` calls the three buckets of a diff disjoint. They are not: a message
  that is new by UID and by mod-sequence is in two of them (`ImapSync.BucketsOverlapAndAgree`). Applying flag
  updates, then new envelopes, then vanished ids is correct all the same.
- The comment at `src/jmap/client.rs:507-512` says a state bump alone makes the mailbox set changed. The code
  reports `Unchanged` (`JmapSync.MailboxDiffIffIdle`), and is right to (`JmapSync.UnchangedMailboxesAreUnchanged`).
- The comment at `src/flag/types.rs:229-231` gives the backslash to the four system flags of RFC 3501. The code gives it
  to five, `\Deleted` among them (`Flags.CanonicalMarker`).

## What is false, and when it holds

- A filter whose text starts with a quote that is not closed does not always read back: a later text can close it,
  and one pattern swallows the operator between them (`FilterRoundTrip.StrayQuotesSwallowAnOperator`). The exact
  condition is `FilterRoundTrip.RoundTripIff`.
- A filter whose last text ends in whitespace does not survive trimming (`QueryParser.TrimmedRoundTripIff`;
  `QueryParser.TrailingTabIsCut` is one).
- A JMAP listing taken after the checkpoint, with an email created in between, can leave that id in the replica for
  good (`JmapSync.LateListingKeepsGhost`). Quiet calls leave the replica equal to the account, whatever becomes of it,
  exactly when no email was created between checkpoint and listing (`JmapSync.ListingMirrorsIff`). Such late ids are
  all that can be wrong in any run (`JmapSync.QuietSyncMirrors`).
- An IMAP row without envelope, for instance a flag change by another client in the middle of the answer, becomes a new
  envelope with an empty header and overwrites the stored one. A header survives exactly when the last row that names
  its message carries the envelope (`ImapSync.HeaderSurvivesIff`); flags and messages are right regardless
  (`ImapSync.QuietSyncMirrors`).
- `seen` and `$seen` are one flag. An email whose keyword changes from one spelling to the other is reported as an
  addition followed by a removal, and the flag is lost (`JmapWatchProofs.SeenSpellingsLoseTheFlag`). A consumer stays
  in step over a whole run exactly when no row applied clashes in that way (`JmapWatchProofs.RunReplaysIff`).
- If the wire's date type accepts the last day the date library knows, IMAP's `after` that day matches that day too; if
  it refuses it, the conversion fails there, and every `after` that converts is right
  (`ImapSearch.EveryAfterMeansAfterIff`).
- A JMAP search applies every date condition to every message, wherever the condition is in the filter, and the server
  reads it as an arrival time. What is kept is exact for every filter and message (`JmapSearch.KeptIff`), and so is when
  search and evaluator agree (`JmapSearch.SearchAgreesIff`): when dated messages arrive in time, exactly when each
  message that matches is right on all date conditions (`JmapSearch.TimelySearchAgreesIff`). Below `or`, a match of the
  other operand is dropped (`JmapSearch.DateUnderOrDropsMatches`). Below `not`, all matches are dropped, and messages of
  the very day that arrived on an earlier UTC day are kept (`JmapSearch.NegatedDateIsBackwards`,
  `JmapSearch.NegatedDateMistakes`).
  With date conditions below `and` only, the two agree exactly when every match arrived in time
  (`JmapSearch.SearchMatchesEvaluatorIff`).
- A Gmail diff keeps label additions and removals apart, so their order is lost. The events give the true flags, in
  whatever order the changes happened, exactly when no flag label of the message is both added and removed
  (`GmailHistory.EventsAreTrueIff`).
- A move within one m2dir can store a message under the name that an earlier one just left, so the first name now
  holds another message (`M2dirTransfer.SecondMoveMayTakeTheFirstName`). Every successful run leaves exactly one new
  entry per id, and no other change, if and only if the directories differ, or the job is a copy of ids that all
  exist, or a move of at most one id, or a job no run of which can succeed (`M2dirTransfer.AlwaysExactIff`).
- A transfer that goes on after an error loses nothing, but its later success no longer means that every id was
  transferred (`M2dirTransfer.SuccessAfterErrorSkipsAnId`).

## Model

| member | source | states |
|---|---|---|
| ImapSync.QuietSyncMirrors | src/imap/client.rs:396-489 | after any run from no checkpoint, with any appends, flag changes, expunges and mailbox re-creations by others, a successful call while nobody else acts leaves exactly the mailbox's messages and flags, and its headers, but for messages that a row since the last listing reported without envelope |
| ImapSync.HeaderSurvivesIff | src/imap/client.rs:448-464 | an answer leaves a header right exactly when the last row that names the message carries its envelope, or the header is empty anyway |
| ImapSync.RunKeepsInv | src/imap/client.rs:396-489 | in every run the stored bytes decode to a checkpoint below UIDNEXT that the replica is right about: wrong only on messages changed later, or on headers of rows without envelope |
| ImapSync.SyncKeepsInv | src/imap/client.rs:396-489 | one call keeps that invariant whether it fails, is incremental or asks for a full list, with others acting between its requests |
| ImapSync.IncrementKeepsKnown | src/imap/client.rs:428-489 | applying the three buckets moves the replica to the mod-sequence of SELECT for any high-water mark below UIDNEXT, even a lower one than before |
| ImapSync.PresentMessage | src/imap/client.rs:436-489 | a message still there is in the new replica, with its header unless a row came without envelope, and with its flags unless touched after SELECT |
| ImapSync.AbsentMessage | src/imap/client.rs:436-489 | an id left in the replica without a message was expunged after SELECT |
| ImapSync.BucketsOverlapAndAgree | src/envelope/types.rs:27-46 | the buckets can overlap; entries for one message agree, on headers too unless a row came without envelope, and a present message is never vanished |
| ImapSync.NewHighBelowUidNext | src/imap/client.rs:466-481 | the next high-water mark stays below UIDNEXT |
| ImapSync.StarAddressesLast | src/envelope/imap/diff.rs:77-84 | when nothing is newer, the window addresses exactly the last message |
| ImapSync.FullListKeepsInv | src/imap/client.rs:494-549 | a full list after a baseline re-establishes the invariant, with the baseline's checkpoint |
| ImapOutcomes.AnsweredCallSucceeds | src/imap/client.rs:396-549 | recovery: whatever the stored bytes, a call whose commands are all answered, but for a QRESYNC SELECT that may be refused, succeeds; it needs a full list exactly without QRESYNC, without a usable checkpoint, after a refusal or a changed UIDVALIDITY |
| ImapOutcomes.DiffSucceedsIff | src/imap/client.rs:401-459 | which replies decide between error, full list and increment, in every case |
| ImapOutcomes.BaselineCheckpointIs | src/imap/client.rs:502-548 | a baseline gives no checkpoint without UIDVALIDITY, otherwise SELECT's HIGHESTMODSEQ or 0 and the largest UID of all rows fetched, 0 in an empty mailbox |
| ImapOutcomes.IncrementCheckpointIs | src/imap/client.rs:466-481 | the next checkpoint keeps the UIDVALIDITY, its mod-sequence never falls and is the server's when given, its mark is the largest UID the mailbox has at the fetch |
| ImapServer.ReachesFollows | src/imap/client.rs:396-489 | what any sequence of server steps keeps: UIDs and mod-sequences only grow within one UIDVALIDITY, expunges are remembered |
| ImapState.DecodeEncode | src/envelope/imap/diff.rs:43-68 | decoding inverts encoding on every checkpoint the fields can hold |
| ImapState.EncodeDecode | src/envelope/imap/diff.rs:43-68 | exactly the 16-byte blobs decode, and encoding inverts decoding |
| ImapState.LayoutIs | src/envelope/imap/diff.rs:43-68 | the three numbers one after the other in 4, 8 and 4 bytes, least significant byte first |
| ImapClient.Client.DiffEnvelopes | src/imap/client.rs:396-489 | commands sent and result, in every branch, as a function of the state and the replies |
| ImapClient.Client.DiffBaseline | src/imap/client.rs:494-549 | commands and checkpoint of a baseline: none without UIDVALIDITY, mark 0 for an empty mailbox, otherwise the largest UID fetched |
| ImapClient.FlagUpdateFromItems | src/envelope/imap/diff.rs:88-113 | the last UID and FLAGS items of a row decide, and both must be there |
| ImapClient.FlagUpdateIff | src/envelope/imap/diff.rs:88-113 | an update names the row's UID, and a flag is in it exactly when the last FLAGS item spells it on the wire; `\Recent` spells none |
| ImapClient.NoFlagUpdateIff | src/envelope/imap/diff.rs:88-113 | a row gives no update exactly when it lacks a UID or flags |
| ImapClient.EnvelopeFromItems | src/envelope/imap/diff.rs:117-119 | the last item of each kind decides, with the documented defaults |
| ImapClient.EnvelopeIs | src/envelope/imap/diff.rs:117-119 | id, header and flags of the envelope in terms of the row's items, and the default for each that is missing |
| Envelopes.ApplyDiffAt | src/envelope/types.rs:27-46 | what the three buckets do to one id when the entries that name it agree |
| Decimal.ShowInjective | src/envelope/imap/diff.rs:117-119 | different UIDs have different ids |
| Decimal.ShowIs | src/envelope/imap/diff.rs:108-111 | ids are decimal: the last digit is the remainder, what is before it the quotient |
| Decimal.ParseShow | src/imap/client.rs:466-470 | a UID is read back from its id |
| JmapSync.QuietSyncMirrors | src/jmap/client.rs:431-505 | after any run from no checkpoint, a successful call while the account stands still leaves the replica equal to the account, but for gone ids created between the last baseline and its listing that no checkpoint has known since |
| JmapSync.ListingMirrorsIff | src/jmap/client.rs:552-559 | after a listing, every quiet call in every future of the account leaves the replica equal to it exactly when no email was created between checkpoint and listing |
| JmapSync.MirrorsFromNowOnIff | src/jmap/client.rs:431-505 | at any time of any run, the same holds exactly when the checkpoint knows every id of the replica |
| JmapSync.RunKeepsInv | src/jmap/client.rs:431-505 | in every run the stored token names a state the replica is right about: wrong only on ids touched later, or created between a baseline and its listing |
| JmapOutcomes.AnsweredCallSucceeds | src/jmap/client.rs:431-505 | recovery: from any token, a call whose requests are all answered succeeds; it asks for a full list exactly without a token or when a round is refused, with the token of the last `Email/get` |
| JmapOutcomes.DiffOutcome | src/jmap/client.rs:431-505 | the first reply that is not a truncated round decides: a refusal is followed by a baseline, a final round by the gets, whose answers make it succeed with that round's token; anything else fails |
| JmapSync.SyncKeepsInv | src/jmap/client.rs:431-505 | one call keeps that invariant, whatever happens between its requests |
| JmapSync.IncrementKeepsKnown | src/jmap/client.rs:440-505 | updates, then creations, then destructions move the replica to the final cursor's state, with ids spread over the buckets in different rounds |
| JmapSync.OnlyKnownIds | src/jmap/client.rs:464-505 | an id in the new replica existed at the checkpoint's state, or was created between a baseline and its listing |
| JmapSync.SurvivingEmail | src/jmap/client.rs:464-505 | a surviving email is in the new replica, current unless touched since |
| JmapSync.OverlapsAgree | src/jmap/client.rs:464-505 | entries of two buckets for one id agree when nothing touches it between the fetches |
| JmapSync.WalkCovers | src/jmap/client.rs:440-462 | any split into rounds accumulates to one lawful answer from the cached state to the final cursor |
| JmapSync.WalkTerminates | src/jmap/client.rs:445-462 | the walk takes at most one round per state still to come, plus one |
| JmapServer.RoundsCompose | src/jmap/client.rs:455-457 | two consecutive rounds, concatenated, are one round: truncation loses nothing |
| JmapServer.EnvelopeIs | src/jmap/convert.rs:83-127 | an envelope has the row's id and header, and a flag exactly for each keyword that is set |
| JmapServer.ShownIs | src/jmap/convert.rs:83-127 | the same of what a replica should hold |
| JmapSync.ListingKnownIff | src/jmap/client.rs:552-559 | a listing is sound for an earlier checkpoint, but for some late ids, exactly when those include every email created in between |
| JmapSync.LateListingKeepsGhost | src/jmap/client.rs:431-505 | otherwise, for any such id, a lawful quiet call after its destruction leaves it in the replica |
| JmapSync.UnchangedMailboxesAreUnchanged | src/jmap/client.rs:513-546 | `Unchanged` is said only when no mailbox differs, and hands out the server's present token |
| JmapSync.MailboxDiffIffIdle | src/jmap/client.rs:525-540 | exactly an untruncated answer that lists no id is `Unchanged`, whatever its token |
| JmapOutcomes.MailboxDiffOutcome | src/jmap/client.rs:513-546 | request, success and result of the mailbox diff: a refused token needs a list and gives none back |
| JmapClient.Client.DiffEnvelopes | src/jmap/client.rs:431-505 | requests sent and result, in every branch, as a function of the token and the replies |
| JmapClient.Client.WalkChanges | src/jmap/client.rs:440-462 | the loop accumulates the rounds in order until the last one |
| JmapClient.Client.DiffMailboxes | src/jmap/client.rs:513-546 | request and result of the mailbox diff in every branch |
| JmapWatchProofs.WatchIsNeverStale | src/envelope/jmap/watch.rs:295-397 | in every reachable state but the last, the shadow is wrong only on ids touched since the state asked from next, or covered by the batch in flight |
| JmapWatchProofs.RunKeepsInv | src/envelope/jmap/watch.rs:295-397 | that invariant over any sequence of calls, from any state that has it |
| JmapWatchProofs.BatchKeepsKnown | src/envelope/jmap/watch.rs:224-292 | a fetched batch moves the shadow from one state to the next, truncated or not |
| JmapWatchProofs.QuietCycleMirrors | src/envelope/jmap/watch.rs:327-384 | an untruncated cycle without concurrent change leaves the shadow equal to the mailbox |
| JmapWatchProofs.CycleEndAsksOrIsCurrent | src/envelope/jmap/watch.rs:154-187 | a cycle that ends on the server's present state, as the account's `Email` state names it, asks for what is missing, or nothing is |
| JmapWatchProofs.BootstrapAsks | src/envelope/jmap/watch.rs:166-182 | before the first fetch any cycle end asks for the changes since the empty state |
| JmapWatchProofs.LastFrameCounts | src/envelope/jmap/watch.rs:299-397 | of several state changes in one cycle the last one counts |
| JmapWatchProofs.StepFailsIff | src/envelope/jmap/watch.rs:299-397 | an answer ends the watch with an error exactly when it is a failure or not what the state waits for |
| JmapWatchEvents.WatchTellsTheTruth | src/envelope/jmap/watch.rs:224-292 | over every lawful run each event emitted names the watched mailbox and is right about some state of the account: a new message is there with the header and flags it has then, a removed one is not, flags added are set; no flag event is empty |
| JmapWatchEvents.KeepAliveIff | src/envelope/jmap/watch.rs:154-187 | a keep-alive is queued exactly after bootstrap, when a cycle that saw a state change ends with nothing to ask for |
| JmapWatchProofs.RunIsFifo | src/envelope/jmap/watch.rs:295-397 | emitted events followed by the queue are the events pushed, in order, over every run; none before the first completed fetch; the queue is empty while fetching and suppression holds exactly until the first fetch |
| JmapWatchProofs.ResumeKeepsMachineInv | src/envelope/jmap/watch.rs:299-397 | one call: queue discipline, and shutdown or an error ends the watch for good with no further event |
| JmapWatchProofs.RunReplaysIff | src/envelope/jmap/watch.rs:224-292 | over any calls after bootstrap, a consumer folding the events is in step with the shadow after every row exactly when no row clashes; then all events and the queue fold to the present shadow |
| JmapWatchProofs.DistinctFlagsNeverClash | src/envelope/jmap/watch.rs:244-264 | a run whose keywords normalise to distinct flags has no clash |
| JmapWatchProofs.RowReplaysIff | src/envelope/jmap/watch.rs:236-276 | the events of one row replay to the new shadow exactly when no keyword that goes is the same flag as one that stays |
| JmapWatchProofs.ToggleReplaysIff | src/envelope/jmap/watch.rs:244-264 | the two flag events of an update, added then removed, give the new flags exactly without such a clash |
| JmapWatchProofs.SeenSpellingsLoseTheFlag | src/envelope/jmap/watch.rs:244-264 | a change from `$seen` to `seen` loses the flag |
| JmapWatch.JmapWatchMailbox.Resume | src/envelope/jmap/watch.rs:299-397 | the new state, what is yielded and the outcomes consumed, as a function of the old state |
| JmapWatch.JmapWatchMailbox.ApplyDiff | src/envelope/jmap/watch.rs:224-292 | shadow and queue after a batch |
| JmapWatch.JmapWatchMailbox.HandleCycleEnd | src/envelope/jmap/watch.rs:154-187 | asks for changes exactly when the state observed differs or none is known |
| FilterRoundTrip.RoundTripIff | src/search/filter/parser.rs:59-93 | a printed filter parses back to itself exactly when each text is a complete quoted literal, or is non-empty and rejected in its place by the quoted alternative |
| FilterRoundTrip.RoundTrip | src/search/filter/parser.rs:59-93 | precedence, association and parentheses of every printable filter are read back |
| FilterRoundTrip.SimpleTextsRoundTrip | src/search/filter/parser.rs:246-276 | texts that are quoted literals or do not start with a quote always round-trip |
| FilterRoundTrip.StrayQuotesSwallowAnOperator | src/search/filter/parser.rs:246-276 | two stray quotes in different texts make one pattern of both |
| FilterRoundTrip.ScanOr | src/search/filter/parser.rs:59-93 | whatever the parser reads, it reads the conditions in the order in which the text has them |
| FilterPhrases.ParsesIff | src/search/filter/parser.rs:59-93 | the parser accepts exactly the texts that spell a filter, with any number of spaces, any parentheses and any spelling of its leaves, and reads that filter |
| FilterPhrases.ConditionsAreRead | src/search/filter/parser.rs:151-229 | the keywords of the text and flag conditions |
| FilterPhrases.DayIs | src/search/filter/parser.rs:231-244 | the first of the four date formats that fits counts |
| FilterPhrases.DateFormatsAreRead | src/search/filter/parser.rs:118-149 | a day in any of the four formats gives the same condition |
| FilterPhrases.QuotedIs | src/search/filter/parser.rs:250-264 | a quoted literal is quotes around characters, backslash and quote only after a backslash |
| FilterPhrases.EscapeIs | src/search/filter/parser.rs:266-276 | outside of quotes backslash, space and parentheses stand after a backslash, all else for itself |
| FilterPrinter.PatternReadsIff | src/search/filter/parser.rs:246-276 | a text written before anything that ends it reads back exactly under the round trip's condition |
| FilterTrimming.ScanCut | src/search/parser.rs:53-55 | a printed filter with trailing whitespace cut off no longer holds its conditions |
| QueryParser.TrimmedRoundTripIff | src/search/parser.rs:53-66 | a printed filter parses back after trimming exactly when it is printable and does not end in whitespace |
| QueryParser.TrailingTabIsCut | src/search/parser.rs:53-66 | a printable text that ends in a tab does not parse back |
| QueryParser.QueryRoundTripIff | src/search/parser.rs:32-50 | filter, `order by` and sorters parse back to that pair exactly when the filter alone does, even if a quoted pattern holds `order by` |
| QueryParser.FilterOnlyRoundTripIff | src/search/parser.rs:32-50 | filter-only text parses back exactly when the filter alone does and the text does not hold `order by` |
| QueryParser.FilterOnlyRoundTrip | src/search/parser.rs:32-50 | only a quoted pattern can hold `order by` |
| QueryParser.SortOnlyRoundTrip | src/search/parser.rs:35-39 | sort-only text parses back to its sorters |
| QueryParser.LastSeparator | src/search/parser.rs:35 | the separator is the last occurrence, since no sorter spells it |
| QueryParser.ParseQueryIs | src/search/parser.rs:32-50 | a query is split at its last `order by`, and its two sides are what the two parsers make of them, trimmed; nothing before it means no filter |
| QueryParser.TrimIs | src/search/parser.rs:32-82 | trimming takes away whitespace at both ends, all of it, and nothing else |
| SortParser.SortRoundTrip | src/search/sort/parser.rs:45-54 | every list of sorters reads back, with ascending orders spelled out or not |
| SortPhrases.SortParsesIff | src/search/sort/parser.rs:45-175 | the sort parser accepts exactly the texts that spell a list of sorters, with any number of spaces, ascending by default |
| ImapSearch.ConversionKeepsMeaning | src/envelope/imap/search.rs:190-237 | when conversion succeeds, the server selects exactly what the evaluator matches, for every tree whose leaves agree |
| ImapSearch.LeafMeaningIff | src/envelope/imap/search.rs:206-235 | one leaf agrees exactly when the flag is spelled as its key tests, the day has a successor or is not the message's, the texts match alike |
| ImapSearch.ConversionFailsIff | src/envelope/imap/search.rs:190-237 | conversion fails exactly when some leaf does |
| ImapSearch.LeafKey | src/envelope/imap/search.rs:206-265 | key or error of each leaf: the classic system flags and `\Deleted` have keys of their own, `after` takes the next day |
| ImapSearch.FirstFailureIsReported | src/envelope/imap/search.rs:190-237 | a failing conversion reports its first failing leaf, left to right |
| ImapSearch.AfterDayIff | src/envelope/imap/search.rs:213-218 | when `after D` converts, its key selects what the evaluator matches, on every message, exactly when D is not the last day |
| ImapSearch.EveryAfterMeansAfterIff | src/envelope/imap/search.rs:213-218 | the last day goes through the wire's date type: refused, it is an error; every `after` that converts is right exactly when it is refused |
| ImapSearch.PageIsSliceOfResult | src/envelope/imap/search.rs:267-288 | a fetched page, put back in SORT order, is that page of the whole sorted result |
| ImapSearch.ReorderIsPointwise | src/envelope/imap/search.rs:267-288 | envelopes come back in the order of the UIDs asked for |
| JmapSearch.SearchIsSliceOfKept | src/envelope/jmap/search.rs:296-328 | a page of the search is that page of the messages in the mailbox that the server filter selects and every collected date rule accepts, paginated by the server or locally |
| JmapSearch.PostFiltersAreDateLeaves | src/envelope/jmap/search.rs:160-232 | the rules collected are exactly the date leaves, wherever they are |
| JmapSearch.MidnightStartsDay | src/envelope/jmap/search.rs:283-290 | the instant sent for a day is the first of that day in UTC |
| JmapSearch.ServerFilterMeaning | src/envelope/jmap/search.rs:160-219 | any tree: the server filter selects what matches with each date read as an arrival on that UTC day or later |
| JmapSearch.KeptIff | src/envelope/jmap/search.rs:129-232 | any tree and message: kept exactly when in the mailbox, right on every date leaf, and matching with arrival in place of dates, which for a message in time is matching |
| JmapSearch.SearchAgreesIff | src/envelope/jmap/search.rs:129-232 | any tree and account: search and evaluator keep the same messages exactly when every match is right on all date leaves, and a message right on all of them matches by arrival just when it matches |
| JmapSearch.TimelySearchAgreesIff | src/envelope/jmap/search.rs:129-232 | when dated messages arrive in time, exactly when every match is right on all date leaves |
| JmapSearch.AgreesWithEvaluator | src/envelope/jmap/search.rs:129-232 | with dates only below `and`, a message of the mailbox is kept exactly when it matches and arrived in time for its date leaves |
| JmapSearch.SearchMatchesEvaluatorIff | src/envelope/jmap/search.rs:129-232 | with dates only below `and`, search and evaluator keep the same messages exactly when every match arrived, by its UTC day, in time for its date leaves |
| JmapSearch.DateUnderOrDropsMatches | src/envelope/jmap/search.rs:87-92 | a date below `or` drops a message that matches the other operand |
| JmapSearch.NegatedDateIsBackwards | src/envelope/jmap/search.rs:160-232 | `not date D` keeps exactly the messages of day D that arrived on an earlier UTC day, none of which matches |
| JmapSearch.NegatedDateMistakes | src/envelope/jmap/search.rs:160-232 | a match dropped and a non-match kept |
| JmapSearch.ConvertFilter | src/envelope/jmap/search.rs:160-219 | the condition sent and the rules appended, left to right |
| JmapSearch.Complete | src/envelope/jmap/search.rs:296-328 | with rules, keeps what passes them all and paginates; without, the answer as it is |
| LocalSearch.SearchOrderIsTotalPreorder | src/envelope/maildir/search.rs:328-356 | for every list of sorters the comparator is total, transitive and reverses with its arguments |
| LocalSearch.StableSortIsStable | src/envelope/maildir/search.rs:129-151 | the result is sorted, and messages that compare equal keep their order |
| LocalSearch.StableSortIsUnique | src/envelope/m2dir/search.rs:193-221 | a list has only one stable sort |
| LocalSearch.Search | src/envelope/maildir/search.rs:98-156 | the result is a page of the matching messages, stably sorted; a message that does not parse is an error |
| LocalSearch.SearchPagesTile | src/envelope/maildir/search.rs:129-151 | pages one after the other are the whole result, nothing lost or repeated |
| LocalOrder.HitsInOrder | src/envelope/maildir/search.rs:328-356 | of two hits the later one is never sooner: by the field of the first sorter they differ in, turned around by `desc`; without sorters newest first, undated last |
| LocalOrder.FirstSorterRules | src/envelope/m2dir/search.rs:193-221 | after `date desc` a later instant is first and undated messages are last, after `date` the reverse; names and subjects ascend or descend as asked |
| LocalOrder.SecondSorterDecides | src/envelope/m2dir/search.rs:193-221 | among hits level on the first sorter the second decides |
| LocalOrder.HitsAreMatches | src/envelope/maildir/search.rs:98-156 | the hits are the envelopes of the messages that match |
| LocalOrder.ReadAllIs | src/envelope/m2dir/search.rs:223-308 | messages are parsed from their own files, those without a file passed over, and the first that does not parse is the error |
| LocalSearch.CompareWith | src/envelope/m2dir/search.rs:193-212 | the first sorter that tells two messages apart decides |
| Evaluator.CaseDoesNotMatter | src/envelope/maildir/search.rs:251-270 | spellings of a flag that differ only in case are one flag to the evaluator |
| Evaluator.LeafMeaning | src/envelope/maildir/search.rs:251-324 | what each condition asks of a message: its day, its flags, or a substring of that very field, in lower case |
| Evaluator.TreeMeaning | src/envelope/maildir/search.rs:251-270 | `and`, `or` and `not` mean what they say |
| Pagination.WindowIsSlice | src/envelope/imap/list.rs:125-147 | despite saturation the window, fetched and reversed, is the requested page of the mailbox, newest first |
| Pagination.WindowsAdjacent | src/envelope/imap/list.rs:125-147 | windows of successive pages are adjacent from the newest message to the oldest, then empty |
| Pagination.SliceIs | src/m2dir/convert.rs:100-113 | page p of size n is the entries (p - 1)n to pn - 1; no page and page 0 are page 1; no size is everything |
| Pagination.PagesTile | src/maildir/convert.rs:67-80 | successive pages tile the list |
| Pagination.PagesCover | src/maildir/convert.rs:67-80 | enough pages give the whole list back |
| Pagination.PaginateIsSlice | src/m2dir/convert.rs:100-113 | local pagination is the slice, saturation, size 0 and no size included |
| Pagination.PaginateUidsIsSlice | src/envelope/imap/search.rs:173-188 | UID pagination is the slice |
| Pagination.PositionLimitIsSlice | src/jmap/convert.rs:44-54 | position and limit select the slice, and their product never overflows |
| GmailList.PageWalk | src/envelope/gmail/list.rs:126-223 | against any finite chain, page p is the p-th page in server order, or empty; the requests are a prefix of at most p list requests and one get per message, all of them on success; an error needs a failed request |
| GmailList.StepDecreases | src/envelope/gmail/list.rs:126-223 | every answer brings the walk closer to its end |
| GmailList.PageWalkEnds | src/envelope/gmail/list.rs:126-223 | a failed request ends the walk; without one it succeeds with at most p pages and one answer per message |
| GmailList.CompletesOnce | src/envelope/gmail/list.rs:126-223 | once a listing has completed, every further call is an error and asks for nothing |
| GmailList.ResumeIsRun | src/envelope/gmail/list.rs:126-223 | one call is a run over the answers it consumes |
| GmailList.GmailEnvelopeList.Resume | src/envelope/gmail/list.rs:126-223 | state, requests and result as a function of the old state |
| M2dirTransfer.TransferLosesNoMessage | src/message/m2dir/move.rs:100-163 | at every yield, error and completion of any run, each source message is in the source or its contents are in the target |
| M2dirTransfer.SuccessTransfersExactlyIff | src/message/m2dir/move.rs:100-163 | on success the ids were handled in order; a move took exactly them from the source, a copy nothing, and the target gained one entry per id with its contents: exactly when no new entry took the name of an id, and always between two directories |
| M2dirTransfer.AlwaysExactIff | src/message/m2dir/move.rs:100-163 | that is so for every successful run exactly when the directories differ, or the job copies ids that all exist, or moves at most one, or cannot succeed (first id missing, or one moved twice in a row) |
| M2dirTransfer.SecondMoveMayTakeTheFirstName | src/message/m2dir/move.rs:100-163 | moving two messages within their directory has a successful run that is not exact |
| M2dirTransfer.GoingOnLosesNoMessage | src/message/m2dir/move.rs:100-163 | nothing is lost either when the transfer is resumed after errors |
| M2dirTransfer.ResumeGoesOn | src/message/m2dir/move.rs:100-163 | each call goes on from where the last one stopped, error or not |
| M2dirTransfer.SuccessAfterErrorSkipsAnId | src/message/m2dir/move.rs:100-163 | after an error success can leave an id untransferred |
| M2dirTransfer.ErrorSkipsOneId | src/message/m2dir/move.rs:100-163 | an error skips the id in hand and no other: the next call goes on like a new transfer of the ids not yet begun |
| M2dirTransfer.RunLosesNothing | src/message/m2dir/copy.rs:92-134 | the same safety from any state in the middle of a transfer |
| M2dirTransfer.ResumeIsRun | src/message/m2dir/move.rs:100-163 | one call is a run over the answers it consumes |
| M2dirTransfer.TransferEnds | src/message/m2dir/move.rs:100-163 | a transfer fails exactly when a coroutine fails or answers what its stage does not wait for; otherwise it succeeds after at most three answers per id, two for a copy |
| M2dirTransfer.Transfer.Resume | src/message/m2dir/move.rs:100-163 | stage, queue and result as a function of the old state |
| GmailLabels.StoreCommutesIff | src/gmail/convert.rs:70-137 | on every message a store unites, subtracts or replaces the supported flags exactly when no custom keyword is a harmful spelling of a flag label |
| GmailLabels.OneFlagAfter | src/gmail/convert.rs:178-216 | one flag after a store, whichever side of the patch is applied first |
| GmailLabels.OtherLabels | src/gmail/convert.rs:70-137 | a label that is not a flag label is there after a store when asked for, gone when removed, and otherwise as before |
| GmailLabels.OnlyTheSetMatters | src/gmail/convert.rs:70-137 | order and repetition in the request do not matter |
| GmailLabels.FlagsFromLabels | src/gmail/convert.rs:42-63 | the supported flags shown, `\Seen` being the absence of `UNREAD` |
| GmailLabels.FlagTable | src/gmail/convert.rs:42-63 | flag by flag: `\Seen` without UNREAD, the others with STARRED, IMPORTANT, DRAFT, SPAM, and no more |
| GmailLabels.LabelPatch | src/gmail/convert.rs:70-137 | the two label lists of each operation, in order |
| GmailStore.StoreModifiesInOrder | src/flag/gmail/store.rs:57-131 | over any calls from the start, requests are one per id, in order, all with the patch of the operation; success means all of them, or none when there is nothing to do; after completion nothing is sent |
| GmailStore.ResumeModifiesInOrder | src/flag/gmail/store.rs:90-131 | the same for one call from any state on the way |
| GmailStore.ResumeEndsAt | src/flag/gmail/store.rs:90-131 | one call succeeds once every id left had its answer, fails only at a failed request, and otherwise waits |
| GmailStore.StoreStarts | src/flag/gmail/store.rs:57-89 | a store without ids, or that changes no label, succeeds without a request; any other starts with the first id |
| GmailStore.GmailFlagStore.Resume | src/flag/gmail/store.rs:90-131 | state, requests and result as a function of the old state |
| GmailHistory.EventsCommuteWithLabels | src/envelope/gmail/watch.rs:27-98 | replaying the events of a diff over the flags of a message gives the flags of its labels after all additions, then all removals |
| GmailHistory.EventsAreTrueIff | src/envelope/gmail/watch.rs:48-60 | the events give the true flags for every real order of the changes exactly when no flag label of the message is both added and removed |
| GmailHistory.RecordCommutes | src/envelope/gmail/watch.rs:62-98 | the flags one record turns on and off are what its labels do to the flags |
| GmailHistory.AddedMessagesAreSpared | src/envelope/gmail/watch.rs:27-60 | no removal or flag event names a message added by the same diff, whose addition carries its flags |
| GmailHistory.EventsNameMailbox | src/envelope/gmail/watch.rs:27-98 | every event names the watched mailbox, and no flag event is empty |
| GmailHistory.AddedMessagesAreAnnounced | src/envelope/gmail/watch.rs:27-46 | each added message is announced in its place, with its header and the flags its labels show |
| GmailHistory.RemovalsAreAnnouncedIff | src/envelope/gmail/watch.rs:27-60 | a removal is announced exactly for ids removed and not added |
| GmailHistory.HistoryDiffToEvents | src/envelope/gmail/watch.rs:27-60 | the events of a diff, in order |
| Flags.EqualityIsKeyEquality | src/flag/types.rs:146-198 | equality, ordering and hashing all say the same: the normalised keys are equal |
| Flags.CmpIsTotalOrder | src/flag/types.rs:158-175 | the ordering is total, transitive and equal exactly on equal flags |
| Flags.CmpOrders | src/flag/types.rs:158-175 | registered flags first, in the order of their table, then the others by lower-cased spelling |
| Flags.ConstructedIsConsistent | src/flag/types.rs:72-87 | the flags the constructors build are exactly those whose tag is what their spelling says |
| Flags.ClassifyIff | src/flag/types.rs:207-230 | a spelling is classified exactly when it is a registered name in any case after at most one marker |
| Flags.LowersLetters | src/flag/types.rs:158-230 | spellings are compared with the letters A to Z lowered and nothing else changed |
| Flags.CanonicalMarker | src/flag/types.rs:232-250 | system flags are spelled with a backslash, the other registered keywords with a dollar sign |
| Flags.KeywordIsName | src/jmap/convert.rs:26-41 | the JMAP keyword of a registered flag is its name after a dollar sign, that of any other flag its own spelling |
| Flags.KeywordRoundTripIff | src/jmap/convert.rs:26-41 | a flag survives its JMAP keyword exactly when an untagged spelling really is untagged |
| Flags.KeywordRoundTrip | src/jmap/convert.rs:26-41 | every flag a constructor builds survives its JMAP keyword |

## Left out

- `EmailClientStd` dispatch, connections, TLS, threads, channels and the file-system helpers: plumbing around the algorithms.
- Mailbox, message and SMTP wrappers and the Graph backend: single calls into other crates.
- `MsgraphEnvelopeList`: its skip is an unchecked multiplication in front of a single request.
- `flag_from`, `sanitise_atom`, `normalize_message_id`, address splitting and the Maildir and m2dir flag letters: text clean-up that would only add easy members.
- Header items: ENVELOPE, RFC822.SIZE and BODYSTRUCTURE are one item that carries the whole header, so a row with only some of them is not modelled.
- Sort criteria sent to IMAP and JMAP servers: the server's order is taken as given; only the local comparator is modelled.
- Fallback of the IMAP search to client-side sorting, and the request bodies of JMAP search: `JmapSearch` models what is asked and what is kept, not the coroutine's state.
- Error values: each module keeps the branches that fail, not the texts.
- Serde derives: they can build flags no constructor builds; `Flags.Constructed` excludes those.
- Silence of the JMAP watch when the first changes round is truncated: suppression ends after that round, so the rest of the inventory is announced.
- ConversionKeepsMeaning: asks each leaf to agree on the message, while disagreements of two leaves can cancel out; the exact condition is per leaf, in `LeafMeaningIff`.
