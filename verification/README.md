# Verification of the stores, protocols and formats

Dafny models of the parts of the repository whose correctness spans several calls, several
programs or several interleaved runs, and proofs of what those parts promise. Source files are
cited by path and line. `dafny verify dfyconfig.toml` checks everything.

Every file is one component. State that the program updates in place is a class or an imperative
method, proved against a specification function; the results about it are lemmas over that
function and over whole runs of it.

- `PromiseChain`: the serialiser's chain of promises, and why it is a queue.
- `PrivateJsonStore`: the atomic private write and the rollback under that queue, as events between
  which any other code may run. `ConnectionStore` and `EventStore` are the two stores on top of it;
  `StoredVerification` is the clean-up of stored verifications.
- `MetricHistory`: the paged, de-duplicating history loop and the four-worker enrichment pool.
- `BoomCsv`: the one-pass CSV reader, against the printing of section 2 of RFC 4180.
- `DesktopTransfer`: gateway and desktop node, each undoing the other.
- `AcquisitionCenter`: fallback and retry loops with their audit ledgers. `CanonicalValue`: the
  key-order-free form the receipts digest.
- `DedupGovernor`, `CircuitBreaker`, `RefreshScheduler`, `SnapshotCache`: the time-driven state
  machines, under overlapping calls and a clock that does not fall back.
- `KnowledgeIndex`: the transactional vector index and the two-stage search.
- `WebVtt`: the subtitle printer, against a reader after sections 4.1 and 6 of W3C WebVTT.
- `StableSort`, `Decimal`, `JsText`, `Wrappers`: sorting, numerals, trimming, absent values.

## Where a promise fails, and exactly when it holds

- The file is ahead of memory after a chmod that fails once the rename is done
  (`HardenFailureLeavesFileAhead`, `IdleFileAgreesIff`), and differs from it after an `init` that
  found one id twice and nothing to write back (`AccountFileAgreesIff`).
- `init` can leave a sole active account without the default flag when two records share an id
  (`OverwrittenDefaultIsLost`, `SoleActiveIsDefaultIff`). It is not idempotent then
  (`LostDefaultComesBack`), nor when a stored text is cut just after a space or a failure code is
  all white space (`CutLeavesSpace`, `CleanedTwiceIff`); these are the only cases
  (`InitialisedTwiceIff`, `InitialisedTwiceOnRecordsIff`), and the second `init` settles them all
  (`InitSettles`).
- Pruning can drop unresolved critical events, which the age filter alone never does
  (`CriticalEventIsLost`, `SurvivorsByRank`, `ListedIff`); with a bound of -1 or less it is not
  idempotent (`NegativeBoundDropsMore`, `PruneTwiceIff`).
- The gateway sends lists of any length and has its own limit, the node takes sixteen values and
  has another (`ReceiveTooMany`, `TransferRoundTrip`).
- A receipt can name a failure other than its last attempt's (`ReceiptCanDisagree`,
  `ReceiptNamesLastFailure`).
- A failing replacement empties its index (`FailedReplacementEmptiesIndex`,
  `FailureKeepsContentsIff`), and a failing upsert of a new name leaves an empty database behind
  that later searches find (`FailedUpsertChangesAnswer`, `FailureChangesNothingIff`).
- `invalidate` during a load is undone when the load finishes (`InvalidateHoldsIff`). The snapshot
  is the loader's own array: whoever keeps it can change the cache (`WriteReachesCacheIff`,
  `WriteReachesWaitingIff`).
- The scheduler goes idle when its timer meets a closed gate (`IdleIff`); its delay falls after a
  failure for intervals above 60000 (`DelayBoundsIff`); a threshold of zero or less reports
  recoveries without degradation (`RecoveryFollowsDegradationIff`).
- A breaker with a threshold below one opens only after a failure, as with a threshold of one
  (`ThresholdMatters`), and the half-open test in `recordFailure` decides nothing
  (`CounterIsTrailingRun`).
- Overlapping dispatches of one signal break the logarithmic bound on versions
  (`OverlapBreaksBound`), not the one on fresh dispatches (`SurgesAreLogarithmic`), and a clear
  between two dispatches lifts the retention window (`ClearForgets`, `NewIff`).
- Subtitle content with a blank line does not survive the file format (`BlankLineIsLost`,
  `RoundTripIff`), and a cue can be printed with its end at its start (`EndCanMeetStart`,
  `EndsAfterStartIff`).

## Model

| member | source | states |
|---|---|---|
| PrivateJsonStore.IdleMemoryIsSequentialFold | integrations/access/private-json-store.ts:4-11 | For every interleaving of submissions and every way each await can end: whenever nothing is running, memory is the fold of the succeeded mutations alone, and finished plus waiting mutations are exactly those submitted, in order. |
| PromiseChain.OneAtATimeInOrder | integrations/access/private-json-store.ts:4-11 | Of the promises themselves: whatever order reactions run in and however operations end, at most one runs at a time, and they start and end in the order in which they were handed over. |
| PromiseChain.PredecessorReleases | integrations/access/private-json-store.ts:7-8 | A settled promise releases the next, however it settled: the operation after a rejection starts all the same, and the promise after it is fulfilled. |
| PromiseChain.ChainDrains | integrations/access/private-json-store.ts:4-11 | A failed operation never blocks a later one: a run without submissions is bounded by the work in hand, and one that cannot be extended has ended every operation. |
| PromiseChain.ChainRefinesQueue | integrations/access/private-json-store.ts:4-11 | Every run of a store driven by the promise chain is a run of the store driven by a first-in, first-out queue with one slot, so the results over the queue hold of the chain. |
| PromiseChain.StartsHead | integrations/access/private-json-store.ts:7 | When the chain starts a callback, nothing else is running and that callback is the one submitted earliest of those not begun. |
| PromiseChain.ChainKeepsSequentialFold | integrations/access/connection-store.ts:50-61 | Under the chain, memory between callbacks is the sequential fold of those that succeeded. |
| PromiseChain.JointDrains | integrations/access/connection-store.ts:50-61 | Chain and store together never block: without submissions a run is bounded by the work in hand, and one that cannot be extended has finished every mutation and settled its promise. |
| PromiseChain.MutationSerializer.Serialize | integrations/access/private-json-store.ts:6-10 | The two `then` calls and the reassignment of `pending`. |
| PrivateJsonStore.SubmissionOrder | integrations/access/connection-store.ts:50-61 | Of the store under the queue that the chain is: mutations finished, running and waiting are always those submitted, in order. |
| PrivateJsonStore.RunKeepsInv | integrations/access/connection-store.ts:50-61 | The state machine's invariant at every suspension point: the snapshot is the fold of the successes, every logged outcome is one its mutation could have had, and a failing mutation has left the file as its log entry says. |
| PrivateJsonStore.QueueDrains | integrations/access/connection-store.ts:50-61 | Of the store under that queue: whichever awaits fail, the steps left are bounded by the work in hand, and a run that cannot be extended has finished every mutation. |
| PrivateJsonStore.CrashLeavesBoundary | integrations/access/private-json-store.ts:17-30 | At every step the file holds the whole text of a mutation boundary, never part of a write. |
| PrivateJsonStore.IdleFileAgreesIff | integrations/access/private-json-store.ts:17-30 | With the queue idle the file reads back as memory exactly when the last mutation that renamed also completed its chmod, or would not change the store anyway; and while none has renamed, exactly when the file it opened did. |
| PrivateJsonStore.HardenFailureLeavesFileAhead | integrations/access/private-json-store.ts:24-28 | The run of one mutation whose chmod fails, after which the file is ahead of memory. |
| PrivateJsonStore.GoodThroughout | integrations/access/connection-store.ts:50-61 | A property every mutation keeps holds of memory at every step of every run, and of whatever file a crash leaves. |
| PrivateJsonStore.TemporaryIff | integrations/access/private-json-store.ts:18-29 | There is a temporary file exactly when the last mutation to write one got something on disk that it has neither renamed nor removed. |
| PrivateJsonStore.JsonStore.Submit | integrations/access/private-json-store.ts:6-9 | `runMutation` appends to the promise chain and changes nothing else. |
| PrivateJsonStore.JsonStore.Start | integrations/access/connection-store.ts:50-55 | Snapshot, then the callback up to its first await: it may return, throw with memory dirtied, or persist. |
| PrivateJsonStore.JsonStore.Write | integrations/access/private-json-store.ts:18-23 | The temporary file gets the whole text, or part of it on failure; the real file is untouched. |
| PrivateJsonStore.JsonStore.Rename | integrations/access/private-json-store.ts:24 | The rename replaces the file at once, or fails and leaves it. |
| PrivateJsonStore.JsonStore.Harden | integrations/access/private-json-store.ts:13-15 | The chmod either commits the mutation or makes it fail after the file has changed. |
| PrivateJsonStore.JsonStore.Remove | integrations/access/private-json-store.ts:26-29 | The catch block removes the temporary file; its own failure is swallowed. |
| PrivateJsonStore.JsonStore.Unwind | integrations/access/connection-store.ts:56-60 | The snapshot is put back and the error let out. |
| ConnectionStore.DefaultsOverRuns | integrations/access/connection-store.ts:63-237 | After `init` on any file and any run of changes in any interleaving with any await failing: at every step, memory and the file a crash leaves have at most one default per provider and only active defaults. |
| ConnectionStore.InitialisedOk | integrations/access/connection-store.ts:67-94 | Any file, duplicate ids and malformed flags included, comes out of `init` with the rule satisfied and distinct ids. |
| ConnectionStore.SoleActiveIsDefaultIff | integrations/access/connection-store.ts:69-93 | A sole active account is the default after `init` exactly when the record elected for its provider was not overwritten by a later record with the same id; with distinct ids, always. |
| ConnectionStore.OverwrittenDefaultIsLost | integrations/access/connection-store.ts:69-93 | The concrete file for which the sole active account ends up without the flag. |
| ConnectionStore.FileAgreesAfterInitIff | integrations/access/connection-store.ts:63-99 | After `init` the file reads back as memory exactly when there was no file, something was written back, or the records have distinct ids. |
| ConnectionStore.AccountFileAgreesIff | integrations/access/connection-store.ts:50-99 | The same at every idle moment of every run after `init`, with the chmod failure as the other exception. |
| ConnectionStore.InitialisedTwiceIff | integrations/access/connection-store.ts:67-96 | For any clean-up of stored verifications: what `init` writes back is a fixed point of `init` exactly when no sole active account lost its flag and every cleaned verification is clean; its flags alone are fixed exactly under the first condition. |
| ConnectionStore.InitialisedTwiceOnRecordsIff | integrations/access/connection-store.ts:67-96 | The same read off the file, for the clean-up of the program: no elected default of a provider left with one active account is overwritten, and every record that is not overwritten is stored so that one cleaning settles it. |
| ConnectionStore.InitSettles | integrations/access/connection-store.ts:67-96 | With the clean-up of the program, a third `init` never changes what the second wrote, whatever the file. |
| ConnectionStore.LostDefaultComesBack | integrations/access/connection-store.ts:69-93 | A file with one id twice that `init` changes again. |
| ConnectionStore.CutLeavesSpace | integrations/access/connection-store.ts:76-79 | A file with distinct ids that `init` changes again, for a verification cut just after a space. |
| StoredVerification.CleanedTwiceIff | integrations/access/connection-store.ts:307-329 | Cleaning a stored verification again changes nothing exactly when no text it keeps is cut just after white space and a failure code, if there is one, is not all white space. |
| StoredVerification.CleanedThrice | integrations/access/connection-store.ts:307-329 | A third cleaning never changes anything. |
| StoredVerification.SafeListLaw | integrations/access/connection-store.ts:323-329 | Cleaned capabilities are distinct, not blank, within both bounds, and trimmed once cleaned twice. |
| StoredVerification.SafeListCovers | integrations/access/connection-store.ts:323-329 | Every capability that is not blank is kept, cut, unless there are twenty-four others. |
| StoredVerification.CleanIff | integrations/access/connection-store.ts:307-321 | Cleaning leaves a verification as it is exactly when it is well formed, drops it exactly when it has no time, and never changes the time or the verdict. |
| StoredVerification.CleaningIsNotIdempotent | integrations/access/connection-store.ts:314 | Ninety-nine letters, a space and a letter: cut at one hundred, trimmed only the next time. |
| ConnectionStore.ChangeKeeps | integrations/access/connection-store.ts:120-234 | Every mutation, on every store that satisfies the rule and has distinct ids, keeps both, in whatever state it leaves memory when it throws. |
| ConnectionStore.SetDefaultKeeps | integrations/access/connection-store.ts:207-224 | The chosen account becomes the default of its provider, and the only one. |
| ConnectionStore.ConnectionStore.Init | integrations/access/connection-store.ts:67-94 | The two loops, in place, against the election read off the whole file; `changed` exactly when something must be written back. |
| ConnectionStore.ConnectionStore.Promote | integrations/access/connection-store.ts:81-93 | Grouping and promoting gives exactly the sole active accounts of unclaimed providers the flag. |
| ConnectionStore.EffectLaw | integrations/access/connection-store.ts:120-234 | What each change does, read off the accounts before and after: creating opens one active account, default exactly when its provider had no active one; a status change gives the account with that id that status and takes the flag from one not active; reauthorising makes it active with the new alias and credential and no expiry, default unless another is, or is refused; health, verification and default likewise; every other account and field is as it was, and an unknown id changes nothing. |
| ConnectionStore.StatusIsLastSet | integrations/access/connection-store.ts:120-234 | In every run, whatever fails: with nothing running, the status of an account is the one given by the last change that was committed and gave one, or the one it began with. |
| ConnectionStore.RevokedStaysInactive | integrations/access/connection-store.ts:152-163 | An account once revoked or disabled is not active until a later change that makes it active again is committed. |
| ConnectionStore.ConnectionStore.Perform | integrations/access/connection-store.ts:120-234 | Each callback in place: it returns early, throws or persists, and does to the accounts what `EffectLaw` says. |
| ConnectionStore.ConnectionStore.ChangeStatus | integrations/access/connection-store.ts:152-163 | An unknown status is refused and leaves the map alone; otherwise the account with that id has exactly that status, is not default unless active, and nothing else differs. |
| ConnectionStore.ConnectionStore.SetDefault | integrations/access/connection-store.ts:207-224 | The loop over all accounts, against its pointwise meaning. |
| EventStore.PruneChooses | integrations/access/operations-event-store.ts:77-86 | Said of the entries themselves: kept are the critical ones not resolved and those no older than the limit of at least a day, all if they fit the bound, else as many as it says, newest first and none older than one dropped for want of room. |
| EventStore.SurvivorsByRank | integrations/access/operations-event-store.ts:76-94 | Which entries pruning keeps and where, for any log: those the age limit spares, all in order if they fit, else each at its rank, newest first and older entries first among equals, as far as there is room; no two share a rank. |
| EventStore.ListedIff | integrations/access/operations-event-store.ts:76-94 | For distinct ids, the same as membership in the pruned log. |
| EventStore.CriticalEventIsLost | integrations/access/operations-event-store.ts:79-85 | An unresolved critical event crowded out by the size bound although the age limit spares it. |
| EventStore.PruneOnlyDrops | integrations/access/operations-event-store.ts:76-86 | For any log, pruning invents, alters and repeats nothing, keeps only what the age limit spares and respects the bound. |
| EventStore.PruneTwiceIff | integrations/access/operations-event-store.ts:76-86 | For any log, pruning twice is pruning once exactly when the bound is above -1 or leaves nothing. |
| EventStore.NegativeBoundDropsMore | integrations/access/operations-event-store.ts:83-85 | Two events and a bound of -1: the second pruning drops the one the first left. |
| EventStore.LogOverMutations | integrations/access/operations-event-store.ts:42-94 | After any sequence of succeeded records and prunes, from any log, every entry is one that came in, unaltered and no more often than it came. |
| EventStore.DistinctOverMutations | integrations/access/operations-event-store.ts:42-94 | Distinct ids stay distinct. |
| EventStore.OperationsEventStore.Init | integrations/access/operations-event-store.ts:29-38 | The list the file holds; an empty log for any other JSON; untouched without a file. |
| EventStore.OperationsEventStore.RecordEvent | integrations/access/operations-event-store.ts:55-64 | The event is appended and persisted. |
| EventStore.OperationsEventStore.Prune | integrations/access/operations-event-store.ts:76-93 | Filter, sort and slice in place, with the three counts returned. |
| StableSort.SortRank | integrations/access/operations-event-store.ts:84 | The stable sort that the repository relies on: every element stands at its rank, the number of earlier elements that may precede it plus later ones that must. |
| StableSort.RankInjective | integrations/access/operations-event-store.ts:84 | No two elements share a rank. |
| MetricHistory.CollectHistory | integrations/access/mediacrawler-pro-adapter.ts:195-220 | The nested loop: on success the history is the first `limit` eligible works of the pages read; each page is the answer to the cursor of the one before, which announced another and was not blank; at most five; it stops exactly at the limit, the page bound or the last cursor; a failed request aborts. |
| MetricHistory.EligibleIds | integrations/access/mediacrawler-pro-adapter.ts:210-216 | The eligible works have pairwise distinct, non-empty ids other than the target's, and name every such id of the feed. |
| MetricHistory.EligibleOrder | integrations/access/mediacrawler-pro-adapter.ts:210-216 | They keep feed order, each the copy seen first. |
| MetricHistory.CollectPage | integrations/access/mediacrawler-pro-adapter.ts:210-216 | The inner loop with its early break equals taking the first `limit` of the longer feed. |
| MetricHistory.EnrichHistoryMetrics | integrations/access/mediacrawler-pro-adapter.ts:273-297 | Over every interleaving of the workers: the pool ends, the array equals the sequential per-item map, every index is claimed once, and requests go out for exactly the works that need one. |
| MetricHistory.EnrichedIff | integrations/access/mediacrawler-pro-adapter.ts:281-289 | Asked for are exactly the works without a like count, or on Xiaohongshu without one of favourites, that have a public address; replaced are those of them whose reply carries the same id. |
| MetricHistory.WorkerPool.Advance | integrations/access/mediacrawler-pro-adapter.ts:278-287 | One worker's round up to its request keeps the pool invariant and makes progress. |
| MetricHistory.WorkerPool.Settle | integrations/access/mediacrawler-pro-adapter.ts:288-292 | A reply or failure arriving at any time keeps the pool invariant and makes progress. |
| MetricHistory.EnrichmentKeepsIds | integrations/access/mediacrawler-pro-adapter.ts:289 | Enrichment keeps length and ids. |
| BoomCsv.ParseBoomCsv | apps/ajun-runtime/public/boom-monitor-console.js:6-57 | The index loop over mutable `row`, `value` and `quoted` computes the state machine's table and its errors. |
| BoomCsv.RoundTrip | apps/ajun-runtime/public/boom-monitor-console.js:6-57 | Any header and records of trimmed cells, no row all-empty, printed in any way section 2 of RFC 4180 allows, read back as one object per record that maps each header to its column, as a number exactly for the eight counts when not empty. |
| BoomCsv.ReadPrinted | apps/ajun-runtime/public/boom-monitor-console.js:11-45 | The table read from any printing of any rows: those rows with cells trimmed and all-empty rows dropped, line breaks, commas and doubled quotes included, byte order mark or not. |
| BoomCsv.UnclosedIffOddQuotes | apps/ajun-runtime/public/boom-monitor-console.js:46-47 | The unclosed-quote error is reported exactly for texts with an odd number of quotes. |
| BoomCsv.ErrorsIff | apps/ajun-runtime/public/boom-monitor-console.js:48-52 | Of any printing, the other two errors are reported exactly for fewer than two rows with text and for a header without `work_id`. |
| BoomCsv.BomIsTrimmed | apps/ajun-runtime/public/boom-monitor-console.js:11 | A second byte order mark is trimmed off the first cell. |
| DesktopTransfer.TransferRoundTrip | integrations/local-ai/desktop_enhancement_node.py:525-569 | For any two limits, read off the payload: the gateway sends one attachment for each element of a list in a list field and one for any other value that is not falsy, and takes out exactly those fields; the node then gives the payload back with each such value replaced, at its field and position, by the path of a distinct new file with the same bytes, exactly when no list holds more than sixteen values and the sizes sent fit its own limit; otherwise it names one of the two that is not so. |
| DesktopTransfer.PreparedLaw | integrations/local-ai/local_ai_gateway.py:1047-1071 | The gateway succeeds exactly when some parcel holds what the payload asks for within the limit; it sends that parcel, leaves out exactly the fields it stands for, and blames a missing file only when the payload names it. |
| DesktopTransfer.RequestLaw | integrations/local-ai/desktop_enhancement_node.py:533-569 | The node's law for every request: accepted exactly when every attachment names a field of the table, has a position just where it should, decodes and carries its own digest, and together they fit; then there is one file for each with the decoded bytes, its path stands in its place unless a later attachment has the same, and every other key is as it was; a rejection names a reason that is so. |
| DesktopTransfer.PlaceLaw | integrations/local-ai/desktop_enhancement_node.py:559-568 | Placing a path leaves every other position and key as it was, and fills a gap before it with nulls. |
| DesktopTransfer.ReceiveHonestIff | integrations/local-ai/desktop_enhancement_node.py:535-558 | The node takes a whole parcel exactly when every position is in range and the bytes fit, and else fails with no other error. |
| DesktopTransfer.RequestStaysWithinLimit | integrations/local-ai/desktop_enhancement_node.py:534-558 | For any request at all, accepted or rejected, the bytes written stay within the limit and no path is written twice. |
| DesktopTransfer.ReceiveHonest | integrations/local-ai/desktop_enhancement_node.py:535-568 | The node takes an attachment the gateway made: it writes a copy and records the path. |
| DesktopTransfer.ReceiveTooMany | integrations/local-ai/desktop_enhancement_node.py:540-542 | The seventeenth value of a list is refused, which the gateway does not prevent. |
| DesktopTransfer.AttachIff | integrations/local-ai/local_ai_gateway.py:1051-1070 | Of given items: attaching succeeds exactly when every named file exists and together they fit, and then sends one attachment per item, in order. |
| DesktopTransfer.PrepareDesktopPayload | integrations/local-ai/local_ai_gateway.py:1037-1071 | The two loops that pop fields and accumulate attachments: they send what the payload asks for, as `PreparedLaw` says, or fail. |
| DesktopTransfer.MaterializeAttachments | integrations/local-ai/desktop_enhancement_node.py:525-569 | The loop that validates, decodes, counts, compares digests, writes and places. |
| DesktopTransfer.ArtifactRoundTrip | integrations/local-ai/local_ai_gateway.py:1074-1103 | Unpacking undoes packing: the gateway writes the bytes of the node's file and hands on the result with its own path, exactly when they fit its own limit and the request id is acceptable. |
| DesktopTransfer.UnpackWritesOnlyChecked | integrations/local-ai/local_ai_gateway.py:1083-1099 | Nothing is written unless it fits and carries its own digest. |
| DesktopTransfer.UnpackedIff | integrations/local-ai/local_ai_gateway.py:1074-1103 | An artifact is taken exactly when it decodes, fits, has a readable size and the right one if any, carries its own digest and the request id is acceptable; one file with its bytes is written then and its path handed on, and otherwise nothing is and the fault named is one it has. |
| DesktopTransfer.PackedIff | integrations/local-ai/desktop_enhancement_node.py:572-584 | Packing succeeds exactly when there is nothing to pack or the path names a file of the output directory within the limit. |
| DesktopTransfer.PackResultArtifact | integrations/local-ai/desktop_enhancement_node.py:572-592 | The copied result with the file in place of its path, or the error. |
| DesktopTransfer.UnpackDesktopArtifact | integrations/local-ai/local_ai_gateway.py:1074-1103 | The guards in order, the one file written and the edited copy. |
| Decimal.PadValue | integrations/local-ai/desktop_enhancement_node.py:557 | Zero-padded positions and clock fields read back as the number. |
| AcquisitionCenter.Fetch | integrations/access/content-acquisition-center.ts:54-154 | Read off the request: `acquire` is called at exactly the candidates tried for which credentials are not needed, or granted, or refused to an adapter that does without; the loop goes on after every failure but a missing broker where credentials are required, and stops at the first delivery; each ledger entry says what happened; the result is ok exactly when the last one tried delivered and else reports the last failure not passed over; and the receipt has that outcome, a failure code exactly when it is not ok, the last entry's route and adapter or the defaults, and the route before it as `fallbackFrom`. |
| AcquisitionCenter.TotalIsCalls | integrations/access/content-acquisition-center.ts:393-394 | `totalAttempts` on the receipt equals the number of `acquire` calls made. |
| AcquisitionCenter.SuccessIsLast | integrations/access/content-acquisition-center.ts:117 | A success entry is last, and there is one exactly when the result is ok. |
| AcquisitionCenter.ReceiptNamesLastFailure | integrations/access/content-acquisition-center.ts:396 | The receipt's failure code is that of its last entry, except exactly when that entry is a missing broker the loop passed over and the codes differ. |
| AcquisitionCenter.ReceiptCanDisagree | integrations/access/content-acquisition-center.ts:71-74 | Two candidates for which the receipt names the first one's failure over the second one's entry. |
| AcquisitionCenter.CandidateOrder | integrations/access/content-acquisition-center.ts:253-259 | The candidates are the suitable adapters, specialised first, in configured order within a class. |
| AcquisitionCenter.CandidateIff | integrations/access/content-acquisition-center.ts:253-259 | A candidate is exactly a configured adapter that matches, is healthy, offers a requested capability and meets the requirement if there is one. |
| AcquisitionCenter.CollectMetrics | integrations/access/content-acquisition-center.ts:156-219 | The ledger obeys the retry rules, a success is last and its object bundle carries exactly the earlier failures, and a failure has exhausted every candidate. |
| AcquisitionCenter.MetricsLedgerTells | integrations/access/content-acquisition-center.ts:160-216 | Read off the request: an entry records a call exactly where a collector can be called, with its reply; after a failure comes the same candidate's next attempt exactly when the failure asks for a retry and fewer calls than the limit and one were made, else the next candidate; and nothing is left to try exactly after the last candidate's last. |
| AcquisitionCenter.TryCollector | integrations/access/content-acquisition-center.ts:184-210 | The attempt loop: a repeat only after a retryable failure with attempts left. |
| AcquisitionCenter.CallsBounded | integrations/access/content-acquisition-center.ts:51 | Collector calls never exceed candidates times the clamped attempts. |
| AcquisitionCenter.ClampRetryLimit | integrations/access/content-acquisition-center.ts:51 | The limit in force is the one between 0 and 2 nearest to the configured one. |
| CanonicalValue.CanonicalIff | integrations/access/content-acquisition-center.ts:424-430 | Two values have one canonical form exactly when they differ in object key order only, at any depth. |
| CanonicalValue.CanonicalIdempotent | integrations/access/content-acquisition-center.ts:424-430 | Canonicalising twice changes nothing more. |
| CanonicalValue.CanonicalOnlyReorders | integrations/access/content-acquisition-center.ts:424-430 | The canonical form is the value itself with other key orders. |
| CanonicalValue.CanonicalOrder | integrations/access/content-acquisition-center.ts:427-429 | In a canonical object array-index keys come first by number, the rest by code unit. |
| CanonicalValue.DigestIgnoresKeyOrder | integrations/access/content-acquisition-center.ts:416-422 | Receipt digests ignore key order and, for a serialiser and hash that tell values apart, nothing else. |
| DedupGovernor.SurgesAreLogarithmic | integrations/boom-monitor/boom-signal-dedup-governor.ts:49-108 | In every run, a live record that was recorded f >= 2 times on a fresh dispatch has at least (1+r)^(f-2) likes, whatever else was recorded. |
| DedupGovernor.VersionsAreLogarithmic | integrations/boom-monitor/boom-signal-dedup-governor.ts:49-108 | When signals are recorded only after a dispatch, a live record of version n >= 2 has at least (1+r)^(n-2) likes. |
| DedupGovernor.StepKeeps | integrations/boom-monitor/boom-signal-dedup-governor.ts:86-108 | Each step keeps that bound and never lowers a live record's likes. |
| DedupGovernor.OverlapBreaksBound | integrations/boom-monitor/boom-signal-dedup-governor.ts:49-108 | Two overlapping dispatches of one signal break the bound in terms of the version. |
| DedupGovernor.NewIff | integrations/boom-monitor/boom-signal-dedup-governor.ts:58-66 | In every run whose clock does not fall back, an evaluation says "new" exactly when no signal of its key was recorded since the last `clear`, or the last one lies more than the retention window back. |
| DedupGovernor.SurgeIff | integrations/boom-monitor/boom-signal-dedup-governor.ts:58-84 | In every run of a governor: "surge" exactly when the evaluation does not say "new" and the likes exceed the most recorded since the record was made by the ratio of it, or of one; otherwise "suppress". |
| DedupGovernor.RecordTells | integrations/boom-monitor/boom-signal-dedup-governor.ts:86-116 | In every run a key is held exactly when it has recordings since the last clear or expiry, and the record is their summary: the most likes, their number, the first and last time, the mission named last. |
| DedupGovernor.NewOnlyAfterWindow | integrations/boom-monitor/boom-signal-dedup-governor.ts:58-66 | Two "new" dispatches of one key are more than the retention window apart, or a `clear` lies between them. |
| DedupGovernor.ClearForgets | integrations/boom-monitor/boom-signal-dedup-governor.ts:118-120 | After `clear` a key just recorded is new at once. |
| DedupGovernor.BoomSignalDedupGovernor.Evaluate | integrations/boom-monitor/boom-signal-dedup-governor.ts:49-84 | The pruned history, and the decision for a live record: "surge" exactly when the likes grew by the ratio, else "suppress", with the record; "new" without one; an empty key changes nothing. |
| DedupGovernor.BoomSignalDedupGovernor.Record | integrations/boom-monitor/boom-signal-dedup-governor.ts:86-108 | The record created or updated in place. |
| DedupGovernor.BoomSignalDedupGovernor.PruneExpired | integrations/boom-monitor/boom-signal-dedup-governor.ts:110-116 | The deleting loop leaves exactly the records within the window. |
| CircuitBreaker.CounterIsTrailingRun | apps/ajun-runtime/src/adapter-circuit-breaker.ts:23-48 | Over every run of overlapping calls and direct recordings, for any threshold, the counter is the trailing run of failed completions, and the breaker is closed exactly when that run is below the threshold, or below one. |
| CircuitBreaker.AdmitsIff | apps/ajun-runtime/src/adapter-circuit-breaker.ts:50-71 | `execute` starts a primary call exactly when too few completions failed in a row or the last failed one lies the cooldown back. |
| CircuitBreaker.NoPrimaryDuringCooldown | apps/ajun-runtime/src/adapter-circuit-breaker.ts:42-66 | After a failure that reaches the threshold no primary call starts within the cooldown unless a call succeeds or a reset comes first. |
| CircuitBreaker.ThresholdMatters | apps/ajun-runtime/src/adapter-circuit-breaker.ts:18 | The breaker is closed exactly while failures are below the threshold itself, in every run, if and only if the threshold is at least one. |
| CircuitBreaker.AdapterCircuitBreaker.GetState | apps/ajun-runtime/src/adapter-circuit-breaker.ts:23-31 | Open turns half-open once the cooldown is over, and not before. |
| CircuitBreaker.AdapterCircuitBreaker.RecordFailure | apps/ajun-runtime/src/adapter-circuit-breaker.ts:42-48 | Counts, and opens at the threshold or from half-open. |
| CircuitBreaker.AdapterCircuitBreaker.Execute | apps/ajun-runtime/src/adapter-circuit-breaker.ts:50-66 | Whether a primary call starts, and the state left behind. |
| RefreshScheduler.OneAtATime | apps/ajun-runtime/public/refresh-scheduler.js:55-97 | In every reachable state at most one refresh is in flight and at most one timer pending, none after a stop. |
| RefreshScheduler.RunKeeps | apps/ajun-runtime/public/refresh-scheduler.js:49-83 | Also: the pending timer carries the delay for the present number of failures. |
| RefreshScheduler.IdleIff | apps/ajun-runtime/public/refresh-scheduler.js:61-85 | The scheduler has neither a refresh nor a timer exactly when its timer fired on a closed gate with nothing in flight and every request since met a closed gate. |
| RefreshScheduler.NeverIdleWhileOpen | apps/ajun-runtime/public/refresh-scheduler.js:61-85 | It never goes idle while the gate is open whenever a timer fires. |
| RefreshScheduler.DelayBoundsIff | apps/ajun-runtime/public/refresh-scheduler.js:48-54 | The delay lies between the interval and 60000 and never falls as failures grow exactly for intervals up to 60000. |
| RefreshScheduler.TimerWaits | apps/ajun-runtime/public/refresh-scheduler.js:49-60 | In every run a pending timer waits the interval, or after failures in a row 2, 4, 8, 16 and then 32 times as long, but no more than 60000. |
| RefreshScheduler.RecoveryFollowsDegradationIff | apps/ajun-runtime/public/refresh-scheduler.js:66-78 | Every recovery callback directly follows a degradation, in every run, exactly when the threshold is positive; callbacks that throw included. |
| RefreshScheduler.RefreshScheduler.Settle | apps/ajun-runtime/public/refresh-scheduler.js:65-82 | The rest of `refreshNow` after its await: counting, callbacks, rescheduling. |
| RefreshScheduler.RefreshScheduler.RefreshNow | apps/ajun-runtime/public/refresh-scheduler.js:61-66 | A refresh is called only when none runs, the gate is open and the scheduler is not stopped. |
| RefreshScheduler.RefreshScheduler.ScheduleNext | apps/ajun-runtime/public/refresh-scheduler.js:55-60 | The old timer is cancelled and one with the present delay set, unless stopped. |
| RefreshScheduler.RefreshScheduler.Stop | apps/ajun-runtime/public/refresh-scheduler.js:91-97 | Stopping cancels the timer and is final. |
| KnowledgeIndex.VectorsHaveIndexDimension | integrations/local-ai/knowledge_index.py:19-87 | In every index reachable by any upserts, succeeding or failing, all stored vectors have the dimension of the metadata. |
| KnowledgeIndex.FailureChangesNothingIff | integrations/local-ai/knowledge_index.py:38-78 | A failing upsert leaves every database as it was exactly when it was refused before one was opened, or its database existed and, if it was to be replaced, was empty. |
| KnowledgeIndex.FailureKeepsContentsIff | integrations/local-ai/knowledge_index.py:38-78 | What the indexes hold is the same exactly when the upsert did not replace, was refused before the database was opened, or had nothing to lose. |
| KnowledgeIndex.FailedUpsertChangesAnswer | integrations/local-ai/knowledge_index.py:41-42 | A failing upsert of a new name: a search that found no index before finds one of another version after. |
| KnowledgeIndex.FailedReplacementEmptiesIndex | integrations/local-ai/knowledge_index.py:39-41 | A replacement whose commit fails leaves its index empty. |
| KnowledgeIndex.SuccessStores | integrations/local-ai/knowledge_index.py:52-77 | A successful upsert touches one index and counts its chunks; under each id stands the last document with it, text and scope cut to length and vector normalised, or what was there. |
| KnowledgeIndex.UpsertSucceedsIff | integrations/local-ai/knowledge_index.py:30-78 | An upsert succeeds exactly when counts and dimensions are right, all names are names, the index was not made otherwise, every document can be stored and the commit succeeds; else the error is one of these that fails. |
| KnowledgeIndex.SearchFindsTheBest | integrations/local-ai/local_ai_gateway.py:784-816 | A search returns the best `rerankTopK` by relevance, no fewer than 1 and no more than the first cut, among the `topK` best by vector score, between 1 and 50, of exactly the chunks in the scopes the request names, or in `local-private` when it names none; each a stored chunk with such a scope, each once. |
| KnowledgeIndex.SearchSucceedsIff | integrations/local-ai/knowledge_index.py:98-130 | A search succeeds exactly when name, version and dimensions fit and the query and every chunk asked for can be normalised; else the error is one of these that fails. |
| KnowledgeIndex.KnowledgeIndex.Upsert | integrations/local-ai/knowledge_index.py:19-87 | Checks, replacement, transaction and commit or rollback. |
| KnowledgeIndex.KnowledgeIndex.Candidates | integrations/local-ai/knowledge_index.py:89-130 | Version and dimension errors, then scoring row by row, sorting and cutting. |
| KnowledgeIndex.KnowledgeIndex.Search | integrations/local-ai/local_ai_gateway.py:784-816 | On the rows with a scope the request names, or the private one: the clamps, the two stages and the assignment of rerank scores by index. |
| KnowledgeIndex.KnowledgeIndex.Assign | integrations/local-ai/local_ai_gateway.py:808-809 | Writing the sorted verdicts back by index gives every candidate its own score. |
| KnowledgeIndex.VerdictsCover | integrations/local-ai/retrieval_engine.py:113-120 | The reranker's sorted reply names every position once with that position's score. |
| WebVtt.RoundTripIff | integrations/access/bilibili-native-subtitle-adapter.ts:209-218 | Reading the printed file gives the same cues in order, times rounded and content cleaned, exactly when no cleaned content has a blank line. |
| WebVtt.ServiceRoundTripIff | integrations/access/bilibili-native-subtitle-adapter.ts:209-230 | The same for whatever `validCues` lets through. |
| WebVtt.TimeRoundTrip | integrations/access/bilibili-native-subtitle-adapter.ts:250-261 | A parser of section 4.1 timestamps undoes the formatting, for hours of two digits or more. |
| WebVtt.TimeOrder | integrations/access/bilibili-native-subtitle-adapter.ts:250-257 | Formatting keeps the order of times, tells different milliseconds apart and rounds to the nearest one. |
| WebVtt.EndsAfterStartIff | integrations/access/bilibili-native-subtitle-adapter.ts:213 | The printed end is after the printed start, as section 4.1 wants, exactly when the two differ once rounded to milliseconds. |
| WebVtt.EndCanMeetStart | integrations/access/bilibili-native-subtitle-adapter.ts:213 | Two valid cues printed with their end at their start. |
| WebVtt.BlankLineIsLost | integrations/access/bilibili-native-subtitle-adapter.ts:214 | A cue with a blank line in its content that does not come back. |
| WebVtt.CleanIsSafe | integrations/access/bilibili-native-subtitle-adapter.ts:214 | Cleaned content is trimmed and holds no arrow that would start another cue. |
| WebVtt.CleanIsNotEmpty | integrations/access/bilibili-native-subtitle-adapter.ts:214 | Cleaning a valid cue never empties it. |
| WebVtt.CleanFixedIff | integrations/access/bilibili-native-subtitle-adapter.ts:214 | Cleaning leaves exactly those contents as they are that are trimmed, have no carriage return and no arrow. |
| WebVtt.CleanKeepsText | integrations/access/bilibili-native-subtitle-adapter.ts:214 | With the arrows written out again, the cleaned content is the content without carriage returns, trimmed. |
| WebVtt.ValidCues | integrations/access/bilibili-native-subtitle-adapter.ts:220-230 | Only cues that end after they begin and have trimmed, non-empty content pass. |
| WebVtt.ValidCuesIff | integrations/access/bilibili-native-subtitle-adapter.ts:220-230 | Exactly the raw cues with finite times that end after they begin and are not blank pass, each once and in order. |
| SnapshotCache.ReadsAreFresh | apps/ajun-runtime/src/agent-registry-snapshot-cache.ts:14-25 | Over overlapping reads: at most one load is outstanding; every value returned comes from a load in flight when the read began or finished less than `ttlMs` before; a failed load is never served. |
| SnapshotCache.CopiesArePrivate | apps/ajun-runtime/src/agent-registry-snapshot-cache.ts:15-21 | No two reads are handed one array, and none is handed the array its answer was loaded into; a loader would have to resolve with the very array handed out. |
| SnapshotCache.AnswersAreLoaded | apps/ajun-runtime/src/agent-registry-snapshot-cache.ts:15-21 | While no write hits an array a loader resolved with, every answer is exactly what its load resolved to. |
| SnapshotCache.ReadersCannotReachCache | apps/ajun-runtime/src/agent-registry-snapshot-cache.ts:15-21 | Whatever readers write into the arrays they were handed never shows in a later answer, in any run. |
| SnapshotCache.WriteReachesCacheIff | apps/ajun-runtime/src/agent-registry-snapshot-cache.ts:19 | A write changes what the next read from a live snapshot is handed exactly when it hits the loader's own array, which the snapshot keeps uncopied. |
| SnapshotCache.WriteReachesWaitingIff | apps/ajun-runtime/src/agent-registry-snapshot-cache.ts:16-21 | A write between a load's settling and a reader's resuming changes that reader's answer exactly when it hits the load's own array. |
| SnapshotCache.InvalidateHoldsIff | apps/ajun-runtime/src/agent-registry-snapshot-cache.ts:27-30 | After `invalidate` no later read gets a result whose load began before it, exactly when no load was in flight. |
| SnapshotCache.LoadsAreSpaced | apps/ajun-runtime/src/agent-registry-snapshot-cache.ts:15-20 | Without invalidation, loads after a successful one start at least `ttlMs` after it finished. |
| SnapshotCache.AgentRegistrySnapshotCache.Read | apps/ajun-runtime/src/agent-registry-snapshot-cache.ts:14-18 | A read is answered from the snapshot, joins the load in flight, or calls the loader. |
| SnapshotCache.AgentRegistrySnapshotCache.LeaderResumes | apps/ajun-runtime/src/agent-registry-snapshot-cache.ts:18-24 | The read that called the loader stores a success with its expiry and clears the load either way. |
| SnapshotCache.AgentRegistrySnapshotCache.JoinerResumes | apps/ajun-runtime/src/agent-registry-snapshot-cache.ts:16 | A read that joined a load gets its result or its error and changes no field. |
| SnapshotCache.AgentRegistrySnapshotCache.Invalidate | apps/ajun-runtime/src/agent-registry-snapshot-cache.ts:27-30 | The snapshot is dropped; a load in flight is left alone. |

## Left out

- SubmissionOrder: says nothing about readers; `get` and `list` are not serialised and may see a mutation half done.
- CrashLeavesBoundary: temporary files a crash leaves under other names are not modelled, nor is a crash inside the write that `init` makes before any mutation.
- DefaultsOverRuns: `init` is taken as one step; ids, clock and the verdict of the input validators come in with each change.
- Perform: the provider named in a reauthorisation arrives trimmed and in lower case.
- CleanedTwiceIff: whether a stored time can be read, and whether the stored JSON is spelled as a clean one (`plain`), are given; texts of other types arrive as the text they turn into, and list entries of other types are gone.
- RecordEvent: the event's id, time and redacted message are given; `createdAt` is a number or absent, which orders as the ISO text does.
- IdleFileAgreesIff: an event file that holds some JSON other than a list, which `init` takes for an empty log, is not a file of this model until the next write.
- OneAtATimeInOrder: how many job-queue turns a reaction takes; it may run at any later time.
- CollectHistory: normalising a work, timeouts and the creator lookup before the loop are foreign calls.
- EnrichHistoryMetrics: a request and the normalising of its reply are one outcome per index; counts are natural numbers or absent.
- ParseBoomCsv: `Number(cell)` is left unevaluated; strings are sequences of characters rather than of 16-bit code units, which the reader cannot tell apart.
- TransferRoundTrip: base64 is an inverse pair, SHA-256 a function; a file does not change between the gateway reading its size and its bytes.
- RequestLaw: an attachment's position is an integer or absent, and its other fields are texts.
- UnpackDesktopArtifact: which JSON values Python's `int` reads as a number, and the cleaning of the file name, are parameters.
- Fetch: broker, store and recorder calls do not throw; a throw after the success entry is pushed would add a second entry. Content packages, progress and events recorded are not modelled.
- CollectMetrics: the probes that select candidates are not modelled; the candidates are given.
- CanonicalIff: values JSON cannot express (`undefined`, functions, sparse arrays) and a number's printed form.
- SurgesAreLogarithmic: likes are natural numbers; negative or fractional likes in a malformed signal are not covered, and reasons are not modelled. The intake stores likes under `observedMetrics` (integrations/boom-monitor/ajun-intake.ts:32-33), where the governor does not look.
- AdmitsIff: fallback functions and the errors of an open breaker are not modelled; they touch no field.
- OneAtATime: callbacks that call `stop` or `refreshNow` themselves, a host whose cancelled timers still fire, and the argument checks on starting.
- SearchFindsTheBest: scores are reals, so ties that floating point would create or break are not covered; which row order SQLite returns is left open; embedding, `normalized` and relevance are functions that do not fail.
- KnowledgeIndex: vectors are stored as 32-bit floats by the program and exactly here; a database that cannot be opened is not modelled.
- TimeRoundTrip: times are reals and hours plain numerals; JavaScript prints 1e21 hours and more in exponent form.
- RoundTripIff: the reader covers cue blocks and timestamps, not settings, styling, regions or notes.
- ReadsAreFresh: a loader that throws before it returns a promise, and lifetimes that are not whole milliseconds.
- CopiesArePrivate: an array and everything in it is one cell, so an object shared by two loads' arrays is not told apart from a copy.
- The gateway's idle-release loop, HTTP, process control, health probes, connection brokering, text clean-up by regular expression, URL parsing and all rendering: foreign calls or easy members.
