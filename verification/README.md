# Verified model of the TREVV API and web kernels

A Dafny 4.11 model of the stateful and algorithmic parts of TREVV, with proofs of what they promise.
`dafny verify dfyconfig.toml` checks everything.

| module | models |
|---|---|
| `DemoStore`, `DemoAdapter`, `TaskReview` | the in-memory versioned store behind one idempotency wrapper, its thirteen mutators as class methods over shared maps, and the task-review rules they call |
| `DemoRuns`, `DemoVersions`, `DemoInvariants`, `DemoEdits` | whole runs of that store: retries and live keys, versions, history, evidence and reviews; and what each edit puts where |
| `RateLimit`, `SharedRateLimit`, `SharedLimiterRuns` | the policy table, the per-process limiter, the shared limiter with its single-flight cleanup and its counter rows, and both together over several processes |
| `Metrics`, `Redaction` | the bounded request histogram and the log redactor |
| `PageWalk`, `Base64Url`, `CursorCodec`, `Paging` | paging across workspaces, the cursor codec down to characters, and what a reader following cursors sees |
| `EventFeed`, `Rollup` | polling the collaboration log; portfolio signals and roll-ups |
| `JsonText`, `Decimal`, `Canonical`, `VersionTag` | JSON text written and read back, canonical request fingerprints, entity tags |
| `SnapshotSync`, `BoardHydration`, `Slug` | optimistic snapshot reads, edits made before the stored board is read, the slug normaliser |
| `Prelude`, `JsText` | sequence vocabulary, `trim` and colon-joined keys |

Code that changes state is a class whose methods are proved equal to a step function of the old state; the
run theorems are about that function. Collaborators outside the modelled code are parameters: permission
checks and demo directories (`DemoStore.Env`), `toLowerCase` and `toUpperCase`, name order, the digest, and the
host side of the cursor codec (`CursorCodec.Host`) and of number texts (`Canonical.Shows`). Each lemma states what
it needs of them: names compare by one consistent comparison that may tie (`Canonical.WeakOrder`), the digest is
injective, `newId()` never repeats itself (`DemoVersions.FreshIds`), every commit raises the revision counter, event
cursors are distinct (a serial column with a unique index, packages/db/src/schema.ts:3279), cursor positions are safe
integers.

## What turned out conditional

- The event feed misses exactly the readable events that commit after the page read of the poll that moved the
  checkpoint past them, and misses them for good (`EventFeed.FeedExactIff`, `MissedForGood`). There are two ways to
  do so: an event commits between the two reads of `listEvents` (`WatermarkRaceMisses`), or with a lower cursor than
  one already seen, because cursors are handed out before the transaction commits (`LateCommitMisses`). If neither
  happens nothing is missed (`OrderlyMissesNothing`). A client cursor above the whole log falls back to the log's
  maximum (`EventFeed.PageOfLog`).
- Cleanup of counter rows is harmless, whichever expired rows it removes, exactly when no prune between two requests
  of a row is stamped at or after the row's expiry (`SharedRateLimit.CleanupHarmlessIff`). Whatever the limit, a window
  admits no more than it under exactly that condition (`WindowBoundIff`, `EveryWindowBoundIff`). The (k+1)·limit bound
  over sliding time follows from it (`SharedRateBound`) and can fail without it (`LatePrunesBreakBound`), in a run that
  one process can make (`SharedLimiterRuns.LatePrunesHappen`). Prunes carry the stamps of earlier requests, so requests
  no further out of order than one window, or an hour less one window where that is more, are enough
  (`SharedLimiterRuns.SystemRateBound`).
- The per-process limiter's sliding bound assumes a clock that does not run backward between one client's requests in
  one bucket; if it does there is no bound at all (`RateLimit.RateBound`, `BackwardClockHasNoBound`).
- A snapshot revision vouches for the data and not for the access: parts are right for the access of the revision's
  own state exactly when that is the access the request was resolved with (`SnapshotSync.AccessCurrentIff`,
  `StaleAccessShows`).
- A reload brings back the last saved board exactly when every item of it passes `isBoardItem` (or it equals the
  seed anyway); one item with an emptied title replaces the whole board by the seed, other edits included
  (`BoardHydration.ReloadRestoresIff`, `EmptiedTitleLosesBoard`).
- Hydration with nothing stored shows the effect's seed, so before any edit it is invisible exactly when that is the
  seed shown so far (`BoardHydration.HydrationShows`).
- `localeCompare` can tie on different names. Equal canonical forms always mean equal values up to member order, and
  canonicalizing is idempotent, ties or not; but a value has one form for all its member orders, and a request one
  fingerprint, exactly when no object in it has two names that tie (`Canonical.OneFormIffUntied`,
  `OneFingerprintIffUntied`).

## Model

| member | source | states |
|---|---|---|
| `DemoAdapter.Adapter.CreateItem` | apps/api/src/demo-adapter.ts:740-768 | creates the item at version 0 or throws and leaves every map alone, in the order of the source's checks |
| `DemoAdapter.Adapter.RequireItem` | apps/api/src/demo-adapter.ts:1399-1411 | the lookup, access and version guard shared by the item mutators: on an error every item mutation fails with it |
| `DemoAdapter.Adapter.UpdateItem` | apps/api/src/demo-adapter.ts:770-843 | item and history maps after an update, or an error and no change |
| `DemoAdapter.Adapter.ApplyPatch` | apps/api/src/demo-adapter.ts:797-826 | the field-by-field edit, including the fall back to working when an approval is lost |
| `DemoAdapter.Adapter.ReviewTask` | apps/api/src/demo-adapter.ts:845-904 | item and history maps after a review command, or an error and no change |
| `DemoAdapter.Adapter.AddItemEvidence` | apps/api/src/demo-adapter.ts:928-959 | item, evidence and history maps move together |
| `DemoAdapter.Adapter.AssignItem` | apps/api/src/demo-adapter.ts:961-981 | new assignees, no history entry |
| `DemoAdapter.Adapter.SetItemBlocked` | apps/api/src/demo-adapter.ts:983-1008 | blocked or working, with its history entry |
| `DemoAdapter.Adapter.TransitionItem` | apps/api/src/demo-adapter.ts:1421-1497 | decision, approval and resolve transitions with optional evidence |
| `DemoAdapter.Adapter.CreateWaiting` | apps/api/src/demo-adapter.ts:1058-1100 | new waiting entry and the item's version bump together |
| `DemoAdapter.Adapter.ActOnAttention` | apps/api/src/demo-adapter.ts:273-298 | the signal after resolve, dismiss or snooze, guarded by its version |
| `DemoAdapter.Adapter.ActOnWaiting` | apps/api/src/demo-adapter.ts:316-337 | the waiting entry after an action, guarded by its version |
| `DemoAdapter.Adapter.CreateCalendarEvent` | apps/api/src/demo-adapter.ts:577-612 | new event at version 0 in a calendar of the workspace |
| `DemoAdapter.Adapter.UpdateCalendarEvent` | apps/api/src/demo-adapter.ts:614-657 | patched event at the next version |
| `DemoAdapter.Adapter.DeleteCalendarEvent` | apps/api/src/demo-adapter.ts:659-675 | the event is gone; the answer shows the next version |
| `DemoAdapter.Adapter.WithIdempotency` | apps/api/src/demo-adapter.ts:1522-1557 | replay, refusal, failure or effect, and the whole state after each |
| `DemoAdapter.ServeAll` | apps/api/src/demo-adapter.ts:67-150 | any sequence of calls leaves the state and answers the run theorems speak about |
| `DemoRuns.RetryRefinement` | apps/api/src/demo-adapter.ts:1522-1557 | with retries, key reuse and failures mixed in, records and answers are those of running the effective calls plainly, with no idempotency at all |
| `DemoRuns.OnlyEffectiveCallsMatter` | apps/api/src/demo-adapter.ts:1522-1557 | dropping replayed, refused and failed calls leaves the whole state the same, remembered replies included |
| `DemoRuns.ReplayWhileLive` | apps/api/src/demo-adapter.ts:1530-1546 | while a record is live its key returns the first value to the same request and refuses every other |
| `DemoRuns.ReplayHasOrigin` | apps/api/src/demo-adapter.ts:1530-1557 | every replay and every refusal goes back to a live success under the same key |
| `DemoRuns.ReplyKeyIsPerCaller` | apps/api/src/demo-adapter.ts:1527-1529 | two calls share a key exactly when one caller gave the same key, not empty, in both |
| `DemoRuns.KeylessJustRuns` | apps/api/src/demo-adapter.ts:1522-1557 | a call with no key or an empty one just runs: its effect or its error, and the remembered replies stay |
| `DemoVersions.MutateVersions` | apps/api/src/demo-adapter.ts:770-1100 | an accepted mutation found the version it expected and moves only that record on by one; a new record starts at zero |
| `DemoVersions.NoLostUpdate` | apps/api/src/demo-adapter.ts:770-1100 | for items, signals, waiting entries and events, the expected versions of effective mutations are 0, 1, 2, … in order and the version is their number |
| `DemoVersions.NoTwoWritersOnOneVersion` | apps/api/src/demo-adapter.ts:770-1100 | two effective mutations of one record never share a version and succeed in version order |
| `DemoInvariants.MutateInStep` | apps/api/src/demo-adapter.ts:826-957 | each mutation keeps history, evidence and review of every item in step |
| `DemoInvariants.HistoryAndEvidenceInStep` | apps/api/src/demo-adapter.ts:1413-1490 | in every run history versions rise strictly within the item's version, the evidence quoted in the history is the evidence list, and the item's review is the last one recorded |
| `DemoInvariants.HistoryFolds` | apps/api/src/demo-adapter.ts:1413-1490 | how quotes and the latest review are read off history and evidence |
| `DemoInvariants.DoneOnlyWhenReviewed` | packages/core/src/task-review.ts:169-175 | in every run a reviewed task is done only if its review was cancelled or all its reviewers approved |
| `DemoInvariants.ChangeTouchesOnly` | apps/api/src/demo-adapter.ts:797-1005 | the fields each kind of change may touch |
| `DemoInvariants.ItemsContinue` | apps/api/src/demo-adapter.ts:740-1100 | items never vanish or change identity and their versions never fall |
| `DemoEdits.CreatedItemCarriesInput` | apps/api/src/demo-adapter.ts:740-768 | every field of a created item, from its input or as it starts |
| `DemoEdits.UpdatedItemCarriesPatch` | apps/api/src/demo-adapter.ts:797-826 | each field a patch gives is the item's new value, each one it leaves out stays |
| `DemoEdits.AddedEvidenceCarriesInput` | apps/api/src/demo-adapter.ts:928-959 | the evidence appended and returned, and the item's step |
| `DemoEdits.TransitionCarriesInput` | apps/api/src/demo-adapter.ts:1421-1497 | the state each kind of transition sets, its evidence, and which items it accepts |
| `DemoEdits.CreatedWaitingCarriesInput` | apps/api/src/demo-adapter.ts:1058-1100 | every field of a created waiting entry, and the item's step |
| `DemoEdits.ActedSignal` | apps/api/src/demo-adapter.ts:273-298 | what each action stamps on a signal, and when a text is replaced |
| `DemoEdits.ActedWaitingEntry` | apps/api/src/demo-adapter.ts:316-337 | the same for a waiting entry |
| `DemoEdits.CreatedEventCarriesInput` | apps/api/src/demo-adapter.ts:577-612 | every field of a created event |
| `DemoEdits.UpdatedEventCarriesPatch` | apps/api/src/demo-adapter.ts:614-657 | each field of an updated event, given or kept |
| `DemoEdits.DeletedEventReads` | apps/api/src/demo-adapter.ts:659-675 | the event is gone and the answer shows it one version on |
| `DemoEdits.ItemRefusals` | apps/api/src/demo-adapter.ts:1399-1411 | which refusal an item mutation gets before it is looked at |
| `DemoEdits.AcceptedIsPermitted` | apps/api/src/demo-adapter.ts:273-1100 | nothing runs without its permission or outside the workspace of its board, portfolio or calendar |
| `DemoEdits.ReviewActors` | apps/api/src/demo-adapter.ts:850-878 | who may cancel, who requests and who the reviewers of a round are |
| `DemoEdits.CancelRefusedIff` | apps/api/src/demo-adapter.ts:850-861 | a cancellation is refused to exactly those who are neither requester, assignee, owner nor admin |
| `DemoEdits.HistoryReads` | apps/api/src/demo-adapter.ts:826-1005 | the kind and reason of the history entry each change writes |
| `DemoEdits.UpdateEndsReview` | apps/api/src/demo-adapter.ts:770-826 | an accepted update that changes the text or reopens finished work leaves no open review; any other leaves the review alone |
| `DemoEdits.OpenReviewIsAboutCurrentText` | packages/core/src/task-review.ts:148-194 | in every run an open review, an approval included, is about title, description and planning as they were when its round was requested |
| `TaskReview.ApplyKeepsHonest` | packages/core/src/task-review.ts:38-146 | an accepted command leaves unfinished work with a review whose open state is the tally of its different reviewers |
| `TaskReview.AnswerDecides` | packages/core/src/task-review.ts:111-145 | state, status and closing time after an answer, read off the verdicts: a requested change decides, then unanimity, else the round goes on |
| `TaskReview.RequestOpensRound` | packages/core/src/task-review.ts:58-89 | every field of a newly requested round |
| `TaskReview.ReviewAcceptedIff` | packages/core/src/task-review.ts:53-119 | exactly when a request, an answer or a cancellation is accepted |
| `TaskReview.ResponseRecordsOneVerdict` | packages/core/src/task-review.ts:111-145 | an accepted answer is the only one of an assigned reviewer and changes nobody else's |
| `TaskReview.ChangeKeepsSettled` | packages/core/src/task-review.ts:148-194 | completing needs an approved or cancelled review, and an approval never survives revised work |
| `TaskReview.RevisionEndsReview` | packages/core/src/task-review.ts:173-193 | a different title, description or planning, or reopening, ends an open review and keeps what it recorded; nothing else touches a review |
| `TaskReview.CompletionAcceptedIff` | packages/core/src/task-review.ts:165-182 | exactly when a change is accepted that completes the task |
| `RateLimit.PolicyFixedPerBucket` | apps/api/src/operations.ts:252-286 | one bucket has one limit and one window, and a colon-free name |
| `RateLimit.ApiPolicy` | apps/api/src/operations.ts:281-284 | bucket, limit and window of requests under /api/v1/, by verb |
| `RateLimit.AuthPolicy` | apps/api/src/operations.ts:275-280 | the same under /api/auth/, profile changes apart |
| `RateLimit.SuperadminPolicy` | apps/api/src/operations.ts:271-274 | the same under /api/superadmin/ |
| `RateLimit.SuperadminAuthPolicy` | apps/api/src/operations.ts:263-270 | the same under /api/superadmin/auth/ |
| `RateLimit.NoPolicy` | apps/api/src/operations.ts:256-285 | which requests fall under no policy |
| `RateLimit.PolicyInputsNext` | apps/api/src/operations.ts:252-286 | every request with a policy reaches the store with it, in order |
| `RateLimit.MemoryRateLimitStore.Consume` | apps/api/src/operations.ts:312-328 | the decision and the one window entry that changes |
| `RateLimit.ServeAll` | apps/api/src/operations.ts:308-330 | the decisions of any run of requests |
| `RateLimit.RefusedIffWindowFull` | apps/api/src/operations.ts:316-327 | the whole decision from the requests of its own key seen in its window, refused ones included |
| `RateLimit.RefusedIffLimitAdmitted` | apps/api/src/operations.ts:316-327 | a request is refused exactly when `limit` requests of its key have already been admitted in its window |
| `RateLimit.OtherKeysIgnored` | apps/api/src/operations.ts:313-322 | a key's window is that of the run without the other keys |
| `RateLimit.RateBound` | apps/api/src/operations.ts:252-330 | with a clock non-decreasing over this client's requests, any half-open interval of k windows admits at most (k+1)·limit requests of one client in one bucket, whatever else arrives and however it is stamped |
| `RateLimit.BackwardClockHasNoBound` | apps/api/src/operations.ts:313-322 | with a clock that runs backward one interval can admit any number of requests of the api-read policy |
| `JsText.JoinInjective` | apps/api/src/operations.ts:313 | joining with a colon is unambiguous when the first part has none |
| `JsText.TrimSplits` | packages/core/src/task-review.ts:56 | trim takes the space characters off both ends and nothing else |
| `JsText.SpaceTable` | packages/core/src/task-review.ts:56 | which characters are space |
| `SharedRateLimit.PostgresRateLimitStore.Consume` | apps/api/src/operations.ts:343-382 | the decision comes from the repository's count alone, and when a cleanup is started |
| `SharedRateLimit.PostgresRateLimitStore.CleanupSettles` | apps/api/src/operations.ts:354-374 | the three back-off rules |
| `SharedRateLimit.PostgresRateLimitStore.CleanupClears` | apps/api/src/operations.ts:375-377 | the cleanup slot is free again |
| `SharedRateLimit.CleanupProtocol` | apps/api/src/operations.ts:332-384 | in every interleaving at most one cleanup is in flight and starts keep 1,000, 60,000 or 300,000 ms after the one before, by its outcome |
| `SharedRateLimit.CleanupStartsIff` | apps/api/src/operations.ts:352-354 | a cleanup starts exactly when none is in flight and it is due |
| `SharedRateLimit.RowReads` | packages/db/src/rate-limit-repository.ts:37-58 | the row a request counts in: its window, its count and its expiry |
| `SharedRateLimit.CountUnaffectedIff` | packages/db/src/rate-limit-repository.ts:30-92 | pruning leaves a request's count alone exactly when no prune removed its row before |
| `SharedRateLimit.CleanupNeverChangesCount` | packages/db/src/rate-limit-repository.ts:33-92 | a count is the number of requests of its window unless a prune reached its row's expiry between them |
| `SharedRateLimit.CleanupHarmlessIff` | packages/db/src/rate-limit-repository.ts:33-92 | for any stamps: whatever expired rows prunes remove, the count is right, if and only if no prune reached the expiry of the row after it was hit |
| `SharedRateLimit.SkewIsHarmless` | packages/db/src/rate-limit-repository.ts:39-46 | stamps at most one window, or an hour less one window, out of order never let a prune reach a row |
| `SharedRateLimit.LatePruneResetsCount` | packages/db/src/rate-limit-repository.ts:67-92 | a run with requests an hour ahead and the prunes they start, in which each later request of a window is counted as the first |
| `SharedRateLimit.LatePrunesBreakBound` | packages/db/src/rate-limit-repository.ts:67-92 | in that run three requests pass a limit of one within one window |
| `SharedRateLimit.WindowBoundIff` | packages/db/src/rate-limit-repository.ts:33-92 | for any stamps: whatever expired rows prunes remove and whatever the limit, a window admits no more, if and only if no prune reaches its row between two of its requests |
| `SharedRateLimit.EveryWindowBoundIff` | apps/api/src/operations.ts:343-382 | the same over all windows of a client in a bucket |
| `SharedRateLimit.SharedRateBound` | packages/db/src/rate-limit-repository.ts:33-65 | the (k+1)·limit bound over sliding time, for stamps in any order under that condition |
| `SharedLimiterRuns.ProcessKeepsProtocol` | apps/api/src/operations.ts:332-384 | in every run of any number of processes over one table, each process makes a run the cleanup protocol applies to |
| `SharedLimiterRuns.PrunesCarryRequestStamps` | apps/api/src/operations.ts:352-357 | every prune is stamped with the time of a request counted before it and removes only rows expired by then |
| `SharedLimiterRuns.RequestSkewIsHarmless` | packages/db/src/rate-limit-repository.ts:39-46 | requests at most one window, or an hour less one window, out of order keep every prune in time |
| `SharedLimiterRuns.SystemRateBound` | apps/api/src/operations.ts:332-384 | in every run of the whole system with so little skew, any interval of k windows admits at most (k+1)·limit requests of one client in one bucket |
| `SharedLimiterRuns.LatePrunesHappen` | apps/api/src/operations.ts:352-374 | the run in which late prunes break the bound is a run of one process |
| `Metrics.ApiMetrics.RecordRequest` | apps/api/src/operations.ts:138-164 | the one series that changes, and how |
| `Metrics.BumpBuckets` | apps/api/src/operations.ts:160-162 | exactly the buckets at or above the duration go up by one |
| `Metrics.MetricsRefineLog` | apps/api/src/operations.ts:138-164 | every count, sum and bucket is the one computed from the samples recorded in that series |
| `Metrics.BucketsRise` | apps/api/src/operations.ts:157-163 | buckets rise with their boundary and stay within the count |
| `Metrics.SeriesBounded` | apps/api/src/operations.ts:151-153 | at most 513 series |
| `Metrics.LandsInOwnSeriesIff` | apps/api/src/operations.ts:150-152 | a sample lands in its own series while there are fewer than 512 or its own exists, and otherwise in the overflow series |
| `Metrics.FirstSeriesCreated` | apps/api/src/operations.ts:150-163 | of a log that asks for at most 512 series exactly those are created |
| `Metrics.OwnKeyReads` | apps/api/src/operations.ts:139-150 | the method, route and status labels of a sample |
| `Metrics.StatusClassReads` | apps/api/src/operations.ts:144-149 | an integer status from 100 to 599 has the class of its hundreds digit, any other is "other" |
| `Metrics.DurationNext` | apps/api/src/operations.ts:158-162 | what one duration adds to the sum and to the number at most a bound |
| `Metrics.SeriesSticky` | apps/api/src/operations.ts:150-153 | a series once created receives all its own samples |
| `Metrics.CountsAddUp` | apps/api/src/operations.ts:151-163 | the counts over all series add up to the number of recordings |
| `Redaction.RedactedIsBounded` | apps/api/src/operations.ts:396-414 | at most five levels, 20 entries an array, 1,024 characters a text |
| `Redaction.RedactIdempotent` | apps/api/src/operations.ts:396-414 | redacting twice is redacting once |
| `Redaction.SecretsRedactedIff` | apps/api/src/operations.ts:63-64 | everything under a key that contains one of the eight words, anywhere and in any case, is replaced; any other key is treated like none |
| `Redaction.EmbeddedSecretRedacted` | apps/api/src/operations.ts:396-397 | in particular a word between any other characters |
| `Redaction.SecretsDoNotShow` | apps/api/src/operations.ts:396-397 | values differing only below sensitive keys have one output |
| `Redaction.OnlySecretsAreHidden` | apps/api/src/operations.ts:396-414 | for values within the limits, equal outputs come only from such values |
| `PageWalk.FetchPage` | packages/db/src/repositories.ts:1246-1298 | one repository page and what remains after it |
| `PageWalk.PaginateFrom` | apps/api/src/postgres-adapter.ts:2987-3025 | a prefix of what remained, a full one when a position is returned, and the rest remains at that position |
| `PageWalk.ListAllWorkspaceItems` | apps/api/src/postgres-adapter.ts:3037-3053 | all items of a workspace, for any number of them |
| `PageWalk.ListAccessibleItems` | apps/api/src/postgres-adapter.ts:3027-3035 | the items of all workspaces in order |
| `Paging.PaginateWorkItems` | apps/api/src/postgres-adapter.ts:2987-3025 | the same page with its cursors as strings, for every incoming string |
| `Paging.ListDemoItems` | apps/api/src/demo-adapter.ts:712-729 | a page of the demo list and its offset cursor |
| `Paging.PagingComplete` | apps/api/src/postgres-adapter.ts:2987-3025 | following cursors reads every item of every workspace once, in order, in full pages, and ends |
| `Paging.DemoPagingComplete` | apps/api/src/demo-adapter.ts:701-730 | the same for the demo list |
| `Paging.ReadAllPages` | apps/web/lib/read-all-pages.ts:2-25 | the client's loop over the live adapter ends, never meets a repeated cursor, and returns every item of every workspace in order |
| `Base64Url.RoundTrip` | apps/api/src/postgres-adapter.ts:3059-3080 | base64url decoding undoes encoding on every byte string |
| `Base64Url.Alphabet` | apps/api/src/postgres-adapter.ts:3059-3080 | the 64 characters of base64url in order |
| `Base64Url.GroupIsBigEndian` | apps/api/src/postgres-adapter.ts:3059-3080 | one, two or three bytes give the sextets of the same bits, high ones first |
| `CursorCodec.DecodeCursor` | apps/api/src/postgres-adapter.ts:3055-3076 | every string decodes to a pair of non-negative safe integers |
| `CursorCodec.DecodeCursorReads` | apps/api/src/postgres-adapter.ts:3055-3076 | a text that holds two safe counts is that place; every other one, none and the empty one included, is the first page |
| `CursorCodec.CursorText` | apps/api/src/postgres-adapter.ts:3078-3080 | the JSON text a cursor encodes |
| `CursorCodec.DecodeOffsetReads` | apps/api/src/demo-adapter.ts:713-717 | an offset cursor is the number its text starts with, or 0 |
| `CursorCodec.CursorRoundTrip` | apps/api/src/postgres-adapter.ts:3055-3080 | decoding undoes encoding for every pair of safe integers |
| `CursorCodec.OffsetRoundTrip` | apps/api/src/demo-adapter.ts:713-728 | the demo offset cursor round-trips |
| `EventFeed.ConversationIds` | apps/api/src/postgres-adapter.ts:1077-1084 | exactly the conversations of the batch |
| `EventFeed.BuildIndex` | apps/api/src/postgres-adapter.ts:1085-1098 | exactly the conversations that may be read, or the error of a faulty check |
| `EventFeed.ListCollaborationEvents` | apps/api/src/postgres-adapter.ts:1070-1124 | the batched index agrees with checking each event on its own |
| `EventFeed.PageOfLog` | packages/db/src/collaboration-repositories.ts:2456-2570 | for any client cursor: a poll's events are the readable ones of its log up to the new cursor, which moves on whenever the log has and falls back to the maximum from above it |
| `EventFeed.PollExactIff` | packages/db/src/collaboration-repositories.ts:2548-2570 | a poll passes over nothing exactly when no readable event up to its new cursor commits after its page was read |
| `EventFeed.PollReads` | apps/api/src/postgres-adapter.ts:1070-1124 | what a poll adds to the client, and that one whose checks throw changes nothing |
| `EventFeed.FeedExactIff` | apps/api/src/postgres-adapter.ts:1070-1124 | over any run, failed polls and any commit order included, the client has exactly the readable events up to its checkpoint, in order, once, if and only if none committed after the page read of the poll that passed it; it lacks those and no others |
| `EventFeed.LowestIsStart` | apps/api/src/app.ts:2983-3004 | a client that starts within the log stays at or above its start and within the log |
| `EventFeed.MissedForGood` | packages/db/src/collaboration-repositories.ts:2507-2512 | what a run has missed no later poll delivers |
| `EventFeed.OrderlyMissesNothing` | apps/api/src/postgres-adapter.ts:1070-1124 | nothing is missed if cursors commit in order and nothing readable commits between the two reads of a successful poll with room on its page |
| `EventFeed.WatermarkRaceMisses` | packages/db/src/collaboration-repositories.ts:2548-2570 | an event committed between the two reads is missed |
| `EventFeed.LateCommitMisses` | packages/db/src/collaboration-repositories.ts:4118-4130 | an event that commits after one with a higher cursor has been polled is missed |
| `Rollup.RollupNext` | apps/api/src/postgres-adapter.ts:2804-2841 | what one more item adds to each column and to the score |
| `Rollup.RollupOfNone` | apps/api/src/postgres-adapter.ts:2823-2840 | an empty workspace scores 40, 22, 4 or 0 by its health |
| `Rollup.SignalsNextItem` | apps/api/src/postgres-adapter.ts:2844-2875 | what one more item adds to each portfolio signal |
| `Rollup.SignalsNextWorkspace` | apps/api/src/postgres-adapter.ts:2862-2867 | a workspace adds one stale update if it has none in seven days |
| `Rollup.SortByScoreFacts` | apps/api/src/postgres-adapter.ts:2299-2307 | the rows are a permutation by falling score, ties in their old order |
| `Rollup.BuildPortfolioResponse` | apps/api/src/postgres-adapter.ts:2279-2308 | rolling up the grouped index gives the roll-ups of the full list |
| `Rollup.ColumnsCountItems` | apps/api/src/postgres-adapter.ts:2804-2841 | for any input, each column sums its open items once per listed workspace with their id |
| `Rollup.RollupsAddUpToSignals` | apps/api/src/postgres-adapter.ts:2804-2875 | with distinct workspaces covering all items, the column sums are the portfolio signals |
| `JsonText.StringifyParses` | apps/api/src/app.ts:3726 | reading back JSON text gives the value, for every value |
| `JsonText.StringifyInjective` | apps/api/src/app.ts:3726 | different values have different texts |
| `JsonText.EscapeTable` | apps/api/src/app.ts:3726 | how each character is written inside quotes (section 7 of RFC 8259) |
| `Canonical.SameFormEquivalent` | apps/api/src/app.ts:3733-3742 | whatever the comparison does, equal canonical trees come only from trees equal up to member order at every depth |
| `Canonical.CanonicalIffEquivalent` | apps/api/src/app.ts:3733-3742 | for a tree without tied names, canonical trees are equal exactly for trees equal up to member order at every depth |
| `Canonical.OneFormIffUntied` | apps/api/src/app.ts:3733-3742 | a tree has one form for all its member orders exactly when no object in it has two different names that tie |
| `Canonical.CanonicalizeIdempotent` | apps/api/src/app.ts:3733-3742 | canonicalizing twice is canonicalizing once, ties included |
| `Canonical.CanonicalNames` | apps/api/src/app.ts:3736-3740 | a canonical object has the names of the original once each, none after one that is less, strictly ascending without ties |
| `Canonical.AsReadFixedIff` | apps/api/src/app.ts:3725-3726 | reading a body changes the writing of its numbers and nothing else |
| `Canonical.TiesAreNotCanonical` | apps/api/src/app.ts:3738 | any two different names that compare as equal give one object two canonical forms |
| `Canonical.FingerprintsAgreeIff` | apps/api/src/app.ts:3715-3731 | fingerprints agree only for bodies equal as read up to member order and the same expected version, and always then if no object of the body has tied names |
| `Canonical.OneFingerprintIffUntied` | apps/api/src/app.ts:3715-3731 | a request has one fingerprint for all member orders of its body exactly when no object of the body has two names that tie |
| `VersionTag.AcceptedIff` | apps/api/src/app.ts:3744-3773 | a header is accepted exactly when it is one quoted digit string of a version up to 2,147,483,647 |
| `VersionTag.RefusedReads` | apps/api/src/app.ts:3744-3773 | which of the three refusals a header gets |
| `VersionTag.EtagRoundTrip` | apps/api/src/app.ts:3841-3851 | the printed tag reads back as its version; larger versions are refused as unsupported |
| `Decimal.PrintedValue` | apps/api/src/app.ts:3847-3848 | the printed digits have the printed value |
| `SnapshotSync.RevisionIdentifiesContent` | packages/db/src/snapshot-revision.ts:6-30 | two revisions are equal exactly for one committed state with the same awake signals |
| `SnapshotSync.SyncConsistent` | apps/api/src/app.ts:860-910 | a non-null revision is that of one state and every part is what its query answers of that state alone, though its statements run apart; when it is null and when not |
| `SnapshotSync.AccessCurrentIff` | apps/api/src/app.ts:433 | every query is answered for the access of the revision's state exactly when the request was resolved with that access |
| `SnapshotSync.StaleAccessShows` | apps/api/src/app.ts:884-908 | an answer with a new revision and the part for an access withdrawn before it |
| `BoardHydration.BoardWorkspace.MutateItems` | apps/web/components/board-experience.tsx:280-286 | an edit shows at once and is queued while the board is not hydrated |
| `BoardHydration.BoardWorkspace.RunEffect` | apps/web/components/board-experience.tsx:287-313 | the effect schedules the stored board or the seed, and nothing once hydrated |
| `BoardHydration.BoardWorkspace.Hydrate` | apps/web/components/board-experience.tsx:300-311 | the queue is replayed in order over the scheduled base |
| `BoardHydration.BoardWorkspace.SaveItems` | apps/web/components/board-experience.tsx:314-321 | saves the items once hydrated, or leaves storage alone when the write fails |
| `BoardHydration.NoEditLost` | apps/web/components/board-experience.tsx:274-313 | in every run the board shows all edits so far, in order, once each, over its base |
| `BoardHydration.HydrationShows` | apps/web/components/board-experience.tsx:287-313 | hydration shows the earlier edits over the stored board or the seed; before any edit it is invisible exactly when that base is the seed shown |
| `BoardHydration.ReloadRestoresIff` | apps/web/components/board-experience.tsx:154-321 | after any run a reload shows the last save, with every edit up to it, exactly when each item passes the item check or it is the seed |
| `BoardHydration.RestoredIff` | apps/web/components/board-experience.tsx:154-165 | a stored list is restored exactly when none of six fields of any item is empty |
| `BoardHydration.PassingEditsSurviveReload` | apps/web/components/board-experience.tsx:287-321 | if every edit and seed keeps items passing, a reload always brings the last save back |
| `BoardHydration.RetitlePassesIff` | apps/web/components/board-experience.tsx:336-342 | a new title keeps the board restorable exactly when it is not empty or no item has the id |
| `BoardHydration.EmptiedTitleLosesBoard` | apps/web/components/board-experience.tsx:1390-1395 | after one title is emptied and saved, a reload shows the seed and other saved edits are gone |
| `Slug.SlugNormalForm` | apps/web/components/auth-experience.tsx:993-1001 | the slug is empty or in the grammar, at most 80 long |
| `Slug.GrammarIffShape` | apps/web/components/auth-experience.tsx:985-991 | the pattern's language is single inner hyphens between letters and digits |
| `Slug.ValidSlugFixed` | apps/web/components/auth-experience.tsx:985-1001 | every accepted slug is a fixed point |
| `Slug.PlainWordFixed` | apps/web/components/auth-experience.tsx:993-1001 | in particular every word of up to 80 ASCII letters and digits |
| `Slug.SlugIdempotent` | apps/web/components/auth-experience.tsx:993-1001 | normalising twice is normalising once |
| `Slug.SlugAcceptedIff` | apps/web/components/auth-experience.tsx:985-1001 | the output is accepted exactly when two characters are left |
| `Slug.SlugIsJoinedWords` | apps/web/components/auth-experience.tsx:993-1001 | the slug is the words of the lower-cased input joined by single hyphens, cut to 80 characters |

## Left out

- HTTP routing, headers other than the entity tag, CORS, body limits, mail delivery and OpenAPI: plumbing over libraries.
- Authentication, Superadmin, bootstrap, runtime configuration and origin checks: straight-line validation and foreign services.
- The PostgreSQL repositories beyond the counter rows, the event page, the item page and the snapshot revision; the attention engine; DTO mapping and enum guards; the permission rules, which are a parameter.
- Rendering, dialogs, dashboards, calendar grids and charts.
- `DemoStore.Item` and the other records: fields that are only copied (planning is its JSON text, calendar events keep six fields, history entries keep no summary wording); `structuredClone` is immutability, and handing out a live map value is not modelled.
- `Metrics`: durations are real numbers, so the rounding of their sum is not modelled; the rejection and error counters and `render` are plain counters and printing.
- `Redaction.RedactedIsBounded`: text is cut at 1,024 characters; the code cuts at 1,024 UTF-16 units, so text outside the basic plane is cut earlier there.
- `Paging.ReadAllPages`: the `onPage` callback and a server that repeats a cursor; against the live adapter none does.
- `Slug.SlugFrom`: `toLowerCase` is any function that leaves lower-case ASCII letters, digits and hyphens alone.
- `JsonText.Parse`: lone surrogates and `\u` escapes of surrogates are outside Dafny's characters; numbers keep their text, and what JSON.stringify makes of a number JSON.parse has read is the parameter `Canonical.AsRead` is given.
- `CursorCodec.Host`: what Buffer does with characters outside base64url, UTF-8 beyond ASCII and the rounding of non-decimal number tokens are parameters, with exactly the facts needed stated in `Faithful`.
- `CursorCodec.DecodeOffset`: forged offsets with a sign or leading spaces, which `parseInt` would read.
- `EventFeed.ListEvents`: expiry of events and the mapping of event types; access is fixed for the length of a run, and per poll it is arbitrary.
- `SharedRateLimit`: hashing of client keys, validation of inputs and database errors; a prune may leave expired rows behind, as skipped locks do.
- `BoardHydration`: writes to the same storage key by other tabs; edits are arbitrary functions of the list.
- `Canonical.Fingerprint`: an undefined body, which JSON text drops; the order in which JavaScript enumerates integer-like names is part of the assumed comparison.
- Nothing was executed.
