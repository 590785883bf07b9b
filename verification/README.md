# Verified model of the QUANTIVE market-data core

This project models the part of QUANTIVE that stores one-minute candles and runs leased workers over
them, and proves what that part promises. Each module follows one component of the service.

- `Coverage`, `CandleLedger`, `CandleStore`: the range index, the append-only revision ledger with
  source precedence, and the ingestion transactions over them. A minute is its index since the
  epoch; tables are maps and sets; each database transaction is one step.
- `GapDetection`, `Scheduling`, `BucketAlignment`: capped detection of missing windows, subtraction
  of active windows, and alignment to aggregate buckets. Instants are microseconds.
- `JobClaims`, `ShardFencing`: the four job tables and the shard lease with its fence row, as state
  machines in which every claim ever issued may act at any later time and read any clock.
- `HistoricalMerge`, `GapPipeline`: the day worker that promotes staged rows in pages, and gap repair
  from claim to completion across all of the above.
- `LiveEvaluation`: the per-asset cursor and position machine of a live strategy.
- `Pairing`, `Comparison`: first-in-first-out pairing of evidence and the comparison built on it.
- `Incidents`, `HealthMonitor`: the deduplicated incident ledger and the health projection.
- `TokenBucket`, `ShardAssignment`: the shared request limiter and the placement of symbols.
- `Wrappers`, `Arithmetic`, `Sorting`: shared helpers.

Where the service updates rows or buffers in place, a class does so here, and each method's contract
ties the new state to a function of the old one; the theorems are lemmas about those functions and
about runs of them. `dafny verify dfyconfig.toml` checks the whole project.

Tokens and identifiers are fresh values, SHA-256 keys are injective datatypes, and the symbol hash,
the normalisation and the fallback digest are arbitrary functions. Prices and tokens are reals.

Properties that turned out not to hold as expected are stated with their exact condition and a
concrete run:

- A merge day that failed for good and is reopened keeps its spent retry count
  (`backend/app/services/historical_merge.py:69-88`), so it is active beyond its retries and its next
  failure is final: `JobClaims.MergeBudgetIffNeverReopenedFailed`, `ReopenedDayExceedsBudget`.
- With reversals allowed, a flat asset at the position cap takes the reversal branch
  (`backend/app/live_strategies/contracts.py:291-310`), which exceeds the cap and emits an exit
  without an entry: `LiveEvaluation.RunDisciplinedIff`, `ReversalExceedsCap`.
- A divergent run whose window is not the newest opens its incidents without restarting the recovery
  count (`backend/app/services/strategy_monitoring.py:1066-1101`), so the next healthy run may resolve
  them at once: `HealthMonitor.NewEvidenceResetsIff`, `LateFindingRecoversEarly`.
- If Redis restarts or fails over with an older counter, the holder of a fresh lease cannot register until its token passes
  the one in the fence row: `ShardFencing.HolderRegistersIff`, `RestartBlocksNewHolder`.
- Sorting compares a missing signal identifier with a present one when all earlier sort keys tie
  (`backend/app/divergence/contracts.py:634-638`), and then the comparison fails, on identical evidence too:
  `Pairing.SortFailsIff`, `MissingSignalFails`, `Comparison.IdenticalEvidenceIsHealthy`,
  `ClashingEvidenceFails`.
- The note that a delayed WebSocket replay never erases a REST correction
  (`backend/app/services/ingestion.py:146-149`) holds for rows whose values REST changed; a REST row
  with equal values is not recorded and gives no protection: `CandleStore.RestDeliveryReplacedIff`,
  `CandleLedger.ReplacedAfterRestIff`, `ConfirmationDoesNotRaisePriority`.
- The scanner's windows begin and end inside a minute (`backend/app/services/gap_repair.py:764-801`).
  Detection reports a gap in such a window, although all its minutes are stored, until the minutes
  just outside its ends are stored too, so the job cannot complete before the next candle: `GapPipeline.NoGapsIffStored`, `StoredWindowOpenIff`,
  `StoredWindowStaysOpen`.
- A raw row deleted after a repair has been verified leaves a hole in the completed window
  (`backend/app/services/gap_repair.py:690-698`): `GapPipeline.CompletedMinuteMissingIff`,
  `DeleteLeavesHole`.

## Model

| member | source | states |
|---|---|---|
| `Coverage.CountIsProof` | backend/app/services/ingestion.py:520-545 | as many rows in a window as it has minutes means every minute of the window is stored (pigeonhole), and conversely |
| `Coverage.CoverageProofIsComplete` | backend/alembic/versions/018_sync_range_delete_serialization.py:33-60 | the trigger's count, minimum and maximum checks accept a range exactly when raw storage holds every minute of it |
| `Coverage.BlocksAreMaximalRuns` | backend/app/services/ingestion.py:498-518 | the blocks of an ordered batch are exactly the maximal runs of its minutes |
| `Coverage.ContiguousBlocks` | backend/app/services/ingestion.py:498-518 | the loop over a batch rejects exactly the lists that do not strictly increase, and otherwise returns the maximal runs |
| `Coverage.MergedRowIsAdmissible` | backend/app/services/ingestion.py:305-351 | the merged row is proved by the coverage trigger, overlaps no remaining row and stays more than a minute from each |
| `Coverage.MergeCovers` | backend/app/services/ingestion.py:305-351 | merging adds exactly the merged interval to the covered minutes |
| `Coverage.MergeKeepsInvariant` | backend/app/services/ingestion.py:305-351 | a merge keeps the table sound and pairwise more than one minute apart |
| `Coverage.ExactIffSoundSeparatedCovers` | backend/alembic/versions/014_data_integrity_hardening.py:263-284 | the table is the maximal-run decomposition of raw storage if and only if it is sound, separated and complete |
| `Coverage.RebuildIsExact` | backend/alembic/versions/014_data_integrity_hardening.py:263-284 | grouping minutes by minute minus row number yields exactly the maximal runs |
| `Coverage.InvalidateKeepsInvariant` | backend/alembic/versions/018_sync_range_delete_serialization.py:63-74 | deleting a minute and the ranges that hold it keeps the rest sound and separated |
| `CandleLedger.InsertKeepsValid` | backend/alembic/versions/017_candle_revision_immutability.py:39-107 | any insert the trigger accepts, whatever revision it proposes, leaves each minute's ledger as revisions 1..k with the row at k |
| `CandleLedger.UpdateKeepsValid` | backend/alembic/versions/017_candle_revision_immutability.py:39-107 | any update the trigger accepts does the same |
| `CandleLedger.ReingestContinuesNumbering` | backend/alembic/versions/017_candle_revision_immutability.py:39-107 | in any valid state a row ingested for a minute that has none takes the revision after the last one the ledger holds |
| `CandleLedger.DeleteThenReingest` | backend/alembic/versions/017_candle_revision_immutability.py:39-107 | in particular a row deleted and ingested again continues its own numbering |
| `CandleLedger.UpsertAllOutcome` | backend/app/services/ingestion.py:201-246 | after a batch each of its minutes holds the batch's values or a row of a source that does not give way to the batch's |
| `CandleLedger.UpsertDecides` | backend/app/services/ingestion.py:142-167 | for each pair of sources: other values replace the stored row, under its next revision, if and only if REST meets anything, WebSocket meets anything but REST, another source meets neither connector, or legacy meets legacy; equal values never do |
| `CandleLedger.UpsertAllDecides` | backend/app/services/ingestion.py:201-246 | a batch settles each of its minutes by that rule and touches no other |
| `CandleLedger.DirectUpdateIff` | backend/alembic/versions/017_candle_revision_immutability.py:39-107 | an update by hand is refused exactly for a weaker source, a skipped revision or a revision without a change, with the error named |
| `CandleLedger.DirectInsertIff` | backend/alembic/versions/017_candle_revision_immutability.py:39-107 | an insert by hand is accepted exactly as revision one or the next, and stored as the next |
| `CandleLedger.UpsertAllTwice` | backend/app/services/ingestion.py:201-246 | applying a batch twice equals applying it once, rows and ledger |
| `CandleLedger.UpsertAllHoldsPriority` | backend/app/services/ingestion.py:142-167 | a batch never lowers the source priority of a stored row |
| `CandleLedger.ReplacedAfterRestIff` | backend/app/services/ingestion.py:142-167 | a binance_ws row replaces what a binance_rest row left if and only if REST only confirmed the values of a row that was not its own, and the new values differ |
| `CandleLedger.ConfirmationDoesNotRaisePriority` | backend/app/services/ingestion.py:142-167 | a concrete run in which a binance_ws row does |
| `CandleStore.RunKeepsConsistent` | backend/app/services/ingestion.py:305-351 | in every run, deletes and direct SQL included, the ledger is dense and append-only and the index sound and separated |
| `CandleStore.CoverageIsExact` | backend/app/services/ingestion.py:572-607 | from the migration on, every run of the commit paths without deletes keeps the index exactly the maximal-run decomposition of raw storage |
| `CandleStore.MergesAreNeverRefused` | backend/app/services/ingestion.py:547-560 | in any reachable state neither the coverage trigger nor the overlap constraint refuses a merge of a batch's blocks |
| `CandleStore.CommitRawTwice` | backend/app/services/ingestion.py:572-584 | the canonical commit path is idempotent: rows, ledger and index |
| `CandleStore.CommitTwice` | backend/app/services/ingestion.py:586-607 | so is the ordinary commit path, staging included |
| `CandleStore.PriorityNeverFalls` | backend/app/services/ingestion.py:201-246 | between deletes of a minute its row stays and its source priority never falls, over any run |
| `CandleStore.TransactionDecides` | backend/app/services/ingestion.py:572-607 | every service transaction settles by the same rule the rows it brings: delivered candles in raw storage, older ones in staging, promoted ones in raw storage; a minute it does not store keeps its row |
| `CandleStore.DeletionTakes` | backend/alembic/versions/018_sync_range_delete_serialization.py:63-74 | a deletion takes the row and exactly the ranges over its minute; ledger and staging stay |
| `CandleStore.RestDeliveryReplacedIff` | backend/app/services/ingestion.py:201-246 | a binance_rest delivery followed by any delete-free run of binance_ws candles: what it left changes if and only if it only confirmed a row that was not from REST and some later candle differs |
| `CandleStore.AcceptedRestRowSurvives` | backend/app/services/ingestion.py:142-167 | a stored REST row stays, revision included, through any delete-free run of WebSocket candles |
| `CandleStore.NothingStagedIsLost` | backend/app/services/historical_merge.py:236-305 | in every run each minute ever staged and not deleted is in staging or in raw storage |
| `CandleStore.RowsLeaveStagingForRaw` | backend/app/services/historical_merge.py:290-305 | rows leave staging only by promotion, and the same step settles them in raw storage by the rule |
| `CandleStore.CandleTables.MergeVerified` | backend/app/services/ingestion.py:305-351 | the overlap loop computes the union span and replaces exactly the touching rows |
| `CandleStore.CandleTables.MarkVerified` | backend/app/services/ingestion.py:547-560 | every proven block is merged, the others are skipped |
| `CandleStore.CandleTables.UpdateSyncRanges` | backend/app/services/ingestion.py:353-364 | a caller's interval is registered if and only if raw storage holds all of it |
| `CandleStore.CandleTables.CommitRawBatch` | backend/app/services/ingestion.py:572-584 | the method changes the four tables exactly as the canonical commit specifies, and fails exactly on unordered input |
| `CandleStore.CandleTables.CommitBatch` | backend/app/services/ingestion.py:586-607 | candles from the cutoff on become canonical, older ones are only staged |
| `CandleStore.CandleTables.PromotePage` | backend/app/services/historical_merge.py:270-305 | a page is committed and exactly that page leaves staging |
| `CandleStore.CandleTables.DeleteMinute` | backend/alembic/versions/018_sync_range_delete_serialization.py:63-74 | deleting a row drops every range that claims its minute |
| `GapDetection.GapsAreConservative` | backend/app/services/ingestion.py:41-140 | at most `max_gaps` ordered disjoint non-empty gaps inside the request; under both caps every unclaimed instant lies in one of them |
| `GapDetection.UncappedGapsAreFree` | backend/app/services/ingestion.py:41-140 | when neither cap cuts anything off, no stored range reaches into the interior of a gap |
| `GapDetection.InspectedRows` | backend/app/services/ingestion.py:73-91 | the rows inspected are the first by start, as many as the cap allows, of those that share an instant with the closed request |
| `GapDetection.GapsOfInspectedRows` | backend/app/services/ingestion.py:93-125 | below the cap on gaps the result is the complement of the inspected rows, whatever was left uninspected |
| `GapDetection.EmptyIffCovered` | backend/app/services/ingestion.py:41-140 | under any caps the result is empty if and only if one stored range holds the whole request |
| `GapDetection.DetectMissingRanges` | backend/app/services/ingestion.py:41-140 | the scanning method returns exactly the specified gaps and fails only for non-positive caps |
| `HistoricalMerge.PagesAreOnePromotion` | backend/app/services/historical_merge.py:236-305 | promoting two disjoint pages in either order equals promoting their union: rows, ledger, index and staging |
| `HistoricalMerge.PromotedRowIsStored` | backend/app/services/historical_merge.py:270-305 | a row that left staging during a day's paging is settled in raw storage as one promotion of it would |
| `HistoricalMerge.NextPageIs` | backend/app/services/historical_merge.py:258-268 | the next page is the unlocked staged rows of the day by asset and time, all of them or as many as fit, and none after a row left out |
| `HistoricalMerge.DayIsItsWindow` | backend/app/services/historical_merge.py:332-360 | the staged rows counted to a day are those whose instants lie in the refresh window its closing schedules |
| `HistoricalMerge.DayWorker.CommitGroups` | backend/app/services/historical_merge.py:270-298 | grouping a page by asset commits each asset's part once |
| `HistoricalMerge.DayWorker.MergeOnePage` | backend/app/services/historical_merge.py:236-305 | under the claim the first unlocked rows in key order, at most a page, are promoted; without it nothing changes |
| `HistoricalMerge.DayWorker.CompleteIfOwned` | backend/app/services/historical_merge.py:332-382 | a day closes exactly when the claim is live and no staged row is left for it, and its whole window is then in exactly one active refresh |
| `HistoricalMerge.OtherIsTracked` | backend/app/services/historical_merge.py:236-305 | any ingestion, deletion, claim event or refresh step another transaction commits between two pages keeps what the day worker relies on |
| `HistoricalMerge.NothingStagedMeansStored` | backend/app/services/historical_merge.py:332-382 | whatever others committed meanwhile, once nothing of the day is staged each minute of it that was held or has been staged, and not deleted, is in raw storage |
| `HistoricalMerge.DayWorker.MergePages` | backend/app/services/historical_merge.py:496-512 | the paging loop, with other transactions in between, ends at a named step: having held its claim at every step before, it is lost if and only if the heartbeat reported it or the row is not owned at that step's clock, and otherwise every row left for the day was locked at that page |
| `HistoricalMerge.EndedAtClosing` | backend/app/services/historical_merge.py:332-382 | what the pages and the last transaction together amount to when the worker reaches the closing |
| `HistoricalMerge.DayWorker.ProcessDay` | backend/app/services/historical_merge.py:458-543 | a claimed day with any other transactions committing between its own: the worker held the claim at every step before its last; the day closes if and only if it holds the claim at that step's clock with nothing staged, and then all that is owed to the day is in raw storage and its window is in exactly one active refresh; rows left under a held claim were locked at the last page or staged since; without interference what it did equals one promotion |
| `GapPipeline.NoGapsMeansStored` | backend/app/services/gap_repair.py:676-693 | an empty detection result proves every minute of a closed window |
| `GapPipeline.NoGapsIffStored` | backend/app/services/gap_repair.py:676-693 | with an exact index, detection over any window is empty if and only if raw storage holds every minute from the one at or before its start to the one at or after its end |
| `GapPipeline.VerifyClearsIff` | backend/app/services/gap_repair.py:676-693 | so with an exact index a claim sees complete coverage if and only if every minute around its window is stored |
| `GapPipeline.StoredWindowOpenIff` | backend/app/services/gap_repair.py:676-693 | a window whose own minutes are all stored still has a gap if and only if the minute at or before its start or the one at or after its end is missing |
| `GapPipeline.StoredWindowStaysOpen` | backend/app/services/gap_repair.py:764-801 | a concrete window, ending inside a minute as the scanner's do, that is stored and still has a gap |
| `CandleStore.PresentAfterIff` | backend/app/services/ingestion.py:572-607 | a minute is in raw storage after a transaction if and only if an accepted batch, page or insert stores it, or it was there and is not deleted |
| `GapPipeline.CompletedMinuteMissingIff` | backend/app/services/gap_repair.py:624-698 | over every interleaving of claims, fenced batches, promotion, parking, release, completion and deletion, a minute of a completed window is missing if and only if it was deleted after the completing claim had seen complete coverage and no batch, page, insert or owned repair has stored it since |
| `GapPipeline.GoneMeansMissing` | backend/app/services/gap_repair.py:378-412 | a deleted minute stays missing over any run until an event stores it |
| `GapPipeline.DeleteLeavesHole` | backend/app/services/gap_repair.py:690-698 | a deletion just before the completion leaves such a hole |
| `GapPipeline.CompletedWindowIsStored` | backend/app/services/gap_repair.py:624-698 | so without deletions a completed job's whole window is in raw storage |
| `GapPipeline.CompletesIff` | backend/app/services/gap_repair.py:486-536 | a job completes if and only if the owner of a claim that has seen complete coverage completes it |
| `GapPipeline.CreatesIff` | backend/app/services/gap_repair.py:140-225 | a job is created for a known asset and a window that is not empty, pending and unclaimed |
| `GapPipeline.ParkingIff` | backend/app/services/historical_merge.py:420-456 | only the owner parks its job, and a parked job is released if and only if nothing is staged in its closed window |
| `GapPipeline.CompletionSchedulesRefresh` | backend/app/services/gap_repair.py:486-536 | at completion in any run the aligned window, the last candle's bucket included, is covered by exactly one active refresh job per instant |
| `GapPipeline.LostClaimNeverWrites` | backend/app/services/gap_repair.py:378-412 | a claim that lost its job never again commits a batch or completes, at any later time and on any clock |
| `GapPipeline.ReleasedWindowIsStored` | backend/app/services/historical_merge.py:420-456 | a window complete in staging and raw together stays so, and when its parked job is released all of it is in raw storage |
| `Scheduling.UncoveredIsComplement` | backend/app/services/cagg_refresh.py:62-89 | the uncovered intervals are the exact, ordered complement of the existing windows in the proposal |
| `Scheduling.UncoveredIntervals` | backend/app/services/cagg_refresh.py:62-89 | the cursor loop returns that complement |
| `Scheduling.WalkIntervals` | backend/app/services/gap_repair.py:117-127 | the cursor walk over sorted clipped intervals |
| `Scheduling.ScheduledOnce` | backend/app/services/cagg_refresh.py:500-548 | after a refresh schedule each instant of the window lies in exactly one active job |
| `Scheduling.ActiveWindowsStayDisjoint` | backend/app/services/gap_repair.py:140-225 | over all runs of proposals and retirements active windows stay pairwise disjoint, with or without the overlap cap |
| `Scheduling.WindowTable.ScheduleWindow` | backend/app/services/gap_repair.py:140-225 | the scheduler adds exactly the uncovered parts, nothing beyond the cap |
| `BucketAlignment.TruncateIsFloor` | backend/app/services/cagg_refresh.py:428-497 | field-wise truncation of a datetime is rounding down to the bucket |
| `BucketAlignment.AlignIsLeastCover` | backend/app/services/cagg_refresh.py:428-497 | the aligned window covers the request and no smaller aligned window does |
| `BucketAlignment.AlignIsIdempotent` | backend/app/services/cagg_refresh.py:428-497 | aligning an aligned window changes nothing |
| `BucketAlignment.InclusiveEndKeepsItsBucket` | backend/app/services/cagg_refresh.py:428-497 | an inclusive end keeps the whole bucket of the last candle, on a boundary too |
| `BucketAlignment.ExclusiveEndStopsAtBoundary` | backend/app/services/cagg_refresh.py:428-497 | an exclusive end stays put exactly when it is on a boundary |
| `BucketAlignment.DayWindowsFitEveryTimeframe` | backend/app/services/cagg_refresh.py:428-497 | the day default is whole buckets of every timeframe |
| `JobClaims.RunKeepsFenced` | backend/app/services/gap_repair.py:245-376 | over all traces the row names only the newest token and none that already ended the job |
| `JobClaims.OneOwner` | backend/app/services/cagg_refresh.py:91-162 | at most one issued token satisfies the ownership predicate, whatever the workers' clocks |
| `JobClaims.StaleTokenStaysStale` | backend/app/services/historical_merge.py:91-207 | a superseded token never owns the row again |
| `JobClaims.EachTokenEndsOnce` | backend/app/services/gap_repair.py:486-622 | each token completes, fails or parks the job at most once |
| `JobClaims.NonOwnerChangesNothing` | backend/app/services/cagg_refresh.py:289-350 | a heartbeat or terminal step by anyone but the owner leaves the row unchanged |
| `JobClaims.ClaimIff` | backend/app/services/gap_repair.py:245-298 | exactly when a claim is granted, per kind of job, and the row it writes |
| `JobClaims.LiveLeaseIsNotClaimed` | backend/app/services/cagg_refresh.py:91-162 | a lease that is live on a clock cannot be claimed on that clock, whatever the kind of job |
| `JobClaims.OwnerIff` | backend/app/services/gap_repair.py:486-585 | the row the owner's heartbeat, completion and parking write; from anyone else nothing |
| `JobClaims.FailureIff` | backend/app/services/historical_merge.py:384-418 | the row an owner's failure writes: rescheduled after the backoff while the budget lasts, final otherwise |
| `JobClaims.BackoffDoubles` | backend/app/services/cagg_refresh.py:51-54 | the backoff is thirty seconds, doubled with each further attempt, an hour at most |
| `JobClaims.ServiceStepsIff` | backend/app/services/historical_merge.py:69-88 | release, reopening and reaping: exactly when they act and the row they write |
| `JobClaims.RunKeepsBudget` | backend/app/services/cagg_refresh.py:315-350 | active refresh and gap rows stay within their retries; export attempts equal claims |
| `JobClaims.MergeBudgetIffNeverReopenedFailed` | backend/app/services/historical_merge.py:69-88 | an active merge day is within its retries if and only if no failed day was reopened |
| `JobClaims.ReopenedDayExceedsBudget` | backend/app/services/historical_merge.py:69-88 | for every retry limit, a concrete run in which a reopened day is active beyond its retries |
| `JobClaims.ReopenedDayGetsNoRetry` | backend/app/services/historical_merge.py:384-418 | after that the first failure is final |
| `JobClaims.ExportAttemptsAreClaims` | backend/app/services/export_jobs.py:113-163 | claims equal the attempt count, never above the maximum; a pending job has an attempt left |
| `JobClaims.ExportNeverStuck` | backend/app/services/export_jobs.py:37-111 | every job that has not ended is claimable once due, live-owned, or reapable |
| `JobClaims.ExportStepSpends` | backend/app/services/export_jobs.py:255-327 | a measure falls on every effective claim, failure, reap and completion and on nothing else |
| `JobClaims.ExportRunsAreBounded` | backend/app/services/export_jobs.py:37-327 | so at most two effective transitions per allowed attempt, over any run |
| `JobClaims.JobRow.ClaimJob` | backend/app/services/gap_repair.py:245-298 | claiming succeeds exactly on a ready row and installs a fresh token |
| `JobClaims.JobRow.Renew` | backend/app/services/export_jobs.py:212-253 | only the live owner extends the lease |
| `JobClaims.JobRow.CompleteIfOwned` | backend/app/services/export_jobs.py:255-290 | only the live owner completes |
| `JobClaims.JobRow.RecordFailureIfOwned` | backend/app/services/export_jobs.py:292-327 | only the live owner fails the job; the retry or final state follows the budget |
| `JobClaims.JobRow.MarkAwaitingMergeIfOwned` | backend/app/services/gap_repair.py:554-585 | only the live owner parks the job |
| `JobClaims.JobRow.ReapIfExhausted` | backend/app/services/export_jobs.py:62-111 | only an expired row without attempts left is reaped |
| `ShardFencing.WritesNeverRegress` | backend/app/services/ws_sharding/persistence_fence.py:35-104 | over all interleavings with paused claims, and whatever keys a restart or failover of Redis leaves behind, the committed writes have non-decreasing fencing tokens |
| `ShardFencing.WritesFormBlocks` | backend/app/services/ws_sharding/persistence_fence.py:81-104 | the writes of one claim form one block |
| `ShardFencing.FenceTokenIsOneClaim` | backend/app/services/ws_sharding/persistence_fence.py:35-79 | a token in the fence row belongs to one claim for ever, even if Redis comes back with an older counter and lease |
| `ShardFencing.OlderClaimsNeverWriteAgain` | backend/app/services/ingestion.py:609-628 | once a newer claim has registered nothing older writes |
| `ShardFencing.LiveLeaseIsExclusive` | backend/app/services/ws_sharding/lease.py:28-39 | while a lease is live no acquisition changes anything |
| `ShardFencing.StepIff` | backend/app/services/ws_sharding/lease.py:28-63 | every transition of lease and fence row, exactly when it happens and what it writes |
| `ShardFencing.CounterOrdersClaims` | backend/app/services/ws_sharding/lease.py:28-39 | while the counter is not lost, tokens grow with acquisition |
| `ShardFencing.FreshHolderRegisters` | backend/app/services/ws_sharding/persistence_fence.py:35-79 | without counter loss every fresh lease holder can register |
| `ShardFencing.HolderRegistersIff` | backend/app/services/ws_sharding/persistence_fence.py:35-79 | in general, after any loss, it can if and only if the counter has reached the row's token |
| `ShardFencing.RestartBlocksNewHolder` | backend/app/services/ws_sharding/persistence_fence.py:35-79 | after a counter restart a fresh holder can be refused |
| `ShardFencing.LeaseKeys.Acquire` | backend/app/services/ws_sharding/lease.py:28-39 | the acquire script |
| `ShardFencing.LeaseKeys.Renew` | backend/app/services/ws_sharding/lease.py:41-52 | only the matching claim renews |
| `ShardFencing.LeaseKeys.Release` | backend/app/services/ws_sharding/lease.py:54-63 | only the matching claim releases |
| `ShardFencing.FenceRow.RegisterClaim` | backend/app/services/ws_sharding/persistence_fence.py:35-79 | the conditional upsert accepts a higher token or the same claim |
| `ShardFencing.FenceRow.AssertCurrent` | backend/app/services/ws_sharding/persistence_fence.py:81-104 | a write passes exactly when the row names its claim |
| `TokenBucket.AdmittedWithinBound` | backend/app/connectors/rate_limiter.py:11-44 | the weight admitted between any two requests is at most the capacity plus the elapsed time times the rate, denials and expiries included |
| `TokenBucket.ExpiryIsUnobservable` | backend/app/connectors/rate_limiter.py:11-44 | a key with expiry admits exactly the requests a key without expiry admits |
| `TokenBucket.AdmittedIff` | backend/app/connectors/rate_limiter.py:11-44 | a request is admitted if and only if its weight is valid and the refilled level covers it |
| `TokenBucket.IdleBucketAdmits` | backend/app/connectors/rate_limiter.py:11-44 | after one full refill cycle without a write any valid weight is admitted |
| `TokenBucket.EntryPotential` | backend/app/connectors/rate_limiter.py:11-44 | what a request takes plus what it leaves comes from what was there plus the refill |
| `TokenBucket.RateLimiter.TryAcquire` | backend/app/connectors/rate_limiter.py:72-92 | the weight guard and the script; a denial writes nothing |
| `LiveEvaluation.EvaluatedTimesAreConsecutive` | backend/app/services/live_strategy.py:350-423 | for any stream the evaluated times are t0, t0+D, ... up to the durable cursor, so none is evaluated twice |
| `LiveEvaluation.AtMostTwoAttempts` | backend/app/services/live_strategy.py:353-398 | each candle has at most two attempts and only the second of two is an evaluation |
| `LiveEvaluation.CounterAndReplayAreExact` | backend/app/services/live_strategy.py:424-433 | the open-position counter is the number of non-flat assets, and replaying entries and exits rebuilds each position |
| `LiveEvaluation.NoReversalNoExcess` | backend/app/live_strategies/contracts.py:262-310 | without reversals the cap is never exceeded and entries and exits alternate |
| `LiveEvaluation.DisciplineKeptIff` | backend/app/live_strategies/contracts.py:291-310 | one step keeps cap and alternation if and only if it is not a reversal from flat at the cap |
| `LiveEvaluation.RunDisciplinedIff` | backend/app/live_strategies/contracts.py:291-310 | a run keeps them after every step if and only if no step was such a reversal |
| `LiveEvaluation.ReversalExceedsCap` | backend/app/live_strategies/contracts.py:291-310 | a concrete two-asset run that exceeds a cap of one |
| `LiveEvaluation.FirstMatchIsFirst` | backend/app/live_strategies/contracts.py:236-254 | the signal used is the first whose threshold the close is above, at least, below or at most, unless a malformed one precedes it |
| `LiveEvaluation.EvaluatedIff` | backend/app/live_strategies/contracts.py:182-318 | a candle counts as evaluated if and only if it is the next one due and its first firing signal can be applied; the position is then flat, long or short as the signal says |
| `LiveEvaluation.EvaluateAnswers` | backend/app/live_strategies/contracts.py:256-318 | the whole answer for a due candle: position and events for an exit, an entry, a reversal and a signal without effect |
| `LiveEvaluation.StatusIff` | backend/app/live_strategies/contracts.py:191-254 | when a candle is a duplicate, out of order, behind a gap, invalid or an error; none of these moves the position |
| `LiveEvaluation.PersistAnswers` | backend/app/services/live_strategy.py:320-448 | the recorded state, counter and events after a due candle whose first firing signal can be applied |
| `LiveEvaluation.RecordedIff` | backend/app/services/live_strategy.py:353-398 | when an outcome is recorded and under which attempt number |
| `LiveEvaluation.OutcomeShape` | backend/app/live_strategies/contracts.py:182-318 | the evaluator emits the signal and then at most an exit and an entry, the last of which carries the new position |
| `LiveEvaluation.PersistEffect` | backend/app/services/live_strategy.py:320-448 | recording changes the asset's state, the counter, one observation and the events exactly as the outcome says |
| `LiveEvaluation.BatchIsRun` | backend/app/services/live_strategy.py:180-195 | the batch loop is a run over a prefix: nothing is observed behind an unresolved gap |
| `LiveEvaluation.Runtime.EvaluateAndPersist` | backend/app/services/live_strategy.py:320-455 | the method records exactly the specified outcome |
| `LiveEvaluation.Runtime.ProcessAsset` | backend/app/services/live_strategy.py:180-195 | it stops at the first candle the cursor does not reach and returns the number of evaluations recorded |
| `Pairing.PairingIsExactPartition` | backend/app/divergence/contracts.py:624-646 | each point is in exactly one pair or one leftover list |
| `Pairing.PairsAreRankByRank` | backend/app/divergence/contracts.py:624-646 | only equal identities pair, min(count, count) times each, k-th earliest with k-th earliest |
| `Pairing.RankByRankIsBottleneckOptimal` | backend/app/divergence/contracts.py:624-634 | if any complete pairing of two time-ordered lists stays within a tolerance, rank by rank does |
| `Pairing.PairingIsBottleneckOptimal` | backend/app/divergence/contracts.py:624-646 | so for each identity with equal counts the pairs made stay within any tolerance that some pairing achieves |
| `Pairing.PairedWithinIffMatchable` | backend/app/divergence/contracts.py:460-481 | nothing is left over or late if and only if some identity-preserving complete pairing stays within the tolerance |
| `Pairing.SortFailsIff` | backend/app/divergence/contracts.py:634-638 | a sort that stops at the first pair of keys it cannot compare fails if and only if two points tie up to one missing signal, and otherwise sorts |
| `Pairing.EveryArrangementMeetsAClash` | backend/app/divergence/contracts.py:634-638 | any other sort fails for the same inputs: every arrangement in key order has two incomparable neighbours if and only if two points of the list are incomparable |
| `Pairing.MissingSignalFails` | backend/app/divergence/contracts.py:634-638 | two concrete points whose sort fails |
| `Pairing.PairPoints` | backend/app/divergence/contracts.py:624-658 | the sorts and queues return exactly that pairing, and fail exactly when points of one side are incomparable |
| `Pairing.MatchExpected` | backend/app/divergence/contracts.py:636-642 | each expected point takes the oldest point left in its queue |
| `Pairing.DrainQueues` | backend/app/divergence/contracts.py:643-646 | flattening and sorting the queues gives the unmatched observed points in order |
| `Comparison.HealthyIff` | backend/app/divergence/contracts.py:375-433 | the comparison reports health without findings if and only if both sides can be sorted, coverage, identities, configurations and issues are clean, signals are matchable and every family agrees |
| `Comparison.SignalsAgreeIff` | backend/app/divergence/contracts.py:460-481 | no signal finding if and only if the signals can be matched within the tolerance at all |
| `Comparison.CandlesAgreeIff` | backend/app/divergence/contracts.py:484-515 | no candle finding if and only if all candles pair and agree in time, revision, each price within its ten-thousandths, and volume, all written out without the service's helpers |
| `Comparison.ExecutionsAgreeIff` | backend/app/divergence/contracts.py:518-564 | no execution finding if and only if all pair and agree in time, price, slippage and fees, written out likewise |
| `Comparison.PositionsAgreeIff` | backend/app/divergence/contracts.py:567-587 | no position finding if and only if pairs agree, none is missing and unexpected ones are flat |
| `Comparison.IdenticalEvidenceIsHealthy` | backend/app/divergence/contracts.py:375-433 | the same complete evidence in any order on both sides, with one identity and no issue, is healthy with no findings if it can be sorted and fails if not; outside signals no two points of a family may share time and identity |
| `Comparison.ClashingEvidenceFails` | backend/app/divergence/contracts.py:634-638 | two identical sides that hold a signal with and one without identifier at one time, asset and type: the comparison fails |
| `Comparison.InsufficientIff` | backend/app/divergence/contracts.py:375-433 | the report's status is insufficient if and only if both sides can be sorted and a side is incomplete or only one side reports performance |
| `Comparison.ReportedIff` | backend/app/divergence/contracts.py:375-658 | a report holds a finding if and only if the evidence says so: for every kind the condition, time and recorded values, written out |
| `Comparison.Compare` | backend/app/divergence/contracts.py:375-433 | the assembled comparison returns exactly the classified findings, deduplicated by the values they record, and fails exactly where a sort does |
| `Incidents.RunKeepsGood` | backend/app/services/strategy_monitoring.py:1104-1218 | over every run counts equal evidence rows, each finding is linked once, and severity is at least the policy's for the count |
| `Incidents.SeverityNeverFalls` | backend/app/services/strategy_monitoring.py:1176-1196 | severity and count never fall and evidence is never rewritten, across resolve and reopen |
| `Incidents.RedeliveryChangesNothing` | backend/app/services/strategy_monitoring.py:1120-1135 | the same evidence delivered again at any later time changes nothing |
| `Incidents.NewEvidenceReopens` | backend/app/services/strategy_monitoring.py:1176-1196 | new evidence for a resolved incident reopens it with its history |
| `Incidents.SeverityIsMonotone` | backend/app/monitoring/contracts.py:143-160 | the policy never asks for less at a higher count, nor for less than the baseline |
| `Incidents.RecorderDecides` | backend/app/services/strategy_monitoring.py:1104-1218 | every recorder: known evidence changes nothing; new evidence adds one row and one sighting, reopens, and sets the severity to the highest of stored, baseline, observed and what the two thresholds ask, exactly |
| `Incidents.LifecycleDecides` | backend/app/services/strategy_monitoring.py:311-375 | acknowledging, resolving and recovering change lifecycles and nothing else |
| `HealthMonitor.RunKeepsLedger` | backend/app/services/strategy_monitoring.py:980-1102 | whole monitoring runs keep the ledger's invariants |
| `HealthMonitor.HealthyOnlyByHealthyRun` | backend/app/services/strategy_monitoring.py:1065-1102 | only a finding-free healthy run of the current window makes health healthy |
| `HealthMonitor.HealthyMeansNewestEvidence` | backend/app/services/strategy_monitoring.py:1065-1102 | and its window ends no earlier than any complete run processed before |
| `HealthMonitor.HealthyIffNothingOpen` | backend/app/services/strategy_monitoring.py:1220-1254 | a current healthy run ends healthy if and only if it leaves no incident of the binding open but the stale-runtime one; otherwise health shows the most actionable of them |
| `HealthMonitor.ProjectionIsMostActionable` | backend/app/services/strategy_monitoring.py:1691-1697 | a run's projection is the most actionable class among its findings, over all causes and over those not about coverage |
| `HealthMonitor.DivergentRunShows` | backend/app/services/strategy_monitoring.py:1065-1102 | a current divergent run shows critical before warning before informational and, within a severity, the causes in their fixed order; the level is error for a strategy failure or the runtime and degraded otherwise |
| `HealthMonitor.InsufficientRunShows` | backend/app/services/strategy_monitoring.py:1077-1090 | a current run over incomplete coverage shows the same over the causes other than coverage, or unknown; it is no complete comparison |
| `HealthMonitor.HealthyRunShows` | backend/app/services/strategy_monitoring.py:1220-1254 | a current healthy run shows the same over the incidents it leaves open, and counts |
| `HealthMonitor.LateRunShowsNothing` | backend/app/services/strategy_monitoring.py:1059-1075 | a late or contradictory run leaves health as it was |
| `HealthMonitor.StaleComparisonShows` | backend/app/services/strategy_monitoring.py:1290-1332 | a stale comparison is shown unless something above it is shown already |
| `HealthMonitor.StaleRuntimeShows` | backend/app/services/strategy_monitoring.py:1256-1288 | a stale runtime is shown as such and a fresh one only takes that back |
| `HealthMonitor.FreshnessResolves` | backend/app/services/strategy_monitoring.py:1280-1285 | a fresh runtime and a fresh comparison each resolve their own stale incident and touch no other |
| `HealthMonitor.FailureShows` | backend/app/services/strategy_monitoring.py:670-760 | a failed runtime is an error of the runtime, critical if the policy says so or cannot be trusted |
| `HealthMonitor.StreakIsHistory` | backend/app/services/strategy_monitoring.py:1220-1254 | the counter, cleared and restored while incidents stay open, is always the number of current healthy runs since the last other projection |
| `HealthMonitor.RecoveryIff` | backend/app/services/strategy_monitoring.py:1220-1254 | a current healthy run resolves the open incidents if and only if it completes the required checks |
| `HealthMonitor.RecoveryNeedsChecks` | backend/app/services/strategy_monitoring.py:1220-1254 | over whole runs automatic recovery comes only after the required checks in a row |
| `HealthMonitor.HowIncidentsResolve` | backend/app/services/strategy_monitoring.py:1461-1477 | an incident is resolved by a step in one of four ways only, each with its condition: enough healthy checks, live runtime state, recent comparison evidence, or an operator |
| `HealthMonitor.NewEvidenceResetsIff` | backend/app/services/strategy_monitoring.py:1066-1101 | new evidence restarts the recovery count if and only if it is not from a late window or there was nothing to reset |
| `HealthMonitor.LateFindingRecoversEarly` | backend/app/services/strategy_monitoring.py:1066-1101 | a concrete run in which a divergence found late is resolved by a single healthy run although two checks are required |
| `HealthMonitor.Monitor.Sight` | backend/app/services/strategy_monitoring.py:1104-1218 | the recorder links, escalates and reopens exactly as specified |
| `HealthMonitor.Monitor.RecordFindings` | backend/app/services/strategy_monitoring.py:1004-1051 | the paging loop records every finding once and keeps the two most actionable classes, for any page size |
| `HealthMonitor.Monitor.RecordHealthyComparison` | backend/app/services/strategy_monitoring.py:1220-1254 | one healthy check |
| `HealthMonitor.Monitor.ProcessComparisonRun` | backend/app/services/strategy_monitoring.py:980-1102 | one run; a contradictory one leaves everything as it was |
| `HealthMonitor.Monitor.EvaluateStaleness` | backend/app/services/strategy_monitoring.py:1256-1288 | runtime liveness: projection, record and recovery |
| `HealthMonitor.Monitor.EvaluateComparisonFreshness` | backend/app/services/strategy_monitoring.py:1290-1332 | comparison freshness: projection, record and recovery |
| `ShardAssignment.AssignSucceedsIff` | backend/app/services/ws_sharding/assignment.py:101-144 | for any hash assignment succeeds if and only if the shards suffice; the defensive error is never reached |
| `ShardAssignment.AssignOutcome` | backend/app/services/ws_sharding/assignment.py:101-144 | which error is returned, and success exactly when the different normalised symbols fit the shards times their capacity |
| `ShardAssignment.LexIff` | backend/app/services/ws_sharding/assignment.py:139-144 | the order of a bucket is code-point order: a prefix first, otherwise by the first differing character |
| `ShardAssignment.AssignmentIsExact` | backend/app/services/ws_sharding/assignment.py:101-144 | each distinct symbol is in exactly one sorted bucket of at most the capacity, away from home only where home is full |
| `ShardAssignment.OrderAndDuplicatesDoNotMatter` | backend/app/services/ws_sharding/assignment.py:127-144 | the result depends only on the set of normalised symbols |
| `ShardAssignment.RequiredShardsSuffice` | backend/app/services/ws_sharding/assignment.py:74-88 | the computed shard count is always enough, and no smaller one above the minimum is |
| `ShardAssignment.RequiredShardsIs` | backend/app/services/ws_sharding/assignment.py:74-88 | it is the minimum asked for or the least count that holds all different symbols, with the errors named |
| `ShardAssignment.FallbackIsEveryShard` | backend/app/services/ws_sharding/assignment.py:91-98 | the order visits each shard exactly once and starts at home |
| `ShardAssignment.FallbackIsByDigest` | backend/app/services/ws_sharding/assignment.py:91-98 | away from home the shards are tried in the order of their digests |
| `ShardAssignment.TryShards` | backend/app/services/ws_sharding/assignment.py:137-142 | the inner loop takes the first shard with room |
| `ShardAssignment.AssignSymbolsToShards` | backend/app/services/ws_sharding/assignment.py:101-144 | the nested loops compute the specified assignment and errors |
| `ShardAssignment.GetSymbolsForShard` | backend/app/services/ws_sharding/assignment.py:147-179 | one shard's bucket; an identifier out of range is refused first |

## Left out

- Binance REST and WebSocket clients, S3 upload, Parquet writing, connections: only the table or key transition each makes is modelled. `pipeline.py` and `supervisor.py` of ws_sharding are not part of this model, and neither is the runtime built on them.
- Asyncio tasks, cancellation and event loops: a worker is a set of claims that may take a step at any later time.
- Row and advisory locks: they are what makes each transaction one step; `skip_locked` appears as an arbitrary set of rows a page does not see.
- Field checks of candle payloads (`backend/app/services/ingestion.py:423-495`): only the order of timestamps is kept. Naive and zoned datetimes are not distinguished.
- Direct inserts into the revision table, chunk compression, aggregate refresh internals, downgrade paths and indexes.
- The truncation warnings of gap detection: the returned gaps are modelled, the log records are not.
- Job columns that no transition reads: `claimed_at`, error texts and categories; and the compatibility heartbeat without a token.
- The window containment check and the cap of 10,000 points on comparison input; findings are a set, so their order by timestamp and fingerprint is not modelled. The asset of a data issue is not part of its fingerprint in the service and not part of its finding here.
- Health labels, error counters, latencies and the rotation over assets in a live cycle; activation and deactivation, which create or stop whole runtimes.
- The monitoring binding's own lease, which follows the claim pattern of the job tables, and incident timestamps, actors and notes.
- Liveness under real clocks, and freshness of aggregates when a running refresh absorbs a new window: the code does not establish these.
- Scheduling.ActiveWindowsStayDisjoint: says nothing about writes that bypass the scheduler, which the database exclusion constraint rejects.
- HistoricalMerge.DayWorker.ProcessDay: other transactions commit between its own, not inside them; for termination they are a finite list, which may be as long as one likes.
- TokenBucket.AdmittedWithinBound: over real numbers, without floating-point rounding.
- Asset cache, API, authentication, metrics, strategy catalogue and backtest persistence: single-branch checks or plumbing that would add only easy members.
