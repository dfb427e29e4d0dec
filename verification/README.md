# A verified model of the dashboard's accounting and job logic

This project models the parts of the Spark dashboard server that keep accounts or survive crashes, and
proves what they promise. `dafny verify dfyconfig.toml` checks all of it.

* **Fleet energy** (`Energy*.dfy`). Node power samples arrive on any clock, with gaps, steps back and restarts;
  they are integrated by trapezoids into minute buckets above a high-water mark, pruned, saved and validated
  on load. One invariant ties buckets, baselines and high-water mark together; it is kept by every record, passes every
  check of the validator, and is established by loading any file. `EnergyRuns` draws the consequences for
  whole runs. `EnergyReach` says exactly which buckets such runs can hold: it schedules any admissible coverage into a
  minute (`EnergySchedule`) and plays the schedule with calls of `record` (`EnergyPlayback`). `EnergyRules`
  states single steps in the source's own figures. `EnergyTracker` is the class, with its loops and its insertion order.
* **Token ledger** (`Ledger*.dfy`). Cumulative counters become lifetime rows and rows per UTC day. That each model gets the
  steps of its own readings, the agreement of the two views, the telescoping of credits, range queries over pruned days,
  coercion on load and restarts are proved for whole runs; `LedgerTracker` is the class.
* **Benchmark jobs** (`Bench*.dfy`). Operations are memory changes plus an ordered list of atomic file writes; a crash may
  fall between any two writes, those of a recovery included. `BenchAnswers` follows each job's final status through such
  lives. `BenchManager` is the class, with its writes in order.
* **Event stream splitter** (`SseSplitter.dfy`). Exactly when chunk boundaries do not matter.
* **Remote jobs** (`PollOutput.dfy`, `RemoteJob*.dfy`). Polls, cancels, sweeps and agent connections, cut at their waits, as
  a state machine over all interleavings, with the class whose methods take its steps. `RemoteJobCauses` says which step
  gave a job its end.
* **Showcase polling**, **rate limiter**, **histogram quantile** (`ShowcaseState.dfy`, `RateLimiterState.dfy`,
  `HistogramState.dfy`). Deltas against full texts, a pruned table against the full history, interpolation
  against bucket bounds.

`FiniteSets`, `FiniteSums`, `RealArithmetic` and `Options` hold what several of them share.

Where the code does not keep a promise on all inputs, the exact condition is a theorem and a concrete
input is a lemma beside it. The one exception is the whole counters that the ledger's run theorems assume: they are
sufficient, and only for a single series is the exact condition of a reload stated.

* Outside zero and the largest safe integer the energy tracker's high-water mark does not move
  (`EnergyRuns.UnmarkedCreditsTwice`); the load rejects exactly the buckets that start below zero. A restart that finds no
  covered bucket drops the mark, and a clock that steps back then credits again (`EnergyRuns.ForgettingCreditsTwice`).
* The energy validator accepts more than `record` can produce: four conditions, all of them unchecked, make the difference
  (`EnergyReach.RecordableIff`, `EnergyReach.AcceptedButNotRecordable`).
* The ledger's coercion is not idempotent on an unusable output counter (`LedgerFile.SanitizeIdempotentIff`), an observation that
  is not worth saving is lost by a restart (`LedgerFile.QuietObservationIsLost`), and fractional counters are rounded row by
  row (`LedgerRuns.FractionsPartTheViews`, `LedgerFile.ReloadIsIdentityIff`).
* A CR directly before a CRLF makes the event stream depend on chunk boundaries (`SseSplitter.ChunkInvariantIff`).
* The hello flag of a remote job is set without saving it (`RemoteJobState.FlagLostByRestart`), and a liveness marker inside a
  job's own log decides the poll (`PollOutput.LivenessReadBackIff`).
* A process killed between saving a remote job's end and calling the hook never calls it (`RemoteJobState.HookLostByKill`).
* A second poller of a showcase session makes the first miss text (`ShowcaseState.SecondPollerMisses`).
* A clock that steps back makes the rate limiter grant too much exactly when it comes back within a window of a reading that
  had expired (`RateLimiterState.WindowsBoundedIff`, `RateLimiterState.SteppingBackGrantsTooMany`).
* Bucket counts summed over label sets can decrease exactly when a set has a bound and lacks a larger one of another set
  (`HistogramState.SumsRiseIff`, `HistogramState.DifferentBoundsBreakSums`).

## Model

| member | source | states |
|---|---|---|
| `EnergyBuckets.SplitConserves` | server/energy/FleetEnergyTracker.js:302-319 | The minutes an interval touches, each once and in order, get durations that sum to its length and energies that sum to its whole trapezoid |
| `EnergyBuckets.CuttingIsInvisible` | server/energy/FleetEnergyTracker.js:73-86 | Cutting an interval first at any interior instant, the high-water clip included, and crediting both halves gives the same buckets as crediting it whole |
| `EnergyBuckets.CreditsJoin` | server/energy/FleetEnergyTracker.js:302-345 | Crediting two adjacent parts of one line is crediting them at once |
| `EnergyArithmetic.CutKeepsLine` | server/energy/FleetEnergyTracker.js:78-85 | The sample interpolated at the high-water mark leaves the line unchanged at every later instant |
| `EnergyState.EstimateNodeWatts` | server/energy/FleetEnergyTracker.js:198-212 | No estimate exactly when telemetry is stale or a reading unusable; otherwise between 28.2 W and 240 W, and the lower bound is reached |
| `EnergyTelemetry.EstimateMoves` | server/energy/FleetEnergyTracker.js:209-211 | From any estimate below 240 W one GPU watt more raises it by one watt and one CPU percent more by 0.598 W, until 240 W are reached; an idle node is estimated at 28.2 W |
| `EnergyTelemetry.UsageIsClamped` | server/energy/FleetEnergyTracker.js:209-209 | A CPU reading outside [0, 100] counts as the nearer end |
| `EnergyRules.LastSnapshotCounts` | server/energy/FleetEnergyTracker.js:430-433 | Of several snapshots of a node in a batch the last one counts |
| `EnergyRules.IntervalIff` | server/energy/FleetEnergyTracker.js:435-460 | A reading closes an interval if and only if the node was sampled at most ten seconds before and the clock is past the high-water mark; the interval starts at the sample or the mark, on the straight line between the samples |
| `EnergyRules.TokensCounted` | server/energy/FleetEnergyTracker.js:347-375 | A record counts tokens only in its own minute, and exactly the growth of a counter that it continues: same head and port, not smaller, at most ten seconds later, no step back of the clock and no restart in between; covered exactly when the fleet closes an interval |
| `EnergyRules.NothingCountedAcrossRestart` | server/energy/FleetEnergyTracker.js:768-782 | Whatever the file says, the first token reading after a load only takes the base |
| `EnergyRules.PruneKeepsIff` | server/energy/FleetEnergyTracker.js:387-411 | A bucket survives a pruning if and only if it ends after the instant 31 days ago and fewer than 44,641 newer ones are there; a pruning that drops any marks the state for saving |
| `EnergyRules.FlushSavesRecord` | server/energy/FleetEnergyTracker.js:792-813 | After an accepted record the next flush writes the pruned memory |
| `EnergyRules.IdsInOrder` | server/energy/FleetEnergyTracker.js:30-33 | Node ids keep the order in which they are first named |
| `EnergyTracker.FleetEnergyTracker.Bucket` | server/energy/FleetEnergyTracker.js:289-300 | Returns the bucket of a minute, created empty if missing, and keeps the insertion order, the ordered flag and the latest start consistent |
| `EnergyTracker.FleetEnergyTracker.SplitInterval` | server/energy/FleetEnergyTracker.js:302-319 | The loop over minutes ends and leaves exactly the buckets that crediting the whole line at once defines |
| `EnergyTracker.FleetEnergyTracker.IntegrateNode` | server/energy/FleetEnergyTracker.js:321-332 | Credits one interval to one node of the fleet and nothing else |
| `EnergyTracker.FleetEnergyTracker.IntegrateFleet` | server/energy/FleetEnergyTracker.js:334-345 | Credits one interval to the fleet counters and nothing else |
| `EnergyTracker.FleetEnergyTracker.RecordTokens` | server/energy/FleetEnergyTracker.js:347-375 | Output tokens are added to the minute of the observation unless the counter must be rebased, and a sum beyond the safe integers is dropped |
| `EnergyTracker.FleetEnergyTracker.PruneBuckets` | server/energy/FleetEnergyTracker.js:387-411 | With the ordered flag, the lazy sort and the early exit, exactly the buckets before the cutoff and the oldest beyond 44,641 go, for any insertion order |
| `EnergyTracker.FleetEnergyTracker.Record` | server/energy/FleetEnergyTracker.js:418-500 | A repeated timestamp is refused and changes nothing; otherwise the whole new state is that of one step of the state machine: rollback, integration above the high-water mark, tokens, pruning |
| `EnergyTracker.FleetEnergyTracker.Window` | server/energy/FleetEnergyTracker.js:502-535 | Sums the buckets that start between the aligned cutoff and the instant asked for |
| `EnergyTracker.FleetEnergyTracker.Hourly` | server/energy/FleetEnergyTracker.js:537-554 | Each of 24 slots averages the fleet energy over the fleet coverage of its own hour, or is empty |
| `EnergyTracker.FleetEnergyTracker.Load` | server/energy/FleetEnergyTracker.js:625-766 | Builds from any file, through the stable sort, the first-claim rule, the validator loop and the repair of the high-water mark, the state that the specification names, then prunes it |
| `EnergyTracker.FleetEnergyTracker.Flush` | server/energy/FleetEnergyTracker.js:792-813 | Writes exactly when something changed: the pruned state, buckets in order, the high-water mark rounded up |
| `EnergyInvariant.RecordKeepsInv` | server/energy/FleetEnergyTracker.js:418-500 | One record keeps the invariant that ties buckets, baselines and high-water mark together, on any clock |
| `EnergyInvariant.PruneKeepsInv` | server/energy/FleetEnergyTracker.js:387-411 | Pruning keeps the invariant: while a covered bucket is left, the minute that the high-water mark ends is among them |
| `EnergyInvariant.FleetIntervalIff` | server/energy/FleetEnergyTracker.js:435-478 | A record integrates an interval for the fleet if and only if it integrates one for every node |
| `EnergyFullFleet.FullCoverageMeansEqualEnergy` | server/energy/FleetEnergyTracker.js:447-478 | A bucket whose coverage is all full-fleet has as much fleet energy as its nodes together |
| `EnergyFullFleet.SplitIsAccounted` | server/energy/FleetEnergyTracker.js:435-478 | The energy that the fleet counter lacks is what nodes drew outside full-fleet time, between 28.2 W and 240 W each |
| `EnergyFullFleet.SplittableIff` | server/energy/FleetEnergyTracker.js:435-478 | Whether fleet energy can be made of the nodes' draws in full-fleet time is decided by the sums of the least and the most that each node can have drawn in it |
| `EnergyFullFleet.RecordKeepsMade` | server/energy/FleetEnergyTracker.js:418-500 | After every record fleet energy splits into the nodes' shares, outside full-fleet time never more than all nodes but one were covered, covered tokens fit the counted ones, and no bucket is empty |
| `EnergyTelemetry.SnapshotsRead` | server/energy/FleetEnergyTracker.js:198-212 | Every table of draws within the limits is the estimate of some batch of snapshots |
| `EnergyPersistence.InvariantPassesValidator` | server/energy/FleetEnergyTracker.js:663-715 | A bucket that meets the invariant passes every check of the validator, whatever the tolerance |
| `EnergyPersistence.ValidContentsIff` | server/energy/FleetEnergyTracker.js:663-715 | Without tolerance the validator accepts the contents of a bucket if and only if they meet the invariant of a bucket and no coverage exceeds a minute |
| `EnergyPersistence.LoadEstablishesInv` | server/energy/FleetEnergyTracker.js:625-766 | Loading any file, damaged or forged, ends in a state that meets the invariant (exact tolerance) |
| `EnergyRules.OtherFilesAreIgnored` | server/energy/FleetEnergyTracker.js:628-638 | A file of another version or another fleet is ignored |
| `EnergyRules.LoadsFirstValid` | server/energy/FleetEnergyTracker.js:641-726 | Exactly those buckets are loaded that are the first of their minute in the file and valid; missing covered tokens count as none |
| `EnergyRules.LoadsCounter` | server/energy/FleetEnergyTracker.js:768-782 | A usable token counter of the file is kept as a base that must be replaced; nothing else of the past is resumed |
| `EnergyRules.AcceptedWithinMinute` | server/energy/FleetEnergyTracker.js:663-715 | Whatever the tolerance, an accepted bucket has at most 4 Wh and one minute of coverage per node, and no more for the fleet |
| `EnergyRules.ToleranceIsRelative` | server/energy/FleetEnergyTracker.js:63-71 | The load's tolerance is relative to a bound of at least one and absolute below that |
| `EnergyRules.RestartForgetsUnsaved` | server/energy/FleetEnergyTracker.js:625-790 | A restart brings back at most the saved buckets, unchanged, and no samples |
| `EnergyRules.MarkIsRepaired` | server/energy/FleetEnergyTracker.js:730-766 | The high-water mark of the file is believed if and only if it lies in the newest covered minute behind everything covered of it; otherwise it is set to the end of that minute |
| `EnergyRules.FileIsSorted` | server/energy/FleetEnergyTracker.js:796-810 | A flushed file lists every bucket once, in the order of time |
| `EnergyPersistence.AcceptsFlushed` | server/energy/FleetEnergyTracker.js:646-722 | Of a flushed state the validator accepts exactly the buckets that start at or after zero, for every tolerance |
| `EnergyPersistence.HighWaterAccepted` | server/energy/FleetEnergyTracker.js:727-753 | The flushed high-water mark, rounded up, fits the newest covered minute |
| `EnergyPersistence.FlushThenLoad` | server/energy/FleetEnergyTracker.js:625-813 | What a flush and a load give back: the buckets from zero on, the high-water mark rounded up or dropped when nothing covered is left, and when the loaded state is marked dirty |
| `EnergyRuns.EveryRunIsOk` | server/energy/FleetEnergyTracker.js:418-813 | Every state reachable by records, prunings, flushes and restarts meets the invariant, and so does everything saved |
| `EnergyRuns.ReachableStatesLoad` | server/energy/FleetEnergyTracker.js:625-813 | After any run, on any clock, a flush writes what the load accepts: exactly the buckets from zero on, and the high-water mark if one of them is covered |
| `EnergyRuns.NothingRejected` | server/energy/FleetEnergyTracker.js:625-766 | On a clock that never goes below zero no bucket of any reachable state is rejected |
| `EnergyRuns.NoInstantTwice` | server/energy/FleetEnergyTracker.js:73-86 | Over any run no instant at or after zero is credited twice to a node or to the fleet since a restart last dropped the high-water mark, and no bucket holds more coverage than the mark has passed of it |
| `EnergyRuns.NoInstantTwiceEver` | server/energy/FleetEnergyTracker.js:73-86 | While every restart finds a covered bucket behind a positive high-water mark, no instant at or after zero is ever credited twice, restarts included |
| `EnergyRuns.ForgettingCreditsTwice` | server/energy/FleetEnergyTracker.js:727-753 | The guard is needed: after any restart that finds none, a clock that steps back makes the process credit an interval a second time |
| `EnergyRuns.ForgettingIsReachable` | server/energy/FleetEnergyTracker.js:792-813 | Such a restart can come: a flush 32 days after the last record prunes all buckets and keeps the mark |
| `EnergyRuns.FleetTimeIsJointTime` | server/energy/FleetEnergyTracker.js:435-478 | Over any run an instant at or after zero is credited to the fleet if and only if it is credited to every node |
| `EnergyRuns.UnmarkedCreditsTwice` | server/energy/FleetEnergyTracker.js:485-490 | Below zero and beyond the largest safe integer the high-water mark does not move, so an interval that the clock repeats there is credited twice |
| `EnergyRuns.ReachableBuckets` | server/energy/FleetEnergyTracker.js:321-345 | In every reachable bucket the fleet is covered no longer than any node, its energy is at most its nodes' (equal under full coverage), and each node drew between 28.2 W and 240 W |
| `EnergyRuns.ReachableFleetOfOne` | server/energy/FleetEnergyTracker.js:435-478 | With a single node the fleet's figures are the node's in every reachable bucket from zero on |
| `EnergyReach.RecordableIff` | server/energy/FleetEnergyTracker.js:418-500 | A bucket of a minute from zero on is what some run of records produces if and only if the validator accepts it without tolerance, its fleet energy splits, the nodes were apart outside full-fleet time, its tokens fit each other and it is not empty |
| `EnergyReach.AcceptedButNotRecordable` | server/energy/FleetEnergyTracker.js:663-722 | The validator checks none of the four: it accepts a bucket that breaks each of them, and no run produces any of these |
| `EnergyWindows.WindowCoverage` | server/energy/FleetEnergyTracker.js:502-535 | When the high-water mark is not ahead of now, a window holds at most the time since its cutoff, which is less than the window plus one minute |
| `EnergyWindows.WindowTotalsOk` | server/energy/FleetEnergyTracker.js:502-535 | Over any window, node energies stay within 28.2 W and 240 W of their coverage and fleet energy within the nodes' |
| `EnergyWindows.WindowSums` | server/energy/FleetEnergyTracker.js:502-535 | Each of the six figures of a window is the sum of that figure over the buckets between its cutoff and the instant asked for |
| `EnergyWindows.HoursPartition` | server/energy/FleetEnergyTracker.js:537-549 | The 24 slots partition exactly the buckets of the graph range and add up to its totals |
| `EnergyWindows.HourlyBounds` | server/energy/FleetEnergyTracker.js:551-553 | Every hourly average lies between 28.2 W and 240 W times the number of nodes |
| `EnergyWindows.HourlyAverages` | server/energy/FleetEnergyTracker.js:537-554 | An hour has an average if and only if the fleet was covered in it, and the average times that coverage is the fleet energy of its buckets |
| `LedgerState.AddTokens` | src/shared/tokenFormat.js:18-22 | Sums are exact up to the largest safe integer, equal it beyond, and never shrink a total |
| `LedgerState.CreditKeepsRow` | server/llmtokens/LlmTokenLedger.js:299-311 | A credit keeps cached tokens within prompt tokens and shrinks no figure |
| `LedgerState.DecreaseOnlyReseeds` | server/llmtokens/LlmTokenLedger.js:271-287 | A decrease or an implausible jump of the output counter credits nothing and takes the new baseline; any smaller step is credited in full |
| `LedgerAccounts.ReadingCredits` | server/llmtokens/LlmTokenLedger.js:243-328 | A reading raises, by the credible growth of its counters and up to the ceiling, exactly the lifetime row and the row of its own UTC day of the model it names, or else of the last model named, or of "unknown"; no other row changes |
| `LedgerAccounts.EachModelGetsItsOwn` | server/llmtokens/LlmTokenLedger.js:228-336 | Over runs with flushes and, with whole counters, crashes, every model's completion and cached tokens are the sums of the steps of its own readings, up to the ceiling; prompt tokens lie between theirs and theirs plus the cached ones |
| `LedgerAccounts.PruningLimits` | server/llmtokens/LlmTokenLedger.js:338-363 | A pruning leaves at most 200 series, 100 models of each and 35 days, evicts nothing while there is room, and only what is no newer than all that stays |
| `LedgerTracker.LlmTokenLedger.Observe` | server/llmtokens/LlmTokenLedger.js:230-328 | One observation leaves exactly the series that the specification names, and reports whether it is worth saving |
| `LedgerTracker.LlmTokenLedger.Record` | server/llmtokens/LlmTokenLedger.js:228-336 | A batch is observed in order; only if something changed is the ledger pruned and marked dirty |
| `LedgerTracker.LlmTokenLedger.Prune` | server/llmtokens/LlmTokenLedger.js:338-363 | Keeps the 200 most recently updated series, in each the 100 most recently seen models and the newest 35 days; nothing else changes |
| `LedgerTracker.LlmTokenLedger.Sanitize` | server/llmtokens/LlmTokenLedger.js:143-194 | The loops over a parsed file build exactly its coerced ledger |
| `LedgerTracker.LlmTokenLedger.Flush` | server/llmtokens/LlmTokenLedger.js:205-213 | Writes the whole ledger exactly when it is dirty |
| `LedgerTracker.LlmTokenLedger.Range` | server/llmtokens/LlmTokenLedger.js:388-425 | The rows and totals of a range are the saturated sums over its days, empty rows dropped, cached within prompt |
| `LedgerDays.ObservedKeepsAgreement` | server/llmtokens/LlmTokenLedger.js:298-326 | One observation keeps the daily and the lifetime view of every model in agreement, although both absorb cached tokens on their own |
| `LedgerRuns.DaysMatchLifetime` | server/llmtokens/LlmTokenLedger.js:298-326 | Until a day or a model of the series is evicted: the days of each model sum to its lifetime completion and cached tokens, up to the ceiling, and to at least its lifetime prompt tokens; through crashes too while counters are whole |
| `LedgerRuns.FractionsPartTheViews` | server/llmtokens/LlmTokenLedger.js:150-158 | Three readings with half tokens, on two days, make a series whose reload rounds each row alone, and its two views part |
| `LedgerRuns.EveryRunIsOk` | server/llmtokens/LlmTokenLedger.js:298-326 | In every reachable ledger, in memory and on disk, every row has cached within prompt tokens and nothing beyond the ceiling |
| `LedgerRuns.EveryRunIsWhole` | server/llmtokens/LlmTokenLedger.js:131-213 | While all counters are whole numbers, what was flushed is exactly what a load gives back, at every point of every run |
| `LedgerRuns.CleanMatchesFile` | server/llmtokens/LlmTokenLedger.js:205-336 | While all counters are whole numbers, a ledger that is not dirty and what a load makes of its file agree on series, output counters, models and days, at every point of every run |
| `LedgerRuns.RestartIsInvisibleIff` | server/llmtokens/LlmTokenLedger.js:243-305 | At every such point all later credits of a series are those of a restarted ledger if and only if prompt and cached baselines and the fallback model are those of the file |
| `LedgerRuns.RestartAfterFlushIsInvisible` | server/llmtokens/LlmTokenLedger.js:205-213 | Right after a flush that wrote something they always are |
| `LedgerRuns.OutputTelescopes` | server/llmtokens/LlmTokenLedger.js:243-305 | While a series' output counter is steady and neither the series nor a model of it is evicted, completion tokens over all its models equal the last counter minus the first, however many days are dropped, model ids alternate and memory falls back to the last flush |
| `LedgerFile.ReloadIsIdentityIff` | server/llmtokens/LlmTokenLedger.js:142-194 | A series survives flush and load unchanged if and only if its figures are whole, cached tokens within prompt tokens, no counter negative and the output counter known |
| `LedgerFile.SanitizeIdempotentIff` | server/llmtokens/LlmTokenLedger.js:165-169 | Coercion is idempotent if and only if the output counter of the file is null or a non-negative number |
| `LedgerFile.NullCounterBecomesZero` | server/llmtokens/LlmTokenLedger.js:71-74 | An unusable output counter becomes unknown on the first load and zero on the second, and the next observation is then credited in full |
| `LedgerFile.SanitizeGivesKeptRows` | server/llmtokens/LlmTokenLedger.js:143-194 | Any file is coerced to whole figures with cached tokens within prompt tokens and no negative counter |
| `LedgerFile.CoercedRow` | server/llmtokens/LlmTokenLedger.js:149-159 | Figures of the file are read as the nearest count, halves upwards, missing and negative ones as zero, cached tokens as at most the prompt tokens |
| `LedgerFile.CoercedSeries` | server/llmtokens/LlmTokenLedger.js:143-192 | All models and days of the file stay, missing times count as zero |
| `LedgerFile.LedgerReloads` | server/llmtokens/LlmTokenLedger.js:131-213 | A ledger of whole counters comes back from its file as it was |
| `LedgerFile.BaselinesDecideCredits` | server/llmtokens/LlmTokenLedger.js:243-305 | Two versions of a series credit every list of later observations alike if and only if their baselines and fallback models agree |
| `LedgerFile.QuietObservation` | server/llmtokens/LlmTokenLedger.js:256-298 | An observation not worth saving leaves the output baseline and all rows alone |
| `LedgerFile.QuietObservationIsLost` | server/llmtokens/LlmTokenLedger.js:205-213 | Such an observation is not written, so a restart after a flush can credit cached tokens that the running ledger would not |
| `LedgerRanges.PruningIsInvisible` | server/llmtokens/LlmTokenLedger.js:354-363 | On a clock that does not step back and with no series evicted, ranges of up to 30 days are answered exactly as by a process that never drops a day, whatever flushes and, with whole counters, crashes there were |
| `LedgerRanges.RangesGrow` | server/llmtokens/LlmTokenLedger.js:388-425 | A longer range answers every model, and the totals, with at least the figures of a shorter one |
| `LedgerRanges.RangeShows` | server/llmtokens/LlmTokenLedger.js:388-412 | A range shows a model if and only if one of its last days has prompt or completion tokens of it, with the sums over those days |
| `LedgerRanges.WholeRangeIsLifetime` | server/llmtokens/LlmTokenLedger.js:388-412 | A range over all days of a series answers with its lifetime completion and cached tokens |
| `LedgerRanges.TotalsAdd` | server/llmtokens/LlmTokenLedger.js:417-424 | The totals add up the rows of the answer, up to the ceiling |
| `BenchHistory.PushKeepsSpark` | server/collectors/DecodeBench.js:924-932 | A finished job goes to the head of its Spark's history; every job that is missing from it was cleared or has ten that finished later |
| `BenchHistory.ClearKeepsSpark` | server/collectors/DecodeBench.js:500-527 | Clearing, with or without a port, keeps the same account |
| `BenchHistory.ClearKeepsOthers` | server/collectors/DecodeBench.js:500-527 | Clearing keeps, in order, exactly the jobs of other Sparks, of other ports if one is named, and in memory the running ones |
| `BenchHistory.RestoredIs` | server/collectors/DecodeBench.js:529-551 | Of any history file the first ten jobs of a Spark are loaded, running ones as cancelled |
| `BenchHistory.LoadedSame` | server/collectors/DecodeBench.js:529-551 | Loading a history that the manager saved changes nothing |
| `BenchSafety.RecoveryCrashSafe` | server/collectors/DecodeBench.js:557-595 | A crash after any number of the file writes of a recovery leaves files that the next restart can work with |
| `BenchSafety.RestartAnswers` | server/collectors/DecodeBench.js:450-459 | On such files a restarted manager answers for every started job, never with a running status, unless it was cleared or ten jobs of its Spark finished later |
| `BenchRuns.CrashKeepsDisk` | server/collectors/DecodeBench.js:783-932 | A crash after any number of an operation's writes loses no job whose start had returned |
| `BenchRuns.ShutdownKeepsDisk` | server/collectors/DecodeBench.js:640-663 | The same when the shutdown call is cut short anywhere |
| `BenchRuns.CrashSafe` | server/collectors/DecodeBench.js:529-932 | Crash safety of whole lives of the manager: operations, crashes between any two writes, restarts, crashes during restarts |
| `BenchRuns.HistoriesStayShort` | server/collectors/DecodeBench.js:924-932 | Reachable histories, on disk and in memory, hold at most ten jobs of a Spark, with distinct ids, none running |
| `BenchAnswers.AnswersAreVerdicts` | server/collectors/DecodeBench.js:450-932 | Over whole lives with crashes, a manager that is up and one restarted from the files answer for a started job with its own Spark and port and, from its history write on, exactly the status it was finished with; a job cut short before that answers failed |
| `BenchAnswers.VerdictsStay` | server/collectors/DecodeBench.js:910-932 | What was recorded of a started job, its Spark, its port and its final status, never changes later |
| `BenchAnswers.UpAnswers` | server/collectors/DecodeBench.js:450-459 | A manager that is up answers for every started job, unless it was cleared or ten jobs of its Spark finished later |
| `BenchAnswers.ClearedAreNotAnswered` | server/collectors/DecodeBench.js:500-527 | After a clear no ended job of that Spark and port is answered for, and every other job is as before |
| `BenchAnswers.RestartHoldsInterrupted` | server/collectors/DecodeBench.js:557-595 | A restarted manager holds, as failed, exactly the jobs of the checkpoint that the saved history does not list |
| `BenchManager.DecodeBenchManager.constructor` | server/collectors/DecodeBench.js:433-444 | Made from two files, the manager holds what a recovery defines and has made exactly its writes in its order |
| `BenchManager.DecodeBenchManager.PushHistory` | server/collectors/DecodeBench.js:924-932 | Moves the job to the head, cuts the list to ten, and saves once |
| `BenchManager.DecodeBenchManager.RecoverInterruptedActive` | server/collectors/DecodeBench.js:557-595 | Promotes the leftovers that history does not know, one save each, then empties the checkpoint and saves again if anything changed |
| `BenchManager.DecodeBenchManager.CheckpointActive` | server/collectors/DecodeBench.js:626-633 | Writes the running jobs, in order |
| `BenchManager.DecodeBenchManager.LoadHistory` | server/collectors/DecodeBench.js:529-551 | Loads at most ten jobs of each Spark, none as running |
| `BenchManager.DecodeBenchManager.Start` | server/collectors/DecodeBench.js:720-792 | Refuses a Spark that has a running job; otherwise the job runs and is checkpointed before the call returns |
| `BenchManager.DecodeBenchManager.Finish` | server/collectors/DecodeBench.js:910-921 | The final status, then the saved history, then the checkpoint without the job, in that order |
| `BenchManager.DecodeBenchManager.ClearHistory` | server/collectors/DecodeBench.js:500-527 | Drops the finished jobs of a Spark, or of one port of it, from memory and history, and saves |
| `BenchManager.DecodeBenchManager.InterruptAll` | server/collectors/DecodeBench.js:640-663 | Every running job is pushed as failed, one save each, then the checkpoint is emptied |
| `BenchManager.UpMayShutDown` | server/collectors/DecodeBench.js:640-663 | In every reachable state no running job is in a history and no two share a Spark, which is all that the shutdown call relies on |
| `BenchManager.DecodeBenchManager.GetJob` | server/collectors/DecodeBench.js:450-459 | Answers from memory, else from some history, and answers nothing only if no job has the id |
| `SseSplitter.ChunkInvariantIff` | server/collectors/LlmStreaming.js:651-672 | Every way of cutting a text into chunks yields the same events and leftover as feeding it whole if and only if the text has no CR directly before a CRLF |
| `SseSplitter.SplitIffParse` | server/collectors/LlmStreaming.js:657-661 | The cut at blank lines is the only one that loses nothing, ends every event as early as possible and leaves no blank line behind |
| `SseSplitter.NormalizedTwice` | server/collectors/LlmStreaming.js:654-655 | Normalising the buffer again with the next chunk is normalising the whole text at once |
| `SseSplitter.UnterminatedIsDroppedIff` | server/collectors/LlmStreaming.js:649-661 | Two streams, cut in any way, hand on the same events if and only if their texts differ at most behind the last blank line |
| `SseSplitter.ReadStream` | server/collectors/LlmStreaming.js:649-661 | The two loops over chunks and separators yield exactly the events and the buffer of the specification |
| `PollOutput.ParsePollOutput` | server/jobs/remoteJobs.js:126-141 | A live process runs; a dead one is completed, failed or interrupted by its exit code alone |
| `PollOutput.LivenessReadBackIff` | server/jobs/remoteJobs.js:110-141 | Liveness printed by the poll command is read back correctly if and only if the log shows no liveness marker that says otherwise; the exit code is the first one in the log |
| `PollOutput.ExitCodeReadBack` | server/jobs/remoteJobs.js:98-141 | Any exit code that the script prints is read back: a dead job completed with zero, failed with any other |
| `PollOutput.MarkerInLogHidesTheEnd` | server/jobs/remoteJobs.js:127-129 | A log that prints the marker keeps an ended job running in the eyes of the poll |
| `RemoteJobState.NextKeepsInv` | server/jobs/remoteJobs.js:211-415 | Every step keeps: the file knows every running job and is out of date in hello flags at most, and the hook was called once per terminal job |
| `RemoteJobState.TerminalIsFinal` | server/jobs/remoteJobs.js:280-401 | Under every interleaving, restarts included, a terminal job's status, exit code and end never change |
| `RemoteJobState.HookFiresOnce` | server/jobs/remoteJobs.js:303-319 | The hook is called at most once for any job, never for a running one, and exactly once for a terminal one, unless the process was killed between the save of its end and the call: then, and only then, never |
| `RemoteJobState.HookLostByKill` | server/jobs/remoteJobs.js:317-318 | A run of three steps from an empty manager, a start, a poll and a kill behind its save, leaves a job that is terminal in the file and whose hook was never called |
| `RemoteJobState.CompletedOnlyByHello` | server/jobs/remoteJobs.js:298-310 | From the moment its hello flag is set, and unless a restart comes before the file has the flag, a job becomes completed only by a connection of its node's agent |
| `RemoteJobState.PollCompletesIff` | server/jobs/remoteJobs.js:299-306 | A poll that finds exit code zero completes a running job if and only if no hello is awaited |
| `RemoteJobState.RestartKeepsWaitingIff` | server/jobs/remoteJobs.js:198-225 | A restart keeps waiting for the hello if and only if the flag had reached the file |
| `RemoteJobState.FlagLostByRestart` | server/jobs/remoteJobs.js:334-337 | Setting the flag does not save it: a restart right after the start forgets it, and the next poll completes the job |
| `RemoteJobState.RestartLosesNothingRunning` | server/jobs/remoteJobs.js:198-225 | A restart forgets no running job and brings no terminal one back to life |
| `RemoteJobCauses.EndHasCause` | server/jobs/remoteJobs.js:280-401 | In any run a terminal job got its status, exit code and end from one step that found it running: cancelled only by a cancel, completed only by its agent or by a successful poll with no hello awaited, interrupted only by a poll, failed only by a failing poll or more than sixty seconds after its start without a hello |
| `RemoteJobCauses.StartRuns` | server/jobs/remoteJobs.js:237-263 | A started job runs, from now on, without exit code or end |
| `RemoteJobCauses.HelloCompletes` | server/jobs/remoteJobs.js:344-356 | The agent's connection completes, with exit code zero and its flag down, exactly a running job of its own node that waits for it |
| `RemoteJobCauses.TimeoutFails` | server/jobs/remoteJobs.js:362-373 | A missing hello fails exactly a running job that waits for it and started more than sixty seconds ago |
| `RemoteJobCauses.CancelEnds` | server/jobs/remoteJobs.js:394-401 | A cancel makes exactly a job that still runs a cancelled one |
| `RemoteJobCauses.PollEnds` | server/jobs/remoteJobs.js:302-319 | A poll gives a running job the status and exit code that the node reports, unless that is a success and a hello is awaited |
| `RemoteJobCauses.WaitingPollSavesFlag` | server/jobs/remoteJobs.js:305-311 | A poll that finds success while the hello is awaited saves the job with its flag, so that a restart waits on |
| `RemoteJobCauses.FlagIsSet` | server/jobs/remoteJobs.js:334-337 | Setting the flag changes nothing but the flag, and not the file |
| `RemoteJobCauses.WaitsBegin` | server/jobs/remoteJobs.js:272-392 | Only a running job is polled and only a known one cancelled, and waiting for the node changes no job and no file |
| `RemoteJobCauses.SaveKeepsNewest` | server/jobs/remoteJobs.js:211-225 | A terminal job leaves the file only when thirty that are no older stay |
| `RemoteJobManagers.SelectPersisted` | server/jobs/remoteJobs.js:211-225 | Every running job is persisted, and the newest thirty terminal ones |
| `RemoteJobManagers.StartThenExpect` | server/index.js:1130-1134 | Starting a job and setting its flag right after is one step of the state machine |
| `RemoteJobManagers.ReachesKeepsInv` | server/jobs/remoteJobs.js:211-415 | Whatever steps a method takes, all that every step keeps holds at its end |
| `RemoteJobManagers.RemoteJobManager.StartRemoteJob` | server/jobs/remoteJobs.js:237-263 | After the launch command returned: the job runs, is known and saved |
| `RemoteJobManagers.RemoteJobManager.BeginPoll` | server/jobs/remoteJobs.js:272-287 | At most one poll of a job asks its node at a time; an overdue hello is enforced first |
| `RemoteJobManagers.RemoteJobManager.FinishPoll` | server/jobs/remoteJobs.js:289-325 | The part of a poll behind its wait is one step of the state machine |
| `RemoteJobManagers.RemoteJobManager.FailPoll` | server/jobs/remoteJobs.js:293-302 | An unreachable node leaves the job as it was |
| `RemoteJobManagers.RemoteJobManager.SetExpectAgentConnect` | server/jobs/remoteJobs.js:334-337 | Sets the hello flag of a known job in memory, and saves nothing |
| `RemoteJobManagers.RemoteJobManager.FinishCancel` | server/jobs/remoteJobs.js:394-401 | A cancel ends the job only if it still runs after the wait |
| `RemoteJobManagers.RemoteJobManager.AgentConnected` | server/jobs/remoteJobs.js:344-356 | Completes exactly the jobs of that node that wait for the hello |
| `RemoteJobManagers.RemoteJobManager.FailStaleHelloJobs` | server/jobs/remoteJobs.js:362-373 | Fails exactly the jobs whose hello is more than sixty seconds overdue |
| `ShowcaseState.ClientHoldsServerTexts` | server/collectors/ShowcaseManager.js:504-552 | Over any run of deltas, a stop, the final fill and polls, a single client that appends or replaces holds exactly the server's two texts after every poll, and they never exceed the cap |
| `ShowcaseState.EndsAsCutToCap` | server/collectors/ShowcaseManager.js:813-834 | However the deltas came, were cut or stopped reaching the stream: at its end the stream is what the request collected, cut to the cap with the answer giving way first; before that it is the beginning of it, and all of it unless the stop or the cap got in the way |
| `ShowcaseState.PollIsRightIff` | server/collectors/ShowcaseManager.js:511-552 | A poll leaves the client right if and only if it was full or reset, or both texts extend what the client held |
| `ShowcaseState.SecondPollerMisses` | server/collectors/ShowcaseManager.js:515-521 | With two pollers of one session a client misses what the other was sent |
| `ShowcaseState.AppendKeepsCap` | server/collectors/ShowcaseManager.js:653-681 | Appending only extends both texts and keeps them within the cap |
| `ShowcaseState.FillMeetsCap` | server/collectors/ShowcaseManager.js:820-832 | The final fill meets the cap whatever came before, and uses it up if it had to cut |
| `ShowcaseState.FlagIsHonestIff` | server/collectors/ShowcaseManager.js:653-681 | The capped flag tells whether anything was cut if and only if the reasoning does not fill the room exactly while an answer comes with it |
| `ShowcaseState.AppendTakesReasoningFirst` | server/collectors/ShowcaseManager.js:653-680 | The room of a stream goes to the reasoning first and what it leaves to the answer; a capped stream takes nothing, a full one is only marked |
| `ShowcaseState.FillTakesLonger` | server/collectors/ShowcaseManager.js:813-832 | The fill takes the longer of both texts each and cuts them to the cap, the answer first; only a cut sets the mark |
| `ShowcaseState.UnmarkedIsWhole` | server/collectors/ShowcaseManager.js:653-835 | Over whole runs a stream that is not marked at the end of its request is the whole response |
| `ShowcaseState.PollAnswers` | server/collectors/ShowcaseManager.js:511-549 | A full snapshot gets both texts, a stream that became shorter than what was sent gets both and the order to start over, any other poll what lies behind the sent lengths |
| `ShowcaseState.ContentCap` | server/collectors/ShowcaseManager.js:56-58 | The cap lies between 16 and 200,000 characters, and is sixteen per token as long as that fits |
| `ShowcaseSessions.ShowcaseSession.AppendParts` | server/collectors/ShowcaseManager.js:653-681 | Reasoning first, then the answer, each as far as there is room, into the one stream named |
| `ShowcaseSessions.ShowcaseSession.FinalFill` | server/collectors/ShowcaseManager.js:813-834 | Longer final texts replace live ones, then the answer is cut first to meet the cap |
| `ShowcaseSessions.ShowcaseSession.GetSession` | server/collectors/ShowcaseManager.js:511-552 | One delta per stream relative to what was last sent, and the sent lengths brought up to date |
| `RateLimiterState.WindowsBoundedIff` | server/validate.js:220-248 | For a list of clock readings: every window of every key holds at most the allowed grants, whatever is requested under whatever limits, if and only if no reading comes back within a window of one that had expired in between |
| `RateLimiterState.ByHistoryIff` | server/validate.js:229-246 | For a list of clock readings: every request of every run is decided as by the full, never pruned history if and only if nothing that has expired is ever live again |
| `RateLimiterState.RefusedIff` | server/validate.js:229-246 | As long as nothing revives, a request is refused if and only if its own window is full in the unpruned history, or it needs a new key and the table is full |
| `RateLimiterState.RunRefines` | server/validate.js:229-246 | At every point of such a run the pruned table shows of each key exactly what is live of its full history |
| `RateLimiterState.WindowsStayBounded` | server/validate.js:220-248 | On a clock that does not step back every window holds at most the allowed grants of a key, every request is decided as by the full history, and the table holds at most the allowed keys |
| `RateLimiterState.PeekGuaranteesConsume` | server/validate.js:226-246 | A peek that says yes guarantees the next consume of the key, whatever the clock does in between |
| `RateLimiterState.SteppingBackGrantsTooMany` | server/validate.js:230-236 | An instance: when the clock steps back from 100 to 1, a window of ten holds two grants of a key that is allowed one |
| `RateLimiters.RateLimiter.RateLimit` | server/validate.js:229-246 | Prunes every key, then grants or refuses, and records only a granted consume |
| `RateLimiters.ConsumeBenchStartQuota` | server/index.js:240-259 | The quota is taken from all three limiters or from none, at whatever times the clock is read |
| `HistogramState.QuantileInItsBucket` | server/collectors/LlmProbe.js:1641-1656 | Null if and only if the total is unusable, no bucket reaches the target or the infinite one holds it; otherwise between the bounds of the bucket that holds the target |
| `HistogramState.QuantileInterpolates` | server/collectors/LlmProbe.js:1641-1656 | In the first bucket that reaches the target the value lies on the straight line between the bucket's lower bound and count and its upper ones |
| `HistogramState.QuantileMonotone` | server/collectors/LlmProbe.js:1641-1656 | A larger quantile gives a larger value, and one at all only if the smaller does |
| `HistogramState.HistogramQuantile` | server/collectors/LlmProbe.js:1641-1656 | The walk that remembers the previous bound and count computes the specified quantile |
| `HistogramState.SumsRiseIff` | server/collectors/LlmProbe.js:1608-1620 | For the bounds of some label sets: the sums never decrease, whatever the counts, if and only if every set that has a bound also has every larger bound that any set has |
| `HistogramState.SumsStayCumulative` | server/collectors/LlmProbe.js:1608-1620 | Between two bounds the sums of cumulative label sets rise if every set that has the smaller has the larger |
| `HistogramState.ParsedIsCumulative` | server/collectors/LlmProbe.js:1608-1627 | The parsed buckets of label sets whose bounds meet that condition meet everything that the quantile asks for |
| `HistogramState.DifferentBoundsBreakSums` | server/collectors/LlmProbe.js:1608-1620 | An instance: two label sets with different bounds sum to 5 at one bound and to 1 at the next |
| `HistogramState.ParseHistogram` | server/collectors/LlmProbe.js:1608-1627 | One bucket per bound with the sum of its lines, in order of the bounds; a contradiction between the infinite bucket and the count refuses the histogram |
| `HistogramState.RefusedByDistance` | server/collectors/LlmProbe.js:1620-1624 | A histogram is refused if and only if its infinite bucket is positive and more than a millionth away from the count series |

## Left out

- Floating-point rounding: milliseconds, watts, counters and bounds are exact integers or reals. The load's relative tolerance of 1e-9 is a parameter of the energy validator, and every acceptance theorem holds for each non-negative value of it.
- EnergyPersistence.LoadEstablishesInv: is stated for tolerance zero, because a positive tolerance admits buckets slightly outside the exact bounds, and for files whose minutes end within the safe integers, where the repaired high-water mark is not capped below the end of its minute.
- EnergyRuns.EveryRunIsOk: assumes record timestamps of at most the largest safe integer; beyond it the high-water mark is not advanced, as EnergyRuns.UnmarkedCreditsTwice shows.
- EnergyReach.RecordableIff: speaks of one bucket of a minute that ends within the safe integers, on a clock that may step back, and not of which buckets, with which high-water mark, one run can hold together.
- EnergyRuns.NoInstantTwice: speaks of the intervals that the surviving data contains; intervals that a crash rolled back are forgotten with it. Those before a restart that drops the mark are the subject of EnergyRuns.NoInstantTwiceEver.
- Reading the single token counter of a batch of snapshots, the recent-sample average and the display figures of the energy snapshot, and membership changes are not modelled; the counter is a parameter of a record.
- Files are parsed records: JSON syntax, values of the wrong type other than missing or null numbers, temporary files, fsync and failing writes are left out; a file write is atomic and succeeds.
- Ledger day keys are day numbers, which order like the date strings of the years 0000 to 9999. Timestamps of observations are whole milliseconds.
- LedgerTracker.LlmTokenLedger.Prune: which of several equally old series or models goes first is left open, where the source takes the order of insertion; sorting and slicing is modelled as taking the oldest again and again.
- LedgerRuns.DaysMatchLifetime: assumes whole counters when there are crashes. That is sufficient, not necessary: readings of 0.3, 1.3 and 2.3 credit whole amounts too.
- LedgerRuns.OutputTelescopes: output counters are at most the largest safe integer, so that no total saturates.
- LedgerRuns.RestartIsInvisibleIff: compares what a series credits, not which series or models a later pruning evicts, for which times of the last observation count as well.
- The warning streak for missing model ids, the sort order of the ledger's answer and its live read of probes are presentation or I/O.
- BenchManager.DecodeBenchManager.Finish: stands for the whole end of a benchmark run; warm-up, waves, results, progress texts and cancellation by signal only decide which final status it is given. Starting a benchmark after the shutdown call is left out, since that call is the last of a process.
- BenchManager.DecodeBenchManager.Start: the checks of concurrency levels, token limit and port come before any change and are left out; an accepted request stands for one that passed them.
- Job records carry id, Spark, port and status only; fresh job ids are assumed not to repeat earlier ones. The manager of prefill benchmarks is the same program and is not modelled twice.
- A JavaScript Map of jobs is a sequence in insertion order where the order is visible, and a Dafny map where it is not.
- SseSplitter.ReadStream: events are handed on as raw text; reading their data lines, JSON and token deltas is left out, and so are lone CR line ends, which the code does not treat as line ends.
- Launch, poll and cancel shell commands, the one-job-per-node check of the HTTP route, log tails and error texts are left out; the launch of a job is the moment after its command returned.
- ShowcaseState.ClientHoldsServerTexts: every answer of a poll reaches the client, in order, and no delta comes after the request has ended.
- Live rates, statuses and history of showcase sessions are left out; a cancelled session is one whose deltas no longer reach the stream.
- HistogramState.QuantileInItsBucket: for quantiles that are not negative; the metrics text is given as its bucket lines.
- HTTP routes, SSH, agents, SQLite traces, encryption, the React client, Wake-on-LAN and the other collectors are I/O, libraries or easy members.
