# Verified model of Pingback

Pingback is an uptime monitor. A scheduler checks URLs and appends raw rows; a compactor keeps 1-minute,
5-minute and 1-hour rollup tables beside them; dashboards read the rollups; retention deletes from all four
tables. Around that sit a rate limiter, a daily digest, a billing webhook, public page slugs and cookie
sessions. This project models those parts in Dafny and proves what holds of them over all inputs and all
runs. `dafny verify dfyconfig.toml` checks everything.

## How it is built

Time is a count of microseconds on a clock that does not go back. Tables are maps and sequences. Each
operation has a specification as a function on states; the parts of the source that update things in place
are classes whose methods are proved to reach exactly the state their specification gives, and the laws are
lemmas about the specifications and about runs of events. One request, webhook or tick step is atomic.

- `Tables`: options, selections, sums over sets of rows.
- `BucketArithmetic`, `Buckets`: bucket edges, tiers, the window `compact_recent` picks.
- `Aggregate`: percentiles and the summary of a set of rows.
- `Plans`, `History`: the database, its operations and the events of a run.
- `Lockstep`, `Memo`: rollups stay in step with raw; the memo never matters.
- `Backfills`: what a backfill leaves.
- `Readers`, `Coverage`, `CoverageRuns`, `Telescope`, `LatencyStats`, `Percentiles`, `NullLatencies`,
  `WindowReads`: what rows and reads of rollups report.
- `Retention`, `Cadence`, `CadenceGaps`, `CadenceExtremes`: deletion, and the rhythm of checks.
- `Lifecycle`: users and monitors, and what their requests mean for deletion.
- `Store`: the database as a class.
- `IsoOrder`: why comparing stored timestamps as text is sound.
- `RateLimit`; `Digest`, `DigestRuns`, `DigestRules`; `Billing`, `Subscriptions`; `Slugs`, `SlugAllocation`,
  `SlugTable`, `SlugChoices`; `Sessions`, `AccountLinks`: the other machines, each followed by what it does for
  a user.

## What the proofs show about the code

Where the code and its comments part, the model follows the code:

- Compaction fires at least 60 s apart. When two consecutive calls fall in different 1-minute buckets, the checks
  of the first are rolled up exactly if the buckets are neighbours (`LateCallLosesBucketIff`). Rollup reads
  then report less than raw, never more.
- A backfill whose end lies in the future leaves rows that the next check makes stale (`SaveStaysFreshIff`).
- `int()` truncates toward zero, so `floor_to_bucket` rounds up for some instants before the epoch
  (`FloorsDownIff`).
- The average through rollups weighs each bucket by all its checks, so checks without a latency bias it. It is
  right, and stays right whichever latency is changed, exactly when every bucket with a latency holds the same
  share of the timed checks as of all checks (`AverageAlwaysRightIff`).
- The jitter interval is closed at the top, against its comment (`OffsetBounds`). Ticks sleep ten seconds after
  their checks and start at most a tick gap apart; the longest time between two checks is then the last tick that
  can still be too early, one tick gap and the duration of a check (`LongestGapIsReached`, `ShownGapsAreWithin`),
  and the time between checks exceeds 1.1 intervals exactly when that sum does (`GapExceedsIff`). A restart that
  drops a check in flight adds a tick gap.
- The digest is at most once per day as long as no process that lost a mark comes back within the same window
  (`AtMostOneDigestPerDay`, `LostMarkSendsTwiceIff`). It is not at least once: passes 15 minutes apart can step
  over the 14-minute window, on every day if they keep to one minute in fifteen (`GridMissesIff`).
- A webhook retried after a crash in its handler converges; only the welcome email can get lost, between its
  stamp and its send (`RetryAfterAnyCommit`).
- `$` in the slug pattern accepts one final newline; the settings form strips it first. A seed cut right after
  a hyphen makes suffixed candidates invalid, and the last-resort slug is not checked for being taken, in which
  case the UNIQUE index rejects the update: six names that look like the slugs of a seventh user are enough to
  stop the first backfill (`CrowdedBackfillFails`).
- No user ever has two sessions: verification is the only place that adds one without deleting the others, and
  its token is gone by the time a first session exists.

## Model

| member | source | states |
|---|---|---|
| Buckets.FloorAligned | pingback/db/rollups.py:37-45 | the floor of an instant is a bucket edge, and from the epoch on the instant lies in that bucket |
| Buckets.FloorUnique | pingback/db/rollups.py:37-45 | buckets partition time: an instant lies in exactly one, the one `floor_to_bucket` names |
| Buckets.FloorFixed | pingback/db/rollups.py:147-148 | flooring a bucket edge changes nothing, so an already floored `window_start` is kept |
| Buckets.FloorMonotone | pingback/db/rollups.py:37-45 | a later instant never has an earlier bucket |
| Buckets.FloorsDownIff | pingback/db/rollups.py:43-44 | the truncating `int()` floors correctly exactly outside the fractions of a second that end at a bucket edge before the epoch |
| Buckets.FloorsNest | pingback/db/rollups.py:30-45 | 1m, 5m and 1h buckets nest: flooring to a fine and then to a coarse tier is flooring to the coarse one |
| Buckets.FloorVersusCutoff | pingback/db/rollups.py:317 | a row passes `window_start >= cutoff` exactly when its checks are at or after the first bucket edge at or after the cutoff |
| Buckets.EndedBefore | pingback/db/rollups.py:204-211 | a bucket has ended at `now` exactly when its checks lie before the floor of `now` |
| Buckets.LastWindowIsNewestElapsed | pingback/db/rollups.py:206-208 | the bucket `compact_recent` picks is the newest one that has ended |
| Buckets.GuardFiresIff | pingback/db/rollups.py:207-209 | the "not fully elapsed" guard never fires, except in the last second of the first bucket after the epoch |
| Buckets.NoBucketSkippedIff | pingback/db/rollups.py:201-225 | calls at a and b leave no ended bucket between them unvisited exactly when their floors are at most one bucket apart |
| Buckets.NoBucketSkippedAtEveryPhaseIff | pingback/db/rollups.py:201-225 | a gap between calls is safe at every phase exactly when it is at most one bucket |
| Buckets.TierIsFinestAffordable | pingback/db/rollups.py:48-62 | raw exactly below 60 whole minutes, 1m exactly up to a day of minutes, 5m exactly up to a week of five minutes, else 1h; a rollup window holds at least 60 buckets |
| Aggregate.SortMultiset | pingback/db/rollups.py:100 | the sort keeps every latency as often as it occurs |
| Aggregate.SortedIsUnique | pingback/db/rollups.py:100 | a sorted list is determined by its values |
| Aggregate.PercentileIsNearestRank | pingback/db/rollups.py:66-75 | for 1..100 the clamps never act and the result is the least element with at least pct percent of the list at or below it; the length-1 shortcut agrees |
| Aggregate.PercentilesOrdered | pingback/db/rollups.py:66-75 | min <= percentile p <= percentile q <= max for p <= q |
| Aggregate.AggregateRows | pingback/db/rollups.py:78-110 | the one-pass loop computes the summary of the rows: counts, mean and percentiles, or None when there are none |
| Aggregate.SummaryCounts | pingback/db/rollups.py:83-106 | check_count is the number of rows and ok_count + fail_count, and ok_count the number of rows with status up |
| Aggregate.SummaryBounds | pingback/db/rollups.py:95-109 | percentiles are NULL together, and otherwise are latencies of the rows with min <= p50 <= p95 <= p99 <= max |
| Aggregate.SummaryPermutation | pingback/db/rollups.py:157-164 | the record does not depend on the order of the rows |
| Percentiles.SummaryPercentiles | pingback/db/rollups.py:65-110 | p50, p95 and p99 are each the least latency of the rows that at least 50, 95 and 99 percent of the timed rows do not exceed; NULL exactly when no row has a latency |
| Percentiles.SummaryAverage | pingback/db/rollups.py:101-106 | the average is the sum of the latencies that are there over their number |
| Percentiles.StoredPercentiles | pingback/db/rollups.py:148-186 | every stored row of a valid database holds these ranks of the raw checks now in its bucket |
| Lockstep.InWindowIff | pingback/db/rollups.py:113-126 | the monitors compacted are the live ones with a check in the bucket; orphan rows are skipped |
| Lockstep.CompactWindowRows | pingback/db/rollups.py:129-186 | one compaction leaves a fresh summary for each such monitor and every other row as it was |
| Lockstep.CompactWindowValid | pingback/db/rollups.py:129-186 | compacting a bucket that has ended keeps every rollup row in step with raw |
| Lockstep.CompactTiersValid | pingback/db/rollups.py:201-225 | so does `compact_recent` |
| Lockstep.BackfillValid | pingback/db/rollups.py:228-248 | so does a backfill that ends no later than the clock |
| Lockstep.PurgeValid | pingback/db/monitors.py:292-328 | so does a retention purge, which deletes whole buckets of rollups and single raw rows at the same cutoff |
| Lockstep.ArchiveValid | pingback/db/monitors.py:215-270 | so does archiving abandoned accounts |
| Lockstep.DropMonitorsValid | pingback/db/monitors.py:111-115 | so does deleting monitors with the cascades |
| Lockstep.SaveValid | pingback/db/monitors.py:117-141 | so does inserting a check at the clock |
| Lockstep.StepValid | pingback/db/rollups.py:129-248 | every step keeps the invariant |
| Lockstep.RunValid | pingback/db/rollups.py:129-248 | over every run, each 1m/5m/1h row equals the summary of exactly the raw rows now in its bucket, and belongs to a bucket that has ended |
| Lockstep.SaveStaysFreshIff | pingback/db/monitors.py:117-141 | an insert leaves the rollups in step exactly when no row exists for the bucket of the clock: why a backfill must not reach past it |
| Backfills.BackfillFills | pingback/db/rollups.py:228-248 | after a backfill every bucket of the range with a check of a live monitor has the summary as its row, and every other row is as before |
| Backfills.BackfillCovers | pingback/db/rollups.py:228-248 | no check of a live monitor in the range is missing from the tier afterwards |
| Backfills.TotalIsWanted | pingback/db/rollups.py:243-248 | the total returned is the number of those rows |
| Memo.CompactWindowCompletes | pingback/db/rollups.py:129-186 | a compacted bucket has a row for every live monitor with checks in it |
| Memo.RecomputeIsIdentity | pingback/db/rollups.py:134-139 | recompacting such a bucket is the identity |
| Memo.PurgeKeepsNewest | pingback/db/monitors.py:292-328 | a purge never makes the newest ended bucket incomplete |
| Memo.TierRefines | pingback/db/rollups.py:206-224 | one tier: skipping on a memo hit equals recomputing |
| Memo.StepRefines | pingback/db/rollups.py:192-225 | one step of the memoising process equals one step of the recomputing one |
| Memo.MemoRefinesRecomputing | pingback/db/rollups.py:192-225 | over every run, with restarts, `_LAST_COMPACTED` never changes a table |
| Memo.FreshProcessIsSound | pingback/db/rollups.py:195-198 | a process that starts with an empty memo is covered |
| Memo.ColdStartRecomputes | pingback/db/rollups.py:189-206 | after a restart the next call recomputes every tier, whatever the memo was |
| Readers.RowIsRawCount | pingback/db/rollups.py:304-333 | a count column of a row counts the raw checks of its bucket |
| Readers.SumIsRawCount | pingback/db/rollups.py:306-323 | the SUM over any set of rows with disjoint buckets counts the raw checks in them |
| Readers.TierSeparates | pingback/db/rollups.py:304-323 | the buckets of one tier are disjoint |
| Coverage.SelectedIff | pingback/db/rollups.py:317 | which raw checks the rows of a read stand for |
| Coverage.ReadIsRawCount | pingback/db/rollups.py:304-333 | the tier sums count the raw checks behind the selected rows |
| Coverage.ReadNeverExceedsRaw | pingback/db/rollups.py:304-333 | in every reachable state a rollup read never exceeds the raw scan of [cutoff, now] |
| Coverage.ReadReachesRaw | pingback/db/rollups.py:304-333 | and reaches the raw scan of whatever is covered from the first edge on |
| Coverage.ReadEqualsRawIff | pingback/db/rollups.py:304-333 | it equals the raw scan of [first edge, floor(now)) exactly when every check there has its row |
| Coverage.ReadEqualsRaw | pingback/db/rollups.py:359-368 | the same for each column and for the monitors of one user |
| Coverage.ReadMissesRaw | pingback/db/rollups.py:359-368 | a missing row makes the read strictly smaller |
| CoverageRuns.CompactExtends | pingback/db/rollups.py:201-225 | a call within one bucket of the last extends the covered span to the newest edge |
| CoverageRuns.PurgeKeepsCovered | pingback/db/monitors.py:292-328 | a purge that spares the start of the span keeps it covered |
| CoverageRuns.StepKeepsCovered | pingback/db/monitors.py:111-141 | so does every other step |
| CoverageRuns.CoverageOverRuns | pingback/db/rollups.py:201-225 | over every run whose calls are at most one bucket apart, no bucket of a live monitor is skipped |
| CoverageRuns.ReadsAgreeOverRuns | pingback/db/rollups.py:304-333 | then every read inside the covered span whose newest bucket is compacted equals the raw scan |
| CoverageRuns.LateCallLosesBucketIff | pingback/services/scheduler.py:145-156 | in any state, of two consecutive calls in different buckets, with any events between but backfills of the tier, the second saves a check of the first bucket exactly when it comes in the very next one; the 60 s throttle cannot promise that for 1m |
| Telescope.SpanIsRawCount | pingback/db/rollups.py:129-186 | over a covered span between edges the rows of a tier add up to the raw checks |
| Telescope.CoarseRowIsSumOfFineRows | pingback/db/rollups.py:30-45 | a 1h row counts what its twelve 5m rows and its sixty 1m rows count together |
| Telescope.RowsInSpan | pingback/db/rollups.py:304-317 | one monitor has at most one row per bucket of a span |
| Telescope.ReadTouchesFewRows | pingback/db/rollups.py:304-317 | a read touches at most one row per whole bucket of its window |
| Telescope.DashboardReadIsBounded | pingback/db/rollups.py:3-9 | with the tier of `pick_tier` a read of up to a year touches at most 1440 (1m), 2016 (5m) or 8760 (1h) rows of a monitor |
| LatencyStats.RowTotalIsSum | pingback/db/rollups.py:101-106 | without NULL latencies, avg * check_count of a row is the sum of its latencies |
| LatencyStats.AverageIsRawMean | pingback/db/rollups.py:311-313 | for any rows with disjoint buckets and no NULL latency the weighted average is the mean of their raw checks |
| NullLatencies.EvenRowsAverageRight | pingback/db/rollups.py:311-313 | the average is right when every row with a latency holds the same share of the timed checks as of all checks |
| NullLatencies.OneLatencyTells | pingback/db/rollups.py:311-313 | two histories that differ in one latency are both averaged right only if the row of that check holds its share |
| NullLatencies.AverageAlwaysRightIff | pingback/db/rollups.py:306-318 | the exact condition: the average is right, and stays right whichever one latency is changed, if and only if every row with a latency holds its share |
| WindowReads.WindowNeverExceedsRaw | pingback/db/rollups.py:256-333 | for every window and tier no count of a monitor read exceeds the raw scan of the window |
| WindowReads.WindowEqualsRawIff | pingback/db/rollups.py:304-333 | the check count of a rollup window equals the raw count of its whole buckets exactly when these are covered; ok and fail counts follow |
| WindowReads.UserChecksAgainstRaw | pingback/db/rollups.py:336-368 | the tile of a user never exceeds the raw scan, equals it for the raw tier, and equals it on whole buckets exactly when these are covered |
| WindowReads.ShortWindowIsExact | pingback/db/rollups.py:256-302 | a window below an hour is answered raw, with the exact counts, mean, minimum and maximum of its checks, whatever the rollups hold |
| WindowReads.ShortTileIsExact | pingback/db/rollups.py:352-360 | so is the tile of a user |
| WindowReads.SpanIsMostOfWindow | pingback/db/rollups.py:53-62 | the whole buckets a rollup read answers for make up more than 29 thirtieths of its window |
| WindowReads.WindowAverageIsMean | pingback/db/rollups.py:304-333 | the average of a covered window is the mean of its raw latencies when every row holds its share |
| WindowReads.TimedWindowAverage | pingback/db/rollups.py:304-333 | in particular when no check of the window lacks its latency |
| WindowReads.WindowExtremesAreInside | pingback/db/rollups.py:314-315 | the low and high of a covered window are latencies of its raw checks, in order |
| WindowReads.WindowExtremesAreRanks | pingback/db/rollups.py:303-318 | exactly: the low is the least median and the high the greatest 99th percentile of the raw checks in the buckets read |
| LatencyStats.ExtremesAreInside | pingback/db/rollups.py:314-315 | for any rows with disjoint buckets: whenever a latency exists, true min <= MIN(p50) <= MAX(p99) <= true max |
| LatencyStats.NullLatencyHalvesAverage | pingback/services/scheduler.py:71-73 | an instance: one bucket with a failed check and no latency halves the reported average of two one-check buckets |
| Retention.VisitOneMore | pingback/db/monitors.py:291-329 | visiting one more plan extends the deletion by its rows, whatever was visited before |
| Retention.VisitEveryPlan | pingback/db/monitors.py:280-329 | once all plans in use are visited the loop has done the one-shot purge |
| Retention.PurgeSurvivors | pingback/db/monitors.py:273-331 | a raw or rollup row survives exactly when it is no older than 7, 90 or 365 days by the plan of its owner and no older than the ceiling; nothing else changes |
| Retention.PurgeTwiceIsPurgeLater | pingback/db/monitors.py:273-331 | with plans unchanged, purging now and later is purging later |
| Retention.ArchiveOneMore | pingback/db/monitors.py:233-269 | archiving one more user extends the deletion by that user's rows |
| Retention.ArchiveEveryone | pingback/db/monitors.py:215-270 | the loop over abandoned users is the one-shot archive |
| Retention.ArchiveSurvivors | pingback/db/monitors.py:212-260 | an archive takes the history of exactly the monitors whose owner is on the free plan and was last seen too long ago, raw and rollups, pauses them, and changes nothing else |
| Lifecycle.SignUpAddsFree | pingback/routes/dashboard.py:458-476 | a sign-up adds one free user seen now, and no existing user is written to |
| Lifecycle.UserUpdates | pingback/auth.py:117-122 | a request stamps its user only, a change of plan writes the plan only |
| Lifecycle.VisitKeepsHistory | pingback/db/monitors.py:221-229 | after a request of its user an account is safe from the archive for the days of inactivity that it allows |
| Lifecycle.DeleteUserLeavesOthers | pingback/routes/users.py:16-30 | a deleted account takes its monitors, checks and rollups with it and leaves everything of everybody else |
| Lifecycle.CreatedIff | pingback/routes/monitors.py:30-45 | a monitor is created exactly when its owner exists, the id is new and the interval is at least 300, 60 or 30 s by plan |
| Lifecycle.EditedIff | pingback/routes/dashboard.py:944-960 | an interval is edited exactly under the same floors |
| Lifecycle.ArchivedIsSilent | pingback/services/scheduler.py:76-98 | a monitor paused by the archive is not due, so it makes no more history |
| Cadence.OffsetBounds | pingback/services/scheduler.py:43-57 | the offset is between 0 and a tenth of the interval, and reaches the tenth exactly at prefix 0xFFFFFFFF |
| Cadence.OffsetsSpread | pingback/services/scheduler.py:55-57 | the offset is the share of the tenth that the prefix has of all prefixes, strictly increasing in it |
| Cadence.CohortIsSpread | pingback/services/scheduler.py:43-57 | monitors of one interval have offsets in the order of the first four bytes of their digests |
| Cadence.LatestAt | pingback/db/monitors.py:144-156 | the newest `checked_at` of a monitor, if it has any row |
| Cadence.TickConserves | pingback/services/scheduler.py:76-104 | rows saved plus rows owed is conserved while a tick gathers, whatever requests that leave the monitor alone come in: a tick saves one row per due monitor and none for others |
| Cadence.PlainRequestsSpare | pingback/services/scheduler.py:100-104 | the clock, account changes, other monitors, compactions and backfills are such requests |
| Cadence.EveryPlanHasFloor | pingback/services/plans.py:27-54 | no plan allows an interval below 30 s |
| Cadence.StepSpaced | pingback/services/scheduler.py:60-104 | every step keeps rows of a monitor at least 30 s apart |
| Cadence.SpacingOverRuns | pingback/services/scheduler.py:76-104 | so over every run of ticks, requests, retention and restarts that drop the checks in flight |
| Cadence.HourHoldsAtMost120 | pingback/db/rollups.py:7-9 | any half-open hour holds at most 120 raw rows of a monitor |
| CadenceGaps.PurgeKeepsLatest | pingback/db/monitors.py:292-328 | a purge that keeps one interval of history never makes a monitor look never-checked before it is due |
| CadenceGaps.CadenceOverRuns | pingback/services/scheduler.py:76-104 | over every run, restarts included, successive checks of an undisturbed active monitor are at least one interval apart, and less than interval + its offset + one tick gap, one more for each restart that dropped it, + one check duration |
| CadenceGaps.SlackCounts | pingback/services/scheduler.py:159-192 | the extra time is one tick gap for each restart since the last check that dropped the check in flight |
| CadenceGaps.FinishGap | pingback/services/scheduler.py:92-98 | the two-sided bound on one gap, with the offset of the monitor itself and in tenths of the interval |
| CadenceExtremes.LongestGapIsReached | pingback/services/scheduler.py:76-104 | from any state just after a check there is a run, with ten seconds of sleep after every tick and its checks, whose next gap is the longest: the last tick too early, a tick gap and a check |
| CadenceExtremes.ShownGapsAreWithin | pingback/services/scheduler.py:159-178 | no undisturbed run without restarts has a longer one |
| CadenceExtremes.GapExceedsIff | pingback/services/scheduler.py:50-53 | for any tick gap and check duration, the next gap can exceed 1.1 intervals without a restart exactly when the longest one does |
| CadenceGaps.FirstCheckOnSchedule | pingback/services/scheduler.py:84-98 | a monitor without history is due at once (from one interval after the epoch on), and on schedule after its first check |
| Store.Store.Upsert | pingback/db/rollups.py:157-184 | writes the summary of one bucket and leaves every other row |
| Store.Store.UpsertAll | pingback/db/rollups.py:156-186 | the loop writes one row per monitor found and counts them |
| Store.Store.CompactWindow | pingback/db/rollups.py:129-186 | the method reaches the state of the specification and returns the number of monitors written |
| Store.Store.CompactRecent | pingback/db/rollups.py:201-225 | visits the tiers in order; the summary names exactly the tiers that fired, with their row counts |
| Store.Store.Backfill | pingback/db/rollups.py:228-248 | recomputes every bucket of [start, end), leaves every other row, and returns how many rows it wrote |
| Store.Store.SaveCheckResult | pingback/db/monitors.py:117-141 | appends one row with the given outcome at the clock, or none when the monitor is gone |
| Store.Store.DeleteMonitor | pingback/db/monitors.py:111-115 | nothing of the monitor is left, the history and rows of every other are untouched, an unknown id changes nothing, and the rollups stay in step |
| Store.Store.PurgeExpired | pingback/db/monitors.py:273-331 | the loop over plans equals the one-shot purge and returns the number of raw rows removed |
| Store.Store.ArchiveAbandoned | pingback/db/monitors.py:215-270 | the loop over users equals the one-shot archive and returns how many there were |
| Store.Store.CollectDue | pingback/services/scheduler.py:81-98 | lists each due monitor once and no other |
| RateLimit.RateLimiter.Record | pingback/rate_limit.py:21-39 | prunes and appends in place as the list specification says |
| RateLimit.SameDecision | pingback/rate_limit.py:21-39 | on lists that agree from now on, pruned and full decide alike and still agree |
| RateLimit.PruningRefines | pingback/rate_limit.py:21-39 | over every run of calls on a monotonic clock the pruned limiter decides exactly as the full history would |
| RateLimit.HistoryIsAccepted | pingback/rate_limit.py:21-39 | the full history of a key is the list of its calls that were let through |
| RateLimit.WindowHoldsAtMostMax | pingback/rate_limit.py:21-39 | every half-open window holds at most max_requests of the calls of a key that the pruned limiter let through |
| RateLimit.AllowedIff | pingback/rate_limit.py:21-39 | over any ordered run a request is let through exactly when fewer than max_requests with its key were let through in the window that ends now |
| RateLimit.ListsStayShort | pingback/rate_limit.py:21-39 | a retained list never outgrows max_requests |
| RateLimit.OldestHitFreesASlot | pingback/rate_limit.py:21-39 | a call window_seconds after the oldest retained hit is accepted |
| RateLimit.KeysAreIndependent | pingback/rate_limit.py:21-39 | the list of a key depends on the calls with that key alone |
| RateLimit.GuardIsTwoLimiters | pingback/rate_limit.py:58-91 | the forgot and reset guards behave as two limiters, the second charged only when the first accepts |
| RateLimit.KeyServedAtMostMax | pingback/rate_limit.py:78-91 | whatever the addresses, at most the cap of the requests with one email or token get the verdict that lets them through in any window |
| Digest.Preferences.UsersDue | pingback/db/digest.py:109-176 | lists exactly the eligible users |
| Digest.Preferences.MarkSent | pingback/db/digest.py:93-106 | after the mark the user is not due again on any day that starts by then, and no other user is affected |
| Digest.UntornRunsStayGuarded | pingback/services/email.py:306-358 | over runs without a torn send every digest stays guarded by its mark |
| DigestRuns.AtMostOneDigestPerDay | pingback/services/email.py:306-358 | over every run of ticks, failures, crashes, restarts and preference changes in which no process comes back within the window in which a mark was lost, a user gets at most one digest per local day, and sends are at least 24 h minus 14 min apart |
| DigestRules.WindowIsEarlyMorning | pingback/db/digest.py:105-147 | the window is 07:53:00 to 08:07:00 local time, both included |
| DigestRules.PassServesIff | pingback/services/email.py:306-358 | an effective pass sends exactly to who has everything switched on, is in the window and has no mark of this local date, unless there is nothing to report; and it marks exactly those |
| DigestRules.SwitchedOffGetsNone | pingback/db/digest.py:129-137 | over every run, who has switched the digest off, withdrawn consent or has no active monitor gets none |
| DigestRuns.LostMarkSendsTwiceIff | pingback/services/email.py:327-352 | and after a lost mark and a restart the next pass sends a second digest that day exactly when the window is still open |
| Digest.WindowShorterThanTick | pingback/services/scheduler.py:125-142 | two passes 900 s apart are never both in the window of one day |
| Digest.ThrottleAloneSuffices | pingback/services/scheduler.py:125-142 | without restarts the throttle alone gives the same guarantee |
| DigestRuns.TwoPassesSendIff | pingback/db/digest.py:113-176 | of two consecutive passes, in any zone, a subscriber gets the digest of a day exactly when one of them is in the window of that day |
| DigestRuns.WindowMissedIff | pingback/services/scheduler.py:125-142 | consecutive passes can step over a window exactly when they are more than the window apart |
| DigestRuns.GridMissesIff | pingback/services/scheduler.py:125-142 | passes exactly 15 min apart miss the window of every day exactly when they fall between :07 and :08 past each local quarter of an hour |
| DigestRuns.GridInGapNeverSends | pingback/services/scheduler.py:125-142 | a process on such a grid never sends that user anything |
| DigestRuns.ThrottledPassesMissDay | pingback/services/scheduler.py:125-142 | a run of two passes 15 min apart, around the window of a day, that sends nothing |
| Billing.Webhook.Update | pingback/routes/billing.py:284-326 | an UPDATE overwrites the rows one by one |
| Billing.Webhook.SendWelcomeIfNeeded | pingback/routes/billing.py:425-485 | stamps and sends to the first user of the customer at most once |
| Billing.Webhook.Receive | pingback/routes/billing.py:150-180 | one delivery: duplicates do nothing, others are handled and recorded |
| Billing.RepeatsAreIgnored | pingback/routes/billing.py:165-179 | any run equals the run without repeated event ids |
| Subscriptions.DeliveryDecides | pingback/routes/billing.py:284-362 | one new event, user by user: a paid status, or a cancellation with a date, makes every user of the customer pro with what the payload says; any other makes them free with nothing on file; a created event binds the user it names; nobody else changes |
| Subscriptions.WelcomesFirst | pingback/routes/billing.py:425-485 | a created event with a paid status stamps and emails exactly the first user concerned, unless stamped before |
| Billing.RetryIsHarmless | pingback/routes/billing.py:342-362 | after a whole handler, handling the same event again at once changes nothing but updated_at and sends nothing |
| Billing.RetryAfterAnyCommit | pingback/routes/billing.py:359-362 | after a crash at any commit of the handler a second handling ends in the same table but for times, with one welcome email in all, none if the crash fell between stamp and send |
| Billing.HandleGood | pingback/routes/billing.py:284-362 | every handler keeps the billing invariant and the customer ids on file |
| Billing.BillingInvariant | pingback/routes/billing.py:284-362 | over every run of deliveries, sign-ups and account deletions: free means nothing on file, pro means a pro status or a dated cancellation, at most one welcome per user, customer ids never change while the user is there |
| Billing.SignUpGood | pingback/routes/dashboard.py:458-476 | a fresh free user keeps it and touches nobody else |
| Slugs.GrammarIsWellFormed | pingback/services/status_slug.py:15-17 | the pattern accepts exactly the non-empty [a-z0-9-] texts with no hyphen at an end or doubled, and `match` one more family: those with a final newline |
| Slugs.CleanedIsWellFormed | pingback/services/status_slug.py:36 | before truncation `slugify` gives nothing or a slug |
| Slugs.SlugifyIsSlugIff | pingback/services/status_slug.py:27-37 | after truncation it does so exactly unless a longer text has a hyphen at position 31, which is also when a second pass changes it |
| Slugs.SlugifyIsIdentityOnSlugs | pingback/services/status_slug.py:27-37 | valid slugs are fixed |
| Slugs.SlugifyKeepsWords | pingback/services/status_slug.py:36 | the text and its slug have the same alphanumeric words in the same order |
| SlugAllocation.ValidateAccepts | pingback/services/status_slug.py:40-52 | accepted texts are the proper slugs and, exactly, the well-formed texts of the right length with one final newline |
| SlugAllocation.GenerateUniqueSlug | pingback/services/status_slug.py:78-107 | the scan returns the first usable candidate, else the last resort |
| SlugAllocation.SeedHasShape | pingback/services/status_slug.py:55-62 | every seed has slug characters and ends in a hyphen only when cut at 32 |
| SlugAllocation.SeedIsProper | pingback/services/status_slug.py:97-104 | the seed always passes validation once stripped |
| SlugAllocation.SuffixIsProperIff | pingback/services/status_slug.py:99-104 | a suffixed candidate passes exactly when the seed is not cut right after a hyphen |
| SlugAllocation.GeneratedIsProper | pingback/services/status_slug.py:78-107 | for UUID ids the result always validates; it is taken exactly when every proper candidate and the last resort are |
| SlugChoices.LocalPartIs | pingback/services/status_slug.py:57 | the local part of an email is everything before its first @ |
| SlugChoices.CaseIsIgnored | pingback/services/status_slug.py:30-38 | texts that differ in case only have the same slug |
| SlugChoices.NameComesFirst | pingback/services/status_slug.py:55-63 | a name that makes a free slug decides, whatever the email |
| SlugChoices.ReservedNameMoves | pingback/services/status_slug.py:95-98 | a name that makes a reserved slug gets that slug with "-page" |
| SlugChoices.EmailComesNext | pingback/services/status_slug.py:55-63 | without a name of three slug characters the local part of the email decides |
| SlugChoices.IdComesLast | pingback/services/status_slug.py:62-63 | without either, the first eight digits of the id do |
| SlugChoices.TakesFirstFree | pingback/services/status_slug.py:100-108 | of the seed and its four suffixed forms the first one that is proper and free is taken |
| SlugChoices.RegisterDecides | pingback/routes/dashboard.py:440-476 | a sign-up goes through with a proper slug nobody had, exactly unless everything the generator would try is held |
| SlugChoices.AssignDecides | pingback/services/status_slug.py:110-132 | an existing slug is returned, a missing one is made proper and new unless nothing is left |
| SlugChoices.ChoiceDecides | pingback/routes/dashboard.py:1069-1085 | the stripped and lowered text is stored exactly when it is proper and nobody else has it |
| SlugChoices.ChosenText | pingback/routes/dashboard.py:1072-1073 | the text loses the blanks at its two ends, and its letters become lower case |
| SlugTable.BackfillIsComplete | pingback/services/status_slug.py:135-166 | a backfill that goes through gives everyone distinct slugs, overwrites none, and finds nothing to do when run again |
| SlugTable.BackfillSucceeds | pingback/services/status_slug.py:135-166 | it goes through when the last resorts are free and no candidate of one user is the last resort of another |
| SlugTable.BackfillFailsIff | pingback/services/status_slug.py:106-107 | it is rejected exactly when it reaches a user all of whose proper candidates and last resort are held |
| SlugTable.CrowdedBackfillFails | pingback/services/status_slug.py:106-107 | for any seven UUID users, none with a slug yet, there are names of the first six for which the backfill is rejected at the seventh |
| SlugTable.ChosenIsProperIff | pingback/routes/dashboard.py:1073-1076 | the settings form, which strips, accepts exactly the proper slugs |
| SlugTable.SlugsOverRuns | pingback/db/schema.py:213-217 | over every run slugs stay distinct and proper |
| SlugTable.AddressIsStable | pingback/services/status_slug.py:117-131 | a page address changes by its owner's choice or removal only |
| SlugTable.Column.AssignIfMissing | pingback/services/status_slug.py:110-132 | assigns once; a slug already there is returned untouched |
| SlugTable.Column.Backfill | pingback/services/status_slug.py:135-166 | the loop reaches the specified table and returns the number of rows |
| SlugTable.Column.UpdateStatusPageSlug | pingback/routes/dashboard.py:1069-1086 | updates exactly when the text is proper and nobody else holds it |
| Sessions.UnsignIff | pingback/session.py:46-64 | a cookie verifies to an id exactly when it is that id signed |
| Sessions.StepKeepsSound | pingback/routes/dashboard.py:105-133 | every request keeps the session invariant |
| Sessions.SessionInvariant | pingback/routes/dashboard.py:362-385 | over every run a session belongs to an existing verified user, and no user has two sessions |
| Sessions.ConfirmKeepsSound | pingback/routes/dashboard.py:540-557 | the verification click signs in a user who had no session |
| Sessions.SessionsAreEarned | pingback/routes/dashboard.py:355-385 | a new session is minted by a correct login of a verified account, a live link of the account, or a password change by its owner, and lasts one lifetime |
| Sessions.VerifiedByLinkOnly | pingback/routes/dashboard.py:540-557 | an account becomes verified exactly by a live verification or reset link of its own |
| Sessions.RotationEndsOldCookies | pingback/routes/dashboard.py:124-133 | after a login, reset or password change no earlier cookie acts for that user again; the new one does until it expires |
| Sessions.LogoutIsFinal | pingback/routes/dashboard.py:113-121 | a logged-out cookie never resolves again |
| Sessions.TokensStayApart | pingback/routes/dashboard.py:283-302 | no two users hold the same token |
| Sessions.LinksWorkOnce | pingback/routes/dashboard.py:540-548 | a verification or reset link selects no row after it has worked |
| AccountLinks.ForgotGivesLink | pingback/routes/dashboard.py:594-611 | asking for a reset gives an existing account a link for two hours, and changes nothing else |
| AccountLinks.ResetLinkWorksIff | pingback/routes/dashboard.py:646-692 | a reset link works exactly until it expires: the account then has a password, is verified, holds no link, and its owner has exactly one session |
| AccountLinks.SignUpGivesLink | pingback/routes/dashboard.py:440-476 | a sign-up makes an unverified account with a password and a link for a day, and an existing account is left alone |
| AccountLinks.ResendGivesLink | pingback/routes/dashboard.py:566-577 | asking again replaces the link of an unverified account only |
| AccountLinks.VerificationLinkWorksIff | pingback/routes/dashboard.py:508-557 | a verification link works exactly until it expires: the account is verified, keeps the rest, and gains one session |
| AccountLinks.LoginDecides | pingback/routes/dashboard.py:325-385 | what a login does in each case, and to nobody else |
| AccountLinks.ChangeDecides | pingback/routes/dashboard.py:1169-1195 | a correct password change leaves the account and exactly one session of it |
| AccountLinks.DeletionLeavesNothing | pingback/routes/dashboard.py:1244-1255 | a deleted account has no row and no session left, and nobody else loses one |
| AccountLinks.EndsOwnSessionOnly | pingback/routes/dashboard.py:1223-1237 | logging out and renewing the API key end the session of the cookie and no other |
| AccountLinks.ViewChangesNothing | pingback/routes/dashboard.py:90-102 | looking at a page keeps every live session and every account |
| Sessions.EvictionIsInvisible | pingback/session.py:97-122 | evicting expired rows never changes who any later request is from |
| Sessions.Accounts.constructor | pingback/db/schema.py:223-229 | the empty tables satisfy the invariant |
| Sessions.Accounts.CreateSession | pingback/session.py:72-82 | the new id resolves to its user until its lifetime is over, and every other id as before |
| Sessions.Accounts.DeleteSession | pingback/session.py:85-88 | the id never resolves again, and every other id as before |
| Sessions.Accounts.DeleteSessionsForUser | pingback/session.py:91-94 | no id resolves to the user, and every other id as before |
| Sessions.Accounts.LookUpSession | pingback/session.py:97-122 | the user of a live row; an expired row is evicted |
| Sessions.Accounts.UiUser | pingback/routes/dashboard.py:90-102 | the user behind a cookie |
| Sessions.Accounts.EndSession | pingback/routes/dashboard.py:113-121 | deletes the row of the cookie |
| Sessions.Accounts.RotateSession | pingback/routes/dashboard.py:124-133 | leaves the user exactly one session |
| Sessions.Accounts.LoginSubmit | pingback/routes/dashboard.py:325-385 | the branches of a login: no account, no password yet, wrong password, unverified, signed in |
| Sessions.Accounts.VerifyEmail | pingback/routes/dashboard.py:508-557 | consumes a live token, verifies and signs in |
| Sessions.Accounts.ResetPasswordSubmit | pingback/routes/dashboard.py:646-692 | consumes a live token, clears both tokens and rotates |
| Sessions.Accounts.ChangePasswordSubmit | pingback/routes/dashboard.py:1169-1195 | rotates for the signed-in user when the password check passes |
| IsoOrder.FractionDecides | pingback/db/monitors.py:15-16 | leaving out a zero fraction keeps its place in the order when the zone starts below the dot |
| IsoOrder.MicrosDecide | pingback/db/rollups.py:148-150 | chronological order is the order of the fields, leap years included |
| IsoOrder.TextOrderIsTimeOrder | pingback/db/rollups.py:158-162 | for all UTC instants comparing stored texts is comparing instants, and equal texts are equal instants |
| IsoOrder.NewYearIs | pingback/db/rollups.py:42-45 | instants are counted on the Gregorian calendar, on which the Unix epoch is day 719162 |
| IsoOrder.ZoneDecidesIff | pingback/db/monitors.py:297-327 | the order embeds exactly when the zone text starts below the dot; "Z" would break it |

## Left out

- HTTP, routing, templates, CSRF, email bodies, audit rows, logging: plumbing without an invariant of its own.
- URL checks, mail and Paddle calls: their outcome is a parameter of the step, or a failure.
- bcrypt, Fernet, SHA-1, SHA-256, HMAC, `secrets`: uninterpreted functions and a source of ids that never repeats.
- SQLite: tables are maps and sequences with primary keys, cascades and the UNIQUE index on slugs; transactions,
  WAL and migrations are not modelled. A backfill of slugs that is rejected keeps the updates made before it.
- Concurrency between requests: each is one atomic step, so check-then-write races are outside the model.
- Time zones: a fixed offset per user; tzdata and daylight saving are not modelled.
- Floats: averages and offsets are reals, so rounding (also of `uptime_pct`) is not modelled.
- Unicode: `slugify` starts from ASCII text, after NFKD; `strip` and `lower` are those of ASCII.
- Numeric timestamps in `_normalize_iso` (pingback/routes/billing.py:273): only text values are modelled.
- Customer ids and emails are compared as given; hashing and canonical forms of emails are not modelled.
- Rows of the sessions table whose expiry does not parse: only `create_session` writes that column.
- The monitor quota of a plan and the summary pages beyond the two reads of pingback/db/rollups.py:256-368.
- The comparison with `datetime('now')` (pingback/routes/dashboard.py:800), whose text format differs.
- signup_submit, resend_verification, forgot_password_submit, logout, rotate_key and delete_account are functions
  on states in `Sessions` without a method of their own: one row update each.
- CoverageRuns.CoverageOverRuns: requires calls at most one bucket apart, which the code does not ensure for 1m.
- CadenceGaps.CadenceOverRuns: requires the monitor to stay active and unchanged and retention to cover its
  interval; a purge that deletes its newest check earlier makes it due at once.
- LatencyStats.AverageIsRawMean: requires that no latency is NULL; the exact condition is that of
  NullLatencies.AverageAlwaysRightIff.
- CadenceExtremes.GapExceedsIff: starts from a single monitor whose tick started at most a tick gap before.
- SlugTable.BackfillSucceeds: one way only; the exact condition is that of SlugTable.BackfillFailsIff.
