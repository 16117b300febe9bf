# EasyZFS: a verified model of its replication, scheduling, series and notification logic

EasyZFS is a daemon that manages ZFS pools. This project models the parts of it whose correctness is a matter of state
over time, and proves what they promise over every input and every run. `dafny verify dfyconfig.toml` checks it.

## What is modelled

**Replication** (`Zfs`, `ReplicationRun`, `ReplicationJob`, `ReplicationSystem`, `ReplicationRunner`). One run of a
job takes a snapshot, sends it (incrementally from the bookmark `ezrepl-last` if `last_bookmark` is set), may destroy
the destination and send in full once, moves the bookmark and prunes. `Zfs` gives each command its precondition and a
free fate: it may work, fail, be cancelled, or not start, and one that fails or is cancelled may still have taken
effect. `ReplicationRun` is one command at a time; `ReplicationJob` is whole runs; `ReplicationSystem` interleaves all
jobs' ticks, requests, edits and commands atomically; `ReplicationRunner` is the code, as methods over mutable state
with loops, each tied to the step semantics.

Assumptions: when the daemon starts the jobs that say ok are in sync; jobs have distinct sources and destinations;
nobody else writes to them; the daemon is not restarted in the middle of a run; the clock does not go back; a failed
receive leaves the destination either as it was or with the snapshot.

**Schedules and ticks** (`Calendar`, `Schedules`, `ScheduleText`, `Ticks`). The Gregorian calendar at one fixed offset
from UTC, the four kinds of schedule, their text, and the 30-second tick over stored jobs.

**Series** (`StoredTimes`, `Rollup`, `Lttb`, `SeriesRange`, `SeriesStore`). Samples rolled up into daily rows; ranges
merged from both tables and thinned; what a range shows of the store. Floats are reals.

**Components with limits over time** (`Windows`, `RateGuard`, `LoginLimiter`, `McpLimiter`, `Hub`, `Webhook`, `Push`,
`PushRuns`, `PushClaims`, `PushWitnesses`, `PushSender`, `Alerts`, `AlertRaces`, `Longops`). Each class is the code;
the theorems are about every sequence of its calls, and for pushes and alert races about every interleaving of the
steps inside them.

## What the code does that one might not expect

- One failed `zfs bookmark` after the first send locks a job out: `last_bookmark` stays empty while the destination
  exists, so every later run, `force_full` or not, tries a full send that ZFS refuses
  (`ReplicationJob.FailedBookmarkLocksOut`). So does a full send that fails after `force_full` destroyed the
  destination (`ReplicationJob.FailedResendLocksOut`). `ReplicationJob.LockOutIff` says exactly which failures do it.
- A request or tick reads the job before it takes the slot. If another run ends in between, the copy is stale. A stale
  copy whose `last_bookmark` is empty fails and writes the empty value back
  (`ReplicationSystem.StaleEmptyCopyLocksOut`). From then on no run of the job as it stands repairs it, `force_full`
  or not; only another old copy that still waits for the slot could. `ReplicationSystem.LockedOutIff` says exactly
  when nothing can.
- If the store rejects the result of a run, the row keeps saying what it said before. A job in sync then goes on
  saying ok although it is out of step, unless the run came to nothing (`ReplicationJob.LostResultIff`); a run that
  failed can do that too. The promise about resting jobs is therefore about jobs whose last result was saved.
- The replication tick can start two runs for one instant, because it can look at a job while its run is in progress
  and take the slot right after. The scheduler's tick waits for its runs and cannot, unless the store rejects a
  result. A start repeats an instant exactly when the last run it read is older than that instant
  (`Ticks.RepeatsIffStale`).
- The function `series.Range` returns two points for a threshold of 1; its only caller asks for 50 to 2000. It never
  shows samples of the last day of the range, because 'T' is greater than ' ' in the text comparison.
- From midnight to the day's rollup, samples of the day that the cutoff has just left are in neither part of a range
  (`SeriesStore.RangeMissesIff`, `SeriesStore.MidnightGap`).
- The comment on the rollup says a repeated day is recalculated; the statement accumulates. Both agree because
  aggregated samples are deleted. The purge that follows reckons its cutoff again and can delete samples of a day that
  has passed in between.
- The fixed-window limiter lets through twice its limit within a minute.
- A failed login counts with the time it began. Ten that began early and arrive late can shorten a block
  (`LoginLimiter.BlockLastsIff`, `LoginLimiter.SlowLoginsShorten`).
- A push can go into an open window. The tick asks once whether a user's window is closed, and `Notify` once, at the
  user's first device; the pushes that follow may be slow, and a window that opens meanwhile is not seen
  (`PushClaims.IntoWindowIff`, `PushWitnesses.DrainIntoWindow`, `PushWitnesses.AlertIntoWindow`).
- A drain deletes all the user's rows, including those queued after it read them; those are lost
  (`PushClaims.LateRowsAreLost`).
- A browser that changes hands while an alert waits for its new owner can be handed that alert twice
  (`PushWitnesses.ReassignedDeviceIsHandedTwice`).
- Two raises of one new alert that both select before either inserts leave two active rows
  (`AlertRaces.TwoSelectsDouble`).
- A webhook retry after no answer at all does not wait.

## Model

| member | source | states |
|---|---|---|
| `ReplicationSystem.RestingJobsAreInSync` | internal/replication/runner.go:163-289 | From the start of a daemon, if the jobs that say ok are in sync then, over every interleaving of ticks, requests, edits and executions of all jobs, and every pattern of command failures: a job at rest whose last saved result is ok has its bookmark, its destination's newest snapshot and `last_bookmark` equal, and that snapshot still exists at the source. |
| `ReplicationSystem.PerformInv` | internal/replication/runner.go:69-190 | Every atomic action keeps the invariant: well-formed tables, exact slots, every execution sound at its phase, every rested ok job in sync. |
| `ReplicationSystem.AfterInv` | internal/replication/runner.go:69-190 | The invariant holds after every sequence of actions. |
| `ReplicationSystem.OneExecutionPerJob` | internal/replication/runner.go:69-110 | After every sequence of actions from the start of a daemon, `inFlight` is exactly the set of jobs with a live execution and no job has two. |
| `ReplicationSystem.SlotsBalance` | internal/replication/runner.go:69-84 | Slots taken equal slots given back plus the one held: each acquired slot is released exactly once. |
| `ReplicationSystem.Undisturbed` | internal/replication/runner.go:163-190 | No action of another goroutine changes a live execution or its job's pools. |
| `ReplicationSystem.IdleUndisturbed` | internal/replication/runner.go:163-190 | No action changes the pools or the recorded result of a job that has no execution. |
| `ReplicationSystem.AsksOnce` | internal/replication/runner.go:69-110 | A goroutine asks for the slot once: it goes on with its copy if the slot is free and is gone if it is not, and nothing else changes. |
| `ReplicationSystem.ReadsCurrent` | internal/replication/runner.go:100-110 | What a goroutine reads is the job's row as it is then. |
| `ReplicationSystem.InterleavedRunIsAtomic` | internal/replication/runner.go:201-289 | Refinement: however an execution's commands interleave with everything else, it is heading for the outcome of the same execution run alone. |
| `ReplicationSystem.RecoveryExactInSystem` | internal/replication/runner.go:201-265 | Recovery among all the other jobs: with no spontaneous failure and whatever else happens before, between and after its commands, an execution ends with its job in sync if and only if its copy was recoverable. |
| `ReplicationSystem.StaleRunKeepsSyncIff` | internal/replication/runner.go:100-110 | What a stale copy costs: taken for a job in sync and run without failures, it leaves the job in sync if and only if the copy has a `last_bookmark`. |
| `ReplicationSystem.StaleEmptyCopyLocksOut` | internal/replication/runner.go:163-181 | Without one the job is unrecoverable once the result is recorded, however the commands end and whatever else happens meanwhile. |
| `ReplicationSystem.StaleRequestLocksOut` | internal/replication/runner.go:100-110 | A reachable run of two requests: the first leaves the job in sync, the second, on a copy read before, leaves it beyond repair. |
| `ReplicationSystem.LockedOutIff` | internal/replication/runner.go:100-190 | Exactly when a job at rest is beyond repair: no interleaving of anything, short of switching `force_full` on, brings it back into sync if and only if neither its row nor any copy still waiting for the slot can help, by repairing it or by writing a `last_bookmark` from which it can be repaired. |
| `ReplicationSystem.LockedOutForGood` | internal/replication/runner.go:100-190 | A job whose row, waiting copies and executions cannot help stays out of sync over every sequence of actions. |
| `ReplicationSystem.UnrecoverableCopyMayHelp` | internal/replication/runner.go:180-183 | A waiting copy that is itself unrecoverable can still help, by writing the `last_bookmark` a forced run needs: a concrete state. |
| `ReplicationSystem.Rescue` | internal/replication/runner.go:100-190 | Otherwise there is a sequence of actions that repairs it. |
| `ReplicationSystem.LostResultMisleads` | internal/replication/runner.go:180-183 | A reachable run: cancelled in the last instant with its stream received, and its result refused by the store, it leaves a job at rest that says ok and is not in sync. |
| `ReplicationSystem.HistoryOnlyGrows` | internal/replication/runner.go:235-249 | While nobody switches `force_full` on, the destination's history is only ever extended at its end, over all runs. |
| `ReplicationJob.RecoveryExact` | internal/replication/runner.go:201-265 | A run whose enabled commands all work ends in sync if and only if the state was one of the three recoverable ones (first send to an absent destination; bookmark equal to the newest received snapshot; `force_full` with a destination to destroy). |
| `ReplicationJob.DeliveredSucceeds` | internal/replication/runner.go:253-265 | Once the stream has arrived, bookmark and prune bring the job into sync. |
| `ReplicationJob.StepStays` | internal/replication/runner.go:201-265 | A run from an unrecoverable state fails, keeps destination, bookmark and `last_bookmark`, and leaves an unrecoverable state, however its commands end. |
| `ReplicationJob.StuckForever` | internal/replication/runner.go:201-265 | From an unrecoverable state no number of consecutive runs, each on a copy just read, brings the job back into sync, whatever their commands do. |
| `ReplicationJob.LockOutIff` | internal/replication/runner.go:201-265 | Exactly which failures of a run turn a recoverable job into one that no such run repairs, for all states and all fates of its commands. |
| `ReplicationJob.FailedBookmarkLocksOut` | internal/replication/runner.go:253-265 | A first send whose stream arrives and whose `zfs bookmark` fails once locks the job out, `force_full` or not. |
| `ReplicationJob.FailedResendLocksOut` | internal/replication/runner.go:238-248 | `force_full` destroys the destination of a job in sync, the full send fails, and the job is locked out. |
| `ReplicationJob.DeliveredOutcome` | internal/replication/runner.go:253-265 | How the rest of a run ends once its stream has arrived, for all fates: it succeeds exactly when the bookmark could be set. |
| `ReplicationJob.ForcedOutcome` | internal/replication/runner.go:238-248 | What destroy and full send make of the destination, for all fates. |
| `ReplicationJob.LostResultIff` | internal/replication/runner.go:163-183 | A job in sync, any copy of it that is run, current or stale, and a result that is lost: the job is still in sync exactly when the run took no snapshot, tried a full send, or received no stream and destroyed no destination. |
| `ReplicationJob.StaleCopyLocksOut` | internal/replication/runner.go:163-181 | Executing a copy read before the first send on a job in sync fails and makes the job unrecoverable, `force_full` or not. |
| `ReplicationJob.ResultIsOwnSnapshot` | internal/replication/runner.go:253-265 | A run succeeds, if at all, with the snapshot it took itself. |
| `ReplicationJob.PruneEffect` | internal/replication/runner.go:284-288 | The destroy loop removes exactly the listed snapshots whose destroy worked. |
| `ReplicationJob.PruneKeepsTwoNewest` | internal/replication/runner.go:267-289 | With its destroys working, prune leaves exactly the two newest replication snapshots, every foreign one, the one just sent, the bookmark and the destination. |
| `ReplicationJob.SurvivorsCount` | internal/replication/runner.go:284 | Two snapshots survive, or all if there are at most two. |
| `ReplicationJob.RunAddsOne` | internal/replication/runner.go:201-289 | Whatever fails, a run adds at most its own snapshot and never touches a foreign one. |
| `ReplicationJob.SuccessLeavesTwo` | internal/replication/runner.go:253-289 | A successful run whose listing and destroys worked leaves at most two replication snapshots. |
| `ReplicationJob.SnapshotCount` | internal/replication/runner.go:201-289 | Over any plan of runs, the source has at most two replication snapshots plus one for each failed run since the last success. |
| `ReplicationJob.DestroyOnlyWhenForced` | internal/replication/runner.go:223-243 | The number of destroy commands for the destination in one run, for all inputs: one exactly when `force_full` is on and a launched incremental pipeline of that run ended in error rather than cancellation, otherwise none. |
| `ReplicationJob.ExecKeepsHistory` | internal/replication/runner.go:235-243 | Without `force_full` no command takes anything from the destination's history. |
| `ReplicationRun.ExecSound` | internal/replication/runner.go:201-289 | Every command, however it ends, keeps what must hold at the phase the execution has reached. |
| `ReplicationRun.CompleteSound` | internal/replication/runner.go:201-289 | A whole run that succeeds leaves bookmark, destination and source agreeing on its result. |
| `ReplicationRun.ExecProgress` | internal/replication/runner.go:201-289 | Every command moves the execution on, so no run issues commands for ever. |
| `ReplicationRun.Sorted` | internal/replication/runner.go:283 | The sorted list has every stamp and no other. |
| `ReplicationRun.SortedIncreases` | internal/replication/runner.go:283 | The sorted list increases strictly. |
| `ReplicationRun.VictimsFacts` | internal/replication/runner.go:283-284 | The snapshots given up exist, are all but two, and come oldest first. |
| `ReplicationRun.VictimsBeforeKept` | internal/replication/runner.go:283-284 | Every snapshot given up is older than every replication snapshot kept. |
| `ReplicationRun.VictimsOlder` | internal/replication/runner.go:283-284 | The newest snapshot is never given up. |
| `ReplicationRunner.Run` | internal/replication/runner.go:201-249 | The imperative body of a run has, for all fates of its commands, the outcome of the step semantics whose properties are proved above. |
| `ReplicationRunner.PostSuccess` | internal/replication/runner.go:253-265 | Bookmark move and prune have the outcome of the step semantics. |
| `ReplicationRunner.Prune` | internal/replication/runner.go:269-289 | The listing, sorting and destroying loop has the outcome of the step semantics and never fails the run. |
| `ReplicationRunner.SortStamps` | internal/replication/runner.go:283 | Sorting by repeatedly taking the least yields the sorted list. |
| `ReplicationRunner.Runner.TryAcquire` | internal/replication/runner.go:69-77 | Takes the slot exactly when it is free and says so. |
| `ReplicationRunner.Runner.Release` | internal/replication/runner.go:80-84 | Frees exactly that job's slot. |
| `ReplicationRunner.Runner.RunNow` | internal/replication/runner.go:100-110 | Not found, already running or started with the stored copy; a slot is taken only in the last case. |
| `ReplicationRunner.Runner.Check` | internal/replication/runner.go:128-159 | One tick starts exactly the enabled jobs whose slot is free and whose schedule has named an instant since their last run, or since their creation if they never ran, each once, and takes exactly their slots. |
| `ReplicationRunner.Runner.Execute` | internal/replication/runner.go:163-190 | Runs the copy, records its result or its old bookmark if the write works, touches no other job, and frees the slot in every case. |
| `ReplicationRunner.Host.Pipeline` | internal/replication/runner.go:304-319 | A stream is received only if ZFS accepts it; the status separates not launched, cancelled, done and failed, and a failed one may still have been received. |
| `Schedules.NextOfIsNext` | internal/scheduler/schedule.go:101-130 | The next run is the least matching instant strictly after the given one, for all four kinds and every time. |
| `Schedules.NextMinuteMatches` | internal/scheduler/schedule.go:101-130 | The result matches the schedule and is later than the start. |
| `Schedules.MatchesIsWallClock` | internal/scheduler/schedule.go:99-130 | What a schedule names is read off the wall clock: its hour and minute, no seconds, its weekday or day of the month. |
| `Schedules.NextMinuteLeast` | internal/scheduler/schedule.go:101-130 | No matching minute lies between. |
| `Schedules.NextWeekly` | internal/scheduler/schedule.go:116-121 | The day-by-day loop reaches that minute in at most seven turns. |
| `Schedules.Next` | internal/scheduler/schedule.go:101-130 | The stepping code returns the least matching instant. |
| `Calendar.DateStaysInMonth` | internal/scheduler/schedule.go:71-73 | A day of at most 28 never runs on into the next month, so stepping a month never skips one. |
| `Calendar.DateInMonthIff` | internal/scheduler/schedule.go:122-127 | A date stays in its month exactly when the month has that day. |
| `Calendar.MonthUnique` | internal/scheduler/schedule.go:122-127 | Every day lies in exactly one month. |
| `Calendar.YearStartClosed` | internal/scheduler/schedule.go:101-130 | Adding up month lengths gives the closed form of the Gregorian year, leap years included, for every year. |
| `Calendar.EpochIsThursday` | internal/scheduler/schedule.go:116-121 | Year 1970 starts on day 719162, a Thursday, which fixes the weekdays. |
| `Calendar.WeekdaysInTurn` | internal/scheduler/schedule.go:116-121 | Weekdays follow each other round the week. |
| `Calendar.MonthStep` | internal/scheduler/schedule.go:122-127 | Each month has its own length, February by the leap year. |
| `ScheduleText.Parse` | internal/scheduler/schedule.go:35-83 | Whatever is accepted is a schedule within the bounds `Next` relies on. |
| `ScheduleText.ParseHM` | internal/scheduler/schedule.go:86-97 | An accepted hour and minute are in range. |
| `ScheduleText.FormatParses` | internal/scheduler/schedule.go:35-97 | Round trip: every valid schedule has a text that parses back to it. |
| `ScheduleText.HourlyIff` | internal/scheduler/schedule.go:45-52 | Exactly which texts are which hourly schedule. |
| `ScheduleText.DailyIff` | internal/scheduler/schedule.go:53-58 | Exactly which texts are which daily schedule. |
| `ScheduleText.WeeklyIff` | internal/scheduler/schedule.go:59-68 | Exactly which texts are which weekly schedule: the seven names, and a time. |
| `ScheduleText.MonthlyIff` | internal/scheduler/schedule.go:69-78 | Exactly which texts are which monthly schedule: a number from 1 to 28, in however many digits, and a time. |
| `ScheduleText.ParseHMIff` | internal/scheduler/schedule.go:86-97 | Exactly which texts are which time of day. |
| `ScheduleText.AtoiOfDecimal` | internal/scheduler/schedule.go:48-92 | Every number is read as itself, with or without a sign or zeros in front. |
| `ScheduleText.AtoiNeedsDigits` | internal/scheduler/schedule.go:48-92 | A text without digits, or with anything else after its first character, is no number. |
| `ScheduleText.ModifierIgnored` | internal/scheduler/schedule.go:41-58 | A modifier of an hourly or daily schedule is ignored. |
| `ScheduleText.OtherTextsAreRefused` | internal/scheduler/schedule.go:37-81 | Without an @, or with any other kind, a text is refused. |
| `ScheduleText.CutAt` | internal/scheduler/schedule.go:37-41 | Cutting at the first separator splits a text back into the parts it was joined from. |
| `Ticks.DueIffInstantPassed` | internal/scheduler/scheduler.go:233-248 | A job that has run is due exactly when it is enabled and its schedule has named an instant since its last run; one that never ran, since its creation; one of which neither is known is never due. |
| `Ticks.Scheduler.Check` | internal/scheduler/scheduler.go:222-251 | One tick runs exactly the enabled jobs with an instant since their last run, or since their creation if they never ran, each once, and stores the end of those runs whose `MarkRun` worked, and nothing else. |
| `Ticks.Scheduler.Run` | internal/scheduler/scheduler.go:208-219 | Over a whole sequence of ticks, a job whose run was stored is run again only if its schedule has named an instant since that run ended. |
| `Ticks.TickMovesJob` | internal/scheduler/scheduler.go:222-284 | A tick of a stored job is the three moves look, begin and finish of the run theorems below, with the job's last run as base. |
| `Ticks.ManualMovesJob` | internal/scheduler/scheduler.go:254-284 | A run somebody asked for moves the base to its end, too. |
| `Ticks.RepeatsIffStale` | internal/replication/runner.go:128-159 | In every state that ticks, delays, manual runs and results, stored or lost, can lead to: a start is for a later instant than the last start if and only if the last run it read is not before that instant; otherwise it is for the same instant again. |
| `Ticks.RepeatsAreStaleStarts` | internal/replication/runner.go:128-159 | Over every sequence of them: started instants never go back, distinct instants plus stale starts are all starts, and no instant is started twice if and only if no start is stale. |
| `Ticks.NeverStale` | internal/scheduler/scheduler.go:222-284 | A tick that waits for its runs and whose results are stored has no stale start. |
| `Ticks.StartsWithinInstants` | internal/scheduler/scheduler.go:222-284 | So over any sequence of ticks, delays and manual runs the scheduler starts a job at most once for each instant since its base, although the last run is stored without its fraction of a second. |
| `Ticks.LookingDuringARunRepeatsAnInstant` | internal/replication/runner.go:128-159 | The replication tick, which does not wait for its runs, starts two for one instant: a concrete run. |
| `Ticks.LostResultRepeatsAnInstant` | internal/scheduler/scheduler.go:264-280 | A result the store refuses makes the scheduler start the instant again: a concrete run. |
| `SnapshotNames.NameOrder` | internal/replication/runner.go:208-283 | The names compare as strings exactly as the times they were made from, so sorting names sorts by time. |
| `SnapshotNames.NameReads` | internal/replication/runner.go:208 | A name is year, month and day, a dash, hour, minute and second, in four and two digits each. |
| `SnapshotNames.DigitsMean` | internal/replication/runner.go:208 | Digits mean the number they were made from. |
| `SnapshotNames.YearHolds` | internal/replication/runner.go:208 | The year named is the one that holds the day. |
| `SnapshotNames.ClockNumberOrder` | internal/replication/runner.go:208-283 | HHMMSS numbers increase with the second of the day. |
| `SnapshotNames.DateNumberOrder` | internal/replication/runner.go:208-283 | YYYYMMDD numbers increase with the day. |
| `StoredTimes.SampleBeforeCutoff` | internal/db/db.go:268-286 | A stored time compares below a cutoff as text exactly when it is of an earlier day: cutoffs act as whole days. |
| `StoredTimes.DateTextOrder` | internal/series/series.go:85-87 | Dates compare as text as the days they name. |
| `StoredTimes.DayHolds` | internal/db/db.go:268-286 | Days are whole, and counted from the start of 1970. |
| `Longops.LifeOfAnOp` | internal/longops/longops.go:115-162 | Whatever happens to an op and in what order: running, its cancel handle and the absence of an end time are equivalent and last until its one close; afterwards one terminal state for ever, cancelled exactly when cancellation was asked for before the close; its lines are the last min(50, n) printed. |
| `Longops.LifeClosed` | internal/longops/longops.go:115-151 | Nothing that happens after the first close changes an op. |
| `Longops.LifeOpen` | internal/longops/longops.go:155-162 | Until the close the lines kept are the last fifty of all printed, though they are trimmed one at a time. |
| `Longops.Op.AppendLine` | internal/longops/longops.go:155-162 | Adds a line to the ring and changes nothing else. |
| `Longops.Op.Finish` | internal/longops/longops.go:133-148 | Closes an open op as the event semantics says. |
| `Longops.Compact` | internal/longops/longops.go:180-187 | The in-place filter keeps exactly the ops that have not ended or ended at the cutoff or later, in order. |
| `Longops.Manager.Start` | internal/longops/longops.go:98-107 | A new running op goes in front with the largest id. |
| `Longops.Manager.Get` | internal/longops/longops.go:201-213 | The op with that id, or not found exactly when there is none. |
| `Longops.Manager.Cancel` | internal/longops/longops.go:216-245 | Requests cancellation of exactly that op if it still runs, with the two errors told apart; every other op is unchanged. |
| `Longops.Manager.List` | internal/longops/longops.go:176-196 | Forgets exactly what ended more than 3600 seconds ago, in place and in order, and copies out the rest. |
| `Longops.WithoutMembers` | internal/longops/longops.go:180-187 | The purge keeps every op that is not dead and no dead one. |
| `Longops.WithoutOrder` | internal/longops/longops.go:180-187 | The purge keeps the order. |
| `Lttb.Downsample` | internal/series/series.go:125-163 | LTTB returns the points at its sample of indices for 2 <= threshold < n, all data for a threshold of 0 or less or of at least n, and both ends for 1. |
| `Lttb.SampleIncreases` | internal/series/series.go:131-162 | The sampled indices increase strictly, from first to last. |
| `Lttb.SampleUnique` | internal/series/series.go:134-161 | There is only one sample: the greedy choice is determined by the data. |
| `Lttb.BucketsPartition` | internal/series/series.go:147-148 | Every inner index lies in exactly one bucket. |
| `Lttb.BucketNonEmpty` | internal/series/series.go:147-148 | No bucket is empty. |
| `Lttb.NextBucketNonEmpty` | internal/series/series.go:135-148 | All indices stay in range and the averaged range is not empty, so no division is by zero. |
| `Lttb.Pick` | internal/series/series.go:149-158 | The choice is the first point of the bucket with the largest triangle area. |
| `Lttb.AreaIsDeterminant` | internal/series/series.go:153 | The area compared is the determinant of the triangle's sides, without its sign. |
| `Lttb.Mean` | internal/series/series.go:140-146 | The accumulating loop computes the mean point of the range. |
| `Lttb.NextPick` | internal/series/series.go:134-158 | One turn picks the point of its bucket that forms the largest triangle with the last pick and the next bucket's mean. |
| `SeriesRange.Range` | internal/series/series.go:24-58 | The result is the daily means before the cutoff followed by the raw samples from it on, thinned; it is sorted, keeps both ends, has the exact size, and shows only days from `from`'s on and before `to`'s. |
| `SeriesRange.SizeWithinThresholdIff` | internal/series/series.go:54-57 | The promised bound on the number of points holds exactly when the threshold is at least 2 or there is nothing to thin. |
| `SeriesRange.PartsSeparate` | internal/series/series.go:28-53 | The two tables never overlap in a range, so merging them is joining them. |
| `SeriesRange.MergePoints` | internal/series/series.go:105-120 | The two-pointer loop computes the merge. |
| `SeriesRange.MergedFacts` | internal/series/series.go:105-120 | The merge of sorted series is sorted and has exactly their points, with repetitions. |
| `SeriesRange.MergedSeparate` | internal/series/series.go:105-120 | If one series ends before the other begins the merge is their concatenation. |
| `SeriesRange.SelectRawFacts` | internal/series/series.go:61-79 | The raw query returns exactly the samples of the days asked for, in order. |
| `SeriesRange.SelectDailyFacts` | internal/series/series.go:83-101 | The daily query returns exactly the stored days of the range, each at its noon, in order. |
| `SeriesRange.NoonInDay` | internal/series/series.go:85 | A day's mean is shown at twelve o'clock of the day, with the mean as its value. |
| `SeriesRange.SampleSorted` | internal/series/series.go:125-163 | A sample of sorted data is sorted and consists of data. |
| `SeriesStore.RawShownIff` | internal/series/series.go:28-53 | A stored sample of the days asked for is shown if and only if it is not older than the cutoff's day. |
| `SeriesStore.DayShownIff` | internal/series/series.go:28-53 | A stored daily row of the days asked for is shown if and only if it is older than the cutoff's day. |
| `SeriesStore.TablesDivide` | internal/db/db.go:268-291 | Over every history whose samples come in time, the tables divide the days at the last rollup's cutoff. |
| `SeriesStore.RangeMissesIff` | internal/series/series.go:24-58 | Exactly what a range misses of what is stored: the samples of days that the cutoff has passed since the last rollup, and nothing else. |
| `SeriesStore.NothingMissedAfterRollup` | internal/series/series.go:24-58 | Right after a rollup with the same cutoff nothing is missed. |
| `SeriesStore.MidnightGap` | internal/series/series.go:24-58 | Between midnight and the day's rollup a stored sample of a day asked for is in neither part: a concrete store. |
| `Rollup.DailyRowsAreExact` | internal/db/db.go:268-291 | Over any history of inserts and rollups, each daily row is the mean, minimum, maximum and count of exactly the removed samples of its source and day. |
| `Rollup.DailyRowsFit` | internal/db/db.go:268-291 | The same in plain terms, over any history: every sample removed has a row of its source and day; each row counts exactly the removed samples of that source and day, its average times its count is their sum, and its minimum and maximum are of them and bound them. |
| `Rollup.AggregatedCounts` | internal/db/db.go:271-283 | One statement has rows for the old ones and for the sources and days of the group, and each count grows by the samples of its own source and day. |
| `Rollup.UpsertIsBatch` | internal/db/db.go:278-282 | Folding a group into a row gives the aggregate of both groups together. |
| `Rollup.AggregatedDescribes` | internal/db/db.go:271-283 | One upsert statement keeps every daily row exact. |
| `Rollup.SamplesConserved` | internal/db/db.go:268-291 | Every sample inserted is either still raw or was removed into its day, once. |
| `Rollup.CountsConserved` | internal/db/db.go:268-291 | Daily counts and raw samples together always number the samples inserted. |
| `Rollup.RerunChangesNothing` | internal/db/db.go:265-291 | A second rollup with the same cutoff changes nothing. |
| `Rollup.PurgeAfterRollupIsSafeIff` | internal/db/db.go:256-263 | The purge after a rollup deletes no unaggregated sample if and only if no raw sample lies between the two cutoffs. |
| `Rollup.UpsertGroups` | internal/db/db.go:271-283 | The group-by-group upsert computes the aggregated table. |
| `Rollup.Db.RollupToDaily` | internal/db/db.go:268-291 | Leaves exactly the samples not older than the cutoff's day, reports how many went, and leaves every daily row fitting exactly the samples removed of its source and day. |
| `RateGuard.AtMostMaxInAnyWindow` | internal/httpapi/httpapi.go:271-287 | For all request times: no closed interval of the window's length holds more than `max` admissions. |
| `RateGuard.AdmittedIff` | internal/httpapi/httpapi.go:271-287 | A request is admitted if and only if fewer than `max` admissions are at most a window old. |
| `RateGuard.RequestsKept` | internal/httpapi/httpapi.go:271-287 | The stored hits are exactly the admissions of the last window. |
| `RateGuard.Bucket.Allow` | internal/httpapi/httpapi.go:271-287 | The trimming loop decides as the one-address semantics and leaves other addresses alone. |
| `LoginLimiter.AtMostFivePerMinute` | internal/httpapi/auth_handlers.go:72-90 | Over every run whose attempts are in order of time, whenever their failures arrive, any minute (x, x+60s] holds at most five admitted attempts of a key, and its failure count stays below ten. |
| `LoginLimiter.AdmittedIff` | internal/httpapi/auth_handlers.go:72-90 | An attempt is admitted if and only if no block stands and fewer than five were admitted in the last minute. |
| `LoginLimiter.CountsFromSuccess` | internal/httpapi/auth_handlers.go:102-130 | After a success only the failures since count: their number modulo ten is the count, and the key has a block exactly if they are ten or more. |
| `LoginLimiter.RetryAfterIsExact` | internal/httpapi/auth_handlers.go:86-88 | A key refused for a full minute is admitted later exactly from when the answer told it to come back. |
| `LoginLimiter.TenthFailureBlocks` | internal/httpapi/auth_handlers.go:116-130 | The tenth failure without a success between blocks the key for fifteen minutes from the time its login began. |
| `LoginLimiter.BlockLastsIff` | internal/httpapi/auth_handlers.go:116-130 | Without a success a block is lifted early if and only if ten more failures follow, the tenth of a login that began long enough before. |
| `LoginLimiter.BlockHolds` | internal/httpapi/auth_handlers.go:74-76 | While a block lasts nothing is admitted. |
| `LoginLimiter.TenFailuresLockOut` | internal/httpapi/auth_handlers.go:116-130 | After ten consecutive failures no attempt is admitted for fifteen minutes, unless a success comes between or ten more failures shorten the block. |
| `LoginLimiter.LaterLoginsShortenNothing` | internal/httpapi/auth_handlers.go:116-130 | Failures of logins that began no earlier shorten nothing. |
| `LoginLimiter.FewFailuresShortenNothing` | internal/httpapi/auth_handlers.go:116-130 | Fewer failures than make another block shorten nothing. |
| `LoginLimiter.EarlierLoginsShorten` | internal/httpapi/auth_handlers.go:116-130 | Ten failures of earlier logins that arrive later do shorten it, for every such pair of times. |
| `LoginLimiter.SlowLoginsShorten` | internal/httpapi/auth_handlers.go:51-130 | A run from the key's first attempt that does it, for any four times a minute apart within fourteen: twenty admitted attempts, and twenty failures of them, one of each. |
| `LoginLimiter.Limiter.Allow` | internal/httpapi/auth_handlers.go:51-91 | Decides as the one-key semantics, says when to retry, and leaves other keys alone. |
| `LoginLimiter.Limiter.Failure` | internal/httpapi/auth_handlers.go:116-130 | Counts for a known key, blocks it at ten, and leaves other keys alone. |
| `LoginLimiter.Limiter.Success` | internal/httpapi/auth_handlers.go:102-113 | Of a known key, sets the failures to zero, lifts the block and leaves the window; touches no other key, and no unknown one. |
| `McpLimiter.AtMostTwicePerMinute` | internal/mcp/auth.go:73-97 | Over every run with nondecreasing times, no closed minute holds more than twice the limit. |
| `McpLimiter.AdmittedIff` | internal/mcp/auth.go:82-87 | A request passes if and only if it opens a window, or fewer than the limit were admitted since the open one was opened. |
| `McpLimiter.TwiceIsReached` | internal/mcp/auth.go:82-87 | For every positive limit there is a run in which a minute holds twice the limit: the bound is exact. |
| `McpLimiter.RequestsGrouped` | internal/mcp/auth.go:82-87 | Admissions fall into windows at least a minute apart, none holding more than the limit. |
| `McpLimiter.Limiter.Allow` | internal/mcp/auth.go:77-88 | Decides as the one-address semantics and leaves other addresses alone. |
| `Hub.OnlyOverflowIsLost` | internal/hub/hub.go:39-52 | What a subscriber received plus what is buffered is an in-order part of what was published while it was subscribed; an event is missing only if 32 were outstanding when it was published. |
| `Hub.OfferedIff` | internal/hub/hub.go:46-51 | An event is buffered if fewer than 32 are outstanding and lost otherwise; nothing else of the channel changes. |
| `Hub.Hub.Publish` | internal/hub/hub.go:39-52 | Offers the event once to every subscriber, waits for none, never sends on a closed channel. |
| `Hub.Hub.Subscribe` | internal/hub/hub.go:55-65 | A new open channel is registered; on a closed hub the channel is new, closed and not registered. |
| `Hub.Hub.Unsubscribe` | internal/hub/hub.go:90-94 | Forgets exactly that channel. |
| `Hub.Hub.UserActive` | internal/hub/hub.go:75-87 | True exactly when a named user has a registered channel. |
| `Hub.Hub.Close` | internal/hub/hub.go:97-108 | Closes every subscriber's channel once, keeps what they buffer, and leaves a closed hub without subscribers. |
| `Hub.Channel.TrySend` | internal/hub/hub.go:46-51 | A send that never blocks keeps received and buffered equal to what was delivered. |
| `Webhook.FateExact` | internal/webhook/webhook.go:150-184 | An event is delivered if and only if some reply accepts it and none before is permanent; nothing follows an acceptance or a permanent refusal; a dead letter was refused for good or used all its retries. |
| `Webhook.PermanentIff` | internal/webhook/webhook.go:168-170 | Permanent refusals are the statuses 400 to 499 but 429. |
| `Webhook.WaitsDouble` | internal/webhook/webhook.go:177-181 | The wait after a refusal is the delay at first and twice as much after each attempt, plus the jitter; after no answer there is none. |
| `Webhook.RefusedSleepsAll` | internal/webhook/webhook.go:177-181 | If every attempt is refused the waits add up to the delay times 2^n - 1 and the jitters. |
| `Webhook.SendWithRetry` | internal/webhook/webhook.go:161-183 | The retry loop has that outcome after that many attempts, sleeps exactly those waits, and less than D*(2^Retries - 1 + Retries). |
| `Webhook.Notifier.Notify` | internal/webhook/webhook.go:95-106 | Accepts an event unless closed or full, and never waits. |
| `Webhook.Notifier.Close` | internal/webhook/webhook.go:110-115 | Stops acceptance for good and changes nothing else. |
| `Webhook.Notifier.Work` | internal/webhook/webhook.go:117-127 | Takes the oldest event; with a URL set it ends in exactly one of delivered or undelivered, and the undelivered are dead letters unless their insert failed; events are taken in the order they were accepted. |
| `Push.WindowIsCircular` | internal/push/prefs.go:149-171 | The window test equals (h - start) mod 24 < (end - start) mod 24. |
| `Push.SkipsFacts` | internal/push/push.go:153-170 | Each user is decided for once, by what is answered at the first device met; a critical alert passes nobody over. |
| `Push.DirectFacts` | internal/push/push.go:155-178 | An alert is sent at once exactly to the devices of users not passed over who, unless it is critical, do not have the app open when the device is met; once each; a critical one to every device. |
| `Push.QueuedFacts` | internal/push/push.go:161-173 | It is queued exactly for users whose window is open when their first device is met, once per user however many devices, and never if it is critical. |
| `Push.DirectIff` | internal/push/push.go:155-178 | In plain terms: an alert that is not critical goes at once to a device exactly if its kind was on and the window closed when the user's first device was met, and the app not open when this one was; a critical one always. |
| `Push.QueuedIff` | internal/push/push.go:161-173 | It waits for the user exactly if it is not critical, its kind was on, and the window open, when the first device was met. |
| `Push.DeliveryFacts` | internal/push/prefs.go:290-300 | A queued alert goes to its user's devices in turn, once each, up to the first at which the app is open, and to none if its kind was switched off. |
| `Push.DeliveriesFacts` | internal/push/prefs.go:290-300 | A drain hands out one user's alerts in the order of their rows and repeats none, whatever is answered on the way. |
| `PushRuns.DoKeeps` | internal/push/push.go:137-179 | Every step of subscriptions, alerts and drains, from any state a run can reach and with any other steps between, keeps every push unique per device, owner and alert, every row unique per user and alert, and no row waiting for an alert its user was handed, except rows that the drain under way has begun. |
| `PushRuns.AfterKeeps` | internal/push/push.go:137-179 | So does every run. |
| `PushRuns.LookKeeps` | internal/push/push.go:155-178 | A turn of `Notify`, also in the middle of drains and other alerts, keeps it. |
| `PushRuns.TurnKeeps` | internal/push/prefs.go:290-300 | So does a turn of a drain. |
| `PushRuns.ClearKeeps` | internal/push/prefs.go:301-310 | So does deleting the rows. |
| `PushClaims.HandedOncePerOwner` | internal/push/push.go:137-179 | Over every run, as long as a device is one user's it is handed an alert at most once. |
| `PushClaims.RepeatsIff` | internal/push/push.go:155-178 | One step hands an alert to a device a second time if and only if its turn is at a device that was handed the alert before and whose user is to be handed it now. |
| `PushClaims.DeviceOnceIff` | internal/push/push.go:94-179 | Over every run, each device is handed each alert at most once if and only if there is no such turn. |
| `PushClaims.FixedOwnersOncePerDevice` | internal/push/push.go:94-117 | If no device ever changes hands, each device is handed each alert at most once. |
| `PushWitnesses.ReassignedDeviceIsHandedTwice` | internal/push/push.go:94-117 | A run in which a browser that changes hands is handed one alert twice. |
| `PushClaims.IntoWindowIff` | internal/push/prefs.go:243-300 | A step hands an alert that is not critical to a user whose window is open at that moment if and only if its turn meets a window that has opened since the program asked: since the user's first device was met, or since the tick that began the drain. |
| `PushClaims.NeverIntoWindowIff` | internal/push/prefs.go:223-302 | Over every run, no alert that is not critical is handed out in an open window if and only if no turn meets a window opened since. |
| `PushClaims.NoneIntoWindowUntilOneOpens` | internal/push/prefs.go:223-302 | So from every state a run can reach with nothing under way, none is, whatever happens, as long as no window opens. |
| `PushWitnesses.DrainIntoWindow` | internal/push/prefs.go:243-300 | A run in which the tick finds the window closed and the push goes out when it has opened. |
| `PushWitnesses.AlertIntoWindow` | internal/push/push.go:157-177 | A run in which the window opens between two devices of one user. |
| `PushClaims.LateStep` | internal/push/prefs.go:191-200 | A row comes too late for a drain exactly if an alert is queued for the drain's user between its read and its delete. |
| `PushClaims.ClearTakes` | internal/push/prefs.go:253-310 | The delete takes exactly the rows read and the late ones: it loses nothing if and only if none is late. |
| `PushClaims.LateRowsAreLost` | internal/push/prefs.go:301-310 | A row that is late at the delete is never handed out, whatever happens afterwards. |
| `PushWitnesses.AlertDuringDrainIsLost` | internal/push/prefs.go:253-310 | A run in which an alert queued during a drain is lost. |
| `PushSender.Meet` | internal/push/push.go:155-177 | The body of the loop, in plain terms: who is decided for and how, what is sent and what queued, by the kinds off, the windows open, the apps open and the level; and that is the step semantics. |
| `PushSender.Sender.Subscribe` | internal/push/push.go:94-117 | A device belongs to its latest subscriber; other devices are unchanged. |
| `PushSender.Sender.Unsubscribe` | internal/push/push.go:120-124 | Removes the device only if it is that user's. |
| `PushSender.Sender.Look` | internal/push/push.go:155-178 | One turn of the loop is one step, and keeps the invariant. |
| `PushSender.Sender.Notify` | internal/push/push.go:137-179 | With nothing between its turns, the alert goes to exactly the devices, and waits for exactly the users, that the answers given at each device say. |
| `PushSender.Sender.Turn` | internal/push/prefs.go:290-300 | One turn of the drain's loops is one step, and keeps the invariant. |
| `PushSender.Sender.HandRow` | internal/push/prefs.go:290-300 | With nothing between its turns, the inner loop hands out exactly the pushes of one row. |
| `PushSender.Sender.ClearQueue` | internal/push/prefs.go:305-310 | Deletes all the user's rows. |
| `PushSender.Sender.DrainUser` | internal/push/prefs.go:253-302 | A whole drain hands out all that waited for the user, in order, asking again at each row and device, and clears exactly that user's rows. |
| `PushSender.Sender.DrainQueue` | internal/push/prefs.go:223-250 | Every user whose window the tick finds closed is handed all that waited; nothing happens to a user whose window it finds open. |
| `PushSender.DrainedApart` | internal/push/prefs.go:253-310 | Draining one user leaves every other user alone. |
| `Alerts.Alerter.RaiseKind` | internal/alerts/alerts.go:85-147 | Uninterrupted, it keeps at most one active alert per source and kind, or per source and message without a kind; a repeat only refreshes, and one event is announced per row inserted. |
| `Alerts.Alerter.Ack` | internal/alerts/alerts.go:399-404 | Acknowledges exactly that alert, once. |
| `Alerts.Alerter.TrackPools` | internal/alerts/alerts.go:268-320 | After a pass every pool seen before and gone too long has exactly one active alert, however often the pass runs, and no other row changes. |
| `Alerts.Alerter.NotePools` | internal/alerts/alerts.go:273-282 | A pool is missing exactly when it was known, is not seen now and its last sighting is older than the window. |
| `Alerts.Alerter.MissingPools` | internal/alerts/alerts.go:324-346 | Returns exactly the missing pools. |
| `Alerts.OnlyOne` | internal/alerts/alerts.go:92-105 | A deduplicated table with an active alert for a pool has exactly one. |
| `Alerts.StillReported` | internal/alerts/alerts.go:313-319 | Raising or refreshing alerts never loses another pool's alert. |
| `AlertRaces.DoublesSinceSelect` | internal/alerts/alerts.go:85-121 | One raise from its select to its write, whatever happens between: its write makes a second active alert if and only if its select found none and another raise of its subject has inserted one since that is still active. |
| `AlertRaces.DeduplicatedIff` | internal/alerts/alerts.go:85-147 | Over every interleaving of selects, writes and acknowledgements, there is at most one active alert of each subject all the time if and only if no insert is overtaken in that way. |
| `AlertRaces.OvertakenIff` | internal/alerts/alerts.go:92-121 | The same for one step. |
| `AlertRaces.UninterruptedNeverDoubles` | internal/alerts/alerts.go:92-121 | A raise that nothing interrupts between its select and its write keeps one alert per subject. |
| `AlertRaces.UninterruptedRaises` | internal/alerts/alerts.go:92-121 | Uninterrupted, it refreshes the active row of its kind, leaves an active row of its message alone, and otherwise inserts. |
| `AlertRaces.TwoSelectsDouble` | internal/alerts/alerts.go:92-121 | Two raises of a new subject that both select before either writes leave two active alerts. |

## Left out

- Calendar: daylight-saving changes; the offset from UTC is fixed.
- Zfs: the state a resumable receive keeps after a failure, `-w`, ssh, and snapshots below the source or destination.
- ReplicationSystem: creating and deleting jobs, edits of anything but `force_full`, and a daemon restarted during a run, which frees every slot.
- ReplicationRunner.Runner.Check: jobs whose stored schedule does not parse are skipped by the code and absent from the model, which starts from parsed schedules.
- ReplicationRunner.Host.Pipeline: the polling of `waitOp` is one step, whose fate is how the op ended.
- ReplicationRunner.SortStamps: `sort.Strings` is a library call; it is modelled as taking the least again and again.
- Longops.Manager.Start: ids carry the second and a counter; the model keeps the counter, which is what makes them unique. Launching the process and killing its group are outside.
- Lttb.Downsample: rounding of floating point; with it `every` times an index can fall just below a whole number.
- SeriesRange.Range: failing queries.
- Rollup.Db.RollupToDaily: a failure between the two statements, and two different times within them.
- StoredTimes.SampleBeforeCutoff: times before 1970 and after the year 9999.
- LoginLimiter.Limiter.Allow: the clean-up above 1024 keys, which can drop the entry just made; so the results are for at most 1024 keys. The code reckons the wait of a blocked key from a second reading of the clock, the model from the same one.
- Webhook.SendWithRetry: what each POST answers and the jitter are parameters; signing and payloads are outside.
- Webhook.Notifier.Close: the choice a closed worker makes between stopping and one more event may go either way.
- PushSender.Sender.DrainQueue: rows that do not decode are dropped by the code and absent here; a delete that fails leaves rows that are handed out again.
- PushSender.Sender.Notify: the retries, timeouts and removals of `sendTo`; a push handed over is not necessarily received. A failing insert into the queue.
- Alerts.Alerter.RaiseKind: target, meta and time of a row; email, channels, and failing statements. An alert's text is a parameter. Raises that overlap are in `AlertRaces`.
- Alerts.Alerter.TrackPools: the message's minutes.
- Alerts.Alerter.MissingPools: the order of the list.
- Hub.Hub.Publish: event data is text here; the HTTP stream that empties the channels is the client.
- Removing daily rows, migrations, settings, capability flags, collectors, HTTP routes, authentication other than its limiter, mail and the user interface: they would add easy members or are foreign code.
