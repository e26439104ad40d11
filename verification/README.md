# FOIMS server: verified models of its stateful parts

Dafny models of the parts of the FOIMS server whose correctness depends on state that lives across many
calls, and proofs of what those parts promise over whole runs. `dafny verify dfyconfig.toml` checks
everything.

| files | part of the server |
|---|---|
| `AlertEpisode`, `AlertRuns`, `AlertDiagram`, `AlertTheorems`, `AlertRules` | alert episodes: the Pending/Active/Resolved machine and the runtime that keeps it in memory and in a table |
| `MetricsAggregator`, `AggregatorTheorems`, `AggregatorRules`, `AggregatorLosses` | five-minute buckets: watermark, change of keys, flush, failed and conflicting writes |
| `MetricsRollup`, `RollupAccuracy`, `RollupTask` | hourly rows made of five-minute rows, and the task that keeps them up to date |
| `HistoryPipeline` | both layers together: from readings to hourly rows |
| `LiveRegistry`, `LiveStream` | registries of live snapshots and the change stream that watches them |
| `AppFail2ban`, `TrapCooldown` | tables that forget: login failures and SNMP notification sources |
| `ArArchive` | the `ar` container of Debian packages, written and read |
| `AgentHistory` | thinning out history curves |
| `UserDelete` | deleting users without losing the last administrator |
| `Wrappers`, `Rounding`, `Extremes` | shared definitions |

Each stateful part is a class whose methods follow the source statement by statement. A method is proved
equal to a function on values, and the theorems are about runs: sequences of these functions with every
interleaving, failure and restart that the part has to live with. What one call does at any point of a run
is stated once more in plain numbers, without those functions: `AlertRules` and `AggregatorRules` for the
two largest parts, lemmas such as `AcceptedIff`, `DueIffOutOfDate` and `OutcomeIs` for the others. Time is in whole seconds, readings and
averages are reals, tables and concurrent maps are maps, and the outcome of every write, query and
delivery is a parameter.

## What turned out not to hold

The code is modelled as it is. Where it does not keep what its comments say, a lemma shows a run and
another tells exactly when it does keep it.

- The recovery cooldown is forgotten when a Pending record dissolves, and likewise by purge and cleanup:
  `CooldownIsForgotten` opens twice within 40 seconds under a cooldown of 600. `CooldownExactly` gives the
  condition: an alert that is due opens if and only if the cooldown has passed or the record was deleted since.
- A restart can read back something other than what memory held: an older record after a failed write
  (`LostWriteRepeatsRecovery`: an alert recovers twice while its readings travel one band and a bit), or a
  recovery that memory has purged and the table, by the clock of the database, has not (`PurgedRecoveryComesBack`).
  `RuntimeFollowsIff` gives the condition: the runtime follows its state diagram if and only if every restart
  reads back the course that memory held, or nothing if no alert is open. All promises are proved for the runs
  that meet it, whatever writes fail; an upsert, or a flush of a dirty entry, makes good what failed before.
- A failed upsert of a transition is not retried: after a recovery whose upsert fails, flushes that work leave the
  row open (`FailedTransitionIsNotRetried`). `FlushSettlesIff` gives the condition: after a flush whose writes work
  memory and table hold the same if and only if every clean entry equalled its row before and every row has an entry.
- The comment of `metrics_aggregator.rs` says that a change of keys loses no data. The two halves of the
  window share one row key, and the half whose write works first gets the row (`FirstWriteWins`). The later half
  is lost if a flush comes between the change and the time the window is due, as it does every 30 seconds
  while readings arrive in time (`LaterHalfIsRejected`); the earlier half is lost if both leave in one flush,
  where the live bucket is written before the stale one (`EarlierHalfIsRejected`). `LosesIffReopened` gives the
  condition for all runs: a run can lose frames if and only if a frame began a bucket for a host and window
  that had one already.
- The same comments say that a bucket waits 600 seconds after its window has ended. The code counts from the
  start of the window, which leaves 300 (`MetricsAggregator.Flush`).
- `sample_series` keeps the first and the last point, but the query before it drops the newest row whenever
  there are more than 600 (`NewestIsKeptIff`).
- A member name of the `ar` writer that ends with a slash reads back without it; every other name and all
  data survive (`RoundTrip`).

## Model

| member | source | states |
|---|---|---|
| AlertEpisode.LevelsCutTheLine | crates/foims-agent-service/src/alert_episode.rs:110-124 | a reading is over above the threshold, under from `hysteresis_pct` percent of it below, and in the band between |
| AlertEpisode.Episode.Promote | crates/foims-agent-service/src/alert_episode.rs:227-240 | a Pending opens, at this instant, exactly when sustain time and cooldown have passed; `AlertRules.OpensIff` says when in seconds |
| AlertEpisode.Episode.Remind | crates/foims-agent-service/src/alert_episode.rs:291-308 | an open alert seen again is resent outside the quiet window or without notifications, refreshed at most once a minute inside |
| AlertEpisode.Episode.Restart | crates/foims-agent-service/src/alert_episode.rs:321-332 | an excess after a recovery starts a new episode that remembers only the recovery |
| AlertEpisode.Episode.Step | crates/foims-agent-service/src/alert_episode.rs:253-340 | one step of the in-place machine is one step of the value-level machine, effects included; `AlertRules` says in numbers what that step is |
| AlertEpisode.SplitJoinRoundTrip | crates/foims-agent-service/src/alert_episode.rs:457-462 | any list of ids written to the column reads back the same |
| AlertEpisode.JoinedByCommas | crates/foims-agent-service/src/alert_episode.rs:833-839 | the column holds the ids with one comma between two of them |
| AlertEpisode.SplitAtComma | crates/foims-agent-service/src/alert_episode.rs:457-462 | any column is read piece by piece between its commas, and a piece that is no UUID is skipped |
| AlertEpisode.RowRoundTrip | crates/foims-agent-service/src/alert_episode.rs:428-453 | a row read back is the episode that was written, but for the refresh throttle |
| AlertEpisode.AlertRuntime.ApplyEffects | crates/foims-agent-service/src/alert_episode.rs:687-750 | what a delivery and a write, each successful or not, leave in the episode and in the table |
| AlertEpisode.AlertRuntime.EvaluateMetric | crates/foims-agent-service/src/alert_episode.rs:634-685 | one evaluation: fast path, step, dissolution, effects, on memory and table |
| AlertEpisode.AlertRuntime.FlushDirty | crates/foims-agent-service/src/alert_episode.rs:886-903 | exactly the dirty and unwritten entries are written and marked, those whose write fails stay as they are, and so does everything else |
| AlertEpisode.AlertRuntime.CleanupMissing | crates/foims-agent-service/src/alert_episode.rs:949-973 | an entry stays exactly if its host is active, and its row unless the delete works; nothing happens when the query fails |
| AlertEpisode.AlertRuntime.PurgeResolved | crates/foims-agent-service/src/alert_episode.rs:977-993 | recoveries older than an hour leave memory by the clock of the process and the table by that of the database |
| AlertEpisode.PurgedAt | crates/foims-agent-service/src/alert_episode.rs:977-993 | an entry or row goes exactly if it is resolved for more than 3600 seconds by its clock |
| AlertEpisode.AlertRuntime.Hydrate | crates/foims-agent-service/src/alert_episode.rs:536-564 | memory after a start holds every readable row |
| AlertEpisode.HydratedAt | crates/foims-agent-service/src/alert_episode.rs:426-453 | a row is read exactly if its status is one of the three words and its threshold fits a byte, column by column |
| AlertRuns.Replay | crates/foims-agent-service/src/alert_episode.rs:494-1016 | the methods, in any order, carry out the run that the theorems speak about |
| AlertRuns.RestartKeepsCoherence | crates/foims-agent-service/src/alert_episode.rs:536-564 | a restart keeps exactly the written record of a key, with its status, times and notifications |
| AlertRuns.ApplyKeepsCoherence | crates/foims-agent-service/src/alert_episode.rs:634-750 | every operation keeps memory and table coherent for a key if the writes it has to make for it work, and a purge takes the key out of both or of neither |
| AlertRuns.CoherenceLasts | crates/foims-agent-service/src/alert_episode.rs:634-750 | from any state in which they agree on a key, memory and table agree as long as writes for it work |
| AlertRuns.RunIsCoherent | crates/foims-agent-service/src/alert_episode.rs:24-26 | while writes for a key work, its row exists exactly if the entry was written, agrees with it on status and times, and equals it when clean |
| AlertRuns.UpsertRestores | crates/foims-agent-service/src/alert_episode.rs:687-750 | an upsert that works makes memory and table agree, whatever failed before |
| AlertRuns.FlushRestores | crates/foims-agent-service/src/alert_episode.rs:886-903 | a flush of a dirty or unwritten entry that works makes them agree, whatever failed before |
| AlertRuns.PurgeLeavesUnresolved | crates/foims-agent-service/src/alert_episode.rs:977-993 | a purge by any two clocks, working or not, leaves agreement on a pending or open entry alone |
| AlertRuns.RunIsShaped | crates/foims-agent-service/src/alert_episode.rs:634-903 | in every run, whatever writes fail and whenever it restarts, every entry and every row has the shape that a step of the machine gives it |
| AlertRuns.RestartOfSettled | crates/foims-agent-service/src/alert_episode.rs:536-564 | a restart after a complete flush changes nothing but the refresh throttle |
| AlertRuns.FlushSettlesIff | crates/foims-agent-service/src/alert_episode.rs:886-903 | after a flush whose writes work, memory and table hold the same if and only if every clean entry equalled its row before and every row has an entry |
| AlertRuns.FlushSettles | crates/foims-agent-service/src/alert_episode.rs:886-903 | so they do after a run whose writes have worked |
| AlertDiagram.CooldownDecides | crates/foims-agent-service/src/alert_episode.rs:225-234 | on the state diagram: a due alert opens if and only if the cooldown has passed or the record was forgotten |
| AlertDiagram.FlappingTravels | crates/foims-agent-service/src/alert_episode.rs:14-22 | on the state diagram: N recoveries take readings that travel (2N - 1) bands |
| AlertTheorems.RuntimeFollowsIff | crates/foims-agent-service/src/alert_episode.rs:12-26 | in every run, whatever writes fail, the runtime refines the state diagram of a host and metric if and only if every restart reads back what memory held |
| AlertTheorems.AgreementServes | crates/foims-agent-service/src/alert_episode.rs:536-564 | restarts do so wherever memory and table agree on the record |
| AlertTheorems.GoodWritesServe | crates/foims-agent-service/src/alert_episode.rs:536-564 | in particular when no restart follows a failed write for the record |
| AlertTheorems.RuntimeFollows | crates/foims-agent-service/src/alert_episode.rs:12-26 | then the runtime opens, resends, recovers and forgets exactly where the diagram does |
| AlertTheorems.SustainedExcess | crates/foims-agent-service/src/alert_episode.rs:227-284 | before every opening all readings of at least for_secs seconds were above the threshold of their evaluation, missing ones aside; from 2^63 on the cast makes for_secs n - 2^64 |
| AlertTheorems.OpensOnce | crates/foims-agent-service/src/alert_episode.rs:24-26 | between two openings lies a recovery or a cleanup of the host, whatever restarts happen: no fault opens twice |
| AlertTheorems.CooldownExactly | crates/foims-agent-service/src/alert_episode.rs:225-247 | an excess found for_secs after its Pending began, after a recovery, opens if and only if cooldown_secs have passed or the record was deleted since, both windows in seconds and with the wrap from 2^63 on |
| AlertTheorems.CooldownHolds | crates/foims-agent-service/src/alert_episode.rs:225-247 | while the record lives, every opening is at least cooldown_secs seconds after every earlier recovery; from 2^63 on the cast makes it n - 2^64 |
| AlertTheorems.NoticesApart | crates/foims-agent-service/src/alert_episode.rs:227-308 | two notices of one host and metric are at least m seconds apart if all quiet_secs and for_secs are at least m and below 2^63, across dissolution, purge, cleanup and restart |
| AlertTheorems.NotificationRate | crates/foims-agent-service/src/alert_episode.rs:1-2 | under those windows a span of T seconds holds at most 1 + T/m notices |
| AlertTheorems.HysteresisBoundsFlapping | crates/foims-agent-service/src/alert_episode.rs:101-124 | N recoveries take readings that travel at least (2N - 1) times `hysteresis_pct` percent of the threshold, whatever is deleted or reloaded on the way |
| AlertTheorems.CooldownIsForgotten | crates/foims-agent-service/src/alert_episode.rs:282-283 | a run whose record dissolves opens again before the cooldown has passed |
| AlertTheorems.LostWriteRepeatsRecovery | crates/foims-agent-service/src/alert_episode.rs:722-741 | a recovery whose write fails happens again after a restart, without the readings that should lie between |
| AlertTheorems.PurgedRecoveryComesBack | crates/foims-agent-service/src/alert_episode.rs:977-993 | with the process ahead of the database a purged recovery returns with a restart and holds back an alert that is due |
| AlertTheorems.FailedTransitionIsNotRetried | crates/foims-agent-service/src/alert_episode.rs:716-729 | a recovery whose upsert fails stays open in the table although later flushes work |
| AlertRules.OpensIff | crates/foims-agent-service/src/alert_episode.rs:227-284 | in every run an evaluation opens an alert if and only if its reading is above the threshold, none is open, for_secs seconds have passed since the Pending began, be it now, and cooldown_secs since the recovery on record |
| AlertRules.ResendsIff | crates/foims-agent-service/src/alert_episode.rs:291-308 | it sends an open alert again if and only if the reading is above the threshold and the last notification is quiet_secs old or missing |
| AlertRules.RefreshesIff | crates/foims-agent-service/src/alert_episode.rs:291-308 | it refreshes if and only if it would resend but for the quiet window and the last refresh is 60 seconds old or missing |
| AlertRules.RecoversIff | crates/foims-agent-service/src/alert_episode.rs:110-124 | an open alert recovers if and only if the reading is `hysteresis_pct` percent below the threshold or lower |
| AlertRules.ExcessLeaves | crates/foims-agent-service/src/alert_episode.rs:262-337 | every field of the record after a reading above the threshold: counted on, or a new record after a recovery, with the ids and the instant of a delivery that works |
| AlertRules.RecoveryLeaves | crates/foims-agent-service/src/alert_episode.rs:311-314 | every field of the record after a recovery |
| AlertRules.OthersLeave | crates/foims-agent-service/src/alert_episode.rs:258-320 | any other evaluation dissolves a Pending found not above its threshold and changes nothing else but the threshold |
| AlertRules.RowAfter | crates/foims-agent-service/src/alert_episode.rs:634-750 | when an evaluation deletes or writes the row, and each column it writes |
| AlertRules.RefreshesApart | crates/foims-agent-service/src/alert_episode.rs:298-308 | while an alert stays open and the process runs, two refreshes are at least 60 seconds apart |
| MetricsAggregator.Accumulate | crates/foims-agent-service/src/metrics_aggregator.rs:122-131 | every finite value of a reading is added to its accumulator, everything else is skipped |
| MetricsAggregator.SummaryExtends | crates/foims-agent-service/src/metrics_aggregator.rs:44-72 | accumulating one more reading is recomputing sum, extremes, last value and count from all of them |
| MetricsAggregator.MetricsAggregator.IngestFrame | crates/foims-agent-service/src/metrics_aggregator.rs:99-132 | watermark, change of keys and bucket of one reading; `AggregatorRules` says from the accepted readings alone what becomes of it |
| MetricsAggregator.BucketStartIs | crates/foims-agent-service/src/metrics_aggregator.rs:121-132 | the window of an instant is the one multiple of 300 at most 299 seconds before it, also before 1970 |
| AggregatorRules.AcceptedIff | crates/foims-agent-service/src/metrics_aggregator.rs:99-112 | after any run a reading is accepted if and only if it is an object and later than every accepted reading of its host |
| AggregatorRules.SameKeysContinue | crates/foims-agent-service/src/metrics_aggregator.rs:113-132 | with the keys of the last accepted reading it joins the live bucket of its window, nothing becomes stale and the other buckets stay |
| AggregatorRules.NewKeysSetAside | crates/foims-agent-service/src/metrics_aggregator.rs:113-132 | with other keys, or as the first of its host, it moves every live bucket to the stale list and begins a new one |
| AggregatorRules.OthersUntouched | crates/foims-agent-service/src/metrics_aggregator.rs:99-112 | a reading that is not accepted changes nothing, and none changes another host or what has left |
| AggregatorRules.RowHolds | crates/foims-agent-service/src/metrics_aggregator.rs:198-220 | a stored row has, for exactly the metrics with a finite value, their count, extremes, last value and mean to the nearest ten-thousandth |
| AggregatorRules.ValuesArePlaced | crates/foims-agent-service/src/metrics_aggregator.rs:122-131 | those values are the finite ones of its readings, in order and none left out |
| MetricsAggregator.MetricsAggregator.TakeExpired | crates/foims-agent-service/src/metrics_aggregator.rs:183-196 | what is due and what is stale leaves the host and waits to be written |
| MetricsAggregator.MetricsAggregator.SettleWrite | crates/foims-agent-service/src/metrics_aggregator.rs:158-179 | a write fails and returns to the stale list, makes its row, or is rejected because the row exists |
| MetricsAggregator.MetricsAggregator.WriteOut | crates/foims-agent-service/src/metrics_aggregator.rs:158-179 | the writes one by one: every batch makes its row, is rejected because another's row is there, or waits as its write failed |
| MetricsAggregator.MetricsAggregator.FlushCutoff | crates/foims-agent-service/src/metrics_aggregator.rs:148-180 | one flush is a run of takes and writes: exactly what begins up to the cutoff and what is stale leaves, and each of it is in its row, rejected for another's row, or, if its write failed, stale |
| MetricsAggregator.MetricsAggregator.Flush | crates/foims-agent-service/src/metrics_aggregator.rs:135-138 | a bucket stays exactly until 600 seconds after its start; what leaves is stored, rejected or stale as above |
| MetricsAggregator.MetricsAggregator.FlushAll | crates/foims-agent-service/src/metrics_aggregator.rs:143-145 | at shutdown every bucket that has begun leaves and is stored, rejected for another's row, or stale; one that begins in the future stays |
| AggregatorTheorems.FramesAreConserved | crates/foims-agent-service/src/metrics_aggregator.rs:11-22 | under every interleaving of readings, takes, failures, conflicts and retries each frame is held as often as it was accepted |
| AggregatorTheorems.EachFrameOnce | crates/foims-agent-service/src/metrics_aggregator.rs:11-22 | an accepted frame is in exactly one live bucket, stale list, write on the way, row or rejected write; another is in none |
| AggregatorTheorems.BucketsAreNaive | crates/foims-agent-service/src/metrics_aggregator.rs:44-132 | every bucket and row holds the recomputation from its frames, all of one host, window and key set, in strict order of time |
| AggregatorTheorems.AcceptedInOrder | crates/foims-agent-service/src/metrics_aggregator.rs:12-13 | the accepted frames of a host are strictly ordered by time |
| AggregatorTheorems.LiveBucketIsRest | crates/foims-agent-service/src/metrics_aggregator.rs:99-132 | since its last drain: of the frames accepted in its window a live bucket holds exactly those that are in no stale list, write, row or rejected write, and they are the last ones |
| AggregatorTheorems.Replay | crates/foims-agent-service/src/metrics_aggregator.rs:93-181 | readings and flushes, called in any order, end in a state of the runs that the lemmas speak about |
| AggregatorLosses.FirstWriteWins | crates/foims-agent-service/src/metrics_aggregator.rs:158-179 | of the writes for a row that is not there the first that works makes it, and all behind it are rejected |
| AggregatorLosses.LaterHalfIsRejected | crates/foims-agent-service/src/metrics_aggregator.rs:113-119 | after a change of keys within a window, a flush before the window is due gives the row to the earlier half, and the later half is rejected when it falls due |
| AggregatorLosses.EarlierHalfIsRejected | crates/foims-agent-service/src/metrics_aggregator.rs:183-196 | after a change of keys within a window, one flush that takes both halves writes the later one first and rejects the earlier one |
| AggregatorLosses.ClaimedTwiceIffReopened | crates/foims-agent-service/src/metrics_aggregator.rs:161-165 | two buckets compete for a row exactly when a frame began a bucket for a window that had one |
| AggregatorLosses.LosesIffReopened | crates/foims-agent-service/src/metrics_aggregator.rs:14-22 | some flush of successful writes loses frames if and only if the run reopened a window |
| AggregatorLosses.LossIsInevitable | crates/foims-agent-service/src/metrics_aggregator.rs:158-179 | once a window was reopened, every later state in which none of its buckets is live, stale or being written has rejected one with its frames |
| Rounding.Round4IsClose | crates/foims-agent-service/src/metrics_aggregator.rs:217-220 | rounding moves a value by at most 0.00005 |
| Rounding.Round4IsNearest | crates/foims-agent-service/src/metrics_aggregator.rs:217-220 | the result is the nearest number of ten-thousandths, halves away from zero |
| Rounding.Round4IsExact | crates/foims-agent-service/src/metrics_aggregator.rs:217-220 | four decimals survive rounding |
| MetricsRollup.PushRow | crates/foims-agent-service/src/tasks.rs:425-430 | the samples of one row go to the accumulators of their keys, whatever their order; what does not parse is skipped |
| MetricsRollup.Output | crates/foims-agent-service/src/tasks.rs:432-449 | what counted nothing is left out of the hourly row |
| MetricsRollup.RollupMetrics | crates/foims-agent-service/src/tasks.rs:416-452 | the loops compute, per key, weighted mean, least minimum, greatest maximum, last value and count, and the greatest row id |
| MetricsRollup.HourlyRowHolds | crates/foims-agent-service/src/tasks.rs:416-452 | for any source rows the hourly row has a cell for exactly the metrics that counted, with the sum of counts, least minimum, greatest maximum, last value and the weighted mean to the nearest ten-thousandth |
| MetricsRollup.HourlyRowRecordsId | crates/foims-agent-service/src/tasks.rs:416-452 | it records the greatest id of its source rows, whatever a metric of that name held |
| MetricsRollup.SamplesArePlaced | crates/foims-agent-service/src/tasks.rs:425-430 | the samples are those of the rows that have one, in order and none left out |
| RollupAccuracy.RollupIsAccurate | crates/foims-agent-service/src/tasks.rs:389-452 | an hourly row of rounded five-minute rows has the count, extremes and last value of all readings, and a mean at most 0.0001 off |
| RollupAccuracy.StoredRowsRollUpAccurately | crates/foims-agent-service/src/metrics_aggregator.rs:198-220 | the same for any rows that any run of the aggregator has written |
| RollupTask.Database.InsertRow | crates/foims-agent-service/src/metrics_aggregator.rs:161-165 | the first row of an agent and instant stays; the id is used up either way |
| RollupTask.Database.Execute | crates/foims-agent-service/src/tasks.rs:289-369 | a run replaces exactly the selected hourly rows by the roll-up of their hour, or those before the first query that fails |
| RollupTask.ExecutedHour | crates/foims-agent-service/src/tasks.rs:328-362 | the loop body is one read and one upsert of the interleaved model |
| RollupTask.HourlyRowsAreRollups | crates/foims-agent-service/src/tasks.rs:413-415 | with inserts and other reads anywhere in between, every hourly row is the roll-up of its hour's rows up to the id it records |
| RollupTask.DueIffOutOfDate | crates/foims-agent-service/src/tasks.rs:290-319 | an hour is selected if and only if it has a five-minute row, hour + 3600 <= now - 900, and its hourly row is missing or not the roll-up of all its rows |
| RollupTask.RowsOfHour | crates/foims-agent-service/src/tasks.rs:330-343 | what is read of an hour are the rows of its 3600 seconds, in order and none left out |
| RollupTask.SelectionTakesOldest | crates/foims-agent-service/src/tasks.rs:32-33 | a selection takes 500 hours of an earlier backlog or all of it |
| RollupTask.RoundsShrinkBacklog | crates/foims-agent-service/src/tasks.rs:32-33 | each run shortens the backlog by exactly 500 hours or empties it, also while later hours close |
| RollupTask.BacklogIsWorkedOff | crates/foims-agent-service/src/tasks.rs:32-33 | P hours take P/500 runs, rounded up; further runs change nothing |
| RollupTask.RoundsBringHoursUpToDate | crates/foims-agent-service/src/tasks.rs:289-369 | after those runs every closed hour has the roll-up of all its rows, whatever the run before |
| HistoryPipeline.FramesOfHour | crates/foims-agent-service/src/metrics_aggregator.rs:121-132 | the frames that the rows of an hour hold are exactly the stored frames of that host and hour, in the order of their times |
| HistoryPipeline.ClosedHoursAreAccurate | crates/foims-agent-service/src/tasks.rs:289-452 | with the rows of any aggregator run as source, after enough runs every closed hour has count, extremes and last value of all its stored readings and a mean at most 0.0001 off |
| HistoryPipeline.HourHoldsAccepted | crates/foims-agent-service/src/metrics_aggregator.rs:11-22 | the rows of an hour whose windows were not reopened and are written hold exactly its accepted frames, in order |
| HistoryPipeline.ClosedHoursCoverAccepted | crates/foims-agent-service/src/tasks.rs:289-452 | for such hours the hourly row has count, extremes and last value of all accepted readings and a mean at most 0.0001 off |
| LiveRegistry.LiveRegistry.Upsert | crates/foims-agent-service/src/live_poll.rs:91-94 | a snapshot overwrites and bumps the revision |
| LiveRegistry.LiveRegistry.Remove | crates/foims-agent-service/src/live_poll.rs:115-119 | removal bumps the revision only if something was removed |
| LiveRegistry.AgentLiveRegistry.Upsert | crates/foims-agent-service/src/live_poll.rs:986-1003 | a snapshot replaces an earlier one only if it was collected later, and only then bumps the revision |
| LiveRegistry.Receive | crates/foims-agent-service/src/live_poll.rs:986-1003 | receiving snapshots one by one is the merge that the lemmas speak about |
| LiveRegistry.HoldsFirstNewest | crates/foims-agent-service/src/live_poll.rs:981-985 | the registry holds, of each machine, the first of its newest snapshots |
| LiveRegistry.OrderDoesNotMatter | crates/foims-agent-service/src/live_poll.rs:981-985 | the same snapshots in any order leave the same contents, if no machine sends two with one collection time |
| LiveRegistry.RevisionCountsMaxima | crates/foims-agent-service/src/live_poll.rs:1000-1008 | the revision counts the snapshots newer than all before them |
| LiveRegistry.UnchangedRevision | crates/foims-agent-service/src/live_poll.rs:1005-1008 | while the revision stands still, so do the contents |
| LiveStream.Reachable | crates/foims-agent-service/src/live_api.rs:301-347 | what every step of writers and stream keeps: a view is stale only if a bump is pending or made |
| LiveStream.NeverStaysStale | crates/foims-agent-service/src/live_api.rs:280-347 | under every interleaving, no writer between its steps and no new revision mean that the pushed summary is current |
| LiveStream.UndisturbedTick | crates/foims-agent-service/src/live_api.rs:301-328 | a tick nobody disturbs pushes the contents of all three registries exactly when a revision moved |
| LiveStream.OneTickCatchesUp | crates/foims-agent-service/src/live_api.rs:301-328 | from any reachable state at rest one tick is enough |
| LiveStream.StreamState.Tick | crates/foims-agent-service/src/live_api.rs:303-327 | a tick ends the stream after the shutdown signal; otherwise it pushes the three contents exactly when one of the three revisions differs from the saved one, as the undisturbed tick of the model does |
| LiveStream.UpsertThenBump | crates/foims-agent-service/src/live_poll.rs:91-94 | the two steps of a writer: the snapshot is there first, the revision moves by one then; the agent registry takes only what was collected later |
| LiveStream.RemoveThenBump | crates/foims-agent-service/src/live_poll.rs:115-119 | a removal likewise, and nothing if the device is not there |
| LiveStream.BumpOne | crates/foims-agent-service/src/live_poll.rs:91-119 | each bump moves one revision by one and is one that a change has left behind |
| LiveStream.UnbumpedChangeIsInvisible | crates/foims-agent-service/src/live_poll.rs:91-94 | between change and bump a stream that has caught up shows something else |
| AppFail2ban.SanitizedIsClean | crates/foims-auth/src/app_fail2ban.rs:25-35 | a sanitized identifier is short, has no control character and does not change again |
| AppFail2ban.SanitizedIsPrefix | crates/foims-auth/src/app_fail2ban.rs:25-35 | it is the first 64 characters of the text that are no control characters, or all of them if there are fewer |
| AppFail2ban.CleanKeys | crates/foims-auth/src/app_fail2ban.rs:224-231 | a text of at most 64 characters without controls is unchanged and stands in its key |
| AppFail2ban.FailuresAreSeparate | crates/foims-auth/src/app_fail2ban.rs:276-311 | a failure leaves count and bans of another clean address and user alone |
| AppFail2ban.FailuresAreCounted | crates/foims-auth/src/app_fail2ban.rs:188-217 | the count of a log is the number of its failures less than findtime ago |
| AppFail2ban.AppFail2ban.RecordLoginFailure | crates/foims-auth/src/app_fail2ban.rs:276-311 | a failure is added under both keys and under no other, bans a key that then has max_retry failures within findtime, and reports whether it banned one |
| AppFail2ban.AppFail2ban.RecordLoginSuccess | crates/foims-auth/src/app_fail2ban.rs:319-328 | a success forgets both keys, bans included |
| AppFail2ban.AppFail2ban.CleanupExpiredRecords | crates/foims-auth/src/app_fail2ban.rs:122-141 | the retain loop prunes every record and keeps exactly those with a failure within findtime or a ban that lasts |
| AppFail2ban.AppFail2ban.BanIp | crates/foims-auth/src/app_fail2ban.rs:649-662 | a manual ban, refused while disabled |
| AppFail2ban.AppFail2ban.UnbanIp | crates/foims-auth/src/app_fail2ban.rs:619-626 | clears ban and failures of a known key |
| AppFail2ban.TableAgreesWithLog | crates/foims-auth/src/app_fail2ban.rs:122-328 | after any run in order of time, the pruned record of a key answers, now and later, as its full log does |
| AppFail2ban.FailureCountIsThatOfLog | crates/foims-auth/src/app_fail2ban.rs:188-217 | the count is the greater of the failures of the two full logs within findtime |
| AppFail2ban.BannedIffLogBans | crates/foims-auth/src/app_fail2ban.rs:143-156 | a key is banned if and only if a failure that reached max_retry, or a manual ban, since its last reset is less than bantime ago |
| AppFail2ban.CleanupsAreInvisible | crates/foims-auth/src/app_fail2ban.rs:122-141 | cleanups at any moments change no later answer |
| TrapCooldown.CooldownTable.IsInCooldown | crates/foims-agent-service/src/trap.rs:291-316 | one notification: suppressed or recorded, with pruning only when the table is full |
| TrapCooldown.AcceptedIsReference | crates/foims-agent-service/src/trap.rs:290-316 | accepted are exactly the notifications whose source was quiet for the cooldown while fewer than 1024 sources were not |
| TrapCooldown.AcceptedIff | crates/foims-agent-service/src/trap.rs:290-316 | after any run a notification is accepted if and only if none of its source was accepted less than the cooldown ago and fewer than 1024 sources were |
| TrapCooldown.TableIsBounded | crates/foims-agent-service/src/trap.rs:304-313 | the table never has more than 1024 entries |
| TrapCooldown.AcceptedAreSpaced | crates/foims-agent-service/src/trap.rs:12-14 | two accepted notifications of one source are at least the cooldown apart |
| ArArchive.WritesIffStorable | crates/foims-agent-service/src/packaging.rs:161-176 | the two length checks accept exactly ASCII names of up to 15 characters with sizes of up to ten digits |
| ArArchive.HeaderLayout | crates/foims-agent-service/src/packaging.rs:165-172 | the 60 characters of a header, field by field, end mark included |
| ArArchive.ArBuffer.AppendMember | crates/foims-agent-service/src/packaging.rs:161-183 | header, data and, after an odd number of bytes, a newline are appended or, with an error, nothing |
| ArArchive.BuildDeb | crates/foims-agent-service/src/packaging.rs:284-289 | a package is the magic and its three members; it fails only for archives of ten gigabytes |
| ArArchive.DecodesUtf8 | crates/foims-agent-service/src/packaging.rs:392-396 | header text decodes to what was encoded, for every text; only what is no UTF-8 is replaced |
| ArArchive.DecodesFirst | crates/foims-agent-service/src/packaging.rs:392-396 | the first character of any bytes is the one whose encoding they begin with, and U+FFFD only if there is none |
| ArArchive.ReplacedBegins | crates/foims-agent-service/src/packaging.rs:392-396 | what is replaced begins some character or is one byte |
| ArArchive.ReplacedIsLongest | crates/foims-agent-service/src/packaging.rs:392-396 | with one byte more it begins no character |
| ArArchive.ParseAr | crates/foims-agent-service/src/packaging.rs:380-412 | the reading loop ends, with the members or the first error |
| ArArchive.ParsedWalks | crates/foims-agent-service/src/packaging.rs:384-412 | for any bytes the reader walks from member to member and ends at the end or with the error of the first place where none stands, each error by its own condition |
| ArArchive.SizeTextIsRead | crates/foims-agent-service/src/packaging.rs:398-402 | decimal digits below 2^64, perhaps after a plus sign and between spaces, are read as their value |
| ArArchive.SizeReadIsText | crates/foims-agent-service/src/packaging.rs:398-402 | and nothing else is read as a size |
| ArArchive.RoundTrip | crates/foims-agent-service/src/packaging.rs:380-412 | reading what was written gives the members, exactly so if and only if no name ends with a slash |
| ArArchive.DebReadsBack | crates/foims-agent-service/src/packaging.rs:284-289 | a package reads back as its three members |
| ArArchive.MembersAreAligned | crates/foims-agent-service/src/packaging.rs:158-160 | every member starts at an even offset, where the ones before it end |
| AgentHistory.QueryKeeps | crates/foims-agent-service/src/agents_api.rs:545-564 | of more than K rows the query returns exactly the first rows of K equal parts |
| AgentHistory.NewestIsKeptIff | crates/foims-agent-service/src/agents_api.rs:545-564 | the newest row is returned if and only if there are at most K |
| AgentHistory.StepBy | crates/foims-agent-service/src/agents_api.rs:88-90 | the loop takes every point whose index is a multiple of the step |
| AgentHistory.StepIsLeast | crates/foims-agent-service/src/agents_api.rs:86-88 | the step is the least with which max points reach the end |
| AgentHistory.SampledOnSteps | crates/foims-agent-service/src/agents_api.rs:86-96 | every point on that step is sampled |
| AgentHistory.SampleSeries | crates/foims-agent-service/src/agents_api.rs:83-96 | the points on the steps, then the last one unless its value is there: at most max points in order, the first and the last value kept |
| AgentHistory.SampleIsSelection | crates/foims-agent-service/src/agents_api.rs:81-96 | sampling keeps at most max points in order, from the first to the value of the last |
| AgentHistory.GetHistory | crates/foims-agent-service/src/agents_api.rs:532-609 | the curve has at most 600 points, and they are the rows of the query: sampling leaves those alone |
| UserDelete.UserTable.DeleteUser | crates/foims-auth/src/user.rs:434-502 | a request on its own: each error by its own condition on users and request, in the order of the source, and otherwise the deletion of exactly this user |
| UserDelete.OutcomeIs | crates/foims-auth/src/user.rs:434-502 | what a transaction alone returns is that same chain of conditions |
| UserDelete.RunsKeepInvariant | crates/foims-auth/src/user.rs:456-502 | with the advisory lock, what a transaction has read stays true until it commits |
| UserDelete.OnlyGrantedDeletions | crates/foims-auth/src/user.rs:434-502 | in every interleaving a user disappears only by a commit of somebody else, an admin only by one of an admin, and an administrator only while there is another; it would be granted at that very moment |
| UserDelete.AdministratorsNeverRunOut | crates/foims-auth/src/user.rs:456-502 | in any interleaving of deletions and creations there is, once there was one, always an admin or secadmin |
| UserDelete.StatementsFollowOutcome | crates/foims-auth/src/user.rs:434-502 | the statements of one transaction, alone, do what the request returns |
| UserDelete.WithoutLockNobodyRemains | crates/foims-auth/src/user.rs:456-461 | without the lock two secadmins deleting each other leave no administrator |

## Left out

- Alert episodes: fractions of a second, NaN readings, and rows with another metric name, which the table's check constraint excludes (upgrade/0.32/upgrade_0.32.0.sql:440-446).
- Alert episodes: `sweep_once`, `evaluate_host` and the policy cache, which only choose the thresholds and readings that are parameters here.
- Alert episodes: an evaluation, a flush, a purge, a cleanup and a restart are each one atomic step; lost updates between them and crashes within them are not modelled.
- Alert episodes: notifications that reach only some of the recipients, and the wording and mailing of all of them.
- AlertEpisode.SplitJoinRoundTrip: ids are hyphenated lower-case texts, as the server writes them; other spellings that the UUID parser accepts are not modelled.
- AlertEpisode.SplitAtComma: likewise, a piece is an id only in that spelling.
- AlertRuns.RunIsCoherent: holds for keys whose writes succeed, but for flushes, which may fail; after another failed write, or a purge that takes the key out of memory or table only, the row may be missing or outdated until it is upserted again.
- AlertTheorems.RuntimeFollows: for runs whose restarts read back what memory held, which is exactly when it holds (`RuntimeFollowsIff`).
- AlertTheorems.NoticesApart: for deliveries that succeed with at least one recipient; a failed one is retried at the next reading on purpose.
- MetricsAggregator: the arithmetic of `f64` and the wrap-around of its `u64` counters.
- MetricsAggregator: a bucket start that is no representable date, which the source skips when writing.
- AggregatorLosses.LosesIffReopened: the aggregator of one process; what a restart forgets in memory is not modelled.
- RollupTask: the retention deletes that run beside the roll-up, and transactions whose ids become visible out of order.
- RollupTask.RoundsShrinkBacklog: counts runs that reach the end of their selection; one that stops at a failed query has rolled up the hours before it.
- RollupTask: sub-second instants, and `_src_max_id` values that are no number.
- LiveStream: the order of memory operations on different processors, and revisions that have used up 64 bits.
- LiveStream: the `device` event, sorting and formatting of the summary, and removals from the agent registry.
- AppFail2ban.TableAgreesWithLog: for an enabled configuration that does not change; disabled, every answer is 0 or no.
- AppFail2ban: changes of the configuration while records exist, remaining ban times and the status page, the authentication log and its file, and the check that a manual ban names an IP address.
- TrapCooldown: a cooldown of zero, for which the source does not ask the table, and notifications handled side by side.
- ArArchive: the tar and gzip contents of the archives, and the rpm and zip packages.
- AgentHistory.QueryKeeps: the quotient is exact, as PostgreSQL's is for any number of rows a table can hold.
- UserDelete: role changes by `update_user`, the rest of `create_user`, cascading deletes and the operation log.
- The rest of the server: HTTP routes and extractors, configuration, certificates, polling protocols, agents and the user interface.
