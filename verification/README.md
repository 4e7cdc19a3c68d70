# Verification of aiforge_core's shared-state components

A Dafny model of the parts of `aiforge_core` whose correctness depends on many
calls, threads or processes acting on one piece of state:

- the machine-wide sliding-window rate ceiling, its server-imposed holds and the
  per-provider token buckets (`SharedWindow`, `WindowHistory`, `WindowCeiling`,
  `WindowWait`, `Holds`, `TokenBucket`);
- the scheduled-job protocol: slot claims, claim tokens, the one retry after a
  restart, stop requests racing worker starts, and whose pid the row shows
  (`Jobs`, `JobStore`, `JobScheduler`, `JobSlots`, `JobProtocol`, `JobStops`,
  `JobKills`, `JobPids`, `JobRestarts`, `JobEdges`);
- the request meter: a 60-second ring, minute buckets and per-session slots that
  answer for a history nobody stores (`MeterRing`, `MeterBuckets`,
  `MeterSessions`, `MeterFails`, `CallMeter`, `MeterRuns`, `MeterShown`);
- the Merkle index of a worktree (`Names`, `Merkle`, `MerkleRename`,
  `MerkleIndex`);
- atomic file publishing, the parsed-file caches in front of it, and the
  `runtime.env` writer and loader (`AtomicPublish`, `ConfigCache`, `RuntimeEnv`,
  `RuntimeEnvBreaks`, `RuntimeEnvText`).

`Wrappers` and `Totals` hold stock helpers. `dafny verify dfyconfig.toml` checks
everything.

Where the source updates state in place there is a class over the same state,
each of whose methods is proved equal to a function on values; the theorems are
about runs of those functions. Where threads or processes interleave there is a
step machine whose steps are what one thread does atomically, and the theorems
hold in every reachable state. Clocks are parameters: a theorem that needs one
that does not go back says so.

## What was found on the way

Each of these is proved as a reachable state or an exact condition.

- `force` under a ceiling of zero still trims the table to one row
  (`aiforge_core/llm/_shared_window.py:412`), which empties the category counts;
  the clamped table answers as the full history would exactly when the ceiling is
  at least one (`WindowHistory.RefinementNeedsACeiling`).
- A reader whose clock is behind deletes a genuine hold
  (`Holds.ReaderBehindDropsTheHold`). Every earned hold binds every process exactly
  when the longest one and what the clocks disagree by fit the cap
  (`Holds.EveryHoldBindsIff`); under a configured ceiling of c seconds that is a
  disagreement of at most min(c / 2 + 5, 3600 - c), which is none at an hour
  (`Holds.HoldsUnderACeilingBindIff`).
- The wait of a token bucket is too short exactly when the request exceeds the
  capacity or the rate is under the divisor's floor (`TokenBucket.WaitSuffices`).
- A won slot can be won again. A second firer right after the first wins too exactly
  when the next slot is that slot (`JobSlots.SlotIsSpentIff`); over whole runs, the clock
  never going back, a slot can be won again exactly when it is one of the cron's and was
  won before its time, by a run-now (`JobSlots.SlotCanBeWonAgainIff`). The docstring of
  `fire` says a run-now overlapping a tick never fires twice.
- A stop between the claim and the re-read is missed
  (`JobEdges.StopBeforeRereadIsMissed`), although `request_stop` says a worker
  that has not published yet still exits. Once the stop has dropped the mark, a worker
  passes its start check exactly when it has no token or re-read its row after the stop
  and holds the claim it found (`JobStops.StopIsMissedIff`); with no new claim in between,
  exactly when it had no token yet (`JobStops.StopIsMissedIffTokenless`).
- A script survives a completed stop exactly when its pid was unpublished at the
  stop's look and its event unraised at its own (`JobKills.SurvivesItsStopIff`, and
  `JobEdges.ScriptSlipsThroughTheGap` for a run that gets there). Two overlapping
  runs of a script share one event and one pid set, and the first to end removes
  both: a later stop kills the other exactly when none has ended in between
  (`JobKills.LaterStopKillsIff`, `JobEdges.OverlappingScriptOutlivesItsStop`).
- A run's pid outlives it on the row (`JobEdges.LatePidLandsOnANewerClaim`,
  `JobEdges.ClaimCarriesAnOldPid`): it is the current claim's own exactly when that
  claim was still held at the write, whatever the look before it said, and nothing
  has ended it since (`JobPids.OwnPidIff`).
- Evicting a session restarts its epoch, so its turn and failure counts are
  consistent exactly when at most 200 sessions are in use
  (`MeterSessions.ConsistentIffFewSessions`). A turn is bound by its number
  without its session, so a foreign one can be billed
  (`MeterSessions.ForeignTurnBreaksTheCounts`).
- The meter's `rate_capped` flag goes down at exactly 60 seconds, one instant
  before the rate is exact again (`MeterRing.CappedFlagMissesTheBoundary`): the rate is
  short with the flag down exactly when the ring cannot hold the last 60 seconds and the
  last loss is exactly that old or dated at the clock's zero
  (`MeterRuns.FlagMissesAfterEveryRunIff`).
- File and folder names do not reach the Merkle hashes: any renaming that keeps
  their order in every folder keeps every hash
  (`MerkleRename.RenamingKeepsTheHashes`). With as many files and folders in each
  place the roots agree exactly when the trees are the same but for names
  (`MerkleRename.RootsEqualIffSameTree`); of any two trees,
  exactly when they are alike, where a file may stand for a folder whose hash is its
  digest (`MerkleRename.RootsEqualIffAlike`, `MerkleRename.FolderLooksLikeAFile`). `diff` trusts the persisted root over
  the disk (`MerkleIndex.Index.Diff`).
- Without the `fsync` before the rename a power loss can leave the target torn;
  a publication is whole in every run exactly when it is there
  (`AtomicPublish.WholeIffSynced`, `AtomicPublish.UnsyncedBodyIsTorn`).
- Dropping the cache entry on every write does not make a write visible within
  one clock tick, as `_filecache.write_json` says: a load already under way puts
  the old rows back (`ConfigCache.SharedStampServesOldRows`). Every interleaving is
  linearizable exactly when no two versions share a stamp around rows the later one
  does not hold (`ConfigCache.LinearizableIff`).
- The `runtime.env` writer breaks lines where the loader does not, so the next save of
  any key cuts a value at its first exotic separator: it survives exactly when no NUL
  comes before that and nothing but space after
  (`RuntimeEnvBreaks.NextSaveCutsTheValue`). What is cut off stands as lines of its own,
  though `_persist_env` means to keep a second assignment out of the file: it stays out
  exactly when no piece after a value's first is read as a setting
  (`RuntimeEnvBreaks.OnlySavedKeysIff`, and of what is restored
  `RuntimeEnvBreaks.OnlySavedKeysAreRestoredIff`).
- Of the last 60 seconds the meter counts a send that is exactly 60 seconds old, but a
  failed one of that age only if it was known to have failed before
  (`MeterShown.FailedPerMinuteCountsTheHistory`); of all younger ones it counts every
  failure.
- The loader reads `KEY = value` as a setting the writer does not replace
  (`RuntimeEnv.HandSpacedLineShadowsTheSave`).
- A value with a NUL is saved, but the environment refuses it on load and that ends
  the load: neither it nor any key below it is restored
  (`RuntimeEnv.NulEndsTheLoad`). Every saved key comes back exactly when no applied
  one was last saved with a NUL (`RuntimeEnv.AllSettingsRestoredIff`).

## Model

| member | source | states |
|---|---|---|
| SharedWindow.Window.Count | aiforge_core/llm/_shared_window.py:247-272 | the number of live rows of one category or all, nothing changed |
| SharedWindow.Window.Take | aiforge_core/llm/_shared_window.py:293-377 | prunes both ways and admits exactly when both ceilings have room; a denied take is told the one wait at which, undisturbed, the oldest row of every full window has left and not before, for any rows and ceilings, at most 61 seconds |
| SharedWindow.Window.Ceilings | aiforge_core/llm/_shared_window.py:340-345 | which of the two ceilings has room, a ceiling of zero being none |
| SharedWindow.Window.WaitFor | aiforge_core/llm/_shared_window.py:275-290 | the time until the oldest live row of a full window leaves, of two full windows the later |
| SharedWindow.WaitIsUnique | aiforge_core/llm/_shared_window.py:275-290 | that description leaves one possible wait |
| SharedWindow.CountIsLiveRows | aiforge_core/llm/_shared_window.py:247-272 | what is counted is the rows of the last 60 seconds, up to a second ahead of the clock, of the category |
| SharedWindow.AdmittedIff | aiforge_core/llm/_shared_window.py:338-350 | a take is admitted if and only if each ceiling is zero or less, which is none, or more than the rows that count against it |
| SharedWindow.PruneKeeps | aiforge_core/llm/_shared_window.py:338-339 | the prune keeps exactly the live rows |
| SharedWindow.Window.Force | aiforge_core/llm/_shared_window.py:380-426 | counts the send whatever the window says and keeps the newest max(1, limit) rows |
| SharedWindow.Window.Trim | aiforge_core/llm/_shared_window.py:409-412 | keeps the rows ranked newest, however the others came |
| SharedWindow.KeepNewestSplits | aiforge_core/llm/_shared_window.py:409-412 | the trim loses no row unaccounted for and nothing it drops is newer than anything it keeps |
| SharedWindow.KeepNewestSorted | aiforge_core/llm/_shared_window.py:409-412 | on rows stamped in order the trim keeps exactly the last ones |
| WindowHistory.TableRefinesHistory | aiforge_core/llm/_shared_window.py:338-355 | for a ceiling of at least one and a clock that does not go back, after any mix of takes and forces the clamped table is the newest of the last 60 seconds of all sends, and every call is answered as a limiter that forgets no send would answer it, for the machine and for the category |
| WindowHistory.RefinementNeedsACeiling | aiforge_core/llm/_shared_window.py:409-412 | that agreement holds for all runs if and only if the ceiling is at least one |
| WindowHistory.GlobalWaitIsExact | aiforge_core/llm/_shared_window.py:281-284 | the wait reported for a full window is to the instant when the full history falls below the ceiling |
| WindowCeiling.CeilingAcrossClockSteps | aiforge_core/llm/_shared_window.py:25-43 | from any table, takes within 60 seconds of true time with k clock steps either way grant at most (k+1) ceilings, machine-wide and per category; at most one with no step |
| WindowCeiling.StepsMultiplyTheWindow | aiforge_core/llm/_shared_window.py:332-339 | that bound is met for every ceiling and every number of steps: each step forward by a window lets another full window through at once |
| WindowWait.TakesNeverOverrun | aiforge_core/llm/_shared_window.py:344-350 | takes alone under fixed ceilings never leave more rows than either ceiling |
| WindowWait.DeniedWaitIsExact | aiforge_core/llm/_shared_window.py:344-377 | after takes alone, a denied take tried again, with any denied takes of any category in between, is admitted if and only if its returned wait is over, both ceilings considered |
| WindowWait.FullWindowShrinksIff | aiforge_core/llm/_shared_window.py:281-290 | for any live rows, however far over a ceiling: a full window loses its first row by an instant if and only if that window's wait is over by then |
| WindowWait.RetriesDoNotDisturb | aiforge_core/llm/_shared_window.py:338-339 | a denied take leaves the same rows for any later prune, and adds none |
| SharedWindow.FilterCommutes | aiforge_core/llm/_shared_window.py:338-343 | pruning and counting by category commute |
| SharedWindow.PruneCompose | aiforge_core/llm/_shared_window.py:338-339 | the prunes of two transactions amount to the later one |
| Holds.Cap | aiforge_core/llm/_shared_window_holds.py:69-88 | half as wide again as the asked cap and five seconds, up to an hour; 95 seconds when none or a senseless one is asked |
| Holds.SharedHolds.SetHold | aiforge_core/llm/_shared_window_holds.py:109-140 | the key's row becomes the later of the old believable hold and the new one, neither beyond the cap; no other row changes |
| Holds.SharedHolds.HoldLeft | aiforge_core/llm/_shared_window_holds.py:166-191 | for every table, however poisoned, the longest matching hold not beyond now + cap, clamped to [0, cap]; unbelievable rows go exactly when one of them was asked for |
| Holds.SharedHolds.DropPoisonedHold | aiforge_core/llm/_shared_window_holds.py:143-163 | removes exactly the rows beyond the cap and returns that same longest hold |
| Holds.HoldLeftIsUnique | aiforge_core/llm/_shared_window_holds.py:166-191 | that description leaves one possible answer |
| Holds.EarnedHoldBinds | aiforge_core/llm/_shared_window_holds.py:120-133 | a hold one process wrote binds every process until it ends, whatever is written and read in between, if the longest hold and the clocks' disagreement fit the cap |
| Holds.EveryHoldBindsIff | aiforge_core/llm/_shared_window_holds.py:166-191 | every earned hold binds in every run with those clocks if and only if the longest hold and their disagreement fit the cap |
| Holds.HoldsUnderACeilingBindIff | aiforge_core/llm/_rate_holds.py:64-73 | what a process notes under its configured ceiling binds if and only if the clocks disagree by no more than the margin the shared cap adds to that ceiling |
| Holds.ReaderBehindDropsTheHold | aiforge_core/llm/_shared_window_holds.py:185-190 | without that margin a reader whose clock is behind deletes the hold, whatever else the table holds |
| Holds.ProcessHolds.TrimLocked | aiforge_core/llm/_rate_holds.py:23-31 | drops the longest aged-out prefix; of stamps in order, every aged-out one |
| Holds.HoldFor | aiforge_core/llm/_rate_holds.py:64-65 | the server's own number when it gave one, else 60 seconds, never beyond the cap |
| Holds.ProcessHolds.NoteRateLimited | aiforge_core/llm/_rate_holds.py:34-77 | each copy becomes the later of the hold it had and the new one, the machine's within its cap, and no other key changes |
| Holds.ProcessHolds.HoldLeftLocked | aiforge_core/llm/_rate_holds.py:80-88 | the longer of the catch-all's and the provider's hold |
| Holds.ProcessHolds.HeldFor | aiforge_core/llm/_rate_holds.py:91-103 | the longer of what this process and the machine know; the machine's table loses its unbelievable rows exactly when one of them was asked for |
| TokenBucket.Bucket.constructor | aiforge_core/llm/_rate_settings.py:44-54 | full at birth, refilled once a minute |
| TokenBucket.Bucket.Drain | aiforge_core/llm/_rate_settings.py:19-32 | one step of the bucket: it refills by forward time up to its capacity; a request that fits leaves that less what it took, another leaves it and is told how long the shortfall takes |
| TokenBucket.AfterIsTakes | aiforge_core/llm/_rate_settings.py:19-32 | runs of the model are runs of that step |
| TokenBucket.Conservation | aiforge_core/llm/_rate_settings.py:25-31 | tokens stay in [0, capacity], and what was handed out and what is left never exceed what was there and what was refilled |
| TokenBucket.NothingLostIff | aiforge_core/llm/_rate_settings.py:25-31 | what was handed out and what is left are all that was there and was refilled if and only if no refill was cut at the capacity |
| TokenBucket.GainedIsRefill | aiforge_core/llm/_rate_settings.py:25-26 | over a run the refill is the rate times the sum of the clock's forward moves |
| TokenBucket.NeverOverdrawn | aiforge_core/llm/_rate_settings.py:19-32 | both together, for any run under any clock readings: at most capacity + rate * forward time is drained |
| TokenBucket.WaitIsExact | aiforge_core/llm/_rate_settings.py:28-32 | a refused request that fits is granted later if and only if the returned wait is over |
| TokenBucket.WaitSuffices | aiforge_core/llm/_rate_settings.py:31-32 | waiting exactly that long is enough if and only if the request fits the capacity and the rate reaches the floor of 1e-9 |
| JobStore.Store.Claim | aiforge_core/jobs/store.py:225-241 | the compare-and-swap: wins exactly when the row is at the expected slot; the row then runs its first attempt under a token no claim held before, its slot moved on |
| JobStore.Store.ClearRun | aiforge_core/jobs/store.py:251-260 | drops the in-flight mark only for the owning token |
| JobStore.Store.UpdateIfToken | aiforge_core/jobs/store.py:175-191 | writes only for the owning token, or by id when there is none |
| JobStore.Store.BumpInflight | aiforge_core/jobs/store.py:262-269 | wins exactly from the expected attempt of a running row |
| JobStore.Store.ReleaseRetried | aiforge_core/jobs/store.py:271-279 | releases exactly a running row already retried |
| JobStore.Store.DueJobs | aiforge_core/jobs/store.py:198-203 | exactly the enabled jobs at or past their slot, by id |
| JobStore.Store.ExpiredJobs | aiforge_core/jobs/store.py:205-214 | exactly the jobs past their end, disabled ones included, by id |
| JobStore.Store.InflightJobs | aiforge_core/jobs/store.py:243-249 | exactly the claimed rows, by id |
| JobStore.Store.Delete | aiforge_core/jobs/store.py:193-196 | removes the row and says whether there was one |
| JobScheduler.Scheduler.Dispatch | aiforge_core/jobs/scheduler.py:115-146 | one dispatch by kind: tickets settle at once, a busy agent consumes its slot unrun; what is left in flight was dispatched under its own token |
| JobScheduler.Scheduler.CloseJob | aiforge_core/jobs/lifecycle.py:344-376 | the worker is asked to stop, then the row goes |
| JobScheduler.Scheduler.Fire | aiforge_core/jobs/scheduler.py:53-112 | the slot is consumed before anything runs; a row left in flight is on its first attempt and was dispatched under its token; expired jobs are stopped and closed, unschedulable ones disabled, lost claims do nothing |
| JobScheduler.Scheduler.CloseExpired | aiforge_core/jobs/lifecycle.py:379-397 | exactly the expired jobs are stopped, once each by id, and exactly the others are left |
| JobScheduler.Scheduler.Tick | aiforge_core/jobs/scheduler.py:603-621 | stops and closes what has ended, then dispatches each due job once, in order, and returns how many succeeded; afterwards nothing is due or expired at that instant and every other job is untouched |
| JobScheduler.Scheduler.ResumeOne | aiforge_core/jobs/scheduler.py:676-722 | one run in flight is given up, its script killed if it is alive, or watched as a live script, or dispatched once more |
| JobScheduler.Scheduler.ResumeInflight | aiforge_core/jobs/scheduler.py:664-723 | exactly the runs in flight, in order, each treated so, those dispatched again under the tokens they were found with; the number retried; every other row is untouched |
| JobScheduler.TwoRestartsRunOnce | aiforge_core/jobs/scheduler.py:664-668 | what one restart leaves running the next gives up, and the next slot is untouched |
| JobScheduler.ResumedExactlyOnce | aiforge_core/jobs/scheduler.py:676-722 | a fresh process dispatches a run again, once and under its own token, if and only if it is on its first attempt and its script did not outlive the old process |
| JobScheduler.ResumedByTheFirstRestartOnly | aiforge_core/jobs/scheduler.py:664-722 | over the whole table, of two restarts after a claim the first dispatches its run again, under its token, unless its script is alive, and the second never does |
| JobScheduler.FiredRunIsRetriedOnce | aiforge_core/jobs/scheduler.py:664-722 | a run that firing leaves in flight is dispatched again by the next process under the same token, unless its script is alive and only watched; the process after that ends it undispatched and kills a script still alive |
| JobSlots.SlotStaysPast | aiforge_core/jobs/store.py:225-241 | after a win the slot stays past that firer's clock reading |
| JobSlots.DueSlotsIncrease | aiforge_core/jobs/scheduler.py:84-112 | slots strictly increase along the wins of due firers, so each has one winner, and a cron slot lies between two wins |
| JobSlots.DueSlotIsSpent | aiforge_core/jobs/scheduler.py:96-110 | with run-now in the mix, a slot won while due is never won again |
| JobSlots.SlotIsSpentIff | aiforge_core/jobs/scheduler.py:84-103 | one step: the second of two firers of a slot, right after the first has won, wins too if and only if the next slot is that slot |
| JobSlots.SlotCanBeWonAgainIff | aiforge_core/jobs/scheduler.py:84-112 | over whole runs, the clock never going back: a won slot can be won again, whatever fires in between, if and only if it is one of the cron's and was won before its time |
| JobSlots.BacklogCollapses | aiforge_core/jobs/scheduler.py:603-621 | n wins of due firers take n-1 distinct cron slots between the first and the last, so a backlog of any length is one fire |
| JobProtocol.ReachableRowsAreSound | aiforge_core/jobs/store.py:225-279 | in every interleaving a row runs exactly when it has a token, with one or two attempts, and none when idle |
| JobProtocol.RetriedOnce | aiforge_core/jobs/scheduler.py:664-723 | a retry is won at most once per claim, so at most twice as many runs are dispatched as claims were won |
| JobProtocol.RetryIsOwedIff | aiforge_core/jobs/scheduler.py:676-722 | in every reachable state a run in flight is on its first attempt, can be retried or its script reattached, if and only if its claim was not retried yet, and can be given up if and only if it was |
| JobProtocol.SupersededForGood | aiforge_core/jobs/store.py:233-241 | a token that lost the row never owns it again |
| JobProtocol.SupersededWritesNothing | aiforge_core/jobs/scheduler.py:319-326 | a worker with a superseded token changes nothing through clear_run or _record_last_error, however late |
| JobStops.StopBeforeStartRunsNothing | aiforge_core/jobs/scheduler.py:156-211 | a stop that completes after the claimer re-read its tokened row and before its start check makes it run nothing, whatever follows |
| JobStops.StartCheck | aiforge_core/jobs/scheduler.py:544-550 | whatever other threads do between its parts, a worker runs if and only if its process was free when it bound its event, that was clear when it looked and its claim was held when it checked, no token counting as held |
| JobStops.StopIsMissedIff | aiforge_core/jobs/scheduler.py:287-304 | after a stop has dropped the mark, in any interleaving, a worker not yet started passes its start check if and only if it has no token, or it re-read its row since and holds the claim it found there |
| JobStops.StopIsMissedIffTokenless | aiforge_core/jobs/scheduler.py:156-206 | with no new claim in between and the row still there, the stop is missed if and only if the worker had no token when the mark was dropped, as before its re-read |
| JobStops.OneAgentPerProcess | aiforge_core/jobs/scheduler.py:568-589 | at most one agent worker of a job is active in a process, and the published stop event is its own |
| JobStops.StopReachesTheAgent | aiforge_core/jobs/scheduler.py:176-186 | a stop that looks while an agent worker is active raises that worker's own event |
| JobStops.RaisedScriptIsKilled | aiforge_core/jobs/scheduler.py:361-371 | a raised event stays a pending kill through every step until the script is killed or its process dies |
| JobStops.StoppedScriptIsKilled | aiforge_core/jobs/scheduler.py:361-371 | a script whose event is set before its own look is killed by the time that look is over |
| JobKills.KilledIff | aiforge_core/jobs/scheduler.py:187-191 | in every reachable state a pid was killed if and only if a stop that found it sent its kills, its script saw the event raised, or a restarted process killed it |
| JobKills.StopKillsPublishedScript | aiforge_core/jobs/scheduler.py:176-191 | a stop kills every pid its process publishes when it looks, by the time it has sent its kills |
| JobKills.SurvivesItsStopIff | aiforge_core/jobs/scheduler.py:361-371 | no other stop and no restart having killed the pid, a script survives a completed stop if and only if its pid was unpublished at the stop's look and the event unraised at its own |
| JobKills.StaysPublishedIff | aiforge_core/jobs/scheduler.py:403-407 | a published stop event stays so if and only if no run of its process was popped since, no watch ended and it did not die; it never comes back |
| JobKills.PidStaysIff | aiforge_core/jobs/scheduler.py:403-407 | likewise a published pid, which a run that was turned away leaves, until it is registered anew |
| JobKills.LookFindsPidIff | aiforge_core/jobs/scheduler.py:176-178 | a stop finds a registered script's pid if and only if nothing has dropped it in between |
| JobKills.LookFindsEventIff | aiforge_core/jobs/scheduler.py:176-177 | a stop finds a run's own event if and only if nothing has unpublished it since the run bound it |
| JobKills.LaterStopKillsIff | aiforge_core/jobs/scheduler.py:403-407 | likewise a script past its own look is killed by a later stop if and only if nothing has dropped its pid in between, as the end of another run of its process does |
| JobPids.HeldUntilEnded | aiforge_core/jobs/store.py:225-279 | a claim is held until a new claim, a release, a stop's mark, a close or its own end, and never again |
| JobPids.ShownUntilErased | aiforge_core/jobs/scheduler.py:202-204 | the row shows a pid until a stop's mark or a close, if no other is written |
| JobPids.OwnPidIff | aiforge_core/jobs/scheduler.py:361-368 | the pid a run wrote is the current claim's own if and only if its claim was held at the write and nothing has ended it since; it is shown under another claim or none exactly when that fails and nothing has erased it |
| JobRestarts.RetriedRunStarts | aiforge_core/jobs/scheduler.py:664-722 | in every reachable state a run not retried yet can be retried in the process that died and, left alone, runs there under the claim it was won by, whatever stops had reached that process |
| JobRestarts.ReattachedIsFoundIff | aiforge_core/jobs/scheduler.py:644-698 | a stop finds a reattached script, and the event its watch waits on, if and only if nothing of that process has dropped them since |
| JobRestarts.DeadStopDoesNothing | aiforge_core/jobs/scheduler.py:156-211 | a stop dies with its process: it raises, kills and drops nothing more |
| JobRestarts.WorkersFinish | aiforge_core/jobs/scheduler.py:347-411 | no worker is ever stuck: from every reachable state at most nine steps of its own take it to its end, and it leaves no claim of its own behind |
| JobRestarts.EndWrites | aiforge_core/jobs/scheduler.py:319-326 | a run writes its outcome and releases its claim only while it holds the row, or by id without a token; a refusal or a skip it always writes; nothing else of the row moves |
| JobRestarts.TicketRunsRegardless | aiforge_core/jobs/scheduler.py:115-146 | a ticket is filed whatever stops and closes came before |
| JobRestarts.SlotIsWonIff | aiforge_core/jobs/store.py:225-241 | whatever runs, retries and crashes in between, a claim wins if and only if the row is there and it names the slot the last claim or edit left |
| JobEdges.StopBeforeRereadIsMissed | aiforge_core/jobs/scheduler.py:287-294 | reachable: a stop finished between the claim and the re-read, and the run went ahead |
| JobEdges.ScriptSlipsThroughTheGap | aiforge_core/jobs/scheduler.py:176-191 | reachable: a finished stop, its event raised, nothing killed and the script past its look |
| JobEdges.OverlappingScriptOutlivesItsStop | aiforge_core/jobs/scheduler.py:403-407 | reachable: the first of two overlapping scripts ended, and a later stop neither raised nor killed |
| JobEdges.LatePidLandsOnANewerClaim | aiforge_core/jobs/scheduler.py:361-368 | reachable: a superseded worker's pid on the newer claim's row |
| JobEdges.ClaimCarriesAnOldPid | aiforge_core/jobs/store.py:225-260 | reachable: a new claim that carries the finished run's pid |
| MeterRing.TrimHeadIs | aiforge_core/llm/_meter_report.py:21-31 | the trim drops the longest aged-out prefix |
| MeterRing.InsortAt | aiforge_core/llm/call_meter.py:209-209 | the insertion keeps what is not later before it and shifts the rest |
| MeterRing.TrimKeepsRing | aiforge_core/llm/_meter_report.py:21-27 | trimming later leaves the newest of the later window |
| MeterRing.PushKeepsRing | aiforge_core/llm/call_meter.py:184-188 | appending, even when the oldest falls off, leaves the newest of the history |
| MeterRing.RecordNotesDrops | aiforge_core/llm/call_meter.py:186-187 | a loss is noted no earlier than any window the ring cannot hold |
| MeterRing.RateIsExact | aiforge_core/llm/_meter_report.py:175-177 | the rate is the true 60-second count if and only if that is at most 20000, and always once no loss is as young as 60 seconds |
| MeterRing.CappedFlagMissesTheBoundary | aiforge_core/llm/_meter_report.py:275-275 | after any burst beyond the ring's size there is an instant when the flag is down and the count short |
| MeterRing.FlagMissesIff | aiforge_core/llm/_meter_report.py:275-275 | for any ring and history the rate is short with the flag down if and only if the ring cannot hold the last 60 seconds and the last loss is exactly that old, or dated at the clock's zero |
| MeterRing.FailKeepsFails | aiforge_core/llm/call_meter.py:206-210 | the failure list never holds more stamps past any cutoff than sends failed, in whatever order failures settle |
| MeterRing.FailRateWithinRate | aiforge_core/llm/_meter_report.py:180-182 | failures of the last 60 seconds never exceed its requests |
| MeterFails.NoteKeepsExact | aiforge_core/llm/call_meter.py:206-210 | past every cutoff of the last 60 seconds the list holds exactly the failed sends, up to 20000, after one more failure |
| MeterFails.FailRateIsExact | aiforge_core/llm/_meter_report.py:180-182 | so the reported number is the failed sends of the last 60 seconds, one of exactly that age if it was known before |
| MeterBuckets.AddLabelTallies | aiforge_core/llm/_meter_report.py:60-69 | one label more: a listed name's count is exactly its occurrences, an unlisted one came when 40 were listed, the total is every label, and there are at most 41 names |
| MeterBuckets.OverflowTakesTheRest | aiforge_core/llm/_meter_report.py:66-69 | the overflow's count is exactly what the listed names leave of all the labels |
| MeterBuckets.EvictSparesTheWindow | aiforge_core/llm/_meter_report.py:52-58 | eviction takes only minutes no window reads |
| MeterBuckets.SendStaysFaithful | aiforge_core/llm/_meter_report.py:45-69 | a send keeps every reported minute, and its labels, equal to the count of the history |
| MeterBuckets.FailStaysFaithful | aiforge_core/llm/_meter_report.py:72-90 | so does a failure charged to the minute of its send |
| MeterBuckets.PruneStaysFaithful | aiforge_core/llm/_meter_report.py:93-99 | so does forgetting aged-out minutes |
| MeterBuckets.WindowsCountTheHistory | aiforge_core/llm/_meter_report.py:102-113 | a window's sums are the history's sends and charged failures of those whole minutes |
| MeterBuckets.FailuresWithinRequests | aiforge_core/llm/_meter_report.py:102-113 | failures are a subset of requests in every reported minute and window |
| MeterSessions.TouchKeepsOrder | aiforge_core/llm/_meter_keys.py:18-31 | fetching a slot makes it the newest of at most 200 and leaves every other evicted or as it was |
| MeterSessions.TouchEvictsNone | aiforge_core/llm/_meter_keys.py:26-28 | no slot is ever evicted while at most 200 sessions exist |
| MeterSessions.SlotsCountTheHistory | aiforge_core/llm/_meter_keys.py:75-97 | with at most 200 sessions, any interleaving of turns, abandoned threads and late failures leaves every slot an exact count of its history, failures a subset of requests in the session and in the turn |
| MeterSessions.ConsistentIffFewSessions | aiforge_core/llm/_meter_keys.py:18-31 | that consistency holds in every run over a set of sessions if and only if the set has at most 200 |
| MeterSessions.ForeignTurnBreaksTheCounts | aiforge_core/llm/call_meter.py:408-416 | a turn number from another session breaks the next turn's counts exactly when it is one ahead |
| CallMeter.BisectLeft | aiforge_core/llm/_meter_report.py:29-29 | the first place not below the cutoff |
| CallMeter.InsertSorted | aiforge_core/llm/call_meter.py:209-209 | insertion after equals, the list staying sorted |
| CallMeter.Meters.TrimRecentLocked | aiforge_core/llm/_meter_report.py:21-31 | both 60-second lists lose their aged-out heads |
| CallMeter.Meters.BumpBucketLocked | aiforge_core/llm/_meter_report.py:45-69 | counts the send in its minute, evicting the oldest minutes by key |
| CallMeter.Meters.BumpFailBucketLocked | aiforge_core/llm/_meter_report.py:72-90 | counts the failure in the minute of its send, made if missing |
| CallMeter.Meters.PruneBucketsLocked | aiforge_core/llm/_meter_report.py:93-99 | forgets exactly the minutes more than sixty before the current one |
| CallMeter.Meters.BucketSumsLocked | aiforge_core/llm/_meter_report.py:102-113 | the sends and failures since the window's first minute |
| CallMeter.Meters.SeriesLocked | aiforge_core/llm/_meter_report.py:165-172 | sixty minutes oldest first, both series on the same minutes |
| CallMeter.Meters.FetchSlot | aiforge_core/llm/_meter_keys.py:18-31 | the slot, made if missing and the newest either way |
| CallMeter.Meters.BillSessionLocked | aiforge_core/llm/_meter_keys.py:75-97 | bills the session, and the turn only when it is the current one, and stamps the send |
| CallMeter.Meters.Record | aiforge_core/llm/call_meter.py:156-194 | the whole step of a send: totals, ring, loss mark, minute, session |
| CallMeter.Meters.RecordWindowFail | aiforge_core/llm/call_meter.py:197-212 | a failure too old for every reported minute is refused and charged to no window; any other is noted in its minute, and in the 60-second list while its send is that young |
| CallMeter.Meters.RecordSessionFail | aiforge_core/llm/call_meter.py:215-228 | charges only a session still known, which becomes the newest, and its turn only on a real match |
| CallMeter.Meters.RecordFailure | aiforge_core/llm/call_meter.py:231-266 | the whole step of a failure, an old one counting in the lifetime total alone, none in a minute to come, a session named by the caller charged in place of the billed one |
| CallMeter.Meters.TurnReset | aiforge_core/llm/call_meter.py:386-405 | the turn's counts restart under a new epoch |
| CallMeter.Meters.Snapshot | aiforge_core/llm/_meter_report.py:185-224 | the sends and failures of the last 60 seconds, of the current minute with the 14 before it and with the 59, of the trimmed and pruned meter; the session asked for becomes the newest |
| CallMeter.Meters.GlobalSnapshot | aiforge_core/llm/_meter_report.py:227-283 | the same machine-wide, with both series and the floor flag |
| MeterRuns.RateCountsTheHistory | aiforge_core/llm/_meter_report.py:175-177 | after any run of sends, turns, snapshots and late failures, totals and the 60-second rate are the counts of the history |
| MeterRuns.FlagMissesAfterEveryRunIff | aiforge_core/llm/_meter_report.py:272-276 | the same of the numbers shown after any run |
| MeterRuns.WindowsCountEveryRun | aiforge_core/llm/_meter_report.py:102-172 | after any run, every minute and window is the count of the history, and every listed label of a minute the count of its occurrences |
| MeterRuns.FailuresNeverExceedRequests | aiforge_core/llm/call_meter.py:231-266 | after any run, failures never exceed requests in total, in the last 60 seconds, in every window and every minute |
| MeterRuns.SessionViewCountsTheHistory | aiforge_core/llm/_meter_report.py:196-211 | after any run over at most 200 sessions, a snapshot of one counts its own sends and charged failures, in all and in its turn |
| MeterShown.SnapshotsCountTheHistory | aiforge_core/llm/_meter_report.py:185-283 | after any run the numbers shown are: the sends of the last 60 seconds, up to 20000; the sends of minutes from 14, and from 59, before the current one on, and the failed ones among them |
| MeterShown.FailedPerMinuteCountsTheHistory | aiforge_core/llm/call_meter.py:206-210 | after any run the failures shown of the last 60 seconds are the failed sends of these, up to 20000, one that is exactly 60 seconds old if it was known to have failed before |
| MeterShown.FlagMeansLoss | aiforge_core/llm/_meter_report.py:272-276 | after any run the floor flag is up only if a send less than 60 seconds ago found the ring full |
| Names.OnlyOneOrder | aiforge_core/indexing/merkle.py:189-191 | a set of names has one sorted order, so no set order can show in a hash |
| Names.PrecedesIff | aiforge_core/indexing/merkle.py:189-191 | names are ordered by the first character in which they differ, a prefix first |
| Names.Sort | aiforge_core/indexing/merkle.py:189-191 | sorting a duplicate-free list gives that order |
| Merkle.JoinedInjective | aiforge_core/indexing/merkle.py:188-193 | digests of one length can be read back from what a hash object was fed |
| Merkle.FolderHashesLocateChanges | aiforge_core/indexing/merkle.py:185-194 | over the same paths and absent a collision, a folder's hash is unchanged if and only if every file under it is |
| Merkle.RootsEqualIffFilesEqual | aiforge_core/indexing/merkle.py:44-72 | so root hashes are equal if and only if every file's hash is |
| Merkle.ChildIsDeeper | aiforge_core/indexing/merkle.py:185-194 | the recursion goes strictly deeper, so it ends |
| MerkleRename.FolderHashIs | aiforge_core/indexing/merkle.py:185-194 | a folder's hash is a function of the digests and folders below it in name order, without the names |
| MerkleRename.FolderHashFeeds | aiforge_core/indexing/merkle.py:185-194 | a folder's hash object is fed the digests of its files in the order of their names, and after them the hashes of its folders in the order of theirs |
| MerkleRename.FolderHashesAgreeIff | aiforge_core/indexing/merkle.py:188-193 | one level of any two folders with as many files and as many folders: their hashes agree if and only if their digests do and their folders' hashes do, in name order |
| MerkleRename.RootsEqualIffSameTree | aiforge_core/indexing/merkle.py:66-68 | all the way down, whatever the names: roots of one skeleton agree if and only if the trees are the same but for names |
| MerkleRename.RootsEqualIffAlike | aiforge_core/indexing/merkle.py:185-194 | roots of any two trees agree if and only if as much is hashed in each place, all the way down: files of one digest, folders that are alike, or a file whose digest is the other's folder hash |
| MerkleRename.RenamingKeepsTheHashes | aiforge_core/indexing/merkle.py:189-192 | any renaming of files and folders that keeps their order in every folder keeps every folder's hash and the root's |
| MerkleRename.RenameKeepsTheRoot | aiforge_core/indexing/merkle.py:189-190 | a renamed single file, for one, leaves the root |
| MerkleRename.FolderLooksLikeAFile | aiforge_core/indexing/merkle.py:188-193 | trees of different skeletons may share a root with no collision |
| MerkleIndex.FolderHasher.HashFolder | aiforge_core/indexing/merkle.py:185-194 | the memoised hash is the plain recursive one, and the memo never holds anything else, whatever the order of the asks |
| MerkleIndex.AllFolderPaths | aiforge_core/indexing/merkle.py:152-161 | exactly the folders with a file somewhere below, and the root |
| MerkleIndex.FolderChildren | aiforge_core/indexing/merkle.py:164-173 | each folder's immediate child folders, each once |
| MerkleIndex.Index.ComputeFolderHashes | aiforge_core/indexing/merkle.py:176-198 | the plain hash of every folder, whatever order the set is walked in |
| MerkleIndex.Index.Collect | aiforge_core/indexing/merkle.py:53-64 | the readable files by digest, and by folder |
| MerkleIndex.Index.Build | aiforge_core/indexing/merkle.py:44-72 | the rows become the readable files and every folder's hash; returns the root hash |
| MerkleIndex.Index.CurrentRoot | aiforge_core/indexing/merkle.py:108-117 | the persisted root hash, or none before a build |
| MerkleIndex.Index.Forget | aiforge_core/indexing/merkle.py:120-124 | every row is dropped, so no root is persisted |
| MerkleIndex.Index.Diff | aiforge_core/indexing/merkle.py:75-105 | each file read whose digest is new or another, and each path of the snapshot the walk did not come across, exactly once; a file it could not read never; nothing at all for a caller whose root is the persisted one |
| MerkleIndex.ReportedIff | aiforge_core/indexing/merkle.py:89-103 | that of any walk and any snapshot, path by path |
| MerkleIndex.ChangedPathsAreThePatch | aiforge_core/indexing/merkle.py:89-103 | patching the snapshot on a set of paths gives the current tree if and only if the set contains the reported ones |
| MerkleIndex.NothingChangedIffSameRoot | aiforge_core/indexing/merkle.py:75-105 | over the same paths nothing is reported if and only if the root a build would return is the old one |
| MerkleIndex.UnchangedTreeHasNoDiff | aiforge_core/indexing/merkle.py:84-105 | right after a build an unchanged tree reports nothing, unreadable files or not |
| AtomicPublish.ReadersSeeOneWholeBody | aiforge_core/config/_atomic.py:68-96 | any writers, failures and power losses, each of which may cut every file down to what was synced: the file is as it first was or exactly one body some writer was given |
| AtomicPublish.UnsyncedBodyIsTorn | aiforge_core/config/_atomic.py:88-92 | without the fsync any shorter prefix of a body can be what a power loss leaves of the published file |
| AtomicPublish.WholeIffSynced | aiforge_core/config/_atomic.py:20-21 | a publication is whole in every run if and only if the bytes are synced before the rename |
| AtomicPublish.FinishedWritersLeaveNothing | aiforge_core/config/_atomic.py:93-96 | once every writer has published or failed and unlinked, no staged file is left |
| AtomicPublish.Directory.WriteBytes | aiforge_core/config/_atomic.py:68-96 | publishes the whole body or leaves the file as it was, with no litter unless the unlink itself failed |
| ConfigCache.LoadsAreLinearizable | aiforge_core/config/model_registry.py:97-128 | if no versions clash, which a stamp per publication rules out, any interleaving of cached loads, saves by any process and evictions: every load returns what the file held at some instant between its call and its return |
| ConfigCache.OwnStampsCohere | aiforge_core/config/model_registry.py:97-104 | with a stamp per publication no versions clash |
| ConfigCache.LinearizableIff | aiforge_core/config/_filecache.py:29-61 | over a history of the file every interleaving is linearizable if and only if no two versions share a stamp around rows the later one does not hold, even if every save drops the entry |
| ConfigCache.HitIsCurrent | aiforge_core/config/model_registry.py:110-113 | a cache hit is an answer of some version since the call |
| ConfigCache.SharedStampServesOldRows | aiforge_core/config/_filecache.py:49-61 | with a stamp of modification time alone, a load called after the save returned can be answered with the rows it replaced |
| ConfigCache.SaveIsSeen | aiforge_core/config/_filecache.py:49-61 | undisturbed, a load called after a save and its eviction returns what was saved, whatever the stamp, and leaves it cached |
| ConfigCache.MissingIsForgotten | aiforge_core/config/_filecache.py:34-38 | the file cache forgets a file it finds missing, so that one that comes back under its old stamp is parsed |
| ConfigCache.CachedFile.Load | aiforge_core/config/_filecache.py:29-46 | alone, a load returns the file's own rows, missing and corrupt files each answered as their cache does; it opens the file exactly when the stamp is not the cached one, and then caches what it may |
| ConfigCache.CachedFile.Save | aiforge_core/config/model_registry.py:125-128 | after a save the cache can hold nothing older |
| ConfigCache.CachedFile.Replaced | aiforge_core/config/_filecache.py:6-8 | another process's publication leaves the next load right if and only if it does not share the cached stamp with other rows |
| RuntimeEnv.LinesSurviveIffUnbroken | aiforge_core/api/_shared.py:83-96 | lines come back from the file as written if and only if none holds a character the reader breaks at |
| RuntimeEnv.ReadersDisagreeIffBroken | aiforge_core/api/_startup.py:128-130 | the loader always reads the lines the writer wrote; the writer itself fails to exactly when a line holds an exotic separator |
| RuntimeEnv.UpsertAt | aiforge_core/api/_shared.py:87-94 | the first line of the key changes in place, else one is added last; all others and the order stay |
| RuntimeEnv.NamesAreKept | aiforge_core/api/_shared.py:71-76 | a key is saved exactly as given if and only if it has name characters only |
| RuntimeEnv.KeyOfJoined | aiforge_core/api/_shared.py:71-76 | the others are dropped one by one, whatever stands around them |
| RuntimeEnvText.OneCharKey | aiforge_core/api/_shared.py:71-76 | the name characters are the ASCII letters, the digits and the underscore |
| RuntimeEnv.RuntimeEnvFile.PersistEnv | aiforge_core/api/_shared.py:64-96 | the file afterwards, an empty key changing nothing and a name saved as it is |
| RuntimeEnv.RuntimeEnvFile.ApplyRuntimeEnvLine | aiforge_core/api/_startup.py:102-114 | one line: skipped, applied, or refused by the environment for a NUL |
| RuntimeEnv.RuntimeEnvFile.LoadRuntimeEnv | aiforge_core/api/_startup.py:117-132 | the environment afterwards, line by line up to the first refused one |
| RuntimeEnv.OwnLineParses | aiforge_core/api/_startup.py:102-114 | the loader reads a written line as its key and its value, stripped |
| RuntimeEnvText.SettingIs | aiforge_core/api/_startup.py:102-114 | any line with a key before its first `=` is read as that key and the value after it, space around either ignored |
| RuntimeEnvText.NotASetting | aiforge_core/api/_startup.py:102-108 | a comment, a blank line and a line without `=` are nothing |
| RuntimeEnvText.AnyNewlineReads | aiforge_core/api/_shared.py:81-83 | a file is read as the same lines whether they end in LF, CR LF or CR |
| RuntimeEnvText.SavedNameIsRestored | aiforge_core/api/_startup.py:102-132 | a name saved into a new file and loaded: the environment gains exactly that name with its value, stripped, unless it has it already, it is a stale database key, or the value holds a NUL |
| RuntimeEnv.FirstSettingWins | aiforge_core/api/_startup.py:111-132 | the first line of a key wins, unless the environment has it, it is a stale database key, or a refused line at or above it has ended the load; the load ends exactly at such a line |
| RuntimeEnv.FileHoldsTheSettings | aiforge_core/api/_shared.py:83-96 | after any plain saves the file is one line per key, in the order the keys came |
| RuntimeEnv.SavedSettingsAreRestored | aiforge_core/api/_startup.py:102-132 | from a file the writer made, a key to be restored gets the last value saved under it, stripped, if and only if no applied setting at or above its line holds a NUL; the environment's own and the database keys aside, nothing else appears |
| RuntimeEnv.AllSettingsRestoredIff | aiforge_core/api/_startup.py:117-132 | every saved key is restored if and only if no applied one was last saved with a NUL |
| RuntimeEnv.NulEndsTheLoad | aiforge_core/api/_startup.py:112-114 | a first saved value with a NUL takes every other saved key with it |
| RuntimeEnv.SaveTakesEffectUnlessShadowed | aiforge_core/api/_shared.py:87-94 | over any file at all, the key is restored by the next load if and only if no line applied up to the one that gives it is refused; what gives it is the saved line, unless a line above is read as that key |
| RuntimeEnv.HandSpacedLineShadowsTheSave | aiforge_core/api/_startup.py:109-110 | a line `KEY = value` set by hand shadows every later save of that key, or with a NUL ends every load |
| RuntimeEnvBreaks.RunIsWritten | aiforge_core/api/_shared.py:81-96 | after any saves of any values the file holds the lines before, each cut at every separator, with the saved one put in; the loader reads exactly these lines |
| RuntimeEnvBreaks.NextSaveCutsTheLine | aiforge_core/api/_shared.py:83-94 | over any file: the next save of another key cuts the saved line at its value's first separator, and of the lines above rewrites at most its own |
| RuntimeEnvBreaks.NextSaveCutsTheValue | aiforge_core/api/_shared.py:86-94 | after it the value is restored only up to its first separator, so it survives if and only if no NUL comes before that and nothing but space after |
| RuntimeEnvBreaks.OnlySavedKeysIff | aiforge_core/api/_shared.py:66-69 | whatever values may be saved, in any order and under any keys: the file never holds a setting of a key nobody saved if and only if no piece of a value after its first is read as one |
| RuntimeEnvBreaks.OnlySavedKeysAreRestored | aiforge_core/api/_startup.py:117-132 | then what is restored was in the environment or saved, NULs or not |
| RuntimeEnvBreaks.OnlySavedKeysAreRestoredIff | aiforge_core/api/_startup.py:117-132 | for values without NULs and an empty environment only saved keys are restored if and only if no value holds such a piece |
| RuntimeEnvBreaks.SmuggledSettingIsRestored | aiforge_core/api/_shared.py:68-69 | a setting behind a value's first separator is restored after the next save of another key, cut at its own first separator, if and only if no NUL prevents it |

## Left out

- SQLite itself: WAL, lock timeouts, busy retries, degradation and cooldown of the shared store. A transaction is one step that commits.
- `rate_limiter.acquire_global` and the callers of the meter: their waiting loops are not part of this model.
- Floating point: instants, rates and tokens are real numbers, so NaN and rounding do not arise; times of jobs are whole seconds.
- The trim of `force` breaks ties between equal stamps by rowid; SQLite does not promise which of them it drops.
- `_binding_wait` returning nothing for a window emptied in a race: within one transaction the rows cannot vanish.
- Token accounting of the meter (`record_tokens`, `tokens_out`, `last_prompt_tokens`) and the step counter: the same counting again, without the subset claims.
- CallMeter.Meters.BillSessionLocked: does not keep the session's `by_role` table, which counts the same sends by one more label.
- CallMeter.Meters.TurnReset: does not reset the turn's token fields, which are not modelled.
- CallMeter.Meters.Snapshot: does not return the token fields and `by_role`, which are not modelled.
- CallMeter.Meters.GlobalSnapshot: does not return token sums and the label breakdowns summed over minutes; the minutes' own label tables are `MeterBuckets.Tallies`.
- MeterRuns.FailuresNeverExceedRequests: is about failures billed by their token; one charged to a session the caller names may exceed that session's sends.
- Label text: `str(...)`, whitespace stripping and the provider's own names; labels arrive as strings and are clipped to 64 characters.
- The context variables that carry a turn or a session: a send names its session and its bound turn.
- The chat session a scheduled agent is bound to (`_SESSION_AGENT`, `chat_cancel`), the run history (`_log_run`) and `stop_all`.
- croniter: a cron is its set of slots and the least one after an instant.
- Whether a recorded pid is alive is a parameter of `ResumeInflight`; the thread that watches such a script is steps of `JobProtocol`.
- JobPids.OwnPidIff: for a run that has a token; a run without one has no claim that a pid could be the own one of.
- JobKills.PidStaysIff: a pid that the system hands out again to the same job counts as registered anew, which its condition leaves out.
- Job text, workspaces, the chat agent and script output: a worker runs, ends or is killed.
- JobStops.StopReachesTheAgent: says the event is raised, not that the agent's own loop then ends, which is outside this code.
- Walking the tree, extension filters and reading files: a walk is a list of paths with a digest or none. SHA-256 is a function of fixed-length output; no collision is assumed only between the two trees compared.
- Merkle.RootsEqualIffFilesEqual: for trees of the same paths; for others see `MerkleRename.RootsEqualIffSameTree`.
- Deep copies out of the caches: rows are values, so aliasing between callers does not arise.
- AtomicPublish.ReadersSeeOneWholeBody: file modes and missing parent directories are not modelled.
- RuntimeEnvBreaks.OnlySavedKeysAreRestoredIff: for values without NULs; a NUL may end the load before the foreign setting, though `RuntimeEnvBreaks.OnlySavedKeysIff` has it in the file.
- JobStops.StopIsMissedIffTokenless: for a row that is still there and no new claim; `JobStops.StopIsMissedIff` covers the rest.
- Text encodings and file permissions of `runtime.env`; the lock around its writer makes each save one step.
- Endpoint selection, model roles, prompts, HTTP routes and integrations.
