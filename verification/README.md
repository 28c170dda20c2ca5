# OCP daemon: verified model

OCP puts a placeholder worker on idle GPUs and must keep off every GPU a user has paused.
This project models the daemon in Dafny and proves what its users rely on: pauses are
honoured across restarts, workers on paused GPUs are torn down, exactly when every live
worker is on record and so no GPU has two, the idle debounce is neither skipped nor overrun,
leases survive a crash, and the event history stays bounded without losing an entry.

## How the model is built

Each stateful component is a class with the program's own fields, methods that update them,
and a `View()` that gives the state as a value. The methods are proved to take exactly the
steps of functions and relations on such values, and the laws are proved about those. Ghost
fields keep what the program does not: the clock readings of the daemon, and of the history
the entries appended and the number of lines written since the file was loaded.

| file | contents |
|---|---|
| `lease.dfy`, `lease_laws.dfy` | lease map, state file, `LeaseStore`; crash agreement, exact release, conservation, tenure |
| `workers.dfy`, `worker_laws.dfy` | `WorkerManager` with `stop` and `_watch` cut at their suspension points; map agreement, process ledger, draining |
| `history.dfy`, `history_laws.dfy` | `HistoryStore` with ring, file, queue and writer; refinement, bound, amortised cost, no loss, queries |
| `config.dfy`, `controller.dfy`, `controller_laws.dfy`, `policy_laws.dfy` | the policy per device and per tick, `Controller`; what a tick does to the pool and to each GPU; thresholds, deadlines, permissions and watched GPUs in numbers |
| `daemon.dfy`, `daemon_object.dfy` | the daemon as a transition system, and the `Daemon` object that takes its steps |
| `daemon_laws.dfy`, `run_laws.dfy`, `debounce_laws.dfy`, `ledger_laws.dfy`, `orphan_runs.dfy`, `early_start.dfy`, `expiry_laws.dfy` | safety over whole runs, and runs that break it |
| `decimal.dfy`, `duration.dfy`, `gpuspec.dfy` | the two command-line parsers and their printers |
| `framing.dfy` | length-prefixed frames over a stream cut anywhere |
| `memory.dfy` | sizing of the worker's allocations |

`Daemons.Next` is the transition relation. A tick, a pause, a resume, a sweep of expired
leases, a configuration swap and a restart are one step each, because the lock is never held
across a suspension. `stop` and `_watch` are several steps, and any other step may come
between them. A restart may come at any moment: it keeps the state file and the operating
system's processes and forgets everything else. The history writer takes one step per entry;
it suspends only on an empty queue, since `get` of an asyncio queue returns at once otherwise.

Clocks, monitor readings, pids, random picks, exits of processes and the cutting of byte
streams are inputs. Both clocks are assumed not to run backwards. Times are real numbers.

## Findings

Some promises hold only under a condition, which is proved exactly.

- The cleanup at the end of `stop` does not check which process the maps hold, and a worker
  outlives a daemon that dies without shutting down. The process ledger, by which every live
  process is the one on file for its GPU, holds throughout a run if and only if no finishing
  `stop` finds a live process on file and no restart finds one alive (`LedgerIff`, step by step
  `StepKeepsLedgerIff` and `RestartKeepsLedgerIff`). `SlowStopOrphans` and `RestartOrphans` are
  runs of the daemon that break it, `UnguardedSpawnIsOrphaned` one of the worker pool alone.
- The first half of that condition follows if no process is started on a GPU while a `stop` for
  it is waiting, and this from timing: it holds in every run in which each `stop` is over less
  than a debounce after a tick that left its process alive (`OneLiveWorkerWhenStopsArePrompt`).
  A run that meets this guard, and restarts the daemon only when no worker is alive, is called
  orderly.
- Memory and state file agree after `load` at t0 if and only if, for every GPU, no line of the
  file has a later deadline than the last line unexpired at t0 (`LoadRecoversIff`). Files the
  daemon wrote always qualify (`PersistedFileOutlasts`); `DuplicateLinesDisagree` is a file that
  does not.
- Changing the history cap keeps the ring equal to the file's last entries if and only if the
  new cap is no larger or the whole file fits the old one (`SetMaxInStepIff`); in
  `RaisedCapDisagrees` neither is so.
- Texts accepted one by one are accepted written one after another, with the sum of their
  totals, if and only if no space comes between them (`ParseAdditive`).
- A formatted duration can be parsed as it stands if and only if it has a single part, since
  parts are joined with spaces and spaces are rejected (`FormattedParsesIff`).
- A frame can be written with an empty body, which every reader refuses; frames are read back
  if and only if the body is not empty (`WriteThenRead`).
- Idle time is counted at most once if and only if the GPU is listed at most once
  (`TimeCountedOnceIff`), and only then is the debounce kept in every run (`FullDebounceIff`;
  `RepeatedStartsEarly` is a run that cuts it short). Configuration validation does not reject
  repeated GPU indices, so the debounce laws assume that the GPU at hand is not repeated while
  they count.

## Model

| member | source | states |
|---|---|---|
| Leases.LeaseStore.Acquire | src/ocp/lease.py:67-110 | a request succeeds if and only if no requested GPU is held by another user; a refused one changes neither map nor file and reports the conflicts; a granted one persists and answers the lease now in the map for each request |
| Leases.GrantAllPointwise | src/ocp/lease.py:95-108 | for any list of GPUs, repeats included, exactly the requested GPUs change, each to the pointwise extension of its lease before the request |
| Leases.ConflictsExact | src/ocp/lease.py:83-93 | the reported conflicts are exactly the requests for GPUs leased to another uid, in request order, each with the name of the holder and the whole seconds left, none if the lease has expired |
| Leases.LeaseStore.Release | src/ocp/lease.py:112-139 | the released list, the errors and the new map are those of the per-GPU release; the file is rewritten only if something was released |
| LeaseLaws.ReleaseExact | src/ocp/lease.py:123-136 | a release removes exactly the requested leases the caller holds or, being root, any requested lease, each once |
| LeaseLaws.ReleaseErrorsTrue | src/ocp/lease.py:125-134 | every error names a requested GPU, and says there is no pause or names another holder only when that is so |
| LeaseLaws.ReleaseCounts | src/ocp/lease.py:120-139 | every request is answered once, and released plus remaining leases are the leases before |
| Leases.LeaseStore.Expire | src/ocp/lease.py:141-145 | removes and returns the lease of one GPU, persisting only if there was one |
| Leases.LeaseStore.SweepExpired | src/ocp/lease.py:147-153 | removes exactly the leases whose deadline is not after `now`, returns each once, persists only if there were any |
| Leases.LeaseStore.Load | src/ocp/lease.py:157-174 | adds the unexpired lines of the file, later lines winning, and leaves the file as it is |
| Leases.LeaseStore.Persist | src/ocp/lease.py:176-181 | the file then lists each lease of the map exactly once |
| LeaseLaws.LoadRecoversIff | src/ocp/lease.py:157-174 | after `load` at t0, restarts at every later time recover exactly the unexpired leases if and only if, for every GPU, no line of the file has a later deadline than the last line unexpired at t0 |
| LeaseLaws.DuplicateLinesDisagree | src/ocp/lease.py:166-173 | a file with a shorter line after a longer one for the same GPU for which memory and file disagree |
| LeaseLaws.PersistedFileOutlasts | src/ocp/lease.py:176-181 | a file written by `persist` always meets that condition |
| LeaseLaws.CrashAgreement | src/ocp/lease.py:67-181 | after any sequence of acquire, release, expire and sweep following a load, a restart at any later time recovers exactly the unexpired leases |
| LeaseLaws.GrantsConserved | src/ocp/lease.py:82-153 | from an empty store, fresh grants equal leases present plus leases released or expired |
| LeaseLaws.StepTenure | src/ocp/lease.py:95-153 | a lease that stays keeps holder and acquisition time and never gets an earlier deadline; it goes if and only if released by holder or root, expired by hand, or swept past its deadline |
| Workers.WorkerManager.SpawnWorker | src/ocp/worker/manager.py:55-73 | starts a process and its watcher unless the GPU has one on file, and returns the record on file |
| Workers.WorkerManager.BeginStop | src/ocp/worker/manager.py:75-83 | the first segment of `stop`: ends at once without a process, cleans up an exited one, else waits for the one on file |
| Workers.WorkerManager.KillStop | src/ocp/worker/manager.py:84-92 | on the SIGTERM timeout `stop` sends SIGKILL, once, and goes on waiting; nothing else changes |
| Workers.WorkerManager.FinishStop | src/ocp/worker/manager.py:84-93 | the last segment of `stop`: once the awaited process has exited, cleans the GPU up whatever the maps hold for it |
| Workers.WorkerManager.CleanupGpu | src/ocp/worker/manager.py:101-106 | forgets the GPU in all three maps and cancels its watcher |
| Workers.WorkerManager.FinishWatch | src/ocp/worker/manager.py:108-121 | a cancelled watcher just ends; another cleans up and reports a crash if the maps hold its very process |
| Workers.WorkerManager.StopAll | src/ocp/worker/manager.py:95-99 | schedules one `stop` for every GPU on file, each GPU exactly once |
| WorkerLaws.StepKeepsWellFormed | src/ocp/worker/manager.py:55-121 | every step keeps the three key sets equal, each recorded pid that of the recorded process, and watchers paired with the processes on file |
| WorkerLaws.SpawnRecords | src/ocp/worker/manager.py:55-73 | a spawn on a GPU with a worker on file changes nothing; any other starts one live process, puts it on file with its pid, and watches it |
| WorkerLaws.StopBegins | src/ocp/worker/manager.py:75-83 | a `stop` that begins ends without a worker on file, cleans up an exited one, and else waits for the live one on file, able to kill and not yet to finish |
| WorkerLaws.WaitingCanKill | src/ocp/worker/manager.py:84-92 | a waiting `stop` stays able to kill, once, until it runs again, in every interleaving |
| WorkerLaws.StopFinishes | src/ocp/worker/manager.py:84-106 | a `stop` finishes only after the process it awaited has exited, and then its GPU alone is forgotten and its watcher cancelled |
| WorkerLaws.WatchFinishes | src/ocp/worker/manager.py:108-121 | an uncancelled watcher ends only after its process has exited and forgets its GPU; a cancelled one changes nothing |
| WorkerLaws.UncancelledWatcherReports | src/ocp/worker/manager.py:113-116 | the identity test in `_watch` never fails for a watcher that has not been cancelled |
| WorkerLaws.RunKeepsLedger | src/ocp/worker/manager.py:55-121 | in every run in which no process is started on a GPU while a `stop` for it is waiting, every live process is the one on file for its GPU |
| WorkerLaws.FinishKeepsLedgerIff | src/ocp/worker/manager.py:84-93 | the unchecked cleanup of `stop` keeps the ledger if and only if the GPU has no live process on file |
| WorkerLaws.StepKeepsLedgerIff | src/ocp/worker/manager.py:55-121 | no other step of the pool can break the ledger |
| WorkerLaws.UnguardedSpawnIsOrphaned | src/ocp/worker/manager.py:75-121 | a seven-step run from the empty pool, with a spawn while a `stop` waits, that ends with a live process on no record |
| WorkerLaws.StopAllDrains | src/ocp/worker/manager.py:95-99 | after `stop_all` and without further spawns, once the stops it scheduled have ended, in every interleaving and whatever older stops still do, the maps are empty; and no process is live if the ledger holds, as it does when every older stop aimed at the worker on file |
| WorkerLaws.ScheduledExactly | src/ocp/controller.py:161-163 | the stops scheduled for a list of GPUs are for those with a worker on file, one each if the list has no repeats |
| WorkerLaws.StopEndsInThreeSegments | src/ocp/worker/manager.py:75-93 | in every interleaving a `stop` runs at most three segments: it begins, kills at most once, and finishes |
| WorkerLaws.AllStopsCanEnd | src/ocp/worker/manager.py:75-99 | from every reachable pool all stops in flight can end, within three steps each |
| WorkerLaws.StepKeepsStopPending | src/ocp/worker/manager.py:75-106 | whatever else happens, a `stop` in flight for a GPU stays in flight until the GPU has no worker on file |
| History.HistoryStore.SetMaxEntries | src/ocp/history.py:66-70 | refuses exactly the caps below 10, else truncates the ring to its latest entries |
| History.HistoryStore.Load | src/ocp/history.py:72-92 | counts the lines and keeps the last `max` of them, or creates the file |
| History.HistoryStore.RunWriter | src/ocp/history.py:156-182 | the writer from one suspension to the next, which it makes only on an empty queue: it handles the queue entry by entry and, after a sentinel, drains what is left and returns |
| History.HistoryStore.HandleEntry | src/ocp/history.py:162-171 | one entry of the main loop: ring, file and log get it, and a file past the threshold is replaced by the ring |
| History.HistoryStore.StopWriter | src/ocp/history.py:101-106 | queues the sentinel, unless the writer has returned |
| History.HistoryStore.CompactFile | src/ocp/history.py:190-199 | the file becomes the ring and the counter its length |
| History.HistoryStore.RunQuery | src/ocp/history.py:134-152 | filtering by time, user and uid one after another and cutting to `n` selects the latest `n` entries that match all three |
| HistoryLaws.SelectExact | src/ocp/history.py:134-152 | a query answers ring entries in ring order that are not before the cutoff and of the user and uid asked for, and misses such an entry only if it answers `n` later ones |
| HistoryLaws.RunRefines | src/ocp/history.py:66-199 | in every run, cap changes included, the entries appended so far and those queued are the initial file and everything recorded, in order; the file is a suffix of the appended entries and the ring of the file, and both keep the latest of them, as many as the least cap so far allows |
| HistoryLaws.RunInStep | src/ocp/history.py:72-92 | while the cap is not raised the ring is exactly the last `max` entries appended and the last `max` on file, so a restart rebuilds the identical ring |
| HistoryLaws.SetMaxInStepIff | src/ocp/history.py:66-70 | a new cap keeps that agreement if and only if it is no larger or the file fits the old one |
| HistoryLaws.RaisedCapDisagrees | src/ocp/history.py:66-70 | a cap raised from 10 to 12 over a file of 11 lines leaves 10 entries in the ring where a restart finds 11 |
| HistoryLaws.HandleRefines | src/ocp/history.py:162-171 | handling an entry appends it behind all lines on file; exactly if the file then exceeds six fifths of the cap it is cut, to the latest `max` entries of the ring; the latest entries kept before stay kept |
| HistoryLaws.HandledFileBounded | src/ocp/history.py:167-171 | after every entry the main loop handles, the file has at most six fifths of the cap in lines, whatever it held before |
| HistoryLaws.RunFileBounded | src/ocp/history.py:162-171 | in every run, whatever is recorded and however the cap changes, the file is within six fifths of the cap after each entry of the main loop |
| HistoryLaws.AmortisedWriteCost | src/ocp/history.py:156-199 | in every run at a fixed cap, whatever is recorded in between, the lines written to the file while k entries are appended are at most 6k + 5 max(0, lines0 - max), compactions and drain included |
| HistoryLaws.WriteAllCost | src/ocp/history.py:156-199 | the same bound for the writer between two suspensions |
| HistoryLaws.FinishedWriterLostNothing | src/ocp/history.py:101-132 | when the writer finishes, everything recorded by then, also behind the sentinel, has been appended to the file exactly once in recording order; what was still queued is on file in full, and ring and file end with the latest of all entries, as many as the least cap so far allows |
| HistoryLaws.DrainAppendsAll | src/ocp/history.py:172-182 | the final drain appends every queued entry to the file once, in order, and empties the queue |
| HistoryLaws.WriteAllHandlesAll | src/ocp/history.py:156-182 | between two suspensions the writer appends everything queued in order, keeps the latest entries in ring and file, and returns if and only if there was a sentinel |
| Control.Controller.WatchGpus | src/ocp/controller.py:61-67 | known devices keep their state, new ones start fresh, dropped ones are forgotten |
| Control.Controller.TickOnce | src/ocp/controller.py:72-96 | sweeps expired leases, records each, then carries the policy out on every watched GPU in turn |
| Control.Controller.Apply | src/ocp/controller.py:98-145 | device state, worker pool and history after one sample are those of the policy's verdict |
| Control.Controller.Pause | src/ocp/controller.py:152-164 | succeeds if and only if all GPUs are watched and none is held by another user, then schedules a stop for every covered worker; a failure changes nothing |
| Control.Controller.Resume | src/ocp/controller.py:166-168 | releases leases as the lease store does and touches nothing else |
| ControlLaws.DeviceStepSound | src/ocp/controller.py:98-145 | a sampled device causes at most one pool step: a spawn only without lease and worker, a stop only with both |
| ControlLaws.TickStartsUncovered | src/ocp/controller.py:80-119 | a tick starts processes only on watched GPUs without a lease |
| ControlLaws.TickTreats | src/ocp/controller.py:72-145 | a GPU listed once gets exactly one verdict, from its state before the tick whatever happens to the others, and a process is started on it if and only if the verdict says so |
| ControlLaws.TimeCountedOnceIff | src/ocp/controller.py:86-127 | no tick adds more idle time to a GPU than has passed, if and only if the GPU is listed at most once |
| ControlLaws.TickMisses | src/ocp/controller.py:86-95 | a GPU not watched, or whose monitor raises, is left alone by a tick |
| PolicyLaws.SampleDecides | src/ocp/controller.py:98-145 | in every tick, case by case with the thresholds written out: a leased GPU has its count reset, one with a worker keeps it, one at or over a threshold has it reset, and a free one counts the time since the last tick until the debounce is reached, which starts a worker |
| PolicyLaws.QuietIsFree | src/ocp/monitor/base.py:18-22 | a sample is quiet if and only if utilisation is below util_low and 100 used < mem_low total, the used share being zero without a total |
| PolicyLaws.ErrorDecides | src/ocp/controller.py:100-104 | a sample with an error text changes nothing but what is shown |
| PolicyLaws.StartsAreSafe | src/ocp/controller.py:98-134 | in every run from the first start, every worker is started by a tick, on a GPU of the indices in force if any are configured, without a lease, which that tick sampled without error and below both thresholds, however often it is listed |
| PolicyLaws.DeviceRecords | src/ocp/controller.py:86-140 | a tick records one failure per GPU whose monitor raises and one entry per worker started, and nothing else about a GPU |
| PolicyLaws.StopsScheduledIff | src/ocp/controller.py:110-164 | a step of the daemon schedules a `stop` for a GPU if and only if the GPU has a worker on file and the step is a tick that samples it leased and without error, an accepted pause of it, or a shutdown |
| DaemonObject.Daemon.Startup | src/ocp/daemon.py:82-97 | watches the resolved GPUs, loads history and state file, and records the start |
| DaemonObject.Daemon.Boot | src/ocp/daemon.py:70-97 | a new daemon that has started up is the restarted state of the transition system: all it has of its predecessor is the two files, and none of the processes that still run is on file |
| DaemonObject.Daemon.MonitorTick | src/ocp/daemon.py:169-184 | takes a tick step of the transition system |
| DaemonObject.Daemon.HandlePause | src/ocp/daemon.py:354-427 | takes a pause step, answers the leases now in the map or the refusal, and records exactly the attempts that pass the checks |
| PolicyLaws.PauseRefusalTells | src/ocp/daemon.py:354-390 | a pause is refused, in this order, if the caller is neither uid 0 nor whitelisted by uid or name, if the GPUs are none, repeated or not watched, or if the duration is not positive, below the minimum, or a whole second or more over the maximum |
| PolicyLaws.PauseAcceptedIff | src/ocp/daemon.py:354-395 | a pause is accepted if and only if none of this holds and no requested GPU is leased to another uid |
| PolicyLaws.PauseExact | src/ocp/daemon.py:378-395 | an accepted pause leaves on each requested GPU a lease of the caller to the later of its old deadline and the requested whole seconds from now, acquired when it first was, and every other lease as it is; a refused one changes none |
| DaemonObject.Daemon.HandleResume | src/ocp/daemon.py:429-458 | takes a resume step, succeeds if and only if something was released, and records one entry per GPU |
| PolicyLaws.ResumeExact | src/ocp/daemon.py:429-447 | a resume removes a lease if and only if it is requested without repeats by a caller allowed to, who holds it or is uid 0; the others stay as they are |
| PolicyLaws.ResumeRefusalTells | src/ocp/daemon.py:228-236 | a resume is refused outright if the caller is neither uid 0 nor whitelisted, or the GPUs are none or repeated |
| DaemonObject.EntriesTell | src/ocp/daemon.py:197-213 | the fields of every entry that requests, reloads and sweeps record |
| DaemonObject.Daemon.HandleConfigReload | src/ocp/daemon.py:311-321 | only uid 0 reloads, and only a configuration that loads; every attempt by it is recorded, and anything else leaves the daemon as it was |
| DaemonObject.Daemon.ReloadConfig | src/ocp/daemon.py:323-335 | the same without a caller, on SIGHUP |
| DaemonObject.Daemon.ApplyNewConfig | src/ocp/daemon.py:337-352 | swaps configuration, history cap and watched list in one step and records the reload |
| PolicyLaws.ConfiguredAreWatched | src/ocp/daemon.py:159-165 | after a start and after a reload the daemon watches the configured indices, or what the monitor sees if there are none; a reload keeps the state of GPUs known before, all others are fresh |
| PolicyLaws.RestartForgets | src/ocp/daemon.py:70-97 | a restart keeps the state file and the processes that run, loads only unexpired lines, and forgets everything else |
| DaemonObject.Daemon.PlanSleep | src/ocp/daemon.py:186-194 | sleeps until the first deadline, not at all if it has passed, at most 30 seconds |
| DaemonObject.Daemon.ExpirySweep | src/ocp/daemon.py:202-208 | takes a sweep step and records every lease it drops, once |
| DaemonObject.Daemon.ResumeStop | src/ocp/worker/manager.py:75-93 | every segment of a `stop` takes a step of the transition system |
| DaemonObject.Daemon.ResumeWatch | src/ocp/worker/manager.py:108-121 | the end of a `_watch` takes a step of the transition system and records a crash if and only if it was not cancelled |
| DaemonObject.Daemon.BeginShutdown | src/ocp/daemon.py:103-119 | shutdown schedules a `stop` for every worker on file, once |
| DaemonObject.Daemon.FinishShutdown | src/ocp/daemon.py:119-126 | shutdown writes the state file, records the end and queues the sentinel |
| DaemonLaws.PauseHonoured | src/ocp/controller.py:80-134 | once a pause has granted a GPU until e, no step that leaves the wall clock below e starts a worker on it, across sweeps, other users, configuration swaps and restarts, unless holder or root resumed it |
| DaemonLaws.PauseGrants | src/ocp/daemon.py:391-395 | an accepted pause covers every requested GPU for at least the requested seconds and has a `stop` under way for every worker there |
| DaemonLaws.PauseEvicts | src/ocp/controller.py:152-164 | in a run that forgets no live process, while a pause stands unresumed, a GPU for which no `stop` is in flight any more has no live worker |
| DaemonLaws.StartsOnlyUncovered | src/ocp/controller.py:121-134 | only ticks start processes, and only on watched GPUs without a lease |
| DaemonLaws.LeasedWorkersAreTornDown | src/ocp/controller.py:110-164 | in every reachable interleaving the worker maps agree, and every leased GPU with a worker on file has a `stop` scheduled or in flight |
| DaemonLaws.LedgerIff | src/ocp/worker/manager.py:55-121 | in every run of the whole daemon every live process is always the one on file for its GPU if and only if no finishing `stop` finds a live process on file and no restart finds one alive |
| DaemonLaws.OneLiveWorkerEver | src/ocp/worker/manager.py:55-121 | then no GPU ever has two live workers; orderly runs, in which no process is started under a waiting `stop`, are of this kind |
| OrphanRuns.SlowStopOrphans | src/ocp/worker/manager.py:75-121 | a nine-step run of the whole daemon from its first start, without restart, in which a pause, a resume and a slow `stop` leave a live worker on no record |
| LedgerLaws.OneLiveWorkerWhenStopsArePrompt | src/ocp/worker/manager.py:75-93 | if every `stop` is over less than a debounce after a tick that left its process alive, every live process is always the one on file for its GPU and no GPU has two |
| LedgerLaws.AliveMeansNoStart | src/ocp/controller.py:121-145 | a worker alive right after a tick keeps its GPU free of new workers at every tick less than the debounce later |
| DaemonLaws.RestartKeepsLedgerIff | src/ocp/daemon.py:70-101 | a restart keeps the ledger if and only if no worker is alive |
| DaemonLaws.ShutdownDrains | src/ocp/daemon.py:103-119 | in every daemon run, once the stops of a shutdown have ended no worker is on file; and unless a live process had been forgotten before, none is alive and a restart keeps the ledger |
| OrphanRuns.RestartOrphans | src/ocp/daemon.py:70-101 | two ticks and a restart after which a live worker is on no record |
| RunLaws.RunRecovers | src/ocp/lease.py:147-181 | at every moment of every daemon run, restarts included, the state file holds exactly the unexpired leases |
| RunLaws.NextTenure | src/ocp/lease.py:95-174 | in every step of the daemon a lease stays with the same holder and acquisition time and no earlier deadline, or has expired, or was resumed by holder or root |
| RunLaws.LeaseTenure | src/ocp/lease.py:95-108 | the same over any stretch of a run in which the lease stays, restarts included |
| RunLaws.LeaseHorizon | src/ocp/daemon.py:379-395 | no lease ends later than the longest maximum duration ever in force, counted from now |
| DebounceLaws.DebounceSound | src/ocp/controller.py:98-145 | a worker is started only when at least the debounce has passed since every earlier tick that found the GPU busy, leased, occupied or started a worker on it, in this or an earlier daemon, if the GPU is not listed twice in between |
| EarlyStart.FullDebounceIff | src/ocp/controller.py:61-145 | that holds in every run watching a given list if and only if the list has the GPU at most once |
| EarlyStart.RepeatedStartsEarly | src/ocp/controller.py:86-127 | for every list with the GPU twice, a run of the daemon that starts a worker one second after a busy sample under a debounce of two |
| DebounceLaws.DebounceComplete | src/ocp/controller.py:121-143 | through a stretch of ticks that find the GPU idle or cannot see it, with workloads configured, the worker is started at the first tick that finds it idle with the idle time summed up reaching the debounce then in force, and at no earlier one; configuration swaps that keep the GPU watched may come in between |
| DebounceLaws.StretchCounts | src/ocp/controller.py:61-127 | through such a stretch, while the debounce is not reached, no worker is started and the idle count grows by exactly the time of the ticks that found the GPU idle, whatever other steps come between, short of a restart or a swap that stops watching the GPU |
| DebounceLaws.QuietTimeIsElapsed | src/ocp/controller.py:75-78 | if every tick of the stretch finds the GPU idle, that time is the time from the last tick before the stretch to its own last tick |
| DebounceLaws.BlindTickKeepsCount | src/ocp/controller.py:86-104 | a tick whose monitor raises or reports an error for the GPU neither grows nor resets its idle count and starts nothing on it |
| DebounceLaws.DecisionTells | src/ocp/controller.py:98-145 | the decision shown for a sampled GPU tells what the tick did: leased exactly when a lease covers it, occupied exactly when a worker was on file, spawned exactly when one was started; waiting only if found idle, active only if found busy and without a worker |
| DebounceLaws.RunOccupiedMeansZero | src/ocp/controller.py:110-145 | in every run a GPU with a worker on file has an idle count of zero |
| DebounceLaws.GoneMeansFullDebounce | src/ocp/controller.py:110-145 | after a crash or a `stop` the next worker is started only a full debounce after the last tick before any moment at which the old one was on file |
| ExpiryLaws.ExpiryLateness | src/ocp/daemon.py:186-208 | with exact wake-ups a lease is in the map at most max(0, 30 - least minimum duration) seconds past its deadline, and never past it when the minimum is at least 30, across graceful and abrupt restarts, however long the daemon is down |
| ExpiryLaws.SleepTells | src/ocp/daemon.py:188-194 | the loop never sleeps past the first deadline nor over 30 seconds, and less than 30 only up to a deadline or not at all once one has passed |
| ExpiryLaws.ZeroSleepIff | src/ocp/daemon.py:189-194 | the loop skips its sleep if and only if some lease has expired |
| ExpiryLaws.ZeroSleepSweeps | src/ocp/daemon.py:189-203 | an iteration without sleep removes at least one lease |
| Duration.TokenizerIsGrammar | src/ocp/duration.py:22-25 | find-all-then-rebuild accepts a non-empty text if and only if it is a concatenation of digits-plus-unit tokens |
| Duration.ParseExact | src/ocp/duration.py:15-29 | a text that reads as tokens parses to their total, or is refused if that is zero; so it has one reading |
| Duration.ParseRejectsIff | src/ocp/duration.py:19-25 | a text is refused as empty or as unrecognized if and only if, stripped and lowered, it is empty or outside the grammar |
| Duration.ParseAdditive | src/ocp/duration.py:15-29 | for any two accepted texts, their totals add up when they are written one after another if no space comes between them; otherwise the whole is refused |
| Duration.CaseAndBlankIgnored | src/ocp/duration.py:19 | what any text parses to does not depend on its case or on white space around it |
| Duration.OneUnitParses | src/ocp/duration.py:7-26 | a positive number with s, m or h parses to that many seconds, minutes or hours |
| Duration.FormatThenParse | src/ocp/duration.py:32-45 | deleting the spaces of a formatted positive duration and parsing gives the duration |
| Duration.FormattedParsesIff | src/ocp/duration.py:32-45 | a formatted duration parses as it stands if and only if it has a single part |
| Duration.FormatTells | src/ocp/duration.py:32-45 | a duration is written as its hours, minutes and seconds in this order, zero parts left out, single spaces between the others, and as 0s if not positive |
| Duration.FormatDuration | src/ocp/duration.py:32-45 | the step-by-step formatter writes the non-zero parts joined by spaces |
| GpuSpec.ParseGpuSpec | src/ocp/gpuspec.py:9-33 | the loop answers the indices, or the complaint about the first bad part, empties first |
| GpuSpec.AcceptedIff | src/ocp/gpuspec.py:13-33 | a spec is accepted if and only if its stripped parts read as pairwise different non-negative indices, which are the answer in textual order |
| GpuSpec.ReadIntTells | src/ocp/gpuspec.py:22-26 | a part reads as a number if and only if it is digits with at most one sign before them, and a minus makes it negative |
| GpuSpec.RefusalTells | src/ocp/gpuspec.py:13-31 | a refused spec is blank, has a blank part, or has a first bad part that is no number, is negative, or repeats an earlier index |
| GpuSpec.AcceptedIsClean | src/ocp/gpuspec.py:20-33 | every accepted list is non-empty, non-negative and free of repeats |
| GpuSpec.PrintThenParse | src/ocp/gpuspec.py:9-33 | distinct naturals printed with commas parse back to themselves in order |
| GpuSpec.PaddedParses | src/ocp/gpuspec.py:13-33 | the same with any white space around the indices |
| Framing.WriteThenRead | src/ocp/ipc/protocol.py:107-119 | a written frame is read back whole with nothing beyond it consumed if and only if its body is not empty |
| Framing.FrameBytes | src/ocp/ipc/protocol.py:115-118 | bodies over 1048576 bytes are refused; a frame is its length, highest byte first, and the body |
| Framing.ReadTells | src/ocp/ipc/protocol.py:107-112 | a length of zero or over 1048576 is refused, a stream that ends early is closed, and otherwise that many bytes are answered |
| Framing.FramesStaySeparate | src/ocp/ipc/protocol.py:107-119 | any number of frames written one after another are read back one by one |
| Framing.Socket.RecvExact | src/ocp/ipc/client.py:58-65 | however the stream is cut into chunks, answers exactly its next n bytes and leaves the rest, or fails if it closes before |
| Framing.Socket.ReceiveFrame | src/ocp/ipc/client.py:45-49 | however the stream is cut, answers the frame or the error that reading the uncut stream gives |
| MemorySizing.Run | src/ocp/worker/memory.py:51-93 | the first cap is 95 percent of the memory rounded down, the target is clamped to it, and every round asks for the random size under the cap left by the failures before it |
| MemorySizing.RequestsInRange | src/ocp/worker/memory.py:43-49 | through any run every size asked for lies between the target and the cap of its round |
| MemorySizing.SizesReachable | src/ocp/worker/memory.py:43-49 | the sizes that can come up are exactly those from the target to the noisy upper end under the cap |
| MemorySizing.NoNoiseNoSpread | src/ocp/worker/memory.py:43-45 | without noise every size is the target |
| MemorySizing.TargetTells | src/ocp/worker/memory.py:37-41 | the target is the MiB given, else the share of the memory rounded down, one half by default |
| MemorySizing.FailureShrinks | src/ocp/worker/memory.py:83-85 | a failure takes the cap to nine tenths of it rounded down, or to the target if that is more; it strictly shrinks it if and only if it is above the target |
| MemorySizing.RoundTells | src/ocp/worker/memory.py:63-93 | a successful allocation leaves the cap, a failed one takes it to nine tenths rounded down or to the target |
| MemorySizing.FailuresShrinkGeometrically | src/ocp/worker/memory.py:83-85 | after n failures the cap is the target or at most (9/10)^n of what it was |
| MemorySizing.FailuresReachTarget | src/ocp/worker/memory.py:83-87 | after finitely many failures every request asks for exactly the target |

## Left out

- Leases.LeaseStore.SweepExpired: the order of the returned leases is left open; the program's is the insertion order of its dict.
- Leases.LeaseStore.Persist: the order of the lines in the file is left open, for the same reason.
- DebounceLaws.DebounceSound: assumes that the GPU is not listed twice in between, which configuration validation does not guarantee.
- DebounceLaws.DebounceComplete: assumes the same; `ControlLaws.TimeCountedOnceIff` says when a repeated index makes a difference.
- ExpiryLaws.ExpiryLateness: assumes exact wake-ups and no waiting for the lock.
- LedgerLaws.OneLiveWorkerWhenStopsArePrompt: assumes prompt stops, no repeated GPU indices, and restarts only when no worker is alive.
- JSON and TOML encoding, malformed lines and I/O errors: files hold the entries themselves and are replaced in one step.
- Free-text notes and error strings of history entries: only time, user, command, GPUs and success are kept, with one clock reading per step.
- The compute pids of a sample: no decision reads them.
- The contents of the worker command line, the compute duty cycle, NVML, CUDA, sockets, credentials, pidfile, signals, logging and the command line client.
- Rejection of requests whose arguments have the wrong JSON type: arguments are integers and numbers here.
- Floating point: times and fractions are exact; `int(max * 1.2)` is six fifths of `max` rounded down and `int(cap * 0.9)` nine tenths of `cap` rounded down.
- Unicode digits and whitespace and underscores in numerals: text is ASCII.
- `restart_backoff_s`: the program never reads it.
