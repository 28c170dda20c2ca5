/** What the worker pool keeps in every interleaving of its steps. */
module WorkerLaws {
  import opened Wrappers
  import opened Workers

  datatype PoolStep =
    | DoSpawn(gpu: int, pid: int, now: real)
    | DoSchedule(gpu: int)
    | DoExit(id: ProcId)
    | DoBegin(t: TaskId)
    | DoKill(t: TaskId)
    | DoFinish(t: TaskId)
    | DoWatch(w: TaskId)

  predicate Enabled(p: Pool, step: PoolStep) {
    match step
    case DoSpawn(_, _, _) => true
    case DoSchedule(_) => true
    case DoExit(id) => id < |p.os|
    case DoBegin(t) => t in p.stops && p.stops[t].Scheduled?
    case DoKill(t) => t in p.stops && p.stops[t].Waiting? && !p.stops[t].killed
    case DoFinish(t) => t in p.stops && p.stops[t].Waiting? && !IsLive(p, p.stops[t].proc)
    case DoWatch(w) => w in p.watches && (p.watches[w].cancelled || !IsLive(p, p.watches[w].proc))
  }

  function Apply(p: Pool, step: PoolStep): Pool
    requires Enabled(p, step)
  {
    match step
    case DoSpawn(g, pid, now) => Spawn(p, g, pid, now)
    case DoSchedule(g) => ScheduleStop(p, g)
    case DoExit(id) => Exit(p, id)
    case DoBegin(t) => StopBegin(p, t)
    case DoKill(t) => StopKill(p, t)
    case DoFinish(t) => StopFinish(p, t)
    case DoWatch(w) => WatchFinish(p, w)
  }

  ghost predicate IsPoolRun(ps: seq<Pool>, steps: seq<PoolStep>) {
    && |ps| == |steps| + 1
    && forall i :: 0 <= i < |steps| ==> Enabled(ps[i], steps[i]) && ps[i + 1] == Apply(ps[i], steps[i])
  }

  // --- agreement of the maps ------------------------------------------------

  lemma CleanupKeepsWellFormed(p: Pool, g: int)
    requires WellFormed(p)
    ensures WellFormed(Cleanup(p, g))
  {
  }

  lemma SpawnKeepsMaps(p: Pool, g: int, pid: int, now: real)
    requires MapsAgree(p)
    ensures MapsAgree(Spawn(p, g, pid, now))
  {
  }

  lemma SpawnKeepsWatchers(p: Pool, g: int, pid: int, now: real)
    requires WatchersPaired(p) && p.procs.Keys == p.watchers.Keys
    requires forall w :: w in p.watches ==> w < p.nextTask
    ensures WatchersPaired(Spawn(p, g, pid, now))
  {
  }

  lemma SpawnKeepsTasks(p: Pool, g: int, pid: int, now: real)
    requires TasksKnown(p)
    ensures TasksKnown(Spawn(p, g, pid, now))
  {
  }

  /** Changing or dropping a single stop leaves everything else in place. */
  lemma StopChangeKeepsWellFormed(p: Pool, q: Pool)
    requires WellFormed(p)
    requires q == p.(stops := q.stops)
    requires forall t :: t in q.stops ==> t in p.stops
    requires forall t :: t in q.stops && q.stops[t].Waiting? ==>
               q.stops[t].proc < |p.os| && p.os[q.stops[t].proc].gpu == q.stops[t].gpu
    ensures WellFormed(q)
  {
  }

  lemma StopStepKeepsWellFormed(p: Pool, t: TaskId)
    requires WellFormed(p) && t in p.stops
    ensures p.stops[t].Scheduled? ==> WellFormed(StopBegin(p, t))
    ensures p.stops[t].Waiting? ==> WellFormed(StopFinish(p, t))
    ensures p.stops[t].Waiting? && !p.stops[t].killed ==> WellFormed(StopKill(p, t))
  {
    var g := p.stops[t].gpu;
    var dropped := p.(stops := p.stops - {t});
    StopChangeKeepsWellFormed(p, dropped);
    CleanupKeepsWellFormed(dropped, g);
    if p.stops[t].Waiting? {
      if !p.stops[t].killed {
        StopChangeKeepsWellFormed(p, StopKill(p, t));
      }
    } else if g in p.procs && IsLive(p, p.procs[g]) {
      StopChangeKeepsWellFormed(p, StopBegin(p, t));
    }
  }

  lemma WatchKeepsWellFormed(p: Pool, w: TaskId)
    requires WellFormed(p) && w in p.watches
    ensures WellFormed(WatchFinish(p, w))
  {
    var task := p.watches[w];
    if !task.cancelled {
      CleanupKeepsWellFormed(p, task.gpu);
      DoneWatchKeepsWellFormed(Cleanup(p, task.gpu), w);
    } else {
      DoneWatchKeepsWellFormed(p, w);
    }
  }

  lemma DoneWatchKeepsWellFormed(p: Pool, w: TaskId)
    requires WellFormed(p) && w in p.watches && p.watches[w].cancelled
    ensures WellFormed(p.(watches := p.watches - {w}))
  {
  }

  /** In every step the three maps keep equal key sets, every recorded pid stays that
      of the recorded process, and watchers stay paired with their processes. */
  lemma StepKeepsWellFormed(p: Pool, step: PoolStep)
    requires WellFormed(p) && Enabled(p, step)
    ensures WellFormed(Apply(p, step))
  {
    match step
    case DoSpawn(g, pid, now) =>
      SpawnKeepsMaps(p, g, pid, now);
      SpawnKeepsWatchers(p, g, pid, now);
      SpawnKeepsTasks(p, g, pid, now);
    case DoSchedule(g) =>
    case DoExit(id) =>
    case DoBegin(t) => StopStepKeepsWellFormed(p, t);
    case DoKill(t) => StopStepKeepsWellFormed(p, t);
    case DoFinish(t) => StopStepKeepsWellFormed(p, t);
    case DoWatch(w) => WatchKeepsWellFormed(p, w);
  }

  /** The identity test in `_watch` never fails: a watcher that has not been cancelled
      always finds its own process on file. */
  lemma UncancelledWatcherReports(p: Pool, w: TaskId)
    requires WellFormed(p) && w in p.watches
    ensures WatchReports(p, w) <==> !p.watches[w].cancelled
  {
  }

  // --- the ledger -----------------------------------------------------------

  /** Every live process is the one on file for its GPU. */
  ghost predicate Ledger(p: Pool) {
    forall id: ProcId :: IsLive(p, id) ==> p.os[id].gpu in p.procs && p.procs[p.os[id].gpu] == id
  }

  /** A waiting `stop` waits for the process on file, if there is one. */
  ghost predicate StopsAim(p: Pool) {
    forall t :: t in p.stops && p.stops[t].Waiting? && p.stops[t].gpu in p.procs ==>
      p.procs[p.stops[t].gpu] == p.stops[t].proc
  }

  /** A spawn that creates a process does so while no `stop` for its GPU is waiting. */
  ghost predicate Guarded(p: Pool, step: PoolStep) {
    step.DoSpawn? && step.gpu !in p.procs ==>
      forall t :: t in p.stops && p.stops[t].Waiting? ==> p.stops[t].gpu != step.gpu
  }

  /** The step does not forget a live process: a finishing `stop` finds none on file. */
  predicate ForgetsNoLive(p: Pool, step: PoolStep)
    requires Enabled(p, step)
  {
    step.DoFinish? ==>
      var g := p.stops[step.t].gpu;
      !(g in p.procs && IsLive(p, p.procs[g]))
  }

  /** The unchecked cleanup at the end of `stop` keeps the ledger exactly when the GPU
      has no live process on file at that moment. */
  lemma FinishKeepsLedgerIff(p: Pool, t: TaskId)
    requires WellFormed(p) && Ledger(p) && Enabled(p, DoFinish(t))
    ensures Ledger(StopFinish(p, t)) <==> ForgetsNoLive(p, DoFinish(t))
  {
    var g := p.stops[t].gpu;
    var q := StopFinish(p, t);
    if g in p.procs && IsLive(p, p.procs[g]) {
      assert IsLive(q, p.procs[g]) && g !in q.procs;
    } else {
      forall id: ProcId | IsLive(q, id) ensures q.os[id].gpu in q.procs && q.procs[q.os[id].gpu] == id {
        assert IsLive(p, id);
      }
    }
  }

  /** That cleanup is the only step that can break the ledger. */
  lemma StepKeepsLedgerIff(p: Pool, step: PoolStep)
    requires WellFormed(p) && Ledger(p) && Enabled(p, step)
    ensures Ledger(Apply(p, step)) <==> ForgetsNoLive(p, step)
  {
    if step.DoFinish? {
      FinishKeepsLedgerIff(p, step.t);
    } else {
      var q := Apply(p, step);
      forall id: ProcId | IsLive(q, id) ensures q.os[id].gpu in q.procs && q.procs[q.os[id].gpu] == id {
        if id < |p.os| {
          assert IsLive(p, id);
        }
      }
    }
  }

  lemma StepKeepsAim(p: Pool, step: PoolStep)
    requires WellFormed(p) && StopsAim(p) && Enabled(p, step) && Guarded(p, step)
    ensures StopsAim(Apply(p, step))
  {
  }

  /** Under the guard no `stop` ever forgets a live process. */
  lemma AimForgetsNoLive(p: Pool, step: PoolStep)
    requires StopsAim(p) && Enabled(p, step)
    ensures ForgetsNoLive(p, step)
  {
  }

  lemma StepKeepsLedger(p: Pool, step: PoolStep)
    requires WellFormed(p) && Ledger(p) && StopsAim(p)
    requires Enabled(p, step) && Guarded(p, step)
    ensures Ledger(Apply(p, step)) && StopsAim(Apply(p, step))
  {
    hide WellFormed, Ledger, StopsAim, Guarded, Enabled, Apply;
    AimForgetsNoLive(p, step);
    StepKeepsLedgerIff(p, step);
    StepKeepsAim(p, step);
  }

  /** Ledger over whole runs. */
  lemma {:induction false} RunKeepsLedger(ps: seq<Pool>, steps: seq<PoolStep>, i: nat)
    requires IsPoolRun(ps, steps) && i <= |steps|
    requires WellFormed(ps[0]) && Ledger(ps[0]) && StopsAim(ps[0])
    requires forall k :: 0 <= k < i ==> Guarded(ps[k], steps[k])
    ensures WellFormed(ps[i]) && Ledger(ps[i]) && StopsAim(ps[i])
  {
    hide WellFormed, Ledger, StopsAim, Guarded, Enabled, Apply;
    if i > 0 {
      RunKeepsLedger(ps, steps, i - 1);
      StepKeepsWellFormed(ps[i - 1], steps[i - 1]);
      StepKeepsLedger(ps[i - 1], steps[i - 1]);
    }
  }

  /** The pools of a run in which a spawn comes while a `stop` is still waiting. */
  function OrphanPool(i: nat): Pool {
    var dead, live := Process(0, 100, false), Process(0, 101, true);
    var meta0, meta1 := WorkerProc(0, 100, 1.0), WorkerProc(0, 101, 2.0);
    var watch0, watch1 := WatchTask(0, 0, false), WatchTask(0, 1, false);
    var waiting := map[1 := Waiting(0, 0, false)];
    match i
    case 0 => Pool(map[], map[], map[], [], map[], map[], 0)
    case 1 => Pool(map[0 := 0], map[0 := meta0], map[0 := 0], [dead.(live := true)], map[], map[0 := watch0], 1)
    case 2 => Pool(map[0 := 0], map[0 := meta0], map[0 := 0], [dead.(live := true)], map[1 := Scheduled(0)], map[0 := watch0], 2)
    case 3 => Pool(map[0 := 0], map[0 := meta0], map[0 := 0], [dead.(live := true)], waiting, map[0 := watch0], 2)
    case 4 => Pool(map[0 := 0], map[0 := meta0], map[0 := 0], [dead], waiting, map[0 := watch0], 2)
    case 5 => Pool(map[], map[], map[], [dead], waiting, map[], 2)
    case 6 => Pool(map[0 := 1], map[0 := meta1], map[0 := 2], [dead, live], waiting, map[2 := watch1], 3)
    case _ => Pool(map[], map[], map[], [dead, live], map[], map[2 := watch1.(cancelled := true)], 3)
  }

  function OrphanStep(i: nat): PoolStep {
    match i
    case 0 => DoSpawn(0, 100, 1.0)
    case 1 => DoSchedule(0)
    case 2 => DoBegin(1)
    case 3 => DoExit(0)
    case 4 => DoWatch(0)
    case 5 => DoSpawn(0, 101, 2.0)
    case _ => DoFinish(1)
  }

  predicate OrphanStepWorks(i: nat) {
    Enabled(OrphanPool(i), OrphanStep(i)) && Apply(OrphanPool(i), OrphanStep(i)) == OrphanPool(i + 1)
  }

  lemma OrphanStepsWork(i: nat)
    requires i < 7
    ensures OrphanStepWorks(i)
  {
    if i < 4 {
      FirstOrphanStepsWork(i);
    } else {
      LastOrphanStepsWork(i);
    }
  }

  lemma FirstOrphanStepsWork(i: nat)
    requires i < 4
    ensures OrphanStepWorks(i)
  {
    match i
    case 0 => case 1 => case 2 => case 3 =>
  }

  lemma LastOrphanStepsWork(i: nat)
    requires 4 <= i < 7
    ensures OrphanStepWorks(i)
  {
    match i
    case 4 => case 5 => case 6 =>
  }

  lemma OrphanEnds()
    ensures WellFormed(OrphanPool(0)) && Ledger(OrphanPool(0)) && StopsAim(OrphanPool(0))
    ensures !Ledger(OrphanPool(7))
  {
    assert IsLive(OrphanPool(7), 1);
  }

  /** Without the guard: the worker of a GPU exits under a `stop`, its watcher cleans
      up first, a new worker is spawned, and then `stop` forgets that new worker. */
  lemma UnguardedSpawnIsOrphaned() returns (ps: seq<Pool>, steps: seq<PoolStep>)
    ensures |steps| == 7 && IsPoolRun(ps, steps)
    ensures WellFormed(ps[0]) && Ledger(ps[0]) && StopsAim(ps[0])
    ensures !Ledger(ps[7])
  {
    OrphanEnds();
    ps := seq(8, i requires 0 <= i => OrphanPool(i));
    steps := seq(7, i requires 0 <= i => OrphanStep(i));
    forall i | 0 <= i < 7 ensures Enabled(ps[i], steps[i]) && ps[i + 1] == Apply(ps[i], steps[i]) {
      OrphanStepsWork(i);
    }
  }

  // --- stops in flight ------------------------------------------------------

  ghost predicate StopInFlight(p: Pool, g: int) {
    exists t :: t in p.stops && p.stops[t].gpu == g
  }

  /** If the GPU has a worker on file, a `stop` for it is scheduled or in flight. */
  ghost predicate StopPending(p: Pool, g: int) {
    Tracked(p, g) ==> StopInFlight(p, g)
  }

  /** A pending stop stays pending until the GPU has no worker, whatever else happens. */
  lemma StepKeepsStopPending(p: Pool, step: PoolStep, g: int)
    requires WellFormed(p) && Enabled(p, step) && StopPending(p, g)
    requires step.DoSpawn? && step.gpu == g ==> g in p.procs
    ensures StopPending(Apply(p, step), g)
  {
    var q := Apply(p, step);
    if Tracked(q, g) {
      var t :| t in p.stops && p.stops[t].gpu == g;
      assert t in q.stops && q.stops[t].gpu == g;
    }
  }

  lemma {:induction false} ScheduleStopsReaches(p: Pool, gpus: seq<int>, g: int)
    requires WellFormed(p)
    ensures WellFormed(ScheduleStops(p, gpus))
    ensures ScheduleStops(p, gpus) == p.(stops := ScheduleStops(p, gpus).stops, nextTask := ScheduleStops(p, gpus).nextTask)
    ensures forall t :: t in p.stops ==> t in ScheduleStops(p, gpus).stops && ScheduleStops(p, gpus).stops[t] == p.stops[t]
    ensures forall t :: t in ScheduleStops(p, gpus).stops && t !in p.stops ==> ScheduleStops(p, gpus).stops[t].Scheduled?
    ensures g in gpus || StopPending(p, g) ==> StopPending(ScheduleStops(p, gpus), g)
  {
    if gpus != [] {
      var k := |gpus| - 1;
      var q := ScheduleStops(p, gpus[..k]);
      ScheduleStopsReaches(p, gpus[..k], g);
      assert gpus == gpus[..k] + [gpus[k]];
      if Tracked(q, gpus[k]) {
        StepKeepsWellFormed(q, DoSchedule(gpus[k]));
        var r := ScheduleStop(q, gpus[k]);
        assert q.nextTask in r.stops && r.stops[q.nextTask].gpu == gpus[k];
        if g != gpus[k] && StopPending(q, g) {
          StepKeepsStopPending(q, DoSchedule(gpus[k]), g);
        }
      }
    }
  }

  // --- shutdown -------------------------------------------------------------

  /** If the GPU has a worker on file, a `stop` for it is in flight whose id is at least
      `lo` and below `hi`. */
  ghost predicate PendingAmong(p: Pool, g: int, lo: TaskId, hi: TaskId) {
    Tracked(p, g) ==> exists t :: lo <= t < hi && t in p.stops && p.stops[t].gpu == g
  }

  /** None of the stops with these ids is in flight any more. */
  ghost predicate NoneLeft(p: Pool, lo: TaskId, hi: TaskId) {
    forall t :: lo <= t < hi ==> t !in p.stops
  }

  lemma StepKeepsPendingAmong(p: Pool, step: PoolStep, g: int, lo: TaskId, hi: TaskId)
    requires WellFormed(p) && Enabled(p, step) && !step.DoSpawn? && PendingAmong(p, g, lo, hi) && hi <= p.nextTask
    ensures PendingAmong(Apply(p, step), g, lo, hi) && hi <= Apply(p, step).nextTask
  {
    var q := Apply(p, step);
    if Tracked(q, g) {
      var t :| lo <= t < hi && t in p.stops && p.stops[t].gpu == g;
      assert t in q.stops && q.stops[t].gpu == g;
    }
  }

  /** The stops that `ScheduleStops` adds take the next ids, and every GPU named that has a
      worker on file gets one. */
  lemma {:induction false} ScheduledAreNext(p: Pool, gpus: seq<int>, g: int)
    ensures p.nextTask <= ScheduleStops(p, gpus).nextTask
    ensures Tracked(ScheduleStops(p, gpus), g) == Tracked(p, g)
    ensures g in gpus ==> PendingAmong(ScheduleStops(p, gpus), g, p.nextTask, ScheduleStops(p, gpus).nextTask)
  {
    if gpus != [] {
      var k := |gpus| - 1;
      var q, r := ScheduleStops(p, gpus[..k]), ScheduleStops(p, gpus);
      ScheduledAreNext(p, gpus[..k], g);
      assert gpus == gpus[..k] + [gpus[k]];
      if g in gpus && Tracked(p, g) {
        if g in gpus[..k] {
          var t :| p.nextTask <= t < q.nextTask && t in q.stops && q.stops[t].gpu == g;
          assert t in r.stops && r.stops[t].gpu == g;
        } else {
          assert q.nextTask in r.stops && r.stops[q.nextTask].gpu == g;
        }
      }
    }
  }

  lemma StopAllPends(p: Pool, gpus: seq<int>)
    requires WellFormed(p) && ListsEach(gpus, p.procs.Keys)
    ensures forall g :: PendingAmong(ScheduleStops(p, gpus), g, p.nextTask, ScheduleStops(p, gpus).nextTask)
  {
    var q := ScheduleStops(p, gpus);
    forall g ensures PendingAmong(q, g, p.nextTask, q.nextTask) {
      ScheduledAreNext(p, gpus, g);
    }
  }

  /** The stops that `ScheduleStops` adds are for GPUs named that have a worker on file, one
      for each if none is named twice. */
  lemma {:induction false} ScheduledExactly(p: Pool, gpus: seq<int>)
    requires WellFormed(p)
    ensures var q := ScheduleStops(p, gpus);
            forall t :: t in q.stops && t !in p.stops ==>
              p.nextTask <= t < q.nextTask && q.stops[t] == Scheduled(q.stops[t].gpu) && q.stops[t].gpu in gpus && q.stops[t].gpu in p.meta
    ensures var q := ScheduleStops(p, gpus);
            (forall i, j :: 0 <= i < j < |gpus| ==> gpus[i] != gpus[j]) ==>
              forall t, u :: t in q.stops && t !in p.stops && u in q.stops && u !in p.stops && q.stops[t].gpu == q.stops[u].gpu ==> t == u
  {
    if gpus != [] {
      var k := |gpus| - 1;
      ScheduledExactly(p, gpus[..k]);
      ScheduledAreNext(p, gpus[..k], gpus[k]);
      ScheduleStopsReaches(p, gpus[..k], gpus[k]);
      assert gpus == gpus[..k] + [gpus[k]];
    }
  }

  /** After `stop_all` and with no further spawn, once the stops it scheduled have ended,
      whatever older ones do, no worker is on file; and no process is live unless one has
      been forgotten, which needs an older `stop` that waited for another process. */
  lemma {:induction false} StopAllDrains(p: Pool, gpus: seq<int>, ps: seq<Pool>, steps: seq<PoolStep>, i: nat)
    requires WellFormed(p) && ListsEach(gpus, p.procs.Keys)
    requires IsPoolRun(ps, steps) && i <= |steps| && ps[0] == ScheduleStops(p, gpus)
    requires forall k :: 0 <= k < i ==> !steps[k].DoSpawn?
    ensures WellFormed(ps[i]) && ps[0].nextTask <= ps[i].nextTask
    ensures Ledger(p) && StopsAim(p) ==> Ledger(ps[i]) && StopsAim(ps[i])
    ensures forall g :: PendingAmong(ps[i], g, p.nextTask, ps[0].nextTask)
    ensures NoneLeft(ps[i], p.nextTask, ps[0].nextTask) ==>
              ps[i].procs == map[] && (Ledger(ps[i]) ==> forall id :: !IsLive(ps[i], id))
  {
    hide WellFormed, Ledger, StopsAim, Enabled, Apply, ScheduleStops, PendingAmong, NoneLeft, ListsEach, IsLive;
    var lo, hi := p.nextTask, ps[0].nextTask;
    if i == 0 {
      StopAllPends(p, gpus);
      SchedulingKeepsPool(p, gpus);
    } else {
      StopAllDrains(p, gpus, ps, steps, i - 1);
      StepKeepsWellFormed(ps[i - 1], steps[i - 1]);
      if Ledger(p) && StopsAim(p) {
        StepKeepsLedger(ps[i - 1], steps[i - 1]);
      }
      StepKeepsPendingAmong(ps[i - 1], steps[i - 1], 0, lo, hi);
      forall g ensures PendingAmong(ps[i], g, lo, hi) {
        StepKeepsPendingAmong(ps[i - 1], steps[i - 1], g, lo, hi);
      }
    }
    NonePendingNoneTracked(ps[i], lo, hi);
  }

  lemma SchedulingKeepsPool(p: Pool, gpus: seq<int>)
    requires WellFormed(p)
    ensures WellFormed(ScheduleStops(p, gpus))
    ensures Ledger(p) ==> Ledger(ScheduleStops(p, gpus))
    ensures StopsAim(p) ==> StopsAim(ScheduleStops(p, gpus))
  {
    ScheduleStopsReaches(p, gpus, 0);
    assert forall id :: IsLive(ScheduleStops(p, gpus), id) ==> IsLive(p, id);
  }

  lemma NonePendingNoneTracked(p: Pool, lo: TaskId, hi: TaskId)
    requires WellFormed(p) && forall g :: PendingAmong(p, g, lo, hi)
    ensures NoneLeft(p, lo, hi) ==> p.procs == map[] && (Ledger(p) ==> forall id :: !IsLive(p, id))
  {
    if NoneLeft(p, lo, hi) {
      forall g ensures g !in p.procs {
        assert PendingAmong(p, g, lo, hi);
      }
      assert p.procs.Keys == {};
    }
  }

  // --- spawn and cleanup ----------------------------------------------------

  /** A spawn on a GPU with a worker on file changes nothing; any other starts one live
      process and puts it on file with its pid and an uncancelled watcher. */
  lemma SpawnRecords(p: Pool, g: int, pid: int, now: real)
    requires WellFormed(p)
    ensures var q := Spawn(p, g, pid, now);
            if g in p.meta then q == p else
              && q.os == p.os + [Process(g, pid, true)]
              && g in q.procs && q.procs[g] == |p.os| && g in q.meta && q.meta[g] == WorkerProc(g, pid, now)
              && g in q.watchers && q.watchers[g] in q.watches && q.watches[q.watchers[g]] == WatchTask(g, |p.os|, false)
              && q.stops == p.stops && (forall h :: h != g ==> (h in q.procs <==> h in p.procs))
  {
  }

  /** The three outcomes of the first segment of a `stop`: without a worker on file it ends;
      an exited one it cleans up; a live one it waits for, having sent no SIGKILL yet. */
  lemma StopBegins(p: Pool, t: TaskId)
    requires WellFormed(p) && Enabled(p, DoBegin(t))
    ensures var g, q := p.stops[t].gpu, StopBegin(p, t);
            && q.os == p.os
            && (g !in p.procs ==> q == p.(stops := p.stops - {t}))
            && (g in p.procs && !p.os[p.procs[g]].live ==> t !in q.stops && g !in q.procs && g !in q.meta && g !in q.watchers)
            && (g in p.procs && p.os[p.procs[g]].live ==>
                  && q.procs == p.procs && t in q.stops && q.stops[t] == Waiting(g, p.procs[g], false)
                  && Enabled(q, DoKill(t)) && !Enabled(q, DoFinish(t)))
  {
  }

  /** A `stop` finishes only once the process it waited for has exited; then its GPU is on
      no record, its watcher is cancelled, and nothing else has changed. */
  lemma StopFinishes(p: Pool, t: TaskId)
    requires WellFormed(p) && Enabled(p, DoFinish(t))
    ensures !p.os[p.stops[t].proc].live
    ensures var g, q := p.stops[t].gpu, StopFinish(p, t);
            && q.os == p.os && q.stops == p.stops - {t}
            && q.procs == p.procs - {g} && q.meta == p.meta - {g} && q.watchers == p.watchers - {g}
            && (forall w :: w in p.watches ==>
                  && w in q.watches
                  && q.watches[w] == p.watches[w].(cancelled := p.watches[w].cancelled || p.watches[w].gpu == g))
  {
  }

  /** A watcher that has not been cancelled ends only once its process has exited; then the
      GPU is on no record. One that has been cancelled changes nothing else. */
  lemma WatchFinishes(p: Pool, w: TaskId)
    requires WellFormed(p) && Enabled(p, DoWatch(w))
    ensures var task, q := p.watches[w], WatchFinish(p, w);
            && w !in q.watches && q.os == p.os && q.stops == p.stops
            && (task.cancelled ==> q.procs == p.procs && q.meta == p.meta && q.watchers == p.watchers)
            && (!task.cancelled ==>
                  && !p.os[task.proc].live && q.procs == p.procs - {task.gpu}
                  && q.meta == p.meta - {task.gpu} && q.watchers == p.watchers - {task.gpu})
  {
  }

  // --- the life of a stop ---------------------------------------------------

  /** Segments a `stop` has still before it, at most. */
  function SegmentsLeft(p: Pool, t: TaskId): nat {
    if t !in p.stops then 0
    else if p.stops[t].Scheduled? then 3
    else if !p.stops[t].killed then 2
    else 1
  }

  predicate IsSegment(step: PoolStep, t: TaskId) {
    step == DoBegin(t) || step == DoKill(t) || step == DoFinish(t)
  }

  /** Segments of the `stop` among the first `n` steps. */
  function Segments(steps: seq<PoolStep>, n: nat, t: TaskId): nat
    requires n <= |steps|
  {
    if n == 0 then 0 else Segments(steps, n - 1, t) + if IsSegment(steps[n - 1], t) then 1 else 0
  }

  lemma SegmentCounts(p: Pool, step: PoolStep, t: TaskId)
    requires Enabled(p, step) && t < p.nextTask
    ensures t < Apply(p, step).nextTask
    ensures SegmentsLeft(Apply(p, step), t) + (if IsSegment(step, t) then 1 else 0) <= SegmentsLeft(p, t)
  {
    match step
    case DoBegin(u) => OneStopChanged(p, Apply(p, step), u, t);
    case DoFinish(u) => OneStopChanged(p, Apply(p, step), u, t);
    case _ =>
  }

  lemma OneStopChanged(p: Pool, q: Pool, u: TaskId, t: TaskId)
    requires u in p.stops && (q.stops == p.stops - {u} || (u in q.stops && q.stops == p.stops[u := q.stops[u]]))
    ensures u != t ==> SegmentsLeft(q, t) == SegmentsLeft(p, t)
    ensures q.stops == p.stops - {u} ==> SegmentsLeft(q, u) == 0
  {
  }

  /** In every interleaving a `stop` runs at most three segments: it begins, it kills at
      most once, and it finishes; one that waits has at most two left. */
  lemma {:induction false} StopEndsInThreeSegments(ps: seq<Pool>, steps: seq<PoolStep>, n: nat, t: TaskId)
    requires IsPoolRun(ps, steps) && n <= |steps| && t < ps[0].nextTask
    ensures t < ps[n].nextTask
    ensures Segments(steps, n, t) + SegmentsLeft(ps[n], t) <= SegmentsLeft(ps[0], t) <= 3
  {
    hide Enabled, Apply, IsSegment;
    if n > 0 {
      StopEndsInThreeSegments(ps, steps, n - 1, t);
      SegmentCounts(ps[n - 1], steps[n - 1], t);
    }
  }

  /** A `stop` that waits can send SIGKILL, once, until it finishes, whatever happens to the
      process it waits for. */
  lemma {:induction false} WaitingCanKill(ps: seq<Pool>, steps: seq<PoolStep>, n: nat, t: TaskId)
    requires IsPoolRun(ps, steps) && n <= |steps| && Enabled(ps[0], DoKill(t)) && WellFormed(ps[0])
    requires forall k :: 0 <= k < n ==> !IsSegment(steps[k], t)
    ensures WellFormed(ps[n]) && Enabled(ps[n], DoKill(t)) && ps[n].stops[t] == ps[0].stops[t]
  {
    hide WellFormed, Apply;
    if n > 0 {
      WaitingCanKill(ps, steps, n - 1, t);
      StepKeepsWellFormed(ps[n - 1], steps[n - 1]);
      OthersKeepStop(ps[n - 1], steps[n - 1], t);
    }
  }

  lemma OthersKeepStop(p: Pool, step: PoolStep, t: TaskId)
    requires WellFormed(p) && Enabled(p, step) && t in p.stops && !IsSegment(step, t)
    ensures t in Apply(p, step).stops && Apply(p, step).stops[t] == p.stops[t]
  {
    assert t < p.nextTask;
    hide WellFormed;
  }

  // --- stops can always end -------------------------------------------------

  /** A run of exits and segments of `stop` that starts at `p`. */
  ghost predicate IsEnding(p: Pool, ps: seq<Pool>, steps: seq<PoolStep>) {
    && IsPoolRun(ps, steps) && ps[0] == p
    && forall k :: 0 <= k < |steps| ==> steps[k].DoExit? || steps[k].DoBegin? || steps[k].DoFinish?
  }

  lemma Extend(p: Pool, ps: seq<Pool>, steps: seq<PoolStep>, step: PoolStep) returns (qs: seq<Pool>, more: seq<PoolStep>)
    requires IsEnding(p, ps, steps) && WellFormed(ps[|steps|])
    requires Enabled(ps[|steps|], step) && (step.DoExit? || step.DoBegin? || step.DoFinish?)
    ensures IsEnding(p, qs, more) && |more| == |steps| + 1
    ensures qs[|more|] == Apply(ps[|steps|], step) && WellFormed(qs[|more|])
  {
    StepKeepsWellFormed(ps[|steps|], step);
    qs, more := ps + [Apply(ps[|steps|], step)], steps + [step];
  }

  /** One `stop` in flight ends within three steps: it begins, its process exits, and it
      finishes. */
  lemma OneStopCanEnd(p: Pool, ps: seq<Pool>, steps: seq<PoolStep>, t: TaskId) returns (qs: seq<Pool>, more: seq<PoolStep>)
    requires IsEnding(p, ps, steps) && WellFormed(ps[|steps|]) && t in ps[|steps|].stops
    ensures IsEnding(p, qs, more) && WellFormed(qs[|more|]) && |more| <= |steps| + 3
    ensures qs[|more|].stops == ps[|steps|].stops - {t}
  {
    hide WellFormed;
    qs, more := ps, steps;
    ghost var others := ps[|steps|].stops - {t};
    if qs[|more|].stops[t].Scheduled? {
      qs, more := Extend(p, qs, more, DoBegin(t));
    }
    if t in qs[|more|].stops {
      var id := qs[|more|].stops[t].proc;
      if IsLive(qs[|more|], id) {
        qs, more := Extend(p, qs, more, DoExit(id));
      }
      qs, more := Extend(p, qs, more, DoFinish(t));
    }
    assert qs[|more|].stops == others;
  }

  /** From every reachable pool all stops in flight can end, within three steps each; so
      teardown and shutdown are never stuck. */
  lemma {:induction false} AllStopsCanEnd(p: Pool, ps: seq<Pool>, steps: seq<PoolStep>) returns (qs: seq<Pool>, more: seq<PoolStep>)
    requires IsEnding(p, ps, steps) && WellFormed(ps[|steps|])
    ensures IsEnding(p, qs, more) && qs[|more|].stops == map[]
    ensures |more| <= |steps| + 3 * |ps[|steps|].stops|
    decreases |ps[|steps|].stops|
  {
    var stops := ps[|steps|].stops;
    if stops == map[] {
      return ps, steps;
    }
    EmptyOrInhabited(stops.Keys);
    var t: TaskId :| t in stops;
    qs, more := OneStopCanEnd(p, ps, steps, t);
    assert (stops - {t}).Keys == stops.Keys - {t};
    assert |(stops - {t}).Keys| == |stops.Keys| - 1;
    qs, more := AllStopsCanEnd(p, qs, more);
  }
}
