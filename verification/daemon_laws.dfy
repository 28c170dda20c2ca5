/** What the daemon keeps in every run, restarts included. */
module DaemonLaws {
  import opened Configs
  import opened Leases
  import opened LeaseLaws
  import opened Workers
  import opened WorkerLaws
  import opened ControlLaws
  import opened Daemons

  // --- clocks ---------------------------------------------------------------

  lemma StepClocks(s: Sys, step: Step, s': Sys)
    requires Next(s, step, s')
    ensures s.wall <= s'.wall && s.mono <= s'.mono
  {
  }

  lemma {:induction false} RunClocks(ss: seq<Sys>, steps: seq<Step>, i: nat, j: nat)
    requires IsRun(ss, steps) && i <= j <= |steps|
    ensures ss[i].wall <= ss[j].wall && ss[i].mono <= ss[j].mono
  {
    if i < j {
      RunClocks(ss, steps, i, j - 1);
      StepClocks(ss[j - 1], steps[j - 1], ss[j]);
    }
  }

  // --- pauses are honoured --------------------------------------------------

  /** User `uid` holds `g` until at least `e`, in memory and after a reload of the file
      at any time before `e`. */
  ghost predicate HeldUntil(s: Store, g: int, uid: int, e: real) {
    && g in s.leases && s.leases[g].uid == uid && s.leases[g].expiresAt >= e
    && (forall t :: t < e ==>
          var m := Loaded(map[], Lines(s.disk), t);
          g in m && m[g].uid == uid && m[g].expiresAt >= e)
  }

  lemma PersistedHolds(s: Store, g: int, uid: int, e: real)
    requires Persisted(s.disk, s.leases)
    requires g in s.leases && s.leases[g].uid == uid && s.leases[g].expiresAt >= e
    ensures HeldUntil(s, g, uid, e)
  {
    forall t | t < e
      ensures var m := Loaded(map[], Lines(s.disk), t);
              g in m && m[g].uid == uid && m[g].expiresAt >= e
    {
      ListingReloads(Lines(s.disk), s.leases, t);
      assert g in Unexpired(s.leases, t);
    }
  }

  /** The step is a RESUME of `g` by `uid` or by root. */
  predicate ResumesFor(step: Step, g: int, uid: int) {
    step.ResumeStep? && g in step.gpus && (step.caller.uid == uid || step.caller.uid == 0)
  }

  lemma StoreStepKeepsHold(s: Store, op: StoreOp, s': Store, g: int, uid: int, e: real)
    requires StoreStep(s, op, s') && HeldUntil(s, g, uid, e)
    requires op.Sweep? ==> op.now < e
    requires op.Release? && g in op.gpus ==> op.uid != uid && !op.isRoot
    requires !op.Expire?
    ensures HeldUntil(s', g, uid, e)
  {
    StepTenure(s, op, s', g);
    if Persisted(s'.disk, s'.leases) {
      PersistedHolds(s', g, uid, e);
    } else {
      NoWriteNoChange(s, op, s');
    }
  }

  lemma StepKeepsHold(s: Sys, step: Step, s': Sys, g: int, uid: int, e: real)
    requires Next(s, step, s') && HeldUntil(s.store, g, uid, e)
    requires s'.wall < e && !ResumesFor(step, g, uid)
    ensures HeldUntil(s'.store, g, uid, e)
  {
    match step
    case TickStep(now, at, readings, pids) =>
      StoreStepKeepsHold(s.store, Sweep(at), s'.store, g, uid, e);
    case PauseStep(c, gpus, duration, at) =>
      if PauseAccepted(s, c, gpus, duration) {
        StoreStepKeepsHold(s.store, StoreOp.Acquire(c.uid, c.user, gpus, duration.Floor as real, at), s'.store, g, uid, e);
      }
    case ResumeStep(c, gpus, at) =>
      if ResumeRefusal(s.ctl.cfg, c, gpus).None? {
        StoreStepKeepsHold(s.store, StoreOp.Release(c.uid, gpus, IsRoot(c)), s'.store, g, uid, e);
      }
    case SweepStep(at) =>
      StoreStepKeepsHold(s.store, Sweep(at), s'.store, g, uid, e);
    case ReloadStep(_, _) =>
    case WorkerStep(_) =>
    case StopAllStep(_) =>
    case PersistStep =>
      PersistedHolds(s'.store, g, uid, e);
    case RestartStep(_, _, _, at) =>
  }

  lemma {:induction false} RunKeepsHold(ss: seq<Sys>, steps: seq<Step>, i: nat, j: nat, g: int, uid: int, e: real)
    requires IsRun(ss, steps) && i <= j <= |steps|
    requires HeldUntil(ss[i].store, g, uid, e) && ss[j].wall < e
    requires forall k :: i <= k < j ==> !ResumesFor(steps[k], g, uid)
    ensures HeldUntil(ss[j].store, g, uid, e)
  {
    hide Next, HeldUntil;
    if i < j {
      RunClocks(ss, steps, j - 1, j);
      RunKeepsHold(ss, steps, i, j - 1, g, uid, e);
      StepKeepsHold(ss[j - 1], steps[j - 1], ss[j], g, uid, e);
    }
  }

  /** A step starts worker processes only on GPUs without a lease. */
  lemma StartsOnlyUncovered(s: Sys, step: Step, s': Sys, g: int)
    requires Next(s, step, s') && WellFormed(s.pool)
    ensures StartedOn(s.pool, s'.pool, g) ==> step.TickStep? && g !in s'.store.leases && g in s.ctl.watched
  {
    match step
    case TickStep(now, at, readings, pids) =>
      var t := TickInputOf(s, s'.store.leases, now, at, readings, pids);
      TickStartsUncovered(t, Before(s), |t.watched|, g);
    case PauseStep(c, gpus, _, _) =>
      ScheduleStopsReaches(s.pool, gpus, g);
    case StopAllStep(gpus) =>
      ScheduleStopsReaches(s.pool, gpus, g);
    case _ =>
  }

  /** Pauses are honoured: once a pause has granted `g` until `e`, no step that leaves
      the wall clock below `e` starts a worker on `g`, across sweeps, other users'
      requests, configuration swaps and restarts, as long as neither the holder nor root
      has resumed `g`. */
  lemma PauseHonoured(ss: seq<Sys>, steps: seq<Step>, i: nat, j: nat, g: int, e: real)
    requires IsRun(ss, steps) && i < j < |steps| && WellFormed(ss[0].pool)
    requires steps[i].PauseStep? && g in steps[i].gpus
    requires PauseAccepted(ss[i], steps[i].caller, steps[i].gpus, steps[i].duration)
    requires g in ss[i + 1].store.leases && e <= ss[i + 1].store.leases[g].expiresAt
    requires ss[j + 1].wall < e
    requires forall k :: i < k <= j ==> !ResumesFor(steps[k], g, steps[i].caller.uid)
    ensures !StartedOn(ss[j].pool, ss[j + 1].pool, g)
  {
    var uid := steps[i].caller.uid;
    PauseHolds(ss[i], steps[i], ss[i + 1], g, e);
    RunClocks(ss, steps, j, j + 1);
    RunKeepsHold(ss, steps, i + 1, j, g, uid, e);
    StepKeepsHold(ss[j], steps[j], ss[j + 1], g, uid, e);
    RunWellFormed(ss, steps, j);
    StartsOnlyUncovered(ss[j], steps[j], ss[j + 1], g);
  }

  /** A granted pause covers every requested GPU for at least the requested whole seconds
      and has a `stop` under way for each worker on them. */
  lemma PauseGrants(s: Sys, step: Step, s': Sys, g: int)
    requires Next(s, step, s') && step.PauseStep? && g in step.gpus
    requires PauseAccepted(s, step.caller, step.gpus, step.duration) && WellFormed(s.pool)
    ensures g in s'.store.leases && s'.store.leases[g].uid == step.caller.uid
    ensures s'.store.leases[g].expiresAt >= step.at + step.duration.Floor as real
    ensures StopPending(s'.pool, g)
  {
    GrantAllPointwise(s.store.leases, step.caller.uid, step.caller.user, step.gpus, step.duration.Floor as real, step.at);
    ScheduleStopsReaches(s.pool, step.gpus, g);
  }

  // --- worker maps and teardown ---------------------------------------------

  lemma NextWellFormed(s: Sys, step: Step, s': Sys)
    requires Next(s, step, s') && WellFormed(s.pool)
    ensures WellFormed(s'.pool)
  {
    match step
    case TickStep(now, at, readings, pids) =>
      var t := TickInputOf(s, s'.store.leases, now, at, readings, pids);
      TickKeepsWellFormed(t, Before(s), |t.watched|);
    case PauseStep(_, gpus, _, _) => ScheduleStopsReaches(s.pool, gpus, 0);
    case WorkerStep(step) => StepKeepsWellFormed(s.pool, step);
    case StopAllStep(gpus) => ScheduleStopsReaches(s.pool, gpus, 0);
    case _ =>
  }

  lemma {:induction false} RunWellFormed(ss: seq<Sys>, steps: seq<Step>, i: nat)
    requires IsRun(ss, steps) && i <= |steps| && WellFormed(ss[0].pool)
    ensures WellFormed(ss[i].pool)
  {
    if i > 0 {
      RunWellFormed(ss, steps, i - 1);
      NextWellFormed(ss[i - 1], steps[i - 1], ss[i]);
    }
  }

  /** Every leased GPU that has a worker on file has a `stop` scheduled or in flight. */
  ghost predicate TeardownPending(s: Sys) {
    forall g :: g in s.store.leases ==> StopPending(s.pool, g)
  }

  /** No step but a pause or a restart makes a lease appear. */
  lemma LeasesShrink(s: Sys, step: Step, s': Sys, g: int)
    requires Next(s, step, s') && g in s'.store.leases && g !in s.store.leases
    ensures step.RestartStep? || (step.PauseStep? && PauseAccepted(s, step.caller, step.gpus, step.duration) && g in step.gpus)
  {
    match step
    case PauseStep(c, gpus, duration, at) =>
      GrantAllPointwise(s.store.leases, c.uid, c.user, gpus, duration.Floor as real, at);
    case ResumeStep(c, gpus, at) =>
      ReleaseExact(s.store.leases, c.uid, IsRoot(c), gpus);
    case _ =>
  }

  lemma NextTeardownPending(s: Sys, step: Step, s': Sys)
    requires Next(s, step, s') && WellFormed(s.pool) && TeardownPending(s)
    ensures TeardownPending(s')
  {
    forall g | g in s'.store.leases ensures StopPending(s'.pool, g) {
      if g !in s.store.leases {
        LeasesShrink(s, step, s', g);
      }
      match step
      case TickStep(now, at, readings, pids) =>
        var t := TickInputOf(s, s'.store.leases, now, at, readings, pids);
        TickKeepsStopPending(t, Before(s), |t.watched|, g);
      case PauseStep(_, gpus, _, _) => ScheduleStopsReaches(s.pool, gpus, g);
      case WorkerStep(step) => StepKeepsStopPending(s.pool, step, g);
      case StopAllStep(gpus) => ScheduleStopsReaches(s.pool, gpus, g);
      case _ =>
    }
  }

  /** In every reachable interleaving the worker maps agree with one another and with
      the processes, and every leased GPU with a worker on file is being torn down. */
  lemma {:induction false} LeasedWorkersAreTornDown(ss: seq<Sys>, steps: seq<Step>, i: nat)
    requires IsRun(ss, steps) && i <= |steps| && Init(ss[0])
    ensures WellFormed(ss[i].pool) && TeardownPending(ss[i])
  {
    if i > 0 {
      LeasedWorkersAreTornDown(ss, steps, i - 1);
      NextWellFormed(ss[i - 1], steps[i - 1], ss[i]);
      NextTeardownPending(ss[i - 1], steps[i - 1], ss[i]);
    }
  }

  // --- the process ledger ---------------------------------------------------

  /** The step forgets no live process: a finishing `stop` finds none on file for its GPU,
      and a restart finds none alive at all. */
  ghost predicate ForgetsNone(s: Sys, step: Step) {
    && (step.WorkerStep? ==> Enabled(s.pool, step.step) && ForgetsNoLive(s.pool, step.step))
    && (step.RestartStep? ==> forall id: ProcId :: !IsLive(s.pool, id))
  }

  /** A restart keeps the ledger exactly when no worker outlives the old daemon. */
  lemma RestartKeepsLedgerIff(s: Sys, cfg: Config, visible: seq<int>, now: real, at: real)
    ensures Ledger(Restarted(s, cfg, visible, now, at).pool) <==> forall id: ProcId :: !IsLive(s.pool, id)
  {
    var r := Restarted(s, cfg, visible, now, at).pool;
    forall id: ProcId | IsLive(s.pool, id) ensures !Ledger(r) {
      assert IsLive(r, id);
    }
    assert forall id: ProcId :: IsLive(r, id) ==> IsLive(s.pool, id);
  }

  lemma NextLedgerIff(s: Sys, step: Step, s': Sys)
    requires Next(s, step, s') && WellFormed(s.pool) && Ledger(s.pool)
    ensures Ledger(s'.pool) <==> ForgetsNone(s, step)
  {
    hide Ledger, WellFormed;
    match step
    case TickStep(now, at, readings, pids) =>
      var t := TickInputOf(s, s'.store.leases, now, at, readings, pids);
      TickKeepsLedger(t, Before(s), |t.watched|);
    case PauseStep(_, gpus, _, _) => SchedulingKeepsPool(s.pool, gpus);
    case WorkerStep(step) => StepKeepsLedgerIff(s.pool, step);
    case StopAllStep(gpus) => SchedulingKeepsPool(s.pool, gpus);
    case RestartStep(cfg, visible, now, at) => RestartKeepsLedgerIff(s, cfg, visible, now, at);
    case _ =>
  }

  lemma InitLedger(s: Sys)
    requires Init(s)
    ensures WellFormed(s.pool) && Ledger(s.pool) && StopsAim(s.pool)
  {
  }

  /** Process ledger, exactly: every live process is the one on file for its GPU in all
      states of a run if and only if no step of it forgets a live process. */
  lemma {:induction false} LedgerIff(ss: seq<Sys>, steps: seq<Step>, n: nat)
    requires IsRun(ss, steps) && n <= |steps| && Init(ss[0])
    ensures (forall k :: 0 <= k <= n ==> Ledger(ss[k].pool)) <==> (forall k :: 0 <= k < n ==> ForgetsNone(ss[k], steps[k]))
  {
    hide Next, Ledger, ForgetsNone, WellFormed;
    InitLedger(ss[0]);
    if n > 0 {
      LedgerIff(ss, steps, n - 1);
      if forall k :: 0 <= k < n ==> Ledger(ss[k].pool) {
        RunWellFormed(ss, steps, n - 1);
        NextLedgerIff(ss[n - 1], steps[n - 1], ss[n]);
      }
    }
  }

  /** A run keeps the ledger: no step before state `n` forgets a live process. */
  ghost predicate NoneForgotten(ss: seq<Sys>, steps: seq<Step>, n: nat)
    requires n <= |ss| && n <= |steps|
  {
    forall k :: 0 <= k < n ==> ForgetsNone(ss[k], steps[k])
  }

  /** No process is started on a GPU for which a `stop` is waiting, and the daemon is
      restarted only when no worker is left alive. */
  ghost predicate Orderly(s: Sys, step: Step, s': Sys) {
    && StartsGuarded(s.pool, s'.pool)
    && (step.RestartStep? ==> forall id: ProcId :: !IsLive(s.pool, id))
  }

  lemma NextAims(s: Sys, step: Step, s': Sys)
    requires Next(s, step, s') && Orderly(s, step, s') && WellFormed(s.pool) && StopsAim(s.pool)
    ensures StopsAim(s'.pool) && ForgetsNone(s, step)
  {
    match step
    case TickStep(now, at, readings, pids) =>
      var t := TickInputOf(s, s'.store.leases, now, at, readings, pids);
      TickKeepsAim(t, Before(s), |t.watched|);
    case PauseStep(_, gpus, _, _) => SchedulingKeepsPool(s.pool, gpus);
    case WorkerStep(step) =>
      StepKeepsAim(s.pool, step);
      AimForgetsNoLive(s.pool, step);
    case StopAllStep(gpus) => SchedulingKeepsPool(s.pool, gpus);
    case _ =>
  }

  /** In an orderly run every waiting `stop` aims at the process on file, if there is one,
      so none is forgotten. */
  lemma {:induction false} OrderlyForgetsNone(ss: seq<Sys>, steps: seq<Step>, n: nat)
    requires IsRun(ss, steps) && n <= |steps| && Init(ss[0])
    requires forall k :: 0 <= k < n ==> Orderly(ss[k], steps[k], ss[k + 1])
    ensures StopsAim(ss[n].pool) && NoneForgotten(ss, steps, n)
  {
    hide Next, WellFormed, Orderly, StopsAim, ForgetsNone;
    InitLedger(ss[0]);
    if n > 0 {
      OrderlyForgetsNone(ss, steps, n - 1);
      RunWellFormed(ss, steps, n - 1);
      NextAims(ss[n - 1], steps[n - 1], ss[n]);
    }
  }

  /** No two live processes share a GPU. */
  ghost predicate OneLivePerGpu(p: Pool) {
    forall a: ProcId, b: ProcId :: IsLive(p, a) && IsLive(p, b) && p.os[a].gpu == p.os[b].gpu ==> a == b
  }

  /** Then no GPU ever has two live workers; in particular in every orderly run. */
  lemma OneLiveWorkerEver(ss: seq<Sys>, steps: seq<Step>, i: nat)
    requires IsRun(ss, steps) && i <= |steps| && Init(ss[0])
    requires NoneForgotten(ss, steps, i) || forall k :: 0 <= k < i ==> Orderly(ss[k], steps[k], ss[k + 1])
    ensures WellFormed(ss[i].pool) && Ledger(ss[i].pool) && OneLivePerGpu(ss[i].pool)
  {
    if !NoneForgotten(ss, steps, i) {
      OrderlyForgetsNone(ss, steps, i);
    }
    hide Next, WellFormed, ForgetsNone;
    InitLedger(ss[0]);
    RunWellFormed(ss, steps, i);
    LedgerIff(ss, steps, i);
  }

  // --- shutdown -------------------------------------------------------------

  lemma NextKeepsPendingAmong(s: Sys, step: Step, s': Sys, g: int, lo: TaskId, hi: TaskId)
    requires Next(s, step, s') && WellFormed(s.pool) && !step.TickStep? && !step.RestartStep?
    requires PendingAmong(s.pool, g, lo, hi) && hi <= s.pool.nextTask
    ensures PendingAmong(s'.pool, g, lo, hi) && hi <= s'.pool.nextTask
  {
    match step
    case PauseStep(_, gpus, _, _) => SchedulingKeepsPendingAmong(s.pool, gpus, g, lo, hi);
    case StopAllStep(gpus) => SchedulingKeepsPendingAmong(s.pool, gpus, g, lo, hi);
    case WorkerStep(step) => StepKeepsPendingAmong(s.pool, step, g, lo, hi);
    case _ =>
  }

  lemma SchedulingKeepsPendingAmong(p: Pool, gpus: seq<int>, g: int, lo: TaskId, hi: TaskId)
    requires WellFormed(p) && PendingAmong(p, g, lo, hi) && hi <= p.nextTask
    ensures PendingAmong(ScheduleStops(p, gpus), g, lo, hi) && hi <= ScheduleStops(p, gpus).nextTask
  {
    ScheduleStopsReaches(p, gpus, g);
    ScheduledAreNext(p, gpus, g);
    if Tracked(p, g) {
      var t :| lo <= t < hi && t in p.stops && p.stops[t].gpu == g;
      assert t in ScheduleStops(p, gpus).stops && ScheduleStops(p, gpus).stops[t].gpu == g;
    }
  }

  lemma ShutdownPends(s: Sys, step: Step, s': Sys, g: int)
    requires Next(s, step, s') && step.StopAllStep? && WellFormed(s.pool)
    ensures PendingAmong(s'.pool, g, s.pool.nextTask, s'.pool.nextTask)
  {
    StopAllPends(s.pool, step.gpus);
  }

  /** Neither a tick nor a restart comes between. */
  predicate NoTickBetween(steps: seq<Step>, i: nat, j: nat)
    requires j <= |steps|
  {
    forall k :: i < k < j ==> !steps[k].TickStep? && !steps[k].RestartStep?
  }

  lemma {:induction false} RunKeepsPendingAmong(ss: seq<Sys>, steps: seq<Step>, i: nat, j: nat, g: int)
    requires IsRun(ss, steps) && i < j <= |steps| && WellFormed(ss[0].pool)
    requires steps[i].StopAllStep? && NoTickBetween(steps, i, j)
    ensures PendingAmong(ss[j].pool, g, ss[i].pool.nextTask, ss[i + 1].pool.nextTask)
    ensures ss[i + 1].pool.nextTask <= ss[j].pool.nextTask
  {
    hide Next, WellFormed, PendingAmong;
    RunWellFormed(ss, steps, j - 1);
    if j == i + 1 {
      ShutdownPends(ss[i], steps[i], ss[j], g);
    } else {
      RunKeepsPendingAmong(ss, steps, i, j - 1, g);
      NextKeepsPendingAmong(ss[j - 1], steps[j - 1], ss[j], g, ss[i].pool.nextTask, ss[i + 1].pool.nextTask);
    }
  }

  lemma ShutdownEmpties(ss: seq<Sys>, steps: seq<Step>, i: nat, j: nat)
    requires IsRun(ss, steps) && i < j <= |steps| && WellFormed(ss[0].pool)
    requires steps[i].StopAllStep? && NoTickBetween(steps, i, j)
    requires NoneLeft(ss[j].pool, ss[i].pool.nextTask, ss[i + 1].pool.nextTask)
    ensures ss[j].pool.procs == map[]
    ensures Ledger(ss[j].pool) ==> forall id :: !IsLive(ss[j].pool, id)
  {
    hide Next, WellFormed, PendingAmong, NoneLeft, Ledger;
    var lo, hi := ss[i].pool.nextTask, ss[i + 1].pool.nextTask;
    forall g ensures PendingAmong(ss[j].pool, g, lo, hi) {
      RunKeepsPendingAmong(ss, steps, i, j, g);
    }
    RunWellFormed(ss, steps, j);
    NonePendingNoneTracked(ss[j].pool, lo, hi);
  }

  /** Graceful shutdown: once the stops that `stop_all` scheduled have ended, whatever
      pauses, resumes and older stops come between, no worker is on file; and unless a live
      process had been forgotten none is alive, so that a restart then keeps the ledger. */
  lemma ShutdownDrains(ss: seq<Sys>, steps: seq<Step>, i: nat, j: nat)
    requires IsRun(ss, steps) && i < j <= |steps| && Init(ss[0])
    requires steps[i].StopAllStep? && NoTickBetween(steps, i, j)
    requires NoneLeft(ss[j].pool, ss[i].pool.nextTask, ss[i + 1].pool.nextTask)
    ensures ss[j].pool.procs == map[]
    ensures NoneForgotten(ss, steps, j) ==> forall id :: !IsLive(ss[j].pool, id)
    ensures NoneForgotten(ss, steps, j) && j < |steps| && steps[j].RestartStep? ==>
              NoneForgotten(ss, steps, j + 1) && Ledger(ss[j + 1].pool)
  {
    hide Next, Init, WellFormed, Ledger, Orderly, NoneLeft, OneLivePerGpu, Enabled, ForgetsNoLive, IsLive;
    InitLedger(ss[0]);
    ShutdownEmpties(ss, steps, i, j);
    if NoneForgotten(ss, steps, j) {
      OneLiveWorkerEver(ss, steps, j);
      if j < |steps| && steps[j].RestartStep? {
        OneLiveWorkerEver(ss, steps, j + 1);
      }
    }
  }

  // --- eviction -------------------------------------------------------------

  /** A granted pause evicts: in a run that forgets no live process, as long as the pause
      stands and nobody entitled has resumed it, a GPU for which no `stop` is in flight
      any more has no live worker at all. */
  lemma PauseEvicts(ss: seq<Sys>, steps: seq<Step>, i: nat, j: nat, g: int, e: real)
    requires IsRun(ss, steps) && i < j <= |steps| && Init(ss[0]) && NoneForgotten(ss, steps, j)
    requires steps[i].PauseStep? && g in steps[i].gpus
    requires PauseAccepted(ss[i], steps[i].caller, steps[i].gpus, steps[i].duration)
    requires g in ss[i + 1].store.leases && e <= ss[i + 1].store.leases[g].expiresAt
    requires ss[j].wall < e
    requires forall k :: i < k < j ==> !ResumesFor(steps[k], g, steps[i].caller.uid)
    requires !StopInFlight(ss[j].pool, g)
    ensures forall id: ProcId :: IsLive(ss[j].pool, id) ==> ss[j].pool.os[id].gpu != g
  {
    var uid := steps[i].caller.uid;
    PauseHolds(ss[i], steps[i], ss[i + 1], g, e);
    hide Next;
    RunKeepsHold(ss, steps, i + 1, j, g, uid, e);
    LeasedWorkersAreTornDown(ss, steps, j);
    OneLiveWorkerEver(ss, steps, j);
    assert StopPending(ss[j].pool, g);
  }

  lemma PauseHolds(s: Sys, step: Step, s': Sys, g: int, e: real)
    requires Next(s, step, s') && step.PauseStep? && g in step.gpus
    requires PauseAccepted(s, step.caller, step.gpus, step.duration)
    requires g in s'.store.leases && e <= s'.store.leases[g].expiresAt
    ensures HeldUntil(s'.store, g, step.caller.uid, e)
  {
    GrantAllPointwise(s.store.leases, step.caller.uid, step.caller.user, step.gpus, step.duration.Floor as real, step.at);
    PersistedHolds(s'.store, g, step.caller.uid, e);
  }
}
