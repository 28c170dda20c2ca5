/** The policy in numbers: which samples count as free, what a pause grants, who may resume,
    and which GPUs are watched, written out for every step of the daemon. */
module PolicyLaws {
  import opened Wrappers
  import opened Configs
  import opened Leases
  import opened LeaseLaws
  import opened Workers
  import opened WorkerLaws
  import opened History
  import opened Control
  import opened ControlLaws
  import opened Daemons
  import opened DaemonLaws
  import opened DebounceLaws

  // --- samples --------------------------------------------------------------

  /** Utilisation and used memory are below their shares; without a total the used share
      is zero. */
  predicate Free(cfg: Config, s: GpuSample) {
    && s.utilPct < cfg.utilLow
    && (if s.memTotalMb > 0 then 100 * s.memUsedMb < cfg.memLow * s.memTotalMb else 0 < cfg.memLow)
  }

  lemma DivideBelow(a: real, b: real, c: real)
    requires b > 0.0
    ensures a / b < c <==> a < c * b
  {
    var q := a / b;
    assert q * b == a;
    if q < c {
      assert (c - q) * b > 0.0;
    } else {
      assert (q - c) * b >= 0.0;
    }
  }

  lemma WholeProduct(a: int, b: int)
    ensures (a * b) as real == a as real * b as real
  {
  }

  lemma QuietIsFree(cfg: Config, s: GpuSample)
    ensures IsQuiet(cfg, s) <==> Free(cfg, s)
  {
    if s.memTotalMb > 0 {
      DivideBelow(100.0 * s.memUsedMb as real, s.memTotalMb as real, cfg.memLow as real);
      WholeProduct(cfg.memLow, s.memTotalMb);
      assert (100 * s.memUsedMb) as real == 100.0 * s.memUsedMb as real;
    }
  }

  /** The tick samples `g` at position `i`, and the sample carries no error text. */
  predicate Reads(s: Sys, step: Step, g: int, i: nat) {
    && step.TickStep? && i < |s.ctl.watched| && i < |step.readings|
    && s.ctl.watched[i] == g && step.readings[i].Got?
    && (step.readings[i].sample.error.None? || step.readings[i].sample.error.value == "")
  }

  /** What a sample makes of a GPU that is listed once, case by case. */
  lemma SampleDecides(s: Sys, step: Step, s': Sys, g: int, i: nat)
    requires Next(s, step, s') && WellFormed(s.pool) && ListedOnce(s.ctl.watched, g) && Reads(s, step, g, i)
    requires s.ctl.cfg.idleDebounceS > 0
    ensures g in s'.ctl.states && s'.ctl.states[g].lastSample == Some(step.readings[i].sample)
    ensures var cfg, sample, before, after := s.ctl.cfg, step.readings[i].sample, Streak(s, g), s'.ctl.states[g];
            var started := StartedOn(s.pool, s'.pool, g);
            var count := before + if s.ctl.lastTick.Some? then step.now - s.ctl.lastTick.value else 0.0;
            if g in s'.store.leases then
              !started && after.idleStreak == 0.0 && after.lastDecision == Leased
            else if g in s.pool.meta then
              !started && after.idleStreak == before && after.lastDecision == OccupiedByUs
            else if !Free(cfg, sample) then
              !started && after.idleStreak == 0.0 && after.lastDecision == ActiveNoWorker
            else if count < cfg.idleDebounceS as real || cfg.workloads == [] then
              !started && after.idleStreak == count && after.lastDecision == WaitingIdle
            else
              started && after.idleStreak == 0.0 && after.lastDecision == Spawned
  {
    QuietIsFree(s.ctl.cfg, step.readings[i].sample);
    TickCarriesVerdict(s, step, s', g, i);
    hide Next, WellFormed, IsQuiet, Free, ListedOnce, StartedOn;
  }

  /** A sample with an error text is shown, and nothing else happens to the GPU. */
  lemma ErrorDecides(s: Sys, step: Step, s': Sys, g: int, i: nat)
    requires Next(s, step, s') && WellFormed(s.pool) && ListedOnce(s.ctl.watched, g)
    requires step.TickStep? && i < |s.ctl.watched| && i < |step.readings| && s.ctl.watched[i] == g && step.readings[i].Got?
    requires step.readings[i].sample.error.Some? && step.readings[i].sample.error.value != ""
    ensures g in s'.ctl.states && !StartedOn(s.pool, s'.pool, g)
    ensures s'.ctl.states[g] ==
            StateOf(s.ctl.states, g).(lastSample := Some(step.readings[i].sample), lastDecision := MonitorError)
  {
    TickCarriesVerdict(s, step, s', g, i);
  }

  /** Position `i` of the tick holds a free sample of `g`. */
  predicate FreeSampleAt(t: TickInput, g: int, i: nat) {
    && i < |t.watched| && i < |t.readings| && t.watched[i] == g && t.readings[i].Got?
    && (t.readings[i].sample.error.None? || t.readings[i].sample.error.value == "")
    && Free(t.cfg, t.readings[i].sample)
  }

  lemma DeviceStartsFree(t: TickInput, p: Progress, i: nat, g: int)
    requires InputFits(t) && i < |t.watched| && t.cfg.idleDebounceS > 0
    ensures StartedOn(p.pool, TickDevice(t, p, i).pool, g) ==> FreeSampleAt(t, g, i) && t.cfg.workloads != []
  {
    if t.readings[i].Got? {
      QuietIsFree(t.cfg, t.readings[i].sample);
      hide IsQuiet, Free;
    }
  }

  lemma {:induction false} TickStartsFree(t: TickInput, p: Progress, k: nat, g: int)
    requires InputFits(t) && k <= |t.watched| && t.cfg.idleDebounceS > 0
    ensures StartedOn(p.pool, TickUpTo(t, p, k).pool, g) ==> t.cfg.workloads != [] && exists i :: FreeSampleAt(t, g, i)
  {
    hide TickDevice, StartedOn, FreeSampleAt;
    if k == 0 {
      NothingStarted(p.pool, g);
    } else {
      var before := TickUpTo(t, p, k - 1);
      TickStartsFree(t, p, k - 1, g);
      OsGrowsUpTo(t, p, k - 1);
      OsGrows(t, before, k - 1);
      StartedSplits(p.pool, before.pool, TickDevice(t, before, k - 1).pool, g);
      DeviceStartsFree(t, before, k - 1, g);
    }
  }

  lemma NothingStarted(p: Pool, g: int)
    ensures !StartedOn(p, p, g)
  {
  }

  /** A `stop` for `g` that is in `q` and was not in `p`. */
  ghost predicate NewStopFor(p: Pool, q: Pool, g: int) {
    exists t :: t in q.stops && t !in p.stops && q.stops[t] == Scheduled(g)
  }

  /** Some of the first `k` positions holds a sample of `g` without error. */
  predicate Seen(t: TickInput, g: int, k: nat)
    requires InputFits(t) && k <= |t.watched|
  {
    exists i :: 0 <= i < k && SeenAt(t, g, i)
  }

  predicate SeenAt(t: TickInput, g: int, i: nat)
    requires InputFits(t) && i < |t.watched|
  {
    && t.watched[i] == g && t.readings[i].Got?
    && (t.readings[i].sample.error.None? || t.readings[i].sample.error.value == "")
  }

  lemma DeviceTearsDownWhen(t: TickInput, p: Progress, i: nat, g: int)
    requires InputFits(t) && i < |t.watched|
    ensures DeviceStep(t, p, i) == Some(DoSchedule(g)) <==> SeenAt(t, g, i) && g in t.leases && g in p.pool.meta
  {
    hide IsQuiet;
  }

  lemma PoolStepTearsDown(p: Pool, step: PoolStep, g: int)
    requires WellFormed(p) && (step.DoSpawn? || step.DoSchedule?)
    ensures forall u :: u in p.stops ==> u in Apply(p, step).stops
    ensures NewStopFor(p, Apply(p, step), g) <==> step == DoSchedule(g)
    ensures g in Apply(p, step).meta <==> g in p.meta || (step.DoSpawn? && step.gpu == g)
  {
    assert forall u :: u in p.stops ==> u < p.nextTask;
    OnFileIsTracked(p, g);
    hide WellFormed;
    if step == DoSchedule(g) {
      assert Apply(p, step).stops[p.nextTask] == Scheduled(g);
    }
  }

  lemma DeviceTearsDownIff(t: TickInput, p: Progress, i: nat, g: int)
    requires InputFits(t) && i < |t.watched| && WellFormed(p.pool)
    ensures var q := TickDevice(t, p, i);
            && (forall u :: u in p.pool.stops ==> u in q.pool.stops)
            && (NewStopFor(p.pool, q.pool, g) <==> SeenAt(t, g, i) && g in t.leases && g in p.pool.meta)
            && (g in t.leases ==> (g in q.pool.meta <==> g in p.pool.meta))
  {
    hide TickDevice, Decide, WellFormed, NewStopFor, SeenAt, Apply;
    DeviceStepSound(t, p, i);
    DeviceTearsDownWhen(t, p, i, g);
    var step := DeviceStep(t, p, i);
    if step.Some? {
      PoolStepTearsDown(p.pool, step.value, g);
    } else {
      NoNewStop(p.pool, g);
    }
  }

  lemma NewStopSplits(p: Pool, q: Pool, r: Pool, g: int)
    requires forall u :: u in p.stops ==> u in q.stops
    requires forall u :: u in q.stops ==> u in r.stops
    requires forall u :: u in q.stops && u !in p.stops ==> u in r.stops && r.stops[u] == q.stops[u]
    ensures NewStopFor(p, r, g) <==> NewStopFor(p, q, g) || NewStopFor(q, r, g)
  {
    if NewStopFor(p, q, g) {
      var u :| u in q.stops && u !in p.stops && q.stops[u] == Scheduled(g);
      assert r.stops[u] == Scheduled(g);
    }
  }

  lemma DeviceKeepsStops(t: TickInput, p: Progress, i: nat)
    requires InputFits(t) && i < |t.watched| && WellFormed(p.pool)
    ensures forall u :: u in p.pool.stops ==> u in TickDevice(t, p, i).pool.stops && TickDevice(t, p, i).pool.stops[u] == p.pool.stops[u]
  {
    assert forall u :: u in p.pool.stops ==> u < p.pool.nextTask;
    hide WellFormed, IsQuiet;
  }

  /** A tick schedules a `stop` exactly for the leased GPUs with a worker on file that it
      samples without error. */
  lemma {:induction false} TickTearsDownIff(t: TickInput, p: Progress, k: nat, g: int)
    requires InputFits(t) && k <= |t.watched| && WellFormed(p.pool)
    ensures var q := TickUpTo(t, p, k);
            && (forall u :: u in p.pool.stops ==> u in q.pool.stops)
            && (NewStopFor(p.pool, q.pool, g) <==> Seen(t, g, k) && g in t.leases && g in p.pool.meta)
            && (g in t.leases ==> (g in q.pool.meta <==> g in p.pool.meta))
  {
    hide TickDevice, WellFormed, NewStopFor, SeenAt;
    if k == 0 {
      NoNewStop(p.pool, g);
    } else {
      var before := TickUpTo(t, p, k - 1);
      TickTearsDownIff(t, p, k - 1, g);
      TickKeepsWellFormed(t, p, k - 1);
      DeviceTearsDownIff(t, before, k - 1, g);
      DeviceKeepsStops(t, before, k - 1);
      NewStopSplits(p.pool, before.pool, TickDevice(t, before, k - 1).pool, g);
    }
  }

  lemma NoNewStop(p: Pool, g: int)
    ensures !NewStopFor(p, p, g)
  {
  }

  /** The stops a step of the daemon schedules: a tick for leased GPUs with a worker on file
      that it samples without error, an accepted pause for the requested ones with a worker
      on file, a shutdown for all with one, and no other step for any. */
  lemma StopsScheduledIff(s: Sys, step: Step, s': Sys, g: int)
    requires Next(s, step, s') && WellFormed(s.pool)
    ensures NewStopFor(s.pool, s'.pool, g) <==>
      && g in s.pool.meta
      && match step
         case TickStep(_, _, readings, _) =>
           && g in s'.store.leases
           && exists i: nat :: Reads(s, step, g, i)
         case PauseStep(c, gpus, duration, _) => PauseAccepted(s, c, gpus, duration) && g in gpus
         case StopAllStep(_) => true
         case _ => false
  {
    hide WellFormed, NewStopFor, PauseAccepted, StoreStep, StartedOn;
    match step
    case TickStep(now, at, readings, pids) =>
      var t := TickInputOf(s, s'.store.leases, now, at, readings, pids);
      TickTearsDownIff(t, Before(s), |t.watched|, g);
      if i :| 0 <= i < |t.watched| && SeenAt(t, g, i) {
        assert Reads(s, step, g, i);
      }
      if i: nat :| Reads(s, step, g, i) {
        assert SeenAt(t, g, i);
      }
    case PauseStep(_, gpus, _, _) =>
      NoNewStop(s.pool, g);
      SchedulingIsExact(s.pool, gpus, g);
    case StopAllStep(gpus) =>
      SchedulingIsExact(s.pool, gpus, g);
      OnFileIsTracked(s.pool, g);
    case WorkerStep(step) => WorkerStepSchedulesNone(s.pool, step, g);
    case RestartStep(_, _, _, _) => NoStopNoNew(s.pool, s'.pool, g);
    case _ => NoNewStop(s.pool, g);
  }

  lemma OnFileIsTracked(p: Pool, g: int)
    requires WellFormed(p)
    ensures g in p.procs <==> g in p.meta
  {
  }

  lemma NoStopNoNew(p: Pool, q: Pool, g: int)
    requires q.stops == map[]
    ensures !NewStopFor(p, q, g)
  {
  }

  lemma WorkerStepSchedulesNone(p: Pool, step: PoolStep, g: int)
    requires Enabled(p, step) && !step.DoSchedule?
    ensures !NewStopFor(p, Apply(p, step), g)
  {
  }

  lemma SchedulingIsExact(p: Pool, gpus: seq<int>, g: int)
    requires WellFormed(p)
    ensures NewStopFor(p, ScheduleStops(p, gpus), g) <==> g in gpus && g in p.meta
  {
    var q := ScheduleStops(p, gpus);
    ScheduledExactly(p, gpus);
    ScheduledAreNext(p, gpus, g);
    if g in gpus && g in p.meta {
      var t :| p.nextTask <= t < q.nextTask && t in q.stops && q.stops[t].gpu == g;
      assert t !in p.stops && q.stops[t] == Scheduled(g);
    }
  }

  // --- watched GPUs ---------------------------------------------------------

  /** A daemon comes up, and swaps its configuration, with the configured GPUs watched, or
      those the monitor sees if none are configured. */
  lemma ConfiguredAreWatched(s: Sys, step: Step, s': Sys)
    requires Next(s, step, s') && (step.ReloadStep? || step.RestartStep?)
    ensures s'.ctl.cfg == step.cfg
    ensures s'.ctl.watched == if step.cfg.indices != [] then step.cfg.indices else step.visible
    ensures forall g :: g in s'.ctl.states <==> g in s'.ctl.watched
    ensures forall g :: g in s'.ctl.states ==>
              s'.ctl.states[g] == if step.ReloadStep? && g in s.ctl.states then s.ctl.states[g] else DeviceState(g, 0.0, None, Initial)
  {
  }

  /** A restart keeps the state file and the processes, loads only unexpired lines of the
      file, and forgets everything else. */
  lemma RestartForgets(s: Sys, step: Step, s': Sys)
    requires Next(s, step, s') && step.RestartStep?
    ensures s'.store.disk == s.store.disk && s'.pool.os == s.pool.os
    ensures s'.pool.procs == map[] && s'.pool.meta == map[] && s'.pool.watchers == map[]
    ensures s'.pool.stops == map[] && s'.pool.watches == map[] && s'.ctl.lastTick.None?
    ensures forall g :: g in s'.store.leases ==>
              s'.store.leases[g] in Lines(s.store.disk) && s'.store.leases[g].gpu == g && s'.store.leases[g].expiresAt > step.at
  {
    forall g | g in s'.store.leases
      ensures s'.store.leases[g] in Lines(s.store.disk) && s'.store.leases[g].gpu == g && s'.store.leases[g].expiresAt > step.at
    {
      var i := LoadedFrom(Lines(s.store.disk), step.at, g);
    }
  }

  /** The configuration is valid and its GPUs, if it names any, are those watched. */
  predicate Configured(s: Sys) {
    && s.ctl.cfg.idleDebounceS > 0 && 0 < s.ctl.cfg.minDurationS <= s.ctl.cfg.maxDurationS
    && (s.ctl.cfg.indices != [] ==> s.ctl.watched == s.ctl.cfg.indices)
  }

  lemma {:induction false} RunConfigured(ss: seq<Sys>, steps: seq<Step>, i: nat)
    requires IsRun(ss, steps) && i <= |steps| && Init(ss[0])
    ensures Configured(ss[i])
  {
    if i > 0 {
      RunConfigured(ss, steps, i - 1);
      NextConfigured(ss[i - 1], steps[i - 1], ss[i]);
    }
  }

  lemma NextConfigured(s: Sys, step: Step, s': Sys)
    requires Next(s, step, s') && Configured(s)
    ensures Configured(s')
  {
    hide TickUpTo, ScheduleStops, GrantAll, ReleaseAll, Loaded, Apply, Enabled;
  }

  /** Every worker the daemon ever starts is on a GPU of the indices in force, if any are
      configured, without a lease, and sampled free by that very tick. */
  lemma StartsAreSafe(ss: seq<Sys>, steps: seq<Step>, j: nat, g: int)
    requires IsRun(ss, steps) && j < |steps| && Init(ss[0]) && StartedOn(ss[j].pool, ss[j + 1].pool, g)
    ensures steps[j].TickStep? && g !in ss[j + 1].store.leases
    ensures g in ss[j].ctl.watched && (ss[j].ctl.cfg.indices != [] ==> g in ss[j].ctl.cfg.indices)
    ensures ss[j].ctl.cfg.workloads != []
    ensures exists i: nat :: Reads(ss[j], steps[j], g, i) && Free(ss[j].ctl.cfg, steps[j].readings[i].sample)
  {
    InitLedger(ss[0]);
    RunWellFormed(ss, steps, j);
    RunConfigured(ss, steps, j);
    StartsOnlyUncovered(ss[j], steps[j], ss[j + 1], g);
    TickStepStartsFree(ss[j], steps[j], ss[j + 1], g);
  }

  lemma TickStepStartsFree(s: Sys, step: Step, s': Sys, g: int)
    requires Next(s, step, s') && step.TickStep? && s.ctl.cfg.idleDebounceS > 0 && StartedOn(s.pool, s'.pool, g)
    ensures s.ctl.cfg.workloads != []
    ensures exists i: nat :: Reads(s, step, g, i) && Free(s.ctl.cfg, step.readings[i].sample)
  {
    var t := TickInputOf(s, s'.store.leases, step.now, step.at, step.readings, step.pids);
    TickStartsFree(t, Before(s), |t.watched|, g);
    var i: nat :| FreeSampleAt(t, g, i);
    assert Reads(s, step, g, i);
  }

  // --- pauses ---------------------------------------------------------------

  /** Root, or somebody on the whitelist by number or by name. */
  predicate MayPause(cfg: Config, c: Caller) {
    c.uid == 0 || Uid(c.uid) in cfg.whitelist || Name(c.user) in cfg.whitelist
  }

  /** A non-empty list of watched GPUs without repeats. */
  predicate GoodSet(watched: seq<int>, gpus: seq<int>) {
    && gpus != []
    && (forall i, j :: 0 <= i < j < |gpus| ==> gpus[i] != gpus[j])
    && (forall g :: g in gpus ==> g in watched)
  }

  /** Why a PAUSE is refused before leases are looked at, in numbers. */
  lemma PauseRefusalTells(cfg: Config, watched: seq<int>, c: Caller, gpus: seq<int>, duration: real)
    ensures PauseRefusal(cfg, watched, c, gpus, duration) ==
            if !MayPause(cfg, c) then Some(NotWhitelisted)
            else if !GoodSet(watched, gpus) then Some(BadGpuSet)
            else if duration <= 0.0 then Some(BadDuration)
            else if duration < cfg.minDurationS as real then Some(PauseTooShort)
            else if duration >= (cfg.maxDurationS + 1) as real then Some(PauseTooLong)
            else None
  {
  }

  lemma PauseAcceptedIff(s: Sys, c: Caller, gpus: seq<int>, duration: real)
    ensures PauseAccepted(s, c, gpus, duration) <==>
      && MayPause(s.ctl.cfg, c) && GoodSet(s.ctl.watched, gpus)
      && 0.0 < duration && s.ctl.cfg.minDurationS as real <= duration < (s.ctl.cfg.maxDurationS + 1) as real
      && (forall g :: g in gpus && g in s.store.leases ==> s.store.leases[g].uid == c.uid)
  {
    PauseRefusalTells(s.ctl.cfg, s.ctl.watched, c, gpus, duration);
    hide PauseRefusal, MayPause, GoodSet;
    if PauseAccepted(s, c, gpus, duration) {
      forall g | g in gpus && g in s.store.leases ensures s.store.leases[g].uid == c.uid {
        assert !Foreign(s.store.leases, c.uid, g);
      }
    }
  }

  /** The leases after a PAUSE, all of them: one for each requested GPU if it is accepted,
      to the later of the old deadline and the requested whole seconds from now; every
      other lease, and all of them if it is refused, stay as they are. */
  lemma PauseExact(s: Sys, step: Step, s': Sys, g: int)
    requires Next(s, step, s') && step.PauseStep? && 0.0 <= step.at
    ensures var before, c, accepted := s.store.leases, step.caller, PauseAccepted(s, step.caller, step.gpus, step.duration);
            if accepted && g in step.gpus then
              var until := step.at + step.duration.Floor as real;
              && g in s'.store.leases
              && s'.store.leases[g] ==
                 if g !in before then Lease(c.uid, c.user, g, step.at, until)
                 else Lease(c.uid, c.user, g, before[g].acquiredAt, if before[g].expiresAt > until then before[g].expiresAt else until)
            else (g in s'.store.leases <==> g in before) && (g in before ==> s'.store.leases[g] == before[g])
  {
    if PauseAccepted(s, step.caller, step.gpus, step.duration) {
      GrantAllPointwise(s.store.leases, step.caller.uid, step.caller.user, step.gpus, step.duration.Floor as real, step.at);
      PauseRefusalTells(s.ctl.cfg, s.ctl.watched, step.caller, step.gpus, step.duration);
    }
  }

  // --- resumes --------------------------------------------------------------

  /** The leases after a RESUME, all of them: one goes exactly if it was requested, the
      request is well formed and allowed, and the caller holds the lease or is uid 0. */
  lemma ResumeExact(s: Sys, step: Step, s': Sys, g: int)
    requires Next(s, step, s') && step.ResumeStep? && g in s.store.leases
    ensures g !in s'.store.leases <==>
      && g in step.gpus && MayPause(s.ctl.cfg, step.caller)
      && (forall i, j :: 0 <= i < j < |step.gpus| ==> step.gpus[i] != step.gpus[j])
      && (s.store.leases[g].uid == step.caller.uid || step.caller.uid == 0)
    ensures g in s'.store.leases ==> s'.store.leases[g] == s.store.leases[g]
  {
    if ResumeRefusal(s.ctl.cfg, step.caller, step.gpus).None? {
      ReleaseExact(s.store.leases, step.caller.uid, IsRoot(step.caller), step.gpus);
    }
  }

  /** Why a RESUME is refused before leases are looked at. */
  lemma ResumeRefusalTells(cfg: Config, c: Caller, gpus: seq<int>)
    ensures ResumeRefusal(cfg, c, gpus) ==
            if !MayPause(cfg, c) then Some(NotWhitelisted)
            else if gpus == [] || exists i, j :: 0 <= i < j < |gpus| && gpus[i] == gpus[j] then Some(BadGpuSet)
            else None
  {
  }

  // --- history of a tick ----------------------------------------------------

  /** A device of a tick is recorded if its monitor raises, as a failure, or if a worker is
      started on it; otherwise it is not. */
  lemma DeviceRecords(t: TickInput, p: Progress, i: nat)
    requires InputFits(t) && i < |t.watched| && WellFormed(p.pool)
    ensures var g, q := t.watched[i], TickDevice(t, p, i);
            q.queue == p.queue
              + if t.readings[i].Raised? then [Entry(HistoryEntry(t.wall, 0, "(auto)", "nvml_error", [g], false))]
                else if StartedOn(p.pool, q.pool, g) then [Entry(HistoryEntry(t.wall, 0, "(auto)", "worker_spawned", [g], true))]
                else []
  {
    if t.readings[i].Got? {
      OwnDeviceCarried(t, p, i);
    }
  }
}
