/** The guard of the process ledger follows from timing: a `stop` that ends soon after its
    process has exited is over before the debounce lets a new worker start. */
module LedgerLaws {
  import opened Workers
  import opened WorkerLaws
  import opened ControlLaws
  import opened Daemons
  import opened DaemonLaws
  import opened DebounceLaws

  /** At the tick `j`, every `stop` still waiting for a process that has exited had it
      alive right after an earlier tick, less than the debounce ago. */
  ghost predicate StopsArePrompt(ss: seq<Sys>, steps: seq<Step>, j: nat)
    requires |ss| == |steps| + 1 && j < |steps| && steps[j].TickStep?
  {
    forall t :: t in ss[j].pool.stops && ss[j].pool.stops[t].Waiting? && !IsLive(ss[j].pool, ss[j].pool.stops[t].proc) ==>
      exists i :: AliveAtRecentTick(ss, steps, i, j, ss[j].pool.stops[t].proc)
  }

  predicate AliveAtRecentTick(ss: seq<Sys>, steps: seq<Step>, i: int, j: nat, id: ProcId)
    requires |ss| == |steps| + 1 && j < |steps| && steps[j].TickStep?
  {
    && 0 <= i < j && steps[i].TickStep? && IsLive(ss[i + 1].pool, id)
    && steps[j].now - steps[i].now < ss[j].ctl.cfg.idleDebounceS as real
  }

  /** Processes keep their place and their GPU. */
  lemma NextKeepsProcesses(s: Sys, step: Step, s': Sys, id: ProcId)
    requires Next(s, step, s') && id < |s.pool.os|
    ensures id < |s'.pool.os| && s'.pool.os[id].gpu == s.pool.os[id].gpu
  {
    match step
    case TickStep(now, at, readings, pids) =>
      var t := TickInputOf(s, s'.store.leases, now, at, readings, pids);
      OsGrowsUpTo(t, Before(s), |t.watched|);
    case PauseStep(_, gpus, _, _) => SchedulingKeepsProcesses(s.pool, gpus);
    case StopAllStep(gpus) => SchedulingKeepsProcesses(s.pool, gpus);
    case _ =>
  }

  lemma {:induction false} SchedulingKeepsProcesses(p: Pool, gpus: seq<int>)
    ensures ScheduleStops(p, gpus).os == p.os
  {
    if gpus != [] {
      SchedulingKeepsProcesses(p, gpus[..|gpus| - 1]);
    }
  }

  lemma {:induction false} RunKeepsProcesses(ss: seq<Sys>, steps: seq<Step>, i: nat, j: nat, id: ProcId)
    requires IsRun(ss, steps) && i <= j <= |steps| && id < |ss[i].pool.os|
    ensures id < |ss[j].pool.os| && ss[j].pool.os[id].gpu == ss[i].pool.os[id].gpu
  {
    if i < j {
      RunKeepsProcesses(ss, steps, i, j - 1, id);
      NextKeepsProcesses(ss[j - 1], steps[j - 1], ss[j], id);
    }
  }

  /** A worker alive right after a tick has its GPU's count at zero. */
  lemma LiveAfterTick(s: Sys, step: Step, s': Sys, g: int, id: ProcId)
    requires Next(s, step, s') && step.TickStep? && WellFormed(s'.pool) && Ledger(s'.pool) && OccupiedMeansZero(s', g)
    requires IsLive(s'.pool, id) && s'.pool.os[id].gpu == g
    ensures CountedSince(s', g, step.now)
  {
    assert Tracked(s'.pool, g);
    hide WellFormed, Ledger;
  }

  lemma StartMeansUntracked(s: Sys, step: Step, s': Sys, g: int)
    requires Next(s, step, s') && WellFormed(s.pool) && ListedOnce(s.ctl.watched, g)
    requires step.TickStep? && StartedOn(s.pool, s'.pool, g)
    ensures !Tracked(s.pool, g)
  {
    var at := PositionOf(s, step, g);
    hide Next, WellFormed;
    if at.Some? {
      TickCarriesVerdict(s, step, s', g, at.value);
    } else {
      TickLeavesOthers(s, step, s', g);
    }
  }

  /** A worker alive right after an earlier tick keeps its GPU free of new workers for the debounce. */
  lemma AliveMeansNoStart(ss: seq<Sys>, steps: seq<Step>, i: nat, j: nat, g: int, id: ProcId)
    requires IsRun(ss, steps) && j < |steps| && Init(ss[0]) && steps[j].TickStep?
    requires AliveAtRecentTick(ss, steps, i, j, id) && NeverRepeated(ss, i + 1, j, g) && ss[i + 1].pool.os[id].gpu == g
    requires NoneForgotten(ss, steps, i + 1)
    ensures !StartedOn(ss[j].pool, ss[j + 1].pool, g)
  {
    hide Next, WellFormed, CountedSince, OccupiedMeansZero, Orderly;
    OneLiveWorkerEver(ss, steps, i + 1);
    RunOccupiedMeansZero(ss, steps, i + 1, g);
    RunOccupiedMeansZero(ss, steps, j, g);
    LiveAfterTick(ss[i], steps[i], ss[i + 1], g, id);
    RunCountedSince(ss, steps, i + 1, j, g, steps[i].now);
    TickCountedSince(ss[j], steps[j], ss[j + 1], g, steps[i].now);
  }

  lemma PromptStopsGuardStarts(ss: seq<Sys>, steps: seq<Step>, j: nat)
    requires IsRun(ss, steps) && j < |steps| && Init(ss[0]) && forall g :: NeverRepeated(ss, 0, j, g)
    requires forall k :: 0 <= k < j ==> Orderly(ss[k], steps[k], ss[k + 1])
    requires steps[j].TickStep? && StopsArePrompt(ss, steps, j)
    ensures StartsGuarded(ss[j].pool, ss[j + 1].pool)
  {
    OrderlyForgetsNone(ss, steps, j);
    OneLiveWorkerEver(ss, steps, j);
    var p := ss[j].pool;
    forall t | t in p.stops && p.stops[t].Waiting? ensures !StartedOn(p, ss[j + 1].pool, p.stops[t].gpu) {
      var g, id := p.stops[t].gpu, p.stops[t].proc;
      assert NeverRepeated(ss, 0, j, g);
      if IsLive(p, id) {
        if StartedOn(p, ss[j + 1].pool, g) {
          StartMeansUntracked(ss[j], steps[j], ss[j + 1], g);
        }
      } else {
        var i :| AliveAtRecentTick(ss, steps, i, j, id);
        RunKeepsProcesses(ss, steps, i + 1, j, id);
        AliveMeansNoStart(ss, steps, i, j, g, id);
      }
    }
  }

  /** In a run in which every `stop` is prompt and the daemon is restarted only when no
      worker is alive, no process is ever started under a waiting `stop`. */
  lemma {:induction false} PromptRunsAreOrderly(ss: seq<Sys>, steps: seq<Step>, i: nat)
    requires IsRun(ss, steps) && i <= |steps| && Init(ss[0]) && forall g :: NeverRepeated(ss, 0, i, g)
    requires forall k :: 0 <= k < i && steps[k].TickStep? ==> StopsArePrompt(ss, steps, k)
    requires forall k :: 0 <= k < i && steps[k].RestartStep? ==> forall id: ProcId :: !IsLive(ss[k].pool, id)
    ensures forall k :: 0 <= k < i ==> Orderly(ss[k], steps[k], ss[k + 1])
  {
    hide Next, WellFormed, StopsArePrompt;
    InitLedger(ss[0]);
    if i > 0 {
      var j := i - 1;
      forall g ensures NeverRepeated(ss, 0, j, g) {
        assert NeverRepeated(ss, 0, i, g);
      }
      PromptRunsAreOrderly(ss, steps, j);
      if steps[j].TickStep? {
        PromptStopsGuardStarts(ss, steps, j);
      } else {
        RunWellFormed(ss, steps, j);
        OtherStepsGuarded(ss[j], steps[j], ss[i]);
      }
    }
  }

  lemma OtherStepsGuarded(s: Sys, step: Step, s': Sys)
    requires Next(s, step, s') && WellFormed(s.pool) && !step.TickStep?
    ensures StartsGuarded(s.pool, s'.pool)
  {
    forall g ensures !StartedOn(s.pool, s'.pool, g) {
      StartsOnlyUncovered(s, step, s', g);
    }
  }

  /** Process ledger from timing alone: if every `stop` ends before its GPU could have been
      idle for a whole debounce, every live process is always the one on file for its GPU,
      and no GPU has two. */
  lemma OneLiveWorkerWhenStopsArePrompt(ss: seq<Sys>, steps: seq<Step>, i: nat)
    requires IsRun(ss, steps) && i <= |steps| && Init(ss[0]) && forall g :: NeverRepeated(ss, 0, i, g)
    requires forall k :: 0 <= k < i && steps[k].TickStep? ==> StopsArePrompt(ss, steps, k)
    requires forall k :: 0 <= k < i && steps[k].RestartStep? ==> forall id: ProcId :: !IsLive(ss[k].pool, id)
    ensures NoneForgotten(ss, steps, i) && Ledger(ss[i].pool) && OneLivePerGpu(ss[i].pool)
  {
    PromptRunsAreOrderly(ss, steps, i);
    OrderlyForgetsNone(ss, steps, i);
    OneLiveWorkerEver(ss, steps, i);
  }
}
