/** When the daemon starts a worker: never before a full debounce of quiet time, and at
    the first tick at which that time has been reached. */
module DebounceLaws {
  import opened Wrappers
  import opened Configs
  import opened Leases
  import opened Workers
  import opened WorkerLaws
  import opened Control
  import opened ControlLaws
  import opened Daemons
  import opened DaemonLaws

  function Streak(s: Sys, g: int): real {
    StateOf(s.ctl.states, g).idleStreak
  }

  /** `step` samples `g` at position `i` of the watched list, without error. */
  predicate Samples(s: Sys, step: Step, g: int, i: nat) {
    && step.TickStep? && i < |s.ctl.watched| && i < |step.readings|
    && s.ctl.watched[i] == g && step.readings[i].Got? && !HasError(step.readings[i].sample)
  }

  /** The verdict on the sampled GPU, from what the daemon looked like before the tick. */
  function VerdictOf(s: Sys, step: Step, s': Sys, g: int, i: nat): Verdict
    requires step.TickStep? && i < |step.readings| && step.readings[i].Got?
  {
    Decide(s.ctl.cfg, g in s'.store.leases, Tracked(s.pool, g), StateOf(s.ctl.states, g),
           step.readings[i].sample, SinceLast(s.ctl.lastTick, step.now))
  }

  /** A tick carries out the verdict on each GPU it samples, once. */
  lemma TickCarriesVerdict(s: Sys, step: Step, s': Sys, g: int, i: nat)
    requires Next(s, step, s') && WellFormed(s.pool) && ListedOnce(s.ctl.watched, g)
    requires step.TickStep? && i < |s.ctl.watched| && s.ctl.watched[i] == g && step.readings[i].Got?
    ensures var v := VerdictOf(s, step, s', g, i);
            && g in s'.ctl.states && s'.ctl.states[g] == v.state
            && (StartedOn(s.pool, s'.pool, g) <==> v.action.StartWorker?)
            && (Tracked(s'.pool, g) <==> Tracked(s.pool, g) || v.action.StartWorker?)
    ensures s.mono <= step.now == s'.mono && s'.ctl.lastTick == Some(step.now) && s'.ctl.cfg == s.ctl.cfg
  {
    var t := TickInputOf(s, s'.store.leases, step.now, step.at, step.readings, step.pids);
    TickTreats(t, Before(s), |t.watched|, i);
  }

  /** A GPU a tick does not sample, or whose monitor raises, is left alone. */
  lemma TickLeavesOthers(s: Sys, step: Step, s': Sys, g: int)
    requires Next(s, step, s') && WellFormed(s.pool) && step.TickStep?
    requires forall i :: 0 <= i < |s.ctl.watched| ==> s.ctl.watched[i] != g || step.readings[i].Raised?
    ensures StateOf(s'.ctl.states, g) == StateOf(s.ctl.states, g)
    ensures !StartedOn(s.pool, s'.pool, g) && (Tracked(s'.pool, g) <==> Tracked(s.pool, g))
    ensures s.mono <= step.now == s'.mono && s'.ctl.lastTick == Some(step.now)
  {
    var t := TickInputOf(s, s'.store.leases, step.now, step.at, step.readings, step.pids);
    TickMisses(t, Before(s), |t.watched|, g);
  }

  /** Where `g` is sampled by a tick, if it is. */
  ghost function PositionOf(s: Sys, step: Step, g: int): (r: Option<nat>)
    requires step.TickStep? && |step.readings| == |s.ctl.watched|
    ensures r.Some? ==> r.value < |s.ctl.watched| && s.ctl.watched[r.value] == g && step.readings[r.value].Got?
    ensures r.None? ==> forall i :: 0 <= i < |s.ctl.watched| ==> s.ctl.watched[i] != g || step.readings[i].Raised?
  {
    if i: nat :| i < |s.ctl.watched| && s.ctl.watched[i] == g && step.readings[i].Got? then Some(i) else None
  }

  // --- soundness ------------------------------------------------------------

  /** A GPU with a worker on file has been through a tick and has no idle time on its count. */
  predicate OccupiedMeansZero(s: Sys, g: int) {
    Tracked(s.pool, g) ==> Streak(s, g) == 0.0 && s.ctl.lastTick.Some? && s.ctl.lastTick.value <= s.mono
  }

  /** The idle count of `g` is at most the time from `since` to the last tick. */
  ghost predicate CountedSince(s: Sys, g: int, since: real) {
    && since <= s.mono
    && (if s.ctl.lastTick.None? then Streak(s, g) == 0.0
        else since <= s.ctl.lastTick.value <= s.mono && Streak(s, g) <= s.ctl.lastTick.value - since)
  }

  /** Steps other than ticks never add idle time and never put a worker on file. */
  lemma OtherStepsKeepCounts(s: Sys, step: Step, s': Sys, g: int)
    requires Next(s, step, s') && WellFormed(s.pool) && !step.TickStep?
    ensures Tracked(s'.pool, g) ==> Tracked(s.pool, g) && !step.RestartStep?
    ensures Streak(s', g) == Streak(s, g) || (Streak(s', g) == 0.0 && (step.ReloadStep? || step.RestartStep?))
    ensures !step.RestartStep? && (step.ReloadStep? ==> g in s'.ctl.watched) ==> Streak(s', g) == Streak(s, g)
    ensures s'.ctl.lastTick == s.ctl.lastTick || (s'.ctl.lastTick.None? && step.RestartStep? && Streak(s', g) == 0.0)
  {
    hide ScheduleStops, GrantAll, ReleaseAll, Loaded, WellFormed;
    match step
    case PauseStep(_, gpus, _, _) => ScheduleStopsReaches(s.pool, gpus, g);
    case StopAllStep(gpus) => ScheduleStopsReaches(s.pool, gpus, g);
    case _ =>
  }

  lemma NextOccupiedMeansZero(s: Sys, step: Step, s': Sys, g: int)
    requires Next(s, step, s') && WellFormed(s.pool) && OccupiedMeansZero(s, g)
    ensures OccupiedMeansZero(s', g)
  {
    if step.TickStep? {
      var t := TickInputOf(s, s'.store.leases, step.now, step.at, step.readings, step.pids);
      TickKeepsZero(t, Before(s), |t.watched|, g);
    } else {
      hide Next;
      StepClocks(s, step, s');
      OtherStepsKeepCounts(s, step, s', g);
    }
  }

  lemma TickCountedSince(s: Sys, step: Step, s': Sys, g: int, since: real)
    requires Next(s, step, s') && WellFormed(s.pool) && ListedOnce(s.ctl.watched, g) && CountedSince(s, g, since)
    requires step.TickStep?
    ensures CountedSince(s', g, since)
    ensures StartedOn(s.pool, s'.pool, g) ==> step.now - since >= s.ctl.cfg.idleDebounceS as real
  {
    var at := PositionOf(s, step, g);
    hide Next, WellFormed, ListedOnce, StartedOn, IsQuiet, Tracked;
    if at.Some? {
      TickCarriesVerdict(s, step, s', g, at.value);
    } else {
      TickLeavesOthers(s, step, s', g);
    }
  }

  lemma NextCountedSince(s: Sys, step: Step, s': Sys, g: int, since: real)
    requires Next(s, step, s') && WellFormed(s.pool) && ListedOnce(s.ctl.watched, g) && CountedSince(s, g, since)
    ensures CountedSince(s', g, since)
  {
    hide Next, WellFormed;
    if step.TickStep? {
      TickCountedSince(s, step, s', g, since);
    } else {
      StepClocks(s, step, s');
      OtherStepsKeepCounts(s, step, s', g);
    }
  }

  /** The tick finds `g` leased, occupied or busy, or starts a worker on it. */
  ghost predicate FoundInUse(s: Sys, step: Step, s': Sys, g: int, i: nat) {
    && Samples(s, step, g, i)
    && (g in s'.store.leases || Tracked(s.pool, g) || !IsQuiet(s.ctl.cfg, step.readings[i].sample)
        || StartedOn(s.pool, s'.pool, g))
  }

  lemma InUseRestartsCount(s: Sys, step: Step, s': Sys, g: int, i: nat)
    requires Next(s, step, s') && WellFormed(s.pool) && ListedOnce(s.ctl.watched, g) && OccupiedMeansZero(s, g)
    requires FoundInUse(s, step, s', g, i)
    ensures Streak(s', g) <= 0.0 && CountedSince(s', g, step.now)
  {
    TickCarriesVerdict(s, step, s', g, i);
  }

  /** None of the states from `i` to `j` lists `g` twice. */
  ghost predicate NeverRepeated(ss: seq<Sys>, i: nat, j: nat, g: int)
    requires j < |ss|
  {
    forall k :: i <= k <= j ==> ListedOnce(ss[k].ctl.watched, g)
  }

  /** In every run a GPU with a worker on file has no idle time on its count. */
  lemma {:induction false} RunOccupiedMeansZero(ss: seq<Sys>, steps: seq<Step>, i: nat, g: int)
    requires IsRun(ss, steps) && i <= |steps| && Init(ss[0])
    ensures WellFormed(ss[i].pool) && OccupiedMeansZero(ss[i], g)
  {
    if i > 0 {
      RunOccupiedMeansZero(ss, steps, i - 1, g);
      NextWellFormed(ss[i - 1], steps[i - 1], ss[i]);
      NextOccupiedMeansZero(ss[i - 1], steps[i - 1], ss[i], g);
    }
  }

  lemma {:induction false} RunCountedSince(ss: seq<Sys>, steps: seq<Step>, i: nat, j: nat, g: int, since: real)
    requires IsRun(ss, steps) && i <= j <= |steps| && Init(ss[0]) && NeverRepeated(ss, i, j, g)
    requires CountedSince(ss[i], g, since)
    ensures CountedSince(ss[j], g, since)
  {
    hide Next, WellFormed, CountedSince;
    if i < j {
      RunCountedSince(ss, steps, i, j - 1, g, since);
      RunOccupiedMeansZero(ss, steps, j - 1, g);
      NextCountedSince(ss[j - 1], steps[j - 1], ss[j], g, since);
    }
  }

  /** Debounce soundness: a worker is started on `g` only when at least the debounce has
      passed on the monotonic clock since every earlier tick that found `g` busy, leased,
      occupied or started a worker on it, in this or an earlier life of the daemon. */
  lemma DebounceSound(ss: seq<Sys>, steps: seq<Step>, i: nat, j: nat, g: int, at: nat)
    requires IsRun(ss, steps) && i < j < |steps| && Init(ss[0]) && NeverRepeated(ss, i, j, g)
    requires FoundInUse(ss[i], steps[i], ss[i + 1], g, at)
    requires StartedOn(ss[j].pool, ss[j + 1].pool, g)
    ensures steps[j].TickStep? && steps[j].now - steps[i].now >= ss[j].ctl.cfg.idleDebounceS as real
  {
    hide Next, WellFormed;
    RunOccupiedMeansZero(ss, steps, i, g);
    RunOccupiedMeansZero(ss, steps, j, g);
    InUseRestartsCount(ss[i], steps[i], ss[i + 1], g, at);
    RunCountedSince(ss, steps, i + 1, j, g, steps[i].now);
    StartsOnlyUncovered(ss[j], steps[j], ss[j + 1], g);
    TickCountedSince(ss[j], steps[j], ss[j + 1], g, steps[i].now);
  }

  /** A worker that is gone, by crash or by `stop`, is replaced only after a full debounce:
      the next one is started no earlier than that after the last tick before a moment at
      which the old one was on file. */
  lemma GoneMeansFullDebounce(ss: seq<Sys>, steps: seq<Step>, i: nat, j: nat, g: int)
    requires IsRun(ss, steps) && i <= j < |steps| && Init(ss[0]) && NeverRepeated(ss, i, j, g)
    requires Tracked(ss[i].pool, g) && StartedOn(ss[j].pool, ss[j + 1].pool, g)
    ensures ss[i].ctl.lastTick.Some? && steps[j].TickStep?
    ensures steps[j].now - ss[i].ctl.lastTick.value >= ss[j].ctl.cfg.idleDebounceS as real
  {
    hide Next, WellFormed;
    RunOccupiedMeansZero(ss, steps, i, g);
    RunOccupiedMeansZero(ss, steps, j, g);
    StartsOnlyUncovered(ss[j], steps[j], ss[j + 1], g);
    var since := ss[i].ctl.lastTick.value;
    assert CountedSince(ss[i], g, since);
    RunCountedSince(ss, steps, i, j, g, since);
    TickCountedSince(ss[j], steps[j], ss[j + 1], g, since);
  }

  // --- completeness ---------------------------------------------------------

  /** A tick that samples `g` quiet, unleased and without worker. */
  ghost predicate FoundIdle(s: Sys, step: Step, s': Sys, g: int, i: nat) {
    && Samples(s, step, g, i)
    && g !in s'.store.leases && !Tracked(s.pool, g)
    && IsQuiet(s.ctl.cfg, step.readings[i].sample)
  }

  ghost predicate TickFindsIdle(s: Sys, step: Step, s': Sys, g: int) {
    exists at: nat :: FoundIdle(s, step, s', g, at)
  }

  /** A tick whose monitor raises or reports an error for `g`. */
  predicate TickIsBlind(s: Sys, step: Step, g: int)
    requires step.TickStep?
  {
    forall i :: 0 <= i < |s.ctl.watched| && i < |step.readings| && s.ctl.watched[i] == g ==>
      step.readings[i].Raised? || HasError(step.readings[i].sample)
  }

  /** Idle time a step adds to the count of `g`: what has passed since the last tick, if
      this one finds `g` idle. */
  ghost function TickTime(s: Sys, step: Step, s': Sys, g: int): real {
    if step.TickStep? && TickFindsIdle(s, step, s', g) then SinceLast(s.ctl.lastTick, step.now) else 0.0
  }

  ghost function QuietTime(ss: seq<Sys>, steps: seq<Step>, i: nat, j: nat, g: int): real
    requires |ss| == |steps| + 1 && i <= j <= |steps|
  {
    if i == j then 0.0 else QuietTime(ss, steps, i, j - 1, g) + TickTime(ss[j - 1], steps[j - 1], ss[j], g)
  }

  /** A tick that finds `g` idle or cannot see it, or a step that is no tick, keeps the
      daemon, and keeps `g` watched if it swaps the configuration. */
  ghost predicate Undisturbed(s: Sys, step: Step, s': Sys, g: int) {
    && !step.RestartStep? && (step.ReloadStep? ==> g in s'.ctl.watched)
    && (step.TickStep? ==> TickFindsIdle(s, step, s', g) || TickIsBlind(s, step, g))
  }

  ghost predicate QuietStretch(ss: seq<Sys>, steps: seq<Step>, i: nat, j: nat, g: int)
    requires |ss| == |steps| + 1 && i <= j <= |steps|
  {
    forall k :: i <= k < j ==> Undisturbed(ss[k], steps[k], ss[k + 1], g)
  }

  /** The debounce is reached at `time`, and there is something to run. */
  predicate Due(cfg: Config, time: real) {
    time >= cfg.idleDebounceS as real && cfg.workloads != []
  }

  lemma IdleTickCounts(s: Sys, step: Step, s': Sys, g: int)
    requires Next(s, step, s') && WellFormed(s.pool) && ListedOnce(s.ctl.watched, g)
    requires step.TickStep? && TickFindsIdle(s, step, s', g)
    ensures StartedOn(s.pool, s'.pool, g) <==> Due(s.ctl.cfg, Streak(s, g) + TickTime(s, step, s', g))
    ensures !StartedOn(s.pool, s'.pool, g) ==> Streak(s', g) == Streak(s, g) + TickTime(s, step, s', g)
    ensures s'.ctl.cfg == s.ctl.cfg && s'.ctl.lastTick == Some(step.now)
  {
    var at: nat :| FoundIdle(s, step, s', g, at);
    TickCarriesVerdict(s, step, s', g, at);
  }

  /** An error neither grows nor resets the count. */
  lemma BlindTickKeepsCount(s: Sys, step: Step, s': Sys, g: int)
    requires Next(s, step, s') && WellFormed(s.pool) && ListedOnce(s.ctl.watched, g)
    requires step.TickStep? && TickIsBlind(s, step, g)
    ensures !StartedOn(s.pool, s'.pool, g) && Streak(s', g) == Streak(s, g) && TickTime(s, step, s', g) == 0.0
    ensures s'.ctl.cfg == s.ctl.cfg && s'.ctl.lastTick == Some(step.now)
  {
    var at := PositionOf(s, step, g);
    if at.Some? {
      TickCarriesVerdict(s, step, s', g, at.value);
    } else {
      TickLeavesOthers(s, step, s', g);
    }
  }

  lemma OtherStepStartsNothing(s: Sys, step: Step, s': Sys, g: int)
    requires Next(s, step, s') && WellFormed(s.pool)
    requires !step.TickStep? && !step.RestartStep? && (step.ReloadStep? ==> g in s'.ctl.watched)
    ensures !StartedOn(s.pool, s'.pool, g)
    ensures Streak(s', g) == Streak(s, g) && s'.ctl.lastTick == s.ctl.lastTick
  {
    OtherStepsKeepCounts(s, step, s', g);
    StartsOnlyUncovered(s, step, s', g);
  }

  lemma UndisturbedCounts(s: Sys, step: Step, s': Sys, g: int)
    requires Next(s, step, s') && WellFormed(s.pool) && ListedOnce(s.ctl.watched, g)
    requires Undisturbed(s, step, s', g)
    ensures StartedOn(s.pool, s'.pool, g) ==>
              step.TickStep? && TickFindsIdle(s, step, s', g) && Due(s.ctl.cfg, Streak(s, g) + TickTime(s, step, s', g))
    ensures !StartedOn(s.pool, s'.pool, g) ==> Streak(s', g) == Streak(s, g) + TickTime(s, step, s', g)
  {
    hide Next, WellFormed, TickFindsIdle, TickIsBlind;
    if !step.TickStep? {
      OtherStepStartsNothing(s, step, s', g);
    } else if TickIsBlind(s, step, g) {
      BlindTickKeepsCount(s, step, s', g);
    } else {
      IdleTickCounts(s, step, s', g);
    }
  }

  /** At no tick of the stretch that finds `g` idle does the idle time, summed up, reach
      the debounce then in force. */
  ghost predicate NotYetDue(ss: seq<Sys>, steps: seq<Step>, i: nat, j: nat, g: int)
    requires |ss| == |steps| + 1 && i <= j <= |steps|
  {
    forall k :: i <= k < j && steps[k].TickStep? && TickFindsIdle(ss[k], steps[k], ss[k + 1], g) ==>
      !Due(ss[k].ctl.cfg, Streak(ss[i], g) + QuietTime(ss, steps, i, k + 1, g))
  }

  /** Through a quiet stretch in which the debounce is not reached no worker is started,
      and the count grows by exactly the time of the ticks that found `g` idle. */
  lemma {:induction false} StretchCounts(ss: seq<Sys>, steps: seq<Step>, i: nat, j: nat, g: int)
    requires IsRun(ss, steps) && i <= j <= |steps| && WellFormed(ss[0].pool) && NeverRepeated(ss, i, j, g)
    requires QuietStretch(ss, steps, i, j, g)
    requires NotYetDue(ss, steps, i, j, g)
    ensures Streak(ss[j], g) == Streak(ss[i], g) + QuietTime(ss, steps, i, j, g)
    ensures forall k :: i <= k < j ==> !StartedOn(ss[k].pool, ss[k + 1].pool, g)
  {
    hide Next, WellFormed, Undisturbed;
    if i < j {
      StretchCounts(ss, steps, i, j - 1, g);
      RunWellFormed(ss, steps, j - 1);
      UndisturbedCounts(ss[j - 1], steps[j - 1], ss[j], g);
    }
  }

  /** Debounce completeness: through a stretch of ticks that find `g` idle, or cannot see
      it, the worker is started at the first tick that finds it idle with the debounce then
      in force reached by the idle time summed up, and at no earlier one; configuration
      swaps that keep `g` watched make no difference. */
  lemma DebounceComplete(ss: seq<Sys>, steps: seq<Step>, i: nat, j: nat, g: int)
    requires IsRun(ss, steps) && i <= j < |steps| && WellFormed(ss[0].pool) && NeverRepeated(ss, i, j, g)
    requires QuietStretch(ss, steps, i, j, g)
    requires steps[j].TickStep? && TickFindsIdle(ss[j], steps[j], ss[j + 1], g)
    requires NotYetDue(ss, steps, i, j, g)
    ensures StartedOn(ss[j].pool, ss[j + 1].pool, g) <==>
            Due(ss[j].ctl.cfg, Streak(ss[i], g) + QuietTime(ss, steps, i, j + 1, g))
    ensures forall k :: i <= k < j ==> !StartedOn(ss[k].pool, ss[k + 1].pool, g)
  {
    hide Next, WellFormed, Undisturbed;
    StretchCounts(ss, steps, i, j, g);
    RunWellFormed(ss, steps, j);
    IdleTickCounts(ss[j], steps[j], ss[j + 1], g);
  }

  /** If every tick of the stretch finds `g` idle, the idle time is the time from the last
      tick before it to its own last tick. */
  lemma {:induction false} QuietTimeIsElapsed(ss: seq<Sys>, steps: seq<Step>, i: nat, j: nat, g: int)
    requires IsRun(ss, steps) && i <= j <= |steps| && WellFormed(ss[0].pool) && NeverRepeated(ss, i, j, g)
    requires QuietStretch(ss, steps, i, j, g) && ss[i].ctl.lastTick.Some?
    requires forall k :: i <= k < j && steps[k].TickStep? ==> TickFindsIdle(ss[k], steps[k], ss[k + 1], g)
    ensures ss[j].ctl.lastTick.Some?
    ensures QuietTime(ss, steps, i, j, g) == ss[j].ctl.lastTick.value - ss[i].ctl.lastTick.value
  {
    hide Next, WellFormed;
    if i < j {
      QuietTimeIsElapsed(ss, steps, i, j - 1, g);
      RunWellFormed(ss, steps, j - 1);
      if steps[j - 1].TickStep? {
        IdleTickCounts(ss[j - 1], steps[j - 1], ss[j], g);
      } else {
        OtherStepStartsNothing(ss[j - 1], steps[j - 1], ss[j], g);
      }
    }
  }

  // --- status ---------------------------------------------------------------

  /** The decision shown for a sampled GPU tells what the tick found and did. */
  lemma DecisionTells(s: Sys, step: Step, s': Sys, g: int, i: nat)
    requires Next(s, step, s') && WellFormed(s.pool) && ListedOnce(s.ctl.watched, g)
    requires Samples(s, step, g, i)
    ensures g in s'.ctl.states && s'.ctl.states[g].lastSample == Some(step.readings[i].sample)
    ensures var d := s'.ctl.states[g].lastDecision;
            && (d == Leased <==> g in s'.store.leases)
            && (d == OccupiedByUs <==> g !in s'.store.leases && Tracked(s.pool, g))
            && (d == Spawned <==> StartedOn(s.pool, s'.pool, g))
            && (d == WaitingIdle ==> FoundIdle(s, step, s', g, i))
            && (d == ActiveNoWorker ==> !Tracked(s'.pool, g) && !IsQuiet(s.ctl.cfg, step.readings[i].sample))
            && d != MonitorError && d != Initial
  {
    TickCarriesVerdict(s, step, s', g, i);
  }
}
