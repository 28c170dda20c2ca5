/** What a monitor tick does to the pool and to each device, and how the idle debounce
    counts time. */
module ControlLaws {
  import opened Wrappers
  import opened Configs
  import opened Workers
  import opened WorkerLaws
  import opened Control

  predicate Distinct(s: seq<int>) {
    forall i, j :: 0 <= i < j < |s| ==> s[i] != s[j]
  }

  /** The GPU is listed at most once. */
  predicate ListedOnce(watched: seq<int>, g: int) {
    forall i, j :: 0 <= i < j < |watched| ==> watched[i] != g || watched[j] != g
  }

  // --- the pool under a tick ------------------------------------------------

  /** The pool step one watched GPU of a tick causes, if any. */
  function DeviceStep(t: TickInput, p: Progress, i: nat): Option<PoolStep>
    requires InputFits(t) && i < |t.watched|
  {
    var g := t.watched[i];
    if t.readings[i].Raised? then None else
      match Decide(t.cfg, g in t.leases, Tracked(p.pool, g), StateOf(p.states, g), t.readings[i].sample, t.dt).action
      case Leave => None
      case StartWorker => Some(DoSpawn(g, t.pids[i], t.wall))
      case TearDown => Some(DoSchedule(g))
  }

  /** A tick spawns only on GPUs without lease and worker, and schedules a stop only for
      a leased GPU with a worker. */
  lemma DeviceStepSound(t: TickInput, p: Progress, i: nat)
    requires InputFits(t) && i < |t.watched|
    ensures var step := DeviceStep(t, p, i);
            && TickDevice(t, p, i).pool == (if step.Some? then Apply(p.pool, step.value) else p.pool)
            && (step.Some? && step.value.DoSpawn? ==> step.value.gpu !in t.leases && !Tracked(p.pool, step.value.gpu))
            && (step.Some? && step.value.DoSchedule? ==> step.value.gpu in t.leases && Tracked(p.pool, step.value.gpu))
  {
  }

  /** The stops that are waiting, which a tick leaves alone. */
  ghost predicate SameWaiting(p: Pool, q: Pool) {
    forall t :: (t in p.stops && p.stops[t].Waiting?) || (t in q.stops && q.stops[t].Waiting?) ==>
      t in p.stops && t in q.stops && p.stops[t] == q.stops[t]
  }

  /** Processes of `q` beyond those of `p` were started between the two. */
  ghost predicate StartedOn(p: Pool, q: Pool, g: int) {
    exists id :: |p.os| <= id < |q.os| && q.os[id].gpu == g
  }

  lemma {:induction false} TickKeepsWellFormed(t: TickInput, p: Progress, k: nat)
    requires InputFits(t) && k <= |t.watched| && WellFormed(p.pool)
    ensures WellFormed(TickUpTo(t, p, k).pool)
  {
    hide TickDevice;
    if k > 0 {
      var before := TickUpTo(t, p, k - 1);
      TickKeepsWellFormed(t, p, k - 1);
      DeviceStepSound(t, before, k - 1);
      if DeviceStep(t, before, k - 1).Some? {
        StepKeepsWellFormed(before.pool, DeviceStep(t, before, k - 1).value);
      }
    }
  }

  lemma {:induction false} TickKeepsWaiting(t: TickInput, p: Progress, k: nat)
    requires InputFits(t) && k <= |t.watched| && WellFormed(p.pool)
    ensures SameWaiting(p.pool, TickUpTo(t, p, k).pool)
  {
    hide TickDevice, WellFormed, SameWaiting, Apply;
    if k == 0 {
      WaitingTrans(p.pool, p.pool, p.pool);
    } else {
      var before, after := TickUpTo(t, p, k - 1), TickUpTo(t, p, k);
      TickKeepsWaiting(t, p, k - 1);
      TickKeepsWellFormed(t, p, k - 1);
      DeviceStepSound(t, before, k - 1);
      var step := DeviceStep(t, before, k - 1);
      if step.Some? {
        StepKeepsWaiting(before.pool, step.value);
        WaitingTrans(p.pool, before.pool, after.pool);
      }
    }
  }

  lemma StepKeepsWaiting(p: Pool, step: PoolStep)
    requires WellFormed(p) && (step.DoSpawn? || step.DoSchedule?)
    ensures SameWaiting(p, Apply(p, step))
  {
    assert TasksKnown(p);
    hide WellFormed;
  }

  lemma WaitingTrans(p: Pool, q: Pool, r: Pool)
    ensures SameWaiting(p, p)
    ensures SameWaiting(p, q) && SameWaiting(q, r) ==> SameWaiting(p, r)
  {
  }

  /** One device of a tick only adds to the processes. */
  lemma OsGrows(t: TickInput, p: Progress, i: nat)
    requires InputFits(t) && i < |t.watched|
    ensures p.pool.os <= TickDevice(t, p, i).pool.os
    ensures forall g :: StartedOn(p.pool, TickDevice(t, p, i).pool, g) ==> g == t.watched[i] && g !in t.leases
  {
  }

  lemma {:induction false} OsGrowsUpTo(t: TickInput, p: Progress, k: nat)
    requires InputFits(t) && k <= |t.watched|
    ensures p.pool.os <= TickUpTo(t, p, k).pool.os
  {
    hide TickDevice;
    if k > 0 {
      OsGrowsUpTo(t, p, k - 1);
      OsGrows(t, TickUpTo(t, p, k - 1), k - 1);
    }
  }

  /** A tick starts processes only on watched GPUs without a lease. */
  lemma {:induction false} TickStartsUncovered(t: TickInput, p: Progress, k: nat, g: int)
    requires InputFits(t) && k <= |t.watched|
    ensures StartedOn(p.pool, TickUpTo(t, p, k).pool, g) ==> g !in t.leases && g in t.watched
  {
    hide TickDevice;
    if k > 0 {
      var before := TickUpTo(t, p, k - 1);
      TickStartsUncovered(t, p, k - 1, g);
      OsGrowsUpTo(t, p, k - 1);
      OsGrows(t, before, k - 1);
      StartedSplits(p.pool, before.pool, TickDevice(t, before, k - 1).pool, g);
    }
  }

  /** A leased GPU whose worker is being stopped stays so under a tick. */
  lemma {:induction false} TickKeepsStopPending(t: TickInput, p: Progress, k: nat, g: int)
    requires InputFits(t) && k <= |t.watched| && WellFormed(p.pool)
    requires g in t.leases && StopPending(p.pool, g)
    ensures StopPending(TickUpTo(t, p, k).pool, g)
  {
    hide TickDevice;
    if k > 0 {
      var before := TickUpTo(t, p, k - 1);
      TickKeepsWellFormed(t, p, k - 1);
      TickKeepsStopPending(t, p, k - 1, g);
      DeviceStepSound(t, before, k - 1);
      if DeviceStep(t, before, k - 1).Some? {
        StepKeepsStopPending(before.pool, DeviceStep(t, before, k - 1).value, g);
      }
    }
  }

  /** No `stop` is waiting for a GPU on which a process was started. */
  ghost predicate StartsGuarded(p: Pool, q: Pool) {
    forall t :: t in p.stops && p.stops[t].Waiting? ==> !StartedOn(p, q, p.stops[t].gpu)
  }

  /** A tick never finishes a `stop`, so it keeps the ledger. */
  lemma {:induction false} TickKeepsLedger(t: TickInput, p: Progress, k: nat)
    requires InputFits(t) && k <= |t.watched| && WellFormed(p.pool) && Ledger(p.pool)
    ensures Ledger(TickUpTo(t, p, k).pool)
  {
    hide TickDevice, WellFormed, Ledger, Apply;
    if k > 0 {
      var before := TickUpTo(t, p, k - 1);
      TickKeepsWellFormed(t, p, k - 1);
      TickKeepsLedger(t, p, k - 1);
      DeviceStepSound(t, before, k - 1);
      if DeviceStep(t, before, k - 1).Some? {
        StepKeepsLedgerIff(before.pool, DeviceStep(t, before, k - 1).value);
      }
    }
  }

  lemma {:induction false} TickKeepsAim(t: TickInput, p: Progress, k: nat)
    requires InputFits(t) && k <= |t.watched| && WellFormed(p.pool) && StopsAim(p.pool)
    requires StartsGuarded(p.pool, TickUpTo(t, p, k).pool)
    ensures StopsAim(TickUpTo(t, p, k).pool)
  {
    hide TickDevice, WellFormed, StopsAim;
    if k > 0 {
      var before, after := TickUpTo(t, p, k - 1), TickUpTo(t, p, k);
      TickKeepsWellFormed(t, p, k - 1);
      TickKeepsWaiting(t, p, k - 1);
      OsGrowsUpTo(t, p, k - 1);
      OsGrows(t, before, k - 1);
      forall s | s in p.pool.stops && p.pool.stops[s].Waiting?
        ensures !StartedOn(p.pool, before.pool, p.pool.stops[s].gpu)
      {
        StartedSplits(p.pool, before.pool, after.pool, p.pool.stops[s].gpu);
      }
      TickKeepsAim(t, p, k - 1);
      GuardedDeviceKeepsAim(t, p, before, k - 1);
    }
  }

  lemma GuardedDeviceKeepsAim(t: TickInput, p: Progress, before: Progress, i: nat)
    requires InputFits(t) && i < |t.watched| && WellFormed(before.pool) && StopsAim(before.pool)
    requires SameWaiting(p.pool, before.pool) && p.pool.os <= before.pool.os
    requires StartsGuarded(p.pool, TickDevice(t, before, i).pool)
    ensures StopsAim(TickDevice(t, before, i).pool)
  {
    hide WellFormed, StopsAim;
    DeviceStepSound(t, before, i);
    var step := DeviceStep(t, before, i);
    var after := TickDevice(t, before, i);
    if step.Some? {
      if step.value.DoSpawn? && step.value.gpu !in before.pool.procs {
        assert after.pool.os[|before.pool.os|].gpu == step.value.gpu;
        assert StartedOn(p.pool, after.pool, step.value.gpu);
      }
      StepKeepsAim(before.pool, step.value);
    }
  }

  // --- one device under a tick ----------------------------------------------

  /** `q` is as `p` was for this GPU, and nothing was started on it. */
  ghost predicate Untouched(p: Progress, q: Progress, g: int) {
    && StateOf(q.states, g) == StateOf(p.states, g)
    && (g in q.states <==> g in p.states)
    && (Tracked(q.pool, g) <==> Tracked(p.pool, g))
    && !StartedOn(p.pool, q.pool, g)
  }

  /** `q` shows the verdict on this GPU, and a process was started on it exactly if the
      verdict says so. */
  ghost predicate Carried(p: Progress, v: Verdict, q: Progress, g: int) {
    && g in q.states && q.states[g] == v.state
    && (StartedOn(p.pool, q.pool, g) <==> v.action.StartWorker?)
    && (Tracked(q.pool, g) <==> Tracked(p.pool, g) || v.action.StartWorker?)
  }

  /** The verdict of a tick on the GPU at position `i`, from the state before the tick. */
  function VerdictAt(t: TickInput, p: Progress, i: nat): Verdict
    requires InputFits(t) && i < |t.watched| && t.readings[i].Got?
  {
    var g := t.watched[i];
    Decide(t.cfg, g in t.leases, Tracked(p.pool, g), StateOf(p.states, g), t.readings[i].sample, t.dt)
  }

  lemma OtherDeviceUntouched(t: TickInput, p: Progress, i: nat, g: int)
    requires InputFits(t) && i < |t.watched| && (t.watched[i] != g || t.readings[i].Raised?)
    ensures Untouched(p, TickDevice(t, p, i), g)
  {
  }

  lemma OwnDeviceCarried(t: TickInput, p: Progress, i: nat)
    requires InputFits(t) && i < |t.watched| && t.readings[i].Got? && WellFormed(p.pool)
    ensures Carried(p, VerdictAt(t, p, i), TickDevice(t, p, i), t.watched[i])
  {
    var q := TickDevice(t, p, i);
    if VerdictAt(t, p, i).action.StartWorker? {
      assert q.pool.os[|p.pool.os|].gpu == t.watched[i];
    }
  }

  lemma StartedSplits(p: Pool, q: Pool, r: Pool, g: int)
    requires p.os <= q.os <= r.os
    ensures StartedOn(p, r, g) <==> StartedOn(p, q, g) || StartedOn(q, r, g)
  {
    if StartedOn(p, q, g) {
      var id :| |p.os| <= id < |q.os| && q.os[id].gpu == g;
      assert r.os[id].gpu == g;
    }
    if StartedOn(q, r, g) {
      var id :| |q.os| <= id < |r.os| && r.os[id].gpu == g;
      assert StartedOn(p, r, g);
    }
    if StartedOn(p, r, g) {
      var id :| |p.os| <= id < |r.os| && r.os[id].gpu == g;
      if id < |q.os| {
        assert q.os[id].gpu == g;
      }
    }
  }

  lemma UntouchedTwice(p: Progress, q: Progress, r: Progress, g: int)
    requires p.pool.os <= q.pool.os <= r.pool.os
    requires Untouched(p, q, g) && Untouched(q, r, g)
    ensures Untouched(p, r, g)
  {
    StartedSplits(p.pool, q.pool, r.pool, g);
  }

  lemma CarriedThenUntouched(p: Progress, v: Verdict, q: Progress, r: Progress, g: int)
    requires p.pool.os <= q.pool.os <= r.pool.os
    requires Carried(p, v, q, g) && Untouched(q, r, g)
    ensures Carried(p, v, r, g)
  {
    StartedSplits(p.pool, q.pool, r.pool, g);
  }

  lemma UntouchedThenCarried(p: Progress, q: Progress, v: Verdict, r: Progress, g: int)
    requires p.pool.os <= q.pool.os <= r.pool.os
    requires Untouched(p, q, g) && Carried(q, v, r, g)
    ensures Carried(p, v, r, g)
  {
    StartedSplits(p.pool, q.pool, r.pool, g);
  }

  lemma {:induction false} TickMisses(t: TickInput, p: Progress, k: nat, g: int)
    requires InputFits(t) && k <= |t.watched|
    requires forall i :: 0 <= i < k ==> t.watched[i] != g || t.readings[i].Raised?
    ensures Untouched(p, TickUpTo(t, p, k), g)
  {
    hide TickDevice;
    if k > 0 {
      var before := TickUpTo(t, p, k - 1);
      TickMisses(t, p, k - 1, g);
      OsGrowsUpTo(t, p, k - 1);
      OsGrows(t, before, k - 1);
      OtherDeviceUntouched(t, before, k - 1, g);
      UntouchedTwice(p, before, TickDevice(t, before, k - 1), g);
    }
  }

  /** A tick treats a GPU that is listed once from the state the GPU had before the tick,
      whatever happens to the others. */
  lemma {:induction false} TickTreats(t: TickInput, p: Progress, k: nat, i: nat)
    requires InputFits(t) && i < k <= |t.watched| && WellFormed(p.pool)
    requires ListedOnce(t.watched, t.watched[i]) && t.readings[i].Got?
    ensures Carried(p, VerdictAt(t, p, i), TickUpTo(t, p, k), t.watched[i])
  {
    hide TickDevice;
    var g := t.watched[i];
    var before := TickUpTo(t, p, k - 1);
    OsGrowsUpTo(t, p, k - 1);
    OsGrows(t, before, k - 1);
    if i == k - 1 {
      TickMisses(t, p, k - 1, g);
      TickKeepsWellFormed(t, p, k - 1);
      OwnDeviceCarried(t, before, i);
      SameVerdict(t, p, before, i);
      UntouchedThenCarried(p, before, VerdictAt(t, p, i), TickDevice(t, before, i), g);
    } else {
      TickTreats(t, p, k - 1, i);
      OtherDeviceUntouched(t, before, k - 1, g);
      CarriedThenUntouched(p, VerdictAt(t, p, i), before, TickDevice(t, before, k - 1), g);
    }
  }

  lemma SameVerdict(t: TickInput, p: Progress, q: Progress, i: nat)
    requires InputFits(t) && i < |t.watched| && t.readings[i].Got?
    requires Untouched(p, q, t.watched[i])
    ensures VerdictAt(t, q, i) == VerdictAt(t, p, i)
  {
  }

  /** If the GPU has a worker on file, it has no idle time on its count. */
  predicate ZeroIfTracked(p: Progress, g: int) {
    Tracked(p.pool, g) ==> StateOf(p.states, g).idleStreak == 0.0
  }

  lemma DeviceKeepsZero(t: TickInput, p: Progress, i: nat, g: int)
    requires InputFits(t) && i < |t.watched| && ZeroIfTracked(p, g)
    ensures ZeroIfTracked(TickDevice(t, p, i), g)
  {
  }

  /** A tick keeps this, however often it lists the GPU. */
  lemma {:induction false} TickKeepsZero(t: TickInput, p: Progress, k: nat, g: int)
    requires InputFits(t) && k <= |t.watched| && ZeroIfTracked(p, g)
    ensures ZeroIfTracked(TickUpTo(t, p, k), g)
  {
    hide TickDevice, ZeroIfTracked;
    if k > 0 {
      TickKeepsZero(t, p, k - 1, g);
      DeviceKeepsZero(t, TickUpTo(t, p, k - 1), k - 1, g);
    }
  }

  // --- repeated indices -----------------------------------------------------

  /** The tick adds no more idle time to the count of `g` than has passed since the last. */
  ghost predicate CountsTimeOnce(t: TickInput, p: Progress, g: int)
    requires InputFits(t)
  {
    t.dt >= 0.0 && WellFormed(p.pool) && StateOf(p.states, g).idleStreak >= 0.0 ==>
      StateOf(TickUpTo(t, p, |t.watched|).states, g).idleStreak <= StateOf(p.states, g).idleStreak + t.dt
  }

  const IDLE_SAMPLE := GpuSample(0, 0, 0, 0, None)

  /** One second since the last tick; the monitor answers only at positions `a` and `b`. */
  function TwoReadings(watched: seq<int>, a: nat, b: nat): TickInput {
    TickInput(Config([], 1, 1, 10, ["mem"], [], 1, 1, 10), map[], 0.0, 1.0, watched,
              seq(|watched|, i requires 0 <= i < |watched| => if i == a || i == b then Got(IDLE_SAMPLE) else Raised("")),
              seq(|watched|, i requires 0 <= i < |watched| => 0))
  }

  lemma {:induction false} TwoReadingsCountTwice(watched: seq<int>, a: nat, b: nat, k: nat)
    requires a < b < |watched| && watched[a] == watched[b] && k <= |watched|
    ensures var t := TwoReadings(watched, a, b);
            var p := Progress(map[], Pool(map[], map[], map[], [], map[], map[], 0), []);
            && InputFits(t)
            && TickUpTo(t, p, k).pool == p.pool
            && StateOf(TickUpTo(t, p, k).states, watched[a]).idleStreak
               == (if k > a then 1.0 else 0.0) + (if k > b then 1.0 else 0.0)
  {
    if k > 0 {
      TwoReadingsCountTwice(watched, a, b, k - 1);
    }
  }

  lemma ListedOnceCountsOnce(t: TickInput, p: Progress, g: int)
    requires InputFits(t) && ListedOnce(t.watched, g)
    ensures CountsTimeOnce(t, p, g)
  {
    if t.dt >= 0.0 && WellFormed(p.pool) && StateOf(p.states, g).idleStreak >= 0.0 {
      if i :| 0 <= i < |t.watched| && t.watched[i] == g && t.readings[i].Got? {
        TickTreats(t, p, |t.watched|, i);
      } else {
        TickMisses(t, p, |t.watched|, g);
      }
    }
  }

  /** Idle time is counted at most once exactly for the GPUs that are listed at most once;
      configuration validation does not see to that. */
  lemma TimeCountedOnceIff(watched: seq<int>, g: int)
    ensures ListedOnce(watched, g) <==>
            forall t: TickInput, p: Progress :: t.watched == watched && InputFits(t) ==> CountsTimeOnce(t, p, g)
  {
    if ListedOnce(watched, g) {
      forall t: TickInput, p: Progress | t.watched == watched && InputFits(t) ensures CountsTimeOnce(t, p, g) {
        ListedOnceCountsOnce(t, p, g);
      }
    } else {
      var a, b :| 0 <= a < b < |watched| && watched[a] == g && watched[b] == g;
      var t := TwoReadings(watched, a, b);
      var p := Progress(map[], Pool(map[], map[], map[], [], map[], map[], 0), []);
      TwoReadingsCountTwice(watched, a, b, |watched|);
      assert !CountsTimeOnce(t, p, g);
    }
  }
}
