/** Two runs of the whole daemon that leave a live worker on no record. */
module OrphanRuns {
  import opened Wrappers
  import opened Configs
  import opened Leases
  import opened Workers
  import opened WorkerLaws
  import opened Control
  import opened Daemons
  import opened DaemonLaws

  /** GPU 0 is watched, the debounce is one second, pauses last 1 to 60 seconds. */
  const CONFIG := Config([0], 50, 50, 1, ["mem"], [], 1, 60, 10)
  const ROOT := Caller(0, "root")
  const IDLE := GpuSample(0, 0, 0, 0, None)
  const LEASE := Lease(0, "root", 0, 1.0, 31.0)

  /** Two ticks start a worker; root pauses its GPU; the `stop` begins to wait; the worker
      exits and its watcher cleans up; root resumes; a tick starts the next worker; and the
      `stop`, still waiting, finishes. */
  function StepAt(i: nat): Step {
    match i
    case 0 => TickStep(0.0, 0.0, [Got(IDLE)], [100])
    case 1 => TickStep(1.0, 1.0, [Got(IDLE)], [100])
    case 2 => PauseStep(ROOT, [0], 30.0, 1.0)
    case 3 => WorkerStep(OrphanStep(2))
    case 4 => WorkerStep(OrphanStep(3))
    case 5 => WorkerStep(OrphanStep(4))
    case 6 => ResumeStep(ROOT, [0], 1.0)
    case 7 => TickStep(2.0, 2.0, [Got(IDLE)], [101])
    case _ => WorkerStep(OrphanStep(6))
  }

  function StoreAt(i: nat): Store {
    if i < 3 then Store(map[], None)
    else if i < 7 then Store(map[0 := LEASE], Some([LEASE]))
    else Store(map[], Some([]))
  }

  /** The pools are those of the run of the pool alone. */
  function PoolAt(i: nat): Pool {
    OrphanPool(if i < 2 then 0 else if i < 7 then i - 1 else i - 2)
  }

  function CtlAt(i: nat): Ctl {
    var lastTick := if i == 0 then None else Some(ClockAt(i));
    var state :=
      if i == 0 then FreshState(0)
      else DeviceState(0, 0.0, Some(IDLE), if i == 1 then WaitingIdle else Spawned);
    Ctl(CONFIG, [0], map[0 := state], lastTick)
  }

  function ClockAt(i: nat): real {
    if i < 2 then 0.0 else if i < 8 then 1.0 else 2.0
  }

  function SysAt(i: nat): Sys {
    Sys(StoreAt(i), PoolAt(i), CtlAt(i), ClockAt(i), ClockAt(i))
  }

  lemma NothingToSweep(s: Store, now: real)
    requires s.leases == map[]
    ensures StoreStep(s, Sweep(now), s)
  {
    assert Unexpired(s.leases, now) == map[] == Expired(s.leases, now);
  }

  lemma TicksWork(i: nat)
    requires i == 0 || i == 1 || i == 7
    ensures Next(SysAt(i), StepAt(i), SysAt(i + 1))
  {
    var s, s', step := SysAt(i), SysAt(i + 1), StepAt(i);
    NothingToSweep(s.store, step.at);
    var t := TickInputOf(s, s'.store.leases, step.now, step.at, step.readings, step.pids);
    if i > 0 {
      OrphanStepsWork(if i == 1 then 0 else 5);
    }
    assert TickUpTo(t, Before(s), 0) == Before(s);
    var p := TickDevice(t, Before(s), 0);
    assert TickUpTo(t, Before(s), 1) == p;
    assert p.pool == s'.pool && p.states == s'.ctl.states;
  }

  lemma PauseWorks()
    ensures Next(SysAt(2), StepAt(2), SysAt(3))
  {
    var s := SysAt(2);
    GrantAllPointwise(map[], 0, "root", [0], 30.0, 1.0);
    assert GrantAll(map[], 0, "root", [0], 30.0, 1.0) == map[0 := LEASE];
    assert [0][..0] == [];
    assert ScheduleStops(s.pool, [0][..0]) == s.pool;
    OrphanStepsWork(1);
    assert ScheduleStops(s.pool, [0]) == OrphanPool(2);
  }

  lemma ResumeWorks()
    ensures Next(SysAt(6), StepAt(6), SysAt(7))
  {
    RootReleases();
    assert Lists([], map[]);
    hide ReleaseAll, Lists, OrphanPool;
  }

  lemma RootReleases()
    ensures ReleaseAll(map[0 := LEASE], 0, true, [0]) == ReleaseOutcome(map[], [0], [])
  {
    var m := map[0 := LEASE];
    assert [0][..0] == [];
    assert ReleaseAll(m, 0, true, [0][..0]) == ReleaseOutcome(m, [], []);
    assert m - {0} == map[];
  }

  lemma StepsWork(i: nat)
    requires i < 9
    ensures Next(SysAt(i), StepAt(i), SysAt(i + 1))
  {
    match i
    case 0 => TicksWork(0);
    case 1 => TicksWork(1);
    case 2 => PauseWorks();
    case 3 => OrphanStepsWork(2);
    case 4 => OrphanStepsWork(3);
    case 5 => OrphanStepsWork(4);
    case 6 => ResumeWorks();
    case 7 => TicksWork(7);
    case 8 => OrphanStepsWork(6);
  }

  lemma StartsFirst()
    ensures Init(SysAt(0))
  {
    assert CtlAt(0).states == SetWatched(Ctl(CONFIG, [], map[], None), [0]).states;
  }

  lemma EndsOrphaned()
    ensures !Ledger(SysAt(9).pool)
  {
    OrphanEnds();
  }

  lemma ForgetsNoneYet(i: nat)
    requires i < 8
    ensures ForgetsNone(SysAt(i), StepAt(i))
  {
    if 3 <= i <= 5 {
      OrphanStepsWork(i - 1);
    }
  }

  /** A `stop` that is slower than the debounce orphans the next worker of its GPU. */
  lemma SlowStopOrphans() returns (ss: seq<Sys>, steps: seq<Step>)
    ensures |steps| == 9 && IsRun(ss, steps) && Init(ss[0])
    ensures !Ledger(ss[9].pool) && forall k :: 0 <= k < 8 ==> ForgetsNone(ss[k], steps[k])
  {
    hide Next, Init, StepAt, PoolAt, StoreAt, CtlAt;
    StartsFirst();
    EndsOrphaned();
    ss := seq(10, i requires 0 <= i => SysAt(i));
    steps := seq(9, i requires 0 <= i => StepAt(i));
    forall i | 0 <= i < 9 ensures Next(ss[i], steps[i], ss[i + 1]) {
      StepsWork(i);
    }
    forall i | 0 <= i < 8 ensures ForgetsNone(ss[i], steps[i]) {
      ForgetsNoneYet(i);
    }
  }

  /** A daemon that comes up beside a worker of its predecessor has it on no record. */
  lemma RestartOrphans() returns (ss: seq<Sys>, steps: seq<Step>)
    ensures |steps| == 3 && IsRun(ss, steps) && Init(ss[0]) && steps[2].RestartStep?
    ensures Ledger(ss[2].pool) && !Ledger(ss[3].pool)
  {
    hide Next, SysAt, StepAt, Ledger, Init, Restarted;
    var last := RestartWorks();
    ss, steps := [SysAt(0), SysAt(1), SysAt(2), last], [StepAt(0), StepAt(1), RestartStep(CONFIG, [], 1.0, 1.0)];
    StartsFirst();
    TicksWork(0);
    TicksWork(1);
  }

  lemma RestartWorks() returns (s: Sys)
    ensures Next(SysAt(2), RestartStep(CONFIG, [], 1.0, 1.0), s)
    ensures Ledger(SysAt(2).pool) && !Ledger(s.pool)
  {
    s := Restarted(SysAt(2), CONFIG, [], 1.0, 1.0);
    assert IsLive(SysAt(2).pool, 0);
    RestartKeepsLedgerIff(SysAt(2), CONFIG, [], 1.0, 1.0);
  }
}
