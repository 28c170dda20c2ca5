/** The per-device policy: debounce of idle GPUs, leases, and the worker pool
    (src/ocp/controller.py). */
module Control {
  import opened Wrappers
  import opened Configs
  import opened Leases
  import opened Workers
  import opened WorkerLaws
  import opened History

  datatype GpuSample = GpuSample(gpu: int, utilPct: int, memUsedMb: int, memTotalMb: int, error: Option<string>)

  /** One call of the monitor: it raises or returns a sample. */
  datatype Reading = Raised(msg: string) | Got(sample: GpuSample)

  datatype Decision = Initial | MonitorError | Leased | Spawned | WaitingIdle | ActiveNoWorker | OccupiedByUs

  datatype DeviceState = DeviceState(gpu: int, idleStreak: real, lastSample: Option<GpuSample>, lastDecision: Decision)

  /** What the policy does to the worker pool for one device. */
  datatype Action = Leave | StartWorker | TearDown

  datatype Verdict = Verdict(state: DeviceState, action: Action)

  /** The error string of a sample counts when it is there and not empty. */
  predicate HasError(s: GpuSample) {
    s.error.Some? && s.error.value != ""
  }

  /** Share of the memory in use, in percent. */
  function MemUsedPct(s: GpuSample): real {
    if s.memTotalMb <= 0 then 0.0 else 100.0 * s.memUsedMb as real / s.memTotalMb as real
  }

  /** Both utilisation and memory share are below their thresholds. */
  predicate IsQuiet(cfg: Config, s: GpuSample) {
    s.utilPct < cfg.utilLow && MemUsedPct(s) < cfg.memLow as real
  }

  function FreshState(g: int): DeviceState {
    DeviceState(g, 0.0, None, Initial)
  }

  function StateOf(states: map<int, DeviceState>, g: int): DeviceState {
    if g in states then states[g] else FreshState(g)
  }

  /** The policy for one sampled device. */
  function Decide(cfg: Config, held: bool, tracked: bool, before: DeviceState, s: GpuSample, dt: real): Verdict {
    var st := before.(lastSample := Some(s));
    if HasError(s) then Verdict(st.(lastDecision := MonitorError), Leave)
    else if held then
      Verdict(st.(idleStreak := 0.0, lastDecision := Leased), if tracked then TearDown else Leave)
    else if tracked then Verdict(st.(lastDecision := OccupiedByUs), Leave)
    else
      var quiet := IsQuiet(cfg, s);
      var streak := if quiet then st.idleStreak + dt else 0.0;
      if streak >= cfg.idleDebounceS as real && cfg.workloads != [] then
        Verdict(st.(idleStreak := 0.0, lastDecision := Spawned), StartWorker)
      else
        Verdict(st.(idleStreak := streak, lastDecision := if quiet then WaitingIdle else ActiveNoWorker), Leave)
  }

  function Perform(p: Pool, action: Action, g: int, pid: int, now: real): Pool {
    match action
    case Leave => p
    case StartWorker => Spawn(p, g, pid, now)
    case TearDown => ScheduleStop(p, g)
  }

  function AutoEntry(now: real, cmd: string, g: int, ok: bool): Item {
    Entry(HistoryEntry(now, 0, "(auto)", cmd, [g], ok))
  }

  /** What a tick has changed so far. */
  datatype Progress = Progress(states: map<int, DeviceState>, pool: Pool, queue: seq<Item>)

  /** What a tick reads: configuration, leases after the sweep, wall time, time since
      the last tick, one reading per watched GPU, and the pids the OS would assign. */
  datatype TickInput = TickInput(cfg: Config, leases: LeaseMap, wall: real, dt: real,
                                 watched: seq<int>, readings: seq<Reading>, pids: seq<int>)

  predicate InputFits(t: TickInput) {
    |t.readings| == |t.watched| && |t.pids| == |t.watched|
  }

  /** One watched GPU of a tick. */
  function TickDevice(t: TickInput, p: Progress, i: nat): Progress
    requires InputFits(t) && i < |t.watched|
  {
    var g := t.watched[i];
    match t.readings[i]
    case Raised(_) => p.(queue := p.queue + [AutoEntry(t.wall, "nvml_error", g, false)])
    case Got(s) =>
      var v := Decide(t.cfg, g in t.leases, Tracked(p.pool, g), StateOf(p.states, g), s, t.dt);
      Progress(p.states[g := v.state],
               Perform(p.pool, v.action, g, t.pids[i], t.wall),
               if v.action.StartWorker? then p.queue + [AutoEntry(t.wall, "worker_spawned", g, true)] else p.queue)
  }

  function TickUpTo(t: TickInput, p: Progress, k: nat): Progress
    requires InputFits(t) && k <= |t.watched|
  {
    if k == 0 then p else TickDevice(t, TickUpTo(t, p, k - 1), k - 1)
  }

  function ExpiryEntries(expired: seq<Lease>, now: real): seq<Item> {
    seq(|expired|, i requires 0 <= i < |expired| => AutoEntry(now, "lease_expired", expired[i].gpu, true))
  }

  function SinceLast(lastTick: Option<real>, now: real): real {
    if lastTick.Some? then now - lastTick.value else 0.0
  }

  /** The controller's own fields. */
  datatype Ctl = Ctl(cfg: Config, watched: seq<int>, states: map<int, DeviceState>, lastTick: Option<real>)

  /** `set_watched`: known devices keep their state, dropped ones lose it. */
  function SetWatched(c: Ctl, gpus: seq<int>): Ctl {
    c.(watched := gpus, states := map g | g in gpus :: StateOf(c.states, g))
  }

  predicate AllWatched(watched: seq<int>, gpus: seq<int>) {
    forall g :: g in gpus ==> g in watched
  }

  datatype PauseError = UnknownGpus(gpus: seq<int>) | Held(conflicts: seq<Conflict>)

  /** Drops expired leases and records each; both the tick and the expiry loop do this. */
  method SweepLeases(leases: LeaseStore, history: HistoryStore, now: real) returns (expired: seq<Lease>)
    requires leases.Valid()
    modifies leases, history`queue
    ensures leases.Valid()
    ensures StoreStep(old(leases.View()), Sweep(now), leases.View())
    ensures Lists(expired, Expired(old(leases.leases), now))
    ensures history.queue == old(history.queue) + ExpiryEntries(expired, now)
  {
    expired := leases.SweepExpired(now);
    for i := 0 to |expired|
      modifies history`queue
      invariant history.queue == old(history.queue) + ExpiryEntries(expired, now)[..i]
    {
      history.Record(now, 0, "(auto)", "lease_expired", [expired[i].gpu], true);
    }
  }

  class Controller {
    var cfg: Config
    var watched: seq<int>
    var states: map<int, DeviceState>
    var lastTick: Option<real>
    const leases: LeaseStore
    const workers: WorkerManager
    const history: HistoryStore

    ghost predicate Valid() reads this, leases, workers {
      leases.Valid() && workers.Valid()
    }

    ghost function View(): Ctl reads this {
      Ctl(cfg, watched, states, lastTick)
    }

    constructor (cfg: Config, leases: LeaseStore, workers: WorkerManager, history: HistoryStore)
      ensures View() == Ctl(cfg, [], map[], None)
      ensures this.leases == leases && this.workers == workers && this.history == history
    {
      this.cfg, watched, states, lastTick := cfg, [], map[], None;
      this.leases, this.workers, this.history := leases, workers, history;
    }

    method WatchGpus(gpus: seq<int>)
      modifies this`watched, this`states
      ensures View() == SetWatched(old(View()), gpus)
    {
      watched := gpus;
      ghost var before := states;
      for i := 0 to |gpus|
        invariant watched == gpus
        invariant states.Keys == before.Keys + (set k | 0 <= k < i :: gpus[k])
        invariant forall g :: g in states ==> states[g] == StateOf(before, g)
      {
        if gpus[i] !in states {
          states := states[gpus[i] := FreshState(gpus[i])];
        }
      }
      var todo := states.Keys;
      while todo != {}
        invariant todo <= states.Keys && watched == gpus
        invariant forall g :: g in gpus ==> g in states
        invariant forall g :: g in states ==> states[g] == StateOf(before, g) && (g in gpus || g in todo)
      {
        var g := Pick(todo);
        if g !in gpus {
          states := states - {g};
        }
        todo := todo - {g};
      }
      assert forall g :: g in states <==> g in gpus;
      assert states == SetWatched(old(View()), gpus).states;
    }

    method ReplaceConfig(cfg: Config)
      modifies this`cfg
      ensures View() == old(View()).(cfg := cfg)
    {
      this.cfg := cfg;
    }

    /** One monitor tick. `readings` and `pids` are what the monitor and the OS answer;
        `expired` lists the leases swept. */
    method TickOnce(now: real, wall: real, readings: seq<Reading>, pids: seq<int>) returns (expired: seq<Lease>)
      requires Valid() && |readings| == |watched| && |pids| == |watched|
      modifies this, leases, workers, history`queue
      ensures Valid()
      ensures StoreStep(old(leases.View()), Sweep(wall), leases.View())
      ensures Lists(expired, Expired(old(leases.leases), wall))
      ensures cfg == old(cfg) && watched == old(watched) && lastTick == Some(now)
      ensures var t := TickInput(cfg, leases.leases, wall, SinceLast(old(lastTick), now), watched, readings, pids);
              var start := Progress(old(states), old(workers.View()), old(history.queue) + ExpiryEntries(expired, wall));
              Progress(states, workers.View(), history.queue) == TickUpTo(t, start, |watched|)
    {
      var dt := if lastTick.Some? then now - lastTick.value else 0.0;
      lastTick := Some(now);
      expired := SweepLeases(leases, history, wall);
      SampleAll(dt, wall, readings, pids);
    }

    /** The loop over the watched GPUs. */
    method SampleAll(dt: real, wall: real, readings: seq<Reading>, pids: seq<int>)
      requires workers.Valid() && |readings| == |watched| && |pids| == |watched|
      modifies this`states, workers, history`queue
      ensures workers.Valid()
      ensures var t := TickInput(cfg, leases.leases, wall, dt, watched, readings, pids);
              var start := Progress(old(states), old(workers.View()), old(history.queue));
              Progress(states, workers.View(), history.queue) == TickUpTo(t, start, |watched|)
    {
      hide Decide, Perform, WellFormed;
      ghost var t := TickInput(cfg, leases.leases, wall, dt, watched, readings, pids);
      ghost var start := Progress(states, workers.View(), history.queue);
      for i := 0 to |watched|
        invariant Progress(states, workers.View(), history.queue) == TickUpTo(t, start, i)
        invariant workers.Valid()
      {
        var g := watched[i];
        if readings[i].Raised? {
          history.Record(wall, 0, "(auto)", "nvml_error", [g], false);
        } else {
          Apply(g, readings[i].sample, dt, pids[i], wall);
        }
      }
    }

    method Apply(g: int, sample: GpuSample, dt: real, pid: int, now: real)
      requires workers.Valid()
      modifies this`states, workers, history`queue
      ensures workers.Valid()
      ensures var v := Decide(cfg, g in leases.leases, old(Tracked(workers.View(), g)), old(StateOf(states, g)), sample, dt);
              && states == old(states)[g := v.state]
              && workers.View() == Perform(old(workers.View()), v.action, g, pid, now)
              && history.queue == if v.action.StartWorker?
                                  then old(history.queue) + [AutoEntry(now, "worker_spawned", g, true)]
                                  else old(history.queue)
    {
      hide Spawn, ScheduleStop, WellFormed;
      var st := StateOf(states, g).(lastSample := Some(sample));
      if HasError(sample) {
        states := states[g := st.(lastDecision := MonitorError)];
        return;
      }
      var held := leases.Covers(g);
      var ourPid := workers.PidFor(g);
      if held {
        if ourPid.Some? {
          ScheduleStopTask(g);
        }
        states := states[g := st.(idleStreak := 0.0, lastDecision := Leased)];
        return;
      }
      var quiet := IsQuiet(cfg, sample);
      if ourPid.None? {
        st := st.(idleStreak := if quiet then st.idleStreak + dt else 0.0);
        if st.idleStreak >= cfg.idleDebounceS as real && cfg.workloads != [] {
          StartOn(g, pid, now);
          history.Record(now, 0, "(auto)", "worker_spawned", [g], true);
          st := st.(idleStreak := 0.0, lastDecision := Spawned);
        } else {
          st := st.(lastDecision := if quiet then WaitingIdle else ActiveNoWorker);
        }
      } else {
        st := st.(lastDecision := OccupiedByUs);
      }
      states := states[g := st];
    }

    method StartOn(g: int, pid: int, now: real)
      requires workers.Valid()
      modifies workers
      ensures workers.Valid() && workers.View() == Spawn(old(workers.View()), g, pid, now)
    {
      StepKeepsWellFormed(workers.View(), DoSpawn(g, pid, now));
      var _ := workers.SpawnWorker(g, pid, now);
    }

    method ScheduleStopTask(g: int)
      requires workers.Valid()
      modifies workers
      ensures workers.Valid() && workers.View() == ScheduleStop(old(workers.View()), g)
    {
      StepKeepsWellFormed(workers.View(), DoSchedule(g));
      workers.CreateStopTask(g);
    }

    /** Acquire or extend leases and tear down the workers of the GPUs covered. */
    method Pause(uid: int, user: string, gpus: seq<int>, duration: real, now: real)
      returns (r: Result<seq<Lease>, PauseError>)
      requires Valid()
      modifies leases, workers
      ensures Valid()
      ensures r.Ok? <==> AllWatched(watched, gpus) && Grantable(old(leases.leases), uid, gpus)
      ensures r.Ok? ==>
        && StoreStep(old(leases.View()), StoreOp.Acquire(uid, user, gpus, duration, now), leases.View())
        && workers.View() == ScheduleStops(old(workers.View()), gpus)
        && |r.value| == |gpus|
        && forall i :: 0 <= i < |gpus| ==> gpus[i] in leases.leases && r.value[i] == leases.leases[gpus[i]]
      ensures r.Err? ==> leases.View() == old(leases.View()) && workers.View() == old(workers.View())
      ensures r.Err? && AllWatched(watched, gpus) ==> r.error == Held(Conflicts(leases.leases, uid, gpus, now))
      ensures r.Err? && !AllWatched(watched, gpus) ==>
        r.error.UnknownGpus? && forall g :: g in r.error.gpus <==> g in gpus && g !in watched
    {
      hide StoreStep, ScheduleStop, WellFormed, GrantAll;
      var unknown: seq<int> := [];
      for i := 0 to |gpus|
        invariant forall k :: 0 <= k < |unknown| ==> unknown[k] in gpus && unknown[k] !in watched
        invariant forall k :: 0 <= k < i ==> gpus[k] in watched || gpus[k] in unknown
      {
        if gpus[i] !in watched {
          unknown := unknown + [gpus[i]];
        }
      }
      if unknown != [] {
        ghost var u := unknown[0];
        assert u in gpus && u !in watched;
        return Err(UnknownGpus(unknown));
      }
      var granted := leases.Acquire(uid, user, gpus, duration, now);
      if granted.Err? {
        return Err(Held(granted.error));
      }
      ghost var pool := workers.View();
      for i := 0 to |gpus|
        modifies workers
        invariant workers.Valid() && workers.View() == ScheduleStops(pool, gpus[..i])
      {
        assert gpus[..i + 1][..i] == gpus[..i];
        if workers.PidFor(gpus[i]).Some? {
          ScheduleStopTask(gpus[i]);
        }
      }
      assert gpus[..|gpus|] == gpus;
      r := Ok(granted.value);
    }

    method Resume(uid: int, gpus: seq<int>, isRoot: bool) returns (released: seq<int>, errors: seq<ReleaseError>)
      requires Valid()
      modifies leases
      ensures Valid()
      ensures StoreStep(old(leases.View()), StoreOp.Release(uid, gpus, isRoot), leases.View())
      ensures ReleaseOutcome(leases.leases, released, errors) == ReleaseAll(old(leases.leases), uid, isRoot, gpus)
    {
      released, errors := leases.Release(uid, gpus, isRoot);
    }
  }
}
