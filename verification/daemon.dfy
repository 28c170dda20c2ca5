/** The daemon as a transition system (src/ocp/daemon.py). The lock is never held across
    a suspension, so each handler, tick and sweep is one step. */
module Daemons {
  import opened Wrappers
  import opened Configs
  import opened Leases
  import opened Workers
  import opened WorkerLaws
  import opened Control
  import opened ControlLaws

  datatype Caller = Caller(uid: int, user: string)

  predicate IsRoot(c: Caller) { c.uid == 0 }

  predicate IsWhitelisted(c: Caller, whitelist: seq<Member>) {
    IsRoot(c) || Uid(c.uid) in whitelist || Name(c.user) in whitelist
  }

  datatype Refusal =
    | NotWhitelisted
    | NotRoot
    | BadGpuSet
    | BadDuration
    | PauseTooShort
    | PauseTooLong
    | PauseHeld(conflicts: seq<Conflict>)
    | NothingReleased(errors: seq<ReleaseError>)

  /** The checks before the lease store is asked, in the order they are made. */
  function PauseRefusal(cfg: Config, watched: seq<int>, c: Caller, gpus: seq<int>, duration: real): Option<Refusal> {
    if !IsWhitelisted(c, cfg.whitelist) then Some(NotWhitelisted)
    else if gpus == [] || !Distinct(gpus) || !AllWatched(watched, gpus) then Some(BadGpuSet)
    else if duration <= 0.0 then Some(BadDuration)
    else if duration.Floor < cfg.minDurationS then Some(PauseTooShort)
    else if duration.Floor > cfg.maxDurationS then Some(PauseTooLong)
    else None
  }

  function ResumeRefusal(cfg: Config, c: Caller, gpus: seq<int>): Option<Refusal> {
    if !IsWhitelisted(c, cfg.whitelist) then Some(NotWhitelisted)
    else if gpus == [] || !Distinct(gpus) then Some(BadGpuSet)
    else None
  }

  /** `_resolve_watched`: the configured indices, or whatever the monitor sees. */
  function ResolveWatched(cfg: Config, visible: seq<int>): seq<int> {
    if cfg.indices != [] then cfg.indices else visible
  }

  /** The whole daemon; `wall` and `mono` are the latest readings of the two clocks. */
  datatype Sys = Sys(store: Store, pool: Pool, ctl: Ctl, wall: real, mono: real)

  datatype Step =
    | TickStep(now: real, at: real, readings: seq<Reading>, pids: seq<int>)
    | PauseStep(caller: Caller, gpus: seq<int>, duration: real, at: real)
    | ResumeStep(caller: Caller, gpus: seq<int>, at: real)
    | SweepStep(at: real)
    | ReloadStep(cfg: Config, visible: seq<int>)
    | WorkerStep(step: PoolStep)
    | StopAllStep(gpus: seq<int>)
    | PersistStep
    | RestartStep(cfg: Config, visible: seq<int>, now: real, at: real)

  function TickInputOf(s: Sys, leases: LeaseMap, now: real, at: real, readings: seq<Reading>, pids: seq<int>): TickInput {
    TickInput(s.ctl.cfg, leases, at, SinceLast(s.ctl.lastTick, now), s.ctl.watched, readings, pids)
  }

  function Before(s: Sys): Progress {
    Progress(s.ctl.states, s.pool, [])
  }

  predicate PauseAccepted(s: Sys, c: Caller, gpus: seq<int>, duration: real) {
    PauseRefusal(s.ctl.cfg, s.ctl.watched, c, gpus, duration).None? && Grantable(s.store.leases, c.uid, gpus)
  }

  ghost predicate TickNext(s: Sys, now: real, at: real, readings: seq<Reading>, pids: seq<int>, s': Sys) {
    && s.mono <= now && s.wall <= at
    && |readings| == |s.ctl.watched| && |pids| == |s.ctl.watched|
    && StoreStep(s.store, Sweep(at), s'.store)
    && var t := TickInputOf(s, s'.store.leases, now, at, readings, pids);
       var p := TickUpTo(t, Before(s), |t.watched|);
       s' == Sys(s'.store, p.pool, s.ctl.(states := p.states, lastTick := Some(now)), at, now)
  }

  ghost predicate PauseNext(s: Sys, c: Caller, gpus: seq<int>, duration: real, at: real, s': Sys) {
    && s.wall <= at
    && (if PauseAccepted(s, c, gpus, duration)
        then StoreStep(s.store, StoreOp.Acquire(c.uid, c.user, gpus, duration.Floor as real, at), s'.store)
             && s' == s.(store := s'.store, pool := ScheduleStops(s.pool, gpus), wall := at)
        else s' == s.(wall := at))
  }

  ghost predicate ResumeNext(s: Sys, c: Caller, gpus: seq<int>, at: real, s': Sys) {
    && s.wall <= at
    && (if ResumeRefusal(s.ctl.cfg, c, gpus).None?
        then StoreStep(s.store, StoreOp.Release(c.uid, gpus, IsRoot(c)), s'.store)
             && s' == s.(store := s'.store, wall := at)
        else s' == s.(wall := at))
  }

  /** A new daemon on the same state file, beside whatever processes still run. */
  function Restarted(s: Sys, cfg: Config, visible: seq<int>, now: real, at: real): Sys {
    Sys(Store(Loaded(map[], Lines(s.store.disk), at), s.store.disk),
        Pool(map[], map[], map[], s.pool.os, map[], map[], 0),
        SetWatched(Ctl(cfg, [], map[], None), ResolveWatched(cfg, visible)),
        at, now)
  }

  ghost predicate Next(s: Sys, step: Step, s': Sys) {
    match step
    case TickStep(now, at, readings, pids) => TickNext(s, now, at, readings, pids, s')
    case PauseStep(c, gpus, duration, at) => PauseNext(s, c, gpus, duration, at, s')
    case ResumeStep(c, gpus, at) => ResumeNext(s, c, gpus, at, s')
    case SweepStep(at) =>
      s.wall <= at && StoreStep(s.store, Sweep(at), s'.store) && s' == s.(store := s'.store, wall := at)
    case ReloadStep(cfg, visible) =>
      Validated(cfg) && s' == s.(ctl := SetWatched(s.ctl.(cfg := cfg), ResolveWatched(cfg, visible)))
    case WorkerStep(step) =>
      !step.DoSpawn? && !step.DoSchedule? && Enabled(s.pool, step) && s' == s.(pool := Apply(s.pool, step))
    case StopAllStep(gpus) =>
      ListsEach(gpus, s.pool.procs.Keys) && s' == s.(pool := ScheduleStops(s.pool, gpus))
    case PersistStep =>
      Persisted(s'.store.disk, s.store.leases) && s' == s.(store := s.store.(disk := s'.store.disk))
    case RestartStep(cfg, visible, now, at) =>
      s.wall <= at && s.mono <= now && Validated(cfg) && s' == Restarted(s, cfg, visible, now, at)
  }

  ghost predicate IsRun(ss: seq<Sys>, steps: seq<Step>) {
    && |ss| == |steps| + 1
    && forall i :: 0 <= i < |steps| ==> Next(ss[i], steps[i], ss[i + 1])
  }

  /** The very first start: no state file, no process, nothing watched before. */
  predicate Init(s: Sys) {
    && s.store == Store(map[], None)
    && s.pool == Pool(map[], map[], map[], [], map[], map[], 0)
    && Validated(s.ctl.cfg)
    && s.ctl == SetWatched(Ctl(s.ctl.cfg, [], map[], None), s.ctl.watched)
    && (s.ctl.cfg.indices != [] ==> s.ctl.watched == s.ctl.cfg.indices)
    && s.wall >= 0.0
  }

  const LOOP_CAP := 30.0

  /** What the expiry loop sleeps: until the first deadline, at most 30 seconds. */
  ghost predicate IsSleep(m: LeaseMap, now: real, sleep: real) {
    if m == map[] then sleep == LOOP_CAP else
      && 0.0 <= sleep <= LOOP_CAP
      && (forall g :: g in m ==> sleep <= MaxReal(0.0, m[g].expiresAt - now))
      && (sleep == LOOP_CAP || exists g :: g in m && sleep == MaxReal(0.0, m[g].expiresAt - now))
  }
}
