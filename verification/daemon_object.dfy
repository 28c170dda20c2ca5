/** The daemon object: its handlers and loop bodies take the steps of the transition
    system and nothing else. */
module DaemonObject {
  import opened Wrappers
  import opened Configs
  import opened Leases
  import opened Workers
  import opened WorkerLaws
  import opened History
  import opened Control
  import opened ControlLaws
  import opened Daemons

  /** The pool and the device states of a tick do not depend on the history queue. */
  lemma {:induction false} QueueIrrelevant(t: TickInput, p: Progress, q: seq<Item>, k: nat)
    requires InputFits(t) && k <= |t.watched|
    ensures TickUpTo(t, p.(queue := q), k).states == TickUpTo(t, p, k).states
    ensures TickUpTo(t, p.(queue := q), k).pool == TickUpTo(t, p, k).pool
  {
    if k > 0 {
      QueueIrrelevant(t, p, q, k - 1);
    }
  }

  function PauseEntry(c: Caller, gpus: seq<int>, at: real, ok: bool): Item {
    Entry(HistoryEntry(at, c.uid, c.user, "pause", gpus, ok))
  }

  /** One entry for every GPU released, then one for every error. */
  function ResumeEntries(c: Caller, released: seq<int>, errors: seq<ReleaseError>, at: real): seq<Item> {
    seq(|released|, i requires 0 <= i < |released| => Entry(HistoryEntry(at, c.uid, c.user, "resume", [released[i]], true)))
    + seq(|errors|, i requires 0 <= i < |errors| => Entry(HistoryEntry(at, c.uid, c.user, "resume", [errors[i].gpu], false)))
  }

  /** One entry for a reload, on behalf of a caller or, on a signal, of nobody. */
  function ReloadEntry(actor: Option<Caller>, at: real, ok: bool): Item {
    var c := if actor.Some? then actor.value else Caller(0, "(auto)");
    Entry(HistoryEntry(at, c.uid, c.user, "config_reload", [], ok))
  }

  function DaemonEntry(cmd: string, at: real): Item {
    Entry(HistoryEntry(at, 0, "(auto)", cmd, [], true))
  }

  /** The fields of what requests and the daemon itself record. */
  lemma EntriesTell(c: Caller, gpus: seq<int>, released: seq<int>, errors: seq<ReleaseError>, expired: seq<Lease>, at: real, ok: bool)
    ensures PauseEntry(c, gpus, at, ok) == Entry(HistoryEntry(at, c.uid, c.user, "pause", gpus, ok))
    ensures var es := ResumeEntries(c, released, errors, at);
            && |es| == |released| + |errors|
            && (forall i :: 0 <= i < |released| ==> es[i] == Entry(HistoryEntry(at, c.uid, c.user, "resume", [released[i]], true)))
            && (forall i :: 0 <= i < |errors| ==>
                  es[|released| + i] == Entry(HistoryEntry(at, c.uid, c.user, "resume", [errors[i].gpu], false)))
    ensures ReloadEntry(Some(c), at, ok) == Entry(HistoryEntry(at, c.uid, c.user, "config_reload", [], ok))
    ensures forall cmd: string :: DaemonEntry(cmd, at) == Entry(HistoryEntry(at, 0, "(auto)", cmd, [], true))
    ensures ReloadEntry(None, at, ok) == Entry(HistoryEntry(at, 0, "(auto)", "config_reload", [], ok))
    ensures var es := ExpiryEntries(expired, at);
            |es| == |expired| && forall i :: 0 <= i < |es| ==> es[i] == Entry(HistoryEntry(at, 0, "(auto)", "lease_expired", [expired[i].gpu], true))
  {
  }

  lemma TaskStepIsNext(s: Sys, step: PoolStep)
    requires Enabled(s.pool, step) && !step.DoSpawn? && !step.DoSchedule?
    ensures Next(s, WorkerStep(step), s.(pool := Apply(s.pool, step)))
  {
  }

  class Daemon {
    var cfg: Config
    const leases: LeaseStore
    const history: HistoryStore
    const workers: WorkerManager
    const controller: Controller
    ghost var wall: real
    ghost var mono: real

    ghost predicate Valid() reads this, controller, leases, workers {
      && controller.leases == leases && controller.workers == workers && controller.history == history
      && controller.Valid() && cfg == controller.cfg
    }

    ghost function View(): Sys reads this, controller, leases, workers {
      Sys(leases.View(), workers.View(), controller.View(), wall, mono)
    }

    /** A daemon not yet running, on the state file and the history file an earlier one
        left, beside the processes that still run. */
    constructor (cfg: Config, disk: Option<seq<Lease>>, file: Option<seq<HistoryEntry>>, os: seq<Process>, now: real, at: real)
      requires Validated(cfg)
      ensures Valid() && fresh(leases) && fresh(history) && fresh(workers) && fresh(controller)
      ensures View() == Sys(Store(map[], disk), Pool(map[], map[], map[], os, map[], map[], 0), Ctl(cfg, [], map[], None), at, now)
      ensures history.View() == Created(file, cfg.maxEntries)
    {
      hide WellFormed;
      var store := new LeaseStore(disk);
      var manager := new WorkerManager(os);
      var log := new HistoryStore(file, cfg.maxEntries);
      var policy := new Controller(cfg, store, manager, log);
      leases, workers, history, controller := store, manager, log, policy;
      this.cfg, wall, mono := cfg, at, now;
    }

    /** The first segment of `run`. */
    method Startup(visible: seq<int>, at: real)
      requires Valid() && leases.leases == map[]
      modifies controller, leases, history
      ensures Valid()
      ensures var s := old(View());
              View() == s.(store := s.store.(leases := Loaded(map[], Lines(s.store.disk), at)),
                           ctl := SetWatched(s.ctl, ResolveWatched(cfg, visible)))
      ensures history.View() == var h := LoadFile(old(history.View())); h.(queue := h.queue + [DaemonEntry("daemon_started", at)])
    {
      hide WellFormed, Loaded, LiveLines, SetWatched, LoadFile;
      controller.WatchGpus(ResolveWatched(cfg, visible));
      history.Load();
      LoadedKeyed(Lines(leases.disk), at);
      var restored := leases.Load(at);
      history.Record(at, 0, "(auto)", "daemon_started", [], true);
    }

    /** A new daemon that has started up is in the state of the transition system after a
        restart. */
    static method Boot(ghost s: Sys, cfg: Config, visible: seq<int>, file: Option<seq<HistoryEntry>>,
                       disk: Option<seq<Lease>>, os: seq<Process>, now: real, at: real) returns (d: Daemon)
      requires Validated(cfg) && disk == s.store.disk && os == s.pool.os
      ensures fresh(d) && d.Valid() && d.View() == Restarted(s, cfg, visible, now, at)
      ensures d.history.View() == LoadFile(Created(file, cfg.maxEntries)).(queue := [DaemonEntry("daemon_started", at)])
    {
      hide WellFormed, Loaded, SetWatched;
      d := new Daemon(cfg, disk, file, os, now, at);
      d.Startup(visible, at);
    }

    method MonitorTick(now: real, at: real, readings: seq<Reading>, pids: seq<int>)
      requires Valid() && mono <= now && wall <= at
      requires |readings| == |controller.watched| && |pids| == |controller.watched|
      modifies this`wall, this`mono, controller, leases, workers, history`queue
      ensures Valid() && wall == at && mono == now
      ensures Next(old(View()), TickStep(now, at, readings, pids), View())
    {
      ghost var s := View();
      ghost var queue := history.queue;
      var expired := controller.TickOnce(now, at, readings, pids);
      ghost var t := TickInputOf(s, leases.leases, now, at, readings, pids);
      QueueIrrelevant(t, Before(s), queue + ExpiryEntries(expired, at), |t.watched|);
      wall, mono := at, now;
    }

    method HandlePause(c: Caller, gpus: seq<int>, duration: real, at: real) returns (r: Result<seq<Lease>, Refusal>)
      requires Valid() && wall <= at
      modifies this`wall, leases, workers, history`queue
      ensures Valid() && wall == at && mono == old(mono)
      ensures Next(old(View()), PauseStep(c, gpus, duration, at), View())
      ensures r.Ok? <==> PauseAccepted(old(View()), c, gpus, duration)
      ensures r.Ok? ==> |r.value| == |gpus| && forall i :: 0 <= i < |gpus| ==> gpus[i] in leases.leases && r.value[i] == leases.leases[gpus[i]]
      ensures var refusal := PauseRefusal(cfg, controller.watched, c, gpus, duration);
              && (refusal.Some? ==> r == Err(refusal.value) && history.queue == old(history.queue))
              && (refusal.None? ==> history.queue == old(history.queue) + [PauseEntry(c, gpus, at, r.Ok?)])
              && (refusal.None? && r.Err? ==> r.error == PauseHeld(Conflicts(leases.leases, c.uid, gpus, at)))
    {
      hide StoreStep, ScheduleStops, GrantAll, WellFormed;
      wall := at;
      if !IsWhitelisted(c, cfg.whitelist) {
        return Err(NotWhitelisted);
      }
      if gpus == [] || !Distinct(gpus) {
        return Err(BadGpuSet);
      }
      if !AllWatched(controller.watched, gpus) {
        return Err(BadGpuSet);
      }
      if duration <= 0.0 {
        return Err(BadDuration);
      }
      var seconds := duration.Floor;
      if seconds < cfg.minDurationS {
        return Err(PauseTooShort);
      }
      if seconds > cfg.maxDurationS {
        return Err(PauseTooLong);
      }
      var granted := controller.Pause(c.uid, c.user, gpus, seconds as real, at);
      match granted
      case Err(Held(conflicts)) =>
        history.Record(at, c.uid, c.user, "pause", gpus, false);
        r := Err(PauseHeld(conflicts));
      case Err(UnknownGpus(_)) =>
        assert false;
      case Ok(newLeases) =>
        history.Record(at, c.uid, c.user, "pause", gpus, true);
        r := Ok(newLeases);
    }

    method HandleResume(c: Caller, gpus: seq<int>, at: real) returns (r: Result<ReleaseOutcome, Refusal>)
      requires Valid() && wall <= at
      modifies this`wall, leases, history`queue
      ensures Valid() && wall == at && mono == old(mono)
      ensures Next(old(View()), ResumeStep(c, gpus, at), View())
      ensures var refusal := ResumeRefusal(cfg, c, gpus);
              var o := ReleaseAll(old(leases.leases), c.uid, c.uid == 0, gpus);
              if refusal.Some? then r == Err(refusal.value) && history.queue == old(history.queue)
              else
                && r == (if o.released != [] then Ok(o) else Err(NothingReleased(o.errors)))
                && history.queue == old(history.queue) + ResumeEntries(c, o.released, o.errors, at)
    {
      wall := at;
      if !IsWhitelisted(c, cfg.whitelist) {
        return Err(NotWhitelisted);
      }
      if gpus == [] || !Distinct(gpus) {
        return Err(BadGpuSet);
      }
      var released, errors := controller.Resume(c.uid, gpus, IsRoot(c));
      RecordResume(c, released, errors, at);
      if released != [] {
        r := Ok(ReleaseOutcome(leases.leases, released, errors));
      } else {
        r := Err(NothingReleased(errors));
      }
    }

    method RecordResume(c: Caller, released: seq<int>, errors: seq<ReleaseError>, at: real)
      modifies history`queue
      ensures history.queue == old(history.queue) + ResumeEntries(c, released, errors, at)
    {
      ghost var all := ResumeEntries(c, released, errors, at);
      for i := 0 to |released|
        invariant history.queue == old(history.queue) + all[..i]
      {
        history.Record(at, c.uid, c.user, "resume", [released[i]], true);
        assert all[..i + 1] == all[..i] + [all[i]];
      }
      for i := 0 to |errors|
        invariant history.queue == old(history.queue) + all[..|released| + i]
      {
        history.Record(at, c.uid, c.user, "resume", [errors[i].gpu], false);
        assert all[..|released| + i + 1] == all[..|released| + i] + [all[|released| + i]];
      }
    }

    /** First half of an iteration of the expiry loop: how long to sleep. */
    method PlanSleep(now: real) returns (sleep: real)
      requires Valid()
      ensures IsSleep(leases.leases, now, sleep)
    {
      var all := leases.All();
      if all == [] {
        EmptyListing(all, leases.leases);
        return LOOP_CAP;
      }
      var first := all[0].expiresAt;
      ghost var at := 0;
      for i := 1 to |all|
        invariant 0 <= at < i && first == all[at].expiresAt
        invariant forall k :: 0 <= k < i ==> first <= all[k].expiresAt
      {
        if all[i].expiresAt < first {
          first, at := all[i].expiresAt, i;
        }
      }
      assert all[at].gpu in leases.leases;
      forall g | g in leases.leases ensures first <= leases.leases[g].expiresAt {
        assert leases.leases[g] in all;
      }
      sleep := MaxReal(0.0, first - now);
      if sleep > LOOP_CAP {
        sleep := LOOP_CAP;
      }
    }

    /** Second half: sweep under the lock. */
    method ExpirySweep(at: real) returns (expired: seq<Lease>)
      requires Valid() && wall <= at
      modifies this`wall, leases, history`queue
      ensures Valid() && wall == at && mono == old(mono)
      ensures Next(old(View()), SweepStep(at), View())
      ensures Lists(expired, Expired(old(leases.leases), at))
      ensures history.queue == old(history.queue) + ExpiryEntries(expired, at)
    {
      wall := at;
      expired := SweepLeases(leases, history, at);
    }

    /** CONFIG_RELOAD: root only, and only a configuration that loads. */
    method HandleConfigReload(c: Caller, loaded: Option<Config>, visible: seq<int>, at: real) returns (refusal: Option<Refusal>, reloaded: bool)
      requires Valid() && (loaded.Some? ==> Validated(loaded.value))
      modifies this`cfg, controller, history
      ensures Valid()
      ensures refusal == if c.uid == 0 then None else Some(NotRoot)
      ensures reloaded <==> c.uid == 0 && loaded.Some?
      ensures reloaded ==> Next(old(View()), ReloadStep(loaded.value, visible), View())
      ensures !reloaded ==> View() == old(View())
      ensures history.View() == if refusal.Some? then old(history.View()) else Reloaded(old(history.View()), Some(c), loaded, at)
    {
      refusal, reloaded := None, false;
      if !IsRoot(c) {
        return Some(NotRoot), false;
      }
      reloaded := ReloadConfig(Some(c), loaded, visible, at);
    }

    /** The history after a reload: its cap is swapped with the configuration, and the
        attempt is recorded either way. */
    static function Reloaded(h: Hist, actor: Option<Caller>, loaded: Option<Config>, at: real): Hist
      requires loaded.Some? ==> Validated(loaded.value)
    {
      var capped := if loaded.Some? then SetMax(h, loaded.value.maxEntries) else h;
      capped.(queue := h.queue + [ReloadEntry(actor, at, loaded.Some?)])
    }

    /** A reload on behalf of root or, without actor, on SIGHUP. */
    method ReloadConfig(actor: Option<Caller>, loaded: Option<Config>, visible: seq<int>, at: real) returns (reloaded: bool)
      requires Valid() && (loaded.Some? ==> Validated(loaded.value))
      modifies this`cfg, controller, history
      ensures Valid() && (reloaded <==> loaded.Some?)
      ensures reloaded ==> Next(old(View()), ReloadStep(loaded.value, visible), View())
      ensures !reloaded ==> View() == old(View())
      ensures history.View() == Reloaded(old(history.View()), actor, loaded, at)
    {
      reloaded := loaded.Some?;
      if !reloaded {
        RecordReload(actor, at, false);
        return;
      }
      ApplyNewConfig(actor, loaded.value, visible, at);
    }

    method RecordReload(actor: Option<Caller>, at: real, ok: bool)
      modifies history`queue
      ensures history.queue == old(history.queue) + [ReloadEntry(actor, at, ok)]
    {
      var c := if actor.Some? then actor.value else Caller(0, "(auto)");
      history.Record(at, c.uid, c.user, "config_reload", [], ok);
    }

    method ApplyNewConfig(actor: Option<Caller>, newCfg: Config, visible: seq<int>, at: real)
      requires Valid() && Validated(newCfg)
      modifies this`cfg, controller, history
      ensures Valid()
      ensures Next(old(View()), ReloadStep(newCfg, visible), View())
      ensures history.View() == Reloaded(old(history.View()), actor, Some(newCfg), at)
    {
      cfg := newCfg;
      controller.ReplaceConfig(newCfg);
      var ok := history.SetMaxEntries(newCfg.maxEntries);
      controller.WatchGpus(ResolveWatched(newCfg, visible));
      RecordReload(actor, at, true);
    }

    /** A segment of a `stop` that has been scheduled. */
    method ResumeStop(step: PoolStep)
      requires Valid() && Enabled(workers.View(), step) && (step.DoBegin? || step.DoKill? || step.DoFinish?)
      modifies workers
      ensures Valid()
      ensures Next(old(View()), WorkerStep(step), View())
    {
      StepKeepsWellFormed(workers.View(), step);
      TaskStepIsNext(View(), step);
      hide WellFormed, StopBegin, StopKill, StopFinish, Keyed, Next;
      match step
      case DoBegin(t) => workers.BeginStop(t);
      case DoKill(t) => workers.KillStop(t);
      case DoFinish(t) => workers.FinishStop(t);
    }

    /** The end of a `_watch`; a watcher that was not cancelled reports a crash. */
    method ResumeWatch(w: TaskId, at: real)
      requires Valid() && Enabled(workers.View(), DoWatch(w))
      modifies workers, history`queue
      ensures Valid()
      ensures Next(old(View()), WorkerStep(DoWatch(w)), View())
      ensures history.queue == old(history.queue)
                + if old(workers.watches[w].cancelled) then [] else [AutoEntry(at, "worker_crashed", old(workers.watches[w].gpu), false)]
    {
      UncancelledWatcherReports(workers.View(), w);
      StepKeepsWellFormed(workers.View(), DoWatch(w));
      TaskStepIsNext(View(), DoWatch(w));
      hide WellFormed, WatchFinish, Keyed, Next;
      var crash := workers.FinishWatch(w);
      if crash.Some? {
        history.Record(at, 0, "(auto)", "worker_crashed", [crash.value], false);
      }
    }

    /** Shutdown up to the wait for the workers: a `stop` for each. */
    method BeginShutdown()
      requires Valid()
      modifies workers
      ensures Valid()
      ensures exists gpus: seq<int> :: Next(old(View()), StopAllStep(gpus), View())
    {
      hide WellFormed, ScheduleStops, Keyed, ListsEach;
      ghost var s := View();
      workers.StopAll();
      ghost var gpus :| ListsEach(gpus, s.pool.procs.Keys) && workers.View() == ScheduleStops(s.pool, gpus);
      ScheduleStopsReaches(s.pool, gpus, 0);
      assert Next(s, StopAllStep(gpus), View());
    }

    /** Shutdown after that wait: the state file is written, and the writer told to end. */
    method FinishShutdown(at: real)
      requires Valid()
      modifies leases, history`queue
      ensures Valid()
      ensures Next(old(View()), PersistStep, View())
      ensures history.queue == old(history.queue) + [DaemonEntry("daemon_stopped", at)] + (if history.finished then [] else [Sentinel])
    {
      leases.Persist();
      history.Record(at, 0, "(auto)", "daemon_stopped", [], true);
      history.StopWriter();
    }
  }

  lemma {:induction false} LoadedKeyed(ls: seq<Lease>, now: real)
    ensures Keyed(Loaded(map[], ls, now))
  {
    if ls != [] {
      LoadedKeyed(ls[..|ls| - 1], now);
    }
  }
}
