/** The per-GPU pool of worker processes (src/ocp/worker/manager.py).

    The coroutines `stop` and `_watch` suspend, so each is cut at its suspension
    points into steps that run without interruption; any other step may come between. */
module Workers {
  import opened Wrappers

  /** The identity of a process object; never reused, unlike its pid. */
  type ProcId = nat

  type TaskId = nat

  /** A started OS process. */
  datatype Process = Process(gpu: int, pid: int, live: bool)

  datatype WorkerProc = WorkerProc(gpu: int, pid: int, startedAt: real)

  /** A `stop(gpu)` coroutine: not yet begun, or waiting for the process it found, to which
      it has sent SIGTERM and perhaps SIGKILL. */
  datatype StopTask = Scheduled(gpu: int) | Waiting(gpu: int, proc: ProcId, killed: bool)

  /** A `_watch(gpu, proc)` coroutine; a cancelled one returns when it next runs. */
  datatype WatchTask = WatchTask(gpu: int, proc: ProcId, cancelled: bool)

  /** The three maps of the manager, and the processes and coroutines around it. */
  datatype Pool = Pool(
    procs: map<int, ProcId>,
    meta: map<int, WorkerProc>,
    watchers: map<int, TaskId>,
    os: seq<Process>,
    stops: map<TaskId, StopTask>,
    watches: map<TaskId, WatchTask>,
    nextTask: TaskId)

  predicate Tracked(p: Pool, g: int) { g in p.meta }

  predicate IsLive(p: Pool, id: ProcId) { id < |p.os| && p.os[id].live }

  /** The maps have the same keys and record the process of each GPU truly. */
  ghost predicate MapsAgree(p: Pool) {
    && p.procs.Keys == p.meta.Keys == p.watchers.Keys
    && (forall g :: g in p.procs ==> p.procs[g] < |p.os| && p.os[p.procs[g]].gpu == g)
    && (forall g :: g in p.procs ==> p.meta[g].gpu == g && p.meta[g].pid == p.os[p.procs[g]].pid)
  }

  /** Every GPU on file has an uncancelled watcher for its process, and every
      uncancelled watcher is the one on file for its GPU. */
  ghost predicate WatchersPaired(p: Pool) {
    && (forall g :: g in p.watchers ==>
          g in p.procs && p.watchers[g] in p.watches && p.watches[p.watchers[g]] == WatchTask(g, p.procs[g], false))
    && (forall w :: w in p.watches && !p.watches[w].cancelled ==>
          p.watches[w].gpu in p.watchers && p.watchers[p.watches[w].gpu] == w)
  }

  /** Task ids in use are below the next one; every awaited process exists. */
  ghost predicate TasksKnown(p: Pool) {
    && (forall w :: w in p.watches ==> w < p.nextTask && p.watches[w].proc < |p.os|)
    && (forall t :: t in p.stops ==> t < p.nextTask)
    && (forall t :: t in p.stops && p.stops[t].Waiting? ==>
          p.stops[t].proc < |p.os| && p.os[p.stops[t].proc].gpu == p.stops[t].gpu)
  }

  ghost predicate WellFormed(p: Pool) {
    MapsAgree(p) && WatchersPaired(p) && TasksKnown(p)
  }

  // --- the steps ------------------------------------------------------------

  /** `_cleanup(gpu)`: forget the GPU, cancel its watcher. */
  function Cleanup(p: Pool, g: int): Pool {
    p.(procs := p.procs - {g}, meta := p.meta - {g}, watchers := p.watchers - {g},
       watches := if g in p.watchers && p.watchers[g] in p.watches
                  then p.watches[p.watchers[g] := p.watches[p.watchers[g]].(cancelled := true)]
                  else p.watches)
  }

  /** `spawn(gpu)`: a new process and its watcher, unless the GPU already has one. */
  function Spawn(p: Pool, g: int, pid: int, now: real): Pool {
    if g in p.procs then p else
      p.(procs := p.procs[g := |p.os|],
         meta := p.meta[g := WorkerProc(g, pid, now)],
         watchers := p.watchers[g := p.nextTask],
         os := p.os + [Process(g, pid, true)],
         watches := p.watches[p.nextTask := WatchTask(g, |p.os|, false)],
         nextTask := p.nextTask + 1)
  }

  /** `create_task(stop(gpu))`. */
  function ScheduleStop(p: Pool, g: int): Pool {
    p.(stops := p.stops[p.nextTask := Scheduled(g)], nextTask := p.nextTask + 1)
  }

  /** `gpus` lists each element of `s` exactly once. */
  predicate ListsEach(gpus: seq<int>, s: set<int>) {
    && (forall g :: g in gpus ==> g in s)
    && (forall g :: g in s ==> g in gpus)
    && (forall i, j :: 0 <= i < j < |gpus| ==> gpus[i] != gpus[j])
  }

  function ScheduleStops(p: Pool, gpus: seq<int>): Pool {
    if gpus == [] then p else
      var k := |gpus| - 1;
      var q := ScheduleStops(p, gpus[..k]);
      if Tracked(q, gpus[k]) then ScheduleStop(q, gpus[k]) else q
  }

  lemma NoneScheduled(p: Pool)
    ensures ScheduleStops(p, []) == p
  {
  }

  lemma OneMoreScheduled(p: Pool, gpus: seq<int>, g: int)
    requires Tracked(ScheduleStops(p, gpus), g)
    ensures ScheduleStops(p, gpus + [g]) == ScheduleStop(ScheduleStops(p, gpus), g)
  {
    assert (gpus + [g])[..|gpus|] == gpus;
  }

  /** A process exits, on a signal or of its own accord. */
  function Exit(p: Pool, id: ProcId): Pool
    requires id < |p.os|
  {
    p.(os := p.os[id := p.os[id].(live := false)])
  }

  /** First segment of `stop`: look the process up; finish at once if there is none or
      it has exited, else send SIGTERM and wait. */
  function StopBegin(p: Pool, t: TaskId): Pool
    requires t in p.stops && p.stops[t].Scheduled?
  {
    var g := p.stops[t].gpu;
    if g !in p.procs then p.(stops := p.stops - {t})
    else if !IsLive(p, p.procs[g]) then Cleanup(p.(stops := p.stops - {t}), g)
    else p.(stops := p.stops[t := Waiting(g, p.procs[g], false)])
  }

  /** The SIGTERM timeout: SIGKILL, once, and wait on. */
  function StopKill(p: Pool, t: TaskId): Pool
    requires t in p.stops && p.stops[t].Waiting? && !p.stops[t].killed
  {
    p.(stops := p.stops[t := p.stops[t].(killed := true)])
  }

  /** Last segment of `stop`: the process has exited; clean the GPU up, whatever
      process the maps hold for it now. */
  function StopFinish(p: Pool, t: TaskId): Pool
    requires t in p.stops && p.stops[t].Waiting?
  {
    Cleanup(p.(stops := p.stops - {t}), p.stops[t].gpu)
  }

  /** A watcher resumes: a cancelled one returns, another has seen its process exit. */
  function WatchFinish(p: Pool, w: TaskId): Pool
    requires w in p.watches
  {
    var task := p.watches[w];
    var cleaned := if !task.cancelled && WatchReports(p, w) then Cleanup(p, task.gpu) else p;
    cleaned.(watches := cleaned.watches - {w})
  }

  /** The exit is reported as a crash: the maps still hold this very process. */
  predicate WatchReports(p: Pool, w: TaskId)
    requires w in p.watches
  {
    var task := p.watches[w];
    !task.cancelled && task.gpu in p.procs && p.procs[task.gpu] == task.proc
  }

  /** The manager object. `os`, `stops`, `watches` and `nextTask` stand for the
      operating system and the event loop. */
  class WorkerManager {
    var procs: map<int, ProcId>
    var meta: map<int, WorkerProc>
    var watchers: map<int, TaskId>
    var os: seq<Process>
    var stops: map<TaskId, StopTask>
    var watches: map<TaskId, WatchTask>
    var nextTask: TaskId

    ghost function View(): Pool reads this {
      Pool(procs, meta, watchers, os, stops, watches, nextTask)
    }

    ghost predicate Valid() reads this { WellFormed(View()) }

    /** A manager started beside whatever processes already run. */
    constructor (os: seq<Process>)
      ensures Valid() && View() == Pool(map[], map[], map[], os, map[], map[], 0)
    {
      procs, meta, watchers := map[], map[], map[];
      this.os, stops, watches, nextTask := os, map[], map[], 0;
    }

    function PidFor(g: int): Option<int> reads this {
      if g in meta then Some(meta[g].pid) else None
    }

    method SpawnWorker(g: int, pid: int, now: real) returns (m: WorkerProc)
      requires Valid()
      modifies this
      ensures View() == Spawn(old(View()), g, pid, now)
      ensures g in meta && m == meta[g]
    {
      if g in procs {
        return meta[g];
      }
      os := os + [Process(g, pid, true)];
      var proc := |os| - 1;
      procs := procs[g := proc];
      m := WorkerProc(g, pid, now);
      meta := meta[g := m];
      watches := watches[nextTask := WatchTask(g, proc, false)];
      watchers := watchers[g := nextTask];
      nextTask := nextTask + 1;
    }

    method CreateStopTask(g: int)
      modifies this`stops, this`nextTask
      ensures View() == ScheduleStop(old(View()), g)
    {
      stops := stops[nextTask := Scheduled(g)];
      nextTask := nextTask + 1;
    }

    method CleanupGpu(g: int)
      modifies this`procs, this`meta, this`watchers, this`watches
      ensures View() == Cleanup(old(View()), g)
    {
      procs := procs - {g};
      meta := meta - {g};
      if g in watchers {
        var task := watchers[g];
        watchers := watchers - {g};
        if task in watches {
          watches := watches[task := watches[task].(cancelled := true)];
        }
      } else {
        assert watchers - {g} == watchers;
      }
    }

    method BeginStop(t: TaskId)
      requires Valid() && t in stops && stops[t].Scheduled?
      modifies this
      ensures View() == StopBegin(old(View()), t)
    {
      var g := stops[t].gpu;
      if g !in procs {
        stops := stops - {t};
      } else if !os[procs[g]].live {
        stops := stops - {t};
        CleanupGpu(g);
      } else {
        stops := stops[t := Waiting(g, procs[g], false)];
      }
    }

    method KillStop(t: TaskId)
      requires t in stops && stops[t].Waiting? && !stops[t].killed
      modifies this`stops
      ensures View() == StopKill(old(View()), t)
    {
      stops := stops[t := stops[t].(killed := true)];
    }

    method FinishStop(t: TaskId)
      requires Valid() && t in stops && stops[t].Waiting? && !os[stops[t].proc].live
      modifies this
      ensures View() == StopFinish(old(View()), t)
    {
      var g := stops[t].gpu;
      stops := stops - {t};
      CleanupGpu(g);
    }

    /** Returns whether `on_exit` is called, for which GPU. */
    method FinishWatch(w: TaskId) returns (crash: Option<int>)
      requires Valid() && w in watches && (watches[w].cancelled || !os[watches[w].proc].live)
      modifies this
      ensures View() == WatchFinish(old(View()), w)
      ensures crash == if old(WatchReports(View(), w)) then Some(old(watches[w].gpu)) else None
    {
      var task := watches[w];
      crash := None;
      if !task.cancelled && task.gpu in procs && procs[task.gpu] == task.proc {
        CleanupGpu(task.gpu);
        crash := Some(task.gpu);
      }
      watches := watches - {w};
    }

    /** `stop_all`: one `stop` task for every GPU on file. */
    method StopAll()
      requires Valid()
      modifies this`stops, this`nextTask
      ensures exists gpus: seq<int> :: ListsEach(gpus, procs.Keys) && View() == ScheduleStops(old(View()), gpus)
    {
      assert procs.Keys == meta.Keys;
      hide WellFormed, ScheduleStops;
      ghost var p := View();
      NoneScheduled(p);
      var todo := procs.Keys;
      ghost var gpus: seq<int> := [];
      while todo != {}
        invariant forall g :: g in todo ==> g in procs && g !in gpus
        invariant forall g :: g in procs ==> g in todo || g in gpus
        invariant forall g :: g in gpus ==> g in procs
        invariant forall i, j :: 0 <= i < j < |gpus| ==> gpus[i] != gpus[j]
        invariant View() == ScheduleStops(p, gpus)
      {
        var g := Pick(todo);
        OneMoreScheduled(p, gpus, g);
        CreateStopTask(g);
        gpus := gpus + [g];
        todo := todo - {g};
      }
      assert ListsEach(gpus, procs.Keys);
    }
  }
}
