/** Leases over whole runs of the daemon. */
module RunLaws {
  import opened Leases
  import opened LeaseLaws
  import opened Workers
  import opened WorkerLaws
  import opened Control
  import opened Daemons
  import opened DaemonLaws

  // --- crash agreement and tenure -------------------------------------------

  lemma LaterRecovers(s: Store, t0: real, t1: real)
    requires Recovers(s, t0) && t0 <= t1
    ensures Recovers(s, t1)
  {
  }

  lemma NextRecovers(s: Sys, step: Step, s': Sys)
    requires Next(s, step, s') && Recovers(s.store, s.wall)
    ensures Recovers(s'.store, s'.wall)
  {
    StepClocks(s, step, s');
    LaterRecovers(s.store, s.wall, s'.wall);
    match step
    case TickStep(_, at, _, _) => StepRecovers(s.store, Sweep(at), s'.store, at);
    case PauseStep(c, gpus, duration, at) =>
      if PauseAccepted(s, c, gpus, duration) {
        StepRecovers(s.store, StoreOp.Acquire(c.uid, c.user, gpus, duration.Floor as real, at), s'.store, at);
      }
    case ResumeStep(c, gpus, at) =>
      if ResumeRefusal(s.ctl.cfg, c, gpus).None? {
        StepRecovers(s.store, StoreOp.Release(c.uid, gpus, IsRoot(c)), s'.store, at);
      }
    case SweepStep(at) => StepRecovers(s.store, Sweep(at), s'.store, at);
    case PersistStep => PersistedRecovers(s'.store, s'.wall);
    case RestartStep(_, _, _, at) =>
      forall t | t >= at ensures Loaded(map[], Lines(s.store.disk), t) == Unexpired(s'.store.leases, t) {
        assert Loaded(map[], Lines(s.store.disk), t) == Unexpired(s.store.leases, t);
        assert s'.store.leases == Unexpired(s.store.leases, at);
        assert Unexpired(Unexpired(s.store.leases, at), t) == Unexpired(s.store.leases, t);
      }
    case _ =>
  }

  /** At every moment of every run the state file holds exactly the unexpired leases. */
  lemma {:induction false} RunRecovers(ss: seq<Sys>, steps: seq<Step>, i: nat)
    requires IsRun(ss, steps) && i <= |steps| && Init(ss[0])
    ensures Recovers(ss[i].store, ss[i].wall)
  {
    if i == 0 {
      forall t ensures Loaded(map[], Lines(ss[0].store.disk), t) == Unexpired(ss[0].store.leases, t) {
        assert Unexpired(map[], t) == map[];
      }
    } else {
      RunRecovers(ss, steps, i - 1);
      NextRecovers(ss[i - 1], steps[i - 1], ss[i]);
    }
  }

  /** One step of the daemon on a lease, restarts included: it stays with the same
      holder and acquisition time and a deadline that does not move back, or it has
      expired, or its holder or root has resumed it. */
  lemma NextTenure(s: Sys, step: Step, s': Sys, g: int)
    requires Next(s, step, s') && Recovers(s.store, s.wall) && g in s.store.leases
    ensures g in s'.store.leases ==>
      && s'.store.leases[g].uid == s.store.leases[g].uid
      && s'.store.leases[g].acquiredAt == s.store.leases[g].acquiredAt
      && s'.store.leases[g].expiresAt >= s.store.leases[g].expiresAt
    ensures g !in s'.store.leases ==>
      s.store.leases[g].expiresAt <= s'.wall || ResumesFor(step, g, s.store.leases[g].uid)
  {
    match step
    case TickStep(_, at, _, _) => StepTenure(s.store, Sweep(at), s'.store, g);
    case PauseStep(c, gpus, duration, at) =>
      if PauseAccepted(s, c, gpus, duration) {
        StepTenure(s.store, StoreOp.Acquire(c.uid, c.user, gpus, duration.Floor as real, at), s'.store, g);
      }
    case ResumeStep(c, gpus, at) =>
      if ResumeRefusal(s.ctl.cfg, c, gpus).None? {
        StepTenure(s.store, StoreOp.Release(c.uid, gpus, IsRoot(c)), s'.store, g);
      }
    case SweepStep(at) => StepTenure(s.store, Sweep(at), s'.store, g);
    case RestartStep(_, _, _, at) =>
      assert s'.store.leases == Unexpired(s.store.leases, at);
    case _ =>
  }

  /** Tenure over whole runs. */
  lemma {:induction false} LeaseTenure(ss: seq<Sys>, steps: seq<Step>, i: nat, j: nat, g: int)
    requires IsRun(ss, steps) && i <= j <= |steps| && Init(ss[0])
    requires forall k :: i <= k <= j ==> g in ss[k].store.leases
    ensures ss[j].store.leases[g].uid == ss[i].store.leases[g].uid
    ensures ss[j].store.leases[g].acquiredAt == ss[i].store.leases[g].acquiredAt
    ensures ss[j].store.leases[g].expiresAt >= ss[i].store.leases[g].expiresAt
  {
    hide Next, Init, Recovers;
    if i < j {
      LeaseTenure(ss, steps, i, j - 1, g);
      RunRecovers(ss, steps, j - 1);
      NextTenure(ss[j - 1], steps[j - 1], ss[j], g);
    }
  }

  /** Horizon: no lease ever ends later than the longest maximum duration in force so
      far, counted from now. */
  lemma {:induction false} LeaseHorizon(ss: seq<Sys>, steps: seq<Step>, i: nat, longest: int)
    requires IsRun(ss, steps) && i <= |steps| && Init(ss[0])
    requires forall k :: 0 <= k <= i ==> ss[k].ctl.cfg.maxDurationS <= longest
    requires longest >= 0
    ensures forall g :: g in ss[i].store.leases ==> ss[i].store.leases[g].expiresAt <= ss[i].wall + longest as real
  {
    if i > 0 {
      LeaseHorizon(ss, steps, i - 1, longest);
      RunClocks(ss, steps, 0, i - 1);
      RunClocks(ss, steps, i - 1, i);
      RunRecovers(ss, steps, i - 1);
      forall g | g in ss[i].store.leases
        ensures ss[i].store.leases[g].expiresAt <= ss[i].wall + longest as real
      {
        NextHorizon(ss[i - 1], steps[i - 1], ss[i], g, longest);
      }
    }
  }

  lemma NextHorizon(s: Sys, step: Step, s': Sys, g: int, longest: int)
    requires Next(s, step, s') && Recovers(s.store, s.wall) && 0.0 <= s.wall <= s'.wall
    requires s.ctl.cfg.maxDurationS <= longest && longest >= 0
    requires g in s.store.leases ==> s.store.leases[g].expiresAt <= s.wall + longest as real
    requires g in s'.store.leases
    ensures s'.store.leases[g].expiresAt <= s'.wall + longest as real
  {
    hide TickUpTo, ScheduleStops, SetWatched, Apply, Enabled, GrantAll, ReleaseAll, Loaded;
    match step
    case PauseStep(c, gpus, duration, at) =>
      GrantAllPointwise(s.store.leases, c.uid, c.user, gpus, duration.Floor as real, at);
    case ResumeStep(c, gpus, at) =>
      ReleaseExact(s.store.leases, c.uid, IsRoot(c), gpus);
    case RestartStep(_, _, _, at) =>
      assert s'.store.leases == Unexpired(s.store.leases, at);
    case _ =>
  }
}
