/** The lease expiry loop in real time. Wake-ups are exact and the lock is free, so a
    running daemon never lets the clock pass the moment the loop asked to be woken. */
module ExpiryLaws {
  import opened Leases
  import opened LeaseLaws
  import opened Daemons
  import opened DaemonLaws

  /** The daemon and the moment at which its expiry loop wakes up next. */
  datatype Timed = Timed(sys: Sys, wake: real)

  /** A step of the running daemon: none leaves the clock past the wake-up; the loop
      sweeps exactly then and plans its next sleep on the spot. A new daemon, which may
      come up any time after its predecessor, plans at once. */
  ghost predicate TimedNext(t: Timed, step: Step, t': Timed) {
    && Next(t.sys, step, t'.sys)
    && (step.RestartStep? || t'.sys.wall <= t.wake)
    && (if step.SweepStep? || step.RestartStep? then
          && (step.SweepStep? ==> step.at == t.wake)
          && IsSleep(t'.sys.store.leases, t'.sys.wall, t'.wake - t'.sys.wall)
        else t'.wake == t.wake)
  }

  ghost predicate IsTimedRun(ts: seq<Timed>, steps: seq<Step>) {
    && |ts| == |steps| + 1
    && forall i :: 0 <= i < |steps| ==> TimedNext(ts[i], steps[i], ts[i + 1])
  }

  /** Seconds a lease granted for at least `minimum` may be swept late. */
  function Slack(minimum: int): real {
    MaxReal(0.0, 30.0 - minimum as real)
  }

  /** The loop wakes up within 30 seconds, and within `slack` of every deadline. */
  ghost predicate Punctual(t: Timed, slack: real) {
    && t.sys.wall <= t.wake <= t.sys.wall + LOOP_CAP
    && forall g :: g in t.sys.store.leases ==> t.wake <= t.sys.store.leases[g].expiresAt + slack
  }

  lemma PlannedIsPunctual(t: Timed, slack: real)
    requires IsSleep(t.sys.store.leases, t.sys.wall, t.wake - t.sys.wall) && slack >= 0.0
    requires forall g :: g in t.sys.store.leases ==> t.sys.store.leases[g].expiresAt > t.sys.wall
    ensures Punctual(t, slack)
  {
  }

  /** A grant reaches at least the minimum duration past its moment, and the loop wakes
      up within 30 seconds of that moment. */
  lemma PausePunctual(t: Timed, step: Step, t': Timed, minimum: int)
    requires TimedNext(t, step, t') && step.PauseStep? && Punctual(t, Slack(minimum))
    requires minimum <= t.sys.ctl.cfg.minDurationS
    ensures Punctual(t', Slack(minimum))
  {
    var s := t.sys;
    GrantAllPointwise(s.store.leases, step.caller.uid, step.caller.user, step.gpus, step.duration.Floor as real, step.at);
  }

  lemma StepPunctual(t: Timed, step: Step, t': Timed, minimum: int)
    requires TimedNext(t, step, t') && Punctual(t, Slack(minimum))
    requires minimum <= t.sys.ctl.cfg.minDurationS
    ensures Punctual(t', Slack(minimum))
  {
    var s, s' := t.sys, t'.sys;
    StepClocks(s, step, s');
    match step
    case SweepStep(at) =>
      PlannedIsPunctual(t', Slack(minimum));
    case RestartStep(_, _, _, at) =>
      forall g | g in s'.store.leases ensures s'.store.leases[g].expiresAt > at {
        var _ := LoadedFrom(Lines(s.store.disk), at, g);
      }
      PlannedIsPunctual(t', Slack(minimum));
    case PauseStep(_, _, _, _) =>
      PausePunctual(t, step, t', minimum);
    case ResumeStep(c, gpus, at) =>
      ReleaseExact(s.store.leases, c.uid, IsRoot(c), gpus);
    case _ =>
  }

  lemma {:induction false} RunPunctual(ts: seq<Timed>, steps: seq<Step>, i: nat, minimum: int)
    requires IsTimedRun(ts, steps) && i <= |steps| && Punctual(ts[0], Slack(minimum))
    requires forall k :: 0 <= k < i ==> minimum <= ts[k].sys.ctl.cfg.minDurationS
    ensures Punctual(ts[i], Slack(minimum))
  {
    if i > 0 {
      RunPunctual(ts, steps, i - 1, minimum);
      StepPunctual(ts[i - 1], steps[i - 1], ts[i], minimum);
    }
  }

  /** Expiry lateness: in every run from the first start, a lease is still in the map at
      most `max(0, 30 - minimum)` seconds after its deadline, `minimum` being the least
      minimum duration in force; never after it when that is at least 30. */
  lemma ExpiryLateness(ts: seq<Timed>, steps: seq<Step>, i: nat, minimum: int, g: int)
    requires IsTimedRun(ts, steps) && i <= |steps| && Init(ts[0].sys)
    requires IsSleep(ts[0].sys.store.leases, ts[0].sys.wall, ts[0].wake - ts[0].sys.wall)
    requires forall k :: 0 <= k < i ==> minimum <= ts[k].sys.ctl.cfg.minDurationS
    requires g in ts[i].sys.store.leases
    ensures ts[i].sys.wall <= ts[i].sys.store.leases[g].expiresAt + Slack(minimum)
    ensures minimum >= 30 ==> ts[i].sys.wall <= ts[i].sys.store.leases[g].expiresAt
  {
    PlannedIsPunctual(ts[0], Slack(minimum));
    RunPunctual(ts, steps, i, minimum);
  }

  /** What the loop sleeps: 30 seconds without leases; nothing if one has expired; else the
      time to the first deadline, at most 30 seconds. */
  lemma SleepTells(m: LeaseMap, now: real, sleep: real)
    requires IsSleep(m, now, sleep)
    ensures 0.0 <= sleep <= 30.0
    ensures forall g :: g in m && sleep > 0.0 ==> now + sleep <= m[g].expiresAt
    ensures sleep < 30.0 ==> exists g :: g in m && m[g].expiresAt <= now + sleep
  {
  }

  /** The loop skips its sleep exactly when some lease has expired. */
  lemma ZeroSleepIff(m: LeaseMap, now: real, sleep: real)
    requires IsSleep(m, now, sleep)
    ensures sleep == 0.0 <==> exists g :: g in m && m[g].expiresAt <= now
  {
    if g :| g in m && m[g].expiresAt <= now {
      assert sleep <= MaxReal(0.0, m[g].expiresAt - now);
    }
  }

  /** An iteration without sleep removes at least one lease, so the loop cannot spin. */
  lemma ZeroSleepSweeps(s: Store, planned: real, now: real, s': Store)
    requires IsSleep(s.leases, planned, 0.0) && planned <= now && StoreStep(s, Sweep(now), s')
    ensures |s'.leases| < |s.leases|
  {
    ZeroSleepIff(s.leases, planned, 0.0);
    var g :| g in s.leases && s.leases[g].expiresAt <= planned;
    assert g in Expired(s.leases, now);
    SweepCounts(s.leases, now);
  }
}
