/** The debounce on a GPU that the watched list repeats. */
module EarlyStart {
  import opened Wrappers
  import opened Configs
  import opened Leases
  import opened Workers
  import opened Control
  import opened ControlLaws
  import opened Daemons
  import opened DebounceLaws

  /** The debounce is two seconds. */
  const CONFIG := Config([], 50, 50, 2, ["mem"], [], 1, 60, 10)
  const BUSY := GpuSample(0, 100, 0, 0, None)
  const IDLE := GpuSample(0, 0, 0, 0, None)

  /** The daemon at its first start. */
  function First(watched: seq<int>): Sys {
    Sys(Store(map[], None), Pool(map[], map[], map[], [], map[], map[], 0),
        SetWatched(Ctl(CONFIG, [], map[], None), watched), 0.0, 0.0)
  }

  /** The monitor answers `sample` at positions `a` and `b` only. */
  function Answers(n: nat, a: nat, b: nat, sample: GpuSample): seq<Reading> {
    seq(n, i requires 0 <= i < n => if i == a || i == b then Got(sample) else Raised(""))
  }

  function TickAt(watched: seq<int>, at: real, a: nat, b: nat, sample: GpuSample): Step {
    TickStep(at, at, Answers(|watched|, a, b, sample), seq(|watched|, i requires 0 <= i < |watched| => 100))
  }

  function InputAt(s: Sys, step: Step): TickInput
    requires step.TickStep?
  {
    TickInputOf(s, map[], step.now, step.at, step.readings, step.pids)
  }

  /** What a tick leaves when there is no lease. */
  function After(s: Sys, step: Step): Sys
    requires step.TickStep? && |step.readings| == |s.ctl.watched| == |step.pids|
  {
    var p := TickUpTo(InputAt(s, step), Before(s), |s.ctl.watched|);
    Sys(s.store, p.pool, s.ctl.(states := p.states, lastTick := Some(step.now)), step.at, step.now)
  }

  lemma AfterIsNext(s: Sys, step: Step)
    requires step.TickStep? && |step.readings| == |s.ctl.watched| == |step.pids|
    requires s.store.leases == map[] && s.mono <= step.now && s.wall <= step.at
    ensures Next(s, step, After(s, step))
  {
    assert Unexpired(map[], step.at) == map[] == Expired(map[], step.at);
    assert StoreStep(s.store, Sweep(step.at), s.store);
  }

  /** A busy sample starts nothing and leaves the count at zero. */
  lemma {:induction false} BusyTick(watched: seq<int>, a: nat, k: nat, g: int)
    requires k <= |watched|
    ensures var s := First(watched);
            var p := TickUpTo(InputAt(s, TickAt(watched, 0.0, a, a, BUSY)), Before(s), k);
            p.pool == s.pool && StateOf(p.states, g).idleStreak == 0.0
  {
    if k > 0 {
      BusyTick(watched, a, k - 1, g);
      BusyTick(watched, a, k - 1, watched[k - 1]);
    }
  }

  /** A second later, two idle samples of the same GPU count two seconds. */
  lemma {:induction false} IdleTick(s: Sys, a: nat, b: nat, k: nat)
    requires a < b < |s.ctl.watched| && s.ctl.watched[a] == s.ctl.watched[b] && k <= |s.ctl.watched|
    requires s.pool == First([]).pool && s.ctl.cfg == CONFIG && s.ctl.lastTick == Some(0.0)
    requires StateOf(s.ctl.states, s.ctl.watched[a]).idleStreak == 0.0
    ensures var g := s.ctl.watched[a];
            var p := TickUpTo(InputAt(s, TickAt(s.ctl.watched, 1.0, a, b, IDLE)), Before(s), k);
            && (k <= b ==> p.pool == s.pool && StateOf(p.states, g).idleStreak == if k > a then 1.0 else 0.0)
            && (k > b ==> StartedOn(s.pool, p.pool, g))
  {
    hide TickDevice, StartedOn;
    if k > 0 {
      IdleTick(s, a, b, k - 1);
      var t := InputAt(s, TickAt(s.ctl.watched, 1.0, a, b, IDLE));
      var p := TickUpTo(t, Before(s), k - 1);
      if k - 1 == a || k - 1 == b {
        IdleSample(t, p, k - 1);
      } else {
        NoSample(t, p, k - 1);
      }
    }
  }

  /** An idle sample counts the second; if that makes two, a worker is started. */
  lemma IdleSample(t: TickInput, p: Progress, i: nat)
    requires InputFits(t) && i < |t.watched| && t.readings[i] == Got(IDLE)
    requires t.cfg == CONFIG && t.leases == map[] && t.dt == 1.0 && p.pool == First([]).pool
    ensures var g, q := t.watched[i], TickDevice(t, p, i);
            var count := StateOf(p.states, g).idleStreak + 1.0;
            && (count < 2.0 ==> q.pool == p.pool && StateOf(q.states, g).idleStreak == count)
            && (count >= 2.0 ==> StartedOn(p.pool, q.pool, g))
  {
    var q := TickDevice(t, p, i);
    if StateOf(p.states, t.watched[i]).idleStreak + 1.0 >= 2.0 {
      assert q.pool.os[0].gpu == t.watched[i];
    }
  }

  lemma NoSample(t: TickInput, p: Progress, i: nat)
    requires InputFits(t) && i < |t.watched| && t.readings[i].Raised?
    ensures TickDevice(t, p, i).pool == p.pool && TickDevice(t, p, i).states == p.states
  {
  }

  /** A GPU listed twice, found busy at 0 and idle at 1, has a worker started at 1 in spite
      of the debounce of two seconds. */
  lemma RepeatedStartsEarly(watched: seq<int>, a: nat, b: nat) returns (ss: seq<Sys>, steps: seq<Step>)
    requires a < b < |watched| && watched[a] == watched[b]
    ensures |steps| == 2 && IsRun(ss, steps) && Init(ss[0]) && forall k :: 0 <= k < |ss| ==> ss[k].ctl.watched == watched
    ensures FoundInUse(ss[0], steps[0], ss[1], watched[a], a) && StartedOn(ss[1].pool, ss[2].pool, watched[a])
    ensures steps[0].TickStep? && steps[1].TickStep? && steps[1].now - steps[0].now < ss[1].ctl.cfg.idleDebounceS as real
  {
    hide Next, Init, FoundInUse, StartedOn, TickUpTo;
    var first, busy, idle := First(watched), TickAt(watched, 0.0, a, a, BUSY), TickAt(watched, 1.0, a, b, IDLE);
    var second := After(first, busy);
    var third := After(second, idle);
    AfterIsNext(first, busy);
    AfterIsNext(second, idle);
    FirstIsInit(watched);
    BusyTick(watched, a, |watched|, watched[a]);
    IdleTick(second, a, b, |watched|);
    FirstFindsBusy(watched, a);
    ss, steps := [first, second, third], [busy, idle];
  }

  lemma FirstIsInit(watched: seq<int>)
    ensures Init(First(watched))
  {
  }

  lemma FirstFindsBusy(watched: seq<int>, a: nat)
    requires a < |watched|
    ensures var s, step := First(watched), TickAt(watched, 0.0, a, a, BUSY);
            FoundInUse(s, step, After(s, step), watched[a], a)
  {
    hide TickUpTo;
  }

  /** A worker started at step `j` comes at least the debounce after step `i`, if that is
      an earlier tick that found the GPU in use. */
  ghost predicate FullDebounce(ss: seq<Sys>, steps: seq<Step>, i: nat, j: nat, g: int, at: nat) {
    IsRun(ss, steps) && i < j < |steps| && FoundInUse(ss[i], steps[i], ss[i + 1], g, at) && StartedOn(ss[j].pool, ss[j + 1].pool, g) ==>
      steps[j].TickStep? && steps[j].now - steps[i].now >= ss[j].ctl.cfg.idleDebounceS as real
  }

  ghost predicate RunWatching(ss: seq<Sys>, steps: seq<Step>, watched: seq<int>) {
    IsRun(ss, steps) && Init(ss[0]) && forall k :: 0 <= k < |ss| ==> ss[k].ctl.watched == watched
  }

  /** The debounce is kept in every run that watches `watched` if and only if this lists
      the GPU at most once. */
  lemma FullDebounceIff(watched: seq<int>, g: int)
    ensures ListedOnce(watched, g) <==>
            forall ss, steps, i: nat, j: nat, at: nat :: RunWatching(ss, steps, watched) ==> FullDebounce(ss, steps, i, j, g, at)
  {
    hide IsRun, Init, FoundInUse, StartedOn;
    if ListedOnce(watched, g) {
      forall ss, steps, i: nat, j: nat, at: nat | RunWatching(ss, steps, watched) ensures FullDebounce(ss, steps, i, j, g, at) {
        OnceKeepsDebounce(ss, steps, watched, i, j, g, at);
      }
    } else {
      var a: nat, b: nat :| a < b < |watched| && watched[a] == g && watched[b] == g;
      var ss, steps := RepeatedStartsEarly(watched, a, b);
      assert RunWatching(ss, steps, watched) && !FullDebounce(ss, steps, 0, 1, g, a);
    }
  }

  lemma OnceKeepsDebounce(ss: seq<Sys>, steps: seq<Step>, watched: seq<int>, i: nat, j: nat, g: int, at: nat)
    requires ListedOnce(watched, g) && RunWatching(ss, steps, watched)
    ensures FullDebounce(ss, steps, i, j, g, at)
  {
    hide Next, Init, FoundInUse, StartedOn;
    if i < j < |steps| && FoundInUse(ss[i], steps[i], ss[i + 1], g, at) && StartedOn(ss[j].pool, ss[j + 1].pool, g) {
      DebounceSound(ss, steps, i, j, g, at);
    }
  }
}
