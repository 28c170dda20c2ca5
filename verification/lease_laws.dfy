/** What the lease store promises over whole runs: agreement between memory and the
    state file across crashes, exact release, and conservation of grants. */
module LeaseLaws {
  import opened Wrappers
  import opened Leases

  // --- release --------------------------------------------------------------

  /** What a release leaves behind. */
  function Remaining(m: LeaseMap, uid: int, isRoot: bool, gpus: seq<int>): LeaseMap {
    map g | g in m && !(g in gpus && Releasable(m, uid, isRoot, g)) :: m[g]
  }

  /** A release removes exactly the requested leases the caller may release, each once. */
  lemma {:induction false} ReleaseExact(m: LeaseMap, uid: int, isRoot: bool, gpus: seq<int>)
    ensures var o := ReleaseAll(m, uid, isRoot, gpus);
            && o.leases == Remaining(m, uid, isRoot, gpus)
            && (forall g :: g in o.released <==> g in gpus && Releasable(m, uid, isRoot, g))
            && (forall i, j :: 0 <= i < j < |o.released| ==> o.released[i] != o.released[j])
  {
    if gpus == [] {
      assert Remaining(m, uid, isRoot, gpus) == m;
    } else {
      var k := |gpus| - 1;
      ReleaseExact(m, uid, isRoot, gpus[..k]);
      assert gpus == gpus[..k] + [gpus[k]];
    }
  }

  lemma OneAnswer(o: ReleaseOutcome, uid: int, isRoot: bool, g: int)
    ensures var o' := ReleaseOne(o, uid, isRoot, g);
            && |o'.released| + |o'.errors| == |o.released| + |o.errors| + 1
            && |o'.leases| + |o'.released| == |o.leases| + |o.released|
  {
    if g in o.leases {
      CardinalityAfterRemoval(o.leases, g);
    }
  }

  /** Every request is answered once, and every lease is either kept or released. */
  lemma {:induction false} ReleaseCounts(m: LeaseMap, uid: int, isRoot: bool, gpus: seq<int>)
    ensures var o := ReleaseAll(m, uid, isRoot, gpus);
            |o.released| + |o.errors| == |gpus| && |o.leases| + |o.released| == |m|
  {
    hide ReleaseOne;
    if gpus != [] {
      var k := |gpus| - 1;
      ReleaseCounts(m, uid, isRoot, gpus[..k]);
      OneAnswer(ReleaseAll(m, uid, isRoot, gpus[..k]), uid, isRoot, gpus[k]);
    }
  }

  /** Each error names a requested GPU and says truly why it was not released. */
  lemma {:induction false} ReleaseErrorsTrue(m: LeaseMap, uid: int, isRoot: bool, gpus: seq<int>)
    ensures var o := ReleaseAll(m, uid, isRoot, gpus);
            forall e :: e in o.errors ==>
              && e.gpu in gpus
              && (e.NoPause? ==> e.gpu !in m || e.gpu in o.released)
              && (e.NotHolder? ==> e.gpu in m && m[e.gpu].uid != uid && !isRoot && e.holder == m[e.gpu].user)
  {
    if gpus != [] {
      var k := |gpus| - 1;
      ReleaseErrorsTrue(m, uid, isRoot, gpus[..k]);
      ReleaseExact(m, uid, isRoot, gpus[..k]);
      assert gpus == gpus[..k] + [gpus[k]];
    }
  }

  lemma CardinalityAfterRemoval(m: LeaseMap, g: int)
    requires g in m
    ensures |m - {g}| == |m| - 1
  {
    assert (m - {g}).Keys == m.Keys - {g};
    assert |(m - {g}).Keys| == |m.Keys| - 1;
  }

  // --- agreement of memory and file -----------------------------------------

  /** A restart at any time from `t0` on would recover exactly the unexpired leases. */
  ghost predicate Recovers(s: Store, t0: real) {
    forall t :: t >= t0 ==> Loaded(map[], Lines(s.disk), t) == Unexpired(s.leases, t)
  }

  /** Line `i` is the last one of its GPU that is unexpired at `t0`. */
  predicate LastUnexpired(ls: seq<Lease>, t0: real, i: nat) {
    && i < |ls| && ls[i].expiresAt > t0
    && forall j :: i < j < |ls| && ls[j].gpu == ls[i].gpu ==> ls[j].expiresAt <= t0
  }

  /** For every GPU, no line has a later deadline than the last one unexpired at `t0`. */
  ghost predicate LastLineOutlasts(ls: seq<Lease>, t0: real) {
    forall i: nat, j: nat :: LastUnexpired(ls, t0, i) && j < |ls| && ls[j].gpu == ls[i].gpu ==>
      ls[j].expiresAt <= ls[i].expiresAt
  }

  lemma {:induction false} LoadedCovers(ls: seq<Lease>, t: real)
    ensures forall i :: 0 <= i < |ls| && ls[i].expiresAt > t ==> ls[i].gpu in Loaded(map[], ls, t)
  {
    if ls != [] {
      LoadedCovers(ls[..|ls| - 1], t);
    }
  }

  /** A loaded lease comes from the last unexpired line of its GPU. */
  lemma {:induction false} LoadedFrom(ls: seq<Lease>, t: real, g: int) returns (i: nat)
    requires g in Loaded(map[], ls, t)
    ensures LastUnexpired(ls, t, i) && ls[i].gpu == g && ls[i] == Loaded(map[], ls, t)[g]
  {
    i := |ls| - 1;
    if ls[i].gpu != g || ls[i].expiresAt <= t {
      i := LoadedFrom(ls[..i], t, g);
    }
  }

  /** Loading later keeps every lease that loading earlier kept and that is unexpired. */
  lemma {:induction false} LoadedLater(ls: seq<Lease>, t0: real, t: real, g: int)
    requires t0 <= t
    requires g in Loaded(map[], ls, t0) && Loaded(map[], ls, t0)[g].expiresAt > t
    ensures g in Loaded(map[], ls, t) && Loaded(map[], ls, t)[g] == Loaded(map[], ls, t0)[g]
  {
    var k := |ls| - 1;
    if ls[k].gpu != g || ls[k].expiresAt <= t0 {
      LoadedLater(ls[..k], t0, t, g);
    }
  }

  /** No line outlasts the lease that is loaded for its GPU. */
  lemma LoadedOutlasts(ls: seq<Lease>, t0: real, g: int)
    requires LastLineOutlasts(ls, t0) && g in Loaded(map[], ls, t0)
    ensures forall j :: 0 <= j < |ls| && ls[j].gpu == g ==> ls[j].expiresAt <= Loaded(map[], ls, t0)[g].expiresAt
  {
    var i := LoadedFrom(ls, t0, g);
    forall j | 0 <= j < |ls| && ls[j].gpu == g ensures ls[j].expiresAt <= ls[i].expiresAt {
      assert LastUnexpired(ls, t0, i);
    }
  }

  /** Then loading at a later time finds what is unexpired of what loading at `t0` found. */
  lemma OutlastingRecovers(ls: seq<Lease>, t0: real, t: real)
    requires LastLineOutlasts(ls, t0) && t0 <= t
    ensures Loaded(map[], ls, t) == Unexpired(Loaded(map[], ls, t0), t)
  {
    hide LastLineOutlasts;
    var kept, later := Loaded(map[], ls, t0), Loaded(map[], ls, t);
    forall g | g in Unexpired(kept, t) ensures g in later && later[g] == kept[g] {
      LoadedLater(ls, t0, t, g);
    }
    forall g | g in later ensures g in Unexpired(kept, t) {
      var i := LoadedFrom(ls, t, g);
      LoadedCovers(ls, t0);
      LoadedOutlasts(ls, t0, g);
    }
  }

  /** A line that outlasts the last unexpired one of its GPU is found by a later load. */
  lemma LongerLineComesBack(ls: seq<Lease>, t0: real, i: nat, j: nat)
    requires LastUnexpired(ls, t0, i) && j < |ls| && ls[j].gpu == ls[i].gpu && ls[j].expiresAt > ls[i].expiresAt
    ensures Loaded(map[], ls, ls[i].expiresAt) != Unexpired(Loaded(map[], ls, t0), ls[i].expiresAt)
  {
    var g, t := ls[i].gpu, ls[i].expiresAt;
    LoadedCovers(ls, t);
    LoadedCovers(ls, t0);
    var k := LoadedFrom(ls, t0, g);
    assert k == i;
    assert g !in Unexpired(Loaded(map[], ls, t0), t);
  }

  /** Right after `load` at `t0`, memory and file agree from `t0` on exactly when, for
      every GPU, its last line unexpired at `t0` has the latest deadline of its lines. */
  lemma LoadRecoversIff(disk: Option<seq<Lease>>, t0: real)
    ensures Recovers(Store(Loaded(map[], Lines(disk), t0), disk), t0) <==> LastLineOutlasts(Lines(disk), t0)
  {
    var ls := Lines(disk);
    var kept := Loaded(map[], ls, t0);
    if LastLineOutlasts(ls, t0) {
      forall t | t >= t0 ensures Loaded(map[], ls, t) == Unexpired(kept, t) {
        OutlastingRecovers(ls, t0, t);
      }
    } else {
      var i: nat, j: nat :| LastUnexpired(ls, t0, i) && j < |ls| && ls[j].gpu == ls[i].gpu && ls[j].expiresAt > ls[i].expiresAt;
      LongerLineComesBack(ls, t0, i, j);
    }
  }

  /** A file with a shorter lease after a longer one for the same GPU: loading at 0
      keeps the shorter, loading at 7 finds the longer again. */
  lemma DuplicateLinesDisagree()
    ensures var disk := Some([Lease(1, "a", 0, 0.0, 10.0), Lease(2, "b", 0, 0.0, 5.0)]);
            !Recovers(Store(Loaded(map[], Lines(disk), 0.0), disk), 0.0)
  {
    var ls := [Lease(1, "a", 0, 0.0, 10.0), Lease(2, "b", 0, 0.0, 5.0)];
    assert LastUnexpired(ls, 0.0, 1) && ls[0].gpu == ls[1].gpu;
    LoadRecoversIff(Some(ls), 0.0);
  }

  /** A listing of a keyed map reloads to its unexpired part. */
  lemma {:induction false} ListingReloads(ls: seq<Lease>, m: LeaseMap, t: real)
    requires Lists(ls, m)
    ensures Loaded(map[], ls, t) == Unexpired(m, t)
  {
    LoadedCovers(ls, t);
    var loaded, live := Loaded(map[], ls, t), Unexpired(m, t);
    forall g | g in live ensures g in loaded {
      var i :| 0 <= i < |ls| && ls[i] == m[g];
      assert ls[i].expiresAt > t;
    }
    forall g | g in loaded ensures g in live && live[g] == loaded[g] {
      var i := LoadedFrom(ls, t, g);
      assert m[ls[i].gpu] == ls[i];
    }
    assert loaded.Keys == live.Keys;
  }

  lemma PersistedRecovers(s: Store, t0: real)
    requires Persisted(s.disk, s.leases)
    ensures Recovers(s, t0)
  {
    forall t | t >= t0 ensures Loaded(map[], Lines(s.disk), t) == Unexpired(s.leases, t) {
      ListingReloads(Lines(s.disk), s.leases, t);
    }
  }

  /** A file this store wrote always meets the condition of `LoadRecoversIff`. */
  lemma PersistedFileOutlasts(s: Store, t0: real)
    requires Persisted(s.disk, s.leases)
    ensures LastLineOutlasts(Lines(s.disk), t0)
  {
  }

  ghost predicate IsStoreRun(ss: seq<Store>, ops: seq<StoreOp>) {
    && |ss| == |ops| + 1
    && forall i :: 0 <= i < |ops| ==> StoreStep(ss[i], ops[i], ss[i + 1])
  }

  lemma StepRecovers(s: Store, op: StoreOp, s': Store, t0: real)
    requires Recovers(s, t0) && StoreStep(s, op, s')
    ensures Recovers(s', t0)
  {
    if Persisted(s'.disk, s'.leases) {
      PersistedRecovers(s', t0);
    } else {
      NoWriteNoChange(s, op, s');
    }
  }

  /** Without a write to the file the map has not changed either. */
  lemma NoWriteNoChange(s: Store, op: StoreOp, s': Store)
    requires StoreStep(s, op, s') && !Persisted(s'.disk, s'.leases)
    ensures s' == s
  {
    match op
    case Acquire(uid, user, gpus, duration, now) =>
    case Release(uid, gpus, isRoot) =>
      var o := ReleaseAll(s.leases, uid, isRoot, gpus);
      ReleaseExact(s.leases, uid, isRoot, gpus);
      if o.released == [] {
        forall g | g in s.leases ensures g in o.leases {
          assert g !in o.released;
        }
        assert o.leases == s.leases;
      }
    case Expire(g) =>
      assert s.leases - {g} == s.leases;
    case Sweep(now) =>
      forall g | g in s.leases ensures g in Unexpired(s.leases, now) {
        assert g !in Expired(s.leases, now);
      }
      assert Unexpired(s.leases, now) == s.leases;
  }

  /** Crash agreement: from a load at `t0` on, whatever is acquired, released, expired
      or swept, at whatever clock readings, a restart at any `t >= t0` recovers exactly
      the unexpired leases. */
  lemma {:induction false} CrashAgreement(ss: seq<Store>, ops: seq<StoreOp>, disk: Option<seq<Lease>>, t0: real, i: nat)
    requires IsStoreRun(ss, ops) && i <= |ops|
    requires ss[0] == Store(Loaded(map[], Lines(disk), t0), disk)
    requires LastLineOutlasts(Lines(disk), t0)
    ensures Recovers(ss[i], t0)
  {
    hide StoreStep, Recovers, LastLineOutlasts;
    if i == 0 {
      LoadRecoversIff(disk, t0);
    } else {
      CrashAgreement(ss, ops, disk, t0, i - 1);
      StepRecovers(ss[i - 1], ops[i - 1], ss[i], t0);
    }
  }

  // --- conservation ---------------------------------------------------------

  /** Leases a step creates for GPUs that had none. */
  function FreshGrants(s: Store, op: StoreOp): nat {
    if op.Acquire? && Grantable(s.leases, op.uid, op.gpus) then |(set g | g in op.gpus) - s.leases.Keys| else 0
  }

  /** Leases a step hands back to a caller or drops as expired. */
  function Removals(s: Store, op: StoreOp): nat {
    match op
    case Acquire(_, _, _, _, _) => 0
    case Release(uid, gpus, isRoot) => |ReleaseAll(s.leases, uid, isRoot, gpus).released|
    case Expire(g) => if g in s.leases then 1 else 0
    case Sweep(now) => |Expired(s.leases, now)|
  }

  lemma GrantCounts(m: LeaseMap, m': LeaseMap, requested: set<int>)
    requires m'.Keys == m.Keys + requested
    ensures |m'| == |m| + |requested - m.Keys|
  {
    assert m'.Keys == m.Keys + (requested - m.Keys);
    assert |m'.Keys| == |m.Keys| + |requested - m.Keys|;
  }

  lemma SweepCounts(m: LeaseMap, now: real)
    ensures |Unexpired(m, now)| + |Expired(m, now)| == |m|
  {
    var kept, gone := Unexpired(m, now).Keys, Expired(m, now).Keys;
    assert m.Keys == kept + gone;
    assert |m.Keys| == |kept| + |gone|;
  }

  lemma StepConserves(s: Store, op: StoreOp, s': Store)
    requires StoreStep(s, op, s')
    ensures |s'.leases| + Removals(s, op) == |s.leases| + FreshGrants(s, op)
  {
    match op
    case Acquire(uid, user, gpus, duration, now) =>
      if Grantable(s.leases, uid, gpus) {
        GrantAllPointwise(s.leases, uid, user, gpus, duration, now);
        GrantCounts(s.leases, s'.leases, set g | g in gpus);
      }
    case Release(uid, gpus, isRoot) =>
      ReleaseCounts(s.leases, uid, isRoot, gpus);
    case Expire(g) =>
      if g in s.leases {
        CardinalityAfterRemoval(s.leases, g);
      } else {
        assert s.leases - {g} == s.leases;
      }
    case Sweep(now) =>
      SweepCounts(s.leases, now);
  }

  function TotalFresh(ss: seq<Store>, ops: seq<StoreOp>, n: nat): nat
    requires n <= |ops| && n <= |ss|
  {
    if n == 0 then 0 else TotalFresh(ss, ops, n - 1) + FreshGrants(ss[n - 1], ops[n - 1])
  }

  function TotalRemovals(ss: seq<Store>, ops: seq<StoreOp>, n: nat): nat
    requires n <= |ops| && n <= |ss|
  {
    if n == 0 then 0 else TotalRemovals(ss, ops, n - 1) + Removals(ss[n - 1], ops[n - 1])
  }

  /** From an empty store, fresh grants = leases present + leases released or expired. */
  lemma {:induction false} GrantsConserved(ss: seq<Store>, ops: seq<StoreOp>, n: nat)
    requires IsStoreRun(ss, ops) && n <= |ops|
    requires ss[0].leases == map[]
    ensures TotalFresh(ss, ops, n) == |ss[n].leases| + TotalRemovals(ss, ops, n)
  {
    hide StoreStep, FreshGrants, Removals;
    if n > 0 {
      GrantsConserved(ss, ops, n - 1);
      StepConserves(ss[n - 1], ops[n - 1], ss[n]);
    }
  }

  // --- tenure ---------------------------------------------------------------

  /** One step on a lease that stays: holder and acquisition time are kept and the
      deadline never moves back. One that goes has expired, was expired by hand, or
      was released by its holder or by root. */
  lemma StepTenure(s: Store, op: StoreOp, s': Store, g: int)
    requires StoreStep(s, op, s') && g in s.leases
    ensures g in s'.leases ==>
      && s'.leases[g].uid == s.leases[g].uid
      && s'.leases[g].acquiredAt == s.leases[g].acquiredAt
      && s'.leases[g].expiresAt >= s.leases[g].expiresAt
    ensures g !in s'.leases <==>
      || (op.Release? && g in op.gpus && (op.isRoot || op.uid == s.leases[g].uid))
      || op == StoreOp.Expire(g)
      || (op.Sweep? && s.leases[g].expiresAt <= op.now)
  {
    match op
    case Acquire(uid, user, gpus, duration, now) =>
      GrantAllPointwise(s.leases, uid, user, gpus, duration, now);
    case Release(uid, gpus, isRoot) =>
      ReleaseExact(s.leases, uid, isRoot, gpus);
    case Expire(_) =>
    case Sweep(_) =>
  }
}
