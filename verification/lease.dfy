/** Per-GPU pause leases: the in-memory lease map, the state file behind it, and
    the operations that change them (src/ocp/lease.py). */
module Leases {
  import opened Wrappers

  datatype Lease = Lease(uid: int, user: string, gpu: int, acquiredAt: real, expiresAt: real)

  type LeaseMap = map<int, Lease>

  datatype Conflict = Conflict(gpu: int, holder: string, remainingS: int)

  datatype ReleaseError = NoPause(gpu: int) | NotHolder(gpu: int, holder: string)

  datatype ReleaseOutcome = ReleaseOutcome(leases: LeaseMap, released: seq<int>, errors: seq<ReleaseError>)

  /** Every lease is filed under its own GPU. */
  predicate Keyed(m: LeaseMap) {
    forall g :: g in m ==> m[g].gpu == g
  }

  /** Whole seconds left, never negative. */
  function RemainingS(l: Lease, now: real): nat {
    if l.expiresAt <= now then 0 else (l.expiresAt - now).Floor
  }

  function MaxReal(a: real, b: real): real {
    if a < b then b else a
  }

  // --- acquire --------------------------------------------------------------

  predicate Foreign(m: LeaseMap, uid: int, g: int) {
    g in m && m[g].uid != uid
  }

  function ConflictOf(l: Lease, g: int, now: real): Conflict {
    Conflict(g, l.user, RemainingS(l, now))
  }

  function Conflicts(m: LeaseMap, uid: int, gpus: seq<int>, now: real): seq<Conflict> {
    if gpus == [] then [] else
      var k := |gpus| - 1;
      Conflicts(m, uid, gpus[..k], now)
      + if Foreign(m, uid, gpus[k]) then [ConflictOf(m[gpus[k]], gpus[k], now)] else []
  }

  /** The lease a request leaves on `g`: acquisition time kept, deadline never shrunk. */
  function Granted(m: LeaseMap, uid: int, user: string, g: int, duration: real, now: real): Lease {
    Lease(uid, user, g,
          if g in m then m[g].acquiredAt else now,
          MaxReal(if g in m then m[g].expiresAt else 0.0, now + duration))
  }

  function GrantAll(m: LeaseMap, uid: int, user: string, gpus: seq<int>, duration: real, now: real): LeaseMap {
    if gpus == [] then m else
      var k := |gpus| - 1;
      var before := GrantAll(m, uid, user, gpus[..k], duration, now);
      before[gpus[k] := Granted(before, uid, user, gpus[k], duration, now)]
  }

  /** Repeats in the request change nothing: the map after a grant is the pointwise
      extension of the map before it. */
  lemma {:induction false} GrantAllPointwise(m: LeaseMap, uid: int, user: string, gpus: seq<int>, duration: real, now: real)
    ensures var m' := GrantAll(m, uid, user, gpus, duration, now);
            && m'.Keys == m.Keys + (set g | g in gpus)
            && (forall g :: g in gpus ==> m'[g] == Granted(m, uid, user, g, duration, now))
            && (forall g :: g in m && g !in gpus ==> m'[g] == m[g])
  {
    if gpus != [] {
      var k := |gpus| - 1;
      GrantAllPointwise(m, uid, user, gpus[..k], duration, now);
      assert gpus == gpus[..k] + [gpus[k]];
    }
  }

  /** Granting a GPU that this request has already been granted changes nothing. */
  lemma GrantRepeats(m: LeaseMap, uid: int, user: string, gpus: seq<int>, g: int, duration: real, now: real)
    requires g in gpus
    ensures var m' := GrantAll(m, uid, user, gpus, duration, now);
            g in m' && m'[g] == Granted(m', uid, user, g, duration, now)
  {
    GrantAllPointwise(m, uid, user, gpus, duration, now);
  }

  // --- release --------------------------------------------------------------

  predicate Releasable(m: LeaseMap, uid: int, isRoot: bool, g: int) {
    g in m && (m[g].uid == uid || isRoot)
  }

  function ReleaseOne(o: ReleaseOutcome, uid: int, isRoot: bool, g: int): ReleaseOutcome {
    if g !in o.leases then o.(errors := o.errors + [NoPause(g)])
    else if o.leases[g].uid != uid && !isRoot then o.(errors := o.errors + [NotHolder(g, o.leases[g].user)])
    else o.(leases := o.leases - {g}, released := o.released + [g])
  }

  function ReleaseAll(m: LeaseMap, uid: int, isRoot: bool, gpus: seq<int>): ReleaseOutcome {
    if gpus == [] then ReleaseOutcome(m, [], []) else
      var k := |gpus| - 1;
      ReleaseOne(ReleaseAll(m, uid, isRoot, gpus[..k]), uid, isRoot, gpus[k])
  }

  // --- expiry and restart ---------------------------------------------------

  function Unexpired(m: LeaseMap, now: real): LeaseMap {
    map g | g in m && m[g].expiresAt > now :: m[g]
  }

  function Expired(m: LeaseMap, now: real): LeaseMap {
    map g | g in m && m[g].expiresAt <= now :: m[g]
  }

  /** `ls` holds each lease of `m` exactly once, in some order. */
  ghost predicate Lists(ls: seq<Lease>, m: LeaseMap) {
    && (forall i :: 0 <= i < |ls| ==> ls[i].gpu in m && m[ls[i].gpu] == ls[i])
    && (forall g :: g in m ==> m[g].gpu == g && m[g] in ls)
    && (forall i, j :: 0 <= i < j < |ls| ==> ls[i].gpu != ls[j].gpu)
  }

  lemma EmptyListing(ls: seq<Lease>, m: LeaseMap)
    requires Lists(ls, m)
    ensures ls == [] <==> m == map[]
  {
    if ls != [] {
      assert ls[0].gpu in m;
    } else {
      assert forall g :: g !in m;
    }
  }

  /** What `load` makes of the lines of the state file: a later line wins. */
  function Loaded(m: LeaseMap, ls: seq<Lease>, now: real): LeaseMap {
    if ls == [] then m else
      var k := |ls| - 1;
      var before := Loaded(m, ls[..k], now);
      if ls[k].expiresAt > now then before[ls[k].gpu := ls[k]] else before
  }

  function LiveLines(ls: seq<Lease>, now: real): seq<Lease> {
    if ls == [] then [] else
      var k := |ls| - 1;
      LiveLines(ls[..k], now) + if ls[k].expiresAt > now then [ls[k]] else []
  }

  function Lines(disk: Option<seq<Lease>>): seq<Lease> {
    if disk.Some? then disk.value else []
  }

  /** `persist` has just run: the file lists the map. */
  ghost predicate Persisted(disk: Option<seq<Lease>>, m: LeaseMap) {
    disk.Some? && Lists(disk.value, m)
  }

  /** The lease map together with the state file. */
  datatype Store = Store(leases: LeaseMap, disk: Option<seq<Lease>>)

  datatype StoreOp =
    | Acquire(uid: int, user: string, gpus: seq<int>, duration: real, now: real)
    | Release(uid: int, gpus: seq<int>, isRoot: bool)
    | Expire(gpu: int)
    | Sweep(now: real)

  /** `s` and `s'` are before and after a mutation that leaves the map at `leases`
      and persists exactly when `persists` holds. */
  ghost predicate Mutated(s: Store, leases: LeaseMap, persists: bool, s': Store) {
    && s'.leases == leases
    && (if persists then Persisted(s'.disk, leases) else s'.disk == s.disk)
  }

  predicate Grantable(m: LeaseMap, uid: int, gpus: seq<int>) {
    forall g :: g in gpus ==> !Foreign(m, uid, g)
  }

  ghost predicate StoreStep(s: Store, op: StoreOp, s': Store) {
    match op
    case Acquire(uid, user, gpus, duration, now) =>
      if Grantable(s.leases, uid, gpus)
      then Mutated(s, GrantAll(s.leases, uid, user, gpus, duration, now), true, s')
      else s' == s
    case Release(uid, gpus, isRoot) =>
      var o := ReleaseAll(s.leases, uid, isRoot, gpus);
      Mutated(s, o.leases, o.released != [], s')
    case Expire(g) =>
      Mutated(s, s.leases - {g}, g in s.leases, s')
    case Sweep(now) =>
      Mutated(s, Unexpired(s.leases, now), Expired(s.leases, now) != map[], s')
  }

  /** The in-memory map of leases and the file it is persisted to. */
  class LeaseStore {
    var leases: LeaseMap
    var disk: Option<seq<Lease>>

    ghost predicate Valid() reads this { Keyed(leases) }

    ghost function View(): Store reads this { Store(leases, disk) }

    constructor (disk: Option<seq<Lease>>)
      ensures Valid() && leases == map[] && this.disk == disk
    {
      leases := map[];
      this.disk := disk;
    }

    method All() returns (out: seq<Lease>)
      requires Valid()
      ensures Lists(out, leases)
    {
      out := Values(leases);
    }

    predicate Covers(g: int) reads this { g in leases }

    method Acquire(uid: int, user: string, gpus: seq<int>, duration: real, now: real)
      returns (r: Result<seq<Lease>, seq<Conflict>>)
      requires Valid()
      modifies this
      ensures Valid()
      ensures StoreStep(old(View()), StoreOp.Acquire(uid, user, gpus, duration, now), View())
      ensures r.Ok? <==> Grantable(old(leases), uid, gpus)
      ensures r.Err? ==> r.error == Conflicts(leases, uid, gpus, now)
      ensures r.Ok? ==> |r.value| == |gpus| && forall i :: 0 <= i < |gpus| ==> gpus[i] in leases && r.value[i] == leases[gpus[i]]
    {
      var conflicts: seq<Conflict> := [];
      for i := 0 to |gpus|
        invariant conflicts == Conflicts(leases, uid, gpus[..i], now)
        invariant leases == old(leases) && disk == old(disk)
      {
        assert gpus[..i + 1][..i] == gpus[..i];
        var g := gpus[i];
        if g in leases && leases[g].uid != uid {
          conflicts := conflicts + [Conflict(g, leases[g].user, RemainingS(leases[g], now))];
        }
      }
      assert gpus[..|gpus|] == gpus;
      ConflictsExact(leases, uid, gpus, now);
      if conflicts != [] {
        return Err(conflicts);
      }
      var newLeases := Install(uid, user, gpus, duration, now);
      Persist();
      r := Ok(newLeases);
    }

    /** The second half of `Acquire`: writes one lease per request. */
    method Install(uid: int, user: string, gpus: seq<int>, duration: real, now: real) returns (newLeases: seq<Lease>)
      requires Valid()
      modifies this`leases
      ensures Valid()
      ensures leases == GrantAll(old(leases), uid, user, gpus, duration, now)
      ensures |newLeases| == |gpus| && forall i :: 0 <= i < |gpus| ==> gpus[i] in leases && newLeases[i] == leases[gpus[i]]
    {
      newLeases := [];
      ghost var m := leases;
      for i := 0 to |gpus|
        invariant leases == GrantAll(m, uid, user, gpus[..i], duration, now)
        invariant |newLeases| == i
        invariant forall k :: 0 <= k < i ==> gpus[k] in leases && newLeases[k] == leases[gpus[k]]
        invariant Valid()
      {
        assert gpus[..i + 1][..i] == gpus[..i];
        var g := gpus[i];
        var newExpires := MaxReal(if g in leases then leases[g].expiresAt else 0.0, now + duration);
        var acquiredAt := if g in leases then leases[g].acquiredAt else now;
        var lease := Lease(uid, user, g, acquiredAt, newExpires);
        if g in gpus[..i] {
          GrantRepeats(m, uid, user, gpus[..i], g, duration, now);
        }
        leases := leases[g := lease];
        newLeases := newLeases + [lease];
      }
      assert gpus[..|gpus|] == gpus;
    }

    method Release(uid: int, gpus: seq<int>, isRoot: bool)
      returns (released: seq<int>, errors: seq<ReleaseError>)
      requires Valid()
      modifies this
      ensures Valid()
      ensures StoreStep(old(View()), StoreOp.Release(uid, gpus, isRoot), View())
      ensures ReleaseOutcome(leases, released, errors) == ReleaseAll(old(leases), uid, isRoot, gpus)
    {
      released, errors := [], [];
      ghost var m := leases;
      for i := 0 to |gpus|
        invariant ReleaseOutcome(leases, released, errors) == ReleaseAll(m, uid, isRoot, gpus[..i])
        invariant Valid() && disk == old(disk) && (released == [] ==> leases == m)
      {
        assert gpus[..i + 1][..i] == gpus[..i];
        var g := gpus[i];
        if g !in leases {
          errors := errors + [NoPause(g)];
        } else if leases[g].uid != uid && !isRoot {
          errors := errors + [NotHolder(g, leases[g].user)];
        } else {
          leases := leases - {g};
          released := released + [g];
        }
      }
      assert gpus[..|gpus|] == gpus;
      if released != [] {
        Persist();
      }
    }

    method Expire(g: int) returns (popped: Option<Lease>)
      requires Valid()
      modifies this
      ensures Valid()
      ensures StoreStep(old(View()), StoreOp.Expire(g), View())
      ensures popped == if g in old(leases) then Some(old(leases)[g]) else None
    {
      if g !in leases {
        return None;
      }
      popped := Some(leases[g]);
      leases := leases - {g};
      Persist();
    }

    method SweepExpired(now: real) returns (out: seq<Lease>)
      requires Valid()
      modifies this
      ensures Valid()
      ensures StoreStep(old(View()), StoreOp.Sweep(now), View())
      ensures Lists(out, Expired(old(leases), now))
    {
      out := Values(Expired(leases, now));
      ghost var m := leases;
      for i := 0 to |out|
        invariant leases == m - (set k | 0 <= k < i :: out[k].gpu)
        invariant disk == old(disk)
      {
        leases := leases - {out[i].gpu};
      }
      forall g | g in m ensures g in leases <==> m[g].expiresAt > now {
        if m[g].expiresAt <= now {
          assert Expired(m, now)[g] in out;
        }
      }
      assert leases == Unexpired(m, now);
      if out != [] {
        assert out[0].gpu in Expired(m, now);
        Persist();
      } else {
        assert Expired(m, now).Keys == {};
      }
    }

    method Load(now: real) returns (loaded: seq<Lease>)
      requires Valid()
      modifies this
      ensures Valid() && disk == old(disk)
      ensures leases == Loaded(old(leases), Lines(disk), now)
      ensures loaded == LiveLines(Lines(disk), now)
    {
      loaded := [];
      if disk.None? {
        return;
      }
      var ls := disk.value;
      ghost var m := leases;
      for i := 0 to |ls|
        invariant leases == Loaded(m, ls[..i], now)
        invariant loaded == LiveLines(ls[..i], now)
        invariant Valid() && disk == Some(ls)
      {
        assert ls[..i + 1][..i] == ls[..i];
        if ls[i].expiresAt > now {
          leases := leases[ls[i].gpu := ls[i]];
          loaded := loaded + [ls[i]];
        }
      }
      assert ls[..|ls|] == ls;
    }

    /** Writes the file anew and replaces the old one in a single step. */
    method Persist()
      requires Valid()
      modifies this`disk
      ensures Persisted(disk, leases)
    {
      var data := Values(leases);
      disk := Some(data);
    }
  }

  /** The values of a lease map as a list. */
  method Values(m: LeaseMap) returns (out: seq<Lease>)
    requires Keyed(m)
    ensures Lists(out, m)
  {
    out := [];
    var todo := m.Keys;
    while todo != {}
      invariant todo <= m.Keys
      invariant Lists(out, m - todo)
    {
      var g := Pick(todo);
      ghost var before, listed := out, m - todo;
      out := out + [m[g]];
      todo := todo - {g};
      forall h | h in m - todo ensures (m - todo)[h] in out {
        if h != g {
          assert h in listed && listed[h] in before;
        }
      }
    }
    assert m - {} == m;
  }

  /** The positions of the requests another user holds, in request order. */
  function ForeignAt(m: LeaseMap, uid: int, gpus: seq<int>): (at: seq<nat>)
    ensures forall i, j :: 0 <= i < j < |at| ==> at[i] < at[j]
    ensures forall i :: 0 <= i < |at| ==> at[i] < |gpus| && gpus[at[i]] in m && m[gpus[at[i]]].uid != uid
    ensures forall k: nat :: k < |gpus| && gpus[k] in m && m[gpus[k]].uid != uid ==> k in at
  {
    if gpus == [] then [] else
      var k := |gpus| - 1;
      ForeignAt(m, uid, gpus[..k]) + if Foreign(m, uid, gpus[k]) then [k] else []
  }

  /** The seconds told are the whole ones left, none once the lease has expired. */
  predicate TellsTimeLeft(c: Conflict, l: Lease, now: real) {
    if l.expiresAt <= now then c.remainingS == 0
    else 0 <= c.remainingS && c.remainingS as real <= l.expiresAt - now < (c.remainingS + 1) as real
  }

  /** `c` is what a request for `gpus` is told about its position `k`. */
  predicate ToldAt(c: Conflict, m: LeaseMap, gpus: seq<int>, k: nat, now: real) {
    && k < |gpus| && gpus[k] in m
    && c.gpu == gpus[k] && c.holder == m[gpus[k]].user && TellsTimeLeft(c, m[gpus[k]], now)
  }

  lemma ConflictTells(m: LeaseMap, gpus: seq<int>, k: nat, now: real)
    requires k < |gpus| && gpus[k] in m
    ensures ToldAt(ConflictOf(m[gpus[k]], gpus[k], now), m, gpus, k, now)
  {
  }

  lemma ToldOfMore(c: Conflict, m: LeaseMap, gpus: seq<int>, n: nat, k: nat, now: real)
    requires n <= |gpus| && ToldAt(c, m, gpus[..n], k, now)
    ensures ToldAt(c, m, gpus, k, now)
  {
  }

  /** A refused request is told of exactly its foreign-held GPUs, in request order, with the
      name of the holder and the time left. */
  lemma {:induction false} ConflictsExact(m: LeaseMap, uid: int, gpus: seq<int>, now: real)
    ensures var c, at := Conflicts(m, uid, gpus, now), ForeignAt(m, uid, gpus);
            |c| == |at| && forall i :: 0 <= i < |c| ==> ToldAt(c[i], m, gpus, at[i], now)
    ensures Conflicts(m, uid, gpus, now) == [] <==> forall g :: g in gpus && g in m ==> m[g].uid == uid
  {
    hide ConflictOf, ToldAt;
    if gpus != [] {
      var k := |gpus| - 1;
      var c, at := Conflicts(m, uid, gpus[..k], now), ForeignAt(m, uid, gpus[..k]);
      ConflictsExact(m, uid, gpus[..k], now);
      assert gpus == gpus[..k] + [gpus[k]];
      forall i | 0 <= i < |c| ensures ToldAt(c[i], m, gpus, at[i], now) {
        ToldOfMore(c[i], m, gpus, k, at[i], now);
      }
      if gpus[k] in m {
        ConflictTells(m, gpus, k, now);
      }
    }
  }
}
