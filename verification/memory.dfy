/** How the memory controller sizes its allocations (src/ocp/worker/memory.py). Bytes are
    integers, fractions real numbers. */
module MemorySizing {
  import opened Wrappers

  /** Share of the device memory that is never exceeded. */
  const VRAM_CAP_FRAC := 0.95

  function TargetBytes(memMb: Option<nat>, memFrac: Option<real>, total: nat): int {
    if memMb.Some? then memMb.value * 1024 * 1024
    else (total as real * if memFrac.Some? then memFrac.value else 0.5).Floor
  }

  function Min(a: int, b: int): int { if a <= b then a else b }

  function Max(a: int, b: int): int { if a < b then b else a }

  /** `_random_size`. The random generator answers some number between target and upper
      end; `pick` stands for which. */
  function RandomSize(target: int, cap: int, noise: real, pick: nat): int {
    if noise == 0.0 then Min(target, cap) else
      var upper := UpperEnd(target, cap, noise);
      if upper <= target then Min(target, cap) else target + pick % (upper - target + 1)
  }

  /** The largest size with noise: the target plus twice the noise, under the cap. */
  function UpperEnd(target: int, cap: int, noise: real): (upper: int)
    ensures upper <= cap
  {
    Min((target as real * (1.0 + 2.0 * noise)).Floor, cap)
  }

  lemma SizeInRange(target: int, cap: int, noise: real, pick: nat)
    requires target <= cap
    ensures target <= RandomSize(target, cap, noise, pick) <= cap
  {
  }

  /** Every size between target and upper end can come up, and no other. */
  lemma SizesReachable(target: int, cap: int, noise: real, size: int)
    requires noise != 0.0 && target <= cap
    ensures (exists pick: nat :: RandomSize(target, cap, noise, pick) == size) <==>
            target <= size <= Max(target, Min((target as real * (1.0 + 2.0 * noise)).Floor, cap))
  {
    assert UpperEnd(target, cap, noise) == Min((target as real * (1.0 + 2.0 * noise)).Floor, cap);
    hide UpperEnd;
    var upper := UpperEnd(target, cap, noise);
    if target <= size <= Max(target, upper) {
      var pick: nat := size - target;
      SmallMod(pick, Max(target, upper) - target + 1);
      assert RandomSize(target, cap, noise, pick) == size;
    }
    forall pick: nat ensures target <= RandomSize(target, cap, noise, pick) <= Max(target, upper) {
      if upper > target {
        ModBound(pick, upper - target + 1);
      }
    }
  }

  lemma SmallMod(a: nat, b: nat)
    requires a < b
    ensures a % b == a
  {
  }

  lemma ModBound(a: nat, b: nat)
    requires b > 0
    ensures 0 <= a % b < b
  {
  }

  /** Without noise every size is the target. */
  lemma NoNoiseNoSpread(target: int, cap: int, pick: nat)
    requires target <= cap
    ensures RandomSize(target, cap, 0.0, pick) == target
  {
  }

  /** The target: so many MiB if given, else that share of the memory, rounded down, one
      half by default. */
  lemma TargetTells(memMb: Option<nat>, memFrac: Option<real>, total: nat)
    ensures memMb.Some? ==> TargetBytes(memMb, memFrac, total) == 1048576 * memMb.value
    ensures memMb.None? && memFrac.Some? ==>
              var t := TargetBytes(memMb, memFrac, total);
              t as real <= total as real * memFrac.value < (t + 1) as real
    ensures memMb.None? && memFrac.None? ==>
              var t := TargetBytes(memMb, memFrac, total);
              2 * t <= total < 2 * (t + 1)
  {
  }

  /** The cap after a failed allocation. */
  function Shrunk(cap: int, target: int): int { Max(9 * cap / 10, target) }

  function CapAfter(cap: int, target: int, failures: nat): int {
    if failures == 0 then cap else Shrunk(CapAfter(cap, target, failures - 1), target)
  }

  /** Number of failed rounds. */
  function Failures(outcomes: seq<bool>): nat {
    if outcomes == [] then 0 else
      Failures(outcomes[..|outcomes| - 1]) + if outcomes[|outcomes| - 1] then 0 else 1
  }

  /** The size asked for in round `k`. */
  function RequestAt(target: int, cap0: int, noise: real, outcomes: seq<bool>, picks: seq<nat>, k: nat): int
    requires k < |outcomes| == |picks|
  {
    RandomSize(target, CapAfter(cap0, target, Failures(outcomes[..k])), noise, picks[k])
  }

  /** The controller over a run of rounds: `outcomes` says which allocations succeed,
      `picks` what the generator answers. Returns the clamped target, the first cap, the
      sizes asked for and the cap left at the end. */
  method Run(memMb: Option<nat>, memFrac: Option<real>, noise: real, total: nat, outcomes: seq<bool>, picks: seq<nat>)
    returns (target: int, cap0: int, sizes: seq<int>, cap: int)
    requires |picks| == |outcomes|
    ensures 100 * cap0 <= 95 * total < 100 * (cap0 + 1)
    ensures target == Min(TargetBytes(memMb, memFrac, total), cap0)
    ensures cap == CapAfter(cap0, target, Failures(outcomes))
    ensures |sizes| == |outcomes|
    ensures forall k :: 0 <= k < |sizes| ==> sizes[k] == RequestAt(target, cap0, noise, outcomes, picks, k)
  {
    target := TargetBytes(memMb, memFrac, total);
    cap0 := (total as real * VRAM_CAP_FRAC).Floor;
    if target > cap0 {
      target := cap0;
    }
    sizes, cap := Rounds(target, cap0, noise, outcomes, picks);
  }

  /** The loop of `Run`. */
  method Rounds(target: int, cap0: int, noise: real, outcomes: seq<bool>, picks: seq<nat>) returns (sizes: seq<int>, cap: int)
    requires |picks| == |outcomes|
    ensures cap == CapAfter(cap0, target, Failures(outcomes))
    ensures |sizes| == |outcomes|
    ensures forall k :: 0 <= k < |sizes| ==> sizes[k] == RequestAt(target, cap0, noise, outcomes, picks, k)
  {
    cap, sizes := cap0, [];
    for k := 0 to |outcomes|
      invariant |sizes| == k
      invariant cap == CapAfter(cap0, target, Failures(outcomes[..k]))
      invariant forall i :: 0 <= i < k ==> sizes[i] == RequestAt(target, cap0, noise, outcomes, picks, i)
    {
      assert outcomes[..k + 1][..k] == outcomes[..k];
      sizes := sizes + [RandomSize(target, cap, noise, picks[k])];
      if !outcomes[k] {
        cap := Max(9 * cap / 10, target);
      }
    }
    assert outcomes[..|outcomes|] == outcomes;
  }

  lemma {:induction false} CapStaysInRange(cap: int, target: int, n: nat)
    requires 0 <= target <= cap
    ensures target <= CapAfter(cap, target, n) <= cap
  {
    if n > 0 {
      CapStaysInRange(cap, target, n - 1);
    }
  }

  /** Through any run of failures and successes every size asked for lies between the
      target and the cap of its round, which lies between target and first cap. */
  lemma RequestsInRange(target: int, cap0: int, noise: real, outcomes: seq<bool>, picks: seq<nat>, k: nat)
    requires 0 <= target <= cap0 && k < |outcomes| == |picks|
    ensures var cap := CapAfter(cap0, target, Failures(outcomes[..k]));
            target <= RequestAt(target, cap0, noise, outcomes, picks, k) <= cap <= cap0
  {
    CapStaysInRange(cap0, target, Failures(outcomes[..k]));
    SizeInRange(target, CapAfter(cap0, target, Failures(outcomes[..k])), noise, picks[k]);
  }

  /** Each failure strictly shrinks a cap above the target, to nine tenths of it rounded
      down, and never passes below the target. */
  lemma FailureShrinks(cap: int, target: int)
    requires 0 <= target <= cap
    ensures target <= Shrunk(cap, target) <= cap
    ensures Shrunk(cap, target) < cap <==> cap > target
    ensures Shrunk(cap, target) == target || (10 * Shrunk(cap, target) <= 9 * cap < 10 * (Shrunk(cap, target) + 1))
    ensures Shrunk(cap, target) == target ==> 9 * cap < 10 * (target + 1)
  {
  }

  /** The cap after one more round: unchanged if the allocation succeeds, else nine tenths of
      it rounded down but not less than the target. */
  lemma RoundTells(target: int, cap0: int, outcomes: seq<bool>)
    ensures CapAfter(cap0, target, Failures([])) == cap0
    ensures CapAfter(cap0, target, Failures(outcomes + [true])) == CapAfter(cap0, target, Failures(outcomes))
    ensures var cap := CapAfter(cap0, target, Failures(outcomes));
            CapAfter(cap0, target, Failures(outcomes + [false])) == if 9 * cap / 10 < target then target else 9 * cap / 10
  {
    assert (outcomes + [true])[..|outcomes|] == outcomes && (outcomes + [false])[..|outcomes|] == outcomes;
  }

  function Pow(b: nat, n: nat): nat {
    if n == 0 then 1 else b * Pow(b, n - 1)
  }

  /** After `n` failures the cap has reached the target or has shrunk to at most
      (9/10)^n of what it was. */
  lemma {:induction false} FailuresShrinkGeometrically(cap: nat, target: nat, n: nat)
    requires target <= cap
    ensures var c := CapAfter(cap, target, n);
            target <= c <= cap && (c == target || Pow(10, n) * c <= Pow(9, n) * cap)
  {
    if n > 0 {
      FailuresShrinkGeometrically(cap, target, n - 1);
      var before, after := CapAfter(cap, target, n - 1), CapAfter(cap, target, n);
      if after != target {
        ShrinkScaled(Pow(10, n - 1), Pow(9, n - 1), before, after, cap);
      }
    }
  }

  /** One round of shrinking by nine tenths, with `p` and `q` for the powers before it. */
  lemma ShrinkScaled(p: nat, q: nat, before: nat, after: nat, cap: nat)
    requires 10 * after <= 9 * before && p * before <= q * cap
    ensures 10 * p * after <= 9 * q * cap
  {
    ScaleBoth(p, 10 * after, 9 * before);
    calc {
      10 * p * after;
    == { Regroup(10, p, after); }
      p * (10 * after);
    <=
      p * (9 * before);
    == { Regroup(9, p, before); }
      9 * (p * before);
    <=
      9 * (q * cap);
    == { Regroup(9, q, cap); }
      9 * q * cap;
    }
  }

  lemma Regroup(k: nat, a: nat, b: nat)
    ensures k * a * b == a * (k * b) == k * (a * b)
  {
  }

  lemma ScaleBoth(k: nat, a: int, b: int)
    requires a <= b
    ensures k * a <= k * b
  {
  }

  /** After at most as many failures as the cap exceeds the target by, the cap is the
      target, and every later request asks for exactly the target. */
  lemma {:induction false} FailuresReachTarget(cap: nat, target: nat, n: nat)
    requires target <= cap && n >= cap - target
    ensures CapAfter(cap, target, n) == target
    ensures forall noise: real, pick: nat :: RandomSize(target, CapAfter(cap, target, n), noise, pick) == target
  {
    FailuresShrinkByOne(cap, target, n);
  }

  lemma {:induction false} FailuresShrinkByOne(cap: nat, target: nat, n: nat)
    requires target <= cap
    ensures target <= CapAfter(cap, target, n) <= Max(cap - n, target)
  {
    if n > 0 {
      FailuresShrinkByOne(cap, target, n - 1);
    }
  }
}
