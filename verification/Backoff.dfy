/** The delays of internal/kafka: doubling up to a bound, with equal jitter, in 64-bit
    nanoseconds. */
module Backoff {

  const MAX64 := 0x7FFF_FFFF_FFFF_FFFF
  const TWO_TO_64 := 0x1_0000_0000_0000_0000

  /** Go's int64 arithmetic wraps around. */
  function Wrap64(x: int): (r: int)
    ensures -MAX64 - 1 <= r <= MAX64
    ensures -MAX64 - 1 <= x <= MAX64 ==> r == x
  {
    var m := x % TWO_TO_64;
    if MAX64 < m then m - TWO_TO_64 else m
  }

  function NextBackoff(current: int, retryMax: int): int {
    var doubled := Wrap64(current * 2);
    if retryMax < doubled then retryMax else doubled
  }

  /** `seed` stands for the random source: `Int63n(n)` is some number below n. */
  function WithJitterEqual(d: int, seed: nat): int {
    if d <= 0 then 0
    else
      var half := d / 2;
      half + seed % (d - half + 1)
  }

  function MinDuration(a: int, b: int): int { if a < b then a else b }

  /** The sleep before a retry lies between half the delay and the delay, and can be anything
      between the two. */
  lemma JitterRange(d: int, x: int)
    ensures forall seed: nat :: (if 0 < d then d / 2 else 0) <= WithJitterEqual(d, seed) <= (if 0 < d then d else 0)
    ensures 0 < d && d / 2 <= x <= d ==> exists seed: nat :: WithJitterEqual(d, seed) == x
  {
    if 0 < d && d / 2 <= x <= d {
      var seed: nat := x - d / 2;
      assert seed < d - d / 2 + 1;
      SmallMod(seed, d - d / 2 + 1);
      assert WithJitterEqual(d, seed) == x;
    }
  }

  lemma SmallMod(a: nat, n: nat)
    requires a < n
    ensures a % n == a
  {}

  function Pow2(k: nat): (r: nat)
    ensures k < r
  {
    if k == 0 then 1 else 2 * Pow2(k - 1)
  }

  /** The delay before the k-th consecutive retry, as the loop computes it. */
  function Delay(retryInitial: int, retryMax: int, k: nat): int {
    if k == 0 then retryInitial else NextBackoff(Delay(retryInitial, retryMax, k - 1), retryMax)
  }

  /** The delay as it is meant: doubling, bounded from the first doubling on. */
  function Intended(retryInitial: int, retryMax: int, k: nat): int {
    if k == 0 then retryInitial else MinDuration(Pow2(k) * retryInitial, retryMax)
  }

  lemma PowStep(a: int, k: nat)
    requires 1 <= a
    ensures Pow2(k + 1) * a == 2 * (Pow2(k) * a) && a <= Pow2(k) * a && k < Pow2(k) * a
  {
    Product(Pow2(k), a);
    assert Pow2(k + 1) == 2 * Pow2(k);
  }

  lemma Product(p: int, a: int)
    requires 1 <= p && 1 <= a
    ensures p <= p * a && a <= p * a && (2 * p) * a == 2 * (p * a)
  {}

  lemma {:induction false} DelayIsIntended(retryInitial: int, retryMax: int, k: nat)
    requires 1 <= retryInitial <= MAX64 / 2 && 1 <= retryMax <= MAX64 / 2
    ensures Delay(retryInitial, retryMax, k) == Intended(retryInitial, retryMax, k)
    ensures 1 <= Delay(retryInitial, retryMax, k) <= MAX64 / 2
  {
    if k == 0 {
    } else {
      DelayIsIntended(retryInitial, retryMax, k - 1);
      PowStep(retryInitial, k - 1);
    }
  }

  lemma DelayStep(retryInitial: int, retryMax: int, k: nat)
    ensures Delay(retryInitial, retryMax, k + 1) == NextBackoff(Delay(retryInitial, retryMax, k), retryMax)
  {}

  lemma IntendedBounded(retryInitial: int, retryMax: int, k: nat)
    requires 1 <= retryInitial && 1 <= retryMax <= k
    ensures Intended(retryInitial, retryMax, k) == retryMax
  {
    PowStep(retryInitial, k);
  }

  /** Doubling anything larger wraps to a negative delay, which is no delay at all. */
  lemma DoublingWraps(current: int, retryMax: int)
    requires MAX64 / 2 < current <= MAX64 && 1 <= retryMax
    ensures NextBackoff(current, retryMax) < 0
  {
    assert (current * 2) % TWO_TO_64 == current * 2;
  }

  lemma FirstDoublingWraps(retryInitial: int, retryMax: int)
    requires MAX64 / 2 < retryInitial <= MAX64 && 1 <= retryMax
    ensures Delay(retryInitial, retryMax, 1) != Intended(retryInitial, retryMax, 1)
  {
    hide NextBackoff, Pow2;
    DoublingWraps(retryInitial, retryMax);
    DelayStep(retryInitial, retryMax, 0);
    assert Delay(retryInitial, retryMax, 1) < 0;
    PowStep(retryInitial, 0);
    assert 0 < Pow2(1) * retryInitial;
    assert 0 < Intended(retryInitial, retryMax, 1);
  }

  /** Once the delay has reached a maximum over half of 64 bits, the next one wraps. */
  lemma LaterDoublingWraps(retryInitial: int, retryMax: int)
    requires 1 <= retryInitial && MAX64 / 2 < retryMax <= MAX64
    ensures exists k: nat :: Delay(retryInitial, retryMax, k) != Intended(retryInitial, retryMax, k)
  {
    var n: nat := retryMax;
    IntendedBounded(retryInitial, retryMax, n);
    IntendedBounded(retryInitial, retryMax, n + 1);
    DoublingWraps(retryMax, retryMax);
    hide Intended, NextBackoff, Delay;
    DelayStep(retryInitial, retryMax, n);
    assert Delay(retryInitial, retryMax, n) != Intended(retryInitial, retryMax, n)
           || Delay(retryInitial, retryMax, n + 1) != Intended(retryInitial, retryMax, n + 1);
  }

  /** The loop computes the intended delays if and only if neither setting exceeds half of
      what 64 bits hold. */
  lemma BackoffExact(retryInitial: int, retryMax: int)
    requires 1 <= retryInitial <= MAX64 && 1 <= retryMax <= MAX64
    ensures (forall k: nat :: Delay(retryInitial, retryMax, k) == Intended(retryInitial, retryMax, k))
            <==> retryInitial <= MAX64 / 2 && retryMax <= MAX64 / 2
  {
    if retryInitial <= MAX64 / 2 && retryMax <= MAX64 / 2 {
      hide Delay, Intended;
      forall k: nat ensures Delay(retryInitial, retryMax, k) == Intended(retryInitial, retryMax, k) {
        DelayIsIntended(retryInitial, retryMax, k);
      }
    } else if MAX64 / 2 < retryInitial {
      FirstDoublingWraps(retryInitial, retryMax);
    } else {
      LaterDoublingWraps(retryInitial, retryMax);
    }
  }
}
