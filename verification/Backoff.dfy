/** The delay schedule of the reconnect loop, and what a whole reconnect may cost. */
module Backoff {
  import opened Wrappers
  import opened Durations

  /** Double, saturating, then cap. */
  function NextBackoff(current: Duration, max: Duration): (r: Duration)
    ensures Total(r) == Min(2 * Total(current), Total(max))
  {
    OrderIsTotal(max, LONGEST);
    Shorter(SaturatingDouble(current), max)
  }

  /** Equal jitter: half the delay, plus a clamped random share of the other half. */
  function ApplyJitter(base: Duration, unit: real): (r: Duration)
    ensures Total(base) / 2 <= Total(r) <= Total(base)
    ensures unit <= 0.0 ==> Total(r) == Total(base) / 2
    ensures unit >= 1.0 ==> Total(r) == 2 * (Total(base) / 2)
  {
    var half := Half(base);
    OrderIsTotal(half, LONGEST);
    OrderIsTotal(base, LONGEST);
    Add(half, Scale(half, Clamp(unit)))
  }

  /** In between, the random unit is the share of the second half, to within half a nanosecond. */
  lemma JitterIsEqual(base: Duration, unit: real)
    requires 0.0 <= unit <= 1.0
    ensures var half := Total(base) / 2;
            -0.5 <= (Total(ApplyJitter(base, unit)) - half) as real - half as real * unit <= 0.5
  {
    hide Total, Half, Scale, Add;
    var half := Half(base);
    var share := Scale(half, unit);
    OrderIsTotal(base, LONGEST);
    LongestIsLongest(base);
    assert ApplyJitter(base, unit) == Add(half, share);
  }

  lemma LongestIsLongest(d: Duration)
    ensures Total(d) <= Total(LONGEST)
  {
  }

  /** The delay before jitter after failed dial number `k`, counting from zero. */
  function Delay(initial: Duration, max: Duration, k: nat): Duration {
    if k == 0 then initial else NextBackoff(Delay(initial, max, k - 1), max)
  }

  function Pow2(k: nat): (p: nat)
    ensures p >= 1
  {
    if k == 0 then 1 else 2 * Pow2(k - 1)
  }

  lemma Pow2Monotone(j: nat, k: nat)
    requires j <= k
    ensures Pow2(j) <= Pow2(k)
  {
    if j < k {
      Pow2Monotone(j, k - 1);
    }
  }

  lemma ScaleMonotone(a: nat, x: nat, y: nat)
    requires x <= y
    ensures a * x <= a * y
  {
  }

  lemma PowerStep(i: nat, k: nat)
    ensures i * Pow2(k + 1) == 2 * (i * Pow2(k))
  {
    var p := Pow2(k);
    assert i * (2 * p) == 2 * (i * p);
  }

  /** Delay number k is the initial backoff doubled k times and capped, as unbounded naturals. */
  lemma {:induction false} DelayIsCappedPower(initial: Duration, max: Duration, k: nat)
    requires AtMost(initial, max)
    ensures Total(Delay(initial, max, k)) == Min(Total(initial) * Pow2(k), Total(max))
  {
    OrderIsTotal(initial, max);
    if k > 0 {
      DelayIsCappedPower(initial, max, k - 1);
      PowerStep(Total(initial), k - 1);
    }
  }

  /** Delays never shrink and never reach zero. */
  lemma DelayGrows(initial: Duration, max: Duration, j: nat, k: nat)
    requires AtMost(initial, max) && initial != ZERO && j <= k
    ensures 0 < Total(initial) <= Total(Delay(initial, max, j)) <= Total(Delay(initial, max, k)) <= Total(max)
  {
    OrderIsTotal(initial, max);
    OrderIsTotal(initial, ZERO);
    DelayIsCappedPower(initial, max, j);
    DelayIsCappedPower(initial, max, k);
    Pow2Monotone(j, k);
    ScaleMonotone(Total(initial), 1, Pow2(j));
    ScaleMonotone(Total(initial), Pow2(j), Pow2(k));
  }

  /** The sum of the first `n` delays, in nanoseconds. */
  ghost function DelaySum(initial: Duration, max: Duration, n: nat): nat {
    if n == 0 then 0 else DelaySum(initial, max, n - 1) + Total(Delay(initial, max, n - 1))
  }

  /** How many delays stay strictly below the cap. */
  function Crossover(initial: nat, max: nat): nat
    requires initial > 0
    decreases max - initial
  {
    if initial >= max then 0 else 1 + Crossover(2 * initial, max)
  }

  lemma {:induction false} CrossoverIsExact(initial: nat, max: nat, k: nat)
    requires initial > 0
    ensures k < Crossover(initial, max) <==> initial * Pow2(k) < max
    decreases k
  {
    if k == 0 {
    } else if initial >= max {
      ScaleMonotone(initial, 1, Pow2(k));
    } else {
      CrossoverIsExact(2 * initial, max, k - 1);
      var p := Pow2(k - 1);
      assert initial * (2 * p) == (2 * initial) * p;
    }
  }

  lemma GeometricStep(i: nat, k: nat)
    ensures i * (Pow2(k) - 1) + i * Pow2(k) == i * (Pow2(k + 1) - 1)
  {
    assert Pow2(k + 1) == 2 * Pow2(k);
    var p := Pow2(k);
    assert i * (p - 1) + i * p == i * (2 * p - 1);
  }

  lemma LinearStep(m: nat, x: int)
    ensures m * x + m == m * (x + 1)
  {
  }

  /** Geometric up to the crossover, linear after it. */
  ghost function ClosedForm(i: nat, m: nat, n: nat): nat
    requires i > 0
  {
    var below := Min(n, Crossover(i, m));
    i * (Pow2(below) - 1) + m * (n - below)
  }

  lemma ClosedFormStep(i: nat, m: nat, n: nat)
    requires i > 0
    ensures ClosedForm(i, m, n + 1) == ClosedForm(i, m, n) + Min(i * Pow2(n), m)
  {
    CrossoverIsExact(i, m, n);
    var c := Crossover(i, m);
    if n < c {
      GeometricStep(i, n);
    } else {
      LinearStep(m, n - c);
    }
  }

  lemma {:induction false} DelaySumClosedForm(initial: Duration, max: Duration, n: nat)
    requires AtMost(initial, max) && initial != ZERO
    ensures Total(initial) > 0
    ensures DelaySum(initial, max, n) == ClosedForm(Total(initial), Total(max), n)
  {
    OrderIsTotal(initial, ZERO);
    if n > 0 {
      DelaySumClosedForm(initial, max, n - 1);
      DelayIsCappedPower(initial, max, n - 1);
      ClosedFormStep(Total(initial), Total(max), n - 1);
    }
  }
}
