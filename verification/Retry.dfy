/** The retry schedule: exponential ceilings with equal jitter (src/shared/events/retry.ts). */
module Retry {
  import opened Prelude

  datatype Policy = Policy(maxAttempts: int, baseMs: int, maxMs: int)

  const DEFAULT_RETRY := Policy(12, 500, 300000)

  function Pow2(n: nat): (p: int)
    ensures p > 0
  {
    if n == 0 then 1 else 2 * Pow2(n - 1)
  }

  function Ceiling(policy: Policy, attempt: int): int {
    Min(policy.maxMs, policy.baseMs * Pow2(Max(0, Min(attempt - 1, 30))))
  }

  /** `random` stands for one reading of `random()`. */
  function RetryDelay(policy: Policy, attempt: int, random: real): int {
    var half := Ceiling(policy, attempt) as real / 2.0;
    (half + random * half).Floor
  }

  predicate Exhausted(policy: Policy, attempt: int) { attempt >= policy.maxAttempts }

  predicate IsRandom(random: real) { 0.0 <= random < 1.0 }

  /** Equal jitter: at least half the ceiling, and below the ceiling. */
  lemma DelayBounds(policy: Policy, attempt: int, random: real)
    requires IsRandom(random) && Ceiling(policy, attempt) > 0
    ensures Ceiling(policy, attempt) / 2 <= RetryDelay(policy, attempt, random) < Ceiling(policy, attempt)
  {
    JitterBounds(Ceiling(policy, attempt), random);
  }

  lemma JitterBounds(ceiling: int, random: real)
    requires IsRandom(random) && ceiling > 0
    ensures var half := ceiling as real / 2.0; ceiling / 2 <= (half + random * half).Floor < ceiling
  {
    var half := ceiling as real / 2.0;
    ScaleDown(random, half);
    var jitter := random * half;
    assert half <= half + jitter < ceiling as real;
    assert (ceiling / 2) as real <= half;
  }

  lemma ScaleDown(random: real, half: real)
    requires IsRandom(random) && half > 0.0
    ensures 0.0 <= random * half < half
  {
    assert (1.0 - random) * half > 0.0;
  }

  /** Ceilings start at the base, double with each attempt up to the thirty-first, and never pass the maximum. */
  lemma CeilingDoubles(policy: Policy, n: int)
    requires policy.baseMs > 0 && policy.maxMs > 0 && n >= 1
    ensures Ceiling(policy, 1) == if policy.baseMs <= policy.maxMs then policy.baseMs else policy.maxMs
    ensures n <= 30 ==> Ceiling(policy, n + 1)
                        == if 2 * Ceiling(policy, n) <= policy.maxMs then 2 * Ceiling(policy, n) else policy.maxMs
    ensures n >= 31 ==> Ceiling(policy, n) == Ceiling(policy, 31)
  {
    if n <= 30 {
      var p := Pow2(n - 1);
      assert Pow2(n) == 2 * p;
      Doubles(policy.baseMs, p);
    }
  }

  lemma Doubles(base: int, p: int)
    requires base > 0 && p > 0
    ensures base * (2 * p) == 2 * (base * p) && base * p > 0
  {
  }

  /** A greater random reading never waits less. */
  lemma DelayMonotone(policy: Policy, attempt: int, a: real, b: real)
    requires Ceiling(policy, attempt) > 0 && a <= b
    ensures RetryDelay(policy, attempt, a) <= RetryDelay(policy, attempt, b)
  {
    ScaleMonotone(a, b, Ceiling(policy, attempt) as real / 2.0);
  }

  /** Every whole delay from half the ceiling up to, not including, the ceiling comes up for some reading. */
  lemma DelaySpans(policy: Policy, attempt: int, delay: int) returns (random: real)
    requires Ceiling(policy, attempt) > 0 && Ceiling(policy, attempt) / 2 <= delay < Ceiling(policy, attempt)
    ensures IsRandom(random) && RetryDelay(policy, attempt, random) == delay
  {
    var half := Ceiling(policy, attempt) as real / 2.0;
    if delay as real <= half {
      random := 0.0;
      assert half + random * half == half;
    } else {
      Fraction(delay as real - half, half);
      random := (delay as real - half) / half;
      assert random * half == delay as real - half;
    }
  }

  lemma ScaleMonotone(a: real, b: real, half: real)
    requires a <= b && half > 0.0
    ensures (half + a * half).Floor <= (half + b * half).Floor
  {
    assert (b - a) * half >= 0.0;
  }

  lemma Fraction(x: real, y: real)
    requires 0.0 <= x < y
    ensures 0.0 <= x / y < 1.0
  {
  }

  function TotalWait(policy: Policy, randoms: seq<real>): int {
    if |randoms| == 0 then 0
    else TotalWait(policy, randoms[..|randoms| - 1]) + RetryDelay(policy, |randoms|, randoms[|randoms| - 1])
  }

  function TotalCeiling(policy: Policy, n: nat): int {
    if n == 0 then 0 else TotalCeiling(policy, n - 1) + Ceiling(policy, n)
  }

  lemma {:induction false} TotalBounds(policy: Policy, randoms: seq<real>)
    requires forall i | 0 <= i < |randoms| :: IsRandom(randoms[i])
    requires forall n | 1 <= n <= |randoms| :: Ceiling(policy, n) > 0 && Ceiling(policy, n) % 2 == 0
    ensures TotalCeiling(policy, |randoms|) <= 2 * TotalWait(policy, randoms)
    ensures TotalWait(policy, randoms) + |randoms| <= TotalCeiling(policy, |randoms|)
    decreases |randoms|
  {
    if |randoms| > 0 {
      TotalBounds(policy, randoms[..|randoms| - 1]);
      DelayBounds(policy, |randoms|, randoms[|randoms| - 1]);
    }
  }

  lemma DefaultCeilings()
    ensures forall n | 1 <= n <= 10 :: Ceiling(DEFAULT_RETRY, n) == 500 * Pow2(n - 1)
    ensures Ceiling(DEFAULT_RETRY, 11) == 300000
    ensures TotalCeiling(DEFAULT_RETRY, 11) == 811500
  {
    assert Pow2(0) == 1 && Pow2(2) == 4 && Pow2(4) == 16 && Pow2(6) == 64 && Pow2(8) == 256 && Pow2(10) == 1024;
    assert TotalCeiling(DEFAULT_RETRY, 2) == 1500;
    assert TotalCeiling(DEFAULT_RETRY, 4) == 7500;
    assert TotalCeiling(DEFAULT_RETRY, 6) == 31500;
    assert TotalCeiling(DEFAULT_RETRY, 8) == 127500;
    assert TotalCeiling(DEFAULT_RETRY, 10) == 511500;
  }

  /** Before a delivery is dead-lettered under the default policy it waits 405,750 ms up to, not including, 811,500 ms. */
  lemma DefaultTotalWait(randoms: seq<real>)
    requires |randoms| == DEFAULT_RETRY.maxAttempts - 1
    requires forall i | 0 <= i < |randoms| :: IsRandom(randoms[i])
    ensures 405750 <= TotalWait(DEFAULT_RETRY, randoms) < 811500
  {
    DefaultCeilings();
    TotalBounds(DEFAULT_RETRY, randoms);
  }
}
