/** Restart and backoff policies of a worker. */
module Policies {
  import opened Prelude

  const NANOS_PER_SEC := 1_000_000_000
  const U64_SIZE := 0x1_0000_0000_0000_0000
  const U128_MAX := 0xFFFF_FFFF_FFFF_FFFF_FFFF_FFFF_FFFF_FFFF

  type u64 = x: int | 0 <= x < U64_SIZE
  type subsec = x: int | 0 <= x < NANOS_PER_SEC

  datatype Duration = Duration(secs: u64, nanos: subsec)

  const ZERO := Duration(0, 0)

  function AsNanos(d: Duration): nat { d.secs * NANOS_PER_SEC + d.nanos }

  datatype BackoffPolicy =
    | NoBackoff
    | Fixed(d: Duration)
    | Exponential(base: Duration, max: Duration)

  function Pow2(n: nat): nat { if n == 0 then 1 else 2 * Pow2(n - 1) }

  function SaturatingMul(a: nat, b: nat): nat { Min(a * b, U128_MAX) }

  /** The delay before the next attempt. The quotient is cast to u64, so it is
      taken modulo 2^64 here. */
  function Delay(p: BackoffPolicy, attempt: u32): Duration {
    match p
    case NoBackoff => ZERO
    case Fixed(d) => d
    case Exponential(base, max) =>
      if AsNanos(base) == 0 || AsNanos(max) == 0 then ZERO
      else
        var shift := Min(attempt, 63);
        var scaled := SaturatingMul(AsNanos(base), Pow2(shift));
        var chosen := Min(scaled, AsNanos(max));
        Duration((chosen / NANOS_PER_SEC) % U64_SIZE, chosen % NANOS_PER_SEC)
  }

  /** The delay the policy is meant to give, with unbounded arithmetic. */
  function IdealDelay(base: nat, max: nat, attempt: nat): nat { Min(base * Pow2(attempt), max) }

  lemma {:induction false} Pow2Monotone(m: nat, n: nat)
    requires m <= n
    ensures 1 <= Pow2(m) <= Pow2(n)
    ensures m < n ==> 2 * Pow2(m) <= Pow2(n)
    decreases n
  {
    if n > 0 {
      if m < n {
        Pow2Monotone(m, n - 1);
      } else {
        Pow2Monotone(m - 1, n - 1);
      }
    }
  }

  lemma ScaleMonotone(a: nat, b: nat, c: nat)
    requires b <= c
    ensures a * b <= a * c
  {
  }

  lemma SplitIsExact(n: nat)
    requires n / NANOS_PER_SEC < U64_SIZE
    ensures AsNanos(Duration((n / NANOS_PER_SEC) % U64_SIZE, n % NANOS_PER_SEC)) == n
  {
  }

  lemma QuotientFits(n: nat, d: Duration)
    requires n <= AsNanos(d)
    ensures n / NANOS_PER_SEC <= d.secs
  {
  }

  /** Neither the saturating product nor the u64/u32 split loses anything. */
  lemma ExponentialDelayIsExact(base: Duration, max: Duration, attempt: u32)
    ensures AsNanos(Delay(Exponential(base, max), attempt))
         == IdealDelay(AsNanos(base), AsNanos(max), Min(attempt, 63))
  {
    var product := AsNanos(base) * Pow2(Min(attempt, 63));
    var cap := AsNanos(max);
    if AsNanos(base) != 0 && cap != 0 {
      var chosen := Min(SaturatingMul(AsNanos(base), Pow2(Min(attempt, 63))), cap);
      assert chosen == Min(product, cap);
      QuotientFits(chosen, max);
      SplitIsExact(chosen);
    } else if AsNanos(base) == 0 {
      assert product == 0;
    }
  }

  /** No backoff means no delay and a fixed one is the same before every attempt;
      there is no delay exactly without a backoff or with a zero in it. */
  lemma DelayIsZeroExactlyWhen(p: BackoffPolicy, attempt: u32)
    ensures AsNanos(Delay(p, attempt)) == 0
        <==> || p.NoBackoff?
             || (p.Fixed? && AsNanos(p.d) == 0)
             || (p.Exponential? && (AsNanos(p.base) == 0 || AsNanos(p.max) == 0))
    ensures p.Fixed? ==> AsNanos(Delay(p, attempt)) == AsNanos(p.d)
  {
    if p.Exponential? {
      ExponentialDelayIsExact(p.base, p.max, attempt);
      Pow2Monotone(0, Min(attempt, 63));
      ScaleMonotone(AsNanos(p.base), 1, Pow2(Min(attempt, 63)));
    }
  }

  lemma DelayIsCappedAndMonotone(base: Duration, max: Duration, a: u32, b: u32)
    requires a <= b
    ensures AsNanos(Delay(Exponential(base, max), a)) <= AsNanos(Delay(Exponential(base, max), b))
         <= AsNanos(max)
  {
    ExponentialDelayIsExact(base, max, a);
    ExponentialDelayIsExact(base, max, b);
    Pow2Monotone(Min(a, 63), Min(b, 63));
    ScaleMonotone(AsNanos(base), Pow2(Min(a, 63)), Pow2(Min(b, 63)));
  }

  /** Capping the exponent at 63 is visible exactly for a nonzero base whose
      63-fold doubling is still below the cap. */
  lemma DelayIsIdealExactlyWhen(base: Duration, max: Duration, attempt: u32)
    ensures AsNanos(Delay(Exponential(base, max), attempt))
            == IdealDelay(AsNanos(base), AsNanos(max), attempt)
        <==> attempt <= 63 || AsNanos(base) == 0 || AsNanos(base) * Pow2(63) >= AsNanos(max)
  {
    ExponentialDelayIsExact(base, max, attempt);
    if attempt > 63 {
      Pow2Monotone(63, attempt);
      LargerScaleIsHidden(AsNanos(base), AsNanos(max), Pow2(63), Pow2(attempt));
    }
  }

  /** Capping hides a doubled scale factor exactly when the smaller product
      already reaches the cap. */
  lemma LargerScaleIsHidden(base: nat, max: nat, small: nat, large: nat)
    requires 1 <= small && 2 * small <= large
    ensures Min(base * small, max) == Min(base * large, max) <==> base == 0 || base * small >= max
  {
    ScaleMonotone(base, 2 * small, large);
    assert base * (2 * small) == 2 * (base * small);
    ScaleMonotone(base, 1, small);
  }

  datatype RestartPolicy = Never | OnFailure | Always | MaxRetries(retries: u32, window: nat)

  /** `window` is not consulted; the caller supplies the count. */
  predicate ShouldRestart(p: RestartPolicy, hasFailed: bool, failuresInWindow: u32) {
    match p
    case Never => false
    case OnFailure => hasFailed
    case Always => true
    case MaxRetries(retries, _) => hasFailed && failuresInWindow < retries
  }
}
