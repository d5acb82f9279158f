/**
 * Retry strategies: how long to wait before retry number n, and whether the retries are used
 * up. Durations are int64 nanosecond counts; the random jitter is a parameter (entropy) that
 * maps the capped delay to the delay actually slept.
 */
module RetryStrategy {
  import opened Wrappers
  import opened StringUtil

  predicate InInt64(x: int)
  {
    MinInt64 <= x <= MaxInt64
  }

  /** Two's-complement wrap-around of an int64 result. */
  function Wrap64(x: int): (w: int)
    ensures InInt64(w)
    ensures InInt64(x) ==> w == x
  {
    (x - MinInt64) % 0x1_0000_0000_0000_0000 + MinInt64
  }

  /** Go's integer division, truncating toward zero. */
  function Quot(a: int, b: int): (q: int)
    requires b != 0
    ensures 0 <= a && 0 < b ==> q == a / b
    ensures 0 <= a && b < 0 ==> q <= 0
  {
    if 0 < b then (if 0 <= a then a / b else -((-a) / b))
    else if 0 <= a then -NonNegQuot(a, -b)
    else (-a) / (-b)
  }

  function NonNegQuot(a: nat, b: int): (q: int)
    requires 0 < b
    ensures q >= 0
  {
    DivNonNegative(a, b);
    a / b
  }

  lemma DivNonNegative(a: nat, b: int)
    requires 0 < b
    ensures a / b >= 0
  {
    var q, r := a / b, a % b;
    assert a == q * b + r && r < b;
    if q < 0 {
      MulLe(q, -1, b);
    }
  }

  /** min: r when l is greater, l otherwise. */
  function Min(l: int, r: int): (m: int)
    ensures m <= l && m <= r
    ensures m == l || m == r
  {
    if l > r then r else l
  }

  lemma MulLe(a: int, b: int, r: int)
    requires a <= b && 0 < r
    ensures a * r <= b * r
  {
    assert b * r - a * r == (b - a) * r;
  }

  /** For a positive divisor, l is at most m / r exactly when l * r is at most m. */
  lemma DivisionBound(l: int, r: int, m: nat)
    ensures 0 < r ==> (l <= m / r <==> l * r <= m)
  {
    if r <= 0 {
      return;
    }
    var q, rem := m / r, m % r;
    assert m == q * r + rem && 0 <= rem < r;
    if l <= q {
      MulLe(l, q, r);
    } else {
      MulLe(q + 1, l, r);
      assert (q + 1) * r == q * r + r;
    }
  }

  /**
   * checkedMulInt64: the product when an operand is 0 or l is at most MaxInt64 / r, and an
   * overflow error otherwise. For non-negative operands the error comes exactly when the
   * true product exceeds MaxInt64.
   */
  function CheckedMul(l: int, r: int): (p: Result<int>)
    requires InInt64(l) && InInt64(r)
    ensures (l == 0 || r == 0) ==> p == Ok(0)
    ensures 0 <= l && 0 < r ==> (p.Ok? <==> l * r <= MaxInt64)
    ensures 0 <= l && 0 <= r && p.Ok? ==> p.value == l * r
    ensures 0 < l && r < 0 ==> p.Err?
    ensures p.Ok? ==> InInt64(p.value)
  {
    DivisionBound(l, r, MaxInt64);
    if l == 0 || r == 0 then Ok(Wrap64(l * r))
    else if l > Quot(MaxInt64, r) then Err("overflow")
    else Ok(Wrap64(l * r))
  }

  function Pow2(n: nat): (p: nat)
    ensures p >= 1
  {
    if n == 0 then 1 else 2 * Pow2(n - 1)
  }

  lemma {:induction false} Pow2Monotone(m: nat, n: nat)
    requires m <= n
    ensures Pow2(m) <= Pow2(n)
  {
    if m < n {
      Pow2Monotone(m, n - 1);
    }
  }

  /** 1 << 62 is the largest power of two an int64 holds. */
  lemma Pow2Fits(n: nat)
    requires n < 63
    ensures Pow2(n) <= MaxInt64
  {
    Pow2Monotone(n, 62);
    assert Pow2(62) == 0x4000_0000_0000_0000 by {
      Pow2Value62();
    }
  }

  lemma Pow2Value62()
    ensures Pow2(62) == 0x4000_0000_0000_0000
  {
    Pow2Value31();
    Pow2Add(31, 31);
  }

  lemma {:induction false} Pow2Add(a: nat, b: nat)
    ensures Pow2(a + b) == Pow2(a) * Pow2(b)
  {
    if b > 0 {
      Pow2Add(a, b - 1);
    }
  }

  /** A strategy: never retry, or back off exponentially up to a retry budget. */
  datatype Strategy =
    | Never
    | ExponentialBackOff(base: int, max: int, maxRetryCount: nat, entropy: int -> int)

  predicate WellTyped(s: Strategy)
  {
    s.ExponentialBackOff? ==> InInt64(s.base) && InInt64(s.max)
  }

  /**
   * Sleep: the delay before retry number retryCount and whether the retries are used up.
   * Never is always used up. The back-off is used up from maxRetryCount on; before that it
   * waits entropy of the base times 2^retryCount, capped by max, where an exponent of 63
   * or more or an overflowing product waits entropy of MaxInt64 capped by max.
   */
  function Sleep(s: Strategy, retryCount: nat): (r: (int, bool))
    requires WellTyped(s)
  {
    match s
    case Never => (0, true)
    case ExponentialBackOff(base, max, maxRetryCount, entropy) =>
      if retryCount >= maxRetryCount then (0, true)
      else if retryCount >= 63 then (entropy(Min(MaxInt64, max)), false)
      else
        Pow2Fits(retryCount);
        match CheckedMul(Pow2(retryCount), base)
        case Err(_) => (entropy(Min(MaxInt64, max)), false)
        case Ok(delay) => (entropy(Min(delay, max)), false)
  }

  /** The delay the back-off aims for before jitter: base * 2^n saturated at MaxInt64. */
  function Saturated(base: nat, n: nat): (d: nat)
    ensures d <= MaxInt64
  {
    if base * Pow2(n) <= MaxInt64 then base * Pow2(n) else MaxInt64
  }

  /** Never never waits and is always used up. */
  lemma NeverSleep(retryCount: nat)
    ensures Sleep(Never, retryCount) == (0, true)
  {
  }

  /**
   * The back-off is used up, with no delay, exactly from maxRetryCount on; before that, with a
   * non-negative base, it waits entropy(min(base * 2^n saturated at MaxInt64, max)), except
   * that from retry 63 on a zero base also waits entropy(min(MaxInt64, max)).
   */
  lemma BackOffSleep(s: Strategy, n: nat)
    requires s.ExponentialBackOff? && WellTyped(s) && s.base >= 0
    ensures Sleep(s, n).1 <==> n >= s.maxRetryCount
    ensures Sleep(s, n).1 ==> Sleep(s, n).0 == 0
    ensures n < s.maxRetryCount && n < 63 ==> Sleep(s, n).0 == s.entropy(Min(Saturated(s.base, n), s.max))
    ensures n < s.maxRetryCount && 63 <= n ==> Sleep(s, n).0 == s.entropy(Min(MaxInt64, s.max))
  {
    if n < s.maxRetryCount && n < 63 {
      Pow2Fits(n);
      var p := CheckedMul(Pow2(n), s.base);
      if s.base == 0 {
        assert p == Ok(0);
      } else {
        assert p.Ok? <==> Pow2(n) * s.base <= MaxInt64;
      }
    }
  }

  /** From retry 63 on a positive base saturates anyway, so its delay follows the same rule. */
  lemma LateRetrySaturates(base: nat, n: nat)
    requires 0 < base && 63 <= n
    ensures Saturated(base, n) == MaxInt64
  {
    Pow2Monotone(63, n);
    Pow2Add(62, 1);
    Pow2Value62();
  }

  /** A negative base always takes the overflow branch: checkedMulInt64 rejects every positive l. */
  lemma NegativeBaseWaitsMax(s: Strategy, n: nat)
    requires s.ExponentialBackOff? && WellTyped(s) && s.base < 0 && n < s.maxRetryCount
    ensures Sleep(s, n) == (s.entropy(Min(MaxInt64, s.max)), false)
  {
    if n < 63 {
      Pow2Fits(n);
    }
  }

  /** The strategy tests without a base: retries up to the budget wait nothing (entropy is the identity). */
  lemma SleepZeroBaseExamples(id: int -> int)
    requires forall i :: id(i) == i
    ensures Sleep(ExponentialBackOff(0, MaxInt64, 0, id), 0) == (0, true)
    ensures Sleep(ExponentialBackOff(0, MaxInt64, 1, id), 0) == (0, false)
    ensures Sleep(ExponentialBackOff(0, MaxInt64, 1, id), 1) == (0, true)
  {
    BackOffSleep(ExponentialBackOff(0, MaxInt64, 1, id), 0);
  }

  /** The strategy tests with a one-second base: 1s, then 2s, or 1s when max is 1s. */
  lemma SleepSecondExamples(id: int -> int)
    requires forall i :: id(i) == i
    ensures Sleep(ExponentialBackOff(1_000_000_000, MaxInt64, 2, id), 0) == (1_000_000_000, false)
    ensures Sleep(ExponentialBackOff(1_000_000_000, MaxInt64, 2, id), 1) == (2_000_000_000, false)
    ensures Sleep(ExponentialBackOff(1_000_000_000, 1_000_000_000, 2, id), 1) == (1_000_000_000, false)
  {
    BackOffSleep(ExponentialBackOff(1_000_000_000, MaxInt64, 2, id), 0);
    BackOffSleep(ExponentialBackOff(1_000_000_000, MaxInt64, 2, id), 1);
    BackOffSleep(ExponentialBackOff(1_000_000_000, 1_000_000_000, 2, id), 1);
  }

  /** The strategy test at retry 63: the exponent is too large, so the wait is MaxInt64. */
  lemma SleepLateExample(id: int -> int)
    requires forall i :: id(i) == i
    ensures Sleep(ExponentialBackOff(1_000_000_000, MaxInt64, 64, id), 63) == (MaxInt64, false)
  {
  }

  /** The strategy test where 100s * 2^31 overflows, so the wait is MaxInt64. */
  lemma SleepOverflowExample(id: int -> int)
    requires forall i :: id(i) == i
    ensures Sleep(ExponentialBackOff(100_000_000_000, MaxInt64, 32, id), 31) == (MaxInt64, false)
  {
    BackOffSleep(ExponentialBackOff(100_000_000_000, MaxInt64, 32, id), 31);
    Pow2Value31();
  }

  lemma Pow2Value31()
    ensures Pow2(31) == 0x8000_0000
  {
    Pow2Add(8, 8);
    assert Pow2(16) == 0x1_0000;
    Pow2Add(16, 8);
    assert Pow2(24) == 0x100_0000;
    Pow2Add(24, 7);
  }
}
