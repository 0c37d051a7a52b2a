/**
 * Instants and durations of Go's `time` package as integer nanoseconds.
 *
 * An instant is a count of nanoseconds since 1970-01-01T00:00:00Z (unbounded:
 * `time.Time` spans more than a 64-bit nanosecond count). A duration
 * (`time.Duration`) is a signed 64-bit nanosecond count, so the difference of two
 * instants saturates at the bounds of that range, as `Time.Sub` does.
 */
module TimeMath {

  const NanosPerSecond: int := 1_000_000_000
  const NanosPerHour: int := 3600 * NanosPerSecond
  const NanosPerDay: int := 86400 * NanosPerSecond

  /** Bounds of `time.Duration` (an int64). */
  const MinDuration: int := -0x8000_0000_0000_0000
  const MaxDuration: int := 0x7FFF_FFFF_FFFF_FFFF

  /** 2017-01-01T00:00:00Z, that is 17167 days after the Unix epoch. */
  const Jan1st2017: int := 17167 * NanosPerDay

  predicate IsDuration(d: int) {
    MinDuration <= d <= MaxDuration
  }

  /**
   * `t.Sub(u)`: the duration `t - u`, or the nearest bound of `time.Duration`
   * when that difference does not fit.
   */
  function Sub(t: int, u: int): (d: int)
    ensures IsDuration(d)
    ensures IsDuration(t - u) ==> d == t - u
    ensures t - u > MaxDuration ==> d == MaxDuration
    ensures t - u < MinDuration ==> d == MinDuration
  {
    if t - u > MaxDuration then MaxDuration
    else if t - u < MinDuration then MinDuration
    else t - u
  }

  /** `t.AddDate(0, 0, days)` for an instant in UTC (a day is exactly 86400 seconds). */
  function AddDays(t: int, days: int): (r: int)
    ensures r - t == days * 86400 * NanosPerSecond
  {
    t + days * NanosPerDay
  }

  /**
   * Go's integer division, which truncates toward zero (Dafny's `/` is Euclidean).
   * The quotient has the sign of `a` and the largest magnitude with `|q| * b <= |a|`.
   */
  function TruncDiv(a: int, b: int): (q: int)
    requires b > 0
    ensures a >= 0 ==> 0 <= q && q * b <= a < q * b + b
    ensures a < 0 ==> q <= 0 && -a - b < -q * b <= -a
  {
    if a >= 0 then
      DivBounds(a, b);
      a / b
    else
      DivBounds(-a, b);
      -((-a) / b)
  }

  /** Euclidean division of a non-negative numerator, as bounds on the quotient. */
  lemma DivBounds(n: int, b: int)
    requires n >= 0 && b > 0
    ensures 0 <= n / b && (n / b) * b <= n < (n / b) * b + b
  {
    var q, r := n / b, n % b;
    assert q * b + r == n && 0 <= r < b;
  }

  /**
   * `int64(notAfter.Sub(now).Hours())`: the whole hours from `now` until `notAfter`,
   * truncated toward zero; negative once `notAfter` has passed.
   */
  function HoursUntil(notAfter: int, now: int): (h: int)
    ensures IsDuration(notAfter - now) && notAfter >= now ==>
              0 <= h && h * NanosPerHour <= notAfter - now < (h + 1) * NanosPerHour
    ensures IsDuration(notAfter - now) && notAfter < now ==>
              h <= 0 && (h - 1) * NanosPerHour < notAfter - now <= h * NanosPerHour
  {
    TruncDiv(Sub(notAfter, now), NanosPerHour)
  }

  /** A certificate that expired 90 minutes ago is "-1 hours" away, not -2. */
  lemma HoursUntilTruncatesTowardZero(now: int)
    ensures HoursUntil(now - 90 * 60 * NanosPerSecond, now) == -1
  {
  }
}
