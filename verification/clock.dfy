/** Instants and durations as chrono represents them, and chrono's
    truncating conversion of a duration to whole seconds and minutes. */
module Clock {

  /** An instant: nanoseconds since the Unix epoch, the resolution of
      chrono's `DateTime<Utc>`. */
  type Instant = int

  /** A signed duration in nanoseconds, as chrono's `TimeDelta`. */
  type Duration = int

  const NanosPerMilli: int := 1_000_000
  const NanosPerSecond: int := 1_000_000_000
  const SecondsPerMinute: int := 60
  const NanosPerMinute: int := SecondsPerMinute * NanosPerSecond
  const NanosPerDay: int := 24 * 60 * NanosPerMinute

  /** Integer division rounding toward zero, as Rust's `/` on integers
      (Dafny's own `/` is Euclidean). */
  function TruncDiv(a: int, b: int): (q: int)
    requires b > 0
    ensures a >= 0 ==> 0 <= q * b <= a < q * b + b
    ensures a < 0 ==> q * b - b < a <= q * b <= 0
  {
    var n := if a >= 0 then a else -a;
    var p := n / b;
    assert n == p * b + n % b && 0 <= n % b < b;
    if a >= 0 then p else -p
  }

  /** `TimeDelta::num_seconds`: whole seconds, truncated toward zero. */
  function NumSeconds(d: Duration): (r: int)
    ensures d >= 0 ==> 0 <= r * NanosPerSecond <= d < r * NanosPerSecond + NanosPerSecond
    ensures d < 0 ==> r * NanosPerSecond - NanosPerSecond < d <= r * NanosPerSecond <= 0
  {
    TruncDiv(d, NanosPerSecond)
  }

  /** `TimeDelta::num_minutes`: whole seconds divided by 60, truncated
      toward zero. */
  function NumMinutes(d: Duration): (r: int)
    ensures d >= 0 ==> 0 <= r * NanosPerMinute <= d < r * NanosPerMinute + NanosPerMinute
    ensures d < 0 ==> r * NanosPerMinute - NanosPerMinute < d <= r * NanosPerMinute <= 0
  {
    TruncDiv(NumSeconds(d), SecondsPerMinute)
  }

  /** For a non-negative numerator, Euclidean division reaches k exactly
      when the numerator reaches k whole divisors. */
  lemma DivAtLeast(a: int, b: int, k: int)
    requires a >= 0 && b > 0
    ensures a / b >= k <==> a >= k * b
  {
    var q, r := a / b, a % b;
    assert a == q * b + r && 0 <= r < b;
    if q >= k {
      assert q * b >= k * b;
    } else {
      assert q <= k - 1;
      assert q * b <= (k - 1) * b;
    }
  }

  /** A duration has more than m whole minutes exactly when it is at least
      m + 1 minutes long; truncation toward zero keeps every negative
      duration at or below zero minutes. */
  lemma NumMinutesExceeds(d: Duration, m: nat)
    ensures NumMinutes(d) > m <==> d >= (m + 1) * NanosPerMinute
  {
    if d >= 0 {
      var s := d / NanosPerSecond;
      assert NumSeconds(d) == s;
      DivAtLeast(s, SecondsPerMinute, m + 1);
      DivAtLeast(d, NanosPerSecond, (m + 1) * SecondsPerMinute);
      assert (m + 1) * SecondsPerMinute * NanosPerSecond == (m + 1) * NanosPerMinute;
    } else {
      assert NumSeconds(d) <= 0;
      assert NumMinutes(d) <= 0;
    }
  }
}
