/** The retry schedule: saturating exponential backoff, downward jitter, provider floor. Durations are nanoseconds. */
module Retry {
  import opened Common

  const U128_MAX: nat := 0xFFFF_FFFF_FFFF_FFFF_FFFF_FFFF_FFFF_FFFF
  const MILLISECOND: nat := 1_000_000
  const MAX_RETRY_AFTER: nat := 24 * 60 * 60 * 1_000_000_000
  const MAX_JITTER_BASIS_POINTS: nat := 5_000

  /** A std Duration: u64 seconds and less than a second of nanoseconds. */
  type Duration = d: nat | d <= U64_MAX * 1_000_000_000 + 999_999_999

  datatype RetryPolicy = RetryPolicy(
    baseDelay: Duration, maxDelay: Duration, maxAttempts: nat, jitterBasisPoints: nat)

  function MinD(a: Duration, b: Duration): Duration {
    if a <= b then a else b
  }

  function MaxD(a: Duration, b: Duration): Duration {
    if a >= b then a else b
  }

  function NewPolicy(baseDelay: Duration, maxDelay: Duration, maxAttempts: nat, jitterBasisPoints: nat): RetryPolicy {
    var base := MaxD(baseDelay, MILLISECOND);
    RetryPolicy(base, MinD(MaxD(maxDelay, base), MAX_RETRY_AFTER),
      Max(maxAttempts, 1), Min(jitterBasisPoints, MAX_JITTER_BASIS_POINTS))
  }

  /** Every policy there is: the fields are private and set by the constructor only. */
  predicate Constructed(p: RetryPolicy) {
    && p.baseDelay >= MILLISECOND
    && MinD(p.baseDelay, MAX_RETRY_AFTER) <= p.maxDelay <= MAX_RETRY_AFTER
    && p.maxAttempts >= 1
    && p.jitterBasisPoints <= MAX_JITTER_BASIS_POINTS
  }

  /** The constructor always normalizes, keeps what was in bounds already, and changes a normalized policy no further. */
  lemma NewPolicyNormalizes(base: Duration, max: Duration, attempts: nat, jitter: nat)
    ensures Constructed(NewPolicy(base, max, attempts, jitter))
    ensures MILLISECOND <= base <= max <= MAX_RETRY_AFTER && attempts >= 1 && jitter <= MAX_JITTER_BASIS_POINTS
      ==> NewPolicy(base, max, attempts, jitter) == RetryPolicy(base, max, attempts, jitter)
    ensures Constructed(RetryPolicy(base, max, attempts, jitter))
      ==> NewPolicy(base, max, attempts, jitter) == RetryPolicy(base, max, attempts, jitter)
  {
  }

  /** y is the value of [low, high] that is nearest to x. */
  predicate Nearest(x: nat, low: nat, high: nat, y: nat) {
    low <= y <= high && (x < low ==> y == low) && (low <= x <= high ==> y == x) && (x > high ==> y == high)
  }

  /** Each field of a policy is the admissible value nearest to its argument; delays are at least a millisecond. */
  lemma NewPolicyIsNearest(base: Duration, max: Duration, attempts: nat, jitter: nat)
    ensures var p := NewPolicy(base, max, attempts, jitter);
      && (if base < 1_000_000 then p.baseDelay == 1_000_000 else p.baseDelay == base)
      && Nearest(max, Min(p.baseDelay, 86_400_000_000_000), 86_400_000_000_000, p.maxDelay)
      && (if attempts == 0 then p.maxAttempts == 1 else p.maxAttempts == attempts)
      && Nearest(jitter, 0, 5_000, p.jitterBasisPoints)
  {
  }

  /** Duration::as_millis */
  function Millis(d: Duration): nat {
    d / 1_000_000
  }

  function Nanos(millis: nat): nat {
    millis * 1_000_000
  }

  function Pow2(n: nat): nat {
    if n == 0 then 1 else 2 * Pow2(n - 1)
  }

  function SaturatingMul(a: nat, b: nat): nat {
    Min(a * b, U128_MAX)
  }

  function SaturatingSub(a: nat, b: nat): nat {
    if b <= a then a - b else 0
  }

  /** A duration of that many milliseconds, or of the largest u64 when there are more. */
  function DurationFromMillis(millis: nat): Duration {
    Nanos(if millis <= U64_MAX then millis else U64_MAX)
  }

  /** The code's backoff in milliseconds: exponent clamped at 63, u128 saturation, then the cap. */
  function CappedMillis(p: RetryPolicy, attempt: nat): nat {
    Min(SaturatingMul(Millis(p.baseDelay), Pow2(Min(attempt, 63))), Millis(p.maxDelay))
  }

  function JitterWindow(p: RetryPolicy, attempt: nat): nat {
    SaturatingMul(CappedMillis(p, attempt), p.jitterBasisPoints) / 10_000
  }

  function JitterOffset(window: nat, entropy: nat): nat {
    if window == 0 then 0 else entropy % (window + 1)
  }

  function JitteredMillis(p: RetryPolicy, attempt: nat, entropy: nat): nat {
    SaturatingSub(CappedMillis(p, attempt), JitterOffset(JitterWindow(p, attempt), entropy))
  }

  function DelayForAttempt(p: RetryPolicy, attempt: nat, entropy: nat, retryAfter: Option<Duration>): (delay: Option<Duration>)
    ensures delay.Some? <==> attempt < p.maxAttempts
  {
    if attempt >= p.maxAttempts then None
    else
      var jittered := DurationFromMillis(JitteredMillis(p, attempt, entropy));
      var floor := if retryAfter.Some? then MinD(retryAfter.value, MAX_RETRY_AFTER) else 0;
      Some(MinD(MaxD(jittered, floor), MAX_RETRY_AFTER))
  }

  // ---- saturation never shows

  /** base_ms * 2^attempt capped at max_ms, over unbounded integers. */
  function Backoff(p: RetryPolicy, attempt: nat): nat {
    Min(Millis(p.baseDelay) * Pow2(attempt), Millis(p.maxDelay))
  }

  lemma {:induction false} Pow2Monotone(m: nat, n: nat)
    requires m <= n
    ensures 1 <= Pow2(m) <= Pow2(n)
  {
    if n > 0 {
      Pow2Monotone(if m == n then m - 1 else m, n - 1);
    }
  }

  lemma {:induction false} Pow2Add(m: nat, n: nat)
    ensures Pow2(m + n) == Pow2(m) * Pow2(n)
  {
    if m > 0 {
      Pow2Add(m - 1, n);
    }
  }

  lemma ProductMonotone(a: nat, b: nat, c: nat)
    requires b <= c
    ensures a * b <= a * c
  {
  }

  lemma Pow2Of63()
    ensures Pow2(63) == 0x8000_0000_0000_0000
  {
    Pow2Add(8, 8);
    Pow2Add(16, 16);
    Pow2Add(32, 31);
    Pow2Add(16, 15);
    Pow2Add(8, 7);
    assert Pow2(7) == 128 && Pow2(8) == 256;
  }

  /** For every policy and every attempt, the code's backoff is the unbounded one, and later saturations are idle. */
  lemma SaturationNeverShows(p: RetryPolicy, attempt: nat)
    requires Constructed(p)
    ensures CappedMillis(p, attempt) == Backoff(p, attempt)
    ensures JitterWindow(p, attempt) == Backoff(p, attempt) * p.jitterBasisPoints / 10_000
    ensures JitterWindow(p, attempt) <= Backoff(p, attempt) / 2
    ensures DurationFromMillis(Backoff(p, attempt)) == Nanos(Backoff(p, attempt))
  {
    var base := Millis(p.baseDelay);
    if attempt > 63 {
      Pow2Of63();
      Pow2Monotone(63, attempt);
      ProductMonotone(base, Pow2(63), Pow2(attempt));
      assert base >= 1;
      assert base * Pow2(63) >= Pow2(63);
    }
    WindowIsAtMostHalf(CappedMillis(p, attempt), p.jitterBasisPoints);
  }

  lemma WindowIsAtMostHalf(capped: nat, basisPoints: nat)
    requires capped <= 86_400_000 && basisPoints <= MAX_JITTER_BASIS_POINTS
    ensures capped * basisPoints <= 86_400_000 * 5_000
    ensures capped * basisPoints / 10_000 <= capped / 2
  {
    ProductMonotone(capped, basisPoints, 5_000);
    HalfByTenThousandths(capped * basisPoints, capped);
  }

  lemma HalfByTenThousandths(x: nat, capped: nat)
    requires x <= capped * 5_000
    ensures x / 10_000 <= capped / 2
  {
  }

  // ---- the jitter range

  lemma OffsetRange(window: nat, entropy: nat)
    ensures 0 <= JitterOffset(window, entropy) <= window
    ensures entropy <= window ==> JitterOffset(window, entropy) == entropy
  {
  }

  lemma LocalDelay(p: RetryPolicy, attempt: nat, entropy: nat)
    requires Constructed(p) && attempt < p.maxAttempts
    ensures var offset := JitterOffset(JitterWindow(p, attempt), entropy);
      && offset <= JitterWindow(p, attempt) <= Backoff(p, attempt) <= 86_400_000
      && DelayForAttempt(p, attempt, entropy, None) == Some(Nanos(Backoff(p, attempt) - offset))
  {
    hide JitterOffset, JitterWindow, CappedMillis;
    SaturationNeverShows(p, attempt);
    OffsetRange(JitterWindow(p, attempt), entropy);
  }

  /** Some u64 entropy gives this delay. */
  ghost predicate Produced(p: RetryPolicy, attempt: nat, delay: Duration) {
    exists entropy: nat :: entropy <= U64_MAX && DelayForAttempt(p, attempt, entropy, None) == Some(delay)
  }

  predicate InWindow(p: RetryPolicy, attempt: nat, millis: nat) {
    Backoff(p, attempt) - JitterWindow(p, attempt) <= millis <= Backoff(p, attempt)
  }

  /** Without a provider floor the delays over all u64 entropies are exactly the milliseconds of the window. */
  lemma JitterRangeIsExact(p: RetryPolicy, attempt: nat, delay: Duration)
    requires Constructed(p) && attempt < p.maxAttempts
    ensures Produced(p, attempt, delay) <==> exists millis: nat :: InWindow(p, attempt, millis) && delay == Nanos(millis)
  {
    hide JitterOffset, JitterWindow, Backoff, DelayForAttempt;
    var window, capped := JitterWindow(p, attempt), Backoff(p, attempt);
    if Produced(p, attempt, delay) {
      var entropy: nat :| entropy <= U64_MAX && DelayForAttempt(p, attempt, entropy, None) == Some(delay);
      LocalDelay(p, attempt, entropy);
      assert InWindow(p, attempt, capped - JitterOffset(window, entropy));
    }
    if exists millis: nat :: InWindow(p, attempt, millis) && delay == Nanos(millis) {
      var millis: nat :| InWindow(p, attempt, millis) && delay == Nanos(millis);
      LocalDelay(p, attempt, capped - millis);
      OffsetRange(window, capped - millis);
      assert DelayForAttempt(p, attempt, capped - millis, None) == Some(delay);
    }
  }

  lemma RemainderShifts(e: nat, n: nat)
    requires n > 0
    ensures (e + n) % n == e % n
    ensures e < n ==> e % n == e
  {
    var q := e / n;
    assert e + n == (q + 1) * n + e % n;
    SameRemainder((e + n) / n - (q + 1), n, e % n, (e + n) % n);
    if e < n {
      SameRemainder(q, n, e, e % n);
    }
  }

  lemma SameRemainder(d: int, n: int, r: int, s: int)
    requires 0 <= r < n && 0 <= s < n
    ensures d * n + s == r ==> r == s
  {
    if d > 0 {
      assert d * n >= n;
    } else if d < 0 {
      assert d * n <= -n;
    }
  }

  function LocalMillis(p: RetryPolicy, attempt: nat, entropy: nat): nat
    requires Constructed(p) && attempt < p.maxAttempts
  {
    DelayForAttempt(p, attempt, entropy, None).value / 1_000_000
  }

  /** The first entropies walk down the window one millisecond at a time, and then the walk repeats. */
  lemma JitterWalks(p: RetryPolicy, attempt: nat, entropy: nat)
    requires Constructed(p) && attempt < p.maxAttempts
    ensures entropy <= JitterWindow(p, attempt) ==> LocalMillis(p, attempt, entropy) == Backoff(p, attempt) - entropy
    ensures LocalMillis(p, attempt, entropy + JitterWindow(p, attempt) + 1) == LocalMillis(p, attempt, entropy)
  {
    hide Backoff, JitterWindow, DelayForAttempt;
    var window := JitterWindow(p, attempt);
    RemainderShifts(entropy, window + 1);
    LocalDelay(p, attempt, entropy);
    LocalDelay(p, attempt, entropy + window + 1);
    hide JitterOffset;
    OffsetRange(window, entropy);
  }

  lemma {:induction false} JitterReachesAll(p: RetryPolicy, attempt: nat, from: nat, millis: nat) returns (entropy: nat)
    requires Constructed(p) && attempt < p.maxAttempts && InWindow(p, attempt, millis)
    ensures from <= entropy <= from + JitterWindow(p, attempt) && LocalMillis(p, attempt, entropy) == millis
  {
    hide Backoff, JitterWindow, LocalMillis;
    if from == 0 {
      entropy := Backoff(p, attempt) - millis;
    } else {
      entropy := JitterReachesAll(p, attempt, from - 1, millis);
      if entropy == from - 1 {
        JitterWalks(p, attempt, entropy);
        entropy := entropy + JitterWindow(p, attempt) + 1;
      }
    }
    JitterWalks(p, attempt, entropy);
  }

  lemma {:induction false} JitterNeverRepeats(p: RetryPolicy, attempt: nat, e: nat, e': nat)
    requires Constructed(p) && attempt < p.maxAttempts && e < e' <= e + JitterWindow(p, attempt)
    ensures LocalMillis(p, attempt, e) != LocalMillis(p, attempt, e')
    decreases e'
  {
    hide Backoff, JitterWindow, LocalMillis;
    var period := JitterWindow(p, attempt) + 1;
    JitterWalks(p, attempt, e);
    JitterWalks(p, attempt, e');
    if e' >= period {
      JitterWalks(p, attempt, e' - period);
      JitterNeverRepeats(p, attempt, e' - period, e);
    }
  }

  predicate Draws(p: RetryPolicy, attempt: nat, from: nat, entropy: nat, millis: nat)
    requires Constructed(p) && attempt < p.maxAttempts
  {
    from <= entropy <= from + JitterWindow(p, attempt) && LocalMillis(p, attempt, entropy) == millis
  }

  /**
   * Among window + 1 entropies in a row, wherever they start, each millisecond of the window comes up exactly once:
   * the jitter is as even as its entropy.
   */
  lemma JitterIsEven(p: RetryPolicy, attempt: nat, from: nat, millis: nat)
    requires Constructed(p) && attempt < p.maxAttempts && InWindow(p, attempt, millis)
    ensures exists entropy: nat :: Draws(p, attempt, from, entropy, millis)
    ensures forall e: nat, e': nat :: Draws(p, attempt, from, e, millis) && Draws(p, attempt, from, e', millis) ==> e == e'
  {
    hide LocalMillis, JitterWindow, InWindow;
    var entropy := JitterReachesAll(p, attempt, from, millis);
    assert Draws(p, attempt, from, entropy, millis);
    forall e: nat, e': nat | e < e' && Draws(p, attempt, from, e, millis)
      ensures !Draws(p, attempt, from, e', millis)
    {
      if e' <= from + JitterWindow(p, attempt) {
        JitterNeverRepeats(p, attempt, e, e');
      }
    }
  }

  /** Retry-After is a floor capped at 24 h; the final minimum of the code never bites. */
  lemma FloorIsExact(p: RetryPolicy, attempt: nat, entropy: nat, retryAfter: Duration)
    requires Constructed(p) && attempt < p.maxAttempts
    ensures DelayForAttempt(p, attempt, entropy, Some(retryAfter))
         == Some(MaxD(DelayForAttempt(p, attempt, entropy, None).value, MinD(retryAfter, MAX_RETRY_AFTER)))
    ensures DelayForAttempt(p, attempt, entropy, Some(retryAfter)).value <= MAX_RETRY_AFTER
  {
    hide JitteredMillis, Backoff, JitterWindow;
    LocalDelay(p, attempt, entropy);
  }

  // ---- monotonicity

  predicate DelayAtMost(p: RetryPolicy, n: nat, e: nat, m: nat, e': nat)
    requires n < p.maxAttempts && m < p.maxAttempts
  {
    DelayForAttempt(p, n, e, None).value <= DelayForAttempt(p, m, e', None).value
  }

  /** A delay of attempt m is never below one of attempt n, whatever their entropies. */
  ghost predicate NeverShorter(p: RetryPolicy, n: nat, m: nat)
    requires n < p.maxAttempts && m < p.maxAttempts
  {
    forall e: nat, e': nat :: e <= U64_MAX && e' <= U64_MAX ==> DelayAtMost(p, n, e, m, e')
  }

  /** Delays never decrease from attempt n to m exactly when the jitter window of m stays above the backoff of n. */
  lemma NeverDecreasesExactly(p: RetryPolicy, n: nat, m: nat)
    requires Constructed(p) && n < p.maxAttempts && m < p.maxAttempts
    ensures NeverShorter(p, n, m) <==> Backoff(p, n) <= Backoff(p, m) - JitterWindow(p, m)
  {
    hide JitterOffset, JitterWindow, Backoff, DelayForAttempt;
    var window := JitterWindow(p, m);
    LocalDelay(p, n, 0);
    LocalDelay(p, m, window);
    OffsetRange(JitterWindow(p, n), 0);
    OffsetRange(window, window);
    if Backoff(p, n) <= Backoff(p, m) - window {
      forall e: nat, e': nat | e <= U64_MAX && e' <= U64_MAX
        ensures DelayAtMost(p, n, e, m, e')
      {
        LocalDelay(p, n, e);
        LocalDelay(p, m, e');
      }
    } else {
      assert !DelayAtMost(p, n, 0, m, window);
    }
  }

  /** Attempts with equal backoff, as all those at the cap have, keep their order exactly when jitter rounds to nothing. */
  lemma CappedDelaysCanDecrease(p: RetryPolicy, n: nat, m: nat)
    requires Constructed(p) && n < p.maxAttempts && m < p.maxAttempts
    requires Backoff(p, n) == Backoff(p, m)
    ensures NeverShorter(p, n, m) <==> JitterWindow(p, m) == 0
    ensures JitterWindow(p, m) == 0 <==> Backoff(p, m) * p.jitterBasisPoints < 10_000
  {
    hide NeverShorter, Backoff;
    NeverDecreasesExactly(p, n, m);
    SaturationNeverShows(p, m);
  }

  lemma DoublingBackoff(p: RetryPolicy, n: nat)
    requires Constructed(p) && Millis(p.baseDelay) * Pow2(n + 1) <= Millis(p.maxDelay)
    ensures Backoff(p, n + 1) == 2 * Backoff(p, n)
  {
    assert Millis(p.baseDelay) * Pow2(n + 1) == 2 * (Millis(p.baseDelay) * Pow2(n));
  }

  /** While doubling is uncapped, independently jittered delays never decrease, with any common Retry-After. */
  lemma UncappedDelaysNeverDecrease(p: RetryPolicy, n: nat, e: nat, e': nat, retryAfter: Option<Duration>)
    requires Constructed(p) && n + 1 < p.maxAttempts
    requires Millis(p.baseDelay) * Pow2(n + 1) <= Millis(p.maxDelay)
    ensures DelayForAttempt(p, n, e, retryAfter).value <= DelayForAttempt(p, n + 1, e', retryAfter).value
  {
    hide JitterOffset, JitterWindow, Backoff, DelayForAttempt;
    DoublingBackoff(p, n);
    SaturationNeverShows(p, n + 1);
    LocalDelay(p, n, e);
    LocalDelay(p, n + 1, e');
    if retryAfter.Some? {
      FloorIsExact(p, n, e, retryAfter.value);
      FloorIsExact(p, n + 1, e', retryAfter.value);
    }
  }

  // ---- the whole schedule

  /** The sum of the local delays of the first |entropies| attempts, one entropy per attempt. */
  function TotalDelay(p: RetryPolicy, entropies: seq<nat>): nat
    requires |entropies| <= p.maxAttempts
  {
    if entropies == [] then 0
    else
      var k := |entropies| - 1;
      TotalDelay(p, entropies[..k]) + DelayForAttempt(p, k, entropies[k], None).value
  }

  function CapBudget(p: RetryPolicy, k: nat): nat {
    Nanos(k * Millis(p.maxDelay))
  }

  function DoublingBudget(p: RetryPolicy, k: nat): nat
  {
    Pow2Monotone(0, k);
    Nanos(Millis(p.baseDelay) * (Pow2(k) - 1))
  }

  lemma BudgetsGrow(p: RetryPolicy, k: nat, offset: nat)
    requires offset <= Backoff(p, k)
    ensures CapBudget(p, 0) == DoublingBudget(p, 0) == 0
    ensures CapBudget(p, k) + Nanos(Backoff(p, k) - offset) <= CapBudget(p, k + 1)
    ensures DoublingBudget(p, k) + Nanos(Backoff(p, k) - offset) <= DoublingBudget(p, k + 1)
  {
    var base, max := Millis(p.baseDelay), Millis(p.maxDelay);
    Pow2Monotone(0, k);
    assert (k + 1) * max == k * max + max;
    assert base * (2 * Pow2(k) - 1) == base * (Pow2(k) - 1) + base * Pow2(k);
  }

  /** k local delays sum to at most min(k * max_ms, base_ms * (2^k - 1)) milliseconds. */
  lemma {:induction false} ScheduleIsBounded(p: RetryPolicy, entropies: seq<nat>)
    requires Constructed(p) && |entropies| <= p.maxAttempts
    ensures TotalDelay(p, entropies) <= CapBudget(p, |entropies|)
    ensures TotalDelay(p, entropies) <= DoublingBudget(p, |entropies|)
  {
    hide JitterOffset, JitterWindow, DelayForAttempt, Backoff, Constructed, CapBudget, DoublingBudget, Nanos;
    if entropies == [] {
      BudgetsGrow(p, 0, Backoff(p, 0));
    } else {
      var k := |entropies| - 1;
      ScheduleIsBounded(p, entropies[..k]);
      LocalDelay(p, k, entropies[k]);
      BudgetsGrow(p, k, JitterOffset(JitterWindow(p, k), entropies[k]));
    }
  }
}
