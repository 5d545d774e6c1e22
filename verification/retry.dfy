/**
 * Backoff policy of `crates/beacon/src/retry.rs`. Durations are nanoseconds; the
 * saturating and truncating conversions of the original are written out.
 */
module Retry {
  import opened Common

  const NS_PER_MS: nat := 1_000_000
  const NS_PER_S: nat := 1_000_000_000
  const U64_LIMIT: nat := 0x1_0000_0000_0000_0000
  const DURATION_MAX: nat := (U64_LIMIT - 1) * NS_PER_S + NS_PER_S - 1
  const MAX_EXPONENT: nat := 20
  const MAX_RETRY_AFTER: nat := 120 * NS_PER_S

  datatype Policy = Policy(maxRetries: nat, initialBackoff: nat)

  function Pow2(k: nat): (p: nat)
    ensures 1 <= p
  {
    if k == 0 then 1 else 2 * Pow2(k - 1)
  }

  function Min(a: nat, b: nat): nat {
    if a < b then a else b
  }

  /** `initial_backoff.saturating_mul(2^min(attempt, 20))`. */
  function Base(p: Policy, attempt: nat): nat {
    Min(p.initialBackoff * Pow2(Min(attempt, MAX_EXPONENT)), DURATION_MAX)
  }

  /** `as_millis() as u64`. */
  function BaseMs(p: Policy, attempt: nat): nat {
    (Base(p, attempt) / NS_PER_MS) % U64_LIMIT
  }

  function JitterRange(p: Policy, attempt: nat): nat {
    BaseMs(p, attempt) / 4
  }

  /** The delay for one jitter draw from `0..=2 * range`. */
  function Backoff(p: Policy, attempt: nat, jitter: nat): nat
    requires jitter <= 2 * JitterRange(p, attempt)
  {
    if JitterRange(p, attempt) == 0 then Base(p, attempt)
    else Min(BaseMs(p, attempt) - JitterRange(p, attempt) + jitter, U64_LIMIT - 1) * NS_PER_MS
  }

  function Least(p: Policy, attempt: nat): nat {
    Backoff(p, attempt, 0)
  }

  function Top(p: Policy, attempt: nat): nat {
    Backoff(p, attempt, 2 * JitterRange(p, attempt))
  }

  /** Whatever is drawn lies between the extremes, at most 25% off the base. */
  lemma BackoffWithinJitter(p: Policy, attempt: nat, jitter: nat)
    requires jitter <= 2 * JitterRange(p, attempt)
    ensures Least(p, attempt) <= Backoff(p, attempt, jitter) <= Top(p, attempt)
    ensures JitterRange(p, attempt) > 0 && BaseMs(p, attempt) + JitterRange(p, attempt) < U64_LIMIT
            ==> && 3 * BaseMs(p, attempt) * NS_PER_MS <= 4 * Backoff(p, attempt, jitter)
                && 4 * Backoff(p, attempt, jitter) <= 5 * BaseMs(p, attempt) * NS_PER_MS
  {
  }

  lemma BaseInMs(p: Policy, attempt: nat, b: nat, ms: nat)
    requires Base(p, attempt) == b && ms == b / 1_000_000 && ms < 0x1_0000_0000_0000_0000
    ensures BaseMs(p, attempt) == ms && JitterRange(p, attempt) == ms / 4
  {
  }

  lemma DrawnDelay(p: Policy, attempt: nat, jitter: nat, b: nat, ms: nat, total: int)
    requires jitter <= 2 * JitterRange(p, attempt) && Base(p, attempt) == b && BaseMs(p, attempt) == ms
    requires total == ms - ms / 4 + jitter
    ensures ms < 4 ==> Backoff(p, attempt, jitter) == b
    ensures 4 <= ms && total < 0x1_0000_0000_0000_0000 ==> Backoff(p, attempt, jitter) == total * 1_000_000
    ensures 4 <= ms && total >= 0x1_0000_0000_0000_0000 ==>
            Backoff(p, attempt, jitter) == 0xFFFF_FFFF_FFFF_FFFF * 1_000_000
  {
  }

  /** The delay in numbers. `b` nanoseconds are the initial delay doubled per attempt, twenty
      times at most; in whole milliseconds `ms`, a quarter of them either way is jitter. */
  lemma {:induction false} BackoffExact(p: Policy, attempt: nat, jitter: nat, b: nat, ms: nat)
    requires jitter <= 2 * JitterRange(p, attempt)
    requires b == p.initialBackoff * Pow2(if attempt <= 20 then attempt else 20)
    requires ms == b / 1_000_000 && ms < 0x1_0000_0000_0000_0000
    ensures ms < 4 ==> Backoff(p, attempt, jitter) == b
    ensures 4 <= ms && ms - ms / 4 + jitter < 0x1_0000_0000_0000_0000 ==>
            Backoff(p, attempt, jitter) == (ms - ms / 4 + jitter) * 1_000_000
    ensures 4 <= ms && ms - ms / 4 + jitter >= 0x1_0000_0000_0000_0000 ==>
            Backoff(p, attempt, jitter) == 0xFFFF_FFFF_FFFF_FFFF * 1_000_000
    ensures JitterRange(p, attempt) == ms / 4
  {
    BaseSaturates(p, attempt, b);
    BaseInMs(p, attempt, b, ms);
    DrawnDelay(p, attempt, jitter, b, ms, ms - ms / 4 + jitter);
  }

  /** A product past the largest duration, 2^64 - 1 seconds and 999999999 nanoseconds, stays there. */
  lemma {:induction false} BaseSaturates(p: Policy, attempt: nat, b: nat)
    requires b == p.initialBackoff * Pow2(if attempt <= 20 then attempt else 20)
    ensures 18_446_744_073_709_551_615_999_999_999 <= b ==> Base(p, attempt) == 18_446_744_073_709_551_615_999_999_999
    ensures b <= 18_446_744_073_709_551_615_999_999_999 ==> Base(p, attempt) == b
  {
  }

  lemma DoubledMs(ns: nat)
    ensures 2 * (ns / NS_PER_MS) <= (2 * ns) / NS_PER_MS <= 2 * (ns / NS_PER_MS) + 1
  {
  }

  /** Below the exponent cap, and as long as the doubled base still fits, the jitter
      ranges of successive attempts do not overlap: every delay before retry `k` is
      shorter than every delay before retry `k + 1`. */
  lemma {:induction false} BackoffStrictlyGrows(p: Policy, k: nat)
    requires 0 < p.initialBackoff && k < MAX_EXPONENT
    requires (p.initialBackoff * Pow2(k + 1)) / NS_PER_MS < U64_LIMIT
    ensures Top(p, k) < Least(p, k + 1)
  {
    var b := p.initialBackoff * Pow2(k);
    NextBase(p.initialBackoff, k);
    DoubledMs(b);
    Unsaturated(p, k, b);
    Unsaturated(p, k + 1, 2 * b);
    RangesDisjoint(b, b / NS_PER_MS, (2 * b) / NS_PER_MS);
  }

  lemma NextBase(initial: nat, k: nat)
    requires 0 < initial
    ensures initial * Pow2(k + 1) == 2 * (initial * Pow2(k)) && 0 < initial * Pow2(k)
  {
  }

  lemma {:induction false} Unsaturated(p: Policy, attempt: nat, b: nat)
    requires attempt <= MAX_EXPONENT && b == p.initialBackoff * Pow2(attempt) && b / NS_PER_MS < U64_LIMIT
    ensures Base(p, attempt) == b && BaseMs(p, attempt) == b / NS_PER_MS
    ensures Least(p, attempt) == var ms := b / NS_PER_MS; if ms / 4 == 0 then b else (ms - ms / 4) * NS_PER_MS
    ensures Top(p, attempt) <= var ms := b / NS_PER_MS; if ms / 4 == 0 then b else (ms - ms / 4 + 2 * (ms / 4)) * NS_PER_MS
  {
  }

  /** The arithmetic core: `b` nanoseconds against `2 * b`, in whole milliseconds. */
  lemma RangesDisjoint(b: nat, ms: nat, ms2: nat)
    requires 0 < b && ms * NS_PER_MS <= b < (ms + 1) * NS_PER_MS
    requires ms2 * NS_PER_MS <= 2 * b < (ms2 + 1) * NS_PER_MS
    ensures (if ms / 4 == 0 then b else (ms - ms / 4 + 2 * (ms / 4)) * NS_PER_MS)
            < (if ms2 / 4 == 0 then 2 * b else (ms2 - ms2 / 4) * NS_PER_MS)
  {
  }

  /** From the cap on the delay no longer depends on the attempt. */
  lemma BackoffFreezesAtCap(p: Policy, k: nat)
    requires MAX_EXPONENT <= k
    ensures Least(p, k) == Least(p, MAX_EXPONENT) && Top(p, k) == Top(p, MAX_EXPONENT)
  {
  }

  /** The `Retry-After` header in seconds, capped; the fallback without one. */
  function RetryAfterDelay(header: Option<nat>, fallback: nat): nat {
    if header.Some? then Min(header.value * NS_PER_S, MAX_RETRY_AFTER) else fallback
  }

  /** A header of `s` seconds is obeyed to the nanosecond up to two minutes, and cut there;
      without one the fallback stands. */
  lemma RetryAfterExact(s: nat, fallback: nat)
    ensures s <= 120 ==> RetryAfterDelay(Some(s), fallback) == s * 1_000_000_000
    ensures 120 <= s ==> RetryAfterDelay(Some(s), fallback) == 120_000_000_000
    ensures RetryAfterDelay(None, fallback) == fallback
  {
  }

  /** The most the engine can sleep before its `n`-th retry has been issued. */
  function SleepBound(p: Policy, n: nat): nat {
    if n == 0 then 0
    else SleepBound(p, n - 1) + Top(p, n - 1) + Max(MAX_RETRY_AFTER, Top(p, n - 1))
  }
}
