/** The bounded exponential retry ceiling shared by both delivery workflows. */
module Backoff {
  import opened Prelude

  /** One retained retry policy; presence uses a fixed one, publication a configured one. */
  datatype Policy = Policy(maxAttempts: nat, initialMs: nat, maximumMs: nat, deadlineMs: nat)

  /** The bounds every decoded outbox row satisfies. */
  predicate PolicyOk(p: Policy)
  {
    && 1 <= p.maxAttempts <= 100
    && 1 <= p.initialMs <= 60_000 && p.initialMs <= p.maximumMs <= 3_600_000
    && 100 <= p.deadlineMs <= 30_000
  }

  const PRESENCE_POLICY := Policy(100, 250, 30_000, 15_000)

  /** `u64::saturating_mul(2)`. */
  function SaturatingDouble(n: nat): nat { Min(2 * n, MAX_U64) }

  function Pow2(n: nat): (r: nat)
    ensures r >= 1
  {
    if n == 0 then 1 else 2 * Pow2(n - 1)
  }

  /** The ceiling for the retry that follows attempt `n`: doubled per earlier attempt and capped. */
  function RetryUpperBound(p: Policy, n: nat): nat
  {
    if n <= 1 then Min(p.initialMs, p.maximumMs) else Min(2 * RetryUpperBound(p, n - 1), p.maximumMs)
  }

  /** The loop as the service runs it: the saturation is never reached. */
  method ComputeRetryUpperBound(p: Policy, n: nat) returns (bound: nat)
    requires PolicyOk(p)
    ensures bound == RetryUpperBound(p, n)
    ensures p.initialMs <= bound <= p.maximumMs
  {
    bound := p.initialMs;
    var i := 1;
    while i < n
      invariant 1 <= i <= (if n == 0 then 1 else n)
      invariant bound == RetryUpperBound(p, i)
      invariant p.initialMs <= bound <= p.maximumMs
    {
      bound := Min(SaturatingDouble(bound), p.maximumMs);
      i := i + 1;
    }
    bound := Min(bound, p.maximumMs);
  }

  /** Closed form: `min(initial * 2^(n-1), maximum)`. */
  lemma {:induction false} BoundClosedForm(p: Policy, n: nat)
    requires PolicyOk(p) && n >= 1
    ensures RetryUpperBound(p, n) == Min(p.initialMs * Pow2(n - 1), p.maximumMs)
  {
    if n > 1 {
      BoundClosedForm(p, n - 1);
      DoubleProduct(p.initialMs, Pow2(n - 2));
    }
  }

  lemma DoubleProduct(x: nat, y: nat)
    ensures x * (2 * y) == 2 * (x * y)
  {
  }

  /** The ceiling never shrinks from one attempt to a later one. */
  lemma {:induction false} BoundMonotone(p: Policy, m: nat, n: nat)
    requires PolicyOk(p) && 1 <= m <= n
    ensures p.initialMs <= RetryUpperBound(p, m) <= RetryUpperBound(p, n) <= p.maximumMs
    decreases m + n
  {
    if m < n {
      BoundMonotone(p, m, n - 1);
    } else if m > 1 {
      BoundMonotone(p, m - 1, m - 1);
    }
  }
}
