/** Reconnection backoff (session.rs and client.rs). */
module Backoff {
  import opened Bytes

  const U64_MAX := 0xFFFF_FFFF_FFFF_FFFF
  const CAP := 30_000

  function Pow2(n: nat): nat { if n == 0 then 1 else 2 * Pow2(n - 1) }

  /** `2u64.saturating_pow(n)` and `saturating_mul` */
  function SaturatingPow2(n: nat): nat { Min(Pow2(n), U64_MAX) }

  function SaturatingMul(a: nat, b: nat): nat { Min(a * b, U64_MAX) }

  /** `backoff_delay`, in milliseconds. */
  function Delay(attempt: u32): nat {
    Min(SaturatingMul(250, SaturatingPow2(if attempt == 0 then 0 else attempt - 1)), CAP)
  }

  lemma {:induction false} Pow2Grows(m: nat, n: nat)
    requires m <= n
    ensures 1 <= Pow2(m) <= Pow2(n)
    decreases n
  {
    if n > 0 { Pow2Grows(if m < n then m else m - 1, n - 1); }
  }

  /** Saturation is invisible: the delay is the capped exponential over the unbounded integers,
      for every 32-bit attempt number, and it never decreases. */
  lemma DelayIsCappedExponential(attempt: u32)
    ensures Delay(attempt) == Min(250 * Pow2(if attempt == 0 then 0 else attempt - 1), 30_000)
    ensures Delay(attempt) == 30_000 <==> attempt >= 8
  {
    var n := if attempt == 0 then 0 else attempt - 1;
    assert Pow2(7) == 128 && Pow2(6) == 64 by {
      assert Pow2(3) == 8;
      assert Pow2(5) == 32;
    }
    if n >= 7 { Pow2Grows(7, n); } else { Pow2Grows(n, 6); }
  }

  lemma DelayIsMonotone(a: u32, b: u32)
    requires a <= b
    ensures 250 <= Delay(a) <= Delay(b) <= 30_000
  {
    DelayIsCappedExponential(a);
    DelayIsCappedExponential(b);
    Pow2Grows(0, if a == 0 then 0 else a - 1);
    Pow2Grows(if a == 0 then 0 else a - 1, if b == 0 then 0 else b - 1);
  }

  /** The sleeps after the first `k` failed attempts. */
  function TotalSleep(k: u32): nat { if k == 0 then 0 else TotalSleep(k - 1) + Delay(k) }

  lemma {:induction false} TotalSleepClosedForm(k: u32)
    ensures TotalSleep(k) == if k <= 7 then 250 * (Pow2(k) - 1) else 31_750 + 30_000 * (k - 7)
  {
    if k > 0 {
      TotalSleepClosedForm(k - 1);
      DelayIsCappedExponential(k);
      if k <= 7 { Pow2Grows(k - 1, 6); }
      if k == 8 { assert Pow2(3) == 8; assert Pow2(5) == 32; assert Pow2(7) == 128; }
      if k == 7 { assert Pow2(3) == 8; assert Pow2(5) == 32; assert Pow2(6) == 64; }
    }
  }

  /** `connect_with_retry`; `succeeds[i]` is what attempt `i + 1` would do. The source panics when
      it is asked for no attempts at all. */
  method ConnectWithRetry(maxAttempts: u32, succeeds: seq<bool>) returns (ok: bool, attempts: u32, slept: nat)
    requires 1 <= maxAttempts <= |succeeds|
    ensures 1 <= attempts <= maxAttempts
    ensures forall i :: 0 <= i < attempts - 1 ==> !succeeds[i]
    ensures ok == succeeds[attempts - 1] && (!ok ==> attempts == maxAttempts)
    ensures slept == TotalSleep(attempts - 1)
  {
    slept := 0;
    attempts := 1;
    while true
      invariant 1 <= attempts <= maxAttempts
      invariant forall i :: 0 <= i < attempts - 1 ==> !succeeds[i]
      invariant slept == TotalSleep(attempts - 1)
      decreases maxAttempts - attempts
    {
      if succeeds[attempts - 1] { return true, attempts, slept; }
      if attempts == maxAttempts { return false, attempts, slept; }
      slept := slept + Delay(attempts);
      attempts := attempts + 1;
    }
  }
}
