/** Capped exponential backoff, and the loops that connect and reconnect with it. */
module Backoff {
  import opened Common

  const U128_MAX: nat := 0xFFFF_FFFF_FFFF_FFFF_FFFF_FFFF_FFFF_FFFF

  /** Whole seconds and the nanoseconds below one second. */
  datatype Duration = Duration(secs: u64, nanos: nat) {
    ghost predicate Valid() {
      nanos < 1_000_000_000
    }

    function AsMillis(): nat {
      secs as nat * 1000 + nanos / 1_000_000
    }
  }

  function FromMillis(ms: u64): Duration {
    Duration(ms / 1000, (ms % 1000) as nat * 1_000_000)
  }

  datatype ReconnectPolicy = ReconnectPolicy(maxAttempts: u32, initialDelay: Duration, maxDelay: Duration) {
    ghost predicate Valid() {
      initialDelay.Valid() && maxDelay.Valid()
    }
  }

  const DEFAULT_POLICY := ReconnectPolicy(5, Duration(0, 300_000_000), Duration(5, 0))

  function Pow2(n: nat): (r: nat)
    ensures r >= 1
  {
    if n == 0 then 1 else 2 * Pow2(n - 1)
  }

  /** 128-bit multiplication that stops at the largest value. */
  function SaturatingMul(a: nat, b: nat): nat {
    Min(a * b, U128_MAX)
  }

  function DelayForAttempt(policy: ReconnectPolicy, attempt: u32): Option<Duration> {
    if attempt == 0 || (policy.maxAttempts > 0 && attempt > policy.maxAttempts) then None else
    var shift := Min(attempt as nat - 1, 31);
    var delayMs := Min(Min(SaturatingMul(policy.initialDelay.AsMillis(), Pow2(shift)), policy.maxDelay.AsMillis()), U64_MAX);
    Some(FromMillis(delayMs as u64))
  }

  /** The delay in milliseconds that the policy means: doubling, capped by its maximum. */
  function NominalDelay(policy: ReconnectPolicy, attempt: nat): nat
    requires attempt > 0
  {
    Min(policy.initialDelay.AsMillis() * Pow2(Min(attempt - 1, 31)), policy.maxDelay.AsMillis())
  }

  lemma {:induction false} Pow2Monotonic(a: nat, b: nat)
    requires a <= b
    ensures Pow2(a) <= Pow2(b)
  {
    if a < b {
      Pow2Monotonic(a, b - 1);
    }
  }

  lemma Pow2Small()
    ensures Pow2(31) == 0x8000_0000
  {
    assert Pow2(4) == 16;
    assert Pow2(8) == 256;
    assert Pow2(12) == 4096;
    assert Pow2(16) == 0x1_0000;
    assert Pow2(20) == 0x10_0000;
    assert Pow2(24) == 0x100_0000;
    assert Pow2(28) == 0x1000_0000;
  }

  /** The 128-bit product never saturates, for any durations. */
  lemma ProductFits(policy: ReconnectPolicy, shift: nat)
    requires policy.Valid() && shift <= 31
    ensures policy.initialDelay.AsMillis() * Pow2(shift) <= U128_MAX
  {
    Pow2Monotonic(shift, 31);
    Pow2Small();
    var ms := policy.initialDelay.AsMillis();
    MulMonotonic(Pow2(shift), 0x8000_0000, ms);
    MulMonotonic(ms, U64_MAX * 1000 + 999, 0x8000_0000);
  }

  lemma MillisRoundTrip(ms: u64)
    ensures FromMillis(ms).AsMillis() == ms as nat
  {
    assert ms as nat == (ms as nat / 1000) * 1000 + ms as nat % 1000;
  }

  /** A delay is given exactly for the allowed attempts, and is the nominal one, cut only at
      the 64-bit range. */
  lemma DelayIsNominal(policy: ReconnectPolicy, attempt: u32)
    requires policy.Valid()
    ensures var d := DelayForAttempt(policy, attempt);
      && (d.None? <==> attempt == 0 || 0 < policy.maxAttempts < attempt)
      && (d.Some? ==> d.value.AsMillis() == Min(NominalDelay(policy, attempt as nat), U64_MAX))
  {
    if attempt > 0 {
      ProductFits(policy, Min(attempt as nat - 1, 31));
    }
    if DelayForAttempt(policy, attempt).Some? {
      MillisRoundTrip(Min(NominalDelay(policy, attempt as nat), U64_MAX) as u64);
    }
  }

  lemma NominalGrows(policy: ReconnectPolicy, a: nat, b: nat)
    requires 0 < a <= b
    ensures NominalDelay(policy, a) <= NominalDelay(policy, b)
  {
    Pow2Monotonic(Min(a - 1, 31), Min(b - 1, 31));
    MulMonotonic(Pow2(Min(a - 1, 31)), Pow2(Min(b - 1, 31)), policy.initialDelay.AsMillis());
  }

  /** Delays never shrink from one attempt to a later one. */
  lemma DelaysNeverShrink(policy: ReconnectPolicy, a: u32, b: u32)
    requires policy.Valid() && a <= b
    requires DelayForAttempt(policy, a).Some? && DelayForAttempt(policy, b).Some?
    ensures DelayForAttempt(policy, a).value.AsMillis() <= DelayForAttempt(policy, b).value.AsMillis()
  {
    DelayIsNominal(policy, a);
    DelayIsNominal(policy, b);
    NominalGrows(policy, a as nat, b as nat);
  }

  // ----- the retry loop -----

  /** What one attempt leads to: the end of the loop, or another attempt. */
  datatype Attempt<+T> = Done(result: Result<T>) | Again(error: Error)

  datatype ConnectOutcome<+T> = Refused(error: Error) | HandshakeFailed(error: Error) | Established(stream: T)

  /** The first connection is retried after any failure. */
  function ConnectAttempt<T>(outcome: ConnectOutcome<T>): Attempt<T> {
    match outcome
    case Refused(e) => Again(e)
    case HandshakeFailed(e) => Again(e)
    case Established(stream) => Done(Ok(stream))
  }

  /** A reconnection gives up when the server refuses the handshake. */
  function ReconnectAttempt<T>(outcome: ConnectOutcome<T>): Attempt<T> {
    match outcome
    case Refused(e) => Again(e)
    case HandshakeFailed(e) => Done(Err(e))
    case Established(stream) => Done(Ok(stream))
  }

  function DelayOf(policy: ReconnectPolicy, attempt: u32): nat {
    var d := DelayForAttempt(policy, attempt);
    if d.Some? then d.value.AsMillis() else 0
  }

  function Delays(policy: ReconnectPolicy): u32 -> nat {
    (attempt: u32) => DelayOf(policy, attempt)
  }

  /** Delays by the number of the attempt, which the loop counts in 32 bits. */
  function Counted(delays: u32 -> nat): nat -> nat {
    (k: nat) => delays(Wrap32(k))
  }

  /** Milliseconds slept after each failed attempt. */
  function DelayMs(policy: ReconnectPolicy): nat -> nat {
    Counted(Delays(policy))
  }

  /** Milliseconds slept after the first `n` failures. */
  function Slept(delay: nat -> nat, n: nat): nat {
    if n == 0 then 0 else Slept(delay, n - 1) + delay(n)
  }

  ghost predicate FailsUpTo<T>(outcome: nat -> Attempt<T>, n: nat) {
    forall k :: 1 <= k <= n ==> outcome(k).Again?
  }

  lemma FailsOnceMore<T>(outcome: nat -> Attempt<T>, n: nat)
    requires n > 0 && FailsUpTo(outcome, n - 1) && outcome(n).Again?
    ensures FailsUpTo(outcome, n)
  {
  }

  lemma SleptOnceMore(delay: nat -> nat, n: nat)
    requires n > 0
    ensures Slept(delay, n) == Slept(delay, n - 1) + delay(n)
  {
  }

  /** No number of failures ends the loop: there is no limit, or it is the largest number, and
      the 32-bit counter of attempts wraps around before it is passed. */
  predicate Endless(maxAttempts: u32) {
    maxAttempts == 0 || maxAttempts as nat == U32_MAX
  }

  /** What the loop has come to after `connects` attempts: settled by the last one, given up
      after the allowed number, or still trying. */
  ghost predicate RetryOutcome<T>(maxAttempts: u32, delay: nat -> nat, outcome: nat -> Attempt<T>, patience: nat,
                                  r: Option<Result<T>>, connects: nat, sleptMs: nat)
  {
    && connects <= patience && (!Endless(maxAttempts) ==> connects <= maxAttempts as nat)
    && (connects > 0 ==> FailsUpTo(outcome, connects - 1))
    && (r.None? ==> connects == patience && FailsUpTo(outcome, connects) && sleptMs == Slept(delay, connects)
                    && (!Endless(maxAttempts) ==> connects < maxAttempts as nat))
    && (r.Some? ==> connects > 0 && match outcome(connects)
                                    case Done(result) => r.value == result && sleptMs == Slept(delay, connects - 1)
                                    case Again(error) => !Endless(maxAttempts) && connects == maxAttempts as nat
                                                         && r.value == Err(error) && sleptMs == Slept(delay, connects))
  }

  /** The loop's test, put in terms of the attempts made. */
  lemma LimitReachedIff(maxAttempts: u32, connects: nat)
    requires !Endless(maxAttempts) ==> connects <= maxAttempts as nat
    ensures maxAttempts > 0 && Wrap32(connects + 1) > maxAttempts <==>
      !Endless(maxAttempts) && connects == maxAttempts as nat
  {
  }

  lemma RetryFailed<T>(delays: u32 -> nat, outcome: nat -> Attempt<T>, connects: nat, sleptMs: nat)
    requires connects > 0 && FailsUpTo(outcome, connects - 1) && outcome(connects).Again?
    requires sleptMs == Slept(Counted(delays), connects - 1)
    ensures FailsUpTo(outcome, connects)
    ensures sleptMs + delays(Wrap32(connects)) == Slept(Counted(delays), connects)
  {
    FailsOnceMore(outcome, connects);
    SleptOnceMore(Counted(delays), connects);
  }

  /** The counter of attempts, which wraps around. */
  function NextAttempt(attempt: u32): u32 {
    if attempt as nat == U32_MAX then 0 else attempt + 1
  }

  lemma AttemptCounts(n: nat)
    ensures NextAttempt(Wrap32(n)) == Wrap32(n + 1)
  {
  }

  /** Connects until an attempt settles it or the attempts are used up, sleeping in between.
      As it need not end, it is watched for `patience` attempts, any number of them. */
  method RetryLoop<T>(maxAttempts: u32, delays: u32 -> nat, outcome: nat -> Attempt<T>, patience: nat)
    returns (r: Option<Result<T>>, connects: nat, sleptMs: nat)
    ensures RetryOutcome(maxAttempts, Counted(delays), outcome, patience, r, connects, sleptMs)
  {
    var attempt: u32 := 1;
    var lastError := Network;
    connects, sleptMs := 0, 0;
    while true
      invariant attempt == Wrap32(connects + 1)
      invariant connects <= patience && (!Endless(maxAttempts) ==> connects <= maxAttempts as nat)
      invariant FailsUpTo(outcome, connects) && sleptMs == Slept(Counted(delays), connects)
      invariant connects > 0 ==> outcome(connects) == Again(lastError)
      decreases patience - connects
    {
      LimitReachedIff(maxAttempts, connects);
      if maxAttempts > 0 && attempt > maxAttempts {
        return Some(Err(lastError)), connects, sleptMs;
      }
      if connects == patience {
        return None, connects, sleptMs;
      }
      connects := connects + 1;
      var tried := outcome(connects);
      if tried.Done? {
        return Some(tried.result), connects, sleptMs;
      }
      RetryFailed(delays, outcome, connects, sleptMs);
      lastError := tried.error;
      sleptMs := sleptMs + delays(attempt);
      AttemptCounts(connects);
      attempt := NextAttempt(attempt);
    }
  }

  /** When every attempt fails the loop makes exactly the allowed number of attempts. */
  method ExhaustedRetry<T>(policy: ReconnectPolicy, outcome: nat -> Attempt<T>) returns (connects: nat, sleptMs: nat)
    requires policy.Valid() && 0 < policy.maxAttempts as nat < U32_MAX
    requires FailsUpTo(outcome, policy.maxAttempts as nat)
    ensures connects == policy.maxAttempts as nat
    ensures sleptMs <= connects * policy.maxDelay.AsMillis()
    ensures connects <= 32 ==> sleptMs <= policy.initialDelay.AsMillis() * (Pow2(connects) - 1)
  {
    var r;
    r, connects, sleptMs := RetryLoop(policy.maxAttempts, Delays(policy), outcome, policy.maxAttempts as nat);
    SleptAtMost(policy, connects);
    if connects <= 32 {
      SleptGeometric(policy, connects);
    }
  }

  lemma DelayAtMost(policy: ReconnectPolicy, n: nat)
    requires policy.Valid() && n > 0
    ensures DelayMs(policy)(n) <= policy.maxDelay.AsMillis()
    ensures n <= 32 ==> DelayMs(policy)(n) <= policy.initialDelay.AsMillis() * Pow2(n - 1)
  {
    DelayIsNominal(policy, Wrap32(n));
  }

  lemma {:induction false} SleptAtMost(policy: ReconnectPolicy, n: nat)
    requires policy.Valid()
    ensures Slept(DelayMs(policy), n) <= n * policy.maxDelay.AsMillis()
  {
    if n > 0 {
      SleptAtMost(policy, n - 1);
      DelayAtMost(policy, n);
      MulStep(n, policy.maxDelay.AsMillis());
    }
  }

  lemma {:induction false} SleptGeometric(policy: ReconnectPolicy, n: nat)
    requires policy.Valid() && n <= 32
    ensures Slept(DelayMs(policy), n) <= policy.initialDelay.AsMillis() * (Pow2(n) - 1)
  {
    if n > 0 {
      SleptGeometric(policy, n - 1);
      DelayAtMost(policy, n);
      Doubling(policy.initialDelay.AsMillis(), Pow2(n - 1));
    }
  }

  lemma Doubling(ms: nat, p: nat)
    requires p >= 1
    ensures ms * (2 * p - 1) == ms * (p - 1) + ms * p
  {
  }
}
