/**
 * Resilience helpers of the build scripts: classifying an error as
 * transient, the exponential-backoff retry loop, and the circuit breaker.
 * Time and the outcomes of the guarded calls are inputs; timers, promises
 * and event notifications are not modelled.
 */
module Resilience {
  import opened Common

  // ---------------------------------------------------------------------------
  // Transient errors

  /**
   * A thrown error as the classifier sees it. `code` is None when the code is
   * missing or not a string; `message` is None when it is missing or not a
   * string.
   */
  datatype Failure = Failure(code: Option<string>, message: Option<string>)

  const TransientCodes: seq<string> := ["EAGAIN", "EIO", "ENOSPC", "EBUSY", "ETIMEDOUT"]
  const TransientPatterns: seq<string> := ["timeout", "ECONNRESET", "EAGAIN", "EIO", "ENOSPC", "EBUSY"]

  /** JavaScript `s.includes(p)`. */
  predicate Contains(s: string, p: string)
    decreases |s|
  {
    StartsWith(s, p) || (|s| > 0 && Contains(s[1..], p))
  }

  lemma {:induction false} ContainsAt(s: string, p: string, i: nat)
    requires i + |p| <= |s| && s[i..i + |p|] == p
    ensures Contains(s, p)
    decreases i
  {
    if i == 0 {
      assert s[..|p|] == p;
    } else {
      assert s[1..][i - 1..i - 1 + |p|] == s[i..i + |p|];
      ContainsAt(s[1..], p, i - 1);
    }
  }

  lemma {:induction false} ContainsIndex(s: string, p: string) returns (i: nat)
    requires Contains(s, p)
    ensures i + |p| <= |s| && s[i..i + |p|] == p
    decreases |s|
  {
    if StartsWith(s, p) {
      i := 0;
    } else {
      var j := ContainsIndex(s[1..], p);
      assert s[1..][j..j + |p|] == s[j + 1..j + 1 + |p|];
      i := j + 1;
    }
  }

  /** Pattern `p` occurs in `s` at position `i`. */
  predicate OccursAt(s: string, p: string, i: nat) {
    i + |p| <= |s| && s[i..i + |p|] == p
  }

  /** `includes` holds exactly when the pattern occurs at some position. */
  lemma ContainsIff(s: string, p: string)
    ensures Contains(s, p) <==> exists i: nat :: OccursAt(s, p, i)
  {
    if Contains(s, p) {
      var i := ContainsIndex(s, p);
      assert OccursAt(s, p, i);
    }
    if exists i: nat :: OccursAt(s, p, i) {
      var i: nat :| OccursAt(s, p, i);
      ContainsAt(s, p, i);
    }
  }

  lemma ContainsInfix(pre: string, p: string, post: string)
    ensures Contains(pre + p + post, p)
  {
    var s := pre + p + post;
    assert s[|pre|..|pre| + |p|] == p;
    ContainsAt(s, p, |pre|);
  }

  lemma EmptyContainsNothing(p: string)
    requires p != ""
    ensures !Contains("", p)
  {
  }

  predicate MentionsTransient(m: string) {
    Contains(m, "timeout") || Contains(m, "ECONNRESET") || Contains(m, "EAGAIN")
    || Contains(m, "EIO") || Contains(m, "ENOSPC") || Contains(m, "EBUSY")
  }

  /** `isTransientError`; None is the null or undefined error. */
  function IsTransientError(e: Option<Failure>): (b: bool)
    ensures e.None? ==> !b
    ensures e.Some? && e.value.message.None? ==> (b <==> e.value.code.Some? && e.value.code.value in TransientCodes)
  {
    if e.None? then false
    else if e.value.code.Some? && e.value.code.value in TransientCodes then true
    else if e.value.message.Some? && e.value.message.value != "" then MentionsTransient(e.value.message.value)
    else false
  }

  /** A transient code decides the answer whatever the message says. */
  lemma TransientByCode(c: string, m: Option<string>)
    requires c in TransientCodes
    ensures IsTransientError(Some(Failure(Some(c), m)))
  {
  }

  /** A message containing one of the patterns makes any error transient. */
  lemma TransientByMessage(code: Option<string>, pre: string, p: string, post: string)
    requires p in TransientPatterns
    ensures IsTransientError(Some(Failure(code, Some(pre + p + post))))
  {
    ContainsInfix(pre, p, post);
  }

  lemma Witness(m: string, p: string, k: nat)
    requires k < |TransientPatterns| && TransientPatterns[k] == p && Contains(m, p)
    ensures exists q :: q in TransientPatterns && Contains(m, q)
  {
    assert TransientPatterns[k] in TransientPatterns;
  }

  /** A message mentions a transient condition iff it contains one of the listed patterns. */
  lemma MentionsIff(m: string)
    ensures MentionsTransient(m) <==> exists p :: p in TransientPatterns && Contains(m, p)
  {
    if Contains(m, "timeout") { Witness(m, "timeout", 0); }
    else if Contains(m, "ECONNRESET") { Witness(m, "ECONNRESET", 1); }
    else if Contains(m, "EAGAIN") { Witness(m, "EAGAIN", 2); }
    else if Contains(m, "EIO") { Witness(m, "EIO", 3); }
    else if Contains(m, "ENOSPC") { Witness(m, "ENOSPC", 4); }
    else if Contains(m, "EBUSY") { Witness(m, "EBUSY", 5); }
  }

  /** The error is transient iff its code is listed or its message contains a listed pattern. */
  lemma TransientIff(f: Failure)
    ensures IsTransientError(Some(f)) <==>
      (f.code.Some? && f.code.value in TransientCodes)
      || (f.message.Some? && exists p :: p in TransientPatterns && Contains(f.message.value, p))
  {
    if f.message.Some? {
      MentionsIff(f.message.value);
      if f.message.value == "" {
        forall p | p in TransientPatterns
          ensures !Contains(f.message.value, p)
        {
          EmptyContainsNothing(p);
        }
      }
    }
  }

  /** Codes such as ENOENT and EINVAL are not transient on their own. */
  lemma OtherCodesNotTransient()
    ensures !IsTransientError(Some(Failure(Some("ENOENT"), None)))
    ensures !IsTransientError(Some(Failure(Some("EINVAL"), None)))
    ensures !IsTransientError(Some(Failure(None, Some(""))))
  {
    EmptyContainsNothing("timeout");
  }

  // ---------------------------------------------------------------------------
  // Retry with exponential backoff

  const DefaultMaxAttempts := 3
  const DefaultInitialDelayMs := 100
  const DefaultMaxDelayMs := 10000
  const DefaultBackoffMultiplier := 2

  /** What one call of the retried function does. */
  datatype Call<T> = Returned(value: T) | Threw(error: Failure)

  /**
   * How `retry` ends: with the value of a successful call, with the
   * RETRY_EXHAUSTED error and its details, or, when maxAttempts < 1, by
   * throwing the never-assigned `lastError` (undefined).
   */
  datatype RetryResult<T> =
    | Succeeded(value: T, attempts: nat)
    | Exhausted(attempts: nat, maxAttempts: int, lastError: Option<string>, lastErrorCode: Option<string>)
    | ThrewUndefined

  /** Number of calls the result reports. */
  function CallsMade<T>(r: RetryResult<T>): nat {
    if r.ThrewUndefined? then 0 else r.attempts
  }

  function Pow(b: int, e: nat): int {
    if e == 0 then 1 else b * Pow(b, e - 1)
  }

  function Min(a: int, b: int): int {
    if a <= b then a else b
  }

  /** The wait after failed attempt `attempt` (integer milliseconds). */
  function BackoffDelay(initialDelayMs: int, backoffMultiplier: int, maxDelayMs: int, attempt: nat): (d: int)
    requires attempt >= 1
    ensures d <= maxDelayMs
  {
    Min(initialDelayMs * Pow(backoffMultiplier, attempt - 1), maxDelayMs)
  }

  lemma MulGrows(x: int, m: int)
    requires x >= 0 && m >= 1
    ensures x <= x * m
  {
  }

  lemma {:induction false} PowNonNegative(b: int, e: nat)
    requires b >= 0
    ensures Pow(b, e) >= 0
  {
    if e > 0 {
      PowNonNegative(b, e - 1);
    }
  }

  /** With a non-negative initial delay and a multiplier of at least 1, delays never shrink. */
  lemma BackoffMonotone(initialDelayMs: int, backoffMultiplier: int, maxDelayMs: int, attempt: nat)
    requires attempt >= 1 && initialDelayMs >= 0 && backoffMultiplier >= 1
    ensures BackoffDelay(initialDelayMs, backoffMultiplier, maxDelayMs, attempt)
         <= BackoffDelay(initialDelayMs, backoffMultiplier, maxDelayMs, attempt + 1)
  {
    var p := Pow(backoffMultiplier, attempt - 1);
    PowNonNegative(backoffMultiplier, attempt - 1);
    assert Pow(backoffMultiplier, attempt) == backoffMultiplier * p;
    MulGrows(initialDelayMs * p, backoffMultiplier);
    assert initialDelayMs * (backoffMultiplier * p) == (initialDelayMs * p) * backoffMultiplier;
  }

  /** Under the cap the delay is the initial delay times the multiplier's power. */
  lemma BackoffUncapped(initialDelayMs: int, backoffMultiplier: int, maxDelayMs: int, attempt: nat)
    requires attempt >= 1
    requires initialDelayMs * Pow(backoffMultiplier, attempt - 1) <= maxDelayMs
    ensures BackoffDelay(initialDelayMs, backoffMultiplier, maxDelayMs, attempt)
         == initialDelayMs * Pow(backoffMultiplier, attempt - 1)
  {
  }

  /** With the default options the waits are 100 ms and 200 ms. */
  lemma DefaultDelays()
    ensures BackoffDelay(DefaultInitialDelayMs, DefaultBackoffMultiplier, DefaultMaxDelayMs, 1) == 100
    ensures BackoffDelay(DefaultInitialDelayMs, DefaultBackoffMultiplier, DefaultMaxDelayMs, 2) == 200
  {
    assert Pow(2, 1) == 2;
  }

  /**
   * `retry`: `call(k)` is what the k-th call of fn does. Returns how the
   * loop ends and the waits it makes, in order.
   */
  method Retry<T>(call: nat -> Call<T>, maxAttempts: int, initialDelayMs: int, maxDelayMs: int,
                  backoffMultiplier: int, shouldRetry: Failure -> bool)
    returns (r: RetryResult<T>, delays: seq<int>)
    ensures r.ThrewUndefined? <==> maxAttempts < 1
    ensures !r.ThrewUndefined? ==> 1 <= r.attempts <= maxAttempts
    ensures r.Succeeded? ==> call(r.attempts) == Returned(r.value)
    ensures r.Exhausted? ==>
      call(r.attempts).Threw?
      && (r.attempts == maxAttempts || !shouldRetry(call(r.attempts).error))
      && r.maxAttempts == maxAttempts
      && r.lastError == call(r.attempts).error.message
      && r.lastErrorCode == call(r.attempts).error.code
    ensures forall k :: 1 <= k < CallsMade(r) ==> call(k).Threw? && shouldRetry(call(k).error)
    ensures |delays| == if r.ThrewUndefined? then 0 else CallsMade(r) - 1
    ensures forall j :: 0 <= j < |delays| ==>
      delays[j] == BackoffDelay(initialDelayMs, backoffMultiplier, maxDelayMs, j + 1) && delays[j] <= maxDelayMs
  {
    var attempt := 1;
    delays := [];
    while attempt <= maxAttempts
      invariant 1 <= attempt
      invariant attempt <= maxAttempts || attempt == 1
      invariant |delays| == attempt - 1
      invariant forall j :: 0 <= j < |delays| ==> delays[j] == BackoffDelay(initialDelayMs, backoffMultiplier, maxDelayMs, j + 1)
      invariant forall k :: 1 <= k < attempt ==> call(k).Threw? && shouldRetry(call(k).error)
      decreases maxAttempts - attempt
    {
      match call(attempt) {
        case Returned(v) =>
          r := Succeeded(v, attempt);
          return;
        case Threw(e) =>
          if attempt == maxAttempts || !shouldRetry(e) {
            r := Exhausted(attempt, maxAttempts, e.message, e.code);
            return;
          }
          var delay := Min(initialDelayMs * Pow(backoffMultiplier, attempt - 1), maxDelayMs);
          delays := delays + [delay];
      }
      attempt := attempt + 1;
    }
    r := ThrewUndefined;
  }

  // ---------------------------------------------------------------------------
  // Circuit breaker

  const DefaultFailureThreshold := 5
  const DefaultResetTimeoutMs := 60000
  const DefaultMonitoringPeriodMs := 10000

  datatype BreakerState = Closed | Open | HalfOpen

  /** What `getState` reports: the state, the failure count and the last failure time (None is null). */
  datatype Snapshot = Snapshot(state: BreakerState, failureCount: nat, lastFailureTime: Option<int>)

  /** How `execute` ends: refused because the circuit is open, or with the guarded call's result. */
  datatype Execution<T> =
    | Rejected(failureCount: nat, lastFailureTime: Option<int>, resetTimeoutMs: int)
    | Passed(value: T)
    | Failed(error: Failure)

  /** JavaScript `option || default` for a numeric option (None is undefined). */
  function OrDefault(o: Option<int>, d: int): int {
    if o.Some? && o.value != 0 then o.value else d
  }

  /** `shouldAttemptReset`: a recorded (truthy) failure time more than resetTimeoutMs ago. */
  predicate ResetDue(s: Snapshot, resetTimeoutMs: int, now: int) {
    s.lastFailureTime.Some? && s.lastFailureTime.value != 0
    && now - s.lastFailureTime.value > resetTimeoutMs
  }

  /** `onSuccess`. */
  function AfterSuccess(s: Snapshot): Snapshot {
    Snapshot(if s.state == HalfOpen then Closed else s.state, 0, s.lastFailureTime)
  }

  /** `onFailure` at time `now`. */
  function AfterFailure(s: Snapshot, failureThreshold: int, now: int): Snapshot {
    var count := s.failureCount + 1;
    var next :=
      if s.state == HalfOpen then Open
      else if count >= failureThreshold && s.state == Closed then Open
      else s.state;
    Snapshot(next, count, Some(now))
  }

  /**
   * `execute`: the breaker's checks at time `now`, then the guarded call's
   * `outcome`, which settles at time `settledAt`.
   */
  function ExecuteStep<T>(s: Snapshot, failureThreshold: int, resetTimeoutMs: int,
                          now: int, outcome: Call<T>, settledAt: int): (Snapshot, Execution<T>)
  {
    if s.state == Open && !ResetDue(s, resetTimeoutMs, now) then
      (s, Rejected(s.failureCount, s.lastFailureTime, resetTimeoutMs))
    else
      var t := if s.state == Open then s.(state := HalfOpen) else s;
      match outcome
      case Returned(v) => (AfterSuccess(t), Passed(v))
      case Threw(e) => (AfterFailure(t, failureThreshold, settledAt), Failed(e))
  }

  /** The state after `reset`. */
  const ResetSnapshot := Snapshot(Closed, 0, None)

  /**
   * What the breaker's transitions keep: a closed circuit has fewer failures
   * than the threshold (or none), and an open or half-open circuit, like a
   * non-zero failure count, has a recorded failure time.
   */
  predicate Coherent(s: Snapshot, failureThreshold: int) {
    (s.state == Closed ==> s.failureCount == 0 || s.failureCount < failureThreshold)
    && (s.state != Closed ==> s.lastFailureTime.Some?)
    && (s.failureCount > 0 ==> s.lastFailureTime.Some?)
  }

  /** `onSuccess` clears the count, closes a half-open circuit and leaves other states alone. */
  lemma SuccessFacts(s: Snapshot)
    ensures AfterSuccess(s).failureCount == 0
    ensures AfterSuccess(s).lastFailureTime == s.lastFailureTime
    ensures s.state == HalfOpen ==> AfterSuccess(s).state == Closed
    ensures s.state != HalfOpen ==> AfterSuccess(s).state == s.state
  {
  }

  /**
   * `onFailure` counts the failure and records its time; it opens a
   * half-open circuit, and a closed one once the count reaches the threshold.
   */
  lemma FailureFacts(s: Snapshot, failureThreshold: int, now: int)
    ensures AfterFailure(s, failureThreshold, now).failureCount == s.failureCount + 1
    ensures AfterFailure(s, failureThreshold, now).lastFailureTime == Some(now)
    ensures AfterFailure(s, failureThreshold, now).state == Open <==>
      s.state != Closed || s.failureCount + 1 >= failureThreshold
    ensures AfterFailure(s, failureThreshold, now).state != HalfOpen
  {
  }

  /** `f` failures in a row, all at time `at`. */
  function FailMany(s: Snapshot, failureThreshold: int, n: nat, at: int): Snapshot
    decreases n
  {
    if n == 0 then s else FailMany(AfterFailure(s, failureThreshold, at), failureThreshold, n - 1, at)
  }

  /**
   * From a closed circuit with c failures, n more failures leave it closed
   * while c + n stays below the threshold and open it as soon as it does not.
   */
  lemma {:induction false} ConsecutiveFailures(s: Snapshot, failureThreshold: int, n: nat, at: int)
    requires s.state == Closed
    ensures FailMany(s, failureThreshold, n, at).failureCount == s.failureCount + n
    ensures FailMany(s, failureThreshold, n, at).state ==
      if n >= 1 && s.failureCount + n >= failureThreshold then Open else Closed
    decreases n
  {
    if n > 0 {
      var t := AfterFailure(s, failureThreshold, at);
      if t.state == Closed {
        ConsecutiveFailures(t, failureThreshold, n - 1, at);
      } else {
        StaysOpen(t, failureThreshold, n - 1, at);
      }
    }
  }

  /** Failures never close an open circuit. */
  lemma {:induction false} StaysOpen(s: Snapshot, failureThreshold: int, n: nat, at: int)
    requires s.state == Open
    ensures FailMany(s, failureThreshold, n, at).state == Open
    ensures FailMany(s, failureThreshold, n, at).failureCount == s.failureCount + n
    decreases n
  {
    if n > 0 {
      StaysOpen(AfterFailure(s, failureThreshold, at), failureThreshold, n - 1, at);
    }
  }

  /** With the default threshold a fresh breaker opens on the fifth failure, not before. */
  lemma DefaultThresholdOpensOnFifth(at: int)
    ensures FailMany(ResetSnapshot, DefaultFailureThreshold, 4, at).state == Closed
    ensures FailMany(ResetSnapshot, DefaultFailureThreshold, 5, at).state == Open
  {
    ConsecutiveFailures(ResetSnapshot, DefaultFailureThreshold, 4, at);
    ConsecutiveFailures(ResetSnapshot, DefaultFailureThreshold, 5, at);
  }

  /**
   * `execute` refuses exactly when the circuit is open and the reset timeout
   * has not passed; it then reports the breaker's figures, changes nothing
   * and does not depend on the guarded call at all.
   */
  lemma ExecuteRejects<T>(s: Snapshot, failureThreshold: int, resetTimeoutMs: int,
                          now: int, outcome: Call<T>, settledAt: int, other: Call<T>, otherAt: int)
    ensures ExecuteStep(s, failureThreshold, resetTimeoutMs, now, outcome, settledAt).1.Rejected? <==>
      s.state == Open && !ResetDue(s, resetTimeoutMs, now)
    ensures ExecuteStep(s, failureThreshold, resetTimeoutMs, now, outcome, settledAt).1.Rejected? ==>
      ExecuteStep(s, failureThreshold, resetTimeoutMs, now, outcome, settledAt)
      == (s, Rejected(s.failureCount, s.lastFailureTime, resetTimeoutMs))
      == ExecuteStep(s, failureThreshold, resetTimeoutMs, now, other, otherAt)
  {
  }

  /**
   * When `execute` runs the call, its result is the call's, a success clears
   * the count and leaves the circuit closed unless it was already open and
   * not due, and a failure after a due reset re-opens the circuit.
   */
  lemma ExecuteRuns<T>(s: Snapshot, failureThreshold: int, resetTimeoutMs: int,
                       now: int, outcome: Call<T>, settledAt: int)
    requires !(s.state == Open && !ResetDue(s, resetTimeoutMs, now))
    ensures var (t, r) := ExecuteStep(s, failureThreshold, resetTimeoutMs, now, outcome, settledAt);
      (outcome.Returned? ==> r == Passed(outcome.value) && t.failureCount == 0
                             && (s.state != Closed ==> t.state == Closed)
                             && (s.state == Closed ==> t.state == Closed))
      && (outcome.Threw? ==> r == Failed(outcome.error) && t.failureCount == s.failureCount + 1
                             && t.lastFailureTime == Some(settledAt)
                             && (s.state != Closed ==> t.state == Open))
  {
  }

  /** Every transition keeps the breaker coherent. */
  lemma CoherentPreserved<T>(s: Snapshot, failureThreshold: int, resetTimeoutMs: int,
                             now: int, outcome: Call<T>, settledAt: int)
    requires Coherent(s, failureThreshold)
    ensures Coherent(AfterSuccess(s), failureThreshold)
    ensures Coherent(AfterFailure(s, failureThreshold, now), failureThreshold)
    ensures Coherent(ExecuteStep(s, failureThreshold, resetTimeoutMs, now, outcome, settledAt).0, failureThreshold)
    ensures Coherent(ResetSnapshot, failureThreshold)
  {
  }

  /** `CircuitBreaker`, with the clock passed to the methods that read it. */
  class CircuitBreaker {
    const failureThreshold: int
    const resetTimeoutMs: int
    const monitoringPeriodMs: int
    var failureCount: nat
    var lastFailureTime: Option<int>
    var state: BreakerState

    /** Options that are missing or zero take their defaults. */
    constructor (failureThresholdOption: Option<int>, resetTimeoutOption: Option<int>, monitoringPeriodOption: Option<int>)
      ensures failureThreshold == OrDefault(failureThresholdOption, DefaultFailureThreshold)
      ensures resetTimeoutMs == OrDefault(resetTimeoutOption, DefaultResetTimeoutMs)
      ensures monitoringPeriodMs == OrDefault(monitoringPeriodOption, DefaultMonitoringPeriodMs)
      ensures GetState() == ResetSnapshot
    {
      failureThreshold := OrDefault(failureThresholdOption, DefaultFailureThreshold);
      resetTimeoutMs := OrDefault(resetTimeoutOption, DefaultResetTimeoutMs);
      monitoringPeriodMs := OrDefault(monitoringPeriodOption, DefaultMonitoringPeriodMs);
      failureCount := 0;
      lastFailureTime := None;
      state := Closed;
    }

    /** `getState`. */
    function GetState(): Snapshot
      reads this
    {
      Snapshot(state, failureCount, lastFailureTime)
    }

    predicate ShouldAttemptReset(now: int)
      reads this
    {
      ResetDue(GetState(), resetTimeoutMs, now)
    }

    method OnSuccess()
      modifies this
      ensures GetState() == AfterSuccess(old(GetState()))
    {
      failureCount := 0;
      if state == HalfOpen {
        state := Closed;
      }
    }

    method OnFailure(now: int)
      modifies this
      ensures GetState() == AfterFailure(old(GetState()), failureThreshold, now)
    {
      failureCount := failureCount + 1;
      lastFailureTime := Some(now);
      if state == HalfOpen {
        state := Open;
      } else if failureCount >= failureThreshold && state == Closed {
        state := Open;
      }
    }

    method Execute<T>(now: int, outcome: Call<T>, settledAt: int) returns (r: Execution<T>)
      modifies this
      ensures (GetState(), r) == ExecuteStep(old(GetState()), failureThreshold, resetTimeoutMs, now, outcome, settledAt)
    {
      if state == Open {
        if ShouldAttemptReset(now) {
          state := HalfOpen;
        } else {
          return Rejected(failureCount, lastFailureTime, resetTimeoutMs);
        }
      }
      match outcome {
        case Returned(v) =>
          OnSuccess();
          r := Passed(v);
        case Threw(e) =>
          OnFailure(settledAt);
          r := Failed(e);
      }
    }

    method Reset()
      modifies this
      ensures GetState() == ResetSnapshot
    {
      failureCount := 0;
      lastFailureTime := None;
      state := Closed;
    }
  }
}
