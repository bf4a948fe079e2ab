/** `executeWithRetry`: run one attempt of the request, and when it fails with
    an I/O failure and retries are left, sleep for the configured delay and
    run another. Attempt `i` (counting from 0) of the request is given as
    `block(i)`; a sleep is counted, not timed. */
module Retry {
  import opened Wrappers
  import opened Failures

  /** What one call of `executeWithRetry` did: its result, how many attempts
      it ran and how many sleeps it completed. */
  datatype RetryRun<T> = RetryRun(result: Result<T, Failure>, attempts: nat, sleeps: nat)

  predicate IsIoFailure<T>(outcome: Result<T, Failure>)
  {
    outcome.Failure? && IsRetryable(outcome.error)
  }

  /** The most attempts the loop can run for a given `retryCount`: the first
      one, plus one per retry when `retryCount` is positive. */
  function MaxAttempts(retryCount: int): (n: nat)
    ensures n >= 1 && n - 1 <= if retryCount < 0 then 0 else retryCount
    ensures retryCount >= 0 ==> n == retryCount + 1
  {
    if retryCount < 0 then 1 else retryCount + 1
  }

  /** `run` is what `executeWithRetry` does with `block`:
      - every attempt before the last failed with an I/O failure and was
        followed by one completed sleep, which needs a non-negative delay;
      - no more than `MaxAttempts(retryCount)` attempts are run;
      - the last attempt's outcome is the result when it is a success, a
        failure other than an I/O failure, or an I/O failure with no retry
        left; otherwise the loop stopped because the sleep before the next
        attempt refused a negative delay. */
  ghost predicate IsRetryRun<T>(run: RetryRun<T>, retryCount: int, retryDelayMs: int, block: nat -> Result<T, Failure>)
  {
    && 1 <= run.attempts <= MaxAttempts(retryCount)
    && run.sleeps == run.attempts - 1
    && (forall i: nat :: i < run.attempts - 1 ==> IsIoFailure(block(i)))
    && (run.attempts > 1 ==> retryDelayMs >= 0)
    && var last := block(run.attempts - 1);
       if !IsIoFailure(last) || run.attempts - 1 >= retryCount then run.result == last
       else retryDelayMs < 0 && run.result == Failure(Unexpected(NegativeDelay))
  }

  method ExecuteWithRetry<T>(retryCount: int, retryDelayMs: int, block: nat -> Result<T, Failure>)
    returns (run: RetryRun<T>)
    ensures IsRetryRun(run, retryCount, retryDelayMs, block)
  {
    var attempt: nat := 0;
    var sleeps: nat := 0;
    while true
      invariant sleeps == attempt
      invariant forall i: nat :: i < attempt ==> IsIoFailure(block(i))
      invariant attempt > 0 ==> retryDelayMs >= 0 && attempt <= retryCount
      decreases if attempt <= retryCount then retryCount - attempt else 0
    {
      var outcome := block(attempt);
      if !IsIoFailure(outcome) || attempt >= retryCount {
        return RetryRun(outcome, attempt + 1, sleeps);
      }
      attempt := attempt + 1;
      if retryDelayMs < 0 {
        return RetryRun(Failure(Unexpected(NegativeDelay)), attempt, sleeps);
      }
      sleeps := sleeps + 1;
    }
  }

  /** The description above leaves no choice: at most one run fits it. */
  lemma RetryRunUnique<T>(r1: RetryRun<T>, r2: RetryRun<T>, retryCount: int, retryDelayMs: int, block: nat -> Result<T, Failure>)
    requires IsRetryRun(r1, retryCount, retryDelayMs, block)
    requires IsRetryRun(r2, retryCount, retryDelayMs, block)
    ensures r1 == r2
  {
  }

  /** The first success is returned, provided the I/O failures before it
      leave retries to reach it and, when there are any, the delay is not
      negative. */
  lemma FirstSuccessReturned<T>(run: RetryRun<T>, retryCount: int, retryDelayMs: int, block: nat -> Result<T, Failure>, k: nat)
    requires IsRetryRun(run, retryCount, retryDelayMs, block)
    requires block(k).Success? && forall i: nat :: i < k ==> IsIoFailure(block(i))
    requires k < MaxAttempts(retryCount) && (k == 0 || retryDelayMs >= 0)
    ensures run.result == block(k) && run.attempts == k + 1 && run.sleeps == k
  {
  }

  /** After `retryCount + 1` I/O failures in a row the last one is rethrown,
      having slept `retryCount` times. */
  lemma ExhaustedRethrowsLast<T>(run: RetryRun<T>, retryCount: nat, retryDelayMs: int, block: nat -> Result<T, Failure>)
    requires IsRetryRun(run, retryCount, retryDelayMs, block)
    requires forall i: nat :: i <= retryCount ==> IsIoFailure(block(i))
    requires retryDelayMs >= 0
    ensures run.attempts == retryCount + 1 && run.sleeps == retryCount
    ensures run.result == block(retryCount)
  {
    var n: nat := run.attempts - 1;
    assert IsIoFailure(block(n));
  }

  /** Any failure other than an I/O failure, the UNAVAILABLE statuses
      included, ends the loop at the attempt that raised it. */
  lemma OtherFailureNotRetried<T>(run: RetryRun<T>, retryCount: int, retryDelayMs: int, block: nat -> Result<T, Failure>, k: nat)
    requires IsRetryRun(run, retryCount, retryDelayMs, block)
    requires block(k).Failure? && !IsRetryable(block(k).error)
    requires k < run.attempts
    ensures run.attempts == k + 1 && run.result == block(k)
  {
  }

  /** With a negative delay the first I/O failure is never retried: either it
      is rethrown (no retry allowed) or the sleep refuses the delay. */
  lemma NegativeDelayStopsAtFirstFailure<T>(run: RetryRun<T>, retryCount: int, retryDelayMs: int, block: nat -> Result<T, Failure>)
    requires IsRetryRun(run, retryCount, retryDelayMs, block)
    requires retryDelayMs < 0 && IsIoFailure(block(0))
    ensures run.attempts == 1 && run.sleeps == 0
    ensures run.result == if retryCount <= 0 then block(0) else Failure(Unexpected(NegativeDelay))
  {
  }
}
