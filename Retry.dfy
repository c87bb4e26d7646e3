/** The retry decorator wrapped around every store operation: the wrapped
    call is run again, up to a bounded number of attempts, when the store
    reports that its file is locked; anything else is passed straight through.
    The wrapped operation is a parameter: `op(k)` is what the call does on
    its attempt number `k` (counting from 0), so lock contention that comes
    and goes between attempts is part of the input. The fixed delay between
    attempts (`time.sleep`) and the warning it logs are not modelled. */
module Retry {
  import opened Common

  /** The two kinds of exception the decorator tells apart. */
  datatype Fault = OperationalError(message: string) | OtherError(message: string)

  /** What one call of a wrapped operation does: return a value or raise. */
  datatype Outcome<T> = Returned(value: T) | Raised(fault: Fault)

  const DefaultMaxAttempts := 3
  const LockMessage := "database is locked"
  const ExhaustedMessage := "数据库操作失败：超过最大重试次数"

  /** The store's transient lock-contention error. */
  predicate IsLockContention<T>(o: Outcome<T>) {
    o.Raised? && o.fault.OperationalError? && Contains(o.fault.message, LockMessage)
  }

  /** Attempt `k` is followed by another one: it hit lock contention and was not the last allowed. */
  predicate RetriedAfter<T>(o: Outcome<T>, k: nat, maxAttempts: int) {
    IsLockContention(o) && k < maxAttempts - 1
  }

  /** What the decorator promises about its result and the number of attempts it made. */
  ghost predicate RetryResult<T>(maxAttempts: int, op: nat -> Outcome<T>, r: Outcome<T>, attempts: nat) {
    if maxAttempts <= 0 then
      attempts == 0 && r == Raised(OtherError(ExhaustedMessage))
    else
      && 1 <= attempts <= maxAttempts
      && r == op(attempts - 1)
      && !RetriedAfter(op(attempts - 1), attempts - 1, maxAttempts)
      && forall k :: 0 <= k < attempts - 1 ==> RetriedAfter(op(k), k, maxAttempts)
  }

  /** `retry_db_operation(max_attempts)(op)()`: returns or re-raises what the
      first attempt that is not retried did. */
  method RetryDbOperation<T>(maxAttempts: int, op: nat -> Outcome<T>) returns (r: Outcome<T>, attempts: nat)
    ensures RetryResult(maxAttempts, op, r, attempts)
  {
    var attempt: nat := 0;
    while attempt < maxAttempts
      invariant maxAttempts > 0 ==> attempt < maxAttempts
      invariant forall k :: 0 <= k < attempt ==> RetriedAfter(op(k), k, maxAttempts)
      decreases maxAttempts - attempt
    {
      var outcome := op(attempt);
      if outcome.Returned? {
        return outcome, attempt + 1;
      }
      if IsLockContention(outcome) && attempt < maxAttempts - 1 {
        attempt := attempt + 1;
      } else {
        return outcome, attempt + 1;
      }
    }
    return Raised(OtherError(ExhaustedMessage)), 0;
  }

  /** At most `maxAttempts` attempts are made, and at least one when any is allowed. */
  lemma AttemptsBounded<T>(maxAttempts: int, op: nat -> Outcome<T>, r: Outcome<T>, attempts: nat)
    requires RetryResult(maxAttempts, op, r, attempts)
    ensures attempts <= if maxAttempts < 0 then 0 else maxAttempts
    ensures maxAttempts > 0 <==> attempts > 0
  {
  }

  /** The generic "too many retries" exception is raised only when no attempt is allowed
      (or when the operation itself raised exactly that exception). */
  lemma ExhaustedOnlyWithoutAttempts<T>(maxAttempts: int, op: nat -> Outcome<T>, r: Outcome<T>, attempts: nat)
    requires RetryResult(maxAttempts, op, r, attempts)
    requires forall k: nat :: op(k) != Raised(OtherError(ExhaustedMessage))
    ensures r == Raised(OtherError(ExhaustedMessage)) <==> maxAttempts <= 0
  {
    if maxAttempts > 0 {
      assert r == op(attempts - 1);
    }
  }

  /** An error other than lock contention ends the call at once and is re-raised unchanged. */
  lemma {:induction false} OtherErrorsNotRetried<T>(maxAttempts: int, op: nat -> Outcome<T>, r: Outcome<T>, attempts: nat)
    requires RetryResult(maxAttempts, op, r, attempts)
    requires maxAttempts > 0 && op(0).Raised? && !IsLockContention(op(0))
    ensures attempts == 1 && r == op(0)
  {
  }

  /** An operation that never raises is run exactly once: the wrapper is transparent. */
  lemma {:induction false} ReturningOperationRunsOnce<T>(maxAttempts: int, op: nat -> Outcome<T>, r: Outcome<T>, attempts: nat)
    requires RetryResult(maxAttempts, op, r, attempts)
    requires maxAttempts > 0 && op(0).Returned?
    ensures attempts == 1 && r == op(0)
  {
  }

  /** Lock contention on every earlier attempt followed by success on attempt `k`
      gives the same result as a first-attempt success. */
  lemma {:induction false} RetryThenSucceed<T>(maxAttempts: int, op: nat -> Outcome<T>, r: Outcome<T>, attempts: nat, k: nat)
    requires RetryResult(maxAttempts, op, r, attempts)
    requires k < maxAttempts
    requires forall j :: 0 <= j < k ==> IsLockContention(op(j))
    requires op(k).Returned?
    ensures attempts == k + 1 && r == op(k)
  {
  }

  /** Lock contention on every allowed attempt: all of them are made and the
      last lock error is re-raised unchanged (it is not replaced by the generic one). */
  lemma {:induction false} RetryExhaustion<T>(maxAttempts: int, op: nat -> Outcome<T>, r: Outcome<T>, attempts: nat)
    requires RetryResult(maxAttempts, op, r, attempts)
    requires maxAttempts > 0
    requires forall j :: 0 <= j < maxAttempts ==> IsLockContention(op(j))
    ensures attempts == maxAttempts && r == op(maxAttempts - 1) && IsLockContention(r)
  {
    assert IsLockContention(op(attempts - 1));
  }

  /** The scenario of a store locked on the first two of three attempts. */
  lemma LockedTwiceThenSucceeds<T>(op: nat -> Outcome<T>, r: Outcome<T>, attempts: nat)
    requires RetryResult(DefaultMaxAttempts, op, r, attempts)
    requires IsLockContention(op(0)) && IsLockContention(op(1)) && op(2).Returned?
    ensures attempts == 3 && r == op(2)
  {
    RetryThenSucceed(DefaultMaxAttempts, op, r, attempts, 2);
  }
}
