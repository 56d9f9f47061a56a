/**
 One guarded call: admission by the breaker, then up to `max_retries` attempts with
 exponential back-off, then exactly one outcome recorded.
 */
module RetryLoop {
  import opened Common
  import opened CircuitBreaker

  datatype CedarError =
    | HttpError(detail: string)
    | AgentError(status: nat, message: string)
    | ParseError(detail: string)
    | EntityNotFound(entityType: string, id: string)
    | AuthorizationDenied(reason: string)
    | Unavailable(detail: string)
    | ConfigError(detail: string)

  const BREAKER_OPEN := Unavailable("Circuit breaker is open")
  const RETRIES_EXCEEDED := Unavailable("Max retries exceeded")

  predicate IsTransient(e: CedarError) {
    e.HttpError? || (e.AgentError? && 502 <= e.status <= 504)
  }

  function Pow2(n: nat): nat {
    if n == 0 then 1 else 2 * Pow2(n - 1)
  }

  /**
   The delay after attempt `a` in milliseconds, in 64-bit arithmetic: a release build
   masks the shift amount to six bits and wraps the product.
   */
  function BackoffMillis(a: nat): nat
    requires a >= 1
  {
    100 * Pow2((a - 1) % 64) % U64_LIMIT
  }

  /** Attempt `a` ends the loop: it succeeded, is not worth repeating, or was the last one. */
  predicate Stops<T>(f: nat -> Result<T, CedarError>, maxRetries: nat, a: nat) {
    f(a).Ok? || !IsTransient(f(a).error) || a >= maxRetries
  }

  /** The first attempt from `a` on that ends the loop. */
  function StopFrom<T>(f: nat -> Result<T, CedarError>, maxRetries: nat, a: nat): nat
    requires a <= maxRetries
    decreases maxRetries - a
  {
    if Stops(f, maxRetries, a) then a else StopFrom(f, maxRetries, a + 1)
  }

  /** How many attempts an admitted call makes. */
  function Attempts<T>(f: nat -> Result<T, CedarError>, maxRetries: nat): nat {
    if maxRetries == 0 then 0 else StopFrom(f, maxRetries, 1)
  }

  /** What an admitted call returns. */
  function Outcome<T>(f: nat -> Result<T, CedarError>, maxRetries: nat): Result<T, CedarError> {
    if maxRetries == 0 then Err(RETRIES_EXCEEDED) else f(Attempts(f, maxRetries))
  }

  /** The breaker after a whole guarded call that nothing interrupts. */
  function AfterGuarded<T>(c: Settings, b: Breaker, maxRetries: nat, f: nat -> Result<T, CedarError>,
                           admitAt: nat, recordAt: nat): Breaker
  {
    if !Admits(c, b, admitAt) then b
    else if Outcome(f, maxRetries).Ok? then AfterSuccess(AfterAdmission(c, b, admitAt))
    else AfterFailure(c, AfterAdmission(c, b, admitAt), recordAt)
  }

  /** `k` is the first of the attempts from `a` on that ends the loop. */
  ghost predicate FirstStop<T(!new)>(f: nat -> Result<T, CedarError>, maxRetries: nat, a: nat, k: nat) {
    a <= k <= maxRetries && Stops(f, maxRetries, k) && forall i :: a <= i < k ==> !Stops(f, maxRetries, i)
  }

  lemma {:induction false} StopFromIsFirstStop<T(!new)>(f: nat -> Result<T, CedarError>, maxRetries: nat, a: nat)
    requires a <= maxRetries
    ensures FirstStop(f, maxRetries, a, StopFrom(f, maxRetries, a))
    decreases maxRetries - a
  {
    if !Stops(f, maxRetries, a) {
      StopFromIsFirstStop(f, maxRetries, a + 1);
    }
  }

  /** An admitted call makes between one attempt and `maxRetries`, exactly up to the first that ends the loop. */
  lemma {:induction false} AttemptsAreFirstStop<T(!new)>(f: nat -> Result<T, CedarError>, maxRetries: nat, k: nat)
    requires maxRetries >= 1
    ensures FirstStop(f, maxRetries, 1, k) <==> k == Attempts(f, maxRetries)
  {
    StopFromIsFirstStop(f, maxRetries, 1);
  }

  /** Errors worth another attempt: transport errors and the gateway statuses 502, 503 and 504. */
  lemma {:induction false} TransientMeans(e: CedarError)
    ensures IsTransient(e) <==> e.HttpError? || (e.AgentError? && (e.status == 502 || e.status == 503 || e.status == 504))
  {
  }

  /**
   What decides the number of attempts: `k` of them are made if all before the last failed transiently, and
   the last one succeeded, failed for good or exhausted the budget.
   */
  lemma {:induction false} AttemptsFollowReplies<T(!new)>(f: nat -> Result<T, CedarError>, maxRetries: nat, k: nat)
    requires 1 <= k <= maxRetries
    requires forall a :: 1 <= a < k ==> f(a).Err? && IsTransient(f(a).error)
    requires k == maxRetries || f(k).Ok? || !IsTransient(f(k).error)
    ensures Attempts(f, maxRetries) == k && Outcome(f, maxRetries) == f(k)
  {
    assert FirstStop(f, maxRetries, 1, k);
    AttemptsAreFirstStop(f, maxRetries, k);
  }

  /** An agent that keeps answering with one error is asked `maxRetries` times, or just once. */
  lemma {:induction false} ConstantErrorAttempts<T(!new)>(f: nat -> Result<T, CedarError>, maxRetries: nat, e: CedarError)
    requires maxRetries >= 1 && forall a :: f(a) == Err(e)
    ensures Attempts(f, maxRetries) ==
            if e.HttpError? || (e.AgentError? && (e.status == 502 || e.status == 503 || e.status == 504)) then maxRetries else 1
    ensures Outcome(f, maxRetries) == Err(e)
  {
    AttemptsFollowReplies(f, maxRetries, if IsTransient(e) then maxRetries else 1);
  }

  /** Milliseconds slept before attempt `k`, that is after attempts 1 to k - 1. */
  function SleptBefore(k: nat): nat {
    if k <= 1 then 0 else SleptBefore(k - 1) + BackoffMillis(k - 1)
  }

  /**
   `execute_with_circuit_breaker`.  `f(a)` is what attempt `a` returns; admission happens
   at `admitAt` and the outcome is recorded at `recordAt`.
   */
  method ExecuteGuarded<T(!new)>(cell: BreakerCell, maxRetries: nat, f: nat -> Result<T, CedarError>,
                                 admitAt: nat, recordAt: nat)
    returns (r: Result<T, CedarError>, attempts: nat, slept: nat)
    modifies cell
    // rejected: nothing is attempted or recorded
    ensures !Admits(cell.settings, old(cell.View()), admitAt) ==>
              r == Err(BREAKER_OPEN) && attempts == 0 && slept == 0 && cell.View() == old(cell.View())
    // admitted: the loop stops at the first attempt that calls for it, and no earlier
    ensures Admits(cell.settings, old(cell.View()), admitAt) && maxRetries >= 1 ==>
              && FirstStop(f, maxRetries, 1, attempts)
              && r == f(attempts)
              && slept == SleptBefore(attempts)
    // a budget of zero retries makes no attempt and counts as a failure
    ensures Admits(cell.settings, old(cell.View()), admitAt) && maxRetries == 0 ==>
              attempts == 0 && slept == 0 && r == Err(RETRIES_EXCEEDED)
    // exactly one outcome is recorded, and it is the one returned
    ensures Admits(cell.settings, old(cell.View()), admitAt) ==>
              attempts == Attempts(f, maxRetries) && r == Outcome(f, maxRetries)
    ensures cell.View() == AfterGuarded(cell.settings, old(cell.View()), maxRetries, f, admitAt, recordAt)
  {
    attempts, slept := 0, 0;
    var admitted := cell.CanExecute(admitAt);
    if !admitted {
      return Err(BREAKER_OPEN), 0, 0;
    }
    var lastError: Option<CedarError> := None;
    for attempt := 1 to maxRetries + 1
      invariant attempts == attempt - 1 && slept == SleptBefore(attempt)
      invariant attempt == 1 ==> lastError.None?
      invariant forall a :: 1 <= a < attempt ==> !Stops(f, maxRetries, a)
      invariant cell.View() == AfterAdmission(cell.settings, old(cell.View()), admitAt)
    {
      attempts := attempt;
      match f(attempt)
      case Ok(v) =>
        cell.RecordSuccess();
        AttemptsAreFirstStop(f, maxRetries, attempt);
        return Ok(v), attempts, slept;
      case Err(e) =>
        if IsTransient(e) && attempt < maxRetries {
          slept := slept + BackoffMillis(attempt);
          lastError := Some(e);
        } else {
          cell.RecordFailure(recordAt);
          AttemptsAreFirstStop(f, maxRetries, attempt);
          return Err(e), attempts, slept;
        }
    }
    // Only a budget of zero reaches this point.
    assert maxRetries == 0 by {
      if maxRetries > 0 {
        assert Stops(f, maxRetries, maxRetries);
      }
    }
    cell.RecordFailure(recordAt);
    match lastError {
      case Some(e) => r := Err(e);
      case None => r := Err(RETRIES_EXCEEDED);
    }
  }

  lemma {:induction false} Pow2Monotone(a: nat, b: nat)
    requires a <= b
    ensures Pow2(a) <= Pow2(b)
  {
    if a < b {
      Pow2Monotone(a, b - 1);
    }
  }

  lemma {:induction false} Pow2AtLimit()
    ensures Pow2(57) == 0x200_0000_0000_0000
  {
    assert Pow2(10) == 1024;
    assert Pow2(20) == 1048576;
    assert Pow2(30) == 1073741824;
    assert Pow2(40) == 0x100_0000_0000;
    assert Pow2(50) == 0x4_0000_0000_0000;
  }

  /** The 64-bit delay is the intended 100 * 2^(a-1) exactly up to attempt 58. */
  lemma {:induction false} BackoffIsExact(a: nat)
    requires a >= 1
    ensures BackoffMillis(a) == 100 * Pow2(a - 1) <==> a <= 58
  {
    Pow2AtLimit();
    if a <= 58 {
      Pow2Monotone(a - 1, 57);
    } else {
      assert Pow2(58) == 2 * Pow2(57);
      Pow2Monotone(58, a - 1);
    }
  }

  /** Total sleep over `k` attempts has the closed form 100 * (2^(k-1) - 1). */
  lemma {:induction false} TotalSleep(k: nat)
    requires 1 <= k <= 59
    ensures SleptBefore(k) == 100 * (Pow2(k - 1) - 1)
  {
    if k > 1 {
      TotalSleep(k - 1);
      BackoffIsExact(k - 1);
    }
  }

  /**
   Every delay a guarded call can reach is exact if and only if `max_retries` is at most 59:
   the last attempt is never followed by a sleep.
   */
  lemma {:induction false} NoDelayOverflows(maxRetries: nat)
    ensures (forall a :: 1 <= a < maxRetries ==> BackoffMillis(a) == 100 * Pow2(a - 1)) <==> maxRetries <= 59
  {
    if maxRetries <= 59 {
      forall a | 1 <= a < maxRetries
        ensures BackoffMillis(a) == 100 * Pow2(a - 1)
      {
        BackoffIsExact(a);
      }
    } else {
      BackoffIsExact(59);
    }
  }
}
