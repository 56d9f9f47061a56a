/**
 Guarded calls as they appear in the breaker's history: what one call contributes, and the load that the
 calls of any run put on an agent that does not answer.
 */
module GuardedCalls {
  import opened Common
  import opened CircuitBreaker
  import opened BreakerProtocol
  import opened RetryLoop

  type Replies<T> = nat -> Result<T, CedarError>

  /** The event by which an admitted call ends. */
  function Finish<T>(call: nat, f: Replies<T>, maxRetries: nat, at: nat): Event {
    if Outcome(f, maxRetries).Ok? then Succeed(call, at) else Fail(call, at, Attempts(f, maxRetries))
  }

  /** The events of a call that meets the breaker in state `b`. */
  function EventsOf<T>(c: Settings, b: Breaker, call: nat, f: Replies<T>, maxRetries: nat, admitAt: nat, recordAt: nat): seq<Event> {
    [Try(call, admitAt)] + if Admits(c, b, admitAt) then [Finish(call, f, maxRetries, recordAt)] else []
  }

  /**
   A guarded call extends any run by its admission and, if admitted, exactly one outcome; the breaker ends up
   as `ExecuteGuarded` leaves it and the other calls in flight stay in flight.
   */
  lemma {:induction false} GuardedCallExtendsRun<T>(c: Settings, es: seq<Event>, call: nat, f: Replies<T>,
                                                    maxRetries: nat, admitAt: nat, recordAt: nat)
    requires IsRun(c, es) && call !in After(c, es).inFlight && After(c, es).now <= admitAt <= recordAt
    ensures var b := After(c, es).breaker;
            var es' := es + EventsOf(c, b, call, f, maxRetries, admitAt, recordAt);
            && IsRun(c, es') && After(c, es').now <= recordAt
            && After(c, es').breaker == AfterGuarded(c, b, maxRetries, f, admitAt, recordAt)
            && After(c, es').inFlight == After(c, es).inFlight
  {
    var w := After(c, es);
    var tried := es + [Try(call, admitAt)];
    assert Front(tried) == es && Last(tried) == Try(call, admitAt);
    if Admits(c, w.breaker, admitAt) {
      var finish := Finish(call, f, maxRetries, recordAt);
      var es' := tried + [finish];
      assert es' == es + EventsOf(c, w.breaker, call, f, maxRetries, admitAt, recordAt);
      assert Front(es') == tried && Last(es') == finish;
      assert w.inFlight + {call} - {call} == w.inFlight;
    } else {
      assert tried == es + EventsOf(c, w.breaker, call, f, maxRetries, admitAt, recordAt);
    }
  }

  // ------------------------------------------------------------------ concurrent load

  /** From event `i` on every outcome is that of a guarded call; the one ending at event `k` got `replies(k)`. */
  predicate OutcomesOfCalls<T>(es: seq<Event>, i: nat, replies: nat -> Replies<T>, maxRetries: nat) {
    forall k :: i <= k < |es| && !es[k].Try? ==> es[k] == Finish(es[k].call, replies(k), maxRetries, es[k].at)
  }

  /**
   The load a dead agent sees, in every interleaving: the failed HTTP requests in any window without a success
   are at most `maxRetries` times the failure budget.
   */
  lemma {:induction false} LoadBudget<T>(c: Settings, es: seq<Event>, i: nat, cap: nat, from: nat, width: nat,
                                         replies: nat -> Replies<T>, maxRetries: nat)
    requires c.Valid() && c.threshold >= 1 && c.resetTimeout >= 1 && IsRun(c, es) && i <= |es|
    requires InFlightAtMost(c, es, i, cap) && Fruitless(es, i, from)
    requires After(c, es).now <= from + width
    requires Streak(es) < U32_LIMIT
    requires OutcomesOfCalls(es, i, replies, maxRetries)
    ensures FailedAttempts(es, i) <= maxRetries * (c.threshold - 1 + cap * (1 + width / c.resetTimeout))
  {
    forall k | i <= k < |es| && es[k].Fail? ensures es[k].attempts <= maxRetries {
      AttemptsAtMost(replies(k), maxRetries);
    }
    AttemptBudget(c, es, i, cap, from, width, maxRetries);
  }

  lemma {:induction false} AttemptsAtMost<T>(f: Replies<T>, maxRetries: nat)
    ensures Attempts(f, maxRetries) <= maxRetries
  {
    if maxRetries > 0 {
      StopFromAtMost(f, maxRetries, 1);
    }
  }

  lemma {:induction false} StopFromAtMost<T>(f: Replies<T>, maxRetries: nat, a: nat)
    requires a <= maxRetries
    ensures StopFrom(f, maxRetries, a) <= maxRetries
    decreases maxRetries - a
  {
    if !Stops(f, maxRetries, a) {
      StopFromAtMost(f, maxRetries, a + 1);
    }
  }

  // ------------------------------------------------------------------ sequential load

  /** One call of a client that issues its calls one after the other. */
  datatype Call<T> = Call(replies: Replies<T>, admitAt: nat, recordAt: nat)

  /** Each call ends before the next one starts. */
  predicate InOrder<T>(calls: seq<Call<T>>) {
    && (forall i :: 0 <= i < |calls| ==> calls[i].admitAt <= calls[i].recordAt)
    && (forall i, j :: 0 <= i < j < |calls| ==> calls[i].recordAt <= calls[j].admitAt)
  }

  /** The breaker after the calls, one `ExecuteGuarded` each. */
  function BreakerAfter<T>(c: Settings, calls: seq<Call<T>>, maxRetries: nat): Breaker {
    if calls == [] then Initial
    else
      var last := Last(calls);
      AfterGuarded(c, BreakerAfter(c, Front(calls), maxRetries), maxRetries, last.replies, last.admitAt, last.recordAt)
  }

  /** The events of the calls, numbered in order. */
  function History<T>(c: Settings, calls: seq<Call<T>>, maxRetries: nat): seq<Event> {
    if calls == [] then []
    else
      var last, b := Last(calls), BreakerAfter(c, Front(calls), maxRetries);
      History(c, Front(calls), maxRetries) + EventsOf(c, b, |calls| - 1, last.replies, maxRetries, last.admitAt, last.recordAt)
  }

  /** Sequential calls make a run of the protocol, with the breaker the calls leave and nothing in flight. */
  lemma {:induction false} SequentialCallsRun<T>(c: Settings, calls: seq<Call<T>>, maxRetries: nat)
    requires InOrder(calls)
    ensures var es := History(c, calls, maxRetries);
            && IsRun(c, es) && After(c, es).breaker == BreakerAfter(c, calls, maxRetries)
            && After(c, es).inFlight == {} && After(c, es).now <= (if calls == [] then 0 else Last(calls).recordAt)
  {
    if calls != [] {
      var last := Last(calls);
      SequentialCallsRun(c, Front(calls), maxRetries);
      GuardedCallExtendsRun(c, History(c, Front(calls), maxRetries), |calls| - 1, last.replies, maxRetries, last.admitAt, last.recordAt);
    }
  }

  /** The last of the calls is admitted and fails. */
  predicate LastFails<T>(c: Settings, calls: seq<Call<T>>, maxRetries: nat)
    requires calls != []
  {
    Admits(c, BreakerAfter(c, Front(calls), maxRetries), Last(calls).admitAt) && Outcome(Last(calls).replies, maxRetries).Err?
  }

  /** How many calls fail, from call `n` on. */
  function FailedCalls<T>(c: Settings, calls: seq<Call<T>>, maxRetries: nat, n: nat): nat
    requires n <= |calls|
  {
    if |calls| == n then 0
    else FailedCalls(c, Front(calls), maxRetries, n) + if LastFails(c, calls, maxRetries) then 1 else 0
  }

  /** How many HTTP requests these make. */
  function FailedRequests<T>(c: Settings, calls: seq<Call<T>>, maxRetries: nat, n: nat): nat
    requires n <= |calls|
  {
    if |calls| == n then 0
    else FailedRequests(c, Front(calls), maxRetries, n) +
         if LastFails(c, calls, maxRetries) then Attempts(Last(calls).replies, maxRetries) else 0
  }

  /** How the quantities of the run grow with one more call. */
  lemma {:induction false} HistoryWindowStep<T>(c: Settings, es: seq<Event>, i: nat, from: nat, call: nat, f: Replies<T>,
                                                maxRetries: nat, admitAt: nat, recordAt: nat)
    requires i <= |es| && After(c, es).inFlight == {} && from <= admitAt <= recordAt
    requires InFlightAtMost(c, es, i, 1) && Fruitless(es, i, from) && Outcome(f, maxRetries).Err?
    ensures var b := After(c, es).breaker;
            var es' := es + EventsOf(c, b, call, f, maxRetries, admitAt, recordAt);
            && InFlightAtMost(c, es', i, 1) && Fruitless(es', i, from)
            && Failures(es', i) == Failures(es, i) + (if Admits(c, b, admitAt) then 1 else 0)
            && FailedAttempts(es', i) == FailedAttempts(es, i) + (if Admits(c, b, admitAt) then Attempts(f, maxRetries) else 0)
  {
    var w, tried := After(c, es), es + [Try(call, admitAt)];
    assert Front(tried) == es && Last(tried) == Try(call, admitAt);
    if Admits(c, w.breaker, admitAt) {
      var finish := Finish(call, f, maxRetries, recordAt);
      var es' := tried + [finish];
      assert es' == es + EventsOf(c, w.breaker, call, f, maxRetries, admitAt, recordAt);
      assert Front(es') == tried && Last(es') == finish;
      assert After(c, tried).inFlight == {call};
      assert After(c, es').inFlight == {};
    } else {
      assert tried == es + EventsOf(c, w.breaker, call, f, maxRetries, admitAt, recordAt);
    }
  }

  /** From event `i`, the first of call `n`, the history has no success and counts what the calls count. */
  predicate Window<T>(c: Settings, calls: seq<Call<T>>, maxRetries: nat, n: nat, i: nat, from: nat)
    requires n <= |calls|
  {
    var es := History(c, calls, maxRetries);
    && i <= |es| && InFlightAtMost(c, es, i, 1) && Fruitless(es, i, from)
    && Failures(es, i) == FailedCalls(c, calls, maxRetries, n)
    && FailedAttempts(es, i) == FailedRequests(c, calls, maxRetries, n)
  }

  lemma {:induction false} WindowGrows<T>(c: Settings, calls: seq<Call<T>>, maxRetries: nat, n: nat, i: nat, from: nat)
    requires n < |calls| && Window(c, Front(calls), maxRetries, n, i, from)
    requires var es := History(c, Front(calls), maxRetries);
             After(c, es).inFlight == {} && After(c, es).breaker == BreakerAfter(c, Front(calls), maxRetries)
    requires Outcome(Last(calls).replies, maxRetries).Err? && from <= Last(calls).admitAt <= Last(calls).recordAt
    ensures Window(c, calls, maxRetries, n, i, from)
  {
    var last := Last(calls);
    HistoryWindowStep(c, History(c, Front(calls), maxRetries), i, from, |calls| - 1,
                      last.replies, maxRetries, last.admitAt, last.recordAt);
  }

  lemma {:induction false} SequentialWindow<T>(c: Settings, calls: seq<Call<T>>, maxRetries: nat, n: nat, from: nat)
    requires InOrder(calls) && n <= |calls|
    requires forall k :: n <= k < |calls| ==> Outcome(calls[k].replies, maxRetries).Err? && from <= calls[k].admitAt
    ensures Window(c, calls, maxRetries, n, |History(c, calls[..n], maxRetries)|, from)
    decreases |calls|
  {
    if n == |calls| {
      assert calls[..n] == calls;
      SequentialCallsRun(c, calls, maxRetries);
    } else {
      SequentialWindow(c, Front(calls), maxRetries, n, from);
      SequentialCallsRun(c, Front(calls), maxRetries);
      assert Front(calls)[..n] == calls[..n];
      WindowGrows(c, calls, maxRetries, n, |History(c, calls[..n], maxRetries)|, from);
    }
  }

  /**
   A client that calls one after the other while the agent answers nothing: from any call on, over a time of
   `width`, at most threshold + width / resetTimeout calls fail, with at most `maxRetries` requests each.
   */
  lemma {:induction false} SequentialLoad<T>(c: Settings, calls: seq<Call<T>>, maxRetries: nat, n: nat, from: nat, width: nat)
    requires c.Valid() && c.threshold >= 1 && c.resetTimeout >= 1
    requires InOrder(calls) && n < |calls| < U32_LIMIT
    requires forall k :: n <= k < |calls| ==> Outcome(calls[k].replies, maxRetries).Err? && from <= calls[k].admitAt
    requires Last(calls).recordAt <= from + width
    ensures FailedCalls(c, calls, maxRetries, n) <= c.threshold + width / c.resetTimeout
    ensures FailedRequests(c, calls, maxRetries, n) <= maxRetries * (c.threshold + width / c.resetTimeout)
  {
    SequentialWindow(c, calls, maxRetries, n, from);
    FailedCallsBound(c, calls, maxRetries, n, |History(c, calls[..n], maxRetries)|, from, width);
    RequestsPerFailedCall(c, calls, maxRetries, n);
    ScaleMonotone(maxRetries, FailedCalls(c, calls, maxRetries, n), c.threshold + width / c.resetTimeout);
  }

  lemma {:induction false} FailedCallsBound<T>(c: Settings, calls: seq<Call<T>>, maxRetries: nat, n: nat, i: nat, from: nat, width: nat)
    requires c.Valid() && c.threshold >= 1 && c.resetTimeout >= 1
    requires InOrder(calls) && n < |calls| < U32_LIMIT && Window(c, calls, maxRetries, n, i, from)
    requires Last(calls).recordAt <= from + width
    ensures FailedCalls(c, calls, maxRetries, n) <= c.threshold + width / c.resetTimeout
  {
    SequentialCallsRun(c, calls, maxRetries);
    StreakAtMostCalls(c, calls, maxRetries);
    SequentialFailureBudget(c, History(c, calls, maxRetries), i, from, width);
  }

  lemma {:induction false} OneMoreShare(share: nat, k: nat, total: nat, more: nat)
    requires total <= share * k && more <= share
    ensures total <= share * (k + 1) && total + more <= share * (k + 1)
  {
    assert share * (k + 1) == share * k + share;
  }

  lemma {:induction false} RequestsPerFailedCall<T>(c: Settings, calls: seq<Call<T>>, maxRetries: nat, n: nat)
    requires n <= |calls|
    ensures FailedRequests(c, calls, maxRetries, n) <= maxRetries * FailedCalls(c, calls, maxRetries, n)
    decreases |calls|
  {
    if n < |calls| {
      var pre := Front(calls);
      RequestsPerFailedCall(c, pre, maxRetries, n);
      if LastFails(c, calls, maxRetries) {
        AttemptsAtMost(Last(calls).replies, maxRetries);
        OneMoreShare(maxRetries, FailedCalls(c, pre, maxRetries, n), FailedRequests(c, pre, maxRetries, n),
                     Attempts(Last(calls).replies, maxRetries));
      }
    }
  }

  lemma {:induction false} StreakAtMostCalls<T>(c: Settings, calls: seq<Call<T>>, maxRetries: nat)
    ensures Streak(History(c, calls, maxRetries)) <= |calls|
  {
    if calls != [] {
      var es, last, b := History(c, Front(calls), maxRetries), Last(calls), BreakerAfter(c, Front(calls), maxRetries);
      StreakAtMostCalls(c, Front(calls), maxRetries);
      var tried := es + [Try(|calls| - 1, last.admitAt)];
      assert Front(tried) == es && Last(tried) == Try(|calls| - 1, last.admitAt);
      if Admits(c, b, last.admitAt) {
        var finish := Finish(|calls| - 1, last.replies, maxRetries, last.recordAt);
        assert Front(tried + [finish]) == tried && Last(tried + [finish]) == finish;
        assert History(c, calls, maxRetries) == tried + [finish];
      } else {
        assert History(c, calls, maxRetries) == tried;
      }
    }
  }
}
