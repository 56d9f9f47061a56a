/**
 The circuit breaker that guards calls to the Cedar Agent.

 The breaker's lock is held for admission, released while the request is in
 flight and taken again to record the outcome, so concurrent calls interleave
 at the granularity of the three operations below.  `BreakerProtocol` reasons
 about every such interleaving.
 */
module CircuitBreaker {
  import opened Common

  datatype CircuitState = Closed | Open | HalfOpen

  /** `threshold` is a `u32`; times are in nanoseconds. */
  datatype Settings = Settings(threshold: nat, resetTimeout: nat) {
    predicate Valid() {
      threshold < U32_LIMIT
    }
  }

  datatype Breaker = Breaker(state: CircuitState, failureCount: nat, lastFailure: Option<nat>)

  const Initial := Breaker(Closed, 0, None)

  predicate Admits(c: Settings, b: Breaker, now: nat) {
    match b.state
    case Open => b.lastFailure.None? || Elapsed(b.lastFailure.value, now) >= c.resetTimeout
    case _ => true
  }

  /** The breaker after an admission attempt, successful or not. */
  function AfterAdmission(c: Settings, b: Breaker, now: nat): Breaker {
    if b.state.Open? && b.lastFailure.Some? && Admits(c, b, now) then b.(state := HalfOpen) else b
  }

  function AfterSuccess(b: Breaker): Breaker {
    b.(failureCount := 0, state := Closed)
  }

  /** The counter is a `u32` that wraps round in a release build. */
  function AfterFailure(c: Settings, b: Breaker, now: nat): Breaker {
    var count := (b.failureCount + 1) % U32_LIMIT;
    Breaker(if count >= c.threshold then Open else b.state, count, Some(now))
  }

  /** The mutable breaker; `View` is its abstract value. */
  class BreakerCell {
    var state: CircuitState
    var failureCount: nat
    var lastFailure: Option<nat>
    const settings: Settings

    constructor (settings: Settings)
      ensures this.settings == settings && View() == Initial
    {
      this.settings := settings;
      state, failureCount, lastFailure := Closed, 0, None;
    }

    function View(): Breaker
      reads this
    {
      Breaker(state, failureCount, lastFailure)
    }

    method CanExecute(now: nat) returns (admitted: bool)
      modifies this
      ensures admitted == Admits(settings, old(View()), now)
      ensures View() == AfterAdmission(settings, old(View()), now)
    {
      match state
      case Open =>
        match lastFailure {
          case Some(last) =>
            if Elapsed(last, now) >= settings.resetTimeout {
              state := HalfOpen;
              admitted := true;
            } else {
              admitted := false;
            }
          case None => admitted := true;
        }
      case _ => admitted := true;
    }

    method RecordSuccess()
      modifies this
      ensures View() == AfterSuccess(old(View()))
    {
      failureCount := 0;
      state := Closed;
    }

    method RecordFailure(now: nat)
      modifies this
      ensures View() == AfterFailure(settings, old(View()), now)
    {
      failureCount := (failureCount + 1) % U32_LIMIT;
      lastFailure := Some(now);
      if failureCount >= settings.threshold {
        state := Open;
      }
    }
  }
}

/**
 Every interleaving of any number of concurrent guarded calls.

 A call is a `Try` event, and once admitted it later contributes exactly one
 `Succeed` or `Fail` event.  The clock never runs backwards.
 */
module BreakerProtocol {
  import opened Common
  import opened CircuitBreaker

  /** `attempts` is the number of HTTP requests the failing call made. */
  datatype Event =
    | Try(call: nat, at: nat)
    | Succeed(call: nat, at: nat)
    | Fail(call: nat, at: nat, attempts: nat)

  datatype World = World(breaker: Breaker, inFlight: set<nat>, now: nat)

  const Start := World(Initial, {}, 0)

  predicate Enabled(w: World, e: Event) {
    && w.now <= e.at
    && (if e.Try? then e.call !in w.inFlight else e.call in w.inFlight)
  }

  function Step(c: Settings, w: World, e: Event): World {
    match e
    case Try(call, at) =>
      World(AfterAdmission(c, w.breaker, at),
            if Admits(c, w.breaker, at) then w.inFlight + {call} else w.inFlight, at)
    case Succeed(call, at) => World(AfterSuccess(w.breaker), w.inFlight - {call}, at)
    case Fail(call, at, _) => World(AfterFailure(c, w.breaker, at), w.inFlight - {call}, at)
  }

  function Front<T>(s: seq<T>): seq<T>
    requires s != []
  {
    s[..|s| - 1]
  }

  function Last<T>(s: seq<T>): T
    requires s != []
  {
    s[|s| - 1]
  }

  /** The world after the events of `es`, oldest first. */
  function After(c: Settings, es: seq<Event>): World {
    if es == [] then Start else Step(c, After(c, Front(es)), Last(es))
  }

  predicate IsRun(c: Settings, es: seq<Event>) {
    es != [] ==> IsRun(c, Front(es)) && Enabled(After(c, Front(es)), Last(es))
  }

  /** Failures recorded since the last recorded success. */
  function Streak(es: seq<Event>): nat {
    if es == [] then 0
    else match Last(es)
         case Try(_, _) => Streak(Front(es))
         case Succeed(_, _) => 0
         case Fail(_, _, _) => Streak(Front(es)) + 1
  }

  /** When the most recent failure was recorded. */
  function LastFailureAt(es: seq<Event>): Option<nat> {
    if es == [] then None
    else if Last(es).Fail? then Some(Last(es).at)
    else LastFailureAt(Front(es))
  }

  /** The number of failures at which the breaker trips; zero behaves as one. */
  function Trip(c: Settings): nat {
    if c.threshold == 0 then 1 else c.threshold
  }

  /**
   The breaker is a function of the history: it is closed exactly while fewer than
   `Trip` failures have been recorded since the last success, whatever else ran.
   */
  lemma {:induction false} BreakerTracksHistory(c: Settings, es: seq<Event>)
    requires c.Valid() && IsRun(c, es)
    ensures var b := After(c, es).breaker;
            && b.failureCount == Streak(es) % U32_LIMIT
            && (b.state.Closed? <==> Streak(es) < Trip(c))
            && b.lastFailure == LastFailureAt(es)
            && (Streak(es) > 0 ==> b.lastFailure.Some?)
  {
    if es != [] {
      BreakerTracksHistory(c, Front(es));
      if Last(es).Fail? {
        CountedFailure(c, After(c, Front(es)).breaker, Streak(Front(es)), Last(es).at);
      }
    }
  }

  lemma {:induction false} CountedFailure(c: Settings, b: Breaker, n: nat, now: nat)
    requires c.Valid() && b.failureCount == n % U32_LIMIT && (b.state.Closed? <==> n < Trip(c))
    ensures var b' := AfterFailure(c, b, now);
            b'.failureCount == (n + 1) % U32_LIMIT && (b'.state.Closed? <==> n + 1 < Trip(c))
  {
    assert (n % U32_LIMIT + 1) % U32_LIMIT == (n + 1) % U32_LIMIT;
  }

  /**
   With a threshold of at least one, "closed exactly when the counter is below the
   threshold" holds unless the 32-bit counter has wrapped round to a small value.
   */
  lemma {:induction false} ClosedIffCounterBelowThreshold(c: Settings, es: seq<Event>)
    requires c.Valid() && c.threshold >= 1 && IsRun(c, es)
    ensures var b := After(c, es).breaker;
            && ((b.state.Closed? <==> b.failureCount < c.threshold) <==>
                (Streak(es) < c.threshold || Streak(es) % U32_LIMIT >= c.threshold))
            && (!b.state.Closed? ==> b.lastFailure.Some?)
            && (Streak(es) < U32_LIMIT ==> (b.state.Closed? <==> b.failureCount < c.threshold))
  {
    BreakerTracksHistory(c, es);
  }

  /**
   A failed probe reopens the breaker exactly when the wrapped counter has not fallen
   below the threshold.
   */
  lemma {:induction false} FailedProbeReopens(c: Settings, es: seq<Event>)
    requires c.Valid() && IsRun(c, es) && es != [] && Last(es).Fail?
    requires After(c, Front(es)).breaker.state.HalfOpen?
    ensures After(c, es).breaker.state.Open? <==> Streak(es) % U32_LIMIT >= c.threshold
    ensures After(c, es).breaker.state.HalfOpen? <==> Streak(es) % U32_LIMIT < c.threshold
  {
    BreakerTracksHistory(c, es);
  }

  /**
   An open breaker is left only by the success of a call still in flight, or by an
   admission at least one reset timeout after the most recent recorded failure; and
   while open every admission is of that second kind.
   */
  lemma {:induction false} OpenIsLeftOnlyAfterTimeout(c: Settings, es: seq<Event>)
    requires c.Valid() && IsRun(c, es) && es != []
    requires After(c, Front(es)).breaker.state.Open?
    ensures var last := LastFailureAt(Front(es));
            && last.Some?
            && (Last(es).Succeed? <==> After(c, es).breaker.state.Closed?)
            && (After(c, es).breaker.state.HalfOpen? <==>
                Last(es).Try? && Last(es).at >= last.value + c.resetTimeout)
            && (Last(es).Try? ==>
                (Last(es).call in After(c, es).inFlight <==> Last(es).at >= last.value + c.resetTimeout))
  {
    BreakerTracksHistory(c, Front(es));
    FailuresAreInThePast(c, Front(es));
  }

  /**
   Who gets through: a call is turned away exactly if it finds the breaker open less than one reset timeout
   after the last recorded failure.  With fewer failures than the trip count since the last success it never is.
   */
  lemma {:induction false} RejectedIffRecentlyOpened(c: Settings, es: seq<Event>, id: nat, t: nat)
    requires c.Valid() && IsRun(c, es + [Try(id, t)])
    ensures var last := LastFailureAt(es);
            && (id !in After(c, es + [Try(id, t)]).inFlight <==>
                After(c, es).breaker.state.Open? && last.Some? && t < last.value + c.resetTimeout)
            && (Streak(es) < Trip(c) ==> id in After(c, es + [Try(id, t)]).inFlight)
  {
    assert Front(es + [Try(id, t)]) == es;
    BreakerTracksHistory(c, es);
    FailuresAreInThePast(c, es);
  }

  lemma {:induction false} FailuresAreInThePast(c: Settings, es: seq<Event>)
    requires IsRun(c, es)
    ensures LastFailureAt(es).Some? ==> LastFailureAt(es).value <= After(c, es).now
  {
    if es != [] {
      FailuresAreInThePast(c, Front(es));
    }
  }

  // ---------------------------------------------------------------- failure budget

  /** From event `i` on, at most `cap` calls are ever in flight at once. */
  predicate InFlightAtMost(c: Settings, es: seq<Event>, i: nat, cap: nat)
    requires i <= |es|
  {
    && |After(c, es).inFlight| <= cap
    && (|es| > i ==> InFlightAtMost(c, Front(es), i, cap))
  }

  /** No success is recorded from event `i` on, and every such event is at or after `from`. */
  predicate Fruitless(es: seq<Event>, i: nat, from: nat)
    requires i <= |es|
  {
    forall k :: i <= k < |es| ==> !es[k].Succeed? && from <= es[k].at
  }

  /** Failures recorded from event `i` on. */
  function Failures(es: seq<Event>, i: nat): nat
    requires i <= |es|
  {
    if |es| == i then 0 else Failures(Front(es), i) + if Last(es).Fail? then 1 else 0
  }

  /** What `Failures` may reach after the breaker has been reopened `e` times. */
  function Budget(c: Settings, cap: nat, e: nat): int {
    c.threshold - 1 + cap * (1 + e)
  }

  /**
   The potential: `k` failures seen, `e` completed open periods inside the window.  Each
   period costs one reset timeout and lets at most `cap` more calls fail.
   */
  predicate WithinBudget(c: Settings, w: World, k: nat, cap: nat, from: nat, e: nat) {
    match w.breaker.state
    case Closed => k <= w.breaker.failureCount
    case Open =>
      k == 0 || (k + |w.inFlight| <= Budget(c, cap, e) && w.breaker.lastFailure.Some?
                 && from + e * c.resetTimeout <= w.breaker.lastFailure.value)
    case HalfOpen =>
      k == 0 || (k <= Budget(c, cap, e) && from + (e + 1) * c.resetTimeout <= w.now)
  }

  /** What the breaker keeps while its counter has not wrapped. */
  predicate Coherent(c: Settings, w: World) {
    && (w.breaker.state.Closed? <==> w.breaker.failureCount < c.threshold)
    && (w.breaker.lastFailure.Some? ==> w.breaker.lastFailure.value <= w.now)
  }

  /** One more admission attempt keeps within the same budget. */
  lemma {:induction false} BudgetAfterTry(c: Settings, w: World, e: Event, k: nat, cap: nat, from: nat, n: nat)
    requires Coherent(c, w) && Enabled(w, e) && e.Try?
    requires WithinBudget(c, w, k, cap, from, n)
    ensures WithinBudget(c, Step(c, w, e), k, cap, from, n)
  {
    assert from + (n + 1) * c.resetTimeout == from + n * c.resetTimeout + c.resetTimeout;
  }

  /** One more failure costs at most one further open period. */
  lemma {:induction false} BudgetAfterFailure(c: Settings, w: World, e: Event, k: nat, cap: nat, from: nat, n: nat)
    returns (n': nat)
    requires c.threshold >= 1 && Coherent(c, w) && Enabled(w, e) && e.Fail? && from <= e.at
    requires |w.inFlight| <= cap && w.breaker.failureCount + 1 < U32_LIMIT
    requires WithinBudget(c, w, k, cap, from, n)
    ensures WithinBudget(c, Step(c, w, e), k + 1, cap, from, n')
  {
    var w' := Step(c, w, e);
    assert w'.inFlight == w.inFlight - {e.call} && |w'.inFlight| == |w.inFlight| - 1;
    if k == 0 || w.breaker.state.Closed? {
      n' := 0;
    } else if w.breaker.state.Open? {
      n' := n;
    } else {
      n' := n + 1;
      assert Budget(c, cap, n') == Budget(c, cap, n) + cap;
    }
  }

  lemma {:induction false} CoherentBeforeWrap(c: Settings, es: seq<Event>)
    requires c.Valid() && c.threshold >= 1 && IsRun(c, es) && Streak(es) < U32_LIMIT
    ensures Coherent(c, After(c, es)) && After(c, es).breaker.failureCount == Streak(es)
  {
    BreakerTracksHistory(c, es);
    FailuresAreInThePast(c, es);
  }

  /** How the quantities of a window change with its last event. */
  lemma {:induction false} WindowStep(c: Settings, es: seq<Event>, i: nat, cap: nat, from: nat)
    requires i < |es| && IsRun(c, es) && InFlightAtMost(c, es, i, cap) && Fruitless(es, i, from)
    ensures var pre, e := Front(es), Last(es);
            && IsRun(c, pre) && InFlightAtMost(c, pre, i, cap) && Fruitless(pre, i, from)
            && !e.Succeed? && from <= e.at && Enabled(After(c, pre), e) && |After(c, pre).inFlight| <= cap
            && After(c, es) == Step(c, After(c, pre), e)
            && Failures(es, i) == Failures(pre, i) + (if e.Fail? then 1 else 0)
            && Streak(es) == Streak(pre) + (if e.Fail? then 1 else 0)
  {
    assert es[|es| - 1] == Last(es);
  }

  lemma {:induction false} BudgetHolds(c: Settings, es: seq<Event>, i: nat, cap: nat, from: nat)
    returns (n: nat)
    requires c.Valid() && c.threshold >= 1 && IsRun(c, es) && i <= |es|
    requires InFlightAtMost(c, es, i, cap) && Fruitless(es, i, from)
    requires Streak(es) < U32_LIMIT
    ensures WithinBudget(c, After(c, es), Failures(es, i), cap, from, n)
  {
    if |es| == i {
      n := 0;
    } else {
      var pre, e := Front(es), Last(es);
      WindowStep(c, es, i, cap, from);
      n := BudgetHolds(c, pre, i, cap, from);
      CoherentBeforeWrap(c, pre);
      if e.Fail? {
        n := BudgetAfterFailure(c, After(c, pre), e, Failures(pre, i), cap, from, n);
      } else {
        BudgetAfterTry(c, After(c, pre), e, Failures(pre, i), cap, from, n);
      }
    }
  }

  /**
   Overload protection in every interleaving.  If at most `cap` calls are in flight at
   once, any window of length `width` in which no success is recorded sees at most
   threshold - 1 + cap * (1 + width / resetTimeout) failures.
   */
  lemma {:induction false} FailureBudget(c: Settings, es: seq<Event>, i: nat, cap: nat, from: nat, width: nat)
    requires c.Valid() && c.threshold >= 1 && c.resetTimeout >= 1 && IsRun(c, es) && i <= |es|
    requires InFlightAtMost(c, es, i, cap) && Fruitless(es, i, from)
    requires After(c, es).now <= from + width
    requires Streak(es) < U32_LIMIT
    ensures Failures(es, i) <= c.threshold - 1 + cap * (1 + width / c.resetTimeout)
  {
    var n := BudgetHolds(c, es, i, cap, from);
    CoherentBeforeWrap(c, es);
    BudgetInWindow(c, After(c, es), Failures(es, i), cap, from, n, width);
  }

  /** A budget read at time at most `from + width` has seen at most width / resetTimeout periods. */
  lemma {:induction false} BudgetInWindow(c: Settings, w: World, k: nat, cap: nat, from: nat, n: nat, width: nat)
    requires c.threshold >= 1 && c.resetTimeout >= 1 && Coherent(c, w)
    requires WithinBudget(c, w, k, cap, from, n) && w.now <= from + width
    ensures k <= c.threshold - 1 + cap * (1 + width / c.resetTimeout)
  {
    var q := width / c.resetTimeout;
    if k > 0 && !w.breaker.state.Closed? {
      assert (n + 1) * c.resetTimeout == n * c.resetTimeout + c.resetTimeout;
      QuotientBound(n, c.resetTimeout, width);
      ScaleMonotone(cap, 1 + n, 1 + q);
    } else {
      ScaleMonotone(cap, 0, 1 + q);
    }
  }

  lemma {:induction false} QuotientBound(n: nat, r: nat, w: nat)
    requires r >= 1 && n * r <= w
    ensures n <= w / r
  {
    if n > w / r {
      assert r * (w / r + 1) == r * (w / r) + r;
      ScaleMonotone(r, w / r + 1, n);
    }
  }

  lemma {:induction false} ScaleMonotone(a: nat, x: nat, y: nat)
    requires x <= y
    ensures a * x <= a * y
  {
    assert a * y == a * x + a * (y - x);
  }

  /** Calls issued one after another: the documented threshold plus one probe per timeout. */
  lemma {:induction false} SequentialFailureBudget(c: Settings, es: seq<Event>, i: nat, from: nat, width: nat)
    requires c.Valid() && c.threshold >= 1 && c.resetTimeout >= 1 && IsRun(c, es) && i <= |es|
    requires InFlightAtMost(c, es, i, 1) && Fruitless(es, i, from)
    requires After(c, es).now <= from + width
    requires Streak(es) < U32_LIMIT
    ensures Failures(es, i) <= c.threshold + width / c.resetTimeout
  {
    FailureBudget(c, es, i, 1, from, width);
  }

  /** HTTP requests made by the calls that failed from event `i` on. */
  function FailedAttempts(es: seq<Event>, i: nat): nat
    requires i <= |es|
  {
    if |es| == i then 0
    else FailedAttempts(Front(es), i) + if Last(es).Fail? then Last(es).attempts else 0
  }

  lemma {:induction false} AttemptsPerFailure(es: seq<Event>, i: nat, maxRetries: nat)
    requires i <= |es|
    requires forall k :: i <= k < |es| && es[k].Fail? ==> es[k].attempts <= maxRetries
    ensures FailedAttempts(es, i) <= maxRetries * Failures(es, i)
  {
    if |es| > i {
      AttemptsPerFailure(Front(es), i, maxRetries);
      assert Last(es) == es[|es| - 1];
      assert maxRetries * (Failures(Front(es), i) + 1) == maxRetries * Failures(Front(es), i) + maxRetries;
    }
  }

  /** The load a dead agent sees: failed HTTP requests in any window without a success. */
  lemma {:induction false} AttemptBudget(c: Settings, es: seq<Event>, i: nat, cap: nat, from: nat, width: nat, maxRetries: nat)
    requires c.Valid() && c.threshold >= 1 && c.resetTimeout >= 1 && IsRun(c, es) && i <= |es|
    requires InFlightAtMost(c, es, i, cap) && Fruitless(es, i, from)
    requires After(c, es).now <= from + width
    requires Streak(es) < U32_LIMIT
    requires forall k :: i <= k < |es| && es[k].Fail? ==> es[k].attempts <= maxRetries
    ensures FailedAttempts(es, i) <= maxRetries * (c.threshold - 1 + cap * (1 + width / c.resetTimeout))
  {
    FailureBudget(c, es, i, cap, from, width);
    AttemptsPerFailure(es, i, maxRetries);
    ScaleMonotone(maxRetries, Failures(es, i), c.threshold - 1 + cap * (1 + width / c.resetTimeout));
  }

  // ------------------------------------------------------------- no single probe

  /** `n` calls, each tried and failed at time zero. */
  function FailingCalls(n: nat): seq<Event> {
    if n == 0 then [] else FailingCalls(n - 1) + [Try(n, 0), Fail(n, 0, 1)]
  }

  lemma {:induction false} FailingCallsRun(c: Settings, n: nat)
    requires c.Valid() && n <= Trip(c)
    ensures var es := FailingCalls(n);
            IsRun(c, es) && Streak(es) == n && After(c, es).inFlight == {} && After(c, es).now == 0
    ensures n > 0 ==> LastFailureAt(FailingCalls(n)) == Some(0)
  {
    if n > 0 {
      var pre := FailingCalls(n - 1);
      FailingCallsRun(c, n - 1);
      BreakerTracksHistory(c, pre);
      var tried := pre + [Try(n, 0)];
      assert Front(tried) == pre;
      assert After(c, tried).inFlight == {n};
      assert Front(FailingCalls(n)) == tried;
    }
  }

  /**
   A half-open breaker does not limit itself to one probe: once the timeout has passed,
   any number of calls is admitted together.  Hence the `cap` in `FailureBudget`.
   */
  lemma {:induction false} HalfOpenAdmitsAnyNumber(c: Settings, n: nat) returns (es: seq<Event>)
    requires c.Valid()
    ensures IsRun(c, es) && |After(c, es).inFlight| == n && After(c, es).now <= c.resetTimeout
    ensures After(c, es).breaker.state == if n == 0 then Open else HalfOpen
    ensures LastFailureAt(es) == Some(0)
    ensures forall id :: id in After(c, es).inFlight ==> id < n
    decreases n
  {
    if n == 0 {
      es := FailingCalls(Trip(c));
      FailingCallsRun(c, Trip(c));
      BreakerTracksHistory(c, es);
      FailingCallTripsOpen(c);
    } else {
      var pre := HalfOpenAdmitsAnyNumber(c, n - 1);
      BreakerTracksHistory(c, pre);
      es := pre + [Try(n - 1, c.resetTimeout)];
      assert Front(es) == pre;
    }
  }

  lemma {:induction false} FailingCallTripsOpen(c: Settings)
    requires c.Valid()
    ensures After(c, FailingCalls(Trip(c))).breaker.state.Open?
  {
    var es := FailingCalls(Trip(c));
    FailingCallsRun(c, Trip(c));
    BreakerTracksHistory(c, es);
    assert Last(es).Fail?;
  }

  // ------------------------------------------------- why the counter must not wrap

  /** `n` failing calls, one per reset timeout. */
  function Probes(c: Settings, n: nat): seq<Event> {
    if n == 0 then [] else Probes(c, n - 1) + [Try(n, n * c.resetTimeout), Fail(n, n * c.resetTimeout, 1)]
  }

  /** One more call that is admitted and fails at time `t`. */
  lemma {:induction false} FailingCallExtends(c: Settings, es: seq<Event>, id: nat, t: nat)
    requires IsRun(c, es) && After(c, es).inFlight == {} && After(c, es).now <= t
    requires Admits(c, After(c, es).breaker, t)
    ensures var es' := es + [Try(id, t), Fail(id, t, 1)];
            && IsRun(c, es') && Streak(es') == Streak(es) + 1 && LastFailureAt(es') == Some(t)
            && After(c, es') == World(AfterFailure(c, AfterAdmission(c, After(c, es).breaker, t), t), {}, t)
  {
    var tried, es' := es + [Try(id, t)], es + [Try(id, t), Fail(id, t, 1)];
    assert Front(tried) == es && Front(es') == tried;
    assert After(c, tried).inFlight == {id};
    assert After(c, es').inFlight == {};
  }

  lemma {:induction false} FailingCallCounts(c: Settings, es: seq<Event>, id: nat, t: nat, i: nat, from: nat)
    requires After(c, es).inFlight == {} && Admits(c, After(c, es).breaker, t) && i <= |es|
    requires InFlightAtMost(c, es, i, 1) && Fruitless(es, i, from) && from <= t
    ensures var es' := es + [Try(id, t), Fail(id, t, 1)];
            Failures(es', i) == Failures(es, i) + 1 && InFlightAtMost(c, es', i, 1) && Fruitless(es', i, from)
  {
    var tried, es' := es + [Try(id, t)], es + [Try(id, t), Fail(id, t, 1)];
    assert Front(tried) == es && Front(es') == tried;
    assert After(c, tried).inFlight == {id};
    assert After(c, es').inFlight == {};
    assert InFlightAtMost(c, tried, i, 1);
    assert Failures(tried, i) == Failures(es, i);
  }

  lemma {:induction false} ProbesRun(c: Settings, n: nat)
    requires c.Valid()
    ensures var es := Probes(c, n);
            && IsRun(c, es) && Streak(es) == n && After(c, es).inFlight == {} && After(c, es).now == n * c.resetTimeout
            && LastFailureAt(es) == (if n == 0 then None else Some(n * c.resetTimeout))
            && (After(c, es).breaker.state.Open? ==> n > 0)
  {
    if n > 0 {
      var pre := Probes(c, n - 1);
      ProbesRun(c, n - 1);
      BreakerTracksHistory(c, pre);
      assert n * c.resetTimeout == (n - 1) * c.resetTimeout + c.resetTimeout;
      FailingCallExtends(c, pre, n, n * c.resetTimeout);
    }
  }

  /** `m` more failing calls, all at the moment the next probe is due. */
  function Burst(c: Settings, n: nat, m: nat): seq<Event> {
    var t := (n + 1) * c.resetTimeout;
    if m == 0 then Probes(c, n) else Burst(c, n, m - 1) + [Try(m, t), Fail(m, t, 1)]
  }

  /** The breaker after the burst, seen through its counter. */
  predicate HalfOpenAfter(c: Settings, w: World, m: nat) {
    1 <= m <= c.threshold ==> w.breaker.state.HalfOpen?
  }

  /** The due probe turns the breaker half-open and its failure wraps the counter to zero. */
  lemma {:induction false} FirstOfBurst(c: Settings, n: nat)
    requires c.Valid() && 1 <= c.threshold && n + 1 == U32_LIMIT
    ensures var b, t := After(c, Probes(c, n)).breaker, (n + 1) * c.resetTimeout;
            Admits(c, b, t) && AfterFailure(c, AfterAdmission(c, b, t), t).state.HalfOpen?
  {
    var pre := Probes(c, n);
    ProbesRun(c, n);
    BreakerTracksHistory(c, pre);
    assert (n + 1) * c.resetTimeout == n * c.resetTimeout + c.resetTimeout;
    assert pre == Probes(c, n - 1) + [Try(n, n * c.resetTimeout), Fail(n, n * c.resetTimeout, 1)];
    assert Last(pre).Fail?;
  }

  /** A call of the burst is admitted at the moment the probe is due and keeps the breaker half-open. */
  lemma {:induction false} NextOfBurst(c: Settings, n: nat, m: nat)
    requires c.Valid() && 1 <= c.threshold && 1 <= m <= c.threshold && n + 1 == U32_LIMIT
    requires var es := Burst(c, n, m); IsRun(c, es) && Streak(es) == n + m && HalfOpenAfter(c, After(c, es), m)
    ensures var b, t := After(c, Burst(c, n, m)).breaker, (n + 1) * c.resetTimeout;
            Admits(c, b, t) && (m + 1 <= c.threshold ==> AfterFailure(c, AfterAdmission(c, b, t), t).state.HalfOpen?)
  {
    BreakerTracksHistory(c, Burst(c, n, m));
    assert (n + m) % U32_LIMIT == m - 1;
  }

  /** Once the counter has wrapped, failed probes leave the breaker half-open. */
  lemma {:induction false} BurstRun(c: Settings, n: nat, m: nat)
    requires c.Valid() && 1 <= c.threshold && m <= c.threshold + 1 && n + 1 == U32_LIMIT
    ensures var es := Burst(c, n, m);
            && IsRun(c, es) && Streak(es) == n + m && After(c, es).inFlight == {}
            && After(c, es).now == (if m == 0 then n else n + 1) * c.resetTimeout
            && HalfOpenAfter(c, After(c, es), m)
  {
    if m == 0 {
      ProbesRun(c, n);
    } else {
      var pre, t := Burst(c, n, m - 1), (n + 1) * c.resetTimeout;
      BurstRun(c, n, m - 1);
      if m == 1 {
        FirstOfBurst(c, n);
        assert t == n * c.resetTimeout + c.resetTimeout;
      } else {
        NextOfBurst(c, n, m - 1);
      }
      FailingCallExtends(c, pre, m, t);
    }
  }

  /** Every call of the burst counts against the window that starts with it. */
  lemma {:induction false} BurstFailures(c: Settings, n: nat, m: nat)
    requires c.Valid() && 1 <= c.threshold && m <= c.threshold + 1 && n + 1 == U32_LIMIT
    ensures var i := |Probes(c, n)|; var es := Burst(c, n, m);
            && i <= |es| && Failures(es, i) == m && InFlightAtMost(c, es, i, 1)
            && Fruitless(es, i, (n + 1) * c.resetTimeout)
  {
    if m == 0 {
      ProbesRun(c, n);
    } else {
      var pre, t := Burst(c, n, m - 1), (n + 1) * c.resetTimeout;
      BurstFailures(c, n, m - 1);
      BurstRun(c, n, m - 1);
      if m == 1 {
        FirstOfBurst(c, n);
      }
      FailingCallCounts(c, pre, m, t, |Probes(c, n)|, t);
    }
  }

  /**
   Without the restriction on the streak the budget is false for every configuration: after 2^32 failures
   the wrapped counter lets threshold + 1 sequential calls fail at one and the same instant.
   */
  lemma {:induction false} WrappedCounterBreaksBudget(c: Settings) returns (es: seq<Event>, i: nat, from: nat)
    requires c.Valid() && c.threshold >= 1
    ensures i <= |es| && IsRun(c, es) && InFlightAtMost(c, es, i, 1) && Fruitless(es, i, from)
    ensures After(c, es).now <= from + 0
    ensures Failures(es, i) > c.threshold
    ensures Streak(es) >= U32_LIMIT
  {
    var n := U32_LIMIT - 1;
    es, i, from := Burst(c, n, c.threshold + 1), |Probes(c, n)|, (n + 1) * c.resetTimeout;
    BurstRun(c, n, c.threshold + 1);
    BurstFailures(c, n, c.threshold + 1);
  }
}
