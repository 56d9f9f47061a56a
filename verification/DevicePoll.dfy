/** Polling for a device authorization, section 3.5 of RFC 8628. */
module DevicePoll {
  import opened Common

  const U64_MAX: nat := U64_LIMIT - 1

  /** The error strings of section 3.5 of RFC 8628 that are told apart. */
  datatype ErrorCode = AuthorizationPending | SlowDown | ExpiredToken | AccessDenied | Unrecognised(code: string)

  /** What one token request came back with. */
  datatype Reply =
    | Unreachable
    | HttpFailure(status: nat)
    | InvalidBody
    | Body(accessToken: Option<string>, error: Option<ErrorCode>)

  datatype Failure =
    | TimedOut
    | RequestFailed(reply: Reply)
    | Expired
    | Denied
    | Other(code: string)
    | MissingFields

  /** Seconds as nanoseconds. */
  function Nanos(secs: nat): nat {
    secs * 1_000_000_000
  }

  /** The access token, or why there is none. */
  type PollResult = Result<string, Failure>

  function SaturatingAdd(a: nat, b: nat): nat {
    if a + b > U64_MAX then U64_MAX else a + b
  }

  datatype Verdict = Granted(token: string) | KeepPolling | Refused(failure: Failure)

  /** The polling loop goes on after this reply. */
  predicate Continues(r: Reply) {
    r.Body? && r.accessToken.None? && (r.error == Some(AuthorizationPending) || r.error == Some(SlowDown))
  }

  predicate SlowsDown(r: Reply) {
    Continues(r) && r.error == Some(SlowDown)
  }

  predicate Grants(r: Reply) {
    r.Body? && r.accessToken.Some?
  }

  /** The failure reported for a reply that neither grants nor lets the polling go on. */
  function FailureOf(r: Reply): Failure {
    if !r.Body? then RequestFailed(r)
    else match r.error
         case Some(ExpiredToken) => Expired
         case Some(AccessDenied) => Denied
         case Some(Unrecognised(code)) => Other(code)
         case _ => MissingFields
  }

  /** `handle_device_poll_response`: the verdict and the polling interval from now on. */
  method HandleResponse(body: Reply, interval: nat) returns (v: Verdict, interval': nat)
    requires body.Body?
    ensures v.Granted? <==> Grants(body)
    ensures v.Granted? ==> Some(v.token) == body.accessToken
    ensures v.KeepPolling? <==> Continues(body)
    ensures interval' == if SlowsDown(body) then SaturatingAdd(interval, 5) else interval
    ensures v.Refused? ==> v.failure == FailureOf(body)
    // reply by reply
    ensures body.accessToken.Some? ==> v == Granted(body.accessToken.value) && interval' == interval
    ensures body.accessToken.None? && body.error == Some(AuthorizationPending) ==> v == KeepPolling && interval' == interval
    ensures body.accessToken.None? && body.error == Some(SlowDown) ==>
              v == KeepPolling && interval' == if interval + 5 < 0x1_0000_0000_0000_0000 then interval + 5 else 0xFFFF_FFFF_FFFF_FFFF
    ensures body.accessToken.None? && body.error == Some(ExpiredToken) ==> v == Refused(Expired) && interval' == interval
    ensures body.accessToken.None? && body.error == Some(AccessDenied) ==> v == Refused(Denied) && interval' == interval
    ensures body.accessToken.None? && body.error.Some? && body.error.value.Unrecognised? ==>
              v == Refused(Other(body.error.value.code)) && interval' == interval
    ensures body.accessToken.None? && body.error.None? ==> v == Refused(MissingFields) && interval' == interval
  {
    interval' := interval;
    if body.accessToken.Some? {
      return Granted(body.accessToken.value), interval';
    }
    match body.error
    case Some(AuthorizationPending) => v := KeepPolling;
    case Some(SlowDown) =>
      interval' := SaturatingAdd(interval, 5);
      v := KeepPolling;
    case Some(ExpiredToken) => v := Refused(Expired);
    case Some(AccessDenied) => v := Refused(Denied);
    case Some(Unrecognised(code)) => v := Refused(Other(code));
    case None => v := Refused(MissingFields);
  }

  /** The same for any reply; one without a body is refused as it is. */
  method Judge(reply: Reply, interval: nat) returns (v: Verdict, interval': nat)
    ensures v.Granted? <==> Grants(reply)
    ensures v.Granted? ==> Some(v.token) == reply.accessToken
    ensures v.KeepPolling? <==> Continues(reply)
    ensures interval' == if SlowsDown(reply) then SaturatingAdd(interval, 5) else interval
    ensures v.Refused? ==> v.failure == FailureOf(reply) && v.failure != TimedOut
  {
    if reply.Body? {
      v, interval' := HandleResponse(reply, interval);
    } else {
      v, interval' := Refused(RequestFailed(reply)), interval;
    }
  }

  // ----------------------------------------------------------------- specification

  function StartInterval(interval: nat): nat {
    if interval < 1 then 1 else interval
  }

  /** `slow_down` replies among the first `k`. */
  function SlowDowns(replies: nat -> Reply, k: nat): nat {
    if k == 0 then 0 else SlowDowns(replies, k - 1) + if SlowsDown(replies(k - 1)) then 1 else 0
  }

  /** Seconds waited before poll `k` (counting from zero): five more per `slow_down`, saturating. */
  function Wait(interval: nat, replies: nat -> Reply, k: nat): nat {
    SaturatingAdd(StartInterval(interval), 5 * SlowDowns(replies, k))
  }

  /** Seconds waited before the first `k` polls together. */
  function TotalWait(interval: nat, replies: nat -> Reply, k: nat): nat {
    if k == 0 then 0 else TotalWait(interval, replies, k - 1) + Wait(interval, replies, k - 1)
  }

  /** Nanoseconds elapsed after `k` polls: the waits plus `lag(i)` for oversleeping and the request. */
  function ElapsedAfter(interval: nat, replies: nat -> Reply, lag: nat -> nat, k: nat): nat {
    if k == 0 then 0
    else ElapsedAfter(interval, replies, lag, k - 1) + Nanos(Wait(interval, replies, k - 1)) + lag(k - 1)
  }

  /** The expiry has not been reached after `k` polls. */
  predicate BeforeExpiry(interval: nat, expiresIn: nat, replies: nat -> Reply, lag: nat -> nat, k: nat) {
    ElapsedAfter(interval, replies, lag, k) < Nanos(expiresIn)
  }

  /** The waits before the first `k` polls. */
  function Waits(interval: nat, replies: nat -> Reply, k: nat): seq<nat> {
    if k == 0 then [] else Waits(interval, replies, k - 1) + [Wait(interval, replies, k - 1)]
  }

  /** One wait per poll, each the interval in force at that poll. */
  lemma {:induction false} WaitsAreIntervals(interval: nat, replies: nat -> Reply, k: nat)
    ensures |Waits(interval, replies, k)| == k
    ensures forall i :: 0 <= i < k ==> Waits(interval, replies, k)[i] == Wait(interval, replies, i)
  {
    if k > 0 {
      WaitsAreIntervals(interval, replies, k - 1);
    }
  }

  lemma {:induction false} WaitStep(interval: nat, replies: nat -> Reply, k: nat)
    ensures Wait(interval, replies, k + 1) ==
            if SlowsDown(replies(k)) then SaturatingAdd(Wait(interval, replies, k), 5) else Wait(interval, replies, k)
  {
  }

  /** One round of the loop, in terms of the specification. */
  lemma {:induction false} StepFacts(interval: nat, replies: nat -> Reply, lag: nat -> nat, k: nat)
    ensures Waits(interval, replies, k + 1) == Waits(interval, replies, k) + [Wait(interval, replies, k)]
    ensures ElapsedAfter(interval, replies, lag, k + 1) ==
            ElapsedAfter(interval, replies, lag, k) + Nanos(Wait(interval, replies, k)) + lag(k)
    ensures Wait(interval, replies, k + 1) ==
            if SlowsDown(replies(k)) then SaturatingAdd(Wait(interval, replies, k), 5) else Wait(interval, replies, k)
  {
    WaitStep(interval, replies, k);
  }

  lemma {:induction false} ElapsedCoversWaits(interval: nat, replies: nat -> Reply, lag: nat -> nat, k: nat)
    ensures Nanos(TotalWait(interval, replies, k)) <= ElapsedAfter(interval, replies, lag, k)
  {
    if k > 0 {
      ElapsedCoversWaits(interval, replies, lag, k - 1);
    }
  }

  /** How the polling ends: it goes on exactly while the replies ask for more and the expiry is not reached. */
  ghost predicate Polled(interval: nat, expiresIn: nat, replies: nat -> Reply, lag: nat -> nat, r: PollResult, polls: nat) {
    && (forall i :: 0 <= i < polls ==> BeforeExpiry(interval, expiresIn, replies, lag, i))
    && (forall i :: 0 <= i < polls - 1 ==> Continues(replies(i)))
    && (r == Err(TimedOut) <==> polls == 0 || Continues(replies(polls - 1)))
    && (r == Err(TimedOut) ==> !BeforeExpiry(interval, expiresIn, replies, lag, polls))
    && (r.Ok? <==> polls > 0 && Grants(replies(polls - 1)))
    && (r.Ok? ==> Some(r.value) == replies(polls - 1).accessToken)
    && (r.Err? && r != Err(TimedOut) ==> polls > 0 && r.error == FailureOf(replies(polls - 1)))
  }

  /** The first `k` replies all asked for more, each before the expiry. */
  ghost predicate Polling(interval: nat, expiresIn: nat, replies: nat -> Reply, lag: nat -> nat, k: nat) {
    && (forall i :: 0 <= i < k ==> BeforeExpiry(interval, expiresIn, replies, lag, i))
    && (forall i :: 0 <= i < k ==> Continues(replies(i)))
  }

  /** One more poll, made before the expiry, either goes on or ends the polling with the result of its reply. */
  lemma {:induction false} PollingStep(interval: nat, expiresIn: nat, replies: nat -> Reply, lag: nat -> nat, k: nat)
    requires Polling(interval, expiresIn, replies, lag, k) && BeforeExpiry(interval, expiresIn, replies, lag, k)
    ensures Continues(replies(k)) ==> Polling(interval, expiresIn, replies, lag, k + 1)
    ensures Grants(replies(k)) ==> Polled(interval, expiresIn, replies, lag, Ok(replies(k).accessToken.value), k + 1)
    ensures !Continues(replies(k)) && !Grants(replies(k)) ==>
              Polled(interval, expiresIn, replies, lag, Err(FailureOf(replies(k))), k + 1)
  {
  }

  /** The reply asks for patience: no token yet, and `authorization_pending` or `slow_down`. */
  lemma {:induction false} ContinuesMeans(r: Reply)
    ensures Continues(r) <==> r == Body(None, Some(AuthorizationPending)) || r == Body(None, Some(SlowDown))
  {
  }

  /**
   The first reply that does not ask for patience decides, if it comes before the expiry: polling stops there
   with the token or with the failure of that reply.
   */
  lemma {:induction false} FirstFinalReplyDecides(interval: nat, expiresIn: nat, replies: nat -> Reply, lag: nat -> nat,
                                                  r: PollResult, polls: nat, n: nat)
    requires Polled(interval, expiresIn, replies, lag, r, polls)
    requires forall i :: 0 <= i < n ==> replies(i) == Body(None, Some(AuthorizationPending)) || replies(i) == Body(None, Some(SlowDown))
    requires replies(n) != Body(None, Some(AuthorizationPending)) && replies(n) != Body(None, Some(SlowDown))
    requires forall i :: 0 <= i <= n ==> BeforeExpiry(interval, expiresIn, replies, lag, i)
    ensures polls == n + 1
    ensures r == match replies(n)
                 case Body(Some(token), _) => Ok(token)
                 case Body(None, Some(ExpiredToken)) => Err(Expired)
                 case Body(None, Some(AccessDenied)) => Err(Denied)
                 case Body(None, Some(Unrecognised(code))) => Err(Other(code))
                 case Body(None, _) => Err(MissingFields)
                 case other => Err(RequestFailed(other))
  {
    assert !Continues(replies(n)) && forall i :: 0 <= i < n ==> Continues(replies(i));
    assert polls <= n ==> BeforeExpiry(interval, expiresIn, replies, lag, polls);
  }

  /** If every reply asks for patience until the expiry has passed, polling ends there, timed out. */
  lemma {:induction false} PatienceTimesOut(interval: nat, expiresIn: nat, replies: nat -> Reply, lag: nat -> nat,
                                            r: PollResult, polls: nat, n: nat)
    requires Polled(interval, expiresIn, replies, lag, r, polls)
    requires forall i :: 0 <= i < n ==> replies(i) == Body(None, Some(AuthorizationPending)) || replies(i) == Body(None, Some(SlowDown))
    requires forall i :: 0 <= i < n ==> BeforeExpiry(interval, expiresIn, replies, lag, i)
    requires !BeforeExpiry(interval, expiresIn, replies, lag, n)
    ensures polls == n && r == Err(TimedOut)
  {
    assert forall i :: 0 <= i < n ==> Continues(replies(i));
    assert polls < n ==> BeforeExpiry(interval, expiresIn, replies, lag, polls);
  }

  // ------------------------------------------------------------------ waits and time

  /** The waits, one after the other: the interval asked for but at least a second, then five more per `slow_down`. */
  lemma {:induction false} WaitsFollowReplies(interval: nat, replies: nat -> Reply, k: nat)
    requires interval < 0x1_0000_0000_0000_0000
    ensures var w := Waits(interval, replies, k);
            && |w| == k
            && (k > 0 ==> w[0] == if interval == 0 then 1 else interval)
            && (forall i :: 0 <= i < k - 1 && replies(i) != Body(None, Some(SlowDown)) ==> w[i + 1] == w[i])
            && (forall i :: 0 <= i < k - 1 && replies(i) == Body(None, Some(SlowDown)) ==>
                  w[i + 1] == if w[i] + 5 < 0x1_0000_0000_0000_0000 then w[i] + 5 else 0xFFFF_FFFF_FFFF_FFFF)
  {
    WaitsAreIntervals(interval, replies, k);
    var w := Waits(interval, replies, k);
    forall i | 0 <= i < k - 1
      ensures w[i + 1] == if SlowsDown(replies(i)) then SaturatingAdd(w[i], 5) else w[i]
    {
      WaitStep(interval, replies, i);
      assert w[i + 1] == Wait(interval, replies, i + 1);
    }
  }

  function Sum(s: seq<nat>): nat {
    if s == [] then 0 else Sum(s[..|s| - 1]) + s[|s| - 1]
  }

  function FirstLags(lag: nat -> nat, k: nat): seq<nat> {
    if k == 0 then [] else FirstLags(lag, k - 1) + [lag(k - 1)]
  }

  /** The time elapsed after `k` polls is the sum of the waits, in nanoseconds, and of the lags. */
  lemma {:induction false} ElapsedIsSum(interval: nat, replies: nat -> Reply, lag: nat -> nat, k: nat)
    ensures ElapsedAfter(interval, replies, lag, k) == 1_000_000_000 * Sum(Waits(interval, replies, k)) + Sum(FirstLags(lag, k))
  {
    if k > 0 {
      ElapsedIsSum(interval, replies, lag, k - 1);
      var w, l := Waits(interval, replies, k), FirstLags(lag, k);
      assert w[..|w| - 1] == Waits(interval, replies, k - 1) && l[..|l| - 1] == FirstLags(lag, k - 1);
    }
  }

  /** A poll is due exactly while the waits and lags so far add up to less than the lifetime granted. */
  lemma {:induction false} BeforeExpiryMeans(interval: nat, expiresIn: nat, replies: nat -> Reply, lag: nat -> nat, k: nat)
    ensures BeforeExpiry(interval, expiresIn, replies, lag, k) <==>
            1_000_000_000 * Sum(Waits(interval, replies, k)) + Sum(FirstLags(lag, k)) < 1_000_000_000 * expiresIn
  {
    ElapsedIsSum(interval, replies, lag, k);
  }

  /**
   `poll_device_authorization`; `replies(i)` answers poll `i`.  The contract gives the wait before every
   poll, says that a poll is made only before the expiry and only while the replies ask for more, and
   then why the loop ended.
   */
  method PollDeviceAuthorization(interval: nat, expiresIn: nat, replies: nat -> Reply, lag: nat -> nat)
    returns (r: PollResult, polls: nat, waits: seq<nat>)
    requires interval <= U64_MAX && expiresIn <= U64_MAX
    ensures waits == Waits(interval, replies, polls)
    ensures Polled(interval, expiresIn, replies, lag, r, polls)
  {
    var expiry := Nanos(expiresIn);
    var elapsed, current := 0, StartInterval(interval);
    polls, waits := 0, [];
    while true
      invariant elapsed == ElapsedAfter(interval, replies, lag, polls)
      invariant current == Wait(interval, replies, polls)
      invariant waits == Waits(interval, replies, polls)
      invariant Polling(interval, expiresIn, replies, lag, polls)
      invariant current >= 1
      decreases expiry - elapsed
    {
      r := Err(TimedOut);
      if elapsed >= expiry {
        break;
      }
      StepFacts(interval, replies, lag, polls);
      PollingStep(interval, expiresIn, replies, lag, polls);
      waits := waits + [current];
      elapsed := elapsed + Nanos(current) + lag(polls);
      var verdict, next := Judge(replies(polls), current);
      polls := polls + 1;
      current := next;
      if verdict.Granted? {
        r := Ok(verdict.token);
        break;
      }
      if verdict.Refused? {
        r := Err(verdict.failure);
        break;
      }
    }
  }

  // ------------------------------------------------------------------------ bounds

  lemma {:induction false} WaitAtLeast(interval: nat, replies: nat -> Reply, k: nat)
    requires interval <= U64_MAX
    ensures 1 <= StartInterval(interval) <= Wait(interval, replies, k)
  {
  }

  lemma {:induction false} MulStep(k: nat, s: nat)
    requires k > 0
    ensures k * s == (k - 1) * s + s
  {
  }

  lemma {:induction false} TotalWaitAtLeast(interval: nat, replies: nat -> Reply, k: nat)
    requires interval <= U64_MAX
    ensures TotalWait(interval, replies, k) >= k * StartInterval(interval)
  {
    if k > 0 {
      var s := StartInterval(interval);
      calc {
        TotalWait(interval, replies, k);
        TotalWait(interval, replies, k - 1) + Wait(interval, replies, k - 1);
      >= { TotalWaitAtLeast(interval, replies, k - 1); WaitAtLeast(interval, replies, k - 1); }
        (k - 1) * s + s;
        { MulStep(k, s); }
        k * s;
      }
    }
  }

  /** If a last poll happened before the expiry, the waits before the polls preceding it fit into it. */
  lemma {:induction false} WaitsFit(interval: nat, expiresIn: nat, replies: nat -> Reply, lag: nat -> nat, polls: nat)
    requires polls > 0 && BeforeExpiry(interval, expiresIn, replies, lag, polls - 1)
    ensures TotalWait(interval, replies, polls - 1) < expiresIn
  {
    ElapsedCoversWaits(interval, replies, lag, polls - 1);
  }

  lemma {:induction false} CeilBound(n: nat, s: nat, e: nat)
    requires s >= 1 && n * s < e
    ensures n + 1 <= (e + s - 1) / s
  {
    var q := (e + s - 1) / s;
    assert q * s > e - 1;
    if q <= n {
      MulMonotone(q, n, s);
    }
  }

  lemma {:induction false} MulMonotone(x: nat, y: nat, s: nat)
    requires x <= y
    ensures x * s <= y * s
  {
    assert y * s == x * s + (y - x) * s;
  }

  /** At most ceil(expires_in / max(interval, 1)) polls, whatever the replies. */
  lemma {:induction false} PollBound(interval: nat, expiresIn: nat, replies: nat -> Reply, lag: nat -> nat, polls: nat)
    requires interval <= U64_MAX
    requires forall i :: 0 <= i < polls ==> BeforeExpiry(interval, expiresIn, replies, lag, i)
    ensures polls <= (expiresIn + StartInterval(interval) - 1) / StartInterval(interval)
  {
    if polls > 0 {
      WaitsFit(interval, expiresIn, replies, lag, polls);
      TotalWaitAtLeast(interval, replies, polls - 1);
      CeilBound(polls - 1, StartInterval(interval), expiresIn);
    }
  }

  lemma {:induction false} AllSlowDown(replies: nat -> Reply, k: nat)
    requires forall i :: 0 <= i < k ==> SlowsDown(replies(i))
    ensures SlowDowns(replies, k) == k
  {
    if k > 0 {
      AllSlowDown(replies, k - 1);
    }
  }

  /** Twice the sum of k terms of an arithmetic series with step 5. */
  function TwiceSeries(first: nat, k: nat): int {
    2 * k * first + 5 * k * (k - 1)
  }

  lemma {:induction false} TwiceSeriesStep(first: nat, k: nat)
    ensures TwiceSeries(first, k + 1) == TwiceSeries(first, k) + 2 * (first + 5 * k)
  {
    assert 2 * (k + 1) * first == 2 * k * first + 2 * first;
    assert 5 * (k + 1) * k == 5 * k * (k - 1) + 10 * k;
  }

  /** With nothing but `slow_down` replies the waits form an arithmetic series. */
  lemma {:induction false} SlowDownTotal(interval: nat, replies: nat -> Reply, k: nat)
    requires forall i :: 0 <= i < k ==> SlowsDown(replies(i))
    requires TotalWait(interval, replies, k) < U64_MAX
    ensures 2 * TotalWait(interval, replies, k) == TwiceSeries(StartInterval(interval), k)
  {
    if k > 0 {
      SlowDownTotal(interval, replies, k - 1);
      AllSlowDown(replies, k - 1);
      assert Wait(interval, replies, k - 1) < U64_MAX;
      TwiceSeriesStep(StartInterval(interval), k - 1);
    }
  }

  /** An all-`slow_down` run therefore makes a number of polls whose square is bounded by the expiry. */
  lemma {:induction false} SlowDownBound(interval: nat, expiresIn: nat, replies: nat -> Reply, lag: nat -> nat, polls: nat)
    requires expiresIn <= U64_MAX
    requires polls > 0 && BeforeExpiry(interval, expiresIn, replies, lag, polls - 1)
    requires forall i :: 0 <= i < polls - 1 ==> SlowsDown(replies(i))
    ensures 2 * (polls - 1) * StartInterval(interval) + 5 * (polls - 1) * (polls - 2) < 2 * expiresIn
  {
    WaitsFit(interval, expiresIn, replies, lag, polls);
    SlowDownTotal(interval, replies, polls - 1);
  }
}
