/** The provider request helper against a history of outcomes: what each request records in the breaker, and
    when the breaker is closed, opens and refuses, in terms of the recorded outcomes alone.
 */
module ProviderOutcomes {
  import opened Basics
  import opened CircuitBreakers
  import opened ProviderRequests

  // ------------------------------------------------------------------ one call, one request

  /** What each reply becomes: 429 and the four server errors are retryable whatever the request allows, other
      error statuses are rejected unless allowed, and everything else is returned with its own status. */
  lemma InterpretMeans(status: int, allowed: set<int>)
    ensures var r := Interpret(Response(status), allowed);
            && (r == RateLimited <==> status == 429)
            && (r == Unavailable <==> status in {500, 502, 503, 504})
            && (r == Rejected(status) <==> status >= 400 && status !in allowed && status !in RETRY_ON_STATUS)
            && (r == Returned(status) <==> status < 400 || (status in allowed && status !in RETRY_ON_STATUS))
    ensures Interpret(TransportError, allowed) == TransportFailed && Interpret(Cancelled, allowed) == WasCancelled
  {
  }

  /** A request without retry makes one call, whose reply decides its result; one with retry ends with its
      first final reply or its last call. */
  lemma RequestMeans(c: Config, maxAttempts: int, b: Breaker, r: Request)
    requires !Observe(c, b, r.start).state.Open?
    ensures var served := Serve(c, maxAttempts, b, r);
            && 1 <= served.calls <= (if r.retry then AtLeastOne(maxAttempts) else 1)
            && served.result == Interpret(r.replies(served.calls), r.allowed)
            && (forall i :: 1 <= i < served.calls ==> Retryable(Interpret(r.replies(i), r.allowed)))
            && (r.retry && Retryable(served.result) ==> served.calls == AtLeastOne(maxAttempts))
  {
    RetryStopsAtFirstFinalReply(maxAttempts, r.replies, r.allowed, 1);
  }

  /** What a request records: nothing but its look at the state when it is refused or cancelled, and
      otherwise, in every state of the breaker, its success, or its failure at its end. */
  function EventsOf(r: Request, result: Result): seq<Event> {
    match result
    case BreakerOpen => [Observed(r.start)]
    case WasCancelled => [Observed(r.start)]
    case Returned(_) => [Observed(r.start), Succeeded]
    case _ => [Observed(r.start), Failed(r.end)]
  }

  lemma ServedIsRecorded(c: Config, maxAttempts: int, b: Breaker, r: Request)
    ensures var served := Serve(c, maxAttempts, b, r);
            && served.breaker == Run(c, b, EventsOf(r, served.result))
            && (served.result.BreakerOpen? <==> Run(c, b, [Observed(r.start)]).state.Open?)
  {
    RetryIsNeverGated(maxAttempts, r.replies, r.allowed, 1);
    var served := Serve(c, maxAttempts, b, r);
    var events := EventsOf(r, served.result);
    assert Run(c, b, [Observed(r.start)]) == Observe(c, b, r.start);
    if |events| == 2 {
      assert events[1..] == [events[1]];
      assert Run(c, Observe(c, b, r.start), [events[1]]) == Apply(c, Observe(c, b, r.start), events[1]);
    }
  }

  ghost function AllEvents(c: Config, maxAttempts: int, b: Breaker, requests: seq<Request>): seq<Event>
    decreases |requests|
  {
    if requests == [] then []
    else
      var served := Serve(c, maxAttempts, b, requests[0]);
      EventsOf(requests[0], served.result) + AllEvents(c, maxAttempts, served.breaker, requests[1..])
  }

  /** So a run of requests is a run of the breaker, and everything proved of such runs holds of it. */
  lemma {:induction false} RequestsAreRecorded(c: Config, maxAttempts: int, b: Breaker, requests: seq<Request>)
    ensures BreakerAfter(c, maxAttempts, b, requests, |requests|)
         == Run(c, b, AllEvents(c, maxAttempts, b, requests))
    decreases |requests|
  {
    if requests != [] {
      var served := Serve(c, maxAttempts, b, requests[0]);
      ServedIsRecorded(c, maxAttempts, b, requests[0]);
      RequestsAreRecorded(c, maxAttempts, served.breaker, requests[1..]);
      CircuitBreakers.RunSplits(c, b, EventsOf(requests[0], served.result),
                                AllEvents(c, maxAttempts, served.breaker, requests[1..]));
    }
  }

  // ------------------------------------------------------------- the breaker as its history

  /** A recorded outcome; a failure has the time it was recorded. */
  datatype Mark = Good | Bad(at: real)

  /** The outcomes recorded by the first n requests, in order; refused and cancelled requests have none. */
  ghost function Marks(c: Config, maxAttempts: int, requests: seq<Request>, n: nat): seq<Mark>
    requires n <= |requests|
    decreases n
  {
    if n == 0 then []
    else
      var result := ResultOf(c, maxAttempts, FRESH, requests, n - 1);
      Marks(c, maxAttempts, requests, n - 1)
      + if result.Returned? then [Good] else if Failing(result) then [Bad(requests[n - 1].end)] else []
  }

  /** Failures, or successes, at the end of a history. */
  function Streak(marks: seq<Mark>, good: bool): nat
    decreases |marks|
  {
    if marks == [] || marks[|marks| - 1].Good? != good then 0 else 1 + Streak(marks[..|marks| - 1], good)
  }

  lemma {:induction false} StreakIff(marks: seq<Mark>, good: bool, k: nat)
    ensures k <= Streak(marks, good)
       <==> k <= |marks| && forall i :: |marks| - k <= i < |marks| ==> marks[i].Good? == good
    decreases |marks|
  {
    if marks != [] && k > 0 {
      var init, last := marks[..|marks| - 1], marks[|marks| - 1];
      if last.Good? == good {
        StreakIff(init, good, k - 1);
        assert forall i :: 0 <= i < |init| ==> init[i] == marks[i];
      } else {
        assert marks[|marks| - 1].Good? != good;
      }
    }
  }

  /** A history that leaves the breaker closed: failure_threshold failures in a row open it, and from then on
      success_threshold successes in a row close it. */
  predicate Working(c: Config, marks: seq<Mark>)
    decreases |marks|
  {
    if marks == [] then true
    else if Working(c, marks[..|marks| - 1]) then Streak(marks, false) < c.failureThreshold
    else marks[|marks| - 1].Good? && Streak(marks, true) >= c.successThreshold
  }

  ghost function ClockAfter(clock: real, requests: seq<Request>, n: nat): real
    requires n <= |requests|
  {
    if n == 0 then clock else requests[n - 1].end
  }

  /** The breaker agrees with the history of outcomes. */
  ghost predicate Agrees(c: Config, b: Breaker, marks: seq<Mark>, clock: real) {
    && Coherent(c, b)
    && (b.state.Closed? <==> Working(c, marks))
    && (b.state.Closed? ==> b.failures == Streak(marks, false))
    && (!b.state.Closed? ==> marks != [])
    && (!b.state.Closed? && marks[|marks| - 1].Good? ==> b.state.HalfOpen? && b.successes == Streak(marks, true))
    && (!b.state.Closed? && marks[|marks| - 1].Bad? ==>
          && b.lastFailure == marks[|marks| - 1].at <= clock
          && (b.state.HalfOpen? ==> b.successes == 0 && b.lastFailure + c.recoveryTimeout <= clock))
  }

  /** Refused exactly while the last outcome is a failure less than the recovery timeout ago. */
  predicate Refuses(c: Config, marks: seq<Mark>, now: real) {
    !Working(c, marks) && marks[|marks| - 1].Bad? && now < marks[|marks| - 1].at + c.recoveryTimeout
  }

  lemma OneMoreMark(c: Config, marks: seq<Mark>, m: Mark)
    ensures Streak(marks + [m], m.Good?) == 1 + Streak(marks, m.Good?) && Streak(marks + [m], !m.Good?) == 0
    ensures Working(c, marks + [m]) <==>
              if Working(c, marks) then Streak(marks + [m], false) < c.failureThreshold
              else m.Good? && Streak(marks + [m], true) >= c.successThreshold
  {
    assert (marks + [m])[..|marks|] == marks;
  }

  lemma ServeAgrees(c: Config, maxAttempts: int, b: Breaker, marks: seq<Mark>, clock: real, r: Request)
    requires c.failureThreshold >= 1 && Agrees(c, b, marks, clock) && clock <= r.start <= r.end
    ensures var served := Serve(c, maxAttempts, b, r);
            var marks' := marks + if served.result.Returned? then [Good]
                                  else if Failing(served.result) then [Bad(r.end)] else [];
            && Agrees(c, served.breaker, marks', r.end)
            && (served.result.BreakerOpen? <==> Refuses(c, marks, r.start))
  {
    RetryIsNeverGated(maxAttempts, r.replies, r.allowed, 1);
    OneMoreMark(c, marks, Good);
    OneMoreMark(c, marks, Bad(r.end));
    assert marks + [] == marks;
    if marks != [] {
      assert marks == marks[..|marks| - 1] + [marks[|marks| - 1]];
      OneMoreMark(c, marks[..|marks| - 1], marks[|marks| - 1]);
    }
  }

  lemma {:induction false} BreakerSteps(c: Config, maxAttempts: int, b: Breaker, requests: seq<Request>, n: nat)
    requires n < |requests|
    ensures BreakerAfter(c, maxAttempts, b, requests, n + 1)
         == Serve(c, maxAttempts, BreakerAfter(c, maxAttempts, b, requests, n), requests[n]).breaker
    decreases n
  {
    if n == 0 {
      assert BreakerAfter(c, maxAttempts, Serve(c, maxAttempts, b, requests[0]).breaker, requests[1..], 0)
          == Serve(c, maxAttempts, b, requests[0]).breaker;
    } else {
      BreakerSteps(c, maxAttempts, Serve(c, maxAttempts, b, requests[0]).breaker, requests[1..], n - 1);
    }
  }

  lemma {:induction false} ClockFits(clock: real, requests: seq<Request>, n: nat)
    requires Sequential(clock, requests) && n < |requests|
    ensures ClockAfter(clock, requests, n) <= requests[n].start <= requests[n].end
    decreases n
  {
    if n > 0 {
      ClockFits(requests[0].end, requests[1..], n - 1);
    }
  }

  lemma {:induction false} BreakerAgrees(c: Config, maxAttempts: int, clock: real, requests: seq<Request>, n: nat)
    requires c.failureThreshold >= 1 && Sequential(clock, requests) && n <= |requests|
    ensures Agrees(c, BreakerAfter(c, maxAttempts, FRESH, requests, n), Marks(c, maxAttempts, requests, n),
                   ClockAfter(clock, requests, n))
    decreases n
  {
    if n > 0 {
      BreakerAgrees(c, maxAttempts, clock, requests, n - 1);
      BreakerSteps(c, maxAttempts, FRESH, requests, n - 1);
      ClockFits(clock, requests, n - 1);
      ServeAgrees(c, maxAttempts, BreakerAfter(c, maxAttempts, FRESH, requests, n - 1),
                  Marks(c, maxAttempts, requests, n - 1), ClockAfter(clock, requests, n - 1), requests[n - 1]);
    }
  }

  /** In every run of non-overlapping requests on a fresh breaker the recorded outcomes alone decide: it is
      closed exactly when the history leaves it so, and refuses a request exactly while the history has it
      open and the last outcome is a failure less than the recovery timeout ago. */
  lemma BreakerIsItsHistory(c: Config, maxAttempts: int, clock: real, requests: seq<Request>, n: nat)
    requires c.failureThreshold >= 1 && Sequential(clock, requests) && n < |requests|
    ensures var marks := Marks(c, maxAttempts, requests, n);
            && (BreakerAfter(c, maxAttempts, FRESH, requests, n).state.Closed? <==> Working(c, marks))
            && (ResultOf(c, maxAttempts, FRESH, requests, n).BreakerOpen? <==> Refuses(c, marks, requests[n].start))
  {
    BreakerAgrees(c, maxAttempts, clock, requests, n);
    ClockFits(clock, requests, n);
    ServeAgrees(c, maxAttempts, BreakerAfter(c, maxAttempts, FRESH, requests, n),
                Marks(c, maxAttempts, requests, n), ClockAfter(clock, requests, n), requests[n]);
  }

  /** A closed breaker opens at a request if and only if the last failure_threshold outcomes recorded by then
      are all failures: a success in between starts the count again, a cancelled request does not. */
  lemma ClosedOpensIff(c: Config, maxAttempts: int, clock: real, requests: seq<Request>, n: nat)
    requires c.failureThreshold >= 1 && Sequential(clock, requests) && n < |requests|
    requires BreakerAfter(c, maxAttempts, FRESH, requests, n).state.Closed?
    ensures var marks := Marks(c, maxAttempts, requests, n + 1);
            !BreakerAfter(c, maxAttempts, FRESH, requests, n + 1).state.Closed? <==>
              && Failing(ResultOf(c, maxAttempts, FRESH, requests, n))
              && c.failureThreshold <= |marks|
              && forall i :: |marks| - c.failureThreshold <= i < |marks| ==> marks[i].Bad?
  {
    var marks, before := Marks(c, maxAttempts, requests, n + 1), Marks(c, maxAttempts, requests, n);
    BreakerAgrees(c, maxAttempts, clock, requests, n);
    BreakerAgrees(c, maxAttempts, clock, requests, n + 1);
    assert Working(c, before);
    StreakIff(marks, false, c.failureThreshold);
    hide Agrees;
    hide Serve;
    hide BreakerAfter;
    if Failing(ResultOf(c, maxAttempts, FRESH, requests, n)) {
      assert marks[..|marks| - 1] == before;
    } else if marks != before {
      assert marks[..|marks| - 1] == before && marks[|marks| - 1].Good?;
    }
  }

  // ---------------------------------------------------------------------- manual reset

  lemma {:induction false} FailuresInARow(c: Config, b: Breaker, now: real, n: nat)
    requires b.state.Closed? && 0 <= b.failures < c.failureThreshold
    ensures var after := Run(c, b, Repeat(Failed(now), n));
            after.state == if b.failures + n >= c.failureThreshold then Open else Closed
    decreases n
  {
    if n > 0 {
      var next := Fail(c, b, now);
      assert Repeat(Failed(now), n)[1..] == Repeat(Failed(now), n - 1);
      if next.state.Closed? {
        FailuresInARow(c, next, now, n - 1);
      } else {
        StaysOpen(c, next, now, n - 1);
      }
    }
  }

  lemma {:induction false} StaysOpen(c: Config, b: Breaker, now: real, n: nat)
    requires b.state.Open?
    ensures Run(c, b, Repeat(Failed(now), n)).state.Open?
    decreases n
  {
    if n > 0 {
      assert Repeat(Failed(now), n)[1..] == Repeat(Failed(now), n - 1);
      StaysOpen(c, Fail(c, b, now), now, n - 1);
    }
  }

  /** After a manual reset, from every state, requests are admitted at once, and it takes failure_threshold
      failures in a row again to open the breaker. */
  lemma ResetStartsAgain(c: Config, b: Breaker, now: real, n: nat)
    requires c.failureThreshold >= 1
    ensures Run(c, Reset(b), [Observed(now)]) == Reset(b)
    ensures Run(c, Reset(b), Repeat(Failed(now), n)).state == if n >= c.failureThreshold then Open else Closed
  {
    assert Run(c, Observe(c, Reset(b), now), []) == Observe(c, Reset(b), now);
    FailuresInARow(c, Reset(b), now, n);
  }
}
