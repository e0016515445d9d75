/** The provider request helper: the breaker gate, the bounded retry around the upstream
    call, and the recording of the outcome.
 */
module ProviderRequests {
  import opened Basics
  import opened CircuitBreakers

  // ------------------------------------------------------------ one upstream call

  /** What the provider does to one call.  Cancelled is a cancellation of the calling task. */
  datatype Reply = Response(status: int) | TransportError | Cancelled

  datatype Result =
    | Returned(status: int)
    | RateLimited
    | Unavailable
    | Rejected(status: int)
    | TransportFailed
    | WasCancelled
    | BreakerOpen

  function Interpret(reply: Reply, allowed: set<int>): Result {
    match reply
    case TransportError => TransportFailed
    case Cancelled => WasCancelled
    case Response(status) =>
      if status == 429 then RateLimited
      else if status in {500, 502, 503, 504} then Unavailable
      else if status >= 400 && status !in allowed then Rejected(status)
      else Returned(status)
  }

  predicate Retryable(r: Result) {
    r.RateLimited? || r.Unavailable?
  }

  /** The statuses the default retry policy lists. */
  const RETRY_ON_STATUS: set<int> := {429, 500, 502, 503, 504}

  /** The request helper retries exactly the statuses the retry policy lists, although it does not consult
      the policy; allowing such a status for a request does not change that. */
  lemma RetriedStatusesIff(reply: Reply, allowed: set<int>)
    ensures Retryable(Interpret(reply, allowed)) <==> reply.Response? && reply.status in RETRY_ON_STATUS
    ensures Interpret(reply, allowed).Returned? <==>
              reply.Response? && (reply.status < 400 || reply.status in allowed - RETRY_ON_STATUS)
  {
  }

  /** The bounded retry from its `attempt`-th call on: the final result and the number of the
      last call.  The provider's reply to call i is replies(i). */
  function RetryFrom(maxAttempts: int, replies: nat -> Reply, allowed: set<int>, attempt: nat): (Result, nat)
    decreases maxAttempts - attempt
  {
    var result := Interpret(replies(attempt), allowed);
    if Retryable(result) && attempt < maxAttempts
    then RetryFrom(maxAttempts, replies, allowed, attempt + 1)
    else (result, attempt)
  }

  function AtLeastOne(n: int): nat {
    if n < 1 then 1 else n
  }

  /** The retry loop stops at the first call that is not retryable, and otherwise at the attempt
      limit; even a limit below one allows one call. */
  lemma {:induction false} RetryStopsAtFirstFinalReply(
    maxAttempts: int, replies: nat -> Reply, allowed: set<int>, attempt: nat)
    requires 1 <= attempt <= AtLeastOne(maxAttempts)
    ensures var (result, last) := RetryFrom(maxAttempts, replies, allowed, attempt);
            && attempt <= last <= AtLeastOne(maxAttempts)
            && result == Interpret(replies(last), allowed)
            && (forall i :: attempt <= i < last ==> Retryable(Interpret(replies(i), allowed)))
            && (Retryable(result) ==> last == AtLeastOne(maxAttempts))
    decreases maxAttempts - attempt
  {
    if Retryable(Interpret(replies(attempt), allowed)) && attempt < maxAttempts {
      RetryStopsAtFirstFinalReply(maxAttempts, replies, allowed, attempt + 1);
    }
  }

  method WithRetry(maxAttempts: int, replies: nat -> Reply, allowed: set<int>)
    returns (result: Result, calls: nat)
    ensures (result, calls) == RetryFrom(maxAttempts, replies, allowed, 1)
  {
    calls := 1;
    result := Interpret(replies(1), allowed);
    while Retryable(result) && calls < maxAttempts
      invariant calls >= 1 && result == Interpret(replies(calls), allowed)
      invariant RetryFrom(maxAttempts, replies, allowed, calls) == RetryFrom(maxAttempts, replies, allowed, 1)
      decreases maxAttempts - calls
    {
      calls := calls + 1;
      result := Interpret(replies(calls), allowed);
    }
  }

  // ------------------------------------------------------------------ one request

  datatype Request = Request(start: real, end: real, retry: bool, allowed: set<int>, replies: nat -> Reply)

  datatype Served = Served(breaker: Breaker, result: Result, calls: nat)

  function Record(c: Config, b: Breaker, result: Result, now: real): Breaker {
    if result.Returned? then Succeed(c, b)
    else if result.WasCancelled? then b
    else Fail(c, b, now)
  }

  function Serve(c: Config, maxAttempts: int, b: Breaker, r: Request): Served {
    var seen := Observe(c, b, r.start);
    if seen.state.Open? then Served(seen, BreakerOpen, 0)
    else
      var (result, calls) := if r.retry then RetryFrom(maxAttempts, r.replies, r.allowed, 1)
                             else (Interpret(r.replies(1), r.allowed), 1);
      Served(Record(c, seen, result, r.end), result, calls)
  }

  predicate Failing(r: Result) {
    !r.Returned? && !r.WasCancelled? && !r.BreakerOpen?
  }

  class Provider {
    const breaker: CircuitBreaker
    const maxAttempts: int

    constructor (breaker: CircuitBreaker, maxAttempts: int)
      ensures this.breaker == breaker && this.maxAttempts == maxAttempts
    {
      this.breaker := breaker;
      this.maxAttempts := maxAttempts;
    }

    method DoRequest(r: Request) returns (result: Result, calls: nat)
      modifies breaker
      ensures Served(breaker.Value(), result, calls)
           == Serve(breaker.config, maxAttempts, old(breaker.Value()), r)
    {
      var admitted := breaker.AllowRequest(r.start);
      if !admitted {
        return BreakerOpen, 0;
      }
      if r.retry {
        result, calls := WithRetry(maxAttempts, r.replies, r.allowed);
      } else {
        result, calls := Interpret(r.replies(1), r.allowed), 1;
      }
      RetryIsNeverGated(maxAttempts, r.replies, r.allowed, 1);
      if result.Returned? {
        breaker.RecordSuccess();
      } else if !result.WasCancelled? {
        breaker.RecordFailure(r.end);
      }
    }
  }

  lemma {:induction false} RetryIsNeverGated(maxAttempts: int, replies: nat -> Reply, allowed: set<int>, attempt: nat)
    ensures !RetryFrom(maxAttempts, replies, allowed, attempt).0.BreakerOpen?
    decreases maxAttempts - attempt
  {
    if Retryable(Interpret(replies(attempt), allowed)) && attempt < maxAttempts {
      RetryIsNeverGated(maxAttempts, replies, allowed, attempt + 1);
    }
  }

  /** An admitted request makes between one and max_attempts upstream calls, a gated one none. */
  lemma CallsPerRequest(c: Config, maxAttempts: int, b: Breaker, r: Request)
    ensures var served := Serve(c, maxAttempts, b, r);
            && (served.result.BreakerOpen? <==> Observe(c, b, r.start).state.Open?)
            && (served.result.BreakerOpen? ==> served.calls == 0)
            && (!served.result.BreakerOpen? ==> 1 <= served.calls <= AtLeastOne(maxAttempts))
  {
    RetryIsNeverGated(maxAttempts, r.replies, r.allowed, 1);
    RetryStopsAtFirstFinalReply(maxAttempts, r.replies, r.allowed, 1);
  }

  // ------------------------------------------------- runs of non-overlapping requests

  /** Each request starts after the previous one has ended. */
  ghost predicate Sequential(clock: real, requests: seq<Request>)
    decreases |requests|
  {
    requests != [] ==> clock <= requests[0].start <= requests[0].end
                       && Sequential(requests[0].end, requests[1..])
  }

  /** The breaker after the first n requests. */
  ghost function BreakerAfter(c: Config, maxAttempts: int, b: Breaker, requests: seq<Request>, n: nat): Breaker
    requires n <= |requests|
    decreases n
  {
    if n == 0 then b
    else BreakerAfter(c, maxAttempts, Serve(c, maxAttempts, b, requests[0]).breaker, requests[1..], n - 1)
  }

  ghost function ResultOf(c: Config, maxAttempts: int, b: Breaker, requests: seq<Request>, i: nat): Result
    requires i < |requests|
  {
    Serve(c, maxAttempts, BreakerAfter(c, maxAttempts, b, requests, i), requests[i]).result
  }

  ghost predicate Coherent(c: Config, b: Breaker) {
    0 <= b.failures && (b.state.Closed? <==> b.failures < c.failureThreshold)
  }

  /** In runs of non-overlapping requests CLOSED means exactly: fewer failures than the threshold. */
  lemma {:induction false} SequentialRunsAreCoherent(
    c: Config, maxAttempts: int, b: Breaker, requests: seq<Request>, n: nat)
    requires c.failureThreshold >= 1 && Coherent(c, b) && n <= |requests|
    ensures Coherent(c, BreakerAfter(c, maxAttempts, b, requests, n))
    decreases n
  {
    if n > 0 {
      SequentialRunsAreCoherent(c, maxAttempts, Serve(c, maxAttempts, b, requests[0]).breaker, requests[1..], n - 1);
    }
  }

  /** In runs of non-overlapping requests any failed half-open probe reopens the breaker. */
  lemma HalfOpenFailureReopens(c: Config, maxAttempts: int, b: Breaker, requests: seq<Request>, i: nat)
    requires c.failureThreshold >= 1 && Coherent(c, b) && i < |requests|
    requires Observe(c, BreakerAfter(c, maxAttempts, b, requests, i), requests[i].start).state.HalfOpen?
    requires Failing(ResultOf(c, maxAttempts, b, requests, i))
    ensures var after := Serve(c, maxAttempts, BreakerAfter(c, maxAttempts, b, requests, i), requests[i]).breaker;
            after.state.Open? && after.lastFailure == requests[i].end
  {
    SequentialRunsAreCoherent(c, maxAttempts, b, requests, i);
  }

  // ------------------------------------------------------------- the way back to CLOSED

  /** Successes among the requests from index i on. */
  ghost function SuccessesFrom(c: Config, maxAttempts: int, b: Breaker, requests: seq<Request>): nat
    decreases |requests|
  {
    if requests == [] then 0
    else
      var served := Serve(c, maxAttempts, b, requests[0]);
      (if served.result.Returned? then 1 else 0)
      + SuccessesFrom(c, maxAttempts, served.breaker, requests[1..])
  }

  /** Every request is admitted and none fails. */
  ghost predicate NoneFails(c: Config, maxAttempts: int, b: Breaker, requests: seq<Request>)
    decreases |requests|
  {
    requests != [] ==>
      var served := Serve(c, maxAttempts, b, requests[0]);
      (served.result.Returned? || served.result.WasCancelled?)
      && NoneFails(c, maxAttempts, served.breaker, requests[1..])
  }

  /** The run leaves the breaker CLOSED for the first time at its end. */
  ghost predicate ClosesAtEnd(c: Config, maxAttempts: int, b: Breaker, requests: seq<Request>)
    decreases |requests|
  {
    if requests == [] then b.state.Closed?
    else !b.state.Closed? && ClosesAtEnd(c, maxAttempts, Serve(c, maxAttempts, b, requests[0]).breaker, requests[1..])
  }

  /** A probation: the breaker is OPEN, and from its first request, which starts no earlier than
      the recovery timeout after the last failure, none fails and exactly the required number
      succeed. */
  ghost predicate Probation(c: Config, maxAttempts: int, b: Breaker, requests: seq<Request>) {
    && b.state.Open?
    && requests != []
    && requests[0].start >= b.lastFailure + c.recoveryTimeout
    && NoneFails(c, maxAttempts, b, requests)
    && SuccessesFrom(c, maxAttempts, b, requests) == AtLeastOne(c.successThreshold)
  }

  /** From HALF_OPEN: either nothing fails until it closes, or it reopens on the way. */
  lemma {:induction false} HalfOpenToClosed(c: Config, maxAttempts: int, b: Breaker, requests: seq<Request>)
    returns (reopened: bool, k: nat)
    requires c.failureThreshold >= 1 && Coherent(c, b) && b.state.HalfOpen?
    requires 0 <= b.successes < AtLeastOne(c.successThreshold)
    requires ClosesAtEnd(c, maxAttempts, b, requests)
    ensures k <= |requests|
    ensures reopened ==> Probation(c, maxAttempts, BreakerAfter(c, maxAttempts, b, requests, k), requests[k..])
    ensures !reopened ==> NoneFails(c, maxAttempts, b, requests)
                          && b.successes + SuccessesFrom(c, maxAttempts, b, requests) == AtLeastOne(c.successThreshold)
    decreases |requests|, 0
  {
    var served := Serve(c, maxAttempts, b, requests[0]);
    RetryIsNeverGated(maxAttempts, requests[0].replies, requests[0].allowed, 1);
    var rest := requests[1..];
    if served.breaker.state.HalfOpen? {
      reopened, k := HalfOpenToClosed(c, maxAttempts, served.breaker, rest);
      k := k + 1;
      assert requests[k..] == rest[k - 1..];
    } else if served.breaker.state.Open? {
      k := OpenToClosed(c, maxAttempts, served.breaker, rest);
      reopened, k := true, k + 1;
      assert requests[k..] == rest[k - 1..];
    } else {
      assert rest == [];
      reopened, k := false, 0;
    }
  }

  /** OPEN reaches CLOSED, without a manual reset, only through a probation at the end of the run. */
  lemma {:induction false} OpenToClosed(c: Config, maxAttempts: int, b: Breaker, requests: seq<Request>)
    returns (k: nat)
    requires c.failureThreshold >= 1 && Coherent(c, b) && b.state.Open?
    requires ClosesAtEnd(c, maxAttempts, b, requests)
    ensures k <= |requests|
    ensures Probation(c, maxAttempts, BreakerAfter(c, maxAttempts, b, requests, k), requests[k..])
    decreases |requests|, 1
  {
    var first, rest := requests[0], requests[1..];
    var served := Serve(c, maxAttempts, b, first);
    RetryIsNeverGated(maxAttempts, first.replies, first.allowed, 1);
    if served.breaker.state.Open? {
      k := OpenToClosed(c, maxAttempts, served.breaker, rest);
      k := k + 1;
      assert requests[k..] == rest[k - 1..];
    } else if served.breaker.state.Closed? {
      assert rest == [];
      k := 0;
      assert requests[k..] == requests;
    } else {
      var reopened, j := HalfOpenToClosed(c, maxAttempts, served.breaker, rest);
      k := if reopened then j + 1 else 0;
      assert reopened ==> requests[k..] == rest[j..];
      assert !reopened ==> requests[k..] == requests;
    }
  }

  // ------------------------------------------------------- load on a failing provider

  /** Failures recorded among the first n requests: the admitted ones that neither succeeded nor were
      cancelled. */
  ghost function Failures(c: Config, maxAttempts: int, b: Breaker, requests: seq<Request>, n: nat): nat
    requires n <= |requests|
    decreases n
  {
    if n == 0 then 0
    else
      var served := Serve(c, maxAttempts, b, requests[0]);
      (if Failing(served.result) then 1 else 0)
      + Failures(c, maxAttempts, served.breaker, requests[1..], n - 1)
  }

  ghost function TotalCalls(c: Config, maxAttempts: int, b: Breaker, requests: seq<Request>): nat
    decreases |requests|
  {
    if requests == [] then 0
    else
      var served := Serve(c, maxAttempts, b, requests[0]);
      served.calls + TotalCalls(c, maxAttempts, served.breaker, requests[1..])
  }

  /** Upstream calls made by requests that were cancelled. */
  ghost function CancelledCalls(c: Config, maxAttempts: int, b: Breaker, requests: seq<Request>): nat
    decreases |requests|
  {
    if requests == [] then 0
    else
      var served := Serve(c, maxAttempts, b, requests[0]);
      (if served.result.WasCancelled? then served.calls else 0)
      + CancelledCalls(c, maxAttempts, served.breaker, requests[1..])
  }

  /** No request succeeds; any may be refused or cancelled. */
  ghost predicate NoSuccess(c: Config, maxAttempts: int, b: Breaker, requests: seq<Request>)
    decreases |requests|
  {
    requests != [] ==>
      var served := Serve(c, maxAttempts, b, requests[0]);
      !served.result.Returned? && NoSuccess(c, maxAttempts, served.breaker, requests[1..])
  }

  function Timeouts(c: Config, k: int): real {
    c.recoveryTimeout * (k as real)
  }

  lemma OneMoreTimeout(c: Config, k: int)
    ensures Timeouts(c, k + 1) == Timeouts(c, k) + c.recoveryTimeout
    ensures Timeouts(c, 0) == 0.0
  {
  }

  /** A breaker that is not CLOSED has seen its last failure, and HALF_OPEN only a timeout after it. */
  ghost predicate Tripped(c: Config, b: Breaker, clock: real) {
    && Coherent(c, b) && !b.state.Closed?
    && b.lastFailure <= clock
    && (b.state.HalfOpen? ==> b.lastFailure + c.recoveryTimeout <= clock)
  }

  lemma ServeTripped(c: Config, maxAttempts: int, b: Breaker, clock: real, r: Request)
    requires c.failureThreshold >= 1 && c.recoveryTimeout >= 0.0
    requires Tripped(c, b, clock) && clock <= r.start <= r.end
    requires !Serve(c, maxAttempts, b, r).result.Returned?
    ensures var served := Serve(c, maxAttempts, b, r);
            && Tripped(c, served.breaker, r.end)
            && (Failing(served.result) ==>
                  b.lastFailure + c.recoveryTimeout <= r.start && served.breaker.lastFailure == r.end)
            && (!Failing(served.result) ==> served.breaker.lastFailure == b.lastFailure)
  {
    RetryIsNeverGated(maxAttempts, r.replies, r.allowed, 1);
  }

  /** While no request succeeds, the k-th failure recorded after the last one belongs to a request that
      starts at least k recovery timeouts later, however many requests are refused or cancelled in
      between. */
  lemma {:induction false} ProbesAreSpaced(
    c: Config, maxAttempts: int, b: Breaker, clock: real, requests: seq<Request>, i: nat)
    requires c.failureThreshold >= 1 && c.recoveryTimeout >= 0.0 && Tripped(c, b, clock)
    requires Sequential(clock, requests) && NoSuccess(c, maxAttempts, b, requests) && i < |requests|
    requires Failing(ResultOf(c, maxAttempts, b, requests, i))
    ensures requests[i].start >= b.lastFailure + Timeouts(c, Failures(c, maxAttempts, b, requests, i + 1))
    decreases i
  {
    hide Timeouts;
    var first := requests[0];
    var served := Serve(c, maxAttempts, b, first);
    ServeTripped(c, maxAttempts, b, clock, first);
    hide Serve;
    if i == 0 {
      assert Failures(c, maxAttempts, b, requests, 1) == 1;
      OneMoreTimeout(c, 0);
    } else {
      ProbesAreSpaced(c, maxAttempts, served.breaker, first.end, requests[1..], i - 1);
      OneMoreTimeout(c, Failures(c, maxAttempts, served.breaker, requests[1..], i));
    }
  }

  lemma {:induction false} FailuresSplit(
    c: Config, maxAttempts: int, b: Breaker, requests: seq<Request>, m: nat, n: nat)
    requires m <= n <= |requests|
    ensures Failures(c, maxAttempts, b, requests, n)
         == Failures(c, maxAttempts, b, requests, m)
            + Failures(c, maxAttempts, BreakerAfter(c, maxAttempts, b, requests, m), requests[m..], n - m)
    decreases m
  {
    if m > 0 {
      FailuresSplit(c, maxAttempts, Serve(c, maxAttempts, b, requests[0]).breaker, requests[1..], m - 1, n - 1);
      assert requests[1..][m - 1..] == requests[m..];
    }
  }

  lemma OneMoreFailure(c: Config, maxAttempts: int, b: Breaker, requests: seq<Request>, i: nat)
    requires i < |requests|
    ensures Failures(c, maxAttempts, b, requests, i + 1)
         == Failures(c, maxAttempts, b, requests, i)
            + if Failing(ResultOf(c, maxAttempts, b, requests, i)) then 1 else 0
  {
    FailuresSplit(c, maxAttempts, b, requests, i, i + 1);
    assert Failures(c, maxAttempts, BreakerAfter(c, maxAttempts, b, requests, i), requests[i..], 1)
        == if Failing(ResultOf(c, maxAttempts, b, requests, i)) then 1 else 0;
  }

  lemma {:induction false} ResultSplits(
    c: Config, maxAttempts: int, b: Breaker, requests: seq<Request>, m: nat, i: nat)
    requires m <= i < |requests|
    ensures ResultOf(c, maxAttempts, b, requests, i)
         == ResultOf(c, maxAttempts, BreakerAfter(c, maxAttempts, b, requests, m), requests[m..], i - m)
    decreases m
  {
    if m > 0 {
      ResultSplits(c, maxAttempts, Serve(c, maxAttempts, b, requests[0]).breaker, requests[1..], m - 1, i - 1);
      assert requests[1..][m - 1..] == requests[m..];
    }
  }

  lemma {:induction false} SequentialSplits(clock: real, requests: seq<Request>, m: nat)
    requires Sequential(clock, requests) && 1 <= m <= |requests|
    ensures clock <= requests[m - 1].end && Sequential(requests[m - 1].end, requests[m..])
    decreases m
  {
    if m > 1 {
      SequentialSplits(requests[0].end, requests[1..], m - 1);
      assert requests[1..][m - 1..] == requests[m..];
    }
  }

  /** Request i records the failure that reaches the threshold. */
  ghost predicate Opens(c: Config, maxAttempts: int, b: Breaker, requests: seq<Request>, i: nat) {
    && i < |requests|
    && Failing(ResultOf(c, maxAttempts, b, requests, i))
    && b.failures + Failures(c, maxAttempts, b, requests, i + 1) == c.failureThreshold
  }

  /** A closed breaker refuses nothing until the failures recorded reach the threshold, and opens at the
      end of the request that records the last of them. */
  lemma {:induction false} FailuresOpenTheBreaker(
    c: Config, maxAttempts: int, b: Breaker, requests: seq<Request>, i: nat)
    requires c.failureThreshold >= 1 && Coherent(c, b) && b.state.Closed?
    requires NoSuccess(c, maxAttempts, b, requests) && Opens(c, maxAttempts, b, requests, i)
    ensures var tripped := BreakerAfter(c, maxAttempts, b, requests, i + 1);
            && tripped.state.Open? && tripped.lastFailure == requests[i].end && Coherent(c, tripped)
            && NoSuccess(c, maxAttempts, tripped, requests[i + 1..])
    ensures forall k :: 0 <= k <= i ==> !ResultOf(c, maxAttempts, b, requests, k).BreakerOpen?
    decreases i
  {
    var served := Serve(c, maxAttempts, b, requests[0]);
    RetryIsNeverGated(maxAttempts, requests[0].replies, requests[0].allowed, 1);
    OneMoreFailure(c, maxAttempts, b, requests, i);
    if i == 0 {
      assert BreakerAfter(c, maxAttempts, b, requests, 1) == served.breaker;
    } else {
      ResultSplits(c, maxAttempts, b, requests, 1, i);
      assert BreakerAfter(c, maxAttempts, b, requests, 1) == served.breaker;
      OneMoreFailure(c, maxAttempts, served.breaker, requests[1..], i - 1);
      FailuresOpenTheBreaker(c, maxAttempts, served.breaker, requests[1..], i - 1);
      assert requests[1..][i..] == requests[i + 1..];
      forall k | 0 <= k <= i ensures !ResultOf(c, maxAttempts, b, requests, k).BreakerOpen? {
        if k > 0 {
          ResultSplits(c, maxAttempts, b, requests, 1, k);
        }
      }
    }
  }

  /** The failing-provider bound: with non-overlapping requests none of which succeeds, the request that
      records the k-th failure, k > failure_threshold, starts at least
      (k - failure_threshold) * recovery_timeout after the breaker first opened. */
  lemma FailingProviderSpacing(c: Config, maxAttempts: int, clock: real, requests: seq<Request>, first: nat, i: nat)
    requires c.failureThreshold >= 1 && c.recoveryTimeout >= 0.0
    requires Sequential(clock, requests) && NoSuccess(c, maxAttempts, FRESH, requests)
    requires Opens(c, maxAttempts, FRESH, requests, first)
    requires first < i < |requests| && Failing(ResultOf(c, maxAttempts, FRESH, requests, i))
    ensures BreakerAfter(c, maxAttempts, FRESH, requests, first + 1).state.Open?
    ensures requests[i].start >= requests[first].end
              + Timeouts(c, Failures(c, maxAttempts, FRESH, requests, i + 1) - c.failureThreshold)
  {
    hide Timeouts;
    hide Serve;
    var n := first + 1;
    FailuresOpenTheBreaker(c, maxAttempts, FRESH, requests, first);
    var tripped := BreakerAfter(c, maxAttempts, FRESH, requests, n);
    SequentialSplits(clock, requests, n);
    ResultSplits(c, maxAttempts, FRESH, requests, n, i);
    ProbesAreSpaced(c, maxAttempts, tripped, requests[first].end, requests[n..], i - n);
    FailuresSplit(c, maxAttempts, FRESH, requests, n, i + 1);
  }

  lemma {:induction false} CallsPerFailure(c: Config, maxAttempts: int, b: Breaker, requests: seq<Request>)
    requires NoSuccess(c, maxAttempts, b, requests)
    ensures TotalCalls(c, maxAttempts, b, requests)
         <= AtLeastOne(maxAttempts) * Failures(c, maxAttempts, b, requests, |requests|)
            + CancelledCalls(c, maxAttempts, b, requests)
    decreases |requests|
  {
    if requests != [] {
      var served := Serve(c, maxAttempts, b, requests[0]);
      CallsPerRequest(c, maxAttempts, b, requests[0]);
      CallsPerFailure(c, maxAttempts, served.breaker, requests[1..]);
      var rest := Failures(c, maxAttempts, served.breaker, requests[1..], |requests| - 1);
      assert AtLeastOne(maxAttempts) * (1 + rest) == AtLeastOne(maxAttempts) + AtLeastOne(maxAttempts) * rest;
    }
  }

  /** Some request records the last failure. */
  lemma {:induction false} LastFailing(c: Config, maxAttempts: int, b: Breaker, requests: seq<Request>, n: nat)
    returns (i: nat)
    requires n <= |requests| && Failures(c, maxAttempts, b, requests, n) > 0
    ensures i < n && Failing(ResultOf(c, maxAttempts, b, requests, i))
    ensures Failures(c, maxAttempts, b, requests, i + 1) == Failures(c, maxAttempts, b, requests, n)
    decreases n
  {
    OneMoreFailure(c, maxAttempts, b, requests, n - 1);
    if Failing(ResultOf(c, maxAttempts, b, requests, n - 1)) {
      i := n - 1;
    } else {
      i := LastFailing(c, maxAttempts, b, requests, n - 1);
    }
  }

  /** Hence the upstream calls made until T after the first opening number at most
      max_attempts * (failure_threshold + floor(T / recovery_timeout)), not counting those of cancelled
      requests. */
  lemma FailingProviderLoad(c: Config, maxAttempts: int, clock: real, requests: seq<Request>, first: nat, span: real)
    requires c.failureThreshold >= 1 && c.recoveryTimeout > 0.0 && span >= 0.0
    requires Sequential(clock, requests) && NoSuccess(c, maxAttempts, FRESH, requests)
    requires Opens(c, maxAttempts, FRESH, requests, first)
    requires forall i :: 0 <= i < |requests| ==> requests[i].start <= requests[first].end + span
    ensures TotalCalls(c, maxAttempts, FRESH, requests)
         <= AtLeastOne(maxAttempts) * (c.failureThreshold + (span / c.recoveryTimeout).Floor)
            + CancelledCalls(c, maxAttempts, FRESH, requests)
  {
    hide Timeouts;
    hide Serve;
    var n := c.failureThreshold;
    var total := Failures(c, maxAttempts, FRESH, requests, |requests|);
    CallsPerFailure(c, maxAttempts, FRESH, requests);
    FailuresSplit(c, maxAttempts, FRESH, requests, first + 1, |requests|);
    if total > n {
      var i := LastFailing(c, maxAttempts, FRESH, requests, |requests|);
      if i < first {
        FailuresSplit(c, maxAttempts, FRESH, requests, i + 1, first + 1);
        assert false;
      }
      FailingProviderSpacing(c, maxAttempts, clock, requests, first, i);
      WholeTimeouts(c, total - n, span);
    } else {
      OneMoreTimeout(c, 0);
      WholeTimeouts(c, 0, span);
    }
    MultiplyUp(AtLeastOne(maxAttempts), total, n + (span / c.recoveryTimeout).Floor);
  }

  lemma WholeTimeouts(c: Config, k: nat, span: real)
    requires c.recoveryTimeout > 0.0 && Timeouts(c, k) <= span
    ensures k <= (span / c.recoveryTimeout).Floor
  {
    assert k as real <= span / c.recoveryTimeout;
  }

  lemma MultiplyUp(m: nat, a: int, b: int)
    requires a <= b
    ensures m * a <= m * b
  {
  }

  // ------------------------------------------------------------- cancelled requests

  function Always(reply: Reply): nat -> Reply {
    (i: nat) => reply
  }

  /** A request without retry, at one instant. */
  function Instant(now: real, reply: Reply): Request {
    Request(now, now, false, {}, Always(reply))
  }

  function Copies(r: Request, n: nat): (requests: seq<Request>)
    ensures |requests| == n
  {
    if n == 0 then [] else [r] + Copies(r, n - 1)
  }

  lemma {:induction false} CancelledProbes(c: Config, maxAttempts: int, b: Breaker, now: real, n: nat)
    requires Tripped(c, b, now) && (b.state.Open? ==> now - b.lastFailure >= c.recoveryTimeout)
    ensures var requests := Copies(Instant(now, Cancelled), n);
            && Sequential(now, requests)
            && NoSuccess(c, maxAttempts, b, requests)
            && CancelledCalls(c, maxAttempts, b, requests) == n
            && TotalCalls(c, maxAttempts, b, requests) == n
    decreases n
  {
    if n > 0 {
      var r := Instant(now, Cancelled);
      assert Copies(r, n)[1..] == Copies(r, n - 1);
      CancelledProbes(c, maxAttempts, Serve(c, maxAttempts, b, r).breaker, now, n - 1);
    }
  }

  function FailThenCancel(c: Config, failing: nat, cancelled: nat): seq<Request> {
    Copies(Instant(0.0, TransportError), failing) + Copies(Instant(c.recoveryTimeout, Cancelled), cancelled)
  }

  lemma {:induction false} FailingThenCancelled(c: Config, maxAttempts: int, b: Breaker, n: nat, left: nat)
    requires c.failureThreshold >= 1 && c.recoveryTimeout >= 0.0
    requires Coherent(c, b) && b.state.Closed? && left == c.failureThreshold - b.failures
    ensures var requests := FailThenCancel(c, left, n);
            && Sequential(0.0, requests)
            && NoSuccess(c, maxAttempts, b, requests)
            && TotalCalls(c, maxAttempts, b, requests) == left + n
            && CancelledCalls(c, maxAttempts, b, requests) == n
    decreases left
  {
    var failing, cancelled := Instant(0.0, TransportError), Copies(Instant(c.recoveryTimeout, Cancelled), n);
    var requests := FailThenCancel(c, left, n);
    assert requests[1..] == FailThenCancel(c, left - 1, n);
    var served := Serve(c, maxAttempts, b, failing);
    if left == 1 {
      assert requests[1..] == cancelled;
      CancelledProbes(c, maxAttempts, served.breaker, c.recoveryTimeout, n);
      SequentialFromEarlier(0.0, c.recoveryTimeout, cancelled);
    } else {
      FailingThenCancelled(c, maxAttempts, served.breaker, n, left - 1);
    }
  }

  /** The cancelled requests cannot be left out of the bound: from a fresh breaker, after the failures that
      open it and one recovery timeout, any number of requests is admitted at one instant if each is
      cancelled. */
  lemma CancelledRequestsAreNotCounted(c: Config, maxAttempts: int, n: nat)
    requires c.failureThreshold >= 1 && c.recoveryTimeout >= 0.0
    ensures var requests := FailThenCancel(c, c.failureThreshold, n);
            && Sequential(0.0, requests)
            && NoSuccess(c, maxAttempts, FRESH, requests)
            && TotalCalls(c, maxAttempts, FRESH, requests) == c.failureThreshold + n
            && CancelledCalls(c, maxAttempts, FRESH, requests) == n
  {
    FailingThenCancelled(c, maxAttempts, FRESH, n, c.failureThreshold);
  }

  lemma SequentialFromEarlier(earlier: real, clock: real, requests: seq<Request>)
    requires Sequential(clock, requests) && earlier <= clock
    ensures Sequential(earlier, requests)
  {
  }
}
