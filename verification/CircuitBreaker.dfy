/** The per-provider circuit breaker: a state machine over recorded outcomes, whose
    OPEN -> HALF_OPEN step happens when the state is read after the recovery timeout.
 */
module CircuitBreakers {

  datatype State = Closed | Open | HalfOpen

  datatype Config = Config(failureThreshold: int, recoveryTimeout: real, successThreshold: int)

  const DEFAULTS := Config(5, 30.0, 2)

  datatype Breaker = Breaker(state: State, failures: int, successes: int, lastFailure: real)

  const FRESH := Breaker(Closed, 0, 0, 0.0)

  /** Reading the state. */
  function Observe(c: Config, b: Breaker, now: real): Breaker {
    if b.state.Open? && now - b.lastFailure >= c.recoveryTimeout
    then b.(state := HalfOpen, successes := 0)
    else b
  }

  function Succeed(c: Config, b: Breaker): Breaker {
    if !b.state.HalfOpen? then b.(failures := 0)
    else if b.successes + 1 >= c.successThreshold then b.(state := Closed, failures := 0, successes := 0)
    else b.(successes := b.successes + 1)
  }

  function Fail(c: Config, b: Breaker, now: real): Breaker {
    Breaker(if b.failures + 1 >= c.failureThreshold then Open else b.state, b.failures + 1, b.successes, now)
  }

  function Reset(b: Breaker): Breaker {
    b.(state := Closed, failures := 0, successes := 0)
  }

  // ----------------------------------------------------------- the mutable breaker

  class CircuitBreaker {
    const config: Config
    var state: State
    var failures: int
    var successesHalfOpen: int
    var lastFailureTime: real

    ghost function Value(): Breaker
      reads this
    {
      Breaker(state, failures, successesHalfOpen, lastFailureTime)
    }

    constructor (config: Config)
      ensures this.config == config && Value() == FRESH
    {
      this.config := config;
      state, failures, successesHalfOpen, lastFailureTime := Closed, 0, 0, 0.0;
    }

    method ReadState(now: real) returns (s: State)
      modifies this
      ensures Value() == Observe(config, old(Value()), now) && s == Value().state
    {
      if state.Open? && now - lastFailureTime >= config.recoveryTimeout {
        state := HalfOpen;
        successesHalfOpen := 0;
      }
      s := state;
    }

    /** False stands for raising CircuitBreakerOpen. */
    method AllowRequest(now: real) returns (allowed: bool)
      modifies this
      ensures Value() == Observe(config, old(Value()), now)
      ensures allowed <==> !Value().state.Open?
    {
      var s := ReadState(now);
      allowed := !s.Open?;
    }

    method RecordSuccess()
      modifies this
      ensures Value() == Succeed(config, old(Value()))
    {
      if state.HalfOpen? {
        successesHalfOpen := successesHalfOpen + 1;
        if successesHalfOpen >= config.successThreshold {
          state := Closed;
          failures := 0;
          successesHalfOpen := 0;
        }
      } else {
        failures := 0;
      }
    }

    method RecordFailure(now: real)
      modifies this
      ensures Value() == Fail(config, old(Value()), now)
    {
      failures := failures + 1;
      lastFailureTime := now;
      if failures >= config.failureThreshold {
        state := Open;
      }
    }

    method ManualReset()
      modifies this
      ensures Value() == Reset(old(Value()))
    {
      state := Closed;
      failures := 0;
      successesHalfOpen := 0;
    }
  }

  // ------------------------------------- runs in which requests may overlap freely

  /** One locked operation on the breaker.  Overlapping requests interleave these freely. */
  datatype Event = Observed(now: real) | Succeeded | Failed(now: real) | WasReset

  function Apply(c: Config, b: Breaker, e: Event): Breaker {
    match e
    case Observed(now) => Observe(c, b, now)
    case Succeeded => Succeed(c, b)
    case Failed(now) => Fail(c, b, now)
    case WasReset => Reset(b)
  }

  function Run(c: Config, b: Breaker, events: seq<Event>): Breaker
    decreases |events|
  {
    if events == [] then b else Run(c, Apply(c, b, events[0]), events[1..])
  }

  ghost predicate ClosedBelowThreshold(c: Config, b: Breaker) {
    0 <= b.failures && (b.state.Closed? ==> b.failures < c.failureThreshold)
  }

  /** In every run, overlapping or not, CLOSED implies fewer failures than the threshold. */
  lemma {:induction false} AnyRunKeepsClosedBelowThreshold(c: Config, b: Breaker, events: seq<Event>)
    requires c.failureThreshold >= 1 && ClosedBelowThreshold(c, b)
    ensures ClosedBelowThreshold(c, Run(c, b, events))
    decreases |events|
  {
    if events != [] {
      AnyRunKeepsClosedBelowThreshold(c, Apply(c, b, events[0]), events[1..]);
    }
  }

  /** Failures recorded since the breaker last forgot them: since its creation, a manual reset,
      a success that closed it, or a success recorded in any state but HALF_OPEN. */
  function RememberedFailures(c: Config, b: Breaker, events: seq<Event>): nat
    decreases |events|
  {
    if events == [] then 0
    else
      var before := Run(c, b, events[..|events| - 1]);
      var last := events[|events| - 1];
      if last.Failed? then RememberedFailures(c, b, events[..|events| - 1]) + 1
      else if last.WasReset? then 0
      else if last.Succeeded? && (!before.state.HalfOpen? || Succeed(c, before).state.Closed?) then 0
      else RememberedFailures(c, b, events[..|events| - 1])
  }

  lemma {:induction false} RunSplits(c: Config, b: Breaker, first: seq<Event>, second: seq<Event>)
    ensures Run(c, b, first + second) == Run(c, Run(c, b, first), second)
    decreases |first|
  {
    if first == [] {
      assert first + second == second;
    } else {
      assert (first + second)[1..] == first[1..] + second;
      RunSplits(c, Apply(c, b, first[0]), first[1..], second);
    }
  }

  lemma {:induction false} FailuresAreRemembered(c: Config, events: seq<Event>)
    ensures Run(c, FRESH, events).failures == RememberedFailures(c, FRESH, events)
    decreases |events|
  {
    if events != [] {
      var init, last := events[..|events| - 1], events[|events| - 1];
      FailuresAreRemembered(c, init);
      assert events == init + [last];
      RunSplits(c, FRESH, init, [last]);
      assert Run(c, Run(c, FRESH, init), [last]) == Apply(c, Run(c, FRESH, init), last);
    }
  }

  /** When a failure reopens a half-open breaker, over all runs with overlapping requests:
      exactly when the remembered failures together with this one reach the threshold. */
  lemma {:induction false} HalfOpenFailureReopensIff(c: Config, events: seq<Event>, now: real)
    requires Run(c, FRESH, events).state.HalfOpen?
    ensures Run(c, FRESH, events + [Failed(now)]).state
         == if RememberedFailures(c, FRESH, events) + 1 >= c.failureThreshold then Open else HalfOpen
  {
    FailuresAreRemembered(c, events);
    RunSplits(c, FRESH, events, [Failed(now)]);
    assert Run(c, Run(c, FRESH, events), [Failed(now)]) == Fail(c, Run(c, FRESH, events), now);
  }

  function Repeat(e: Event, n: nat): seq<Event> {
    if n == 0 then [] else [e] + Repeat(e, n - 1)
  }

  /** A late success is recorded while the breaker is OPEN, so the failed probe that follows
      the recovery timeout does not reopen it. */
  lemma LateSuccessDisarmsReopening()
    ensures var before := Run(DEFAULTS, FRESH, Repeat(Failed(0.0), 5));
            var probing := Run(DEFAULTS, before, [Succeeded, Observed(30.0)]);
            && before.state.Open? && probing.state.HalfOpen?
            && Run(DEFAULTS, probing, [Failed(31.0)]).state.HalfOpen?
  {
    var b1 := Fail(DEFAULTS, FRESH, 0.0);
    var b2 := Fail(DEFAULTS, b1, 0.0);
    var b3 := Fail(DEFAULTS, b2, 0.0);
    var b4 := Fail(DEFAULTS, b3, 0.0);
    var b5 := Fail(DEFAULTS, b4, 0.0);
    assert Run(DEFAULTS, b4, Repeat(Failed(0.0), 1)) == b5;
    assert Run(DEFAULTS, b3, Repeat(Failed(0.0), 2)) == b5;
    assert Run(DEFAULTS, b2, Repeat(Failed(0.0), 3)) == b5;
    assert Run(DEFAULTS, b1, Repeat(Failed(0.0), 4)) == b5;
    assert Run(DEFAULTS, FRESH, Repeat(Failed(0.0), 5)) == b5;
    assert [Succeeded, Observed(30.0)][1..] == [Observed(30.0)];
    assert Run(DEFAULTS, Succeed(DEFAULTS, b5), [Observed(30.0)]) == Observe(DEFAULTS, Succeed(DEFAULTS, b5), 30.0);
  }

  /** The time of the last failure recorded, 0 before the first. */
  function LastFailedAt(events: seq<Event>): real
    decreases |events|
  {
    if events == [] then 0.0
    else if events[|events| - 1].Failed? then events[|events| - 1].now
    else LastFailedAt(events[..|events| - 1])
  }

  /** Successes recorded in HALF_OPEN since the breaker last became so from OPEN, was closed or reset. */
  function ProbeSuccesses(c: Config, events: seq<Event>): nat
    decreases |events|
  {
    if events == [] then 0
    else
      var init, last := events[..|events| - 1], events[|events| - 1];
      var before, after := Run(c, FRESH, init).state, Run(c, FRESH, events).state;
      if last.WasReset? || (before.Open? && after.HalfOpen?) then 0
      else if last.Succeeded? && before.HalfOpen? && after.Closed? then 0
      else if last.Succeeded? && before.HalfOpen? then ProbeSuccesses(c, init) + 1
      else ProbeSuccesses(c, init)
  }

  lemma RunLast(c: Config, events: seq<Event>)
    requires events != []
    ensures Run(c, FRESH, events) == Apply(c, Run(c, FRESH, events[..|events| - 1]), events[|events| - 1])
  {
    var init, last := events[..|events| - 1], events[|events| - 1];
    assert events == init + [last];
    RunSplits(c, FRESH, init, [last]);
    assert Run(c, Run(c, FRESH, init), [last]) == Run(c, Apply(c, Run(c, FRESH, init), last), []);
  }

  lemma {:induction false} CountersAreHistory(c: Config, events: seq<Event>)
    ensures Run(c, FRESH, events).lastFailure == LastFailedAt(events)
    ensures Run(c, FRESH, events).successes == ProbeSuccesses(c, events)
    decreases |events|
  {
    if events != [] {
      RunLast(c, events);
      CountersAreHistory(c, events[..|events| - 1]);
    }
  }

  /** What each operation does in every run, overlapping or not, by its history: an open breaker becomes half-open
      when it is looked at, exactly from the recovery timeout after the last recorded failure, and stays as it
      is otherwise; a success in half-open closes it exactly when it is the last one required, and none
      changes the state elsewhere; a failure opens it when the remembered ones reach the threshold. */
  lemma EveryTransition(c: Config, events: seq<Event>, now: real)
    ensures var s := Run(c, FRESH, events).state;
            && Run(c, FRESH, events + [Observed(now)]).state
               == (if s.Open? && now >= LastFailedAt(events) + c.recoveryTimeout then HalfOpen else s)
            && Run(c, FRESH, events + [Succeeded]).state
               == (if s.HalfOpen? && ProbeSuccesses(c, events) + 1 >= c.successThreshold then Closed else s)
            && Run(c, FRESH, events + [Failed(now)]).state
               == (if RememberedFailures(c, FRESH, events) + 1 >= c.failureThreshold then Open else s)
            && Run(c, FRESH, events + [WasReset]).state == Closed
  {
    CountersAreHistory(c, events);
    FailuresAreRemembered(c, events);
    AfterOne(c, events, Observed(now));
    AfterOne(c, events, Succeeded);
    AfterOne(c, events, Failed(now));
    AfterOne(c, events, WasReset);
  }

  lemma AfterOne(c: Config, events: seq<Event>, e: Event)
    ensures Run(c, FRESH, events + [e]) == Apply(c, Run(c, FRESH, events), e)
  {
    assert (events + [e])[..|events|] == events;
    RunLast(c, events + [e]);
  }
}
