/** Retry and dead-letter passes: draining the failed events, and what stops it. */
module WebhookDraining {
  import opened WebhookEngine
  import opened WebhookLog

  /** A sum over the event table. */
  ghost function Total(events: seq<Event>, weight: Event -> nat): nat
    decreases |events|
  {
    if events == [] then 0
    else Total(events[..|events| - 1], weight) + weight(events[|events| - 1])
  }

  lemma {:induction false} TotalUpdate(events: seq<Event>, weight: Event -> nat, k: nat, e: Event)
    requires k < |events|
    ensures Total(events[k := e], weight) + weight(events[k]) == Total(events, weight) + weight(e)
    decreases |events|
  {
    var n := |events| - 1;
    var events' := events[k := e];
    if k == n {
      assert events'[..n] == events[..n];
    } else {
      assert events'[..n] == events[..n][k := e];
      TotalUpdate(events[..n], weight, k, e);
    }
  }

  lemma {:induction false} TotalBoundsEach(events: seq<Event>, weight: Event -> nat, k: nat)
    requires k < |events|
    ensures weight(events[k]) <= Total(events, weight)
    decreases |events|
  {
    if k < |events| - 1 {
      TotalBoundsEach(events[..|events| - 1], weight, k);
    }
  }

  /** Attempts left in the budget of a retryable event. */
  function AttemptsLeft(retryMax: int, e: Event): nat {
    if Retryable(retryMax, e) then retryMax - e.attempts else 0
  }

  function ExhaustedCount(retryMax: int, e: Event): nat {
    if Exhausted(retryMax, e) then 1 else 0
  }

  ghost function Budget(retryMax: int, s: Store): nat {
    Total(s.events, e => AttemptsLeft(retryMax, e))
  }

  ghost function Overflow(retryMax: int, s: Store): nat {
    Total(s.events, e => ExhaustedCount(retryMax, e))
  }

  ghost predicate Healthy(plan: seq<Dispatch>) {
    forall i :: 0 <= i < |plan| ==> Accepted(plan[i].tries)
  }

  ghost predicate Distinct(plan: seq<Dispatch>) {
    forall i, j :: 0 <= i < j < |plan| ==> plan[i].event != plan[j].event
  }

  lemma DispatchSpendsBudget(retryMax: int, s: Store, d: Dispatch)
    requires d.event < |s.events| && Retryable(retryMax, s.events[d.event]) && Accepted(d.tries)
    ensures !DispatchEvent(s, d).raised
    ensures Budget(retryMax, DispatchEvent(s, d).store) < Budget(retryMax, s)
  {
    var after := DispatchEvent(s, d).store;
    if d.tries != [] {
      DispatchPostsAcceptedPrefix(s, d.event, d.tries);
    }
    DispatchFrame(s, d);
    var weight := e => AttemptsLeft(retryMax, e);
    assert after.events == s.events[d.event := after.events[d.event]];
    TotalUpdate(s.events, weight, d.event, after.events[d.event]);
  }

  /** Attempts count posts over all subscriptions: after its first accepted dispatch an event is retryable
      if and only if the last subscription failed and there are fewer subscriptions than the budget.  So
      an event with retry_max or more subscriptions is never retried. */
  lemma FirstDispatchRetryableIff(retryMax: int, s: Store, d: Dispatch)
    requires d.event < |s.events| && s.events[d.event].attempts == 0 && d.tries != [] && Accepted(d.tries)
    ensures Retryable(retryMax, DispatchEvent(s, d).store.events[d.event])
       <==> !Succeeds(d.tries[|d.tries| - 1].reply) && |d.tries| < retryMax
  {
    DispatchPostsAcceptedPrefix(s, d.event, d.tries);
    LastTryDecides(s, d.event, d.tries);
  }

  /** A retry pass with valid targets completes, and spends at least one unit of budget for each
      event it picked; no other event changes. */
  lemma {:induction false} RetryPassSpendsBudget(retryMax: int, s: Store, plan: seq<Dispatch>)
    requires InRange(s, plan) && Distinct(plan) && Healthy(plan)
    requires forall i :: 0 <= i < |plan| ==> Retryable(retryMax, s.events[plan[i].event])
    ensures var o := RetryFailed(s, plan);
            && !o.raised
            && Budget(retryMax, o.store) + |plan| <= Budget(retryMax, s)
            && o.store.subscriptions == s.subscriptions
            && s.deliveries <= o.store.deliveries
            && (forall k :: 0 <= k < |s.events| && (forall i :: 0 <= i < |plan| ==> plan[i].event != k) ==>
                  o.store.events[k] == s.events[k])
    decreases |plan|
  {
    if plan != [] {
      var first := DispatchEvent(s, plan[0]).store;
      DispatchSpendsBudget(retryMax, s, plan[0]);
      DispatchFrame(s, plan[0]);
      var rest := plan[1..];
      assert forall i :: 0 <= i < |rest| ==> rest[i] == plan[i + 1];
      RetryPassSpendsBudget(retryMax, first, rest);
    }
  }

  // ------------------------------------------- passes with any targets, raising or not

  /** The first dispatch of the batch has no subscription to try, or an accepted first target. */
  predicate StartsWell(plan: seq<Dispatch>) {
    plan != [] && (plan[0].tries == [] || !plan[0].tries[0].reply.TargetRejected?)
  }

  /** A dispatch of a retryable event never raises the summed budget, and lowers it exactly when its first
      target is accepted or it has none. */
  lemma DispatchLowersBudgetIff(retryMax: int, s: Store, d: Dispatch)
    requires d.event < |s.events| && Retryable(retryMax, s.events[d.event])
    ensures Budget(retryMax, DispatchEvent(s, d).store) <= Budget(retryMax, s)
    ensures Budget(retryMax, DispatchEvent(s, d).store) < Budget(retryMax, s) <==> StartsWell([d])
  {
    var after := DispatchEvent(s, d).store;
    DispatchFrame(s, d);
    if d.tries != [] && StartsWell([d]) {
      DeliverAllFrame(Deliver(s, d.event, d.tries[0]).store, d.event, d.tries[1..]);
    }
    var weight := e => AttemptsLeft(retryMax, e);
    assert after.events == s.events[d.event := after.events[d.event]];
    TotalUpdate(s.events, weight, d.event, after.events[d.event]);
  }

  /** A retry pass, whether it completes or raises anywhere, never raises the summed budget, and lowers it
      if and only if the first dispatch of its batch has no subscription to try or an accepted first target.
      It moves nothing but the events it picked. */
  lemma {:induction false} PassLowersBudgetIff(retryMax: int, s: Store, plan: seq<Dispatch>)
    requires InRange(s, plan) && Distinct(plan)
    requires forall i :: 0 <= i < |plan| ==> Retryable(retryMax, s.events[plan[i].event])
    ensures var after := RetryFailed(s, plan).store;
            && Budget(retryMax, after) <= Budget(retryMax, s)
            && (Budget(retryMax, after) < Budget(retryMax, s) <==> StartsWell(plan))
            && after.subscriptions == s.subscriptions
            && s.deliveries <= after.deliveries
            && (forall k :: 0 <= k < |s.events| && (forall i :: 0 <= i < |plan| ==> plan[i].event != k) ==>
                  after.events[k] == s.events[k])
    decreases |plan|
  {
    if plan != [] {
      var first := DispatchEvent(s, plan[0]);
      DispatchLowersBudgetIff(retryMax, s, plan[0]);
      DispatchFrame(s, plan[0]);
      if !first.raised {
        var rest := plan[1..];
        assert forall i :: 0 <= i < |rest| ==> rest[i] == plan[i + 1];
        PassLowersBudgetIff(retryMax, first.store, rest);
      }
    }
  }

  /** One scheduled retry task. */
  datatype Pass = Pass(limit: nat, plan: seq<Dispatch>)

  /** Targets may be rejected anywhere; no dispatch or new event comes in between. */
  ghost predicate LegalPasses(retryMax: int, s: Store, passes: seq<Pass>)
    decreases |passes|
  {
    passes != [] ==>
      && passes[0].limit >= 1
      && LegalRetry(retryMax, s, passes[0].limit, passes[0].plan)
      && LegalPasses(retryMax, RetryFailed(s, passes[0].plan).store, passes[1..])
  }

  ghost function AfterPasses(retryMax: int, s: Store, passes: seq<Pass>): Store
    requires LegalPasses(retryMax, s, passes)
    decreases |passes|
  {
    if passes == [] then s else AfterPasses(retryMax, RetryFailed(s, passes[0].plan).store, passes[1..])
  }

  /** Passes that start well, or find nothing to retry. */
  function GoodPasses(passes: seq<Pass>): nat
    decreases |passes|
  {
    if passes == [] then 0
    else (if passes[0].plan == [] || StartsWell(passes[0].plan) then 1 else 0) + GoodPasses(passes[1..])
  }

  /** Nothing is lost or invented between two stores: the same events in number, growing attempts,
      an extended log, and events that were not failed left exactly as they were. */
  ghost predicate OnlyFailedEventsMoved(s: Store, after: Store) {
    && |after.events| == |s.events|
    && after.subscriptions == s.subscriptions
    && s.deliveries <= after.deliveries
    && (forall k :: 0 <= k < |s.events| && !s.events[k].status.Failed? ==> after.events[k] == s.events[k])
  }

  lemma PlannedAreRetryable(retryMax: int, s: Store, limit: nat, plan: seq<Dispatch>)
    requires LegalRetry(retryMax, s, limit, plan)
    ensures InRange(s, plan) && Distinct(plan)
    ensures forall i :: 0 <= i < |plan| ==> Retryable(retryMax, s.events[plan[i].event])
    ensures limit >= 1 && plan == [] ==> forall k :: 0 <= k < |s.events| ==> !Retryable(retryMax, s.events[k])
  {
    var picks := EventsOf(plan);
    forall i | 0 <= i < |plan| ensures picks[i] == plan[i].event && Retryable(retryMax, s.events[plan[i].event]) {
      assert picks[i] in Eligible(s, e => Retryable(retryMax, e));
    }
    forall i, j | 0 <= i < j < |plan| ensures plan[i].event != plan[j].event {
      assert picks[i] != picks[j];
    }
    if limit >= 1 && plan == [] {
      assert Eligible(s, e => Retryable(retryMax, e)) == {};
      forall k | 0 <= k < |s.events| ensures !Retryable(retryMax, s.events[k]) {
        assert k !in Eligible(s, e => Retryable(retryMax, e));
      }
    }
  }

  lemma OnlyRetryableMove(s: Store, mid: Store, after: Store)
    requires OnlyFailedEventsMoved(s, mid) && OnlyFailedEventsMoved(mid, after)
    ensures OnlyFailedEventsMoved(s, after)
  {
    assert forall k :: 0 <= k < |s.events| && !s.events[k].status.Failed? ==> mid.events[k] == s.events[k];
  }

  /** With limit >= 1 and no other activity, Budget-many retry passes that start well, among any others,
      leave no retryable event, whichever rows each pass picks and wherever it raises. */
  lemma {:induction false} RetryPassesDrain(retryMax: int, s: Store, passes: seq<Pass>)
    requires LegalPasses(retryMax, s, passes)
    ensures var after := AfterPasses(retryMax, s, passes);
            && OnlyFailedEventsMoved(s, after)
            && (GoodPasses(passes) >= Budget(retryMax, s) ==>
                  forall k :: 0 <= k < |after.events| ==> !Retryable(retryMax, after.events[k]))
    decreases |passes|
  {
    if passes == [] {
      if Budget(retryMax, s) == 0 {
        forall k | 0 <= k < |s.events| ensures !Retryable(retryMax, s.events[k]) {
          TotalBoundsEach(s.events, e => AttemptsLeft(retryMax, e), k);
        }
      }
    } else {
      var pass := passes[0];
      var next := RetryFailed(s, pass.plan).store;
      PlannedAreRetryable(retryMax, s, pass.limit, pass.plan);
      PassLowersBudgetIff(retryMax, s, pass.plan);
      RetryPassesDrain(retryMax, next, passes[1..]);
      if pass.plan == [] {
        NothingRetryable(retryMax, s, passes);
      }
      OnlyRetryableMove(s, next, AfterPasses(retryMax, s, passes));
    }
  }

  /** What stops the drain, exactly: a sequence of retry passes leaves the summed budget where it was if and
      only if the first target of every batch that is not empty is rejected. */
  lemma {:induction false} PassesStallIff(retryMax: int, s: Store, passes: seq<Pass>)
    requires LegalPasses(retryMax, s, passes)
    ensures Budget(retryMax, AfterPasses(retryMax, s, passes)) <= Budget(retryMax, s)
    ensures Budget(retryMax, AfterPasses(retryMax, s, passes)) == Budget(retryMax, s) <==>
              forall i :: 0 <= i < |passes| ==> !StartsWell(passes[i].plan)
    decreases |passes|
  {
    if passes != [] {
      PlannedAreRetryable(retryMax, s, passes[0].limit, passes[0].plan);
      PassLowersBudgetIff(retryMax, s, passes[0].plan);
      PassesStallIff(retryMax, RetryFailed(s, passes[0].plan).store, passes[1..]);
      assert forall i :: 1 <= i < |passes| ==> passes[i] == passes[1..][i - 1];
      assert forall i :: 0 <= i < |passes[1..]| ==> passes[1..][i] == passes[i + 1];
    }
  }

  lemma {:induction false} NothingRetryable(retryMax: int, s: Store, passes: seq<Pass>)
    requires LegalPasses(retryMax, s, passes)
    requires forall k :: 0 <= k < |s.events| ==> !Retryable(retryMax, s.events[k])
    ensures AfterPasses(retryMax, s, passes) == s
    decreases |passes|
  {
    if passes != [] {
      PlannedAreRetryable(retryMax, s, passes[0].limit, passes[0].plan);
      if passes[0].plan != [] {
        assert false;
      }
      NothingRetryable(retryMax, s, passes[1..]);
    }
  }

  /** One scheduled dead-letter task. */
  datatype Sweep = Sweep(limit: nat, picks: seq<nat>)

  ghost predicate LegalSweeps(retryMax: int, s: Store, sweeps: seq<Sweep>)
    decreases |sweeps|
  {
    sweeps != [] ==>
      && sweeps[0].limit >= 1
      && LegalDeadLetter(retryMax, s, sweeps[0].limit, sweeps[0].picks)
      && LegalSweeps(retryMax, s.(events := DeadLetter(s.events, sweeps[0].picks)), sweeps[1..])
  }

  ghost function AfterSweeps(retryMax: int, s: Store, sweeps: seq<Sweep>): Store
    requires LegalSweeps(retryMax, s, sweeps)
    decreases |sweeps|
  {
    if sweeps == [] then s
    else AfterSweeps(retryMax, s.(events := DeadLetter(s.events, sweeps[0].picks)), sweeps[1..])
  }

  lemma {:induction false} SweepReducesOverflow(retryMax: int, events: seq<Event>, picks: seq<nat>)
    requires forall i :: 0 <= i < |picks| ==> picks[i] < |events| && Exhausted(retryMax, events[picks[i]])
    requires forall i, j :: 0 <= i < j < |picks| ==> picks[i] != picks[j]
    ensures Total(DeadLetter(events, picks), e => ExhaustedCount(retryMax, e)) + |picks|
         == Total(events, e => ExhaustedCount(retryMax, e))
    decreases |picks|
  {
    if picks != [] {
      var e := events[picks[0]].(status := DeadLettered);
      TotalUpdate(events, e => ExhaustedCount(retryMax, e), picks[0], e);
      assert forall i :: 0 <= i < |picks[1..]| ==> picks[1..][i] == picks[i + 1];
      SweepReducesOverflow(retryMax, events[picks[0] := e], picks[1..]);
    }
  }

  /** Overflow-many dead-letter passes leave no exhausted event failed; retryable events and all
      others stay as they are. */
  lemma {:induction false} SweepsDrain(retryMax: int, s: Store, sweeps: seq<Sweep>)
    requires LegalSweeps(retryMax, s, sweeps)
    ensures var after := AfterSweeps(retryMax, s, sweeps);
            && OnlyFailedEventsMoved(s, after) && after.deliveries == s.deliveries
            && (forall k :: 0 <= k < |s.events| ==>
                  after.events[k] == s.events[k]
                  || (Exhausted(retryMax, s.events[k]) && after.events[k] == s.events[k].(status := DeadLettered)))
            && (|sweeps| >= Overflow(retryMax, s) ==>
                  forall k :: 0 <= k < |after.events| ==> !Exhausted(retryMax, after.events[k]))
    decreases |sweeps|
  {
    if sweeps == [] {
      if Overflow(retryMax, s) == 0 {
        forall k | 0 <= k < |s.events| ensures !Exhausted(retryMax, s.events[k]) {
          TotalBoundsEach(s.events, e => ExhaustedCount(retryMax, e), k);
        }
      }
    } else {
      var picks := sweeps[0].picks;
      var next := s.(events := DeadLetter(s.events, picks));
      assert forall i :: 0 <= i < |picks| ==> picks[i] in Eligible(s, e => Exhausted(retryMax, e));
      SweepReducesOverflow(retryMax, s.events, picks);
      SweepsDrain(retryMax, next, sweeps[1..]);
      forall k | 0 <= k < |s.events|
        ensures next.events[k] == s.events[k]
             || (Exhausted(retryMax, s.events[k]) && next.events[k] == s.events[k].(status := DeadLettered))
      {
        DeadLetterAt(s.events, picks, k);
      }
      if picks == [] {
        assert Eligible(s, e => Exhausted(retryMax, e)) == {};
        forall k | 0 <= k < |s.events| ensures !Exhausted(retryMax, s.events[k]) {
          assert k !in Eligible(s, e => Exhausted(retryMax, e));
        }
      }
    }
  }

  /** Drain: with no new events and no manual dispatches, retry passes of which Budget-many start well,
      followed by Overflow-many dead-letter passes, leave no event "failed", whichever rows each pass
      picks and wherever it raises; no event is lost or created and the log is only extended. */
  lemma Drain(retryMax: int, s: Store, passes: seq<Pass>, sweeps: seq<Sweep>)
    requires LegalPasses(retryMax, s, passes) && GoodPasses(passes) >= Budget(retryMax, s)
    requires var mid := AfterPasses(retryMax, s, passes);
             LegalSweeps(retryMax, mid, sweeps) && |sweeps| >= Overflow(retryMax, mid)
    ensures var after := AfterSweeps(retryMax, AfterPasses(retryMax, s, passes), sweeps);
            && OnlyFailedEventsMoved(s, after)
            && (forall k :: 0 <= k < |after.events| ==> !after.events[k].status.Failed?)
  {
    var mid := AfterPasses(retryMax, s, passes);
    RetryPassesDrain(retryMax, s, passes);
    SweepsDrain(retryMax, mid, sweeps);
    OnlyRetryableMove(s, mid, AfterSweeps(retryMax, mid, sweeps));
    var after := AfterSweeps(retryMax, mid, sweeps);
    forall k | 0 <= k < |after.events| ensures !after.events[k].status.Failed? {
      assert !Retryable(retryMax, mid.events[k]);
      assert !Exhausted(retryMax, after.events[k]);
    }
  }

  // ---------------------------------------------- retry and dead-letter tasks interleaved

  /** Work left on a failed event: its attempts, and its dead-lettering. */
  function WorkLeft(retryMax: int, e: Event): nat {
    if e.status.Failed? then AttemptsLeft(retryMax, e) + 1 else 0
  }

  ghost function Work(retryMax: int, s: Store): nat {
    Total(s.events, e => WorkLeft(retryMax, e))
  }

  datatype Task = Retrying(pass: Pass) | Sweeping(sweep: Sweep)

  ghost predicate LegalTask(retryMax: int, s: Store, t: Task) {
    match t
    case Retrying(pass) => pass.limit >= 1 && LegalRetry(retryMax, s, pass.limit, pass.plan)
    case Sweeping(sweep) => sweep.limit >= 1 && LegalDeadLetter(retryMax, s, sweep.limit, sweep.picks)
  }

  ghost function AfterTask(retryMax: int, s: Store, t: Task): Store
    requires LegalTask(retryMax, s, t)
  {
    match t
    case Retrying(pass) =>
      PlannedAreRetryable(retryMax, s, pass.limit, pass.plan);
      RetryFailed(s, pass.plan).store
    case Sweeping(sweep) =>
      PicksAreExhausted(retryMax, s, sweep.limit, sweep.picks);
      s.(events := DeadLetter(s.events, sweep.picks))
  }

  ghost predicate LegalTasks(retryMax: int, s: Store, tasks: seq<Task>)
    decreases |tasks|
  {
    tasks != [] ==> LegalTask(retryMax, s, tasks[0])
                    && LegalTasks(retryMax, AfterTask(retryMax, s, tasks[0]), tasks[1..])
  }

  ghost function AfterTasks(retryMax: int, s: Store, tasks: seq<Task>): Store
    requires LegalTasks(retryMax, s, tasks)
    decreases |tasks|
  {
    if tasks == [] then s else AfterTasks(retryMax, AfterTask(retryMax, s, tasks[0]), tasks[1..])
  }

  lemma PicksAreExhausted(retryMax: int, s: Store, limit: nat, picks: seq<nat>)
    requires LegalDeadLetter(retryMax, s, limit, picks)
    ensures forall i :: 0 <= i < |picks| ==> picks[i] < |s.events| && Exhausted(retryMax, s.events[picks[i]])
    ensures limit >= 1 && picks == [] ==> forall k :: 0 <= k < |s.events| ==> !Exhausted(retryMax, s.events[k])
  {
    var eligible := Eligible(s, e => Exhausted(retryMax, e));
    assert forall i :: 0 <= i < |picks| ==> picks[i] in eligible;
    if limit >= 1 && picks == [] {
      assert eligible == {};
      forall k | 0 <= k < |s.events| ensures !Exhausted(retryMax, s.events[k]) {
        assert k !in eligible;
      }
    }
  }

  lemma DispatchLowersWork(retryMax: int, s: Store, d: Dispatch)
    requires d.event < |s.events| && Retryable(retryMax, s.events[d.event])
    ensures Work(retryMax, DispatchEvent(s, d).store) <= Work(retryMax, s)
    ensures StartsWell([d]) ==> Work(retryMax, DispatchEvent(s, d).store) < Work(retryMax, s)
    ensures !StartsWell([d]) ==> DispatchEvent(s, d) == Outcome(s, true)
  {
    var after := DispatchEvent(s, d).store;
    DispatchFrame(s, d);
    if d.tries != [] && StartsWell([d]) {
      DeliverAllFrame(Deliver(s, d.event, d.tries[0]).store, d.event, d.tries[1..]);
    }
    assert after.events == s.events[d.event := after.events[d.event]];
    TotalUpdate(s.events, e => WorkLeft(retryMax, e), d.event, after.events[d.event]);
  }

  lemma {:induction false} PassLowersWork(retryMax: int, s: Store, plan: seq<Dispatch>)
    requires InRange(s, plan) && Distinct(plan)
    requires forall i :: 0 <= i < |plan| ==> Retryable(retryMax, s.events[plan[i].event])
    ensures Work(retryMax, RetryFailed(s, plan).store) <= Work(retryMax, s)
    ensures StartsWell(plan) ==> Work(retryMax, RetryFailed(s, plan).store) < Work(retryMax, s)
    ensures !StartsWell(plan) ==> RetryFailed(s, plan).store == s
    decreases |plan|
  {
    if plan != [] {
      var first := DispatchEvent(s, plan[0]);
      DispatchLowersWork(retryMax, s, plan[0]);
      DispatchFrame(s, plan[0]);
      if !first.raised {
        var rest := plan[1..];
        assert forall i :: 0 <= i < |rest| ==> rest[i] == plan[i + 1];
        PassLowersWork(retryMax, first.store, rest);
      }
    }
  }

  lemma {:induction false} SweepLowersWork(retryMax: int, events: seq<Event>, picks: seq<nat>)
    requires forall i :: 0 <= i < |picks| ==> picks[i] < |events| && Exhausted(retryMax, events[picks[i]])
    requires forall i, j :: 0 <= i < j < |picks| ==> picks[i] != picks[j]
    ensures Total(DeadLetter(events, picks), e => WorkLeft(retryMax, e)) + |picks|
         == Total(events, e => WorkLeft(retryMax, e))
    decreases |picks|
  {
    if picks != [] {
      var e := events[picks[0]].(status := DeadLettered);
      TotalUpdate(events, e => WorkLeft(retryMax, e), picks[0], e);
      assert forall i :: 0 <= i < |picks[1..]| ==> picks[1..][i] == picks[i + 1];
      SweepLowersWork(retryMax, events[picks[0] := e], picks[1..]);
    }
  }

  /** Does something: dispatches with an accepted first target or none, or dead-letters. */
  predicate Productive(t: Task) {
    match t
    case Retrying(pass) => StartsWell(pass.plan)
    case Sweeping(sweep) => sweep.picks != []
  }

  /** A task either lowers the work left or leaves every table exactly as it is. */
  lemma TaskLowersWorkIff(retryMax: int, s: Store, t: Task)
    requires LegalTask(retryMax, s, t)
    ensures var after := AfterTask(retryMax, s, t);
            && OnlyFailedEventsMoved(s, after)
            && (Work(retryMax, after) < Work(retryMax, s) <==> Productive(t))
            && (!Productive(t) ==> after == s)
  {
    match t
    case Retrying(pass) =>
      PlannedAreRetryable(retryMax, s, pass.limit, pass.plan);
      PassLowersBudgetIff(retryMax, s, pass.plan);
      PassLowersWork(retryMax, s, pass.plan);
    case Sweeping(sweep) =>
      PicksAreExhausted(retryMax, s, sweep.limit, sweep.picks);
      SweepLowersWork(retryMax, s.events, sweep.picks);
      forall k | 0 <= k < |s.events| && !s.events[k].status.Failed?
        ensures DeadLetter(s.events, sweep.picks)[k] == s.events[k]
      {
        DeadLetterAt(s.events, sweep.picks, k);
      }
  }

  /** The tasks contain a sweep, and a retry pass that starts well or finds nothing to retry. */
  predicate Round(tasks: seq<Task>) {
    && (exists i :: 0 <= i < |tasks| && tasks[i].Sweeping?)
    && (exists i :: 0 <= i < |tasks| && tasks[i].Retrying? && (tasks[i].pass.plan == [] || Productive(tasks[i])))
  }

  ghost predicate NoneFailed(s: Store) {
    forall k :: 0 <= k < |s.events| ==> !s.events[k].status.Failed?
  }

  /** An idle task of each kind shows that nothing of its kind is left. */
  lemma IdleTaskShows(retryMax: int, s: Store, t: Task)
    requires LegalTask(retryMax, s, t) && !Productive(t)
    ensures t.Sweeping? ==> forall k :: 0 <= k < |s.events| ==> !Exhausted(retryMax, s.events[k])
    ensures t.Retrying? && t.pass.plan == [] ==> forall k :: 0 <= k < |s.events| ==> !Retryable(retryMax, s.events[k])
  {
    match t
    case Retrying(pass) => PlannedAreRetryable(retryMax, s, pass.limit, pass.plan);
    case Sweeping(sweep) => PicksAreExhausted(retryMax, s, sweep.limit, sweep.picks);
  }

  lemma {:induction false} IdleTasksShow(retryMax: int, s: Store, tasks: seq<Task>, i: nat)
    requires LegalTasks(retryMax, s, tasks) && i < |tasks|
    requires forall j :: 0 <= j < |tasks| ==> !Productive(tasks[j])
    ensures LegalTask(retryMax, s, tasks[i])
    decreases |tasks|
  {
    if i > 0 {
      TaskLowersWorkIff(retryMax, s, tasks[0]);
      assert forall j :: 0 <= j < |tasks[1..]| ==> tasks[1..][j] == tasks[j + 1];
      IdleTasksShow(retryMax, s, tasks[1..], i - 1);
    }
  }

  lemma {:induction false} TasksLowerWorkIff(retryMax: int, s: Store, tasks: seq<Task>)
    requires LegalTasks(retryMax, s, tasks)
    ensures var after := AfterTasks(retryMax, s, tasks);
            && OnlyFailedEventsMoved(s, after)
            && Work(retryMax, after) <= Work(retryMax, s)
            && (Work(retryMax, after) < Work(retryMax, s) <==> exists i :: 0 <= i < |tasks| && Productive(tasks[i]))
    decreases |tasks|
  {
    if tasks != [] {
      var next := AfterTask(retryMax, s, tasks[0]);
      TaskLowersWorkIff(retryMax, s, tasks[0]);
      TasksLowerWorkIff(retryMax, next, tasks[1..]);
      OnlyRetryableMove(s, next, AfterTasks(retryMax, s, tasks));
      assert forall i :: 0 <= i < |tasks[1..]| ==> tasks[1..][i] == tasks[i + 1];
      assert forall i :: 1 <= i < |tasks| ==> tasks[i] == tasks[1..][i - 1];
    }
  }

  /** A round with both kinds of task does some of the work, unless there is none. */
  lemma RoundLowersWork(retryMax: int, s: Store, tasks: seq<Task>)
    requires LegalTasks(retryMax, s, tasks) && Round(tasks)
    ensures NoneFailed(s) || Work(retryMax, AfterTasks(retryMax, s, tasks)) < Work(retryMax, s)
  {
    TasksLowerWorkIff(retryMax, s, tasks);
    if forall j :: 0 <= j < |tasks| ==> !Productive(tasks[j]) {
      var i :| 0 <= i < |tasks| && tasks[i].Sweeping?;
      var j :| 0 <= j < |tasks| && tasks[j].Retrying? && (tasks[j].pass.plan == [] || Productive(tasks[j]));
      IdleTasksShow(retryMax, s, tasks, i);
      IdleTasksShow(retryMax, s, tasks, j);
      IdleTaskShows(retryMax, s, tasks[i]);
      IdleTaskShows(retryMax, s, tasks[j]);
    }
  }

  ghost predicate LegalRounds(retryMax: int, s: Store, rounds: seq<seq<Task>>)
    decreases |rounds|
  {
    rounds != [] ==>
      && LegalTasks(retryMax, s, rounds[0])
      && Round(rounds[0])
      && LegalRounds(retryMax, AfterTasks(retryMax, s, rounds[0]), rounds[1..])
  }

  ghost function AfterRounds(retryMax: int, s: Store, rounds: seq<seq<Task>>): Store
    requires LegalRounds(retryMax, s, rounds)
    decreases |rounds|
  {
    if rounds == [] then s else AfterRounds(retryMax, AfterTasks(retryMax, s, rounds[0]), rounds[1..])
  }

  /** Drain with the two tasks interleaved in any order and at any frequency: after as many rounds as there is
      work, each with a sweep and a retry pass that starts well or finds nothing, no event is failed,
      whichever rows each task picks and wherever a pass raises; nothing is lost or created. */
  lemma {:induction false} InterleavedTasksDrain(retryMax: int, s: Store, rounds: seq<seq<Task>>)
    requires LegalRounds(retryMax, s, rounds)
    ensures var after := AfterRounds(retryMax, s, rounds);
            && OnlyFailedEventsMoved(s, after)
            && (|rounds| >= Work(retryMax, s) || NoneFailed(s) ==> NoneFailed(after))
    decreases |rounds|
  {
    if rounds == [] {
      if Work(retryMax, s) == 0 {
        forall k | 0 <= k < |s.events| ensures !s.events[k].status.Failed? {
          TotalBoundsEach(s.events, e => WorkLeft(retryMax, e), k);
        }
      }
    } else {
      var next := AfterTasks(retryMax, s, rounds[0]);
      TasksLowerWorkIff(retryMax, s, rounds[0]);
      RoundLowersWork(retryMax, s, rounds[0]);
      InterleavedTasksDrain(retryMax, next, rounds[1..]);
      OnlyRetryableMove(s, next, AfterRounds(retryMax, s, rounds));
    }
  }

  // ------------------------------------------------------------------ what stops a batch

  lemma DispatchRaisesIff(s: Store, d: Dispatch)
    requires d.event < |s.events|
    ensures DispatchEvent(s, d).raised <==> !Accepted(d.tries)
  {
    DispatchPostsAcceptedPrefix(s, d.event, d.tries);
  }

  /** A retry pass raises if and only if some target of its batch is rejected. */
  lemma {:induction false} PassRaisesIff(s: Store, plan: seq<Dispatch>)
    requires InRange(s, plan)
    ensures RetryFailed(s, plan).raised <==> !Healthy(plan)
    decreases |plan|
  {
    if plan != [] {
      DispatchRaisesIff(s, plan[0]);
      var first := DispatchEvent(s, plan[0]);
      if !first.raised {
        PassRaisesIff(first.store, plan[1..]);
        assert forall i :: 1 <= i < |plan| ==> plan[i] == plan[1..][i - 1];
        assert forall i :: 0 <= i < |plan[1..]| ==> plan[1..][i] == plan[i + 1];
      }
    }
  }

  /** A raise inside a retry pass abandons the rest of the batch: it comes from the first dispatch with a
      rejected target, the store is the one at that dispatch, and no event selected after it has changed. */
  lemma {:induction false} RaiseAbandonsBatch(s: Store, plan: seq<Dispatch>) returns (i: nat)
    requires InRange(s, plan) && Distinct(plan) && RetryFailed(s, plan).raised
    ensures i < |plan| && !RetryFailed(s, plan[..i]).raised
    ensures Healthy(plan[..i]) && !Accepted(plan[i].tries)
    ensures DispatchEvent(RetryFailed(s, plan[..i]).store, plan[i]) == RetryFailed(s, plan)
    ensures forall j :: i < j < |plan| ==> RetryFailed(s, plan).store.events[plan[j].event] == s.events[plan[j].event]
    decreases |plan|
  {
    var first := DispatchEvent(s, plan[0]);
    DispatchFrame(s, plan[0]);
    DispatchRaisesIff(s, plan[0]);
    if first.raised {
      i := 0;
    } else {
      i := RaiseAbandonsBatch(first.store, plan[1..]);
      assert forall j :: 0 <= j < i ==> plan[1..][..i][j] == plan[j + 1];
      assert plan[..i + 1][1..] == plan[1..][..i];
      assert forall j :: 1 <= j < |plan| ==> plan[j] == plan[1..][j - 1];
      i := i + 1;
    }
  }

  /** A retryable event whose first target is always rejected stays exactly as it is through any
      number of retry passes, whatever they pick and however often it is picked. */
  lemma {:induction false} PoisonedEventNeverDrains(s: Store, event: nat, plans: seq<seq<Dispatch>>)
    requires event < |s.events|
    requires forall i, j :: 0 <= i < |plans| && 0 <= j < |plans[i]| ==>
               && plans[i][j].event < |s.events|
               && (plans[i][j].event == event ==>
                     plans[i][j].tries != [] && plans[i][j].tries[0].reply.TargetRejected?)
    ensures |AfterPlans(s, plans).events| == |s.events|
    ensures AfterPlans(s, plans).events[event] == s.events[event]
    decreases |plans|
  {
    if plans != [] {
      var plan := plans[0];
      assert forall j :: 0 <= j < |plan| ==> plan[j] == plans[0][j];
      PoisonedPass(s, event, plan);
      var rest := plans[1..];
      assert forall i :: 0 <= i < |rest| ==> rest[i] == plans[i + 1];
      PoisonedEventNeverDrains(RetryFailed(s, plan).store, event, rest);
    }
  }

  ghost function AfterPlans(s: Store, plans: seq<seq<Dispatch>>): Store
    requires forall i, j :: 0 <= i < |plans| && 0 <= j < |plans[i]| ==> plans[i][j].event < |s.events|
    decreases |plans|
  {
    if plans == [] then s
    else
      assert forall j :: 0 <= j < |plans[0]| ==> plans[0][j].event < |s.events|;
      AfterPlans(RetryFailed(s, plans[0]).store, plans[1..])
  }

  lemma {:induction false} PoisonedPass(s: Store, event: nat, plan: seq<Dispatch>)
    requires event < |s.events| && InRange(s, plan)
    requires forall j :: 0 <= j < |plan| && plan[j].event == event ==>
               plan[j].tries != [] && plan[j].tries[0].reply.TargetRejected?
    ensures RetryFailed(s, plan).store.events[event] == s.events[event]
    ensures plan != [] && plan[0].event == event ==> RetryFailed(s, plan) == Outcome(s, true)
    decreases |plan|
  {
    if plan != [] {
      var first := DispatchEvent(s, plan[0]);
      DispatchFrame(s, plan[0]);
      if !first.raised {
        PoisonedPass(first.store, event, plan[1..]);
      }
    }
  }
}
