/** The outbound half of the webhook engine: dispatching stored events to subscriptions,
    retrying failed events and dead-lettering exhausted ones.

    Tables are sequences whose indices are the primary keys; no row is ever deleted.  Queries
    without ORDER BY and with LIMIT may return any matching rows in any order, so a step carries
    the rows it picked.  Upstream behaviour is data as well: each delivery attempt carries its
    reply and the time of its outcome.
 */
module WebhookEngine {
  import opened Basics

  datatype Status = Pending | NoSubscribers | Delivered | Failed | DeadLettered

  datatype Event = Event(workspace: string, provider: string, status: Status, attempts: int, deliveredAt: Option<real>)

  datatype Subscription = Subscription(workspace: string, provider: string, active: bool)

  datatype Delivery = Delivery(event: nat, subscription: nat, attempt: int, statusCode: Option<int>, success: bool)

  datatype Store = Store(events: seq<Event>, subscriptions: seq<Subscription>, deliveries: seq<Delivery>)

  const EMPTY := Store([], [], [])

  /** TargetRejected: the target URL fails validation, which raises before anything is posted. */
  datatype Reply = TargetRejected | Response(code: int) | TransportError

  /** The delivery to one subscription. */
  datatype Try = Try(subscription: nat, reply: Reply, at: real)

  /** A dispatch of one event, with the selected subscriptions in the order they were returned. */
  datatype Dispatch = Dispatch(event: nat, tries: seq<Try>)

  // -------------------------------------------------------------------- operations

  predicate Matches(s: Subscription, e: Event) {
    s.active && s.workspace == e.workspace && s.provider == e.provider
  }

  function Succeeds(r: Reply): bool {
    r.Response? && r.code < 400
  }

  /** The stores after an operation, and whether it raised. */
  datatype Outcome = Outcome(store: Store, raised: bool)

  function Deliver(s: Store, event: nat, t: Try): Outcome
    requires event < |s.events|
  {
    if t.reply.TargetRejected? then Outcome(s, true)
    else
      var e := s.events[event];
      var ok := Succeeds(t.reply);
      var row := Delivery(event, t.subscription, e.attempts + 1,
                          if t.reply.Response? then Some(t.reply.code) else None, ok);
      var e' := e.(attempts := e.attempts + 1,
                   status := if ok then Delivered else Failed,
                   deliveredAt := if ok then Some(t.at) else e.deliveredAt);
      Outcome(s.(events := s.events[event := e'], deliveries := s.deliveries + [row]), false)
  }

  function DeliverAll(s: Store, event: nat, tries: seq<Try>): (o: Outcome)
    requires event < |s.events|
    ensures |o.store.events| == |s.events|
    decreases |tries|
  {
    if tries == [] then Outcome(s, false)
    else
      var first := Deliver(s, event, tries[0]);
      if first.raised then first else DeliverAll(first.store, event, tries[1..])
  }

  function DispatchEvent(s: Store, d: Dispatch): (o: Outcome)
    requires d.event < |s.events|
    ensures |o.store.events| == |s.events|
  {
    if d.tries == []
    then Outcome(s.(events := s.events[d.event := s.events[d.event].(status := NoSubscribers)]), false)
    else DeliverAll(s, d.event, d.tries)
  }

  ghost predicate InRange(s: Store, plan: seq<Dispatch>) {
    forall i :: 0 <= i < |plan| ==> plan[i].event < |s.events|
  }

  /** A retry pass dispatches the selected events one by one; a raise abandons the rest. */
  ghost function RetryFailed(s: Store, plan: seq<Dispatch>): (o: Outcome)
    requires InRange(s, plan)
    ensures |o.store.events| == |s.events|
    decreases |plan|
  {
    if plan == [] then Outcome(s, false)
    else
      var first := DispatchEvent(s, plan[0]);
      if first.raised then first else RetryFailed(first.store, plan[1..])
  }

  function DeadLetter(events: seq<Event>, picks: seq<nat>): (r: seq<Event>)
    requires forall i :: 0 <= i < |picks| ==> picks[i] < |events|
    ensures |r| == |events|
    decreases |picks|
  {
    if picks == [] then events
    else DeadLetter(events[picks[0] := events[picks[0]].(status := DeadLettered)], picks[1..])
  }

  // ------------------------------------------------------------- the mutable engine

  class WebhookDispatcher {
    var events: seq<Event>
    var subscriptions: seq<Subscription>
    var deliveries: seq<Delivery>

    ghost function Tables(): Store
      reads this
    {
      Store(events, subscriptions, deliveries)
    }

    method DeliverToSubscription(event: nat, t: Try) returns (raised: bool)
      requires event < |events|
      modifies this
      ensures Outcome(Tables(), raised) == Deliver(old(Tables()), event, t)
    {
      if t.reply.TargetRejected? {
        return true;
      }
      var attempts := events[event].attempts;
      var delivery := Delivery(event, t.subscription, attempts + 1, None, false);
      if t.reply.Response? {
        delivery := delivery.(statusCode := Some(t.reply.code), success := t.reply.code < 400);
      }
      events := events[event := events[event].(attempts := attempts + 1)];
      if delivery.success {
        events := events[event := events[event].(status := Delivered, deliveredAt := Some(t.at))];
      } else {
        events := events[event := events[event].(status := Failed)];
      }
      deliveries := deliveries + [delivery];
      raised := false;
    }

    method DispatchOne(d: Dispatch) returns (raised: bool)
      requires d.event < |events|
      modifies this
      ensures Outcome(Tables(), raised) == DispatchEvent(old(Tables()), d)
    {
      if d.tries == [] {
        events := events[d.event := events[d.event].(status := NoSubscribers)];
        return false;
      }
      raised := false;
      var i := 0;
      while i < |d.tries|
        invariant 0 <= i <= |d.tries| && d.event < |events| && !raised
        invariant DeliverAll(Tables(), d.event, d.tries[i..]) == DeliverAll(old(Tables()), d.event, d.tries)
      {
        assert d.tries[i..][1..] == d.tries[i + 1..];
        raised := DeliverToSubscription(d.event, d.tries[i]);
        if raised {
          return;
        }
        i := i + 1;
      }
    }

    method RetryPass(plan: seq<Dispatch>) returns (count: nat, raised: bool)
      requires InRange(Tables(), plan)
      modifies this
      ensures Outcome(Tables(), raised) == RetryFailed(old(Tables()), plan)
      ensures !raised ==> count == |plan|
    {
      raised, count := false, 0;
      while count < |plan|
        invariant count <= |plan| && InRange(Tables(), plan) && !raised
        invariant RetryFailed(Tables(), plan[count..]) == RetryFailed(old(Tables()), plan)
      {
        assert plan[count..][1..] == plan[count + 1..];
        raised := DispatchOne(plan[count]);
        if raised {
          return;
        }
        count := count + 1;
      }
    }

    method DeadLetterOverflow(picks: seq<nat>)
      requires forall i :: 0 <= i < |picks| ==> picks[i] < |events|
      modifies this
      ensures Tables() == old(Tables()).(events := DeadLetter(old(events), picks))
    {
      var i := 0;
      while i < |picks|
        invariant 0 <= i <= |picks| && |events| == |old(events)|
        invariant subscriptions == old(subscriptions) && deliveries == old(deliveries)
        invariant DeadLetter(events, picks[i..]) == DeadLetter(old(events), picks)
      {
        assert picks[i..][1..] == picks[i + 1..];
        events := events[picks[i] := events[picks[i]].(status := DeadLettered)];
        i := i + 1;
      }
    }
  }

  // --------------------------------------------------------------------------- steps

  predicate Retryable(retryMax: int, e: Event) {
    e.status.Failed? && e.attempts < retryMax
  }

  predicate Exhausted(retryMax: int, e: Event) {
    e.status.Failed? && e.attempts >= retryMax
  }

  ghost function Eligible(s: Store, p: Event -> bool): set<nat> {
    set i: nat | i < |s.events| && p(s.events[i])
  }

  ghost function SmallerOf(a: nat, b: nat): nat {
    if a <= b then a else b
  }

  /** Any rows a query with LIMIT may return: distinct, matching, as many as the limit allows. */
  ghost predicate Selected(s: Store, p: Event -> bool, limit: nat, picks: seq<nat>) {
    && (forall i :: 0 <= i < |picks| ==> picks[i] in Eligible(s, p))
    && (forall i, j :: 0 <= i < j < |picks| ==> picks[i] != picks[j])
    && |picks| == SmallerOf(limit, |Eligible(s, p)|)
  }

  /** The tries of a dispatch go to exactly the matching active subscriptions, in any order. */
  ghost predicate Covers(s: Store, d: Dispatch) {
    && d.event < |s.events|
    && (forall i :: 0 <= i < |d.tries| ==>
          d.tries[i].subscription < |s.subscriptions|
          && Matches(s.subscriptions[d.tries[i].subscription], s.events[d.event]))
    && (forall i, j :: 0 <= i < j < |d.tries| ==> d.tries[i].subscription != d.tries[j].subscription)
    && (forall k :: 0 <= k < |s.subscriptions| && Matches(s.subscriptions[k], s.events[d.event]) ==>
          exists i :: 0 <= i < |d.tries| && d.tries[i].subscription == k)
  }

  ghost function EventsOf(plan: seq<Dispatch>): seq<nat> {
    seq(|plan|, i requires 0 <= i < |plan| => plan[i].event)
  }

  ghost predicate LegalRetry(retryMax: int, s: Store, limit: nat, plan: seq<Dispatch>) {
    && Selected(s, e => Retryable(retryMax, e), limit, EventsOf(plan))
    && (forall i :: 0 <= i < |plan| ==> Covers(s, plan[i]))
  }

  ghost predicate LegalDeadLetter(retryMax: int, s: Store, limit: nat, picks: seq<nat>) {
    Selected(s, e => Exhausted(retryMax, e), limit, picks)
  }

  datatype Step =
    | Receive(workspace: string, provider: string)
    | Subscribe(subscription: Subscription)
    | Deactivate(index: nat)
    | Send(dispatch: Dispatch)
    | RetryPass(limit: nat, plan: seq<Dispatch>)
    | DeadLetterPass(limit: nat, picks: seq<nat>)

  ghost predicate Legal(retryMax: int, s: Store, step: Step) {
    match step
    case Receive(_, _) => true
    case Subscribe(_) => true
    case Deactivate(i) => i < |s.subscriptions|
    case Send(d) => Covers(s, d)
    case RetryPass(limit, plan) => LegalRetry(retryMax, s, limit, plan)
    case DeadLetterPass(limit, picks) => LegalDeadLetter(retryMax, s, limit, picks)
  }

  ghost function Apply(retryMax: int, s: Store, step: Step): Store
    requires Legal(retryMax, s, step)
  {
    match step
    case Receive(ws, provider) => s.(events := s.events + [Event(ws, provider, Pending, 0, None)])
    case Subscribe(sub) => s.(subscriptions := s.subscriptions + [sub])
    case Deactivate(i) => s.(subscriptions := s.subscriptions[i := s.subscriptions[i].(active := false)])
    case Send(d) => DispatchEvent(s, d).store
    case RetryPass(_, plan) => RetryFailed(s, plan).store
    case DeadLetterPass(_, picks) => s.(events := DeadLetter(s.events, picks))
  }

  ghost predicate LegalRun(retryMax: int, s: Store, steps: seq<Step>)
    decreases |steps|
  {
    steps != [] ==> Legal(retryMax, s, steps[0]) && LegalRun(retryMax, Apply(retryMax, s, steps[0]), steps[1..])
  }

  ghost function Run(retryMax: int, s: Store, steps: seq<Step>): Store
    requires LegalRun(retryMax, s, steps)
    decreases |steps|
  {
    if steps == [] then s else Run(retryMax, Apply(retryMax, s, steps[0]), steps[1..])
  }
}
