/** What dispatches and retry passes post: exactly one delivery per recipient, in order, from every state
    of an event.
 */
module WebhookDeliveries {
  import opened Basics
  import opened WebhookEngine
  import opened WebhookLog
  import opened WebhookDraining
  import opened WebhookRecipients

  // -------------------------------------------------------------------- one dispatch

  function CodeOf(r: Reply): Option<int> {
    if r.Response? then Some(r.code) else None
  }

  /** The rows of these posts: in order, each with its own subscription, number, code and outcome. */
  function Posts(event: nat, attempts: int, posted: seq<Try>): seq<Delivery> {
    seq(|posted|, i requires 0 <= i < |posted| =>
      Delivery(event, posted[i].subscription, attempts + i + 1, CodeOf(posted[i].reply),
               posted[i].reply.Response? && posted[i].reply.code < 400))
  }

  /** The event after these posts: the last one decides its status, the last success its delivery time. */
  ghost predicate EventFollows(e: Event, e': Event, posted: seq<Try>) {
    var rows := Posts(0, e.attempts, posted);
    && e'.workspace == e.workspace && e'.provider == e.provider
    && e'.attempts == e.attempts + |posted|
    && e'.status == (if rows == [] then e.status else if rows[|rows| - 1].success then Delivered else Failed)
    && e'.deliveredAt == (if LastSuccess(posted).Some? then LastSuccess(posted) else e.deliveredAt)
  }

  lemma {:induction false} DeliverAllPosts(s: Store, event: nat, tries: seq<Try>)
    requires event < |s.events| && Accepted(tries)
    ensures var o := DeliverAll(s, event, tries);
            && !o.raised
            && o.store.deliveries == s.deliveries + Posts(event, s.events[event].attempts, tries)
            && o.store.events == s.events[event := o.store.events[event]]
            && EventFollows(s.events[event], o.store.events[event], tries)
    decreases |tries|
  {
    if tries != [] {
      var init, last := tries[..|tries| - 1], tries[|tries| - 1];
      DeliverAllPosts(s, event, init);
      assert tries == init + [last];
      DeliverAllSplits(s, event, init, last);
      var mid := DeliverAll(s, event, init).store;
      var e := s.events[event];
      assert Posts(event, e.attempts, tries)
          == Posts(event, e.attempts, init) + Posts(event, mid.events[event].attempts, [last]);
      assert Deliver(mid, event, last).store.deliveries
          == mid.deliveries + Posts(event, mid.events[event].attempts, [last]);
    }
  }

  /** The tries after the first rejected target do not matter to the tables. */
  lemma {:induction false} DeliverAllStops(s: Store, event: nat, tries: seq<Try>)
    requires event < |s.events|
    ensures DeliverAll(s, event, tries)
         == Outcome(DeliverAll(s, event, tries[..AcceptedCount(tries)]).store, AcceptedCount(tries) < |tries|)
    decreases |tries|
  {
    if tries != [] && !tries[0].reply.TargetRejected? {
      var n := AcceptedCount(tries);
      DeliverAllStops(Deliver(s, event, tries[0]).store, event, tries[1..]);
      assert tries[..n][0] == tries[0] && tries[..n][1..] == tries[1..][..n - 1];
    }
  }

  /** What a dispatch did, from any state of its event: the tries before the first rejected target were
      posted; without any subscription the event is marked so, and nothing else happens. */
  ghost predicate Dispatched(s: Store, d: Dispatch, o: Outcome)
    requires d.event < |s.events|
  {
    var e, posted := s.events[d.event], d.tries[..AcceptedCount(d.tries)];
    && (o.raised <==> !Accepted(d.tries))
    && o.store.subscriptions == s.subscriptions
    && o.store.deliveries == s.deliveries + Posts(d.event, e.attempts, posted)
    && |o.store.events| == |s.events|
    && (forall k :: 0 <= k < |s.events| && k != d.event ==> o.store.events[k] == s.events[k])
    && (d.tries == [] ==> o.store.events[d.event] == e.(status := NoSubscribers))
    && (d.tries != [] ==> EventFollows(e, o.store.events[d.event], posted))
  }

  lemma DispatchPosts(s: Store, d: Dispatch)
    requires d.event < |s.events|
    ensures Dispatched(s, d, DispatchEvent(s, d))
  {
    var posted := d.tries[..AcceptedCount(d.tries)];
    DispatchFrame(s, d);
    DispatchRaisesIff(s, d);
    if d.tries != [] {
      DeliverAllStops(s, d.event, d.tries);
      DeliverAllPosts(s, d.event, posted);
    }
  }

  /** A subscription that is active and belongs to the event's workspace and provider. */
  predicate Recipient(s: Store, event: nat, k: nat)
    requires event < |s.events| && k < |s.subscriptions|
  {
    && s.subscriptions[k].active
    && s.subscriptions[k].workspace == s.events[event].workspace
    && s.subscriptions[k].provider == s.events[event].provider
  }

  predicate IsFor(row: Delivery, event: nat, k: nat) {
    row.event == event && row.subscription == k
  }

  ghost predicate NoneFor(rows: seq<Delivery>, event: nat, k: nat) {
    forall i :: 0 <= i < |rows| ==> !IsFor(rows[i], event, k)
  }

  ghost predicate OneFor(rows: seq<Delivery>, event: nat, k: nat) {
    && (exists i :: 0 <= i < |rows| && IsFor(rows[i], event, k))
    && (forall i, j :: 0 <= i < j < |rows| && IsFor(rows[i], event, k) ==> !IsFor(rows[j], event, k))
  }

  /** Among these rows every recipient of the event has exactly one, and no other subscription any. */
  ghost predicate ReachesRecipients(s: Store, rows: seq<Delivery>, event: nat)
    requires event < |s.events|
  {
    forall k :: 0 <= k < |s.subscriptions| ==>
      if Recipient(s, event, k) then OneFor(rows, event, k) else NoneFor(rows, event, k)
  }

  lemma PostsReachRecipients(s: Store, d: Dispatch)
    requires Covers(s, d)
    ensures ReachesRecipients(s, Posts(d.event, s.events[d.event].attempts, d.tries), d.event)
  {
    var rows := Posts(d.event, s.events[d.event].attempts, d.tries);
    forall k | 0 <= k < |s.subscriptions|
      ensures if Recipient(s, d.event, k) then OneFor(rows, d.event, k) else NoneFor(rows, d.event, k)
    {
      if Recipient(s, d.event, k) {
        var i :| 0 <= i < |d.tries| && d.tries[i].subscription == k;
        assert IsFor(rows[i], d.event, k);
      }
    }
  }

  /** A dispatch whose targets are accepted delivers, from every state of the event, exactly once to every
      active subscription of its workspace and provider, and to no other. */
  lemma DispatchReachesEveryRecipient(s: Store, d: Dispatch)
    requires Covers(s, d) && Accepted(d.tries)
    ensures var after := DispatchEvent(s, d).store;
            && s.deliveries <= after.deliveries
            && ReachesRecipients(s, after.deliveries[|s.deliveries|..], d.event)
  {
    DispatchPosts(s, d);
    assert d.tries[..AcceptedCount(d.tries)] == d.tries;
    PostsReachRecipients(s, d);
    var rows := Posts(d.event, s.events[d.event].attempts, d.tries);
    assert DispatchEvent(s, d).store.deliveries[|s.deliveries|..] == rows;
  }

  // ------------------------------------------------------------------- retry passes

  /** The rows of a retry pass: those of its dispatches in turn, up to the first rejected target. */
  function PlanPosts(events: seq<Event>, plan: seq<Dispatch>): seq<Delivery>
    requires forall i :: 0 <= i < |plan| ==> plan[i].event < |events|
    decreases |plan|
  {
    if plan == [] then []
    else
      var n := AcceptedCount(plan[0].tries);
      Posts(plan[0].event, events[plan[0].event].attempts, plan[0].tries[..n])
      + if n < |plan[0].tries| then [] else PlanPosts(events, plan[1..])
  }

  lemma {:induction false} PlanPostsFrame(events: seq<Event>, events': seq<Event>, plan: seq<Dispatch>)
    requires |events| == |events'| && forall i :: 0 <= i < |plan| ==> plan[i].event < |events|
    requires forall i :: 0 <= i < |plan| ==> events[plan[i].event] == events'[plan[i].event]
    ensures PlanPosts(events, plan) == PlanPosts(events', plan)
    decreases |plan|
  {
    if plan != [] {
      assert forall i :: 0 <= i < |plan[1..]| ==> plan[1..][i] == plan[i + 1];
      PlanPostsFrame(events, events', plan[1..]);
    }
  }

  /** The event of a dispatch that a retry pass reached. */
  ghost predicate Reached(e: Event, e': Event, d: Dispatch) {
    if d.tries == [] then e' == e.(status := NoSubscribers)
    else EventFollows(e, e', d.tries[..AcceptedCount(d.tries)])
  }

  lemma HealthyPrefix(plan: seq<Dispatch>, i: nat)
    requires 1 <= i <= |plan|
    ensures Healthy(plan[..i]) <==> Accepted(plan[0].tries) && Healthy(plan[1..][..i - 1])
  {
    var prefix, rest := plan[..i], plan[1..][..i - 1];
    assert prefix[0] == plan[0];
    forall j | 0 <= j < |rest| ensures rest[j] == prefix[j + 1] {
    }
    if Accepted(plan[0].tries) && Healthy(rest) {
      forall j | 0 <= j < |prefix| ensures Accepted(prefix[j].tries) {
        assert j > 0 ==> prefix[j] == rest[j - 1];
      }
    }
  }

  /** What the pass does to the event of its i-th dispatch. */
  ghost predicate PassFollows(s: Store, after: Store, plan: seq<Dispatch>, i: nat)
    requires i < |plan| && plan[i].event < |s.events| == |after.events|
  {
    var e, e' := s.events[plan[i].event], after.events[plan[i].event];
    if Healthy(plan[..i]) then Reached(e, e', plan[i]) else e' == e
  }

  lemma FirstFollows(s: Store, plan: seq<Dispatch>)
    requires InRange(s, plan) && Distinct(plan) && plan != []
    ensures var first := DispatchEvent(s, plan[0]);
            && Reached(s.events[plan[0].event], first.store.events[plan[0].event], plan[0])
            && (first.raised <==> AcceptedCount(plan[0].tries) < |plan[0].tries|)
            && (first.raised <==> !Accepted(plan[0].tries))
            && first.store.subscriptions == s.subscriptions
            && first.store.deliveries == s.deliveries
                 + Posts(plan[0].event, s.events[plan[0].event].attempts,
                         plan[0].tries[..AcceptedCount(plan[0].tries)])
            && (forall k :: 0 <= k < |s.events| && k != plan[0].event ==> first.store.events[k] == s.events[k])
  {
    DispatchPosts(s, plan[0]);
  }

  /** The rows of a retry pass are those of the posts of its dispatches, in turn. */
  lemma {:induction false} RetryWritesPosts(s: Store, plan: seq<Dispatch>)
    requires InRange(s, plan) && Distinct(plan)
    ensures var after := RetryFailed(s, plan).store;
            && after.subscriptions == s.subscriptions
            && after.deliveries == s.deliveries + PlanPosts(s.events, plan)
    ensures forall k :: 0 <= k < |s.events| && (forall i :: 0 <= i < |plan| ==> plan[i].event != k) ==>
              RetryFailed(s, plan).store.events[k] == s.events[k]
    decreases |plan|
  {
    if plan != [] {
      var first, rest := DispatchEvent(s, plan[0]), plan[1..];
      FirstFollows(s, plan);
      hide DispatchEvent;
      hide Reached;
      hide Posts;
      hide AcceptedCount;
      assert forall i :: 0 <= i < |rest| ==> rest[i] == plan[i + 1];
      if !first.raised {
        RetryWritesPosts(first.store, rest);
        PlanPostsFrame(s.events, first.store.events, rest);
      }
    }
  }

  /** A retry pass does to each picked event what its dispatch does, up to and including the first dispatch
      with a rejected target, and leaves the events after it alone. */
  lemma {:induction false} RetryFollows(s: Store, plan: seq<Dispatch>, i: nat)
    requires InRange(s, plan) && Distinct(plan) && i < |plan|
    ensures PassFollows(s, RetryFailed(s, plan).store, plan, i)
    decreases |plan|
  {
    var first, rest := DispatchEvent(s, plan[0]), plan[1..];
    FirstFollows(s, plan);
    hide DispatchEvent;
    hide Reached;
    hide Posts;
    hide AcceptedCount;
    assert forall j :: 0 <= j < |rest| ==> rest[j] == plan[j + 1];
    if i == 0 {
      assert Healthy(plan[..0]);
      if !first.raised {
        RetryWritesPosts(first.store, rest);
      }
    } else {
      HealthyPrefix(plan, i);
      if !first.raised {
        RetryFollows(first.store, rest, i - 1);
      }
    }
  }

  lemma {:induction false} PlanPostsReachRecipients(s: Store, plan: seq<Dispatch>, i: nat)
    requires InRange(s, plan) && Distinct(plan) && Healthy(plan)
    requires forall j :: 0 <= j < |plan| ==> Covers(s, plan[j])
    requires i < |plan|
    ensures ReachesRecipients(s, PlanPosts(s.events, plan), plan[i].event)
    decreases |plan|
  {
    var first, rest := plan[0], plan[1..];
    assert Accepted(first.tries);
    assert first.tries[..AcceptedCount(first.tries)] == first.tries;
    var head, tail := Posts(first.event, s.events[first.event].attempts, first.tries), PlanPosts(s.events, rest);
    assert PlanPosts(s.events, plan) == head + tail;
    assert forall j :: 0 <= j < |rest| ==> rest[j] == plan[j + 1];
    PlanPostsAreOfPlan(s.events, rest);
    hide Posts;
    hide PlanPosts;
    if i == 0 {
      PostsReachRecipients(s, first);
      forall k | 0 <= k < |s.subscriptions|
        ensures if Recipient(s, first.event, k) then OneFor(head + tail, first.event, k)
                else NoneFor(head + tail, first.event, k)
      {
        Alongside(head, tail, first.event, k);
      }
    } else {
      PlanPostsReachRecipients(s, rest, i - 1);
      var event := plan[i].event;
      forall k | 0 <= k < |s.subscriptions|
        ensures if Recipient(s, event, k) then OneFor(head + tail, event, k) else NoneFor(head + tail, event, k)
      {
        PostsAreOfEvent(first.event, s.events[first.event].attempts, first.tries);
        Alongside(head, tail, event, k);
      }
    }
  }

  lemma PostsAreOfEvent(event: nat, attempts: int, posted: seq<Try>)
    ensures forall i :: 0 <= i < |Posts(event, attempts, posted)| ==> Posts(event, attempts, posted)[i].event == event
  {
  }

  lemma {:induction false} PlanPostsAreOfPlan(events: seq<Event>, plan: seq<Dispatch>)
    requires forall i :: 0 <= i < |plan| ==> plan[i].event < |events|
    ensures forall i :: 0 <= i < |PlanPosts(events, plan)| ==>
              exists j :: 0 <= j < |plan| && PlanPosts(events, plan)[i].event == plan[j].event
    decreases |plan|
  {
    if plan != [] {
      assert forall i :: 0 <= i < |plan[1..]| ==> plan[1..][i] == plan[i + 1];
      PlanPostsAreOfPlan(events, plan[1..]);
    }
  }

  /** Rows of one half do not disturb the count in the other. */
  lemma Alongside(head: seq<Delivery>, tail: seq<Delivery>, event: nat, k: nat)
    ensures NoneFor(head, event, k) && NoneFor(tail, event, k) ==> NoneFor(head + tail, event, k)
    ensures OneFor(head, event, k) && NoneFor(tail, event, k) ==> OneFor(head + tail, event, k)
    ensures NoneFor(head, event, k) && OneFor(tail, event, k) ==> OneFor(head + tail, event, k)
  {
    var rows := head + tail;
    if OneFor(head, event, k) && NoneFor(tail, event, k) {
      var i :| 0 <= i < |head| && IsFor(head[i], event, k);
      assert IsFor(rows[i], event, k);
    }
    if NoneFor(head, event, k) && OneFor(tail, event, k) {
      var i :| 0 <= i < |tail| && IsFor(tail[i], event, k);
      assert IsFor(rows[|head| + i], event, k);
      forall a, b | 0 <= a < b < |rows| && IsFor(rows[a], event, k) ensures !IsFor(rows[b], event, k) {
        assert a >= |head| && rows[a] == tail[a - |head|] && rows[b] == tail[b - |head|];
      }
    }
  }

  /** A retry pass whose targets are accepted delivers every event it picked exactly once to every recipient,
      and to no other subscription. */
  lemma RetryReachesEveryRecipient(s: Store, plan: seq<Dispatch>, i: nat)
    requires InRange(s, plan) && Distinct(plan) && Healthy(plan) && i < |plan|
    requires forall j :: 0 <= j < |plan| ==> Covers(s, plan[j])
    ensures var after := RetryFailed(s, plan).store;
            && s.deliveries <= after.deliveries
            && ReachesRecipients(s, after.deliveries[|s.deliveries|..], plan[i].event)
  {
    RetryWritesPosts(s, plan);
    PlanPostsReachRecipients(s, plan, i);
    assert RetryFailed(s, plan).store.deliveries[|s.deliveries|..] == PlanPosts(s.events, plan);
  }

  // --------------------------------------------------------------- between dispatches

  ghost predicate NeverSent(steps: seq<Step>, k: nat) {
    forall i :: 0 <= i < |steps| ==> !(steps[i].Send? && steps[i].dispatch.event == k)
  }

  lemma StepLeavesUnfailed(retryMax: int, s: Store, step: Step, k: nat)
    requires Legal(retryMax, s, step) && k < |s.events| && !s.events[k].status.Failed?
    requires !(step.Send? && step.dispatch.event == k)
    ensures k < |Apply(retryMax, s, step).events| && Apply(retryMax, s, step).events[k] == s.events[k]
  {
    match step
    case Send(d) => DispatchFrame(s, d);
    case RetryPass(limit, plan) =>
      PlannedAreRetryable(retryMax, s, limit, plan);
      RetryWritesPosts(s, plan);
    case DeadLetterPass(limit, picks) =>
      PicksAreExhausted(retryMax, s, limit, picks);
      DeadLetterAt(s.events, picks, k);
    case _ =>
  }

  /** An event that is not failed, be it pending, delivered, dead-lettered or without subscribers, stays exactly as
      it is until it is dispatched by hand: no retry or dead-letter pass of any run touches it. */
  lemma {:induction false} UnfailedUntilDispatched(retryMax: int, s: Store, steps: seq<Step>, k: nat)
    requires LegalRun(retryMax, s, steps) && NeverSent(steps, k)
    requires k < |s.events| && !s.events[k].status.Failed?
    ensures k < |Run(retryMax, s, steps).events| && Run(retryMax, s, steps).events[k] == s.events[k]
    decreases |steps|
  {
    if steps != [] {
      StepLeavesUnfailed(retryMax, s, steps[0], k);
      assert forall i :: 0 <= i < |steps[1..]| ==> steps[1..][i] == steps[i + 1];
      UnfailedUntilDispatched(retryMax, Apply(retryMax, s, steps[0]), steps[1..], k);
    }
  }

  /** A received event waits, pending and without attempts, until it is dispatched. */
  lemma ReceivedWaitsForDispatch(retryMax: int, s: Store, workspace: string, provider: string, steps: seq<Step>)
    requires LegalRun(retryMax, Apply(retryMax, s, Receive(workspace, provider)), steps)
    requires NeverSent(steps, |s.events|)
    ensures var after := Run(retryMax, Apply(retryMax, s, Receive(workspace, provider)), steps);
            && |s.events| < |after.events|
            && after.events[|s.events|] == Event(workspace, provider, Pending, 0, None)
  {
    UnfailedUntilDispatched(retryMax, Apply(retryMax, s, Receive(workspace, provider)), steps, |s.events|);
  }

  // ------------------------------------------------------------------- subscriptions

  ghost predicate NeverDeactivated(steps: seq<Step>, k: nat) {
    forall i :: 0 <= i < |steps| ==> steps[i] != Deactivate(k)
  }

  lemma {:induction false} SubscriptionStays(retryMax: int, s: Store, steps: seq<Step>, k: nat)
    requires LegalRun(retryMax, s, steps) && NeverDeactivated(steps, k) && k < |s.subscriptions|
    ensures k < |Run(retryMax, s, steps).subscriptions|
    ensures Run(retryMax, s, steps).subscriptions[k] == s.subscriptions[k]
    decreases |steps|
  {
    if steps != [] {
      assert steps[0] != Deactivate(k);
      StepRowsMatch(retryMax, s, steps[0]);
      assert forall i :: 0 <= i < |steps[1..]| ==> steps[1..][i] == steps[i + 1];
      SubscriptionStays(retryMax, Apply(retryMax, s, steps[0]), steps[1..], k);
    }
  }

  /** A new subscription receives, from then until it is deactivated: whatever has run since, a dispatch of an event
      of its workspace and provider, with accepted targets, delivers to it exactly once. */
  lemma SubscribedIsReached(retryMax: int, s: Store, sub: Subscription, steps: seq<Step>, d: Dispatch)
    requires LegalRun(retryMax, Apply(retryMax, s, Subscribe(sub)), steps)
    requires NeverDeactivated(steps, |s.subscriptions|) && sub.active
    requires var before := Run(retryMax, Apply(retryMax, s, Subscribe(sub)), steps);
             && Covers(before, d) && Accepted(d.tries)
             && before.events[d.event].workspace == sub.workspace && before.events[d.event].provider == sub.provider
    ensures var before := Run(retryMax, Apply(retryMax, s, Subscribe(sub)), steps);
            var after := DispatchEvent(before, d).store;
            && before.deliveries <= after.deliveries
            && OneFor(after.deliveries[|before.deliveries|..], d.event, |s.subscriptions|)
  {
    var k := |s.subscriptions|;
    var before := Run(retryMax, Apply(retryMax, s, Subscribe(sub)), steps);
    SubscriptionStays(retryMax, Apply(retryMax, s, Subscribe(sub)), steps, k);
    DispatchReachesEveryRecipient(before, d);
    assert Recipient(before, d.event, k);
  }

  /** And from its deactivation on it receives nothing, in any run. */
  lemma UnsubscribedIsSilent(retryMax: int, s: Store, k: nat, steps: seq<Step>)
    requires Legal(retryMax, s, Deactivate(k)) && LegalRun(retryMax, Apply(retryMax, s, Deactivate(k)), steps)
    ensures var after := Run(retryMax, Apply(retryMax, s, Deactivate(k)), steps);
            && s.deliveries <= after.deliveries
            && forall i :: |s.deliveries| <= i < |after.deliveries| ==> after.deliveries[i].subscription != k
  {
    DeactivatedIsSilent(retryMax, Apply(retryMax, s, Deactivate(k)), steps, k);
  }
}
