/** The delivery log: what a dispatch writes, and the agreement between events and their rows in
    every run.
 */
module WebhookLog {
  import opened Basics
  import opened WebhookEngine

  // ------------------------------------------------------------------- log agreement

  /** The delivery rows of one event, in the order they were written. */
  function Rows(deliveries: seq<Delivery>, event: nat): seq<Delivery>
    decreases |deliveries|
  {
    if deliveries == [] then []
    else
      var last := deliveries[|deliveries| - 1];
      var before := Rows(deliveries[..|deliveries| - 1], event);
      if last.event == event then before + [last] else before
  }

  lemma RowsGrow(deliveries: seq<Delivery>, row: Delivery, event: nat)
    ensures Rows(deliveries + [row], event)
         == if row.event == event then Rows(deliveries, event) + [row] else Rows(deliveries, event)
  {
    assert (deliveries + [row])[..|deliveries|] == deliveries;
  }

  ghost predicate Numbered(rows: seq<Delivery>) {
    forall i :: 0 <= i < |rows| ==> rows[i].attempt == i + 1
  }

  ghost predicate SomeSuccess(rows: seq<Delivery>) {
    exists i :: 0 <= i < |rows| && rows[i].success
  }

  /** An event agrees with its delivery log. */
  ghost predicate EventAgrees(retryMax: int, e: Event, rows: seq<Delivery>) {
    && |rows| == e.attempts
    && Numbered(rows)
    && (e.status.Pending? ==> rows == [])
    && (e.status.Delivered? ==> rows != [] && rows[|rows| - 1].success)
    && (e.status.Failed? ==> rows != [] && !rows[|rows| - 1].success)
    && (e.status.DeadLettered? ==> rows != [] && !rows[|rows| - 1].success && e.attempts >= retryMax)
    && (e.deliveredAt.Some? <==> SomeSuccess(rows))
  }

  ghost predicate LogAgrees(retryMax: int, s: Store) {
    && (forall k :: 0 <= k < |s.events| ==> EventAgrees(retryMax, s.events[k], Rows(s.deliveries, k)))
    && (forall i :: 0 <= i < |s.deliveries| ==> s.deliveries[i].event < |s.events|)
    && (forall i :: 0 <= i < |s.deliveries| ==>
          (s.deliveries[i].success <==> s.deliveries[i].statusCode.Some? && s.deliveries[i].statusCode.value < 400))
  }

  lemma {:induction false} NoRowsBeyond(deliveries: seq<Delivery>, k: nat)
    requires forall i :: 0 <= i < |deliveries| ==> deliveries[i].event < k
    ensures Rows(deliveries, k) == []
    decreases |deliveries|
  {
    if deliveries != [] {
      NoRowsBeyond(deliveries[..|deliveries| - 1], k);
    }
  }

  lemma DeliverAgrees(retryMax: int, s: Store, event: nat, t: Try)
    requires event < |s.events| && LogAgrees(retryMax, s)
    ensures LogAgrees(retryMax, Deliver(s, event, t).store)
  {
    if !t.reply.TargetRejected? {
      var after := Deliver(s, event, t).store;
      var row := after.deliveries[|s.deliveries|];
      forall k | 0 <= k < |after.events|
        ensures EventAgrees(retryMax, after.events[k], Rows(after.deliveries, k))
      {
        RowsGrow(s.deliveries, row, k);
        var before, rows := Rows(s.deliveries, k), Rows(after.deliveries, k);
        if k == event {
          assert rows == before + [row];
          if row.success {
            assert rows[|before|].success;
          } else if SomeSuccess(before) {
            var i :| 0 <= i < |before| && before[i].success;
            assert rows[i].success;
          }
        }
      }
    }
  }

  lemma {:induction false} DeliverAllAgrees(retryMax: int, s: Store, event: nat, tries: seq<Try>)
    requires event < |s.events| && LogAgrees(retryMax, s)
    ensures LogAgrees(retryMax, DeliverAll(s, event, tries).store)
    decreases |tries|
  {
    if tries != [] {
      DeliverAgrees(retryMax, s, event, tries[0]);
      var first := Deliver(s, event, tries[0]);
      if !first.raised {
        DeliverAllAgrees(retryMax, first.store, event, tries[1..]);
      }
    }
  }

  lemma DispatchAgrees(retryMax: int, s: Store, d: Dispatch)
    requires d.event < |s.events| && LogAgrees(retryMax, s)
    ensures LogAgrees(retryMax, DispatchEvent(s, d).store)
  {
    DeliverAllAgrees(retryMax, s, d.event, d.tries);
  }

  lemma {:induction false} RetryAgrees(retryMax: int, s: Store, plan: seq<Dispatch>)
    requires InRange(s, plan) && LogAgrees(retryMax, s)
    ensures LogAgrees(retryMax, RetryFailed(s, plan).store)
    decreases |plan|
  {
    if plan != [] {
      DispatchAgrees(retryMax, s, plan[0]);
      var first := DispatchEvent(s, plan[0]);
      if !first.raised {
        RetryAgrees(retryMax, first.store, plan[1..]);
      }
    }
  }

  lemma {:induction false} DeadLetterAt(events: seq<Event>, picks: seq<nat>, k: nat)
    requires forall i :: 0 <= i < |picks| ==> picks[i] < |events|
    requires k < |events|
    ensures DeadLetter(events, picks)[k] == if k in picks then events[k].(status := DeadLettered) else events[k]
    decreases |picks|
  {
    if picks != [] {
      var next := events[picks[0] := events[picks[0]].(status := DeadLettered)];
      DeadLetterAt(next, picks[1..], k);
      assert k in picks <==> k == picks[0] || k in picks[1..];
    }
  }

  lemma StepAgrees(retryMax: int, s: Store, step: Step)
    requires Legal(retryMax, s, step) && LogAgrees(retryMax, s)
    ensures LogAgrees(retryMax, Apply(retryMax, s, step))
  {
    match step
    case Receive(ws, provider) =>
      NoRowsBeyond(s.deliveries, |s.events|);
    case Send(d) =>
      DispatchAgrees(retryMax, s, d);
    case RetryPass(_, plan) =>
      RetryAgrees(retryMax, s, plan);
    case DeadLetterPass(_, picks) =>
      var after := Apply(retryMax, s, step);
      forall k | 0 <= k < |after.events|
        ensures EventAgrees(retryMax, after.events[k], Rows(after.deliveries, k))
      {
        DeadLetterAt(s.events, picks, k);
      }
    case Subscribe(_) =>
    case Deactivate(_) =>
  }

  /** In every run every event agrees with its delivery log: its rows are numbered exactly
      1..attempts, delivered and failed are the outcome of the last row, pending means no rows,
      delivered_at is set exactly when some row succeeded, and dead_lettered means an exhausted
      budget and a failed last row. */
  lemma {:induction false} EveryRunAgrees(retryMax: int, s: Store, steps: seq<Step>)
    requires LegalRun(retryMax, s, steps) && LogAgrees(retryMax, s)
    ensures LogAgrees(retryMax, Run(retryMax, s, steps))
    decreases |steps|
  {
    if steps != [] {
      StepAgrees(retryMax, s, steps[0]);
      EveryRunAgrees(retryMax, Apply(retryMax, s, steps[0]), steps[1..]);
    }
  }

  lemma EmptyAgrees(retryMax: int)
    ensures LogAgrees(retryMax, EMPTY)
  {
  }

  /** So every reachable store agrees with its log. */
  lemma EveryHistoryAgrees(retryMax: int, steps: seq<Step>)
    requires LegalRun(retryMax, EMPTY, steps)
    ensures LogAgrees(retryMax, Run(retryMax, EMPTY, steps))
  {
    EmptyAgrees(retryMax);
    EveryRunAgrees(retryMax, EMPTY, steps);
  }

  // ----------------------------------------------------------- what one dispatch changes

  ghost predicate Accepted(tries: seq<Try>) {
    forall i :: 0 <= i < |tries| ==> !tries[i].reply.TargetRejected?
  }

  /** Only the dispatched event and the log change; the log only grows. */
  lemma {:induction false} DeliverAllFrame(s: Store, event: nat, tries: seq<Try>)
    requires event < |s.events|
    ensures var after := DeliverAll(s, event, tries).store;
            && after.subscriptions == s.subscriptions
            && s.deliveries <= after.deliveries
            && (forall k :: 0 <= k < |s.events| && k != event ==> after.events[k] == s.events[k])
            && after.events[event].workspace == s.events[event].workspace
            && after.events[event].provider == s.events[event].provider
            && s.events[event].attempts <= after.events[event].attempts
    decreases |tries|
  {
    if tries != [] {
      var first := Deliver(s, event, tries[0]);
      if !first.raised {
        DeliverAllFrame(first.store, event, tries[1..]);
      }
    }
  }

  lemma DispatchFrame(s: Store, d: Dispatch)
    requires d.event < |s.events|
    ensures var after := DispatchEvent(s, d).store;
            && after.subscriptions == s.subscriptions
            && s.deliveries <= after.deliveries
            && (forall k :: 0 <= k < |s.events| && k != d.event ==> after.events[k] == s.events[k])
            && after.events[d.event].workspace == s.events[d.event].workspace
            && after.events[d.event].provider == s.events[d.event].provider
            && s.events[d.event].attempts <= after.events[d.event].attempts
  {
    DeliverAllFrame(s, d.event, d.tries);
  }

  /** The tries before the first rejected target. */
  function AcceptedCount(tries: seq<Try>): (n: nat)
    ensures n <= |tries|
    ensures forall i :: 0 <= i < n ==> !tries[i].reply.TargetRejected?
    ensures n < |tries| ==> tries[n].reply.TargetRejected?
    decreases |tries|
  {
    if tries == [] || tries[0].reply.TargetRejected? then 0 else 1 + AcceptedCount(tries[1..])
  }

  /** A dispatch posts to the tries before the first rejected target and raises if there is one:
      each post adds one attempt and one row, with its own subscription, number and outcome. */
  lemma {:induction false} DispatchPostsAcceptedPrefix(s: Store, event: nat, tries: seq<Try>)
    requires event < |s.events|
    ensures var n, o := AcceptedCount(tries), DeliverAll(s, event, tries);
            && (o.raised <==> n < |tries|)
            && o.store.events[event].attempts == s.events[event].attempts + n
            && |o.store.deliveries| == |s.deliveries| + n && s.deliveries <= o.store.deliveries
    ensures forall i :: 0 <= i < AcceptedCount(tries) ==>
              RowIsFor(DeliverAll(s, event, tries).store.deliveries[|s.deliveries| + i],
                       event, s.events[event].attempts + i + 1, tries[i])
    decreases |tries|
  {
    if tries != [] && !tries[0].reply.TargetRejected? {
      var mid, rest := Deliver(s, event, tries[0]).store, tries[1..];
      DispatchPostsAcceptedPrefix(mid, event, rest);
      var n, o, base := AcceptedCount(tries), DeliverAll(s, event, tries), |s.deliveries|;
      assert n == 1 + AcceptedCount(rest) && o == DeliverAll(mid, event, rest);
      assert o.store.deliveries[base] == mid.deliveries[base];
      forall i | 0 <= i < n
        ensures RowIsFor(o.store.deliveries[base + i], event, s.events[event].attempts + i + 1, tries[i])
      {
        if i > 0 {
          assert o.store.deliveries[base + i] == o.store.deliveries[|mid.deliveries| + (i - 1)];
          assert tries[i] == rest[i - 1];
        }
      }
    }
  }

  predicate RowIsFor(row: Delivery, event: nat, attempt: int, t: Try) {
    row.event == event && row.subscription == t.subscription
    && row.attempt == attempt && row.success == Succeeds(t.reply)
  }

  /** The time of the last success among the tries, if any. */
  function LastSuccess(tries: seq<Try>): Option<real>
    decreases |tries|
  {
    if tries == [] then None
    else if Succeeds(tries[|tries| - 1].reply) then Some(tries[|tries| - 1].at)
    else LastSuccess(tries[..|tries| - 1])
  }

  lemma {:induction false} DeliverAllSplits(s: Store, event: nat, first: seq<Try>, last: Try)
    requires event < |s.events| && !DeliverAll(s, event, first).raised
    ensures DeliverAll(s, event, first + [last]) == Deliver(DeliverAll(s, event, first).store, event, last)
    decreases |first|
  {
    if first == [] {
      assert [last][1..] == [] && first + [last] == [last];
    } else {
      assert (first + [last])[1..] == first[1..] + [last];
      DeliverAllSplits(Deliver(s, event, first[0]).store, event, first[1..], last);
    }
  }

  /** Of the accepted tries the last one alone decides the status, and the last success the delivery
      time: a later failing subscription turns a delivered event back into a failed one. */
  lemma {:induction false} LastTryDecides(s: Store, event: nat, tries: seq<Try>)
    requires event < |s.events| && tries != [] && Accepted(tries)
    ensures var e := DeliverAll(s, event, tries).store.events[event];
            && !DeliverAll(s, event, tries).raised
            && e.status == (if Succeeds(tries[|tries| - 1].reply) then Delivered else Failed)
            && e.deliveredAt == (if LastSuccess(tries).Some? then LastSuccess(tries) else s.events[event].deliveredAt)
    decreases |tries|
  {
    var first, last := tries[..|tries| - 1], tries[|tries| - 1];
    assert tries == first + [last];
    if first != [] {
      LastTryDecides(s, event, first);
    }
    DeliverAllSplits(s, event, first, last);
  }

  /** A dispatch of a failed event makes progress, by leaving "failed" or using up attempts, if and
      only if it has no subscription to try or its first target is accepted.  Otherwise it raises
      and leaves the whole store untouched. */
  lemma DispatchMakesProgressIff(s: Store, d: Dispatch)
    requires Covers(s, d) && s.events[d.event].status.Failed?
    ensures var o := DispatchEvent(s, d);
            var e, e' := s.events[d.event], o.store.events[d.event];
            && ((!e'.status.Failed? || e'.attempts > e.attempts)
                <==> (d.tries == [] || !d.tries[0].reply.TargetRejected?))
            && (d.tries != [] && d.tries[0].reply.TargetRejected? ==> o == Outcome(s, true))
  {
    if d.tries != [] && !d.tries[0].reply.TargetRejected? {
      DeliverAllFrame(Deliver(s, d.event, d.tries[0]).store, d.event, d.tries[1..]);
    }
  }
}
