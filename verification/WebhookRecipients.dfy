/** Who is posted to: matching subscriptions only, and nobody once deactivated. */
module WebhookRecipients {
  import opened WebhookEngine
  import opened WebhookLog

  /** Every row written between two stores went to a subscription that matched its event. */
  ghost predicate NewRowsMatch(s: Store, after: Store) {
    && s.deliveries <= after.deliveries
    && forall i :: |s.deliveries| <= i < |after.deliveries| ==>
         var row := after.deliveries[i];
         row.event < |s.events| && row.subscription < |s.subscriptions|
         && Matches(s.subscriptions[row.subscription], s.events[row.event])
  }

  ghost predicate SameOwners(s: Store, after: Store) {
    && after.subscriptions == s.subscriptions
    && |after.events| == |s.events|
    && forall k :: 0 <= k < |s.events| ==>
         after.events[k].workspace == s.events[k].workspace && after.events[k].provider == s.events[k].provider
  }

  lemma DispatchRowsMatch(s: Store, d: Dispatch)
    requires Covers(s, d)
    ensures NewRowsMatch(s, DispatchEvent(s, d).store) && SameOwners(s, DispatchEvent(s, d).store)
  {
    DispatchFrame(s, d);
    DispatchPostsAcceptedPrefix(s, d.event, d.tries);
    var after := DispatchEvent(s, d).store;
    forall i | |s.deliveries| <= i < |after.deliveries|
      ensures var row := after.deliveries[i];
              row.event == d.event && row.subscription < |s.subscriptions|
              && Matches(s.subscriptions[row.subscription], s.events[row.event])
    {
      var j := i - |s.deliveries|;
      assert RowIsFor(after.deliveries[|s.deliveries| + j], d.event, s.events[d.event].attempts + j + 1, d.tries[j]);
    }
  }

  lemma {:induction false} RetryRowsMatch(s: Store, plan: seq<Dispatch>)
    requires InRange(s, plan) && forall i :: 0 <= i < |plan| ==> Covers(s, plan[i])
    ensures NewRowsMatch(s, RetryFailed(s, plan).store) && SameOwners(s, RetryFailed(s, plan).store)
    decreases |plan|
  {
    if plan != [] {
      DispatchRowsMatch(s, plan[0]);
      var first := DispatchEvent(s, plan[0]);
      if !first.raised {
        forall i | 0 <= i < |plan[1..]| ensures Covers(first.store, plan[1..][i]) {
          CoversIsStable(s, first.store, plan[i + 1]);
        }
        RetryRowsMatch(first.store, plan[1..]);
      }
    }
  }

  lemma CoversIsStable(s: Store, after: Store, d: Dispatch)
    requires Covers(s, d) && SameOwners(s, after)
    ensures Covers(after, d)
  {
  }

  lemma StepRowsMatch(retryMax: int, s: Store, step: Step)
    requires Legal(retryMax, s, step)
    ensures NewRowsMatch(s, Apply(retryMax, s, step))
    ensures step.Send? || step.RetryPass? ==> SameOwners(s, Apply(retryMax, s, step))
  {
    match step
    case Send(d) => DispatchRowsMatch(s, d);
    case RetryPass(_, plan) => RetryRowsMatch(s, plan);
    case _ =>
  }

  /** A deactivated subscription stays inactive and receives nothing more in any run. */
  lemma {:induction false} DeactivatedIsSilent(retryMax: int, s: Store, steps: seq<Step>, k: nat)
    requires LegalRun(retryMax, s, steps) && k < |s.subscriptions| && !s.subscriptions[k].active
    ensures var after := Run(retryMax, s, steps);
            && s.deliveries <= after.deliveries
            && k < |after.subscriptions| && !after.subscriptions[k].active
            && (forall i :: |s.deliveries| <= i < |after.deliveries| ==> after.deliveries[i].subscription != k)
    decreases |steps|
  {
    if steps != [] {
      var next := Apply(retryMax, s, steps[0]);
      StepRowsMatch(retryMax, s, steps[0]);
      DeactivatedIsSilent(retryMax, next, steps[1..], k);
      var after := Run(retryMax, s, steps);
      forall i | |s.deliveries| <= i < |after.deliveries| ensures after.deliveries[i].subscription != k {
        if i < |next.deliveries| {
          assert after.deliveries[i] == next.deliveries[i];
        }
      }
    }
  }

  /** Tenant isolation: every delivery went to a subscription of the event's own workspace and
      provider. */
  ghost predicate Isolated(s: Store) {
    forall i :: 0 <= i < |s.deliveries| ==>
      var row := s.deliveries[i];
      && row.event < |s.events| && row.subscription < |s.subscriptions|
      && s.subscriptions[row.subscription].workspace == s.events[row.event].workspace
      && s.subscriptions[row.subscription].provider == s.events[row.event].provider
  }

  lemma StepKeepsOwners(retryMax: int, s: Store, step: Step)
    requires Legal(retryMax, s, step)
    ensures var after := Apply(retryMax, s, step);
            && |s.events| <= |after.events| && |s.subscriptions| <= |after.subscriptions|
            && (forall k :: 0 <= k < |s.events| ==> after.events[k].workspace == s.events[k].workspace
                                                    && after.events[k].provider == s.events[k].provider)
            && (forall k :: 0 <= k < |s.subscriptions| ==>
                  after.subscriptions[k].workspace == s.subscriptions[k].workspace
                  && after.subscriptions[k].provider == s.subscriptions[k].provider)
  {
    match step
    case DeadLetterPass(_, picks) =>
      forall k | 0 <= k < |s.events|
        ensures DeadLetter(s.events, picks)[k].workspace == s.events[k].workspace
             && DeadLetter(s.events, picks)[k].provider == s.events[k].provider
      {
        DeadLetterAt(s.events, picks, k);
      }
    case _ => StepRowsMatch(retryMax, s, step);
  }

  lemma {:induction false} EveryRunIsIsolated(retryMax: int, s: Store, steps: seq<Step>)
    requires LegalRun(retryMax, s, steps) && Isolated(s)
    ensures Isolated(Run(retryMax, s, steps))
    decreases |steps|
  {
    if steps != [] {
      var next := Apply(retryMax, s, steps[0]);
      StepRowsMatch(retryMax, s, steps[0]);
      StepKeepsOwners(retryMax, s, steps[0]);
      forall i | 0 <= i < |next.deliveries|
        ensures var row := next.deliveries[i];
          && row.event < |next.events| && row.subscription < |next.subscriptions|
          && next.subscriptions[row.subscription].workspace == next.events[row.event].workspace
          && next.subscriptions[row.subscription].provider == next.events[row.event].provider
      {
        if i < |s.deliveries| {
          assert next.deliveries[i] == s.deliveries[i];
        }
      }
      EveryRunIsIsolated(retryMax, next, steps[1..]);
    }
  }

  /** So every reachable store is isolated. */
  lemma EveryHistoryIsIsolated(retryMax: int, steps: seq<Step>)
    requires LegalRun(retryMax, EMPTY, steps)
    ensures Isolated(Run(retryMax, EMPTY, steps))
  {
    EveryRunIsIsolated(retryMax, EMPTY, steps);
  }
}
