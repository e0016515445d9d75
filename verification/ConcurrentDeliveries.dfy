/** Deliveries of one event by any number of concurrent workers.

    A delivery reads the event row, posts while holding only that snapshot, and then writes the
    row and its log entry in one commit.  A commit writes a column only if its new value differs
    from the snapshot, as the ORM's flush does.
 */
module ConcurrentDeliveries {
  import opened Basics
  import opened WebhookEngine

  datatype Row = Row(attempt: int, success: bool)

  /** A worker between its read and its commit; `posted` is the outcome of the POST once known, and
      `readAt`, a history, the length of the log at its read. */
  datatype Flight = Flight(snapshot: Event, readAt: nat, posted: Option<bool>)

  datatype World = World(event: Event, log: seq<Row>, flights: map<nat, Flight>)

  function Fresh(workspace: string, provider: string): World {
    World(Event(workspace, provider, Pending, 0, None), [], map[])
  }

  datatype Step =
    | Read(worker: nat)
    | Post(worker: nat, success: bool)
    | Commit(worker: nat, at: real)

  predicate Enabled(w: World, step: Step) {
    match step
    case Read(k) => k !in w.flights
    case Post(k, _) => k in w.flights && w.flights[k].posted.None?
    case Commit(k, _) => k in w.flights && w.flights[k].posted.Some?
  }

  /** What the worker's session flushes over the current row. */
  function Flush(row: Event, snapshot: Event, success: bool, at: real): Event {
    var status := if success then Delivered else Failed;
    row.(status := if status != snapshot.status then status else row.status,
         attempts := snapshot.attempts + 1,
         deliveredAt := if success && Some(at) != snapshot.deliveredAt then Some(at) else row.deliveredAt)
  }

  function Apply(w: World, step: Step): World
    requires Enabled(w, step)
  {
    match step
    case Read(k) => w.(flights := w.flights[k := Flight(w.event, |w.log|, None)])
    case Post(k, success) => w.(flights := w.flights[k := w.flights[k].(posted := Some(success))])
    case Commit(k, at) =>
      var f := w.flights[k];
      World(Flush(w.event, f.snapshot, f.posted.value, at),
            w.log + [Row(f.snapshot.attempts + 1, f.posted.value)],
            w.flights - {k})
  }

  ghost predicate LegalRun(w: World, steps: seq<Step>)
    decreases |steps|
  {
    steps != [] ==> Enabled(w, steps[0]) && LegalRun(Apply(w, steps[0]), steps[1..])
  }

  ghost function Run(w: World, steps: seq<Step>): World
    requires LegalRun(w, steps)
    decreases |steps|
  {
    if steps == [] then w else Run(Apply(w, steps[0]), steps[1..])
  }

  // ---------------------------------------------------------------------- invariants

  ghost predicate SomeSuccess(log: seq<Row>) {
    exists i :: 0 <= i < |log| && log[i].success
  }

  ghost predicate Numbered(log: seq<Row>) {
    forall i :: 0 <= i < |log| ==> log[i].attempt == i + 1
  }

  ghost predicate Consistent(w: World) {
    && 0 <= w.event.attempts <= |w.log|
    && w.event.attempts == (if w.log == [] then 0 else w.log[|w.log| - 1].attempt)
    && (forall i :: 0 <= i < |w.log| ==> 1 <= w.log[i].attempt <= i + 1)
    && (forall k :: k in w.flights ==> 0 <= w.flights[k].snapshot.attempts <= |w.log|)
    && (w.event.deliveredAt.Some? <==> SomeSuccess(w.log))
    && (forall k :: k in w.flights ==> w.flights[k].snapshot.deliveredAt.Some? ==> SomeSuccess(w.log))
    && (w.event.attempts == |w.log| ==> Numbered(w.log))
    && (forall k :: k in w.flights && w.flights[k].snapshot.attempts == |w.log| ==> w.event.attempts == |w.log|)
  }

  lemma StepIsConsistent(w: World, step: Step)
    requires Consistent(w) && Enabled(w, step)
    ensures Consistent(Apply(w, step))
  {
    if step.Commit? {
      var w' := Apply(w, step);
      var n := |w.log|;
      if SomeSuccess(w.log) {
        var i :| 0 <= i < n && w.log[i].success;
        assert w'.log[i].success;
      }
      if w'.log[n].success {
        assert SomeSuccess(w'.log);
      } else {
        assert forall i :: 0 <= i <= n && w'.log[i].success ==> i < n && w.log[i].success;
      }
    }
  }

  /** Under every interleaving of any number of workers: attempts never exceeds the number of
      delivery rows, nor does any in-flight snapshot; it is the number on the last committed row;
      delivered_at is set exactly when some row succeeded; and no row is numbered beyond its place. */
  lemma {:induction false} EveryInterleavingIsConsistent(w: World, steps: seq<Step>)
    requires Consistent(w) && LegalRun(w, steps)
    ensures Consistent(Run(w, steps))
    decreases |steps|
  {
    if steps != [] {
      StepIsConsistent(w, steps[0]);
      EveryInterleavingIsConsistent(Apply(w, steps[0]), steps[1..]);
    }
  }

  /** So every interleaving of workers on a new event is consistent. */
  lemma EveryHistoryIsConsistent(workspace: string, provider: string, steps: seq<Step>)
    requires LegalRun(Fresh(workspace, provider), steps)
    ensures Consistent(Run(Fresh(workspace, provider), steps))
  {
    EveryInterleavingIsConsistent(Fresh(workspace, provider), steps);
  }

  /** A worker nobody interferes with is the delivery of the sequential engine. */
  lemma UninterruptedIsDeliver(w: World, k: nat, s: Store, event: nat, t: Try)
    requires k !in w.flights && event < |s.events| && s.events[event] == w.event && !t.reply.TargetRejected?
    ensures var o := Deliver(s, event, t);
            var read := Apply(w, Read(k));
            var posted := Apply(read, Post(k, Succeeds(t.reply)));
            var committed := Apply(posted, Commit(k, t.at));
            && committed.event == o.store.events[event]
            && committed.flights == w.flights
            && committed.log == w.log + [Row(w.event.attempts + 1, Succeeds(t.reply))]
            && o.store.deliveries[|s.deliveries|].attempt == w.event.attempts + 1
            && o.store.deliveries[|s.deliveries|].success == Succeeds(t.reply)
  {
    assert w.flights[k := Flight(w.event, |w.log|, Some(Succeeds(t.reply)))] - {k} == w.flights;
  }

  // --------------------------------------------------------------------- lost attempts

  /** While no attempt is lost, the attempts of a snapshot are the rows there were at its read. */
  ghost predicate Tracked(w: World) {
    && Consistent(w)
    && (forall k :: k in w.flights ==> w.flights[k].snapshot.attempts <= w.flights[k].readAt <= |w.log|)
    && (w.event.attempts == |w.log| ==>
          forall k :: k in w.flights ==> w.flights[k].snapshot.attempts == w.flights[k].readAt)
  }

  lemma StepIsTracked(w: World, step: Step)
    requires Tracked(w) && Enabled(w, step)
    ensures Tracked(Apply(w, step))
  {
    StepIsConsistent(w, step);
  }

  /** A commit leaves the count exact if and only if it was exact and nobody has committed since this
      worker's read: a lost attempt is never found again. */
  lemma CommitKeepsCountIff(w: World, k: nat, at: real)
    requires Tracked(w) && Enabled(w, Commit(k, at))
    ensures var after := Apply(w, Commit(k, at));
            after.event.attempts == |after.log| <==>
              w.event.attempts == |w.log| && w.flights[k].readAt == |w.log|
  {
  }

  /** Every commit happens at the log length of its own worker's read. */
  ghost predicate NoCommitInBetween(w: World, steps: seq<Step>)
    requires LegalRun(w, steps)
    decreases |steps|
  {
    steps != [] ==>
      && (steps[0].Commit? ==> w.flights[steps[0].worker].readAt == |w.log|)
      && NoCommitInBetween(Apply(w, steps[0]), steps[1..])
  }

  lemma {:induction false} CountStaysExactIff(w: World, steps: seq<Step>)
    requires Tracked(w) && LegalRun(w, steps)
    ensures Tracked(Run(w, steps))
    ensures var after := Run(w, steps);
            after.event.attempts == |after.log| <==> w.event.attempts == |w.log| && NoCommitInBetween(w, steps)
    decreases |steps|
  {
    if steps != [] {
      StepIsTracked(w, steps[0]);
      CountStaysExactIff(Apply(w, steps[0]), steps[1..]);
    }
  }

  /** When concurrent deliveries lose attempts, over all schedules of any number of workers on a new event:
      attempts equals the number of rows, and the rows are numbered 1, 2, ... without repetition, if and
      only if no commit of the schedule came between the read and the commit of another worker. */
  lemma NothingLostIff(workspace: string, provider: string, steps: seq<Step>)
    requires LegalRun(Fresh(workspace, provider), steps)
    ensures var w := Fresh(workspace, provider);
            var after := Run(w, steps);
            && (after.event.attempts == |after.log| <==> NoCommitInBetween(w, steps))
            && (Numbered(after.log) <==> NoCommitInBetween(w, steps))
  {
    CountStaysExactIff(Fresh(workspace, provider), steps);
  }

  /** After a commit the status is its own outcome, unless the outcome equals the status in a stale
      snapshot, which is then not written. */
  lemma CommitSetsStatusIff(w: World, k: nat, at: real)
    requires Enabled(w, Commit(k, at))
    ensures var outcome := if w.flights[k].posted.value then Delivered else Failed;
            Apply(w, Commit(k, at)).event.status == outcome
            <==> (w.flights[k].snapshot.status != outcome || w.event.status == outcome)
  {
  }

  // ------------------------------------------------------------------ lost updates

  function Whole(worker: nat, success: bool): seq<Step> {
    [Read(worker), Post(worker, success), Commit(worker, 0.0)]
  }

  lemma {:induction false} RunSplits(w: World, first: seq<Step>, second: seq<Step>)
    requires LegalRun(w, first) && LegalRun(Run(w, first), second)
    ensures LegalRun(w, first + second) && Run(w, first + second) == Run(Run(w, first), second)
    decreases |first|
  {
    if first == [] {
      assert first + second == second;
    } else {
      assert (first + second)[1..] == first[1..] + second;
      RunSplits(Apply(w, first[0]), first[1..], second);
    }
  }

  lemma RunThree(w: World, a: Step, b: Step, c: Step)
    requires Enabled(w, a) && Enabled(Apply(w, a), b) && Enabled(Apply(Apply(w, a), b), c)
    ensures LegalRun(w, [a, b, c]) && Run(w, [a, b, c]) == Apply(Apply(Apply(w, a), b), c)
  {
    assert [a, b, c][1..] == [b, c] && [b, c][1..] == [c];
    assert LegalRun(Apply(Apply(w, a), b), [c]);
    assert LegalRun(Apply(w, a), [b, c]);
    assert Run(Apply(Apply(w, a), b), [c]) == Apply(Apply(Apply(w, a), b), c);
    assert Run(Apply(w, a), [b, c]) == Apply(Apply(Apply(w, a), b), c);
  }

  function Attempted(w: World, n: nat): World {
    if n == 0 then w
    else
      var before := Attempted(w, n - 1);
      World(Flush(before.event, before.event, false, 0.0), before.log + [Row(before.event.attempts + 1, false)],
            before.flights)
  }

  function Attempts(n: nat): seq<Step> {
    if n == 0 then [] else Attempts(n - 1) + Whole(1, false)
  }

  lemma {:induction false} AttemptsRun(w: World, n: nat)
    requires 1 !in w.flights
    ensures LegalRun(w, Attempts(n)) && Run(w, Attempts(n)) == Attempted(w, n)
    ensures Attempted(w, n).event.attempts == w.event.attempts + n && Attempted(w, n).flights == w.flights
    decreases n
  {
    if n > 0 {
      AttemptsRun(w, n - 1);
      var before := Attempted(w, n - 1);
      RunThree(before, Read(1), Post(1, false), Commit(1, 0.0));
      assert Apply(Apply(Apply(before, Read(1)), Post(1, false)), Commit(1, 0.0)).flights == before.flights;
      RunSplits(w, Attempts(n - 1), Whole(1, false));
    }
  }

  /** A slow worker sets the count back: whatever the retry budget n >= 1, an event that has just
      exhausted it with n failed attempts is back at one attempt after a late commit. */
  lemma LateCommitReopensBudget(workspace: string, provider: string, n: nat)
    requires n >= 1
    ensures var fresh' := Fresh(workspace, provider);
            var steps := [Read(0), Post(0, false)] + Attempts(n);
            && LegalRun(fresh', steps)
            && Run(fresh', steps).event.attempts == n
            && Enabled(Run(fresh', steps), Commit(0, 1.0))
            && Apply(Run(fresh', steps), Commit(0, 1.0)).event.attempts == 1
  {
    var fresh' := Fresh(workspace, provider);
    var first := [Read(0), Post(0, false)];
    assert first[1..] == [Post(0, false)];
    assert LegalRun(Apply(fresh', Read(0)), [Post(0, false)]);
    assert Run(Apply(fresh', Read(0)), [Post(0, false)]) == Apply(Apply(fresh', Read(0)), Post(0, false));
    var w := Run(fresh', first);
    AttemptsRun(w, n);
    RunSplits(fresh', first, Attempts(n));
  }

  /** What a commit writes over whatever the event has become: the delivery time only on success, and then its own
      unless the snapshot held the same; nothing else but status and attempts. */
  lemma CommitSetsDeliveredAt(w: World, k: nat, at: real)
    requires Enabled(w, Commit(k, at))
    ensures var f := w.flights[k];
            var after := Apply(w, Commit(k, at));
            && after.event.deliveredAt == (if f.posted.value && f.snapshot.deliveredAt != Some(at) then Some(at)
                                           else w.event.deliveredAt)
            && after.event.workspace == w.event.workspace && after.event.provider == w.event.provider
            && after.event.attempts == f.snapshot.attempts + 1
            && after.log == w.log + [Row(after.event.attempts, f.posted.value)]
  {
  }
}
