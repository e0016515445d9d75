/** The OAuth manager when transactions do not overlap: one-time states, invisible cleanup and
    refresh chains.
 */
module OAuthSequential {
  import opened Basics
  import opened OAuthManager
  import opened OAuthFlows

  // ----------------------------------------------------------------- sequential runs

  datatype Op =
    | NewFlow(state: string, a: Authorization)
    | HandleCallback(provider: string, state: string, now: real, reply: Reply, done: real)
    | RefreshOne(key: Key, readable: bool, reply: Reply, now: real)
    | RevokeOne(key: Key, hasRevokeUrl: bool, readable: bool)
    | DisconnectOne(key: Key)
    | CleanupStates(now: real)
    | PurgeOld(now: real)

  /** What a callback shows to the outside: the exchange it sent and its result. */
  datatype View = View(sent: Option<Exchange>, result: Result)

  /** Both answers redirect to the same failure page: a state that was not found, or was too old. */
  function Seen(r: Result): Result {
    if r.ExpiredState? then InvalidState else r
  }

  function SentBy(base: string, db: Db, op: Op): Option<Exchange>
    requires op.HandleCallback?
  {
    match FindState(db, op.provider, op.state, op.now)
    case Valid(row) => Some(ExchangeFor(base, op.state, row))
    case _ => None
  }

  function ViewOf(base: string, db: Db, op: Op): seq<View> {
    if op.HandleCallback?
    then [View(SentBy(base, db, op), Seen(Callback(db, op.provider, op.state, op.now, op.reply, op.done).1))]
    else []
  }

  function DoOp(base: string, db: Db, op: Op): Db {
    match op
    case NewFlow(state, a) => db.(states := db.states[state := NewState(base, a)])
    case HandleCallback(provider, state, now, reply, done) => Callback(db, provider, state, now, reply, done).0
    case RefreshOne(key, readable, reply, now) =>
      if key !in db.connections then db
      else db.(connections := db.connections[key := Refresh(db.connections[key], readable, reply, now).0])
    case RevokeOne(key, hasRevokeUrl, readable) =>
      if key !in db.connections then db
      else db.(connections := db.connections[key := Revoke(db.connections[key], hasRevokeUrl, readable)])
    case DisconnectOne(key) =>
      if GetConnection(db, key).None? then db
      else db.(connections := db.connections[key := db.connections[key].(status := Disconnected, active := false)])
    case CleanupStates(now) => Cleanup(db, now)
    case PurgeOld(now) => PurgeCredentials(db, now)
  }

  function After(base: string, db: Db, ops: seq<Op>): Db
    decreases |ops|
  {
    if ops == [] then db else After(base, DoOp(base, db, ops[0]), ops[1..])
  }

  function Views(base: string, db: Db, ops: seq<Op>): seq<View>
    decreases |ops|
  {
    if ops == [] then [] else ViewOf(base, db, ops[0]) + Views(base, DoOp(base, db, ops[0]), ops[1..])
  }

  /** State tokens are fresh, and the clock does not go back. */
  ghost predicate LegalOps(issued: set<string>, clock: real, ops: seq<Op>)
    decreases |ops|
  {
    ops != [] ==>
      match ops[0]
      case NewFlow(state, _) => state !in issued && LegalOps(issued + {state}, clock, ops[1..])
      case HandleCallback(_, _, now, _, done) => clock <= now <= done && LegalOps(issued, done, ops[1..])
      case CleanupStates(now) => clock <= now && LegalOps(issued, now, ops[1..])
      case _ => LegalOps(issued, clock, ops[1..])
  }

  /** A sequential callback is its two interleaved halves with nothing in between. */
  lemma SequentialCallbackIsInterleaved(
    base: string, w: World, f: nat, provider: string, state: string, now: real, reply: Reply, done: real)
    requires f !in w.flights && FindState(w.db, provider, state, now).Valid?
    ensures var begun := Apply(base, w, BeginCallback(f, provider, state, now));
            && Enabled(begun, EndCallback(f, reply, done))
            && Apply(base, begun, EndCallback(f, reply, done)).db == Callback(w.db, provider, state, now, reply, done).0
            && Apply(base, begun, EndCallback(f, reply, done)).flights == w.flights
  {
    var begun := Apply(base, w, BeginCallback(f, provider, state, now));
    assert begun.flights - {f} == w.flights;
  }

  lemma SequentialRefreshIsInterleaved(
    base: string, w: World, f: nat, key: Key, readable: bool, reply: Reply, now: real)
    requires f !in w.flights && key in w.db.connections
    requires RefreshTokenOf(w.db.connections[key], readable).Some?
    ensures var begun := Apply(base, w, BeginRefresh(f, key, readable));
            && Enabled(begun, EndRefresh(f, reply, now))
            && Apply(base, begun, EndRefresh(f, reply, now)).db.connections
               == w.db.connections[key := Refresh(w.db.connections[key], readable, reply, now).0]
  {
    var c := w.db.connections[key];
    assert w.db.connections[key := c] == w.db.connections;
  }

  lemma SequentialRevokeIsInterleaved(base: string, w: World, f: nat, key: Key, hasRevokeUrl: bool, readable: bool)
    requires f !in w.flights && key in w.db.connections
    ensures var begun := Apply(base, w, BeginRevoke(f, key, hasRevokeUrl, readable));
            var ended := if f in begun.flights then Apply(base, begun, EndRevoke(f)) else begun;
            && ended.db == w.db.(connections :=
                 w.db.connections[key := Revoke(w.db.connections[key], hasRevokeUrl, readable)])
            && ended.flights == w.flights
  {
    var c := w.db.connections[key];
    assert w.db.connections[key := c] == w.db.connections;
    var begun := Apply(base, w, BeginRevoke(f, key, hasRevokeUrl, readable));
    assert begun.flights - {f} == w.flights;
  }

  /** The other operations are single transactions of the machine. */
  lemma SequentialOpIsStep(base: string, w: World, op: Op)
    ensures op.NewFlow? && op.state !in w.urls ==> DoOp(base, w.db, op) == Apply(base, w, Authorize(op.state, op.a)).db
    ensures op.CleanupStates? ==> DoOp(base, w.db, op) == Apply(base, w, DoCleanup(op.now)).db
    ensures op.PurgeOld? ==> DoOp(base, w.db, op) == Apply(base, w, DoPurge(op.now)).db
    ensures op.DisconnectOne? ==>
              DoOp(base, w.db, op)
              == if Enabled(w, DoDisconnect(op.key)) then Apply(base, w, DoDisconnect(op.key)).db else w.db
  {
  }

  // ------------------------------------------------------------------ one-time states

  /** The states whose callbacks committed a connection, in order. */
  function Committed(base: string, db: Db, ops: seq<Op>): seq<string>
    decreases |ops|
  {
    if ops == [] then []
    else
      var op := ops[0];
      var rest := Committed(base, DoOp(base, db, op), ops[1..]);
      if op.HandleCallback? && Callback(db, op.provider, op.state, op.now, op.reply, op.done).1.Stored?
      then [op.state] + rest
      else rest
  }

  /** States that can no longer be consumed. */
  ghost predicate Spent(db: Db, issued: set<string>, state: string) {
    state in issued && (state in db.states ==> db.states[state].consumed)
  }

  lemma {:induction false} SpentIsForever(
    base: string, db: Db, issued: set<string>, clock: real, ops: seq<Op>, state: string)
    requires LegalOps(issued, clock, ops) && Spent(db, issued, state)
    ensures state !in Committed(base, db, ops)
    decreases |ops|
  {
    if ops != [] {
      var issued' := if ops[0].NewFlow? then issued + {ops[0].state} else issued;
      var clock' := if ops[0].HandleCallback? then ops[0].done
                    else if ops[0].CleanupStates? then ops[0].now else clock;
      SpentIsForever(base, DoOp(base, db, ops[0]), issued', clock', ops[1..], state);
    }
  }

  ghost predicate NoRepeats(states: seq<string>) {
    forall i, j :: 0 <= i < j < |states| ==> states[i] != states[j]
  }

  /** In sequential runs every state commits at most one callback, whatever is cleaned up, purged,
      refreshed or revoked in between. */
  lemma {:induction false} StatesAreOneTime(base: string, db: Db, issued: set<string>, clock: real, ops: seq<Op>)
    requires LegalOps(issued, clock, ops) && db.states.Keys <= issued
    ensures NoRepeats(Committed(base, db, ops))
    decreases |ops|
  {
    if ops != [] {
      var op := ops[0];
      var issued' := if op.NewFlow? then issued + {op.state} else issued;
      var clock' := if op.HandleCallback? then op.done else if op.CleanupStates? then op.now else clock;
      var next := DoOp(base, db, op);
      StatesAreOneTime(base, next, issued', clock', ops[1..]);
      if op.HandleCallback? && Callback(db, op.provider, op.state, op.now, op.reply, op.done).1.Stored? {
        SpentIsForever(base, next, issued', clock', ops[1..], op.state);
        var done, rest := Committed(base, db, ops), Committed(base, next, ops[1..]);
        assert done == [op.state] + rest;
        forall i, j | 0 <= i < j < |done| ensures done[i] != done[j] {
          assert done[j] == rest[j - 1] && rest[j - 1] in rest;
        }
      }
    }
  }

  // ------------------------------------------------------------------ cleanup is invisible

  function Strip(ops: seq<Op>): seq<Op>
    decreases |ops|
  {
    if ops == [] then []
    else if ops[0].CleanupStates? then Strip(ops[1..])
    else [ops[0]] + Strip(ops[1..])
  }

  /** `swept` is `kept` without some states that no callback can use from now on. */
  ghost predicate SweptOf(kept: Db, swept: Db, clock: real) {
    && swept.connections == kept.connections
    && swept.credentials == kept.credentials
    && (forall t :: t in swept.states ==> t in kept.states && swept.states[t] == kept.states[t])
    && (forall t :: t in kept.states && t !in swept.states ==> Disposable(kept.states[t], clock))
  }

  /** Cleanup keeps exactly the states that a callback could still use. */
  lemma CleanupKeepsUsableStates(db: Db, now: real, t: string)
    ensures t in Cleanup(db, now).states
       <==> t in db.states && FindState(db, db.states[t].key.provider, t, now).Valid?
    ensures t in Cleanup(db, now).states ==> Cleanup(db, now).states[t] == db.states[t]
  {
  }

  lemma SettlePreservesSweep(kept: Db, swept: Db, clock: real, state: string, row: StateRow, reply: Reply, now: real)
    requires SweptOf(kept, swept, clock) && state in swept.states && clock <= now
    ensures Settle(kept, state, row, reply, now).1 == Settle(swept, state, row, reply, now).1
    ensures SweptOf(Settle(kept, state, row, reply, now).0, Settle(swept, state, row, reply, now).0, now)
  {
  }

  lemma ConsumePreservesSweep(kept: Db, swept: Db, clock: real, state: string, now: real)
    requires SweptOf(kept, swept, clock) && state in kept.states && clock <= now
    ensures SweptOf(Consume(kept, state), if state in swept.states then Consume(swept, state) else swept, now)
  {
  }

  lemma CallbackPreservesSweep(base: string, kept: Db, swept: Db, clock: real, op: Op)
    requires SweptOf(kept, swept, clock) && op.HandleCallback? && clock <= op.now <= op.done
    ensures ViewOf(base, kept, op) == ViewOf(base, swept, op)
    ensures SweptOf(DoOp(base, kept, op), DoOp(base, swept, op), op.done)
  {
    var k := FindState(kept, op.provider, op.state, op.now);
    var s := FindState(swept, op.provider, op.state, op.now);
    if op.state in swept.states {
      assert k == s;
    } else {
      assert s.Missing? && !k.Valid?;
    }
    if s.Valid? {
      SettlePreservesSweep(kept, swept, clock, op.state, s.row, op.reply, op.done);
    } else if k.Expired? {
      ConsumePreservesSweep(kept, swept, clock, op.state, op.done);
    }
    hide Settle;
    hide Consume;
  }

  lemma OtherPreservesSweep(base: string, kept: Db, swept: Db, clock: real, op: Op)
    requires SweptOf(kept, swept, clock) && !op.HandleCallback? && !op.CleanupStates?
    requires op.NewFlow? ==> op.state !in kept.states
    ensures SweptOf(DoOp(base, kept, op), DoOp(base, swept, op), clock)
  {
  }

  lemma SweptSame(kept: Db, swept: Db, clock: real)
    requires SweptOf(kept, swept, clock)
    ensures kept.connections == swept.connections && kept.credentials == swept.credentials
  {
  }

  lemma StatesAreIssued(base: string, db: Db, issued: set<string>, op: Op)
    requires db.states.Keys <= issued
    ensures DoOp(base, db, op).states.Keys <= if op.NewFlow? then issued + {op.state} else issued
  {
  }

  lemma CleanupPreservesSweep(kept: Db, swept: Db, clock: real, now: real)
    requires SweptOf(kept, swept, clock) && clock <= now
    ensures SweptOf(kept, Cleanup(swept, now), now)
  {
  }

  /** Cleanup is invisible: deleting consumed and expired states, at any times, never changes what any
      callback sends, answers or stores.  A run with cleanups and the same run without them show the
      same views and end with the same connections and credentials. */
  lemma {:induction false} CleanupIsInvisible(
    base: string, kept: Db, swept: Db, issued: set<string>, clock: real, ops: seq<Op>)
    requires LegalOps(issued, clock, ops) && kept.states.Keys <= issued && SweptOf(kept, swept, clock)
    ensures Views(base, kept, Strip(ops)) == Views(base, swept, ops)
    ensures After(base, kept, Strip(ops)).connections == After(base, swept, ops).connections
    ensures After(base, kept, Strip(ops)).credentials == After(base, swept, ops).credentials
    decreases |ops|
  {
    hide SweptOf;
    hide FindState;
    if ops == [] {
      SweptSame(kept, swept, clock);
    } else {
      var op, rest := ops[0], ops[1..];
      if op.CleanupStates? {
        CleanupPreservesSweep(kept, swept, clock, op.now);
        CleanupIsInvisible(base, kept, Cleanup(swept, op.now), issued, op.now, rest);
        assert Views(base, swept, ops) == Views(base, Cleanup(swept, op.now), rest);
      } else {
        var issued' := if op.NewFlow? then issued + {op.state} else issued;
        var clock' := if op.HandleCallback? then op.done else clock;
        if op.HandleCallback? {
          CallbackPreservesSweep(base, kept, swept, clock, op);
        } else {
          OtherPreservesSweep(base, kept, swept, clock, op);
        }
        StatesAreIssued(base, kept, issued, op);
        hide DoOp;
        var kept', swept' := DoOp(base, kept, op), DoOp(base, swept, op);
        CleanupIsInvisible(base, kept', swept', issued', clock', rest);
        assert Strip(ops)[0] == op && Strip(ops)[1..] == Strip(rest);
        assert ViewOf(base, kept, op) == ViewOf(base, swept, op);
      }
    }
  }

  // ------------------------------------------------------------------- refresh chains

  datatype Renewal = Renewal(reply: Reply, now: real)

  function RefreshChain(c: Connection, renewals: seq<Renewal>): Connection
    decreases |renewals|
  {
    if renewals == [] then c
    else RefreshChain(Refresh(c, true, renewals[0].reply, renewals[0].now).0, renewals[1..])
  }

  /** The refresh token text after a chain of successful refreshes: the last one the provider sent. */
  function LastSent(was: string, renewals: seq<Renewal>): string
    requires forall i :: 0 <= i < |renewals| ==> Grants(renewals[i].reply)
    decreases |renewals|
  {
    if renewals == [] then was
    else
      assert Grants(renewals[|renewals| - 1].reply);
      var last := renewals[|renewals| - 1].reply.refresh;
      if Given(last).Some? then last.value else LastSent(was, renewals[..|renewals| - 1])
  }

  lemma {:induction false} ChainSplits(c: Connection, first: seq<Renewal>, last: Renewal)
    ensures RefreshChain(c, first + [last]) == Refresh(RefreshChain(c, first), true, last.reply, last.now).0
    decreases |first|
  {
    if first == [] {
      assert [last][1..] == [];
    } else {
      assert (first + [last])[1..] == first[1..] + [last];
      ChainSplits(Refresh(c, true, first[0].reply, first[0].now).0, first[1..], last);
    }
  }

  /** Any number of successful refreshes, each ended before the next begins, keeps a refresh token, replaced
      exactly when the provider sends one (section 6 of RFC 6749); the access token is the last
      one sent; status, activity and scopes do not change. */
  lemma {:induction false} RefreshKeepsRefreshToken(c: Connection, renewals: seq<Renewal>)
    requires RefreshTokenOf(c, true).Some?
    requires forall i :: 0 <= i < |renewals| ==> Grants(renewals[i].reply)
    ensures var after := RefreshChain(c, renewals);
            && RefreshTokenOf(after, true).Some?
            && RefreshTokenOf(after, true).value.text == LastSent(RefreshTokenOf(c, true).value.text, renewals)
            && (renewals != [] ==> after.blob.value.access.text == renewals[|renewals| - 1].reply.access)
            && after.status == c.status && after.active == c.active && after.scopes == c.scopes
    decreases |renewals|
  {
    if renewals != [] {
      var first, last := renewals[..|renewals| - 1], renewals[|renewals| - 1];
      RefreshKeepsRefreshToken(c, first);
      assert renewals == first + [last];
      ChainSplits(c, first, last);
    }
  }

  /** How a refresh ends: it succeeds exactly when the blob is readable and holds a refresh token and the
      provider grants one; it is answered by "token expired" exactly when there was nothing to present or
      the provider refused.  Whether the connection is active plays no part. */
  lemma RefreshSucceedsIff(c: Connection, readable: bool, reply: Reply, now: real)
    ensures var presentable := readable && c.blob.Some? && Given(TextOf(c.blob.value.refresh)).Some?;
            && (Refresh(c, readable, reply, now).1.Refreshed? <==> presentable && Grants(reply))
            && (Refresh(c, readable, reply, now).1.Refused? <==>
                  !presentable || reply.NoAccessToken? || reply.Keyless? || reply.HttpError? || reply.TransportError?)
    ensures !Refresh(c, readable, reply, now).1.Refreshed? ==> Refresh(c, readable, reply, now).0 == c
    ensures Refresh(c.(active := false), readable, reply, now)
         == (Refresh(c, readable, reply, now).0.(active := false), Refresh(c, readable, reply, now).1)
  {
  }

  function TextOf(t: Option<Token>): Option<string> {
    if t.Some? then Some(t.value.text) else None
  }

  /** What the batch refresh selects.  Its look-ahead parameter is never read: only a missing or already
      passed expiry counts. */
  predicate Due(c: Connection, now: real) {
    c.active && c.blob.Some? && (c.expiresAt.None? || c.expiresAt.value <= now)
  }

  /** After a granted refresh an active connection is selected again exactly from the end of the lifetime it was
      sent, at once after a malformed one, and as before when it was sent none.  Neither an inactive nor a
      tokenless connection is ever selected. */
  lemma RefreshedIsDueIff(c: Connection, readable: bool, reply: Reply, now: real, t: real)
    requires Refresh(c, readable, reply, now).1.Refreshed?
    ensures var after := Refresh(c, readable, reply, now).0;
            && (reply.expiresIn.Seconds? && reply.expiresIn.n != 0 ==>
                  (Due(after, t) <==> c.active && t >= now + reply.expiresIn.n as real))
            && (reply.expiresIn.Malformed? ==> (Due(after, t) <==> c.active))
            && (reply.expiresIn == Absent || reply.expiresIn == Seconds(0) ==> (Due(after, t) <==> Due(c, t)))
    ensures !Due(c.(active := false), t) && !Due(c.(blob := None), t)
  {
  }

  ghost function DueKeys(db: Db, now: real): set<Key> {
    set key | key in db.connections && Due(db.connections[key], now)
  }

  ghost predicate AllDue(db: Db, batch: seq<Attempt>, now: real) {
    forall i :: 0 <= i < |batch| ==> batch[i].key in db.connections && Due(db.connections[batch[i].key], now)
  }

  /** Any rows the query may return: distinct, due, as many as its limit allows. */
  ghost predicate SelectedForRefresh(db: Db, batch: seq<Attempt>, limit: nat, now: real) {
    && AllDue(db, batch, now)
    && (forall i, j :: 0 <= i < j < |batch| ==> batch[i].key != batch[j].key)
    && |batch| == if limit <= |DueKeys(db, now)| then limit else |DueKeys(db, now)|
  }

  ghost predicate Picked(batch: seq<Attempt>, key: Key) {
    exists i :: 0 <= i < |batch| && batch[i].key == key
  }

  lemma {:induction false} PickedAreAsManyAsTheBatch(batch: seq<Attempt>) returns (keys: set<Key>)
    requires forall i, j :: 0 <= i < j < |batch| ==> batch[i].key != batch[j].key
    ensures |keys| == |batch| && forall key :: key in keys <==> Picked(batch, key)
    decreases |batch|
  {
    if batch == [] {
      keys := {};
    } else {
      var init, last := batch[..|batch| - 1], batch[|batch| - 1].key;
      var before := PickedAreAsManyAsTheBatch(init);
      assert !Picked(init, last);
      keys := before + {last};
      forall key ensures key in keys <==> Picked(batch, key) {
        if key in before {
          var i :| 0 <= i < |init| && init[i].key == key;
          assert batch[i].key == key;
        }
        if key == last {
          assert batch[|batch| - 1].key == key;
        }
        if Picked(batch, key) && key != last {
          var i :| 0 <= i < |batch| && batch[i].key == key;
          assert init[i].key == key;
        }
      }
    }
  }

  /** The batch reaches every due connection if and only if its limit is not below their number. */
  lemma BatchReachesAllDueIff(db: Db, batch: seq<Attempt>, limit: nat, now: real)
    requires SelectedForRefresh(db, batch, limit, now)
    ensures (forall key :: key in DueKeys(db, now) ==> Picked(batch, key)) <==> |DueKeys(db, now)| <= limit
  {
    var keys := PickedAreAsManyAsTheBatch(batch);
    SubsetOfSameSizeIff(keys, DueKeys(db, now));
  }

  lemma SubsetOfSameSizeIff<T>(small: set<T>, large: set<T>)
    requires small <= large
    ensures large <= small <==> |small| == |large|
  {
    assert |large - small| == |large| - |small|;
    assert large <= small <==> large - small == {};
  }

  lemma {:induction false} BatchTouchesOnlyPicked(db: Db, batch: seq<Attempt>, now: real, key: Key)
    requires forall i :: 0 <= i < |batch| ==> batch[i].key in db.connections && batch[i].key != key
    ensures RefreshAll(db, batch, now).0.connections.Keys == db.connections.Keys
    ensures key in db.connections ==> RefreshAll(db, batch, now).0.connections[key] == db.connections[key]
    decreases |batch|
  {
    if batch != [] {
      var c := Refresh(db.connections[batch[0].key], batch[0].readable, batch[0].reply, now).0;
      var next := db.(connections := db.connections[batch[0].key := c]);
      assert forall i :: 0 <= i < |batch[1..]| ==> batch[1..][i] == batch[i + 1];
      BatchTouchesOnlyPicked(next, batch[1..], now, key);
    }
  }

  lemma {:induction false} BatchRefreshesThePicked(db: Db, batch: seq<Attempt>, now: real)
    requires AllDue(db, batch, now)
    requires forall i, j :: 0 <= i < j < |batch| ==> batch[i].key != batch[j].key
    ensures forall i :: 0 <= i < |batch| ==>
              RefreshAll(db, batch, now).0.connections[batch[i].key]
              == Refresh(db.connections[batch[i].key], batch[i].readable, batch[i].reply, now).0
    ensures forall key :: key in db.connections && !Picked(batch, key) ==>
              RefreshAll(db, batch, now).0.connections[key] == db.connections[key]
    ensures RefreshAll(db, batch, now).0.states == db.states
    ensures RefreshAll(db, batch, now).0.credentials == db.credentials
    decreases |batch|
  {
    if batch != [] {
      var first, rest := batch[0], batch[1..];
      var next := db.(connections :=
        db.connections[first.key := Refresh(db.connections[first.key], first.readable, first.reply, now).0]);
      assert forall i :: 0 <= i < |rest| ==> rest[i] == batch[i + 1];
      BatchTouchesOnlyPicked(next, rest, now, first.key);
      BatchRefreshesThePicked(next, rest, now);
      forall key | key in db.connections && !Picked(batch, key)
        ensures RefreshAll(db, batch, now).0.connections[key] == db.connections[key]
      {
        BatchTouchesOnlyPicked(db, batch, now, key);
      }
      forall i | 0 <= i < |batch|
        ensures RefreshAll(db, batch, now).0.connections[batch[i].key]
             == Refresh(db.connections[batch[i].key], batch[i].readable, batch[i].reply, now).0
      {
        if i > 0 {
          assert batch[i] == rest[i - 1];
          assert next.connections[batch[i].key] == db.connections[batch[i].key];
        }
      }
    }
  }

  /** The attempts of a batch that succeed, each on its connection as the batch found it. */
  function Succeeding(db: Db, batch: seq<Attempt>, now: real): nat
    requires forall i :: 0 <= i < |batch| ==> batch[i].key in db.connections
    decreases |batch|
  {
    if batch == [] then 0
    else
      var result := Refresh(db.connections[batch[0].key], batch[0].readable, batch[0].reply, now).1;
      (if result.Refreshed? then 1 else 0) + Succeeding(db, batch[1..], now)
  }

  lemma {:induction false} SucceedingFrame(db: Db, db': Db, batch: seq<Attempt>, now: real)
    requires forall i :: 0 <= i < |batch| ==>
               batch[i].key in db.connections && batch[i].key in db'.connections
               && db.connections[batch[i].key] == db'.connections[batch[i].key]
    ensures Succeeding(db, batch, now) == Succeeding(db', batch, now)
    decreases |batch|
  {
    if batch != [] {
      assert forall i :: 0 <= i < |batch[1..]| ==> batch[1..][i] == batch[i + 1];
      SucceedingFrame(db, db', batch[1..], now);
    }
  }

  /** The number a batch reports is that of its successful refreshes. */
  lemma {:induction false} BatchCountsSuccesses(db: Db, batch: seq<Attempt>, now: real)
    requires forall i :: 0 <= i < |batch| ==> batch[i].key in db.connections
    requires forall i, j :: 0 <= i < j < |batch| ==> batch[i].key != batch[j].key
    ensures RefreshAll(db, batch, now).1 == Succeeding(db, batch, now) <= |batch|
    decreases |batch|
  {
    if batch != [] {
      var first, rest := batch[0], batch[1..];
      var next := db.(connections :=
        db.connections[first.key := Refresh(db.connections[first.key], first.readable, first.reply, now).0]);
      assert forall i :: 0 <= i < |rest| ==> rest[i] == batch[i + 1];
      hide Refresh;
      SucceedingFrame(db, next, rest, now);
      BatchCountsSuccesses(next, rest, now);
    }
  }

  /** A batch refresh gives each selected connection exactly its own refresh, leaves alone every connection
      that was not selected, in particular the inactive, the tokenless and the unexpired, and refreshes all
      that are due when there are no more of them than its limit. */
  lemma BatchRefreshesExactlyTheDue(db: Db, batch: seq<Attempt>, limit: nat, now: real)
    requires SelectedForRefresh(db, batch, limit, now)
    ensures forall i :: 0 <= i < |batch| ==>
              RefreshAll(db, batch, now).0.connections[batch[i].key]
              == Refresh(db.connections[batch[i].key], batch[i].readable, batch[i].reply, now).0
    ensures forall key :: key in db.connections && !Picked(batch, key) ==>
              RefreshAll(db, batch, now).0.connections[key] == db.connections[key]
    ensures forall key :: Picked(batch, key) ==> key in DueKeys(db, now)
    ensures |DueKeys(db, now)| <= limit ==> forall key :: Picked(batch, key) <==> key in DueKeys(db, now)
  {
    BatchRefreshesThePicked(db, batch, now);
    BatchReachesAllDueIff(db, batch, limit, now);
  }
}
