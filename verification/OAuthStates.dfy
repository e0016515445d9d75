/** The life of an authorization state, from its URL to its callback: a fresh state can be completed, a
    rejected one is dead, and a failed attempt that was not rejected can be repeated.
 */
module OAuthStates {
  import opened Basics
  import opened OAuthManager
  import opened OAuthFlows

  // ------------------------------------------------------------------- fresh states

  /** No cleanup of the run comes after the state has expired. */
  ghost predicate CleanedInTime(expiresAt: real, steps: seq<Step>) {
    forall i :: 0 <= i < |steps| && steps[i].DoCleanup? ==> steps[i].now <= expiresAt
  }

  lemma StepOnUnconsumed(base: string, w: World, step: Step, state: string)
    requires Enabled(w, step) && state in w.urls && state in w.db.states && !w.db.states[state].consumed
    requires !Consumes(w, step, state)
    ensures state in Apply(base, w, step).db.states
       <==> CleanedInTime(w.db.states[state].expiresAt, [step])
  {
    assert [step][0] == step;
  }

  /** A row that nothing consumes is there after a run if and only if no cleanup came after its expiry. */
  lemma {:induction false} UnconsumedStaysIff(base: string, w: World, steps: seq<Step>, state: string)
    requires LegalRun(base, w, steps) && state in w.urls
    requires state in w.db.states && !w.db.states[state].consumed
    requires !SomeStepConsumes(base, w, steps, state)
    ensures state in Run(base, w, steps).db.states <==> CleanedInTime(w.db.states[state].expiresAt, steps)
    decreases |steps|
  {
    if steps != [] {
      var next := Apply(base, w, steps[0]);
      StepOnUnconsumed(base, w, steps[0], state);
      StepOnState(base, w, steps[0], state);
      RunOnState(base, next, steps[1..], state);
      hide Apply;
      hide Consumes;
      assert [steps[0]][0] == steps[0];
      assert forall i :: 0 <= i < |steps[1..]| ==> steps[1..][i] == steps[i + 1];
      assert forall i :: 1 <= i < |steps| ==> steps[i] == steps[1..][i - 1];
      if state in next.db.states {
        UnconsumedStaysIff(base, next, steps[1..], state);
      }
    }
  }

  /** A flow can be completed: after an authorization, whatever has run since without consuming its state, a
      callback finds the state valid exactly for the provider it was created for, until its expiry, and
      unless a cleanup has come after its expiry. */
  lemma FreshStateIsValidIff(
    base: string, w: World, state: string, a: Authorization, steps: seq<Step>, provider: string, now: real)
    requires Enabled(w, Authorize(state, a))
    requires var issued := Apply(base, w, Authorize(state, a));
             LegalRun(base, issued, steps) && !SomeStepConsumes(base, issued, steps, state)
    ensures var after := Run(base, Apply(base, w, Authorize(state, a)), steps);
            FindState(after.db, provider, state, now).Valid?
            <==> provider == a.key.provider && now <= a.expiresAt && CleanedInTime(a.expiresAt, steps)
  {
    var issued := Apply(base, w, Authorize(state, a));
    assert state in issued.urls && state in issued.db.states;
    assert !issued.db.states[state].consumed && issued.db.states[state].expiresAt == a.expiresAt;
    assert issued.db.states[state].key == a.key;
    hide Apply;
    UnconsumedStaysIff(base, issued, steps, state);
    RunOnState(base, issued, steps, state);
  }

  /** The callback that then begins sends the exchange of the URL that carried the state: its provider, its
      redirect URI, and the verifier of its challenge. */
  lemma FreshStateSendsExchange(
    base: string, w: World, state: string, a: Authorization, steps: seq<Step>, g: nat, now: real)
    requires Enabled(w, Authorize(state, a))
    requires var issued := Apply(base, w, Authorize(state, a));
             && LegalRun(base, issued, steps) && !SomeStepConsumes(base, issued, steps, state)
             && Enabled(Run(base, issued, steps), BeginCallback(g, a.key.provider, state, now))
    requires now <= a.expiresAt && CleanedInTime(a.expiresAt, steps)
    ensures var after := Run(base, Apply(base, w, Authorize(state, a)), steps);
            var begun := Apply(base, after, BeginCallback(g, a.key.provider, state, now));
            var uri := if a.redirectUri != "" then a.redirectUri else base + "/oauth/callback/" + a.key.provider;
            && begun.exchanges == after.exchanges
                 + [Exchange(state, a.key.provider, uri, if a.pkce == Some("") then None else a.pkce)]
            && g in begun.flights && begun.flights[g].CallbackFlight? && begun.flights[g].state == state
            && begun.flights[g].row.key == a.key && begun.flights[g].row.scopes == a.scopes
            && begun.db == after.db
  {
    var issued := Apply(base, w, Authorize(state, a));
    var row := issued.db.states[state];
    assert row == NewState(base, a);
    assert (base + "/oauth/callback/" + a.key.provider)[|base|] == '/';
    FreshStateIsValidIff(base, w, state, a, steps, a.key.provider, now);
    RunOnState(base, issued, steps, state);
  }

  /** And its granted end commits, whatever has run in between, if the row is still there and the workspace has
      no oauth_default credential for the provider: tokens, scopes and expiry of this flow reach the
      connection and the credential, and the state is consumed. */
  lemma FreshStateCommits(
    base: string, w: World, g: nat, state: string, key: Key, scopes: seq<string>, reply: Reply, now: real)
    requires g in w.flights && w.flights[g].CallbackFlight? && w.flights[g].state == state
    requires w.flights[g].row.key == key && w.flights[g].row.scopes == scopes
    requires state in w.db.states && key !in w.db.credentials && Grants(reply)
    ensures var after := Apply(base, w, EndCallback(g, reply, now));
            && after.successes == w.successes + [(state, key)]
            && key in after.db.connections && key in after.db.credentials
            && after.db.connections[key].status == Connected
            && after.db.connections[key].scopes == scopes
            && after.db.connections[key].blob == Some(after.db.credentials[key].blob)
            && after.db.connections[key].blob.value.access == Token(reply.access, ByCode(state))
            && after.db.connections[key].blob.value.refresh
               == (if reply.refresh.Some? && reply.refresh.value != ""
                   then Some(Token(reply.refresh.value, ByCode(state))) else None)
            && after.db.connections[key].expiresAt == after.db.credentials[key].expiresAt
            && after.db.connections[key].expiresAt
               == (if reply.expiresIn.Seconds? && reply.expiresIn.n != 0 then Some(now + reply.expiresIn.n as real)
                   else None)
            && after.db.connections[key].active
               == (key in w.db.connections ==> w.db.connections[key].active)
            && after.db.states[state].consumed
  {
  }

  // ---------------------------------------------------------- what an answer leaves behind

  predicate Rejects(reply: Reply) {
    reply.HttpError? || reply.NoAccessToken?
  }

  /** What each answer of the token endpoint leaves of a callback whose state was valid: a rejection consumes
      exactly the state, so that no callback finds it again; an answer that breaks the callback, and a
      second credential, leave every table as it was and the state as valid as before; anything else
      commits. */
  lemma CallbackOutcomes(db: Db, provider: string, state: string, now: real, reply: Reply, done: real, later: real)
    requires FindState(db, provider, state, now).Valid?
    ensures var (after, result) := Callback(db, provider, state, now, reply, done);
            && (Rejects(reply) ==>
                  && result == ExchangeRejected
                  && after == db.(states := db.states[state := db.states[state].(consumed := true)])
                  && forall p :: FindState(after, p, state, later).Missing?)
            && (!Rejects(reply) && !Grants(reply) ==> after == db && result == ExchangeBroken)
            && (Grants(reply) && db.states[state].key in db.credentials ==> after == db && result == UniqueViolation)
            && (Grants(reply) && db.states[state].key !in db.credentials ==>
                  result.Stored? && forall p :: FindState(after, p, state, later).Missing?)
            && (after == db ==> FindState(after, provider, state, now).Valid?)
  {
    assert db.states[state].consumed == false;
  }

  /** Nothing can begin on the state any more. */
  ghost predicate Dead(w: World, state: string) {
    state in w.urls && (state in w.db.states ==> w.db.states[state].consumed)
  }

  ghost function FlightsOn(w: World, state: string): map<nat, Flight> {
    map f | f in w.flights && w.flights[f].CallbackFlight? && w.flights[f].state == state :: w.flights[f]
  }

  lemma StepKeepsDead(base: string, w: World, step: Step, state: string)
    requires Enabled(w, step) && Dead(w, state)
    ensures Dead(Apply(base, w, step), state)
    ensures w.exchanges <= Apply(base, w, step).exchanges
    ensures forall i :: |w.exchanges| <= i < |Apply(base, w, step).exchanges| ==>
              Apply(base, w, step).exchanges[i].state != state
  {
  }

  lemma StepKeepsFlightsOn(base: string, w: World, step: Step, state: string)
    requires Enabled(w, step) && Dead(w, state)
    ensures FlightsOn(Apply(base, w, step), state).Items <= FlightsOn(w, state).Items
    ensures w.successes <= Apply(base, w, step).successes
    ensures FlightsOn(w, state) == map[] ==>
              forall i :: |w.successes| <= i < |Apply(base, w, step).successes| ==>
                Apply(base, w, step).successes[i].0 != state
  {
    var after := Apply(base, w, step);
    forall item | item in FlightsOn(after, state).Items ensures item in FlightsOn(w, state).Items {
      assert item.0 in FlightsOn(w, state);
    }
    if step.EndCallback? && FlightsOn(w, state) == map[] {
      assert step.flight !in FlightsOn(w, state);
    }
  }

  /** A dead state stays dead in every run: no callback on it sends an exchange any more, none gets on its way,
      and none commits unless it was in flight already. */
  lemma {:induction false} DeadForever(base: string, w: World, steps: seq<Step>, state: string)
    requires LegalRun(base, w, steps) && Dead(w, state)
    ensures var after := Run(base, w, steps);
            && Dead(after, state)
            && w.exchanges <= after.exchanges && w.successes <= after.successes
            && (forall i :: |w.exchanges| <= i < |after.exchanges| ==> after.exchanges[i].state != state)
            && FlightsOn(after, state).Items <= FlightsOn(w, state).Items
            && (FlightsOn(w, state) == map[] ==>
                  forall i :: |w.successes| <= i < |after.successes| ==> after.successes[i].0 != state)
    decreases |steps|
  {
    if steps != [] {
      var next := Apply(base, w, steps[0]);
      StepKeepsDead(base, w, steps[0], state);
      StepKeepsFlightsOn(base, w, steps[0], state);
      NoItems(FlightsOn(next, state), FlightsOn(w, state));
      hide Apply;
      hide Dead;
      hide FlightsOn;
      DeadForever(base, next, steps[1..], state);
      var after := Run(base, w, steps);
      forall i | |w.exchanges| <= i < |after.exchanges| ensures after.exchanges[i].state != state {
        if i < |next.exchanges| {
          assert after.exchanges[i] == next.exchanges[i];
        }
      }
      if FlightsOn(w, state) == map[] {
        forall i | |w.successes| <= i < |after.successes| ensures after.successes[i].0 != state {
          if i < |next.successes| {
            assert after.successes[i] == next.successes[i];
          }
        }
      }
    }
  }

  lemma NoItems<K, V>(small: map<K, V>, large: map<K, V>)
    requires small.Items <= large.Items
    ensures large == map[] ==> small == map[]
  {
    assert forall k :: k in small ==> (k, small[k]) in large.Items;
  }

  /** A rejected exchange ends its flow: in no run after it does a callback on that state send an exchange, and
      none commits but one that was in flight beside it. */
  lemma RejectedFlowIsOver(base: string, w: World, f: nat, reply: Reply, now: real, steps: seq<Step>)
    requires Bound(w) && Enabled(w, EndCallback(f, reply, now)) && Rejects(reply)
    requires LegalRun(base, Apply(base, w, EndCallback(f, reply, now)), steps)
    ensures var state, rejected := w.flights[f].state, Apply(base, w, EndCallback(f, reply, now));
            var after := Run(base, rejected, steps);
            && rejected.db.connections == w.db.connections && rejected.db.credentials == w.db.credentials
            && (state in w.db.states ==> state in rejected.db.states && rejected.db.states[state].consumed)
            && rejected.exchanges == w.exchanges && rejected.successes == w.successes
            && (forall i :: |w.exchanges| <= i < |after.exchanges| ==> after.exchanges[i].state != state)
            && (FlightsOn(rejected, state) == map[] ==>
                  forall i :: |w.successes| <= i < |after.successes| ==> after.successes[i].0 != state)
  {
    var state, rejected := w.flights[f].state, Apply(base, w, EndCallback(f, reply, now));
    assert FlightBound(w.urls, w.flights[f]);
    assert Dead(rejected, state);
    hide Apply;
    DeadForever(base, rejected, steps, state);
  }

  // ------------------------------------------------------------------- refresh and revoke

  /** The expiry a granted refresh assigns: its own lifetime when it sends one, none when that is malformed, and
      otherwise the one that was stored. */
  lemma RefreshedExpiryIs(c: Connection, readable: bool, reply: Reply, now: real)
    requires Refresh(c, readable, reply, now).1.Refreshed?
    ensures var after := Refresh(c, readable, reply, now).0;
            && (reply.expiresIn.Seconds? && reply.expiresIn.n != 0 ==>
                  after.expiresAt == Some(now + reply.expiresIn.n as real))
            && (reply.expiresIn.Malformed? ==> after.expiresAt == None)
            && (reply.expiresIn == Absent || reply.expiresIn == Seconds(0) ==> after.expiresAt == c.expiresAt)
  {
  }

  /** The end of a revocation that was in flight, whatever happened to its connection since: the blob is gone, the
      status is revoked unless the revocation had read it so already, and scopes and expiry stay. */
  lemma LateRevocationMeans(base: string, w: World, g: nat)
    requires StoppedMeansInactive(w) && Enabled(w, EndRevoke(g))
    requires w.flights[g].key in w.db.connections && w.flights[g].snapshot.blob.Some?
    ensures var before := w.db.connections[w.flights[g].key];
            var after := Apply(base, w, EndRevoke(g)).db.connections[w.flights[g].key];
            && after.blob.None? && !after.active
            && after.status == (if w.flights[g].snapshot.status == Revoked then before.status else Revoked)
            && after.scopes == before.scopes && after.expiresAt == before.expiresAt
  {
  }

  /** The end of a granted refresh that was in flight, whatever happened to its connection since: the access token is
      the one just granted, the refresh token the one sent or the one it had read, and neither status nor
      activity nor scopes change; any other end changes nothing. */
  lemma LateRefreshMeans(base: string, w: World, f: nat, reply: Reply, now: real)
    requires Enabled(w, EndRefresh(f, reply, now)) && w.flights[f].key in w.db.connections
    requires w.flights[f].snapshot.blob.Some?
    ensures var flight := w.flights[f];
            var before := w.db.connections[flight.key];
            var after := Apply(base, w, EndRefresh(f, reply, now)).db;
            var c := after.connections[flight.key];
            && after.states == w.db.states && after.credentials == w.db.credentials
            && after.connections - {flight.key} == w.db.connections - {flight.key}
            && (!Grants(reply) ==> c == before)
            && (Grants(reply) ==>
                  && c.blob.Some? && c.blob.value.access.text == reply.access
                  && (if reply.refresh.Some? && reply.refresh.value != ""
                      then c.blob.value.refresh.Some? && c.blob.value.refresh.value.text == reply.refresh.value
                      else c.blob.value.refresh == flight.snapshot.blob.value.refresh)
                  && c.status == before.status && c.active == before.active && c.scopes == before.scopes
                  && (reply.expiresIn.Seconds? && reply.expiresIn.n != 0
                        && flight.snapshot.expiresAt != Some(now + reply.expiresIn.n as real) ==>
                        c.expiresAt == Some(now + reply.expiresIn.n as real))
                  && (reply.expiresIn == Absent || reply.expiresIn == Seconds(0) ==> c.expiresAt == before.expiresAt))
  {
    var c := w.db.connections[w.flights[f].key];
    assert w.db.connections[w.flights[f].key := c] == w.db.connections;
  }

  /** A disconnection destroys nothing but the use of the connection: in every run after it the connection cannot be
      used, and at first its tokens, scopes and expiry are as they were. */
  lemma DisconnectedForGood(base: string, w: World, key: Key, steps: seq<Step>)
    requires Enabled(w, DoDisconnect(key)) && LegalRun(base, Apply(base, w, DoDisconnect(key)), steps)
    ensures var c, after := w.db.connections[key], Apply(base, w, DoDisconnect(key)).db;
            && after.connections
               == w.db.connections[key := Connection(Disconnected, false, c.blob, c.scopes, c.expiresAt)]
            && after.credentials == w.db.credentials && after.states == w.db.states
    ensures GetConnection(Run(base, Apply(base, w, DoDisconnect(key)), steps).db, key).None?
  {
    InactiveForever(base, Apply(base, w, DoDisconnect(key)), steps, key);
  }

  /** A callback whose state is not valid: one that has expired is consumed on the spot, and one that is unknown,
      consumed or another provider's changes nothing; in no case is an exchange sent. */
  lemma InvalidStateOutcomes(
    base: string, w: World, g: nat, provider: string, state: string, now: real, reply: Reply, done: real)
    requires Enabled(w, BeginCallback(g, provider, state, now)) && !FindState(w.db, provider, state, now).Valid?
    ensures var after := Apply(base, w, BeginCallback(g, provider, state, now));
            var known := state in w.db.states && w.db.states[state].key.provider == provider
                         && !w.db.states[state].consumed;
            && after.exchanges == w.exchanges && after.flights == w.flights
            && (known ==> w.db.states[state].expiresAt < now)
            && after.db == (if known
                            then w.db.(states := w.db.states[state := w.db.states[state].(consumed := true)])
                            else w.db)
            && Callback(w.db, provider, state, now, reply, done)
               == (after.db, if known then ExpiredState else InvalidState)
  {
  }
}
