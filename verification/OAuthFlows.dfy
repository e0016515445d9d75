/** OAuth flows under every interleaving of transactions.

    A callback, a refresh and a revocation each read their row, talk to the provider without holding
    anything, and commit later on whatever the tables have become.  All other operations are single
    transactions.
 */
module OAuthFlows {
  import opened Basics
  import opened OAuthManager

  // ------------------------------------------------------------------- the machine

  datatype Flight =
    | CallbackFlight(state: string, row: StateRow)
    | RefreshFlight(key: Key, snapshot: Connection, presented: Token)
    | RevokeFlight(key: Key, snapshot: Connection)

  /** The tables, the operations in progress, and a history: the URL that carried each state, the
      exchanges sent, and the callbacks that committed. */
  datatype World = World(
    db: Db, flights: map<nat, Flight>, urls: map<string, Url>, exchanges: seq<Exchange>, successes: seq<(string, Key)>)

  const START := World(EMPTY, map[], map[], [], [])

  datatype Step =
    | Authorize(state: string, a: Authorization)
    | BeginCallback(flight: nat, provider: string, state: string, now: real)
    | EndCallback(flight: nat, reply: Reply, now: real)
    | BeginRefresh(flight: nat, key: Key, readable: bool)
    | EndRefresh(flight: nat, reply: Reply, now: real)
    | BeginRevoke(flight: nat, key: Key, hasRevokeUrl: bool, readable: bool)
    | EndRevoke(flight: nat)
    | DoDisconnect(key: Key)
    | DoCleanup(now: real)
    | DoPurge(now: real)

  /** A state token is fresh randomness; a flight identifier is not reused while in progress. */
  ghost predicate Enabled(w: World, step: Step) {
    match step
    case Authorize(state, _) => state !in w.urls
    case BeginCallback(f, _, _, _) => f !in w.flights
    case EndCallback(f, _, _) => f in w.flights && w.flights[f].CallbackFlight?
    case BeginRefresh(f, key, _) => f !in w.flights && key in w.db.connections
    case EndRefresh(f, _, _) => f in w.flights && w.flights[f].RefreshFlight?
    case BeginRevoke(f, key, _, _) => f !in w.flights && key in w.db.connections
    case EndRevoke(f) => f in w.flights && w.flights[f].RevokeFlight?
    case DoDisconnect(key) => GetConnection(w.db, key).Some?
    case DoCleanup(_) => true
    case DoPurge(_) => true
  }

  /** A late refresh writes the blob, and the expiry only if it differs from its snapshot's. */
  function FlushRefresh(c: Connection, f: Flight, reply: Reply, now: real): Connection
    requires f.RefreshFlight? && f.snapshot.blob.Some? && reply.Tokens?
  {
    var expiresAt := RefreshedExpiry(f.snapshot.expiresAt, reply.expiresIn, now);
    c.(blob := Some(Renewed(f.snapshot.blob.value, f.presented, reply)),
       expiresAt := if expiresAt != f.snapshot.expiresAt then expiresAt else c.expiresAt)
  }

  /** A late revocation likewise writes the columns that differ from its snapshot's. */
  function FlushRevoke(c: Connection, snapshot: Connection): Connection {
    Connection(if snapshot.status.Revoked? then c.status else Revoked,
               if snapshot.active then false else c.active,
               if snapshot.blob.None? then c.blob else None,
               c.scopes, c.expiresAt)
  }

  ghost function Apply(base: string, w: World, step: Step): World
    requires Enabled(w, step)
  {
    match step
    case Authorize(state, a) =>
      w.(db := w.db.(states := w.db.states[state := NewState(base, a)]), urls := w.urls[state := UrlFor(base, a)])
    case BeginCallback(f, provider, state, now) =>
      (match FindState(w.db, provider, state, now)
       case Missing => w
       case Expired => w.(db := Consume(w.db, state))
       case Valid(row) =>
         w.(flights := w.flights[f := CallbackFlight(state, row)],
            exchanges := w.exchanges + [ExchangeFor(base, state, row)]))
    case EndCallback(f, reply, now) =>
      var flight := w.flights[f];
      var (db, result) := Settle(w.db, flight.state, flight.row, reply, now);
      w.(db := db, flights := w.flights - {f},
         successes := if result.Stored? then w.successes + [(flight.state, flight.row.key)] else w.successes)
    case BeginRefresh(f, key, readable) =>
      var c := w.db.connections[key];
      var presented := RefreshTokenOf(c, readable);
      if presented.None? then w else w.(flights := w.flights[f := RefreshFlight(key, c, presented.value)])
    case EndRefresh(f, reply, now) =>
      var flight := w.flights[f];
      var landed := w.(flights := w.flights - {f});
      if !Grants(reply) || flight.key !in w.db.connections || flight.snapshot.blob.None? then landed
      else
        var c := FlushRefresh(w.db.connections[flight.key], flight, reply, now);
        landed.(db := w.db.(connections := w.db.connections[flight.key := c]))
    case BeginRevoke(f, key, hasRevokeUrl, readable) =>
      var c := w.db.connections[key];
      if !hasRevokeUrl then w.(db := w.db.(connections := w.db.connections[key := Revoke(c, false, readable)]))
      else if !HasToken(c, readable) then w
      else w.(flights := w.flights[f := RevokeFlight(key, c)])
    case EndRevoke(f) =>
      var flight := w.flights[f];
      var landed := w.(flights := w.flights - {f});
      if flight.key !in w.db.connections then landed
      else
        var c := FlushRevoke(w.db.connections[flight.key], flight.snapshot);
        landed.(db := w.db.(connections := w.db.connections[flight.key := c]))
    case DoDisconnect(key) =>
      w.(db := w.db.(connections :=
           w.db.connections[key := w.db.connections[key].(status := Disconnected, active := false)]))
    case DoCleanup(now) => w.(db := Cleanup(w.db, now))
    case DoPurge(now) => w.(db := PurgeCredentials(w.db, now))
  }

  ghost predicate LegalRun(base: string, w: World, steps: seq<Step>)
    decreases |steps|
  {
    steps != [] ==> Enabled(w, steps[0]) && LegalRun(base, Apply(base, w, steps[0]), steps[1..])
  }

  ghost function Run(base: string, w: World, steps: seq<Step>): World
    requires LegalRun(base, w, steps)
    decreases |steps|
  {
    if steps == [] then w else Run(base, Apply(base, w, steps[0]), steps[1..])
  }

  // -------------------------------------------------------------------- flow binding

  /** A state row holds what its URL was built from. */
  ghost predicate RowBound(urls: map<string, Url>, state: string, row: StateRow) {
    && state in urls
    && row.key == urls[state].key
    && row.redirectUri != "" && row.redirectUri == urls[state].redirectUri
    && urls[state].challenge == (if Given(row.verifier).Some? then Some(S256(row.verifier.value)) else None)
  }

  /** An exchange sends the redirect URI of the URL that carried its state, and a verifier exactly
      when that URL carried a challenge, which is then the verifier's own. */
  ghost predicate ExchangeBound(urls: map<string, Url>, e: Exchange) {
    && e.state in urls
    && e.provider == urls[e.state].key.provider
    && e.redirectUri == urls[e.state].redirectUri
    && urls[e.state].challenge == (if e.verifier.Some? then Some(S256(e.verifier.value)) else None)
  }

  /** The state at the root of a token's lineage. */
  function Root(l: Lineage): string {
    match l
    case ByCode(state) => state
    case ByRefresh(parent) => Root(parent)
  }

  /** A token stems, directly or through refreshes, from a state created for this workspace and
      provider. */
  ghost predicate TokenBound(urls: map<string, Url>, key: Key, t: Token) {
    Root(t.lineage) in urls && urls[Root(t.lineage)].key == key
  }

  ghost predicate BlobBound(urls: map<string, Url>, key: Key, c: Credentials) {
    TokenBound(urls, key, c.access) && (c.refresh.Some? ==> TokenBound(urls, key, c.refresh.value))
  }

  ghost predicate FlightBound(urls: map<string, Url>, f: Flight) {
    match f
    case CallbackFlight(state, row) => RowBound(urls, state, row)
    case RefreshFlight(key, snapshot, presented) =>
      TokenBound(urls, key, presented) && (snapshot.blob.Some? ==> BlobBound(urls, key, snapshot.blob.value))
    case RevokeFlight(_, _) => true
  }

  ghost predicate Bound(w: World) {
    && (forall state :: state in w.db.states ==> RowBound(w.urls, state, w.db.states[state]))
    && (forall f :: f in w.flights ==> FlightBound(w.urls, w.flights[f]))
    && (forall i :: 0 <= i < |w.exchanges| ==> ExchangeBound(w.urls, w.exchanges[i]))
    && (forall key :: key in w.db.connections && w.db.connections[key].blob.Some? ==>
          BlobBound(w.urls, key, w.db.connections[key].blob.value))
    && (forall key :: key in w.db.credentials ==> BlobBound(w.urls, key, w.db.credentials[key].blob))
    && (forall i :: 0 <= i < |w.successes| ==>
          w.successes[i].0 in w.urls && w.urls[w.successes[i].0].key == w.successes[i].1)
  }

  lemma RowBoundGrows(urls: map<string, Url>, fresh': string, url: Url, state: string, row: StateRow)
    requires fresh' !in urls && RowBound(urls, state, row)
    ensures RowBound(urls[fresh' := url], state, row)
  {
  }

  lemma BlobBoundGrows(urls: map<string, Url>, fresh': string, url: Url, key: Key, c: Credentials)
    requires fresh' !in urls && BlobBound(urls, key, c)
    ensures BlobBound(urls[fresh' := url], key, c)
  {
  }

  lemma FlightBoundGrows(urls: map<string, Url>, fresh': string, url: Url, f: Flight)
    requires fresh' !in urls && FlightBound(urls, f)
    ensures FlightBound(urls[fresh' := url], f)
  {
  }

  lemma AuthorizedRowIsBound(urls: map<string, Url>, base: string, state: string, a: Authorization)
    ensures RowBound(urls[state := UrlFor(base, a)], state, NewState(base, a))
  {
    assert DefaultRedirectUri(base, a.key.provider)[|base|] == '/';
  }

  lemma AuthorizeIsBound(base: string, w: World, state: string, a: Authorization)
    requires Bound(w) && state !in w.urls
    ensures Bound(Apply(base, w, Authorize(state, a)))
  {
    var after := Apply(base, w, Authorize(state, a));
    var url := UrlFor(base, a);
    AuthorizedRowIsBound(w.urls, base, state, a);
    hide RowBound;
    hide BlobBound;
    hide FlightBound;
    hide UrlFor;
    hide NewState;
    forall t | t in after.db.states ensures RowBound(after.urls, t, after.db.states[t]) {
      if t != state {
        RowBoundGrows(w.urls, state, url, t, w.db.states[t]);
      }
    }
    forall f | f in w.flights ensures FlightBound(after.urls, w.flights[f]) {
      FlightBoundGrows(w.urls, state, url, w.flights[f]);
    }
    forall key | key in w.db.connections && w.db.connections[key].blob.Some?
      ensures BlobBound(after.urls, key, w.db.connections[key].blob.value)
    {
      BlobBoundGrows(w.urls, state, url, key, w.db.connections[key].blob.value);
    }
    forall key | key in w.db.credentials ensures BlobBound(after.urls, key, w.db.credentials[key].blob) {
      BlobBoundGrows(w.urls, state, url, key, w.db.credentials[key].blob);
    }
  }

  lemma EndCallbackIsBound(base: string, w: World, f: nat, reply: Reply, now: real)
    requires Bound(w) && Enabled(w, EndCallback(f, reply, now))
    ensures Bound(Apply(base, w, EndCallback(f, reply, now)))
  {
    var flight := w.flights[f];
    assert FlightBound(w.urls, flight);
    var after := Apply(base, w, EndCallback(f, reply, now));
    if reply.Tokens? {
      assert BlobBound(after.urls, flight.row.key, Granted(flight.state, reply));
    }
  }

  lemma BeginCallbackIsBound(base: string, w: World, step: Step)
    requires Bound(w) && step.BeginCallback? && Enabled(w, step)
    ensures Bound(Apply(base, w, step))
  {
    var after := Apply(base, w, step);
    if FindState(w.db, step.provider, step.state, step.now).Valid? {
      assert ExchangeBound(after.urls, after.exchanges[|w.exchanges|]);
    }
  }

  lemma EndRefreshIsBound(base: string, w: World, step: Step)
    requires Bound(w) && step.EndRefresh? && Enabled(w, step)
    ensures Bound(Apply(base, w, step))
  {
    var flight := w.flights[step.flight];
    var after := Apply(base, w, step);
    assert FlightBound(w.urls, flight);
    if Grants(step.reply) && flight.snapshot.blob.Some? {
      assert BlobBound(after.urls, flight.key, Renewed(flight.snapshot.blob.value, flight.presented, step.reply));
    }
  }

  lemma OtherStepIsBound(base: string, w: World, step: Step)
    requires Bound(w) && Enabled(w, step)
    requires step.BeginRefresh? || step.BeginRevoke? || step.EndRevoke?
          || step.DoDisconnect? || step.DoCleanup? || step.DoPurge?
    ensures Bound(Apply(base, w, step))
  {
  }

  lemma StepIsBound(base: string, w: World, step: Step)
    requires Bound(w) && Enabled(w, step)
    ensures Bound(Apply(base, w, step))
  {
    hide Bound;
    hide Apply;
    match step
    case Authorize(state, a) => AuthorizeIsBound(base, w, state, a);
    case BeginCallback(_, _, _, _) => BeginCallbackIsBound(base, w, step);
    case EndCallback(f, reply, now) => EndCallbackIsBound(base, w, f, reply, now);
    case EndRefresh(_, _, _) => EndRefreshIsBound(base, w, step);
    case _ => OtherStepIsBound(base, w, step);
  }

  /** Flow binding: under every interleaving of flows, each exchange sends the redirect URI
      (section 4.1.3 of RFC 6749) and the verifier of the S256 challenge (sections 4.2 and 4.5 of
      RFC 7636) of the URL that carried its state, and every stored token stems from a state created
      for the same workspace and provider, directly or through refreshes. */
  lemma {:induction false} EveryInterleavingIsBound(base: string, w: World, steps: seq<Step>)
    requires Bound(w) && LegalRun(base, w, steps)
    ensures Bound(Run(base, w, steps))
    decreases |steps|
  {
    hide Bound;
    hide Apply;
    if steps != [] {
      StepIsBound(base, w, steps[0]);
      EveryInterleavingIsBound(base, Apply(base, w, steps[0]), steps[1..]);
    }
  }

  /** So every run of the service from its empty tables is bound. */
  lemma EveryFlowIsBound(base: string, steps: seq<Step>)
    requires LegalRun(base, START, steps)
    ensures Bound(Run(base, START, steps))
  {
    EveryInterleavingIsBound(base, START, steps);
  }

  // ------------------------------------------------------------ the connection lifecycle

  /** A revoked or disconnected connection is inactive, and so is one that a revocation in flight
      read as inactive. */
  ghost predicate StoppedMeansInactive(w: World) {
    && (forall key :: key in w.db.connections && !w.db.connections[key].status.Connected? ==>
          !w.db.connections[key].active)
    && (forall f :: f in w.flights && w.flights[f].RevokeFlight? && !w.flights[f].snapshot.active ==>
          w.flights[f].key in w.db.connections && !w.db.connections[w.flights[f].key].active)
    && (forall f :: f in w.flights && w.flights[f].RevokeFlight? && !w.flights[f].snapshot.status.Connected? ==>
          !w.flights[f].snapshot.active)
  }

  lemma RevocationStopsInactive(base: string, w: World, step: Step)
    requires Enabled(w, step) && StoppedMeansInactive(w) && (step.BeginRevoke? || step.EndRevoke?)
    ensures StoppedMeansInactive(Apply(base, w, step))
  {
  }

  lemma CallbackStopsInactive(base: string, w: World, step: Step)
    requires Enabled(w, step) && StoppedMeansInactive(w) && (step.BeginCallback? || step.EndCallback?)
    ensures StoppedMeansInactive(Apply(base, w, step))
  {
  }

  lemma OtherStepStopsInactive(base: string, w: World, step: Step)
    requires Enabled(w, step) && StoppedMeansInactive(w)
    requires !step.BeginRevoke? && !step.EndRevoke? && !step.BeginCallback? && !step.EndCallback?
    ensures StoppedMeansInactive(Apply(base, w, step))
  {
  }

  lemma StepStopsInactive(base: string, w: World, step: Step)
    requires Enabled(w, step) && StoppedMeansInactive(w)
    ensures StoppedMeansInactive(Apply(base, w, step))
  {
    hide Apply;
    hide StoppedMeansInactive;
    if step.BeginRevoke? || step.EndRevoke? {
      RevocationStopsInactive(base, w, step);
    } else if step.BeginCallback? || step.EndCallback? {
      CallbackStopsInactive(base, w, step);
    } else {
      OtherStepStopsInactive(base, w, step);
    }
  }

  lemma StepKeepsInactive(base: string, w: World, step: Step, key: Key)
    requires Enabled(w, step) && key in w.db.connections && !w.db.connections[key].active
    ensures key in Apply(base, w, step).db.connections && !Apply(base, w, step).db.connections[key].active
  {
  }

  lemma {:induction false} EveryInterleavingStopsInactive(base: string, w: World, steps: seq<Step>)
    requires LegalRun(base, w, steps) && StoppedMeansInactive(w)
    ensures StoppedMeansInactive(Run(base, w, steps))
    decreases |steps|
  {
    hide Apply;
    hide StoppedMeansInactive;
    if steps != [] {
      StepStopsInactive(base, w, steps[0]);
      EveryInterleavingStopsInactive(base, Apply(base, w, steps[0]), steps[1..]);
    }
  }

  /** In every run from the empty tables, however revocations overlap with callbacks, refreshes,
      disconnections and each other, a revoked or disconnected connection is inactive, and the end of a
      revocation always leaves its connection inactive. */
  lemma RevocationsDeactivate(base: string, steps: seq<Step>)
    requires LegalRun(base, START, steps)
    ensures var w := Run(base, START, steps);
            && (forall key :: key in w.db.connections && !w.db.connections[key].status.Connected? ==>
                  !w.db.connections[key].active)
            && (forall f :: f in w.flights && Enabled(w, EndRevoke(f)) ==>
                  GetConnection(Apply(base, w, EndRevoke(f)).db, w.flights[f].key).None?)
  {
    EveryInterleavingStopsInactive(base, START, steps);
  }

  /** An inactive connection never becomes active again, under any interleaving: not even a later
      successful callback, which sets its status back to connected, makes it usable. */
  lemma {:induction false} InactiveForever(base: string, w: World, steps: seq<Step>, key: Key)
    requires LegalRun(base, w, steps)
    requires key in w.db.connections && !w.db.connections[key].active
    ensures var after := Run(base, w, steps).db;
            && key in after.connections && !after.connections[key].active
            && GetConnection(after, key).None?
    decreases |steps|
  {
    hide Apply;
    if steps != [] {
      StepKeepsInactive(base, w, steps[0], key);
      InactiveForever(base, Apply(base, w, steps[0]), steps[1..], key);
    }
  }

  /** A callback on an inactive connection can still commit: it stores the new tokens and says
      "connected", and the connection stays unusable. */
  lemma ReconnectStaysUnusable(db: Db, provider: string, state: string, now: real, reply: Reply, done: real)
    requires Callback(db, provider, state, now, reply, done).1.Stored?
    ensures var key := db.states[state].key;
            var after := Callback(db, provider, state, now, reply, done).0;
            && after.connections[key].status == Connected
            && after.connections[key].blob == Some(Granted(state, reply))
            && (GetConnection(after, key).Some? <==> key in db.connections ==> db.connections[key].active)
  {
  }

  // ---------------------------------------------------------------- callback atomicity

  /** The end of a callback commits its connection, its credential and the consumed flag together,
      or the consumed flag alone after a rejected exchange, or nothing. */
  lemma CallbackIsAtomic(db: Db, state: string, row: StateRow, reply: Reply, now: real)
    ensures var (after, result) := Settle(db, state, row, reply, now);
            && (result.Stored? ==>
                  && state in db.states && after.states == Consume(db, state).states
                  && row.key !in db.credentials
                  && after.credentials
                     == db.credentials[row.key := CredentialRow(Granted(state, reply), result.expiresAt)]
                  && after.connections.Keys == db.connections.Keys + {row.key}
                  && after.connections[row.key].blob == Some(Granted(state, reply))
                  && after.connections[row.key].status == Connected
                  && after.connections[row.key].scopes == row.scopes == result.scopes
                  && after.connections[row.key].expiresAt == result.expiresAt
                  && after.connections - {row.key} == db.connections - {row.key})
            && (result.ExchangeRejected? ==> state in db.states && after == Consume(db, state))
            && (!result.Stored? && !result.ExchangeRejected? ==> after == db)
  {
  }

  /** The token goes back to a callback that committed for this workspace and provider. */
  ghost predicate FromSuccess(successes: seq<(string, Key)>, key: Key, t: Token) {
    (Root(t.lineage), key) in successes
  }

  ghost predicate BlobFromSuccess(successes: seq<(string, Key)>, key: Key, c: Credentials) {
    FromSuccess(successes, key, c.access) && (c.refresh.Some? ==> FromSuccess(successes, key, c.refresh.value))
  }

  /** Both tokens were granted by one and the same exchange. */
  predicate OneExchange(c: Credentials) {
    c.access.lineage.ByCode? && (c.refresh.Some? ==> c.refresh.value.lineage == c.access.lineage)
  }

  ghost predicate FlightFromSuccess(successes: seq<(string, Key)>, f: Flight) {
    f.RefreshFlight? ==>
      && FromSuccess(successes, f.key, f.presented)
      && (f.snapshot.blob.Some? ==> BlobFromSuccess(successes, f.key, f.snapshot.blob.value))
  }

  ghost predicate CommittedTogether(w: World) {
    && (forall key :: key in w.db.credentials ==>
          key in w.db.connections && OneExchange(w.db.credentials[key].blob)
          && BlobFromSuccess(w.successes, key, w.db.credentials[key].blob))
    && (forall key :: key in w.db.connections && w.db.connections[key].blob.Some? ==>
          BlobFromSuccess(w.successes, key, w.db.connections[key].blob.value))
    && (forall i :: 0 <= i < |w.successes| ==>
          && w.successes[i].1 in w.db.connections
          && w.successes[i].0 in w.urls
          && (w.successes[i].0 in w.db.states ==> w.db.states[w.successes[i].0].consumed))
    && (forall f :: f in w.flights ==> FlightFromSuccess(w.successes, w.flights[f]))
  }

  lemma SuccessesGrow(w: World, more: seq<(string, Key)>)
    requires CommittedTogether(w) && w.successes <= more
    ensures forall key :: key in w.db.credentials ==> BlobFromSuccess(more, key, w.db.credentials[key].blob)
    ensures forall key :: key in w.db.connections && w.db.connections[key].blob.Some? ==>
              BlobFromSuccess(more, key, w.db.connections[key].blob.value)
    ensures forall f :: f in w.flights ==> FlightFromSuccess(more, w.flights[f])
  {
    assert forall x :: x in w.successes ==> x in more;
  }

  lemma CommitCommitsTogether(base: string, w: World, step: Step)
    requires CommittedTogether(w) && step.EndCallback? && Enabled(w, step)
    requires w.flights[step.flight].state in w.urls
    requires var flight := w.flights[step.flight];
             Settle(w.db, flight.state, flight.row, step.reply, step.now).1.Stored?
    ensures CommittedTogether(Apply(base, w, step))
  {
    var flight := w.flights[step.flight];
    var w' := Apply(base, w, step);
    CallbackIsAtomic(w.db, flight.state, flight.row, step.reply, step.now);
    SuccessesGrow(w, w'.successes);
    var granted := Granted(flight.state, step.reply);
    assert BlobFromSuccess(w'.successes, flight.row.key, granted) && OneExchange(granted);
    assert forall key :: key in w.db.connections && key != flight.row.key ==>
             key in w'.db.connections && w'.db.connections[key] == w.db.connections[key];
    hide Settle;
    hide BlobFromSuccess;
    hide FlightFromSuccess;
    hide OneExchange;
  }

  lemma FailureCommitsTogether(base: string, w: World, step: Step)
    requires CommittedTogether(w) && step.EndCallback? && Enabled(w, step)
    requires var flight := w.flights[step.flight];
             !Settle(w.db, flight.state, flight.row, step.reply, step.now).1.Stored?
    ensures CommittedTogether(Apply(base, w, step))
  {
    var flight := w.flights[step.flight];
    CallbackIsAtomic(w.db, flight.state, flight.row, step.reply, step.now);
    hide Settle;
    hide BlobFromSuccess;
    hide FlightFromSuccess;
    hide OneExchange;
  }

  lemma EndCallbackCommitsTogether(base: string, w: World, step: Step)
    requires CommittedTogether(w) && Bound(w) && step.EndCallback? && Enabled(w, step)
    ensures CommittedTogether(Apply(base, w, step))
  {
    var flight := w.flights[step.flight];
    assert flight.state in w.urls by {
      assert FlightBound(w.urls, flight);
    }
    hide Apply;
    hide Bound;
    hide CommittedTogether;
    if Settle(w.db, flight.state, flight.row, step.reply, step.now).1.Stored? {
      CommitCommitsTogether(base, w, step);
    } else {
      FailureCommitsTogether(base, w, step);
    }
  }

  lemma EndRefreshCommitsTogether(base: string, w: World, step: Step)
    requires CommittedTogether(w) && step.EndRefresh? && Enabled(w, step)
    ensures CommittedTogether(Apply(base, w, step))
  {
    var flight := w.flights[step.flight];
    assert FlightFromSuccess(w.successes, flight);
    if Grants(step.reply) && flight.snapshot.blob.Some? {
      var renewed := Renewed(flight.snapshot.blob.value, flight.presented, step.reply);
      assert BlobFromSuccess(w.successes, flight.key, renewed);
    }
  }

  lemma BeginCommitsTogether(base: string, w: World, step: Step)
    requires CommittedTogether(w) && (step.BeginRefresh? || step.BeginRevoke?) && Enabled(w, step)
    ensures CommittedTogether(Apply(base, w, step))
  {
    hide OneExchange;
    assert forall f :: f in w.flights ==> FlightFromSuccess(w.successes, w.flights[f]);
  }

  lemma OtherStepCommitsTogether(base: string, w: World, step: Step)
    requires CommittedTogether(w) && Enabled(w, step)
    requires !step.EndCallback? && !step.EndRefresh? && !step.BeginRefresh? && !step.BeginRevoke?
    ensures CommittedTogether(Apply(base, w, step))
  {
    hide OneExchange;
    hide BlobFromSuccess;
    if step.BeginCallback? {
      assert forall f :: f in w.flights ==> FlightFromSuccess(w.successes, w.flights[f]);
    } else {
      hide FlightFromSuccess;
    }
  }

  lemma StepCommitsTogether(base: string, w: World, step: Step)
    requires CommittedTogether(w) && Bound(w) && Enabled(w, step)
    ensures CommittedTogether(Apply(base, w, step))
  {
    hide Apply;
    hide CommittedTogether;
    match step
    case EndCallback(_, _, _) => EndCallbackCommitsTogether(base, w, step);
    case EndRefresh(_, _, _) => EndRefreshCommitsTogether(base, w, step);
    case BeginRefresh(_, _, _) => BeginCommitsTogether(base, w, step);
    case BeginRevoke(_, _, _, _) => BeginCommitsTogether(base, w, step);
    case _ => OtherStepCommitsTogether(base, w, step);
  }

  lemma {:induction false} EveryRunCommitsTogether(base: string, w: World, steps: seq<Step>)
    requires CommittedTogether(w) && Bound(w) && LegalRun(base, w, steps)
    ensures CommittedTogether(Run(base, w, steps))
    decreases |steps|
  {
    hide Apply;
    hide Bound;
    hide CommittedTogether;
    if steps != [] {
      StepIsBound(base, w, steps[0]);
      StepCommitsTogether(base, w, steps[0]);
      EveryRunCommitsTogether(base, Apply(base, w, steps[0]), steps[1..]);
    }
  }

  /** Callback atomicity in every run from the empty tables: there is no credential without its
      connection, both tokens of a credential come from one exchange, every stored token, refreshed or
      not, goes back to a callback that committed, and the state of such a callback is consumed for as
      long as it exists. */
  lemma NothingHalfCommitted(base: string, steps: seq<Step>)
    requires LegalRun(base, START, steps)
    ensures CommittedTogether(Run(base, START, steps))
  {
    EveryRunCommitsTogether(base, START, steps);
  }

  /** When a callback whose state was valid commits: exactly when the provider granted a token, with a
      lifetime that stays in the range of dates, and the workspace has no oauth_default credential for the
      provider.
      So a workspace cannot connect a provider again while the row of its first connection exists. */
  lemma CallbackCommitsIff(db: Db, provider: string, state: string, now: real, reply: Reply, done: real)
    ensures Callback(db, provider, state, now, reply, done).1.Stored?
       <==> && FindState(db, provider, state, now).Valid?
            && Grants(reply)
            && Key(db.states[state].key.workspace, provider) !in db.credentials
  {
    var found := FindState(db, provider, state, now);
    if found.Valid? {
      assert db.states[state].key == Key(db.states[state].key.workspace, provider);
    }
  }

  /** A refused second connection leaves the state unconsumed: the same callback can be repeated, and
      is refused again, any number of times. */
  lemma UniqueViolationKeepsStateValid(db: Db, provider: string, state: string, now: real, reply: Reply, done: real)
    requires Callback(db, provider, state, now, reply, done).1.UniqueViolation?
    ensures Callback(db, provider, state, now, reply, done).0 == db
    ensures FindState(db, provider, state, now).Valid?
  {
  }

  /** The world before step n. */
  ghost function WorldAt(base: string, w: World, steps: seq<Step>, n: nat): World
    requires LegalRun(base, w, steps) && n <= |steps|
    decreases n
  {
    if n == 0 then w else WorldAt(base, Apply(base, w, steps[0]), steps[1..], n - 1)
  }

  lemma {:induction false} WorldAtSplits(base: string, w: World, steps: seq<Step>, m: nat, n: nat)
    requires LegalRun(base, w, steps) && m <= n <= |steps|
    ensures LegalRun(base, WorldAt(base, w, steps, m), steps[m..])
    ensures WorldAt(base, w, steps, n) == WorldAt(base, WorldAt(base, w, steps, m), steps[m..], n - m)
    decreases m
  {
    hide Apply;
    if m > 0 {
      WorldAtSplits(base, Apply(base, w, steps[0]), steps[1..], m - 1, n - 1);
      assert steps[1..][m - 1..] == steps[m..];
    } else {
      assert steps[0..] == steps;
    }
  }

  /** Step n is the end of a callback on this state that commits for this key. */
  ghost predicate CommitsAt(base: string, w: World, steps: seq<Step>, n: nat, state: string, key: Key)
    requires LegalRun(base, w, steps)
  {
    && n < |steps|
    && WorldAt(base, w, steps, n + 1).successes == WorldAt(base, w, steps, n).successes + [(state, key)]
  }

  /** A commit finds no credential of its key, and leaves one. */
  lemma CommitMeans(base: string, w: World, step: Step, state: string, key: Key)
    requires Enabled(w, step) && Apply(base, w, step).successes == w.successes + [(state, key)]
    ensures key !in w.db.credentials && key in Apply(base, w, step).db.credentials
  {
    assert (w.successes + [(state, key)])[|w.successes|] == (state, key);
  }

  /** The purge deletes a row with this expiry. */
  predicate Reaches(expiresAt: Option<real>, step: Step) {
    step.DoPurge? && expiresAt.Some? && expiresAt.value < step.now
  }

  lemma {:induction false} CommitAfterRowNeedsPurge(
    base: string, w: World, steps: seq<Step>, n: nat, state: string, key: Key)
    requires LegalRun(base, w, steps) && key in w.db.credentials && CommitsAt(base, w, steps, n, state, key)
    ensures exists c :: 0 <= c < n && Reaches(w.db.credentials[key].expiresAt, steps[c])
    decreases n
  {
    hide Apply;
    var next := Apply(base, w, steps[0]);
    assert WorldAt(base, w, steps, 1) == WorldAt(base, next, steps[1..], 0);
    if n == 0 {
      CommitMeans(base, w, steps[0], state, key);
      assert false;
    }
    StepKeepsCredentialIff(base, w, steps[0], key);
    assert [steps[0]][0] == steps[0];
    if key in next.db.credentials {
      CommitAfterRowNeedsPurge(base, next, steps[1..], n - 1, state, key);
      var c :| 0 <= c < n - 1 && Reaches(next.db.credentials[key].expiresAt, steps[1..][c]);
      assert Reaches(w.db.credentials[key].expiresAt, steps[c + 1]);
    }
  }

  /** A workspace and provider commit a second callback, under any interleaving, only if a purge has run in
      between that reached the expiry of the credential the first one stored: at most once while that row
      exists, and at most once ever if it has no expiry. */
  lemma OneSuccessPerKey(
    base: string, w: World, steps: seq<Step>, a: nat, b: nat, first: string, second: string, key: Key)
    requires LegalRun(base, w, steps) && a < b
    requires CommitsAt(base, w, steps, a, first, key) && CommitsAt(base, w, steps, b, second, key)
    ensures key in WorldAt(base, w, steps, a + 1).db.credentials
    ensures exists c :: a < c < b && Reaches(WorldAt(base, w, steps, a + 1).db.credentials[key].expiresAt, steps[c])
  {
    hide Apply;
    var before, after := WorldAt(base, w, steps, a), WorldAt(base, w, steps, a + 1);
    WorldAtSplits(base, w, steps, a, a + 1);
    assert WorldAt(base, before, steps[a..], 1) == WorldAt(base, Apply(base, before, steps[a]), steps[a..][1..], 0);
    assert after == Apply(base, before, steps[a]);
    CommitMeans(base, before, steps[a], first, key);
    WorldAtSplits(base, w, steps, a + 1, b);
    WorldAtSplits(base, w, steps, a + 1, b + 1);
    CommitAfterRowNeedsPurge(base, after, steps[a + 1..], b - a - 1, second, key);
    var c :| 0 <= c < b - a - 1 && Reaches(after.db.credentials[key].expiresAt, steps[a + 1..][c]);
    assert Reaches(after.db.credentials[key].expiresAt, steps[a + 1 + c]);
  }

  lemma {:induction false} SuccessesOnlyGrow(base: string, w: World, steps: seq<Step>, n: nat)
    requires LegalRun(base, w, steps) && Bound(w) && n <= |steps|
    ensures w.successes <= WorldAt(base, w, steps, n).successes
    ensures Bound(WorldAt(base, w, steps, n))
    decreases n
  {
    if n > 0 {
      assert w.successes <= Apply(base, w, steps[0]).successes;
      StepIsBound(base, w, steps[0]);
      hide Apply;
      hide Bound;
      SuccessesOnlyGrow(base, Apply(base, w, steps[0]), steps[1..], n - 1);
    }
  }

  /** So a state commits a second callback, in any run from the empty tables, only if a purge has run in
      between that reached the expiry of the credential the first one stored. */
  lemma EveryStateCommitsOnce(base: string, steps: seq<Step>, a: nat, b: nat, state: string, key: Key, key': Key)
    requires LegalRun(base, START, steps) && a < b
    requires CommitsAt(base, START, steps, a, state, key) && CommitsAt(base, START, steps, b, state, key')
    ensures key == key' && key in WorldAt(base, START, steps, a + 1).db.credentials
    ensures exists c ::
              a < c < b && Reaches(WorldAt(base, START, steps, a + 1).db.credentials[key].expiresAt, steps[c])
  {
    hide Apply;
    var w1, w2 := WorldAt(base, START, steps, a + 1), WorldAt(base, START, steps, b);
    var w3 := WorldAt(base, START, steps, b + 1);
    SuccessesOnlyGrow(base, START, steps, a + 1);
    SuccessesOnlyGrow(base, START, steps, b + 1);
    WorldAtSplits(base, START, steps, a + 1, b);
    SuccessesOnlyGrow(base, w1, steps[a + 1..], b - a - 1);
    var i := |w1.successes| - 1;
    assert w1.successes[i] == (state, key) && w3.successes[i] == w1.successes[i];
    assert w3.successes[|w2.successes|] == (state, key');
    OneSuccessPerKey(base, START, steps, a, b, state, state, key);
  }

  // ------------------------------------------------------------ what interleaving breaks

  lemma RunOne(base: string, w: World, step: Step, rest: seq<Step>)
    requires Enabled(w, step) && LegalRun(base, Apply(base, w, step), rest)
    ensures LegalRun(base, w, [step] + rest)
    ensures Run(base, w, [step] + rest) == Run(base, Apply(base, w, step), rest)
  {
    hide Apply;
    assert ([step] + rest)[1..] == rest;
  }

  lemma CommitThenPurge(base: string, w: World, f: nat, reply: Reply, now: real)
    requires f in w.flights && w.flights[f].CallbackFlight? && w.flights[f].state in w.db.states
    requires w.flights[f].row.key !in w.db.credentials
    requires reply == Tokens("t", None, Seconds(1))
    ensures var flight := w.flights[f];
            var committed := Apply(base, w, EndCallback(f, reply, now));
            var purged := Apply(base, committed, DoPurge(now + 2.0));
            && purged.successes == w.successes + [(flight.state, flight.row.key)]
            && purged.flights == w.flights - {f}
            && flight.state in purged.db.states && flight.row.key !in purged.db.credentials
  {
    var committed := Apply(base, w, EndCallback(f, reply, now));
    assert committed.db.credentials[w.flights[f].row.key].expiresAt == Some(now + 1.0);
  }

  lemma BeginTwice(base: string, w: World, f: nat, g: nat, provider: string, state: string, now: real)
    requires f != g && f !in w.flights && g !in w.flights
    requires FindState(w.db, provider, state, now).Valid?
    ensures var w1 := Apply(base, w, BeginCallback(f, provider, state, now));
            && g !in w1.flights
            && var w2 := Apply(base, w1, BeginCallback(g, provider, state, now));
               && w2.db == w.db && w2.successes == w.successes
               && f in w2.flights && w2.flights[f] == CallbackFlight(state, w.db.states[state])
               && g in w2.flights && w2.flights[g] == CallbackFlight(state, w.db.states[state])
  {
  }

  /** Two callbacks in flight on one state: both commit, provided the credential row of the first is
      purged in between. */
  lemma OneStateCanCommitTwice(base: string, w: World, f: nat, g: nat, provider: string, state: string, now: real)
    requires f != g && f !in w.flights && g !in w.flights
    requires FindState(w.db, provider, state, now).Valid?
    requires w.db.states[state].key !in w.db.credentials
    ensures exists steps :: LegalRun(base, w, steps)
              && Run(base, w, steps).successes
                 == w.successes + [(state, w.db.states[state].key), (state, w.db.states[state].key)]
  {
    hide Apply;
    var reply := Tokens("t", None, Seconds(1));
    BeginTwice(base, w, f, g, provider, state, now);
    var w1 := Apply(base, w, BeginCallback(f, provider, state, now));
    var w2 := Apply(base, w1, BeginCallback(g, provider, state, now));
    CommitThenPurge(base, w2, f, reply, now);
    var w3 := Apply(base, w2, EndCallback(f, reply, now));
    var w4 := Apply(base, w3, DoPurge(now + 2.0));
    CommitThenPurge(base, w4, g, reply, now);
    var w5 := Apply(base, w4, EndCallback(g, reply, now));
    var s6 := [DoPurge(now + 2.0)] + [];
    var s5 := [EndCallback(g, reply, now)] + s6;
    var s4 := [DoPurge(now + 2.0)] + s5;
    var s3 := [EndCallback(f, reply, now)] + s4;
    var s2 := [BeginCallback(g, provider, state, now)] + s3;
    RunOne(base, w5, DoPurge(now + 2.0), []);
    RunOne(base, w4, EndCallback(g, reply, now), s6);
    RunOne(base, w3, DoPurge(now + 2.0), s5);
    RunOne(base, w2, EndCallback(f, reply, now), s4);
    RunOne(base, w1, BeginCallback(g, provider, state, now), s3);
    RunOne(base, w, BeginCallback(f, provider, state, now), s2);
    assert LegalRun(base, w, [BeginCallback(f, provider, state, now)] + s2);
  }

  // ------------------------------------------------------------- what revocation leaves

  /** Local tokens of a workspace and provider, which are stored in both tables. */
  predicate HoldsTokens(db: Db, key: Key) {
    (key in db.connections && db.connections[key].blob.Some?) || key in db.credentials
  }

  /** When a revocation leaves no local tokens: if and only if the connection had none, or could have one
      revoked remotely, and there is no oauth_default credential.  Without a revoke URL or a readable
      token the connection keeps its blob, and revocation never looks at the credential. */
  lemma RevocationDestroysTokensIff(base: string, w: World, f: nat, key: Key, hasRevokeUrl: bool, readable: bool)
    requires Enabled(w, BeginRevoke(f, key, hasRevokeUrl, readable))
    ensures var begun := Apply(base, w, BeginRevoke(f, key, hasRevokeUrl, readable));
            var after := if f in begun.flights then Apply(base, begun, EndRevoke(f)) else begun;
            var blob := w.db.connections[key].blob;
            var revocable := readable && blob.Some?
                             && (blob.value.access.text != ""
                                 || (blob.value.refresh.Some? && blob.value.refresh.value.text != ""));
            && (!HoldsTokens(after.db, key) <==>
                  key !in w.db.credentials && (blob.None? || (hasRevokeUrl && revocable)))
            && (!after.db.connections[key].active <==>
                  !w.db.connections[key].active || !hasRevokeUrl || revocable)
            && (hasRevokeUrl && !revocable ==> after == w)
            && (!hasRevokeUrl || revocable ==> after.db.connections[key].status == Revoked)
            && after.db.connections[key].scopes == w.db.connections[key].scopes
            && after.db.connections[key].expiresAt == w.db.connections[key].expiresAt
            && after.db.connections - {key} == w.db.connections - {key}
  {
  }

  /** No purge of the run reaches the expiry. */
  ghost predicate Outlives(expiresAt: Option<real>, steps: seq<Step>) {
    forall i :: 0 <= i < |steps| ==> !Reaches(expiresAt, steps[i])
  }

  lemma StepKeepsCredentialIff(base: string, w: World, step: Step, key: Key)
    requires Enabled(w, step) && key in w.db.credentials
    ensures var after := Apply(base, w, step).db;
            && (key in after.credentials <==> Outlives(w.db.credentials[key].expiresAt, [step]))
            && (key in after.credentials ==> after.credentials[key] == w.db.credentials[key])
  {
    assert [step][0] == step;
  }

  /** The key has a credential before and after every step. */
  ghost predicate AlwaysThere(base: string, w: World, steps: seq<Step>, key: Key)
    requires LegalRun(base, w, steps)
    decreases |steps|
  {
    key in w.db.credentials && (steps != [] ==> AlwaysThere(base, Apply(base, w, steps[0]), steps[1..], key))
  }

  /** The credential of a committed callback outlives everything but its purge: whatever is revoked,
      disconnected, refreshed or called back in between, the row is there throughout, unchanged, if and
      only if no purge of the run reaches its expiry, so for ever if it has none.  Until then local tokens
      are not destroyed. */
  lemma {:induction false} CredentialSurvivesRevocationIff(base: string, w: World, steps: seq<Step>, key: Key)
    requires LegalRun(base, w, steps) && key in w.db.credentials
    ensures AlwaysThere(base, w, steps, key) <==> Outlives(w.db.credentials[key].expiresAt, steps)
    ensures Outlives(w.db.credentials[key].expiresAt, steps) ==>
              var after := Run(base, w, steps).db;
              && key in after.credentials && after.credentials[key] == w.db.credentials[key]
              && HoldsTokens(after, key)
    decreases |steps|
  {
    if steps != [] {
      var next := Apply(base, w, steps[0]);
      StepKeepsCredentialIff(base, w, steps[0], key);
      hide Apply;
      assert [steps[0]][0] == steps[0];
      assert forall i :: 0 <= i < |steps[1..]| ==> steps[1..][i] == steps[i + 1];
      assert forall i :: 1 <= i < |steps| ==> steps[i] == steps[1..][i - 1];
      if key in next.db.credentials {
        CredentialSurvivesRevocationIff(base, next, steps[1..], key);
      }
    }
  }

  // ------------------------------------------------------ cleanup and callbacks in flight

  /** The step consumes the state: the end of a callback on it that commits or is rejected, or a new
      callback that finds it expired. */
  ghost predicate Consumes(w: World, step: Step, state: string)
    requires Enabled(w, step)
  {
    match step
    case EndCallback(f, reply, now) =>
      var result := Settle(w.db, w.flights[f].state, w.flights[f].row, reply, now).1;
      w.flights[f].state == state && (result.Stored? || result.ExchangeRejected?)
    case BeginCallback(_, provider, t, now) => t == state && FindState(w.db, provider, t, now).Expired?
    case _ => false
  }

  ghost predicate SomeStepConsumes(base: string, w: World, steps: seq<Step>, state: string)
    requires LegalRun(base, w, steps)
    decreases |steps|
  {
    steps != [] && (Consumes(w, steps[0], state)
                    || SomeStepConsumes(base, Apply(base, w, steps[0]), steps[1..], state))
  }

  lemma StepOnState(base: string, w: World, step: Step, state: string)
    requires Enabled(w, step) && state in w.urls
    ensures var w' := Apply(base, w, step);
            && state in w'.urls
            && (state !in w.db.states ==> state !in w'.db.states)
            && (state in w.db.states && state in w'.db.states ==>
                  w'.db.states[state] == w.db.states[state].(
                    consumed := w.db.states[state].consumed || Consumes(w, step, state)))
  {
  }

  /** For as long as it is not cleaned up, a state row changes only by being consumed, by a callback on that
      state; and a row that is gone stays gone. */
  lemma {:induction false} RunOnState(base: string, w: World, steps: seq<Step>, state: string)
    requires LegalRun(base, w, steps) && state in w.urls
    ensures var after := Run(base, w, steps);
            && (state !in w.db.states ==> state !in after.db.states)
            && (state in after.db.states ==>
                  after.db.states[state] == w.db.states[state].(
                    consumed := w.db.states[state].consumed || SomeStepConsumes(base, w, steps, state)))
    decreases |steps|
  {
    if steps != [] {
      StepOnState(base, w, steps[0], state);
      hide Apply;
      hide Consumes;
      RunOnState(base, Apply(base, w, steps[0]), steps[1..], state);
    }
  }

  /** A cleanup is visible to a callback in flight: a granted callback that would commit without it fails
      after it if and only if its state row is disposable by then. */
  lemma CleanupBreaksCallbackIff(base: string, w: World, g: nat, reply: Reply, now: real, swept: real)
    requires Enabled(w, EndCallback(g, reply, now)) && Grants(reply)
    requires w.flights[g].state in w.db.states && w.flights[g].row.key !in w.db.credentials
    ensures var flight := w.flights[g];
            var cleaned := Apply(base, w, DoCleanup(swept));
            && Apply(base, w, EndCallback(g, reply, now)).successes == w.successes + [(flight.state, flight.row.key)]
            && (Apply(base, cleaned, EndCallback(g, reply, now)).successes == w.successes
                <==> Disposable(w.db.states[flight.state], swept))
  {
  }

  /** Over runs: a callback began on a valid state, anything happened since, and its state row is still there.
      A cleanup now makes it fail, where without the cleanup it would commit, if and only if its state has
      expired or another callback on the same state has consumed it meanwhile. */
  lemma CleanupDuringCallbackIff(
    base: string, w: World, g: nat, provider: string, state: string, began: real, steps: seq<Step>,
    reply: Reply, now: real, swept: real)
    requires Bound(w) && Enabled(w, BeginCallback(g, provider, state, began))
    requires FindState(w.db, provider, state, began).Valid? && Grants(reply)
    requires var begun := Apply(base, w, BeginCallback(g, provider, state, began));
             && LegalRun(base, begun, steps)
             && var after := Run(base, begun, steps);
                && g in after.flights && after.flights[g] == begun.flights[g]
                && state in after.db.states && w.db.states[state].key !in after.db.credentials
    ensures var begun := Apply(base, w, BeginCallback(g, provider, state, began));
            var after := Run(base, begun, steps);
            var cleaned := Apply(base, after, DoCleanup(swept));
            && |Apply(base, after, EndCallback(g, reply, now)).successes| == |after.successes| + 1
            && (|Apply(base, cleaned, EndCallback(g, reply, now)).successes| == |after.successes|
                <==> w.db.states[state].expiresAt < swept || SomeStepConsumes(base, begun, steps, state))
  {
    var begun := Apply(base, w, BeginCallback(g, provider, state, began));
    var after := Run(base, begun, steps);
    assert RowBound(w.urls, state, w.db.states[state]);
    RunOnState(base, begun, steps, state);
    CleanupBreaksCallbackIff(base, after, g, reply, now, swept);
  }
}
