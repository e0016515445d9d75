/** The OAuth manager: authorization states, connections and stored credentials, and the
    service that moves rows between them inside database transactions.

    The state, connection and credential tables are maps from their unique keys.  Of the
    credential table only the rows named oauth_default matter here.  Upstream replies, the
    readability of a stored blob and the clock are inputs.
 */
module OAuthManager {
  import opened Basics

  // ------------------------------------------------------------------------ tables

  /** Where a token comes from: an exchange under a state, or a refresh of another token. */
  datatype Lineage = ByCode(state: string) | ByRefresh(parent: Lineage)

  datatype Token = Token(text: string, lineage: Lineage)

  datatype Credentials = Credentials(access: Token, refresh: Option<Token>)

  datatype Key = Key(workspace: string, provider: string)

  datatype Status = Connected | Revoked | Disconnected

  datatype Connection = Connection(
    status: Status, active: bool, blob: Option<Credentials>, scopes: seq<string>, expiresAt: Option<real>)

  datatype CredentialRow = CredentialRow(blob: Credentials, expiresAt: Option<real>)

  datatype StateRow = StateRow(
    key: Key, verifier: Option<string>, redirectUri: string, scopes: seq<string>, expiresAt: real, consumed: bool)

  datatype Db = Db(
    states: map<string, StateRow>, connections: map<Key, Connection>, credentials: map<Key, CredentialRow>)

  const EMPTY := Db(map[], map[], map[])

  // --------------------------------------------------------------- upstream replies

  /** OutOfRange: a number of seconds that leaves the range of dates, which raises an overflow error. */
  datatype ExpiresIn = Absent | Seconds(n: int) | Malformed | OutOfRange

  /** The token endpoint's answer.  Of a successful response whose body is no JSON object, Keyless is an
      array or a text without "access_token", and Unreadable anything else, JSON or not. */
  datatype Reply =
    | Tokens(access: string, refresh: Option<string>, expiresIn: ExpiresIn)
    | NoAccessToken
    | HttpError
    | TransportError
    | Keyless
    | Unreadable

  /** A token, with a lifetime that can be added to the clock. */
  predicate Grants(reply: Reply) {
    reply.Tokens? && !reply.expiresIn.OutOfRange?
  }

  /** An empty string counts as absent. */
  function Given(o: Option<string>): Option<string> {
    if o == Some("") then None else o
  }

  /** Zero counts as absent. */
  function Expiry(e: ExpiresIn, now: real): Option<real> {
    if e.Seconds? && e.n != 0 then Some(now + e.n as real) else None
  }

  // -------------------------------------------------------------------- authorize

  /** The S256 transformation of a code verifier, taken to be injective. */
  datatype Challenge = S256(verifier: string)

  /** The authorization URL that carries a state. */
  datatype Url = Url(key: Key, redirectUri: string, challenge: Option<Challenge>)

  function DefaultRedirectUri(base: string, provider: string): string {
    base + "/oauth/callback/" + provider
  }

  function Or(a: string, b: string): string {
    if a != "" then a else b
  }

  datatype Authorization = Authorization(
    key: Key, pkce: Option<string>, redirectUri: string, scopes: seq<string>, expiresAt: real)

  function NewState(base: string, a: Authorization): StateRow {
    StateRow(a.key, a.pkce, Or(a.redirectUri, DefaultRedirectUri(base, a.key.provider)), a.scopes, a.expiresAt, false)
  }

  function UrlFor(base: string, a: Authorization): Url {
    Url(a.key, Or(a.redirectUri, DefaultRedirectUri(base, a.key.provider)),
        if Given(a.pkce).Some? then Some(S256(a.pkce.value)) else None)
  }

  // --------------------------------------------------------------------- callback

  datatype Found = Missing | Expired | Valid(row: StateRow)

  function FindState(db: Db, provider: string, state: string, now: real): Found {
    if state !in db.states || db.states[state].key.provider != provider || db.states[state].consumed then Missing
    else if db.states[state].expiresAt < now then Expired
    else Valid(db.states[state])
  }

  function Consume(db: Db, state: string): Db
    requires state in db.states
  {
    db.(states := db.states[state := db.states[state].(consumed := true)])
  }

  /** The request sent to the token endpoint. */
  datatype Exchange = Exchange(state: string, provider: string, redirectUri: string, verifier: Option<string>)

  function ExchangeFor(base: string, state: string, row: StateRow): Exchange {
    Exchange(state, row.key.provider, Or(row.redirectUri, DefaultRedirectUri(base, row.key.provider)),
             Given(row.verifier))
  }

  datatype Result =
    | Stored(key: Key, scopes: seq<string>, expiresAt: Option<real>)
    | InvalidState
    | ExpiredState
    | ExchangeRejected
    | ExchangeBroken
    | UniqueViolation
    | StaleState

  function Upsert(db: Db, row: StateRow, blob: Credentials, expiresAt: Option<real>): Db {
    var active := if row.key in db.connections then db.connections[row.key].active else true;
    db.(connections := db.connections[row.key := Connection(Connected, active, Some(blob), row.scopes, expiresAt)])
  }

  function Granted(state: string, reply: Reply): Credentials
    requires reply.Tokens?
  {
    Credentials(Token(reply.access, ByCode(state)),
                if Given(reply.refresh).Some? then Some(Token(reply.refresh.value, ByCode(state))) else None)
  }

  /** The end of a callback whose state row was read as `row`: what its transaction commits on the
      tables as they are now.  A rejected exchange is committed by the audit record; a transport
      error, an answer that is no object, a lifetime out of range, a second oauth_default row and a
      vanished state row roll everything back. */
  function Settle(db: Db, state: string, row: StateRow, reply: Reply, now: real): (Db, Result) {
    match reply
    case TransportError => (db, ExchangeBroken)
    case Keyless => (db, ExchangeBroken)
    case Unreadable => (db, ExchangeBroken)
    case HttpError => if state in db.states then (Consume(db, state), ExchangeRejected) else (db, StaleState)
    case NoAccessToken => if state in db.states then (Consume(db, state), ExchangeRejected) else (db, StaleState)
    case Tokens(_, _, expiresIn) =>
      if expiresIn.OutOfRange? then (db, ExchangeBroken)
      else if state !in db.states then (db, StaleState)
      else if row.key in db.credentials then (db, UniqueViolation)
      else
        var blob, expiresAt := Granted(state, reply), Expiry(expiresIn, now);
        var stored := Upsert(Consume(db, state), row, blob, expiresAt);
        (stored.(credentials := stored.credentials[row.key := CredentialRow(blob, expiresAt)]),
         Stored(row.key, row.scopes, expiresAt))
  }

  /** A callback that no other transaction interleaves with. */
  function Callback(db: Db, provider: string, state: string, now: real, reply: Reply, done: real): (Db, Result) {
    match FindState(db, provider, state, now)
    case Missing => (db, InvalidState)
    case Expired => (Consume(db, state), ExpiredState)
    case Valid(row) => Settle(db, state, row, reply, done)
  }

  // ------------------------------------------------------------- refresh and revoke

  /** The refresh token a refresh of this connection would present. */
  function RefreshTokenOf(c: Connection, readable: bool): Option<Token> {
    if readable && c.blob.Some? && c.blob.value.refresh.Some? && c.blob.value.refresh.value.text != ""
    then c.blob.value.refresh
    else None
  }

  function Renewed(stored: Credentials, presented: Token, reply: Reply): Credentials
    requires reply.Tokens?
  {
    Credentials(Token(reply.access, ByRefresh(presented.lineage)),
                if Given(reply.refresh).Some? then Some(Token(reply.refresh.value, ByRefresh(presented.lineage)))
                else stored.refresh)
  }

  /** The expiry a refresh assigns: malformed seconds first clear the stored expiry. */
  function RefreshedExpiry(was: Option<real>, e: ExpiresIn, now: real): Option<real> {
    if e.Malformed? then None
    else if Expiry(e, now).Some? then Expiry(e, now) else was
  }

  /** How a refresh ends: Refused raises TokenExpired, Broken any other exception. */
  datatype RefreshResult = Refreshed | Refused | Broken

  function RefreshResultOf(presented: Option<Token>, reply: Reply): RefreshResult {
    if presented.None? then Refused
    else match reply
      case Tokens(_, _, expiresIn) => if expiresIn.OutOfRange? then Broken else Refreshed
      case Unreadable => Broken
      case _ => Refused
  }

  /** A refresh that no other transaction interleaves with, and how it ends. */
  function Refresh(c: Connection, readable: bool, reply: Reply, now: real): (Connection, RefreshResult) {
    var presented := RefreshTokenOf(c, readable);
    var result := RefreshResultOf(presented, reply);
    if !result.Refreshed? then (c, result)
    else
      (c.(blob := Some(Renewed(c.blob.value, presented.value, reply)),
          expiresAt := RefreshedExpiry(c.expiresAt, reply.expiresIn, now)), result)
  }

  /** Both credentials of a stored blob count as a token to revoke when not empty. */
  function HasToken(c: Connection, readable: bool): bool {
    readable && c.blob.Some?
    && (c.blob.value.access.text != "" || (c.blob.value.refresh.Some? && c.blob.value.refresh.value.text != ""))
  }

  function Revoke(c: Connection, hasRevokeUrl: bool, readable: bool): Connection {
    if !hasRevokeUrl then c.(status := Revoked, active := false)
    else if !HasToken(c, readable) then c
    else c.(status := Revoked, active := false, blob := None)
  }

  function GetConnection(db: Db, key: Key): Option<Connection> {
    if key in db.connections && db.connections[key].active then Some(db.connections[key]) else None
  }

  // ------------------------------------------------------------------------ cleanup

  predicate Disposable(row: StateRow, now: real) {
    row.consumed || row.expiresAt < now
  }

  function Cleanup(db: Db, now: real): Db {
    db.(states := map t | t in db.states && !Disposable(db.states[t], now) :: db.states[t])
  }

  function PurgeCredentials(db: Db, now: real): Db {
    db.(credentials := map k | k in db.credentials
                            && !(db.credentials[k].expiresAt.Some? && db.credentials[k].expiresAt.value < now)
                       :: db.credentials[k])
  }

  lemma RemoveOne<K, V>(m: map<K, V>, selected: set<K>, left: set<K>, t: K)
    requires t in left && left <= selected
    ensures (m - (selected - left)) - {t} == m - (selected - (left - {t}))
  {
    assert selected - (left - {t}) == (selected - left) + {t};
  }

  lemma CleanupRemoves(db: Db, now: real, selected: set<string>)
    requires forall t :: t in selected <==> t in db.states && Disposable(db.states[t], now)
    ensures db.states - selected == Cleanup(db, now).states
  {
  }

  // ---------------------------------------------------------------- the mutable service

  /** One refresh of a batch: the connection picked, and what happens to it. */
  datatype Attempt = Attempt(key: Key, readable: bool, reply: Reply)

  function RefreshAll(db: Db, batch: seq<Attempt>, now: real): (r: (Db, nat))
    requires forall i :: 0 <= i < |batch| ==> batch[i].key in db.connections
    ensures r.0.connections.Keys == db.connections.Keys
    decreases |batch|
  {
    if batch == [] then (db, 0)
    else
      var (c, result) := Refresh(db.connections[batch[0].key], batch[0].readable, batch[0].reply, now);
      var next := db.(connections := db.connections[batch[0].key := c]);
      var (end, count) := RefreshAll(next, batch[1..], now);
      (end, count + if result.Refreshed? then 1 else 0)
  }

  /** A database session over committed tables: writes are staged in `work` and `inserts`, and
      reach `db` together at a commit, or not at all. */
  class OAuthService {
    const base: string
    var db: Db
    var work: Db
    var inserts: seq<(Key, CredentialRow)>

    ghost predicate Clean()
      reads this
    {
      work == db && inserts == []
    }

    constructor (base: string)
      ensures this.base == base && Clean() && db == EMPTY
    {
      this.base := base;
      db, work, inserts := EMPTY, EMPTY, [];
    }

    method Rollback()
      modifies this
      ensures db == old(db) && Clean()
    {
      work, inserts := db, [];
    }

    /** False stands for an integrity error on the credential table's unique key. */
    method Commit() returns (ok: bool)
      requires |inserts| <= 1
      modifies this
      ensures Clean()
      ensures ok <==> old(inserts) == [] || old(inserts)[0].0 !in old(work).credentials
      ensures !ok ==> db == old(db)
      ensures ok ==> db == if old(inserts) == [] then old(work)
                           else old(work).(credentials :=
                                  old(work).credentials[old(inserts)[0].0 := old(inserts)[0].1])
    {
      ok := inserts == [] || inserts[0].0 !in work.credentials;
      if ok {
        if inserts != [] {
          work := work.(credentials := work.credentials[inserts[0].0 := inserts[0].1]);
        }
        db, inserts := work, [];
      } else {
        Rollback();
      }
    }

    method CreateAuthorizationUrl(state: string, a: Authorization) returns (url: Url)
      requires Clean() && state !in db.states
      modifies this
      ensures Clean() && db == old(db).(states := old(db).states[state := NewState(base, a)])
      ensures url == UrlFor(base, a)
    {
      var redirectUri := a.redirectUri;
      if redirectUri == "" {
        redirectUri := DefaultRedirectUri(base, a.key.provider);
      }
      var record := StateRow(a.key, a.pkce, redirectUri, a.scopes, a.expiresAt, false);
      work := work.(states := work.states[state := record]);
      var _ := Commit();
      url := Url(a.key, redirectUri, None);
      if a.pkce.Some? && a.pkce.value != "" {
        url := url.(challenge := Some(S256(a.pkce.value)));
      }
    }

    /** The select that consumes a state; its write is still pending when a row is returned. */
    method ConsumeState(provider: string, state: string, now: real) returns (found: Found)
      requires Clean()
      modifies this
      ensures found == FindState(old(db), provider, state, now)
      ensures inserts == []
      ensures found.Missing? ==> Clean() && db == old(db)
      ensures found.Expired? ==> Clean() && db == Consume(old(db), state)
      ensures found.Valid? ==> db == old(db) && work == Consume(old(db), state)
    {
      if state !in work.states || work.states[state].key.provider != provider || work.states[state].consumed {
        return Missing;
      }
      var record := work.states[state];
      work := work.(states := work.states[state := record.(consumed := true)]);
      if record.expiresAt < now {
        var _ := Commit();
        return Expired;
      }
      return Valid(record);
    }

    method UpsertConnection(row: StateRow, blob: Credentials, expiresAt: Option<real>)
      modifies this
      ensures db == old(db) && inserts == old(inserts)
      ensures work == Upsert(old(work), row, blob, expiresAt)
    {
      if row.key !in work.connections {
        var connection := Connection(Connected, true, Some(blob), row.scopes, expiresAt);
        work := work.(connections := work.connections[row.key := connection]);
      } else {
        var connection := work.connections[row.key];
        connection := connection.(status := Connected, blob := Some(blob));
        connection := connection.(scopes := row.scopes, expiresAt := expiresAt);
        work := work.(connections := work.connections[row.key := connection]);
      }
    }

    method PersistCredential(key: Key, blob: Credentials, expiresAt: Option<real>)
      modifies this
      ensures db == old(db) && work == old(work)
      ensures inserts == old(inserts) + [(key, CredentialRow(blob, expiresAt))]
    {
      inserts := inserts + [(key, CredentialRow(blob, expiresAt))];
    }

    /** The callback endpoint.  An OAuth failure is followed by an audit record, whose commit also
        commits what the session has pending; any other exception rolls the session back. */
    method HandleCallback(provider: string, state: string, now: real, reply: Reply, done: real)
      returns (result: Result, sent: Option<Exchange>)
      requires Clean()
      modifies this
      ensures Clean() && (db, result) == Callback(old(db), provider, state, now, reply, done)
      ensures sent == match FindState(old(db), provider, state, now)
                      case Valid(row) => Some(ExchangeFor(base, state, row))
                      case _ => None
    {
      sent := None;
      var found := ConsumeState(provider, state, now);
      match found {
        case Missing =>
          var _ := Commit();
          return InvalidState, None;
        case Expired =>
          var _ := Commit();
          return ExpiredState, None;
        case Valid(row) =>
          var verifier := Given(row.verifier);
          sent := Some(Exchange(state, provider, Or(row.redirectUri, DefaultRedirectUri(base, provider)), verifier));
          match reply {
            case TransportError =>
              Rollback();
              result := ExchangeBroken;
            case Keyless =>
              Rollback();
              result := ExchangeBroken;
            case Unreadable =>
              Rollback();
              result := ExchangeBroken;
            case HttpError =>
              var _ := Commit();
              result := ExchangeRejected;
            case NoAccessToken =>
              var _ := Commit();
              result := ExchangeRejected;
            case Tokens(_, _, expiresIn) =>
              var blob := Granted(state, reply);
              if expiresIn.OutOfRange? {
                Rollback();
                return ExchangeBroken, sent;
              }
              var expiresAt := Expiry(expiresIn, done);
              UpsertConnection(row, blob, expiresAt);
              PersistCredential(row.key, blob, expiresAt);
              var ok := Commit();
              result := if ok then Stored(row.key, row.scopes, expiresAt) else UniqueViolation;
          }
      }
    }

    method RefreshAccessToken(key: Key, readable: bool, reply: Reply, now: real) returns (result: RefreshResult)
      requires Clean() && key in db.connections
      modifies this
      ensures Clean()
      ensures var (c, end) := Refresh(old(db).connections[key], readable, reply, now);
              result == end && db == old(db).(connections := old(db).connections[key := c])
    {
      var connection := db.connections[key];
      assert db.(connections := db.connections[key := connection]) == db;
      if !readable || connection.blob.None? || connection.blob.value.refresh.None?
         || connection.blob.value.refresh.value.text == ""
      {
        return Refused;
      }
      var credentials := connection.blob.value;
      var presented := credentials.refresh.value;
      if reply.TransportError? || reply.HttpError? {
        return Refused;
      }
      if reply.Unreadable? {
        return Broken;
      }
      if reply.NoAccessToken? || reply.Keyless? {
        return Refused;
      }
      credentials := credentials.(access := Token(reply.access, ByRefresh(presented.lineage)));
      if reply.expiresIn.OutOfRange? {
        return Broken;
      }
      if reply.expiresIn.Malformed? || (reply.expiresIn.Seconds? && reply.expiresIn.n != 0) {
        connection := connection.(expiresAt := Expiry(reply.expiresIn, now));
      }
      if reply.refresh.Some? && reply.refresh.value != "" {
        credentials := credentials.(refresh := Some(Token(reply.refresh.value, ByRefresh(presented.lineage))));
      }
      connection := connection.(blob := Some(credentials));
      if Expiry(reply.expiresIn, now).Some? {
        connection := connection.(expiresAt := Expiry(reply.expiresIn, now));
      }
      work := work.(connections := work.connections[key := connection]);
      var _ := Commit();
      result := Refreshed;
    }

    method RevokeToken(key: Key, hasRevokeUrl: bool, readable: bool)
      requires Clean() && key in db.connections
      modifies this
      ensures Clean()
      ensures db == old(db).(connections :=
                      old(db).connections[key := Revoke(old(db).connections[key], hasRevokeUrl, readable)])
    {
      var connection := db.connections[key];
      assert db.(connections := db.connections[key := connection]) == db;
      if hasRevokeUrl && !HasToken(connection, readable) {
        return;
      }
      connection := connection.(status := Revoked, active := false);
      if hasRevokeUrl {
        connection := connection.(blob := None);
      }
      work := work.(connections := work.connections[key := connection]);
      var _ := Commit();
    }

    /** False stands for raising ConnectionNotFound. */
    method Disconnect(key: Key) returns (ok: bool)
      requires Clean()
      modifies this
      ensures Clean() && (ok <==> GetConnection(old(db), key).Some?)
      ensures db == if ok then old(db).(connections := old(db).connections[key :=
                                  old(db).connections[key].(status := Disconnected, active := false)])
                    else old(db)
    {
      var connection := GetConnection(db, key);
      if connection.None? {
        return false;
      }
      work := work.(connections := work.connections[key :=
                      connection.value.(active := false, status := Disconnected)]);
      ok := Commit();
    }

    /** The batch refresh task: a failed refresh is skipped, the successful ones are counted. */
    method RefreshEndingTokens(batch: seq<Attempt>, now: real) returns (refreshed: nat)
      requires Clean() && forall i :: 0 <= i < |batch| ==> batch[i].key in db.connections
      modifies this
      ensures Clean() && (db, refreshed) == RefreshAll(old(db), batch, now)
    {
      refreshed := 0;
      var i := 0;
      while i < |batch|
        invariant 0 <= i <= |batch| && Clean()
        invariant forall j :: 0 <= j < |batch| ==> batch[j].key in db.connections
        invariant RefreshAll(old(db), batch, now).0 == RefreshAll(db, batch[i..], now).0
        invariant RefreshAll(old(db), batch, now).1 == refreshed + RefreshAll(db, batch[i..], now).1
      {
        assert batch[i..][1..] == batch[i + 1..];
        var result := RefreshAccessToken(batch[i].key, batch[i].readable, batch[i].reply, now);
        if result.Refreshed? {
          refreshed := refreshed + 1;
        }
        i := i + 1;
      }
    }

    method CleanupExpiredStates(now: real) returns (removed: nat)
      requires Clean()
      modifies this
      ensures Clean() && db == Cleanup(old(db), now)
      ensures removed == |set t | t in old(db).states && Disposable(old(db).states[t], now)|
    {
      var selected := set t | t in db.states && Disposable(db.states[t], now);
      removed := |selected|;
      var left := selected;
      while left != {}
        invariant left <= selected && db == old(db) && inserts == []
        invariant work == old(db).(states := old(db).states - (selected - left))
        decreases left
      {
        var t :| t in left;
        RemoveOne(old(db).states, selected, left, t);
        work := work.(states := work.states - {t});
        left := left - {t};
      }
      assert selected - {} == selected;
      CleanupRemoves(old(db), now, selected);
      var _ := Commit();
    }
  }
}
