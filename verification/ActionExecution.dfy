/** Executing a provider action, with one transparent token refresh. */
module ActionExecution {
  import opened Basics
  import opened OAuthManager

  /** How the provider answers one action call. */
  datatype Call = Succeeded | TokenExpired | OtherError

  datatype Outcome = Returned | ConnectionNotFound | CredentialNotFound | Unreadable | Expired | Raised

  /** What an execution did: its outcome, the action calls made, and the provider instances built and
      closed. */
  datatype Report = Report(outcome: Outcome, calls: nat, built: nat, closed: nat)

  function OutcomeOf(c: Call): Outcome {
    match c
    case Succeeded => Returned
    case TokenExpired => Outcome.Expired
    case OtherError => Raised
  }

  function OutcomeOfRefresh(r: RefreshResult): Outcome
    requires !r.Refreshed?
  {
    if r.Refused? then Outcome.Expired else Raised
  }

  function Unbuildable(c: Connection, readable: bool): Option<Outcome> {
    if c.blob.None? then Some(CredentialNotFound) else if !readable then Some(Outcome.Unreadable) else None
  }

  class IntegrationManager {
    const oauth: OAuthService

    constructor (oauth: OAuthService)
      ensures this.oauth == oauth
    {
      this.oauth := oauth;
    }

    /** `first` and `second` answer the action calls, `reply` the refresh between them.  A blob written
        by a refresh is readable. */
    method ExecuteAction(key: Key, readable: bool, first: Call, reply: Reply, now: real, second: Call)
      returns (report: Report)
      requires oauth.Clean()
      modifies oauth
      ensures oauth.Clean()
      ensures (oauth.db, report) == Execute(old(oauth.db), key, readable, first, reply, now, second)
    {
      var connection := GetConnection(oauth.db, key);
      if connection.None? {
        return Report(ConnectionNotFound, 0, 0, 0);
      }
      var refusal := Unbuildable(connection.value, readable);
      if refusal.Some? {
        return Report(refusal.value, 0, 0, 0);
      }
      var calls, built, closed := 1, 1, 0;
      var outcome := OutcomeOf(first);
      if first.TokenExpired? {
        var refreshed := oauth.RefreshAccessToken(key, readable, reply, now);
        if refreshed.Refreshed? {
          built, calls := built + 1, calls + 1;
          outcome := OutcomeOf(second);
        } else {
          outcome := OutcomeOfRefresh(refreshed);
        }
      }
      closed := closed + 1;
      report := Report(outcome, calls, built, closed);
    }
  }

  function Execute(db: Db, key: Key, readable: bool, first: Call, reply: Reply, now: real, second: Call): (Db, Report) {
    if GetConnection(db, key).None? then (db, Report(ConnectionNotFound, 0, 0, 0))
    else
      var c := db.connections[key];
      if Unbuildable(c, readable).Some? then (db, Report(Unbuildable(c, readable).value, 0, 0, 0))
      else if !first.TokenExpired? then (db, Report(OutcomeOf(first), 1, 1, 1))
      else
        var (renewed, result) := Refresh(c, readable, reply, now);
        (db.(connections := db.connections[key := renewed]),
         if result.Refreshed? then Report(OutcomeOf(second), 2, 2, 1) else Report(OutcomeOfRefresh(result), 1, 1, 1))
  }

  /** An active connection with readable credentials. */
  predicate Usable(db: Db, key: Key, readable: bool) {
    key in db.connections && db.connections[key].active && readable && db.connections[key].blob.Some?
  }

  /** Its blob holds a refresh token, which the provider renews. */
  predicate Renewable(db: Db, key: Key, readable: bool, reply: Reply) {
    Usable(db, key, readable) && Grants(reply)
    && db.connections[key].blob.value.refresh.Some? && db.connections[key].blob.value.refresh.value.text != ""
  }

  /** An execution makes at most two action calls; it returns exactly when the first call succeeds, or when
      it reports an expired token, the refresh succeeds and the second call succeeds.  Anything else stored
      is left alone. */
  lemma ExecutionReturnsIff(db: Db, key: Key, readable: bool, first: Call, reply: Reply, now: real, second: Call)
    ensures var (after, report) := Execute(db, key, readable, first, reply, now, second);
            var refreshed := first.TokenExpired? && Renewable(db, key, readable, reply);
            && (report.calls > 0 <==> Usable(db, key, readable))
            && (report.calls > 1 <==> refreshed)
            && report.calls <= 2
            && (report.outcome.Returned? <==>
                  (Usable(db, key, readable) && first.Succeeded?) || (refreshed && second.Succeeded?))
            && (after != db ==> refreshed)
            && (refreshed ==>
                  && key in after.connections
                  && after.connections[key] == Refresh(db.connections[key], true, reply, now).0
                  && after.connections[key].blob.Some? && after.connections[key].blob.value.access.text == reply.access)
            && after.states == db.states && after.credentials == db.credentials
            && after.connections - {key} == db.connections - {key}
  {
    if key in db.connections {
      assert db.connections[key := db.connections[key]] == db.connections;
    }
  }

  /** Every provider instance built is closed, unless the connection is usable, its first call reports an
      expired token, and the refresh token it holds is renewed: then the instance variable is rebound and
      the first instance is never closed. */
  lemma InstancesAreClosedIff(db: Db, key: Key, readable: bool, first: Call, reply: Reply, now: real, second: Call)
    ensures var report := Execute(db, key, readable, first, reply, now, second).1;
            && report.built == report.calls
            && report.closed == (if Usable(db, key, readable) then 1 else 0)
            && (report.closed == report.built <==> !(first.TokenExpired? && Renewable(db, key, readable, reply)))
  {
  }

  /** How an execution that does not return ends: without an active connection, without a blob or with an
      unreadable one it makes no call; a call that fails otherwise raises its error; and an expired token is
      reported as such unless the refresh breaks, or succeeds and the second call ends differently. */
  lemma ExecutionFailsIff(db: Db, key: Key, readable: bool, first: Call, reply: Reply, now: real, second: Call)
    ensures var outcome := Execute(db, key, readable, first, reply, now, second).1.outcome;
            var active := key in db.connections && db.connections[key].active;
            var usable := Usable(db, key, readable);
            var refreshed := first.TokenExpired? && Renewable(db, key, readable, reply);
            var presentable := usable && RefreshTokenOf(db.connections[key], true).Some?;
            && (outcome == ConnectionNotFound <==> !active)
            && (outcome == CredentialNotFound <==> active && db.connections[key].blob.None?)
            && (outcome == Outcome.Unreadable <==> active && db.connections[key].blob.Some? && !readable)
            && (outcome == Outcome.Expired <==>
                  usable && first.TokenExpired?
                  && (if refreshed then second.TokenExpired?
                      else !presentable || reply.HttpError? || reply.TransportError?
                           || reply.NoAccessToken? || reply.Keyless?))
            && (outcome == Raised <==>
                  usable
                  && (first.OtherError?
                      || (refreshed && second.OtherError?)
                      || (first.TokenExpired? && presentable
                          && (reply.Unreadable? || (reply.Tokens? && reply.expiresIn.OutOfRange?)))))
  {
  }
}
