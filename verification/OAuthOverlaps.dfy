/** What overlapping operations on one connection lose, and what they bring back: rotated refresh
    tokens, and tokens that a revocation destroyed.
 */
module OAuthOverlaps {
  import opened Basics
  import opened OAuthManager
  import opened OAuthFlows

  // ------------------------------------------------------------ rotated refresh tokens

  /** The refresh token a connection holds, if any. */
  function RefreshOf(db: Db, key: Key): Option<Token> {
    if key in db.connections && db.connections[key].blob.Some? then db.connections[key].blob.value.refresh else None
  }

  /** The end of a refresh of this connection that writes its blob. */
  ghost predicate EndsRefresh(w: World, step: Step, key: Key)
    requires Enabled(w, step)
  {
    && step.EndRefresh? && Grants(step.reply)
    && w.flights[step.flight].key == key && key in w.db.connections
    && w.flights[step.flight].snapshot.blob.Some?
  }

  /** The end of a callback that commits for this workspace and provider. */
  ghost predicate EndsCallback(w: World, step: Step, key: Key)
    requires Enabled(w, step)
  {
    && step.EndCallback? && w.flights[step.flight].row.key == key
    && Settle(w.db, w.flights[step.flight].state, w.flights[step.flight].row, step.reply, step.now).1.Stored?
  }

  /** The refresh token last sent to this connection: by a committed callback, or by a refresh whose answer
      holds one; a revocation with a revoke URL destroys it. */
  ghost function LatestSent(w: World, step: Step, key: Key, last: Option<Token>): Option<Token>
    requires Enabled(w, step)
  {
    if EndsCallback(w, step, key) then Granted(w.flights[step.flight].state, step.reply).refresh
    else if EndsRefresh(w, step, key) && Given(step.reply.refresh).Some?
    then Some(Token(step.reply.refresh.value, ByRefresh(w.flights[step.flight].presented.lineage)))
    else if step.EndRevoke? && w.flights[step.flight].key == key && w.flights[step.flight].snapshot.blob.Some?
    then None
    else last
  }

  /** The end of a refresh that sends no refresh token, when the stored one is no longer the one it read. */
  ghost predicate LosesRotation(w: World, step: Step, key: Key)
    requires Enabled(w, step)
  {
    && EndsRefresh(w, step, key) && Given(step.reply.refresh).None?
    && w.flights[step.flight].snapshot.blob.value.refresh != RefreshOf(w.db, key)
  }

  /** A refresh whose answer sends no refresh token keeps the stored one if and only if that is still the one
      it read when it began. */
  lemma EndRefreshKeepsTokenIff(base: string, w: World, step: Step, key: Key)
    requires Enabled(w, step) && EndsRefresh(w, step, key) && Given(step.reply.refresh).None?
    ensures RefreshOf(Apply(base, w, step).db, key) == RefreshOf(w.db, key)
       <==> w.flights[step.flight].snapshot.blob.value.refresh == RefreshOf(w.db, key)
  {
  }

  lemma CallbackHoldsLastSent(base: string, w: World, step: Step, key: Key)
    requires Enabled(w, step) && (step.BeginCallback? || step.EndCallback?)
    ensures RefreshOf(Apply(base, w, step).db, key) == LatestSent(w, step, key, RefreshOf(w.db, key))
  {
  }

  lemma RefreshHoldsLastSent(base: string, w: World, step: Step, key: Key)
    requires Enabled(w, step) && (step.BeginRefresh? || step.EndRefresh?)
    ensures RefreshOf(Apply(base, w, step).db, key) == LatestSent(w, step, key, RefreshOf(w.db, key))
       <==> !LosesRotation(w, step, key)
  {
  }

  lemma OtherHoldsLastSent(base: string, w: World, step: Step, key: Key)
    requires Enabled(w, step)
    requires !step.BeginCallback? && !step.EndCallback? && !step.BeginRefresh? && !step.EndRefresh?
    ensures RefreshOf(Apply(base, w, step).db, key) == LatestSent(w, step, key, RefreshOf(w.db, key))
  {
  }

  lemma StepHoldsLastSentIff(base: string, w: World, step: Step, key: Key)
    requires Enabled(w, step)
    ensures RefreshOf(Apply(base, w, step).db, key) == LatestSent(w, step, key, RefreshOf(w.db, key))
       <==> !LosesRotation(w, step, key)
  {
    hide Apply;
    hide LatestSent;
    if step.BeginCallback? || step.EndCallback? {
      CallbackHoldsLastSent(base, w, step, key);
    } else if step.BeginRefresh? || step.EndRefresh? {
      RefreshHoldsLastSent(base, w, step, key);
    } else {
      OtherHoldsLastSent(base, w, step, key);
    }
  }

  /** Before and after every step the connection holds the refresh token last sent. */
  ghost predicate AlwaysHoldsLastSent(base: string, w: World, steps: seq<Step>, key: Key, last: Option<Token>)
    requires LegalRun(base, w, steps)
    decreases |steps|
  {
    && RefreshOf(w.db, key) == last
    && (steps != [] ==>
          AlwaysHoldsLastSent(base, Apply(base, w, steps[0]), steps[1..], key, LatestSent(w, steps[0], key, last)))
  }

  ghost predicate SomeStepLosesRotation(base: string, w: World, steps: seq<Step>, key: Key)
    requires LegalRun(base, w, steps)
    decreases |steps|
  {
    steps != [] && (LosesRotation(w, steps[0], key)
                    || SomeStepLosesRotation(base, Apply(base, w, steps[0]), steps[1..], key))
  }

  /** When rotated refresh tokens are lost, over all interleavings: a connection holds the refresh token last
      sent to it throughout a run if and only if no refresh ends without a new one on a connection whose
      refresh token has changed since that refresh began. */
  lemma {:induction false} NothingRotatedIsLostIff(base: string, w: World, steps: seq<Step>, key: Key)
    requires LegalRun(base, w, steps)
    ensures AlwaysHoldsLastSent(base, w, steps, key, RefreshOf(w.db, key))
       <==> !SomeStepLosesRotation(base, w, steps, key)
    decreases |steps|
  {
    hide Apply;
    hide LatestSent;
    hide LosesRotation;
    if steps != [] {
      StepHoldsLastSentIff(base, w, steps[0], key);
      NothingRotatedIsLostIff(base, Apply(base, w, steps[0]), steps[1..], key);
    }
  }

  lemma TwoRefreshes(base: string, w: World, f: nat, g: nat, key: Key, old': Token, now: real)
    requires f != g && f !in w.flights && g !in w.flights && key in w.db.connections
    requires RefreshTokenOf(w.db.connections[key], true) == Some(old')
    ensures var begun := Apply(base, Apply(base, w, BeginRefresh(f, key, true)), BeginRefresh(g, key, true));
            && Enabled(begun, EndRefresh(f, Tokens("A2", Some("R2"), Absent), now))
            && var rotated := Apply(base, begun, EndRefresh(f, Tokens("A2", Some("R2"), Absent), now));
               && RefreshOf(rotated.db, key).Some? && RefreshOf(rotated.db, key).value.text == "R2"
               && g in rotated.flights
               && rotated.flights[g] == RefreshFlight(key, w.db.connections[key], old')
               && key in rotated.db.connections
  {
  }

  /** Two refreshes of one connection in flight: the first stores a rotated token, and the second, answered
      without one, puts the old token back. */
  lemma OverlappingRefreshesLoseRotation(base: string, w: World, f: nat, g: nat, key: Key, old': Token, now: real)
    requires f != g && f !in w.flights && g !in w.flights && key in w.db.connections
    requires RefreshTokenOf(w.db.connections[key], true) == Some(old') && old'.text != "R2"
    ensures var steps := [BeginRefresh(f, key, true), BeginRefresh(g, key, true),
                          EndRefresh(f, Tokens("A2", Some("R2"), Absent), now)];
            var last := EndRefresh(g, Tokens("A3", None, Absent), now);
            && LegalRun(base, w, steps)
            && var rotated := Run(base, w, steps);
               && RefreshOf(rotated.db, key).Some? && RefreshOf(rotated.db, key).value.text == "R2"
               && Enabled(rotated, last) && LosesRotation(rotated, last, key)
               && RefreshOf(Apply(base, rotated, last).db, key) == Some(old')
  {
    var s1, s2 := BeginRefresh(f, key, true), BeginRefresh(g, key, true);
    var s3 := EndRefresh(f, Tokens("A2", Some("R2"), Absent), now);
    TwoRefreshes(base, w, f, g, key, old', now);
    var w1 := Apply(base, w, s1);
    var w2 := Apply(base, w1, s2);
    var w3 := Apply(base, w2, s3);
    var last := EndRefresh(g, Tokens("A3", None, Absent), now);
    assert RefreshOf(Apply(base, w3, last).db, key) == Some(old') && LosesRotation(w3, last, key);
    hide Apply;
    hide RefreshOf;
    hide LosesRotation;
    RunOne(base, w2, s3, []);
    RunOne(base, w1, s2, [s3]);
    RunOne(base, w, s1, [s2, s3]);
    assert [s3] + [] == [s3] && [s2] + [s3] == [s2, s3] && [s1] + [s2, s3] == [s1, s2, s3];
  }

  // -------------------------------------------------------------- tokens that come back

  ghost predicate Destroyed(w: World, key: Key) {
    key in w.db.connections && w.db.connections[key].blob.None?
  }

  /** The step stores tokens in the connection. */
  ghost predicate StoresTokens(w: World, step: Step, key: Key)
    requires Enabled(w, step)
  {
    EndsRefresh(w, step, key) || EndsCallback(w, step, key)
  }

  /** The refreshes of this connection that are in flight. */
  ghost function RefreshesOf(w: World, key: Key): map<nat, Flight> {
    map f | f in w.flights && w.flights[f].RefreshFlight? && w.flights[f].key == key :: w.flights[f]
  }

  lemma StepKeepsDestroyedIff(base: string, w: World, step: Step, key: Key)
    requires Enabled(w, step) && Destroyed(w, key)
    ensures Destroyed(Apply(base, w, step), key) <==> !StoresTokens(w, step, key)
  {
  }

  /** Without a blob to read no refresh gets on its way. */
  lemma NoRefreshBegins(base: string, w: World, step: Step, key: Key)
    requires Enabled(w, step) && Destroyed(w, key)
    ensures RefreshesOf(Apply(base, w, step), key).Items <= RefreshesOf(w, key).Items
  {
    var after := Apply(base, w, step);
    forall item | item in RefreshesOf(after, key).Items ensures item in RefreshesOf(w, key).Items {
      assert item.0 in w.flights && w.flights[item.0] == item.1;
      assert item.0 in RefreshesOf(w, key);
    }
  }

  ghost predicate AlwaysDestroyed(base: string, w: World, steps: seq<Step>, key: Key)
    requires LegalRun(base, w, steps)
    decreases |steps|
  {
    Destroyed(w, key) && (steps != [] ==> AlwaysDestroyed(base, Apply(base, w, steps[0]), steps[1..], key))
  }

  ghost predicate SomeStepStoresTokens(base: string, w: World, steps: seq<Step>, key: Key)
    requires LegalRun(base, w, steps)
    decreases |steps|
  {
    steps != [] && (StoresTokens(w, steps[0], key)
                    || SomeStepStoresTokens(base, Apply(base, w, steps[0]), steps[1..], key))
  }

  lemma {:induction false} TokensStayDestroyedIff(base: string, w: World, steps: seq<Step>, key: Key)
    requires LegalRun(base, w, steps) && Destroyed(w, key)
    ensures AlwaysDestroyed(base, w, steps, key) <==> !SomeStepStoresTokens(base, w, steps, key)
    ensures AlwaysDestroyed(base, w, steps, key) ==>
              RefreshesOf(Run(base, w, steps), key).Items <= RefreshesOf(w, key).Items
    decreases |steps|
  {
    hide Apply;
    hide StoresTokens;
    hide RefreshesOf;
    if steps != [] {
      StepKeepsDestroyedIff(base, w, steps[0], key);
      NoRefreshBegins(base, w, steps[0], key);
      var next := Apply(base, w, steps[0]);
      if Destroyed(next, key) {
        hide Destroyed;
        TokensStayDestroyedIff(base, next, steps[1..], key);
      }
    }
  }

  /** When tokens come back after a revocation: whatever runs after its end, the connection stays inactive, and
      stays without tokens throughout if and only if no refresh of it that has read a blob ends granted
      and no callback commits for it.  Until then only refreshes can end that were in flight already when
      the revocation ended. */
  lemma LateRefreshRestoresTokensIff(base: string, w: World, g: nat, steps: seq<Step>, key: Key)
    requires StoppedMeansInactive(w) && Enabled(w, EndRevoke(g)) && w.flights[g].key == key
    requires key in w.db.connections && w.flights[g].snapshot.blob.Some?
    requires LegalRun(base, Apply(base, w, EndRevoke(g)), steps)
    ensures var revoked := Apply(base, w, EndRevoke(g));
            && Destroyed(revoked, key)
            && (AlwaysDestroyed(base, revoked, steps, key) <==> !SomeStepStoresTokens(base, revoked, steps, key))
            && (AlwaysDestroyed(base, revoked, steps, key) ==>
                  RefreshesOf(Run(base, revoked, steps), key).Items <= RefreshesOf(w, key).Items)
            && GetConnection(Run(base, revoked, steps).db, key).None?
  {
    var revoked := Apply(base, w, EndRevoke(g));
    assert RefreshesOf(revoked, key).Items <= RefreshesOf(w, key).Items by {
      forall item | item in RefreshesOf(revoked, key).Items ensures item in RefreshesOf(w, key).Items {
        assert item.0 in RefreshesOf(w, key);
      }
    }
    assert Destroyed(revoked, key) && !revoked.db.connections[key].active;
    hide Apply;
    TokensStayDestroyedIff(base, revoked, steps, key);
    InactiveForever(base, revoked, steps, key);
  }

  // ------------------------------------------------------------ what touches a connection

  /** The step ends a revocation of the connection, or revokes it without a revoke URL. */
  ghost predicate Revokes(w: World, step: Step, key: Key)
    requires Enabled(w, step)
  {
    || (step.BeginRevoke? && step.key == key && !step.hasRevokeUrl)
    || (step.EndRevoke? && w.flights[step.flight].key == key)
  }

  ghost predicate Touches(w: World, step: Step, key: Key)
    requires Enabled(w, step)
  {
    StoresTokens(w, step, key) || Revokes(w, step, key) || step == DoDisconnect(key)
  }

  lemma CallbackTouches(base: string, w: World, step: Step, key: Key)
    requires Enabled(w, step) && (step.BeginCallback? || step.EndCallback?) && !Touches(w, step, key)
    ensures key in Apply(base, w, step).db.connections <==> key in w.db.connections
    ensures key in w.db.connections ==> Apply(base, w, step).db.connections[key] == w.db.connections[key]
  {
  }

  lemma OnlyTouchesChange(base: string, w: World, step: Step, key: Key)
    requires Enabled(w, step) && !Touches(w, step, key)
    ensures key in Apply(base, w, step).db.connections <==> key in w.db.connections
    ensures key in w.db.connections ==> Apply(base, w, step).db.connections[key] == w.db.connections[key]
  {
    if step.BeginCallback? || step.EndCallback? {
      CallbackTouches(base, w, step, key);
      hide Apply;
    }
  }

  ghost predicate SomeStepTouches(base: string, w: World, steps: seq<Step>, key: Key)
    requires LegalRun(base, w, steps)
    decreases |steps|
  {
    steps != [] && (Touches(w, steps[0], key) || SomeStepTouches(base, Apply(base, w, steps[0]), steps[1..], key))
  }

  /** Connections do not affect each other: whatever runs, a connection is exactly as it was unless a callback for it
      committed, a refresh of it was granted, or it was revoked or disconnected. */
  lemma {:induction false} UntouchedStays(base: string, w: World, steps: seq<Step>, key: Key)
    requires LegalRun(base, w, steps) && !SomeStepTouches(base, w, steps, key)
    ensures key in Run(base, w, steps).db.connections <==> key in w.db.connections
    ensures key in w.db.connections ==> Run(base, w, steps).db.connections[key] == w.db.connections[key]
    decreases |steps|
  {
    if steps != [] {
      OnlyTouchesChange(base, w, steps[0], key);
      hide Apply;
      hide Touches;
      UntouchedStays(base, Apply(base, w, steps[0]), steps[1..], key);
    }
  }

  /** The step takes the connection out of use: a disconnection, a revocation without a revoke URL, or the end of one
      that found the connection in use. */
  ghost predicate Stops(w: World, step: Step, key: Key)
    requires Enabled(w, step)
  {
    || step == DoDisconnect(key)
    || (step.BeginRevoke? && step.key == key && !step.hasRevokeUrl)
    || (step.EndRevoke? && w.flights[step.flight].key == key && w.flights[step.flight].snapshot.active)
  }

  lemma CallbackKeepsActive(base: string, w: World, step: Step, key: Key)
    requires Enabled(w, step) && (step.BeginCallback? || step.EndCallback?)
    requires key in w.db.connections && w.db.connections[key].active
    ensures var after := Apply(base, w, step).db;
            key in after.connections && after.connections[key].active
  {
  }

  lemma StepKeepsActiveIff(base: string, w: World, step: Step, key: Key)
    requires Enabled(w, step) && key in w.db.connections && w.db.connections[key].active
    ensures var after := Apply(base, w, step).db;
            key in after.connections && (after.connections[key].active <==> !Stops(w, step, key))
  {
    if step.BeginCallback? || step.EndCallback? {
      CallbackKeepsActive(base, w, step, key);
      hide Apply;
    }
  }

  ghost predicate SomeStepStops(base: string, w: World, steps: seq<Step>, key: Key)
    requires LegalRun(base, w, steps)
    decreases |steps|
  {
    steps != [] && (Stops(w, steps[0], key) || SomeStepStops(base, Apply(base, w, steps[0]), steps[1..], key))
  }

  /** How long a connection can be used: under every interleaving a connection in use still is after a run if and only
      if no step of the run disconnected it or ended a revocation of it.  No failed callback or refresh, and no
      cleanup, takes it away. */
  lemma {:induction false} ActiveUntilStoppedIff(base: string, w: World, steps: seq<Step>, key: Key)
    requires LegalRun(base, w, steps) && key in w.db.connections && w.db.connections[key].active
    ensures GetConnection(Run(base, w, steps).db, key).Some? <==> !SomeStepStops(base, w, steps, key)
    decreases |steps|
  {
    if steps != [] {
      var next := Apply(base, w, steps[0]);
      StepKeepsActiveIff(base, w, steps[0], key);
      hide Apply;
      hide Stops;
      if next.db.connections[key].active {
        ActiveUntilStoppedIff(base, next, steps[1..], key);
      } else {
        InactiveForever(base, next, steps[1..], key);
      }
    }
  }
}
