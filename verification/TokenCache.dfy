/** The client library's OAuth2 token cache: double-checked locking around a client-credentials
    request, under every interleaving of callers.

    A caller that finds no fresh token queues for the lock, checks again under it, and requests a
    token while still holding it.  Time is a non-decreasing real clock.
 */
module TokenCache {
  import opened Basics

  datatype Cache = Cache(token: Option<string>, expiresAt: real)

  const EMPTY := Cache(None, 0.0)

  /** The token endpoint's answer.  Refused: an error status, a transport error or a body without an
      access token.  BadExpiry: a body whose lifetime is not a number, which raises after the token
      has been stored. */
  datatype Reply = Granted(access: Option<string>, lifetime: real) | BadExpiry(access: Option<string>) | Refused

  predicate Usable(token: Option<string>) {
    token.Some? && token.value != ""
  }

  predicate Fresh(c: Cache, buffer: real, now: real) {
    Usable(c.token) && now < c.expiresAt - buffer
  }

  function Store(c: Cache, reply: Reply, now: real): Cache {
    match reply
    case Granted(access, lifetime) => Cache(access, now + lifetime)
    case BadExpiry(access) => c.(token := access)
    case Refused => c
  }

  // ------------------------------------------------------------------ the mutable cache

  /** None stands for raising an error. */
  function Alone(c: Cache, buffer: real, first: real, second: real, reply: Reply, done: real): (Cache, Option<string>) {
    if Fresh(c, buffer, first) || Fresh(c, buffer, second) then (c, c.token)
    else (Store(c, reply, done), if reply.Granted? then reply.access else None)
  }

  class OAuth2Auth {
    const refreshBuffer: real
    var accessToken: Option<string>
    var expiresAt: real

    ghost function Value(): Cache
      reads this
    {
      Cache(accessToken, expiresAt)
    }

    constructor (refreshBuffer: real)
      ensures this.refreshBuffer == refreshBuffer && Value() == EMPTY
    {
      this.refreshBuffer := refreshBuffer;
      accessToken, expiresAt := None, 0.0;
    }

    method RefreshToken(reply: Reply, now: real) returns (ok: bool)
      modifies this
      ensures Value() == Store(old(Value()), reply, now) && (ok <==> reply.Granted?)
    {
      if reply.Refused? {
        return false;
      }
      accessToken := reply.access;
      if reply.BadExpiry? {
        return false;
      }
      expiresAt := now + reply.lifetime;
      ok := true;
    }

    /** A call whose lock nobody else holds: `first` and `second` are the times of its two checks. */
    method GetAccessToken(first: real, second: real, reply: Reply, done: real) returns (token: Option<string>)
      modifies this
      ensures (Value(), token) == Alone(old(Value()), refreshBuffer, first, second, reply, done)
    {
      if Usable(accessToken) && first < expiresAt - refreshBuffer {
        return accessToken;
      }
      if Usable(accessToken) && second < expiresAt - refreshBuffer {
        return accessToken;
      }
      var ok := RefreshToken(reply, done);
      if !ok {
        return None;
      }
      token := accessToken;
    }
  }

  // ------------------------------------------------------------------------ the machine

  datatype Pc = Queued | Locked | Requesting | Fetched(token: string)

  datatype Grant = Grant(at: real, lifetime: real)

  /** A token request, and the last successful refresh before it. */
  datatype Request = Request(start: real, last: Option<Grant>)

  /** A token handed to a caller, and whether the caller requested it itself. */
  datatype Served = Served(token: string, at: real, own: bool)

  datatype World = World(
    cache: Cache, holder: Option<nat>, callers: map<nat, Pc>, clock: real,
    granted: Option<Grant>, requests: seq<Request>, served: seq<Served>)

  datatype Step =
    | Call(caller: nat, now: real)
    | Acquire(caller: nat)
    | Check(caller: nat, now: real)
    | Respond(caller: nat, reply: Reply, now: real)
    | Finish(caller: nat, now: real)

  ghost predicate At(w: World, caller: nat, p: Pc -> bool) {
    caller in w.callers && p(w.callers[caller])
  }

  ghost predicate Enabled(w: World, step: Step) {
    match step
    case Call(c, now) => c !in w.callers && w.clock <= now
    case Acquire(c) => At(w, c, (p: Pc) => p.Queued?) && w.holder.None?
    case Check(c, now) => At(w, c, (p: Pc) => p.Locked?) && w.clock <= now
    case Respond(c, _, now) => At(w, c, (p: Pc) => p.Requesting?) && w.clock <= now
    case Finish(c, now) => At(w, c, (p: Pc) => p.Fetched?) && w.clock <= now
  }

  /** The caller leaves, giving up the lock if it holds it. */
  function Leave(w: World, caller: nat): World {
    w.(callers := w.callers - {caller}, holder := if w.holder == Some(caller) then None else w.holder)
  }

  function Hand(w: World, caller: nat, now: real, own: bool): World {
    if w.cache.token.None? then Leave(w, caller)
    else Leave(w, caller).(served := w.served + [Served(w.cache.token.value, now, own)])
  }

  ghost function Apply(buffer: real, w: World, step: Step): World
    requires Enabled(w, step)
  {
    match step
    case Call(c, now) =>
      var w := w.(clock := now);
      if Fresh(w.cache, buffer, now) then Hand(w, c, now, false) else w.(callers := w.callers[c := Queued])
    case Acquire(c) => w.(holder := Some(c), callers := w.callers[c := Locked])
    case Check(c, now) =>
      var w := w.(clock := now);
      if Fresh(w.cache, buffer, now) then Hand(w, c, now, false)
      else w.(callers := w.callers[c := Requesting], requests := w.requests + [Request(now, w.granted)])
    case Respond(c, reply, now) =>
      var w := w.(clock := now, cache := Store(w.cache, reply, now));
      if reply.Granted? && reply.access.Some? then
        w.(callers := w.callers[c := Fetched(reply.access.value)],
           granted := if Usable(reply.access) then Some(Grant(now, reply.lifetime)) else w.granted)
      else Leave(w, c)
    case Finish(c, now) => Hand(w.(clock := now), c, now, true)
  }

  ghost predicate LegalRun(buffer: real, w: World, steps: seq<Step>)
    decreases |steps|
  {
    steps != [] ==> Enabled(w, steps[0]) && LegalRun(buffer, Apply(buffer, w, steps[0]), steps[1..])
  }

  ghost function Run(buffer: real, w: World, steps: seq<Step>): World
    requires LegalRun(buffer, w, steps)
    decreases |steps|
  {
    if steps == [] then w else Run(buffer, Apply(buffer, w, steps[0]), steps[1..])
  }

  function Start(clock: real): World {
    World(EMPTY, None, map[], clock, None, [], [])
  }

  // ------------------------------------------------------------------------- safety

  /** No token request may start before this time after a successful refresh. */
  function DueAfter(buffer: real, g: Grant): real {
    g.at + g.lifetime - buffer
  }

  ghost predicate Safe(buffer: real, w: World) {
    // The lock: everybody past the queue holds it.
    && (forall c :: c in w.callers && !w.callers[c].Queued? ==> w.holder == Some(c))
    && (w.holder.Some? ==> w.holder.value in w.callers && !w.callers[w.holder.value].Queued?)
    // A refreshed token is still the cached one when its requester returns it.
    && (forall c :: c in w.callers && w.callers[c].Fetched? ==> w.cache.token == Some(w.callers[c].token))
    // Until it is due, the last successful refresh is what the cache holds.
    && (w.granted.Some? ==>
          || w.clock >= DueAfter(buffer, w.granted.value)
          || (Usable(w.cache.token) && w.cache.expiresAt == w.granted.value.at + w.granted.value.lifetime
              && forall c :: c in w.callers ==> !w.callers[c].Requesting?))
    && (forall i :: 0 <= i < |w.requests| && w.requests[i].last.Some? ==>
          w.requests[i].start >= DueAfter(buffer, w.requests[i].last.value))
  }

  lemma StepIsSafe(buffer: real, w: World, step: Step)
    requires Safe(buffer, w) && Enabled(w, step)
    ensures Safe(buffer, Apply(buffer, w, step))
  {
  }

  /** Single flight, under every interleaving of callers: at most one caller holds the lock, requests or
      stores a token; after a successful refresh ending at r with lifetime e the next token request
      starts no earlier than r + e - refresh_buffer; and a caller that refreshed returns its own token. */
  lemma {:induction false} EveryInterleavingIsSafe(buffer: real, w: World, steps: seq<Step>)
    requires Safe(buffer, w) && LegalRun(buffer, w, steps)
    ensures Safe(buffer, Run(buffer, w, steps))
    decreases |steps|
  {
    if steps != [] {
      StepIsSafe(buffer, w, steps[0]);
      EveryInterleavingIsSafe(buffer, Apply(buffer, w, steps[0]), steps[1..]);
    }
  }

  lemma StartIsSafe(buffer: real, clock: real)
    ensures Safe(buffer, Start(clock))
  {
  }

  /** So in every run from an empty cache at most one caller is past the lock's queue, and no request starts
      before the last successful refresh is due. */
  lemma SingleFlight(buffer: real, clock: real, steps: seq<Step>)
    requires LegalRun(buffer, Start(clock), steps)
    ensures var w := Run(buffer, Start(clock), steps);
            && (forall c, d ::
                  c in w.callers && d in w.callers && !w.callers[c].Queued? && !w.callers[d].Queued? ==> c == d)
            && (forall i :: 0 <= i < |w.requests| && w.requests[i].last.Some? ==>
                  w.requests[i].start >= DueAfter(buffer, w.requests[i].last.value))
  {
    EveryInterleavingIsSafe(buffer, Start(clock), steps);
  }

  /** The token most recently stored by a response, as a history variable beside the run. */
  ghost function LatestFetched(buffer: real, w: World, steps: seq<Step>, latest: Option<string>): Option<string>
    requires LegalRun(buffer, w, steps)
    decreases |steps|
  {
    if steps == [] then latest
    else
      var step := steps[0];
      var latest' := if step.Respond? && !step.reply.Refused? then step.reply.access else latest;
      LatestFetched(buffer, Apply(buffer, w, step), steps[1..], latest')
  }

  lemma {:induction false} CacheHoldsLatest(buffer: real, w: World, steps: seq<Step>)
    requires LegalRun(buffer, w, steps)
    ensures Run(buffer, w, steps).cache.token == LatestFetched(buffer, w, steps, w.cache.token)
    decreases |steps|
  {
    if steps != [] {
      CacheHoldsLatest(buffer, Apply(buffer, w, steps[0]), steps[1..]);
    }
  }

  /** Every token handed out at any point of any run is the latest one fetched at that point. */
  lemma ServedTokenIsLatest(buffer: real, w: World, steps: seq<Step>, next: Step)
    requires Safe(buffer, w) && LegalRun(buffer, w, steps) && Enabled(Run(buffer, w, steps), next)
    requires !next.Respond?
    ensures var before := Run(buffer, w, steps);
            var after := Apply(buffer, before, next);
            && (after.served == before.served || |after.served| == |before.served| + 1)
            && (after.served != before.served ==>
                  var s := after.served[|before.served|];
                  && Some(s.token) == LatestFetched(buffer, w, steps, w.cache.token)
                  && (next.Finish? ==> s.own && s.token == before.callers[next.caller].token)
                  && (!next.Finish? ==> !s.own && s.at < before.cache.expiresAt - buffer))
  {
    CacheHoldsLatest(buffer, w, steps);
    EveryInterleavingIsSafe(buffer, w, steps);
  }

  // ------------------------------------------------------------- the cache as its history

  /** The token of the last answer that held one, and `was` if there was none. */
  function LastAccess(steps: seq<Step>, was: Option<string>): Option<string>
    decreases |steps|
  {
    if steps == [] then was
    else
      var now := if steps[0].Respond? && !steps[0].reply.Refused? then steps[0].reply.access else was;
      LastAccess(steps[1..], now)
  }

  /** The end of the last granted lifetime, and `was` if none was granted. */
  function LastExpiry(steps: seq<Step>, was: real): real
    decreases |steps|
  {
    if steps == [] then was
    else
      var now := if steps[0].Respond? && steps[0].reply.Granted? then steps[0].now + steps[0].reply.lifetime else was;
      LastExpiry(steps[1..], now)
  }

  lemma {:induction false} CacheIsItsHistory(buffer: real, w: World, steps: seq<Step>)
    requires LegalRun(buffer, w, steps)
    ensures Run(buffer, w, steps).cache
         == Cache(LastAccess(steps, w.cache.token), LastExpiry(steps, w.cache.expiresAt))
    decreases |steps|
  {
    if steps != [] {
      CacheIsItsHistory(buffer, Apply(buffer, w, steps[0]), steps[1..]);
    }
  }

  /** The answers received so far leave a token that may be handed out: the last one received is not empty,
      and the lifetime last granted has more than the buffer left. */
  predicate ServableAt(steps: seq<Step>, buffer: real, t: real) {
    var token := LastAccess(steps, None);
    token.Some? && token.value != "" && t < LastExpiry(steps, 0.0) - buffer
  }

  /** Which callers are served without a request, in every run from an empty cache, by the answers alone: a
      caller that arrives, or checks again under the lock, is handed the last token received exactly while
      that token is not empty and the lifetime last granted has more than the buffer left; otherwise one
      that arrives queues, and one under the lock requests a token. */
  lemma ServedFromCacheIff(buffer: real, clock: real, steps: seq<Step>, next: Step)
    requires LegalRun(buffer, Start(clock), steps) && Enabled(Run(buffer, Start(clock), steps), next)
    requires next.Call? || next.Check?
    ensures var before := Run(buffer, Start(clock), steps);
            var after := Apply(buffer, before, next);
            if ServableAt(steps, buffer, next.now) then
              && after.served == before.served + [Served(LastAccess(steps, None).value, next.now, false)]
              && next.caller !in after.callers && after.requests == before.requests
            else
              && after.served == before.served && next.caller in after.callers
              && (next.Call? ==> after.callers[next.caller].Queued? && after.requests == before.requests)
              && (next.Check? ==> after.callers[next.caller].Requesting? && |after.requests| == |before.requests| + 1)
  {
    CacheIsItsHistory(buffer, Start(clock), steps);
  }

  /** A failed request revives nothing: after a refusal a check is fresh exactly when it was before, and after
      an answer without a proper lifetime only while an earlier lifetime still lasts. */
  lemma FailedRequestRevivesNothing(buffer: real, w: World, c: nat, reply: Reply, now: real, t: real)
    requires Enabled(w, Respond(c, reply, now)) && !reply.Granted?
    ensures var after := Apply(buffer, w, Respond(c, reply, now));
            && (reply.Refused? ==> (Fresh(after.cache, buffer, t) <==> Fresh(w.cache, buffer, t)))
            && (reply.BadExpiry? ==>
                  (Fresh(after.cache, buffer, t) <==> Usable(reply.access) && t < w.cache.expiresAt - buffer))
            && after.served == w.served && c !in after.callers && after.holder != Some(c)
  {
  }

  ghost predicate GrantsAreUsable(steps: seq<Step>) {
    forall i :: 0 <= i < |steps| && steps[i].Respond? && steps[i].reply.Granted? ==> Usable(steps[i].reply.access)
  }

  /** When the cache holds no token that may be handed out and the last answer that held a token came without
      a proper lifetime, it stays so. */
  ghost predicate BrokenIsStale(buffer: real, w: World, broken: bool) {
    && (forall c :: c in w.callers && w.callers[c].Requesting? ==>
          w.clock >= w.cache.expiresAt - buffer || !Usable(w.cache.token))
    && (broken || !Usable(w.cache.token) ==> w.clock >= w.cache.expiresAt - buffer)
  }

  lemma {:induction false} BrokenAnswersAreNeverServed(buffer: real, w: World, steps: seq<Step>, broken: bool)
    returns (broken': bool)
    requires LegalRun(buffer, w, steps) && GrantsAreUsable(steps) && Safe(buffer, w) && BrokenIsStale(buffer, w, broken)
    ensures BrokenIsStale(buffer, Run(buffer, w, steps), broken')
    ensures broken' == LastAnswerBroken(steps, broken)
    decreases |steps|
  {
    if steps == [] {
      broken' := broken;
    } else {
      var now := if steps[0].Respond? && !steps[0].reply.Refused? then steps[0].reply.BadExpiry? else broken;
      assert steps[0].Respond? && steps[0].reply.Granted? ==> Usable(steps[0].reply.access);
      assert BrokenIsStale(buffer, Apply(buffer, w, steps[0]), now);
      StepIsSafe(buffer, w, steps[0]);
      assert forall i :: 0 <= i < |steps[1..]| ==> steps[1..][i] == steps[i + 1];
      broken' := BrokenAnswersAreNeverServed(buffer, Apply(buffer, w, steps[0]), steps[1..], now);
    }
  }

  function LastAnswerBroken(steps: seq<Step>, was: bool): bool
    decreases |steps|
  {
    if steps == [] then was
    else
      var now := if steps[0].Respond? && !steps[0].reply.Refused? then steps[0].reply.BadExpiry? else was;
      LastAnswerBroken(steps[1..], now)
  }

  /** While every granted token is usable, no caller is served from the cache after an answer without a proper
      lifetime, until a token is granted again. */
  lemma BrokenAnswersAreRequestedAgain(buffer: real, clock: real, steps: seq<Step>, t: real)
    requires 0.0 - buffer <= clock && LegalRun(buffer, Start(clock), steps) && GrantsAreUsable(steps)
    requires Run(buffer, Start(clock), steps).clock <= t
    ensures LastAnswerBroken(steps, false) ==> !ServableAt(steps, buffer, t)
  {
    StartIsSafe(buffer, clock);
    var broken := BrokenAnswersAreNeverServed(buffer, Start(clock), steps, false);
    CacheIsItsHistory(buffer, Start(clock), steps);
  }

  // ------------------------------------------------------------------ load on the endpoint

  /** Every answer is a usable token that lives at least `lifetime`. */
  ghost predicate GoodReplies(steps: seq<Step>, lifetime: real) {
    forall i :: 0 <= i < |steps| && steps[i].Respond? ==>
      steps[i].reply.Granted? && Usable(steps[i].reply.access) && steps[i].reply.lifetime >= lifetime
  }

  ghost predicate Open(w: World) {
    w.holder.Some? && w.holder.value in w.callers && w.callers[w.holder.value].Requesting?
  }

  /** Requests are `gap` apart, and the last one either is still open or ended in the grant on record. */
  ghost predicate Spaced(w: World, lifetime: real, gap: real) {
    && (forall i :: 0 <= i < |w.requests| - 1 ==> w.requests[i + 1].start >= w.requests[i].start + gap)
    && (w.requests != [] ==> w.requests[|w.requests| - 1].start <= w.clock)
    && (w.requests != [] ==>
          || Open(w)
          || (w.granted.Some? && w.granted.value.at >= w.requests[|w.requests| - 1].start
              && w.granted.value.lifetime >= lifetime))
    && (Open(w) ==> w.requests != [])
  }

  lemma StepIsSpaced(buffer: real, w: World, step: Step, lifetime: real)
    requires Safe(buffer, w) && Enabled(w, step) && GoodReplies([step], lifetime)
    requires Spaced(w, lifetime, lifetime - buffer)
    ensures Spaced(Apply(buffer, w, step), lifetime, lifetime - buffer)
  {
    assert step.Respond? ==> [step][0].reply.Granted? && Usable(step.reply.access) && step.reply.lifetime >= lifetime;
  }

  lemma {:induction false} RunIsSpaced(buffer: real, w: World, steps: seq<Step>, lifetime: real)
    requires Safe(buffer, w) && LegalRun(buffer, w, steps) && GoodReplies(steps, lifetime)
    requires Spaced(w, lifetime, lifetime - buffer)
    ensures Spaced(Run(buffer, w, steps), lifetime, lifetime - buffer)
    decreases |steps|
  {
    if steps != [] {
      assert steps[0].Respond? ==> steps[0].reply.lifetime >= lifetime;
      StepIsSpaced(buffer, w, steps[0], lifetime);
      StepIsSafe(buffer, w, steps[0]);
      assert forall i :: 0 <= i < |steps[1..]| ==> steps[1..][i] == steps[i + 1];
      RunIsSpaced(buffer, Apply(buffer, w, steps[0]), steps[1..], lifetime);
    }
  }

  function Gaps(gap: real, k: int): real {
    gap * (k as real)
  }

  lemma OneMoreGap(gap: real, k: int)
    ensures Gaps(gap, k + 1) == Gaps(gap, k) + gap
    ensures Gaps(gap, 0) == 0.0
  {
  }

  lemma {:induction false} SpacingAddsUp(requests: seq<Request>, gap: real, k: nat)
    requires k < |requests|
    requires forall i :: 0 <= i < |requests| - 1 ==> requests[i + 1].start >= requests[i].start + gap
    ensures requests[k].start >= requests[0].start + Gaps(gap, k)
    decreases k
  {
    hide Gaps;
    OneMoreGap(gap, k - 1);
    if k > 0 {
      SpacingAddsUp(requests, gap, k - 1);
    }
  }

  /** However many callers there are, if every answer is a token that lives at least `lifetime`, then
      over a time T the endpoint sees at most 1 + T / (lifetime - refresh_buffer) requests. */
  lemma EndpointLoad(buffer: real, clock: real, steps: seq<Step>, lifetime: real)
    requires lifetime > buffer
    requires LegalRun(buffer, Start(clock), steps) && GoodReplies(steps, lifetime)
    ensures var after := Run(buffer, Start(clock), steps);
            after.requests != [] ==>
              Gaps(lifetime - buffer, |after.requests| - 1) <= after.clock - after.requests[0].start
  {
    hide Gaps;
    hide Apply;
    hide Safe;
    StartIsSafe(buffer, clock);
    RunIsSpaced(buffer, Start(clock), steps, lifetime);
    var after := Run(buffer, Start(clock), steps);
    if after.requests != [] {
      SpacingAddsUp(after.requests, lifetime - buffer, |after.requests| - 1);
    }
  }

  /** The method run by a caller alone is the interleaved machine run without interleaving. */
  lemma AloneIsInterleaved(
    buffer: real, w: World, c: nat, first: real, second: real, reply: Reply, done: real)
    requires w.callers == map[] && w.holder.None? && w.clock <= first <= second <= done
    ensures var (cache, token) := Alone(w.cache, buffer, first, second, reply, done);
            exists steps :: LegalRun(buffer, w, steps)
              && Run(buffer, w, steps).cache == cache
              && Run(buffer, w, steps).callers == map[]
              && Run(buffer, w, steps).served
                 == if token.Some? then w.served + [Served(token.value,
                        if Fresh(w.cache, buffer, first) then first else done,
                        !Fresh(w.cache, buffer, first))]
                    else w.served
  {
    var w1 := Apply(buffer, w, Call(c, first));
    if Fresh(w.cache, buffer, first) {
      RunOne(buffer, w, Call(c, first), []);
      assert w1.callers == map[];
    } else {
      assert !Fresh(w.cache, buffer, second);
      var w2 := Apply(buffer, w1, Acquire(c));
      var w3 := Apply(buffer, w2, Check(c, second));
      var w4 := Apply(buffer, w3, Respond(c, reply, done));
      var end := if c in w4.callers then [Finish(c, done)] else [];
      if c in w4.callers {
        RunOne(buffer, w4, Finish(c, done), []);
      }
      RunOne(buffer, w3, Respond(c, reply, done), end);
      RunOne(buffer, w2, Check(c, second), [Respond(c, reply, done)] + end);
      RunOne(buffer, w1, Acquire(c), [Check(c, second)] + ([Respond(c, reply, done)] + end));
      RunOne(buffer, w, Call(c, first), [Acquire(c)] + ([Check(c, second)] + ([Respond(c, reply, done)] + end)));
      assert Run(buffer, w4, end).callers == map[];
    }
  }

  lemma RunOne(buffer: real, w: World, step: Step, rest: seq<Step>)
    requires Enabled(w, step) && LegalRun(buffer, Apply(buffer, w, step), rest)
    ensures LegalRun(buffer, w, [step] + rest)
    ensures Run(buffer, w, [step] + rest) == Run(buffer, Apply(buffer, w, step), rest)
  {
    assert ([step] + rest)[1..] == rest;
  }

  /** The requester is served: after a granted answer with a token it is handed that token when it returns, whatever the
      lifetime, and gives up the lock; an answer without one serves nobody and frees the lock. */
  lemma RequesterIsServed(buffer: real, w: World, c: nat, reply: Reply, now: real, later: real)
    requires Safe(buffer, w) && Enabled(w, Respond(c, reply, now)) && now <= later
    ensures var answered := Apply(buffer, w, Respond(c, reply, now));
            if reply.Granted? && reply.access.Some? then
              && Enabled(answered, Finish(c, later))
              && var done := Apply(buffer, answered, Finish(c, later));
                 && done.served == w.served + [Served(reply.access.value, later, true)]
                 && c !in done.callers && done.holder.None?
            else
              && answered.served == w.served && c !in answered.callers && answered.holder.None?
  {
  }
}
