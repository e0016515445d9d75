/** Inbound deduplication: the SET-NX-EX guard in Redis, the dedup key, and the unique index that
    backs it up in the event table.
 */
module WebhookDedup {
  import opened Basics

  // ------------------------------------------------------------------------ the guard

  /** A key is alive until its expiry. */
  type Redis = map<string, real>

  /** SET key NX EX ttl: the new contents, and whether the key was set. */
  function SetNx(redis: Redis, key: string, ttl: real, now: real): (Redis, bool) {
    if key in redis && now < redis[key] then (redis, false) else (redis[key := now + ttl], true)
  }

  class DedupGuard {
    const ttl: real
    var redis: Redis

    constructor (ttl: real)
      ensures this.ttl == ttl && redis == map[]
    {
      this.ttl := ttl;
      redis := map[];
    }

    method Seen(key: string, now: real) returns (seen: bool)
      modifies this
      ensures (redis, !seen) == SetNx(old(redis), key, ttl, now)
    {
      if key in redis && now < redis[key] {
        return true;
      }
      redis := redis[key := now + ttl];
      seen := false;
    }
  }

  datatype Query = Query(key: string, now: real)

  ghost predicate Monotone(queries: seq<Query>) {
    forall i, j :: 0 <= i < j < |queries| ==> queries[i].now <= queries[j].now
  }

  function RedisAfter(ttl: real, queries: seq<Query>): Redis
    decreases |queries|
  {
    if queries == [] then map[]
    else
      var last := queries[|queries| - 1];
      SetNx(RedisAfter(ttl, queries[..|queries| - 1]), last.key, ttl, last.now).0
  }

  /** The answer "not seen" to query i. */
  ghost predicate Admitted(ttl: real, queries: seq<Query>, i: nat)
    requires i < |queries|
  {
    SetNx(RedisAfter(ttl, queries[..i]), queries[i].key, ttl, queries[i].now).1
  }

  /** Query i was admitted, and is the last admitted one for its key among the first n. */
  ghost predicate LastAdmission(ttl: real, queries: seq<Query>, n: nat, i: nat)
    requires n <= |queries|
  {
    i < n && Admitted(ttl, queries, i)
    && forall j :: i < j < n && queries[j].key == queries[i].key ==> !Admitted(ttl, queries, j)
  }

  /** Redis holds exactly the last admission of each key. */
  lemma {:induction false} RedisHoldsLastAdmissions(ttl: real, queries: seq<Query>, n: nat, key: string)
    requires n <= |queries|
    ensures key in RedisAfter(ttl, queries[..n]) ==>
              exists i: nat :: LastAdmission(ttl, queries, n, i) && queries[i].key == key
                          && RedisAfter(ttl, queries[..n])[key] == queries[i].now + ttl
    ensures key !in RedisAfter(ttl, queries[..n]) ==>
              forall i :: 0 <= i < n && queries[i].key == key ==> !Admitted(ttl, queries, i)
    decreases n
  {
    if n > 0 {
      var before := RedisAfter(ttl, queries[..n - 1]);
      assert queries[..n][..n - 1] == queries[..n - 1];
      RedisHoldsLastAdmissions(ttl, queries, n - 1, key);
      if queries[n - 1].key == key && Admitted(ttl, queries, n - 1) {
        assert LastAdmission(ttl, queries, n, n - 1);
      } else if key in before {
        var i: nat :| LastAdmission(ttl, queries, n - 1, i) && queries[i].key == key
                      && before[key] == queries[i].now + ttl;
        assert LastAdmission(ttl, queries, n, i);
      }
    }
  }

  /** The guard against its meaning: a query is answered "seen" if and only if one for the same key was
      answered "not seen" less than the TTL ago. */
  lemma SeenIff(ttl: real, queries: seq<Query>, n: nat)
    requires Monotone(queries) && n < |queries|
    ensures !Admitted(ttl, queries, n) <==>
              exists i: nat :: i < n && queries[i].key == queries[n].key && Admitted(ttl, queries, i)
                          && queries[n].now < queries[i].now + ttl
  {
    var key := queries[n].key;
    RedisHoldsLastAdmissions(ttl, queries, n, key);
    var redis := RedisAfter(ttl, queries[..n]);
    if key in redis {
      var i: nat :| LastAdmission(ttl, queries, n, i) && queries[i].key == key && redis[key] == queries[i].now + ttl;
      forall j | 0 <= j < n && queries[j].key == key && Admitted(ttl, queries, j)
        ensures queries[j].now <= queries[i].now
      {
        assert j <= i;
      }
    }
  }

  /** Hence two "not seen" answers for one key are at least the TTL apart. */
  lemma AdmissionsAreSpaced(ttl: real, queries: seq<Query>, i: nat, j: nat)
    requires Monotone(queries) && i < j < |queries| && queries[i].key == queries[j].key
    requires Admitted(ttl, queries, i) && Admitted(ttl, queries, j)
    ensures queries[j].now >= queries[i].now + ttl
  {
    SeenIff(ttl, queries, j);
  }

  // ---------------------------------------------------------------------- the dedup key

  /** The header names consulted, in order. */
  const ID_HEADERS :=
    ["X-Hub-Zoom-Event-Id", "x-github-event-id", "X-Request-Id", "X-Stripe-Trace-Id", "x-twilio-signature-ts"]

  /** The first of the headers that is present and not empty. */
  function FirstHeader(headers: map<string, string>, names: seq<string>): string
    decreases |names|
  {
    if names == [] then ""
    else if names[0] in headers && headers[names[0]] != "" then headers[names[0]]
    else FirstHeader(headers, names[1..])
  }

  /** An absent event type or payload id is the empty string. */
  function DedupKey(
    provider: string, headers: map<string, string>, eventType: string, payloadId: string): Option<string>
  {
    var id := FirstHeader(headers, ID_HEADERS);
    if id != "" then Some(provider + ":" + id)
    else if eventType != "" && payloadId != "" then Some(provider + ":" + eventType + ":" + payloadId)
    else None
  }

  predicate Present(headers: map<string, string>, name: string) {
    name in headers && headers[name] != ""
  }

  /** The first of these headers that is not empty. */
  ghost predicate Decides(headers: map<string, string>, names: seq<string>, i: nat) {
    i < |names| && Present(headers, names[i]) && forall j :: 0 <= j < i ==> !Present(headers, names[j])
  }

  ghost predicate NonePresent(headers: map<string, string>, names: seq<string>) {
    forall i :: 0 <= i < |names| ==> !Present(headers, names[i])
  }

  lemma {:induction false} FirstHeaderIs(headers: map<string, string>, names: seq<string>)
    ensures FirstHeader(headers, names) == "" <==> NonePresent(headers, names)
    ensures forall i: nat :: Decides(headers, names, i) ==> FirstHeader(headers, names) == headers[names[i]]
    decreases |names|
  {
    if names != [] {
      var rest := names[1..];
      FirstHeaderIs(headers, rest);
      assert forall i :: 1 <= i < |names| ==> names[i] == rest[i - 1];
      assert forall i :: 0 <= i < |rest| ==> rest[i] == names[i + 1];
      forall i: nat | Decides(headers, names, i) ensures FirstHeader(headers, names) == headers[names[i]] {
        if i > 0 {
          assert !Present(headers, names[0]);
          assert Decides(headers, rest, i - 1);
        }
      }
    }
  }

  /** Which events are told apart: the first id header that is not empty decides the key, whatever the other
      headers and the payload hold; without one it is the event type and the payload's id; and there is no
      key, and no deduplication, exactly when there is no such header and either of the two is missing. */
  lemma DedupKeyIs(provider: string, headers: map<string, string>, eventType: string, payloadId: string)
    ensures forall i: nat :: Decides(headers, ID_HEADERS, i) ==>
              DedupKey(provider, headers, eventType, payloadId) == Some(provider + ":" + headers[ID_HEADERS[i]])
    ensures NonePresent(headers, ID_HEADERS) && eventType != "" && payloadId != "" ==>
              DedupKey(provider, headers, eventType, payloadId) == Some(provider + ":" + eventType + ":" + payloadId)
    ensures DedupKey(provider, headers, eventType, payloadId).None? <==>
              NonePresent(headers, ID_HEADERS) && (eventType == "" || payloadId == "")
  {
    FirstHeaderIs(headers, ID_HEADERS);
  }

  /** Two events of one provider that both carry an id header share their key exactly when the ids that decide
      are the same. */
  lemma HeaderKeysAreExact(
    p: string, h1: map<string, string>, e1: string, id1: string, i: nat,
    h2: map<string, string>, e2: string, id2: string, j: nat)
    requires Decides(h1, ID_HEADERS, i) && Decides(h2, ID_HEADERS, j)
    ensures DedupKey(p, h1, e1, id1) == DedupKey(p, h2, e2, id2) <==> h1[ID_HEADERS[i]] == h2[ID_HEADERS[j]]
  {
    DedupKeyIs(p, h1, e1, id1);
    DedupKeyIs(p, h2, e2, id2);
    var x, y := p + ":" + h1[ID_HEADERS[i]], p + ":" + h2[ID_HEADERS[j]];
    assert x[|p| + 1..] == h1[ID_HEADERS[i]] && y[|p| + 1..] == h2[ID_HEADERS[j]];
  }

  predicate ColonFree(s: string) {
    forall i :: 0 <= i < |s| ==> s[i] != ':'
  }

  lemma FirstColonSplits(a: string, b: string, x: string, y: string)
    requires ColonFree(a) && ColonFree(b) && a + ":" + x == b + ":" + y
    ensures a == b && x == y
  {
    var s, t := a + ":" + x, b + ":" + y;
    assert s[|a|] == ':' && t[|b|] == ':';
    if |a| != |b| {
      assert false;
    }
    assert a == s[..|a|] && b == t[..|b|];
    assert x == s[|a| + 1..] && y == t[|b| + 1..];
  }

  /** Keys of distinct colon-free providers never collide. */
  lemma ProvidersNeverCollide(
    p1: string, h1: map<string, string>, e1: string, id1: string,
    p2: string, h2: map<string, string>, e2: string, id2: string)
    requires ColonFree(p1) && ColonFree(p2)
    requires DedupKey(p1, h1, e1, id1).Some? && DedupKey(p1, h1, e1, id1) == DedupKey(p2, h2, e2, id2)
    ensures p1 == p2
  {
    var k1, k2 := FirstHeader(h1, ID_HEADERS), FirstHeader(h2, ID_HEADERS);
    var x := if k1 != "" then k1 else e1 + ":" + id1;
    var y := if k2 != "" then k2 else e2 + ":" + id2;
    assert DedupKey(p1, h1, e1, id1).value == p1 + ":" + x by {
      assert p1 + ":" + e1 + ":" + id1 == p1 + ":" + (e1 + ":" + id1);
    }
    assert DedupKey(p2, h2, e2, id2).value == p2 + ":" + y by {
      assert p2 + ":" + e2 + ":" + id2 == p2 + ":" + (e2 + ":" + id2);
    }
    FirstColonSplits(p1, p2, x, y);
  }

  /** Within a provider, fallback keys of colon-free event types collide only for the same event. */
  lemma FallbackKeysAreExact(
    p: string, h: map<string, string>, e1: string, id1: string, e2: string, id2: string)
    requires ColonFree(p) && ColonFree(e1) && ColonFree(e2) && FirstHeader(h, ID_HEADERS) == ""
    requires e1 != "" && e2 != "" && id1 != "" && id2 != ""
    ensures DedupKey(p, h, e1, id1) == DedupKey(p, h, e2, id2) <==> e1 == e2 && id1 == id2
  {
    assert p + ":" + e1 + ":" + id1 == p + ":" + (e1 + ":" + id1);
    assert p + ":" + e2 + ":" + id2 == p + ":" + (e2 + ":" + id2);
    if DedupKey(p, h, e1, id1) == DedupKey(p, h, e2, id2) {
      FirstColonSplits(p, p, e1 + ":" + id1, e2 + ":" + id2);
      FirstColonSplits(e1, e2, id1, id2);
    }
  }

  /** Without that they can: an event type with a colon hides another event. */
  lemma ColonInTypeCollides(p: string)
    ensures DedupKey(p, map[], "a:b", "c") == DedupKey(p, map[], "a", "b:c")
  {
    assert p + ":" + "a:b" + ":" + "c" == p + ":" + "a" + ":" + "b:c";
  }

  // -------------------------------------------------------- receiving under interleaving

  /** An event with its dedup key, and the time it passed the guard. */
  datatype Slot = Slot(key: Option<string>, at: real)

  /** `pending` are the receivers that passed the guard and have not committed their event yet. */
  datatype World = World(redis: Redis, pending: map<nat, Slot>, stored: seq<Slot>, clock: real)

  datatype Step =
    | Arrive(receiver: nat, key: Option<string>, now: real)
    | Insert(receiver: nat)
    | Crash(receiver: nat)

  ghost predicate Enabled(w: World, step: Step) {
    match step
    case Arrive(r, _, now) => r !in w.pending && w.clock <= now
    case Insert(r) => r in w.pending
    case Crash(r) => r in w.pending
  }

  /** The unique index rejects a key that is already stored. */
  ghost predicate Conflicts(w: World, receiver: nat)
    requires receiver in w.pending
  {
    w.pending[receiver].key.Some? && exists i :: 0 <= i < |w.stored| && w.stored[i].key == w.pending[receiver].key
  }

  /** An event without a key skips the guard.  A receiver whose insert is rejected is gone as well. */
  ghost function Apply(ttl: real, w: World, step: Step): World
    requires Enabled(w, step)
  {
    match step
    case Arrive(r, key, now) =>
      var w := w.(clock := now);
      if key.None? then w.(pending := w.pending[r := Slot(key, now)])
      else
        var (redis, admitted) := SetNx(w.redis, key.value, ttl, now);
        if admitted then w.(redis := redis, pending := w.pending[r := Slot(key, now)]) else w
    case Insert(r) =>
      var left := w.(pending := w.pending - {r});
      if Conflicts(w, r) then left else left.(stored := w.stored + [w.pending[r]])
    case Crash(r) => w.(pending := w.pending - {r})
  }

  ghost predicate LegalRun(ttl: real, w: World, steps: seq<Step>)
    decreases |steps|
  {
    steps != [] ==> Enabled(w, steps[0]) && LegalRun(ttl, Apply(ttl, w, steps[0]), steps[1..])
  }

  ghost function Run(ttl: real, w: World, steps: seq<Step>): World
    requires LegalRun(ttl, w, steps)
    decreases |steps|
  {
    if steps == [] then w else Run(ttl, Apply(ttl, w, steps[0]), steps[1..])
  }

  /** Events of one key passed the guard at least the TTL apart. */
  ghost predicate Apart(ttl: real, a: Slot, b: Slot) {
    a.key.Some? && a.key == b.key ==> a.at + ttl <= b.at || b.at + ttl <= a.at
  }

  ghost predicate Marked(ttl: real, w: World, s: Slot) {
    s.at <= w.clock && (s.key.Some? ==> s.key.value in w.redis && s.at + ttl <= w.redis[s.key.value])
  }

  ghost predicate Guarded(ttl: real, w: World) {
    && (forall i :: 0 <= i < |w.stored| ==> Marked(ttl, w, w.stored[i]))
    && (forall r :: r in w.pending ==> Marked(ttl, w, w.pending[r]))
    && (forall i, j :: 0 <= i < j < |w.stored| && w.stored[i].key.Some? ==> w.stored[i].key != w.stored[j].key)
    && (forall i, r :: 0 <= i < |w.stored| && r in w.pending ==> Apart(ttl, w.stored[i], w.pending[r]))
    && (forall q, r :: q in w.pending && r in w.pending && q != r ==> Apart(ttl, w.pending[q], w.pending[r]))
  }

  lemma ArriveIsGuarded(ttl: real, w: World, step: Step)
    requires ttl >= 0.0 && Guarded(ttl, w) && step.Arrive? && Enabled(w, step)
    ensures Guarded(ttl, Apply(ttl, w, step))
  {
  }

  lemma LeaveIsGuarded(ttl: real, w: World, step: Step)
    requires Guarded(ttl, w) && !step.Arrive? && Enabled(w, step)
    ensures Guarded(ttl, Apply(ttl, w, step))
  {
  }

  lemma StepIsGuarded(ttl: real, w: World, step: Step)
    requires ttl >= 0.0 && Guarded(ttl, w) && Enabled(w, step)
    ensures Guarded(ttl, Apply(ttl, w, step))
  {
    hide Guarded;
    hide Apply;
    if step.Arrive? {
      ArriveIsGuarded(ttl, w, step);
    } else {
      LeaveIsGuarded(ttl, w, step);
    }
  }

  /** Stored events never share a non-null dedup key, whatever the interleaving of receivers and even
      after a TTL has expired; and all events of one key, stored or on their way, passed the guard at
      least the TTL apart. */
  lemma {:induction false} EveryInterleavingIsGuarded(ttl: real, w: World, steps: seq<Step>)
    requires ttl >= 0.0 && Guarded(ttl, w) && LegalRun(ttl, w, steps)
    ensures Guarded(ttl, Run(ttl, w, steps))
    decreases |steps|
  {
    hide Guarded;
    hide Apply;
    if steps != [] {
      StepIsGuarded(ttl, w, steps[0]);
      EveryInterleavingIsGuarded(ttl, Apply(ttl, w, steps[0]), steps[1..]);
    }
  }

  function Start(clock: real): World {
    World(map[], map[], [], clock)
  }

  /** So in every run from an empty Redis and an empty event table no two stored events share a dedup key. */
  lemma StoredKeysAreDistinct(ttl: real, clock: real, steps: seq<Step>)
    requires ttl >= 0.0 && LegalRun(ttl, Start(clock), steps)
    ensures var w := Run(ttl, Start(clock), steps);
            forall i, j :: 0 <= i < j < |w.stored| && w.stored[i].key.Some? ==> w.stored[i].key != w.stored[j].key
  {
    EveryInterleavingIsGuarded(ttl, Start(clock), steps);
  }

  /** The unique index behind the guard is needed only across a TTL: in every run an insert it rejects
      belongs to an event that passed the guard at least the TTL before or after the stored one. */
  lemma IndexFiresOnlyAcrossTtl(ttl: real, w: World, steps: seq<Step>, r: nat) returns (i: nat)
    requires ttl >= 0.0 && Guarded(ttl, w) && LegalRun(ttl, w, steps)
    requires r in Run(ttl, w, steps).pending && Conflicts(Run(ttl, w, steps), r)
    ensures var after := Run(ttl, w, steps);
            && i < |after.stored| && after.stored[i].key == after.pending[r].key
            && (after.stored[i].at + ttl <= after.pending[r].at || after.pending[r].at + ttl <= after.stored[i].at)
  {
    EveryInterleavingIsGuarded(ttl, w, steps);
    var after := Run(ttl, w, steps);
    var k :| 0 <= k < |after.stored| && after.stored[k].key == after.pending[r].key;
    i := k;
    assert Apart(ttl, after.stored[i], after.pending[r]);
  }

  // ------------------------------------------------- losing an event to its own guard

  /** Some arrival of the run passes the guard with this key, less than the TTL before `later`. */
  ghost predicate AdmittedWithin(ttl: real, w: World, steps: seq<Step>, key: string, later: real)
    requires LegalRun(ttl, w, steps)
    decreases |steps|
  {
    steps != []
    && ((steps[0].Arrive? && steps[0].key == Some(key)
         && SetNx(w.redis, key, ttl, steps[0].now).1 && later < steps[0].now + ttl)
        || AdmittedWithin(ttl, Apply(ttl, w, steps[0]), steps[1..], key, later))
  }

  ghost predicate Alive(w: World, key: string, now: real) {
    key in w.redis && now < w.redis[key]
  }

  lemma {:induction false} ClockGrows(ttl: real, w: World, steps: seq<Step>)
    requires LegalRun(ttl, w, steps)
    ensures w.clock <= Run(ttl, w, steps).clock
    decreases |steps|
  {
    if steps != [] {
      ClockGrows(ttl, Apply(ttl, w, steps[0]), steps[1..]);
    }
  }

  /** After any run a key is alive if and only if it was marked so before, or some arrival of the run passed
      the guard less than the TTL ago: whatever became of that receiver. */
  lemma {:induction false} AliveAfterRunIff(ttl: real, w: World, steps: seq<Step>, key: string, later: real)
    requires LegalRun(ttl, w, steps) && Run(ttl, w, steps).clock <= later
    ensures Alive(Run(ttl, w, steps), key, later)
       <==> Alive(w, key, later) || AdmittedWithin(ttl, w, steps, key, later)
    decreases |steps|
  {
    if steps != [] {
      var next := Apply(ttl, w, steps[0]);
      ClockGrows(ttl, next, steps[1..]);
      AliveAfterRunIff(ttl, next, steps[1..], key, later);
    }
  }

  /** The events of one key, stored or on their way. */
  ghost function SlotsOf(w: World, key: string): set<Slot> {
    (set i | 0 <= i < |w.stored| && w.stored[i].key == Some(key) :: w.stored[i])
    + (set r | r in w.pending && w.pending[r].key == Some(key) :: w.pending[r])
  }

  /** While a key is alive no event of that key gets on its way. */
  lemma {:induction false} NothingNewWhileAlive(ttl: real, w: World, steps: seq<Step>, key: string)
    requires LegalRun(ttl, w, steps) && Alive(w, key, Run(ttl, w, steps).clock)
    ensures SlotsOf(Run(ttl, w, steps), key) <= SlotsOf(w, key)
    decreases |steps|
  {
    if steps != [] {
      var next := Apply(ttl, w, steps[0]);
      ClockGrows(ttl, next, steps[1..]);
      assert SlotsOf(next, key) <= SlotsOf(w, key);
      NothingNewWhileAlive(ttl, next, steps[1..], key);
    }
  }

  /** A receiver that fails between the guard and its commit leaves a marked key behind.  Whatever happens
      afterwards, a redelivery is rejected if and only if it comes within the TTL of that receiver or of a
      later one that passed the guard; and within the TTL of that receiver the event is lost: by then no
      event of its key is stored or on its way that was not before. */
  lemma LostWithinTtlIff(
    ttl: real, w: World, r: nat, key: string, now: real, steps: seq<Step>, q: nat, later: real)
    requires r !in w.pending && w.clock <= now && !Alive(w, key, now)
    requires var crashed := Apply(ttl, Apply(ttl, w, Arrive(r, Some(key), now)), Crash(r));
             && LegalRun(ttl, crashed, steps)
             && Enabled(Run(ttl, crashed, steps), Arrive(q, Some(key), later))
    ensures var crashed := Apply(ttl, Apply(ttl, w, Arrive(r, Some(key), now)), Crash(r));
            var after := Run(ttl, crashed, steps);
            var again := Apply(ttl, after, Arrive(q, Some(key), later));
            && (q !in again.pending <==> later < now + ttl || AdmittedWithin(ttl, crashed, steps, key, later))
            && again.stored == after.stored
            && (later < now + ttl ==> SlotsOf(again, key) <= SlotsOf(w, key))
  {
    var crashed := Apply(ttl, Apply(ttl, w, Arrive(r, Some(key), now)), Crash(r));
    var after := Run(ttl, crashed, steps);
    AliveAfterRunIff(ttl, crashed, steps, key, later);
    if later < now + ttl {
      NothingNewWhileAlive(ttl, crashed, steps, key);
      assert crashed.stored == w.stored && crashed.pending == w.pending;
      assert SlotsOf(crashed, key) == SlotsOf(w, key);
      var again := Apply(ttl, after, Arrive(q, Some(key), later));
      assert again.stored == after.stored && again.pending == after.pending;
    }
  }

  /** When a received event is stored: it passes the guard exactly if it has no key or its key is not alive, and a
      receiver that is not interrupted then stores it unless the table holds its key already. */
  lemma ReceivedIsStoredIff(ttl: real, w: World, r: nat, key: Option<string>, now: real)
    requires Enabled(w, Arrive(r, key, now))
    ensures var arrived := Apply(ttl, w, Arrive(r, key, now));
            && (r in arrived.pending <==> key.None? || !Alive(w, key.value, now))
            && arrived.stored == w.stored
            && (r in arrived.pending ==>
                  var stored := Apply(ttl, arrived, Insert(r)).stored;
                  stored == if key.Some? && (exists i :: 0 <= i < |w.stored| && w.stored[i].key == key)
                            then w.stored else w.stored + [Slot(key, now)])
  {
  }
}
