/** The SET-NX-EX distributed lock, whose release deletes the key whoever set it. */
module RedisLocks {
  import opened Basics

  class RedisLock {
    const ttl: real
    var expiry: Option<real>

    constructor (ttl: real)
      ensures this.ttl == ttl && expiry == None
    {
      this.ttl := ttl;
      expiry := None;
    }

    method Acquire(now: real) returns (ok: bool)
      modifies this
      ensures ok <==> old(expiry).None? || now >= old(expiry).value
      ensures expiry == if ok then Some(now + ttl) else old(expiry)
    {
      ok := expiry.None? || now >= expiry.value;
      if ok {
        expiry := Some(now + ttl);
      }
    }

    method Release()
      modifies this
      ensures expiry == None
    {
      expiry := None;
    }
  }

  /** The key in Redis, and the processes that acquired the lock and have not released it, with the time
      of their acquisition. */
  datatype World = World(expiry: Option<real>, holders: map<nat, real>, clock: real)

  datatype Step = Acquire(process: nat, now: real) | Release(process: nat, now: real)

  ghost predicate Enabled(w: World, step: Step) {
    w.clock <= step.now && (step.process in w.holders <==> step.Release?)
  }

  ghost function Apply(ttl: real, w: World, step: Step): World
    requires Enabled(w, step)
  {
    match step
    case Acquire(p, now) =>
      if w.expiry.Some? && now < w.expiry.value then w.(clock := now)
      else World(Some(now + ttl), w.holders[p := now], now)
    case Release(p, now) => World(None, w.holders - {p}, now)
  }

  /** A release within the TTL of its acquisition. */
  ghost predicate Prompt(ttl: real, w: World, step: Step) {
    step.Release? && step.process in w.holders ==> step.now < w.holders[step.process] + ttl
  }

  ghost predicate PromptRun(ttl: real, w: World, steps: seq<Step>)
    decreases |steps|
  {
    steps != [] ==>
      Enabled(w, steps[0]) && Prompt(ttl, w, steps[0]) && PromptRun(ttl, Apply(ttl, w, steps[0]), steps[1..])
  }

  ghost function Run(ttl: real, w: World, steps: seq<Step>): World
    requires PromptRun(ttl, w, steps)
    decreases |steps|
  {
    if steps == [] then w else Run(ttl, Apply(ttl, w, steps[0]), steps[1..])
  }

  ghost predicate Live(ttl: real, w: World, p: nat) {
    p in w.holders && w.clock < w.holders[p] + ttl
  }

  /** At most one process holds a lock that has not expired. */
  ghost predicate Exclusive(ttl: real, w: World) {
    forall p, q :: Live(ttl, w, p) && Live(ttl, w, q) ==> p == q
  }

  ghost predicate Owned(ttl: real, w: World) {
    && (forall p :: p in w.holders ==> w.holders[p] <= w.clock)
    && (forall p :: Live(ttl, w, p) ==> w.expiry == Some(w.holders[p] + ttl))
    && (forall p, q :: p in w.holders && q in w.holders && p != q ==>
          w.holders[p] + ttl <= w.holders[q] || w.holders[q] + ttl <= w.holders[p])
  }

  lemma OwnedIsExclusive(ttl: real, w: World)
    requires ttl > 0.0 && Owned(ttl, w)
    ensures Exclusive(ttl, w)
  {
  }

  lemma ExpiredLockHasNoLiveHolder(ttl: real, w: World, now: real, q: nat)
    requires Owned(ttl, w) && w.clock <= now && q in w.holders
    requires w.expiry.None? || now >= w.expiry.value
    ensures w.holders[q] + ttl <= now
  {
    if now < w.holders[q] + ttl {
      assert Live(ttl, w, q);
    }
  }

  lemma AcquireIsOwned(ttl: real, w: World, p: nat, now: real)
    requires ttl > 0.0 && Owned(ttl, w) && Enabled(w, Acquire(p, now))
    ensures Owned(ttl, Apply(ttl, w, Acquire(p, now)))
  {
    var w' := Apply(ttl, w, Acquire(p, now));
    if w.expiry.Some? && now < w.expiry.value {
      forall q | Live(ttl, w', q) ensures w'.expiry == Some(w'.holders[q] + ttl) {
        assert Live(ttl, w, q);
      }
    } else {
      forall q | q in w.holders ensures w.holders[q] + ttl <= now {
        ExpiredLockHasNoLiveHolder(ttl, w, now, q);
      }
      assert forall q :: Live(ttl, w', q) ==> q == p;
    }
  }

  lemma ReleaseIsOwned(ttl: real, w: World, p: nat, now: real)
    requires ttl > 0.0 && Owned(ttl, w) && Enabled(w, Release(p, now)) && now < w.holders[p] + ttl
    ensures Owned(ttl, Apply(ttl, w, Release(p, now)))
  {
    var w' := Apply(ttl, w, Release(p, now));
    assert Live(ttl, w, p);
    OwnedIsExclusive(ttl, w);
    assert forall q :: q in w'.holders && now < w'.holders[q] + ttl ==> Live(ttl, w, q);
  }

  /** If every release comes within the TTL of its acquisition, the lock is exclusive in every run. */
  lemma {:induction false} PromptReleasesExclude(ttl: real, w: World, steps: seq<Step>)
    requires ttl > 0.0 && Owned(ttl, w) && PromptRun(ttl, w, steps)
    ensures Owned(ttl, Run(ttl, w, steps)) && Exclusive(ttl, Run(ttl, w, steps))
    decreases |steps|
  {
    OwnedIsExclusive(ttl, w);
    hide Owned;
    hide Exclusive;
    hide Apply;
    if steps != [] {
      match steps[0] {
        case Acquire(p, now) => AcquireIsOwned(ttl, w, p, now);
        case Release(p, now) => ReleaseIsOwned(ttl, w, p, now);
      }
      PromptReleasesExclude(ttl, Apply(ttl, w, steps[0]), steps[1..]);
    }
  }

  function Free(clock: real): World {
    World(None, map[], clock)
  }

  /** So it is in every such run from a free lock. */
  lemma PromptHistoryIsExclusive(ttl: real, clock: real, steps: seq<Step>)
    requires ttl > 0.0 && PromptRun(ttl, Free(clock), steps)
    ensures Exclusive(ttl, Run(ttl, Free(clock), steps))
  {
    PromptReleasesExclude(ttl, Free(clock), steps);
  }

  /** A free or expired lock goes to whoever asks first, and an unexpired one to nobody else: in every run of
      prompt releases an acquisition succeeds exactly when no live holder is left. */
  lemma AcquireSucceedsIff(ttl: real, clock: real, steps: seq<Step>, p: nat, now: real)
    requires ttl > 0.0 && PromptRun(ttl, Free(clock), steps)
    requires Enabled(Run(ttl, Free(clock), steps), Acquire(p, now))
    ensures var w := Run(ttl, Free(clock), steps);
            && (Live(ttl, Apply(ttl, w, Acquire(p, now)), p) <==>
                  forall q :: q in w.holders ==> w.holders[q] + ttl <= now)
  {
    PromptReleasesExclude(ttl, Free(clock), steps);
    HeldByHolder(ttl, Free(clock), steps);
    var w := Run(ttl, Free(clock), steps);
    if w.expiry.Some? && now < w.expiry.value {
      var q :| q in w.holders && w.expiry == Some(w.holders[q] + ttl);
      assert !(w.holders[q] + ttl <= now);
    } else {
      forall q | q in w.holders ensures w.holders[q] + ttl <= now {
        ExpiredLockHasNoLiveHolder(ttl, w, now, q);
      }
    }
  }

  ghost predicate Held(ttl: real, w: World) {
    w.expiry.Some? ==> exists q :: q in w.holders && w.expiry == Some(w.holders[q] + ttl)
  }

  lemma {:induction false} HeldByHolder(ttl: real, w: World, steps: seq<Step>)
    requires ttl > 0.0 && Held(ttl, w) && PromptRun(ttl, w, steps)
    ensures Held(ttl, Run(ttl, w, steps))
    decreases |steps|
  {
    if steps != [] {
      var next := Apply(ttl, w, steps[0]);
      if next.expiry.Some? {
        if w.expiry.Some? && steps[0].now < w.expiry.value {
          var q :| q in w.holders && w.expiry == Some(w.holders[q] + ttl);
          assert next.holders[q] == w.holders[q];
        } else {
          assert next.holders[steps[0].process] == steps[0].now;
        }
      }
      HeldByHolder(ttl, next, steps[1..]);
    }
  }

  /** A release costs another process its lock, so that a third one can acquire it at once beside it, if
      and only if some other holder is live at that moment; a prompt release never does. */
  lemma ReleaseAdmitsSecondIff(ttl: real, w: World, p: nat, r: nat, now: real)
    requires ttl > 0.0 && Owned(ttl, w) && Enabled(w, Release(p, now)) && r !in w.holders
    ensures var released := Apply(ttl, w, Release(p, now));
            && Enabled(released, Acquire(r, now))
            && Live(ttl, Apply(ttl, released, Acquire(r, now)), r)
            && (!Exclusive(ttl, Apply(ttl, released, Acquire(r, now)))
                <==> exists q :: q in w.holders && q != p && now < w.holders[q] + ttl)
            && (now < w.holders[p] + ttl ==> Exclusive(ttl, Apply(ttl, released, Acquire(r, now))))
  {
    var after := Apply(ttl, Apply(ttl, w, Release(p, now)), Acquire(r, now));
    assert Live(ttl, after, r);
    if q :| q in w.holders && q != p && now < w.holders[q] + ttl {
      assert Live(ttl, after, q);
      assert Live(ttl, w, q);
    }
  }
}
