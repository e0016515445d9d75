/** The client library's token-bucket rate limiter.

    One iteration of the acquire loop runs under the limiter's lock, so a run of the
    limiter is a sequence of polls in lock order, each reading the monotonic clock
    inside the lock.  Sleeping happens outside the lock: any number of callers may
    interleave their polls.  Time and token counts are reals.
 */
module RateLimiter {
  import opened Basics

  // ---------------------------------------------------------------- one poll

  datatype Limits = Limits(rate: real, capacity: int) {
    /** What the theorems need of the constructor's arguments; the class accepts any. */
    ghost predicate Usable() {
      rate > 0.0 && capacity >= 1
    }
  }

  datatype Bucket = Bucket(tokens: real, lastRefill: real)

  type Buckets = map<string, Bucket>

  datatype Outcome =
    | Granted
    | Wait(seconds: real)
    | DivisionByZero

  /** Tokens produced between two instants. */
  function Earned(rate: real, from: real, until: real): real {
    (until - from) * rate
  }

  function Refill(l: Limits, b: Bucket, now: real): Bucket {
    var newTokens := Earned(l.rate, b.lastRefill, now);
    if newTokens > 0.0 then Bucket(Min(l.capacity as real, b.tokens + newTokens), now) else b
  }

  function WaitTime(rate: real, tokens: real): real
    requires rate != 0.0
  {
    (1.0 - tokens) / rate
  }

  /** What one poll does to the bucket of its key; a key seen for the first time starts full. */
  function PollBucket(l: Limits, before: Option<Bucket>, now: real): (Bucket, Outcome) {
    var b := Refill(l, if before.Some? then before.value else Bucket(l.capacity as real, now), now);
    if b.tokens >= 1.0 then (Bucket(b.tokens - 1.0, b.lastRefill), Granted)
    else if l.rate == 0.0 then (b, DivisionByZero)
    else (b, Wait(WaitTime(l.rate, b.tokens)))
  }

  function Lookup(buckets: Buckets, key: string): Option<Bucket> {
    if key in buckets then Some(buckets[key]) else None
  }

  function Poll(l: Limits, buckets: Buckets, key: string, now: real): (Buckets, Outcome) {
    var (b, outcome) := PollBucket(l, Lookup(buckets, key), now);
    (buckets[key := b], outcome)
  }

  // ------------------------------------------------- continuous refill as reference

  /** The number of tokens a continuously refilled bucket would hold at time t. */
  ghost function Level(l: Limits, b: Option<Bucket>, t: real): real {
    if b.None? then l.capacity as real
    else Min(l.capacity as real, b.value.tokens + Earned(l.rate, b.value.lastRefill, t))
  }

  ghost predicate ValidBucket(l: Limits, b: Option<Bucket>, clock: real) {
    b.Some? ==> 0.0 <= b.value.tokens <= l.capacity as real && b.value.lastRefill <= clock
  }

  ghost predicate ValidBuckets(l: Limits, buckets: Buckets, clock: real) {
    forall key :: key in buckets ==> ValidBucket(l, Some(buckets[key]), clock)
  }

  lemma EarnedAdds(rate: real, a: real, b: real, c: real)
    ensures Earned(rate, a, c) == Earned(rate, a, b) + Earned(rate, b, c)
  {
  }

  lemma EarnedGrows(rate: real, a: real, b: real)
    requires rate > 0.0
    ensures Earned(rate, a, b) == 0.0 <==> a == b
    ensures Earned(rate, a, b) > 0.0 <==> a < b
  {
  }

  lemma EarnedInWait(rate: real, missing: real, now: real)
    requires rate > 0.0
    ensures Earned(rate, now, now + missing / rate) == missing
  {
    assert (now + missing / rate) - now == missing / rate;
  }

  /** The level at a later time is determined by the level at an earlier one. */
  lemma LevelAdvances(l: Limits, b: Option<Bucket>, u: real, t: real)
    requires l.Usable() && u <= t
    ensures Level(l, b, t) == Min(l.capacity as real, Level(l, b, u) + Earned(l.rate, u, t))
    ensures Level(l, b, u) <= Level(l, b, t) <= Level(l, b, u) + Earned(l.rate, u, t)
  {
    hide Earned;
    EarnedGrows(l.rate, u, t);
    if b.Some? {
      EarnedAdds(l.rate, b.value.lastRefill, u, t);
    }
  }

  /** Lazy refills at any intermediate times compose: refilling at u and then at t is
      refilling at t, for any u in between. */
  lemma RefillsCompose(l: Limits, b: Bucket, u: real, t: real)
    requires l.Usable() && b.tokens <= l.capacity as real && b.lastRefill <= u <= t
    ensures Refill(l, Refill(l, b, u), t) == Refill(l, b, t)
  {
    hide Earned;
    EarnedAdds(l.rate, b.lastRefill, u, t);
    EarnedGrows(l.rate, b.lastRefill, u);
    EarnedGrows(l.rate, u, t);
  }

  /** Lazy refill at a poll catches up with continuous refill. */
  lemma RefillReachesLevel(l: Limits, b: Option<Bucket>, now: real)
    requires l.Usable() && ValidBucket(l, b, now)
    ensures Refill(l, if b.Some? then b.value else Bucket(l.capacity as real, now), now)
         == Bucket(Level(l, b, now), now)
    ensures 0.0 <= Level(l, b, now) <= l.capacity as real
  {
    hide Earned;
    EarnedGrows(l.rate, now, now);
    if b.Some? {
      EarnedGrows(l.rate, b.value.lastRefill, now);
    }
  }

  /** A poll is granted exactly when continuous refill has reached one token; a grant takes
      one token off the level, and a refusal leaves the level unchanged at every later time and
      computes the exact time until the next token. */
  lemma PollMeetsContinuousRefill(l: Limits, before: Option<Bucket>, now: real, t: real)
    requires l.Usable() && ValidBucket(l, before, now) && now <= t
    ensures var (after, outcome) := PollBucket(l, before, now);
            && ValidBucket(l, Some(after), now)
            && !outcome.DivisionByZero?
            && (outcome.Granted? <==> Level(l, before, now) >= 1.0)
            && (outcome.Granted? ==> Level(l, Some(after), now) == Level(l, before, now) - 1.0)
            && (outcome.Wait? ==> Level(l, Some(after), t) == Level(l, before, t))
            && (outcome.Wait? ==> before.Some? && outcome.seconds > 0.0
                                  && Level(l, before, now) + Earned(l.rate, now, now + outcome.seconds) == 1.0)
  {
    hide Earned;
    hide Refill;
    RefillReachesLevel(l, before, now);
    EarnedGrows(l.rate, now, now);
    var (after, outcome) := PollBucket(l, before, now);
    if outcome.Wait? {
      EarnedInWait(l.rate, 1.0 - after.tokens, now);
      EarnedGrows(l.rate, now, now + outcome.seconds);
      LevelAdvances(l, before, now, t);
      LevelAdvances(l, Some(after), now, t);
    }
  }

  /** A refused caller that polls again, with no poll in between, is granted if and only if
      it slept at least the computed wait. */
  lemma WaitIsExact(l: Limits, before: Option<Bucket>, now: real, t: real)
    requires l.Usable() && ValidBucket(l, before, now) && now <= t
    requires PollBucket(l, before, now).1.Wait?
    ensures var (after, outcome) := PollBucket(l, before, now);
            PollBucket(l, Some(after), t).1.Granted? <==> t >= now + outcome.seconds
  {
    hide Earned;
    hide Level;
    hide PollBucket;
    var (after, outcome) := PollBucket(l, before, now);
    PollMeetsContinuousRefill(l, before, now, t);
    PollMeetsContinuousRefill(l, Some(after), t, t);
    LevelAdvances(l, before, now, t);
    EarnedAdds(l.rate, now, t, now + outcome.seconds);
    EarnedGrows(l.rate, t, now + outcome.seconds);
  }

  // ------------------------------------------------------------------ runs

  datatype Attempt = Attempt(key: string, now: real)

  ghost predicate Monotone(clock: real, attempts: seq<Attempt>)
    decreases |attempts|
  {
    attempts != [] ==> clock <= attempts[0].now && Monotone(attempts[0].now, attempts[1..])
  }

  function Outcomes(l: Limits, buckets: Buckets, attempts: seq<Attempt>): (os: seq<Outcome>)
    ensures |os| == |attempts|
    decreases |attempts|
  {
    if attempts == [] then []
    else
      var (next, outcome) := Poll(l, buckets, attempts[0].key, attempts[0].now);
      [outcome] + Outcomes(l, next, attempts[1..])
  }

  function After(l: Limits, buckets: Buckets, attempts: seq<Attempt>): Buckets
    decreases |attempts|
  {
    if attempts == [] then buckets
    else After(l, Poll(l, buckets, attempts[0].key, attempts[0].now).0, attempts[1..])
  }

  /** Grants on one key at times in the window (s, t]. */
  function GrantsIn(l: Limits, buckets: Buckets, attempts: seq<Attempt>, key: string, s: real, t: real): nat
    decreases |attempts|
  {
    if attempts == [] then 0
    else
      var a := attempts[0];
      var (next, outcome) := Poll(l, buckets, a.key, a.now);
      (if outcome.Granted? && a.key == key && s < a.now <= t then 1 else 0)
      + GrantsIn(l, next, attempts[1..], key, s, t)
  }

  lemma PollKeepsValid(l: Limits, buckets: Buckets, clock: real, key: string, now: real)
    requires l.Usable() && ValidBuckets(l, buckets, clock) && clock <= now
    ensures ValidBuckets(l, Poll(l, buckets, key, now).0, now)
  {
    PollMeetsContinuousRefill(l, Lookup(buckets, key), now, now);
  }

  /** Tokens stay in [0, capacity] in every run. */
  lemma {:induction false} TokensStayInRange(l: Limits, buckets: Buckets, clock: real, attempts: seq<Attempt>)
    requires l.Usable() && ValidBuckets(l, buckets, clock) && Monotone(clock, attempts)
    ensures forall key :: key in After(l, buckets, attempts) ==>
                            0.0 <= After(l, buckets, attempts)[key].tokens <= l.capacity as real
    decreases |attempts|
  {
    if attempts != [] {
      var a := attempts[0];
      PollKeepsValid(l, buckets, clock, a.key, a.now);
      TokensStayInRange(l, Poll(l, buckets, a.key, a.now).0, a.now, attempts[1..]);
    }
  }

  lemma {:induction false} NoGrantsAfterWindow(
    l: Limits, buckets: Buckets, clock: real, attempts: seq<Attempt>, key: string, s: real, t: real)
    requires Monotone(clock, attempts) && (attempts != [] ==> t < attempts[0].now)
    ensures GrantsIn(l, buckets, attempts, key, s, t) == 0
    decreases |attempts|
  {
    hide PollBucket;
    if attempts != [] {
      var a := attempts[0];
      NoGrantsAfterWindow(l, Poll(l, buckets, a.key, a.now).0, a.now, attempts[1..], key, s, t);
    }
  }

  /** Grants up to time t are paid for by the level now plus what is refilled until t. */
  lemma {:induction false} GrantsArePaidFor(
    l: Limits, buckets: Buckets, clock: real, attempts: seq<Attempt>, key: string, s: real, t: real)
    requires l.Usable() && ValidBuckets(l, buckets, clock) && Monotone(clock, attempts) && clock <= t
    ensures GrantsIn(l, buckets, attempts, key, s, t) as real
         <= Level(l, Lookup(buckets, key), clock) + Earned(l.rate, clock, t)
    decreases |attempts|
  {
    hide Earned;
    hide Level;
    hide PollBucket;
    EarnedGrows(l.rate, clock, t);
    var here := Lookup(buckets, key);
    RefillReachesLevel(l, here, clock);
    if attempts != [] {
      var a := attempts[0];
      if t < a.now {
        NoGrantsAfterWindow(l, buckets, clock, attempts, key, s, t);
      } else {
        var next := Poll(l, buckets, a.key, a.now).0;
        PollKeepsValid(l, buckets, clock, a.key, a.now);
        GrantsArePaidFor(l, next, a.now, attempts[1..], key, s, t);
        PollMeetsContinuousRefill(l, Lookup(buckets, a.key), a.now, a.now);
        LevelAdvances(l, here, clock, a.now);
        EarnedAdds(l.rate, clock, a.now, t);
      }
    }
  }

  /** In every run and every window (s, t], the grants on one key number at most
      capacity + rate * (t - s). */
  lemma {:induction false} WindowBound(
    l: Limits, buckets: Buckets, clock: real, attempts: seq<Attempt>, key: string, s: real, t: real)
    requires l.Usable() && ValidBuckets(l, buckets, clock) && Monotone(clock, attempts) && s <= t
    ensures GrantsIn(l, buckets, attempts, key, s, t) as real <= l.capacity as real + l.rate * (t - s)
    decreases |attempts|
  {
    hide Level;
    hide PollBucket;
    assert Earned(l.rate, s, t) == l.rate * (t - s);
    hide Earned;
    EarnedGrows(l.rate, s, t);
    if attempts != [] {
      var a := attempts[0];
      var next := Poll(l, buckets, a.key, a.now).0;
      if a.now <= s {
        PollKeepsValid(l, buckets, clock, a.key, a.now);
        WindowBound(l, next, a.now, attempts[1..], key, s, t);
      } else if a.now <= t {
        GrantsArePaidFor(l, buckets, a.now, attempts, key, s, t);
        RefillReachesLevel(l, Lookup(buckets, key), a.now);
        EarnedAdds(l.rate, s, a.now, t);
        EarnedGrows(l.rate, s, a.now);
      } else {
        NoGrantsAfterWindow(l, buckets, clock, attempts, key, s, t);
      }
    }
  }

  /** Without a whole token of capacity nobody is ever served: every poll of every run is refused. */
  lemma {:induction false} NoCapacityNoGrants(
    l: Limits, buckets: Buckets, attempts: seq<Attempt>, key: string, s: real, t: real)
    requires l.capacity < 1 && forall k :: k in buckets ==> buckets[k].tokens < 1.0
    ensures GrantsIn(l, buckets, attempts, key, s, t) == 0
    decreases |attempts|
  {
    hide Earned;
    hide WaitTime;
    if attempts != [] {
      NoCapacityNoGrants(l, Poll(l, buckets, attempts[0].key, attempts[0].now).0, attempts[1..], key, s, t);
    }
  }

  /** A bucket that nothing refills: a poll is granted exactly while a whole token is left, and a refused one
      raises for a rate of zero and computes a wait that has passed already for a negative one. */
  lemma UnrefilledPoll(l: Limits, before: Option<Bucket>, now: real)
    requires l.rate <= 0.0 && (before.Some? ==> before.value.lastRefill <= now)
    ensures var held := if before.Some? then before.value.tokens else l.capacity as real;
            var (after, outcome) := PollBucket(l, before, now);
            && (outcome.Granted? <==> held >= 1.0)
            && after.tokens == (if outcome.Granted? then held - 1.0 else held)
            && (outcome.DivisionByZero? <==> held < 1.0 && l.rate == 0.0)
            && (outcome.Wait? ==> outcome.seconds < 0.0)
  {
    var b := if before.Some? then before.value else Bucket(l.capacity as real, now);
    NothingEarned(l.rate, b.lastRefill, now);
    if b.tokens < 1.0 && l.rate < 0.0 {
      NegativeQuotient(1.0 - b.tokens, l.rate);
    }
  }

  lemma SignOfProduct(x: real, y: real)
    requires x >= 0.0 && y < 0.0
    ensures x * y <= 0.0
  {
  }

  lemma NegativeQuotient(x: real, y: real)
    requires x > 0.0 && y < 0.0
    ensures x / y < 0.0
  {
    var q := x / y;
    assert q * y == x;
    if q >= 0.0 {
      SignOfProduct(q, y);
    }
  }

  /** Nor does a caller ever come to an end: with a capacity below one but a positive rate every poll computes a
      wait, so that the loop goes on. */
  lemma NoCapacityWaits(l: Limits, before: Option<Bucket>, now: real)
    requires l.capacity < 1 && l.rate > 0.0 && (before.Some? ==> before.value.tokens < 1.0)
    ensures PollBucket(l, before, now).1.Wait? && PollBucket(l, before, now).1.seconds > 0.0
    ensures PollBucket(l, before, now).0.tokens < 1.0
  {
    hide Earned;
    var b := PollBucket(l, before, now).0;
    assert b.tokens < 1.0;
    PositiveQuotient(1.0 - b.tokens, l.rate);
  }

  lemma PositiveQuotient(x: real, y: real)
    requires x > 0.0 && y > 0.0
    ensures x / y > 0.0
  {
  }

  /** Tokens a key can still hand out when nothing refills it. */
  function Remaining(l: Limits, buckets: Buckets, key: string): real {
    if key in buckets then buckets[key].tokens else l.capacity as real
  }

  lemma NothingEarned(rate: real, from: real, until: real)
    requires rate <= 0.0 && from <= until
    ensures Earned(rate, from, until) <= 0.0
  {
  }

  /** Without a positive rate a key hands out its initial tokens and nothing more, ever. */
  lemma {:induction false} NoRateOnlyInitialTokens(
    l: Limits, buckets: Buckets, clock: real, attempts: seq<Attempt>, key: string, s: real, t: real)
    requires l.rate <= 0.0 && l.capacity >= 0 && Monotone(clock, attempts)
    requires forall k :: k in buckets ==> buckets[k].tokens >= 0.0 && buckets[k].lastRefill <= clock
    ensures GrantsIn(l, buckets, attempts, key, s, t) as real <= Remaining(l, buckets, key)
    decreases |attempts|
  {
    hide Earned;
    hide WaitTime;
    if attempts != [] {
      var a := attempts[0];
      NothingEarned(l.rate, if a.key in buckets then buckets[a.key].lastRefill else a.now, a.now);
      NoRateOnlyInitialTokens(l, Poll(l, buckets, a.key, a.now).0, a.now, attempts[1..], key, s, t);
    }
  }

  function Burst(key: string, now: real, n: nat): (attempts: seq<Attempt>)
    ensures |attempts| == n
  {
    if n == 0 then [] else [Attempt(key, now)] + Burst(key, now, n - 1)
  }

  /** The bound is attained by a burst: of simultaneous polls exactly as many, and the first ones, are
      granted as the continuously refilled bucket holds whole tokens; a fresh key holds the capacity. */
  lemma {:induction false} BurstGrantsWhatIsHeld(
    l: Limits, buckets: Buckets, key: string, now: real, n: nat, outcomes: seq<Outcome>)
    requires l.Usable() && ValidBucket(l, Lookup(buckets, key), now)
    requires outcomes == Outcomes(l, buckets, Burst(key, now, n))
    ensures forall i :: 0 <= i < n ==> (outcomes[i].Granted? <==> i < Level(l, Lookup(buckets, key), now).Floor)
    decreases n
  {
    if n > 0 {
      hide Level;
      hide PollBucket;
      var (next, outcome) := Poll(l, buckets, key, now);
      PollMeetsContinuousRefill(l, Lookup(buckets, key), now, now);
      assert Burst(key, now, n)[1..] == Burst(key, now, n - 1);
      assert outcomes == [outcome] + outcomes[1..];
      BurstGrantsWhatIsHeld(l, next, key, now, n - 1, outcomes[1..]);
    }
  }

  // ------------------------------------------- erasing polls and separating keys

  function Pick<T>(xs: seq<T>, mask: seq<bool>): seq<T>
    requires |xs| == |mask|
  {
    if xs == [] then []
    else if mask[0] then [xs[0]] + Pick(xs[1..], mask[1..])
    else Pick(xs[1..], mask[1..])
  }

  /** The same level now on the watched keys, hence the same level at every later time. */
  ghost predicate SameLevels(l: Limits, b1: Buckets, b2: Buckets, keys: iset<string>, clock: real) {
    forall key :: key in keys ==>
      Level(l, Lookup(b1, key), clock) == Level(l, Lookup(b2, key), clock)
  }

  lemma SameLevelsAdvance(l: Limits, b1: Buckets, b2: Buckets, keys: iset<string>, clock: real, now: real)
    requires l.Usable() && clock <= now && SameLevels(l, b1, b2, keys, clock)
    ensures SameLevels(l, b1, b2, keys, now)
  {
    forall key | key in keys
      ensures Level(l, Lookup(b1, key), now) == Level(l, Lookup(b2, key), now)
    {
      LevelAdvances(l, Lookup(b1, key), clock, now);
      LevelAdvances(l, Lookup(b2, key), clock, now);
    }
  }

  /** The level alone decides a poll's outcome, including the computed wait. */
  lemma LevelDecidesPoll(l: Limits, b1: Option<Bucket>, b2: Option<Bucket>, now: real)
    requires l.Usable() && ValidBucket(l, b1, now) && ValidBucket(l, b2, now)
    requires Level(l, b1, now) == Level(l, b2, now)
    ensures PollBucket(l, b1, now) == PollBucket(l, b2, now)
  {
    hide Refill;
    hide Level;
    RefillReachesLevel(l, b1, now);
    RefillReachesLevel(l, b2, now);
  }

  /** Which polls may be dropped from a run: refused ones, and all polls of unwatched keys. */
  ghost predicate MayDrop(attempts: seq<Attempt>, outcomes: seq<Outcome>, keys: iset<string>, mask: seq<bool>)
    requires |attempts| == |outcomes| == |mask|
  {
    forall i :: 0 <= i < |mask| && !mask[i] ==> outcomes[i].Wait? || attempts[i].key !in keys
  }

  /** Dropping any refused polls, and any polls of other keys, from a run changes neither the
      outcome of any remaining poll nor any later level of a watched key: unsuccessful polls are
      invisible and keys never affect each other. */
  lemma {:induction false} DroppedPollsAreInvisible(
    l: Limits, b1: Buckets, b2: Buckets, clock: real, attempts: seq<Attempt>, keys: iset<string>, mask: seq<bool>)
    requires l.Usable() && ValidBuckets(l, b1, clock) && ValidBuckets(l, b2, clock)
    requires SameLevels(l, b1, b2, keys, clock) && Monotone(clock, attempts)
    requires |mask| == |attempts|
    requires MayDrop(attempts, Outcomes(l, b1, attempts), keys, mask)
    requires forall i :: 0 <= i < |mask| && mask[i] ==> attempts[i].key in keys
    ensures Outcomes(l, b2, Pick(attempts, mask)) == Pick(Outcomes(l, b1, attempts), mask)
    ensures forall end :: clock <= end && (attempts != [] ==> attempts[|attempts| - 1].now <= end) ==>
              SameLevels(l, After(l, b1, attempts), After(l, b2, Pick(attempts, mask)), keys, end)
    decreases |attempts|
  {
    hide Level;
    hide PollBucket;
    if attempts == [] {
      forall end | clock <= end ensures SameLevels(l, b1, b2, keys, end) {
        SameLevelsAdvance(l, b1, b2, keys, clock, end);
      }
    } else {
      var a, rest := attempts[0], attempts[1..];
      var os := Outcomes(l, b1, attempts);
      var (n1, o) := Poll(l, b1, a.key, a.now);
      assert os[1..] == Outcomes(l, n1, rest);
      SameLevelsAdvance(l, b1, b2, keys, clock, a.now);
      PollKeepsValid(l, b1, clock, a.key, a.now);
      MonotoneEnds(a.now, rest);
      assert MayDrop(rest, os[1..], keys, mask[1..]) by {
        forall i | 0 <= i < |mask[1..]| && !mask[1..][i] ensures os[1..][i].Wait? || rest[i].key !in keys {
          assert !mask[i + 1];
        }
      }
      assert forall i :: 0 <= i < |mask[1..]| && mask[1..][i] ==> rest[i].key == attempts[i + 1].key;
      if mask[0] {
        assert a.key in keys;
        LevelDecidesPoll(l, Lookup(b1, a.key), Lookup(b2, a.key), a.now);
        var n2 := Poll(l, b2, a.key, a.now).0;
        PollKeepsValid(l, b2, clock, a.key, a.now);
        DroppedPollsAreInvisible(l, n1, n2, a.now, rest, keys, mask[1..]);
        var kept := Pick(attempts, mask);
        assert kept[0] == a && kept[1..] == Pick(rest, mask[1..]);
        assert Outcomes(l, b2, kept) == [o] + Outcomes(l, n2, kept[1..]);
        assert Pick(os, mask) == [o] + Pick(os[1..], mask[1..]);
      } else {
        DroppedPollKeepsLevels(l, b1, b2, keys, a);
        DroppedPollsAreInvisible(l, n1, b2, a.now, rest, keys, mask[1..]);
      }
    }
  }

  lemma DroppedPollKeepsLevels(l: Limits, b1: Buckets, b2: Buckets, keys: iset<string>, a: Attempt)
    requires l.Usable() && ValidBuckets(l, b1, a.now) && SameLevels(l, b1, b2, keys, a.now)
    requires Poll(l, b1, a.key, a.now).1.Wait? || a.key !in keys
    ensures SameLevels(l, Poll(l, b1, a.key, a.now).0, b2, keys, a.now)
  {
    PollMeetsContinuousRefill(l, Lookup(b1, a.key), a.now, a.now);
  }

  lemma {:induction false} MonotoneEnds(clock: real, attempts: seq<Attempt>)
    requires Monotone(clock, attempts)
    ensures attempts != [] ==> clock <= attempts[|attempts| - 1].now
    decreases |attempts|
  {
    if |attempts| > 1 {
      MonotoneEnds(attempts[0].now, attempts[1..]);
    }
  }

  // ------------------------------------------------------ a closed set of waiters

  /** Callers inside acquire on one key, each asleep until its due time. */
  datatype Pool = Pool(bucket: Option<Bucket>, clock: real, due: map<nat, real>)

  datatype Wake = Wake(waiter: nat, now: real)

  /** A sleeping caller polls at or after its due time: it leaves the pool when granted, and
      goes back to sleep for the computed wait when refused. */
  function WakeUp(l: Limits, p: Pool, w: Wake): Pool
    requires w.waiter in p.due
  {
    var (b, outcome) := PollBucket(l, p.bucket, w.now);
    Pool(Some(b), w.now,
         if outcome.Wait? then p.due[w.waiter := w.now + outcome.seconds] else p.due - {w.waiter})
  }

  ghost predicate ValidPool(l: Limits, p: Pool) {
    ValidBucket(l, p.bucket, p.clock)
  }

  ghost predicate CanWake(p: Pool, w: Wake) {
    w.waiter in p.due && p.due[w.waiter] <= w.now && p.clock <= w.now
  }

  ghost predicate LegalWakes(l: Limits, p: Pool, wakes: seq<Wake>)
    decreases |wakes|
  {
    wakes != [] ==> CanWake(p, wakes[0]) && LegalWakes(l, WakeUp(l, p, wakes[0]), wakes[1..])
  }

  ghost function RunPool(l: Limits, p: Pool, wakes: seq<Wake>): Pool
    requires LegalWakes(l, p, wakes)
    decreases |wakes|
  {
    if wakes == [] then p else RunPool(l, WakeUp(l, p, wakes[0]), wakes[1..])
  }

  /** Waiters that could still be refused if nobody else is granted before they wake. */
  ghost function Unripe(l: Limits, p: Pool): set<nat> {
    set w | w in p.due && Level(l, p.bucket, p.due[w]) < 1.0
  }

  /** The longest possible run with `waiting` callers of whom `unripe` may still be refused. */
  function Rank(waiting: nat, unripe: nat): nat {
    if waiting == 0 then 0 else unripe + 1 + Rank(waiting - 1, waiting - 1)
  }

  lemma {:induction false} RankClosedForm(n: nat)
    ensures 2 * Rank(n, n) == n * (n + 3)
  {
    if n > 0 {
      RankClosedForm(n - 1);
      assert n * (n + 3) == (n - 1) * (n + 2) + 2 * (n + 1);
    }
  }

  ghost function PoolRank(l: Limits, p: Pool): nat {
    Rank(|p.due|, |Unripe(l, p)|)
  }

  lemma UnripeIsPartOfWaiting(l: Limits, p: Pool)
    ensures |Unripe(l, p)| <= |p.due|
  {
    SubsetSize(Unripe(l, p), p.due.Keys);
    assert |p.due.Keys| == |p.due|;
  }

  lemma {:induction false} SubsetSize<T>(a: set<T>, b: set<T>)
    requires a <= b
    ensures |a| <= |b|
    decreases a
  {
    if a != {} {
      var x :| x in a;
      SubsetSize(a - {x}, b - {x});
    }
  }

  /** Every wake-up, whoever makes it and however late, lowers the rank: it is either a grant,
      or a refusal of a waiter that cannot be refused again before the next grant. */
  lemma WakeLowersRank(l: Limits, p: Pool, w: Wake)
    requires l.Usable() && ValidPool(l, p) && CanWake(p, w)
    ensures ValidPool(l, WakeUp(l, p, w))
    ensures PoolRank(l, WakeUp(l, p, w)) < PoolRank(l, p)
    ensures WakeUp(l, p, w).due.Keys == p.due.Keys
         || WakeUp(l, p, w).due.Keys == p.due.Keys - {w.waiter}
  {
    var q := WakeUp(l, p, w);
    var (b, outcome) := PollBucket(l, p.bucket, w.now);
    PollMeetsContinuousRefill(l, p.bucket, w.now, w.now);
    UnripeIsPartOfWaiting(l, q);
    assert |p.due.Keys| == |p.due| && |q.due.Keys| == |q.due|;
    if outcome.Granted? {
      assert q.due.Keys == p.due.Keys - {w.waiter};
      RankGrows(|q.due|, |Unripe(l, q)|, |q.due|);
    } else {
      assert q.due.Keys == p.due.Keys;
      RefusalRipens(l, p, w);
      assert |Unripe(l, q)| <= |Unripe(l, p) - {w.waiter}| by {
        SubsetSize(Unripe(l, q), Unripe(l, p) - {w.waiter});
      }
    }
  }

  lemma RankGrows(waiting: nat, a: nat, b: nat)
    requires a <= b
    ensures Rank(waiting, a) <= Rank(waiting, b)
  {
  }

  lemma RefusalRipens(l: Limits, p: Pool, w: Wake)
    requires l.Usable() && ValidPool(l, p) && CanWake(p, w)
    requires PollBucket(l, p.bucket, w.now).1.Wait?
    ensures w.waiter in Unripe(l, p)
    ensures Unripe(l, WakeUp(l, p, w)) <= Unripe(l, p) - {w.waiter}
  {
    hide Earned;
    hide Level;
    hide PollBucket;
    var q := WakeUp(l, p, w);
    var outcome := PollBucket(l, p.bucket, w.now).1;
    PollMeetsContinuousRefill(l, p.bucket, w.now, w.now);
    PollMeetsContinuousRefill(l, p.bucket, w.now, w.now + outcome.seconds);
    LevelAdvances(l, p.bucket, p.due[w.waiter], w.now);
    LevelAdvances(l, p.bucket, w.now, w.now + outcome.seconds);
    assert w.waiter !in Unripe(l, q);
    forall x | x in Unripe(l, q) ensures x in Unripe(l, p) {
      if p.due[x] >= w.now {
        PollMeetsContinuousRefill(l, p.bucket, w.now, p.due[x]);
      } else {
        LevelAdvances(l, p.bucket, p.due[x], w.now);
      }
    }
  }

  /** A waiter leaves the pool exactly when its poll finds a whole token, which it takes; a refused one goes back
      to sleep until the instant at which that token would be there; nobody else's sleep changes. */
  lemma WakeTakesOneToken(l: Limits, p: Pool, w: Wake)
    requires l.Usable() && ValidPool(l, p) && CanWake(p, w)
    ensures var q := WakeUp(l, p, w);
            && (w.waiter !in q.due <==> Level(l, p.bucket, w.now) >= 1.0)
            && Level(l, q.bucket, w.now) == Level(l, p.bucket, w.now) - (if w.waiter in q.due then 0.0 else 1.0)
            && (w.waiter in q.due ==>
                  Level(l, p.bucket, w.now) + Earned(l.rate, w.now, q.due[w.waiter]) == 1.0)
            && q.due - {w.waiter} == p.due - {w.waiter}
  {
    hide Earned;
    hide Level;
    var (b, outcome) := PollBucket(l, p.bucket, w.now);
    PollMeetsContinuousRefill(l, p.bucket, w.now, w.now);
    hide PollBucket;
    assert WakeUp(l, p, w).bucket == Some(b);
  }

  /** A closed set of n waiters is fully served: every schedule of wake-ups, in any order and
      with any oversleeping, has at most n(n+3)/2 polls, and one that leaves somebody waiting
      can always be continued. */
  lemma {:induction false} ClosedPoolIsServed(l: Limits, p: Pool, wakes: seq<Wake>)
    requires l.Usable() && ValidPool(l, p) && LegalWakes(l, p, wakes)
    ensures |wakes| <= PoolRank(l, p)
    ensures 2 * |wakes| <= |p.due| * (|p.due| + 3)
    ensures RunPool(l, p, wakes).due.Keys == {} || exists w :: CanWake(RunPool(l, p, wakes), w)
    decreases |wakes|
  {
    hide PollBucket;
    hide Level;
    if wakes == [] {
      if p.due.Keys != {} {
        var w :| w in p.due.Keys;
        var now := if p.due[w] <= p.clock then p.clock else p.due[w];
        assert CanWake(p, Wake(w, now));
      }
    } else {
      WakeLowersRank(l, p, wakes[0]);
      ClosedPoolIsServed(l, WakeUp(l, p, wakes[0]), wakes[1..]);
    }
    UnripeIsPartOfWaiting(l, p);
    RankGrows(|p.due|, |Unripe(l, p)|, |p.due|);
    RankClosedForm(|p.due|);
  }

  // ------------------------------------------------------------------ the class

  function Join(tokens: map<string, real>, lastRefill: map<string, real>): Buckets
    requires tokens.Keys == lastRefill.Keys
  {
    map key | key in tokens :: Bucket(tokens[key], lastRefill[key])
  }

  lemma JoinUpdate(tokens: map<string, real>, lastRefill: map<string, real>, key: string, x: real, at: real)
    requires tokens.Keys == lastRefill.Keys
    ensures Join(tokens[key := x], lastRefill[key := at]) == Join(tokens, lastRefill)[key := Bucket(x, at)]
  {
  }

  class TokenBucketRateLimiter {
    const limits: Limits
    var tokens: map<string, real>
    var lastRefill: map<string, real>

    ghost predicate Valid()
      reads this
    {
      tokens.Keys == lastRefill.Keys
    }

    ghost function State(): Buckets
      requires Valid()
      reads this
    {
      Join(tokens, lastRefill)
    }

    constructor (rate: real, capacity: int)
      ensures Valid() && State() == map[] && limits == Limits(rate, capacity)
    {
      limits := Limits(rate, capacity);
      tokens, lastRefill := map[], map[];
    }

    /** The part of acquire that runs under the lock. */
    method TryAcquire(key: string, now: real) returns (outcome: Outcome)
      requires Valid()
      modifies this
      ensures Valid()
      ensures (State(), outcome) == Poll(limits, old(State()), key, now)
    {
      ghost var before := State();
      if key !in tokens {
        tokens := tokens[key := limits.capacity as real];
        lastRefill := lastRefill[key := now];
      }
      hide Earned;
      hide WaitTime;
      var newTokens := Earned(limits.rate, lastRefill[key], now);
      ghost var first := if key in before then before[key] else Bucket(limits.capacity as real, now);
      assert Bucket(tokens[key], lastRefill[key]) == first;
      if newTokens > 0.0 {
        tokens := tokens[key := Min(limits.capacity as real, tokens[key] + newTokens)];
        lastRefill := lastRefill[key := now];
      }
      ghost var refilled := Refill(limits, first, now);
      assert Bucket(tokens[key], lastRefill[key]) == refilled;
      hide Refill;
      if tokens[key] >= 1.0 {
        tokens := tokens[key := tokens[key] - 1.0];
        outcome := Granted;
      } else if limits.rate == 0.0 {
        outcome := DivisionByZero;
      } else {
        outcome := Wait(WaitTime(limits.rate, tokens[key]));
      }
      assert (Bucket(tokens[key], lastRefill[key]), outcome) == PollBucket(limits, Lookup(before, key), now);
      assert tokens == old(tokens)[key := tokens[key]];
      assert lastRefill == old(lastRefill)[key := lastRefill[key]];
      JoinUpdate(old(tokens), old(lastRefill), key, tokens[key], lastRefill[key]);
      hide PollBucket;
      hide Join;
    }

    /** The whole acquire loop of a caller that nobody interferes with and that wakes
        `oversleep` seconds late: at most two polls, and the bucket loses exactly one token.  With
        limits that never refill to a whole token the loop ends only if its first poll does, by a
        grant or by a division by zero. */
    method Acquire(key: string, arrival: real, oversleep: real) returns (served: real, polls: nat, raised: bool)
      requires Valid() && oversleep >= 0.0
      requires (limits.Usable() && ValidBuckets(limits, State(), arrival))
            || !Poll(limits, State(), key, arrival).1.Wait?
      modifies this
      ensures Valid() && key in State() && State() - {key} == old(State()) - {key}
      ensures limits.Usable() && ValidBuckets(limits, old(State()), arrival) ==>
                && !raised
                && (Level(limits, Lookup(old(State()), key), arrival) >= 1.0 ==> served == arrival && polls == 1)
                && (Level(limits, Lookup(old(State()), key), arrival) < 1.0 ==>
                      polls == 2 && Level(limits, Lookup(old(State()), key), arrival)
                                    + Earned(limits.rate, arrival, served - oversleep) == 1.0)
                && Level(limits, Lookup(State(), key), served)
                   == Level(limits, Lookup(old(State()), key), served) - 1.0
      ensures !Poll(limits, old(State()), key, arrival).1.Wait? ==>
                && served == arrival && polls == 1
                && State() == Poll(limits, old(State()), key, arrival).0
                && (raised <==> Poll(limits, old(State()), key, arrival).1.DivisionByZero?)
    {
      hide Earned;
      hide Level;
      hide PollBucket;
      ghost var start := State();
      ghost var had := Lookup(start, key);
      ghost var usable := limits.Usable() && ValidBuckets(limits, start, arrival);
      served, polls, raised := arrival, 0, false;
      while true
        invariant Valid() && polls <= 1 && arrival <= served && !raised
        invariant State() - {key} == start - {key}
        invariant polls == 0 ==> served == arrival && State() == start
        invariant polls == 1 ==> usable && Poll(limits, start, key, arrival).1.Wait?
        invariant usable ==>
          && ValidBuckets(limits, State(), served)
          && (polls == 1 ==> Level(limits, had, arrival) < 1.0)
          && (polls == 1 ==> Level(limits, had, arrival) + Earned(limits.rate, arrival, served - oversleep) == 1.0)
          && (polls == 1 ==> Level(limits, Lookup(State(), key), served) >= 1.0)
          && Level(limits, Lookup(State(), key), served) == Level(limits, had, served)
        decreases 2 - polls
      {
        ghost var before := State();
        if usable {
          PollMeetsContinuousRefill(limits, Lookup(before, key), served, served);
          PollKeepsValid(limits, before, served, key, served);
        }
        var outcome := TryAcquire(key, served);
        polls := polls + 1;
        if outcome.Granted? {
          return;
        }
        if outcome.DivisionByZero? {
          raised := true;
          return;
        }
        ghost var wakes := served + outcome.seconds + oversleep;
        PollMeetsContinuousRefill(limits, Lookup(before, key), served, wakes);
        LevelAdvances(limits, had, served, served + outcome.seconds);
        LevelAdvances(limits, had, served + outcome.seconds, wakes);
        assert served + outcome.seconds + oversleep - oversleep == served + outcome.seconds;
        served := served + outcome.seconds + oversleep;
      }
    }
  }
}
