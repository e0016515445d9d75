/** The client library's retry decorator: exponential backoff with jitter, capped.
 */
module Backoff {
  import opened Basics

  /** How one call ends.  Retryable carries the jitter drawn from its message, hash(str(e)) % 100. */
  datatype Ending = Returned | Retryable(jitter: nat) | Fatal

  datatype Policy = Policy(maxAttempts: int, backoff: real, maxBackoff: real)

  function Pow2(n: nat): (p: nat)
    ensures p >= 1
  {
    if n == 0 then 1 else 2 * Pow2(n - 1)
  }

  function Times(x: real, k: nat): real {
    x * (k as real)
  }

  /** The wait before jitter after the given attempt. */
  function BaseWait(p: Policy, attempt: nat): real
    requires attempt >= 1
  {
    Min(Times(p.backoff, Pow2(attempt - 1)), p.maxBackoff)
  }

  function Factor(jitter: nat): real {
    0.8 + 0.4 * (jitter as real) / 100.0
  }

  function Jittered(wait: real, jitter: nat): real {
    wait * Factor(jitter)
  }

  /** The sleeps of a decorated call whose i-th call ends as endings(i). */
  function SleepsFrom(p: Policy, endings: nat -> Ending, attempt: nat): seq<real>
    requires attempt >= 1
    decreases p.maxAttempts - attempt
  {
    if endings(attempt).Retryable? && attempt < p.maxAttempts
    then [Jittered(BaseWait(p, attempt), endings(attempt).jitter)] + SleepsFrom(p, endings, attempt + 1)
    else []
  }

  function Sum(xs: seq<real>): real {
    if xs == [] then 0.0 else xs[0] + Sum(xs[1..])
  }

  lemma {:induction false} SumAppend(xs: seq<real>, x: real)
    ensures Sum(xs + [x]) == Sum(xs) + x
    decreases |xs|
  {
    if xs == [] {
      assert [x][1..] == [];
    } else {
      assert (xs + [x])[1..] == xs[1..] + [x];
      SumAppend(xs[1..], x);
    }
  }

  /** The loop.  The result is the ending of the last call. */
  method CallWithRetry(p: Policy, endings: nat -> Ending) returns (last: Ending, calls: nat, sleeps: seq<real>)
    ensures calls >= 1 && (p.maxAttempts >= 1 ==> calls <= p.maxAttempts) && (p.maxAttempts < 1 ==> calls == 1)
    ensures last == endings(calls)
    ensures forall i :: 1 <= i < calls ==> endings(i).Retryable?
    ensures last.Retryable? ==> calls >= p.maxAttempts
    ensures |sleeps| == calls - 1 && sleeps == SleepsFrom(p, endings, 1)
  {
    calls, sleeps := 1, [];
    while true
      invariant calls >= 1 && |sleeps| == calls - 1
      invariant calls > 1 ==> calls <= p.maxAttempts
      invariant forall i :: 1 <= i < calls ==> endings(i).Retryable?
      invariant SleepsFrom(p, endings, 1) == sleeps + SleepsFrom(p, endings, calls)
      decreases p.maxAttempts - calls
    {
      last := endings(calls);
      if !last.Retryable? || calls >= p.maxAttempts {
        return;
      }
      var wait := Jittered(BaseWait(p, calls), last.jitter);
      ghost var rest := SleepsFrom(p, endings, calls + 1);
      assert sleeps + ([wait] + rest) == sleeps + [wait] + rest;
      sleeps := sleeps + [wait];
      calls := calls + 1;
    }
  }

  ghost predicate PercentJitter(endings: nat -> Ending) {
    forall i: nat :: endings(i).Retryable? ==> endings(i).jitter < 100
  }

  lemma JitterRange(wait: real, jitter: nat)
    requires wait >= 0.0 && jitter < 100
    ensures 0.8 * wait <= Jittered(wait, jitter) <= 1.2 * wait
    ensures wait > 0.0 ==> Jittered(wait, jitter) < 1.2 * wait
  {
    assert 0.8 <= Factor(jitter) < 1.2;
    Between(wait, Factor(jitter));
  }

  lemma Between(wait: real, factor: real)
    requires wait >= 0.0 && 0.8 <= factor < 1.2
    ensures 0.8 * wait <= wait * factor <= 1.2 * wait
    ensures wait > 0.0 ==> wait * factor < 1.2 * wait
  {
  }

  lemma {:induction false} PowMonotone(a: nat, b: nat)
    requires a <= b
    ensures Pow2(a) <= Pow2(b)
    decreases b
  {
    if a < b {
      PowMonotone(a, b - 1);
    }
  }

  lemma TimesGrows(x: real, a: nat, b: nat)
    requires x >= 0.0 && a <= b
    ensures 0.0 <= Times(x, a) <= Times(x, b)
  {
  }

  lemma TimesAdds(x: real, a: nat, b: nat)
    ensures Times(x, a + b) == Times(x, a) + Times(x, b)
    ensures Times(x, 1) == x
  {
  }

  /** Jittered waits strictly increase until the cap is reached: whenever the next doubling still fits
      under it, whatever jitter either wait draws. */
  lemma WaitsIncreaseBelowCap(p: Policy, attempt: nat, j1: nat, j2: nat)
    requires attempt >= 1 && p.backoff > 0.0 && j1 < 100 && j2 < 100
    requires Times(p.backoff, Pow2(attempt)) <= p.maxBackoff
    ensures Jittered(BaseWait(p, attempt), j1) < Jittered(BaseWait(p, attempt + 1), j2)
  {
    hide Times;
    hide Jittered;
    TimesAdds(p.backoff, Pow2(attempt - 1), Pow2(attempt - 1));
    TimesGrows(p.backoff, 1, Pow2(attempt - 1));
    JitterRange(BaseWait(p, attempt), j1);
    JitterRange(BaseWait(p, attempt + 1), j2);
  }

  /** The sleeps from an attempt on are paid for twice over: by the cap per sleep, and by the growth of
      the backoff. */
  lemma {:induction false} SleepsAreBounded(p: Policy, endings: nat -> Ending, attempt: nat)
    requires attempt >= 1 && p.backoff >= 0.0 && p.maxBackoff >= 0.0 && PercentJitter(endings)
    ensures var sleeps := SleepsFrom(p, endings, attempt);
            && (sleeps != [] ==> |sleeps| <= p.maxAttempts - attempt)
            && 0.0 <= Sum(sleeps)
            && Sum(sleeps) <= 1.2 * Times(p.maxBackoff, |sleeps|)
            && Sum(sleeps) + 1.2 * Times(p.backoff, Pow2(attempt - 1))
               <= 1.2 * Times(p.backoff, Pow2(attempt - 1 + |sleeps|))
    decreases p.maxAttempts - attempt
  {
    hide Times;
    hide Jittered;
    var sleeps := SleepsFrom(p, endings, attempt);
    TimesGrows(p.maxBackoff, 0, |sleeps|);
    if sleeps != [] {
      SleepsAreBounded(p, endings, attempt + 1);
      var rest := SleepsFrom(p, endings, attempt + 1);
      assert sleeps[1..] == rest;
      var power := Pow2(attempt - 1);
      TimesGrows(p.backoff, 0, power);
      JitterRange(BaseWait(p, attempt), endings(attempt).jitter);
      TimesAdds(p.backoff, power, power);
      TimesAdds(p.maxBackoff, |rest|, 1);
      assert Pow2(attempt) == power + power;
    }
  }

  lemma {:induction false} SleepAt(p: Policy, endings: nat -> Ending, attempt: nat, i: nat)
    requires attempt >= 1 && i < |SleepsFrom(p, endings, attempt)|
    ensures endings(attempt + i).Retryable?
    ensures SleepsFrom(p, endings, attempt)[i]
         == Jittered(BaseWait(p, attempt + i), endings(attempt + i).jitter)
    decreases i
  {
    if i > 0 {
      SleepAt(p, endings, attempt + 1, i - 1);
    }
  }

  /** Each sleep, up to and beyond the cap: after the k-th call it lies within a fifth of the capped exponential
      backoff * 2^(k-1), lowest for jitter 0, growing with the jitter drawn, and exact for jitter 50. */
  lemma SleepsFollowBackoff(p: Policy, endings: nat -> Ending, k: nat)
    requires 1 <= k <= |SleepsFrom(p, endings, 1)|
    requires p.backoff >= 0.0 && p.maxBackoff >= 0.0 && PercentJitter(endings)
    ensures var wait := Min(Times(p.backoff, Pow2(k - 1)), p.maxBackoff);
            var sleep := SleepsFrom(p, endings, 1)[k - 1];
            && endings(k).Retryable?
            && 0.8 * wait <= sleep <= 1.2 * wait
            && (endings(k).jitter == 0 ==> sleep == 0.8 * wait)
            && (endings(k).jitter == 50 ==> sleep == wait)
  {
    SleepAt(p, endings, 1, k - 1);
    TimesGrows(p.backoff, 0, Pow2(k - 1));
    hide Times;
    var wait := BaseWait(p, k);
    JitterRange(wait, endings(k).jitter);
    JitterExact(wait);
    hide Jittered;
  }

  lemma JitterExact(wait: real)
    ensures Jittered(wait, 0) == 0.8 * wait && Jittered(wait, 50) == wait
  {
    assert Factor(0) == 0.8 && Factor(50) == 1.0;
  }

  lemma JitterIsMonotone(wait: real, j1: nat, j2: nat)
    requires wait > 0.0 && j1 < j2
    ensures Jittered(wait, j1) < Jittered(wait, j2)
  {
    assert Factor(j1) < Factor(j2);
  }

  /** For max_attempts n >= 1 the total sleep of a call is at most
      1.2 * min(backoff * (2^(n-1) - 1), (n-1) * max_backoff). */
  lemma TotalSleepBound(p: Policy, endings: nat -> Ending)
    requires p.maxAttempts >= 1 && p.backoff >= 0.0 && p.maxBackoff >= 0.0 && PercentJitter(endings)
    ensures Sum(SleepsFrom(p, endings, 1))
         <= 1.2 * Min(Times(p.backoff, Pow2(p.maxAttempts - 1) - 1), Times(p.maxBackoff, p.maxAttempts - 1))
  {
    hide Times;
    SleepsAreBounded(p, endings, 1);
    var k, n := |SleepsFrom(p, endings, 1)|, p.maxAttempts - 1;
    PowMonotone(k, n);
    TimesGrows(p.backoff, Pow2(k), Pow2(n));
    TimesGrows(p.maxBackoff, k, n);
    TimesAdds(p.backoff, Pow2(n) - 1, 1);
    assert Pow2(0) == 1;
  }
}
