/** The sidecar's token-bucket rate limiter, in real seconds and real tokens. */
module TokenBucket {
  import opened Prelude

  /** Tokens that accrue in a span of time. */
  function Accrued(rate: real, elapsed: real): real { elapsed * rate }

  /** How long until one whole token is there. */
  function Wait(tokens: real, rate: real): real
    requires rate >= 1.0
  {
    (1.0 - tokens) / rate
  }

  /** The value of a limiter. */
  datatype Bucket = Bucket(capacity: real, rate: real, tokens: real, last: real) {

    /** What the configuration check guarantees, and what every call keeps. */
    predicate Valid() {
      capacity >= 1.0 && rate >= 1.0 && 0.0 <= tokens <= capacity
    }

    function Refilled(now: real): Bucket {
      var elapsed := if now < last then 0.0 else now - last;
      this.(tokens := Min(tokens + Accrued(rate, elapsed), capacity), last := now)
    }

    predicate Grants(now: real) {
      Refilled(now).tokens >= 1.0
    }

    function After(now: real): Bucket {
      var b := Refilled(now);
      if b.tokens >= 1.0 then b.(tokens := b.tokens - 1.0) else b
    }

    /** The delay a refused caller is told. */
    function RetryAfter(now: real): real
      requires rate >= 1.0
    {
      Max(Wait(Refilled(now).tokens, rate), 0.001)
    }
  }

  class Limiter {
    const capacity: real
    const refillPerSecond: real
    var tokens: real
    var lastRefill: real

    function View(): Bucket
      reads this
    {
      Bucket(capacity, refillPerSecond, tokens, lastRefill)
    }

    constructor (capacity: nat, refillPerSecond: nat, now: real)
      requires capacity > 0 && refillPerSecond > 0
      ensures View() == Bucket(capacity as real, refillPerSecond as real, capacity as real, now) && View().Valid()
    {
      this.capacity, this.refillPerSecond := capacity as real, refillPerSecond as real;
      tokens, lastRefill := capacity as real, now;
    }

    method Refill(now: real)
      modifies this
      ensures View() == old(View()).Refilled(now)
    {
      var elapsed := if now < lastRefill then 0.0 else now - lastRefill;
      tokens := Min(tokens + Accrued(refillPerSecond, elapsed), capacity);
      lastRefill := now;
    }

    /** None when a token was taken, otherwise the retry delay. */
    method TryAcquireAt(now: real) returns (refused: Option<real>)
      requires View().Valid()
      modifies this
      ensures View() == old(View()).After(now) && View().Valid()
      ensures refused == if old(View()).Grants(now) then None else Some(old(View()).RetryAfter(now))
    {
      ValidAfter(View(), now);
      Refill(now);
      if tokens >= 1.0 {
        tokens := tokens - 1.0;
        return None;
      }
      return Some(Max(Wait(tokens, refillPerSecond), 0.001));
    }
  }

  lemma AccruedNonNegative(rate: real, elapsed: real)
    requires elapsed >= 0.0 && rate >= 0.0
    ensures Accrued(rate, elapsed) >= 0.0
  {
  }

  lemma ValidAfter(b: Bucket, now: real)
    requires b.Valid()
    ensures b.Refilled(now).Valid() && b.After(now).Valid()
  {
    hide Accrued;
    AccruedNonNegative(b.rate, if now < b.last then 0.0 else now - b.last);
  }

  // ----- runs -----

  ghost predicate NonDecreasing(from: real, times: seq<real>) {
    && (forall i :: 0 <= i < |times| ==> from <= times[i])
    && (forall i, j :: 0 <= i < j < |times| ==> times[i] <= times[j])
  }

  function Run(b: Bucket, times: seq<real>): Bucket {
    if times == [] then b else Run(b, times[..|times| - 1]).After(times[|times| - 1])
  }

  /** How many of the calls are granted. */
  function Granted(b: Bucket, times: seq<real>): nat {
    if times == [] then 0
    else
      Granted(b, times[..|times| - 1]) + if Run(b, times[..|times| - 1]).Grants(times[|times| - 1]) then 1 else 0
  }

  lemma AccruedAdds(rate: real, a: real, b: real, c: real)
    ensures Accrued(rate, b - a) + Accrued(rate, c - b) == Accrued(rate, c - a)
    ensures Accrued(rate, a - a) == 0.0
  {
  }

  /** How far the clock moved forward, counting steps ahead only. */
  function Forward(from: real, times: seq<real>): real {
    if times == [] then 0.0
    else
      var front, now := times[..|times| - 1], times[|times| - 1];
      Forward(from, front) + Max(now - Latest(from, front), 0.0)
  }

  function Latest(from: real, times: seq<real>): real {
    if times == [] then from else times[|times| - 1]
  }

  /** On a clock that does not run backwards that is the time elapsed. */
  lemma {:induction false} ForwardElapsed(from: real, times: seq<real>)
    requires NonDecreasing(from, times)
    ensures Forward(from, times) == Latest(from, times) - from
  {
    if times != [] {
      ForwardElapsed(from, times[..|times| - 1]);
    }
  }

  lemma AccruedForward(rate: real, forward: real, elapsed: real)
    ensures Accrued(rate, forward) + Accrued(rate, elapsed) == Accrued(rate, forward + elapsed)
    ensures Accrued(rate, 0.0) == 0.0
  {
  }

  lemma AccruedIs(rate: real, elapsed: real)
    ensures Accrued(rate, elapsed) == rate * elapsed
  {
  }

  lemma {:induction false} Conserved(b: Bucket, times: seq<real>)
    requires b.Valid()
    ensures var r := Run(b, times);
            && r.Valid() && r.capacity == b.capacity && r.rate == b.rate && r.last == Latest(b.last, times)
            && r.tokens + Granted(b, times) as real <= b.tokens + Accrued(b.rate, Forward(b.last, times))
  {
    AccruedForward(b.rate, 0.0, 0.0);
    hide Accrued;
    if times != [] {
      var front, now := times[..|times| - 1], times[|times| - 1];
      Conserved(b, front);
      var r := Run(b, front);
      ValidAfter(r, now);
      AccruedForward(b.rate, Forward(b.last, front), Max(now - r.last, 0.0));
    }
  }

  /** Tokens are conserved on any clock: what is left plus what was granted never exceeds the start plus the refill
      for every span the clock moved forward. */
  lemma Conservation(b: Bucket, times: seq<real>)
    requires b.Valid()
    ensures var r := Run(b, times);
            && r.Valid() && r.capacity == b.capacity && r.rate == b.rate && r.last == Latest(b.last, times)
            && r.tokens + Granted(b, times) as real <= b.tokens + b.rate * Forward(b.last, times)
  {
    hide *;
    Conserved(b, times);
    AccruedIs(b.rate, Forward(b.last, times));
  }

  lemma {:induction false} ExactlyConserved(b: Bucket, times: seq<real>)
    requires b.Valid() && b.tokens + Accrued(b.rate, Forward(b.last, times)) <= b.capacity
    ensures Run(b, times).tokens + Granted(b, times) as real == b.tokens + Accrued(b.rate, Forward(b.last, times))
  {
    AccruedForward(b.rate, 0.0, 0.0);
    hide Accrued, Bucket.After, Bucket.Grants, Bucket.Valid;
    if times != [] {
      var front, now := times[..|times| - 1], times[|times| - 1];
      var step := Max(now - Latest(b.last, front), 0.0);
      Conserved(b, front);
      AccruedForward(b.rate, Forward(b.last, front), step);
      RateOf(b);
      AccruedNonNegative(b.rate, step);
      ExactlyConserved(b, front);
      var r := Run(b, front);
      OneCall(r, now, step);
    }
  }

  lemma RateOf(b: Bucket)
    requires b.Valid()
    ensures b.rate >= 1.0
  {
  }

  /** Nothing is lost either, before the bucket could have been full: a grant takes one token, a refusal none. */
  lemma ExactConservation(b: Bucket, times: seq<real>)
    requires b.Valid() && b.tokens + b.rate * Forward(b.last, times) <= b.capacity
    ensures Run(b, times).tokens + Granted(b, times) as real == b.tokens + b.rate * Forward(b.last, times)
  {
    hide *;
    AccruedIs(b.rate, Forward(b.last, times));
    ExactlyConserved(b, times);
  }

  /** One call that finds the bucket not yet full. */
  lemma OneCall(r: Bucket, now: real, step: real)
    requires r.Valid() && step == Max(now - r.last, 0.0) && r.tokens + Accrued(r.rate, step) <= r.capacity
    ensures r.After(now).tokens + (if r.Grants(now) then 1.0 else 0.0) == r.tokens + Accrued(r.rate, step)
    ensures r.Grants(now) <==> r.tokens + Accrued(r.rate, step) >= 1.0
  {
    hide Accrued;
  }

  /** Calls at one moment are granted while there are whole tokens: a bucket of `n` tokens grants the first `n`, no
      matter how many there are. */
  lemma {:induction false} BurstExact(b: Bucket, times: seq<real>)
    requires b.Valid() && forall i :: 0 <= i < |times| ==> times[i] == b.last
    ensures Granted(b, times) == if |times| <= b.tokens.Floor then |times| else b.tokens.Floor
    ensures Run(b, times).tokens == b.tokens - Granted(b, times) as real && Run(b, times).last == b.last
  {
    if times != [] {
      var front := times[..|times| - 1];
      BurstExact(b, front);
      Conserved(b, front);
      var r := Run(b, front);
      AccruedIs(b.rate, 0.0);
      hide Accrued, Run, Granted, Bucket.Grants, Bucket.After, Forward;
      OneCall(r, b.last, 0.0);
      RunLast(b, times);
      LastAfter(r, b.last);
    }
  }

  lemma LastAfter(r: Bucket, now: real)
    ensures r.After(now).last == now
  {
  }

  lemma {:induction false} RunSplit(b: Bucket, before: seq<real>, window: seq<real>)
    ensures Run(b, before + window) == Run(Run(b, before), window)
    ensures Granted(b, before + window) == Granted(b, before) + Granted(Run(b, before), window)
  {
    if window == [] {
      assert before + window == before;
    } else {
      var n := |window| - 1;
      assert (before + window)[..|before + window| - 1] == before + window[..n];
      RunSplit(b, before, window[..n]);
    }
  }

  lemma RefilledTwice(b: Bucket, now: real)
    requires b.Valid()
    ensures b.Refilled(now).Refilled(now) == b.Refilled(now)
  {
    ValidAfter(b, now);
    AccruedAdds(b.rate, now, now, now);
  }

  /** A first call at `now` behaves the same when the bucket was already refilled up to `now`. */
  lemma {:induction false} RefillFirst(b: Bucket, times: seq<real>)
    requires b.Valid() && times != []
    ensures Run(b.Refilled(times[0]), times) == Run(b, times)
        && Granted(b.Refilled(times[0]), times) == Granted(b, times)
  {
    hide Bucket.Refilled;
    var n := |times| - 1;
    RefilledTwice(b, times[0]);
    if n > 0 {
      RefillFirst(b, times[..n]);
    } else {
      assert times[..n] == [];
    }
  }

  /** In any window of any run, at most capacity + rate * forward movement calls are granted, both ends included;
      on a clock that does not run backwards within the window, at most capacity + rate * elapsed. */
  lemma RateBound(b: Bucket, before: seq<real>, window: seq<real>)
    requires b.Valid() && window != []
    ensures (Granted(b, before + window) - Granted(b, before)) as real
            <= b.capacity + b.rate * Forward(window[0], window)
    ensures NonDecreasing(window[0], window) ==>
              (Granted(b, before + window) - Granted(b, before)) as real
              <= b.capacity + b.rate * (window[|window| - 1] - window[0])
  {
    hide Accrued, Granted, Run, Forward;
    AccruedIs(b.rate, Forward(window[0], window));
    RunSplit(b, before, window);
    Conservation(b, before);
    var s := Run(b, before);
    ValidAfter(s, window[0]);
    RefillFirst(s, window);
    Conservation(s.Refilled(window[0]), window);
    if NonDecreasing(window[0], window) {
      ForwardElapsed(window[0], window);
    }
  }

  predicate AllRefused(b: Bucket, times: seq<real>) {
    forall i :: 0 <= i < |times| ==> !Run(b, times[..i]).Grants(times[i])
  }

  lemma RefusedPrefix(b: Bucket, times: seq<real>)
    requires times != [] && AllRefused(b, times)
    ensures var n := |times| - 1; AllRefused(b, times[..n]) && !Run(b, times[..n]).Grants(times[n])
  {
    hide Run, Bucket.Grants;
    var front := times[..|times| - 1];
    forall i | 0 <= i < |front| ensures !Run(b, front[..i]).Grants(front[i]) {
      assert times[..i] == front[..i];
    }
  }

  /** A refused call found less than one token, so nothing was cut off at the capacity. */
  lemma RefusedStep(r: Bucket, now: real)
    requires r.Valid() && r.last <= now && !r.Grants(now)
    ensures r.After(now) == r.(tokens := r.tokens + Accrued(r.rate, now - r.last), last := now) && r.After(now).Valid()
  {
    hide Accrued;
    ValidAfter(r, now);
  }

  /** While calls are refused, tokens just accrue. */
  lemma {:induction false} Accrues(b: Bucket, times: seq<real>)
    requires b.Valid() && NonDecreasing(b.last, times) && AllRefused(b, times)
    ensures var r := Run(b, times);
            r.rate == b.rate && r.capacity == b.capacity && r.Valid()
                && r.tokens == b.tokens + Accrued(b.rate, r.last - b.last)
  {
    AccruedAdds(b.rate, b.last, b.last, b.last);
    hide Accrued, Bucket.After, Bucket.Grants, AllRefused;
    if times != [] {
      var front, now := times[..|times| - 1], times[|times| - 1];
      RefusedPrefix(b, times);
      assert NonDecreasing(b.last, front) && Run(b, front).last <= now by { Conservation(b, front); }
      hide NonDecreasing;
      Accrues(b, front);
      var r := Run(b, front);
      RefusedStep(r, now);
      AccruedAdds(b.rate, b.last, r.last, now);
    }
  }

  lemma EnoughTime(tokens: real, rate: real, elapsed: real)
    requires rate >= 1.0
    ensures tokens + Accrued(rate, elapsed) >= 1.0 <==> elapsed >= Wait(tokens, rate)
  {
    var wait := (1.0 - tokens) / rate;
    assert wait * rate == 1.0 - tokens;
    if elapsed >= wait {
      assert (elapsed - wait) * rate >= 0.0;
    } else {
      assert (wait - elapsed) * rate > 0.0;
    }
  }

  /** After a refusal, and only refused calls since, a call is granted exactly when the missing fraction of a
      token has accrued; so one at or after `retry_after` is granted, and none before it unless the delay told is the
      least one, a millisecond. */
  lemma RetryAfterSuffices(b: Bucket, t0: real, since: seq<real>, now: real)
    requires b.Valid() && b.last <= t0 && !b.Grants(t0)
    requires NonDecreasing(t0, since + [now]) && AllRefused(b.After(t0), since)
    ensures Run(b.After(t0), since).Grants(now) <==> now - t0 >= Wait(b.Refilled(t0).tokens, b.rate)
    ensures now >= t0 + b.RetryAfter(t0) ==> Run(b.After(t0), since).Grants(now)
    ensures Run(b.After(t0), since).Grants(now) <==> b.Refilled(t0).tokens + b.rate * (now - t0) >= 1.0
    ensures b.RetryAfter(t0) >= 0.001
    ensures b.RetryAfter(t0) > 0.001 && now < t0 + b.RetryAfter(t0) ==> !Run(b.After(t0), since).Grants(now)
  {
    hide Accrued, Run, Wait, AllRefused, Granted, Forward;
    ValidAfter(b, t0);
    var s := b.After(t0);
    assert forall i :: 0 <= i < |since| ==> (since + [now])[i] == since[i];
    assert (since + [now])[|since|] == now;
    Accrues(s, since);
    Conservation(s, since);
    var r := Run(s, since);
    AccruedAdds(b.rate, t0, r.last, now);
    EnoughTime(s.tokens, b.rate, now - t0);
    AccruedIs(b.rate, now - t0);
  }

  /** Elapsed time does not bound the grants when the clock steps back: the same second is refilled twice. */
  lemma ClockStepBack()
    ensures exists b: Bucket, times: seq<real> ::
              b.Valid() && times != [] && (forall i :: 0 <= i < |times| ==> times[i] <= b.last)
              && Granted(b, times) as real > b.capacity + b.rate * (times[|times| - 1] - times[0])
  {
    var b := Bucket(1.0, 1.0, 1.0, 9.0);
    var t1, t2, t3 := [9.0], [9.0, 0.0], [9.0, 0.0, 9.0];
    var b1, b2 := Bucket(1.0, 1.0, 0.0, 9.0), Bucket(1.0, 1.0, 0.0, 0.0);
    assert b.After(9.0) == b1 && b1.After(0.0) == b2 && b.Grants(9.0) && !b1.Grants(0.0) && b2.Grants(9.0);
    hide Bucket.After, Bucket.Grants;
    assert t1[..0] == [] && t2[..1] == t1 && t3[..2] == t2;
    assert Run(b, t1) == b1 && Granted(b, t1) == 1 by { RunLast(b, t1); }
    assert Run(b, t2) == b2 && Granted(b, t2) == 1 by { RunLast(b, t2); }
    assert Granted(b, t3) == 2 by { RunLast(b, t3); }
    assert Accrued(1.0, t3[2] - t3[0]) == 0.0;
  }

  lemma RunLast(b: Bucket, times: seq<real>)
    requires times != []
    ensures var front, now := times[..|times| - 1], times[|times| - 1];
            && Run(b, times) == Run(b, front).After(now)
            && Granted(b, times) == Granted(b, front) + if Run(b, front).Grants(now) then 1 else 0
  {
  }
}
