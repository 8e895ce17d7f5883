/** Spacing of reconnection attempts. Times and delays are in seconds. */
module Reconnections {
  import opened Base

  const MAX_DELAY := 60.0

  function Capped(delay: real): real {
    if delay <= MAX_DELAY then delay else MAX_DELAY
  }

  function Doubled(delay: real): real {
    delay + delay
  }

  /** base * 2^n */
  function Scaled(base: real, n: nat): real {
    base * Pow2(n) as real
  }

  /** The delay in force after `n` attempts since the last reset. */
  function DelayAfter(base: real, n: nat): real {
    if n == 0 then base else Capped(Scaled(base, n))
  }

  lemma Distribute(b: real, p: real)
    ensures b * (p + p) == b * p + b * p
  {
  }

  lemma ScaledDoubles(base: real, n: nat)
    ensures Scaled(base, n + 1) == Doubled(Scaled(base, n))
  {
    assert Pow2(n + 1) == Pow2(n) + Pow2(n);
    assert Pow2(n + 1) as real == Pow2(n) as real + Pow2(n) as real;
    Distribute(base, Pow2(n) as real);
  }

  lemma ScaledByOne(base: real)
    ensures Scaled(base, 0) == base
  {
    assert Pow2(0) == 1;
  }

  lemma CapThenDouble(q: real)
    ensures Capped(Doubled(Capped(q))) == Capped(Doubled(q))
  {
  }

  lemma DelayDoubles(base: real, n: nat)
    ensures Capped(Doubled(DelayAfter(base, n))) == DelayAfter(base, n + 1)
  {
    ScaledDoubles(base, n);
    ScaledByOne(base);
    CapThenDouble(Scaled(base, n));
  }

  /** Attempts come at least the delay then in force after one another. */
  ghost predicate Spaced(base: real, times: seq<real>) {
    forall i :: 0 < i < |times| ==> times[i] - times[i - 1] >= DelayAfter(base, i)
  }

  /** The sum over j = lo + 1 .. hi of min(base * 2^j, 60). */
  function DelaySum(base: real, lo: nat, hi: nat): real
    requires lo <= hi
  {
    if lo == hi then 0.0 else DelaySum(base, lo, hi - 1) + Capped(Scaled(base, hi))
  }

  /** From one attempt to a later one at least the closed-form delays between them pass. With
      `lo` = 0 this is the time from the first attempt to attempt `hi` + 1. */
  lemma {:induction false} AttemptsAreSpaced(base: real, times: seq<real>, lo: nat, hi: nat)
    requires Spaced(base, times) && lo <= hi < |times|
    ensures times[hi] - times[lo] >= DelaySum(base, lo, hi)
    decreases hi
  {
    if lo < hi {
      AttemptsAreSpaced(base, times, lo, hi - 1);
      assert times[hi] - times[hi - 1] >= DelayAfter(base, hi);
    }
  }

  /** Once base * 2^lo is past a minute, the attempts after that are at least a minute apart, so
      a window of `w` minutes holds at most w + 1 of them. */
  lemma {:induction false} SlowedDown(base: real, times: seq<real>, lo: nat, hi: nat)
    requires Spaced(base, times) && lo <= hi < |times| && Scaled(base, lo) >= 60.0
    ensures times[hi] - times[lo] >= 60.0 * (hi - lo) as real
    decreases hi
  {
    if lo < hi {
      SlowedDown(base, times, lo, hi - 1);
      DelayStays(base, lo, hi);
      assert times[hi] - times[hi - 1] >= DelayAfter(base, hi);
    }
  }

  lemma {:induction false} DelayStays(base: real, lo: nat, hi: nat)
    requires lo <= hi && Scaled(base, lo) >= MAX_DELAY
    ensures Scaled(base, hi) >= MAX_DELAY
    decreases hi
  {
    if lo < hi {
      DelayStays(base, lo, hi - 1);
      ScaledDoubles(base, hi - 1);
    }
  }

  class Reconnection {
    const baseDelay: real
    var attempts: nat
    var currentDelay: real
    var lastAttempt: Option<real>
    /** The times of the attempts since the last reset. */
    ghost var times: seq<real>

    ghost predicate Valid()
      reads this
    {
      && attempts == |times|
      && currentDelay == DelayAfter(baseDelay, attempts)
      && lastAttempt == (if times == [] then None else Some(times[|times| - 1]))
      && Spaced(baseDelay, times)
    }

    constructor (delay: real)
      ensures Valid() && times == [] && baseDelay == delay
    {
      baseDelay := delay;
      attempts := 0;
      currentDelay := delay;
      lastAttempt := None;
      times := [];
    }

    /** An attempt is made exactly when it is the first or the delay has passed. The clock is
        monotonic. */
    method ShouldAttempt(now: real) returns (attempt: bool)
      requires Valid() && (times != [] ==> now >= times[|times| - 1])
      modifies this
      ensures Valid()
      ensures attempt <==> old(times) == [] || now - old(times)[|old(times)| - 1] >= DelayAfter(baseDelay, |old(times)|)
      ensures times == old(times) + if attempt then [now] else []
    {
      if lastAttempt.Some? {
        if now - lastAttempt.value < currentDelay {
          return false;
        }
      }
      DelayDoubles(baseDelay, attempts);
      attempts := attempts + 1;
      lastAttempt := Some(now);
      currentDelay := Capped(Doubled(currentDelay));
      times := times + [now];
      attempt := true;
    }

    method Reset()
      requires Valid()
      modifies this
      ensures Valid() && times == []
    {
      attempts := 0;
      currentDelay := baseDelay;
      lastAttempt := None;
      times := [];
    }
  }
}
