/** How a failing task backs off: each failure lengthens its interval by a random amount, up to a cap. */
module Backoff {

  function Least(a: nat, b: nat): nat {
    if a <= b then a else b
  }

  /** The draws that `_delayNextCheck` may get for an interval. */
  predicate IsDraw(interval: nat, draw: nat) {
    interval / 2 <= draw <= interval
  }

  /** `_delayNextCheck` */
  function Delayed(interval: nat, cap: nat, draw: nat): nat {
    if interval != cap then Least(cap, interval + 2 * draw) else interval
  }

  /** The interval after failures with the given draws. */
  function AfterFailures(interval: nat, cap: nat, draws: seq<nat>): nat {
    if draws == [] then interval
    else Delayed(AfterFailures(interval, cap, draws[..|draws| - 1]), cap, draws[|draws| - 1])
  }

  /** Whether each of the draws may come up at its failure. */
  predicate AreDraws(interval: nat, cap: nat, draws: seq<nat>) {
    draws == [] ||
    (var n := |draws| - 1;
     AreDraws(interval, cap, draws[..n]) && IsDraw(AfterFailures(interval, cap, draws[..n]), draws[n]))
  }

  /** `x` doubled n times. */
  function Doubled(x: nat, n: nat): nat {
    if n == 0 then x else 2 * Doubled(x, n - 1)
  }

  /** `x` tripled n times. */
  function Tripled(x: nat, n: nat): nat {
    if n == 0 then x else 3 * Tripled(x, n - 1)
  }

  lemma GrowsByStep(r: nat, cap: nat, draw: nat, low: nat, high: nat)
    requires IsDraw(r, draw) && Least(cap, low + 1) <= r <= Least(cap, high)
    ensures Least(cap, 2 * low + 1) <= Delayed(r, cap, draw) <= Least(cap, 3 * high)
  {
  }

  /**
   * After n failures the interval is at least min(cap, 2^n (i - 1) + 1) and at
   * most min(cap, 3^n i), whatever the draws.
   */
  lemma {:induction false} IntervalGrows(interval: nat, cap: nat, draws: seq<nat>)
    requires 2 <= interval <= cap && AreDraws(interval, cap, draws)
    ensures var r := AfterFailures(interval, cap, draws);
      Least(cap, Doubled(interval - 1, |draws|) + 1) <= r <= Least(cap, Tripled(interval, |draws|))
  {
    if draws != [] {
      var n := |draws| - 1;
      IntervalGrows(interval, cap, draws[..n]);
      GrowsByStep(AfterFailures(interval, cap, draws[..n]), cap, draws[n],
        Doubled(interval - 1, n), Tripled(interval, n));
    }
  }

  /** So the cap is reached once 2^n (i - 1) reaches it, and then kept. */
  lemma CapReached(interval: nat, cap: nat, draws: seq<nat>, n: nat)
    requires 2 <= interval <= cap && AreDraws(interval, cap, draws)
    requires n <= |draws| && Doubled(interval - 1, n) + 1 >= cap
    ensures AfterFailures(interval, cap, draws) == cap
  {
    IntervalGrows(interval, cap, draws);
    DoublingGrows(interval - 1, n, |draws|);
  }

  lemma {:induction false} DoublingGrows(x: nat, n: nat, k: nat)
    requires n <= k
    ensures Doubled(x, n) <= Doubled(x, k)
    decreases k
  {
    if n < k {
      DoublingGrows(x, n, k - 1);
    }
  }

  /** The lowest draw at each failure. */
  function LowestDraws(interval: nat, cap: nat, n: nat): seq<nat> {
    if n == 0 then []
    else
      var before := LowestDraws(interval, cap, n - 1);
      before + [AfterFailures(interval, cap, before) / 2]
  }

  lemma OneMoreFailure(interval: nat, cap: nat, draws: seq<nat>, draw: nat)
    ensures var r := AfterFailures(interval, cap, draws);
      AfterFailures(interval, cap, draws + [draw]) == Delayed(r, cap, draw) &&
      (AreDraws(interval, cap, draws + [draw]) <==> AreDraws(interval, cap, draws) && IsDraw(r, draw))
  {
    assert (draws + [draw])[..|draws|] == draws;
  }

  /** With the lowest draws an odd interval keeps one more than an even number that doubles. */
  lemma {:induction false} LowestDrawsDouble(half: nat, cap: nat, n: nat)
    requires 2 * half + 1 <= cap
    ensures var draws := LowestDraws(2 * half + 1, cap, n);
      |draws| == n && AreDraws(2 * half + 1, cap, draws) &&
      AfterFailures(2 * half + 1, cap, draws) == Least(cap, 2 * Doubled(half, n) + 1)
  {
    if n > 0 {
      LowestDrawsDouble(half, cap, n - 1);
      var before := LowestDraws(2 * half + 1, cap, n - 1);
      var r := AfterFailures(2 * half + 1, cap, before);
      OneMoreFailure(2 * half + 1, cap, before, r / 2);
      LowestStep(r, cap, Doubled(half, n - 1));
    }
  }

  /** The lower bound is met: an odd interval may grow no faster. */
  lemma LowestDrawsMeetBound(half: nat, cap: nat, n: nat)
    requires 2 * half + 1 <= cap
    ensures var interval := 2 * half + 1;
      var draws := LowestDraws(interval, cap, n);
      |draws| == n && AreDraws(interval, cap, draws) &&
      AfterFailures(interval, cap, draws) == Least(cap, Doubled(interval - 1, n) + 1)
  {
    LowestDrawsDouble(half, cap, n);
    EvenDoubled(half, n);
  }

  lemma LowestStep(r: nat, cap: nat, half: nat)
    requires r == Least(cap, 2 * half + 1)
    ensures Delayed(r, cap, r / 2) == Least(cap, 2 * (2 * half) + 1) && IsDraw(r, r / 2)
  {
  }

  lemma {:induction false} EvenDoubled(half: nat, n: nat)
    ensures Doubled(2 * half, n) == 2 * Doubled(half, n)
  {
    if n > 0 {
      EvenDoubled(half, n - 1);
    }
  }

  lemma {:induction false} ZeroDoubled(n: nat)
    ensures Doubled(0, n) == 0
  {
    if n > 0 {
      ZeroDoubled(n - 1);
    }
  }

  /** A task with an interval of one second may fail forever and never back off. */
  lemma OneSecondMayNeverGrow(cap: nat, n: nat)
    requires cap >= 1
    ensures exists draws :: |draws| == n && AreDraws(1, cap, draws) && AfterFailures(1, cap, draws) == 1
  {
    LowestDrawsMeetBound(0, cap, n);
    ZeroDoubled(n);
  }

  class BackoffTask {
    const cap: nat
    const originalInterval: nat
    var interval: nat

    constructor (interval: nat, cap: nat)
      ensures this.interval == interval && originalInterval == interval && this.cap == cap
    {
      this.cap, this.originalInterval, this.interval := cap, interval, interval;
    }

    method DelayNextCheck() returns (ghost draw: nat)
      modifies this`interval
      ensures IsDraw(old(interval), draw) && interval == Delayed(old(interval), cap, draw)
    {
      draw := interval;
      if interval != cap {
        var random: nat :| interval / 2 <= random <= interval;
        draw := random;
        var delay := random * 2;
        interval := if cap <= interval + delay then cap else interval + delay;
      }
    }

    method ReturnToNormalSchedule()
      modifies this`interval
      ensures interval == originalInterval
    {
      if interval != originalInterval { interval := originalInterval; }
    }
  }
}
