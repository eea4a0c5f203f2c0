/**
 The periodic resource (Π, Θ): the linear supply bound the analysis uses, and the processor
 time that a partition really receives when it is given Θ units in every aligned period Π.
 */
module PartitionSupply {
  import opened Arith

  predicate WellFormed(period: nat, budget: nat) {
    0 < budget <= period
  }

  /** The longest time a partition can be kept waiting: `2(Π - Θ)`. */
  function Blackout(period: nat, budget: nat): nat
    requires budget <= period
  {
    2 * (period - budget)
  }

  /** `⌊Θ·(t - 2(Π - Θ)) / Π⌋`, and 0 up to the blackout. */
  function Lsbf(period: nat, budget: nat, t: nat): nat
    requires WellFormed(period, budget)
  {
    var blackout := Blackout(period, budget);
    if t <= blackout then 0 else Share(budget, t - blackout, period)
  }

  /** `⌊budget·time / period⌋`. */
  function Share(budget: nat, time: nat, period: nat): nat
    requires 0 < period
  {
    MulMono(0, budget, time);
    budget * time / period
  }

  /** A demand is met from `blackout + ⌈demand·Π / Θ⌉` on, and not before. */
  lemma LsbfMeets(period: nat, budget: nat, demand: nat, t: nat)
    requires WellFormed(period, budget) && 0 < demand
    ensures demand <= Lsbf(period, budget, t)
       <==> Blackout(period, budget) + CeilDiv(demand * period, budget) <= t
  {
    ShareMeets(period, budget, demand, if Blackout(period, budget) < t then t - Blackout(period, budget) else 0);
  }

  lemma ShareMeets(period: nat, budget: nat, demand: nat, time: nat)
    requires WellFormed(period, budget) && 0 < demand
    ensures demand <= Share(budget, time, period) <==> CeilDiv(demand * period, budget) <= time
    ensures 0 < CeilDiv(demand * period, budget)
  {
    FloorDivGreatest(budget * time, period, demand);
    CeilDivLeast(demand * period, budget, time);
    ProductPositive(demand, period);
    CeilDivLeast(demand * period, budget, 0);
  }

  /** The bound never exceeds the time left after the blackout. */
  lemma LsbfAtMost(period: nat, budget: nat, t: nat)
    requires WellFormed(period, budget)
    ensures Blackout(period, budget) < t ==> Lsbf(period, budget, t) <= t - Blackout(period, budget)
  {
    var blackout := Blackout(period, budget);
    if blackout < t {
      MulMono(budget, period, t - blackout);
      QuotientAtMost(budget * (t - blackout), period, t - blackout);
    }
  }

  /** More budget or more time never lowers the bound. */
  lemma LsbfMono(period: nat, budget: nat, budget': nat, t: nat, t': nat)
    requires WellFormed(period, budget) && budget <= budget' <= period && t <= t'
    ensures Lsbf(period, budget, t) <= Lsbf(period, budget', t')
  {
    var d := Lsbf(period, budget, t);
    if 0 < d {
      var x, x' := t - Blackout(period, budget), t' - Blackout(period, budget');
      FloorDivGreatest(budget * x, period, d);
      MulMono(budget, budget', x);
      MulMono(x, x', budget');
      FloorDivGreatest(budget' * x', period, d);
    }
  }

  // ---- Real supply ----

  /** A trace says at each instant whether the partition holds the processor. */
  type Trace = nat -> bool

  /** Units received in the window `[a, b)`. */
  function Supplied(s: Trace, a: nat, b: nat): (n: nat)
    requires a <= b
    ensures n <= b - a
    decreases b
  {
    if a == b then 0
    else Supplied(s, a, b - 1) + if s(b - 1) then 1 else 0
  }

  function FrameSupply(s: Trace, period: nat, k: nat): nat {
    Supplied(s, k * period, k * period + period)
  }

  lemma FrameStart(s: Trace, period: nat, k: nat) returns (a: nat)
    ensures a == k * period && FrameSupply(s, period, k) == Supplied(s, a, a + period)
  {
    a := k * period;
  }

  /** The partition scheduler's obligation: at least Θ units in every aligned period. */
  ghost predicate Delivers(s: Trace, period: nat, budget: nat) {
    forall k: nat :: budget <= FrameSupply(s, period, k)
  }

  lemma {:induction false} SuppliedSplit(s: Trace, a: nat, m: nat, b: nat)
    requires a <= m <= b
    ensures Supplied(s, a, b) == Supplied(s, a, m) + Supplied(s, m, b)
    decreases b
  {
    if m < b { SuppliedSplit(s, a, m, b - 1); }
  }

  /** A period can only lose Π - Θ units, so any part of it gets the rest. */
  lemma PartOfFrame(s: Trace, period: nat, budget: nat, k: nat, a: nat, b: nat)
    requires WellFormed(period, budget) && Delivers(s, period, budget)
    requires k * period <= a <= b <= k * period + period
    ensures b - a <= Supplied(s, a, b) + (period - budget)
  {
    assert budget <= FrameSupply(s, period, k);
    SuppliedSplit(s, k * period, a, k * period + period);
    SuppliedSplit(s, a, b, k * period + period);
  }

  /** The period that the instant `a` lies in. */
  lemma FrameOf(a: nat, period: nat) returns (k: nat)
    requires 0 < period
    ensures k * period <= a < k * period + period
  {
    k := a / period;
    DivBounds(a, period);
  }

  // ---- The least supply ----

  /** The least supply of a window that starts with a period: the budget comes last in each. */
  function Aligned(period: nat, budget: nat, t: nat): nat
    requires WellFormed(period, budget)
    decreases t
  {
    if t < period then
      if t <= period - budget then 0 else t - (period - budget)
    else budget + Aligned(period, budget, t - period)
  }

  /** The least supply of any window: one gap of Π - Θ more. */
  function Worst(period: nat, budget: nat, t: nat): nat
    requires WellFormed(period, budget)
  {
    if t <= period - budget then 0 else Aligned(period, budget, t - (period - budget))
  }

  /** Each unit of time adds at most one unit of supply. */
  lemma {:induction false} AlignedStep(period: nat, budget: nat, t: nat)
    requires WellFormed(period, budget)
    ensures Aligned(period, budget, t) <= Aligned(period, budget, t + 1) <= Aligned(period, budget, t) + 1
    decreases t
  {
    if period <= t { AlignedStep(period, budget, t - period); }
  }

  lemma {:induction false} AlignedGrows(period: nat, budget: nat, t: nat, d: nat)
    requires WellFormed(period, budget)
    ensures Aligned(period, budget, t) <= Aligned(period, budget, t + d) <= Aligned(period, budget, t) + d
    decreases d
  {
    if 0 < d {
      AlignedGrows(period, budget, t, d - 1);
      AlignedStep(period, budget, t + d - 1);
    }
  }

  lemma WorstMono(period: nat, budget: nat, t: nat, t': nat)
    requires WellFormed(period, budget) && t <= t'
    ensures Worst(period, budget, t) <= Worst(period, budget, t')
  {
    if period - budget < t { AlignedGrows(period, budget, t - (period - budget), t' - t); }
  }

  /** Supply that comes last in each period stays within the share Θ/Π of the time. */
  lemma {:induction false} AlignedWithinShare(period: nat, budget: nat, t: nat)
    requires WellFormed(period, budget)
    ensures period * Aligned(period, budget, t) <= budget * t
    decreases t
  {
    var gap, got := period - budget, Aligned(period, budget, t);
    if period <= t {
      AlignedWithinShare(period, budget, t - period);
      assert budget * t == budget * (t - period) + budget * period;
      assert period * got == period * (got - budget) + period * budget;
    } else if gap < t {
      MulMono(got, budget, gap);
      assert period * got == budget * got + gap * got;
      assert budget * t == budget * got + budget * gap;
    } else {
      ProductPositive(budget, t);
    }
  }

  lemma WorstWithinShare(period: nat, budget: nat, t: nat)
    requires WellFormed(period, budget)
    ensures period * Worst(period, budget, t) <= budget * t
  {
    var gap := period - budget;
    if gap < t {
      AlignedWithinShare(period, budget, t - gap);
      MulMono(t - gap, t, budget);
    } else {
      ProductPositive(budget, t);
    }
  }

  lemma {:induction false} AlignedSupply(s: Trace, period: nat, budget: nat, k: nat, t: nat)
    requires WellFormed(period, budget) && Delivers(s, period, budget)
    ensures Aligned(period, budget, t) <= Supplied(s, k * period, k * period + t)
    decreases t
  {
    var a := k * period;
    if t < period {
      PartOfFrame(s, period, budget, k, a, a + t);
    } else {
      assert (k + 1) * period == a + period;
      SuppliedSplit(s, a, a + period, a + t);
      assert budget <= FrameSupply(s, period, k);
      AlignedSupply(s, period, budget, k + 1, t - period);
    }
  }

  lemma AlignedWithin(period: nat, budget: nat, t: nat, t': nat)
    requires WellFormed(period, budget) && t <= t'
    ensures Aligned(period, budget, t) <= Aligned(period, budget, t') <= Aligned(period, budget, t) + (t' - t)
  {
    AlignedGrows(period, budget, t, t' - t);
  }

  /** A window whose first `u` instants lie in one period and the rest starts with the next. */
  lemma WorstOfParts(period: nat, budget: nat, u: nat, v: nat, head: nat)
    requires WellFormed(period, budget) && u <= head + (period - budget)
    ensures Worst(period, budget, u + v) <= head + Aligned(period, budget, v)
  {
    var gap := period - budget;
    if gap < u + v {
      var t := u + v - gap;
      if t <= v { AlignedWithin(period, budget, t, v); } else { AlignedWithin(period, budget, v, t); }
    }
  }

  /** A window that reaches past the end of the period it starts in. */
  lemma SupplyAcross(s: Trace, period: nat, budget: nat, k: nat, a: nat, m: nat, b: nat)
    requires WellFormed(period, budget) && Delivers(s, period, budget)
    requires k * period <= a <= m <= b && m == k * period + period
    ensures Worst(period, budget, b - a) <= Supplied(s, a, b)
  {
    assert m == (k + 1) * period;
    PartOfFrame(s, period, budget, k, a, m);
    AlignedSupply(s, period, budget, k + 1, b - m);
    SuppliedSplit(s, a, m, b);
    WorstOfParts(period, budget, m - a, b - m, Supplied(s, a, m));
  }

  /** No window of any legal trace receives less. */
  lemma SupplyAtLeastWorst(s: Trace, period: nat, budget: nat, a: nat, t: nat)
    requires WellFormed(period, budget) && Delivers(s, period, budget)
    ensures Worst(period, budget, t) <= Supplied(s, a, a + t)
  {
    var k := FrameOf(a, period);
    var m := k * period + period;
    if m <= a + t {
      SupplyAcross(s, period, budget, k, a, m, a + t);
    } else {
      PartOfFrame(s, period, budget, k, a, a + t);
      WorstOfParts(period, budget, t, 0, Supplied(s, a, a + t));
    }
  }

  /** Time in excess of the gap is supplied at least at the rate Θ/Π. */
  lemma {:induction false} AlignedRate(period: nat, budget: nat, t: nat)
    requires WellFormed(period, budget)
    ensures budget * (t - (period - budget)) <= period * Aligned(period, budget, t)
    decreases t
  {
    var gap, got := period - budget, Aligned(period, budget, t);
    if t < period {
      MulMono(t - gap, got, budget);
      MulMono(budget, period, got);
    } else {
      AlignedRate(period, budget, t - period);
      assert budget * (t - gap) == budget * (t - period - gap) + budget * period;
      assert period * got == period * (got - budget) + period * budget;
    }
  }

  lemma LsbfAtMostWorst(period: nat, budget: nat, t: nat)
    requires WellFormed(period, budget)
    ensures Lsbf(period, budget, t) <= Worst(period, budget, t)
  {
    var gap := period - budget;
    if Blackout(period, budget) < t {
      AlignedRate(period, budget, t - gap);
      QuotientAtMost(budget * (t - 2 * gap), period, Aligned(period, budget, t - gap));
    }
  }

  /**
   What the analysis takes from the partition scheduler, derived from the budget alone:
   every window, wherever it starts, receives at least the linear bound.
   */
  lemma SupplyAtLeastLsbf(s: Trace, period: nat, budget: nat, a: nat, t: nat)
    requires WellFormed(period, budget) && Delivers(s, period, budget)
    ensures Lsbf(period, budget, t) <= Supplied(s, a, a + t)
  {
    SupplyAtLeastWorst(s, period, budget, a, t);
    LsbfAtMostWorst(period, budget, t);
  }

  lemma WorstAfterBlackout(period: nat, budget: nat, w: nat)
    requires WellFormed(period, budget) && w <= budget
    ensures Worst(period, budget, Blackout(period, budget) + w) == w
  {
    assert Aligned(period, budget, 0) == 0;
  }

  /** After the blackout one whole budget arrives without interruption. */
  lemma BudgetAfterBlackout(s: Trace, period: nat, budget: nat, a: nat, w: nat)
    requires WellFormed(period, budget) && Delivers(s, period, budget)
    requires w <= budget
    ensures w <= Supplied(s, a, a + Blackout(period, budget) + w)
  {
    SupplyAtLeastWorst(s, period, budget, a, Blackout(period, budget) + w);
    WorstAfterBlackout(period, budget, w);
  }

  // ---- A trace that gives no more ----

  /** Budget first up to period number `first`, and last in every later period. */
  function LateTrace(period: nat, budget: nat, first: nat): Trace
    requires WellFormed(period, budget)
  {
    (t: nat) => if t / period <= first then t % period < budget else period - budget <= t % period
  }

  lemma {:induction false} SuppliedRun(s: Trace, a: nat, b: nat, on: bool)
    requires a <= b && forall t | a <= t < b :: s(t) == on
    ensures Supplied(s, a, b) == if on then b - a else 0
    decreases b
  {
    if a < b { SuppliedRun(s, a, b - 1, on); }
  }

  lemma LateTraceDelivers(period: nat, budget: nat, first: nat)
    requires WellFormed(period, budget)
    ensures Delivers(LateTrace(period, budget, first), period, budget)
  {
    var s := LateTrace(period, budget, first);
    forall k: nat ensures budget <= FrameSupply(s, period, k) {
      var a := k * period;
      if k <= first {
        EarlyFrame(period, budget, first, k, a);
        SuppliedSplit(s, a, a + budget, a + period);
      } else {
        LateFrame(period, budget, first, k, a, period);
      }
    }
  }

  lemma EarlyFrame(period: nat, budget: nat, first: nat, k: nat, a: nat)
    requires WellFormed(period, budget) && k <= first && a == k * period
    ensures forall x | a <= x < a + period :: LateTrace(period, budget, first)(x) == (x < a + budget)
    ensures Supplied(LateTrace(period, budget, first), a, a + budget) == budget
  {
    var s := LateTrace(period, budget, first);
    forall x | a <= x < a + period ensures s(x) == (x < a + budget) { ModWithin(x, k, period); }
    SuppliedRun(s, a, a + budget, true);
  }

  lemma ModWithin(t: nat, k: nat, period: nat)
    requires 0 < period && k * period <= t < k * period + period
    ensures t % period == t - k * period && t / period == k
  {
    DivBounds(t, period);
    var q := t / period;
    if q < k { MulMono(q + 1, k, period); }
    if k < q { MulMono(k + 1, q, period); }
  }

  /** In the late trace every later period starts with its gap. */
  lemma LateFrame(period: nat, budget: nat, first: nat, k: nat, a: nat, t: nat)
    requires WellFormed(period, budget) && first < k && a == k * period && t <= period
    ensures Supplied(LateTrace(period, budget, first), a, a + t)
         == if t <= period - budget then 0 else t - (period - budget)
  {
    var s := LateTrace(period, budget, first);
    var m := a + (period - budget);
    forall x | a <= x < a + period ensures s(x) == (m <= x) { ModWithin(x, k, period); }
    if t <= period - budget {
      SuppliedRun(s, a, a + t, false);
    } else {
      SuppliedRun(s, a, m, false);
      SuppliedRun(s, m, a + t, true);
      SuppliedSplit(s, a, m, a + t);
    }
  }

  lemma {:induction false} LateIsAligned(period: nat, budget: nat, first: nat, k: nat, a: nat, t: nat)
    requires WellFormed(period, budget) && first < k && a == k * period
    ensures Supplied(LateTrace(period, budget, first), a, a + t) == Aligned(period, budget, t)
    decreases t
  {
    if t < period {
      LateFrame(period, budget, first, k, a, t);
    } else {
      assert a + period == (k + 1) * period;
      LateFrame(period, budget, first, k, a, period);
      LateIsAligned(period, budget, first, k + 1, a + period, t - period);
      SuppliedSplit(LateTrace(period, budget, first), a, a + period, a + t);
    }
  }

  /** The window that starts after the last early budget of the late trace receives exactly this. */
  lemma LateIsWorst(period: nat, budget: nat, first: nat, start: nat, t: nat)
    requires WellFormed(period, budget) && start == first * period + budget
    ensures Supplied(LateTrace(period, budget, first), start, start + t) == Worst(period, budget, t)
  {
    var s := LateTrace(period, budget, first);
    var gap := period - budget;
    EarlyFrame(period, budget, first, first, start - budget);
    if t <= gap {
      SuppliedRun(s, start, start + t, false);
    } else {
      SuppliedRun(s, start, start + gap, false);
      SuppliedSplit(s, start, start + gap, start + t);
      assert start + gap == (first + 1) * period;
      LateIsAligned(period, budget, first, first + 1, start + gap, t - gap);
    }
  }

  /** The function is the minimum over all legal traces and all windows: a bound, and attained. */
  lemma WorstIsMinimum(period: nat, budget: nat, t: nat, n: nat)
    requires WellFormed(period, budget)
    ensures n <= Worst(period, budget, t) <==>
      forall s: Trace, a: nat, b: nat | Delivers(s, period, budget) && b == a + t :: n <= Supplied(s, a, b)
  {
    forall s: Trace, a: nat, b: nat | Delivers(s, period, budget) && b == a + t
      ensures Worst(period, budget, t) <= Supplied(s, a, b)
    {
      SupplyAtLeastWorst(s, period, budget, a, t);
    }
    LateTraceDelivers(period, budget, 0);
    LateIsWorst(period, budget, 0, budget, t);
    var b := budget + t;
    assert Supplied(LateTrace(period, budget, 0), budget, b) == Worst(period, budget, t);
  }

  /**
   A legal trace can leave a window of length `2(Π - Θ)` empty and then supply one unit per
   instant: the derived jitter cannot be lowered, and the jitter path charges exactly the worst case.
   */
  lemma BlackoutIsReached(period: nat, budget: nat, w: nat)
    requires WellFormed(period, budget) && w <= budget
    ensures exists s: Trace, a: nat, b: nat ::
      Delivers(s, period, budget) && b == a + Blackout(period, budget) + w && Supplied(s, a, b) == w
  {
    LateTraceDelivers(period, budget, 0);
    LateIsWorst(period, budget, 0, budget, Blackout(period, budget) + w);
    WorstAfterBlackout(period, budget, w);
    var b := budget + Blackout(period, budget) + w;
    assert Supplied(LateTrace(period, budget, 0), budget, b) == w;
  }
}
