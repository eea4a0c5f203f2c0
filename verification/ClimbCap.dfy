/**
 The two ways in which the demand-versus-supply climb gives up on a feasible task: an
 intermediate value that overflows, and the cap on the number of steps.
 */
module ClimbCap {
  import opened Arith
  import opened Demand
  import opened ExactAnalysis
  import opened ArincSupply
  import opened Saturation
  import PartitionSupply
  import SchedulingVerified

  /** Some exact value that the climb computes at `t`, or for the next time, exceeds a word. */
  predicate Overflows(p: Problem, t: nat)
    requires p.Valid()
  {
    var next := Meet(p, t);
    || MAX < p.Work(t) * p.period
    || MAX < next
    || MAX < p.Work(next)
    || MAX < p.budget * (next - p.Dark())
  }

  /** Where nothing overflows, the saturating step and test are the exact ones. */
  lemma NoOverflowIsExact(p: Problem, t: U64)
    requires Word(p) && p.Valid() && p.JitterFree() && !Overflows(p, t)
    ensures NextTime(p, t) == Meet(p, t)
    ensures Passes(p, Meet(p, t)) <==> p.Feasible(Meet(p, t))
  {
    DarkBelow(p);
    DemandIsClamped(p, t);
    MulMono(1, p.period, p.Work(t));
    DemandIsClamped(p, Meet(p, t));
  }

  /**
   The no-progress exit is dead over the naturals: when it is taken, the climb stands still at a
   time within the deadline where some value it computes overflows. It has skipped nothing feasible.
   */
  lemma {:induction false} StallMeansOverflow(p: Problem, t: U64, steps: nat) returns (u: U64)
    requires Word(p) && p.Valid() && p.JitterFree() && 0 < p.Work(t)
    requires ClimbSteps(p, t, steps).Stalled?
    ensures NextTime(p, u) == u <= p.deadline && !Passes(p, u)
    ensures 0 < p.Work(u) && Overflows(p, u)
    ensures forall v: nat | t <= v && p.Feasible(v) :: u <= v
    decreases steps
  {
    var next := NextTime(p, t);
    if next == t {
      u := t;
      if !Overflows(p, t) {
        NoOverflowIsExact(p, t);
        MeetClimbs(p, t);
      }
    } else {
      StillWork(p, t, next);
      forall v: nat | t <= v && p.Feasible(v) ensures next <= v {
        NextBelow(p, t);
        MeetStaysBelow(p, t, v);
      }
      u := StallMeansOverflow(p, next, steps - 1);
    }
  }

  /**
   The product of the period with all that can be supplied by the deadline fits in a word. This is
   about the partition and the deadline alone; demand may overflow where nothing is feasible.
   */
  predicate Ample(period: nat, budget: nat, deadline: nat)
    requires PartitionSupply.WellFormed(period, budget)
  {
    PartitionSupply.Lsbf(period, budget, deadline) * period <= MAX && (2 <= period || deadline < MAX)
  }

  /** Up to a feasible time, demand and its product with the period fit. */
  lemma ProductFits(p: Problem, t: nat, goal: nat)
    requires Word(p) && p.Valid() && Ample(p.period, p.budget, p.deadline)
    requires t <= goal <= p.deadline && p.Feasible(goal)
    ensures p.Work(t) * p.period <= MAX && p.Work(t) <= MAX
  {
    WorkMono(p, t, goal);
    PartitionSupply.LsbfMono(p.period, p.budget, p.budget, goal, p.deadline);
    MulMono(p.Work(t), PartitionSupply.Lsbf(p.period, p.budget, p.deadline), p.period);
    MulMono(1, p.period, p.Work(t));
  }

  lemma AmpleStep(p: Problem, t: U64, goal: nat)
    requires Word(p) && p.Valid() && p.JitterFree() && Ample(p.period, p.budget, p.deadline)
    requires t <= goal <= p.deadline && p.Feasible(goal) && 0 < p.Work(t)
    ensures NextTime(p, t) == Meet(p, t) <= goal
  {
    DarkBelow(p);
    ProductFits(p, t, goal);
    DemandIsClamped(p, t);
    NextIs(p, t, p.Work(t));
    MeetStaysBelow(p, t, goal);
  }

  /** The next time when the demand, and its product with the period, are not clamped. */
  lemma NextIs(p: Problem, t: U64, work: U64)
    requires Word(p) && p.Valid() && work * p.period <= MAX
    requires DemandAt(p.exec, p.blocking, p.hp, t) == work
    ensures NextTime(p, t) == SatAdd(DerivedJitter(p.period, p.budget), CeilDiv(work * p.period, p.budget))
  {
  }

  lemma AmpleTest(p: Problem, u: U64, goal: nat)
    requires Word(p) && p.Valid() && p.JitterFree() && Ample(p.period, p.budget, p.deadline)
    requires u <= goal <= p.deadline && p.Feasible(goal)
    ensures Passes(p, u) <==> p.Feasible(u)
  {
    if Passes(p, u) {
      PassingIsFeasible(p, u);
    } else if p.Feasible(u) {
      ProductFits(p, u, goal);
      DemandIsClamped(p, u);
      SupplyFits(p, u, p.Work(u));
    }
  }

  /** What the capped climb makes of the uncapped one. */
  function Capped(r: (Option<nat>, nat), steps: nat): Exit
    requires r.0.Some? ==> r.0.value <= MAX
  {
    if steps < r.1 then Exhausted
    else match r.0
      case Some(t) => Accepted(t)
      case None => PastDeadline
  }

  lemma {:induction false} ClimbWithinDeadline(p: Problem, t: nat)
    requires p.Valid() && 0 < p.Work(t)
    ensures 1 <= Climb(p, t).1
    ensures Climb(p, t).0.Some? ==> Climb(p, t).0.value <= p.deadline
    decreases if t <= p.deadline then p.deadline - t + 1 else 0
  {
    MeetClimbs(p, t);
    var next := Meet(p, t);
    if next <= p.deadline && !p.Feasible(next) { ClimbWithinDeadline(p, next); }
  }

  lemma {:induction false} CapOnlyCuts(p: Problem, t: U64, goal: nat, steps: nat)
    requires Word(p) && p.Valid() && p.JitterFree() && Ample(p.period, p.budget, p.deadline)
    requires t <= goal <= p.deadline && p.Feasible(goal) && 0 < p.Work(t)
    ensures Climb(p, t).0.Some? ==> Climb(p, t).0.value <= p.deadline
    ensures ClimbSteps(p, t, steps) == Capped(Climb(p, t), steps)
    decreases steps
  {
    ClimbWithinDeadline(p, t);
    AmpleStep(p, t, goal);
    AmpleTest(p, Meet(p, t), goal);
    MeetClimbs(p, t);
    if 0 < steps && !p.Feasible(Meet(p, t)) {
      CapOnlyCuts(p, Meet(p, t), goal, steps - 1);
    }
  }

  lemma {:induction false} AcceptedPasses(p: Problem, t: U64, steps: nat)
    requires Word(p) && p.Valid()
    ensures var e := ClimbSteps(p, t, steps); e.Accepted? ==> e.t <= p.deadline && Passes(p, e.t)
    decreases steps
  {
    if 0 < steps { AcceptedPasses(p, NextTime(p, t), steps - 1); }
  }

  /** The steps the uncapped climb takes from the blackout edge. */
  function Steps(p: Problem): nat
    requires p.Valid() && 0 < p.Work(p.Dark())
  {
    Climb(p, p.Dark()).1
  }

  /**
   The capped search accepts a task exactly if the task is feasible and the uncapped climb needs no
   more steps than the cap allows. An accepted time is the least one.
   */
  lemma CapDecides(p: Problem)
    requires Word(p) && p.Valid() && p.JitterFree() && 0 < p.Work(p.Dark()) && Ample(p.period, p.budget, p.deadline)
    ensures Fallback(p).FallbackPath? <==> LeastFeasible(p).Some? && Steps(p) <= |p.hp| + 3
    ensures Fallback(p).FallbackPath? ==> LeastFeasible(p) == Some(Fallback(p).response)
    ensures Fallback(p).FallbackPath? || Fallback(p).Unschedulable?
  {
    LeastFeasibleMeans(p);
    if LeastFeasible(p).Some? {
      FeasibleCapDecides(p, LeastFeasible(p).value);
    } else if Fallback(p).FallbackPath? {
      DarkBelow(p);
      var edge, t := DerivedJitter(p.period, p.budget), Fallback(p).response;
      AcceptedPasses(p, edge, Cap(p));
      PassingIsFeasible(p, t);
      FirstStepPositive(p, edge, Cap(p));
    }
  }

  lemma FeasibleCapDecides(p: Problem, goal: nat)
    requires Word(p) && p.Valid() && p.JitterFree() && 0 < p.Work(p.Dark()) && Ample(p.period, p.budget, p.deadline)
    requires LeastFeasible(p) == Some(goal)
    ensures Fallback(p).FallbackPath? <==> Steps(p) <= Cap(p)
    ensures Fallback(p).FallbackPath? ==> Fallback(p).response == goal
  {
    DarkBelow(p);
    LeastFeasibleMeans(p);
    if p.Work(goal) == 0 { NoWorkAnywhere(p, goal, p.Dark()); }
    FeasibleSettles(p, goal);
    ClimbDecides(p);
    CapOnlyCuts(p, p.Dark(), goal, Cap(p));
  }

  /**
   With no more than two release points beyond one for each higher-priority task within the
   deadline, the cap is never reached: the search decides feasibility.
   */
  lemma FewReleasesDecide(p: Problem)
    requires Word(p) && p.Valid() && p.JitterFree() && 0 < p.Work(p.Dark()) && Ample(p.period, p.budget, p.deadline)
    requires AllReleases(p.hp, p.deadline) <= |p.hp| + 2
    ensures LeastFeasible(p).Some? <==> Fallback(p).FallbackPath?
  {
    CapDecides(p);
    ClimbDecides(p);
    if LeastFeasible(p).Some? && p.deadline < p.Dark() {
      LeastFeasibleMeans(p);
      var t := LeastFeasible(p).value;
      if p.Work(t) == 0 { NoWorkAnywhere(p, t, p.Dark()); } else { FeasibleSettles(p, t); }
    }
  }

  /** In particular when the deadline is no longer than any higher-priority period. */
  lemma LongPeriodsDecide(p: Problem)
    requires Word(p) && p.Valid() && p.JitterFree() && 0 < p.Work(p.Dark()) && Ample(p.period, p.budget, p.deadline)
    requires forall j | 0 <= j < |p.hp| :: p.deadline <= p.hp[j].period
    ensures LeastFeasible(p).Some? <==> Fallback(p).FallbackPath?
  {
    LongPeriodsReleaseOnce(p.hp, p.deadline);
    FewReleasesDecide(p);
  }

  // ---- A feasible task that the cap rejects ----

  function CappedTask(): Problem {
    Problem(1000, 300, 350, 50000, 0, 0, [Hp(100, 25, 0)])
  }

  lemma CeilDivIs(a: nat, b: nat, q: nat)
    requires 0 < b && a <= q * b < a + b
    ensures CeilDiv(a, b) == q
  {
    CeilDivLeast(a, b, q);
    if 0 < q {
      assert (q - 1) * b == q * b - b;
      CeilDivLeast(a, b, q - 1);
    }
  }

  lemma WorkOf(p: Problem, t: nat, n: nat)
    requires p.Valid() && |p.hp| == 1 && p.hp[0].jitter == 0 && p.blocking == 0
    requires t <= n * p.hp[0].period < t + p.hp[0].period
    ensures p.Work(t) == p.exec + n * p.hp[0].exec
  {
    CeilDivIs(t, p.hp[0].period, n);
    assert Interference(p.hp[..0], t) == 0;
  }

  /** `supply`, a share of the time, is too little for `work`. */
  lemma TooLittle(p: Problem, t: nat, work: nat)
    requires p.Valid() && p.Dark() < t && p.Work(t) == work
    requires (t - p.Dark()) * p.budget < work * p.period
    ensures !p.Feasible(t)
  {
    FloorDivGreatest(p.budget * (t - p.Dark()), p.period, work);
  }

  lemma MeetsAt(p: Problem, t: nat, work: nat, next: nat)
    requires p.Valid() && p.Dark() <= next && p.Work(t) == work
    requires work * p.period <= (next - p.Dark()) * p.budget < work * p.period + p.budget
    ensures Meet(p, t) == next
  {
    CeilDivIs(work * p.period, p.budget, next - p.Dark());
  }

  /** One evaluation of the climb that moves on: the time reached still has too little supply. */
  lemma MovesOn(p: Problem, t: nat, n: nat, next: nat, m: nat)
    requires p.Valid() && |p.hp| == 1 && p.hp[0].jitter == 0 && p.blocking == 0 && 0 < p.exec
    requires t <= n * p.hp[0].period < t + p.hp[0].period
    requires next <= m * p.hp[0].period < next + p.hp[0].period
    requires p.Dark() < next <= p.deadline
    requires var work := (p.exec + n * p.hp[0].exec) * p.period;
      work <= (next - p.Dark()) * p.budget < work + p.budget
    requires (next - p.Dark()) * p.budget < (p.exec + m * p.hp[0].exec) * p.period
    ensures Climb(p, t).1 == 1 + Climb(p, next).1
  {
    WorkOf(p, t, n);
    WorkOf(p, next, m);
    MeetsAt(p, t, p.exec + n * p.hp[0].exec, next);
    TooLittle(p, next, p.exec + m * p.hp[0].exec);
    ClimbMovesOn(p, t, next);
  }

  lemma ClimbMovesOn(p: Problem, t: nat, next: nat)
    requires p.Valid() && 0 < p.Work(t) && 0 < p.Work(next)
    requires Meet(p, t) == next <= p.deadline && !p.Feasible(next)
    ensures Climb(p, t).1 == 1 + Climb(p, next).1
  {
    MeetClimbs(p, t);
  }

  lemma CappedTaskIsFeasible(p: Problem)
    requires p == CappedTask()
    ensures Word(p) && p.Valid() && p.Feasible(15400)
  {
    WorkOf(p, 15400, 154);
  }

  lemma CappedTaskFits(p: Problem)
    requires p == CappedTask()
    ensures Word(p) && p.Valid() && Ample(p.period, p.budget, p.deadline) && p.Dark() == 1400 && 0 < p.Work(1400)
  {
    PartitionSupply.LsbfAtMost(p.period, p.budget, p.deadline);
    MulMono(PartitionSupply.Lsbf(p.period, p.budget, p.deadline), p.deadline, p.period);
    WorkOf(p, 1400, 14);
  }

  lemma CappedTaskClimbsLong(p: Problem)
    requires p == CappedTask()
    ensures p.Valid() && 0 < p.Work(1400) && 4 < Climb(p, 1400).1
  {
    MovesOn(p, 1400, 14, 3734, 38);
    MovesOn(p, 3734, 38, 5734, 58);
    CappedTaskClimbsOn(p);
  }

  lemma CappedTaskClimbsOn(p: Problem)
    requires p == CappedTask()
    ensures p.Valid() && 0 < p.Work(5734) && 2 < Climb(p, 5734).1
  {
    MovesOn(p, 5734, 58, 7400, 74);
    MovesOn(p, 7400, 74, 8734, 88);
    ClimbWithinDeadline(p, 8734);
  }

  /** The task is feasible at 15400, but the climb would need more than its four evaluations. */
  lemma CapRejectsFeasible(p: Problem)
    requires p == CappedTask()
    ensures Word(p) && p.Valid() && p.Feasible(15400) && 15400 <= p.deadline && Analyze(p, []) == Unschedulable
  {
    CappedTaskIsFeasible(p);
    CappedTaskFits(p);
    CappedTaskClimbsLong(p);
    WindowTooSmall(p);
    CapDecides(p);
    DarkBelow(p);
    FallbackReported(p);
  }

  // ---- Feasible tasks whose climb stalls because a product overflows ----

  /** The analysis of the task stops because its climb makes no progress. */
  predicate Stalls(p: Problem)
    requires Word(p) && p.Valid()
  {
    && Window64(p).Diverged? && p.JitterFree()
    && DerivedJitter(p.period, p.budget) < p.deadline && FallbackExit(p).Stalled?
  }

  ghost predicate NeverStalls(period: U64, budget: U64, deadline: U64)
    requires PartitionSupply.WellFormed(period, budget)
  {
    forall exec: U64, blocking: U64, hp: seq<Hp> | SchedulingVerified.Words(hp) && NoJitter(hp) ::
      var p := Problem(period, budget, exec, deadline, blocking, 0, hp);
      Response(p).Some? ==> !Stalls(p)
  }

  /** All that can be supplied by the deadline fits in one budget, or its product with the period in a word. */
  predicate Roomy(period: U64, budget: U64, deadline: U64)
    requires PartitionSupply.WellFormed(period, budget)
  {
    var most := PartitionSupply.Lsbf(period, budget, deadline);
    most <= budget || most * period <= MAX
  }

  /** What is feasible with at most one budget of work has a busy window of at most one budget. */
  lemma LittleWorkSettles(p: Problem, t: nat)
    requires p.Valid() && p.Feasible(t) && 0 < t && p.Work(t) <= p.budget
    ensures BusyWindow(p).Some?
  {
    BusyWindowMeans(p);
    var w := p.Work(t);
    if w == 0 {
      NoWorkAnywhere(p, t, p.Dark());
    } else {
      FeasibleSettles(p, t);
      WorkMono(p, w + p.Dark(), t);
    }
    assert p.Settles(w);
  }

  /** Saturation takes nothing that matters from the supply, if the product that asks for it fits. */
  lemma SupplyFits(p: Problem, u: U64, work: nat)
    requires Word(p) && p.Valid() && work * p.period <= MAX
    requires work <= PartitionSupply.Lsbf(p.period, p.budget, u)
    ensures work <= ArincSupply.Lsbf(p.period, p.budget, u)
  {
    DarkBelow(p);
    if p.Dark() < u {
      FloorDivGreatest(p.budget * (u - p.Dark()), p.period, work);
      FloorDivGreatest(Clamp(p.budget * (u - p.Dark())), p.period, work);
    }
  }

  /** Where the product fits, a climb that stands still has arrived. */
  lemma NoStallWhereProductFits(p: Problem, u: U64)
    requires Word(p) && p.Valid() && p.JitterFree() && 0 < p.Work(u)
    requires NextTime(p, u) == u && Meet(p, u) <= MAX && p.Work(u) * p.period <= MAX
    ensures Passes(p, u)
  {
    DarkBelow(p);
    DemandIsClamped(p, u);
    MulMono(1, p.period, p.Work(u));
    NextIs(p, u, p.Work(u));
    MeetClimbs(p, u);
    SupplyFits(p, u, p.Work(u));
  }

  /** What leaves room by the deadline leaves room before it. */
  lemma RoomyEarlier(period: U64, budget: U64, deadline: U64, t: U64)
    requires PartitionSupply.WellFormed(period, budget) && t <= deadline && Roomy(period, budget, deadline)
    ensures Roomy(period, budget, t)
  {
    PartitionSupply.LsbfMono(period, budget, budget, t, deadline);
    MulMono(PartitionSupply.Lsbf(period, budget, t), PartitionSupply.Lsbf(period, budget, deadline), period);
  }

  lemma RoomyNeverStalls(p: Problem)
    requires Word(p) && p.Valid() && p.JitterFree() && Roomy(p.period, p.budget, p.deadline)
    requires Response(p).Some?
    ensures !Stalls(p)
  {
    if Stalls(p) {
      DivergedIsExact(p);
      LeastFeasibleMeans(p);
      var t := Response(p).value;
      RoomyEarlier(p.period, p.budget, p.deadline, t);
      if PartitionSupply.Lsbf(p.period, p.budget, t) <= p.budget {
        LittleWorkSettles(p, t);
      } else {
        var u := StallBelow(p, t);
        StalledBelowFits(p, u, t);
      }
    }
  }

  /** The climb stands still at or below every feasible time. */
  lemma StallBelow(p: Problem, t: U64) returns (u: U64)
    requires Word(p) && p.Valid() && Stalls(p) && 0 < t && p.Feasible(t)
    ensures NextTime(p, u) == u <= t && !Passes(p, u) && 0 < p.Work(u)
  {
    DivergedIsExact(p);
    EdgeHasWork(p);
    DarkBelow(p);
    DivergedHasWork(p, t);
    FeasibleSettles(p, t);
    u := StallMeansOverflow(p, DerivedJitter(p.period, p.budget), Cap(p));
  }

  lemma StalledBelowFits(p: Problem, u: U64, t: U64)
    requires Word(p) && p.Valid() && p.JitterFree() && 0 < p.Work(u)
    requires NextTime(p, u) == u <= t && p.Feasible(t)
    requires PartitionSupply.Lsbf(p.period, p.budget, t) * p.period <= MAX
    ensures Passes(p, u)
  {
    WorkMono(p, u, t);
    MulMono(p.Work(u), PartitionSupply.Lsbf(p.period, p.budget, t), p.period);
    MeetStaysBelow(p, u, t);
    NoStallWhereProductFits(p, u);
  }

  /** A lone task that needs all that is supplied by its deadline. */
  predicate Tight(p: Problem)
    requires Word(p) && p.Valid()
  {
    && p.hp == [] && p.blocking == 0 && p.jitter == 0
    && p.exec == PartitionSupply.Lsbf(p.period, p.budget, p.deadline)
    && p.budget < p.exec && MAX < p.exec * p.period
  }

  lemma LoneWork(p: Problem, t: nat)
    requires p.Valid() && p.hp == [] && p.blocking == 0
    ensures p.Work(t) == p.exec
  {
  }

  lemma TightIsFeasible(p: Problem)
    requires Word(p) && p.Valid() && Tight(p)
    ensures p.Dark() < p.deadline && p.Feasible(p.deadline)
  {
    LoneWork(p, p.deadline);
  }

  lemma TightIsAccepted(p: Problem)
    requires Word(p) && p.Valid() && Tight(p)
    ensures Response(p).Some? && Window64(p).Diverged?
  {
    TightIsFeasible(p);
    WindowTooSmall(p);
    DivergedIsExact(p);
    FeasibleIsFound(p, p.deadline);
  }

  lemma FeasibleIsFound(p: Problem, t: nat)
    requires p.Valid() && p.JitterFree() && BusyWindow(p).None? && 0 < t <= p.deadline && p.Feasible(t)
    ensures Response(p).Some?
  {
    LeastFeasibleMeans(p);
  }

  /** The supply computed at `n` is the share of a word, too little for a product beyond a word. */
  lemma QuotientSmall(p: Problem, n: U64)
    requires Word(p) && p.Valid() && MAX < p.exec * p.period
    ensures ArincSupply.Lsbf(p.period, p.budget, n) < p.exec
  {
    var edge := DerivedJitter(p.period, p.budget);
    if edge < n { FloorDivGreatest(SatMul(p.budget, n - edge), p.period, p.exec); }
    ProductPositive(p.exec, p.period);
  }

  /** It always meets the same time, where the supply saturates below the demand. */
  lemma TightStandsStill(p: Problem, t: U64)
    requires Word(p) && p.Valid() && Tight(p)
    ensures NextTime(p, t) == NextTime(p, 0) <= p.deadline
    ensures !Passes(p, NextTime(p, 0))
  {
    TightIsFeasible(p);
    LoneWork(p, 0);
    NextBelow(p, 0);
    MeetStaysBelow(p, 0, p.deadline);
    QuotientSmall(p, NextTime(p, 0));
  }

  /** Such a task is feasible, and its analysis gives up. */
  lemma TightStalls(p: Problem)
    requires Word(p) && p.Valid() && Tight(p)
    ensures p.Feasible(p.deadline) && Response(p).Some? && Stalls(p) && Analyze(p, []) == Unschedulable
  {
    TightIsFeasible(p);
    TightIsAccepted(p);
    DarkBelow(p);
    var edge, n := DerivedJitter(p.period, p.budget), NextTime(p, 0);
    TightStandsStill(p, edge);
    TightStandsStill(p, n);
    StallsSoon(p, edge, n, Cap(p));
    FallbackReported(p);
  }

  lemma StallsSoon(p: Problem, t: U64, n: U64, steps: nat)
    requires Word(p) && p.Valid() && 2 <= steps
    requires NextTime(p, t) == n && NextTime(p, n) == n && n <= p.deadline && !Passes(p, n)
    ensures ClimbSteps(p, t, steps).Stalled?
  {
    if t != n { assert ClimbSteps(p, n, steps - 1).Stalled?; }
  }

  /**
   For which partitions and deadlines no accepted task is ever lost to the no-progress exit:
   those where all that is supplied by the deadline is at most one budget, or makes a product
   with the period that fits in a word.
   */
  lemma NeverStallsIffRoomy(period: U64, budget: U64, deadline: U64)
    requires PartitionSupply.WellFormed(period, budget)
    ensures NeverStalls(period, budget, deadline) <==> Roomy(period, budget, deadline)
  {
    if Roomy(period, budget, deadline) {
      forall exec: U64, blocking: U64, hp: seq<Hp> | SchedulingVerified.Words(hp) && NoJitter(hp)
        ensures var p := Problem(period, budget, exec, deadline, blocking, 0, hp);
          Response(p).Some? ==> !Stalls(p)
      {
        var p := Problem(period, budget, exec, deadline, blocking, 0, hp);
        if Response(p).Some? { RoomyNeverStalls(p); }
      }
    } else {
      PartitionSupply.LsbfAtMost(period, budget, deadline);
      var exec: U64 := PartitionSupply.Lsbf(period, budget, deadline);
      var p := Problem(period, budget, exec, deadline, 0, 0, []);
      TightStalls(p);
      assert SchedulingVerified.Words([]) && NoJitter([]);
      assert !NeverStalls(period, budget, deadline);
    }
  }

  /** For instance 2^64 - 1 units of work in a partition that has the whole of period 2. */
  predicate IsStalledTask(p: Problem) {
    && p.period == p.budget == 2 && p.exec == p.deadline == MAX
    && p.blocking == p.jitter == 0 && p.hp == []
  }

  /** The no-progress exit is taken, although the task is feasible at its deadline. */
  lemma StallRejectsFeasible(p: Problem)
    requires IsStalledTask(p)
    ensures Word(p) && p.Valid() && p.Feasible(p.deadline) && Analyze(p, []) == Unschedulable
  {
    WholeSupply(p.period, p.deadline);
    TightStalls(p);
  }

  /** A partition that always holds the processor is credited with all the time there is. */
  lemma WholeSupply(period: nat, t: nat)
    requires 0 < period
    ensures PartitionSupply.Lsbf(period, period, t) == t
  {
    PartitionSupply.LsbfAtMost(period, period, t);
    FloorDivGreatest(period * t, period, t);
  }
}
