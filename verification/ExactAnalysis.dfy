/**
 The response-time analysis over unbounded integers: what the two paths are meant to compute,
 stated by scanning candidates, and the laws that relate the paths to each other.
 */
module ExactAnalysis {
  import opened Arith
  import opened Search
  import opened Demand
  import opened PartitionSupply

  /** One inner task under a partition (Π, Θ). `jitter` is the task's own extra release jitter. */
  datatype Problem = Problem(
    period: nat, budget: nat, exec: nat, deadline: nat, blocking: nat, jitter: nat, hp: seq<Hp>)
  {
    predicate Valid() {
      WellFormed(period, budget) && Periodic(hp)
    }

    function Dark(): nat
      requires Valid()
    {
      Blackout(period, budget)
    }

    function Work(t: nat): nat
      requires Valid()
    {
      Rbf(exec, blocking, hp, t)
    }

    predicate JitterFree() {
      jitter == 0 && NoJitter(hp)
    }

    /** The busy window `w` holds its own demand when each release may be delayed by the blackout. */
    predicate Settles(w: nat)
      requires Valid()
    {
      Work(w + Dark()) <= w
    }

    predicate Feasible(t: nat)
      requires Valid()
    {
      Work(t) <= Lsbf(period, budget, t)
    }
  }

  function Settling(p: Problem): nat -> bool
    requires p.Valid()
  {
    (w: nat) => p.Settles(w)
  }

  function Meeting(p: Problem): nat -> bool
    requires p.Valid()
  {
    (t: nat) => p.Feasible(t)
  }

  /** The busy window, when it fits in one budget. */
  function BusyWindow(p: Problem): Option<nat>
    requires p.Valid()
  {
    Least(Settling(p), 0, p.budget)
  }

  /** `min { t in (0, D] : rbf(t) <= lsbf(t) }`. */
  function LeastFeasible(p: Problem): Option<nat>
    requires p.Valid()
  {
    Least(Meeting(p), 1, p.deadline)
  }

  /** The response time of the exact decision, or none when the task is rejected. */
  function Response(p: Problem): Option<nat>
    requires p.Valid()
  {
    match BusyWindow(p)
    case Some(w) =>
      if p.Dark() + p.jitter + w <= p.deadline then Some(p.Dark() + p.jitter + w) else None
    case None =>
      if p.JitterFree() then LeastFeasible(p) else None
  }

  lemma BusyWindowMeans(p: Problem)
    requires p.Valid()
    ensures var r := BusyWindow(p);
      && (r.Some? ==> r.value <= p.budget && p.Settles(r.value))
      && forall w: nat | w <= p.budget && (r.Some? ==> w < r.value) :: !p.Settles(w)
  {
    forall w: nat | w <= p.budget && (BusyWindow(p).Some? ==> w < BusyWindow(p).value)
      ensures !p.Settles(w)
    {
      assert !Settling(p)(w);
    }
  }

  lemma LeastFeasibleMeans(p: Problem)
    requires p.Valid()
    ensures var r := LeastFeasible(p);
      && (r.Some? ==> 0 < r.value <= p.deadline && p.Feasible(r.value))
      && forall t: nat | 0 < t <= p.deadline && (r.Some? ==> t < r.value) :: !p.Feasible(t)
  {
    forall t: nat | 0 < t <= p.deadline && (LeastFeasible(p).Some? ==> t < LeastFeasible(p).value)
      ensures !p.Feasible(t)
    {
      assert !Meeting(p)(t);
    }
  }

  lemma LeastFeasibleIs(p: Problem, t: nat)
    requires p.Valid() && 0 < t <= p.deadline && p.Feasible(t)
    requires forall u: nat | 0 < u < t :: !p.Feasible(u)
    ensures LeastFeasible(p) == Some(t)
  {
    LeastIs(Meeting(p), 1, p.deadline, t);
  }

  lemma BusyWindowIs(p: Problem, w: nat)
    requires p.Valid() && w <= p.budget && p.Settles(w)
    requires forall v: nat | v < w :: !p.Settles(v)
    ensures BusyWindow(p) == Some(w)
  {
    LeastIs(Settling(p), 0, p.budget, w);
  }

  lemma WorkMono(p: Problem, t: nat, t': nat)
    requires p.Valid() && t <= t'
    ensures p.Work(t) <= p.Work(t')
  {
    InterferenceMono(p.hp, t, t');
  }

  /**
   The busy window is exactly the demand of the window it is claimed to fill, not merely an
   upper bound on it: it equals `rbf` at `2(Π - Θ) + w`.
   */
  lemma BusyWindowIsFixedPoint(p: Problem)
    requires p.Valid() && BusyWindow(p).Some?
    ensures p.Work(BusyWindow(p).value + p.Dark()) == BusyWindow(p).value
  {
    BusyWindowMeans(p);
    DemandSettles(p, BusyWindow(p).value);
  }

  /** If a window holds its demand, so does the window as long as that demand. */
  lemma DemandSettles(p: Problem, w: nat)
    requires p.Valid() && p.Settles(w)
    ensures p.Work(w + p.Dark()) <= w && p.Settles(p.Work(w + p.Dark()))
  {
    WorkMono(p, p.Work(w + p.Dark()) + p.Dark(), w + p.Dark());
  }

  /** Work that is absent from one window is absent from every window. */
  lemma NoWorkAnywhere(p: Problem, t: nat, t': nat)
    requires p.Valid() && 0 < t && p.Work(t) == 0
    ensures p.Work(t') == 0
  {
    if 0 < Interference(p.hp, t') { DemandPositive(p.hp, t', t); }
  }

  /** A feasible `t` with work to do lies above the blackout, and the rest of it settles. */
  lemma FeasibleSettles(p: Problem, t: nat)
    requires p.Valid() && p.Feasible(t) && 0 < p.Work(t)
    ensures p.Dark() < t && p.Settles(t - p.Dark())
  {
    LsbfAtMost(p.period, p.budget, t);
  }

  /** The jitter path is never looser than the demand-versus-supply search. */
  lemma PathDominance(p: Problem, t: nat)
    requires p.Valid() && BusyWindow(p).Some?
    requires p.Feasible(t) && 0 < p.Work(t)
    ensures p.Dark() + BusyWindow(p).value <= t
  {
    BusyWindowMeans(p);
    FeasibleSettles(p, t);
  }

  /** When the busy window does not fit in one budget, there is work in every window. */
  lemma DivergedHasWork(p: Problem, t: nat)
    requires p.Valid() && BusyWindow(p).None? && 0 < t
    ensures 0 < p.Work(t)
  {
    BusyWindowMeans(p);
    if p.Work(t) == 0 {
      NoWorkAnywhere(p, t, p.Dark());
      assert p.Settles(0);
    }
  }

  /**
   Soundness of an emitted response on either path, against real supply: with the own jitter
   set aside, every window of that length receives all the work that can be demanded in it.
   */
  lemma ResponseIsSupplied(p: Problem, s: Trace, a: nat)
    requires p.Valid() && Response(p).Some? && Delivers(s, p.period, p.budget)
    ensures p.jitter <= Response(p).value <= p.deadline
    ensures var l := Response(p).value - p.jitter; p.Work(l) <= Supplied(s, a, a + l)
  {
    BusyWindowMeans(p);
    if BusyWindow(p).Some? {
      BusyWindowIsFixedPoint(p);
      BudgetAfterBlackout(s, p.period, p.budget, a, BusyWindow(p).value);
    } else {
      LeastFeasibleMeans(p);
      SupplyAtLeastLsbf(s, p.period, p.budget, a, Response(p).value);
    }
  }

  // ---- The climbing form of the demand-versus-supply search ----

  /** The least `t` that could supply the demand of the window `t0`. */
  function Meet(p: Problem, t0: nat): nat
    requires p.Valid()
  {
    p.Dark() + CeilDiv(p.Work(t0) * p.period, p.budget)
  }

  lemma MeetSupplies(p: Problem, t0: nat)
    requires p.Valid() && 0 < p.Work(t0)
    ensures p.Work(t0) <= Lsbf(p.period, p.budget, Meet(p, t0))
  {
    LsbfMeets(p.period, p.budget, p.Work(t0), Meet(p, t0));
  }

  /** An infeasible `Meet(t0)` lies strictly above `t0`: over the naturals the climb cannot stall. */
  lemma MeetClimbs(p: Problem, t0: nat)
    requires p.Valid() && 0 < p.Work(t0)
    ensures !p.Feasible(Meet(p, t0)) ==> t0 < Meet(p, t0) && p.Work(t0) < p.Work(Meet(p, t0))
  {
    MeetSupplies(p, t0);
    if Meet(p, t0) <= t0 { WorkMono(p, Meet(p, t0), t0); }
  }

  /** Nothing feasible is skipped: `Meet` of a lower bound is again a lower bound. */
  lemma MeetStaysBelow(p: Problem, t0: nat, t: nat)
    requires p.Valid() && t0 <= t && p.Feasible(t) && 0 < p.Work(t0)
    ensures Meet(p, t0) <= t
  {
    WorkMono(p, t0, t);
    LsbfMeets(p.period, p.budget, p.Work(t0), t);
  }

  /** The climb without a cap on its steps, and the number of steps it takes. */
  function Climb(p: Problem, t: nat): (Option<nat>, nat)
    requires p.Valid() && 0 < p.Work(t)
    decreases if t <= p.deadline then p.deadline - t + 1 else 0
  {
    MeetClimbs(p, t);
    var next := Meet(p, t);
    if p.deadline < next then (None, 1)
    else if p.Feasible(next) then (Some(next), 1)
    else
      var (r, n) := Climb(p, next);
      (r, n + 1)
  }

  /**
   The climb finds what the scan finds, in at most one step more than the number of
   higher-priority releases that lie between its start and the deadline.
   */
  lemma {:induction false} ClimbIsLeast(p: Problem, t: nat)
    requires p.Valid() && 0 < p.Work(t)
    requires forall u: nat | p.Feasible(u) && 0 < u :: t <= u
    ensures Climb(p, t).0 == LeastFeasible(p)
    ensures t <= p.deadline ==>
      Climb(p, t).1 <= 1 + AllReleases(p.hp, p.deadline) - AllReleases(p.hp, t)
    decreases if t <= p.deadline then p.deadline - t + 1 else 0
  {
    MeetClimbs(p, t);
    var next := Meet(p, t);
    forall u: nat | p.Feasible(u) && 0 < u ensures next <= u { MeetStaysBelow(p, t, u); }
    if t <= p.deadline { DemandGrowsAtReleases(p.hp, t, p.deadline); }
    if p.deadline < next {
      LeastFeasibleMeans(p);
    } else if p.Feasible(next) {
      MeetIsPositive(p, t);
      LeastFeasibleIs(p, next);
    } else {
      DemandGrowsAtReleases(p.hp, t, next);
      ClimbIsLeast(p, next);
    }
  }

  lemma MeetIsPositive(p: Problem, t: nat)
    requires p.Valid() && 0 < p.Work(t)
    ensures 0 < Meet(p, t)
  {
    ProductPositive(p.Work(t), p.period);
    CeilDivLeast(p.Work(t) * p.period, p.budget, 0);
  }

  /** From the blackout edge the climb decides feasibility exactly, for any task with work to do. */
  lemma ClimbDecides(p: Problem)
    requires p.Valid() && 0 < p.Work(p.Dark())
    ensures Climb(p, p.Dark()).0 == LeastFeasible(p)
    ensures p.Dark() <= p.deadline ==>
      Climb(p, p.Dark()).1 <= 1 + AllReleases(p.hp, p.deadline)
  {
    forall u: nat | p.Feasible(u) && 0 < u ensures p.Dark() <= u {
      if p.Work(u) == 0 { NoWorkAnywhere(p, u, p.Dark()); } else { FeasibleSettles(p, u); }
    }
    ClimbIsLeast(p, p.Dark());
  }

  /** The climb is only ever entered with work to do. */
  lemma DivergedHasWorkAtEdge(p: Problem)
    requires p.Valid() && BusyWindow(p).None?
    ensures 0 < p.Work(p.Dark())
  {
    BusyWindowMeans(p);
    assert !p.Settles(0);
  }

  // ---- Sustainability ----

  predicate EasierTask(h': Hp, h: Hp) {
    h.period <= h'.period && h'.exec <= h.exec && h'.jitter <= h.jitter
  }

  /** `hp'` arises from `hp` by dropping tasks, lowering execution times or jitter, or raising periods. */
  predicate EasierTasks(hp': seq<Hp>, hp: seq<Hp>) {
    if hp == [] then hp' == []
    else
      var rest := hp[..|hp| - 1];
      || EasierTasks(hp', rest)
      || (hp' != [] && EasierTask(hp'[|hp'| - 1], hp[|hp| - 1]) && EasierTasks(hp'[..|hp'| - 1], rest))
  }

  /** Every parameter is at least as favourable; the partition period stays. */
  predicate Easier(p': Problem, p: Problem) {
    && p'.period == p.period && p.budget <= p'.budget
    && p'.exec <= p.exec && p'.blocking <= p.blocking && p'.jitter <= p.jitter
    && p.deadline <= p'.deadline
    && EasierTasks(p'.hp, p.hp)
  }

  lemma {:induction false} EasierInterference(hp': seq<Hp>, hp: seq<Hp>, t: nat, t': nat)
    requires Periodic(hp') && Periodic(hp) && EasierTasks(hp', hp) && t' <= t
    ensures Interference(hp', t') <= Interference(hp, t)
    ensures NoJitter(hp) ==> NoJitter(hp')
  {
    if hp != [] {
      var rest := hp[..|hp| - 1];
      if EasierTasks(hp', rest) {
        EasierInterference(hp', rest, t, t');
      } else {
        var h', h := hp'[|hp'| - 1], hp[|hp| - 1];
        EasierInterference(hp'[..|hp'| - 1], rest, t, t');
        EasierLoad(h', h, t, t');
      }
    }
  }

  lemma EasierLoad(h': Hp, h: Hp, t: nat, t': nat)
    requires 0 < h'.period && 0 < h.period && EasierTask(h', h) && t' <= t
    ensures Load(h', t') <= Load(h, t)
  {
    CeilDivMono(t' + h'.jitter, t + h.jitter, h'.period, h.period);
    MulMono(Releases(h', t'), Releases(h, t), h.exec);
    MulMono(h'.exec, h.exec, Releases(h', t'));
  }

  lemma EasierWork(p': Problem, p: Problem, t': nat, t: nat)
    requires p'.Valid() && p.Valid() && Easier(p', p) && t' <= t
    ensures p'.Work(t') <= p.Work(t)
  {
    EasierInterference(p'.hp, p.hp, t, t');
  }

  /**
   Making any parameter more favourable never turns acceptance into rejection and never
   lengthens the response, also when the change moves the task from one path to the other.
   */
  lemma ResponseIsSustainable(p': Problem, p: Problem)
    requires p'.Valid() && p.Valid() && Easier(p', p)
    requires Response(p).Some?
    ensures Response(p').Some? && Response(p').value <= Response(p).value
  {
    BusyWindowMeans(p');
    BusyWindowMeans(p);
    EasierInterference(p'.hp, p.hp, 0, 0);
    if BusyWindow(p).Some? {
      var w := BusyWindow(p).value;
      EasierWork(p', p, w + p'.Dark(), w + p.Dark());
      assert p'.Settles(w);
    } else {
      var t := Response(p).value;
      LeastFeasibleMeans(p);
      LeastFeasibleMeans(p');
      EasierWork(p', p, t, t);
      LsbfMono(p.period, p.budget, p'.budget, t, t);
      assert p'.Feasible(t);
      FallbackStaysAbove(p', p, t);
    }
  }

  /** The case where the easier task fits in one budget although the harder one did not. */
  lemma FallbackStaysAbove(p': Problem, p: Problem, t: nat)
    requires p'.Valid() && p.Valid() && Easier(p', p)
    requires BusyWindow(p).None? && 0 < t && p.Feasible(t) && p'.Feasible(t)
    ensures BusyWindow(p').Some? ==> p'.Dark() + BusyWindow(p').value <= t
  {
    DivergedHasWork(p, t);
    FeasibleSettles(p, t);
    if BusyWindow(p').Some? {
      if 0 < p'.Work(t) {
        PathDominance(p', t);
      } else {
        NoWorkAnywhere(p', t, p'.Dark());
        BusyWindowIs(p', 0);
      }
    }
  }
}
