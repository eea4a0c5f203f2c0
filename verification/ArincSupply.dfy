/**
 The supply-derived analysis of one inner task as it is computed: saturating 64-bit
 arithmetic, a capped climb, and the dispatch between the two paths.
 */
module ArincSupply {
  import opened Arith
  import opened Demand
  import opened ExactAnalysis
  import opened SchedulingVerified

  datatype Outcome =
    | JitterPath(response: U64, busyWindow: U64)
    | FallbackPath(response: U64)
    | DeadlineMiss(response: U64)
    | Unschedulable
    | IllFormed
    | DeclinedExtraJitter

  /** Every parameter is a 64-bit value and no higher-priority period is zero. */
  predicate Word(p: Problem) {
    && p.period <= MAX && p.budget <= MAX && p.exec <= MAX && p.deadline <= MAX
    && p.blocking <= MAX && p.jitter <= MAX && Words(p.hp)
  }

  function DerivedJitter(period: U64, budget: U64): U64 {
    SatMul(2, SatSub(period, budget))
  }

  function Quotient(a: U64, b: U64): U64
    requires 0 < b
  {
    MulMono(1, b, a);
    QuotientAtMost(a, b, a);
    a / b
  }

  function Lsbf(period: U64, budget: U64, t: U64): U64
    requires 0 < period
  {
    var blackout := DerivedJitter(period, budget);
    if t <= blackout then 0 else Quotient(SatMul(budget, t - blackout), period)
  }

  function DemandAt(exec: U64, blocking: U64, hp: seq<Hp>, t: U64): U64
    requires Words(hp)
  {
    Clamp(exec + blocking + SumJittered(hp, t))
  }

  method Rbf(exec: U64, blocking: U64, hp: seq<Hp>, t: U64) returns (total: U64)
    requires Words(hp)
    ensures total == DemandAt(exec, blocking, hp, t)
  {
    total := SatAdd(exec, blocking);
    for i := 0 to |hp|
      invariant total == DemandAt(exec, blocking, hp[..i], t)
    {
      assert hp[..i + 1][..i] == hp[..i];
      SatAddNext(exec + blocking, SumJittered(hp[..i], t), InterferenceJittered(hp[i], t));
      total := SatAdd(total, InterferenceJittered(hp[i], t));
    }
    assert hp[..|hp|] == hp;
  }

  lemma SatAddNext(x: nat, y: nat, z: U64)
    ensures SatAdd(Clamp(x + y), z) == Clamp(x + (y + z))
  {
  }

  // ---- Demand versus supply ----

  /** How the climb ends. All but the first are reported as unschedulable. */
  datatype Exit = Accepted(t: U64) | PastDeadline | Stalled | Exhausted

  function NextTime(p: Problem, t: U64): U64
    requires Word(p) && PartitionSupply.WellFormed(p.period, p.budget)
  {
    SatAdd(DerivedJitter(p.period, p.budget),
           CeilDiv(SatMul(DemandAt(p.exec, p.blocking, p.hp, t), p.period), p.budget))
  }

  predicate Passes(p: Problem, t: U64)
    requires Word(p) && PartitionSupply.WellFormed(p.period, p.budget)
  {
    DemandAt(p.exec, p.blocking, p.hp, t) <= Lsbf(p.period, p.budget, t)
  }

  /** The climb from `t` with at most `steps` evaluations. */
  function ClimbSteps(p: Problem, t: U64, steps: nat): Exit
    requires Word(p) && PartitionSupply.WellFormed(p.period, p.budget)
    decreases steps
  {
    if steps == 0 then Exhausted
    else
      var next := NextTime(p, t);
      if p.deadline < next then PastDeadline
      else if Passes(p, next) then Accepted(next)
      else if next == t then Stalled
      else ClimbSteps(p, next, steps - 1)
  }

  /** The number of evaluations the loop allows itself. */
  function Cap(p: Problem): nat {
    |p.hp| + 3
  }

  function FallbackExit(p: Problem): Exit
    requires Word(p) && PartitionSupply.WellFormed(p.period, p.budget)
  {
    ClimbSteps(p, DerivedJitter(p.period, p.budget), Cap(p))
  }

  function Fallback(p: Problem): Outcome
    requires Word(p) && PartitionSupply.WellFormed(p.period, p.budget)
  {
    if p.deadline <= DerivedJitter(p.period, p.budget) then Unschedulable
    else match FallbackExit(p)
      case Accepted(t) => FallbackPath(t)
      case _ => Unschedulable
  }

  method FallbackDemandVsSupply(
      period: U64, budget: U64, exec: U64, deadline: U64, blocking: U64, hp: seq<Hp>)
    returns (outcome: Outcome)
    requires PartitionSupply.WellFormed(period, budget) && Words(hp)
    ensures outcome == Fallback(Problem(period, budget, exec, deadline, blocking, 0, hp))
  {
    ghost var p := Problem(period, budget, exec, deadline, blocking, 0, hp);
    var blackout := DerivedJitter(period, budget);
    if deadline <= blackout {
      return Unschedulable;
    }
    var t := blackout;
    for i := 0 to |hp| + 3
      invariant ClimbSteps(p, t, Cap(p) - i) == FallbackExit(p)
    {
      var demand := Rbf(exec, blocking, hp, t);
      var next := SatAdd(blackout, CeilDiv(SatMul(demand, period), budget));
      if deadline < next {
        return Unschedulable;
      }
      var raised := Rbf(exec, blocking, hp, next);
      if raised <= Lsbf(period, budget, next) {
        return FallbackPath(next);
      }
      if next == t {
        return Unschedulable;
      }
      t := next;
    }
    return Unschedulable;
  }

  // ---- The two-path dispatch ----

  /** The higher-priority tasks with the supply-derived jitter injected. */
  function Delayed(hp: seq<Hp>, blackout: U64): (r: seq<Hp>)
    requires Words(hp)
    ensures Words(r) && |r| == |hp|
    ensures forall j | 0 <= j < |hp| ::
      r[j] == Hp(hp[j].period, hp[j].exec, SatAdd(blackout, hp[j].jitter))
  {
    seq(|hp|, j requires 0 <= j < |hp| => Hp(hp[j].period, hp[j].exec, SatAdd(blackout, hp[j].jitter)))
  }

  function Analyze(p: Problem, isr: seq<Isr>): Outcome
    requires Word(p) && IsrWords(isr)
  {
    if !PartitionSupply.WellFormed(p.period, p.budget) then IllFormed
    else
      var blackout := DerivedJitter(p.period, p.budget);
      match LeastSettled(p.exec, p.budget, 0, p.blocking, Delayed(p.hp, blackout), isr)
      case Converged(w) =>
        var response := SatAdd(SatAdd(blackout, p.jitter), w);
        if response <= p.deadline then JitterPath(response, w) else DeadlineMiss(response)
      case Diverged =>
        if p.JitterFree() then Fallback(p) else DeclinedExtraJitter
  }

  method AnalyzeTask(
      period: U64, budget: U64, exec: U64, deadline: U64, blocking: U64, ownJitter: U64,
      hp: seq<Hp>, isr: seq<Isr>)
    returns (outcome: Outcome)
    requires Words(hp) && IsrWords(isr)
    ensures outcome == Analyze(Problem(period, budget, exec, deadline, blocking, ownJitter, hp), isr)
  {
    ghost var p := Problem(period, budget, exec, deadline, blocking, ownJitter, hp);
    if period == 0 || budget == 0 || period < budget {
      return IllFormed;
    }
    var blackout := DerivedJitter(period, budget);
    var delayed := Delayed(hp, blackout);
    var result := ComputeResponseTimeJitteredBlocking(exec, budget, 0, blocking, delayed, isr);
    match result {
      case Converged(w) =>
        var response := SatAdd(SatAdd(blackout, ownJitter), w);
        if response <= deadline {
          outcome := JitterPath(response, w);
        } else {
          outcome := DeadlineMiss(response);
        }
      case Diverged =>
        if 0 < ownJitter || exists j :: 0 <= j < |hp| && 0 < hp[j].jitter {
          return DeclinedExtraJitter;
        }
        assert p.JitterFree();
        outcome := FallbackDemandVsSupply(period, budget, exec, deadline, blocking, hp);
    }
  }
}
