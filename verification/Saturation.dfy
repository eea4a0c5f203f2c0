/**
 What the saturating, capped analysis of `ArincSupply` has to do with the exact analysis of
 `ExactAnalysis`: emitted numbers are exact where they are representable, rejections are right
 except when the climb runs out of steps or out of range, and the two gaps are pinned down.
 */
module Saturation {
  import opened Arith
  import opened Demand
  import opened ExactAnalysis
  import opened SchedulingVerified
  import opened ArincSupply
  import opened PS = PartitionSupply

  // ---- Sums ----

  lemma DelayedPrefix(hp: seq<Hp>, b: U64)
    requires Words(hp) && hp != []
    ensures Delayed(hp, b)[..|hp| - 1] == Delayed(hp[..|hp| - 1], b)
  {
  }

  /** Each saturated term is at most the exact one. */
  lemma TermBelow(h: Hp, b: U64, dark: nat, w: U64)
    requires 0 < h.period && h.exec <= MAX && h.jitter <= MAX && b <= dark
    ensures InterferenceJittered(Hp(h.period, h.exec, SatAdd(b, h.jitter)), w) <= Load(h, w + dark)
  {
    var x := SatAdd(w, SatAdd(b, h.jitter));
    CeilDivMono(x, w + dark + h.jitter, h.period, h.period);
    MulMono(CeilDiv(x, h.period), Releases(h, w + dark), h.exec);
  }

  lemma {:induction false} SumBelow(hp: seq<Hp>, b: U64, dark: nat, w: U64)
    requires Words(hp) && b <= dark
    ensures SumJittered(Delayed(hp, b), w) <= Interference(hp, w + dark)
  {
    if hp != [] {
      DelayedPrefix(hp, b);
      SumBelow(hp[..|hp| - 1], b, dark, w);
      TermBelow(hp[|hp| - 1], b, dark, w);
    }
  }

  lemma TermExact(h: Hp, b: U64, w: U64)
    requires 0 < h.period && h.exec <= MAX && h.jitter <= MAX && w + b + h.jitter <= MAX
    ensures InterferenceJittered(Hp(h.period, h.exec, SatAdd(b, h.jitter)), w) == Clamp(Load(h, w + b))
  {
  }

  /** While no argument of a ceiling wraps, saturating the terms only saturates the sum. */
  lemma {:induction false} SumExact(hp: seq<Hp>, b: U64, w: U64, c: nat)
    requires Words(hp)
    requires w + b <= MAX && forall j | 0 <= j < |hp| :: w + b + hp[j].jitter <= MAX
    ensures Clamp(c + SumJittered(Delayed(hp, b), w)) == Clamp(c + Interference(hp, w + b))
  {
    if hp != [] {
      var h := hp[|hp| - 1];
      DelayedPrefix(hp, b);
      SumExact(hp[..|hp| - 1], b, w, c);
      TermExact(h, b, w);
      ClampTerm(c, SumJittered(Delayed(hp[..|hp| - 1], b), w), Interference(hp[..|hp| - 1], w + b), Load(h, w + b));
    }
  }

  lemma ClampTerm(c: nat, x: nat, y: nat, z: nat)
    requires Clamp(c + x) == Clamp(c + y)
    ensures Clamp(c + (x + Clamp(z))) == Clamp(c + (y + z))
  {
  }

  lemma DelayedByNothing(hp: seq<Hp>)
    requires Words(hp)
    ensures Delayed(hp, 0) == hp
  {
  }

  lemma DarkBelow(p: Problem)
    requires Word(p) && p.Valid()
    ensures DerivedJitter(p.period, p.budget) == Clamp(p.Dark())
  {
  }

  // ---- The fallback's evaluations ----

  /** Without extra jitter the saturated demand is the exact demand, saturated once. */
  lemma DemandIsClamped(p: Problem, t: U64)
    requires Word(p) && p.Valid() && p.JitterFree()
    ensures DemandAt(p.exec, p.blocking, p.hp, t) == Clamp(p.Work(t))
  {
    DelayedByNothing(p.hp);
    SumExact(p.hp, 0, t, p.exec + p.blocking);
  }

  lemma QuotientMono(a: nat, a': nat, b: nat)
    requires 0 < b && a <= a'
    ensures a / b <= a' / b
  {
    FloorDivGreatest(a, b, a / b);
    FloorDivGreatest(a', b, a / b);
  }

  lemma HalfAtMost(a: U64, b: nat)
    requires 2 <= b
    ensures a / b < MAX
  {
    MulMono(2, b, MAX - 1);
    QuotientAtMost(a, b, MAX - 1);
  }

  lemma LsbfBelow(p: Problem, t: U64)
    requires Word(p) && p.Valid()
    ensures ArincSupply.Lsbf(p.period, p.budget, t) <= PS.Lsbf(p.period, p.budget, t)
    ensures 2 <= p.period ==> ArincSupply.Lsbf(p.period, p.budget, t) < MAX
    ensures p.period == 1 ==> ArincSupply.Lsbf(p.period, p.budget, t) <= t
  {
    DarkBelow(p);
    if p.Dark() < t {
      var exact := p.budget * (t - p.Dark());
      QuotientMono(Clamp(exact), exact, p.period);
      if 2 <= p.period { HalfAtMost(Clamp(exact), p.period); }
    }
  }

  /** A candidate that passes in saturating arithmetic is feasible, unless it is the largest word. */
  lemma PassingIsFeasible(p: Problem, t: U64)
    requires Word(p) && p.Valid() && p.JitterFree() && Passes(p, t)
    requires 2 <= p.period || t < MAX
    ensures p.Feasible(t)
  {
    DemandIsClamped(p, t);
    LsbfBelow(p, t);
  }

  /** The saturated step never overshoots the exact one. */
  lemma NextBelow(p: Problem, t: U64)
    requires Word(p) && p.Valid() && p.JitterFree()
    ensures NextTime(p, t) <= Meet(p, t)
  {
    DemandIsClamped(p, t);
    DarkBelow(p);
    MulMono(Clamp(p.Work(t)), p.Work(t), p.period);
    CeilDivMono(SatMul(Clamp(p.Work(t)), p.period), p.Work(t) * p.period, p.budget, p.budget);
  }

  /**
   Every exit of the saturating climb but the last two is right over the naturals, whatever
   saturated on the way: an accepted time is below every feasible one, and passing the
   deadline means that nothing within it is feasible.
   */
  lemma {:induction false} ClimbIsConservative(p: Problem, t: U64, steps: nat)
    requires Word(p) && p.Valid() && p.JitterFree()
    requires forall u: nat | 0 < u && p.Feasible(u) :: t <= u && 0 < p.Work(t)
    ensures match ClimbSteps(p, t, steps)
            case Accepted(r) => r <= p.deadline && Passes(p, r) && forall u: nat | 0 < u && p.Feasible(u) :: r <= u
            case PastDeadline => forall u: nat | 0 < u && p.Feasible(u) :: p.deadline < u
            case _ => true
    decreases steps
  {
    if 0 < steps {
      var next := NextTime(p, t);
      NextBelow(p, t);
      forall u: nat | 0 < u && p.Feasible(u) ensures next <= u && 0 < p.Work(next) {
        MeetStaysBelow(p, t, u);
        StillWork(p, t, next);
      }
      if next <= p.deadline && !Passes(p, next) && next != t {
        ClimbIsConservative(p, next, steps - 1);
      }
    }
  }

  lemma StillWork(p: Problem, t: nat, next: U64)
    requires Word(p) && p.Valid() && p.JitterFree() && t <= MAX && 0 < p.Work(t) && next == NextTime(p, t)
    ensures 0 < p.Work(next)
  {
    DemandIsClamped(p, t);
    ProductPositive(DemandAt(p.exec, p.blocking, p.hp, t), p.period);
    CeilDivLeast(SatMul(DemandAt(p.exec, p.blocking, p.hp, t), p.period), p.budget, 0);
    if p.Work(next) == 0 { NoWorkAnywhere(p, next, t); }
  }

  // ---- The jitter path's evaluations ----

  function Step64(p: Problem, w: U64): U64
    requires Word(p)
  {
    Step(p.exec, 0, p.blocking, Delayed(p.hp, DerivedJitter(p.period, p.budget)), [], w)
  }

  lemma StepBelow(p: Problem, w: U64)
    requires Word(p) && p.Valid()
    ensures Step64(p, w) <= p.Work(w + p.Dark())
  {
    DarkBelow(p);
    SumBelow(p.hp, DerivedJitter(p.period, p.budget), p.Dark(), w);
  }

  function Window64(p: Problem): RtaResult
    requires Word(p)
  {
    LeastSettled(p.exec, p.budget, 0, p.blocking, Delayed(p.hp, DerivedJitter(p.period, p.budget)), [])
  }

  /** The saturating scan never stops above the exact busy window. */
  lemma WindowBelow(p: Problem, v: nat)
    requires Word(p) && p.Valid() && p.Settles(v)
    ensures match Window64(p) case Converged(w) => w <= v case Diverged => p.budget < v
  {
    LeastSettledMeans(p.exec, p.budget, 0, p.blocking, Delayed(p.hp, DerivedJitter(p.period, p.budget)), []);
    if v <= p.budget { StepBelow(p, v); }
  }

  /** When nothing wraps at the window it found, the scan found the exact busy window. */
  lemma WindowExact(p: Problem)
    requires Word(p) && p.Valid() && Window64(p).Converged?
    requires var w := Window64(p).value;
      w < MAX && w + p.Dark() <= MAX && forall j | 0 <= j < |p.hp| :: w + p.Dark() + p.hp[j].jitter <= MAX
    ensures BusyWindow(p) == Some(Window64(p).value)
  {
    var w := Window64(p).value;
    LeastSettledMeans(p.exec, p.budget, 0, p.blocking, Delayed(p.hp, DerivedJitter(p.period, p.budget)), []);
    DarkBelow(p);
    SumExact(p.hp, DerivedJitter(p.period, p.budget), w, p.exec + p.blocking);
    assert p.Settles(w);
    forall v: nat | v < w ensures !p.Settles(v) {
      if p.Settles(v) { WindowBelow(p, v); }
    }
    BusyWindowIs(p, w);
  }

  lemma DivergedIsExact(p: Problem)
    requires Word(p) && p.Valid() && Window64(p).Diverged?
    ensures BusyWindow(p).None?
  {
    BusyWindowMeans(p);
    if BusyWindow(p).Some? { WindowBelow(p, BusyWindow(p).value); }
  }

  lemma EdgeHasWork(p: Problem)
    requires Word(p) && p.Valid() && BusyWindow(p).None?
    ensures 0 < p.Work(DerivedJitter(p.period, p.budget))
  {
    DarkBelow(p);
    DivergedHasWorkAtEdge(p);
    DivergedHasWork(p, MAX);
  }

  /** From the blackout edge, where the climb starts. */
  lemma FallbackIsConservative(p: Problem)
    requires Word(p) && p.Valid() && p.JitterFree() && BusyWindow(p).None?
    ensures match FallbackExit(p)
            case Accepted(r) => r <= p.deadline && Passes(p, r) && forall u: nat | 0 < u && p.Feasible(u) :: r <= u
            case PastDeadline => LeastFeasible(p).None?
            case _ => true
    ensures p.deadline <= DerivedJitter(p.period, p.budget) ==> LeastFeasible(p).None?
  {
    DarkBelow(p);
    LeastFeasibleMeans(p);
    var edge := DerivedJitter(p.period, p.budget);
    EdgeHasWork(p);
    forall u: nat | 0 < u && p.Feasible(u) ensures edge < u {
      DivergedHasWork(p, u);
      FeasibleSettles(p, u);
    }
    ClimbIsConservative(p, edge, Cap(p));
  }

  // ---- Interrupts and own jitter in the recurrence ----

  /**
   Every argument of the recurrence in terms of demand: interrupts count like tasks without jitter,
   and the own jitter, execution time and blocking once. The saturating step is that, saturated once.
   */
  lemma StepIsDemand(exec: U64, jitter: U64, blocking: U64, hp: seq<Hp>, isr: seq<Isr>, r: U64)
    requires Words(hp) && IsrWords(isr) && forall j | 0 <= j < |hp| :: r + hp[j].jitter <= MAX
    ensures Words(hp + AsThreads(isr))
    ensures Step(exec, jitter, blocking, hp, isr, r)
         == Clamp(exec + jitter + blocking + Interference(hp + AsThreads(isr), r))
  {
    var all := hp + AsThreads(isr);
    InterruptsAreThreads(isr, r);
    WordsAppend(hp, AsThreads(isr));
    SumAppend(hp, AsThreads(isr), r);
    DelayedByNothing(all);
    SumExact(all, 0, r, exec + jitter + blocking);
  }

  /** The least window that holds its own demand, with interrupts, when nothing wraps up to the bound. */
  lemma DriverFindsDemand(exec: U64, bound: U64, jitter: U64, blocking: U64, hp: seq<Hp>, isr: seq<Isr>)
    requires Words(hp) && IsrWords(isr) && bound < MAX && forall j | 0 <= j < |hp| :: bound + hp[j].jitter <= MAX
    ensures Words(hp + AsThreads(isr))
    ensures var found := LeastSettled(exec, bound, jitter, blocking, hp, isr);
      && (found.Converged? ==>
            found.value <= bound
            && exec + jitter + blocking + Interference(hp + AsThreads(isr), found.value) <= found.value)
      && forall x: nat | x <= bound && (found.Converged? ==> x < found.value) ::
           x < exec + jitter + blocking + Interference(hp + AsThreads(isr), x)
  {
    LeastSettledMeans(exec, bound, jitter, blocking, hp, isr);
    forall x: U64 | x <= bound
      ensures Step(exec, jitter, blocking, hp, isr, x)
           == Clamp(exec + jitter + blocking + Interference(hp + AsThreads(isr), x))
    {
      StepIsDemand(exec, jitter, blocking, hp, isr, x);
    }
  }

  // ---- Emitted bounds ----

  /** The bound a caller is given, if one is emitted. */
  function Emitted(o: Outcome): Option<U64> {
    match o
    case JitterPath(r, _) => Some(r)
    case FallbackPath(r) => Some(r)
    case _ => None
  }

  /**
   A partition, a deadline and a limit on extra jitter for which 64 bits hold every number that
   can be emitted, and every ceiling that goes into it.
   */
  predicate Representable(period: U64, budget: U64, deadline: U64, jitter: U64)
    requires WellFormed(period, budget)
  {
    var edge := Blackout(period, budget);
    && (deadline < MAX || (2 <= period && budget < MAX && edge + budget <= MAX))
    && (deadline <= edge || Min(deadline, edge + budget) + jitter <= MAX)
  }

  /** No extra jitter of the task or of a higher-priority task exceeds the limit. */
  predicate JitterUpTo(p: Problem, limit: nat) {
    p.jitter <= limit && forall j | 0 <= j < |p.hp| :: p.hp[j].jitter <= limit
  }

  /**
   The bound emitted for the task, if any, and the numbers that it is made of keep clear of the
   top of the range. On the fallback path nothing but period 1 can be wrong.
   */
  predicate KeepsClear(p: Problem) {
    && Word(p) && p.Valid()
    && match Analyze(p, [])
       case JitterPath(_, w) =>
         && w < MAX && p.Dark() + p.jitter + w <= MAX
         && (w == 0 || forall j | 0 <= j < |p.hp| :: w + p.Dark() + p.hp[j].jitter <= MAX)
       case FallbackPath(t) => 2 <= p.period || t < MAX
       case _ => true
  }

  lemma {:induction false} NothingSaturates(hp: seq<Hp>, dark: nat)
    requires Words(hp) && SumJittered(Delayed(hp, Clamp(dark)), 0) == 0
    ensures Interference(hp, dark) == 0
  {
    if hp != [] {
      var h := hp[|hp| - 1];
      DelayedPrefix(hp, Clamp(dark));
      NothingSaturates(hp[..|hp| - 1], dark);
      ProductPositive(CeilDiv(SatAdd(0, SatAdd(Clamp(dark), h.jitter)), h.period), h.exec);
      ProductPositive(Releases(h, dark), h.exec);
    }
  }

  /** An empty busy window is exact whatever saturates. */
  lemma EmptyWindowExact(p: Problem)
    requires Word(p) && p.Valid() && Window64(p) == Converged(0)
    ensures BusyWindow(p) == Some(0)
  {
    LeastSettledMeans(p.exec, p.budget, 0, p.blocking, Delayed(p.hp, DerivedJitter(p.period, p.budget)), []);
    DarkBelow(p);
    NothingSaturates(p.hp, p.Dark());
    BusyWindowIs(p, 0);
  }

  /** A window that leads to an emitted bound keeps clear of the top of the range, or is empty. */
  lemma EmittedWindowExact(p: Problem)
    requires KeepsClear(p) && Analyze(p, []).JitterPath?
    ensures Response(p) == Some(Analyze(p, []).response) && BusyWindow(p) == Some(Analyze(p, []).busyWindow)
  {
    DarkBelow(p);
    if Analyze(p, []).busyWindow == 0 { EmptyWindowExact(p); } else { WindowExact(p); }
  }

  /** A time emitted by the fallback is the least feasible one, whatever saturated on the way to it. */
  lemma EmittedTimeExact(p: Problem)
    requires KeepsClear(p) && Analyze(p, []).FallbackPath?
    ensures Response(p) == Some(Analyze(p, []).response) && BusyWindow(p).None?
  {
    var t := Analyze(p, []).response;
    DivergedIsExact(p);
    FallbackIsConservative(p);
    StartIsPositive(p, t);
    PassingIsFeasible(p, t);
    LeastFeasibleIs(p, t);
  }

  /** An emitted bound is the response of the exact analysis, on the path the exact analysis takes. */
  lemma EmittedIsExact(p: Problem)
    requires KeepsClear(p)
    ensures match Analyze(p, [])
            case JitterPath(r, w) => Response(p) == Some(r) && BusyWindow(p) == Some(w)
            case FallbackPath(t) => Response(p) == Some(t) && BusyWindow(p).None?
            case _ => true
  {
    if Analyze(p, []).JitterPath? { EmittedWindowExact(p); }
    if Analyze(p, []).FallbackPath? { EmittedTimeExact(p); }
  }

  /** Where every bound is representable, the bound of each task keeps clear. */
  lemma RepresentableKeepsClear(p: Problem, limit: U64)
    requires Word(p) && p.Valid() && JitterUpTo(p, limit) && Representable(p.period, p.budget, p.deadline, limit)
    ensures KeepsClear(p)
  {
    DarkBelow(p);
    LeastSettledMeans(p.exec, p.budget, 0, p.blocking, Delayed(p.hp, DerivedJitter(p.period, p.budget)), []);
    if Analyze(p, []).FallbackPath? {
      DivergedIsExact(p);
      FallbackIsConservative(p);
    }
  }

  /** An accepted time is positive: it lies above the edge where there is already work. */
  lemma StartIsPositive(p: Problem, t: U64)
    requires Word(p) && p.Valid() && p.JitterFree() && BusyWindow(p).None? && Fallback(p) == FallbackPath(t)
    ensures 0 < t
  {
    EdgeHasWork(p);
    FirstStepPositive(p, DerivedJitter(p.period, p.budget), Cap(p));
  }

  lemma {:induction false} FirstStepPositive(p: Problem, t: U64, steps: nat)
    requires Word(p) && p.Valid() && p.JitterFree() && 0 < p.Work(t)
    ensures ClimbSteps(p, t, steps) != Accepted(0)
    decreases steps
  {
    if 0 < steps {
      DemandIsClamped(p, t);
      ProductPositive(DemandAt(p.exec, p.blocking, p.hp, t), p.period);
      CeilDivLeast(SatMul(DemandAt(p.exec, p.blocking, p.hp, t), p.period), p.budget, 0);
      StillWork(p, t, NextTime(p, t));
      FirstStepPositive(p, NextTime(p, t), steps - 1);
    }
  }

  /** Every refusal is right over the naturals, unless the climb stalled or ran out of steps. */
  lemma RejectionIsRight(p: Problem)
    requires Word(p) && p.Valid()
    ensures match Analyze(p, [])
            case DeadlineMiss(_) => Response(p).None?
            case DeclinedExtraJitter => Response(p).None?
            case Unschedulable =>
              Response(p).Some? ==> FallbackExit(p).Stalled? || FallbackExit(p).Exhausted?
            case _ => true
  {
    DarkBelow(p);
    match Analyze(p, []) {
      case DeadlineMiss(_) =>
        LateWindowRejects(p);
      case DeclinedExtraJitter =>
        DivergedIsExact(p);
      case Unschedulable =>
        DivergedIsExact(p);
        FallbackIsConservative(p);
      case _ =>
    }
  }

  /** Which refusals are possible, in terms of the exact analysis. */
  lemma RefusalKinds(p: Problem)
    requires Word(p)
    ensures Analyze(p, []) == IllFormed <==> p.budget == 0 || p.period < p.budget
    ensures p.Valid() && Analyze(p, []) == DeclinedExtraJitter ==> BusyWindow(p).None? && !p.JitterFree()
    ensures p.Valid() && !p.JitterFree() && BusyWindow(p).None? && BoundedJitter(p) ==> Analyze(p, []) == DeclinedExtraJitter
  {
    if p.Valid() {
      if Window64(p).Diverged? { DivergedIsExact(p); } else if BoundedJitter(p) { BoundedWindowExact(p); }
    }
  }

  /** No ceiling that the window of the task needs wraps. */
  predicate BoundedJitter(p: Problem)
    requires Word(p) && p.Valid()
  {
    p.budget < MAX && p.Dark() + p.budget <= MAX && forall j | 0 <= j < |p.hp| :: p.Dark() + p.budget + p.hp[j].jitter <= MAX
  }

  lemma BoundedWindowExact(p: Problem)
    requires Word(p) && p.Valid() && BoundedJitter(p) && Window64(p).Converged?
    ensures BusyWindow(p) == Some(Window64(p).value)
  {
    LeastSettledMeans(p.exec, p.budget, 0, p.blocking, Delayed(p.hp, DerivedJitter(p.period, p.budget)), []);
    WindowExact(p);
  }

  /** The number in a reported miss: the blackout, the own jitter and the exact busy window. */
  lemma MissIsExact(p: Problem)
    requires Word(p) && p.Valid() && BoundedJitter(p) && p.Dark() + p.budget + p.jitter <= MAX
    ensures match Analyze(p, [])
            case DeadlineMiss(r) => BusyWindow(p).Some? && r == p.Dark() + p.jitter + BusyWindow(p).value && p.deadline < r
            case _ => true
  {
    DarkBelow(p);
    if Analyze(p, []).DeadlineMiss? {
      LeastSettledMeans(p.exec, p.budget, 0, p.blocking, Delayed(p.hp, DerivedJitter(p.period, p.budget)), []);
      BoundedWindowExact(p);
    }
  }

  lemma LateWindowRejects(p: Problem)
    requires Word(p) && p.Valid() && Analyze(p, []).DeadlineMiss?
    ensures Response(p).None?
  {
    DarkBelow(p);
    BusyWindowMeans(p);
    LeastFeasibleMeans(p);
    if BusyWindow(p).Some? {
      WindowBelow(p, BusyWindow(p).value);
    } else if Response(p).Some? {
      var t := Response(p).value;
      DivergedHasWork(p, t);
      FeasibleSettles(p, t);
      WindowBelow(p, t - p.Dark());
    }
  }

  /**
   With interrupts: a busy window that is reported is the least one that holds its demand, where
   interrupts are not delayed by the blackout; and if it does not fit, interrupts play no part.
   */
  lemma InterruptsInAnalysis(p: Problem, isr: seq<Isr>)
    requires Word(p) && p.Valid() && IsrWords(isr) && BoundedJitter(p)
    ensures Words(Delayed(p.hp, DerivedJitter(p.period, p.budget)) + AsThreads(isr))
    ensures var demand := Delayed(p.hp, DerivedJitter(p.period, p.budget)) + AsThreads(isr);
      match Analyze(p, isr)
      case JitterPath(_, w) =>
        && w <= p.budget && p.exec + p.blocking + Interference(demand, w) <= w
        && forall x: nat | x < w :: x < p.exec + p.blocking + Interference(demand, x)
      case DeadlineMiss(_) => true
      case other =>
        && other == (if p.JitterFree() then Fallback(p) else DeclinedExtraJitter)
        && forall x: nat | x <= p.budget :: x < p.exec + p.blocking + Interference(demand, x)
  {
    DarkBelow(p);
    DriverFindsDemand(p.exec, p.budget, 0, p.blocking, Delayed(p.hp, DerivedJitter(p.period, p.budget)), isr);
  }

  // ---- Where 64 bits are too few ----

  ghost predicate AlwaysExact(period: U64, budget: U64, deadline: U64, limit: U64)
    requires WellFormed(period, budget)
  {
    forall exec: U64, blocking: U64, jitter: U64, hp: seq<Hp> | Words(hp) ::
      var p := Problem(period, budget, exec, deadline, blocking, jitter, hp);
      var r := Emitted(Analyze(p, []));
      JitterUpTo(p, limit) && r.Some? ==> Response(p) == r
  }

  lemma RepresentableSuffices(period: U64, budget: U64, deadline: U64, limit: U64)
    requires WellFormed(period, budget) && Representable(period, budget, deadline, limit)
    ensures AlwaysExact(period, budget, deadline, limit)
  {
    forall exec: U64, blocking: U64, jitter: U64, hp: seq<Hp> | Words(hp)
      ensures var p := Problem(period, budget, exec, deadline, blocking, jitter, hp);
        var r := Emitted(Analyze(p, []));
        JitterUpTo(p, limit) && r.Some? ==> Response(p) == r
    {
      var p := Problem(period, budget, exec, deadline, blocking, jitter, hp);
      if JitterUpTo(p, limit) { EmittedResponse(p, limit); }
    }
  }

  lemma EmittedResponse(p: Problem, limit: U64)
    requires Word(p) && p.Valid() && JitterUpTo(p, limit) && Representable(p.period, p.budget, p.deadline, limit)
    ensures var r := Emitted(Analyze(p, [])); r.Some? ==> Response(p) == r
  {
    RepresentableKeepsClear(p, limit);
    EmittedIsExact(p);
  }

  lemma WrongIsNotExact(p: Problem, limit: U64)
    requires Word(p) && p.Valid() && JitterUpTo(p, limit) && Wrong(p)
    ensures !AlwaysExact(p.period, p.budget, p.deadline, limit)
  {
    assert p == Problem(p.period, p.budget, p.exec, p.deadline, p.blocking, p.jitter, p.hp);
  }

  /**
   For which partitions, deadlines and limits on extra jitter every emitted bound is the exact
   response. Without jitter: all, except the largest deadline together with a partition of
   period 1, of budget `MAX`, or whose blackout and budget exceed a word. With jitter, the
   longest window that can be emitted must leave room for it below the largest word.
   */
  lemma RepresentableIsExact(period: U64, budget: U64, deadline: U64, limit: U64)
    requires WellFormed(period, budget)
    ensures AlwaysExact(period, budget, deadline, limit) <==> Representable(period, budget, deadline, limit)
  {
    if Representable(period, budget, deadline, limit) {
      RepresentableSuffices(period, budget, deadline, limit);
    } else {
      var p := WrongTask(period, budget, deadline, limit);
      UnrepresentableIsWrong(period, budget, deadline, limit);
      WrongIsNotExact(p, limit);
    }
  }

  /** A task that gets a bound it does not meet. */
  function WrongTask(period: U64, budget: U64, deadline: U64, limit: U64): (p: Problem)
    requires WellFormed(period, budget) && !Representable(period, budget, deadline, limit)
  {
    if deadline < MAX || Representable(period, budget, deadline, 0) then
      var window := WidestWindow(period, budget, deadline);
      Problem(period, budget, window - 1, deadline, 0, 0, [Hp(MAX, 1, limit)])
    else if period == 1 || budget == MAX then Problem(period, budget, MAX, MAX, MAX, 0, [])
    else Problem(period, budget, budget, MAX, 0, 0, [])
  }

  /** The longest busy window that can lead to a bound. */
  function WidestWindow(period: U64, budget: U64, deadline: U64): (w: U64)
    requires WellFormed(period, budget)
    ensures Blackout(period, budget) < deadline ==>
      0 < w <= budget && Blackout(period, budget) + w == Min(deadline, Blackout(period, budget) + budget)
  {
    if deadline <= Blackout(period, budget) then 1 else Min(deadline - Blackout(period, budget), budget)
  }

  /** The analysis emits a number that is not the response. */
  predicate Wrong(p: Problem)
    requires Word(p) && p.Valid()
  {
    Emitted(Analyze(p, [])).Some? && Response(p) != Emitted(Analyze(p, []))
  }

  lemma UnrepresentableIsWrong(period: U64, budget: U64, deadline: U64, limit: U64)
    requires WellFormed(period, budget) && !Representable(period, budget, deadline, limit)
    ensures var p := WrongTask(period, budget, deadline, limit);
      && Word(p) && p.Valid() && p.period == period && p.budget == budget && p.deadline == deadline
      && JitterUpTo(p, limit) && Wrong(p)
  {
    var p := WrongTask(period, budget, deadline, limit);
    if deadline < MAX || Representable(period, budget, deadline, 0) {
      CeilingWraps(p, WidestWindow(period, budget, deadline), MAX);
    } else if period == 1 || budget == MAX {
      WholeWordWrong(p);
    } else {
      WholeBudgetWrong(p);
    }
  }

  /** Work beyond the largest word, with period 1 or the largest budget. */
  lemma WholeWordWrong(p: Problem)
    requires Word(p) && p.Valid() && (p.period == 1 || p.budget == MAX)
    requires p.exec == p.blocking == p.deadline == MAX && p.jitter == 0 && p.hp == []
    ensures Wrong(p)
  {
    if p.period == 1 {
      PeriodOneEmits(p);
    } else {
      WindowSaturates(p);
    }
    TooMuchWork(p);
  }

  lemma PeriodOneEmits(p: Problem)
    requires Word(p) && p.period == p.budget == 1 && p.exec == p.blocking == p.deadline == MAX
    requires p.jitter == 0 && p.hp == []
    ensures Emitted(Analyze(p, [])) == Some(p.deadline)
  {
    PeriodOneAccepts(p);
    WindowTooSmall(p);
    FallbackReported(p);
  }

  /** A whole budget of work after a blackout that leaves no room for it. */
  lemma WholeBudgetWrong(p: Problem)
    requires Word(p) && p.Valid() && p.exec == p.budget && p.blocking == p.jitter == 0 && p.hp == []
    requires p.deadline == MAX < p.Dark() + p.budget
    ensures Wrong(p)
  {
    WindowSaturates(p);
    TooMuchWork(p);
  }

  /** A ceiling whose argument stops at its divisor counts one release where there are two. */
  lemma CeilingWraps(p: Problem, window: U64, top: U64)
    requires Word(p) && p.Valid() && top == MAX && |p.hp| == 1 && p.hp[0].period == top && p.hp[0].exec == 1
    requires 0 < window <= p.budget && p.exec == window - 1 && p.blocking == 0 && p.jitter == 0
    requires p.Dark() + window <= p.deadline && top < p.Dark() + window + p.hp[0].jitter
    ensures Wrong(p)
  {
    DarkBelow(p);
    forall x: U64 | x <= window ensures Step64(p, x) == window { OneRelease(p, x, top); }
    LeastSettledMeans(p.exec, p.budget, 0, p.blocking, Delayed(p.hp, DerivedJitter(p.period, p.budget)), []);
    assert Step64(p, window) == window;
    assert Window64(p) == Converged(window);
    TwoReleases(p, window, top);
    BusyWindowMeans(p);
  }

  lemma OneRelease(p: Problem, x: U64, top: U64)
    requires Word(p) && p.Valid() && top == MAX && |p.hp| == 1 && p.hp[0].period == top && p.hp[0].exec == 1
    requires p.blocking == 0 && p.exec < MAX && 0 < p.hp[0].jitter
    ensures Step64(p, x) == p.exec + 1
  {
    var h := p.hp[0];
    var delayed := Delayed(p.hp, DerivedJitter(p.period, p.budget));
    var arg := SatAdd(x, delayed[0].jitter);
    CeilDivLeast(arg, top, 1);
    CeilDivLeast(arg, top, 0);
    assert delayed[..0] == [];
    assert SumJittered(delayed, x) == SumJittered(delayed[..0], x) + InterferenceJittered(delayed[0], x);
  }

  lemma TwoReleases(p: Problem, window: U64, top: U64)
    requires p.Valid() && |p.hp| == 1 && p.hp[0].period == top && p.hp[0].exec == 1
    requires p.exec == window - 1 && top < p.Dark() + window + p.hp[0].jitter
    ensures !p.Settles(window)
  {
    CeilDivLeast(window + p.Dark() + p.hp[0].jitter, top, 1);
    assert Load(p.hp[0], window + p.Dark()) >= 2;
  }

  /** Period 1: the demand saturates to the largest word, and so does the supply. */
  lemma PeriodOneAccepts(p: Problem)
    requires Word(p) && p.period == p.budget == 1 && p.exec == p.blocking == p.deadline == MAX && p.hp == []
    ensures FallbackExit(p) == Accepted(p.deadline)
  {
    var edge, m := DerivedJitter(p.period, p.budget), p.deadline;
    assert NextTime(p, edge) == m by { CeilDivLeast(m, p.budget, m - 1); }
    assert ArincSupply.Lsbf(p.period, p.budget, m) == m;
    assert ClimbSteps(p, edge, Cap(p)) == Accepted(m);
  }

  /** What the fallback decides is what is reported, once the busy window is known not to fit. */
  lemma FallbackReported(p: Problem)
    requires Word(p) && p.Valid() && p.JitterFree() && Window64(p).Diverged?
    requires DerivedJitter(p.period, p.budget) < p.deadline
    ensures Analyze(p, []) == match FallbackExit(p) case Accepted(t) => FallbackPath(t) case _ => Unschedulable
  {
  }

  /** A task whose own work and blocking exceed the budget never fits in one budget. */
  lemma WindowTooSmall(p: Problem)
    requires Word(p) && p.Valid() && p.budget < p.exec + p.blocking && p.budget < MAX
    ensures Window64(p).Diverged?
  {
    LeastSettledMeans(p.exec, p.budget, 0, p.blocking, Delayed(p.hp, DerivedJitter(p.period, p.budget)), []);
  }

  /** No higher-priority task: the window is the task's own work, saturated. */
  lemma WindowSaturates(p: Problem)
    requires Word(p) && p.Valid() && p.hp == [] && p.jitter == 0 && p.deadline == MAX
    requires Clamp(p.exec + p.blocking) == p.budget
    requires MAX <= p.Dark() + p.budget
    ensures Emitted(Analyze(p, [])) == Some(MAX)
  {
    DarkBelow(p);
    LoneWindow(p);
  }

  /** Without higher-priority threads the window is the clamped work, if that is the budget. */
  lemma LoneWindow(p: Problem)
    requires Word(p) && p.Valid() && p.hp == []
    requires Clamp(p.exec + p.blocking) == p.budget
    ensures Window64(p) == Converged(p.budget)
  {
    LeastSettledMeans(p.exec, p.budget, 0, p.blocking, Delayed(p.hp, DerivedJitter(p.period, p.budget)), []);
    assert Step64(p, p.budget) == p.budget;
    if Window64(p).Converged? { assert Step64(p, Window64(p).value) == p.budget; }
  }

  lemma TooMuchWork(p: Problem)
    requires p.Valid() && p.hp == [] && p.jitter == 0 && 0 < p.exec
    requires p.deadline < p.Dark() + p.exec + p.blocking
    ensures Response(p).None?
  {
    BusyWindowMeans(p);
    LeastFeasibleMeans(p);
    if LeastFeasible(p).Some? { FeasibleSettles(p, LeastFeasible(p).value); }
  }
}
