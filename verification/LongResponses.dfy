/**
 Emitted bounds that exceed the period of their task: exactly when they hold for every job.
 */
module LongResponses {
  import opened Arith
  import opened Demand
  import opened ExactAnalysis
  import opened PS = PartitionSupply
  import opened JobStreams
  import opened InnerSchedule
  import opened BusyStretches
  import opened Guarantee
  import opened CriticalInstant

  predicate Periods(tasks: seq<Task>) {
    forall k | 0 <= k < |tasks| :: 0 < tasks[k].period
  }

  // ---- The exact condition ----

  /** The demand of the first one, two, three, ... jobs of a stretch is covered in time. */
  ghost predicate Sustainable(period: nat, budget: nat, tasks: seq<Task>, i: nat, response: nat)
    requires i < |tasks| && WellFormed(period, budget) && Periodic(AsHps(tasks[..i]))
  {
    forall q: nat :: MetBy(period, budget, tasks, i, q, response)
  }

  /** However long the bound is compared with the period, it then holds for every job. */
  lemma SustainableHolds(period: nat, budget: nat, tasks: seq<Task>, i: nat, response: nat)
    requires i < |tasks| && WellFormed(period, budget) && Periodic(AsHps(tasks[..i]))
    requires tasks[i].jitter <= tasks[i].period && Sustainable(period, budget, tasks, i, response)
    ensures BoundHolds(period, budget, tasks, i, response)
  {
    forall jobs: Jobs, supply: Trace, run: History, m: nat
      | Delivers(supply, period, budget) && Run(tasks, jobs, supply, run)
      ensures InTime(tasks, jobs, run, i, m, response)
    {
      var f := SustainedJobCompletes(period, budget, tasks, jobs, supply, run, i, response, m, m, 0);
      assert f <= jobs(i, m).nominal + response && Completed(tasks, jobs, run, i, m, f);
    }
  }

  /** It is enough to look at as many jobs as it takes to end a stretch. */
  lemma FirstStretchHolds(
      period: nat, budget: nat, tasks: seq<Task>, i: nat, response: nat, last: nat, length: nat)
    requires i < |tasks| && WellFormed(period, budget) && Periodic(AsHps(tasks[..i]))
    requires tasks[i].jitter <= tasks[i].period && EndsBy(period, budget, tasks, i, last, length)
    requires forall q: nat | q <= last :: MetBy(period, budget, tasks, i, q, response)
    ensures BoundHolds(period, budget, tasks, i, response)
  {
    forall jobs: Jobs, supply: Trace, run: History, m: nat
      | Delivers(supply, period, budget) && Run(tasks, jobs, supply, run)
      ensures InTime(tasks, jobs, run, i, m, response)
    {
      var f := SustainedJobCompletes(period, budget, tasks, jobs, supply, run, i, response, m, last, length);
      assert f <= jobs(i, m).nominal + response && Completed(tasks, jobs, run, i, m, f);
    }
  }

  /** A poll segment is a part of a job. */
  predicate SegmentsWithinJobs(tasks: seq<Task>) {
    forall k | 0 <= k < |tasks| :: tasks[k].segment <= tasks[k].exec
  }

  lemma {:induction false} LongestSegment(tasks: seq<Task>) returns (k: nat)
    requires 0 < MaxSegment(tasks)
    ensures k < |tasks| && tasks[k].segment == MaxSegment(tasks)
  {
    var n := |tasks| - 1;
    if MaxSegment(tasks[..n]) <= tasks[n].segment { k := n; } else { k := LongestSegment(tasks[..n]); }
  }

  lemma {:induction false} JitterLimit(tasks: seq<Task>) returns (limit: nat)
    ensures forall j | 0 <= j < |tasks| :: tasks[j].jitter <= limit
  {
    if tasks == [] {
      limit := 0;
    } else {
      limit := JitterLimit(tasks[..|tasks| - 1]);
      limit := Max(limit, tasks[|tasks| - 1].jitter);
    }
  }

  /** The scene that is worst for the task. */
  lemma WorstScene(period: nat, budget: nat, tasks: seq<Task>, i: nat) returns (sc: Scene)
    requires i < |tasks| && WellFormed(period, budget) && Periods(tasks) && SegmentsWithinJobs(tasks[i + 1..])
    ensures sc.Valid() && sc.period == period && sc.budget == budget && sc.tasks == tasks && sc.i == i
    ensures sc.rest == LongestRest(tasks[i + 1..])
  {
    var limit := JitterLimit(tasks);
    var rest := LongestRest(tasks[i + 1..]);
    if rest == 0 {
      sc := Scene(period, budget, tasks, i, 0, 0, limit);
    } else {
      var k := LongestSegment(tasks[i + 1..]);
      assert tasks[i + 1..][k] == tasks[i + 1 + k];
      sc := Scene(period, budget, tasks, i, i + 1 + k, rest, limit);
    }
  }

  /**
   For every set of tasks in every partition, and every number: the number bounds all jobs of the
   task exactly if the least supply covers the demand of the first one, two, three, ... jobs of a
   busy stretch, each at some time up to its own bound.
   */
  lemma BoundHoldsExactly(period: nat, budget: nat, tasks: seq<Task>, i: nat, response: nat)
    requires i < |tasks| && WellFormed(period, budget) && Periods(tasks)
    requires tasks[i].jitter <= tasks[i].period && 0 < tasks[i].exec && SegmentsWithinJobs(tasks[i + 1..])
    ensures Periodic(AsHps(tasks[..i]))
    ensures BoundHolds(period, budget, tasks, i, response) <==> Sustainable(period, budget, tasks, i, response)
  {
    if BoundHolds(period, budget, tasks, i, response) {
      var sc := WorstScene(period, budget, tasks, i);
      forall q: nat ensures MetBy(period, budget, tasks, i, q, response) {
        var y := BoundNeeds(sc, response, q);
        assert Within(tasks[i], q, response, y) && CoversWorst(period, budget, tasks, i, q, y);
      }
    }
    if Sustainable(period, budget, tasks, i, response) {
      SustainableHolds(period, budget, tasks, i, response);
    }
  }

  /**
   The same as a finite test: if the demand of `last + 1` jobs is covered before the next job can
   be released, the jobs up to that one decide.
   */
  lemma FirstStretchDecides(
      period: nat, budget: nat, tasks: seq<Task>, i: nat, response: nat, last: nat, length: nat)
    requires i < |tasks| && WellFormed(period, budget) && Periods(tasks)
    requires tasks[i].jitter <= tasks[i].period && 0 < tasks[i].exec && SegmentsWithinJobs(tasks[i + 1..])
    requires EndsBy(period, budget, tasks, i, last, length)
    ensures BoundHolds(period, budget, tasks, i, response)
       <==> forall q: nat | q <= last :: MetBy(period, budget, tasks, i, q, response)
  {
    BoundHoldsExactly(period, budget, tasks, i, response);
    if forall q: nat | q <= last :: MetBy(period, budget, tasks, i, q, response) {
      FirstStretchHolds(period, budget, tasks, i, response, last, length);
    }
  }

  // ---- No bound beyond the share of the partition ----

  function Rate(task: Task): real
    requires 0 < task.period
  {
    task.exec as real / task.period as real
  }

  /** The part of the time that the tasks demand in the long run. */
  function Utilization(tasks: seq<Task>): real
    requires Periods(tasks)
  {
    if tasks == [] then 0.0 else Utilization(tasks[..|tasks| - 1]) + Rate(tasks[|tasks| - 1])
  }

  /** What a rate makes of a time. */
  function Times(x: nat, rate: real): real {
    x as real * rate
  }

  lemma TimesAdds(x: nat, r: real, r': real)
    ensures Times(x, r + r') == Times(x, r) + Times(x, r')
  {
  }

  /** The periods of `n` jobs fill the time, and `work` is enough for them. */
  predicate Fills(task: Task, n: nat, time: nat, work: nat) {
    time <= n * task.period && n * task.exec <= work
  }

  lemma RateOfWork(task: Task, n: nat, time: nat, work: nat)
    requires 0 < task.period && Fills(task, n, time, work)
    ensures Times(time, Rate(task)) <= work as real
  {
    var c, t := task.exec as real, task.period as real;
    assert time as real <= n as real * t;
    assert (n * task.exec) as real == n as real * c;
    assert Rate(task) * t == c;
    assert 0.0 <= Rate(task);
    assert time as real * Rate(task) <= n as real * t * Rate(task);
  }

  /** The interference term is at least what the rates demand. */
  lemma LoadAtRate(task: Task, x: nat)
    requires 0 < task.period
    ensures Times(x, Rate(task)) <= Load(task.AsHp(), x) as real
  {
    CeilDivCovers(x + task.jitter, task.period);
    RateOfWork(task, Releases(task.AsHp(), x), x, Load(task.AsHp(), x));
  }

  lemma {:induction false} InterferenceAtRate(tasks: seq<Task>, c: nat, x: nat)
    requires c <= |tasks| && Periods(tasks)
    ensures Periodic(AsHps(tasks[..c]))
    ensures Times(x, Utilization(tasks[..c])) <= Interference(AsHps(tasks[..c]), x) as real
  {
    if 0 < c {
      InterferenceAtRate(tasks, c - 1, x);
      LoadAtRate(tasks[c - 1], x);
      TimesAdds(x, Utilization(tasks[..c - 1]), Rate(tasks[c - 1]));
      assert tasks[..c][..c - 1] == tasks[..c - 1];
      assert AsHps(tasks[..c])[..c - 1] == AsHps(tasks[..c - 1]);
    }
  }

  /** The share of the processor that the partition has. */
  function SupplyRate(period: nat, budget: nat): real
    requires 0 < period
  {
    budget as real / period as real
  }

  lemma WorstAtRate(period: nat, budget: nat, x: nat)
    requires WellFormed(period, budget)
    ensures Worst(period, budget, x) as real <= Times(x, SupplyRate(period, budget))
  {
    WorstWithinShare(period, budget, x);
    ShareInReals(period, budget, x, Worst(period, budget, x));
  }

  lemma ShareInReals(period: nat, budget: nat, x: nat, got: nat)
    requires 0 < period && period * got <= budget * x
    ensures got as real <= Times(x, SupplyRate(period, budget))
  {
    var p, rate := period as real, SupplyRate(period, budget);
    assert rate * p == budget as real;
    assert p * got as real <= budget as real * x as real by {
      assert (period * got) as real == p * got as real;
      assert (budget * x) as real == budget as real * x as real;
    }
    assert p * got as real <= p * (rate * x as real);
    CancelFactor(p, got as real, rate * x as real);
  }

  lemma CancelFactor(p: real, a: real, b: real)
    requires 0.0 < p && p * a <= p * b
    ensures a <= b
  {
    if b < a { PositiveProduct(p, a - b); }
  }

  lemma Archimedes(step: real, goal: real) returns (m: nat)
    requires 0.0 < step
    ensures goal < m as real * step
  {
    if goal < 0.0 {
      m := 0;
    } else {
      var ratio := goal / step;
      m := ratio.Floor + 1;
      assert ratio < m as real;
      assert ratio * step == goal;
    }
  }

  /**
   When the task and those above it demand more than the partition's share of the processor, no
   number at all bounds the task's jobs.
   */
  lemma OverloadIsUnbounded(period: nat, budget: nat, tasks: seq<Task>, i: nat, response: nat)
    requires WellFormed(period, budget) && Periods(tasks) && i < |tasks| && 0 < tasks[i].exec
    requires SupplyRate(period, budget) < Utilization(tasks[..i + 1])
    ensures !BoundHolds(period, budget, tasks, i, response)
  {
    if BoundHolds(period, budget, tasks, i, response) {
      var limit := JitterLimit(tasks);
      var q := LateEnough(period, budget, tasks, i, response);
      var y := BoundNeeds(Scene(period, budget, tasks, i, 0, 0, limit), response, q);
      InterferenceAtRate(tasks, i, y);
      WorstAtRate(period, budget, y);
      assert Outrun(period, budget, tasks, i, q, y);
      OneMoreJob(q, tasks[i].exec);
    }
  }

  lemma OneMoreJob(q: nat, exec: nat)
    ensures (q + 1) * exec == q * exec + exec
  {
  }

  /** The supply cannot spare the work of the task's first `m + 1` jobs up to the time `x`. */
  predicate Outrun(period: nat, budget: nat, tasks: seq<Task>, i: nat, m: nat, x: nat)
    requires 0 < period && Periods(tasks) && i < |tasks|
  {
    Times(x, SupplyRate(period, budget)) < ((m + 1) * tasks[i].exec) as real + Times(x, Utilization(tasks[..i]))
  }

  /** A job whose work, with all before it, is more than the supply can spare by its bound. */
  lemma LateEnough(period: nat, budget: nat, tasks: seq<Task>, i: nat, response: nat) returns (m: nat)
    requires WellFormed(period, budget) && Periods(tasks) && i < |tasks| && 0 < tasks[i].exec
    requires SupplyRate(period, budget) < Utilization(tasks[..i + 1])
    ensures forall x: nat :: x <= m * tasks[i].period + response ==> Outrun(period, budget, tasks, i, m, x)
  {
    var u, left := Rate(tasks[i]), SupplyRate(period, budget) - Utilization(tasks[..i]);
    assert tasks[..i + 1][..i] == tasks[..i];
    RatePositive(tasks[i]);
    m := LateFor(tasks[i], left, response);
    forall x: nat | x <= m * tasks[i].period + response ensures Outrun(period, budget, tasks, i, m, x) {
      assert Times(x, left) < ((m + 1) * tasks[i].exec) as real;
      TimesAdds(x, left, Utilization(tasks[..i]));
    }
  }

  lemma RatePositive(task: Task)
    requires 0 < task.period && 0 < task.exec
    ensures 0.0 < Rate(task) && Rate(task) * task.period as real == task.exec as real
  {
  }

  /** Supply at a rate below that of the task falls behind by any amount. */
  lemma LateFor(task: Task, left: real, response: nat) returns (m: nat)
    requires 0 < task.period && 0 < task.exec && left < Rate(task)
    ensures forall x: nat :: x <= m * task.period + response ==>
      Times(x, left) < ((m + 1) * task.exec) as real
  {
    RatePositive(task);
    var u, length := Rate(task), task.period as real;
    var best := if left < 0.0 then 0.0 else left;
    PositiveProduct(length, u - best);
    m := Archimedes(length * (u - best), response as real * best);
    forall x: nat | x <= m * task.period + response
      ensures Times(x, left) < ((m + 1) * task.exec) as real
    {
      LateAt(task, left, response, best, m, x);
    }
  }

  lemma LateAt(task: Task, left: real, response: nat, best: real, m: nat, x: nat)
    requires 0 < task.period && 0 < task.exec && 0.0 <= best && left <= best && x <= m * task.period + response
    requires response as real * best < m as real * (task.period as real * (Rate(task) - best))
    ensures Times(x, left) < ((m + 1) * task.exec) as real
  {
    RatePositive(task);
    var u, length := Rate(task), task.period as real;
    assert (m * task.period) as real == m as real * length;
    WorkInReals(m, task.exec, length * u);
    FallsBehind(u, left, length, x as real, m as real, response as real, best);
  }

  lemma PositiveProduct(a: real, b: real)
    requires 0.0 < a && 0.0 < b
    ensures 0.0 < a * b
  {
  }

  lemma WorkInReals(m: nat, exec: nat, work: real)
    requires work == exec as real
    ensures ((m + 1) * exec) as real == (m as real + 1.0) * work
  {
  }

  lemma FallsBehind(u: real, left: real, length: real, x: real, m: real, response: real, best: real)
    requires 0.0 <= x <= m * length + response && 0.0 < length && 0.0 <= m && 0.0 <= response && 0.0 < u
    requires 0.0 <= best && left <= best
    requires response * best < m * (length * (u - best))
    ensures x * left < (m + 1.0) * (length * u)
  {
    assert x * left <= x * best;
    assert x * best <= (m * length + response) * best;
    assert (m * length + response) * best == m * (length * best) + response * best;
    assert m * (length * (u - best)) == m * (length * u) - m * (length * best);
    PositiveProduct(length, u);
    assert (m + 1.0) * (length * u) == m * (length * u) + length * u;
  }

  // ---- What this says about a task alone in its partition ----

  /** Its job `q` has the least supply of its window to finish, with those before it. */
  predicate LoneMet(period: nat, budget: nat, task: Task, q: nat, response: nat)
    requires WellFormed(period, budget)
  {
    (q + 1) * task.exec <= Worst(period, budget, response + q * task.period)
  }

  lemma LoneDemand(task: Task, q: nat, length: nat)
    ensures Periodic(AsHps([task][..0])) && DemandOf([task], 0, q, length) == (q + 1) * task.exec
  {
    assert AsHps([task][..0]) == [];
    assert [task][1..] == [];
    OneMoreJob(q, task.exec);
  }

  lemma LoneMetBy(period: nat, budget: nat, task: Task, q: nat, response: nat)
    requires WellFormed(period, budget) && task.jitter == 0
    ensures Periodic(AsHps([task][..0]))
    ensures MetBy(period, budget, [task], 0, q, response) <==> LoneMet(period, budget, task, q, response)
  {
    var window := response + q * task.period;
    LoneDemand(task, q, window);
    if LoneMet(period, budget, task, q, response) {
      assert Within(task, q, response, window) && CoversWorst(period, budget, [task], 0, q, window);
    }
    if MetBy(period, budget, [task], 0, q, response) {
      var length: nat :| Within(task, q, response, length) && CoversWorst(period, budget, [task], 0, q, length);
      LoneDemand(task, q, length);
      WorstMono(period, budget, length, window);
    }
  }

  /**
   For a task alone in its partition, whatever its deadline and whichever path bounds it: a number
   bounds all its jobs exactly if the least supply covers the work of one, two, three, ... jobs.
   */
  lemma LoneBoundHolds(period: nat, budget: nat, task: Task, response: nat)
    requires WellFormed(period, budget) && 0 < task.period && task.jitter == 0 && 0 < task.exec
    ensures BoundHolds(period, budget, [task], 0, response)
       <==> forall q: nat :: LoneMet(period, budget, task, q, response)
  {
    assert [task][1..] == [];
    BoundHoldsExactly(period, budget, [task], 0, response);
    forall q: nat ensures MetBy(period, budget, [task], 0, q, response) <==> LoneMet(period, budget, task, q, response) {
      LoneMetBy(period, budget, task, q, response);
    }
  }

  /** The problem of a task alone in its partition. */
  lemma LoneProblem(period: nat, budget: nat, task: Task, deadline: nat)
    requires task.jitter == 0
    ensures ProblemOf(period, budget, [task], 0, deadline) == Problem(period, budget, task.exec, deadline, 0, 0, [])
  {
    assert AsHps([task][..0]) == [];
    assert [task][1..] == [];
  }

  /** The rate of a lone task, and the share of its partition, in products of integers. */
  lemma OverShare(period: nat, budget: nat, task: Task)
    requires 0 < period && 0 < task.period && task.period * budget < task.exec * period
    ensures Periods([task]) && SupplyRate(period, budget) < Utilization([task][..1])
  {
    var share, rate := SupplyRate(period, budget), Rate(task);
    var p, t := period as real, task.period as real;
    assert share * p == budget as real && rate * t == task.exec as real;
    assert t * (share * p) < (rate * t) * p by {
      assert (task.period * budget) as real == t * budget as real;
      assert (task.exec * period) as real == task.exec as real * p;
    }
    assert (share - rate) * (p * t) < 0.0;
    PositiveProduct(p, t);
    SignOfFactor(share - rate, p * t);
    assert [task][..1] == [task];
    assert Utilization([task][..0]) == 0.0;
  }

  lemma SignOfFactor(a: real, b: real)
    requires 0.0 < b && a * b < 0.0
    ensures a < 0.0
  {
  }

  /** Windows that grow by the task's period gain at least its work, if its rate is within the share. */
  lemma LinearBoundGrows(period: nat, budget: nat, task: Task, t: nat, q: nat)
    requires WellFormed(period, budget) && task.exec * period <= task.period * budget
    requires 0 < task.exec <= Lsbf(period, budget, t)
    ensures (q + 1) * task.exec <= Lsbf(period, budget, t + q * task.period)
  {
    var x := t - Blackout(period, budget);
    FloorDivGreatest(budget * x, period, task.exec);
    GrowsBy(period, budget, task.exec, task.period, x, q);
    FloorDivGreatest(budget * (x + q * task.period), period, (q + 1) * task.exec);
  }

  lemma GrowsBy(period: nat, budget: nat, exec: nat, step: nat, x: nat, q: nat)
    requires exec * period <= step * budget && exec * period <= budget * x
    ensures (q + 1) * exec * period <= budget * (x + q * step)
  {
    MulMono(exec * period, step * budget, q);
    assert (q + 1) * exec * period == q * (exec * period) + exec * period;
    assert budget * (x + q * step) == budget * x + q * (step * budget);
  }

  /**
   A lone task that is accepted by demand against supply: its bound holds for every job exactly if
   the rate of the task is within the share of the partition, a test on four numbers.
   */
  lemma LoneFallbackHolds(period: nat, budget: nat, task: Task, deadline: nat)
    requires WellFormed(period, budget) && 0 < task.period && task.jitter == 0 && budget < task.exec
    requires Response(Problem(period, budget, task.exec, deadline, 0, 0, [])).Some?
    ensures ProblemOf(period, budget, [task], 0, deadline) == Problem(period, budget, task.exec, deadline, 0, 0, [])
    ensures BoundHolds(period, budget, [task], 0, Response(Problem(period, budget, task.exec, deadline, 0, 0, [])).value)
       <==> task.exec * period <= task.period * budget
  {
    LoneProblem(period, budget, task, deadline);
    var p := Problem(period, budget, task.exec, deadline, 0, 0, []);
    var response := Response(p).value;
    if task.exec * period <= task.period * budget {
      LoneFallbackIsFeasible(p);
      LoneBoundHolds(period, budget, task, response);
      forall q: nat ensures LoneMet(period, budget, task, q, response) {
        LinearBoundGrows(period, budget, task, response, q);
        LsbfAtMostWorst(period, budget, response + q * task.period);
      }
    } else {
      OverShare(period, budget, task);
      OverloadIsUnbounded(period, budget, [task], 0, response);
    }
  }

  lemma LoneFallbackIsFeasible(p: Problem)
    requires p.Valid() && p.hp == [] && p.blocking == 0 && p.jitter == 0 && p.budget < p.exec
    requires Response(p).Some?
    ensures p.exec <= Lsbf(p.period, p.budget, Response(p).value)
  {
    BusyWindowMeans(p);
    LeastFeasibleMeans(p);
  }

  /** A lone task on a processor of its own is given its execution time as response. */
  lemma LoneResponse(p: Problem)
    requires p.Valid() && p.period == p.budget && p.hp == [] && p.blocking == 0 && p.jitter == 0
    requires 0 < p.exec <= p.deadline
    ensures Response(p) == Some(p.exec)
  {
    if p.exec <= p.budget {
      BusyWindowIs(p, p.exec);
    } else {
      BusyWindowMeans(p);
      assert BusyWindow(p).None?;
      FloorDivGreatest(p.budget * p.exec, p.period, p.exec);
      forall u: nat | 0 < u < p.exec ensures !p.Feasible(u) { LsbfAtMost(p.period, p.budget, u); }
      LeastFeasibleIs(p, p.exec);
    }
  }

  lemma {:induction false} WholeAligned(period: nat, t: nat)
    requires 0 < period
    ensures Aligned(period, period, t) == t
    decreases t
  {
    if period <= t { WholeAligned(period, t - period); }
  }

  /** Alone on a whole processor, on either path: the bound holds exactly if it is within the period. */
  lemma WholeProcessorHolds(period: nat, task: Task, deadline: nat)
    requires 0 < period && 0 < task.period && 0 < task.exec <= deadline && task.jitter == 0
    ensures Response(ProblemOf(period, period, [task], 0, deadline)) == Some(task.exec)
    ensures BoundHolds(period, period, [task], 0, task.exec) <==> task.exec <= task.period
  {
    LoneProblem(period, period, task, deadline);
    LoneResponse(ProblemOf(period, period, [task], 0, deadline));
    LoneBoundHolds(period, period, task, task.exec);
    if task.exec <= task.period {
      forall q: nat ensures LoneMet(period, period, task, q, task.exec) {
        WholeMeets(period, task, q);
        MulMono(task.exec, task.period, q);
      }
    } else {
      WholeMeets(period, task, 1);
    }
  }

  lemma WholeMeets(period: nat, task: Task, q: nat)
    requires 0 < period
    ensures LoneMet(period, period, task, q, task.exec) <==> q * task.exec <= q * task.period
  {
    var window := task.exec + q * task.period;
    WholeWorst(period, window);
    OneMoreJob(q, task.exec);
  }

  lemma WholeWorst(period: nat, t: nat)
    requires 0 < period
    ensures Worst(period, period, t) == t
  {
    WholeAligned(period, t);
  }

  /** A lone task that fits in one budget is bounded by the blackout and its execution time. */
  lemma LoneJitterResponse(p: Problem)
    requires p.Valid() && p.hp == [] && p.blocking == 0 && p.jitter == 0
    requires p.exec <= p.budget && p.Dark() + p.exec <= p.deadline
    ensures Response(p) == Some(p.Dark() + p.exec)
  {
    BusyWindowIs(p, p.exec);
  }

  lemma WorstOfTwoGaps(period: nat, budget: nat, t: nat)
    requires WellFormed(period, budget)
    requires period + (period - budget) <= t <= period + 2 * (period - budget)
    ensures Worst(period, budget, t) <= budget
  {
    assert Aligned(period, budget, t - (period - budget) - period) == 0;
  }

  /**
   On the jitter path a rate within the share is not enough. A task whose two jobs fit in one
   period of the partition, but not in one budget, is accepted, and its second job can miss the
   bound: for instance 3 units every 6 in a partition with 5 of every 10.
   */
  lemma ShareIsNotEnough(period: nat, budget: nat, task: Task, deadline: nat)
    requires WellFormed(period, budget) && 0 < task.period && task.jitter == 0
    requires task.exec <= budget < 2 * task.exec && task.exec + task.period <= period
    requires task.exec * period <= task.period * budget && Blackout(period, budget) + task.exec <= deadline
    ensures Response(ProblemOf(period, budget, [task], 0, deadline)) == Some(Blackout(period, budget) + task.exec)
    ensures !BoundHolds(period, budget, [task], 0, Blackout(period, budget) + task.exec)
  {
    var response := Blackout(period, budget) + task.exec;
    LoneProblem(period, budget, task, deadline);
    LoneJitterResponse(ProblemOf(period, budget, [task], 0, deadline));
    PeriodAtLeastExec(period, budget, task);
    WorstOfTwoGaps(period, budget, response + 1 * task.period);
    LoneBoundHolds(period, budget, task, response);
    assert !LoneMet(period, budget, task, 1, response);
  }

  lemma PeriodAtLeastExec(period: nat, budget: nat, task: Task)
    requires WellFormed(period, budget) && task.exec * period <= task.period * budget
    ensures task.exec <= task.period
  {
    if task.period < task.exec {
      MulMono(budget, period, task.exec);
      MulMono(task.period + 1, task.exec, budget);
    }
  }

  // ---- A bound beyond the period that holds ----

  /** Two tasks on a processor of their own: 6 units every 10, and 5 units every 14. */
  predicate TwoTasks(period: nat, a: Task, b: Task) {
    period == 100 && a == Task(10, 6, 6, 0) && b == Task(14, 5, 5, 0)
  }

  /** The work of the first task in a window that `n` of its periods just cover. */
  lemma WorkAbove(period: nat, a: Task, b: Task, x: nat, n: nat)
    requires TwoTasks(period, a, b)
    ensures AsHps([a, b][..1]) == [a.AsHp()] && [a, b][2..] == []
    ensures n * a.period < x + a.period ==> n * a.exec <= Interference([a.AsHp()], x)
    ensures x <= n * a.period ==> Interference([a.AsHp()], x) <= n * a.exec
  {
    var h := a.AsHp();
    assert [h][..0] == [];
    assert Interference([h], x) == Interference([h][..0], x) + Load(h, x);
    if x <= n * a.period { CeilDivLeast(x, a.period, n); }
    if 0 < n && n * a.period < x + a.period { CeilDivLeast(x, a.period, n - 1); }
  }

  /**
   The second task gets the bound 17, beyond its period, and the bound holds for every job: with
   its second job, at 28, the stretch ends.
   */
  lemma BeyondPeriodHolds(period: nat, a: Task, b: Task, deadline: nat)
    requires TwoTasks(period, a, b) && 17 <= deadline
    ensures Response(ProblemOf(period, period, [a, b], 1, deadline)) == Some(17) && b.period < 17
    ensures BoundHolds(period, period, [a, b], 1, 17)
  {
    BeyondPeriodResponse(period, a, b, deadline, 17);
    BeyondPeriodMeets(period, a, b, 17, 28);
    FirstStretchHolds(period, period, [a, b], 1, 17, 1, 28);
  }

  lemma BeyondPeriodMeets(period: nat, a: Task, b: Task, bound: nat, end: nat)
    requires TwoTasks(period, a, b) && bound == 17 && end == 28
    ensures Periodic(AsHps([a, b][..1])) && EndsBy(period, period, [a, b], 1, 1, end)
    ensures forall q: nat | q <= 1 :: MetBy(period, period, [a, b], 1, q, bound)
  {
    WorkAbove(period, a, b, bound, 2);
    WorkAbove(period, a, b, end, 3);
    Meets(period, [a, b], 1, 0, bound, bound);
    Meets(period, [a, b], 1, 1, bound, end);
  }

  /** On a whole processor demand is covered when it is at most the time. */
  lemma Meets(period: nat, tasks: seq<Task>, i: nat, q: nat, response: nat, length: nat)
    requires 0 < period && i < |tasks| && Periodic(AsHps(tasks[..i])) && Within(tasks[i], q, response, length)
    requires DemandOf(tasks, i, q, length) <= length
    ensures MetBy(period, period, tasks, i, q, response) && CoversWorst(period, period, tasks, i, q, length)
  {
    WholeWorst(period, length);
  }

  lemma BeyondPeriodResponse(period: nat, a: Task, b: Task, deadline: nat, bound: nat)
    requires TwoTasks(period, a, b) && bound == 17 <= deadline
    ensures Response(ProblemOf(period, period, [a, b], 1, deadline)) == Some(bound)
  {
    var p := ProblemOf(period, period, [a, b], 1, deadline);
    WorkAbove(period, a, b, bound, 2);
    forall v: nat | v < bound ensures !p.Settles(v) { WorkAbove(period, a, b, v, if v <= 10 then 1 else 2); }
    BusyWindowIs(p, bound);
  }

  // ---- Ties ----

  /**
   The analysis charges a thread one segment of each thread of equal priority that the sort puts
   after it. If those go first, the bound can be missed: `a`, listed before `b`, gets a bound that
   does not hold when `b` is served before `a`.
   */
  lemma TieOrderMatters(period: nat, a: Task, b: Task, deadline: nat)
    requires 0 < a.period && 0 < b.period && a.jitter == b.jitter == 0
    requires 0 < a.exec && b.segment < b.exec && a.exec + b.segment <= period && a.exec + b.segment <= deadline
    ensures Response(ProblemOf(period, period, [a, b], 0, deadline)) == Some(a.exec + b.segment)
    ensures !BoundHolds(period, period, [b, a], 1, a.exec + b.segment)
  {
    var response := a.exec + b.segment;
    FirstOfTwo(period, a, b, deadline);
    if BoundHolds(period, period, [b, a], 1, response) {
      var y := BoundNeeds(Scene(period, period, [b, a], 1, 0, 0, 0), response, 0);
      assert [b, a][..1] == [b];
      WholeAligned(period, y);
      OneJobAtLeast(b, y);
    }
  }

  lemma FirstOfTwo(period: nat, a: Task, b: Task, deadline: nat)
    requires 0 < a.exec && a.jitter == 0 && a.exec + b.segment <= period && a.exec + b.segment <= deadline
    ensures Response(ProblemOf(period, period, [a, b], 0, deadline)) == Some(a.exec + b.segment)
  {
    var p := ProblemOf(period, period, [a, b], 0, deadline);
    assert AsHps([a, b][..0]) == [];
    assert [a, b][1..] == [b];
    assert MaxSegment([]) == 0;
    BusyWindowIs(p, a.exec + b.segment);
  }

  /** A window that is not empty can see a job of the one task above. */
  lemma OneJobAtLeast(task: Task, y: nat)
    requires 0 < task.period
    ensures Periodic(AsHps([task])) && (0 < y ==> task.exec <= Interference(AsHps([task]), y))
  {
    var hp := AsHps([task]);
    assert hp[..0] == [];
    assert Interference(hp, y) == Interference(hp[..0], y) + Load(hp[0], y);
    if 0 < y {
      CeilDivLeast(y + task.jitter, task.period, 0);
      MulMono(1, Releases(hp[0], y), task.exec);
    }
  }
}
