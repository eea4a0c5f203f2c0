/**
 What an emitted bound promises about the running partition, for every job of every run on
 every supply trace that honours the partition's budget.
 */
module Guarantee {
  import opened Arith
  import opened Demand
  import opened ExactAnalysis
  import opened PS = PartitionSupply
  import opened JobStreams
  import opened InnerSchedule
  import ArincSupply
  import Saturation

  /** The analysis problem of task `i` of a partition whose tasks are listed highest priority first. */
  function ProblemOf(period: nat, budget: nat, tasks: seq<Task>, i: nat, deadline: nat): Problem
    requires i < |tasks|
  {
    Problem(period, budget, tasks[i].exec, deadline, MaxSegment(tasks[i + 1..]), tasks[i].jitter, AsHps(tasks[..i]))
  }

  ghost predicate InTime(tasks: seq<Task>, jobs: Jobs, run: History, i: nat, m: nat, response: nat) {
    exists f: nat :: f <= jobs(i, m).nominal + response && Completed(tasks, jobs, run, i, m, f)
  }

  /** `response` bounds the response time of every job of task `i`, counted from its nominal arrival. */
  ghost predicate BoundHolds(period: nat, budget: nat, tasks: seq<Task>, i: nat, response: nat) {
    forall jobs: Jobs, supply: Trace, run: History, m: nat
      | Delivers(supply, period, budget) && Run(tasks, jobs, supply, run) ::
      InTime(tasks, jobs, run, i, m, response)
  }

  /**
   Nothing of the level of task `i` is outstanding when its job `m` is released. Only an own
   jitter shorter than the period keeps an earlier job from being released at the same time.
   */
  ghost predicate Fresh(tasks: seq<Task>, jobs: Jobs, run: History, i: nat, m: nat)
    requires i < |tasks|
  {
    tasks[i].jitter < tasks[i].period && Quiet(tasks, run, i + 1, jobs(i, m).release)
  }

  /** `response` bounds every job if it is within the period, and else every job with a fresh release. */
  ghost predicate Promise(tasks: seq<Task>, jobs: Jobs, run: History, i: nat, response: nat)
    requires i < |tasks|
  {
    forall m: nat :: response <= tasks[i].period || Fresh(tasks, jobs, run, i, m) ==> InTime(tasks, jobs, run, i, m, response)
  }

  ghost predicate PromiseHolds(period: nat, budget: nat, tasks: seq<Task>, i: nat, response: nat)
    requires i < |tasks|
  {
    forall jobs: Jobs, supply: Trace, run: History
      | Delivers(supply, period, budget) && Run(tasks, jobs, supply, run) ::
      Promise(tasks, jobs, run, i, response)
  }

  /**
   Run safety. The response of the exact analysis, on either path and however long it is, bounds
   every job of every run that is released when nothing of its level is outstanding; and if it
   does not exceed the task's period, it bounds every job.
   */
  lemma ResponseHolds(period: nat, budget: nat, tasks: seq<Task>, i: nat, deadline: nat)
    requires i < |tasks| && ProblemOf(period, budget, tasks, i, deadline).Valid()
    requires Response(ProblemOf(period, budget, tasks, i, deadline)).Some?
    ensures PromiseHolds(period, budget, tasks, i, Response(ProblemOf(period, budget, tasks, i, deadline)).value)
  {
    var p := ProblemOf(period, budget, tasks, i, deadline);
    var response := Response(p).value;
    forall jobs: Jobs, supply: Trace, run: History, m: nat
      | Delivers(supply, period, budget) && Run(tasks, jobs, supply, run)
        && (response <= tasks[i].period || Fresh(tasks, jobs, run, i, m))
      ensures InTime(tasks, jobs, run, i, m, response)
    {
      ResponseIsRelied(period, budget, tasks, i, deadline, supply);
      assert LegalJob(tasks[i], jobs(i, m));
      var f := JobCompletes(tasks, jobs, supply, run, i, response - p.jitter, m);
      assert f <= jobs(i, m).nominal + response && Completed(tasks, jobs, run, i, m, f);
    }
  }

  lemma ResponseIsRelied(period: nat, budget: nat, tasks: seq<Task>, i: nat, deadline: nat, supply: Trace)
    requires i < |tasks| && ProblemOf(period, budget, tasks, i, deadline).Valid()
    requires Response(ProblemOf(period, budget, tasks, i, deadline)).Some? && Delivers(supply, period, budget)
    ensures var r := Response(ProblemOf(period, budget, tasks, i, deadline)).value;
      tasks[i].jitter <= r && Relies(tasks, supply, i, r - tasks[i].jitter)
  {
    var p := ProblemOf(period, budget, tasks, i, deadline);
    ResponseIsSupplied(p, supply, 0);
    var length := Response(p).value - p.jitter;
    forall a: nat ensures p.Work(length) <= WindowSupply(supply, a, length) {
      ResponseIsSupplied(p, supply, a);
    }
  }

  /** What is promised within the period is promised for all jobs. */
  lemma PromiseWithinPeriod(period: nat, budget: nat, tasks: seq<Task>, i: nat, response: nat)
    requires i < |tasks| && PromiseHolds(period, budget, tasks, i, response) && response <= tasks[i].period
    ensures BoundHolds(period, budget, tasks, i, response)
  {
    forall jobs: Jobs, supply: Trace, run: History, m: nat
      | Delivers(supply, period, budget) && Run(tasks, jobs, supply, run)
      ensures InTime(tasks, jobs, run, i, m, response)
    {
      assert Promise(tasks, jobs, run, i, response);
    }
  }

  /** A thread whose deadline is at most its period is bounded without exception, if it is accepted. */
  lemma AcceptedMeetsDeadline(period: nat, budget: nat, tasks: seq<Task>, i: nat, deadline: nat)
    requires i < |tasks| && ProblemOf(period, budget, tasks, i, deadline).Valid()
    requires Response(ProblemOf(period, budget, tasks, i, deadline)).Some? && deadline <= tasks[i].period
    ensures var r := Response(ProblemOf(period, budget, tasks, i, deadline)).value;
      r <= deadline && BoundHolds(period, budget, tasks, i, r)
  {
    var p := ProblemOf(period, budget, tasks, i, deadline);
    LeastFeasibleMeans(p);
    ResponseHolds(period, budget, tasks, i, deadline);
    PromiseWithinPeriod(period, budget, tasks, i, Response(p).value);
  }

  /** The same for the number that the saturating, capped 64-bit analysis emits. */
  lemma EmittedHolds(period: nat, budget: nat, tasks: seq<Task>, i: nat, deadline: nat, response: nat)
    requires i < |tasks|
    requires var p := ProblemOf(period, budget, tasks, i, deadline);
      && Saturation.KeepsClear(p)
      && Saturation.Emitted(ArincSupply.Analyze(p, [])) == Some(response)
    ensures PromiseHolds(period, budget, tasks, i, response)
    ensures response <= tasks[i].period ==> BoundHolds(period, budget, tasks, i, response)
  {
    Saturation.EmittedIsExact(ProblemOf(period, budget, tasks, i, deadline));
    ResponseHolds(period, budget, tasks, i, deadline);
    if response <= tasks[i].period { PromiseWithinPeriod(period, budget, tasks, i, response); }
  }
}
