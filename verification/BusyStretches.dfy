/**
 Busy stretches that hold several jobs of a task: when each of them completes in time, however
 long the bound is compared with the period.
 */
module BusyStretches {
  import opened Arith
  import opened Demand
  import opened PartitionSupply
  import opened JobStreams
  import opened InnerSchedule

  /** All that can be demanded in a window by `q + 1` jobs of the task and by all that may delay them. */
  function DemandOf(tasks: seq<Task>, i: nat, q: nat, length: nat): nat
    requires i < |tasks| && Periodic(AsHps(tasks[..i]))
  {
    DemandWith(tasks, i, q, LongestRest(tasks[i + 1..]), length)
  }

  /** The same when `rest` units of a lower segment are in progress. */
  function DemandWith(tasks: seq<Task>, i: nat, q: nat, rest: nat, length: nat): nat
    requires i < |tasks| && Periodic(AsHps(tasks[..i]))
  {
    q * tasks[i].exec + Rbf(tasks[i].exec, rest, AsHps(tasks[..i]), length)
  }

  predicate Covers(tasks: seq<Task>, supply: Trace, i: nat, q: nat, a: nat, length: nat)
    requires i < |tasks| && Periodic(AsHps(tasks[..i]))
  {
    DemandOf(tasks, i, q, length) <= WindowSupply(supply, a, length)
  }

  /** The least supply of the partition covers that demand. */
  predicate CoversWorst(period: nat, budget: nat, tasks: seq<Task>, i: nat, q: nat, length: nat)
    requires i < |tasks| && WellFormed(period, budget) && Periodic(AsHps(tasks[..i]))
  {
    DemandOf(tasks, i, q, length) <= Worst(period, budget, length)
  }

  lemma CoversAnywhere(
      period: nat, budget: nat, tasks: seq<Task>, supply: Trace, i: nat, q: nat, a: nat, length: nat)
    requires i < |tasks| && WellFormed(period, budget) && Periodic(AsHps(tasks[..i]))
    requires Delivers(supply, period, budget) && CoversWorst(period, budget, tasks, i, q, length)
    ensures Covers(tasks, supply, i, q, a, length)
  {
    SupplyAtLeastWorst(supply, period, budget, a, length);
  }

  /** A window that starts with the earliest release of a stretch and ends with the bound of job `q` of it. */
  predicate Within(task: Task, q: nat, response: nat, length: nat) {
    length + task.jitter <= response + q * task.period
  }

  /** The demand of the first `q + 1` jobs is covered at some time up to the bound of the last of them. */
  ghost predicate MetBy(period: nat, budget: nat, tasks: seq<Task>, i: nat, q: nat, response: nat)
    requires i < |tasks| && WellFormed(period, budget) && Periodic(AsHps(tasks[..i]))
  {
    exists length: nat :: Within(tasks[i], q, response, length) && CoversWorst(period, budget, tasks, i, q, length)
  }

  /** The demand of the first `q + 1` jobs is covered before the next one can be released. */
  predicate EndsBy(period: nat, budget: nat, tasks: seq<Task>, i: nat, q: nat, length: nat)
    requires i < |tasks| && WellFormed(period, budget) && Periodic(AsHps(tasks[..i]))
  {
    Within(tasks[i], q, tasks[i].period, length) && CoversWorst(period, budget, tasks, i, q, length)
  }

  /** The level has been busy since it was quiet at `t0`. */
  ghost predicate BusySince(tasks: seq<Task>, run: History, c: nat, t0: nat, t: nat) {
    t0 <= t && Quiet(tasks, run, c, t0) && forall u | t0 < u <= t :: !Quiet(tasks, run, c, u)
  }

  /** What is ahead of a job at its release, if the level has been busy since `t0`. */
  lemma AheadSinceQuiet(
      tasks: seq<Task>, jobs: Jobs, supply: Trace, run: History, i: nat, goal: nat, t0: nat, r: nat)
    requires Run(tasks, jobs, supply, run) && i < |tasks| && BusySince(tasks, run, i + 1, t0, r)
    ensures Ahead(run(r), i, goal) + Supplied(supply, t0, r)
         <= goal - Arrived(jobs, i, 0, t0) + LongestRest(tasks[i + 1..]) + ArrivedFirst(jobs, i, t0, r)
  {
    BusyStretch(tasks, jobs, supply, run, i + 1, t0, r);
    LevelNext(run(r), i);
    WorkConserved(tasks, jobs, supply, run, i, r);
    ArrivedSplit(tasks[i], jobs, i, 0, t0, r);
    BlockingAtMostSegment(tasks, run(t0), i + 1);
  }

  /** The work of `q + 1` jobs from `n` on, if all before `n` have arrived. */
  lemma JobsSince(task: Task, jobs: Jobs, k: nat, n: nat, q: nat, t0: nat)
    requires LegalStream(task, jobs, k) && WorkOfFirst(jobs, k, n) <= Arrived(jobs, k, 0, t0)
    ensures WorkOfFirst(jobs, k, n + q + 1) <= Arrived(jobs, k, 0, t0) + (q * task.exec + task.exec)
  {
    WorkBetween(task, jobs, k, n, n + q);
    assert LegalJob(task, jobs(k, n + q));
  }

  /** A window that covers `own` work and all that may delay it covers what arrives in its two parts. */
  lemma CoversParts(tasks: seq<Task>, jobs: Jobs, supply: Trace, i: nat, t0: nat, r: nat, end: nat, own: nat)
    requires i < |tasks| && forall k | 0 <= k < |tasks| :: LegalStream(tasks[k], jobs, k)
    requires t0 <= r <= end && Periodic(AsHps(tasks[..i])) && CoversOwn(tasks, supply, i, t0, end, own)
    ensures PartsCover(tasks, jobs, supply, i, t0, r, end, own)
  {
    ArrivedWithinInterference(tasks[..i], jobs, t0, end - t0);
    ArrivedFirstSplit(tasks, jobs, i, t0, r, end);
    SuppliedSplit(supply, t0, r, end);
  }

  /** The supply of `[t0, r)` and `[r, end)` covers `own` work, a segment, and what arrives above. */
  predicate PartsCover(tasks: seq<Task>, jobs: Jobs, supply: Trace, i: nat, t0: nat, r: nat, end: nat, own: nat)
    requires i < |tasks| && t0 <= r <= end
  {
    own + LongestRest(tasks[i + 1..]) + ArrivedFirst(jobs, i, t0, r) + ArrivedFirst(jobs, i, r, end)
    <= Supplied(supply, t0, r) + Supplied(supply, r, end)
  }

  /** A job released in a busy stretch is done when the supply covers `own` work of its task and all else. */
  lemma DoneInStretch(
      tasks: seq<Task>, jobs: Jobs, supply: Trace, run: History, i: nat, m: nat, t0: nat, end: nat, own: nat)
    requires Run(tasks, jobs, supply, run) && i < |tasks| && tasks[i].jitter <= tasks[i].period
    requires BusySince(tasks, run, i + 1, t0, jobs(i, m).release) && jobs(i, m).release <= end
    requires WorkOfFirst(jobs, i, m + 1) <= Arrived(jobs, i, 0, t0) + own
    requires PartsCover(tasks, jobs, supply, i, t0, jobs(i, m).release, end, own)
    ensures Completed(tasks, jobs, run, i, m, end)
  {
    var r, goal := jobs(i, m).release, WorkOfFirst(jobs, i, m + 1);
    AheadSinceQuiet(tasks, jobs, supply, run, i, goal, t0, r);
    GoalArrived(tasks[i], jobs, i, m);
    GoalReached(tasks, jobs, supply, run, i, goal, r, end);
  }

  /** The jobs of the task from `n` to `m` are covered by the window from `t0`, which `m` lies in. */
  lemma LateInStretch(
      tasks: seq<Task>, jobs: Jobs, supply: Trace, run: History, i: nat, n: nat, m: nat, t0: nat, length: nat)
    requires Run(tasks, jobs, supply, run) && i < |tasks| && tasks[i].jitter <= tasks[i].period && n <= m
    requires Periodic(AsHps(tasks[..i])) && Covers(tasks, supply, i, m - n, t0, length)
    requires BusySince(tasks, run, i + 1, t0, jobs(i, m).release) && jobs(i, m).release <= t0 + length
    requires WorkOfFirst(jobs, i, n) <= Arrived(jobs, i, 0, t0)
    ensures Completed(tasks, jobs, run, i, m, t0 + length)
  {
    var own := OwnWork(tasks, jobs, supply, i, n, m - n, t0, t0 + length);
    DoneInStretch(tasks, jobs, supply, run, i, m, t0, t0 + length, own);
  }

  lemma OwnWork(tasks: seq<Task>, jobs: Jobs, supply: Trace, i: nat, n: nat, q: nat, t0: nat, end: nat)
    returns (own: nat)
    requires i < |tasks| && forall k | 0 <= k < |tasks| :: LegalStream(tasks[k], jobs, k)
    requires t0 <= jobs(i, n + q).release <= end
    requires Periodic(AsHps(tasks[..i])) && Covers(tasks, supply, i, q, t0, end - t0)
    requires WorkOfFirst(jobs, i, n) <= Arrived(jobs, i, 0, t0)
    ensures WorkOfFirst(jobs, i, n + q + 1) <= Arrived(jobs, i, 0, t0) + own
    ensures PartsCover(tasks, jobs, supply, i, t0, jobs(i, n + q).release, end, own)
  {
    own := OwnDemand(tasks, jobs, supply, i, n, q, t0, end);
    CoversParts(tasks, jobs, supply, i, t0, jobs(i, n + q).release, end, own);
  }

  /** What is outstanding at the end of a part of a stretch, up to a job of the task that is not of the part. */
  lemma StretchWork(
      tasks: seq<Task>, jobs: Jobs, supply: Trace, run: History, i: nat, m: nat, t0: nat, end: nat, own: nat)
    requires Run(tasks, jobs, supply, run) && i < |tasks| && tasks[i].jitter <= tasks[i].period
    requires BusySince(tasks, run, i + 1, t0, end) && end <= jobs(i, m).release
    requires WorkOfFirst(jobs, i, m) <= Arrived(jobs, i, 0, t0) + own
    ensures Level(run(end), i + 1) + Supplied(supply, t0, end)
         <= LongestRest(tasks[i + 1..]) + ArrivedFirst(jobs, i, t0, end) + own
  {
    BusyStretch(tasks, jobs, supply, run, i + 1, t0, end);
    ArrivedSplit(tasks[i], jobs, i, 0, t0, end);
    ArrivedAtMost(tasks[i], jobs, i, m, end);
    BlockingAtMostSegment(tasks, run(t0), i + 1);
  }

  /** The window covers `own` work of the task, a segment, and all that can arrive above. */
  predicate CoversOwn(tasks: seq<Task>, supply: Trace, i: nat, t0: nat, end: nat, own: nat)
    requires i < |tasks| && t0 <= end && Periodic(AsHps(tasks[..i]))
  {
    own + LongestRest(tasks[i + 1..]) + Interference(AsHps(tasks[..i]), end - t0) <= Supplied(supply, t0, end)
  }

  lemma StretchSpent(
      tasks: seq<Task>, jobs: Jobs, supply: Trace, run: History, i: nat, m: nat, t0: nat, end: nat, own: nat)
    requires Run(tasks, jobs, supply, run) && i < |tasks| && tasks[i].jitter <= tasks[i].period
    requires BusySince(tasks, run, i + 1, t0, end) && end <= jobs(i, m).release
    requires WorkOfFirst(jobs, i, m) <= Arrived(jobs, i, 0, t0) + own
    requires Periodic(AsHps(tasks[..i])) && CoversOwn(tasks, supply, i, t0, end, own)
    ensures Level(run(end), i + 1) == 0
  {
    StretchWork(tasks, jobs, supply, run, i, m, t0, end, own);
    ArrivedWithinInterference(tasks[..i], jobs, t0, end - t0);
  }

  /** Such a window ends the stretch. */
  lemma StretchEnds(
      tasks: seq<Task>, jobs: Jobs, supply: Trace, run: History, i: nat, m: nat, t0: nat, end: nat, own: nat)
    requires Run(tasks, jobs, supply, run) && i < |tasks| && tasks[i].jitter <= tasks[i].period
    requires WorkOfFirst(jobs, i, m) <= Arrived(jobs, i, 0, t0) + own && end <= jobs(i, m).release
    requires t0 < end && Periodic(AsHps(tasks[..i])) && CoversOwn(tasks, supply, i, t0, end, own)
    ensures !BusySince(tasks, run, i + 1, t0, end)
  {
    if BusySince(tasks, run, i + 1, t0, end) {
      StretchSpent(tasks, jobs, supply, run, i, m, t0, end, own);
      assert Quiet(tasks, run, i + 1, end);
    }
  }

  /** If the demand of jobs `n` to `n + q` is covered by a window before the next one, the stretch ends with it. */
  lemma CoveredStretchEnds(
      tasks: seq<Task>, jobs: Jobs, supply: Trace, run: History, i: nat, n: nat, q: nat, t0: nat, length: nat)
    requires Run(tasks, jobs, supply, run) && i < |tasks| && tasks[i].jitter <= tasks[i].period && 0 < tasks[i].exec
    requires Periodic(AsHps(tasks[..i])) && Covers(tasks, supply, i, q, t0, length)
    requires t0 + length <= jobs(i, n + q + 1).release
    requires WorkOfFirst(jobs, i, n) <= Arrived(jobs, i, 0, t0)
    ensures !BusySince(tasks, run, i + 1, t0, t0 + length)
  {
    CoversIsPositive(tasks, supply, i, q, t0, length);
    var own := OwnDemand(tasks, jobs, supply, i, n, q, t0, t0 + length);
    StretchEnds(tasks, jobs, supply, run, i, n + q + 1, t0, t0 + length, own);
  }

  lemma OwnDemand(tasks: seq<Task>, jobs: Jobs, supply: Trace, i: nat, n: nat, q: nat, t0: nat, end: nat)
    returns (own: nat)
    requires i < |tasks| && LegalStream(tasks[i], jobs, i) && t0 <= end
    requires Periodic(AsHps(tasks[..i])) && Covers(tasks, supply, i, q, t0, end - t0)
    requires WorkOfFirst(jobs, i, n) <= Arrived(jobs, i, 0, t0)
    ensures WorkOfFirst(jobs, i, n + q + 1) <= Arrived(jobs, i, 0, t0) + own
    ensures CoversOwn(tasks, supply, i, t0, end, own)
  {
    own := q * tasks[i].exec + tasks[i].exec;
    JobsSince(tasks[i], jobs, i, n, q, t0);
  }

  lemma CoversIsPositive(tasks: seq<Task>, supply: Trace, i: nat, q: nat, a: nat, length: nat)
    requires i < |tasks| && 0 < tasks[i].exec
    requires Periodic(AsHps(tasks[..i])) && Covers(tasks, supply, i, q, a, length)
    ensures 0 < length
  {
    ProductPositive(q, tasks[i].exec);
  }

  /** The same for a job of the stretch that is released after the window: it was not of the stretch. */
  lemma ReleasedAfterEnd(
      tasks: seq<Task>, jobs: Jobs, supply: Trace, run: History, i: nat, n: nat, m: nat, t0: nat, length: nat)
    requires Run(tasks, jobs, supply, run) && i < |tasks| && tasks[i].jitter <= tasks[i].period && n <= m
    requires 0 < tasks[i].exec && Periodic(AsHps(tasks[..i])) && Covers(tasks, supply, i, m - n, t0, length)
    requires WorkOfFirst(jobs, i, n) <= Arrived(jobs, i, 0, t0) && t0 + length <= jobs(i, m).release
    ensures !BusySince(tasks, run, i + 1, t0, jobs(i, m).release)
  {
    ReleasesInOrder(tasks[i], jobs, i, m, m + 1);
    CoveredStretchEnds(tasks, jobs, supply, run, i, n, m - n, t0, length);
  }

  /** A stretch holds no more jobs than it takes to end it. */
  lemma JobsOfStretch(
      tasks: seq<Task>, jobs: Jobs, supply: Trace, run: History, i: nat, n: nat, m: nat, last: nat, t0: nat, length: nat)
    requires Run(tasks, jobs, supply, run) && i < |tasks| && tasks[i].jitter <= tasks[i].period && n <= m
    requires 0 < tasks[i].exec && Periodic(AsHps(tasks[..i])) && Covers(tasks, supply, i, last, t0, length)
    requires Within(tasks[i], last, tasks[i].period, length)
    requires t0 <= jobs(i, n).release && WorkOfFirst(jobs, i, n) <= Arrived(jobs, i, 0, t0)
    requires BusySince(tasks, run, i + 1, t0, jobs(i, m).release)
    ensures m - n <= last
  {
    if last < m - n {
      var next := n + last + 1;
      NextRelease(tasks[i], jobs, i, n, last, t0, length);
      if next < m { ReleasesInOrder(tasks[i], jobs, i, next, m); }
      CoveredStretchEnds(tasks, jobs, supply, run, i, n, last, t0, length);
    }
  }

  lemma NextRelease(task: Task, jobs: Jobs, k: nat, n: nat, q: nat, t0: nat, length: nat)
    requires LegalStream(task, jobs, k) && t0 <= jobs(k, n).release && Within(task, q, task.period, length)
    ensures t0 + length <= jobs(k, n + q + 1).release
  {
    NominalSpacing(task, jobs, k, n, n + q + 1);
    assert LegalJob(task, jobs(k, n)) && LegalJob(task, jobs(k, n + q + 1));
    assert (q + 1) * task.period == q * task.period + task.period;
  }

  lemma EndInTime(task: Task, jobs: Jobs, k: nat, n: nat, m: nat, t0: nat, response: nat, length: nat)
    requires LegalStream(task, jobs, k) && n <= m && t0 <= jobs(k, n).release
    requires Within(task, m - n, response, length)
    ensures t0 + length <= jobs(k, m).nominal + response
  {
    NominalSpacing(task, jobs, k, n, m);
    assert LegalJob(task, jobs(k, n));
  }

  /** One job of a stretch, whose own demand and all before it is covered in time. */
  lemma CoveredJobCompletes(
      tasks: seq<Task>, jobs: Jobs, supply: Trace, run: History, i: nat, n: nat, m: nat, t0: nat, response: nat, length: nat)
    requires Run(tasks, jobs, supply, run) && i < |tasks| && tasks[i].jitter <= tasks[i].period && n <= m
    requires 0 < tasks[i].exec && Periodic(AsHps(tasks[..i])) && Covers(tasks, supply, i, m - n, t0, length)
    requires Within(tasks[i], m - n, response, length)
    requires t0 <= jobs(i, n).release && WorkOfFirst(jobs, i, n) <= Arrived(jobs, i, 0, t0)
    requires BusySince(tasks, run, i + 1, t0, jobs(i, m).release)
    ensures t0 + length <= jobs(i, m).nominal + response
    ensures Completed(tasks, jobs, run, i, m, t0 + length)
  {
    EndInTime(tasks[i], jobs, i, n, m, t0, response, length);
    if t0 + length < jobs(i, m).release {
      ReleasedAfterEnd(tasks, jobs, supply, run, i, n, m, t0, length);
    }
    LateInStretch(tasks, jobs, supply, run, i, n, m, t0, length);
  }

  /**
   Without any limit by the period: every job completes within the bound, if the demand of the
   first one, two, three, ... jobs of a stretch is covered in time, up to a number of jobs that no
   stretch exceeds.
   */
  lemma SustainedJobCompletes(
      period: nat, budget: nat, tasks: seq<Task>, jobs: Jobs, supply: Trace, run: History,
      i: nat, response: nat, m: nat, last: nat, length: nat)
    returns (f: nat)
    requires Run(tasks, jobs, supply, run) && i < |tasks| && tasks[i].jitter <= tasks[i].period
    requires WellFormed(period, budget) && Delivers(supply, period, budget) && Periodic(AsHps(tasks[..i]))
    requires forall q: nat | q <= last :: MetBy(period, budget, tasks, i, q, response)
    requires m <= last || EndsBy(period, budget, tasks, i, last, length)
    ensures f <= jobs(i, m).nominal + response && Completed(tasks, jobs, run, i, m, f)
  {
    if tasks[i].exec == 0 {
      f := jobs(i, m).release;
      assert MetBy(period, budget, tasks, i, 0, response);
      assert LegalJob(tasks[i], jobs(i, m));
      NoWorkNoJobs(tasks[i], jobs, i, m + 1);
    } else {
      var t0 := LastQuiet(tasks, jobs, supply, run, i + 1, jobs(i, m).release);
      var n := FirstFrom(tasks[i], jobs, i, t0, m);
      if last < m {
        CoversAnywhere(period, budget, tasks, supply, i, last, t0, length);
        JobsOfStretch(tasks, jobs, supply, run, i, n, m, last, t0, length);
      }
      assert MetBy(period, budget, tasks, i, m - n, response);
      var window: nat :| Within(tasks[i], m - n, response, window)
                      && CoversWorst(period, budget, tasks, i, m - n, window);
      CoversAnywhere(period, budget, tasks, supply, i, m - n, t0, window);
      CoveredJobCompletes(tasks, jobs, supply, run, i, n, m, t0, response, window);
      f := t0 + window;
    }
  }
}
