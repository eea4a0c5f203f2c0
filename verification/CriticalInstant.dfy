/**
 The worst run there is for a task: a lower segment has just begun, all tasks of the level are
 released together, and the partition has just used up its budget.
 */
module CriticalInstant {
  import opened Arith
  import opened Demand
  import opened PartitionSupply
  import opened JobStreams
  import opened InnerSchedule
  import opened BusyStretches
  import opened Guarantee

  /**
   A partition, its tasks, and the task `i` at hand; if `rest` is not 0, a lower task `k` that has
   `rest` units of a segment to go when the level is released; and the number of the period in
   which that happens.
   */
  datatype Scene = Scene(period: nat, budget: nat, tasks: seq<Task>, i: nat, k: nat, rest: nat, first: nat)
  {
    predicate Valid() {
      && WellFormed(period, budget) && i < |tasks|
      && (forall j | 0 <= j < |tasks| :: 0 < tasks[j].period)
      && (forall j | 0 <= j <= i :: tasks[j].jitter <= first)
      && (0 < rest ==> i < k < |tasks| && rest + 1 == tasks[k].segment <= tasks[k].exec)
    }

    /** The instant at which the level is released. */
    function Start(): nat {
      first * period + budget
    }

    /** Releases that are delayed to the start as long as they can be, and come as early as they can after it. */
    function LevelJob(task: Task, n: nat): Job {
      var earliest := (if task.jitter <= Start() then Start() - task.jitter else 0) + n * task.period;
      Job(earliest, Max(Start(), earliest), task.exec)
    }

    function LowerJob(task: Task, n: nat): Job
    {
      var nominal := (if 0 < Start() then Start() - 1 else 0) + n * task.period;
      Job(nominal, nominal, if n == 0 then task.exec else 0)
    }

    /** Apart from the level, only the task with the segment has any work. */
    function Stream(): Jobs {
      (j: nat, n: nat) =>
        if j <= i < |tasks| then LevelJob(tasks[j], n)
        else if j == k < |tasks| && 0 < rest then LowerJob(tasks[j], n)
        else if j < |tasks| then Job(n * tasks[j].period, n * tasks[j].period, 0)
        else Job(n, n, 0)
    }

    function Supply(): Trace
      requires WellFormed(period, budget)
    {
      LateTrace(period, budget, first)
    }

    ghost predicate Runs(run: History)
      requires Valid()
    {
      Run(tasks, Stream(), Supply(), run) && Follows(tasks, Stream(), Supply(), i + 1, run)
    }
  }

  lemma StartsLate(sc: Scene)
    requires sc.Valid()
    ensures sc.first < sc.Start()
  {
    MulMono(1, sc.period, sc.first);
  }

  lemma StreamIsLegal(sc: Scene, j: nat)
    requires sc.Valid() && j < |sc.tasks|
    ensures LegalStream(sc.tasks[j], sc.Stream(), j)
  {
    var jobs, task := sc.Stream(), sc.tasks[j];
    StartsLate(sc);
    forall n: nat ensures LegalJob(task, jobs(j, n)) && Separated(task, jobs, j, n) {
      assert (n + 1) * task.period == n * task.period + task.period;
    }
  }

  lemma SceneRuns(sc: Scene) returns (run: History)
    requires sc.Valid()
    ensures sc.Runs(run) && Delivers(sc.Supply(), sc.period, sc.budget)
  {
    forall j | 0 <= j < |sc.tasks| ensures LegalStream(sc.tasks[j], sc.Stream(), j) { StreamIsLegal(sc, j); }
    LateTraceDelivers(sc.period, sc.budget, sc.first);
    run := RunExists(sc.tasks, sc.Stream(), sc.Supply(), sc.i + 1);
  }

  // ---- Before the start ----

  /** No work arrives before the segment, and none of the level before the start. */
  lemma {:induction false} NothingBefore(sc: Scene, j: nat, hi: nat, y: nat)
    requires sc.Valid() && j < |sc.tasks|
    requires y < sc.Start() || (y == sc.Start() && (j != sc.k || sc.rest == 0))
    ensures Released(sc.Stream(), j, 0, hi, 0, y) == 0
    decreases hi
  {
    if 0 < hi { NothingBefore(sc, j, hi - 1, y); }
  }

  lemma {:induction false} SegmentArrives(sc: Scene, hi: nat)
    requires sc.Valid() && 0 < sc.rest && 0 < hi
    ensures Released(sc.Stream(), sc.k, 0, hi, 0, sc.Start()) == sc.tasks[sc.k].exec
    decreases hi
  {
    StartsLate(sc);
    if 1 < hi {
      SegmentArrives(sc, hi - 1);
    } else {
      assert Released(sc.Stream(), sc.k, 0, 0, 0, sc.Start()) == 0;
    }
  }

  lemma IdleBefore(sc: Scene, run: History)
    requires sc.Valid() && sc.Runs(run)
    ensures 0 < sc.Start()
    ensures var s := run(sc.Start() - 1);
      s.seg == 0 && forall j | 0 <= j < |sc.tasks| :: s.pend[j] == 0 && s.done[j] == 0
  {
    StartsLate(sc);
    var t := sc.Start() - 1;
    forall j | 0 <= j < |sc.tasks| ensures run(t).pend[j] == 0 && run(t).done[j] == 0 {
      NothingBefore(sc, j, t, t);
      WorkConserved(sc.tasks, sc.Stream(), sc.Supply(), run, j, t);
    }
  }

  /** What is admitted in the last instant before the start: the work of the segment's task. */
  lemma AdmittedBefore(sc: Scene, run: History)
    requires sc.Valid() && sc.Runs(run) && 0 < sc.Start()
    ensures var t := sc.Start() - 1;
      forall j | 0 <= j < |sc.tasks| :: Admit(sc.Stream(), t, run(t).pend)[j]
        == if j == sc.k && 0 < sc.rest then sc.tasks[j].exec else 0
  {
    var t := sc.Start() - 1;
    IdleBefore(sc, run);
    forall j | 0 <= j < |sc.tasks|
      ensures Admit(sc.Stream(), t, run(t).pend)[j] == if j == sc.k && 0 < sc.rest then sc.tasks[j].exec else 0
    {
      StreamIsLegal(sc, j);
      ArrivedSplit(sc.tasks[j], sc.Stream(), j, 0, t, t + 1);
      NothingBefore(sc, j, t, t);
      if j == sc.k && 0 < sc.rest { SegmentArrives(sc, t + 1); } else { NothingBefore(sc, j, t + 1, t + 1); }
    }
  }

  lemma OnBefore(sc: Scene)
    requires sc.Valid()
    ensures 0 < sc.Start() && sc.Supply()(sc.Start() - 1)
  {
    EarlyFrame(sc.period, sc.budget, sc.first, sc.first, sc.first * sc.period);
  }

  /** Up to the start nothing of the level has been executed. */
  lemma NothingDone(sc: Scene, run: History, j: nat, t: nat)
    requires sc.Valid() && sc.Runs(run) && j <= sc.i && t <= sc.Start()
    ensures run(t).done[j] == 0
  {
    WorkConserved(sc.tasks, sc.Stream(), sc.Supply(), run, j, t);
    NothingBefore(sc, j, t, t);
  }

  /** At the start the segment is under way. */
  lemma SegmentStarts(sc: Scene, run: History)
    requires sc.Valid() && sc.Runs(run) && 0 < sc.rest
    ensures var s := run(sc.Start()); s.cur == sc.k && s.seg == sc.rest && s.done[sc.k] == 1
  {
    OnBefore(sc);
    IdleBefore(sc, run);
    AdmittedBefore(sc, run);
    SegmentStartsAt(sc.tasks, sc.Stream(), sc.Supply(), run, sc.i, sc.k, sc.rest, sc.Start() - 1);
  }

  lemma SegmentStartsAt(
      tasks: seq<Task>, jobs: Jobs, supply: Trace, run: History, i: nat, k: nat, rest: nat, t: nat)
    requires i < k < |tasks| && 0 < rest && rest + 1 == tasks[k].segment <= tasks[k].exec
    requires Follows(tasks, jobs, supply, i + 1, run) && supply(t)
    requires Shaped(tasks, run(t)) && run(t).seg == 0 && run(t).done[k] == 0
    requires forall j | 0 <= j < |tasks| :: Admit(jobs, t, run(t).pend)[j] == if j == k then tasks[j].exec else 0
    ensures var s := run(t + 1); |s.done| == |tasks| && s.cur == k && s.seg == rest && s.done[k] == 1
  {
    FollowsNext(tasks, jobs, supply, i + 1, run, t);
    StartsSegment(tasks, jobs, i, k, t, run(t));
  }

  lemma StartsSegment(tasks: seq<Task>, jobs: Jobs, i: nat, k: nat, t: nat, s: State)
    requires i < k < |tasks| && 1 <= tasks[k].segment <= tasks[k].exec && Shaped(tasks, s) && s.seg == 0
    requires forall j | 0 <= j < |tasks| :: Admit(jobs, t, s.pend)[j] == if j == k then tasks[j].exec else 0
    ensures var s' := Next(tasks, jobs, i + 1, t, true, s);
      s'.cur == k && s'.seg + 1 == tasks[k].segment && s'.done[k] == s.done[k] + 1
  {
    var pend := Admit(jobs, t, s.pend);
    assert 0 < pend[k];
    assert LeastBusy(pend, 0) == k;
  }

  // ---- From the start on ----

  /** A run in which, at the start, nothing of the level has been executed and the segment is under way. */
  ghost predicate Begins(
      tasks: seq<Task>, jobs: Jobs, supply: Trace, run: History, i: nat, k: nat, rest: nat, start: nat)
  {
    && i < |tasks| && Run(tasks, jobs, supply, run) && Follows(tasks, jobs, supply, i + 1, run)
    && (forall j | 0 <= j <= i :: run(start).done[j] == 0)
    && (0 < rest ==> i < k < |tasks| && run(start).cur == k && run(start).seg == rest && run(start).done[k] == 1)
  }

  lemma SceneBegins(sc: Scene, run: History)
    requires sc.Valid() && sc.Runs(run)
    ensures Begins(sc.tasks, sc.Stream(), sc.Supply(), run, sc.i, sc.k, sc.rest, sc.Start())
  {
    forall j | 0 <= j <= sc.i ensures run(sc.Start()).done[j] == 0 { NothingDone(sc, run, j, sc.Start()); }
    if 0 < sc.rest { SegmentStarts(sc, run); }
  }

  /** The segment is executed to its end before anything else. */
  lemma {:induction false} SegmentFirst(
      tasks: seq<Task>, jobs: Jobs, supply: Trace, run: History, i: nat, k: nat, rest: nat, start: nat, t: nat)
    requires Begins(tasks, jobs, supply, run, i, k, rest, start) && start <= t && 0 < rest
    ensures rest < run(t).done[k] || (run(t).cur == k && run(t).seg + run(t).done[k] == rest + 1)
    decreases t
  {
    if start < t {
      SegmentFirst(tasks, jobs, supply, run, i, k, rest, start, t - 1);
      assert StepAt(tasks, jobs, supply, run, t - 1);
    }
  }

  lemma SegmentDone(
      tasks: seq<Task>, jobs: Jobs, supply: Trace, run: History, i: nat, k: nat, rest: nat, start: nat, u: nat)
    requires Begins(tasks, jobs, supply, run, i, k, rest, start) && start <= u && 0 < rest && run(u).seg == 0
    ensures rest < run(u + 1).done[k]
  {
    SegmentFirst(tasks, jobs, supply, run, i, k, rest, start, u);
    DoneGrows(tasks, jobs, supply, run, k, u);
  }

  /** Work of the level and of the segment that has been executed since the start. */
  function Executed(s: State, i: nat, k: nat, rest: nat): int
    requires i < |s.done| && (0 < rest ==> k < |s.done|)
  {
    Sum(s.done[..i + 1]) + (if 0 < rest then s.done[k] else 1) - 1
  }

  lemma ExecutedStep(tasks: seq<Task>, jobs: Jobs, t: nat, on: bool, s: State, s': State, i: nat, k: nat, rest: nat)
    requires i < |tasks| && (0 < rest ==> i < k < |tasks|)
    requires Shaped(tasks, s) && Shaped(tasks, s') && Step(tasks, jobs, t, on, s, s')
    ensures Executed(s', i, k, rest) <= Executed(s, i, k, rest) + if on then 1 else 0
  {
    var pend := Admit(jobs, t, s.pend);
    if on && (0 < s.seg || !Idle(pend)) {
      SumUpdate(s.done, i + 1, s'.cur, s.done[s'.cur] + 1);
    }
  }

  lemma {:induction false} ExecutedAtMostSupply(
      tasks: seq<Task>, jobs: Jobs, supply: Trace, run: History, i: nat, k: nat, rest: nat, start: nat, t: nat)
    requires Begins(tasks, jobs, supply, run, i, k, rest, start) && start <= t
    ensures Executed(run(t), i, k, rest) <= Supplied(supply, start, t)
    decreases t
  {
    if t == start {
      SumZero(run(t).done[..i + 1]);
    } else {
      ExecutedAtMostSupply(tasks, jobs, supply, run, i, k, rest, start, t - 1);
      ExecutedAt(tasks, jobs, supply, run, i, k, rest, t - 1);
    }
  }

  lemma ExecutedAt(tasks: seq<Task>, jobs: Jobs, supply: Trace, run: History, i: nat, k: nat, rest: nat, u: nat)
    requires Run(tasks, jobs, supply, run) && i < |tasks| && (0 < rest ==> i < k < |tasks|)
    ensures Executed(run(u + 1), i, k, rest) <= Executed(run(u), i, k, rest) + if supply(u) then 1 else 0
  {
    assert StepAt(tasks, jobs, supply, run, u);
    ExecutedStep(tasks, jobs, u, supply(u), run(u), run(u + 1), i, k, rest);
  }

  /** Executed and outstanding work of a level add up to what arrived; no more is executed than supplied. */
  lemma {:induction false} LevelConserved(tasks: seq<Task>, jobs: Jobs, supply: Trace, run: History, c: nat, t: nat)
    requires Run(tasks, jobs, supply, run) && c <= |tasks|
    ensures Sum(run(t).done[..c]) + Level(run(t), c) == ArrivedFirst(jobs, c, 0, t)
    ensures Sum(run(t).done[..c]) <= Supplied(supply, 0, t)
    decreases t
  {
    if t == 0 {
      NothingFromFirst(jobs, c, 0);
      SumZero(run(0).pend[..c]);
      SumZero(run(0).done[..c]);
    } else {
      LevelConserved(tasks, jobs, supply, run, c, t - 1);
      LevelAt(tasks, jobs, supply, run, c, t - 1);
      ArrivedFirstSplit(tasks, jobs, c, 0, t - 1, t);
    }
  }

  lemma LevelAt(tasks: seq<Task>, jobs: Jobs, supply: Trace, run: History, c: nat, u: nat)
    requires Run(tasks, jobs, supply, run) && c <= |tasks|
    ensures Sum(run(u + 1).done[..c]) + Level(run(u + 1), c)
         == Sum(run(u).done[..c]) + Level(run(u), c) + ArrivedFirst(jobs, c, u, u + 1)
    ensures Sum(run(u + 1).done[..c]) <= Sum(run(u).done[..c]) + if supply(u) then 1 else 0
  {
    assert StepAt(tasks, jobs, supply, run, u);
    LevelStep(tasks, jobs, u, supply(u), run(u), run(u + 1), c);
  }

  lemma LevelStep(tasks: seq<Task>, jobs: Jobs, t: nat, on: bool, s: State, s': State, c: nat)
    requires Shaped(tasks, s) && Shaped(tasks, s') && Step(tasks, jobs, t, on, s, s') && c <= |tasks|
    ensures Sum(s'.done[..c]) + Level(s', c) == Sum(s.done[..c]) + Level(s, c) + ArrivedFirst(jobs, c, t, t + 1)
    ensures Sum(s'.done[..c]) <= Sum(s.done[..c]) + if on then 1 else 0
  {
    var pend := Admit(jobs, t, s.pend);
    SumAdmit(jobs, t, s.pend, c);
    if on && (0 < s.seg || !Idle(pend)) { ServeConserves(s, pend, s'.cur, s'.seg, c); }
  }

  /** A unit of work moves from outstanding to executed. */
  lemma ServeConserves(s: State, pend: seq<nat>, k: nat, left: nat, c: nat)
    requires k < |pend| == |s.done| && 0 < pend[k] && c <= |pend|
    ensures var s' := Serve(s, pend, k, left);
      && Sum(s'.done[..c]) + Sum(s'.pend[..c]) == Sum(s.done[..c]) + Sum(pend[..c])
      && Sum(s'.done[..c]) <= Sum(s.done[..c]) + 1
  {
    SumUpdate(pend, c, k, pend[k] - 1);
    SumUpdate(s.done, c, k, s.done[k] + 1);
  }

  /** When nothing above is outstanding, all that arrived for the tasks above has been executed. */
  lemma LevelDone(tasks: seq<Task>, jobs: Jobs, supply: Trace, run: History, i: nat, x: nat)
    requires Run(tasks, jobs, supply, run) && i < |tasks| && Level(run(x), i) == 0
    ensures Sum(run(x).done[..i + 1]) == ArrivedFirst(jobs, i, 0, x) + run(x).done[i]
  {
    LevelConserved(tasks, jobs, supply, run, i, x);
    assert run(x).done[..i + 1][..i] == run(x).done[..i];
  }

  /** The last instant up to `t` at which the task was executed. */
  lemma {:induction false} LastExecution(run: History, i: nat, start: nat, t: nat) returns (x: nat)
    requires start <= t && forall u: nat :: i < |run(u).done|
    requires run(start).done[i] < run(t).done[i]
    ensures start < x <= t && run(x - 1).done[i] < run(x).done[i] && run(t).done[i] <= run(x).done[i]
    decreases t
  {
    if run(t - 1).done[i] < run(t).done[i] { x := t; } else { x := LastExecution(run, i, start, t - 1); }
  }

  /** A task that takes units is executed when no segment is in progress and nothing above is outstanding. */
  lemma ExecutesAlone(tasks: seq<Task>, jobs: Jobs, supply: Trace, run: History, i: nat, u: nat)
    requires Run(tasks, jobs, supply, run) && Follows(tasks, jobs, supply, i + 1, run) && i < |tasks|
    requires run(u).done[i] < run(u + 1).done[i]
    ensures run(u).seg == 0 && Level(run(u + 1), i) == 0
  {
    assert StepAt(tasks, jobs, supply, run, u);
    FollowsNext(tasks, jobs, supply, i + 1, run, u);
    SumZero(run(u + 1).pend[..i]);
  }

  /** What has been executed by the time `x` of an execution of the task. */
  lemma ExecutedBy(
      tasks: seq<Task>, jobs: Jobs, supply: Trace, run: History, i: nat, k: nat, rest: nat, start: nat, x: nat)
    requires Begins(tasks, jobs, supply, run, i, k, rest, start) && start < x
    requires run(x - 1).done[i] < run(x).done[i]
    ensures run(x).done[i] + ArrivedFirst(jobs, i, 0, x) + rest <= Supplied(supply, start, x)
  {
    ExecutesAlone(tasks, jobs, supply, run, i, x - 1);
    LevelDone(tasks, jobs, supply, run, i, x);
    ExecutedAtMostSupply(tasks, jobs, supply, run, i, k, rest, start, x);
    if 0 < rest { SegmentDone(tasks, jobs, supply, run, i, k, rest, start, x - 1); }
  }

  /** Once the task has executed `work`, the supply has covered that and all that was ahead. */
  lemma WorkNeedsSupply(
      tasks: seq<Task>, jobs: Jobs, supply: Trace, run: History, i: nat, k: nat, rest: nat, start: nat, work: nat, f: nat)
    returns (x: nat)
    requires Begins(tasks, jobs, supply, run, i, k, rest, start) && start <= f && 0 < work <= run(f).done[i]
    ensures start < x <= f && work + rest + ArrivedFirst(jobs, i, 0, x) <= Supplied(supply, start, x)
  {
    x := LastExecution(run, i, start, f);
    ExecutedBy(tasks, jobs, supply, run, i, k, rest, start, x);
  }

  /** Each task of the level brings all the work that the interference term allows. */
  lemma AllArrive(sc: Scene, j: nat, y: nat)
    requires sc.Valid() && j <= sc.i && 0 < y
    ensures Load(sc.tasks[j].AsHp(), y) <= Arrived(sc.Stream(), j, 0, sc.Start() + y)
  {
    var jobs, task, end := sc.Stream(), sc.tasks[j], sc.Start() + y;
    var n := Releases(task.AsHp(), y);
    StartsLate(sc);
    StreamIsLegal(sc, j);
    forall m: nat | m < n ensures jobs(j, m).release < end { CeilDivLeast(y + task.jitter, task.period, m); }
    EarlierJobsArrived(task, jobs, j, n, end);
    ReleasedGrows(jobs, j, n, end, 0, end);
    StreamWork(sc, j, n);
  }

  lemma {:induction false} StreamWork(sc: Scene, j: nat, n: nat)
    requires sc.Valid() && j <= sc.i
    ensures WorkOfFirst(sc.Stream(), j, n) == n * sc.tasks[j].exec
  {
    if 0 < n {
      StreamWork(sc, j, n - 1);
      assert n * sc.tasks[j].exec == (n - 1) * sc.tasks[j].exec + sc.tasks[j].exec;
    }
  }

  lemma {:induction false} LevelArrives(sc: Scene, c: nat, y: nat)
    requires sc.Valid() && c <= sc.i && 0 < y
    ensures Periodic(AsHps(sc.tasks[..c]))
    ensures Interference(AsHps(sc.tasks[..c]), y) <= ArrivedFirst(sc.Stream(), c, 0, sc.Start() + y)
  {
    if 0 < c {
      LevelArrives(sc, c - 1, y);
      AllArrive(sc, c - 1, y);
      assert AsHps(sc.tasks[..c])[..c - 1] == AsHps(sc.tasks[..c - 1]);
    }
  }

  // ---- What completing a job takes ----

  /** In the scene, the least supply has covered that. */
  lemma WorkNeeds(sc: Scene, run: History, work: nat, f: nat) returns (y: nat)
    requires sc.Valid() && sc.Runs(run) && 0 < work <= run(f).done[sc.i]
    ensures 0 < y && sc.Start() + y <= f && Periodic(AsHps(sc.tasks[..sc.i]))
    ensures work + sc.rest + Interference(AsHps(sc.tasks[..sc.i]), y) <= Worst(sc.period, sc.budget, y)
  {
    var start := sc.Start();
    SceneBegins(sc, run);
    if f < start { NothingDone(sc, run, sc.i, f); }
    var x := WorkNeedsSupply(sc.tasks, sc.Stream(), sc.Supply(), run, sc.i, sc.k, sc.rest, start, work, f);
    y := x - start;
    LevelArrives(sc, sc.i, y);
    LateIsWorst(sc.period, sc.budget, sc.first, start, y);
  }

  /** When job `q` is done, the least supply has covered it, those before it, and all that was ahead. */
  lemma JobNeeds(sc: Scene, run: History, q: nat, f: nat) returns (y: nat)
    requires sc.Valid() && sc.Runs(run) && 0 < sc.tasks[sc.i].exec
    requires Completed(sc.tasks, sc.Stream(), run, sc.i, q, f)
    ensures 0 < y && sc.Start() + y <= f && Periodic(AsHps(sc.tasks[..sc.i]))
    ensures DemandWith(sc.tasks, sc.i, q, sc.rest, y) <= Worst(sc.period, sc.budget, y)
  {
    StreamWork(sc, sc.i, q + 1);
    var own := q * sc.tasks[sc.i].exec + sc.tasks[sc.i].exec;
    assert (q + 1) * sc.tasks[sc.i].exec == own;
    y := WorkNeeds(sc, run, own, f);
  }

  /** A bound that holds for every job leaves time for that. */
  lemma BoundNeeds(sc: Scene, response: nat, q: nat) returns (y: nat)
    requires sc.Valid() && 0 < sc.tasks[sc.i].exec
    requires BoundHolds(sc.period, sc.budget, sc.tasks, sc.i, response)
    ensures Within(sc.tasks[sc.i], q, response, y) && Periodic(AsHps(sc.tasks[..sc.i]))
    ensures DemandWith(sc.tasks, sc.i, q, sc.rest, y) <= Worst(sc.period, sc.budget, y)
  {
    var run := SceneRuns(sc);
    StartsLate(sc);
    assert InTime(sc.tasks, sc.Stream(), run, sc.i, q, response);
    var f: nat :| f <= sc.Stream()(sc.i, q).nominal + response && Completed(sc.tasks, sc.Stream(), run, sc.i, q, f);
    y := JobNeeds(sc, run, q, f);
  }
}
