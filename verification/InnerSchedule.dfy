/**
 Step-by-step runs of the scheduler inside a partition: fixed priority, work conserving,
 cooperative (a poll segment, once started, is not taken off the processor by another task),
 and able to advance only while the partition holds the processor.
 */
module InnerSchedule {
  import opened Arith
  import opened Demand
  import opened PartitionSupply
  import opened JobStreams

  /**
   Outstanding and executed work of each task, highest priority first, and what is left of the
   poll segment that is in progress (`seg` units of task `cur`; none when `seg` is 0).
   */
  datatype State = State(pend: seq<nat>, done: seq<nat>, cur: nat, seg: nat)

  predicate Shaped(tasks: seq<Task>, s: State) {
    && |s.pend| == |s.done| == |tasks|
    && (0 < s.seg ==> s.cur < |tasks| && s.seg <= s.pend[s.cur] && s.seg < tasks[s.cur].segment)
  }

  function Initial(n: nat): State {
    State(seq(n, _ => 0), seq(n, _ => 0), 0, 0)
  }

  /** Outstanding work once the jobs released at time `t` have been added. */
  function Admit(jobs: Jobs, t: nat, pend: seq<nat>): (r: seq<nat>)
    ensures |r| == |pend|
    ensures forall k | 0 <= k < |pend| :: r[k] == pend[k] + Arrived(jobs, k, t, t + 1)
  {
    seq(|pend|, k requires 0 <= k < |pend| => pend[k] + Arrived(jobs, k, t, t + 1))
  }

  /** One unit of task `k`, with `left` units of its poll segment to go. */
  function Serve(s: State, pend: seq<nat>, k: nat, left: nat): State
    requires k < |pend| == |s.done| && 0 < pend[k]
  {
    State(pend[k := pend[k] - 1], s.done[k := s.done[k] + 1], k, left)
  }

  predicate Highest(pend: seq<nat>, k: nat) {
    k < |pend| && 0 < pend[k] && forall j | 0 <= j < k :: pend[j] == 0
  }

  /** A new poll segment is at most the declared one, and never longer than the outstanding work. */
  predicate SegmentOf(task: Task, outstanding: nat, length: nat) {
    1 <= length <= outstanding && (length == 1 || length <= task.segment)
  }

  predicate Idle(pend: seq<nat>) {
    forall k | 0 <= k < |pend| :: pend[k] == 0
  }

  /** One instant. `on` says whether the partition holds the processor. */
  ghost predicate Step(tasks: seq<Task>, jobs: Jobs, t: nat, on: bool, s: State, s': State)
    requires Shaped(tasks, s)
  {
    var pend := Admit(jobs, t, s.pend);
    if !on then s' == s.(pend := pend)
    else if 0 < s.seg then s' == Serve(s, pend, s.cur, s.seg - 1)
    else if Idle(pend) then s' == s.(pend := pend)
    else exists k: nat, length: nat ::
      Highest(pend, k) && SegmentOf(tasks[k], pend[k], length) && s' == Serve(s, pend, k, length - 1)
  }

  type History = nat -> State

  ghost predicate StepAt(tasks: seq<Task>, jobs: Jobs, supply: Trace, run: History, t: nat) {
    Shaped(tasks, run(t)) && Step(tasks, jobs, t, supply(t), run(t), run(t + 1))
  }

  /** A run starts with nothing outstanding and follows the scheduler at every instant. */
  ghost predicate Run(tasks: seq<Task>, jobs: Jobs, supply: Trace, run: History) {
    && run(0) == Initial(|tasks|)
    && (forall k | 0 <= k < |tasks| :: LegalStream(tasks[k], jobs, k))
    && (forall t: nat :: Shaped(tasks, run(t)))
    && (forall t: nat :: StepAt(tasks, jobs, supply, run, t))
  }

  /** The scheduler keeps its state in shape, so `Run` excludes no behaviour by asking for it. */
  lemma StepKeepsShape(tasks: seq<Task>, jobs: Jobs, t: nat, on: bool, s: State, s': State)
    requires Shaped(tasks, s) && Step(tasks, jobs, t, on, s, s')
    ensures Shaped(tasks, s')
  {
  }

  /** And it is never stuck. */
  lemma StepExists(tasks: seq<Task>, jobs: Jobs, t: nat, on: bool, s: State)
    requires Shaped(tasks, s)
    ensures exists s' :: Step(tasks, jobs, t, on, s, s')
  {
    var pend := Admit(jobs, t, s.pend);
    if !on || (s.seg == 0 && Idle(pend)) {
      assert Step(tasks, jobs, t, on, s, s.(pend := pend));
    } else if 0 < s.seg {
      assert Step(tasks, jobs, t, on, s, Serve(s, pend, s.cur, s.seg - 1));
    } else {
      var k := LeastBusy(pend, 0);
      assert SegmentOf(tasks[k], pend[k], 1);
      assert Step(tasks, jobs, t, on, s, Serve(s, pend, k, 1 - 1));
    }
  }

  // ---- Outstanding work of the tasks down to a priority level ----

  function Sum(q: seq<nat>): nat {
    if q == [] then 0 else Sum(q[..|q| - 1]) + q[|q| - 1]
  }

  lemma {:induction false} SumUpdate(q: seq<nat>, c: nat, k: nat, v: nat)
    requires c <= |q| && k < |q|
    ensures Sum(q[k := v][..c]) == Sum(q[..c]) + if k < c then v - q[k] else 0
    decreases c
  {
    if 0 < c {
      SumUpdate(q, c - 1, k, v);
      assert q[..c][..c - 1] == q[..c - 1];
      assert q[k := v][..c][..c - 1] == q[k := v][..c - 1];
    }
  }

  lemma {:induction false} SumAdmit(jobs: Jobs, t: nat, pend: seq<nat>, c: nat)
    requires c <= |pend|
    ensures Sum(Admit(jobs, t, pend)[..c]) == Sum(pend[..c]) + ArrivedFirst(jobs, c, t, t + 1)
    decreases c
  {
    if 0 < c {
      SumAdmit(jobs, t, pend, c - 1);
      assert pend[..c][..c - 1] == pend[..c - 1];
      assert Admit(jobs, t, pend)[..c][..c - 1] == Admit(jobs, t, pend)[..c - 1];
    }
  }

  lemma {:induction false} SumZero(q: seq<nat>)
    ensures Sum(q) == 0 <==> Idle(q)
  {
    if q != [] {
      var n := |q| - 1;
      SumZero(q[..n]);
      if Idle(q[..n]) && q[n] == 0 {
        forall k | 0 <= k < |q| ensures q[k] == 0 {
          if k < n { assert q[..n][k] == q[k]; }
        }
      }
    }
  }

  /** Outstanding work of the tasks `0 .. c` (exclusive). */
  function Level(s: State, c: nat): nat
    requires c <= |s.pend|
  {
    Sum(s.pend[..c])
  }

  /** What is left of a segment of a task below the level; it runs before higher-priority work. */
  function Blocking(s: State, c: nat): nat {
    if 0 < s.seg && c <= s.cur then s.seg else 0
  }

  /**
   While work of the level is outstanding, each unit of supply is spent on that work or on the
   one lower-priority segment that was already in progress.
   */
  lemma BusyStep(tasks: seq<Task>, jobs: Jobs, t: nat, on: bool, s: State, s': State, c: nat)
    requires Shaped(tasks, s) && Step(tasks, jobs, t, on, s, s') && c <= |tasks|
    requires Shaped(tasks, s') && 0 < Level(s', c)
    ensures Level(s', c) + Blocking(s', c) + (if on then 1 else 0)
         == Level(s, c) + Blocking(s, c) + ArrivedFirst(jobs, c, t, t + 1)
  {
    var pend := Admit(jobs, t, s.pend);
    SumAdmit(jobs, t, s.pend, c);
    SumZero(pend[..c]);
    if on && (0 < s.seg || !Idle(pend)) { ServeLevel(s, pend, s'.cur, s'.seg, c); }
  }

  /** What serving a unit of task `k` leaves of a level, but for the segment in progress. */
  lemma ServeLevel(s: State, pend: seq<nat>, k: nat, left: nat, c: nat)
    requires k < |pend| == |s.done| && 0 < pend[k] && c <= |pend|
    ensures var s' := Serve(s, pend, k, left);
      Level(s', c) + Blocking(s', c) == Sum(pend[..c]) - (if k < c then 1 else 0) + if 0 < left && c <= k then left else 0
  {
    SumUpdate(pend, c, k, pend[k] - 1);
  }

  /** Nothing of the level is outstanding just before time `t`. */
  ghost predicate Quiet(tasks: seq<Task>, run: History, c: nat, t: nat) {
    Shaped(tasks, run(t)) && c <= |tasks| && Level(run(t), c) == 0
  }

  /** Conservation of work over a busy stretch that starts at a quiet instant. */
  lemma {:induction false} BusyStretch(tasks: seq<Task>, jobs: Jobs, supply: Trace, run: History, c: nat, t0: nat, t: nat)
    requires Run(tasks, jobs, supply, run) && c <= |tasks|
    requires Quiet(tasks, run, c, t0) && t0 <= t
    requires forall u | t0 < u <= t :: !Quiet(tasks, run, c, u)
    ensures Level(run(t), c) + Blocking(run(t), c) + Supplied(supply, t0, t)
         == Blocking(run(t0), c) + ArrivedFirst(jobs, c, t0, t)
    decreases t
  {
    if t == t0 {
      NothingFromFirst(jobs, c, t0);
    } else {
      var u := t - 1;
      BusyStretch(tasks, jobs, supply, run, c, t0, u);
      assert !Quiet(tasks, run, c, t);
      BusyAt(tasks, jobs, supply, run, c, u);
      ArrivedFirstSplit(tasks, jobs, c, t0, u, t);
    }
  }

  lemma BusyAt(tasks: seq<Task>, jobs: Jobs, supply: Trace, run: History, c: nat, u: nat)
    requires Run(tasks, jobs, supply, run) && c <= |tasks| && !Quiet(tasks, run, c, u + 1)
    ensures Level(run(u + 1), c) + Blocking(run(u + 1), c) + (if supply(u) then 1 else 0)
         == Level(run(u), c) + Blocking(run(u), c) + ArrivedFirst(jobs, c, u, u + 1)
  {
    assert StepAt(tasks, jobs, supply, run, u);
    BusyStep(tasks, jobs, u, supply(u), run(u), run(u + 1), c);
  }

  function MaxSegment(tasks: seq<Task>): nat {
    if tasks == [] then 0 else Max(MaxSegment(tasks[..|tasks| - 1]), tasks[|tasks| - 1].segment)
  }

  lemma {:induction false} SegmentAtMostMax(tasks: seq<Task>, k: nat)
    requires k < |tasks|
    ensures tasks[k].segment <= MaxSegment(tasks)
  {
    if k < |tasks| - 1 { SegmentAtMostMax(tasks[..|tasks| - 1], k); }
  }

  /** What can be left of the longest segment once it has kept a more urgent release waiting. */
  function LongestRest(tasks: seq<Task>): nat {
    if MaxSegment(tasks) == 0 then 0 else MaxSegment(tasks) - 1
  }

  /** The blocking term covers the lower-priority segment in progress at any instant, with a unit to spare. */
  lemma BlockingAtMostSegment(tasks: seq<Task>, s: State, c: nat)
    requires Shaped(tasks, s) && c <= |tasks|
    ensures Blocking(s, c) <= LongestRest(tasks[c..]) <= MaxSegment(tasks[c..])
  {
    if 0 < s.seg && c <= s.cur { SegmentAtMostMax(tasks[c..], s.cur - c); }
  }

  // ---- Response times ----

  function WindowSupply(supply: Trace, a: nat, length: nat): nat {
    Supplied(supply, a, a + length)
  }

  /** A window length that task `i` can rely on: its supply covers all that can be demanded in it. */
  ghost predicate Relies(tasks: seq<Task>, supply: Trace, i: nat, length: nat)
    requires i < |tasks| && Periodic(AsHps(tasks[..i]))
  {
    forall a: nat ::
      Rbf(tasks[i].exec, MaxSegment(tasks[i + 1..]), AsHps(tasks[..i]), length) <= WindowSupply(supply, a, length)
  }

  /** From a quiet instant, the level is quiet again within such a window. */
  lemma QuietAgain(tasks: seq<Task>, jobs: Jobs, supply: Trace, run: History, i: nat, length: nat, t0: nat)
    returns (t1: nat)
    requires Run(tasks, jobs, supply, run) && i < |tasks|
    requires Periodic(AsHps(tasks[..i])) && Relies(tasks, supply, i, length)
    requires 0 < length && length + tasks[i].jitter <= tasks[i].period
    requires Quiet(tasks, run, i + 1, t0)
    ensures t0 < t1 <= t0 + length && Quiet(tasks, run, i + 1, t1)
  {
    var c, end := i + 1, t0 + length;
    if t :| t0 < t <= end && Quiet(tasks, run, c, t) {
      t1 := t;
    } else {
      BusyStretch(tasks, jobs, supply, run, c, t0, end);
      BlockingAtMostSegment(tasks, run(t0), c);
      LevelArrivals(tasks, jobs, i, t0, length);
      assert WindowSupply(supply, t0, length) == Supplied(supply, t0, end);
      assert Level(run(end), c) == 0;
      t1 := end;
    }
  }

  /** In a window no longer than the period less the jitter, the task itself brings one job. */
  lemma LevelArrivals(tasks: seq<Task>, jobs: Jobs, i: nat, x: nat, length: nat)
    requires i < |tasks| && forall k | 0 <= k < |tasks| :: LegalStream(tasks[k], jobs, k)
    requires length + tasks[i].jitter <= tasks[i].period
    ensures Periodic(AsHps(tasks[..i]))
    ensures ArrivedFirst(jobs, i + 1, x, x + length) <= tasks[i].exec + Interference(AsHps(tasks[..i]), length)
  {
    ArrivedWithinInterference(tasks[..i], jobs, x, length);
    ArrivedWithinLoad(tasks[i], jobs, i, x, length);
    CeilDivLeast(length + tasks[i].jitter, tasks[i].period, 1);
    MulMono(Releases(tasks[i].AsHp(), length), 1, tasks[i].exec);
  }

  lemma {:induction false} LastQuiet(tasks: seq<Task>, jobs: Jobs, supply: Trace, run: History, c: nat, t: nat)
    returns (t0: nat)
    requires Run(tasks, jobs, supply, run) && c <= |tasks|
    ensures t0 <= t && Quiet(tasks, run, c, t0) && forall u | t0 < u <= t :: !Quiet(tasks, run, c, u)
    decreases t
  {
    if Quiet(tasks, run, c, t) {
      t0 := t;
    } else if t == 0 {
      SumZero(run(0).pend[..c]);
      assert false;
    } else {
      t0 := LastQuiet(tasks, jobs, supply, run, c, t - 1);
    }
  }

  /** Executed and outstanding work of a task add up to the work released. */
  lemma {:induction false} WorkConserved(tasks: seq<Task>, jobs: Jobs, supply: Trace, run: History, k: nat, t: nat)
    requires Run(tasks, jobs, supply, run) && k < |tasks|
    ensures run(t).done[k] + run(t).pend[k] == Arrived(jobs, k, 0, t)
    decreases t
  {
    if t == 0 {
      NothingInEmptyWindow(jobs, k, 0, 0, 0);
    } else {
      assert StepAt(tasks, jobs, supply, run, t - 1);
      WorkConserved(tasks, jobs, supply, run, k, t - 1);
      ArrivedSplit(tasks[k], jobs, k, 0, t - 1, t);
    }
  }

  /** Job `m` of task `i` is complete at `f`: the task has executed all its work up to that job. */
  ghost predicate Completed(tasks: seq<Task>, jobs: Jobs, run: History, i: nat, m: nat, f: nat) {
    && Shaped(tasks, run(f)) && i < |tasks|
    && jobs(i, m).release <= f
    && WorkOfFirst(jobs, i, m + 1) <= run(f).done[i]
  }

  // ---- From the release of a job to its end ----

  /** What is executed before task `i` has done `goal` units: more urgent work, a segment in progress, its own. */
  function Ahead(s: State, i: nat, goal: nat): int
    requires i < |s.pend| == |s.done|
  {
    Level(s, i) + Blocking(s, i + 1) + goal - s.done[i]
  }

  /** While the task has work towards its goal, each unit of supply is spent on what is ahead. */
  lemma AheadStep(tasks: seq<Task>, jobs: Jobs, t: nat, on: bool, s: State, s': State, i: nat, goal: nat)
    requires Shaped(tasks, s) && Shaped(tasks, s') && Step(tasks, jobs, t, on, s, s') && i < |tasks|
    requires 0 < s.pend[i] + Arrived(jobs, i, t, t + 1)
    ensures Ahead(s', i, goal) + (if on then 1 else 0) == Ahead(s, i, goal) + ArrivedFirst(jobs, i, t, t + 1)
  {
    var pend := Admit(jobs, t, s.pend);
    SumAdmit(jobs, t, s.pend, i);
    if on {
      assert 0 < pend[i];
      assert !Idle(pend);
      ServeAhead(s, pend, s'.cur, s'.seg, i, goal);
    }
  }

  /** What serving a unit of task `k` takes from what is ahead, but for the segment in progress. */
  lemma ServeAhead(s: State, pend: seq<nat>, k: nat, left: nat, i: nat, goal: nat)
    requires k < |pend| == |s.done| && 0 < pend[k] && i < |pend|
    ensures var s' := Serve(s, pend, k, left);
      Ahead(s', i, goal) == Sum(pend[..i]) + goal - s.done[i] - (if k <= i then 1 else 0)
                          + if 0 < left && i < k then left else 0
  {
    SumUpdate(pend, i, k, pend[k] - 1);
  }

  lemma AheadAt(tasks: seq<Task>, jobs: Jobs, supply: Trace, run: History, i: nat, goal: nat, u: nat)
    requires Run(tasks, jobs, supply, run) && i < |tasks| && goal <= Arrived(jobs, i, 0, u + 1)
    requires run(u + 1).done[i] < goal
    ensures run(u).done[i] < goal
    ensures Ahead(run(u + 1), i, goal) + (if supply(u) then 1 else 0)
         == Ahead(run(u), i, goal) + ArrivedFirst(jobs, i, u, u + 1)
  {
    PendingAt(tasks, jobs, supply, run, i, goal, u);
    assert StepAt(tasks, jobs, supply, run, u);
    AheadStep(tasks, jobs, u, supply(u), run(u), run(u + 1), i, goal);
  }

  /** Work towards a goal that has arrived is outstanding until it is done. */
  lemma PendingAt(tasks: seq<Task>, jobs: Jobs, supply: Trace, run: History, i: nat, goal: nat, u: nat)
    requires Run(tasks, jobs, supply, run) && i < |tasks| && goal <= Arrived(jobs, i, 0, u + 1)
    requires run(u + 1).done[i] < goal
    ensures run(u).done[i] < goal
    ensures 0 < run(u).pend[i] + Arrived(jobs, i, u, u + 1)
  {
    DoneGrows(tasks, jobs, supply, run, i, u);
    WorkConserved(tasks, jobs, supply, run, i, u);
    ArrivedSplit(tasks[i], jobs, i, 0, u, u + 1);
  }

  lemma DoneGrows(tasks: seq<Task>, jobs: Jobs, supply: Trace, run: History, i: nat, u: nat)
    requires Run(tasks, jobs, supply, run) && i < |tasks|
    ensures run(u).done[i] <= run(u + 1).done[i]
  {
    assert StepAt(tasks, jobs, supply, run, u);
  }

  lemma {:induction false} AheadStretch(
      tasks: seq<Task>, jobs: Jobs, supply: Trace, run: History, i: nat, goal: nat, r: nat, t: nat)
    requires Run(tasks, jobs, supply, run) && i < |tasks| && r <= t
    requires goal <= Arrived(jobs, i, 0, r + 1)
    requires run(t).done[i] < goal
    ensures Ahead(run(t), i, goal) + Supplied(supply, r, t) == Ahead(run(r), i, goal) + ArrivedFirst(jobs, i, r, t)
    decreases t
  {
    if t == r {
      NothingFromFirst(jobs, i, r);
    } else {
      var u := t - 1;
      ArrivedSplit(tasks[i], jobs, i, 0, r + 1, t);
      AheadAt(tasks, jobs, supply, run, i, goal, u);
      AheadStretch(tasks, jobs, supply, run, i, goal, r, u);
      ArrivedFirstSplit(tasks, jobs, i, r, u, t);
    }
  }

  /** Once the supply covers what is ahead, the goal is reached. */
  lemma GoalReached(
      tasks: seq<Task>, jobs: Jobs, supply: Trace, run: History, i: nat, goal: nat, r: nat, end: nat)
    requires Run(tasks, jobs, supply, run) && i < |tasks| && r <= end
    requires goal <= Arrived(jobs, i, 0, r + 1)
    requires Ahead(run(r), i, goal) + ArrivedFirst(jobs, i, r, end) <= Supplied(supply, r, end)
    ensures goal <= run(end).done[i]
  {
    if run(end).done[i] < goal { AheadStretch(tasks, jobs, supply, run, i, goal, r, end); }
  }

  lemma GoalArrived(task: Task, jobs: Jobs, k: nat, m: nat)
    requires LegalStream(task, jobs, k) && task.jitter <= task.period
    ensures WorkOfFirst(jobs, k, m + 1) <= Arrived(jobs, k, 0, jobs(k, m).release + 1)
  {
    WorkArrived(task, jobs, k, m, jobs(k, m).release + 1);
  }

  /**
   A job that is released when nothing of its level is outstanding completes within the window its
   task relies on, however long that window is compared with the period.
   */
  lemma FreshJobCompletes(tasks: seq<Task>, jobs: Jobs, supply: Trace, run: History, i: nat, length: nat, m: nat)
    requires Run(tasks, jobs, supply, run) && i < |tasks|
    requires Periodic(AsHps(tasks[..i])) && Relies(tasks, supply, i, length)
    requires tasks[i].jitter < tasks[i].period && Quiet(tasks, run, i + 1, jobs(i, m).release)
    ensures Completed(tasks, jobs, run, i, m, jobs(i, m).release + length)
  {
    var r := jobs(i, m).release;
    var goal := WorkOfFirst(jobs, i, m + 1);
    QuietAtRelease(tasks, jobs, supply, run, i, m);
    GoalArrived(tasks[i], jobs, i, m);
    BlockingAtMostSegment(tasks, run(r), i + 1);
    ArrivedWithinInterference(tasks[..i], jobs, r, length);
    assert WindowSupply(supply, r, length) == Supplied(supply, r, r + length);
    GoalReached(tasks, jobs, supply, run, i, goal, r, r + length);
  }

  /** At such a release nothing is ahead but the job itself and a lower segment. */
  lemma QuietAtRelease(tasks: seq<Task>, jobs: Jobs, supply: Trace, run: History, i: nat, m: nat)
    requires Run(tasks, jobs, supply, run) && i < |tasks|
    requires tasks[i].jitter < tasks[i].period && Quiet(tasks, run, i + 1, jobs(i, m).release)
    ensures var r := jobs(i, m).release;
      Ahead(run(r), i, WorkOfFirst(jobs, i, m + 1)) <= tasks[i].exec + Blocking(run(r), i + 1)
  {
    var r := jobs(i, m).release;
    LevelNext(run(r), i);
    WorkConserved(tasks, jobs, supply, run, i, r);
    EarlierArrived(tasks[i], jobs, i, m);
  }

  lemma LevelNext(s: State, i: nat)
    requires i < |s.pend|
    ensures Level(s, i + 1) == Level(s, i) + s.pend[i]
  {
    assert s.pend[..i + 1][..i] == s.pend[..i];
  }

  lemma EarlierArrived(task: Task, jobs: Jobs, k: nat, m: nat)
    requires LegalStream(task, jobs, k) && task.jitter < task.period
    ensures WorkOfFirst(jobs, k, m + 1) <= Arrived(jobs, k, 0, jobs(k, m).release) + task.exec
  {
    assert LegalJob(task, jobs(k, m));
    if 0 < m {
      NominalSpacing(task, jobs, k, m - 1, m);
      assert LegalJob(task, jobs(k, m - 1));
      WorkArrived(task, jobs, k, m - 1, jobs(k, m).release);
    }
  }

  /**
   Every job of every run completes within the window its task relies on, counted from its
   release: wherever in a busy stretch it falls and whatever the other tasks do, if the window is
   within the period; and if it is not, when nothing of its level is outstanding at the release.
   */
  lemma JobCompletes(tasks: seq<Task>, jobs: Jobs, supply: Trace, run: History, i: nat, length: nat, m: nat)
    returns (f: nat)
    requires Run(tasks, jobs, supply, run) && i < |tasks|
    requires Periodic(AsHps(tasks[..i])) && Relies(tasks, supply, i, length)
    requires length + tasks[i].jitter <= tasks[i].period
          || (tasks[i].jitter < tasks[i].period && Quiet(tasks, run, i + 1, jobs(i, m).release))
    ensures f <= jobs(i, m).release + length
    ensures Completed(tasks, jobs, run, i, m, f)
  {
    if length + tasks[i].jitter <= tasks[i].period {
      f := PromptJobCompletes(tasks, jobs, supply, run, i, length, m);
    } else {
      FreshJobCompletes(tasks, jobs, supply, run, i, length, m);
      f := jobs(i, m).release + length;
    }
  }

  lemma PromptJobCompletes(tasks: seq<Task>, jobs: Jobs, supply: Trace, run: History, i: nat, length: nat, m: nat)
    returns (f: nat)
    requires Run(tasks, jobs, supply, run) && i < |tasks|
    requires Periodic(AsHps(tasks[..i])) && Relies(tasks, supply, i, length)
    requires length + tasks[i].jitter <= tasks[i].period
    ensures f <= jobs(i, m).release + length
    ensures Completed(tasks, jobs, run, i, m, f)
  {
    var release := jobs(i, m).release;
    if length == 0 {
      f := release;
      assert 0 <= WindowSupply(supply, 0, length) <= 0;
      NoWorkNoJobs(tasks[i], jobs, i, m + 1);
    } else {
      var t0 := LastQuiet(tasks, jobs, supply, run, i + 1, release);
      f := QuietAgain(tasks, jobs, supply, run, i, length, t0);
      WorkConserved(tasks, jobs, supply, run, i, f);
      assert run(f).pend[i] == 0 by {
        SumZero(run(f).pend[..i + 1]);
        assert run(f).pend[..i + 1][i] == run(f).pend[i];
      }
      WorkArrived(tasks[i], jobs, i, m, f);
    }
  }

  // ---- Runs exist ----

  /** Tasks from `c` on take their whole segment if they can; those before it take units. */
  function Length(tasks: seq<Task>, c: nat, k: nat, outstanding: nat): (length: nat)
    requires k < |tasks| && 0 < outstanding
    ensures SegmentOf(tasks[k], outstanding, length) && (k < c ==> length == 1)
  {
    if c <= k && 1 <= tasks[k].segment <= outstanding then tasks[k].segment else 1
  }

  /** The next state with those lengths. */
  function Next(tasks: seq<Task>, jobs: Jobs, c: nat, t: nat, on: bool, s: State): (s': State)
    requires Shaped(tasks, s)
    ensures Shaped(tasks, s') && Step(tasks, jobs, t, on, s, s')
    ensures (0 < s.seg ==> c <= s.cur) ==> (0 < s'.seg ==> c <= s'.cur)
  {
    var pend := Admit(jobs, t, s.pend);
    if !on then s.(pend := pend)
    else if 0 < s.seg then Serve(s, pend, s.cur, s.seg - 1)
    else if Idle(pend) then s.(pend := pend)
    else
      var k := LeastBusy(pend, 0);
      Serve(s, pend, k, Length(tasks, c, k, pend[k]) - 1)
  }

  function LeastBusy(pend: seq<nat>, from: nat): (k: nat)
    requires !Idle(pend) && from <= |pend| && forall j | 0 <= j < from :: pend[j] == 0
    ensures Highest(pend, k)
    decreases |pend| - from
  {
    if from < |pend| && 0 < pend[from] then from else LeastBusy(pend, from + 1)
  }

  function Simulate(tasks: seq<Task>, jobs: Jobs, supply: Trace, c: nat, t: nat): (s: State)
    ensures Shaped(tasks, s) && (0 < s.seg ==> c <= s.cur)
  {
    if t == 0 then Initial(|tasks|)
    else Next(tasks, jobs, c, t - 1, supply(t - 1), Simulate(tasks, jobs, supply, c, t - 1))
  }

  /** The run follows those lengths. */
  ghost predicate Follows(tasks: seq<Task>, jobs: Jobs, supply: Trace, c: nat, run: History) {
    forall t: nat :: FollowsAt(tasks, jobs, supply, c, run, t)
  }

  ghost predicate FollowsAt(tasks: seq<Task>, jobs: Jobs, supply: Trace, c: nat, run: History, t: nat) {
    run(t) == Simulate(tasks, jobs, supply, c, t)
  }

  lemma FollowsNext(tasks: seq<Task>, jobs: Jobs, supply: Trace, c: nat, run: History, t: nat)
    requires Follows(tasks, jobs, supply, c, run)
    ensures Shaped(tasks, run(t)) && run(t + 1) == Next(tasks, jobs, c, t, supply(t), run(t))
    ensures 0 < run(t).seg ==> c <= run(t).cur
  {
    assert FollowsAt(tasks, jobs, supply, c, run, t) && FollowsAt(tasks, jobs, supply, c, run, t + 1);
  }

  /** Whatever the jobs and the supply, the scheduler has a run. */
  lemma RunExists(tasks: seq<Task>, jobs: Jobs, supply: Trace, c: nat) returns (run: History)
    requires forall k | 0 <= k < |tasks| :: LegalStream(tasks[k], jobs, k)
    ensures Run(tasks, jobs, supply, run) && Follows(tasks, jobs, supply, c, run)
  {
    run := (t: nat) => Simulate(tasks, jobs, supply, c, t);
    forall t: nat ensures StepAt(tasks, jobs, supply, run, t) {
      FollowsNext(tasks, jobs, supply, c, run, t);
    }
  }
}
