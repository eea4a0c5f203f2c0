/**
 Jobs of periodic or sporadic tasks with release jitter, and how much work they can bring
 into a window of time.
 */
module JobStreams {
  import opened Arith
  import opened Demand

  /** An inner task: minimum separation, execution time, longest poll segment, release jitter. */
  datatype Task = Task(period: nat, exec: nat, segment: nat, jitter: nat)
  {
    function AsHp(): Hp {
      Hp(period, exec, jitter)
    }
  }

  /** A job arrives at its nominal time, is released some time later, and needs some work. */
  datatype Job = Job(nominal: nat, release: nat, work: nat)

  /** The `n`-th job of task `k` is `jobs(k, n)`. */
  type Jobs = (nat, nat) -> Job

  predicate LegalJob(task: Task, job: Job) {
    job.nominal <= job.release <= job.nominal + task.jitter && job.work <= task.exec
  }

  predicate Separated(task: Task, jobs: Jobs, k: nat, n: nat) {
    jobs(k, n).nominal + task.period <= jobs(k, n + 1).nominal
  }

  /** Each job keeps to its jitter and execution time; arrivals are at least a period apart. */
  ghost predicate LegalStream(task: Task, jobs: Jobs, k: nat) {
    && 0 < task.period
    && (forall n: nat :: LegalJob(task, jobs(k, n)))
    && (forall n: nat :: Separated(task, jobs, k, n))
  }

  predicate InWindow(job: Job, x: nat, y: nat) {
    x <= job.release < y
  }

  /** Work of the jobs `lo .. hi` (exclusive) of task `k` released in `[x, y)`. */
  function Released(jobs: Jobs, k: nat, lo: nat, hi: nat, x: nat, y: nat): nat
    decreases hi
  {
    if hi <= lo then 0
    else
      Released(jobs, k, lo, hi - 1, x, y) +
      if InWindow(jobs(k, hi - 1), x, y) then jobs(k, hi - 1).work else 0
  }

  /** Work of task `k` released in `[x, y)`. Job `n` is never released before time `n`. */
  function Arrived(jobs: Jobs, k: nat, x: nat, y: nat): nat {
    Released(jobs, k, 0, y, x, y)
  }

  /** Work of the tasks `0 .. c` (exclusive) released in `[x, y)`. */
  function ArrivedFirst(jobs: Jobs, c: nat, x: nat, y: nat): nat {
    if c == 0 then 0 else ArrivedFirst(jobs, c - 1, x, y) + Arrived(jobs, c - 1, x, y)
  }

  /** Work of the first `n` jobs of task `k`. */
  function WorkOfFirst(jobs: Jobs, k: nat, n: nat): nat {
    if n == 0 then 0 else WorkOfFirst(jobs, k, n - 1) + jobs(k, n - 1).work
  }

  lemma {:induction false} NominalSpacing(task: Task, jobs: Jobs, k: nat, m: nat, n: nat)
    requires LegalStream(task, jobs, k) && m <= n
    ensures jobs(k, m).nominal + (n - m) * task.period <= jobs(k, n).nominal
    decreases n
  {
    if m < n {
      NominalSpacing(task, jobs, k, m, n - 1);
      assert Separated(task, jobs, k, n - 1);
      assert (n - m) * task.period == (n - 1 - m) * task.period + task.period;
    }
  }

  lemma NotBeforeIndex(task: Task, jobs: Jobs, k: nat, n: nat)
    requires LegalStream(task, jobs, k)
    ensures n <= jobs(k, n).nominal <= jobs(k, n).release
  {
    NominalSpacing(task, jobs, k, 0, n);
    MulMono(1, task.period, n);
    assert LegalJob(task, jobs(k, n));
  }

  /** Jobs numbered from the end of the window on are not released in it. */
  lemma {:induction false} ReleasedExtend(task: Task, jobs: Jobs, k: nat, hi: nat, x: nat, y: nat)
    requires LegalStream(task, jobs, k) && y <= hi
    ensures Released(jobs, k, 0, hi, x, y) == Arrived(jobs, k, x, y)
    decreases hi
  {
    if y < hi {
      NotBeforeIndex(task, jobs, k, hi - 1);
      ReleasedExtend(task, jobs, k, hi - 1, x, y);
    }
  }

  lemma {:induction false} ReleasedSplit(jobs: Jobs, k: nat, lo: nat, hi: nat, x: nat, y: nat, z: nat)
    requires x <= y <= z
    ensures Released(jobs, k, lo, hi, x, z) == Released(jobs, k, lo, hi, x, y) + Released(jobs, k, lo, hi, y, z)
    decreases hi
  {
    if lo < hi { ReleasedSplit(jobs, k, lo, hi - 1, x, y, z); }
  }

  lemma ArrivedSplit(task: Task, jobs: Jobs, k: nat, x: nat, y: nat, z: nat)
    requires LegalStream(task, jobs, k) && x <= y <= z
    ensures Arrived(jobs, k, x, z) == Arrived(jobs, k, x, y) + Arrived(jobs, k, y, z)
  {
    ReleasedSplit(jobs, k, 0, z, x, y, z);
    ReleasedExtend(task, jobs, k, z, x, y);
  }

  lemma {:induction false} ArrivedFirstSplit(tasks: seq<Task>, jobs: Jobs, c: nat, x: nat, y: nat, z: nat)
    requires c <= |tasks| && forall k | 0 <= k < c :: LegalStream(tasks[k], jobs, k)
    requires x <= y <= z
    ensures ArrivedFirst(jobs, c, x, z) == ArrivedFirst(jobs, c, x, y) + ArrivedFirst(jobs, c, y, z)
    decreases c
  {
    if 0 < c {
      ArrivedFirstSplit(tasks, jobs, c - 1, x, y, z);
      ArrivedSplit(tasks[c - 1], jobs, c - 1, x, y, z);
    }
  }

  lemma {:induction false} NothingInEmptyWindow(jobs: Jobs, k: nat, lo: nat, hi: nat, x: nat)
    ensures Released(jobs, k, lo, hi, x, x) == 0
    decreases hi
  {
    if lo < hi { NothingInEmptyWindow(jobs, k, lo, hi - 1, x); }
  }

  lemma {:induction false} NothingFromFirst(jobs: Jobs, c: nat, x: nat)
    ensures ArrivedFirst(jobs, c, x, x) == 0
  {
    if 0 < c {
      NothingFromFirst(jobs, c - 1, x);
      NothingInEmptyWindow(jobs, c - 1, 0, x, x);
    }
  }

  lemma {:induction false} EachAtMostExec(task: Task, jobs: Jobs, k: nat, lo: nat, hi: nat, x: nat, y: nat)
    requires LegalStream(task, jobs, k) && lo <= hi
    ensures Released(jobs, k, lo, hi, x, y) <= (hi - lo) * task.exec
    decreases hi
  {
    if lo < hi {
      EachAtMostExec(task, jobs, k, lo, hi - 1, x, y);
      assert LegalJob(task, jobs(k, hi - 1));
      assert (hi - lo) * task.exec == (hi - 1 - lo) * task.exec + task.exec;
    }
  }

  /** Once `count` periods cover the window and its jitter, later jobs fall outside. */
  lemma LaterJobOutside(task: Task, jobs: Jobs, k: nat, lo: nat, n: nat, x: nat, y: nat, count: nat)
    requires LegalStream(task, jobs, k)
    requires InWindow(jobs(k, lo), x, y) && y - x + task.jitter <= count * task.period
    requires lo + count <= n
    ensures !InWindow(jobs(k, n), x, y)
  {
    NominalSpacing(task, jobs, k, lo, n);
    MulMono(count, n - lo, task.period);
    assert LegalJob(task, jobs(k, n)) && LegalJob(task, jobs(k, lo));
  }

  /** If job `lo` falls in the window, at most `count` jobs from it on do. */
  lemma {:induction false} FromFirstInWindow(task: Task, jobs: Jobs, k: nat, lo: nat, hi: nat, x: nat, y: nat, count: nat)
    requires LegalStream(task, jobs, k)
    requires InWindow(jobs(k, lo), x, y) && y - x + task.jitter <= count * task.period
    ensures Released(jobs, k, lo, hi, x, y) <= count * task.exec
    decreases hi
  {
    if hi <= lo {
      MulMono(0, count, task.exec);
    } else if hi <= lo + count {
      EachAtMostExec(task, jobs, k, lo, hi, x, y);
      MulMono(hi - lo, count, task.exec);
    } else {
      LaterJobOutside(task, jobs, k, lo, hi - 1, x, y, count);
      FromFirstInWindow(task, jobs, k, lo, hi - 1, x, y, count);
    }
  }

  lemma {:induction false} ReleasedBound(task: Task, jobs: Jobs, k: nat, lo: nat, hi: nat, x: nat, y: nat, count: nat)
    requires LegalStream(task, jobs, k)
    requires y - x + task.jitter <= count * task.period
    ensures Released(jobs, k, lo, hi, x, y) <= count * task.exec
    decreases hi - lo
  {
    if lo < hi {
      if InWindow(jobs(k, lo), x, y) {
        FromFirstInWindow(task, jobs, k, lo, hi, x, y, count);
      } else {
        ReleasedBound(task, jobs, k, lo + 1, hi, x, y, count);
        SkipFirst(jobs, k, lo, hi, x, y);
      }
    } else {
      ProductPositive(count, task.exec);
    }
  }

  lemma {:induction false} SkipFirst(jobs: Jobs, k: nat, lo: nat, hi: nat, x: nat, y: nat)
    requires lo < hi && !InWindow(jobs(k, lo), x, y)
    ensures Released(jobs, k, lo, hi, x, y) == Released(jobs, k, lo + 1, hi, x, y)
    decreases hi
  {
    if lo + 1 < hi { SkipFirst(jobs, k, lo, hi - 1, x, y); }
  }

  /** The interference term of the recurrence bounds the work that really arrives. */
  lemma ArrivedWithinLoad(task: Task, jobs: Jobs, k: nat, x: nat, t: nat)
    requires LegalStream(task, jobs, k)
    ensures Arrived(jobs, k, x, x + t) <= Load(task.AsHp(), t)
  {
    CeilDivCovers(t + task.jitter, task.period);
    ReleasedBound(task, jobs, k, 0, x + t, x, x + t, Releases(task.AsHp(), t));
  }

  function AsHps(tasks: seq<Task>): (hp: seq<Hp>)
    ensures |hp| == |tasks| && forall j | 0 <= j < |hp| :: hp[j] == tasks[j].AsHp()
  {
    seq(|tasks|, j requires 0 <= j < |tasks| => tasks[j].AsHp())
  }

  lemma {:induction false} ArrivedWithinInterference(tasks: seq<Task>, jobs: Jobs, x: nat, t: nat)
    requires forall k | 0 <= k < |tasks| :: LegalStream(tasks[k], jobs, k)
    ensures Periodic(AsHps(tasks))
    ensures ArrivedFirst(jobs, |tasks|, x, x + t) <= Interference(AsHps(tasks), t)
  {
    if tasks != [] {
      var n := |tasks| - 1;
      ArrivedWithinInterference(tasks[..n], jobs, x, t);
      assert AsHps(tasks)[..n] == AsHps(tasks[..n]);
      ArrivedWithinLoad(tasks[n], jobs, n, x, t);
    }
  }

  /** All jobs up to `m` are among those released before the end of a window that has job `m` in it. */
  lemma {:induction false} EarlierJobsArrived(task: Task, jobs: Jobs, k: nat, n: nat, y: nat)
    requires LegalStream(task, jobs, k)
    requires forall m: nat | m < n :: jobs(k, m).release < y
    ensures WorkOfFirst(jobs, k, n) == Released(jobs, k, 0, n, 0, y)
    decreases n
  {
    if 0 < n {
      EarlierJobsArrived(task, jobs, k, n - 1, y);
      assert jobs(k, n - 1).release < y;
    }
  }

  lemma {:induction false} ReleasedGrows(jobs: Jobs, k: nat, hi: nat, hi': nat, x: nat, y: nat)
    requires hi <= hi'
    ensures Released(jobs, k, 0, hi, x, y) <= Released(jobs, k, 0, hi', x, y)
    decreases hi'
  {
    if hi < hi' { ReleasedGrows(jobs, k, hi, hi' - 1, x, y); }
  }

  /** While jitter stays within the period, jobs are released in order. */
  lemma ReleasesInOrder(task: Task, jobs: Jobs, k: nat, m: nat, n: nat)
    requires LegalStream(task, jobs, k) && task.jitter <= task.period && m < n
    ensures jobs(k, m).release <= jobs(k, n).release
  {
    NominalSpacing(task, jobs, k, m, n);
    MulMono(1, n - m, task.period);
    assert LegalJob(task, jobs(k, m)) && LegalJob(task, jobs(k, n));
  }

  /** When all released work of a task is done, so is every job released before that. */
  lemma WorkArrived(task: Task, jobs: Jobs, k: nat, m: nat, y: nat)
    requires LegalStream(task, jobs, k) && task.jitter <= task.period
    requires jobs(k, m).release < y
    ensures WorkOfFirst(jobs, k, m + 1) <= Arrived(jobs, k, 0, y)
  {
    forall m': nat | m' < m + 1 ensures jobs(k, m').release < y {
      if m' < m { ReleasesInOrder(task, jobs, k, m', m); }
    }
    EarlierJobsArrived(task, jobs, k, m + 1, y);
    NotBeforeIndex(task, jobs, k, m);
    ReleasedGrows(jobs, k, m + 1, y, 0, y);
  }

  /** Jobs released no earlier than `y` add nothing before it. */
  lemma {:induction false} ReleasedAtMost(jobs: Jobs, k: nat, m: nat, hi: nat, y: nat)
    requires forall n: nat | m <= n :: y <= jobs(k, n).release
    ensures Released(jobs, k, 0, hi, 0, y) <= WorkOfFirst(jobs, k, if hi <= m then hi else m)
    decreases hi
  {
    if 0 < hi { ReleasedAtMost(jobs, k, m, hi - 1, y); }
  }

  lemma {:induction false} WorkGrows(jobs: Jobs, k: nat, n: nat, m: nat)
    requires n <= m
    ensures WorkOfFirst(jobs, k, n) <= WorkOfFirst(jobs, k, m)
    decreases m
  {
    if n < m { WorkGrows(jobs, k, n, m - 1); }
  }

  lemma ArrivedAtMost(task: Task, jobs: Jobs, k: nat, m: nat, y: nat)
    requires LegalStream(task, jobs, k) && task.jitter <= task.period
    requires y <= jobs(k, m).release
    ensures Arrived(jobs, k, 0, y) <= WorkOfFirst(jobs, k, m)
  {
    forall n: nat | m <= n ensures y <= jobs(k, n).release {
      if m < n { ReleasesInOrder(task, jobs, k, m, n); }
    }
    ReleasedAtMost(jobs, k, m, y, y);
    if y < m { WorkGrows(jobs, k, y, m); }
  }

  lemma {:induction false} WorkBetween(task: Task, jobs: Jobs, k: nat, n: nat, m: nat)
    requires LegalStream(task, jobs, k) && n <= m
    ensures WorkOfFirst(jobs, k, m) <= WorkOfFirst(jobs, k, n) + (m - n) * task.exec
    decreases m
  {
    if n < m {
      WorkBetween(task, jobs, k, n, m - 1);
      assert LegalJob(task, jobs(k, m - 1));
      assert (m - n) * task.exec == (m - 1 - n) * task.exec + task.exec;
    }
  }

  /** The first of the jobs up to `m` that is released at or after `t0`; those before it have arrived. */
  lemma {:induction false} FirstFrom(task: Task, jobs: Jobs, k: nat, t0: nat, m: nat) returns (n: nat)
    requires LegalStream(task, jobs, k) && task.jitter <= task.period && t0 <= jobs(k, m).release
    ensures n <= m && t0 <= jobs(k, n).release && WorkOfFirst(jobs, k, n) <= Arrived(jobs, k, 0, t0)
  {
    if m == 0 {
      n := 0;
    } else if t0 <= jobs(k, m - 1).release {
      n := FirstFrom(task, jobs, k, t0, m - 1);
    } else {
      WorkArrived(task, jobs, k, m - 1, t0);
      n := m;
    }
  }

  lemma {:induction false} NoWorkNoJobs(task: Task, jobs: Jobs, k: nat, n: nat)
    requires LegalStream(task, jobs, k) && task.exec == 0
    ensures WorkOfFirst(jobs, k, n) == 0
  {
    if 0 < n {
      NoWorkNoJobs(task, jobs, k, n - 1);
      assert LegalJob(task, jobs(k, n - 1));
    }
  }
}
