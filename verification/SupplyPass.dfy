/**
 The analysis pass: threads are grouped by the partition that contains them, put in priority
 order, and each is analysed against those before and after it.
 */
module SupplyPass {
  import opened Arith
  import opened Demand
  import opened Instances
  import opened JobStreams
  import opened InnerSchedule
  import opened ArincSupply
  import SchedulingVerified
  import Guarantee

  datatype InnerTask = InnerTask(
    comp: nat, period: U64, exec: U64, deadline: U64, segment: U64, jitter: U64, priority: Option<U64>)
  {
    function AsTask(): Task {
      Task(period, exec, segment, jitter)
    }
  }

  /** The result for one thread of one partition. */
  datatype Finding = Finding(comp: nat, partition: nat, outcome: Outcome)

  // ---- Collecting ----

  /** The task a component contributes: an unbound thread inside a virtual processor, with timing. */
  function Collected(inst: Instance, c: nat): Option<InnerTask>
    requires inst.Has(c)
  {
    var comp := inst.components[c];
    var props := comp.properties;
    if comp.category != Thread || props.binding != Unbound || props.period == None || props.computeTime == None then None
    else
      var period, exec := props.period.value, props.computeTime.value;
      Some(InnerTask(
        c, period, exec,
        if props.deadline.Some? then props.deadline.value else period,
        if props.pollSegment.Some? then props.pollSegment.value else exec,
        if props.dispatchJitter.Some? then props.dispatchJitter.value else 0,
        props.priority))
  }

  /** The component is an inner task of the partition. */
  predicate Inside(inst: Instance, c: nat, vp: nat)
    requires inst.Valid()
  {
    inst.Has(c) && Collected(inst, c).Some? && Partition(inst, c) == Some(vp)
  }

  /** The inner tasks of the partition among the first `count` components, in order. */
  function Group(inst: Instance, vp: nat, count: nat): seq<InnerTask>
    requires inst.Valid() && count <= |inst.components|
  {
    if count == 0 then []
    else
      Group(inst, vp, count - 1) +
      if Inside(inst, count - 1, vp) then [Collected(inst, count - 1).value] else []
  }

  // ---- Priority order ----

  datatype Ordering = Less | Equal | Greater

  function Compare(a: nat, b: nat): Ordering {
    if a < b then Less else if a == b then Equal else Greater
  }

  /** A larger priority goes first, any priority goes before none, and shorter periods break ties of none. */
  function DispatchOrder(aPriority: Option<U64>, aPeriod: U64, bPriority: Option<U64>, bPeriod: U64): Ordering {
    match (aPriority, bPriority)
    case (Some(pa), Some(pb)) => Compare(pb, pa)
    case (Some(_), None) => Less
    case (None, Some(_)) => Greater
    case (None, None) => Compare(aPeriod, bPeriod)
  }

  function Order(a: InnerTask, b: InnerTask): Ordering {
    DispatchOrder(a.priority, a.period, b.priority, b.period)
  }

  predicate NotAfter(a: InnerTask, b: InnerTask) {
    Order(a, b) != Greater
  }

  /** The comparator is a total preorder, which a comparison sort needs. */
  lemma OrderIsTotalPreorder(a: InnerTask, b: InnerTask, c: InnerTask)
    ensures NotAfter(a, b) || NotAfter(b, a)
    ensures NotAfter(a, b) && NotAfter(b, c) ==> NotAfter(a, c)
    ensures Order(a, b) == Equal <==> NotAfter(a, b) && NotAfter(b, a)
  {
  }

  /** Places `x` after every task that does not come after it. */
  function Place(sorted: seq<InnerTask>, x: InnerTask): seq<InnerTask> {
    if sorted == [] || NotAfter(sorted[|sorted| - 1], x) then sorted + [x]
    else Place(sorted[..|sorted| - 1], x) + [sorted[|sorted| - 1]]
  }

  /** The stable sort by the comparator. */
  function Sorted(tasks: seq<InnerTask>): seq<InnerTask> {
    if tasks == [] then [] else Place(Sorted(tasks[..|tasks| - 1]), tasks[|tasks| - 1])
  }

  predicate InOrder(tasks: seq<InnerTask>) {
    forall i, j | 0 <= i < j < |tasks| :: NotAfter(tasks[i], tasks[j])
  }

  lemma {:induction false} PlaceKeepsOrder(sorted: seq<InnerTask>, x: InnerTask)
    requires InOrder(sorted)
    ensures InOrder(Place(sorted, x))
    ensures multiset(Place(sorted, x)) == multiset(sorted) + multiset{x}
    ensures forall y | y in Place(sorted, x) :: y in sorted || y == x
  {
    if sorted != [] {
      var n := |sorted| - 1;
      var last := sorted[n];
      assert sorted == sorted[..n] + [last];
      if NotAfter(last, x) {
        forall i | 0 <= i < n ensures NotAfter(sorted[i], x) { OrderIsTotalPreorder(sorted[i], last, x); }
      } else {
        PlaceKeepsOrder(sorted[..n], x);
        OrderIsTotalPreorder(last, x, x);
        var placed := Place(sorted[..n], x);
        forall i | 0 <= i < |placed| ensures NotAfter(placed[i], last) {
          assert placed[i] in placed;
        }
      }
    }
  }

  lemma {:induction false} SortedIsOrdered(tasks: seq<InnerTask>)
    ensures InOrder(Sorted(tasks))
    ensures multiset(Sorted(tasks)) == multiset(tasks)
  {
    if tasks != [] {
      var n := |tasks| - 1;
      SortedIsOrdered(tasks[..n]);
      PlaceKeepsOrder(Sorted(tasks[..n]), tasks[n]);
      assert tasks == tasks[..n] + [tasks[n]];
    }
  }

  /** The tasks that the comparator cannot tell from `r`, in the order in which they stand. */
  function Ties(tasks: seq<InnerTask>, r: InnerTask): seq<InnerTask> {
    if tasks == [] then []
    else
      var n := |tasks| - 1;
      Ties(tasks[..n], r) + if Order(tasks[n], r) == Equal then [tasks[n]] else []
  }

  lemma TiesAppend(tasks: seq<InnerTask>, x: InnerTask, r: InnerTask)
    ensures Ties(tasks + [x], r) == Ties(tasks, r) + if Order(x, r) == Equal then [x] else []
  {
    assert (tasks + [x])[..|tasks|] == tasks;
  }

  lemma {:induction false} PlaceKeepsTies(sorted: seq<InnerTask>, x: InnerTask, r: InnerTask)
    ensures Ties(Place(sorted, x), r) == Ties(sorted + [x], r)
  {
    if sorted != [] && !NotAfter(sorted[|sorted| - 1], x) {
      var n := |sorted| - 1;
      var last := sorted[n];
      PlaceKeepsTies(sorted[..n], x, r);
      assert sorted == sorted[..n] + [last];
      TiesAppend(Place(sorted[..n], x), last, r);
      TiesAppend(sorted[..n], x, r);
      TiesAppend(sorted[..n], last, r);
      TiesAppend(sorted, x, r);
      OrderIsTotalPreorder(last, r, x);
      OrderIsTotalPreorder(last, x, r);
      OrderIsTotalPreorder(r, x, last);
    }
  }

  /** Tasks of equal rank are analysed in the order in which they were found. */
  lemma {:induction false} SortIsStable(tasks: seq<InnerTask>, r: InnerTask)
    ensures Ties(Sorted(tasks), r) == Ties(tasks, r)
  {
    if tasks != [] {
      var n := |tasks| - 1;
      SortIsStable(tasks[..n], r);
      PlaceKeepsTies(Sorted(tasks[..n]), tasks[n], r);
      TiesAppend(Sorted(tasks[..n]), tasks[n], r);
    }
  }

  // ---- Findings ----

  function AsTasks(tasks: seq<InnerTask>): (r: seq<Task>)
    ensures |r| == |tasks| && forall i | 0 <= i < |r| :: r[i] == tasks[i].AsTask()
  {
    seq(|tasks|, i requires 0 <= i < |tasks| => tasks[i].AsTask())
  }

  /** The analysis divides by the periods of the tasks. */
  predicate Periods(tasks: seq<InnerTask>) {
    forall i | 0 <= i < |tasks| :: 0 < tasks[i].period
  }

  /** The `i`-th task in priority order, against those before it and the longest segment after it. */
  function TaskFinding(period: U64, budget: U64, vp: nat, tasks: seq<InnerTask>, i: nat): Finding
    requires i < |tasks| && Periods(tasks)
  {
    TaskIsWord(period, budget, tasks, i);
    Finding(tasks[i].comp, vp,
            Analyze(Guarantee.ProblemOf(period, budget, AsTasks(tasks), i, tasks[i].deadline), []))
  }

  lemma {:induction false} MaxSegmentIsWord(tasks: seq<Task>)
    requires forall i | 0 <= i < |tasks| :: tasks[i].segment <= MAX
    ensures MaxSegment(tasks) <= MAX
  {
    if tasks != [] { MaxSegmentIsWord(tasks[..|tasks| - 1]); }
  }

  lemma TaskIsWord(period: U64, budget: U64, tasks: seq<InnerTask>, i: nat)
    requires i < |tasks| && Periods(tasks)
    ensures Word(Guarantee.ProblemOf(period, budget, AsTasks(tasks), i, tasks[i].deadline))
  {
    MaxSegmentIsWord(AsTasks(tasks)[i + 1..]);
  }

  function TaskFindings(period: U64, budget: U64, vp: nat, tasks: seq<InnerTask>, count: nat): seq<Finding>
    requires count <= |tasks| && Periods(tasks)
  {
    if count == 0 then []
    else TaskFindings(period, budget, vp, tasks, count - 1) + [TaskFinding(period, budget, vp, tasks, count - 1)]
  }

  predicate AllPeriods(inst: Instance)
    requires inst.Valid()
  {
    forall c | 0 <= c < |inst.components| ::
      Collected(inst, c).Some? && Partition(inst, c).Some? ==> 0 < Collected(inst, c).value.period
  }

  predicate Analyzable(inst: Instance, vp: nat) {
    inst.Has(vp) && inst.components[vp].properties.period.Some? && inst.components[vp].properties.windowTime.Some?
  }

  /** The inner tasks of a partition in priority order. */
  function Prioritised(inst: Instance, vp: nat): seq<InnerTask>
    requires inst.Valid()
  {
    Sorted(Group(inst, vp, |inst.components|))
  }

  function PartitionFindings(inst: Instance, vp: nat): seq<Finding>
    requires inst.Valid() && AllPeriods(inst)
  {
    var tasks := Prioritised(inst, vp);
    if !Analyzable(inst, vp) then []
    else
      PrioritisedPeriods(inst, vp);
      var props := inst.components[vp].properties;
      TaskFindings(props.period.value, props.windowTime.value, vp, tasks, |tasks|)
  }

  lemma {:induction false} GroupPeriods(inst: Instance, vp: nat, count: nat)
    requires inst.Valid() && AllPeriods(inst) && count <= |inst.components|
    ensures Periods(Group(inst, vp, count))
  {
    if 0 < count { GroupPeriods(inst, vp, count - 1); }
  }

  lemma PrioritisedPeriods(inst: Instance, vp: nat)
    requires inst.Valid() && AllPeriods(inst)
    ensures Periods(Prioritised(inst, vp))
  {
    var group := Group(inst, vp, |inst.components|);
    GroupPeriods(inst, vp, |inst.components|);
    SortedIsOrdered(group);
    forall i | 0 <= i < |Sorted(group)| ensures 0 < Sorted(group)[i].period {
      assert Sorted(group)[i] in multiset(Sorted(group));
      assert Sorted(group)[i] in group;
    }
  }

  /** The findings for the partitions among the first `count` components, in order. */
  function Findings(inst: Instance, count: nat): seq<Finding>
    requires inst.Valid() && AllPeriods(inst)
  {
    if count == 0 then [] else Findings(inst, count - 1) + PartitionFindings(inst, count - 1)
  }

  // ---- The pass ----

  method AnalyzeGroup(period: U64, budget: U64, vp: nat, tasks: seq<InnerTask>) returns (diags: seq<Finding>)
    requires Periods(tasks)
    ensures diags == TaskFindings(period, budget, vp, tasks, |tasks|)
  {
    diags := [];
    for i := 0 to |tasks|
      invariant diags == TaskFindings(period, budget, vp, tasks, i)
    {
      TaskIsWord(period, budget, tasks, i);
      var task := tasks[i];
      var hp := AsHps(AsTasks(tasks)[..i]);
      var blocking := MaxSegment(AsTasks(tasks)[i + 1..]);
      var outcome := AnalyzeTask(period, budget, task.exec, task.deadline, blocking, task.jitter, hp, []);
      diags := diags + [Finding(task.comp, vp, outcome)];
    }
  }

  /** Adds a task to its partition's group, making the group if there is none. */
  function Push(groups: map<nat, seq<InnerTask>>, vp: nat, task: InnerTask): map<nat, seq<InnerTask>> {
    groups[vp := (if vp in groups then groups[vp] else []) + [task]]
  }

  method GroupTasks(inst: Instance) returns (groups: map<nat, seq<InnerTask>>)
    requires inst.Valid()
    ensures forall vp | vp in groups :: inst.Has(vp) && groups[vp] == Group(inst, vp, |inst.components|) != []
    ensures forall vp: nat | vp !in groups :: Group(inst, vp, |inst.components|) == []
  {
    groups := map[];
    for c := 0 to |inst.components|
      invariant forall vp | vp in groups :: inst.Has(vp) && groups[vp] == Group(inst, vp, c) != []
      invariant forall vp: nat | vp !in groups :: Group(inst, vp, c) == []
    {
      var owner := OwningPartition(inst, c);
      if owner.Some? && Collected(inst, c).Some? {
        assert inst.Has(owner.value) by { PartitionExists(inst, inst.components[c].parent); }
        groups := Push(groups, owner.value, Collected(inst, c).value);
      }
    }
  }

  lemma {:induction false} PartitionExists(inst: Instance, current: Option<nat>)
    requires inst.Valid() && (current.Some? ==> inst.Has(current.value))
    ensures var r := Nearest(inst, current, VirtualProcessor); r.Some? ==> inst.Has(r.value)
    decreases if current.Some? then current.value + 1 else 0
  {
    if current.Some? && inst.components[current.value].category != VirtualProcessor {
      PartitionExists(inst, inst.components[current.value].parent);
    }
  }

  method AnalyzePass(inst: Instance) returns (diags: seq<Finding>)
    requires inst.Valid() && AllPeriods(inst)
    ensures diags == Findings(inst, |inst.components|)
  {
    var groups := GroupTasks(inst);
    diags := [];
    for vp := 0 to |inst.components|
      invariant diags == Findings(inst, vp)
    {
      if vp in groups {
        var tasks := Sorted(groups[vp]);
        var props := inst.components[vp].properties;
        if props.period.Some? && props.windowTime.Some? {
          PrioritisedPeriods(inst, vp);
          var found := AnalyzeGroup(props.period.value, props.windowTime.value, vp, tasks);
          diags := diags + found;
        }
      }
    }
  }

  // ---- Conservation ----

  function CountTasks(tasks: seq<InnerTask>, c: nat): nat {
    if tasks == [] then 0
    else CountTasks(tasks[..|tasks| - 1], c) + if tasks[|tasks| - 1].comp == c then 1 else 0
  }

  function CountFindings(diags: seq<Finding>, c: nat): nat {
    if diags == [] then 0
    else CountFindings(diags[..|diags| - 1], c) + if diags[|diags| - 1].comp == c then 1 else 0
  }

  lemma {:induction false} CountAppend(a: seq<Finding>, b: seq<Finding>, c: nat)
    ensures CountFindings(a + b, c) == CountFindings(a, c) + CountFindings(b, c)
  {
    if b == [] {
      assert a + b == a;
    } else {
      assert (a + b)[..|a + b| - 1] == a + b[..|b| - 1];
      CountAppend(a, b[..|b| - 1], c);
    }
  }

  lemma {:induction false} CountPlaced(sorted: seq<InnerTask>, x: InnerTask, c: nat)
    ensures CountTasks(Place(sorted, x), c) == CountTasks(sorted, c) + if x.comp == c then 1 else 0
  {
    var n := |sorted| - 1;
    if sorted == [] || NotAfter(sorted[n], x) {
      assert (sorted + [x])[..|sorted|] == sorted;
    } else {
      CountPlaced(sorted[..n], x, c);
      var placed := Place(sorted[..n], x);
      assert (placed + [sorted[n]])[..|placed|] == placed;
    }
  }

  lemma {:induction false} CountSorted(tasks: seq<InnerTask>, c: nat)
    ensures CountTasks(Sorted(tasks), c) == CountTasks(tasks, c)
  {
    if tasks != [] {
      var n := |tasks| - 1;
      CountSorted(tasks[..n], c);
      CountPlaced(Sorted(tasks[..n]), tasks[n], c);
    }
  }

  lemma {:induction false} CountInGroup(inst: Instance, vp: nat, count: nat, c: nat)
    requires inst.Valid() && count <= |inst.components|
    ensures CountTasks(Group(inst, vp, count), c) == if c < count && Inside(inst, c, vp) then 1 else 0
  {
    if 0 < count {
      CountInGroup(inst, vp, count - 1, c);
      var before := Group(inst, vp, count - 1);
      if Inside(inst, count - 1, vp) {
        assert Group(inst, vp, count)[..|before|] == before;
      } else {
        assert Group(inst, vp, count) == before;
      }
    }
  }

  lemma {:induction false} CountTaskFindings(period: U64, budget: U64, vp: nat, tasks: seq<InnerTask>, count: nat, c: nat)
    requires count <= |tasks| && Periods(tasks)
    ensures CountFindings(TaskFindings(period, budget, vp, tasks, count), c) == CountTasks(tasks[..count], c)
  {
    if 0 < count {
      CountTaskFindings(period, budget, vp, tasks, count - 1, c);
      assert tasks[..count][..count - 1] == tasks[..count - 1];
      var before := TaskFindings(period, budget, vp, tasks, count - 1);
      assert TaskFindings(period, budget, vp, tasks, count)[..|before|] == before;
    }
  }

  lemma CountInPartition(inst: Instance, vp: nat, c: nat)
    requires inst.Valid() && AllPeriods(inst)
    ensures CountFindings(PartitionFindings(inst, vp), c)
         == if Analyzable(inst, vp) && Inside(inst, c, vp) then 1 else 0
  {
    if Analyzable(inst, vp) {
      var tasks := Prioritised(inst, vp);
      var props := inst.components[vp].properties;
      PrioritisedPeriods(inst, vp);
      CountTaskFindings(props.period.value, props.windowTime.value, vp, tasks, |tasks|, c);
      assert tasks[..|tasks|] == tasks;
      CountSorted(Group(inst, vp, |inst.components|), c);
      CountInGroup(inst, vp, |inst.components|, c);
    }
  }

  /** The component is an inner task of an analysable partition among the first `count` components. */
  predicate Reported(inst: Instance, c: nat, count: nat)
    requires inst.Valid()
  {
    && inst.Has(c) && Collected(inst, c).Some? && Partition(inst, c).Some?
    && Partition(inst, c).value < count && Analyzable(inst, Partition(inst, c).value)
  }

  lemma ReportedNext(inst: Instance, c: nat, count: nat)
    requires inst.Valid()
    ensures Reported(inst, c, count + 1)
       <==> Reported(inst, c, count) || (Analyzable(inst, count) && Inside(inst, c, count))
    ensures !(Reported(inst, c, count) && Inside(inst, c, count))
  {
  }

  lemma CountNext(inst: Instance, vp: nat, c: nat)
    requires inst.Valid() && AllPeriods(inst)
    ensures CountFindings(Findings(inst, vp + 1), c)
         == CountFindings(Findings(inst, vp), c) + if Analyzable(inst, vp) && Inside(inst, c, vp) then 1 else 0
  {
    CountAppend(Findings(inst, vp), PartitionFindings(inst, vp), c);
    CountInPartition(inst, vp, c);
  }

  function ReportedCount(inst: Instance, c: nat, count: nat): nat
    requires inst.Valid()
  {
    if Reported(inst, c, count) then 1 else 0
  }

  lemma {:induction false} CountUpTo(inst: Instance, count: nat, c: nat)
    requires inst.Valid() && AllPeriods(inst)
    ensures CountFindings(Findings(inst, count), c) == ReportedCount(inst, c, count)
  {
    if 0 < count {
      var vp := count - 1;
      CountUpTo(inst, vp, c);
      CountNext(inst, vp, c);
      ReportedNext(inst, c, vp);
    }
  }

  lemma {:induction false} FindingIsOfTask(period: U64, budget: U64, vp: nat, tasks: seq<InnerTask>, count: nat, d: Finding)
    requires count <= |tasks| && Periods(tasks)
    ensures d in TaskFindings(period, budget, vp, tasks, count) <==>
      exists i | 0 <= i < count :: d == TaskFinding(period, budget, vp, tasks, i)
  {
    if 0 < count { FindingIsOfTask(period, budget, vp, tasks, count - 1, d); }
  }

  lemma {:induction false} FindingHasPartition(inst: Instance, count: nat, d: Finding) returns (vp: nat)
    requires inst.Valid() && AllPeriods(inst) && d in Findings(inst, count)
    ensures vp < count && d in PartitionFindings(inst, vp)
  {
    vp := count - 1;
    InEither(Findings(inst, vp), PartitionFindings(inst, vp), d);
    if d in Findings(inst, vp) { vp := FindingHasPartition(inst, vp, d); }
  }

  lemma {:induction false} PartitionIsReported(inst: Instance, count: nat, vp: nat, d: Finding)
    requires inst.Valid() && AllPeriods(inst) && vp < count && d in PartitionFindings(inst, vp)
    ensures d in Findings(inst, count)
  {
    if vp + 1 < count {
      PartitionIsReported(inst, count - 1, vp, d);
      FindingsGrow(inst, count - 1, d);
    } else {
      FindingsGrow(inst, vp, d);
    }
  }

  lemma FindingsGrow(inst: Instance, count: nat, d: Finding)
    requires inst.Valid() && AllPeriods(inst) && (d in Findings(inst, count) || d in PartitionFindings(inst, count))
    ensures d in Findings(inst, count + 1)
  {
    InEither(Findings(inst, count), PartitionFindings(inst, count), d);
  }

  lemma InEither(a: seq<Finding>, b: seq<Finding>, d: Finding)
    ensures d in a + b <==> d in a || d in b
  {
  }

  lemma {:induction false} GroupMember(inst: Instance, vp: nat, count: nat, task: InnerTask)
    requires inst.Valid() && count <= |inst.components| && task in Group(inst, vp, count)
    ensures task.comp < count && Inside(inst, task.comp, vp) && task == Collected(inst, task.comp).value
  {
    if task in Group(inst, vp, count - 1) { GroupMember(inst, vp, count - 1, task); }
  }

  lemma PrioritisedMember(inst: Instance, vp: nat, i: nat)
    requires inst.Valid() && i < |Prioritised(inst, vp)|
    ensures var task := Prioritised(inst, vp)[i];
      Inside(inst, task.comp, vp) && task == Collected(inst, task.comp).value
  {
    var group := Group(inst, vp, |inst.components|);
    SortedIsOrdered(group);
    assert Sorted(group)[i] in multiset(Sorted(group));
    assert Sorted(group)[i] in group;
    GroupMember(inst, vp, |inst.components|, Sorted(group)[i]);
  }

  lemma {:induction false} NoPlace(tasks: seq<InnerTask>, c: nat, i: nat)
    requires CountTasks(tasks, c) == 0 && i < |tasks|
    ensures tasks[i].comp != c
  {
    if i < |tasks| - 1 { NoPlace(tasks[..|tasks| - 1], c, i); }
  }

  /** The one place of a component that is listed once. */
  lemma {:induction false} OnePlace(tasks: seq<InnerTask>, c: nat) returns (place: nat)
    requires CountTasks(tasks, c) == 1
    ensures place < |tasks| && forall i | 0 <= i < |tasks| :: tasks[i].comp == c <==> i == place
  {
    var n := |tasks| - 1;
    if tasks[n].comp == c {
      place := n;
      forall i | 0 <= i < n ensures tasks[i].comp != c { NoPlace(tasks[..n], c, i); }
    } else {
      place := OnePlace(tasks[..n], c);
      forall i | 0 <= i < n ensures tasks[i].comp == c <==> i == place { assert tasks[..n][i] == tasks[i]; }
    }
  }

  /** What a component that is not an inner task of an analysable partition gets. */
  lemma NoOtherFinding(inst: Instance, c: nat)
    requires inst.Valid() && AllPeriods(inst) && !Reported(inst, c, |inst.components|)
    ensures CountFindings(Findings(inst, |inst.components|), c) == 0
  {
    CountUpTo(inst, |inst.components|, c);
  }

  /**
   Every inner task of an analysable partition gets exactly one finding. It names the nearest
   enclosing partition, and it is the analysis of the task at its place in the priority order of
   that partition, with that partition's period and budget.
   */
  lemma OneFindingEach(inst: Instance, c: nat) returns (place: nat)
    requires inst.Valid() && AllPeriods(inst) && Reported(inst, c, |inst.components|)
    ensures CountFindings(Findings(inst, |inst.components|), c) == 1
    ensures var vp := Partition(inst, c).value;
      place < |Prioritised(inst, vp)| && Prioritised(inst, vp)[place] == Collected(inst, c).value
    ensures var vp := Partition(inst, c).value;
      var props := inst.components[vp].properties;
      Periods(Prioritised(inst, vp)) && forall d: Finding ::
        d in Findings(inst, |inst.components|) && d.comp == c <==>
        d == TaskFinding(props.period.value, props.windowTime.value, vp, Prioritised(inst, vp), place)
  {
    var vp := Partition(inst, c).value;
    var tasks, props := Prioritised(inst, vp), inst.components[vp].properties;
    CountUpTo(inst, |inst.components|, c);
    PrioritisedPeriods(inst, vp);
    CountSorted(Group(inst, vp, |inst.components|), c);
    CountInGroup(inst, vp, |inst.components|, c);
    place := OnePlace(tasks, c);
    PrioritisedMember(inst, vp, place);
    forall d: Finding ensures d in Findings(inst, |inst.components|) && d.comp == c <==>
        d == TaskFinding(props.period.value, props.windowTime.value, vp, tasks, place)
    {
      FindingOfComponent(inst, c, place, d);
    }
  }

  lemma FindingOfComponent(inst: Instance, c: nat, place: nat, d: Finding)
    requires inst.Valid() && AllPeriods(inst) && Reported(inst, c, |inst.components|)
    requires Periods(Prioritised(inst, Partition(inst, c).value))
    requires var tasks := Prioritised(inst, Partition(inst, c).value);
      place < |tasks| && forall i | 0 <= i < |tasks| :: tasks[i].comp == c <==> i == place
    ensures var vp := Partition(inst, c).value;
      var props := inst.components[vp].properties;
      d in Findings(inst, |inst.components|) && d.comp == c <==>
      d == TaskFinding(props.period.value, props.windowTime.value, vp, Prioritised(inst, vp), place)
  {
    var vp := Partition(inst, c).value;
    var tasks, props := Prioritised(inst, vp), inst.components[vp].properties;
    FindingIsOfTask(props.period.value, props.windowTime.value, vp, tasks, |tasks|, d);
    if d in Findings(inst, |inst.components|) && d.comp == c {
      var owner := FindingHasPartition(inst, |inst.components|, d);
      FindingIsInside(inst, owner, d);
    }
    if d in PartitionFindings(inst, vp) { PartitionIsReported(inst, |inst.components|, vp, d); }
  }

  lemma FindingIsInside(inst: Instance, vp: nat, d: Finding)
    requires inst.Valid() && AllPeriods(inst) && d in PartitionFindings(inst, vp)
    ensures Inside(inst, d.comp, vp)
  {
    var tasks, props := Prioritised(inst, vp), inst.components[vp].properties;
    PrioritisedPeriods(inst, vp);
    FindingIsOfTask(props.period.value, props.windowTime.value, vp, tasks, |tasks|, d);
    var i :| 0 <= i < |tasks| && d == TaskFinding(props.period.value, props.windowTime.value, vp, tasks, i);
    PrioritisedMember(inst, vp, i);
  }
}
