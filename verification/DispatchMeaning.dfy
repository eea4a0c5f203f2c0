/**
 Which analysis a thread is reported with: its rivals and their order, in terms of the properties
 that the model declares.
 */
module DispatchMeaning {
  import opened Arith
  import opened Demand
  import opened Instances
  import opened JobStreams
  import opened InnerSchedule
  import opened SupplyPass
  import ArincSupply
  import ExactAnalysis
  import Guarantee

  // ---- Threads and their declared properties ----

  function Declared(o: Option<U64>, otherwise: U64): U64 {
    if o.Some? then o.value else otherwise
  }

  /** A thread with period and execution time, no binding of its own, and `vp` as nearest virtual processor above. */
  ghost predicate IsInner(inst: Instance, c: nat, vp: nat)
    requires inst.Valid()
  {
    && inst.Has(c) && inst.components[c].category == Thread
    && inst.components[c].properties.binding == Unbound
    && inst.components[c].properties.period.Some? && inst.components[c].properties.computeTime.Some?
    && inst.components[c].parent.Some?
    && exists n :: FirstUp(inst, inst.components[c].parent.value, n, vp, VirtualProcessor)
  }

  lemma InnerMeans(inst: Instance, c: nat, vp: nat)
    requires inst.Valid()
    ensures IsInner(inst, c, vp) <==> Inside(inst, c, vp)
  {
    if inst.Has(c) && inst.components[c].parent.Some? {
      NearestMeans(inst, inst.components[c].parent.value, VirtualProcessor, vp);
    }
  }

  /** A larger priority outranks a smaller one, any priority none; without priorities a shorter period does. */
  predicate Outranks(p: Properties, q: Properties) {
    || (p.priority.Some? && q.priority.Some? && q.priority.value < p.priority.value)
    || (p.priority.Some? && q.priority.None?)
    || (p.priority.None? && q.priority.None? && Declared(p.period, 0) < Declared(q.period, 0))
  }

  /** The first thread is analysed before the second: it outranks it, or comes first among equals. */
  predicate Precedes(inst: Instance, c: nat, d: nat)
    requires inst.Has(c) && inst.Has(d)
  {
    var p, q := inst.components[c].properties, inst.components[d].properties;
    Outranks(p, q) || (!Outranks(q, p) && c < d)
  }

  lemma OrderMeans(inst: Instance, c: nat, d: nat)
    requires inst.Has(c) && inst.Has(d) && Collected(inst, c).Some? && Collected(inst, d).Some?
    ensures NotAfter(Collected(inst, c).value, Collected(inst, d).value)
       <==> !Outranks(inst.components[d].properties, inst.components[c].properties)
  {
  }

  // ---- The order ----

  predicate InOrderOfDiscovery(tasks: seq<InnerTask>) {
    forall i, j | 0 <= i < j < |tasks| ::
      NotAfter(tasks[i], tasks[j]) && (NotAfter(tasks[j], tasks[i]) ==> tasks[i].comp < tasks[j].comp)
  }

  lemma {:induction false} PlaceInOrder(sorted: seq<InnerTask>, x: InnerTask)
    requires InOrderOfDiscovery(sorted) && forall i | 0 <= i < |sorted| :: sorted[i].comp < x.comp
    ensures InOrderOfDiscovery(Place(sorted, x))
    ensures forall y | y in Place(sorted, x) :: y in sorted || y == x
  {
    if sorted != [] {
      var n := |sorted| - 1;
      var last := sorted[n];
      if NotAfter(last, x) {
        forall i | 0 <= i < n ensures NotAfter(sorted[i], x) { OrderIsTotalPreorder(sorted[i], last, x); }
      } else {
        PlaceInOrder(sorted[..n], x);
        OrderIsTotalPreorder(last, x, x);
        var placed := Place(sorted[..n], x);
        forall i | 0 <= i < |placed| ensures NotAfter(placed[i], last) && (NotAfter(last, placed[i]) ==> placed[i].comp < last.comp) {
          assert placed[i] in placed;
        }
      }
    }
  }

  predicate AllBelow(tasks: seq<InnerTask>, count: nat) {
    forall i | 0 <= i < |tasks| :: tasks[i].comp < count
  }

  /** Sorting puts the tasks in order of rank and discovery; all are found below `count`. */
  predicate Arranged(tasks: seq<InnerTask>, count: nat) {
    InOrderOfDiscovery(Sorted(tasks)) && AllBelow(Sorted(tasks), count)
  }

  lemma OneMoreArranged(before: seq<InnerTask>, x: InnerTask)
    requires Arranged(before, x.comp)
    ensures Arranged(before + [x], x.comp + 1)
  {
    assert (before + [x])[..|before|] == before;
    PlaceInOrder(Sorted(before), x);
    forall i | 0 <= i < |Sorted(before + [x])| ensures Sorted(before + [x])[i].comp < x.comp + 1 {
      assert Sorted(before + [x])[i] in Place(Sorted(before), x);
    }
  }

  lemma GroupNext(inst: Instance, vp: nat, c: nat)
    requires inst.Valid() && inst.Has(c)
    ensures Inside(inst, c, vp) ==> Group(inst, vp, c + 1) == Group(inst, vp, c) + [Collected(inst, c).value]
    ensures !Inside(inst, c, vp) ==> Group(inst, vp, c + 1) == Group(inst, vp, c)
  {
  }

  lemma {:induction false} GroupInOrder(inst: Instance, vp: nat, count: nat)
    requires inst.Valid() && count <= |inst.components|
    ensures Arranged(Group(inst, vp, count), count)
  {
    if 0 < count {
      GroupInOrder(inst, vp, count - 1);
      GroupNext(inst, vp, count - 1);
      if Inside(inst, count - 1, vp) { OneMoreArranged(Group(inst, vp, count - 1), Collected(inst, count - 1).value); }
    }
  }

  /** The threads of a partition stand in the order that their properties and places declare. */
  lemma PrioritisedPrecedes(inst: Instance, vp: nat, i: nat, j: nat)
    requires inst.Valid() && i < j < |Prioritised(inst, vp)|
    ensures var c, d := Prioritised(inst, vp)[i].comp, Prioritised(inst, vp)[j].comp;
      inst.Has(c) && inst.Has(d) && Precedes(inst, c, d) && !Precedes(inst, d, c)
  {
    GroupInOrder(inst, vp, |inst.components|);
    PrioritisedMember(inst, vp, i);
    PrioritisedMember(inst, vp, j);
    OrderMeans(inst, Prioritised(inst, vp)[i].comp, Prioritised(inst, vp)[j].comp);
    OrderMeans(inst, Prioritised(inst, vp)[j].comp, Prioritised(inst, vp)[i].comp);
  }

  // ---- The rivals of a thread ----

  function Comps(tasks: seq<InnerTask>): (r: seq<nat>)
    ensures |r| == |tasks| && forall i {:trigger r[i]} | 0 <= i < |r| :: r[i] == tasks[i].comp
  {
    seq(|tasks|, i requires 0 <= i < |tasks| => tasks[i].comp)
  }

  /** The tasks are those that their components contribute. */
  predicate AreCollected(inst: Instance, tasks: seq<InnerTask>) {
    forall i | 0 <= i < |tasks| :: inst.Has(tasks[i].comp) && Collected(inst, tasks[i].comp) == Some(tasks[i])
  }

  /** The higher-priority threads as the analysis of a thread sees them. */
  function AsRivals(inst: Instance, cs: seq<nat>): (hp: seq<Hp>)
    requires inst.HasAll(cs)
    ensures |hp| == |cs| && forall i {:trigger hp[i]} | 0 <= i < |hp| ::
      var props := inst.components[cs[i]].properties;
      hp[i] == Hp(Declared(props.period, 0), Declared(props.computeTime, 0), Declared(props.dispatchJitter, 0))
  {
    seq(|cs|, i requires 0 <= i < |cs| =>
      var props := inst.components[cs[i]].properties;
      Hp(Declared(props.period, 0), Declared(props.computeTime, 0), Declared(props.dispatchJitter, 0)))
  }

  /** The longest a thread runs on once it has started: its declared poll segment, or all its execution time. */
  function SegmentOfThread(inst: Instance, c: nat): U64
    requires inst.Has(c)
  {
    var props := inst.components[c].properties;
    Declared(props.pollSegment, Declared(props.computeTime, 0))
  }

  /** The longest segment of some threads, 0 for none. */
  ghost predicate IsLongest(inst: Instance, cs: seq<nat>, blocking: nat)
    requires inst.HasAll(cs)
  {
    && (forall i | 0 <= i < |cs| :: SegmentOfThread(inst, cs[i]) <= blocking)
    && (blocking == 0 || exists i :: 0 <= i < |cs| && SegmentOfThread(inst, cs[i]) == blocking)
  }

  lemma {:induction false} MaxSegmentIsLongest(tasks: seq<Task>) returns (k: nat)
    ensures forall i | 0 <= i < |tasks| :: tasks[i].segment <= MaxSegment(tasks)
    ensures MaxSegment(tasks) == 0 || (k < |tasks| && tasks[k].segment == MaxSegment(tasks))
  {
    k := 0;
    if tasks != [] {
      var n := |tasks| - 1;
      k := MaxSegmentIsLongest(tasks[..n]);
      forall i | 0 <= i < n ensures tasks[i].segment <= MaxSegment(tasks[..n]) { assert tasks[..n][i] == tasks[i]; }
      if MaxSegment(tasks[..n]) < tasks[n].segment { k := n; }
    }
  }

  lemma LowerAreLongest(inst: Instance, tasks: seq<InnerTask>)
    requires AreCollected(inst, tasks) && inst.HasAll(Comps(tasks))
    ensures IsLongest(inst, Comps(tasks), MaxSegment(AsTasks(tasks)))
  {
    var k := MaxSegmentIsLongest(AsTasks(tasks));
    forall i | 0 <= i < |tasks| ensures SegmentOfThread(inst, tasks[i].comp) == AsTasks(tasks)[i].segment { }
    if 0 < MaxSegment(AsTasks(tasks)) { assert SegmentOfThread(inst, Comps(tasks)[k]) == MaxSegment(AsTasks(tasks)); }
  }

  /** The analysis that a thread is due, given the threads that go before it and the longest segment of the others. */
  function DueProblem(inst: Instance, c: nat, vp: nat, higher: seq<nat>, blocking: nat): ExactAnalysis.Problem
    requires inst.Has(c) && inst.Has(vp) && inst.HasAll(higher)
  {
    var props, partition := inst.components[c].properties, inst.components[vp].properties;
    ExactAnalysis.Problem(
      Declared(partition.period, 0), Declared(partition.windowTime, 0), Declared(props.computeTime, 0),
      Declared(props.deadline, Declared(props.period, 0)), blocking, Declared(props.dispatchJitter, 0),
      AsRivals(inst, higher))
  }

  lemma ProblemMeans(inst: Instance, vp: nat, tasks: seq<InnerTask>, i: nat)
    requires AreCollected(inst, tasks) && inst.Has(vp) && Analyzable(inst, vp) && i < |tasks|
    requires inst.HasAll(Comps(tasks)) && inst.HasAll(Comps(tasks)[..i])
    ensures var props := inst.components[vp].properties;
      Guarantee.ProblemOf(props.period.value, props.windowTime.value, AsTasks(tasks), i, tasks[i].deadline)
      == DueProblem(inst, tasks[i].comp, vp, Comps(tasks)[..i], MaxSegment(AsTasks(tasks)[i + 1..]))
  {
    var hp, rivals := AsHps(AsTasks(tasks)[..i]), AsRivals(inst, Comps(tasks)[..i]);
    forall j | 0 <= j < i ensures hp[j] == rivals[j] {
      assert Collected(inst, tasks[j].comp) == Some(tasks[j]);
    }
    assert hp == rivals;
  }

  /** The threads of the partition before and after a place are those that precede the thread there, and the others. */
  lemma SidesMean(inst: Instance, c: nat, vp: nat, place: nat, d: nat)
    requires inst.Valid() && place < |Prioritised(inst, vp)| && Prioritised(inst, vp)[place].comp == c && inst.Has(c)
    ensures var order := Comps(Prioritised(inst, vp));
      && (d in order[..place] <==> IsInner(inst, d, vp) && Precedes(inst, d, c))
      && (d in order[place + 1..] <==> IsInner(inst, d, vp) && d != c && Precedes(inst, c, d))
  {
    var tasks, order := Prioritised(inst, vp), Comps(Prioritised(inst, vp));
    InnerMeans(inst, d, vp);
    forall i | 0 <= i < |order| && order[i] == d
      ensures Inside(inst, d, vp)
      ensures i < place ==> Precedes(inst, d, c) && !Precedes(inst, c, d)
      ensures place < i ==> Precedes(inst, c, d) && !Precedes(inst, d, c) && d != c
    {
      PrioritisedMember(inst, vp, i);
      if i < place { PrioritisedPrecedes(inst, vp, i, place); }
      if place < i { PrioritisedPrecedes(inst, vp, place, i); }
    }
    if Inside(inst, d, vp) {
      CountSorted(Group(inst, vp, |inst.components|), d);
      CountInGroup(inst, vp, |inst.components|, d);
      var k := OnePlace(tasks, d);
      assert order[k] == d;
      assert k < place ==> order[..place][k] == d;
      assert place < k ==> order[place + 1..][k - place - 1] == d;
    }
  }

  /** A thread is reported exactly if it is an inner thread of a partition that declares period and window. */
  lemma ReportedMeans(inst: Instance, c: nat)
    requires inst.Valid()
    ensures Reported(inst, c, |inst.components|) <==>
      exists vp: nat :: IsInner(inst, c, vp) && inst.Has(vp)
        && inst.components[vp].properties.period.Some? && inst.components[vp].properties.windowTime.Some?
  {
    forall vp: nat ensures IsInner(inst, c, vp) <==> Inside(inst, c, vp) { InnerMeans(inst, c, vp); }
    if Reported(inst, c, |inst.components|) { assert IsInner(inst, c, Partition(inst, c).value); }
  }

  /**
   The one finding of a thread is the analysis it is due: with the partition's period and window, its
   own execution time, deadline (or period) and jitter (or none), the threads that precede it in
   order, and the longest segment of those that it precedes.
   */
  lemma FindingIsDue(inst: Instance, c: nat) returns (vp: nat, higher: seq<nat>, lower: seq<nat>, blocking: nat)
    requires inst.Valid() && AllPeriods(inst) && Reported(inst, c, |inst.components|)
    ensures IsInner(inst, c, vp) && inst.Has(vp) && inst.HasAll(higher) && inst.HasAll(lower)
    ensures forall d :: d in higher <==> IsInner(inst, d, vp) && Precedes(inst, d, c)
    ensures forall i, j | 0 <= i < j < |higher| :: Precedes(inst, higher[i], higher[j]) && higher[i] != higher[j]
    ensures forall d :: d in lower <==> IsInner(inst, d, vp) && d != c && Precedes(inst, c, d)
    ensures IsLongest(inst, lower, blocking)
    ensures ArincSupply.Word(DueProblem(inst, c, vp, higher, blocking))
    ensures forall f: Finding :: f in Findings(inst, |inst.components|) && f.comp == c <==>
      f == Finding(c, vp, ArincSupply.Analyze(DueProblem(inst, c, vp, higher, blocking), []))
  {
    vp := Partition(inst, c).value;
    var place := OneFindingEach(inst, c);
    var tasks := Prioritised(inst, vp);
    var order := Comps(tasks);
    InnerMeans(inst, c, vp);
    forall i | 0 <= i < |tasks| ensures inst.Has(order[i]) && Collected(inst, tasks[i].comp) == Some(tasks[i]) {
      PrioritisedMember(inst, vp, i);
    }
    higher, lower := order[..place], order[place + 1..];
    blocking := MaxSegment(AsTasks(tasks)[place + 1..]);
    forall d ensures d in higher <==> IsInner(inst, d, vp) && Precedes(inst, d, c)
      ensures d in lower <==> IsInner(inst, d, vp) && d != c && Precedes(inst, c, d)
    {
      SidesMean(inst, c, vp, place, d);
    }
    forall i, j | 0 <= i < j < |higher| ensures Precedes(inst, higher[i], higher[j]) && higher[i] != higher[j] {
      PrioritisedPrecedes(inst, vp, i, j);
    }
    LowerOf(inst, tasks, place);
    TaskIsWord(inst.components[vp].properties.period.value, inst.components[vp].properties.windowTime.value, tasks, place);
    ProblemMeans(inst, vp, tasks, place);
  }

  lemma LowerOf(inst: Instance, tasks: seq<InnerTask>, place: nat)
    requires AreCollected(inst, tasks) && place < |tasks|
    requires inst.HasAll(Comps(tasks)) && inst.HasAll(Comps(tasks)[place + 1..])
    ensures IsLongest(inst, Comps(tasks)[place + 1..], MaxSegment(AsTasks(tasks)[place + 1..]))
  {
    assert Comps(tasks)[place + 1..] == Comps(tasks[place + 1..]);
    assert AsTasks(tasks)[place + 1..] == AsTasks(tasks[place + 1..]);
    LowerAreLongest(inst, tasks[place + 1..]);
  }

  // ---- The order of the report ----

  lemma {:induction false} TaskFindingsAt(period: U64, budget: U64, vp: nat, tasks: seq<InnerTask>, count: nat)
    requires count <= |tasks| && Periods(tasks)
    ensures |TaskFindings(period, budget, vp, tasks, count)| == count
    ensures forall k | 0 <= k < count ::
      TaskFindings(period, budget, vp, tasks, count)[k] == TaskFinding(period, budget, vp, tasks, k)
  {
    if 0 < count { TaskFindingsAt(period, budget, vp, tasks, count - 1); }
  }

  /** One finding is reported before the other: its partition comes first, or its thread in the same one. */
  predicate ReportedBefore(inst: Instance, f: Finding, g: Finding) {
    || f.partition < g.partition
    || (f.partition == g.partition && inst.Has(f.comp) && inst.Has(g.comp) && Precedes(inst, f.comp, g.comp))
  }

  predicate ReportOrdered(inst: Instance, findings: seq<Finding>) {
    forall i, j | 0 <= i < j < |findings| :: ReportedBefore(inst, findings[i], findings[j])
  }

  lemma PartitionOrdered(inst: Instance, vp: nat)
    requires inst.Valid() && AllPeriods(inst)
    ensures ReportOrdered(inst, PartitionFindings(inst, vp))
    ensures forall i | 0 <= i < |PartitionFindings(inst, vp)| :: PartitionFindings(inst, vp)[i].partition == vp
  {
    if Analyzable(inst, vp) {
      var tasks, props := Prioritised(inst, vp), inst.components[vp].properties;
      PrioritisedPeriods(inst, vp);
      TaskFindingsAt(props.period.value, props.windowTime.value, vp, tasks, |tasks|);
      forall i, j | 0 <= i < j < |tasks|
        ensures ReportedBefore(inst, PartitionFindings(inst, vp)[i], PartitionFindings(inst, vp)[j])
      {
        PrioritisedPrecedes(inst, vp, i, j);
      }
    }
  }

  predicate OrderedBelow(inst: Instance, findings: seq<Finding>, count: nat) {
    ReportOrdered(inst, findings) && forall i | 0 <= i < |findings| :: findings[i].partition < count
  }

  lemma OrderedAppend(inst: Instance, a: seq<Finding>, b: seq<Finding>, vp: nat)
    requires OrderedBelow(inst, a, vp)
    requires ReportOrdered(inst, b) && forall i | 0 <= i < |b| :: b[i].partition == vp
    ensures OrderedBelow(inst, a + b, vp + 1)
  {
  }

  lemma FindingsOfNext(inst: Instance, vp: nat, findings: seq<Finding>, more: seq<Finding>)
    requires inst.Valid() && AllPeriods(inst) && findings == Findings(inst, vp) && OrderedBelow(inst, findings, vp)
    requires more == Findings(inst, vp + 1)
    ensures OrderedBelow(inst, more, vp + 1)
  {
    PartitionOrdered(inst, vp);
    OrderedAppend(inst, Findings(inst, vp), PartitionFindings(inst, vp), vp);
  }

  /** The findings are reported partition by partition, and in the order of the threads within one. */
  lemma {:induction false} ReportInOrder(inst: Instance, count: nat)
    requires inst.Valid() && AllPeriods(inst)
    ensures OrderedBelow(inst, Findings(inst, count), count)
  {
    var findings := Findings(inst, count);
    if 0 < count {
      var vp := count - 1;
      ReportInOrder(inst, vp);
      FindingsOfNext(inst, vp, Findings(inst, vp), findings);
    }
    assert OrderedBelow(inst, findings, count);
  }
}
