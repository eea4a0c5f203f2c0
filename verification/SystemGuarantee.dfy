/**
 The two passes together: a processor whose windows fit in its major frame, and inner tasks
 with emitted bounds.
 */
module SystemGuarantee {
  import opened Arith
  import opened Instances
  import opened JobStreams
  import opened InnerSchedule
  import opened PartitionWindows
  import opened SupplyPass
  import opened Guarantee
  import PS = PartitionSupply
  import ArincSupply
  import ExactAnalysis
  import Saturation

  /** The virtual processors that declare a window, in the order of their budgets. */
  function Holders(inst: Instance, vps: seq<nat>): (r: seq<nat>)
    requires inst.HasAll(vps)
    ensures inst.HasAll(r)
  {
    if vps == [] then []
    else
      var c := vps[|vps| - 1];
      Holders(inst, vps[..|vps| - 1]) + if inst.components[c].properties.windowTime.Some? then [c] else []
  }

  lemma {:induction false} HoldersMatchBudgets(inst: Instance, vps: seq<nat>)
    requires inst.HasAll(vps)
    ensures var holders := Holders(inst, vps);
      && |holders| == |Budgets(inst, vps)|
      && forall k | 0 <= k < |holders| ::
           inst.components[holders[k]].properties.windowTime == Some(Budgets(inst, vps)[k])
  {
    if vps != [] { HoldersMatchBudgets(inst, vps[..|vps| - 1]); }
  }

  /** The partitions of a processor that take part in its window check. */
  function WindowHolders(inst: Instance, processor: nat): (r: seq<nat>)
    requires inst.Valid() && inst.Has(processor)
    ensures inst.HasAll(r)
  {
    Holders(inst, ActiveWindows(inst, inst.components[processor].children, None))
  }

  /**
   On this supply, every emitted bound keeps its promise in every run: it bounds every job if it is
   within its task's period, and every job with a fresh release if it is not.
   */
  ghost predicate BoundsHoldOn(inst: Instance, vp: nat, supply: PS.Trace)
    requires inst.Valid() && AllPeriods(inst) && Analyzable(inst, vp)
  {
    forall i, jobs: Jobs, run: History
      | 0 <= i < |Prioritised(inst, vp)| && EmittedFor(inst, vp, i).Some?
        && Run(AsTasks(Prioritised(inst, vp)), jobs, supply, run) ::
      Promise(AsTasks(Prioritised(inst, vp)), jobs, run, i, EmittedFor(inst, vp, i).value)
  }

  /** The bound emitted for the `i`-th thread of a partition, if 64 bits hold its numbers. */
  function EmittedFor(inst: Instance, vp: nat, i: nat): Option<U64>
    requires inst.Valid() && AllPeriods(inst) && Analyzable(inst, vp) && i < |Prioritised(inst, vp)|
  {
    PrioritisedPeriods(inst, vp);
    var props := inst.components[vp].properties;
    var period, budget := props.period.value, props.windowTime.value;
    var inner := Prioritised(inst, vp);
    if Saturation.KeepsClear(ProblemOf(period, budget, AsTasks(inner), i, inner[i].deadline))
    then Saturation.Emitted(TaskFinding(period, budget, vp, inner, i).outcome)
    else None
  }

  /** A partition that is given its budget keeps the bounds emitted for its tasks. */
  lemma PartitionKeepsBounds(inst: Instance, vp: nat, supply: PS.Trace)
    requires inst.Valid() && AllPeriods(inst) && Analyzable(inst, vp)
    requires PS.Delivers(supply, inst.components[vp].properties.period.value,
                         inst.components[vp].properties.windowTime.value)
    ensures BoundsHoldOn(inst, vp, supply)
  {
    PrioritisedPeriods(inst, vp);
    var props := inst.components[vp].properties;
    var inner := Prioritised(inst, vp);
    var tasks := AsTasks(inner);
    forall i, jobs: Jobs, run: History
      | 0 <= i < |inner| && EmittedFor(inst, vp, i).Some? && Run(tasks, jobs, supply, run)
      ensures Promise(tasks, jobs, run, i, EmittedFor(inst, vp, i).value)
    {
      EmittedHolds(props.period.value, props.windowTime.value, tasks, i, inner[i].deadline,
                   EmittedFor(inst, vp, i).value);
    }
  }

  /**
   When the window check does not reject a processor and every partition's period is the major
   frame, one schedule of the processor exists on which all bounds emitted for the threads of
   all its partitions hold together.
   */
  lemma OneScheduleForAll(inst: Instance, processor: nat, frame: nat) returns (sched: Schedule)
    requires inst.Valid() && AllPeriods(inst) && inst.Has(processor) && 0 < frame
    requires inst.components[processor].category == Processor
    requires inst.components[processor].properties.period == Some(frame)
    requires !Rejects(inst, processor, None)
    requires forall k | 0 <= k < |WindowHolders(inst, processor)| ::
      inst.components[WindowHolders(inst, processor)[k]].properties.period == Some(frame)
    ensures forall k | 0 <= k < |WindowHolders(inst, processor)| ::
      && Analyzable(inst, WindowHolders(inst, processor)[k])
      && BoundsHoldOn(inst, WindowHolders(inst, processor)[k], TraceOf(sched, k))
  {
    var vps := ActiveWindows(inst, inst.components[processor].children, None);
    var budgets := WindowBudgets(inst, processor, None);
    var holders := WindowHolders(inst, processor);
    RejectsWhen(inst, processor, None);
    HoldersMatchBudgets(inst, vps);
    sched := EndToEnd(budgets, frame);
    EndToEndRealises(budgets, frame);
    forall k | 0 <= k < |holders|
      ensures Analyzable(inst, holders[k]) && BoundsHoldOn(inst, holders[k], TraceOf(sched, k))
    {
      PartitionKeepsBounds(inst, holders[k], TraceOf(sched, k));
    }
  }
}
