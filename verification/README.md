# Verification of spar's partition analyses

A Dafny model of four parts of spar, with proofs about every input, every run and every document:

* the response-time analysis of threads that run inside an ARINC 653 partition, as it is
  computed (64-bit saturating arithmetic, a capped loop, two paths) and as it is meant (exact
  arithmetic, the least solution), and the partition at run time: a supply trace, a cooperative
  fixed-priority scheduler, and jobs;
* the ARINC 653 partition checks: isolation of shared data, and windows within the major frame;
* the migration of STPA shorthand fields to `links:` blocks, over the characters of a document;
* the guard that compares the Lean files that exist with those that a build target reaches, and
  the comment blanker that it uses.

## What is proved about the response-time analysis

`SystemGuarantee.OneScheduleForAll` puts the pieces together: if the window check does not reject
a processor and its partitions have the major frame as period, then one schedule of the processor
exists on which, in every run of every partition, every emitted bound that is free of 64-bit
wrap-around keeps its promise: it bounds every job of its thread if it is at most the period, and
otherwise every job that is released when nothing of its priority level is outstanding.

The chain behind it:

1. `PartitionSupply`: the least supply that any window can receive from a partition that is given
   at least Θ units in every aligned period Π, as an exact minimum over all traces. The linear bound
   and the blackout `2(Π - Θ)`, which the source module assumes, follow from it.
2. `SchedulingVerified`, `ArincSupply`: the loops, as methods, return what a plain scan over all
   candidates returns, or what the capped recursion returns.
3. `ExactAnalysis`: over the integers, the scan, the climb without a cap, and the two paths agree
   as they should (dominance, step bound, sustainability).
4. `Saturation`, `ClimbCap`: what saturation and the cap can and cannot change.
5. `JobStreams`, `InnerSchedule`, `Guarantee`: a busy-window argument over step-by-step runs.
6. `BusyStretches`, `CriticalInstant`, `LongResponses`: bounds beyond the period of their thread,
   what is enough for them, the run that is worst for them, and so when exactly they hold.

What the passes do to a model or a document is also stated without the functions that compute it:
`DispatchMeaning` (which analysis a thread is due, by declared priorities, periods and defaults),
`IsolationMeaning` (which data is reached from which partitions, by features, connections and
containment), `WindowMeaning` (which windows count in a mode), `ShapeMeaning` (each line recogniser
accepts exactly its pattern) and `LinkMeaning` (which links each line of a document gives, and what
is written).

Four statements that the source makes or suggests do not hold of the code as it is; each is given
with a witness and with the condition under which it does hold.

* *The capped climb decides feasibility.* The loop makes at most three evaluations more than there
  are higher-priority threads, while its own comment names the number of release points plus one.
  `ClimbCap.CapRejectsFeasible` is a feasible thread (at 15400, deadline 50000) that is reported as
  unschedulable. `ClimbCap.CapDecides` says when the answer is right: exactly if the climb without
  the cap needs no more steps than allowed; `ClimbCap.LongPeriodsDecide` gives a condition on the
  periods alone.
* *No progress means infeasible.* `ClimbCap.StallRejectsFeasible` takes that exit with a feasible
  thread. `ClimbCap.StallMeansOverflow` shows that the climb then stands still at a time within the
  deadline where a value overflows. `ClimbCap.NeverStallsIffRoomy` says when no accepted thread is
  lost to this exit, an equivalence over partitions and deadlines: when the most that can be
  supplied by the deadline is at most one budget, or its product with the period fits in a word.
* *An emitted number is the response time.* With 64-bit saturation and a limit on extra jitter this
  holds for every thread exactly if the partition, the deadline and the limit keep clear of the top
  of the range (`Saturation.RepresentableIsExact`, an equivalence).
* *An emitted number bounds the response time of every job.* It does for jobs released when nothing
  of their level is outstanding, and for all jobs when it is at most the thread's period
  (`Guarantee.ResponseHolds`), so in particular when the deadline is at most the period
  (`Guarantee.AcceptedMeetsDeadline`). A `Deadline` may be longer than the period, and then the bound
  can fail for later jobs of a busy stretch. `LongResponses.BoundHoldsExactly` is an equivalence for
  every set of threads in every partition: the bound holds for all jobs exactly if the least supply
  covers the demand of the first one, two, three, ... jobs of a stretch, each by its own bound.
  `LongResponses.FirstStretchDecides` makes this a finite test. For a thread alone in its partition
  on the fallback path, it is a test on four numbers (`LongResponses.LoneFallbackHolds`); above the
  partition's share of the processor no number is a bound (`LongResponses.OverloadIsUnbounded`).

## Files

`Arith`, `Search`, `Demand`: arithmetic, scanning, demand. `SchedulingVerified`, `ArincSupply`:
the code of the recurrence and of the analysis of one thread. `PartitionSupply`, `ExactAnalysis`,
`Saturation`, `ClimbCap`: its meaning. `JobStreams`, `InnerSchedule`, `Guarantee`,
`BusyStretches`, `CriticalInstant`, `LongResponses`: runs.
`Instances`, `SupplyPass`, `SystemGuarantee`: the pass over an instance. `Diagnostics`,
`PartitionIsolation`, `PartitionWindows`: the ARINC 653 checks. The modules named `...Meaning`: see above. `TextLines`, `StpaMigration`,
`StpaMigrator`: the migration. `LeanReachable`, `LeanComments`: the guard. `Sequences`: regrouping.

In the Dafny files the threads of a partition are listed highest priority first; the analysed
thread is at an index of that list.

## Model

| member | source | states |
|---|---|---|
| Arith.CeilDivLeast | crates/spar-analysis/src/scheduling_verified.rs:31-34 | `ceil_div(a, b)` is at most `q` exactly if `a` is at most `q * b` |
| SchedulingVerified.TotalInterferenceJittered | crates/spar-analysis/src/scheduling_verified.rs:117-123 | the saturating fold returns the exact sum of its terms, saturated once |
| SchedulingVerified.TotalIsrInterference | crates/spar-analysis/src/scheduling_verified.rs:130-132 | the same for interrupt interference |
| SchedulingVerified.RtaStepJitteredBlocking | crates/spar-analysis/src/scheduling_verified.rs:213-223 | the order of the five saturating additions does not matter: one saturation of the exact sum |
| SchedulingVerified.StepMono | crates/spar-analysis/src/scheduling_verified.rs:146-148 | the saturating recurrence is monotone in the window |
| SchedulingVerified.ComputeResponseTimeJitteredBlocking | crates/spar-analysis/src/scheduling_verified.rs:232-263 | the fixed-point loop returns what a scan of all windows up to the bound returns; what converged is a fixed point; the iteration bound is never what stops it |
| SchedulingVerified.LeastSettledMeans | crates/spar-analysis/src/arinc_supply.rs:26-31 | converged means the least window that holds its own demand and is at most the bound; diverged means there is none up to the bound: the bound is the side condition |
| SchedulingVerified.InterruptsAreThreads | crates/spar-analysis/src/scheduling_verified.rs:130-132 | an interrupt counts like a thread of the same period and time without jitter |
| Saturation.StepIsDemand | crates/spar-analysis/src/scheduling_verified.rs:213-223 | the step is the demand of execution time, own jitter, blocking, threads and interrupts, each counted once, saturated once |
| Saturation.DriverFindsDemand | crates/spar-analysis/src/scheduling_verified.rs:232-263 | the driver finds the least window that holds that demand, or there is none up to the bound |
| Saturation.InterruptsInAnalysis | crates/spar-analysis/src/arinc_supply.rs:193-225 | with interrupts: a reported busy window is the least that holds its demand, interrupts undelayed; if it does not fit, interrupts play no part |
| PartitionSupply.LsbfMeets | crates/spar-analysis/src/arinc_supply.rs:257-259 | `lsbf(t)` reaches a positive demand exactly from `blackout + ceil(demand * period / budget)` on |
| PartitionSupply.LsbfMono | crates/spar-analysis/src/arinc_supply.rs:93-104 | more budget or more time never lowers `lsbf` |
| PartitionSupply.LsbfAtMost | crates/spar-analysis/src/arinc_supply.rs:93-104 | `lsbf` never exceeds the time left after the blackout |
| PartitionSupply.SupplyAtLeastLsbf | crates/spar-analysis/src/arinc_supply.rs:68-72 | the assumed supply guarantee: every window of every trace with at least the budget in each aligned period receives at least `lsbf` |
| PartitionSupply.BudgetAfterBlackout | crates/spar-analysis/src/arinc_supply.rs:24-26 | a window of the blackout plus `w`, for `w` up to the budget, receives at least `w` |
| PartitionSupply.WorstIsMinimum | crates/spar-analysis/src/arinc_supply.rs:64-72 | the least supply of a window of given length is a bound for every legal trace and window, and attained by one |
| PartitionSupply.BlackoutIsReached | crates/spar-analysis/src/arinc_supply.rs:85-91 | some legal trace supplies exactly `w` in a window of the blackout plus `w`: the derived jitter cannot be smaller |
| ExactAnalysis.BusyWindowIsFixedPoint | crates/spar-analysis/src/arinc_supply.rs:19-22 | the busy window equals the demand of the window `blackout + w`, not just bounds it |
| ExactAnalysis.PathDominance | crates/spar-analysis/src/arinc_supply.rs:193-212 | when the busy window fits in the budget, no time that demand-versus-supply accepts is below `blackout + w` |
| ExactAnalysis.ResponseIsSupplied | crates/spar-analysis/src/arinc_supply.rs:64-72 | on either path, every window as long as the response less the own jitter is supplied all the work that can be demanded in it |
| ExactAnalysis.MeetClimbs | crates/spar-analysis/src/arinc_supply.rs:263-271 | over the integers an unsuccessful step strictly raises both time and demand, so the no-progress exit is dead |
| ExactAnalysis.MeetStaysBelow | crates/spar-analysis/src/arinc_supply.rs:229-235 | a step never passes a feasible time |
| ExactAnalysis.ClimbDecides | crates/spar-analysis/src/arinc_supply.rs:227-235 | without the cap the climb returns the least feasible time up to the deadline or rejects if there is none, within one step more than the release points up to the deadline |
| ExactAnalysis.ResponseIsSustainable | crates/spar-analysis/src/arinc_supply.rs:167-225 | lowering execution times, blocking or jitter, raising periods, deadline or budget, or dropping higher-priority threads never rejects an accepted thread and never lengthens its response, also across the two paths |
| ArincSupply.Rbf | crates/spar-analysis/src/arinc_supply.rs:113-119 | the loop computes the exact sum of its terms, saturated once |
| ArincSupply.FallbackDemandVsSupply | crates/spar-analysis/src/arinc_supply.rs:236-275 | the bounded loop returns what the capped recursion returns, exit by exit |
| ArincSupply.AnalyzeTask | crates/spar-analysis/src/arinc_supply.rs:167-225 | the two-path dispatch returns the outcome that `Saturation` and `ClimbCap` characterise, for every input including ill-formed partitions |
| Saturation.ClimbIsConservative | crates/spar-analysis/src/arinc_supply.rs:244-274 | whatever saturates, an accepted time is at or below every feasible one, and passing the deadline means nothing up to it is feasible |
| Saturation.PassingIsFeasible | crates/spar-analysis/src/arinc_supply.rs:263-267 | a time that passes in saturating arithmetic is feasible over the integers, if the period is at least 2 or the time is not the largest word |
| Saturation.EmittedIsExact | crates/spar-analysis/src/arinc_supply.rs:193-225 | an emitted bound whose own numbers keep clear of the top of the range is the response of the exact analysis, with the same busy window and path; on the fallback path always, but for period 1 |
| Saturation.RejectionIsRight | crates/spar-analysis/src/arinc_supply.rs:209-223 | every refusal is right over the integers unless the climb stalled or ran out of steps |
| Saturation.RefusalKinds | crates/spar-analysis/src/arinc_supply.rs:178-220 | ill-formed exactly for an empty or too large budget; declined exactly for extra jitter and a window that does not fit, where ceilings do not wrap |
| Saturation.MissIsExact | crates/spar-analysis/src/arinc_supply.rs:203-211 | a reported miss is the blackout, the own jitter and the exact busy window, and past the deadline |
| Saturation.RepresentableIsExact | crates/spar-analysis/src/arinc_supply.rs:85-119 | for which partitions, deadlines and limits on extra jitter every emitted bound is exact: an equivalence |
| ClimbCap.StallMeansOverflow | crates/spar-analysis/src/arinc_supply.rs:268-271 | when the no-progress exit is taken, the climb stands still at a time within the deadline, at or below every feasible time, where some value overflows |
| ClimbCap.NeverStallsIffRoomy | crates/spar-analysis/src/arinc_supply.rs:244-271 | for which partitions and deadlines no accepted thread without jitter is lost to the no-progress exit: an equivalence |
| ClimbCap.CapDecides | crates/spar-analysis/src/arinc_supply.rs:253-274 | the capped search accepts exactly the feasible threads whose climb needs at most three steps more than there are higher-priority threads, with the least time, when what can be supplied by the deadline fits |
| ClimbCap.FewReleasesDecide | crates/spar-analysis/src/arinc_supply.rs:253-255 | with at most two release points more than higher-priority threads the cap is harmless |
| ClimbCap.LongPeriodsDecide | crates/spar-analysis/src/arinc_supply.rs:253-255 | in particular when no higher-priority period is shorter than the deadline |
| ClimbCap.CapRejectsFeasible | crates/spar-analysis/src/arinc_supply.rs:253-274 | a feasible thread that the cap rejects |
| ClimbCap.StallRejectsFeasible | crates/spar-analysis/src/arinc_supply.rs:268-271 | a feasible thread that the no-progress exit rejects |
| JobStreams.ArrivedWithinInterference | crates/spar-analysis/src/scheduling_verified.rs:100-123 | the interference term bounds the work that jobs with separated arrivals and bounded jitter bring into any window |
| InnerSchedule.BusyStep | crates/spar-analysis/src/arinc_supply.rs:33-36 | while work of a priority level is outstanding, each unit of supply is spent on it or on the one lower segment in progress |
| InnerSchedule.BusyStretch | crates/spar-analysis/src/arinc_supply.rs:24-26 | over any busy stretch: outstanding work, remaining blocking and supply add up to the initial blocking and the work that arrived |
| InnerSchedule.BlockingAtMostSegment | crates/spar-analysis/src/arinc_supply.rs:386-388 | at every instant the blocking term covers the lower-priority segment in progress, with one unit to spare |
| InnerSchedule.JobCompletes | crates/spar-analysis/src/arinc_supply.rs:15-36 | a job completes within a window its thread relies on: every job if window and jitter fit in the period, and whatever the window if nothing of the level is outstanding at the release |
| BusyStretches.SustainedJobCompletes | crates/spar-analysis/src/arinc_supply.rs:24-36 | without a limit by the period: a job completes within a bound if the demand of the first one, two, three, ... jobs of a stretch is covered in time, up to as many as end a stretch |
| CriticalInstant.ExecutedBy | crates/spar-analysis/src/arinc_supply.rs:33-36 | when a thread is executed in the worst run, the segment and all that arrived above are done: they and its own work share the supply |
| CriticalInstant.BoundNeeds | crates/spar-analysis/src/arinc_supply.rs:15-36 | a number that bounds all jobs leaves time for the demand of the worst run, for every job of a stretch |
| InnerSchedule.RunExists | crates/spar-analysis/src/arinc_supply.rs:33-36 | every stream of jobs and every supply trace has a run |
| InnerSchedule.StepExists | crates/spar-analysis/src/arinc_supply.rs:33-36 | the scheduler is never stuck |
| InnerSchedule.StepKeepsShape | crates/spar-analysis/src/arinc_supply.rs:33-36 | every step keeps the state well-formed: the segment in progress is of outstanding work and within the declared length |
| Guarantee.ResponseHolds | crates/spar-analysis/src/arinc_supply.rs:167-225 | run safety: on either path and however long, the response bounds every job released when nothing of its level is outstanding, in every run on every legal supply; and every job if it is at most the period |
| Guarantee.EmittedHolds | crates/spar-analysis/src/arinc_supply.rs:167-225 | the same for the number that the saturating, capped code emits |
| Guarantee.AcceptedMeetsDeadline | crates/spar-analysis/src/arinc_supply.rs:341-341 | a deadline at most the period is met by every job of an accepted thread |
| LongResponses.BoundHoldsExactly | crates/spar-analysis/src/arinc_supply.rs:341-341 | for every set of threads, partition and number, with any deadline: the number bounds all jobs of a thread exactly if the least supply covers the demand of one, two, three, ... jobs of a stretch, each at some time up to its own bound |
| LongResponses.FirstStretchDecides | crates/spar-analysis/src/arinc_supply.rs:341-341 | the same as a finite test, by the jobs that it takes to end a stretch |
| LongResponses.SustainableHolds | crates/spar-analysis/src/arinc_supply.rs:341-341 | the sufficient half, for lower-priority segments of any length |
| LongResponses.BeyondPeriodHolds | crates/spar-analysis/src/arinc_supply.rs:193-212 | two threads of which the second gets a bound beyond its period that holds for every job |
| LongResponses.LoneBoundHolds | crates/spar-analysis/src/arinc_supply.rs:341-341 | for a thread without jitter alone in any partition: exactly if the least supply covers the work of one, two, three, ... jobs by their bounds |
| LongResponses.LoneFallbackHolds | crates/spar-analysis/src/arinc_supply.rs:214-223 | for such a thread on the fallback path, the emitted bound holds for every job exactly if its rate is within the share of the partition |
| LongResponses.WholeProcessorHolds | crates/spar-analysis/src/arinc_supply.rs:341-341 | for such a thread on a processor of its own, the bound holds exactly if it is at most the period |
| LongResponses.ShareIsNotEnough | crates/spar-analysis/src/arinc_supply.rs:193-212 | on the jitter path, threads within the share whose second job can miss the emitted bound |
| LongResponses.OverloadIsUnbounded | crates/spar-analysis/src/arinc_supply.rs:205-223 | for any thread of any partition: when it and those above it demand more than the share, no number bounds its jobs |
| LongResponses.TieOrderMatters | crates/spar-analysis/src/arinc_supply.rs:374-388 | a bound that fails when a thread of equal priority, sorted after, is served first |
| Instances.FindAncestorOfCategory | crates/spar-analysis/src/arinc653.rs:95-108 | the loop follows the parents of the component and returns what the containment walk returns |
| Instances.OwningPartition | crates/spar-analysis/src/arinc_supply.rs:417-429 | the same, from the parent on, for virtual processors |
| Instances.NearestIsFirst | crates/spar-analysis/src/arinc653.rs:93-108 | the walk returns the first component of the category on the path to the root, and none exactly if there is none |
| Instances.CaseIgnored | crates/spar-analysis/src/arinc653.rs:263-263 | names are equal exactly if they differ at most in the case of ASCII letters |
| SupplyPass.OrderIsTotalPreorder | crates/spar-analysis/src/rta.rs:693-705 | the comparator is total and transitive, and ties are mutual |
| SupplyPass.SortedIsOrdered | crates/spar-analysis/src/arinc_supply.rs:374-378 | the sort puts the threads in order and loses none |
| SupplyPass.SortIsStable | crates/spar-analysis/src/arinc_supply.rs:374-378 | threads of equal rank keep the order in which they were found |
| SupplyPass.GroupTasks | crates/spar-analysis/src/arinc_supply.rs:320-358 | the map built in one pass holds, for each partition, exactly its inner threads in order, and no empty group |
| SupplyPass.AnalyzeGroup | crates/spar-analysis/src/arinc_supply.rs:380-409 | each thread is analysed against the threads before it and the longest segment after it |
| SupplyPass.AnalyzePass | crates/spar-analysis/src/arinc_supply.rs:311-413 | the pass reports the findings of all partitions in order |
| SupplyPass.OneFindingEach | crates/spar-analysis/src/arinc_supply.rs:320-412 | every inner thread of an analysable partition gets exactly one finding: it names the nearest partition, and is the analysis at the thread's place in the priority order of that partition |
| SupplyPass.NoOtherFinding | crates/spar-analysis/src/arinc_supply.rs:320-370 | no other component gets a finding |
| DispatchMeaning.FindingIsDue | crates/spar-analysis/src/arinc_supply.rs:320-408 | the one finding of a thread is the analysis with its declared values or their defaults, against the threads of the partition that outrank it by priority or period, or come first among equals, in order, and the longest segment of the others |
| DispatchMeaning.PrioritisedPrecedes | crates/spar-analysis/src/rta.rs:693-705 | larger priority first, any before none, shorter period among none, then order of discovery |
| DispatchMeaning.ReportedMeans | crates/spar-analysis/src/arinc_supply.rs:320-372 | a thread is reported exactly if it has period and time, no own binding, and a nearest virtual processor with period and window |
| DispatchMeaning.ReportInOrder | crates/spar-analysis/src/arinc_supply.rs:366-409 | findings come partition by partition, and within one in the order of its threads |
| SystemGuarantee.PartitionKeepsBounds | crates/spar-analysis/src/arinc_supply.rs:306-414 | a partition that receives its budget keeps the promise of every bound that the pass emits for it |
| SystemGuarantee.OneScheduleForAll | crates/spar-analysis/src/arinc653.rs:403-492 | when the window check passes and periods equal the frame, one schedule keeps the emitted bounds of all partitions together |
| PartitionIsolation.CheckPartitionIsolation | crates/spar-analysis/src/arinc653.rs:287-401 | the check appends the event-port warnings in order, then one error per accumulated entry that crosses partitions |
| PartitionIsolation.RecordUse | crates/spar-analysis/src/arinc653.rs:319-330 | the in-place update adds the users to the entry of the resource, or makes one, and changes no other |
| PartitionIsolation.DistinctPartitions | crates/spar-analysis/src/arinc653.rs:363-371 | fewer than two partitions are collected exactly if all users share one |
| PartitionIsolation.AccumulateIsExact | crates/spar-analysis/src/arinc653.rs:293-332 | one entry for each resource that a data access connection names, with exactly the processes and partitions that reach it |
| PartitionIsolation.IsolationIsExact | crates/spar-analysis/src/arinc653.rs:271-278 | exactly one error for each resource reached from two or more partitions, none for any other |
| PartitionIsolation.IsolationIsMonotone | crates/spar-analysis/src/arinc653.rs:287-401 | order and repetition of connections do not matter, and adding one never hides an error |
| PartitionIsolation.PortsShareNothing | crates/spar-analysis/src/arinc653.rs:334-341 | adding port connections, with port features at both ends, never adds or hides an error |
| IsolationMeaning.OneErrorEach | crates/spar-analysis/src/arinc653.rs:287-401 | from features, connections and containment alone: one error exactly for each component whose data connections reach from processes on two partitions |
| IsolationMeaning.ResourceMeans | crates/spar-analysis/src/arinc653.rs:300-318 | which component a connection reaches: the end that names no feature, else the source; and only data |
| IsolationMeaning.SharedDataIsReported | crates/spar-analysis/src/arinc653.rs:302-310 | data that two threads on different partitions access by features of their own gets its error |
| IsolationMeaning.AccessorIsNotBlamed | crates/spar-analysis/src/arinc653.rs:302-310 | a component that only ever accesses by its own features gets none |
| IsolationMeaning.LiesInMeans | crates/spar-analysis/src/arinc653.rs:217-227 | the nearest enclosing process, and the virtual processor above it or bound to it |
| IsolationMeaning.ErrorListsUsers | crates/spar-analysis/src/arinc653.rs:324-330 | an error lists exactly the processes that reach the data, each once |
| IsolationMeaning.WarningsMean | crates/spar-analysis/src/arinc653.rs:334-360 | warned about exactly: connections without access, with an event port, between processes on different partitions |
| PartitionWindows.CheckWindowUtilization | crates/spar-analysis/src/arinc653.rs:406-492 | one finding for each processor with a frame and a declared window, by the sum of its active windows |
| PartitionWindows.SumWindows | crates/spar-analysis/src/arinc653.rs:440-449 | the loop sums and counts the declared windows |
| PartitionWindows.ErrorIffRejects | crates/spar-analysis/src/arinc653.rs:418-490 | the findings of the whole check hold an error about exactly the processors it rejects |
| PartitionWindows.NoErrorInAnyMode | crates/spar-analysis/src/arinc653.rs:406-434 | a processor rejected in some operation mode is rejected without modes |
| WindowMeaning.FindingInMode | crates/spar-analysis/src/modal.rs:41-76 | in a mode with a selection for the processor, the sum and number are of the windows without modes and of those that list the selected name, whatever its case |
| WindowMeaning.SameAsWithoutModes | crates/spar-analysis/src/modal.rs:41-76 | the finding of a mode is the one without modes if nothing is selected for the processor, or every child lists what is |
| WindowMeaning.FindingMeans | crates/spar-analysis/src/arinc653.rs:418-490 | the finding for a processor, by the sum and number of the windows in use |
| PartitionWindows.EndToEndGivesBudget | crates/spar-analysis/src/arinc653.rs:403-405 | windows laid end to end give each partition exactly its budget in each frame |
| PartitionWindows.OvercommittedIffUnrealisable | crates/spar-analysis/src/arinc653.rs:455-475 | the check rejects a processor exactly if no schedule at all gives every partition its window in every frame |
| TextLines.SplitOfJoin | scripts/stpa_migrate_links.py:79-79 | lines written one after the other are read back as the same lines |
| TextLines.EndIsNotItem | scripts/stpa_migrate_links.py:104-112 | a line that ends a block is never a list item, so a list does not run past its block |
| ShapeMeaning.IdMeans | scripts/stpa_migrate_links.py:54-54 | the recogniser of artifacts accepts exactly its pattern, with that indent |
| ShapeMeaning.TypeMeans | scripts/stpa_migrate_links.py:56-56 | the same for type lines |
| ShapeMeaning.ScalarMeans | scripts/stpa_migrate_links.py:58-58 | the same for scalar fields |
| ShapeMeaning.InlineMeans | scripts/stpa_migrate_links.py:60-60 | the same for inline lists |
| ShapeMeaning.HeadMeans | scripts/stpa_migrate_links.py:62-62 | the same for heads of block lists |
| ShapeMeaning.ItemMeans | scripts/stpa_migrate_links.py:63-63 | the same for items of block lists |
| ShapeMeaning.LinksMeans | scripts/stpa_migrate_links.py:65-65 | the same for heads of links blocks |
| ShapeMeaning.ListMeans | scripts/stpa_migrate_links.py:68-70 | the entries of a comma list are its parts, stripped, without the empty ones, in order |
| ShapeMeaning.StripMeans | scripts/stpa_migrate_links.py:70-70 | stripping removes exactly the white space at the ends |
| StpaMigrator.ScanBlock | scripts/stpa_migrate_links.py:104-153 | the inner loop finds the end of the block and collects what the line-by-line scan collects |
| StpaMigrator.RewriteBlock | scripts/stpa_migrate_links.py:160-182 | the block is written with its links after the type line, or unchanged |
| StpaMigrator.ProcessText | scripts/stpa_migrate_links.py:73-184 | the nested loops compute the migration that the lemmas below are about |
| StpaMigration.MigrationIsIdempotent | scripts/stpa_migrate_links.py:73-184 | for every text, migrating the output changes nothing and reports 0 |
| StpaMigration.MigrationIsConservative | scripts/stpa_migrate_links.py:11-17 | for every text: deleting the inserted lines gives back the text, each run of them follows a terminated type line, and the count is the number of inserted targets |
| StpaMigration.NothingLost | scripts/stpa_migrate_links.py:173-182 | no line is lost, changed or reordered |
| StpaMigration.CountIsTargets | scripts/stpa_migrate_links.py:172-172 | the reported number is the number of `target:` lines among the inserted lines |
| LinkMeaning.DocumentIsMigrated | scripts/stpa_migrate_links.py:73-184 | every document is read as loose lines and artifacts, each up to the first line that ends it; an artifact gets the links that its lines after the first type line give, in order, as pairs of lines after it, and nothing if it has a links block |
| LinkMeaning.LineGives | scripts/stpa_migrate_links.py:124-151 | which links a line gives: one for a mapped scalar that is no list field, one for each entry of a mapped inline list, one for each item that follows a mapped head, else none |
| LinkMeaning.TextIsMigrated | scripts/stpa_migrate_links.py:73-184 | the new text is that document written out, and the count is of the links in it |
| StpaMigrator.LinkMapIsClean | scripts/stpa_migrate_links.py:27-48 | the rules in use meet the requirement of the lemmas |
| StpaMigrator.LinkMapMeans | scripts/stpa_migrate_links.py:27-51 | each entry of the map is what its field refers to, and list fields are the plural ones |
| LeanReachable.ReachableIsLeast | tools/check_lean_reachable.py:23-36 | the reachable files are contained in every set that has the roots and is closed under imports |
| LeanReachable.Reach | tools/check_lean_reachable.py:254-262 | with cyclic or repeated imports the worklist ends with exactly the reachable files, unless one of them is not understood |
| LeanReachable.Check | tools/check_lean_reachable.py:247-280 | exit 2 exactly if there is nothing to measure or a reachable file is not understood; otherwise exit 1 exactly if a first-party file is not reachable, and those are listed |
| LeanComments.BlankBlocks | tools/check_lean_reachable.py:106-123 | the loop computes the blanking that the lemmas below are about |
| LeanComments.PositionsKept | tools/check_lean_reachable.py:98-98 | length and line breaks are kept; every other character is kept or blank |
| LeanComments.SpacesMean | tools/check_lean_reachable.py:118-121 | blanked text is line breaks where they were, and blank otherwise |
| LeanComments.BlankingIsIdempotent | tools/check_lean_reachable.py:106-123 | blanking twice is blanking once |
| LeanComments.NothingOpens | tools/check_lean_reachable.py:107-111 | no comment opens in the output, for any input |
| LeanComments.EveryTextBlanked | tools/check_lean_reachable.py:97-124 | every text is characters and closed comments, then comments left open; the characters outside comments are copied, and all else is blanked |
| LeanComments.CommentsBlanked | tools/check_lean_reachable.py:103-104 | for a source given as a tree of characters and closed comments, exactly the comments are blanked |
| LeanComments.UnterminatedBlanked | tools/check_lean_reachable.py:118-121 | any number of comments left open, after any text, are blanked to the end |

## Left out

- Guarantee.ResponseHolds: a job of a busy stretch, released while its level has work outstanding, is only bounded when the response is at most the period. Beyond it the bound can fail; `LongResponses.BoundHoldsExactly` says when it holds.
- LongResponses.BoundHoldsExactly: asks that no lower-priority thread declares a poll segment longer than its execution time; for such a segment, which may run over several jobs, only `LongResponses.SustainableHolds` is shown. It also asks that the thread's own jitter is at most its period.
- Guarantee.EmittedHolds: for numbers that keep clear of the top of the 64-bit range, since others can be wrong (`Saturation.RepresentableIsExact`), and for threads without interrupt interference, which is what the only call site passes; how interrupts share the supply of a partition is not specified in the source.
- SystemGuarantee.PartitionKeepsBounds: the same for all threads of a partition.
- SystemGuarantee.OneScheduleForAll: the same for all partitions of a processor.
- InnerSchedule.JobCompletes: a thread whose own jitter reaches its period may release two jobs at once; such releases are not covered.
- ClimbCap.CapDecides: counts the steps of the climb. No closed form of that count in the inputs is given; `ClimbCap.FewReleasesDecide` and `ClimbCap.LongPeriodsDecide` are sufficient. Where the supply by the deadline does not fit in a word, `Saturation.ClimbIsConservative` still holds.
- ArincSupply.AnalyzeTask: asks that higher-priority periods are not zero; the code divides by them.
- PartitionWindows.CheckWindowUtilization: the sum is exact and compared with the frame; the code adds 64-bit values and divides floating-point numbers, which agrees below 2^53.
- PartitionIsolation.CheckPartitionIsolation: an explicit binding is given as what it resolves to; the resolver and the look-up by name are not modelled.
- StpaMigrator.ProcessText: characters and regular expressions are modelled as recognisers over characters; carriage returns do not occur, since text mode reading removes them.
- LeanReachable.Check: file system, module-to-file mapping and header parsing are parameters.
- LeanComments.BlankBlocks: the second phase, which cuts each line at `--`, is not modelled.
- Threads of equal priority are ordered as the stable sort orders them; with another order among equals an emitted bound can fail (`LongResponses.TieOrderMatters`).
- The check for processors without partitions and for unassigned processes: single look-ups.
- Message texts, severities as text, component paths, property parsing, the instance builder.
- The other guards under `tools`, the remaining analyses, code generation and the editor extension.
