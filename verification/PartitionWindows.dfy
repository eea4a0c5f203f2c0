/**
 Partition windows within a processor's major frame (ARINC 653 Part 1, section 2.3.1): the
 utilisation check, and what passing or failing it means for the schedules that exist.
 */
module PartitionWindows {
  import opened Arith
  import opened Sequences
  import opened Instances
  import opened Diagnostics
  import opened PS = PartitionSupply

  // ---- Modes ----

  /** A system operation mode selects mode instances, by index. */
  type Selection = seq<nat>

  predicate ValidSelection(inst: Instance, som: Option<Selection>) {
    som.Some? ==> forall i | 0 <= i < |som.value| :: som.value[i] < |inst.modes|
  }

  /** The first selected mode that belongs to `owner`. */
  function SelectedMode(inst: Instance, selection: Selection, owner: nat): Option<string>
    requires ValidSelection(inst, Some(selection))
  {
    if selection == [] then None
    else if inst.modes[selection[0]].owner == owner then Some(inst.modes[selection[0]].name)
    else SelectedMode(inst, selection[1..], owner)
  }

  predicate Active(inst: Instance, c: nat, som: Option<Selection>)
    requires inst.Has(c) && ValidSelection(inst, som)
  {
    var comp := inst.components[c];
    som.Some? && comp.inModes != [] && comp.parent.Some? ==>
      match SelectedMode(inst, som.value, comp.parent.value)
      case None => true
      case Some(name) => exists i | 0 <= i < |comp.inModes| :: EqIgnoreAsciiCase(comp.inModes[i], name)
  }

  // ---- The check ----

  /** The virtual processors among `children` that are active in the mode. */
  function ActiveWindows(inst: Instance, children: seq<nat>, som: Option<Selection>): (r: seq<nat>)
    requires ValidSelection(inst, som) && inst.HasAll(children)
    ensures inst.HasAll(r)
  {
    if children == [] then []
    else
      var n := |children| - 1;
      var c := children[n];
      ActiveWindows(inst, children[..n], som) +
      if inst.components[c].category == VirtualProcessor && Active(inst, c, som) then [c] else []
  }

  /** The declared window lengths; a virtual processor without one takes no part. */
  function Budgets(inst: Instance, vps: seq<nat>): seq<nat>
    requires inst.HasAll(vps)
  {
    if vps == [] then []
    else
      var n := |vps| - 1;
      var time := inst.components[vps[n]].properties.windowTime;
      Budgets(inst, vps[..n]) + if time.Some? then [time.value] else []
  }

  function Total(budgets: seq<nat>): nat {
    if budgets == [] then 0 else Total(budgets[..|budgets| - 1]) + budgets[|budgets| - 1]
  }

  function WindowBudgets(inst: Instance, processor: nat, som: Option<Selection>): seq<nat>
    requires inst.Valid() && inst.Has(processor) && ValidSelection(inst, som)
  {
    Budgets(inst, ActiveWindows(inst, inst.components[processor].children, som))
  }

  /** What the check says about one processor. */
  function WindowFinding(inst: Instance, processor: nat, som: Option<Selection>): seq<Diagnostic>
    requires inst.Valid() && inst.Has(processor) && ValidSelection(inst, som)
  {
    var budgets := WindowBudgets(inst, processor, som);
    match inst.components[processor].properties.period
    case None => []
    case Some(frame) =>
      if budgets == [] || frame == 0 then []
      else if frame < Total(budgets) then [WindowOvercommitted(processor, Total(budgets), frame, |budgets|)]
      else [WindowWithinFrame(processor, Total(budgets), frame, |budgets|)]
  }

  function FindingAt(inst: Instance, c: nat, som: Option<Selection>): seq<Diagnostic>
    requires inst.Valid() && inst.Has(c) && ValidSelection(inst, som)
  {
    if inst.components[c].category == Processor then WindowFinding(inst, c, som) else []
  }

  function WindowFindings(inst: Instance, count: nat, som: Option<Selection>): seq<Diagnostic>
    requires inst.Valid() && count <= |inst.components| && ValidSelection(inst, som)
  {
    if count == 0 then []
    else
      WindowFindings(inst, count - 1, som) + FindingAt(inst, count - 1, som)
  }

  method SumWindows(inst: Instance, vps: seq<nat>) returns (total: nat, counted: nat)
    requires inst.HasAll(vps)
    ensures total == Total(Budgets(inst, vps)) && counted == |Budgets(inst, vps)|
  {
    total, counted := 0, 0;
    for k := 0 to |vps|
      invariant total == Total(Budgets(inst, vps[..k])) && counted == |Budgets(inst, vps[..k])|
    {
      assert vps[..k + 1] == vps[..k] + [vps[k]];
      BudgetsAppend(inst, vps[..k], vps[k]);
      var time := inst.components[vps[k]].properties.windowTime;
      if time.Some? {
        total := total + time.value;
        counted := counted + 1;
      }
    }
    assert vps[..|vps|] == vps;
  }

  method CheckProcessor(inst: Instance, p: nat, som: Option<Selection>, log: Log)
    requires inst.Valid() && inst.Has(p) && ValidSelection(inst, som)
    modifies log
    ensures log.items == old(log.items) + FindingAt(inst, p, som)
  {
    if inst.components[p].category != Processor {
      return;
    }
    var frame := inst.components[p].properties.period;
    var vps := ActiveWindows(inst, inst.components[p].children, som);
    if vps == [] {
      return;
    }
    var total, counted := SumWindows(inst, vps);
    if counted == 0 || frame == None || frame == Some(0) {
      return;
    }
    if frame.value < total {
      log.Push(WindowOvercommitted(p, total, frame.value, counted));
    } else {
      log.Push(WindowWithinFrame(p, total, frame.value, counted));
    }
  }

  method CheckWindowUtilization(inst: Instance, som: Option<Selection>, log: Log)
    requires inst.Valid() && ValidSelection(inst, som)
    modifies log
    ensures log.items == old(log.items) + WindowFindings(inst, |inst.components|, som)
  {
    ghost var found: seq<Diagnostic> := [];
    for p := 0 to |inst.components|
      invariant found == WindowFindings(inst, p, som)
      invariant log.items == old(log.items) + found
    {
      ghost var more := FindingAt(inst, p, som);
      CheckProcessor(inst, p, som, log);
      FindingsNext(inst, p, som);
      Regroup(old(log.items), found, more);
      found := found + more;
    }
  }

  lemma FindingsNext(inst: Instance, p: nat, som: Option<Selection>)
    requires inst.Valid() && inst.Has(p) && ValidSelection(inst, som)
    ensures WindowFindings(inst, p, som) + FindingAt(inst, p, som) == WindowFindings(inst, p + 1, som)
  {
  }

  predicate ErrorAbout(d: Diagnostic, processor: nat) {
    d.Severity() == Error && d.WindowOvercommitted? && d.processor == processor
  }

  predicate HasError(diags: seq<Diagnostic>, processor: nat) {
    diags != [] && (ErrorAbout(diags[|diags| - 1], processor) || HasError(diags[..|diags| - 1], processor))
  }

  lemma {:induction false} HasErrorAppend(a: seq<Diagnostic>, b: seq<Diagnostic>, processor: nat)
    ensures HasError(a + b, processor) <==> HasError(a, processor) || HasError(b, processor)
  {
    if b == [] {
      assert a + b == a;
    } else {
      assert (a + b)[..|a + b| - 1] == a + b[..|b| - 1];
      HasErrorAppend(a, b[..|b| - 1], processor);
    }
  }

  /** The check rejects a processor. */
  predicate Rejects(inst: Instance, processor: nat, som: Option<Selection>)
    requires inst.Valid() && inst.Has(processor) && ValidSelection(inst, som)
  {
    HasError(FindingAt(inst, processor, som), processor)
  }

  /** The findings of the whole check hold an error about exactly the processors it rejects. */
  lemma {:induction false} ErrorIffRejects(inst: Instance, count: nat, som: Option<Selection>, processor: nat)
    requires inst.Valid() && count <= |inst.components| && ValidSelection(inst, som) && inst.Has(processor)
    ensures HasError(WindowFindings(inst, count, som), processor) <==> processor < count && Rejects(inst, processor, som)
  {
    if 0 < count {
      var c := count - 1;
      ErrorIffRejects(inst, c, som, processor);
      HasErrorNext(inst, c, som, processor);
      if c != processor { NamesOwn(inst, c, som, processor); }
    }
  }

  lemma HasErrorNext(inst: Instance, c: nat, som: Option<Selection>, processor: nat)
    requires inst.Valid() && inst.Has(c) && ValidSelection(inst, som)
    ensures HasError(WindowFindings(inst, c + 1, som), processor)
       <==> HasError(WindowFindings(inst, c, som), processor) || HasError(FindingAt(inst, c, som), processor)
  {
    HasErrorAppend(WindowFindings(inst, c, som), FindingAt(inst, c, som), processor);
  }

  lemma NamesOwn(inst: Instance, c: nat, som: Option<Selection>, processor: nat)
    requires inst.Valid() && inst.Has(c) && ValidSelection(inst, som) && c != processor
    ensures !HasError(FindingAt(inst, c, som), processor)
  {
    var findings := FindingAt(inst, c, som);
    if findings != [] {
      assert |findings| == 1 && !ErrorAbout(findings[0], processor);
      assert findings[..0] == [];
    }
  }

  lemma RejectsWhen(inst: Instance, processor: nat, som: Option<Selection>)
    requires inst.Valid() && inst.Has(processor) && ValidSelection(inst, som)
    ensures Rejects(inst, processor, som) <==>
      var frame := inst.components[processor].properties.period;
      && inst.components[processor].category == Processor
      && frame.Some? && 0 < frame.value < Total(WindowBudgets(inst, processor, som))
  {
    var findings := FindingAt(inst, processor, som);
    if findings != [] {
      assert |findings| == 1 && findings[..0] == [];
      assert HasError(findings, processor) <==> ErrorAbout(findings[0], processor) || HasError(findings[..0], processor);
    }
  }

  // ---- Modes can only relieve a processor ----

  lemma TotalAppend(a: seq<nat>, x: nat)
    ensures Total(a + [x]) == Total(a) + x
  {
    assert (a + [x])[..|a|] == a;
  }

  function WindowTime(inst: Instance, c: nat): nat
    requires inst.Has(c)
  {
    var time := inst.components[c].properties.windowTime;
    if time.Some? then time.value else 0
  }

  lemma BudgetsAppend(inst: Instance, vps: seq<nat>, c: nat)
    requires inst.Has(c) && inst.HasAll(vps)
    ensures Total(Budgets(inst, vps + [c])) == Total(Budgets(inst, vps)) + WindowTime(inst, c)
    ensures |Budgets(inst, vps + [c])|
         == |Budgets(inst, vps)| + if inst.components[c].properties.windowTime.Some? then 1 else 0
  {
    assert (vps + [c])[..|vps|] == vps;
    var before := Budgets(inst, vps);
    TotalAppend(before, WindowTime(inst, c));
    assert before + [] == before;
  }

  lemma {:induction false} ModeSumsLess(inst: Instance, children: seq<nat>, som: Option<Selection>)
    requires ValidSelection(inst, som) && inst.HasAll(children)
    ensures Total(Budgets(inst, ActiveWindows(inst, children, som)))
         <= Total(Budgets(inst, ActiveWindows(inst, children, None)))
  {
    if children != [] {
      var n := |children| - 1;
      ModeSumsLess(inst, children[..n], som);
      OneMoreChild(inst, children, som);
      OneMoreChild(inst, children, None);
    }
  }

  lemma OneMoreChild(inst: Instance, children: seq<nat>, som: Option<Selection>)
    requires ValidSelection(inst, som) && inst.HasAll(children) && children != []
    ensures var c, rest := children[|children| - 1], children[..|children| - 1];
      Total(Budgets(inst, ActiveWindows(inst, children, som)))
      == Total(Budgets(inst, ActiveWindows(inst, rest, som)))
       + if inst.components[c].category == VirtualProcessor && Active(inst, c, som) then WindowTime(inst, c) else 0
  {
    var c := children[|children| - 1];
    var before := ActiveWindows(inst, children[..|children| - 1], som);
    var after := ActiveWindows(inst, children, som);
    if inst.components[c].category == VirtualProcessor && Active(inst, c, som) {
      assert after == before + [c];
      BudgetsAppend(inst, before, c);
    } else {
      assert after == before;
    }
  }

  /** A processor that the mode-independent analysis does not reject is rejected in no mode. */
  lemma NoErrorInAnyMode(inst: Instance, processor: nat, som: Option<Selection>)
    requires inst.Valid() && inst.Has(processor) && ValidSelection(inst, som)
    ensures Rejects(inst, processor, som) ==> Rejects(inst, processor, None)
  {
    ModeSumsLess(inst, inst.components[processor].children, som);
    RejectsWhen(inst, processor, som);
    RejectsWhen(inst, processor, None);
  }

  // ---- What the check decides ----

  /** Which partition holds the processor at each instant; an index past the last means none. */
  type Schedule = nat -> nat

  function TraceOf(sched: Schedule, k: nat): Trace {
    (t: nat) => sched(t) == k
  }

  /** Every partition gets its budget in every major frame. */
  ghost predicate Realises(sched: Schedule, frame: nat, budgets: seq<nat>) {
    forall k | 0 <= k < |budgets| :: Delivers(TraceOf(sched, k), frame, budgets[k])
  }

  /** The partition whose window holds the instant `x` of a frame, windows laid end to end. */
  function SlotOf(budgets: seq<nat>, x: nat): (k: nat)
    ensures k <= |budgets|
    ensures k < |budgets| ==> Total(budgets[..k]) <= x < Total(budgets[..k + 1])
    ensures k == |budgets| ==> Total(budgets) <= x
  {
    if budgets == [] then 0
    else
      var n := |budgets| - 1;
      var k := SlotOf(budgets[..n], x);
      assert budgets[..n + 1] == budgets;
      if k < n then
        assert budgets[..n][..k] == budgets[..k] && budgets[..n][..k + 1] == budgets[..k + 1];
        k
      else if x < Total(budgets) then n else n + 1
  }

  function EndToEnd(budgets: seq<nat>, frame: nat): Schedule
    requires 0 < frame
  {
    (t: nat) => SlotOf(budgets, t % frame)
  }

  lemma {:induction false} TotalMono(budgets: seq<nat>, i: nat, j: nat)
    requires i <= j <= |budgets|
    ensures Total(budgets[..i]) <= Total(budgets[..j])
    decreases j
  {
    if i < j {
      TotalMono(budgets, i, j - 1);
      assert budgets[..j][..j - 1] == budgets[..j - 1];
    }
  }

  lemma SlotIs(budgets: seq<nat>, x: nat, k: nat)
    requires k < |budgets|
    ensures SlotOf(budgets, x) == k <==> Total(budgets[..k]) <= x < Total(budgets[..k + 1])
  {
    var s := SlotOf(budgets, x);
    assert budgets[..|budgets|] == budgets;
    if s < k {
      TotalMono(budgets, s + 1, k);
    } else if k < s {
      TotalMono(budgets, k + 1, s);
    }
  }

  /** Where in a frame the partition's window lies. */
  lemma WindowOf(budgets: seq<nat>, frame: nat, k: nat, m: nat, t: nat)
    requires 0 < frame && k < |budgets| && m * frame <= t < m * frame + frame
    ensures TraceOf(EndToEnd(budgets, frame), k)(t)
       <==> Total(budgets[..k]) <= t - m * frame < Total(budgets[..k + 1])
  {
    ModWithin(t, m, frame);
    SlotIs(budgets, t - m * frame, k);
  }

  /** A trace that is on for exactly one stretch of a window. */
  lemma OneStretch(s: Trace, a: nat, from: nat, to: nat, b: nat)
    requires a <= from <= to <= b
    requires forall t | a <= t < b :: s(t) <==> from <= t < to
    ensures Supplied(s, a, b) == to - from
  {
    SuppliedRun(s, a, from, false);
    SuppliedRun(s, from, to, true);
    SuppliedRun(s, to, b, false);
    SuppliedSplit(s, a, from, b);
    SuppliedSplit(s, from, to, b);
  }

  /** Windows laid end to end give each partition exactly its budget in each frame. */
  lemma EndToEndGivesBudget(budgets: seq<nat>, frame: nat, k: nat, m: nat)
    requires 0 < frame && Total(budgets) <= frame && k < |budgets|
    ensures FrameSupply(TraceOf(EndToEnd(budgets, frame), k), frame, m) == budgets[k]
  {
    var a := FrameStart(TraceOf(EndToEnd(budgets, frame), k), frame, m);
    EndToEndWindow(budgets, frame, k, m, a);
  }

  lemma EndToEndWindow(budgets: seq<nat>, frame: nat, k: nat, m: nat, a: nat)
    requires 0 < frame && Total(budgets) <= frame && k < |budgets| && a == m * frame
    ensures Supplied(TraceOf(EndToEnd(budgets, frame), k), a, a + frame) == budgets[k]
  {
    var s := TraceOf(EndToEnd(budgets, frame), k);
    var from, to := a + Total(budgets[..k]), a + Total(budgets[..k + 1]);
    WindowFits(budgets, frame, k);
    forall t | a <= t < a + frame ensures s(t) <==> from <= t < to {
      WindowOf(budgets, frame, k, m, t);
    }
    OneStretch(s, a, from, to, a + frame);
  }

  lemma WindowFits(budgets: seq<nat>, frame: nat, k: nat)
    requires Total(budgets) <= frame && k < |budgets|
    ensures Total(budgets[..k]) + budgets[k] == Total(budgets[..k + 1]) <= frame
  {
    assert budgets[..k + 1][..k] == budgets[..k];
    TotalMono(budgets, k + 1, |budgets|);
    assert budgets[..|budgets|] == budgets;
  }

  lemma EndToEndRealises(budgets: seq<nat>, frame: nat)
    requires 0 < frame && Total(budgets) <= frame
    ensures Realises(EndToEnd(budgets, frame), frame, budgets)
  {
    forall k | 0 <= k < |budgets| ensures Delivers(TraceOf(EndToEnd(budgets, frame), k), frame, budgets[k]) {
      forall m: nat ensures budgets[k] <= FrameSupply(TraceOf(EndToEnd(budgets, frame), k), frame, m) {
        EndToEndGivesBudget(budgets, frame, k, m);
      }
    }
  }

  function Below(sched: Schedule, c: nat): Trace {
    (t: nat) => sched(t) < c
  }

  lemma {:induction false} BelowNext(sched: Schedule, c: nat, a: nat, b: nat)
    requires a <= b
    ensures Supplied(Below(sched, c + 1), a, b) == Supplied(Below(sched, c), a, b) + Supplied(TraceOf(sched, c), a, b)
    decreases b
  {
    if a < b { BelowNext(sched, c, a, b - 1); }
  }

  /** One processor cannot give away more time than a frame has. */
  lemma {:induction false} BudgetsWithinFrame(sched: Schedule, frame: nat, budgets: seq<nat>)
    requires Realises(sched, frame, budgets)
    ensures Total(budgets) <= Supplied(Below(sched, |budgets|), 0, frame)
  {
    if budgets != [] {
      var n := |budgets| - 1;
      BudgetsWithinFrame(sched, frame, budgets[..n]);
      BelowNext(sched, n, 0, frame);
      assert budgets[n] <= FrameSupply(TraceOf(sched, n), frame, 0);
    }
  }

  /** The windows fit in the frame exactly if some schedule gives every partition its budget. */
  lemma FitsIffRealisable(frame: nat, budgets: seq<nat>)
    requires 0 < frame
    ensures Total(budgets) <= frame <==> exists sched: Schedule :: Realises(sched, frame, budgets)
  {
    if Total(budgets) <= frame {
      EndToEndRealises(budgets, frame);
    }
    forall sched: Schedule | Realises(sched, frame, budgets) ensures Total(budgets) <= frame {
      BudgetsWithinFrame(sched, frame, budgets);
    }
  }

  /**
   The check reports an error for a processor exactly when no schedule at all can give each of
   its active partitions the declared window in every major frame.
   */
  lemma OvercommittedIffUnrealisable(inst: Instance, processor: nat, som: Option<Selection>)
    requires inst.Valid() && inst.Has(processor) && ValidSelection(inst, som)
    requires inst.components[processor].category == Processor
    requires var frame := inst.components[processor].properties.period; frame.Some? && 0 < frame.value
    ensures Rejects(inst, processor, som) <==>
      !exists sched: Schedule ::
        Realises(sched, inst.components[processor].properties.period.value, WindowBudgets(inst, processor, som))
  {
    RejectsWhen(inst, processor, som);
    FitsIffRealisable(inst.components[processor].properties.period.value, WindowBudgets(inst, processor, som));
  }
}
