/** Which windows count in an operation mode, and what the check makes of them, in terms of the model alone. */
module WindowMeaning {
  import opened Arith
  import opened Sequences
  import opened Instances
  import opened Diagnostics
  import opened PartitionWindows

  // ---- Modes ----

  /** The mode is selected for the owner: the first selected mode that belongs to it bears the name. */
  ghost predicate Selects(inst: Instance, selection: Selection, owner: nat, name: string)
    requires ValidSelection(inst, Some(selection))
  {
    exists k ::
      && 0 <= k < |selection| && inst.modes[selection[k]] == Mode(name, owner)
      && forall j | 0 <= j < k :: inst.modes[selection[j]].owner != owner
  }

  /** No mode is selected for the owner. */
  predicate SelectsNone(inst: Instance, selection: Selection, owner: nat)
    requires ValidSelection(inst, Some(selection))
  {
    forall k | 0 <= k < |selection| :: inst.modes[selection[k]].owner != owner
  }

  predicate Lists(inst: Instance, c: nat, name: string)
    requires inst.Has(c)
  {
    exists i | 0 <= i < |inst.components[c].inModes| :: EqIgnoreAsciiCase(inst.components[c].inModes[i], name)
  }

  /**
   The component is in use: there are no modes to choose, or none for it; or it lists the mode that
   is selected for its parent.
   */
  ghost predicate InUse(inst: Instance, c: nat, som: Option<Selection>)
    requires inst.Has(c) && ValidSelection(inst, som)
  {
    var comp := inst.components[c];
    || som == None || comp.inModes == [] || comp.parent == None
    || SelectsNone(inst, som.value, comp.parent.value)
    || exists name :: Selects(inst, som.value, comp.parent.value, name) && Lists(inst, c, name)
  }

  lemma {:induction false} SelectedMeans(inst: Instance, selection: Selection, owner: nat) returns (k: nat)
    requires ValidSelection(inst, Some(selection))
    ensures match SelectedMode(inst, selection, owner)
            case Some(name) =>
              && k < |selection| && inst.modes[selection[k]] == Mode(name, owner)
              && forall j | 0 <= j < k :: inst.modes[selection[j]].owner != owner
            case None => SelectsNone(inst, selection, owner)
  {
    k := 0;
    if selection != [] && inst.modes[selection[0]].owner != owner {
      var n := SelectedMeans(inst, selection[1..], owner);
      k := n + 1;
      forall j | 0 < j < |selection| ensures selection[j] == selection[1..][j - 1] { }
    }
  }

  lemma SelectionMeans(inst: Instance, selection: Selection, owner: nat, name: string)
    requires ValidSelection(inst, Some(selection))
    ensures Selects(inst, selection, owner, name) <==> SelectedMode(inst, selection, owner) == Some(name)
    ensures SelectsNone(inst, selection, owner) <==> SelectedMode(inst, selection, owner) == None
  {
    var k := SelectedMeans(inst, selection, owner);
    if Selects(inst, selection, owner, name) {
      var i :| 0 <= i < |selection| && inst.modes[selection[i]] == Mode(name, owner)
        && forall j | 0 <= j < i :: inst.modes[selection[j]].owner != owner;
      assert i == k;
    }
  }

  lemma InUseMeans(inst: Instance, c: nat, som: Option<Selection>)
    requires inst.Has(c) && ValidSelection(inst, som)
    ensures InUse(inst, c, som) <==> Active(inst, c, som)
  {
    var comp := inst.components[c];
    if som.Some? && comp.parent.Some? {
      forall name: string
        ensures Selects(inst, som.value, comp.parent.value, name)
          <==> SelectedMode(inst, som.value, comp.parent.value) == Some(name)
      {
        SelectionMeans(inst, som.value, comp.parent.value, name);
      }
      SelectionMeans(inst, som.value, comp.parent.value, "");
    }
  }

  // ---- Sums ----

  /** The component is a virtual processor with a window, and one of those that count. */
  predicate Counted(inst: Instance, c: nat, counts: nat -> bool)
    requires inst.Has(c)
  {
    inst.components[c].category == VirtualProcessor && inst.components[c].properties.windowTime.Some? && counts(c)
  }

  function SumOf(inst: Instance, children: seq<nat>, counts: nat -> bool): nat
    requires inst.HasAll(children)
  {
    if children == [] then 0
    else
      (if Counted(inst, children[0], counts) then inst.components[children[0]].properties.windowTime.value else 0)
      + SumOf(inst, children[1..], counts)
  }

  function NumberOf(inst: Instance, children: seq<nat>, counts: nat -> bool): nat
    requires inst.HasAll(children)
  {
    if children == [] then 0
    else (if Counted(inst, children[0], counts) then 1 else 0) + NumberOf(inst, children[1..], counts)
  }

  lemma {:induction false} SumsAppend(inst: Instance, a: seq<nat>, b: seq<nat>, counts: nat -> bool)
    requires inst.HasAll(a) && inst.HasAll(b)
    ensures SumOf(inst, a + b, counts) == SumOf(inst, a, counts) + SumOf(inst, b, counts)
    ensures NumberOf(inst, a + b, counts) == NumberOf(inst, a, counts) + NumberOf(inst, b, counts)
  {
    if a == [] {
      assert a + b == b;
    } else {
      assert (a + b)[1..] == a[1..] + b;
      SumsAppend(inst, a[1..], b, counts);
    }
  }

  /** The check sums and counts the windows of the children that are in use. */
  lemma {:induction false} SumsMean(inst: Instance, children: seq<nat>, som: Option<Selection>, counts: nat -> bool)
    requires inst.HasAll(children) && ValidSelection(inst, som)
    requires forall k | 0 <= k < |children| :: counts(children[k]) <==> Active(inst, children[k], som)
    ensures Total(Budgets(inst, ActiveWindows(inst, children, som))) == SumOf(inst, children, counts)
    ensures |Budgets(inst, ActiveWindows(inst, children, som))| == NumberOf(inst, children, counts)
  {
    if children != [] {
      var n := |children| - 1;
      SumsMean(inst, children[..n], som, counts);
      SumsAppend(inst, children[..n], [children[n]], counts);
      assert children == children[..n] + [children[n]];
      LastWindow(inst, children, som);
      assert [children[n]][1..] == [];
    }
  }

  lemma LastWindow(inst: Instance, children: seq<nat>, som: Option<Selection>)
    requires inst.HasAll(children) && ValidSelection(inst, som) && children != []
    ensures var c, before := children[|children| - 1], Budgets(inst, ActiveWindows(inst, children[..|children| - 1], som));
      var after := Budgets(inst, ActiveWindows(inst, children, som));
      if Counted(inst, c, (d: nat) => true) && Active(inst, c, som)
      then Total(after) == Total(before) + inst.components[c].properties.windowTime.value && |after| == |before| + 1
      else Total(after) == Total(before) && |after| == |before|
  {
    var n := |children| - 1;
    var c, before := children[n], ActiveWindows(inst, children[..n], som);
    if inst.components[c].category == VirtualProcessor && Active(inst, c, som) {
      BudgetsAppend(inst, before, c);
    } else {
      assert ActiveWindows(inst, children, som) == before;
    }
  }

  // ---- Findings ----

  /** What is to be said about a processor whose counted windows have this sum and number. */
  function Verdict(inst: Instance, processor: nat, total: nat, number: nat): seq<Diagnostic>
    requires inst.Has(processor)
  {
    match (inst.components[processor].category, inst.components[processor].properties.period)
    case (Processor, Some(frame)) =>
      if frame == 0 || number == 0 then []
      else if frame < total then [WindowOvercommitted(processor, total, frame, number)]
      else [WindowWithinFrame(processor, total, frame, number)]
    case _ => []
  }

  lemma VerdictKinds(inst: Instance, processor: nat, total: nat, number: nat)
    requires inst.Has(processor) && inst.components[processor].category == Processor && 0 < number
    requires inst.components[processor].properties.period.Some? && 0 < inst.components[processor].properties.period.value
    ensures var v := Verdict(inst, processor, total, number);
      && |v| == 1
      && v[0].Severity() == if inst.components[processor].properties.period.value < total then Error else Info
  {
  }

  /** The finding for a processor, in terms of the children that count. */
  lemma FindingMeans(inst: Instance, processor: nat, som: Option<Selection>, counts: nat -> bool)
    requires inst.Valid() && inst.Has(processor) && ValidSelection(inst, som)
    requires forall k | 0 <= k < |inst.components[processor].children| ::
      counts(inst.components[processor].children[k]) <==> InUse(inst, inst.components[processor].children[k], som)
    ensures var children := inst.components[processor].children;
      FindingAt(inst, processor, som)
      == Verdict(inst, processor, SumOf(inst, children, counts), NumberOf(inst, children, counts))
  {
    var children := inst.components[processor].children;
    forall k | 0 <= k < |children| ensures counts(children[k]) <==> Active(inst, children[k], som) {
      InUseMeans(inst, children[k], som);
    }
    SumsMean(inst, children, som, counts);
  }

  /** The children of the processor name it as their parent. */
  predicate Nested(inst: Instance, processor: nat)
    requires inst.Valid() && inst.Has(processor)
  {
    forall k | 0 <= k < |inst.components[processor].children| ::
      inst.components[inst.components[processor].children[k]].parent == Some(processor)
  }

  lemma OneSelected(inst: Instance, selection: Selection, owner: nat, a: string, b: string)
    requires ValidSelection(inst, Some(selection))
    requires Selects(inst, selection, owner, a) && Selects(inst, selection, owner, b)
    ensures a == b
  {
    SelectionMeans(inst, selection, owner, a);
    SelectionMeans(inst, selection, owner, b);
  }

  /**
   In a mode that selects `name` for the processor, the windows that count are those of the virtual
   processors without modes, and of those that list the name, whatever its case.
   */
  lemma FindingInMode(inst: Instance, processor: nat, selection: Selection, name: string)
    requires inst.Valid() && inst.Has(processor) && ValidSelection(inst, Some(selection)) && Nested(inst, processor)
    requires Selects(inst, selection, processor, name)
    ensures var children := inst.components[processor].children;
      var counts := (c: nat) => inst.Has(c) && (inst.components[c].inModes == [] || Lists(inst, c, name));
      FindingAt(inst, processor, Some(selection))
      == Verdict(inst, processor, SumOf(inst, children, counts), NumberOf(inst, children, counts))
  {
    var counts := (c: nat) => inst.Has(c) && (inst.components[c].inModes == [] || Lists(inst, c, name));
    var children := inst.components[processor].children;
    forall k | 0 <= k < |children| ensures counts(children[k]) <==> InUse(inst, children[k], Some(selection)) {
      SelectionMeans(inst, selection, processor, name);
      forall other | Selects(inst, selection, processor, other) ensures other == name {
        OneSelected(inst, selection, processor, name, other);
      }
    }
    FindingMeans(inst, processor, Some(selection), counts);
  }

  /** Without modes, all windows count. */
  lemma FindingWithoutModes(inst: Instance, processor: nat)
    requires inst.Valid() && inst.Has(processor)
    ensures var children := inst.components[processor].children;
      var counts := (c: nat) => true;
      FindingAt(inst, processor, None)
      == Verdict(inst, processor, SumOf(inst, children, counts), NumberOf(inst, children, counts))
  {
    FindingMeans(inst, processor, None, (c: nat) => true);
  }

  /** Every child of the processor has no modes, or lists the name. */
  predicate AllList(inst: Instance, processor: nat, name: string)
    requires inst.Valid() && inst.Has(processor)
  {
    forall k | 0 <= k < |inst.components[processor].children| ::
      var c := inst.components[processor].children[k];
      inst.components[c].inModes == [] || Lists(inst, c, name)
  }

  /**
   The finding in a mode is the finding without modes, if every child has no modes, or lists the one
   that is selected for the processor; and if none is selected for it.
   */
  lemma SameAsWithoutModes(inst: Instance, processor: nat, selection: Selection)
    requires inst.Valid() && inst.Has(processor) && ValidSelection(inst, Some(selection)) && Nested(inst, processor)
    requires SelectsNone(inst, selection, processor)
      || (exists name :: Selects(inst, selection, processor, name) && AllList(inst, processor, name))
    ensures FindingAt(inst, processor, Some(selection)) == FindingAt(inst, processor, None)
  {
    var children, all := inst.components[processor].children, (c: nat) => true;
    forall k | 0 <= k < |children| ensures InUse(inst, children[k], Some(selection)) { }
    FindingMeans(inst, processor, Some(selection), all);
    FindingMeans(inst, processor, None, all);
  }
}
