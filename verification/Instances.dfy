/** The part of an instantiated AADL system that the partition analyses read. */
module Instances {
  import opened Arith

  datatype Category =
    | System | Process | Thread | ThreadGroup | Processor | VirtualProcessor | Memory
    | Bus | VirtualBus | Device | Subprogram | SubprogramGroup | Data | Abstract

  datatype FeatureKind =
    | DataPort | EventPort | EventDataPort | Parameter | DataAccess | BusAccess
    | SubprogramAccess | SubprogramGroupAccess | FeatureGroup | AbstractFeature

  datatype ConnectionKind = PortConn | AccessConn | GroupConn | FeatureConn | ParameterConn

  datatype Feature = Feature(name: string, kind: FeatureKind)

  /** An explicit processor binding: absent, naming a virtual processor, or naming something else. */
  datatype Binding = Unbound | BoundTo(partition: nat) | BoundElsewhere

  /** Property values, where the model gives them. Times are 64-bit. */
  datatype Properties = Properties(
    binding: Binding,
    period: Option<U64>,
    computeTime: Option<U64>,
    windowTime: Option<U64>,
    deadline: Option<U64>,
    pollSegment: Option<U64>,
    dispatchJitter: Option<U64>,
    priority: Option<U64>)

  datatype Component = Component(
    category: Category,
    parent: Option<nat>,
    children: seq<nat>,
    features: seq<Feature>,
    inModes: seq<string>,
    properties: Properties)

  datatype Endpoint = Endpoint(comp: nat, feature: string)

  datatype Connection = Connection(kind: ConnectionKind, source: Endpoint, destination: Endpoint)

  datatype Mode = Mode(name: string, owner: nat)

  datatype Instance = Instance(components: seq<Component>, connections: seq<Connection>, modes: seq<Mode>)
  {
    /** A component is allocated after its parent; indices stay within their tables. */
    ghost predicate Valid() {
      && (forall c | 0 <= c < |components| :: components[c].parent.Some? ==> components[c].parent.value < c)
      && (forall c | 0 <= c < |components| :: HasAll(components[c].children))
      && (forall i | 0 <= i < |connections| ::
            connections[i].source.comp < |components| && connections[i].destination.comp < |components|)
    }

    predicate Has(c: nat) {
      c < |components|
    }

    predicate HasAll(cs: seq<nat>) {
      forall k | 0 <= k < |cs| :: cs[k] < |components|
    }
  }

  // ---- Names ----

  function LowerAscii(c: char): char {
    if 'A' <= c <= 'Z' then (c as int + 32) as char else c
  }

  predicate EqIgnoreAsciiCase(a: string, b: string) {
    |a| == |b| && forall i | 0 <= i < |a| :: LowerAscii(a[i]) == LowerAscii(b[i])
  }

  const UPPER := "ABCDEFGHIJKLMNOPQRSTUVWXYZ"
  const LOWER := "abcdefghijklmnopqrstuvwxyz"

  /** Names are equal exactly if they differ at most in the case of ASCII letters. */
  lemma CaseIgnored(a: string, b: string)
    ensures EqIgnoreAsciiCase(a, b) <==>
      |a| == |b| && forall i | 0 <= i < |a| :: a[i] == b[i] || SameLetter(a[i], b[i])
  {
    forall i | 0 <= i < |a| && i < |b| ensures LowerAscii(a[i]) == LowerAscii(b[i]) <==> a[i] == b[i] || SameLetter(a[i], b[i]) {
      LettersPair(a[i], b[i]);
    }
  }

  /** One is the upper and the other the lower case of the same letter of the alphabet. */
  predicate SameLetter(c: char, d: char) {
    exists k | 0 <= k < 26 :: Letter(k, c, d) || Letter(k, d, c)
  }

  /** The `k`-th letter of the alphabet in upper and in lower case. */
  predicate Letter(k: nat, upper: char, lower: char)
    requires k < 26
  {
    upper == UPPER[k] && lower == LOWER[k]
  }

  lemma LetterIs(k: nat, upper: char, lower: char)
    requires k < 26
    ensures Letter(k, upper, lower) <==> upper as int == 'A' as int + k && lower as int == 'a' as int + k
  {
  }

  lemma LettersPair(c: char, d: char)
    ensures LowerAscii(c) == LowerAscii(d) <==> c == d || SameLetter(c, d)
  {
    forall k: nat | k < 26
      ensures Letter(k, c, d) <==> c as int == 'A' as int + k && d as int == 'a' as int + k
      ensures Letter(k, d, c) <==> d as int == 'A' as int + k && c as int == 'a' as int + k
    {
      LetterIs(k, c, d);
      LetterIs(k, d, c);
    }
    if LowerAscii(c) == LowerAscii(d) && c != d {
      var k: nat := if 'A' <= c <= 'Z' then c as int - 'A' as int else d as int - 'A' as int;
      assert Letter(k, c, d) || Letter(k, d, c);
    }
  }

  // ---- Containment ----

  /** The `n`-th component on the way up from `c`; the 0-th is `c` itself. */
  function Up(inst: Instance, c: nat, n: nat): Option<nat> {
    if n == 0 then Some(c)
    else match Up(inst, c, n - 1)
      case Some(d) => if inst.Has(d) then inst.components[d].parent else None
      case None => None
  }

  /** The component of the category that lies nearest on the way up from `current`. */
  function Nearest(inst: Instance, current: Option<nat>, category: Category): Option<nat>
    requires inst.Valid() && (current.Some? ==> inst.Has(current.value))
    decreases if current.Some? then current.value + 1 else 0
  {
    match current
    case None => None
    case Some(c) =>
      if inst.components[c].category == category then Some(c)
      else Nearest(inst, inst.components[c].parent, category)
  }

  method FindAncestorOfCategory(inst: Instance, idx: nat, category: Category) returns (r: Option<nat>)
    requires inst.Valid() && inst.Has(idx)
    ensures r == Nearest(inst, Some(idx), category)
  {
    var current := Some(idx);
    while current.Some?
      invariant current.Some? ==> inst.Has(current.value)
      invariant Nearest(inst, current, category) == Nearest(inst, Some(idx), category)
      decreases if current.Some? then current.value + 1 else 0
    {
      var c := current.value;
      if inst.components[c].category == category {
        return Some(c);
      }
      current := inst.components[c].parent;
    }
    return None;
  }

  lemma {:induction false} UpFrom(inst: Instance, c: nat, d: nat, n: nat)
    requires inst.Valid() && inst.Has(c) && inst.components[c].parent == Some(d)
    ensures Up(inst, c, n + 1) == Up(inst, d, n)
  {
    if n == 0 {
      assert Up(inst, c, 0) == Some(c);
    } else {
      UpFrom(inst, c, d, n - 1);
    }
  }

  lemma {:induction false} UpNone(inst: Instance, c: nat, n: nat)
    requires inst.Has(c) && inst.components[c].parent == None
    ensures Up(inst, c, n + 1) == None
  {
    if n == 0 {
      assert Up(inst, c, 0) == Some(c);
    } else {
      UpNone(inst, c, n - 1);
    }
  }

  ghost predicate OfCategory(inst: Instance, c: nat, n: nat, category: Category) {
    match Up(inst, c, n)
    case Some(d) => inst.Has(d) && inst.components[d].category == category
    case None => false
  }

  /** The walk finds the first component of the category on the path to the root, if any is on it. */
  lemma {:induction false} NearestIsFirst(inst: Instance, c: nat, category: Category) returns (n: nat)
    requires inst.Valid() && inst.Has(c)
    ensures match Nearest(inst, Some(c), category)
            case Some(d) => Up(inst, c, n) == Some(d) && OfCategory(inst, c, n, category)
                         && forall m | 0 <= m < n :: !OfCategory(inst, c, m, category)
            case None => forall m: nat :: !OfCategory(inst, c, m, category)
  {
    n := 0;
    if inst.components[c].category != category {
      match inst.components[c].parent {
        case None =>
          forall m: nat ensures !OfCategory(inst, c, m, category) {
            if 0 < m { UpNone(inst, c, m - 1); }
          }
        case Some(d) =>
          var k := NearestIsFirst(inst, d, category);
          n := k + 1;
          UpFrom(inst, c, d, k);
          forall m: nat | 0 < m ensures OfCategory(inst, c, m, category) == OfCategory(inst, d, m - 1, category) {
            UpFrom(inst, c, d, m - 1);
          }
      }
    }
  }

  /** Going up `n` steps from `c` leads to `d`, the first component of the category on the way. */
  ghost predicate FirstUp(inst: Instance, c: nat, n: nat, d: nat, category: Category) {
    && Up(inst, c, n) == Some(d) && OfCategory(inst, c, n, category)
    && forall m | 0 <= m < n :: !OfCategory(inst, c, m, category)
  }

  lemma FirstUpUnique(inst: Instance, c: nat, n: nat, d: nat, n': nat, d': nat, category: Category)
    requires FirstUp(inst, c, n, d, category) && FirstUp(inst, c, n', d', category)
    ensures n == n' && d == d'
  {
  }

  lemma NearestMeans(inst: Instance, c: nat, category: Category, d: nat)
    requires inst.Valid() && inst.Has(c)
    ensures Nearest(inst, Some(c), category) == Some(d) <==> exists n :: FirstUp(inst, c, n, d, category)
  {
    var k := NearestIsFirst(inst, c, category);
    match Nearest(inst, Some(c), category) {
      case Some(e) =>
        assert FirstUp(inst, c, k, e, category);
        forall n | FirstUp(inst, c, n, d, category) ensures d == e { FirstUpUnique(inst, c, n, d, k, e, category); }
      case None =>
    }
  }

  /** Nearest virtual processor strictly above the component. */
  function Partition(inst: Instance, idx: nat): Option<nat>
    requires inst.Valid() && inst.Has(idx)
  {
    Nearest(inst, inst.components[idx].parent, VirtualProcessor)
  }

  method OwningPartition(inst: Instance, idx: nat) returns (r: Option<nat>)
    requires inst.Valid() && inst.Has(idx)
    ensures r == Partition(inst, idx)
  {
    var current := inst.components[idx].parent;
    while current.Some?
      invariant current.Some? ==> inst.Has(current.value)
      invariant Nearest(inst, current, VirtualProcessor) == Partition(inst, idx)
      decreases if current.Some? then current.value + 1 else 0
    {
      var c := current.value;
      if inst.components[c].category == VirtualProcessor {
        return Some(c);
      }
      current := inst.components[c].parent;
    }
    return None;
  }
}
