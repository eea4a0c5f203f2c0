/** Processor demand of an inner task over the natural numbers, with no rounding or saturation. */
module Demand {
  import opened Arith

  /** A higher-priority task: its period `T_j`, execution time `C_j` and extra release jitter. */
  datatype Hp = Hp(period: nat, exec: nat, jitter: nat)

  /** Interference divides by each period; the analysis demands that none is zero. */
  predicate Periodic(hp: seq<Hp>) {
    forall j | 0 <= j < |hp| :: 0 < hp[j].period
  }

  predicate NoJitter(hp: seq<Hp>) {
    forall j | 0 <= j < |hp| :: hp[j].jitter == 0
  }

  /** The most jobs of `h` that can be released in a window of length `t`. */
  function Releases(h: Hp, t: nat): nat
    requires 0 < h.period
  {
    CeilDiv(t + h.jitter, h.period)
  }

  /** The most work those jobs of `h` can bring. */
  function Load(h: Hp, t: nat): nat
    requires 0 < h.period
  {
    Releases(h, t) * h.exec
  }

  function Interference(hp: seq<Hp>, t: nat): nat
    requires Periodic(hp)
  {
    if hp == [] then 0
    else
      var n := |hp| - 1;
      Interference(hp[..n], t) + Load(hp[n], t)
  }

  /** `rbf(t) = C + B + Σ ⌈(t + J_j) / T_j⌉ · C_j`. */
  function Rbf(exec: nat, blocking: nat, hp: seq<Hp>, t: nat): nat
    requires Periodic(hp)
  {
    exec + blocking + Interference(hp, t)
  }

  /** All releases of higher-priority jobs in a window of length `t`. */
  function AllReleases(hp: seq<Hp>, t: nat): nat
    requires Periodic(hp)
  {
    if hp == [] then 0
    else
      var n := |hp| - 1;
      AllReleases(hp[..n], t) + Releases(hp[n], t)
  }

  lemma LoadMono(h: Hp, t: nat, t': nat)
    requires 0 < h.period && t <= t'
    ensures Releases(h, t) <= Releases(h, t') && Load(h, t) <= Load(h, t')
  {
    CeilDivMono(t + h.jitter, t' + h.jitter, h.period, h.period);
    MulMono(Releases(h, t), Releases(h, t'), h.exec);
  }

  lemma {:induction false} InterferenceMono(hp: seq<Hp>, t: nat, t': nat)
    requires Periodic(hp) && t <= t'
    ensures Interference(hp, t) <= Interference(hp, t')
  {
    if hp != [] {
      var n := |hp| - 1;
      InterferenceMono(hp[..n], t, t');
      LoadMono(hp[n], t, t');
    }
  }

  /** Demand grows only when some higher-priority release point is passed. */
  lemma {:induction false} DemandGrowsAtReleases(hp: seq<Hp>, t: nat, t': nat)
    requires Periodic(hp) && t <= t'
    ensures AllReleases(hp, t) <= AllReleases(hp, t')
    ensures Interference(hp, t) < Interference(hp, t') ==> AllReleases(hp, t) < AllReleases(hp, t')
  {
    if hp != [] {
      var n := |hp| - 1;
      DemandGrowsAtReleases(hp[..n], t, t');
      LoadMono(hp[n], t, t');
    }
  }

  /** When every period reaches `t` and there is no jitter, each task is released at most once. */
  lemma {:induction false} LongPeriodsReleaseOnce(hp: seq<Hp>, t: nat)
    requires Periodic(hp) && NoJitter(hp)
    requires forall j | 0 <= j < |hp| :: t <= hp[j].period
    ensures AllReleases(hp, t) <= |hp|
  {
    if hp != [] {
      var n := |hp| - 1;
      LongPeriodsReleaseOnce(hp[..n], t);
      CeilDivLeast(t, hp[n].period, 1);
    }
  }

  lemma LoadPositive(h: Hp, t: nat, t': nat)
    requires 0 < h.period && 0 < t'
    requires 0 < Load(h, t)
    ensures 0 < Load(h, t')
  {
    var r, r' := Releases(h, t), Releases(h, t');
    assert 0 < r' by { CeilDivLeast(t' + h.jitter, h.period, 0); }
    assert 0 < h.exec by { ProductPositive(r, h.exec); }
    ProductPositive(r', h.exec);
  }

  /** Demand that is positive in some window is positive in every window that is not empty. */
  lemma {:induction false} DemandPositive(hp: seq<Hp>, t: nat, t': nat)
    requires Periodic(hp) && 0 < t' && 0 < Interference(hp, t)
    ensures 0 < Interference(hp, t')
  {
    if hp != [] {
      var n := |hp| - 1;
      if 0 < Interference(hp[..n], t) {
        DemandPositive(hp[..n], t, t');
      } else {
        LoadPositive(hp[n], t, t');
      }
    }
  }
}
