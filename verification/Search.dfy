/**
 The reference for every iterative search in the analysis: try each candidate in turn.
 A fixed-point loop is correct when it returns what this scan returns.
 */
module Search {
  import opened Arith

  /** The least `x` in `lo .. hi` (inclusive) that satisfies `p`. */
  function Least(p: nat -> bool, lo: nat, hi: nat): (r: Option<nat>)
    ensures r.Some? ==> lo <= r.value <= hi && p(r.value) && forall x | lo <= x < r.value :: !p(x)
    ensures r.None? ==> forall x | lo <= x <= hi :: !p(x)
    decreases hi + 1 - lo
  {
    if hi < lo then None
    else if p(lo) then Some(lo)
    else Least(p, lo + 1, hi)
  }

  /** A candidate that passes, with none passing below it, is what the scan returns. */
  lemma {:induction false} LeastIs(p: nat -> bool, lo: nat, hi: nat, x: nat)
    requires lo <= x <= hi && p(x) && forall y | lo <= y < x :: !p(y)
    ensures Least(p, lo, hi) == Some(x)
    decreases x - lo
  {
    if lo < x { LeastIs(p, lo + 1, hi, x); }
  }
}
