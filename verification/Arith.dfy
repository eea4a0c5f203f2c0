/** Bounded integers, saturating operations and exact ceiling division. */
module Arith {

  datatype Option<+T> = None | Some(value: T)

  /** The largest value of a 64-bit unsigned integer. */
  const MAX: nat := 0xFFFF_FFFF_FFFF_FFFF

  type U64 = x: nat | x <= MAX

  /** The value a saturating operation stores for the exact result `x`. */
  function Clamp(x: nat): U64 {
    if x <= MAX then x else MAX
  }

  function SatAdd(a: U64, b: U64): U64 {
    Clamp(a + b)
  }

  function SatSub(a: U64, b: U64): U64 {
    if b <= a then a - b else 0
  }

  function SatMul(a: U64, b: U64): U64 {
    Clamp(a * b)
  }

  function Min(a: nat, b: nat): nat {
    if a <= b then a else b
  }

  function Max(a: nat, b: nat): nat {
    if a <= b then b else a
  }

  /** `⌈a / b⌉`: the number of pieces of length `b` needed to cover `a`. */
  function CeilDiv(a: nat, b: nat): (q: nat)
    requires 0 < b
    ensures q <= a
  {
    if a == 0 then 0
    else if a <= b then 1
    else 1 + CeilDiv(a - b, b)
  }

  lemma {:induction false} CeilDivCovers(a: nat, b: nat)
    requires 0 < b
    ensures a <= CeilDiv(a, b) * b < a + b
  {
    if b < a {
      CeilDivCovers(a - b, b);
      var q := CeilDiv(a - b, b);
      assert (q + 1) * b == q * b + b;
    }
  }

  lemma DivBounds(a: nat, b: nat)
    requires 0 < b
    ensures a / b * b <= a < a / b * b + b
  {
  }

  lemma MulMono(x: int, y: int, k: nat)
    requires x <= y
    ensures x * k <= y * k
  {
  }

  lemma ProductPositive(a: nat, b: nat)
    ensures 0 < a * b <==> 0 < a && 0 < b
  {
    if 0 < a && 0 < b { MulMono(1, a, b); }
  }

  /** `⌈a / b⌉` is the least `q` with `a <= q * b`. */
  lemma CeilDivLeast(a: nat, b: nat, q: nat)
    requires 0 < b
    ensures CeilDiv(a, b) <= q <==> a <= q * b
  {
    var c := CeilDiv(a, b);
    CeilDivCovers(a, b);
    if c <= q {
      MulMono(c, q, b);
    } else {
      MulMono(q + 1, c, b);
      assert (q + 1) * b == q * b + b;
    }
  }

  /** `⌊a / b⌋` is the greatest `q` with `q * b <= a`. */
  lemma FloorDivGreatest(a: nat, b: nat, q: nat)
    requires 0 < b
    ensures q <= a / b <==> q * b <= a
  {
    DivBounds(a, b);
    var d := a / b;
    if q <= d {
      MulMono(q, d, b);
    } else {
      MulMono(d + 1, q, b);
      assert (d + 1) * b == d * b + b;
    }
  }

  lemma QuotientAtMost(a: nat, b: nat, q: nat)
    requires 0 < b && a <= q * b
    ensures a / b <= q
  {
    FloorDivGreatest(a, b, q + 1);
    assert (q + 1) * b == q * b + b;
  }

  lemma CeilDivMono(a: nat, a': nat, b: nat, b': nat)
    requires a <= a' && 0 < b' <= b
    ensures CeilDiv(a, b) <= CeilDiv(a', b')
  {
    var q := CeilDiv(a', b');
    CeilDivCovers(a', b');
    assert q * b' <= q * b by { MulMono(b', b, q); }
    CeilDivLeast(a, b, q);
  }
}
