/**
 The saturating 64-bit response-time recurrence with release jitter, interrupt
 interference and a blocking constant, and its fixed-point driver.
 */
module SchedulingVerified {
  import opened Arith
  import opened Demand
  import opened Search

  datatype RtaResult = Converged(value: U64) | Diverged

  datatype Isr = Isr(period: nat, exec: nat)

  /** Every field is a 64-bit value and no period is zero. */
  predicate Words(hp: seq<Hp>) {
    && Periodic(hp)
    && forall j | 0 <= j < |hp| :: hp[j].period <= MAX && hp[j].exec <= MAX && hp[j].jitter <= MAX
  }

  predicate IsrWords(isr: seq<Isr>) {
    forall j | 0 <= j < |isr| :: 0 < isr[j].period <= MAX && isr[j].exec <= MAX
  }

  function InterferenceJittered(h: Hp, r: U64): U64
    requires 0 < h.period && h.exec <= MAX && h.jitter <= MAX
  {
    SatMul(CeilDiv(SatAdd(r, h.jitter), h.period), h.exec)
  }

  function IsrInterference(h: Isr, r: U64): U64
    requires 0 < h.period && h.exec <= MAX
  {
    SatMul(CeilDiv(r, h.period), h.exec)
  }

  /** The exact sum of the terms that the saturating fold adds up. */
  function SumJittered(hp: seq<Hp>, r: U64): nat
    requires Words(hp)
  {
    if hp == [] then 0
    else
      var n := |hp| - 1;
      SumJittered(hp[..n], r) + InterferenceJittered(hp[n], r)
  }

  function SumIsr(isr: seq<Isr>, r: U64): nat
    requires IsrWords(isr)
  {
    if isr == [] then 0
    else
      var n := |isr| - 1;
      SumIsr(isr[..n], r) + IsrInterference(isr[n], r)
  }

  method TotalInterferenceJittered(hp: seq<Hp>, r: U64) returns (total: U64)
    requires Words(hp)
    ensures total == Clamp(SumJittered(hp, r))
  {
    total := 0;
    for i := 0 to |hp|
      invariant total == Clamp(SumJittered(hp[..i], r))
    {
      assert hp[..i + 1][..i] == hp[..i];
      total := SatAdd(total, InterferenceJittered(hp[i], r));
    }
    assert hp[..|hp|] == hp;
  }

  method TotalIsrInterference(isr: seq<Isr>, r: U64) returns (total: U64)
    requires IsrWords(isr)
    ensures total == Clamp(SumIsr(isr, r))
  {
    total := 0;
    for i := 0 to |isr|
      invariant total == Clamp(SumIsr(isr[..i], r))
    {
      assert isr[..i + 1][..i] == isr[..i];
      total := SatAdd(total, IsrInterference(isr[i], r));
    }
    assert isr[..|isr|] == isr;
  }

  /** Saturating early or late makes no difference to a sum. */
  lemma SatAddFive(a: U64, b: U64, x: nat, y: nat, c: U64)
    ensures SatAdd(SatAdd(SatAdd(SatAdd(a, b), Clamp(x)), Clamp(y)), c) == Clamp(a + b + c + x + y)
  {
  }

  /** One step of the recurrence: the exact sum of its terms, saturated once. */
  function Step(exec: U64, jitter: U64, blocking: U64, hp: seq<Hp>, isr: seq<Isr>, r: U64): U64
    requires Words(hp) && IsrWords(isr)
  {
    Clamp(exec + jitter + blocking + SumJittered(hp, r) + SumIsr(isr, r))
  }

  method RtaStepJitteredBlocking(exec: U64, jitter: U64, blocking: U64, hp: seq<Hp>, isr: seq<Isr>, r: U64)
    returns (next: U64)
    requires Words(hp) && IsrWords(isr)
    ensures next == Step(exec, jitter, blocking, hp, isr, r)
  {
    var jittered := TotalInterferenceJittered(hp, r);
    var interrupts := TotalIsrInterference(isr, r);
    next := SatAdd(SatAdd(SatAdd(SatAdd(exec, jitter), jittered), interrupts), blocking);
    SatAddFive(exec, jitter, SumJittered(hp, r), SumIsr(isr, r), blocking);
  }

  lemma TermMono(h: Hp, r: U64, r': U64)
    requires 0 < h.period && h.exec <= MAX && h.jitter <= MAX && r <= r'
    ensures InterferenceJittered(h, r) <= InterferenceJittered(h, r')
  {
    CeilDivMono(SatAdd(r, h.jitter), SatAdd(r', h.jitter), h.period, h.period);
    MulMono(CeilDiv(SatAdd(r, h.jitter), h.period), CeilDiv(SatAdd(r', h.jitter), h.period), h.exec);
  }

  lemma {:induction false} SumJitteredMono(hp: seq<Hp>, r: U64, r': U64)
    requires Words(hp) && r <= r'
    ensures SumJittered(hp, r) <= SumJittered(hp, r')
  {
    if hp != [] {
      SumJitteredMono(hp[..|hp| - 1], r, r');
      TermMono(hp[|hp| - 1], r, r');
    }
  }

  lemma {:induction false} SumIsrMono(isr: seq<Isr>, r: U64, r': U64)
    requires IsrWords(isr) && r <= r'
    ensures SumIsr(isr, r) <= SumIsr(isr, r')
  {
    if isr != [] {
      var h := isr[|isr| - 1];
      SumIsrMono(isr[..|isr| - 1], r, r');
      CeilDivMono(r, r', h.period, h.period);
      MulMono(CeilDiv(r, h.period), CeilDiv(r', h.period), h.exec);
    }
  }

  /** The saturating recurrence is monotone, so iteration from below can only climb. */
  lemma StepMono(exec: U64, jitter: U64, blocking: U64, hp: seq<Hp>, isr: seq<Isr>, r: U64, r': U64)
    requires Words(hp) && IsrWords(isr) && r <= r'
    ensures Step(exec, jitter, blocking, hp, isr, r) <= Step(exec, jitter, blocking, hp, isr, r')
  {
    SumJitteredMono(hp, r, r');
    SumIsrMono(isr, r, r');
  }

  /** A busy window `x` that holds all the demand released in it. */
  function Settled(exec: U64, jitter: U64, blocking: U64, hp: seq<Hp>, isr: seq<Isr>): nat -> bool
    requires Words(hp) && IsrWords(isr)
  {
    (x: nat) => x <= MAX && Step(exec, jitter, blocking, hp, isr, x) <= x
  }

  /** The specification of the driver: scan for the least settled window up to the bound. */
  function LeastSettled(exec: U64, bound: U64, jitter: U64, blocking: U64, hp: seq<Hp>, isr: seq<Isr>)
    : RtaResult
    requires Words(hp) && IsrWords(isr)
  {
    match Least(Settled(exec, jitter, blocking, hp, isr), 0, bound)
    case Some(w) => Converged(w)
    case None => Diverged
  }

  /** The scan's answer is the least settled window, and there is none when it diverges. */
  lemma LeastSettledMeans(exec: U64, bound: U64, jitter: U64, blocking: U64, hp: seq<Hp>, isr: seq<Isr>)
    requires Words(hp) && IsrWords(isr)
    ensures var r := LeastSettled(exec, bound, jitter, blocking, hp, isr);
      && (r.Converged? ==> r.value <= bound && Step(exec, jitter, blocking, hp, isr, r.value) <= r.value)
      && forall x: U64 | x <= bound && (r.Converged? ==> x < r.value) ::
           x < Step(exec, jitter, blocking, hp, isr, x)
  {
    var settled := Settled(exec, jitter, blocking, hp, isr);
    var r := LeastSettled(exec, bound, jitter, blocking, hp, isr);
    assert r == match Least(settled, 0, bound) case Some(w) => Converged(w) case None => Diverged;
    forall x: U64 | x <= bound && (r.Converged? ==> x < r.value)
      ensures x < Step(exec, jitter, blocking, hp, isr, x)
    {
      assert !settled(x);
    }
  }

  // ---- Interrupts are tasks of the highest priority without jitter ----

  function AsThreads(isr: seq<Isr>): (hp: seq<Hp>)
    ensures |hp| == |isr| && forall j | 0 <= j < |isr| :: hp[j] == Hp(isr[j].period, isr[j].exec, 0)
    ensures IsrWords(isr) ==> Words(hp)
  {
    seq(|isr|, j requires 0 <= j < |isr| => Hp(isr[j].period, isr[j].exec, 0))
  }

  lemma {:induction false} InterruptsAreThreads(isr: seq<Isr>, r: U64)
    requires IsrWords(isr)
    ensures SumIsr(isr, r) == SumJittered(AsThreads(isr), r)
  {
    if isr != [] {
      var n := |isr| - 1;
      InterruptsAreThreads(isr[..n], r);
      assert AsThreads(isr)[..n] == AsThreads(isr[..n]);
    }
  }

  lemma WordsAppend(a: seq<Hp>, b: seq<Hp>)
    requires Words(a) && Words(b)
    ensures Words(a + b)
  {
  }

  lemma SumLast(hp: seq<Hp>, h: Hp, r: U64)
    requires Words(hp + [h]) && Words(hp)
    ensures SumJittered(hp + [h], r) == SumJittered(hp, r) + InterferenceJittered((hp + [h])[|hp|], r)
  {
    assert (hp + [h])[..|hp|] == hp;
  }

  lemma {:induction false} SumAppend(a: seq<Hp>, b: seq<Hp>, r: U64)
    requires Words(a) && Words(b) && Words(a + b)
    ensures SumJittered(a + b, r) == SumJittered(a, r) + SumJittered(b, r)
  {
    if b == [] {
      assert a + b == a;
    } else {
      var n := |b| - 1;
      WordsAppend(a, b[..n]);
      SumAppend(a, b[..n], r);
      assert a + b == (a + b[..n]) + [b[n]];
      SumLast(a + b[..n], b[n], r);
    }
  }

  /**
   The driver climbs from `exec + jitter + blocking` and stops at the first fixed point or as
   soon as it passes the bound. It returns what the scan returns: the bound on iterations
   (one more than `deadline`) is never what stops it.
   */
  method ComputeResponseTimeJitteredBlocking(
      exec: U64, deadline: U64, jitter: U64, blocking: U64, hp: seq<Hp>, isr: seq<Isr>)
    returns (result: RtaResult)
    requires Words(hp) && IsrWords(isr)
    ensures result == LeastSettled(exec, deadline, jitter, blocking, hp, isr)
    ensures result.Converged? ==> Step(exec, jitter, blocking, hp, isr, result.value) == result.value
  {
    var settled := Settled(exec, jitter, blocking, hp, isr);
    var r := SatAdd(SatAdd(exec, jitter), blocking);
    result := Diverged;
    if deadline < r {
      return;
    }
    for k := 0 to deadline + 1
      invariant k <= r <= deadline
      invariant r <= Step(exec, jitter, blocking, hp, isr, r)
      invariant forall x | 0 <= x < r :: !settled(x)
    {
      var next := RtaStepJitteredBlocking(exec, jitter, blocking, hp, isr, r);
      if next == r {
        LeastIs(settled, 0, deadline, r);
        return Converged(r);
      }
      forall x | 0 <= x < next ensures !settled(x) {
        if r <= x { StepMono(exec, jitter, blocking, hp, isr, r, x); }
      }
      if deadline < next {
        return Diverged;
      }
      StepMono(exec, jitter, blocking, hp, isr, r, next);
      r := next;
    }
    assert false;
  }
}
