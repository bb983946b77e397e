/** The fixed-point DC blocker and the decimator, on the integers of their C types. */
module Dsp {
  import opened NonLinear

  newtype int16 = x: int | -0x8000 <= x < 0x8000
  newtype int32 = x: int | -0x8000_0000 <= x < 0x8000_0000

  // ---------------------------------------------------------------- the DC blocker

  datatype DcState = DcState(accum: int, prevIn: int, prevOut: int)

  const RESET := DcState(0, 0, 0)

  /** One sample, in unbounded integers. */
  function DcStep(s: DcState, x: int): DcState {
    var accum := s.accum - s.prevIn + 0x8000 * x - 164 * s.prevOut;
    DcState(accum, 0x8000 * x, accum / 0x8000)
  }

  function DcRun(xs: seq<int16>): DcState {
    if |xs| == 0 then RESET else DcStep(DcRun(xs[..|xs| - 1]), xs[|xs| - 1] as int)
  }

  /** What the filter carries from sample to sample apart from the last input. */
  function Carry(s: DcState): int {
    s.accum - s.prevIn
  }

  predicate CarryFits(b: int) {
    -0x4000_0000 <= b < 0x4000_0000 + 0x8000
  }

  predicate DcInv(s: DcState) {
    && CarryFits(Carry(s)) && -0x4000_0000 <= s.prevIn <= 0x4000_0000 - 0x8000 && s.prevIn % 0x8000 == 0
    && s.prevOut == s.accum / 0x8000
  }

  /** The next carry in terms of the carry's quotient and remainder and the last input. */
  lemma NextCarry(s: DcState, x: int)
    requires DcInv(s)
    ensures var b, i := Carry(s), s.prevIn / 0x8000;
            && s.prevOut == b / 0x8000 + i && -0x8000 <= i < 0x8000
            && Carry(DcStep(s, x)) == b - 164 * s.prevOut
            && Carry(DcStep(s, x)) == 32604 * (b / 0x8000) + b % 0x8000 - 164 * i
  {
  }

  /** The carry stays within bounds that leave exactly room for one more input in 32 bits. */
  lemma DcStepKeepsInv(s: DcState, x: int16)
    requires DcInv(s)
    ensures DcInv(DcStep(s, x as int))
    ensures -0x8000_0000 <= Carry(s) + 0x8000 * x as int < 0x8000_0000
    ensures -0x8000_0000 <= DcStep(s, x as int).accum < 0x8000_0000
    ensures -0x1_0000 <= s.prevOut < 0x1_0000
  {
    NextCarry(s, x as int);
  }

  lemma {:induction false} DcRunKeepsInv(xs: seq<int16>)
    ensures DcInv(DcRun(xs))
  {
    if |xs| > 0 {
      DcRunKeepsInv(xs[..|xs| - 1]);
      DcStepKeepsInv(DcRun(xs[..|xs| - 1]), xs[|xs| - 1]);
    }
  }

  /** The sum of prevOut after each sample. */
  function OutputSum(xs: seq<int16>): int {
    if |xs| == 0 then 0 else OutputSum(xs[..|xs| - 1]) + DcRun(xs).prevOut
  }

  lemma {:induction false} CarryIsOutputSum(xs: seq<int16>)
    ensures Carry(DcRun(xs)) - 164 * DcRun(xs).prevOut == -164 * OutputSum(xs)
  {
    hide DcStep, Carry, DcInv;
    RestIsEmpty();
    if |xs| > 0 {
      var before := xs[..|xs| - 1];
      CarryIsOutputSum(before);
      CarryStep(DcRun(before), xs[|xs| - 1] as int);
    }
  }

  lemma RestIsEmpty()
    ensures Carry(RESET) == 0
  {
  }

  lemma CarryStep(s: DcState, x: int)
    ensures Carry(DcStep(s, x)) == Carry(s) - 164 * s.prevOut
  {
  }

  /** However long the run, the values of prevOut add up to a bounded sum. */
  lemma PrevOutsAddUpToLittle(xs: seq<int16>)
    ensures -0x4000_0000 <= 164 * OutputSum(xs) + 0x8000 && 164 * OutputSum(xs) <= 0x4000_0000
  {
    CarryIsOutputSum(xs);
    DcRunKeepsInv(xs);
    NextCarry(DcRun(xs), 0);
    DcStepKeepsInv(DcRun(xs), 0);
  }

  /** In closed form: the filter takes from each sample 164 / 2^15 of the sum of its outputs so far, and rounds down. */
  lemma PrevOutInClosedForm(xs: seq<int16>, x: int16)
    ensures DcRun(xs + [x]).prevOut == (0x8000 * x as int - 164 * OutputSum(xs)) / 0x8000
  {
    hide DcRun, DcStep, Carry, OutputSum;
    CarryIsOutputSum(xs);
    RunOfMore(xs, x);
    StepFloor(DcRun(xs), x as int);
  }

  lemma RunOfMore(xs: seq<int16>, x: int16)
    ensures DcRun(xs + [x]) == DcStep(DcRun(xs), x as int)
  {
    hide DcStep;
    assert (xs + [x])[..|xs|] == xs;
  }

  lemma StepFloor(s: DcState, x: int)
    ensures DcStep(s, x).prevOut == (0x8000 * x + (Carry(s) - 164 * s.prevOut)) / 0x8000
  {
  }

  // The returned sample is prevOut cut to 16 bits, which prevOut can exceed.

  function Cut16(v: int): (r: int16)
    ensures r as int == v <==> -0x8000 <= v < 0x8000
    ensures (v - r as int) % 0x1_0000 == 0
  {
    ((v + 0x8000) % 0x1_0000 - 0x8000) as int16
  }

  /** A sample is returned uncut exactly if the next carry and the sample together stay below half the 32-bit range. */
  lemma SampleIsExactIf(s: DcState, x: int16)
    requires DcInv(s)
    ensures var v := DcStep(s, x as int).prevOut;
            Cut16(v) as int == v <==> -0x4000_0000 <= Carry(s) - 164 * s.prevOut + 0x8000 * x as int < 0x4000_0000
  {
  }

  predicate Within(xs: seq<int16>, amplitude: nat) {
    forall i | 0 <= i < |xs| :: xs[i] as int <= amplitude && -(xs[i] as int) <= amplitude
  }

  /** The last sample of a run is returned uncut. */
  predicate LastIsExact(xs: seq<int16>) {
    Cut16(DcRun(xs).prevOut) as int == DcRun(xs).prevOut
  }

  /** The bounds that inputs of a smaller amplitude keep. */
  predicate StateWithin(s: DcState, amplitude: nat) {
    && -0x8000 * amplitude <= Carry(s) < 0x8000 * (amplitude + 1)
    && -0x8000 * amplitude <= s.prevIn <= 0x8000 * amplitude
    && -2 * amplitude <= s.prevOut <= 2 * amplitude
  }

  lemma StepWithin(s: DcState, x: int, amplitude: nat)
    requires DcInv(s) && StateWithin(s, amplitude) && x <= amplitude && -x <= amplitude
    ensures StateWithin(DcStep(s, x), amplitude)
  {
    NextCarry(s, x);
    var q, i := Carry(s) / 0x8000, s.prevIn / 0x8000;
    var b := 32604 * q + Carry(s) % 0x8000 - 164 * i;
    assert q <= amplitude && -q <= amplitude && i <= amplitude && -i <= amplitude;
    assert Carry(DcStep(s, x)) == b;
    assert DcStep(s, x).prevOut == b / 0x8000 + x by {
      assert DcStep(s, x).accum == b + 0x8000 * x;
    }
  }

  lemma {:induction false} CarryWithin(xs: seq<int16>, amplitude: nat)
    requires Within(xs, amplitude)
    ensures DcInv(DcRun(xs)) && StateWithin(DcRun(xs), amplitude)
  {
    hide DcInv, StateWithin, DcStep;
    DcRunKeepsInv(xs);
    if |xs| > 0 {
      CarryWithin(xs[..|xs| - 1], amplitude);
      StepWithin(DcRun(xs[..|xs| - 1]), xs[|xs| - 1] as int, amplitude);
    } else {
      ResetWithin(amplitude);
    }
  }

  lemma ResetWithin(amplitude: nat)
    ensures StateWithin(RESET, amplitude)
  {
  }

  function Repeated(x: int16, n: nat): (r: seq<int16>)
    ensures |r| == n
  {
    seq(n, _ => x)
  }

  /** Under constant negative input the carry climbs until it balances the input. */
  lemma {:induction false} CarryClimbs(a: int16, n: nat)
    requires n > 0 && -0x8000 <= a < 0
    ensures var s := DcRun(Repeated(a, n));
            s.prevIn == 0x8000 * a as int && (Carry(s) >= -0x8000 * a as int || Carry(s) >= 164 * (n - 1))
  {
    var xs := Repeated(a, n);
    assert xs[..n - 1] == Repeated(a, n - 1);
    DcRunKeepsInv(xs);
    CarryWithin(xs, -(a as int));
    if n == 1 {
      assert DcRun(xs[..0]) == RESET;
    } else {
      CarryClimbs(a, n - 1);
      DcRunKeepsInv(xs[..n - 1]);
      CarryWithin(xs[..n - 1], -(a as int));
      NextCarry(DcRun(xs[..n - 1]), a as int);
    }
  }

  const CLIMB: nat := 0x4000_0000 / 164 + 2

  /** After a long input of -0x4000 a single sample of 0x4000 comes out as -0x8000 instead of 0x8000. */
  lemma HalfSwingWraps()
    ensures var xs := Repeated(-0x4000, CLIMB) + [0x4000];
            Within(xs, 0x4000) && DcRun(xs).prevOut == 0x8000 && Cut16(DcRun(xs).prevOut) == -0x8000
  {
    Balanced(-0x4000, 0x4000);
  }

  /** After a long full-scale negative input one full-scale positive sample comes out as -1 instead of 65535. */
  lemma FullSwingWraps()
    ensures var xs := Repeated(-0x8000, CLIMB) + [0x7FFF];
            DcRun(xs).prevOut == 0xFFFF && Cut16(DcRun(xs).prevOut) == -1
  {
    Balanced(-0x8000, 0x7FFF);
  }

  /** A sample after a constant input that the carry has had time to balance. */
  lemma Balanced(a: int16, x: int16)
    requires -0x8000 <= a < 0
    ensures DcRun(Repeated(a, CLIMB) + [x]).prevOut == x as int - a as int
  {
    var before := Repeated(a, CLIMB);
    assert (before + [x])[..CLIMB] == before;
    CarryClimbs(a, CLIMB);
    CarryWithin(before, -(a as int));
    NextCarry(DcRun(before), x as int);
  }

  /** All runs of inputs up to an amplitude return their samples uncut exactly if it is at most 0x3FFF. */
  lemma ExactUpToQuarterScale(amplitude: nat)
    ensures (forall xs | Within(xs, amplitude) :: LastIsExact(xs)) <==> amplitude <= 0x3FFF
  {
    if amplitude <= 0x3FFF {
      forall xs | Within(xs, amplitude)
        ensures LastIsExact(xs)
      {
        CarryWithin(xs, amplitude);
      }
    } else {
      var xs := Repeated(-0x4000, CLIMB) + [0x4000];
      HalfSwingWraps();
      assert Within(xs, amplitude) && !LastIsExact(xs);
    }
  }

  /** The sum of the samples returned. */
  function ReturnedSum(xs: seq<int16>): int {
    if |xs| == 0 then 0 else ReturnedSum(xs[..|xs| - 1]) + Cut16(DcRun(xs).prevOut) as int
  }

  /** No DC at the output: up to that amplitude the returned samples add up to little, however long the run. */
  lemma {:induction false} ReturnedAddUpToLittle(xs: seq<int16>, amplitude: nat)
    requires Within(xs, amplitude) && amplitude <= 0x3FFF
    ensures ReturnedSum(xs) == OutputSum(xs)
    ensures -0x8000 * (amplitude + 1) < 164 * ReturnedSum(xs) <= 0x8000 * amplitude
  {
    if |xs| > 0 {
      ReturnedAddUpToLittle(xs[..|xs| - 1], amplitude);
      CarryWithin(xs, amplitude);
    }
    SumIsNextCarry(xs, amplitude);
  }

  lemma SumIsNextCarry(xs: seq<int16>, amplitude: nat)
    requires Within(xs, amplitude)
    ensures -0x8000 * (amplitude + 1) < 164 * OutputSum(xs) <= 0x8000 * amplitude
  {
    CarryIsOutputSum(xs);
    CarryWithin(xs, amplitude);
    NextCarry(DcRun(xs), 0);
  }

  class DcBlock {
    var accum: int32
    var prevIn: int32
    var prevOut: int32

    function State(): DcState
      reads this
    {
      DcState(accum as int, prevIn as int, prevOut as int)
    }

    constructor ()
      ensures State() == RESET
    {
      accum, prevIn, prevOut := 0, 0, 0;
    }

    /** One sample; no intermediate result leaves 32 bits. */
    method Filter(sample: int16) returns (r: int16)
      requires DcInv(State())
      modifies this
      ensures DcInv(State()) && State() == DcStep(old(State()), sample as int)
      ensures r == Cut16(State().prevOut)
    {
      DcStepKeepsInv(State(), sample);
      accum := accum - prevIn;
      prevIn := sample as int32 * 0x8000;
      accum := accum + prevIn;
      accum := accum - 164 * prevOut;
      prevOut := accum / 0x8000;
      r := Cut16(prevOut as int);
    }

    /** A whole buffer in place. */
    method RemoveOffset(buffer: array<int16>, ghost past: seq<int16>)
      requires State() == DcRun(past)
      modifies this, buffer
      ensures State() == DcRun(past + old(buffer[..]))
      ensures buffer[..] == Outputs(past, old(buffer[..]), buffer.Length)
    {
      hide DcRun, DcInv, DcStep, Outputs, Cut16;
      ghost var was := buffer[..];
      NoOutputs(past, was);
      for i := 0 to buffer.Length
        invariant State() == DcRun(past + was[..i])
        invariant buffer[i..] == was[i..]
        invariant buffer[..i] == Outputs(past, was, i)
      {
        DcRunKeepsInv(past + was[..i]);
        OneMoreOutput(past, was, i);
        assert buffer[i] == buffer[i..][0] == was[i];
        ghost var before := buffer[..i];
        buffer[i] := Filter(buffer[i]);
        assert buffer[..i + 1] == before + [buffer[i]];
      }
      assert was[..buffer.Length] == was && buffer[..buffer.Length] == buffer[..];
    }
  }

  /** The first n samples returned for xs after the samples of past. */
  function Outputs(past: seq<int16>, xs: seq<int16>, n: nat): (r: seq<int16>)
    requires n <= |xs|
    ensures |r| == n
  {
    seq(n, k requires 0 <= k < n => Cut16(DcRun(past + xs[..k + 1]).prevOut))
  }

  lemma NoOutputs(past: seq<int16>, xs: seq<int16>)
    ensures past + xs[..0] == past && Outputs(past, xs, 0) == []
  {
  }

  lemma OneMoreOutput(past: seq<int16>, xs: seq<int16>, i: nat)
    requires i < |xs|
    ensures DcRun(past + xs[..i + 1]) == DcStep(DcRun(past + xs[..i]), xs[i] as int)
    ensures Outputs(past, xs, i + 1) == Outputs(past, xs, i) + [Cut16(DcRun(past + xs[..i + 1]).prevOut)]
  {
    hide Cut16, DcStep;
    assert (past + xs[..i + 1])[..|past| + i] == past + xs[..i];
  }

  // ---------------------------------------------------------------- the decimator

  function Sum(xs: seq<int16>): int {
    if |xs| == 0 then 0 else Sum(xs[..|xs| - 1]) + xs[|xs| - 1] as int
  }

  /** C division, which truncates toward zero. */
  function Truncated(a: int, b: int): int
    requires b > 0
  {
    if a >= 0 then a / b else -(-a / b)
  }

  /** It is the quotient towards zero: what is left has the sign of the dividend and is smaller than the divisor. */
  lemma TruncatedExactlyIf(a: int, b: int, q: int)
    requires b > 0
    ensures q == Truncated(a, b) <==> if a >= 0 then 0 <= a - b * q < b else 0 <= b * q - a < b
  {
    if a >= 0 {
      QuotientExactlyIf(a, b, q);
    } else {
      QuotientExactlyIf(-a, b, -q);
      assert b * -q == -(b * q);
    }
  }

  lemma QuotientExactlyIf(a: nat, b: int, q: int)
    requires b > 0
    ensures q == a / b <==> 0 <= a - b * q < b
  {
    assert a == b * (a / b) + a % b;
    if 0 <= a - b * q < b {
      DivisionIsUnique(b, q, a - b * q, a / b, a % b);
    }
  }

  lemma {:induction false} SumFits(xs: seq<int16>)
    ensures -0x8000 * |xs| <= Sum(xs) <= 0x7FFF * |xs|
  {
    if |xs| > 0 {
      SumFits(xs[..|xs| - 1]);
    }
  }

  lemma AverageFits(a: int, n: int)
    requires n > 0 && -0x8000 * n <= a <= 0x7FFF * n
    ensures -0x8000 <= Truncated(a, n) <= 0x7FFF
  {
    if a < 0 {
      assert -a / n <= 0x8000 by { QuotientBound(-a, n, 0x8000); }
    } else {
      QuotientBound(a, n, 0x7FFF);
    }
  }

  lemma QuotientBound(a: nat, n: nat, q: nat)
    requires n > 0 && a <= q * n
    ensures a / n <= q
  {
    ProductGrows(n, q + 1, a / n);
    assert a == n * (a / n) + a % n;
  }

  lemma ProductGrows(n: nat, x: nat, y: nat)
    ensures x <= y ==> n * x <= n * y
  {
  }

  class Decimator {
    var accumulator: int32
    var count: nat
    /** The samples that have been added up since the last output. */
    ghost var pending: seq<int16>

    ghost predicate Valid()
      reads this
    {
      accumulator as int == Sum(pending) && count == |pending| < 0x1_0000
    }

    constructor ()
      ensures Valid() && pending == []
    {
      accumulator, count, pending := 0, 0, [];
    }

    /**
     The call that makes the pending samples as many as the ratio says yields their truncated
     average; if the ratio has become smaller than their number, their sum over the ratio, cut to 16 bits.
     */
    method Decimate(sample: int16, ratio: nat) returns (ready: bool, r: int16)
      requires Valid() && 0 < ratio < 0x1_0000
      modifies this
      ensures Valid() && |pending| < ratio && ready == (|old(pending)| + 1 >= ratio)
      ensures ready ==> pending == [] && r == Cut16(Truncated(Sum(old(pending) + [sample]), ratio))
      ensures |old(pending)| + 1 == ratio ==> r as int == Truncated(Sum(old(pending) + [sample]), ratio)
      ensures !ready ==> pending == old(pending) + [sample] && r == sample
    {
      ghost var all := pending + [sample];
      assert all[..|pending|] == pending;
      SumFits(all);
      accumulator := accumulator + sample as int32;
      count := count + 1;
      r := sample;
      if count >= ratio {
        if count == ratio {
          AverageFits(Sum(all), ratio);
        }
        r := Cut16(Truncated(accumulator as int, ratio));
        accumulator, count, pending := 0, 0, [];
        return true, r;
      }
      pending := all;
      ready := false;
    }
  }
}
