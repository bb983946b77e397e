/** The finite impulse response filter; real numbers stand for floats. */
module Fir {

  /** The i-th newest of the inputs; zero before the first. */
  function Past(inputs: seq<real>, i: nat): real {
    if i < |inputs| then inputs[|inputs| - 1 - i] else 0.0
  }

  function Product(a: real, b: real): real {
    a * b
  }

  /** The first n terms of the convolution of the taps with the inputs, at the newest input. */
  function Convolution(taps: seq<real>, inputs: seq<real>, n: nat): real
    requires n <= |taps|
  {
    if n == 0 then 0.0 else Convolution(taps, inputs, n - 1) + Product(Past(inputs, n - 1), taps[n - 1])
  }

  lemma PastOfMore(inputs: seq<real>, x: real, i: nat)
    ensures Past(inputs + [x], i) == if i == 0 then x else Past(inputs, i - 1)
  {
  }

  /** The filter is linear: a sum of inputs gives the sum of the outputs. */
  lemma {:induction false} ConvolutionAdds(taps: seq<real>, a: seq<real>, b: seq<real>, c: seq<real>, n: nat)
    requires n <= |taps| && |a| == |b| == |c| && forall i | 0 <= i < |a| :: c[i] == a[i] + b[i]
    ensures Convolution(taps, c, n) == Convolution(taps, a, n) + Convolution(taps, b, n)
  {
    if n > 0 {
      ConvolutionAdds(taps, a, b, c, n - 1);
      Distributes(Past(a, n - 1), Past(b, n - 1), taps[n - 1]);
      assert Past(c, n - 1) == Past(a, n - 1) + Past(b, n - 1);
    }
  }

  lemma Distributes(a: real, b: real, t: real)
    ensures Product(a + b, t) == Product(a, t) + Product(b, t)
  {
  }

  class Fir {
    const taps: seq<real>
    const hist: array<real>
    var pos: nat
    /** All inputs since the last reset. */
    ghost var inputs: seq<real>

    /** Both halves of the buffer hold the newest inputs, in a circle that begins at pos. */
    ghost predicate Valid()
      reads this, hist
    {
      var n := |taps|;
      && n > 0 && hist.Length == 2 * n && pos < n
      && (forall j | 0 <= j < n :: hist[j] == hist[j + n])
      && (forall i | 0 <= i < n :: hist[pos + i] == Past(inputs, i))
    }

    constructor (taps: seq<real>)
      requires |taps| > 0
      ensures Valid() && this.taps == taps && inputs == [] && fresh(hist)
    {
      this.taps := taps;
      hist := new real[2 * |taps|](_ => 0.0);
      pos := 0;
      inputs := [];
    }

    method Reset()
      requires Valid()
      modifies this, hist
      ensures Valid() && inputs == []
    {
      forall j | 0 <= j < hist.Length {
        hist[j] := 0.0;
      }
      pos := 0;
      inputs := [];
    }

    /** The output is the convolution of the taps with all inputs so far. */
    method Filter(input: real) returns (acc: real)
      requires Valid()
      modifies this, hist
      ensures Valid() && inputs == old(inputs) + [input]
      ensures acc == Convolution(taps, inputs, |taps|)
    {
      hide Product, Past;
      Push(input);
      var n := |taps|;
      acc := 0.0;
      var i := 0;
      while i < n - n % 4
        invariant 0 <= i <= n - n % 4 && i % 4 == 0
        invariant acc == Convolution(taps, inputs, i)
      {
        acc := acc + Product(hist[pos + i], taps[i]);
        acc := acc + Product(hist[pos + i + 1], taps[i + 1]);
        assert acc == Convolution(taps, inputs, i + 2);
        acc := acc + Product(hist[pos + i + 2], taps[i + 2]);
        assert acc == Convolution(taps, inputs, i + 3);
        acc := acc + Product(hist[pos + i + 3], taps[i + 3]);
        i := i + 4;
      }
      while i < n
        invariant 0 <= i <= n
        invariant acc == Convolution(taps, inputs, i)
      {
        acc := acc + Product(hist[pos + i], taps[i]);
        i := i + 1;
      }
    }

    /** The input takes the oldest one's place in both halves. */
    method Push(input: real)
      requires Valid()
      modifies this, hist
      ensures Valid() && inputs == old(inputs) + [input]
    {
      var n := |taps|;
      ghost var before, was := pos, inputs;
      pos := if pos == 0 then n - 1 else pos - 1;
      hist[pos] := input;
      hist[pos + n] := input;
      inputs := inputs + [input];
      forall i | 0 <= i < n
        ensures hist[pos + i] == Past(inputs, i)
      {
        PastOfMore(was, input, i);
        if i > 0 {
          if before == 0 {
            assert hist[pos + i] == old(hist[i - 1 + n]) == old(hist[before + (i - 1)]);
          } else {
            assert hist[pos + i] == old(hist[before + (i - 1)]);
          }
        }
      }
    }
  }

  /** An impulse followed by k zeros. */
  function Impulse(k: nat): (r: seq<real>)
    ensures |r| == k + 1
  {
    [1.0] + seq(k, _ => 0.0)
  }

  /** The answer to an impulse is the taps in their order, and then nothing. */
  lemma ImpulseGivesTaps(taps: seq<real>, k: nat)
    ensures Convolution(taps, Impulse(k), |taps|) == if k < |taps| then taps[k] else 0.0
  {
    ImpulseUpTo(taps, k, |taps|);
  }

  lemma {:induction false} ImpulseUpTo(taps: seq<real>, k: nat, n: nat)
    requires n <= |taps|
    ensures Convolution(taps, Impulse(k), n) == if k < n then taps[k] else 0.0
  {
    if n > 0 {
      ImpulseUpTo(taps, k, n - 1);
      assert Past(Impulse(k), n - 1) == if n - 1 == k then 1.0 else 0.0;
    }
  }

  /** A multiple of the input gives that multiple of the output. */
  lemma {:induction false} ConvolutionScales(taps: seq<real>, c: real, a: seq<real>, n: nat)
    requires n <= |taps|
    ensures Convolution(taps, seq(|a|, i requires 0 <= i < |a| => c * a[i]), n) == c * Convolution(taps, a, n)
  {
    if n > 0 {
      ConvolutionScales(taps, c, a, n - 1);
      assert Past(seq(|a|, i requires 0 <= i < |a| => c * a[i]), n - 1) == c * Past(a, n - 1);
    }
  }
}
