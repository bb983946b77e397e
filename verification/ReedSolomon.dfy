/**
 The Reed-Solomon code of a QR symbol: the generator polynomial, the remainder of a data block
 by it, and that a data block followed by its remainder vanishes at every root of the generator.
 RsDistance says what that is worth.
 */
module ReedSolomon {
  import opened Gf256

  /** A polynomial over the field, its coefficients in order of descending powers. */
  type Poly = seq<bv8>

  function Eval(p: Poly, x: bv8): bv8 {
    if |p| == 0 then 0 else Add(Mul(Eval(p[..|p| - 1], x), x), p[|p| - 1])
  }

  function AddPoly(p: Poly, q: Poly): (s: Poly)
    requires |p| == |q|
  {
    seq(|p|, i requires 0 <= i < |p| => Add(p[i], q[i]))
  }

  function Scale(c: bv8, p: Poly): Poly {
    seq(|p|, i requires 0 <= i < |p| => Mul(c, p[i]))
  }

  function Zeros(n: nat): Poly {
    seq(n, _ => 0)
  }

  /** p * (x - r). */
  function TimesLinear(p: Poly, r: bv8): Poly {
    AddPoly(p + [0], [0] + Scale(r, p))
  }

  /** The i-th power of the generator element 0x02. */
  function Alpha(i: nat): bv8 {
    XPow(1, i)
  }

  /** (x - Alpha(0)) * (x - Alpha(1)) * ... * (x - Alpha(d - 1)). */
  function Generator(d: nat): (g: Poly)
    ensures |g| == d + 1
  {
    if d == 0 then [1] else TimesLinear(Generator(d - 1), Alpha(d - 1))
  }

  // ---------------------------------------------------------------- evaluation

  lemma {:induction false} EvalAdds(p: Poly, q: Poly, x: bv8)
    requires |p| == |q|
    ensures Eval(AddPoly(p, q), x) == Add(Eval(p, x), Eval(q, x))
  {
    hide Add, Mul;
    if |p| == 0 {
      AddInverse(0);
    } else {
      var n := |p| - 1;
      assert AddPoly(p, q)[..n] == AddPoly(p[..n], q[..n]);
      EvalAdds(p[..n], q[..n], x);
      var a, b := Eval(p[..n], x), Eval(q[..n], x);
      MulAddsLeft(a, b, x);
      AddSwap(Mul(a, x), Mul(b, x), p[n], q[n]);
    }
  }

  lemma {:induction false} EvalScales(c: bv8, p: Poly, x: bv8)
    ensures Eval(Scale(c, p), x) == Mul(c, Eval(p, x))
  {
    hide Add, Mul;
    if |p| == 0 {
      MulZero(c);
    } else {
      var n := |p| - 1;
      assert Scale(c, p)[..n] == Scale(c, p[..n]);
      EvalScales(c, p[..n], x);
      var a := Eval(p[..n], x);
      MulAssociates(c, a, x);
      MulAddsRight(c, Mul(a, x), p[n]);
    }
  }

  lemma {:induction false} EvalLeadingZeros(n: nat, p: Poly, x: bv8)
    ensures Eval(Zeros(n) + p, x) == Eval(p, x)
  {
    hide Add, Mul;
    if |p| == 0 {
      if n == 0 {
        assert Zeros(0) + p == p;
      } else {
        EvalLeadingZeros(n - 1, [], x);
        assert (Zeros(n) + p)[..n - 1] == Zeros(n - 1) + [];
        MulZero(x);
        AddInverse(0);
      }
    } else {
      var m := |p| - 1;
      assert (Zeros(n) + p)[..n + m] == Zeros(n) + p[..m];
      EvalLeadingZeros(n, p[..m], x);
    }
  }

  lemma EvalTimesLinear(p: Poly, r: bv8, x: bv8)
    ensures Eval(TimesLinear(p, r), x) == Mul(Eval(p, x), Add(x, r))
  {
    hide Add, Mul;
    var e := Eval(p, x);
    EvalAdds(p + [0], [0] + Scale(r, p), x);
    assert (p + [0])[..|p|] == p;
    AddInverse(Mul(e, x));
    assert [0] + Scale(r, p) == Zeros(1) + Scale(r, p);
    EvalLeadingZeros(1, Scale(r, p), x);
    EvalScales(r, p, x);
    MulCommutes(r, e);
    MulAddsRight(e, x, r);
  }

  /** The product of the values (x - Alpha(i)), the generator polynomial as a function. */
  function RootProduct(d: nat, x: bv8): bv8 {
    if d == 0 then 1 else Mul(RootProduct(d - 1, x), Add(x, Alpha(d - 1)))
  }

  lemma {:induction false} GeneratorIsRootProduct(d: nat, x: bv8)
    ensures Eval(Generator(d), x) == RootProduct(d, x)
  {
    hide Add, Mul, Alpha;
    if d == 0 {
      assert Generator(0)[..0] == [];
      MulZero(x);
      AddInverse(1);
    } else {
      GeneratorIsRootProduct(d - 1, x);
      EvalTimesLinear(Generator(d - 1), Alpha(d - 1), x);
    }
  }

  lemma {:induction false} GeneratorVanishes(d: nat, k: nat)
    requires k < d
    ensures Eval(Generator(d), Alpha(k)) == 0
  {
    hide Add, Mul, Alpha;
    GeneratorIsRootProduct(d, Alpha(k));
    RootProductVanishes(d, k);
  }

  lemma {:induction false} RootProductVanishes(d: nat, k: nat)
    requires k < d
    ensures RootProduct(d, Alpha(k)) == 0
  {
    hide Add, Mul, Alpha;
    if k == d - 1 {
      AddInverse(Alpha(k));
      MulZero(RootProduct(d - 1, Alpha(k)));
    } else {
      RootProductVanishes(d - 1, k);
      MulZero(Add(Alpha(k), Alpha(d - 1)));
    }
  }

  lemma {:induction false} GeneratorIsMonic(d: nat)
    ensures Generator(d)[0] == 1
  {
    hide Add, Mul, Alpha;
    if d > 0 {
      GeneratorIsMonic(d - 1);
      AddInverse(1);
    }
  }

  // ---------------------------------------------------------------- the division

  /** One round of the division: shift in a data byte, subtract the generator times the quotient digit. */
  function Divide(g: Poly, rem: Poly, byte: bv8): (r: Poly)
    requires |g| == |rem| > 0
    ensures |r| == |g|
  {
    var factor := Add(byte, rem[0]);
    AddPoly(rem[1..] + [0], Scale(factor, g))
  }

  /** The remainder register after dividing the data, started at rem. */
  function Remainder(g: Poly, rem: Poly, data: seq<bv8>): (r: Poly)
    requires |g| == |rem| > 0
    ensures |r| == |g|
  {
    if |data| == 0 then rem
    else Divide(g, Remainder(g, rem, data[..|data| - 1]), data[|data| - 1])
  }

  /** The check bytes of a data block for the code with d of them. */
  function CheckBytes(d: nat, data: seq<bv8>): (r: Poly)
    requires d > 0
    ensures |r| == d
  {
    Remainder(Generator(d)[1..], Zeros(d), data)
  }

  ghost predicate IsCodeword(d: nat, w: Poly) {
    forall k | 0 <= k < d :: Eval(w, Alpha(k)) == 0
  }

  /** (byte - rem[0]) + rem[0] gives the data byte back as the leading coefficient. */
  lemma QuotientDigit(byte: bv8, lead: bv8)
    ensures Add(lead, Mul(Add(byte, lead), 1)) == byte
  {
    hide Add, Mul;
    var factor := Add(byte, lead);
    MulCommutes(factor, 1);
    MulOne(factor);
    AddCommutes(lead, factor);
    AddAssociates(byte, lead, lead);
    AddInverse(lead);
    AddInverse(byte);
  }

  /** A round of the division adds a multiple of the generator to the shifted dividend. */
  lemma DivideIsCombination(g: Poly, pre: Poly, rem: Poly, byte: bv8)
    requires |g| == |rem| > 0
    ensures AddPoly(pre + rem + [0], Zeros(|pre|) + Scale(Add(byte, rem[0]), [1] + g))
            == pre + [byte] + Divide(g, rem, byte)
  {
    hide Add, Mul;
    var factor := Add(byte, rem[0]);
    var shifted, multiple := pre + rem + [0], Zeros(|pre|) + Scale(factor, [1] + g);
    var next := pre + [byte] + Divide(g, rem, byte);
    forall i | 0 <= i < |next|
      ensures Add(shifted[i], multiple[i]) == next[i]
    {
      if i < |pre| {
        AddInverse(pre[i]);
      } else if i == |pre| {
        QuotientDigit(byte, rem[0]);
      } else {
        var j := i - |pre| - 1;
        assert next[i] == Divide(g, rem, byte)[j];
        assert multiple[i] == Scale(factor, g)[j];
        assert shifted[i] == (rem[1..] + [0])[j];
      }
    }
  }

  lemma DivideVanishes(g: Poly, pre: Poly, rem: Poly, byte: bv8, x: bv8)
    requires |g| == |rem| > 0
    requires Eval([1] + g, x) == 0
    requires Eval(pre + rem, x) == 0
    ensures Eval(pre + [byte] + Divide(g, rem, byte), x) == 0
  {
    hide Add, Mul, Divide, AddPoly, Scale;
    var factor := Add(byte, rem[0]);
    var shifted := pre + rem + [0];
    assert Eval(shifted, x) == 0 by {
      assert shifted[..|shifted| - 1] == pre + rem;
      MulZero(x);
      AddInverse(0);
    }
    var multiple := Scale(factor, [1] + g);
    assert Eval(multiple, x) == 0 by {
      EvalScales(factor, [1] + g, x);
      MulZero(factor);
    }
    ScaleLength(factor, [1] + g);
    EvalLeadingZeros(|pre|, multiple, x);
    EvalAdds(shifted, Zeros(|pre|) + multiple, x);
    DivideIsCombination(g, pre, rem, byte);
    AddInverse(0);
  }

  lemma ScaleLength(c: bv8, p: Poly)
    ensures |Scale(c, p)| == |p|
  {
  }

  lemma {:induction false} RemainderVanishes(g: Poly, data: seq<bv8>, x: bv8)
    requires |g| > 0
    requires Eval([1] + g, x) == 0
    ensures Eval(data + Remainder(g, Zeros(|g|), data), x) == 0
  {
    hide Add, Mul, Divide;
    var r := Remainder(g, Zeros(|g|), data);
    if |data| == 0 {
      EvalLeadingZeros(|g|, [], x);
      assert data + r == Zeros(|g|) + [];
    } else {
      var n := |data| - 1;
      RemainderVanishes(g, data[..n], x);
      DivideVanishes(g, data[..n], Remainder(g, Zeros(|g|), data[..n]), data[n], x);
      assert data[..n] + [data[n]] + r == data + r;
    }
  }

  /** Data followed by its check bytes is a code word: it vanishes at 2^0 .. 2^(d-1). */
  lemma EncodingIsCodeword(d: nat, data: seq<bv8>)
    requires d > 0
    ensures IsCodeword(d, data + CheckBytes(d, data))
  {
    hide Add, Mul, Alpha, Remainder;
    forall k | 0 <= k < d
      ensures Eval(data + CheckBytes(d, data), Alpha(k)) == 0
    {
      GeneratorVanishes(d, k);
      GeneratorIsMonic(d);
      assert Generator(d) == [1] + Generator(d)[1..];
      RemainderVanishes(Generator(d)[1..], data, Alpha(k));
    }
  }
}
