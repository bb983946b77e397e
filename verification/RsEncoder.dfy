/** The in-place Reed-Solomon routines of the QR encoder, proved against ReedSolomon. */
module RsEncoder {
  import opened NonLinear
  import opened Gf256
  import opened ReedSolomon

  // ---------------------------------------------------------------- generator coefficients

  /** The last d coefficients of p, padded with zeros on the left. */
  function Window(p: Poly, d: nat): (r: Poly)
    ensures |r| == d
  {
    seq(d, j requires 0 <= j < d => if j + |p| >= d then p[j + |p| - d] else 0)
  }

  /** One round of rs_init: multiply by (x - r) and drop what leaves the window. */
  function WindowStep(c: Poly, r: bv8): (s: Poly)
    ensures |s| == |c|
  {
    seq(|c|, j requires 0 <= j < |c| => WindowCell(c, r, j))
  }

  function WindowCell(c: Poly, r: bv8, j: nat): bv8
    requires j < |c|
  {
    if j + 1 < |c| then Add(Mul(c[j], r), c[j + 1]) else Mul(c[j], r)
  }

  lemma WindowStepMultiplies(p: Poly, d: nat, r: bv8)
    requires 0 < |p| <= d
    ensures WindowStep(Window(p, d), r) == Window(TimesLinear(p, r), d)
  {
    hide Add, Mul;
    var w, t := Window(p, d), TimesLinear(p, r);
    forall j | 0 <= j < d
      ensures WindowCell(w, r, j) == Window(t, d)[j]
    {
      MulZero(r);
      AddInverse(0);
      MulCommutes(w[j], r);
      AddInverse(Mul(w[j], r));
      if j + 1 < d {
        AddCommutes(Mul(w[j], r), w[j + 1]);
        AddInverse(w[j + 1]);
      }
    }
  }

  /** The inner loop of rs_init: every coefficient times the root, plus the next one. */
  method MultiplyByRoot(coeff: array<bv8>, root: bv8)
    modifies coeff
    ensures coeff[..] == WindowStep(old(coeff[..]), root)
  {
    hide Add, Mul;
    ghost var c := coeff[..];
    for j := 0 to coeff.Length
      invariant forall k | 0 <= k < j :: coeff[k] == WindowCell(c, root, k)
      invariant forall k | j <= k < coeff.Length :: coeff[k] == c[k]
    {
      coeff[j] := RsMultiply(coeff[j], root);
      if j + 1 < coeff.Length {
        coeff[j] := Add(coeff[j], coeff[j + 1]);
      }
    }
  }

  method RsInit(degree: nat, coeff: array<bv8>)
    requires 0 < degree < 256 && coeff.Length == degree
    modifies coeff
    ensures coeff[..] == Generator(degree)[1..]
  {
    hide Add, Mul, XTime, Alpha, DoubleReduced, Holds, Generator, WindowStep, Window, TimesLinear;
    for j := 0 to degree
      invariant forall k | 0 <= k < j :: coeff[k] == 0
    {
      coeff[j] := 0;
    }
    coeff[degree - 1] := 1;
    WindowBegins(degree, coeff[..]);

    var root: bv16 := 1;
    RootStarts();
    for i := 0 to degree
      invariant coeff[..] == Window(Generator(i), degree)
      invariant Holds(root, Alpha(i))
    {
      HoldsLow(root, Alpha(i));
      MultiplyByRoot(coeff, root as bv8);
      GeneratorSteps(i);
      WindowStepMultiplies(Generator(i), degree, Alpha(i));
      DoubleReducedIsXTime(root, Alpha(i));
      RootSteps(i);
      root := DoubleReduced(root);
    }
    WindowEnds(degree);
  }

  lemma WindowBegins(degree: nat, c: Poly)
    requires degree > 0 && |c| == degree && c[degree - 1] == 1 && forall k | 0 <= k < degree - 1 :: c[k] == 0
    ensures c == Window(Generator(0), degree)
  {
  }

  lemma GeneratorSteps(i: nat)
    ensures Generator(i + 1) == TimesLinear(Generator(i), Alpha(i)) && |Generator(i)| == i + 1
  {
  }

  lemma WindowEnds(degree: nat)
    requires degree > 0
    ensures |Generator(degree)| == degree + 1 && Window(Generator(degree), degree) == Generator(degree)[1..]
  {
  }

  lemma RootStarts()
    ensures Holds(1, Alpha(0))
  {
  }

  lemma RootSteps(i: nat)
    ensures XTime(Alpha(i)) == Alpha(i + 1)
  {
  }

  // ---------------------------------------------------------------- strided division

  /** The n cells of s that start at start and lie stride apart. */
  function Strided(s: seq<bv8>, start: nat, stride: nat, n: nat): (r: seq<bv8>)
    requires n > 0 ==> start + stride * (n - 1) < |s|
    ensures |r| == n
  {
    seq(n, j requires 0 <= j < n => StridedAt(s, start, stride, n, j))
  }

  function StridedAt(s: seq<bv8>, start: nat, stride: nat, n: nat, j: nat): bv8
    requires j < n && start + stride * (n - 1) < |s|
  {
    MulMonotone(stride, j, n - 1);
    s[start + stride * j]
  }

  /** k is one of those cells. */
  ghost predicate OnStride(k: nat, start: nat, stride: nat, n: nat) {
    exists j: nat | j < n :: k == start + stride * j
  }

  lemma StridedUpdate(s: seq<bv8>, start: nat, stride: nat, n: nat, j: nat, v: bv8)
    requires j < n && stride > 0 && start + stride * (n - 1) < |s|
    requires start + stride * j < |s|
    ensures Strided(s[start + stride * j := v], start, stride, n) == Strided(s, start, stride, n)[j := v]
  {
    var t := s[start + stride * j := v];
    forall i | 0 <= i < n
      ensures StridedAt(t, start, stride, n, i) == Strided(s, start, stride, n)[j := v][i]
    {
      MulMonotone(stride, i, n - 1);
      if i != j {
        DivMod(stride, i, 0);
        DivMod(stride, j, 0);
      }
    }
  }

  /** Two states of the result buffer agree off the stride. */
  ghost predicate AgreeOffStride(before: seq<bv8>, after: seq<bv8>, start: nat, stride: nat, n: nat) {
    |before| == |after| &&
    forall k: nat | k < |before| && !OnStride(k, start, stride, n) :: after[k] == before[k]
  }

  /** Write cell j of the strided view of result. */
  method SetStrided(result: array<bv8>, start: nat, stride: nat, ghost n: nat, j: nat, v: bv8)
    requires j < n && stride > 0 && start + stride * (n - 1) < result.Length
    modifies result
    ensures Strided(result[..], start, stride, n) == old(Strided(result[..], start, stride, n))[j := v]
    ensures AgreeOffStride(old(result[..]), result[..], start, stride, n)
  {
    MulMonotone(stride, j, n - 1);
    StridedUpdate(result[..], start, stride, n, j, v);
    ghost var s := result[..];
    result[start + stride * j] := v;
    assert result[..] == s[start + stride * j := v];
    assert OnStride(start + stride * j, start, stride, n);
  }

  /** Shift the register one cell down and clear its last cell. */
  method ShiftStrided(result: array<bv8>, start: nat, stride: nat, n: nat)
    requires n > 0 && stride > 0 && start + stride * (n - 1) < result.Length
    modifies result
    ensures Strided(result[..], start, stride, n) == old(Strided(result[..], start, stride, n))[1..] + [0]
    ensures AgreeOffStride(old(result[..]), result[..], start, stride, n)
  {
    hide Strided, OnStride;
    ghost var rem := Strided(result[..], start, stride, n);
    for j := 1 to n
      invariant forall m | 0 <= m < j - 1 :: Strided(result[..], start, stride, n)[m] == rem[m + 1]
      invariant forall m | j - 1 <= m < n :: Strided(result[..], start, stride, n)[m] == rem[m]
      invariant AgreeOffStride(old(result[..]), result[..], start, stride, n)
    {
      StridedCells(result[..], start, stride, n);
      MulMonotone(stride, j, n - 1);
      SetStrided(result, start, stride, n, j - 1, result[start + stride * j]);
    }
    SetStrided(result, start, stride, n, n - 1, 0);
  }

  /** Subtract the generator times the quotient digit from the register. */
  method SubtractMultiple(coeff: array<bv8>, factor: bv8, result: array<bv8>, start: nat, stride: nat)
    requires coeff.Length > 0 && stride > 0 && start + stride * (coeff.Length - 1) < result.Length
    requires result != coeff
    modifies result
    ensures var was, now := old(Strided(result[..], start, stride, coeff.Length)),
                            Strided(result[..], start, stride, coeff.Length);
            forall j | 0 <= j < coeff.Length :: now[j] == Add(was[j], Mul(coeff[j], factor))
    ensures AgreeOffStride(old(result[..]), result[..], start, stride, coeff.Length)
  {
    hide Add, Mul, Strided, OnStride;
    var n := coeff.Length;
    ghost var was := Strided(result[..], start, stride, n);
    for j := 0 to n
      invariant forall m | 0 <= m < j :: Strided(result[..], start, stride, n)[m] == Add(was[m], Mul(coeff[m], factor))
      invariant forall m | j <= m < n :: Strided(result[..], start, stride, n)[m] == was[m]
      invariant AgreeOffStride(old(result[..]), result[..], start, stride, n)
    {
      StridedCells(result[..], start, stride, n);
      MulMonotone(stride, j, n - 1);
      var product := RsMultiply(coeff[j], factor);
      SetStrided(result, start, stride, n, j, Add(result[start + stride * j], product));
    }
  }

  /** The shift and the subtraction inside one round of the division. */
  lemma DivideByParts(g: Poly, rem: Poly, shifted: Poly, byte: bv8, r: Poly)
    requires |g| == |rem| == |r| > 0
    requires shifted == rem[1..] + [0]
    requires forall j | 0 <= j < |g| :: r[j] == Add(shifted[j], Mul(g[j], Add(byte, rem[0])))
    ensures r == Divide(g, rem, byte)
  {
    hide Add, Mul;
    var factor := Add(byte, rem[0]);
    forall j | 0 <= j < |g|
      ensures r[j] == Divide(g, rem, byte)[j]
    {
      MulCommutes(g[j], factor);
    }
  }

  /** One round of the division: shift the register, subtract the generator times the quotient digit. */
  method DivideRound(coeff: array<bv8>, byte: bv8, result: array<bv8>, start: nat, stride: nat)
    requires coeff.Length > 0 && stride > 0 && start + stride * (coeff.Length - 1) < result.Length && result != coeff
    modifies result
    ensures Strided(result[..], start, stride, coeff.Length)
            == Divide(coeff[..], old(Strided(result[..], start, stride, coeff.Length)), byte)
    ensures AgreeOffStride(old(result[..]), result[..], start, stride, coeff.Length)
  {
    hide Add, Mul, Strided, Divide, OnStride;
    ghost var n, rem := coeff.Length, Strided(result[..], start, stride, coeff.Length);
    StridedCells(result[..], start, stride, coeff.Length);
    var factor := Add(byte, result[start]);
    ShiftStrided(result, start, stride, coeff.Length);
    ghost var shifted := Strided(result[..], start, stride, n);
    SubtractMultiple(coeff, factor, result, start, stride);
    DivideByParts(coeff[..], rem, shifted, byte, Strided(result[..], start, stride, n));
  }

  /**
   The strided remainder of a block of data. As in the firmware the caller clears the
   result cells beforehand; whatever they hold is the register the division starts from.
   */
  method RsGetRemainder(degree: nat, coeff: array<bv8>, data: array<bv8>, first: nat, length: nat,
                        result: array<bv8>, start: nat, stride: nat)
    requires 0 < degree < 256 && coeff.Length == degree
    requires first + length <= data.Length
    requires stride > 0 && start + stride * (degree - 1) < result.Length
    requires result != data && result != coeff
    modifies result
    ensures Strided(result[..], start, stride, degree)
            == Remainder(coeff[..], old(Strided(result[..], start, stride, degree)), data[first..first + length])
    ensures AgreeOffStride(old(result[..]), result[..], start, stride, degree)
  {
    hide Add, Mul, Strided, Divide, OnStride, Remainder;
    ghost var g, block, cells := coeff[..], data[first..first + length], result[..];
    ghost var initial := Strided(result[..], start, stride, degree);
    RemainderBegins(g, initial, block);
    for i := 0 to length
      invariant Strided(result[..], start, stride, degree) == Remainder(g, initial, block[..i])
      invariant AgreeOffStride(cells, result[..], start, stride, degree)
    {
      RemainderStep(g, initial, block, i);
      DivideRound(coeff, data[first + i], result, start, stride);
    }
    assert block[..length] == block;
  }

  lemma RemainderBegins(g: Poly, rem: Poly, data: seq<bv8>)
    requires |g| == |rem| > 0
    ensures Remainder(g, rem, data[..0]) == rem
  {
  }

  lemma RemainderStep(g: Poly, rem: Poly, data: seq<bv8>, i: nat)
    requires |g| == |rem| > 0 && i < |data|
    ensures Remainder(g, rem, data[..i + 1]) == Divide(g, Remainder(g, rem, data[..i]), data[i])
  {
    assert data[..i + 1][..i] == data[..i];
    hide Divide;
  }

  lemma StridedCells(s: seq<bv8>, start: nat, stride: nat, n: nat)
    requires n > 0 && start + stride * (n - 1) < |s|
    ensures forall j | 0 <= j < n ::
              start + stride * j < |s| && Strided(s, start, stride, n)[j] == s[start + stride * j]
  {
    forall j | 0 <= j < n
      ensures start + stride * j < |s| && Strided(s, start, stride, n)[j] == s[start + stride * j]
    {
      MulMonotone(stride, j, n - 1);
    }
  }
}
