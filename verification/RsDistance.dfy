/**
 How far apart the code words of ReedSolomon lie: two different ones of the same length
 (at most 255 bytes, which every QR block is) differ in more places than there are check bytes.
 */
module RsDistance {
  import opened Gf256
  import opened ReedSolomon

  // ---------------------------------------------------------------- the order of 2 is 255

  /** Alpha(0), Alpha(8), ..., Alpha(248). */
  const OCTAVES: seq<bv8> := [
    0x01, 0x1D, 0x4C, 0x8F, 0x9D, 0x6A, 0x46, 0x5D, 0x5F, 0x65, 0xFD, 0xFE, 0xD9, 0x0D, 0x81, 0x3B,
    0x85, 0x4F, 0xA8, 0x49, 0xE6, 0xFC, 0xE3, 0x95, 0x82, 0x1C, 0x51, 0xC3, 0x12, 0xF7, 0x2C, 0x1B
  ]

  /** None of the six doublings of a is 1. */
  predicate SixNotOne(a: bv8) {
    var a1 := XTime(a);
    var a2 := XTime(a1);
    var a3 := XTime(a2);
    var a4 := XTime(a3);
    var a5 := XTime(a4);
    a1 != 1 && a2 != 1 && a3 != 1 && a4 != 1 && a5 != 1 && XTime(a5) != 1
  }

  /** b is eight doublings after a, and none of the seven elements strictly between is 1. */
  predicate Octave(a: bv8, b: bv8) {
    var a7 := XTime(XTime(XTime(XTime(XTime(XTime(XTime(a)))))));
    SixNotOne(a) && a7 != 1 && b == XTime(a7) && b != 1
  }

  lemma FirstOctaves(k: nat)
    requires k < 16
    ensures Octave(OCTAVES[k], OCTAVES[k + 1])
  {
  }

  lemma LastOctaves(k: nat)
    requires 16 <= k < 31
    ensures Octave(OCTAVES[k], OCTAVES[k + 1])
  {
  }

  lemma {:induction false} AlphaOctave(k: nat)
    requires k < 32
    ensures Alpha(8 * k) == OCTAVES[k]
    ensures 0 < k ==> OCTAVES[k] != 1
    ensures SixNotOne(OCTAVES[k])
    ensures k < 31 ==> Octave(OCTAVES[k], OCTAVES[k + 1])
  {
    if k > 0 {
      AlphaOctave(k - 1);
      UnrollEight(8 * (k - 1));
    }
    if k < 16 {
      FirstOctaves(k);
    } else if k < 31 {
      LastOctaves(k);
    }
  }

  lemma UnrollEight(t: nat)
    ensures Alpha(t + 1) == XTime(Alpha(t)) && Alpha(t + 2) == XTime(Alpha(t + 1))
    ensures Alpha(t + 3) == XTime(Alpha(t + 2)) && Alpha(t + 4) == XTime(Alpha(t + 3))
    ensures Alpha(t + 5) == XTime(Alpha(t + 4)) && Alpha(t + 6) == XTime(Alpha(t + 5))
    ensures Alpha(t + 7) == XTime(Alpha(t + 6)) && Alpha(t + 8) == XTime(Alpha(t + 7))
  {
    hide XTime;
  }

  lemma {:induction false} XPowSplits(a: bv8, s: nat, t: nat)
    ensures XPow(XPow(a, s), t) == XPow(a, s + t)
  {
    hide XTime;
    if t > 0 {
      XPowSplits(a, s, t - 1);
    }
  }

  lemma SixNotOnePowers(a: bv8, t: nat)
    requires SixNotOne(a) && 0 < t <= 6
    ensures XPow(a, t) != 1
  {
    hide XTime;
    assert XPow(a, 0) == a;
    assert XPow(a, 2) == XTime(XPow(a, 1));
    assert XPow(a, 4) == XTime(XPow(a, 3));
    assert XPow(a, 6) == XTime(XPow(a, 5));
  }

  lemma OctaveEnd(a: bv8, b: bv8)
    requires Octave(a, b)
    ensures XPow(a, 7) != 1
  {
    hide XTime, SixNotOne;
    assert XPow(a, 0) == a;
    assert XPow(a, 2) == XTime(XPow(a, 1));
    assert XPow(a, 4) == XTime(XPow(a, 3));
    assert XPow(a, 6) == XTime(XPow(a, 5));
  }

  lemma NoOneInOctave(k: nat, r: nat)
    requires k < 32 && r < 8 && 0 < 8 * k + r < 255
    ensures XPow(Alpha(8 * k), r) != 1
  {
    hide XTime, SixNotOne, Octave;
    AlphaOctave(k);
    if 0 < r <= 6 {
      SixNotOnePowers(OCTAVES[k], r);
    } else if r == 7 {
      OctaveEnd(OCTAVES[k], OCTAVES[k + 1]);
    }
  }

  lemma AlphaIsNotOne(t: nat)
    requires 0 < t < 255
    ensures Alpha(t) != 1
  {
    hide XPow;
    NoOneInOctave(t / 8, t % 8);
    XPowSplits(1, 8 * (t / 8), t % 8);
  }

  lemma XTimeIsInjective(a: bv8)
    requires XTime(a) == 0
    ensures a == 0
  {
  }

  lemma {:induction false} AlphaIsNotZero(t: nat)
    ensures Alpha(t) != 0
  {
    hide XTime;
    if t > 0 {
      AlphaIsNotZero(t - 1);
      if Alpha(t) == 0 {
        XTimeIsInjective(Alpha(t - 1));
      }
    }
  }

  lemma {:induction false} AlphaAdds(s: nat, t: nat)
    ensures Alpha(s + t) == Mul(Alpha(s), Alpha(t))
  {
    hide XTime, Mul;
    if s == 0 {
      MulOne(Alpha(t));
    } else {
      AlphaAdds(s - 1, t);
      MulXTimeLeft(Alpha(s - 1), Alpha(t));
    }
  }

  /** The first 255 powers of 2 are pairwise different. */
  lemma AlphaIsInjective(s: nat, t: nat)
    requires s < t < 255
    ensures Alpha(s) != Alpha(t)
  {
    hide XTime, Mul, Add, Alpha;
    if Alpha(s) == Alpha(t) {
      var a := Alpha(s);
      AlphaAdds(s, t - s);
      MulOne(a);
      MulCommutes(a, 1);
      MulAddsRight(a, Alpha(t - s), 1);
      AddInverse(a);
      NoZeroDivisors(a, Add(Alpha(t - s), 1));
      AlphaIsNotZero(s);
      EqualWhenSumZero(Alpha(t - s), 1);
      AlphaIsNotOne(t - s);
    }
  }

  // ---------------------------------------------------------------- power sums

  /** The sum of c[j] * Alpha(e[j])^i. */
  function PowerSum(c: seq<bv8>, e: seq<nat>, i: nat): bv8
    requires |c| == |e|
  {
    if |c| == 0 then 0
    else
      var n := |c| - 1;
      Add(PowerSum(c[..n], e[..n], i), Mul(c[n], Alpha(e[n] * i)))
  }

  /** The exponents of the coefficients of a polynomial with n of them. */
  function Exponents(n: nat): seq<nat> {
    seq(n, j requires 0 <= j < n => n - 1 - j)
  }

  lemma {:induction false} PowerSumShifts(c: seq<bv8>, e: seq<nat>, e': seq<nat>, i: nat)
    requires |c| == |e| == |e'|
    requires forall j | 0 <= j < |e| :: e'[j] == e[j] + 1
    ensures PowerSum(c, e', i) == Mul(PowerSum(c, e, i), Alpha(i))
  {
    hide Mul, Add, Alpha;
    if |c| == 0 {
      MulZero(Alpha(i));
    } else {
      var n := |c| - 1;
      PowerSumShifts(c[..n], e[..n], e'[..n], i);
      assert e'[n] * i == e[n] * i + i;
      AlphaAdds(e[n] * i, i);
      MulAssociates(c[n], Alpha(e[n] * i), Alpha(i));
      MulAddsLeft(PowerSum(c[..n], e[..n], i), Mul(c[n], Alpha(e[n] * i)), Alpha(i));
    }
  }

  lemma {:induction false} EvalIsPowerSum(p: Poly, i: nat)
    ensures Eval(p, Alpha(i)) == PowerSum(p, Exponents(|p|), i)
  {
    hide Mul, Add, Alpha;
    if |p| > 0 {
      var n := |p| - 1;
      EvalIsPowerSum(p[..n], i);
      PowerSumShifts(p[..n], Exponents(n), Exponents(n + 1)[..n], i);
      assert Alpha(0 * i) == 1 by {
        AlphaZero();
      }
      MulCommutes(p[n], 1);
      MulOne(p[n]);
    }
  }

  lemma AlphaZero()
    ensures Alpha(0) == 1
  {
  }

  // ---------------------------------------------------------------- eliminating one coefficient

  /** Multiply coefficient j by (Alpha(e[j]) - a). */
  function Eliminate(c: seq<bv8>, e: seq<nat>, a: bv8): (r: seq<bv8>)
    requires |c| == |e|
    ensures |r| == |c|
  {
    seq(|c|, j requires 0 <= j < |c| => Mul(c[j], Add(Alpha(e[j]), a)))
  }

  lemma {:induction false} EliminateSum(c: seq<bv8>, e: seq<nat>, a: bv8, i: nat)
    requires |c| == |e|
    ensures PowerSum(Eliminate(c, e, a), e, i) == Add(PowerSum(c, e, i + 1), Mul(PowerSum(c, e, i), a))
  {
    hide Mul, Add, Alpha;
    if |c| == 0 {
      MulZero(a);
      AddInverse(0);
    } else {
      var n := |c| - 1;
      assert Eliminate(c, e, a)[..n] == Eliminate(c[..n], e[..n], a);
      EliminateSum(c[..n], e[..n], a, i);
      EliminateTerm(c[n], e[n], a, i);
      var s, t := PowerSum(c[..n], e[..n], i), Mul(c[n], Alpha(e[n] * i));
      MulAddsLeft(s, t, a);
      AddSwap(PowerSum(c[..n], e[..n], i + 1), Mul(s, a), Mul(c[n], Alpha(e[n] * (i + 1))), Mul(t, a));
    }
  }

  lemma EliminateTerm(c: bv8, e: nat, a: bv8, i: nat)
    ensures Mul(Mul(c, Add(Alpha(e), a)), Alpha(e * i))
            == Add(Mul(c, Alpha(e * (i + 1))), Mul(Mul(c, Alpha(e * i)), a))
  {
    hide Mul, Add, Alpha;
    var x := Alpha(e * i);
    assert e * (i + 1) == e + e * i;
    AlphaAdds(e, e * i);
    MulAssociates(c, Add(Alpha(e), a), x);
    MulAddsLeft(Alpha(e), a, x);
    MulAddsRight(c, Mul(Alpha(e), x), Mul(a, x));
    MulCommutes(a, x);
    MulAssociates(c, x, a);
  }

  function Support(c: seq<bv8>): set<nat> {
    set j: nat | j < |c| && c[j] != 0
  }

  ghost predicate DistinctLocators(e: seq<nat>) {
    forall j, k | 0 <= j < k < |e| :: Alpha(e[j]) != Alpha(e[k])
  }

  lemma EliminateSupport(c: seq<bv8>, e: seq<nat>, k: nat)
    requires |c| == |e| && k < |c| && DistinctLocators(e)
    ensures Support(Eliminate(c, e, Alpha(e[k]))) == Support(c) - {k}
  {
    hide Mul, Add, Alpha;
    var c' := Eliminate(c, e, Alpha(e[k]));
    forall j: nat | j < |c|
      ensures c'[j] != 0 <==> c[j] != 0 && j != k
    {
      var f := Add(Alpha(e[j]), Alpha(e[k]));
      EqualWhenSumZero(Alpha(e[j]), Alpha(e[k]));
      MulZero(c[j]);
      MulZero(f);
      if c'[j] == 0 {
        NoZeroDivisors(c[j], f);
      }
    }
  }

  /** At most d nonzero coefficients cannot make the first d power sums vanish. */
  lemma {:induction false} VanishingSumsAreZero(c: seq<bv8>, e: seq<nat>, d: nat)
    requires |c| == |e| && DistinctLocators(e)
    requires |Support(c)| <= d
    requires forall i | 0 <= i < d :: PowerSum(c, e, i) == 0
    ensures Support(c) == {}
    decreases d
  {
    hide Mul, Add, Alpha;
    if k :| k in Support(c) {
      var c' := Eliminate(c, e, Alpha(e[k]));
      EliminateSupport(c, e, k);
      forall i | 0 <= i < d - 1
        ensures PowerSum(c', e, i) == 0
      {
        EliminateSum(c, e, Alpha(e[k]), i);
        MulZero(Alpha(e[k]));
        AddInverse(0);
      }
      VanishingSumsAreZero(c', e, d - 1);
      assert Support(c) == {k};
      assert c[..|c|] == c && e[..|c|] == e;
      LoneTerm(c, e, k, |c|);
      assert false;
    }
  }

  lemma {:induction false} LoneTerm(c: seq<bv8>, e: seq<nat>, k: nat, n: nat)
    requires |c| == |e| && k < |c| && n <= |c| && Support(c) == {k}
    ensures PowerSum(c[..n], e[..n], 0) == if k < n then c[k] else 0
  {
    hide Mul, Add, Alpha;
    if n > 0 {
      LoneTerm(c, e, k, n - 1);
      assert c[..n][..n - 1] == c[..n - 1] && e[..n][..n - 1] == e[..n - 1];
      assert e[n - 1] * 0 == 0;
      AlphaZero();
      MulCommutes(c[n - 1], 1);
      MulOne(c[n - 1]);
      AddInverse(c[n - 1]);
      AddInverse(0);
      assert n - 1 != k ==> n - 1 !in Support(c);
      AddInverse(c[k]);
    }
  }

  // ---------------------------------------------------------------- the main results

  ghost function Differences(u: Poly, v: Poly): set<nat>
    requires |u| == |v|
  {
    set j: nat | j < |u| && u[j] != v[j]
  }

  /** Two different code words of at most 255 bytes differ in more than d places. */
  lemma MinimumDistance(d: nat, u: Poly, v: Poly)
    requires |u| == |v| <= 255
    requires IsCodeword(d, u) && IsCodeword(d, v)
    requires u != v
    ensures |Differences(u, v)| > d
  {
    hide Mul, Add, Alpha;
    var c, e := AddPoly(u, v), Exponents(|u|);
    forall j: nat | j < |u|
      ensures c[j] == 0 <==> u[j] == v[j]
    {
      EqualWhenSumZero(u[j], v[j]);
    }
    assert Support(c) == Differences(u, v);
    assert DistinctLocators(e) by {
      forall j, k | 0 <= j < k < |e|
        ensures Alpha(e[j]) != Alpha(e[k])
      {
        AlphaIsInjective(e[k], e[j]);
      }
    }
    forall i | 0 <= i < d
      ensures PowerSum(c, e, i) == 0
    {
      EvalIsPowerSum(c, i);
      EvalAdds(u, v, Alpha(i));
      AddInverse(0);
    }
    assert Differences(u, v) != {} by {
      var j: nat :| j < |u| && u[j] != v[j];
      assert j in Differences(u, v);
    }
    if |Differences(u, v)| <= d {
      VanishingSumsAreZero(c, e, d);
      assert false;
    }
  }

  /** The check bytes are the only d bytes that complete the data to a code word. */
  lemma CheckBytesAreUnique(d: nat, data: seq<bv8>, r: Poly)
    requires d > 0 && |r| == d && |data| + d <= 255
    ensures IsCodeword(d, data + r) <==> r == CheckBytes(d, data)
  {
    hide Alpha, Eval, CheckBytes;
    var c := CheckBytes(d, data);
    EncodingIsCodeword(d, data);
    if IsCodeword(d, data + r) && r != c {
      assert data + r != data + c by {
        assert (data + r)[|data|..] == r && (data + c)[|data|..] == c;
      }
      MinimumDistance(d, data + r, data + c);
      var tail := Range(|data|, d);
      RangeSize(|data|, d);
      forall j | j in Differences(data + r, data + c)
        ensures j in tail
      {
        InRange(|data|, d, j);
      }
      SubsetSize(Differences(data + r, data + c), tail);
      assert false;
    }
  }

  function Range(lo: nat, n: nat): set<nat> {
    if n == 0 then {} else Range(lo, n - 1) + {lo + n - 1}
  }

  lemma {:induction false} InRange(lo: nat, n: nat, j: nat)
    ensures j in Range(lo, n) <==> lo <= j < lo + n
  {
    if n > 0 {
      InRange(lo, n - 1, j);
    }
  }

  lemma {:induction false} RangeSize(lo: nat, n: nat)
    ensures |Range(lo, n)| == n
  {
    if n > 0 {
      RangeSize(lo, n - 1);
      InRange(lo, n - 1, lo + n - 1);
    }
  }

  lemma {:induction false} SubsetSize(a: set<nat>, b: set<nat>)
    requires a <= b
    ensures |a| <= |b|
  {
    if x :| x in a {
      SubsetSize(a - {x}, b - {x});
    }
  }
}
