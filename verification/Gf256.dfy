/**
 GF(2^8) with the reduction polynomial x^8 + x^4 + x^3 + x^2 + 1 (0x11D), the field in which
 the Reed-Solomon code of a QR symbol is computed.

 Bit-level facts are proved once, on bare bit-vectors; everything after them hides the
 bit-vector definitions and reasons from the laws alone.
 */
module Gf256 {

  /** Field addition (and subtraction). */
  function Add(a: bv8, b: bv8): bv8 {
    a ^ b
  }

  /** Multiplication by x (the field element 0x02). */
  function XTime(a: bv8): bv8 {
    (a << 1) ^ ((a >> 7) * 0x1D)
  }

  predicate Odd(y: bv8) {
    y & 1 == 1
  }

  function Half(y: bv8): bv8 {
    y >> 1
  }

  /** a times x^n. */
  function XPow(a: bv8, n: nat): bv8 {
    if n == 0 then a else XTime(XPow(a, n - 1))
  }

  /** The product of a and the low n bits of y, seen as polynomials, lowest bit first. */
  function MulLow(a: bv8, y: bv8, n: nat): bv8
    decreases n
  {
    if n == 0 then 0
    else if Odd(y) then Add(a, MulLow(XTime(a), Half(y), n - 1))
    else MulLow(XTime(a), Half(y), n - 1)
  }

  /** Field multiplication. */
  function Mul(a: bv8, y: bv8): bv8 {
    MulLow(a, y, 8)
  }

  // ---------------------------------------------------------------- bit-level facts

  lemma XTimeAdds(a: bv8, b: bv8)
    ensures XTime(Add(a, b)) == Add(XTime(a), XTime(b))
  {
  }

  lemma AddCommutes(a: bv8, b: bv8)
    ensures Add(a, b) == Add(b, a)
  {
  }

  lemma AddAssociates(a: bv8, b: bv8, c: bv8)
    ensures Add(Add(a, b), c) == Add(a, Add(b, c))
  {
  }

  lemma AddInverse(a: bv8)
    ensures Add(a, a) == 0 && Add(a, 0) == a && Add(0, a) == a
  {
  }

  lemma OddAdd(y: bv8, z: bv8)
    ensures Odd(Add(y, z)) == (Odd(y) != Odd(z))
  {
  }

  lemma HalfAdd(y: bv8, z: bv8)
    ensures Half(Add(y, z)) == Add(Half(y), Half(z))
  {
  }

  // ---------------------------------------------------------------- additive group

  lemma AddSwap(a: bv8, b: bv8, c: bv8, d: bv8)
    ensures Add(Add(a, b), Add(c, d)) == Add(Add(a, c), Add(b, d))
  {
    hide Add;
    AddAssociates(a, b, Add(c, d));
    AddAssociates(b, c, d);
    AddCommutes(b, c);
    AddAssociates(c, b, d);
    AddAssociates(a, c, Add(b, d));
  }

  lemma AddCancel(a: bv8, b: bv8, c: bv8)
    ensures Add(Add(a, b), Add(a, c)) == Add(b, c)
  {
    hide Add;
    AddSwap(a, b, a, c);
    AddInverse(a);
    AddInverse(Add(b, c));
  }

  lemma AddLeftCommutes(a: bv8, b: bv8, c: bv8)
    ensures Add(a, Add(b, c)) == Add(b, Add(a, c))
  {
    hide Add;
    AddAssociates(a, b, c);
    AddCommutes(a, b);
    AddAssociates(b, a, c);
  }

  lemma EqualWhenSumZero(a: bv8, b: bv8)
    ensures Add(a, b) == 0 <==> a == b
  {
    hide Add;
    AddInverse(a);
    AddInverse(b);
    AddAssociates(a, b, b);
  }

  // ---------------------------------------------------------------- linearity

  lemma {:induction false} MulLowAddsRight(a: bv8, y: bv8, z: bv8, n: nat)
    ensures MulLow(a, Add(y, z), n) == Add(MulLow(a, y, n), MulLow(a, z, n))
    decreases n
  {
    hide Add, XTime, Odd, Half;
    if n == 0 {
      AddInverse(0);
    } else {
      MulLowAddsRight(XTime(a), Half(y), Half(z), n - 1);
      OddAdd(y, z);
      HalfAdd(y, z);
      var p, q := MulLow(XTime(a), Half(y), n - 1), MulLow(XTime(a), Half(z), n - 1);
      if Odd(y) && Odd(z) {
        AddCancel(a, p, q);
      } else if Odd(y) {
        AddAssociates(a, p, q);
      } else if Odd(z) {
        AddLeftCommutes(p, a, q);
      }
    }
  }

  lemma {:induction false} MulLowAddsLeft(a: bv8, b: bv8, y: bv8, n: nat)
    ensures MulLow(Add(a, b), y, n) == Add(MulLow(a, y, n), MulLow(b, y, n))
    decreases n
  {
    hide Add, XTime, Odd, Half;
    if n == 0 {
      AddInverse(0);
    } else {
      MulLowAddsLeft(XTime(a), XTime(b), Half(y), n - 1);
      XTimeAdds(a, b);
      AddSwap(a, b, MulLow(XTime(a), Half(y), n - 1), MulLow(XTime(b), Half(y), n - 1));
    }
  }

  lemma {:induction false} MulLowXTime(a: bv8, y: bv8, n: nat)
    ensures MulLow(XTime(a), y, n) == XTime(MulLow(a, y, n))
    decreases n
  {
    if n > 0 {
      hide Add, XTime, Odd, Half;
      MulLowXTime(XTime(a), Half(y), n - 1);
      XTimeAdds(a, MulLow(XTime(a), Half(y), n - 1));
    }
  }

  lemma {:induction false} MulLowZero(a: bv8, n: nat)
    ensures MulLow(0, a, n) == 0 && MulLow(a, 0, n) == 0
    decreases n
  {
    if n > 0 {
      hide Add;
      AddInverse(0);
      MulLowZero(Half(a), n - 1);
      MulLowZero(XTime(a), n - 1);
    }
  }

  // ---------------------------------------------------------------- commutative ring with unit

  /** y has no bit at or above position n. */
  predicate Fits(y: bv8, n: nat)
    decreases n
  {
    if n == 0 then y == 0 else Fits(Half(y), n - 1)
  }

  lemma AllFit(y: bv8)
    ensures Fits(y, 8)
  {
    assert Half(Half(Half(Half(y)))) == y >> 4;
    assert Half(Half(Half(Half(y >> 4)))) == 0;
    assert Fits(y >> 4, 4) by {
      assert Fits(Half(Half(y >> 4)), 2);
    }
    assert Fits(Half(Half(y)), 6) by {
      assert Fits(Half(Half(Half(Half(y)))), 4);
    }
  }

  function OddPart(y: bv8): bv8 {
    if Odd(y) then 1 else 0
  }

  lemma SplitLowBit(y: bv8)
    ensures y == Add(OddPart(y), XTime(Half(y)))
  {
  }

  lemma {:induction false} OneTimesLow(y: bv8, n: nat)
    requires Fits(y, n)
    ensures MulLow(1, y, n) == y
    decreases n
  {
    if n > 0 {
      hide Add, XTime, Odd, Half;
      OneTimesLow(Half(y), n - 1);
      MulLowXTime(1, Half(y), n - 1);
      SplitLowBit(y);
      AddInverse(XTime(Half(y)));
    }
  }

  lemma MulOne(a: bv8)
    ensures Mul(1, a) == a
  {
    AllFit(a);
    OneTimesLow(a, 8);
  }

  lemma MulZero(a: bv8)
    ensures Mul(a, 0) == 0 && Mul(0, a) == 0
  {
    MulLowZero(a, 8);
  }

  lemma MulAddsRight(a: bv8, y: bv8, z: bv8)
    ensures Mul(a, Add(y, z)) == Add(Mul(a, y), Mul(a, z))
  {
    MulLowAddsRight(a, y, z, 8);
  }

  lemma MulAddsLeft(a: bv8, b: bv8, y: bv8)
    ensures Mul(Add(a, b), y) == Add(Mul(a, y), Mul(b, y))
  {
    MulLowAddsLeft(a, b, y, 8);
  }

  lemma MulXTimeLeft(a: bv8, y: bv8)
    ensures Mul(XTime(a), y) == XTime(Mul(a, y))
  {
    MulLowXTime(a, y, 8);
  }

  lemma {:induction false} MulLowCommutes(a: bv8, y: bv8, n: nat)
    requires Fits(y, n)
    ensures MulLow(a, y, n) == Mul(y, a)
    decreases n
  {
    hide Add, XTime, Odd, Half, Mul;
    if n == 0 {
      MulZero(a);
    } else {
      MulLowCommutes(a, Half(y), n - 1);
      MulLowXTime(a, Half(y), n - 1);
      SplitLowBit(y);
      MulAddsLeft(OddPart(y), XTime(Half(y)), a);
      MulXTimeLeft(Half(y), a);
      MulOne(a);
      MulZero(a);
      AddInverse(XTime(Mul(Half(y), a)));
    }
  }

  lemma MulCommutes(a: bv8, b: bv8)
    ensures Mul(a, b) == Mul(b, a)
  {
    AllFit(b);
    MulLowCommutes(a, b, 8);
  }

  lemma {:induction false} MulLowAssociates(a: bv8, b: bv8, c: bv8, n: nat)
    ensures MulLow(Mul(a, b), c, n) == Mul(a, MulLow(b, c, n))
    decreases n
  {
    hide Add, XTime, Odd, Half, Mul;
    if n == 0 {
      MulZero(a);
    } else {
      MulCommutes(a, XTime(b));
      MulCommutes(a, b);
      MulXTimeLeft(b, a);
      MulLowAssociates(a, XTime(b), Half(c), n - 1);
      MulAddsRight(a, b, MulLow(XTime(b), Half(c), n - 1));
    }
  }

  lemma MulAssociates(a: bv8, b: bv8, c: bv8)
    ensures Mul(Mul(a, b), c) == Mul(a, Mul(b, c))
  {
    MulLowAssociates(a, b, c, 8);
  }

  // ---------------------------------------------------------------- no zero divisors

  lemma EquationsHaveNoZeroDivisors(
    a0: bv8, a1: bv8, a2: bv8, a3: bv8, a4: bv8, a5: bv8, a6: bv8, a7: bv8,
    y0: bv8, y1: bv8, y2: bv8, y3: bv8, y4: bv8, y5: bv8, y6: bv8, y7: bv8,
    p0: bv8, p1: bv8, p2: bv8, p3: bv8, p4: bv8, p5: bv8, p6: bv8, p7: bv8, p8: bv8)
    requires a1 == (a0 << 1) ^ ((a0 >> 7) * 0x1D) && a2 == (a1 << 1) ^ ((a1 >> 7) * 0x1D)
    requires a3 == (a2 << 1) ^ ((a2 >> 7) * 0x1D) && a4 == (a3 << 1) ^ ((a3 >> 7) * 0x1D)
    requires a5 == (a4 << 1) ^ ((a4 >> 7) * 0x1D) && a6 == (a5 << 1) ^ ((a5 >> 7) * 0x1D)
    requires a7 == (a6 << 1) ^ ((a6 >> 7) * 0x1D)
    requires y1 == y0 >> 1 && y2 == y1 >> 1 && y3 == y2 >> 1 && y4 == y3 >> 1
    requires y5 == y4 >> 1 && y6 == y5 >> 1 && y7 == y6 >> 1
    requires p8 == 0
    requires p7 == if y7 & 1 == 1 then a7 ^ p8 else p8
    requires p6 == if y6 & 1 == 1 then a6 ^ p7 else p7
    requires p5 == if y5 & 1 == 1 then a5 ^ p6 else p6
    requires p4 == if y4 & 1 == 1 then a4 ^ p5 else p5
    requires p3 == if y3 & 1 == 1 then a3 ^ p4 else p4
    requires p2 == if y2 & 1 == 1 then a2 ^ p3 else p3
    requires p1 == if y1 & 1 == 1 then a1 ^ p2 else p2
    requires p0 == if y0 & 1 == 1 then a0 ^ p1 else p1
    requires p0 == 0
    ensures a0 == 0 || y0 == 0
  {
  }

  /** One step of MulLow, with its new multiplicand, multiplier and partial product named. */
  lemma Peel(a: bv8, y: bv8, p: bv8, n: nat) returns (a': bv8, y': bv8, p': bv8)
    requires n > 0 && p == MulLow(a, y, n)
    ensures a' == (a << 1) ^ ((a >> 7) * 0x1D)
    ensures y' == y >> 1
    ensures p == if y & 1 == 1 then a ^ p' else p'
    ensures p' == MulLow(a', y', n - 1)
  {
    a', y' := XTime(a), Half(y);
    p' := MulLow(a', y', n - 1);
  }

  lemma NoZeroDivisors(a: bv8, y: bv8)
    requires Mul(a, y) == 0
    ensures a == 0 || y == 0
  {
    var p := Mul(a, y);
    assert p == MulLow(a, y, 8);
    hide *;
    var a1, y1, p1 := Peel(a, y, p, 8);
    var a2, y2, p2 := Peel(a1, y1, p1, 7);
    var a3, y3, p3 := Peel(a2, y2, p2, 6);
    var a4, y4, p4 := Peel(a3, y3, p3, 5);
    var a5, y5, p5 := Peel(a4, y4, p4, 4);
    var a6, y6, p6 := Peel(a5, y5, p5, 3);
    var a7, y7, p7 := Peel(a6, y6, p6, 2);
    var a8, y8, p8 := Peel(a7, y7, p7, 1);
    MulLowEnds(a8, y8);
    EquationsHaveNoZeroDivisors(
      a, a1, a2, a3, a4, a5, a6, a7, y, y1, y2, y3, y4, y5, y6, y7, p, p1, p2, p3, p4, p5, p6, p7, p8);
  }

  lemma MulLowEnds(a: bv8, y: bv8)
    ensures MulLow(a, y, 0) == 0
  {
  }

  // ---------------------------------------------------------------- reference: polynomials modulo 0x11D

  function Xor16(a: bv16, b: bv16): bv16 {
    a ^ b
  }

  function Double16(a: bv16): bv16 {
    a << 1
  }

  function Wide(a: bv8): bv16 {
    a as bv16
  }

  function TopBit(a: bv8): bv8 {
    a >> 7
  }

  const POLY: bv16 := 0x11D

  /** The unreduced product of two polynomials over GF(2), using the low n bits of y. */
  function CarryLess(a: bv16, y: bv8, n: nat): bv16
    decreases n
  {
    if n == 0 then 0
    else if Odd(y) then Xor16(a, CarryLess(Double16(a), Half(y), n - 1))
    else CarryLess(Double16(a), Half(y), n - 1)
  }

  lemma Xor16Commutes(a: bv16, b: bv16)
    ensures Xor16(a, b) == Xor16(b, a)
  {
  }

  lemma Xor16Associates(a: bv16, b: bv16, c: bv16)
    ensures Xor16(Xor16(a, b), c) == Xor16(a, Xor16(b, c))
  {
  }

  lemma Xor16Self(a: bv16)
    ensures Xor16(a, a) == 0 && Xor16(0, a) == a
  {
  }

  lemma Xor16Swap(a: bv16, b: bv16, c: bv16, d: bv16)
    ensures Xor16(Xor16(a, b), Xor16(c, d)) == Xor16(Xor16(a, c), Xor16(b, d))
  {
    hide Xor16;
    Xor16Associates(a, b, Xor16(c, d));
    Xor16Associates(b, c, d);
    Xor16Commutes(b, c);
    Xor16Associates(c, b, d);
    Xor16Associates(a, c, Xor16(b, d));
  }

  lemma Xor16Cancel(a: bv16, b: bv16, c: bv16)
    ensures Xor16(Xor16(a, b), Xor16(a, c)) == Xor16(b, c)
    ensures Xor16(b, Xor16(a, c)) == Xor16(a, Xor16(b, c))
  {
    hide Xor16;
    Xor16Swap(a, b, a, c);
    Xor16Self(a);
    Xor16Self(Xor16(b, c));
    Xor16Associates(b, a, c);
    Xor16Associates(a, b, c);
    Xor16Commutes(a, b);
  }

  lemma Double16Adds(a: bv16, b: bv16)
    ensures Double16(Xor16(a, b)) == Xor16(Double16(a), Double16(b))
    ensures Double16(0) == 0
  {
  }

  lemma WideAdds(a: bv8, b: bv8)
    ensures Wide(Add(a, b)) == Xor16(Wide(a), Wide(b))
    ensures Wide(0) == 0
  {
  }

  lemma WideXTime(a: bv8)
    ensures Xor16(Double16(Wide(a)), Wide(XTime(a))) == if TopBit(a) == 1 then POLY else 0
  {
  }

  lemma {:induction false} CarryLessDoubles(a: bv16, y: bv8, n: nat)
    ensures CarryLess(Double16(a), y, n) == Double16(CarryLess(a, y, n))
    decreases n
  {
    hide Xor16, Double16, Odd, Half;
    if n == 0 {
      Double16Adds(0, 0);
    } else {
      Double16Adds(a, CarryLess(Double16(a), Half(y), n - 1));
      CarryLessDoubles(Double16(a), Half(y), n - 1);
    }
  }

  lemma {:induction false} CarryLessAdds(a: bv16, y: bv8, z: bv8, n: nat)
    ensures CarryLess(a, Add(y, z), n) == Xor16(CarryLess(a, y, n), CarryLess(a, z, n))
    decreases n
  {
    hide Xor16, Double16, Odd, Half, Add;
    if n == 0 {
      Xor16Self(0);
    } else {
      CarryLessAdds(Double16(a), Half(y), Half(z), n - 1);
      OddAdd(y, z);
      HalfAdd(y, z);
      var u, v := CarryLess(Double16(a), Half(y), n - 1), CarryLess(Double16(a), Half(z), n - 1);
      Xor16Cancel(a, u, v);
      Xor16Associates(a, u, v);
    }
  }

  lemma {:induction false} FitsMore(y: bv8, n: nat, m: nat)
    requires Fits(y, n) && n <= m
    ensures Fits(y, m)
    decreases m
  {
    hide Odd, Half;
    if n > 0 {
      FitsMore(Half(y), n - 1, m - 1);
    } else if m > 0 {
      HalfZero();
      FitsMore(0, 0, m - 1);
    }
  }

  lemma HalfZero()
    ensures Half(0) == 0 && !Odd(0)
  {
  }

  lemma {:induction false} CarryLessStops(a: bv16, y: bv8, n: nat)
    requires Fits(y, n)
    ensures CarryLess(a, y, n + 1) == CarryLess(a, y, n)
    decreases n
  {
    hide Xor16, Double16, Odd, Half;
    if n == 0 {
      HalfZero();
    } else {
      CarryLessStops(Double16(a), Half(y), n - 1);
    }
  }

  /** The next quotient when the multiplicand is doubled: 2q, plus 1 if the top bit falls out. */
  function NextQuotient(q: bv8, a: bv8): bv8 {
    (q << 1) | (a >> 7)
  }

  lemma NextQuotientBits(q: bv8, a: bv8)
    requires Fits(q, 7)
    ensures Half(NextQuotient(q, a)) == q
    ensures Odd(NextQuotient(q, a)) <==> TopBit(a) == 1
  {
    assert q & 0x80 == 0;
  }

  lemma {:induction false} ProductIsCongruent(w: bv16, a: bv8, y: bv8, q: bv8, n: nat) returns (r: bv8)
    requires n <= 8 && Fits(q, 8 - n)
    requires Xor16(w, Wide(a)) == CarryLess(POLY, q, 8)
    ensures Xor16(CarryLess(w, y, n), Wide(MulLow(a, y, n))) == CarryLess(POLY, r, 8)
    decreases n
  {
    hide Xor16, Double16, Odd, Half, Wide, XTime, Add, TopBit, NextQuotient;
    if n == 0 {
      CarryLessZero(POLY, 8);
      Xor16Self(0);
      WideAdds(0, 0);
      r := 0;
    } else {
      FitsMore(q, 8 - n, 7);
      var q' := NextQuotient(q, a);
      NextQuotientBits(q, a);
      CongruentDouble(w, a, q);
      r := ProductIsCongruent(Double16(w), XTime(a), Half(y), q', n - 1);
      if Odd(y) {
        var u, v := CarryLess(Double16(w), Half(y), n - 1), MulLow(XTime(a), Half(y), n - 1);
        WideAdds(a, v);
        Xor16Swap(w, u, Wide(a), Wide(v));
        CarryLessAdds(POLY, q, r, 8);
        r := Add(q, r);
      }
    }
  }

  lemma {:induction false} CarryLessZero(a: bv16, n: nat)
    ensures CarryLess(a, 0, n) == 0
    decreases n
  {
    hide Odd, Half, Xor16, Double16;
    if n > 0 {
      HalfZero();
      CarryLessZero(Double16(a), n - 1);
    }
  }

  lemma CongruentDouble(w: bv16, a: bv8, q: bv8)
    requires Fits(q, 7)
    requires Xor16(w, Wide(a)) == CarryLess(POLY, q, 8)
    ensures Xor16(Double16(w), Wide(XTime(a))) == CarryLess(POLY, NextQuotient(q, a), 8)
  {
    hide Xor16, Double16, Odd, Half, Wide, XTime, Add, TopBit, NextQuotient;
    NextQuotientBits(q, a);
    CarryLessStops(POLY, q, 7);
    CarryLessDoubles(POLY, q, 7);
    Double16Adds(w, Wide(a));
    WideXTime(a);
    var d := Double16(Wide(a));
    Xor16Cancel(d, Double16(w), Wide(XTime(a)));
    Xor16Commutes(d, Double16(w));
    Xor16Commutes(Xor16(d, Double16(w)), Xor16(d, Wide(XTime(a))));
    Xor16Self(Xor16(Double16(w), d));
  }

  /** The product of two field elements is the remainder of the carry-less product modulo 0x11D. */
  lemma MulIsPolynomialRemainder(a: bv8, y: bv8)
    ensures exists q :: Xor16(CarryLess(Wide(a), y, 8), Wide(Mul(a, y))) == CarryLess(POLY, q, 8)
  {
    hide Xor16, Double16, Odd, Half, Wide, XTime, Add, TopBit, NextQuotient;
    CarryLessZero(POLY, 8);
    Xor16Self(Wide(a));
    var q := ProductIsCongruent(Wide(a), a, y, 0, 8);
  }

  // ---------------------------------------------------------------- multiplication as the firmware does it

  /** The bits of y from position k up, and bit k itself. */
  function Above(y: bv8, k: bv4): bv8
    requires k <= 8
  {
    y >> k
  }

  function BitAt(y: bv8, k: bv4): bv8
    requires k <= 8
  {
    (y >> k) & 1
  }

  lemma NextBit(y: bv8, k: bv4)
    requires 1 <= k <= 8
    ensures Above(y, k - 1) == Add(XTime(Above(y, k)), BitAt(y, k - 1))
    ensures BitAt(y, k - 1) <= 1
  {
  }

  /** The two updates of the 16-bit accumulator in one round of the peasant loop. */
  function DoubleReduced(z: bv16): bv16 {
    (z << 1) ^ ((z >> 7) * 0x11D)
  }

  function AddSelected(z: bv16, bit: bv8, x: bv8): bv16 {
    z ^ (bit as bv16 * x as bv16)
  }

  /** The 16-bit accumulator z holds the field element b. */
  predicate Holds(z: bv16, b: bv8) {
    z <= 0xFF && z as bv8 == b
  }

  lemma DoubleReducedIsXTime(z: bv16, b: bv8)
    requires Holds(z, b)
    ensures Holds(DoubleReduced(z), XTime(b))
  {
  }

  lemma AddSelectedIsAdd(z: bv16, b: bv8, bit: bv8, x: bv8)
    requires Holds(z, b) && bit <= 1
    ensures Holds(AddSelected(z, bit, x), Add(b, if bit == 1 then x else 0))
  {
  }

  lemma PeasantStep(x: bv8, y: bv8, k: bv4)
    requires 1 <= k <= 8
    ensures BitAt(y, k - 1) <= 1
    ensures Mul(x, Above(y, k - 1)) ==
            Add(XTime(Mul(x, Above(y, k))), if BitAt(y, k - 1) == 1 then x else 0)
  {
    hide Add, XTime, Odd, Half, Mul, Above, BitAt;
    NextBit(y, k);
    MulAddsRight(x, XTime(Above(y, k)), BitAt(y, k - 1));
    MulCommutes(x, Above(y, k));
    MulXTimeLeft(Above(y, k), x);
    MulCommutes(XTime(Above(y, k)), x);
    MulOne(x);
    MulCommutes(x, BitAt(y, k - 1));
    MulZero(x);
    assert BitAt(y, k - 1) == 0 || BitAt(y, k - 1) == 1;
  }

  lemma PeasantEnds(x: bv8, y: bv8)
    ensures Holds(0, Mul(x, Above(y, 8))) && Above(y, 0) == y
  {
    MulZero(x);
  }

  /** Russian peasant multiplication computes the field product. */
  method RsMultiply(x: bv8, y: bv8) returns (r: bv8)
    ensures r == Mul(x, y)
  {
    hide Add, XTime, Odd, Half, Mul, Above, BitAt, DoubleReduced, AddSelected, Holds;
    PeasantEnds(x, y);
    var z: bv16 := 0;
    var k: bv4 := 8;
    while k != 0
      invariant k <= 8
      invariant Holds(z, Mul(x, Above(y, k)))
      decreases k
    {
      PeasantStep(x, y, k);
      DoubleReducedIsXTime(z, Mul(x, Above(y, k)));
      AddSelectedIsAdd(DoubleReduced(z), XTime(Mul(x, Above(y, k))), BitAt(y, k - 1), x);
      k := k - 1;
      z := DoubleReduced(z);
      z := AddSelected(z, BitAt(y, k), x);
    }
    HoldsLow(z, Mul(x, y));
    r := z as bv8;
  }

  lemma HoldsLow(z: bv16, b: bv8)
    requires Holds(z, b)
    ensures z <= 0xFF && z as bv8 == b
  {
  }
}
