/** The two 16-bit CRCs of the firmware, against the bit-by-bit shift register they abbreviate. */
module Crc {
  const POLY_CCITT: bv16 := 0x1021
  const POLY_M17: bv16 := 0x5935

  // ---------------------------------------------------------------- the shift register

  function Xor(a: bv16, b: bv16): bv16 {
    a ^ b
  }

  function Double(r: bv16): bv16 {
    r << 1
  }

  predicate Top(r: bv16) {
    r >= 0x8000
  }

  /** One step of the register on a zero bit. */
  function Shift(r: bv16, poly: bv16): bv16 {
    if Top(r) then Xor(Double(r), poly) else Double(r)
  }

  /** One step of the register on any bit. */
  function Step(r: bv16, poly: bv16, bit: bool): bv16 {
    if bit then Shift(Xor(r, 0x8000), poly) else Shift(r, poly)
  }

  /** The register after a sequence of bits. */
  function BitCrc(r: bv16, poly: bv16, bits: seq<bool>): bv16
    decreases |bits|
  {
    if |bits| == 0 then r else BitCrc(Step(r, poly, bits[0]), poly, bits[1..])
  }

  function Shifts(r: bv16, poly: bv16, n: nat): bv16
    decreases n
  {
    if n == 0 then r else Shifts(Shift(r, poly), poly, n - 1)
  }

  // ---------------------------------------------------------------- bit-level facts

  lemma DoubleAdds(a: bv16, b: bv16)
    ensures Double(Xor(a, b)) == Xor(Double(a), Double(b))
  {
  }

  lemma TopAdds(a: bv16, b: bv16)
    ensures Top(Xor(a, b)) == (Top(a) != Top(b))
  {
  }

  lemma XorLaws(a: bv16, b: bv16)
    ensures Xor(a, 0) == a && Xor(0, a) == a && Xor(a, a) == 0
    ensures Xor(a, b) == Xor(b, a)
  {
  }

  lemma XorAssociates(a: bv16, b: bv16, c: bv16)
    ensures Xor(Xor(a, b), c) == Xor(a, Xor(b, c))
  {
  }

  lemma XorSwap(a: bv16, b: bv16, c: bv16, d: bv16)
    ensures Xor(Xor(a, b), Xor(c, d)) == Xor(Xor(a, c), Xor(b, d))
  {
    hide Xor;
    XorAssociates(a, b, Xor(c, d));
    XorAssociates(b, c, d);
    XorLaws(b, c);
    XorAssociates(c, b, d);
    XorAssociates(a, c, Xor(b, d));
  }

  lemma XorZero(a: bv16, b: bv16)
    ensures Xor(a, b) == 0 <==> a == b
  {
    hide Xor;
    XorLaws(a, b);
    XorLaws(b, b);
    XorAssociates(a, b, b);
  }

  lemma XorCancel(a: bv16, b: bv16, p: bv16)
    ensures Xor(Xor(a, p), Xor(b, p)) == Xor(a, b)
  {
    hide Xor;
    XorSwap(a, p, b, p);
    XorLaws(p, p);
    XorLaws(Xor(a, b), 0);
  }

  lemma ShiftAdds(a: bv16, b: bv16, poly: bv16)
    ensures Shift(Xor(a, b), poly) == Xor(Shift(a, poly), Shift(b, poly))
  {
    hide Xor, Double, Top;
    DoubleAdds(a, b);
    TopAdds(a, b);
    var x, y := Double(a), Double(b);
    if Top(a) && Top(b) {
      XorCancel(x, y, poly);
    } else if Top(a) {
      XorAssociates(x, y, poly);
      XorLaws(y, poly);
      XorAssociates(x, poly, y);
    } else if Top(b) {
      XorAssociates(x, y, poly);
    }
  }

  /** The generator has a constant term, so no bit is ever lost. */
  predicate Odd(r: bv16) {
    r & 1 == 1
  }

  lemma DoubleFacts(a: bv16, poly: bv16)
    ensures Double(0) == 0 && !Top(0)
    ensures !Top(a) && Double(a) == 0 ==> a == 0
    ensures Odd(poly) ==> Xor(Double(a), poly) != 0
  {
  }

  lemma ShiftIsInjective(a: bv16, poly: bv16)
    requires Odd(poly)
    ensures Shift(0, poly) == 0
    ensures Shift(a, poly) == 0 ==> a == 0
  {
    hide Xor, Double, Top, Odd;
    DoubleFacts(a, poly);
  }

  // ---------------------------------------------------------------- linearity

  function XorBits(a: seq<bool>, b: seq<bool>): (c: seq<bool>)
    requires |a| == |b|
    ensures |c| == |a|
  {
    seq(|a|, i requires 0 <= i < |a| => a[i] != b[i])
  }

  lemma StepAdds(r: bv16, s: bv16, poly: bv16, a: bool, b: bool)
    ensures Step(Xor(r, s), poly, a != b) == Xor(Step(r, poly, a), Step(s, poly, b))
  {
    hide Xor, Shift;
    ShiftAdds(if a then Xor(r, 0x8000) else r, if b then Xor(s, 0x8000) else s, poly);
    XorSwap(r, 0x8000, s, 0x8000);
    XorLaws(0x8000, 0x8000);
    XorLaws(Xor(r, s), 0);
    XorAssociates(r, s, 0x8000);
    XorAssociates(r, 0x8000, s);
    XorLaws(0x8000, s);
  }

  /** The register is linear in its start value and its bits together. */
  lemma {:induction false} BitCrcAdds(r: bv16, s: bv16, poly: bv16, a: seq<bool>, b: seq<bool>)
    requires |a| == |b|
    ensures BitCrc(Xor(r, s), poly, XorBits(a, b)) == Xor(BitCrc(r, poly, a), BitCrc(s, poly, b))
    decreases |a|
  {
    hide Xor, Step;
    if |a| > 0 {
      StepAdds(r, s, poly, a[0], b[0]);
      assert XorBits(a, b)[1..] == XorBits(a[1..], b[1..]);
      BitCrcAdds(Step(r, poly, a[0]), Step(s, poly, b[0]), poly, a[1..], b[1..]);
    }
  }

  lemma {:induction false} BitCrcConcat(r: bv16, poly: bv16, a: seq<bool>, b: seq<bool>)
    ensures BitCrc(r, poly, a + b) == BitCrc(BitCrc(r, poly, a), poly, b)
    decreases |a|
  {
    hide Step;
    if |a| == 0 {
      assert a + b == b;
    } else {
      assert (a + b)[1..] == a[1..] + b;
      BitCrcConcat(Step(r, poly, a[0]), poly, a[1..], b);
    }
  }

  // ---------------------------------------------------------------- up to sixteen bits at once

  function Lower(t: bv16): bv16 {
    t >> 1
  }

  /** Up to 16 bits at the top of a register. */
  function TopBits(w: seq<bool>): bv16 {
    if |w| == 0 then 0
    else if w[0] then Xor(0x8000, Lower(TopBits(w[1..])))
    else Lower(TopBits(w[1..]))
  }

  /** The lowest k bits of t are zero. */
  predicate LowClear(t: bv16, k: nat)
    decreases k
  {
    if k == 0 then true else !Odd(t) && LowClear(Lower(t), k - 1)
  }

  lemma LowerFacts(t: bv16)
    ensures Lower(0) == 0 && !Odd(0)
    ensures !Top(Lower(t))
    ensures !Odd(t) ==> Double(Lower(t)) == t
  {
  }

  lemma LowerAdds(a: bv16, b: bv16)
    ensures Lower(Xor(a, b)) == Xor(Lower(a), Lower(b))
    ensures Odd(Xor(a, b)) == (Odd(a) != Odd(b))
  {
  }

  lemma {:induction false} LowClearAdds(a: bv16, b: bv16, k: nat)
    requires LowClear(a, k) && LowClear(b, k)
    ensures LowClear(Xor(a, b), k)
    decreases k
  {
    hide Xor, Lower, Odd;
    if k > 0 {
      LowerAdds(a, b);
      LowClearAdds(Lower(a), Lower(b), k - 1);
    }
  }

  lemma {:induction false} LowClearLess(a: bv16, k: nat, m: nat)
    requires LowClear(a, k) && m <= k
    ensures LowClear(a, m)
    decreases m
  {
    hide Lower, Odd;
    if m > 0 {
      LowClearLess(Lower(a), k - 1, m - 1);
    }
  }

  lemma TopIsLowClear(k: nat)
    requires k <= 15
    ensures LowClear(0x8000, k)
  {
    assert LowClear(0x0001, 0);
    assert LowClear(0x0004, 2);
    assert LowClear(0x0010, 4);
    assert LowClear(0x0040, 6);
    assert LowClear(0x0100, 8);
    assert LowClear(0x0400, 10);
    assert LowClear(0x1000, 12);
    assert LowClear(0x4000, 14);
    assert LowClear(0x8000, 15);
    LowClearLess(0x8000, 15, k);
  }

  lemma {:induction false} ZeroIsLowClear(k: nat)
    ensures LowClear(0, k)
  {
    hide Lower, Odd;
    LowerFacts(0);
    if k > 0 {
      ZeroIsLowClear(k - 1);
    }
  }

  lemma {:induction false} TopBitsAreTop(w: seq<bool>)
    requires |w| <= 16
    ensures LowClear(TopBits(w), 16 - |w|)
  {
    hide Xor, Lower, Odd;
    if |w| == 0 {
      ZeroIsLowClear(16);
    } else {
      TopBitsAreTop(w[1..]);
      TopIsLowClear(16 - |w|);
      LowClearAdds(0x8000, Lower(TopBits(w[1..])), 16 - |w|);
    }
  }

  lemma {:induction false} TopBitsAreNotZero(w: seq<bool>)
    requires |w| <= 16 && true in w
    ensures TopBits(w) != 0
  {
    hide Xor, Lower, Odd, Top;
    var t := TopBits(w[1..]);
    LowerFacts(t);
    if w[0] {
      TopAdds(0x8000, Lower(t));
      TopOfConstants();
    } else {
      TopBitsAreTop(w[1..]);
      TopBitsAreNotZero(w[1..]);
      DoubleFacts(0, 0);
    }
  }

  lemma TopOfConstants()
    ensures Top(0x8000) && !Top(0)
  {
  }

  /** Feeding at most 16 bits is the same as adding them to the register and shifting them out. */
  lemma {:induction false} FeedAtOnce(r: bv16, poly: bv16, w: seq<bool>)
    requires |w| <= 16
    ensures BitCrc(r, poly, w) == Shifts(Xor(r, TopBits(w)), poly, |w|)
    decreases |w|
  {
    hide Xor, Lower, Odd, Top, Double;
    XorLaws(r, 0);
    if |w| > 0 {
      var t := TopBits(w[1..]);
      FeedAtOnce(Step(r, poly, w[0]), poly, w[1..]);
      TopBitsAreTop(w[1..]);
      LowerFacts(t);
      ShiftAdds(r, Lower(t), poly);
      ShiftAdds(Xor(r, 0x8000), Lower(t), poly);
      XorAssociates(r, 0x8000, Lower(t));
    }
  }

  lemma {:induction false} ShiftsAdd(a: bv16, b: bv16, poly: bv16, n: nat)
    ensures Shifts(Xor(a, b), poly, n) == Xor(Shifts(a, poly, n), Shifts(b, poly, n))
    decreases n
  {
    hide Xor, Shift;
    if n > 0 {
      ShiftAdds(a, b, poly);
      ShiftsAdd(Shift(a, poly), Shift(b, poly), poly, n - 1);
    }
  }

  lemma {:induction false} ShiftsAreInjective(a: bv16, poly: bv16, n: nat)
    requires Odd(poly)
    ensures Shifts(0, poly, n) == 0
    ensures Shifts(a, poly, n) == 0 ==> a == 0
    decreases n
  {
    hide Shift, Odd;
    if n > 0 {
      ShiftIsInjective(a, poly);
      ShiftsAreInjective(Shift(a, poly), poly, n - 1);
    }
  }

  lemma {:induction false} ShiftsCompose(a: bv16, poly: bv16, n: nat, m: nat)
    ensures Shifts(Shifts(a, poly, n), poly, m) == Shifts(a, poly, n + m)
    decreases n
  {
    hide Shift;
    if n > 0 {
      ShiftsCompose(Shift(a, poly), poly, n - 1, m);
    }
  }

  // ---------------------------------------------------------------- bursts

  function Clear(n: nat): (r: seq<bool>)
    ensures |r| == n
  {
    seq(n, _ => false)
  }

  lemma {:induction false} ClearKeeps(r: bv16, poly: bv16, n: nat)
    ensures BitCrc(r, poly, Clear(n)) == Shifts(r, poly, n)
    decreases n
  {
    hide Shift;
    if n > 0 {
      assert Clear(n)[1..] == Clear(n - 1);
      ClearKeeps(Shift(r, poly), poly, n - 1);
    }
  }

  /** Bits that are all clear outside a window of 16, and not all clear, leave a nonzero register. */
  lemma BurstIsNotZero(poly: bv16, e: seq<bool>, a: nat)
    requires Odd(poly) && true in e
    requires forall i | 0 <= i < |e| && e[i] :: a <= i < a + 16
    ensures BitCrc(0, poly, e) != 0
  {
    hide Shift, Odd, Xor, Step, TopBits;
    var b := if a + 16 <= |e| then a + 16 else |e|;
    var w := e[a..b];
    var c := |e| - b;
    assert e == Clear(a) + (w + Clear(c));
    var i :| 0 <= i < |e| && e[i];
    assert w[i - a];
    BitCrcConcat(0, poly, Clear(a), w + Clear(c));
    ClearKeeps(0, poly, a);
    ShiftsAreInjective(0, poly, a);
    BitCrcConcat(0, poly, w, Clear(c));
    FeedAtOnce(0, poly, w);
    XorLaws(TopBits(w), 0);
    TopBitsAreNotZero(w);
    ShiftsAreInjective(TopBits(w), poly, |w|);
    ClearKeeps(BitCrc(0, poly, w), poly, c);
    ShiftsAreInjective(BitCrc(0, poly, w), poly, c);
  }

  /** Two messages of any length that differ only within 16 consecutive bits have different CRCs. */
  lemma BurstChangesCrc(r: bv16, poly: bv16, m: seq<bool>, m': seq<bool>, a: nat)
    requires Odd(poly) && |m| == |m'| && m != m'
    requires forall i | 0 <= i < |m| && m[i] != m'[i] :: a <= i < a + 16
    ensures BitCrc(r, poly, m) != BitCrc(r, poly, m')
  {
    hide Shift, Odd, Xor, Step, TopBits, BitCrc;
    var e := XorBits(m, m');
    BitCrcAdds(r, r, poly, m, m');
    XorLaws(r, r);
    XorZero(BitCrc(r, poly, m), BitCrc(r, poly, m'));
    var i :| 0 <= i < |m| && m[i] != m'[i];
    assert e[i];
    BurstIsNotZero(poly, e, a);
  }

  // ---------------------------------------------------------------- bytes

  function Up(b: bv8): bv8 {
    b << 1
  }

  predicate Leading(b: bv8) {
    b & 0x80 != 0
  }

  /** The first n bits of b, most significant first. */
  function LeadingBits(b: bv8, n: nat): (r: seq<bool>)
    ensures |r| == n
    decreases n
  {
    if n == 0 then [] else [Leading(b)] + LeadingBits(Up(b), n - 1)
  }

  /** The bits of a byte, most significant first. */
  function ByteBits(b: bv8): (r: seq<bool>)
    ensures |r| == 8
  {
    LeadingBits(b, 8)
  }

  function MessageBits(data: seq<bv8>): (r: seq<bool>)
    ensures |r| == 8 * |data|
  {
    if |data| == 0 then [] else MessageBits(data[..|data| - 1]) + ByteBits(data[|data| - 1])
  }

  /** A byte in the upper and in the lower half of a register. */
  function High(b: bv8): bv16 {
    (b as bv16) << 8
  }

  function Low(b: bv8): bv16 {
    b as bv16
  }

  lemma HighOfUp(b: bv8)
    ensures Leading(b) ==> High(b) == Xor(0x8000, Lower(High(Up(b))))
    ensures !Leading(b) ==> High(b) == Lower(High(Up(b)))
    ensures High(0) == 0
  {
  }

  /** Nothing is left of b after n bits have been taken from it. */
  predicate Exhausted(b: bv8, n: nat)
    decreases n
  {
    if n == 0 then b == 0 else Exhausted(Up(b), n - 1)
  }

  lemma ExhaustedByEight(b: bv8)
    ensures Exhausted(b, 8)
  {
    assert Exhausted(b << 6, 2);
    assert Exhausted(b << 4, 4);
    assert Exhausted(b << 2, 6);
  }

  lemma {:induction false} TopBitsOfLeading(b: bv8, n: nat)
    requires Exhausted(b, n)
    ensures TopBits(LeadingBits(b, n)) == High(b)
    decreases n
  {
    hide Xor, Lower, High, Up, Leading;
    HighOfUp(b);
    if n > 0 {
      TopBitsOfLeading(Up(b), n - 1);
      assert LeadingBits(b, n)[1..] == LeadingBits(Up(b), n - 1);
    }
  }

  lemma TopBitsOfByte(b: bv8)
    ensures TopBits(ByteBits(b)) == High(b)
  {
    hide TopBits, High;
    ExhaustedByEight(b);
    TopBitsOfLeading(b, 8);
  }

  /** A byte is fed by adding it to the upper half of the register and shifting eight times. */
  lemma FeedByte(r: bv16, poly: bv16, b: bv8)
    ensures BitCrc(r, poly, ByteBits(b)) == Shifts(Xor(r, High(b)), poly, 8)
  {
    hide Xor, Shift, High, ByteBits, TopBits;
    FeedAtOnce(r, poly, ByteBits(b));
    TopBitsOfByte(b);
  }

  lemma MessageSteps(r: bv16, poly: bv16, data: seq<bv8>, i: nat)
    requires i < |data|
    ensures BitCrc(r, poly, MessageBits(data[..i + 1]))
            == Shifts(Xor(BitCrc(r, poly, MessageBits(data[..i])), High(data[i])), poly, 8)
  {
    hide Xor, Shift, High, ByteBits, TopBits, BitCrc, Shifts;
    assert data[..i + 1][..i] == data[..i];
    BitCrcConcat(r, poly, MessageBits(data[..i]), ByteBits(data[i]));
    FeedByte(BitCrc(r, poly, MessageBits(data[..i])), poly, data[i]);
  }

  // ---------------------------------------------------------------- crc_ccitt

  function Upper(r: bv16): bv8 {
    (r >> 8) as bv8
  }

  function Lowest(r: bv16): bv8 {
    (r & 0xFF) as bv8
  }

  function AddByte(a: bv8, b: bv8): bv8 {
    a ^ b
  }

  lemma SplitHalves(r: bv16)
    ensures r == Xor(High(Upper(r)), Low(Lowest(r)))
  {
  }

  lemma HighAdds(a: bv8, b: bv8)
    ensures High(AddByte(a, b)) == Xor(High(a), High(b))
  {
  }

  /** A register holding only a low byte moves it up unchanged in eight shifts. */
  lemma LowMovesUp(b: bv8, poly: bv16)
    ensures Shifts(Low(b), poly, 8) == High(b)
  {
    var r := Low(b);
    LowDoubles(b);
    assert Shift(r, poly) == Double(r);
    assert Shift(Double(r), poly) == Double(Double(r));
    hide Xor, Double, Top;
    var r2 := Double(Double(r));
    var r4 := Double(Double(r2));
    var r6 := Double(Double(r4));
    assert Shifts(r, poly, 2) == r2;
    assert Shifts(r2, poly, 2) == r4;
    assert Shifts(r4, poly, 2) == r6;
    assert Shifts(r6, poly, 2) == High(b);
    hide Shift;
    ShiftsCompose(r, poly, 2, 2);
    ShiftsCompose(r, poly, 4, 2);
    ShiftsCompose(r, poly, 6, 2);
  }

  lemma LowDoubles(b: bv8)
    ensures var r := Low(b);
            && !Top(r) && !Top(Double(r)) && !Top(Double(Double(r))) && !Top(Double(Double(Double(r))))
    ensures var r4 := Double(Double(Double(Double(Low(b)))));
            && !Top(r4) && !Top(Double(r4)) && !Top(Double(Double(r4))) && !Top(Double(Double(Double(r4))))
            && Double(Double(Double(Double(r4)))) == High(b)
  {
  }

  function HalfByte(t: bv8): bv8 {
    t >> 1
  }

  predicate OddByte(t: bv8) {
    t & 1 == 1
  }

  /** t has no bit at or above position n. */
  predicate FitsByte(t: bv8, n: nat) {
    if n == 0 then t == 0 else FitsByte(HalfByte(t), n - 1)
  }

  lemma EveryByteFits(t: bv8)
    ensures FitsByte(t, 8)
  {
    assert FitsByte(t >> 6, 2);
    assert FitsByte(t >> 4, 4);
    assert FitsByte(t >> 2, 6);
  }

  /** What eight shifts make of a byte in the upper half, by the shift trick. */
  function Trick(t: bv8): bv16 {
    var x := t as bv16 ^ ((t as bv16) >> 4);
    (x << 12) ^ (x << 5) ^ x
  }

  lemma TrickSteps(t: bv8)
    ensures Trick(t) == if OddByte(t) then Xor(0x1021, Shift(Trick(HalfByte(t)), 0x1021))
                        else Shift(Trick(HalfByte(t)), 0x1021)
  {
  }

  lemma HighSteps(t: bv8)
    ensures !Top(High(HalfByte(t)))
    ensures High(t) == if OddByte(t) then Xor(0x0100, Double(High(HalfByte(t)))) else Double(High(HalfByte(t)))
  {
  }

  lemma UnitShifts(poly: bv16)
    ensures Shifts(0x0100, poly, 8) == poly
  {
    assert Shifts(0x0100, poly, 2) == 0x0400;
    assert Shifts(0x0400, poly, 2) == 0x1000;
    assert Shifts(0x1000, poly, 2) == 0x4000;
    assert Shifts(0x4000, poly, 2) == poly;
    hide Shift;
    ShiftsCompose(0x0100, poly, 2, 2);
    ShiftsCompose(0x0100, poly, 4, 2);
    ShiftsCompose(0x0100, poly, 6, 2);
  }

  lemma {:induction false} ShiftsOfHigh(t: bv8, n: nat)
    requires FitsByte(t, n)
    ensures Shifts(High(t), POLY_CCITT, 8) == Trick(t)
    decreases n
  {
    if n == 0 {
      TrickZero();
      hide Shift;
      PolysAreOdd();
      ShiftsAreInjective(0, POLY_CCITT, 8);
    } else {
      hide Xor, Double, Top, Shift, High, HalfByte, OddByte, Trick;
      var h := HalfByte(t);
      ShiftsOfHigh(h, n - 1);
      HighSteps(t);
      assert Double(High(h)) == Shift(High(h), POLY_CCITT) by {
        ShiftIsDouble(High(h), POLY_CCITT);
      }
      ShiftsCompose(High(h), POLY_CCITT, 1, 8);
      ShiftsCompose(High(h), POLY_CCITT, 8, 1);
      assert Shifts(High(h), POLY_CCITT, 1) == Shift(High(h), POLY_CCITT);
      assert Shifts(Trick(h), POLY_CCITT, 1) == Shift(Trick(h), POLY_CCITT);
      ShiftsAdd(0x0100, Double(High(h)), POLY_CCITT, 8);
      UnitShifts(POLY_CCITT);
      TrickSteps(t);
    }
  }

  lemma ShiftIsDouble(r: bv16, poly: bv16)
    requires !Top(r)
    ensures Shift(r, poly) == Double(r)
  {
  }

  lemma TrickZero()
    ensures High(0) == 0 && Trick(0) == 0
  {
  }

  lemma PolysAreOdd()
    ensures Odd(POLY_CCITT) && Odd(POLY_M17)
  {
  }

  /** One byte of crc_ccitt: feed the byte to the register. */
  lemma CcittByteFeeds(crc: bv16, b: bv8)
    ensures Shifts(Xor(crc, High(b)), POLY_CCITT, 8) == Xor(High(Lowest(crc)), Trick(AddByte(Upper(crc), b)))
  {
    hide Xor, Shift, High, Low, Upper, Lowest, AddByte, Trick, Shifts, FitsByte;
    var u, l := Upper(crc), Lowest(crc);
    SplitHalves(crc);
    HighAdds(u, b);
    XorAssociates(High(u), Low(l), High(b));
    XorLaws(Low(l), High(b));
    XorAssociates(High(u), High(b), Low(l));
    ShiftsAdd(High(AddByte(u, b)), Low(l), POLY_CCITT, 8);
    EveryByteFits(AddByte(u, b));
    ShiftsOfHigh(AddByte(u, b), 8);
    LowMovesUp(l, POLY_CCITT);
    XorLaws(High(l), Trick(AddByte(u, b)));
  }

  /** The three assignments of the loop body. */
  function CcittUpdate(crc: bv16, b: bv8): bv16 {
    CcittMix(crc << 8, (crc >> 8) ^ (b as bv16))
  }

  function CcittMix(h: bv16, t: bv16): bv16 {
    var x := t ^ (t >> 4);
    h ^ (x << 12) ^ (x << 5) ^ x
  }

  lemma MixIsXor(h: bv16, a: bv16, b: bv16, c: bv16)
    ensures h ^ a ^ b ^ c == h ^ (a ^ b ^ c)
  {
  }

  lemma UpdateParts(crc: bv16, b: bv8)
    ensures (crc >> 8) ^ (b as bv16) == AddByte(Upper(crc), b) as bv16
    ensures crc << 8 == High(Lowest(crc))
  {
  }

  lemma CcittMixIsTrick(h: bv16, t: bv8)
    ensures CcittMix(h, t as bv16) == Xor(h, Trick(t))
  {
    var x := t as bv16 ^ ((t as bv16) >> 4);
    MixIsXor(h, x << 12, x << 5, x);
  }

  lemma CcittUpdateIsTrick(crc: bv16, b: bv8)
    ensures CcittUpdate(crc, b) == Xor(High(Lowest(crc)), Trick(AddByte(Upper(crc), b)))
  {
    UpdateParts(crc, b);
    hide CcittMix, Xor, Trick, High, Lowest, AddByte, Upper;
    CcittMixIsTrick(High(Lowest(crc)), AddByte(Upper(crc), b));
  }

  /** crc_ccitt is the register with generator 0x1021, started at zero, after the message's bits. */
  method CrcCcitt(data: seq<bv8>) returns (crc: bv16)
    ensures crc == BitCrc(0, POLY_CCITT, MessageBits(data))
  {
    hide CcittUpdate, BitCrc, Shifts, Xor, High, Low, Upper, Lowest, AddByte, Trick;
    crc := 0;
    EmptyMessage(0, POLY_CCITT, data);
    for i := 0 to |data|
      invariant crc == BitCrc(0, POLY_CCITT, MessageBits(data[..i]))
    {
      MessageSteps(0, POLY_CCITT, data, i);
      CcittByteFeeds(crc, data[i]);
      CcittUpdateIsTrick(crc, data[i]);
      crc := CcittUpdate(crc, data[i]);
    }
  }

  lemma EmptyMessage(r: bv16, poly: bv16, data: seq<bv8>)
    ensures BitCrc(r, poly, MessageBits(data[..0])) == r
    ensures data[..|data|] == data
  {
  }

  // ---------------------------------------------------------------- crc_m17

  function M17Table(i: bv8): bv16 {
    if i == 0 then 0x0000 else if i == 1 then 0x5935 else if i == 2 then 0xb26a else if i == 3 then 0xeb5f
    else if i == 4 then 0x3de1 else if i == 5 then 0x64d4 else if i == 6 then 0x8f8b else if i == 7 then 0xd6be
    else if i == 8 then 0x7bc2 else if i == 9 then 0x22f7 else if i == 10 then 0xc9a8 else if i == 11 then 0x909d
    else if i == 12 then 0x4623 else if i == 13 then 0x1f16 else if i == 14 then 0xf449 else 0xad7c
  }

  /** Half a byte at the very top of a register. */
  function Nibble(t: bv8): bv16 {
    (t as bv16) << 12
  }

  lemma M17TableSteps(t: bv8)
    requires t < 16
    ensures M17Table(t) == if OddByte(t) then Xor(0x5935, Shift(M17Table(HalfByte(t)), 0x5935))
                           else Shift(M17Table(HalfByte(t)), 0x5935)
  {
  }

  lemma NibbleSteps(t: bv8)
    requires t < 16
    ensures HalfByte(t) < 16 && !Top(Nibble(HalfByte(t)))
    ensures Nibble(t) == if OddByte(t) then Xor(0x1000, Double(Nibble(HalfByte(t)))) else Double(Nibble(HalfByte(t)))
  {
  }

  lemma NibbleUnit(poly: bv16)
    ensures Shifts(0x1000, poly, 4) == poly
  {
    assert Shifts(0x1000, poly, 2) == 0x4000;
    assert Shifts(0x4000, poly, 2) == poly;
    hide Shift;
    ShiftsCompose(0x1000, poly, 2, 2);
  }

  lemma {:induction false} ShiftsOfNibble(t: bv8, n: nat)
    requires t < 16 && FitsByte(t, n)
    ensures Shifts(Nibble(t), POLY_M17, 4) == M17Table(t)
    decreases n
  {
    if n == 0 {
      hide Shift;
      PolysAreOdd();
      ShiftsAreInjective(0, POLY_M17, 4);
      assert Nibble(0) == 0;
    } else {
      hide Xor, Double, Top, Shift, Nibble, HalfByte, OddByte, M17Table;
      var h := HalfByte(t);
      NibbleSteps(t);
      ShiftsOfNibble(h, n - 1);
      ShiftIsDouble(Nibble(h), POLY_M17);
      ShiftsCompose(Nibble(h), POLY_M17, 1, 4);
      ShiftsCompose(Nibble(h), POLY_M17, 4, 1);
      assert Shifts(Nibble(h), POLY_M17, 1) == Shift(Nibble(h), POLY_M17);
      assert Shifts(M17Table(h), POLY_M17, 1) == Shift(M17Table(h), POLY_M17);
      ShiftsAdd(0x1000, Double(Nibble(h)), POLY_M17, 4);
      NibbleUnit(POLY_M17);
      M17TableSteps(t);
    }
  }

  /** The top four bits of the register, and the rest moved up by four. */
  function TopNibble(r: bv16): bv8 {
    (r >> 12) as bv8
  }

  function Below(r: bv16): bv16 {
    r & 0x0FFF
  }

  function UpFourBits(r: bv16): bv16 {
    r << 4
  }

  lemma SplitTopNibble(r: bv16)
    ensures r == Xor(Nibble(TopNibble(r)), Below(r)) && TopNibble(r) < 16
    ensures UpFourBits(r) == UpFourBits(Below(r))
  {
  }

  lemma BelowMovesUp(r: bv16, poly: bv16)
    requires r <= 0x0FFF
    ensures Shifts(r, poly, 4) == UpFourBits(r)
  {
    BelowDoubles(r);
    hide Double, Top, UpFourBits;
    assert Shift(r, poly) == Double(r);
    assert Shift(Double(r), poly) == Double(Double(r));
    var r2 := Double(Double(r));
    assert Shifts(r, poly, 2) == r2;
    assert Shifts(r2, poly, 2) == Double(Double(r2));
    hide Shift;
    ShiftsCompose(r, poly, 2, 2);
  }

  lemma BelowDoubles(r: bv16)
    requires r <= 0x0FFF
    ensures !Top(r) && !Top(Double(r)) && !Top(Double(Double(r))) && !Top(Double(Double(Double(r))))
    ensures Double(Double(Double(Double(r)))) == UpFourBits(r)
  {
  }

  lemma NibbleAdds(a: bv8, b: bv8)
    requires a < 16 && b < 16
    ensures AddByte(a, b) < 16 && Nibble(AddByte(a, b)) == Xor(Nibble(a), Nibble(b))
  {
  }

  lemma BelowRange(r: bv16)
    ensures Below(r) <= 0x0FFF
  {
  }

  /** One table lookup of crc_m17: feed four bits to the register. */
  lemma M17NibbleFeeds(crc: bv16, t: bv8)
    requires t < 16
    ensures Shifts(Xor(crc, Nibble(t)), POLY_M17, 4)
            == Xor(M17Table(AddByte(TopNibble(crc), t)), UpFourBits(crc))
  {
    hide Xor, Shift, Nibble, TopNibble, Below, UpFourBits, AddByte, M17Table, Shifts, FitsByte;
    var u, l := TopNibble(crc), Below(crc);
    SplitTopNibble(crc);
    BelowRange(crc);
    NibbleAdds(u, t);
    XorAssociates(Nibble(u), l, Nibble(t));
    XorLaws(l, Nibble(t));
    XorAssociates(Nibble(u), Nibble(t), l);
    ShiftsAdd(Nibble(AddByte(u, t)), l, POLY_M17, 4);
    EveryByteFits(AddByte(u, t));
    ShiftsOfNibble(AddByte(u, t), 8);
    BelowMovesUp(l, POLY_M17);
  }

  function UpperNibble(b: bv8): bv8 {
    b >> 4
  }

  function LowerNibble(b: bv8): bv8 {
    b & 0x0F
  }

  lemma SplitByte(b: bv8)
    ensures UpperNibble(b) < 16 && LowerNibble(b) < 16
    ensures High(b) == Xor(Nibble(UpperNibble(b)), High(LowerNibble(b)))
    ensures High(LowerNibble(b)) <= 0x0FFF
    ensures UpFourBits(High(LowerNibble(b))) == Nibble(LowerNibble(b))
  {
  }

  /** Two nibbles make a byte. */
  lemma M17ByteFeeds(crc: bv16, b: bv8)
    ensures Shifts(Xor(crc, High(b)), POLY_M17, 8)
            == Shifts(Xor(Shifts(Xor(crc, Nibble(UpperNibble(b))), POLY_M17, 4), Nibble(LowerNibble(b))), POLY_M17, 4)
  {
    hide Xor, Shift, Nibble, UpFourBits, Shifts, High, UpperNibble, LowerNibble;
    SplitByte(b);
    var n, l := Nibble(UpperNibble(b)), High(LowerNibble(b));
    XorAssociates(crc, n, l);
    ShiftsAdd(Xor(crc, n), l, POLY_M17, 4);
    BelowMovesUp(l, POLY_M17);
    ShiftsCompose(Xor(crc, High(b)), POLY_M17, 4, 4);
  }

  /** The two statements of crc_m17 that look up the table, their index cut to a byte and then to four bits. */
  function M17Lookup(crc: bv16, t: bv8): bv16 {
    var tblIdx := (crc >> 12) as bv8 ^ t;
    M17Table(tblIdx & 0x0F) ^ (crc << 4)
  }

  lemma M17LookupIs(crc: bv16, t: bv8)
    ensures M17Lookup(crc, t) == Xor(M17Table(AddByte(TopNibble(crc), LowerNibble(t))), UpFourBits(crc))
  {
    LookupIndex(crc, t);
    hide M17Table;
  }

  lemma LookupIndex(crc: bv16, t: bv8)
    ensures ((crc >> 12) as bv8 ^ t) & 0x0F == AddByte(TopNibble(crc), LowerNibble(t))
  {
  }

  lemma UpperIsLower(b: bv8)
    ensures LowerNibble(UpperNibble(b)) == UpperNibble(b)
  {
  }

  /** crc_m17 is the register with generator 0x5935, started at 0xFFFF, after the message's bits. */
  method CrcM17(data: seq<bv8>) returns (crc: bv16)
    ensures crc == BitCrc(0xFFFF, POLY_M17, MessageBits(data))
  {
    hide M17Lookup, M17Table, BitCrc, Shifts, Xor, High, Nibble, UpperNibble, LowerNibble, TopNibble, AddByte, UpFourBits;
    crc := 0xFFFF;
    EmptyMessage(0xFFFF, POLY_M17, data);
    for i := 0 to |data|
      invariant crc == BitCrc(0xFFFF, POLY_M17, MessageBits(data[..i]))
    {
      var b := data[i];
      MessageSteps(0xFFFF, POLY_M17, data, i);
      M17ByteFeeds(crc, b);
      SplitByte(b);
      UpperIsLower(b);
      M17NibbleFeeds(crc, UpperNibble(b));
      M17LookupIs(crc, UpperNibble(b));
      crc := M17Lookup(crc, UpperNibble(b));
      M17NibbleFeeds(crc, LowerNibble(b));
      M17LookupIs(crc, b);
      crc := M17Lookup(crc, b);
    }
  }

  // ---------------------------------------------------------------- check values

  /** The two bytes of a CRC, high byte first. */
  function CrcBytes(crc: bv16): seq<bv8> {
    [Upper(crc), Lowest(crc)]
  }

  lemma CrcBytesFeed(r: bv16, poly: bv16, crc: bv16)
    ensures BitCrc(r, poly, MessageBits(CrcBytes(crc))) == Shifts(Xor(r, crc), poly, 16)
  {
    var w := CrcBytes(crc);
    assert w[..2] == w && w[..1] == [Upper(crc)];
    EmptyMessage(r, poly, w);
    MessageSteps(r, poly, w, 0);
    MessageSteps(r, poly, w, 1);
    hide Xor, Shift, High, Low, Upper, Lowest, BitCrc, Shifts;
    var u, l := Upper(crc), Lowest(crc);
    SplitHalves(crc);
    XorAssociates(r, High(u), Low(l));
    ShiftsAdd(Xor(r, High(u)), Low(l), poly, 8);
    LowMovesUp(l, poly);
    ShiftsCompose(Xor(r, crc), poly, 8, 8);
  }

  lemma {:induction false} MessageBitsConcat(a: seq<bv8>, b: seq<bv8>)
    ensures MessageBits(a + b) == MessageBits(a) + MessageBits(b)
  {
    hide ByteBits;
    if |b| == 0 {
      assert a + b == a;
    } else {
      MessageBitsConcat(a, b[..|b| - 1]);
      assert (a + b)[..|a + b| - 1] == a + b[..|b| - 1];
    }
  }

  /** A message followed by two bytes leaves the register at zero exactly when the bytes are its CRC. */
  lemma CrcAppendedIsZero(data: seq<bv8>, crc: bv16)
    ensures BitCrc(0, POLY_CCITT, MessageBits(data + CrcBytes(crc))) == 0
            <==> crc == BitCrc(0, POLY_CCITT, MessageBits(data))
  {
    hide Xor, BitCrc, Shifts, CrcBytes, Odd;
    var r := BitCrc(0, POLY_CCITT, MessageBits(data));
    MessageBitsConcat(data, CrcBytes(crc));
    BitCrcConcat(0, POLY_CCITT, MessageBits(data), MessageBits(CrcBytes(crc)));
    CrcBytesFeed(r, POLY_CCITT, crc);
    PolysAreOdd();
    ShiftsAreInjective(Xor(r, crc), POLY_CCITT, 16);
    XorZero(r, crc);
  }

  /**
   A message with its CRC that suffers a burst of at most 16 bits, anywhere in the message
   or the CRC itself, no longer checks.
   */
  lemma BurstIsDetected(data: seq<bv8>, data': seq<bv8>, crc': bv16, a: nat)
    requires |data| == |data'|
    requires var sent := MessageBits(data + CrcBytes(BitCrc(0, POLY_CCITT, MessageBits(data))));
             var got := MessageBits(data' + CrcBytes(crc'));
             && |sent| == |got| && sent != got
             && forall i | 0 <= i < |sent| && sent[i] != got[i] :: a <= i < a + 16
    ensures crc' != BitCrc(0, POLY_CCITT, MessageBits(data'))
  {
    hide BitCrc, CrcBytes, Odd;
    var crc := BitCrc(0, POLY_CCITT, MessageBits(data));
    CrcAppendedIsZero(data, crc);
    CrcAppendedIsZero(data', crc');
    PolysAreOdd();
    BurstChangesCrc(0, POLY_CCITT, MessageBits(data + CrcBytes(crc)), MessageBits(data' + CrcBytes(crc')), a);
  }

  /** On messages of equal length crc_ccitt is linear. */
  lemma CcittIsLinear(a: seq<bv8>, b: seq<bv8>, c: seq<bv8>)
    requires |a| == |b| == |c|
    requires forall i | 0 <= i < |a| :: c[i] == AddByte(a[i], b[i])
    ensures BitCrc(0, POLY_CCITT, MessageBits(c))
            == Xor(BitCrc(0, POLY_CCITT, MessageBits(a)), BitCrc(0, POLY_CCITT, MessageBits(b)))
  {
    hide BitCrc, Xor, AddByte;
    MessageBitsAdd(a, b, c);
    BitCrcAdds(0, 0, POLY_CCITT, MessageBits(a), MessageBits(b));
    XorLaws(0, 0);
  }

  lemma {:induction false} MessageBitsAdd(a: seq<bv8>, b: seq<bv8>, c: seq<bv8>)
    requires |a| == |b| == |c|
    requires forall i | 0 <= i < |a| :: c[i] == AddByte(a[i], b[i])
    ensures MessageBits(c) == XorBits(MessageBits(a), MessageBits(b))
  {
    hide AddByte, LeadingBits;
    if |a| > 0 {
      var n := |a| - 1;
      MessageBitsAdd(a[..n], b[..n], c[..n]);
      LeadingBitsAdd(a[n], b[n], 8);
      XorBitsConcat(MessageBits(a[..n]), ByteBits(a[n]), MessageBits(b[..n]), ByteBits(b[n]));
    }
  }

  lemma XorBitsConcat(a: seq<bool>, a': seq<bool>, b: seq<bool>, b': seq<bool>)
    requires |a| == |b| && |a'| == |b'|
    ensures XorBits(a + a', b + b') == XorBits(a, b) + XorBits(a', b')
  {
  }

  lemma LeadingAdds(a: bv8, b: bv8)
    ensures Leading(AddByte(a, b)) == (Leading(a) != Leading(b))
    ensures Up(AddByte(a, b)) == AddByte(Up(a), Up(b))
  {
  }

  lemma {:induction false} LeadingBitsAdd(a: bv8, b: bv8, n: nat)
    ensures LeadingBits(AddByte(a, b), n) == XorBits(LeadingBits(a, n), LeadingBits(b, n))
    decreases n
  {
    hide Up, Leading, AddByte;
    if n == 0 {
      assert LeadingBits(a, n) == LeadingBits(b, n) == LeadingBits(AddByte(a, b), n) == [];
    } else {
      LeadingBitsAdd(Up(a), Up(b), n - 1);
      LeadingAdds(a, b);
      XorBitsConcat([Leading(a)], LeadingBits(Up(a), n - 1), [Leading(b)], LeadingBits(Up(b), n - 1));
      assert LeadingBits(AddByte(a, b), n) == [Leading(a) != Leading(b)] + LeadingBits(AddByte(Up(a), Up(b)), n - 1);
      assert XorBits([Leading(a)], [Leading(b)]) == [Leading(a) != Leading(b)];
      assert LeadingBits(a, n) == [Leading(a)] + LeadingBits(Up(a), n - 1);
      assert LeadingBits(b, n) == [Leading(b)] + LeadingBits(Up(b), n - 1);
    }
  }

  // ---------------------------------------------------------------- published check values

  /** The nine characters for which check values of CRCs are published. */
  const CHECKED: seq<bv8> := [0x31, 0x32, 0x33, 0x34, 0x35, 0x36, 0x37, 0x38, 0x39]

  lemma CcittByteIs(r: bv16, b: bv8, r': bv16)
    requires CcittUpdate(r, b) == r'
    ensures Shifts(Xor(r, High(b)), POLY_CCITT, 8) == r'
  {
    CcittByteFeeds(r, b);
    CcittUpdateIsTrick(r, b);
    hide CcittUpdate, Shifts, Xor, High, Lowest, Trick;
  }

  lemma M17ByteIs(r: bv16, b: bv8, r': bv16)
    requires M17Lookup(M17Lookup(r, UpperNibble(b)), b) == r'
    ensures Shifts(Xor(r, High(b)), POLY_M17, 8) == r'
  {
    hide M17Lookup, M17Table, Shifts, Xor, High, Nibble, UpperNibble, LowerNibble, TopNibble, AddByte, UpFourBits;
    M17ByteFeeds(r, b);
    SplitByte(b);
    UpperIsLower(b);
    M17NibbleFeeds(r, UpperNibble(b));
    M17LookupIs(r, UpperNibble(b));
    M17NibbleFeeds(M17Lookup(r, UpperNibble(b)), LowerNibble(b));
    M17LookupIs(M17Lookup(r, UpperNibble(b)), b);
  }

  /** One byte after another. */
  lemma NineBytes(r: bv16, poly: bv16, rs: seq<bv16>)
    requires |rs| == 10 && rs[0] == r && forall i | 0 <= i < 9 :: Shifts(Xor(rs[i], High(CHECKED[i])), poly, 8) == rs[i + 1]
    ensures BitCrc(r, poly, MessageBits(CHECKED)) == rs[9]
  {
    NineSteps(r, poly, rs, 9);
    assert CHECKED[..9] == CHECKED;
  }

  lemma {:induction false} NineSteps(r: bv16, poly: bv16, rs: seq<bv16>, n: nat)
    requires |rs| == 10 && rs[0] == r && forall i | 0 <= i < 9 :: Shifts(Xor(rs[i], High(CHECKED[i])), poly, 8) == rs[i + 1]
    requires n <= 9
    ensures BitCrc(r, poly, MessageBits(CHECKED[..n])) == rs[n]
  {
    hide BitCrc, ByteBits, Shifts, Xor, High, MessageBits;
    if n > 0 {
      NineSteps(r, poly, rs, n - 1);
      MessageSteps(r, poly, CHECKED, n - 1);
    } else {
      EmptyMessage(r, poly, CHECKED);
    }
  }

  lemma CcittCheckValue()
    ensures BitCrc(0, 0x1021, MessageBits(CHECKED)) == 0x31C3
  {
    hide BitCrc, ByteBits, MessageBits, Shifts, Xor, High;
    CcittByteIs(0x0000, 0x31, 0x2672);
    CcittByteIs(0x2672, 0x32, 0x20B5);
    CcittByteIs(0x20B5, 0x33, 0x9752);
    CcittByteIs(0x9752, 0x34, 0xD789);
    CcittByteIs(0xD789, 0x35, 0x546C);
    CcittByteIs(0x546C, 0x36, 0x20E4);
    CcittByteIs(0x20E4, 0x37, 0x86D6);
    CcittByteIs(0x86D6, 0x38, 0x9015);
    CcittByteIs(0x9015, 0x39, 0x31C3);
    NineBytes(0, POLY_CCITT, [0x0000, 0x2672, 0x20B5, 0x9752, 0xD789, 0x546C, 0x20E4, 0x86D6, 0x9015, 0x31C3]);
  }

  lemma M17CheckValue()
    ensures BitCrc(0xFFFF, 0x5935, MessageBits(CHECKED)) == 0x772B
  {
    hide BitCrc, ByteBits, MessageBits, Shifts, Xor, High;
    M17ByteIs(0xFFFF, 0x31, 0x5498);
    M17ByteIs(0x5498, 0x32, 0x94F9);
    M17ByteIs(0x94F9, 0x33, 0xF31D);
    M17ByteIs(0xF31D, 0x34, 0x946F);
    M17ByteIs(0x946F, 0x35, 0xEA96);
    M17ByteIs(0xEA96, 0x36, 0x7876);
    M17ByteIs(0x7876, 0x37, 0xEE33);
    M17ByteIs(0xEE33, 0x38, 0x14DE);
    M17ByteIs(0x14DE, 0x39, 0x772B);
    NineBytes(0xFFFF, POLY_M17, [0xFFFF, 0x5498, 0x94F9, 0xF31D, 0x946F, 0xEA96, 0x7876, 0xEE33, 0x14DE, 0x772B]);
  }
}
