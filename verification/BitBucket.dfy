/**
 The bit buffer of the QR encoder, used both as a growing stream of bits and as a square grid
 of modules. Bytes are filled from their most significant bit.
 */
module BitBuckets {
  import opened NonLinear

  /** 1 << (7 - p) for a bit position p counted from the most significant end. */
  function Mask(p: nat): bv8
    requires p < 8
  {
    match p
    case 0 => 0x80
    case 1 => 0x40
    case 2 => 0x20
    case 3 => 0x10
    case 4 => 0x08
    case 5 => 0x04
    case 6 => 0x02
    case _ => 0x01
  }

  predicate TestBit(b: bv8, p: nat)
    requires p < 8
  {
    b & Mask(p) != 0
  }

  function RaiseBit(b: bv8, p: nat): bv8
    requires p < 8
  {
    b | Mask(p)
  }

  function LowerBit(b: bv8, p: nat): bv8
    requires p < 8
  {
    b & !Mask(p)
  }

  lemma RaiseBitTests(b: bv8, p: nat, q: nat)
    requires p < 8 && q < 8
    ensures TestBit(RaiseBit(b, p), q) == (p == q || TestBit(b, q))
  {
  }

  lemma LowerBitTests(b: bv8, p: nat, q: nat)
    requires p < 8 && q < 8
    ensures TestBit(LowerBit(b, p), q) == (p != q && TestBit(b, q))
  {
  }

  lemma ZeroTests(q: nat)
    requires q < 8
    ensures !TestBit(0, q)
  {
  }

  /** The bits of a byte buffer, in order. */
  function AllBits(s: seq<bv8>): (r: seq<bool>)
    ensures |r| == 8 * |s|
  {
    seq(8 * |s|, k requires 0 <= k < 8 * |s| => TestBit(s[k / 8], k % 8))
  }

  lemma AllBitsRaise(s: seq<bv8>, k: nat)
    requires k < 8 * |s|
    ensures AllBits(s[k / 8 := RaiseBit(s[k / 8], k % 8)]) == AllBits(s)[k := true]
  {
    hide RaiseBit, TestBit;
    var t := s[k / 8 := RaiseBit(s[k / 8], k % 8)];
    forall j | 0 <= j < 8 * |s|
      ensures TestBit(t[j / 8], j % 8) == AllBits(s)[k := true][j]
    {
      RaiseBitTests(s[k / 8], k % 8, j % 8);
    }
  }

  lemma AllBitsLower(s: seq<bv8>, k: nat)
    requires k < 8 * |s|
    ensures AllBits(s[k / 8 := LowerBit(s[k / 8], k % 8)]) == AllBits(s)[k := false]
  {
    hide LowerBit, TestBit;
    var t := s[k / 8 := LowerBit(s[k / 8], k % 8)];
    forall j | 0 <= j < 8 * |s|
      ensures TestBit(t[j / 8], j % 8) == AllBits(s)[k := false][j]
    {
      LowerBitTests(s[k / 8], k % 8, j % 8);
    }
  }

  /** The low n bits of v, most significant first. */
  function ValueBits(v: nat, n: nat): (r: seq<bool>)
    ensures |r| == n
  {
    if n == 0 then [] else ValueBits(v / 2, n - 1) + [v % 2 == 1]
  }

  function Pow2(n: nat): nat {
    if n == 0 then 1 else 2 * Pow2(n - 1)
  }

  /** The number written by a sequence of bits, most significant first. */
  function BitsValue(b: seq<bool>): nat {
    if |b| == 0 then 0 else 2 * BitsValue(b[..|b| - 1]) + (if b[|b| - 1] then 1 else 0)
  }

  /** A number that n bits can hold is read back from them. */
  lemma {:induction false} ValueBitsReadBack(v: nat, n: nat)
    requires v < Pow2(n)
    ensures BitsValue(ValueBits(v, n)) == v
  {
    if n > 0 {
      ValueBitsReadBack(v / 2, n - 1);
      assert ValueBits(v, n)[..n - 1] == ValueBits(v / 2, n - 1);
    }
  }

  lemma {:induction false} Pow2Positive(n: nat)
    ensures Pow2(n) > 0
  {
    if n > 0 {
      Pow2Positive(n - 1);
    }
  }

  /** Bit i of v, as the shift (v >> i) & 1 selects it. */
  function ShiftedBit(v: nat, i: nat): bool {
    Pow2Positive(i);
    v / Pow2(i) % 2 == 1
  }

  lemma {:induction false} ValueBitsAt(v: nat, n: nat, k: nat)
    requires k < n
    ensures ValueBits(v, n)[k] == ShiftedBit(v, n - 1 - k)
  {
    if k < n - 1 {
      ValueBitsAt(v / 2, n - 1, k);
      var i := n - 2 - k;
      Pow2Positive(i);
      HalveThenDivide(v, Pow2(i));
    }
  }

  lemma HalveThenDivide(v: nat, p: nat)
    requires p > 0
    ensures v / 2 / p == v / (2 * p)
  {
    var q, r := v / 2 / p, v / 2 % p;
    assert v / 2 == p * q + r;
    Doubled(p, q);
    DivMod(2 * p, q, 2 * r + v % 2);
  }

  lemma Doubled(p: nat, q: nat)
    ensures 2 * (p * q) == 2 * p * q
  {
  }

  /** A stream with the first n of the new bits written at its end. */
  function Partly(was: seq<bool>, start: nat, bits: seq<bool>, n: nat): (r: seq<bool>)
    requires start + |bits| <= |was| && n <= |bits|
    ensures |r| == |was|
  {
    was[..start] + bits[..n] + was[start + n..]
  }

  lemma PartlyBegins(was: seq<bool>, start: nat, bits: seq<bool>)
    requires start + |bits| <= |was|
    ensures Partly(was, start, bits, 0) == was
  {
  }

  /** Writing bit n at its place, where the stream is still clear. */
  lemma PartlyStep(was: seq<bool>, start: nat, bits: seq<bool>, n: nat)
    requires start + |bits| <= |was| && n < |bits| && !was[start + n]
    ensures Partly(was, start, bits, n + 1)
            == if bits[n] then Partly(was, start, bits, n)[start + n := true] else Partly(was, start, bits, n)
  {
  }

  lemma PartlyEnds(was: seq<bool>, start: nat, bits: seq<bool>)
    requires start + |bits| <= |was|
    ensures Partly(was, start, bits, |bits|)[..start + |bits|] == was[..start] + bits
    ensures forall k | start + |bits| <= k < |was| :: Partly(was, start, bits, |bits|)[k] == was[k]
  {
  }

  class BitBucket {
    var bitOffsetOrWidth: nat
    var data: array<bv8>

    constructor (capacityBytes: nat)
      ensures bitOffsetOrWidth == 0 && fresh(data) && data.Length == capacityBytes
      ensures data[..] == seq(capacityBytes, _ => 0)
    {
      bitOffsetOrWidth := 0;
      data := new bv8[capacityBytes](_ => 0);
    }

    ghost function Cells(): (r: seq<bool>)
      reads this, data
      ensures |r| == 8 * data.Length
    {
      AllBits(data[..])
    }

    // ------------------------------------------------------------ as a stream

    /** A stream: nothing has been written past the offset. */
    ghost predicate IsStream()
      reads this, data
    {
      && bitOffsetOrWidth <= 8 * data.Length
      && forall k | bitOffsetOrWidth <= k < 8 * data.Length :: !Cells()[k]
    }

    ghost function Bits(): (r: seq<bool>)
      requires IsStream()
      reads this, data
    {
      Cells()[..bitOffsetOrWidth]
    }

    method OrBit(k: nat, on: bool)
      requires k < 8 * data.Length
      modifies data
      ensures Cells() == if on then old(Cells())[k := true] else old(Cells())
    {
      if on {
        ghost var before := data[..];
        data[k / 8] := RaiseBit(data[k / 8], k % 8);
        AllBitsRaise(before, k);
        assert data[..] == before[k / 8 := RaiseBit(before[k / 8], k % 8)];
      }
    }

    method AppendBits(val: nat, length: nat)
      requires IsStream()
      requires bitOffsetOrWidth + length <= 8 * data.Length
      modifies this`bitOffsetOrWidth, data
      ensures IsStream() && bitOffsetOrWidth == old(bitOffsetOrWidth) + length
      ensures Bits() == old(Bits()) + ValueBits(val, length)
    {
      hide AllBits, ValueBits, ShiftedBit, Partly;
      ghost var was, start, bits := Cells(), bitOffsetOrWidth, ValueBits(val, length);
      var offset := bitOffsetOrWidth;
      var i := length;
      PartlyBegins(was, start, bits);
      while i > 0
        invariant 0 <= i <= length && bitOffsetOrWidth == start
        invariant offset == start + length - i
        invariant Cells() == Partly(was, start, bits, length - i)
      {
        i := i - 1;
        OrBit(offset, ShiftedBit(val, i));
        ValueBitsAt(val, length, length - 1 - i);
        PartlyStep(was, start, bits, length - 1 - i);
        offset := offset + 1;
      }
      PartlyEnds(was, start, bits);
      bitOffsetOrWidth := offset;
    }

    // ------------------------------------------------------------ as a grid

    /** A square grid of modules, its width in the field that a stream uses for its offset. */
    ghost predicate IsGrid()
      reads this, data
    {
      At(bitOffsetOrWidth, bitOffsetOrWidth, 0) <= 8 * data.Length
    }

    method SetBit(x: nat, y: nat, on: bool)
      requires IsGrid() && x < bitOffsetOrWidth && y < bitOffsetOrWidth
      modifies data
      ensures IsGrid()
      ensures Index(x, y, bitOffsetOrWidth) < 8 * data.Length
      ensures Cells() == old(Cells())[Index(x, y, bitOffsetOrWidth) := on]
    {
      IndexInGrid(x, y, bitOffsetOrWidth);
      var offset := y * bitOffsetOrWidth + x;
      ghost var before := data[..];
      if on {
        data[offset / 8] := RaiseBit(data[offset / 8], offset % 8);
        AllBitsRaise(before, offset);
        assert data[..] == before[offset / 8 := RaiseBit(before[offset / 8], offset % 8)];
      } else {
        data[offset / 8] := LowerBit(data[offset / 8], offset % 8);
        AllBitsLower(before, offset);
        assert data[..] == before[offset / 8 := LowerBit(before[offset / 8], offset % 8)];
      }
    }

    method InvertBit(x: nat, y: nat, invert: bool)
      requires IsGrid() && x < bitOffsetOrWidth && y < bitOffsetOrWidth
      modifies data
      ensures IsGrid()
      ensures Index(x, y, bitOffsetOrWidth) < 8 * data.Length
      ensures Cells() == old(Cells())[Index(x, y, bitOffsetOrWidth) :=
                                      old(Cells())[Index(x, y, bitOffsetOrWidth)] != invert]
    {
      IndexInGrid(x, y, bitOffsetOrWidth);
      var offset := y * bitOffsetOrWidth + x;
      var on := TestBit(data[offset / 8], offset % 8);
      SetBit(x, y, on != invert);
    }

    method GetBit(x: nat, y: nat) returns (on: bool)
      requires IsGrid() && x < bitOffsetOrWidth && y < bitOffsetOrWidth
      ensures Index(x, y, bitOffsetOrWidth) < 8 * data.Length
      ensures on == Cells()[Index(x, y, bitOffsetOrWidth)]
    {
      IndexInGrid(x, y, bitOffsetOrWidth);
      var offset := y * bitOffsetOrWidth + x;
      on := TestBit(data[offset / 8], offset % 8);
    }
  }

  /** The bit that holds module (x, y) of a grid of the given width. */
  function Index(x: nat, y: nat, width: nat): nat {
    At(width, y, x)
  }

  lemma IndexInGrid(x: nat, y: nat, width: nat)
    requires x < width && y < width
    ensures Index(x, y, width) == y * width + x < At(width, width, 0) == width * width
  {
    RowCell(width, y, x, width);
  }

  /** Different modules of a grid use different bits. */
  lemma IndexIsInjective(x: nat, y: nat, x': nat, y': nat, width: nat)
    requires x < width && x' < width
    requires Index(x, y, width) == Index(x', y', width)
    ensures x == x' && y == y'
  {
    RowCell(width, y, x, y + 1);
    RowCell(width, y', x', y' + 1);
  }
}
