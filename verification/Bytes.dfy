/** Bytes as numbers, and little-endian integers. */
module Bytes {

  type Byte = b: int | 0 <= b < 256

  /** v in n bytes, least significant first; what does not fit is cut off. */
  function LittleEndian(v: nat, n: nat): (r: seq<Byte>)
    ensures |r| == n
  {
    if n == 0 then [] else [v % 256] + LittleEndian(v / 256, n - 1)
  }

  function FromLittleEndian(b: seq<Byte>): nat {
    if |b| == 0 then 0 else b[0] + 256 * FromLittleEndian(b[1..])
  }

  function Pow256(n: nat): nat {
    if n == 0 then 1 else 256 * Pow256(n - 1)
  }

  lemma {:induction false} LittleEndianReadBack(v: nat, n: nat)
    requires v < Pow256(n)
    ensures FromLittleEndian(LittleEndian(v, n)) == v
  {
    if n > 0 {
      LittleEndianReadBack(v / 256, n - 1);
      assert LittleEndian(v, n)[1..] == LittleEndian(v / 256, n - 1);
    }
  }

  lemma SmallPowers256()
    ensures Pow256(2) == 0x10000 && Pow256(4) == 0x1_0000_0000 && Pow256(8) == 0x1_0000_0000_0000_0000
  {
    assert Pow256(1) == 256;
    assert Pow256(3) == 0x1000000;
    assert Pow256(5) == 0x100_0000_0000;
    assert Pow256(6) == 0x1_0000_0000_0000;
    assert Pow256(7) == 0x100_0000_0000_0000;
  }
}
