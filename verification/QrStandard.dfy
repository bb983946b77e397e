/**
 What a reader of QR symbols goes by, after ISO/IEC 18004:2015: the masks of section 7.8.2, the
 places and words of the format information of section 7.9 and annex C, and the path of
 section 7.7.3. Nothing here comes from the encoder, whose results are compared with it.
 */
module QrStandard {

  // ---------------------------------------------------------------- masks

  /**
   The modules that a mask inverts, by the remainders of column and row: the drawings of the
   masks, which repeat every 2, 3, 4 or 6 modules.
   */
  predicate Pattern(mask: nat, x: nat, y: nat) {
    match mask
    case 0 => x % 2 == y % 2
    case 1 => y % 2 == 0
    case 2 => x % 3 == 0
    case 3 => x % 3 + y % 3 == 0 || x % 3 + y % 3 == 3
    case 4 => (x % 6 < 3) == (y % 4 < 2)
    case 5 => x * y % 6 == 0
    case 6 => x * y % 6 < 3
    case 7 => (x % 2 == y % 2) == (x * y % 3 != 1)
    case _ => false
  }

  /** Inverting those modules that the function patterns leave free. */
  function Unmasked(cells: seq<bool>, f: seq<bool>, size: nat, mask: nat): (r: seq<bool>)
    requires size > 0 && size * size <= |f|
    ensures |r| == |cells|
  {
    seq(|cells|, p requires 0 <= p < |cells| =>
      cells[p] != (p < size * size && !f[p] && Pattern(mask, p % size, p / size)))
  }

  // ---------------------------------------------------------------- format information

  /**
   Column and row of the bits of the first copy, from the most significant one: to the right along
   row 8 and then up column 8, around the finder pattern and past the timing patterns.
   */
  function FirstCopy(i: nat): (nat, nat)
    requires i < 15
  {
    if i < 6 then (i, 8) else if i == 6 then (7, 8) else if i == 7 then (8, 8) else if i == 8 then (8, 7) else (8, 14 - i)
  }

  /** The second copy: upwards from the lower edge, then to the right edge. */
  function SecondCopy(size: nat, i: nat): (nat, nat)
    requires size >= 21 && i < 15
  {
    if i < 7 then (8, size - 1 - i) else (size - 15 + i, 8)
  }

  /** Table C.1: the words for the five data bits 0 to 31, masked. */
  const FORMAT_WORDS: seq<bv16> := [
    0x5412, 0x5125, 0x5E7C, 0x5B4B, 0x45F9, 0x40CE, 0x4F97, 0x4AA0,
    0x77C4, 0x72F3, 0x7DAA, 0x789D, 0x662F, 0x6318, 0x6C41, 0x6976,
    0x1689, 0x13BE, 0x1CE7, 0x19D0, 0x0762, 0x0255, 0x0D0C, 0x083B,
    0x355F, 0x3068, 0x3F31, 0x3A06, 0x24B4, 0x2183, 0x2EDA, 0x2BED
  ]

  /** Bit i of a format word, counted from the most significant of the 15. */
  predicate WordBit(w: bv16, i: nat)
    requires i < 15
  {
    match i
    case 0 => w & 0x4000 != 0
    case 1 => w & 0x2000 != 0
    case 2 => w & 0x1000 != 0
    case 3 => w & 0x0800 != 0
    case 4 => w & 0x0400 != 0
    case 5 => w & 0x0200 != 0
    case 6 => w & 0x0100 != 0
    case 7 => w & 0x0080 != 0
    case 8 => w & 0x0040 != 0
    case 9 => w & 0x0020 != 0
    case 10 => w & 0x0010 != 0
    case 11 => w & 0x0008 != 0
    case 12 => w & 0x0004 != 0
    case 13 => w & 0x0002 != 0
    case _ => w & 0x0001 != 0
  }

  predicate Dark(cells: seq<bool>, size: nat, at: (nat, nat)) {
    at.1 * size + at.0 < |cells| && cells[at.1 * size + at.0]
  }

  /** The mask number is in the third to fifth bits, of which the fixed pattern inverts the outer two. */
  function MaskRead(cells: seq<bool>, size: nat): (mask: nat)
    ensures mask < 8
  {
      (if Dark(cells, size, (2, 8)) then 0 else 4)
    + (if Dark(cells, size, (3, 8)) then 2 else 0)
    + (if Dark(cells, size, (4, 8)) then 0 else 1)
  }

  // ---------------------------------------------------------------- the path

  /** A module on the path, whether the path goes up there, and whether it is the right one of two. */
  datatype Step = Step(x: int, y: int, up: bool, right: bool)

  /** To the left module of the pair; then to the pair above or below; at the edge to the next two columns and back. */
  function Next(s: Step, size: nat): Step {
    if s.right then s.(x := s.x - 1, right := false)
    else if s.up && s.y > 0 then Step(s.x + 1, s.y - 1, true, true)
    else if !s.up && s.y < size - 1 then Step(s.x + 1, s.y + 1, false, true)
    else Step(if s.x - 1 == 6 then 5 else s.x - 1, s.y, !s.up, true)
  }

  /** The path starts upwards in the lower right corner. */
  function Path(size: nat, n: nat): Step {
    if n == 0 then Step(size - 1, size - 1, true, true) else Next(Path(size, n - 1), size)
  }

  /** The contents of the free modules among the first n of the path. */
  function PathBits(cells: seq<bool>, f: seq<bool>, size: nat, n: nat): seq<bool> {
    if n == 0 then []
    else
      var s := Path(size, n - 1);
      var p := s.y * size + s.x;
      PathBits(cells, f, size, n - 1) + if 0 <= p < |f| && p < |cells| && !f[p] then [cells[p]] else []
  }

  // ---------------------------------------------------------------- interleaving

  /** Byte k of each of the first n blocks that has one (section 7.6). */
  function Turn(blocks: seq<seq<bv8>>, k: nat, n: nat): (r: seq<bv8>)
    requires n <= |blocks|
    ensures |r| <= n
  {
    if n == 0 then [] else Turn(blocks, k, n - 1) + if k < |blocks[n - 1]| then [blocks[n - 1][k]] else []
  }

  /** The blocks byte by byte in turn, their first m bytes. */
  function Turns(blocks: seq<seq<bv8>>, m: nat): seq<bv8> {
    if m == 0 then [] else Turns(blocks, m - 1) + Turn(blocks, m - 1, |blocks|)
  }
}
