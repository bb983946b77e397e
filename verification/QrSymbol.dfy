/**
 The whole QR encoder after the function patterns are drawn, and a scanner for its symbols:
 whatever text goes in, the scanner reads it back from the finished grid.
 */
module QrSymbol {
  import opened NonLinear
  import opened BitBuckets
  import opened QrStandard
  import opened Interleaving
  import opened Placement
  import opened Masking
  import opened TextEncoding
  import opened Bytes

  /** The entries of the version tables that the encoder looks up, and the version itself. */
  datatype Version = Version(version: nat, numBlocks: nat, totalEcc: nat, moduleCount: nat) {
    /** What holds of every row of the tables. */
    ghost predicate Valid() {
      && 0 < numBlocks < 256 && 0 < totalEcc && totalEcc % numBlocks == 0 && totalEcc / numBlocks < 256
      && totalEcc / numBlocks <= moduleCount / 8 / numBlocks < 255
      && 1 <= version <= 40
    }

    function Size(): nat {
      version * 4 + 17
    }

    function DataCapacity(): int {
      moduleCount / 8 - totalEcc
    }

    lemma Capacity()
      requires Valid()
      ensures var l := LayoutOf(numBlocks, totalEcc, moduleCount);
              l.Valid() && l.TotalLen() == moduleCount / 8 && l.DataLen() == DataCapacity() <= l.TotalLen()
    {
      LayoutFillsSymbol(numBlocks, totalEcc, moduleCount);
      assert numBlocks * (totalEcc / numBlocks) == totalEcc;
    }
  }

  // ---------------------------------------------------------------- the scanner

  /** The byte whose bits are b[i..i + 8]. */
  function PackByte(b: seq<bool>, i: nat): bv8
    requires i + 8 <= |b|
  {
      (if b[i] then 0x80 else 0) | (if b[i + 1] then 0x40 else 0)
    | (if b[i + 2] then 0x20 else 0) | (if b[i + 3] then 0x10 else 0)
    | (if b[i + 4] then 0x08 else 0) | (if b[i + 5] then 0x04 else 0)
    | (if b[i + 6] then 0x02 else 0) | (if b[i + 7] then 0x01 else 0)
  }

  function PackBytes(b: seq<bool>, n: nat): (r: seq<bv8>)
    requires 8 * n <= |b|
    ensures |r| == n
  {
    seq(n, k requires 0 <= k < n => PackByte(b, 8 * k))
  }

  lemma PackByteRestores(v: bv8, b: seq<bool>, i: nat)
    requires i + 8 <= |b|
    requires b[i] == (v & 0x80 != 0) && b[i + 1] == (v & 0x40 != 0)
    requires b[i + 2] == (v & 0x20 != 0) && b[i + 3] == (v & 0x10 != 0)
    requires b[i + 4] == (v & 0x08 != 0) && b[i + 5] == (v & 0x04 != 0)
    requires b[i + 6] == (v & 0x02 != 0) && b[i + 7] == (v & 0x01 != 0)
    ensures PackByte(b, i) == v
  {
  }

  lemma PackBytesRestores(s: seq<bv8>, b: seq<bool>, n: nat)
    requires n <= |s| && 8 * n <= |b|
    requires forall i | 0 <= i < 8 * n :: b[i] == AllBits(s)[i]
    ensures PackBytes(b, n) == s[..n]
  {
    hide PackByte, AllBits;
    forall k | 0 <= k < n
      ensures PackByte(b, 8 * k) == s[k]
    {
      ByteRestored(s, b, k);
    }
  }

  lemma ByteRestored(s: seq<bv8>, b: seq<bool>, k: nat)
    requires k < |s| && 8 * k + 8 <= |b|
    requires forall i | 8 * k <= i < 8 * k + 8 :: b[i] == AllBits(s)[i]
    ensures PackByte(b, 8 * k) == s[k]
  {
    hide PackByte, AllBits;
    BitsOfByte(s, k);
    PackByteRestores(s[k], b, 8 * k);
  }

  lemma BitsOfByte(s: seq<bv8>, k: nat)
    requires k < |s|
    ensures var a, i := AllBits(s), 8 * k;
            && a[i] == (s[k] & 0x80 != 0) && a[i + 1] == (s[k] & 0x40 != 0)
            && a[i + 2] == (s[k] & 0x20 != 0) && a[i + 3] == (s[k] & 0x10 != 0)
            && a[i + 4] == (s[k] & 0x08 != 0) && a[i + 5] == (s[k] & 0x04 != 0)
            && a[i + 6] == (s[k] & 0x02 != 0) && a[i + 7] == (s[k] & 0x01 != 0)
  {
    BitsOfMask(s[k]);
    hide TestBit, AllBits;
    BitAt(s, k, 0);
    BitAt(s, k, 1);
    BitAt(s, k, 2);
    BitAt(s, k, 3);
    BitAt(s, k, 4);
    BitAt(s, k, 5);
    BitAt(s, k, 6);
    BitAt(s, k, 7);
  }

  lemma BitAt(s: seq<bv8>, k: nat, j: nat)
    requires k < |s| && j < 8
    ensures AllBits(s)[8 * k + j] == TestBit(s[k], j)
  {
    hide TestBit;
  }

  lemma BitsOfMask(b: bv8)
    ensures TestBit(b, 0) == (b & 0x80 != 0) && TestBit(b, 1) == (b & 0x40 != 0)
    ensures TestBit(b, 2) == (b & 0x20 != 0) && TestBit(b, 3) == (b & 0x10 != 0)
    ensures TestBit(b, 4) == (b & 0x08 != 0) && TestBit(b, 5) == (b & 0x04 != 0)
    ensures TestBit(b, 6) == (b & 0x02 != 0) && TestBit(b, 7) == (b & 0x01 != 0)
  {
  }

  ghost predicate GridFits(v: Version, f: seq<bool>, cells: seq<bool>) {
    var size := v.Size();
    && SymbolSize(size) && At(size, size, 0) <= |f| && At(size, size, 0) <= |cells|
    && v.moduleCount <= FreeBefore(f, size, ScanLength(size))
  }

  /** The path passes every free module outside column 6. */
  lemma BitsOnPath(cells: seq<bool>, f: seq<bool>, size: nat)
    requires SymbolSize(size) && At(size, size, 0) <= |f| && At(size, size, 0) <= |cells|
    ensures |BitsRead(cells, f, size)| == FreeBefore(f, size, ScanLength(size))
    ensures BitsRead(cells, f, size) == ReadBits(cells, f, size, ScanLength(size))
  {
    hide At, ScanLength, PathBits, ReadBits, Pos;
    VisitIsStep(size, ScanLength(size));
    ReadBitsFollowPath(cells, f, size, ScanLength(size));
  }

  /** The symbol without its mask. */
  function PlainCells(cells: seq<bool>, f: seq<bool>, size: nat): (r: seq<bool>)
    requires SymbolSize(size) && At(size, size, 0) <= |f|
    ensures |r| == |cells|
  {
    Unmasked(cells, f, size, MaskRead(cells, size))
  }

  /** All bits along the path. */
  function BitsRead(cells: seq<bool>, f: seq<bool>, size: nat): seq<bool> {
    if size == 0 then [] else PathBits(cells, f, size, size * (size - 1))
  }

  /** The first n bytes along the path. */
  function BytesRead(cells: seq<bool>, f: seq<bool>, size: nat, n: nat): (r: seq<bv8>)
    requires 8 * n <= |BitsRead(cells, f, size)|
    ensures |r| == n
  {
    PackBytes(BitsRead(cells, f, size), n)
  }

  /** Read a finished symbol by the standard's rules: mask number, unmasking, the path, blocks, text. */
  ghost function Scan(v: Version, f: seq<bool>, cells: seq<bool>): Option<seq<Byte>>
    requires v.Valid() && GridFits(v, f, cells)
  {
    v.Capacity();
    var size, l := v.Size(), LayoutOf(v.numBlocks, v.totalEcc, v.moduleCount);
    BitsOnPath(PlainCells(cells, f, size), f, size);
    var out := BytesRead(PlainCells(cells, f, size), f, size, v.moduleCount / 8);
    ReadText(AllBits(Deinterleave(l, out, l.numBlocks)), v.version)
  }

  lemma MaskOfWord(w: bv16, mask: bv16)
    requires mask == ((w ^ 0x5412) >> 10) & 7
    ensures (mask & 1 != 0) == (w & 0x0400 == 0)
    ensures (mask & 2 != 0) == (w & 0x0800 != 0)
    ensures (mask & 4 != 0) == (w & 0x1000 == 0)
  {
  }

  lemma CodeOfMask(mask: nat)
    requires mask < 8
    ensures MaskCode(mask) < 8
    ensures mask == (if MaskCode(mask) & 1 != 0 then 1 else 0) + (if MaskCode(mask) & 2 != 0 then 2 else 0)
                    + (if MaskCode(mask) & 4 != 0 then 4 else 0)
  {
  }

  lemma FieldsAreMask(w: bv16)
    ensures FormatFields(w).1 == ((w ^ 0x5412) >> 10) & 7
    ensures FormatBit(w, 10) == (w & 0x0400 != 0)
    ensures FormatBit(w, 11) == (w & 0x0800 != 0)
    ensures FormatBit(w, 12) == (w & 0x1000 != 0)
  {
  }

  /** The scanner finds the mask that was applied. */
  lemma SeenMaskIsApplied(cells: seq<bool>, f: seq<bool>, size: nat, ecc: bv16, mask: nat)
    requires size >= 21 && mask < 8 && ecc < 4
    requires At(size, size, 0) <= |f| && At(size, size, 0) <= |cells| && FormatReserved(f, size)
    ensures MaskRead(Trial(cells, f, size, ecc, mask), size) == mask
  {
    hide At, FormatPos, FormatDrawn, FormatWord, FormatData, Masked, FormatBit, FormatFields, MaskCode;
    var code := MaskCode(mask);
    var w := FormatWord(FormatData(ecc, code));
    var drawn := FormatDrawn(cells, size, w, 31);
    CodeOfMask(mask);
    FormatFieldsReadBack(ecc, code);
    FieldsAreMask(w);
    MaskOfWord(w, code);
    SeenThroughMask(drawn, f, size, mask, w, 10, cells);
    SeenThroughMask(drawn, f, size, mask, w, 11, cells);
    SeenThroughMask(drawn, f, size, mask, w, 12, cells);
    FormatPlace(size, w, 10, (4, 8));
    FormatPlace(size, w, 11, (3, 8));
    FormatPlace(size, w, 12, (2, 8));
    hide FormatSeen;
  }

  lemma SeenThroughMask(drawn: seq<bool>, f: seq<bool>, size: nat, mask: nat, w: bv16, i: nat, cells: seq<bool>)
    requires size >= 21 && i < 15
    requires At(size, size, 0) <= |f| && At(size, size, 0) <= |cells| && FormatReserved(f, size)
    requires drawn == FormatDrawn(cells, size, w, 31)
    ensures FormatSeen(Masked(drawn, f, size, mask), size, i).0 == FormatBit(w, i)
  {
    hide At, FormatPos, FormatDrawn, Masked, FormatBit;
    FormatIsSeen(cells, size, w, i);
    MaskedKeepsFunctionModules(drawn, f, size, mask, FormatPos(size, i));
  }

  /** What the scan reads does not depend on function modules. */
  lemma {:induction false} ReadBitsIgnores(a: seq<bool>, b: seq<bool>, f: seq<bool>, size: nat, n: nat)
    requires SymbolSize(size) && n <= ScanLength(size)
    requires At(size, size, 0) <= |f| && At(size, size, 0) <= |a| && |a| == |b|
    requires forall p | 0 <= p < At(size, size, 0) && !f[p] :: a[p] == b[p]
    ensures ReadBits(a, f, size, n) == ReadBits(b, f, size, n)
  {
    hide Pos, At, ScanLength;
    if n > 0 {
      ReadBitsIgnores(a, b, f, size, n - 1);
    }
  }

  /** Unmasking a finished symbol and scanning it gives the placed bits. */
  lemma TrialIsReadBack(cells: seq<bool>, f: seq<bool>, size: nat, bits: seq<bool>, ecc: bv16, mask: nat)
    requires SymbolSize(size) && mask < 8
    requires At(size, size, 0) <= |f| && At(size, size, 0) <= |cells| && FormatReserved(f, size)
    requires |bits| <= FreeBefore(f, size, ScanLength(size))
    ensures var placed := Placed(cells, f, size, bits, ScanLength(size));
            var plain := Masked(Trial(placed, f, size, ecc, mask), f, size, mask);
            var r := ReadBits(plain, f, size, ScanLength(size));
            |bits| <= |r| && forall i | 0 <= i < |bits| :: r[i] == bits[i]
  {
    hide At, FormatPos, FormatDrawn, FormatWord, FormatData, Masked, Placed, ReadBits, FreeBefore, MaskCode, ScanLength;
    var placed := Placed(cells, f, size, bits, ScanLength(size));
    var w := FormatWord(FormatData(ecc, MaskCode(mask)));
    var drawn := FormatDrawn(placed, size, w, 31);
    MaskedTwice(drawn, f, size, mask);
    forall p | 0 <= p < At(size, size, 0) && !f[p]
      ensures drawn[p] == placed[p]
    {
      FormatDrawnKeeps(placed, size, w, 31, p);
    }
    ReadBitsIgnores(drawn, placed, f, size, ScanLength(size));
    ReadBackPlaced(cells, f, size, bits, ScanLength(size));
  }

  /** Both copies of the format and the dark module are on the symbol as the standard has them. */
  ghost predicate HasFormat(cells: seq<bool>, size: nat, ecc: bv16, mask: nat)
    requires size >= 21 && ecc < 4 && mask < 8
  {
    Dark(cells, size, (8, size - 8)) &&
    forall i: nat | i < 15 ::
      Dark(cells, size, FirstCopy(i)) == WordBit(FormatOf(ecc, mask), i) == Dark(cells, size, SecondCopy(size, i))
  }

  /** The standard's word for a level and a mask. */
  function FormatOf(ecc: bv16, mask: nat): bv16
    requires ecc < 4 && mask < 8
  {
    FORMAT_WORDS[mask + if ecc == 0 then 0 else if ecc == 1 then 8 else if ecc == 2 then 16 else 24]
  }

  lemma TrialHasFormat(cells: seq<bool>, f: seq<bool>, size: nat, ecc: bv16, mask: nat)
    requires size >= 21 && mask < 8 && ecc < 4
    requires At(size, size, 0) <= |f| && At(size, size, 0) <= |cells| && FormatReserved(f, size)
    ensures HasFormat(Trial(cells, f, size, ecc, mask), size, ecc, mask)
  {
    hide At, FormatPos, FormatDrawn, FormatWord, FormatData, Masked, FORMAT_WORDS, MaskCode, FirstCopy, SecondCopy, WordBit,
         DataNumber, FormatWrite, FormatBit, Dark, FormatOf;
    var code := MaskCode(mask);
    CodeOfMask(mask);
    NumberOfData(ecc, mask);
    var w := FormatWord(FormatData(ecc, code));
    var drawn := FormatDrawn(cells, size, w, 31);
    forall i: nat | i < 15
      ensures Dark(Masked(drawn, f, size, mask), size, FirstCopy(i)) == WordBit(FormatOf(ecc, mask), i)
              == Dark(Masked(drawn, f, size, mask), size, SecondCopy(size, i))
    {
      FormatIsStandard(cells, size, ecc, code, i);
      PlacesAre(size, w, i);
      FormatStays(drawn, f, size, mask, w, 14 - i, FirstCopy(i));
      FormatStays(drawn, f, size, mask, w, 29 - i, SecondCopy(size, i));
    }
    FormatIsStandard(cells, size, ecc, code, 0);
    PlacesAre(size, w, 0);
    FormatStays(drawn, f, size, mask, w, 30, (8, size - 8));
  }

  lemma NumberOfData(ecc: bv16, mask: nat)
    requires ecc < 4 && mask < 8 && MaskCode(mask) < 8
    ensures FORMAT_WORDS[DataNumber(ecc, MaskCode(mask))] == FormatOf(ecc, mask)
  {
    hide FORMAT_WORDS;
  }

  lemma FormatStays(drawn: seq<bool>, f: seq<bool>, size: nat, mask: nat, w: bv16, k: nat, at: (nat, nat))
    requires size >= 21 && k < 31 && FormatWrite(size, w, k).x == at.0 && FormatWrite(size, w, k).y == at.1
    requires At(size, size, 0) <= |f| && At(size, size, 0) <= |drawn| && FormatReserved(f, size)
    ensures Dark(Masked(drawn, f, size, mask), size, at) == Dark(drawn, size, at)
  {
    hide At, FormatWrite, Masked;
    FormatPlace(size, w, k, at);
    MaskedKeepsFunctionModules(drawn, f, size, mask, FormatPos(size, k));
  }

  lemma AllBitsPrefix(s: seq<bv8>, n: nat)
    requires n <= |s|
    ensures AllBits(s[..n]) == AllBits(s)[..8 * n]
  {
    hide TestBit;
  }

  /** A finished symbol with one mask taken off and another applied, and its format drawn accordingly. */
  function UnderMask(cells: seq<bool>, f: seq<bool>, size: nat, ecc: bv16, mask: nat, other: nat): seq<bool>
    requires size >= 21 && mask < 8 && other < 8
    requires At(size, size, 0) <= |f| && At(size, size, 0) <= |cells|
  {
    Trial(Masked(cells, f, size, mask), f, size, ecc, other)
  }

  /** It is the symbol that the other mask would have given in the first place. */
  lemma TrialUnderMask(cells: seq<bool>, f: seq<bool>, size: nat, ecc: bv16, mask: nat, other: nat)
    requires size >= 21 && mask < 8 && other < 8
    requires At(size, size, 0) <= |f| && At(size, size, 0) <= |cells|
    ensures UnderMask(Trial(cells, f, size, ecc, mask), f, size, ecc, mask, other) == Trial(cells, f, size, ecc, other)
  {
    hide At, FormatDrawn, FormatWord, FormatData, Masked, MaskCode;
    var w, w' := FormatWord(FormatData(ecc, MaskCode(mask))), FormatWord(FormatData(ecc, MaskCode(other)));
    MaskedTwice(FormatDrawn(cells, size, w, 31), f, size, mask);
    FormatRedrawn(cells, size, w, w');
  }

  /** The scanner recovers the text from the symbol built for it, under any mask. */
  lemma ScanRecoversText(v: Version, text: seq<Byte>, data: seq<bv8>, sent: seq<bv8>,
                         cells: seq<bool>, f: seq<bool>, ecc: bv16, mask: nat)
    requires v.Valid() && GridFits(v, f, cells) && FormatReserved(f, v.Size()) && mask < 8 && ecc < 4
    requires |text| < Pow2(GetModeBits(v.version, ModeOf(text)))
    requires |TextBits(text, v.version)| <= 8 * v.DataCapacity()
    requires v.DataCapacity() <= |data|
    requires AllBits(data)[..8 * v.DataCapacity()]
             == TextBits(text, v.version) + Padding(|TextBits(text, v.version)|, v.DataCapacity())
    requires 8 * |sent| >= v.moduleCount
    requires var l := LayoutOf(v.numBlocks, v.totalEcc, v.moduleCount);
             l.Valid() && l.DataLen() <= |data| && l.Interleaved(data) <= sent
    ensures var size := v.Size();
            var placed := Placed(cells, f, size, AllBits(sent)[..v.moduleCount], ScanLength(size));
            Scan(v, f, Trial(placed, f, size, ecc, mask)) == Some(text)
  {
    hide At, FormatReserved, Masked, Placed, ReadBits, FreeBefore, MaskCode, ScanLength, Trial, AllBits, PackBytes,
      MaskRead, Unmasked, BitsRead, Deinterleave, ReadText, TextBits, Padding, Layout.Interleaved, LayoutOf, Layout.DataLen, Layout.TotalLen;
    v.Capacity();
    var size, l, raw := v.Size(), LayoutOf(v.numBlocks, v.totalEcc, v.moduleCount), v.moduleCount / 8;
    var bits := AllBits(sent)[..v.moduleCount];
    var placed := Placed(cells, f, size, bits, ScanLength(size));
    SeenMaskIsApplied(placed, f, size, ecc, mask);
    TrialIsReadBack(cells, f, size, bits, ecc, mask);
    var plain := Masked(Trial(placed, f, size, ecc, mask), f, size, mask);
    PackBytesRestores(sent, ReadBits(plain, f, size, ScanLength(size)), raw);
    MaskedIsStandard(Trial(placed, f, size, ecc, mask), f, size, mask);
    BitsOnPath(plain, f, size);
    var out := PackBytes(ReadBits(plain, f, size, ScanLength(size)), raw);
    assert l.Interleaved(data) <= out;
    l.BlocksEnd();
    DeinterleaveRestores(l, data, out, l.numBlocks);
    AllBitsPrefix(data, l.DataLen());
    TextReadBack(text, v.version, Padding(|TextBits(text, v.version)|, v.DataCapacity()));
  }

  // ---------------------------------------------------------------- the encoder

  /**
   qrcode_initBytes from the point where the function patterns are on the grid. The penalty
   of a grid is a parameter; any scoring gives a readable symbol.
   */
  method InitBytes(v: Version, ecc: bv16, text: seq<Byte>, modules: BitBucket, isFunction: BitBucket,
                   penalty: seq<bool> -> nat)
    returns (mode: nat, mask: nat, ghost penalties: seq<nat>)
    requires v.Valid() && ecc < 4
    requires modules.IsGrid() && isFunction.IsGrid() && modules.data != isFunction.data
    requires modules.bitOffsetOrWidth == isFunction.bitOffsetOrWidth == v.Size()
    requires GridFits(v, isFunction.Cells(), modules.Cells()) && FormatReserved(isFunction.Cells(), v.Size())
    requires |text| < Pow2(GetModeBits(v.version, ModeOf(text)))
    requires |TextBits(text, v.version)| <= 8 * v.DataCapacity()
    requires forall g :: penalty(g) < 0x7FFFFFFF
    modifies modules.data, isFunction.data
    ensures mode == ModeOf(text) && mask < 8
    ensures GridFits(v, isFunction.Cells(), modules.Cells())
    ensures |penalties| == 8
    ensures forall i: nat | i < 8 :: penalties[mask] <= penalties[i] && (i < mask ==> penalties[mask] < penalties[i])
    ensures forall i: nat | i < 8 ::
              penalties[i] == penalty(UnderMask(modules.Cells(), isFunction.Cells(), v.Size(), ecc, mask, i))
    ensures UnderMask(modules.Cells(), isFunction.Cells(), v.Size(), ecc, mask, mask) == modules.Cells()
    ensures isFunction.Cells() == old(isFunction.Cells())
    ensures forall p: nat | p < |isFunction.Cells()| && p < |modules.Cells()| && isFunction.Cells()[p]
              && !IsFormatPos(v.Size(), p) :: modules.Cells()[p] == old(modules.Cells())[p]
    ensures HasFormat(modules.Cells(), v.Size(), ecc, mask)
    ensures Scan(v, isFunction.Cells(), modules.Cells()) == Some(text)
  {
    hide HasFormat, AllBits, At, Placed, FreeBefore, ScanLength, Trial, TextBits, Padding, FormatReserved, BitBucket.IsStream,
      Layout.Interleaved, LayoutOf, Layout.DataLen, Layout.TotalLen, Scan, GetModeBits, ModeOf, IsFormatPos, UnderMask;
    v.Capacity();
    ghost var f := isFunction.Cells();
    var codewords := new BitBucket((v.moduleCount + 7) / 8);
    FreshIsStream(codewords);
    mode := EncodeDataCodewords(codewords, text, v.version);
    BitsLength(codewords);
    PadCodewords(codewords, v.DataCapacity());
    ghost var data := codewords.data[..];
    PerformErrorCorrection(v.numBlocks, v.totalEcc, v.moduleCount, codewords);
    ghost var sent, cells := codewords.data[..], modules.Cells();
    DrawCodewords(modules, isFunction, codewords);
    ghost var placed := modules.Cells();
    mask, penalties := ChooseMask(modules, isFunction, ecc, penalty);
    forall i: nat | i < 8
      ensures UnderMask(modules.Cells(), f, v.Size(), ecc, mask, i) == Trial(placed, f, v.Size(), ecc, i)
    {
      TrialUnderMask(placed, f, v.Size(), ecc, mask, i);
    }
    ScanRecoversText(v, text, data, sent, cells, f, ecc, mask);
    FunctionModulesStay(cells, f, v.Size(), AllBits(sent)[..v.moduleCount], ecc, mask);
    TrialHasFormat(placed, f, v.Size(), ecc, mask);
  }

  ghost predicate IsFormatPos(size: nat, p: nat)
    requires size >= 21
  {
    exists k: nat | k < 31 :: FormatPos(size, k) == p
  }

  /** Of the function modules only those of the format are redrawn. */
  lemma FunctionModulesStay(cells: seq<bool>, f: seq<bool>, size: nat, bits: seq<bool>, ecc: bv16, mask: nat)
    requires SymbolSize(size) && mask < 8
    requires At(size, size, 0) <= |f| && At(size, size, 0) <= |cells|
    ensures var done := Trial(Placed(cells, f, size, bits, ScanLength(size)), f, size, ecc, mask);
            forall p: nat | p < |f| && p < |cells| && f[p] && !IsFormatPos(size, p) :: done[p] == cells[p]
  {
    hide At, FormatPos, FormatDrawn, FormatWord, FormatData, Masked, Placed, MaskCode, ScanLength;
    var placed := Placed(cells, f, size, bits, ScanLength(size));
    var w := FormatWord(FormatData(ecc, MaskCode(mask)));
    forall p: nat | p < |f| && p < |cells| && f[p] && !IsFormatPos(size, p)
      ensures Trial(placed, f, size, ecc, mask)[p] == cells[p]
    {
      PlacedKeeps(cells, f, size, bits, ScanLength(size), p);
      FormatDrawnKeeps(placed, size, w, 31, p);
      MaskedKeepsFunctionModules(FormatDrawn(placed, size, w, 31), f, size, mask, p);
    }
  }

  lemma FreshIsStream(b: BitBucket)
    requires b.bitOffsetOrWidth == 0 && b.data[..] == seq(b.data.Length, _ => 0)
    ensures b.IsStream() && b.Bits() == []
  {
    hide TestBit;
    forall k | 0 <= k < 8 * b.data.Length
      ensures !b.Cells()[k]
    {
      ZeroTests(k % 8);
      assert b.data[..][k / 8] == 0;
    }
  }
}
