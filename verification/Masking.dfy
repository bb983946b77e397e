/** The eight masks of a QR symbol, its format information, and the choice of the mask. */
module Masking {
  import opened NonLinear
  import opened BitBuckets
  import opened QrStandard

  // ---------------------------------------------------------------- masks

  /** Whether mask pattern `mask` inverts the module in column x and row y. */
  predicate MaskBit(mask: nat, x: nat, y: nat) {
    match mask
    case 0 => (x + y) % 2 == 0
    case 1 => y % 2 == 0
    case 2 => x % 3 == 0
    case 3 => (x + y) % 3 == 0
    case 4 => (x / 3 + y / 2) % 2 == 0
    case 5 => x * y % 2 + x * y % 3 == 0
    case 6 => (x * y % 2 + x * y % 3) % 2 == 0
    case 7 => ((x + y) % 2 + x * y % 3) % 2 == 0
    case _ => false
  }

  predicate Inverts(f: seq<bool>, size: nat, mask: nat, p: nat)
    requires size > 0 && At(size, size, 0) <= |f|
  {
    p < At(size, size, 0) && !f[p] && MaskBit(mask, Rest(p, size), Quot(p, size))
  }

  function Masked(cells: seq<bool>, f: seq<bool>, size: nat, mask: nat): (r: seq<bool>)
    requires size > 0 && At(size, size, 0) <= |f|
    ensures |r| == |cells|
  {
    seq(|cells|, p requires 0 <= p < |cells| => cells[p] != Inverts(f, size, mask, p))
  }

  /** The remainders by 2 and by 3 of a number are those of its remainder by 6. */
  lemma Residues(n: nat)
    ensures n % 2 == n % 6 % 2 && n % 3 == n % 6 % 3
  {
    var q, r := n / 6, n % 6;
    DivMod(2, 3 * q + r / 2, r % 2);
    DivMod(3, 2 * q + r / 3, r % 3);
  }

  lemma SixResidues(r: nat)
    requires r < 6
    ensures r % 2 + r % 3 == 0 <==> r == 0
    ensures (r % 2 + r % 3) % 2 == 0 <==> r < 3
  {
    assert r == 0 || r == 1 || r == 2 || r == 3 || r == 4 || r == 5;
  }

  lemma Parities(x: nat, y: nat, r: nat)
    requires r < 3
    ensures (x + y) % 2 == 0 <==> x % 2 == y % 2
    ensures ((x + y) % 2 + r) % 2 == 0 <==> (x % 2 == y % 2) == (r != 1)
  {
  }

  lemma Thirds(x: nat, y: nat)
    ensures (x + y) % 3 == 0 <==> x % 3 + y % 3 == 0 || x % 3 + y % 3 == 3
  {
  }

  lemma HalvesOfSix(x: nat)
    ensures x / 3 % 2 == 0 <==> x % 6 < 3
  {
  }

  lemma HalvesOfFour(y: nat)
    ensures y / 2 % 2 == 0 <==> y % 4 < 2
  {
  }

  /** The program's conditions are the standard's patterns. */
  lemma PatternIs(mask: nat, x: nat, y: nat)
    requires mask < 8
    ensures MaskBit(mask, x, y) == Pattern(mask, x, y)
  {
    if mask == 4 {
      Parities(x / 3, y / 2, 0);
      HalvesOfSix(x);
      HalvesOfFour(y);
    } else {
      Residues(x * y);
      SixResidues(x * y % 6);
      Parities(x, y, x * y % 3);
      Thirds(x, y);
    }
  }

  /** Masking is what a reader of the standard undoes, and does. */
  lemma MaskedIsStandard(cells: seq<bool>, f: seq<bool>, size: nat, mask: nat)
    requires size > 0 && At(size, size, 0) <= |f| && mask < 8
    ensures size * size <= |f| && Masked(cells, f, size, mask) == Unmasked(cells, f, size, mask)
  {
    hide MaskBit, Pattern;
    forall p | 0 <= p < |cells| && p < size * size
      ensures MaskBit(mask, p % size, p / size) == Pattern(mask, p % size, p / size)
    {
      PatternIs(mask, p % size, p / size);
    }
  }

  /** A mask applied twice changes nothing. */
  lemma MaskedTwice(cells: seq<bool>, f: seq<bool>, size: nat, mask: nat)
    requires size > 0 && At(size, size, 0) <= |f|
    ensures Masked(Masked(cells, f, size, mask), f, size, mask) == cells
  {
  }

  /** Masks leave function modules alone. */
  lemma MaskedKeepsFunctionModules(cells: seq<bool>, f: seq<bool>, size: nat, mask: nat, p: nat)
    requires size > 0 && At(size, size, 0) <= |f| && p < |cells|
    requires p < |f| && f[p]
    ensures Masked(cells, f, size, mask)[p] == cells[p]
  {
  }

  /** The grid when the mask has been applied to its first n modules. */
  ghost predicate MaskedUpTo(now: seq<bool>, was: seq<bool>, f: seq<bool>, size: nat, mask: nat, n: nat)
    requires size > 0 && At(size, size, 0) <= |f|
  {
    |now| == |was| &&
    forall p | 0 <= p < |was| :: now[p] == (was[p] != (p < n && Inverts(f, size, mask, p)))
  }

  method MaskModule(modules: BitBucket, isFunction: BitBucket, mask: nat, x: nat, y: nat, ghost was: seq<bool>)
    requires modules.IsGrid() && isFunction.IsGrid() && modules.data != isFunction.data
    requires modules.bitOffsetOrWidth == isFunction.bitOffsetOrWidth
    requires x < modules.bitOffsetOrWidth && y < modules.bitOffsetOrWidth
    requires MaskedUpTo(modules.Cells(), was, isFunction.Cells(), modules.bitOffsetOrWidth, mask,
                        Index(x, y, modules.bitOffsetOrWidth))
    modifies modules.data
    ensures modules.IsGrid()
    ensures MaskedUpTo(modules.Cells(), was, isFunction.Cells(), modules.bitOffsetOrWidth, mask,
                       Index(x, y, modules.bitOffsetOrWidth) + 1)
  {
    hide AllBits, At, MaskBit, Quot, Rest;
    var size := modules.bitOffsetOrWidth;
    IndexInGrid(x, y, size);
    RowCell(size, y, x, size);
    var marked := isFunction.GetBit(x, y);
    if !marked {
      modules.InvertBit(x, y, MaskBit(mask, x, y));
    }
  }

  method ApplyMask(modules: BitBucket, isFunction: BitBucket, mask: nat)
    requires modules.IsGrid() && isFunction.IsGrid() && modules.data != isFunction.data
    requires modules.bitOffsetOrWidth == isFunction.bitOffsetOrWidth > 0
    modifies modules.data
    ensures modules.IsGrid()
    ensures modules.Cells() == Masked(old(modules.Cells()), isFunction.Cells(), modules.bitOffsetOrWidth, mask)
    ensures mask < 8 ==> forall x, y | 0 <= x < modules.bitOffsetOrWidth && 0 <= y < modules.bitOffsetOrWidth ::
              ModuleMasked(old(modules.Cells()), modules.Cells(), isFunction.Cells(), modules.bitOffsetOrWidth, mask, x, y)
  {
    hide AllBits, At, Inverts, Quot, Rest, MaskedUpTo, ModuleMasked, Masked;
    var size := modules.bitOffsetOrWidth;
    ghost var was := modules.Cells();
    MaskBegins(was, isFunction.Cells(), size, mask);
    AtSteps(size, 0, 0);
    for y := 0 to size
      invariant modules.IsGrid()
      invariant MaskedUpTo(modules.Cells(), was, isFunction.Cells(), size, mask, At(size, y, 0))
    {
      for x := 0 to size
        invariant modules.IsGrid()
        invariant MaskedUpTo(modules.Cells(), was, isFunction.Cells(), size, mask, At(size, y, x))
      {
        MaskModule(modules, isFunction, mask, x, y, was);
        AtSteps(size, y, x);
        AtSteps(size, y, x + 1);
      }
      AtSteps(size, y, 0);
    }
    MaskEnds(modules.Cells(), was, isFunction.Cells(), size, mask);
    forall x, y | 0 <= x < size && 0 <= y < size && mask < 8
      ensures ModuleMasked(was, modules.Cells(), isFunction.Cells(), size, mask, x, y)
    {
      MaskedAt(was, isFunction.Cells(), size, mask, x, y);
    }
  }

  /** The module in column x and row y is inverted exactly if it is free and the standard's pattern says so. */
  predicate ModuleMasked(was: seq<bool>, now: seq<bool>, f: seq<bool>, size: nat, mask: nat, x: nat, y: nat) {
    var p := y * size + x;
    0 <= p < |was| && p < |now| && p < |f| && (now[p] != was[p] <==> !f[p] && Pattern(mask, x, y))
  }

  lemma MaskedAt(was: seq<bool>, f: seq<bool>, size: nat, mask: nat, x: nat, y: nat)
    requires x < size && y < size && mask < 8 && At(size, size, 0) <= |f| && At(size, size, 0) <= |was|
    ensures ModuleMasked(was, Masked(was, f, size, mask), f, size, mask, x, y)
  {
    hide MaskBit, Pattern;
    RowCell(size, y, x, size);
    PatternIs(mask, x, y);
  }

  lemma MaskBegins(was: seq<bool>, f: seq<bool>, size: nat, mask: nat)
    requires size > 0 && At(size, size, 0) <= |f|
    ensures MaskedUpTo(was, was, f, size, mask, 0)
  {
  }

  lemma MaskEnds(now: seq<bool>, was: seq<bool>, f: seq<bool>, size: nat, mask: nat)
    requires size > 0 && At(size, size, 0) <= |f|
    requires MaskedUpTo(now, was, f, size, mask, At(size, size, 0))
    ensures now == Masked(was, f, size, mask)
  {
    hide MaskBit, Quot, Rest, At;
  }

  // ---------------------------------------------------------------- format information

  function TopBit(r: bv16): bv16 {
    r >> 9
  }

  function Doubled(r: bv16): bv16 {
    r << 1
  }

  function Feedback(t: bv16): bv16 {
    t * 0x537
  }

  function Sum(r: bv16, s: bv16): bv16 {
    r ^ s
  }

  /** Shift one bit into the remainder by the format generator 0x537. */
  function FormatStep(rem: bv16): bv16 {
    Sum(Doubled(rem), Feedback(TopBit(rem)))
  }

  function FormatRemainder(rem: bv16, n: nat): bv16 {
    if n == 0 then rem else FormatStep(FormatRemainder(rem, n - 1))
  }

  /** The 15 format bits: five data bits, ten check bits, and the fixed pattern 0x5412 over them. */
  function FormatWord(data: bv16): bv16 {
    ((data << 10) | FormatRemainder(data, 10)) ^ 0x5412
  }

  predicate FormatBit(w: bv16, i: nat)
    requires i < 15
  {
    match i
    case 0 => w & 0x0001 != 0
    case 1 => w & 0x0002 != 0
    case 2 => w & 0x0004 != 0
    case 3 => w & 0x0008 != 0
    case 4 => w & 0x0010 != 0
    case 5 => w & 0x0020 != 0
    case 6 => w & 0x0040 != 0
    case 7 => w & 0x0080 != 0
    case 8 => w & 0x0100 != 0
    case 9 => w & 0x0200 != 0
    case 10 => w & 0x0400 != 0
    case 11 => w & 0x0800 != 0
    case 12 => w & 0x1000 != 0
    case 13 => w & 0x2000 != 0
    case _ => w & 0x4000 != 0
  }

  lemma FormatStepRange(rem: bv16)
    requires rem < 0x400
    ensures FormatStep(rem) < 0x400
  {
  }

  lemma {:induction false} FormatRemainderRange(data: bv16, n: nat)
    requires data < 0x400
    ensures FormatRemainder(data, n) < 0x400
  {
    hide FormatStep;
    if n > 0 {
      FormatRemainderRange(data, n - 1);
      FormatStepRange(FormatRemainder(data, n - 1));
    }
  }

  /** The two format fields packed as the firmware packs them. */
  function FormatData(ecc: bv16, mask: bv16): bv16 {
    (ecc << 3) | mask
  }

  /** The fields, read back from the top five bits of a format word. */
  function FormatFields(w: bv16): (bv16, bv16) {
    var data := (w ^ 0x5412) >> 10;
    (data >> 3, data & 7)
  }

  lemma FieldsOfBits(ecc: bv16, mask: bv16, rem: bv16)
    requires ecc < 4 && mask < 8 && rem < 0x400
    ensures var data := ((((((ecc << 3) | mask) << 10) | rem) ^ 0x5412) ^ 0x5412) >> 10;
            data >> 3 == ecc && data & 7 == mask
  {
  }

  lemma DataRange(ecc: bv16, mask: bv16)
    requires ecc < 4 && mask < 8
    ensures FormatData(ecc, mask) < 0x400
  {
  }

  /** The format word determines the error correction level and the mask. */
  lemma FormatFieldsReadBack(ecc: bv16, mask: bv16)
    requires ecc < 4 && mask < 8
    ensures FormatFields(FormatWord(FormatData(ecc, mask))) == (ecc, mask)
  {
    hide FormatRemainder;
    DataRange(ecc, mask);
    FormatRemainderRange(FormatData(ecc, mask), 10);
    FieldsOfBits(ecc, mask, FormatRemainder(FormatData(ecc, mask), 10));
  }

  // ---------------------------------------------------------------- where the format bits go

  /** A module to be written: column, row, colour. */
  datatype Write = Write(x: nat, y: nat, on: bool)

  /** The k-th module drawn for the format: 15 of the first copy, 15 of the second, one always dark. */
  function FormatWrite(size: nat, w: bv16, k: nat): Write
    requires size >= 21 && k < 31
  {
    if k <= 5 then Write(8, k, FormatBit(w, k))
    else if k == 6 then Write(8, 7, FormatBit(w, 6))
    else if k == 7 then Write(8, 8, FormatBit(w, 7))
    else if k == 8 then Write(7, 8, FormatBit(w, 8))
    else if k < 15 then Write(14 - k, 8, FormatBit(w, k))
    else if k < 23 then Write(size - 1 - (k - 15), 8, FormatBit(w, k - 15))
    else if k < 30 then Write(8, size - 15 + (k - 15), FormatBit(w, k - 15))
    else Write(8, size - 8, true)
  }

  function FormatPos(size: nat, k: nat): (p: nat)
    requires size >= 21 && k < 31
    ensures p < At(size, size, 0)
  {
    var c := FormatWrite(size, 0, k);
    IndexInGrid(c.x, c.y, size);
    Index(c.x, c.y, size)
  }

  lemma FormatPosIsInjective(size: nat, k: nat, m: nat)
    requires size >= 21 && k < 31 && m < 31 && FormatPos(size, k) == FormatPos(size, m)
    ensures k == m
  {
    hide FormatBit, At;
    var c, d := FormatWrite(size, 0, k), FormatWrite(size, 0, m);
    IndexIsInjective(c.x, c.y, d.x, d.y, size);
  }

  /** The grid after the first n modules of the format have been drawn. */
  function FormatDrawn(cells: seq<bool>, size: nat, w: bv16, n: nat): (r: seq<bool>)
    requires size >= 21 && n <= 31 && At(size, size, 0) <= |cells|
    ensures |r| == |cells|
  {
    if n == 0 then cells
    else FormatDrawn(cells, size, w, n - 1)[FormatPos(size, n - 1) := FormatWrite(size, w, n - 1).on]
  }

  lemma {:induction false} FormatDrawnAt(cells: seq<bool>, size: nat, w: bv16, n: nat, k: nat)
    requires size >= 21 && k < n <= 31 && At(size, size, 0) <= |cells|
    ensures FormatDrawn(cells, size, w, n)[FormatPos(size, k)] == FormatWrite(size, w, k).on
  {
    hide FormatPos, FormatWrite, At;
    if k < n - 1 {
      FormatDrawnAt(cells, size, w, n - 1, k);
      if FormatPos(size, k) == FormatPos(size, n - 1) {
        FormatPosIsInjective(size, k, n - 1);
        assert false;
      }
    }
  }

  lemma {:induction false} FormatDrawnKeeps(cells: seq<bool>, size: nat, w: bv16, n: nat, p: nat)
    requires size >= 21 && n <= 31 && At(size, size, 0) <= |cells| && p < |cells|
    requires forall k: nat | k < n :: FormatPos(size, k) != p
    ensures FormatDrawn(cells, size, w, n)[p] == cells[p]
  {
    hide FormatPos, FormatWrite, At;
    if n > 0 {
      FormatDrawnKeeps(cells, size, w, n - 1, p);
    }
  }

  // What the standard says of the format.

  lemma RemainderStep(data: bv16, n: nat)
    ensures FormatRemainder(data, n + 1) == FormatStep(FormatRemainder(data, n))
  {
  }

  lemma TenSteps(data: bv16)
    ensures FormatRemainder(data, 10)
            == FormatStep(FormatStep(FormatStep(FormatStep(FormatStep(
                 FormatStep(FormatStep(FormatStep(FormatStep(FormatStep(data))))))))))
  {
    hide FormatStep;
    RemainderStep(data, 0);
    RemainderStep(data, 1);
    RemainderStep(data, 2);
    RemainderStep(data, 3);
    RemainderStep(data, 4);
    RemainderStep(data, 5);
    RemainderStep(data, 6);
    RemainderStep(data, 7);
    RemainderStep(data, 8);
    RemainderStep(data, 9);
  }

  lemma FormatWords0()
    ensures FormatWord(0) == 0x5412 && FormatWord(1) == 0x5125 && FormatWord(2) == 0x5E7C && FormatWord(3) == 0x5B4B
    ensures FormatWord(4) == 0x45F9 && FormatWord(5) == 0x40CE && FormatWord(6) == 0x4F97 && FormatWord(7) == 0x4AA0
  {
    hide FormatRemainder;
    TenSteps(0);
    TenSteps(1);
    TenSteps(2);
    TenSteps(3);
    TenSteps(4);
    TenSteps(5);
    TenSteps(6);
    TenSteps(7);
  }

  lemma FormatWords8()
    ensures FormatWord(8) == 0x77C4 && FormatWord(9) == 0x72F3 && FormatWord(10) == 0x7DAA && FormatWord(11) == 0x789D
    ensures FormatWord(12) == 0x662F && FormatWord(13) == 0x6318 && FormatWord(14) == 0x6C41 && FormatWord(15) == 0x6976
  {
    hide FormatRemainder;
    TenSteps(8);
    TenSteps(9);
    TenSteps(10);
    TenSteps(11);
    TenSteps(12);
    TenSteps(13);
    TenSteps(14);
    TenSteps(15);
  }

  lemma FormatWords16()
    ensures FormatWord(16) == 0x1689 && FormatWord(17) == 0x13BE && FormatWord(18) == 0x1CE7 && FormatWord(19) == 0x19D0
    ensures FormatWord(20) == 0x0762 && FormatWord(21) == 0x0255 && FormatWord(22) == 0x0D0C && FormatWord(23) == 0x083B
  {
    hide FormatRemainder;
    TenSteps(16);
    TenSteps(17);
    TenSteps(18);
    TenSteps(19);
    TenSteps(20);
    TenSteps(21);
    TenSteps(22);
    TenSteps(23);
  }

  lemma FormatWords24()
    ensures FormatWord(24) == 0x355F && FormatWord(25) == 0x3068 && FormatWord(26) == 0x3F31 && FormatWord(27) == 0x3A06
    ensures FormatWord(28) == 0x24B4 && FormatWord(29) == 0x2183 && FormatWord(30) == 0x2EDA && FormatWord(31) == 0x2BED
  {
    hide FormatRemainder;
    TenSteps(24);
    TenSteps(25);
    TenSteps(26);
    TenSteps(27);
    TenSteps(28);
    TenSteps(29);
    TenSteps(30);
    TenSteps(31);
  }

  /** The five data bits as a number. */
  function DataNumber(ecc: bv16, mask: bv16): (d: nat)
    requires ecc < 4 && mask < 8
    ensures d < 32
  {
    (if ecc == 0 then 0 else if ecc == 1 then 8 else if ecc == 2 then 16 else 24)
    + (if mask == 0 then 0 else if mask == 1 then 1 else if mask == 2 then 2 else if mask == 3 then 3
       else if mask == 4 then 4 else if mask == 5 then 5 else if mask == 6 then 6 else 7)
  }

  lemma WordsOfLevel0(mask: bv16)
    requires mask < 8
    ensures FormatWord(FormatData(0, mask)) == FORMAT_WORDS[DataNumber(0, mask)]
  {
    hide FormatWord;
    FormatWords0();
    assert mask == 0 || mask == 1 || mask == 2 || mask == 3 || mask == 4 || mask == 5 || mask == 6 || mask == 7;
  }

  lemma WordsOfLevel1(mask: bv16)
    requires mask < 8
    ensures FormatWord(FormatData(1, mask)) == FORMAT_WORDS[DataNumber(1, mask)]
  {
    hide FormatWord;
    FormatWords8();
    assert mask == 0 || mask == 1 || mask == 2 || mask == 3 || mask == 4 || mask == 5 || mask == 6 || mask == 7;
  }

  lemma WordsOfLevel2(mask: bv16)
    requires mask < 8
    ensures FormatWord(FormatData(2, mask)) == FORMAT_WORDS[DataNumber(2, mask)]
  {
    hide FormatWord;
    FormatWords16();
    assert mask == 0 || mask == 1 || mask == 2 || mask == 3 || mask == 4 || mask == 5 || mask == 6 || mask == 7;
  }

  lemma WordsOfLevel3(mask: bv16)
    requires mask < 8
    ensures FormatWord(FormatData(3, mask)) == FORMAT_WORDS[DataNumber(3, mask)]
  {
    hide FormatWord;
    FormatWords24();
    assert mask == 0 || mask == 1 || mask == 2 || mask == 3 || mask == 4 || mask == 5 || mask == 6 || mask == 7;
  }

  /** The format words are those of the standard's table. */
  lemma FormatWordsAreStandard(ecc: bv16, mask: bv16)
    requires ecc < 4 && mask < 8
    ensures FormatWord(FormatData(ecc, mask)) == FORMAT_WORDS[DataNumber(ecc, mask)]
  {
    WordsOfLevel0(mask);
    WordsOfLevel1(mask);
    WordsOfLevel2(mask);
    WordsOfLevel3(mask);
    hide FormatWord, FormatData, FORMAT_WORDS, DataNumber;
    assert ecc == 0 || ecc == 1 || ecc == 2 || ecc == 3;
  }

  // Any two of the format words differ in at least seven bits, so that a reader can correct three.

  function Ones(w: bv16): bv16 {
    (w & 1) + ((w >> 1) & 1) + ((w >> 2) & 1) + ((w >> 3) & 1) + ((w >> 4) & 1)
    + ((w >> 5) & 1) + ((w >> 6) & 1) + ((w >> 7) & 1) + ((w >> 8) & 1) + ((w >> 9) & 1)
    + ((w >> 10) & 1) + ((w >> 11) & 1) + ((w >> 12) & 1) + ((w >> 13) & 1) + ((w >> 14) & 1)
  }

  lemma ShiftsAreLinear(r: bv16, s: bv16)
    requires r < 0x400 && s < 0x400
    ensures Sum(TopBit(r), TopBit(s)) == TopBit(Sum(r, s)) && Sum(Doubled(r), Doubled(s)) == Doubled(Sum(r, s))
    ensures TopBit(r) <= 1 && TopBit(s) <= 1 && Sum(r, s) < 0x400
  {
  }

  lemma FeedbackIsLinear(t: bv16, u: bv16)
    requires t <= 1 && u <= 1
    ensures Sum(Feedback(t), Feedback(u)) == Feedback(Sum(t, u))
  {
    assert t == 0 || t == 1;
    assert u == 0 || u == 1;
  }

  lemma SumsExchange(a: bv16, b: bv16, c: bv16, d: bv16)
    ensures Sum(Sum(a, b), Sum(c, d)) == Sum(Sum(a, c), Sum(b, d))
  {
    hide Sum;
    SumLaws(a, b, Sum(c, d));
    SumLaws(c, b, d);
    SumLaws(b, c, d);
    SumLaws(a, c, Sum(b, d));
  }

  lemma SumLaws(a: bv16, b: bv16, c: bv16)
    ensures Sum(Sum(a, b), c) == Sum(a, Sum(b, c)) && Sum(a, b) == Sum(b, a)
  {
  }

  lemma StepIsLinear(r: bv16, s: bv16)
    requires r < 0x400 && s < 0x400
    ensures Sum(FormatStep(r), FormatStep(s)) == FormatStep(Sum(r, s)) && Sum(r, s) < 0x400
  {
    hide Sum, TopBit, Doubled, Feedback;
    ShiftsAreLinear(r, s);
    FeedbackIsLinear(TopBit(r), TopBit(s));
    SumsExchange(Doubled(r), Feedback(TopBit(r)), Doubled(s), Feedback(TopBit(s)));
  }

  lemma {:induction false} RemainderIsLinear(a: bv16, b: bv16, n: nat)
    requires a < 0x400 && b < 0x400
    ensures Sum(FormatRemainder(a, n), FormatRemainder(b, n)) == FormatRemainder(Sum(a, b), n)
  {
    hide FormatStep, Sum;
    if n > 0 {
      RemainderIsLinear(a, b, n - 1);
      FormatRemainderRange(a, n - 1);
      FormatRemainderRange(b, n - 1);
      StepIsLinear(FormatRemainder(a, n - 1), FormatRemainder(b, n - 1));
    }
  }

  lemma SumOfWords(a: bv16, b: bv16, r: bv16, s: bv16)
    requires a < 32 && b < 32
    ensures (((a << 10) | r) ^ 0x5412) ^ (((b << 10) | s) ^ 0x5412) == ((((a ^ b) << 10) ^ 0x5412) ^ 0x5412) | (r ^ s)
            || r >= 0x400 || s >= 0x400
    ensures a ^ b < 32 && (a != b ==> a ^ b != 0)
  {
  }

  lemma WordUnmasked(c: bv16, r: bv16)
    ensures ((((c << 10) ^ 0x5412) ^ 0x5412) | r) == (((c << 10) | r) ^ 0x5412) ^ 0x5412
  {
  }

  lemma WeightOfWord(c: bv16)
    requires 0 < c < 32
    ensures Ones(FormatWord(c) ^ 0x5412) >= 7
  {
    hide FormatWord;
    FormatWords0();
    FormatWords8();
    FormatWords16();
    FormatWords24();
  }

  lemma FormatDistance(a: bv16, b: bv16)
    requires a < 32 && b < 32 && a != b
    ensures Ones(FormatWord(a) ^ FormatWord(b)) >= 7
  {
    hide FormatRemainder, FormatStep, Ones;
    RemainderIsLinear(a, b, 10);
    assert Sum(a, b) == a ^ b;
    FormatRemainderRange(a, 10);
    FormatRemainderRange(b, 10);
    SumOfWords(a, b, FormatRemainder(a, 10), FormatRemainder(b, 10));
    WordUnmasked(a ^ b, FormatRemainder(a ^ b, 10));
    WeightOfWord(a ^ b);
  }

  /** The two copies of bit i, as a reader finds them on the grid. */
  function FormatSeen(cells: seq<bool>, size: nat, i: nat): (bool, bool)
    requires size >= 21 && i < 15 && At(size, size, 0) <= |cells|
  {
    (cells[FormatPos(size, i)], cells[FormatPos(size, 15 + i)])
  }

  lemma FormatIsSeen(cells: seq<bool>, size: nat, w: bv16, i: nat)
    requires size >= 21 && i < 15 && At(size, size, 0) <= |cells|
    ensures FormatSeen(FormatDrawn(cells, size, w, 31), size, i) == (FormatBit(w, i), FormatBit(w, i))
  {
    hide FormatPos, At;
    FormatDrawnAt(cells, size, w, 31, i);
    FormatDrawnAt(cells, size, w, 31, 15 + i);
  }

  /** Both copies on the grid are the standard's word in the standard's places, and the dark module is dark. */
  lemma FormatIsStandard(cells: seq<bool>, size: nat, ecc: bv16, mask: bv16, i: nat)
    requires size >= 21 && ecc < 4 && mask < 8 && i < 15 && At(size, size, 0) <= |cells|
    ensures var drawn := FormatDrawn(cells, size, FormatWord(FormatData(ecc, mask)), 31);
            var bit := WordBit(FORMAT_WORDS[DataNumber(ecc, mask)], i);
            && Dark(drawn, size, FirstCopy(i)) == bit == Dark(drawn, size, SecondCopy(size, i))
            && Dark(drawn, size, (8, size - 8))
  {
    hide FormatDrawn, FormatWord, FormatData, FORMAT_WORDS, FormatPos, FirstCopy, FormatWrite, FormatBit, WordBit, At;
    var w := FormatWord(FormatData(ecc, mask));
    FormatWordsAreStandard(ecc, mask);
    PlacesAre(size, w, i);
    FormatDrawnAt(cells, size, w, 31, 14 - i);
    FormatDrawnAt(cells, size, w, 31, 29 - i);
    FormatDrawnAt(cells, size, w, 31, 30);
    FormatPlace(size, w, 14 - i, FirstCopy(i));
    FormatPlace(size, w, 29 - i, SecondCopy(size, i));
    FormatPlace(size, w, 30, (8, size - 8));
    SameBit(w, i);
  }

  lemma PlacesAre(size: nat, w: bv16, i: nat)
    requires size >= 21 && i < 15
    ensures FormatWrite(size, w, 14 - i) == Write(FirstCopy(i).0, FirstCopy(i).1, FormatBit(w, 14 - i))
    ensures FormatWrite(size, w, 29 - i) == Write(SecondCopy(size, i).0, SecondCopy(size, i).1, FormatBit(w, 14 - i))
    ensures FormatWrite(size, w, 30) == Write(8, size - 8, true)
  {
    hide FormatBit;
  }

  lemma FormatPlace(size: nat, w: bv16, k: nat, at: (nat, nat))
    requires size >= 21 && k < 31
    requires FormatWrite(size, w, k).x == at.0 && FormatWrite(size, w, k).y == at.1
    ensures at.0 < size && at.1 < size && FormatPos(size, k) == at.1 * size + at.0
  {
    hide FormatBit;
    IndexInGrid(at.0, at.1, size);
  }

  lemma SameBit(w: bv16, i: nat)
    requires i < 15
    ensures FormatBit(w, 14 - i) == WordBit(w, i)
  {
    match i
    case 0 =>
    case 1 =>
    case 2 =>
    case 3 =>
    case 4 =>
    case 5 =>
    case 6 =>
    case 7 =>
    case 8 =>
    case 9 =>
    case 10 =>
    case 11 =>
    case 12 =>
    case 13 =>
    case _ =>
  }

  /** Drawing another format over an earlier one leaves no trace of it. */
  lemma FormatRedrawn(cells: seq<bool>, size: nat, w: bv16, w': bv16)
    requires size >= 21 && At(size, size, 0) <= |cells|
    ensures FormatDrawn(FormatDrawn(cells, size, w, 31), size, w', 31) == FormatDrawn(cells, size, w', 31)
  {
    hide FormatPos, FormatWrite, FormatDrawn, At;
    var first := FormatDrawn(cells, size, w, 31);
    var both, second := FormatDrawn(first, size, w', 31), FormatDrawn(cells, size, w', 31);
    forall p: nat | p < |cells|
      ensures both[p] == second[p]
    {
      if k: nat :| k < 31 && FormatPos(size, k) == p {
        FormatDrawnAt(first, size, w', 31, k);
        FormatDrawnAt(cells, size, w', 31, k);
      } else {
        FormatDrawnKeeps(first, size, w', 31, p);
        FormatDrawnKeeps(cells, size, w', 31, p);
        FormatDrawnKeeps(cells, size, w, 31, p);
      }
    }
  }

  /** All modules of the format belong to the function patterns. */
  ghost predicate FormatReserved(f: seq<bool>, size: nat)
    requires size >= 21 && At(size, size, 0) <= |f|
  {
    forall k: nat | k < 31 :: f[FormatPos(size, k)]
  }

  /** The function map after the first n modules of the format have been marked. */
  function FormatMarked(f: seq<bool>, size: nat, n: nat): (r: seq<bool>)
    requires size >= 21 && n <= 31 && At(size, size, 0) <= |f|
    ensures |r| == |f|
  {
    if n == 0 then f else FormatMarked(f, size, n - 1)[FormatPos(size, n - 1) := true]
  }

  lemma {:induction false} FormatMarkedAt(f: seq<bool>, size: nat, n: nat, k: nat)
    requires size >= 21 && k < n <= 31 && At(size, size, 0) <= |f|
    ensures FormatMarked(f, size, n)[FormatPos(size, k)]
  {
    hide FormatPos, At;
    if k < n - 1 {
      FormatMarkedAt(f, size, n - 1, k);
    }
  }

  /** Once the format has been drawn its modules are reserved, and marking them again changes nothing. */
  lemma {:induction false} FormatStaysReserved(f: seq<bool>, size: nat, n: nat)
    requires size >= 21 && n <= 31 && At(size, size, 0) <= |f|
    ensures FormatReserved(FormatMarked(f, size, 31), size)
    ensures FormatReserved(f, size) ==> FormatMarked(f, size, n) == f
  {
    hide FormatPos, At;
    forall k: nat | k < 31
      ensures FormatMarked(f, size, 31)[FormatPos(size, k)]
    {
      FormatMarkedAt(f, size, 31, k);
    }
    if n > 0 {
      FormatStaysReserved(f, size, n - 1);
    }
  }

  // ---------------------------------------------------------------- drawing the format

  method SetFunctionModule(modules: BitBucket, isFunction: BitBucket, x: nat, y: nat, on: bool)
    requires modules.IsGrid() && isFunction.IsGrid() && modules.data != isFunction.data
    requires modules.bitOffsetOrWidth == isFunction.bitOffsetOrWidth
    requires x < modules.bitOffsetOrWidth && y < modules.bitOffsetOrWidth
    modifies modules.data, isFunction.data
    ensures modules.IsGrid() && isFunction.IsGrid()
    ensures var p := Index(x, y, modules.bitOffsetOrWidth);
            && p < |modules.Cells()| && modules.Cells() == old(modules.Cells())[p := on]
            && p < |isFunction.Cells()| && isFunction.Cells() == old(isFunction.Cells())[p := true]
  {
    hide AllBits, At, Index;
    modules.SetBit(x, y, on);
    ghost var m := modules.Cells();
    isFunction.SetBit(x, y, true);
    assert modules.Cells() == m;
  }

  /** Draw the k-th module of the format. */
  method DrawFormatModule(modules: BitBucket, isFunction: BitBucket, x: nat, y: nat, on: bool,
                          ghost was: seq<bool>, ghost f: seq<bool>, ghost w: bv16, ghost k: nat)
    requires modules.IsGrid() && isFunction.IsGrid() && modules.data != isFunction.data
    requires modules.bitOffsetOrWidth == isFunction.bitOffsetOrWidth >= 21
    requires k < 31 && FormatWrite(modules.bitOffsetOrWidth, w, k) == Write(x, y, on)
    requires At(modules.bitOffsetOrWidth, modules.bitOffsetOrWidth, 0) <= |was|
    requires At(modules.bitOffsetOrWidth, modules.bitOffsetOrWidth, 0) <= |f|
    requires modules.Cells() == FormatDrawn(was, modules.bitOffsetOrWidth, w, k)
    requires isFunction.Cells() == FormatMarked(f, modules.bitOffsetOrWidth, k)
    modifies modules.data, isFunction.data
    ensures modules.IsGrid() && isFunction.IsGrid()
    ensures modules.Cells() == FormatDrawn(was, modules.bitOffsetOrWidth, w, k + 1)
    ensures isFunction.Cells() == FormatMarked(f, modules.bitOffsetOrWidth, k + 1)
  {
    hide AllBits, At, Index, FormatBit, FormatDrawn, FormatMarked;
    var size := modules.bitOffsetOrWidth;
    FormatPosIs(size, w, k);
    SetFunctionModule(modules, isFunction, x, y, on);
    FormatDrawnSteps(was, f, size, w, k);
  }

  lemma FormatPosIs(size: nat, w: bv16, k: nat)
    requires size >= 21 && k < 31
    ensures var c := FormatWrite(size, w, k);
            c.x < size && c.y < size && FormatPos(size, k) == Index(c.x, c.y, size)
  {
    hide FormatBit, Index;
  }

  lemma FormatDrawnSteps(cells: seq<bool>, f: seq<bool>, size: nat, w: bv16, k: nat)
    requires size >= 21 && k < 31 && At(size, size, 0) <= |cells| && At(size, size, 0) <= |f|
    ensures FormatDrawn(cells, size, w, k + 1)
            == FormatDrawn(cells, size, w, k)[FormatPos(size, k) := FormatWrite(size, w, k).on]
    ensures FormatMarked(f, size, k + 1) == FormatMarked(f, size, k)[FormatPos(size, k) := true]
  {
  }

  method DrawFormatBits(modules: BitBucket, isFunction: BitBucket, ecc: bv16, mask: bv16)
    requires modules.IsGrid() && isFunction.IsGrid() && modules.data != isFunction.data
    requires modules.bitOffsetOrWidth == isFunction.bitOffsetOrWidth >= 21
    modifies modules.data, isFunction.data
    ensures modules.IsGrid() && isFunction.IsGrid()
    ensures isFunction.Cells() == FormatMarked(old(isFunction.Cells()), modules.bitOffsetOrWidth, 31)
    ensures modules.Cells() == FormatDrawn(old(modules.Cells()), modules.bitOffsetOrWidth,
                                           FormatWord(FormatData(ecc, mask)), 31)
  {
    hide AllBits, At, Index, FormatBit, FormatDrawn, FormatPos, FormatStep, FormatMarked, FormatWord, FormatData;
    var size := modules.bitOffsetOrWidth;
    ghost var was, f := modules.Cells(), isFunction.Cells();
    var data := ComputeFormat(ecc, mask);
    FormatBegins(was, f, size, data);
    for i := 0 to 6
      invariant modules.IsGrid() && isFunction.IsGrid()
      invariant modules.Cells() == FormatDrawn(was, size, data, i)
      invariant isFunction.Cells() == FormatMarked(f, size, i)
    {
      DrawFormatModule(modules, isFunction, 8, i, FormatBit(data, i), was, f, data, i);
    }
    DrawFormatModule(modules, isFunction, 8, 7, FormatBit(data, 6), was, f, data, 6);
    DrawFormatModule(modules, isFunction, 8, 8, FormatBit(data, 7), was, f, data, 7);
    DrawFormatModule(modules, isFunction, 7, 8, FormatBit(data, 8), was, f, data, 8);
    for i := 9 to 15
      invariant modules.IsGrid() && isFunction.IsGrid()
      invariant modules.Cells() == FormatDrawn(was, size, data, i)
      invariant isFunction.Cells() == FormatMarked(f, size, i)
    {
      DrawFormatModule(modules, isFunction, 14 - i, 8, FormatBit(data, i), was, f, data, i);
    }
    for i := 0 to 8
      invariant modules.IsGrid() && isFunction.IsGrid()
      invariant modules.Cells() == FormatDrawn(was, size, data, 15 + i)
      invariant isFunction.Cells() == FormatMarked(f, size, 15 + i)
    {
      DrawFormatModule(modules, isFunction, size - 1 - i, 8, FormatBit(data, i), was, f, data, 15 + i);
    }
    for i := 8 to 15
      invariant modules.IsGrid() && isFunction.IsGrid()
      invariant modules.Cells() == FormatDrawn(was, size, data, 15 + i)
      invariant isFunction.Cells() == FormatMarked(f, size, 15 + i)
    {
      DrawFormatModule(modules, isFunction, 8, size - 15 + i, FormatBit(data, i), was, f, data, 15 + i);
    }
    DrawFormatModule(modules, isFunction, 8, size - 8, true, was, f, data, 30);
  }

  lemma FormatBegins(cells: seq<bool>, f: seq<bool>, size: nat, w: bv16)
    requires size >= 21 && At(size, size, 0) <= |cells| && At(size, size, 0) <= |f|
    ensures FormatDrawn(cells, size, w, 0) == cells && FormatMarked(f, size, 0) == f
  {
  }

  /** The loop that computes the ten check bits. */
  method ComputeFormat(ecc: bv16, mask: bv16) returns (w: bv16)
    ensures w == FormatWord(FormatData(ecc, mask))
  {
    hide FormatStep;
    var data := FormatData(ecc, mask);
    var rem := data;
    for i := 0 to 10
      invariant rem == FormatRemainder(data, i)
    {
      rem := FormatStep(rem);
    }
    w := ((data << 10) | rem) ^ 0x5412;
  }

  // ---------------------------------------------------------------- the choice

  function MaskCode(mask: nat): bv16
    requires mask < 8
  {
    match mask
    case 0 => 0
    case 1 => 1
    case 2 => 2
    case 3 => 3
    case 4 => 4
    case 5 => 5
    case 6 => 6
    case _ => 7
  }

  /** The symbol that results from one mask: its format drawn, its data modules masked. */
  function Trial(cells: seq<bool>, f: seq<bool>, size: nat, ecc: bv16, mask: nat): (r: seq<bool>)
    requires size >= 21 && mask < 8
    requires At(size, size, 0) <= |f| && At(size, size, 0) <= |cells|
    ensures |r| == |cells|
  {
    Masked(FormatDrawn(cells, size, FormatWord(FormatData(ecc, MaskCode(mask))), 31), f, size, mask)
  }

  /** mask is the first of the masks below n with the smallest penalty. */
  ghost predicate FirstBest(trials: seq<nat>, mask: nat)
  {
    && mask < |trials|
    && (forall i | 0 <= i < |trials| :: trials[mask] <= trials[i])
    && (forall i | 0 <= i < mask :: trials[mask] < trials[i])
  }

  /** The trial loop and the final drawing, for any way of scoring a grid. */
  method ChooseMask(modules: BitBucket, isFunction: BitBucket, ecc: bv16, penalty: seq<bool> -> nat)
    returns (mask: nat, ghost penalties: seq<nat>)
    requires modules.IsGrid() && isFunction.IsGrid() && modules.data != isFunction.data
    requires modules.bitOffsetOrWidth == isFunction.bitOffsetOrWidth >= 21
    requires FormatReserved(isFunction.Cells(), modules.bitOffsetOrWidth)
    requires forall g :: penalty(g) < 0x7FFFFFFF
    modifies modules.data, isFunction.data
    ensures modules.IsGrid() && isFunction.IsGrid() && isFunction.Cells() == old(isFunction.Cells())
    ensures |penalties| == 8 && mask < 8 && FirstBest(penalties, mask)
    ensures forall i: nat | i < 8 :: penalties[mask] <= penalties[i] && (i < mask ==> penalties[mask] < penalties[i])
    ensures forall i: nat | i < 8 ::
              penalties[i] == penalty(Trial(old(modules.Cells()), old(isFunction.Cells()), modules.bitOffsetOrWidth, ecc, i))
    ensures modules.Cells() == Trial(old(modules.Cells()), old(isFunction.Cells()), modules.bitOffsetOrWidth, ecc, mask)
  {
    hide AllBits, At, FormatDrawn, FormatMarked, FormatReserved, FormatWord, FormatData, Masked, MaskCode;
    var size := modules.bitOffsetOrWidth;
    ghost var was, f := modules.Cells(), isFunction.Cells();
    FormatStaysReserved(f, size, 31);
    mask := 0;
    penalties := [];
    var minPenalty := 0x7FFFFFFF;
    for i := 0 to 8
      invariant modules.IsGrid() && isFunction.IsGrid() && isFunction.Cells() == f
      invariant |penalties| == i
      invariant forall k: nat | k < i :: penalties[k] == penalty(Trial(was, f, size, ecc, k))
      invariant i == 0 ==> minPenalty == 0x7FFFFFFF
      invariant i > 0 ==> FirstBest(penalties, mask) && minPenalty == penalties[mask]
      invariant |modules.Cells()| == |was|
      invariant forall w :: FormatDrawn(modules.Cells(), size, w, 31) == FormatDrawn(was, size, w, 31)
    {
      ghost var start := modules.Cells();
      DrawFormatBits(modules, isFunction, ecc, MaskCode(i));
      ghost var drawn := modules.Cells();
      ApplyMask(modules, isFunction, i);
      var score := penalty(AllBits(modules.data[..]));
      penalties := penalties + [score];
      if score < minPenalty {
        mask := i;
        minPenalty := score;
      }
      ApplyMask(modules, isFunction, i);
      MaskedTwice(drawn, f, size, i);
      forall w
        ensures FormatDrawn(modules.Cells(), size, w, 31) == FormatDrawn(was, size, w, 31)
      {
        FormatRedrawn(start, size, FormatWord(FormatData(ecc, MaskCode(i))), w);
      }
    }
    DrawFormatBits(modules, isFunction, ecc, MaskCode(mask));
    ApplyMask(modules, isFunction, mask);
  }
}
