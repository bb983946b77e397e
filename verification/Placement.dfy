/** Placing the bits of a QR message on its grid: the zigzag scan and the masks. */
module Placement {
  import opened NonLinear
  import opened BitBuckets
  import opened QrStandard

  // ---------------------------------------------------------------- the order of the scan

  /** The sizes of QR symbols, 21 to 177 in steps of 4, and so odd. */
  ghost predicate SymbolSize(size: nat) {
    size >= 21 && size % 4 == 1 && size % 2 == 1
  }

  /** The right column of the c-th column pair; column 6 holds a timing pattern and is skipped. */
  function RightColumn(size: nat, c: nat): nat
    requires 2 * c + 2 < size
  {
    var right := size - 1 - 2 * c;
    if right <= 6 then right - 1 else right
  }

  predicate Upwards(right: nat, x: nat) {
    (right / 2 % 2 == 0) != (x < 6)
  }

  /** The cell visited in column pair c, at vertical step vert, on side j. */
  function CellOf(size: nat, c: nat, vert: nat, j: nat): (cell: (nat, nat))
    requires size % 2 == 1 && 2 * c + 2 < size && vert < size && j < 2
    ensures cell.0 < size && cell.1 < size
  {
    var right := RightColumn(size, c);
    var x := right - j;
    (x, if Upwards(right, x) then size - 1 - vert else vert)
  }

  /** The column pair, vertical step and side at which a cell outside column 6 is visited. */
  function VisitOf(size: nat, x: nat, y: nat): (nat, nat, nat)
    requires size % 2 == 1 && size >= 9 && x < size && y < size && x != 6
  {
    var right := if x > 6 then x + x % 2 else x + 1 - x % 2;
    var r := if right < 6 then right + 1 else right;
    ((size - 1 - r) / 2, if Upwards(right, x) then size - 1 - y else y, right - x)
  }

  /** Every visit is of a cell outside column 6, and that cell determines the visit. */
  lemma CellThenVisit(size: nat, c: nat, vert: nat, j: nat)
    requires SymbolSize(size) && 2 * c + 2 < size && vert < size && j < 2
    ensures var (x, y) := CellOf(size, c, vert, j); x != 6 && VisitOf(size, x, y) == (c, vert, j)
  {
  }

  /** Every cell outside column 6 is visited. */
  lemma VisitThenCell(size: nat, x: nat, y: nat)
    requires SymbolSize(size) && x < size && y < size && x != 6
    ensures var (c, vert, j) := VisitOf(size, x, y);
            2 * c + 2 < size && vert < size && j < 2 && CellOf(size, c, vert, j) == (x, y)
  {
    hide Upwards;
    var right := if x > 6 then x + x % 2 else x + 1 - x % 2;
    var r := if right < 6 then right + 1 else right;
    EvenColumn(x, r);
    HalfDifference(size / 2, r / 2);
  }

  lemma EvenColumn(x: nat, r: nat)
    requires x != 6
    requires r == if x > 6 then x + x % 2 else if x + 1 - x % 2 < 6 then x + 2 - x % 2 else x + 1 - x % 2
    ensures r == 2 * (r / 2) && r >= 2
  {
  }

  lemma HalfDifference(m: nat, h: nat)
    requires h <= m
    ensures (2 * m + 1 - 1 - 2 * h) / 2 == m - h
  {
  }

  // ---------------------------------------------------------------- the scan as a list of positions

  /** The number of visits. */
  function ScanLength(size: nat): nat {
    At(2 * size, size / 2, 0)
  }

  /** The bit position of the n-th visited cell. */
  function Pos(size: nat, n: nat): (p: nat)
    requires SymbolSize(size) && n < ScanLength(size)
    ensures p < At(size, size, 0)
  {
    VisitInRange(size, n);
    var (x, y) := CellOf(size, Quot(n, 2 * size), Rest(n, 2 * size) / 2, Rest(n, 2 * size) % 2);
    IndexInGrid(x, y, size);
    Index(x, y, size)
  }

  lemma VisitInRange(size: nat, n: nat)
    requires SymbolSize(size) && n < ScanLength(size)
    ensures 2 * Quot(n, 2 * size) + 2 < size
    ensures Rest(n, 2 * size) / 2 < size && Rest(n, 2 * size) % 2 < 2
  {
    hide At, Quot, Rest;
    var m := size / 2;
    assert size == 2 * m + 1;
    RowOf(2 * size, n, m);
    var r := Rest(n, 2 * size);
    assert r == 2 * (r / 2) + r % 2;
  }

  lemma PosIsInjective(size: nat, n: nat, m: nat)
    requires SymbolSize(size) && n < ScanLength(size) && m < ScanLength(size)
    requires Pos(size, n) == Pos(size, m)
    ensures n == m
  {
    hide CellOf, VisitOf, At, Quot, Rest, Index;
    VisitInRange(size, n);
    VisitInRange(size, m);
    var (c, v, j) := (Quot(n, 2 * size), Rest(n, 2 * size) / 2, Rest(n, 2 * size) % 2);
    var (c', v', j') := (Quot(m, 2 * size), Rest(m, 2 * size) / 2, Rest(m, 2 * size) % 2);
    var (x, y) := CellOf(size, c, v, j);
    var (x', y') := CellOf(size, c', v', j');
    IndexIsInjective(x, y, x', y', size);
    CellThenVisit(size, c, v, j);
    CellThenVisit(size, c', v', j');
    RowOf(2 * size, n, size / 2);
    RowOf(2 * size, m, size / 2);
  }

  lemma PosOfVisit(size: nat, c: nat, vert: nat, j: nat)
    requires SymbolSize(size) && 2 * c + 2 < size && vert < size && j < 2
    ensures At(2 * size, c, 2 * vert + j) < ScanLength(size)
    ensures var (x, y) := CellOf(size, c, vert, j);
            Pos(size, At(2 * size, c, 2 * vert + j)) == Index(x, y, size)
  {
    hide CellOf, At, Quot, Rest, Index;
    RowCell(2 * size, c, 2 * vert + j, size / 2);
  }

  // The scan follows the standard's path.

  /** The step of the path at which a cell is visited. */
  function StepOf(size: nat, c: nat, vert: nat, j: nat): Step
    requires SymbolSize(size) && 2 * c + 2 < size && vert < size && j < 2
  {
    var (x, y) := CellOf(size, c, vert, j);
    Step(x, y, Upwards(RightColumn(size, c), x), j == 0)
  }

  lemma StepInPair(size: nat, c: nat, vert: nat)
    requires SymbolSize(size) && 2 * c + 2 < size && vert < size
    ensures Next(StepOf(size, c, vert, 0), size) == StepOf(size, c, vert, 1)
    ensures vert + 1 < size ==> Next(StepOf(size, c, vert, 1), size) == StepOf(size, c, vert + 1, 0)
  {
  }

  lemma StepToPair(size: nat, c: nat)
    requires SymbolSize(size) && 2 * (c + 1) + 2 < size
    ensures Next(StepOf(size, c, size - 1, 1), size) == StepOf(size, c + 1, 0, 0)
  {
  }

  lemma FirstStep(size: nat)
    requires SymbolSize(size)
    ensures StepOf(size, 0, 0, 0) == Path(size, 0)
  {
  }

  lemma {:induction false} PathAt(size: nat, c: nat, vert: nat, j: nat)
    requires SymbolSize(size) && 2 * c + 2 < size && vert < size && j < 2
    ensures Path(size, At(2 * size, c, 2 * vert + j)) == StepOf(size, c, vert, j)
    decreases c, vert, j
  {
    hide StepOf, Next, CellOf, At;
    AtSteps(2 * size, c, 2 * vert + j);
    if j == 1 {
      PathAt(size, c, vert, 0);
      StepInPair(size, c, vert);
      AtSteps(2 * size, c, 2 * vert);
    } else if vert > 0 {
      PathAt(size, c, vert - 1, 1);
      StepInPair(size, c, vert - 1);
      AtSteps(2 * size, c, 2 * vert - 1);
    } else if c > 0 {
      PathAt(size, c - 1, size - 1, 1);
      StepToPair(size, c - 1);
      AtSteps(2 * size, c - 1, 2 * size - 1);
      AtSteps(2 * size, c - 1, 2 * size);
    } else {
      FirstStep(size);
    }
  }

  /** The n-th visit is the n-th step of the path, and the path has a step for every module outside column 6. */
  lemma VisitIsStep(size: nat, n: nat)
    requires SymbolSize(size)
    ensures ScanLength(size) == size * (size - 1)
    ensures n < ScanLength(size) ==> var s := Path(size, n); Pos(size, n) == s.y * size + s.x
  {
    LengthOfPath(size / 2);
    if n < ScanLength(size) {
      hide CellOf, At, Quot, Rest, Next, Path, ScanLength;
      VisitInRange(size, n);
      var c, v, j := Quot(n, 2 * size), Rest(n, 2 * size) / 2, Rest(n, 2 * size) % 2;
      RowOfVisit(size, n);
      PathAt(size, c, v, j);
      var (x, y) := CellOf(size, c, v, j);
      IndexInGrid(x, y, size);
    }
  }

  lemma LengthOfPath(m: nat)
    ensures 2 * (2 * m + 1) * m == (2 * m + 1) * (2 * m + 1 - 1)
  {
  }

  lemma RowOfVisit(size: nat, n: nat)
    requires SymbolSize(size) && n < ScanLength(size)
    ensures n == At(2 * size, Quot(n, 2 * size), 2 * (Rest(n, 2 * size) / 2) + Rest(n, 2 * size) % 2)
  {
    hide At, Quot, Rest;
    RowOf(2 * size, n, size / 2);
  }

  // ---------------------------------------------------------------- placing and reading

  /** How many of the first n visited cells are free of function patterns. */
  function FreeBefore(f: seq<bool>, size: nat, n: nat): (r: nat)
    requires SymbolSize(size) && n <= ScanLength(size) && At(size, size, 0) <= |f|
    ensures r <= n
  {
    if n == 0 then 0 else FreeBefore(f, size, n - 1) + (if f[Pos(size, n - 1)] then 0 else 1)
  }

  /** The grid after the first n visits. */
  function Placed(cells: seq<bool>, f: seq<bool>, size: nat, bits: seq<bool>, n: nat): (r: seq<bool>)
    requires SymbolSize(size) && n <= ScanLength(size)
    requires At(size, size, 0) <= |f| && At(size, size, 0) <= |cells|
    ensures |r| == |cells|
  {
    if n == 0 then cells
    else
      var prev := Placed(cells, f, size, bits, n - 1);
      var i := FreeBefore(f, size, n - 1);
      if !f[Pos(size, n - 1)] && i < |bits| then prev[Pos(size, n - 1) := bits[i]] else prev
  }

  /** The contents of the free cells among the first n visited, in the order of the scan. */
  function ReadBits(cells: seq<bool>, f: seq<bool>, size: nat, n: nat): (r: seq<bool>)
    requires SymbolSize(size) && n <= ScanLength(size)
    requires At(size, size, 0) <= |f| && At(size, size, 0) <= |cells|
    ensures |r| == FreeBefore(f, size, n)
  {
    if n == 0 then []
    else
      ReadBits(cells, f, size, n - 1) + (if f[Pos(size, n - 1)] then [] else [cells[Pos(size, n - 1)]])
  }

  /** Reading in the order of the scan is reading along the path. */
  lemma {:induction false} ReadBitsFollowPath(cells: seq<bool>, f: seq<bool>, size: nat, n: nat)
    requires SymbolSize(size) && n <= ScanLength(size)
    requires At(size, size, 0) <= |f| && At(size, size, 0) <= |cells|
    ensures ReadBits(cells, f, size, n) == PathBits(cells, f, size, n)
  {
    hide Pos, Path, ScanLength;
    if n > 0 {
      ReadBitsFollowPath(cells, f, size, n - 1);
      VisitIsStep(size, n - 1);
    }
  }

  /** Only free, visited cells change. */
  lemma {:induction false} PlacedKeeps(cells: seq<bool>, f: seq<bool>, size: nat, bits: seq<bool>, n: nat, q: nat)
    requires SymbolSize(size) && n <= ScanLength(size)
    requires At(size, size, 0) <= |f| && At(size, size, 0) <= |cells| && q < |cells|
    requires forall m: nat | m < n :: Pos(size, m) == q ==> f[q]
    ensures Placed(cells, f, size, bits, n)[q] == cells[q]
  {
    hide Pos, At, ScanLength;
    if n > 0 {
      PlacedKeeps(cells, f, size, bits, n - 1, q);
    }
  }

  /** The m-th visited cell holds its bit as soon as it has been visited. */
  lemma {:induction false} PlacedHolds(cells: seq<bool>, f: seq<bool>, size: nat, bits: seq<bool>, n: nat, m: nat)
    requires SymbolSize(size) && m < n <= ScanLength(size)
    requires At(size, size, 0) <= |f| && At(size, size, 0) <= |cells|
    requires !f[Pos(size, m)] && FreeBefore(f, size, m) < |bits|
    ensures Placed(cells, f, size, bits, n)[Pos(size, m)] == bits[FreeBefore(f, size, m)]
  {
    hide Pos, At, ScanLength;
    if m < n - 1 {
      PlacedHolds(cells, f, size, bits, n - 1, m);
      if Pos(size, m) == Pos(size, n - 1) {
        PosIsInjective(size, m, n - 1);
        assert false;
      }
    }
  }

  /** Reading the grid in the order of the scan gives back as many of the placed bits as there is room for. */
  lemma {:induction false} ReadBackPlaced(cells: seq<bool>, f: seq<bool>, size: nat, bits: seq<bool>, n: nat)
    requires SymbolSize(size) && n <= ScanLength(size)
    requires At(size, size, 0) <= |f| && At(size, size, 0) <= |cells|
    ensures var r := ReadBits(Placed(cells, f, size, bits, ScanLength(size)), f, size, n);
            forall i | 0 <= i < |r| && i < |bits| :: r[i] == bits[i]
  {
    hide Pos, At, ScanLength;
    if n > 0 {
      ReadBackPlaced(cells, f, size, bits, n - 1);
      if !f[Pos(size, n - 1)] && FreeBefore(f, size, n - 1) < |bits| {
        PlacedHolds(cells, f, size, bits, ScanLength(size), n - 1);
      }
    }
  }

  /** The body of the scan: the next bit goes to cell (x, y) if that cell is free. */
  method PlaceBit(modules: BitBucket, isFunction: BitBucket, codewords: BitBucket, x: nat, y: nat, i: nat)
    returns (next: nat)
    requires modules.IsGrid() && isFunction.IsGrid()
    requires modules.bitOffsetOrWidth == isFunction.bitOffsetOrWidth
    requires x < modules.bitOffsetOrWidth && y < modules.bitOffsetOrWidth
    requires codewords.bitOffsetOrWidth <= 8 * codewords.data.Length
    requires modules.data != isFunction.data && modules.data != codewords.data
    modifies modules.data
    ensures modules.IsGrid()
    ensures var p := Index(x, y, modules.bitOffsetOrWidth);
            && p < |isFunction.Cells()| && p < |modules.Cells()|
            && (if !isFunction.Cells()[p] && i < codewords.bitOffsetOrWidth
                then next == i + 1 && modules.Cells() == old(modules.Cells())[p := codewords.Cells()[i]]
                else next == i && modules.Cells() == old(modules.Cells()))
  {
    hide AllBits, Index, At;
    next := i;
    var marked := isFunction.GetBit(x, y);
    if !marked && i < codewords.bitOffsetOrWidth {
      var bit := TestBit(codewords.data[i / 8], i % 8);
      BitIs(codewords.data[..], i);
      modules.SetBit(x, y, bit);
      next := i + 1;
    } else {
      IndexInGrid(x, y, modules.bitOffsetOrWidth);
    }
  }

  /** The scan so far: the grid after n visits, and how many bits it has used. */
  ghost predicate ScanState(modules: BitBucket, isFunction: BitBucket, codewords: BitBucket,
                            was: seq<bool>, n: nat, i: nat)
    reads modules, modules.data, isFunction, isFunction.data, codewords, codewords.data
  {
    var size := modules.bitOffsetOrWidth;
    && modules.IsGrid() && isFunction.IsGrid()
    && modules.bitOffsetOrWidth == isFunction.bitOffsetOrWidth && SymbolSize(size)
    && codewords.bitOffsetOrWidth <= 8 * codewords.data.Length
    && n <= ScanLength(size) && At(size, size, 0) <= |was|
    && i == Least(FreeBefore(isFunction.Cells(), size, n), codewords.bitOffsetOrWidth)
    && modules.Cells() == Placed(was, isFunction.Cells(), size, codewords.Cells()[..codewords.bitOffsetOrWidth], n)
  }

  /** One visit takes the scan from n to n + 1. */
  method Visit(modules: BitBucket, isFunction: BitBucket, codewords: BitBucket,
               ghost was: seq<bool>, ghost n: nat, right: nat, vert: nat, j: nat, i: nat, ghost c: nat)
    returns (next: nat)
    requires modules.data != isFunction.data && modules.data != codewords.data
    requires SymbolSize(modules.bitOffsetOrWidth)
    requires 2 * c + 2 < modules.bitOffsetOrWidth && vert < modules.bitOffsetOrWidth && j < 2
    requires right == RightColumn(modules.bitOffsetOrWidth, c)
    requires n == At(2 * modules.bitOffsetOrWidth, c, 2 * vert + j)
    requires ScanState(modules, isFunction, codewords, was, n, i)
    modifies modules.data
    ensures ScanState(modules, isFunction, codewords, was, n + 1, next)
  {
    hide AllBits, Pos, At, CellOf, Placed, FreeBefore, Index;
    var size := modules.bitOffsetOrWidth;
    CellIs(size, c, vert, j, right);
    PosOfVisit(size, c, vert, j);
    PlacedSteps(was, isFunction.Cells(), size, codewords.Cells()[..codewords.bitOffsetOrWidth], n);
    var x := right - j;
    var upwards := (right / 2 % 2 == 0) != (x < 6);
    var y := if upwards then size - 1 - vert else vert;
    next := PlaceBit(modules, isFunction, codewords, x, y, i);
  }

  /** Both columns of a pair, in steps up or down. */
  method ScanColumnPair(modules: BitBucket, isFunction: BitBucket, codewords: BitBucket,
                        ghost was: seq<bool>, right: nat, i: nat, ghost c: nat)
    returns (next: nat)
    requires modules.data != isFunction.data && modules.data != codewords.data
    requires SymbolSize(modules.bitOffsetOrWidth) && 2 * c + 2 < modules.bitOffsetOrWidth
    requires right == RightColumn(modules.bitOffsetOrWidth, c)
    requires ScanState(modules, isFunction, codewords, was, At(2 * modules.bitOffsetOrWidth, c, 0), i)
    modifies modules.data
    ensures ScanState(modules, isFunction, codewords, was, At(2 * modules.bitOffsetOrWidth, c + 1, 0), next)
  {
    hide At, ScanState, RightColumn;
    var size := modules.bitOffsetOrWidth;
    next := i;
    for vert := 0 to size
      invariant ScanState(modules, isFunction, codewords, was, At(2 * size, c, 2 * vert), next)
    {
      for j := 0 to 2
        invariant ScanState(modules, isFunction, codewords, was, At(2 * size, c, 2 * vert + j), next)
      {
        ghost var n := At(2 * size, c, 2 * vert + j);
        next := Visit(modules, isFunction, codewords, was, n, right, vert, j, next, c);
        AtSteps(2 * size, c, 2 * vert + j);
        AtSteps(2 * size, c, 2 * vert + j + 1);
      }
    }
    AtSteps(2 * size, c, 0);
  }

  method DrawCodewords(modules: BitBucket, isFunction: BitBucket, codewords: BitBucket)
    requires modules.IsGrid() && isFunction.IsGrid()
    requires modules.bitOffsetOrWidth == isFunction.bitOffsetOrWidth && SymbolSize(modules.bitOffsetOrWidth)
    requires codewords.bitOffsetOrWidth <= 8 * codewords.data.Length
    requires modules.data != isFunction.data && modules.data != codewords.data
    modifies modules.data
    ensures modules.IsGrid()
    ensures var size := modules.bitOffsetOrWidth;
            modules.Cells() == Placed(old(modules.Cells()), isFunction.Cells(), size,
                                      codewords.Cells()[..codewords.bitOffsetOrWidth], ScanLength(size))
  {
    hide *;
    var size := modules.bitOffsetOrWidth;
    OddSize(size);
    ghost var was := modules.Cells();
    ghost var c := 0;
    var i := 0;
    ScanBegins(modules, isFunction, codewords);
    AtSteps(2 * size, 0, 0);
    var right: int := size - 1;
    while right >= 1
      invariant 2 * c + 1 <= size
      invariant right + 1 + 2 * c + (if size - 1 - 2 * c < 6 then 1 else 0) == size
      invariant ScanState(modules, isFunction, codewords, was, At(2 * size, c, 0), i)
      decreases right
    {
      if right == 6 {
        right := 5;
      }
      RightColumnIs(size, c, right);
      i := ScanColumnPair(modules, isFunction, codewords, was, right, i, c);
      c := c + 1;
      right := right - 2;
    }
    ScanEnds(modules, isFunction, codewords, was, At(2 * size, c, 0), i, c);
  }

  lemma OddSize(size: nat)
    requires SymbolSize(size)
    ensures size % 2 == 1 && size >= 21
  {
  }

  lemma RightColumnIs(size: nat, c: nat, right: nat)
    requires 2 * c + 2 < size
    requires right == if size - 1 - 2 * c <= 6 then size - 2 - 2 * c else size - 1 - 2 * c
    ensures right == RightColumn(size, c)
  {
  }

  lemma ScanBegins(modules: BitBucket, isFunction: BitBucket, codewords: BitBucket)
    requires modules.IsGrid() && isFunction.IsGrid()
    requires modules.bitOffsetOrWidth == isFunction.bitOffsetOrWidth && SymbolSize(modules.bitOffsetOrWidth)
    requires codewords.bitOffsetOrWidth <= 8 * codewords.data.Length
    ensures ScanState(modules, isFunction, codewords, modules.Cells(), 0, 0)
  {
  }

  lemma ScanEnds(modules: BitBucket, isFunction: BitBucket, codewords: BitBucket,
                 was: seq<bool>, n: nat, i: nat, c: nat)
    requires ScanState(modules, isFunction, codewords, was, n, i)
    requires 2 * c + 1 == modules.bitOffsetOrWidth && n == At(2 * modules.bitOffsetOrWidth, c, 0)
    ensures modules.IsGrid()
    ensures var size := modules.bitOffsetOrWidth;
            SymbolSize(size) && At(size, size, 0) <= |was| && At(size, size, 0) <= |isFunction.Cells()|
            && codewords.bitOffsetOrWidth <= |codewords.Cells()|
            && modules.Cells() == Placed(was, isFunction.Cells(), size,
                                      codewords.Cells()[..codewords.bitOffsetOrWidth], ScanLength(size))
  {
    hide Placed, FreeBefore, AllBits, At;
  }

  function Least(a: nat, b: nat): nat {
    if a < b then a else b
  }

  lemma PlacedSteps(cells: seq<bool>, f: seq<bool>, size: nat, bits: seq<bool>, n: nat)
    requires SymbolSize(size) && n < ScanLength(size)
    requires At(size, size, 0) <= |f| && At(size, size, 0) <= |cells|
    ensures FreeBefore(f, size, n + 1) == FreeBefore(f, size, n) + (if f[Pos(size, n)] then 0 else 1)
    ensures Placed(cells, f, size, bits, n + 1) ==
            if !f[Pos(size, n)] && FreeBefore(f, size, n) < |bits|
            then Placed(cells, f, size, bits, n)[Pos(size, n) := bits[FreeBefore(f, size, n)]]
            else Placed(cells, f, size, bits, n)
  {
    hide Pos, At, ScanLength;
  }

  lemma CellIs(size: nat, c: nat, vert: nat, j: nat, right: nat)
    requires SymbolSize(size) && 2 * c + 2 < size && vert < size && j < 2 && right == RightColumn(size, c)
    ensures right >= j
    ensures CellOf(size, c, vert, j) ==
            (right - j, if (right / 2 % 2 == 0) != (right - j < 6) then size - 1 - vert else vert)
  {
  }

  lemma BitIs(data: seq<bv8>, i: nat)
    requires i < 8 * |data|
    ensures TestBit(data[i / 8], i % 8) == AllBits(data)[i]
  {
  }
}
