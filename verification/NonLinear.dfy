/** The few facts about products and quotients that the index arithmetic of the firmware needs. */
module NonLinear {

  lemma MulGrows(p: nat, k: nat)
    requires k >= 1
    ensures p * k >= p
  {
  }

  lemma MulSplits(p: int, a: int, b: int)
    ensures p * (a - b) == p * a - p * b
  {
  }

  /** Quotient and remainder are determined by p*q + r with r < p. */
  lemma DivisionIsUnique(p: nat, q: int, r: nat, q': int, r': nat)
    requires r < p && r' < p
    requires p * q + r == p * q' + r'
    ensures q == q' && r == r'
  {
    if q < q' {
      MulSplits(p, q', q);
      MulGrows(p, q' - q);
      assert false;
    }
    if q' < q {
      MulSplits(p, q, q');
      MulGrows(p, q - q');
      assert false;
    }
  }

  lemma DivMod(p: nat, q: nat, r: nat)
    requires r < p
    ensures (p * q + r) / p == q && (p * q + r) % p == r
  {
    var n := p * q + r;
    DivisionIsUnique(p, q, r, n / p, n % p);
  }

  lemma MulMonotone(p: nat, a: nat, b: nat)
    requires a <= b
    ensures p * a <= p * b
  {
    MulSplits(p, b, a);
  }

  function Quot(n: nat, p: nat): nat
    requires p > 0
  {
    n / p
  }

  function Rest(n: nat, p: nat): nat
    requires p > 0
  {
    n % p
  }

  /** The position of a cell in a table of rows of width p. */
  function At(p: nat, row: nat, col: nat): nat {
    p * row + col
  }

  /** Position n of a table of rows of width p, as row and column. */
  lemma RowOf(p: nat, n: nat, rows: nat)
    requires p > 0 && n < At(p, rows, 0)
    ensures Quot(n, p) < rows && Rest(n, p) < p && n == At(p, Quot(n, p), Rest(n, p))
  {
    if n / p >= rows {
      MulMonotone(p, rows, n / p);
      assert false;
    }
  }

  lemma RowCell(p: nat, row: nat, col: nat, rows: nat)
    requires col < p && row < rows
    ensures At(p, row, col) < At(p, rows, 0)
    ensures Quot(At(p, row, col), p) == row && Rest(At(p, row, col), p) == col
  {
    DivMod(p, row, col);
    MulMonotone(p, row + 1, rows);
    MulSplits(p, row + 1, row);
  }

  lemma AtSteps(p: nat, row: nat, col: nat)
    ensures At(p, row, col) == At(p, row, 0) + col
    ensures At(p, row + 1, 0) == At(p, row, p)
    ensures At(p, 0, col) == col
  {
    MulSplits(p, row + 1, row);
  }
}
