/** The infinite impulse response filter in direct form II; real numbers stand for floats. */
module Iir {

  function Product(a: real, b: real): real {
    a * b
  }

  /** s[k], and zero outside s. */
  function At(s: seq<real>, k: int): real {
    if 0 <= k < |s| then s[k] else 0.0
  }

  /** The sum of c[i] * s[k - i] for lo <= i < hi. */
  function Weighted(c: seq<real>, s: seq<real>, k: int, lo: nat, hi: nat): real
    requires lo <= hi <= |c|
    decreases hi
  {
    if lo == hi then 0.0 else Weighted(c, s, k, lo, hi - 1) + Product(At(s, k - (hi - 1)), c[hi - 1])
  }

  function All(c: seq<real>, s: seq<real>, k: int): real {
    Weighted(c, s, k, 0, |c|)
  }

  lemma {:induction false} WeightedSplits(c: seq<real>, s: seq<real>, k: int, hi: nat)
    requires 0 < hi <= |c|
    ensures Weighted(c, s, k, 0, hi) == Product(At(s, k), c[0]) + Weighted(c, s, k, 1, hi)
  {
    if hi > 1 {
      WeightedSplits(c, s, k, hi - 1);
    } else {
      assert Weighted(c, s, k, 0, 1) == Weighted(c, s, k, 0, 0) + Product(At(s, k), c[0]);
    }
  }

  /** Later elements do not matter. */
  lemma {:induction false} WeightedOfPrefix(c: seq<real>, s: seq<real>, k: int, lo: nat, hi: nat, x: seq<real>)
    requires lo <= hi <= |c| && k - lo < |s|
    ensures Weighted(c, s + x, k, lo, hi) == Weighted(c, s, k, lo, hi)
    decreases hi
  {
    if lo < hi {
      WeightedOfPrefix(c, s, k, lo, hi - 1, x);
      assert At(s + x, k - (hi - 1)) == At(s, k - (hi - 1));
    }
  }

  lemma {:induction false} NothingWeighted(c: seq<real>, s: seq<real>, k: int, lo: nat, hi: nat)
    requires lo <= hi <= |c| && k < lo
    ensures Weighted(c, s, k, lo, hi) == 0.0
    decreases hi
  {
    if lo < hi {
      NothingWeighted(c, s, k, lo, hi - 1);
    }
  }

  /** The class; hist holds the intermediate values of the last N steps in a circle. */
  class Iir {
    const num: seq<real>
    const den: seq<real>
    const hist: array<real>
    var pos: nat
    /** All inputs, intermediate values and outputs since the last reset. */
    ghost var xs: seq<real>
    ghost var ws: seq<real>
    ghost var ys: seq<real>

    ghost predicate Valid()
      reads this, hist
    {
      && 0 < |num| == |den| == hist.Length && pos < |num|
      && (forall i | 1 <= i <= |num| :: hist[Slot(pos, |num|, i)] == At(ws, |ws| - i))
      && Realises(num, den, xs, ws, ys)
    }

    constructor (num: seq<real>, den: seq<real>)
      requires 0 < |num| == |den|
      ensures Valid() && this.num == num && this.den == den && xs == [] && ys == [] && fresh(hist)
    {
      this.num, this.den := num, den;
      hist := new real[|num|](_ => 0.0);
      pos := 0;
      xs, ws, ys := [], [], [];
    }

    method Reset()
      requires Valid()
      modifies this, hist
      ensures Valid() && xs == [] && ys == []
    {
      forall j | 0 <= j < hist.Length {
        hist[j] := 0.0;
      }
      pos := 0;
      xs, ws, ys := [], [], [];
    }

    method Filter(input: real) returns (accNum: real)
      requires Valid()
      modifies this, hist
      ensures Valid() && xs == old(xs) + [input] && ys == old(ys) + [accNum]
    {
      hide Slot, At, Weighted, Realises, Product;
      var n := |num|;
      ghost var m := |ws|;
      NothingYet(num, ws, m);
      NothingYet(den, ws, m);
      SlotsBack(pos, n, 0);
      accNum := 0.0;
      var accDen := 0.0;
      var index := pos;
      ghost var was := hist[..];
      for i := 1 to n
        invariant unchanged(this) && unchanged(hist)
        invariant forall k | 1 <= k <= n :: was[Slot(pos, n, k)] == At(ws, m - k)
        invariant index == Slot(pos, n, i - 1)
        invariant accNum == Weighted(num, ws, m, 1, i) && accDen == Weighted(den, ws, m, 1, i)
      {
        SlotsBack(pos, n, i - 1);
        OneMoreTerm(num, ws, m, i);
        OneMoreTerm(den, ws, m, i);
        index := if index != 0 then index - 1 else n - 1;
        accNum := accNum + Product(hist[index], num[i]);
        accDen := accDen + Product(hist[index], den[i]);
      }
      accNum := accNum + Product(num[0], input - accDen);
      Extend(num, den, xs, ws, ys, input, input - accDen, accNum);
      ghost var values := ws;
      hist[pos] := input - accDen;
      xs, ws, ys := xs + [input], ws + [input - accDen], ys + [accNum];
      ghost var next := (pos + 1) % n;
      Wrap(pos + 1, n);
      forall i | 1 <= i <= n
        ensures hist[Slot(next, n, i)] == At(ws, |ws| - i)
      {
        SlotsMove(pos, n, i);
        AtOfMore(values, input - accDen, |ws| - i);
        if i > 1 {
          assert was[Slot(pos, n, i - 1)] == At(values, |values| - (i - 1));
        }
      }
      pos := (pos + 1) % n;
    }
  }

  /** Where the value of i steps ago is when the next one goes to pos. */
  function Slot(pos: nat, n: nat, i: nat): (s: nat)
    requires pos < n && i <= n
    ensures s < n
  {
    (pos + n - i) % n
  }

  /** One step further back in the circle. */
  lemma SlotsBack(pos: nat, n: nat, i: nat)
    requires pos < n && i < n
    ensures Slot(pos, n, 0) == pos
    ensures Slot(pos, n, i + 1) == if Slot(pos, n, i) != 0 then Slot(pos, n, i) - 1 else n - 1
  {
    Wrap(pos + n, n);
    Wrap(pos + n - i, n);
    Wrap(pos + n - (i + 1), n);
  }

  /** Reduction of a number below 2n. */
  lemma Wrap(a: nat, n: nat)
    requires 0 < n && a < 2 * n
    ensures a % n == if a < n then a else a - n
  {
  }

  /** Seen from the next position, a value is one step further back; the newest is at the old position. */
  lemma SlotsMove(pos: nat, n: nat, i: nat)
    requires pos < n && 1 <= i <= n
    ensures (pos + 1) % n < n
    ensures Slot((pos + 1) % n, n, i) == if i == 1 then pos else Slot(pos, n, i - 1)
    ensures i > 1 ==> Slot(pos, n, i - 1) != pos
  {
    Wrap(pos + 1, n);
    Wrap((pos + 1) % n + n - i, n);
    Wrap(pos + n - (i - 1), n);
  }

  lemma NothingYet(c: seq<real>, s: seq<real>, k: int)
    requires |c| > 0
    ensures Weighted(c, s, k, 1, 1) == 0.0
  {
  }

  lemma OneMoreTerm(c: seq<real>, s: seq<real>, k: int, i: nat)
    requires 1 <= i < |c|
    ensures Weighted(c, s, k, 1, i + 1) == Weighted(c, s, k, 1, i) + Product(At(s, k - i), c[i])
  {
    hide Product;
  }

  lemma AtOfMore(s: seq<real>, x: real, k: int)
    ensures At(s + [x], k) == if k == |s| then x else At(s, k)
  {
  }

  /** The intermediate values solve the recursion for the inputs, and the outputs are read off them. */
  ghost predicate Realises(num: seq<real>, den: seq<real>, xs: seq<real>, ws: seq<real>, ys: seq<real>)
  {
    && 0 < |num| == |den| && |xs| == |ws| == |ys|
    && forall k | 0 <= k < |ws| ::
         && ws[k] == xs[k] - Weighted(den, ws, k, 1, |den|)
         && ys[k] == All(num, ws, k)
  }

  lemma Extend(num: seq<real>, den: seq<real>, xs: seq<real>, ws: seq<real>, ys: seq<real>, x: real, w: real, y: real)
    requires Realises(num, den, xs, ws, ys)
    requires w == x - Weighted(den, ws, |ws|, 1, |den|)
    requires y == Weighted(num, ws, |ws|, 1, |num|) + Product(num[0], w)
    ensures Realises(num, den, xs + [x], ws + [w], ys + [y])
  {
    hide Weighted, At, Product;
    forall k | 0 <= k <= |ws|
      ensures (ws + [w])[k] == (xs + [x])[k] - Weighted(den, ws + [w], k, 1, |den|)
      ensures (ys + [y])[k] == All(num, ws + [w], k)
    {
      WeightedOfPrefix(den, ws, k, 1, |den|, [w]);
      if k < |ws| {
        WeightedOfPrefix(num, ws, k, 0, |num|, [w]);
      } else {
        WeightedOfPrefix(num, ws, k, 1, |num|, [w]);
        WeightedSplits(num, ws + [w], k, |num|);
        AtOfMore(ws, w, k);
        ProductCommutes(num[0], w);
      }
    }
  }

  lemma ProductCommutes(a: real, b: real)
    ensures Product(a, b) == Product(b, a)
  {
  }

  // ---------------------------------------------------------------- the difference equation

  /** The denominator as the equation has it: its first coefficient is one, whatever the array holds. */
  function Monic(den: seq<real>): (r: seq<real>)
    requires |den| > 0
    ensures |r| == |den|
  {
    [1.0] + den[1..]
  }

  lemma {:induction false} SameTail(den: seq<real>, s: seq<real>, k: int, hi: nat)
    requires 0 < hi <= |den|
    ensures Weighted(Monic(den), s, k, 1, hi) == Weighted(den, s, k, 1, hi)
  {
    if hi > 1 {
      SameTail(den, s, k, hi - 1);
    }
  }

  /** x and y are w weighted by the denominator and by the numerator, at all times. */
  lemma InputAndOutput(num: seq<real>, den: seq<real>, xs: seq<real>, ws: seq<real>, ys: seq<real>, k: int)
    requires Realises(num, den, xs, ws, ys) && k < |ws|
    ensures At(xs, k) == All(Monic(den), ws, k) && At(ys, k) == All(num, ws, k)
  {
    if k < 0 {
      NothingWeighted(Monic(den), ws, k, 0, |den|);
      NothingWeighted(num, ws, k, 0, |num|);
    } else {
      SameTail(den, ws, k, |den|);
      WeightedSplits(Monic(den), ws, k, |den|);
    }
  }

  /** The sum over i < m and j < n of a[i] * b[j] * s[k - i - j]. */
  function Double(a: seq<real>, b: seq<real>, s: seq<real>, k: int, m: nat, n: nat): real
    requires m <= |a| && n <= |b|
  {
    if m == 0 then 0.0 else Double(a, b, s, k, m - 1, n) + Product(Weighted(b, s, k - (m - 1), 0, n), a[m - 1])
  }

  lemma {:induction false} DoubleColumn(a: seq<real>, b: seq<real>, s: seq<real>, k: int, m: nat, n: nat)
    requires m <= |a| && 0 < n <= |b|
    ensures Double(a, b, s, k, m, n) == Double(a, b, s, k, m, n - 1) + Product(Weighted(a, s, k - (n - 1), 0, m), b[n - 1])
  {
    if m == 0 {
      assert Weighted(a, s, k - (n - 1), 0, 0) == 0.0;
    } else {
      DoubleColumn(a, b, s, k, m - 1, n);
      var u, v := Weighted(b, s, k - (m - 1), 0, n - 1), At(s, k - (m - 1) - (n - 1));
      var d, e := Double(a, b, s, k, m - 1, n - 1), Weighted(a, s, k - (n - 1), 0, m - 1);
      assert At(s, k - (n - 1) - (m - 1)) == v;
      Rearrange(d, e, u, v, a[m - 1], b[n - 1]);
    }
  }

  lemma Rearrange(d: real, e: real, u: real, v: real, p: real, q: real)
    ensures d + Product(e, q) + Product(u + Product(v, q), p) == d + Product(u, p) + Product(e + Product(v, p), q)
  {
  }

  lemma {:induction false} DoubleIsSymmetric(a: seq<real>, b: seq<real>, s: seq<real>, k: int, n: nat)
    requires n <= |b|
    ensures Double(a, b, s, k, |a|, n) == Double(b, a, s, k, n, |a|)
  {
    if n == 0 {
      DoubleOfNothing(a, b, s, k, |a|);
    } else {
      DoubleIsSymmetric(a, b, s, k, n - 1);
      DoubleColumn(a, b, s, k, |a|, n);
    }
  }

  lemma {:induction false} DoubleOfNothing(a: seq<real>, b: seq<real>, s: seq<real>, k: int, m: nat)
    requires m <= |a|
    ensures Double(a, b, s, k, m, 0) == 0.0
  {
    if m > 0 {
      DoubleOfNothing(a, b, s, k, m - 1);
      assert Product(Weighted(b, s, k - (m - 1), 0, 0), a[m - 1]) == 0.0;
    }
  }

  /** Weighting a weighted sequence is a double sum. */
  lemma {:induction false} WeightedTwice(a: seq<real>, b: seq<real>, s: seq<real>, t: seq<real>, k: int, m: nat)
    requires m <= |a| && forall i: int | i <= k :: At(t, i) == All(b, s, i)
    ensures Weighted(a, t, k, 0, m) == Double(a, b, s, k, m, |b|)
  {
    if m > 0 {
      WeightedTwice(a, b, s, t, k, m - 1);
      assert At(t, k - (m - 1)) == All(b, s, k - (m - 1));
    }
  }

  /** The outputs satisfy the filter's difference equation, from zero history on, at every step. */
  lemma DifferenceEquation(num: seq<real>, den: seq<real>, xs: seq<real>, ws: seq<real>, ys: seq<real>, k: nat)
    requires Realises(num, den, xs, ws, ys) && k < |xs|
    ensures All(Monic(den), ys, k) == All(num, xs, k)
  {
    forall i: int | i <= k
      ensures At(xs, i) == All(Monic(den), ws, i) && At(ys, i) == All(num, ws, i)
    {
      InputAndOutput(num, den, xs, ws, ys, i);
    }
    WeightedTwice(Monic(den), num, ws, ys, k, |den|);
    WeightedTwice(num, Monic(den), ws, xs, k, |num|);
    DoubleIsSymmetric(Monic(den), num, ws, k, |num|);
  }

  /** Spelled out for a second-order section. */
  lemma SecondOrder(num: seq<real>, den: seq<real>, xs: seq<real>, ws: seq<real>, ys: seq<real>, k: nat)
    requires Realises(num, den, xs, ws, ys) && k < |xs| && |num| == 3
    ensures ys[k] + den[1] * At(ys, k - 1) + den[2] * At(ys, k - 2)
            == num[0] * xs[k] + num[1] * At(xs, k - 1) + num[2] * At(xs, k - 2)
  {
    hide All, At, Realises, Product;
    DifferenceEquation(num, den, xs, ws, ys, k);
    SameLength(num, den, xs, ws, ys);
    ThreeTerms(num, xs, k);
    ThreeTerms(Monic(den), ys, k);
    Factors(num, xs, k);
    Factors(Monic(den), ys, k);
  }

  lemma SameLength(num: seq<real>, den: seq<real>, xs: seq<real>, ws: seq<real>, ys: seq<real>)
    requires Realises(num, den, xs, ws, ys)
    ensures |num| == |den| && |xs| == |ys|
  {
  }

  lemma Factors(c: seq<real>, s: seq<real>, k: nat)
    requires |c| == 3 && k < |s|
    ensures Product(At(s, k), c[0]) == c[0] * s[k]
    ensures Product(At(s, k - 1), c[1]) == c[1] * At(s, k - 1) && Product(At(s, k - 2), c[2]) == c[2] * At(s, k - 2)
  {
  }

  lemma ThreeTerms(c: seq<real>, s: seq<real>, k: nat)
    requires |c| == 3
    ensures All(c, s, k) == Product(At(s, k), c[0]) + Product(At(s, k - 1), c[1]) + Product(At(s, k - 2), c[2])
  {
    hide Product, At;
    assert Weighted(c, s, k, 0, 1) == Weighted(c, s, k, 0, 0) + Product(At(s, k), c[0]);
    assert Weighted(c, s, k, 0, 2) == Weighted(c, s, k, 0, 1) + Product(At(s, k - 1), c[1]);
  }
}
