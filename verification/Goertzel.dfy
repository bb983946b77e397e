/** The modified Goertzel filter, a bank of tone detectors; real numbers stand for floats. */
module Goertzel {

  // ---------------------------------------------------------------- one tone

  /** The two states of a tone after the samples. */
  datatype Tone = Tone(u0: real, u1: real)

  function Step(k: real, t: Tone, x: real): Tone {
    Tone(x + k * t.u0 - t.u1, t.u0)
  }

  function ToneOf(k: real, xs: seq<real>): Tone {
    if |xs| == 0 then Tone(0.0, 0.0) else Step(k, ToneOf(k, xs[..|xs| - 1]), xs[|xs| - 1])
  }

  function Power(k: real, t: Tone): real {
    t.u0 * t.u0 + t.u1 * t.u1 - t.u0 * t.u1 * k
  }

  // ---------------------------------------------------------------- the power as a double sum

  /** The Chebyshev polynomials of k / 2; for k = 2 cos w, the cosine of m w. */
  function T(k: real, m: nat): real {
    if m == 0 then 1.0 else if m == 1 then k / 2.0 else k * T(k, m - 1) - T(k, m - 2)
  }

  function Distance(i: nat, j: nat): nat {
    if i < j then j - i else i - j
  }

  function Product(a: real, b: real): real {
    a * b
  }

  /** The sum over j < n of xs[i] * xs[j] * T(|i - j|). */
  function Row(k: real, xs: seq<real>, i: nat, n: nat): real
    requires i < |xs| && n <= |xs|
  {
    if n == 0 then 0.0 else Row(k, xs, i, n - 1) + Product(Product(xs[i], xs[n - 1]), T(k, Distance(i, n - 1)))
  }

  /** The sum over i < m and j < n of xs[i] * xs[j] * T(|i - j|). */
  function DoubleSum(k: real, xs: seq<real>, m: nat, n: nat): real
    requires m <= |xs| && n <= |xs|
  {
    if m == 0 then 0.0 else DoubleSum(k, xs, m - 1, n) + Row(k, xs, m - 1, n)
  }

  /** The samples correlated with T, the newest with T(d). */
  function Lag(k: real, xs: seq<real>, d: nat): real
    decreases |xs|
  {
    if |xs| == 0 then 0.0 else Lag(k, xs[..|xs| - 1], d + 1) + Product(xs[|xs| - 1], T(k, d))
  }

  lemma LagStep(k: real, xs: seq<real>, d: nat)
    requires |xs| > 0
    ensures Lag(k, xs, d) == Lag(k, xs[..|xs| - 1], d + 1) + Product(xs[|xs| - 1], T(k, d))
  {
  }

  lemma TStep(k: real, d: nat)
    ensures T(k, 0) == 1.0 && T(k, 1) == k / 2.0 && T(k, d + 2) == Product(k, T(k, d + 1)) - T(k, d)
  {
  }

  lemma RecurrenceStep(k: real, a: real, b: real, c: real, x: real, p: real, q: real, r: real)
    requires c == Product(k, b) - a && r == Product(k, q) - p
    ensures c + Product(x, r) == Product(k, b + Product(x, q)) - (a + Product(x, p))
  {
    assert x * (k * q - p) == k * (x * q) - x * p;
  }

  lemma {:induction false} LagRecurrence(k: real, xs: seq<real>, d: nat)
    ensures Lag(k, xs, d + 2) == Product(k, Lag(k, xs, d + 1)) - Lag(k, xs, d)
    decreases |xs|
  {
    if |xs| == 0 {
      assert Product(k, 0.0) == 0.0;
    } else {
      hide *;
      var ys, x := xs[..|xs| - 1], xs[|xs| - 1];
      LagRecurrence(k, ys, d + 1);
      LagStep(k, xs, d);
      LagStep(k, xs, d + 1);
      LagStep(k, xs, d + 2);
      TStep(k, d);
      RecurrenceStep(k, Lag(k, ys, d + 1), Lag(k, ys, d + 2), Lag(k, ys, d + 3), x, T(k, d), T(k, d + 1), T(k, d + 2));
    }
  }

  /** The two correlations as the states give them. */
  function Lag0(k: real, t: Tone): real {
    t.u0 - k / 2.0 * t.u1
  }

  function Lag1(k: real, t: Tone): real {
    k / 2.0 * t.u0 - t.u1
  }

  /** The states are correlations of the samples. */
  lemma {:induction false} StatesAreLags(k: real, xs: seq<real>)
    ensures Lag(k, xs, 0) == Lag0(k, ToneOf(k, xs)) && Lag(k, xs, 1) == Lag1(k, ToneOf(k, xs))
  {
    if |xs| > 0 {
      hide *;
      var ys, x := xs[..|xs| - 1], xs[|xs| - 1];
      StatesAreLags(k, ys);
      LagRecurrence(k, ys, 0);
      LagStep(k, xs, 0);
      LagStep(k, xs, 1);
      TStep(k, 0);
      ToneOfMore(k, ys, x);
      assert ys + [x] == xs;
      StateStep(k, ToneOf(k, ys), x, Lag(k, ys, 2));
    }
  }

  lemma StateStep(k: real, t: Tone, x: real, d2: real)
    requires d2 == Product(k, Lag1(k, t)) - Lag0(k, t)
    ensures Lag1(k, t) + Product(x, 1.0) == Lag0(k, Step(k, t, x))
    ensures d2 + Product(x, k / 2.0) == Lag1(k, Step(k, t, x))
  {
    var h := k / 2.0;
    assert k == 2.0 * h;
    HalfStep(h, t.u0, t.u1, x);
  }

  lemma HalfStep(h: real, u0: real, u1: real, x: real)
    ensures 2.0 * h * (h * u0 - u1) - (u0 - h * u1) + Product(x, h) == h * (x + 2.0 * h * u0 - u1) - u0
  {
  }

  /** One more sample adds its square and twice its product with the correlation of the others. */
  lemma PowerStep(k: real, t: Tone, x: real)
    ensures Power(k, Step(k, t, x)) == Power(k, t) + Product(x, x) + 2.0 * Product(x, Lag1(k, t))
  {
    var v := k * t.u0 - t.u1;
    assert Power(k, Step(k, t, x)) == (x + v) * (x + v) + t.u0 * t.u0 - (x + v) * t.u0 * k;
    assert (x + v) * (x + v) == x * x + 2.0 * x * v + v * v;
    assert (x + v) * t.u0 * k == x * (t.u0 * k) + v * (t.u0 * k);
    assert v * v - v * (t.u0 * k) == -(v * t.u1);
    assert v * t.u1 == k * t.u0 * t.u1 - t.u1 * t.u1;
  }

  // The double sum grows by a row and a column.

  lemma {:induction false} RowOfPrefix(k: real, ys: seq<real>, x: real, i: nat, n: nat)
    requires i < |ys| && n <= |ys|
    ensures Row(k, ys + [x], i, n) == Row(k, ys, i, n)
  {
    if n > 0 {
      RowOfPrefix(k, ys, x, i, n - 1);
    }
  }

  /** The samples before m, each multiplied with its T towards position p. */
  function Column(k: real, xs: seq<real>, m: nat, p: nat): real
    requires m <= |xs| && m <= p
  {
    if m == 0 then 0.0 else Column(k, xs, m - 1, p) + Product(xs[m - 1], T(k, p - (m - 1)))
  }

  lemma {:induction false} ColumnIsLag(k: real, xs: seq<real>, m: nat, d: nat)
    requires m <= |xs|
    ensures Column(k, xs, m, m + d) == Lag(k, xs[..m], d + 1)
  {
    if m > 0 {
      ColumnIsLag(k, xs, m - 1, d + 1);
      assert xs[..m][..m - 1] == xs[..m - 1];
    }
  }

  lemma {:induction false} NewColumn(k: real, ys: seq<real>, x: real, m: nat)
    requires m <= |ys|
    ensures DoubleSum(k, ys + [x], m, |ys| + 1) == DoubleSum(k, ys, m, |ys|) + Product(x, Column(k, ys, m, |ys|))
  {
    if m > 0 {
      NewColumn(k, ys, x, m - 1);
      RowOfPrefix(k, ys, x, m - 1, |ys|);
      Factor(x, Column(k, ys, m - 1, |ys|), ys[m - 1], T(k, |ys| - (m - 1)));
    }
  }

  lemma Factor(x: real, c: real, y: real, t: real)
    ensures Product(x, c) + Product(Product(y, x), t) == Product(x, c + Product(y, t))
    ensures Product(x, c) + Product(Product(x, y), t) == Product(x, c + Product(y, t))
  {
    assert x * y == y * x;
    assert x * y * t == x * (y * t);
    assert x * (c + y * t) == x * c + x * (y * t);
  }

  lemma {:induction false} NewRow(k: real, ys: seq<real>, x: real, n: nat)
    requires n <= |ys|
    ensures Row(k, ys + [x], |ys|, n) == Product(x, Column(k, ys, n, |ys|))
  {
    if n > 0 {
      NewRow(k, ys, x, n - 1);
      Factor(x, Column(k, ys, n - 1, |ys|), ys[n - 1], T(k, |ys| - (n - 1)));
    }
  }

  lemma DoubleSumStep(k: real, ys: seq<real>, x: real)
    ensures DoubleSum(k, ys + [x], |ys| + 1, |ys| + 1)
            == DoubleSum(k, ys, |ys|, |ys|) + Product(x, x) + 2.0 * Product(x, Lag(k, ys, 1))
  {
    NewColumn(k, ys, x, |ys|);
    NewRow(k, ys, x, |ys|);
    ColumnIsLag(k, ys, |ys|, 0);
    assert ys[..|ys|] == ys;
    var n := |ys|;
    assert Row(k, ys + [x], n, n + 1) == Row(k, ys + [x], n, n) + Product(Product(x, x), T(k, 0));
    hide Lag, Row, DoubleSum, Column;
  }

  /** The power of a tone is the double sum over all pairs of samples of their product times T of their distance. */
  lemma {:induction false} PowerIsDoubleSum(k: real, xs: seq<real>)
    ensures Power(k, ToneOf(k, xs)) == DoubleSum(k, xs, |xs|, |xs|)
  {
    if |xs| > 0 {
      hide *;
      var ys, x := xs[..|xs| - 1], xs[|xs| - 1];
      PowerIsDoubleSum(k, ys);
      StatesAreLags(k, ys);
      ToneOfMore(k, ys, x);
      PowerStep(k, ToneOf(k, ys), x);
      DoubleSumStep(k, ys, x);
      assert ys + [x] == xs;
    }
  }

  /** Silence leaves the power as it is. */
  lemma {:induction false} SilenceKeepsPower(k: real, xs: seq<real>, n: nat)
    ensures Power(k, ToneOf(k, xs + Zeros(n))) == Power(k, ToneOf(k, xs))
  {
    if n == 0 {
      assert xs + Zeros(0) == xs;
    } else {
      SilenceKeepsPower(k, xs, n - 1);
      assert (xs + Zeros(n))[..|xs| + n - 1] == xs + Zeros(n - 1);
      PowerStep(k, ToneOf(k, xs + Zeros(n - 1)), 0.0);
    }
  }

  function Zeros(n: nat): (r: seq<real>)
    ensures |r| == n
  {
    seq(n, _ => 0.0)
  }

  // ---------------------------------------------------------------- the bank

  class Goertzel {
    const k: seq<real>
    const u0: array<real>
    const u1: array<real>
    /** All samples since the last reset. */
    ghost var inputs: seq<real>

    ghost predicate Valid()
      reads this, u0, u1
    {
      && u0 != u1 && u0.Length == u1.Length == |k|
      && forall i | 0 <= i < |k| :: Tone(u0[i], u1[i]) == ToneOf(k[i], inputs)
    }

    constructor (coeffs: seq<real>)
      ensures Valid() && k == coeffs && inputs == [] && fresh(u0) && fresh(u1)
    {
      k := coeffs;
      u0 := new real[|coeffs|](_ => 0.0);
      u1 := new real[|coeffs|](_ => 0.0);
      inputs := [];
    }

    method Reset()
      requires Valid()
      modifies this, u0, u1
      ensures Valid() && inputs == []
    {
      forall i | 0 <= i < u0.Length {
        u0[i] := 0.0;
      }
      forall i | 0 <= i < u1.Length {
        u1[i] := 0.0;
      }
      inputs := [];
    }

    method Sample(value: int)
      requires Valid()
      modifies this, u0, u1
      ensures Valid() && inputs == old(inputs) + [value as real]
    {
      hide ToneOf;
      ghost var was, x := inputs, value as real;
      for i := 0 to |k|
        invariant inputs == was
        invariant forall j | 0 <= j < i :: Tone(u0[j], u1[j]) == Step(k[j], ToneOf(k[j], was), x)
        invariant forall j | i <= j < |k| :: Tone(u0[j], u1[j]) == ToneOf(k[j], was)
      {
        var u := value as real + k[i] * u0[i] - u1[i];
        u1[i] := u0[i];
        u0[i] := u;
      }
      inputs := inputs + [x];
      forall i | 0 <= i < |k|
        ensures Tone(u0[i], u1[i]) == ToneOf(k[i], inputs)
      {
        ToneOfMore(k[i], was, x);
      }
    }

    method Samples(samples: array<int>)
      requires Valid()
      modifies this, u0, u1
      ensures Valid() && inputs == old(inputs) + Reals(samples[..])
    {
      assert inputs + Reals(samples[..0]) == inputs;
      for i := 0 to samples.Length
        invariant Valid() && inputs == old(inputs) + Reals(samples[..i])
      {
        assert Reals(samples[..i + 1]) == Reals(samples[..i]) + [samples[i] as real];
        Sample(samples[i]);
      }
      assert samples[..samples.Length] == samples[..];
    }

    /** The double sum over all samples so far; zero for a tone that the bank does not have. */
    method PowerOf(freq: nat) returns (p: real)
      requires Valid()
      ensures p == if freq < |k| then DoubleSum(k[freq], inputs, |inputs|, |inputs|) else 0.0
    {
      if freq >= |k| {
        return 0.0;
      }
      PowerIsDoubleSum(k[freq], inputs);
      p := u0[freq] * u0[freq] + u1[freq] * u1[freq] - u0[freq] * u1[freq] * k[freq];
      assert p == Power(k[freq], Tone(u0[freq], u1[freq]));
    }
  }

  lemma ToneOfMore(k: real, xs: seq<real>, x: real)
    ensures ToneOf(k, xs + [x]) == Step(k, ToneOf(k, xs), x)
  {
    assert (xs + [x])[..|xs|] == xs;
  }

  function Reals(xs: seq<int>): (r: seq<real>)
    ensures |r| == |xs|
  {
    seq(|xs|, i requires 0 <= i < |xs| => xs[i] as real)
  }

  /** For two samples the power is a^2 + b^2 + k*a*b. */
  lemma PowerOfTwo(k: real, a: real, b: real)
    ensures Power(k, ToneOf(k, [a, b])) == a * a + b * b + k * a * b
  {
    assert [a, b][..1] == [a] && [a][..0] == [];
    assert ToneOf(k, [a]) == Tone(a, 0.0);
    assert ToneOf(k, [a, b]) == Tone(b + k * a, a);
    var u := b + k * a;
    assert u * u == u * b + u * (k * a);
  }
}
