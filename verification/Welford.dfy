/**
  The online mean and variance update of scheduler/gthr.c (Welford's method), over exact reals,
  against the two-pass definitions it replaces.
 */
module Welford {

  datatype Moments = Moments(avg: real, variance: real)

  /** The update for the `count`-th value. */
  function Update(m: Moments, value: real, count: nat): Moments
    requires count > 0
  {
    var delta := value - m.avg;
    var avg := m.avg + delta / count as real;
    Moments(avg, m.variance + delta * (value - avg))
  }

  /** The moments after all of `vs`, oldest first. */
  function Accumulate(vs: seq<real>): Moments {
    if vs == [] then Moments(0.0, 0.0)
    else Update(Accumulate(vs[..|vs| - 1]), vs[|vs| - 1], |vs|)
  }

  // ----- two-pass reference definitions -------------------------------------------------

  function Total(vs: seq<real>): real {
    if vs == [] then 0.0 else Total(vs[..|vs| - 1]) + vs[|vs| - 1]
  }

  function Square(v: real): real { v * v }

  ghost function Squares(vs: seq<real>): real {
    if vs == [] then 0.0 else Squares(vs[..|vs| - 1]) + Square(vs[|vs| - 1])
  }

  /** The sum of the squared deviations of all values from `m`. */
  ghost function Deviation(vs: seq<real>, m: real): real {
    if vs == [] then 0.0 else Deviation(vs[..|vs| - 1], m) + Square(vs[|vs| - 1] - m)
  }

  /** `avg` is the mean of `n` values that add up to `total`. */
  ghost predicate MeanOf(avg: real, n: real, total: real) {
    avg * n == total
  }

  /** `variance` is the square sum `q` of `n` values less `n` squares of their mean. */
  ghost predicate VarianceOf(variance: real, q: real, n: real, avg: real) {
    variance == q - n * Square(avg)
  }

  /** The square sum `q` and sum `s` of `n` values, expanded about `m`. */
  ghost function Expanded(q: real, s: real, n: real, m: real): real {
    q - 2.0 * (m * s) + n * Square(m)
  }

  // ----- algebra of one step --------------------------------------------------------------

  lemma ExpandStep(q: real, s: real, n: real, v: real, m: real)
    ensures Expanded(q, s, n, m) + Square(v - m) == Expanded(q + Square(v), s + v, n + 1.0, m)
  {
    assert Square(v - m) == Square(v) - 2.0 * (m * v) + Square(m);
    assert m * (s + v) == m * s + m * v;
    assert (n + 1.0) * Square(m) == n * Square(m) + Square(m);
  }

  /** `n` values instead of `n1`, one fewer, with mean `b` instead of `a`. */
  lemma MeanStep(a: real, v: real, n1: real, n: real, total: real)
    requires n == n1 + 1.0 && n != 0.0 && MeanOf(a, n1, total)
    ensures MeanOf(a + (v - a) / n, n, total + v)
  {
    assert (a + (v - a) / n) * n == a * n + ((v - a) / n) * n;
    assert a * n == a * n1 + a;
  }

  lemma MeanInverted(a: real, b: real, n1: real, n: real, total: real, v: real)
    requires MeanOf(a, n1, total) && MeanOf(b, n, total + v)
    ensures v == n * b - n1 * a
  {
  }

  lemma CrossTerms(a: real, b: real, n1: real, n: real, x: real)
    requires n == n1 + 1.0 && x == n * b - n1 * a
    ensures (x - a) * (x - b) == Square(x) + n1 * Square(a) - n * Square(b)
  {
    assert (x - a) * (x - b) == Square(x) - a * x - b * x + a * b;
    assert a * x == n * (a * b) - n1 * Square(a);
    assert b * x == n * Square(b) - n1 * (a * b);
    assert n * (a * b) == n1 * (a * b) + a * b;
  }

  lemma VarianceStep(variance: real, q: real, a: real, b: real, n1: real, n: real, v: real)
    requires n == n1 + 1.0 && v == n * b - n1 * a && VarianceOf(variance, q, n1, a)
    ensures VarianceOf(variance + (v - a) * (v - b), q + Square(v), n, b)
  {
    CrossTerms(a, b, n1, n, v);
  }

  lemma CompleteSquare(q: real, s: real, n: real, m: real)
    requires MeanOf(m, n, s)
    ensures VarianceOf(Expanded(q, s, n, m), q, n, m)
  {
    assert m * s == n * Square(m);
  }

  lemma UpdateMean(m: Moments, v: real, count: nat, total: real)
    requires count > 0 && MeanOf(m.avg, (count - 1) as real, total)
    ensures MeanOf(Update(m, v, count).avg, count as real, total + v)
  {
    assert count as real == (count - 1) as real + 1.0;
    MeanStep(m.avg, v, (count - 1) as real, count as real, total);
  }

  lemma UpdateUnfolds(m: Moments, v: real, count: nat)
    requires count > 0
    ensures var b := Update(m, v, count).avg;
            Update(m, v, count).variance == m.variance + (v - m.avg) * (v - b)
  {
  }

  lemma UpdateVariance(m: Moments, v: real, count: nat, total: real, q: real)
    requires count > 0 && MeanOf(m.avg, (count - 1) as real, total)
    requires VarianceOf(m.variance, q, (count - 1) as real, m.avg)
    ensures var m' := Update(m, v, count); VarianceOf(m'.variance, q + Square(v), count as real, m'.avg)
  {
    hide *;
    var n1, n, b := (count - 1) as real, count as real, Update(m, v, count).avg;
    assert n == n1 + 1.0;
    UpdateMean(m, v, count, total);
    UpdateUnfolds(m, v, count);
    MeanInverted(m.avg, b, n1, n, total, v);
    VarianceStep(m.variance, q, m.avg, b, n1, n, v);
  }

  // ----- the theorems -----------------------------------------------------------------------

  lemma {:induction false} DeviationExpanded(vs: seq<real>, m: real)
    ensures Deviation(vs, m) == Expanded(Squares(vs), Total(vs), |vs| as real, m)
  {
    if vs == [] {
      assert Expanded(0.0, 0.0, 0.0, m) == 0.0;
    } else {
      var rest := vs[..|vs| - 1];
      DeviationExpanded(rest, m);
      ExpandStep(Squares(rest), Total(rest), |rest| as real, vs[|vs| - 1], m);
      assert |vs| as real == |rest| as real + 1.0;
    }
  }

  /** The accumulated mean times the number of values is their sum, with no error. */
  lemma {:induction false} MomentsExact(vs: seq<real>)
    ensures MeanOf(Accumulate(vs).avg, |vs| as real, Total(vs))
    ensures VarianceOf(Accumulate(vs).variance, Squares(vs), |vs| as real, Accumulate(vs).avg)
  {
    if vs == [] {
      assert MeanOf(0.0, 0.0, 0.0) && VarianceOf(0.0, 0.0, 0.0, 0.0);
    } else {
      var rest, v := vs[..|vs| - 1], vs[|vs| - 1];
      MomentsExact(rest);
      UpdateMean(Accumulate(rest), v, |vs|, Total(rest));
      UpdateVariance(Accumulate(rest), v, |vs|, Total(rest), Squares(rest));
    }
  }

  /** The accumulated variance is the sum of squared deviations of all values from their mean. */
  lemma VarianceIsExact(vs: seq<real>)
    ensures Accumulate(vs).variance == Deviation(vs, Accumulate(vs).avg)
  {
    MomentsExact(vs);
    DeviationExpanded(vs, Accumulate(vs).avg);
    CompleteSquare(Squares(vs), Total(vs), |vs| as real, Accumulate(vs).avg);
  }
}
