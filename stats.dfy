/** The per-category statistics of the ranking (nba_analysis.py, lines 76-82): pandas' mean,
    its sample standard deviation, and the guarded z-score. */
module Stats {
  import opened Cells

  function Sum(xs: seq<real>): real
  {
    if xs == [] then 0.0 else Sum(xs[..|xs| - 1]) + xs[|xs| - 1]
  }

  /** `Series.mean()` on a column without NaN. */
  function Mean(xs: seq<real>): real
    requires |xs| > 0
  {
    Sum(xs) / |xs| as real
  }

  lemma {:induction false} SumBetween(xs: seq<real>, lo: real, hi: real)
    requires forall k :: 0 <= k < |xs| ==> lo <= xs[k] <= hi
    ensures |xs| as real * lo <= Sum(xs) <= |xs| as real * hi
  {
    if xs != [] {
      SumBetween(xs[..|xs| - 1], lo, hi);
    }
  }

  /** The mean lies between any lower and upper bound of the values. */
  lemma MeanBetween(xs: seq<real>, lo: real, hi: real)
    requires |xs| > 0
    requires forall k :: 0 <= k < |xs| ==> lo <= xs[k] <= hi
    ensures lo <= Mean(xs) <= hi
  {
    SumBetween(xs, lo, hi);
    var n := |xs| as real;
    assert Mean(xs) * n == Sum(xs);
    assert (Mean(xs) - lo) * n >= 0.0;
    assert (hi - Mean(xs)) * n >= 0.0;
  }

  function Square(d: real): real
  {
    d * d
  }

  lemma SquarePositive(d: real)
    requires d > 0.0
    ensures Square(d) > 0.0
  {
    calc {
      Square(d);
      d * d;
    > { assert d * d > 0.0 * d; }
      0.0 * d;
      0.0;
    }
  }

  /** A square is never negative, and is zero only for zero. */
  lemma SquareSign(d: real)
    ensures Square(d) >= 0.0
    ensures Square(d) == 0.0 <==> d == 0.0
  {
    if d > 0.0 {
      SquarePositive(d);
    } else if d < 0.0 {
      SquarePositive(-d);
      assert Square(-d) == Square(d);
    }
  }

  /** The sum of squared deviations from `m`. */
  function SquaredDeviations(xs: seq<real>, m: real): (r: real)
    ensures r >= 0.0
  {
    if xs == [] then 0.0
    else
      SquareSign(xs[|xs| - 1] - m);
      SquaredDeviations(xs[..|xs| - 1], m) + Square(xs[|xs| - 1] - m)
  }

  /** The variance pandas' `std()` takes the root of: divided by n - 1 (ddof = 1). */
  function SampleVariance(xs: seq<real>): (v: real)
    requires |xs| >= 2
    ensures v >= 0.0
  {
    SquaredDeviations(xs, Mean(xs)) / (|xs| - 1) as real
  }

  /** The square root is not part of the model: it is a parameter, and every property below
      holds for any function that returns the non-negative root of a non-negative number. */
  ghost predicate IsSqrt(sqrt: real -> real)
  {
    forall x :: 0.0 <= x ==> 0.0 <= sqrt(x) && Square(sqrt(x)) == x
  }

  /** `Series.std()`: the sample standard deviation; NaN (None) for fewer than two values. */
  function SampleStd(xs: seq<real>, sqrt: real -> real): (r: Option<real>)
    ensures r.None? <==> |xs| < 2
    ensures r.Some? && IsSqrt(sqrt) ==> r.value >= 0.0 && Square(r.value) == SampleVariance(xs)
  {
    if |xs| < 2 then None else Some(sqrt(SampleVariance(xs)))
  }

  predicate AllEqual(xs: seq<real>)
  {
    forall a, b :: 0 <= a < |xs| && 0 <= b < |xs| ==> xs[a] == xs[b]
  }

  /** The numeric value of a cell in a sum that skips NaN (pandas' default `skipna=True`);
      applied only to z-score cells, which hold numbers or NaN. */
  function SkipNaValue(c: Cell): real
  {
    match c
    case Int(i) => i as real
    case Float(x) => x
    case _ => 0.0
  }

  function SkipNaSum(cells: seq<Cell>): real
  {
    if cells == [] then 0.0 else SkipNaSum(cells[..|cells| - 1]) + SkipNaValue(cells[|cells| - 1])
  }

  /** Lines 76-82 for one category column `xs`: when `std == 0` every z is the integer 0 and
      nothing is divided; otherwise z = (x - mean) / std, which is NaN throughout when std is
      NaN (fewer than two players). */
  function ZScores(xs: seq<real>, sqrt: real -> real): (zs: seq<Cell>)
    ensures |zs| == |xs|
    ensures forall k :: 0 <= k < |zs| ==> (zs[k].Missing? <==> |xs| < 2)
    ensures forall k :: 0 <= k < |zs| ==> zs[k].Missing? || zs[k].Int? || zs[k].Float?
    ensures SampleStd(xs, sqrt) == Some(0.0) ==> forall k :: 0 <= k < |zs| ==> zs[k] == Int(0)
  {
    match SampleStd(xs, sqrt)
    case None => seq(|xs|, k => Missing)
    case Some(s) =>
      if s == 0.0 then seq(|xs|, k => Int(0))
      else seq(|xs|, k requires 0 <= k < |xs| => Float((xs[k] - Mean(xs)) / s))
  }

  lemma {:induction false} SumOfConstant(xs: seq<real>, c: real)
    requires forall k :: 0 <= k < |xs| ==> xs[k] == c
    ensures Sum(xs) == |xs| as real * c
  {
    if xs != [] {
      SumOfConstant(xs[..|xs| - 1], c);
    }
  }

  lemma {:induction false} SquaredDeviationsZero(xs: seq<real>, m: real)
    ensures SquaredDeviations(xs, m) == 0.0 <==> forall k :: 0 <= k < |xs| ==> xs[k] == m
  {
    if xs != [] {
      var init := xs[..|xs| - 1];
      var d := xs[|xs| - 1] - m;
      SquaredDeviationsZero(init, m);
      SquareSign(d);
      assert forall k :: 0 <= k < |init| ==> init[k] == xs[k];
    }
  }

  /** A category's sample variance is zero exactly when every player has the same value. */
  lemma SampleVarianceZeroIffAllEqual(xs: seq<real>)
    requires |xs| >= 2
    ensures SampleVariance(xs) == 0.0 <==> AllEqual(xs)
  {
    var m := Mean(xs);
    SquaredDeviationsZero(xs, m);
    if AllEqual(xs) {
      SumOfConstant(xs, xs[0]);
      assert m == xs[0];
    }
  }

  /** The guard at line 79 fires exactly for a category in which all players are equal. */
  lemma StdZeroIffAllEqual(xs: seq<real>, sqrt: real -> real)
    requires IsSqrt(sqrt) && |xs| >= 2
    ensures SampleStd(xs, sqrt) == Some(0.0) <==> AllEqual(xs)
  {
    var v := SampleVariance(xs);
    SampleVarianceZeroIffAllEqual(xs);
    var s := sqrt(v);
    assert SampleStd(xs, sqrt) == Some(s);
    assert s >= 0.0 && Square(s) == v;
    SquareSign(s);
  }

  /** Zero-variance guard: a category in which all players are equal gives every player a
      z-score of exactly 0. */
  lemma ZScoresOfEqualCategory(xs: seq<real>, sqrt: real -> real)
    requires IsSqrt(sqrt) && |xs| >= 2 && AllEqual(xs)
    ensures forall k :: 0 <= k < |xs| ==> ZScores(xs, sqrt)[k] == Int(0)
  {
    StdZeroIffAllEqual(xs, sqrt);
  }

  /** With two or more players, a z-score is positive exactly when the value is above the
      category mean, and negative exactly when it is below. */
  lemma ZScoreSign(xs: seq<real>, sqrt: real -> real, k: nat)
    requires IsSqrt(sqrt) && |xs| >= 2 && k < |xs|
    ensures SkipNaValue(ZScores(xs, sqrt)[k]) > 0.0 <==> xs[k] > Mean(xs)
    ensures SkipNaValue(ZScores(xs, sqrt)[k]) < 0.0 <==> xs[k] < Mean(xs)
  {
    var m := Mean(xs);
    var s := sqrt(SampleVariance(xs));
    StdZeroIffAllEqual(xs, sqrt);
    if s == 0.0 {
      SumOfConstant(xs, xs[0]);
      assert m == xs[0];
    } else {
      assert s > 0.0;
      var d := xs[k] - m;
      assert ZScores(xs, sqrt)[k] == Float(d / s);
      assert d > 0.0 ==> d / s > 0.0;
      assert d < 0.0 ==> d / s < 0.0;
      assert d == 0.0 ==> d / s == 0.0;
    }
  }

  lemma {:induction false} SumOfScaledDeviations(xs: seq<real>, zs: seq<Cell>, m: real, s: real)
    requires s != 0.0 && |zs| == |xs|
    requires forall k :: 0 <= k < |xs| ==> zs[k] == Float((xs[k] - m) / s)
    ensures SkipNaSum(zs) * s == Sum(xs) - |xs| as real * m
  {
    if xs != [] {
      var n := |xs|;
      SumOfScaledDeviations(xs[..n - 1], zs[..n - 1], m, s);
      var z := (xs[n - 1] - m) / s;
      assert z * s == xs[n - 1] - m;
      assert SkipNaSum(zs) * s == SkipNaSum(zs[..n - 1]) * s + z * s;
    }
  }

  lemma {:induction false} SkipNaSumOfZeros(zs: seq<Cell>)
    requires forall k :: 0 <= k < |zs| ==> zs[k].Missing? || zs[k] == Int(0)
    ensures SkipNaSum(zs) == 0.0
  {
    if zs != [] {
      SkipNaSumOfZeros(zs[..|zs| - 1]);
    }
  }

  /** A category's z-scores, NaN skipped, add up to zero over the whole population. */
  lemma ZScoresSumToZero(xs: seq<real>, sqrt: real -> real)
    ensures SkipNaSum(ZScores(xs, sqrt)) == 0.0
  {
    var zs := ZScores(xs, sqrt);
    match SampleStd(xs, sqrt)
    case None =>
      SkipNaSumOfZeros(zs);
    case Some(s) =>
      if s == 0.0 {
        SkipNaSumOfZeros(zs);
      } else {
        var m := Mean(xs);
        SumOfScaledDeviations(xs, zs, m, s);
        assert |xs| as real * m == Sum(xs);
        assert SkipNaSum(zs) * s == 0.0;
      }
  }
}
