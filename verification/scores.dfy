/** Batch statistics and the two numeric steps of rating-level fusion:
    z-scoring a score matrix with its own global mean and standard deviation,
    and the weighted sum `s1*alpha + s2*(1-alpha)`.

    The standard deviation is never computed (there is no square root over
    `real`): a caller supplies a positive `sd` whose square is the population
    variance of the batch, as `np.std` would return it. */
module Scores {
  import opened Matrices

  /** Sum of a row. */
  function RowSum(xs: seq<real>): real {
    if |xs| == 0 then 0.0 else xs[0] + RowSum(xs[1..])
  }

  function Square(x: real): real {
    x * x
  }

  /** Sum of squared deviations of a row from `mu`. */
  function RowSquaredDeviation(xs: seq<real>, mu: real): real {
    if |xs| == 0 then 0.0 else Square(xs[0] - mu) + RowSquaredDeviation(xs[1..], mu)
  }

  /** Number of cells of the whole batch. */
  function Count(m: Matrix): nat {
    if |m| == 0 then 0 else |m[0]| + Count(m[1..])
  }

  /** Sum over every cell of the batch. */
  function Total(m: Matrix): real {
    if |m| == 0 then 0.0 else RowSum(m[0]) + Total(m[1..])
  }

  /** Sum over every cell of the squared deviation from `mu`. */
  function SquaredDeviation(m: Matrix, mu: real): real {
    if |m| == 0 then 0.0 else RowSquaredDeviation(m[0], mu) + SquaredDeviation(m[1..], mu)
  }

  /** `np.mean`: one mean over all cells, not per row. */
  function Mean(m: Matrix): (r: real)
    requires Count(m) > 0
    ensures r * (Count(m) as real) == Total(m)
  {
    Total(m) / Count(m) as real
  }

  /** The population variance over all cells (the square of `np.std`). */
  function Variance(m: Matrix): (r: real)
    requires Count(m) > 0
    ensures r >= 0.0
    ensures r * (Count(m) as real) == SquaredDeviation(m, Mean(m))
  {
    SquaredDeviationNonNegative(m, Mean(m));
    SquaredDeviation(m, Mean(m)) / Count(m) as real
  }

  lemma {:induction false} RowSquaredDeviationNonNegative(xs: seq<real>, mu: real)
    ensures RowSquaredDeviation(xs, mu) >= 0.0
    decreases |xs|
  {
    if |xs| > 0 {
      RowSquaredDeviationNonNegative(xs[1..], mu);
      assert Square(xs[0] - mu) >= 0.0;
    }
  }

  lemma {:induction false} SquaredDeviationNonNegative(m: Matrix, mu: real)
    ensures SquaredDeviation(m, mu) >= 0.0
    decreases |m|
  {
    if |m| > 0 {
      RowSquaredDeviationNonNegative(m[0], mu);
      SquaredDeviationNonNegative(m[1..], mu);
    }
  }

  /** `sd` is the standard deviation of a non-empty batch with non-zero spread. */
  predicate IsStd(m: Matrix, sd: real) {
    Count(m) > 0 && sd > 0.0 && sd * sd == Variance(m)
  }

  /** `(m - mu) / sd`, cell by cell. */
  function Standardize(m: Matrix, mu: real, sd: real): (r: Matrix)
    requires sd != 0.0
    ensures SameShape(r, m)
  {
    seq(|m|, i requires 0 <= i < |m| =>
      seq(|m[i]|, j requires 0 <= j < |m[i]| => (m[i][j] - mu) / sd))
  }

  /** Z-scoring of a batch with its own mean and standard deviation. */
  function Normalize(m: Matrix, sd: real): (r: Matrix)
    requires IsStd(m, sd)
    ensures SameShape(r, m) && Count(r) == Count(m)
  {
    StandardizedCount(m, Mean(m), sd);
    Standardize(m, Mean(m), sd)
  }

  /** The weighted sum `s1*alpha + s2*(1-alpha)`, cell by cell. */
  function Fuse(s1: Matrix, s2: Matrix, alpha: real): (r: Matrix)
    requires SameShape(s1, s2)
    ensures SameShape(r, s1)
    ensures forall i, j :: 0 <= i < |r| && 0 <= j < |r[i]| ==> r[i][j] == s1[i][j] * alpha + s2[i][j] * (1.0 - alpha)
  {
    seq(|s1|, i requires 0 <= i < |s1| =>
      seq(|s1[i]|, j requires 0 <= j < |s1[i]| => s1[i][j] * alpha + s2[i][j] * (1.0 - alpha)))
  }

  // ---------------------------------------------------------------------
  // Fusion with the extreme weights and with itself

  /** With alpha = 1 the fused matrix is the first contribution. */
  lemma FuseAlphaOne(s1: Matrix, s2: Matrix)
    requires SameShape(s1, s2)
    ensures Fuse(s1, s2, 1.0) == s1
  {
    var r := Fuse(s1, s2, 1.0);
    forall i | 0 <= i < |s1| ensures r[i] == s1[i] {
      assert |r[i]| == |s1[i]|;
    }
  }

  /** With alpha = 0 the fused matrix is the second contribution. */
  lemma FuseAlphaZero(s1: Matrix, s2: Matrix)
    requires SameShape(s1, s2)
    ensures Fuse(s1, s2, 0.0) == s2
  {
    var r := Fuse(s1, s2, 0.0);
    forall i | 0 <= i < |s1| ensures r[i] == s2[i] {
      assert |r[i]| == |s2[i]|;
    }
  }

  /** Fusing a matrix with itself gives it back, whatever the weight. */
  lemma FuseSelf(s: Matrix, alpha: real)
    ensures SameShape(s, s) && Fuse(s, s, alpha) == s
  {
    var r := Fuse(s, s, alpha);
    forall i | 0 <= i < |s| ensures r[i] == s[i] {
      assert |r[i]| == |s[i]|;
      forall j | 0 <= j < |s[i]| ensures r[i][j] == s[i][j] {
        calc {
          r[i][j];
          s[i][j] * alpha + s[i][j] * (1.0 - alpha);
          s[i][j] * (alpha + (1.0 - alpha));
          s[i][j];
        }
      }
    }
  }

  // ---------------------------------------------------------------------
  // Z-scoring gives mean 0 and variance 1

  lemma DivisionDistributes(a: real, b: real, d: real)
    requires d != 0.0
    ensures a / d + b / d == (a + b) / d
  {
  }

  lemma QuotientTimesDivisor(a: real, d: real)
    requires d != 0.0
    ensures d * (a / d) == a
  {
  }

  lemma QuotientOfProduct(x: real, y: real, p: real)
    requires p != 0.0 && y * p == x
    ensures x / p == y
  {
  }

  lemma DivisionsCommute(a: real, b: real, c: real)
    requires b != 0.0 && c != 0.0
    ensures (a / b) / c == (a / c) / b
  {
  }

  lemma ProductOfQuotients(x: real, y: real, d: real)
    requires d != 0.0
    ensures (x / d) * (y / d) == ((x * y) / d) / d
  {
    var p := x / d;
    var q := y / d;
    assert x == p * d;
    assert y == q * d;
    assert x * y == ((p * q) * d) * d;
    QuotientOfProduct(x * y, (p * q) * d, d);
    QuotientOfProduct((p * q) * d, p * q, d);
  }

  lemma SquareOfQuotient(x: real, d: real)
    requires d != 0.0
    ensures Square(x / d) == (Square(x) / d) / d
  {
    ProductOfQuotients(x, x, d);
  }

  lemma ProductDistributes(x: real, y: real, mu: real)
    ensures (x + y) * mu == x * mu + y * mu
  {
  }

  function StandardizeRow(xs: seq<real>, mu: real, sd: real): seq<real>
    requires sd != 0.0
  {
    seq(|xs|, j requires 0 <= j < |xs| => (xs[j] - mu) / sd)
  }

  /** The sum of `n` values with total `t`, each centred at `mu` and divided by `sd`. */
  function Centred(t: real, n: nat, mu: real, sd: real): real
    requires sd != 0.0
  {
    (t - n as real * mu) / sd
  }

  /** Adding two centred-and-scaled partial sums. */
  lemma CentredSumsAdd(t0: real, t1: real, n0: nat, n1: nat, mu: real, sd: real)
    requires sd != 0.0
    ensures Centred(t0, n0, mu, sd) + Centred(t1, n1, mu, sd) == Centred(t0 + t1, n0 + n1, mu, sd)
  {
    DivisionDistributes(t0 - n0 as real * mu, t1 - n1 as real * mu, sd);
    ProductDistributes(n0 as real, n1 as real, mu);
  }

  lemma {:induction false} RowSumStandardized(xs: seq<real>, mu: real, sd: real)
    requires sd != 0.0
    ensures RowSum(StandardizeRow(xs, mu, sd)) == Centred(RowSum(xs), |xs|, mu, sd)
    decreases |xs|
  {
    var ys := StandardizeRow(xs, mu, sd);
    if |xs| > 0 {
      assert ys[1..] == StandardizeRow(xs[1..], mu, sd);
      RowSumStandardized(xs[1..], mu, sd);
      assert ys[0] == Centred(xs[0], 1, mu, sd);
      CentredSumsAdd(xs[0], RowSum(xs[1..]), 1, |xs| - 1, mu, sd);
    } else {
      assert RowSum(ys) == 0.0;
    }
  }

  lemma {:induction false} RowSquaresStandardized(xs: seq<real>, mu: real, sd: real)
    requires sd != 0.0
    ensures RowSquaredDeviation(StandardizeRow(xs, mu, sd), 0.0) == (RowSquaredDeviation(xs, mu) / sd) / sd
    decreases |xs|
  {
    if |xs| > 0 {
      var ys := StandardizeRow(xs, mu, sd);
      assert ys[1..] == StandardizeRow(xs[1..], mu, sd);
      RowSquaresStandardized(xs[1..], mu, sd);
      var b := RowSquaredDeviation(xs[1..], mu);
      assert ys[0] - 0.0 == (xs[0] - mu) / sd;
      SquareOfQuotient(xs[0] - mu, sd);
      var sq := Square(xs[0] - mu);
      assert RowSquaredDeviation(xs, mu) == sq + b;
      assert Square(ys[0] - 0.0) == (sq / sd) / sd;
      assert RowSquaredDeviation(ys, 0.0) == (sq / sd) / sd + (b / sd) / sd;
      DivisionDistributes(sq, b, sd);
      DivisionDistributes(sq / sd, b / sd, sd);
    }
  }

  lemma {:induction false} StandardizedCount(m: Matrix, mu: real, sd: real)
    requires sd != 0.0
    ensures Count(Standardize(m, mu, sd)) == Count(m)
    decreases |m|
  {
    if |m| > 0 {
      assert Standardize(m, mu, sd)[1..] == Standardize(m[1..], mu, sd);
      StandardizedCount(m[1..], mu, sd);
    }
  }

  lemma {:induction false} StandardizedTotal(m: Matrix, mu: real, sd: real)
    requires sd != 0.0
    ensures Total(Standardize(m, mu, sd)) == Centred(Total(m), Count(m), mu, sd)
    decreases |m|
  {
    var r := Standardize(m, mu, sd);
    if |m| > 0 {
      assert r[0] == StandardizeRow(m[0], mu, sd);
      assert r[1..] == Standardize(m[1..], mu, sd);
      StandardizedTotal(m[1..], mu, sd);
      RowSumStandardized(m[0], mu, sd);
      CentredSumsAdd(RowSum(m[0]), Total(m[1..]), |m[0]|, Count(m[1..]), mu, sd);
    } else {
      assert Total(r) == 0.0;
    }
  }

  lemma {:induction false} StandardizedSquares(m: Matrix, mu: real, sd: real)
    requires sd != 0.0
    ensures SquaredDeviation(Standardize(m, mu, sd), 0.0) == (SquaredDeviation(m, mu) / sd) / sd
    decreases |m|
  {
    if |m| > 0 {
      var r := Standardize(m, mu, sd);
      assert r[0] == StandardizeRow(m[0], mu, sd);
      assert r[1..] == Standardize(m[1..], mu, sd);
      StandardizedSquares(m[1..], mu, sd);
      RowSquaresStandardized(m[0], mu, sd);
      var c := RowSquaredDeviation(m[0], mu);
      var d := SquaredDeviation(m[1..], mu);
      assert SquaredDeviation(r, 0.0) == (c / sd) / sd + (d / sd) / sd;
      DivisionDistributes(c, d, sd);
      DivisionDistributes(c / sd, d / sd, sd);
    }
  }

  /** The z-scored batch has mean 0: the mean is taken over the whole batch. */
  lemma NormalizedMeanZero(m: Matrix, sd: real)
    requires IsStd(m, sd)
    ensures Count(Normalize(m, sd)) == Count(m)
    ensures Mean(Normalize(m, sd)) == 0.0
  {
    CentredAtMeanHasMeanZero(m, sd);
  }

  /** Centring at the batch's own mean leaves a sum of zero. */
  lemma CentredAtMean(t: real, n: nat, sd: real)
    requires n > 0 && sd != 0.0
    ensures Centred(t, n, t / n as real, sd) == 0.0
  {
    QuotientTimesDivisor(t, n as real);
  }

  lemma CentredAtMeanHasMeanZero(m: Matrix, sd: real)
    requires Count(m) > 0 && sd != 0.0
    ensures Count(Standardize(m, Mean(m), sd)) == Count(m)
    ensures Mean(Standardize(m, Mean(m), sd)) == 0.0
  {
    var mu := Mean(m);
    StandardizedCount(m, mu, sd);
    StandardizedTotal(m, mu, sd);
    CentredAtMean(Total(m), Count(m), sd);
  }

  /** The z-scored batch has population variance 1. */
  lemma NormalizedVarianceOne(m: Matrix, sd: real)
    requires IsStd(m, sd)
    ensures Count(Normalize(m, sd)) == Count(m)
    ensures Variance(Normalize(m, sd)) == 1.0
  {
    NormalizedMeanZero(m, sd);
    StandardizedSquares(m, Mean(m), sd);
    var v := SquaredDeviation(m, Mean(m));
    var n := Count(m) as real;
    var z := Normalize(m, sd);
    assert Variance(z) == ((v / sd) / sd) / n;
    DivisionsCommute(v / sd, sd, n);
    DivisionsCommute(v, sd, n);
    assert v / n == sd * sd;
    QuotientOfProduct(v / n, sd, sd);
    assert ((v / n) / sd) / sd == 1.0;
  }

  /** A batch that already has mean 0 and variance 1 is a fixed point of z-scoring:
      its standard deviation is 1 and normalising it again changes nothing. */
  lemma NormalizeIdempotent(m: Matrix, sd: real)
    requires IsStd(m, sd)
    ensures IsStd(Normalize(m, sd), 1.0)
    ensures Normalize(Normalize(m, sd), 1.0) == Normalize(m, sd)
  {
    NormalizedVarianceOne(m, sd);
    NormalizedMeanZero(m, sd);
    var z := Normalize(m, sd);
    var zz := Normalize(z, 1.0);
    forall i | 0 <= i < |z| ensures zz[i] == z[i] {
      assert |zz[i]| == |z[i]|;
    }
  }
}
