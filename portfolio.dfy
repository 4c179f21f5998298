/**
 * The annualised statistics of the efficient-frontier plot: per-ticker
 * expected returns (`mean() * 252`), the annualised sample covariance matrix
 * (`cov() * 252`), normalised weights, the portfolio return `np.dot(w, er)` and
 * the portfolio variance `w . (C w)`, over a complete `rows × n` matrix of daily
 * returns (one row per date, one column per ticker).
 */
module Portfolio {
  import opened RealSeq
  import opened Vectors

  /** Trading days per year, the annualisation factor. */
  const TradingDays: real := 252.0

  function ColumnSums(R: Matrix, n: nat): (s: Vector)
    requires IsMatrix(R, n)
    ensures |s| == n
  {
    seq(n, a requires 0 <= a < n => Sum(Column(R, n, a)))
  }

  /** `daily_returns.mean()`: each ticker's mean daily return. */
  function ColumnMeans(R: Matrix, n: nat): (m: Vector)
    requires IsMatrix(R, n) && |R| > 0
    ensures |m| == n
  {
    seq(n, a requires 0 <= a < n => Mean(Column(R, n, a)))
  }

  /** `daily_returns.mean() * 252`. */
  function ExpectedReturns(R: Matrix, n: nat): (er: Vector)
    requires IsMatrix(R, n) && |R| > 0
    ensures |er| == n
  {
    Scale(TradingDays, ColumnMeans(R, n))
  }

  /** Every daily return minus its ticker's mean. */
  function Deviations(R: Matrix, n: nat): (D: Matrix)
    requires IsMatrix(R, n) && |R| > 0
    ensures |D| == |R| && IsMatrix(D, n)
  {
    seq(|R|, t requires 0 <= t < |R| => Sub(R[t], ColumnMeans(R, n)))
  }

  /**
   * One entry of `daily_returns.cov()`: the sample covariance (`ddof=1`) of
   * tickers `a` and `b`, the sum of the products of their deviations divided by
   * `rows - 1`.
   */
  function Covariance(R: Matrix, n: nat, a: nat, b: nat): real
    requires IsMatrix(R, n) && |R| >= 2 && a < n && b < n
  {
    var D := Deviations(R, n);
    Dot(Column(D, n, a), Column(D, n, b)) / (|R| - 1) as real
  }

  /** `daily_returns.cov() * 252`. */
  function AnnualCovariance(R: Matrix, n: nat): (C: Matrix)
    requires IsMatrix(R, n) && |R| >= 2
    ensures |C| == n && IsMatrix(C, n)
  {
    seq(n, a requires 0 <= a < n =>
      seq(n, b requires 0 <= b < n => Covariance(R, n, a, b) * TradingDays))
  }

  /** `np.dot(w.T, np.dot(M, w))`. */
  function QuadForm(w: Vector, M: Matrix): real
    requires |M| == |w| && IsMatrix(M, |w|)
  {
    Dot(w, MatVec(M, w))
  }

  /** `weights / np.sum(weights)`. */
  function Normalise(w: Vector): (r: Vector)
    requires Sum(w) != 0.0
    ensures |r| == |w|
  {
    Divide(w, Sum(w))
  }

  /** Non-negative raw weights with a positive total normalise to non-negative weights summing to one. */
  lemma NormalisedWeights(w: Vector)
    requires forall k :: 0 <= k < |w| ==> w[k] >= 0.0
    requires Sum(w) > 0.0
    ensures forall k :: 0 <= k < |w| ==> Normalise(w)[k] >= 0.0
    ensures Sum(Normalise(w)) == 1.0
  {
    DivideNonNegative(w, Sum(w));
    SumDivide(w, Sum(w));
    SelfQuotient(Sum(w));
  }

  lemma SelfQuotient(s: real)
    requires s != 0.0
    ensures s / s == 1.0
  {
  }

  /** A portfolio of normalised weights earns between the smallest and the largest expected return. */
  lemma ReturnBetweenExtremes(w: Vector, er: Vector)
    requires |w| == |er| > 0
    requires forall k :: 0 <= k < |w| ==> w[k] >= 0.0
    requires Sum(w) == 1.0
    ensures Min(er) <= Dot(w, er) <= Max(er)
  {
    DotBounds(w, er, Min(er), Max(er));
  }

  /** The annualised covariance matrix is symmetric. */
  lemma AnnualCovarianceSymmetric(R: Matrix, n: nat)
    requires IsMatrix(R, n) && |R| >= 2
    ensures forall a, b :: 0 <= a < n && 0 <= b < n ==>
      AnnualCovariance(R, n)[a][b] == AnnualCovariance(R, n)[b][a]
  {
    var D := Deviations(R, n);
    forall a, b | 0 <= a < n && 0 <= b < n
      ensures AnnualCovariance(R, n)[a][b] == AnnualCovariance(R, n)[b][a]
    {
      DotComm(Column(D, n, a), Column(D, n, b));
    }
  }

  /** The diagonal of the covariance matrix holds each ticker's sample variance. */
  lemma CovarianceDiagonal(R: Matrix, n: nat, a: nat)
    requires IsMatrix(R, n) && |R| >= 2 && a < n
    ensures Covariance(R, n, a, a) == SampleVariance(Column(R, n, a))
  {
    var x := Column(Deviations(R, n), n, a);
    assert x == Centered(Column(R, n, a));
    DotSelf(x);
  }

  /**
   * `MatVec(R, w)` is the daily return series of the portfolio with weights
   * `w`: each row of the returns matrix combined by the weights. Its total is
   * the weighted sum of the column totals.
   */
  lemma {:induction false} SumOfSeries(R: Matrix, n: nat, w: Vector)
    requires IsMatrix(R, n) && |w| == n
    ensures Sum(MatVec(R, w)) == Dot(w, ColumnSums(R, n))
  {
    if |R| == 0 {
      assert ColumnSums(R, n) == Zeros(n);
      DotZeros(w);
    } else {
      var T := |R| - 1;
      var R', r := R[..T], R[T];
      SumOfSeries(R', n, w);
      assert MatVec(R, w)[..T] == MatVec(R', w);
      forall a | 0 <= a < n ensures ColumnSums(R, n)[a] == ColumnSums(R', n)[a] + r[a] {
        assert Column(R, n, a)[..T] == Column(R', n, a);
      }
      DotAddRight(w, ColumnSums(R, n), ColumnSums(R', n), r);
      DotComm(w, r);
    }
  }

  /** The mean of the portfolio's daily series is the weighted sum of the tickers' means. */
  lemma MeanOfSeries(R: Matrix, n: nat, w: Vector)
    requires IsMatrix(R, n) && |R| > 0 && |w| == n
    ensures Mean(MatVec(R, w)) == Dot(w, ColumnMeans(R, n))
  {
    SumOfSeries(R, n, w);
    assert ColumnMeans(R, n) == Divide(ColumnSums(R, n), |R| as real);
    DotDivideRight(w, ColumnSums(R, n), |R| as real);
  }

  /**
   * `np.dot(weights, expected_returns)` is 252 times the mean daily return of
   * the weighted portfolio.
   */
  lemma ExpectedPortfolioReturn(R: Matrix, n: nat, w: Vector)
    requires IsMatrix(R, n) && |R| > 0 && |w| == n
    ensures Dot(w, ExpectedReturns(R, n)) == TradingDays * Mean(MatVec(R, w))
  {
    DotScaleRight(w, TradingDays, ColumnMeans(R, n));
    MeanOfSeries(R, n, w);
  }

  /** Combining the deviations by the weights centres the portfolio's series. */
  lemma CenteredSeries(R: Matrix, n: nat, w: Vector)
    requires IsMatrix(R, n) && |R| > 0 && |w| == n
    ensures MatVec(Deviations(R, n), w) == Centered(MatVec(R, w))
  {
    var m := ColumnMeans(R, n);
    MeanOfSeries(R, n, w);
    DotComm(w, m);
    forall t | 0 <= t < |R|
      ensures MatVec(Deviations(R, n), w)[t] == Centered(MatVec(R, w))[t]
    {
      DotSub(R[t], m, w);
    }
  }

  /**
   * Row `a` of the annualised covariance matrix is `252 / (rows - 1)` times
   * `D.T` applied to column `a` of the deviations `D`.
   */
  lemma CovarianceRow(R: Matrix, n: nat, a: nat)
    requires IsMatrix(R, n) && |R| >= 2 && a < n
    ensures var D := Deviations(R, n);
      AnnualCovariance(R, n)[a] ==
        Scale(TradingDays / (|R| - 1) as real, TransposeTimes(D, n, Column(D, n, a)))
  {
    var D := Deviations(R, n);
    var k := (|R| - 1) as real;
    var g := TransposeTimes(D, n, Column(D, n, a));
    forall b | 0 <= b < n
      ensures AnnualCovariance(R, n)[a][b] == Scale(TradingDays / k, g)[b]
    {
      DotComm(Column(D, n, b), Column(D, n, a));
      ScaleOverCount(Dot(Column(D, n, a), Column(D, n, b)), TradingDays, k);
    }
  }

  /** `cov * 252` applied to `w` is `252 / (rows - 1)` times `D.T (D w)`. */
  lemma CovarianceTimesWeights(R: Matrix, n: nat, w: Vector)
    requires IsMatrix(R, n) && |R| >= 2 && |w| == n
    ensures var D := Deviations(R, n);
      MatVec(AnnualCovariance(R, n), w) ==
        Scale(TradingDays / (|R| - 1) as real, TransposeTimes(D, n, MatVec(D, w)))
  {
    forall a | 0 <= a < n {
      CovarianceRow(R, n, a);
    }
    ScaledGramTimes(Deviations(R, n), n, w, TradingDays / (|R| - 1) as real, AnnualCovariance(R, n));
  }

  /** If row `a` of `C` is `c D.T (column a of D)`, then `C w == c D.T (D w)`. */
  lemma ScaledGramTimes(D: Matrix, n: nat, w: Vector, c: real, C: Matrix)
    requires IsMatrix(D, n) && |w| == n && |C| == n && IsMatrix(C, n)
    requires forall a :: 0 <= a < n ==> C[a] == Scale(c, TransposeTimes(D, n, Column(D, n, a)))
    ensures MatVec(C, w) == Scale(c, TransposeTimes(D, n, MatVec(D, w)))
  {
    var p := MatVec(D, w);
    var v := TransposeTimes(D, n, p);
    forall a | 0 <= a < n
      ensures MatVec(C, w)[a] == Scale(c, v)[a]
    {
      var col := Column(D, n, a);
      var g := TransposeTimes(D, n, col);
      Adjoint(D, n, col, w);
      TransposeTimesColumn(D, n, p, a);
      DotScale(c, g, w);
      assert C[a] == Scale(c, g);
      assert MatVec(C, w)[a] == Dot(C[a], w);
      ScaleAt(c, v, a);
      MulEqual(c, Dot(g, w), v[a]);
    }
  }

  /**
   * The portfolio variance `w . (cov * 252) w` is 252 times the sample variance
   * of the portfolio's daily series; in particular it is never negative.
   */
  lemma PortfolioVariance(R: Matrix, n: nat, w: Vector)
    requires IsMatrix(R, n) && |R| >= 2 && |w| == n
    ensures QuadForm(w, AnnualCovariance(R, n)) == TradingDays * SampleVariance(MatVec(R, w))
    ensures QuadForm(w, AnnualCovariance(R, n)) >= 0.0
  {
    var p := MatVec(Deviations(R, n), w);
    CovarianceTimesWeights(R, n, w);
    QuadFormOfScaledGram(Deviations(R, n), n, w, TradingDays / (|R| - 1) as real, AnnualCovariance(R, n));
    CenteredSeries(R, n, w);
    SumSqNonNegative(p);
    QuotientNonNegative(SumSq(p), (|R| - 1) as real);
    ScaleOverCount(SumSq(p), TradingDays, (|R| - 1) as real);
  }

  /** If `C w == c D.T (D w)`, then `w . (C w)` is `c` times the sum of squares of `D w`. */
  lemma QuadFormOfScaledGram(D: Matrix, n: nat, w: Vector, c: real, C: Matrix)
    requires IsMatrix(D, n) && |w| == n && |C| == n && IsMatrix(C, n)
    requires MatVec(C, w) == Scale(c, TransposeTimes(D, n, MatVec(D, w)))
    ensures QuadForm(w, C) == c * SumSq(MatVec(D, w))
  {
    var p := MatVec(D, w);
    var x := TransposeTimes(D, n, p);
    DotScaleRight(w, c, x);
    Adjoint(D, n, p, w);
    DotComm(w, x);
    DotSelf(p);
  }

  lemma ScaleOverCount(s: real, f: real, k: real)
    requires k > 0.0
    ensures s / k * f == f / k * s && f / k * s == f * (s / k)
  {
  }
}
