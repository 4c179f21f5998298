/**
 * The Monte-Carlo loop of `plot_efficient_frontier`: `NumPortfolios` random
 * weight vectors are normalised in place, and column `i` of the preallocated
 * `3 × NumPortfolios` results array receives the portfolio's annual return,
 * its annual variance (the square of the plotted volatility) and its
 * return-to-volatility ratio. The random draws are a parameter.
 */
module Frontier {
  import opened Wrappers
  import opened RealSeq
  import opened Vectors
  import opened Portfolio

  /** The number of simulated portfolios. */
  const NumPortfolios: nat := 10000

  /** The configured ticker list; its length sizes the random weights. */
  const Tickers: seq<string> := ["RELIANCE.NS", "TCS.NS", "INFY.NS", "HDFCBANK.NS"]

  /** A float as numpy produces it after a division: finite, an infinity, or NaN. */
  datatype Ext = Finite(value: real) | PosInf | NegInf | NaN

  /**
   * The colour value of one portfolio. With a volatility `sqrt(variance)` the
   * source stores `ret / vol`; square roots are not available here, so the
   * model stores the signed square `ret * |ret| / variance` of that ratio,
   * which has the same sign and the same order. A zero variance gives numpy's
   * division by zero (an infinity of the sign of `ret`, or NaN for `0 / 0`);
   * a negative variance gives the NaN of `np.sqrt`.
   */
  function Ratio(ret: real, variance: real): (r: Ext)
    ensures variance > 0.0 ==> r.Finite? && (r.value > 0.0 <==> ret > 0.0) && (r.value < 0.0 <==> ret < 0.0)
    ensures variance == 0.0 ==> (r == PosInf <==> ret > 0.0) && (r == NegInf <==> ret < 0.0) && (r == NaN <==> ret == 0.0)
    ensures variance < 0.0 ==> r == NaN
  {
    if variance > 0.0 then
      SignedSquareSign(ret, variance);
      Finite(ret * Abs(ret) / variance)
    else if variance == 0.0 then
      (if ret > 0.0 then PosInf else if ret < 0.0 then NegInf else NaN)
    else NaN
  }

  function Abs(x: real): (a: real)
    ensures a >= 0.0 && (a == x || a == -x)
  {
    if x < 0.0 then -x else x
  }

  lemma SignedSquareSign(x: real, d: real)
    requires d > 0.0
    ensures x * Abs(x) / d > 0.0 <==> x > 0.0
    ensures x * Abs(x) / d < 0.0 <==> x < 0.0
  {
    if x > 0.0 {
      assert x * Abs(x) > 0.0;
    } else if x < 0.0 {
      assert x * Abs(x) < 0.0;
    }
  }

  /** With `vol = sqrt(variance) > 0`, the stored value is the ratio `ret / vol` times its magnitude. */
  lemma RatioOfVolatility(ret: real, vol: real)
    requires vol > 0.0
    ensures Ratio(ret, vol * vol) == Finite((ret / vol) * Abs(ret / vol))
  {
    var q := ret / vol;
    assert ret == q * vol;
    assert Abs(ret) == Abs(q) * vol;
    assert ret * Abs(ret) == (q * Abs(q)) * (vol * vol);
  }

  /** The three numbers one simulated portfolio contributes. */
  datatype Stats = Stats(ret: real, variance: real, ratio: Ext)

  /** Row `row` of the results column of a portfolio. */
  function Entry(s: Stats, row: nat): Ext
  {
    if row == 0 then Finite(s.ret) else if row == 1 then Finite(s.variance) else s.ratio
  }

  /** The statistics of the portfolio whose raw random weights are `draw`. */
  function Sample(er: Vector, C: Matrix, draw: Vector): Stats
    requires |er| == |draw| == |C| && IsMatrix(C, |draw|) && Sum(draw) != 0.0
  {
    var w := Normalise(draw);
    var ret := Dot(w, er);
    var variance := QuadForm(w, C);
    Stats(ret, variance, Ratio(ret, variance))
  }

  /** `weights /= np.sum(weights)`: the total first, then every entry divided by it. */
  method NormaliseInPlace(w: array<real>)
    requires Sum(w[..]) != 0.0
    modifies w
    ensures w[..] == Normalise(old(w[..]))
  {
    var total := 0.0;
    for k := 0 to w.Length
      invariant w[..] == old(w[..])
      invariant total == Sum(w[..k])
    {
      assert w[..k + 1] == w[..k] + [w[k]];
      SumConcat(w[..k], [w[k]]);
      total := total + w[k];
    }
    assert w[..] == w[..w.Length];
    ghost var before := w[..];
    assert total == Sum(before) != 0.0;
    for k := 0 to w.Length
      invariant forall j :: 0 <= j < k ==> w[j] == before[j] / total
      invariant forall j :: k <= j < w.Length ==> w[j] == before[j]
    {
      w[k] := w[k] / total;
    }
    assert w[..] == Divide(before, total);
  }

  /** `results[0, i]`, `results[1, i]` and `results[2, i]` receive the statistics `s`. */
  method RecordSample(results: array2<Ext>, i: nat, s: Stats)
    requires results.Length0 == 3 && i < results.Length1
    modifies results
    ensures forall row :: 0 <= row < 3 ==> results[row, i] == Entry(s, row)
    ensures forall row, k :: 0 <= row < 3 && 0 <= k < results.Length1 && k != i ==>
      results[row, k] == old(results[row, k])
  {
    results[0, i] := Finite(s.ret);
    results[1, i] := Finite(s.variance);
    results[2, i] := s.ratio;
  }

  /**
   * The frontier loop over a complete `rows × n` matrix `R` of daily returns,
   * with the random weights given as `draws`, one `n`-vector per portfolio.
   * Column `i` of the result holds the statistics of draw `i`.
   */
  method EfficientFrontier(R: Matrix, n: nat, draws: seq<Vector>) returns (results: array2<Ext>)
    requires IsMatrix(R, n) && |R| >= 2
    requires |draws| == NumPortfolios
    requires forall i :: 0 <= i < |draws| ==> |draws[i]| == n && Sum(draws[i]) != 0.0
    ensures fresh(results) && results.Length0 == 3 && results.Length1 == |draws|
    ensures forall row, i :: 0 <= row < 3 && 0 <= i < |draws| ==>
      results[row, i] == Entry(Sample(ExpectedReturns(R, n), AnnualCovariance(R, n), draws[i]), row)
  {
    var er := ExpectedReturns(R, n);
    var C := AnnualCovariance(R, n);
    results := new Ext[3, |draws|]((_, _) => Finite(0.0));
    for i := 0 to |draws|
      invariant forall row, k :: 0 <= row < 3 && 0 <= k < i ==>
        results[row, k] == Entry(Sample(er, C, draws[k]), row)
    {
      var w := new real[n](k requires 0 <= k < n => draws[i][k]);
      assert w[..] == draws[i];
      NormaliseInPlace(w);
      var ret := Dot(w[..], er);
      var variance := QuadForm(w[..], C);
      RecordSample(results, i, Stats(ret, variance, Ratio(ret, variance)));
    }
  }

  /**
   * Non-negative draws with a positive total give a portfolio whose return lies
   * between the smallest and the largest expected return of the tickers.
   */
  lemma SampleReturnBounds(R: Matrix, n: nat, draw: Vector)
    requires IsMatrix(R, n) && |R| >= 2 && |draw| == n > 0
    requires forall k :: 0 <= k < n ==> draw[k] >= 0.0
    requires Sum(draw) > 0.0
    ensures var er := ExpectedReturns(R, n);
      Min(er) <= Sample(er, AnnualCovariance(R, n), draw).ret <= Max(er)
  {
    NormalisedWeights(draw);
    ReturnBetweenExtremes(Normalise(draw), ExpectedReturns(R, n));
  }

  /**
   * The stored return is 252 times the mean daily return of the weighted
   * portfolio, the stored variance is 252 times that series' sample variance
   * and never negative, and the colour value follows the sign of the return.
   */
  lemma SampleStatistics(R: Matrix, n: nat, draw: Vector)
    requires IsMatrix(R, n) && |R| >= 2 && |draw| == n && Sum(draw) != 0.0
    ensures var s := Sample(ExpectedReturns(R, n), AnnualCovariance(R, n), draw);
      var series := MatVec(R, Normalise(draw));
      s.ret == TradingDays * Mean(series) &&
      s.variance == TradingDays * SampleVariance(series) && s.variance >= 0.0 &&
      (s.variance > 0.0 ==> s.ratio.Finite? && (s.ratio.value > 0.0 <==> s.ret > 0.0))
  {
    ExpectedPortfolioReturn(R, n, Normalise(draw));
    PortfolioVariance(R, n, Normalise(draw));
  }

  /** `np.dot` of two 1-D arrays, which raises on a length mismatch. */
  function DotChecked(u: Vector, v: Vector): (r: Result<real, string>)
    ensures r.Ok? <==> |u| == |v|
    ensures r.Ok? ==> r.value == Dot(u, v)
  {
    if |u| == |v| then Ok(Dot(u, v)) else Err("shapes not aligned")
  }

  /**
   * The return step as the source writes it: the weights have one entry per
   * configured ticker, whatever the number of columns of the returns table.
   */
  function PortfolioReturnAsWritten(er: Vector, draw: Vector): (r: Result<real, string>)
    requires |draw| == |Tickers| && Sum(draw) != 0.0
    ensures r.Ok? <==> |er| == |Tickers|
  {
    DotChecked(Normalise(draw), er)
  }

  /**
   * A ticker without any price leaves three columns, and the return step raises
   * whatever the expected returns of the three and whatever the draw.
   */
  lemma MissingTickerBreaksReturn(er: Vector, draw: Vector)
    requires |er| == 3 && |draw| == |Tickers| && Sum(draw) != 0.0
    ensures PortfolioReturnAsWritten(er, draw).Err?
  {
  }
}
