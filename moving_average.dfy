/**
 * `ticker_data['Adj Close'].rolling(window=W).mean()` in
 * `plot_moving_averages`, for W = 50 and W = 200, on each ticker's own rows.
 */
module MovingAverage {
  import opened Wrappers
  import opened RealSeq
  import opened DailyReturns

  const ShortWindow: nat := 50
  const LongWindow: nat := 200

  /**
   * The trailing mean over windows of `w` entries, undefined until `w`
   * observations exist. Each entry is a difference of two running sums, the
   * add-the-new, drop-the-old update of a sliding window.
   */
  function RollingMean(xs: seq<real>, w: nat): (r: seq<Option<real>>)
    requires w > 0
    ensures |r| == |xs|
  {
    seq(|xs|, i requires 0 <= i < |xs| =>
      if i + 1 < w then None else Some((Sum(xs[..i + 1]) - Sum(xs[..i + 1 - w])) / w as real))
  }

  /**
   * Entry `i` is undefined exactly for the first `w - 1` entries, and from
   * there on is the mean of the last `w` values `xs[i - w + 1 .. i]`.
   */
  lemma RollingMeanWindow(xs: seq<real>, w: nat, i: nat)
    requires w > 0 && i < |xs|
    ensures RollingMean(xs, w)[i].None? <==> i < w - 1
    ensures i >= w - 1 ==> RollingMean(xs, w)[i] == Some(Mean(xs[i + 1 - w..i + 1]))
  {
    if i >= w - 1 {
      SumSlice(xs, i + 1 - w, i + 1);
    }
  }

  /** Every defined entry lies between the smallest and the largest value of its window. */
  lemma RollingMeanBounds(xs: seq<real>, w: nat, i: nat, lo: real, hi: real)
    requires w > 0 && w - 1 <= i < |xs|
    requires forall k :: i + 1 - w <= k <= i ==> lo <= xs[k] <= hi
    ensures RollingMean(xs, w)[i].Some?
    ensures lo <= RollingMean(xs, w)[i].value <= hi
  {
    RollingMeanWindow(xs, w, i);
    var win := xs[i + 1 - w..i + 1];
    assert forall k :: 0 <= k < |win| ==> win[k] == xs[i + 1 - w + k];
    MeanBounds(win, lo, hi);
  }

  /**
   * Consecutive defined entries differ by the entry that enters the window
   * minus the one that leaves it, over `w`.
   */
  lemma RollingMeanSlide(xs: seq<real>, w: nat, i: nat)
    requires w > 0 && w - 1 <= i && i + 1 < |xs|
    ensures RollingMean(xs, w)[i + 1].value ==
      RollingMean(xs, w)[i].value + (xs[i + 1] - xs[i + 1 - w]) / w as real
  {
    var a, b := xs[..i + 1], xs[..i + 2];
    assert b == a + [xs[i + 1]];
    assert b[..|b| - 1] == a;
    var c, e := xs[..i + 1 - w], xs[..i + 2 - w];
    assert e == c + [xs[i + 1 - w]];
    assert e[..|e| - 1] == c;
    SlideStep(Sum(b), Sum(a), xs[i + 1], Sum(e), Sum(c), xs[i + 1 - w], w as real);
  }

  lemma SlideStep(s1: real, s0: real, x: real, t1: real, t0: real, y: real, w: real)
    requires s1 == s0 + x && t1 == t0 + y && w > 0.0
    ensures (s1 - t1) / w == (s0 - t0) / w + (x - y) / w
  {
  }

  /** Window 3 over [1, 2, 3, 4, 5] gives [undefined, undefined, 2, 3, 4]. */
  lemma RollingMeanExample()
    ensures RollingMean([1.0, 2.0, 3.0, 4.0, 5.0], 3) == [None, None, Some(2.0), Some(3.0), Some(4.0)]
  {
    var xs := [1.0, 2.0, 3.0, 4.0, 5.0];
    assert xs[..1] == [1.0] && xs[..2] == [1.0, 2.0];
    assert xs[..3] == [1.0, 2.0, 3.0] && xs[..4] == [1.0, 2.0, 3.0, 4.0];
    assert xs[..5] == xs && xs[..0] == [];
    assert [1.0, 2.0][..1] == [1.0] && [1.0, 2.0, 3.0][..2] == [1.0, 2.0];
    assert [1.0, 2.0, 3.0, 4.0][..3] == [1.0, 2.0, 3.0] && xs[..4] == [1.0, 2.0, 3.0, 4.0];
    assert Sum([1.0]) == 1.0;
    assert Sum([1.0, 2.0]) == 3.0;
    assert Sum([1.0, 2.0, 3.0]) == 6.0;
    assert Sum([1.0, 2.0, 3.0, 4.0]) == 10.0;
    assert Sum(xs) == 15.0;
    var r := RollingMean(xs, 3);
    assert r[2] == Some((6.0 - 0.0) / 3.0);
    assert r[3] == Some((10.0 - 1.0) / 3.0);
    assert r[4] == Some((15.0 - 3.0) / 3.0);
  }

  /** The moving average of ticker t: the rolling mean of that ticker's filtered rows only. */
  function TickerMovingAverage(rows: seq<Quote>, t: string, w: nat): (r: seq<Option<real>>)
    requires w > 0
    ensures |r| == |PricesOf(rows, t)|
    ensures forall i :: 0 <= i < |r| ==> (r[i].None? <==> i < w - 1)
    ensures forall i :: w - 1 <= i < |r| ==> r[i] == Some(Mean(PricesOf(rows, t)[i + 1 - w..i + 1]))
  {
    var xs := PricesOf(rows, t);
    forall i | 0 <= i < |xs|
      ensures RollingMean(xs, w)[i].None? <==> i < w - 1
      ensures i >= w - 1 ==> RollingMean(xs, w)[i] == Some(Mean(xs[i + 1 - w..i + 1]))
    {
      RollingMeanWindow(xs, w, i);
    }
    RollingMean(xs, w)
  }

  /** `plot_moving_averages`: the 50-day and the 200-day averages of one ticker. */
  function MovingAverages(rows: seq<Quote>, t: string): (r: (seq<Option<real>>, seq<Option<real>>))
    ensures |r.0| == |r.1| == |PricesOf(rows, t)|
    ensures forall i :: 0 <= i < |r.0| ==> (r.0[i].None? <==> i < ShortWindow - 1)
    ensures forall i :: 0 <= i < |r.1| ==> (r.1[i].None? <==> i < LongWindow - 1)
    ensures forall i :: ShortWindow - 1 <= i < |r.0| ==>
      r.0[i] == Some(Mean(PricesOf(rows, t)[i + 1 - ShortWindow..i + 1]))
    ensures forall i :: LongWindow - 1 <= i < |r.1| ==>
      r.1[i] == Some(Mean(PricesOf(rows, t)[i + 1 - LongWindow..i + 1]))
  {
    (TickerMovingAverage(rows, t, ShortWindow), TickerMovingAverage(rows, t, LongWindow))
  }
}
