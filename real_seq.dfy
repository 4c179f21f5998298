/** Sums and means of real-valued series (numpy's `sum` and `mean` over exact reals). */
module RealSeq {

  /** `np.sum`, adding the entries from first to last. */
  function Sum(xs: seq<real>): real
  {
    if |xs| == 0 then 0.0 else Sum(xs[..|xs| - 1]) + xs[|xs| - 1]
  }

  /** `np.mean` of a non-empty series. */
  function Mean(xs: seq<real>): real
    requires |xs| > 0
  {
    Sum(xs) / |xs| as real
  }

  /** The sum of a concatenation is the sum of the parts. */
  lemma {:induction false} SumConcat(a: seq<real>, b: seq<real>)
    ensures Sum(a + b) == Sum(a) + Sum(b)
  {
    if |b| == 0 {
      assert a + b == a;
    } else {
      SumConcat(a, b[..|b| - 1]);
      assert (a + b)[..|a + b| - 1] == a + b[..|b| - 1];
    }
  }

  /** The sum of a slice is a difference of two prefix sums. */
  lemma SumSlice(xs: seq<real>, lo: nat, hi: nat)
    requires lo <= hi <= |xs|
    ensures Sum(xs[lo..hi]) == Sum(xs[..hi]) - Sum(xs[..lo])
  {
    assert xs[..hi] == xs[..lo] + xs[lo..hi];
    SumConcat(xs[..lo], xs[lo..hi]);
  }

  /** The sum taken from the front: the first entry plus the sum of the rest. */
  lemma {:induction false} SumCons(xs: seq<real>)
    requires |xs| > 0
    ensures Sum(xs) == xs[0] + Sum(xs[1..])
  {
    if |xs| == 1 {
      assert xs[..0] == [] && xs[1..] == [];
    } else {
      var n := |xs| - 1;
      SumCons(xs[..n]);
      assert xs[..n][1..] == xs[1..][..n - 1];
    }
  }

  /** Entrywise bounds bound the sum. */
  lemma {:induction false} SumBounds(xs: seq<real>, lo: real, hi: real)
    requires forall k :: 0 <= k < |xs| ==> lo <= xs[k] <= hi
    ensures |xs| as real * lo <= Sum(xs) <= |xs| as real * hi
  {
    if |xs| > 0 {
      SumBounds(xs[..|xs| - 1], lo, hi);
    }
  }

  /** Entrywise bounds bound the mean: `min(xs) <= mean(xs) <= max(xs)`. */
  lemma MeanBounds(xs: seq<real>, lo: real, hi: real)
    requires |xs| > 0
    requires forall k :: 0 <= k < |xs| ==> lo <= xs[k] <= hi
    ensures lo <= Mean(xs) <= hi
  {
    SumBounds(xs, lo, hi);
    var n := |xs| as real;
    DivideBounds(Sum(xs), n, lo, hi);
  }

  /** `n * lo <= s <= n * hi` with `n > 0` gives `lo <= s / n <= hi`. */
  lemma DivideBounds(s: real, n: real, lo: real, hi: real)
    requires n > 0.0 && n * lo <= s <= n * hi
    ensures lo <= s / n <= hi
  {
    assert s / n - lo == (s - n * lo) / n;
    assert hi - s / n == (n * hi - s) / n;
  }

  /** The sum of the squared entries. */
  function SumSq(xs: seq<real>): real
  {
    if |xs| == 0 then 0.0 else xs[0] * xs[0] + SumSq(xs[1..])
  }

  /** The series minus its mean. */
  function Centered(xs: seq<real>): seq<real>
    requires |xs| > 0
  {
    seq(|xs|, i requires 0 <= i < |xs| => xs[i] - Mean(xs))
  }

  /** The sample variance with Bessel's correction (pandas' default `ddof=1`). */
  function SampleVariance(xs: seq<real>): real
    requires |xs| >= 2
  {
    SumSq(Centered(xs)) / (|xs| - 1) as real
  }

  lemma {:induction false} SumSqNonNegative(xs: seq<real>)
    ensures SumSq(xs) >= 0.0
  {
    if |xs| > 0 {
      SumSqNonNegative(xs[1..]);
    }
  }
}
