/**
 * Vectors and matrices over exact reals: the handful of numpy operations the
 * efficient-frontier computation uses (`np.dot`, elementwise `+`, `-`, scalar
 * `*` and `/`, a matrix transpose), with the algebraic laws the portfolio
 * proofs rely on.
 */
module Vectors {
  import opened RealSeq

  type Vector = seq<real>

  /** A matrix is a sequence of rows. */
  type Matrix = seq<seq<real>>

  /** Every row of `M` has `cols` entries. */
  predicate IsMatrix(M: Matrix, cols: nat)
  {
    forall t :: 0 <= t < |M| ==> |M[t]| == cols
  }

  /** `np.dot` of two vectors of the same length. */
  function Dot(u: Vector, v: Vector): real
    requires |u| == |v|
  {
    if |u| == 0 then 0.0 else u[0] * v[0] + Dot(u[1..], v[1..])
  }

  function Zeros(n: nat): (z: Vector)
    ensures |z| == n
  {
    seq(n, _ => 0.0)
  }

  function Sub(u: Vector, v: Vector): (d: Vector)
    requires |u| == |v|
    ensures |d| == |u|
  {
    seq(|u|, i requires 0 <= i < |u| => u[i] - v[i])
  }

  function Scale(c: real, u: Vector): (s: Vector)
    ensures |s| == |u|
  {
    seq(|u|, i requires 0 <= i < |u| => c * u[i])
  }

  lemma ScaleAt(c: real, u: Vector, i: nat)
    requires i < |u|
    ensures Scale(c, u)[i] == c * u[i]
  {
  }

  /** Every entry divided by `d` (numpy's `u / d`). */
  function Divide(u: Vector, d: real): (q: Vector)
    requires d != 0.0
    ensures |q| == |u|
  {
    seq(|u|, i requires 0 <= i < |u| => u[i] / d)
  }

  /** Column `j` of a matrix with `cols` columns. */
  function Column(M: Matrix, cols: nat, j: nat): (c: Vector)
    requires IsMatrix(M, cols) && j < cols
    ensures |c| == |M|
  {
    seq(|M|, t requires 0 <= t < |M| => M[t][j])
  }

  /** The transpose `M.T`: its rows are the columns of `M`. */
  function Transpose(M: Matrix, cols: nat): (T: Matrix)
    requires IsMatrix(M, cols)
    ensures |T| == cols && IsMatrix(T, |M|)
  {
    seq(cols, j requires 0 <= j < cols => Column(M, cols, j))
  }

  /** `np.dot(M, w)`: each row of `M` against `w`. */
  function MatVec(M: Matrix, w: Vector): (r: Vector)
    requires IsMatrix(M, |w|)
    ensures |r| == |M|
  {
    seq(|M|, a requires 0 <= a < |M| => Dot(M[a], w))
  }

  /** `np.dot(M.T, y)` for a matrix `M` with `cols` columns. */
  function TransposeTimes(M: Matrix, cols: nat, y: Vector): (x: Vector)
    requires IsMatrix(M, cols) && |y| == |M|
    ensures |x| == cols
  {
    MatVec(Transpose(M, cols), y)
  }

  /** Entry `j` of `M.T y` is column `j` of `M` against `y`. */
  lemma TransposeTimesColumn(M: Matrix, cols: nat, y: Vector, j: nat)
    requires IsMatrix(M, cols) && |y| == |M| && j < cols
    ensures TransposeTimes(M, cols, y)[j] == Dot(Column(M, cols, j), y)
  {
  }

  /** The smallest entry of a non-empty vector. */
  function Min(xs: Vector): (m: real)
    requires |xs| > 0
    ensures forall k :: 0 <= k < |xs| ==> m <= xs[k]
    ensures exists k :: 0 <= k < |xs| && xs[k] == m
  {
    if |xs| == 1 then xs[0]
    else
      var p := Min(xs[..|xs| - 1]);
      assert forall k :: 0 <= k < |xs| - 1 ==> xs[..|xs| - 1][k] == xs[k];
      if xs[|xs| - 1] < p then xs[|xs| - 1] else p
  }

  /** The largest entry of a non-empty vector. */
  function Max(xs: Vector): (m: real)
    requires |xs| > 0
    ensures forall k :: 0 <= k < |xs| ==> xs[k] <= m
    ensures exists k :: 0 <= k < |xs| && xs[k] == m
  {
    if |xs| == 1 then xs[0]
    else
      var p := Max(xs[..|xs| - 1]);
      assert forall k :: 0 <= k < |xs| - 1 ==> xs[..|xs| - 1][k] == xs[k];
      if xs[|xs| - 1] > p then xs[|xs| - 1] else p
  }

  /** `np.dot` taken apart at the first entry. */
  lemma DotCons(u: Vector, v: Vector)
    requires |u| == |v| > 0
    ensures Dot(u, v) == u[0] * v[0] + Dot(u[1..], v[1..])
  {
  }

  lemma {:induction false} DotComm(u: Vector, v: Vector)
    requires |u| == |v|
    ensures Dot(u, v) == Dot(v, u)
  {
    if |u| > 0 {
      DotComm(u[1..], v[1..]);
    }
  }

  lemma {:induction false} DotZeros(w: Vector)
    ensures Dot(w, Zeros(|w|)) == 0.0 && Dot(Zeros(|w|), w) == 0.0
  {
    if |w| > 0 {
      assert Zeros(|w|)[1..] == Zeros(|w| - 1);
      DotZeros(w[1..]);
    }
  }

  /** `np.dot(x, x)` is the sum of the squared entries. */
  lemma {:induction false} DotSelf(x: Vector)
    ensures Dot(x, x) == SumSq(x)
  {
    if |x| > 0 {
      DotSelf(x[1..]);
    }
  }

  /** `x = c r + y` entrywise. */
  predicate Affine(x: Vector, c: real, r: Vector, y: Vector)
  {
    |x| == |y| == |r| && forall a :: 0 <= a < |x| ==> x[a] == c * r[a] + y[a]
  }

  /** If `x = c r + y` entrywise, then `x . w = c (r . w) + y . w`. */
  lemma {:induction false} DotAffine(x: Vector, c: real, r: Vector, y: Vector, w: Vector)
    requires Affine(x, c, r, y) && |x| == |w|
    ensures Dot(x, w) == c * Dot(r, w) + Dot(y, w)
  {
    if |x| > 0 {
      DotAffine(x[1..], c, r[1..], y[1..], w[1..]);
      AffineStep(x[0], c, r[0], y[0], w[0], Dot(r[1..], w[1..]), Dot(y[1..], w[1..]));
    }
  }

  lemma AffineStep(x: real, c: real, r: real, y: real, w: real, dr: real, dy: real)
    requires x == c * r + y
    ensures x * w + (c * dr + dy) == c * (r * w + dr) + (y * w + dy)
  {
  }

  /** A scalar factor in the first argument comes out of `np.dot`. */
  lemma {:induction false} DotScale(c: real, u: Vector, w: Vector)
    requires |u| == |w|
    ensures Dot(Scale(c, u), w) == c * Dot(u, w)
  {
    if |u| > 0 {
      var su := Scale(c, u);
      ScaleTail(c, u);
      DotScale(c, u[1..], w[1..]);
      DotCons(su, w);
      ScaleStep(c, u[0], w[0], Dot(u[1..], w[1..]));
    }
  }

  /** Scaling commutes with dropping the first entry. */
  lemma ScaleTail(c: real, u: Vector)
    requires |u| > 0
    ensures Scale(c, u)[1..] == Scale(c, u[1..])
  {
    var su := Scale(c, u);
    forall i | 0 <= i < |u| - 1 ensures su[1..][i] == Scale(c, u[1..])[i] { }
  }

  lemma ScaleStep(c: real, u: real, w: real, d: real)
    ensures (c * u) * w + c * d == c * (u * w + d)
  {
  }

  /** A scalar factor in the second argument comes out of `np.dot`. */
  lemma {:induction false} DotScaleRight(w: Vector, c: real, u: Vector)
    requires |u| == |w|
    ensures Dot(w, Scale(c, u)) == c * Dot(w, u)
  {
    if |u| > 0 {
      var su := Scale(c, u);
      ScaleTail(c, u);
      DotScaleRight(w[1..], c, u[1..]);
      DotCons(w, su);
      ScaleStepRight(c, w[0], u[0], Dot(w[1..], u[1..]));
    }
  }

  lemma ScaleStepRight(c: real, w: real, u: real, d: real)
    ensures w * (c * u) + c * d == c * (w * u + d)
  {
  }

  /** `np.dot` distributes over a difference in its first argument. */
  lemma {:induction false} DotSub(u: Vector, v: Vector, w: Vector)
    requires |u| == |v| == |w|
    ensures Dot(Sub(u, v), w) == Dot(u, w) - Dot(v, w)
  {
    if |u| > 0 {
      var d := Sub(u, v);
      assert d[1..] == Sub(u[1..], v[1..]);
      DotSub(u[1..], v[1..], w[1..]);
      assert Dot(d, w) == d[0] * w[0] + Dot(d[1..], w[1..]);
      SubStep(u[0], v[0], w[0], Dot(u[1..], w[1..]), Dot(v[1..], w[1..]));
    }
  }

  lemma SubStep(u: real, v: real, w: real, du: real, dv: real)
    ensures (u - v) * w + (du - dv) == (u * w + du) - (v * w + dv)
  {
  }

  /** `np.dot` distributes over a sum of two vectors in its second argument. */
  lemma {:induction false} DotAddRight(w: Vector, x: Vector, u: Vector, v: Vector)
    requires |w| == |x| == |u| == |v|
    requires forall a :: 0 <= a < |x| ==> x[a] == u[a] + v[a]
    ensures Dot(w, x) == Dot(w, u) + Dot(w, v)
  {
    if |w| > 0 {
      DotAddRight(w[1..], x[1..], u[1..], v[1..]);
      AddStep(w[0], x[0], u[0], v[0], Dot(w[1..], u[1..]), Dot(w[1..], v[1..]));
    }
  }

  lemma AddStep(w: real, x: real, u: real, v: real, du: real, dv: real)
    requires x == u + v
    ensures w * x + (du + dv) == (w * u + du) + (w * v + dv)
  {
  }

  /** Dividing the second argument of `np.dot` divides the product. */
  lemma {:induction false} DotDivideRight(w: Vector, u: Vector, d: real)
    requires |w| == |u| && d != 0.0
    ensures Dot(w, Divide(u, d)) == Dot(w, u) / d
  {
    if |w| > 0 {
      assert Divide(u, d)[1..] == Divide(u[1..], d);
      DotDivideRight(w[1..], u[1..], d);
      QuotientStep(w[0], u[0], Dot(w[1..], u[1..]), d);
    }
  }

  lemma QuotientStep(x: real, y: real, a: real, d: real)
    requires d != 0.0
    ensures x * (y / d) + a / d == (x * y + a) / d
  {
  }

  /** A scalar factor comes out of a sum. */
  lemma {:induction false} SumScale(c: real, u: Vector)
    ensures Sum(Scale(c, u)) == c * Sum(u)
  {
    if |u| > 0 {
      var n := |u| - 1;
      assert Scale(c, u)[..n] == Scale(c, u[..n]) by {
        forall i | 0 <= i < n ensures Scale(c, u)[..n][i] == Scale(c, u[..n])[i] { }
      }
      SumScale(c, u[..n]);
    }
  }

  /** Dividing every entry divides the sum. */
  lemma {:induction false} SumDivide(u: Vector, d: real)
    requires d != 0.0
    ensures Sum(Divide(u, d)) == Sum(u) / d
  {
    if |u| > 0 {
      var n := |u| - 1;
      assert Divide(u, d)[..n] == Divide(u[..n], d);
      SumDivide(u[..n], d);
      assert (Sum(u[..n]) + u[n]) / d == Sum(u[..n]) / d + u[n] / d;
    }
  }

  /** Dividing non-negative entries by a positive number keeps them non-negative. */
  lemma DivideNonNegative(u: Vector, d: real)
    requires d > 0.0
    requires forall k :: 0 <= k < |u| ==> u[k] >= 0.0
    ensures forall k :: 0 <= k < |u| ==> Divide(u, d)[k] >= 0.0
  {
    forall k | 0 <= k < |u| ensures Divide(u, d)[k] >= 0.0 {
      QuotientNonNegative(u[k], d);
    }
  }

  lemma QuotientNonNegative(x: real, d: real)
    requires x >= 0.0 && d > 0.0
    ensures x / d >= 0.0
  {
  }

  /** The vector of `n` copies of `c`. */
  function Constant(c: real, n: nat): (k: Vector)
    ensures |k| == n
  {
    seq(n, _ => c)
  }

  /** With non-negative weights, `np.dot` is monotone in its second argument. */
  lemma {:induction false} DotMonotone(w: Vector, u: Vector, v: Vector)
    requires |w| == |u| == |v|
    requires forall k :: 0 <= k < |w| ==> w[k] >= 0.0
    requires forall k :: 0 <= k < |u| ==> u[k] <= v[k]
    ensures Dot(w, u) <= Dot(w, v)
  {
    if |w| > 0 {
      DotMonotone(w[1..], u[1..], v[1..]);
      ProductMonotone(w[0], u[0], v[0]);
    }
  }

  lemma ProductMonotone(x: real, a: real, b: real)
    requires x >= 0.0 && a <= b
    ensures x * a <= x * b
  {
    assert x * b - x * a == x * (b - a);
  }

  /** Weighting a constant vector multiplies the constant by the weight total. */
  lemma {:induction false} DotConstant(w: Vector, c: real)
    ensures Dot(w, Constant(c, |w|)) == c * Sum(w)
  {
    if |w| > 0 {
      assert Constant(c, |w|)[1..] == Constant(c, |w| - 1);
      DotConstant(w[1..], c);
      SumCons(w);
      ConstantStep(w[0], c, Sum(w[1..]), Sum(w));
    }
  }

  lemma ConstantStep(x: real, c: real, s: real, t: real)
    requires t == x + s
    ensures x * c + c * s == c * t
  {
  }

  /** With non-negative weights, bounds on the entries of `v` bound `w . v` by the weight total. */
  lemma DotBounds(w: Vector, v: Vector, lo: real, hi: real)
    requires |w| == |v|
    requires forall k :: 0 <= k < |w| ==> w[k] >= 0.0
    requires forall k :: 0 <= k < |v| ==> lo <= v[k] <= hi
    ensures lo * Sum(w) <= Dot(w, v) <= hi * Sum(w)
  {
    DotMonotone(w, Constant(lo, |w|), v);
    DotMonotone(w, v, Constant(hi, |w|));
    DotConstant(w, lo);
    DotConstant(w, hi);
  }

  /** Dropping the first row of `M` drops the first entry of each column. */
  lemma TransposeCons(M: Matrix, cols: nat, y: Vector)
    requires IsMatrix(M, cols) && |y| == |M| > 0
    ensures Affine(TransposeTimes(M, cols, y), y[0], M[0], TransposeTimes(M[1..], cols, y[1..]))
  {
    forall j | 0 <= j < cols
      ensures TransposeTimes(M, cols, y)[j] == y[0] * M[0][j] + TransposeTimes(M[1..], cols, y[1..])[j]
    {
      assert Column(M, cols, j)[1..] == Column(M[1..], cols, j);
    }
  }

  /** The adjoint identity `y . (M w) == (M.T y) . w`. */
  lemma {:induction false} Adjoint(M: Matrix, cols: nat, y: Vector, w: Vector)
    requires IsMatrix(M, cols) && |y| == |M| && |w| == cols
    ensures Dot(y, MatVec(M, w)) == Dot(TransposeTimes(M, cols, y), w)
  {
    if |M| == 0 {
      assert TransposeTimes(M, cols, y) == Zeros(cols);
      DotZeros(w);
    } else {
      Adjoint(M[1..], cols, y[1..], w);
      RowStep(M, cols, y, w);
      TransposeStep(M, cols, y, w);
    }
  }

  /** `y . (M w)` taken apart at the first row of `M`. */
  lemma RowStep(M: Matrix, cols: nat, y: Vector, w: Vector)
    requires IsMatrix(M, cols) && |y| == |M| > 0 && |w| == cols
    ensures Dot(y, MatVec(M, w)) == y[0] * Dot(M[0], w) + Dot(y[1..], MatVec(M[1..], w))
  {
    var v := MatVec(M, w);
    assert v[1..] == MatVec(M[1..], w);
    DotCons(y, v);
    MulEqual(y[0], Dot(M[0], w), v[0]);
  }

  /** `(M.T y) . w` taken apart at the first row of `M`. */
  lemma TransposeStep(M: Matrix, cols: nat, y: Vector, w: Vector)
    requires IsMatrix(M, cols) && |y| == |M| > 0 && |w| == cols
    ensures Dot(TransposeTimes(M, cols, y), w) ==
      y[0] * Dot(M[0], w) + Dot(TransposeTimes(M[1..], cols, y[1..]), w)
  {
    TransposeCons(M, cols, y);
    DotAffine(TransposeTimes(M, cols, y), y[0], M[0], TransposeTimes(M[1..], cols, y[1..]), w);
  }

  /** Equal factors give equal products. */
  lemma MulEqual(c: real, x: real, y: real)
    requires x == y
    ensures c * x == c * y
  {
  }

}
