/**
 * Sample covariance of the return columns over a window of rows, with
 * pairwise-complete observations as `DataFrame.cov()` computes it; the
 * blend of two covariance matrices; and the quadratic form w'Cw of the
 * portfolio variance. For windows without gaps the covariance matrix is a
 * Gram matrix, so the form is a scaled sum of squares and never negative.
 */
module Covariance {
  import opened Wrappers
  import opened Series

  // ---------------------------------------------------------------------
  // Sums
  // ---------------------------------------------------------------------

  /** Every term of `b` is `c` times the term of `a`. */
  ghost predicate ScaledBy(a: seq<real>, b: seq<real>, c: real)
  {
    |a| == |b| && forall k :: 0 <= k < |a| ==> b[k] == c * a[k]
  }

  /** A constant factor comes out of a sum. */
  lemma {:induction false} SumScale(a: seq<real>, b: seq<real>, c: real)
    requires ScaledBy(a, b, c)
    ensures Sum(b) == c * Sum(a)
  {
    if a != [] {
      assert ScaledBy(a[..|a| - 1], b[..|b| - 1], c);
      SumScale(a[..|a| - 1], b[..|b| - 1], c);
    }
  }

  /** The sum of elementwise sums is the sum of the sums. */
  lemma {:induction false} SumAdd(a: seq<real>, b: seq<real>, s: seq<real>)
    requires |a| == |b| == |s| && forall k :: 0 <= k < |a| ==> s[k] == a[k] + b[k]
    ensures Sum(s) == Sum(a) + Sum(b)
  {
    if a != [] {
      SumAdd(a[..|a| - 1], b[..|b| - 1], s[..|s| - 1]);
    }
  }

  /** Column `k` of a matrix given as rows. */
  function Col(g: seq<seq<real>>, k: nat): (c: seq<real>)
    requires forall i :: 0 <= i < |g| ==> k < |g[i]|
    ensures |c| == |g|
  {
    seq(|g|, i requires 0 <= i < |g| => g[i][k])
  }

  function RowTotals(g: seq<seq<real>>): (r: seq<real>)
    ensures |r| == |g|
  {
    seq(|g|, i requires 0 <= i < |g| => Sum(g[i]))
  }

  function ColTotals(g: seq<seq<real>>, n: nat): (r: seq<real>)
    requires forall i :: 0 <= i < |g| ==> |g[i]| == n
    ensures |r| == n
  {
    seq(n, k requires 0 <= k < n => Sum(Col(g, k)))
  }

  /** Summing a rectangular matrix by rows or by columns gives the same total. */
  lemma {:induction false} SumSwap(g: seq<seq<real>>, n: nat)
    requires forall i :: 0 <= i < |g| ==> |g[i]| == n
    ensures Sum(RowTotals(g)) == Sum(ColTotals(g, n))
  {
    if g == [] {
      SumScale(seq(n, _ => 0.0), ColTotals(g, n), 0.0);
    } else {
      var f := g[..|g| - 1];
      var last := g[|g| - 1];
      SumSwap(f, n);
      assert RowTotals(g)[..|g| - 1] == RowTotals(f);
      forall k | 0 <= k < n
        ensures ColTotals(g, n)[k] == ColTotals(f, n)[k] + last[k]
      {
        assert Col(g, k)[..|g| - 1] == Col(f, k);
      }
      SumAdd(ColTotals(f, n), last, ColTotals(g, n));
    }
  }

  function Products(a: seq<real>, b: seq<real>): (p: seq<real>)
    requires |a| == |b|
    ensures |p| == |a|
  {
    seq(|a|, k requires 0 <= k < |a| => a[k] * b[k])
  }

  /** The inner product. */
  function Dot(a: seq<real>, b: seq<real>): real
    requires |a| == |b|
  {
    Sum(Products(a, b))
  }

  lemma DotSymmetric(a: seq<real>, b: seq<real>)
    requires |a| == |b|
    ensures Dot(a, b) == Dot(b, a)
  {
    assert Products(a, b) == Products(b, a);
  }

  lemma DotSelfNonNegative(a: seq<real>)
    ensures Dot(a, a) >= 0.0
  {
    var p := Products(a, a);
    forall k | 0 <= k < |a| ensures p[k] >= 0.0 {
      assert p[k] == a[k] * a[k];
    }
    SumNonNegative(p);
  }

  // ---------------------------------------------------------------------
  // Quadratic forms
  // ---------------------------------------------------------------------

  ghost predicate IsSquare(mat: seq<seq<real>>, m: nat)
  {
    |mat| == m && forall i :: 0 <= i < m ==> |mat[i]| == m
  }

  /** Row `i` of the product `M w`. */
  function MatVec(mat: seq<seq<real>>, w: seq<real>, i: nat): real
    requires IsSquare(mat, |w|) && i < |w|
  {
    Sum(MatVecTerms(mat, w, i))
  }

  /** The terms M[i][j] * w[j] of row `i` of the product. */
  function MatVecTerms(mat: seq<seq<real>>, w: seq<real>, i: nat): (r: seq<real>)
    requires IsSquare(mat, |w|) && i < |w|
    ensures |r| == |w|
  {
    seq(|w|, j requires 0 <= j < |w| => mat[i][j] * w[j])
  }

  /** `w.T @ M @ w`. */
  function QuadSum(w: seq<real>, mat: seq<seq<real>>): real
    requires IsSquare(mat, |w|)
  {
    Sum(QuadTerms(w, mat))
  }

  /** The terms w[i] * (M w)[i] of the form. */
  function QuadTerms(w: seq<real>, mat: seq<seq<real>>): (q: seq<real>)
    requires IsSquare(mat, |w|)
    ensures |q| == |w|
  {
    seq(|w|, i requires 0 <= i < |w| => w[i] * MatVec(mat, w, i))
  }

  /** Scaling the weights by `k` scales row `i` of `M w` by `k`. */
  lemma MatVecScale(mat: seq<seq<real>>, w: seq<real>, v: seq<real>, k: real, i: nat)
    requires IsSquare(mat, |w|) && ScaledBy(w, v, k) && i < |w|
    ensures MatVec(mat, v, i) == k * MatVec(mat, w, i)
  {
    forall j | 0 <= j < |w|
      ensures MatVecTerms(mat, v, i)[j] == k * MatVecTerms(mat, w, i)[j]
    {
      assert mat[i][j] * (k * w[j]) == k * (mat[i][j] * w[j]);
    }
    SumScale(MatVecTerms(mat, w, i), MatVecTerms(mat, v, i), k);
  }

  /** Scaling the weights by `k` scales `w.T @ M @ w` by `k * k`. */
  lemma QuadSumScale(w: seq<real>, v: seq<real>, mat: seq<seq<real>>, k: real)
    requires IsSquare(mat, |w|) && ScaledBy(w, v, k)
    ensures QuadSum(v, mat) == k * k * QuadSum(w, mat)
  {
    forall i | 0 <= i < |w|
      ensures QuadTerms(v, mat)[i] == (k * k) * QuadTerms(w, mat)[i]
    {
      QuadTermScale(w, v, mat, k, i);
    }
    assert ScaledBy(QuadTerms(w, mat), QuadTerms(v, mat), k * k);
    SumScale(QuadTerms(w, mat), QuadTerms(v, mat), k * k);
  }

  /** On a complete matrix, scaling the weights by `k` scales the quadratic form by `k * k`. */
  lemma QuadFormScale(w: seq<real>, v: seq<real>, c: seq<seq<Cell>>, k: real)
    requires IsCellSquare(c, |w|) && Complete(c, |w|) && ScaledBy(w, v, k)
    ensures QuadForm(v, c).Some? && QuadForm(w, c).Some?
    ensures QuadForm(v, c).value == k * k * QuadForm(w, c).value
  {
    var e := Entries(c, |w|);
    assert Entries(c, |v|) == e;
    QuadSumScale(w, v, e, k);
  }

  lemma QuadTermScale(w: seq<real>, v: seq<real>, mat: seq<seq<real>>, k: real, i: nat)
    requires IsSquare(mat, |w|) && ScaledBy(w, v, k) && i < |w|
    ensures QuadTerms(v, mat)[i] == (k * k) * QuadTerms(w, mat)[i]
  {
    var a, b := MatVec(mat, w, i), MatVec(mat, v, i);
    MatVecScale(mat, w, v, k, i);
    ScaleProduct(w[i], a, k);
    assert QuadTerms(w, mat)[i] == w[i] * a;
    assert QuadTerms(v, mat)[i] == v[i] * b;
    assert v[i] * b == (k * w[i]) * (k * a);
  }

  lemma ScaleProduct(a: real, b: real, k: real)
    ensures (k * a) * (k * b) == (k * k) * (a * b)
  {
  }

  lemma Distribute(x: real, p: real, q: real, a: real, b: real)
    ensures x * (a * p + b * q) == a * (x * p) + b * (x * q)
  {
  }

  lemma Rearrange(x: real, y: real, z: real)
    ensures x * (y * z) == y * (x * z)
    ensures (x * y) * z == x * (z * y)
  {
  }

  /** `z` is `a x + b y`, term by term. */
  ghost predicate Combines(x: seq<real>, y: seq<real>, z: seq<real>, a: real, b: real)
  {
    |x| == |y| == |z| && forall k :: 0 <= k < |z| ==> z[k] == a * x[k] + b * y[k]
  }

  /** `mat` is `a M1 + b M2`, row by row. */
  ghost predicate MatCombines(m1: seq<seq<real>>, m2: seq<seq<real>>, mat: seq<seq<real>>, a: real, b: real, n: nat)
  {
    IsSquare(m1, n) && IsSquare(m2, n) && IsSquare(mat, n) &&
    forall i :: 0 <= i < n ==> Combines(m1[i], m2[i], mat[i], a, b)
  }

  /** A sum is linear in its terms. */
  lemma {:induction false} SumLinear(x: seq<real>, y: seq<real>, z: seq<real>, a: real, b: real)
    requires Combines(x, y, z, a, b)
    ensures Sum(z) == a * Sum(x) + b * Sum(y)
  {
    if z != [] {
      var n := |z| - 1;
      assert Combines(x[..n], y[..n], z[..n], a, b);
      SumLinear(x[..n], y[..n], z[..n], a, b);
      Distribute(1.0, Sum(x[..n]) + x[n], Sum(y[..n]) + y[n], a, b);
    }
  }

  /** The terms of row `i` of the product are linear in the matrix. */
  lemma MatVecTermsLinear(w: seq<real>, m1: seq<seq<real>>, m2: seq<seq<real>>, mat: seq<seq<real>>, a: real, b: real, i: nat)
    requires MatCombines(m1, m2, mat, a, b, |w|) && i < |w|
    ensures Combines(MatVecTerms(m1, w, i), MatVecTerms(m2, w, i), MatVecTerms(mat, w, i), a, b)
  {
    var r1, r2, r := MatVecTerms(m1, w, i), MatVecTerms(m2, w, i), MatVecTerms(mat, w, i);
    assert Combines(m1[i], m2[i], mat[i], a, b);
    forall j | 0 <= j < |w| ensures r[j] == a * r1[j] + b * r2[j] {
      Distribute(w[j], m1[i][j], m2[i][j], a, b);
    }
  }

  /** Row `i` of the product is linear in the matrix. */
  lemma MatVecLinear(w: seq<real>, m1: seq<seq<real>>, m2: seq<seq<real>>, mat: seq<seq<real>>, a: real, b: real, i: nat)
    requires MatCombines(m1, m2, mat, a, b, |w|) && i < |w|
    ensures MatVec(mat, w, i) == a * MatVec(m1, w, i) + b * MatVec(m2, w, i)
  {
    MatVecTermsLinear(w, m1, m2, mat, a, b, i);
    SumLinear(MatVecTerms(m1, w, i), MatVecTerms(m2, w, i), MatVecTerms(mat, w, i), a, b);
  }

  /** The terms of the form are linear in the matrix. */
  lemma QuadTermsLinear(w: seq<real>, m1: seq<seq<real>>, m2: seq<seq<real>>, mat: seq<seq<real>>, a: real, b: real)
    requires MatCombines(m1, m2, mat, a, b, |w|)
    ensures Combines(QuadTerms(w, m1), QuadTerms(w, m2), QuadTerms(w, mat), a, b)
  {
    var q1, q2, q := QuadTerms(w, m1), QuadTerms(w, m2), QuadTerms(w, mat);
    forall i | 0 <= i < |w| ensures q[i] == a * q1[i] + b * q2[i] {
      MatVecLinear(w, m1, m2, mat, a, b, i);
      Distribute(w[i], MatVec(m1, w, i), MatVec(m2, w, i), a, b);
    }
  }

  /** The form is linear in the matrix: the form of a M1 + b M2 is a times the first form plus b times the second. */
  lemma QuadSumLinear(w: seq<real>, m1: seq<seq<real>>, m2: seq<seq<real>>, mat: seq<seq<real>>, a: real, b: real)
    requires MatCombines(m1, m2, mat, a, b, |w|)
    ensures QuadSum(w, mat) == a * QuadSum(w, m1) + b * QuadSum(w, m2)
  {
    QuadTermsLinear(w, m1, m2, mat, a, b);
    SumLinear(QuadTerms(w, m1), QuadTerms(w, m2), QuadTerms(w, mat), a, b);
  }

  ghost predicate IsRect(d: seq<seq<real>>, n: nat)
  {
    forall i :: 0 <= i < |d| ==> |d[i]| == n
  }

  /** The matrix of scaled inner products of the rows of `d`. */
  function Gram(d: seq<seq<real>>, n: nat, c: real): (g: seq<seq<real>>)
    requires IsRect(d, n)
    ensures IsSquare(g, |d|)
  {
    seq(|d|, i requires 0 <= i < |d| => seq(|d|, j requires 0 <= j < |d| => c * Dot(d[i], d[j])))
  }

  lemma GramEntry(d: seq<seq<real>>, n: nat, c: real, i: nat, j: nat)
    requires IsRect(d, n) && i < |d| && j < |d|
    ensures Gram(d, n, c)[i][j] == c * Dot(d[i], d[j])
  {
  }

  /** Column `k` of `d` with row `i` weighted by `w[i]`. */
  function Weighted(d: seq<seq<real>>, w: seq<real>, k: nat): (v: seq<real>)
    requires |d| == |w| && forall i :: 0 <= i < |d| ==> k < |d[i]|
    ensures |v| == |d|
  {
    seq(|d|, i requires 0 <= i < |d| => w[i] * d[i][k])
  }

  /** The combination of the rows of `d` with weights `w`. */
  function Combo(d: seq<seq<real>>, w: seq<real>, n: nat): (p: seq<real>)
    requires |d| == |w| && IsRect(d, n)
    ensures |p| == n
  {
    seq(n, k requires 0 <= k < n => Sum(Weighted(d, w, k)))
  }

  /** The terms d_i[k] * w_j * d_j[k] of row `i` of the Gram matrix times `w`, indexed by j and k. */
  function RowTerms(d: seq<seq<real>>, w: seq<real>, n: nat, i: nat): (g: seq<seq<real>>)
    requires |d| == |w| && IsRect(d, n) && i < |d|
    ensures |g| == |d| && forall j :: 0 <= j < |g| ==> |g[j]| == n
  {
    seq(|d|, j requires 0 <= j < |d| => seq(n, k requires 0 <= k < n => d[i][k] * (w[j] * d[j][k])))
  }

  lemma RowTermsRow(d: seq<seq<real>>, w: seq<real>, n: nat, i: nat, j: nat)
    requires |d| == |w| && IsRect(d, n) && i < |d| && j < |d|
    ensures Sum(RowTerms(d, w, n, i)[j]) == w[j] * Dot(d[i], d[j])
  {
    var g := RowTerms(d, w, n, i)[j];
    var p := Products(d[i], d[j]);
    forall k | 0 <= k < n ensures g[k] == w[j] * p[k] {
      Rearrange(d[i][k], w[j], d[j][k]);
    }
    SumScale(p, g, w[j]);
  }

  lemma RowTermsCol(d: seq<seq<real>>, w: seq<real>, n: nat, i: nat, k: nat)
    requires |d| == |w| && IsRect(d, n) && i < |d| && k < n
    ensures Sum(Col(RowTerms(d, w, n, i), k)) == d[i][k] * Combo(d, w, n)[k]
  {
    var g := Col(RowTerms(d, w, n, i), k);
    var v := Weighted(d, w, k);
    assert forall j :: 0 <= j < |d| ==> g[j] == d[i][k] * v[j];
    SumScale(v, g, d[i][k]);
  }

  /** The inner products of row `i` of `d` with every row, weighted by `w`. */
  function WeightedDots(d: seq<seq<real>>, w: seq<real>, n: nat, i: nat): (v: seq<real>)
    requires |d| == |w| && IsRect(d, n) && i < |d|
    ensures |v| == |d|
  {
    seq(|d|, j requires 0 <= j < |d| => w[j] * Dot(d[i], d[j]))
  }

  /** Summing the terms of row `i` in the other order: the weighted inner products add up to the inner product with the combination. */
  lemma WeightedDotsSum(d: seq<seq<real>>, w: seq<real>, n: nat, i: nat)
    requires |d| == |w| && IsRect(d, n) && i < |d|
    ensures Sum(WeightedDots(d, w, n, i)) == Dot(d[i], Combo(d, w, n))
  {
    var p := Combo(d, w, n);
    var g := RowTerms(d, w, n, i);
    var rows := RowTotals(g);
    forall j | 0 <= j < |d| ensures rows[j] == WeightedDots(d, w, n, i)[j] {
      RowTermsRow(d, w, n, i, j);
    }
    var cols := ColTotals(g, n);
    forall k | 0 <= k < n ensures cols[k] == Products(d[i], p)[k] {
      RowTermsCol(d, w, n, i, k);
    }
    SumSwap(g, n);
    assert rows == WeightedDots(d, w, n, i);
    assert cols == Products(d[i], p);
  }

  /** Row `i` of the Gram matrix times `w` is the inner product of row `i` of `d` with the combination. */
  lemma GramRow(d: seq<seq<real>>, w: seq<real>, n: nat, c: real, i: nat)
    requires |d| == |w| && IsRect(d, n) && i < |d|
    ensures MatVec(Gram(d, n, c), w, i) == c * Dot(d[i], Combo(d, w, n))
  {
    GramRowTerms(d, w, n, c, i);
    SumScale(WeightedDots(d, w, n, i), MatVecTerms(Gram(d, n, c), w, i), c);
    WeightedDotsSum(d, w, n, i);
  }

  lemma GramRowTerms(d: seq<seq<real>>, w: seq<real>, n: nat, c: real, i: nat)
    requires |d| == |w| && IsRect(d, n) && i < |d|
    ensures ScaledBy(WeightedDots(d, w, n, i), MatVecTerms(Gram(d, n, c), w, i), c)
  {
    forall j | 0 <= j < |d| ensures MatVecTerms(Gram(d, n, c), w, i)[j] == c * WeightedDots(d, w, n, i)[j] {
      GramRowTerm(d, w, n, c, i, j);
    }
  }

  lemma GramRowTerm(d: seq<seq<real>>, w: seq<real>, n: nat, c: real, i: nat, j: nat)
    requires |d| == |w| && IsRect(d, n) && i < |d| && j < |d|
    ensures MatVecTerms(Gram(d, n, c), w, i)[j] == c * WeightedDots(d, w, n, i)[j]
  {
    var x := Dot(d[i], d[j]);
    GramEntry(d, n, c, i, j);
    assert MatVecTerms(Gram(d, n, c), w, i)[j] == (c * x) * w[j];
    assert WeightedDots(d, w, n, i)[j] == w[j] * x;
    Rearrange(c, x, w[j]);
  }

  /** The terms w_i * d_i[k] * p[k] of the form, with p the combination, indexed by i and k. */
  function ComboTerms(d: seq<seq<real>>, w: seq<real>, n: nat): (h: seq<seq<real>>)
    requires |d| == |w| && IsRect(d, n)
    ensures |h| == |d| && forall i :: 0 <= i < |h| ==> |h[i]| == n
  {
    var p := Combo(d, w, n);
    seq(|d|, i requires 0 <= i < |d| => seq(n, k requires 0 <= k < n => w[i] * (d[i][k] * p[k])))
  }

  lemma ComboTermsRow(d: seq<seq<real>>, w: seq<real>, n: nat, i: nat)
    requires |d| == |w| && IsRect(d, n) && i < |d|
    ensures Sum(ComboTerms(d, w, n)[i]) == w[i] * Dot(d[i], Combo(d, w, n))
  {
    var p := Combo(d, w, n);
    var prods, row := Products(d[i], p), ComboTerms(d, w, n)[i];
    assert forall k :: 0 <= k < n ==> row[k] == w[i] * (d[i][k] * p[k]);
    assert ScaledBy(prods, row, w[i]);
    SumScale(prods, row, w[i]);
  }

  lemma ComboTermsCol(d: seq<seq<real>>, w: seq<real>, n: nat, k: nat)
    requires |d| == |w| && IsRect(d, n) && k < n
    ensures Sum(Col(ComboTerms(d, w, n), k)) == Combo(d, w, n)[k] * Combo(d, w, n)[k]
  {
    var p := Combo(d, w, n);
    var h := Col(ComboTerms(d, w, n), k);
    var v := Weighted(d, w, k);
    forall i | 0 <= i < |d| ensures h[i] == p[k] * v[i] {
      Rearrange(w[i], d[i][k], p[k]);
    }
    SumScale(v, h, p[k]);
  }

  /** The inner products of every row of `d` with the combination, weighted by `w`. */
  function ComboDots(d: seq<seq<real>>, w: seq<real>, n: nat): (v: seq<real>)
    requires |d| == |w| && IsRect(d, n)
    ensures |v| == |d|
  {
    var p := Combo(d, w, n);
    seq(|d|, i requires 0 <= i < |d| => w[i] * Dot(d[i], p))
  }

  /** Summing the terms of the form in the other order gives the squared length of the combination. */
  lemma ComboDotsSum(d: seq<seq<real>>, w: seq<real>, n: nat)
    requires |d| == |w| && IsRect(d, n)
    ensures Sum(ComboDots(d, w, n)) == Dot(Combo(d, w, n), Combo(d, w, n))
  {
    var p := Combo(d, w, n);
    var h := ComboTerms(d, w, n);
    var rows := RowTotals(h);
    forall i | 0 <= i < |d| ensures rows[i] == ComboDots(d, w, n)[i] {
      ComboTermsRow(d, w, n, i);
    }
    var cols := ColTotals(h, n);
    forall k | 0 <= k < n ensures cols[k] == Products(p, p)[k] {
      ComboTermsCol(d, w, n, k);
    }
    SumSwap(h, n);
    assert rows == ComboDots(d, w, n);
    assert cols == Products(p, p);
  }

  /** The form of a Gram matrix is the scaled squared length of the combination. */
  lemma GramQuadSum(d: seq<seq<real>>, w: seq<real>, n: nat, c: real)
    requires |d| == |w| && IsRect(d, n)
    ensures QuadSum(w, Gram(d, n, c)) == c * Dot(Combo(d, w, n), Combo(d, w, n))
  {
    GramQuadScaled(d, w, n, c);
    ComboDotsSum(d, w, n);
  }

  lemma GramQuadScaled(d: seq<seq<real>>, w: seq<real>, n: nat, c: real)
    requires |d| == |w| && IsRect(d, n)
    ensures Sum(QuadTerms(w, Gram(d, n, c))) == c * Sum(ComboDots(d, w, n))
  {
    GramQuadTerms(d, w, n, c);
    SumScale(ComboDots(d, w, n), QuadTerms(w, Gram(d, n, c)), c);
  }

  lemma GramQuadTerms(d: seq<seq<real>>, w: seq<real>, n: nat, c: real)
    requires |d| == |w| && IsRect(d, n)
    ensures ScaledBy(ComboDots(d, w, n), QuadTerms(w, Gram(d, n, c)), c)
  {
    forall i | 0 <= i < |d| ensures QuadTerms(w, Gram(d, n, c))[i] == c * ComboDots(d, w, n)[i] {
      GramQuadTerm(d, w, n, c, i);
    }
  }

  lemma GramQuadTerm(d: seq<seq<real>>, w: seq<real>, n: nat, c: real, i: nat)
    requires |d| == |w| && IsRect(d, n) && i < |d|
    ensures QuadTerms(w, Gram(d, n, c))[i] == c * ComboDots(d, w, n)[i]
  {
    var x := Dot(d[i], Combo(d, w, n));
    GramRow(d, w, n, c, i);
    assert QuadTerms(w, Gram(d, n, c))[i] == w[i] * (c * x);
    assert ComboDots(d, w, n)[i] == w[i] * x;
    Rearrange(w[i], c, x);
  }

  /** A Gram matrix with a nonnegative scale is positive semidefinite. */
  lemma GramNonNegative(d: seq<seq<real>>, w: seq<real>, n: nat, c: real)
    requires |d| == |w| && IsRect(d, n) && c >= 0.0
    ensures QuadSum(w, Gram(d, n, c)) >= 0.0
  {
    GramQuadSum(d, w, n, c);
    DotSelfNonNegative(Combo(d, w, n));
  }

  // ---------------------------------------------------------------------
  // Sample covariance
  // ---------------------------------------------------------------------

  /** The rows `r` of [lo, hi) where columns `i` and `j` are both present, in order. */
  function PairRows(ret: Panel, m: nat, lo: nat, hi: nat, i: nat, j: nat): (rows: seq<nat>)
    requires IsPanel(ret, m) && lo <= hi <= |ret| && i < m && j < m
    ensures forall k :: 0 <= k < |rows| ==> lo <= rows[k] < hi && ret[rows[k]][i].Some? && ret[rows[k]][j].Some?
    decreases hi - lo
  {
    if hi == lo then []
    else PairRows(ret, m, lo, hi - 1, i, j) + (if ret[hi - 1][i].Some? && ret[hi - 1][j].Some? then [hi - 1] else [])
  }

  /** Every row of the window where both columns are present is one of the pair rows. */
  lemma {:induction false} PairRowsExactly(ret: Panel, m: nat, lo: nat, hi: nat, i: nat, j: nat)
    requires IsPanel(ret, m) && lo <= hi <= |ret| && i < m && j < m
    ensures forall r :: lo <= r < hi ==> (r in PairRows(ret, m, lo, hi, i, j) <==> ret[r][i].Some? && ret[r][j].Some?)
    decreases hi - lo
  {
    if hi > lo {
      PairRowsExactly(ret, m, lo, hi - 1, i, j);
    }
  }

  lemma {:induction false} PairRowsSymmetric(ret: Panel, m: nat, lo: nat, hi: nat, i: nat, j: nat)
    requires IsPanel(ret, m) && lo <= hi <= |ret| && i < m && j < m
    ensures PairRows(ret, m, lo, hi, i, j) == PairRows(ret, m, lo, hi, j, i)
    decreases hi - lo
  {
    if hi > lo {
      PairRowsSymmetric(ret, m, lo, hi - 1, i, j);
    }
  }

  /** The pair rows of a window depend only on the rows inside it. */
  lemma {:induction false} PairRowsLocal(r1: Panel, r2: Panel, m: nat, lo: nat, hi: nat, i: nat, j: nat)
    requires IsPanel(r1, m) && IsPanel(r2, m) && lo <= hi <= |r1| && hi <= |r2| && i < m && j < m
    requires forall r :: lo <= r < hi ==> r1[r] == r2[r]
    ensures PairRows(r1, m, lo, hi, i, j) == PairRows(r2, m, lo, hi, i, j)
    decreases hi - lo
  {
    if hi > lo {
      PairRowsLocal(r1, r2, m, lo, hi - 1, i, j);
    }
  }

  /** The rows of a window without gaps: all of them. */
  lemma {:induction false} PairRowsComplete(ret: Panel, m: nat, lo: nat, hi: nat, i: nat, j: nat)
    requires IsPanel(ret, m) && lo <= hi <= |ret| && i < m && j < m
    requires forall r, c :: lo <= r < hi && 0 <= c < m ==> ret[r][c].Some?
    ensures PairRows(ret, m, lo, hi, i, j) == Range(lo, hi)
    decreases hi - lo
  {
    if hi > lo {
      PairRowsComplete(ret, m, lo, hi - 1, i, j);
    }
  }

  /** The values of column `i` on the given rows. */
  function Values(ret: Panel, m: nat, rows: seq<nat>, i: nat): (xs: seq<real>)
    requires IsPanel(ret, m) && i < m
    requires forall k :: 0 <= k < |rows| ==> rows[k] < |ret| && ret[rows[k]][i].Some?
    ensures |xs| == |rows|
  {
    seq(|rows|, k requires 0 <= k < |rows| => ret[rows[k]][i].value)
  }

  function Mean(xs: seq<real>): real
    requires |xs| > 0
  {
    Sum(xs) / |xs| as real
  }

  function Deviations(xs: seq<real>): (ds: seq<real>)
    requires |xs| > 0
    ensures |ds| == |xs|
  {
    seq(|xs|, k requires 0 <= k < |xs| => xs[k] - Mean(xs))
  }

  /** The factor 1 / (N - 1) of the unbiased sample covariance of N observations. */
  function Bessel(n: nat): (f: real)
    requires n >= 2
    ensures f > 0.0
  {
    1.0 / (n - 1) as real
  }

  /** The covariance with divisor N - 1 of two paired samples of at least two. */
  function SampleCov(xs: seq<real>, ys: seq<real>): (c: real)
    requires |xs| == |ys| >= 2
    ensures xs == ys ==> c >= 0.0
  {
    DotSelfNonNegative(Deviations(xs));
    ProductNonNegative(Bessel(|xs|), Dot(Deviations(xs), Deviations(xs)));
    Bessel(|xs|) * Dot(Deviations(xs), Deviations(ys))
  }

  /**
   * Entry (i, j) of `returns.iloc[lo:hi].cov()`: the sample covariance over
   * the rows where both columns are present, missing with fewer than two.
   */
  function PairCov(ret: Panel, m: nat, lo: nat, hi: nat, i: nat, j: nat): (c: Cell)
    requires IsPanel(ret, m) && lo <= hi <= |ret| && i < m && j < m
    ensures c.Some? <==> |PairRows(ret, m, lo, hi, i, j)| >= 2
    ensures c.Some? && i == j ==> c.value >= 0.0
  {
    var rows := PairRows(ret, m, lo, hi, i, j);
    if |rows| < 2 then None
    else Some(SampleCov(Values(ret, m, rows, i), Values(ret, m, rows, j)))
  }

  /** `returns.iloc[lo:hi].cov()`. */
  function CovMatrix(ret: Panel, m: nat, lo: nat, hi: nat): (c: seq<seq<Cell>>)
    requires IsPanel(ret, m) && lo <= hi <= |ret|
    ensures |c| == m && forall i :: 0 <= i < m ==> |c[i]| == m
  {
    seq(m, i requires 0 <= i < m => seq(m, j requires 0 <= j < m => PairCov(ret, m, lo, hi, i, j)))
  }

  ghost predicate IsCellSquare(c: seq<seq<Cell>>, m: nat)
  {
    |c| == m && forall i :: 0 <= i < m ==> |c[i]| == m
  }

  ghost predicate Symmetric(c: seq<seq<Cell>>, m: nat)
    requires IsCellSquare(c, m)
  {
    forall i, j :: 0 <= i < m && 0 <= j < m ==> c[i][j] == c[j][i]
  }

  /** The covariance matrix of a window depends only on the rows inside the window. */
  lemma CovMatrixLocal(r1: Panel, r2: Panel, m: nat, lo: nat, hi: nat)
    requires IsPanel(r1, m) && IsPanel(r2, m) && lo <= hi <= |r1| && hi <= |r2|
    requires forall r :: lo <= r < hi ==> r1[r] == r2[r]
    ensures CovMatrix(r1, m, lo, hi) == CovMatrix(r2, m, lo, hi)
  {
    forall i, j | 0 <= i < m && 0 <= j < m
      ensures PairCov(r1, m, lo, hi, i, j) == PairCov(r2, m, lo, hi, i, j)
    {
      PairRowsLocal(r1, r2, m, lo, hi, i, j);
      var rows := PairRows(r1, m, lo, hi, i, j);
      assert Values(r1, m, rows, i) == Values(r2, m, rows, i);
      assert Values(r1, m, rows, j) == Values(r2, m, rows, j);
    }
    var c1 := CovMatrix(r1, m, lo, hi);
    var c2 := CovMatrix(r2, m, lo, hi);
    forall i | 0 <= i < m ensures c1[i] == c2[i] {
      forall j | 0 <= j < m ensures c1[i][j] == c2[i][j] {
        CovEntry(r1, m, lo, hi, i, j);
        CovEntry(r2, m, lo, hi, i, j);
      }
    }
  }

  lemma SampleCovSymmetric(xs: seq<real>, ys: seq<real>)
    requires |xs| == |ys| >= 2
    ensures SampleCov(xs, ys) == SampleCov(ys, xs)
  {
    DotSymmetric(Deviations(xs), Deviations(ys));
  }

  /** The covariance of columns i and j is that of columns j and i. */
  lemma PairCovSymmetric(ret: Panel, m: nat, lo: nat, hi: nat, i: nat, j: nat)
    requires IsPanel(ret, m) && lo <= hi <= |ret| && i < m && j < m
    ensures PairCov(ret, m, lo, hi, i, j) == PairCov(ret, m, lo, hi, j, i)
  {
    PairRowsSymmetric(ret, m, lo, hi, i, j);
    var rows := PairRows(ret, m, lo, hi, i, j);
    if |rows| >= 2 {
      SampleCovSymmetric(Values(ret, m, rows, i), Values(ret, m, rows, j));
    }
  }

  lemma CovEntry(ret: Panel, m: nat, lo: nat, hi: nat, i: nat, j: nat)
    requires IsPanel(ret, m) && lo <= hi <= |ret| && i < m && j < m
    ensures CovMatrix(ret, m, lo, hi)[i][j] == PairCov(ret, m, lo, hi, i, j)
  {
  }

  /** The covariance matrix is symmetric. */
  lemma CovSymmetric(ret: Panel, m: nat, lo: nat, hi: nat)
    requires IsPanel(ret, m) && lo <= hi <= |ret|
    ensures Symmetric(CovMatrix(ret, m, lo, hi), m)
  {
    var c: seq<seq<Cell>> := CovMatrix(ret, m, lo, hi);
    forall i: int, j: int | 0 <= i < m && 0 <= j < m
      ensures c[i][j] == c[j][i]
    {
      CovEntry(ret, m, lo, hi, i, j);
      CovEntry(ret, m, lo, hi, j, i);
      PairCovSymmetric(ret, m, lo, hi, i, j);
    }
  }

  /** One entry of `(1 - lambda) * long_cov + lambda * short_cov`: missing where either entry is. */
  function BlendCell(lambda: real, long: Cell, short: Cell): (c: Cell)
    ensures c.Some? <==> long.Some? && short.Some?
  {
    if long.Some? && short.Some? then Some((1.0 - lambda) * long.value + lambda * short.value) else None
  }

  /** `(1 - lambda) * long_cov + lambda * short_cov`. */
  function BlendCov(lambda: real, long: seq<seq<Cell>>, short: seq<seq<Cell>>, m: nat): (c: seq<seq<Cell>>)
    requires IsCellSquare(long, m) && IsCellSquare(short, m)
    ensures IsCellSquare(c, m)
    ensures forall i, j :: 0 <= i < m && 0 <= j < m ==> (c[i][j].Some? <==> long[i][j].Some? && short[i][j].Some?)
  {
    seq(m, i requires 0 <= i < m => seq(m, j requires 0 <= j < m => BlendCell(lambda, long[i][j], short[i][j])))
  }

  lemma BlendEntry(lambda: real, long: seq<seq<Cell>>, short: seq<seq<Cell>>, m: nat, i: nat, j: nat)
    requires IsCellSquare(long, m) && IsCellSquare(short, m) && i < m && j < m
    ensures BlendCov(lambda, long, short, m)[i][j] == BlendCell(lambda, long[i][j], short[i][j])
  {
  }

  /** lambda = 1 gives the short-window entries and lambda = 0 the long-window ones, wherever both are defined. */
  lemma BlendEnds(long: seq<seq<Cell>>, short: seq<seq<Cell>>, m: nat, i: nat, j: nat)
    requires IsCellSquare(long, m) && IsCellSquare(short, m) && i < m && j < m
    requires long[i][j].Some? && short[i][j].Some?
    ensures BlendCov(1.0, long, short, m)[i][j] == short[i][j]
    ensures BlendCov(0.0, long, short, m)[i][j] == long[i][j]
  {
  }

  /** Blending two symmetric matrices gives a symmetric matrix. */
  lemma BlendSymmetric(lambda: real, long: seq<seq<Cell>>, short: seq<seq<Cell>>, m: nat)
    requires IsCellSquare(long, m) && IsCellSquare(short, m)
    requires Symmetric(long, m) && Symmetric(short, m)
    ensures Symmetric(BlendCov(lambda, long, short, m), m)
  {
    var b := BlendCov(lambda, long, short, m);
    forall i, j | 0 <= i < m && 0 <= j < m ensures b[i][j] == b[j][i] {
      BlendEntry(lambda, long, short, m, i, j);
      BlendEntry(lambda, long, short, m, j, i);
    }
  }

  /** All entries defined. */
  predicate Complete(c: seq<seq<Cell>>, m: nat)
    requires IsCellSquare(c, m)
  {
    forall i, j :: 0 <= i < m && 0 <= j < m ==> c[i][j].Some?
  }

  /** The entries of a complete matrix. */
  function Entries(c: seq<seq<Cell>>, m: nat): (mat: seq<seq<real>>)
    requires IsCellSquare(c, m) && Complete(c, m)
    ensures IsSquare(mat, m)
  {
    seq(m, i requires 0 <= i < m => seq(m, j requires 0 <= j < m => c[i][j].value))
  }

  lemma EntriesEntry(c: seq<seq<Cell>>, m: nat, i: nat, j: nat)
    requires IsCellSquare(c, m) && Complete(c, m) && i < m && j < m
    ensures Entries(c, m)[i][j] == c[i][j].value
  {
  }

  /**
   * `(w_t.T @ cov @ w_t).item()`: missing as soon as one entry of the matrix
   * is, whatever the weights, since a missing entry times 0 is missing too.
   */
  function QuadForm(w: seq<real>, c: seq<seq<Cell>>): (q: Cell)
    requires IsCellSquare(c, |w|)
    ensures q.Some? <==> Complete(c, |w|)
  {
    if Complete(c, |w|) then Some(QuadSum(w, Entries(c, |w|))) else None
  }

  /** A window without gaps, of at least two rows. */
  ghost predicate CompleteWindow(ret: Panel, m: nat, lo: nat, hi: nat)
  {
    lo + 2 <= hi <= |ret| && IsPanel(ret, m) && forall r, c :: lo <= r < hi && 0 <= c < m ==> ret[r][c].Some?
  }

  /** The deviations of every column over the rows of a window. */
  function DeviationRows(ret: Panel, m: nat, lo: nat, hi: nat): (d: seq<seq<real>>)
    requires CompleteWindow(ret, m, lo, hi)
    ensures |d| == m && IsRect(d, hi - lo)
  {
    seq(m, i requires 0 <= i < m => Deviations(Values(ret, m, Range(lo, hi), i)))
  }

  /** The index rows lo, ..., hi - 1. */
  function Range(lo: nat, hi: nat): (rows: seq<nat>)
    requires lo <= hi
    ensures |rows| == hi - lo && forall k :: 0 <= k < |rows| ==> rows[k] == lo + k
  {
    seq(hi - lo, k requires 0 <= k < hi - lo => lo + k)
  }

  /** Over a window without gaps every covariance is defined and taken over all the rows of the window. */
  lemma PairCovComplete(ret: Panel, m: nat, lo: nat, hi: nat, i: nat, j: nat)
    requires CompleteWindow(ret, m, lo, hi) && i < m && j < m
    ensures PairCov(ret, m, lo, hi, i, j) == Some(SampleCov(Values(ret, m, Range(lo, hi), i), Values(ret, m, Range(lo, hi), j)))
  {
    PairRowsComplete(ret, m, lo, hi, i, j);
  }

  /** Over a window without gaps each covariance is the scaled inner product of the two columns' deviations. */
  lemma CovEntryComplete(ret: Panel, m: nat, lo: nat, hi: nat, i: nat, j: nat)
    requires CompleteWindow(ret, m, lo, hi) && i < m && j < m
    ensures CovMatrix(ret, m, lo, hi)[i][j].Some?
    ensures CovMatrix(ret, m, lo, hi)[i][j].value == Bessel(hi - lo) * Dot(DeviationRows(ret, m, lo, hi)[i], DeviationRows(ret, m, lo, hi)[j])
  {
    var c: seq<seq<Cell>> := CovMatrix(ret, m, lo, hi);
    var d := DeviationRows(ret, m, lo, hi);
    var rows := Range(lo, hi);
    var xs, ys := Values(ret, m, rows, i), Values(ret, m, rows, j);
    PairCovComplete(ret, m, lo, hi, i, j);
    assert c[i][j] == Some(SampleCov(xs, ys));
    assert d[i] == Deviations(xs) && d[j] == Deviations(ys);
    assert |xs| == hi - lo;
  }

  /** Over a window without gaps, the covariance matrix is the Gram matrix of the deviations, scaled by 1 / (N - 1). */
  lemma CovIsGram(ret: Panel, m: nat, lo: nat, hi: nat)
    requires CompleteWindow(ret, m, lo, hi)
    ensures Complete(CovMatrix(ret, m, lo, hi), m)
    ensures Entries(CovMatrix(ret, m, lo, hi), m) == Gram(DeviationRows(ret, m, lo, hi), hi - lo, Bessel(hi - lo))
  {
    var c: seq<seq<Cell>> := CovMatrix(ret, m, lo, hi);
    var d := DeviationRows(ret, m, lo, hi);
    var scale := Bessel(hi - lo);
    forall i: int, j: int | 0 <= i < m && 0 <= j < m
      ensures c[i][j].Some?
    {
      CovEntryComplete(ret, m, lo, hi, i, j);
    }
    var e := Entries(c, m);
    var g := Gram(d, hi - lo, scale);
    forall i | 0 <= i < m ensures e[i] == g[i] {
      forall j | 0 <= j < m ensures e[i][j] == g[i][j] {
        CovEntryComplete(ret, m, lo, hi, i, j);
        EntriesEntry(c, m, i, j);
        GramEntry(d, hi - lo, scale, i, j);
      }
    }
  }

  /** Over a window without gaps of at least two rows the portfolio variance is never negative. */
  lemma CovNonNegative(ret: Panel, m: nat, lo: nat, hi: nat, w: seq<real>)
    requires CompleteWindow(ret, m, lo, hi) && |w| == m
    ensures QuadForm(w, CovMatrix(ret, m, lo, hi)).Some?
    ensures QuadForm(w, CovMatrix(ret, m, lo, hi)).value >= 0.0
  {
    CovIsGram(ret, m, lo, hi);
    GramNonNegative(DeviationRows(ret, m, lo, hi), w, hi - lo, Bessel(hi - lo));
  }

  lemma ConvexNonNegative(lambda: real, x: real, y: real)
    requires 0.0 <= lambda <= 1.0 && x >= 0.0 && y >= 0.0
    ensures (1.0 - lambda) * x + lambda * y >= 0.0
  {
    ProductNonNegative(1.0 - lambda, x);
    ProductNonNegative(lambda, y);
  }

  /** Blending two complete matrices gives a complete matrix. */
  lemma BlendComplete(lambda: real, long: seq<seq<Cell>>, short: seq<seq<Cell>>, m: nat)
    requires IsCellSquare(long, m) && IsCellSquare(short, m)
    requires Complete(long, m) && Complete(short, m)
    ensures Complete(BlendCov(lambda, long, short, m), m)
  {
    var b: seq<seq<Cell>> := BlendCov(lambda, long, short, m);
    forall i: int, j: int | 0 <= i < m && 0 <= j < m
      ensures b[i][j].Some?
    {
      BlendEntry(lambda, long, short, m, i, j);
    }
  }

  /** The entries of the blend of two complete matrices are the blend of their entries. */
  lemma BlendEntries(lambda: real, long: seq<seq<Cell>>, short: seq<seq<Cell>>, m: nat)
    requires IsCellSquare(long, m) && IsCellSquare(short, m)
    requires Complete(long, m) && Complete(short, m) && Complete(BlendCov(lambda, long, short, m), m)
    ensures MatCombines(Entries(long, m), Entries(short, m), Entries(BlendCov(lambda, long, short, m), m), 1.0 - lambda, lambda, m)
  {
    var b: seq<seq<Cell>> := BlendCov(lambda, long, short, m);
    var e1, e2, e := Entries(long, m), Entries(short, m), Entries(b, m);
    forall i | 0 <= i < m ensures Combines(e1[i], e2[i], e[i], 1.0 - lambda, lambda) {
      forall j | 0 <= j < m ensures e[i][j] == (1.0 - lambda) * e1[i][j] + lambda * e2[i][j] {
        BlendEntry(lambda, long, short, m, i, j);
        EntriesEntry(b, m, i, j);
        EntriesEntry(long, m, i, j);
        EntriesEntry(short, m, i, j);
      }
    }
  }

  /** Blending two complete matrices blends their forms with the same weights. */
  lemma BlendQuadForm(w: seq<real>, lambda: real, long: seq<seq<Cell>>, short: seq<seq<Cell>>)
    requires IsCellSquare(long, |w|) && IsCellSquare(short, |w|)
    requires Complete(long, |w|) && Complete(short, |w|)
    ensures QuadForm(w, BlendCov(lambda, long, short, |w|)).Some?
    ensures QuadForm(w, BlendCov(lambda, long, short, |w|)).value ==
      (1.0 - lambda) * QuadForm(w, long).value + lambda * QuadForm(w, short).value
  {
    var m := |w|;
    var b: seq<seq<Cell>> := BlendCov(lambda, long, short, m);
    BlendComplete(lambda, long, short, m);
    BlendEntries(lambda, long, short, m);
    QuadSumLinear(w, Entries(long, m), Entries(short, m), Entries(b, m), 1.0 - lambda, lambda);
    QuadFormComplete(w, long);
    QuadFormComplete(w, short);
    QuadFormComplete(w, b);
  }

  lemma QuadFormComplete(w: seq<real>, c: seq<seq<Cell>>)
    requires IsCellSquare(c, |w|) && Complete(c, |w|)
    ensures QuadForm(w, c) == Some(QuadSum(w, Entries(c, |w|)))
  {
  }

  /**
   * For lambda in [0, 1] and two windows without gaps the blended portfolio
   * variance is a convex combination of two nonnegative variances, so it is
   * defined and never negative.
   */
  lemma BlendNonNegative(ret: Panel, m: nat, lambda: real, shortLo: nat, longLo: nat, hi: nat, w: seq<real>)
    requires 0.0 <= lambda <= 1.0 && |w| == m
    requires CompleteWindow(ret, m, shortLo, hi) && CompleteWindow(ret, m, longLo, hi)
    ensures QuadForm(w, BlendCov(lambda, CovMatrix(ret, m, longLo, hi), CovMatrix(ret, m, shortLo, hi), m)).Some?
    ensures QuadForm(w, BlendCov(lambda, CovMatrix(ret, m, longLo, hi), CovMatrix(ret, m, shortLo, hi), m)).value >= 0.0
  {
    var long := CovMatrix(ret, m, longLo, hi);
    var short := CovMatrix(ret, m, shortLo, hi);
    CovNonNegative(ret, m, longLo, hi, w);
    CovNonNegative(ret, m, shortLo, hi, w);
    BlendOfNonNegative(w, lambda, long, short);
  }

  /** The blend, with a weight in [0, 1], of two complete matrices with nonnegative forms has a nonnegative form. */
  lemma BlendOfNonNegative(w: seq<real>, lambda: real, long: seq<seq<Cell>>, short: seq<seq<Cell>>)
    requires 0.0 <= lambda <= 1.0
    requires IsCellSquare(long, |w|) && IsCellSquare(short, |w|)
    requires QuadForm(w, long).Some? && QuadForm(w, long).value >= 0.0
    requires QuadForm(w, short).Some? && QuadForm(w, short).value >= 0.0
    ensures QuadForm(w, BlendCov(lambda, long, short, |w|)).Some?
    ensures QuadForm(w, BlendCov(lambda, long, short, |w|)).value >= 0.0
  {
    BlendQuadForm(w, lambda, long, short);
    ConvexNonNegative(lambda, QuadForm(w, long).value, QuadForm(w, short).value);
  }
}
