/** The general Gauss-Seidel solver of the dashboard (gauss_seidel_detailed in
    sitefull.py). A sweep updates the components of x in index order; row i
    uses the components already updated in this sweep (indices below i) and
    the previous iterate for the others. The run stops at the first sweep
    whose infinity-norm step is below tol, or after max_iter sweeps. */
module GaussSeidel {

  import opened LinAlg

  /** What a run needs: an n x n matrix with n >= 1, vectors of length n and
      no zero on the diagonal (the source divides by A[i,i] without a check,
      and numpy's infinity norm of an empty vector raises). */
  predicate WellFormed(A: Matrix, b: Vector, x: Vector)
  {
    |b| >= 1 && IsSquare(A, |b|) && |x| == |b| &&
    forall i :: 0 <= i < |b| ==> A[i][i] != 0.0
  }

  /** The value row i reads for column j: updated below i, previous from i on. */
  function Pick(upd: Vector, x: Vector, i: nat, j: nat): real
    requires i <= |upd| && j < |x|
  {
    if j < i then upd[j] else x[j]
  }

  /** The off-diagonal part of row i over columns 0..m-1 (soma_correta). */
  function OffDiagonal(row: Vector, i: nat, upd: Vector, x: Vector, m: nat): real
    requires m <= |row| && m <= |x| && i <= |upd|
  {
    if m == 0 then 0.0
    else OffDiagonal(row, i, upd, x, m - 1) + (if m - 1 != i then row[m - 1] * Pick(upd, x, i, m - 1) else 0.0)
  }

  /** New value of component |upd|, given the components upd already updated. */
  function RowUpdate(A: Matrix, b: Vector, x: Vector, upd: Vector): real
    requires WellFormed(A, b, x) && |upd| < |b|
  {
    var i := |upd|;
    (b[i] - OffDiagonal(A[i], i, upd, x, |b|)) / A[i][i]
  }

  /** The first m components of one sweep from x. */
  function SweepPrefix(A: Matrix, b: Vector, x: Vector, m: nat): (p: Vector)
    requires WellFormed(A, b, x) && m <= |b|
    ensures |p| == m
  {
    if m == 0 then []
    else
      var p := SweepPrefix(A, b, x, m - 1);
      p + [RowUpdate(A, b, x, p)]
  }

  /** One complete sweep from x. */
  function Sweep(A: Matrix, b: Vector, x: Vector): (r: Vector)
    requires WellFormed(A, b, x)
    ensures |r| == |x|
  {
    SweepPrefix(A, b, x, |b|)
  }

  /** The iterate after k sweeps from x0. */
  function Iterate(A: Matrix, b: Vector, x0: Vector, k: nat): (x: Vector)
    requires WellFormed(A, b, x0)
    ensures WellFormed(A, b, x)
  {
    if k == 0 then x0 else Sweep(A, b, Iterate(A, b, x0, k - 1))
  }

  /** The history of the first k sweeps: x0 followed by each iterate. */
  function Trace(A: Matrix, b: Vector, x0: Vector, k: nat): (h: seq<Vector>)
    requires WellFormed(A, b, x0)
    ensures |h| == k + 1
    ensures forall m :: 0 <= m <= k ==> h[m] == Iterate(A, b, x0, m)
  {
    if k == 0 then [x0] else Trace(A, b, x0, k - 1) + [Iterate(A, b, x0, k)]
  }

  function Abs(r: real): real
  {
    if r < 0.0 then -r else r
  }

  /** max_i |u[i] - v[i]| over i < m (np.linalg.norm(u - v, ord=np.inf)). */
  function MaxAbsDiff(u: Vector, v: Vector, m: nat): (r: real)
    requires m <= |u| && m <= |v|
    ensures r >= 0.0
    ensures forall i :: 0 <= i < m ==> Abs(u[i] - v[i]) <= r
    ensures m > 0 ==> exists i :: 0 <= i < m && r == Abs(u[i] - v[i])
  {
    if m == 0 then 0.0
    else
      var prev := MaxAbsDiff(u, v, m - 1);
      var last := Abs(u[m - 1] - v[m - 1]);
      if prev < last then last else prev
  }

  function InfNormDiff(u: Vector, v: Vector): real
    requires |u| == |v|
  {
    MaxAbsDiff(u, v, |u|)
  }

  /** The convergence measure of sweep k >= 1. */
  function Step(A: Matrix, b: Vector, x0: Vector, k: nat): real
    requires WellFormed(A, b, x0) && k >= 1
  {
    InfNormDiff(Iterate(A, b, x0, k), Iterate(A, b, x0, k - 1))
  }

  // ------------------------------------------------------------ the code

  /** One sweep, updating x_new in place as the nested loops of the source do. */
  method GaussSeidelSweep(A: Matrix, b: Vector, x: Vector) returns (xNew: Vector)
    requires WellFormed(A, b, x)
    ensures xNew == Sweep(A, b, x)
  {
    var n := |b|;
    var a := new real[n](j requires 0 <= j < n => x[j]);
    for i := 0 to n
      invariant a[..i] == SweepPrefix(A, b, x, i)
    {
      var soma := 0.0;
      for j := 0 to n
        invariant soma == OffDiagonal(A[i], i, a[..i], x, j)
      {
        if i != j {
          soma := soma + (if j < i then A[i][j] * a[j] else A[i][j] * x[j]);
        }
      }
      a[i] := (b[i] - soma) / A[i][i];
      assert a[..i + 1] == a[..i] + [a[i]];
    }
    xNew := a[..];
    assert xNew == a[..n];
  }

  /** gauss_seidel_detailed: returns the last vector, the history starting
      with x0, and the number of sweeps k. */
  method GaussSeidelDetailed(A: Matrix, b: Vector, x0: Vector, maxIter: nat, tol: real)
    returns (x: Vector, history: seq<Vector>, k: nat)
    requires WellFormed(A, b, x0)
    ensures k <= maxIter && (maxIter > 0 ==> k >= 1)
    ensures history == Trace(A, b, x0, k)
    ensures x == history[k]
    ensures forall m :: 1 <= m < k ==> Step(A, b, x0, m) >= tol
    ensures k < maxIter ==> Step(A, b, x0, k) < tol
  {
    x := x0;
    history := [x0];
    for iter := 1 to maxIter + 1
      invariant history == Trace(A, b, x0, iter - 1)
      invariant x == history[iter - 1]
      invariant forall m :: 1 <= m < iter ==> Step(A, b, x0, m) >= tol
    {
      var xNew := GaussSeidelSweep(A, b, x);
      assert xNew == Iterate(A, b, x0, iter);
      assert InfNormDiff(xNew, x) == Step(A, b, x0, iter);
      history := history + [xNew];
      if InfNormDiff(xNew, x) < tol {
        return xNew, history, iter;
      }
      x := xNew;
    }
    k := maxIter;
  }

  // ------------------------------------------------------------ properties

  /** Row i of the system A·v = b, with the components below i taken from v
      (this sweep) and the components above i from x (previous iterate). */
  predicate SweepEquations(A: Matrix, b: Vector, x: Vector, v: Vector)
    requires WellFormed(A, b, x) && |v| == |b|
  {
    forall i :: 0 <= i < |b| ==> A[i][i] * v[i] + OffDiagonal(A[i], i, v, x, |b|) == b[i]
  }

  lemma {:induction false} OffDiagonalFreshPrefix(row: Vector, i: nat, f: Vector, g: Vector, x: Vector, m: nat)
    requires m <= |row| && m <= |x| && i <= |f| && i <= |g|
    requires forall j :: 0 <= j < i ==> f[j] == g[j]
    ensures OffDiagonal(row, i, f, x, m) == OffDiagonal(row, i, g, x, m)
  {
    if m > 0 {
      OffDiagonalFreshPrefix(row, i, f, g, x, m - 1);
    }
  }

  lemma {:induction false} SweepPrefixStable(A: Matrix, b: Vector, x: Vector, i: nat, m: nat)
    requires WellFormed(A, b, x) && i <= m <= |b|
    ensures SweepPrefix(A, b, x, m)[..i] == SweepPrefix(A, b, x, i)
    decreases m
  {
    if i < m {
      SweepPrefixStable(A, b, x, i, m - 1);
      assert SweepPrefix(A, b, x, m)[..m - 1] == SweepPrefix(A, b, x, m - 1);
    }
  }

  /** The sweep's output solves each row equation with the upd components
      below the diagonal and the previous ones above it: this is what makes it
      Gauss-Seidel rather than Jacobi. */
  lemma SweepSolvesRows(A: Matrix, b: Vector, x: Vector)
    requires WellFormed(A, b, x)
    ensures SweepEquations(A, b, x, Sweep(A, b, x))
  {
    var n := |b|;
    var v := Sweep(A, b, x);
    forall i | 0 <= i < n
      ensures A[i][i] * v[i] + OffDiagonal(A[i], i, v, x, n) == b[i]
    {
      var p := SweepPrefix(A, b, x, i);
      SweepPrefixStable(A, b, x, i, n);
      SweepPrefixStable(A, b, x, i + 1, n);
      assert v[i] == SweepPrefix(A, b, x, i + 1)[i];
      assert v[i] == RowUpdate(A, b, x, p);
      OffDiagonalFreshPrefix(A[i], i, v, p, x, n);
    }
  }

  /** Conversely, the row equations determine the sweep: no other vector
      satisfies them. */
  lemma SweepEquationsUnique(A: Matrix, b: Vector, x: Vector, v: Vector)
    requires WellFormed(A, b, x) && |v| == |b|
    requires SweepEquations(A, b, x, v)
    ensures v == Sweep(A, b, x)
  {
    var n := |b|;
    var m := 0;
    while m < n
      invariant 0 <= m <= n
      invariant v[..m] == SweepPrefix(A, b, x, m)
    {
      var p := SweepPrefix(A, b, x, m);
      OffDiagonalFreshPrefix(A[m], m, v, p, x, n);
      assert A[m][m] * v[m] + OffDiagonal(A[m], m, p, x, n) == b[m];
      SolveDiagonal(A[m][m], v[m], OffDiagonal(A[m], m, p, x, n), b[m]);
      assert v[..m + 1] == v[..m] + [v[m]];
      m := m + 1;
    }
    assert v == v[..n];
  }

  lemma SolveDiagonal(d: real, y: real, s: real, t: real)
    requires d != 0.0 && d * y + s == t
    ensures y == (t - s) / d
  {
  }

  /** Exactly one vector satisfies the row equations of a sweep from x. */
  lemma SweepCharacterised(A: Matrix, b: Vector, x: Vector, v: Vector)
    requires WellFormed(A, b, x) && |v| == |b|
    ensures v == Sweep(A, b, x) <==> SweepEquations(A, b, x, v)
  {
    if v == Sweep(A, b, x) {
      SweepSolvesRows(A, b, x);
    }
    if SweepEquations(A, b, x, v) {
      SweepEquationsUnique(A, b, x, v);
    }
  }

  lemma {:induction false} OffDiagonalPlusDiagonal(row: Vector, i: nat, x: Vector, m: nat)
    requires m <= |row| && m <= |x| && i <= |x|
    ensures OffDiagonal(row, i, x, x, m) + (if i < m then row[i] * x[i] else 0.0) == DotUpTo(row, x, m)
  {
    if m > 0 {
      OffDiagonalPlusDiagonal(row, i, x, m - 1);
    }
  }

  /** The fixed points of a sweep are exactly the solutions of A·x = b. */
  lemma FixedPointIffSolution(A: Matrix, b: Vector, x: Vector)
    requires WellFormed(A, b, x)
    ensures Sweep(A, b, x) == x <==> MatVec(A, x) == b
  {
    var n := |b|;
    forall i | 0 <= i < n
      ensures A[i][i] * x[i] + OffDiagonal(A[i], i, x, x, n) == Dot(A[i], x)
    {
      OffDiagonalPlusDiagonal(A[i], i, x, n);
    }
    SweepCharacterised(A, b, x, x);
    if MatVec(A, x) == b {
      assert SweepEquations(A, b, x, x) by {
        forall i | 0 <= i < n
          ensures A[i][i] * x[i] + OffDiagonal(A[i], i, x, x, n) == b[i]
        {
          assert MatVec(A, x)[i] == b[i];
        }
      }
    }
    if Sweep(A, b, x) == x {
      assert SweepEquations(A, b, x, x);
      assert MatVec(A, x) == b;
    }
  }

  lemma ZeroNormMeansEqual(u: Vector, v: Vector)
    requires |u| == |v| && InfNormDiff(u, v) == 0.0
    ensures u == v
  {
    forall i | 0 <= i < |u|
      ensures u[i] == v[i]
    {
      assert Abs(u[i] - v[i]) <= 0.0;
    }
  }

  /** A sweep that does not move the estimate (step 0, which passes every
      positive tolerance) has reached an exact solution. */
  lemma ZeroStepIsSolution(A: Matrix, b: Vector, x0: Vector, k: nat)
    requires WellFormed(A, b, x0) && k >= 1
    requires Step(A, b, x0, k) == 0.0
    ensures MatVec(A, Iterate(A, b, x0, k)) == b
  {
    var prev := Iterate(A, b, x0, k - 1);
    ZeroNormMeansEqual(Iterate(A, b, x0, k), prev);
    FixedPointIffSolution(A, b, prev);
  }

  /** Started at a solution, every iterate stays there. */
  lemma {:induction false} SolutionIsStationary(A: Matrix, b: Vector, x0: Vector, k: nat)
    requires WellFormed(A, b, x0) && MatVec(A, x0) == b
    ensures Iterate(A, b, x0, k) == x0
  {
    if k > 0 {
      SolutionIsStationary(A, b, x0, k - 1);
      FixedPointIffSolution(A, b, x0);
    }
  }
}
