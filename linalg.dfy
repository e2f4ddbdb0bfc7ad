/** Dense vectors and matrices over the reals, and the direct solver that the
    least-squares fits call (np.linalg.solve). The solver is modelled only by
    what it promises for the 2x2 and 3x3 normal equations: it fails exactly
    when the matrix is singular and otherwise returns the unique solution.
    Cramer's rule gives that solution exactly over the reals. */
module LinAlg {

  import opened Prelude

  type Vector = seq<real>
  type Matrix = seq<seq<real>>

  predicate IsSquare(M: Matrix, n: nat)
  {
    |M| == n && forall i :: 0 <= i < n ==> |M[i]| == n
  }

  predicate IsSymmetric(M: Matrix)
    requires IsSquare(M, |M|)
  {
    forall i, j :: 0 <= i < |M| && 0 <= j < |M| ==> M[i][j] == M[j][i]
  }

  /** u[0]*v[0] + ... + u[m-1]*v[m-1] */
  function DotUpTo(u: Vector, v: Vector, m: nat): real
    requires m <= |u| && m <= |v|
  {
    if m == 0 then 0.0 else DotUpTo(u, v, m - 1) + u[m - 1] * v[m - 1]
  }

  function Dot(u: Vector, v: Vector): real
    requires |u| == |v|
  {
    DotUpTo(u, v, |u|)
  }

  /** The product M·v, one dot product per row. */
  function MatVec(M: Matrix, v: Vector): (r: Vector)
    requires forall i :: 0 <= i < |M| ==> |M[i]| == |v|
    ensures |r| == |M|
    ensures forall i :: 0 <= i < |M| ==> r[i] == Dot(M[i], v)
  {
    seq(|M|, i requires 0 <= i < |M| => Dot(M[i], v))
  }

  lemma Dot2(u: Vector, v: Vector)
    requires |u| == 2 && |v| == 2
    ensures Dot(u, v) == u[0] * v[0] + u[1] * v[1]
  {
    assert DotUpTo(u, v, 1) == u[0] * v[0];
  }

  lemma Dot3(u: Vector, v: Vector)
    requires |u| == 3 && |v| == 3
    ensures Dot(u, v) == u[0] * v[0] + u[1] * v[1] + u[2] * v[2]
  {
    assert DotUpTo(u, v, 1) == u[0] * v[0];
    assert DotUpTo(u, v, 2) == u[0] * v[0] + u[1] * v[1];
  }

  // ---------------------------------------------------------------- 2x2

  function Det2(M: Matrix): real
    requires IsSquare(M, 2)
  {
    M[0][0] * M[1][1] - M[0][1] * M[1][0]
  }

  /** np.linalg.solve on a 2x2 system: None stands for the LinAlgError raised
      on a singular matrix. */
  function Solve2(M: Matrix, r: Vector): (res: Option<Vector>)
    requires IsSquare(M, 2) && |r| == 2
    ensures res.Some? <==> Det2(M) != 0.0
    ensures res.Some? ==> |res.value| == 2 && MatVec(M, res.value) == r
  {
    var d := Det2(M);
    if d == 0.0 then None
    else
      var a := [(r[0] * M[1][1] - M[0][1] * r[1]) / d, (M[0][0] * r[1] - r[0] * M[1][0]) / d];
      Cramer2(M, r, a);
      Some(a)
  }

  lemma Cramer2(M: Matrix, r: Vector, a: Vector)
    requires IsSquare(M, 2) && |r| == 2 && Det2(M) != 0.0
    requires a == [(r[0] * M[1][1] - M[0][1] * r[1]) / Det2(M), (M[0][0] * r[1] - r[0] * M[1][0]) / Det2(M)]
    ensures MatVec(M, a) == r
  {
    var d := Det2(M);
    var n0, n1 := r[0] * M[1][1] - M[0][1] * r[1], M[0][0] * r[1] - r[0] * M[1][0];
    assert M[0][0] * n0 + M[0][1] * n1 == r[0] * d;
    assert M[1][0] * n0 + M[1][1] * n1 == r[1] * d;
    DivideRow2(M[0][0], M[0][1], n0, n1, d, r[0]);
    DivideRow2(M[1][0], M[1][1], n0, n1, d, r[1]);
    Dot2(M[0], a);
    Dot2(M[1], a);
    assert MatVec(M, a)[0] == r[0] && MatVec(M, a)[1] == r[1];
  }

  lemma DivideRow2(p: real, q: real, n0: real, n1: real, d: real, t: real)
    requires d != 0.0 && p * n0 + q * n1 == t * d
    ensures p * (n0 / d) + q * (n1 / d) == t
  {
    assert p * (n0 / d) + q * (n1 / d) == (p * n0 + q * n1) / d;
  }

  /** A nonsingular 2x2 system has exactly one solution: the one Solve2 returns. */
  lemma {:induction false} Solve2Unique(M: Matrix, r: Vector, v: Vector)
    requires IsSquare(M, 2) && |r| == 2 && |v| == 2
    requires Det2(M) != 0.0 && MatVec(M, v) == r
    ensures Solve2(M, r) == Some(v)
  {
    var a := Solve2(M, r).value;
    Dot2(M[0], v); Dot2(M[1], v); Dot2(M[0], a); Dot2(M[1], a);
    var d0, d1 := v[0] - a[0], v[1] - a[1];
    assert e0: M[0][0] * d0 + M[0][1] * d1 == 0.0;
    assert e1: M[1][0] * d0 + M[1][1] * d1 == 0.0;
    assert Det2(M) * d0 == M[1][1] * (M[0][0] * d0 + M[0][1] * d1) - M[0][1] * (M[1][0] * d0 + M[1][1] * d1);
    assert Det2(M) * d1 == M[0][0] * (M[1][0] * d0 + M[1][1] * d1) - M[1][0] * (M[0][0] * d0 + M[0][1] * d1);
    ZeroProduct(Det2(M), d0);
    ZeroProduct(Det2(M), d1);
    assert v == a;
  }

  lemma ZeroProduct(d: real, x: real)
    requires d != 0.0 && d * x == 0.0
    ensures x == 0.0
  {
  }

  // ---------------------------------------------------------------- 3x3

  function Det3(M: Matrix): real
    requires IsSquare(M, 3)
  {
    M[0][0] * (M[1][1] * M[2][2] - M[1][2] * M[2][1])
    - M[0][1] * (M[1][0] * M[2][2] - M[1][2] * M[2][0])
    + M[0][2] * (M[1][0] * M[2][1] - M[1][1] * M[2][0])
  }

  /** M with column k replaced by r. */
  function ReplaceColumn(M: Matrix, k: nat, r: Vector): (R: Matrix)
    requires IsSquare(M, 3) && |r| == 3 && k < 3
    ensures IsSquare(R, 3)
  {
    seq(3, i requires 0 <= i < 3 => M[i][k := r[i]])
  }

  /** np.linalg.solve on a 3x3 system: None stands for the LinAlgError raised
      on a singular matrix. */
  function Solve3(M: Matrix, r: Vector): (res: Option<Vector>)
    requires IsSquare(M, 3) && |r| == 3
    ensures res.Some? <==> Det3(M) != 0.0
    ensures res.Some? ==> |res.value| == 3 && MatVec(M, res.value) == r
  {
    var d := Det3(M);
    if d == 0.0 then None
    else
      var a := [Det3(ReplaceColumn(M, 0, r)) / d, Det3(ReplaceColumn(M, 1, r)) / d, Det3(ReplaceColumn(M, 2, r)) / d];
      Cramer3(M, r, a);
      Some(a)
  }

  lemma Cramer3(M: Matrix, r: Vector, a: Vector)
    requires IsSquare(M, 3) && |r| == 3 && Det3(M) != 0.0
    requires a == [Det3(ReplaceColumn(M, 0, r)) / Det3(M), Det3(ReplaceColumn(M, 1, r)) / Det3(M), Det3(ReplaceColumn(M, 2, r)) / Det3(M)]
    ensures MatVec(M, a) == r
  {
    var d := Det3(M);
    var n0, n1, n2 := Det3(ReplaceColumn(M, 0, r)), Det3(ReplaceColumn(M, 1, r)), Det3(ReplaceColumn(M, 2, r));
    forall i | 0 <= i < 3
      ensures Dot(M[i], a) == r[i]
    {
      CramerRow(M, r, i);
      CramerSolvesRow(M[i], n0, n1, n2, d, r[i], a);
    }
  }

  /** A row whose products with the numerators n0, n1, n2 sum to t * d is
      solved by the quotients of the numerators by d. */
  lemma CramerSolvesRow(row: Vector, n0: real, n1: real, n2: real, d: real, t: real, a: Vector)
    requires |row| == 3 && d != 0.0 && row[0] * n0 + row[1] * n1 + row[2] * n2 == t * d
    requires a == [n0 / d, n1 / d, n2 / d]
    ensures Dot(row, a) == t
  {
    DivideRow3(row[0], row[1], row[2], n0, n1, n2, d, t, a[0], a[1], a[2]);
    Dot3(row, a);
  }

  /** Expanding along the replaced column: row i of M times the Cramer
      numerators is r[i] times the determinant. */
  lemma CramerRow(M: Matrix, r: Vector, i: nat)
    requires IsSquare(M, 3) && |r| == 3 && i < 3
    ensures M[i][0] * Det3(ReplaceColumn(M, 0, r)) + M[i][1] * Det3(ReplaceColumn(M, 1, r))
          + M[i][2] * Det3(ReplaceColumn(M, 2, r)) == r[i] * Det3(M)
  {
    var C0, C1, C2 := ReplaceColumn(M, 0, r), ReplaceColumn(M, 1, r), ReplaceColumn(M, 2, r);
    assert C0[0] == [r[0], M[0][1], M[0][2]] && C0[1] == [r[1], M[1][1], M[1][2]] && C0[2] == [r[2], M[2][1], M[2][2]];
    assert C1[0] == [M[0][0], r[0], M[0][2]] && C1[1] == [M[1][0], r[1], M[1][2]] && C1[2] == [M[2][0], r[2], M[2][2]];
    assert C2[0] == [M[0][0], M[0][1], r[0]] && C2[1] == [M[1][0], M[1][1], r[1]] && C2[2] == [M[2][0], M[2][1], r[2]];
  }

  lemma DivideRow3(p: real, q: real, s: real, n0: real, n1: real, n2: real, d: real, t: real, a0: real, a1: real, a2: real)
    requires d != 0.0 && p * n0 + q * n1 + s * n2 == t * d
    requires a0 == n0 / d && a1 == n1 / d && a2 == n2 / d
    ensures p * a0 + q * a1 + s * a2 == t
  {
    assert p * (n0 / d) + q * (n1 / d) + s * (n2 / d) == (p * n0 + q * n1 + s * n2) / d;
  }

  /** A nonsingular 3x3 system has exactly one solution: the one Solve3 returns. */
  lemma Solve3Unique(M: Matrix, r: Vector, v: Vector)
    requires IsSquare(M, 3) && |r| == 3 && |v| == 3
    requires Det3(M) != 0.0 && MatVec(M, v) == r
    ensures Solve3(M, r) == Some(v)
  {
    SameImage3(M, Solve3(M, r).value, v);
  }

  lemma SameImage3(M: Matrix, a: Vector, v: Vector)
    requires IsSquare(M, 3) && |a| == 3 && |v| == 3
    requires Det3(M) != 0.0 && MatVec(M, a) == MatVec(M, v)
    ensures a == v
  {
    var z := [v[0] - a[0], v[1] - a[1], v[2] - a[2]];
    forall i | 0 <= i < 3
      ensures M[i][0] * z[0] + M[i][1] * z[1] + M[i][2] * z[2] == 0.0
    {
      assert Dot(M[i], v) == Dot(M[i], a) by { assert MatVec(M, a)[i] == MatVec(M, v)[i]; }
      Dot3(M[i], v); Dot3(M[i], a);
    }
    ZeroKernel3(M, z, 0);
    ZeroKernel3(M, z, 1);
    ZeroKernel3(M, z, 2);
  }

  /** With det(M) != 0, M·z == 0 forces z == 0: the adjugate row k applied to
      M·z gives det(M)·z[k]. */
  lemma ZeroKernel3(M: Matrix, z: Vector, k: nat)
    requires IsSquare(M, 3) && |z| == 3 && k < 3 && Det3(M) != 0.0
    requires forall i :: 0 <= i < 3 ==> M[i][0] * z[0] + M[i][1] * z[1] + M[i][2] * z[2] == 0.0
    ensures z[k] == 0.0
  {
    var e0 := M[0][0] * z[0] + M[0][1] * z[1] + M[0][2] * z[2];
    var e1 := M[1][0] * z[0] + M[1][1] * z[1] + M[1][2] * z[2];
    var e2 := M[2][0] * z[0] + M[2][1] * z[1] + M[2][2] * z[2];
    assert e0 == 0.0 && e1 == 0.0 && e2 == 0.0;
    // cofactors of column k, i.e. row k of the adjugate
    var c0, c1, c2 :=
      if k == 0 then M[1][1] * M[2][2] - M[1][2] * M[2][1]
      else if k == 1 then M[1][2] * M[2][0] - M[1][0] * M[2][2]
      else M[1][0] * M[2][1] - M[1][1] * M[2][0],
      if k == 0 then M[0][2] * M[2][1] - M[0][1] * M[2][2]
      else if k == 1 then M[0][0] * M[2][2] - M[0][2] * M[2][0]
      else M[0][1] * M[2][0] - M[0][0] * M[2][1],
      if k == 0 then M[0][1] * M[1][2] - M[0][2] * M[1][1]
      else if k == 1 then M[0][2] * M[1][0] - M[0][0] * M[1][2]
      else M[0][0] * M[1][1] - M[0][1] * M[1][0];
    assert c0 * e0 + c1 * e1 + c2 * e2 == Det3(M) * z[k];
    ZeroProduct(Det3(M), z[k]);
  }
}
