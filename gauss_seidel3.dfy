/** The command-line Gauss-Seidel solver (gauss_seidel in T2_q1.py): the same
    iteration as the dashboard's, with the sweep written out for three
    unknowns and the loop left by `break`. It returns the final vector and the
    history but not the sweep count. */
module GaussSeidel3 {

  import opened LinAlg
  import opened GaussSeidel

  /** The unrolled sweep: row 0 reads only old components, row 1 reads the new
      component 0, row 2 reads the new components 0 and 1. */
  function Sweep3(A: Matrix, b: Vector, x: Vector): (r: Vector)
    requires WellFormed(A, b, x) && |b| == 3
  {
    var y0 := (b[0] - A[0][1] * x[1] - A[0][2] * x[2]) / A[0][0];
    var y1 := (b[1] - A[1][0] * y0 - A[1][2] * x[2]) / A[1][1];
    var y2 := (b[2] - A[2][0] * y0 - A[2][1] * y1) / A[2][2];
    [y0, y1, y2]
  }

  /** For three unknowns the unrolled sweep and the general nested-loop sweep
      compute the same vector. */
  lemma Sweep3IsSweep(A: Matrix, b: Vector, x: Vector)
    requires WellFormed(A, b, x) && |b| == 3
    ensures Sweep3(A, b, x) == Sweep(A, b, x)
  {
    var y := Sweep3(A, b, x);
    var p1 := SweepPrefix(A, b, x, 1);
    assert OffDiagonal(A[0], 0, [], x, 3) == A[0][1] * x[1] + A[0][2] * x[2] by {
      assert OffDiagonal(A[0], 0, [], x, 1) == 0.0;
      assert OffDiagonal(A[0], 0, [], x, 2) == A[0][1] * x[1];
    }
    assert p1 == [y[0]];
    var p2 := SweepPrefix(A, b, x, 2);
    assert OffDiagonal(A[1], 1, p1, x, 3) == A[1][0] * y[0] + A[1][2] * x[2] by {
      assert OffDiagonal(A[1], 1, p1, x, 1) == A[1][0] * y[0];
      assert OffDiagonal(A[1], 1, p1, x, 2) == A[1][0] * y[0];
    }
    assert RowUpdate(A, b, x, p1) == y[1];
    assert p2 == [y[0], y[1]];
    assert OffDiagonal(A[2], 2, p2, x, 3) == A[2][0] * y[0] + A[2][1] * y[1] by {
      assert OffDiagonal(A[2], 2, p2, x, 1) == A[2][0] * y[0];
      assert OffDiagonal(A[2], 2, p2, x, 2) == A[2][0] * y[0] + A[2][1] * y[1];
    }
    assert RowUpdate(A, b, x, p2) == y[2];
  }

  /** The body of one iteration of the script: x_new starts as a copy of x and
      its three components are overwritten in order. */
  method UnrolledSweep(A: Matrix, b: Vector, x: Vector) returns (next: Vector)
    requires WellFormed(A, b, x) && |b| == 3
    ensures next == Sweep(A, b, x)
  {
    var xNew := new real[3](i requires 0 <= i < 3 => x[i]);
    xNew[0] := (b[0] - A[0][1] * x[1] - A[0][2] * x[2]) / A[0][0];
    xNew[1] := (b[1] - A[1][0] * xNew[0] - A[1][2] * x[2]) / A[1][1];
    xNew[2] := (b[2] - A[2][0] * xNew[0] - A[2][1] * xNew[1]) / A[2][2];
    next := xNew[..];
    assert next == [xNew[0], xNew[1], xNew[2]];
    assert next[0] == Sweep3(A, b, x)[0];
    assert next[1] == Sweep3(A, b, x)[1];
    assert next[2] == Sweep3(A, b, x)[2];
    assert next == Sweep3(A, b, x);
    Sweep3IsSweep(A, b, x);
  }

  /** gauss_seidel: the history has one entry for x0 and one per executed
      sweep, the converging sweep included. */
  method GaussSeidelUnrolled(A: Matrix, b: Vector, x0: Vector, maxIter: nat, tol: real)
    returns (x: Vector, history: seq<Vector>)
    requires WellFormed(A, b, x0) && |b| == 3
    ensures 1 <= |history| <= maxIter + 1
    ensures maxIter > 0 ==> |history| >= 2
    ensures history == Trace(A, b, x0, |history| - 1)
    ensures x == history[|history| - 1]
    ensures forall m :: 1 <= m < |history| - 1 ==> Step(A, b, x0, m) >= tol
    ensures |history| - 1 < maxIter ==> Step(A, b, x0, |history| - 1) < tol
  {
    x := x0;
    history := [x0];
    for k := 1 to maxIter + 1
      invariant history == Trace(A, b, x0, k - 1)
      invariant x == history[k - 1]
      invariant forall m :: 1 <= m < k ==> Step(A, b, x0, m) >= tol
    {
      var next := UnrolledSweep(A, b, x);
      assert next == Iterate(A, b, x0, k);
      assert InfNormDiff(next, x) == Step(A, b, x0, k);
      if InfNormDiff(next, x) < tol {
        x := next;
        history := history + [x];
        break;
      }
      x := next;
      history := history + [x];
    }
  }
}
