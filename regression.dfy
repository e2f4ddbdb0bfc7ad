/** Least-squares fits of a line, a parabola and an exponential
    (erro_quadratico, regressao_linear, regressao_quadratica and
    regressao_exponencial, identical in T3_q3.py and sitefull.py).
    The normal equations are built from power sums and handed to the direct
    solver, which is LinAlg.Solve2 / LinAlg.Solve3 here. */
module Regression {

  import opened Prelude
  import opened LinAlg

  // ------------------------------------------------------------ algebra steps

  // One-step identities over plain reals. Each is a single algebra step of
  // an induction or a per-element argument below (the totals of
  // combinations, the moments of fitted values, the split of the error).

  /** x^k times a line at x, spread over the powers k and k+1. */
  lemma LineTerm(p: real, q: real, x: real, a0: real, a1: real)
    requires q == p * x
    ensures p * (a0 + a1 * x) == p * a0 + q * a1
  {
  }

  /** x^k times a parabola at x, spread over the powers k, k+1 and k+2. */
  lemma ParabolaTerm(p: real, q1: real, q2: real, x: real, a0: real, a1: real, a2: real)
    requires q1 == p * x && q2 == q1 * x
    ensures p * (a0 + a1 * x + a2 * (x * x)) == p * a0 + q1 * a1 + q2 * a2
  {
    assert q2 == p * (x * x);
  }

  /** r times a line with coefficients d at x, spread over x^0*r and x^1*r. */
  lemma LineResidualTerm(r: real, x: real, p0: real, p1: real, d0: real, d1: real)
    requires p0 == 1.0 && p1 == x
    ensures r * (d0 + d1 * x) == (p0 * r) * d0 + (p1 * r) * d1
  {
  }

  /** r times a parabola with coefficients d at x, spread over x^0*r, x^1*r and x^2*r. */
  lemma ParabolaResidualTerm(r: real, x: real, p0: real, p1: real, p2: real, d0: real, d1: real, d2: real)
    requires p0 == 1.0 && p1 == x && p2 == x * x
    ensures r * (d0 + d1 * x + d2 * (x * x)) == (p0 * r) * d0 + (p1 * r) * d1 + (p2 * r) * d2
  {
  }

  /** One step of TotalCombination2, over plain reals. */
  lemma CombinationStep2(z: real, p0: real, p1: real, a0: real, a1: real,
                         s0: real, s1: real, t0: real, t1: real, prev: real, cur: real)
    requires z == p0 * a0 + p1 * a1
    requires prev == s0 * a0 + s1 * a1
    requires t0 == s0 + p0 && t1 == s1 + p1 && cur == prev + z
    ensures cur == t0 * a0 + t1 * a1
  {
  }

  /** One step of TotalCombination3, over plain reals. */
  lemma CombinationStep3(z: real, p0: real, p1: real, p2: real, a0: real, a1: real, a2: real,
                         s0: real, s1: real, s2: real, t0: real, t1: real, t2: real, prev: real, cur: real)
    requires z == p0 * a0 + p1 * a1 + p2 * a2
    requires prev == s0 * a0 + s1 * a1 + s2 * a2
    requires t0 == s0 + p0 && t1 == s1 + p1 && t2 == s2 + p2 && cur == prev + z
    ensures cur == t0 * a0 + t1 * a1 + t2 * a2
  {
  }

  /** One step of SquaredErrorSplit, over plain reals. */
  lemma SplitStep(y: real, f: real, g: real, eg: real, ef: real, c: real, d: real)
    requires eg == ef + 2.0 * c + d
    ensures eg + Square(y - g) == (ef + Square(y - f)) + 2.0 * (c + (y - f) * (f - g)) + (d + Square(f - g))
  {
  }

  /** Multiplying equals by the same factor. */
  lemma ScaleEqual(r: real, u: real, v: real)
    requires u == v
    ensures r * u == r * v
  {
  }

  // ------------------------------------------------------------ sums

  /** x * ... * x, k factors: the recursive definition of Pow. */
  function PowerRec(x: real, k: nat): real
  {
    if k == 0 then 1.0 else PowerRec(x, k - 1) * x
  }

  /** x**k as the fits use it; PowStep and SmallPowers give its values. */
  function Pow(x: real, k: nat): real
  {
    PowerRec(x, k)
  }

  lemma PowStep(x: real, k: nat)
    ensures Pow(x, k + 1) == Pow(x, k) * x
  {
  }

  lemma SmallPowers(x: real)
    ensures Pow(x, 0) == 1.0 && Pow(x, 1) == x && Pow(x, 2) == x * x
  {
  }

  /** A[0] + ... + A[m-1]: the recursive definition of Total. */
  function PrefixSum(A: Vector, m: nat): real
    requires m <= |A|
  {
    if m == 0 then 0.0 else PrefixSum(A, m - 1) + A[m - 1]
  }

  /** np.sum(A[:m]): every sum in the normal equations is a total. It is
      defined through PrefixSum, and TotalIsSum ties it to Prelude.Sum. */
  function Total(A: Vector, m: nat): real
    requires m <= |A|
  {
    PrefixSum(A, m)
  }

  /** X**k, element-wise. */
  function Powers(X: Vector, k: nat): (P: Vector)
    ensures |P| == |X| && forall i :: 0 <= i < |X| ==> P[i] == Pow(X[i], k)
  {
    seq(|X|, i requires 0 <= i < |X| => Pow(X[i], k))
  }

  /** (X**k) * Y, element-wise. */
  function MomentTerms(X: Vector, Y: Vector, k: nat): (Z: Vector)
    requires |X| == |Y|
    ensures |Z| == |X| && forall i :: 0 <= i < |X| ==> Z[i] == Pow(X[i], k) * Y[i]
  {
    seq(|X|, i requires 0 <= i < |X| => Pow(X[i], k) * Y[i])
  }

  /** np.sum(X**k) over the first m samples. */
  function PowerSum(X: Vector, k: nat, m: nat): real
    requires m <= |X|
  {
    Total(Powers(X, k), m)
  }

  /** np.sum((X**k) * Y) over the first m samples. */
  function MomentSum(X: Vector, Y: Vector, k: nat, m: nat): real
    requires |X| == |Y| && m <= |X|
  {
    Total(MomentTerms(X, Y, k), m)
  }

  // Linearity of totals, each proved one element at a time.

  lemma {:induction false} TotalOfOnes(A: Vector, m: nat)
    requires m <= |A|
    requires forall i :: 0 <= i < m ==> A[i] == 1.0
    ensures Total(A, m) == m as real
  {
    if m > 0 {
      TotalOfOnes(A, m - 1);
    }
  }

  lemma {:induction false} TotalIsSum(A: Vector, B: Vector, m: nat)
    requires m <= |A| && m <= |B|
    requires forall i :: 0 <= i < m ==> A[i] == B[i]
    ensures Total(A, m) == Sum(B[..m])
  {
    if m > 0 {
      TotalIsSum(A, B, m - 1);
      assert B[..m] == B[..m - 1] + [B[m - 1]];
      SumSnoc(B[..m - 1], B[m - 1]);
    }
  }

  lemma {:induction false} TotalOfZeros(A: Vector, m: nat)
    requires m <= |A|
    requires forall i :: 0 <= i < m ==> A[i] == 0.0
    ensures Total(A, m) == 0.0
  {
    if m > 0 {
      TotalOfZeros(A, m - 1);
    }
  }

  lemma {:induction false} TotalDifference(A: Vector, B: Vector, C: Vector, m: nat)
    requires m <= |A| && m <= |B| && m <= |C|
    requires forall i :: 0 <= i < m ==> C[i] == A[i] - B[i]
    ensures Total(C, m) == Total(A, m) - Total(B, m)
  {
    if m > 0 {
      TotalDifference(A, B, C, m - 1);
    }
  }

  /** P0 * a0 + P1 * a1, element-wise. */
  function Combination2(P0: Vector, P1: Vector, a0: real, a1: real): (Z: Vector)
    requires |P0| == |P1|
    ensures |Z| == |P0| && forall i :: 0 <= i < |P0| ==> Z[i] == P0[i] * a0 + P1[i] * a1
  {
    seq(|P0|, i requires 0 <= i < |P0| => P0[i] * a0 + P1[i] * a1)
  }

  /** P0 * a0 + P1 * a1 + P2 * a2, element-wise. */
  function Combination3(P0: Vector, P1: Vector, P2: Vector, a0: real, a1: real, a2: real): (Z: Vector)
    requires |P0| == |P1| == |P2|
    ensures |Z| == |P0| && forall i :: 0 <= i < |P0| ==> Z[i] == P0[i] * a0 + P1[i] * a1 + P2[i] * a2
  {
    seq(|P0|, i requires 0 <= i < |P0| => P0[i] * a0 + P1[i] * a1 + P2[i] * a2)
  }

  lemma {:induction false} TotalCombination2(P0: Vector, P1: Vector, a0: real, a1: real, m: nat)
    requires |P0| == |P1| && m <= |P0|
    ensures Total(Combination2(P0, P1, a0, a1), m) == Total(P0, m) * a0 + Total(P1, m) * a1
  {
    if m > 0 {
      TotalCombination2(P0, P1, a0, a1, m - 1);
      var Z := Combination2(P0, P1, a0, a1);
      CombinationStep2(Z[m - 1], P0[m - 1], P1[m - 1], a0, a1,
                       Total(P0, m - 1), Total(P1, m - 1), Total(P0, m), Total(P1, m),
                       Total(Z, m - 1), Total(Z, m));
    }
  }

  lemma {:induction false} TotalCombination3(P0: Vector, P1: Vector, P2: Vector, a0: real, a1: real, a2: real, m: nat)
    requires |P0| == |P1| == |P2| && m <= |P0|
    ensures Total(Combination3(P0, P1, P2, a0, a1, a2), m) == Total(P0, m) * a0 + Total(P1, m) * a1 + Total(P2, m) * a2
  {
    if m > 0 {
      TotalCombination3(P0, P1, P2, a0, a1, a2, m - 1);
      var Z := Combination3(P0, P1, P2, a0, a1, a2);
      CombinationStep3(Z[m - 1], P0[m - 1], P1[m - 1], P2[m - 1], a0, a1, a2,
                       Total(P0, m - 1), Total(P1, m - 1), Total(P2, m - 1),
                       Total(P0, m), Total(P1, m), Total(P2, m), Total(Z, m - 1), Total(Z, m));
    }
  }

  /** TotalCombination2 for a sequence already known to be the combination. */
  lemma TotalOfCombination2(Z: Vector, P0: Vector, P1: Vector, a0: real, a1: real, m: nat)
    requires |P0| == |P1| && m <= |P0|
    requires Z == Combination2(P0, P1, a0, a1)
    ensures Total(Z, m) == Total(P0, m) * a0 + Total(P1, m) * a1
  {
    TotalCombination2(P0, P1, a0, a1, m);
  }

  /** TotalCombination3 for a sequence already known to be the combination. */
  lemma TotalOfCombination3(Z: Vector, P0: Vector, P1: Vector, P2: Vector, a0: real, a1: real, a2: real, m: nat)
    requires |P0| == |P1| == |P2| && m <= |P0|
    requires Z == Combination3(P0, P1, P2, a0, a1, a2)
    ensures Total(Z, m) == Total(P0, m) * a0 + Total(P1, m) * a1 + Total(P2, m) * a2
  {
    TotalCombination3(P0, P1, P2, a0, a1, a2, m);
  }

  /** The entry n of the matrices: the power sum of order 0 counts the samples. */
  lemma PowerSumZero(X: Vector, m: nat)
    requires m <= |X|
    ensures PowerSum(X, 0, m) == m as real
  {
    TotalOfOnes(Powers(X, 0), m);
  }

  /** The moment of order 0 is np.sum(Y). */
  lemma MomentSumZero(X: Vector, Y: Vector, m: nat)
    requires |X| == |Y| && m <= |X|
    ensures MomentSum(X, Y, 0, m) == Sum(Y[..m])
  {
    TotalIsSum(MomentTerms(X, Y, 0), Y, m);
  }

  // ------------------------------------------------------------ squared error

  /** d**2 */
  function Square(d: real): real
  {
    d * d
  }

  /** (obs[0]-fit[0])² + ... + (obs[m-1]-fit[m-1])² */
  function SquaredErrorUpTo(obs: Vector, fit: Vector, m: nat): (e: real)
    requires m <= |obs| && m <= |fit|
    ensures e >= 0.0
  {
    if m == 0 then 0.0
    else SquaredErrorUpTo(obs, fit, m - 1) + Square(obs[m - 1] - fit[m - 1])
  }

  /** erro_quadratico: the sum of the squared residuals. */
  function SquaredError(obs: Vector, fit: Vector): (e: real)
    requires |obs| == |fit|
    ensures e >= 0.0
  {
    SquaredErrorUpTo(obs, fit, |obs|)
  }

  lemma {:induction false} SquaredErrorUpToZeroIff(obs: Vector, fit: Vector, m: nat)
    requires m <= |obs| && m <= |fit|
    ensures SquaredErrorUpTo(obs, fit, m) == 0.0 <==> forall i :: 0 <= i < m ==> obs[i] == fit[i]
  {
    if m > 0 {
      SquaredErrorUpToZeroIff(obs, fit, m - 1);
      SquareSign(obs[m - 1] - fit[m - 1]);
    }
  }

  lemma SquareSign(d: real)
    ensures Square(d) >= 0.0
    ensures Square(d) == 0.0 <==> d == 0.0
  {
    if d != 0.0 && Square(d) == 0.0 {
      ZeroProduct(d, d);
    }
  }

  /** The error is zero exactly when every fitted value equals its observation. */
  lemma SquaredErrorZeroIff(obs: Vector, fit: Vector)
    requires |obs| == |fit|
    ensures SquaredError(obs, fit) == 0.0 <==> obs == fit
  {
    SquaredErrorUpToZeroIff(obs, fit, |obs|);
  }

  // ------------------------------------------------------------ fitted curves

  /** G(x) = a0 + a1*x */
  function LineAt(a: Vector, x: real): real
    requires |a| == 2
  {
    a[0] + a[1] * x
  }

  /** G(x) = a0 + a1*x + a2*x^2 */
  function ParabolaAt(a: Vector, x: real): real
    requires |a| == 3
  {
    a[0] + a[1] * x + a[2] * (x * x)
  }

  /** coefs[0] + coefs[1] * X, element-wise. */
  function LineValues(a: Vector, X: Vector): (F: Vector)
    requires |a| == 2
    ensures |F| == |X| && forall i :: 0 <= i < |X| ==> F[i] == LineAt(a, X[i])
  {
    seq(|X|, i requires 0 <= i < |X| => LineAt(a, X[i]))
  }

  /** coefs[0] + coefs[1] * X + coefs[2] * (X**2), element-wise. */
  function ParabolaValues(a: Vector, X: Vector): (F: Vector)
    requires |a| == 3
    ensures |F| == |X| && forall i :: 0 <= i < |X| ==> F[i] == ParabolaAt(a, X[i])
  {
    seq(|X|, i requires 0 <= i < |X| => ParabolaAt(a, X[i]))
  }

  /** f applied element-wise (np.log / np.exp on an array). */
  function Apply(f: real -> real, s: Vector): (r: Vector)
    ensures |r| == |s| && forall i :: 0 <= i < |s| ==> r[i] == f(s[i])
  {
    seq(|s|, i requires 0 <= i < |s| => f(s[i]))
  }

  // ------------------------------------------------------------ normal equations

  datatype NormalSystem = NormalSystem(M: Matrix, rhs: Vector)

  /** The system A·a = b of regressao_linear. */
  function LinearSystem(X: Vector, Y: Vector): (s: NormalSystem)
    requires |X| == |Y|
    ensures IsSquare(s.M, 2) && |s.rhs| == 2 && IsSymmetric(s.M)
    // a Hankel matrix of power sums: entry (j, k) is the sum of x^(j+k)
    ensures forall j, k :: 0 <= j < 2 && 0 <= k < 2 ==> s.M[j][k] == PowerSum(X, j + k, |X|)
    ensures forall j :: 0 <= j < 2 ==> s.rhs[j] == MomentSum(X, Y, j, |X|)
  {
    var n := |X|;
    var sumX := PowerSum(X, 1, n);
    var sumY := Sum(Y);
    var sumX2 := PowerSum(X, 2, n);
    var sumXY := MomentSum(X, Y, 1, n);
    PowerSumZero(X, n);
    MomentSumZero(X, Y, n);
    assert Y[..n] == Y;
    NormalSystem([[n as real, sumX], [sumX, sumX2]], [sumY, sumXY])
  }

  /** The system A·a = b of regressao_quadratica. */
  function QuadraticSystem(X: Vector, Y: Vector): (s: NormalSystem)
    requires |X| == |Y|
    ensures IsSquare(s.M, 3) && |s.rhs| == 3 && IsSymmetric(s.M)
    ensures forall j, k :: 0 <= j < 3 && 0 <= k < 3 ==> s.M[j][k] == PowerSum(X, j + k, |X|)
    ensures forall j :: 0 <= j < 3 ==> s.rhs[j] == MomentSum(X, Y, j, |X|)
  {
    var n := |X|;
    var sumX := PowerSum(X, 1, n);
    var sumX2 := PowerSum(X, 2, n);
    var sumX3 := PowerSum(X, 3, n);
    var sumX4 := PowerSum(X, 4, n);
    var sumY := Sum(Y);
    var sumXY := MomentSum(X, Y, 1, n);
    var sumX2Y := MomentSum(X, Y, 2, n);
    PowerSumZero(X, n);
    MomentSumZero(X, Y, n);
    assert Y[..n] == Y;
    NormalSystem([[n as real, sumX, sumX2], [sumX, sumX2, sumX3], [sumX2, sumX3, sumX4]],
                 [sumY, sumXY, sumX2Y])
  }

  // ------------------------------------------------------------ the fits

  /** What a fit produces: the coefficients and the fitted values, or the
      exception it raises (LinAlgError from a singular system, ValueError
      from the exponential fit's guard). */
  datatype FitResult = Fitted(coefs: Vector, fitted: Vector) | Singular | NonPositive

  /** regressao_linear */
  function LinearFit(X: Vector, Y: Vector): (r: FitResult)
    requires |X| == |Y|
    ensures !r.NonPositive?
    ensures r.Fitted? <==> Det2(LinearSystem(X, Y).M) != 0.0
    ensures r.Fitted? ==> |r.coefs| == 2 && MatVec(LinearSystem(X, Y).M, r.coefs) == LinearSystem(X, Y).rhs
    ensures r.Fitted? ==> r.fitted == LineValues(r.coefs, X)
  {
    var s := LinearSystem(X, Y);
    match Solve2(s.M, s.rhs)
    case None => Singular
    case Some(a) => Fitted(a, LineValues(a, X))
  }

  /** regressao_quadratica */
  function QuadraticFit(X: Vector, Y: Vector): (r: FitResult)
    requires |X| == |Y|
    ensures !r.NonPositive?
    ensures r.Fitted? <==> Det3(QuadraticSystem(X, Y).M) != 0.0
    ensures r.Fitted? ==> |r.coefs| == 3 && MatVec(QuadraticSystem(X, Y).M, r.coefs) == QuadraticSystem(X, Y).rhs
    ensures r.Fitted? ==> r.fitted == ParabolaValues(r.coefs, X)
  {
    var s := QuadraticSystem(X, Y);
    match Solve3(s.M, s.rhs)
    case None => Singular
    case Some(a) => Fitted(a, ParabolaValues(a, X))
  }

  predicate AllPositive(Y: Vector)
  {
    forall i :: 0 <= i < |Y| ==> Y[i] > 0.0
  }

  /** regressao_exponencial: G(x) = e^(c0) * e^(c1*x) is fitted as the line
      ln G(x) = c0 + c1*x through the points (X, ln Y). The guard comes first,
      so non-positive data is rejected whatever the abscissae. ln and exp are
      parameters. */
  function ExponentialFit(X: Vector, Y: Vector, ln: real -> real, exp: real -> real): (r: FitResult)
    requires |X| == |Y|
    ensures r.NonPositive? <==> !AllPositive(Y)
    ensures AllPositive(Y) ==> (r.Fitted? <==> LinearFit(X, Apply(ln, Y)).Fitted?)
    ensures r.Fitted? ==> r.coefs == LinearFit(X, Apply(ln, Y)).coefs
    ensures r.Fitted? ==> |r.fitted| == |X| && forall i :: 0 <= i < |X| ==> r.fitted[i] == exp(LineAt(r.coefs, X[i]))
  {
    if !AllPositive(Y) then NonPositive
    else
      match LinearFit(X, Apply(ln, Y))
      case Fitted(c, f) => Fitted(c, Apply(exp, f))
      case _ => Singular
  }

  // ------------------------------------------------------------ least squares

  /** (X**k) * (Y - F), element-wise. */
  function ResidualTerms(X: Vector, Y: Vector, F: Vector, k: nat): (Z: Vector)
    requires |X| == |Y| == |F|
    ensures |Z| == |X| && forall i :: 0 <= i < |X| ==> Z[i] == Pow(X[i], k) * (Y[i] - F[i])
  {
    seq(|X|, i requires 0 <= i < |X| => Pow(X[i], k) * (Y[i] - F[i]))
  }

  /** (Y - F) * (F - G), element-wise. */
  function CrossTerms(Y: Vector, F: Vector, G: Vector): (Z: Vector)
    requires |Y| == |F| == |G|
    ensures |Z| == |Y| && forall i :: 0 <= i < |Y| ==> Z[i] == (Y[i] - F[i]) * (F[i] - G[i])
  {
    seq(|Y|, i requires 0 <= i < |Y| => (Y[i] - F[i]) * (F[i] - G[i]))
  }

  /** Σ_{i<m} X[i]^k * (Y[i] - F[i]): the k-th moment of the residuals. */
  function ResidualMoment(X: Vector, Y: Vector, F: Vector, k: nat, m: nat): real
    requires |X| == |Y| == |F| && m <= |X|
  {
    Total(ResidualTerms(X, Y, F, k), m)
  }

  /** Σ_{i<m} (Y[i] - F[i]) * (F[i] - G[i]) */
  function CrossUpTo(Y: Vector, F: Vector, G: Vector, m: nat): real
    requires |Y| == |F| == |G| && m <= |Y|
  {
    Total(CrossTerms(Y, F, G), m)
  }

  lemma ResidualMomentSplit(X: Vector, Y: Vector, F: Vector, k: nat)
    requires |X| == |Y| == |F|
    ensures ResidualMoment(X, Y, F, k, |X|) == MomentSum(X, Y, k, |X|) - MomentSum(X, F, k, |X|)
  {
    forall i | 0 <= i < |X|
      ensures ResidualTerms(X, Y, F, k)[i] == MomentTerms(X, Y, k)[i] - MomentTerms(X, F, k)[i]
    {
      var p := Pow(X[i], k);
      assert p * (Y[i] - F[i]) == p * Y[i] - p * F[i];
    }
    TotalDifference(MomentTerms(X, Y, k), MomentTerms(X, F, k), ResidualTerms(X, Y, F, k), |X|);
  }

  /** The residual moments of exact data vanish. */
  lemma ZeroResidualMoment(X: Vector, Y: Vector, k: nat)
    requires |X| == |Y|
    ensures ResidualMoment(X, Y, Y, k, |X|) == 0.0
  {
    TotalOfZeros(ResidualTerms(X, Y, Y, k), |X|);
  }

  /** Row k of a 2-column Hankel matrix of power sums applied to a. */
  function HankelRow2(X: Vector, k: nat, m: nat, a: Vector): real
    requires m <= |X| && |a| == 2
  {
    PowerSum(X, k, m) * a[0] + PowerSum(X, k + 1, m) * a[1]
  }

  /** Row k of a 3-column Hankel matrix of power sums applied to a. */
  function HankelRow3(X: Vector, k: nat, m: nat, a: Vector): real
    requires m <= |X| && |a| == 3
  {
    PowerSum(X, k, m) * a[0] + PowerSum(X, k + 1, m) * a[1] + PowerSum(X, k + 2, m) * a[2]
  }

  /** Element-wise, x^k times a line's value spreads over the powers k and k+1. */
  lemma LineMomentTerms(X: Vector, a: Vector, k: nat)
    requires |a| == 2
    ensures MomentTerms(X, LineValues(a, X), k) == Combination2(Powers(X, k), Powers(X, k + 1), a[0], a[1])
  {
    var Z, C := MomentTerms(X, LineValues(a, X), k), Combination2(Powers(X, k), Powers(X, k + 1), a[0], a[1]);
    forall i | 0 <= i < |X|
      ensures Z[i] == C[i]
    {
      PowStep(X[i], k);
      LineTerm(Pow(X[i], k), Pow(X[i], k + 1), X[i], a[0], a[1]);
    }
  }

  /** The moments of a line's values are rows of the Hankel matrix applied to its coefficients. */
  lemma LineMoment(X: Vector, a: Vector, k: nat)
    requires |a| == 2
    ensures MomentSum(X, LineValues(a, X), k, |X|) == HankelRow2(X, k, |X|, a)
  {
    LineMomentTerms(X, a, k);
    TotalCombination2(Powers(X, k), Powers(X, k + 1), a[0], a[1], |X|);
  }

  lemma ParabolaMomentTerms(X: Vector, a: Vector, k: nat)
    requires |a| == 3
    ensures MomentTerms(X, ParabolaValues(a, X), k)
         == Combination3(Powers(X, k), Powers(X, k + 1), Powers(X, k + 2), a[0], a[1], a[2])
  {
    var Z := MomentTerms(X, ParabolaValues(a, X), k);
    var C := Combination3(Powers(X, k), Powers(X, k + 1), Powers(X, k + 2), a[0], a[1], a[2]);
    forall i | 0 <= i < |X|
      ensures Z[i] == C[i]
    {
      PowStep(X[i], k);
      PowStep(X[i], k + 1);
      ParabolaTerm(Pow(X[i], k), Pow(X[i], k + 1), Pow(X[i], k + 2), X[i], a[0], a[1], a[2]);
    }
  }

  lemma ParabolaMoment(X: Vector, a: Vector, k: nat)
    requires |a| == 3
    ensures MomentSum(X, ParabolaValues(a, X), k, |X|) == HankelRow3(X, k, |X|, a)
  {
    ParabolaMomentTerms(X, a, k);
    TotalCombination3(Powers(X, k), Powers(X, k + 1), Powers(X, k + 2), a[0], a[1], a[2], |X|);
  }

  /** Row k of M·a, for the linear normal matrix, in terms of the power sums. */
  lemma LinearSystemRow(X: Vector, Y: Vector, a: Vector, k: nat)
    requires |X| == |Y| && |a| == 2 && k < 2
    ensures MatVec(LinearSystem(X, Y).M, a)[k] == HankelRow2(X, k, |X|, a)
    ensures LinearSystem(X, Y).rhs[k] == MomentSum(X, Y, k, |X|)
  {
    var s := LinearSystem(X, Y);
    var row := s.M[k];
    assert row[0] == PowerSum(X, k, |X|);
    assert row[1] == PowerSum(X, k + 1, |X|);
    Dot2(row, a);
    assert MatVec(s.M, a)[k] == Dot(row, a);
  }

  /** Row k of the linear normal equations says that the k-th residual moment vanishes. */
  lemma LinearRow(X: Vector, Y: Vector, a: Vector, k: nat)
    requires |X| == |Y| && |a| == 2 && k < 2
    ensures ResidualMoment(X, Y, LineValues(a, X), k, |X|)
         == LinearSystem(X, Y).rhs[k] - MatVec(LinearSystem(X, Y).M, a)[k]
  {
    LinearSystemRow(X, Y, a, k);
    LineMoment(X, a, k);
    ResidualMomentSplit(X, Y, LineValues(a, X), k);
  }

  /** Row k of M·a, for the quadratic normal matrix, in terms of the power sums. */
  lemma QuadraticSystemRow(X: Vector, Y: Vector, a: Vector, k: nat)
    requires |X| == |Y| && |a| == 3 && k < 3
    ensures MatVec(QuadraticSystem(X, Y).M, a)[k] == HankelRow3(X, k, |X|, a)
    ensures QuadraticSystem(X, Y).rhs[k] == MomentSum(X, Y, k, |X|)
  {
    var s := QuadraticSystem(X, Y);
    var n := |X|;
    var row := s.M[k];
    assert row[0] == PowerSum(X, k, n);
    assert row[1] == PowerSum(X, k + 1, n);
    assert row[2] == PowerSum(X, k + 2, n);
    Dot3(row, a);
    assert MatVec(s.M, a)[k] == Dot(row, a);
  }

  lemma QuadraticRow(X: Vector, Y: Vector, a: Vector, k: nat)
    requires |X| == |Y| && |a| == 3 && k < 3
    ensures ResidualMoment(X, Y, ParabolaValues(a, X), k, |X|)
         == QuadraticSystem(X, Y).rhs[k] - MatVec(QuadraticSystem(X, Y).M, a)[k]
  {
    QuadraticSystemRow(X, Y, a, k);
    ParabolaMoment(X, a, k);
    ResidualMomentSplit(X, Y, ParabolaValues(a, X), k);
  }

  lemma VectorEq2(u: Vector, v: Vector)
    requires |u| == 2 && |v| == 2
    ensures u == v <==> u[0] == v[0] && u[1] == v[1]
  {
    if u[0] == v[0] && u[1] == v[1] {
      assert u == [u[0], u[1]] && v == [v[0], v[1]];
    }
  }

  lemma VectorEq3(u: Vector, v: Vector)
    requires |u| == 3 && |v| == 3
    ensures u == v <==> u[0] == v[0] && u[1] == v[1] && u[2] == v[2]
  {
    if u[0] == v[0] && u[1] == v[1] && u[2] == v[2] {
      assert u == [u[0], u[1], u[2]] && v == [v[0], v[1], v[2]];
    }
  }

  /** The coefficients solve the linear normal equations exactly when the
      residuals are orthogonal to 1 and to x. */
  lemma LinearNormalIffOrthogonal(X: Vector, Y: Vector, a: Vector)
    requires |X| == |Y| && |a| == 2
    ensures MatVec(LinearSystem(X, Y).M, a) == LinearSystem(X, Y).rhs
        <==> forall k :: 0 <= k < 2 ==> ResidualMoment(X, Y, LineValues(a, X), k, |X|) == 0.0
  {
    LinearRow(X, Y, a, 0);
    LinearRow(X, Y, a, 1);
    VectorEq2(MatVec(LinearSystem(X, Y).M, a), LinearSystem(X, Y).rhs);
  }

  /** The same for the parabola, with the moments of 1, x and x^2. */
  lemma QuadraticNormalIffOrthogonal(X: Vector, Y: Vector, a: Vector)
    requires |X| == |Y| && |a| == 3
    ensures MatVec(QuadraticSystem(X, Y).M, a) == QuadraticSystem(X, Y).rhs
        <==> forall k :: 0 <= k < 3 ==> ResidualMoment(X, Y, ParabolaValues(a, X), k, |X|) == 0.0
  {
    QuadraticRow(X, Y, a, 0);
    QuadraticRow(X, Y, a, 1);
    QuadraticRow(X, Y, a, 2);
    VectorEq3(MatVec(QuadraticSystem(X, Y).M, a), QuadraticSystem(X, Y).rhs);
  }

  /** Moving from the fitted values F to any G adds the cross term twice and
      the squared distance between F and G. */
  lemma {:induction false} SquaredErrorSplit(Y: Vector, F: Vector, G: Vector, m: nat)
    requires |Y| == |F| == |G| && m <= |Y|
    ensures SquaredErrorUpTo(Y, G, m)
         == SquaredErrorUpTo(Y, F, m) + 2.0 * CrossUpTo(Y, F, G, m) + SquaredErrorUpTo(F, G, m)
  {
    if m > 0 {
      SquaredErrorSplit(Y, F, G, m - 1);
      SplitStep(Y[m - 1], F[m - 1], G[m - 1],
                SquaredErrorUpTo(Y, G, m - 1), SquaredErrorUpTo(Y, F, m - 1), CrossUpTo(Y, F, G, m - 1), SquaredErrorUpTo(F, G, m - 1));
    }
  }

  /** a - c, element-wise: the gap between two coefficient vectors. */
  function Gap(a: Vector, c: Vector): (d: Vector)
    requires |a| == |c|
    ensures |d| == |a| && forall i :: 0 <= i < |a| ==> d[i] == a[i] - c[i]
  {
    seq(|a|, i requires 0 <= i < |a| => a[i] - c[i])
  }

  /** The difference of two lines is the line of their coefficient gap. */
  lemma LineGapAt(X: Vector, a: Vector, c: Vector, i: nat)
    requires |a| == 2 && |c| == 2 && i < |X|
    ensures LineValues(a, X)[i] - LineValues(c, X)[i] == LineAt(Gap(a, c), X[i])
  {
  }

  /** A residual times a line at one point, as a combination of the residual
      terms of order 0 and 1. */
  lemma LineResidualAt(X: Vector, Y: Vector, F: Vector, d: Vector, i: nat)
    requires |X| == |Y| == |F| && |d| == 2 && i < |X|
    ensures (Y[i] - F[i]) * LineAt(d, X[i])
         == ResidualTerms(X, Y, F, 0)[i] * d[0] + ResidualTerms(X, Y, F, 1)[i] * d[1]
  {
    SmallPowers(X[i]);
    LineResidualTerm(Y[i] - F[i], X[i], Pow(X[i], 0), Pow(X[i], 1), d[0], d[1]);
  }

  /** One element of the cross term of LineCross. */
  lemma LineCrossAt(X: Vector, Y: Vector, F: Vector, G: Vector, d: Vector, i: nat)
    requires |X| == |Y| == |F| == |G| && |d| == 2 && i < |X|
    requires F[i] - G[i] == LineAt(d, X[i])
    ensures CrossTerms(Y, F, G)[i] == Combination2(ResidualTerms(X, Y, F, 0), ResidualTerms(X, Y, F, 1), d[0], d[1])[i]
  {
    ScaleEqual(Y[i] - F[i], F[i] - G[i], LineAt(d, X[i]));
    LineResidualAt(X, Y, F, d, i);
  }

  /** The cross term between a residual Y - F and any line F - G with
      coefficients d is the combination of the residual moments of orders
      0 and 1 with d. */
  lemma LineCross(X: Vector, Y: Vector, F: Vector, G: Vector, d: Vector)
    requires |X| == |Y| == |F| == |G| && |d| == 2
    requires forall i :: 0 <= i < |X| ==> F[i] - G[i] == LineAt(d, X[i])
    ensures CrossUpTo(Y, F, G, |X|) == ResidualMoment(X, Y, F, 0, |X|) * d[0] + ResidualMoment(X, Y, F, 1, |X|) * d[1]
  {
    var R0, R1 := ResidualTerms(X, Y, F, 0), ResidualTerms(X, Y, F, 1);
    var Z, C := CrossTerms(Y, F, G), Combination2(R0, R1, d[0], d[1]);
    forall i | 0 <= i < |X|
      ensures Z[i] == C[i]
    {
      LineCrossAt(X, Y, F, G, d, i);
    }
    TotalOfCombination2(Z, R0, R1, d[0], d[1], |X|);
  }

  /** The difference of two parabolas is the parabola of their coefficient gap. */
  lemma ParabolaGapAt(X: Vector, a: Vector, c: Vector, i: nat)
    requires |a| == 3 && |c| == 3 && i < |X|
    ensures ParabolaValues(a, X)[i] - ParabolaValues(c, X)[i] == ParabolaAt(Gap(a, c), X[i])
  {
  }

  /** A residual times a parabola at one point, as a combination of the
      residual terms of order 0, 1 and 2. */
  lemma ParabolaResidualAt(X: Vector, Y: Vector, F: Vector, d: Vector, i: nat)
    requires |X| == |Y| == |F| && |d| == 3 && i < |X|
    ensures (Y[i] - F[i]) * ParabolaAt(d, X[i])
         == ResidualTerms(X, Y, F, 0)[i] * d[0] + ResidualTerms(X, Y, F, 1)[i] * d[1] + ResidualTerms(X, Y, F, 2)[i] * d[2]
  {
    SmallPowers(X[i]);
    ParabolaResidualTerm(Y[i] - F[i], X[i], Pow(X[i], 0), Pow(X[i], 1), Pow(X[i], 2), d[0], d[1], d[2]);
  }

  /** One element of the cross term of ParabolaCross. */
  lemma ParabolaCrossAt(X: Vector, Y: Vector, F: Vector, G: Vector, d: Vector, i: nat)
    requires |X| == |Y| == |F| == |G| && |d| == 3 && i < |X|
    requires F[i] - G[i] == ParabolaAt(d, X[i])
    ensures CrossTerms(Y, F, G)[i]
         == Combination3(ResidualTerms(X, Y, F, 0), ResidualTerms(X, Y, F, 1), ResidualTerms(X, Y, F, 2), d[0], d[1], d[2])[i]
  {
    ScaleEqual(Y[i] - F[i], F[i] - G[i], ParabolaAt(d, X[i]));
    ParabolaResidualAt(X, Y, F, d, i);
  }

  /** The cross term between a residual Y - F and any parabola F - G with
      coefficients d is the combination of the residual moments of orders
      0, 1 and 2 with d. */
  lemma ParabolaCross(X: Vector, Y: Vector, F: Vector, G: Vector, d: Vector)
    requires |X| == |Y| == |F| == |G| && |d| == 3
    requires forall i :: 0 <= i < |X| ==> F[i] - G[i] == ParabolaAt(d, X[i])
    ensures CrossUpTo(Y, F, G, |X|)
         == ResidualMoment(X, Y, F, 0, |X|) * d[0] + ResidualMoment(X, Y, F, 1, |X|) * d[1]
          + ResidualMoment(X, Y, F, 2, |X|) * d[2]
  {
    var R0, R1, R2 := ResidualTerms(X, Y, F, 0), ResidualTerms(X, Y, F, 1), ResidualTerms(X, Y, F, 2);
    var Z, C := CrossTerms(Y, F, G), Combination3(R0, R1, R2, d[0], d[1], d[2]);
    forall i | 0 <= i < |X|
      ensures Z[i] == C[i]
    {
      ParabolaCrossAt(X, Y, F, G, d, i);
    }
    TotalOfCombination3(Z, R0, R1, R2, d[0], d[1], d[2], |X|);
  }

  /** Any solution a of the linear normal equations is a least-squares line:
      the error of every other line c exceeds it by the squared distance
      between the two lines' values. */
  lemma LinePythagoras(X: Vector, Y: Vector, a: Vector, c: Vector)
    requires |X| == |Y| && |a| == 2 && |c| == 2
    requires MatVec(LinearSystem(X, Y).M, a) == LinearSystem(X, Y).rhs
    ensures SquaredError(Y, LineValues(c, X))
         == SquaredError(Y, LineValues(a, X)) + SquaredError(LineValues(a, X), LineValues(c, X))
  {
    LinearNormalIffOrthogonal(X, Y, a);
    assert ResidualMoment(X, Y, LineValues(a, X), 0, |X|) == 0.0;
    assert ResidualMoment(X, Y, LineValues(a, X), 1, |X|) == 0.0;
    forall i | 0 <= i < |X|
      ensures LineValues(a, X)[i] - LineValues(c, X)[i] == LineAt(Gap(a, c), X[i])
    {
      LineGapAt(X, a, c, i);
    }
    LineCross(X, Y, LineValues(a, X), LineValues(c, X), Gap(a, c));
    SquaredErrorSplit(Y, LineValues(a, X), LineValues(c, X), |X|);
  }

  lemma ParabolaPythagoras(X: Vector, Y: Vector, a: Vector, c: Vector)
    requires |X| == |Y| && |a| == 3 && |c| == 3
    requires MatVec(QuadraticSystem(X, Y).M, a) == QuadraticSystem(X, Y).rhs
    ensures SquaredError(Y, ParabolaValues(c, X))
         == SquaredError(Y, ParabolaValues(a, X)) + SquaredError(ParabolaValues(a, X), ParabolaValues(c, X))
  {
    QuadraticNormalIffOrthogonal(X, Y, a);
    assert ResidualMoment(X, Y, ParabolaValues(a, X), 0, |X|) == 0.0;
    assert ResidualMoment(X, Y, ParabolaValues(a, X), 1, |X|) == 0.0;
    assert ResidualMoment(X, Y, ParabolaValues(a, X), 2, |X|) == 0.0;
    forall i | 0 <= i < |X|
      ensures ParabolaValues(a, X)[i] - ParabolaValues(c, X)[i] == ParabolaAt(Gap(a, c), X[i])
    {
      ParabolaGapAt(X, a, c, i);
    }
    ParabolaCross(X, Y, ParabolaValues(a, X), ParabolaValues(c, X), Gap(a, c));
    SquaredErrorSplit(Y, ParabolaValues(a, X), ParabolaValues(c, X), |X|);
  }

  /** regressao_linear returns a line of least squared error. */
  lemma LinearFitIsLeastSquares(X: Vector, Y: Vector, c: Vector)
    requires |X| == |Y| && |c| == 2 && LinearFit(X, Y).Fitted?
    ensures SquaredError(Y, LinearFit(X, Y).fitted) <= SquaredError(Y, LineValues(c, X))
  {
    LinePythagoras(X, Y, LinearFit(X, Y).coefs, c);
  }

  /** regressao_quadratica returns a parabola of least squared error. */
  lemma QuadraticFitIsLeastSquares(X: Vector, Y: Vector, c: Vector)
    requires |X| == |Y| && |c| == 3 && QuadraticFit(X, Y).Fitted?
    ensures SquaredError(Y, QuadraticFit(X, Y).fitted) <= SquaredError(Y, ParabolaValues(c, X))
  {
    ParabolaPythagoras(X, Y, QuadraticFit(X, Y).coefs, c);
  }

  /** regressao_exponencial minimises the squared error of the logarithms,
      not of the data itself. */
  lemma ExponentialFitIsLogLeastSquares(X: Vector, Y: Vector, ln: real -> real, exp: real -> real, c: Vector)
    requires |X| == |Y| && |c| == 2 && ExponentialFit(X, Y, ln, exp).Fitted?
    ensures var a := ExponentialFit(X, Y, ln, exp).coefs;
            |a| == 2 && SquaredError(Apply(ln, Y), LineValues(a, X)) <= SquaredError(Apply(ln, Y), LineValues(c, X))
  {
    LinearFitIsLeastSquares(X, Apply(ln, Y), c);
  }

  /** When the data lie on a line and the system is nonsingular, the fit
      recovers that line exactly and its error is zero. */
  lemma LinearFitRecoversLine(X: Vector, c: Vector)
    requires |c| == 2 && Det2(LinearSystem(X, LineValues(c, X)).M) != 0.0
    ensures LinearFit(X, LineValues(c, X)) == Fitted(c, LineValues(c, X))
    ensures SquaredError(LineValues(c, X), LinearFit(X, LineValues(c, X)).fitted) == 0.0
  {
    var Y := LineValues(c, X);
    ZeroResidualMoment(X, Y, 0);
    ZeroResidualMoment(X, Y, 1);
    LinearNormalIffOrthogonal(X, Y, c);
    var s := LinearSystem(X, Y);
    Solve2Unique(s.M, s.rhs, c);
    SquaredErrorZeroIff(Y, Y);
  }

  /** The same for a parabola. */
  lemma QuadraticFitRecoversParabola(X: Vector, c: Vector)
    requires |c| == 3 && Det3(QuadraticSystem(X, ParabolaValues(c, X)).M) != 0.0
    ensures QuadraticFit(X, ParabolaValues(c, X)) == Fitted(c, ParabolaValues(c, X))
    ensures SquaredError(ParabolaValues(c, X), QuadraticFit(X, ParabolaValues(c, X)).fitted) == 0.0
  {
    var Y := ParabolaValues(c, X);
    ZeroResidualMoment(X, Y, 0);
    ZeroResidualMoment(X, Y, 1);
    ZeroResidualMoment(X, Y, 2);
    QuadraticNormalIffOrthogonal(X, Y, c);
    var s := QuadraticSystem(X, Y);
    Solve3Unique(s.M, s.rhs, c);
    SquaredErrorZeroIff(Y, Y);
  }
}
