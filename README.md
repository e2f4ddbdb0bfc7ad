# Numerical-methods kernels: a verified Dafny model

This project models the numerical kernels of a small numerical-methods
course project written in Python. The project has a Streamlit dashboard
(`sitefull.py`) and three command-line scripts (`T2_q1.py`, `T3_q3.py`,
`T4_q1.py`). Python floats are modelled as Dafny `real`s, so every result
below is about exact arithmetic.

The model covers four kernels:

- **Gauss-Seidel iteration** for the mesh currents of a Wheatstone bridge.
  - `gauss_seidel_detailed` in the dashboard is the general n×n version. Its in-place nested loops live in `gauss_seidel.dfy`.
  - `gauss_seidel` in `T2_q1.py` unrolls the sweep for three unknowns and leaves the loop by `break`. It lives in `gauss_seidel3.dfy`.
  - Both are imperative methods. They are proved against the functions `Sweep`, `Iterate`, `Trace` and `Step`.
  - Lemmas characterise a sweep: it is the unique vector that solves each row with the already-updated components. Its fixed points are exactly the solutions of A·x = b.
- **Branch currents**, recovered from the three mesh currents (`currents.dfy`). The dashboard and the script use different formulas. Each is modelled as written, and a lemma compares them.
- **Composite trapezoid and Simpson 1/3 rules** (`quadrature.dfy`).
  - They return a pair (integral, error message) with exactly one part present.
  - The point count is checked before the parity.
  - Lemmas show that the slice sums `Y[1:-1]`, `Y[1:-1:2]` and `Y[2:-1:2]` equal the sum of the simple rule over the panels.
  - The `_func` copies in `sitefull.py:741-765` are the same code as `T4_q1.py:7-37`.
- **Least-squares fits** (`regression.dfy`) and the fit selection of `processar_regressao` (`fit_selection.dfy`).
  - The line and parabola fits solve normal equations built from power sums.
  - A lemma proves that any solution of those equations is a least-squares fit: the error of every other line or parabola is larger by the squared distance between the two curves.
  - The exponential fit is a line fit on ln Y, behind a guard on non-positive data.
  - The script reports the first fit of least error in the order line, parabola, exponential. The dashboard sorts the results by error and reports the head. Lemmas relate the two choices.
  - The regression functions of `sitefull.py:528-589` are identical to `T3_q3.py:6-83`.

`np.linalg.solve` is modelled by Cramer's rule in `linalg.dfy`. It fails exactly when the determinant is zero, and otherwise returns the unique solution. `ln` and `exp` are function parameters with no properties assumed.

## Model

| member | source | states |
|---|---|---|
| GaussSeidel.GaussSeidelSweep | sitefull.py:126-137 | the nested loops over an in-place copy of x compute one Gauss-Seidel sweep: row i uses the components already updated below i and the previous iterate above i, and skips the diagonal |
| GaussSeidel.GaussSeidelDetailed | sitefull.py:118-146 | the history is x0 followed by one iterate per executed sweep, so it has k + 1 entries; the returned vector is history[k]; k <= max_iter, and k >= 1 when max_iter > 0; every sweep before k had an infinity-norm step >= tol; the loop stops before max_iter only on a step < tol |
| GaussSeidel.Trace | sitefull.py:122-139 | the history after k sweeps has k + 1 entries, and entry m is the iterate after m sweeps |
| GaussSeidel.MaxAbsDiff | sitefull.py:141 | np.linalg.norm(u - v, ord=np.inf): non-negative, an upper bound of every abs(u[i] - v[i]), and attained at some i |
| GaussSeidel.OffDiagonalFreshPrefix | sitefull.py:133-135 | row i reads only the components below i from the vector being updated |
| GaussSeidel.SweepPrefixStable | sitefull.py:127-137 | later rows of a sweep never change components already updated |
| GaussSeidel.SweepSolvesRows | sitefull.py:127-137 | the sweep satisfies every row equation A[i][i]·v[i] + (off-diagonal with fresh components below i) = b[i] |
| GaussSeidel.SweepEquationsUnique | sitefull.py:127-137 | any vector satisfying those row equations is the sweep |
| GaussSeidel.SweepCharacterised | sitefull.py:127-137 | v is the sweep from x if and only if v satisfies the row equations |
| GaussSeidel.FixedPointIffSolution | sitefull.py:127-137 | a sweep leaves x unchanged if and only if A·x = b |
| GaussSeidel.ZeroNormMeansEqual | sitefull.py:141 | an infinity-norm difference of zero means the two vectors are equal |
| GaussSeidel.ZeroStepIsSolution | sitefull.py:141-142 | a sweep whose step is exactly zero has reached a solution of A·x = b |
| GaussSeidel.SolutionIsStationary | sitefull.py:124-146 | started at a solution, every iterate equals x0 |
| GaussSeidel3.Sweep3IsSweep | T2_q1.py:28-32 | for three unknowns, the unrolled formulas give the same vector as the general sweep |
| GaussSeidel3.UnrolledSweep | T2_q1.py:26-32 | the three in-place assignments to x_new compute the Gauss-Seidel sweep: row 0 reads only old values, row 1 the new x_new[0], row 2 the new x_new[0] and x_new[1] |
| GaussSeidel3.GaussSeidelUnrolled | T2_q1.py:3-44 | the history is x0 plus one iterate per executed sweep, the converging one included, so 1 <= len(history) <= max_iter + 1; x is the last history entry; every earlier step was >= tol; fewer than max_iter sweeps run only when the last step is < tol |
| Currents.DashboardBranchCurrents | sitefull.py:148-166 | I_R1 = i1, I_R2 = i2, I_R1 - I_R4 = i3; current is conserved at the two inner nodes; I_total = I_R1 + I_R4 = 2·i1 - i3 |
| Currents.DashboardIgnoresCircuit | sitefull.py:148-166 | the resistor values and the voltage E do not change the result |
| Currents.ScriptBranchCurrents | T2_q1.py:67-72 | I1 = i1, I2 = i2, I6 = i3 and I1 - I4 = I6, so I4 = i1 - i3; I1 = I2 + I5 and I5 = I3 + I4, so I5 = i1 - i2 and I3 = i3 - i2 |
| Currents.FrontEndsCompared | T2_q1.py:67-72 | the two front ends agree on R1, R2, R4 and R5, give opposite signs for R3, and report the same total exactly when i1 = i3 |
| Quadrature.Trapezoid | T4_q1.py:7-19 | exactly one of integral and message is present; the message is the two-point error exactly when N < 2; otherwise the integral is h/2·(y0 + 2·Σ Y[1:-1] + y_{N-1}) with h = X[1] - X[0] |
| Quadrature.TrapezoidPanelsSum | T4_q1.py:17-18 | the end points plus twice the interior sum equal the sum of y_i + y_{i+1} over the panels |
| Quadrature.TrapezoidIsComposite | T4_q1.py:16-18 | the rule is the simple trapezoid rule summed over the N - 1 panels, and for N = 2 it is h·(y0 + y1)/2 |
| Quadrature.Simpson | T4_q1.py:21-37 | exactly one of integral and message is present; N < 3 gives the too-few-points message; N >= 3 with N - 1 odd gives the parity message; otherwise the integral is h/3·(y0 + 4·Σ Y[1:-1:2] + 2·Σ Y[2:-1:2] + y_{N-1}) |
| Quadrature.EverySecondSnoc | T4_q1.py:34-35 | extending a stride-2 slice by two positions appends exactly one element: the one at the old end when the span is even, the next one when it is odd |
| Quadrature.SimpsonPanelsSum | T4_q1.py:34-36 | the weighted odd and even interior sums equal the sum of y_{2p} + 4·y_{2p+1} + y_{2p+2} over the double panels |
| Quadrature.SimpsonIsComposite | T4_q1.py:33-36 | the rule is the simple Simpson 1/3 rule summed over the (N - 1)/2 double panels |
| Quadrature.EverySecondShape | T4_q1.py:34-35 | the slice s[lo:hi:2] has (hi - lo + 1) / 2 elements, and its k-th element is s[lo + 2k] |
| Quadrature.SimpsonIndicesPartition | T4_q1.py:34-36 | Y[1:-1:2] is Y[1], Y[3], ..., Y[N-2] ((N - 1)/2 samples) and Y[2:-1:2] is Y[2], Y[4], ..., Y[N-3] ((N - 3)/2 samples); with the two end points, these slices take every index 0..N-1 exactly once |
| Quadrature.OnlyFirstStepMatters | T4_q1.py:16-33 | only X[0] and X[1] affect either rule; the other abscissae are never read |
| Quadrature.SquareExample | T4_q1.py:7-37 | Y = x² sampled at 0, 1, 2 gives 3 by the trapezoid rule and 8/3 by Simpson's rule |
| Quadrature.FourPointsRejected | T4_q1.py:30-31 | four points give the parity message |
| LinAlg.MatVec | T3_q3.py:42 | the product M·v has one entry per row, the dot product of that row with v |
| LinAlg.Solve2 | T3_q3.py:42 | np.linalg.solve on 2x2: fails exactly when the determinant is zero; otherwise returns a with M·a = r |
| LinAlg.Solve2Unique | T3_q3.py:42 | a nonsingular 2x2 system has exactly one solution, the one returned |
| LinAlg.Solve3 | T3_q3.py:66 | np.linalg.solve on 3x3: fails exactly when the determinant is zero; otherwise returns a with M·a = r |
| LinAlg.Solve3Unique | T3_q3.py:66 | a nonsingular 3x3 system has exactly one solution, the one returned |
| Regression.SquaredError | T3_q3.py:6-11 | the sum of squared residuals is never negative |
| Regression.SquaredErrorUpToZeroIff | T3_q3.py:11 | a partial sum of squared residuals is zero if and only if each of its residuals is zero |
| Regression.SquaredErrorZeroIff | T3_q3.py:6-11 | the error is zero if and only if the fitted values equal the observations |
| Regression.PowerSumZero | T3_q3.py:30-37 | the entry N of the normal matrix is the power sum of order 0 |
| Regression.MomentSumZero | T3_q3.py:32-40 | sum_y is the moment of order 0 |
| Regression.LineValues | T3_q3.py:43 | the fitted values are a0 + a1·X[i], one per abscissa |
| Regression.ParabolaValues | T3_q3.py:67 | the fitted values are a0 + a1·X[i] + a2·X[i]², one per abscissa |
| Regression.Apply | T3_q3.py:77-81 | np.log / np.exp applied element-wise |
| Regression.LinearSystem | T3_q3.py:30-40 | the 2x2 normal matrix is symmetric with entry (j, k) the sum of x^(j+k), so [[N, ΣX], [ΣX, ΣX²]]; the right-hand side is [ΣY, ΣXY] |
| Regression.QuadraticSystem | T3_q3.py:50-64 | the 3x3 normal matrix is the symmetric Hankel matrix of the sums up to ΣX⁴; the right-hand side is [ΣY, ΣXY, ΣX²Y] |
| Regression.LinearFit | T3_q3.py:27-45 | the fit succeeds exactly when the normal matrix is nonsingular; its coefficients then solve the normal equations and its fitted values are the line at each X |
| Regression.QuadraticFit | T3_q3.py:47-69 | the fit succeeds exactly when the normal matrix is nonsingular; its coefficients then solve the normal equations and its fitted values are the parabola at each X |
| Regression.ExponentialFit | T3_q3.py:71-83 | rejects the data exactly when some Y <= 0, before any other work; otherwise it succeeds exactly when the line fit of (X, ln Y) does, returns that fit's coefficients, and its fitted values are exp of the fitted line |
| Regression.LineMoment | T3_q3.py:36-42 | row k of the linear normal matrix times a is the k-th moment of the line's fitted values |
| Regression.ParabolaMoment | T3_q3.py:59-66 | row k of the quadratic normal matrix times a is the k-th moment of the parabola's fitted values |
| Regression.LinearNormalIffOrthogonal | T3_q3.py:36-42 | a solves the linear normal equations if and only if the residuals have zero moments of orders 0 and 1 |
| Regression.QuadraticNormalIffOrthogonal | T3_q3.py:59-66 | a solves the quadratic normal equations if and only if the residuals have zero moments of orders 0, 1 and 2 |
| Regression.SquaredErrorSplit | T3_q3.py:11 | moving the fitted values from F to G changes the error by twice the cross term plus the squared distance between F and G |
| Regression.LineCross | T3_q3.py:43 | the cross term between a residual and any line is the combination of the residual moments with the line's coefficients |
| Regression.ParabolaCross | T3_q3.py:67 | the cross term between a residual and any parabola is the combination of the residual moments with the parabola's coefficients |
| Regression.LinePythagoras | T3_q3.py:27-45 | for a solution a of the normal equations, the error of any line c equals the error of a plus the squared distance between the two lines |
| Regression.ParabolaPythagoras | T3_q3.py:47-69 | the same for parabolas |
| Regression.LinearFitIsLeastSquares | T3_q3.py:27-45 | regressao_linear returns a line whose error is at most that of any line |
| Regression.QuadraticFitIsLeastSquares | T3_q3.py:47-69 | regressao_quadratica returns a parabola whose error is at most that of any parabola |
| Regression.ExponentialFitIsLogLeastSquares | T3_q3.py:71-83 | the coefficients of a successful exponential fit give a line whose squared error against ln Y is at most that of any line c; the criterion lives in log space |
| Regression.LinearFitRecoversLine | T3_q3.py:27-45 | data on a line, with a nonsingular system, give back that line exactly, with error zero |
| Regression.QuadraticFitRecoversParabola | T3_q3.py:47-69 | data on a parabola, with a nonsingular system, give back that parabola exactly, with error zero |
| FitSelection.Attempt | T3_q3.py:139-198 | each try block either appends an entry of its own kind with error erro_quadratico(Y, fitted) >= 0, always against the original Y, or is skipped: the line and parabola fits on a singular system, the parabola when len(X) < 3, the exponential on non-positive data |
| FitSelection.CollectFits | T3_q3.py:136-198 | the list built by the three try blocks is the entries of the successful attempts in attempt order |
| FitSelection.CollectedInOrder | T3_q3.py:136-198 | appending the present outcomes in order lists each once, under its own kind, in attempt order |
| FitSelection.CollectedSpec | T3_q3.py:136-198 | resultados has at most three entries; each is the outcome of its kind's attempt; an attempt succeeds if and only if its kind is listed, so one failure does not stop the others; the entries are in the order line, parabola, exponential |
| FitSelection.FirstMinimal | T3_q3.py:210-219 | min(resultados, key=error): none exactly when the list is empty; otherwise an entry of least error with every earlier entry strictly worse, so ties go to the earliest |
| FitSelection.FirstMinimalUnique | T3_q3.py:211 | the first entry of least error is the only index min can return |
| FitSelection.SortedHeadIsBest | sitefull.py:678-684 | for any permutation of the results sorted by error, whatever order it leaves ties in, its head is an entry of least error |
| FitSelection.BestFitsAgree | sitefull.py:681-684 | all entries of least error have the same error, so both front ends report the same least error |
| FitSelection.FrontEndsAgree | sitefull.py:678-684 | when no two errors are equal, the dashboard's head of the sorted table is the entry the script reports |
| FitSelection.LineIsParabola | T3_q3.py:43-67 | a line is the parabola with a zero square coefficient |
| FitSelection.ParabolaNeverWorseThanLine | T3_q3.py:139-182 | whenever both polynomial fits succeed, the parabola's error is at most the line's |
| FitSelection.LineReportedOnlyOnTie | T3_q3.py:210-212 | when the parabola is in the list and the script reports the line, the two errors are equal |

## Left out

- The Streamlit pages, the command-line prompts, printing, `formatar_polinomio`, plotting and saving figures: these are user interface and I/O.
- Floating point: every quantity is an exact real, so rounding, overflow, inf and NaN are not modelled. The same goes for the `np.allclose` spacing check and the inf/NaN screening of sampled values, which belong to the front ends.
- `sympify` / `lambdify` sampling of a formula, because it is a foreign symbolic library.
- `ln` and `exp` are parameters with no properties assumed, so no fact about the exponential fit depends on them.
- `np.linalg.solve` is modelled by its contract through Cramer's rule. It fails exactly on a zero determinant. The LU factorisation, pivoting and the numerical notion of a near-singular matrix are not modelled.
- The direct-solver page (`resolver_sistema_linear`, `T1_q2.py`) is not part of this model.
- The dead `soma` loop of `gauss_seidel_detailed` (sitefull.py:128-130) has no effect and is not modelled.
- Convergence of Gauss-Seidel (diagonal dominance and so on) is not modelled. The code only bounds the number of sweeps.
- GaussSeidel.GaussSeidelDetailed: requires n >= 1, a square A, vectors of length n and a nonzero diagonal.
  - The source divides by A[i,i] without a check.
  - numpy's infinity norm of an empty vector raises.
  - The same holds for GaussSeidel3.GaussSeidelUnrolled.
- GaussSeidel3.GaussSeidelUnrolled: also requires exactly three unknowns, since the source hard-codes the indices 0, 1 and 2. It takes max_iter and tol as plain arguments: the Python defaults max_iter = 50 and tol = 1e-6 are left to the caller.
- Quadrature.Trapezoid: requires len(X) == len(Y). The same holds for Quadrature.Simpson.
  - Every call site passes equal lengths, in one of three ways.
  - The data-entry paths compare the lengths (T4_q1.py:145, sitefull.py:866).
  - The worked examples pass equal-length literals (T4_q1.py:126-129, sitefull.py:842-846).
  - The function sampler evaluates f on the n + 1 grid points (T4_q1.py:188-199, sitefull.py:900-910).
  - A constant formula, for which `lambdify` returns a scalar instead of an array, is left out with `sympify` / `lambdify`.
- Regression.LinearFit: requires len(X) == len(Y). The same holds for the other fits and for FitSelection.CollectFits.
  - Every call of processar_regressao passes equal lengths.
  - The data-entry paths compare them (T3_q3.py:247, sitefull.py:729).
  - The worked examples pass equal-length literals (T3_q3.py:228-231, sitefull.py:704-709).
  - What numpy does with unequal lengths is not modelled: a broadcasting error, or, for a Y of length 1, broadcasting that raises nothing.
- FitSelection.SortedHeadIsBest: the dashboard's pandas sort is not stable. For the dashboard the model therefore states only that the reported fit has least error, not which of several tied fits it is.
- The equation strings stored in each result entry are left out with `formatar_polinomio`. An entry keeps the kind, the coefficients and the error.
