/** processar_regressao in T3_q3.py and sitefull.py: the three fits are
    attempted in the order line, parabola, exponential; each one that raises
    is skipped; the squared error of every successful fit is recorded; and the
    fit of least error is reported. The script takes Python's min over the
    list, the dashboard the head of the list sorted by error. */
module FitSelection {

  import opened Prelude
  import opened LinAlg
  import opened Regression

  datatype Kind = Line | Parabola | Exponential

  /** Position of a kind in the order the fits are attempted. */
  function Rank(k: Kind): nat
  {
    match k
    case Line => 0
    case Parabola => 1
    case Exponential => 2
  }

  /** One dictionary of the list resultados (the equation string is left out). */
  datatype Entry = Entry(kind: Kind, coefs: Vector, error: real)

  /** The entry one attempt appends, or None when the attempt is skipped: the
      parabola is given fewer than three points (a warning, before any fit is
      tried), the solver meets a singular system, or the exponential meets a
      non-positive value. The error is
      always taken against the original data Y. */
  function Attempt(X: Vector, Y: Vector, ln: real -> real, exp: real -> real, kind: Kind): (r: Option<Entry>)
    requires |X| == |Y|
    ensures r.Some? ==> r.value.kind == kind && r.value.error >= 0.0
    ensures kind == Line ==>
              (r.Some? <==> LinearFit(X, Y).Fitted?) &&
              (r.Some? ==> r.value.coefs == LinearFit(X, Y).coefs
                           && r.value.error == SquaredError(Y, LineValues(r.value.coefs, X)))
    ensures kind == Parabola ==>
              (r.Some? <==> |X| >= 3 && QuadraticFit(X, Y).Fitted?) &&
              (r.Some? ==> r.value.coefs == QuadraticFit(X, Y).coefs
                           && r.value.error == SquaredError(Y, ParabolaValues(r.value.coefs, X)))
    ensures kind == Exponential ==>
              (r.Some? <==> ExponentialFit(X, Y, ln, exp).Fitted?) &&
              (r.Some? ==> r.value.coefs == ExponentialFit(X, Y, ln, exp).coefs
                           && r.value.error == SquaredError(Y, ExponentialFit(X, Y, ln, exp).fitted))
  {
    if kind == Parabola && |X| < 3 then None
    else
      var fit := match kind
                 case Line => LinearFit(X, Y)
                 case Parabola => QuadraticFit(X, Y)
                 case Exponential => ExponentialFit(X, Y, ln, exp);
      match fit
      case Fitted(a, f) => Some(Entry(kind, a, SquaredError(Y, f)))
      case _ => None
  }

  /** The list resultados that processar_regressao builds: the entries of
      the successful attempts, in attempt order. */
  function Collected(X: Vector, Y: Vector, ln: real -> real, exp: real -> real): seq<Entry>
    requires |X| == |Y|
  {
    Present(Attempt(X, Y, ln, exp, Line)) + Present(Attempt(X, Y, ln, exp, Parabola))
    + Present(Attempt(X, Y, ln, exp, Exponential))
  }

  /** The three try blocks of processar_regressao, appending to resultados. */
  method CollectFits(X: Vector, Y: Vector, ln: real -> real, exp: real -> real) returns (results: seq<Entry>)
    requires |X| == |Y|
    ensures results == Collected(X, Y, ln, exp)
  {
    results := [];
    var line := Attempt(X, Y, ln, exp, Line);
    if line.Some? {
      results := results + [line.value];
    }
    var parabola := Attempt(X, Y, ln, exp, Parabola);
    if parabola.Some? {
      results := results + [parabola.value];
    }
    var exponential := Attempt(X, Y, ln, exp, Exponential);
    if exponential.Some? {
      results := results + [exponential.value];
    }
    assert results == Present(line) + Present(parabola) + Present(exponential);
  }

  /** resultados holds at most one entry per kind, each the outcome of that
      kind's attempt; every successful attempt is listed; and the entries
      come in attempt order. */
  lemma CollectedSpec(X: Vector, Y: Vector, ln: real -> real, exp: real -> real)
    requires |X| == |Y|
    ensures var results := Collected(X, Y, ln, exp);
            |results| <= 3 &&
            (forall i :: 0 <= i < |results| ==> Attempt(X, Y, ln, exp, results[i].kind) == Some(results[i])) &&
            (forall k: Kind :: Attempt(X, Y, ln, exp, k).Some? <==> exists i :: 0 <= i < |results| && results[i].kind == k) &&
            (forall i, j :: 0 <= i < j < |results| ==> Rank(results[i].kind) < Rank(results[j].kind))
  {
    var line, parabola, exponential := Attempt(X, Y, ln, exp, Line), Attempt(X, Y, ln, exp, Parabola), Attempt(X, Y, ln, exp, Exponential);
    assert forall k: Kind :: Attempt(X, Y, ln, exp, k) == Select(line, parabola, exponential, k);
    CollectedInOrder(line, parabola, exponential);
  }

  /** The list entry an optional outcome contributes. */
  function Present(r: Option<Entry>): (s: seq<Entry>)
    ensures r.None? ==> s == []
    ensures r.Some? ==> s == [r.value]
  {
    if r.Some? then [r.value] else []
  }

  /** The outcome of the given kind among the three. */
  function Select(line: Option<Entry>, parabola: Option<Entry>, exponential: Option<Entry>, k: Kind): Option<Entry>
  {
    match k
    case Line => line
    case Parabola => parabola
    case Exponential => exponential
  }

  /** Appending the present outcomes in attempt order lists each present
      outcome once, under its own kind, in attempt order. */
  lemma CollectedInOrder(line: Option<Entry>, parabola: Option<Entry>, exponential: Option<Entry>)
    requires line.Some? ==> line.value.kind == Line
    requires parabola.Some? ==> parabola.value.kind == Parabola
    requires exponential.Some? ==> exponential.value.kind == Exponential
    ensures var results := Present(line) + Present(parabola) + Present(exponential);
            |results| <= 3 &&
            (forall i :: 0 <= i < |results| ==> Select(line, parabola, exponential, results[i].kind) == Some(results[i])) &&
            (forall k: Kind :: Select(line, parabola, exponential, k).Some? <==>
                                 exists i :: 0 <= i < |results| && results[i].kind == k) &&
            (forall i, j :: 0 <= i < j < |results| ==> Rank(results[i].kind) < Rank(results[j].kind))
  {
    var results := Present(line) + Present(parabola) + Present(exponential);
    forall k: Kind | Select(line, parabola, exponential, k).Some?
      ensures exists i :: 0 <= i < |results| && results[i].kind == k
    {
      var i := if k == Line then 0
               else if k == Parabola then |Present(line)|
               else |results| - 1;
      assert results[i].kind == k;
    }
  }

  // ------------------------------------------------------------ choosing the best fit

  /** The entry at i has the least error of the list. */
  predicate IsBestFit(results: seq<Entry>, i: nat)
  {
    i < |results| && forall j :: 0 <= j < |results| ==> results[i].error <= results[j].error
  }

  /** min(resultados, key=...) in T3_q3.py: a left-to-right scan that moves on
      only to a strictly smaller error, so ties go to the earliest entry; None
      stands for the empty list, where the script reports that no fit was
      possible. */
  function FirstMinimal(results: seq<Entry>): (r: Option<nat>)
    ensures r.None? <==> |results| == 0
    ensures r.Some? ==> IsBestFit(results, r.value)
    ensures r.Some? ==> forall j :: 0 <= j < r.value ==> results[j].error > results[r.value].error
    decreases |results|
  {
    if |results| == 0 then None
    else
      match FirstMinimal(results[..|results| - 1])
      case None => Some(0)
      case Some(m) => if results[|results| - 1].error < results[m].error then Some(|results| - 1) else Some(m)
  }

  /** The first minimal entry is unique: any index that is minimal and beaten
      by every earlier entry is the one the script reports. */
  lemma FirstMinimalUnique(results: seq<Entry>, i: nat)
    requires IsBestFit(results, i)
    requires forall j :: 0 <= j < i ==> results[j].error > results[i].error
    ensures FirstMinimal(results) == Some(i)
  {
    var m := FirstMinimal(results).value;
    assert results[m].error <= results[i].error <= results[m].error;
    assert m == i;
  }

  /** A table ordered by error, as the dashboard's sort_values(by="Erro
      Quadrático") returns it: a permutation of the results, so that ties may
      come in any order. */
  predicate SortedByError(results: seq<Entry>, table: seq<Entry>)
  {
    multiset(table) == multiset(results) &&
    forall i, j :: 0 <= i < j < |table| ==> table[i].error <= table[j].error
  }

  /** The dashboard's iloc[0] is an entry of least error, whichever order the
      sort leaves the ties in. */
  lemma SortedHeadIsBest(results: seq<Entry>, table: seq<Entry>)
    requires SortedByError(results, table) && |results| > 0
    ensures |table| > 0
    ensures exists i :: 0 <= i < |results| && results[i] == table[0] && IsBestFit(results, i)
  {
    assert |table| == |multiset(table)| == |multiset(results)| == |results|;
    assert table[0] in multiset(results);
    var i :| 0 <= i < |results| && results[i] == table[0];
    forall j | 0 <= j < |results|
      ensures results[i].error <= results[j].error
    {
      assert results[j] in multiset(table);
      var k :| 0 <= k < |table| && table[k] == results[j];
      assert k == 0 || table[0].error <= table[k].error;
    }
  }

  /** All entries of least error have the same error, so the script and the
      dashboard report the same error. */
  lemma BestFitsAgree(results: seq<Entry>, i: nat, j: nat)
    requires IsBestFit(results, i) && IsBestFit(results, j)
    ensures results[i].error == results[j].error
  {
  }

  /** When no two fits have the same error, the script and the dashboard
      report the same fit. */
  lemma FrontEndsAgree(results: seq<Entry>, table: seq<Entry>)
    requires SortedByError(results, table) && |results| > 0
    requires forall i, j :: 0 <= i < j < |results| ==> results[i].error != results[j].error
    ensures FirstMinimal(results).Some? && table[0] == results[FirstMinimal(results).value]
  {
    SortedHeadIsBest(results, table);
    var i :| 0 <= i < |results| && results[i] == table[0] && IsBestFit(results, i);
    forall j | 0 <= j < i
      ensures results[j].error > results[i].error
    {
      assert results[j].error != results[i].error;
    }
    FirstMinimalUnique(results, i);
  }

  /** A line is the parabola whose square coefficient is zero. */
  lemma LineIsParabola(X: Vector, a: Vector)
    requires |a| == 2
    ensures ParabolaValues([a[0], a[1], 0.0], X) == LineValues(a, X)
  {
    var c := [a[0], a[1], 0.0];
    forall i | 0 <= i < |X|
      ensures ParabolaValues(c, X)[i] == LineValues(a, X)[i]
    {
      assert ParabolaAt(c, X[i]) == LineAt(a, X[i]);
    }
  }

  /** Whenever both polynomial fits succeed the parabola's error is at most
      the line's, so the line is reported only when it ties the parabola (it
      comes first) or the parabola is skipped. */
  lemma ParabolaNeverWorseThanLine(X: Vector, Y: Vector, ln: real -> real, exp: real -> real)
    requires |X| == |Y|
    requires Attempt(X, Y, ln, exp, Line).Some? && Attempt(X, Y, ln, exp, Parabola).Some?
    ensures Attempt(X, Y, ln, exp, Parabola).value.error <= Attempt(X, Y, ln, exp, Line).value.error
  {
    var a := Attempt(X, Y, ln, exp, Line).value.coefs;
    LineIsParabola(X, a);
    QuadraticFitIsLeastSquares(X, Y, [a[0], a[1], 0.0]);
  }

  /** With both polynomial fits present, the script reports the line only if
      its error equals the parabola's. */
  lemma LineReportedOnlyOnTie(X: Vector, Y: Vector, ln: real -> real, exp: real -> real, results: seq<Entry>)
    requires |X| == |Y|
    requires forall i :: 0 <= i < |results| ==> Attempt(X, Y, ln, exp, results[i].kind) == Some(results[i])
    requires exists i :: 0 <= i < |results| && results[i].kind == Parabola
    requires FirstMinimal(results).Some? && results[FirstMinimal(results).value].kind == Line
    ensures Attempt(X, Y, ln, exp, Line).value.error == Attempt(X, Y, ln, exp, Parabola).value.error
  {
    var m := FirstMinimal(results).value;
    var p :| 0 <= p < |results| && results[p].kind == Parabola;
    assert Attempt(X, Y, ln, exp, Line) == Some(results[m]);
    assert Attempt(X, Y, ln, exp, Parabola) == Some(results[p]);
    ParabolaNeverWorseThanLine(X, Y, ln, exp);
  }
}
