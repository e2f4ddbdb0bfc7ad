/** Composite trapezoid and Simpson 1/3 rules over equally spaced samples
    (regra_trapezio_repetida / regra_simpson_repetida in T4_q1.py and their
    copies with the suffix _func in sitefull.py, which are the same code).
    Each rule returns a pair (integral, error message) of which exactly one
    part is present. */
module Quadrature {

  import opened Prelude

  datatype Outcome = Outcome(integral: Option<real>, error: Option<string>)

  const TrapezoidTooFew := "Erro: Mínimo de 2 pontos necessários para a Regra do Trapézio."
  const SimpsonTooFew := "Erro: Mínimo de 3 pontos necessários para a Regra de Simpson."
  const SimpsonOddSubintervals := "Erro: O número de subintervalos (N-1) deve ser par para a Regra de Simpson Repetida."

  /** Python's s[lo:hi:2] for 0 <= lo and hi <= |s|: the elements at lo, lo+2, ... below hi. */
  function EverySecond(s: seq<real>, lo: nat, hi: nat): seq<real>
    requires hi <= |s|
    decreases hi - lo
  {
    if lo >= hi then [] else [s[lo]] + EverySecond(s, lo + 2, hi)
  }

  /** The value computed by regra_trapezio_repetida once N >= 2:
      h/2 * (y_0 + 2 * (y_1 + ... + y_{N-2}) + y_{N-1}) with h = X[1] - X[0]. */
  function TrapezoidValue(X: seq<real>, Y: seq<real>): real
    requires |Y| == |X| >= 2
  {
    (X[1] - X[0]) / 2.0 * (Y[0] + 2.0 * Sum(Y[1..|X| - 1]) + Y[|X| - 1])
  }

  /** regra_trapezio_repetida: only X[0] and X[1] are read. */
  function Trapezoid(X: seq<real>, Y: seq<real>): (r: Outcome)
    requires |Y| == |X|
    ensures r.integral.Some? != r.error.Some?
    ensures r.error.Some? <==> |X| < 2
    ensures r.error.Some? ==> r.error.value == TrapezoidTooFew
    ensures r.integral.Some? ==> r.integral.value == TrapezoidValue(X, Y)
  {
    if |X| < 2 then Outcome(None, Some(TrapezoidTooFew))
    else Outcome(Some(TrapezoidValue(X, Y)), None)
  }

  /** The value computed by regra_simpson_repetida once N >= 3 and N - 1 is
      even: h/3 * (y_0 + 4 * (odd interior) + 2 * (even interior) + y_{N-1}),
      the interior sums being Y[1:-1:2] and Y[2:-1:2]. */
  function SimpsonValue(X: seq<real>, Y: seq<real>): real
    requires |Y| == |X| >= 3
  {
    var n := |X|;
    (X[1] - X[0]) / 3.0 * (Y[0] + 4.0 * Sum(EverySecond(Y, 1, n - 1)) + 2.0 * Sum(EverySecond(Y, 2, n - 1)) + Y[n - 1])
  }

  /** regra_simpson_repetida: the point count is checked before parity. */
  function Simpson(X: seq<real>, Y: seq<real>): (r: Outcome)
    requires |Y| == |X|
    ensures r.integral.Some? != r.error.Some?
    ensures r.error == Some(SimpsonTooFew) <==> |X| < 3
    ensures r.error == Some(SimpsonOddSubintervals) <==> |X| >= 3 && (|X| - 1) % 2 != 0
    ensures r.integral.Some? <==> |X| >= 3 && (|X| - 1) % 2 == 0
    ensures r.integral.Some? ==> r.integral.value == SimpsonValue(X, Y)
  {
    var n := |X|;
    if n < 3 then Outcome(None, Some(SimpsonTooFew))
    else if (n - 1) % 2 != 0 then Outcome(None, Some(SimpsonOddSubintervals))
    else Outcome(Some(SimpsonValue(X, Y)), None)
  }

  // ------------------------------------------------------------ properties

  /** Sum over the first m panels of the simple trapezoid rule (without h/2). */
  function TrapezoidPanels(Y: seq<real>, m: nat): real
    requires m < |Y|
  {
    if m == 0 then 0.0 else TrapezoidPanels(Y, m - 1) + (Y[m - 1] + Y[m])
  }

  /** Sum over the first p double panels of the simple Simpson rule (without h/3). */
  function SimpsonPanels(Y: seq<real>, p: nat): real
    requires 2 * p < |Y|
  {
    if p == 0 then 0.0 else SimpsonPanels(Y, p - 1) + (Y[2 * p - 2] + 4.0 * Y[2 * p - 1] + Y[2 * p])
  }

  lemma {:induction false} TrapezoidPanelsSum(Y: seq<real>, m: nat)
    requires 1 <= m < |Y|
    ensures Y[0] + 2.0 * Sum(Y[1..m]) + Y[m] == TrapezoidPanels(Y, m)
  {
    if m == 1 {
      assert Y[1..1] == [];
    } else {
      TrapezoidPanelsSum(Y, m - 1);
      assert Y[1..m] == Y[1..m - 1] + [Y[m - 1]];
      SumSnoc(Y[1..m - 1], Y[m - 1]);
    }
  }

  /** The composite trapezoid rule is the sum of the simple rule over the
      N-1 panels [X[i], X[i+1]], all of width h; with two points it is the
      simple rule itself. */
  lemma TrapezoidIsComposite(X: seq<real>, Y: seq<real>)
    requires |Y| == |X| >= 2
    ensures TrapezoidValue(X, Y) == (X[1] - X[0]) / 2.0 * TrapezoidPanels(Y, |X| - 1)
    ensures |X| == 2 ==> TrapezoidValue(X, Y) == (X[1] - X[0]) * (Y[0] + Y[1]) / 2.0
  {
    TrapezoidPanelsSum(Y, |X| - 1);
    if |X| == 2 {
      assert TrapezoidPanels(Y, 1) == Y[0] + Y[1];
    }
  }

  /** Extending the slice by two positions appends exactly one element: the
      one at hi when hi - lo is even, the one at hi + 1 when it is odd. */
  lemma {:induction false} EverySecondSnoc(s: seq<real>, lo: nat, hi: nat, last: nat)
    requires lo <= hi && hi + 2 <= |s|
    requires last == if (hi - lo) % 2 == 0 then hi else hi + 1
    ensures EverySecond(s, lo, hi + 2) == EverySecond(s, lo, hi) + [s[last]]
    decreases hi - lo
  {
    if lo + 2 <= hi {
      EverySecondSnoc(s, lo + 2, hi, last);
    } else if lo + 1 == hi {
      assert EverySecond(s, lo + 2, hi + 2) == [s[lo + 2]];
    } else {
      assert EverySecond(s, lo + 2, hi + 2) == [];
    }
  }

  lemma {:induction false} SimpsonPanelsSum(Y: seq<real>, p: nat)
    requires 1 <= p && 2 * p < |Y|
    ensures Y[0] + 4.0 * Sum(EverySecond(Y, 1, 2 * p)) + 2.0 * Sum(EverySecond(Y, 2, 2 * p)) + Y[2 * p]
         == SimpsonPanels(Y, p)
  {
    if p == 1 {
      assert EverySecond(Y, 1, 2) == [Y[1]];
      assert EverySecond(Y, 2, 2) == [];
      assert Sum([Y[1]]) == Y[1];
    } else {
      SimpsonPanelsSum(Y, p - 1);
      var hi := 2 * p - 2;
      EverySecondSnoc(Y, 1, hi, hi + 1);
      EverySecondSnoc(Y, 2, hi, hi);
      var odd, even := EverySecond(Y, 1, hi), EverySecond(Y, 2, hi);
      SumSnoc(odd, Y[hi + 1]);
      SumSnoc(even, Y[hi]);
      assert Sum(EverySecond(Y, 1, 2 * p)) == Sum(odd) + Y[hi + 1];
      assert Sum(EverySecond(Y, 2, 2 * p)) == Sum(even) + Y[hi];
      assert SimpsonPanels(Y, p) == SimpsonPanels(Y, p - 1) + (Y[hi] + 4.0 * Y[hi + 1] + Y[hi + 2]);
    }
  }

  /** The composite Simpson rule is the sum of the simple 1/3 rule over the
      (N-1)/2 double panels [X[2p], X[2p+2]]. */
  lemma SimpsonIsComposite(X: seq<real>, Y: seq<real>, p: nat)
    requires p >= 1 && |Y| == |X| == 2 * p + 1
    ensures SimpsonValue(X, Y) == (X[1] - X[0]) / 3.0 * SimpsonPanels(Y, p)
  {
    SimpsonPanelsSum(Y, p);
    var c := Y[0] + 4.0 * Sum(EverySecond(Y, 1, 2 * p)) + 2.0 * Sum(EverySecond(Y, 2, 2 * p)) + Y[2 * p];
    assert c == SimpsonPanels(Y, p);
  }

  /** s[lo:hi:2] has (hi - lo + 1) / 2 elements, the k-th being s[lo + 2k]. */
  lemma {:induction false} EverySecondShape(s: seq<real>, lo: nat, hi: nat)
    requires lo <= hi <= |s|
    ensures |EverySecond(s, lo, hi)| == (hi - lo + 1) / 2
    ensures forall k :: 0 <= k < |EverySecond(s, lo, hi)| ==> EverySecond(s, lo, hi)[k] == s[lo + 2 * k]
    decreases hi - lo
  {
    if lo + 2 <= hi {
      EverySecondShape(s, lo + 2, hi);
      var rest := EverySecond(s, lo + 2, hi);
      assert EverySecond(s, lo, hi) == [s[lo]] + rest;
      forall k | 1 <= k < |EverySecond(s, lo, hi)|
        ensures EverySecond(s, lo, hi)[k] == s[lo + 2 * k]
      {
        assert EverySecond(s, lo, hi)[k] == rest[k - 1];
      }
    } else if lo < hi {
      assert EverySecond(s, lo + 2, hi) == [];
    }
  }

  /** The sums Y[1:-1:2] and Y[2:-1:2] of the Simpson rule are taken over the
      odd interior samples Y[1], Y[3], ..., Y[N-2] and the even interior
      samples Y[2], Y[4], ..., Y[N-3]; with the two end points these cover
      every index 0..N-1 exactly once. */
  lemma SimpsonIndicesPartition(Y: seq<real>, i: nat)
    requires |Y| >= 3 && (|Y| - 1) % 2 == 0 && i < |Y|
    ensures var n, odd, even := |Y|, EverySecond(Y, 1, |Y| - 1), EverySecond(Y, 2, |Y| - 1);
            |odd| == (n - 1) / 2 && |even| == (n - 3) / 2 &&
            (forall k :: 0 <= k < |odd| ==> odd[k] == Y[1 + 2 * k]) &&
            (forall k :: 0 <= k < |even| ==> even[k] == Y[2 + 2 * k]) &&
            (if i == 0 then 1 else 0) + (if i == n - 1 then 1 else 0)
            + (if exists k :: 0 <= k < |odd| && i == 1 + 2 * k then 1 else 0)
            + (if exists k :: 0 <= k < |even| && i == 2 + 2 * k then 1 else 0) == 1
  {
    var n := |Y|;
    EverySecondShape(Y, 1, n - 1);
    EverySecondShape(Y, 2, n - 1);
    if i % 2 == 1 {
      assert i == 1 + 2 * ((i - 1) / 2);
    } else if 0 < i < n - 1 {
      assert i == 2 + 2 * ((i - 2) / 2);
    }
  }

  /** Only X[0] and X[1] are read: the other abscissae are assumed equally
      spaced and never checked. */
  lemma OnlyFirstStepMatters(X: seq<real>, X': seq<real>, Y: seq<real>)
    requires |Y| == |X| == |X'|
    requires |X| >= 2 ==> X[0] == X'[0] && X[1] == X'[1]
    ensures Trapezoid(X, Y) == Trapezoid(X', Y)
    ensures Simpson(X, Y) == Simpson(X', Y)
  {
    if |X| >= 2 {
      assert TrapezoidValue(X, Y) == TrapezoidValue(X', Y);
    }
    if |X| >= 3 {
      assert SimpsonValue(X, Y) == SimpsonValue(X', Y);
    }
  }

  /** The worked example Y = X^2 on [0, 2] with step 1. */
  lemma SquareExample()
    ensures Trapezoid([0.0, 1.0, 2.0], [0.0, 1.0, 4.0]).integral == Some(3.0)
    ensures Simpson([0.0, 1.0, 2.0], [0.0, 1.0, 4.0]).integral == Some(8.0 / 3.0)
  {
    var Y := [0.0, 1.0, 4.0];
    assert Y[1..2] == [1.0];
    assert Sum([1.0]) == 1.0;
    assert EverySecond(Y, 1, 2) == [1.0];
    assert EverySecond(Y, 2, 2) == [];
  }

  /** Four points give an odd number of subintervals. */
  lemma FourPointsRejected(X: seq<real>, Y: seq<real>)
    requires |Y| == |X| == 4
    ensures Simpson(X, Y).error == Some(SimpsonOddSubintervals)
  {
  }
}
