/** The measure that makes the solver stop: the numbers of versions left in the queues of the
    stack, read as the digits of a number, a missing queue counting as the largest digit. */
module SolverMeasure {

  function Pow(b: nat, n: nat): nat {
    if n == 0 then 1 else b * Pow(b, n - 1)
  }

  function Digit(a: seq<nat>, i: nat, m: nat): nat {
    if i < |a| then a[i] else m
  }

  /** The digits from i to n, in base m + 1. */
  function Value(a: seq<nat>, i: nat, n: nat, m: nat): nat
    requires i <= n
    decreases n - i
  {
    if i == n then 0 else Digit(a, i, m) * Pow(m + 1, n - i - 1) + Value(a, i + 1, n, m)
  }

  lemma ValueUnfolds(a: seq<nat>, i: nat, n: nat, m: nat)
    requires i < n
    ensures Value(a, i, n, m) == Digit(a, i, m) * Pow(m + 1, n - i - 1) + Value(a, i + 1, n, m)
  {
  }

  lemma PowUnfolds(b: nat, n: nat)
    requires n > 0
    ensures Pow(b, n) == b * Pow(b, n - 1)
  {
  }

  lemma MulMonotone(x: nat, y: nat, p: nat)
    requires x <= y
    ensures x * p <= y * p
  {
  }

  lemma MulSuccessor(x: nat, p: nat)
    ensures (x + 1) * p == x * p + p
  {
  }

  lemma {:induction false} ValueBound(a: seq<nat>, i: nat, n: nat, m: nat)
    requires i <= n && forall k | 0 <= k < |a| :: a[k] <= m
    ensures Value(a, i, n, m) < Pow(m + 1, n - i)
    decreases n - i
  {
    if i == n {
      assert Pow(m + 1, 0) == 1;
    } else {
      hide Value;
      hide Pow;
      var p, d := Pow(m + 1, n - i - 1), Digit(a, i, m);
      calc {
        Value(a, i, n, m);
      == { ValueUnfolds(a, i, n, m); }
        d * p + Value(a, i + 1, n, m);
      <  { ValueBound(a, i + 1, n, m); }
        d * p + p;
      <= { MulMonotone(d, m, p); }
        m * p + p;
      == { MulSuccessor(m, p); }
        (m + 1) * p;
      == { PowUnfolds(m + 1, n - i); }
        Pow(m + 1, n - i);
      }
    }
  }

  /** A smaller digit in front of place value p outweighs a rest below p. */
  lemma DigitLess(x: nat, y: nat, p: nat, u: nat, v: nat)
    requires x < y && u < p
    ensures x * p + u < y * p + v
  {
    MulSuccessor(x, p);
    MulMonotone(x + 1, y, p);
  }

  /** A smaller digit outweighs everything after it. */
  lemma {:induction false} ValueLess(a: seq<nat>, b: seq<nat>, i: nat, j: nat, n: nat, m: nat)
    requires i <= j < n && forall k | 0 <= k < |a| :: a[k] <= m
    requires forall k | i <= k < j :: Digit(a, k, m) == Digit(b, k, m)
    requires Digit(a, j, m) < Digit(b, j, m)
    ensures Value(a, i, n, m) < Value(b, i, n, m)
    decreases j - i
  {
    hide Value;
    hide Pow;
    ValueUnfolds(a, i, n, m);
    ValueUnfolds(b, i, n, m);
    if i == j {
      ValueBound(a, i + 1, n, m);
      DigitLess(Digit(a, i, m), Digit(b, i, m), Pow(m + 1, n - i - 1), Value(a, i + 1, n, m), Value(b, i + 1, n, m));
    } else {
      ValueLess(a, b, i + 1, j, n, m);
    }
  }

  lemma {:induction false} DistinctFits<T>(s: seq<T>, xs: set<T>)
    requires forall i, j | 0 <= i < j < |s| :: s[i] != s[j]
    requires forall i | 0 <= i < |s| :: s[i] in xs
    ensures |s| <= |xs|
  {
    if s == [] {
    } else {
      var n := |s| - 1;
      DistinctFits(s[..n], xs - {s[n]});
    }
  }
}
