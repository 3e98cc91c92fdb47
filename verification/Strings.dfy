/** Byte-wise string order, sorting, and the two notions of prefix that import paths need. */
module Strings {
  import opened Wrappers

  /** Go's `<=` on strings: lexicographic by character. */
  predicate Leq(a: string, b: string) {
    a == [] || (b != [] && (a[0] < b[0] || (a[0] == b[0] && Leq(a[1..], b[1..]))))
  }

  lemma {:induction false} LeqReflexive(a: string)
    ensures Leq(a, a)
  {
    if a == [] {
    } else {
      LeqReflexive(a[1..]);
    }
  }

  lemma {:induction false} LeqTotal(a: string, b: string)
    ensures Leq(a, b) || Leq(b, a)
  {
    if a == [] || b == [] {
    } else {
      LeqTotal(a[1..], b[1..]);
    }
  }

  lemma {:induction false} LeqAntisymmetric(a: string, b: string)
    requires Leq(a, b) && Leq(b, a)
    ensures a == b
  {
    if a == [] {
    } else {
      LeqAntisymmetric(a[1..], b[1..]);
      assert a == [a[0]] + a[1..] && b == [b[0]] + b[1..];
    }
  }

  lemma {:induction false} LeqTransitive(a: string, b: string, c: string)
    requires Leq(a, b) && Leq(b, c)
    ensures Leq(a, c)
  {
    if a == [] || !(a[0] == b[0] == c[0]) {
    } else {
      LeqTransitive(a[1..], b[1..], c[1..]);
    }
  }

  /** A proper extension comes after what it extends. */
  lemma {:induction false} PrefixLeq(a: string, b: string)
    requires a <= b
    ensures Leq(a, b)
  {
    if a == [] {
    } else {
      PrefixLeq(a[1..], b[1..]);
    }
  }

  // ---------------------------------------------------------------- sorting

  predicate Sorted(s: seq<string>) {
    forall i, j :: 0 <= i < j < |s| ==> Leq(s[i], s[j])
  }

  predicate Distinct<T(==)>(s: seq<T>) {
    forall i, j :: 0 <= i < j < |s| ==> s[i] != s[j]
  }

  function Elements<T>(s: seq<T>): set<T> {
    set x <- s
  }

  lemma {:induction false} ElementsOfDistinct<T>(s: seq<T>)
    requires Distinct(s)
    ensures |Elements(s)| == |s|
  {
    if s == [] {
    } else {
      var n := |s| - 1;
      ElementsOfDistinct(s[..n]);
      assert Elements(s) == Elements(s[..n]) + {s[n]};
      assert s[n] !in Elements(s[..n]);
    }
  }

  predicate IsLeast(m: string, s: set<string>) {
    m in s && forall x <- s :: Leq(m, x)
  }

  lemma LeastExists(s: set<string>)
    requires s != {}
    ensures exists m :: IsLeast(m, s)
  {
    var m :| m in s;
    LeqReflexive(m);
    if s == {m} {
      assert IsLeast(m, s);
    } else {
      LeastExists(s - {m});
      var rest :| IsLeast(rest, s - {m});
      LeqTotal(m, rest);
      if Leq(m, rest) {
        forall x <- s ensures Leq(m, x) {
          if x != m { LeqTransitive(m, rest, x); }
        }
        assert IsLeast(m, s);
      } else {
        assert IsLeast(rest, s);
      }
    }
  }

  lemma LeastUnique(m: string, n: string, s: set<string>)
    requires IsLeast(m, s) && IsLeast(n, s)
    ensures m == n
  {
    LeqAntisymmetric(m, n);
  }

  function Least(s: set<string>): (m: string)
    requires s != {}
    ensures IsLeast(m, s)
  {
    LeastExists(s);
    assert forall m, n | IsLeast(m, s) && IsLeast(n, s) :: m == n by {
      forall m, n | IsLeast(m, s) && IsLeast(n, s) ensures m == n { LeastUnique(m, n, s); }
    }
    var m :| IsLeast(m, s);
    m
  }

  /** The elements of a set in order: what appending a map's keys and sorting them yields. */
  function SortedSeq(s: set<string>): (r: seq<string>)
    ensures Elements(r) == s && Distinct(r) && Sorted(r)
  {
    if s == {} then []
    else
      var m := Least(s);
      var rest := SortedSeq(s - {m});
      assert forall i | 0 <= i < |rest| :: rest[i] in Elements(rest);
      assert Elements([m] + rest) == {m} + Elements(rest);
      [m] + rest
  }

  function Insert(x: string, s: seq<string>): (r: seq<string>)
    requires Sorted(s)
    ensures Sorted(r) && multiset(r) == multiset(s) + multiset{x}
  {
    if s == [] then [x]
    else if Leq(x, s[0]) then
      assert forall j | 0 <= j < |s| :: Leq(x, s[j]) by {
        forall j | 0 < j < |s| ensures Leq(x, s[j]) { LeqTransitive(x, s[0], s[j]); }
      }
      [x] + s
    else
      LeqTotal(x, s[0]);
      var t := Insert(x, s[1..]);
      assert s == [s[0]] + s[1..];
      assert forall j | 0 <= j < |t| :: Leq(s[0], t[j]) by {
        forall j | 0 <= j < |t| ensures Leq(s[0], t[j]) {
          assert t[j] in multiset(t);
          assert t[j] == x || t[j] in s[1..];
        }
      }
      [s[0]] + t
  }

  /** `sort.Strings`. */
  function Sort(s: seq<string>): (r: seq<string>)
    ensures Sorted(r) && multiset(r) == multiset(s)
  {
    if s == [] then []
    else
      assert s == [s[0]] + s[1..];
      Insert(s[0], Sort(s[1..]))
  }

  // ---------------------------------------------------------------- prefixes

  /** The longest key that is, character by character, a prefix of s: a radix tree's
      longest-prefix query. */
  function LongestPrefix(keys: set<string>, s: string): (r: Option<string>)
    ensures r.Some? ==> r.value in keys && r.value <= s
    ensures r.Some? ==> forall k <- keys :: k <= s ==> |k| <= |r.value|
    ensures r.None? ==> forall k <- keys :: !(k <= s)
  {
    LongestPrefixUpTo(keys, s, |s|)
  }

  function LongestPrefixUpTo(keys: set<string>, s: string, n: nat): (r: Option<string>)
    requires n <= |s|
    ensures r.Some? ==> r.value in keys && r.value <= s
    ensures r.Some? ==> forall k <- keys :: k <= s && |k| <= n ==> |k| <= |r.value|
    ensures r.None? ==> forall k <- keys :: k <= s ==> n < |k|
  {
    if s[..n] in keys then Some(s[..n])
    else
      assert forall k <- keys :: k <= s && |k| == n ==> k == s[..n];
      if n == 0 then None else LongestPrefixUpTo(keys, s, n - 1)
  }

  /** p is the directory pre or lies below it. */
  predicate PathPrefix(pre: string, p: string) {
    pre <= p && (|pre| == |p| || p[|pre|] == '/')
  }
}
