/** The ignore rules of `gps/pkgtree/ignored_ruleset.go`: literal paths and prefix wildcards kept in
    a trie, compared with a plain scan of the rules. */
module IgnoredRulesets {
  import opened Wrappers
  import opened Strings

  /** The trie maps a key to whether it is a wildcard; None is the nil trie. */
  datatype IgnoredRuleset = IgnoredRuleset(t: Option<map<string, bool>>)

  // ---------------------------------------------------------------- the rules themselves

  /** "v*" is a rule, and not the skipped global one. */
  predicate Stem(rules: set<string>, v: string) {
    v != "" && v + "*" in rules
  }

  predicate IsWildcard(r: string) {
    r != "" && r[|r| - 1] == '*'
  }

  predicate Literal(rules: set<string>, l: string) {
    l in rules && l != "" && !IsWildcard(l)
  }

  /** The plain scan: a literal rule equals the path, or the stem of a wildcard rule begins it. */
  ghost predicate Scan(rules: set<string>, path: string) {
    path != "" && (Literal(rules, path) || exists v :: Stem(rules, v) && v <= path)
  }

  /** v properly begins x, and sorting puts "v*" before x. */
  predicate Precedes(v: string, x: string) {
    v <= x && |v| < |x| && x[|v|] >= '*'
  }

  /** Some wildcard rule made x redundant before x was looked at. */
  ghost predicate Covered(rules: set<string>, x: string) {
    exists v :: Stem(rules, v) && Precedes(v, x)
  }

  ghost predicate IsKey(rules: set<string>, k: string) {
    !Covered(rules, k) && (Stem(rules, k) || Literal(rules, k))
  }

  /** The trie that a set of rules gives rise to, whatever their order and multiplicity. */
  ghost predicate Represents(t: map<string, bool>, rules: set<string>) {
    forall k :: (k in t <==> IsKey(rules, k)) && (k in t ==> (t[k] <==> Stem(rules, k)))
  }

  // ---------------------------------------------------------------- order

  lemma {:induction false} StarFirst(v: string, x: string)
    requires Precedes(v, x) && x != v + "*"
    ensures !Leq(x, v + "*")
  {
    if v != "" {
      StarFirst(v[1..], x[1..]);
      assert (v + "*")[1..] == v[1..] + "*";
      assert x == [v[0]] + x[1..];
    } else if x[0] == '*' {
      assert x[1..] != "";
    }
  }

  lemma {:induction false} StarBound(v: string, x: string)
    requires v <= x && |v| < |x| && Leq(v + "*", x)
    ensures Precedes(v, x)
  {
    if v == "" {
    } else {
      assert (v + "*")[1..] == v[1..] + "*";
      StarBound(v[1..], x[1..]);
    }
  }

  lemma PrecedesThrough(u: string, v: string, x: string)
    requires Precedes(u, v) && v <= x
    ensures Precedes(u, x)
  {
  }

  lemma PrecedesBack(u: string, v: string, x: string)
    requires Precedes(u, x) && v <= x && |u| < |v|
    ensures Precedes(u, v)
  {
  }

  /** Of the stems that cover x, the shortest is a key. */
  lemma {:induction false} ShortestCover(rules: set<string>, x: string, v: string) returns (u: string)
    requires Stem(rules, v) && Precedes(v, x)
    ensures Stem(rules, u) && Precedes(u, x) && IsKey(rules, u) && u <= v
    decreases |v|
  {
    if Covered(rules, v) {
      var w :| Stem(rules, w) && Precedes(w, v);
      PrecedesThrough(w, v, x);
      u := ShortestCover(rules, x, w);
    } else {
      u := v;
    }
  }

  // ---------------------------------------------------------------- building

  /** No key that begins the rule reaches past the path it speaks of. */
  lemma KeyBelowRule(t: map<string, bool>, rules: set<string>, i: string, x: string, k: string)
    requires Represents(t, rules) && (forall r <- rules :: Leq(r, i))
    requires x != "" && (i == x + "*" || (i == x && !IsWildcard(x)))
    requires k in t && k <= i
    ensures k <= x
  {
    if |k| > |x| {
      assert k == x + "*" && IsWildcard(k);
      assert Stem(rules, k);
      PrefixLeq(i, k + "*");
      LeqAntisymmetric(i, k + "*");
    }
  }

  lemma LongerIsNoKey(t: map<string, bool>, rules: set<string>, i: string, x: string, u: string, k: string)
    requires Represents(t, rules) && (forall r <- rules :: Leq(r, i))
    requires x != "" && (i == x + "*" || (i == x && !IsWildcard(x)))
    requires Stem(rules, u) && Precedes(u, x) && u in t && k in t && k <= i && |u| <= |k|
    ensures k == u
  {
    KeyBelowRule(t, rules, i, x, k);
    if |u| < |k| {
      PrecedesBack(u, k, x);
    }
  }

  lemma WildIsRedundant(t: map<string, bool>, rules: set<string>, i: string, x: string, r: string)
    requires Represents(t, rules) && (forall r <- rules :: Leq(r, i))
    requires x != "" && (i == x + "*" || (i == x && !IsWildcard(x)))
    requires r in t && t[r] && r <= i
    ensures Covered(rules, x) || Stem(rules, x)
  {
    KeyBelowRule(t, rules, i, x, r);
    assert Stem(rules, r);
    if |r| < |x| {
      StarBound(r, i);
      assert Precedes(r, x);
    } else {
      assert r == x;
    }
  }

  lemma RedundantIsWild(t: map<string, bool>, rules: set<string>, i: string, x: string)
    requires Represents(t, rules) && (forall r <- rules :: Leq(r, i))
    requires x != "" && (i == x + "*" || (i == x && !IsWildcard(x)))
    requires Covered(rules, x) || Stem(rules, x)
    ensures var lp := LongestPrefix(t.Keys, i); lp.Some? && t[lp.value]
  {
    var lp := LongestPrefix(t.Keys, i);
    if Covered(rules, x) {
      var v :| Stem(rules, v) && Precedes(v, x);
      var u := ShortestCover(rules, x, v);
      assert u in t && t[u] && u <= i;
      LongerIsNoKey(t, rules, i, x, u, lp.value);
    } else {
      assert x in t && t[x] && x <= i;
      KeyBelowRule(t, rules, i, x, lp.value);
      assert lp.value == x;
    }
    hide LongestPrefix;
    hide Covered;
    hide Stem;
  }

  /** When a rule comes up, the longest prefix found for it is a wildcard exactly when the rule is
      redundant. Here i is the rule, x the path it speaks of. */
  lemma RedundantIsFound(t: map<string, bool>, rules: set<string>, i: string, x: string)
    requires Represents(t, rules) && (forall r <- rules :: Leq(r, i))
    requires x != "" && (i == x + "*" || (i == x && !IsWildcard(x)))
    ensures var lp := LongestPrefix(t.Keys, i);
            lp.Some? && t[lp.value] <==> Covered(rules, x) || Stem(rules, x)
  {
    var lp := LongestPrefix(t.Keys, i);
    if lp.Some? && t[lp.value] {
      WildIsRedundant(t, rules, i, x, lp.value);
    }
    if Covered(rules, x) || Stem(rules, x) {
      RedundantIsWild(t, rules, i, x);
    }
    hide LongestPrefix;
    hide Covered;
    hide Stem;
  }

  /** What one more rule, coming up in order, does to the trie. */
  function Enter(t: map<string, bool>, i: string): map<string, bool> {
    if i == "*" || i == "" then t
    else
      var lp := LongestPrefix(t.Keys, i);
      var wild := lp.Some? && t[lp.value];
      if i[|i| - 1] == '*' then (if wild then t else t[i[..|i| - 1] := true])
      else if !wild then t[i := false] else t
  }

  lemma EnterRepresents(t: map<string, bool>, rules: set<string>, i: string)
    requires Represents(t, rules) && (forall r <- rules :: Leq(r, i))
    ensures Represents(Enter(t, i), rules + {i})
  {
    if i == "*" || i == "" {
      SkippedRule(t, rules, i);
    } else if IsWildcard(i) {
      var x := i[..|i| - 1];
      assert i == x + "*";
      RedundantIsFound(t, rules, i, x);
      EnterWildcard(t, rules, i, x);
    } else {
      RedundantIsFound(t, rules, i, i);
      EnterLiteral(t, rules, i);
    }
  }

  lemma SkippedRule(t: map<string, bool>, rules: set<string>, i: string)
    requires Represents(t, rules) && (i == "*" || i == "")
    ensures Represents(t, rules + {i})
  {
    forall v ensures Stem(rules + {i}, v) <==> Stem(rules, v) {
      assert v != "" ==> |v + "*"| > 1;
    }
    forall k ensures IsKey(rules + {i}, k) <==> IsKey(rules, k) {
    }
  }

  lemma EnterWildcard(t: map<string, bool>, rules: set<string>, i: string, x: string)
    requires Represents(t, rules) && (forall r <- rules :: Leq(r, i)) && x != "" && i == x + "*"
    ensures Represents(if Covered(rules, x) || Stem(rules, x) then t else t[x := true], rules + {i})
  {
    var more := rules + {i};
    var t' := if Covered(rules, x) || Stem(rules, x) then t else t[x := true];
    forall k ensures (k in t' <==> IsKey(more, k)) && (k in t' ==> (t'[k] <==> Stem(more, k))) {
      assert Literal(more, k) <==> Literal(rules, k);
      assert Stem(more, k) <==> Stem(rules, k) || k == x by { StemAdded(rules, x, k); }
      CoveredAdded(rules, i, x, k);
    }
  }

  lemma StemAdded(rules: set<string>, x: string, v: string)
    requires x != ""
    ensures Stem(rules + {x + "*"}, v) <==> Stem(rules, v) || v == x
  {
    if v + "*" == x + "*" {
      assert v == (v + "*")[..|v|] && x == (x + "*")[..|x|];
    }
  }

  /** A later wildcard rule covers nothing that was a key before. */
  lemma CoveredAdded(rules: set<string>, i: string, x: string, k: string)
    requires (forall r <- rules :: Leq(r, i)) && x != "" && i == x + "*"
    ensures Covered(rules, k) ==> Covered(rules + {i}, k)
    ensures Covered(rules + {i}, k) && !Covered(rules, k) ==>
              Precedes(x, k) && !Covered(rules, x) && !Stem(rules, k) && !Literal(rules, k)
    ensures Covered(rules + {i}, x) <==> Covered(rules, x)
  {
    var more := rules + {i};
    forall v ensures Stem(more, v) <==> Stem(rules, v) || v == x { StemAdded(rules, x, v); }
    if Precedes(x, k) {
      if Covered(rules, x) {
        var u :| Stem(rules, u) && Precedes(u, x);
        PrecedesThrough(u, x, k);
      }
      if k != x + "*" {
        StarFirst(x, k);
      }
      StarFirst(x, k + "*");
    }
  }

  /** A literal rule makes no stem and covers nothing. */
  lemma LiteralAdded(rules: set<string>, i: string, k: string)
    requires i != "" && !IsWildcard(i)
    ensures Stem(rules + {i}, k) <==> Stem(rules, k)
    ensures Covered(rules + {i}, k) <==> Covered(rules, k)
    ensures Literal(rules + {i}, k) <==> Literal(rules, k) || k == i
  {
    forall v ensures Stem(rules + {i}, v) <==> Stem(rules, v) {
      if v != "" { assert IsWildcard(v + "*"); }
    }
    hide Precedes;
  }

  lemma EnterLiteral(t: map<string, bool>, rules: set<string>, i: string)
    requires Represents(t, rules) && (forall r <- rules :: Leq(r, i)) && i != "" && !IsWildcard(i)
    ensures Represents(if Covered(rules, i) || Stem(rules, i) then t else t[i := false], rules + {i})
  {
    var more := rules + {i};
    var t' := if Covered(rules, i) || Stem(rules, i) then t else t[i := false];
    forall k ensures (k in t' <==> IsKey(more, k)) && (k in t' ==> (t'[k] <==> Stem(more, k))) {
      LiteralAdded(rules, i, k);
      assert k in t <==> IsKey(rules, k);
      hide Stem;
      hide Literal;
      hide Covered;
    }
    hide IsKey;
    hide Stem;
    hide Literal;
    hide Covered;
  }

  method NewIgnoredRuleset(ig: seq<string>) returns (ir: IgnoredRuleset)
    ensures Represents(Trie(ir), Elements(ig))
    ensures ir.t.Some? ==> ir.t.value != map[]
  {
    if |ig| == 0 {
      EmptyRepresents({});
      return IgnoredRuleset(None);
    }
    var t: map<string, bool> := map[];
    var sorted := Sort(ig);
    EmptyRepresents({});
    assert Elements(sorted[..0]) == {};
    for n := 0 to |sorted|
      invariant Represents(t, Elements(sorted[..n]))
    {
      var i := sorted[n];
      assert Elements(sorted[..n + 1]) == Elements(sorted[..n]) + {i};
      EnterRepresents(t, Elements(sorted[..n]), i);
      ghost var entered := Enter(t, i);
      if i != "*" && i != "" {
        var lp := LongestPrefix(t.Keys, i);
        var wild := lp.Some? && t[lp.value];
        if i[|i| - 1] == '*' {
          if !(lp.Some? && wild) {
            t := t[i[..|i| - 1] := true];
          }
        } else if lp.None? || !wild {
          t := t[i := false];
        }
      }
      assert t == entered;
    }
    assert sorted[..|sorted|] == sorted;
    assert Elements(sorted) == Elements(ig) by {
      forall r ensures r in sorted <==> r in ig {
        assert r in multiset(sorted) <==> r in multiset(ig);
      }
    }
    ir := IgnoredRuleset(if |t| == 0 then None else Some(t));
  }

  lemma EmptyRepresents(rules: set<string>)
    requires rules == {}
    ensures Represents(map[], rules)
  {
  }

  function Trie(ir: IgnoredRuleset): map<string, bool> {
    if ir.t.Some? then ir.t.value else map[]
  }

  predicate IsIgnored(ir: IgnoredRuleset, path: string) {
    if path == "" || ir.t.None? then false
    else
      var lp := LongestPrefix(ir.t.value.Keys, path);
      lp.Some? && (ir.t.value[lp.value] || path == lp.value)
  }

  // ---------------------------------------------------------------- against the plain scan

  /** l hides every wildcard that matches the path: the path goes on past the literal rule l, and
      each matching wildcard has a shorter stem that l continues with a character sorting before '*'. */
  ghost predicate Hides(rules: set<string>, l: string, path: string) {
    && Literal(rules, l) && l <= path && |l| < |path|
    && forall v :: Stem(rules, v) && v <= path ==> |v| < |l| && l[|v|] < '*'
  }

  ghost predicate Hidden(rules: set<string>, path: string) {
    !Literal(rules, path) && exists l :: Hides(rules, l, path)
  }

  /** Where a stem begins the path, so does a wildcard key. */
  lemma WildKeyFor(t: map<string, bool>, rules: set<string>, v: string) returns (u: string)
    requires Represents(t, rules) && Stem(rules, v)
    ensures u in t && t[u] && u <= v && (u == v || Precedes(u, v))
  {
    if Covered(rules, v) {
      var w :| Stem(rules, w) && Precedes(w, v);
      u := ShortestCover(rules, v, w);
    } else {
      u := v;
    }
  }

  /** A key goes on past a wildcard key only with a character that sorts before '*'. */
  lemma KeyPastWildcard(t: map<string, bool>, rules: set<string>, u: string, k: string)
    requires Represents(t, rules) && u in t && t[u] && k in t && u <= k
    ensures |u| < |k| ==> k[|u|] < '*'
  {
    assert Stem(rules, u) && !Covered(rules, k);
    assert !Precedes(u, k);
  }

  /** On the way to a path that a wildcard key covers, the longest prefix found is that key. */
  lemma WildOnWay(t: map<string, bool>, rules: set<string>, u: string, path: string, lp: string)
    requires Represents(t, rules) && u in t && t[u] && Precedes(u, path) && lp in t && lp <= path && |u| <= |lp|
    ensures lp == u
  {
    KeyPastWildcard(t, rules, u, lp);
  }

  lemma LiteralIsIgnored(t: map<string, bool>, rules: set<string>, path: string)
    requires Represents(t, rules) && Literal(rules, path)
    ensures var lp := LongestPrefix(t.Keys, path); lp.Some? && (t[lp.value] || path == lp.value)
  {
    var lp := LongestPrefix(t.Keys, path);
    if Covered(rules, path) {
      var w :| Stem(rules, w) && Precedes(w, path);
      var u := ShortestCover(rules, path, w);
      assert u in t && t[u] && u <= path;
      WildOnWay(t, rules, u, path, lp.value);
    } else {
      assert path in t;
    }
    hide LongestPrefix;
    hide Stem;
  }

  /** Where the trie misses a wildcard that matches, the longest prefix it finds is to blame. */
  lemma MissIsHidden(t: map<string, bool>, rules: set<string>, path: string, l: string)
    requires Represents(t, rules) && LongestPrefix(t.Keys, path) == Some(l) && !t[l] && l != path
    ensures Hides(rules, l, path)
  {
    assert IsKey(rules, l) && !Stem(rules, l);
    forall v | Stem(rules, v) && v <= path ensures |v| < |l| && l[|v|] < '*' {
      var u := WildKeyFor(t, rules, v);
      assert u <= path && l <= path && |u| <= |l| && u != l;
      KeyPastWildcard(t, rules, u, l);
      assert |u| < |l| && path[|u|] == l[|u|];
    }
    hide LongestPrefix;
  }

  lemma FoundIsNotHidden(t: map<string, bool>, rules: set<string>, path: string, lp: string, l: string)
    requires Represents(t, rules) && LongestPrefix(t.Keys, path) == Some(lp) && t[lp]
    ensures !Hides(rules, l, path)
  {
    assert Stem(rules, lp) && lp <= path;
    if Literal(rules, l) && l <= path {
      if Covered(rules, l) {
        var v :| Stem(rules, v) && Precedes(v, l);
        assert v <= path && l[|v|] >= '*';
      } else {
        assert l in t;
      }
    }
    hide LongestPrefix;
  }

  /** For all rules and all paths: the trie answers as the plain scan does, except exactly on the
      paths where a literal rule hides the wildcards. */
  lemma TrieAgreesExactly(ir: IgnoredRuleset, rules: set<string>, path: string)
    requires Represents(Trie(ir), rules)
    ensures IsIgnored(ir, path) <==> Scan(rules, path) && !Hidden(rules, path)
  {
    var t := Trie(ir);
    if path != "" {
      var lp := LongestPrefix(t.Keys, path);
      assert IsIgnored(ir, path) <==> lp.Some? && (t[lp.value] || path == lp.value);
      if IsIgnored(ir, path) {
        if t[lp.value] {
          assert Stem(rules, lp.value);
          forall l ensures !Hides(rules, l, path) {
            FoundIsNotHidden(t, rules, path, lp.value, l);
          }
        } else {
          assert Literal(rules, path);
        }
      } else if Literal(rules, path) {
        LiteralIsIgnored(t, rules, path);
      } else if Scan(rules, path) {
        var v :| Stem(rules, v) && v <= path;
        var u := WildKeyFor(t, rules, v);
        assert u in t && u <= path;
        MissIsHidden(t, rules, path, lp.value);
      }
    }
  }

  /** No rule has a character that sorts before '*'. */
  predicate PlainRules(rules: set<string>) {
    forall r <- rules :: forall c <- r :: c >= '*'
  }

  /** The documented promise, for rules whose characters do not sort before '*'. */
  lemma TrieAgreesOnPlainRules(ir: IgnoredRuleset, rules: set<string>, path: string)
    requires Represents(Trie(ir), rules) && PlainRules(rules)
    ensures IsIgnored(ir, path) <==> Scan(rules, path)
  {
    TrieAgreesExactly(ir, rules, path);
    forall l, v | Stem(rules, v) && v <= path ensures !Hides(rules, l, path) {
      PlainHidesNothing(rules, l, v, path);
    }
  }

  lemma PlainHidesNothing(rules: set<string>, l: string, v: string, path: string)
    requires PlainRules(rules) && Stem(rules, v) && v <= path
    ensures !Hides(rules, l, path)
  {
    if l in rules && |v| < |l| {
      assert l[|v|] in l;
    }
  }

  lemma PlainKeys(rules: set<string>, k: string, n: nat)
    requires PlainRules(rules) && IsKey(rules, k) && n < |k|
    ensures k[n] >= '*'
  {
    assert k[n] in k && (k + "*")[n] in k + "*";
  }

  /** For such rules nothing redundant is kept: no key extends a wildcard key. */
  lemma NoKeyExtendsWildcard(t: map<string, bool>, rules: set<string>, u: string, k: string)
    requires Represents(t, rules) && PlainRules(rules) && u in t && t[u] && k in t && u <= k
    ensures u == k
  {
    KeyPastWildcard(t, rules, u, k);
    assert IsKey(rules, k);
    forall n | 0 <= n < |k| ensures k[n] >= '*' {
      PlainKeys(rules, k, n);
    }
  }

  /** Without that the trie can miss: "a*" says to ignore "a!b", and the rule "a!" hides it. */
  lemma LiteralHidesWildcard(ir: IgnoredRuleset)
    requires Represents(Trie(ir), {"a!", "a*"})
    ensures Scan({"a!", "a*"}, "a!b") && !IsIgnored(ir, "a!b")
  {
    var rules := {"a!", "a*"};
    TrieAgreesExactly(ir, rules, "a!b");
    assert "a" + "*" == "a*" && Stem(rules, "a") && "a" <= "a!b";
    assert Hides(rules, "a!", "a!b") by {
      forall v | Stem(rules, v) && v <= "a!b" ensures |v| < 2 && "a!"[|v|] < '*' {
        assert |v + "*"| == 2;
        assert |v| == 1;
      }
    }
  }

  // ---------------------------------------------------------------- and back

  method ToSlice(ir: IgnoredRuleset) returns (items: seq<string>)
    ensures Elements(items) == Written(Trie(ir)) && |items| <= |Trie(ir)|
  {
    var irlen := if ir.t.None? then 0 else |ir.t.value|;
    var t := Trie(ir);
    items := [];
    if irlen == 0 {
      return;
    }
    var keys := SortedSeq(t.Keys);
    for n := 0 to |keys|
      invariant Elements(items) == WrittenFor(t, Elements(keys[..n])) && |items| <= n
    {
      var k := keys[n];
      Taken(keys, n);
      OneMoreWritten(t, Elements(keys[..n]), k);
      if k != "" {
        Appended(items, Rule(k, t[k]));
        items := items + [if t[k] then k + "*" else k];
      }
      hide WrittenFor;
      hide Elements;
    }
    assert keys[..|keys|] == keys;
    ElementsOfDistinct(keys);
  }

  lemma Taken(keys: seq<string>, n: nat)
    requires n < |keys|
    ensures Elements(keys[..n + 1]) == Elements(keys[..n]) + {keys[n]} && keys[n] in Elements(keys)
  {
  }

  lemma Appended(items: seq<string>, x: string)
    ensures Elements(items + [x]) == Elements(items) + {x}
  {
  }

  function Rule(k: string, wild: bool): string {
    if wild then k + "*" else k
  }

  function WrittenFor(t: map<string, bool>, keys: set<string>): set<string> {
    set k | k in keys && k in t && k != "" :: Rule(k, t[k])
  }

  /** The rules that the keys of a trie stand for. */
  function Written(t: map<string, bool>): set<string> {
    WrittenFor(t, t.Keys)
  }

  lemma OneMoreWritten(t: map<string, bool>, keys: set<string>, k: string)
    requires k in t
    ensures WrittenFor(t, keys + {k}) == WrittenFor(t, keys) + if k == "" then {} else {Rule(k, t[k])}
  {
  }

  lemma StemsWritten(t: map<string, bool>, rules: set<string>, v: string)
    requires Represents(t, rules)
    ensures Stem(Written(t), v) <==> v in t && t[v]
  {
    if v in t && t[v] {
      assert Rule(v, true) in Written(t);
    }
    if Stem(Written(t), v) {
      var k :| k in t && k != "" && Rule(k, t[k]) == v + "*";
      if t[k] {
        assert k == Rule(k, true)[..|k|] && v == (v + "*")[..|v|];
      } else {
        assert !IsWildcard(k) && IsWildcard(v + "*");
      }
    }
  }

  lemma LiteralsWritten(t: map<string, bool>, rules: set<string>, l: string)
    requires Represents(t, rules)
    ensures Literal(Written(t), l) <==> l in t && !t[l]
  {
    if l in t && !t[l] {
      assert Literal(rules, l);
      assert Rule(l, false) in Written(t);
    }
  }

  /** The trie that is rebuilt from what a trie writes out is that trie. */
  lemma RewritingRepresents(t: map<string, bool>, rules: set<string>)
    requires Represents(t, rules)
    ensures Represents(t, Written(t))
  {
    forall k ensures (k in t <==> IsKey(Written(t), k)) && (k in t ==> (t[k] <==> Stem(Written(t), k))) {
      StemsWritten(t, rules, k);
      LiteralsWritten(t, rules, k);
      if Covered(Written(t), k) {
        var v :| Stem(Written(t), v) && Precedes(v, k);
        StemsWritten(t, rules, v);
        assert Stem(rules, v);
      }
      hide Stem;
      hide Literal;
      hide Written;
    }
    hide Stem;
    hide IsKey;
  }

  /** Rules that give rise to the same trie are interchangeable, and the trie is determined: so
      `NewIgnoredRuleset` undoes `ToSlice`, whatever the order or repetition of the rules. */
  lemma RoundTrip(ir: IgnoredRuleset, again: IgnoredRuleset, rules: set<string>, items: seq<string>)
    requires Represents(Trie(ir), rules) && (ir.t.Some? ==> ir.t.value != map[])
    requires Elements(items) == Written(Trie(ir))
    requires Represents(Trie(again), Elements(items)) && (again.t.Some? ==> again.t.value != map[])
    ensures again == ir
  {
    RewritingRepresents(Trie(ir), rules);
    assert forall k :: k in Trie(ir) <==> k in Trie(again);
    assert Trie(ir) == Trie(again);
  }
}
