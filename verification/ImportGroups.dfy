/** `intersectConstraintsWithImports` (`gps/solver.go`): sorting reached packages into the
    projects they belong to, by longest-prefix search in a trie of known roots that grows
    with every root that has to be deduced. */
module ImportGroups {
  import opened Wrappers
  import opened Strings
  import opened Versions
  import opened Bridge

  /** `isPathPrefixOrEqual` (`gps/typed_radix.go`), asked only of literal prefixes. */
  predicate IsPathPrefixOrEqual(pre: string, path: string)
    requires |pre| <= |path|
  {
    if |path| == |pre| + 1 then false
    else |pre| == |path| || path[|pre|] == '/'
  }

  /** The trie of known roots and the map of dependencies built so far. */
  datatype Grouping = Grouping(known: map<ProjectRoot, WorkingConstraint>, deps: map<ProjectRoot, CompleteDep>)

  function Match(known: set<ProjectRoot>, rp: string): (r: Option<ProjectRoot>)
    ensures r.Some? ==> r.value in known && r.value <= rp
  {
    var lp := LongestPrefix(known, rp);
    if lp.Some? && IsPathPrefixOrEqual(lp.value, rp) then lp else None
  }

  function Step(w: World, g: Grouping, rp: string): Option<Grouping> {
    if w.stdlib(rp) then Some(g)
    else match Match(g.known.Keys, rp)
      case Some(pre) =>
        var wc := g.known[pre];
        var r := wc.ident.root;
        var dep := if r in g.deps then g.deps[r].(pl := g.deps[r].pl + [rp]) else CompleteDep(wc, [rp]);
        Some(g.(deps := g.deps[r := dep]))
      case None =>
        match w.deduce(rp)
        case None => None
        case Some(r) =>
          var wc := w.ApplyOverride(r, Properties("", Any));
          Some(Grouping(g.known[r := wc], g.deps[r := CompleteDep(wc, [rp])]))
  }

  /** The grouping after all of `reach`, in order. */
  function Group(w: World, known: map<ProjectRoot, WorkingConstraint>, reach: seq<string>): Option<Grouping> {
    if reach == [] then Some(Grouping(known, map[]))
    else
      match Group(w, known, reach[..|reach| - 1])
      case None => None
      case Some(g) => Step(w, g, reach[|reach| - 1])
  }

  method IntersectConstraintsWithImports(w: World, known: map<ProjectRoot, WorkingConstraint>, reach: seq<string>)
    returns (deps: Option<map<ProjectRoot, CompleteDep>>)
    ensures deps == match Group(w, known, reach) case None => None case Some(g) => Some(g.deps)
  {
    var xt := known;
    var dmap: map<ProjectRoot, CompleteDep> := map[];
    for i := 0 to |reach|
      invariant Group(w, known, reach[..i]) == Some(Grouping(xt, dmap))
    {
      var rp := reach[i];
      assert reach[..i + 1][..i] == reach[..i];
      GroupFailsEarly(w, known, reach, i + 1);
      if w.stdlib(rp) { continue; }
      var pre := LongestPrefix(xt.Keys, rp);
      if pre.Some? && IsPathPrefixOrEqual(pre.value, rp) {
        var dep := xt[pre.value];
        if dep.ident.root in dmap {
          var cdep := dmap[dep.ident.root];
          dmap := dmap[dep.ident.root := cdep.(pl := cdep.pl + [rp])];
        } else {
          dmap := dmap[dep.ident.root := CompleteDep(dep, [rp])];
        }
        continue;
      }
      var root := w.deduce(rp);
      if root.None? { return None; }
      var pd := w.ApplyOverride(root.value, Properties("", Any));
      xt := xt[root.value := pd];
      dmap := dmap[root.value := CompleteDep(pd, [rp])];
    }
    assert reach[..|reach|] == reach;
    deps := Some(dmap);
  }

  lemma {:induction false} GroupFailsEarly(w: World, known: map<ProjectRoot, WorkingConstraint>, reach: seq<string>,
                                           n: nat)
    requires n <= |reach|
    ensures Group(w, known, reach[..n]).None? ==> Group(w, known, reach).None?
    decreases |reach| - n
  {
    if n == |reach| {
      assert reach[..n] == reach;
    } else {
      assert reach[..n + 1][..n] == reach[..n];
      GroupFailsEarly(w, known, reach, n + 1);
    }
  }

  // ---------------------------------------------------------------- what holds in every world

  predicate Keyed(known: map<ProjectRoot, WorkingConstraint>) {
    forall r <- known :: known[r].ident.root == r
  }

  /** What the source manager promises of root deduction, for the packages at hand. */
  predicate DeducesAncestors(w: World, reach: seq<string>) {
    forall rp <- reach :: w.deduce(rp).Some? ==> PathPrefix(w.deduce(rp).value, rp)
  }

  /** The wording of the constraint a root ends up with: listed, or overridden, or open. */
  function ConstraintFor(w: World, known: map<ProjectRoot, WorkingConstraint>, r: ProjectRoot): WorkingConstraint {
    if r in known then known[r] else w.ApplyOverride(r, Properties("", Any))
  }

  /** The roots that grouping deduces: those of packages to which no root applies that is listed or was
      deduced before. */
  function Deduced(w: World, known: set<ProjectRoot>, reach: seq<string>): set<ProjectRoot> {
    if reach == [] then {}
    else
      var front, rp := Deduced(w, known, reach[..|reach| - 1]), reach[|reach| - 1];
      if w.stdlib(rp) || Match(known + front, rp).Some? || w.deduce(rp).None? then front
      else front + {w.deduce(rp).value}
  }

  /** The constraint that a dependency carries: the listed one, unless its root was deduced all the same. */
  function Carried(w: World, known: map<ProjectRoot, WorkingConstraint>, reach: seq<string>,
                   r: ProjectRoot): WorkingConstraint
  {
    ConstraintFor(w, if r in Deduced(w, known.Keys, reach) then map[] else known, r)
  }

  predicate SensiblePackages(w: World, reach: seq<string>, r: ProjectRoot, pl: seq<string>) {
    && pl != []
    && (forall p <- pl :: p in reach && !w.stdlib(p) && PathPrefix(r, p))
    && (Distinct(reach) ==> Distinct(pl))
  }

  predicate SensibleDep(w: World, reach: seq<string>, r: ProjectRoot, dep: CompleteDep) {
    dep.wc.ident.root == r && SensiblePackages(w, reach, r, dep.pl)
  }

  predicate Sensible(w: World, reach: seq<string>, g: Grouping) {
    Keyed(g.known) && forall r <- g.deps :: SensibleDep(w, reach, r, g.deps[r])
  }

  /** The trie holds the listed and the deduced roots, and every constraint is the one carried. */
  predicate Carries(w: World, known: map<ProjectRoot, WorkingConstraint>, reach: seq<string>, g: Grouping) {
    && g.known.Keys == known.Keys + Deduced(w, known.Keys, reach) && g.deps.Keys <= g.known.Keys
    && (forall r <- g.known :: g.known[r] == Carried(w, known, reach, r))
    && (forall r <- g.deps :: g.deps[r].wc == Carried(w, known, reach, r))
  }

  lemma PackagesExtend(w: World, front: seq<string>, rp: string, r: ProjectRoot, pl: seq<string>)
    requires SensiblePackages(w, front, r, pl)
    ensures SensiblePackages(w, front + [rp], r, pl)
    ensures !w.stdlib(rp) && PathPrefix(r, rp) ==> SensiblePackages(w, front + [rp], r, pl + [rp])
  {
    if Distinct(front + [rp]) {
      assert forall i | 0 <= i < |front| :: (front + [rp])[i] == front[i];
      assert Distinct(front);
      assert forall p <- front :: p != (front + [rp])[|front|];
    }
  }

  lemma FileSensible(w: World, front: seq<string>, rp: string, deps: map<ProjectRoot, CompleteDep>, r: ProjectRoot,
                     dep: CompleteDep)
    requires forall q <- deps :: SensibleDep(w, front, q, deps[q])
    requires SensibleDep(w, front + [rp], r, dep)
    ensures var deps' := deps[r := dep];
            forall q <- deps' :: SensibleDep(w, front + [rp], q, deps'[q])
  {
    forall q | q in deps && q != r ensures SensibleDep(w, front + [rp], q, deps[q]) {
      PackagesExtend(w, front, rp, q, deps[q].pl);
    }
  }

  lemma StepSensible(w: World, front: seq<string>, rp: string, g: Grouping)
    requires DeducesAncestors(w, [rp])
    requires Sensible(w, front, g) && Step(w, g, rp).Some?
    ensures Sensible(w, front + [rp], Step(w, g, rp).value)
  {
    var m := Match(g.known.Keys, rp);
    if w.stdlib(rp) {
      forall q | q in g.deps ensures SensibleDep(w, front + [rp], q, g.deps[q]) {
        PackagesExtend(w, front, rp, q, g.deps[q].pl);
      }
    } else {
      assert rp in front + [rp];
      var r := if m.Some? then m.value else w.deduce(rp).value;
      assert PathPrefix(r, rp) by { assert rp in [rp]; }
      if m.Some? && r in g.deps { PackagesExtend(w, front, rp, r, g.deps[r].pl); }
      FileSensible(w, front, rp, g.deps, r, Step(w, g, rp).value.deps[r]);
    }
  }

  lemma DeducedStep(w: World, known: set<ProjectRoot>, front: seq<string>, rp: string)
    ensures var before := Deduced(w, known, front);
            Deduced(w, known, front + [rp]) ==
            if w.stdlib(rp) || Match(known + before, rp).Some? || w.deduce(rp).None? then before
            else before + {w.deduce(rp).value}
  {
    assert (front + [rp])[..|front|] == front;
  }

  lemma CarriedRoot(w: World, known: map<ProjectRoot, WorkingConstraint>, reach: seq<string>, r: ProjectRoot)
    requires Keyed(known)
    ensures Carried(w, known, reach, r).ident.root == r
  {
    hide Deduced;
  }

  /** A step that deduces nothing keeps every constraint, */
  lemma FilingCarries(w: World, known: map<ProjectRoot, WorkingConstraint>, front: seq<string>, reach: seq<string>,
                      g: Grouping, r: ProjectRoot, pl: seq<string>)
    requires Carries(w, known, front, g) && Deduced(w, known.Keys, reach) == Deduced(w, known.Keys, front)
    requires r in g.known
    ensures Carries(w, known, reach, g)
    ensures Carries(w, known, reach, Grouping(g.known, g.deps[r := CompleteDep(g.known[r], pl)]))
  {
    hide Deduced;
    hide Carried;
    CarriedAlike(w, known, front, reach);
  }

  lemma CarriedAlike(w: World, known: map<ProjectRoot, WorkingConstraint>, front: seq<string>, reach: seq<string>)
    ensures forall q | q in Deduced(w, known.Keys, reach) <==> q in Deduced(w, known.Keys, front) ::
              Carried(w, known, reach, q) == Carried(w, known, front, q)
  {
    hide Deduced;
    hide ConstraintFor;
  }

  lemma CarriedOpen(w: World, known: map<ProjectRoot, WorkingConstraint>, reach: seq<string>, r: ProjectRoot)
    requires r in Deduced(w, known.Keys, reach)
    ensures Carried(w, known, reach, r) == w.ApplyOverride(r, Properties("", Any))
  {
    hide Deduced;
  }

  /** ... and one that deduces a root starts its dependency anew. */
  lemma DeducingCarries(w: World, known: map<ProjectRoot, WorkingConstraint>, front: seq<string>, reach: seq<string>,
                        g: Grouping, r: ProjectRoot, pl: seq<string>)
    requires Carries(w, known, front, g) && Deduced(w, known.Keys, reach) == Deduced(w, known.Keys, front) + {r}
    ensures var wc := w.ApplyOverride(r, Properties("", Any));
            Carries(w, known, reach, Grouping(g.known[r := wc], g.deps[r := CompleteDep(wc, pl)]))
  {
    hide Deduced;
    hide Carried;
    hide World.ApplyOverride;
    CarriedAlike(w, known, front, reach);
    CarriedOpen(w, known, reach, r);
  }

  lemma StepCarries(w: World, known: map<ProjectRoot, WorkingConstraint>, front: seq<string>, rp: string, g: Grouping)
    requires Keyed(known) && Carries(w, known, front, g) && Step(w, g, rp).Some?
    ensures Carries(w, known, front + [rp], Step(w, g, rp).value)
  {
    hide Deduced;
    hide World.ApplyOverride;
    var m := Match(g.known.Keys, rp);
    hide Match;
    assert g.known.Keys == known.Keys + Deduced(w, known.Keys, front);
    assert forall q <- g.known :: g.known[q] == Carried(w, known, front, q);
    assert forall q <- g.deps :: g.deps[q].wc == Carried(w, known, front, q) && q in g.known;
    DeducedStep(w, known.Keys, front, rp);
    if w.stdlib(rp) {
      assert forall q :: Carried(w, known, front + [rp], q) == Carried(w, known, front, q);
    } else if m.Some? {
      CarriedRoot(w, known, front, m.value);
      var pl := if m.value in g.deps then g.deps[m.value].pl + [rp] else [rp];
      hide Carried;
      hide Carries;
      FilingCarries(w, known, front, front + [rp], g, m.value, pl);
    } else {
      hide Carried;
      hide Carries;
      DeducingCarries(w, known, front, front + [rp], g, w.deduce(rp).value, [rp]);
    }
  }

  lemma {:induction false} GroupCarries(w: World, known: map<ProjectRoot, WorkingConstraint>, reach: seq<string>)
    requires Keyed(known) && Group(w, known, reach).Some?
    ensures Carries(w, known, reach, Group(w, known, reach).value)
  {
    if reach == [] {
    } else {
      var n := |reach| - 1;
      GroupCarries(w, known, reach[..n]);
      StepCarries(w, known, reach[..n], reach[n], Group(w, known, reach[..n]).value);
      assert reach == reach[..n] + [reach[n]];
    }
  }

  /** In any world whose deductions are ancestors: every dependency is filed under its own
      root, names only reached packages below that root, each once, and carries the listed
      constraint, or the open or overridden one where its root was not listed or was deduced. */
  lemma {:induction false} GroupSensible(w: World, known: map<ProjectRoot, WorkingConstraint>, reach: seq<string>)
    requires Keyed(known) && DeducesAncestors(w, reach)
    requires Group(w, known, reach).Some?
    ensures var g := Group(w, known, reach).value; Sensible(w, reach, g) && Carries(w, known, reach, g)
  {
    GroupCarries(w, known, reach);
    if reach == [] {
    } else {
      var n := |reach| - 1;
      GroupSensible(w, known, reach[..n]);
      StepSensible(w, reach[..n], reach[n], Group(w, known, reach[..n]).value);
      assert reach == reach[..n] + [reach[n]];
    }
    hide Carries;
  }

  /** A dependency carries the constraint that applies to its root exactly when no deduction lands on
      the root while it is listed, or the two constraints are the same. */
  lemma ListedStaysExactly(w: World, known: map<ProjectRoot, WorkingConstraint>, reach: seq<string>, r: ProjectRoot)
    requires Keyed(known) && Group(w, known, reach).Some? && r in Group(w, known, reach).value.deps
    ensures Group(w, known, reach).value.deps[r].wc == ConstraintFor(w, known, r) <==>
            !(r in known && r in Deduced(w, known.Keys, reach)) || known[r] == ConstraintFor(w, map[], r)
  {
    GroupCarries(w, known, reach);
    hide Group;
    hide Deduced;
  }

  // ---------------------------------------------------------------- what a dependency demands

  /** The source of a project: what the override says, if it says one, else what is listed. */
  function SourceOn(w: World, listed: map<ProjectRoot, Properties>, r: ProjectRoot): string {
    if r in w.overrides && w.overrides[r].source != "" then w.overrides[r].source
    else if r in listed then listed[r].source else ""
  }

  /** The constraint on a project: the override's, if it has one, else what is listed, else any. */
  function ConstraintOn(w: World, listed: map<ProjectRoot, Properties>, r: ProjectRoot): Constraint {
    if r in w.overrides && w.overrides[r].constraint.Some? then w.overrides[r].constraint.value
    else if r in listed then listed[r].constraint else Any
  }

  lemma ConstraintForExactly(w: World, listed: map<ProjectRoot, Properties>, r: ProjectRoot)
    ensures var wc := ConstraintFor(w, w.OverrideAll(listed), r);
            && wc.ident == ProjectIdentifier(r, SourceOn(w, listed, r)) && wc.constraint == ConstraintOn(w, listed, r)
            && (wc.overrNet <==> r in w.overrides && w.overrides[r].source != "")
            && (wc.overrConstraint <==> r in w.overrides && w.overrides[r].constraint.Some?)
  {
  }

  /** A known root is found for a package exactly when it is the longest known one that the package begins
      with, and the package is the root itself or goes on with a slash and at least one character more. */
  lemma MatchExactly(known: set<ProjectRoot>, rp: string, r: ProjectRoot)
    ensures Match(known, rp) == Some(r) <==>
              && r in known && r <= rp && (forall k <- known :: k <= rp ==> |k| <= |r|)
              && (rp == r || (|rp| > |r| + 1 && rp[|r|] == '/'))
  {
    var lp := LongestPrefix(known, rp);
    if lp.Some? && r <= rp && |r| == |lp.value| { assert r == rp[..|r|] == lp.value; }
  }

  /** Grouping fails exactly where some package is not standard, no root that is listed or was deduced
      before applies to it, and none can be deduced. */
  lemma {:induction false} GroupFailsExactly(w: World, known: map<ProjectRoot, WorkingConstraint>, reach: seq<string>)
    requires Keyed(known)
    ensures Group(w, known, reach).None? <==> SomeUnplaceable(w, known.Keys, reach)
  {
    hide Deduced;
    hide Match;
    hide Carried;
    if reach == [] {
    } else {
      var n := |reach| - 1;
      var front := reach[..n];
      GroupFailsExactly(w, known, front);
      forall k | 0 <= k < n ensures Unplaceable(w, known.Keys, reach, k) <==> Unplaceable(w, known.Keys, front, k) {
        assert front[..k] == reach[..k] && front[k] == reach[k];
      }
      if Group(w, known, front).Some? {
        GroupCarries(w, known, front);
        StepFails(w, Group(w, known, front).value, reach[n]);
        hide Carries;
        assert Group(w, known, reach).None? <==> Unplaceable(w, known.Keys, reach, n);
        hide Step;
      } else {
        var k :| 0 <= k < n && Unplaceable(w, known.Keys, front, k);
        assert Unplaceable(w, known.Keys, reach, k);
      }
      hide Unplaceable;
    }
  }

  lemma StepFails(w: World, g: Grouping, rp: string)
    ensures Step(w, g, rp).None? <==> !w.stdlib(rp) && Match(g.known.Keys, rp).None? && w.deduce(rp).None?
  {
    hide Match;
  }

  predicate SomeUnplaceable(w: World, known: set<ProjectRoot>, reach: seq<string>) {
    exists n | 0 <= n < |reach| :: Unplaceable(w, known, reach, n)
  }

  /** Nothing says where the n-th package belongs. */
  predicate Unplaceable(w: World, known: set<ProjectRoot>, reach: seq<string>, n: nat)
    requires n < |reach|
  {
    && !w.stdlib(reach[n]) && w.deduce(reach[n]).None?
    && Match(known + Deduced(w, known, reach[..n]), reach[n]).None?
  }

  /** Every dependency that grouping makes heeds the override of its project, and else what is listed for
      it, unless its root was deduced: then nothing is listed. */
  lemma DependencyDemands(w: World, listed: map<ProjectRoot, Properties>, reach: seq<string>, r: ProjectRoot)
    requires Group(w, w.OverrideAll(listed), reach).Some? && r in Group(w, w.OverrideAll(listed), reach).value.deps
    ensures var heeded := if r in Deduced(w, listed.Keys, reach) then map[] else listed;
            var wc := Group(w, w.OverrideAll(listed), reach).value.deps[r].wc;
            wc.ident == ProjectIdentifier(r, SourceOn(w, heeded, r)) && wc.constraint == ConstraintOn(w, heeded, r)
  {
    var known := w.OverrideAll(listed);
    assert known.Keys == listed.Keys && w.OverrideAll(map[]) == map[];
    GroupCarries(w, known, reach);
    ConstraintForExactly(w, listed, r);
    ConstraintForExactly(w, map[], r);
    hide Group;
    hide Deduced;
    hide SourceOn;
    hide ConstraintOn;
    hide ConstraintFor;
    hide World.OverrideAll;
  }

  // ---------------------------------------------------------------- disjoint roots

  ghost predicate IsRootAtHand(w: World, known: set<ProjectRoot>, reach: seq<string>, r: ProjectRoot) {
    r in known || exists rp <- reach :: !w.stdlib(rp) && w.deduce(rp) == Some(r)
  }

  /** Known and deduced roots are never above one another. */
  ghost predicate PrefixFree(w: World, known: set<ProjectRoot>, reach: seq<string>) {
    forall r, s | IsRootAtHand(w, known, reach, r) && IsRootAtHand(w, known, reach, s) && PathPrefix(r, s) :: r == s
  }

  predicate NoTrailingSlash(reach: seq<string>) {
    forall rp <- reach :: rp != "" ==> rp[|rp| - 1] != '/'
  }

  /** The root a package belongs to: a listed root above it, else the deduced one. */
  function Home(w: World, known: set<ProjectRoot>, rp: string): Option<ProjectRoot> {
    var m := Match(known, rp);
    if m.Some? then m else w.deduce(rp)
  }

  function PackagesOf(w: World, known: set<ProjectRoot>, reach: seq<string>, r: ProjectRoot): seq<string> {
    if reach == [] then []
    else
      var rp := reach[|reach| - 1];
      PackagesOf(w, known, reach[..|reach| - 1], r) +
      (if !w.stdlib(rp) && Home(w, known, rp) == Some(r) then [rp] else [])
  }

  lemma AncestorsNest(r: string, s: string, p: string)
    requires PathPrefix(r, p) && PathPrefix(s, p)
    ensures PathPrefix(r, s) || PathPrefix(s, r)
  {
    if |r| <= |s| {
      assert r == p[..|r|] && s == p[..|s|];
    } else {
      assert r == p[..|r|] && s == p[..|s|];
    }
  }

  lemma LongerPrefix(h: string, l: string, p: string)
    requires PathPrefix(h, p) && l <= p && |h| <= |l|
    ensures PathPrefix(h, l)
  {
    assert h == p[..|h|] && l == p[..|l|];
  }

  /** With disjoint roots, a longest-prefix search finds the one known root above a package. */
  lemma MatchFindsAncestor(keys: set<ProjectRoot>, h: ProjectRoot, rp: string)
    requires PathPrefix(h, rp)
    requires rp != "" ==> rp[|rp| - 1] != '/'
    requires forall k <- keys :: PathPrefix(k, h) || PathPrefix(h, k) ==> k == h
    ensures Match(keys, rp) == if h in keys then Some(h) else None
  {
    var l := LongestPrefix(keys, rp);
    if l.Some? {
      assert l.value == rp[..|l.value|] && h == rp[..|h|];
      if IsPathPrefixOrEqual(l.value, rp) { AncestorsNest(l.value, h, rp); }
      if |h| <= |l.value| { LongerPrefix(h, l.value, rp); }
    }
  }

  predicate HasMember(w: World, known: set<ProjectRoot>, reach: seq<string>, r: ProjectRoot) {
    exists rp <- reach :: !w.stdlib(rp) && Home(w, known, rp) == Some(r)
  }

  predicate TrieClassified(w: World, known: map<ProjectRoot, WorkingConstraint>, reach: seq<string>,
                           trie: map<ProjectRoot, WorkingConstraint>)
  {
    && (forall r <- known :: r in trie)
    && (forall r <- trie :: r in known || HasMember(w, known.Keys, reach, r))
    && (forall rp <- reach :: !w.stdlib(rp) && Home(w, known.Keys, rp).Some? ==> Home(w, known.Keys, rp).value in trie)
    && (forall r <- trie :: trie[r] == ConstraintFor(w, known, r))
  }

  ghost predicate DepsClassified(w: World, known: map<ProjectRoot, WorkingConstraint>, reach: seq<string>,
                                 deps: map<ProjectRoot, CompleteDep>)
  {
    && (forall r :: r in deps <==> PackagesOf(w, known.Keys, reach, r) != [])
    && (forall r <- deps :: deps[r] == CompleteDep(ConstraintFor(w, known, r), PackagesOf(w, known.Keys, reach, r)))
  }

  ghost predicate Classified(w: World, known: map<ProjectRoot, WorkingConstraint>, reach: seq<string>, g: Grouping) {
    && TrieClassified(w, known, reach, g.known)
    && DepsClassified(w, known, reach, g.deps)
  }

  /** What the theorem asks of the input: deductions are ancestors and always succeed where
      no listed root applies, and the roots at hand are disjoint. */
  ghost predicate Placeable(w: World, known: map<ProjectRoot, WorkingConstraint>, reach: seq<string>) {
    && Keyed(known) && DeducesAncestors(w, reach) && NoTrailingSlash(reach)
    && PrefixFree(w, known.Keys, reach)
    && (forall rp <- reach :: !w.stdlib(rp) ==> Home(w, known.Keys, rp).Some?)
  }

  /** The grouping theorem: with disjoint roots and every package placeable, grouping never
      fails, and files under each root exactly its packages, in input order, with the
      listed constraint if the root was listed and the overridden or open one otherwise. */
  lemma {:induction false} GroupClassifies(w: World, known: map<ProjectRoot, WorkingConstraint>, reach: seq<string>)
    requires Placeable(w, known, reach)
    ensures Group(w, known, reach).Some?
    ensures Classified(w, known, reach, Group(w, known, reach).value)
  {
    if reach == [] {
    } else {
      var n := |reach| - 1;
      assert forall p <- reach[..n] :: p in reach;
      PlaceablePart(w, known, reach, reach[..n]);
      GroupClassifies(w, known, reach[..n]);
      StepClassifies(w, known, reach, Group(w, known, reach[..n]).value);
    }
  }

  lemma PlaceablePart(w: World, known: map<ProjectRoot, WorkingConstraint>, reach: seq<string>, part: seq<string>)
    requires Placeable(w, known, reach) && forall p <- part :: p in reach
    ensures Placeable(w, known, part)
  {
    forall r, s | IsRootAtHand(w, known.Keys, part, r) && IsRootAtHand(w, known.Keys, part, s) && PathPrefix(r, s)
      ensures r == s
    {
      assert IsRootAtHand(w, known.Keys, reach, r) && IsRootAtHand(w, known.Keys, reach, s);
    }
  }

  /** One step, for a package whose home is h. */
  lemma StepAt(w: World, g: Grouping, rp: string, h: ProjectRoot)
    requires !w.stdlib(rp)
    requires Match(g.known.Keys, rp) == if h in g.known then Some(h) else None
    requires if h in g.known then g.known[h].ident.root == h else w.deduce(rp) == Some(h) && h !in g.deps
    ensures var trie := if h in g.known then g.known else g.known[h := w.ApplyOverride(h, Properties("", Any))];
            Step(w, g, rp) == Some(Grouping(trie,
              g.deps[h := if h in g.deps then CompleteDep(g.deps[h].wc, g.deps[h].pl + [rp])
                     else CompleteDep(trie[h], [rp])]))
  {
  }

  lemma FileHome(w: World, known: map<ProjectRoot, WorkingConstraint>, front: seq<string>, rp: string, g: Grouping,
                 h: ProjectRoot)
    requires Keyed(known) && Classified(w, known, front, g)
    requires !w.stdlib(rp) && Home(w, known.Keys, rp) == Some(h)
    requires Match(g.known.Keys, rp) == if h in g.known then Some(h) else None
    requires h !in g.known ==> w.deduce(rp) == Some(h) && h !in g.deps
    ensures Step(w, g, rp).Some?
    ensures Classified(w, known, front + [rp], Step(w, g, rp).value)
  {
    assert h in g.known ==> g.known[h] == ConstraintFor(w, known, h);
    StepAt(w, g, rp, h);
    var g' := Step(w, g, rp).value;
    TrieExtends(w, known, front, rp, g.known, g'.known);
    assert h in g.deps ==> g.deps[h].wc == ConstraintFor(w, known, h);
    assert g'.known[h] == ConstraintFor(w, known, h);
    assert g'.deps[h] == CompleteDep(ConstraintFor(w, known, h), (if h in g.deps then g.deps[h].pl else []) + [rp]);
    DepsExtend(w, known, front, rp, g.deps, g'.deps);
  }

  lemma StepClassifies(w: World, known: map<ProjectRoot, WorkingConstraint>, reach: seq<string>, g: Grouping)
    requires Placeable(w, known, reach) && reach != []
    requires Classified(w, known, reach[..|reach| - 1], g)
    ensures Step(w, g, reach[|reach| - 1]).Some?
    ensures Classified(w, known, reach, Step(w, g, reach[|reach| - 1]).value)
  {
    var n := |reach| - 1;
    var front, rp := reach[..n], reach[n];
    assert reach == front + [rp];
    if w.stdlib(rp) {
      TrieExtends(w, known, front, rp, g.known, g.known);
      DepsExtend(w, known, front, rp, g.deps, g.deps);
    } else {
      assert rp in reach;
      var h := Home(w, known.Keys, rp).value;
      HomeMatch(w, known, reach, g.known, rp);
      if h !in g.known { NotYetFiled(w, known, front, h); }
      FileHome(w, known, front, rp, g, h);
    }
  }

  lemma HomeMatch(w: World, known: map<ProjectRoot, WorkingConstraint>, reach: seq<string>,
                  trie: map<ProjectRoot, WorkingConstraint>, rp: string)
    requires Placeable(w, known, reach) && rp in reach && !w.stdlib(rp)
    requires TrieClassified(w, known, reach[..|reach| - 1], trie)
    ensures var h := Home(w, known.Keys, rp).value;
            && Match(trie.Keys, rp) == (if h in trie then Some(h) else None)
            && (h !in trie ==> w.deduce(rp) == Some(h))
  {
    var h := Home(w, known.Keys, rp).value;
    assert PathPrefix(h, rp);
    assert IsRootAtHand(w, known.Keys, reach, h);
    forall k <- trie ensures IsRootAtHand(w, known.Keys, reach, k) {
      if k !in known {
        var q :| q in reach[..|reach| - 1] && !w.stdlib(q) && Home(w, known.Keys, q) == Some(k);
        assert q in reach;
      }
    }
    MatchFindsAncestor(trie.Keys, h, rp);
  }

  lemma {:induction false} NotYetFiled(w: World, known: map<ProjectRoot, WorkingConstraint>, reach: seq<string>,
                                       r: ProjectRoot)
    requires !HasMember(w, known.Keys, reach, r)
    ensures PackagesOf(w, known.Keys, reach, r) == []
  {
    if reach == [] {
    } else {
      var n := |reach| - 1;
      assert forall p <- reach[..n] :: p in reach;
      assert reach[n] in reach;
      NotYetFiled(w, known, reach[..n], r);
    }
  }

  lemma TrieExtends(w: World, known: map<ProjectRoot, WorkingConstraint>, front: seq<string>, rp: string,
                    trie: map<ProjectRoot, WorkingConstraint>, trie': map<ProjectRoot, WorkingConstraint>)
    requires TrieClassified(w, known, front, trie)
    requires !w.stdlib(rp) ==> Home(w, known.Keys, rp).Some?
    requires trie' == if w.stdlib(rp) || Home(w, known.Keys, rp).value in trie then trie
                      else trie[Home(w, known.Keys, rp).value := ConstraintFor(w, known, Home(w, known.Keys, rp).value)]
    ensures TrieClassified(w, known, front + [rp], trie')
  {
    assert rp in front + [rp];
    assert forall p :: p in front + [rp] <==> p in front || p == rp;
    assert forall r :: HasMember(w, known.Keys, front, r) ==> HasMember(w, known.Keys, front + [rp], r) by {
      forall r | HasMember(w, known.Keys, front, r) ensures HasMember(w, known.Keys, front + [rp], r) {
        var q :| q in front && !w.stdlib(q) && Home(w, known.Keys, q) == Some(r);
        assert q in front + [rp];
      }
    }
  }

  lemma DepsExtend(w: World, known: map<ProjectRoot, WorkingConstraint>, front: seq<string>, rp: string,
                   deps: map<ProjectRoot, CompleteDep>, deps': map<ProjectRoot, CompleteDep>)
    requires DepsClassified(w, known, front, deps)
    requires !w.stdlib(rp) ==> Home(w, known.Keys, rp).Some?
    requires deps' == if w.stdlib(rp) then deps
                      else var h := Home(w, known.Keys, rp).value;
                           deps[h := CompleteDep(ConstraintFor(w, known, h),
                                                 (if h in deps then deps[h].pl else []) + [rp])]
    ensures DepsClassified(w, known, front + [rp], deps')
  {
    assert (front + [rp])[..|front|] == front;
  }

  /** A package is listed under a root exactly when it is reached and lives there. */
  lemma {:induction false} PackagesOfExact(w: World, known: set<ProjectRoot>, reach: seq<string>, r: ProjectRoot,
                                           p: string)
    ensures p in PackagesOf(w, known, reach, r) <==> p in reach && !w.stdlib(p) && Home(w, known, p) == Some(r)
  {
    if reach == [] {
    } else {
      var n := |reach| - 1;
      PackagesOfExact(w, known, reach[..n], r, p);
      assert p in reach <==> p in reach[..n] || p == reach[n];
    }
  }

  /** Every reached package lands in exactly one dependency. */
  lemma GroupPartitions(w: World, known: map<ProjectRoot, WorkingConstraint>, reach: seq<string>, p: string)
    requires Placeable(w, known, reach)
    requires p in reach && !w.stdlib(p)
    ensures Group(w, known, reach).Some?
    ensures var deps := Group(w, known, reach).value.deps;
            var h := Home(w, known.Keys, p).value;
            && h in deps && p in deps[h].pl && PathPrefix(h, p)
            && forall r <- deps :: p in deps[r].pl ==> r == h
  {
    GroupClassifies(w, known, reach);
    var deps := Group(w, known, reach).value.deps;
    var h := Home(w, known.Keys, p).value;
    PackagesOfExact(w, known.Keys, reach, h, p);
    forall r <- deps ensures p in deps[r].pl ==> r == h { PackagesOfExact(w, known.Keys, reach, r, p); }
  }

  // ---------------------------------------------------------------- overlapping roots

  predicate Placed(deps: map<ProjectRoot, CompleteDep>, p: string) {
    exists r <- deps :: p in deps[r].pl
  }

  predicate AllPlaced(w: World, reach: seq<string>, deps: map<ProjectRoot, CompleteDep>) {
    forall p <- reach :: !w.stdlib(p) ==> Placed(deps, p)
  }

  /** The step deduces a root that already has packages, and replaces them. */
  predicate StepOverwrites(w: World, g: Grouping, rp: string) {
    && !w.stdlib(rp) && Match(g.known.Keys, rp).None?
    && w.deduce(rp).Some? && w.deduce(rp).value in g.deps
  }

  predicate Overwrites(w: World, known: map<ProjectRoot, WorkingConstraint>, reach: seq<string>) {
    reach != [] &&
    var front := reach[..|reach| - 1];
    || Overwrites(w, known, front)
    || (Group(w, known, front).Some? && StepOverwrites(w, Group(w, known, front).value, reach[|reach| - 1]))
  }

  predicate FiledOnce(reach: seq<string>, deps: map<ProjectRoot, CompleteDep>) {
    && (forall r <- deps :: deps[r].pl != [] && forall p <- deps[r].pl :: p in reach)
    && (forall r, s, p | r in deps && s in deps && p in deps[r].pl && p in deps[s].pl :: r == s)
  }

  /** A step rewrites the dependency of one root: it keeps the packages there, unless it deduced
      the root anew, and adds one. */
  lemma StepRewrites(w: World, g: Grouping, rp: string) returns (r: ProjectRoot)
    requires Keyed(g.known) && !w.stdlib(rp) && Step(w, g, rp).Some?
    ensures var g' := Step(w, g, rp).value;
            && Keyed(g'.known) && r in g'.deps && g'.deps == g.deps[r := g'.deps[r]] && g'.deps[r].pl != []
            && (StepOverwrites(w, g, rp) ==> r in g.deps && forall p <- g'.deps[r].pl :: p == rp)
            && (forall p :: p in g'.deps[r].pl <==>
                p == rp || (!StepOverwrites(w, g, rp) && r in g.deps && p in g.deps[r].pl))
  {
    var m := Match(g.known.Keys, rp);
    r := if m.Some? then m.value else w.deduce(rp).value;
  }

  lemma StepPlaces(w: World, front: seq<string>, g: Grouping, rp: string)
    requires Keyed(g.known) && FiledOnce(front, g.deps) && rp !in front
    requires !w.stdlib(rp) && Step(w, g, rp).Some?
    ensures var g' := Step(w, g, rp).value;
            && Keyed(g'.known) && FiledOnce(front + [rp], g'.deps) && Placed(g'.deps, rp)
            && (!StepOverwrites(w, g, rp) ==> forall p | p != rp :: Placed(g'.deps, p) <==> Placed(g.deps, p))
            && (forall p | p != rp && Placed(g'.deps, p) :: Placed(g.deps, p))
            && (StepOverwrites(w, g, rp) ==> exists p <- front :: Placed(g.deps, p) && !Placed(g'.deps, p))
  {
    var g' := Step(w, g, rp).value;
    var r := StepRewrites(w, g, rp);
    hide Step;
    hide StepOverwrites;
    hide Keyed;
    if StepOverwrites(w, g, rp) {
      var p := g.deps[r].pl[0];
      assert p in g.deps[r].pl;
      assert p in front && Placed(g.deps, p) && !Placed(g'.deps, p);
    } else {
      forall p | p != rp && Placed(g.deps, p) ensures Placed(g'.deps, p) {
        var q :| q in g.deps && p in g.deps[q].pl;
        assert p in g'.deps[q].pl;
      }
    }
  }

  /** The promise to include every reached package is kept exactly when no deduction lands on
      a root that already has packages. */
  lemma {:induction false} LosslessExactly(w: World, known: map<ProjectRoot, WorkingConstraint>, reach: seq<string>)
    requires Keyed(known) && Distinct(reach) && Group(w, known, reach).Some?
    ensures var g := Group(w, known, reach).value;
            && Keyed(g.known) && FiledOnce(reach, g.deps)
            && (AllPlaced(w, reach, g.deps) <==> !Overwrites(w, known, reach))
  {
    if reach == [] {
    } else {
      var n := |reach| - 1;
      var front, rp := reach[..n], reach[n];
      assert reach == front + [rp];
      LosslessExactly(w, known, front);
      var g := Group(w, known, front).value;
      forall p | Placed(g.deps, p) ensures !w.stdlib(p) { FiledPackagesAreForeign(w, known, front, p); }
      LosslessStep(w, front, g, rp);
    }
    hide Step;
    hide StepOverwrites;
    hide FiledOnce;
    hide AllPlaced;
    hide Placed;
    hide Keyed;
  }

  lemma LosslessStep(w: World, front: seq<string>, g: Grouping, rp: string)
    requires Keyed(g.known) && FiledOnce(front, g.deps) && rp !in front && Step(w, g, rp).Some?
    requires forall p | Placed(g.deps, p) :: !w.stdlib(p)
    ensures var g' := Step(w, g, rp).value;
            && Keyed(g'.known) && FiledOnce(front + [rp], g'.deps)
            && (AllPlaced(w, front + [rp], g'.deps) <==>
                AllPlaced(w, front, g.deps) && !StepOverwrites(w, g, rp))
  {
    var g', reach := Step(w, g, rp).value, front + [rp];
    assert forall p :: p in reach <==> p in front || p == rp;
    if !w.stdlib(rp) {
      StepPlaces(w, front, g, rp);
      hide Step;
      hide FiledOnce;
      hide Keyed;
      hide Placed;
      if StepOverwrites(w, g, rp) {
        var p :| p in front && Placed(g.deps, p) && !Placed(g'.deps, p);
        assert p in reach;
      }
      hide StepOverwrites;
    }
  }


  lemma {:induction false} FiledPackagesAreForeign(w: World, known: map<ProjectRoot, WorkingConstraint>,
                                                   reach: seq<string>, p: string)
    requires Group(w, known, reach).Some? && Placed(Group(w, known, reach).value.deps, p)
    ensures !w.stdlib(p)
  {
    var n := |reach| - 1;
    var g := Group(w, known, reach[..n]).value;
    if !w.stdlib(reach[n]) && p == reach[n] {
    } else {
      assert Placed(g.deps, p);
      FiledPackagesAreForeign(w, known, reach[..n], p);
    }
  }

  /** A listed root that extends another as text but not as a path loses packages. */
  lemma OverlapLosesPackages(w: World, a: WorkingConstraint, b: WorkingConstraint)
    requires a.ident.root == "h/a" && b.ident.root == "h/a/b"
    requires !w.stdlib("h/a/x") && !w.stdlib("h/a/bc") && w.deduce("h/a/bc") == Some("h/a")
    ensures var known := map["h/a" := a, "h/a/b" := b];
            var reach := ["h/a/x", "h/a/bc"];
            && Keyed(known) && Distinct(reach) && Overwrites(w, known, reach)
            && Group(w, known, reach).Some? && !Placed(Group(w, known, reach).value.deps, "h/a/x")
  {
    var known := map["h/a" := a, "h/a/b" := b];
    var reach := ["h/a/x", "h/a/bc"];
    assert reach[..1] == ["h/a/x"] && reach[..1][..0] == [];
    assert "h/a" <= "h/a/x" by { assert "h/a/x"[..3] == "h/a"; }
    assert "h/a/x"[2] != "h/a/b"[4];
    assert !("h/a/b" <= "h/a/x") by { assert "h/a/b"[4] != "h/a/x"[4]; }
    assert Match(known.Keys, "h/a/x") == Some("h/a");
    assert "h/a/b" <= "h/a/bc" by { assert "h/a/bc"[..5] == "h/a/b"; }
    assert Match(known.Keys, "h/a/bc") == None;
    assert Group(w, known, []) == Some(Grouping(known, map[]));
    var g := Step(w, Grouping(known, map[]), "h/a/x").value;
    assert Group(w, known, reach[..1]) == Some(g);
    assert g.deps == map["h/a" := CompleteDep(a, ["h/a/x"])];
  }

  /** ... and its constraint is forgotten, even where no package is lost. */
  lemma OverlapDropsConstraint(w: World, a: WorkingConstraint, b: WorkingConstraint)
    requires a.ident.root == "h/a" && b.ident.root == "h/a/b"
    requires !w.stdlib("h/a/bc") && w.deduce("h/a/bc") == Some("h/a")
    ensures var known := map["h/a" := a, "h/a/b" := b];
            var g := Group(w, known, ["h/a/bc"]);
            && !Overwrites(w, known, ["h/a/bc"]) && "h/a" in Deduced(w, known.Keys, ["h/a/bc"])
            && g.Some? && g.value.deps == map["h/a" := CompleteDep(ConstraintFor(w, map[], "h/a"), ["h/a/bc"])]
  {
    var known := map["h/a" := a, "h/a/b" := b];
    assert ["h/a/bc"][..0] == [];
    assert "h/a/b" <= "h/a/bc" by { assert "h/a/bc"[..5] == "h/a/b"; }
    assert Match(known.Keys, "h/a/bc") == None;
    assert known.Keys + {} == known.Keys;
    assert Group(w, known, []) == Some(Grouping(known, map[])) && !Overwrites(w, known, []);
  }
}
