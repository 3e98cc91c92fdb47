/** `getImportsAndConstraintsOf` (`gps/solver.go`): the packages an atom brings along and the
    dependencies it has, and what may be assumed of a world for them to make sense. */
module Requirements {
  import opened Wrappers
  import opened Strings
  import opened Versions
  import opened Bridge
  import opened ImportGroups

  /** An atom's package list, completed by the packages it reaches inside its project, and its
      dependencies, keyed by project root. */
  datatype Requirement = Requirement(pl: seq<string>, deps: map<ProjectRoot, CompleteDep>)

  function InsideSet(w: World, a: AtomWithPackages): set<string> {
    var rm := w.reach(a.a);
    Elements(a.pl) + set pkg, i | pkg in a.pl && pkg in rm && i in rm[pkg].inside :: i
  }

  function OutsideSet(w: World, a: AtomWithPackages): set<string> {
    var rm := w.reach(a.a);
    set pkg, ex | pkg in a.pl && !w.ignored(pkg) && pkg in rm && ex in rm[pkg].outside :: ex
  }

  /** Every listed package that is not ignored has a place in the reach map. */
  predicate AllReachable(w: World, a: AtomWithPackages) {
    forall pkg <- a.pl :: !w.ignored(pkg) ==> pkg in w.reach(a.a)
  }

  function Expanded(w: World, a: AtomWithPackages): seq<string> {
    if |InsideSet(w, a)| == |a.pl| then a.pl else SortedSeq(InsideSet(w, a))
  }

  /** None stands for an error. Never asked of the root project. */
  function Imports(w: World, a: AtomWithPackages): Option<Requirement> {
    var m := w.analysis(a.a);
    if m.None? || w.packages(a.a).None? || !AllReachable(w, a) then None
    else
      match Group(w, w.OverrideAll(m.value.constraints), SortedSeq(OutsideSet(w, a)))
      case None => None
      case Some(g) => Some(Requirement(Expanded(w, a), g.deps))
  }

  /** The root project's own dependencies, from its manifest and its import list. */
  function RootDeps(w: World): Option<map<ProjectRoot, CompleteDep>> {
    match Group(w, w.OverrideAll(w.rootManifest), w.rootImports)
    case None => None
    case Some(g) => Some(g.deps)
  }

  method GetImportsAndConstraintsOf(w: World, a: AtomWithPackages) returns (r: Option<Requirement>)
    ensures r == Imports(w, a)
  {
    hide InsideSet;
    hide OutsideSet;
    hide AllReachable;
    hide Group;
    var m := w.analysis(a.a);
    if m.None? { return None; }
    if w.packages(a.a).None? { return None; }
    var rm := w.reach(a.a);
    var inmap: set<string> := {};
    var exmap: set<string> := {};
    NothingReached(w, a);
    for i := 0 to |a.pl|
      invariant inmap == InsideSet(w, a.(pl := a.pl[..i]))
    {
      var pkg := a.pl[i];
      InsideSetStep(w, a, i);
      inmap := inmap + {pkg};
      if pkg in rm { inmap := inmap + Elements(rm[pkg].inside); }
    }
    assert a.pl[..|a.pl|] == a.pl;
    var pl := a.pl;
    if |inmap| != |a.pl| { pl := SortedSeq(inmap); }
    for i := 0 to |a.pl|
      invariant exmap == OutsideSet(w, a.(pl := a.pl[..i]))
      invariant AllReachable(w, a.(pl := a.pl[..i]))
    {
      var pkg := a.pl[i];
      OutsideSetStep(w, a, i);
      if w.ignored(pkg) { continue; }
      if pkg !in rm {
        StaysUnreachable(w, a, i);
        return None;
      }
      exmap := exmap + Elements(rm[pkg].outside);
    }
    var deps := w.OverrideAll(m.value.constraints);
    var cd := IntersectConstraintsWithImports(w, deps, SortedSeq(exmap));
    if cd.None? { return None; }
    return Some(Requirement(pl, cd.value));
  }

  lemma NothingReached(w: World, a: AtomWithPackages)
    ensures var none := a.(pl := a.pl[..0]);
            InsideSet(w, none) == {} && OutsideSet(w, none) == {} && AllReachable(w, none)
  {
  }

  lemma StaysUnreachable(w: World, a: AtomWithPackages, i: nat)
    requires i < |a.pl| && !w.ignored(a.pl[i]) && a.pl[i] !in w.reach(a.a)
    ensures !AllReachable(w, a)
  {
    assert a.pl[i] in a.pl;
  }

  lemma InsideSetStep(w: World, a: AtomWithPackages, i: nat)
    requires i < |a.pl|
    ensures InsideSet(w, a.(pl := a.pl[..i + 1])) ==
            InsideSet(w, a.(pl := a.pl[..i])) + {a.pl[i]} +
            (if a.pl[i] in w.reach(a.a) then Elements(w.reach(a.a)[a.pl[i]].inside) else {})
  {
    assert forall p :: p in a.pl[..i + 1] <==> p in a.pl[..i] || p == a.pl[i];
  }

  lemma OutsideSetStep(w: World, a: AtomWithPackages, i: nat)
    requires i < |a.pl|
    ensures OutsideSet(w, a.(pl := a.pl[..i + 1])) ==
            OutsideSet(w, a.(pl := a.pl[..i])) +
            (if !w.ignored(a.pl[i]) && a.pl[i] in w.reach(a.a) then Elements(w.reach(a.a)[a.pl[i]].outside) else {})
    ensures AllReachable(w, a.(pl := a.pl[..i + 1])) <==>
            AllReachable(w, a.(pl := a.pl[..i])) && (w.ignored(a.pl[i]) || a.pl[i] in w.reach(a.a))
  {
    assert forall p :: p in a.pl[..i + 1] <==> p in a.pl[..i] || p == a.pl[i];
  }

  // ---------------------------------------------------------------- a well-behaved world

  /** A reach map is transitively closed over the project, and skips ignored packages. */
  predicate ClosedAt(w: World, a: Atom, p: string) {
    var rm := w.reach(a);
    p in rm ==>
      && !w.ignored(p)
      && forall i <- rm[p].inside ::
           && i in rm
           && Elements(rm[i].inside) <= Elements(rm[p].inside)
           && Elements(rm[i].outside) <= Elements(rm[p].outside)
  }

  ghost predicate ReachClosed(w: World) {
    forall a, p :: ClosedAt(w, a, p)
  }

  /** What lies outside a project is not below its root. */
  ghost predicate OutsideIsForeign(w: World) {
    forall a, p | p in w.reach(a) :: forall ex <- w.reach(a)[p].outside :: !PathPrefix(a.id.root, ex)
  }

  ghost predicate DeductionIsAncestral(w: World) {
    forall ip :: w.deduce(ip).Some? ==> PathPrefix(w.deduce(ip).value, ip)
  }

  /** A constraint as manifests write them: not a pair, and admitting something. */
  predicate Proper(c: Constraint) {
    Writable(c) && c != Nothing
  }

  ghost predicate ConstraintsProper(w: World) {
    && (forall r <- w.overrides :: w.overrides[r].constraint.Some? ==> Proper(w.overrides[r].constraint.value))
    && (forall r <- w.rootManifest :: Proper(w.rootManifest[r].constraint))
    && (forall a | w.analysis(a).Some? :: forall r <- w.analysis(a).value.constraints ::
        Proper(w.analysis(a).value.constraints[r].constraint))
  }

  ghost predicate InUniverse(w: World, deps: map<ProjectRoot, CompleteDep>) {
    forall r <- deps :: forall p <- deps[r].pl :: (r, p) in w.universe
  }

  /** No two roots differ only by case. */
  ghost predicate FoldDistinct(w: World, deps: map<ProjectRoot, CompleteDep>) {
    forall r, s | r in deps && s in deps && w.fold(r) == w.fold(s) :: r == s
  }

  ghost predicate VersionsBounded(w: World) {
    forall id | w.versions(id).Some? :: |w.versions(id).value| <= w.maxVersions
  }

  ghost predicate Bounded(w: World) {
    && VersionsBounded(w)
    && (RootDeps(w).Some? ==> InUniverse(w, RootDeps(w).value) && FoldDistinct(w, RootDeps(w).value))
    && (forall a | Imports(w, a).Some? ::
          InUniverse(w, Imports(w, a).value.deps) && FoldDistinct(w, Imports(w, a).value.deps))
  }

  ghost predicate WellBehaved(w: World) {
    && ReachClosed(w) && OutsideIsForeign(w) && DeductionIsAncestral(w)
    && ConstraintsProper(w) && Bounded(w) && Distinct(w.rootImports)
  }

  // ---------------------------------------------------------------- what follows

  lemma ReachStep(w: World, a: Atom, q: string, i: string)
    requires ReachClosed(w) && q in w.reach(a) && i in w.reach(a)[q].inside
    ensures i in w.reach(a) && !w.ignored(q)
    ensures forall x <- w.reach(a)[i].inside :: x in w.reach(a)[q].inside
    ensures forall x <- w.reach(a)[i].outside :: x in w.reach(a)[q].outside
  {
    assert ClosedAt(w, a, q);
    assert forall x <- w.reach(a)[i].inside :: x in Elements(w.reach(a)[i].inside);
    assert forall x <- w.reach(a)[i].outside :: x in Elements(w.reach(a)[i].outside);
  }

  predicate GoodDep(w: World, r: ProjectRoot, dep: CompleteDep) {
    && dep.wc.ident.root == r
    && Proper(dep.wc.constraint)
    && dep.pl != [] && Distinct(dep.pl)
    && (forall p <- dep.pl :: (r, p) in w.universe)
  }

  lemma OverrideAllProper(w: World, pcm: map<ProjectRoot, Properties>, r: ProjectRoot)
    requires ConstraintsProper(w)
    requires forall s <- pcm :: Proper(pcm[s].constraint)
    ensures Keyed(w.OverrideAll(pcm))
    ensures Proper(ConstraintFor(w, w.OverrideAll(pcm), r).constraint)
    ensures Proper(ConstraintFor(w, map[], r).constraint)
  {
  }

  lemma ImportsGood(w: World, a: AtomWithPackages, r: ProjectRoot)
    requires WellBehaved(w) && Imports(w, a).Some? && r in Imports(w, a).value.deps
    ensures GoodDep(w, r, Imports(w, a).value.deps[r])
    ensures r != a.a.id.root
  {
    var known := w.OverrideAll(w.analysis(a.a).value.constraints);
    var reach := SortedSeq(OutsideSet(w, a));
    OverrideAllProper(w, w.analysis(a.a).value.constraints, r);
    GroupSensible(w, known, reach);
    var dep := Group(w, known, reach).value.deps[r];
    assert SensibleDep(w, reach, r, dep);
    hide Deduced;
    assert InUniverse(w, Imports(w, a).value.deps);
    var p := dep.pl[0];
    assert p in dep.pl;
    assert p in Elements(reach);
    var pkg :| pkg in a.pl && pkg in w.reach(a.a) && p in w.reach(a.a)[pkg].outside;
  }

  lemma RootDepsGood(w: World, r: ProjectRoot)
    requires WellBehaved(w) && RootDeps(w).Some? && r in RootDeps(w).value
    ensures GoodDep(w, r, RootDeps(w).value[r])
  {
    var known := w.OverrideAll(w.rootManifest);
    OverrideAllProper(w, w.rootManifest, r);
    GroupSensible(w, known, w.rootImports);
    assert SensibleDep(w, w.rootImports, r, RootDeps(w).value[r]);
    hide Deduced;
    assert InUniverse(w, RootDeps(w).value);
  }

  /** Expanding an atom's package list changes neither its dependencies nor whether they can
      be had: what `unselectLast` recomputes from the expanded list is what was pushed. */
  lemma ExpansionKeepsImports(w: World, a: AtomWithPackages)
    requires ReachClosed(w) && Imports(w, a).Some?
    ensures Imports(w, a.(pl := Expanded(w, a))).Some?
    ensures Imports(w, a.(pl := Expanded(w, a))).value.deps == Imports(w, a).value.deps
    ensures forall p <- a.pl :: p in Expanded(w, a)
  {
    var pl := Expanded(w, a);
    var b := a.(pl := pl);
    var rm := w.reach(a.a);
    assert forall p <- a.pl :: p in pl by {
      assert forall p <- a.pl :: p in InsideSet(w, a);
      assert forall p <- pl :: p in Elements(pl);
      assert forall p <- Elements(pl) :: p in pl;
    }
    forall p <- pl ensures p in a.pl || (p in rm && exists q :: q in a.pl && q in rm && p in rm[q].inside) {
      if p !in a.pl {
        assert p in Elements(pl) && p in InsideSet(w, a);
        var q :| q in a.pl && q in rm && p in rm[q].inside;
        ReachStep(w, a.a, q, p);
      }
    }
    assert OutsideSet(w, b) == OutsideSet(w, a) by {
      forall ex | ex in OutsideSet(w, b) ensures ex in OutsideSet(w, a) {
        var p :| p in pl && !w.ignored(p) && p in rm && ex in rm[p].outside;
        if p !in a.pl {
          var q :| q in a.pl && q in rm && p in rm[q].inside;
          ReachStep(w, a.a, q, p);
        }
      }
    }
  }

  /** An expanded list is complete: expanding it again adds no package. */
  lemma ExpansionIsClosed(w: World, a: AtomWithPackages, p: string, i: string)
    requires ReachClosed(w) && Distinct(a.pl)
    requires p in Expanded(w, a) && p in w.reach(a.a) && i in w.reach(a.a)[p].inside
    ensures i in Expanded(w, a)
  {
    var rm := w.reach(a.a);
    var s := InsideSet(w, a);
    assert i in s by {
      if p !in a.pl {
        assert p in Elements(Expanded(w, a));
        var q :| q in a.pl && q in rm && p in rm[q].inside;
        ReachStep(w, a.a, q, p);
      }
    }
    if |s| == |a.pl| {
      ElementsOfDistinct(a.pl);
      assert Elements(a.pl) <= s;
      SubsetOfEqualSize(Elements(a.pl), s);
      assert i in Elements(a.pl);
    } else {
      assert i in Elements(SortedSeq(s));
    }
  }

  lemma ExpansionIsIdempotent(w: World, a: AtomWithPackages)
    requires ReachClosed(w) && Distinct(a.pl)
    ensures Expanded(w, a.(pl := Expanded(w, a))) == Expanded(w, a)
  {
    var pl := Expanded(w, a);
    var b := a.(pl := pl);
    forall i | i in InsideSet(w, b) ensures i in Elements(pl) {
      if i !in pl {
        var p :| p in pl && p in w.reach(a.a) && i in w.reach(a.a)[p].inside;
        ExpansionIsClosed(w, a, p, i);
      }
    }
    assert InsideSet(w, b) == Elements(pl);
    ElementsOfDistinct(pl);
  }

  lemma SubsetOfEqualSize<T>(a: set<T>, b: set<T>)
    requires a <= b && |a| == |b|
    ensures a == b
  {
    assert |b - a| == |b| - |a|;
  }

  // ---------------------------------------------------------------- errors, and what is ignored

  /** An atom's dependencies cannot be had exactly when its manifest or its packages cannot be read, or a
      listed package that is not ignored reaches nothing, or an import cannot be placed. */
  lemma ImportsFailExactly(w: World, a: AtomWithPackages)
    ensures Imports(w, a).None? <==>
              || w.analysis(a.a).None? || w.packages(a.a).None?
              || (exists p <- a.pl :: !w.ignored(p) && p !in w.reach(a.a))
              || SomeUnplaceable(w, ManifestOf(w, a.a).Keys, SortedSeq(OutsideSet(w, a)))
  {
    hide Group;
    hide SomeUnplaceable;
    hide OutsideSet;
    hide Expanded;
    hide SortedSeq;
    var known := w.OverrideAll(ManifestOf(w, a.a));
    OverrideAllKeys(w, ManifestOf(w, a.a));
    hide World.OverrideAll;
    GroupFailsExactly(w, known, SortedSeq(OutsideSet(w, a)));
  }

  lemma OverrideAllKeys(w: World, listed: map<ProjectRoot, Properties>)
    ensures Keyed(w.OverrideAll(listed)) && w.OverrideAll(listed).Keys == listed.Keys
  {
  }

  /** The listed packages that are not ignored. */
  function Heeded(w: World, pl: seq<string>): seq<string> {
    if pl == [] then []
    else Heeded(w, pl[..|pl| - 1]) + if w.ignored(pl[|pl| - 1]) then [] else [pl[|pl| - 1]]
  }

  lemma {:induction false} HeededExactly(w: World, pl: seq<string>, p: string)
    ensures p in Heeded(w, pl) <==> p in pl && !w.ignored(p)
  {
    if pl == [] {
    } else {
      HeededExactly(w, pl[..|pl| - 1], p);
    }
  }

  /** Ignored packages bring in no dependency, and none is missing for them. */
  lemma IgnoredBringNothing(w: World, a: AtomWithPackages)
    ensures var b := a.(pl := Heeded(w, a.pl));
            (Imports(w, b).Some? <==> Imports(w, a).Some?)
            && (Imports(w, a).Some? ==> Imports(w, b).value.deps == Imports(w, a).value.deps)
  {
    var b := a.(pl := Heeded(w, a.pl));
    forall p ensures p in b.pl <==> p in a.pl && !w.ignored(p) { HeededExactly(w, a.pl, p); }
    assert OutsideSet(w, b) == OutsideSet(w, a);
    assert AllReachable(w, b) == AllReachable(w, a);
    hide Group;
    hide Expanded;
    hide SortedSeq;
    hide Heeded;
  }

  // ---------------------------------------------------------------- overrides are heeded

  /** What the manifest of an atom lists. */
  function ManifestOf(w: World, a: Atom): map<ProjectRoot, Properties> {
    match w.analysis(a) case None => map[] case Some(m) => m.constraints
  }

  /** Every dependency of the root project, and of every atom, carries the override's constraint and source
      where there are any. */
  lemma OverridesHeeded(w: World, r: ProjectRoot)
    requires r in w.overrides
    ensures RootDeps(w).Some? && r in RootDeps(w).value ==> Heeds(w.overrides[r], RootDeps(w).value[r].wc)
    ensures forall a | Imports(w, a).Some? && r in Imports(w, a).value.deps ::
              Heeds(w.overrides[r], Imports(w, a).value.deps[r].wc)
  {
    if RootDeps(w).Some? && r in RootDeps(w).value { DependencyDemands(w, w.rootManifest, w.rootImports, r); }
    forall a | Imports(w, a).Some? && r in Imports(w, a).value.deps
      ensures Heeds(w.overrides[r], Imports(w, a).value.deps[r].wc)
    {
      DependencyDemands(w, ManifestOf(w, a.a), SortedSeq(OutsideSet(w, a)), r);
    }
    hide Group;
    hide Deduced;
    hide World.OverrideAll;
    hide OutsideSet;
    hide Expanded;
  }

  predicate Heeds(o: Override, wc: WorkingConstraint) {
    && (o.constraint.Some? ==> wc.constraint == o.constraint.value)
    && (o.source != "" ==> wc.ident.source == o.source)
  }

  // ---------------------------------------------------------------- what the solver relies on

  /** A world together with the answers the solver keeps asking it for: what an atom requires
      and what the root depends on. The solver is proved for any answers that are good. */
  datatype Env = Env(w: World, imports: AtomWithPackages -> Option<Requirement>,
                     rootDeps: map<ProjectRoot, CompleteDep>)

  ghost function EnvOf(w: World): Env {
    Env(w, a => Imports(w, a), match RootDeps(w) case None => map[] case Some(deps) => deps)
  }

  ghost predicate GoodAt(env: Env, a: AtomWithPackages) {
    env.imports(a).Some? ==>
      var req := env.imports(a).value;
      var b := a.(pl := req.pl);
      && (forall r <- req.deps :: GoodDep(env.w, r, req.deps[r]) && r != a.a.id.root)
      && FoldDistinct(env.w, req.deps)
      && (forall p <- a.pl :: p in req.pl)
      && env.imports(b).Some? && env.imports(b).value.deps == req.deps
      && (Distinct(a.pl) ==> Distinct(req.pl) && env.imports(b).value.pl == req.pl)
  }

  ghost predicate GoodEnv(env: Env) {
    && (forall r <- env.rootDeps :: GoodDep(env.w, r, env.rootDeps[r]))
    && FoldDistinct(env.w, env.rootDeps)
    && (forall a {:trigger GoodAt(env, a)} :: GoodAt(env, a))
  }

  lemma EnvGoodAt(w: World, a: AtomWithPackages)
    requires WellBehaved(w)
    ensures GoodAt(EnvOf(w), a)
  {
    if Imports(w, a).Some? {
      var req := Imports(w, a).value;
      forall r <- req.deps ensures GoodDep(w, r, req.deps[r]) && r != a.a.id.root { ImportsGood(w, a, r); }
      ExpansionKeepsImports(w, a);
      if Distinct(a.pl) { ExpansionIsIdempotent(w, a); }
    }
  }

  /** A well-behaved world gives good answers. */
  lemma EnvGood(w: World)
    requires WellBehaved(w)
    ensures GoodEnv(EnvOf(w))
  {
    if RootDeps(w).Some? {
      forall r <- RootDeps(w).value ensures GoodDep(w, r, RootDeps(w).value[r]) { RootDepsGood(w, r); }
    }
    forall a ensures GoodAt(EnvOf(w), a) { EnvGoodAt(w, a); }
  }
}
