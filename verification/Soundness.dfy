/** What the solver's invariants mean for a caller: solutions are sound package by package,
    active constraints are always jointly satisfiable, and backtracking undoes exactly. */
module Soundness {
  import opened Wrappers
  import opened Strings
  import opened Versions
  import opened Bridge
  import opened ImportGroups
  import opened Requirements
  import opened Selection
  import opened SolverInvariant
  import opened SolverViews
  import opened SolverRuns
  import opened RunInvariant
  import opened Solver

  // ---------------------------------------------------------------- reachable states

  /** In every state the solver passes through, the active constraints on a project are
      jointly satisfiable: some version meets all of them. */
  lemma JointlySatisfiable(env: Env, projects: seq<Selected>, deps: Deps, folds: map<string, ProjectRoot>,
                           sl: seq<Bimodal>, r: ProjectRoot)
    returns (v: Version)
    requires GoodEnv(env) && Inv(env, projects, deps, folds, sl)
    ensures forall d <- On(deps, r) :: Matches(d.dep.wc.constraint, v)
  {
    var ds := On(deps, r);
    MirrorsGood(env, projects, deps, r);
    CompositeWritable(ds, |ds|);
    assert Satisfied(env.w, projects, deps, r);
    v := SomeVersion(Composite(ds, |ds|));
    CompositeSound(ds, |ds|, v);
  }

  /** ... and whenever the composite constraint rejects a version, some dependency is to blame,
      so the rejection marks a depender and not nobody. */
  lemma RejectionHasCulprit(env: Env, projects: seq<Selected>, deps: Deps, folds: map<string, ProjectRoot>,
                            sl: seq<Bimodal>, a: Atom)
    requires GoodEnv(env) && Inv(env, projects, deps, folds, sl)
    ensures AtomAllowable(deps, a) <==> Rejecting(On(deps, a.id.root), |On(deps, a.id.root)|, a.v) == []
  {
    var ds := On(deps, a.id.root);
    MirrorsGood(env, projects, deps, a.id.root);
    assert Satisfied(env.w, projects, deps, a.id.root);
    CompositeExact(ds, |ds|, a.v);
    RejectingExact(ds, |ds|, a.v);
  }

  lemma {:induction false} RejectingExact(ds: seq<Dependency>, n: nat, v: Version)
    requires n <= |ds|
    ensures Rejecting(ds, n, v) == [] <==> forall i | 0 <= i < n :: Matches(ds[i].dep.wc.constraint, v)
  {
    if n == 0 {
    } else {
      RejectingExact(ds, n - 1, v);
    }
  }

  /** Undo: two states with the same stack have the same dependencies on every project, in the
      same order, and the same fold table, however the solver got from one to the other. So any
      balanced run of selecting and unselecting restores them. */
  lemma Undo(env: Env, projects: seq<Selected>,
             deps: Deps, folds: map<string, ProjectRoot>, sl: seq<Bimodal>,
             deps': Deps, folds': map<string, ProjectRoot>, sl': seq<Bimodal>)
    requires Inv(env, projects, deps, folds, sl) && Inv(env, projects, deps', folds', sl')
    ensures forall r :: On(deps, r) == On(deps', r)
    ensures folds == folds'
  {
    forall r ensures On(deps, r) == On(deps', r) { MirrorsUnique(env, projects, deps, deps', r); }
    FoldMirrorsUnique(env.w, deps, deps', folds, folds');
  }

  /** No two projects that are depended on differ only by case. A selected project that nobody depends
      on any more has no entry in the fold table, and is not covered. */
  lemma ActiveRootsFoldApart(env: Env, projects: seq<Selected>, deps: Deps, folds: map<string, ProjectRoot>,
                             sl: seq<Bimodal>, r: ProjectRoot, s: ProjectRoot)
    requires Inv(env, projects, deps, folds, sl)
    requires On(deps, r) != [] && On(deps, s) != [] && env.w.fold(r) == env.w.fold(s)
    ensures r == s
  {
    assert folds[env.w.fold(r)] == r && folds[env.w.fold(s)] == s;
  }

  /** So it is in every state of every run: the active constraints have a common version, */
  lemma RunSatisfiable(env: Env, run: seq<State>, n: nat, r: ProjectRoot) returns (v: Version)
    requires GoodEnv(env) && IsRun(env, run) && n < |run|
    ensures forall d <- On(run[n].view.deps, r) :: Matches(d.dep.wc.constraint, v)
  {
    hide GoodEnv;
    hide IsRun;
    hide Inv;
    RunInOrder(env, run, n);
    var s := run[n];
    v := JointlySatisfiable(env, s.view.projects, s.view.deps, s.view.folds, s.sl, r);
  }

  /** ... and wherever a run comes back to a stack, it comes back to its dependencies and fold table. */
  lemma RunUndoes(env: Env, run: seq<State>, m: nat, n: nat)
    requires GoodEnv(env) && IsRun(env, run) && m < |run| && n < |run| && run[m].view.projects == run[n].view.projects
    ensures run[m].view.folds == run[n].view.folds
    ensures forall r :: On(run[m].view.deps, r) == On(run[n].view.deps, r)
  {
    hide GoodEnv;
    hide IsRun;
    hide Inv;
    RunInOrder(env, run, m);
    RunInOrder(env, run, n);
    var s, t := run[m], run[n];
    Undo(env, s.view.projects, s.view.deps, s.view.folds, s.sl, t.view.deps, t.view.folds, t.sl);
  }

  // ---------------------------------------------------------------- one version per project

  lemma SelectedAtBase(env: Env, projects: seq<Selected>, i: nat)
    requires WellStacked(env, projects) && 0 < i < |projects|
    ensures var r := projects[i].a.a.id.root;
            Base(projects, r).Some? && Base(projects, r).value.a.v == projects[i].a.a.v && !env.w.IsRoot(r)
  {
    hide Roots;
    var r := projects[i].a.a.id.root;
    assert StacksOn(env, projects[..i], projects[i]);
    var m := FirstIndex(projects, r);
    if m < i {
      var n := FirstIndex(projects[..i], r);
      assert projects[..i][m] == projects[m];
      assert n < i ==> projects[..i][n] == projects[n];
    }
  }

  // ---------------------------------------------------------------- reading a solution

  lemma {:induction false} SolutionExact(projects: seq<Selected>, n: nat, a: Atom, p: string)
    requires n <= |projects|
    ensures a in Solution(projects, n) <==> exists i | 0 < i < n :: projects[i].a.a == a
    ensures p in Packages(Solution(projects, n), a) <==>
            exists i | 0 < i < n :: projects[i].a.a == a && p in projects[i].a.pl
  {
    if n <= 1 {
    } else {
      SolutionExact(projects, n - 1, a, p);
      assert p in Elements(projects[n - 1].a.pl) <==> p in projects[n - 1].a.pl;
    }
  }

  /** A dependency on project r is met: some atom of the project has every package named, free of
      error, each of them is selected, and the constraint admits the version of every atom of it. */
  ghost predicate Meets(w: World, soln: map<Atom, set<string>>, r: ProjectRoot, dep: CompleteDep) {
    && (exists b <- soln :: b.id.root == r && Fits(w, dep, b))
    && (forall b <- soln | b.id.root == r :: Matches(dep.wc.constraint, b.v))
    && (forall p <- dep.pl :: exists b <- soln :: b.id.root == r && p in soln[b])
  }

  ghost predicate AllMet(w: World, soln: map<Atom, set<string>>, deps: map<ProjectRoot, CompleteDep>) {
    forall r <- deps | !w.IsRoot(r) :: Meets(w, soln, r, deps[r])
  }

  /** An import is in some dependency, on a project that it lies below. */
  predicate Provided(deps: map<ProjectRoot, CompleteDep>, ex: string) {
    exists r <- deps :: ex in deps[r].pl && PathPrefix(r, ex)
  }

  function KnownTo(w: World, a: Atom): map<ProjectRoot, WorkingConstraint> {
    w.OverrideAll(ManifestOf(w, a))
  }

  /** The package belongs to a completed list of selected packages whose dependencies, under the
      constraints they really carry, are met, and every import of the package is in one of them. */
  ghost predicate Accounted(w: World, soln: map<Atom, set<string>>, a: Atom, p: string, pl: seq<string>)
    requires a in soln && p in w.reach(a)
  {
    var awp := AtomWithPackages(a, pl);
    && p in pl && (forall q <- pl :: q in soln[a]) && Expanded(w, awp) == pl && Imports(w, awp).Some?
    && AllMet(w, soln, Imports(w, awp).value.deps)
    && forall ex <- w.reach(a)[p].outside :: !w.stdlib(ex) ==> Provided(Imports(w, awp).value.deps, ex)
  }

  ghost predicate PackageSound(w: World, soln: map<Atom, set<string>>, a: Atom, p: string)
    requires a in soln
  {
    && p in w.reach(a)
    && (forall i <- w.reach(a)[p].inside :: i in soln[a])
    && (exists pl :: Accounted(w, soln, a, p, pl))
  }

  /** A sound solution: one version per project, nothing for the root project, every selected
      package there, closed under imports inside its project and its imports out of it accounted
      for, and every dependency of the root project met, every import of it in one of them. */
  ghost predicate SoundSolution(w: World, soln: map<Atom, set<string>>) {
    && (forall a <- soln, b <- soln :: a.id.root == b.id.root ==> a.v == b.v)
    && (forall a <- soln :: !w.IsRoot(a.id.root))
    && (forall a <- soln, p <- soln[a] :: !w.ignored(p) ==> PackageSound(w, soln, a, p))
    && RootDeps(w).Some? && AllMet(w, soln, RootDeps(w).value)
    && (forall ex <- w.rootImports :: !w.stdlib(ex) ==> Provided(RootDeps(w).value, ex))
  }

  /** No grouping of imports overwrites packages; see `ImportGroups.LosslessExactly`. */
  ghost predicate Lossless(w: World) {
    && !Overwrites(w, w.OverrideAll(w.rootManifest), w.rootImports)
    && forall a | Imports(w, a).Some? :: !Overwrites(w, KnownTo(w, a.a), SortedSeq(OutsideSet(w, a)))
  }

  // ---------------------------------------------------------------- the theorem

  /** The version a project is selected at, in the solution. */
  lemma BaseInSolution(env: Env, projects: seq<Selected>, r: ProjectRoot)
    requires WellStacked(env, projects) && Base(projects, r).Some? && !env.w.IsRoot(r)
    ensures var soln, base := Solution(projects, |projects|), Base(projects, r).value.a;
            base in soln && base.id.root == r && forall b <- soln | b.id.root == r :: b.v == base.v
  {
    hide StacksOn;
    var soln, m := Solution(projects, |projects|), FirstIndex(projects, r);
    assert projects[0].a.a.id.root == env.w.rootRoot;
    SolutionExact(projects, |projects|, projects[m].a.a, "");
    forall b <- soln | b.id.root == r ensures b.v == projects[m].a.a.v {
      SolutionExact(projects, |projects|, b, "");
      var j :| 0 < j < |projects| && projects[j].a.a == b;
      SelectedAtBase(env, projects, j);
    }
    hide Solution;
  }

  /** A complete dependency of a stack, read off the solution. */
  lemma CompleteMeets(env: Env, projects: seq<Selected>, s: Selected, r: ProjectRoot)
    requires WellStacked(env, projects) && Complete(env, projects)
    requires s in projects && r in EdgesOf(env, s.a) && !env.w.IsRoot(r)
    ensures Meets(env.w, Solution(projects, |projects|), r, EdgesOf(env, s.a)[r])
  {
    hide EdgesOf;
    hide Fits;
    hide AmongSelected;
    hide Base;
    hide Solution;
    hide WellStacked;
    var soln, dep := Solution(projects, |projects|), EdgesOf(env, s.a)[r];
    var base := Base(projects, r).value.a;
    assert Fits(env.w, dep, base) && forall p <- dep.pl :: AmongSelected(projects, r, p);
    hide Complete;
    BaseInSolution(env, projects, r);
    FitsMatches(env.w, dep, base);
    forall p <- dep.pl ensures exists b <- soln :: b.id.root == r && p in soln[b] {
      AmongSolution(env, projects, r, p);
    }
  }

  lemma FitsMatches(w: World, dep: CompleteDep, a: Atom)
    requires Fits(w, dep, a)
    ensures Matches(dep.wc.constraint, a.v)
  {
  }

  lemma AmongSolution(env: Env, projects: seq<Selected>, r: ProjectRoot, p: string)
    requires WellStacked(env, projects) && AmongSelected(projects, r, p) && !env.w.IsRoot(r)
    ensures exists b <- Solution(projects, |projects|) :: b.id.root == r && p in Solution(projects, |projects|)[b]
  {
    var t :| t in projects && t.a.a.id.root == r && p in t.a.pl;
    var i :| 0 <= i < |projects| && projects[i] == t;
    assert projects[0].a.a.id.root == env.w.rootRoot;
    SolutionExact(projects, |projects|, t.a.a, p);
  }

  /** Grouping loses nothing, so every import is in some dependency. */
  lemma GroupedImport(w: World, known: map<ProjectRoot, WorkingConstraint>, reach: seq<string>, ex: string)
    requires WellBehaved(w) && Keyed(known) && Distinct(reach) && !Overwrites(w, known, reach)
    requires Group(w, known, reach).Some? && ex in reach && !w.stdlib(ex)
    ensures Provided(Group(w, known, reach).value.deps, ex)
  {
    LosslessExactly(w, known, reach);
    GroupSensible(w, known, reach);
    var deps := Group(w, known, reach).value.deps;
    assert Placed(deps, ex);
    var r :| r in deps && ex in deps[r].pl;
    assert SensibleDep(w, reach, r, deps[r]);
  }

  /** A selection's package is accounted for by the list it was selected with. */
  lemma SelectionAccounts(w: World, projects: seq<Selected>, s: Selected, p: string)
    requires WellBehaved(w) && Lossless(w)
    requires WellStacked(EnvOf(w), projects) && Complete(EnvOf(w), projects)
    requires s in projects && !w.IsRoot(s.a.a.id.root) && Imports(w, s.a).Some? && Expanded(w, s.a) == s.a.pl
    requires p in s.a.pl && !w.ignored(p) && p in w.reach(s.a.a)
    requires s.a.a in Solution(projects, |projects|)
    requires forall q <- s.a.pl :: q in Solution(projects, |projects|)[s.a.a]
    ensures Accounted(w, Solution(projects, |projects|), s.a.a, p, s.a.pl)
  {
    hide WellBehaved;
    hide WellStacked;
    hide Complete;
    hide Overwrites;
    hide Group;
    hide Meets;
    hide Expanded;
    hide Solution;
    var env, known, reach := EnvOf(w), KnownTo(w, s.a.a), SortedSeq(OutsideSet(w, s.a));
    var deps := Imports(w, s.a).value.deps;
    assert s.a == AtomWithPackages(s.a.a, s.a.pl);
    forall r <- deps | !w.IsRoot(r) ensures Meets(w, Solution(projects, |projects|), r, deps[r]) {
      CompleteMeets(env, projects, s, r);
    }
    forall ex | ex in w.reach(s.a.a)[p].outside && !w.stdlib(ex) ensures Provided(deps, ex) {
      assert ex in OutsideSet(w, s.a);
      assert ex in Elements(reach);
      GroupedImport(w, known, reach, ex);
    }
    hide Provided;
  }

  lemma RootAccounted(w: World, projects: seq<Selected>)
    requires WellBehaved(w) && Lossless(w) && RootDeps(w).Some?
    requires WellStacked(EnvOf(w), projects) && Complete(EnvOf(w), projects)
    ensures AllMet(w, Solution(projects, |projects|), RootDeps(w).value)
    ensures forall ex <- w.rootImports :: !w.stdlib(ex) ==> Provided(RootDeps(w).value, ex)
  {
    var env, deps := EnvOf(w), RootDeps(w).value;
    assert EdgesOf(env, projects[0].a) == deps && projects[0] in projects;
    forall r <- deps | !w.IsRoot(r) ensures Meets(w, Solution(projects, |projects|), r, deps[r]) {
      CompleteMeets(env, projects, projects[0], r);
    }
    forall ex <- w.rootImports | !w.stdlib(ex) ensures Provided(deps, ex) {
      GroupedImport(w, w.OverrideAll(w.rootManifest), w.rootImports, ex);
    }
    hide Meets;
    hide Provided;
    hide Group;
    hide Complete;
    hide WellBehaved;
  }

  /** The selection a solution's package comes from, with its expanded package list. */
  lemma StackEntry(w: World, projects: seq<Selected>, a: Atom, p: string) returns (s: Selected)
    requires WellStacked(EnvOf(w), projects) && p in Packages(Solution(projects, |projects|), a)
    ensures s in projects && s.a.a == a && p in s.a.pl && !w.IsRoot(a.id.root)
    ensures Imports(w, s.a).Some? && Expanded(w, s.a) == s.a.pl && Distinct(s.a.pl)
    ensures forall q <- s.a.pl :: q in Packages(Solution(projects, |projects|), a)
  {
    hide Group;
    hide Roots;
    SolutionExact(projects, |projects|, a, p);
    var i :| 0 < i < |projects| && projects[i].a.a == a && p in projects[i].a.pl;
    s := projects[i];
    assert StacksOn(EnvOf(w), projects[..i], s);
    forall q <- s.a.pl
      ensures q in Packages(Solution(projects, |projects|), a)
    {
      SolutionExact(projects, |projects|, a, q);
    }
  }

  lemma SelectedPackageSound(w: World, projects: seq<Selected>, a: Atom, p: string)
    requires WellBehaved(w) && Lossless(w)
    requires WellStacked(EnvOf(w), projects) && Complete(EnvOf(w), projects)
    requires a in Solution(projects, |projects|) && p in Solution(projects, |projects|)[a] && !w.ignored(p)
    ensures PackageSound(w, Solution(projects, |projects|), a, p)
  {
    assert ReachClosed(w);
    hide WellBehaved;
    hide ReachClosed;
    hide Lossless;
    hide WellStacked;
    hide Complete;
    hide Group;
    hide Accounted;
    hide Solution;
    var soln := Solution(projects, |projects|);
    var s := StackEntry(w, projects, a, p);
    forall j <- w.reach(a)[p].inside ensures j in soln[a] { ExpansionIsClosed(w, s.a, p, j); }
    SelectionAccounts(w, projects, s, p);
  }

  /** A complete stack is a sound solution. */
  lemma CompleteIsSound(w: World, projects: seq<Selected>)
    requires WellBehaved(w) && Lossless(w) && RootDeps(w).Some?
    requires WellStacked(EnvOf(w), projects) && Complete(EnvOf(w), projects)
    ensures SoundSolution(w, Solution(projects, |projects|))
  {
    var soln := Solution(projects, |projects|);
    forall a <- soln
      ensures Base(projects, a.id.root).Some? && Base(projects, a.id.root).value.a.v == a.v && !w.IsRoot(a.id.root)
    {
      SolutionExact(projects, |projects|, a, "");
      var i :| 0 < i < |projects| && projects[i].a.a == a;
      SelectedAtBase(EnvOf(w), projects, i);
    }
    forall a, p | a in soln && p in soln[a] && !w.ignored(p) ensures PackageSound(w, soln, a, p) {
      SelectedPackageSound(w, projects, a, p);
    }
    RootAccounted(w, projects);
  }

  /** Solving a well-behaved world: the run ends, what it calls solved is sound, it gives up only when
      every version queue has been popped, it dies only in a state that has no next one, and it is
      cancelled exactly when the context turns out to be done, the first time it does. */
  method SolveWorld(w: World, done: nat -> bool) returns (o: Outcome, ghost run: seq<State>, polls: nat)
    requires WellBehaved(w)
    ensures o.Cancelled? <==> polls > 0 && done(polls - 1)
    ensures forall n | 0 <= n < polls - 1 :: !done(n)
    ensures if o.Unsolvable? then |run| - 1 <= polls <= |run| else polls == |run|
    ensures o.Solved? && Lossless(w) ==> SoundSolution(w, o.projs)
    ensures o.Solved? ==>
      && IsRun(EnvOf(w), run) && Last(run).mode == Choosing && Last(run).sl == []
      && WellStacked(EnvOf(w), Last(run).view.projects) && Complete(EnvOf(w), Last(run).view.projects)
      && o.projs == Solution(Last(run).view.projects, |Last(run).view.projects|)
    ensures o.Cancelled? ==> IsRun(EnvOf(w), run)
    ensures o.Unsolvable? ==> IsRun(EnvOf(w), run) && GivesUp(Last(run))
    ensures o.Crashed? && o.c == RootUndeducible ==> RootDeps(w).None?
    ensures o.Crashed? && o.c != RootUndeducible ==> IsRun(EnvOf(w), run) && Dies(Last(run), o.c)
    ensures o.Crashed? && o.c == EmptyVersionQueue ==> exists id :: w.versions(id) == Some([])
    ensures o.Crashed? && o.c == RootRechecked ==> RootDeps(w).Some? && w.rootRoot in RootDeps(w).value
  {
    hide WellStacked;
    hide Complete;
    hide Dies;
    hide IsRun;
    hide SoundSolution;
    hide Lossless;
    var s := new Solver(w, done);
    o, run, polls := s.Solve();
    if o.Solved? && Lossless(w) {
      CompleteIsSound(w, s.sel.projects);
    }
  }

  // ---------------------------------------------------------------- listed constraints bind

  /** Every import that some package of an atom has outside its project. */
  function AllImports(w: World, a: Atom): seq<string> {
    SortedSeq(OutsideSet(w, AtomWithPackages(a, SortedSeq(w.reach(a).Keys))))
  }

  lemma AmongAllImports(w: World, a: Atom, pl: seq<string>)
    ensures forall ex <- SortedSeq(OutsideSet(w, AtomWithPackages(a, pl))) :: ex in AllImports(w, a)
  {
    var whole := AtomWithPackages(a, SortedSeq(w.reach(a).Keys));
    forall ex <- SortedSeq(OutsideSet(w, AtomWithPackages(a, pl))) ensures ex in AllImports(w, a) {
      assert ex in Elements(SortedSeq(OutsideSet(w, AtomWithPackages(a, pl))));
      var pkg :| pkg in pl && !w.ignored(pkg) && pkg in w.reach(a) && ex in w.reach(a)[pkg].outside;
      assert pkg in Elements(whole.pl);
      assert ex in OutsideSet(w, whole);
      assert ex in Elements(AllImports(w, a));
    }
    hide SortedSeq;
  }

  /** What a met dependency means for one import: some atom has the package, some selects it, and every
      version of the project is admitted by the override's constraint, or by the listed one where no
      override has any. */
  ghost predicate Binds(w: World, soln: map<Atom, set<string>>, listed: map<ProjectRoot, Properties>, ex: string) {
    && Home(w, listed.Keys, ex).Some?
    && var r := Home(w, listed.Keys, ex).value;
       !w.IsRoot(r) ==>
         && (exists b <- soln :: b.id.root == r && Offers(w, b, ex))
         && (exists b <- soln :: b.id.root == r && ex in soln[b])
         && (forall b <- soln | b.id.root == r :: Matches(ConstraintOn(w, listed, r), b.v))
  }

  /** The package is among those listed for the atom, without error. */
  predicate Offers(w: World, b: Atom, p: string) {
    w.packages(b).Some? && p in w.packages(b).value && w.packages(b).value[p]
  }

  lemma OffersExactly(w: World, b: Atom, p: string)
    requires !w.IsRoot(b.id.root)
    ensures w.HasPackage(b, p) <==> Offers(w, b, p)
  {
  }

  lemma GroupBinds(w: World, soln: map<Atom, set<string>>, listed: map<ProjectRoot, Properties>, reach: seq<string>,
                   ex: string)
    requires var known := w.OverrideAll(listed);
             Placeable(w, known, reach) && Group(w, known, reach).Some?
             && AllMet(w, soln, Group(w, known, reach).value.deps)
    requires ex in reach && !w.stdlib(ex)
    ensures Binds(w, soln, listed, ex)
  {
    var known := w.OverrideAll(listed);
    assert known.Keys == listed.Keys;
    GroupClassifies(w, known, reach);
    var deps, r := Group(w, known, reach).value.deps, Home(w, known.Keys, ex).value;
    PackagesOfExact(w, known.Keys, reach, r, ex);
    ConstraintForExactly(w, listed, r);
    hide Group;
    hide Placeable;
    hide Home;
    hide PackagesOf;
    hide World.HasPackage;
    hide World.OverrideAll;
    assert r in deps && ex in deps[r].pl && deps[r].wc == ConstraintFor(w, known, r);
    if !w.IsRoot(r) {
      assert Meets(w, soln, r, deps[r]);
      forall b <- soln | b.id.root == r ensures w.HasPackage(b, ex) <==> Offers(w, b, ex) { OffersExactly(w, b, ex); }
    }
    hide ConstraintFor;
    hide ConstraintOn;
    hide Offers;
  }

  /** In a sound solution every import of the root project is of a project whose versions the root's
      manifest admits, overrides heeded, where listed and deduced roots are not above one another. */
  lemma RootConstraintsBind(w: World, soln: map<Atom, set<string>>, ex: string)
    requires SoundSolution(w, soln) && ex in w.rootImports && !w.stdlib(ex)
    requires Placeable(w, w.OverrideAll(w.rootManifest), w.rootImports)
    ensures Binds(w, soln, w.rootManifest, ex)
  {
    GroupBinds(w, soln, w.rootManifest, w.rootImports, ex);
    hide Group;
    hide Placeable;
    hide PackageSound;
    hide Binds;
  }

  /** ... and every import of a selected package is of a project whose versions the manifest of the
      package's own project admits. */
  lemma ListedConstraintsBind(w: World, soln: map<Atom, set<string>>, a: Atom, p: string, ex: string)
    requires SoundSolution(w, soln) && a in soln && p in soln[a] && !w.ignored(p)
    requires ex in w.reach(a)[p].outside && !w.stdlib(ex)
    requires Placeable(w, KnownTo(w, a), AllImports(w, a))
    ensures Binds(w, soln, ManifestOf(w, a), ex)
  {
    assert PackageSound(w, soln, a, p);
    hide SoundSolution;
    hide Placeable;
    hide Binds;
    hide Accounted;
    hide AllImports;
    var pl :| Accounted(w, soln, a, p, pl);
    AccountedBinds(w, soln, a, p, pl, ex);
  }

  lemma AccountedBinds(w: World, soln: map<Atom, set<string>>, a: Atom, p: string, pl: seq<string>, ex: string)
    requires a in soln && p in w.reach(a) && Accounted(w, soln, a, p, pl) && !w.ignored(p)
    requires ex in w.reach(a)[p].outside && !w.stdlib(ex)
    requires Placeable(w, KnownTo(w, a), AllImports(w, a))
    ensures Binds(w, soln, ManifestOf(w, a), ex)
  {
    hide Placeable;
    hide Binds;
    hide Group;
    hide AllMet;
    hide Provided;
    hide Expanded;
    hide AllImports;
    hide World.OverrideAll;
    var awp := AtomWithPackages(a, pl);
    var reach := SortedSeq(OutsideSet(w, awp));
    assert ex in OutsideSet(w, awp);
    hide OutsideSet;
    assert ex in Elements(reach);
    AmongAllImports(w, a, pl);
    PlaceablePart(w, KnownTo(w, a), AllImports(w, a), reach);
    GroupBinds(w, soln, ManifestOf(w, a), reach, ex);
  }

  /** Where roots overlap, the constraint that the root project has on another binds all the same, though
      what is listed counts only if its root is not deduced. */
  lemma RootConstraintBinds(w: World, soln: map<Atom, set<string>>, r: ProjectRoot, b: Atom)
    requires SoundSolution(w, soln) && r in RootDeps(w).value && b in soln && b.id.root == r
    ensures Matches(ConstraintOn(w, if r in Deduced(w, w.rootManifest.Keys, w.rootImports) then map[]
                                 else w.rootManifest,
                                 r), b.v)
  {
    hide PackageSound;
    hide Deduced;
    DependencyDemands(w, w.rootManifest, w.rootImports, r);
    assert Meets(w, soln, r, RootDeps(w).value[r]);
    hide Group;
    hide Fits;
    hide ConstraintOn;
  }

  /** An override's constraint binds whatever else there is: it admits every atom of its project in the
      solution of a complete stack, if any selection, or the root, depends on the project. */
  lemma OverrideBinds(w: World, projects: seq<Selected>, s: Selected, r: ProjectRoot, b: Atom)
    requires WellStacked(EnvOf(w), projects) && Complete(EnvOf(w), projects)
    requires s in projects && r in EdgesOf(EnvOf(w), s.a) && b in Solution(projects, |projects|) && b.id.root == r
    requires r in w.overrides && w.overrides[r].constraint.Some?
    ensures Matches(w.overrides[r].constraint.value, b.v)
  {
    SolutionExact(projects, |projects|, b, "");
    var i :| 0 < i < |projects| && projects[i].a.a == b;
    SelectedAtBase(EnvOf(w), projects, i);
    CompleteMeets(EnvOf(w), projects, s, r);
    OverridesHeeded(w, r);
    hide WellStacked;
    hide Complete;
    hide Solution;
    hide Fits;
    hide Imports;
    hide RootDeps;
  }

  /** So a solution with a version that a listed constraint rejects is not sound. */
  lemma ViolationIsUnsound(w: World, soln: map<Atom, set<string>>, ex: string, b: Atom)
    requires Placeable(w, w.OverrideAll(w.rootManifest), w.rootImports) && ex in w.rootImports && !w.stdlib(ex)
    requires b in soln && Home(w, w.rootManifest.Keys, ex) == Some(b.id.root)
    requires !Matches(ConstraintOn(w, w.rootManifest, b.id.root), b.v)
    ensures !SoundSolution(w, soln)
  {
    hide Placeable;
    hide Home;
    if SoundSolution(w, soln) { RootConstraintsBind(w, soln, ex); }
    hide PackageSound;
    hide ConstraintOn;
  }

  // ---------------------------------------------------------------- such worlds exist

  /** A project that imports one package of another. */
  function OneImport(): World {
    World(
      "r", map[], ["x/y"], map[], [], map[], map[], {}, false,
      id => Some(true), id => Some(false), id => Some([Revision("v")]),
      a => Some(Analysis(map[], None)), a => Some(map["x/y" := true]), a => map["x/y" := Reached(["x/y"], [])],
      (id, r) => true,
      p => if p == "x/y" then Some("x") else None, p => false, p => false, p => p,
      {("x", "x/y")}, 1)
  }

  lemma NothingToGroup(w: World, known: map<ProjectRoot, WorkingConstraint>)
    ensures Group(w, known, []) == Some(Grouping(known, map[])) && !Overwrites(w, known, [])
  {
  }

  lemma OneImportGroups()
    ensures var w := OneImport();
            var known := w.OverrideAll(w.rootManifest);
            && known == map[] && !Overwrites(w, known, ["x/y"]) && RootDeps(w).Some?
            && RootDeps(w).value ==
               map["x" := CompleteDep(WorkingConstraint(ProjectIdentifier("x", ""), Any, false, false), ["x/y"])]
  {
    var w := OneImport();
    assert w.OverrideAll(w.rootManifest) == map[];
    assert ["x/y"][..0] == [];
    NothingToGroup(w, map[]);
    assert Match({}, "x/y") == None;
    assert Step(w, Grouping(map[], map[]), "x/y").Some?;
  }

  /** No package there imports anything from elsewhere. */
  lemma OneImportReaches(a: AtomWithPackages)
    ensures var w := OneImport();
            && SortedSeq(OutsideSet(w, a)) == [] && !Overwrites(w, KnownTo(w, a.a), [])
            && (Imports(w, a).Some? ==> Imports(w, a).value.deps == map[])
  {
    var w := OneImport();
    assert OutsideSet(w, a) == {};
    assert Elements(SortedSeq({})) == {};
    assert SortedSeq({}) == [];
    NothingToGroup(w, KnownTo(w, a.a));
    hide SortedSeq;
  }

  lemma OneImportIsPlain()
    ensures var w := OneImport();
            ReachClosed(w) && OutsideIsForeign(w) && DeductionIsAncestral(w) && ConstraintsProper(w)
  {
    var w := OneImport();
    assert "x" <= "x/y" by { assert "x/y"[..1] == "x"; }
    assert PathPrefix("x", "x/y");
    forall a, p ensures ClosedAt(w, a, p) {
    }
  }

  lemma OneImportIsBounded()
    ensures Bounded(OneImport())
  {
    var w := OneImport();
    OneImportGroups();
    forall a | Imports(w, a).Some?
      ensures InUniverse(w, Imports(w, a).value.deps) && FoldDistinct(w, Imports(w, a).value.deps)
    {
      OneImportReaches(a);
    }
    assert w.universe == {("x", "x/y")};
    hide Imports;
    hide RootDeps;
  }

  lemma OneImportIsLossless()
    ensures Lossless(OneImport())
  {
    var w := OneImport();
    OneImportGroups();
    forall a | Imports(w, a).Some? ensures !Overwrites(w, KnownTo(w, a.a), SortedSeq(OutsideSet(w, a))) {
      OneImportReaches(a);
    }
    hide Imports;
    hide Overwrites;
    hide OutsideSet;
    hide KnownTo;
  }

  /** The assumptions of the theorem can be met, by a world in which there is something to solve. */
  lemma WellBehavedWorldExists()
    ensures WellBehaved(OneImport()) && Lossless(OneImport())
    ensures RootDeps(OneImport()).Some? && "x" in RootDeps(OneImport()).value
            && RootDeps(OneImport()).value["x"].pl == ["x/y"]
  {
    OneImportGroups();
    OneImportIsPlain();
    OneImportIsBounded();
    OneImportIsLossless();
    assert OneImport().rootImports == ["x/y"];
    hide ReachClosed;
    hide OutsideIsForeign;
    hide DeductionIsAncestral;
    hide ConstraintsProper;
    hide Bounded;
    hide Lossless;
    hide RootDeps;
  }

  /** The same world, with the imported project held to a revision that there is not. */
  function Pinned(): World {
    OneImport().(rootManifest := map["x" := Properties("", Exactly(Revision("other")))])
  }

  lemma PinnedGroups()
    ensures var w := Pinned();
            && RootDeps(w).Some? && "x" in RootDeps(w).value && Deduced(w, w.rootManifest.Keys, w.rootImports) == {}
            && ConstraintOn(w, w.rootManifest, "x") == Exactly(Revision("other"))
  {
    var w, known := Pinned(), Pinned().OverrideAll(Pinned().rootManifest);
    assert ["x/y"][..0] == [] && "x/y"[..1] == "x" && "x" <= "x/y";
    var lp := LongestPrefix({"x"}, "x/y");
    assert "x" in {"x"} && lp == Some("x") && "x/y"[1] == '/';
    assert w.rootManifest.Keys == known.Keys == {"x"} && Match({"x"}, "x/y") == Some("x");
    hide Match;
    NothingToGroup(w, known);
    assert Group(w, known, ["x/y"]) == Step(w, Grouping(known, map[]), "x/y");
    assert {"x"} + {} == {"x"};
    assert Deduced(w, {"x"}, ["x/y"]) == {};
    hide Group;
  }

  lemma PinnedIsUnsound()
    ensures !SoundSolution(Pinned(), map[Atom(ProjectIdentifier("x", ""), Revision("v")) := {"x/y"}])
  {
    hide Pinned;
    hide SoundSolution;
    hide RootDeps;
    hide Deduced;
    hide ConstraintOn;
    var b := Atom(ProjectIdentifier("x", ""), Revision("v"));
    PinnedGroups();
    RevisionAdmitsExactly("other", b.v);
    hide Matches;
    if SoundSolution(Pinned(), map[b := {"x/y"}]) { RootConstraintBinds(Pinned(), map[b := {"x/y"}], "x", b); }
  }
}
