/** What the solver's selection stack, adjacency list, fold table and queue have to do with
    one another between steps, stated on their values, and why each step keeps it. */
module SolverInvariant {
  import opened Wrappers
  import opened Strings
  import opened Versions
  import opened Bridge
  import opened Requirements
  import opened Selection

  type Deps = map<ProjectRoot, seq<Dependency>>

  // ---------------------------------------------------------------- composites of constraints

  ghost predicate AllProper(ds: seq<Dependency>) {
    forall d <- ds :: Proper(d.dep.wc.constraint)
  }

  lemma {:induction false} CompositeWritable(ds: seq<Dependency>, n: nat)
    requires n <= |ds| && AllProper(ds)
    ensures Writable(Composite(ds, n))
  {
    if n == 0 {
    } else {
      CompositeWritable(ds, n - 1);
      IntersectWritable(Composite(ds, n - 1), ds[n - 1].dep.wc.constraint);
    }
  }

  /** Whatever the composite admits, every dependency admits. */
  lemma {:induction false} CompositeSound(ds: seq<Dependency>, n: nat, v: Version)
    requires n <= |ds| && AllProper(ds) && Matches(Composite(ds, n), v)
    ensures forall i | 0 <= i < n :: Matches(ds[i].dep.wc.constraint, v)
  {
    if n == 0 {
    } else {
      CompositeWritable(ds, n - 1);
      IntersectExact(Composite(ds, n - 1), ds[n - 1].dep.wc.constraint, v);
      CompositeSound(ds, n - 1, v);
    }
  }

  /** While the composite is not empty, it admits exactly what all of the dependencies admit:
      whenever it rejects a version, some dependency can be blamed. */
  lemma {:induction false} CompositeExact(ds: seq<Dependency>, n: nat, v: Version)
    requires n <= |ds| && AllProper(ds) && Composite(ds, n) != Nothing
    ensures Matches(Composite(ds, n), v) <==> forall i | 0 <= i < n :: Matches(ds[i].dep.wc.constraint, v)
  {
    if n == 0 {
    } else {
      CompositeWritable(ds, n - 1);
      CompositeExact(ds, n - 1, v);
      IntersectExact(Composite(ds, n - 1), ds[n - 1].dep.wc.constraint, v);
      IncomparableIsEmpty(Composite(ds, n - 1), ds[n - 1].dep.wc.constraint);
    }
  }

  lemma IncomparableIsEmpty(a: Constraint, b: Constraint)
    requires Writable(a) && Writable(b)
    ensures Incomparable(a, b) ==> Intersect(a, b) == Nothing
  {
  }

  lemma {:induction false} CompositePrefix(ds: seq<Dependency>, m: nat, n: nat)
    requires m <= n <= |ds| && Composite(ds, n) != Nothing
    ensures Composite(ds, m) != Nothing
  {
    if m >= n {
    } else {
      CompositePrefix(ds, m, n - 1);
    }
  }

  lemma {:induction false} CompositeAppend(ds: seq<Dependency>, more: seq<Dependency>, n: nat)
    requires n <= |ds|
    ensures Composite(ds + more, n) == Composite(ds, n)
  {
    if n == 0 {
    } else {
      CompositeAppend(ds, more, n - 1);
    }
  }

  // ---------------------------------------------------------------- the adjacency list

  /** The outgoing dependencies of a selected atom; nobody but the root may depend on the root. */
  ghost function EdgesOf(env: Env, a: AtomWithPackages): map<ProjectRoot, CompleteDep> {
    if env.w.IsRoot(a.a.id.root) then env.rootDeps
    else
      match env.imports(a)
      case None => map[]
      case Some(req) => map r | r in req.deps && !env.w.IsRoot(r) :: req.deps[r]
  }

  ghost function EdgeTo(env: Env, a: AtomWithPackages, r: ProjectRoot): seq<Dependency> {
    var es := EdgesOf(env, a);
    if r in es then [Dependency(a.a, es[r])] else []
  }

  /** The dependencies on r of the first n atoms of the stack, in stack order. */
  ghost function Inbound(env: Env, projects: seq<Selected>, n: nat, r: ProjectRoot): seq<Dependency>
    requires n <= |projects|
  {
    if n == 0 then [] else Inbound(env, projects, n - 1, r) + EdgeTo(env, projects[n - 1].a, r)
  }

  lemma {:induction false} InboundAppend(env: Env, projects: seq<Selected>, more: seq<Selected>, n: nat, r: ProjectRoot)
    requires n <= |projects|
    ensures Inbound(env, projects + more, n, r) == Inbound(env, projects, n, r)
  {
    if n == 0 {
    } else {
      InboundAppend(env, projects, more, n - 1, r);
    }
  }

  /** The adjacency list is a function of the stack: empty lists and absent ones alike. */
  ghost predicate Mirrors(env: Env, projects: seq<Selected>, deps: Deps) {
    forall r :: On(deps, r) == Inbound(env, projects, |projects|, r)
  }

  ghost predicate FoldMirrors(w: World, deps: Deps, folds: map<string, ProjectRoot>) {
    && (forall r :: On(deps, r) != [] ==> w.fold(r) in folds && folds[w.fold(r)] == r)
    && (forall f <- folds :: On(deps, folds[f]) != [] && w.fold(folds[f]) == f)
  }

  // ---------------------------------------------------------------- the stack

  function Roots(w: World): set<ProjectRoot> {
    set rp <- w.universe :: rp.0
  }

  /** An atom may lie on top of a stack: its package list is already expanded, and it is the
      first of its project or repeats the version its project is selected at. */
  ghost predicate StacksOn(env: Env, front: seq<Selected>, s: Selected) {
    && !env.w.IsRoot(s.a.a.id.root) && s.a.a.id.root in Roots(env.w)
    && env.imports(s.a).Some? && env.imports(s.a).value.pl == s.a.pl && Distinct(s.a.pl)
    && match Base(front, s.a.a.id.root)
       case None => s.first
       case Some(b) => !s.first && b.a.v == s.a.a.v
  }

  ghost predicate WellStacked(env: Env, projects: seq<Selected>) {
    && projects != [] && projects[0] == Selected(env.w.RootAtom(), true)
    && forall i | 0 < i < |projects| :: StacksOn(env, projects[..i], projects[i])
  }

  /** An atom meets a dependency: its version is admitted, and the packages are there. */
  ghost predicate Fits(w: World, dep: CompleteDep, a: Atom) {
    Matches(dep.wc.constraint, a.v) && forall p <- dep.pl :: w.HasPackage(a, p)
  }

  ghost predicate Agree(ds: seq<Dependency>) {
    && Composite(ds, |ds|) != Nothing
    && forall i | 0 <= i < |ds| :: ds[0].dep.wc.ident.Equiv(ds[i].dep.wc.ident)
  }

  ghost predicate AllFit(w: World, ds: seq<Dependency>, base: Option<AtomWithPackages>) {
    base.Some? ==> forall d <- ds :: Fits(w, d.dep, base.value.a)
  }

  /** The dependencies on one project are jointly satisfiable, name the same source, and are
      met by the selected version if there is one. */
  ghost predicate Satisfied(w: World, projects: seq<Selected>, deps: Deps, r: ProjectRoot) {
    && Agree(On(deps, r))
    && (!w.IsRoot(r) ==> AllFit(w, On(deps, r), Base(projects, r)))
  }

  // ---------------------------------------------------------------- the queue

  predicate Held(projects: seq<Selected>, sl: seq<Bimodal>, r: ProjectRoot, p: string) {
    || (exists s <- projects :: s.a.a.id.root == r && p in s.a.pl)
    || (exists e <- sl :: e.id.root == r && p in e.pl)
  }

  /** Every demanded package is in a selected atom of its project or in a queued entry for it. */
  ghost predicate Covered(projects: seq<Selected>, deps: Deps, sl: seq<Bimodal>) {
    forall r, d, p | d in On(deps, r) && p in d.dep.pl :: Held(projects, sl, r, p)
  }

  /** Queued entries name projects of the world, list each package once, and name the root
      project only if it is among its own dependencies. */
  predicate EntryOk(env: Env, e: Bimodal) {
    && e.id.root in Roots(env.w) && Distinct(e.pl)
    && (env.w.IsRoot(e.id.root) ==> e.id.root in env.rootDeps)
  }

  predicate QueueOk(env: Env, sl: seq<Bimodal>) {
    forall e <- sl :: EntryOk(env, e)
  }

  ghost predicate Inv(env: Env, projects: seq<Selected>, deps: Deps, folds: map<string, ProjectRoot>, sl: seq<Bimodal>)
  {
    && WellStacked(env, projects)
    && Mirrors(env, projects, deps)
    && FoldMirrors(env.w, deps, folds)
    && (forall r :: Satisfied(env.w, projects, deps, r))
    && Covered(projects, deps, sl)
    && QueueOk(env, sl)
  }

  /** The (project, package) pairs currently demanded. */
  ghost function Demanded(w: World, deps: Deps): set<(ProjectRoot, string)> {
    set rp | rp in w.universe && exists d <- On(deps, rp.0) :: rp.1 in d.dep.pl
  }

  // ---------------------------------------------------------------- what check establishes

  predicate AtomAllowable(deps: Deps, a: Atom) {
    Matches(Composite(On(deps, a.id.root), |On(deps, a.id.root)|), a.v)
  }

  predicate RequiredPackagesExist(w: World, deps: Deps, a: Atom) {
    && w.ListPackages(a).Some?
    && forall d <- On(deps, a.id.root), p <- d.dep.pl :: w.HasPackage(a, p)
  }

  predicate IdentMatches(deps: Deps, dep: CompleteDep) {
    var ds := On(deps, dep.wc.ident.root);
    ds != [] ==> ds[0].dep.wc.ident.Equiv(dep.wc.ident)
  }

  predicate NoCaseConflict(w: World, folds: map<string, ProjectRoot>, pr: ProjectRoot) {
    w.fold(pr) in folds ==> folds[w.fold(pr)] == pr
  }

  predicate ConstraintAllowable(deps: Deps, dep: CompleteDep) {
    var ds := On(deps, dep.wc.ident.root);
    MatchesAny(Composite(ds, |ds|), dep.wc.constraint)
  }

  predicate AllowsSelected(projects: seq<Selected>, dep: CompleteDep) {
    var b := Base(projects, dep.wc.ident.root);
    b.Some? ==> Matches(dep.wc.constraint, b.value.a.v)
  }

  predicate RevisionExists(w: World, dep: CompleteDep) {
    dep.wc.constraint.Exactly? && dep.wc.constraint.v.Revision? ==>
      w.revisionPresent(dep.wc.ident, dep.wc.constraint.v.rev)
  }

  predicate ImportsExist(w: World, projects: seq<Selected>, dep: CompleteDep) {
    var b := Base(projects, dep.wc.ident.root);
    b.Some? ==> w.ListPackages(b.value.a).Some? && forall p <- dep.pl :: w.HasPackage(b.value.a, p)
  }

  predicate DepAllowed(w: World, projects: seq<Selected>, deps: Deps, folds: map<string, ProjectRoot>, dep: CompleteDep)
  {
    && IdentMatches(deps, dep)
    && NoCaseConflict(w, folds, dep.wc.ident.root)
    && ConstraintAllowable(deps, dep)
    && AllowsSelected(projects, dep)
    && RevisionExists(w, dep)
    && ImportsExist(w, projects, dep)
  }

  /** `check` returns no error. */
  predicate CheckPasses(env: Env, projects: seq<Selected>, deps: Deps, folds: map<string, ProjectRoot>,
                        a: AtomWithPackages, pkgonly: bool)
  {
    && (!pkgonly ==> AtomAllowable(deps, a.a))
    && RequiredPackagesExist(env.w, deps, a.a)
    && env.imports(a).Some?
    && forall r <- env.imports(a).value.deps :: DepAllowed(env.w, projects, deps, folds, env.imports(a).value.deps[r])
  }

  // ---------------------------------------------------------------- edges are good

  lemma EdgesGood(env: Env, a: AtomWithPackages, r: ProjectRoot)
    requires GoodEnv(env) && r in EdgesOf(env, a)
    ensures GoodDep(env.w, r, EdgesOf(env, a)[r])
    ensures !env.w.IsRoot(a.a.id.root) ==> r != a.a.id.root && !env.w.IsRoot(r)
  {
    assert GoodAt(env, a);
  }

  lemma {:induction false} InboundGood(env: Env, projects: seq<Selected>, n: nat, r: ProjectRoot)
    requires GoodEnv(env) && n <= |projects|
    ensures forall d <- Inbound(env, projects, n, r) :: GoodDep(env.w, r, d.dep)
  {
    if n == 0 {
    } else {
      InboundGood(env, projects, n - 1, r);
      if r in EdgesOf(env, projects[n - 1].a) { EdgesGood(env, projects[n - 1].a, r); }
    }
  }

  /** Every selected atom with an edge to r is among its dependers. */
  lemma {:induction false} DependerInbound(env: Env, projects: seq<Selected>, n: nat, r: ProjectRoot, i: nat)
    requires i < n <= |projects|
    ensures forall d <- EdgeTo(env, projects[i].a, r) :: d in Inbound(env, projects, n, r)
  {
    if i >= n - 1 {
    } else {
      DependerInbound(env, projects, n - 1, r, i);
    }
  }

  lemma BaseAppend(projects: seq<Selected>, s: Selected, r: ProjectRoot)
    ensures Base(projects + [s], r) ==
            if Base(projects, r).Some? then Base(projects, r)
            else if s.a.a.id.root == r then Some(s.a) else None
  {
    assert (projects + [s])[..|projects|] == projects;
  }

  // ---------------------------------------------------------------- selecting keeps the invariant

  lemma MirrorsGood(env: Env, projects: seq<Selected>, deps: Deps, r: ProjectRoot)
    requires GoodEnv(env) && Mirrors(env, projects, deps)
    ensures AllProper(On(deps, r)) && forall d <- On(deps, r) :: GoodDep(env.w, r, d.dep)
  {
    InboundGood(env, projects, |projects|, r);
  }

  /** One more dependency that passed its checks leaves the dependencies in agreement. */
  lemma AgreeExtends(ds: seq<Dependency>, d: Dependency)
    requires AllProper(ds) && Proper(d.dep.wc.constraint) && Agree(ds)
    requires MatchesAny(Composite(ds, |ds|), d.dep.wc.constraint)
    requires ds != [] ==> ds[0].dep.wc.ident.Equiv(d.dep.wc.ident)
    ensures Agree(ds + [d])
  {
    CompositeAppend(ds, [d], |ds|);
    CompositeWritable(ds, |ds|);
    MatchesAnyExact(Composite(ds, |ds|), d.dep.wc.constraint);
  }

  lemma AgreePrefix(ds: seq<Dependency>, d: Dependency)
    requires Agree(ds + [d])
    ensures Agree(ds)
  {
    var es := ds + [d];
    CompositeAppend(ds, [d], |ds|);
    CompositePrefix(es, |ds|, |es|);
    assert forall i | 0 <= i < |ds| :: ds[i] == es[i];
  }

  /** The adjacency list after an atom has been pushed, its edges appended. */
  ghost predicate Extends(env: Env, deps: Deps, a: AtomWithPackages, deps': Deps) {
    forall r :: On(deps', r) == On(deps, r) + EdgeTo(env, a, r)
  }

  lemma MirrorsPush(env: Env, projects: seq<Selected>, deps: Deps, s: Selected, deps': Deps)
    requires Mirrors(env, projects, deps) && Extends(env, deps, s.a, deps')
    ensures Mirrors(env, projects + [s], deps')
  {
    forall r ensures On(deps', r) == Inbound(env, projects + [s], |projects + [s]|, r) {
      InboundAppend(env, projects, [s], |projects|, r);
    }
  }

  lemma MirrorsPop(env: Env, projects: seq<Selected>, s: Selected, deps: Deps, deps': Deps)
    requires Mirrors(env, projects + [s], deps) && Extends(env, deps', s.a, deps)
    ensures Mirrors(env, projects, deps')
  {
    forall r ensures On(deps', r) == Inbound(env, projects, |projects|, r) {
      InboundAppend(env, projects, [s], |projects|, r);
      var es := EdgeTo(env, s.a, r);
      assert On(deps, r) == On(deps', r) + es && On(deps, r) == Inbound(env, projects, |projects|, r) + es;
      assert On(deps', r) == On(deps, r)[..|On(deps, r)| - |es|];
    }
  }

  /** Two adjacency lists that mirror the same stack agree on every project. */
  lemma MirrorsUnique(env: Env, projects: seq<Selected>, deps: Deps, deps': Deps, r: ProjectRoot)
    requires Mirrors(env, projects, deps) && Mirrors(env, projects, deps')
    ensures On(deps, r) == On(deps', r)
  {
  }

  /** ... and so do the fold tables, in full. */
  lemma FoldMirrorsUnique(w: World, deps: Deps, deps': Deps, folds: map<string, ProjectRoot>,
                          folds': map<string, ProjectRoot>)
    requires FoldMirrors(w, deps, folds) && FoldMirrors(w, deps', folds')
    requires forall r :: On(deps, r) == On(deps', r)
    ensures folds == folds'
  {
    assert forall f <- folds :: f in folds' && folds'[f] == folds[f];
    assert forall f <- folds' :: f in folds && folds[f] == folds'[f];
  }

  lemma StackPush(env: Env, projects: seq<Selected>, s: Selected)
    requires WellStacked(env, projects) && StacksOn(env, projects, s)
    ensures WellStacked(env, projects + [s])
  {
    var ps := projects + [s];
    forall i | 0 < i < |ps| ensures StacksOn(env, ps[..i], ps[i]) {
      if i < |projects| { assert ps[..i] == projects[..i]; } else { assert ps[..i] == projects; }
    }
  }

  lemma StackPop(env: Env, projects: seq<Selected>, s: Selected)
    requires WellStacked(env, projects + [s]) && projects != []
    ensures WellStacked(env, projects) && StacksOn(env, projects, s)
  {
    var ps := projects + [s];
    assert ps[..|projects|] == projects && ps[|projects|] == s;
    forall i | 0 < i < |projects| ensures StacksOn(env, projects[..i], projects[i]) {
      assert ps[..i] == projects[..i] && ps[i] == projects[i];
    }
  }

  /** A project that gets one more dependency from the pushed atom stays satisfied. */
  lemma SatisfiedByEdge(env: Env, projects: seq<Selected>, deps: Deps, folds: map<string, ProjectRoot>,
                        a: AtomWithPackages, s: Selected, deps': Deps, r: ProjectRoot)
    requires GoodEnv(env) && Mirrors(env, projects, deps) && Extends(env, deps, s.a, deps')
    requires CheckPasses(env, projects, deps, folds, a, !s.first) && r in EdgesOf(env, s.a)
    requires s.a == a.(pl := env.imports(a).value.pl) && StacksOn(env, projects, s)
    requires Satisfied(env.w, projects, deps, r)
    ensures Satisfied(env.w, projects + [s], deps', r)
  {
    assert GoodAt(env, a);
    MirrorsGood(env, projects, deps, r);
    BaseAppend(projects, s, r);
    EdgesGood(env, s.a, r);
    var ds, d := On(deps, r), Dependency(s.a.a, EdgesOf(env, s.a)[r]);
    assert DepAllowed(env.w, projects, deps, folds, d.dep);
    AgreeExtends(ds, d);
    assert On(deps', r) == ds + [d];
    hide GoodEnv;
    hide Mirrors;
    hide Agree;
    if Base(projects, r).Some? { assert Fits(env.w, d.dep, Base(projects, r).value.a); }
  }

  /** Pushing an atom that passed its checks leaves every project satisfied. */
  lemma SatisfiedPush(env: Env, projects: seq<Selected>, deps: Deps, folds: map<string, ProjectRoot>,
                      a: AtomWithPackages, s: Selected, deps': Deps, r: ProjectRoot)
    requires GoodEnv(env) && Mirrors(env, projects, deps) && Extends(env, deps, s.a, deps')
    requires CheckPasses(env, projects, deps, folds, a, !s.first)
    requires s.a == a.(pl := env.imports(a).value.pl) && StacksOn(env, projects, s)
    requires Satisfied(env.w, projects, deps, r)
    ensures Satisfied(env.w, projects + [s], deps', r)
  {
    if r in EdgesOf(env, s.a) {
      SatisfiedByEdge(env, projects, deps, folds, a, s, deps', r);
    } else {
      BaseAppend(projects, s, r);
      assert On(deps', r) == On(deps, r);
      if Base(projects, r).None? && r == s.a.a.id.root {
        assert AtomAllowable(deps, a.a);
        MirrorsGood(env, projects, deps, r);
        CompositeSound(On(deps, r), |On(deps, r)|, s.a.a.v);
        FitFirst(env.w, On(deps, r), deps, a.a, r);
      }
    }
    hide GoodEnv;
    hide Mirrors;
    hide Fits;
  }

  lemma FitFirst(w: World, ds: seq<Dependency>, deps: Deps, a: Atom, r: ProjectRoot)
    requires ds == On(deps, r) && a.id.root == r
    requires forall i | 0 <= i < |ds| :: Matches(ds[i].dep.wc.constraint, a.v)
    requires RequiredPackagesExist(w, deps, a)
    ensures forall d <- ds :: Fits(w, d.dep, a)
  {
  }

  lemma SatisfiedPop(env: Env, projects: seq<Selected>, s: Selected, deps: Deps, deps': Deps, r: ProjectRoot)
    requires Extends(env, deps', s.a, deps)
    requires Satisfied(env.w, projects + [s], deps, r)
    ensures Satisfied(env.w, projects, deps', r)
  {
    BaseAppend(projects, s, r);
    assert On(deps, r) == On(deps', r) + EdgeTo(env, s.a, r);
    if r in EdgesOf(env, s.a) {
      AgreePrefix(On(deps', r), Dependency(s.a.a, EdgesOf(env, s.a)[r]));
    } else {
      assert On(deps, r) == On(deps', r);
    }
    assert forall d <- On(deps', r) :: d in On(deps, r);
  }

  // ---------------------------------------------------------------- the fold table

  lemma FoldPush(w: World, deps: Deps, folds: map<string, ProjectRoot>, d: Dependency)
    requires FoldMirrors(w, deps, folds)
    requires var r := d.dep.wc.ident.root;
             forall s :: On(deps, s) != [] && w.fold(s) == w.fold(r) ==> s == r
    ensures var r := d.dep.wc.ident.root;
            FoldMirrors(w, deps[r := On(deps, r) + [d]], if On(deps, r) == [] then folds[w.fold(r) := r] else folds)
  {
  }

  lemma FoldPop(w: World, deps: Deps, folds: map<string, ProjectRoot>, deps': Deps, r: ProjectRoot)
    requires FoldMirrors(w, deps, folds)
    requires r in deps' && deps' == deps[r := deps'[r]] && On(deps, r) != []
    ensures FoldMirrors(w, deps', if deps'[r] == [] then folds - {w.fold(r)} else folds)
  {
  }

  // ---------------------------------------------------------------- coverage

  /** Replacing a queued entry by a selected atom that contains its packages keeps them held. */
  lemma HeldBySelection(projects: seq<Selected>, sl: seq<Bimodal>, id: ProjectIdentifier, pl: seq<string>, s: Selected,
                        r: ProjectRoot, p: string)
    requires Held(projects, sl, r, p)
    requires s.a.a.id.root == id.root && forall q <- pl :: q in s.a.pl
    ensures Held(projects + [s], Without(sl, id, pl), r, p)
  {
    WithoutMembers(sl, id, pl);
    assert s in projects + [s];
    if e :| e in sl && e.id.root == r && p in e.pl {
      assert e in Without(sl, id, pl) || Names(e, id, pl);
    }
    assert forall t <- projects :: t in projects + [s];
  }

  /** Putting a popped atom's packages back in the queue keeps them held. */
  lemma HeldByQueue(projects: seq<Selected>, s: Selected, sl: seq<Bimodal>, sl': seq<Bimodal>, r: ProjectRoot,
                    p: string)
    requires Held(projects + [s], sl, r, p)
    requires multiset(sl') == multiset(sl) + multiset{Bimodal(s.a.a.id, s.a.pl, None, false)}
    ensures Held(projects, sl', r, p)
  {
    assert Bimodal(s.a.a.id, s.a.pl, None, false) in multiset(sl');
    forall e <- sl ensures e in sl' { assert e in multiset(sl'); }
  }

  lemma HeldPushed(projects: seq<Selected>, sl: seq<Bimodal>, sl': seq<Bimodal>, e: Bimodal, r: ProjectRoot, p: string)
    requires multiset(sl') == multiset(sl) + multiset{e}
    requires Held(projects, sl, r, p) || (e.id.root == r && p in e.pl)
    ensures Held(projects, sl', r, p)
  {
    assert e in multiset(sl');
    forall x <- sl ensures x in sl' { assert x in multiset(sl'); }
  }

  // ---------------------------------------------------------------- the projects of the stack

  /** The identifiers of the projects selected above the root, in order: among the first n
      atoms, those that were the first of their project. */
  function FirstIds(projects: seq<Selected>, n: nat): seq<ProjectIdentifier>
    requires n <= |projects|
  {
    if n <= 1 then []
    else FirstIds(projects, n - 1) + if projects[n - 1].first then [projects[n - 1].a.a.id] else []
  }

  lemma {:induction false} FirstIdsAppend(projects: seq<Selected>, s: Selected, n: nat)
    requires n <= |projects|
    ensures FirstIds(projects + [s], n) == FirstIds(projects, n)
  {
    if n <= 1 {
    } else {
      FirstIdsAppend(projects, s, n - 1);
    }
  }

  lemma FirstIdsOneMore(projects: seq<Selected>, s: Selected)
    requires projects != []
    ensures FirstIds(projects + [s], |projects| + 1) ==
            FirstIds(projects, |projects|) + if s.first then [s.a.a.id] else []
  {
    FirstIdsAppend(projects, s, |projects|);
  }

  lemma NoFirstIds(projects: seq<Selected>)
    ensures |projects| <= 1 ==> FirstIds(projects, |projects|) == []
  {
  }

  /** Among the first n atoms there is one of project r. */
  predicate Stacked(projects: seq<Selected>, n: nat, r: ProjectRoot)
    requires n <= |projects|
  {
    exists i | 0 <= i < n :: projects[i].a.a.id.root == r
  }

  lemma FirstIsFresh(env: Env, projects: seq<Selected>, n: nat, r: ProjectRoot)
    requires WellStacked(env, projects) && 0 < n < |projects|
    requires projects[n].first && Stacked(projects, n, r)
    ensures r != projects[n].a.a.id.root
  {
    assert StacksOn(env, projects[..n], projects[n]);
    var i :| 0 <= i < n && projects[i].a.a.id.root == r;
    assert projects[..n][i] == projects[i];
  }

  lemma {:induction false} FirstIdsStacked(env: Env, projects: seq<Selected>, n: nat)
    requires WellStacked(env, projects) && n <= |projects|
    ensures forall id <- FirstIds(projects, n) ::
              Stacked(projects, n, id.root) && id.root in Roots(env.w) && !env.w.IsRoot(id.root)
  {
    if n <= 1 {
    } else {
      FirstIdsStacked(env, projects, n - 1);
      assert StacksOn(env, projects[..n - 1], projects[n - 1]);
      forall r | Stacked(projects, n - 1, r) ensures Stacked(projects, n, r) {
        var i :| 0 <= i < n - 1 && projects[i].a.a.id.root == r;
      }
      assert Stacked(projects, n, projects[n - 1].a.a.id.root);
    }
  }

  predicate DistinctRoots(ids: seq<ProjectIdentifier>) {
    forall i, j | 0 <= i < j < |ids| :: ids[i].root != ids[j].root
  }

  lemma {:induction false} FirstIdsDistinct(env: Env, projects: seq<Selected>, n: nat)
    requires WellStacked(env, projects) && n <= |projects|
    ensures DistinctRoots(FirstIds(projects, n))
  {
    if n <= 1 {
    } else {
      FirstIdsDistinct(env, projects, n - 1);
      FirstIdsStacked(env, projects, n - 1);
      var before := FirstIds(projects, n - 1);
      if projects[n - 1].first {
        forall id <- before ensures id.root != projects[n - 1].a.a.id.root {
          FirstIsFresh(env, projects, n - 1, id.root);
        }
      }
    }
  }

  /** The root project is always selected, and its atom is what a lookup finds. */
  lemma RootIsSelected(env: Env, projects: seq<Selected>)
    requires WellStacked(env, projects)
    ensures Base(projects, env.w.rootRoot) == Some(env.w.RootAtom())
  {
    assert projects[0].a.a.id.root == env.w.rootRoot;
  }
}
