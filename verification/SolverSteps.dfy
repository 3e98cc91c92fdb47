/** The two loops that move dependencies: pushing a selected atom's edges and queueing what is
    newly demanded (`selectAtom`), and popping them again (`unselectLast`). Each is a predicate
    on the values in mid-loop and a lemma that one iteration keeps it. */
module SolverSteps {
  import opened Strings
  import opened Versions
  import opened Bridge
  import opened Requirements
  import opened Selection
  import opened SolverInvariant

  // ---------------------------------------------------------------- counting demands

  lemma {:induction false} DemandAppend(ds: seq<Dependency>, d: Dependency, n: nat, p: string)
    requires n <= |ds|
    ensures Demand(ds + [d], n, p) == Demand(ds, n, p)
  {
    if n == 0 {
    } else {
      DemandAppend(ds, d, n - 1, p);
    }
  }

  /** Counting to one means nobody else asked: the only packages queued are the new ones. */
  lemma SoleDemander(ds: seq<Dependency>, d: Dependency, p: string)
    requires p in d.dep.pl && Distinct(d.dep.pl)
    ensures Demand(ds + [d], |ds| + 1, p) == 1 <==> forall x <- ds :: p !in x.dep.pl
  {
    DemandAppend(ds, d, |ds|, p);
    DemandPositive(ds, |ds|, p);
    TimesPositive(d.dep.pl, |d.dep.pl|, p);
    assert d.dep.pl[..|d.dep.pl|] == d.dep.pl;
    assert (ds + [d])[|ds|] == d;
  }

  // ---------------------------------------------------------------- pushing

  /** The lists after the edges in `done` have been appended. */
  ghost predicate Appended(deps0: Deps, deps: Deps, a: Atom, edges: map<ProjectRoot, CompleteDep>,
                           done: set<ProjectRoot>)
  {
    && done <= edges.Keys
    && forall r :: On(deps, r) == On(deps0, r) + if r in done then [Dependency(a, edges[r])] else []
  }

  ghost predicate Pushing(env: Env, projects: seq<Selected>, deps0: Deps, sl0: seq<Bimodal>,
                          a: Atom, edges: map<ProjectRoot, CompleteDep>, done: set<ProjectRoot>,
                          deps: Deps, folds: map<string, ProjectRoot>, sl: seq<Bimodal>)
  {
    && Appended(deps0, deps, a, edges, done)
    && FoldMirrors(env.w, deps, folds)
    && Covered(projects, deps, sl)
    && QueueOk(env, sl)
    && Demanded(env.w, deps0) <= Demanded(env.w, deps)
    && (|sl| == |sl0| || Demanded(env.w, deps0) != Demanded(env.w, deps))
  }

  /** The edges about to be pushed passed their checks against the state before any of them. */
  ghost predicate Pushable(env: Env, deps0: Deps, folds0: map<string, ProjectRoot>,
                           edges: map<ProjectRoot, CompleteDep>)
  {
    && FoldMirrors(env.w, deps0, folds0) && FoldDistinct(env.w, edges)
    && forall r <- edges ::
         && GoodDep(env.w, r, edges[r]) && NoCaseConflict(env.w, folds0, r)
         && (env.w.IsRoot(r) ==> r in env.rootDeps)
         && forall d <- On(deps0, r) :: d.dep.wc.ident.root == r
  }

  lemma PushFold(env: Env, deps0: Deps, folds0: map<string, ProjectRoot>, a: Atom, edges: map<ProjectRoot, CompleteDep>,
                 done: set<ProjectRoot>, deps: Deps, r: ProjectRoot, s: ProjectRoot)
    requires Pushable(env, deps0, folds0, edges) && Appended(deps0, deps, a, edges, done)
    requires r in edges && r !in done && On(deps, s) != [] && env.w.fold(s) == env.w.fold(r)
    ensures s == r
  {
    assert NoCaseConflict(env.w, folds0, r);
    if s in done { assert s in edges; } else { assert On(deps, s) == On(deps0, s); }
  }

  lemma PushAppends(deps0: Deps, deps: Deps, a: Atom, edges: map<ProjectRoot, CompleteDep>, done: set<ProjectRoot>,
                    r: ProjectRoot)
    requires Appended(deps0, deps, a, edges, done) && r in edges && r !in done
    ensures Appended(deps0, deps[r := On(deps, r) + [Dependency(a, edges[r])]], a, edges, done + {r})
  {
    var deps' := deps[r := On(deps, r) + [Dependency(a, edges[r])]];
    forall s ensures On(deps', s) == On(deps0, s) + if s in done + {r} then [Dependency(a, edges[s])] else [] {
      if s != r { assert On(deps', s) == On(deps, s); }
    }
  }

  ghost predicate NewPackages(ds: seq<Dependency>, d: Dependency, newp: seq<string>) {
    && Distinct(newp)
    && forall p :: p in newp <==> p in d.dep.pl && forall x <- ds :: p !in x.dep.pl
  }

  ghost predicate Queued(sl: seq<Bimodal>, sl': seq<Bimodal>, r: ProjectRoot, newp: seq<string>) {
    if newp == [] then sl' == sl
    else exists e: Bimodal :: e.id.root == r && e.pl == newp && multiset(sl') == multiset(sl) + multiset{e}
  }

  lemma PushCovers(projects: seq<Selected>, deps: Deps, d: Dependency, r: ProjectRoot, newp: seq<string>,
                   sl: seq<Bimodal>, sl': seq<Bimodal>)
    requires Covered(projects, deps, sl) && NewPackages(On(deps, r), d, newp) && Queued(sl, sl', r, newp)
    ensures Covered(projects, deps[r := On(deps, r) + [d]], sl')
  {
    var deps' := deps[r := On(deps, r) + [d]];
    forall s, x, p | x in On(deps', s) && p in x.dep.pl ensures Held(projects, sl', s, p) {
      if newp == [] {
        if s == r && x == d && x !in On(deps, r) { assert p !in newp; }
      } else {
        var e: Bimodal :| e.id.root == r && e.pl == newp && multiset(sl') == multiset(sl) + multiset{e};
        HeldPushed(projects, sl, sl', e, s, p);
      }
    }
  }

  lemma QueuedOk(env: Env, sl: seq<Bimodal>, sl': seq<Bimodal>, r: ProjectRoot, newp: seq<string>)
    requires QueueOk(env, sl) && Queued(sl, sl', r, newp) && Distinct(newp) && r in Roots(env.w)
    requires env.w.IsRoot(r) ==> r in env.rootDeps
    ensures QueueOk(env, sl')
    ensures |sl'| == |sl| || newp != []
  {
    if newp != [] {
      var e: Bimodal :| e.id.root == r && e.pl == newp && multiset(sl') == multiset(sl) + multiset{e};
      forall x <- sl' ensures x in sl || x == e { assert x in multiset(sl'); }
    }
  }

  lemma PushDemands(w: World, deps: Deps, d: Dependency, r: ProjectRoot, newp: seq<string>)
    requires GoodDep(w, r, d.dep) && NewPackages(On(deps, r), d, newp)
    ensures var deps' := deps[r := On(deps, r) + [d]];
            && Demanded(w, deps) <= Demanded(w, deps')
            && (newp != [] ==> Demanded(w, deps) != Demanded(w, deps'))
  {
    var deps' := deps[r := On(deps, r) + [d]];
    assert forall s, x | x in On(deps, s) :: x in On(deps', s);
    if newp != [] {
      var p := newp[0];
      assert p in newp;
      assert d in On(deps', r);
      assert (r, p) in Demanded(w, deps') && (r, p) !in Demanded(w, deps);
    }
  }

  lemma PushStep(env: Env, projects: seq<Selected>, deps0: Deps, folds0: map<string, ProjectRoot>, sl0: seq<Bimodal>,
                 a: Atom, edges: map<ProjectRoot, CompleteDep>, done: set<ProjectRoot>,
                 deps: Deps, folds: map<string, ProjectRoot>, sl: seq<Bimodal>,
                 r: ProjectRoot, newp: seq<string>, folds': map<string, ProjectRoot>, sl': seq<Bimodal>)
    requires Pushable(env, deps0, folds0, edges)
    requires Pushing(env, projects, deps0, sl0, a, edges, done, deps, folds, sl)
    requires r in edges && r !in done
    requires folds' == if On(deps, r) == [] then folds[env.w.fold(r) := r] else folds
    requires NewPackages(On(deps, r), Dependency(a, edges[r]), newp) && Queued(sl, sl', r, newp)
    ensures Pushing(env, projects, deps0, sl0, a, edges, done + {r},
                    deps[r := On(deps, r) + [Dependency(a, edges[r])]], folds', sl')
  {
    var d := Dependency(a, edges[r]);
    assert GoodDep(env.w, r, d.dep);
    RootOfPackage(env.w, r, d.dep.pl[0]);
    assert d.dep.wc.ident.root == r && Distinct(newp);
    hide GoodDep;
    hide NewPackages;
    hide Appended;
    hide Covered;
    hide QueueOk;
    hide Queued;
    PushAppends(deps0, deps, a, edges, done, r);
    forall s | On(deps, s) != [] && env.w.fold(s) == env.w.fold(r) ensures s == r {
      PushFold(env, deps0, folds0, a, edges, done, deps, r, s);
    }
    FoldPush(env.w, deps, folds, d);
    PushCovers(projects, deps, d, r, newp, sl, sl');
    QueuedOk(env, sl, sl', r, newp);
    PushDemands(env.w, deps, d, r, newp);
    hide Demanded;
    hide FoldMirrors;
  }

  lemma RootOfPackage(w: World, r: ProjectRoot, p: string)
    requires (r, p) in w.universe
    ensures r in Roots(w)
  {
    assert (r, p).0 == r;
  }

  // ---------------------------------------------------------------- popping

  ghost predicate PoppedSoFar(deps0: Deps, a: Atom, edges: map<ProjectRoot, CompleteDep>, left: set<ProjectRoot>,
                              deps: Deps)
  {
    forall r :: On(deps0, r) == On(deps, r) + if r in edges && r !in left then [Dependency(a, edges[r])] else []
  }

  ghost predicate Popping(env: Env, projects: seq<Selected>, deps0: Deps,
                          a: Atom, edges: map<ProjectRoot, CompleteDep>, left: set<ProjectRoot>,
                          deps: Deps, folds: map<string, ProjectRoot>, sl: seq<Bimodal>)
  {
    && left <= edges.Keys
    && PoppedSoFar(deps0, a, edges, left, deps)
    && FoldMirrors(env.w, deps, folds)
    && Covered(projects, deps, sl)
    && QueueOk(env, sl)
  }

  lemma PopCovers(projects: seq<Selected>, deps: Deps, deps': Deps, sl: seq<Bimodal>, sl': seq<Bimodal>, r: ProjectRoot,
                  id: ProjectIdentifier, pl: seq<string>)
    requires Covered(projects, deps, sl)
    requires forall s, x | x in On(deps', s) :: x in On(deps, s)
    requires id.root == r
    requires sl' == if On(deps', r) == [] then Without(sl, id, pl) else sl
    ensures Covered(projects, deps', sl')
    ensures forall e <- sl' :: e in sl
  {
    WithoutMembers(sl, id, pl);
    forall s, x, p | x in On(deps', s) && p in x.dep.pl ensures Held(projects, sl', s, p) {
      assert Held(projects, sl, s, p);
      if On(deps', r) == [] {
        assert s != r;
        if e :| e in sl && e.id.root == s && p in e.pl { assert e in sl'; }
      }
    }
  }

  lemma PopAppended(deps0: Deps, a: Atom, edges: map<ProjectRoot, CompleteDep>, left: set<ProjectRoot>, deps: Deps,
                    r: ProjectRoot, deps': Deps, d: Dependency)
    requires PoppedSoFar(deps0, a, edges, left, deps)
    requires r in edges && r in left
    requires On(deps0, r) != [] && On(deps0, r)[|On(deps0, r)| - 1] == Dependency(a, edges[r])
    requires r in deps' && deps' == deps[r := deps'[r]] && On(deps, r) == On(deps', r) + [d]
    ensures PoppedSoFar(deps0, a, edges, left - {r}, deps')
    ensures forall s, x | x in On(deps', s) :: x in On(deps, s)
  {
    assert On(deps0, r) == On(deps', r) + [d];
    assert forall s | s != r :: On(deps', s) == On(deps, s);
  }

  lemma PopStep(env: Env, projects: seq<Selected>, deps0: Deps, a: Atom, edges: map<ProjectRoot, CompleteDep>,
                left: set<ProjectRoot>,
                deps: Deps, folds: map<string, ProjectRoot>, sl: seq<Bimodal>,
                r: ProjectRoot, deps': Deps, folds': map<string, ProjectRoot>, sl': seq<Bimodal>)
    requires Popping(env, projects, deps0, a, edges, left, deps, folds, sl)
    requires r in left && edges[r].wc.ident.root == r
    requires On(deps0, r) != [] && On(deps0, r)[|On(deps0, r)| - 1] == Dependency(a, edges[r])
    requires r in deps' && deps' == deps[r := deps'[r]]
    requires exists d :: On(deps, r) == On(deps', r) + [d]
    requires folds' == if On(deps', r) == [] then folds - {env.w.fold(r)} else folds
    requires sl' == if On(deps', r) == [] then Without(sl, edges[r].wc.ident, edges[r].pl) else sl
    ensures Popping(env, projects, deps0, a, edges, left - {r}, deps', folds', sl')
  {
    var d :| On(deps, r) == On(deps', r) + [d];
    PopAppended(deps0, a, edges, left, deps, r, deps', d);
    FoldPop(env.w, deps, folds, deps', r);
    PopCovers(projects, deps, deps', sl, sl', r, edges[r].wc.ident, edges[r].pl);
  }

  /** A dependency not yet popped is still the last one on its project. */
  lemma StillThere(env: Env, projects: seq<Selected>, deps0: Deps, a: Atom, edges: map<ProjectRoot, CompleteDep>,
                   left: set<ProjectRoot>,
                   deps: Deps, folds: map<string, ProjectRoot>, sl: seq<Bimodal>, r: ProjectRoot)
    requires Popping(env, projects, deps0, a, edges, left, deps, folds, sl) && r in left
    ensures On(deps, r) == On(deps0, r)
  {
  }
}
