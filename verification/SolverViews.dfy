/** What the solver sees at one moment, as values: the selection, the blame it lays on version
    queues, and the versions and entries it would queue next. */
module SolverViews {
  import opened Wrappers
  import opened Strings
  import opened Versions
  import opened Bridge
  import opened Requirements
  import opened VersionQueues
  import Sel = Selection
  import opened Selection
  import opened SolverInvariant
  import opened SolverSteps

  // ---------------------------------------------------------------- failures and crashes

  datatype Failure =
    | NoVersion(id: ProjectIdentifier, fails: seq<FailedVersion<Failure>>)
    | VersionNotAllowed(atom: Atom, failparent: seq<Dependency>, c: Constraint)
    | ProblemPackages(atom: Atom, failpkg: map<string, seq<Atom>>)
    | ListingFailed(atom: Atom)
    | ImportsFailed(awp: AtomWithPackages)
    | SourceMismatch(shared: ProjectRoot, deps: seq<Dependency>, current: string, mismatch: string, atom: Atom)
    | WrongCase(correct: ProjectRoot, goal: Dependency, deps: seq<Dependency>)
    | CaseMismatch(goal: Dependency, currentRoot: ProjectRoot, deps: seq<Dependency>)
    | DisjointConstraint(goal: Dependency, deps: seq<Dependency>, nofailsib: seq<Dependency>, c: Constraint)
    | ConstraintNotAllowed(goal: Dependency, v: Version)
    | NonexistentRevision(goal: Dependency, r: string)
    | DepProblemPackages(goal: Dependency, v: Version, prob: set<string>)
    | SourceError(id: ProjectIdentifier)
    | NotLocated(id: ProjectIdentifier)
    | MissingSource(id: ProjectIdentifier)

  /** The places where the program dies rather than returning an error. */
  datatype Crash =
    | NoDepender          // index 0 of an empty dependency list: a queued project nobody demands
    | EmptyVersionQueue   // a project without any version
    | RootRechecked       // the root project among its own dependencies
    | RootUndeducible     // an import of the root project whose project cannot be deduced

  // ---------------------------------------------------------------- blame

  function IdIndex(ids: seq<ProjectIdentifier>, id: ProjectIdentifier): (n: nat)
    ensures n <= |ids|
    ensures n < |ids| ==> ids[n].Eq(id)
    ensures forall i | 0 <= i < n :: !ids[i].Eq(id)
  {
    if ids == [] then 0
    else
      var m := IdIndex(ids[..|ids| - 1], id);
      if m < |ids| - 1 then m else if ids[m].Eq(id) then m else |ids|
  }

  /** The topmost marked queue. */
  ghost function NearestFailed(flags: seq<bool>): Option<nat> {
    if flags == [] then None
    else if flags[|flags| - 1] then Some(|flags| - 1)
    else NearestFailed(flags[..|flags| - 1])
  }

  /** The failure marks after `fail(id)`: the oldest queue of that project is marked. */
  ghost function Marked(w: World, ids: seq<ProjectIdentifier>, flags: seq<bool>, id: ProjectIdentifier): seq<bool> {
    var n := IdIndex(ids, id);
    if !w.IsRoot(id.root) && n < |flags| then flags[n := true] else flags
  }

  /** ... and after failing the depender of each of the first n dependencies. */
  ghost function MarkedAll(w: World, ids: seq<ProjectIdentifier>, flags: seq<bool>, ds: seq<Dependency>,
                           n: nat): seq<bool>
    requires n <= |ds|
  {
    if n == 0 then flags else Marked(w, ids, MarkedAll(w, ids, flags, ds, n - 1), ds[n - 1].depender.id)
  }

  lemma {:induction false} MarksOnlyGrow(w: World, ids: seq<ProjectIdentifier>, flags: seq<bool>, ds: seq<Dependency>,
                                         n: nat)
    requires n <= |ds|
    ensures var r := MarkedAll(w, ids, flags, ds, n);
            |r| == |flags| && forall i | 0 <= i < |flags| :: flags[i] ==> r[i]
  {
    if n == 0 {
    } else {
      MarksOnlyGrow(w, ids, flags, ds, n - 1);
    }
  }

  /** The dependencies among the first n whose constraint rejects v. */
  function Rejecting(ds: seq<Dependency>, n: nat, v: Version): seq<Dependency>
    requires n <= |ds|
  {
    if n == 0 then []
    else Rejecting(ds, n - 1, v) + if Matches(ds[n - 1].dep.wc.constraint, v) then [] else [ds[n - 1]]
  }

  /** The dependencies among the first n whose constraint is (or is not) disjoint from c. */
  function Siblings(ds: seq<Dependency>, n: nat, c: Constraint, disjoint: bool): seq<Dependency>
    requires n <= |ds|
  {
    if n == 0 then []
    else Siblings(ds, n - 1, c, disjoint) +
         if MatchesAny(ds[n - 1].dep.wc.constraint, c) == disjoint then [] else [ds[n - 1]]
  }

  /** Those whose constraint rejects v, and no others, in order. */
  lemma {:induction false} RejectingMembers(ds: seq<Dependency>, n: nat, v: Version, d: Dependency)
    requires n <= |ds|
    ensures d in Rejecting(ds, n, v) <==> d in ds[..n] && !Matches(d.dep.wc.constraint, v)
  {
    if n == 0 {
    } else {
      RejectingMembers(ds, n - 1, v, d);
      assert ds[..n] == ds[..n - 1] + [ds[n - 1]];
    }
  }

  /** The siblings that a new constraint does not meet, or those that it does. */
  lemma {:induction false} SiblingsMembers(ds: seq<Dependency>, n: nat, c: Constraint, disjoint: bool, d: Dependency)
    requires n <= |ds|
    ensures d in Siblings(ds, n, c, disjoint) <==>
            d in ds[..n] && (if disjoint then !MatchesAny(d.dep.wc.constraint, c)
                             else MatchesAny(d.dep.wc.constraint, c))
  {
    if n == 0 {
    } else {
      SiblingsMembers(ds, n - 1, c, disjoint, d);
      assert ds[..n] == ds[..n - 1] + [ds[n - 1]];
    }
  }

  /** The values of a selection at one moment. */
  datatype View = View(env: Env, projects: seq<Selected>, deps: Deps, folds: map<string, ProjectRoot>) {
    ghost predicate Passing(a: AtomWithPackages, pkgonly: bool) {
      CheckPasses(env, projects, deps, folds, a, pkgonly)
    }

    /** The foremost remaining version passes its checks. */
    ghost predicate Accepts(id: ProjectIdentifier, rem: seq<Version>, pl: seq<string>) {
      rem != [] && Passing(AtomWithPackages(Atom(id, rem[0]), pl), false)
    }

    lemma AcceptsExactly(id: ProjectIdentifier, rem: seq<Version>, pl: seq<string>)
      requires rem != []
      ensures Accepts(id, rem, pl) <==> Passing(AtomWithPackages(Atom(id, rem[0]), pl), false)
    {
    }

    /** Between a queue with `rem` left and one with `now` left, the versions in between were
        recorded as failures, and none of them passes its checks. */
    ghost predicate Tried(id: ProjectIdentifier, pl: seq<string>, rem: seq<Version>, faillen: nat,
                          now: seq<Version>, fails: seq<FailedVersion<Failure>>)
    {
      var n := |fails| - faillen;
      && 0 <= n <= |rem| && now == rem[n..]
      && forall i | 0 <= i < n :: fails[faillen + i].v == rem[i] && !Accepts(id, rem[i..], pl)
    }

    lemma TriedShrinks(id: ProjectIdentifier, pl: seq<string>, rem: seq<Version>, faillen: nat, now: seq<Version>,
                       fails: seq<FailedVersion<Failure>>)
      requires Tried(id, pl, rem, faillen, now, fails)
      ensures |now| <= |rem|
    {
    }

    lemma TriedNone(id: ProjectIdentifier, pl: seq<string>, rem: seq<Version>, fails: seq<FailedVersion<Failure>>)
      ensures Tried(id, pl, rem, |fails|, rem, fails)
    {
    }

    lemma TriedOne(id: ProjectIdentifier, pl: seq<string>, rem: seq<Version>, faillen: nat,
                   now: seq<Version>, fails: seq<FailedVersion<Failure>>, f: Option<Failure>)
      requires Tried(id, pl, rem, faillen, now, fails)
      requires now != [] && !Accepts(id, now, pl)
      ensures Tried(id, pl, rem, faillen, now[1..], fails + [FailedVersion(now[0], f)])
    {
      var n := |fails| - faillen;
      assert now[1..] == rem[n + 1..] && now[0] == rem[n];
    }

    ghost predicate Coherent(sl: seq<Bimodal>) {
      Inv(env, projects, deps, folds, sl)
    }

    lemma EntryGood(sl: seq<Bimodal>, e: Bimodal)
      requires Coherent(sl) && e in sl
      ensures EntryOk(env, e) && projects != []
      ensures env.w.IsRoot(e.id.root) ==> Base(projects, e.id.root) == Some(env.w.RootAtom())
    {
      RootIsSelected(env, projects);
    }

    lemma NotEmpty(sl: seq<Bimodal>)
      requires Coherent(sl)
      ensures projects != []
    {
    }

    ghost predicate MaySelect(a: AtomWithPackages, s: Selected) {
      && Passing(a, !s.first) && env.imports(a).Some? && s.a == a.(pl := env.imports(a).value.pl)
      && !env.w.IsRoot(a.a.id.root) && a.a.id.root in Roots(env.w) && Distinct(a.pl)
      && match Base(projects, a.a.id.root) case None => s.first case Some(b) => !s.first && b.a.v == a.a.v
    }

    lemma PassingImports(a: AtomWithPackages, pkgonly: bool)
      requires Passing(a, pkgonly)
      ensures env.imports(a).Some?
    {
    }

    /** What `selectAtom` relies on before it pushes the first edge. */
    lemma Prepare(a: AtomWithPackages, s: Selected, sl: seq<Bimodal>, sl0: seq<Bimodal>)
      requires GoodEnv(env) && Coherent(sl) && MaySelect(a, s) && sl0 == Sel.Without(sl, a.a.id, a.pl)
      ensures StacksOn(env, projects, s)
      ensures forall r <- env.imports(a).value.deps :: env.imports(a).value.deps[r].wc.ident.root == r
      ensures EdgesOf(env, s.a) == map r | r in env.imports(a).value.deps && !env.w.IsRoot(r) ::
              env.imports(a).value.deps[r]
      ensures Pushable(env, deps, folds, EdgesOf(env, s.a))
      ensures Pushing(env, projects + [s], deps, sl0, a.a, EdgesOf(env, s.a), {}, deps, folds, sl0)
    {
      assert GoodAt(env, a);
      var edges := EdgesOf(env, s.a);
      forall r <- edges
        ensures GoodDep(env.w, r, edges[r]) && NoCaseConflict(env.w, folds, r) && forall d <- On(deps, r) ::
                d.dep.wc.ident.root == r
      {
        EdgesGood(env, s.a, r);
        assert DepAllowed(env.w, projects, deps, folds, edges[r]);
        MirrorsGood(env, projects, deps, r);
      }
      forall r, d, p | d in On(deps, r) && p in d.dep.pl ensures Held(projects + [s], sl0, r, p) {
        HeldBySelection(projects, sl, a.a.id, a.pl, s, r, p);
      }
      Sel.WithoutMembers(sl, a.a.id, a.pl);
    }

    /** Dependencies found in mid-loop are filed under their own root. */
    lemma OnGood(a: AtomWithPackages, ps: seq<Selected>, edges: map<ProjectRoot, CompleteDep>, done: set<ProjectRoot>,
                 sl0: seq<Bimodal>, now: View, sl1: seq<Bimodal>, r: ProjectRoot)
      requires Pushable(env, deps, folds, edges) && Pushing(env, ps, deps, sl0, a.a, edges, done, now.deps, now.folds,
                                                            sl1)
      requires r in edges && r !in done
      ensures edges[r].wc.ident.root == r && Distinct(edges[r].pl)
      ensures forall d <- On(now.deps, r) :: d.dep.wc.ident.root == r
      ensures On(now.deps, r) == On(deps, r)
    {
      assert GoodDep(env.w, r, edges[r]);
      assert On(now.deps, r) == On(deps, r);
    }

    /** What `selectAtom` has achieved when the last edge is pushed. */
    lemma Finish(a: AtomWithPackages, s: Selected, sl: seq<Bimodal>, sl0: seq<Bimodal>, after: View, sl': seq<Bimodal>)
      requires GoodEnv(env) && Coherent(sl)
      requires MaySelect(a, s) && StacksOn(env, projects, s)
      requires after.env == env && after.projects == projects + [s]
      requires Pushing(env, after.projects, deps, sl0, a.a, EdgesOf(env, s.a), EdgesOf(env, s.a).Keys, after.deps,
                       after.folds, sl')
      ensures after.Coherent(sl')
      ensures Demanded(env.w, deps) <= Demanded(env.w, after.deps)
      ensures |sl'| == |sl0| || Demanded(env.w, deps) != Demanded(env.w, after.deps)
    {
      PushedAll(a, s, sl0, after, sl');
      hide Pushing;
      hide CheckPasses;
      hide StacksOn;
      hide Satisfied;
      hide Mirrors;
      hide WellStacked;
      hide FoldMirrors;
      hide Covered;
      hide QueueOk;
      hide Demanded;
      hide EdgesOf;
      hide GoodEnv;
      StackPush(env, projects, s);
      MirrorsPush(env, projects, deps, s, after.deps);
      forall r ensures Satisfied(env.w, after.projects, after.deps, r) {
        SatisfiedPush(env, projects, deps, folds, a, s, after.deps, r);
      }
    }

    /** With all edges pushed, the lists extend the old ones by the edges. */
    lemma PushedAll(a: AtomWithPackages, s: Selected, sl0: seq<Bimodal>, after: View, sl': seq<Bimodal>)
      requires s.a.a == a.a
      requires Pushing(env, after.projects, deps, sl0, a.a, EdgesOf(env, s.a), EdgesOf(env, s.a).Keys, after.deps,
                       after.folds, sl')
      ensures Extends(env, deps, s.a, after.deps) && FoldMirrors(env.w, after.deps, after.folds)
      ensures Covered(after.projects, after.deps, sl') && QueueOk(env, sl')
      ensures Demanded(env.w, deps) <= Demanded(env.w, after.deps)
      ensures |sl'| == |sl0| || Demanded(env.w, deps) != Demanded(env.w, after.deps)
    {
      hide FoldMirrors;
      hide Covered;
      hide QueueOk;
      hide Demanded;
      hide EdgesOf;
    }


    ghost function Top(): Selected
      requires projects != []
    {
      projects[|projects| - 1]
    }

    ghost function Front(): seq<Selected>
      requires projects != []
    {
      projects[..|projects| - 1]
    }

    /** What `unselectLast` relies on before it pops the first edge. */
    lemma PreparePop(sl: seq<Bimodal>, sl1: seq<Bimodal>)
      requires GoodEnv(env) && Coherent(sl) && |projects| > 1
      requires multiset(sl1) == multiset(sl) + multiset{Bimodal(Top().a.a.id, Top().a.pl, None, false)}
      ensures StacksOn(env, Front(), Top())
      ensures env.imports(Top().a).Some?
      ensures var req := env.imports(Top().a).value;
              && (forall r <- req.deps :: req.deps[r].wc.ident.root == r)
              && EdgesOf(env, Top().a) == map r | r in req.deps && !env.w.IsRoot(r) :: req.deps[r]
      ensures forall r <- EdgesOf(env, Top().a) ::
                On(deps, r) != [] && On(deps, r)[|On(deps, r)| - 1] == Dependency(Top().a.a, EdgesOf(env, Top().a)[r])
      ensures Popping(env, Front(), deps, Top().a.a, EdgesOf(env, Top().a), EdgesOf(env, Top().a).Keys, deps, folds,
                      sl1)
    {
      var s, front := Top(), Front();
      assert projects == front + [s];
      StackPop(env, front, s);
      TopEdges();
      Requeued(sl, sl1);
      hide EdgesOf;
      NothingPopped(sl1);
      hide GoodEnv;
      hide Popping;
      hide StacksOn;
      hide Inv;
    }

    lemma NothingPopped(sl1: seq<Bimodal>)
      requires |projects| > 1 && FoldMirrors(env.w, deps, folds) && Covered(Front(), deps, sl1) && QueueOk(env, sl1)
      ensures Popping(env, Front(), deps, Top().a.a, EdgesOf(env, Top().a), EdgesOf(env, Top().a).Keys, deps, folds,
                      sl1)
    {
    }

    /** The edges of the topmost atom are the last dependencies on their projects. */
    lemma TopEdges()
      requires GoodEnv(env) && |projects| > 1 && Mirrors(env, projects, deps) && StacksOn(env, Front(), Top())
      ensures var req := env.imports(Top().a).value;
              && (forall r <- req.deps :: req.deps[r].wc.ident.root == r)
              && EdgesOf(env, Top().a) == map r | r in req.deps && !env.w.IsRoot(r) :: req.deps[r]
      ensures forall r <- EdgesOf(env, Top().a) ::
                On(deps, r) != [] && On(deps, r)[|On(deps, r)| - 1] == Dependency(Top().a.a, EdgesOf(env, Top().a)[r])
    {
      var s := Top();
      assert GoodAt(env, s.a);
      forall r <- EdgesOf(env, s.a)
        ensures On(deps, r) != [] && On(deps, r)[|On(deps, r)| - 1] == Dependency(s.a.a, EdgesOf(env, s.a)[r])
      {
        assert On(deps, r) == Inbound(env, projects, |projects|, r);
      }
    }

    /** The entry that `unselectLast` queues keeps held what the popped atom held. */
    lemma Requeued(sl: seq<Bimodal>, sl1: seq<Bimodal>)
      requires Coherent(sl) && |projects| > 1 && StacksOn(env, Front(), Top())
      requires multiset(sl1) == multiset(sl) + multiset{Bimodal(Top().a.a.id, Top().a.pl, None, false)}
      ensures Covered(Front(), deps, sl1) && QueueOk(env, sl1)
    {
      var s, front := Top(), Front();
      assert projects == front + [s];
      forall r, d, p | d in On(deps, r) && p in d.dep.pl ensures Held(front, sl1, r, p) {
        HeldByQueue(front, s, sl, sl1, r, p);
      }
      forall e <- sl1 ensures EntryOk(env, e) {
        assert e in multiset(sl1);
        assert e in sl || e == Bimodal(s.a.a.id, s.a.pl, None, false);
      }
      hide WellStacked;
      hide Mirrors;
      hide FoldMirrors;
      hide Satisfied;
    }

    lemma FinishPop(sl: seq<Bimodal>, after: View, sl': seq<Bimodal>)
      requires GoodEnv(env) && Coherent(sl) && |projects| > 1
      requires after.env == env && after.projects == Front()
      requires Popping(env, Front(), deps, Top().a.a, EdgesOf(env, Top().a), {}, after.deps, after.folds, sl')
      ensures after.Coherent(sl')
    {
      var s, front := Top(), Front();
      assert projects == front + [s];
      StackPop(env, front, s);
      assert Extends(env, after.deps, s.a, deps);
      MirrorsPop(env, front, s, deps, after.deps);
      forall r ensures Satisfied(env.w, front, after.deps, r) { SatisfiedPop(env, front, s, deps, after.deps, r); }
    }

    /** What `selectRoot` has achieved when the last of the root's dependencies is pushed. */
    lemma FinishRoot(sl: seq<Bimodal>)
      requires GoodEnv(env) && projects == [Selected(env.w.RootAtom(), true)]
      requires Pushing(env, projects, map[], [], env.w.RootAtom().a, env.rootDeps, env.rootDeps.Keys, deps, folds, sl)
      ensures Coherent(sl)
    {
      var root := env.w.RootAtom();
      forall r ensures On(deps, r) == Inbound(env, projects, |projects|, r) && Satisfied(env.w, projects, deps, r) {
        RootEdgesPushed(r);
      }
      hide Satisfied;
    }

    lemma RootEdgesPushed(r: ProjectRoot)
      requires GoodEnv(env) && projects == [Selected(env.w.RootAtom(), true)]
      requires Appended(map[], deps, env.w.RootAtom().a, env.rootDeps, env.rootDeps.Keys)
      ensures On(deps, r) == Inbound(env, projects, |projects|, r)
      ensures Satisfied(env.w, projects, deps, r)
    {
      var root := env.w.RootAtom();
      assert Inbound(env, projects, 1, r) == Inbound(env, projects, 0, r) + EdgeTo(env, root, r);
      if r in env.rootDeps {
        assert On(deps, r) == [Dependency(root.a, env.rootDeps[r])];
        assert Composite(On(deps, r), 1) == Intersect(Composite(On(deps, r), 0), env.rootDeps[r].wc.constraint);
      }
    }

    /** With nothing left to select, the stack is complete. */
    lemma EmptyQueueIsComplete()
      requires GoodEnv(env) && Coherent([])
      ensures WellStacked(env, projects) && Complete(env, projects)
    {
      forall s <- projects, r | r in EdgesOf(env, s.a) && !env.w.IsRoot(r)
        ensures var dep := EdgesOf(env, s.a)[r];
                && Base(projects, r).Some?
                && Fits(env.w, dep, Base(projects, r).value.a)
                && forall p <- dep.pl :: AmongSelected(projects, r, p)
      {
        EdgeIsMet(s, r);
      }
    }

    lemma EdgeIsMet(s: Selected, r: ProjectRoot)
      requires GoodEnv(env) && Coherent([])
      requires s in projects && r in EdgesOf(env, s.a) && !env.w.IsRoot(r)
      ensures var dep := EdgesOf(env, s.a)[r];
              && Base(projects, r).Some?
              && Fits(env.w, dep, Base(projects, r).value.a)
              && forall p <- dep.pl :: AmongSelected(projects, r, p)
    {
      var dep := EdgesOf(env, s.a)[r];
      var d := Dependency(s.a.a, dep);
      EdgeIsInbound(s, r);
      hide GoodEnv;
      hide WellStacked;
      hide Mirrors;
      hide FoldMirrors;
      hide Agree;
      hide EdgesOf;
      forall p <- dep.pl ensures AmongSelected(projects, r, p) {
        assert Held(projects, [], r, p);
      }
      assert dep.pl[0] in dep.pl;
      var t :| t in projects && t.a.a.id.root == r && dep.pl[0] in t.a.pl;
      assert Satisfied(env.w, projects, deps, r);
      hide Covered;
    }

    lemma EdgeIsInbound(s: Selected, r: ProjectRoot)
      requires GoodEnv(env) && Mirrors(env, projects, deps)
      requires s in projects && r in EdgesOf(env, s.a)
      ensures Dependency(s.a.a, EdgesOf(env, s.a)[r]) in On(deps, r) && EdgesOf(env, s.a)[r].pl != []
    {
      EdgesGood(env, s.a, r);
      var i :| 0 <= i < |projects| && projects[i] == s;
      DependerInbound(env, projects, |projects|, r, i);
      assert Dependency(s.a.a, EdgesOf(env, s.a)[r]) in EdgeTo(env, s.a, r);
      hide GoodEnv;
    }
  }

  // ---------------------------------------------------------------- solutions and entries

  /** The packages combined for an atom so far. */
  function Packages(projs: map<Atom, set<string>>, a: Atom): set<string> {
    if a in projs then projs[a] else {}
  }

  /** The first n selections, the root aside, combined. */
  function Solution(projects: seq<Selected>, n: nat): map<Atom, set<string>>
    requires n <= |projects|
  {
    if n <= 1 then map[]
    else
      var before := Solution(projects, n - 1);
      var s := projects[n - 1];
      before[s.a.a := Packages(before, s.a.a) + Elements(s.a.pl)]
  }

  predicate AmongSelected(projects: seq<Selected>, r: ProjectRoot, p: string) {
    exists s <- projects :: s.a.a.id.root == r && p in s.a.pl
  }

  /** A stack needs nothing more: every dependency of every selected atom, the root's own
      included, is on a selected project, at a version it admits, which has every package
      demanded, free of error, and each of those packages is selected. */
  ghost predicate Complete(env: Env, projects: seq<Selected>) {
    forall s <- projects, r | r in EdgesOf(env, s.a) && !env.w.IsRoot(r) ::
      var dep := EdgesOf(env, s.a)[r];
      && Base(projects, r).Some?
      && Fits(env.w, dep, Base(projects, r).value.a)
      && forall p <- dep.pl :: AmongSelected(projects, r, p)
  }

  /** The state in which `selectRoot` starts pushing. */
  lemma StartRoot(env: Env, projects: seq<Selected>)
    requires GoodEnv(env)
    ensures Pushable(env, map[], map[], env.rootDeps)
    ensures Pushing(env, projects, map[], [], env.w.RootAtom().a, env.rootDeps, {}, map[], map[], [])
  {
  }

  lemma RootEdge(env: Env, projects: seq<Selected>, done: set<ProjectRoot>, deps: Deps,
                 folds: map<string, ProjectRoot>, sl: seq<Bimodal>, r: ProjectRoot)
    requires GoodEnv(env) && r in env.rootDeps && r !in done
    requires Pushing(env, projects, map[], [], env.w.RootAtom().a, env.rootDeps, done, deps, folds, sl)
    ensures env.rootDeps[r].wc.ident.root == r && env.rootDeps[r].pl != [] && On(deps, r) == []
    ensures NewPackages(On(deps, r), Dependency(env.w.RootAtom().a, env.rootDeps[r]), env.rootDeps[r].pl)
  {
    assert GoodDep(env.w, r, env.rootDeps[r]);
  }

  /** What an atom's own lock holds. */
  function LockOf(w: World, a: Atom): map<ProjectIdentifier, Version> {
    var m := w.analysis(a);
    if m.None? || m.value.lock.None? then map[] else Locked(m.value.lock.value, |m.value.lock.value|)
  }

  function PreferenceOf(w: World, a: Atom, id: ProjectIdentifier): Option<Version> {
    if id in LockOf(w, a) then Some(LockOf(w, a)[id]) else None
  }

  /** A queue entry that selecting the atom gives rise to: packages of one of its dependencies,
      with the version that the atom's own lock prefers. */
  predicate Introduced(w: World, a: Atom, deps: map<ProjectRoot, CompleteDep>, e: Bimodal) {
    && e.id.root in deps && !e.fromRoot && e.pl != []
    && (forall p <- e.pl :: p in deps[e.id.root].pl)
    && e.prefv == PreferenceOf(w, a, deps[e.id.root].wc.ident)
  }

  /** The queue entry for one of the root's dependencies. */
  predicate FromRoot(deps: map<ProjectRoot, CompleteDep>, e: Bimodal) {
    e.id.root in deps && e == Bimodal(deps[e.id.root].wc.ident, deps[e.id.root].pl, None, true)
  }

  /** The version the root's lock holds for a project, where it is to be heeded. */
  function LockFor(w: World, id: ProjectIdentifier): Option<Version> {
    if ((id.root in w.change || w.changeAll) && w.sourceExists(id) == Some(true)) || id.root !in w.lock then None
    else Some(w.lock[id.root].version)
  }

  /** The versions a new queue holds for an entry, given the dependencies on its project: lock,
      preference and list, behind the revision that is demanded, if one is. */
  function Assembled(w: World, ds: seq<Dependency>, bmi: Bimodal): seq<Version> {
    var prefv := if bmi.fromRoot then Preferred(w, ds, |ds|, bmi.id) else bmi.prefv;
    var s := Schedule(w, bmi.id, LockFor(w, bmi.id), prefv);
    var c := Composite(ds, |ds|);
    if c.Exactly? && c.v.Revision? && s != [] && s[0] != c.v then [c.v] + s else s
  }

  /** The last entry among the first n that locks the project, else the given version. */
  function LastLocked(lps: seq<LockedProject>, n: nat, id: ProjectIdentifier, else_: Option<Version>): Option<Version>
    requires n <= |lps|
  {
    if n == 0 then else_
    else if lps[n - 1].ident.Eq(id) then Some(lps[n - 1].version) else LastLocked(lps, n - 1, id, else_)
  }

  /** What the locks of the first n dependers, the root aside, prefer; the last one wins. */
  function Preferred(w: World, ds: seq<Dependency>, n: nat, id: ProjectIdentifier): Option<Version>
    requires n <= |ds|
  {
    if n == 0 then None
    else
      var before := Preferred(w, ds, n - 1, id);
      var m := w.analysis(ds[n - 1].depender);
      if w.IsRoot(ds[n - 1].depender.id.root) || m.None? || m.value.lock.None? then before
      else LastLocked(m.value.lock.value, |m.value.lock.value|, id, before)
  }

  lemma {:induction false} KeptBound(vs: seq<Version>, n: nat, lockv: Option<Version>, prefv: Option<Version>)
    requires n <= |vs|
    ensures |Kept(vs, n, lockv, prefv)| <= n
  {
    if n == 0 {
    } else {
      KeptBound(vs, n - 1, lockv, prefv);
    }
  }

  lemma ScheduleBound(w: World, id: ProjectIdentifier, lockv: Option<Version>, prefv: Option<Version>)
    requires VersionsBounded(w)
    ensures |Schedule(w, id, lockv, prefv)| <= w.maxVersions + 2
  {
    var listed := w.versions(id);
    if listed.Some? { KeptBound(listed.value, |listed.value|, lockv, prefv); }
  }

  /** The versions the first n entries lock, the last one winning. */
  function Locked(lps: seq<LockedProject>, n: nat): map<ProjectIdentifier, Version>
    requires n <= |lps|
  {
    if n == 0 then map[] else Locked(lps, n - 1)[lps[n - 1].ident := lps[n - 1].version]
  }
}
