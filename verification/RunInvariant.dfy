/** Every state of every run is coherent: what `SolverInvariant` says of the solver's fields holds of
    the states that `SolverRuns.Next` leads to, so the theorems about coherent states apply to runs. */
module RunInvariant {
  import opened Wrappers
  import opened Strings
  import opened Versions
  import opened Bridge
  import opened Requirements
  import Sel = Selection
  import opened Selection
  import opened SolverInvariant
  import opened SolverSteps
  import opened SolverViews
  import opened SolverRuns

  /** The solver's fields are in order, and there is one version queue for each project selected above
      the root. */
  ghost predicate InOrder(env: Env, s: State) {
    && s.view.env == env && s.view.Coherent(s.sl)
    && s.ids == FirstIds(s.view.projects, |s.view.projects|)
    && Vetted(env, s.view.projects)
  }

  /** A revision that a selected atom demands of a project is there in the project's source. The root's own
      demands are not checked. */
  ghost predicate Vetted(env: Env, projects: seq<Selected>) {
    forall i, r | 0 < i < |projects| && r in EdgesOf(env, projects[i].a) ::
      RevisionThere(env.w, EdgesOf(env, projects[i].a)[r])
  }

  predicate RevisionThere(w: World, dep: CompleteDep) {
    match dep.wc.constraint
    case Exactly(Revision(x)) => w.revisionPresent(dep.wc.ident, x)
    case _ => true
  }

  lemma VettedBelow(env: Env, projects: seq<Selected>, n: nat)
    requires Vetted(env, projects) && n <= |projects|
    ensures Vetted(env, projects[..n])
  {
    hide EdgesOf;
    hide RevisionThere;
    forall i, r | 0 < i < n && r in EdgesOf(env, projects[..n][i].a)
      ensures RevisionThere(env.w, EdgesOf(env, projects[..n][i].a)[r])
    {
      assert projects[..n][i] == projects[i];
    }
  }

  lemma VettedMore(v: View, a: AtomWithPackages, pkgonly: bool, s: Selected)
    requires GoodEnv(v.env) && Vetted(v.env, v.projects) && v.Passing(a, pkgonly)
    requires s.a == a.(pl := v.env.imports(a).value.pl) && !v.env.w.IsRoot(a.a.id.root)
    ensures Vetted(v.env, v.projects + [s])
  {
    var projects := v.projects + [s];
    assert GoodAt(v.env, a);
    forall i, r | 0 < i < |projects| && r in EdgesOf(v.env, projects[i].a)
      ensures RevisionThere(v.env.w, EdgesOf(v.env, projects[i].a)[r])
    {
      if i < |v.projects| {
        assert projects[i] == v.projects[i];
      } else {
        var dep := EdgesOf(v.env, s.a)[r];
        assert dep == v.env.imports(a).value.deps[r];
        assert DepAllowed(v.env.w, v.projects, v.deps, v.folds, dep);
        assert RevisionExists(v.env.w, dep);
      }
    }
    hide GoodEnv;
    hide AtomAllowable;
    hide RequiredPackagesExist;
    hide IdentMatches;
    hide NoCaseConflict;
    hide ConstraintAllowable;
    hide AllowsSelected;
    hide ImportsExist;
  }

  // ---------------------------------------------------------------- the start

  lemma StartInOrder(env: Env, s: State)
    requires GoodEnv(env) && Starts(env, s)
    ensures InOrder(env, s)
  {
    hide GoodEnv;
    hide FoldMirrors;
    hide RootEntries;
    hide Satisfied;
    StartsOnceEach(env, s);
    StartMirrors(env, s);
    forall r, d, p | d in On(s.view.deps, r) && p in d.dep.pl ensures Held(s.view.projects, s.sl, r, p) {
      StartHolds(env, s, r, d, p);
    }
    forall e <- s.sl ensures EntryOk(env, e) { StartEntryOk(env, e); }
    NoFirstIds(s.view.projects);
    hide Held;
    hide Mirrors;
  }

  lemma StartMirrors(env: Env, s: State)
    requires GoodEnv(env) && Starts(env, s)
    ensures Mirrors(env, s.view.projects, s.view.deps)
    ensures forall r :: Satisfied(env.w, s.view.projects, s.view.deps, r)
  {
    hide FoldMirrors;
    hide RootEntries;
    hide Satisfied;
    forall r
      ensures On(s.view.deps, r) == Inbound(env, s.view.projects, |s.view.projects|, r)
      ensures Satisfied(env.w, s.view.projects, s.view.deps, r)
    {
      s.view.RootEdgesPushed(r);
    }
    hide GoodEnv;
  }

  lemma StartHolds(env: Env, s: State, r: ProjectRoot, d: Dependency, p: string)
    requires GoodEnv(env) && Starts(env, s) && d in On(s.view.deps, r) && p in d.dep.pl
    ensures Held(s.view.projects, s.sl, r, p)
  {
    StartsOnceEach(env, s);
    hide GoodEnv;
    hide FoldMirrors;
    hide RootEntries;
    assert On(s.view.deps, r) == EdgeTo(env, env.w.RootAtom(), r);
    var e :| e in s.sl && e.id.root == r;
    assert FromRoot(env.rootDeps, e);
  }

  lemma StartEntryOk(env: Env, e: Bimodal)
    requires GoodEnv(env) && FromRoot(env.rootDeps, e)
    ensures EntryOk(env, e)
  {
    var dep := env.rootDeps[e.id.root];
    assert GoodDep(env.w, e.id.root, dep);
    assert dep.pl[0] in dep.pl;
    RootOfPackage(env.w, e.id.root, dep.pl[0]);
  }

  // ---------------------------------------------------------------- selecting

  /** What the queue holds once an atom was selected. */
  lemma SelectsCovers(v: View, sl: seq<Bimodal>, a: AtomWithPackages, s: Selected, v': View, sl': seq<Bimodal>,
                      r: ProjectRoot, d: Dependency, p: string)
    requires GoodEnv(v.env) && Pushable(v.env, v.deps, v.folds, EdgesOf(v.env, s.a))
    requires Covered(v.projects + [s], v.deps, Sel.Without(sl, a.a.id, a.pl))
    requires Selects(v, sl, a, !s.first, v', sl') && s.a == a.(pl := v.env.imports(a).value.pl)
    requires d in On(v'.deps, r) && p in d.dep.pl
    ensures Held(v'.projects, sl', r, p)
  {
    hide GoodEnv;
    hide EdgesOf;
    hide FoldMirrors;
    hide Sel.Without;
    hide Fresh;
    var edges, sl0 := EdgesOf(v.env, s.a), Sel.Without(sl, a.a.id, a.pl);
    assert On(v'.deps, r) == On(v.deps, r) + EdgeTo(v.env, s.a, r);
    if IsDemanded(On(v.deps, r), p) {
      var x :| x in On(v.deps, r) && p in x.dep.pl;
      HeldOn(v'.projects, sl0, sl', r, p, Entries(v.env.w, v.deps, a.a, edges, edges.Keys));
    } else {
      assert r in edges && d.dep == edges[r] && GoodDep(v.env.w, r, edges[r]);
      FreshExact(On(v.deps, r), edges[r].pl);
      var e := EntryFor(v.env.w, v.deps, a.a, edges[r]);
      assert Brings(v.deps, edges[r]) && p in e.pl && e.id.root == r;
      assert e in Entries(v.env.w, v.deps, a.a, edges, edges.Keys);
      assert e in multiset(sl');
    }
  }

  lemma HeldOn(projects: seq<Selected>, sl: seq<Bimodal>, sl': seq<Bimodal>, r: ProjectRoot, p: string,
               added: set<Bimodal>)
    requires Held(projects, sl, r, p) && multiset(sl') == multiset(sl) + multiset(added)
    ensures Held(projects, sl', r, p)
  {
    forall e <- sl ensures e in sl' {
      assert e in multiset(sl);
      assert e in multiset(sl');
    }
  }

  lemma SelectsQueueOk(v: View, sl: seq<Bimodal>, a: AtomWithPackages, s: Selected, v': View, sl': seq<Bimodal>)
    requires Pushable(v.env, v.deps, v.folds, EdgesOf(v.env, s.a))
    requires QueueOk(v.env, Sel.Without(sl, a.a.id, a.pl))
    requires Selects(v, sl, a, !s.first, v', sl') && s.a == a.(pl := v.env.imports(a).value.pl)
    ensures QueueOk(v.env, sl')
  {
    hide EdgesOf;
    hide FoldMirrors;
    hide Sel.Without;
    hide Fresh;
    hide Extends;
    var edges, sl0 := EdgesOf(v.env, s.a), Sel.Without(sl, a.a.id, a.pl);
    forall e <- sl' ensures EntryOk(v.env, e) {
      assert e in multiset(sl');
      if e !in sl0 {
        assert e in Entries(v.env.w, v.deps, a.a, edges, edges.Keys);
        var r :| r in edges && Brings(v.deps, edges[r]) && e == EntryFor(v.env.w, v.deps, a.a, edges[r]);
        assert GoodDep(v.env.w, r, edges[r]);
        FreshExact(On(v.deps, r), edges[r].pl);
        RootOfPackage(v.env.w, r, edges[r].pl[0]);
      }
    }
  }

  /** Selecting an atom that passed its checks keeps the view coherent. */
  lemma SelectsCoherent(v: View, sl: seq<Bimodal>, a: AtomWithPackages, s: Selected, v': View, sl': seq<Bimodal>)
    requires GoodEnv(v.env) && v.Coherent(sl) && v.MaySelect(a, s) && Selects(v, sl, a, !s.first, v', sl')
    ensures v'.Coherent(sl') && v'.projects == v.projects + [s] && v'.env == v.env
  {
    v.Prepare(a, s, sl, Sel.Without(sl, a.a.id, a.pl));
    SelectsFacts(v, sl, a, s, v', sl');
    SelectsQueueOk(v, sl, a, s, v', sl');
    forall r, d, p | d in On(v'.deps, r) && p in d.dep.pl ensures Held(v'.projects, sl', r, p) {
      SelectsCovers(v, sl, a, s, v', sl', r, d, p);
    }
    StackPush(v.env, v.projects, s);
    MirrorsPush(v.env, v.projects, v.deps, s, v'.deps);
    forall r ensures Satisfied(v.env.w, v'.projects, v'.deps, r) {
      SatisfiedPush(v.env, v.projects, v.deps, v.folds, a, s, v'.deps, r);
    }
    hide GoodEnv;
    hide Selects;
    hide Satisfied;
    hide Mirrors;
    hide FoldMirrors;
    hide StacksOn;
    hide WellStacked;
    hide Pushable;
    hide Held;
    hide QueueOk;
    hide CheckPasses;
    hide EdgesOf;
    hide Extends;
  }

  lemma SelectsFacts(v: View, sl: seq<Bimodal>, a: AtomWithPackages, s: Selected, v': View, sl': seq<Bimodal>)
    requires Selects(v, sl, a, !s.first, v', sl') && s.a == a.(pl := v.env.imports(a).value.pl)
    ensures v'.env == v.env && v'.projects == v.projects + [s]
    ensures Extends(v.env, v.deps, s.a, v'.deps) && FoldMirrors(v.env.w, v'.deps, v'.folds)
  {
    assert Selected(s.a, s.first) == s;
    hide Extends;
    hide FoldMirrors;
    hide Entries;
    hide EdgesOf;
    hide Sel.Without;
  }

  // ---------------------------------------------------------------- taking back

  /** What the queue holds once the topmost atom was taken back. */
  lemma UnselectsCovers(v: View, edges: map<ProjectRoot, CompleteDep>, pushed: seq<Bimodal>,
                        order: seq<ProjectRoot>, v': View, r: ProjectRoot, d: Dependency, p: string)
    requires v.projects != [] && edges == EdgesOf(v.env, v.Top().a) && Extends(v.env, v'.deps, v.Top().a, v.deps)
    requires forall x <- edges :: edges[x].wc.ident.root == x
    requires Covered(v'.projects, v.deps, pushed) && d in On(v'.deps, r) && p in d.dep.pl
    ensures Held(v'.projects, Dropped(v.deps, edges, order, pushed), r, p)
  {
    hide EdgesOf;
    hide Dropped;
    assert On(v.deps, r) == On(v'.deps, r) + EdgeTo(v.env, v.Top().a, r);
    assert Held(v'.projects, pushed, r, p);
    forall e <- pushed | e.id.root == r ensures e in Dropped(v.deps, edges, order, pushed) {
      forall x <- edges | |On(v.deps, x)| == 1 ensures !Names(e, edges[x].wc.ident, edges[x].pl) {
        assert On(v.deps, x) == On(v'.deps, x) + EdgeTo(v.env, v.Top().a, x);
      }
      DroppedKeeps(v.deps, edges, order, pushed, e);
    }
  }

  /** Taking the topmost selection back keeps the view coherent. */
  lemma UnselectsCoherent(v: View, sl: seq<Bimodal>, v': View, sl': seq<Bimodal>)
    requires GoodEnv(v.env) && v.Coherent(sl) && |v.projects| > 1 && Unselects(v, sl, v', sl')
    ensures v'.Coherent(sl') && v'.env == v.env && v'.projects == v.Front()
    ensures StacksOn(v.env, v'.projects, v.Top())
  {
    hide View.Coherent;
    hide GoodEnv;
    hide EdgesOf;
    hide Dropped;
    hide Extends;
    hide FoldMirrors;
    hide Demanded;
    hide StacksOn;
    var edges := EdgesOf(v.env, v.Top().a);
    var pushed, order :| Requeues(v, sl, pushed, order, sl');
    v.PreparePop(sl, pushed);
    assert Covered(v'.projects, v.deps, pushed) && QueueOk(v.env, pushed);
    DroppedMembers(v.deps, edges, order, pushed);
    forall r, d, p | d in On(v'.deps, r) && p in d.dep.pl ensures Held(v'.projects, sl', r, p) {
      UnselectsCovers(v, edges, pushed, order, v', r, d, p);
    }
    assert QueueOk(v.env, sl');
    hide Held;
    hide Requeues;
    PopsAll(v, edges, v', sl');
    hide Covered;
    hide QueueOk;
    v.FinishPop(sl, v', sl');
  }

  lemma PopsAll(v: View, edges: map<ProjectRoot, CompleteDep>, v': View, sl': seq<Bimodal>)
    requires v.projects != [] && edges == EdgesOf(v.env, v.Top().a) && Extends(v.env, v'.deps, v.Top().a, v.deps)
    requires FoldMirrors(v.env.w, v'.deps, v'.folds) && Covered(v.Front(), v'.deps, sl') && QueueOk(v.env, sl')
    ensures Popping(v.env, v.Front(), v.deps, v.Top().a.a, edges, {}, v'.deps, v'.folds, sl')
  {
    hide EdgesOf;
    hide FoldMirrors;
    hide Covered;
    hide QueueOk;
  }

  lemma {:induction false} TakesOffCoherent(v: View, sl: seq<Bimodal>, n: nat, v': View, sl': seq<Bimodal>)
    requires GoodEnv(v.env) && v.Coherent(sl) && n < |v.projects| && TakesOff(v, sl, n, v', sl')
    ensures v'.Coherent(sl') && v'.env == v.env && v'.projects == v.projects[..|v.projects| - n]
    ensures n > 0 ==> StacksOn(v.env, v'.projects, v.projects[|v.projects| - n])
  {
    hide GoodEnv;
    hide View.Coherent;
    hide Unselects;
    hide StacksOn;
    if n == 0 {
      assert v.projects[..|v.projects|] == v.projects;
    } else {
      var m: View, slm: seq<Bimodal> :| TakesOff(v, sl, n - 1, m, slm) && Unselects(m, slm, v', sl');
      hide TakesOff;
      TakesOffCoherent(v, sl, n - 1, m, slm);
      UnselectsCoherent(m, slm, v', sl');
    }
  }

  /** The projects below the topmost first selection of a stack, and that selection. */
  lemma {:induction false} FirstIdsBelow(projects: seq<Selected>, n: nat, k: nat)
    requires 0 < n < k <= |projects| && projects[n].first && forall i | n < i < k :: !projects[i].first
    ensures FirstIds(projects, k) == FirstIds(projects[..n], n) + [projects[n].a.a.id]
  {
    if k == n + 1 {
      FirstIdsAppend(projects[..n], projects[n], n);
      FirstIdsPrefix(projects, n, n);
    } else {
      FirstIdsBelow(projects, n, k - 1);
    }
  }

  lemma {:induction false} FirstIdsPrefix(projects: seq<Selected>, m: nat, n: nat)
    requires n <= m <= |projects|
    ensures FirstIds(projects[..m], n) == FirstIds(projects, n)
  {
    if n <= 1 {
    } else {
      FirstIdsPrefix(projects, m, n - 1);
    }
  }

  lemma {:induction false} SomeFirst(projects: seq<Selected>, k: nat) returns (i: nat)
    requires k <= |projects| && FirstIds(projects, k) != []
    ensures 0 < i < k && projects[i].first
  {
    if projects[k - 1].first {
      i := k - 1;
    } else {
      i := SomeFirst(projects, k - 1);
    }
  }

  /** The atom that was taken off, with its project's packages. */
  ghost predicate TakenFrom(v: View, v': View, id: ProjectIdentifier) {
    && 0 < |v'.projects| < |v.projects| && v'.projects == v.projects[..|v'.projects|] && v'.env == v.env
    && var t := v.projects[|v'.projects|];
       t.a.a.id == id && Base(v'.projects, id.root) == None && !v.env.w.IsRoot(id.root) && id.root in Roots(v.env.w)
       && Distinct(t.a.pl)
  }

  /** Taking off a project keeps the view coherent, and it is the one that was put on last. */
  lemma ProjectTaken(v: View, sl: seq<Bimodal>, v': View, sl': seq<Bimodal>)
    requires GoodEnv(v.env) && v.Coherent(sl) && UnselectsProject(v, sl, v', sl')
    requires FirstIds(v.projects, |v.projects|) != []
    ensures v'.Coherent(sl') && v'.projects != []
    ensures var ids := FirstIds(v.projects, |v.projects|);
            && ids[..|ids| - 1] == FirstIds(v'.projects, |v'.projects|)
            && TakenFrom(v, v', ids[|ids| - 1])
  {
    hide GoodEnv;
    hide TakesOff;
    hide FirstIds;
    hide View.Coherent;
    hide Roots;
    var n := |v'.projects|;
    var i := SomeFirst(v.projects, |v.projects|);
    assert n > 0;
    TakesOffCoherent(v, sl, |v.projects| - n, v', sl');
    FirstIdsBelow(v.projects, n, |v.projects|);
    hide UnselectsProject;
  }

  // ---------------------------------------------------------------- one turn

  /** A turn of the main loop that selects: a new project, or more packages of one. */
  lemma ChoiceInOrder(env: Env, s: State, a: AtomWithPackages, pkgonly: bool, s': State)
    requires GoodEnv(env) && InOrder(env, s) && s.view.Passing(a, pkgonly)
    requires a.a.id.root in Roots(env.w) && !env.w.IsRoot(a.a.id.root) && Distinct(a.pl)
    requires match Base(s.view.projects, a.a.id.root) case None => !pkgonly case Some(b) => pkgonly && b.a.v == a.a.v
    requires Selects(s.view, s.sl, a, pkgonly, s'.view, s'.sl) && s'.ids == s.ids + if pkgonly then [] else [a.a.id]
    ensures InOrder(env, s')
  {
    s.view.PassingImports(a, pkgonly);
    hide GoodEnv;
    hide View.Coherent;
    hide View.Passing;
    hide Roots;
    hide Base;
    hide FirstIds;
    hide Selects;
    var t := Selected(a.(pl := env.imports(a).value.pl), !pkgonly);
    VettedMore(s.view, a, pkgonly, t);
    SelectsCoherent(s.view, s.sl, a, t, s'.view, s'.sl);
    s.view.NotEmpty(s.sl);
    FirstIdsOneMore(s.view.projects, t);
  }

  lemma SelectsNewInOrder(env: Env, s: State, e: Bimodal, s': State)
    requires GoodEnv(env) && InOrder(env, s) && e in s.sl && SelectsNew(s, e, s')
    ensures InOrder(env, s')
  {
    hide GoodEnv;
    hide QueueFor;
    hide Left;
    hide Search;
    hide Selects;
    hide View.Passing;
    hide Obtainable;
    hide Base;
    s.view.EntryGood(s.sl, e);
    hide View.Coherent;
    hide Roots;
    hide FirstIds;
    var left := Left(s.view, e.id, QueueFor(s.view, e), e.pl);
    var n := LeftIsSuffix(s.view, e.id, QueueFor(s.view, e), e.pl);
    hide InOrder;
    s.view.AcceptsExactly(e.id, left, e.pl);
    hide View.Accepts;
    ChoiceInOrder(env, s, AtomWithPackages(Atom(e.id, left[0]), e.pl), false, s');
  }

  lemma AddsInOrder(env: Env, s: State, e: Bimodal, s': State)
    requires GoodEnv(env) && InOrder(env, s) && e in s.sl && AddsPackages(s, e, s')
    ensures InOrder(env, s')
  {
    hide GoodEnv;
    hide Selects;
    hide View.Passing;
    s.view.EntryGood(s.sl, e);
    hide View.Coherent;
    hide Roots;
    hide FirstIds;
    hide InOrder;
    ChoiceInOrder(env, s, MoreOf(s.view, e), true, s');
  }

  lemma PopsInOrder(env: Env, s: State, s': State)
    requires GoodEnv(env) && InOrder(env, s) && Pops(s, s')
    ensures InOrder(env, s')
  {
    hide GoodEnv;
    hide UnselectsProject;
    hide View.Coherent;
    hide FirstIds;
    ProjectTaken(s.view, s.sl, s'.view, s'.sl);
    VettedBelow(env, s.view.projects, |s'.view.projects|);
    hide Vetted;
    hide Base;
    hide Roots;
  }

  /** Backtracking has taken off the project of the top queue. */
  lemma RetreatInOrder(env: Env, s: State, m: View, slm: seq<Bimodal>)
    requires GoodEnv(env) && InOrder(env, s) && Retreats(s, m, slm)
    ensures m.Coherent(slm) && s.ids[..|s.ids| - 1] == FirstIds(m.projects, |m.projects|)
    ensures TakenFrom(s.view, m, TopId(s)) && m.env == env && |m.projects| < |s.view.projects|
    ensures Vetted(env, m.projects)
  {
    hide GoodEnv;
    hide UnselectsProject;
    hide View.Coherent;
    hide FirstIds;
    hide Roots;
    hide Base;
    ProjectTaken(s.view, s.sl, m, slm);
    VettedBelow(env, s.view.projects, |m.projects|);
    hide Vetted;
  }

  lemma RetiresInOrder(env: Env, s: State, s': State)
    requires GoodEnv(env) && InOrder(env, s) && Retires(s, s')
    ensures InOrder(env, s')
  {
    hide GoodEnv;
    hide UnselectsProject;
    hide View.Coherent;
    hide FirstIds;
    hide NoneAccepted;
    hide Moves;
    hide TakenFrom;
    assert Retreats(s, s'.view, s'.sl);
    RetreatInOrder(env, s, s'.view, s'.sl);
    hide Retreats;
  }

  lemma ResumesInOrder(env: Env, s: State, m: View, slm: seq<Bimodal>, s': State)
    requires GoodEnv(env) && InOrder(env, s) && Resumes(s, m, slm, s')
    ensures InOrder(env, s')
  {
    hide GoodEnv;
    hide View.Coherent;
    hide View.Passing;
    hide FirstIds;
    hide Left;
    hide Moves;
    hide Selects;
    hide UnselectsProject;
    hide Roots;
    hide Base;
    RetreatInOrder(env, s, m, slm);
    hide InOrder;
    var id, pl := TopId(s), TakenPackages(s, m);
    var left := Left(m, id, Later(s), pl);
    var n := LeftIsSuffix(m, id, Later(s), pl);
    m.AcceptsExactly(id, left, pl);
    hide View.Accepts;
    hide Retreats;
    var mid := State(Choosing, m, slm, s.ids[..|s.ids| - 1], s.lists, s.flags);
    assert InOrder(env, mid) by { InOrderIs(env, mid); }
    ChoiceInOrder(env, mid, AtomWithPackages(Atom(id, left[0]), pl), false, s');
  }

  lemma InOrderIs(env: Env, s: State)
    ensures InOrder(env, s) <==>
            && s.view.env == env && s.view.Coherent(s.sl) && s.ids == FirstIds(s.view.projects, |s.view.projects|)
            && Vetted(env, s.view.projects)
  {
  }

  /** Every turn keeps things in order. */
  lemma NextInOrder(env: Env, s: State, s': State)
    requires GoodEnv(env) && InOrder(env, s) && Next(s, s')
    ensures InOrder(env, s')
  {
    hide GoodEnv;
    hide SelectsNew;
    hide AddsPackages;
    hide Pops;
    hide Retires;
    hide Resumes;
    hide View.Coherent;
    hide FirstIds;
    hide Search;
    hide CheckMarks;
    hide Searches;
    match s.mode
    case Choosing =>
      var e := s.sl[0];
      if SelectsNew(s, e, s') {
        SelectsNewInOrder(env, s, e, s');
      } else if AddsPackages(s, e, s') {
        AddsInOrder(env, s, e, s');
      }
    case Failing =>
      if Pops(s, s') {
        PopsInOrder(env, s, s');
      } else if Retires(s, s') {
        RetiresInOrder(env, s, s');
      } else {
        var m, slm :| Resumes(s, m, slm, s');
        ResumesInOrder(env, s, m, slm, s');
      }
  }

  // ---------------------------------------------------------------- whole runs

  /** Every state of every run is in order. */
  lemma {:induction false} RunInOrder(env: Env, run: seq<State>, n: nat)
    requires GoodEnv(env) && IsRun(env, run) && n < |run|
    ensures InOrder(env, run[n])
  {
    hide GoodEnv;
    hide Starts;
    hide Next;
    hide InOrder;
    if n == 0 {
      StartInOrder(env, run[0]);
    } else {
      RunInOrder(env, run, n - 1);
      NextInOrder(env, run[n - 1], run[n]);
    }
  }

  // ---------------------------------------------------------------- who is blamed

  /** The m-th selection is the first that depends on project r. */
  ghost predicate DependsFirst(env: Env, projects: seq<Selected>, m: nat, r: ProjectRoot) {
    m < |projects| && r in EdgesOf(env, projects[m].a) && forall k | 0 <= k < m :: r !in EdgesOf(env, projects[k].a)
  }

  lemma {:induction false} FirstInbound(env: Env, projects: seq<Selected>, n: nat, r: ProjectRoot)
    requires n <= |projects|
    ensures if Inbound(env, projects, n, r) == [] then forall k | 0 <= k < n :: r !in EdgesOf(env, projects[k].a)
            else exists m: nat | m < n :: DependsFirst(env, projects, m, r)
                                          && Inbound(env, projects, n, r)[0].depender == projects[m].a.a
  {
    hide EdgesOf;
    if n == 0 {
    } else {
      FirstInbound(env, projects, n - 1, r);
      if Inbound(env, projects, n - 1, r) == [] && r in EdgesOf(env, projects[n - 1].a) {
        assert DependsFirst(env, projects, n - 1, r);
      }
    }
  }

  lemma FirstIsOne(env: Env, projects: seq<Selected>, m: nat, n: nat, r: ProjectRoot)
    requires DependsFirst(env, projects, m, r) && DependsFirst(env, projects, n, r)
    ensures m == n
  {
    hide EdgesOf;
  }

  /** A search in vain marks the version queue of the first selection that depends on the project, unless
      that is the root, and no other. */
  lemma BlamedExactly(env: Env, s: State, id: ProjectIdentifier, i: nat)
    requires InOrder(env, s) && |s.flags| == |s.ids| && i < |s.ids|
    ensures var marks := Blamed(s.view, id, false, s.ids, s.flags);
            |marks| == |s.flags| &&
            (marks[i] <==> s.flags[i] || exists m | 0 < m < |s.view.projects| ::
               DependsFirst(env, s.view.projects, m, id.root) && s.ids[i].Eq(s.view.projects[m].a.a.id))
  {
    var projects, r := s.view.projects, id.root;
    FirstInbound(env, projects, |projects|, r);
    assert On(s.view.deps, r) == Inbound(env, projects, |projects|, r);
    FirstIdsDistinct(env, projects, |projects|);
    assert projects[0].a.a.id.root == env.w.rootRoot;
    hide View.Coherent;
    hide DependsFirst;
    hide FirstIds;
    hide Inbound;
    if On(s.view.deps, r) != [] {
      var m: nat :| m < |projects| && DependsFirst(env, projects, m, r)
          && On(s.view.deps, r)[0].depender == projects[m].a.a;
      forall n: nat | n < |projects| && DependsFirst(env, projects, n, r) ensures n == m {
        FirstIsOne(env, projects, m, n, r);
      }
      RootOnlyFirst(env, s, m);
      MarkedOne(env.w, s.ids, s.flags, projects[m].a.a.id, i);
      hide Marked;
    } else {
      forall n: nat | n < |projects| ensures !DependsFirst(env, projects, n, r) { NotFirst(env, projects, n, r); }
    }
  }

  lemma NotFirst(env: Env, projects: seq<Selected>, n: nat, r: ProjectRoot)
    requires forall k | 0 <= k < |projects| :: r !in EdgesOf(env, projects[k].a)
    ensures !DependsFirst(env, projects, n, r)
  {
    hide EdgesOf;
  }

  /** Only the bottom of the stack is of the root project. */
  lemma RootOnlyFirst(env: Env, s: State, m: nat)
    requires InOrder(env, s) && m < |s.view.projects|
    ensures env.w.IsRoot(s.view.projects[m].a.a.id.root) <==> m == 0
  {
    if m > 0 { assert StacksOn(env, s.view.projects[..m], s.view.projects[m]); }
    hide FirstIds;
  }

  /** One queue, that of the project, takes the mark. */
  lemma MarkedOne(w: World, ids: seq<ProjectIdentifier>, flags: seq<bool>, id: ProjectIdentifier, i: nat)
    requires |flags| == |ids| && i < |ids| && DistinctRoots(ids)
    ensures var marks := Marked(w, ids, flags, id);
            |marks| == |flags| && (marks[i] <==> flags[i] || (ids[i].Eq(id) && !w.IsRoot(id.root)))
  {
    hide IdIndex;
    var n := IdIndex(ids, id);
  }

  /** Failing the dependers of the first n dependencies marks their queues, and no other. */
  lemma {:induction false} MarkedAllExactly(w: World, ids: seq<ProjectIdentifier>, flags: seq<bool>,
                                            ds: seq<Dependency>, n: nat, i: nat)
    requires n <= |ds| && |flags| == |ids| && i < |ids| && DistinctRoots(ids)
    ensures var marks := MarkedAll(w, ids, flags, ds, n);
            |marks| == |flags| &&
            (marks[i] <==> flags[i] || exists k | 0 <= k < n ::
               ids[i].Eq(ds[k].depender.id) && !w.IsRoot(ds[k].depender.id.root))
  {
    hide Marked;
    if n == 0 {
    } else {
      MarkedAllExactly(w, ids, flags, ds, n - 1, i);
      MarkedOne(w, ids, MarkedAll(w, ids, flags, ds, n - 1), ds[n - 1].depender.id, i);
    }
  }
}
