/** Where a project comes from: when the identifier that a project is selected under is the one its
    dependers name, and what a solution promises package by package when it is. The solver compares
    dependers with one another (`checkIdentMatches` in `gps/satisfy.go`), never with what is selected
    or queued already, so an entry that outlives its dependers can keep an older source alive. */
module Sources {
  import opened Wrappers
  import opened Strings
  import opened Versions
  import opened Bridge
  import opened Requirements
  import Sel = Selection
  import opened Selection
  import opened SolverInvariant
  import opened SolverSteps
  import opened SolverViews
  import opened SolverRuns
  import opened Soundness
  import opened RunInvariant

  /** The identifier is the one in use for its project, if the project is depended on. */
  predicate InUse(deps: Deps, id: ProjectIdentifier) {
    var ds := On(deps, id.root);
    ds != [] ==> id == ds[0].dep.wc.ident
  }

  /** Every selected and every queued identifier is the one that the first depender names. */
  ghost predicate SourcesAgree(v: View, sl: seq<Bimodal>) {
    && (forall i | 0 < i < |v.projects| :: InUse(v.deps, v.projects[i].a.a.id))
    && (forall e <- sl :: InUse(v.deps, e.id))
  }

  /** Nothing is selected or queued for project r under another identifier. */
  predicate Vacant(projects: seq<Selected>, sl: seq<Bimodal>, r: ProjectRoot, id: ProjectIdentifier) {
    && (forall i | 0 < i < |projects| :: projects[i].a.a.id.root == r ==> projects[i].a.a.id == id)
    && (forall e <- sl :: e.id.root == r ==> e.id == id)
  }

  /** The first dependency on a project finds nothing there under another identifier. */
  ghost predicate FindsVacant(v: View, sl: seq<Bimodal>, edges: map<ProjectRoot, CompleteDep>) {
    forall r <- edges :: On(v.deps, r) == [] ==> Vacant(v.projects, sl, r, edges[r].wc.ident)
  }

  /** At the start the sources agree. */
  lemma StartAgrees(env: Env, s: State)
    requires GoodEnv(env) && Starts(env, s)
    ensures SourcesAgree(s.view, s.sl)
  {
    StartsOnceEach(env, s);
    forall e <- s.sl ensures InUse(s.view.deps, e.id) {
      assert FromRoot(env.rootDeps, e);
      var r := e.id.root;
      assert GoodDep(env.w, r, env.rootDeps[r]);
      assert On(s.view.deps, r) == EdgeTo(env, env.w.RootAtom(), r);
    }
    hide GoodEnv;
    hide Starts;
  }

  /** Taking a selection back keeps the sources in agreement. */
  lemma UnselectingAgrees(v: View, sl: seq<Bimodal>, v': View, sl': seq<Bimodal>)
    requires |v.projects| > 1 && SourcesAgree(v, sl) && Unselects(v, sl, v', sl')
    ensures SourcesAgree(v', sl')
  {
    hide EdgesOf;
    hide Dropped;
    hide FoldMirrors;
    hide InUse;
    var s, edges := v.Top(), EdgesOf(v.env, v.Top().a);
    var pushed, order :| Requeues(v, sl, pushed, order, sl');
    forall id | InUse(v.deps, id) ensures InUse(v'.deps, id) {
      StaysInUse(v, s.a, v', id);
    }
    forall e <- sl' ensures InUse(v'.deps, e.id) {
      DroppedMembers(v.deps, edges, order, pushed);
      assert e in multiset(pushed);
      assert e in sl || e.id == s.a.a.id;
    }
    forall i | 0 < i < |v'.projects| ensures InUse(v'.deps, v'.projects[i].a.a.id) {
      assert v'.projects[i] == v.projects[i];
    }
    hide Requeues;
    hide Extends;
  }

  lemma StaysInUse(v: View, a: AtomWithPackages, v': View, id: ProjectIdentifier)
    requires InUse(v.deps, id) && Extends(v.env, v'.deps, a, v.deps)
    ensures InUse(v'.deps, id)
  {
    assert On(v.deps, id.root) == On(v'.deps, id.root) + EdgeTo(v.env, a, id.root);
    hide EdgesOf;
  }

  /** Selecting an atom keeps the sources in agreement exactly when each project that it is the first
      to depend on has nothing selected or queued under another identifier. */
  lemma SelectingAgreesExactly(v: View, sl: seq<Bimodal>, a: AtomWithPackages, pkgonly: bool, v': View,
                               sl': seq<Bimodal>)
    requires GoodEnv(v.env) && v.projects != [] && SourcesAgree(v, sl) && InUse(v.deps, a.a.id)
    requires Selects(v, sl, a, pkgonly, v', sl') && !v.env.w.IsRoot(a.a.id.root)
    requires forall r, d | d in On(v.deps, r) :: d.dep.wc.ident.root == r
    ensures SourcesAgree(v', sl') <==>
            FindsVacant(v, Sel.Without(sl, a.a.id, a.pl), EdgesOf(v.env, a.(pl := v.env.imports(a).value.pl)))
  {
    var s := Selected(a.(pl := v.env.imports(a).value.pl), !pkgonly);
    var edges, sl0 := EdgesOf(v.env, s.a), Sel.Without(sl, a.a.id, a.pl);
    Sel.WithoutMembers(sl, a.a.id, a.pl);
    forall r <- edges ensures edges[r].wc.ident.root == r && r != a.a.id.root { EdgesGood(v.env, s.a, r); }
    forall id | InUse(v.deps, id)
      ensures InUse(v'.deps, id) <==> (id.root in edges && On(v.deps, id.root) == [] ==> id == edges[id.root].wc.ident)
    {
      InUseAfter(v, s.a, v', id);
    }
    NewEntriesInUse(v, s.a, edges, v');
    hide GoodEnv;
    hide EdgesOf;
    hide Entries;
    hide Sel.Without;
    hide FoldMirrors;
    hide Extends;
    hide InUse;
    AgreeAfter(v, sl0, s, edges, v', sl');
  }

  lemma InUseAfter(v: View, a: AtomWithPackages, v': View, id: ProjectIdentifier)
    requires InUse(v.deps, id) && Extends(v.env, v.deps, a, v'.deps)
    ensures var edges := EdgesOf(v.env, a);
            InUse(v'.deps, id) <==> (id.root in edges && On(v.deps, id.root) == [] ==> id == edges[id.root].wc.ident)
  {
    assert On(v'.deps, id.root) == On(v.deps, id.root) + EdgeTo(v.env, a, id.root);
    hide EdgesOf;
  }

  lemma NewEntriesInUse(v: View, a: AtomWithPackages, edges: map<ProjectRoot, CompleteDep>, v': View)
    requires Extends(v.env, v.deps, a, v'.deps) && edges == EdgesOf(v.env, a)
    requires forall r <- edges :: edges[r].wc.ident.root == r
    requires forall r, d | d in On(v.deps, r) :: d.dep.wc.ident.root == r
    ensures forall e <- Entries(v.env.w, v.deps, a.a, edges, edges.Keys) :: InUse(v'.deps, e.id)
  {
    hide EdgesOf;
    hide Fresh;
    forall e <- Entries(v.env.w, v.deps, a.a, edges, edges.Keys) ensures InUse(v'.deps, e.id) {
      var r :| r in edges && Brings(v.deps, edges[r]) && e == EntryFor(v.env.w, v.deps, a.a, edges[r]);
      assert On(v'.deps, r) == On(v.deps, r) + EdgeTo(v.env, a, r);
      assert e.id.root == r;
    }
  }

  lemma AgreeAfter(v: View, sl0: seq<Bimodal>, s: Selected, edges: map<ProjectRoot, CompleteDep>, v': View,
                   sl': seq<Bimodal>)
    requires v.projects != [] && v'.projects == v.projects + [s] && s.a.a.id.root !in edges && InUse(v.deps, s.a.a.id)
    requires (forall i | 0 < i < |v.projects| :: InUse(v.deps, v.projects[i].a.a.id))
             && (forall e <- sl0 :: InUse(v.deps, e.id))
    requires multiset(sl') == multiset(sl0) + multiset(Entries(v.env.w, v.deps, s.a.a, edges, edges.Keys))
    requires forall e <- Entries(v.env.w, v.deps, s.a.a, edges, edges.Keys) :: InUse(v'.deps, e.id)
    requires forall id | InUse(v.deps, id) ::
               InUse(v'.deps, id) <==> (id.root in edges && On(v.deps, id.root) == [] ==> id == edges[id.root].wc.ident)
    ensures SourcesAgree(v', sl') <==> FindsVacant(v, sl0, edges)
  {
    hide InUse;
    hide On;
    var added := Entries(v.env.w, v.deps, s.a.a, edges, edges.Keys);
    hide Entries;
    assert forall e :: e in sl' <==> e in sl0 || e in added by {
      assert forall e :: e in sl' <==> e in multiset(sl');
      assert forall e :: e in sl0 <==> e in multiset(sl0);
    }
    assert forall i | 0 < i < |v.projects| :: v'.projects[i] == v.projects[i];
    if FindsVacant(v, sl0, edges) {
      forall i | 0 < i < |v'.projects| ensures InUse(v'.deps, v'.projects[i].a.a.id) {
        if i == |v.projects| { assert v'.projects[i] == s; } else { assert v'.projects[i] == v.projects[i]; }
      }
    }
    if SourcesAgree(v', sl') {
      forall r <- edges | On(v.deps, r) == [] ensures Vacant(v.projects, sl0, r, edges[r].wc.ident) {
        forall i | 0 < i < |v.projects| && v.projects[i].a.a.id.root == r
          ensures v.projects[i].a.a.id == edges[r].wc.ident
        {
          assert InUse(v'.deps, v'.projects[i].a.a.id);
        }
      }
    }
  }

  // ---------------------------------------------------------------- whole runs

  /** A turn selects atom a on the given view: at the head of the main loop as it is, in backtracking
      after the top project was taken off. */
  ghost predicate SelectsOn(s: State, s': State, v: View, sl: seq<Bimodal>, a: AtomWithPackages, pkgonly: bool) {
    && Selects(v, sl, a, pkgonly, s'.view, s'.sl) && !v.env.w.IsRoot(a.a.id.root)
    && match s.mode
       case Choosing => v == s.view && sl == s.sl && sl != [] && a.a.id == sl[0].id
       case Failing => Retreats(s, v, sl) && a.a.id == TopId(s)
  }

  /** ... and the projects that a is the first to depend on are vacant there. */
  ghost predicate SelectsVacantly(s: State, s': State, v: View, sl: seq<Bimodal>, a: AtomWithPackages, pkgonly: bool) {
    && SelectsOn(s, s', v, sl, a, pkgonly)
    && FindsVacant(v, Sel.Without(sl, a.a.id, a.pl), EdgesOf(v.env, a.(pl := v.env.imports(a).value.pl)))
  }

  /** The turn selects nothing, or selects vacantly. */
  ghost predicate TurnVacant(s: State, s': State) {
    s'.mode == Choosing ==> exists v, sl, a, pkgonly :: SelectsVacantly(s, s', v, sl, a, pkgonly)
  }

  /** A turn that ends in the main loop has selected something. */
  lemma TurnSelects(env: Env, s: State, s': State)
      returns (v: View, sl: seq<Bimodal>, a: AtomWithPackages, pkgonly: bool)
    requires GoodEnv(env) && InOrder(env, s) && Next(s, s') && s'.mode == Choosing
    ensures SelectsOn(s, s', v, sl, a, pkgonly)
  {
    match s.mode {
      case Choosing =>
        v, sl := s.view, s.sl;
        a, pkgonly := ChoiceSelects(env, s, s');
      case Failing =>
        pkgonly := false;
        v, sl, a := ResumeSelects(env, s, s');
    }
    hide GoodEnv;
    hide InOrder;
    hide SelectsOn;
    hide Next;
  }

  lemma ChoiceSelects(env: Env, s: State, s': State) returns (a: AtomWithPackages, pkgonly: bool)
    requires GoodEnv(env) && InOrder(env, s) && Next(s, s') && s'.mode == Choosing && s.mode == Choosing
    ensures SelectsOn(s, s', s.view, s.sl, a, pkgonly)
  {
    hide GoodEnv;
    hide View.Coherent;
    hide Selects;
    hide Search;
    hide Obtainable;
    hide QueueFor;
    hide Left;
    hide View.Passing;
    hide CheckMarks;
    hide FirstIds;
    var e := s.sl[0];
    s.view.EntryGood(s.sl, e);
    if SelectsNew(s, e, s') {
      a, pkgonly := AtomWithPackages(Atom(e.id, Left(s.view, e.id, QueueFor(s.view, e), e.pl)[0]), e.pl), false;
    } else {
      a, pkgonly := MoreOf(s.view, e), true;
    }
  }

  lemma ResumeSelects(env: Env, s: State, s': State) returns (v: View, sl: seq<Bimodal>, a: AtomWithPackages)
    requires GoodEnv(env) && InOrder(env, s) && Next(s, s') && s'.mode == Choosing && s.mode == Failing
    ensures SelectsOn(s, s', v, sl, a, false)
  {
    hide GoodEnv;
    hide View.Coherent;
    hide Selects;
    hide Left;
    hide Moves;
    hide FirstIds;
    hide UnselectsProject;
    hide Base;
    hide Roots;
    hide NoneAccepted;
    var m, slm :| Resumes(s, m, slm, s');
    v, sl := m, slm;
    RetreatInOrder(env, s, m, slm);
    hide InOrder;
    a := AtomWithPackages(Atom(TopId(s), Left(m, TopId(s), Later(s), TakenPackages(s, m))[0]), TakenPackages(s, m));
  }

  /** Taking off any number of selections keeps the sources in agreement, and what is in use in use. */
  lemma {:induction false} TakingOffAgrees(v: View, sl: seq<Bimodal>, n: nat, v': View, sl': seq<Bimodal>,
                                           id: ProjectIdentifier)
    requires GoodEnv(v.env) && v.Coherent(sl) && SourcesAgree(v, sl) && InUse(v.deps, id)
    requires n < |v.projects| && TakesOff(v, sl, n, v', sl')
    ensures SourcesAgree(v', sl') && InUse(v'.deps, id)
  {
    hide GoodEnv;
    hide View.Coherent;
    hide SourcesAgree;
    hide InUse;
    hide Unselects;
    hide StacksOn;
    if n == 0 {
    } else {
      var m: View, slm: seq<Bimodal> :| TakesOff(v, sl, n - 1, m, slm) && Unselects(m, slm, v', sl');
      TakesOffCoherent(v, sl, n - 1, m, slm);
      hide TakesOff;
      TakingOffAgrees(v, sl, n - 1, m, slm, id);
      UnselectingAgrees(m, slm, v', sl');
      UnselectsExtends(m, slm, v', sl');
      StaysInUse(m, m.Top().a, v', id);
    }
  }

  lemma UnselectsExtends(v: View, sl: seq<Bimodal>, v': View, sl': seq<Bimodal>)
    requires Unselects(v, sl, v', sl')
    ensures v.projects != [] && Extends(v.env, v'.deps, v.Top().a, v.deps)
  {
    hide Extends;
    hide FoldMirrors;
    hide Requeues;
  }

  /** Backtracking, up to where something is selected again, keeps the sources in agreement. */
  lemma RetreatAgrees(env: Env, s: State, m: View, slm: seq<Bimodal>)
    requires GoodEnv(env) && InOrder(env, s) && s.ids != [] && UnselectsProject(s.view, s.sl, m, slm)
    requires SourcesAgree(s.view, s.sl)
    ensures SourcesAgree(m, slm) && InUse(m.deps, s.ids[|s.ids| - 1]) && m.Coherent(slm) && m.projects != []
    ensures m.env == env
  {
    hide GoodEnv;
    hide View.Coherent;
    hide FirstIds;
    hide InUse;
    hide Roots;
    hide Base;
    hide TakesOff;
    ProjectTaken(s.view, s.sl, m, slm);
    var id, n := s.ids[|s.ids| - 1], |m.projects|;
    assert InUse(s.view.deps, s.view.projects[n].a.a.id);
    hide SourcesAgree;
    TakingOffAgrees(s.view, s.sl, |s.view.projects| - n, m, slm, id);
  }

  /** Where a turn selects, the sources agree on the view that it selects on. */
  lemma AgreesBefore(env: Env, s: State, s': State, v: View, sl: seq<Bimodal>, a: AtomWithPackages, pkgonly: bool)
    requires GoodEnv(env) && InOrder(env, s) && SourcesAgree(s.view, s.sl) && SelectsOn(s, s', v, sl, a, pkgonly)
    ensures SourcesAgree(v, sl) && InUse(v.deps, a.a.id) && v.Coherent(sl) && v.env == env && v.projects != []
  {
    hide GoodEnv;
    hide View.Coherent;
    hide Selects;
    hide UnselectsProject;
    hide InUse;
    match s.mode
    case Choosing =>
      s.view.NotEmpty(s.sl);
      assert InUse(s.view.deps, s.sl[0].id);
    case Failing =>
      hide SourcesAgree;
      RetreatAgrees(env, s, v, sl);
  }

  /** A selecting turn keeps the sources in agreement exactly when it selects vacantly. */
  lemma SelectingTurnAgrees(env: Env, s: State, s': State, v: View, sl: seq<Bimodal>, a: AtomWithPackages,
                            pkgonly: bool)
    requires GoodEnv(env) && InOrder(env, s) && SourcesAgree(s.view, s.sl) && SelectsOn(s, s', v, sl, a, pkgonly)
    ensures SourcesAgree(s'.view, s'.sl) <==> SelectsVacantly(s, s', v, sl, a, pkgonly)
  {
    hide GoodEnv;
    hide View.Coherent;
    hide Selects;
    hide SourcesAgree;
    hide InUse;
    hide Retreats;
    hide FindsVacant;
    AgreesBefore(env, s, s', v, sl, a, pkgonly);
    FiledByRoot(v, sl);
    SelectingAgreesExactly(v, sl, a, pkgonly, s'.view, s'.sl);
    hide InOrder;
    hide EdgesOf;
  }

  lemma FiledByRoot(v: View, sl: seq<Bimodal>)
    requires GoodEnv(v.env) && v.Coherent(sl)
    ensures forall r, d | d in On(v.deps, r) :: d.dep.wc.ident.root == r
  {
    forall r, d | d in On(v.deps, r) ensures d.dep.wc.ident.root == r { MirrorsGood(v.env, v.projects, v.deps, r); }
    hide GoodEnv;
    hide Mirrors;
    hide WellStacked;
    hide Satisfied;
    hide FoldMirrors;
  }

  /** A turn keeps the sources in agreement exactly when it selects nothing or selects vacantly. */
  lemma TurnAgreesExactly(env: Env, s: State, s': State)
    requires GoodEnv(env) && InOrder(env, s) && SourcesAgree(s.view, s.sl) && Next(s, s')
    ensures SourcesAgree(s'.view, s'.sl) <==> TurnVacant(s, s')
  {
    hide GoodEnv;
    hide SourcesAgree;
    hide SelectsOn;
    hide SelectsVacantly;
    hide InOrder;
    if s'.mode == Choosing {
      hide Next;
      var v, sl, a, pkgonly := TurnSelects(env, s, s');
      SelectingTurnAgrees(env, s, s', v, sl, a, pkgonly);
      if v2, sl2, a2, pkgonly2 :| SelectsVacantly(s, s', v2, sl2, a2, pkgonly2) {
        VacantlySelects(s, s', v2, sl2, a2, pkgonly2);
        SelectingTurnAgrees(env, s, s', v2, sl2, a2, pkgonly2);
      }
    } else {
      FailingTurnAgrees(env, s, s');
      hide Next;
    }
  }

  lemma VacantlySelects(s: State, s': State, v: View, sl: seq<Bimodal>, a: AtomWithPackages, pkgonly: bool)
    requires SelectsVacantly(s, s', v, sl, a, pkgonly)
    ensures SelectsOn(s, s', v, sl, a, pkgonly)
  {
    hide SelectsOn;
    hide FindsVacant;
  }

  /** A turn that selects nothing leaves things as they are, or takes a project off. */
  lemma FailingTurnAgrees(env: Env, s: State, s': State)
    requires GoodEnv(env) && InOrder(env, s) && SourcesAgree(s.view, s.sl) && Next(s, s') && s'.mode == Failing
    ensures SourcesAgree(s'.view, s'.sl)
  {
    hide GoodEnv;
    hide View.Coherent;
    hide SourcesAgree;
    hide UnselectsProject;
    hide Selects;
    hide Search;
    hide Searches;
    hide CheckMarks;
    hide NoneAccepted;
    hide Moves;
    hide FirstIds;
    hide InUse;
    match s.mode
    case Choosing =>
    case Failing =>
      assert UnselectsProject(s.view, s.sl, s'.view, s'.sl);
      RetreatAgrees(env, s, s'.view, s'.sl);
  }

  /** A run keeps the sources in agreement throughout exactly when each of its turns selects nothing or
      selects vacantly. */
  lemma RunAgreesExactly(env: Env, run: seq<State>)
    requires GoodEnv(env) && IsRun(env, run)
    ensures (forall n | 0 <= n < |run| :: SourcesAgree(run[n].view, run[n].sl)) <==>
            (forall n | 0 < n < |run| :: TurnVacant(run[n - 1], run[n]))
  {
    hide GoodEnv;
    hide SourcesAgree;
    hide TurnVacant;
    hide InOrder;
    hide Starts;
    hide Next;
    if forall n | 0 < n < |run| :: TurnVacant(run[n - 1], run[n]) {
      VacantRunAgrees(env, run, |run| - 1);
    }
    if forall n | 0 <= n < |run| :: SourcesAgree(run[n].view, run[n].sl) {
      forall n | 0 < n < |run| ensures TurnVacant(run[n - 1], run[n]) {
        RunInOrder(env, run, n - 1);
        TurnAgreesExactly(env, run[n - 1], run[n]);
      }
    }
  }

  lemma {:induction false} VacantRunAgrees(env: Env, run: seq<State>, k: nat)
    requires GoodEnv(env) && IsRun(env, run) && k < |run|
    requires forall n | 0 < n < |run| :: TurnVacant(run[n - 1], run[n])
    ensures forall n | 0 <= n <= k :: SourcesAgree(run[n].view, run[n].sl)
  {
    hide GoodEnv;
    hide SourcesAgree;
    hide TurnVacant;
    hide InOrder;
    hide Starts;
    hide Next;
    if k == 0 {
      StartAgrees(env, run[0]);
    } else {
      VacantRunAgrees(env, run, k - 1);
      RunInOrder(env, run, k - 1);
      TurnAgreesExactly(env, run[k - 1], run[k]);
    }
  }

  // ---------------------------------------------------------------- where every project has one name

  /** Some dependency, of the root or of some atom, names project r by this identifier. */
  ghost predicate NamedBy(env: Env, r: ProjectRoot, id: ProjectIdentifier) {
    || (r in env.rootDeps && env.rootDeps[r].wc.ident == id)
    || exists a :: NamedIn(env, a, r, id)
  }

  predicate NamedIn(env: Env, a: AtomWithPackages, r: ProjectRoot, id: ProjectIdentifier) {
    env.imports(a).Some? && r in env.imports(a).value.deps && env.imports(a).value.deps[r].wc.ident == id
  }

  ghost predicate OneName(env: Env) {
    forall r, i, j | NamedBy(env, r, i) && NamedBy(env, r, j) :: i == j
  }

  /** Every selected and every queued identifier is one that some dependency names. */
  ghost predicate AllNamed(v: View, sl: seq<Bimodal>) {
    && (forall i | 0 < i < |v.projects| :: NamedBy(v.env, v.projects[i].a.a.id.root, v.projects[i].a.a.id))
    && (forall e <- sl :: NamedBy(v.env, e.id.root, e.id))
  }

  lemma EdgeNamed(env: Env, a: AtomWithPackages, r: ProjectRoot)
    requires r in EdgesOf(env, a)
    ensures NamedBy(env, r, EdgesOf(env, a)[r].wc.ident)
  {
    if !env.w.IsRoot(a.a.id.root) { assert NamedIn(env, a, r, EdgesOf(env, a)[r].wc.ident); }
  }

  lemma {:induction false} InboundNamed(env: Env, projects: seq<Selected>, n: nat, r: ProjectRoot)
    requires n <= |projects|
    ensures forall d <- Inbound(env, projects, n, r) :: NamedBy(env, r, d.dep.wc.ident)
  {
    hide NamedBy;
    hide EdgesOf;
    if n == 0 {
    } else {
      InboundNamed(env, projects, n - 1, r);
      if r in EdgesOf(env, projects[n - 1].a) { EdgeNamed(env, projects[n - 1].a, r); }
    }
  }

  /** Where every project has one name, all identifiers that are in use agree. */
  lemma NamedAgree(v: View, sl: seq<Bimodal>)
    requires v.Coherent(sl) && OneName(v.env) && AllNamed(v, sl)
    ensures SourcesAgree(v, sl)
  {
    assert Mirrors(v.env, v.projects, v.deps);
    hide View.Coherent;
    hide NamedBy;
    forall id: ProjectIdentifier | NamedBy(v.env, id.root, id) ensures InUse(v.deps, id) {
      var ds := On(v.deps, id.root);
      InboundNamed(v.env, v.projects, |v.projects|, id.root);
      if ds != [] { assert ds[0] in ds; }
    }
  }

  lemma StartNamed(env: Env, s: State)
    requires GoodEnv(env) && Starts(env, s)
    ensures AllNamed(s.view, s.sl)
  {
    StartsOnceEach(env, s);
    forall e <- s.sl ensures NamedBy(env, e.id.root, e.id) {
      assert FromRoot(env.rootDeps, e);
      assert GoodDep(env.w, e.id.root, env.rootDeps[e.id.root]);
    }
    hide GoodEnv;
    hide FoldMirrors;
    hide RootEntries;
    hide NamedBy;
  }

  lemma SelectsNamed(v: View, sl: seq<Bimodal>, a: AtomWithPackages, pkgonly: bool, v': View, sl': seq<Bimodal>)
    requires GoodEnv(v.env) && v.Coherent(sl) && v.projects != [] && AllNamed(v, sl)
    requires NamedBy(v.env, a.a.id.root, a.a.id) && Selects(v, sl, a, pkgonly, v', sl')
    ensures AllNamed(v', sl')
  {
    assert Mirrors(v.env, v.projects, v.deps);
    FiledByRoot(v, sl);
    hide GoodEnv;
    hide View.Coherent;
    hide NamedBy;
    hide EdgesOf;
    hide Extends;
    hide FoldMirrors;
    hide Fresh;
    hide Sel.Without;
    var edges := EdgesOf(v.env, a.(pl := v.env.imports(a).value.pl));
    Sel.WithoutMembers(sl, a.a.id, a.pl);
    forall e <- sl' ensures NamedBy(v.env, e.id.root, e.id) {
      assert e in multiset(sl');
      if e !in Sel.Without(sl, a.a.id, a.pl) {
        assert e in Entries(v.env.w, v.deps, a.a, edges, edges.Keys);
        var r :| r in edges && Brings(v.deps, edges[r]) && e == EntryFor(v.env.w, v.deps, a.a, edges[r]);
        EntryNamed(v, a.(pl := v.env.imports(a).value.pl), a.a, edges, r);
      }
    }
    forall i | 0 < i < |v'.projects| ensures NamedBy(v.env, v'.projects[i].a.a.id.root, v'.projects[i].a.a.id) {
      assert i < |v.projects| ==> v'.projects[i] == v.projects[i];
    }
  }

  lemma EntryNamed(v: View, b: AtomWithPackages, a: Atom, edges: map<ProjectRoot, CompleteDep>, r: ProjectRoot)
    requires GoodEnv(v.env) && Mirrors(v.env, v.projects, v.deps) && edges == EdgesOf(v.env, b) && r in edges
    requires forall r, d | d in On(v.deps, r) :: d.dep.wc.ident.root == r
    ensures var e := EntryFor(v.env.w, v.deps, a, edges[r]); NamedBy(v.env, e.id.root, e.id)
  {
    EdgesGood(v.env, b, r);
    EdgeNamed(v.env, b, r);
    InboundNamed(v.env, v.projects, |v.projects|, r);
    hide GoodEnv;
    hide NamedBy;
    hide EdgesOf;
    hide Fresh;
    hide PreferenceOf;
    var ds := On(v.deps, r);
    assert edges[r].wc.ident.root == r;
    if ds != [] { assert ds[0] in ds; }
  }

  lemma UnselectsNamed(v: View, sl: seq<Bimodal>, v': View, sl': seq<Bimodal>)
    requires |v.projects| > 1 && AllNamed(v, sl) && Unselects(v, sl, v', sl')
    ensures AllNamed(v', sl')
  {
    hide EdgesOf;
    hide Dropped;
    hide FoldMirrors;
    hide Extends;
    hide NamedBy;
    var s := v.Top();
    var pushed, order :| Requeues(v, sl, pushed, order, sl');
    forall e <- sl' ensures NamedBy(v.env, e.id.root, e.id) {
      DroppedMembers(v.deps, EdgesOf(v.env, s.a), order, pushed);
      assert e in multiset(pushed);
      assert e in sl || e.id == s.a.a.id;
    }
    forall i | 0 < i < |v'.projects| ensures NamedBy(v.env, v'.projects[i].a.a.id.root, v'.projects[i].a.a.id) {
      assert v'.projects[i] == v.projects[i];
    }
  }

  lemma {:induction false} TakingOffNamed(v: View, sl: seq<Bimodal>, n: nat, v': View, sl': seq<Bimodal>)
    requires GoodEnv(v.env) && v.Coherent(sl) && AllNamed(v, sl)
    requires n < |v.projects| && TakesOff(v, sl, n, v', sl')
    ensures AllNamed(v', sl')
  {
    hide GoodEnv;
    hide View.Coherent;
    hide AllNamed;
    hide Unselects;
    hide StacksOn;
    if n == 0 {
    } else {
      var m: View, slm: seq<Bimodal> :| TakesOff(v, sl, n - 1, m, slm) && Unselects(m, slm, v', sl');
      TakesOffCoherent(v, sl, n - 1, m, slm);
      hide TakesOff;
      TakingOffNamed(v, sl, n - 1, m, slm);
      UnselectsNamed(m, slm, v', sl');
    }
  }

  lemma RetreatNamed(env: Env, s: State, m: View, slm: seq<Bimodal>)
    requires GoodEnv(env) && InOrder(env, s) && s.ids != [] && UnselectsProject(s.view, s.sl, m, slm)
    requires AllNamed(s.view, s.sl)
    ensures AllNamed(m, slm) && NamedBy(env, s.ids[|s.ids| - 1].root, s.ids[|s.ids| - 1])
    ensures m.Coherent(slm) && m.projects != [] && m.env == env
  {
    hide GoodEnv;
    hide View.Coherent;
    hide FirstIds;
    hide NamedBy;
    hide Roots;
    hide Base;
    hide TakesOff;
    ProjectTaken(s.view, s.sl, m, slm);
    var id, n := s.ids[|s.ids| - 1], |m.projects|;
    assert NamedBy(env, s.view.projects[n].a.a.id.root, s.view.projects[n].a.a.id);
    hide AllNamed;
    TakingOffNamed(s.view, s.sl, |s.view.projects| - n, m, slm);
  }

  lemma SelectingTurnNamed(env: Env, s: State, s': State, v: View, sl: seq<Bimodal>, a: AtomWithPackages,
                           pkgonly: bool)
    requires GoodEnv(env) && InOrder(env, s) && AllNamed(s.view, s.sl) && SelectsOn(s, s', v, sl, a, pkgonly)
    ensures AllNamed(s'.view, s'.sl)
  {
    hide GoodEnv;
    hide View.Coherent;
    hide Selects;
    hide UnselectsProject;
    hide NamedBy;
    hide FirstIds;
    match s.mode {
      case Choosing =>
        s.view.NotEmpty(s.sl);
        assert NamedBy(env, s.sl[0].id.root, s.sl[0].id);
      case Failing =>
        RetreatNamed(env, s, v, sl);
    }
    hide AllNamed;
    SelectsNamed(v, sl, a, pkgonly, s'.view, s'.sl);
  }

  lemma FailingTurnNamed(env: Env, s: State, s': State)
    requires GoodEnv(env) && InOrder(env, s) && AllNamed(s.view, s.sl) && Next(s, s') && s'.mode == Failing
    ensures AllNamed(s'.view, s'.sl)
  {
    hide GoodEnv;
    hide View.Coherent;
    hide AllNamed;
    hide UnselectsProject;
    hide Selects;
    hide Search;
    hide Searches;
    hide CheckMarks;
    hide NoneAccepted;
    hide Moves;
    hide FirstIds;
    hide NamedBy;
    match s.mode
    case Choosing =>
    case Failing =>
      assert UnselectsProject(s.view, s.sl, s'.view, s'.sl);
      RetreatNamed(env, s, s'.view, s'.sl);
  }

  lemma {:induction false} RunNamed(env: Env, run: seq<State>, n: nat)
    requires GoodEnv(env) && IsRun(env, run) && n < |run|
    ensures AllNamed(run[n].view, run[n].sl)
  {
    hide GoodEnv;
    hide AllNamed;
    hide InOrder;
    hide Starts;
    hide SelectsOn;
    if n == 0 {
      StartNamed(env, run[0]);
    } else {
      RunNamed(env, run, n - 1);
      RunInOrder(env, run, n - 1);
      assert Next(run[n - 1], run[n]);
      hide Next;
      if run[n].mode == Choosing {
        var v, sl, a, pkgonly := TurnSelects(env, run[n - 1], run[n]);
        SelectingTurnNamed(env, run[n - 1], run[n], v, sl, a, pkgonly);
      } else {
        FailingTurnNamed(env, run[n - 1], run[n]);
      }
    }
  }

  /** Where no project is named by two identifiers, every run keeps the sources in agreement. */
  lemma OneNameAgrees(env: Env, run: seq<State>, n: nat)
    requires GoodEnv(env) && OneName(env) && IsRun(env, run) && n < |run|
    ensures SourcesAgree(run[n].view, run[n].sl)
  {
    hide GoodEnv;
    hide AllNamed;
    hide SourcesAgree;
    hide OneName;
    hide IsRun;
    hide View.Coherent;
    hide FirstIds;
    RunInOrder(env, run, n);
    RunNamed(env, run, n);
    NamedAgree(run[n].view, run[n].sl);
  }

  // ---------------------------------------------------------------- what a solution then promises

  /** One atom meets the dependency: it comes from the source that the first depender names, which is
      as good as the one named here, its version is admitted, it has each of the packages, free of
      error, they are selected, and no other atom of the project is. */
  ghost predicate MetBy(w: World, deps: Deps, soln: map<Atom, set<string>>, r: ProjectRoot, dep: CompleteDep, b: Atom) {
    && b in soln && b.id.root == r
    && On(deps, r) != [] && b.id == On(deps, r)[0].dep.wc.ident && b.id.Equiv(dep.wc.ident)
    && Matches(dep.wc.constraint, b.v)
    && (forall p <- dep.pl :: p in soln[b] && w.HasPackage(b, p))
    && (forall c <- soln :: c.id.root == r ==> c == b)
  }

  /** Where the sources agree, every atom of a project that is depended on is the same. */
  lemma OneAtom(v: View, i: nat)
    requires v.Coherent([]) && SourcesAgree(v, []) && 0 < i < |v.projects|
    requires On(v.deps, v.projects[i].a.a.id.root) != []
    ensures var r := v.projects[i].a.a.id.root;
            && Base(v.projects, r).Some? && v.projects[i].a.a == Base(v.projects, r).value.a
            && v.projects[i].a.a.id == On(v.deps, r)[0].dep.wc.ident
  {
    SelectedAtBase(v.env, v.projects, i);
    var r := v.projects[i].a.a.id.root;
    var m := FirstIndex(v.projects, r);
    assert m != 0 by { assert v.projects[0].a.a.id.root == v.env.w.rootRoot; }
    assert InUse(v.deps, v.projects[m].a.a.id) && InUse(v.deps, v.projects[i].a.a.id);
    hide Inv;
  }

  /** A finished run in which the sources agree: every dependency of every selected atom, the root's
      own included, is met by one atom. */
  lemma AgreeingSolution(v: View, s: Selected, r: ProjectRoot) returns (b: Atom)
    requires GoodEnv(v.env) && v.Coherent([]) && SourcesAgree(v, [])
    requires s in v.projects && r in EdgesOf(v.env, s.a) && !v.env.w.IsRoot(r)
    ensures MetBy(v.env.w, v.deps, Solution(v.projects, |v.projects|), r, EdgesOf(v.env, s.a)[r], b)
  {
    hide GoodEnv;
    hide EdgesOf;
    hide Composite;
    hide Solution;
    hide SourcesAgree;
    hide View.Coherent;
    hide FirstIndex;
    hide Base;
    hide AmongSelected;
    var dep, soln := EdgesOf(v.env, s.a)[r], Solution(v.projects, |v.projects|);
    BaseMeets(v, s, r);
    b := Base(v.projects, r).value.a;
    var m := BaseIndex(v, r);
    OneAtom(v, m);
    assert dep.pl[0] in dep.pl;
    SelectedThere(v, r, dep.pl[0], b);
    forall p <- dep.pl ensures p in soln[b] && v.env.w.HasPackage(b, p) { SelectedThere(v, r, p, b); }
    forall c <- soln ensures c.id.root == r ==> c == b { OnlyThere(v, r, c, b); }
  }

  lemma BaseMeets(v: View, s: Selected, r: ProjectRoot)
    requires GoodEnv(v.env) && v.Coherent([])
    requires s in v.projects && r in EdgesOf(v.env, s.a) && !v.env.w.IsRoot(r)
    ensures var dep := EdgesOf(v.env, s.a)[r];
            && dep.pl != [] && On(v.deps, r) != [] && On(v.deps, r)[0].dep.wc.ident.Equiv(dep.wc.ident)
            && Base(v.projects, r).Some? && Fits(v.env.w, dep, Base(v.projects, r).value.a)
            && forall p <- dep.pl :: AmongSelected(v.projects, r, p)
  {
    v.EmptyQueueIsComplete();
    v.EdgeIsInbound(s, r);
    assert Satisfied(v.env.w, v.projects, v.deps, r);
    hide GoodEnv;
    hide EdgesOf;
    hide Composite;
    hide View.Coherent;
    hide AmongSelected;
    hide Base;
    hide Fits;
    hide AllFit;
    var k :| 0 <= k < |On(v.deps, r)| && On(v.deps, r)[k] == Dependency(s.a.a, EdgesOf(v.env, s.a)[r]);
  }

  lemma BaseIndex(v: View, r: ProjectRoot) returns (m: nat)
    requires v.Coherent([]) && Base(v.projects, r).Some? && !v.env.w.IsRoot(r)
    ensures 0 < m < |v.projects| && v.projects[m].a == Base(v.projects, r).value && v.projects[m].a.a.id.root == r
  {
    m := FirstIndex(v.projects, r);
    assert WellStacked(v.env, v.projects);
    NotAtRoot(v, m, r);
    hide Inv;
  }

  lemma NotAtRoot(v: View, m: nat, r: ProjectRoot)
    requires WellStacked(v.env, v.projects) && m < |v.projects| && v.projects[m].a.a.id.root == r && !v.env.w.IsRoot(r)
    ensures m != 0
  {
    assert v.projects[0].a.a.id.root == v.env.w.rootRoot;
  }

  lemma SelectedThere(v: View, r: ProjectRoot, p: string, b: Atom)
    requires v.Coherent([]) && SourcesAgree(v, []) && On(v.deps, r) != [] && !v.env.w.IsRoot(r)
    requires AmongSelected(v.projects, r, p) && Base(v.projects, r).Some? && b == Base(v.projects, r).value.a
    ensures b in Solution(v.projects, |v.projects|) && p in Solution(v.projects, |v.projects|)[b]
  {
    var t :| t in v.projects && t.a.a.id.root == r && p in t.a.pl;
    var i :| 0 <= i < |v.projects| && v.projects[i] == t;
    assert WellStacked(v.env, v.projects);
    NotAtRoot(v, i, r);
    OneAtom(v, i);
    hide View.Coherent;
    hide SourcesAgree;
    SolutionExact(v.projects, |v.projects|, b, p);
    hide Solution;
  }

  lemma OnlyThere(v: View, r: ProjectRoot, c: Atom, b: Atom)
    requires v.Coherent([]) && SourcesAgree(v, []) && On(v.deps, r) != []
    requires c in Solution(v.projects, |v.projects|) && Base(v.projects, r).Some? && b == Base(v.projects, r).value.a
    ensures c.id.root == r ==> c == b
  {
    if c.id.root == r {
      SolutionExact(v.projects, |v.projects|, c, "");
      var i :| 0 < i < |v.projects| && v.projects[i].a.a == c;
      OneAtom(v, i);
    }
    hide View.Coherent;
    hide SourcesAgree;
    hide Solution;
  }

  /** So is every dependency at the end of a run in which each project has one name. */
  lemma OneNameSolution(env: Env, run: seq<State>, s: Selected, r: ProjectRoot) returns (b: Atom)
    requires GoodEnv(env) && OneName(env) && IsRun(env, run) && Last(run).sl == []
    requires s in Last(run).view.projects && r in EdgesOf(env, s.a) && !env.w.IsRoot(r)
    ensures MetBy(env.w, Last(run).view.deps, Solution(Last(run).view.projects, |Last(run).view.projects|), r,
                  EdgesOf(env, s.a)[r], b)
  {
    hide GoodEnv;
    hide OneName;
    hide Starts;
    hide Next;
    hide SourcesAgree;
    hide View.Coherent;
    hide EdgesOf;
    hide MetBy;
    hide Solution;
    hide FirstIds;
    RunInOrder(env, run, |run| - 1);
    OneNameAgrees(env, run, |run| - 1);
    b := AgreeingSolution(Last(run).view, s, r);
  }
}
