/** Entries that nobody demands: `unselectLast` (`gps/solver.go`) looks for the entry of a project
    that lost its last depender under the packages which that depender names. When the project was
    queued in another way, an entry for it stays behind. */
module Undemanded {
  import opened Wrappers
  import opened Strings
  import opened Bridge
  import opened Requirements
  import Sel = Selection
  import opened Selection
  import opened SolverInvariant
  import opened SolverSteps
  import opened SolverViews
  import opened SolverRuns

  /** The entries for one project, in queue order. */
  function EntriesFor(sl: seq<Bimodal>, r: ProjectRoot): seq<Bimodal> {
    if sl == [] then []
    else
      var front, e := EntriesFor(sl[..|sl| - 1], r), sl[|sl| - 1];
      if e.id.root == r then front + [e] else front
  }

  lemma {:induction false} EntriesForConcat(s: seq<Bimodal>, t: seq<Bimodal>, r: ProjectRoot)
    ensures EntriesFor(s + t, r) == EntriesFor(s, r) + EntriesFor(t, r)
  {
    if t == [] {
      assert s + t == s;
    } else {
      assert (s + t)[..|s + t| - 1] == s + t[..|t| - 1];
      EntriesForConcat(s, t[..|t| - 1], r);
    }
  }

  lemma EntriesForOne(e: Bimodal, r: ProjectRoot)
    ensures EntriesFor([e], r) == if e.id.root == r then [e] else []
  {
    assert [e][..0] == [];
  }

  lemma {:induction false} EntriesForExact(sl: seq<Bimodal>, r: ProjectRoot, e: Bimodal)
    ensures multiset(EntriesFor(sl, r))[e] == if e.id.root == r then multiset(sl)[e] else 0
    ensures e in EntriesFor(sl, r) <==> e in sl && e.id.root == r
  {
    if sl == [] {
    } else {
      EntriesForExact(sl[..|sl| - 1], r, e);
      assert sl == sl[..|sl| - 1] + [sl[|sl| - 1]];
    }
  }

  /** Taking out a match is taking it out of the entries for its project. */
  lemma WithoutIn(sl: seq<Bimodal>, id: ProjectIdentifier, pl: seq<string>, r: ProjectRoot)
    ensures EntriesFor(Sel.Without(sl, id, pl), r) ==
            if id.root == r then Sel.Without(EntriesFor(sl, r), id, pl) else EntriesFor(sl, r)
  {
    hide EntriesFor;
    var n := FirstMatch(sl, id, pl);
    if n < |sl| {
      var front, e, back := sl[..n], sl[n], sl[n + 1..];
      assert sl == front + [e] + back;
      EntriesForConcat(front, back, r);
      EntriesForConcat(front + [e], back, r);
      EntriesForConcat(front, [e], r);
      EntriesForOne(e, r);
      if id.root == r {
        NoMatchIn(front, id, pl, r);
        SplicesAt(EntriesFor(front, r), e, EntriesFor(back, r), id, pl);
      }
    } else if id.root == r {
      NoMatchIn(sl, id, pl, r);
    }
  }

  lemma NoMatchIn(sl: seq<Bimodal>, id: ProjectIdentifier, pl: seq<string>, r: ProjectRoot)
    requires forall e <- sl :: !Names(e, id, pl)
    ensures forall e <- EntriesFor(sl, r) :: !Names(e, id, pl)
  {
    forall e <- EntriesFor(sl, r) ensures !Names(e, id, pl) { EntriesForExact(sl, r, e); }
  }

  lemma SplicesAt(front: seq<Bimodal>, e: Bimodal, back: seq<Bimodal>, id: ProjectIdentifier, pl: seq<string>)
    requires Names(e, id, pl) && forall x <- front :: !Names(x, id, pl)
    ensures Sel.Without(front + [e] + back, id, pl) == front + back
  {
    hide Names;
    var s := front + [e] + back;
    assert s[|front|] == e;
    assert forall i | 0 <= i < |front| :: s[i] in front;
    assert FirstMatch(s, id, pl) == |front|;
  }

  /** The entries for one project after the edges were popped. */
  lemma {:induction false} DroppedFor(deps: Deps, edges: map<ProjectRoot, CompleteDep>, order: seq<ProjectRoot>,
                                      sl: seq<Bimodal>, r: ProjectRoot)
    requires Distinct(order) && forall x <- edges :: edges[x].wc.ident.root == x
    ensures EntriesFor(Dropped(deps, edges, order, sl), r) ==
            if r in order && r in edges && |On(deps, r)| == 1
            then Sel.Without(EntriesFor(sl, r), edges[r].wc.ident, edges[r].pl) else EntriesFor(sl, r)
  {
    hide EntriesFor;
    hide Sel.Without;
    if order == [] {
    } else {
      var n := |order| - 1;
      var x := order[n];
      DroppedFor(deps, edges, order[..n], sl, r);
      assert order == order[..n] + [x] && x !in order[..n];
      if x in edges { WithoutIn(Dropped(deps, edges, order[..n], sl), edges[x].wc.ident, edges[x].pl, r); }
    }
  }

  /** Every queued project is depended on. */
  ghost predicate AllDemanded(deps: Deps, sl: seq<Bimodal>) {
    forall e <- sl :: On(deps, e.id.root) != []
  }

  /** At most one entry is queued for the project, and that one as the dependency has it. */
  predicate QueuedAs(sl: seq<Bimodal>, r: ProjectRoot, dep: CompleteDep) {
    && |EntriesFor(sl, r)| <= 1
    && forall e <- EntriesFor(sl, r) :: Names(e, dep.wc.ident, dep.pl)
  }

  /** The topmost atom is the only depender of the project. */
  ghost predicate LosesLast(v: View, r: ProjectRoot)
    requires v.projects != []
  {
    r in EdgesOf(v.env, v.Top().a) && |On(v.deps, r)| == 1
  }

  lemma AllDemandedByProject(deps: Deps, sl: seq<Bimodal>)
    ensures AllDemanded(deps, sl) <==> forall r | On(deps, r) == [] :: EntriesFor(sl, r) == []
  {
    hide On;
    hide EntriesFor;
    forall r, e | e in sl && e.id.root == r ensures e in EntriesFor(sl, r) { EntriesForExact(sl, r, e); }
    forall r | EntriesFor(sl, r) != [] ensures EntriesFor(sl, r)[0] in sl && EntriesFor(sl, r)[0].id.root == r {
      EntriesForExact(sl, r, EntriesFor(sl, r)[0]);
    }
  }

  lemma PushedFor(sl: seq<Bimodal>, e: Bimodal, pushed: seq<Bimodal>, r: ProjectRoot)
    requires multiset(pushed) == multiset(sl) + multiset{e}
    ensures multiset(EntriesFor(pushed, r)) ==
            multiset(EntriesFor(sl, r)) + if e.id.root == r then multiset{e} else multiset{}
  {
    forall x
      ensures multiset(EntriesFor(pushed, r))[x] ==
              (multiset(EntriesFor(sl, r)) + if e.id.root == r then multiset{e} else multiset{})[x]
    {
      EntriesForExact(sl, r, x);
      EntriesForExact(pushed, r, x);
    }
    hide EntriesFor;
  }

  lemma EmptiesExactly(s: seq<Bimodal>, id: ProjectIdentifier, pl: seq<string>)
    ensures Sel.Without(s, id, pl) == [] <==> |s| <= 1 && forall e <- s :: Names(e, id, pl)
  {
    if s != [] { assert s[0] in s; }
    if |s| == 1 { assert s == [s[0]]; }
    hide Names;
  }

  lemma QueuedAsAlike(s: seq<Bimodal>, t: seq<Bimodal>, r: ProjectRoot, dep: CompleteDep)
    requires multiset(EntriesFor(s, r)) == multiset(EntriesFor(t, r))
    ensures QueuedAs(s, r, dep) <==> QueuedAs(t, r, dep)
  {
    assert |EntriesFor(s, r)| == |multiset(EntriesFor(s, r))| == |EntriesFor(t, r)|;
    assert forall e :: e in EntriesFor(s, r) <==> e in multiset(EntriesFor(s, r));
    assert forall e :: e in EntriesFor(t, r) <==> e in multiset(EntriesFor(t, r));
    hide EntriesFor;
    hide Names;
  }

  /** Who loses a depender, and with it the last one. */
  lemma LosesLastExactly(v: View, sl: seq<Bimodal>, v': View, sl': seq<Bimodal>, r: ProjectRoot)
    requires Unselects(v, sl, v', sl')
    ensures On(v'.deps, r) == [] <==> On(v.deps, r) == [] || LosesLast(v, r)
  {
    assert On(v.deps, r) == On(v'.deps, r) + EdgeTo(v.env, v.Top().a, r);
    hide EdgesOf;
    hide Requeues;
    hide FoldMirrors;
  }

  /** What `unselectLast` leaves of the entries for one project. */
  lemma LeftFor(v: View, sl: seq<Bimodal>, v': View, sl': seq<Bimodal>, r: ProjectRoot)
    requires GoodEnv(v.env) && v.projects != [] && !v.env.w.IsRoot(v.Top().a.a.id.root) && Unselects(v, sl, v', sl')
    ensures EntriesFor(sl', r) == [] <==>
            if LosesLast(v, r) then QueuedAs(sl, r, EdgesOf(v.env, v.Top().a)[r])
            else EntriesFor(sl, r) == [] && v.Top().a.a.id.root != r
  {
    hide EntriesFor;
    hide Dropped;
    hide Extends;
    hide FoldMirrors;
    hide Sel.Without;
    var s, edges := v.Top(), EdgesOf(v.env, v.Top().a);
    var pushed, order :| Requeues(v, sl, pushed, order, sl');
    forall x <- edges ensures edges[x].wc.ident.root == x && x != s.a.a.id.root { EdgesGood(v.env, s.a, x); }
    hide GoodEnv;
    hide EdgesOf;
    DroppedFor(v.deps, edges, order, pushed, r);
    assert r in order <==> r in Elements(order);
    PushedFor(sl, Bimodal(s.a.a.id, s.a.pl, None, false), pushed, r);
    if LosesLast(v, r) {
      QueuedAsAlike(sl, pushed, r, edges[r]);
      EmptiesExactly(EntriesFor(pushed, r), edges[r].wc.ident, edges[r].pl);
    } else {
      assert |EntriesFor(sl', r)| == |multiset(EntriesFor(pushed, r))|;
    }
  }

  /** Taking a selection back leaves every queued project with a depender exactly when that was so
      before, the project taken back included, and each project that loses its last depender was
      queued once at most, with the source and the packages which that depender names. */
  lemma AllDemandedExactly(v: View, sl: seq<Bimodal>, v': View, sl': seq<Bimodal>)
    requires GoodEnv(v.env) && v.projects != [] && !v.env.w.IsRoot(v.Top().a.a.id.root) && Unselects(v, sl, v', sl')
    ensures AllDemanded(v'.deps, sl') <==>
              && AllDemanded(v.deps, sl) && On(v.deps, v.Top().a.a.id.root) != []
              && forall r | LosesLast(v, r) :: QueuedAs(sl, r, EdgesOf(v.env, v.Top().a)[r])
  {
    AllDemandedByProject(v.deps, sl);
    AllDemandedByProject(v'.deps, sl');
    forall r
      ensures On(v'.deps, r) == [] <==> On(v.deps, r) == [] || LosesLast(v, r)
      ensures EntriesFor(sl', r) == [] <==>
              if LosesLast(v, r) then QueuedAs(sl, r, EdgesOf(v.env, v.Top().a)[r])
              else EntriesFor(sl, r) == [] && v.Top().a.a.id.root != r
    {
      LosesLastExactly(v, sl, v', sl', r);
      LeftFor(v, sl, v', sl', r);
    }
    assert forall r | LosesLast(v, r) :: On(v.deps, r) != [];
    hide LosesLast;
    hide AllDemanded;
    hide On;
    hide EntriesFor;
    hide QueuedAs;
    hide GoodEnv;
    hide Unselects;
    hide EdgesOf;
  }

  // ---------------------------------------------------------------- an entry left without any expansion

  /** An entry stays when its project keeps a depender, or was queued with other packages. */
  lemma EntryStays(v: View, sl: seq<Bimodal>, v': View, sl': seq<Bimodal>, e: Bimodal)
    requires GoodEnv(v.env) && v.projects != [] && Unselects(v, sl, v', sl') && e in sl
    requires LosesLast(v, e.id.root) ==> e.pl != EdgesOf(v.env, v.Top().a)[e.id.root].pl
    ensures e in sl'
  {
    hide Dropped;
    hide Extends;
    hide FoldMirrors;
    var s, edges := v.Top(), EdgesOf(v.env, v.Top().a);
    var pushed, order :| Requeues(v, sl, pushed, order, sl');
    forall x <- edges ensures edges[x].wc.ident.root == x { EdgesGood(v.env, s.a, x); }
    hide GoodEnv;
    assert e in multiset(sl);
    assert e in multiset(pushed);
    DroppedKeeps(v.deps, edges, order, pushed, e);
  }

  /** The entry that a second depender of a project brings in. */
  ghost predicate BringsEntry(v: View, b: AtomWithPackages, r: ProjectRoot, p: string, e: Bimodal)
    requires v.env.imports(b).Some?
  {
    var edges := EdgesOf(v.env, b.(pl := v.env.imports(b).value.pl));
    r in edges && e == EntryFor(v.env.w, v.deps, b.a, edges[r]) && e.id.root == r && p in e.pl
  }

  lemma SecondEntry(v: View, sl: seq<Bimodal>, b: AtomWithPackages, pkgonly: bool, v': View, sl': seq<Bimodal>,
                    r: ProjectRoot, p: string) returns (e: Bimodal)
    requires GoodEnv(v.env) && Selects(v, sl, b, pkgonly, v', sl')
    requires var edges := EdgesOf(v.env, b.(pl := v.env.imports(b).value.pl));
             r in edges && p in edges[r].pl
    requires !IsDemanded(On(v.deps, r), p) && forall d <- On(v.deps, r) :: d.dep.wc.ident.root == r
    ensures e in sl' && BringsEntry(v, b, r, p, e)
  {
    var edges := EdgesOf(v.env, b.(pl := v.env.imports(b).value.pl));
    EdgesGood(v.env, b.(pl := v.env.imports(b).value.pl), r);
    hide GoodEnv;
    hide EdgesOf;
    hide Extends;
    hide FoldMirrors;
    hide Sel.Without;
    hide PreferenceOf;
    FreshExact(On(v.deps, r), edges[r].pl);
    hide Fresh;
    hide IsDemanded;
    e := EntryFor(v.env.w, v.deps, b.a, edges[r]);
    assert Brings(v.deps, edges[r]);
    assert e in Entries(v.env.w, v.deps, b.a, edges, edges.Keys);
    assert e in multiset(sl');
  }

  /** The atom, with its packages completed, depends on a project, and for a package of it. */
  ghost predicate AsksFor(env: Env, a: AtomWithPackages, r: ProjectRoot, p: string) {
    DependsOn(env, a, r) && p in EdgesOf(env, a.(pl := env.imports(a).value.pl))[r].pl
  }

  ghost predicate DependsOn(env: Env, a: AtomWithPackages, r: ProjectRoot) {
    env.imports(a).Some? && r in EdgesOf(env, a.(pl := env.imports(a).value.pl))
  }

  /** a and b are selected and taken back, in turn. */
  ghost predicate ThereAndBack(v0: View, sl0: seq<Bimodal>, a: AtomWithPackages, v1: View, sl1: seq<Bimodal>,
                               b: AtomWithPackages, v2: View, sl2: seq<Bimodal>, v3: View, sl3: seq<Bimodal>,
                               v4: View, sl4: seq<Bimodal>)
  {
    && Selects(v0, sl0, a, false, v1, sl1) && Selects(v1, sl1, b, false, v2, sl2)
    && Unselects(v2, sl2, v3, sl3) && Unselects(v3, sl3, v4, sl4)
  }

  lemma DependersComeAndGo(v0: View, sl0: seq<Bimodal>, a: AtomWithPackages, v1: View, sl1: seq<Bimodal>,
                           b: AtomWithPackages, v2: View, sl2: seq<Bimodal>, v3: View, sl3: seq<Bimodal>,
                           v4: View, sl4: seq<Bimodal>, r: ProjectRoot)
    requires On(v0.deps, r) == [] && ThereAndBack(v0, sl0, a, v1, sl1, b, v2, sl2, v3, sl3, v4, sl4)
    requires DependsOn(v0.env, a, r) && DependsOn(v0.env, b, r)
    ensures v1.env == v0.env && v2.env == v0.env && v3.env == v0.env && v2.projects != [] && v3.projects != []
    ensures var es := EdgeTo(v0.env, a.(pl := v0.env.imports(a).value.pl), r);
            |es| == 1 && On(v1.deps, r) == es && |On(v2.deps, r)| == 2 && On(v4.deps, r) == []
    ensures v3.Top().a == a.(pl := v0.env.imports(a).value.pl)
  {
    OneMore(v0, sl0, a, v1, sl1, r);
    OneMore(v1, sl1, b, v2, sl2, r);
    OneLess(v2, sl2, v3, sl3, r);
    OneLess(v3, sl3, v4, sl4, r);
    hide Selects;
    hide Unselects;
    hide EdgesOf;
  }

  /** Two atoms ask for different packages of a project that nobody depends on before, and both are
      taken back: the entry that the second brought in stays, for a project that nobody depends on.
      Neither package list need have been expanded. */
  lemma TwoAskersLeaveEntry(v0: View, sl0: seq<Bimodal>, a: AtomWithPackages, v1: View, sl1: seq<Bimodal>,
                            b: AtomWithPackages, v2: View, sl2: seq<Bimodal>, v3: View, sl3: seq<Bimodal>,
                            v4: View, sl4: seq<Bimodal>, r: ProjectRoot, p: string)
    requires GoodEnv(v0.env) && On(v0.deps, r) == []
    requires ThereAndBack(v0, sl0, a, v1, sl1, b, v2, sl2, v3, sl3, v4, sl4)
    requires DependsOn(v0.env, a, r) && !AsksFor(v0.env, a, r, p) && AsksFor(v0.env, b, r, p)
    ensures On(v4.deps, r) == [] && exists e <- sl4 :: e.id.root == r && p in e.pl
  {
    hide Selects;
    hide Unselects;
    DependersComeAndGo(v0, sl0, a, v1, sl1, b, v2, sl2, v3, sl3, v4, sl4, r);
    FirstAskerOnly(v0.env, a.(pl := v0.env.imports(a).value.pl), r, p);
    var e := SecondEntry(v1, sl1, b, false, v2, sl2, r, p);
    hide GoodEnv;
    hide EdgesOf;
    EntryStays(v2, sl2, v3, sl3, e);
    EntryStays(v3, sl3, v4, sl4, e);
  }

  lemma FirstAskerOnly(env: Env, a: AtomWithPackages, r: ProjectRoot, p: string)
    requires GoodEnv(env) && r in EdgesOf(env, a) && p !in EdgesOf(env, a)[r].pl
    ensures !IsDemanded(EdgeTo(env, a, r), p) && forall d <- EdgeTo(env, a, r) :: d.dep.wc.ident.root == r
  {
    EdgesGood(env, a, r);
    hide GoodEnv;
  }

  lemma OneMore(v: View, sl: seq<Bimodal>, a: AtomWithPackages, v': View, sl': seq<Bimodal>, r: ProjectRoot)
    requires Selects(v, sl, a, false, v', sl')
    ensures var a' := a.(pl := v.env.imports(a).value.pl);
            && v'.env == v.env && v'.projects != [] && v'.Top().a == a'
            && v'.Front() == v.projects && On(v'.deps, r) == On(v.deps, r) + EdgeTo(v.env, a', r)
  {
    hide EdgesOf;
    hide FoldMirrors;
    hide Entries;
    hide Sel.Without;
    assert (v.projects + [v'.Top()])[..|v.projects|] == v.projects;
  }

  lemma OneLess(v: View, sl: seq<Bimodal>, v': View, sl': seq<Bimodal>, r: ProjectRoot)
    requires Unselects(v, sl, v', sl')
    ensures v.projects != [] && v'.env == v.env && v'.projects == v.Front()
    ensures On(v.deps, r) == On(v'.deps, r) + EdgeTo(v.env, v.Top().a, r)
  {
    hide EdgesOf;
    hide FoldMirrors;
    hide Requeues;
  }
}
