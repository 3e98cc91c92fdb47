/** Runs in worlds made by hand: nothing is locked or preferred, every dependency admits any version,
    and no project is depended on twice. There the checks, the queues and the steps of the solver are
    easily told. */
module SmallWorlds {
  import opened Wrappers
  import opened Strings
  import opened Versions
  import opened Bridge
  import opened ImportGroups
  import opened Requirements
  import opened VersionQueues
  import Sel = Selection
  import opened Selection
  import opened SolverInvariant
  import opened SolverSteps
  import opened SolverViews
  import opened SolverRuns

  const NEW := Bare(Plain("new"))
  const OLD := Bare(Plain("old"))

  /** A world whose root "r" has the given imports and says nothing else, and whose projects have
      the same versions from every source. */
  function SmallWorld(imports: seq<string>, listed: ProjectRoot -> seq<Version>,
                      manifest: Atom -> map<ProjectRoot, Properties>, tree: Atom -> PackageTree,
                      reach: Atom -> ReachMap, owner: string -> Option<ProjectRoot>,
                      universe: set<(ProjectRoot, string)>): World
  {
    World(
      "r", map[], imports, map[], [], map[], map[], {}, false,
      id => Some(true), id => Some(false), (id: ProjectIdentifier) => Some(listed(id.root)),
      a => Some(Analysis(manifest(a), None)), a => Some(tree(a)), reach,
      (id, r) => true,
      owner, p => false, p => false, p => p,
      universe, 2)
  }

  function Id(r: ProjectRoot): ProjectIdentifier {
    ProjectIdentifier(r, "")
  }

  /** A dependency on one package, at any version. */
  function Open(id: ProjectIdentifier, p: string): CompleteDep {
    CompleteDep(WorkingConstraint(id, Any, false, false), [p])
  }

  /** An import of a project that was not known is grouped under its root. */
  lemma GroupsNew(w: World, known: map<ProjectRoot, WorkingConstraint>, front: seq<string>, g: Grouping, p: string,
                  r: ProjectRoot)
    requires w.overrides == map[] && !w.stdlib(p) && w.deduce(p) == Some(r)
    requires Group(w, known, front) == Some(g) && !Overwrites(w, known, front)
    requires Match(g.known.Keys, p) == None && r !in g.deps
    ensures var dep := Open(Id(r), p);
            Group(w, known, front + [p]) == Some(Grouping(g.known[r := dep.wc], g.deps[r := dep]))
    ensures !Overwrites(w, known, front + [p])
  {
    assert (front + [p])[..|front|] == front;
  }

  /** ... and one of a project that is known, with what is known of it. */
  lemma GroupsKnown(w: World, known: map<ProjectRoot, WorkingConstraint>, front: seq<string>, g: Grouping, p: string,
                    r: ProjectRoot)
    requires !w.stdlib(p) && Group(w, known, front) == Some(g) && !Overwrites(w, known, front)
    requires Match(g.known.Keys, p) == Some(r) && g.known[r].ident.root == r && r !in g.deps
    ensures Group(w, known, front + [p]) == Some(Grouping(g.known, g.deps[r := CompleteDep(g.known[r], [p])]))
    ensures !Overwrites(w, known, front + [p])
  {
    assert (front + [p])[..|front|] == front;
  }

  /** Nothing is locked or preferred, every project has a source, and case matters. */
  ghost predicate Quiet(w: World) {
    && w.lock == map[] && w.change == {} && !w.changeAll
    && (forall id :: w.sourceExists(id) == Some(true))
    && (forall a | w.analysis(a).Some? :: w.analysis(a).value.lock.None?)
    && (forall r :: w.fold(r) == r)
  }

  /** A dependency is filed under its root, on packages, at any version. */
  predicate Easy(r: ProjectRoot, dep: CompleteDep) {
    dep.wc.ident.root == r && dep.wc.constraint == Any && dep.pl != []
  }

  predicate AllEasy(edges: map<ProjectRoot, CompleteDep>) {
    forall r <- edges :: Easy(r, edges[r])
  }

  /** The one depender of each project that is depended on. */
  type Dependers = map<ProjectRoot, Dependency>

  predicate OneEach(inb: Dependers) {
    forall r <- inb :: Easy(r, inb[r].dep)
  }

  /** The selection with these dependers. */
  ghost function Seen(env: Env, projects: seq<Selected>, inb: Dependers): View {
    View(env, projects, map r | r in inb :: [inb[r]], map r | r in inb :: r)
  }

  /** ... and with the edges of one more atom. */
  function After(inb: Dependers, a: Atom, edges: map<ProjectRoot, CompleteDep>): Dependers {
    inb + map r | r in edges :: Dependency(a, edges[r])
  }

  lemma SeenOn(env: Env, projects: seq<Selected>, inb: Dependers, r: ProjectRoot)
    requires OneEach(inb)
    ensures var ds := On(Seen(env, projects, inb).deps, r);
            ds == (if r in inb then [inb[r]] else []) && Composite(ds, |ds|) == Any
  {
  }

  lemma SeenFolds(env: Env, projects: seq<Selected>, inb: Dependers)
    requires Quiet(env.w)
    ensures FoldMirrors(env.w, Seen(env, projects, inb).deps, Seen(env, projects, inb).folds)
  {
  }

  // ---------------------------------------------------------------- what passes its checks

  /** A dependency on a project nobody selected and nobody depends on. */
  lemma DepPasses(env: Env, projects: seq<Selected>, inb: Dependers, r: ProjectRoot, dep: CompleteDep)
    requires Quiet(env.w) && OneEach(inb) && Easy(r, dep) && r !in inb && Base(projects, r) == None
    ensures DepAllowed(env.w, projects, Seen(env, projects, inb).deps, Seen(env, projects, inb).folds, dep)
  {
    SeenOn(env, projects, inb, r);
    hide Base;
    hide Composite;
  }

  lemma PackagesThere(env: Env, projects: seq<Selected>, inb: Dependers, a: Atom)
    requires OneEach(inb) && env.w.ListPackages(a).Some?
    requires a.id.root in inb ==> forall q <- inb[a.id.root].dep.pl :: env.w.HasPackage(a, q)
    ensures RequiredPackagesExist(env.w, Seen(env, projects, inb).deps, a)
  {
    SeenOn(env, projects, inb, a.id.root);
    hide Seen;
    hide Composite;
    hide World.HasPackage;
    hide World.ListPackages;
  }

  /** An atom passes if its packages are there and its imports are of new projects. */
  lemma PassesIf(env: Env, projects: seq<Selected>, inb: Dependers, a: AtomWithPackages, pkgonly: bool)
    requires Quiet(env.w) && OneEach(inb) && env.imports(a).Some? && AllEasy(env.imports(a).value.deps)
    requires forall r <- env.imports(a).value.deps :: r !in inb && Base(projects, r) == None
    requires env.w.ListPackages(a.a).Some?
    requires a.a.id.root in inb ==> forall q <- inb[a.a.id.root].dep.pl :: env.w.HasPackage(a.a, q)
    ensures Seen(env, projects, inb).Passing(a, pkgonly)
  {
    hide DepAllowed;
    hide Base;
    hide Composite;
    hide Quiet;
    hide OneEach;
    hide World.HasPackage;
    hide RequiredPackagesExist;
    SeenOn(env, projects, inb, a.a.id.root);
    PackagesThere(env, projects, inb, a.a);
    var v, deps := Seen(env, projects, inb), env.imports(a).value.deps;
    forall r <- deps ensures DepAllowed(env.w, projects, v.deps, v.folds, deps[r]) {
      DepPasses(env, projects, inb, r, deps[r]);
    }
    assert AtomAllowable(v.deps, a.a);
    hide AtomAllowable;
  }

  // ---------------------------------------------------------------- queues and searches

  /** With nothing locked and nothing preferred, a queue holds the versions as listed. */
  lemma QueueIs(env: Env, projects: seq<Selected>, inb: Dependers, e: Bimodal)
    requires Quiet(env.w) && OneEach(inb) && e.prefv == None && env.w.versions(e.id).Some?
    requires e.fromRoot && e.id.root in inb ==> env.w.IsRoot(inb[e.id.root].depender.id.root)
    ensures QueueFor(Seen(env, projects, inb), e) == env.w.versions(e.id).value
    ensures Base(projects, e.id.root) == None ==> Searches(Seen(env, projects, inb), e)
  {
    hide Composite;
    hide Base;
    hide Assembled;
    hide Obtainable;
    hide Quiet;
    SeenOn(env, projects, inb, e.id.root);
    AssembledIs(env.w, On(Seen(env, projects, inb).deps, e.id.root), e);
    hide Seen;
  }

  lemma AssembledIs(w: World, ds: seq<Dependency>, e: Bimodal)
    requires Quiet(w) && Composite(ds, |ds|) == Any && e.prefv == None && w.versions(e.id).Some?
    requires e.fromRoot ==> |ds| <= 1 && forall d <- ds :: w.IsRoot(d.depender.id.root)
    ensures Assembled(w, ds, e) == w.versions(e.id).value && Obtainable(w, ds, e)
  {
    hide Composite;
    hide Schedule;
    NothingLocked(w, e.id);
    ScheduleIs(w, e.id);
    if e.fromRoot { RootPrefersNothing(w, ds, e.id); }
    hide Preferred;
    hide LockFor;
  }

  lemma NothingLocked(w: World, id: ProjectIdentifier)
    requires Quiet(w)
    ensures LockFor(w, id) == None
  {
  }

  lemma ScheduleIs(w: World, id: ProjectIdentifier)
    requires w.versions(id).Some?
    ensures Schedule(w, id, None, None) == w.versions(id).value
  {
    hide Kept;
    var vs := w.versions(id).value;
    KeepsBetween(vs, None, None, 0, |vs|);
    NothingKept(vs);
    assert vs[0..|vs|] == vs;
  }

  lemma RootPrefersNothing(w: World, ds: seq<Dependency>, id: ProjectIdentifier)
    requires |ds| <= 1 && forall d <- ds :: w.IsRoot(d.depender.id.root)
    ensures Preferred(w, ds, |ds|, id) == None
  {
    if |ds| == 1 { assert ds[0] in ds && Preferred(w, ds, 0, id) == None; }
  }

  lemma NothingKept(vs: seq<Version>)
    ensures Kept(vs, 0, None, None) == []
  {
  }

  /** A queue that stands at an acceptable version is left as it is. */
  lemma FindsFirst(v: View, id: ProjectIdentifier, pl: seq<string>, rem: seq<Version>,
                   ids: seq<ProjectIdentifier>, at: Option<nat>, flags: seq<bool>)
    requires rem != [] && v.Passing(AtomWithPackages(Atom(id, rem[0]), pl), false)
    ensures Left(v, id, rem, pl) == rem && Search(v, id, pl, rem, ids, at, flags, flags)
  {
    hide View.Passing;
    assert rem[0..] == rem;
    assert Searched(v, id, pl, rem, 0, ids, at, flags, flags);
    assert flags == Blamed(v, id, 0 < |rem|, ids, flags);
    hide Searched;
    hide Blamed;
  }

  /** A last version that cannot be selected, through no depender's constraint: the first depender
      is blamed. */
  lemma FindsNothing(v: View, id: ProjectIdentifier, pl: seq<string>, x: Version,
                     ids: seq<ProjectIdentifier>, at: Option<nat>, flags: seq<bool>)
    requires var a := AtomWithPackages(Atom(id, x), pl);
             !v.Passing(a, false) && CheckMarks(v, a, false, ids, flags, flags)
    ensures NoneAccepted(v, id, [x], pl)
    ensures Search(v, id, pl, [x], ids, at, flags, Blamed(v, id, false, ids, flags))
  {
    hide View.Passing;
    hide CheckMarks;
    var rem := [x];
    assert rem[1..] == [] && rem[0..] == rem;
    assert Searched(v, id, pl, rem, 0, ids, at, flags, flags);
    assert Refused(v, id, pl, rem, 1, ids, flags, flags) && Lifted(flags, at, false) == flags;
    assert PassedOver(v, id, pl, rem, 1, ids, at, flags, flags);
    hide PassedOver;
    assert Searched(v, id, pl, rem, 1, ids, at, flags, flags);
    assert Left(v, id, rem, pl) == rem[1..];
    hide Left;
    hide Searched;
    hide Blamed;
  }

  /** A version that lacks a package its depender wants. */
  lemma LacksPackage(env: Env, projects: seq<Selected>, inb: Dependers, a: AtomWithPackages, p: string,
                     ids: seq<ProjectIdentifier>, flags: seq<bool>)
    requires OneEach(inb) && a.a.id.root in inb && p in inb[a.a.id.root].dep.pl && !env.w.HasPackage(a.a, p)
    ensures !Seen(env, projects, inb).Passing(a, false)
    ensures CheckMarks(Seen(env, projects, inb), a, false, ids, flags, flags)
  {
    hide World.HasPackage;
    hide Composite;
    hide OneEach;
    hide Refuses;
    SeenOn(env, projects, inb, a.a.id.root);
    var v := Seen(env, projects, inb);
    assert On(v.deps, a.a.id.root) == [inb[a.a.id.root]] && inb[a.a.id.root] in On(v.deps, a.a.id.root);
    assert !RequiredPackagesExist(env.w, v.deps, a.a);
    hide RequiredPackagesExist;
  }

  /** A version whose own packages cannot be completed. */
  lemma LacksImports(env: Env, projects: seq<Selected>, inb: Dependers, a: AtomWithPackages,
                     ids: seq<ProjectIdentifier>, flags: seq<bool>)
    requires OneEach(inb) && env.imports(a).None?
    ensures !Seen(env, projects, inb).Passing(a, false)
    ensures CheckMarks(Seen(env, projects, inb), a, false, ids, flags, flags)
  {
    hide Composite;
    hide RequiredPackagesExist;
    SeenOn(env, projects, inb, a.a.id.root);
    var v := Seen(env, projects, inb);
    assert AtomAllowable(v.deps, a.a);
    hide AtomAllowable;
    assert forall r :: !Refuses(v, a, r);
    hide Refuses;
  }

  /** Without anything found, the queue of the project's depender is marked. */
  lemma BlamedIs(env: Env, projects: seq<Selected>, inb: Dependers, id: ProjectIdentifier,
                 ids: seq<ProjectIdentifier>, flags: seq<bool>)
    requires OneEach(inb)
    ensures Blamed(Seen(env, projects, inb), id, false, ids, flags) ==
            if id.root in inb then Marked(env.w, ids, flags, inb[id.root].depender.id) else flags
  {
    SeenOn(env, projects, inb, id.root);
    hide Marked;
    hide Composite;
  }

  // ---------------------------------------------------------------- selecting

  lemma SeenExtends(env: Env, projects: seq<Selected>, projects': seq<Selected>, inb: Dependers, a: AtomWithPackages,
                    edges: map<ProjectRoot, CompleteDep>)
    requires edges == EdgesOf(env, a) && edges.Keys !! inb.Keys
    ensures Extends(env, Seen(env, projects, inb).deps, a, Seen(env, projects', After(inb, a.a, edges)).deps)
  {
    hide EdgesOf;
  }

  /** The entries for a new atom's edges. */
  function AllWanted(edges: map<ProjectRoot, CompleteDep>): set<Bimodal> {
    set r | r in edges :: Wanted(edges[r].wc.ident, edges[r].pl)
  }

  function Wanted(id: ProjectIdentifier, pl: seq<string>): Bimodal {
    Bimodal(id, pl, None, false)
  }

  lemma AllWantedAre(r: ProjectRoot, dep: CompleteDep, r2: ProjectRoot, dep2: CompleteDep)
    requires Easy(r, dep) && Easy(r2, dep2) && r != r2
    ensures AllWanted(map[]) == {} && AllWanted(map[r := dep]) == {Wanted(dep.wc.ident, dep.pl)}
    ensures multiset(AllWanted(map[r := dep, r2 := dep2])) ==
            multiset([Wanted(dep.wc.ident, dep.pl), Wanted(dep2.wc.ident, dep2.pl)])
  {
    var e, e2 := Wanted(dep.wc.ident, dep.pl), Wanted(dep2.wc.ident, dep2.pl);
    var edges := map[r := dep, r2 := dep2];
    assert r in edges && r2 in edges && edges[r] == dep && edges[r2] == dep2;
    assert e.id.root != e2.id.root;
    assert forall x :: x in AllWanted(edges) <==> x == e || x == e2;
    assert AllWanted(edges) == {e, e2};
    hide AllWanted;
    hide Wanted;
  }

  /** The entry that is taken up goes. */
  lemma WithoutFirst(e: Bimodal, rest: seq<Bimodal>)
    ensures Sel.Without([e] + rest, e.id, e.pl) == rest
  {
    var sl := [e] + rest;
    assert sl[0] == e && Names(sl[0], e.id, e.pl);
    hide Names;
    assert FirstMatch(sl, e.id, e.pl) == 0;
    hide FirstMatch;
    assert sl[1..] == rest;
  }

  /** An entry that does not match is passed over. */
  lemma WithoutLater(e: Bimodal, rest: seq<Bimodal>, id: ProjectIdentifier, pl: seq<string>)
    requires !Names(e, id, pl)
    ensures Sel.Without([e] + rest, id, pl) == [e] + Sel.Without(rest, id, pl)
  {
    hide Names;
    var sl, n := [e] + rest, FirstMatch(rest, id, pl);
    assert sl[0] == e && forall i | 0 < i < |sl| :: sl[i] == rest[i - 1];
    var k := FirstMatch(sl, id, pl);
    assert k > 0;
    if n < |rest| { assert Names(sl[n + 1], id, pl); }
    if k < |sl| { assert Names(rest[k - 1], id, pl); }
    assert k == n + 1;
    hide FirstMatch;
    if n < |rest| { assert sl[..n + 1] + sl[n + 2..] == [e] + (rest[..n] + rest[n + 1..]); }
  }

  lemma {:induction false} AllFresh(pl: seq<string>)
    ensures Fresh([], pl) == pl
  {
    if pl == [] {
    } else {
      AllFresh(pl[..|pl| - 1]);
    }
  }

  lemma EntryIs(env: Env, projects: seq<Selected>, inb: Dependers, a: Atom, r: ProjectRoot, dep: CompleteDep)
    requires Quiet(env.w) && r !in inb && Easy(r, dep)
    ensures var deps := Seen(env, projects, inb).deps;
            Brings(deps, dep) && EntryFor(env.w, deps, a, dep) == Wanted(dep.wc.ident, dep.pl)
  {
    AllFresh(dep.pl);
    assert On(Seen(env, projects, inb).deps, r) == [];
    assert PreferenceOf(env.w, a, dep.wc.ident) == None;
    hide Fresh;
    hide Quiet;
    hide PreferenceOf;
  }

  lemma EntriesAre(env: Env, projects: seq<Selected>, inb: Dependers, a: Atom, edges: map<ProjectRoot, CompleteDep>)
    requires Quiet(env.w) && edges.Keys !! inb.Keys && AllEasy(edges)
    ensures Entries(env.w, Seen(env, projects, inb).deps, a, edges, edges.Keys) == AllWanted(edges)
  {
    var deps := Seen(env, projects, inb).deps;
    forall r <- edges
      ensures Brings(deps, edges[r]) && EntryFor(env.w, deps, a, edges[r]) == Wanted(edges[r].wc.ident, edges[r].pl)
    {
      EntryIs(env, projects, inb, a, r, edges[r]);
    }
    hide Brings;
    hide EntryFor;
    hide Seen;
    hide Quiet;
    hide Wanted;
  }

  /** A selection whose edges lead to projects nobody depends on yet. */
  lemma SelectsIs(env: Env, projects: seq<Selected>, inb: Dependers, s: Selected, pl: seq<string>,
                  edges: map<ProjectRoot, CompleteDep>, sl: seq<Bimodal>, sl': seq<Bimodal>)
    requires Quiet(env.w) && edges == EdgesOf(env, s.a) && edges.Keys !! inb.Keys && AllEasy(edges)
    requires env.imports(s.a.(pl := pl)).Some? && env.imports(s.a.(pl := pl)).value.pl == s.a.pl
    requires multiset(sl') == multiset(Sel.Without(sl, s.a.a.id, pl)) + multiset(AllWanted(edges))
    ensures Selects(Seen(env, projects, inb), sl, s.a.(pl := pl), !s.first,
                    Seen(env, projects + [s], After(inb, s.a.a, edges)), sl')
  {
    hide Quiet;
    hide EdgesOf;
    hide AllEasy;
    hide FoldMirrors;
    hide Extends;
    hide Entries;
    hide AllWanted;
    hide Sel.Without;
    SeenFolds(env, projects + [s], After(inb, s.a.a, edges));
    SeenExtends(env, projects, projects + [s], inb, s.a, edges);
    EntriesAre(env, projects, inb, s.a.a, edges);
    assert s.a.(pl := pl).(pl := s.a.pl) == s.a;
    assert Selected(s.a, s.first) == s;
    hide After;
  }

  /** The first of the versions listed for a new project passes its checks. */
  ghost predicate Ready(env: Env, projects: seq<Selected>, inb: Dependers, e: Bimodal, vs: seq<Version>) {
    && Quiet(env.w) && OneEach(inb) && e.prefv == None && env.w.versions(e.id) == Some(vs) && vs != []
    && (e.fromRoot && e.id.root in inb ==> env.w.IsRoot(inb[e.id.root].depender.id.root))
    && Base(projects, e.id.root) == None
    && Seen(env, projects, inb).Passing(AtomWithPackages(Atom(e.id, vs[0]), e.pl), false)
  }

  /** The entry at the head of the queue is taken up, and a version queue is stacked for it. */
  ghost predicate Stacks(s: State, e: Bimodal, vs: seq<Version>, s': State) {
    && s.mode == Choosing && s.sl != [] && s.sl[0] == e
    && s' == State(Choosing, s'.view, s'.sl, s.ids + [e.id], s.lists + [vs], s.flags + [false])
  }

  /** A new project is selected at the first version in its queue. */
  lemma TakesNew(env: Env, projects: seq<Selected>, inb: Dependers, e: Bimodal, vs: seq<Version>, s: State, s': State)
    requires Ready(env, projects, inb, e, vs) && Stacks(s, e, vs, s') && s.view == Seen(env, projects, inb)
    requires Selects(s.view, s.sl, AtomWithPackages(Atom(e.id, vs[0]), e.pl), false, s'.view, s'.sl)
    ensures Next(s, s')
  {
    hide Quiet;
    hide OneEach;
    hide Seen;
    hide Base;
    hide View.Passing;
    hide Selects;
    hide SelectsNew;
    hide Search;
    hide Left;
    hide QueueFor;
    hide Searches;
    QueueIs(env, projects, inb, e);
    FindsFirst(s.view, e.id, e.pl, vs, s.ids, None, s.flags);
    SelectsNewInFull(s, e, s.flags, s');
    TakesUp(s, s');
    hide Next;
  }

  /** The only version of a new project lacks a package that its depender wants. */
  ghost predicate Lacking(env: Env, projects: seq<Selected>, inb: Dependers, e: Bimodal, x: Version, p: string) {
    && Quiet(env.w) && OneEach(inb) && e.prefv == None && !e.fromRoot && env.w.versions(e.id) == Some([x])
    && Base(projects, e.id.root) == None
    && e.id.root in inb && p in inb[e.id.root].dep.pl && !env.w.HasPackage(Atom(e.id, x), p)
  }

  /** ... and the depender is blamed for it. */
  lemma FindsLacking(env: Env, projects: seq<Selected>, inb: Dependers, e: Bimodal, x: Version, p: string, s: State,
                     s': State)
    requires Lacking(env, projects, inb, e, x, p)
    requires s.mode == Choosing && s.view == Seen(env, projects, inb) && s.sl != [] && s.sl[0] == e
    requires s' == s.(mode := Failing, flags := Marked(env.w, s.ids, s.flags, inb[e.id.root].depender.id))
    ensures Next(s, s')
  {
    hide Quiet;
    hide Base;
    hide View.Passing;
    hide CheckMarks;
    hide Search;
    hide NoneAccepted;
    hide QueueFor;
    hide Searches;
    hide FindsNone;
    hide Marked;
    hide Blamed;
    hide World.HasPackage;
    hide Composite;
    QueueIs(env, projects, inb, e);
    SeenOn(env, projects, inb, e.id.root);
    LacksPackage(env, projects, inb, AtomWithPackages(Atom(e.id, x), e.pl), p, s.ids, s.flags);
    hide OneEach;
    FindsNothing(s.view, e.id, e.pl, x, s.ids, None, s.flags);
    BlamedIs(env, projects, inb, e.id, s.ids, s.flags);
    hide Seen;
    FindsNoneInFull(s, e, s');
    TakesUp(s, s');
    hide Next;
  }

  // ---------------------------------------------------------------- taking back

  /** The queue without the entries as the edges want them. */
  function TakenOut(edges: map<ProjectRoot, CompleteDep>, order: seq<ProjectRoot>, sl: seq<Bimodal>): seq<Bimodal> {
    if order == [] then sl
    else
      var before, r := TakenOut(edges, order[..|order| - 1], sl), order[|order| - 1];
      if r in edges then Sel.Without(before, edges[r].wc.ident, edges[r].pl) else before
  }

  lemma {:induction false} DroppedIs(deps: Deps, edges: map<ProjectRoot, CompleteDep>, order: seq<ProjectRoot>,
                                     sl: seq<Bimodal>)
    requires forall r <- edges :: |On(deps, r)| == 1
    ensures Dropped(deps, edges, order, sl) == TakenOut(edges, order, sl)
  {
    hide On;
    hide Sel.Without;
    if order == [] {
    } else {
      DroppedIs(deps, edges, order[..|order| - 1], sl);
    }
  }

  /** When the topmost selection is the first of its project, taking off the project takes off just that. */
  lemma UnselectsTop(v: View, sl: seq<Bimodal>, v': View, sl': seq<Bimodal>)
    requires Unselects(v, sl, v', sl') && v.Top().first
    ensures UnselectsProject(v, sl, v', sl')
  {
    assert TakesOff(v, sl, 0, v, sl);
    assert TakesOff(v, sl, 1, v', sl');
    assert |v'.projects| == |v.projects| - 1;
    hide TakesOff;
    hide Requeues;
    hide Extends;
    hide FoldMirrors;
  }

  /** A selection is taken back: the projects on its edges lose their only depender. */
  lemma UnselectsIs(env: Env, projects: seq<Selected>, inb: Dependers, s: Selected,
                    edges: map<ProjectRoot, CompleteDep>, order: seq<ProjectRoot>,
                    sl: seq<Bimodal>, pushed: seq<Bimodal>)
    requires Quiet(env.w) && edges == EdgesOf(env, s.a) && edges.Keys !! inb.Keys && s.first
    requires Distinct(order) && Elements(order) == edges.Keys
    requires multiset(pushed) == multiset(sl) + multiset{Wanted(s.a.a.id, s.a.pl)}
    ensures UnselectsProject(Seen(env, projects + [s], After(inb, s.a.a, edges)), sl, Seen(env, projects, inb),
                             TakenOut(edges, order, pushed))
  {
    hide Quiet;
    hide EdgesOf;
    hide FoldMirrors;
    hide Extends;
    hide Dropped;
    hide TakenOut;
    hide UnselectsProject;
    var v, v' := Seen(env, projects + [s], After(inb, s.a.a, edges)), Seen(env, projects, inb);
    assert v.Top() == s && v.Front() == projects;
    SeenFolds(env, projects, inb);
    SeenExtends(env, projects, projects + [s], inb, s.a, edges);
    DroppedIs(v.deps, edges, order, pushed);
    assert Requeues(v, sl, pushed, order, TakenOut(edges, order, pushed));
    hide Requeues;
    hide Seen;
    hide Unselects;
    UnselectsInFull(v, sl, pushed, order, v', TakenOut(edges, order, pushed));
    UnselectsTop(v, sl, v', TakenOut(edges, order, pushed));
  }

  lemma UnselectsInFull(v: View, sl: seq<Bimodal>, pushed: seq<Bimodal>, order: seq<ProjectRoot>, v': View,
                        sl': seq<Bimodal>)
    requires v.projects != [] && v'.env == v.env && v'.projects == v.Front()
    requires Extends(v.env, v'.deps, v.Top().a, v.deps) && FoldMirrors(v.env.w, v'.deps, v'.folds)
    requires Requeues(v, sl, pushed, order, sl')
    ensures Unselects(v, sl, v', sl')
  {
    hide Extends;
    hide FoldMirrors;
    hide Requeues;
  }

  /** A marked queue whose next version passes its checks goes on to it. */
  lemma GoesOn(s: State, m: View, slm: seq<Bimodal>, pl: seq<string>, x: Version, s': State)
    requires Retreats(s, m, slm) && |m.projects| < |s.view.projects| && pl == TakenPackages(s, m) && Later(s) == [x]
    requires var a := AtomWithPackages(Atom(TopId(s), x), pl);
             m.Passing(a, false) && Selects(m, slm, a, false, s'.view, s'.sl)
    requires s' == State(Choosing, s'.view, s'.sl, s.ids, s.lists[..|s.ids| - 1] + [[x]],
                         s.flags[|s.ids| - 1 := false])
    ensures Next(s, s')
  {
    hide UnselectsProject;
    hide View.Passing;
    hide Selects;
    hide Search;
    hide Left;
    hide Resumes;
    hide Next;
    var k := |s.ids| - 1;
    FindsFirst(m, TopId(s), pl, [x], s.ids, Some(k), s.flags[k := false]);
    assert Lifted(s.flags, Some(k), true) == s.flags[k := false];
    assert Moves(m, TopId(s), pl, [x], s.ids, k, s.flags, s'.flags);
    hide Moves;
    ResumesInFull(s, m, slm, pl, [x], s');
    ResumesNow(s, m, slm, s');
  }

  /** More packages of a project that is selected. */
  lemma AddsNow(s: State, e: Bimodal, s': State)
    requires s.mode == Choosing && s.sl != [] && s.sl[0] == e
    requires Base(s.view.projects, e.id.root).Some? && !s.view.env.w.IsRoot(e.id.root)
    requires s.view.Passing(MoreOf(s.view, e), true) && Selects(s.view, s.sl, MoreOf(s.view, e), true, s'.view, s'.sl)
    requires s' == s.(view := s'.view, sl := s'.sl)
    ensures Next(s, s')
  {
    hide View.Passing;
    hide Selects;
    hide Base;
    hide Next;
    assert AddsPackages(s, e, s');
    hide AddsPackages;
    TakesUp(s, s');
  }

  // ---------------------------------------------------------------- a root that imports one project

  /** The root "r" imports a/p, of project a, and says nothing else. */
  ghost predicate ImportsA(w: World) {
    && Quiet(w) && w.rootRoot == "r" && w.rootManifest == map[] && w.rootImports == ["a/p"]
    && w.rootAtomPackages == [] && w.overrides == map[]
    && !w.stdlib("a/p") && w.deduce("a/p") == Some("a")
  }

  const ROOT_NEEDS: map<ProjectRoot, CompleteDep> := map["a" := Open(Id("a"), "a/p")]

  /** Both packages of c, in order. */
  function Both(): (pl: seq<string>)
    ensures |pl| == 2 && Elements(pl) == {"c/p", "c/q"} && Distinct(pl)
  {
    var pl := SortedSeq({"c/p", "c/q"});
    ElementsOfDistinct(pl);
    pl
  }

  function At(id: ProjectIdentifier, v: Version, pl: seq<string>): AtomWithPackages {
    AtomWithPackages(Atom(id, v), pl)
  }

  function Root(): Selected {
    Selected(At(Id("r"), Revision(""), []), true)
  }

  function A(v: Version): Selected {
    Selected(At(Id("a"), v, ["a/p"]), true)
  }

  /** c with all of its packages. */
  function C(): Selected {
    Selected(At(Id("c"), NEW, Both()), true)
  }

  lemma BothMembers()
    ensures forall p :: p in Both() <==> p == "c/p" || p == "c/q"
  {
    assert forall p :: p in Both() <==> p in Elements(Both());
  }

  lemma BothHasTwo()
    ensures |{"c/p", "c/q"}| == 2 == |Both()| && SortedSeq({"c/p", "c/q"}) == Both()
  {
    hide SortedSeq;
  }

  function AtRoot(): Dependers {
    map["a" := Dependency(Root().a.a, Open(Id("a"), "a/p"))]
  }

  /** The root is selected, and wants a. */
  ghost function Start(env: Env): State {
    State(Choosing, Seen(env, [Root()], AtRoot()), [Bimodal(Id("a"), ["a/p"], None, true)], [], [], [])
  }

  lemma RootNeeds(w: World)
    requires ImportsA(w)
    ensures RootDeps(w) == Some(ROOT_NEEDS) && !Overwrites(w, w.OverrideAll(w.rootManifest), w.rootImports)
  {
    assert w.OverrideAll(w.rootManifest) == map[];
    assert [] + ["a/p"] == ["a/p"];
    assert Match({}, "a/p") == None;
    hide Match;
    assert Group(w, map[], []) == Some(Grouping(map[], map[])) && !Overwrites(w, map[], []);
    GroupsNew(w, map[], [], Grouping(map[], map[]), "a/p", "a");
    hide Group;
    hide Overwrites;
  }

  lemma EnvIs(w: World)
    requires ImportsA(w)
    ensures EnvOf(w).w == w && Quiet(w) && EnvOf(w).rootDeps == ROOT_NEEDS
    ensures (forall r :: w.IsRoot(r) <==> r == "r") && w.RootAtom() == Root().a
  {
    RootNeeds(w);
    hide RootDeps;
    hide Imports;
    hide Quiet;
  }

  lemma EdgesAre(w: World, a: AtomWithPackages, req: Requirement)
    requires ImportsA(w) && a.a.id.root != "r" && Imports(w, a) == Some(req) && "r" !in req.deps
    ensures EnvOf(w).imports(a) == Some(req) && EdgesOf(EnvOf(w), a) == req.deps
  {
    hide RootDeps;
    hide Imports;
    EnvIs(w);
    ImportsAre(w, a);
    hide EnvOf;
    hide ImportsA;
    hide Quiet;
    assert !w.IsRoot(a.a.id.root);
    assert forall r <- req.deps :: !w.IsRoot(r);
    hide World.IsRoot;
  }

  lemma ImportsAre(w: World, a: AtomWithPackages)
    ensures EnvOf(w).imports(a) == Imports(w, a)
  {
    hide RootDeps;
    hide Imports;
  }

  lemma EdgesOfRoot(w: World)
    requires ImportsA(w)
    ensures EdgesOf(EnvOf(w), Root().a) == ROOT_NEEDS
  {
    EnvIs(w);
    hide EnvOf;
    hide ImportsA;
    hide Quiet;
    assert w.IsRoot("r");
    hide World.IsRoot;
  }

  lemma ItStarts(w: World)
    requires ImportsA(w)
    ensures Starts(EnvOf(w), Start(EnvOf(w)))
  {
    hide ImportsA;
    hide EnvOf;
    hide Quiet;
    hide FoldMirrors;
    hide RootEntries;
    hide EdgesOf;
    hide Root;
    EnvIs(w);
    EdgesOfRoot(w);
    var env, root := EnvOf(w), Root().a;
    RootIs(env);
    hide OneEach;
    hide AtRoot;
    SeenFolds(env, [Root()], AtRoot());
    forall r ensures On(Start(env).view.deps, r) == EdgeTo(env, root, r) {
      SeenOn(env, [Root()], AtRoot(), r);
    }
    hide Seen;
    RootEntryIs();
  }

  lemma RootIs(env: Env)
    ensures Root() == Selected(Root().a, true) && Start(env).view.projects == [Root()] && Start(env).view.env == env
    ensures OneEach(AtRoot()) && AtRoot().Keys == {"a"} && AtRoot()["a"] == Dependency(Root().a.a, ROOT_NEEDS["a"])
  {
  }

  lemma RootEntryIs()
    ensures RootEntries(ROOT_NEEDS, ROOT_NEEDS.Keys) == {Bimodal(Id("a"), ["a/p"], None, true)}
  {
    assert ROOT_NEEDS["a"].wc.ident == Id("a");
  }

  lemma NothingIsEasy()
    ensures AllEasy(map[])
  {
  }

  lemma NothingAfter(inb: Dependers, a: Atom)
    ensures After(inb, a, map[]) == inb
  {
  }

  lemma WithoutNone(sl: seq<Bimodal>, id: ProjectIdentifier, pl: seq<string>)
    requires forall e <- sl :: !Names(e, id, pl)
    ensures Sel.Without(sl, id, pl) == sl
  {
    hide Names;
  }
}
