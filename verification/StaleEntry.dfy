/** A world in which the program dies although a solution exists. The root imports project a; its
    newer version imports project c, its older one nothing. The newer version of c imports
    project d, which cannot be used; the older one lacks the package that is wanted. Backtracking
    leaves an expanded entry for c in the queue when nobody depends on c any more. */
module StaleEntry {
  import opened Wrappers
  import opened Strings
  import opened Versions
  import opened Bridge
  import opened ImportGroups
  import opened Requirements
  import opened VersionQueues
  import Sel = Selection
  import opened Selection
  import opened SolverInvariant
  import opened SolverSteps
  import opened SolverViews
  import opened SolverRuns
  import opened Soundness
  import opened SmallWorlds

  // ---------------------------------------------------------------- the world

  function Listed(r: ProjectRoot): seq<Version> {
    if r == "a" || r == "c" then [NEW, OLD] else [NEW]
  }

  function Tree(a: Atom): PackageTree {
    if a.id.root == "a" then map["a/p" := true]
    else if a.id.root == "c" then (if a.v == NEW then map["c/p" := true, "c/q" := true] else map["c/q" := true])
    else map[]
  }

  function Reach(a: Atom): ReachMap {
    if a.id.root == "a" then map["a/p" := Reached([], if a.v == NEW then ["c/p"] else [])]
    else if a.id.root == "c" then
      (if a.v == NEW then map["c/p" := Reached(["c/q"], ["d/p"]), "c/q" := Reached([], [])]
       else map["c/q" := Reached([], [])])
    else map[]
  }

  function Owner(p: string): Option<ProjectRoot> {
    if p == "a/p" then Some("a") else if p == "c/p" then Some("c") else if p == "d/p" then Some("d") else None
  }

  function Stale(): World {
    SmallWorld(["a/p"], r => Listed(r), a => map[], a => Tree(a), a => Reach(a), p => Owner(p),
               {("a", "a/p"), ("c", "c/p"), ("d", "d/p")})
  }

  /** What grouping makes of at most one import. */
  function Grouped(ex: Option<string>): map<ProjectRoot, CompleteDep>
    requires ex.Some? ==> Owner(ex.value).Some?
  {
    match ex case None => map[] case Some(p) => map[Owner(p).value := Open(Id(Owner(p).value), p)]
  }

  lemma GroupsOne(ex: Option<string>)
    requires ex.Some? ==> Owner(ex.value).Some?
    ensures var g := Group(Stale(), map[], OptionSeq(ex));
            g.Some? && g.value.deps == Grouped(ex) && !Overwrites(Stale(), map[], OptionSeq(ex))
  {
    NothingToGroup(Stale(), map[]);
    if ex.Some? {
      var p := ex.value;
      assert [] + [p] == [p];
      assert Match({}, p) == None;
      assert Stale().deduce(p) == Owner(p);
      GroupsNew(Stale(), map[], [], Grouping(map[], map[]), p, Owner(p).value);
    }
    hide Group;
    hide Overwrites;
    hide Match;
  }

  /** The one import that the packages of an atom have outside its project, if any. */
  function Import(a: AtomWithPackages): Option<string> {
    if a.a.v != NEW then None
    else if a.a.id.root == "a" && "a/p" in a.pl then Some("c/p")
    else if a.a.id.root == "c" && "c/p" in a.pl then Some("d/p")
    else None
  }

  lemma SortedOption(ex: Option<string>)
    ensures SortedSeq(match ex case None => {} case Some(p) => {p}) == OptionSeq(ex)
  {
    match ex
    case None =>
      assert Elements(SortedSeq({})) == {};
    case Some(p) =>
      var s := SortedSeq({p});
      assert p in Elements(s);
      ElementsOfDistinct(s);
      assert |s| == |{p}| == 1;
  }

  lemma Reaches(a: AtomWithPackages)
    ensures OutsideSet(Stale(), a) == match Import(a) case None => {} case Some(p) => {p}
    ensures SortedSeq(OutsideSet(Stale(), a)) == OptionSeq(Import(a))
    ensures KnownTo(Stale(), a.a) == map[]
  {
    if Import(a).Some? {
      var pkg := if a.a.id.root == "a" then "a/p" else "c/p";
      assert pkg in a.pl && pkg in Reach(a.a) && Import(a).value in Reach(a.a)[pkg].outside;
    }
    SortedOption(Import(a));
    hide SortedSeq;
  }

  function Needs(a: AtomWithPackages): map<ProjectRoot, CompleteDep> {
    Grouped(Import(a))
  }

  /** The dependencies of an atom whose packages are all there. */
  lemma ImportsOf(a: AtomWithPackages)
    ensures Imports(Stale(), a).Some? <==> forall p <- a.pl :: p in Reach(a.a)
    ensures Imports(Stale(), a).Some? ==>
              Imports(Stale(), a).value == Requirement(Expanded(Stale(), a), Needs(a))
  {
    Reaches(a);
    GroupsOne(Import(a));
    hide SortedSeq;
    hide OutsideSet;
    hide Group;
    hide Expanded;
    hide Grouped;
  }

  // ---------------------------------------------------------------- it is well behaved

  lemma ItIs()
    ensures ImportsA(Stale())
  {
  }

  lemma IsPlain()
    ensures var w := Stale();
            ReachClosed(w) && OutsideIsForeign(w) && DeductionIsAncestral(w) && ConstraintsProper(w)
  {
    var w := Stale();
    forall ip | Owner(ip).Some? ensures PathPrefix(Owner(ip).value, ip) { assert ip[..1] == Owner(ip).value; }
    forall a, p ensures ClosedAt(w, a, p) {
    }
    forall a, p, ex | p in Reach(a) && ex in Reach(a)[p].outside ensures !PathPrefix(a.id.root, ex) {
      assert a.id.root[0] != ex[0];
    }
  }

  lemma VersionsAre()
    ensures forall id :: Stale().versions(id) == Some(Listed(id.root))
    ensures VersionsBounded(Stale())
  {
    assert forall id :: Stale().versions(id) == Some(Listed(id.root));
    assert Stale().maxVersions == 2;
    hide Stale;
  }

  lemma NeedsFit(a: AtomWithPackages)
    ensures InUniverse(Stale(), Needs(a)) && FoldDistinct(Stale(), Needs(a))
    ensures InUniverse(Stale(), ROOT_NEEDS) && FoldDistinct(Stale(), ROOT_NEEDS)
  {
  }

  lemma IsBounded()
    ensures Bounded(Stale())
  {
    VersionsAre();
    ItIs();
    hide Stale;
    hide InUniverse;
    hide FoldDistinct;
    hide VersionsBounded;
    hide Imports;
    hide RootDeps;
    hide Needs;
    RootNeeds(Stale());
    NeedsFit(Stale().RootAtom());
    forall a | Imports(Stale(), a).Some?
      ensures InUniverse(Stale(), Imports(Stale(), a).value.deps)
      ensures FoldDistinct(Stale(), Imports(Stale(), a).value.deps)
    {
      NeedsFit(a);
      ImportsOf(a);
    }
  }

  lemma IsLossless()
    ensures Lossless(Stale())
  {
    hide Stale;
    hide Imports;
    hide OutsideSet;
    hide Overwrites;
    hide KnownTo;
    hide SortedSeq;
    ItIs();
    RootNeeds(Stale());
    forall a: AtomWithPackages ensures !Overwrites(Stale(), KnownTo(Stale(), a.a), SortedSeq(OutsideSet(Stale(), a))) {
      Reaches(a);
      GroupsOne(Import(a));
    }
  }

  lemma IsWellBehaved()
    ensures WellBehaved(Stale()) && Lossless(Stale())
  {
    IsPlain();
    IsBounded();
    IsLossless();
    assert Stale().rootImports == ["a/p"];
    hide Stale;
    hide Lossless;
    hide ReachClosed;
    hide OutsideIsForeign;
    hide DeductionIsAncestral;
    hide ConstraintsProper;
    hide Bounded;
  }

  // ---------------------------------------------------------------- atoms and dependers

  lemma PackagesAre(v: Version)
    ensures var w := Stale();
            && w.HasPackage(Atom(Id("a"), v), "a/p") && w.HasPackage(Atom(Id("c"), NEW), "c/p")
            && !w.HasPackage(Atom(Id("d"), NEW), "d/p")
    ensures forall a: Atom | a.id.root != "r" :: Stale().ListPackages(a).Some?
  {
  }

  /** Who is depended on when a is selected at the given version, */
  function WithA(v: Version): Dependers {
    After(AtRoot(), A(v).a.a, Needs(A(v).a))
  }

  /** ... and c with it. */
  function WithC(v: Version): Dependers {
    After(WithA(v), C().a.a, NEEDS_OF_C)
  }

  const NEEDS_OF_C: map<ProjectRoot, CompleteDep> := map["d" := Open(Id("d"), "d/p")]

  lemma NeedsOfA(v: Version)
    ensures Needs(A(v).a) == if v == NEW then map["c" := Open(Id("c"), "c/p")] else map[]
  {
    assert "a/p" in A(v).a.pl;
  }

  lemma DependersAre(v: Version)
    ensures OneEach(AtRoot()) && OneEach(WithA(v)) && AtRoot().Keys == {"a"}
    ensures WithA(v).Keys == (if v == NEW then {"a", "c"} else {"a"})
    ensures v == NEW ==> WithA(v)["c"] == Dependency(A(v).a.a, Open(Id("c"), "c/p"))
    ensures WithA(v)["a"] == AtRoot()["a"] && Needs(A(v).a).Keys !! AtRoot().Keys && AllEasy(Needs(A(v).a))
  {
    NeedsOfA(v);
    hide Needs;
  }

  lemma MoreDependersAre(v: Version)
    ensures OneEach(WithC(v)) && NEEDS_OF_C.Keys !! WithA(v).Keys && AllEasy(NEEDS_OF_C)
    ensures "d" in WithC(v) && WithC(v)["d"] == Dependency(C().a.a, Open(Id("d"), "d/p"))
  {
    DependersAre(v);
    hide WithA;
    hide A;
    hide C;
    hide AtRoot;
  }

  lemma ExpandedA(v: Version)
    ensures Expanded(Stale(), A(v).a) == ["a/p"] && forall p <- A(v).a.pl :: p in Reach(A(v).a.a)
  {
    var a := A(v).a;
    assert "a/p" in a.pl;
    assert InsideSet(Stale(), a) == {"a/p"};
    hide InsideSet;
  }

  lemma ImportsOfA(v: Version)
    ensures EnvOf(Stale()).imports(A(v).a) == Some(Requirement(["a/p"], Needs(A(v).a)))
    ensures EdgesOf(EnvOf(Stale()), A(v).a) == Needs(A(v).a)
  {
    hide Stale;
    hide EnvOf;
    hide Expanded;
    hide Imports;
    hide Reach;
    hide EdgesOf;
    ExpandedA(v);
    NeedsOfA(v);
    hide Needs;
    assert A(v).a.a.id.root == "a";
    ImportsOf(A(v).a);
    hide A;
    ItIs();
    EdgesAre(Stale(), A(v).a, Requirement(["a/p"], Needs(A(v).a)));
  }

  lemma InsideC(pl: seq<string>)
    requires "c/p" in pl && forall p <- pl :: p == "c/p" || p == "c/q"
    ensures InsideSet(Stale(), At(Id("c"), NEW, pl)) == {"c/p", "c/q"}
    ensures (forall p <- pl :: p in Reach(Atom(Id("c"), NEW))) && "c/p" !in Reach(Atom(Id("c"), OLD))
  {
    var a := At(Id("c"), NEW, pl);
    assert "c/p" in Reach(a.a) && "c/q" in Reach(a.a)["c/p"].inside;
  }

  lemma NeedsOfC(pl: seq<string>)
    requires "c/p" in pl
    ensures Needs(At(Id("c"), NEW, pl)) == NEEDS_OF_C
  {
  }

  lemma ExpandedC(pl: seq<string>)
    requires pl == ["c/p"] || pl == Both()
    ensures Expanded(Stale(), At(Id("c"), NEW, pl)) == Both() && "c/p" in pl
    ensures (forall p <- pl :: p in Reach(Atom(Id("c"), NEW))) && "c/p" !in Reach(Atom(Id("c"), OLD))
  {
    BothMembers();
    assert "c/p" in pl;
    hide Stale;
    hide Reach;
    hide Both;
    InsideC(pl);
    BothHasTwo();
    hide InsideSet;
  }

  /** The newer version of c needs d; the older one lacks the package that is wanted. */
  lemma ImportsOfC(pl: seq<string>)
    requires pl == ["c/p"] || pl == Both()
    ensures EnvOf(Stale()).imports(At(Id("c"), NEW, pl)) == Some(Requirement(Both(), NEEDS_OF_C))
    ensures EdgesOf(EnvOf(Stale()), At(Id("c"), NEW, pl)) == NEEDS_OF_C
    ensures EnvOf(Stale()).imports(At(Id("c"), OLD, pl)) == None
  {
    hide Stale;
    hide EnvOf;
    hide Expanded;
    hide Imports;
    hide Both;
    hide Reach;
    hide EdgesOf;
    hide Needs;
    ExpandedC(pl);
    NeedsOfC(pl);
    ImportsOf(At(Id("c"), NEW, pl));
    ImportsOf(At(Id("c"), OLD, pl));
    ImportsAre(Stale(), At(Id("c"), OLD, pl));
    ItIs();
    EdgesAre(Stale(), At(Id("c"), NEW, pl), Requirement(Both(), NEEDS_OF_C));
  }

  lemma BasesAre(v: Version)
    ensures Base([Root()], "a") == None && Base([Root()], "c") == None
    ensures Base([Root(), A(v)], "c") == None && Base([Root(), A(v)], "d") == None
    ensures Base([Root(), A(v), C()], "d") == None && Base([Root(), A(v)], "a") == Some(A(v).a)
  {
    hide FirstIndex;
    var two, three := [Root(), A(v)], [Root(), A(v), C()];
    assert three[0].a.a.id.root == "r" && three[1].a.a.id.root == "a" && three[2].a.a.id.root == "c";
    assert two[0].a.a.id.root == "r" && two[1].a.a.id.root == "a";
    var n := FirstIndex(two, "a");
  }

  // ---------------------------------------------------------------- the run

  ghost function SeesA(v: Version): View {
    Seen(EnvOf(Stale()), [Root(), A(v)], WithA(v))
  }

  ghost function SeesC(v: Version): View {
    Seen(EnvOf(Stale()), [Root(), A(v), C()], WithC(v))
  }

  ghost function Begun(): State {
    Start(EnvOf(Stale()))
  }

  /** a is selected, and its queue is at the given version: the entry for c asks for pl. */
  ghost function AtA(v: Version, rem: seq<Version>, pl: seq<string>): State {
    State(Choosing, SeesA(v), [Wanted(Id("c"), pl)], [Id("a")], [rem], [false])
  }

  ghost function AtC(v: Version, rem: seq<Version>): State {
    State(Choosing, SeesC(v), [Wanted(Id("d"), ["d/p"])], [Id("a"), Id("c")], [rem, [NEW, OLD]], [false, false])
  }

  /** d could not be selected, and c is blamed. */
  ghost function AtD(v: Version, rem: seq<Version>): State {
    State(Failing, SeesC(v), [Wanted(Id("d"), ["d/p"])], [Id("a"), Id("c")], [rem, [NEW, OLD]], [false, true])
  }

  /** c has no other version that will do, and a is blamed; the entry for c is the expanded one. */
  ghost function CGone(): State {
    State(Failing, SeesA(NEW), [Wanted(Id("c"), Both())], [Id("a")], [[NEW, OLD]], [true])
  }

  ghost function StaleRun(): seq<State> {
    [Begun(), AtA(NEW, [NEW, OLD], ["c/p"]), AtC(NEW, [NEW, OLD]), AtD(NEW, [NEW, OLD]), CGone(),
     AtA(OLD, [OLD], Both()), AtC(OLD, [OLD]), AtD(OLD, [OLD])]
  }

  // ---------------------------------------------------------------- selecting a

  lemma NewToA(v: Version)
    ensures forall r <- Needs(A(v).a) :: r !in AtRoot() && Base([Root()], r) == None
    ensures AtRoot()["a"].dep.pl == ["a/p"] && AllEasy(Needs(A(v).a))
  {
    BasesAre(v);
    DependersAre(v);
    NeedsOfA(v);
    hide Base;
    hide Root;
    hide A;
    hide Needs;
  }

  lemma PassesA(v: Version)
    ensures Begun().view.Passing(A(v).a, false)
  {
    hide Stale;
    hide EnvOf;
    hide Needs;
    hide Base;
    hide Quiet;
    hide View.Passing;
    hide World.HasPackage;
    hide World.ListPackages;
    hide Root;
    ItIs();
    EnvIs(Stale());
    hide ImportsA;
    ImportsOfA(v);
    DependersAre(v);
    NewToA(v);
    assert A(v).a.a == Atom(Id("a"), v) && A(v).a.a.id.root == "a";
    PackagesAre(v);
    hide A;
    hide OneEach;
    hide AllEasy;
    hide AtRoot;
    PassesIf(EnvOf(Stale()), [Root()], AtRoot(), A(v).a, false);
  }

  lemma ReadyA()
    ensures Ready(EnvOf(Stale()), [Root()], AtRoot(), Bimodal(Id("a"), ["a/p"], None, true), [NEW, OLD])
  {
    hide Stale;
    hide EnvOf;
    hide Quiet;
    hide Base;
    hide View.Passing;
    hide OneEach;
    hide Seen;
    ItIs();
    EnvIs(Stale());
    hide ImportsA;
    VersionsAre();
    DependersAre(NEW);
    BasesAre(NEW);
    PassesA(NEW);
    assert A(NEW).a == AtomWithPackages(Atom(Id("a"), NEW), ["a/p"]);
    assert AtRoot()["a"].depender.id.root == "r";
    hide AtRoot;
    hide A;
    hide Root;
  }

  /** What selecting a adds to the queue: c is wanted by the newer version. */
  lemma AddsC(v: Version)
    ensures AllWanted(Needs(A(v).a)) == if v == NEW then {Wanted(Id("c"), ["c/p"])} else {}
  {
    hide AllWanted;
    NeedsOfA(v);
    hide Needs;
    AllWantedAre("c", Open(Id("c"), "c/p"), "d", Open(Id("d"), "d/p"));
  }

  lemma SelectsA(v: Version, rest: seq<Bimodal>, sl: seq<Bimodal>, sl': seq<Bimodal>)
    requires Sel.Without(sl, Id("a"), ["a/p"]) == rest
    requires multiset(sl') == multiset(rest) + multiset(AllWanted(Needs(A(v).a)))
    ensures Selects(Begun().view, sl, A(v).a, false, SeesA(v), sl')
  {
    hide Stale;
    hide EnvOf;
    hide Quiet;
    hide Selects;
    hide Needs;
    hide EdgesOf;
    hide AllWanted;
    hide Sel.Without;
    hide OneEach;
    hide AllEasy;
    hide AtRoot;
    hide Root;
    ItIs();
    EnvIs(Stale());
    hide ImportsA;
    DependersAre(v);
    ImportsOfA(v);
    assert [Root()] + [A(v)] == [Root(), A(v)];
    assert A(v).a.(pl := ["a/p"]) == A(v).a;
    assert A(v).first && A(v).a.a.id == Id("a") && A(v).a.pl == ["a/p"];
    hide A;
    SelectsIs(EnvOf(Stale()), [Root()], AtRoot(), A(v), ["a/p"], Needs(A(v).a), sl, sl');
  }

  /** a is selected at its newer version. */
  lemma TakesA()
    ensures Next(Begun(), AtA(NEW, [NEW, OLD], ["c/p"]))
  {
    hide Selects;
    hide Next;
    hide Ready;
    hide Seen;
    hide EnvOf;
    hide AtRoot;
    hide WithA;
    hide Root;
    hide Needs;
    hide AllWanted;
    hide Sel.Without;
    var e, c := Bimodal(Id("a"), ["a/p"], None, true), Wanted(Id("c"), ["c/p"]);
    ReadyA();
    AddsC(NEW);
    WithoutFirst(e, []);
    assert [e] + [] == [e] && multiset([c]) == multiset([]) + multiset({c});
    SelectsA(NEW, [], [e], [c]);
    assert A(NEW).a == AtomWithPackages(Atom(Id("a"), NEW), ["a/p"]);
    hide A;
    TakesNew(EnvOf(Stale()), [Root()], AtRoot(), e, [NEW, OLD], Begun(), AtA(NEW, [NEW, OLD], ["c/p"]));
  }

  // ---------------------------------------------------------------- selecting c, and failing at d

  /** The packages that the entry for c asks for: with the older version of a, the entry is stale. */
  function Wish(v: Version): seq<string> {
    if v == NEW then ["c/p"] else Both()
  }

  lemma PassesC(v: Version)
    ensures SeesA(v).Passing(At(Id("c"), NEW, Wish(v)), false)
  {
    hide Stale;
    hide EnvOf;
    hide Base;
    hide Quiet;
    hide View.Passing;
    hide World.HasPackage;
    hide World.ListPackages;
    hide Both;
    hide OneEach;
    hide AllEasy;
    hide EdgesOf;
    hide Root;
    hide A;
    hide WithA;
    ItIs();
    EnvIs(Stale());
    hide ImportsA;
    ImportsOfC(Wish(v));
    hide Wish;
    DependersAre(v);
    MoreDependersAre(v);
    BasesAre(v);
    PackagesAre(v);
    hide C;
    PassesIf(EnvOf(Stale()), [Root(), A(v)], WithA(v), At(Id("c"), NEW, Wish(v)), false);
  }

  lemma ReadyC(v: Version)
    ensures Ready(EnvOf(Stale()), [Root(), A(v)], WithA(v), Wanted(Id("c"), Wish(v)), [NEW, OLD])
  {
    hide Stale;
    hide EnvOf;
    hide Quiet;
    hide Base;
    hide View.Passing;
    hide OneEach;
    hide Seen;
    hide Wish;
    hide A;
    hide Root;
    hide WithA;
    ItIs();
    EnvIs(Stale());
    hide ImportsA;
    VersionsAre();
    DependersAre(v);
    BasesAre(v);
    PassesC(v);
  }

  lemma SelectsC(v: Version)
    ensures Selects(SeesA(v), [Wanted(Id("c"), Wish(v))], At(Id("c"), NEW, Wish(v)), false, SeesC(v),
                    [Wanted(Id("d"), ["d/p"])])
  {
    hide Stale;
    hide EnvOf;
    hide Quiet;
    hide Selects;
    hide Both;
    hide EdgesOf;
    hide AllWanted;
    hide Sel.Without;
    hide AllEasy;
    hide OneEach;
    hide Root;
    hide A;
    hide WithA;
    var c, d := Wanted(Id("c"), Wish(v)), Wanted(Id("d"), ["d/p"]);
    ItIs();
    EnvIs(Stale());
    hide ImportsA;
    ImportsOfC(Wish(v));
    ImportsOfC(Both());
    hide Wish;
    MoreDependersAre(v);
    WithoutFirst(c, []);
    assert [c] + [] == [c];
    AllWantedAre("d", Open(Id("d"), "d/p"), "a", Open(Id("a"), "a/p"));
    assert multiset([d]) == multiset([]) + multiset({d});
    assert [Root(), A(v)] + [C()] == [Root(), A(v), C()];
    hide After;
    SelectsIs(EnvOf(Stale()), [Root(), A(v)], WithA(v), C(), Wish(v), NEEDS_OF_C, [c], [d]);
  }

  lemma TakesC(v: Version, rem: seq<Version>)
    ensures Next(AtA(v, rem, Wish(v)), AtC(v, rem))
  {
    hide Selects;
    hide Next;
    hide Ready;
    hide Seen;
    hide EnvOf;
    hide WithA;
    hide WithC;
    hide A;
    hide C;
    hide Root;
    hide Wish;
    ReadyC(v);
    SelectsC(v);
    TakesNew(EnvOf(Stale()), [Root(), A(v)], WithA(v), Wanted(Id("c"), Wish(v)), [NEW, OLD], AtA(v, rem, Wish(v)),
             AtC(v, rem));
  }

  lemma LacksD(v: Version)
    ensures Lacking(EnvOf(Stale()), [Root(), A(v), C()], WithC(v), Wanted(Id("d"), ["d/p"]), NEW, "d/p")
    ensures WithC(v)["d"].depender.id == Id("c")
  {
    hide Stale;
    hide EnvOf;
    hide Quiet;
    hide Base;
    hide OneEach;
    hide Both;
    hide Root;
    hide WithC;
    hide World.HasPackage;
    ItIs();
    EnvIs(Stale());
    hide ImportsA;
    VersionsAre();
    MoreDependersAre(v);
    BasesAre(v);
    PackagesAre(v);
    assert C().a.a.id == Id("c");
    hide A;
    hide C;
  }

  lemma MarksOf()
    ensures Marked(Stale(), [Id("a"), Id("c")], [false, false], Id("c")) == [false, true]
    ensures Marked(Stale(), [Id("a"), Id("c")], [false, false], Id("a")) == [true, false]
  {
    ItIs();
    EnvIs(Stale());
    hide Stale;
    hide EnvOf;
    hide ImportsA;
    hide Quiet;
    hide IdIndex;
    var ids := [Id("a"), Id("c")];
    assert ids[0].Eq(Id("a")) && !ids[0].Eq(Id("c")) && ids[1].Eq(Id("c"));
    assert IdIndex(ids, Id("c")) == 1 && IdIndex(ids, Id("a")) == 0;
    assert !Stale().IsRoot("a") && !Stale().IsRoot("c");
  }

  /** d lacks its package, and c is to blame. */
  lemma FailsAtD(v: Version, rem: seq<Version>)
    ensures Next(AtC(v, rem), AtD(v, rem))
  {
    hide Stale;
    hide EnvOf;
    hide Quiet;
    hide Next;
    hide Lacking;
    hide Marked;
    hide Seen;
    hide WithC;
    hide A;
    hide C;
    hide Root;
    ItIs();
    EnvIs(Stale());
    hide ImportsA;
    MarksOf();
    LacksD(v);
    MoreDependersAre(v);
    FindsLacking(EnvOf(Stale()), [Root(), A(v), C()], WithC(v), Wanted(Id("d"), ["d/p"]), NEW, "d/p", AtC(v, rem),
                 AtD(v, rem));
  }

  // ---------------------------------------------------------------- backtracking to a, and nobody to blame

  lemma TakesOutD()
    ensures TakenOut(NEEDS_OF_C, ["d"], [Wanted(Id("d"), ["d/p"]), Wanted(Id("c"), Both())]) ==
            [Wanted(Id("c"), Both())]
  {
    hide Both;
    hide Sel.Without;
    var d, c := Wanted(Id("d"), ["d/p"]), Wanted(Id("c"), Both());
    assert [d] + [c] == [d, c];
    WithoutFirst(d, [c]);
    assert ["d"][..0] == [] && TakenOut(NEEDS_OF_C, [], [d, c]) == [d, c];
  }

  /** Taking c off puts its expanded entry in the queue and removes the entry for d. */
  lemma LeavesC(v: Version)
    ensures UnselectsProject(SeesC(v), [Wanted(Id("d"), ["d/p"])], SeesA(v), [Wanted(Id("c"), Both())])
  {
    hide Stale;
    hide EnvOf;
    hide Quiet;
    hide UnselectsProject;
    hide EdgesOf;
    hide Both;
    hide Root;
    hide A;
    hide WithA;
    hide TakenOut;
    hide OneEach;
    hide AllEasy;
    var d, c := Wanted(Id("d"), ["d/p"]), Wanted(Id("c"), Both());
    ItIs();
    EnvIs(Stale());
    hide ImportsA;
    ImportsOfC(Both());
    MoreDependersAre(v);
    TakesOutD();
    OrderIs();
    assert [Root(), A(v)] + [C()] == [Root(), A(v), C()];
    assert multiset([d, c]) == multiset([d]) + multiset{c};
    hide After;
    UnselectsIs(EnvOf(Stale()), [Root(), A(v)], WithA(v), C(), NEEDS_OF_C, ["d"], [d], [d, c]);
  }

  lemma OrderIs()
    ensures Elements(["d"]) == NEEDS_OF_C.Keys && Distinct(["d"])
    ensures Elements(["c"]) == Needs(A(NEW).a).Keys && Distinct(["c"])
  {
    NeedsOfA(NEW);
    hide A;
    hide Needs;
  }

  /** The older version of c lacks the package, in both of the selections it is tried in. */
  lemma OldRefused(v: Version, at: Option<nat>, flags: seq<bool>)
    ensures NoneAccepted(SeesA(v), Id("c"), [OLD], Both())
    ensures Search(SeesA(v), Id("c"), Both(), [OLD], [Id("a"), Id("c")], at, flags,
                   if v == NEW then Marked(Stale(), [Id("a"), Id("c")], flags, Id("a")) else flags)
  {
    hide Stale;
    hide EnvOf;
    hide Both;
    hide View.Passing;
    hide CheckMarks;
    hide Search;
    hide NoneAccepted;
    hide OneEach;
    hide AllEasy;
    hide EdgesOf;
    hide Root;
    hide WithA;
    hide Marked;
    hide Blamed;
    var ids := [Id("a"), Id("c")];
    ItIs();
    EnvIs(Stale());
    hide ImportsA;
    hide Quiet;
    ImportsOfC(Both());
    DependersAre(v);
    assert A(NEW).a.a.id == Id("a");
    hide A;
    assert At(Id("c"), OLD, Both()) == AtomWithPackages(Atom(Id("c"), OLD), Both());
    LacksImports(EnvOf(Stale()), [Root(), A(v)], WithA(v), At(Id("c"), OLD, Both()), ids, flags);
    FindsNothing(SeesA(v), Id("c"), Both(), OLD, ids, at, flags);
    BlamedIs(EnvOf(Stale()), [Root(), A(v)], WithA(v), Id("c"), ids, flags);
  }

  /** What is taken off, and what is left. */
  lemma CTaken(v: Version)
    ensures |SeesA(v).projects| < |SeesC(v).projects| && SeesC(v).projects[|SeesA(v).projects|].a.pl == Both()
    ensures On(SeesA(v).deps, "c") == [] <==> v != NEW
  {
    hide EnvOf;
    DependersAre(v);
    SeenOn(EnvOf(Stale()), [Root(), A(v)], WithA(v), "c");
    hide Stale;
    hide A;
    hide WithA;
    hide WithC;
    hide Both;
  }

  lemma RetiresC()
    ensures Next(AtD(NEW, [NEW, OLD]), CGone())
  {
    hide Both;
    hide UnselectsProject;
    hide Marked;
    hide Search;
    hide NoneAccepted;
    hide Next;
    hide Fruitless;
    hide SeesA;
    hide SeesC;
    var s, m, slm := AtD(NEW, [NEW, OLD]), SeesA(NEW), [Wanted(Id("c"), Both())];
    LeavesC(NEW);
    OldRefused(NEW, Some(1), [false, false]);
    MarksOf();
    assert Retreats(s, m, slm) && Later(s) == [OLD] && TopId(s) == Id("c");
    CTaken(NEW);
    assert Lifted(s.flags, Some(1), true) == [false, false];
    assert Moves(m, Id("c"), Both(), [OLD], s.ids, 1, s.flags, [true, false]);
    hide Moves;
    hide Retreats;
    FruitlessInFull(s, m, slm, Both(), [true, false]);
    RetiresNow(s, [true, false], CGone());
  }

  /** Taking a off leaves the expanded entry for c alone: the entry that is looked for is the one that
      was queued. */
  lemma TakesOutNothing()
    ensures var sl := [Wanted(Id("c"), Both()), Wanted(Id("a"), ["a/p"])];
            TakenOut(Needs(A(NEW).a), ["c"], sl) == sl
  {
    hide Both;
    hide Needs;
    hide Sel.Without;
    var c, a := Wanted(Id("c"), Both()), Wanted(Id("a"), ["a/p"]);
    NeedsOfA(NEW);
    assert |Both()| != |["c/p"]|;
    assert !Names(c, Id("c"), ["c/p"]) && !Names(a, Id("c"), ["c/p"]);
    WithoutNone([c, a], Id("c"), ["c/p"]);
    hide Names;
    hide A;
    assert ["c"][..0] == [] && TakenOut(Needs(A(NEW).a), [], [c, a]) == [c, a];
  }

  lemma LeavesA()
    ensures UnselectsProject(SeesA(NEW), [Wanted(Id("c"), Both())], Begun().view,
                             [Wanted(Id("c"), Both()), Wanted(Id("a"), ["a/p"])])
  {
    hide Stale;
    hide EnvOf;
    hide Quiet;
    hide UnselectsProject;
    hide EdgesOf;
    hide Needs;
    hide TakenOut;
    hide Root;
    hide AtRoot;
    hide Both;
    hide OneEach;
    hide AllEasy;
    hide Elements;
    var c, a := Wanted(Id("c"), Both()), Wanted(Id("a"), ["a/p"]);
    ItIs();
    EnvIs(Stale());
    hide ImportsA;
    ImportsOfA(NEW);
    DependersAre(NEW);
    OrderIs();
    TakesOutNothing();
    assert [Root()] + [A(NEW)] == [Root(), A(NEW)];
    assert A(NEW).first && Wanted(A(NEW).a.a.id, A(NEW).a.pl) == a;
    assert multiset([c, a]) == multiset([c]) + multiset{a};
    hide A;
    UnselectsIs(EnvOf(Stale()), [Root()], AtRoot(), A(NEW), Needs(A(NEW).a), ["c"], [c], [c, a]);
  }

  lemma SelectsOlder()
    ensures Selects(Begun().view, [Wanted(Id("c"), Both()), Wanted(Id("a"), ["a/p"])], A(OLD).a, false, SeesA(OLD),
                    [Wanted(Id("c"), Both())])
  {
    hide Both;
    hide Sel.Without;
    hide Selects;
    hide AllWanted;
    hide Needs;
    hide SeesA;
    hide Begun;
    var c, a := Wanted(Id("c"), Both()), Wanted(Id("a"), ["a/p"]);
    assert !Names(c, Id("a"), ["a/p"]);
    WithoutLater(c, [a], Id("a"), ["a/p"]);
    WithoutFirst(a, []);
    assert [a] + [] == [a] && [c] + [a] == [c, a] && [c] + [] == [c];
    AddsC(OLD);
    assert multiset([c]) == multiset([c]) + multiset({});
    SelectsA(OLD, [c], [c, a], [c]);
  }

  lemma ATaken()
    ensures var s, m := CGone(), Begun().view;
            |m.projects| < |s.view.projects| && TakenPackages(s, m) == ["a/p"]
  {
    hide EnvOf;
    hide Stale;
    hide Both;
  }

  lemma ResumesA()
    ensures Next(CGone(), AtA(OLD, [OLD], Both()))
  {
    hide Next;
    hide UnselectsProject;
    hide Selects;
    hide View.Passing;
    hide SeesA;
    hide Begun;
    hide Both;
    var sl := [Wanted(Id("c"), Both()), Wanted(Id("a"), ["a/p"])];
    LeavesA();
    SelectsOlder();
    PassesA(OLD);
    assert A(OLD).a == AtomWithPackages(Atom(Id("a"), OLD), ["a/p"]);
    ATaken();
    hide A;
    GoesOn(CGone(), Begun().view, sl, ["a/p"], OLD, AtA(OLD, [OLD], Both()));
  }

  /** c is tried once more, from the stale entry, and nobody depends on it. */
  lemma DiesAtC()
    ensures Dies(AtD(OLD, [OLD]), NoDepender)
  {
    hide Both;
    hide UnselectsProject;
    hide Search;
    hide NoneAccepted;
    hide SeesA;
    hide SeesC;
    var s, m, slm := AtD(OLD, [OLD]), SeesA(OLD), [Wanted(Id("c"), Both())];
    LeavesC(OLD);
    OldRefused(OLD, None, [false, true]);
    assert Retreats(s, m, slm) && Later(s) == [OLD] && TopId(s) == Id("c");
    CTaken(OLD);
    hide Retreats;
    assert Blameless(s, m, slm);
    hide Blameless;
  }

  // ---------------------------------------------------------------- the theorem

  /** The world has a solution: the older version of a needs nothing. */
  lemma HasSolution()
    ensures WellStacked(EnvOf(Stale()), [Root(), A(OLD)]) && Complete(EnvOf(Stale()), [Root(), A(OLD)])
    ensures SoundSolution(Stale(), Solution([Root(), A(OLD)], 2))
  {
    hide Stale;
    hide EnvOf;
    hide StacksOn;
    hide Complete;
    hide WellBehaved;
    hide Lossless;
    hide RootDeps;
    var env, projects := EnvOf(Stale()), [Root(), A(OLD)];
    ItIs();
    EnvIs(Stale());
    hide ImportsA;
    hide Quiet;
    OlderStacks();
    assert projects[..1] == [Root()];
    hide A;
    assert WellStacked(env, projects);
    hide WellStacked;
    OlderComplete();
    RootNeeds(Stale());
    IsWellBehaved();
    hide SoundSolution;
    CompleteIsSound(Stale(), projects);
  }

  lemma OlderStacks()
    ensures StacksOn(EnvOf(Stale()), [Root()], A(OLD))
  {
    ItIs();
    EnvIs(Stale());
    ImportsOfA(OLD);
    BasesAre(OLD);
    assert ("a", "a/p") in Stale().universe;
    RootOfPackage(Stale(), "a", "a/p");
    assert A(OLD).a.(pl := ["a/p"]) == A(OLD).a && Distinct(A(OLD).a.pl);
    hide Stale;
    hide EnvOf;
    hide ImportsA;
    hide Quiet;
    hide Imports;
    hide Needs;
    hide Base;
    hide Roots;
  }

  lemma OlderComplete()
    ensures Complete(EnvOf(Stale()), [Root(), A(OLD)])
  {
    hide Stale;
    hide EnvOf;
    hide Quiet;
    hide World.HasPackage;
    hide Base;
    hide EdgesOf;
    hide Needs;
    var env, projects := EnvOf(Stale()), [Root(), A(OLD)];
    var a := A(OLD);
    ItIs();
    EnvIs(Stale());
    EdgesOfRoot(Stale());
    hide ImportsA;
    ImportsOfA(OLD);
    NeedsOfA(OLD);
    PackagesAre(OLD);
    BasesAre(OLD);
    assert a in projects && a.a.a == Atom(Id("a"), OLD) && "a/p" in a.a.pl;
    assert AmongSelected(projects, "a", "a/p");
    hide AmongSelected;
    hide A;
    assert Fits(Stale(), Open(Id("a"), "a/p"), a.a.a);
    hide Fits;
    forall s <- projects, r | r in EdgesOf(env, s.a)
      ensures r == "a" && EdgesOf(env, s.a)[r] == Open(Id("a"), "a/p")
    {
    }
  }

  lemma IsChain()
    ensures IsPath(StaleRun())
  {
    hide Next;
    hide Both;
    hide Begun;
    hide AtA;
    hide AtC;
    hide AtD;
    hide CGone;
    TakesA();
    TakesC(NEW, [NEW, OLD]);
    FailsAtD(NEW, [NEW, OLD]);
    RetiresC();
    ResumesA();
    TakesC(OLD, [OLD]);
    FailsAtD(OLD, [OLD]);
  }

  /** The world is well behaved, it has a solution, and a run of the solver dies in it: the chain
      starts at the root, each state is one turn away from the one before, and in the last the
      first entry of an empty list of dependencies is looked up. */
  lemma RunDies()
    ensures WellBehaved(Stale()) && Lossless(Stale())
    ensures Complete(EnvOf(Stale()), [Root(), A(OLD)]) && SoundSolution(Stale(), Solution([Root(), A(OLD)], 2))
    ensures IsRun(EnvOf(Stale()), StaleRun()) && |StaleRun()| == 8
    ensures Dies(Last(StaleRun()), NoDepender)
  {
    hide WellBehaved;
    hide Lossless;
    hide Complete;
    hide SoundSolution;
    hide Solution;
    hide Starts;
    hide IsPath;
    hide Dies;
    hide Stale;
    hide EnvOf;
    IsWellBehaved();
    HasSolution();
    ItIs();
    ItStarts(Stale());
    IsChain();
    DiesAtC();
    hide AtA;
    hide AtC;
    hide AtD;
    hide CGone;
    hide Begun;
  }
}
