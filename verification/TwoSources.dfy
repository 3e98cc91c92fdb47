/** A world in which a finished run selects one project from two sources. The root imports project a;
    its newer version imports projects c and e, its older one project c from a fork. Project e lacks
    the package that is wanted. When a is taken back, the expanded entry for c stays in the queue; it
    is taken up although nobody depends on c from there any more. */
module TwoSources {
  import opened Wrappers
  import opened Strings
  import opened Versions
  import opened Bridge
  import opened ImportGroups
  import opened Requirements
  import opened VersionQueues
  import Sel = Selection
  import opened Selection
  import opened SolverInvariant
  import opened SolverSteps
  import opened SolverViews
  import opened SolverRuns
  import opened Soundness
  import opened SmallWorlds
  import opened Sources

  // ---------------------------------------------------------------- the world

  const FORK := ProjectIdentifier("c", "fork")

  function Listed(r: ProjectRoot): seq<Version> {
    if r == "a" then [NEW, OLD] else [NEW]
  }

  function Tree(a: Atom): PackageTree {
    if a.id.root == "a" then map["a/p" := true]
    else if a.id.root == "c" then map["c/p" := true, "c/q" := true]
    else map[]
  }

  function Reach(a: Atom): ReachMap {
    if a.id.root == "a" then map["a/p" := Reached([], if a.v == NEW then ["c/p", "e/p"] else ["c/p"])]
    else if a.id.root == "c" then map["c/p" := Reached(["c/q"], []), "c/q" := Reached([], [])]
    else map[]
  }

  /** The older version of a wants c from a fork. */
  function Manifest(a: Atom): map<ProjectRoot, Properties> {
    if a.id.root == "a" && a.v != NEW then map["c" := Properties("fork", Any)] else map[]
  }

  function Owner(p: string): Option<ProjectRoot> {
    if p == "a/p" then Some("a") else if p == "c/p" then Some("c") else if p == "e/p" then Some("e") else None
  }

  function Forked(): World {
    SmallWorld(["a/p"], r => Listed(r), a => Manifest(a), a => Tree(a), a => Reach(a), p => Owner(p),
               {("a", "a/p"), ("c", "c/p"), ("e", "e/p")})
  }

  /** The imports that the packages of an atom have outside its project, in order. */
  function Outside(a: AtomWithPackages): seq<string> {
    if a.a.id.root != "a" || "a/p" !in a.pl then [] else if a.a.v == NEW then ["c/p", "e/p"] else ["c/p"]
  }

  function Known(a: Atom): map<ProjectRoot, WorkingConstraint> {
    if a.id.root == "a" && a.v != NEW then map["c" := Open(FORK, "c/p").wc] else map[]
  }

  /** The dependencies of an atom. */
  function Needs(a: AtomWithPackages): map<ProjectRoot, CompleteDep> {
    if a.a.id.root != "a" || "a/p" !in a.pl then map[]
    else if a.a.v == NEW then map["c" := Open(Id("c"), "c/p"), "e" := Open(Id("e"), "e/p")]
    else map["c" := Open(FORK, "c/p")]
  }

  lemma SortedAre()
    ensures SortedSeq({}) == [] && SortedSeq({"c/p"}) == ["c/p"] && SortedSeq({"c/p", "e/p"}) == ["c/p", "e/p"]
  {
    var one, two := SortedSeq({"c/p"}), SortedSeq({"c/p", "e/p"});
    ElementsOfDistinct(one);
    ElementsOfDistinct(two);
    assert |{"c/p", "e/p"}| == 2;
    assert "c/p" in Elements(one) && "c/p" in Elements(two) && "e/p" in Elements(two);
    assert !Leq("e/p", "c/p");
    hide SortedSeq;
  }

  lemma Reaches(a: AtomWithPackages)
    ensures OutsideSet(Forked(), a) == Elements(Outside(a)) && SortedSeq(OutsideSet(Forked(), a)) == Outside(a)
    ensures KnownTo(Forked(), a.a) == Known(a.a)
  {
    SortedAre();
    hide SortedSeq;
    if a.a.id.root == "a" && "a/p" in a.pl {
      forall p <- Outside(a) ensures p in OutsideSet(Forked(), a) {
        assert "a/p" in a.pl && "a/p" in Reach(a.a) && p in Reach(a.a)["a/p"].outside;
      }
    }
    assert Elements(Outside(a)) == if Outside(a) == [] then {} else if a.a.v == NEW then {"c/p", "e/p"} else {"c/p"};
  }

  lemma MatchesAre(p: string)
    ensures Match({}, p) == None && Match({"c"}, "e/p") == None && Match({"c"}, "c/p") == Some("c")
  {
    var lp := LongestPrefix({"c"}, "c/p");
    assert "c" in {"c"} && "c/p"[..1] == "c" && "c" <= "c/p";
    assert lp == Some("c") && "c/p"[1] == '/';
    assert Match({}, p) == None;
    assert "c"[0] != "e/p"[0] && Match({"c"}, "e/p") == None;
  }

  lemma DeducesAre()
    ensures var w := Forked();
            && w.overrides == map[] && (forall p :: !w.stdlib(p))
            && w.deduce("a/p") == Some("a") && w.deduce("c/p") == Some("c") && w.deduce("e/p") == Some("e")
  {
  }

  lemma GroupsTwo()
    ensures var g := Group(Forked(), map[], ["c/p", "e/p"]);
            && g.Some? && g.value.deps == map["c" := Open(Id("c"), "c/p"), "e" := Open(Id("e"), "e/p")]
            && !Overwrites(Forked(), map[], ["c/p", "e/p"])
  {
    hide Forked;
    hide Group;
    hide Overwrites;
    hide Match;
    var w, c, e := Forked(), Open(Id("c"), "c/p"), Open(Id("e"), "e/p");
    MatchesAre("c/p");
    DeducesAre();
    NothingToGroup(w, map[]);
    GroupsNew(w, map[], [], Grouping(map[], map[]), "c/p", "c");
    assert [] + ["c/p"] == ["c/p"] && ["c/p"] + ["e/p"] == ["c/p", "e/p"];
    assert map["c" := c.wc].Keys == {"c"};
    GroupsNew(w, map[], ["c/p"], Grouping(map["c" := c.wc], map["c" := c]), "e/p", "e");
  }

  lemma GroupsFork()
    ensures var known := map["c" := Open(FORK, "c/p").wc];
            var g := Group(Forked(), known, ["c/p"]);
            && g.Some? && g.value.deps == map["c" := Open(FORK, "c/p")] && !Overwrites(Forked(), known, ["c/p"])
  {
    hide Forked;
    hide Group;
    hide Overwrites;
    hide Match;
    var w, known := Forked(), map["c" := Open(FORK, "c/p").wc];
    MatchesAre("c/p");
    DeducesAre();
    NothingToGroup(w, known);
    assert [] + ["c/p"] == ["c/p"] && known.Keys == {"c"};
    GroupsKnown(w, known, [], Grouping(known, map[]), "c/p", "c");
  }

  lemma GroupsNeeds(a: AtomWithPackages)
    ensures var g := Group(Forked(), Known(a.a), Outside(a));
            g.Some? && g.value.deps == Needs(a) && !Overwrites(Forked(), Known(a.a), Outside(a))
  {
    GroupsTwo();
    GroupsFork();
    NothingToGroup(Forked(), Known(a.a));
    hide Forked;
    hide Group;
    hide Overwrites;
  }

  /** The dependencies of an atom whose packages are all there. */
  lemma ImportsOf(a: AtomWithPackages)
    ensures Imports(Forked(), a).Some? <==> forall p <- a.pl :: p in Reach(a.a)
    ensures Imports(Forked(), a).Some? ==>
              Imports(Forked(), a).value == Requirement(Expanded(Forked(), a), Needs(a))
  {
    Reaches(a);
    GroupsNeeds(a);
    hide SortedSeq;
    hide OutsideSet;
    hide Group;
    hide Overwrites;
    hide Expanded;
    hide Needs;
    hide Known;
    hide Outside;
  }

  // ---------------------------------------------------------------- it is well behaved

  lemma IsPlain()
    ensures var w := Forked();
            ReachClosed(w) && OutsideIsForeign(w) && DeductionIsAncestral(w) && ConstraintsProper(w)
  {
    var w := Forked();
    forall ip | Owner(ip).Some? ensures PathPrefix(Owner(ip).value, ip) { assert ip[..1] == Owner(ip).value; }
    forall a, p ensures ClosedAt(w, a, p) {
    }
    forall a, p, ex | p in Reach(a) && ex in Reach(a)[p].outside ensures !PathPrefix(a.id.root, ex) {
      assert a.id.root[0] != ex[0];
    }
  }

  lemma VersionsAre()
    ensures forall id :: Forked().versions(id) == Some(Listed(id.root))
    ensures VersionsBounded(Forked())
  {
    assert forall id :: Forked().versions(id) == Some(Listed(id.root));
    assert Forked().maxVersions == 2;
    hide Forked;
  }

  lemma NeedsFit(a: AtomWithPackages)
    ensures InUniverse(Forked(), Needs(a)) && FoldDistinct(Forked(), Needs(a))
    ensures InUniverse(Forked(), ROOT_NEEDS) && FoldDistinct(Forked(), ROOT_NEEDS)
  {
  }

  lemma IsBounded()
    ensures Bounded(Forked())
  {
    VersionsAre();
    hide Forked;
    hide InUniverse;
    hide FoldDistinct;
    hide VersionsBounded;
    hide Imports;
    hide RootDeps;
    hide Needs;
    ItIs();
    RootNeeds(Forked());
    NeedsFit(Forked().RootAtom());
    forall a | Imports(Forked(), a).Some?
      ensures InUniverse(Forked(), Imports(Forked(), a).value.deps)
      ensures FoldDistinct(Forked(), Imports(Forked(), a).value.deps)
    {
      NeedsFit(a);
      ImportsOf(a);
    }
  }

  lemma IsLossless()
    ensures Lossless(Forked())
  {
    hide Forked;
    hide Imports;
    hide OutsideSet;
    hide Overwrites;
    hide KnownTo;
    hide SortedSeq;
    hide Known;
    hide Outside;
    ItIs();
    RootNeeds(Forked());
    forall a: AtomWithPackages
      ensures !Overwrites(Forked(), KnownTo(Forked(), a.a), SortedSeq(OutsideSet(Forked(), a)))
    {
      Reaches(a);
      GroupsNeeds(a);
    }
  }

  lemma IsWellBehaved()
    ensures WellBehaved(Forked()) && Lossless(Forked())
  {
    IsPlain();
    IsBounded();
    IsLossless();
    assert Forked().rootImports == ["a/p"];
    hide Forked;
    hide Lossless;
    hide ReachClosed;
    hide OutsideIsForeign;
    hide DeductionIsAncestral;
    hide ConstraintsProper;
    hide Bounded;
  }

  // ---------------------------------------------------------------- atoms and views

  lemma ItIs()
    ensures ImportsA(Forked())
  {
  }

  lemma PackagesAre(a: Atom)
    requires a.id.root != "r"
    ensures var w := Forked();
            && w.ListPackages(a).Some?
            && (a.id.root == "a" ==> w.HasPackage(a, "a/p")) && (a.id.root == "c" ==> w.HasPackage(a, "c/p"))
            && !w.HasPackage(a, "e/p")
  {
  }

  /** More packages of c, as the fork has it. */
  function F(): Selected {
    Selected(At(FORK, NEW, Both()), false)
  }

  function WithA(v: Version): Dependers {
    After(AtRoot(), A(v).a.a, Needs(A(v).a))
  }

  lemma NeedsOfA(v: Version)
    ensures Needs(A(v).a) ==
            if v == NEW then map["c" := Open(Id("c"), "c/p"), "e" := Open(Id("e"), "e/p")]
            else map["c" := Open(FORK, "c/p")]
  {
    assert "a/p" in A(v).a.pl;
  }

  /** Who is depended on when a is selected. */
  lemma DependersAre(v: Version)
    ensures OneEach(AtRoot()) && OneEach(WithA(v)) && AtRoot().Keys == {"a"}
    ensures WithA(v).Keys == (if v == NEW then {"a", "c", "e"} else {"a", "c"})
    ensures WithA(v)["c"] == Dependency(A(v).a.a, Open(if v == NEW then Id("c") else FORK, "c/p"))
    ensures v == NEW ==> WithA(v)["e"] == Dependency(A(v).a.a, Open(Id("e"), "e/p"))
    ensures WithA(v)["a"] == AtRoot()["a"] && Needs(A(v).a).Keys !! AtRoot().Keys && AllEasy(Needs(A(v).a))
  {
    NeedsOfA(v);
    hide Needs;
  }

  lemma ExpandedA(v: Version)
    ensures Expanded(Forked(), A(v).a) == ["a/p"] && forall p <- A(v).a.pl :: p in Reach(A(v).a.a)
  {
    var a := A(v).a;
    assert "a/p" in a.pl;
    assert InsideSet(Forked(), a) == {"a/p"};
    hide InsideSet;
  }

  lemma ImportsOfA(v: Version)
    ensures EnvOf(Forked()).imports(A(v).a) == Some(Requirement(["a/p"], Needs(A(v).a)))
    ensures EdgesOf(EnvOf(Forked()), A(v).a) == Needs(A(v).a)
  {
    hide Forked;
    hide EnvOf;
    hide Expanded;
    hide Imports;
    hide Reach;
    hide EdgesOf;
    ExpandedA(v);
    NeedsOfA(v);
    hide Needs;
    assert A(v).a.a.id.root == "a";
    ImportsOf(A(v).a);
    hide A;
    ItIs();
    EdgesAre(Forked(), A(v).a, Requirement(["a/p"], Needs(A(v).a)));
  }

  lemma InsideC(a: AtomWithPackages)
    requires a.a.id.root == "c" && "c/p" in a.pl && forall p <- a.pl :: p == "c/p" || p == "c/q"
    ensures InsideSet(Forked(), a) == {"c/p", "c/q"}
    ensures forall p <- a.pl :: p in Reach(a.a)
  {
    assert "c/p" in Reach(a.a) && "c/q" in Reach(a.a)["c/p"].inside;
  }

  lemma ExpandedC(id: ProjectIdentifier, pl: seq<string>)
    requires id.root == "c" && (pl == ["c/p"] || pl == Both())
    ensures Expanded(Forked(), At(id, NEW, pl)) == Both()
    ensures forall p <- pl :: p in Reach(Atom(id, NEW))
  {
    BothMembers();
    assert "c/p" in pl;
    hide Forked;
    hide Reach;
    hide Both;
    InsideC(At(id, NEW, pl));
    BothHasTwo();
    hide InsideSet;
  }

  /** c imports nothing from elsewhere, from either source. */
  lemma ImportsOfC(id: ProjectIdentifier, pl: seq<string>)
    requires id.root == "c" && (pl == ["c/p"] || pl == Both())
    ensures EnvOf(Forked()).imports(At(id, NEW, pl)) == Some(Requirement(Both(), map[]))
    ensures EdgesOf(EnvOf(Forked()), At(id, NEW, pl)) == map[]
  {
    hide Forked;
    hide EnvOf;
    hide Expanded;
    hide Imports;
    hide Both;
    hide Reach;
    hide EdgesOf;
    ExpandedC(id, pl);
    ImportsOf(At(id, NEW, pl));
    ItIs();
    EdgesAre(Forked(), At(id, NEW, pl), Requirement(Both(), map[]));
  }

  lemma BasesAre(v: Version)
    ensures Base([Root()], "a") == None && Base([Root()], "c") == None && Base([Root()], "e") == None
    ensures Base([Root(), A(v)], "c") == None && Base([Root(), A(v), C()], "e") == None
    ensures Base([Root(), A(v), C()], "c") == Some(C().a)
  {
    hide FirstIndex;
    var two, three := [Root(), A(v)], [Root(), A(v), C()];
    assert three[0].a.a.id.root == "r" && three[1].a.a.id.root == "a" && three[2].a.a.id.root == "c";
    assert two[0].a.a.id.root == "r" && two[1].a.a.id.root == "a";
    var n := FirstIndex(three, "c");
  }

  // ---------------------------------------------------------------- the run

  /** The newer version of a is selected: c and e are wanted. */
  ghost function Newer(): State {
    State(Choosing, Seen(EnvOf(Forked()), [Root(), A(NEW)], WithA(NEW)),
          [Wanted(Id("c"), ["c/p"]), Wanted(Id("e"), ["e/p"])], [Id("a")], [[NEW, OLD]], [false])
  }

  /** So is c. */
  ghost function NewerC(): State {
    State(Choosing, Seen(EnvOf(Forked()), [Root(), A(NEW), C()], WithA(NEW)),
          [Wanted(Id("e"), ["e/p"])], [Id("a"), Id("c")], [[NEW, OLD], [NEW]], [false, false])
  }

  /** e could not be selected, and a is blamed. */
  ghost function Blaming(): State {
    NewerC().(mode := Failing, flags := [true, false])
  }

  /** c was taken back: the entry for it is the expanded one. */
  ghost function TakenBack(): State {
    State(Failing, Seen(EnvOf(Forked()), [Root(), A(NEW)], WithA(NEW)),
          [Wanted(Id("e"), ["e/p"]), Wanted(Id("c"), Both())], [Id("a")], [[NEW, OLD]], [true])
  }

  /** The older version of a is selected: c is wanted from the fork, and the entry is still there. */
  ghost function Older(): State {
    State(Choosing, Seen(EnvOf(Forked()), [Root(), A(OLD)], WithA(OLD)),
          [Wanted(Id("c"), Both()), Wanted(FORK, ["c/p"])], [Id("a")], [[OLD]], [false])
  }

  ghost function OlderC(): State {
    State(Choosing, Seen(EnvOf(Forked()), [Root(), A(OLD), C()], WithA(OLD)),
          [Wanted(FORK, ["c/p"])], [Id("a"), Id("c")], [[OLD], [NEW]], [false, false])
  }

  /** c is selected from both sources, and nothing is left to do. */
  ghost function Finished(): State {
    State(Choosing, Seen(EnvOf(Forked()), [Root(), A(OLD), C(), F()], WithA(OLD)), [], [Id("a"), Id("c")],
          [[OLD], [NEW]], [false, false])
  }

  ghost function ForkedRun(): seq<State> {
    [Start(EnvOf(Forked())), Newer(), NewerC(), Blaming(), TakenBack(), Older(), OlderC(), Finished()]
  }

  lemma NewToA(v: Version)
    ensures forall r <- Needs(A(v).a) :: r !in AtRoot() && Base([Root()], r) == None
    ensures AtRoot()["a"].dep.pl == ["a/p"] && AllEasy(Needs(A(v).a))
  {
    BasesAre(v);
    DependersAre(v);
    NeedsOfA(v);
    hide Base;
    hide Root;
    hide A;
    hide Needs;
  }

  lemma PassesA(v: Version)
    ensures Seen(EnvOf(Forked()), [Root()], AtRoot()).Passing(A(v).a, false)
  {
    hide Forked;
    hide EnvOf;
    hide Needs;
    hide Base;
    hide Quiet;
    hide View.Passing;
    hide World.HasPackage;
    hide World.ListPackages;
    hide Root;
    ItIs();
    EnvIs(Forked());
    ImportsOfA(v);
    DependersAre(v);
    NewToA(v);
    assert A(v).a.a.id.root == "a";
    PackagesAre(A(v).a.a);
    hide A;
    hide OneEach;
    hide AllEasy;
    hide AtRoot;
    PassesIf(EnvOf(Forked()), [Root()], AtRoot(), A(v).a, false);
  }

  lemma SelectsA()
    ensures Selects(Start(EnvOf(Forked())).view, Start(EnvOf(Forked())).sl, A(NEW).a, false, Newer().view, Newer().sl)
  {
    hide Forked;
    hide EnvOf;
    hide Quiet;
    hide Selects;
    hide Needs;
    hide EdgesOf;
    hide AllWanted;
    hide Sel.Without;
    var e := Bimodal(Id("a"), ["a/p"], None, true);
    ItIs();
    EnvIs(Forked());
    DependersAre(NEW);
    NeedsOfA(NEW);
    ImportsOfA(NEW);
    WithoutFirst(e, []);
    assert [e] + [] == [e];
    AllWantedAre("c", Open(Id("c"), "c/p"), "e", Open(Id("e"), "e/p"));
    assert [Root()] + [A(NEW)] == [Root(), A(NEW)];
    assert A(NEW).a.(pl := ["a/p"]) == A(NEW).a;
    assert A(NEW).first && A(NEW).a.a.id == Id("a") && A(NEW).a.pl == ["a/p"];
    hide A;
    hide Root;
    hide AtRoot;
    hide OneEach;
    hide AllEasy;
    hide WithA;
    assert multiset(Newer().sl) == multiset([]) + multiset(AllWanted(Needs(A(NEW).a)));
    SelectsIs(EnvOf(Forked()), [Root()], AtRoot(), A(NEW), ["a/p"], Needs(A(NEW).a), [e], Newer().sl);
  }

  lemma ReadyA()
    ensures Ready(EnvOf(Forked()), [Root()], AtRoot(), Bimodal(Id("a"), ["a/p"], None, true), [NEW, OLD])
  {
    hide Forked;
    hide EnvOf;
    hide Quiet;
    hide Base;
    hide View.Passing;
    hide OneEach;
    hide Seen;
    ItIs();
    EnvIs(Forked());
    VersionsAre();
    DependersAre(NEW);
    BasesAre(NEW);
    PassesA(NEW);
    assert A(NEW).a == AtomWithPackages(Atom(Id("a"), NEW), ["a/p"]);
    assert AtRoot()["a"].depender.id.root == "r";
    hide AtRoot;
    hide A;
    hide Root;
  }

  lemma TakesA()
    ensures Next(Start(EnvOf(Forked())), Newer())
  {
    hide Selects;
    hide Next;
    hide Ready;
    hide Seen;
    hide EnvOf;
    hide AtRoot;
    hide WithA;
    hide Root;
    ReadyA();
    SelectsA();
    assert A(NEW).a == AtomWithPackages(Atom(Id("a"), NEW), ["a/p"]);
    hide A;
    TakesNew(EnvOf(Forked()), [Root()], AtRoot(), Bimodal(Id("a"), ["a/p"], None, true), [NEW, OLD],
             Start(EnvOf(Forked())), Newer());
  }

  // ---------------------------------------------------------------- c, from either entry

  lemma PassesC(v: Version, pl: seq<string>)
    requires pl == ["c/p"] || pl == Both()
    ensures Seen(EnvOf(Forked()), [Root(), A(v)], WithA(v)).Passing(At(Id("c"), NEW, pl), false)
  {
    hide Forked;
    hide EnvOf;
    hide Base;
    hide Quiet;
    hide View.Passing;
    hide World.HasPackage;
    hide World.ListPackages;
    hide Both;
    hide OneEach;
    hide AllEasy;
    hide EdgesOf;
    hide Root;
    hide A;
    hide WithA;
    ItIs();
    EnvIs(Forked());
    ImportsOfC(Id("c"), pl);
    DependersAre(v);
    PackagesAre(At(Id("c"), NEW, pl).a);
    NothingIsEasy();
    PassesIf(EnvOf(Forked()), [Root(), A(v)], WithA(v), At(Id("c"), NEW, pl), false);
  }

  ghost function SeesA(v: Version): View {
    Seen(EnvOf(Forked()), [Root(), A(v)], WithA(v))
  }

  ghost function SeesC(v: Version): View {
    Seen(EnvOf(Forked()), [Root(), A(v), C()], WithA(v))
  }

  lemma SelectsC(v: Version, pl: seq<string>, rest: seq<Bimodal>)
    requires pl == ["c/p"] || pl == Both()
    ensures Selects(SeesA(v), [Wanted(Id("c"), pl)] + rest, At(Id("c"), NEW, pl), false, SeesC(v), rest)
  {
    hide Forked;
    hide EnvOf;
    hide Quiet;
    hide Selects;
    hide Both;
    hide EdgesOf;
    hide AllWanted;
    hide Sel.Without;
    hide AllEasy;
    hide Root;
    hide A;
    hide WithA;
    var sl := [Wanted(Id("c"), pl)] + rest;
    ItIs();
    EnvIs(Forked());
    ImportsOfC(Id("c"), pl);
    ImportsOfC(Id("c"), Both());
    WithoutFirst(Wanted(Id("c"), pl), rest);
    AllWantedAre("c", Open(Id("c"), "c/p"), "e", Open(Id("e"), "e/p"));
    NothingIsEasy();
    NothingAfter(WithA(v), C().a.a);
    assert [Root(), A(v)] + [C()] == [Root(), A(v), C()];
    hide After;
    SelectsIs(EnvOf(Forked()), [Root(), A(v)], WithA(v), C(), pl, map[], sl, rest);
  }

  lemma ReadyC(v: Version, pl: seq<string>)
    requires pl == ["c/p"] || pl == Both()
    ensures Ready(EnvOf(Forked()), [Root(), A(v)], WithA(v), Wanted(Id("c"), pl), [NEW])
  {
    hide Forked;
    hide EnvOf;
    hide Quiet;
    hide Base;
    hide View.Passing;
    hide OneEach;
    hide Seen;
    hide Both;
    hide A;
    hide Root;
    hide WithA;
    ItIs();
    EnvIs(Forked());
    VersionsAre();
    DependersAre(v);
    BasesAre(v);
    PassesC(v, pl);
  }

  lemma TakesC()
    ensures Next(Newer(), NewerC()) && Next(Older(), OlderC())
  {
    hide Selects;
    hide Next;
    hide Ready;
    hide Seen;
    hide EnvOf;
    hide WithA;
    hide A;
    hide Root;
    hide Both;
    var e, f := Wanted(Id("e"), ["e/p"]), Wanted(FORK, ["c/p"]);
    ReadyC(NEW, ["c/p"]);
    SelectsC(NEW, ["c/p"], [e]);
    assert [Wanted(Id("c"), ["c/p"])] + [e] == Newer().sl;
    TakesNew(EnvOf(Forked()), [Root(), A(NEW)], WithA(NEW), Wanted(Id("c"), ["c/p"]), [NEW], Newer(), NewerC());
    ReadyC(OLD, Both());
    SelectsC(OLD, Both(), [f]);
    assert [Wanted(Id("c"), Both())] + [f] == Older().sl;
    TakesNew(EnvOf(Forked()), [Root(), A(OLD)], WithA(OLD), Wanted(Id("c"), Both()), [NEW], Older(), OlderC());
  }

  // ---------------------------------------------------------------- e fails, and a is taken back

  lemma LacksE()
    ensures Lacking(EnvOf(Forked()), [Root(), A(NEW), C()], WithA(NEW), Wanted(Id("e"), ["e/p"]), NEW, "e/p")
    ensures WithA(NEW)["e"].depender.id == Id("a")
  {
    hide Forked;
    hide EnvOf;
    hide Quiet;
    hide Base;
    hide OneEach;
    hide Both;
    hide C;
    hide Root;
    hide WithA;
    hide World.HasPackage;
    ItIs();
    EnvIs(Forked());
    VersionsAre();
    DependersAre(NEW);
    BasesAre(NEW);
    PackagesAre(Atom(Id("e"), NEW));
  }

  lemma MarksA()
    ensures Marked(Forked(), [Id("a"), Id("c")], [false, false], Id("a")) == [true, false]
  {
    ItIs();
    EnvIs(Forked());
    hide Forked;
    hide EnvOf;
    hide Quiet;
    hide IdIndex;
    var ids := [Id("a"), Id("c")];
    assert ids[0].Eq(Id("a"));
    assert IdIndex(ids, Id("a")) == 0;
    assert !Forked().IsRoot("a");
  }

  lemma FailsAtE()
    ensures Next(NewerC(), Blaming())
  {
    hide Forked;
    hide EnvOf;
    hide Quiet;
    hide Next;
    hide Lacking;
    hide Marked;
    hide Seen;
    hide WithA;
    hide A;
    hide C;
    hide Root;
    ItIs();
    EnvIs(Forked());
    MarksA();
    LacksE();
    assert "e" in WithA(NEW) by { DependersAre(NEW); }
    FindsLacking(EnvOf(Forked()), [Root(), A(NEW), C()], WithA(NEW), Wanted(Id("e"), ["e/p"]), NEW, "e/p", NewerC(),
                 Blaming());
  }

  /** Taking c off puts its expanded entry in the queue. */
  lemma LeavesC()
    ensures UnselectsProject(SeesC(NEW), Blaming().sl, SeesA(NEW), TakenBack().sl)
  {
    hide Forked;
    hide EnvOf;
    hide Quiet;
    hide UnselectsProject;
    hide EdgesOf;
    hide Both;
    hide Root;
    hide A;
    hide WithA;
    ItIs();
    EnvIs(Forked());
    ImportsOfC(Id("c"), Both());
    NothingAfter(WithA(NEW), C().a.a);
    assert [Root(), A(NEW)] + [C()] == [Root(), A(NEW), C()];
    var sl, pushed := Blaming().sl, TakenBack().sl;
    var none: map<ProjectRoot, CompleteDep>, order: seq<ProjectRoot> := map[], [];
    assert Elements(order) == none.Keys;
    assert multiset(pushed) == multiset(sl) + multiset{Wanted(Id("c"), Both())};
    hide After;
    UnselectsIs(EnvOf(Forked()), [Root(), A(NEW)], WithA(NEW), C(), none, order, sl, pushed);
  }

  lemma PopsC()
    ensures Next(Blaming(), TakenBack())
  {
    hide Next;
    hide UnselectsProject;
    hide EnvOf;
    hide Seen;
    hide Both;
    hide Root;
    hide A;
    hide WithA;
    LeavesC();
    PopsNow(Blaming(), TakenBack());
  }

  /** The queue once a is taken off: the entry that is looked for is the one that was queued, and the
      expanded one stays. */
  function LeftOver(): seq<Bimodal> {
    [Wanted(Id("c"), Both()), Wanted(Id("a"), ["a/p"])]
  }

  lemma TakesOutE()
    ensures TakenOut(Needs(A(NEW).a), ["c", "e"], [Wanted(Id("e"), ["e/p"])] + LeftOver()) == LeftOver()
  {
    hide Both;
    hide Needs;
    hide Sel.Without;
    var e, c, a := Wanted(Id("e"), ["e/p"]), Wanted(Id("c"), Both()), Wanted(Id("a"), ["a/p"]);
    var needs, pushed := Needs(A(NEW).a), [e] + LeftOver();
    NeedsOfA(NEW);
    assert |Both()| != |["c/p"]|;
    assert !Names(e, Id("c"), ["c/p"]) && !Names(c, Id("c"), ["c/p"]) && !Names(a, Id("c"), ["c/p"]);
    WithoutNone(pushed, Id("c"), ["c/p"]);
    WithoutFirst(e, LeftOver());
    hide Names;
    hide A;
    assert ["c", "e"][..1] == ["c"] && ["c"][..0] == [];
    assert TakenOut(needs, [], pushed) == pushed && TakenOut(needs, ["c"], pushed) == pushed;
  }

  lemma OrderIs()
    ensures Elements(["c", "e"]) == Needs(A(NEW).a).Keys && Distinct(["c", "e"])
  {
    NeedsOfA(NEW);
    hide A;
    hide Needs;
    var order := ["c", "e"];
    assert order[0] == "c" && order[1] == "e";
  }

  lemma PushedIs()
    ensures multiset([Wanted(Id("e"), ["e/p"])] + LeftOver()) ==
            multiset(TakenBack().sl) + multiset{Wanted(Id("a"), ["a/p"])}
    ensures A(NEW).first && Wanted(A(NEW).a.a.id, A(NEW).a.pl) == Wanted(Id("a"), ["a/p"])
  {
    hide Both;
    hide Seen;
    hide EnvOf;
    assert [Wanted(Id("e"), ["e/p"])] + LeftOver() == TakenBack().sl + [Wanted(Id("a"), ["a/p"])];
  }

  lemma LeavesA()
    ensures UnselectsProject(SeesA(NEW), TakenBack().sl, Start(EnvOf(Forked())).view, LeftOver())
  {
    hide Forked;
    hide EnvOf;
    hide UnselectsProject;
    hide EdgesOf;
    hide Both;
    hide Needs;
    hide TakenOut;
    hide A;
    hide Root;
    hide AtRoot;
    hide WithA;
    hide LeftOver;
    hide Wanted;
    hide Seen;
    hide Elements;
    hide OneEach;
    hide AllEasy;
    ImportsOfA(NEW);
    DependersAre(NEW);
    OrderIs();
    PushedIs();
    TakesOutE();
    UnselectsA(Needs(A(NEW).a), TakenBack().sl, [Wanted(Id("e"), ["e/p"])] + LeftOver());
  }

  lemma UnselectsA(needs: map<ProjectRoot, CompleteDep>, sl: seq<Bimodal>, pushed: seq<Bimodal>)
    requires needs == Needs(A(NEW).a) == EdgesOf(EnvOf(Forked()), A(NEW).a) && needs.Keys !! AtRoot().Keys
             && A(NEW).first
    requires Distinct(["c", "e"]) && Elements(["c", "e"]) == needs.Keys
    requires multiset(pushed) == multiset(sl) + multiset{Wanted(A(NEW).a.a.id, A(NEW).a.pl)}
    ensures UnselectsProject(SeesA(NEW), sl, Start(EnvOf(Forked())).view, TakenOut(needs, ["c", "e"], pushed))
  {
    hide Forked;
    hide EnvOf;
    hide Quiet;
    hide UnselectsProject;
    hide EdgesOf;
    hide Needs;
    hide TakenOut;
    hide A;
    hide Root;
    hide AtRoot;
    hide Wanted;
    ItIs();
    EnvIs(Forked());
    assert [Root()] + [A(NEW)] == [Root(), A(NEW)];
    UnselectsIs(EnvOf(Forked()), [Root()], AtRoot(), A(NEW), needs, ["c", "e"], sl, pushed);
  }

  /** Selecting the older version of a takes its entry and leaves the stale one. */
  lemma TakesOutA()
    ensures Sel.Without(LeftOver(), Id("a"), ["a/p"]) == [Wanted(Id("c"), Both())]
  {
    hide Both;
    hide Sel.Without;
    var c, a := Wanted(Id("c"), Both()), Wanted(Id("a"), ["a/p"]);
    assert !Names(c, Id("a"), ["a/p"]);
    WithoutLater(c, [a], Id("a"), ["a/p"]);
    WithoutFirst(a, []);
    assert [a] + [] == [a] && [c] + [a] == LeftOver() && [c] + [] == [c];
  }

  lemma AddsFork()
    ensures multiset(Older().sl) == multiset([Wanted(Id("c"), Both())]) + multiset(AllWanted(Needs(A(OLD).a)))
  {
    hide Both;
    hide AllWanted;
    NeedsOfA(OLD);
    hide Needs;
    hide A;
    hide Seen;
    hide EnvOf;
    AllWantedAre("c", Open(FORK, "c/p"), "e", Open(Id("e"), "e/p"));
  }

  lemma SelectsOlder()
    ensures Selects(Start(EnvOf(Forked())).view, LeftOver(), A(OLD).a, false, Older().view, Older().sl)
  {
    hide Forked;
    hide EnvOf;
    hide Quiet;
    hide Selects;
    hide Needs;
    hide EdgesOf;
    hide AllWanted;
    hide Sel.Without;
    hide Both;
    hide LeftOver;
    hide OneEach;
    hide AllEasy;
    hide AtRoot;
    hide Root;
    ItIs();
    EnvIs(Forked());
    DependersAre(OLD);
    ImportsOfA(OLD);
    TakesOutA();
    AddsFork();
    assert [Root()] + [A(OLD)] == [Root(), A(OLD)];
    assert A(OLD).a.(pl := ["a/p"]) == A(OLD).a;
    assert A(OLD).first && A(OLD).a.a.id == Id("a") && A(OLD).a.pl == ["a/p"];
    hide A;
    SelectsIs(EnvOf(Forked()), [Root()], AtRoot(), A(OLD), ["a/p"], Needs(A(OLD).a), LeftOver(), Older().sl);
  }

  lemma TakenA()
    ensures var s, m := TakenBack(), Start(EnvOf(Forked())).view;
            |m.projects| < |s.view.projects| && TakenPackages(s, m) == ["a/p"]
  {
    hide EnvOf;
  }

  lemma ResumesA()
    ensures Next(TakenBack(), Older())
  {
    hide Next;
    hide UnselectsProject;
    hide Selects;
    hide View.Passing;
    hide EnvOf;
    hide Seen;
    hide Both;
    hide Root;
    hide AtRoot;
    hide WithA;
    hide LeftOver;
    LeavesA();
    SelectsOlder();
    PassesA(OLD);
    assert A(OLD).a == AtomWithPackages(Atom(Id("a"), OLD), ["a/p"]);
    TakenA();
    hide A;
    GoesOn(TakenBack(), Start(EnvOf(Forked())).view, LeftOver(), ["a/p"], OLD, Older());
  }

  // ---------------------------------------------------------------- the fork is added

  lemma PassesF()
    ensures SeesC(OLD).Passing(At(FORK, NEW, ["c/p"]), true)
  {
    hide Forked;
    hide EnvOf;
    hide Base;
    hide Quiet;
    hide View.Passing;
    hide World.HasPackage;
    hide World.ListPackages;
    hide Both;
    hide OneEach;
    hide AllEasy;
    hide EdgesOf;
    hide Root;
    hide A;
    hide C;
    hide WithA;
    ItIs();
    EnvIs(Forked());
    ImportsOfC(FORK, ["c/p"]);
    DependersAre(OLD);
    PackagesAre(At(FORK, NEW, ["c/p"]).a);
    NothingIsEasy();
    PassesIf(EnvOf(Forked()), [Root(), A(OLD), C()], WithA(OLD), At(FORK, NEW, ["c/p"]), true);
  }

  lemma SelectsF()
    ensures Selects(SeesC(OLD), OlderC().sl, At(FORK, NEW, ["c/p"]), true, Finished().view, [])
  {
    hide Forked;
    hide EnvOf;
    hide Quiet;
    hide Selects;
    hide Both;
    hide EdgesOf;
    hide AllWanted;
    hide Sel.Without;
    hide AllEasy;
    hide Root;
    hide A;
    hide C;
    hide WithA;
    ItIs();
    EnvIs(Forked());
    ImportsOfC(FORK, ["c/p"]);
    ImportsOfC(FORK, Both());
    WithoutFirst(Wanted(FORK, ["c/p"]), []);
    assert [Wanted(FORK, ["c/p"])] + [] == OlderC().sl;
    AllWantedAre("c", Open(Id("c"), "c/p"), "e", Open(Id("e"), "e/p"));
    NothingIsEasy();
    NothingAfter(WithA(OLD), F().a.a);
    assert [Root(), A(OLD), C()] + [F()] == [Root(), A(OLD), C(), F()];
    hide After;
    SelectsIs(EnvOf(Forked()), [Root(), A(OLD), C()], WithA(OLD), F(), ["c/p"], map[], OlderC().sl, []);
  }

  lemma AddsF()
    ensures Next(OlderC(), Finished())
  {
    hide Forked;
    hide EnvOf;
    hide Quiet;
    hide Next;
    hide Selects;
    hide View.Passing;
    hide Base;
    hide Both;
    hide Root;
    hide A;
    hide WithA;
    ItIs();
    EnvIs(Forked());
    BasesAre(OLD);
    PassesF();
    SelectsF();
    assert C().a.a.v == NEW;
    hide C;
    var e := Wanted(FORK, ["c/p"]);
    assert MoreOf(SeesC(OLD), e) == At(FORK, NEW, ["c/p"]);
    AddsNow(OlderC(), e, Finished());
  }

  // ---------------------------------------------------------------- the theorem

  lemma IsChain()
    ensures IsPath(ForkedRun())
  {
    hide Next;
    hide Start;
    hide Newer;
    hide NewerC;
    hide Blaming;
    hide TakenBack;
    hide Older;
    hide OlderC;
    hide Finished;
    TakesA();
    TakesC();
    FailsAtE();
    PopsC();
    ResumesA();
    AddsF();
  }

  lemma FinishedIs()
    ensures Finished().sl == [] && Finished().mode == Choosing
    ensures |Finished().view.projects| == 4 && Finished().view.projects[2].a.a.id == Id("c")
    ensures On(Finished().view.deps, "c") == [Dependency(A(OLD).a.a, Open(FORK, "c/p"))]
  {
    hide EnvOf;
    hide Forked;
    hide Both;
    hide Root;
    hide A;
    hide WithA;
    hide OneEach;
    hide AllEasy;
    DependersAre(OLD);
    SeenOn(EnvOf(Forked()), Finished().view.projects, WithA(OLD), "c");
  }

  /** The older version of a names the fork, and c is selected without it as well. */
  lemma FinishedDisagrees()
    ensures !SourcesAgree(Finished().view, [])
  {
    hide Finished;
    FinishedIs();
    assert !InUse(Finished().view.deps, Finished().view.projects[2].a.a.id);
  }

  lemma BothSelected()
    ensures var soln := Solution(Finished().view.projects, |Finished().view.projects|);
            Atom(Id("c"), NEW) in soln && Atom(FORK, NEW) in soln
  {
    hide EnvOf;
    hide Both;
    var projects := Finished().view.projects;
    assert |projects| == 4 && projects[2] == C() && projects[3] == F();
    hide Finished;
    SolutionExact(projects, 4, C().a.a, "c/p");
    SolutionExact(projects, 4, F().a.a, "c/p");
    hide Solution;
  }

  /** The world is well behaved, and a run of the solver finishes in it with project c selected
      from two sources: the chain starts at the root, each state is one turn away from the one
      before, in the last the queue is empty, and what is read off holds c both from the fork, which
      its only depender names, and from where nobody wants it. */
  lemma RunDisagrees()
    ensures WellBehaved(Forked()) && Lossless(Forked())
    ensures IsRun(EnvOf(Forked()), ForkedRun()) && |ForkedRun()| == 8
    ensures var s := Last(ForkedRun());
            var soln := Solution(s.view.projects, |s.view.projects|);
            && s.mode == Choosing && s.sl == [] && !SourcesAgree(s.view, [])
            && On(s.view.deps, "c") == [Dependency(A(OLD).a.a, Open(FORK, "c/p"))]
            && Atom(Id("c"), NEW) in soln && Atom(FORK, NEW) in soln && !Id("c").Eq(FORK)
  {
    hide WellBehaved;
    hide Lossless;
    hide Solution;
    hide Starts;
    hide IsPath;
    hide SourcesAgree;
    hide Forked;
    hide EnvOf;
    hide Open;
    IsWellBehaved();
    ItIs();
    ItStarts(Forked());
    IsChain();
    FinishedIs();
    FinishedDisagrees();
    BothSelected();
    hide Start;
    hide Newer;
    hide NewerC;
    hide Blaming;
    hide TakenBack;
    hide Older;
    hide OlderC;
    hide Finished;
  }
}
