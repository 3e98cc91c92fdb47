/** `gps/selection.go`: the stack of selected atoms, the adjacency list of inbound
    dependencies, and the queue of identifiers still to be selected. */
module Selection {
  import opened Wrappers
  import opened Strings
  import opened Versions
  import opened Bridge

  datatype Selected = Selected(a: AtomWithPackages, first: bool)

  // ---------------------------------------------------------------- reading the selection

  function On(deps: map<ProjectRoot, seq<Dependency>>, r: ProjectRoot): seq<Dependency> {
    if r in deps then deps[r] else []
  }

  /** The composite constraint of the first n dependencies. */
  function Composite(ds: seq<Dependency>, n: nat): Constraint
    requires n <= |ds|
  {
    if n == 0 then Any else Intersect(Composite(ds, n - 1), ds[n - 1].dep.wc.constraint)
  }

  /** How many times p occurs among the first n of pl. */
  function Times(pl: seq<string>, n: nat, p: string): nat
    requires n <= |pl|
  {
    if n == 0 then 0 else Times(pl, n - 1, p) + (if pl[n - 1] == p then 1 else 0)
  }

  /** How many of the first n dependencies' package entries name p. */
  function Demand(ds: seq<Dependency>, n: nat, p: string): nat
    requires n <= |ds|
  {
    if n == 0 then 0 else Demand(ds, n - 1, p) + Times(ds[n - 1].dep.pl, |ds[n - 1].dep.pl|, p)
  }

  lemma {:induction false} TimesPositive(pl: seq<string>, n: nat, p: string)
    requires n <= |pl|
    ensures Times(pl, n, p) > 0 <==> p in pl[..n]
    ensures Distinct(pl) ==> Times(pl, n, p) <= 1
  {
    if n == 0 {
    } else {
      TimesPositive(pl, n - 1, p);
    }
  }

  lemma {:induction false} DemandPositive(ds: seq<Dependency>, n: nat, p: string)
    requires n <= |ds|
    ensures Demand(ds, n, p) > 0 <==> exists i | 0 <= i < n :: p in ds[i].dep.pl
  {
    if n == 0 {
    } else {
      DemandPositive(ds, n - 1, p);
      TimesPositive(ds[n - 1].dep.pl, |ds[n - 1].dep.pl|, p);
      assert ds[n - 1].dep.pl[..|ds[n - 1].dep.pl|] == ds[n - 1].dep.pl;
    }
  }

  /** Index of the first selected atom of a project, or the length of the stack. */
  function FirstIndex(projects: seq<Selected>, r: ProjectRoot): (n: nat)
    ensures n <= |projects|
    ensures n < |projects| ==> projects[n].a.a.id.root == r
    ensures forall i | 0 <= i < n :: projects[i].a.a.id.root != r
  {
    if projects == [] then 0
    else
      var m := FirstIndex(projects[..|projects| - 1], r);
      if m < |projects| - 1 then m
      else if projects[m].a.a.id.root == r then m else |projects|
  }

  /** What `selected` answers. */
  function Base(projects: seq<Selected>, r: ProjectRoot): Option<AtomWithPackages> {
    var n := FirstIndex(projects, r);
    if n < |projects| then Some(projects[n].a) else None
  }

  class SelectionState {
    var projects: seq<Selected>
    var deps: map<ProjectRoot, seq<Dependency>>
    var foldRoots: map<string, ProjectRoot>
    const w: World

    constructor (w: World)
      ensures projects == [] && deps == map[] && foldRoots == map[] && this.w == w
    {
      this.w := w;
      projects, deps, foldRoots := [], map[], map[];
    }

    function GetDependenciesOn(id: ProjectIdentifier): seq<Dependency>
      reads this
    {
      On(deps, id.root)
    }

    /** The identifier in use for a project: whatever the first dependency on it said. */
    function GetIdentFor(pr: ProjectRoot): Option<ProjectIdentifier>
      reads this
    {
      var ds := On(deps, pr);
      if |ds| == 0 then None else Some(ds[0].dep.wc.ident)
    }

    method PushSelection(a: AtomWithPackages, pkgonly: bool)
      modifies this`projects
      ensures projects == old(projects) + [Selected(a, !pkgonly)]
    {
      projects := projects + [Selected(a, !pkgonly)];
    }

    method PopSelection() returns (a: AtomWithPackages, first: bool)
      requires projects != []
      modifies this`projects
      ensures old(projects) == projects + [Selected(a, first)]
    {
      var sel := projects[|projects| - 1];
      projects := projects[..|projects| - 1];
      return sel.a, sel.first;
    }

    /** Some names the other case variant already picked. */
    function FindCaseConflicts(pr: ProjectRoot): Option<ProjectRoot>
      reads this
    {
      var f := w.fold(pr);
      if f in foldRoots && pr != foldRoots[f] then Some(foldRoots[f]) else None
    }

    method PushDep(dep: Dependency)
      modifies this`deps, this`foldRoots
      ensures var pr := dep.dep.wc.ident.root;
              && deps == old(deps)[pr := On(old(deps), pr) + [dep]]
              && foldRoots == if On(old(deps), pr) == [] then old(foldRoots)[w.fold(pr) := pr] else old(foldRoots)
    {
      var pr := dep.dep.wc.ident.root;
      var ds := On(deps, pr);
      if |ds| == 0 { foldRoots := foldRoots[w.fold(pr) := pr]; }
      deps := deps[pr := ds + [dep]];
    }

    method PopDep(id: ProjectIdentifier) returns (dep: Dependency)
      requires On(deps, id.root) != []
      modifies this`deps, this`foldRoots
      ensures On(old(deps), id.root) == On(deps, id.root) + [dep]
      ensures deps == old(deps)[id.root := On(deps, id.root)]
      ensures foldRoots == if On(deps, id.root) == [] then old(foldRoots) - {w.fold(id.root)} else old(foldRoots)
    {
      var ds := On(deps, id.root);
      if |ds| == 1 { foldRoots := foldRoots - {w.fold(id.root)}; }
      dep := ds[|ds| - 1];
      deps := deps[id.root := ds[..|ds| - 1]];
    }

    function DepperCount(id: ProjectIdentifier): nat
      reads this
    {
      |On(deps, id.root)|
    }

    method GetRequiredPackagesIn(id: ProjectIdentifier) returns (uniq: map<string, nat>)
      ensures forall p :: (if p in uniq then uniq[p] else 0) == Demand(On(deps, id.root), |On(deps, id.root)|, p)
    {
      uniq := map[];
      var ds := On(deps, id.root);
      for i := 0 to |ds|
        invariant forall p :: (if p in uniq then uniq[p] else 0) == Demand(ds, i, p)
      {
        var pl := ds[i].dep.pl;
        for j := 0 to |pl|
          invariant forall p :: (if p in uniq then uniq[p] else 0) == Demand(ds, i, p) + Times(pl, j, p)
        {
          uniq := uniq[pl[j] := (if pl[j] in uniq then uniq[pl[j]] else 0) + 1];
        }
      }
    }

    method GetConstraint(id: ProjectIdentifier) returns (ret: Constraint)
      ensures ret == Composite(On(deps, id.root), |On(deps, id.root)|)
    {
      if id.root !in deps || |deps[id.root]| == 0 { return Any; }
      var ds := deps[id.root];
      ret := Any;
      for i := 0 to |ds|
        invariant ret == Composite(ds, i)
      {
        ret := Intersect(ret, ds[i].dep.wc.constraint);
      }
    }

    method IsSelected(id: ProjectIdentifier) returns (a: Option<AtomWithPackages>)
      ensures a == Base(projects, id.root)
    {
      for i := 0 to |projects|
        invariant FirstIndex(projects, id.root) >= i
      {
        if projects[i].a.a.id.root == id.root { return Some(projects[i].a); }
      }
      return None;
    }
  }

  // ---------------------------------------------------------------- the unselected queue

  /** The entry matched by `remove`: same identifier, same package list. */
  predicate Names(e: Bimodal, id: ProjectIdentifier, pl: seq<string>) {
    e.id.Eq(id) && e.pl == pl
  }

  /** Index of the first match, or the length of the queue. */
  function FirstMatch(sl: seq<Bimodal>, id: ProjectIdentifier, pl: seq<string>): (n: nat)
    ensures n <= |sl|
    ensures n < |sl| ==> Names(sl[n], id, pl)
    ensures forall i | 0 <= i < n :: !Names(sl[i], id, pl)
  {
    if sl == [] then 0
    else
      var m := FirstMatch(sl[..|sl| - 1], id, pl);
      if m < |sl| - 1 then m
      else if Names(sl[m], id, pl) then m else |sl|
  }

  function Without(sl: seq<Bimodal>, id: ProjectIdentifier, pl: seq<string>): seq<Bimodal> {
    var n := FirstMatch(sl, id, pl);
    if n < |sl| then sl[..n] + sl[n + 1..] else sl
  }

  lemma WithoutMembers(sl: seq<Bimodal>, id: ProjectIdentifier, pl: seq<string>)
    ensures var r := Without(sl, id, pl);
            && (forall e <- r :: e in sl)
            && (forall e <- sl :: e in r || Names(e, id, pl))
            && |r| == if exists e <- sl :: Names(e, id, pl) then |sl| - 1 else |sl|
  {
    var n := FirstMatch(sl, id, pl);
    if n < |sl| {
      assert sl[n] in sl;
      assert sl == sl[..n] + [sl[n]] + sl[n + 1..];
    }
  }

  /** The entry that goes is the first for the same project from the same source with the same packages. */
  lemma WithoutExactly(sl: seq<Bimodal>, id: ProjectIdentifier, pl: seq<string>, n: nat)
    requires n <= |sl|
    requires forall i | 0 <= i < n ::
               !(sl[i].id.root == id.root && sl[i].id.NormalizedSource() == id.NormalizedSource() && sl[i].pl == pl)
    requires n < |sl| ==>
               sl[n].id.root == id.root && sl[n].id.NormalizedSource() == id.NormalizedSource() && sl[n].pl == pl
    ensures Without(sl, id, pl) == if n < |sl| then sl[..n] + sl[n + 1..] else sl
  {
    forall i | 0 <= i < |sl|
      ensures Names(sl[i], id, pl) <==>
              sl[i].id.root == id.root && sl[i].id.NormalizedSource() == id.NormalizedSource() && sl[i].pl == pl
    {
      EqIsSameSource(sl[i].id, id);
    }
    assert FirstMatch(sl, id, pl) == n;
  }

  class Unselected {
    var sl: seq<Bimodal>

    constructor ()
      ensures sl == []
    {
      sl := [];
    }

    /** A heap push: the entry goes in, and the heap may reorder itself at will. */
    method Push(e: Bimodal)
      modifies this
      ensures multiset(sl) == multiset(old(sl)) + multiset{e}
    {
      assert multiset(sl + [e]) == multiset(sl) + multiset{e};
      var reordered :| multiset(reordered) == multiset(sl) + multiset{e};
      sl := reordered;
    }

    /** Takes out the first entry that matches, if one does, by splicing: the heap order of
        the rest is not restored. */
    method Remove(id: ProjectIdentifier, pl: seq<string>)
      modifies this
      ensures sl == Without(old(sl), id, pl)
    {
      var plen := |pl|;
      for i := 0 to |sl|
        invariant sl == old(sl) && FirstMatch(sl, id, pl) >= i
      {
        var pi := sl[i];
        var same := false;
        if pi.id.Eq(id) && |pi.pl| == plen { same := pi.pl == pl; }
        if same {
          if i == |sl| - 1 { sl := sl[..|sl| - 1]; } else { sl := sl[..i] + sl[i + 1..]; }
          return;
        }
      }
    }
  }
}
