/** The import search of `dep init` (`cmd/dep/gopath_scanner.go`): a three-coloured depth-first
    traversal that sorts the imported projects into those found on disk and those that are not. */
module GopathScanner {
  import opened Wrappers
  import opened Strings

  datatype Color = White | Grey | Black

  /** What one project on disk offers: for each of its packages the external imports it reaches,
      and the packages with errors. */
  datatype Tree = Tree(reach: map<string, seq<string>>, broken: set<string>)

  /** What the scanner is told by the file system, version control and root deduction. */
  datatype World = World(
    deduce: string -> Option<string>,
    isDir: string -> bool,
    found: string -> bool,
    version: string -> Option<string>,
    trees: map<string, Tree>,
    isStandard: string -> bool)
  {
    /** What is imported from pkg, when its project's tree has it without error. */
    function Imports(pkg: string): Option<seq<string>> {
      var pr := deduce(pkg);
      if pr.None? || pr.value !in trees || pkg !in trees[pr.value].reach || pkg in trees[pr.value].broken then None
      else Some(trees[pr.value].reach[pkg])
    }

    /** pkg imports the non-standard package q. */
    predicate Edge(pkg: string, q: string) {
      Imports(pkg).Some? && q in Imports(pkg).value && !isStandard(q)
    }

    /** Every package that is imported by something. */
    function Mentioned(): set<string> {
      set pr, pkg, q | pr in trees && pkg in trees[pr].reach && q in trees[pr].reach[pkg] :: q
    }
  }

  datatype Outcome =
    | Done
    | NoRoot(pkg: string)
    | NoTree(root: string)
    | ImportCycle(pkg: string)

  /** Each package of the path imports the next. */
  predicate IsPath(w: World, path: seq<string>) {
    forall i :: 0 <= i < |path| - 1 ==> w.Edge(path[i], path[i + 1])
  }

  /** A chain of imports, all of them followed, that leads from pkg back to pkg. */
  ghost predicate FollowedCycle(w: World, explored: set<string>, pkg: string) {
    exists path :: IsPath(w, path) && |path| >= 2 && path[0] == pkg && path[|path| - 1] == pkg
                   && forall p <- path :: p in explored
  }

  /** The reported failure is a fact about the world, a cycle one that was followed. */
  ghost predicate Genuine(w: World, explored: set<string>, o: Outcome) {
    match o
    case Done => true
    case NoRoot(pkg) => w.deduce(pkg).None?
    case NoTree(root) => root !in w.trees
    case ImportCycle(pkg) => FollowedCycle(w, explored, pkg)
  }

  /** Why a project counts as not on disk: it cannot be read there, or lacks a package that was met. */
  ghost predicate Absent(w: World, colors: map<string, Color>, root: string) {
    || !w.isDir(root) || !w.found(root) || w.version(root).None?
    || (root in w.trees && exists pkg :: Lacks(w, colors, root, pkg))
  }

  /** A package was met, and its project has nothing there. */
  predicate Lacks(w: World, colors: map<string, Color>, root: string, pkg: string)
    requires root in w.trees
  {
    ColorIn(colors, pkg) != White && w.deduce(pkg) == Some(root) && pkg !in w.trees[root].reach
  }

  /** Every package that was met is a direct dependency or imported by one that was explored. */
  ghost predicate Traced(w: World, colors: map<string, Color>, explored: set<string>, direct: set<string>) {
    forall p | ColorIn(colors, p) != White :: p in direct || exists q :: q in explored && w.Edge(q, p)
  }

  lemma TracedMore(w: World, colors: map<string, Color>, explored: set<string>, explored': set<string>,
                   direct: set<string>)
    requires Traced(w, colors, explored, direct) && explored <= explored'
    ensures Traced(w, colors, explored', direct)
  {
  }

  /** What was met stays met. */
  predicate NoPaler(now: map<string, Color>, was: map<string, Color>) {
    forall p <- was :: was[p] != White ==> ColorIn(now, p) != White
  }

  /** Why a package was not explored: its project is not on disk, or it has errors. */
  predicate Skipped(w: World, notondisk: set<string>, pkg: string) {
    var root := w.deduce(pkg);
    root.Some? && (root.value in notondisk || (root.value in w.trees && pkg in w.trees[root.value].broken))
  }

  lemma EdgeIsMentioned(w: World, pkg: string, q: string)
    requires w.Edge(pkg, q)
    ensures q in w.Mentioned()
  {
  }

  /** Every package that was explored is on disk, in the tree of its project, and free of errors. */
  ghost predicate OnDisk(w: World, ondisk: map<string, string>, explored: set<string>) {
    forall p <- explored :: IsThere(w, ondisk, p)
  }

  predicate IsThere(w: World, ondisk: map<string, string>, p: string) {
    && w.deduce(p).Some?
    && var root := w.deduce(p).value;
       root in ondisk && root in w.trees && p in w.trees[root].reach && p !in w.trees[root].broken
  }

  lemma OnDiskMore(w: World, ondisk: map<string, string>, explored: set<string>, ondisk': map<string, string>,
                   explored': set<string>)
    requires OnDisk(w, ondisk, explored) && ondisk.Keys <= ondisk'.Keys
    requires forall p <- explored' :: p in explored || IsThere(w, ondisk', p)
    ensures OnDisk(w, ondisk', explored')
  {
  }

  /** Each finished package that was explored comes after everything it imports. */
  ghost predicate ImportsFirst(w: World, explored: set<string>, order: seq<string>) {
    forall i, q :: 0 <= i < |order| && order[i] in explored && w.Edge(order[i], q) ==> q in order[..i]
  }

  lemma ImportsFirstExtended(w: World, explored: set<string>, order: seq<string>, pkg: string)
    requires ImportsFirst(w, explored, order)
    requires pkg in explored ==> forall q :: w.Edge(pkg, q) ==> q in order
    ensures ImportsFirst(w, explored, order + [pkg])
  {
    var more := order + [pkg];
    forall i, q | 0 <= i < |more| && more[i] in explored && w.Edge(more[i], q) ensures q in more[..i] {
      if i == |order| {
        assert more[..i] == order;
      } else {
        assert more[..i] == order[..i];
      }
    }
  }

  /** A grey package met again closes a cycle of imports. */
  lemma GreyIsOnCycle(w: World, stack: seq<string>, explored: set<string>, pkg: string)
    requires IsPath(w, stack) && pkg in stack && w.Edge(stack[|stack| - 1], pkg) && forall p <- stack :: p in explored
    ensures FollowedCycle(w, explored, pkg)
  {
    var i :| 0 <= i < |stack| && stack[i] == pkg;
    var path := stack[i..] + [pkg];
    forall j | 0 <= j < |path| - 1 ensures w.Edge(path[j], path[j + 1]) {
      assert path[j] == stack[i + j];
      if j < |path| - 2 {
        assert w.Edge(stack[i + j], stack[i + j + 1]);
      }
    }
    assert IsPath(w, path);
  }

  // ---------------------------------------------------------------- the dependency lists

  /** The lists of dependencies hold, under their roots, exactly the packages of a set, each once. */
  ghost predicate Listed(w: World, dependencies: map<string, seq<string>>, pkgs: set<string>) {
    && (forall r <- dependencies :: forall p <- dependencies[r] :: w.deduce(p) == Some(r) && p in pkgs)
    && (forall p <- pkgs :: ListedAt(w, dependencies, p))
    && (forall r <- dependencies :: Distinct(dependencies[r]))
  }

  predicate ListedAt(w: World, dependencies: map<string, seq<string>>, p: string) {
    w.deduce(p).Some? && w.deduce(p).value in dependencies && p in dependencies[w.deduce(p).value]
  }

  lemma ListedMore(w: World, dependencies: map<string, seq<string>>, pkgs: set<string>, root: string, pkg: string)
    requires Listed(w, dependencies, pkgs) && w.deduce(pkg) == Some(root)
    requires root in dependencies ==> pkg !in dependencies[root]
    ensures Listed(w, dependencies[root := (if root in dependencies then dependencies[root] else []) + [pkg]],
                   pkgs + {pkg})
  {
    var was := if root in dependencies then dependencies[root] else [];
    var now := dependencies[root := was + [pkg]];
    forall p | p in pkgs + {pkg} ensures ListedAt(w, now, p) {
      assert p != pkg ==> ListedAt(w, dependencies, p);
    }
    forall r, p | r in now && p in now[r] ensures w.deduce(p) == Some(r) && p in pkgs + {pkg} {
      assert p == pkg || (r in dependencies && p in dependencies[r]);
    }
  }

  lemma ListedAlready(w: World, dependencies: map<string, seq<string>>, pkgs: set<string>, pkg: string)
    requires Listed(w, dependencies, pkgs) && ListedAt(w, dependencies, pkg)
    ensures Listed(w, dependencies, pkgs + {pkg})
  {
  }

  function WithPackage(dependencies: map<string, seq<string>>, root: string, pkg: string): map<string, seq<string>> {
    if root in dependencies && pkg in dependencies[root] then dependencies
    else dependencies[root := (if root in dependencies then dependencies[root] else []) + [pkg]]
  }

  lemma ListedWith(w: World, dependencies: map<string, seq<string>>, pkgs: set<string>, root: string, pkg: string)
    requires Listed(w, dependencies, pkgs) && w.deduce(pkg) == Some(root)
    ensures Listed(w, WithPackage(dependencies, root, pkg), pkgs + {pkg})
    ensures WithPackage(dependencies, root, pkg).Keys == dependencies.Keys + {root}
  {
    if root in dependencies && pkg in dependencies[root] {
      ListedAlready(w, dependencies, pkgs, pkg);
      assert dependencies.Keys == dependencies.Keys + {root};
    } else {
      ListedMore(w, dependencies, pkgs, root, pkg);
    }
    hide Listed;
  }

  // ---------------------------------------------------------------- the colours

  function ColorIn(colors: map<string, Color>, pkg: string): Color {
    if pkg in colors then colors[pkg] else White
  }

  /** The grey packages are a chain of imports, the black ones are sorted, and only such packages
      have been explored. */
  ghost predicate Colouring(w: World, colors: map<string, Color>, stack: seq<string>, order: seq<string>,
                            explored: set<string>)
  {
    && (forall p :: ColorIn(colors, p) == Grey <==> p in stack)
    && (forall p :: ColorIn(colors, p) == Black <==> p in order)
    && Distinct(stack) && IsPath(w, stack)
    && (forall p <- explored :: p in stack || p in order)
    && ImportsFirst(w, explored, order)
  }

  lemma Darkened(w: World, colors: map<string, Color>, stack: seq<string>, order: seq<string>, explored: set<string>,
                 pkg: string)
    requires Colouring(w, colors, stack, order, explored) && ColorIn(colors, pkg) == White
    requires stack != [] ==> w.Edge(stack[|stack| - 1], pkg)
    ensures Colouring(w, colors[pkg := Grey], stack + [pkg], order, explored)
  {
    assert forall p :: p in stack + [pkg] <==> p in stack || p == pkg;
  }

  lemma Blackened(w: World, colors: map<string, Color>, stack: seq<string>, order: seq<string>, explored: set<string>,
                  pkg: string)
    requires Colouring(w, colors, stack + [pkg], order, explored)
    requires pkg in explored ==> forall q :: w.Edge(pkg, q) ==> q in order
    ensures Colouring(w, colors[pkg := Black], stack, order + [pkg], explored)
  {
    var grey := stack + [pkg];
    assert grey[|stack|] == pkg;
    assert forall i | 0 <= i < |stack| :: grey[i] == stack[i];
    assert forall p :: p in grey <==> p in stack || p == pkg;
    assert forall p :: p in order + [pkg] <==> p in order || p == pkg;
    ImportsFirstExtended(w, explored, order, pkg);
    hide ImportsFirst;
  }

  lemma ColourMeans(w: World, colors: map<string, Color>, stack: seq<string>, order: seq<string>,
                    explored: set<string>, pkg: string)
    requires Colouring(w, colors, stack, order, explored)
    ensures match ColorIn(colors, pkg)
            case White => pkg !in stack && pkg !in order && pkg !in explored
            case Grey => pkg in stack && IsPath(w, stack)
            case Black => pkg in order
  {
  }

  lemma MoreExplored(w: World, colors: map<string, Color>, stack: seq<string>, order: seq<string>,
                     explored: set<string>, pkg: string)
    requires Colouring(w, colors, stack, order, explored) && pkg in stack
    ensures Colouring(w, colors, stack, order, explored + {pkg})
  {
  }

  // ---------------------------------------------------------------- the disk

  /** The trees kept are those on disk, the versions recorded are the real ones, and a project is
      put down as not on disk only for cause. */
  ghost predicate KnownDisk(w: World, colors: map<string, Color>, ptrees: map<string, Tree>,
                            ondisk: map<string, string>, notondisk: set<string>)
  {
    && (forall r <- ptrees :: r in w.trees && ptrees[r] == w.trees[r] && w.isDir(r) && r in ondisk)
    && (forall r <- ondisk :: w.found(r) && w.version(r) == Some(ondisk[r]))
    && (forall r <- notondisk :: Absent(w, colors, r))
  }

  lemma DarkerDisk(w: World, colors: map<string, Color>, ptrees: map<string, Tree>, ondisk: map<string, string>,
                   notondisk: set<string>, colors': map<string, Color>)
    requires KnownDisk(w, colors, ptrees, ondisk, notondisk) && NoPaler(colors', colors)
    ensures KnownDisk(w, colors', ptrees, ondisk, notondisk)
  {
    forall r <- notondisk | r in w.trees && exists pkg :: Lacks(w, colors, r, pkg)
      ensures exists pkg :: Lacks(w, colors', r, pkg)
    {
      var pkg :| Lacks(w, colors, r, pkg);
      assert Lacks(w, colors', r, pkg);
    }
  }

  /** Each of the roots is put down as on disk or as not on disk. */
  predicate PutDown(roots: set<string>, ondisk: map<string, string>, notondisk: set<string>) {
    forall r <- roots :: r in ondisk || r in notondisk
  }

  /** ... and after the first pass as on disk, at its version, exactly when it is there. */
  ghost predicate PutDownRightly(w: World, roots: set<string>, ondisk: map<string, string>, notondisk: set<string>) {
    forall r <- roots ::
      && (r in ondisk <==> w.found(r) && w.version(r).Some?)
      && (r in ondisk ==> Some(ondisk[r]) == w.version(r))
      && (r in notondisk <==> r !in ondisk)
  }

  lemma PutDownMore(w: World, roots: set<string>, ondisk: map<string, string>, notondisk: set<string>, root: string)
    requires PutDownRightly(w, roots, ondisk, notondisk) && ondisk.Keys + notondisk == roots
    requires root !in roots
    ensures w.found(root) && w.version(root).Some? ==>
              PutDownRightly(w, roots + {root}, ondisk[root := w.version(root).value], notondisk)
    ensures !(w.found(root) && w.version(root).Some?) ==>
              PutDownRightly(w, roots + {root}, ondisk, notondisk + {root})
  {
  }

  /** Every finished package was explored, or there was a reason not to. */
  ghost predicate AccountedFor(w: World, notondisk: set<string>, explored: set<string>, order: seq<string>) {
    forall p <- order :: p in explored || Skipped(w, notondisk, p)
  }

  lemma AccountedMore(w: World, notondisk: set<string>, explored: set<string>, order: seq<string>,
                      notondisk': set<string>, explored': set<string>)
    requires AccountedFor(w, notondisk, explored, order) && notondisk <= notondisk' && explored <= explored'
    ensures AccountedFor(w, notondisk', explored', order)
  {
  }

  /** How many packages of the universe are still white: what bounds the traversal. */
  ghost function Left(universe: set<string>, stack: seq<string>, order: seq<string>): nat {
    |set p | p in universe && p !in stack && p !in order|
  }

  lemma LeftShrinks(universe: set<string>, stack: seq<string>, order: seq<string>, order': seq<string>)
    requires order <= order'
    ensures Left(universe, stack, order') <= Left(universe, stack, order)
  {
    var after := set p | p in universe && p !in stack && p !in order';
    var before := set p | p in universe && p !in stack && p !in order;
    assert after <= before;
    Smaller(after, before);
  }

  lemma LeftDarkened(universe: set<string>, stack: seq<string>, order: seq<string>, order': seq<string>, pkg: string)
    requires pkg in universe && pkg !in stack && pkg !in order && order <= order'
    ensures Left(universe, stack + [pkg], order') < Left(universe, stack, order)
  {
    var after := set p | p in universe && p !in stack + [pkg] && p !in order';
    var before := set p | p in universe && p !in stack && p !in order;
    assert pkg in before && after <= before - {pkg};
    Smaller(after, before - {pkg});
  }

  lemma {:induction false} Smaller(a: set<string>, b: set<string>)
    requires a <= b
    ensures |a| <= |b|
  {
    if a == {} {
    } else {
      var x :| x in a;
      Smaller(a - {x}, b - {x});
    }
  }

  class Scanner {
    const w: World
    var colors: map<string, Color>
    var notondisk: set<string>
    var invalidSVC: set<string>
    var ondisk: map<string, string>
    var ptrees: map<string, Tree>
    var dependencies: map<string, seq<string>>
    ghost var stack: seq<string>     // the grey packages, outermost first
    ghost var order: seq<string>     // the black packages, as they were finished
    ghost var explored: set<string>  // the packages whose imports were followed
    ghost var direct: set<string>    // the packages imported from the project itself

    constructor (w: World)
      ensures this.w == w
      ensures colors == map[] && notondisk == {} && invalidSVC == {} && ondisk == map[] && ptrees == map[]
              && dependencies == map[]
      ensures stack == [] && order == [] && explored == {} && direct == {}
    {
      this.w := w;
      colors, notondisk, invalidSVC, ondisk, ptrees, dependencies := map[], {}, {}, map[], map[], map[];
      stack, order, explored, direct := [], [], {}, {};
    }

    ghost predicate Coloured()
      reads this
    {
      Colouring(w, colors, stack, order, explored)
    }

    ghost predicate DiskKnown()
      reads this
    {
      KnownDisk(w, colors, ptrees, ondisk, notondisk)
    }

    ghost predicate RootsPutDown()
      reads this
    {
      PutDown(dependencies.Keys, ondisk, notondisk)
    }

    ghost predicate Accounted()
      reads this
    {
      AccountedFor(w, notondisk, explored, order)
    }

    ghost predicate DependenciesListed()
      reads this
    {
      Listed(w, dependencies, direct + explored)
    }

    ghost predicate Valid()
      reads this
    {
      && Coloured() && DiskKnown() && DependenciesListed() && RootsPutDown() && Accounted()
      && Traced(w, colors, explored, direct) && OnDisk(w, ondisk, explored)
    }

    /** pkg is a direct dependency, or imported by the innermost grey package; the grey ones are explored. */
    ghost predicate Comes(pkg: string)
      reads this
    {
      && (if stack == [] then pkg in direct else w.Edge(stack[|stack| - 1], pkg))
      && forall p <- stack :: p in explored
    }

    /** Finds the tree of a project root, unless it is, or now turns out to be, not on disk. */
    method FindTree(root: string) returns (o: Outcome, here: bool)
      requires DiskKnown()
      modifies this`notondisk, this`ondisk, this`ptrees
      ensures Genuine(w, explored, o) && DiskKnown()
      ensures here ==> o.Done? && root in ptrees && notondisk == old(notondisk)
      ensures !here ==> notondisk == old(notondisk) + if o.Done? then {root} else {}
      ensures old(ondisk).Keys <= ondisk.Keys && (here ==> root in ondisk)
    {
      if root in notondisk {
        assert notondisk == notondisk + {root};
        return Done, false;
      }
      if root in ptrees {
        return Done, true;
      }
      if !w.isDir(root) {
        notondisk := notondisk + {root};
        return Done, false;
      }
      if root !in ondisk {
        if !w.found(root) || w.version(root).None? {
          notondisk := notondisk + {root};
          return Done, false;
        }
        ondisk := ondisk[root := w.version(root).value];
      }
      if root !in w.trees {
        return NoTree(root), false;
      }
      ptrees := ptrees[root := w.trees[root]];
      return Done, true;
    }

    /** Lists pkg under its root, once, and counts it as explored. */
    method Depend(root: string, pkg: string)
      requires DependenciesListed() && w.deduce(pkg) == Some(root)
      modifies this`dependencies, this`explored
      ensures DependenciesListed() && explored == old(explored) + {pkg}
      ensures dependencies.Keys == old(dependencies).Keys + {root}
    {
      ghost var after := WithPackage(dependencies, root, pkg);
      ListedWith(w, dependencies, direct + explored, root, pkg);
      assert direct + (explored + {pkg}) == (direct + explored) + {pkg};
      hide Listed;
      explored := explored + {pkg};
      if root in dependencies {
        if pkg !in dependencies[root] {
          dependencies := dependencies[root := dependencies[root] + [pkg]];
        }
      } else {
        dependencies := dependencies[root := [] + [pkg]];
      }
      assert dependencies == after;
    }

    /** Looks for pkg on disk. Reached is what it imports, when it is there without error. */
    method Explore(pkg: string) returns (o: Outcome, reached: Option<seq<string>>)
      requires DiskKnown() && DependenciesListed() && RootsPutDown() && ColorIn(colors, pkg) != White
      modifies this`notondisk, this`ondisk, this`ptrees, this`dependencies, this`explored
      ensures Genuine(w, explored, o)
      ensures o.Done? ==> RootsPutDown()
      ensures notondisk >= old(notondisk)
      ensures o.Done? ==> DiskKnown() && DependenciesListed() && (reached.None? ==> Skipped(w, notondisk, pkg))
      ensures reached.Some? ==> o.Done? && w.Imports(pkg) == reached && explored == old(explored) + {pkg}
      ensures reached.None? ==> explored == old(explored)
      ensures old(ondisk).Keys <= ondisk.Keys && (reached.Some? ==> IsThere(w, ondisk, pkg))
    {
      var pr := w.deduce(pkg);
      if pr.None? {
        return NoRoot(pkg), None;
      }
      var root := pr.value;
      hide Listed;
      var here;
      o, here := FindTree(root);
      if !here {
        return o, None;
      }
      var tree := ptrees[root];
      if pkg !in tree.reach {
        assert Lacks(w, colors, root, pkg);
        notondisk := notondisk + {root};
        return Done, None;
      }
      if pkg in tree.broken {
        return Done, None;
      }
      Depend(root, pkg);
      return Done, Some(tree.reach[pkg]);
    }

    method Dft(pkg: string, ghost universe: set<string>) returns (o: Outcome)
      requires Valid() && w.Mentioned() <= universe && pkg in universe && Comes(pkg)
      modifies this
      ensures Genuine(w, explored, o)
      ensures o.Done? ==>
        && Valid() && stack == old(stack) && old(order) <= order && pkg in order
        && old(explored) <= explored && direct == old(direct)
      decreases Left(universe, stack, order), 1
    {
      ColourMeans(w, colors, stack, order, explored, pkg);
      match ColorIn(colors, pkg)
      case White =>
        o := Visit(pkg, universe);
      case Grey =>
        GreyIsOnCycle(w, stack, explored, pkg);
        return ImportCycle(pkg);
      case Black =>
        return Done;
    }

    /** The white case of `dft`. */
    method Visit(pkg: string, ghost universe: set<string>) returns (o: Outcome)
      requires Valid() && w.Mentioned() <= universe && pkg in universe && ColorIn(colors, pkg) == White
      requires Comes(pkg)
      modifies this
      ensures Genuine(w, explored, o)
      ensures o.Done? ==>
        && Valid() && stack == old(stack) && old(order) <= order && pkg in order
        && old(explored) <= explored && direct == old(direct)
      decreases Left(universe, stack, order), 0
    {
      hide Listed;
      hide Left;
      hide Colouring;
      hide KnownDisk;
      hide AccountedFor;
      hide Skipped;
      hide OnDisk;
      hide Traced;
      hide PutDown;
      hide FollowedCycle;
      hide World.Mentioned;
      ColourMeans(w, colors, stack, order, explored, pkg);
      LeftDarkened(universe, stack, order, order, pkg);
      var reached: Option<seq<string>>;
      o, reached := Inspect(pkg);
      if !o.Done? {
        return;
      }
      if reached.Some? {
        o := Follow(pkg, reached.value, universe);
        if !o.Done? {
          return;
        }
      }
      Blacken(pkg);
    }

    /** The package turns grey and is looked for on disk. */
    method Inspect(pkg: string) returns (o: Outcome, reached: Option<seq<string>>)
      requires Valid() && ColorIn(colors, pkg) == White && Comes(pkg)
      modifies this
      ensures Genuine(w, explored, o)
      ensures o.Done? ==>
        && Valid() && stack == old(stack) + [pkg] && order == old(order) && direct == old(direct)
        && explored == (if reached.Some? then old(explored) + {pkg} else old(explored))
        && (if reached.Some? then w.Imports(pkg) == reached else Skipped(w, notondisk, pkg))
      ensures o.Done? && reached.None? ==> pkg !in explored
    {
      hide Listed;
      hide ImportsFirst;
      hide IsPath;
      hide Colouring;
      hide KnownDisk;
      hide AccountedFor;
      hide Skipped;
      hide Genuine;
      hide OnDisk;
      hide Traced;
      hide PutDown;
      hide IsThere;
      ColourMeans(w, colors, stack, order, explored, pkg);
      Darken(pkg);
      o, reached := Explore(pkg);
      if !o.Done? {
        return;
      }
      AccountedMore(w, old(notondisk), old(explored), order, notondisk, explored);
      OnDiskMore(w, old(ondisk), old(explored), ondisk, explored);
      TracedMore(w, colors, old(explored), explored, direct);
      if reached.Some? { MoreExplored(w, colors, stack, order, old(explored), pkg); }
    }

    method Darken(pkg: string)
      requires Coloured() && ColorIn(colors, pkg) == White && Comes(pkg)
      requires DiskKnown() && Traced(w, colors, explored, direct)
      modifies this`colors, this`stack
      ensures Coloured() && stack == old(stack) + [pkg] && ColorIn(colors, pkg) == Grey
      ensures DiskKnown() && Traced(w, colors, explored, direct)
    {
      DarkerDisk(w, colors, ptrees, ondisk, notondisk, colors[pkg := Grey]);
      if stack != [] { assert stack[|stack| - 1] in explored; }
      Darkened(w, colors, stack, order, explored, pkg);
      colors := colors[pkg := Grey];
      stack := stack + [pkg];
      hide Colouring;
    }

    method Blacken(pkg: string)
      requires Coloured() && stack != [] && stack[|stack| - 1] == pkg
      requires pkg in explored ==> forall q :: w.Edge(pkg, q) ==> q in order
      requires Accounted() && (pkg in explored || Skipped(w, notondisk, pkg))
      requires DiskKnown() && Traced(w, colors, explored, direct)
      modifies this`colors, this`stack, this`order
      ensures DiskKnown() && Traced(w, colors, explored, direct)
      ensures Coloured() && Accounted() && stack == old(stack)[..|old(stack)| - 1] && order == old(order) + [pkg]
    {
      var below := |stack| - 1;
      assert stack == stack[..below] + [pkg];
      assert ColorIn(colors, pkg) == Grey;
      DarkerDisk(w, colors, ptrees, ondisk, notondisk, colors[pkg := Black]);
      Blackened(w, colors, stack[..below], order, explored, pkg);
      colors := colors[pkg := Black];
      stack := stack[..below];
      order := order + [pkg];
      hide Colouring;
    }

    /** The loop of `dft` over the imports of the grey package pkg. */
    method Follow(pkg: string, external: seq<string>, ghost universe: set<string>) returns (o: Outcome)
      requires Valid() && w.Mentioned() <= universe
      requires stack != [] && stack[|stack| - 1] == pkg && w.Imports(pkg) == Some(external)
      requires forall p <- stack :: p in explored
      modifies this
      ensures Genuine(w, explored, o)
      ensures o.Done? ==>
        && Valid() && stack == old(stack) && old(order) <= order
        && old(explored) <= explored && direct == old(direct)
        && forall q :: w.Edge(pkg, q) ==> q in order
      decreases Left(universe, stack, order), 2
    {
      hide Listed;
      hide Colouring;
      hide KnownDisk;
      hide AccountedFor;
      hide PutDown;
      hide Traced;
      hide FollowedCycle;
      hide Left;
      hide World.Mentioned;
      for i := 0 to |external|
        invariant Valid() && stack == old(stack) && old(order) <= order
        invariant old(explored) <= explored && direct == old(direct)
        invariant forall j | 0 <= j < i :: w.isStandard(external[j]) || external[j] in order
      {
        if w.isStandard(external[i]) {
          continue;
        }
        EdgeIsMentioned(w, pkg, external[i]);
        LeftShrinks(universe, stack, old(order), order);
        o := Dft(external[i], universe);
        if !o.Done? {
          return;
        }
      }
      return Done;
    }

    /** Puts a project down as on disk, at its version, or not. */
    method FirstSight(root: string, ghost roots: set<string>)
      requires DiskKnown() && root !in roots
      requires PutDownRightly(w, roots, ondisk, notondisk) && ondisk.Keys + notondisk == roots
      modifies this`notondisk, this`invalidSVC, this`ondisk
      ensures DiskKnown()
      ensures invalidSVC == old(invalidSVC) + if w.found(root) && w.version(root).None? then {root} else {}
      ensures PutDownRightly(w, roots + {root}, ondisk, notondisk) && ondisk.Keys + notondisk == roots + {root}
    {
      PutDownMore(w, roots, ondisk, notondisk, root);
      hide PutDownRightly;
      if !w.found(root) {
        notondisk := notondisk + {root};
      } else if w.version(root).None? {
        invalidSVC := invalidSVC + {root};
        notondisk := notondisk + {root};
      } else {
        ondisk := ondisk[root := w.version(root).value];
      }
    }

    /** So far only the roots of direct dependencies are put down, each rightly. */
    ghost predicate FirstPass()
      reads this
    {
      && PutDownRightly(w, dependencies.Keys, ondisk, notondisk)
      && ondisk.Keys + notondisk == dependencies.Keys
    }

    /** Lists a direct dependency under its root. */
    method AddDirect(root: string, ip: string) returns (known: bool)
      requires explored == {} && ip !in direct && DependenciesListed() && w.deduce(ip) == Some(root)
      modifies this`dependencies, this`direct
      ensures direct == old(direct) + {ip} && DependenciesListed()
      ensures known <==> root in old(dependencies)
      ensures dependencies.Keys == old(dependencies).Keys + {root}
    {
      ListedMore(w, dependencies, direct + explored, root, ip);
      assert (direct + {ip}) + explored == (direct + explored) + {ip};
      hide Listed;
      direct := direct + {ip};
      known := root in dependencies;
      if known {
        dependencies := dependencies[root := dependencies[root] + [ip]];
      } else {
        dependencies := dependencies[root := [] + [ip]];
      }
    }

    /** Lists a direct dependency, and puts its root down when it is new. */
    method ListOne(ip: string) returns (o: Outcome)
      requires explored == {} && ip !in direct && DependenciesListed() && DiskKnown() && FirstPass()
      modifies this`notondisk, this`invalidSVC, this`ondisk, this`dependencies, this`direct
      ensures Genuine(w, explored, o)
      ensures o.Done? ==> direct == old(direct) + {ip} && DependenciesListed() && DiskKnown() && FirstPass()
    {
      var pr := w.deduce(ip);
      if pr.None? {
        return NoRoot(ip);
      }
      hide Listed;
      hide KnownDisk;
      hide PutDownRightly;
      ghost var roots := dependencies.Keys;
      var known := AddDirect(pr.value, ip);
      if known {
        assert dependencies.Keys == roots;
      } else {
        FirstSight(pr.value, roots);
      }
      return Done;
    }

    /** The first pass: over the direct dependencies, in any order. */
    method ListDirect(directDeps: set<string>) returns (o: Outcome)
      requires dependencies == map[] && direct == {} && explored == {}
      requires notondisk == {} && ondisk == map[] && ptrees == map[]
      modifies this`notondisk, this`invalidSVC, this`ondisk, this`dependencies, this`direct
      ensures Genuine(w, explored, o)
      ensures o.Done? ==> direct == directDeps && DependenciesListed() && DiskKnown() && FirstPass()
    {
      var todo := directDeps;
      while todo != {}
        invariant direct == directDeps - todo && todo <= directDeps
        invariant DependenciesListed() && DiskKnown() && FirstPass()
        decreases todo
      {
        var ip :| ip in todo;
        todo := todo - {ip};
        o := ListOne(ip);
        if !o.Done? {
          return;
        }
        hide Listed;
        hide KnownDisk;
      }
      return Done;
    }

    /** The second pass: traverses from every direct dependency, in any order. */
    method TraverseAll(directDeps: set<string>) returns (o: Outcome)
      requires Valid() && stack == [] && direct == directDeps
      modifies this
      ensures Genuine(w, explored, o)
      ensures o.Done? ==> Valid() && stack == [] && direct == directDeps && directDeps <= Elements(order)
    {
      hide Colouring;
      hide Listed;
      hide Elements;
      ghost var universe := directDeps + w.Mentioned();
      var todo := directDeps;
      while todo != {}
        invariant Valid() && stack == [] && direct == directDeps && todo <= directDeps
        invariant directDeps - todo <= Elements(order)
        decreases todo
      {
        ghost var was := order;
        var pkg :| pkg in todo;
        todo := todo - {pkg};
        o := Dft(pkg, universe);
        if !o.Done? {
          return;
        }
        PrefixElements(was, order);
        InElements(order, pkg);
      }
      return Done;
    }

    /** `scanGopathForDependencies`. On success nothing is left grey, every direct dependency and
        every import that was followed is finished, and what was followed has no cycle. */
    method Scan(directDeps: set<string>) returns (o: Outcome)
      requires colors == map[] && notondisk == {} && ondisk == map[] && ptrees == map[] && dependencies == map[]
      requires stack == [] && order == [] && explored == {} && direct == {}
      modifies this
      ensures Genuine(w, explored, o)
      ensures o.Done? ==> Valid() && direct == directDeps && AllFinished(w, colors, explored, directDeps)
      ensures o.Done? ==> forall pkg :: !FollowedCycle(w, explored, pkg)
    {
      hide FollowedCycle;
      hide AllFinished;
      hide Colouring;
      hide Listed;
      hide KnownDisk;
      hide PutDownRightly;
      if |directDeps| == 0 {
        NothingFound();
        Finished(w, colors, order, explored, directDeps);
        return Done;
      }
      o := ListDirect(directDeps);
      if !o.Done? {
        return;
      }
      Listing();
      o := TraverseAll(directDeps);
      if !o.Done? {
        return;
      }
      Finished(w, colors, order, explored, directDeps);
    }

    /** Before anything is found, and once the direct dependencies are listed, all is in order. */
    lemma NothingFound()
      requires colors == map[] && notondisk == {} && ondisk == map[] && ptrees == map[] && dependencies == map[]
      requires stack == [] && order == [] && explored == {} && direct == {}
      ensures Valid()
    {
      StartsColoured(w);
      assert direct + explored == {};
    }

    lemma Listing()
      requires colors == map[] && stack == [] && order == [] && explored == {}
      requires DependenciesListed() && DiskKnown() && FirstPass()
      ensures Valid()
    {
      StartsColoured(w);
      hide Colouring;
      hide Listed;
      hide KnownDisk;
      hide Traced;
    }
  }

  lemma InElements(s: seq<string>, x: string)
    requires x in s
    ensures x in Elements(s)
  {
  }

  lemma PrefixElements(a: seq<string>, b: seq<string>)
    requires a <= b
    ensures Elements(a) <= Elements(b)
  {
  }

  lemma StartsColoured(w: World)
    ensures Colouring(w, map[], [], [], {}) && forall direct :: Traced(w, map[], {}, direct)
  {
  }

  /** Nothing is left grey; the direct dependencies and all that was followed are finished. */
  ghost predicate AllFinished(w: World, colors: map<string, Color>, explored: set<string>, directDeps: set<string>) {
    && (forall p :: ColorIn(colors, p) != Grey)
    && (forall p <- directDeps :: ColorIn(colors, p) == Black)
    && (forall p, q :: p in explored && w.Edge(p, q) ==> ColorIn(colors, q) == Black)
  }

  lemma Finished(w: World, colors: map<string, Color>, order: seq<string>, explored: set<string>,
                 directDeps: set<string>)
    requires Colouring(w, colors, [], order, explored) && forall p <- directDeps :: p in order
    ensures AllFinished(w, colors, explored, directDeps)
    ensures forall pkg :: !FollowedCycle(w, explored, pkg)
  {
    NoCycleFollowed(w, explored, order);
    forall p, q | p in explored && w.Edge(p, q) ensures ColorIn(colors, q) == Black {
      var i :| 0 <= i < |order| && order[i] == p;
      assert q in order[..i];
    }
    hide FollowedCycle;
  }

  // ---------------------------------------------------------------- no cycles

  /** Along a path of followed imports the packages were finished ever earlier. */
  lemma {:induction false} FinishedEarlier(w: World, explored: set<string>, order: seq<string>, path: seq<string>,
                                           i: nat, n: nat) returns (j: nat)
    requires ImportsFirst(w, explored, order) && IsPath(w, path) && n < |path|
    requires forall p <- path :: p in explored
    requires i < |order| && order[i] == path[0]
    ensures j < |order| && order[j] == path[n] && j <= i && (n > 0 ==> j < i)
  {
    if n == 0 {
      j := i;
    } else {
      var k := FinishedEarlier(w, explored, order, path, i, n - 1);
      assert w.Edge(path[n - 1], path[n]) && path[n - 1] in explored;
      assert path[n] in order[..k];
      j :| 0 <= j < k && order[..k][j] == path[n];
    }
  }

  lemma NoCycleFollowed(w: World, explored: set<string>, order: seq<string>)
    requires ImportsFirst(w, explored, order) && (forall p <- explored :: p in order)
    ensures forall pkg :: !FollowedCycle(w, explored, pkg)
  {
    forall pkg ensures !FollowedCycle(w, explored, pkg) {
      forall path | IsPath(w, path) && |path| >= 2 && path[0] == pkg && (forall p <- path :: p in explored)
        ensures path[|path| - 1] != pkg
      {
        NotBack(w, explored, order, path);
      }
    }
  }

  lemma NotBack(w: World, explored: set<string>, order: seq<string>, path: seq<string>)
    requires ImportsFirst(w, explored, order) && (forall p <- explored :: p in order)
    requires IsPath(w, path) && |path| >= 2 && forall p <- path :: p in explored
    ensures path[|path| - 1] != path[0]
  {
    var i := FirstAt(order, path[0], 0);
    var j := FinishedEarlier(w, explored, order, path, i, |path| - 1);
  }

  lemma FirstAt(s: seq<string>, x: string, from: nat) returns (i: nat)
    requires x in s && from <= |s| && x !in s[..from]
    ensures i < |s| && s[i] == x && x !in s[..i]
    decreases |s| - from
  {
    assert s[..|s|] == s;
    if from < |s| && s[from] == x {
      i := from;
    } else {
      assert s[..from + 1] == s[..from] + [s[from]];
      i := FirstAt(s, x, from + 1);
    }
  }
}
