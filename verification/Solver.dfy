/** The bimodal, backtracking solver: `gps/solver.go` and the satisfiability checks of
    `gps/satisfy.go`, over the selection and queues they update in place. */
module Solver {
  import opened Wrappers
  import opened Strings
  import opened Versions
  import opened Bridge
  import opened ImportGroups
  import opened Requirements
  import opened VersionQueues
  import Sel = Selection
  import opened Selection
  import opened SolverInvariant
  import opened SolverSteps
  import opened SolverMeasure
  import opened SolverViews
  import opened SolverRuns
  import opened QueueContents

  // ---------------------------------------------------------------- outcomes

  datatype CheckResult = Passes | Fails(err: Failure) | CheckCrash(c: Crash)
  datatype FindResult = Found | NoneValid(err: Failure) | FindCrash(c: Crash)
  datatype QueueResult = Ready(q: VersionQueue<Failure>) | NoQueue(err: Failure) | QueueCrash(c: Crash)
  datatype StepResult = Advanced | Stuck(err: Failure) | StepCrash(c: Crash)
  datatype BacktrackResult = Resumed | Exhausted | BacktrackCancelled | BacktrackCrash(c: Crash)
  datatype Outcome = Solved(projs: map<Atom, set<string>>) | Unsolvable(err: Failure) | Cancelled | Crashed(c: Crash)

  /** Asked of an atom wherever its requirement is looked up; see `Solver.Linked`. */
  predicate Asked(a: AtomWithPackages) {
    true
  }

  class Solver {
    const w: World
    ghost const env: Env
    const sel: SelectionState
    const unsel: Unselected
    // whether the context is done when it is asked for the n-th time
    const done: nat -> bool
    var vqs: seq<VersionQueue<Failure>>
    var attempts: nat

    /** The solver's requirement oracle is the world's. */
    ghost predicate Linked() {
      && GoodEnv(env) && env.w == w && sel.w == w && VersionsBounded(w)
      && forall a {:trigger Asked(a)} :: env.imports(a) == Imports(w, a)
    }

    constructor (w: World, done: nat -> bool)
      requires WellBehaved(w)
      ensures Linked() && RootLinked() && env == EnvOf(w) && this.w == w && this.done == done && vqs == []
              && fresh(sel) && fresh(unsel)
      ensures sel.projects == [] && sel.deps == map[] && sel.foldRoots == map[] && unsel.sl == []
    {
      this.w, this.done := w, done;
      env := EnvOf(w);
      sel := new SelectionState(w);
      unsel := new Unselected();
      vqs, attempts := [], 0;
      EnvGood(w);
    }

    ghost predicate Coherent()
      reads sel, unsel
    {
      Inv(env, sel.projects, sel.deps, sel.foldRoots, unsel.sl)
    }

    ghost predicate AllLive()
      reads this`vqs, vqs
    {
      && Distinct(vqs)
      && forall q <- vqs :: Live(q)
    }

    ghost predicate Live(q: VersionQueue<Failure>)
      reads q`pi, q`allLoaded, q`adverr
    {
      q.Valid() && q.w == w && q.pi != [] && |q.Remaining()| < MaxDigit()
    }

    /** The queue stack lists the projects selected above the root. */
    ghost predicate Aligned()
      reads this, sel
    {
      Ids() == FirstIds(sel.projects, |sel.projects|)
    }

    ghost function Measure(): nat
      reads this, vqs
    {
      Value(Rems(), 0, |Roots(w)|, MaxDigit())
    }

    ghost function Ids(): (ids: seq<ProjectIdentifier>)
      reads this
      ensures |ids| == |vqs|
    {
      seq(|vqs|, i requires 0 <= i < |vqs| reads this => vqs[i].id)
    }

    ghost function Flags(): (flags: seq<bool>)
      reads this, vqs
      ensures |flags| == |vqs|
    {
      seq(|vqs|, i requires 0 <= i < |vqs| reads this, vqs => vqs[i].failed)
    }

    ghost function Lists(): (lists: seq<seq<Version>>)
      reads this, vqs
      ensures |lists| == |vqs|
    {
      seq(|vqs|, i requires 0 <= i < |vqs| reads this, vqs => vqs[i].Remaining())
    }

    /** The solver's state as a value. */
    ghost function Snap(mode: Mode): State
      reads this, sel, unsel, vqs
    {
      State(mode, Now(), unsel.sl, Ids(), Lists(), Flags())
    }

    ghost function Rems(): seq<nat>
      reads this, vqs
    {
      seq(|vqs|, i requires 0 <= i < |vqs| reads this, vqs => |vqs[i].Remaining()|)
    }

    ghost function MaxDigit(): nat {
      w.maxVersions + 4
    }

    method RequirementOf(a: AtomWithPackages) returns (r: Option<Requirement>)
      requires Linked()
      ensures r == env.imports(a)
    {
      r := GetImportsAndConstraintsOf(w, a);
      assert Asked(a);
    }

    // ---------------------------------------------------------------- fail

    method Fail(id: ProjectIdentifier)
      requires Distinct(vqs)
      modifies vqs`failed
      ensures Flags() == Marked(w, Ids(), old(Flags()), id)
    {
      if !w.IsRoot(id.root) {
        for i := 0 to |vqs|
          invariant Flags() == old(Flags())
          invariant IdIndex(Ids(), id) >= i
        {
          if vqs[i].id.Eq(id) {
            assert Ids()[i].Eq(id) && IdIndex(Ids(), id) == i;
            vqs[i].failed := true;
            assert Flags() == old(Flags())[i := true];
            return;
          }
        }
      }
    }

    method FailDependers(ds: seq<Dependency>)
      requires Distinct(vqs)
      modifies vqs`failed
      ensures Flags() == MarkedAll(w, Ids(), old(Flags()), ds, |ds|)
    {
      hide Marked;
      hide IdIndex;
      ghost var ids, flags := Ids(), Flags();
      for i := 0 to |ds|
        invariant Flags() == MarkedAll(w, ids, flags, ds, i) && Ids() == ids
      {
        Fail(ds[i].depender.id);
        assert Ids() == ids;
      }
    }

    // ---------------------------------------------------------------- the seven checks

    method CheckAtomAllowable(pa: Atom) returns (err: Option<Failure>)
      requires Distinct(vqs)
      modifies vqs`failed
      ensures err.None? <==> AtomAllowable(sel.deps, pa)
      ensures err.Some? ==>
        var ds := On(sel.deps, pa.id.root);
        err.value == VersionNotAllowed(pa, Rejecting(ds, |ds|, pa.v), Composite(ds, |ds|))
      ensures Flags() == if err.None? then old(Flags())
                         else MarkedAll(w, Ids(), old(Flags()), err.value.failparent, |err.value.failparent|)
    {
      var constraint := sel.GetConstraint(pa.id);
      if Matches(constraint, pa.v) { return None; }
      var deps := sel.GetDependenciesOn(pa.id);
      var failparent: seq<Dependency> := [];
      for i := 0 to |deps|
        invariant failparent == Rejecting(deps, i, pa.v)
      {
        if !Matches(deps[i].dep.wc.constraint, pa.v) { failparent := failparent + [deps[i]]; }
      }
      FailDependers(failparent);
      err := Some(VersionNotAllowed(pa, failparent, constraint));
    }

    method CheckRequiredPackagesExist(a: Atom) returns (err: Option<Failure>)
      ensures err.None? <==> RequiredPackagesExist(w, sel.deps, a)
      ensures err.Some? && err.value.ProblemPackages? ==>
        forall p :: p in err.value.failpkg <==> !w.HasPackage(a, p) && exists d <- On(sel.deps, a.id.root) ::
            p in d.dep.pl
    {
      var ptree := w.ListPackages(a);
      if ptree.None? { return Some(ListingFailed(a)); }
      var deps := sel.GetDependenciesOn(a.id);
      var fp: map<string, seq<Atom>> := map[];
      for i := 0 to |deps|
        invariant forall p :: p in fp <==> !w.HasPackage(a, p) && exists d <- deps[..i] :: p in d.dep.pl
      {
        var pl := deps[i].dep.pl;
        assert deps[..i + 1] == deps[..i] + [deps[i]];
        for j := 0 to |pl|
          invariant forall p :: p in fp <==>
                      !w.HasPackage(a, p) && (p in pl[..j] || exists d <- deps[..i] :: p in d.dep.pl)
        {
          var pkg := pl[j];
          assert forall p :: p in pl[..j + 1] <==> p in pl[..j] || p == pkg;
          if pkg in fp {
            fp := fp[pkg := fp[pkg] + [deps[i].depender]];
          } else if !(pkg in ptree.value && ptree.value[pkg]) {
            fp := fp[pkg := [deps[i].depender]];
          }
        }
        assert pl[..|pl|] == pl;
      }
      assert deps[..|deps|] == deps;
      if fp != map[] {
        var p :| p in fp;
        return Some(ProblemPackages(a, fp));
      }
      return None;
    }

    method CheckIdentMatches(a: Atom, cdep: CompleteDep) returns (err: Option<Failure>)
      requires Distinct(vqs)
      modifies vqs`failed
      ensures err.None? <==> IdentMatches(sel.deps, cdep)
      ensures var ds := On(sel.deps, a.id.root);
              Flags() == if err.None? then old(Flags()) else MarkedAll(w, Ids(), old(Flags()), ds, |ds|)
    {
      var dep := cdep.wc;
      var curid := sel.GetIdentFor(dep.ident.root);
      if curid.Some? && !curid.value.Equiv(dep.ident) {
        var deps := sel.GetDependenciesOn(a.id);
        FailDependers(deps);
        return Some(SourceMismatch(dep.ident.root, deps, curid.value.NormalizedSource(), dep.ident.NormalizedSource(),
                                   a));
      }
      return None;
    }

    method CheckRootCaseConflicts(a: Atom, cdep: CompleteDep) returns (err: Option<Failure>)
      requires Distinct(vqs)
      modifies vqs`failed
      ensures err.None? <==> NoCaseConflict(sel.w, sel.foldRoots, cdep.wc.ident.root)
      ensures err.Some? ==>
        var ds := On(sel.deps, sel.foldRoots[sel.w.fold(cdep.wc.ident.root)]);
        Flags() == MarkedAll(w, Ids(), old(Flags()), ds, |ds|)
      ensures err.None? ==> Flags() == old(Flags())
    {
      var pr := cdep.wc.ident.root;
      var current := sel.FindCaseConflicts(pr);
      if current.None? { return None; }
      var deps := On(sel.deps, current.value);
      FailDependers(deps);
      if current.value == a.id.root {
        return Some(WrongCase(pr, Dependency(a, cdep), deps));
      }
      return Some(CaseMismatch(Dependency(a, cdep), current.value, deps));
    }

    method CheckDepsConstraintsAllowable(a: Atom, cdep: CompleteDep) returns (err: Option<Failure>)
      requires Distinct(vqs)
      modifies vqs`failed
      ensures err.None? <==> ConstraintAllowable(sel.deps, cdep)
      ensures err.Some? ==>
        var ds := On(sel.deps, cdep.wc.ident.root);
        err.value == DisjointConstraint(Dependency(a, cdep), Siblings(ds, |ds|, cdep.wc.constraint, true),
                                        Siblings(ds, |ds|, cdep.wc.constraint, false), Composite(ds, |ds|))
      ensures Flags() == if err.None? then old(Flags())
                         else MarkedAll(w, Ids(), old(Flags()), err.value.deps, |err.value.deps|)
    {
      var dep := cdep.wc;
      var constraint := sel.GetConstraint(dep.ident);
      if MatchesAny(constraint, dep.constraint) { return None; }
      var siblings := sel.GetDependenciesOn(dep.ident);
      var failsib: seq<Dependency> := [];
      var nofailsib: seq<Dependency> := [];
      for i := 0 to |siblings|
        invariant failsib == Siblings(siblings, i, dep.constraint, true)
        invariant nofailsib == Siblings(siblings, i, dep.constraint, false)
      {
        if !MatchesAny(siblings[i].dep.wc.constraint, dep.constraint) {
          failsib := failsib + [siblings[i]];
        } else {
          nofailsib := nofailsib + [siblings[i]];
        }
      }
      FailDependers(failsib);
      return Some(DisjointConstraint(Dependency(a, cdep), failsib, nofailsib, constraint));
    }

    method CheckDepsDisallowsSelected(a: Atom, cdep: CompleteDep) returns (err: Option<Failure>)
      requires Distinct(vqs)
      modifies vqs`failed
      ensures err.None? <==> AllowsSelected(sel.projects, cdep)
      ensures Flags() == if err.None? then old(Flags()) else Marked(w, Ids(), old(Flags()), cdep.wc.ident)
    {
      var dep := cdep.wc;
      var selected := sel.IsSelected(dep.ident);
      if selected.Some? && !Matches(dep.constraint, selected.value.a.v) {
        Fail(dep.ident);
        return Some(ConstraintNotAllowed(Dependency(a, cdep), selected.value.a.v));
      }
      return None;
    }

    method CheckRevisionExists(a: Atom, cdep: CompleteDep) returns (err: Option<Failure>)
      ensures err.None? <==> RevisionExists(w, cdep)
    {
      var c := cdep.wc.constraint;
      if !(c.Exactly? && c.v.Revision?) { return None; }
      if w.revisionPresent(cdep.wc.ident, c.v.rev) { return None; }
      return Some(NonexistentRevision(Dependency(a, cdep), c.v.rev));
    }

    method CheckPackageImportsFromDepExist(a: Atom, cdep: CompleteDep) returns (err: Option<Failure>)
      ensures err.None? <==> ImportsExist(w, sel.projects, cdep)
      ensures err.Some? && err.value.DepProblemPackages? ==>
        && Base(sel.projects, cdep.wc.ident.root).Some?
        && err.value.prob == set p | p in cdep.pl && !w.HasPackage(Base(sel.projects, cdep.wc.ident.root).value.a, p)
    {
      var base := sel.IsSelected(cdep.wc.ident);
      if base.None? { return None; }
      var ptree := w.ListPackages(base.value.a);
      if ptree.None? { return Some(ListingFailed(base.value.a)); }
      var prob: set<string> := {};
      for i := 0 to |cdep.pl|
        invariant prob == set p | p in cdep.pl[..i] && !w.HasPackage(base.value.a, p)
      {
        assert cdep.pl[..i + 1] == cdep.pl[..i] + [cdep.pl[i]];
        if !(cdep.pl[i] in ptree.value && ptree.value[cdep.pl[i]]) { prob := prob + {cdep.pl[i]}; }
      }
      assert cdep.pl[..|cdep.pl|] == cdep.pl;
      if prob != {} {
        var p :| p in prob;
        return Some(DepProblemPackages(Dependency(a, cdep), base.value.a.v, prob));
      }
      assert forall p | p in cdep.pl && !w.HasPackage(base.value.a, p) :: p in prob;
      return None;
    }

    // ---------------------------------------------------------------- check

    ghost function Now(): View
      reads sel
    {
      View(env, sel.projects, sel.deps, sel.foldRoots)
    }

    ghost predicate Passing(a: AtomWithPackages, pkgonly: bool)
      reads sel
    {
      Now().Passing(a, pkgonly)
    }

    method CheckDep(a: Atom, dep: CompleteDep) returns (err: Option<Failure>)
      requires Distinct(vqs) && sel.w == w && env.w == w
      modifies vqs`failed
      ensures err.None? <==> DepAllowed(w, sel.projects, sel.deps, sel.foldRoots, dep)
      ensures Flags() == if err.None? then old(Flags()) else DepMarks(Now(), a, dep, Ids(), old(Flags()))
    {
      hide MarkedAll;
      hide Marked;
      hide Composite;
      err := CheckIdentMatches(a, dep);
      if err.Some? { return; }
      err := CheckRootCaseConflicts(a, dep);
      if err.Some? { return; }
      err := CheckDepsConstraintsAllowable(a, dep);
      if err.Some? { return; }
      err := CheckDepsDisallowsSelected(a, dep);
      if err.Some? { return; }
      err := CheckRevisionExists(a, dep);
      if err.Some? { return; }
      err := CheckPackageImportsFromDepExist(a, dep);
    }

    /** No error exactly when selecting the atom keeps every requirement satisfied. */
    method Check(a: AtomWithPackages, pkgonly: bool) returns (r: CheckResult)
      requires Linked() && Distinct(vqs)
      modifies vqs`failed
      ensures r.Passes? ==> !w.IsRoot(a.a.id.root) && Passing(a, pkgonly)
      ensures r.Fails? ==> if w.IsRoot(a.a.id.root) && pkgonly then !RequiredPackagesExist(w, sel.deps, a.a)
                           else w.IsRoot(a.a.id.root) || !Passing(a, pkgonly)
      ensures r.CheckCrash? ==> r.c.RootRechecked? && w.IsRoot(a.a.id.root) && RequiredPackagesExist(w, sel.deps, a.a)
      ensures if r.Fails? then CheckMarks(Now(), a, pkgonly, Ids(), old(Flags()), Flags()) else Flags() == old(Flags())
    {
      hide MarkedAll;
      hide DepMarks;
      hide DepAllowed;
      hide GoodEnv;
      ghost var flags, ids := Flags(), Ids();
      if !pkgonly {
        var err := CheckAtomAllowable(a.a);
        if err.Some? { return Fails(err.value); }
      }
      var err := CheckRequiredPackagesExist(a.a);
      if err.Some? { return Fails(err.value); }
      if w.IsRoot(a.a.id.root) { return CheckCrash(RootRechecked); }
      var req := RequirementOf(a);
      if req.None? { return Fails(ImportsFailed(a)); }
      var todo := req.value.deps.Keys;
      while todo != {}
        invariant todo <= req.value.deps.Keys
        invariant forall r <- req.value.deps.Keys - todo ::
                  DepAllowed(w, sel.projects, sel.deps, sel.foldRoots, req.value.deps[r])
        invariant Flags() == flags
      {
        var r :| r in todo;
        var e := CheckDep(a.a, req.value.deps[r]);
        if e.Some? {
          assert Refuses(Now(), a, r);
          return Fails(e.value);
        }
        todo := todo - {r};
      }
      return Passes;
    }

    // ---------------------------------------------------------------- version queues

    /** Where a queue is on the stack, if it is. */
    ghost predicate IsAt(q: VersionQueue<Failure>, at: Option<nat>)
      reads this
    {
      match at case None => q !in vqs case Some(k) => k < |vqs| && vqs[k] == q
    }

    /** Moves a queue past its current version; the mark on it, if it is on the stack, goes when
        a version follows. */
    method MoveOn(q: VersionQueue<Failure>, f: Option<Failure>, ghost at: Option<nat>) returns (adverr: bool)
      requires Distinct(vqs) && q.Valid() && q.pi != [] && IsAt(q, at)
      modifies q`pi, q`fails, q`failed, q`allLoaded, q`adverr
      ensures q.Valid() && old(q.Remaining()) != [] && q.Remaining() == old(q.Remaining())[1..]
      ensures q.fails == old(q.fails) + [FailedVersion(old(q.Remaining())[0], f)]
      ensures adverr ==> q.Remaining() == []
      ensures at.None? && !old(q.failed) ==> !q.failed
      ensures Flags() == Lifted(old(Flags()), at, q.Remaining() != [])
    {
      hide VersionQueue.Remaining;
      adverr := q.Advance(f);
    }

    /** The loop of the search: it stops at an acceptable version, or at the end of the queue. */
    method TryVersions(q: VersionQueue<Failure>, pl: seq<string>, ghost at: Option<nat>) returns (found: bool)
      requires Linked() && Distinct(vqs) && q.Valid() && q.Remaining() != [] && q.w == w && !w.IsRoot(q.id.root)
               && IsAt(q, at)
      modifies q`pi, q`fails, q`failed, q`allLoaded, q`adverr, vqs`failed
      ensures q.Valid()
      ensures Searching(Now(), q.id, pl, old(q.Remaining()), |old(q.fails)|, q.Remaining(), q.fails, Ids(), at,
                        old(Flags()), Flags())
      ensures if found then q.pi != [] && Now().Accepts(q.id, q.Remaining(), pl) else q.Remaining() == []
      ensures at.None? && !old(q.failed) ==> !q.failed
    {
      hide Linked;
      hide View.Accepts;
      hide CheckPasses;
      hide VersionQueue.Remaining;
      hide Searching;
      hide Lifted;
      hide CheckMarks;
      hide Flags;
      hide Ids;
      hide Distinct;
      ghost var view, ids, rem, flags, faillen := Now(), Ids(), q.Remaining(), Flags(), |q.fails|;
      SearchStarts(view, q.id, pl, rem, q.fails, ids, at, flags);
      while true
        invariant q.Valid() && q.Remaining() != []
        invariant Searching(view, q.id, pl, rem, faillen, q.Remaining(), q.fails, ids, at, flags, Flags())
        invariant at.None? && !old(q.failed) ==> !q.failed
        decreases |q.Remaining()|
      {
        var cur := q.Current();
        ghost var mid := Flags();
        view.AcceptsExactly(q.id, q.Remaining(), pl);
        var res := Check(AtomWithPackages(Atom(q.id, cur.value), pl), false);
        if res.Passes? { return true; }
        SearchGoesOn(view, q.id, pl, rem, faillen, q.Remaining(), q.fails, Some(res.err), ids, at, flags, mid, Flags());
        var adverr := MoveOn(q, Some(res.err), at);
        if adverr { return false; }
        var done := q.IsExhausted();
        if done { return false; }
      }
    }

    /** Tries the versions of a queue in turn and stops at the first acceptable one: every
        version passed over was tried, recorded, and is not acceptable. Nothing is found exactly
        when no version is acceptable, and the program dies exactly when the queue was empty, or
        when it finds nothing and there is no depender to blame. */
    method FindValidVersion(q: VersionQueue<Failure>, pl: seq<string>, ghost at: Option<nat>) returns (r: FindResult)
      requires Linked() && Distinct(vqs) && q.Valid() && q.w == w && !w.IsRoot(q.id.root) && IsAt(q, at)
      modifies q`pi, q`fails, q`failed, q`allLoaded, q`adverr, vqs`failed
      ensures q.Valid()
      ensures Now().Tried(q.id, pl, old(q.Remaining()), |old(q.fails)|, q.Remaining(), q.fails)
      ensures q.Remaining() == Left(Now(), q.id, old(q.Remaining()), pl)
      ensures r.Found? ==> q.pi != [] && Now().Accepts(q.id, q.Remaining(), pl)
      ensures !r.Found? ==> q.Remaining() == []
      ensures r.Found? <==> !NoneAccepted(Now(), q.id, old(q.Remaining()), pl)
      ensures r == FindCrash(EmptyVersionQueue) <==> old(q.Remaining()) == []
      ensures r == FindCrash(NoDepender) <==>
                old(q.Remaining()) != [] && On(sel.deps, q.id.root) == []
                    && NoneAccepted(Now(), q.id, old(q.Remaining()), pl)
      ensures r.FindCrash? ==> r.c == EmptyVersionQueue || r.c == NoDepender
      ensures !r.FindCrash? ==> Search(Now(), q.id, pl, old(q.Remaining()), Ids(), at, old(Flags()), Flags())
      ensures at.None? && !old(q.failed) ==> !q.failed
    {
      assert env.w == w;
      hide Linked;
      hide View.Accepts;
      hide View.Tried;
      hide VersionQueue.Remaining;
      hide Marked;
      hide Search;
      hide Searching;
      hide NoneAccepted;
      hide Left;
      hide Flags;
      hide Ids;
      hide Distinct;
      ghost var view, ids, rem, flags := Now(), Ids(), q.Remaining(), Flags();
      var faillen := |q.fails|;
      SearchStarts(view, q.id, pl, rem, q.fails, ids, at, flags);
      var current := q.Current();
      if current.None? {
        SearchEnds(view, q.id, pl, rem, faillen, [], q.fails, ids, at, flags, flags);
        return FindCrash(EmptyVersionQueue);
      }
      var found := TryVersions(q, pl, at);
      SearchEnds(view, q.id, pl, rem, faillen, q.Remaining(), q.fails, ids, at, flags, Flags());
      if found { return Found; }
      var dependers := sel.GetDependenciesOn(q.id);
      if |dependers| == 0 { return FindCrash(NoDepender); }
      Fail(dependers[0].depender.id);
      r := NoneValid(NoVersion(q.id, q.fails[faillen..]));
    }

    /** The version the root lock has for a project, unless the project may change; an invalid
        one is returned all the same. */
    method GetLockVersionIfValid(id: ProjectIdentifier) returns (r: Result<Option<Version>, Failure>)
      ensures var mayChange := id.root in w.change || w.changeAll;
              && (r.Err? <==> id.root in w.change && w.sourceExists(id) != Some(true))
              && (r.Ok? ==> r.value == if (mayChange && w.sourceExists(id) == Some(true))
                  || id.root !in w.lock then None
                                       else Some(w.lock[id.root].version))
    {
      if id.root in w.change || w.changeAll {
        if w.sourceExists(id) == Some(true) { return Ok(None); }
        if id.root in w.change { return Err(MissingSource(id)); }
      }
      if id.root !in w.lock { return Ok(None); }
      return Ok(Some(w.lock[id.root].version));
    }

    /** The version preferred by the locks of those who depend on the project. */
    method PreferredByDependers(id: ProjectIdentifier) returns (prefv: Option<Version>)
      ensures prefv == Preferred(w, On(sel.deps, id.root), |On(sel.deps, id.root)|, id)
    {
      var ds := sel.GetDependenciesOn(id);
      prefv := None;
      for i := 0 to |ds|
        invariant prefv == Preferred(w, ds, i, id)
      {
        if w.IsRoot(ds[i].depender.id.root) { continue; }
        var m := w.analysis(ds[i].depender);
        if m.None? || m.value.lock.None? { continue; }
        var lps := m.value.lock.value;
        for j := 0 to |lps|
          invariant prefv == LastLocked(lps, j, id, Preferred(w, ds, i, id))
        {
          if lps[j].ident.Eq(id) { prefv := Some(lps[j].version); }
        }
      }
    }

    /** Puts a version in front of a queue. */
    method Prepend(q: VersionQueue<Failure>, v: Version)
      requires q.Valid() && q.pi != []
      modifies q`pi
      ensures q.Valid() && q.pi != [] && q.Remaining() == [v] + old(q.Remaining())
    {
      q.pi := [v] + q.pi;
    }

    /** The queue as first assembled: the schedule of the lock, the dependers' preference and
        the list, behind the one revision that can match if a revision is demanded. */
    method AssembleQueue(bmi: Bimodal) returns (r: QueueResult)
      requires Linked() && Sourced(w, bmi.id)
      ensures r.NoQueue? <==> !Obtainable(w, On(sel.deps, bmi.id.root), bmi)
      ensures r.Ready? ==> r.q.Remaining() == Assembled(w, On(sel.deps, bmi.id.root), bmi)
      ensures r.Ready? ==>
        && fresh(r.q) && r.q.Valid() && r.q.w == w && r.q.id == bmi.id
        && |r.q.Remaining()| < MaxDigit() && r.q.fails == [] && !r.q.failed
        && (r.q.Remaining() == [] ==> w.versions(bmi.id) == Some([]))
      ensures r.QueueCrash? ==>
        r.c == EmptyVersionQueue && w.versions(bmi.id) == Some([]) && Assembled(w, On(sel.deps, bmi.id.root), bmi) == []
    {
      hide VersionQueue.Remaining;
      hide Preferred;
      hide Composite;
      hide Kept;
      var id := bmi.id;
      var lockv: Option<Version> := None;
      if |w.lock| > 0 {
        var l := GetLockVersionIfValid(id);
        if l.Err? { return NoQueue(l.error); }
        lockv := l.value;
      }
      var prefv := bmi.prefv;
      if bmi.fromRoot { prefv := PreferredByDependers(id); }
      assert lockv == LockFor(w, id);
      var nq := VersionQueue<Failure>.New(w, id, lockv, prefv);
      if nq.None? { return NoQueue(SourceError(id)); }
      var q := nq.value;
      ScheduleBound(w, id, lockv, prefv);
      assert q.Remaining() == Schedule(w, id, LockFor(w, id), prefv);
      var c := sel.GetConstraint(id);
      if c.Exactly? && c.v.Revision? {
        if |q.pi| == 0 { return QueueCrash(EmptyVersionQueue); }
        if q.pi[0] != c.v { Prepend(q, c.v); }
      }
      return Ready(q);
    }

    /** Whether there is code for a project at all: None says yes. */
    method Locate(id: ProjectIdentifier) returns (missing: Option<Failure>)
      ensures missing.None? <==> Sourced(w, id)
    {
      var known := w.sourceExists(id);
      if known.None? { return Some(SourceError(id)); }
      if !known.value {
        var vendored := w.vendorCodeExists(id);
        if vendored.None? { return Some(SourceError(id)); }
        if !vendored.value { return Some(NotLocated(id)); }
      }
      return None;
    }

    lemma QueueForIs(bmi: Bimodal)
      requires Linked()
      ensures QueueFor(Now(), bmi) == Assembled(w, On(sel.deps, bmi.id.root), bmi)
    {
      hide Assembled;
    }

    /** A queue comes back exactly when one can be had and holds an acceptable version, and it
        stands at the first of those; the program dies exactly when the queue is empty, or when
        nothing in it is acceptable and nobody depends on the project. */
    method CreateVersionQueue(bmi: Bimodal) returns (r: QueueResult)
      requires Linked() && Distinct(vqs) && !w.IsRoot(bmi.id.root)
      modifies vqs`failed
      ensures var rem := Assembled(w, On(sel.deps, bmi.id.root), bmi);
              var held := Obtainable(w, On(sel.deps, bmi.id.root), bmi);
              var none := NoneAccepted(Now(), bmi.id, rem, bmi.pl);
              && (r.Ready? <==> held && !none)
              && (r == QueueCrash(EmptyVersionQueue) <==> held && rem == [])
              && (r == QueueCrash(NoDepender) <==> held && rem != [] && none && On(sel.deps, bmi.id.root) == [])
              && (r.Ready? ==> Now().Tried(bmi.id, bmi.pl, rem, 0, r.q.Remaining(), r.q.fails))
              && (r.Ready? ==> r.q.Remaining() == Left(Now(), bmi.id, rem, bmi.pl))
              && (r.NoQueue? && held ==> rem != [] && On(sel.deps, bmi.id.root) != [])
              && (if held && !r.QueueCrash? then Search(Now(), bmi.id, bmi.pl, rem, Ids(), None, old(Flags()), Flags())
                  else !held ==> Flags() == old(Flags()))
      ensures r.QueueCrash? ==> r.c == EmptyVersionQueue || r.c == NoDepender
      ensures r.Ready? ==>
        && fresh(r.q) && r.q.Valid() && r.q.w == w && r.q.id == bmi.id && !r.q.failed
        && r.q.pi != [] && Now().Accepts(bmi.id, r.q.Remaining(), bmi.pl)
        && |r.q.Remaining()| < MaxDigit()
      ensures r == QueueCrash(EmptyVersionQueue) ==> w.versions(bmi.id) == Some([])
      ensures Obtainable(w, On(sel.deps, bmi.id.root), bmi) ==>
                StandsRight(Now(), bmi, if r.Ready? then r.q.Remaining() else [])
    {
      hide StandsRight;
      QueueForIs(bmi);
      hide QueueFor;
      hide CheckPasses;
      hide View.Accepts;
      hide View.Tried;
      hide Search;
      hide NoneAccepted;
      hide Left;
      hide Linked;
      hide Assembled;
      hide VersionQueue.Remaining;
      hide Sourced;
      var id := bmi.id;
      var missing := Locate(id);
      if missing.Some? { return NoQueue(missing.value); }
      r := AssembleQueue(bmi);
      if r.NoQueue? { return; }
      hide Obtainable;
      if !r.Ready? {
        NoneIsAccepted(Now(), id, bmi.pl);
        Stands(Now(), bmi, [], false, []);
        return;
      }
      r := SearchQueue(bmi, r.q);
    }

    /** Searches a new queue, from its start. */
    method SearchQueue(bmi: Bimodal, q: VersionQueue<Failure>) returns (r: QueueResult)
      requires Linked() && Distinct(vqs) && q.Valid() && q.w == w && !w.IsRoot(q.id.root) && q !in vqs
      requires q.id == bmi.id && q.fails == [] && !q.failed && |q.Remaining()| < MaxDigit()
      requires q.Remaining() == QueueFor(Now(), bmi)
      modifies q`pi, q`fails, q`failed, q`allLoaded, q`adverr, vqs`failed
      ensures var rem := old(q.Remaining());
              var none := NoneAccepted(Now(), bmi.id, rem, bmi.pl);
              && (r.Ready? <==> !none)
              && (r == QueueCrash(EmptyVersionQueue) <==> rem == [])
              && (r == QueueCrash(NoDepender) <==> rem != [] && none && On(sel.deps, bmi.id.root) == [])
              && (r.Ready? ==> Now().Tried(bmi.id, bmi.pl, rem, 0, r.q.Remaining(), r.q.fails))
              && (r.Ready? ==> r.q.Remaining() == Left(Now(), bmi.id, rem, bmi.pl))
              && (r.NoQueue? ==> rem != [] && On(sel.deps, bmi.id.root) != [])
              && (!r.QueueCrash? ==> Search(Now(), bmi.id, bmi.pl, rem, Ids(), None, old(Flags()), Flags()))
      ensures r.QueueCrash? ==> r.c == EmptyVersionQueue || r.c == NoDepender
      ensures r.Ready? ==>
        && r.q == q && q.Valid() && !q.failed && q.pi != [] && Now().Accepts(bmi.id, q.Remaining(), bmi.pl)
        && |q.Remaining()| < MaxDigit()
      ensures StandsRight(Now(), bmi, if r.Ready? then r.q.Remaining() else [])
    {
      hide StandsRight;
      hide QueueFor;
      hide CheckPasses;
      hide View.Accepts;
      hide View.Tried;
      hide Search;
      hide NoneAccepted;
      hide Left;
      hide Linked;
      hide VersionQueue.Remaining;
      ghost var rem := q.Remaining();
      var f := FindValidVersion(q, bmi.pl, None);
      Now().TriedShrinks(bmi.id, bmi.pl, rem, 0, q.Remaining(), q.fails);
      Stands(Now(), bmi, rem, f.Found?, q.Remaining());
      match f {
        case Found => r := Ready(q);
        case NoneValid(err) => r := NoQueue(err);
        case FindCrash(k) => r := QueueCrash(k);
      }
    }

    // ---------------------------------------------------------------- selecting

    /** Records one dependency and queues the packages nobody else demands. */
    method PushEdge(a: Atom, dep: CompleteDep, prefv: Option<Version>) returns (ghost newp: seq<string>)
      requires Distinct(dep.pl) && sel.w == w
      requires forall d <- On(sel.deps, dep.wc.ident.root) :: d.dep.wc.ident.root == dep.wc.ident.root
      modifies sel`deps, sel`foldRoots, unsel
      ensures var r := dep.wc.ident.root;
              && sel.deps == old(sel.deps)[r := On(old(sel.deps), r) + [Dependency(a, dep)]]
              && sel.foldRoots == (if On(old(sel.deps), r) == [] then old(sel.foldRoots)[w.fold(r) := r]
                                   else old(sel.foldRoots))
              && NewPackages(On(old(sel.deps), r), Dependency(a, dep), newp)
              && Queued(old(unsel.sl), unsel.sl, r, newp)
              && newp == Fresh(On(old(sel.deps), r), dep.pl)
              && multiset(unsel.sl) == multiset(old(unsel.sl)) +
                   (if newp == [] then multiset{} else multiset{Entry(On(old(sel.deps), r), dep, prefv)})
    {
      hide Demand;
      hide Times;
      hide IsDemanded;
      hide NewPackages;
      hide Distinct;
      var r := dep.wc.ident.root;
      ghost var before := On(sel.deps, r);
      sel.PushDep(Dependency(a, dep));
      var rpm := sel.GetRequiredPackagesIn(dep.wc.ident);
      var news: seq<string> := [];
      for i := 0 to |dep.pl|
        modifies {}
        invariant news == Fresh(before, dep.pl[..i])
      {
        var pkg := dep.pl[i];
        FreshStep(before, dep.pl, i);
        SoleDemanderExactly(before, Dependency(a, dep), pkg);
        if pkg in rpm && rpm[pkg] == 1 { news := news + [pkg]; }
      }
      assert dep.pl[..|dep.pl|] == dep.pl;
      FreshIsNew(before, Dependency(a, dep));
      newp := news;
      if |news| > 0 {
        var id := sel.GetIdentFor(r);
        assert id.value.root == r;
        unsel.Push(Bimodal(id.value, news, prefv, false));
      }
    }

    /** The versions an atom's own lock holds, by identifier; the last entry wins. */
    method LockMap(a: Atom) returns (lmap: map<ProjectIdentifier, Version>)
      ensures lmap == LockOf(w, a)
    {
      lmap := map[];
      var m := w.analysis(a);
      if m.None? || m.value.lock.None? { return; }
      var lps := m.value.lock.value;
      for i := 0 to |lps|
        invariant lmap == Locked(lps, i)
      {
        lmap := lmap[lps[i].ident := lps[i].version];
      }
    }

    method SelectAtom(a: AtomWithPackages, pkgonly: bool)
      requires Linked() && Coherent() && Passing(a, pkgonly)
      requires !w.IsRoot(a.a.id.root) && a.a.id.root in Roots(w) && Distinct(a.pl)
      requires match Base(sel.projects, a.a.id.root) case None => !pkgonly case Some(b) => pkgonly && b.a.v == a.a.v
      modifies sel, unsel
      ensures Coherent()
      ensures Selects(old(Now()), old(unsel.sl), a, pkgonly, Now(), unsel.sl)
      ensures sel.projects == old(sel.projects) + [Selected(a.(pl := env.imports(a).value.pl), !pkgonly)]
      ensures forall e <- unsel.sl :: e in old(unsel.sl) || Introduced(w, a.a, env.imports(a).value.deps, e)
      ensures Demanded(w, old(sel.deps)) <= Demanded(w, sel.deps)
      ensures (exists e <- old(unsel.sl) :: Names(e, a.a.id, a.pl)) ==>
                |unsel.sl| < |old(unsel.sl)| || Demanded(w, old(sel.deps)) != Demanded(w, sel.deps)
    {
      hide Inv;
      hide CheckPasses;
      hide GoodEnv;
      hide Introduced;
      hide StacksOn;
      hide Pushing;
      hide Stacking;
      hide Pushable;
      hide EdgesOf;
      hide Queued;
      hide NewPackages;
      hide Demanded;
      hide Locked;
      hide Selects;
      hide Fresh;
      hide Filed;
      ghost var view, sl := Now(), unsel.sl;
      view.PassingImports(a, pkgonly);
      unsel.Remove(a.a.id, a.pl);
      var got := RequirementOf(a);
      var req := got.value;
      var awp := a.(pl := req.pl);
      ghost var s, sl0 := Selected(awp, !pkgonly), unsel.sl;
      ghost var edges := EdgesOf(env, awp);
      view.Prepare(a, s, sl, sl0);
      PushableIsFiled(env, view.deps, view.folds, edges);
      sel.PushSelection(awp, pkgonly);
      var lmap := LockMap(a.a);
      var todo := req.deps.Keys;
      ghost var done := {};
      StackingStarts(view, a.a, edges, sl0, Now());
      while todo != {}
        invariant todo <= req.deps.Keys && done == edges.Keys - todo
        invariant sel.projects == view.projects + [s]
        invariant Stacking(view, a.a, edges, done, sl0, Now(), unsel.sl)
      {
        var r :| r in todo;
        todo := todo - {r};
        var dep := req.deps[r];
        if w.IsRoot(dep.wc.ident.root) { continue; }
        StackingOn(view, a, edges, done, sl0, Now(), unsel.sl, r);
        ghost var m, slm := Now(), unsel.sl;
        ghost var newp := PushEdge(a.a, dep, if dep.wc.ident in lmap then Some(lmap[dep.wc.ident]) else None);
        StackingStep(view, a.a, edges, done, sl0, m, slm, r, newp, Now(), unsel.sl);
        done := done + {r};
      }
      assert done == edges.Keys;
      StackingIntroduces(view, a, edges, sl, sl0, Now(), unsel.sl);
      SelectsInFull(view, sl, a, pkgonly, sl0, edges, Now(), unsel.sl);
      StackingEnds(view, a, s, sl, sl0, edges, Now(), unsel.sl);
    }

    // ---------------------------------------------------------------- unselecting

    /** Takes back one dependency; with nobody left who depends on the project, its entry goes
        from the queue, if the entry is still as it was queued. */
    method PopEdge(dep: CompleteDep)
      requires On(sel.deps, dep.wc.ident.root) != [] && sel.w == w
      modifies sel`deps, sel`foldRoots, unsel
      ensures var r := dep.wc.ident.root;
              && r in sel.deps && sel.deps == old(sel.deps)[r := sel.deps[r]]
              && (exists d :: On(old(sel.deps), r) == On(sel.deps, r) + [d])
              && sel.foldRoots == (if On(sel.deps, r) == [] then old(sel.foldRoots) - {w.fold(r)}
                                   else old(sel.foldRoots))
              && unsel.sl == (if On(sel.deps, r) == [] then Sel.Without(old(unsel.sl), dep.wc.ident, dep.pl)
                              else old(unsel.sl))
    {
      var d := sel.PopDep(dep.wc.ident);
      if sel.DepperCount(dep.wc.ident) == 0 { unsel.Remove(dep.wc.ident, dep.pl); }
    }

    method UnselectLast() returns (awp: AtomWithPackages, first: bool)
      requires Linked() && Coherent() && |sel.projects| > 1
      modifies sel, unsel
      ensures Coherent()
      ensures Unselects(old(Now()), old(unsel.sl), Now(), unsel.sl)
      ensures old(sel.projects) == sel.projects + [Selected(awp, first)]
      ensures StacksOn(env, sel.projects, Selected(awp, first))
    {
      hide Inv;
      hide GoodEnv;
      hide StacksOn;
      hide Popping;
      hide Unstacking;
      hide Unselects;
      hide EdgesOf;
      ghost var view, sl := Now(), unsel.sl;
      awp, first := sel.PopSelection();
      assert view.Top() == Selected(awp, first) && view.Front() == sel.projects;
      unsel.Push(Bimodal(awp.a.id, awp.pl, None, false));
      view.PreparePop(sl, unsel.sl);
      ghost var edges, pushed := EdgesOf(env, awp), unsel.sl;
      var got := RequirementOf(awp);
      var deps := got.value.deps;
      var todo := deps.Keys;
      ghost var left, order := edges.Keys, [];
      UnstackingStarts(view, edges, pushed, Now());
      while todo != {}
        invariant todo <= deps.Keys && left == edges.Keys * todo
        invariant sel.projects == view.Front()
        invariant Unstacking(view, edges, left, order, pushed, Now(), unsel.sl)
      {
        var r :| r in todo;
        todo := todo - {r};
        var dep := deps[r];
        if w.IsRoot(dep.wc.ident.root) {
          assert left == edges.Keys * todo;
          continue;
        }
        ghost var m, slm := Now(), unsel.sl;
        UnstackingOn(view, edges, left, order, pushed, m, slm, r);
        PopEdge(dep);
        UnstackingStep(view, edges, left, order, pushed, m, slm, r, Now(), unsel.sl);
        left, order := left - {r}, order + [r];
        assert left == edges.Keys * todo;
      }
      assert left == {};
      UnstackingEnds(view, sl, order, pushed, Now(), unsel.sl);
    }

    /** Unselects until a project goes, not merely packages of one. */
    method UnselectProject() returns (awp: AtomWithPackages)
      requires Linked() && Coherent() && FirstIds(sel.projects, |sel.projects|) != []
      modifies sel, unsel
      ensures Coherent() && 0 < |sel.projects| < |old(sel.projects)|
      ensures UnselectsProject(old(Now()), old(unsel.sl), Now(), unsel.sl)
      ensures sel.projects == old(sel.projects)[..|sel.projects|] && awp == old(sel.projects)[|sel.projects|].a
      ensures FirstIds(old(sel.projects), |old(sel.projects)|) == FirstIds(sel.projects, |sel.projects|) + [awp.a.id]
      ensures Base(sel.projects, awp.a.id.root) == None
      ensures !w.IsRoot(awp.a.id.root) && awp.a.id.root in Roots(w) && Distinct(awp.pl)
    {
      hide Inv;
      hide GoodEnv;
      hide Unselects;
      hide UnselectsProject;
      hide Descending;
      hide FirstIds;
      var proj := false;
      awp := w.RootAtom();
      ghost var view, sl := Now(), unsel.sl;
      DescendStarts(view, sl);
      while !proj
        invariant Coherent() && Descending(view, sl, proj, Now(), unsel.sl)
        invariant FirstIds(view.projects, |view.projects|) ==
                  FirstIds(sel.projects, |sel.projects|) + if proj then [awp.a.id] else []
        invariant proj ==> StacksOn(env, sel.projects, Selected(awp, true))
        invariant proj ==> |sel.projects| < |view.projects| && view.projects[|sel.projects|].a == awp
        decreases !proj, |sel.projects|
      {
        ghost var m, slm := Now(), unsel.sl;
        NoFirstIds(sel.projects);
        awp, proj := UnselectLast();
        DescendStep(view, sl, m, slm, Selected(awp, proj), Now(), unsel.sl);
        FirstIdsOneMore(sel.projects, Selected(awp, proj));
      }
      DescendEnds(view, sl, Now(), unsel.sl);
      Now().NotEmpty(unsel.sl);
    }

    // ---------------------------------------------------------------- backtracking

    /** As many queues as projects, and there is room for no more than the world has. */
    lemma QueuesFit()
      requires Linked() && Coherent() && Aligned()
      ensures |vqs| <= |Roots(w)|
      ensures DistinctRoots(Ids())
    {
      FirstIdsDistinct(env, sel.projects, |sel.projects|);
      FirstIdsStacked(env, sel.projects, |sel.projects|);
      var ids := Ids();
      var roots := seq(|ids|, i requires 0 <= i < |ids| => ids[i].root);
      forall i | 0 <= i < |ids| ensures ids[i].root in Roots(w) { assert ids[i] in ids; }
      DistinctFits(roots, Roots(w));
    }

    /** Moves a queue past its current version, to the next acceptable one. There is none exactly
        when no later version is acceptable, and then the program dies exactly when there was one
        to try and nobody depends on the project. */
    method NextVersion(q: VersionQueue<Failure>, pl: seq<string>, ghost k: nat) returns (r: FindResult)
      requires Linked() && Distinct(vqs) && Live(q) && !w.IsRoot(q.id.root) && IsAt(q, Some(k))
      modifies q`pi, q`fails, q`failed, q`allLoaded, q`adverr, vqs`failed
      ensures old(q.Remaining()) != []
      ensures var rem := old(q.Remaining())[1..];
              var none := NoneAccepted(Now(), q.id, rem, pl);
              && q.Remaining() == Left(Now(), q.id, rem, pl)
              && (r.Found? <==> !none)
              && (r.FindCrash? <==> rem != [] && none && On(sel.deps, q.id.root) == [])
              && (!r.FindCrash? ==> Moves(Now(), q.id, pl, rem, Ids(), k, old(Flags()), Flags()))
      ensures r.Found? ==> Live(q) && Now().Accepts(q.id, q.Remaining(), pl)
      ensures r.Found? ==> |q.Remaining()| < |old(q.Remaining())|
      ensures !r.Found? ==> q.Remaining() == []
      ensures r.FindCrash? ==> r.c == NoDepender
    {
      hide CheckPasses;
      hide View.Tried;
      hide View.Accepts;
      hide VersionQueue.Remaining;
      hide GoodEnv;
      hide Search;
      hide NoneAccepted;
      hide Left;
      hide Linked;
      var adverr := MoveOn(q, None, Some(k));
      var spent := q.IsExhausted();
      if adverr || spent {
        NoneIsAccepted(Now(), q.id, pl);
        return NoneValid(NoVersion(q.id, q.fails));
      }
      ghost var rem, faillen := q.Remaining(), |q.fails|;
      r := FindValidVersion(q, pl, Some(k));
      Now().TriedShrinks(q.id, pl, rem, faillen, q.Remaining(), q.fails);
    }

    /** Takes the topmost project off the stack: it is the one whose queue is on top. */
    method TakeTop() returns (awp: AtomWithPackages)
      requires Linked() && Coherent() && Aligned() && vqs != []
      modifies sel, unsel
      ensures Coherent() && awp.a.id == Ids()[|vqs| - 1]
      ensures UnselectsProject(old(Now()), old(unsel.sl), Now(), unsel.sl)
      ensures |sel.projects| < |old(sel.projects)| && awp == old(sel.projects)[|sel.projects|].a
      ensures Ids()[..|vqs| - 1] == FirstIds(sel.projects, |sel.projects|)
      ensures Base(sel.projects, awp.a.id.root) == None
      ensures !w.IsRoot(awp.a.id.root) && awp.a.id.root in Roots(w) && Distinct(awp.pl)
    {
      hide Inv;
      hide GoodEnv;
      hide UnselectsProject;
      ghost var ids := Ids();
      awp := UnselectProject();
      assert ids == ids[..|ids| - 1] + [vqs[|vqs| - 1].id];
      assert ids[..|ids| - 1] == FirstIds(sel.projects, |sel.projects|);
    }

    ghost predicate RestLive()
      reads this`vqs, vqs
    {
      Distinct(vqs) && forall i | 0 <= i < |vqs| - 1 :: Live(vqs[i])
    }

    /** The topmost queue moves on; the others stay. */
    method AdvanceTop(pl: seq<string>) returns (r: FindResult)
      requires Linked() && AllLive() && vqs != [] && !w.IsRoot(Ids()[|vqs| - 1].root)
      modifies vqs[|vqs| - 1], vqs`failed
      ensures RestLive() && (r.Found? ==> AllLive())
      ensures old(Lists())[|vqs| - 1] != []
      ensures var k, id, rem := |vqs| - 1, Ids()[|vqs| - 1], old(Lists())[|vqs| - 1][1..];
              var none := NoneAccepted(Now(), id, rem, pl);
              && Lists() == old(Lists())[..k] + [Left(Now(), id, rem, pl)]
              && (r.Found? <==> !none)
              && (r.FindCrash? <==> rem != [] && none && On(sel.deps, id.root) == [])
              && (!r.FindCrash? ==> Moves(Now(), id, pl, rem, Ids(), k, old(Flags()), Flags()))
      ensures r.Found? ==> Now().Accepts(Ids()[|vqs| - 1], Lists()[|vqs| - 1], pl)
      ensures r.Found? ==> |Lists()[|vqs| - 1]| < |old(Lists())[|vqs| - 1]|
      ensures r.FindCrash? ==> r.c == NoDepender
    {
      hide GoodEnv;
      hide CheckPasses;
      hide View.Accepts;
      hide VersionQueue.Remaining;
      hide VersionQueue.Valid;
      hide Moves;
      hide NoneAccepted;
      hide Left;
      hide Linked;
      hide Flags;
      hide Now;
      var q := vqs[|vqs| - 1];
      assert q in vqs && Live(q);
      r := NextVersion(q, pl, |vqs| - 1);
      forall i | 0 <= i < |vqs| - 1 ensures Live(vqs[i]) { assert old(Live(vqs[i])); }
    }

    /** Selects the project of the topmost queue at the version that queue stands at. */
    method SelectTop(pl: seq<string>)
      requires Linked() && Coherent() && AllLive() && vqs != []
               && Ids()[..|vqs| - 1] == FirstIds(sel.projects, |sel.projects|)
      requires var id := Ids()[|vqs| - 1];
               && Now().Accepts(id, Lists()[|vqs| - 1], pl) && Base(sel.projects, id.root).None?
               && !w.IsRoot(id.root) && id.root in Roots(w) && Distinct(pl)
      modifies sel, unsel
      ensures Coherent() && Aligned()
      ensures Lists()[|vqs| - 1] != []
      ensures Selects(old(Now()), old(unsel.sl), AtomWithPackages(Atom(Ids()[|vqs| - 1], Lists()[|vqs| - 1][0]), pl),
                      false,
                      Now(), unsel.sl)
    {
      hide Inv;
      hide GoodEnv;
      hide CheckPasses;
      hide VersionQueue.Remaining;
      hide VersionQueue.Valid;
      hide FirstIds;
      hide Selects;
      hide View.Accepts;
      var q := vqs[|vqs| - 1];
      assert q in vqs && Live(q);
      SelectCurrent(q, pl);
      assert Ids() == Ids()[..|vqs| - 1] + [q.id];
    }

    /** Takes the topmost project off the stack and tries the next versions in its queue. */
    method RetryTop() returns (r: FindResult, ghost m: View, ghost slm: seq<Bimodal>)
      requires Linked() && Coherent() && AllLive() && Aligned() && vqs != [] && Flags()[|vqs| - 1]
      modifies sel, unsel, vqs[|vqs| - 1], vqs`failed
      ensures Coherent()
      ensures RestLive() && |Lists()| == |old(Lists())| && Lists()[..|vqs| - 1] == old(Lists())[..|vqs| - 1]
      ensures r.Found? ==> Resumes(old(Snap(Failing)), m, slm, Snap(Choosing))
      ensures r.NoneValid? ==> Fruitless(old(Snap(Failing)), Now(), unsel.sl, Flags())
      ensures r.FindCrash? ==> Blameless(old(Snap(Failing)), m, slm)
      ensures r.Found? ==> AllLive() && Aligned()
      ensures r.Found? ==> Shortened(old(Lists()), Lists())
      ensures r.NoneValid? ==> Ids()[..|vqs| - 1] == FirstIds(sel.projects, |sel.projects|)
      ensures r.FindCrash? ==> r.c == NoDepender
    {
      hide Inv;
      hide GoodEnv;
      hide CheckPasses;
      hide VersionQueue.Remaining;
      hide VersionQueue.Valid;
      hide FirstIds;
      hide UnselectsProject;
      hide Selects;
      hide Moves;
      hide NoneAccepted;
      hide Left;
      hide AllLive;
      hide RestLive;
      hide Aligned;
      hide Linked;
      hide Ids;
      hide Lists;
      hide Flags;
      hide View.Accepts;
      hide Roots;
      hide Resumes;
      hide Fruitless;
      hide Blameless;
      ghost var s := Snap(Failing);
      var awp := TakeTop();
      m, slm := Now(), unsel.sl;
      r := AdvanceTop(awp.pl);
      assert Retreats(s, m, slm);
      if r.Found? {
        SelectTop(awp.pl);
        ResumesInFull(s, m, slm, awp.pl, Lists()[|vqs| - 1], Snap(Choosing));
      } else {
        FruitlessInFull(s, m, slm, awp.pl, Flags());
      }
    }

    /** Selects a project at the version its queue stands at. */
    method SelectCurrent(q: VersionQueue<Failure>, pl: seq<string>)
      requires Linked() && Coherent() && q.Valid() && q.pi != []
      requires Now().Accepts(q.id, q.Remaining(), pl) && Base(sel.projects, q.id.root).None?
      requires !w.IsRoot(q.id.root) && q.id.root in Roots(w) && Distinct(pl)
      modifies sel, unsel
      ensures Coherent()
      ensures q.Remaining() != []
      ensures Selects(old(Now()), old(unsel.sl), AtomWithPackages(Atom(q.id, q.Remaining()[0]), pl), false, Now(),
                      unsel.sl)
      ensures FirstIds(sel.projects, |sel.projects|) == FirstIds(old(sel.projects), |old(sel.projects)|) + [q.id]
    {
      hide Inv;
      hide GoodEnv;
      hide CheckPasses;
      hide VersionQueue.Remaining;
      hide VersionQueue.Valid;
      hide Selects;
      Now().NotEmpty(unsel.sl);
      var cur := Foremost(q);
      ghost var before := sel.projects;
      SelectAtom(AtomWithPackages(Atom(q.id, cur), pl), false);
      FirstIdsAppend(before, sel.projects[|before|], |before|);
    }

    /** Adds packages of a project that is selected already. */
    method SelectMore(a: AtomWithPackages)
      requires Linked() && Coherent() && Passing(a, true)
      requires !w.IsRoot(a.a.id.root) && a.a.id.root in Roots(w) && Distinct(a.pl)
      requires Base(sel.projects, a.a.id.root).Some? && Base(sel.projects, a.a.id.root).value.a.v == a.a.v
      modifies sel, unsel
      ensures Coherent()
      ensures Selects(old(Now()), old(unsel.sl), a, true, Now(), unsel.sl)
      ensures FirstIds(sel.projects, |sel.projects|) == FirstIds(old(sel.projects), |old(sel.projects)|)
      ensures Demanded(w, old(sel.deps)) <= Demanded(w, sel.deps)
      ensures (exists e <- old(unsel.sl) :: Names(e, a.a.id, a.pl)) ==>
                |unsel.sl| < |old(unsel.sl)| || Demanded(w, old(sel.deps)) != Demanded(w, sel.deps)
    {
      hide Inv;
      hide GoodEnv;
      hide CheckPasses;
      hide Demanded;
      hide Selects;
      ghost var before := sel.projects;
      SelectAtom(a, true);
      FirstIdsAppend(before, sel.projects[|before|], |before|);
    }

    method Foremost(q: VersionQueue<Failure>) returns (v: Version)
      requires q.Valid() && q.Remaining() != [] && q.pi != []
      ensures v == q.Remaining()[0]
    {
      var cur := q.Current();
      v := cur.value;
    }

    /** A queue near the bottom of the stack that moved on outweighs all that came after it. */
    lemma MeasureDrops(rems: seq<nat>)
      requires AllLive() && vqs != [] && |vqs| <= |rems| <= |Roots(w)|
      requires Rems()[..|vqs| - 1] == rems[..|vqs| - 1] && Rems()[|vqs| - 1] < rems[|vqs| - 1]
      ensures Measure() < Value(rems, 0, |Roots(w)|, MaxDigit())
    {
      hide VersionQueue.Remaining;
      hide VersionQueue.Valid;
      forall i | 0 <= i < |vqs| ensures Rems()[i] <= MaxDigit() { assert vqs[i] in vqs && Live(vqs[i]); }
      assert forall i | 0 <= i < |vqs| - 1 :: Rems()[i] == Rems()[..|vqs| - 1][i] == rems[..|vqs| - 1][i] == rems[i];
      ValueLess(Rems(), rems, 0, |vqs| - 1, |Roots(w)|, MaxDigit());
    }

    /** A new queue is smaller than a missing one. */
    lemma MeasureDropsByOne(rems: seq<nat>)
      requires AllLive() && vqs != [] && |vqs| == |rems| + 1 <= |Roots(w)|
      requires forall i | 0 <= i < |rems| :: |vqs[i].Remaining()| == rems[i]
      ensures Measure() < Value(rems, 0, |Roots(w)|, MaxDigit())
    {
      hide VersionQueue.Remaining;
      hide VersionQueue.Valid;
      forall i | 0 <= i < |vqs| ensures Rems()[i] <= MaxDigit() { assert vqs[i] in vqs && Live(vqs[i]); }
      assert Live(vqs[|rems|]);
      ValueLess(Rems(), rems, 0, |rems|, |Roots(w)|, MaxDigit());
    }

    /** The topmost of the queues left has fewer versions than before, those below it are as before. */
    static ghost predicate Shortened(lists: seq<seq<Version>>, lists': seq<seq<Version>>) {
      && lists' != [] && |lists'| <= |lists|
      && var k := |lists'| - 1;
      lists'[..k] == lists[..k] && |lists'[k]| < |lists[k]|
    }

    static ghost function Lengths(lists: seq<seq<Version>>): seq<nat> {
      seq(|lists|, i requires 0 <= i < |lists| => |lists[i]|)
    }

    lemma RemsAreLengths()
      ensures Rems() == Lengths(Lists())
    {
    }

    /** Once the queues are shortened, the measure has dropped. */
    lemma ShortenedDrops(lists: seq<seq<Version>>)
      requires AllLive() && |lists| <= |Roots(w)| && Shortened(lists, Lists())
      ensures Measure() < Value(Lengths(lists), 0, |Roots(w)|, MaxDigit())
    {
      hide Value;
      RemsAreLengths();
      var k := |vqs| - 1;
      assert Lengths(Lists())[..k] == Lengths(Lists()[..k]) && Lengths(lists)[..k] == Lengths(lists[..k]);
      MeasureDrops(Lengths(lists));
    }

    /** How many are left when backtracking has popped down to the nearest marked queue. */
    lemma NearestIs(flags: seq<bool>, n: nat)
      requires n <= |flags| && (n > 0 ==> flags[n - 1]) && forall i | n <= i < |flags| :: !flags[i]
      ensures NearestFailed(flags) == if n == 0 then None else Some(n - 1)
    {
      if n >= |flags| {
      } else {
        NearestIs(flags[..|flags| - 1], n);
      }
    }

    lemma TakeTwice(s: seq<seq<Version>>, m: nat, n: nat)
      requires n <= m <= |s|
      ensures s[..m][..n] == s[..n]
    {
    }

    /** The context was asked from `before` up to `after`, and was not done, but for the last time if
        that is what `cancelled` says. */
    predicate Polled(before: nat, after: nat, cancelled: bool) {
      && before <= after && (cancelled ==> before < after && done(after - 1))
      && forall n | before <= n < after :: done(n) ==> cancelled && n == after - 1
    }

    /** Pops queues, with their projects, down to the nearest one marked as failed. */
    method PopUnfailed(ghost run0: seq<State>, polls0: nat)
        returns (cancelled: bool, ghost run: seq<State>, polls: nat)
      requires Linked() && Coherent() && AllLive() && Aligned() && RunsTo(env, run0, Snap(Failing))
      modifies this`vqs, sel, unsel
      ensures Coherent() && AllLive() && Aligned() && run0 <= run && RunsTo(env, run, Snap(Failing))
      ensures |vqs| <= |old(vqs)| && vqs == old(vqs)[..|vqs|] && Lists() == old(Lists())[..|vqs|]
      ensures polls - polls0 == |run| - |run0| + 1
      ensures Polled(polls0, polls, cancelled)
      ensures !cancelled && vqs != [] ==> vqs[|vqs| - 1].failed
      ensures !cancelled ==> NearestFailed(old(Flags())) == if vqs == [] then None else Some(|vqs| - 1)
    {
      hide Inv;
      hide GoodEnv;
      hide VersionQueue.Remaining;
      hide VersionQueue.Valid;
      hide RunsTo;
      hide UnselectsProject;
      hide FirstIds;
      hide NearestFailed;
      ghost var flags := Flags();
      run, polls := run0, polls0;
      while true
        invariant Coherent() && Aligned() && run0 <= run && RunsTo(env, run, Snap(Failing))
        invariant |vqs| <= |old(vqs)| && vqs == old(vqs)[..|vqs|] && Lists() == old(Lists())[..|vqs|]
        invariant Polled(polls0, polls, false) && polls - polls0 == |run| - |run0|
        invariant forall i | |vqs| <= i < |flags| :: !flags[i]
        decreases |vqs|
      {
        polls := polls + 1;
        if done(polls - 1) { return true, run, polls; }
        if |vqs| == 0 {
          NearestIs(flags, 0);
          return false, run, polls;
        }
        if vqs[|vqs| - 1].failed {
          NearestIs(flags, |vqs|);
          return false, run, polls;
        }
        ghost var was := |vqs|;
        run := PopTop(run);
        TakeTwice(old(Lists()), was, |vqs|);
      }
    }

    /** Pops the topmost queue, with its project. */
    method PopTop(ghost run0: seq<State>) returns (ghost run: seq<State>)
      requires Linked() && Coherent() && Aligned() && RunsTo(env, run0, Snap(Failing))
      requires vqs != [] && !vqs[|vqs| - 1].failed
      modifies this`vqs, sel, unsel
      ensures Coherent() && Aligned() && run == run0 + [Snap(Failing)] && RunsTo(env, run, Snap(Failing))
      ensures vqs == old(vqs)[..|old(vqs)| - 1] && Lists() == old(Lists())[..|vqs|]
    {
      hide Inv;
      hide GoodEnv;
      hide VersionQueue.Remaining;
      hide VersionQueue.Valid;
      hide RunsTo;
      hide UnselectsProject;
      hide FirstIds;
      ghost var s, k := Snap(Failing), |vqs| - 1;
      vqs := vqs[..|vqs| - 1];
      assert Ids() == s.ids[..k] && Lists() == s.lists[..k] && Flags() == s.flags[..k];
      var awp := UnselectProject();
      run := run0 + [Snap(Failing)];
      PopsNow(s, Snap(Failing));
      hide Next;
      RunGrows(env, run0, s, Snap(Failing));
    }

    /** The program dies of c in the state that the run has come to. */
    ghost predicate EndsIn(run: seq<State>, c: Crash) {
      IsRun(env, run) && Dies(Last(run), c)
    }

    /** Pops the topmost queue, in which nothing was found. */
    method Discard(ghost run0: seq<State>, ghost s: State) returns (ghost run: seq<State>)
      requires vqs != [] && Distinct(vqs) && RunsTo(env, run0, s) && Fruitless(s, Now(), unsel.sl, Flags())
      requires |s.ids| == |s.lists| == |vqs| && s.ids == Ids() && s.lists[..|vqs| - 1] == Lists()[..|vqs| - 1]
      modifies this`vqs
      ensures vqs == old(vqs)[..|old(vqs)| - 1]
      ensures Ids() == s.ids[..|vqs|] && Lists() == s.lists[..|vqs|]
      ensures run == run0 + [Snap(Failing)] && RunsTo(env, run, Snap(Failing)) && JustRetired(run)
    {
      hide RunsTo;
      hide Fruitless;
      hide Retires;
      hide JustRetired;
      hide VersionQueue.Remaining;
      ghost var ids, lists, flags, k := Ids(), Lists(), Flags(), |vqs| - 1;
      vqs := vqs[..|vqs| - 1];
      assert Ids() == ids[..k] && Lists() == lists[..k] && Flags() == flags[..k];
      run := run0 + [Snap(Failing)];
      RetiresNow(s, flags, Snap(Failing));
      RunGrows(env, run0, s, Snap(Failing));
      GrownBy(env, run0, s, Snap(Failing));
    }

    /** Tries the project of the marked queue on top again, and pops the queue if none will do. */
    method RetryTurn(ghost run0: seq<State>) returns (f: FindResult, ghost run: seq<State>)
      requires Linked() && Coherent() && AllLive() && Aligned() && RunsTo(env, run0, Snap(Failing))
      requires vqs != [] && vqs[|vqs| - 1].failed
      modifies this`vqs, sel, unsel, vqs
      ensures !f.FindCrash? ==> Coherent() && AllLive() && Aligned()
      ensures f.NoneValid? ==> vqs == old(vqs)[..|old(vqs)| - 1] && Lists() == old(Lists())[..|vqs|]
      ensures !f.NoneValid? ==> vqs == old(vqs)
      ensures f.Found? ==> Shortened(old(Lists()), Lists())
      ensures run0 <= run && |run| == |run0| + if f.FindCrash? then 0 else 1
      ensures f.Found? ==> RunsTo(env, run, Snap(Choosing)) && JustResumed(run)
      ensures f.NoneValid? ==> RunsTo(env, run, Snap(Failing)) && JustRetired(run)
      ensures f.FindCrash? ==> f.c == NoDepender && EndsIn(run, NoDepender)
    {
      hide Inv;
      hide GoodEnv;
      hide VersionQueue.Remaining;
      hide VersionQueue.Valid;
      hide FirstIds;
      hide Linked;
      hide IsRun;
      hide Shortened;
      hide Retires;
      hide ResumesTo;
      hide JustRetired;
      hide JustResumed;
      assert Flags()[|vqs| - 1];
      hide Lists;
      hide Ids;
      hide Flags;
      hide Fruitless;
      hide Resumes;
      hide Blameless;
      ghost var s, k := Snap(Failing), |vqs| - 1;
      ghost var m, slm;
      f, m, slm := RetryTop();
      match f {
        case FindCrash(_) =>
          run := run0;
        case Found =>
          run := run0 + [Snap(Choosing)];
          ResumesNow(s, m, slm, Snap(Choosing));
          RunGrows(env, run0, s, Snap(Choosing));
          GrownBy(env, run0, s, Snap(Choosing));
        case NoneValid(_) =>
          run := Discard(run0, s);
      }
    }

    /** One turn of backtracking: pop down to a failed queue, try its project again, and pop
        that too if nothing in it will do. None asks for another turn. */
    method BacktrackTurn(ghost run0: seq<State>, polls0: nat)
        returns (r: Option<BacktrackResult>, ghost run: seq<State>, polls: nat)
      requires Linked() && Coherent() && AllLive() && Aligned() && RunsTo(env, run0, Snap(Failing))
      modifies this`vqs, sel, unsel, vqs
      ensures |vqs| <= |old(vqs)| && vqs == old(vqs)[..|vqs|]
      ensures r == Some(Exhausted) ==> vqs == [] && NearestFailed(old(Flags())) == None
      ensures r == Some(Resumed) ==> NearestFailed(old(Flags())) == Some(|vqs| - 1)
      ensures r.None? ==> NearestFailed(old(Flags())) == Some(|vqs|)
      ensures r.None? || r.value.Resumed? ==> Coherent() && AllLive() && Aligned()
      ensures r.None? ==> |vqs| < |old(vqs)| && Lists() == old(Lists())[..|vqs|]
      ensures r == Some(Resumed) ==> Shortened(old(Lists()), Lists())
      ensures polls - polls0 == |run| - |run0| + if r.None? || r.value.Resumed? then 0 else 1
      ensures Polled(polls0, polls, r == Some(BacktrackCancelled))
      ensures run0 <= run
      ensures r.None? ==> RunsTo(env, run, Snap(Failing)) && JustRetired(run)
      ensures r == Some(Resumed) ==> RunsTo(env, run, Snap(Choosing)) && JustResumed(run)
      ensures r == Some(Exhausted) ==> RunsTo(env, run, Snap(Failing)) && GivesUp(Snap(Failing))
      ensures r == Some(BacktrackCancelled) ==> RunsTo(env, run, Snap(Failing))
      ensures r.Some? && r.value.BacktrackCrash? ==> r.value.c == NoDepender && EndsIn(run, r.value.c)
    {
      hide Inv;
      hide GoodEnv;
      hide VersionQueue.Remaining;
      hide VersionQueue.Valid;
      hide FirstIds;
      hide Linked;
      hide NearestFailed;
      hide RunsTo;
      hide JustRetired;
      hide JustResumed;
      hide EndsIn;
      hide Polled;
      hide Lists;
      hide Ids;
      hide Flags;
      hide AllLive;
      hide Aligned;
      var cancelled;
      cancelled, run, polls := PopUnfailed(run0, polls0);
      if cancelled { return Some(BacktrackCancelled), run, polls; }
      if |vqs| == 0 { return Some(Exhausted), run, polls; }
      var f;
      f, run := RetryTurn(run);
      match f {
        case FindCrash(c) => return Some(BacktrackCrash(c)), run, polls;
        case Found => return Some(Resumed), run, polls;
        case NoneValid(_) => return None, run, polls;
      }
    }

    /** The outer loop of backtracking: it takes turns until one resumes or there is nothing left. */
    method TakeTurns(ghost run0: seq<State>, polls0: nat)
        returns (r: BacktrackResult, ghost run: seq<State>, polls: nat)
      requires Linked() && Coherent() && AllLive() && Aligned() && RunsTo(env, run0, Snap(Failing))
      modifies this`vqs, sel, unsel, vqs
      ensures |vqs| <= |old(vqs)| && vqs == old(vqs)[..|vqs|]
      ensures r.Exhausted? ==> vqs == []
      ensures r.Resumed? ==> Coherent() && AllLive() && Aligned()
      ensures r.Resumed? ==> Shortened(old(Lists()), Lists())
      ensures polls - polls0 == |run| - |run0| + if r.Resumed? then 0 else 1
      ensures Polled(polls0, polls, r.BacktrackCancelled?)
      ensures run0 <= run
      ensures r.Resumed? ==> RunsTo(env, run, Snap(Choosing))
      ensures r.Exhausted? ==> RunsTo(env, run, Snap(Failing)) && GivesUp(Snap(Failing))
      ensures r.BacktrackCancelled? ==> RunsTo(env, run, Snap(Failing))
      ensures r.BacktrackCrash? ==> r.c == NoDepender && EndsIn(run, r.c)
    {
      hide Inv;
      hide GoodEnv;
      hide VersionQueue.Remaining;
      hide VersionQueue.Valid;
      hide FirstIds;
      hide NearestFailed;
      hide Linked;
      hide RunsTo;
      hide EndsIn;
      hide JustRetired;
      hide JustResumed;
      hide Lists;
      hide Ids;
      hide Flags;
      hide AllLive;
      hide Aligned;
      ghost var lists := Lists();
      run, polls := run0, polls0;
      while true
        invariant Linked() && Coherent() && AllLive() && Aligned() && run0 <= run && RunsTo(env, run, Snap(Failing))
        invariant |vqs| <= |old(vqs)| && vqs == old(vqs)[..|vqs|]
        invariant Polled(polls0, polls, false) && polls - polls0 == |run| - |run0|
        invariant Lists() == lists[..|vqs|]
        decreases |vqs|
      {
        ghost var was := |vqs|;
        var turn;
        turn, run, polls := BacktrackTurn(run, polls);
        if turn.Some? {
          if turn.value.Resumed? { TakeTwice(lists, was, |vqs| - 1); }
          return turn.value, run, polls;
        }
        TakeTwice(lists, was, |vqs|);
      }
    }

    method CountAttempt()
      modifies this`attempts
      ensures attempts == old(attempts) + 1
      ensures Snap(Choosing) == old(Snap(Choosing)) && Aligned() == old(Aligned())
    {
      ghost var ids, lists, flags := Ids(), Lists(), Flags();
      attempts := attempts + 1;
      assert Ids() == ids && Lists() == lists && Flags() == flags;
    }

    /** Backtracking follows the run: it resumes at a later version, gives up when every queue has
        been popped, or dies where nobody is to blame. */
    method Backtrack(ghost run0: seq<State>, polls0: nat)
        returns (r: BacktrackResult, ghost run: seq<State>, polls: nat)
      requires Linked() && Coherent() && AllLive() && Aligned() && RunsTo(env, run0, Snap(Failing))
      modifies this, sel, unsel, vqs
      ensures r.Resumed? ==> Coherent() && AllLive() && Aligned()
      ensures r.Resumed? ==> Measure() < old(Measure()) && attempts == old(attempts) + 1
      ensures |vqs| <= |old(vqs)| && vqs == old(vqs)[..|vqs|]
      ensures r.Exhausted? ==> vqs == []
      ensures if r.Exhausted? then 0 <= polls - polls0 - (|run| - |run0|) <= 1
              else polls - polls0 == |run| - |run0| + if r.Resumed? then 0 else 1
      ensures Polled(polls0, polls, r.BacktrackCancelled?)
      ensures run0 <= run
      ensures r.Resumed? ==> RunsTo(env, run, Snap(Choosing))
      ensures r.Exhausted? ==> RunsTo(env, run, Snap(Failing)) && GivesUp(Snap(Failing))
      ensures r.BacktrackCancelled? ==> RunsTo(env, run, Snap(Failing))
      ensures r.BacktrackCrash? ==> r.c == NoDepender && EndsIn(run, r.c)
    {
      hide Inv;
      hide GoodEnv;
      hide Value;
      hide RunsTo;
      hide EndsIn;
      hide Lists;
      hide AllLive;
      hide Shortened;
      if |vqs| == 0 { return Exhausted, run0, polls0; }
      QueuesFit();
      RemsAreLengths();
      hide Aligned;
      hide Ids;
      hide Flags;
      hide Rems;
      r, run, polls := TakeTurns(run0, polls0);
      if r.Resumed? {
        CountAttempt();
        ShortenedDrops(old(Lists()));
      }
    }

    // ---------------------------------------------------------------- solving

    ghost predicate RootLinked() {
      RootDeps(w).Some? ==> env.rootDeps == RootDeps(w).value
    }

    /** Selects the root project and queues everything it depends on, once each. */
    method SelectRoot() returns (c: Option<Crash>)
      requires Linked() && RootLinked()
      requires sel.projects == [] && sel.deps == map[] && sel.foldRoots == map[] && unsel.sl == [] && vqs == []
      modifies sel, unsel
      ensures c.None? ==> Coherent() && Aligned() && RootDeps(w).Some?
      ensures c.None? ==> Starts(env, Snap(Choosing))
      ensures c.None? ==> forall e <- unsel.sl :: FromRoot(RootDeps(w).value, e)
      ensures c.None? ==> forall i, j | 0 <= i < j < |unsel.sl| :: unsel.sl[i].id.root != unsel.sl[j].id.root
      ensures c.None? ==> forall r <- RootDeps(w).value :: exists e <- unsel.sl :: e.id.root == r
      ensures c.Some? ==> c.value == RootUndeducible && RootDeps(w).None?
    {
      hide GoodEnv;
      hide Group;
      hide Rooting;
      hide Inv;
      hide FromRoot;
      hide Starts;
      var awp := w.RootAtom();
      sel.PushSelection(awp, false);
      var found := IntersectConstraintsWithImports(w, w.OverrideAll(w.rootManifest), w.rootImports);
      if found.None? { return Some(RootUndeducible); }
      var deps := found.value;
      assert deps == env.rootDeps;
      RootingStarts(env, Now());
      var todo := deps.Keys;
      ghost var done := {};
      while todo != {}
        invariant todo <= deps.Keys && done == deps.Keys - todo
        invariant sel.projects == [Selected(awp, true)]
        invariant Rooting(env, done, Now(), unsel.sl)
      {
        var r :| r in todo;
        todo := todo - {r};
        ghost var m, slm := Now(), unsel.sl;
        RootingOn(env, done, m, slm, r);
        sel.PushDep(Dependency(awp.a, deps[r]));
        unsel.Push(Bimodal(deps[r].wc.ident, deps[r].pl, None, true));
        RootingStep(env, done, m, slm, r, Now(), unsel.sl);
        done := done + {r};
      }
      assert done == deps.Keys;
      RootStarts(env, Snap(Choosing));
      StartsOnceEach(env, Snap(Choosing));
      return None;
    }

    /** Selects a project at the version its new queue has come to, and stacks the queue. */
    method Install(queue: VersionQueue<Failure>, bmi: Bimodal)
      requires Linked() && Coherent() && AllLive() && Aligned()
      requires bmi in unsel.sl && Base(sel.projects, bmi.id.root) == None
      requires Live(queue) && queue !in vqs && queue.id == bmi.id && Now().Accepts(queue.id, queue.Remaining(), bmi.pl)
      modifies this`vqs, sel, unsel
      ensures Coherent() && AllLive() && Aligned()
      ensures vqs == old(vqs) + [queue] && Measure() < old(Measure())
      ensures queue.Remaining() != []
      ensures Selects(old(Now()), old(unsel.sl), AtomWithPackages(Atom(bmi.id, queue.Remaining()[0]), bmi.pl), false,
                      Now(), unsel.sl)
      ensures Ids() == old(Ids()) + [bmi.id] && Lists() == old(Lists()) + [queue.Remaining()]
      ensures Flags() == old(Flags()) + [queue.failed]
    {
      hide Inv;
      hide GoodEnv;
      hide CheckPasses;
      hide VersionQueue.Remaining;
      hide VersionQueue.Valid;
      hide Value;
      hide Selects;
      Now().EntryGood(unsel.sl, bmi);
      hide FirstIds;
      ghost var rems, ids, lists, flags := Rems(), Ids(), Lists(), Flags();
      SelectCurrent(queue, bmi.pl);
      vqs := vqs + [queue];
      assert Ids() == ids + [queue.id] && Lists() == lists + [queue.Remaining()] && Flags() == flags + [queue.failed];
      QueuesFit();
      MeasureDropsByOne(rems);
    }

    /** Marking queues changes neither what they hold nor which there are. */
    twostate lemma OnlyMarked()
      requires vqs == old(vqs)
      requires forall q <- vqs :: q.pi == old(q.pi) && q.allLoaded == old(q.allLoaded) && q.adverr == old(q.adverr)
      ensures Ids() == old(Ids()) && Lists() == old(Lists()) && Rems() == old(Rems()) && (old(AllLive()) ==> AllLive())
    {
    }

    /** Analysis path for a project not yet selected: find a version and select it. */
    method SelectNew(bmi: Bimodal) returns (r: StepResult)
      requires Linked() && Coherent() && AllLive() && Aligned()
      requires unsel.sl != [] && bmi == unsel.sl[0] && Base(sel.projects, bmi.id.root) == None
      modifies this`vqs, sel, unsel, vqs`failed
      ensures !r.StepCrash? ==> Coherent() && AllLive() && Aligned()
      ensures r.Advanced? ==> Measure() < old(Measure())
      ensures r.Stuck? ==> Measure() == old(Measure())
      ensures vqs == old(vqs) || (|vqs| > 0 && vqs[..|vqs| - 1] == old(vqs) && fresh(vqs[|vqs| - 1]))
      ensures r.Advanced? ==> SelectsNew(old(Snap(Choosing)), bmi, Snap(Choosing))
      ensures r.Stuck? ==> FindsNone(old(Snap(Choosing)), bmi, Snap(Failing))
      ensures r.StepCrash? ==> Dies(old(Snap(Choosing)), r.c) && (r.c == NoDepender || r.c == EmptyVersionQueue)
      ensures r == StepCrash(EmptyVersionQueue) ==> w.versions(bmi.id) == Some([])
    {
      hide Inv;
      hide GoodEnv;
      hide CheckPasses;
      hide VersionQueue.Remaining;
      hide VersionQueue.Valid;
      hide Value;
      hide FirstIds;
      hide Selects;
      hide Search;
      hide Left;
      hide NoneAccepted;
      hide Obtainable;
      hide Assembled;
      hide SelectsNew;
      hide FindsNone;
      Now().EntryGood(unsel.sl, bmi);
      hide Lists;
      hide Rems;
      hide Ids;
      hide Flags;
      hide AllLive;
      hide Aligned;
      ghost var s := Snap(Choosing);
      var qr := CreateVersionQueue(bmi);
      OnlyMarked();
      if qr.QueueCrash? { return StepCrash(qr.c); }
      if qr.NoQueue? {
        FindsNoneInFull(s, bmi, Snap(Failing));
        return StepResult.Stuck(qr.err);
      }
      ghost var flags := Flags();
      Install(qr.q, bmi);
      SelectsNewInFull(s, bmi, flags, Snap(Choosing));
      r := Advanced;
    }

    /** Analysis path for more packages of a project already selected. */
    method AddPackages(bmi: Bimodal, awp: AtomWithPackages) returns (r: StepResult)
      requires Linked() && Coherent() && AllLive() && Aligned()
      requires unsel.sl != [] && bmi == unsel.sl[0] && Base(sel.projects, bmi.id.root) == Some(awp)
      modifies sel, unsel, vqs`failed
      ensures !r.StepCrash? ==> Coherent() && AllLive() && Aligned()
      ensures Measure() == old(Measure())
      ensures r.Advanced? ==> Demanded(w, old(sel.deps)) <= Demanded(w, sel.deps)
      ensures r.Advanced? ==> |unsel.sl| < |old(unsel.sl)| || Demanded(w, old(sel.deps)) != Demanded(w, sel.deps)
      ensures r.Advanced? ==> AddsPackages(old(Snap(Choosing)), bmi, Snap(Choosing))
      ensures r.Stuck? ==> RefusesPackages(old(Snap(Choosing)), bmi, Snap(Failing))
      ensures r.StepCrash? ==> r.c == RootRechecked && Dies(old(Snap(Choosing)), r.c) && w.rootRoot in env.rootDeps
    {
      hide Inv;
      hide GoodEnv;
      hide CheckPasses;
      hide VersionQueue.Remaining;
      hide VersionQueue.Valid;
      hide Value;
      hide Demanded;
      hide FirstIds;
      hide Selects;
      hide CheckMarks;
      hide RequiredPackagesExist;
      Now().EntryGood(unsel.sl, bmi);
      hide Lists;
      hide Rems;
      hide Ids;
      hide Flags;
      hide AllLive;
      ghost var s, rems := Snap(Choosing), Rems();
      var nawp := AtomWithPackages(Atom(bmi.id, awp.a.v), bmi.pl);
      var c := Check(nawp, true);
      OnlyMarked();
      if c.CheckCrash? { return StepCrash(c.c); }
      if c.Fails? { return StepResult.Stuck(c.err); }
      assert Names(bmi, nawp.a.id, nawp.pl);
      SelectMore(nawp);
      assert Rems() == rems && Snap(Choosing) == s.(view := Now(), sl := unsel.sl);
      r := Advanced;
    }

    /** How much is left to do, most significant part first; see `Step`. */
    ghost function Undemanded(): nat
      reads sel
    {
      |w.universe - Demanded(w, sel.deps)|
    }

    lemma DemandGrows(before: set<(ProjectRoot, string)>)
      requires before <= Demanded(w, sel.deps)
      ensures Undemanded() <= |w.universe - before|
      ensures before != Demanded(w, sel.deps) ==> Undemanded() < |w.universe - before|
    {
      var now := Demanded(w, sel.deps);
      var fewer, more := w.universe - now, w.universe - before;
      assert now <= w.universe && fewer <= more;
      assert more == fewer + (now - before);
    }

    /** Where each of the crashes comes from: the state that the run has come to, and the world. */
    ghost predicate Explained(run: seq<State>, c: Crash) {
      match c
      case NoDepender => EndsIn(run, c)
      case EmptyVersionQueue => EndsIn(run, c) && exists id :: w.versions(id) == Some([])
      case RootRechecked => EndsIn(run, c) && w.rootRoot in env.rootDeps
      case RootUndeducible => RootDeps(w).None?
    }

    /** Takes up the entry at the head of the queue. */
    method TakeUp(ghost run0: seq<State>) returns (r: StepResult, ghost run: seq<State>)
      requires Linked() && Coherent() && AllLive() && Aligned() && unsel.sl != [] && RunsTo(env, run0, Snap(Choosing))
      modifies this`vqs, sel, unsel, vqs`failed
      ensures !r.StepCrash? ==> Coherent() && AllLive() && Aligned()
      ensures r.Advanced? ==>
        || Measure() < old(Measure())
        || (Measure() == old(Measure()) && Undemanded() < old(Undemanded()))
        || (Measure() == old(Measure()) && Undemanded() == old(Undemanded()) && |unsel.sl| < |old(unsel.sl)|)
      ensures r.Stuck? ==> Measure() == old(Measure())
      ensures forall i | 0 <= i < |vqs| :: vqs[i] in old(vqs) || fresh(vqs[i])
      ensures run0 <= run && |run| == |run0| + if r.StepCrash? then 0 else 1
      ensures r.Advanced? ==> |run0| < |run| && RunsTo(env, run, Snap(Choosing))
      ensures r.Stuck? ==> |run0| < |run| && RunsTo(env, run, Snap(Failing))
      ensures r.StepCrash? ==> Explained(run, r.c)
    {
      hide Inv;
      hide GoodEnv;
      hide VersionQueue.Remaining;
      hide VersionQueue.Valid;
      hide Value;
      hide FirstIds;
      hide Demanded;
      hide SelectsNew;
      hide FindsNone;
      hide AddsPackages;
      hide RefusesPackages;
      hide IsRun;
      hide Dies;
      var bmi := unsel.sl[0];
      ghost var s, before := Snap(Choosing), Demanded(w, sel.deps);
      var awp := sel.IsSelected(bmi.id);
      if awp.None? {
        r := SelectNew(bmi);
      } else {
        r := AddPackages(bmi, awp.value);
        if r.Advanced? { DemandGrows(before); }
      }
      ghost var s' := Snap(if r.Advanced? then Choosing else Failing);
      run := run0;
      if !r.StepCrash? {
        RunGrows(env, run0, s, s');
        run := run0 + [s'];
      }
    }

    /** One turn of the main loop, with the backtracking it may lead to. None asks for another
        turn, and then some part of the measure has gone down and no more significant part up. */
    method Step(ghost run0: seq<State>, polls0: nat)
        returns (o: Option<Outcome>, ghost run: seq<State>, polls: nat)
      requires Linked() && Coherent() && AllLive() && Aligned() && unsel.sl != [] && RunsTo(env, run0, Snap(Choosing))
      modifies this, sel, unsel, vqs
      ensures o.None? ==> Coherent() && AllLive() && Aligned()
      ensures o.None? ==>
        || Measure() < old(Measure())
        || (Measure() == old(Measure()) && Undemanded() < old(Undemanded()))
        || (Measure() == old(Measure()) && Undemanded() == old(Undemanded()) && |unsel.sl| < |old(unsel.sl)|)
      ensures forall i | 0 <= i < |vqs| :: vqs[i] in old(vqs) || fresh(vqs[i])
      ensures match o
              case None => polls - polls0 == |run| - |run0| - 1
              case Some(Unsolvable(_)) => 0 <= |run| - |run0| - (polls - polls0) <= 1
              case Some(_) => polls - polls0 == |run| - |run0|
      ensures Polled(polls0, polls, o == Some(Cancelled))
      ensures run0 <= run
      ensures o.None? ==> |run0| < |run| && RunsTo(env, run, Snap(Choosing))
      ensures o.Some? ==> !o.value.Solved?
      ensures o.Some? && o.value.Crashed? ==> Explained(run, o.value.c)
      ensures o == Some(Cancelled) ==> IsRun(env, run)
      ensures o.Some? && o.value.Unsolvable? ==> vqs == [] && RunsTo(env, run, Snap(Failing)) && GivesUp(Snap(Failing))
    {
      hide Inv;
      hide GoodEnv;
      hide VersionQueue.Remaining;
      hide VersionQueue.Valid;
      hide Value;
      hide FirstIds;
      hide Demanded;
      hide RunsTo;
      hide EndsIn;
      polls := polls0;
      var r;
      r, run := TakeUp(run0);
      match r {
        case Advanced => return None, run, polls;
        case StepCrash(c) => return Some(Crashed(c)), run, polls;
        case Stuck(err) =>
          var b;
          b, run, polls := Backtrack(run, polls0);
          match b {
            case Resumed => return None, run, polls;
            case Exhausted => return Some(Unsolvable(err)), run, polls;
            case BacktrackCancelled =>
              RunsToIsRun(env, run, Snap(Failing));
              return Some(Cancelled), run, polls;
            case BacktrackCrash(c) => return Some(Crashed(c)), run, polls;
          }
      }
    }

    /** Combines the stack, the root aside, into one set of packages per atom. */
    method Combine() returns (projs: map<Atom, set<string>>)
      requires sel.projects != []
      ensures projs == Solution(sel.projects, |sel.projects|)
    {
      projs := map[];
      for i := 1 to |sel.projects|
        invariant projs == Solution(sel.projects, i)
      {
        var s := sel.projects[i];
        var pm: set<string> := {};
        if s.a.a in projs { pm := projs[s.a.a]; }
        for j := 0 to |s.a.pl|
          invariant pm == Packages(projs, s.a.a) + Elements(s.a.pl[..j])
        {
          assert s.a.pl[..j + 1] == s.a.pl[..j] + [s.a.pl[j]];
          pm := pm + {s.a.pl[j]};
        }
        assert s.a.pl[..|s.a.pl|] == s.a.pl;
        projs := projs[s.a.a := pm];
      }
    }

    /** The main loop. None says that nothing is left to select. */
    method Choose(ghost run0: seq<State>) returns (o: Option<Outcome>, ghost run: seq<State>, polls: nat)
      requires Linked() && Coherent() && Aligned() && vqs == [] && RunsTo(env, run0, Snap(Choosing))
      modifies this, sel, unsel
      requires |run0| == 1
      ensures Polled(0, polls, o == Some(Cancelled))
      ensures if o.Some? && o.value.Unsolvable? then |run| - 1 <= polls <= |run| else polls == |run|
      ensures o.None? ==> Coherent() && unsel.sl == [] && RunsTo(env, run, Snap(Choosing))
      ensures o.Some? ==> !o.value.Solved?
      ensures o.Some? && o.value.Crashed? ==> Explained(run, o.value.c)
      ensures o == Some(Cancelled) ==> IsRun(env, run)
      ensures o.Some? && o.value.Unsolvable? ==> vqs == [] && RunsTo(env, run, Snap(Failing)) && GivesUp(Snap(Failing))
    {
      hide Inv;
      hide GoodEnv;
      hide VersionQueue.Remaining;
      hide VersionQueue.Valid;
      hide Value;
      hide FirstIds;
      hide Demanded;
      hide RunsTo;
      hide Explained;
      hide Lists;
      hide Flags;
      hide Aligned;
      hide Polled;
      run, polls := run0, 0;
      NotPolled();
      while true
        invariant Coherent() && AllLive() && Aligned() && RunsTo(env, run, Snap(Choosing))
        invariant forall i | 0 <= i < |vqs| :: fresh(vqs[i])
        invariant Polled(0, polls, false) && polls == |run| - 1
        decreases Measure(), Undemanded(), |unsel.sl|
      {
        polls := polls + 1;
        PolledOnce(0, polls);
        if done(polls - 1) {
          RunsToIsRun(env, run, Snap(Choosing));
          return Some(Cancelled), run, polls;
        }
        if |unsel.sl| == 0 { return None, run, polls; }
        ghost var asked := polls;
        o, run, polls := Step(run, polls);
        PolledOn(0, asked, polls, o == Some(Cancelled));
        if o.Some? { return; }
      }
    }

    lemma NotPolled()
      ensures Polled(0, 0, false)
    {
    }

    lemma PolledOnce(before: nat, after: nat)
      requires after > 0 && Polled(before, after - 1, false)
      ensures Polled(before, after, done(after - 1))
    {
    }

    lemma PolledOn(before: nat, between: nat, after: nat, cancelled: bool)
      requires Polled(before, between, false) && Polled(between, after, cancelled)
      ensures Polled(before, after, cancelled)
    {
    }

    /** The whole solving run, with the states it passes through. It always ends: in a solution,
        which is complete; where backtracking has popped every queue; or where `Explained` says. */
    method Solve() returns (o: Outcome, ghost run: seq<State>, polls: nat)
      requires Linked() && RootLinked()
      requires sel.projects == [] && sel.deps == map[] && sel.foldRoots == map[] && unsel.sl == [] && vqs == []
      modifies this, sel, unsel
      ensures Polled(0, polls, o.Cancelled?)
      ensures if o.Unsolvable? then |run| - 1 <= polls <= |run| else polls == |run|
      ensures o.Solved? ==>
        && RootDeps(w).Some?
        && WellStacked(env, sel.projects) && Complete(env, sel.projects)
        && o.projs == Solution(sel.projects, |sel.projects|)
        && RunsTo(env, run, Snap(Choosing)) && unsel.sl == []
      ensures o.Crashed? ==> Explained(run, o.c)
      ensures o.Cancelled? ==> IsRun(env, run)
      ensures o.Unsolvable? ==> vqs == [] && RunsTo(env, run, Snap(Failing)) && GivesUp(Snap(Failing))
    {
      hide Inv;
      hide GoodEnv;
      hide VersionQueue.Remaining;
      hide VersionQueue.Valid;
      hide FirstIds;
      hide Polled;
      hide RunsTo;
      hide EndsIn;
      hide Starts;
      hide Lists;
      hide Flags;
      hide Aligned;
      hide Complete;
      hide WellStacked;
      var c := SelectRoot();
      if c.Some? {
        NotPolled();
        return Crashed(c.value), [], 0;
      }
      hide Explained;
      RunStarts(env, Snap(Choosing));
      var chosen;
      chosen, run, polls := Choose([Snap(Choosing)]);
      if chosen.Some? { return chosen.value, run, polls; }
      Now().EmptyQueueIsComplete();
      var projs := Combine();
      return Solved(projs), run, polls;
    }
  }
}
