/** The solving run as a chain of states: what one turn of the main loop, and one turn of
    backtracking, does to the selection, the queue of unselected work and the stack of version
    queues, and where a run ends. The methods of the solver are proved to follow it. */
module SolverRuns {
  import opened Wrappers
  import opened Strings
  import opened Versions
  import opened Bridge
  import opened Requirements
  import opened VersionQueues
  import Sel = Selection
  import opened Selection
  import opened SolverInvariant
  import opened SolverSteps
  import opened SolverViews

  // ---------------------------------------------------------------- the marks that checks leave

  /** The failure marks after a dependency was refused. */
  ghost function DepMarks(v: View, a: Atom, dep: CompleteDep, ids: seq<ProjectIdentifier>, flags: seq<bool>): seq<bool>
  {
    var w, r := v.env.w, dep.wc.ident.root;
    var ds := On(v.deps, r);
    if !IdentMatches(v.deps, dep) then MarkedAll(w, ids, flags, On(v.deps, a.id.root), |On(v.deps, a.id.root)|)
    else if !NoCaseConflict(w, v.folds, r) then
      var current := On(v.deps, v.folds[w.fold(r)]);
      MarkedAll(w, ids, flags, current, |current|)
    else if !ConstraintAllowable(v.deps, dep) then
      var siblings := Siblings(ds, |ds|, dep.wc.constraint, true);
      MarkedAll(w, ids, flags, siblings, |siblings|)
    else if !AllowsSelected(v.projects, dep) then Marked(w, ids, flags, dep.wc.ident)
    else flags
  }

  ghost predicate Refuses(v: View, a: AtomWithPackages, r: ProjectRoot) {
    && v.env.imports(a).Some? && r in v.env.imports(a).value.deps
    && !DepAllowed(v.env.w, v.projects, v.deps, v.folds, v.env.imports(a).value.deps[r])
  }

  /** The failure marks after `check`: those of the condition that failed first, or of one of the
      dependencies that failed; none for an atom that passes. */
  ghost predicate CheckMarks(v: View, a: AtomWithPackages, pkgonly: bool, ids: seq<ProjectIdentifier>,
                             flags: seq<bool>, flags': seq<bool>)
  {
    var w, ds := v.env.w, On(v.deps, a.a.id.root);
    if !pkgonly && !AtomAllowable(v.deps, a.a) then
      flags' == MarkedAll(w, ids, flags, Rejecting(ds, |ds|, a.a.v), |Rejecting(ds, |ds|, a.a.v)|)
    else if !RequiredPackagesExist(w, v.deps, a.a) || w.IsRoot(a.a.id.root) then flags' == flags
    else if exists r :: Refuses(v, a, r) then
      exists r :: Refuses(v, a, r) && flags' == DepMarks(v, a.a, v.env.imports(a).value.deps[r], ids, flags)
    else flags' == flags
  }

  /** A check marks queues and lifts no mark. */
  lemma CheckMarksGrow(v: View, a: AtomWithPackages, pkgonly: bool, ids: seq<ProjectIdentifier>, flags: seq<bool>,
                       flags': seq<bool>)
    requires CheckMarks(v, a, pkgonly, ids, flags, flags')
    ensures |flags'| == |flags| && forall i | 0 <= i < |flags| :: flags[i] ==> flags'[i]
  {
    var rejecting := Rejecting(On(v.deps, a.a.id.root), |On(v.deps, a.a.id.root)|, a.a.v);
    MarksOnlyGrow(v.env.w, ids, flags, rejecting, |rejecting|);
    forall r | Refuses(v, a, r)
      ensures var marks := DepMarks(v, a.a, v.env.imports(a).value.deps[r], ids, flags);
              |marks| == |flags| && forall i | 0 <= i < |flags| :: flags[i] ==> marks[i]
    {
      DepMarksGrow(v, a.a, v.env.imports(a).value.deps[r], ids, flags);
    }
    hide MarkedAll;
    hide DepMarks;
    hide Rejecting;
    hide AtomAllowable;
    hide RequiredPackagesExist;
    hide Refuses;
  }

  lemma DepMarksGrow(v: View, a: Atom, dep: CompleteDep, ids: seq<ProjectIdentifier>, flags: seq<bool>)
    ensures var marks := DepMarks(v, a, dep, ids, flags);
            |marks| == |flags| && forall i | 0 <= i < |flags| :: flags[i] ==> marks[i]
  {
    hide MarkedAll;
    hide Composite;
    var w, ds := v.env.w, On(v.deps, dep.wc.ident.root);
    MarksOnlyGrow(w, ids, flags, On(v.deps, a.id.root), |On(v.deps, a.id.root)|);
    if !NoCaseConflict(w, v.folds, dep.wc.ident.root) {
      var current := On(v.deps, v.folds[w.fold(dep.wc.ident.root)]);
      MarksOnlyGrow(w, ids, flags, current, |current|);
    }
    var siblings := Siblings(ds, |ds|, dep.wc.constraint, true);
    MarksOnlyGrow(w, ids, flags, siblings, |siblings|);
  }

  // ---------------------------------------------------------------- searching a version queue

  /** What is left of a queue from the first acceptable version on. */
  ghost function Left(v: View, id: ProjectIdentifier, rem: seq<Version>, pl: seq<string>): seq<Version> {
    if rem == [] || v.Accepts(id, rem, pl) then rem else Left(v, id, rem[1..], pl)
  }

  /** No version in the queue is acceptable. */
  ghost predicate NoneAccepted(v: View, id: ProjectIdentifier, rem: seq<Version>, pl: seq<string>) {
    forall i | 0 <= i < |rem| :: !v.Accepts(id, rem[i..], pl)
  }

  /** The search stops at the first acceptable version, or at the end. */
  lemma {:induction false} LeftIs(v: View, id: ProjectIdentifier, rem: seq<Version>, pl: seq<string>, n: nat)
    requires n <= |rem|
    requires forall i | 0 <= i < n :: !v.Accepts(id, rem[i..], pl)
    requires n < |rem| ==> v.Accepts(id, rem[n..], pl)
    ensures Left(v, id, rem, pl) == rem[n..]
  {
    hide View.Accepts;
    if n == 0 {
      assert rem[0..] == rem;
    } else {
      assert rem[0..] == rem && !v.Accepts(id, rem[0..], pl);
      forall i | 0 <= i < n - 1 ensures !v.Accepts(id, rem[1..][i..], pl) { assert rem[1..][i..] == rem[i + 1..]; }
      assert rem[1..][n - 1..] == rem[n..];
      LeftIs(v, id, rem[1..], pl, n - 1);
    }
  }

  lemma {:induction false} LeftIsSuffix(v: View, id: ProjectIdentifier, rem: seq<Version>, pl: seq<string>)
      returns (n: nat)
    ensures n <= |rem| && Left(v, id, rem, pl) == rem[n..]
    ensures forall i | 0 <= i < n :: !v.Accepts(id, rem[i..], pl)
    ensures n < |rem| ==> v.Accepts(id, rem[n..], pl)
  {
    hide View.Accepts;
    assert rem[0..] == rem;
    if rem == [] || v.Accepts(id, rem, pl) {
      n := 0;
    } else {
      var m := LeftIsSuffix(v, id, rem[1..], pl);
      n := m + 1;
      forall i | 0 <= i <= m ensures rem[1..][i..] == rem[i + 1..] { }
      forall i | 0 < i < n ensures !v.Accepts(id, rem[i..], pl) { assert rem[1..][i - 1..] == rem[i..]; }
    }
  }

  lemma LeftIsEmptyExactly(v: View, id: ProjectIdentifier, rem: seq<Version>, pl: seq<string>)
    ensures Left(v, id, rem, pl) == [] <==> NoneAccepted(v, id, rem, pl)
  {
    hide View.Accepts;
    hide Left;
    var n := LeftIsSuffix(v, id, rem, pl);
  }

  lemma NoneIsAccepted(v: View, id: ProjectIdentifier, pl: seq<string>)
    ensures NoneAccepted(v, id, [], pl) && Left(v, id, [], pl) == []
  {
  }

  /** Moving on to a next version lifts the mark of the queue, if that is on the stack. */
  ghost function Lifted(flags: seq<bool>, at: Option<nat>, more: bool): seq<bool> {
    if more && at.Some? && at.value < |flags| then flags[at.value := false] else flags
  }

  /** The marks that refusing the n-th version leaves. */
  ghost predicate Refused(v: View, id: ProjectIdentifier, pl: seq<string>, rem: seq<Version>, n: nat,
                          ids: seq<ProjectIdentifier>, flags: seq<bool>, flags': seq<bool>)
    requires 0 < n <= |rem|
  {
    CheckMarks(v, AtomWithPackages(Atom(id, rem[n - 1]), pl), false, ids, flags, flags')
  }

  /** The marks after the n-th version was refused and passed over. */
  ghost predicate PassedOver(v: View, id: ProjectIdentifier, pl: seq<string>, rem: seq<Version>, n: nat,
                             ids: seq<ProjectIdentifier>, at: Option<nat>, flags: seq<bool>, flags': seq<bool>)
    requires 0 < n <= |rem|
  {
    exists checked :: Refused(v, id, pl, rem, n, ids, flags, checked) && flags' == Lifted(checked, at, n < |rem|)
  }

  /** The marks after the first n versions of a queue were refused and passed over. */
  ghost predicate Searched(v: View, id: ProjectIdentifier, pl: seq<string>, rem: seq<Version>, n: nat,
                           ids: seq<ProjectIdentifier>, at: Option<nat>, flags: seq<bool>, flags': seq<bool>)
    requires n <= |rem|
  {
    if n == 0 then flags' == flags
    else
      exists mid ::
        && Searched(v, id, pl, rem, n - 1, ids, at, flags, mid)
        && PassedOver(v, id, pl, rem, n, ids, at, mid, flags')
  }

  /** The marks after `findValidVersion`: those of the search, and when it finds nothing also the
      queue of the first atom that depends on the project. */
  ghost predicate Search(v: View, id: ProjectIdentifier, pl: seq<string>, rem: seq<Version>,
                         ids: seq<ProjectIdentifier>, at: Option<nat>, flags: seq<bool>, flags': seq<bool>)
  {
    exists n, mid ::
      && 0 <= n <= |rem| && Left(v, id, rem, pl) == rem[n..]
      && Searched(v, id, pl, rem, n, ids, at, flags, mid)
      && flags' == Blamed(v, id, n < |rem|, ids, mid)
  }

  ghost function Blamed(v: View, id: ProjectIdentifier, found: bool, ids: seq<ProjectIdentifier>,
                        flags: seq<bool>): seq<bool>
  {
    var ds := On(v.deps, id.root);
    if found || ds == [] then flags else Marked(v.env.w, ids, flags, ds[0].depender.id)
  }

  /** A search under way: `now` is left of `rem`, the versions passed over are recorded behind the
      first `faillen` failures, and the marks have gone from flags to flags'. */
  ghost predicate Searching(v: View, id: ProjectIdentifier, pl: seq<string>, rem: seq<Version>, faillen: nat,
                            now: seq<Version>, fails: seq<FailedVersion<Failure>>,
                            ids: seq<ProjectIdentifier>, at: Option<nat>, flags: seq<bool>, flags': seq<bool>)
  {
    && faillen <= |fails| && v.Tried(id, pl, rem, faillen, now, fails)
    && |now| <= |rem| && Searched(v, id, pl, rem, |rem| - |now|, ids, at, flags, flags')
  }

  lemma SearchStarts(v: View, id: ProjectIdentifier, pl: seq<string>, rem: seq<Version>,
                     fails: seq<FailedVersion<Failure>>,
                     ids: seq<ProjectIdentifier>, at: Option<nat>, flags: seq<bool>)
    ensures Searching(v, id, pl, rem, |fails|, rem, fails, ids, at, flags, flags)
  {
    v.TriedNone(id, pl, rem, fails);
  }

  lemma SearchedOneMore(v: View, id: ProjectIdentifier, pl: seq<string>, rem: seq<Version>, n: nat,
                        ids: seq<ProjectIdentifier>, at: Option<nat>, flags: seq<bool>, mid: seq<bool>,
                            checked: seq<bool>)
    requires 0 < n <= |rem| && Searched(v, id, pl, rem, n - 1, ids, at, flags, mid)
    requires CheckMarks(v, AtomWithPackages(Atom(id, rem[n - 1]), pl), false, ids, mid, checked)
    ensures Searched(v, id, pl, rem, n, ids, at, flags, Lifted(checked, at, n < |rem|))
  {
    hide CheckMarks;
    hide Lifted;
    assert Refused(v, id, pl, rem, n, ids, mid, checked);
    assert PassedOver(v, id, pl, rem, n, ids, at, mid, Lifted(checked, at, n < |rem|));
    hide PassedOver;
    hide Refused;
  }

  lemma SearchGoesOn(v: View, id: ProjectIdentifier, pl: seq<string>, rem: seq<Version>, faillen: nat,
                     now: seq<Version>, fails: seq<FailedVersion<Failure>>, f: Option<Failure>,
                     ids: seq<ProjectIdentifier>, at: Option<nat>, flags: seq<bool>, mid: seq<bool>, checked: seq<bool>)
    requires Searching(v, id, pl, rem, faillen, now, fails, ids, at, flags, mid)
    requires now != [] && !v.Accepts(id, now, pl)
    requires CheckMarks(v, AtomWithPackages(Atom(id, now[0]), pl), false, ids, mid, checked)
    ensures Searching(v, id, pl, rem, faillen, now[1..], fails + [FailedVersion(now[0], f)],
                      ids, at, flags, Lifted(checked, at, now[1..] != []))
  {
    hide CheckMarks;
    hide Lifted;
    hide View.Accepts;
    hide Searched;
    hide View.Tried;
    v.TriedOne(id, pl, rem, faillen, now, fails, f);
    TriedIsSuffix(v, id, pl, rem, faillen, now, fails);
    SearchedOneMore(v, id, pl, rem, |rem| - |now| + 1, ids, at, flags, mid, checked);
  }

  lemma TriedIsSuffix(v: View, id: ProjectIdentifier, pl: seq<string>, rem: seq<Version>, faillen: nat,
                      now: seq<Version>, fails: seq<FailedVersion<Failure>>)
    requires v.Tried(id, pl, rem, faillen, now, fails) && now != []
    ensures |now| <= |rem| && now[0] == rem[|rem| - |now|] && |now[1..]| == |now| - 1
    ensures now[1..] != [] <==> |rem| - |now| + 1 < |rem|
  {
    hide View.Accepts;
  }

  /** The search has come to an acceptable version, or to the end of the queue. */
  lemma SearchEnds(v: View, id: ProjectIdentifier, pl: seq<string>, rem: seq<Version>, faillen: nat,
                   now: seq<Version>, fails: seq<FailedVersion<Failure>>,
                   ids: seq<ProjectIdentifier>, at: Option<nat>, flags: seq<bool>, mid: seq<bool>)
    requires Searching(v, id, pl, rem, faillen, now, fails, ids, at, flags, mid)
    requires now == [] || v.Accepts(id, now, pl)
    ensures faillen <= |fails| && v.Tried(id, pl, rem, faillen, now, fails)
    ensures Left(v, id, rem, pl) == now
    ensures NoneAccepted(v, id, rem, pl) <==> now == []
    ensures Search(v, id, pl, rem, ids, at, flags, Blamed(v, id, now != [], ids, mid))
  {
    hide View.Accepts;
    hide Searched;
    hide Blamed;
    hide Left;
    LeftIs(v, id, rem, pl, |rem| - |now|);
    LeftIsEmptyExactly(v, id, rem, pl);
    hide NoneAccepted;
  }

  /** The marks after a queue on the stack was moved past its current version, to the next
      acceptable one: rem is what came after the current version. */
  ghost predicate Moves(v: View, id: ProjectIdentifier, pl: seq<string>, rem: seq<Version>,
                        ids: seq<ProjectIdentifier>, k: nat, flags: seq<bool>, flags': seq<bool>)
  {
    if rem == [] then flags' == flags
    else Search(v, id, pl, rem, ids, Some(k), Lifted(flags, Some(k), true), flags')
  }

  // ---------------------------------------------------------------- selecting and unselecting

  predicate IsDemanded(ds: seq<Dependency>, p: string) {
    exists d <- ds :: p in d.dep.pl
  }

  /** The packages of pl that nobody demands yet. */
  function Fresh(ds: seq<Dependency>, pl: seq<string>): seq<string> {
    if pl == [] then []
    else
      var p, front := pl[|pl| - 1], Fresh(ds, pl[..|pl| - 1]);
      if IsDemanded(ds, p) then front else front + [p]
  }

  lemma FreshStep(ds: seq<Dependency>, pl: seq<string>, i: nat)
    requires i < |pl|
    ensures Fresh(ds, pl[..i + 1]) == Fresh(ds, pl[..i]) + if IsDemanded(ds, pl[i]) then [] else [pl[i]]
  {
    assert pl[..i + 1][..i] == pl[..i];
  }

  lemma {:induction false} FreshExact(ds: seq<Dependency>, pl: seq<string>)
    requires Distinct(pl)
    ensures Distinct(Fresh(ds, pl))
    ensures forall p :: p in Fresh(ds, pl) <==> p in pl && !IsDemanded(ds, p)
  {
    if pl == [] {
    } else {
      var n := |pl| - 1;
      FreshExact(ds, pl[..n]);
      assert pl == pl[..n] + [pl[n]] && pl[n] !in pl[..n];
      hide IsDemanded;
    }
  }

  lemma FreshIsNew(ds: seq<Dependency>, d: Dependency)
    requires Distinct(d.dep.pl)
    ensures NewPackages(ds, d, Fresh(ds, d.dep.pl))
  {
    FreshExact(ds, d.dep.pl);
    hide Fresh;
  }

  lemma SoleDemanderExactly(ds: seq<Dependency>, d: Dependency, p: string)
    requires p in d.dep.pl && Distinct(d.dep.pl)
    ensures Demand(ds + [d], |ds| + 1, p) == 1 <==> !IsDemanded(ds, p)
  {
    SoleDemander(ds, d, p);
  }

  /** The queue entry for the packages of a dependency that nobody demands yet, ds being the
      dependencies there are on its project. */
  function Entry(ds: seq<Dependency>, dep: CompleteDep, prefv: Option<Version>): Bimodal {
    Bimodal(if ds == [] then dep.wc.ident else ds[0].dep.wc.ident, Fresh(ds, dep.pl), prefv, false)
  }

  function EntryFor(w: World, deps: Deps, a: Atom, dep: CompleteDep): Bimodal {
    Entry(On(deps, dep.wc.ident.root), dep, PreferenceOf(w, a, dep.wc.ident))
  }

  predicate Brings(deps: Deps, dep: CompleteDep) {
    Fresh(On(deps, dep.wc.ident.root), dep.pl) != []
  }

  /** The entries for those of the edges that bring in a package nobody demanded before. */
  function Entries(w: World, deps: Deps, a: Atom, edges: map<ProjectRoot, CompleteDep>,
                   done: set<ProjectRoot>): set<Bimodal>
  {
    set r | r in done && r in edges && Brings(deps, edges[r]) :: EntryFor(w, deps, a, edges[r])
  }

  /** Dependencies are filed under the root they name. */
  ghost predicate Filed(deps: Deps, edges: map<ProjectRoot, CompleteDep>) {
    && (forall r <- edges :: edges[r].wc.ident.root == r)
    && (forall r <- edges, d <- On(deps, r) :: d.dep.wc.ident.root == r)
  }

  lemma EntriesStep(w: World, deps: Deps, a: Atom, edges: map<ProjectRoot, CompleteDep>, done: set<ProjectRoot>,
                    r: ProjectRoot)
    requires Filed(deps, edges) && r in edges && r !in done
    ensures multiset(Entries(w, deps, a, edges, done + {r})) == multiset(Entries(w, deps, a, edges, done)) +
              (if Brings(deps, edges[r]) then multiset{EntryFor(w, deps, a, edges[r])} else multiset{})
  {
    hide Fresh;
    hide Brings;
    var before, after := Entries(w, deps, a, edges, done), Entries(w, deps, a, edges, done + {r});
    var e := EntryFor(w, deps, a, edges[r]);
    forall x <- before ensures x.id.root in done && x.id.root != r { }
    assert e.id.root == r;
    hide EntryFor;
    if Brings(deps, edges[r]) {
      assert after == before + {e};
    } else {
      assert after == before;
    }
  }

  lemma PushableIsFiled(env: Env, deps: Deps, folds: map<string, ProjectRoot>, edges: map<ProjectRoot, CompleteDep>)
    requires Pushable(env, deps, folds, edges)
    ensures Filed(deps, edges)
  {
    forall r <- edges ensures edges[r].wc.ident.root == r { assert GoodDep(env.w, r, edges[r]); }
  }

  /** `selectAtom`, in full. */
  ghost predicate Selects(v: View, sl: seq<Bimodal>, a: AtomWithPackages, pkgonly: bool, v': View, sl': seq<Bimodal>) {
    && v'.env == v.env && v.env.imports(a).Some?
    && var s := Selected(a.(pl := v.env.imports(a).value.pl), !pkgonly);
    && v'.projects == v.projects + [s]
    && Extends(v.env, v.deps, s.a, v'.deps) && FoldMirrors(v.env.w, v'.deps, v'.folds)
    && var edges := EdgesOf(v.env, s.a);
       multiset(sl') == multiset(Sel.Without(sl, a.a.id, a.pl))
           + multiset(Entries(v.env.w, v.deps, a.a, edges, edges.Keys))
  }

  /** `selectAtom` in mid-loop: the edges in `done` are recorded and their entries queued. */
  ghost predicate Stacking(v: View, a: Atom, edges: map<ProjectRoot, CompleteDep>, done: set<ProjectRoot>,
                           sl0: seq<Bimodal>,
                           now: View, sl: seq<Bimodal>)
  {
    && Pushing(v.env, now.projects, v.deps, sl0, a, edges, done, now.deps, now.folds, sl)
    && multiset(sl) == multiset(sl0) + multiset(Entries(v.env.w, v.deps, a, edges, done))
  }

  lemma StackingStarts(v: View, a: Atom, edges: map<ProjectRoot, CompleteDep>, sl0: seq<Bimodal>, now: View)
    requires Pushing(v.env, now.projects, v.deps, sl0, a, edges, {}, now.deps, now.folds, sl0)
    ensures Stacking(v, a, edges, {}, sl0, now, sl0)
  {
    assert Entries(v.env.w, v.deps, a, edges, {}) == {};
  }

  /** An edge not pushed yet finds the dependencies on its project as they were. */
  lemma StackingOn(v: View, a: AtomWithPackages, edges: map<ProjectRoot, CompleteDep>, done: set<ProjectRoot>,
                   sl0: seq<Bimodal>,
                   now: View, sl: seq<Bimodal>, r: ProjectRoot)
    requires Pushable(v.env, v.deps, v.folds, edges) && Stacking(v, a.a, edges, done, sl0, now, sl) && r in edges
             && r !in done
    ensures edges[r].wc.ident.root == r && Distinct(edges[r].pl)
    ensures On(now.deps, r) == On(v.deps, r) && forall d <- On(now.deps, r) :: d.dep.wc.ident.root == r
  {
    v.OnGood(a, now.projects, edges, done, sl0, now, sl, r);
  }

  lemma StackingEnds(v: View, a: AtomWithPackages, s: Selected, sl: seq<Bimodal>, sl0: seq<Bimodal>,
                     edges: map<ProjectRoot, CompleteDep>, now: View, sl': seq<Bimodal>)
    requires GoodEnv(v.env) && v.Coherent(sl) && v.MaySelect(a, s) && StacksOn(v.env, v.projects, s)
    requires now.env == v.env && now.projects == v.projects + [s] && edges == EdgesOf(v.env, s.a)
    requires Stacking(v, a.a, edges, edges.Keys, sl0, now, sl') && sl0 == Sel.Without(sl, a.a.id, a.pl)
    ensures now.Coherent(sl')
    ensures Demanded(v.env.w, v.deps) <= Demanded(v.env.w, now.deps)
    ensures (exists e <- sl :: Names(e, a.a.id, a.pl)) ==>
              |sl'| < |sl| || Demanded(v.env.w, v.deps) != Demanded(v.env.w, now.deps)
  {
    hide Entries;
    hide Pushing;
    hide GoodEnv;
    hide View.MaySelect;
    hide StacksOn;
    hide View.Coherent;
    hide EdgesOf;
    hide Demanded;
    Sel.WithoutMembers(sl, a.a.id, a.pl);
    v.Finish(a, s, sl, sl0, now, sl');
  }

  /** One edge was pushed. */
  lemma StackingStep(v: View, a: Atom, edges: map<ProjectRoot, CompleteDep>, done: set<ProjectRoot>, sl0: seq<Bimodal>,
                     m: View, slm: seq<Bimodal>, r: ProjectRoot, newp: seq<string>, now: View, sl: seq<Bimodal>)
    requires Pushable(v.env, v.deps, v.folds, edges) && Filed(v.deps, edges)
    requires Stacking(v, a, edges, done, sl0, m, slm) && r in edges && r !in done
    requires On(m.deps, r) == On(v.deps, r) && newp == Fresh(On(v.deps, r), edges[r].pl)
    requires now.projects == m.projects && now.deps == m.deps[r := On(m.deps, r) + [Dependency(a, edges[r])]]
    requires now.folds == if On(m.deps, r) == [] then m.folds[v.env.w.fold(r) := r] else m.folds
    requires NewPackages(On(m.deps, r), Dependency(a, edges[r]), newp) && Queued(slm, sl, r, newp)
    requires multiset(sl) == multiset(slm) +
               (if newp == [] then multiset{}
                else multiset{Entry(On(v.deps, r), edges[r], PreferenceOf(v.env.w, a, edges[r].wc.ident))})
    ensures Stacking(v, a, edges, done + {r}, sl0, now, sl)
  {
    assert edges[r].wc.ident.root == r;
    EntriesStep(v.env.w, v.deps, a, edges, done, r);
    hide Filed;
    hide Pushable;
    hide Pushing;
    hide NewPackages;
    hide Queued;
    hide Entries;
    hide Fresh;
    hide Entry;
    PushStep(v.env, m.projects, v.deps, v.folds, sl0, a, edges, done, m.deps, m.folds, slm, r, newp, now.folds, sl);
  }

  lemma SelectsInFull(v: View, sl: seq<Bimodal>, a: AtomWithPackages, pkgonly: bool, sl0: seq<Bimodal>,
                      edges: map<ProjectRoot, CompleteDep>, v': View, sl': seq<Bimodal>)
    requires v'.env == v.env && v.env.imports(a).Some? && sl0 == Sel.Without(sl, a.a.id, a.pl)
    requires v'.projects == v.projects + [Selected(a.(pl := v.env.imports(a).value.pl), !pkgonly)]
    requires edges == EdgesOf(v.env, a.(pl := v.env.imports(a).value.pl))
    requires Stacking(v, a.a, edges, edges.Keys, sl0, v', sl')
    ensures Selects(v, sl, a, pkgonly, v', sl')
  {
    hide FoldMirrors;
    hide Entries;
    hide Covered;
    hide QueueOk;
    hide Demanded;
    assert EdgesOf(v.env, a.(pl := v.env.imports(a).value.pl)) == edges;
    assert a.(pl := v.env.imports(a).value.pl).a == a.a;
  }

  /** What the selection queues is what the atom's dependencies introduce. */
  lemma StackingIntroduces(v: View, a: AtomWithPackages, edges: map<ProjectRoot, CompleteDep>, sl: seq<Bimodal>,
                           sl0: seq<Bimodal>,
                           now: View, sl': seq<Bimodal>)
    requires Pushable(v.env, v.deps, v.folds, edges) && Filed(v.deps, edges) && v.env.imports(a).Some?
    requires forall r <- edges :: r in v.env.imports(a).value.deps && v.env.imports(a).value.deps[r] == edges[r]
    requires Stacking(v, a.a, edges, edges.Keys, sl0, now, sl') && sl0 == Sel.Without(sl, a.a.id, a.pl)
    ensures forall e <- sl' :: e in sl || Introduced(v.env.w, a.a, v.env.imports(a).value.deps, e)
  {
    var w, deps := v.env.w, v.env.imports(a).value.deps;
    Sel.WithoutMembers(sl, a.a.id, a.pl);
    forall e <- sl' ensures e in sl || Introduced(w, a.a, deps, e) {
      assert e in multiset(sl');
      if e !in sl0 {
        assert e in Entries(w, v.deps, a.a, edges, edges.Keys);
        var r :| r in edges && Brings(v.deps, edges[r]) && e == EntryFor(w, v.deps, a.a, edges[r]);
        assert GoodDep(w, r, edges[r]);
        FreshExact(On(v.deps, r), edges[r].pl);
        assert e.id.root == r;
        hide Fresh;
        hide Filed;
      }
    }
  }

  /** The queue after the edges were popped in the given order: a project that has lost its last
      depender loses its entry, if that is still as it was queued. */
  ghost function Dropped(deps: Deps, edges: map<ProjectRoot, CompleteDep>, order: seq<ProjectRoot>,
                         sl: seq<Bimodal>): seq<Bimodal>
  {
    if order == [] then sl
    else
      var r := order[|order| - 1];
      var before := Dropped(deps, edges, order[..|order| - 1], sl);
      if r in edges && |On(deps, r)| == 1 then Sel.Without(before, edges[r].wc.ident, edges[r].pl) else before
  }

  lemma {:induction false} DroppedMembers(deps: Deps, edges: map<ProjectRoot, CompleteDep>, order: seq<ProjectRoot>,
                                          sl: seq<Bimodal>)
    ensures forall e <- Dropped(deps, edges, order, sl) :: e in sl
  {
    if order == [] {
    } else {
      var n := |order| - 1;
      DroppedMembers(deps, edges, order[..n], sl);
      if order[n] in edges {
        Sel.WithoutMembers(Dropped(deps, edges, order[..n], sl), edges[order[n]].wc.ident, edges[order[n]].pl);
      }
    }
  }

  lemma {:induction false} DroppedKeeps(deps: Deps, edges: map<ProjectRoot, CompleteDep>, order: seq<ProjectRoot>,
                                        sl: seq<Bimodal>, e: Bimodal)
    requires e in sl
    requires forall x <- edges | |On(deps, x)| == 1 :: !Names(e, edges[x].wc.ident, edges[x].pl)
    ensures e in Dropped(deps, edges, order, sl)
  {
    hide Sel.Without;
    hide Names;
    if order == [] {
    } else {
      var n := |order| - 1;
      var before := Dropped(deps, edges, order[..n], sl);
      DroppedKeeps(deps, edges, order[..n], sl, e);
      if order[n] in edges { Sel.WithoutMembers(before, edges[order[n]].wc.ident, edges[order[n]].pl); }
    }
  }

  /** The topmost atom goes back to the queue, and its edges are popped in some order. */
  ghost predicate Requeues(v: View, sl: seq<Bimodal>, pushed: seq<Bimodal>, order: seq<ProjectRoot>, sl': seq<Bimodal>)
    requires v.projects != []
  {
    var s, edges := v.Top(), EdgesOf(v.env, v.Top().a);
    && multiset(pushed) == multiset(sl) + multiset{Bimodal(s.a.a.id, s.a.pl, None, false)}
    && Distinct(order) && Elements(order) == edges.Keys
    && sl' == Dropped(v.deps, edges, order, pushed)
  }

  /** `unselectLast`, in full. */
  ghost predicate Unselects(v: View, sl: seq<Bimodal>, v': View, sl': seq<Bimodal>) {
    && v.projects != [] && v'.env == v.env && v'.projects == v.Front()
    && Extends(v.env, v'.deps, v.Top().a, v.deps) && FoldMirrors(v.env.w, v'.deps, v'.folds)
    && exists pushed, order :: Requeues(v, sl, pushed, order, sl')
  }

  /** `unselectLast` in mid-loop: the edges in `left` are still recorded. */
  ghost predicate Unstacking(v: View, edges: map<ProjectRoot, CompleteDep>, left: set<ProjectRoot>,
                             order: seq<ProjectRoot>,
                             pushed: seq<Bimodal>, now: View, sl: seq<Bimodal>)
  {
    && v.projects != [] && Popping(v.env, v.Front(), v.deps, v.Top().a.a, edges, left, now.deps, now.folds, sl)
    && Distinct(order) && Elements(order) == edges.Keys - left
    && sl == Dropped(v.deps, edges, order, pushed)
  }

  lemma UnstackingStarts(v: View, edges: map<ProjectRoot, CompleteDep>, pushed: seq<Bimodal>, now: View)
    requires v.projects != [] && now.deps == v.deps && now.folds == v.folds
    requires Popping(v.env, v.Front(), v.deps, v.Top().a.a, edges, edges.Keys, v.deps, v.folds, pushed)
    ensures Unstacking(v, edges, edges.Keys, [], pushed, now, pushed)
  {
  }

  /** One edge was popped. */
  lemma UnstackingStep(v: View, edges: map<ProjectRoot, CompleteDep>, left: set<ProjectRoot>, order: seq<ProjectRoot>,
                       pushed: seq<Bimodal>, m: View, slm: seq<Bimodal>, r: ProjectRoot, now: View, sl: seq<Bimodal>)
    requires Unstacking(v, edges, left, order, pushed, m, slm) && r in left && edges[r].wc.ident.root == r
    requires On(v.deps, r) != [] && On(v.deps, r)[|On(v.deps, r)| - 1] == Dependency(v.Top().a.a, edges[r])
    requires r in now.deps && now.deps == m.deps[r := now.deps[r]]
    requires exists d :: On(m.deps, r) == On(now.deps, r) + [d]
    requires now.folds == if On(now.deps, r) == [] then m.folds - {v.env.w.fold(r)} else m.folds
    requires sl == if On(now.deps, r) == [] then Sel.Without(slm, edges[r].wc.ident, edges[r].pl) else slm
    ensures Unstacking(v, edges, left - {r}, order + [r], pushed, now, sl)
  {
    assert r in edges;
    hide Popping;
    hide View.Front;
    hide View.Top;
    PopStep(v.env, v.Front(), v.deps, v.Top().a.a, edges, left, m.deps, m.folds, slm, r, now.deps, now.folds, sl);
    StillThere(v.env, v.Front(), v.deps, v.Top().a.a, edges, left, m.deps, m.folds, slm, r);
    assert On(now.deps, r) == [] <==> |On(v.deps, r)| == 1;
    PopOrder(edges, left, order, r);
    DroppedStep(v.deps, edges, order, pushed, r);
    hide Dropped;
    hide On;
  }

  lemma PopOrder(edges: map<ProjectRoot, CompleteDep>, left: set<ProjectRoot>, order: seq<ProjectRoot>, r: ProjectRoot)
    requires Distinct(order) && Elements(order) == edges.Keys - left && r in left && r in edges
    ensures Distinct(order + [r]) && Elements(order + [r]) == edges.Keys - (left - {r})
  {
    assert r !in Elements(order);
    assert Elements(order + [r]) == Elements(order) + {r};
  }

  lemma DroppedStep(deps: Deps, edges: map<ProjectRoot, CompleteDep>, order: seq<ProjectRoot>, pushed: seq<Bimodal>,
                    r: ProjectRoot)
    requires r in edges
    ensures Dropped(deps, edges, order + [r], pushed) ==
            var before := Dropped(deps, edges, order, pushed);
            if |On(deps, r)| == 1 then Sel.Without(before, edges[r].wc.ident, edges[r].pl) else before
  {
    assert (order + [r])[..|order + [r]| - 1] == order;
  }

  lemma UnstackingOn(v: View, edges: map<ProjectRoot, CompleteDep>, left: set<ProjectRoot>, order: seq<ProjectRoot>,
                     pushed: seq<Bimodal>, now: View, sl: seq<Bimodal>, r: ProjectRoot)
    requires Unstacking(v, edges, left, order, pushed, now, sl) && r in left
    ensures On(now.deps, r) == On(v.deps, r)
  {
    StillThere(v.env, v.Front(), v.deps, v.Top().a.a, edges, left, now.deps, now.folds, sl, r);
  }

  /** The last edge was popped. */
  lemma UnstackingEnds(v: View, sl: seq<Bimodal>, order: seq<ProjectRoot>, pushed: seq<Bimodal>, v': View,
                       sl': seq<Bimodal>)
    requires GoodEnv(v.env) && v.Coherent(sl) && |v.projects| > 1
    requires v'.env == v.env && v'.projects == v.Front()
    requires Unstacking(v, EdgesOf(v.env, v.Top().a), {}, order, pushed, v', sl')
    requires multiset(pushed) == multiset(sl) + multiset{Bimodal(v.Top().a.a.id, v.Top().a.pl, None, false)}
    ensures v'.Coherent(sl')
    ensures Unselects(v, sl, v', sl')
  {
    hide View.Coherent;
    hide Dropped;
    hide Popping;
    hide GoodEnv;
    hide EdgesOf;
    v.FinishPop(sl, v', sl');
    PoppedAll(v, order, pushed, v', sl');
    hide Extends;
    hide FoldMirrors;
    assert Requeues(v, sl, pushed, order, sl');
  }

  lemma PoppedAll(v: View, order: seq<ProjectRoot>, pushed: seq<Bimodal>, v': View, sl': seq<Bimodal>)
    requires v.projects != [] && Unstacking(v, EdgesOf(v.env, v.Top().a), {}, order, pushed, v', sl')
    ensures Extends(v.env, v'.deps, v.Top().a, v.deps) && FoldMirrors(v.env.w, v'.deps, v'.folds)
  {
    hide Dropped;
    hide FoldMirrors;
    hide Covered;
    hide QueueOk;
  }

  /** n selections are taken off. */
  ghost predicate TakesOff(v: View, sl: seq<Bimodal>, n: nat, v': View, sl': seq<Bimodal>) {
    if n == 0 then v' == v && sl' == sl
    else exists m: View, slm: seq<Bimodal> :: TakesOff(v, sl, n - 1, m, slm) && Unselects(m, slm, v', sl')
  }

  lemma TakesOffOneMore(v: View, sl: seq<Bimodal>, n: nat, m: View, slm: seq<Bimodal>, v': View, sl': seq<Bimodal>)
    requires TakesOff(v, sl, n, m, slm) && Unselects(m, slm, v', sl')
    ensures TakesOff(v, sl, n + 1, v', sl')
  {
    hide Unselects;
  }

  /** Selections are taken off down to and including the topmost that is the first of its project. */
  ghost predicate UnselectsProject(v: View, sl: seq<Bimodal>, v': View, sl': seq<Bimodal>) {
    var n := |v'.projects|;
    && n < |v.projects| && v.projects[n].first
    && (forall i | n < i < |v.projects| :: !v.projects[i].first)
    && TakesOff(v, sl, |v.projects| - n, v', sl')
  }

  /** `UnselectProject` in mid-loop: what was taken off so far was not the first of its project, but
      for the last one when `proj` says so. */
  ghost predicate Descending(v: View, sl: seq<Bimodal>, proj: bool, now: View, sl': seq<Bimodal>) {
    var n := |now.projects|;
    && n <= |v.projects| && now.projects == v.projects[..n]
    && (forall i | n <= i < |v.projects| :: !v.projects[i].first || (proj && i == n))
    && (proj ==> n < |v.projects| && v.projects[n].first)
    && TakesOff(v, sl, |v.projects| - n, now, sl')
  }

  lemma DescendStarts(v: View, sl: seq<Bimodal>)
    ensures Descending(v, sl, false, v, sl)
  {
  }

  lemma DescendStep(v: View, sl: seq<Bimodal>, m: View, slm: seq<Bimodal>, s: Selected, now: View, sl': seq<Bimodal>)
    requires Descending(v, sl, false, m, slm) && Unselects(m, slm, now, sl') && m.projects == now.projects + [s]
    ensures Descending(v, sl, s.first, now, sl')
    ensures |now.projects| < |v.projects| && v.projects[|now.projects|] == s
  {
    hide Unselects;
    hide TakesOff;
    var n := |now.projects|;
    assert m.projects[n] == s && m.projects[..n] == now.projects;
    TakesOffOneMore(v, sl, |v.projects| - n - 1, m, slm, now, sl');
  }

  lemma DescendEnds(v: View, sl: seq<Bimodal>, now: View, sl': seq<Bimodal>)
    requires Descending(v, sl, true, now, sl')
    ensures UnselectsProject(v, sl, now, sl')
    ensures |now.projects| < |v.projects| && now.projects == v.projects[..|now.projects|]
  {
    hide TakesOff;
  }

  // ---------------------------------------------------------------- states

  /** Choosing: at the head of the main loop. Failing: the entry taken could not be selected, and the
      solver is backtracking. */
  datatype Mode = Choosing | Failing

  /** The solver between two turns: the stack of version queues is given by their projects, what
      each has left, the current version included, and their marks. */
  datatype State = State(mode: Mode, view: View, sl: seq<Bimodal>,
                         ids: seq<ProjectIdentifier>, lists: seq<seq<Version>>, flags: seq<bool>)

  /** There is a source for the project, or vendored code. */
  predicate Sourced(w: World, id: ProjectIdentifier) {
    w.sourceExists(id) == Some(true) || (w.sourceExists(id) == Some(false) && w.vendorCodeExists(id) == Some(true))
  }

  /** What the source manager has to offer lets `createVersionQueue` set up a queue. */
  predicate Obtainable(w: World, ds: seq<Dependency>, e: Bimodal) {
    var prefv := if e.fromRoot then Preferred(w, ds, |ds|, e.id) else e.prefv;
    && Sourced(w, e.id)
    && !(|w.lock| > 0 && e.id.root in w.change && w.sourceExists(e.id) != Some(true))
    && !(LockFor(w, e.id).None? && prefv.None? && w.versions(e.id).None?)
  }

  /** The entry's project is not selected, and its versions can be had. */
  ghost predicate Searches(v: View, e: Bimodal) {
    Base(v.projects, e.id.root).None? && Obtainable(v.env.w, On(v.deps, e.id.root), e)
  }

  ghost function QueueFor(v: View, e: Bimodal): seq<Version> {
    Assembled(v.env.w, On(v.deps, e.id.root), e)
  }

  /** A new project is selected at the first acceptable version of its queue. */
  ghost predicate SelectsNew(s: State, e: Bimodal, s': State) {
    && Searches(s.view, e)
    && var rem := QueueFor(s.view, e);
    && var left := Left(s.view, e.id, rem, e.pl);
    && left != [] && s'.mode == Choosing
    && (exists flags :: Search(s.view, e.id, e.pl, rem, s.ids, None, s.flags, flags) && s'.flags == flags + [false])
    && s'.ids == s.ids + [e.id] && s'.lists == s.lists + [left]
    && Selects(s.view, s.sl, AtomWithPackages(Atom(e.id, left[0]), e.pl), false, s'.view, s'.sl)
  }

  /** Nothing in the queue of a new project will do, or no queue can be had. */
  ghost predicate FindsNone(s: State, e: Bimodal, s': State) {
    && Base(s.view.projects, e.id.root).None?
    && s' == s.(mode := Failing, flags := s'.flags)
    && if !Searches(s.view, e) then s'.flags == s.flags
       else
         var rem := QueueFor(s.view, e);
         && rem != [] && Left(s.view, e.id, rem, e.pl) == [] && On(s.view.deps, e.id.root) != []
         && Search(s.view, e.id, e.pl, rem, s.ids, None, s.flags, s'.flags)
  }

  lemma SelectsNewInFull(s: State, e: Bimodal, flags: seq<bool>, s': State)
    requires Searches(s.view, e)
    requires Search(s.view, e.id, e.pl, QueueFor(s.view, e), s.ids, None, s.flags, flags)
    requires s'.mode == Choosing && s'.ids == s.ids + [e.id] && s'.flags == flags + [false]
    requires s'.lists == s.lists + [Left(s.view, e.id, QueueFor(s.view, e), e.pl)]
    requires Left(s.view, e.id, QueueFor(s.view, e), e.pl) != []
    requires Selects(s.view, s.sl, AtomWithPackages(Atom(e.id, Left(s.view, e.id, QueueFor(s.view, e), e.pl)[0]),
                                                    e.pl), false,
                     s'.view, s'.sl)
    ensures SelectsNew(s, e, s')
  {
    hide Searches;
    hide NoneAccepted;
    hide QueueFor;
    hide Search;
    hide Left;
    hide Selects;
  }

  lemma FindsNoneInFull(s: State, e: Bimodal, s': State)
    requires Base(s.view.projects, e.id.root).None? && s' == s.(mode := Failing, flags := s'.flags)
    requires if !Searches(s.view, e) then s'.flags == s.flags
             else
               && QueueFor(s.view, e) != [] && NoneAccepted(s.view, e.id, QueueFor(s.view, e), e.pl)
               && On(s.view.deps, e.id.root) != []
               && Search(s.view, e.id, e.pl, QueueFor(s.view, e), s.ids, None, s.flags, s'.flags)
    ensures FindsNone(s, e, s')
  {
    LeftIsEmptyExactly(s.view, e.id, QueueFor(s.view, e), e.pl);
    hide Searches;
    hide NoneAccepted;
    hide QueueFor;
    hide Search;
    hide Left;
  }

  /** The atom for more packages of a project that is selected. */
  ghost function MoreOf(v: View, e: Bimodal): AtomWithPackages
    requires Base(v.projects, e.id.root).Some?
  {
    AtomWithPackages(Atom(e.id, Base(v.projects, e.id.root).value.a.v), e.pl)
  }

  ghost predicate AddsPackages(s: State, e: Bimodal, s': State) {
    && Base(s.view.projects, e.id.root).Some? && !s.view.env.w.IsRoot(e.id.root)
    && s.view.Passing(MoreOf(s.view, e), true)
    && Selects(s.view, s.sl, MoreOf(s.view, e), true, s'.view, s'.sl)
    && s' == s.(view := s'.view, sl := s'.sl)
  }

  ghost predicate RefusesPackages(s: State, e: Bimodal, s': State) {
    && Base(s.view.projects, e.id.root).Some?
    && (if s.view.env.w.IsRoot(e.id.root) then !RequiredPackagesExist(s.view.env.w, s.view.deps, MoreOf(s.view, e).a)
        else !s.view.Passing(MoreOf(s.view, e), true))
    && s' == s.(mode := Failing, flags := s'.flags)
    && CheckMarks(s.view, MoreOf(s.view, e), true, s.ids, s.flags, s'.flags)
  }

  // ---------------------------------------------------------------- backtracking

  /** Backtracking, with a queue on top of the stack. */
  predicate HasTop(s: State) {
    s.mode == Failing && s.ids != [] && |s.ids| == |s.lists| == |s.flags|
  }

  /** The top queue is not marked: it is popped, and its project is taken off. */
  ghost predicate Pops(s: State, s': State) {
    && HasTop(s)
    && var k := |s.ids| - 1;
    && !s.flags[k] && UnselectsProject(s.view, s.sl, s'.view, s'.sl)
    && s' == State(Failing, s'.view, s'.sl, s.ids[..k], s.lists[..k], s.flags[..k])
  }

  /** The top queue is marked: its project is taken off, to be tried at a later version. */
  ghost predicate Retreats(s: State, m: View, slm: seq<Bimodal>) {
    && HasTop(s)
    && var k := |s.ids| - 1;
    && s.flags[k] && s.lists[k] != [] && UnselectsProject(s.view, s.sl, m, slm)
  }

  /** What the top queue has left behind its current version. */
  function Later(s: State): seq<Version>
    requires HasTop(s) && s.lists[|s.ids| - 1] != []
  {
    s.lists[|s.ids| - 1][1..]
  }

  function TopId(s: State): ProjectIdentifier
    requires HasTop(s)
  {
    s.ids[|s.ids| - 1]
  }

  /** The packages of the project that was taken off. */
  function TakenPackages(s: State, m: View): seq<string>
    requires |m.projects| < |s.view.projects|
  {
    s.view.projects[|m.projects|].a.pl
  }

  /** A later version of the project is selected. */
  ghost predicate Resumes(s: State, m: View, slm: seq<Bimodal>, s': State) {
    && Retreats(s, m, slm)
    && var k, id, rem, pl := |s.ids| - 1, TopId(s), Later(s), TakenPackages(s, m);
    && var left := Left(m, id, rem, pl);
    && left != [] && s'.mode == Choosing
    && s'.ids == s.ids && s'.lists == s.lists[..k] + [left]
    && Moves(m, id, pl, rem, s.ids, k, s.flags, s'.flags)
    && Selects(m, slm, AtomWithPackages(Atom(id, left[0]), pl), false, s'.view, s'.sl)
  }

  /** None of the later versions will do. */
  ghost predicate Fruitless(s: State, m: View, slm: seq<Bimodal>, flags: seq<bool>) {
    && Retreats(s, m, slm)
    && var k, id, rem, pl := |s.ids| - 1, TopId(s), Later(s), TakenPackages(s, m);
    && NoneAccepted(m, id, rem, pl) && (rem != [] ==> On(m.deps, id.root) != [])
    && Moves(m, id, pl, rem, s.ids, k, s.flags, flags)
  }

  /** ... and the queue is popped. */
  ghost predicate Retires(s: State, s': State) {
    && s.ids != [] && |s.ids| == |s.lists|
    && var k := |s.ids| - 1;
    exists flags :: Fruitless(s, s'.view, s'.sl, flags) && k <= |flags|
                    && s' == State(Failing, s'.view, s'.sl, s.ids[..k], s.lists[..k], flags[..k])
  }

  /** ... and there is nobody to blame for it. */
  ghost predicate Blameless(s: State, m: View, slm: seq<Bimodal>) {
    && Retreats(s, m, slm)
    && Later(s) != [] && NoneAccepted(m, TopId(s), Later(s), TakenPackages(s, m)) && On(m.deps, TopId(s).root) == []
  }

  lemma ResumesInFull(s: State, m: View, slm: seq<Bimodal>, pl: seq<string>, left: seq<Version>, s': State)
    requires Retreats(s, m, slm) && |m.projects| < |s.view.projects| && pl == TakenPackages(s, m)
    requires left == Left(m, TopId(s), Later(s), pl) && left != []
    requires s'.mode == Choosing && s'.ids == s.ids && s'.lists == s.lists[..|s.ids| - 1] + [left]
    requires Moves(m, TopId(s), pl, Later(s), s.ids, |s.ids| - 1, s.flags, s'.flags)
    requires Selects(m, slm, AtomWithPackages(Atom(TopId(s), left[0]), pl), false, s'.view, s'.sl)
    ensures Resumes(s, m, slm, s')
  {
    hide Moves;
    hide Selects;
    hide Left;
    hide UnselectsProject;
  }

  lemma FruitlessInFull(s: State, m: View, slm: seq<Bimodal>, pl: seq<string>, flags: seq<bool>)
    requires Retreats(s, m, slm) && |m.projects| < |s.view.projects| && pl == TakenPackages(s, m)
    requires NoneAccepted(m, TopId(s), Later(s), pl)
    ensures if Later(s) != [] && On(m.deps, TopId(s).root) == [] then Blameless(s, m, slm)
            else Moves(m, TopId(s), pl, Later(s), s.ids, |s.ids| - 1, s.flags, flags) ==> Fruitless(s, m, slm, flags)
  {
    hide Moves;
    hide NoneAccepted;
    hide UnselectsProject;
  }

  // ---------------------------------------------------------------- runs

  ghost predicate ResumesTo(s: State, s': State) {
    exists m, slm :: Resumes(s, m, slm, s')
  }

  /** One turn, of the main loop or of backtracking. */
  ghost predicate Next(s: State, s': State) {
    match s.mode
    case Choosing =>
      && s.sl != []
      && var e := s.sl[0];
         SelectsNew(s, e, s') || FindsNone(s, e, s') || AddsPackages(s, e, s') || RefusesPackages(s, e, s')
    case Failing =>
      Pops(s, s') || Retires(s, s') || ResumesTo(s, s')
  }

  /** A queue that is not marked is popped. */
  lemma PopsNow(s: State, s': State)
    requires HasTop(s) && !s.flags[|s.ids| - 1] && UnselectsProject(s.view, s.sl, s'.view, s'.sl)
    requires s' == State(Failing, s'.view, s'.sl, s.ids[..|s.ids| - 1], s.lists[..|s.ids| - 1], s.flags[..|s.ids| - 1])
    ensures Next(s, s')
  {
    hide UnselectsProject;
    hide Retires;
    hide ResumesTo;
  }

  lemma RetiresNow(s: State, flags: seq<bool>, s': State)
    requires s.ids != [] && |s.ids| == |s.lists| && |s.ids| - 1 <= |flags|
    requires Fruitless(s, s'.view, s'.sl, flags)
    requires s' == State(Failing, s'.view, s'.sl, s.ids[..|s.ids| - 1], s.lists[..|s.ids| - 1], flags[..|s.ids| - 1])
    ensures Retires(s, s') && Next(s, s')
  {
    hide Fruitless;
    hide Pops;
    hide Resumes;
    FruitlessBacktracks(s, s'.view, s'.sl, flags);
    RetiresInFull(s, flags, s');
    hide Retires;
  }

  lemma FruitlessBacktracks(s: State, m: View, slm: seq<Bimodal>, flags: seq<bool>)
    requires Fruitless(s, m, slm, flags)
    ensures s.mode == Failing
  {
    hide UnselectsProject;
    hide NoneAccepted;
    hide Moves;
  }

  lemma RetiresInFull(s: State, flags: seq<bool>, s': State)
    requires s.ids != [] && |s.ids| == |s.lists| && |s.ids| - 1 <= |flags|
    requires Fruitless(s, s'.view, s'.sl, flags)
    requires s' == State(Failing, s'.view, s'.sl, s.ids[..|s.ids| - 1], s.lists[..|s.ids| - 1], flags[..|s.ids| - 1])
    ensures Retires(s, s')
  {
    hide Fruitless;
  }

  lemma ResumesNow(s: State, m: View, slm: seq<Bimodal>, s': State)
    requires Resumes(s, m, slm, s')
    ensures ResumesTo(s, s') && Next(s, s')
  {
    assert s.mode == Failing;
    assert ResumesTo(s, s');
    hide Resumes;
    hide Pops;
    hide Retires;
  }

  /** The run's last turn retired a queue in which nothing more would do. */
  ghost predicate JustRetired(run: seq<State>) {
    |run| > 1 && Retires(run[|run| - 2], run[|run| - 1])
  }

  /** The run's last turn went on to a later version of a project. */
  ghost predicate JustResumed(run: seq<State>) {
    |run| > 1 && ResumesTo(run[|run| - 2], run[|run| - 1])
  }

  /** The entry at the head of the queue is taken up. */
  lemma TakesUp(s: State, s': State)
    requires s.mode == Choosing && s.sl != []
    requires || SelectsNew(s, s.sl[0], s') || FindsNone(s, s.sl[0], s')
             || AddsPackages(s, s.sl[0], s') || RefusesPackages(s, s.sl[0], s')
    ensures Next(s, s')
  {
    hide SelectsNew;
    hide FindsNone;
    hide AddsPackages;
    hide RefusesPackages;
  }

  /** The index of an empty list of dependencies is taken: a queue was searched in vain for a project
      that nobody depends on. */
  ghost predicate DiesForNoDepender(s: State) {
    match s.mode
    case Choosing =>
      && s.sl != []
      && var e := s.sl[0];
      && Searches(s.view, e) && QueueFor(s.view, e) != []
      && NoneAccepted(s.view, e.id, QueueFor(s.view, e), e.pl) && On(s.view.deps, e.id.root) == []
    case Failing =>
      exists m, slm :: Blameless(s, m, slm)
  }

  /** Where a run dies, and of what. */
  ghost predicate Dies(s: State, c: Crash) {
    match c
    case NoDepender => DiesForNoDepender(s)
    case EmptyVersionQueue =>
      s.mode == Choosing && s.sl != [] && Searches(s.view, s.sl[0]) && QueueFor(s.view, s.sl[0]) == []
    case RootRechecked =>
      && s.mode == Choosing && s.sl != [] && s.view.env.w.IsRoot(s.sl[0].id.root)
      && Base(s.view.projects, s.sl[0].id.root).Some?
      && RequiredPackagesExist(s.view.env.w, s.view.deps, MoreOf(s.view, s.sl[0]).a)
    case RootUndeducible => false
  }

  // ---------------------------------------------------------------- where a run dies, it cannot go on

  /** Two views of one selection: they may keep empty lists of dependencies for different projects. */
  ghost predicate Alike(v: View, v': View) {
    && v.env == v'.env && v.projects == v'.projects && v.folds == v'.folds
    && forall r :: On(v.deps, r) == On(v'.deps, r)
  }

  lemma AlikeAccept(v: View, v': View, id: ProjectIdentifier, rem: seq<Version>, pl: seq<string>)
    requires Alike(v, v')
    ensures v.Accepts(id, rem, pl) == v'.Accepts(id, rem, pl)
  {
    if rem != [] {
      var a := AtomWithPackages(Atom(id, rem[0]), pl);
      forall dep
        ensures DepAllowed(v.env.w, v.projects, v.deps, v.folds, dep) ==
                DepAllowed(v.env.w, v'.projects, v'.deps, v'.folds, dep)
      {
      }
      hide DepAllowed;
      assert AtomAllowable(v.deps, a.a) == AtomAllowable(v'.deps, a.a);
      assert RequiredPackagesExist(v.env.w, v.deps, a.a) == RequiredPackagesExist(v.env.w, v'.deps, a.a);
    }
  }

  lemma UnselectsAlike(v: View, v': View, sl: seq<Bimodal>, sl': seq<Bimodal>, m: View, slm: seq<Bimodal>, m': View,
                       slm': seq<Bimodal>)
    requires Alike(v, v') && Unselects(v, sl, m, slm) && Unselects(v', sl', m', slm')
    ensures Alike(m, m')
  {
    hide Requeues;
    hide EdgesOf;
    forall r ensures On(m.deps, r) == On(m'.deps, r) {
      var es := EdgeTo(v.env, v.Top().a, r);
      assert On(v.deps, r) == On(m.deps, r) + es && On(v.deps, r) == On(m'.deps, r) + es;
      assert On(m.deps, r) == On(v.deps, r)[..|On(v.deps, r)| - |es|];
    }
    FoldMirrorsUnique(v.env.w, m.deps, m'.deps, m.folds, m'.folds);
  }

  lemma {:induction false} TakesOffAlike(v: View, sl: seq<Bimodal>, n: nat, m: View, slm: seq<Bimodal>, m': View,
                                         slm': seq<Bimodal>)
    requires TakesOff(v, sl, n, m, slm) && TakesOff(v, sl, n, m', slm')
    ensures Alike(m, m')
  {
    hide Unselects;
    if n == 0 {
    } else {
      var k: View, slk: seq<Bimodal> :| TakesOff(v, sl, n - 1, k, slk) && Unselects(k, slk, m, slm);
      var k': View, slk': seq<Bimodal> :| TakesOff(v, sl, n - 1, k', slk') && Unselects(k', slk', m', slm');
      hide Alike;
      hide TakesOff;
      TakesOffAlike(v, sl, n - 1, k, slk, k', slk');
      UnselectsAlike(k, k', slk, slk', m, slm, m', slm');
    }
  }

  lemma RetreatsAlike(s: State, m: View, slm: seq<Bimodal>, m': View, slm': seq<Bimodal>)
    requires Retreats(s, m, slm) && Retreats(s, m', slm')
    ensures Alike(m, m')
  {
    hide TakesOff;
    hide Alike;
    assert |m.projects| == |m'.projects|;
    TakesOffAlike(s.view, s.sl, |s.view.projects| - |m.projects|, m, slm, m', slm');
  }

  lemma BlamelessStays(s: State, m: View, slm: seq<Bimodal>, m': View, slm': seq<Bimodal>)
    requires Blameless(s, m, slm) && Retreats(s, m', slm')
    ensures Blameless(s, m', slm')
  {
    RetreatsAlike(s, m, slm, m', slm');
    var id, rem, pl := TopId(s), Later(s), TakenPackages(s, m);
    assert pl == TakenPackages(s, m');
    forall i | 0 <= i < |rem| ensures !m'.Accepts(id, rem[i..], pl) { AlikeAccept(m, m', id, rem[i..], pl); }
    hide View.Accepts;
    hide Retreats;
  }

  /** A state in which the program dies has no next one. */
  lemma DeadEnd(s: State, c: Crash, s': State)
    requires Dies(s, c)
    ensures !Next(s, s')
  {
    match s.mode
    case Choosing => DeadEndChoosing(s, c, s');
    case Failing => DeadEndFailing(s, s');
  }

  lemma DeadEndChoosing(s: State, c: Crash, s': State)
    requires Dies(s, c) && s.mode == Choosing
    ensures !Next(s, s')
  {
    var e := s.sl[0];
    LeftIsEmptyExactly(s.view, e.id, QueueFor(s.view, e), e.pl);
    NoneIsAccepted(s.view, e.id, e.pl);
    hide NoneAccepted;
    hide Left;
    hide QueueFor;
    hide Selects;
    hide Search;
    hide View.Passing;
    hide CheckMarks;
    hide RequiredPackagesExist;
    hide Obtainable;
  }

  lemma DeadEndFailing(s: State, s': State)
    requires DiesForNoDepender(s) && s.mode == Failing
    ensures !Next(s, s')
  {
    hide Blameless;
    var m, slm :| Blameless(s, m, slm);
    assert Retreats(s, m, slm) && !Pops(s, s') by { NotBoth(s, m, slm, s'); }
    forall flags ensures !Fruitless(s, s'.view, s'.sl, flags) { NotFruitless(s, m, slm, s'.view, s'.sl, flags); }
    forall k, slk ensures !Resumes(s, k, slk, s') { NotResumed(s, m, slm, k, slk, s'); }
    hide Fruitless;
    hide Resumes;
    hide Pops;
    hide Retreats;
  }

  lemma NotBoth(s: State, m: View, slm: seq<Bimodal>, s': State)
    requires Blameless(s, m, slm)
    ensures Retreats(s, m, slm) && !Pops(s, s')
  {
    hide UnselectsProject;
    hide NoneAccepted;
  }

  lemma NotFruitless(s: State, m: View, slm: seq<Bimodal>, k: View, slk: seq<Bimodal>, flags: seq<bool>)
    requires Blameless(s, m, slm)
    ensures !Fruitless(s, k, slk, flags)
  {
    if Retreats(s, k, slk) { BlamelessStays(s, m, slm, k, slk); }
    hide UnselectsProject;
    hide NoneAccepted;
    hide Moves;
  }

  lemma NotResumed(s: State, m: View, slm: seq<Bimodal>, k: View, slk: seq<Bimodal>, s': State)
    requires Blameless(s, m, slm)
    ensures !Resumes(s, k, slk, s')
  {
    if Retreats(s, k, slk) {
      BlamelessStays(s, m, slm, k, slk);
      LeftIsEmptyExactly(k, TopId(s), Later(s), TakenPackages(s, k));
    }
    hide UnselectsProject;
    hide NoneAccepted;
    hide Moves;
    hide Left;
    hide Selects;
  }

  /** Backtracking has popped every queue. */
  predicate GivesUp(s: State) {
    s.mode == Failing && s.ids == []
  }

  function RootEntries(deps: map<ProjectRoot, CompleteDep>, done: set<ProjectRoot>): set<Bimodal> {
    set r | r in done && r in deps :: Bimodal(deps[r].wc.ident, deps[r].pl, None, true)
  }

  lemma NoRootEntries(deps: map<ProjectRoot, CompleteDep>)
    ensures RootEntries(deps, {}) == {}
  {
  }

  lemma QueuedOne(sl: seq<Bimodal>, sl': seq<Bimodal>, r: ProjectRoot, e: Bimodal)
    requires multiset(sl') == multiset(sl) + multiset{e} && e.id.root == r && e.pl != []
    ensures Queued(sl, sl', r, e.pl)
  {
  }

  lemma RootEntriesStep(deps: map<ProjectRoot, CompleteDep>, done: set<ProjectRoot>, r: ProjectRoot)
    requires r in deps && r !in done && forall s <- deps :: deps[s].wc.ident.root == s
    ensures multiset(RootEntries(deps, done + {r})) ==
            multiset(RootEntries(deps, done)) + multiset{Bimodal(deps[r].wc.ident, deps[r].pl, None, true)}
  {
    var before, e := RootEntries(deps, done), Bimodal(deps[r].wc.ident, deps[r].pl, None, true);
    forall x <- before ensures x.id.root in done { }
    assert RootEntries(deps, done + {r}) == before + {e};
  }

  lemma RootEntriesFromRoot(deps: map<ProjectRoot, CompleteDep>, sl: seq<Bimodal>)
    requires forall s <- deps :: deps[s].wc.ident.root == s
    requires multiset(sl) == multiset(RootEntries(deps, deps.Keys))
    ensures forall e <- sl :: FromRoot(deps, e)
    ensures forall i, j | 0 <= i < j < |sl| :: sl[i].id.root != sl[j].id.root
    ensures forall r <- deps :: exists e <- sl :: e.id.root == r
  {
    forall e <- sl ensures FromRoot(deps, e) {
      assert e in multiset(sl);
      assert e in RootEntries(deps, deps.Keys);
    }
    forall r <- deps ensures exists e <- sl :: e.id.root == r {
      var e := Bimodal(deps[r].wc.ident, deps[r].pl, None, true);
      assert e in RootEntries(deps, deps.Keys);
      assert e in multiset(sl);
    }
    forall i, j | 0 <= i < j < |sl| ensures sl[i].id.root != sl[j].id.root {
      if sl[i].id.root == sl[j].id.root {
        assert sl[i] in sl && sl[j] in sl;
        TwiceInMultiset(sl, i, j);
      }
    }
  }

  lemma TwiceInMultiset(sl: seq<Bimodal>, i: nat, j: nat)
    requires i < j < |sl| && sl[i] == sl[j]
    ensures multiset(sl)[sl[i]] >= 2
  {
    assert sl == sl[..i] + [sl[i]] + sl[i + 1..j] + [sl[j]] + sl[j + 1..];
  }

  /** Only the root is selected, and there is one entry for each of its dependencies. */
  ghost predicate Starts(env: Env, s: State) {
    && s.mode == Choosing && s.view.env == env
    && s.view.projects == [Selected(env.w.RootAtom(), true)]
    && (forall r :: On(s.view.deps, r) == EdgeTo(env, env.w.RootAtom(), r))
    && FoldMirrors(env.w, s.view.deps, s.view.folds)
    && multiset(s.sl) == multiset(RootEntries(env.rootDeps, env.rootDeps.Keys))
    && s.ids == [] && s.lists == [] && s.flags == []
  }

  /** `selectRoot` in mid-loop. */
  ghost predicate Rooting(env: Env, done: set<ProjectRoot>, now: View, sl: seq<Bimodal>) {
    && Pushing(env, now.projects, map[], [], env.w.RootAtom().a, env.rootDeps, done, now.deps, now.folds, sl)
    && multiset(sl) == multiset(RootEntries(env.rootDeps, done))
  }

  lemma RootingStarts(env: Env, now: View)
    requires GoodEnv(env) && now.deps == map[] && now.folds == map[]
    ensures Rooting(env, {}, now, [])
  {
    StartRoot(env, now.projects);
    NoRootEntries(env.rootDeps);
  }

  lemma RootingOn(env: Env, done: set<ProjectRoot>, now: View, sl: seq<Bimodal>, r: ProjectRoot)
    requires GoodEnv(env) && Rooting(env, done, now, sl) && r in env.rootDeps && r !in done
    ensures env.rootDeps[r].wc.ident.root == r && On(now.deps, r) == []
  {
    RootEdge(env, now.projects, done, now.deps, now.folds, sl, r);
  }

  lemma RootingStep(env: Env, done: set<ProjectRoot>, m: View, slm: seq<Bimodal>, r: ProjectRoot, now: View,
                    sl: seq<Bimodal>)
    requires GoodEnv(env) && Rooting(env, done, m, slm) && r in env.rootDeps && r !in done
    requires now.projects == m.projects && now.deps ==
             m.deps[r := On(m.deps, r) + [Dependency(env.w.RootAtom().a, env.rootDeps[r])]]
    requires now.folds == if On(m.deps, r) == [] then m.folds[env.w.fold(r) := r] else m.folds
    requires multiset(sl) == multiset(slm) + multiset{Bimodal(env.rootDeps[r].wc.ident, env.rootDeps[r].pl, None, true)}
    ensures Rooting(env, done + {r}, now, sl)
  {
    StartRoot(env, m.projects);
    RootEdge(env, m.projects, done, m.deps, m.folds, slm, r);
    forall x <- env.rootDeps ensures env.rootDeps[x].wc.ident.root == x { assert GoodDep(env.w, x, env.rootDeps[x]); }
    RootEntriesStep(env.rootDeps, done, r);
    hide GoodEnv;
    hide Pushing;
    hide Pushable;
    hide RootEntries;
    hide NewPackages;
    QueuedOne(slm, sl, r, Bimodal(env.rootDeps[r].wc.ident, env.rootDeps[r].pl, None, true));
    hide Queued;
    PushStep(env, m.projects, map[], map[], [], env.w.RootAtom().a, env.rootDeps, done, m.deps, m.folds, slm, r,
             env.rootDeps[r].pl, now.folds, sl);
  }

  lemma RootStarts(env: Env, s: State)
    requires GoodEnv(env) && s.mode == Choosing && s.view.env == env && s.ids == [] && s.lists == [] && s.flags == []
    requires s.view.projects == [Selected(env.w.RootAtom(), true)]
    requires Rooting(env, env.rootDeps.Keys, s.view, s.sl)
    ensures Starts(env, s) && s.view.Coherent(s.sl)
  {
    hide RootEntries;
    hide View.Coherent;
    s.view.FinishRoot(s.sl);
    hide GoodEnv;
    hide FoldMirrors;
    hide Covered;
    hide QueueOk;
  }

  lemma StartsOnceEach(env: Env, s: State)
    requires GoodEnv(env) && Starts(env, s)
    ensures forall e <- s.sl :: FromRoot(env.rootDeps, e)
    ensures forall i, j | 0 <= i < j < |s.sl| :: s.sl[i].id.root != s.sl[j].id.root
    ensures forall r <- env.rootDeps :: exists e <- s.sl :: e.id.root == r
  {
    forall x <- env.rootDeps ensures env.rootDeps[x].wc.ident.root == x { assert GoodDep(env.w, x, env.rootDeps[x]); }
    hide GoodEnv;
    hide FoldMirrors;
    RootEntriesFromRoot(env.rootDeps, s.sl);
    hide FromRoot;
  }

  ghost predicate IsPath(path: seq<State>) {
    path != [] && forall i | 0 < i < |path| :: Next(path[i - 1], path[i])
  }

  ghost predicate IsRun(env: Env, run: seq<State>) {
    IsPath(run) && Starts(env, run[0])
  }

  function Last(run: seq<State>): State
    requires run != []
  {
    run[|run| - 1]
  }

  /** The run has come to state s. */
  ghost predicate RunsTo(env: Env, run: seq<State>, s: State) {
    IsRun(env, run) && Last(run) == s
  }

  lemma RunsToIsRun(env: Env, run: seq<State>, s: State)
    requires RunsTo(env, run, s)
    ensures IsRun(env, run)
  {
  }

  lemma GrownBy(env: Env, run: seq<State>, s: State, s': State)
    requires RunsTo(env, run, s)
    ensures Retires(s, s') ==> JustRetired(run + [s'])
    ensures ResumesTo(s, s') ==> JustResumed(run + [s'])
  {
    hide Next;
    hide Starts;
    hide Retires;
    hide ResumesTo;
  }

  lemma RunStarts(env: Env, s: State)
    requires Starts(env, s)
    ensures RunsTo(env, [s], s)
  {
  }

  lemma RunGrows(env: Env, run: seq<State>, s: State, s': State)
    requires RunsTo(env, run, s) && Next(s, s')
    ensures RunsTo(env, run + [s'], s')
  {
    hide Next;
    hide Starts;
  }
}
