/** What a new version queue holds (`createVersionQueue` in `gps/solver.go`): the root's lock, what the
    dependers' locks prefer and the listed versions, behind the revision that is demanded, if one is. */
module QueueContents {
  import opened Wrappers
  import opened Strings
  import opened Versions
  import opened Bridge
  import opened Requirements
  import opened VersionQueues
  import opened Selection
  import opened SolverInvariant
  import opened SolverViews
  import opened SolverRuns

  // ---------------------------------------------------------------- what dependers prefer

  /** The j-th entry is the last of a lock that names the project. */
  predicate LastNaming(lps: seq<LockedProject>, id: ProjectIdentifier, j: int) {
    0 <= j < |lps| && lps[j].ident.Eq(id) && forall k | j < k < |lps| :: !lps[k].ident.Eq(id)
  }

  predicate NamesProject(lps: seq<LockedProject>, id: ProjectIdentifier) {
    exists lp <- lps :: lp.ident.Eq(id)
  }

  /** The lock of a depender that is not the root, if it has one. */
  function LockOfDepender(w: World, d: Dependency): seq<LockedProject> {
    var m := w.analysis(d.depender);
    if w.IsRoot(d.depender.id.root) || m.None? || m.value.lock.None? then [] else m.value.lock.value
  }

  /** The k-th dependency is the last whose depender's lock names the project, the j-th entry of that
      lock the last that does, and v the version there. */
  predicate PreferredAt(w: World, ds: seq<Dependency>, id: ProjectIdentifier, v: Version, k: int, j: int) {
    && 0 <= k < |ds| && LastNaming(LockOfDepender(w, ds[k]), id, j) && LockOfDepender(w, ds[k])[j].version == v
    && forall i | k < i < |ds| :: !NamesProject(LockOfDepender(w, ds[i]), id)
  }

  lemma {:induction false} LastLockedExactly(lps: seq<LockedProject>, n: nat, id: ProjectIdentifier,
                                             other: Option<Version>)
    requires n <= |lps|
    ensures if NamesProject(lps[..n], id) then
              exists j :: LastNaming(lps[..n], id, j) && LastLocked(lps, n, id, other) == Some(lps[j].version)
            else LastLocked(lps, n, id, other) == other
  {
    if n == 0 {
    } else {
      LastLockedExactly(lps, n - 1, id, other);
      assert lps[..n] == lps[..n - 1] + [lps[n - 1]];
      if lps[n - 1].ident.Eq(id) {
        assert lps[n - 1] in lps[..n];
        assert LastNaming(lps[..n], id, n - 1);
      } else if NamesProject(lps[..n - 1], id) {
        var j :| LastNaming(lps[..n - 1], id, j) && LastLocked(lps, n - 1, id, other) == Some(lps[j].version);
        assert lps[j] in lps[..n] && lps[..n - 1][j] == lps[j];
        assert LastNaming(lps[..n], id, j);
      }
    }
  }

  /** The preferred version is the one in the lock of the last depender, the root aside, whose lock names
      the project; there is none exactly when no such lock does. */
  lemma {:induction false} PreferredExactly(w: World, ds: seq<Dependency>, n: nat, id: ProjectIdentifier)
    requires n <= |ds|
    ensures match Preferred(w, ds, n, id)
            case Some(v) => exists k, j :: PreferredAt(w, ds[..n], id, v, k, j)
            case None => forall d <- ds[..n] :: !NamesProject(LockOfDepender(w, d), id)
  {
    if n == 0 {
    } else {
      var d, lps := ds[n - 1], LockOfDepender(w, ds[n - 1]);
      PreferredExactly(w, ds, n - 1, id);
      assert ds[..n] == ds[..n - 1] + [d] && lps[..|lps|] == lps;
      LastLockedExactly(lps, |lps|, id, Preferred(w, ds, n - 1, id));
      PreferredStep(w, ds, n, id);
      hide LastLocked;
      hide NamesProject;
      hide Preferred;
      hide LockOfDepender;
      if NamesProject(lps, id) {
        var j :| LastNaming(lps, id, j) && Preferred(w, ds, n, id) == Some(lps[j].version);
        assert PreferredAt(w, ds[..n], id, lps[j].version, n - 1, j);
      } else if Preferred(w, ds, n - 1, id).Some? {
        var v := Preferred(w, ds, n - 1, id).value;
        var k, j :| PreferredAt(w, ds[..n - 1], id, v, k, j);
        assert forall i | k <= i < n - 1 :: ds[..n][i] == ds[..n - 1][i];
        assert PreferredAt(w, ds[..n], id, v, k, j);
      }
    }
  }

  lemma PreferredStep(w: World, ds: seq<Dependency>, n: nat, id: ProjectIdentifier)
    requires 0 < n <= |ds|
    ensures var lps := LockOfDepender(w, ds[n - 1]);
            Preferred(w, ds, n, id) == LastLocked(lps, |lps|, id, Preferred(w, ds, n - 1, id))
  {
  }

  /** The version that comes with a queue entry is the one that the atom's own lock holds for exactly that
      identifier, the last one if it holds several; there is none exactly when it holds none. */
  lemma PreferenceExactly(w: World, a: Atom, id: ProjectIdentifier)
    ensures var m := w.analysis(a);
            var lps := if m.Some? && m.value.lock.Some? then m.value.lock.value else [];
            match PreferenceOf(w, a, id)
            case None => forall lp <- lps :: lp.ident != id
            case Some(v) =>
              exists j | 0 <= j < |lps| ::
                lps[j].ident == id && lps[j].version == v && forall k | j < k < |lps| :: lps[k].ident != id
  {
    var m := w.analysis(a);
    if m.Some? && m.value.lock.Some? { LockedExactly(m.value.lock.value, |m.value.lock.value|, id); }
    hide Locked;
  }

  lemma {:induction false} LockedExactly(lps: seq<LockedProject>, n: nat, id: ProjectIdentifier)
    requires n <= |lps|
    ensures if id in Locked(lps, n) then
              exists j | 0 <= j < n ::
                lps[j].ident == id && lps[j].version == Locked(lps, n)[id] && forall k | j < k < n :: lps[k].ident != id
            else forall j | 0 <= j < n :: lps[j].ident != id
  {
    if n == 0 {
    } else {
      LockedExactly(lps, n - 1, id);
    }
  }

  // ---------------------------------------------------------------- what a queue holds

  /** The version that is preferred for an entry: what dependers' locks say for an entry of the root's,
      what came with the entry otherwise. */
  function Preference(w: World, ds: seq<Dependency>, e: Bimodal): Option<Version> {
    if e.fromRoot then Preferred(w, ds, |ds|, e.id) else e.prefv
  }

  /** The root's lock counts, unless the project may change and its source is there. */
  lemma LockForExactly(w: World, id: ProjectIdentifier, v: Version)
    ensures LockFor(w, id) == Some(v) <==>
              && id.root in w.lock && w.lock[id.root].version == v
              && !((w.changeAll || id.root in w.change) && w.sourceExists(id) == Some(true))
  {
  }

  /** No queue can be had exactly when there is neither a source nor vendored code for the project, or
      nobody can tell; when the project is to change and has no source; and when the list of versions is
      needed, nothing being locked or preferred, and cannot be had. */
  lemma ObtainableExactly(w: World, ds: seq<Dependency>, e: Bimodal)
    ensures !Obtainable(w, ds, e) <==>
              || w.sourceExists(e.id) == None
              || (w.sourceExists(e.id) == Some(false) && w.vendorCodeExists(e.id) != Some(true))
              || (w.sourceExists(e.id) == Some(false) && e.id.root in w.change && |w.lock| > 0)
              || (w.versions(e.id) == None && Preference(w, ds, e) == None == LockFor(w, e.id))
  {
    hide Preferred;
    hide LockFor;
    match w.sourceExists(e.id)
    case None =>
    case Some(known) => assert w.sourceExists(e.id) == if known then Some(true) else Some(false);
  }

  /** Where a revision is demanded, a queue that is not empty offers it first, and behind it, if it was
      not first already, what it would offer otherwise. */
  lemma DemandedFirst(w: World, ds: seq<Dependency>, e: Bimodal, r: string)
    requires Composite(ds, |ds|) == Exactly(Revision(r)) && Assembled(w, ds, e) != []
    ensures var s, q := Schedule(w, e.id, LockFor(w, e.id), Preference(w, ds, e)), Assembled(w, ds, e);
            q[0] == Revision(r) && (if s[0] == Revision(r) then q == s else q[1..] == s)
  {
    hide Composite;
    hide Schedule;
    hide Preferred;
    hide LockFor;
  }

  /** Where none is demanded, a queue over a duplicate-free list holds exactly the lock, the preference and
      the listed versions, in that order, and no other; with an unreadable list the first two. */
  lemma QueueHoldsExactly(w: World, ds: seq<Dependency>, e: Bimodal, v: Version)
    requires var c := Composite(ds, |ds|); !(c.Exactly? && c.v.Revision?)
    requires w.versions(e.id).Some? ==> Distinct(w.versions(e.id).value)
    ensures var q, lockv, prefv := Assembled(w, ds, e), LockFor(w, e.id), Preference(w, ds, e);
            && (v in q <==>
                  || lockv == Some(v) || prefv == Some(v)
                  || (w.versions(e.id).Some? && v in w.versions(e.id).value))
            && (lockv.Some? ==> q[0] == lockv.value)
            && (prefv.Some? ==> q[if lockv.Some? then 1 else 0] == prefv.value)
  {
    var lockv, prefv := LockFor(w, e.id), Preference(w, ds, e);
    hide Composite;
    hide Preferred;
    hide LockFor;
    if w.versions(e.id).Some? { ScheduleOffersEachOnce(w, e.id, lockv, prefv); }
    hide Unoffered;
  }

  /** Revision x is demanded of the entry's project, the queue is not empty, and x passes its checks. */
  ghost predicate DemandedPasses(v: View, e: Bimodal, x: string) {
    var ds := On(v.deps, e.id.root);
    && Composite(ds, |ds|) == Exactly(Revision(x)) && QueueFor(v, e) != []
    && v.Passing(AtomWithPackages(Atom(e.id, Revision(x)), e.pl), false)
  }

  /** Where the demanded revision passes its checks, the queue stands at it. */
  lemma StandsAtDemanded(v: View, e: Bimodal, r: string)
    requires DemandedPasses(v, e, r)
    ensures var q := QueueFor(v, e);
            q[0] == Revision(r) && Left(v, e.id, q, e.pl) == q && !NoneAccepted(v, e.id, q, e.pl)
  {
    var q := QueueFor(v, e);
    DemandedFirst(v.env.w, On(v.deps, e.id.root), e, r);
    hide Composite;
    hide Assembled;
    hide View.Passing;
    v.AcceptsExactly(e.id, q, e.pl);
    LeftIsEmptyExactly(v, e.id, q, e.pl);
    hide NoneAccepted;
    hide View.Accepts;
  }

  /** A queue of which `left` is left stands at the demanded revision, if that passes its checks. */
  ghost predicate StandsRight(v: View, e: Bimodal, left: seq<Version>) {
    forall x | DemandedPasses(v, e, x) :: left != [] && left[0] == Revision(x)
  }

  /** So it is with the queue that a search has gone through. */
  lemma Stands(v: View, e: Bimodal, rem: seq<Version>, found: bool, left: seq<Version>)
    requires rem == QueueFor(v, e)
    requires if found then left == Left(v, e.id, rem, e.pl) else NoneAccepted(v, e.id, rem, e.pl)
    ensures StandsRight(v, e, if found then left else [])
  {
    forall x | DemandedPasses(v, e, x) ensures found && left != [] && left[0] == Revision(x) {
      StandsAtDemanded(v, e, x);
      assert rem != [];
    }
    hide DemandedPasses;
    hide Left;
    hide NoneAccepted;
    hide QueueFor;
  }

  /** ... and nothing but that revision and what is paired with it can be selected. */
  lemma OnlyDemanded(v: View, a: AtomWithPackages, r: string)
    requires var ds := On(v.deps, a.a.id.root); Composite(ds, |ds|) == Exactly(Revision(r))
    requires v.Passing(a, false)
    ensures a.a.v == Revision(r) || (a.a.v.Pair? && a.a.v.rev == r)
  {
    assert AtomAllowable(v.deps, a.a);
    RevisionAdmitsExactly(r, a.a.v);
    hide Composite;
    hide Matches;
    hide RequiredPackagesExist;
    hide DepAllowed;
  }
}
