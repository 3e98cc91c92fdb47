/** `gps/version_queue.go`: the versions of one project still to be tried, with the locked and
    the preferred version up front and the full list loaded only when those run out. */
module VersionQueues {
  import opened Wrappers
  import opened Strings
  import opened Versions
  import opened Bridge

  // ---------------------------------------------------------------- specification

  function OptionSeq<T>(o: Option<T>): seq<T> {
    match o case None => [] case Some(x) => [x]
  }

  predicate Offered(v: Version, lockv: Option<Version>, prefv: Option<Version>) {
    Some(v) == lockv || Some(v) == prefv
  }

  /** The first n of the list, without the two versions that were already offered. */
  function Kept(vs: seq<Version>, n: nat, lockv: Option<Version>, prefv: Option<Version>): seq<Version>
    requires n <= |vs|
  {
    if n == 0 then []
    else Kept(vs, n - 1, lockv, prefv) + (if Offered(vs[n - 1], lockv, prefv) then [] else [vs[n - 1]])
  }

  function Unoffered(vs: seq<Version>, lockv: Option<Version>, prefv: Option<Version>): seq<Version> {
    Kept(vs, |vs|, lockv, prefv)
  }

  lemma {:induction false} KeptMembers(vs: seq<Version>, n: nat, lockv: Option<Version>, prefv: Option<Version>,
                                       v: Version)
    requires n <= |vs|
    ensures v in Kept(vs, n, lockv, prefv) <==> v in vs[..n] && !Offered(v, lockv, prefv)
  {
    if n == 0 {
    } else {
      KeptMembers(vs, n - 1, lockv, prefv, v);
    }
  }

  lemma {:induction false} KeptDistinct(vs: seq<Version>, n: nat, lockv: Option<Version>, prefv: Option<Version>)
    requires n <= |vs| && Distinct(vs)
    ensures Distinct(Kept(vs, n, lockv, prefv))
  {
    if n == 0 {
    } else {
      KeptDistinct(vs, n - 1, lockv, prefv);
      KeptMembers(vs, n - 1, lockv, prefv, vs[n - 1]);
    }
  }

  /** Every version a new queue will offer, in order. */
  function Schedule(w: World, id: ProjectIdentifier, lockv: Option<Version>, prefv: Option<Version>): seq<Version> {
    var listed := w.versions(id);
    OptionSeq(lockv) + OptionSeq(prefv) + (if listed.Some? then Unoffered(listed.value, lockv, prefv) else [])
  }

  /** A queue over a duplicate-free list offers each listed version, the locked one and the
      preferred one, and no other; and none twice, exactly when the locked and the preferred
      version are not one and the same. */
  lemma ScheduleOffersEachOnce(w: World, id: ProjectIdentifier, lockv: Option<Version>, prefv: Option<Version>)
    requires w.versions(id).Some? && Distinct(w.versions(id).value)
    ensures var s := Schedule(w, id, lockv, prefv);
            && (forall v :: v in s <==> v in w.versions(id).value || Some(v) == lockv || Some(v) == prefv)
            && (lockv.Some? ==> s[0] == lockv.value)
            && (prefv.Some? ==> s[|OptionSeq(lockv)|] == prefv.value)
            && (Distinct(s) <==> lockv.None? || lockv != prefv)
  {
    var vs := w.versions(id).value;
    KeptDistinct(vs, |vs|, lockv, prefv);
    var s := Schedule(w, id, lockv, prefv);
    forall v ensures v in Unoffered(vs, lockv, prefv) <==> v in vs && !Offered(v, lockv, prefv) {
      KeptMembers(vs, |vs|, lockv, prefv, v);
      assert vs[..|vs|] == vs;
    }
    if lockv.Some? && lockv == prefv {
      assert s[0] == s[1];
    } else {
      var rest := Unoffered(vs, lockv, prefv);
      assert forall i | 0 <= i < |rest| :: !Offered(rest[i], lockv, prefv) by {
        assert forall i | 0 <= i < |rest| :: rest[i] in rest;
      }
    }
  }

  /** What is left of the list stays in its order. */
  lemma {:induction false} KeptInOrder(vs: seq<Version>, n: nat, lockv: Option<Version>, prefv: Option<Version>,
                                       i: nat, j: nat) returns (a: nat, b: nat)
    requires n <= |vs| && i < j < |Kept(vs, n, lockv, prefv)|
    ensures a < b < n && vs[a] == Kept(vs, n, lockv, prefv)[i] && vs[b] == Kept(vs, n, lockv, prefv)[j]
  {
    if j < |Kept(vs, n - 1, lockv, prefv)| {
      a, b := KeptInOrder(vs, n - 1, lockv, prefv, i, j);
    } else {
      KeptMembers(vs, n - 1, lockv, prefv, Kept(vs, n, lockv, prefv)[i]);
      a :| 0 <= a < n - 1 && vs[..n - 1][a] == Kept(vs, n, lockv, prefv)[i];
      b := n - 1;
    }
  }

  /** Behind the lock and the preference a queue offers the listed versions in the order of the list. */
  lemma ScheduleKeepsOrder(w: World, id: ProjectIdentifier, lockv: Option<Version>, prefv: Option<Version>,
                           i: nat, j: nat) returns (a: nat, b: nat)
    requires w.versions(id).Some? && |OptionSeq(lockv)| + |OptionSeq(prefv)| <= i < j < |Schedule(w, id, lockv, prefv)|
    ensures var s, vs := Schedule(w, id, lockv, prefv), w.versions(id).value;
            a < b < |vs| && vs[a] == s[i] && vs[b] == s[j]
  {
    var n, vs := |OptionSeq(lockv)| + |OptionSeq(prefv)|, w.versions(id).value;
    a, b := KeptInOrder(vs, |vs|, lockv, prefv, i - n, j - n);
    hide Kept;
  }

  // ---------------------------------------------------------------- the queue

  datatype FailedVersion<+E> = FailedVersion(v: Version, f: Option<E>)

  class VersionQueue<E> {
    const w: World
    const id: ProjectIdentifier
    const lockv: Option<Version>
    const prefv: Option<Version>
    var pi: seq<Version>
    var fails: seq<FailedVersion<E>>
    var failed: bool
    var allLoaded: bool
    var adverr: bool

    ghost predicate Valid()
      reads this`pi, this`allLoaded, this`adverr
    {
      && (adverr ==> allLoaded && pi == [])
      && (pi == [] ==> allLoaded)
    }

    /** What the queue has still to offer, the current version included. */
    ghost function Remaining(): seq<Version>
      reads this`pi, this`allLoaded
    {
      if allLoaded || w.versions(id).None? then pi
      else pi + Unoffered(w.versions(id).value, lockv, prefv)
    }

    constructor (w: World, id: ProjectIdentifier, lockv: Option<Version>, prefv: Option<Version>, pi: seq<Version>,
                 allLoaded: bool)
      requires pi == [] ==> allLoaded
      ensures Valid() && this.w == w && this.id == id && this.lockv == lockv && this.prefv == prefv
      ensures this.pi == pi && this.allLoaded == allLoaded && !failed && !adverr && fails == []
    {
      this.w, this.id, this.lockv, this.prefv := w, id, lockv, prefv;
      this.pi, this.fails, failed, this.allLoaded, adverr := pi, [], false, allLoaded, false;
    }

    /** None when the version list is needed at once and cannot be had. */
    static method New(w: World, id: ProjectIdentifier, lockv: Option<Version>, prefv: Option<Version>)
      returns (q: Option<VersionQueue<E>>)
      ensures q.None? <==> lockv.None? && prefv.None? && w.versions(id).None?
      ensures q.Some? ==>
        && fresh(q.value) && q.value.Valid() && q.value.w == w && q.value.id == id
        && q.value.Remaining() == Schedule(w, id, lockv, prefv)
        && !q.value.failed && q.value.fails == []
        && (q.value.allLoaded <==> lockv.None? && prefv.None?)
        && (!q.value.allLoaded ==> q.value.pi == OptionSeq(lockv) + OptionSeq(prefv))
        && (q.value.pi == [] ==> w.versions(id) == Some([]) && q.value.Remaining() == [])
        && (q.value.pi != [] ==>
              Schedule(w, id, lockv, prefv) != [] && q.value.pi[0] == Schedule(w, id, lockv, prefv)[0])
    {
      var pi := [];
      if lockv.Some? { pi := pi + [lockv.value]; }
      if prefv.Some? { pi := pi + [prefv.value]; }
      var allLoaded := false;
      if |pi| == 0 {
        var listed := w.versions(id);
        if listed.None? { return None; }
        pi := listed.value;
        allLoaded := true;
        KeepsBetween(pi, None, None, 0, |pi|);
      }
      var vq := new VersionQueue<E>(w, id, lockv, prefv, pi, allLoaded);
      q := Some(vq);
    }

    method Current() returns (v: Option<Version>)
      requires Valid()
      ensures v == if Remaining() == [] then None else Some(Remaining()[0])
      ensures v.None? <==> pi == []
    {
      v := if |pi| > 0 then Some(pi[0]) else None;
    }

    /** Moves past the current version, recording why. True reports that the version list was
        needed and could not be had; otherwise exactly the current version is gone from what
        remains, and the failure mark is lifted if something remains. */
    method Advance(fail: Option<E>) returns (err: bool)
      requires Valid()
      modifies this`pi, this`fails, this`failed, this`allLoaded, this`adverr
      ensures Valid()
      ensures old(pi) == [] ==>
                err == old(adverr) && Remaining() == old(Remaining()) == [] && fails == old(fails)
                    && failed == old(failed)
      ensures old(pi) != [] ==>
        && old(Remaining()) != []
        && fails == old(fails) + [FailedVersion(old(Remaining())[0], fail)]
        && err == (|old(pi)| == 1 && !old(allLoaded) && w.versions(id).None?)
        && (err ==> Remaining() == [])
        && Remaining() == old(Remaining())[1..]
        && failed == (old(failed) && Remaining() == [])
    {
      hide Kept;
      if adverr || |pi| == 0 { return adverr; }
      fails := fails + [FailedVersion(pi[0], fail)];
      pi := pi[1..];
      if |pi| == 0 {
        if allLoaded { return false; }
        allLoaded := true;
        var vltmp := w.versions(id);
        adverr := vltmp.None?;
        if adverr { return true; }
        pi := DeleteOffered(vltmp.value, lockv, prefv);
        if |pi| == 0 { return false; }
      }
      failed := false;
      return false;
    }

    /** Exact for every valid queue, not only after an advance. */
    method IsExhausted() returns (b: bool)
      requires Valid()
      ensures b <==> Remaining() == []
      ensures b <==> pi == []
    {
      b := if !allLoaded then false else |pi| == 0;
    }
  }

  /** The positions below n of the versions already offered, in order. */
  function Positions(vs: seq<Version>, n: nat, lockv: Option<Version>, prefv: Option<Version>): seq<nat>
    requires n <= |vs|
  {
    if n == 0 then []
    else Positions(vs, n - 1, lockv, prefv) + (if Offered(vs[n - 1], lockv, prefv) then [n - 1] else [])
  }

  /** First pass over the loaded list. */
  method OfferedPositions(vs: seq<Version>, lockv: Option<Version>, prefv: Option<Version>) returns (delkeys: seq<nat>)
    ensures delkeys == Positions(vs, |vs|, lockv, prefv)
  {
    delkeys := [];
    for k := 0 to |vs|
      invariant delkeys == Positions(vs, k, lockv, prefv)
    {
      if Some(vs[k]) == lockv || Some(vs[k]) == prefv {
        delkeys := delkeys + [k];
      }
    }
  }

  /** Second pass, in place: splice those positions out one by one, each shifted by the number
      already gone. Together the passes are a filter. */
  method DeleteOffered(vs: seq<Version>, lockv: Option<Version>, prefv: Option<Version>) returns (pi: seq<Version>)
    ensures pi == Unoffered(vs, lockv, prefv)
  {
    hide Kept;
    hide Positions;
    var delkeys := OfferedPositions(vs, lockv, prefv);
    pi := vs;
    SplicedNone(vs, lockv, prefv);
    for k := 0 to |delkeys|
      invariant Done(delkeys, k) <= |vs|
      invariant pi == Kept(vs, Done(delkeys, k), lockv, prefv) + vs[Done(delkeys, k)..]
    {
      var dk := delkeys[k] - k;
      SpliceOne(vs, lockv, prefv, k, pi);
      pi := pi[..dk] + pi[dk + 1..];
    }
    SplicedAll(vs, lockv, prefv);
  }

  /** One past the k-th position to delete. */
  ghost function Done(ks: seq<nat>, k: nat): nat
    requires k <= |ks|
  {
    if k == 0 then 0 else ks[k - 1] + 1
  }

  lemma SpliceOne(vs: seq<Version>, lockv: Option<Version>, prefv: Option<Version>, k: nat, pi: seq<Version>)
    requires k < |Positions(vs, |vs|, lockv, prefv)|
    requires Done(Positions(vs, |vs|, lockv, prefv), k) <= |vs| ==>
               pi == Kept(vs, Done(Positions(vs, |vs|, lockv, prefv), k), lockv, prefv)
                   + vs[Done(Positions(vs, |vs|, lockv, prefv), k)..]
    ensures var key := Positions(vs, |vs|, lockv, prefv)[k];
            var dk := key - k;
            && key < |vs| && 0 <= dk < |pi|
            && pi[..dk] + pi[dk + 1..] == Kept(vs, key + 1, lockv, prefv) + vs[key + 1..]
  {
    var ks := Positions(vs, |vs|, lockv, prefv);
    NothingBetween(vs, lockv, prefv, k);
    KeptLength(vs, lockv, prefv, k);
    KeepsBetween(vs, lockv, prefv, Done(ks, k), ks[k]);
    DeleteOne(vs, lockv, prefv, Done(ks, k), ks[k], pi, ks[k] - k);
  }

  lemma {:induction false} KeptLength(vs: seq<Version>, lockv: Option<Version>, prefv: Option<Version>, k: nat)
    requires k <= |Positions(vs, |vs|, lockv, prefv)|
    ensures var done := Done(Positions(vs, |vs|, lockv, prefv), k);
            done <= |vs| && |Kept(vs, done, lockv, prefv)| == done - k
  {
    if k == 0 {
    } else {
      var ks := Positions(vs, |vs|, lockv, prefv);
      KeptLength(vs, lockv, prefv, k - 1);
      NothingBetween(vs, lockv, prefv, k - 1);
      KeepsBetween(vs, lockv, prefv, Done(ks, k - 1), ks[k - 1]);
    }
  }

  lemma SplicedNone(vs: seq<Version>, lockv: Option<Version>, prefv: Option<Version>)
    ensures Kept(vs, 0, lockv, prefv) + vs[0..] == vs
  {
  }

  lemma SplicedAll(vs: seq<Version>, lockv: Option<Version>, prefv: Option<Version>)
    ensures var done := Done(Positions(vs, |vs|, lockv, prefv), |Positions(vs, |vs|, lockv, prefv)|);
            done <= |vs| && Kept(vs, done, lockv, prefv) + vs[done..] == Unoffered(vs, lockv, prefv)
  {
    var ks := Positions(vs, |vs|, lockv, prefv);
    NothingBetween(vs, lockv, prefv, |ks|);
    KeepsBetween(vs, lockv, prefv, Done(ks, |ks|), |vs|);
  }

  lemma {:induction false} PositionsExact(vs: seq<Version>, n: nat, lockv: Option<Version>, prefv: Option<Version>)
    requires n <= |vs|
    ensures var ks := Positions(vs, n, lockv, prefv);
            && (forall i, j :: 0 <= i < j < |ks| ==> ks[i] < ks[j])
            && (forall p <- ks :: p < n && Offered(vs[p], lockv, prefv))
            && (forall p | 0 <= p < n :: Offered(vs[p], lockv, prefv) ==> p in ks)
  {
    if n == 0 {
    } else {
      PositionsExact(vs, n - 1, lockv, prefv);
      var front, ks := Positions(vs, n - 1, lockv, prefv), Positions(vs, n, lockv, prefv);
      assert forall p :: p in ks <==> p in front || (p == n - 1 && Offered(vs[n - 1], lockv, prefv));
      assert forall i | 0 <= i < |front| :: front[i] in front;
    }
  }

  /** Between two positions to delete nothing is to be deleted. */
  lemma NothingBetween(vs: seq<Version>, lockv: Option<Version>, prefv: Option<Version>, k: nat)
    requires k <= |Positions(vs, |vs|, lockv, prefv)|
    ensures var ks := Positions(vs, |vs|, lockv, prefv);
            var done := if k == 0 then 0 else ks[k - 1] + 1;
            var end := if k == |ks| then |vs| else ks[k];
            && done <= end <= |vs| && (forall p | done <= p < end :: !Offered(vs[p], lockv, prefv))
            && (k < |ks| ==> end < |vs| && Offered(vs[end], lockv, prefv))
  {
    PositionsExact(vs, |vs|, lockv, prefv);
    var ks := Positions(vs, |vs|, lockv, prefv);
    if k < |ks| { assert ks[k] in ks; }
    if k > 0 { assert ks[k - 1] in ks; }
  }

  lemma {:induction false} KeepsBetween(vs: seq<Version>, lockv: Option<Version>, prefv: Option<Version>, lo: nat,
                                        hi: nat)
    requires lo <= hi <= |vs|
    requires forall i | lo <= i < hi :: !Offered(vs[i], lockv, prefv)
    ensures Kept(vs, hi, lockv, prefv) == Kept(vs, lo, lockv, prefv) + vs[lo..hi]
    decreases hi
  {
    if lo >= hi {
    } else {
      KeepsBetween(vs, lockv, prefv, lo, hi - 1);
      assert vs[lo..hi] == vs[lo..hi - 1] + [vs[hi - 1]];
    }
  }

  lemma DeleteOne(vs: seq<Version>, lockv: Option<Version>, prefv: Option<Version>, done: nat, key: nat,
                  pi: seq<Version>, dk: nat)
    requires done <= key < |vs| && Offered(vs[key], lockv, prefv)
    requires pi == Kept(vs, done, lockv, prefv) + vs[done..]
    requires Kept(vs, key, lockv, prefv) == Kept(vs, done, lockv, prefv) + vs[done..key]
    requires dk == |Kept(vs, key, lockv, prefv)|
    ensures dk < |pi| && pi[..dk] + pi[dk + 1..] == Kept(vs, key + 1, lockv, prefv) + vs[key + 1..]
    ensures |Kept(vs, key + 1, lockv, prefv)| == dk
  {
    assert vs[done..] == vs[done..key] + vs[key..];
    assert pi == Kept(vs, key, lockv, prefv) + vs[key..];
  }
}
