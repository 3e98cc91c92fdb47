/** The version and constraint algebra of `gps/constraint.go` and `gps/version.go`.

    Semver versions are positions on a line (what their order and `Equal` see) together with
    the text they were written as, and a semver range is a finite union of non-empty
    intervals of positions, so that intersection is exact and emptiness is decidable. */
module Versions {
  import opened Wrappers

  // ---------------------------------------------------------------- semver ranges

  /** The positions p with lo <= p, and p < hi when there is an upper bound. */
  datatype Interval = Interval(lo: int, hi: Option<int>) {
    predicate Inhabited() {
      hi.Some? ==> lo < hi.value
    }

    predicate Contains(p: int) {
      lo <= p && (hi.Some? ==> p < hi.value)
    }

    function Meet(that: Interval): Interval {
      Interval(if lo < that.lo then that.lo else lo,
               match (hi, that.hi)
               case (None, h) => h
               case (h, None) => h
               case (Some(a), Some(b)) => Some(if a < b then a else b))
    }
  }

  type Range = r: seq<Interval> | forall i <- r :: i.Inhabited() witness []

  predicate InRange(r: Range, p: int) {
    exists i <- r :: i.Contains(p)
  }

  function MeetEach(i: Interval, r: Range): Range {
    if r == [] then []
    else
      var m := i.Meet(r[0]);
      (if m.Inhabited() then [m] else []) + MeetEach(i, r[1..])
  }

  function MeetRanges(a: Range, b: Range): Range {
    if a == [] then [] else MeetEach(a[0], b) + MeetRanges(a[1..], b)
  }

  lemma {:induction false} MeetEachExact(i: Interval, r: Range, p: int)
    ensures InRange(MeetEach(i, r), p) <==> i.Contains(p) && InRange(r, p)
  {
    if r == [] {
    } else {
      MeetEachExact(i, r[1..], p);
      var m := i.Meet(r[0]);
      var front: Range := if m.Inhabited() then [m] else [];
      InRangeConcat(front, MeetEach(i, r[1..]), p);
      assert m.Contains(p) <==> i.Contains(p) && r[0].Contains(p);
      assert InRange(front, p) <==> m.Contains(p) by { assert m.Inhabited() ==> m in front; }
      assert r == [r[0]] + r[1..];
      InRangeConcat([r[0]], r[1..], p);
      assert r[0] in [r[0]];
    }
  }

  lemma InRangeConcat(a: Range, b: Range, p: int)
    ensures InRange(a + b, p) <==> InRange(a, p) || InRange(b, p)
  {
    assert forall i :: i in a + b <==> i in a || i in b;
  }

  /** Intersection of ranges is intersection of the positions they admit. */
  lemma {:induction false} MeetRangesExact(a: Range, b: Range, p: int)
    ensures InRange(MeetRanges(a, b), p) <==> InRange(a, p) && InRange(b, p)
  {
    if a == [] {
    } else {
      MeetEachExact(a[0], b, p);
      MeetRangesExact(a[1..], b, p);
      InRangeConcat(MeetEach(a[0], b), MeetRanges(a[1..], b), p);
      assert a == [a[0]] + a[1..];
      InRangeConcat([a[0]], a[1..], p);
    }
  }

  /** A range with no interval is the only one that admits nothing. */
  lemma InhabitedRange(r: Range)
    ensures r == [] <==> forall p :: !InRange(r, p)
  {
    if r != [] {
      assert r[0].Contains(r[0].lo);
      assert InRange(r, r[0].lo);
    }
  }

  // ---------------------------------------------------------------- versions and constraints

  datatype SemVersion = SemVersion(position: int, original: string)

  datatype Unpaired =
    | Branch(name: string, isDefault: bool)
    | Plain(name: string)
    | Sem(sv: SemVersion)

  datatype Version =
    | Revision(rev: string)
    | Bare(u: Unpaired)
    | Pair(u: Unpaired, rev: string)

  datatype Constraint =
    | Any
    | Nothing
    | SemverRange(range: Range)
    | Exactly(v: Version)

  /** How an unpaired version, acting as a constraint, sees another unpaired version. */
  predicate SameUnpaired(a: Unpaired, b: Unpaired) {
    match (a, b)
    case (Branch(m, _), Branch(n, _)) => m == n
    case (Plain(m), Plain(n)) => m == n
    case (Sem(x), Sem(y)) => x.position == y.position
    case _ => false
  }

  predicate VersionMatches(c: Version, v: Version) {
    match c
    case Revision(r) =>
      (match v
       case Revision(r2) => r == r2
       case Pair(_, r2) => r == r2
       case Bare(_) => false)
    case Bare(u) =>
      (match v
       case Revision(_) => false
       case Bare(u2) => SameUnpaired(u, u2)
       case Pair(u2, _) => SameUnpaired(u, u2))
    case Pair(u, r) =>
      (match v
       case Pair(_, r2) => r == r2
       case Revision(r2) => r == r2
       case Bare(u2) => SameUnpaired(u, u2))
  }

  predicate Matches(c: Constraint, v: Version) {
    match c
    case Any => true
    case Nothing => false
    case SemverRange(range) =>
      (match v
       case Bare(Sem(sv)) => InRange(range, sv.position)
       case Pair(Sem(sv), _) => InRange(range, sv.position)
       case _ => false)
    case Exactly(w) => VersionMatches(w, v)
  }

  function IntersectRange(range: Range, c2: Constraint): Constraint {
    match c2
    case Any => SemverRange(range)
    case Nothing => Nothing
    case SemverRange(range2) =>
      var m := MeetRanges(range, range2);
      if m == [] then Nothing else SemverRange(m)
    case Exactly(Bare(Sem(sv))) => if InRange(range, sv.position) then c2 else Nothing
    case Exactly(Pair(Sem(sv), _)) => if InRange(range, sv.position) then c2 else Nothing
    case Exactly(_) => Nothing
  }

  function IntersectRevision(r: string, c2: Constraint): Constraint {
    match c2
    case Any => Exactly(Revision(r))
    case Exactly(Revision(r2)) => if r == r2 then Exactly(Revision(r)) else Nothing
    case Exactly(Pair(_, r2)) => if r == r2 then Exactly(Revision(r)) else Nothing
    case _ => Nothing
  }

  function IntersectBare(u: Unpaired, c2: Constraint): Constraint {
    match c2
    case Any => Exactly(Bare(u))
    case Exactly(Bare(u2)) => if SameUnpaired(u, u2) then Exactly(Bare(u)) else Nothing
    case Exactly(Pair(u2, _)) => if SameUnpaired(u, u2) then Exactly(Bare(u)) else Nothing
    case SemverRange(range) => if u.Sem? then IntersectRange(range, Exactly(Bare(u))) else Nothing
    case _ => Nothing
  }

  function IntersectPair(u: Unpaired, r: string, c2: Constraint): Constraint {
    var self := Exactly(Pair(u, r));
    match c2
    case Any => self
    case Nothing => Nothing
    case Exactly(Pair(_, r2)) => if r == r2 then Exactly(Revision(r)) else Nothing
    case Exactly(Revision(r2)) => if r == r2 then Exactly(Revision(r)) else Nothing
    case SemverRange(range) =>
      if u.Sem? && IntersectRange(range, Exactly(Bare(u))) == Exactly(Bare(u)) then self else Nothing
    case Exactly(Bare(u2)) =>
      if u.Sem?
      then (if SameUnpaired(u, u2) then self else Nothing)
      else (if Matches(c2, Pair(u, r)) then self else Nothing)
  }

  function Intersect(c: Constraint, c2: Constraint): Constraint {
    match c
    case Any => c2
    case Nothing => Nothing
    case SemverRange(range) => IntersectRange(range, c2)
    case Exactly(Revision(r)) => IntersectRevision(r, c2)
    case Exactly(Bare(u)) => IntersectBare(u, c2)
    case Exactly(Pair(u, r)) => IntersectPair(u, r, c2)
  }

  predicate MatchesAny(c: Constraint, c2: Constraint) {
    match c
    case Any => true
    case Nothing => false
    case SemverRange(range) => IntersectRange(range, c2) != Nothing
    case Exactly(Revision(r)) =>
      (match c2
       case Any => true
       case Exactly(Revision(r2)) => r == r2
       case Exactly(Pair(_, r2)) => r == r2
       case _ => false)
    case Exactly(Bare(u)) =>
      (match c2
       case Any => true
       case Exactly(Bare(u2)) => SameUnpaired(u, u2)
       case Exactly(Pair(u2, _)) => SameUnpaired(u, u2)
       case SemverRange(range) => u.Sem? && IntersectRange(range, Exactly(Bare(u))) != Nothing
       case _ => false)
    case Exactly(Pair(u, r)) => Matches(c2, Pair(u, r))
  }

  // ---------------------------------------------------------------- the laws

  /** A constraint that a manifest can write: not a pair, and not an empty range. */
  predicate Writable(c: Constraint) {
    && (c.Exactly? ==> !c.v.Pair?)
    && (c.SemverRange? ==> c.range != [])
  }

  /** A revision and a constraint on names never meet: the code does not know which revision
      a name stands for, so their intersection is empty even when some pair matches both. */
  predicate Incomparable(a: Constraint, b: Constraint) {
    || (a.Exactly? && a.v.Revision? && !b.Any? && !(b.Exactly? && b.v.Revision?))
    || (b.Exactly? && b.v.Revision? && !a.Any? && !(a.Exactly? && a.v.Revision?))
  }

  /** A name, taken as a constraint, admits a version of the same kind and name, paired or not: a branch
      the branch so called, a plain version the one so called, a semver version those at its position.
      It admits no revision. */
  lemma NameAdmitsExactly(u: Unpaired, u2: Unpaired, r: string)
    ensures Matches(Exactly(Bare(u)), Bare(u2)) <==>
            || (u.Branch? && u2.Branch? && u.name == u2.name)
            || (u.Plain? && u2.Plain? && u.name == u2.name)
            || (u.Sem? && u2.Sem? && u.sv.position == u2.sv.position)
    ensures Matches(Exactly(Bare(u)), Pair(u2, r)) <==> Matches(Exactly(Bare(u)), Bare(u2))
    ensures !Matches(Exactly(Bare(u)), Revision(r))
  {
  }

  /** Two names meet, as constraints, exactly then; a name and a revision never do. */
  lemma NamesMeetExactly(u: Unpaired, u2: Unpaired, r: string)
    ensures Intersect(Exactly(Bare(u)), Exactly(Bare(u2))) != Nothing <==>
            || (u.Branch? && u2.Branch? && u.name == u2.name)
            || (u.Plain? && u2.Plain? && u.name == u2.name)
            || (u.Sem? && u2.Sem? && u.sv.position == u2.sv.position)
    ensures MatchesAny(Exactly(Bare(u)), Exactly(Bare(u2))) <==>
            Intersect(Exactly(Bare(u)), Exactly(Bare(u2))) != Nothing
    ensures Intersect(Exactly(Bare(u)), Exactly(Revision(r))) == Nothing ==
            Intersect(Exactly(Revision(r)), Exactly(Bare(u)))
  {
  }

  /** A revision admits itself and what is paired with it; a pair, what has its revision, and its name. */
  lemma RevisionAdmitsExactly(r: string, v: Version)
    ensures Matches(Exactly(Revision(r)), v) <==> v == Revision(r) || (v.Pair? && v.rev == r)
    ensures forall u :: Matches(Exactly(Pair(u, r)), v) <==>
            if v.Bare? then Matches(Exactly(Bare(u)), v) else v.rev == r
  {
  }

  /** A range admits the semver versions at its positions, paired or not, and nothing else. */
  lemma RangeAdmitsExactly(range: Range, v: Version)
    ensures Matches(SemverRange(range), v) <==>
            && !v.Revision? && v.u.Sem?
            && exists i <- range :: i.lo <= v.u.sv.position && (i.hi.Some? ==> v.u.sv.position < i.hi.value)
  {
    if !v.Revision? && v.u.Sem? {
      forall i <- range
        ensures i.Contains(v.u.sv.position) <==>
                i.lo <= v.u.sv.position && (i.hi.Some? ==> v.u.sv.position < i.hi.value)
      {
      }
    }
  }

  lemma IntersectWritable(a: Constraint, b: Constraint)
    requires Writable(a) && Writable(b)
    ensures Writable(Intersect(a, b))
  {
  }

  /** What an intersection admits, for all versions including pairs: exactly what both sides
      admit, except that a revision and a name have nothing in common. */
  lemma IntersectExact(a: Constraint, b: Constraint, v: Version)
    requires Writable(a) && Writable(b)
    ensures Matches(Intersect(a, b), v) <==> Matches(a, v) && Matches(b, v) && !Incomparable(a, b)
  {
    if a.SemverRange? && b.SemverRange? {
      match v {
        case Bare(Sem(sv)) => MeetRangesExact(a.range, b.range, sv.position);
        case Pair(Sem(sv), _) => MeetRangesExact(a.range, b.range, sv.position);
        case _ =>
      }
    }
  }

  /** On versions that carry no revision, and on bare revisions, an intersection admits
      exactly what both sides admit. */
  lemma IntersectIsConjunction(a: Constraint, b: Constraint, v: Version)
    requires Writable(a) && Writable(b) && !v.Pair?
    ensures Matches(Intersect(a, b), v) <==> Matches(a, v) && Matches(b, v)
  {
    IntersectExact(a, b, v);
  }

  /** A pair can match both sides and not their intersection. */
  lemma ConverseFailsForPairs(name: string, r: string)
    ensures var a, b := Exactly(Revision(r)), Exactly(Bare(Plain(name)));
            var v := Pair(Plain(name), r);
            Matches(a, v) && Matches(b, v) && !Matches(Intersect(a, b), v)
  {
    IntersectExact(Exactly(Revision(r)), Exactly(Bare(Plain(name))), Pair(Plain(name), r));
  }

  lemma IntersectCommutes(a: Constraint, b: Constraint, v: Version)
    requires Writable(a) && Writable(b)
    ensures Matches(Intersect(a, b), v) <==> Matches(Intersect(b, a), v)
  {
    IntersectExact(a, b, v);
    IntersectExact(b, a, v);
  }

  lemma IntersectAssociates(a: Constraint, b: Constraint, c: Constraint, v: Version)
    requires Writable(a) && Writable(b) && Writable(c)
    ensures Matches(Intersect(Intersect(a, b), c), v) <==> Matches(Intersect(a, Intersect(b, c)), v)
  {
    IntersectWritable(a, b);
    IntersectWritable(b, c);
    IntersectExact(a, b, v);
    IntersectExact(b, c, v);
    IntersectExact(Intersect(a, b), c, v);
    IntersectExact(a, Intersect(b, c), v);
  }

  /** a is a bare name and b a pair of that name. */
  predicate Swallows(a: Constraint, b: Constraint) {
    a.Exactly? && b.Exactly? && a.v.Bare? && b.v.Pair? && SameUnpaired(a.v.u, b.v.u)
  }

  /** a is a semver range and b a pair of a version in it. */
  predicate Spans(a: Constraint, b: Constraint) {
    a.SemverRange? && b.Exactly? && b.v.Pair? && b.v.u.Sem? && InRange(a.range, b.v.u.sv.position)
  }

  /** A constraint on names meets a pair whose name it admits, in either order. */
  predicate Blurs(a: Constraint, b: Constraint) {
    Swallows(a, b) || Swallows(b, a) || Spans(a, b) || Spans(b, a)
  }

  lemma SwallowsOneWay(a: Constraint, b: Constraint) returns (v: Version)
    requires Swallows(a, b)
    ensures Matches(Intersect(a, b), v) && !Matches(Intersect(b, a), v)
  {
    v := Pair(b.v.u, b.v.rev + "'");
    assert |v.rev| != |b.v.rev|;
  }

  /** For all constraints, pairs included: the two orders of intersection admit the same versions
      exactly when neither is a bare name and the other a pair of it. */
  lemma CommutesExactly(a: Constraint, b: Constraint)
    ensures (forall v :: Matches(Intersect(a, b), v) <==> Matches(Intersect(b, a), v)) <==>
            !Swallows(a, b) && !Swallows(b, a)
  {
    if Swallows(a, b) {
      var v := SwallowsOneWay(a, b);
    } else if Swallows(b, a) {
      var v := SwallowsOneWay(b, a);
    } else {
      forall v ensures Matches(Intersect(a, b), v) <==> Matches(Intersect(b, a), v) {
        CommutesAt(a, b, v);
      }
    }
    hide Intersect;
    hide Matches;
    hide Swallows;
  }

  lemma CommutesAt(a: Constraint, b: Constraint, v: Version)
    requires !Swallows(a, b) && !Swallows(b, a)
    ensures Matches(Intersect(a, b), v) <==> Matches(Intersect(b, a), v)
  {
    if a.SemverRange? && b.SemverRange? {
      match v {
        case Bare(Sem(sv)) =>
          MeetRangesExact(a.range, b.range, sv.position);
          MeetRangesExact(b.range, a.range, sv.position);
        case Pair(Sem(sv), _) =>
          MeetRangesExact(a.range, b.range, sv.position);
          MeetRangesExact(b.range, a.range, sv.position);
        case _ =>
      }
    }
  }

  /** A constraint on names that admits the name of a pair. */
  predicate NamesPair(a: Constraint, b: Constraint) {
    Swallows(a, b) || Spans(a, b)
  }

  /** Revisions, or pairs, of one revision. */
  predicate SameRevision(a: Constraint, b: Constraint) {
    && a.Exactly? && b.Exactly? && !a.v.Bare? && !b.v.Bare? && a.v.rev == b.v.rev
  }

  /** The grouping matters: a pair is known by its name to one neighbour, and by its revision, or
      by its name again, to the other. */
  predicate GroupingMatters(a: Constraint, b: Constraint, c: Constraint) {
    || (Swallows(a, b) && Swallows(a, c))
    || (Spans(a, b) && SameRevision(b, c))
    || (NamesPair(c, b) && SameRevision(a, b))
    || (Swallows(b, a) && (SameRevision(a, c) || Swallows(b, c)))
    || (SameRevision(a, c) && Spans(b, a) != Spans(b, c))
  }

  lemma GroupingTells(a: Constraint, b: Constraint, c: Constraint) returns (v: Version)
    requires GroupingMatters(a, b, c)
    ensures Matches(Intersect(Intersect(a, b), c), v) != Matches(Intersect(a, Intersect(b, c)), v)
  {
    if Swallows(a, b) {
      v := a.v;
    } else if Swallows(b, a) {
      v := if Swallows(b, c) then Bare(a.v.u) else Revision(a.v.rev);
    } else {
      v := Revision(if Spans(a, b) then b.v.rev else a.v.rev);
    }
  }

  /** For all constraints, pairs included: the two groupings of an intersection admit the same
      versions exactly when the grouping does not matter in the sense above. */
  lemma AssociatesExactly(a: Constraint, b: Constraint, c: Constraint)
    ensures (forall v :: Matches(Intersect(Intersect(a, b), c), v) <==> Matches(Intersect(a, Intersect(b, c)), v)) <==>
            !GroupingMatters(a, b, c)
  {
    if GroupingMatters(a, b, c) {
      var v := GroupingTells(a, b, c);
    } else {
      forall v ensures Matches(Intersect(Intersect(a, b), c), v) <==> Matches(Intersect(a, Intersect(b, c)), v) {
        AssociatesAt(a, b, c, v);
      }
    }
    hide Intersect;
    hide Matches;
    hide GroupingMatters;
  }

  lemma AssociatesAt(a: Constraint, b: Constraint, c: Constraint, v: Version)
    requires !GroupingMatters(a, b, c)
    ensures Matches(Intersect(Intersect(a, b), c), v) <==> Matches(Intersect(a, Intersect(b, c)), v)
  {
    RangesMeet(a, b);
    RangesMeet(b, c);
    RangesMeet(Intersect(a, b), c);
    RangesMeet(a, Intersect(b, c));
    hide MeetRanges;
    hide InRange;
  }

  lemma RangesMeet(a: Constraint, b: Constraint)
    ensures forall p :: !InRange([], p)
    ensures a.SemverRange? && b.SemverRange? ==>
              forall p :: InRange(MeetRanges(a.range, b.range), p) <==> InRange(a.range, p) && InRange(b.range, p)
  {
    if a.SemverRange? && b.SemverRange? {
      forall p ensures InRange(MeetRanges(a.range, b.range), p) <==> InRange(a.range, p) && InRange(b.range, p) {
        MeetRangesExact(a.range, b.range, p);
      }
    }
  }

  /** For all constraints, pairs included: everything that the intersection admits is admitted by
      both sides exactly when no constraint on names meets a pair of a name it admits. */
  lemma AdmitsNoMoreExactly(a: Constraint, b: Constraint)
    ensures (forall v | Matches(Intersect(a, b), v) :: Matches(a, v) && Matches(b, v)) <==> !Blurs(a, b)
  {
    if Blurs(a, b) {
      var v := BlursSomething(a, b);
    } else {
      forall v | Matches(Intersect(a, b), v) ensures Matches(a, v) && Matches(b, v) {
        AdmitsNoMoreAt(a, b, v);
      }
    }
    hide Intersect;
    hide Matches;
    hide Blurs;
  }

  lemma BlursSomething(a: Constraint, b: Constraint) returns (v: Version)
    requires Blurs(a, b)
    ensures Matches(Intersect(a, b), v) && !(Matches(a, v) && Matches(b, v))
  {
    if Swallows(a, b) {
      v := SwallowsOneWay(a, b);
    } else {
      v := Revision(if a.Exactly? && a.v.Pair? then a.v.rev else b.v.rev);
    }
  }

  lemma AdmitsNoMoreAt(a: Constraint, b: Constraint, v: Version)
    requires !Blurs(a, b) && Matches(Intersect(a, b), v)
    ensures Matches(a, v) && Matches(b, v)
  {
    if a.SemverRange? && b.SemverRange? {
      match v {
        case Bare(Sem(sv)) => MeetRangesExact(a.range, b.range, sv.position);
        case Pair(Sem(sv), _) => MeetRangesExact(a.range, b.range, sv.position);
        case _ =>
      }
    }
  }

  /** Two ranges have no common version exactly when their meet has no interval, which is what the
      code tests. */
  lemma MeetIsEmptyExactly(a: Range, b: Range)
    ensures IntersectRange(a, SemverRange(b)) == Nothing <==>
            forall v :: !(Matches(SemverRange(a), v) && Matches(SemverRange(b), v))
  {
    var m := MeetRanges(a, b);
    InhabitedRange(m);
    forall p ensures InRange(m, p) <==> InRange(a, p) && InRange(b, p) {
      MeetRangesExact(a, b, p);
    }
    if m != [] {
      var p :| InRange(m, p);
      assert Matches(SemverRange(a), Bare(Sem(SemVersion(p, ""))))
          && Matches(SemverRange(b), Bare(Sem(SemVersion(p, ""))));
    }
  }

  /** `MatchesAny` predicts whether the intersection is empty, with one exception: the open
      constraint claims to meet even the empty one. */
  lemma MatchesAnyExact(a: Constraint, b: Constraint)
    requires Writable(a) && Writable(b)
    ensures (MatchesAny(a, b) == (Intersect(a, b) != Nothing)) <==> !(a.Any? && b.Nothing?)
  {
  }

  /** Every constraint but the empty one admits some version. */
  lemma SomeVersion(c: Constraint) returns (v: Version)
    requires Writable(c) && c != Nothing
    ensures Matches(c, v)
  {
    match c {
      case Any => v := Revision("");
      case SemverRange(range) =>
        v := Bare(Sem(SemVersion(range[0].lo, "")));
        assert range[0].Contains(range[0].lo);
      case Exactly(w) => v := w;
    }
  }
}
