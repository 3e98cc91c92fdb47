/** The indexer's watermark (`pkg/indexer/indexer.go`): readings are fetched and pushed in windows,
    and the end of the last window pushed is kept in the database. Any call may fail, also after
    it has taken effect, and indexing is rerun any number of times. */
module Indexers {
  /** Instants in nanoseconds after Go's zero time; 0 is the zero time, which stands for "none". */
  type Time = nat

  const TEN_DAYS: nat := 864_000_000_000_000

  /** Readings of [from, to] that reached Thingful under a UID. */
  datatype Push = Push(uid: string, from: Time, to: Time)

  datatype Thing = Thing(uid: string, first: Time, last: Time, lastUploaded: Time, nickname: string)

  datatype Location = Location(id: string, first: Time, last: Time, nickname: string)

  /** How a call to Parrot, Thingful or the database ends. */
  datatype Reply = Works | Fails | FailsLate

  function WindowEnd(from: Time, last: Time): Time {
    if last < from + TEN_DAYS then last else from + TEN_DAYS
  }

  predicate HasMoreReadingsToIndex(thing: Thing) {
    thing.lastUploaded < thing.last
  }

  // ---------------------------------------------------------------- the windows

  /** The windows still to push once the watermark is at `from`. */
  function Windows(uid: string, from: Time, last: Time): seq<Push>
    decreases last - from
  {
    if from >= last then [] else [Push(uid, from, WindowEnd(from, last))] + Windows(uid, WindowEnd(from, last), last)
  }

  /** The windows of a whole pass over a thing. */
  function Plan(thing: Thing): seq<Push> {
    if !HasMoreReadingsToIndex(thing) then []
    else if thing.lastUploaded == 0 then FirstWindows(thing.uid, thing.first, thing.last)
    else Windows(thing.uid, thing.lastUploaded, thing.last)
  }

  /** The first window is pushed whatever it holds. */
  function FirstWindows(uid: string, first: Time, last: Time): seq<Push> {
    [Push(uid, first, WindowEnd(first, last))] + Windows(uid, WindowEnd(first, last), last)
  }

  /** One window begins where the one before it ended, and none is longer than ten days. */
  predicate Contiguous(ws: seq<Push>) {
    && (forall i | 0 <= i < |ws| :: ws[i].to <= ws[i].from + TEN_DAYS)
    && (forall i | 0 < i < |ws| :: ws[i].from == ws[i - 1].to)
  }

  /** The watermark after the first n windows. */
  function Mark(ws: seq<Push>, n: nat, start: Time): Time
    requires n <= |ws|
  {
    if n == 0 then start else ws[n - 1].to
  }

  lemma {:induction false} WindowsAreContiguous(uid: string, from: Time, last: Time)
    requires from <= last
    ensures var ws := Windows(uid, from, last);
            && Contiguous([Push(uid, from, from)] + ws)
            && Mark(ws, |ws|, from) == last
            && (forall i | 0 <= i < |ws| :: ws[i].uid == uid && ws[i].from < ws[i].to <= last)
    decreases last - from
  {
    if from >= last {
    } else {
      WindowsAreContiguous(uid, WindowEnd(from, last), last);
      var rest := Windows(uid, WindowEnd(from, last), last);
      var ws := Windows(uid, from, last);
      var chain := [Push(uid, WindowEnd(from, last), WindowEnd(from, last))] + rest;
      assert forall i | 0 < i < |ws| :: ws[i] == chain[i];
    }
  }

  /** Windows that follow on from the first one: contiguous, advancing, ending at the last sample. */
  ghost predicate Shape(ws: seq<Push>, uid: string, first: Time, above: Time, last: Time) {
    && ws != [] && Contiguous(ws) && ws[0].from == first && ws[|ws| - 1].to == last
    && (forall i | 0 <= i < |ws| :: ws[i].uid == uid && ws[i].to > above)
    && (forall i | 0 < i < |ws| :: ws[i].from < ws[i].to)
  }

  /** The plan of a pass is empty when the watermark has reached the last sample. Otherwise its
      windows are contiguous, start at the watermark or, where there is none, at the first sample,
      advance the watermark, and end at the last sample. */
  lemma PlanShape(thing: Thing)
    ensures var ws, l := Plan(thing), thing.lastUploaded;
            if l < thing.last then Shape(ws, thing.uid, if l == 0 then thing.first else l, l, thing.last) else ws == []
  {
    if HasMoreReadingsToIndex(thing) {
      if thing.lastUploaded == 0 {
        FirstWindowsShape(thing.uid, thing.first, thing.last);
      } else {
        NextWindowsShape(thing.uid, thing.lastUploaded, thing.last);
      }
    }
    hide Shape;
  }

  lemma NextWindowsShape(uid: string, from: Time, last: Time)
    requires from < last
    ensures Shape(Windows(uid, from, last), uid, from, from, last)
  {
    WindowsAreContiguous(uid, from, last);
    var ws := Windows(uid, from, last);
    var chain := [Push(uid, from, from)] + ws;
    assert forall i | 0 <= i < |ws| :: ws[i] == chain[i + 1];
    forall i | 0 <= i < |ws|
      ensures ws[i].to > from && (i > 0 ==> ws[i].from == ws[i - 1].to) && ws[i].to <= ws[i].from + TEN_DAYS
    {
      WindowsAbove(uid, from, last, i);
      assert chain[i + 1].from == chain[i].to;
    }
  }

  lemma {:induction false} WindowsAbove(uid: string, from: Time, last: Time, i: nat)
    requires i < |Windows(uid, from, last)|
    ensures Windows(uid, from, last)[i].to > from
    decreases last - from
  {
    if i == 0 {
    } else {
      WindowsAbove(uid, WindowEnd(from, last), last, i - 1);
    }
  }

  lemma FirstWindowsShape(uid: string, first: Time, last: Time)
    requires last > 0
    ensures Shape(FirstWindows(uid, first, last), uid, first, 0, last)
  {
    var to := WindowEnd(first, last);
    WindowsAreContiguous(uid, to, last);
    var rest := Windows(uid, to, last);
    var chain := [Push(uid, to, to)] + rest;
    var ws := FirstWindows(uid, first, last);
    assert forall i | 0 < i < |ws| :: ws[i] == chain[i];
  }

  /** Every window of a plan but the last is ten days long, to the nanosecond. */
  lemma WindowsAreTenDays(thing: Thing, i: nat)
    requires i + 1 < |Plan(thing)|
    ensures Plan(thing)[i].to == Plan(thing)[i].from + TEN_DAYS
  {
    if thing.lastUploaded == 0 {
      if i > 0 { LaterWindows(thing.uid, WindowEnd(thing.first, thing.last), thing.last, i - 1); }
    } else {
      LaterWindows(thing.uid, thing.lastUploaded, thing.last, i);
    }
  }

  lemma {:induction false} LaterWindows(uid: string, from: Time, last: Time, i: nat)
    requires i + 1 < |Windows(uid, from, last)|
    ensures Windows(uid, from, last)[i].to == Windows(uid, from, last)[i].from + TEN_DAYS
    decreases last - from
  {
    if i > 0 { LaterWindows(uid, WindowEnd(from, last), last, i - 1); }
  }

  /** How often ten days go into a span, the last time perhaps in part. */
  function TenDaysIn(from: Time, last: Time): nat {
    if last <= from then 0 else (last - from + TEN_DAYS - 1) / TEN_DAYS
  }

  /** There are as many windows as ten days go into the span from the watermark, or the first sample, to the
      last sample, rounded up; one at least where there is no watermark. */
  lemma PlanCount(thing: Thing)
    requires HasMoreReadingsToIndex(thing)
    ensures var n := TenDaysIn(if thing.lastUploaded == 0 then thing.first else thing.lastUploaded, thing.last);
            |Plan(thing)| == if thing.lastUploaded == 0 && n == 0 then 1 else n
  {
    if thing.lastUploaded == 0 {
      var to := WindowEnd(thing.first, thing.last);
      WindowsCount(thing.uid, to, thing.last);
      if to < thing.last { OneMoreTenDays(thing.first, thing.last); }
    } else {
      WindowsCount(thing.uid, thing.lastUploaded, thing.last);
    }
    hide TenDaysIn;
    ShortSpan(thing.first, thing.last);
  }

  lemma {:induction false} WindowsCount(uid: string, from: Time, last: Time)
    ensures |Windows(uid, from, last)| == TenDaysIn(from, last)
    decreases last - from
  {
    if from >= last {
    } else if last < from + TEN_DAYS {
      WindowsCount(uid, last, last);
      ShortSpan(from, last);
    } else {
      WindowsCount(uid, from + TEN_DAYS, last);
      OneMoreTenDays(from, last);
    }
  }

  lemma ShortSpan(from: Time, last: Time)
    ensures from < last <= from + TEN_DAYS ==> TenDaysIn(from, last) == 1
    ensures last <= from ==> TenDaysIn(from, last) == 0
  {
  }

  lemma OneMoreTenDays(from: Time, last: Time)
    requires from + TEN_DAYS <= last
    ensures TenDaysIn(from, last) == TenDaysIn(from + TEN_DAYS, last) + 1
  {
  }

  lemma PlanEnds(thing: Thing)
    ensures Plan(thing) == [] <==> !HasMoreReadingsToIndex(thing)
  {
  }

  /** Pushing the first window of a plan leaves the rest of the plan. */
  lemma PlanAdvances(thing: Thing)
    requires HasMoreReadingsToIndex(thing)
    ensures var from := if thing.lastUploaded == 0 then thing.first else thing.lastUploaded;
            var to := WindowEnd(from, thing.last);
            && to > thing.lastUploaded
            && Plan(thing) == [Push(thing.uid, from, to)] + Plan(thing.(lastUploaded := to))
  {
    var from := if thing.lastUploaded == 0 then thing.first else thing.lastUploaded;
    var to := WindowEnd(from, thing.last);
    assert Plan(thing.(lastUploaded := to)) == Windows(thing.uid, to, thing.last);
  }

  // ---------------------------------------------------------------- what backs a watermark

  predicate InWindow(p: Push, uid: string, t: Time) {
    p.uid == uid && p.from <= t <= p.to
  }

  ghost predicate PushedAt(pushed: seq<Push>, uid: string, t: Time) {
    exists p <- pushed :: InWindow(p, uid, t)
  }

  /** A pushed window of the UID ends at b, and every instant from a to b lies in one. */
  ghost predicate Covered(pushed: seq<Push>, uid: string, a: Time, b: Time) {
    && (exists p <- pushed :: p.uid == uid && p.to == b)
    && (forall t | a <= t <= b :: PushedAt(pushed, uid, t))
  }

  /** The watermark of a thing, if it has one, is not ahead of what was pushed for its UID. */
  ghost predicate Backed(pushed: seq<Push>, thing: Thing, since: Time) {
    thing.lastUploaded != 0 ==> Covered(pushed, thing.uid, since, thing.lastUploaded)
  }

  lemma BackedMore(pushed: seq<Push>, more: seq<Push>, thing: Thing, since: Time)
    requires Backed(pushed, thing, since)
    ensures Backed(pushed + more, thing, since)
  {
    if thing.lastUploaded != 0 {
      var p :| p in pushed && p.uid == thing.uid && p.to == thing.lastUploaded;
      assert p in pushed + more;
      forall t | since <= t <= thing.lastUploaded ensures PushedAt(pushed + more, thing.uid, t) {
        assert PushedAt(pushed, thing.uid, t);
        var q :| q in pushed && InWindow(q, thing.uid, t);
        assert q in pushed + more;
      }
    }
  }

  /** Pushing the next window backs the next watermark. */
  lemma BackedNext(pushed: seq<Push>, thing: Thing, since: Time, from: Time, to: Time)
    requires Backed(pushed, thing, since)
    requires if thing.lastUploaded == 0 then since == from else from == thing.lastUploaded
    ensures Backed(pushed + [Push(thing.uid, from, to)], thing.(lastUploaded := to), since)
  {
    var w := Push(thing.uid, from, to);
    var now := pushed + [w];
    assert w in now;
    forall t | since <= t <= to ensures PushedAt(now, thing.uid, t) {
      if t < from {
        assert PushedAt(pushed, thing.uid, t);
        var q :| q in pushed && InWindow(q, thing.uid, t);
        assert q in now;
      } else {
        assert InWindow(w, thing.uid, t);
      }
    }
  }

  // ---------------------------------------------------------------- progress through a plan

  /** The first n windows of a plan have been pushed, on top of what was. */
  predicate Sent(now: seq<Push>, was: seq<Push>, plan: seq<Push>, n: nat) {
    n <= |plan| && now == was + plan[..n]
  }

  /** Only the thing at id may differ. */
  predicate OnlyAt(now: map<string, Thing>, was: map<string, Thing>, id: string) {
    id in now && now == was[id := now[id]]
  }

  /** The stored thing once n windows of its plan have been stored. */
  function After(stored: Thing, location: Location, plan: seq<Push>, n: nat): Thing
    requires n <= |plan|
  {
    if n == 0 then stored else Thing(stored.uid, location.first, location.last, plan[n - 1].to, location.nickname)
  }

  /** The thing of a new location once n windows have been stored. */
  function NewThing(location: Location, uid: string, plan: seq<Push>, n: nat): Thing
    requires n <= |plan|
  {
    Thing(uid, location.first, location.last, Mark(plan, n, 0), location.nickname)
  }

  lemma AfterIs(stored: Thing, location: Location, plan: seq<Push>, n: nat)
    requires n <= |plan|
    ensures n == 0 ==> After(stored, location, plan, n) == stored
    ensures n > 0 ==> After(stored, location, plan, n) ==
                      Thing(stored.uid, location.first, location.last, plan[n - 1].to, location.nickname)
  {
  }

  lemma AfterMore(stored: Thing, location: Location, plan: seq<Push>, n: nat)
    requires n < |plan|
    ensures After(stored, location, plan, n + 1)
            == After(stored, location, plan, n).(first := location.first, last := location.last,
                                                 lastUploaded := plan[n].to, nickname := location.nickname)
    ensures After(stored, location, plan, n).lastUploaded == Mark(plan, n, stored.lastUploaded)
  {
  }

  lemma StillOnlyAt(now: map<string, Thing>, mid: map<string, Thing>, was: map<string, Thing>, id: string)
    requires OnlyAt(now, mid, id) && OnlyAt(mid, was, id)
    ensures OnlyAt(now, was, id)
  {
  }

  lemma SentMore(now: seq<Push>, was: seq<Push>, plan: seq<Push>, n: nat, w: Push, rest: seq<Push>, start: Time)
    requires Sent(now, was, plan, n) && plan[n..] == [w] + rest
    ensures Sent(now + [w], was, plan, n + 1) && plan[n + 1..] == rest && Mark(plan, n + 1, start) == w.to
            && plan[n] == w
  {
    assert plan[n] == plan[n..][0] && plan[n + 1..] == plan[n..][1..];
    assert plan[..n + 1] == plan[..n] + [w];
  }

  lemma WindowsUnfold(uid: string, from: Time, last: Time)
    ensures from < last ==>
              Windows(uid, from, last) ==
              [Push(uid, from, WindowEnd(from, last))] + Windows(uid, WindowEnd(from, last), last)
    ensures from >= last ==> Windows(uid, from, last) == []
  {
  }

  class Indexer {
    const reply: nat -> Reply    // how the k-th call ends
    const newUID: nat -> string  // the UID it returns, where it returns one
    var calls: nat
    var db: map<string, Thing>
    var pushed: seq<Push>
    ghost var since: map<string, Time>  // from when on a thing has been pushed under its present UID

    ghost predicate Valid()
      reads this`db, this`pushed, this`since
    {
      db.Keys == since.Keys && forall l <- db :: Backed(pushed, db[l], since[l])
    }

    constructor (reply: nat -> Reply, newUID: nat -> string)
      ensures Valid() && db == map[] && pushed == []
    {
      this.reply, this.newUID := reply, newUID;
      calls, db, pushed, since := 0, map[], [], map[];
    }

    method Call() returns (r: Reply, k: nat)
      modifies this`calls
      ensures k == old(calls) && calls == k + 1 && r == reply(k)
    {
      k := calls;
      r := reply(k);
      calls := calls + 1;
    }

    predicate AllWork(from: nat, to: nat) {
      forall k | from <= k < to :: reply(k).Works?
    }

    /** Fetches and pushes one window and stores its end as the watermark of the thing. */
    method PushWindow(location: Location, thing: Thing, from: Time, to: Time)
        returns (ok: bool, ghost sent: bool, ghost stored: bool)
      requires Valid() && location.id in db && thing.uid == db[location.id].uid
      requires thing.lastUploaded == db[location.id].lastUploaded
      requires thing.lastUploaded == 0 || thing.lastUploaded == from
      modifies this
      ensures Valid() && calls >= old(calls) && (ok <==> AllWork(old(calls), calls))
      ensures pushed == old(pushed) + if sent then [Push(thing.uid, from, to)] else []
      ensures db == if stored then old(db)[location.id := thing.(lastUploaded := to)] else old(db)
      ensures since == Began(old(since), location.id, thing.lastUploaded, from, stored)
      ensures ok ==> stored
      ensures stored ==> sent
    {
      var r, k;
      sent, stored := false, false;
      r, k := Call();
      if !r.Works? {
        return false, sent, stored;
      }
      r, k := Call();
      if !r.Fails? {
        sent := true;
        SentBacks(thing.uid, from, to);
        BackedNext(pushed, thing, if thing.lastUploaded == 0 then from else since[location.id], from, to);
        pushed := pushed + [Push(thing.uid, from, to)];
      }
      if !r.Works? {
        return false, sent, stored;
      }
      r, k := Call();
      if !r.Fails? {
        stored := true;
        db := db[location.id := thing.(lastUploaded := to)];
        if thing.lastUploaded == 0 {
          since := since[location.id := from];
        }
      }
      return r.Works?, sent, stored;
    }

    lemma SentBacks(uid: string, from: Time, to: Time)
      requires Valid()
      ensures forall l <- db :: Backed(pushed + [Push(uid, from, to)], db[l], since[l])
    {
      forall l | l in db ensures Backed(pushed + [Push(uid, from, to)], db[l], since[l]) {
        BackedMore(pushed, [Push(uid, from, to)], db[l], since[l]);
      }
    }

    /** The nickname is brought up to date even where there is nothing new to push. */
    method UpdateNickname(location: Location) returns (ok: bool)
      requires Valid() && location.id in db
      modifies this
      ensures Valid() && calls >= old(calls) && (ok <==> AllWork(old(calls), calls)) && pushed == old(pushed)
      ensures OnlyAt(db, old(db), location.id)
      ensures db[location.id] == old(db)[location.id].(nickname := db[location.id].nickname)
      ensures db[location.id].nickname == old(db)[location.id].nickname || db[location.id].nickname == location.nickname
      ensures ok ==> db[location.id].nickname == location.nickname
      ensures since == old(since)
    {
      var r, k := Call();
      if !r.Fails? {
        db := db[location.id := db[location.id].(nickname := location.nickname)];
      }
      return r.Works?;
    }

    /** The next window of a plan of which n have been sent and stored. */
    method NextWindow(location: Location, thing: Thing, ghost stored: Thing, ghost was: seq<Push>,
                      ghost plan: seq<Push>, ghost n: nat)
      returns (ok: bool, next: Thing, ghost sent: nat, ghost kept: nat)
      requires Valid() && HasMoreReadingsToIndex(thing) && location.id in db
      requires n <= |plan| && Sent(pushed, was, plan, n) && Plan(thing) == plan[n..]
      requires db[location.id] == After(stored, location, plan, n)
      requires thing == After(stored, location, plan, n).(first := location.first, last := location.last)
      modifies this
      ensures Valid() && calls >= old(calls) && (ok <==> AllWork(old(calls), calls))
      ensures n <= kept <= sent <= |plan| && Sent(pushed, was, plan, sent)
      ensures OnlyAt(db, old(db), location.id) && db[location.id] == After(stored, location, plan, kept)
      ensures since == Began(old(since), location.id, thing.lastUploaded, location.first, kept > n)
      ensures ok ==>
        && kept == sent == n + 1 && Plan(next) == plan[n + 1..] && thing.lastUploaded < next.lastUploaded
            && next.last == thing.last
        && next == After(stored, location, plan, n + 1).(first := location.first, last := location.last)
    {
      hide Indexer.Valid;
      hide Windows;
      hide FirstWindows;
      hide Sent;
      hide After;
      var from := thing.lastUploaded;
      if from == 0 {
        from := thing.first;
      }
      var to := WindowEnd(from, thing.last);
      PlanAdvances(thing);
      SentMore(pushed, was, plan, n, Push(thing.uid, from, to), Plan(thing.(lastUploaded := to)), stored.lastUploaded);
      AfterMore(stored, location, plan, n);
      next := thing.(nickname := location.nickname);
      ghost var isSent, isStored;
      ghost var before := pushed;
      ok, isSent, isStored := PushWindow(location, next, from, to);
      assert before + [] == before;
      sent := if isSent then n + 1 else n;
      kept := if isStored then n + 1 else n;
      next := next.(lastUploaded := to);
    }

    /** Catches up with the last sample of a location whose thing is stored. Whatever fails, what was
        pushed is a beginning of the plan and the stored watermark does not go past it; without
        failures the whole plan is pushed and stored. */
    method IndexExistingLocation(location: Location, stored: Thing) returns (ok: bool, ghost sent: nat, ghost kept: nat)
      requires Valid() && location.id in db && db[location.id] == stored
      modifies this
      ensures Valid() && calls >= old(calls) && (ok <==> AllWork(old(calls), calls))
      ensures var p := Plan(stored.(first := location.first, last := location.last));
              && Sent(pushed, old(pushed), p, sent) && kept <= sent && OnlyAt(db, old(db), location.id)
              && db[location.id] == After(stored, location, p, kept).(nickname := db[location.id].nickname)
              && (ok ==> kept == sent == |p|) && (ok || kept > 0 ==> db[location.id].nickname == location.nickname)
      ensures since == Began(old(since), location.id, stored.lastUploaded, location.first, kept > 0)
      ensures kept > 0 ==>
                db[location.id] == Thing(stored.uid, location.first, location.last,
                                         Plan(stored.(first := location.first, last := location.last))[kept - 1].to,
                                         location.nickname)
    {
      var thing := stored.(first := location.first, last := location.last);
      ghost var p, was := Plan(thing), pushed;
      sent := 0;
      assert Sent(pushed, was, p, 0) && p[0..] == p;
      hide Indexer.Valid;
      hide Windows;
      hide FirstWindows;
      hide Sent;
      hide Plan;
      hide After;
      AfterIs(stored, location, p, 0);
      while HasMoreReadingsToIndex(thing)
        invariant Valid() && calls >= old(calls) && AllWork(old(calls), calls)
        invariant sent <= |p| && Sent(pushed, was, p, sent) && Plan(thing) == p[sent..]
        invariant OnlyAt(db, old(db), location.id)
        invariant db[location.id] == After(stored, location, p, sent)
        invariant thing == After(stored, location, p, sent).(first := location.first, last := location.last)
        invariant since == Began(old(since), location.id, stored.lastUploaded, location.first, sent > 0)
        invariant thing.lastUploaded >= stored.lastUploaded && (sent == 0 ==> thing.lastUploaded == stored.lastUploaded)
        decreases thing.last - thing.lastUploaded
      {
        ghost var before := db;
        ok, thing, sent, kept := NextWindow(location, thing, stored, was, p, sent);
        StillOnlyAt(db, before, old(db), location.id);
        if !ok {
          AfterIs(stored, location, p, kept);
          return;
        }
      }
      PlanEnds(thing);
      kept := sent;
      AfterIs(stored, location, p, kept);
      ghost var before := db;
      ok := UpdateNickname(location);
      StillOnlyAt(db, before, old(db), location.id);
      hide OnlyAt;
    }

    /** Pushes the first window of a location not seen before under a new UID and stores the thing. */
    method CreateThing(location: Location) returns (ok: bool, thing: Thing, ghost sent: bool, ghost stored: bool)
      requires Valid() && location.id !in db
      modifies this
      ensures Valid() && calls >= old(calls) && (ok <==> AllWork(old(calls), calls))
      ensures var to := WindowEnd(location.first, location.last);
              && (ok || sent || stored ==>
                    thing == Thing(thing.uid, location.first, location.last, to, location.nickname))
              && pushed == old(pushed) + (if sent then [Push(thing.uid, location.first, to)] else [])
              && db == if stored then old(db)[location.id := thing] else old(db)
      ensures (ok ==> stored) && (stored ==> sent)
      ensures since == if stored then old(since)[location.id := location.first] else old(since)
    {
      sent, stored := false, false;
      var to := WindowEnd(location.first, location.last);
      thing := Thing("", location.first, location.last, to, location.nickname);
      var r, k := Call();
      if !r.Works? {
        return false, thing, sent, stored;
      }
      r, k := Call();
      thing := thing.(uid := newUID(k));
      if !r.Fails? {
        sent := true;
        SentBacks(thing.uid, location.first, to);
        BackedNext(pushed, thing.(lastUploaded := 0), location.first, location.first, to);
        pushed := pushed + [Push(thing.uid, location.first, to)];
      }
      if !r.Works? {
        return false, thing, sent, stored;
      }
      hide Backed;
      r, k := Call();
      if !r.Fails? {
        stored := true;
        db, since := db[location.id := thing], since[location.id := location.first];
      }
      return r.Works?, thing, sent, stored;
    }

    /** The next window of a new thing, of whose plan n windows have been sent and stored. */
    method NextNewWindow(location: Location, thing: Thing, ghost was: seq<Push>, ghost plan: seq<Push>, ghost n: nat)
      returns (ok: bool, next: Thing, ghost sent: nat, ghost kept: nat)
      requires Valid() && HasMoreReadingsToIndex(thing) && location.id in db && db[location.id] == thing
      requires n <= |plan| && Sent(pushed, was, plan, n)
      requires Windows(thing.uid, thing.lastUploaded, thing.last) == plan[n..]
      requires thing.lastUploaded == Mark(plan, n, 0)
      modifies this
      ensures Valid() && calls >= old(calls) && (ok <==> AllWork(old(calls), calls))
      ensures n <= kept <= sent <= |plan| && Sent(pushed, was, plan, sent)
      ensures db == old(db)[location.id := thing.(lastUploaded := Mark(plan, kept, 0))]
      ensures thing.lastUploaded != 0 ==> since == old(since)
      ensures ok ==>
        && kept == sent == n + 1 && thing.lastUploaded < next.lastUploaded
        && next == thing.(lastUploaded := Mark(plan, n + 1, 0))
        && Windows(next.uid, next.lastUploaded, next.last) == plan[n + 1..]
    {
      hide Indexer.Valid;
      hide Windows;
      hide Sent;
      var from := thing.lastUploaded;
      var to := WindowEnd(from, thing.last);
      WindowsUnfold(thing.uid, from, thing.last);
      SentMore(pushed, was, plan, n, Push(thing.uid, from, to), Windows(thing.uid, to, thing.last), 0);
      ghost var isSent, isStored;
      ghost var before := pushed;
      ok, isSent, isStored := PushWindow(location, thing, from, to);
      assert before + [] == before;
      sent := if isSent then n + 1 else n;
      kept := if isStored then n + 1 else n;
      next := thing.(lastUploaded := to);
    }

    /** The loop of `indexNewLocation`, once the thing is created. */
    method CatchUpNew(location: Location, created: Thing, ghost was: seq<Push>, ghost plan: seq<Push>)
      returns (ok: bool, ghost sent: nat, ghost kept: nat)
      requires Valid() && location.id in db && db[location.id] == created
      requires 0 < |plan| && Sent(pushed, was, plan, 1) && created.lastUploaded == Mark(plan, 1, 0)
      requires Windows(created.uid, created.lastUploaded, created.last) == plan[1..]
      requires created.lastUploaded == WindowEnd(created.first, created.last)
      modifies this
      ensures Valid() && calls >= old(calls) && (ok <==> AllWork(old(calls), calls))
      ensures 0 < kept <= sent <= |plan| && Sent(pushed, was, plan, sent) && (ok ==> kept == |plan|)
      ensures db == old(db)[location.id := created.(lastUploaded := Mark(plan, kept, 0))]
      ensures since == old(since)
    {
      hide Indexer.Valid;
      hide Windows;
      hide Sent;
      hide Mark;
      var thing := created;
      sent, kept := 1, 1;
      while HasMoreReadingsToIndex(thing)
        invariant Valid() && calls >= old(calls) && AllWork(old(calls), calls)
        invariant 0 < kept == sent <= |plan| && Sent(pushed, was, plan, sent)
        invariant Windows(created.uid, thing.lastUploaded, thing.last) == plan[sent..]
        invariant thing == created.(lastUploaded := Mark(plan, sent, 0)) && db == old(db)[location.id := thing]
        invariant since == old(since) && (thing.lastUploaded == 0 ==> !HasMoreReadingsToIndex(thing))
        decreases thing.last - thing.lastUploaded
      {
        ok, thing, sent, kept := NextNewWindow(location, thing, was, plan, sent);
        if !ok {
          return;
        }
      }
      WindowsUnfold(created.uid, thing.lastUploaded, thing.last);
      ok := true;
    }

    /** Creates a thing for a location not seen before and catches up as above. */
    method IndexNewLocation(location: Location)
      returns (ok: bool, ghost uid: string, ghost sent: nat, ghost kept: nat)
      requires Valid() && location.id !in db
      modifies this
      ensures Valid() && calls >= old(calls) && (ok <==> AllWork(old(calls), calls))
      ensures var p := FirstWindows(uid, location.first, location.last);
              && Sent(pushed, old(pushed), p, sent) && kept <= sent
              && (if kept == 0 then db == old(db)
                  else db == old(db)[location.id := NewThing(location, uid, p, kept)])
              && (ok ==> kept == sent == |p|)
      ensures since == if kept == 0 then old(since) else old(since)[location.id := location.first]
      ensures kept > 0 ==>
                db[location.id] == Thing(uid, location.first, location.last,
                                         FirstWindows(uid, location.first, location.last)[kept - 1].to,
                                             location.nickname)
    {
      hide Indexer.Valid;
      hide Windows;
      var thing;
      ghost var isSent, isStored;
      ghost var was := pushed;
      ok, thing, isSent, isStored := CreateThing(location);
      uid, sent, kept := thing.uid, if isSent then 1 else 0, if isStored then 1 else 0;
      if ok {
        ghost var p := FirstWindows(uid, location.first, location.last);
        assert Sent(pushed, was, p, 1);
        ok, sent, kept := CatchUpNew(location, thing, was, p);
      }
    }

    /** One turn of the loop over locations. Nothing but the thing of this location changes; its
        watermark does not go back; and when no call fails it is at the last sample, unless it was
        past that already. */
    method IndexLocation(location: Location) returns (fatal: bool)
      requires Valid()
      modifies this
      ensures Valid() && calls >= old(calls) && Grown(db, old(db)) && old(pushed) <= pushed
      ensures forall l :: l != location.id ==> Watermark(db, l) == Watermark(old(db), l)
      ensures Anchored(db, since, old(db), old(since), [location])
      ensures AllWork(old(calls), calls) ==>
        !fatal && CaughtUp(db, old(db), location)
    {
      hide Indexer.Valid;
      KeysAgree();
      AnchoredNone(db, since);
      AnchoredMore(db, since, db, since, [], [location]);
      assert location in [location];
      var r, k := Call();
      if !r.Works? {
        return true;
      }
      ghost var sent, kept, uid, ok;
      if location.id !in db {
        ok, uid, sent, kept := IndexNewLocation(location);
        FirstMark(uid, location.first, location.last);
      } else {
        var stored := db[location.id];
        ok, sent, kept := IndexExistingLocation(location, stored);
        MarkAdvances(stored.(first := location.first, last := location.last), kept);
      }
      return false;
    }

    /** `indexLocations`. Only a failure to read the database ends the pass early; a failure on one
        location leaves the others to be indexed. */
    method IndexLocations(locations: seq<Location>) returns (ok: bool)
      requires Valid()
      modifies this
      ensures Valid() && calls >= old(calls) && Grown(db, old(db)) && old(pushed) <= pushed
      ensures Anchored(db, since, old(db), old(since), locations)
      ensures AllWork(old(calls), calls) ==> ok
      ensures AllWork(old(calls), calls) &&
              (forall i, j | 0 <= i < j < |locations| :: locations[i].id != locations[j].id) ==>
                CaughtUpTo(db, old(db), locations, |locations|)
    {
      var r, k := Call();
      if !r.Works? {
        return false;
      }
      ghost var distinct := forall i, j | 0 <= i < j < |locations| :: locations[i].id != locations[j].id;
      hide Indexer.Valid;
      hide Grown;
      hide CaughtUpTo;
      hide Anchored;
      CaughtUpToNone(db, old(db), locations);
      ghost var was, since0 := db, since;
      KeysAgree();
      AnchoredNone(db, since);
      for n := 0 to |locations|
        invariant Valid() && calls > old(calls) && Grown(db, old(db)) && old(pushed) <= pushed
        invariant AllWork(old(calls), calls) && distinct ==> CaughtUpTo(db, old(db), locations, n)
        invariant Anchored(db, since, was, since0, locations[..n])
      {
        ghost var began, before, since1 := calls, db, since;
        var fatal := IndexLocation(locations[n]);
        GrownFurther(db, before, old(db));
        AnchoredOneMore(db, since, before, since1, was, since0, locations, n);
        assert AllWork(old(calls), calls) ==> AllWork(old(calls), began) && AllWork(began, calls);
        if fatal {
          return false;
        }
        if distinct && AllWork(old(calls), calls) {
          CaughtUpFurther(db, before, old(db), locations, n);
        }
      }
      assert locations[..|locations|] == locations;
      return true;
    }

    lemma KeysAgree()
      requires Valid()
      ensures db.Keys == since.Keys
    {
    }

    /** Indexing rerun any number of times, over any locations and under any failures: watermarks
        never go back, UIDs stay, and every watermark is backed by what was pushed since the first sample
        that its location had when there was none. */
    method IndexRepeatedly(passes: seq<seq<Location>>)
      requires Valid()
      modifies this
      ensures Valid() && Grown(db, old(db)) && old(pushed) <= pushed
      ensures Anchored(db, since, old(db), old(since), Concat(passes))
    {
      hide Indexer.Valid;
      hide Anchored;
      hide Grown;
      ghost var was, since0 := db, since;
      KeysAgree();
      AnchoredNone(db, since);
      GrownNone(db);
      for n := 0 to |passes|
        invariant Valid() && Grown(db, old(db)) && old(pushed) <= pushed
        invariant Anchored(db, since, was, since0, Concat(passes[..n]))
      {
        ghost var before, since1 := db, since;
        var ok := IndexLocations(passes[n]);
        GrownFurther(db, before, old(db));
        AnchoredFurther(db, since, before, since1, was, since0, Concat(passes[..n]), passes[n]);
        assert passes[..n + 1][..n] == passes[..n];
      }
      assert passes[..|passes|] == passes;
    }
  }

  lemma AnchoredOneMore(db: map<string, Thing>, since: map<string, Time>, mid: map<string, Thing>,
                        since1: map<string, Time>, db0: map<string, Thing>, since0: map<string, Time>,
                        locations: seq<Location>, n: nat)
    requires n < |locations| && Anchored(mid, since1, db0, since0, locations[..n]) && Grown(mid, db0)
    requires Anchored(db, since, mid, since1, [locations[n]])
    ensures Anchored(db, since, db0, since0, locations[..n + 1]) && Anchored(db, since, db0, since0, locations)
  {
    assert locations[..n + 1] == locations[..n] + [locations[n]];
    assert forall l <- locations[..n + 1] :: l in locations;
    hide Anchored;
    hide Grown;
    AnchoredFurther(db, since, mid, since1, db0, since0, locations[..n], [locations[n]]);
    AnchoredMore(db, since, db0, since0, locations[..n + 1], locations);
  }

  /** From when on a thing has been pushed, once a window from `from` on may have been stored. */
  function Began(since: map<string, Time>, id: string, mark: Time, from: Time, stored: bool): map<string, Time> {
    if stored && mark == 0 then since[id := from] else since
  }

  function Concat(passes: seq<seq<Location>>): seq<Location> {
    if passes == [] then [] else Concat(passes[..|passes| - 1]) + passes[|passes| - 1]
  }

  /** From when on a thing has been pushed does not move while it has a watermark; where it had none, it
      is the first sample of one of the locations given. */
  ghost predicate Anchored(db: map<string, Thing>, since: map<string, Time>, db0: map<string, Thing>,
                           since0: map<string, Time>, locations: seq<Location>)
  {
    && db.Keys == since.Keys
    && forall l <- db | db[l].lastUploaded != 0 ::
         if Watermark(db0, l) != 0 then l in since0 && since[l] == since0[l]
         else exists location <- locations :: location.id == l && location.first == since[l]
  }

  lemma AnchoredNone(db: map<string, Thing>, since: map<string, Time>)
    requires db.Keys == since.Keys
    ensures Anchored(db, since, db, since, [])
  {
  }

  lemma GrownNone(db: map<string, Thing>)
    ensures Grown(db, db)
  {
  }

  lemma AnchoredMore(db: map<string, Thing>, since: map<string, Time>, db0: map<string, Thing>,
                     since0: map<string, Time>, locations: seq<Location>, more: seq<Location>)
    requires Anchored(db, since, db0, since0, locations) && forall l <- locations :: l in more
    ensures Anchored(db, since, db0, since0, more)
  {
  }

  lemma AnchoredFurther(db: map<string, Thing>, since: map<string, Time>, mid: map<string, Thing>,
                        since1: map<string, Time>, db0: map<string, Thing>, since0: map<string, Time>,
                        locations: seq<Location>, more: seq<Location>)
    requires Anchored(mid, since1, db0, since0, locations) && Anchored(db, since, mid, since1, more) && Grown(mid, db0)
    ensures Anchored(db, since, db0, since0, locations + more)
  {
    forall l <- db | db[l].lastUploaded != 0
      ensures if Watermark(db0, l) != 0 then l in since0 && since[l] == since0[l]
              else exists location <- locations + more :: location.id == l && location.first == since[l]
    {
      if Watermark(mid, l) == 0 {
        var location :| location in more && location.id == l && location.first == since[l];
        assert location in locations + more;
      } else if Watermark(db0, l) == 0 {
        var location :| location in locations && location.id == l && location.first == since1[l];
        assert location in locations + more;
      }
    }
  }

  function Max(a: Time, b: Time): Time {
    if a < b then b else a
  }

  function Watermark(db: map<string, Thing>, id: string): Time {
    if id in db then db[id].lastUploaded else 0
  }

  /** No thing is lost, none changes its UID, and no watermark goes back. */
  predicate Grown(now: map<string, Thing>, was: map<string, Thing>) {
    forall l <- was :: l in now && now[l].uid == was[l].uid && now[l].lastUploaded >= was[l].lastUploaded
  }

  predicate CaughtUp(now: map<string, Thing>, was: map<string, Thing>, location: Location) {
    location.id in now && Watermark(now, location.id) == Max(Watermark(was, location.id), location.last)
  }

  /** The first n locations are caught up and the others untouched. */
  predicate CaughtUpTo(now: map<string, Thing>, was: map<string, Thing>, locations: seq<Location>, n: nat)
    requires n <= |locations|
  {
    && (forall i | 0 <= i < n :: CaughtUp(now, was, locations[i]))
    && (forall i | n <= i < |locations| :: Watermark(now, locations[i].id) == Watermark(was, locations[i].id))
  }

  lemma CaughtUpToNone(now: map<string, Thing>, was: map<string, Thing>, locations: seq<Location>)
    requires now == was
    ensures CaughtUpTo(now, was, locations, 0)
  {
  }

  lemma GrownFurther(now: map<string, Thing>, mid: map<string, Thing>, was: map<string, Thing>)
    requires Grown(now, mid) && Grown(mid, was)
    ensures Grown(now, was)
  {
  }

  lemma CaughtUpFurther(now: map<string, Thing>, mid: map<string, Thing>, was: map<string, Thing>,
                        locations: seq<Location>, n: nat)
    requires n < |locations| && CaughtUpTo(mid, was, locations, n) && Grown(now, mid)
    requires forall i, j | 0 <= i < j < |locations| :: locations[i].id != locations[j].id
    requires forall l :: l != locations[n].id ==> Watermark(now, l) == Watermark(mid, l)
    requires CaughtUp(now, mid, locations[n])
    ensures CaughtUpTo(now, was, locations, n + 1)
  {
    forall i | 0 <= i < n ensures CaughtUp(now, was, locations[i]) {
      assert CaughtUp(mid, was, locations[i]);
    }
  }

  lemma MarkAdvances(thing: Thing, n: nat)
    requires n <= |Plan(thing)|
    ensures Mark(Plan(thing), n, thing.lastUploaded) >= thing.lastUploaded
    ensures n == |Plan(thing)| ==> Mark(Plan(thing), n, thing.lastUploaded) == Max(thing.lastUploaded, thing.last)
  {
    PlanShape(thing);
    hide Plan;
  }

  lemma FirstMark(uid: string, first: Time, last: Time)
    ensures var ws := FirstWindows(uid, first, last); Mark(ws, |ws|, 0) == last
  {
    if last > 0 {
      FirstWindowsShape(uid, first, last);
    }
  }
}
