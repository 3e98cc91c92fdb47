/** The `supervisor` of `gps/source_manager.go`: calls are counted per name and type so that
    releasing the source manager can wait for all of them. Each critical section is one atomic
    step; a run is any interleaving of the steps of any number of calls and of one waiter. */
module Supervisor {
  import opened Wrappers

  datatype CallInfo = CallInfo(name: string, typ: nat)

  /** The count of a key; a key without an entry counts zero. */
  function Count(running: map<CallInfo, nat>, ci: CallInfo): nat {
    if ci in running then running[ci] else 0
  }

  function Started(running: map<CallInfo, nat>, ci: CallInfo): map<CallInfo, nat> {
    if ci in running then running[ci := running[ci] + 1] else running[ci := 1]
  }

  /** None where `done` panics. */
  function Ended(running: map<CallInfo, nat>, ci: CallInfo): Option<map<CallInfo, nat>> {
    if ci !in running then None
    else if running[ci] > 1 then Some(running[ci := running[ci] - 1])
    else Some(running - {ci})
  }

  /** Entries are positive: a key is present exactly while it counts something. */
  predicate Positive(running: map<CallInfo, nat>) {
    forall ci <- running :: running[ci] > 0
  }

  lemma StartCounts(running: map<CallInfo, nat>, ci: CallInfo, other: CallInfo)
    requires Positive(running)
    ensures Positive(Started(running, ci))
    ensures Count(Started(running, ci), other) == Count(running, other) + if other == ci then 1 else 0
  {
  }

  lemma DoneCounts(running: map<CallInfo, nat>, ci: CallInfo, other: CallInfo)
    requires Positive(running)
    ensures Ended(running, ci).Some? <==> Count(running, ci) > 0
    ensures Ended(running, ci).Some? ==>
              && Positive(Ended(running, ci).value)
              && Count(Ended(running, ci).value, other) == Count(running, other) - if other == ci then 1 else 0
  {
  }

  /** What the end of a call did. */
  datatype DoneEffect = Panics | Quiet | Signals

  class Supervisor {
    var cancelled: bool
    var running: map<CallInfo, nat>
    var ran: map<nat, nat>

    constructor ()
      ensures !cancelled && running == map[] && ran == map[]
    {
      cancelled, running, ran := false, map[], map[];
    }

    /** Registers a call, unless the supervisor has been cancelled. */
    method Start(ci: CallInfo) returns (ok: bool)
      modifies this`running
      ensures ok == !cancelled
      ensures running == if ok then Started(old(running), ci) else old(running)
    {
      if cancelled {
        return false;
      }
      if ci in running {
        running := running[ci := running[ci] + 1];
      } else {
        running := running[ci := 1];
      }
      return true;
    }

    /** Unregisters a call; signals the waiter exactly when this was the last call of all. */
    method Done(ci: CallInfo) returns (effect: DoneEffect)
      modifies this`running, this`ran
      ensures effect.Panics? <==> Ended(old(running), ci).None?
      ensures !effect.Panics? ==> running == Ended(old(running), ci).value
      ensures effect.Signals? <==> old(running) != map[] && running == map[]
      ensures effect.Panics? || ci in running ==> ran == old(ran)
      ensures !effect.Panics? && ci !in running ==>
                ran == old(ran)[ci.typ := 1 + if ci.typ in old(ran) then old(ran)[ci.typ] else 0]
    {
      if ci !in running {
        return Panics;
      }
      if running[ci] > 1 {
        running := running[ci := running[ci] - 1];
        assert ci in running;
        return Quiet;
      }
      var n := if ci.typ in ran then ran[ci.typ] else 0;
      ran := ran[ci.typ := n + 1];
      running := running - {ci};
      if |running| == 0 {
        return Signals;
      }
      return Quiet;
    }
  }

  // ---------------------------------------------------------------- the protocol

  type Tid = nat

  datatype Phase = Ready | InFlight | Refused | Complete | Panicked

  datatype Call = Call(ci: CallInfo, phase: Phase)

  /** The one waiter: `Blocked` inside `cond.Wait`, `Woken` by a signal and about to look again. */
  datatype Waiter = NotWaiting | Blocked | Woken | Waited

  datatype State = State(cancelled: bool, running: map<CallInfo, nat>, calls: map<Tid, Call>, waiter: Waiter)

  datatype Action = Start(t: Tid) | Done(t: Tid) | Cancel | Wait

  /** One atomic step; None when it does not apply. */
  function Step(s: State, a: Action): Option<State> {
    match a
    case Start(t) =>
      if t !in s.calls || s.calls[t].phase != Ready then None
      else if s.cancelled then Some(s.(calls := s.calls[t := s.calls[t].(phase := Refused)]))
      else Some(s.(running := Started(s.running, s.calls[t].ci), calls := s.calls[t := s.calls[t].(phase := InFlight)]))
    case Done(t) =>
      if t !in s.calls || s.calls[t].phase != InFlight then None
      else
        match Ended(s.running, s.calls[t].ci) {
          case None => Some(s.(calls := s.calls[t := s.calls[t].(phase := Panicked)]))
          case Some(running) =>
            Some(s.(running := running, calls := s.calls[t := s.calls[t].(phase := Complete)],
                    waiter := if running == map[] && s.waiter == Blocked then Woken else s.waiter))
        }
    case Cancel => Some(s.(cancelled := true))
    case Wait =>
      if s.waiter == Blocked || s.waiter == Waited then None
      else Some(s.(waiter := if |s.running| > 0 then Blocked else Waited))
  }

  /** The state after the first n steps; steps that do not apply are not taken. */
  function Run(s: State, steps: seq<Action>, n: nat): State
    requires n <= |steps|
  {
    if n == 0 then s
    else
      var before := Run(s, steps, n - 1);
      match Step(before, steps[n - 1]) case None => before case Some(after) => after
  }

  predicate Initial(s: State) {
    && s.running == map[] && s.waiter == NotWaiting
    && forall t <- s.calls :: s.calls[t].phase == Ready
  }

  /** The calls of key ci that have got to one of the phases. */
  function CallsIn(s: State, ci: CallInfo, phases: set<Phase>): set<Tid> {
    set t | t in s.calls && s.calls[t].ci == ci && s.calls[t].phase in phases
  }

  ghost predicate Counted(s: State, ci: CallInfo) {
    Count(s.running, ci) == |CallsIn(s, ci, {InFlight})|
  }

  ghost predicate Inv(s: State) {
    && Positive(s.running)
    && (forall ci :: Counted(s, ci))
    && (forall t <- s.calls :: s.calls[t].phase != Panicked)
    && (s.waiter == Blocked ==> s.running != map[])
  }

  lemma InitialInv(s: State)
    requires Initial(s)
    ensures Inv(s)
  {
    forall ci ensures Counted(s, ci) {
      assert CallsIn(s, ci, {InFlight}) == {};
    }
  }

  /** How the calls in flight change when call t changes phase. */
  lemma Moved(s: State, s': State, t: Tid, p: Phase, ci: CallInfo)
    requires t in s.calls && s'.calls == s.calls[t := s.calls[t].(phase := p)]
    ensures CallsIn(s', ci, {InFlight}) ==
              if s.calls[t].ci == ci && p == InFlight then CallsIn(s, ci, {InFlight}) + {t} else
              if s.calls[t].ci == ci then CallsIn(s, ci, {InFlight}) - {t} else CallsIn(s, ci, {InFlight})
  {
  }

  lemma CountedStart(s: State, t: Tid, ci: CallInfo)
    requires Inv(s) && Step(s, Start(t)).Some?
    ensures Counted(Step(s, Start(t)).value, ci)
  {
    var s' := Step(s, Start(t)).value;
    assert Counted(s, ci) && t !in CallsIn(s, ci, {InFlight});
    StartCounts(s.running, s.calls[t].ci, ci);
    Moved(s, s', t, s'.calls[t].phase, ci);
    hide Started;
    hide Count;
    hide CallsIn;
  }

  lemma CountedDone(s: State, t: Tid, ci: CallInfo)
    requires Inv(s) && Step(s, Done(t)).Some?
    ensures Counted(Step(s, Done(t)).value, ci)
  {
    var s', ct := Step(s, Done(t)).value, s.calls[t].ci;
    assert Counted(s, ci) && Counted(s, ct) && t in CallsIn(s, ct, {InFlight});
    DoneCounts(s.running, ct, ci);
    Moved(s, s', t, s'.calls[t].phase, ci);
    InFlightIsRunning(s, t);
    hide Ended;
    hide Count;
    hide CallsIn;
  }

  lemma CountedStep(s: State, a: Action, ci: CallInfo)
    requires Inv(s) && Step(s, a).Some?
    ensures Counted(Step(s, a).value, ci)
  {
    assert Counted(s, ci);
    match a
    case Start(t) => CountedStart(s, t, ci);
    case Done(t) => CountedDone(s, t, ci);
    case _ => assert CallsIn(Step(s, a).value, ci, {InFlight}) == CallsIn(s, ci, {InFlight});
  }

  /** A call in flight has an entry, so `done` finds it. */
  lemma InFlightIsRunning(s: State, t: Tid)
    requires t in s.calls && s.calls[t].phase == InFlight && Counted(s, s.calls[t].ci)
    ensures Ended(s.running, s.calls[t].ci).Some?
  {
    assert t in CallsIn(s, s.calls[t].ci, {InFlight});
  }

  lemma StepInv(s: State, a: Action)
    requires Inv(s) && Step(s, a).Some?
    ensures Inv(Step(s, a).value)
  {
    var s' := Step(s, a).value;
    forall ci ensures Counted(s', ci) {
      CountedStep(s, a, ci);
    }
    match a
    case Start(t) =>
      StartCounts(s.running, s.calls[t].ci, s.calls[t].ci);
      assert s.calls[t].ci in Started(s.running, s.calls[t].ci);
    case Done(t) =>
      assert Counted(s, s.calls[t].ci);
      InFlightIsRunning(s, t);
      DoneCounts(s.running, s.calls[t].ci, s.calls[t].ci);
    case Cancel =>
    case Wait =>
  }

  lemma {:induction false} RunInv(s: State, steps: seq<Action>, n: nat)
    requires Initial(s) && n <= |steps|
    ensures Inv(Run(s, steps, n))
  {
    if n == 0 {
      InitialInv(s);
    } else {
      RunInv(s, steps, n - 1);
      if Step(Run(s, steps, n - 1), steps[n - 1]).Some? {
        StepInv(Run(s, steps, n - 1), steps[n - 1]);
      }
    }
    hide Step;
    hide Inv;
  }

  // ---------------------------------------------------------------- the promises

  /** In every run a key's counter is its starts minus its dones, it has an entry exactly when
      that is positive, and `done` never panics. */
  lemma CounterIsStartsMinusDones(s0: State, steps: seq<Action>, n: nat, ci: CallInfo)
    requires Initial(s0) && n <= |steps|
    ensures var s := Run(s0, steps, n);
            && Count(s.running, ci) == |CallsIn(s, ci, {InFlight, Complete})| - |CallsIn(s, ci, {Complete})|
            && (ci in s.running <==> Count(s.running, ci) > 0)
            && (forall t <- s.calls :: s.calls[t].phase != Panicked)
  {
    var s := Run(s0, steps, n);
    RunInv(s0, steps, n);
    assert Counted(s, ci);
    assert CallsIn(s, ci, {InFlight, Complete}) == CallsIn(s, ci, {InFlight}) + CallsIn(s, ci, {Complete});
    assert CallsIn(s, ci, {InFlight}) !! CallsIn(s, ci, {Complete});
  }

  /** No wake-up is lost: whenever the waiter is blocked some call is in flight, and its end can
      be recorded. */
  lemma BlockedMeansInFlight(s0: State, steps: seq<Action>, n: nat) returns (t: Tid)
    requires Initial(s0) && n <= |steps| && Run(s0, steps, n).waiter == Blocked
    ensures var s := Run(s0, steps, n);
            t in s.calls && s.calls[t].phase == InFlight && Step(s, Done(t)).Some?
  {
    var s := Run(s0, steps, n);
    RunInv(s0, steps, n);
    var ci :| ci in s.running;
    assert Counted(s, ci);
    assert |CallsIn(s, ci, {InFlight})| > 0;
    t :| t in CallsIn(s, ci, {InFlight});
  }

  /** Once nothing is in flight a waiter that looks sees it and goes on. */
  lemma WaitReturnsWhenQuiet(s0: State, steps: seq<Action>, n: nat)
    requires Initial(s0) && n <= |steps|
    requires forall t <- Run(s0, steps, n).calls :: Run(s0, steps, n).calls[t].phase != InFlight
    ensures var s := Run(s0, steps, n);
            s.waiter == Waited || (Step(s, Wait).Some? && Step(s, Wait).value.waiter == Waited)
  {
    RunInv(s0, steps, n);
    NothingRunning(Run(s0, steps, n));
  }

  lemma NothingRunning(s: State)
    requires Inv(s) && forall t <- s.calls :: s.calls[t].phase != InFlight
    ensures s.running == map[]
  {
    forall ci ensures ci !in s.running {
      assert Counted(s, ci);
      assert CallsIn(s, ci, {InFlight}) == {};
    }
  }

  lemma NothingInFlight(s: State, t: Tid)
    requires Inv(s) && s.running == map[] && t in s.calls
    ensures s.calls[t].phase != InFlight
  {
    if s.calls[t].phase == InFlight {
      InFlightIsRunning(s, t);
    }
  }

  /** Cancelled for good, and if the waiter has returned, nothing is counted. */
  predicate Draining(s: State) {
    s.cancelled && (s.waiter == Waited ==> s.running == map[])
  }

  lemma DrainingStep(s: State, a: Action)
    requires Inv(s) && Draining(s) && Step(s, a).Some?
    ensures Draining(Step(s, a).value)
  {
    if a.Done? && s.waiter == Waited {
      NothingInFlight(s, a.t);
    }
  }

  lemma {:induction false} StaysDraining(s0: State, steps: seq<Action>, i: nat, k: nat)
    requires Initial(s0) && i <= k <= |steps| && Draining(Run(s0, steps, i))
    ensures Draining(Run(s0, steps, k))
    ensures Run(s0, steps, i).waiter == Waited ==> Run(s0, steps, k).waiter == Waited
    decreases k
  {
    hide Step;
    hide Inv;
    hide Initial;
    if i >= k {
    } else {
      StaysDraining(s0, steps, i, k - 1);
      RunInv(s0, steps, k - 1);
      OneStep(Run(s0, steps, k - 1), steps[k - 1]);
    }
    hide Draining;
  }

  lemma OneStep(s: State, a: Action)
    requires Inv(s) && Draining(s)
    ensures Step(s, a).Some? ==>
              Draining(Step(s, a).value) && (s.waiter == Waited ==> Step(s, a).value.waiter == Waited)
  {
    if Step(s, a).Some? {
      DrainingStep(s, a);
    }
  }

  /** `Release`: cancelled while the waiter had not returned at step i, returned by step j. No
      supervised call is in flight then or ever after. */
  lemma ReleasedMeansQuiet(s0: State, steps: seq<Action>, i: nat, j: nat, k: nat, t: Tid)
    requires Initial(s0) && i <= j <= k <= |steps|
    requires Run(s0, steps, i).cancelled && Run(s0, steps, i).waiter != Waited
    requires Run(s0, steps, j).waiter == Waited
    ensures t in Run(s0, steps, k).calls ==> Run(s0, steps, k).calls[t].phase != InFlight
  {
    StaysDraining(s0, steps, i, j);
    StaysDraining(s0, steps, j, k);
    RunInv(s0, steps, k);
    if t in Run(s0, steps, k).calls {
      NothingInFlight(Run(s0, steps, k), t);
    }
    hide Run;
    hide Inv;
  }

  predicate NoneReady(s: State) {
    forall t <- s.calls :: s.calls[t].phase != Ready
  }

  /** Nothing is counted, and nothing can start. */
  ghost predicate Shut(s: State) {
    Inv(s) && s.running == map[] && (s.cancelled || NoneReady(s))
  }

  lemma ShutStep(s: State, a: Action)
    requires Shut(s) && Step(s, a).Some?
    ensures Shut(Step(s, a).value)
  {
    StepInv(s, a);
    if a.Done? {
      NothingInFlight(s, a.t);
    }
  }

  lemma {:induction false} StaysShut(s: State, more: seq<Action>, k: nat)
    requires Shut(s) && k <= |more|
    ensures Shut(Run(s, more, k))
  {
    hide Step;
    hide Shut;
    if k == 0 {
    } else {
      StaysShut(s, more, k - 1);
      if Step(Run(s, more, k - 1), more[k - 1]).Some? {
        ShutStep(Run(s, more, k - 1), more[k - 1]);
      }
    }
  }

  predicate SomeInFlight(s: State) {
    exists t <- s.calls :: s.calls[t].phase == InFlight
  }

  /** However the run goes on from s, nothing is ever in flight. */
  ghost predicate QuietForever(s: State) {
    forall more: seq<Action>, k: nat | k <= |more| :: !SomeInFlight(Run(s, more, k))
  }

  lemma ReadyCanFly(s: State, t: Tid)
    requires t in s.calls && s.calls[t].phase == Ready && !s.cancelled
    ensures !QuietForever(s)
  {
    var more := [Start(t)];
    assert Run(s, more, 0) == s;
    assert Run(s, more, 1).calls[t].phase == InFlight;
    assert SomeInFlight(Run(s, more, 1));
  }

  /** In every run, when the waiter has just returned: nothing is in flight then or ever after
      exactly when the supervisor is cancelled or no call is left that could start. */
  lemma QuietForeverExactly(s0: State, steps: seq<Action>, n: nat)
    requires Initial(s0) && n < |steps|
    requires Run(s0, steps, n).waiter != Waited && Run(s0, steps, n + 1).waiter == Waited
    ensures var s := Run(s0, steps, n + 1);
            QuietForever(s) <==> s.cancelled || NoneReady(s)
  {
    var s := Run(s0, steps, n + 1);
    RunInv(s0, steps, n + 1);
    ReturnsWhenEmpty(Run(s0, steps, n), steps[n]);
    hide Run;
    hide Inv;
    if s.cancelled || NoneReady(s) {
      forall more: seq<Action>, k: nat | k <= |more| ensures !SomeInFlight(Run(s, more, k)) {
        StaysShut(s, more, k);
        NoFlightWhenShut(Run(s, more, k));
      }
    } else {
      var t :| t in s.calls && s.calls[t].phase == Ready;
      ReadyCanFly(s, t);
    }
  }

  lemma NoFlightWhenShut(s: State)
    requires Shut(s)
    ensures !SomeInFlight(s)
  {
    forall t <- s.calls ensures s.calls[t].phase != InFlight {
      NothingInFlight(s, t);
    }
  }

  lemma ReturnsWhenEmpty(s: State, a: Action)
    requires s.waiter != Waited && Step(s, a).Some? && Step(s, a).value.waiter == Waited
    ensures Step(s, a).value.running == map[]
  {
  }

  /** One such run: not cancelled, a call starts after `wait` has returned. */
  lemma WaitAloneIsNotEnough(ci: CallInfo)
    ensures var s0 := State(false, map[], map[0 := Call(ci, Ready)], NotWaiting);
            && Initial(s0)
            && Run(s0, [Wait, Start(0)], 1) == s0.(waiter := Waited)
            && Run(s0, [Wait, Start(0)], 2) == State(false, map[ci := 1], map[0 := Call(ci, InFlight)], Waited)
  {
  }
}
