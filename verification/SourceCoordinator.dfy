/** `sourceCoordinator.getSourceGatewayFor` (`gps/source.go`): concurrent callers asking for the
    gateway of a name are folded together by case, one of them leads and the rest are told its
    result. Every critical section is one atomic step of the calling thread; a run is any
    interleaving of steps. */
module SourceCoordinator {
  import opened Wrappers

  type Tid = nat

  /** A gateway, by identity, or the error of the call. */
  datatype Answer = Gateway(serial: nat) | Failed(reason: string)

  datatype Pc =
    | Calling                              // before the first look at the maps
    | Upgrading(url: string, gate: Answer) // the folded name was known: record the name itself
    | Entering                             // nothing known: about to take the proto lock
    | Waiting                              // attached to a leader
    | Leading                              // first in: about to deduce
    | Deduced                              // about to look at the maps again
    | Creating                             // about to create a gateway
    | Replying(answer: Answer)             // about to tell the followers
    | Returned(answer: Answer, leader: Option<Tid>)
    | Panicked

  /** A reply as it lies in a follower's channel, with the leader that sent it. */
  datatype Reply = Reply(leader: Tid, answer: Answer)

  datatype Thread = Thread(name: string, pc: Pc, inbox: seq<Reply>)

  datatype State = State(
    srcs: map<string, Answer>,
    nameToURL: map<string, string>,
    protoSrcs: map<string, seq<Tid>>,
    threads: map<Tid, Thread>,
    created: nat)

  /** What the environment decides in a step: the context, deduction, and which source URL,
      if any, can be set up. */
  datatype Action =
    | Cancel(reason: string)
    | Lookup
    | Upgrade
    | Enter
    | Receive
    | DeduceFails(reason: string)
    | DeduceSucceeds
    | Recheck
    | CreateFails(reason: string)
    | Create(url: string)
    | DoReturn

  function Goto(s: State, t: Tid, pc: Pc): State
    requires t in s.threads
  {
    s.(threads := s.threads[t := s.threads[t].(pc := pc)])
  }

  predicate IsLeader(pc: Pc) {
    pc.Leading? || pc.Deduced? || pc.Creating? || pc.Replying?
  }

  /** The names recorded for a URL once a gateway is set up for it. */
  function Recorded(fold: string -> string, names: map<string, string>, name: string, unfolded: string): map<string,
      string>
  {
    var f := fold(name);
    var url := if f != name then fold(unfolded) else unfolded;
    var m := names[f := url][url := url];
    if f != name then m[name := url][unfolded := url] else m
  }

  /** Sends the reply down every attached channel. */
  function Deliver(threads: map<Tid, Thread>, followers: seq<Tid>, r: Reply): map<Tid, Thread> {
    map t | t in threads :: if t in followers then threads[t].(inbox := threads[t].inbox + [r]) else threads[t]
  }

  /** One atomic step of thread t; None when the step does not apply. */
  function Step(fold: string -> string, s: State, t: Tid, a: Action): Option<State> {
    if t !in s.threads then None
    else
      var th := s.threads[t];
      var name, f := th.name, fold(th.name);
      match (a, th.pc)
      case (Cancel(reason), Calling) => Some(Goto(s, t, Returned(Failed(reason), None)))
      case (Lookup, Calling) =>
        if name in s.nameToURL then
          var url := s.nameToURL[name];
          Some(Goto(s, t, if url in s.srcs then Returned(s.srcs[url], None) else Panicked))
        else if f != name && f in s.nameToURL then
          var url := s.nameToURL[f];
          Some(Goto(s, t, if url in s.srcs then Upgrading(url, s.srcs[url]) else Panicked))
        else Some(Goto(s, t, Entering))
      case (Upgrade, Upgrading(url, gate)) =>
        Some(Goto(s.(nameToURL := s.nameToURL[name := url]), t, Returned(gate, None)))
      case (Enter, Entering) =>
        if f in s.protoSrcs then Some(Goto(s.(protoSrcs := s.protoSrcs[f := s.protoSrcs[f] + [t]]), t, Waiting))
        else Some(Goto(s.(protoSrcs := s.protoSrcs[f := []]), t, Leading))
      case (Receive, Waiting) =>
        if th.inbox == [] then None
        else
          var r := th.inbox[0];
          Some(s.(threads := s.threads[t := Thread(name, Returned(r.answer, Some(r.leader)), th.inbox[1..])]))
      case (DeduceFails(reason), Leading) => Some(Goto(s, t, Replying(Failed(reason))))
      case (DeduceSucceeds, Leading) => Some(Goto(s, t, Deduced))
      case (Recheck, Deduced) =>
        if f in s.nameToURL then
          var url := s.nameToURL[f];
          Some(Goto(s, t, if url in s.srcs then Replying(s.srcs[url]) else Panicked))
        else Some(Goto(s, t, Creating))
      case (CreateFails(reason), Creating) => Some(Goto(s, t, Replying(Failed(reason))))
      case (Create(unfolded), Creating) =>
        var url := if f != name then fold(unfolded) else unfolded;
        var names := Recorded(fold, s.nameToURL, name, unfolded);
        if url in s.srcs then Some(Goto(s.(nameToURL := names), t, Replying(s.srcs[url])))
        else
          var g := Gateway(s.created);
          Some(Goto(s.(nameToURL := names, srcs := s.srcs[url := g], created := s.created + 1), t, Replying(g)))
      case (DoReturn, Replying(answer)) =>
        if f !in s.protoSrcs then Some(Goto(s, t, Returned(answer, None)))
        else
          var told := s.(threads := Deliver(s.threads, s.protoSrcs[f], Reply(t, answer)),
                         protoSrcs := s.protoSrcs - {f});
          Some(Goto(told, t, Returned(answer, None)))
      case _ => None
  }

  /** A run: any sequence of steps by any threads. Steps that do not apply are not taken. */
  function Run(fold: string -> string, s: State, steps: seq<(Tid, Action)>): State {
    if steps == [] then s
    else
      var before := Run(fold, s, steps[..|steps| - 1]);
      var (t, a) := steps[|steps| - 1];
      match Step(fold, before, t, a) case None => before case Some(after) => after
  }

  /** Any number of calls, none begun. */
  predicate Initial(s: State) {
    && s.srcs == map[] && s.nameToURL == map[] && s.protoSrcs == map[]
    && forall t <- s.threads :: s.threads[t].pc == Calling && s.threads[t].inbox == []
  }

  // ---------------------------------------------------------------- the invariant

  /** Every recorded name leads to a gateway. */
  predicate NamesLead(s: State) {
    forall n <- s.nameToURL :: s.nameToURL[n] in s.srcs
  }

  /** Gateways are distinct objects, made in order. */
  predicate GatewaysFresh(s: State) {
    && (forall u <- s.srcs :: s.srcs[u].Gateway? && s.srcs[u].serial < s.created)
    && (forall u, v | u in s.srcs && v in s.srcs && s.srcs[u] == s.srcs[v] :: u == v)
  }

  /** Thread t is in a leading phase exactly when it is the leader of its folded name. */
  predicate LeadsRightly(fold: string -> string, s: State, leaders: map<string, Tid>, t: Tid)
    requires t in s.threads
  {
    var f := fold(s.threads[t].name);
    IsLeader(s.threads[t].pc) <==> f in leaders && leaders[f] == t
  }

  /** The leader of f is a thread that asks for a name folding to f. */
  predicate LedByOne(fold: string -> string, s: State, leaders: map<string, Tid>, f: string)
    requires f in leaders
  {
    leaders[f] in s.threads && fold(s.threads[leaders[f]].name) == f
  }

  /** A folded name is being worked on exactly when it has a leader. */
  predicate LeadersMatch(fold: string -> string, s: State, leaders: map<string, Tid>) {
    && leaders.Keys == s.protoSrcs.Keys
    && (forall f <- leaders :: LedByOne(fold, s, leaders, f))
    && (forall t <- s.threads :: LeadsRightly(fold, s, leaders, t))
  }

  /** A waiting thread is attached, once, under its folded name and has not been told; or it
      has been told, once, the answer its leader returned, and is attached nowhere. */
  ghost predicate FollowerOk(fold: string -> string, s: State, t: Tid)
    requires t in s.threads
  {
    var th := s.threads[t];
    var f := fold(th.name);
    if th.pc.Waiting? && th.inbox == [] then
      f in s.protoSrcs && multiset(s.protoSrcs[f])[t] == 1 && forall g <- s.protoSrcs :: g != f ==> t !in s.protoSrcs[g]
    else
      && (forall g <- s.protoSrcs :: t !in s.protoSrcs[g])
      && (th.pc.Waiting? ==> |th.inbox| == 1 && Told(fold, s, th.inbox[0].leader, f, th.inbox[0].answer))
      && (!th.pc.Waiting? ==> th.inbox == [])
  }

  /** Thread l led the work on f and returned the answer. */
  predicate Told(fold: string -> string, s: State, l: Tid, f: string, answer: Answer) {
    l in s.threads && fold(s.threads[l].name) == f && s.threads[l].pc == Returned(answer, None)
  }

  /** A gateway that is handed out is one of the recorded ones. */
  predicate Registered(s: State, answer: Answer) {
    answer.Gateway? ==> exists u <- s.srcs :: s.srcs[u] == answer
  }

  predicate PcOk(fold: string -> string, s: State, th: Thread) {
    match th.pc
    case Upgrading(url, gate) => url in s.srcs && s.srcs[url] == gate
    case Replying(answer) => Registered(s, answer)
    case Returned(answer, leader) => Registered(s, answer)
        && (leader.Some? ==> Told(fold, s, leader.value, fold(th.name), answer))
    case Panicked => false
    case _ => true
  }

  predicate ListedAreThreads(s: State) {
    forall f <- s.protoSrcs :: forall u <- s.protoSrcs[f] :: u in s.threads
  }

  ghost predicate Inv(fold: string -> string, s: State, leaders: map<string, Tid>) {
    && NamesLead(s) && GatewaysFresh(s) && LeadersMatch(fold, s, leaders) && ListedAreThreads(s)
    && forall t <- s.threads :: FollowerOk(fold, s, t) && PcOk(fold, s, s.threads[t])
  }

  lemma InitialInv(fold: string -> string, s: State)
    requires Initial(s)
    ensures Inv(fold, s, map[])
  {
  }

  // ---------------------------------------------------------------- every step keeps it

  /** Only recording a name and creating a gateway touch the two maps. */
  lemma NamesEffect(fold: string -> string, s: State, t: Tid, a: Action)
    requires Step(fold, s, t, a).Some?
    ensures var s', name, pc := Step(fold, s, t, a).value, s.threads[t].name, s.threads[t].pc;
            if a.Upgrade? then
              pc.Upgrading? && s'.nameToURL == s.nameToURL[name := pc.url] && s'.srcs == s.srcs
                  && s'.created == s.created
            else if a.Create? then
              var url := if fold(name) != name then fold(a.url) else a.url;
              && s'.nameToURL == Recorded(fold, s.nameToURL, name, a.url)
              && (if url in s.srcs then s'.srcs == s.srcs && s'.created == s.created
                  else s'.srcs == s.srcs[url := Gateway(s.created)] && s'.created == s.created + 1)
            else s'.nameToURL == s.nameToURL && s'.srcs == s.srcs && s'.created == s.created
  {
    hide Deliver;
    hide Recorded;
  }

  lemma NamesStep(fold: string -> string, s: State, t: Tid, a: Action)
    requires NamesLead(s) && GatewaysFresh(s) && Step(fold, s, t, a).Some? && PcOk(fold, s, s.threads[t])
    ensures var s' := Step(fold, s, t, a).value;
            && NamesLead(s') && GatewaysFresh(s')
            && (forall u <- s.srcs :: u in s'.srcs && s'.srcs[u] == s.srcs[u])
  {
    NamesEffect(fold, s, t, a);
    if a.Create? {
      RecordedLead(fold, s.nameToURL, Step(fold, s, t, a).value.srcs, s.threads[t].name, a.url);
    }
    hide Step;
    hide Recorded;
    hide Told;
    hide Registered;
  }

  lemma NamesStay(fold: string -> string, s: State, t: Tid, a: Action)
    requires Step(fold, s, t, a).Some?
    ensures s.nameToURL.Keys <= Step(fold, s, t, a).value.nameToURL.Keys
  {
    NamesEffect(fold, s, t, a);
    hide Step;
  }

  /** Once a gateway stands under the URL that creation records, every name leads to one. */
  lemma RecordedLead(fold: string -> string, names: map<string, string>, srcs: map<string, Answer>, name: string,
                     unfolded: string)
    requires (if fold(name) != name then fold(unfolded) else unfolded) in srcs
    requires forall n <- names :: names[n] in srcs
    ensures forall n <- Recorded(fold, names, name, unfolded) :: Recorded(fold, names, name, unfolded)[n] in srcs
  {
  }

  /** Nobody but t moves, though others may be told something. */
  lemma OthersStay(fold: string -> string, s: State, t: Tid, a: Action, u: Tid)
    requires Step(fold, s, t, a).Some?
    ensures var s' := Step(fold, s, t, a).value;
            && s'.threads.Keys == s.threads.Keys
            && (u in s.threads ==> s'.threads[u].name == s.threads[u].name)
            && (u in s.threads && u != t ==> s'.threads[u].pc == s.threads[u].pc)
            && (u in s.threads && u != t && !a.DoReturn? ==> s'.threads[u] == s.threads[u])
  {
  }

  ghost function NextLeaders(fold: string -> string, s: State, leaders: map<string, Tid>, t: Tid,
                             a: Action): map<string, Tid>
    requires t in s.threads
  {
    var f := fold(s.threads[t].name);
    if a.Enter? && f !in leaders then leaders[f := t] else if a.DoReturn? then leaders - {f} else leaders
  }

  /** Taking the lead, and giving it up, go with an entry of the proto map. */
  lemma LeadGoesWithEntry(fold: string -> string, s: State, t: Tid, a: Action)
    requires NamesLead(s) && Step(fold, s, t, a).Some?
    ensures var s', f := Step(fold, s, t, a).value, fold(s.threads[t].name);
            && t in s'.threads
            && var led, leads := IsLeader(s.threads[t].pc), IsLeader(s'.threads[t].pc);
               if a.Enter? && f !in s.protoSrcs then s'.protoSrcs.Keys == s.protoSrcs.Keys + {f} && !led && leads
               else if a.DoReturn? then s'.protoSrcs.Keys == s.protoSrcs.Keys - {f} && led && !leads
               else s'.protoSrcs.Keys == s.protoSrcs.Keys && led == leads
  {
    hide Recorded;
    hide Deliver;
  }

  lemma LeaderStepAt(fold: string -> string, s: State, leaders: map<string, Tid>, t: Tid, a: Action, u: Tid)
    requires NamesLead(s) && LeadersMatch(fold, s, leaders) && Step(fold, s, t, a).Some? && u in s.threads
    ensures u in Step(fold, s, t, a).value.threads
    ensures LeadsRightly(fold, Step(fold, s, t, a).value, NextLeaders(fold, s, leaders, t, a), u)
  {
    LeadGoesWithEntry(fold, s, t, a);
    OthersStay(fold, s, t, a, u);
    assert LeadsRightly(fold, s, leaders, u) && LeadsRightly(fold, s, leaders, t);
    hide Step;
    hide IsLeader;
    hide LeadersMatch;
    hide NamesLead;
  }

  lemma LeaderStep(fold: string -> string, s: State, leaders: map<string, Tid>, t: Tid, a: Action)
    requires NamesLead(s) && LeadersMatch(fold, s, leaders) && Step(fold, s, t, a).Some?
    ensures LeadersMatch(fold, Step(fold, s, t, a).value, NextLeaders(fold, s, leaders, t, a))
  {
    var s' := Step(fold, s, t, a).value;
    LeadGoesWithEntry(fold, s, t, a);
    OthersStay(fold, s, t, a, t);
    forall u | u in s'.threads ensures LeadsRightly(fold, s', NextLeaders(fold, s, leaders, t, a), u) {
      LeaderStepAt(fold, s, leaders, t, a, u);
    }
    forall f | f in NextLeaders(fold, s, leaders, t, a)
      ensures LedByOne(fold, s', NextLeaders(fold, s, leaders, t, a), f)
    {
      if f in leaders {
        assert LedByOne(fold, s, leaders, f);
        OthersStay(fold, s, t, a, leaders[f]);
      }
    }
    hide Step;
    hide LeadsRightly;
    hide LedByOne;
    hide NamesLead;
  }

  /** What a returned leader answered stays answered. */
  lemma ToldStays(fold: string -> string, s: State, t: Tid, a: Action, l: Tid, f: string, answer: Answer)
    requires Step(fold, s, t, a).Some? && Told(fold, s, l, f, answer)
    ensures Told(fold, Step(fold, s, t, a).value, l, f, answer)
  {
    OthersStay(fold, s, t, a, l);
  }

  /** The steps that leave every list of followers alone and nobody waiting who was not. */
  predicate Quiet(fold: string -> string, s: State, t: Tid, a: Action)
    requires t in s.threads
  {
    !a.Receive? && !a.DoReturn? && (a.Enter? ==> fold(s.threads[t].name) !in s.protoSrcs)
  }

  lemma QuietEffect(fold: string -> string, s: State, t: Tid, a: Action)
    requires Step(fold, s, t, a).Some? && Quiet(fold, s, t, a)
    ensures var s' := Step(fold, s, t, a).value;
            && !s.threads[t].pc.Waiting? && t in s'.threads && !s'.threads[t].pc.Waiting?
            && s'.threads == s.threads[t := s.threads[t].(pc := s'.threads[t].pc)]
            && (s'.protoSrcs == s.protoSrcs || exists f :: f !in s.protoSrcs && s'.protoSrcs == s.protoSrcs[f := []])
  {
    hide Recorded;
    hide Deliver;
    var f := fold(s.threads[t].name);
    if a.Enter? { assert f !in s.protoSrcs; }
  }

  lemma FollowersQuiet(fold: string -> string, s: State, t: Tid, a: Action, u: Tid)
    requires Step(fold, s, t, a).Some? && Quiet(fold, s, t, a) && u in s.threads && FollowerOk(fold, s, u)
    ensures u in Step(fold, s, t, a).value.threads && FollowerOk(fold, Step(fold, s, t, a).value, u)
  {
    QuietEffect(fold, s, t, a);
    var s', th := Step(fold, s, t, a).value, s.threads[u];
    if th.pc.Waiting? && th.inbox != [] {
      ToldStays(fold, s, t, a, th.inbox[0].leader, fold(th.name), th.inbox[0].answer);
    }
    hide Step;
    hide Quiet;
    hide Told;
  }

  lemma FollowersAttach(fold: string -> string, s: State, t: Tid, u: Tid)
    requires Step(fold, s, t, Enter).Some? && fold(s.threads[t].name) in s.protoSrcs
    requires u in s.threads && FollowerOk(fold, s, u) && FollowerOk(fold, s, t)
    ensures u in Step(fold, s, t, Enter).value.threads && FollowerOk(fold, Step(fold, s, t, Enter).value, u)
  {
    var s', th, f := Step(fold, s, t, Enter).value, s.threads[u], fold(s.threads[t].name);
    assert s'.protoSrcs == s.protoSrcs[f := s.protoSrcs[f] + [t]]
        && s'.threads == s.threads[t := s.threads[t].(pc := Waiting)];
    assert s.threads[t].pc == Entering;
    if th.pc.Waiting? && th.inbox != [] {
      ToldStays(fold, s, t, Enter, th.inbox[0].leader, fold(th.name), th.inbox[0].answer);
    }
    hide Step;
    hide Told;
    assert t !in s.protoSrcs[f];
    assert multiset(s'.protoSrcs[f]) == multiset(s.protoSrcs[f]) + multiset{t};
  }

  lemma FollowersReceive(fold: string -> string, s: State, t: Tid, u: Tid)
    requires Step(fold, s, t, Receive).Some?
    requires u in s.threads && FollowerOk(fold, s, u) && FollowerOk(fold, s, t)
    ensures u in Step(fold, s, t, Receive).value.threads && FollowerOk(fold, Step(fold, s, t, Receive).value, u)
  {
    var s', th := Step(fold, s, t, Receive).value, s.threads[u];
    assert s'.protoSrcs == s.protoSrcs;
    if th.pc.Waiting? && th.inbox != [] {
      ToldStays(fold, s, t, Receive, th.inbox[0].leader, fold(th.name), th.inbox[0].answer);
    }
    hide Told;
  }

  lemma FollowersTold(fold: string -> string, s: State, t: Tid, u: Tid)
    requires Step(fold, s, t, DoReturn).Some? && fold(s.threads[t].name) in s.protoSrcs
    requires u in s.threads && FollowerOk(fold, s, u) && FollowerOk(fold, s, t)
    ensures u in Step(fold, s, t, DoReturn).value.threads && FollowerOk(fold, Step(fold, s, t, DoReturn).value, u)
  {
    var s', th, f := Step(fold, s, t, DoReturn).value, s.threads[u], fold(s.threads[t].name);
    var answer := s.threads[t].pc.answer;
    assert s'.protoSrcs == s.protoSrcs - {f};
    assert s'.threads == Deliver(s.threads, s.protoSrcs[f],
                                 Reply(t, answer))[t := s.threads[t].(pc := Returned(answer, None))] by {
      assert t !in s.protoSrcs[f];
    }
    assert Told(fold, s', t, f, answer);
    if th.pc.Waiting? && th.inbox != [] {
      ToldStays(fold, s, t, DoReturn, th.inbox[0].leader, fold(th.name), th.inbox[0].answer);
    }
    hide Step;
    hide Told;
    if th.pc.Waiting? && th.inbox == [] && f == fold(th.name) {
      assert u in s.protoSrcs[f];
    }
  }

  lemma FollowerStep(fold: string -> string, s: State, leaders: map<string, Tid>, t: Tid, a: Action, u: Tid)
    requires Inv(fold, s, leaders) && Step(fold, s, t, a).Some? && u in s.threads
    ensures u in Step(fold, s, t, a).value.threads && FollowerOk(fold, Step(fold, s, t, a).value, u)
  {
    assert FollowerOk(fold, s, t) && FollowerOk(fold, s, u);
    if Quiet(fold, s, t, a) {
      FollowersQuiet(fold, s, t, a, u);
    } else if a.Enter? {
      FollowersAttach(fold, s, t, u);
    } else if a.Receive? {
      FollowersReceive(fold, s, t, u);
    } else {
      assert LeadsRightly(fold, s, leaders, t);
      FollowersTold(fold, s, t, u);
    }
    hide Step;
    hide FollowerOk;
    hide LeadsRightly;
    hide PcOk;
  }

  lemma ListedStep(fold: string -> string, s: State, t: Tid, a: Action)
    requires ListedAreThreads(s) && Step(fold, s, t, a).Some?
    ensures ListedAreThreads(Step(fold, s, t, a).value)
  {
    hide Recorded;
  }

  /** The thread that moves does not run into a missing gateway. */
  lemma MoverPc(fold: string -> string, s: State, t: Tid, a: Action)
    requires NamesLead(s) && Step(fold, s, t, a).Some? && PcOk(fold, s, s.threads[t]) && FollowerOk(fold, s, t)
    requires a.Receive? ==> Registered(s, s.threads[t].inbox[0].answer)
    ensures var s' := Step(fold, s, t, a).value; t in s'.threads && PcOk(fold, s', s'.threads[t])
  {
    hide Recorded;
    hide Deliver;
    var s' := Step(fold, s, t, a).value;
    if a.Receive? {
      var r := s.threads[t].inbox[0];
      ToldStays(fold, s, t, a, r.leader, fold(s.threads[t].name), r.answer);
    }
    if a.Create? {
      var url := if fold(s.threads[t].name) != s.threads[t].name then fold(a.url) else a.url;
      assert url in s'.srcs && s'.threads[t].pc == Replying(s'.srcs[url]);
    }
  }

  lemma PcStep(fold: string -> string, s: State, t: Tid, a: Action, u: Tid)
    requires NamesLead(s) && GatewaysFresh(s) && Step(fold, s, t, a).Some? && u in s.threads && u != t
    requires PcOk(fold, s, s.threads[t]) && PcOk(fold, s, s.threads[u])
    ensures var s' := Step(fold, s, t, a).value; u in s'.threads && PcOk(fold, s', s'.threads[u])
  {
    NamesStep(fold, s, t, a);
    OthersStay(fold, s, t, a, u);
    var th := s.threads[u];
    if th.pc.Returned? && th.pc.leader.Some? {
      ToldStays(fold, s, t, a, th.pc.leader.value, fold(th.name), th.pc.answer);
    }
    hide Step;
    hide Told;
    hide NamesLead;
    hide GatewaysFresh;
  }

  /** What lies in a waiting thread's channel is a recorded gateway or an error. */
  lemma InboxRegistered(fold: string -> string, s: State, leaders: map<string, Tid>, t: Tid)
    requires Inv(fold, s, leaders) && t in s.threads && s.threads[t].pc.Waiting? && s.threads[t].inbox != []
    ensures Registered(s, s.threads[t].inbox[0].answer)
  {
    assert FollowerOk(fold, s, t);
    var l := s.threads[t].inbox[0].leader;
    assert PcOk(fold, s, s.threads[l]);
    hide Registered;
    hide LeadersMatch;
  }

  lemma StepInv(fold: string -> string, s: State, leaders: map<string, Tid>, t: Tid, a: Action)
    requires Inv(fold, s, leaders) && Step(fold, s, t, a).Some?
    ensures Inv(fold, Step(fold, s, t, a).value, NextLeaders(fold, s, leaders, t, a))
  {
    var s' := Step(fold, s, t, a).value;
    assert FollowerOk(fold, s, t) && PcOk(fold, s, s.threads[t]);
    NamesStep(fold, s, t, a);
    LeaderStep(fold, s, leaders, t, a);
    OthersStay(fold, s, t, a, t);
    ListedStep(fold, s, t, a);
    if a.Receive? { InboxRegistered(fold, s, leaders, t); }
    forall u | u in s'.threads ensures FollowerOk(fold, s', u) && PcOk(fold, s', s'.threads[u]) {
      FollowerStep(fold, s, leaders, t, a, u);
      assert PcOk(fold, s, s.threads[u]);
      if u == t { MoverPc(fold, s, t, a); } else { PcStep(fold, s, t, a, u); }
    }
    hide Step;
    hide NamesLead;
    hide GatewaysFresh;
    hide LeadersMatch;
    hide ListedAreThreads;
    hide FollowerOk;
    hide PcOk;
  }

  // ---------------------------------------------------------------- every run

  lemma {:induction false} RunInv(fold: string -> string, s: State, steps: seq<(Tid, Action)>)
      returns (leaders: map<string, Tid>)
    requires Initial(s)
    ensures Inv(fold, Run(fold, s, steps), leaders)
  {
    if steps == [] {
      leaders := map[];
      InitialInv(fold, s);
    } else {
      var n := |steps| - 1;
      var before := Run(fold, s, steps[..n]);
      leaders := RunInv(fold, s, steps[..n]);
      if Step(fold, before, steps[n].0, steps[n].1).Some? {
        StepInv(fold, before, leaders, steps[n].0, steps[n].1);
        leaders := NextLeaders(fold, before, leaders, steps[n].0, steps[n].1);
      }
    }
    hide Step;
    hide Inv;
    hide NextLeaders;
  }

  /** Single flight: in every interleaving a folded name has at most one leader, the three panics
      are not reached, and every recorded name leads to a recorded gateway. */
  lemma SingleFlight(fold: string -> string, s0: State, steps: seq<(Tid, Action)>)
    requires Initial(s0)
    ensures var s := Run(fold, s0, steps);
            && (forall t, u | t in s.threads && u in s.threads && IsLeader(s.threads[t].pc) && IsLeader(s.threads[u].pc)
                  && fold(s.threads[t].name) == fold(s.threads[u].name) :: t == u)
            && (forall t <- s.threads :: !s.threads[t].pc.Panicked?)
            && (forall n <- s.nameToURL :: s.nameToURL[n] in s.srcs)
  {
    var s := Run(fold, s0, steps);
    var leaders := RunInv(fold, s0, steps);
    forall t, u | t in s.threads && u in s.threads && IsLeader(s.threads[t].pc) && IsLeader(s.threads[u].pc)
                  && fold(s.threads[t].name) == fold(s.threads[u].name)
      ensures t == u
    {
      assert LeadsRightly(fold, s, leaders, t) && LeadsRightly(fold, s, leaders, u);
    }
    forall t | t in s.threads ensures !s.threads[t].pc.Panicked? {
      assert PcOk(fold, s, s.threads[t]);
    }
    hide Run;
    hide IsLeader;
    hide FollowerOk;
  }

  /** A follower that has returned was told by one leader of its name, and answers exactly what
      that leader answered; a gateway anybody returns is a recorded one. */
  lemma AnsweredByLeader(fold: string -> string, s0: State, steps: seq<(Tid, Action)>, t: Tid)
    requires Initial(s0)
    ensures var s := Run(fold, s0, steps);
            t in s.threads && s.threads[t].pc.Returned? ==>
              && Registered(s, s.threads[t].pc.answer) && s.threads[t].inbox == []
              && (s.threads[t].pc.leader.Some? ==>
                    Told(fold, s, s.threads[t].pc.leader.value, fold(s.threads[t].name), s.threads[t].pc.answer))
  {
    var s := Run(fold, s0, steps);
    var leaders := RunInv(fold, s0, steps);
    if t in s.threads {
      assert PcOk(fold, s, s.threads[t]) && FollowerOk(fold, s, t);
    }
    hide Run;
    hide LeadersMatch;
  }

  /** When leader t replies, follower u is listed once and its channel, of capacity one, is empty;
      after the step it holds this one reply and the list is gone. */
  ghost predicate ToldOnce(fold: string -> string, s: State, t: Tid, u: Tid)
    requires t in s.threads && s.threads[t].pc.Replying?
  {
    var f, s' := fold(s.threads[t].name), Step(fold, s, t, DoReturn).value;
    && f in s.protoSrcs && f !in s'.protoSrcs
    && (u in s.protoSrcs[f] ==>
          && multiset(s.protoSrcs[f])[u] == 1
          && u in s.threads && s.threads[u].pc.Waiting? && s.threads[u].inbox == []
          && u in s'.threads && s'.threads[u].inbox == [Reply(t, s.threads[t].pc.answer)])
  }

  lemma RepliesOnce(fold: string -> string, s: State, leaders: map<string, Tid>, t: Tid, u: Tid)
    requires Inv(fold, s, leaders) && t in s.threads && s.threads[t].pc.Replying?
    ensures ToldOnce(fold, s, t, u)
  {
    var f := fold(s.threads[t].name);
    assert LeadsRightly(fold, s, leaders, t);
    EntryGone(fold, s, t);
    if u in s.protoSrcs[f] {
      ListedIsWaiting(fold, s, leaders, f, u);
      SentToListed(fold, s, t, u);
    }
    hide Step;
    hide Inv;
    hide LeadsRightly;
  }

  /** The sends of `doReturn` never block and reach every attached follower exactly once. */
  lemma RepliesReachEachOnce(fold: string -> string, s0: State, steps: seq<(Tid, Action)>, t: Tid, u: Tid)
    requires Initial(s0)
    requires t in Run(fold, s0, steps).threads && Run(fold, s0, steps).threads[t].pc.Replying?
    ensures ToldOnce(fold, Run(fold, s0, steps), t, u)
  {
    var leaders := RunInv(fold, s0, steps);
    RepliesOnce(fold, Run(fold, s0, steps), leaders, t, u);
    hide ToldOnce;
    hide Run;
    hide Inv;
  }

  lemma EntryGone(fold: string -> string, s: State, t: Tid)
    requires t in s.threads && s.threads[t].pc.Replying?
    ensures fold(s.threads[t].name) !in Step(fold, s, t, DoReturn).value.protoSrcs
  {
    hide Deliver;
    hide Recorded;
  }

  lemma SentToListed(fold: string -> string, s: State, t: Tid, u: Tid)
    requires t in s.threads && s.threads[t].pc.Replying? && fold(s.threads[t].name) in s.protoSrcs
    requires u in s.protoSrcs[fold(s.threads[t].name)] && u in s.threads && s.threads[u].pc.Waiting?
             && s.threads[u].inbox == []
    ensures var s' := Step(fold, s, t, DoReturn).value;
            u in s'.threads && s'.threads[u].inbox == [Reply(t, s.threads[t].pc.answer)]
  {
  }

  /** Whoever is attached is a thread waiting, once, under its own folded name, with nothing sent. */
  lemma ListedIsWaiting(fold: string -> string, s: State, leaders: map<string, Tid>, f: string, u: Tid)
    requires Inv(fold, s, leaders) && f in s.protoSrcs && u in s.protoSrcs[f]
    ensures u in s.threads && s.threads[u].pc.Waiting? && s.threads[u].inbox == []
    ensures fold(s.threads[u].name) == f && multiset(s.protoSrcs[f])[u] == 1
  {
    assert u in s.threads;
    assert FollowerOk(fold, s, u);
    hide PcOk;
    hide LeadersMatch;
    hide Told;
  }

  /** Nobody is stranded: while some call has not returned, some thread can step. */
  lemma NobodyStranded(fold: string -> string, s0: State, steps: seq<(Tid, Action)>, t: Tid)
    requires Initial(s0)
    ensures var s := Run(fold, s0, steps);
            t in s.threads && !s.threads[t].pc.Returned? ==> exists u, a :: Step(fold, s, u, a).Some?
  {
    var s := Run(fold, s0, steps);
    var leaders := RunInv(fold, s0, steps);
    hide Run;
    if t in s.threads && !s.threads[t].pc.Returned? {
      assert PcOk(fold, s, s.threads[t]) && FollowerOk(fold, s, t);
      if s.threads[t].pc.Waiting? && s.threads[t].inbox == [] {
        var f := fold(s.threads[t].name);
        assert LedByOne(fold, s, leaders, f);
        assert LeadsRightly(fold, s, leaders, leaders[f]);
        LeaderCanStep(fold, s, leaders[f]);
      } else {
        OwnStep(fold, s, t);
      }
    }
    hide Step;
    hide Inv;
  }

  lemma LeaderCanStep(fold: string -> string, s: State, t: Tid)
    requires t in s.threads && IsLeader(s.threads[t].pc)
    ensures exists u, a :: Step(fold, s, u, a).Some?
  {
    var a := match s.threads[t].pc
      case Leading => DeduceSucceeds
      case Deduced => Recheck
      case Creating => Create("")
      case _ => DoReturn;
    assert Step(fold, s, t, a).Some?;
  }

  lemma OwnStep(fold: string -> string, s: State, t: Tid)
    requires t in s.threads && !s.threads[t].pc.Returned? && !s.threads[t].pc.Panicked?
    requires s.threads[t].pc.Waiting? ==> s.threads[t].inbox != []
    ensures exists u, a :: Step(fold, s, u, a).Some?
  {
    if IsLeader(s.threads[t].pc) {
      LeaderCanStep(fold, s, t);
    } else {
      var a := match s.threads[t].pc
        case Calling => Lookup
        case Upgrading(_, _) => Upgrade
        case Entering => Enter
        case _ => Receive;
      assert Step(fold, s, t, a).Some?;
    }
  }

  /** What creating a gateway leaves behind: the name asked for, its folded form, and both forms of
      the URL lead to the gateway that is answered. */
  lemma CreatedIsFound(fold: string -> string, s: State, t: Tid, unfolded: string)
    requires Step(fold, s, t, Create(unfolded)).Some?
    ensures var s', name := Step(fold, s, t, Create(unfolded)).value, s.threads[t].name;
            var url := if fold(name) != name then fold(unfolded) else unfolded;
            && url in s'.srcs && t in s'.threads && s'.threads[t].pc == Replying(s'.srcs[url])
            && forall n <- [name, fold(name), url, unfolded] :: n in s'.nameToURL && s'.nameToURL[n] == url
  {
    hide Deliver;
  }

  /** A call whose name is recorded is answered at once, with the gateway that the name leads to, and nothing
      else changes. */
  lemma KnownNameIsServed(fold: string -> string, s: State, t: Tid)
    requires NamesLead(s) && t in s.threads && s.threads[t].pc.Calling? && s.threads[t].name in s.nameToURL
    ensures var gate := s.srcs[s.nameToURL[s.threads[t].name]];
            Step(fold, s, t, Lookup) ==
            Some(s.(threads := s.threads[t := s.threads[t].(pc := Returned(gate, None))]))
  {
  }

  /** So a call for the same name, up to case, that begins then is served without any leader. */
  lemma NextCallIsServed(fold: string -> string, s: State, t: Tid, unfolded: string, u: Tid)
    requires Step(fold, s, t, Create(unfolded)).Some? && u in s.threads && s.threads[u].pc.Calling?
    requires fold(s.threads[u].name) == fold(s.threads[t].name) && NamesLead(s)
    ensures var s' := Step(fold, s, t, Create(unfolded)).value;
            var called := Step(fold, s', u, Lookup);
            && called.Some? && t in s'.threads && s'.threads[t].pc.Replying? && u in called.value.threads
            && (s.threads[u].name in [s.threads[t].name, fold(s.threads[t].name)]
                || s.threads[u].name !in s'.nameToURL ==>
                  match called.value.threads[u].pc
                  case Returned(answer, leader) => answer == s'.threads[t].pc.answer && leader.None?
                  case Upgrading(_, gate) => gate == s'.threads[t].pc.answer
                  case _ => false)
  {
    CreatedIsFound(fold, s, t, unfolded);
    OthersStay(fold, s, t, Create(unfolded), u);
    hide Recorded;
    hide Deliver;
  }

  /** Entries of the gateway map are never replaced or removed, however long the run goes on, and
      names once recorded stay recorded. */
  lemma {:induction false} GatewaysKept(fold: string -> string, s0: State, steps: seq<(Tid, Action)>, n: nat)
    requires Initial(s0) && n <= |steps|
    ensures var earlier, now := Run(fold, s0, steps[..n]), Run(fold, s0, steps);
            && (forall u <- earlier.srcs :: u in now.srcs && now.srcs[u] == earlier.srcs[u])
            && earlier.nameToURL.Keys <= now.nameToURL.Keys
  {
    if n == |steps| {
      assert steps[..n] == steps;
    } else {
      var m := |steps| - 1;
      GatewaysKept(fold, s0, steps[..m], n);
      assert steps[..m][..n] == steps[..n];
      var before := Run(fold, s0, steps[..m]);
      var leaders := RunInv(fold, s0, steps[..m]);
      if Step(fold, before, steps[m].0, steps[m].1).Some? {
        assert PcOk(fold, before, before.threads[steps[m].0]);
        NamesStep(fold, before, steps[m].0, steps[m].1);
        NamesStay(fold, before, steps[m].0, steps[m].1);
      }
    }
    hide Step;
    hide PcOk;
    hide NamesLead;
    hide GatewaysFresh;
  }

  // ---------------------------------------------------------------- every call returns

  /** How many steps a thread has yet to take, at most. */
  function Rank(pc: Pc): nat {
    match pc
    case Calling => 6
    case Entering => 5
    case Leading => 4
    case Deduced => 3
    case Creating => 2
    case Replying(_) => 1
    case Waiting => 1
    case Upgrading(_, _) => 1
    case Returned(_, _) => 0
    case Panicked => 0
  }

  ghost function Total(threads: map<Tid, Thread>, ts: set<Tid>): nat
    requires ts <= threads.Keys
  {
    if ts == {} then 0
    else
      var t :| t in ts;
      Rank(threads[t].pc) + Total(threads, ts - {t})
  }

  /** The sum does not depend on the order in which it is taken. */
  lemma {:induction false} TotalPicks(threads: map<Tid, Thread>, ts: set<Tid>, t: Tid)
    requires ts <= threads.Keys && t in ts
    ensures Total(threads, ts) == Rank(threads[t].pc) + Total(threads, ts - {t})
    decreases ts
  {
    var u :| u in ts && Total(threads, ts) == Rank(threads[u].pc) + Total(threads, ts - {u});
    if u == t {
    } else {
      TotalPicks(threads, ts - {u}, t);
      TotalPicks(threads, ts - {t}, u);
      assert ts - {u} - {t} == ts - {t} - {u};
    }
    hide Rank;
  }

  lemma {:induction false} TotalAgrees(threads: map<Tid, Thread>, threads': map<Tid, Thread>, ts: set<Tid>)
    requires ts <= threads.Keys && ts <= threads'.Keys
    requires forall t <- ts :: threads[t].pc == threads'[t].pc
    ensures Total(threads, ts) == Total(threads', ts)
    decreases ts
  {
    if ts == {} {
    } else {
      var t :| t in ts;
      TotalPicks(threads, ts, t);
      TotalPicks(threads', ts, t);
      TotalAgrees(threads, threads', ts - {t});
    }
  }

  lemma {:induction false} TotalBound(threads: map<Tid, Thread>, ts: set<Tid>)
    requires ts <= threads.Keys
    ensures Total(threads, ts) <= 6 * |ts|
    decreases ts
  {
    if ts == {} {
    } else {
      var t :| t in ts;
      TotalPicks(threads, ts, t);
      TotalBound(threads, ts - {t});
    }
  }

  ghost function Pending(s: State): nat {
    Total(s.threads, s.threads.Keys)
  }

  lemma RankDrops(fold: string -> string, s: State, t: Tid, a: Action)
    requires Step(fold, s, t, a).Some?
    ensures t in Step(fold, s, t, a).value.threads
            && Rank(Step(fold, s, t, a).value.threads[t].pc) < Rank(s.threads[t].pc)
  {
    hide Recorded;
    hide Deliver;
  }

  /** Every step that applies lowers what is pending. */
  lemma PendingDrops(fold: string -> string, s: State, t: Tid, a: Action)
    requires Step(fold, s, t, a).Some?
    ensures Pending(Step(fold, s, t, a).value) < Pending(s)
  {
    var s' := Step(fold, s, t, a).value;
    RankDrops(fold, s, t, a);
    OthersStay(fold, s, t, a, t);
    forall u | u in s.threads && u != t ensures s'.threads[u].pc == s.threads[u].pc {
      OthersStay(fold, s, t, a, u);
    }
    TotalPicks(s.threads, s.threads.Keys, t);
    TotalPicks(s'.threads, s.threads.Keys, t);
    TotalAgrees(s.threads, s'.threads, s.threads.Keys - {t});
    hide Step;
    hide Total;
  }

  /** Every step of the run applied. */
  predicate NeverIdle(fold: string -> string, s: State, steps: seq<(Tid, Action)>) {
    forall n | 0 <= n < |steps| :: Step(fold, Run(fold, s, steps[..n]), steps[n].0, steps[n].1).Some?
  }

  lemma {:induction false} RunsAreShort(fold: string -> string, s: State, steps: seq<(Tid, Action)>)
    requires NeverIdle(fold, s, steps)
    ensures Pending(Run(fold, s, steps)) + |steps| <= Pending(s)
  {
    hide Step;
    hide Pending;
    if steps == [] {
    } else {
      var m := |steps| - 1;
      var front := steps[..m];
      forall n | 0 <= n < |front| ensures Step(fold, Run(fold, s, front[..n]), front[n].0, front[n].1).Some? {
        assert front[..n] == steps[..n];
      }
      RunsAreShort(fold, s, front);
      PendingDrops(fold, Run(fold, s, front), steps[m].0, steps[m].1);
    }
  }

  /** Every call returns: a run has at most six applied steps a call, and where none is left that
      applies every call has returned. */
  lemma EveryCallReturns(fold: string -> string, s0: State, steps: seq<(Tid, Action)>)
    requires Initial(s0) && NeverIdle(fold, s0, steps)
    ensures |steps| <= 6 * |s0.threads|
    ensures (forall t, a :: Step(fold, Run(fold, s0, steps), t, a).None?) ==>
              forall t <- Run(fold, s0, steps).threads :: Run(fold, s0, steps).threads[t].pc.Returned?
  {
    hide Step;
    RunsAreShort(fold, s0, steps);
    TotalBound(s0.threads, s0.threads.Keys);
    assert |s0.threads.Keys| == |s0.threads|;
    var s := Run(fold, s0, steps);
    hide Run;
    if forall t, a :: Step(fold, s, t, a).None? {
      forall t | t in s.threads ensures s.threads[t].pc.Returned? {
        NobodyStranded(fold, s0, steps, t);
      }
    }
  }
}
