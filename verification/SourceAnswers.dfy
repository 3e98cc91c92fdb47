/** Why a call to the source coordinator (`gps/source.go`) is answered as it is, over whole runs: every
    error goes back to a step that failed, and every gateway was recorded for the name when it was found. */
module SourceAnswers {
  import opened Wrappers
  import opened SourceCoordinator

  // ---------------------------------------------------------------- what happened in a run

  /** The k-th step of a run is by thread t, and was taken. */
  ghost predicate Took(fold: string -> string, s0: State, steps: seq<(Tid, Action)>, k: int, t: Tid) {
    0 <= k < |steps| && steps[k].0 == t && Step(fold, Run(fold, s0, steps[..k]), t, steps[k].1).Some?
  }

  /** The name leads to the gateway. */
  predicate Leads(s: State, name: string, gate: Answer) {
    name in s.nameToURL && s.nameToURL[name] in s.srcs && s.srcs[s.nameToURL[name]] == gate
  }

  /** Thread t failed to deduce a root, or to create a gateway, for this reason. */
  ghost predicate WorkFailed(fold: string -> string, s0: State, steps: seq<(Tid, Action)>, t: Tid, reason: string) {
    exists k :: Took(fold, s0, steps, k, t) && steps[k].1 in {DeduceFails(reason), CreateFails(reason)}
  }

  ghost predicate Cancelled(fold: string -> string, s0: State, steps: seq<(Tid, Action)>, t: Tid, reason: string) {
    exists k :: Took(fold, s0, steps, k, t) && steps[k].1 == Cancel(reason)
  }

  /** After one of its own steps, thread t had the name lead to the gateway. */
  ghost predicate Served(fold: string -> string, s0: State, steps: seq<(Tid, Action)>, t: Tid, name: string,
                         gate: Answer)
  {
    exists k :: Took(fold, s0, steps, k, t) && Leads(Run(fold, s0, steps[..k + 1]), name, gate)
  }

  /** The answer comes from the work of leader t on a folded name. */
  ghost predicate FromWork(fold: string -> string, s0: State, steps: seq<(Tid, Action)>, t: Tid, f: string,
                           answer: Answer)
  {
    match answer
    case Failed(reason) => WorkFailed(fold, s0, steps, t, reason)
    case Gateway(_) => Served(fold, s0, steps, t, f, answer)
  }

  /** The answer is thread t's own: from its work, because it was cancelled, or found under its name. */
  ghost predicate OwnAnswer(fold: string -> string, s0: State, steps: seq<(Tid, Action)>, t: Tid, name: string,
                            answer: Answer)
  {
    || FromWork(fold, s0, steps, t, fold(name), answer)
    || match answer
       case Failed(reason) => Cancelled(fold, s0, steps, t, reason)
       case Gateway(_) => Served(fold, s0, steps, t, name, answer)
  }

  /** What a thread is about to answer, has answered or was told has its cause in the run. */
  ghost predicate HasCause(fold: string -> string, s0: State, steps: seq<(Tid, Action)>, t: Tid, th: Thread) {
    && (match th.pc
        case Replying(answer) => FromWork(fold, s0, steps, t, fold(th.name), answer)
        case Returned(answer, None) => OwnAnswer(fold, s0, steps, t, th.name, answer)
        case Returned(answer, Some(l)) => FromWork(fold, s0, steps, l, fold(th.name), answer)
        case _ => true)
    && forall r <- th.inbox :: FromWork(fold, s0, steps, r.leader, fold(th.name), r.answer)
  }

  // ---------------------------------------------------------------- what happened stays so

  lemma TookStays(fold: string -> string, s0: State, steps: seq<(Tid, Action)>, step: (Tid, Action), k: int, t: Tid)
    requires Took(fold, s0, steps, k, t)
    ensures Took(fold, s0, steps + [step], k, t) && (steps + [step])[k] == steps[k]
    ensures Run(fold, s0, (steps + [step])[..k + 1]) == Run(fold, s0, steps[..k + 1])
  {
    assert (steps + [step])[..k] == steps[..k] && (steps + [step])[..k + 1] == steps[..k + 1];
    hide Run;
    hide Step;
  }

  lemma FromWorkStays(fold: string -> string, s0: State, steps: seq<(Tid, Action)>, step: (Tid, Action), t: Tid,
                      f: string, answer: Answer)
    requires FromWork(fold, s0, steps, t, f, answer)
    ensures FromWork(fold, s0, steps + [step], t, f, answer)
  {
    hide Step;
    hide Run;
    match answer
    case Failed(reason) =>
      var k :| Took(fold, s0, steps, k, t) && steps[k].1 in {DeduceFails(reason), CreateFails(reason)};
      TookStays(fold, s0, steps, step, k, t);
    case Gateway(_) =>
      ServedStays(fold, s0, steps, step, t, f, answer);
  }

  lemma ServedStays(fold: string -> string, s0: State, steps: seq<(Tid, Action)>, step: (Tid, Action), t: Tid,
                    name: string, gate: Answer)
    requires Served(fold, s0, steps, t, name, gate)
    ensures Served(fold, s0, steps + [step], t, name, gate)
  {
    var k :| Took(fold, s0, steps, k, t) && Leads(Run(fold, s0, steps[..k + 1]), name, gate);
    TookStays(fold, s0, steps, step, k, t);
    hide Took;
    hide Run;
  }

  lemma OwnAnswerStays(fold: string -> string, s0: State, steps: seq<(Tid, Action)>, step: (Tid, Action), t: Tid,
                       name: string, answer: Answer)
    requires OwnAnswer(fold, s0, steps, t, name, answer)
    ensures OwnAnswer(fold, s0, steps + [step], t, name, answer)
  {
    if FromWork(fold, s0, steps, t, fold(name), answer) {
      FromWorkStays(fold, s0, steps, step, t, fold(name), answer);
    } else {
      match answer
      case Failed(reason) =>
        var k :| Took(fold, s0, steps, k, t) && steps[k].1 == Cancel(reason);
        TookStays(fold, s0, steps, step, k, t);
      case Gateway(_) =>
        ServedStays(fold, s0, steps, step, t, name, answer);
    }
    hide Took;
    hide FromWork;
    hide Served;
  }

  lemma CauseStays(fold: string -> string, s0: State, steps: seq<(Tid, Action)>, step: (Tid, Action), t: Tid,
                       th: Thread)
    requires HasCause(fold, s0, steps, t, th)
    ensures HasCause(fold, s0, steps + [step], t, th)
  {
    hide FromWork;
    hide OwnAnswer;
    forall r <- th.inbox ensures FromWork(fold, s0, steps + [step], r.leader, fold(th.name), r.answer) {
      FromWorkStays(fold, s0, steps, step, r.leader, fold(th.name), r.answer);
    }
    match th.pc
    case Replying(answer) => FromWorkStays(fold, s0, steps, step, t, fold(th.name), answer);
    case Returned(answer, None) => OwnAnswerStays(fold, s0, steps, step, t, th.name, answer);
    case Returned(answer, Some(l)) => FromWorkStays(fold, s0, steps, step, l, fold(th.name), answer);
    case _ =>
  }

  // ---------------------------------------------------------------- one step

  /** Where the answer that a thread comes to by a step is from. */
  ghost predicate Arises(fold: string -> string, s: State, t: Tid, a: Action, s': State)
    requires t in s.threads && t in s'.threads
  {
    var name, f := s.threads[t].name, fold(s.threads[t].name);
    match s'.threads[t].pc
    case Replying(answer) =>
      (match answer
       case Failed(reason) => a in {DeduceFails(reason), CreateFails(reason)}
       case Gateway(_) => Leads(s', f, answer))
    case Returned(answer, None) =>
      || s.threads[t].pc == Replying(answer)
      || (match answer
          case Failed(reason) => a == Cancel(reason)
          case Gateway(_) => Leads(s', name, answer))
    case Returned(answer, Some(l)) => s.threads[t].inbox != [] && s.threads[t].inbox[0] == Reply(l, answer)
    case _ => true
  }

  lemma LookupArises(fold: string -> string, s: State, t: Tid)
    requires NamesLead(s) && GatewaysFresh(s) && t in s.threads && s.threads[t].pc.Calling?
    ensures Step(fold, s, t, Lookup).Some? && t in Step(fold, s, t, Lookup).value.threads
    ensures Arises(fold, s, t, Lookup, Step(fold, s, t, Lookup).value)
  {
  }

  lemma UpgradeArises(fold: string -> string, s: State, t: Tid)
    requires GatewaysFresh(s) && t in s.threads && PcOk(fold, s, s.threads[t]) && s.threads[t].pc.Upgrading?
    ensures Step(fold, s, t, Upgrade).Some? && t in Step(fold, s, t, Upgrade).value.threads
    ensures Arises(fold, s, t, Upgrade, Step(fold, s, t, Upgrade).value)
  {
  }

  lemma RecheckArises(fold: string -> string, s: State, t: Tid)
    requires NamesLead(s) && GatewaysFresh(s) && t in s.threads && s.threads[t].pc.Deduced?
    ensures Step(fold, s, t, Recheck).Some? && t in Step(fold, s, t, Recheck).value.threads
    ensures Arises(fold, s, t, Recheck, Step(fold, s, t, Recheck).value)
  {
  }

  lemma CreateArises(fold: string -> string, s: State, t: Tid, unfolded: string)
    requires NamesLead(s) && GatewaysFresh(s) && t in s.threads && s.threads[t].pc.Creating?
    ensures Step(fold, s, t, Create(unfolded)).Some? && t in Step(fold, s, t, Create(unfolded)).value.threads
    ensures Arises(fold, s, t, Create(unfolded), Step(fold, s, t, Create(unfolded)).value)
  {
    CreatedIsFound(fold, s, t, unfolded);
    NamesStep(fold, s, t, Create(unfolded));
    hide Recorded;
  }

  /** The other steps find no gateway anew. */
  lemma OtherArises(fold: string -> string, s: State, t: Tid, a: Action)
    requires Step(fold, s, t, a).Some? && !a.Lookup? && !a.Upgrade? && !a.Recheck? && !a.Create?
    ensures t in s.threads && t in Step(fold, s, t, a).value.threads
    ensures Arises(fold, s, t, a, Step(fold, s, t, a).value)
  {
    hide Recorded;
    hide Deliver;
    hide Leads;
    if a.DoReturn? { ReturnArises(fold, s, t); }
  }

  lemma ReturnArises(fold: string -> string, s: State, t: Tid)
    requires Step(fold, s, t, DoReturn).Some?
    ensures t in s.threads && t in Step(fold, s, t, DoReturn).value.threads && s.threads[t].pc.Replying?
    ensures Step(fold, s, t, DoReturn).value.threads[t].pc == Returned(s.threads[t].pc.answer, None)
  {
    hide Deliver;
  }

  lemma AnswerArises(fold: string -> string, s: State, leaders: map<string, Tid>, t: Tid, a: Action)
    requires Inv(fold, s, leaders) && Step(fold, s, t, a).Some?
    ensures t in s.threads && t in Step(fold, s, t, a).value.threads
    ensures Step(fold, s, t, a).value.threads[t].name == s.threads[t].name
    ensures Arises(fold, s, t, a, Step(fold, s, t, a).value)
  {
    StepsOf(fold, s, t, a);
    assert PcOk(fold, s, s.threads[t]);
    OthersStay(fold, s, t, a, t);
    hide Step;
    hide Arises;
    hide LeadersMatch;
    hide FollowerOk;
    hide PcOk;
    hide NamesLead;
    hide GatewaysFresh;
    match a
    case Lookup => LookupArises(fold, s, t);
    case Upgrade => UpgradeArises(fold, s, t);
    case Recheck => RecheckArises(fold, s, t);
    case Create(unfolded) => CreateArises(fold, s, t, unfolded);
    case _ => OtherArises(fold, s, t, a);
  }

  lemma StepsOf(fold: string -> string, s: State, t: Tid, a: Action)
    requires Step(fold, s, t, a).Some?
    ensures t in s.threads
    ensures match a
            case Lookup => s.threads[t].pc.Calling?
            case Upgrade => s.threads[t].pc.Upgrading?
            case Recheck => s.threads[t].pc.Deduced?
            case Create(_) => s.threads[t].pc.Creating?
            case _ => true
  {
    hide Recorded;
    hide Deliver;
  }

  // ---------------------------------------------------------------- whole runs

  /** A step taken after a run is the last of the longer run. */
  lemma LastStep(fold: string -> string, s0: State, steps: seq<(Tid, Action)>, step: (Tid, Action))
    requires Step(fold, Run(fold, s0, steps), step.0, step.1).Some?
    ensures Took(fold, s0, steps + [step], |steps|, step.0) && (steps + [step])[|steps|] == step
    ensures Run(fold, s0, (steps + [step])[..|steps| + 1]) == Step(fold, Run(fold, s0, steps), step.0, step.1).value
    ensures Run(fold, s0, steps + [step]) == Step(fold, Run(fold, s0, steps), step.0, step.1).value
  {
    var all := steps + [step];
    assert all[..|steps|] == steps && all[..|steps| + 1] == all;
    hide Step;
  }

  /** Nobody is told anything new but by a leader that returns. */
  lemma InboxAfter(fold: string -> string, s: State, t: Tid, a: Action, u: Tid)
    requires Step(fold, s, t, a).Some? && u in s.threads
    ensures t in s.threads && u in Step(fold, s, t, a).value.threads
    ensures !a.DoReturn? ==> forall r <- Step(fold, s, t, a).value.threads[u].inbox :: r in s.threads[u].inbox
    ensures a.DoReturn? ==>
      && s.threads[t].pc.Replying?
      && forall r <- Step(fold, s, t, a).value.threads[u].inbox ::
           r in s.threads[u].inbox || r == Reply(t, s.threads[t].pc.answer)
  {
    hide Recorded;
  }

  /** The thread that steps is told nothing new, */
  lemma MoverInbox(fold: string -> string, s: State, leaders': map<string, Tid>, t: Tid, a: Action)
    requires Step(fold, s, t, a).Some? && Inv(fold, Step(fold, s, t, a).value, leaders')
    ensures t in s.threads && t in Step(fold, s, t, a).value.threads
    ensures forall r <- Step(fold, s, t, a).value.threads[t].inbox :: r in s.threads[t].inbox
  {
    InboxAfterIn(fold, s, t, a, t);
    InboxAfter(fold, s, t, a, t);
    assert FollowerOk(fold, Step(fold, s, t, a).value, t);
    if a.DoReturn? { ReturnArises(fold, s, t); }
    hide Inv;
    hide Step;
    hide Told;
  }

  /** ... and has its answer explained. */
  lemma MoverHasCause(fold: string -> string, s0: State, steps: seq<(Tid, Action)>, leaders: map<string, Tid>,
                       leaders': map<string, Tid>, t: Tid, a: Action)
    requires var s := Run(fold, s0, steps);
             && Step(fold, s, t, a).Some? && t in s.threads
             && Inv(fold, s, leaders) && Inv(fold, Step(fold, s, t, a).value, leaders')
             && HasCause(fold, s0, steps, t, s.threads[t])
    ensures var s' := Step(fold, Run(fold, s0, steps), t, a).value;
            t in s'.threads && HasCause(fold, s0, steps + [(t, a)], t, s'.threads[t])
  {
    hide Inv;
    hide Step;
    hide Run;
    hide Took;
    hide Leads;
    hide FromWork;
    hide OwnAnswer;
    var s, more := Run(fold, s0, steps), steps + [(t, a)];
    var s' := Step(fold, s, t, a).value;
    AnswerArises(fold, s, leaders, t, a);
    LastStep(fold, s0, steps, (t, a));
    CauseStays(fold, s0, steps, (t, a), t, s.threads[t]);
    MoverInbox(fold, s, leaders', t, a);
    assert more[..|more|] == more[..|steps| + 1];
    var th, name, f := s'.threads[t], s.threads[t].name, fold(s.threads[t].name);
    match th.pc
    case Replying(answer) => NewWork(fold, s0, more, t, a, f, answer, s');
    case Returned(answer, None) =>
      if s.threads[t].pc == Replying(answer) {
        WorkIsOwn(fold, s0, more, t, name, answer);
      } else {
        NewAnswer(fold, s0, more, t, a, name, answer, s');
      }
    case _ =>
  }

  lemma WorkIsOwn(fold: string -> string, s0: State, steps: seq<(Tid, Action)>, t: Tid, name: string, answer: Answer)
    requires FromWork(fold, s0, steps, t, fold(name), answer)
    ensures OwnAnswer(fold, s0, steps, t, name, answer)
  {
    hide FromWork;
  }

  lemma NewWork(fold: string -> string, s0: State, steps: seq<(Tid, Action)>, t: Tid, a: Action, f: string,
                answer: Answer, s': State)
    requires steps != [] && Took(fold, s0, steps, |steps| - 1, t) && steps[|steps| - 1] == (t, a)
    requires Run(fold, s0, steps[..|steps|]) == s'
    requires match answer
             case Failed(reason) => a in {DeduceFails(reason), CreateFails(reason)}
             case Gateway(_) => Leads(s', f, answer)
    ensures FromWork(fold, s0, steps, t, f, answer)
  {
    hide Run;
    hide Leads;
    var k := |steps| - 1;
    assert k + 1 == |steps|;
  }

  lemma NewAnswer(fold: string -> string, s0: State, steps: seq<(Tid, Action)>, t: Tid, a: Action, name: string,
                  answer: Answer, s': State)
    requires steps != [] && Took(fold, s0, steps, |steps| - 1, t) && steps[|steps| - 1] == (t, a)
    requires Run(fold, s0, steps[..|steps|]) == s'
    requires match answer
             case Failed(reason) => a == Cancel(reason)
             case Gateway(_) => Leads(s', name, answer)
    ensures OwnAnswer(fold, s0, steps, t, name, answer)
  {
    hide Run;
    hide Leads;
    hide FromWork;
    var k := |steps| - 1;
    assert k + 1 == |steps|;
  }

  /** Those that are told something are told it by the leader of their folded name. */
  lemma OtherInbox(fold: string -> string, s: State, leaders': map<string, Tid>, t: Tid, a: Action, u: Tid)
    requires Step(fold, s, t, a).Some? && Inv(fold, Step(fold, s, t, a).value, leaders') && u in s.threads
    ensures t in s.threads && u in Step(fold, s, t, a).value.threads
    ensures forall r <- Step(fold, s, t, a).value.threads[u].inbox | r !in s.threads[u].inbox ::
              && s.threads[t].pc == Replying(r.answer) && r.leader == t
              && fold(s.threads[t].name) == fold(s.threads[u].name)
  {
    OthersStay(fold, s, t, a, u);
    OthersStay(fold, s, t, a, t);
    InboxAfter(fold, s, t, a, u);
    var s' := Step(fold, s, t, a).value;
    assert FollowerOk(fold, s', u);
    hide Inv;
    hide Step;
    forall r <- s'.threads[u].inbox | r !in s.threads[u].inbox
      ensures fold(s.threads[t].name) == fold(s.threads[u].name)
    {
      assert r == s'.threads[u].inbox[0];
    }
  }

  /** So have the others, and those that are told something. */
  lemma OthersHaveCause(fold: string -> string, s0: State, steps: seq<(Tid, Action)>, leaders': map<string, Tid>,
                       t: Tid, a: Action, u: Tid)
    requires var s := Run(fold, s0, steps);
             && Step(fold, s, t, a).Some? && t in s.threads && u in s.threads && u != t
             && Inv(fold, Step(fold, s, t, a).value, leaders')
             && HasCause(fold, s0, steps, t, s.threads[t]) && HasCause(fold, s0, steps, u, s.threads[u])
    ensures var s' := Step(fold, Run(fold, s0, steps), t, a).value;
            u in s'.threads && HasCause(fold, s0, steps + [(t, a)], u, s'.threads[u])
  {
    hide Inv;
    hide Step;
    hide Run;
    hide FromWork;
    hide OwnAnswer;
    var s, more := Run(fold, s0, steps), steps + [(t, a)];
    OthersStay(fold, s, t, a, u);
    OtherInbox(fold, s, leaders', t, a, u);
    CauseStays(fold, s0, steps, (t, a), t, s.threads[t]);
    CauseStays(fold, s0, steps, (t, a), u, s.threads[u]);
  }

  lemma {:induction false} AnswersHaveCause(fold: string -> string, s0: State, steps: seq<(Tid, Action)>, u: Tid)
    requires Initial(s0)
    ensures var s := Run(fold, s0, steps); u in s.threads ==> HasCause(fold, s0, steps, u, s.threads[u])
  {
    hide Inv;
    hide Step;
    hide HasCause;
    if steps == [] {
      NothingAnswered(fold, s0, u);
    } else {
      var n := |steps| - 1;
      var before := Run(fold, s0, steps[..n]);
      var (t, a) := steps[n];
      assert steps == steps[..n] + [(t, a)];
      AnswersHaveCause(fold, s0, steps[..n], u);
      if Step(fold, before, t, a).Some? {
        AnswersHaveCause(fold, s0, steps[..n], t);
        var leaders := RunInv(fold, s0, steps[..n]);
        var leaders' := RunInv(fold, s0, steps);
        InboxAfterIn(fold, before, t, a, u);
        if u == t {
          MoverHasCause(fold, s0, steps[..n], leaders, leaders', t, a);
        } else if u in before.threads {
          OthersHaveCause(fold, s0, steps[..n], leaders', t, a, u);
        }
      } else if u in before.threads {
        CauseStays(fold, s0, steps[..n], (t, a), u, before.threads[u]);
      }
    }
  }

  lemma NothingAnswered(fold: string -> string, s0: State, u: Tid)
    requires Initial(s0)
    ensures u in s0.threads ==> HasCause(fold, s0, [], u, s0.threads[u])
  {
  }

  lemma InboxAfterIn(fold: string -> string, s: State, t: Tid, a: Action, u: Tid)
    requires Step(fold, s, t, a).Some?
    ensures t in s.threads && (u in Step(fold, s, t, a).value.threads <==> u in s.threads)
  {
    OthersStay(fold, s, t, a, u);
  }

  /** In every run: an error that is answered is the reason of a step that failed, the call's own or, for a
      call that was told, its leader's; a call may also have been cancelled for it. */
  lemma ErrorHasCause(fold: string -> string, s0: State, steps: seq<(Tid, Action)>, t: Tid, reason: string,
                      leader: Option<Tid>)
    requires Initial(s0)
    requires var s := Run(fold, s0, steps);
             t in s.threads && s.threads[t].pc == Returned(Failed(reason), leader)
    ensures match leader
            case Some(l) => WorkFailed(fold, s0, steps, l, reason)
            case None => WorkFailed(fold, s0, steps, t, reason) || Cancelled(fold, s0, steps, t, reason)
  {
    hide Run;
    hide WorkFailed;
    hide Cancelled;
    AnswersHaveCause(fold, s0, steps, t);
  }

  /** ... and a gateway is the one that the call's folded name led to after a step of the call itself, or of
      its leader; where a call answered at once, it may be its name that led there. */
  lemma GatewayWasRecorded(fold: string -> string, s0: State, steps: seq<(Tid, Action)>, t: Tid, gate: Answer,
                           leader: Option<Tid>)
    requires Initial(s0) && gate.Gateway?
    requires var s := Run(fold, s0, steps);
             t in s.threads && s.threads[t].pc == Returned(gate, leader)
    ensures var name := Run(fold, s0, steps).threads[t].name;
            match leader
            case Some(l) => Served(fold, s0, steps, l, fold(name), gate)
            case None => Served(fold, s0, steps, t, fold(name), gate) || Served(fold, s0, steps, t, name, gate)
  {
    hide Run;
    hide Served;
    AnswersHaveCause(fold, s0, steps, t);
  }
}
