/** Which URL the source coordinator (`gps/source.go`) has for a name, over whole runs: every recorded
    URL stems from one creation, each folded name is created once, and so it can be said exactly when a
    name recorded again gets the URL it has. */
module SourceNames {
  import opened Wrappers
  import opened SourceCoordinator

  // ---------------------------------------------------------------- the creations of a run

  /** The creation of a gateway for a name, from a source whose URL is as deduced. */
  datatype Creation = Creation(name: string, unfolded: string)

  /** The URL that a creation records. */
  function Url(fold: string -> string, e: Creation): string {
    if fold(e.name) != e.name then fold(e.unfolded) else e.unfolded
  }

  /** The names that a creation records. */
  function Names(fold: string -> string, e: Creation): set<string> {
    {fold(e.name), Url(fold, e)} + if fold(e.name) != e.name then {e.name, e.unfolded} else {}
  }

  lemma CreateRecords(fold: string -> string, s: State, t: Tid, unfolded: string, n: string)
    requires Step(fold, s, t, Create(unfolded)).Some?
    ensures var s', e := Step(fold, s, t, Create(unfolded)).value, Creation(s.threads[t].name, unfolded);
            && (n in s'.nameToURL <==> n in s.nameToURL || n in Names(fold, e))
            && (n in s'.nameToURL ==> s'.nameToURL[n] == if n in Names(fold, e) then Url(fold, e) else s.nameToURL[n])
  {
    hide Deliver;
  }

  ghost predicate Idempotent(fold: string -> string) {
    forall n :: fold(fold(n)) == fold(n)
  }

  // The creations of a run so far, one for each folded name.
  type Log = map<string, Creation>

  /** The log holds one creation for a folded name, under it, and what it recorded is recorded. */
  predicate LogOk(fold: string -> string, s: State, log: Log, g: string)
    requires g in log
  {
    fold(log[g].name) == g && forall n <- Names(fold, log[g]) :: n in s.nameToURL
  }

  /** The URL under a name comes from a creation that recorded the name, or its folded form. */
  predicate Stems(fold: string -> string, log: Log, n: string, url: string) {
    exists g <- log :: url == Url(fold, log[g]) && (n in Names(fold, log[g]) || fold(n) in Names(fold, log[g]))
  }

  /** The URL that an upgrade is about to record comes from a creation that recorded the folded name
      and not the name itself. */
  predicate UpgradeStems(fold: string -> string, log: Log, n: string, url: string) {
    && fold(n) != n
    && exists g <- log ::
         url == Url(fold, log[g]) && fold(n) in Names(fold, log[g]) && n !in Names(fold, log[g])
  }

  predicate ThreadLogged(fold: string -> string, log: Log, th: Thread) {
    && (th.pc.Creating? ==> fold(th.name) !in log)
    && (th.pc.Upgrading? ==> UpgradeStems(fold, log, th.name, th.pc.url))
  }

  predicate Logged(fold: string -> string, s: State, log: Log) {
    && (forall g <- log :: LogOk(fold, s, log, g))
    && (forall n <- s.nameToURL :: Stems(fold, log, n, s.nameToURL[n]))
    && (forall t <- s.threads :: ThreadLogged(fold, log, s.threads[t]))
  }

  ghost function NextLog(fold: string -> string, s: State, log: Log, t: Tid, a: Action): Log
    requires t in s.threads
  {
    if a.Create? then log[fold(s.threads[t].name) := Creation(s.threads[t].name, a.url)] else log
  }

  lemma StemsStay(fold: string -> string, log: Log, log': Log, n: string, url: string)
    requires forall g <- log :: g in log' && log'[g] == log[g]
    ensures Stems(fold, log, n, url) ==> Stems(fold, log', n, url)
    ensures UpgradeStems(fold, log, n, url) ==> UpgradeStems(fold, log', n, url)
  {
    hide Names;
    hide Url;
  }

  /** A creation, which only the one leader of a name is about to make, adds to the log. */
  lemma LogCreate(fold: string -> string, s: State, leaders: map<string, Tid>, log: Log, t: Tid, a: Action)
    requires Inv(fold, s, leaders) && Logged(fold, s, log) && a.Create? && Step(fold, s, t, a).Some?
    ensures Logged(fold, Step(fold, s, t, a).value, NextLog(fold, s, log, t, a))
  {
    assert t in s.threads;
    CreateMoves(fold, s, t, a);
    assert ThreadLogged(fold, log, s.threads[t]) && fold(s.threads[t].name) !in log;
    hide Step;
    hide Inv;
    hide Logged;
    hide LogOk;
    hide Stems;
    hide ThreadLogged;
    hide NextLog;
    var s', log' := Step(fold, s, t, a).value, NextLog(fold, s, log, t, a);
    forall g <- log' ensures LogOk(fold, s', log', g) { CreateLogged(fold, s, log, t, a, g); }
    forall n <- s'.nameToURL ensures Stems(fold, log', n, s'.nameToURL[n]) { CreateStems(fold, s, log, t, a, n); }
    forall u <- s'.threads ensures ThreadLogged(fold, log', s'.threads[u]) {
      CreateThreads(fold, s, leaders, log, t, a, u);
    }
    LoggedIs(fold, s', log');
  }

  lemma LoggedIs(fold: string -> string, s: State, log: Log)
    requires forall g <- log :: LogOk(fold, s, log, g)
    requires forall n <- s.nameToURL :: Stems(fold, log, n, s.nameToURL[n])
    requires forall t <- s.threads :: ThreadLogged(fold, log, s.threads[t])
    ensures Logged(fold, s, log)
  {
  }

  lemma CreateThreads(fold: string -> string, s: State, leaders: map<string, Tid>, log: Log, t: Tid, a: Action, u: Tid)
    requires Inv(fold, s, leaders) && Logged(fold, s, log) && a.Create? && Step(fold, s, t, a).Some?
    requires fold(s.threads[t].name) !in log && u in Step(fold, s, t, a).value.threads
    ensures ThreadLogged(fold, NextLog(fold, s, log, t, a), Step(fold, s, t, a).value.threads[u])
  {
    assert t in s.threads;
    hide Step;
    hide Inv;
    hide Logged;
    hide ThreadLogged;
    hide IsLeader;
    CreateMoves(fold, s, t, a);
    OthersStay(fold, s, t, a, u);
    LoggedThread(fold, s, log, u);
    if u == t {
      RepliesLogged(fold, NextLog(fold, s, log, t, a), Step(fold, s, t, a).value.threads[u]);
    } else {
      LogOther(fold, s, leaders, log, NextLog(fold, s, log, t, a), t, u);
    }
  }

  lemma RepliesLogged(fold: string -> string, log: Log, th: Thread)
    requires th.pc.Replying?
    ensures ThreadLogged(fold, log, th)
  {
  }

  lemma LoggedThread(fold: string -> string, s: State, log: Log, u: Tid)
    requires Logged(fold, s, log)
    ensures u in s.threads ==> ThreadLogged(fold, log, s.threads[u])
  {
    hide Stems;
    hide LogOk;
    hide ThreadLogged;
  }

  lemma CreateLogged(fold: string -> string, s: State, log: Log, t: Tid, a: Action, g: string)
    requires Logged(fold, s, log) && a.Create? && Step(fold, s, t, a).Some? && fold(s.threads[t].name) !in log
    requires g in NextLog(fold, s, log, t, a)
    ensures LogOk(fold, Step(fold, s, t, a).value, NextLog(fold, s, log, t, a), g)
  {
    assert t in s.threads;
    hide Step;
    hide Names;
    hide Url;
    hide Logged;
    var s', log' := Step(fold, s, t, a).value, NextLog(fold, s, log, t, a);
    if g in log {
      LoggedAt(fold, s, log, g);
      NamesStay(fold, s, t, a);
      assert log'[g] == log[g];
    } else {
      var e := Creation(s.threads[t].name, a.url);
      forall n | n in Names(fold, e) ensures n in s'.nameToURL { CreateRecords(fold, s, t, a.url, n); }
    }
  }

  lemma LoggedAt(fold: string -> string, s: State, log: Log, g: string)
    requires Logged(fold, s, log) && g in log
    ensures LogOk(fold, s, log, g)
  {
    hide Stems;
    hide ThreadLogged;
  }

  lemma CreateStems(fold: string -> string, s: State, log: Log, t: Tid, a: Action, n: string)
    requires Logged(fold, s, log) && a.Create? && Step(fold, s, t, a).Some? && fold(s.threads[t].name) !in log
    requires n in Step(fold, s, t, a).value.nameToURL
    ensures Stems(fold, NextLog(fold, s, log, t, a), n, Step(fold, s, t, a).value.nameToURL[n])
  {
    assert t in s.threads;
    hide Step;
    hide Names;
    hide Url;
    hide LogOk;
    hide ThreadLogged;
    var log', f, e := NextLog(fold, s, log, t, a), fold(s.threads[t].name), Creation(s.threads[t].name, a.url);
    CreateRecords(fold, s, t, a.url, n);
    if n in Names(fold, e) {
      assert f in log' && log'[f] == e;
    } else {
      assert Stems(fold, log, n, s.nameToURL[n]);
      StemsStay(fold, log, log', n, s.nameToURL[n]);
    }
  }

  lemma CreateMoves(fold: string -> string, s: State, t: Tid, a: Action)
    requires a.Create? && Step(fold, s, t, a).Some?
    ensures s.threads[t].pc.Creating? && t in Step(fold, s, t, a).value.threads
    ensures Step(fold, s, t, a).value.threads[t].pc.Replying?
  {
    hide Recorded;
    hide Deliver;
  }

  lemma LogOther(fold: string -> string, s: State, leaders: map<string, Tid>, log: Log, log': Log, t: Tid, u: Tid)
    requires Inv(fold, s, leaders) && t in s.threads && u in s.threads && u != t && s.threads[t].pc.Creating?
    requires ThreadLogged(fold, log, s.threads[u]) && forall g <- log :: g in log' && log'[g] == log[g]
    requires log'.Keys == log.Keys + {fold(s.threads[t].name)}
    ensures ThreadLogged(fold, log', s.threads[u])
  {
    hide FollowerOk;
    hide PcOk;
    hide UpgradeStems;
    assert LeadsRightly(fold, s, leaders, t) && LeadsRightly(fold, s, leaders, u);
    hide Inv;
    if s.threads[u].pc.Upgrading? { StemsStay(fold, log, log', s.threads[u].name, s.threads[u].pc.url); }
  }

  /** Every other step leaves the log as it is. */
  lemma LogStays(fold: string -> string, s: State, log: Log, t: Tid, a: Action)
    requires Idempotent(fold) && Logged(fold, s, log) && !a.Create? && Step(fold, s, t, a).Some?
    ensures Logged(fold, Step(fold, s, t, a).value, log)
  {
    hide Step;
    hide Logged;
    hide LogOk;
    hide Stems;
    hide ThreadLogged;
    hide Idempotent;
    var s' := Step(fold, s, t, a).value;
    forall g <- log ensures LogOk(fold, s', log, g) { LogOkStays(fold, s, log, t, a, g); }
    forall n <- s'.nameToURL ensures Stems(fold, log, n, s'.nameToURL[n]) { StemsAfter(fold, s, log, t, a, n); }
    forall u <- s'.threads ensures ThreadLogged(fold, log, s'.threads[u]) { ThreadAfter(fold, s, log, t, a, u); }
    LoggedIs(fold, s', log);
  }

  lemma LogOkStays(fold: string -> string, s: State, log: Log, t: Tid, a: Action, g: string)
    requires Logged(fold, s, log) && Step(fold, s, t, a).Some? && g in log
    ensures LogOk(fold, Step(fold, s, t, a).value, log, g)
  {
    hide Step;
    hide Logged;
    hide Names;
    LoggedAt(fold, s, log, g);
    NamesStay(fold, s, t, a);
  }

  lemma StemsAfter(fold: string -> string, s: State, log: Log, t: Tid, a: Action, n: string)
    requires Logged(fold, s, log) && !a.Create? && Step(fold, s, t, a).Some? && n in Step(fold, s, t, a).value.nameToURL
    ensures Stems(fold, log, n, Step(fold, s, t, a).value.nameToURL[n])
  {
    NamesEffect(fold, s, t, a);
    assert t in s.threads && ThreadLogged(fold, log, s.threads[t]);
    hide Step;
    hide Stems;
    hide UpgradeStems;
    hide LogOk;
    if a.Upgrade? && n == s.threads[t].name { UpgradeStemsToo(fold, log, n, s.threads[t].pc.url); }
  }

  lemma ThreadAfter(fold: string -> string, s: State, log: Log, t: Tid, a: Action, u: Tid)
    requires Idempotent(fold) && Logged(fold, s, log) && !a.Create? && Step(fold, s, t, a).Some?
    requires u in Step(fold, s, t, a).value.threads
    ensures ThreadLogged(fold, log, Step(fold, s, t, a).value.threads[u])
  {
    OthersStay(fold, s, t, a, u);
    assert u in s.threads && ThreadLogged(fold, log, s.threads[u]);
    hide Step;
    hide Logged;
    hide UpgradeStems;
    hide Idempotent;
    if u == t { MoverLogged(fold, s, log, t, a); }
  }

  lemma UpgradeStemsToo(fold: string -> string, log: Log, n: string, url: string)
    requires UpgradeStems(fold, log, n, url)
    ensures Stems(fold, log, n, url)
  {
    hide Names;
    hide Url;
  }

  /** How a thread comes to be about to create, or about to upgrade. */
  lemma MoverKind(fold: string -> string, s: State, t: Tid, a: Action)
    requires Step(fold, s, t, a).Some?
    ensures var s', n, f := Step(fold, s, t, a).value, s.threads[t].name, fold(s.threads[t].name);
            && t in s'.threads && s'.threads[t].name == n
            && (s'.threads[t].pc.Creating? ==> f !in s.nameToURL)
            && (s'.threads[t].pc.Upgrading? ==>
                  n !in s.nameToURL && f != n && f in s.nameToURL && s'.threads[t].pc.url == s.nameToURL[f])
  {
    OthersStay(fold, s, t, a, t);
    hide Recorded;
    hide Deliver;
  }

  lemma MoverLogged(fold: string -> string, s: State, log: Log, t: Tid, a: Action)
    requires Idempotent(fold) && Logged(fold, s, log) && Step(fold, s, t, a).Some?
    ensures t in Step(fold, s, t, a).value.threads && ThreadLogged(fold, log, Step(fold, s, t, a).value.threads[t])
  {
    assert t in s.threads;
    hide Step;
    hide Logged;
    hide UpgradeStems;
    MoverKind(fold, s, t, a);
    var n, pc := s.threads[t].name, Step(fold, s, t, a).value.threads[t].pc;
    if pc.Upgrading? { FoundByFold(fold, s, log, n); }
    if fold(n) in log { LoggedIsRecorded(fold, s, log, fold(n)); }
  }

  lemma FoundByFold(fold: string -> string, s: State, log: Log, n: string)
    requires Idempotent(fold) && Logged(fold, s, log) && n !in s.nameToURL && fold(n) != n && fold(n) in s.nameToURL
    ensures UpgradeStems(fold, log, n, s.nameToURL[fold(n)])
  {
    hide Names;
    hide Url;
    assert Stems(fold, log, fold(n), s.nameToURL[fold(n)]);
    assert fold(fold(n)) == fold(n);
    var g :| g in log && s.nameToURL[fold(n)] == Url(fold, log[g]) && fold(n) in Names(fold, log[g]);
    assert LogOk(fold, s, log, g);
  }

  lemma LoggedIsRecorded(fold: string -> string, s: State, log: Log, f: string)
    requires Logged(fold, s, log) && f in log
    ensures f in s.nameToURL
  {
    assert LogOk(fold, s, log, f);
    assert f in Names(fold, log[f]);
    hide Stems;
    hide ThreadLogged;
  }

  ghost predicate CalledWithin(s: State, names: iset<string>) {
    forall t <- s.threads :: s.threads[t].name in names
  }

  /** What a name is deduced to is one of the things it may be deduced to. */
  ghost predicate CreatesWithin(s: State, steps: seq<(Tid, Action)>, may: iset<Creation>) {
    forall n | 0 <= n < |steps| && steps[n].1.Create? && steps[n].0 in s.threads ::
      Creation(s.threads[steps[n].0].name, steps[n].1.url) in may
  }

  /** A creation that calls for these names may lead to. */
  ghost predicate MadeOf(e: Creation, names: iset<string>, may: iset<Creation>) {
    e.name in names && e in may
  }

  ghost predicate LogWithin(log: Log, names: iset<string>, may: iset<Creation>) {
    forall g <- log :: MadeOf(log[g], names, may)
  }

  /** What a run keeps: the protocol's invariant, and a log that explains every recorded URL. */
  ghost predicate Explains(fold: string -> string, s: State, leaders: map<string, Tid>, log: Log,
                           names: iset<string>, may: iset<Creation>)
  {
    Inv(fold, s, leaders) && Logged(fold, s, log) && LogWithin(log, names, may) && CalledWithin(s, names)
  }

  lemma ExplainsStep(fold: string -> string, s: State, leaders: map<string, Tid>, log: Log,
                     names: iset<string>, may: iset<Creation>, t: Tid, a: Action)
    requires Idempotent(fold) && Explains(fold, s, leaders, log, names, may) && Step(fold, s, t, a).Some?
    requires a.Create? && t in s.threads ==> Creation(s.threads[t].name, a.url) in may
    ensures t in s.threads
    ensures Explains(fold, Step(fold, s, t, a).value, NextLeaders(fold, s, leaders, t, a), NextLog(fold, s, log, t, a),
                     names, may)
  {
    assert t in s.threads;
    hide Step;
    hide Inv;
    hide Logged;
    hide LogWithin;
    hide CalledWithin;
    hide NextLog;
    hide NextLeaders;
    LoggedStep(fold, s, leaders, log, t, a);
    StepInv(fold, s, leaders, t, a);
    CalledStay(fold, s, names, t, a);
    WithinStep(fold, s, log, names, may, t, a);
  }

  lemma LoggedStep(fold: string -> string, s: State, leaders: map<string, Tid>, log: Log, t: Tid, a: Action)
    requires Idempotent(fold) && Inv(fold, s, leaders) && Logged(fold, s, log) && Step(fold, s, t, a).Some?
    ensures t in s.threads && Logged(fold, Step(fold, s, t, a).value, NextLog(fold, s, log, t, a))
  {
    if a.Create? { LogCreate(fold, s, leaders, log, t, a); } else { LogStays(fold, s, log, t, a); }
    hide Logged;
    hide Inv;
    hide Step;
  }

  lemma CalledStay(fold: string -> string, s: State, names: iset<string>, t: Tid, a: Action)
    requires CalledWithin(s, names) && Step(fold, s, t, a).Some?
    ensures CalledWithin(Step(fold, s, t, a).value, names)
  {
    OthersStay(fold, s, t, a, t);
    forall u <- Step(fold, s, t, a).value.threads ensures Step(fold, s, t, a).value.threads[u].name in names {
      OthersStay(fold, s, t, a, u);
    }
    hide Step;
  }

  lemma WithinStep(fold: string -> string, s: State, log: Log, names: iset<string>, may: iset<Creation>, t: Tid,
                   a: Action)
    requires LogWithin(log, names, may) && CalledWithin(s, names) && t in s.threads
    requires a.Create? ==> Creation(s.threads[t].name, a.url) in may
    ensures LogWithin(NextLog(fold, s, log, t, a), names, may)
  {
  }

  lemma NothingToExplain(fold: string -> string, s: State, names: iset<string>, may: iset<Creation>)
    requires Initial(s) && CalledWithin(s, names)
    ensures Explains(fold, s, map[], map[], names, may)
  {
    InitialInv(fold, s);
    hide Inv;
  }

  /** Threads keep the names they are called for. */
  lemma {:induction false} RunNames(fold: string -> string, s: State, steps: seq<(Tid, Action)>, t: Tid)
    ensures var s' := Run(fold, s, steps);
            (t in s'.threads <==> t in s.threads) && (t in s.threads ==> s'.threads[t].name == s.threads[t].name)
  {
    if steps == [] {
    } else {
      var n := |steps| - 1;
      RunNames(fold, s, steps[..n], t);
      var before := Run(fold, s, steps[..n]);
      if Step(fold, before, steps[n].0, steps[n].1).Some? { OthersStay(fold, before, steps[n].0, steps[n].1, t); }
      hide Step;
    }
  }

  lemma {:induction false} RunExplained(fold: string -> string, s: State, steps: seq<(Tid, Action)>,
                                        names: iset<string>, may: iset<Creation>)
      returns (leaders: map<string, Tid>, log: Log)
    requires Idempotent(fold) && Initial(s) && CalledWithin(s, names) && CreatesWithin(s, steps, may)
    ensures Explains(fold, Run(fold, s, steps), leaders, log, names, may)
  {
    hide Step;
    hide Explains;
    hide NextLeaders;
    hide NextLog;
    hide Idempotent;
    if steps == [] {
      NothingToExplain(fold, s, names, may);
      leaders, log := map[], map[];
    } else {
      var n := |steps| - 1;
      var before := Run(fold, s, steps[..n]);
      leaders, log := RunExplained(fold, s, steps[..n], names, may);
      var (t, a) := steps[n];
      if Step(fold, before, t, a).Some? {
        RunNames(fold, s, steps[..n], t);
        ExplainsStep(fold, before, leaders, log, names, may, t, a);
        leaders, log := NextLeaders(fold, before, leaders, t, a), NextLog(fold, before, log, t, a);
      }
    }
  }

  // ---------------------------------------------------------------- when an upgrade records the same URL

  /** What the comment at the upgrade says: if somebody has recorded the name in between, then with the
      URL that this thread is about to record. */
  predicate UpgradeAgrees(s: State, t: Tid) {
    t in s.threads && s.threads[t].pc.Upgrading? && s.threads[t].name in s.nameToURL ==>
      s.nameToURL[s.threads[t].name] == s.threads[t].pc.url
  }

  /** Creations for two names that differ by more than case get in the way of a call for n: one
      records n's folded form and not n, the other either of them, under another URL. */
  predicate Clashes(fold: string -> string, n: string, e: Creation, e': Creation) {
    && fold(n) != n && fold(e.name) != fold(e'.name) && Url(fold, e) != Url(fold, e')
    && fold(n) in Names(fold, e) && n !in Names(fold, e)
    && (n in Names(fold, e') || fold(n) in Names(fold, e'))
  }

  ghost predicate Clash(fold: string -> string, names: iset<string>, may: iset<Creation>) {
    exists n, e, e' :: n in names && MadeOf(e, names, may) && MadeOf(e', names, may) && Clashes(fold, n, e, e')
  }

  lemma AgreesUnlessClash(fold: string -> string, names: iset<string>, may: iset<Creation>,
                          s0: State, steps: seq<(Tid, Action)>, t: Tid)
    requires Idempotent(fold) && Initial(s0) && CalledWithin(s0, names) && CreatesWithin(s0, steps, may)
    requires !Clash(fold, names, may)
    ensures UpgradeAgrees(Run(fold, s0, steps), t)
  {
    hide Idempotent;
    hide Initial;
    hide CreatesWithin;
    hide Logged;
    hide Inv;
    hide Run;
    var s := Run(fold, s0, steps);
    var leaders, log := RunExplained(fold, s0, steps, names, may);
    if t in s.threads && s.threads[t].pc.Upgrading? && s.threads[t].name in s.nameToURL {
      LoggedAgrees(fold, s, log, names, may, t);
    }
  }

  lemma LoggedAgrees(fold: string -> string, s: State, log: Log, names: iset<string>, may: iset<Creation>, t: Tid)
    requires Logged(fold, s, log) && LogWithin(log, names, may) && !Clash(fold, names, may)
    requires t in s.threads && s.threads[t].pc.Upgrading? && s.threads[t].name in s.nameToURL
    requires s.threads[t].name in names
    ensures s.nameToURL[s.threads[t].name] == s.threads[t].pc.url
  {
    hide Logged;
    hide Names;
    hide Url;
    hide LogOk;
    var n := s.threads[t].name;
    var g := UpgradeFrom(fold, s, log, t);
    var h := NameFrom(fold, s, log, n);
    NoClash(fold, names, may, n, log[g], log[h]);
  }

  lemma NoClash(fold: string -> string, names: iset<string>, may: iset<Creation>, n: string, e: Creation, e': Creation)
    requires !Clash(fold, names, may) && n in names && MadeOf(e, names, may) && MadeOf(e', names, may)
    ensures !Clashes(fold, n, e, e')
  {
  }

  lemma UpgradeFrom(fold: string -> string, s: State, log: Log, t: Tid) returns (g: string)
    requires Logged(fold, s, log) && t in s.threads && s.threads[t].pc.Upgrading?
    ensures var n := s.threads[t].name;
            && g in log && fold(log[g].name) == g && fold(n) != n && s.threads[t].pc.url == Url(fold, log[g])
            && fold(n) in Names(fold, log[g]) && n !in Names(fold, log[g])
  {
    hide Names;
    hide Url;
    hide Stems;
    assert ThreadLogged(fold, log, s.threads[t]);
    var n, url := s.threads[t].name, s.threads[t].pc.url;
    g :| g in log && url == Url(fold, log[g]) && fold(n) in Names(fold, log[g]) && n !in Names(fold, log[g]);
    LoggedAt(fold, s, log, g);
    hide Logged;
  }

  lemma NameFrom(fold: string -> string, s: State, log: Log, n: string) returns (g: string)
    requires Logged(fold, s, log) && n in s.nameToURL
    ensures g in log && fold(log[g].name) == g && s.nameToURL[n] == Url(fold, log[g])
    ensures n in Names(fold, log[g]) || fold(n) in Names(fold, log[g])
  {
    hide Names;
    hide Url;
    hide ThreadLogged;
    assert Stems(fold, log, n, s.nameToURL[n]);
    g :| g in log && s.nameToURL[n] == Url(fold, log[g])
        && (n in Names(fold, log[g]) || fold(n) in Names(fold, log[g]));
    LoggedAt(fold, s, log, g);
    hide Logged;
  }

  lemma RunThen(fold: string -> string, s: State, steps: seq<(Tid, Action)>, t: Tid, a: Action)
    ensures var before := Run(fold, s, steps);
            Run(fold, s, steps + [(t, a)]) ==
            match Step(fold, before, t, a) case None => before case Some(after) => after
  {
    assert (steps + [(t, a)])[..|steps|] == steps;
  }

  /** Calls for the names of two creations, and two calls for a third name. */
  function FourCalls(e: Creation, e': Creation, n: string): State {
    State(map[], map[], map[],
          map[1 := Thread(e.name, Calling, []), 2 := Thread(e'.name, Calling, []),
              3 := Thread(n, Calling, []), 4 := Thread(n, Calling, [])],
          0)
  }

  /** The first two calls are about to create a gateway. */
  function BothCreating(fold: string -> string, e: Creation, e': Creation, n: string): State {
    State(map[], map[], map[fold(e'.name) := [], fold(e.name) := []],
          map[1 := Thread(e.name, Creating, []), 2 := Thread(e'.name, Creating, []),
              3 := Thread(n, Calling, []), 4 := Thread(n, Calling, [])],
          0)
  }

  /** A call that leads gets to where it is about to create a gateway. */
  lemma LeadsToCreating(fold: string -> string, s0: State, steps: seq<(Tid, Action)>, t: Tid)
      returns (more: seq<(Tid, Action)>)
    requires var s := Run(fold, s0, steps);
             && t in s.threads && s.threads[t].pc.Calling? && s.nameToURL == map[]
             && fold(s.threads[t].name) !in s.protoSrcs
    requires forall n | 0 <= n < |steps| :: !steps[n].1.Create?
    ensures var s, s' := Run(fold, s0, steps), Run(fold, s0, more);
            && t in s.threads && s' == s.(protoSrcs := s.protoSrcs[fold(s.threads[t].name) := []],
                                          threads := s.threads[t := s.threads[t].(pc := Creating)])
    ensures forall n | 0 <= n < |more| :: !more[n].1.Create?
  {
    RunThen(fold, s0, steps, t, Lookup);
    RunThen(fold, s0, steps + [(t, Lookup)], t, Enter);
    RunThen(fold, s0, steps + [(t, Lookup)] + [(t, Enter)], t, DeduceSucceeds);
    RunThen(fold, s0, steps + [(t, Lookup)] + [(t, Enter)] + [(t, DeduceSucceeds)], t, Recheck);
    more := steps + [(t, Lookup)] + [(t, Enter)] + [(t, DeduceSucceeds)] + [(t, Recheck)];
    hide Run;
    hide Recorded;
    hide Deliver;
  }

  lemma ReachesBothCreating(fold: string -> string, e: Creation, e': Creation, n: string)
      returns (steps: seq<(Tid, Action)>)
    requires fold(e.name) != fold(e'.name)
    ensures Initial(FourCalls(e, e', n)) && Run(fold, FourCalls(e, e', n), steps) == BothCreating(fold, e, e', n)
    ensures forall k | 0 <= k < |steps| :: !steps[k].1.Create?
  {
    hide Run;
    var s0 := FourCalls(e, e', n);
    RunNothing(fold, s0);
    steps := LeadsToCreating(fold, s0, [], 2);
    var s1 := s0.(protoSrcs := s0.protoSrcs[fold(e'.name) := []],
                  threads := s0.threads[2 := Thread(e'.name, Creating, [])]);
    assert Run(fold, s0, steps) == s1;
    steps := LeadsToCreating(fold, s0, steps, 1);
    var s2 := s1.(protoSrcs := s1.protoSrcs[fold(e.name) := []],
                  threads := s1.threads[1 := Thread(e.name, Creating, [])]);
    assert Run(fold, s0, steps) == s2;
    OrderIsNone(fold, e, e', n, s2);
  }

  lemma RunNothing(fold: string -> string, s: State)
    ensures Run(fold, s, []) == s
  {
  }

  lemma OrderIsNone(fold: string -> string, e: Creation, e': Creation, n: string, s: State)
    requires var s0 := FourCalls(e, e', n);
             && s.srcs == map[] && s.nameToURL == map[] && s.created == 0
             && s.protoSrcs == map[fold(e'.name) := []][fold(e.name) := []]
             && s.threads == s0.threads[2 := Thread(e'.name, Creating, [])][1 := Thread(e.name, Creating, [])]
    ensures s == BothCreating(fold, e, e', n)
  {
    assert s.threads == BothCreating(fold, e, e', n).threads;
    assert s.protoSrcs == BothCreating(fold, e, e', n).protoSrcs;
  }

  /** The state before the last upgrade: the third call is about to record the URL of the first
      creation, and the name or its folded form has that of the second. */
  predicate Disagreeing(fold: string -> string, s: State, e: Creation, e': Creation, n: string) {
    && 3 in s.threads && s.threads[3].name == n && s.threads[3].pc.Upgrading? && s.threads[3].pc.url == Url(fold, e)
    && 4 in s.threads && s.threads[4].name == n && s.threads[4].pc.Calling?
    && NamesLead(s)
    && (if n in Names(fold, e') then n in s.nameToURL && s.nameToURL[n] == Url(fold, e')
        else n !in s.nameToURL && fold(n) in s.nameToURL && s.nameToURL[fold(n)] == Url(fold, e'))
  }

  /** The first creation, the look of the third call, and the second creation. */
  lemma FirstCreation(fold: string -> string, e: Creation, e': Creation, n: string)
    requires Clashes(fold, n, e, e')
    ensures var s0 := BothCreating(fold, e, e', n);
            var s1 := Step(fold, s0, 1, Create(e.unfolded));
            && s1.Some? && NamesLead(s1.value) && GatewaysFresh(s1.value)
            && (forall k :: k in s1.value.nameToURL <==> k in Names(fold, e))
            && s1.value.nameToURL[fold(n)] == Url(fold, e)
            && s1.value.threads == s0.threads[1 := s1.value.threads[1]]
  {
    var s0 := BothCreating(fold, e, e', n);
    var s1 := Step(fold, s0, 1, Create(e.unfolded)).value;
    NamesStep(fold, s0, 1, Create(e.unfolded));
    forall k ensures k in s1.nameToURL <==> k in Names(fold, e) { CreateRecords(fold, s0, 1, e.unfolded, k); }
    CreateRecords(fold, s0, 1, e.unfolded, fold(n));
    hide Recorded;
    hide Deliver;
  }

  /** A call that finds only the folded form of its name is about to upgrade. */
  lemma FindsFolded(fold: string -> string, s: State, t: Tid)
    requires NamesLead(s) && t in s.threads && s.threads[t].pc.Calling?
    requires s.threads[t].name !in s.nameToURL && fold(s.threads[t].name) in s.nameToURL
    requires fold(s.threads[t].name) != s.threads[t].name
    ensures var url := s.nameToURL[fold(s.threads[t].name)];
            && url in s.srcs
            && Step(fold, s, t, Lookup) == Some(Goto(s, t, Upgrading(url, s.srcs[url])))
  {
    hide Recorded;
    hide Deliver;
  }

  lemma SecondCreation(fold: string -> string, s: State, e: Creation, e': Creation, n: string)
    requires Clashes(fold, n, e, e') && NamesLead(s) && GatewaysFresh(s)
    requires 2 in s.threads && s.threads[2] == Thread(e'.name, Creating, [])
    requires 3 in s.threads && s.threads[3].name == n && s.threads[3].pc.Upgrading?
             && s.threads[3].pc.url == Url(fold, e)
    requires 4 in s.threads && s.threads[4] == Thread(n, Calling, []) && n !in s.nameToURL
    ensures var s' := Step(fold, s, 2, Create(e'.unfolded)); s'.Some? && Disagreeing(fold, s'.value, e, e', n)
  {
    hide Names;
    hide Url;
    CreateApplies(fold, s, 2, e'.unfolded);
    NamesStep(fold, s, 2, Create(e'.unfolded));
    CreateRecords(fold, s, 2, e'.unfolded, n);
    CreateRecords(fold, s, 2, e'.unfolded, fold(n));
    OthersStay(fold, s, 2, Create(e'.unfolded), 3);
    OthersStay(fold, s, 2, Create(e'.unfolded), 4);
    hide Step;
  }

  lemma CreateApplies(fold: string -> string, s: State, t: Tid, unfolded: string)
    requires t in s.threads && s.threads[t].pc.Creating?
    ensures Step(fold, s, t, Create(unfolded)).Some?
  {
  }

  /** If the name is not recorded yet, the fourth call records it with the second creation's URL. */
  lemma FourthUpgrades(fold: string -> string, s: State, e: Creation, e': Creation, n: string)
    requires Clashes(fold, n, e, e') && Disagreeing(fold, s, e, e', n) && n !in s.nameToURL
    ensures var s1 := Step(fold, s, 4, Lookup);
            && s1.Some? && var s2 := Step(fold, s1.value, 4, Upgrade);
            && s2.Some? && 3 in s2.value.threads && s2.value.threads[3] == s.threads[3]
            && n in s2.value.nameToURL && s2.value.nameToURL[n] == Url(fold, e')
  {
    FindsFolded(fold, s, 4);
    var s1 := Step(fold, s, 4, Lookup).value;
    assert s1.threads[4].pc.Upgrading? && s1.threads[4].pc.url == Url(fold, e');
    assert s1.threads[3] == s.threads[3] && s1.threads[4].name == n;
    hide Recorded;
    hide Deliver;
    hide Names;
    hide Url;
  }

  /** Wherever creations clash, there is a run of four calls in which an upgrade is about to replace
      the URL that somebody else has recorded. */
  lemma ClashDisagrees(fold: string -> string, n: string, e: Creation, e': Creation)
      returns (steps: seq<(Tid, Action)>)
    requires Clashes(fold, n, e, e')
    ensures Initial(FourCalls(e, e', n))
    ensures CreatesWithin(FourCalls(e, e', n), steps, iset{e, e'})
    ensures var s := Run(fold, FourCalls(e, e', n), steps);
            && 3 in s.threads && s.threads[3].name == n && s.threads[3].pc.Upgrading?
            && s.threads[3].pc.url == Url(fold, e) && n in s.nameToURL && s.nameToURL[n] == Url(fold, e')
  {
    steps := ReachesDisagreeing(fold, n, e, e');
    hide Run;
    hide Step;
    hide Names;
    hide Url;
    hide Clashes;
    var s0, s := FourCalls(e, e', n), Run(fold, FourCalls(e, e', n), steps);
    if n !in s.nameToURL {
      FourthUpgrades(fold, s, e, e', n);
      RunThen(fold, s0, steps, 4, Lookup);
      steps := steps + [(4, Lookup)];
      RunThen(fold, s0, steps, 4, Upgrade);
      steps := steps + [(4, Upgrade)];
    }
  }

  lemma ReachesDisagreeing(fold: string -> string, n: string, e: Creation, e': Creation)
      returns (steps: seq<(Tid, Action)>)
    requires Clashes(fold, n, e, e')
    ensures Initial(FourCalls(e, e', n))
    ensures CreatesWithin(FourCalls(e, e', n), steps, iset{e, e'})
    ensures Disagreeing(fold, Run(fold, FourCalls(e, e', n), steps), e, e', n)
  {
    hide Run;
    hide Step;
    hide Names;
    hide Url;
    hide Disagreeing;
    var s0 := FourCalls(e, e', n);
    steps := ReachesBothCreating(fold, e, e', n);
    FirstCreation(fold, e, e', n);
    RunThen(fold, s0, steps, 1, Create(e.unfolded));
    steps := steps + [(1, Create(e.unfolded))];
    FindsFolded(fold, Run(fold, s0, steps), 3);
    RunThen(fold, s0, steps, 3, Lookup);
    steps := steps + [(3, Lookup)];
    SecondCreation(fold, Run(fold, s0, steps), e, e', n);
    RunThen(fold, s0, steps, 2, Create(e'.unfolded));
    steps := steps + [(2, Create(e'.unfolded))];
  }

  /** The claim at the upgrade, for every set of names that may be called and every relation between
      names and the URLs they may be deduced to: it holds in all runs exactly when no two creations
      that calls for those names may lead to clash. */
  lemma UpgradesAgreeExactly(fold: string -> string, names: iset<string>, may: iset<Creation>)
    requires Idempotent(fold)
    ensures (forall s0, steps, t | Initial(s0) && CalledWithin(s0, names) && CreatesWithin(s0, steps, may) ::
               UpgradeAgrees(Run(fold, s0, steps), t))
            <==> !Clash(fold, names, may)
  {
    hide Run;
    hide Initial;
    if Clash(fold, names, may) {
      var n, e, e' :| n in names && MadeOf(e, names, may) && MadeOf(e', names, may) && Clashes(fold, n, e, e');
      hide Clashes;
      var steps := ClashDisagrees(fold, n, e, e');
      assert CalledWithin(FourCalls(e, e', n), names) && CreatesWithin(FourCalls(e, e', n), steps, may);
      assert Clashes(fold, n, e, e') ==> Url(fold, e) != Url(fold, e') by { UrlsDiffer(fold, n, e, e'); }
      assert !UpgradeAgrees(Run(fold, FourCalls(e, e', n), steps), 3);
    } else {
      forall s0, steps, t | Initial(s0) && CalledWithin(s0, names) && CreatesWithin(s0, steps, may)
        ensures UpgradeAgrees(Run(fold, s0, steps), t)
      {
        AgreesUnlessClash(fold, names, may, s0, steps, t);
      }
    }
  }

  lemma UrlsDiffer(fold: string -> string, n: string, e: Creation, e': Creation)
    ensures Clashes(fold, n, e, e') ==> Url(fold, e) != Url(fold, e')
  {
  }

  function FoldY(name: string): string {
    if name == "Y" then "y" else name
  }

  /** Such a clash: the source of one call has the name of another as its URL. The upgrade of the third
      call replaces the second creation's URL by the first one's. */
  lemma UpgradeCanReroute() returns (steps: seq<(Tid, Action)>)
    ensures Idempotent(FoldY)
    ensures var e, e' := Creation("x", "y"), Creation("y", "z");
            var s := Run(FoldY, FourCalls(e, e', "Y"), steps);
            var s' := Step(FoldY, s, 3, Upgrade);
            && Initial(FourCalls(e, e', "Y")) && "Y" in s.nameToURL && s.nameToURL["Y"] == "z"
            && s'.Some? && "Y" in s'.value.nameToURL && s'.value.nameToURL["Y"] == "y"
  {
    var e, e' := Creation("x", "y"), Creation("y", "z");
    assert "y" != "z" && FoldY("Y") == "y";
    assert Clashes(FoldY, "Y", e, e');
    steps := ClashDisagrees(FoldY, "Y", e, e');
    hide Run;
    UpgradeApplies(FoldY, Run(FoldY, FourCalls(e, e', "Y"), steps), 3);
  }

  lemma UpgradeApplies(fold: string -> string, s: State, t: Tid)
    requires t in s.threads && s.threads[t].pc.Upgrading?
    ensures var n, s' := s.threads[t].name, Step(fold, s, t, Upgrade);
            s'.Some? && n in s'.value.nameToURL && s'.value.nameToURL[n] == s.threads[t].pc.url
  {
  }

  // ---------------------------------------------------------------- when names keep their URLs

  /** No URL that a name may be deduced to is, up to case, another name that may be called. */
  ghost predicate Apart(fold: string -> string, names: iset<string>, may: iset<Creation>) {
    forall n, e | n in names && MadeOf(e, names, may) && fold(e.unfolded) == fold(n) :: fold(e.name) == fold(n)
  }

  /** A creation then records just its own name among those that may be called. */
  lemma ApartRecords(fold: string -> string, names: iset<string>, may: iset<Creation>, e: Creation, n: string)
    requires Idempotent(fold) && Apart(fold, names, may) && MadeOf(e, names, may) && n in names
    ensures n in Names(fold, e) || fold(n) in Names(fold, e) ==> fold(n) == fold(e.name)
  {
    assert fold(fold(n)) == fold(n) && fold(fold(e.name)) == fold(e.name);
  }

  lemma ApartIsClear(fold: string -> string, names: iset<string>, may: iset<Creation>)
    requires Idempotent(fold) && Apart(fold, names, may)
    ensures !Clash(fold, names, may)
  {
    forall n, e, e' | n in names && MadeOf(e, names, may) && MadeOf(e', names, may) ensures !Clashes(fold, n, e, e') {
      ApartRecords(fold, names, may, e, n);
      ApartRecords(fold, names, may, e', n);
    }
    hide Names;
    hide Url;
  }

  /** Of a name that may be called, and of its folded form, the log tells the URL. */
  lemma ApartExplains(fold: string -> string, s: State, log: Log, names: iset<string>, may: iset<Creation>, n: string)
    requires Idempotent(fold) && Apart(fold, names, may) && Logged(fold, s, log) && LogWithin(log, names, may)
             && n in names
    ensures forall k | k in {n, fold(n)} && k in s.nameToURL ::
              fold(n) in log && fold(n) in s.nameToURL && s.nameToURL[k] == Url(fold, log[fold(n)])
  {
    hide Names;
    hide Url;
    hide Logged;
    hide Apart;
    forall k | k in {n, fold(n)} && k in s.nameToURL
      ensures fold(n) in log && fold(n) in s.nameToURL && s.nameToURL[k] == Url(fold, log[fold(n)])
    {
      var g := NameFrom(fold, s, log, k);
      assert fold(k) == fold(n);
      assert MadeOf(log[g], names, may);
      ApartRecords(fold, names, may, log[g], n);
      LoggedIsRecorded(fold, s, log, g);
    }
  }

  /** Name n and its folded form, if recorded, have one URL, and keep it from s on to s'. */
  predicate KeepsURL(fold: string -> string, s: State, s': State, n: string) {
    && (n in s.nameToURL ==> fold(n) in s.nameToURL && s.nameToURL[n] == s.nameToURL[fold(n)])
    && (forall k | k in {n, fold(n)} && k in s.nameToURL :: k in s'.nameToURL && s'.nameToURL[k] == s.nameToURL[k])
  }

  lemma KeepsOneStep(fold: string -> string, s: State, leaders: map<string, Tid>, log: Log,
                     names: iset<string>, may: iset<Creation>, t: Tid, a: Action, n: string)
    requires Idempotent(fold) && Apart(fold, names, may) && n in names
    requires Explains(fold, s, leaders, log, names, may) && Step(fold, s, t, a).Some?
    requires a.Create? && t in s.threads ==> Creation(s.threads[t].name, a.url) in may
    ensures KeepsURL(fold, s, Step(fold, s, t, a).value, n)
  {
    hide Apart;
    hide Inv;
    hide Logged;
    hide Step;
    ExplainsStep(fold, s, leaders, log, names, may, t, a);
    var s', log' := Step(fold, s, t, a).value, NextLog(fold, s, log, t, a);
    NamesStay(fold, s, t, a);
    ApartExplains(fold, s, log, names, may, n);
    ApartExplains(fold, s', log', names, may, n);
    LogKeeps(fold, s, log, t, a);
    hide Explains;
    hide NextLog;
  }

  lemma LogKeeps(fold: string -> string, s: State, log: Log, t: Tid, a: Action)
    requires Logged(fold, s, log) && Step(fold, s, t, a).Some?
    ensures forall g <- log :: g in NextLog(fold, s, log, t, a) && NextLog(fold, s, log, t, a)[g] == log[g]
  {
    if a.Create? {
      CreateMoves(fold, s, t, a);
      assert ThreadLogged(fold, log, s.threads[t]);
    }
    hide Step;
    hide Stems;
    hide LogOk;
  }

  /** Where called names and URLs are apart, in every run: a called name that is recorded has the URL of
      its folded form, and both keep it; whoever is about to create a gateway finds the folded name
      unrecorded; and every upgrade records the URL that is there, if one is. */
  lemma {:induction false} NamesKeepTheirURL(fold: string -> string, names: iset<string>, may: iset<Creation>,
                                             s0: State, steps: seq<(Tid, Action)>, m: nat, n: string, t: Tid)
    requires Idempotent(fold) && Apart(fold, names, may) && n in names && m <= |steps|
    requires Initial(s0) && CalledWithin(s0, names) && CreatesWithin(s0, steps, may)
    ensures KeepsURL(fold, Run(fold, s0, steps[..m]), Run(fold, s0, steps), n)
    ensures var s := Run(fold, s0, steps);
            t in s.threads && s.threads[t].pc.Creating? ==> fold(s.threads[t].name) !in s.nameToURL
    ensures UpgradeAgrees(Run(fold, s0, steps), t)
  {
    hide Apart;
    hide Idempotent;
    hide Initial;
    hide CalledWithin;
    hide Step;
    ApartIsClear(fold, names, may);
    AgreesUnlessClash(fold, names, may, s0, steps, t);
    hide Clash;
    CreatorsFindNothing(fold, names, may, s0, steps, t);
    if m == |steps| {
      assert steps[..m] == steps;
      var leaders, log := RunExplained(fold, s0, steps, names, may);
      ApartExplains(fold, Run(fold, s0, steps), log, names, may, n);
      hide Logged;
      hide Inv;
      hide Run;
    } else {
      var k := |steps| - 1;
      assert steps[..k][..m] == steps[..m];
      NamesKeepTheirURL(fold, names, may, s0, steps[..k], m, n, t);
      var before := Run(fold, s0, steps[..k]);
      var leaders, log := RunExplained(fold, s0, steps[..k], names, may);
      hide Explains;
      if Step(fold, before, steps[k].0, steps[k].1).Some? {
        RunNames(fold, s0, steps[..k], steps[k].0);
        KeepsOneStep(fold, before, leaders, log, names, may, steps[k].0, steps[k].1, n);
      }
      hide Logged;
      hide Inv;
      hide LogWithin;
      hide Run;
    }
  }

  lemma CreatorsFindNothing(fold: string -> string, names: iset<string>, may: iset<Creation>,
                            s0: State, steps: seq<(Tid, Action)>, t: Tid)
    requires Idempotent(fold) && Apart(fold, names, may)
    requires Initial(s0) && CalledWithin(s0, names) && CreatesWithin(s0, steps, may)
    ensures var s := Run(fold, s0, steps);
            t in s.threads && s.threads[t].pc.Creating? ==> fold(s.threads[t].name) !in s.nameToURL
  {
    hide Apart;
    hide Idempotent;
    hide Run;
    hide Initial;
    hide CreatesWithin;
    hide Inv;
    var s := Run(fold, s0, steps);
    var leaders, log := RunExplained(fold, s0, steps, names, may);
    if t in s.threads && s.threads[t].pc.Creating? {
      ApartExplains(fold, s, log, names, may, s.threads[t].name);
      assert ThreadLogged(fold, log, s.threads[t]);
    }
    hide Stems;
    hide LogOk;
  }
}
