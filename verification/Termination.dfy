/**
 Every requested shutdown is carried through: once somebody has called `Application.Shutdown`, or a
 `Node` command has been accepted, the process comes to its end by a bounded number of its own
 operations, with everything stopped and closed, and with the successor the decision asked for.
 */
module Termination {
  import opened Options
  import opened Runs
  import opened Totals
  import opened Lifecycle
  import Application
  import ServerGroup

  // ----- Every bound server is launched before the group is waited for

  predicate Launched(srv: ServerGroup.Server) { srv.bound ==> !srv.serve.NotServing? }

  ghost predicate LaunchedInv(s: State) {
    && (s.main.Launch? ==> forall i: nat :: i < s.main.i && i < |s.group.servers| ==> Launched(s.group.servers[i]))
    && (s.main.Wait? ==> forall i: nat :: i < |s.group.servers| ==> Launched(s.group.servers[i]))
  }

  ghost predicate LaunchesKept(g: ServerGroup.State, h: ServerGroup.State) {
    && |h.servers| == |g.servers|
    && forall i: nat :: i < |g.servers| && Launched(g.servers[i]) ==> Launched(h.servers[i])
  }

  lemma OthersKeepLaunches(g: ServerGroup.State, e: ServerGroup.Action)
    requires !ServerGroup.ByMain(e) && !e.StopStep? && ServerGroup.Next(g, e).Some?
    ensures LaunchesKept(g, ServerGroup.Next(g, e).value)
  {
  }

  lemma StopKeepsLaunches(g: ServerGroup.State, k: nat, err: bool)
    requires k < |g.stops| && g.stops[k].server < |g.servers| && ServerGroup.StopNext(g, k, err).Some?
    ensures LaunchesKept(g, ServerGroup.StopNext(g, k, err).value)
  {
  }

  lemma MainKeepsLaunches(s: State, ok: bool)
    requires LaunchedInv(s) && MainNext(s, ok).Some?
    ensures LaunchedInv(MainNext(s, ok).value)
  {
  }

  lemma StepKeepsLaunched(s: State, a: Action)
    requires LaunchedInv(s) && Next(s, a).Some?
    ensures LaunchedInv(Next(s, a).value)
  {
    match a
    case Group(e) =>
      if e.StopStep? { StopKeepsLaunches(s.group, e.stop, e.err); } else { OthersKeepLaunches(s.group, e); }
    case Main(ok) => MainKeepsLaunches(s, ok);
    case Collected(_) =>
    case _ => assert Next(s, a).value.group == s.group && Next(s, a).value.main == s.main;
  }

  /** The signal loop starts when the servers have been launched. */
  predicate SignalAfterLaunch(s: State) { s.signal.SignalOff? <==> s.group.fan.FanOff? }

  lemma StepKeepsSignalAfterLaunch(s: State, a: Action)
    requires Inv(s) && SignalAfterLaunch(s) && Next(s, a).Some?
    ensures SignalAfterLaunch(Next(s, a).value)
  {
    if a.Group? {
      ServerGroup.OthersLaunchNothing(s.group, a.event);
    }
  }

  ghost predicate Good(s: State) { Inv(s) && LaunchedInv(s) && SignalAfterLaunch(s) }

  lemma StepKeepsGood(s: State, a: Action)
    requires Good(s) && Next(s, a).Some?
    ensures Good(Next(s, a).value)
  {
    StepKeepsInv(s, a);
    StepKeepsLaunched(s, a);
    StepKeepsSignalAfterLaunch(s, a);
  }

  lemma GoodHolds(acts: seq<Action>)
    requires Exec(Next, INITIAL, acts).Some?
    ensures Good(Exec(Next, INITIAL, acts).value)
  {
    InvHolds([]);
    forall s, a | Good(s) && Next(s, a).Some? ensures Good(Next(s, a).value) {
      StepKeepsGood(s, a);
    }
    Invariant(Next, Good, INITIAL, acts);
  }

  // ----- The process's own operations are bounded

  /** What the process does by itself once its server contexts exist; no new calls, signals or commands. */
  predicate Own(s: State, a: Action) {
    match a
    case App(step) => step.Step?
    case Group(e) => e.FanStep? || e.StopStep? || e.ServeReturns? || (e.ParentDone? && !s.group.parentDone)
    case Main(_) => !s.main.CreateContexts?
    case DelayOver(_) | SignalSeesDone => true
    case _ => false
  }

  function OwnNext(s: State, a: Action): Option<State> { if Own(s, a) then Next(s, a) else None }

  function CallerRank(c: Application.Caller): nat {
    match c.pc
    case AtOnce => 6
    case StoreRestarting => 5
    case StoreDown => 4
    case StoreErr => 3
    case CloseDone => 2
    case LeaveOnce => 1
    case Returned => 0
  }

  function ServeRank(srv: ServerGroup.Server): nat {
    match srv.serve
    case NotServing => 2
    case Serving => 1
    case Ended(_) => 0
  }

  function Minus(n: nat, i: nat): nat { if i < n then n - i else 0 }

  /** The steps of `Run` that are left, counting the fan-out that it starts. */
  function MainWork(main: MainPc, servers: nat, contexts: nat): nat {
    match main
    case CreateContexts => 0
    case Bind(i) => Minus(servers, i) + 1 + servers + 1 + 4 * servers + 2 + contexts + 4
    case Launch(i) => Minus(servers, i) + 1 + 4 * servers + 2 + contexts + 4
    case Wait => contexts + 4
    case CloseContexts(j) => Minus(contexts, j) + 3
    case CloseCore => 2
    case CheckRestart => 1
    case Exit => 0
  }

  function GroupWork(g: ServerGroup.State): nat {
    ServerGroup.Work(g) + Total(ServeRank, g.servers) + if g.parentDone then 0 else 1
  }

  function Work(s: State): nat {
    Total(CallerRank, s.app.callers) + GroupWork(s.group) + MainWork(s.main, |s.group.servers|, s.contexts)
    + SourceWork(s)
  }

  /** Calls of `Shutdown` still to be made, by delayed commands and by the signal loop. */
  function SourceWork(s: State): nat {
    7 * |s.delayed| + if s.signal.SignalWait? || s.main.Bind? || s.main.Launch? then 7 else 0
  }

  lemma CallerMoves(s: Application.State, i: nat)
    requires Application.Next(s, Application.Step(i)).Some?
    ensures var t := Application.Next(s, Application.Step(i)).value;
            && i < |s.callers| == |t.callers| && t.callers == s.callers[i := t.callers[i]]
            && CallerRank(t.callers[i]) < CallerRank(s.callers[i])
  {
  }

  lemma CallerWorks(s: Application.State, i: nat)
    requires Application.Next(s, Application.Step(i)).Some?
    ensures var t := Application.Next(s, Application.Step(i)).value;
            |t.callers| == |s.callers| && Total(CallerRank, t.callers) < Total(CallerRank, s.callers)
  {
    CallerMoves(s, i);
    TotalUpdate(CallerRank, s.callers, i, Application.Next(s, Application.Step(i)).value.callers[i]);
  }

  /** A server keeps its rank as long as its `Serve` does. */
  lemma SameServeRank(g: ServerGroup.State, h: ServerGroup.State, i: nat)
    requires i < |g.servers| == |h.servers| && h.servers == g.servers[i := h.servers[i]]
    ensures Total(ServeRank, h.servers)
         == Total(ServeRank, g.servers) - ServeRank(g.servers[i]) + ServeRank(h.servers[i])
  {
    TotalUpdate(ServeRank, g.servers, i, h.servers[i]);
  }

  lemma StopOnlyTouches(g: ServerGroup.State, k: nat, err: bool)
    requires k < |g.stops| && g.stops[k].server < |g.servers| && ServerGroup.StopNext(g, k, err).Some?
    ensures var h := ServerGroup.StopNext(g, k, err).value;
            && |h.servers| == |g.servers| && h.parentDone == g.parentDone
            && h.servers == g.servers[g.stops[k].server := h.servers[g.stops[k].server]]
            && h.servers[g.stops[k].server].serve == g.servers[g.stops[k].server].serve
  {
  }

  lemma FanOrStopWorks(g: ServerGroup.State, e: ServerGroup.Action)
    requires ServerGroup.Inv(g) && (e.FanStep? || e.StopStep?) && ServerGroup.Next(g, e).Some?
    ensures var h := ServerGroup.Next(g, e).value; GroupWork(h) < GroupWork(g) && |h.servers| == |g.servers|
  {
    ServerGroup.OwnStepWorks(g, e);
    var h := ServerGroup.Next(g, e).value;
    if e.StopStep? {
      StopOnlyTouches(g, e.stop, e.err);
      SameServeRank(g, h, g.stops[e.stop].server);
    } else {
      assert h.servers == g.servers && h.parentDone == g.parentDone;
    }
  }

  lemma ReturnWorks(g: ServerGroup.State, i: nat, r: ServerGroup.ServeResult)
    requires ServerGroup.Next(g, ServerGroup.ServeReturns(i, r)).Some?
    ensures var h := ServerGroup.Next(g, ServerGroup.ServeReturns(i, r)).value;
            GroupWork(h) < GroupWork(g) && |h.servers| == |g.servers|
  {
    SameServeRank(g, ServerGroup.Next(g, ServerGroup.ServeReturns(i, r)).value, i);
  }

  lemma GroupWorks(s: State, e: ServerGroup.Action)
    requires Good(s) && Own(s, Group(e)) && Next(s, Group(e)).Some?
    ensures Work(Next(s, Group(e)).value) < Work(s)
  {
    match e
    case FanStep => FanOrStopWorks(s.group, e);
    case StopStep(_, _) => FanOrStopWorks(s.group, e);
    case ServeReturns(i, r) => ReturnWorks(s.group, i, r);
    case ParentDone =>
  }

  lemma BindWorks(s: State, ok: bool)
    requires Good(s) && s.main.Bind? && MainNext(s, ok).Some?
    ensures Work(MainNext(s, ok).value) < Work(s)
  {
    if s.main.i < |s.group.servers| {
      SameServeRank(s.group, MainNext(s, ok).value.group, s.main.i);
    }
  }

  lemma LaunchWorks(s: State, ok: bool)
    requires Good(s) && s.main.Launch? && MainNext(s, ok).Some?
    ensures Work(MainNext(s, ok).value) < Work(s)
  {
    if s.main.i < |s.group.servers| && s.group.servers[s.main.i].bound {
      SameServeRank(s.group, MainNext(s, ok).value.group, s.main.i);
    }
  }

  lemma LaterMainWorks(s: State, ok: bool)
    requires Good(s) && !s.main.CreateContexts? && !s.main.Bind? && !s.main.Launch? && MainNext(s, ok).Some?
    ensures Work(MainNext(s, ok).value) < Work(s)
  {
    LaterMainKeepsGroup(s, ok);
  }

  lemma LaterMainKeepsGroup(s: State, ok: bool)
    requires !s.main.CreateContexts? && !s.main.Bind? && !s.main.Launch? && MainNext(s, ok).Some?
    ensures var t := MainNext(s, ok).value;
            && |t.group.servers| == |s.group.servers| && GroupWork(t.group) == GroupWork(s.group)
            && t.app == s.app && t.contexts == s.contexts && SourceWork(t) == SourceWork(s)
  {
    var t := MainNext(s, ok).value;
    assert t.group.servers == s.group.servers && t.group.stops == s.group.stops && t.group.fan == s.group.fan;
  }

  lemma MainWorks(s: State, ok: bool)
    requires Good(s) && !s.main.CreateContexts? && MainNext(s, ok).Some?
    ensures Work(MainNext(s, ok).value) < Work(s)
  {
    if s.main.Bind? {
      BindWorks(s, ok);
    } else if s.main.Launch? {
      LaunchWorks(s, ok);
    } else {
      LaterMainWorks(s, ok);
    }
  }

  lemma CallWorks(s: Application.State, restart: bool)
    ensures var t := Application.Next(s, Application.Call(restart));
            && t.Some? && t.value.callers == s.callers + [Application.Caller(restart, Application.AtOnce)]
            && Total(CallerRank, t.value.callers) == Total(CallerRank, s.callers) + 6
  {
    TotalAppend(CallerRank, s.callers, Application.Caller(restart, Application.AtOnce));
  }

  lemma SourceWorks(s: State, a: Action)
    requires Good(s) && (a.DelayOver? || a.SignalSeesDone?) && Next(s, a).Some?
    ensures Work(Next(s, a).value) < Work(s)
  {
    CallWorks(s.app, if a.DelayOver? then a.restart else false);
    var t := Next(s, a).value;
    assert t.group == s.group && t.main == s.main && t.contexts == s.contexts;
    if a.DelayOver? {
      assert |t.delayed| == |s.delayed| - 1;
    }
  }

  predicate Requested(s: State) { s.app.callers != [] || s.delayed != multiset{} }

  /** No operation of its own brings the process back to creating contexts, or forgets a request. */
  lemma OwnStepOnward(s: State, a: Action)
    requires !s.main.CreateContexts? && OwnNext(s, a).Some?
    ensures !OwnNext(s, a).value.main.CreateContexts?
    ensures Requested(s) ==> Requested(OwnNext(s, a).value)
  {
    match a
    case App(step) => CallerMoves(s.app, step.caller);
    case DelayOver(restart) => CallWorks(s.app, restart);
    case SignalSeesDone => CallWorks(s.app, false);
    case _ =>
  }

  lemma OwnStepWorks(s: State, a: Action)
    requires Good(s) && !s.main.CreateContexts? && OwnNext(s, a).Some?
    ensures Work(OwnNext(s, a).value) < Work(s)
  {
    match a
    case App(step) => CallerWorks(s.app, step.caller);
    case Group(e) => GroupWorks(s, e);
    case Main(ok) => MainWorks(s, ok);
    case DelayOver(_) => SourceWorks(s, a);
    case SignalSeesDone => SourceWorks(s, a);
  }

  lemma {:induction false} OwnRunBounded(s: State, own: seq<Action>)
    requires Good(s) && !s.main.CreateContexts? && Exec(OwnNext, s, own).Some?
    ensures var t := Exec(OwnNext, s, own).value;
            && Good(t) && |own| + Work(t) <= Work(s) && !t.main.CreateContexts?
            && (Requested(s) ==> Requested(t))
            && Exec(Next, s, own) == Some(t)
    decreases |own|
  {
    if own != [] {
      OwnStepWorks(s, own[0]);
      OwnStepOnward(s, own[0]);
      StepKeepsGood(s, own[0]);
      OwnRunBounded(OwnNext(s, own[0]).value, own[1..]);
    }
  }

  // ----- What is left when the process comes to rest

  /**
   The operations that are bound to happen: all of its own, but a `Serve` returns only after the
   shutdown body of its server.
   */
  predicate Due(s: State, a: Action) {
    && Own(s, a)
    && (a.Group? && a.event.ServeReturns? ==>
          a.event.server < |s.group.servers| && s.group.servers[a.event.server].once.Done?)
  }

  ghost predicate AtRest(s: State) { forall a :: Due(s, a) ==> Next(s, a).None? }

  lemma CallersReturned(s: State)
    requires Good(s) && AtRest(s) && Requested(s)
    ensures Application.DoneClosed(s.app)
  {
    forall restart: bool ensures restart !in s.delayed {
      assert Due(s, DelayOver(restart));
    }
    assert s.delayed == multiset{};
    assert s.app.callers != [];
    if !s.app.callers[0].pc.Returned? {
      Application.ShutdownNeverDeadlocks(s.app, 0);
      var j: nat :| Application.Next(s.app, Application.Step(j)).Some?;
      assert Due(s, App(Application.Step(j)));
    }
  }

  lemma ParentIsDone(s: State)
    requires Good(s) && AtRest(s) && Application.DoneClosed(s.app) && !s.group.fan.FanOff?
    ensures s.group.cancelled
  {
    var a := Group(ServerGroup.ParentDone);
    assert Due(s, a) ==> Next(s, a).None?;
  }

  lemma GroupAtRest(s: State)
    requires Good(s) && AtRest(s) && s.group.cancelled && !s.group.fan.FanOff?
    ensures s.group.fan.FanEnded? && forall st :: st in s.group.stops ==> st.pc.Returned?
    ensures forall i: nat :: i < |s.group.servers| && s.group.servers[i].bound ==> ServerGroup.StoppedOnce(s.group, i)
  {
    var g := s.group;
    forall e | ServerGroup.Own(e) ensures ServerGroup.Next(g, e).None? {
      assert Due(s, Group(e));
    }
    assert ServerGroup.Stuck(g);
    if g.fan.FanWait? || g.fan.FanSpawn? {
      ServerGroup.OpenFanCanStep(g);
    }
    if k: nat :| k < |g.stops| && !g.stops[k].pc.Returned? {
      ServerGroup.OpenStopCanStep(g, k);
    }
    forall i: nat | i < |g.servers| && g.servers[i].bound ensures ServerGroup.StoppedOnce(g, i) {
      ServerGroup.SpawnedAndReturned(g, i);
    }
  }

  lemma ServesReturned(s: State)
    requires Good(s) && AtRest(s) && s.main.Wait?
    requires forall st :: st in s.group.stops ==> st.pc.Returned?
    requires forall i: nat :: i < |s.group.servers| && s.group.servers[i].bound ==> ServerGroup.StoppedOnce(s.group, i)
    ensures ServerGroup.GroupDone(s.group)
  {
    forall srv | srv in s.group.servers && srv.bound ensures srv.serve.Ended? {
      var i: nat :| i < |s.group.servers| && s.group.servers[i] == srv;
      assert Launched(srv) && ServerGroup.StoppedOnce(s.group, i);
      var a := Group(ServerGroup.ServeReturns(i, ServerGroup.ReturnsNil));
      assert srv.serve.Serving? ==> Due(s, a) && Next(s, a).Some?;
    }
  }

  lemma RestIsExit(s: State)
    requires Good(s) && AtRest(s) && Requested(s) && !s.main.CreateContexts?
    ensures s.main.Exit?
  {
    CallersReturned(s);
    MainBlockedExactly(s, true);
    assert Due(s, Main(true));
    if s.main.Wait? {
      ParentIsDone(s);
      GroupAtRest(s);
      ServesReturned(s);
    }
  }

  /**
   A requested shutdown is carried through.  From any reachable state in which the server contexts
   exist and `Shutdown` has been called by anybody or a `Node` command accepted, let the process go on
   by itself: it performs at most `Work` operations, in any order, and when none is due it has exited
   with `Done` and every context closed, and every bound server of a group that was waited for was stopped exactly once.
   If the decision was made before `Run` ended, a successor is started exactly for a restart.
   */
  lemma ShutdownIsCarriedThrough(acts: seq<Action>, own: seq<Action>)
    requires Exec(Next, INITIAL, acts).Some?
    requires var s := Exec(Next, INITIAL, acts).value;
             !s.main.CreateContexts? && Requested(s) && Exec(OwnNext, s, own).Some?
    ensures var s := Exec(Next, INITIAL, acts).value;
            var t := Exec(OwnNext, s, own).value;
            && |own| <= Work(s)
            && (AtRest(t) ==>
                  && t.main.Exit? && Application.DoneClosed(t.app)
                  && t.closedContexts == t.contexts && t.coreClosed
                  && (t.group.waited ==> forall i: nat :: i < |t.group.servers| && t.group.servers[i].bound ==>
                        ServerGroup.StoppedOnce(t.group, i))
                  && (s.app.shuttingDown && !s.main.Exit? ==> t.attempts == if s.app.restarting then 1 else 0))
  {
    GoodHolds(acts);
    var s := Exec(Next, INITIAL, acts).value;
    OwnRunBounded(s, own);
    var t := Exec(OwnNext, s, own).value;
    if AtRest(t) {
      RestIsExit(t);
      CallersReturned(t);
      if t.group.waited {
        GroupAtRest(t);
      }
      if s.app.shuttingDown && !s.main.Exit? {
        DecisionIsCarriedOut(acts, own);
      }
    }
  }
}
