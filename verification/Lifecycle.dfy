/**
 One node process from `Run` to the possible start of its successor.  The main goroutine creates the
 server contexts, binds and launches the servers, waits for the group, closes the server contexts and
 the core context, and finally tests `Restarting`.  Beside it run the callers of
 `Application.Shutdown`, the server group, the signal loop and the delayed `Node` command.
 */
module Lifecycle {
  import opened Options
  import opened Runs
  import Application
  import ServerGroup

  datatype MainPc =
    | CreateContexts | Bind(i: nat) | Launch(i: nat) | Wait
    | CloseContexts(j: nat) | CloseCore | CheckRestart | Exit

  datatype SignalPc = SignalOff | SignalWait | SignalEnded

  /** `attempts` counts calls of `StartNode.Start`, `successors` those that started a process. */
  datatype State = State(
    app: Application.State, group: ServerGroup.State, main: MainPc,
    signal: SignalPc, delayed: multiset<bool>,
    contexts: nat, closedContexts: nat, coreClosed: bool, attempts: nat, successors: nat)

  const INITIAL := State(
    Application.INITIAL, ServerGroup.Initial(0), CreateContexts,
    SignalOff, multiset{}, 0, 0, false, 0, 0)

  datatype Action =
    | App(step: Application.Action)       // any caller of Application.Shutdown
    | Group(event: ServerGroup.Action)    // Serve returns, fan-out, server shutdown, Destroy, parent done
    | Main(ok: bool)                      // the next operation of Run; `ok` is how it turns out
    | Collected(servers: nat)             // the servers found in the contexts
    | Signal(hup: bool, rotates: bool)    // `rotates`: a lumberjack logger is found
    | SignalSeesDone
    | NodeCommand(command: string)        // the Node RPC
    | DelayOver(restart: bool)            // its time.AfterFunc

  function Next(s: State, a: Action): Option<State> {
    match a
    case App(step) => AppNext(s, step)
    case Group(event) => GroupNext(s, event)
    case Main(ok) => MainNext(s, ok)
    case Collected(n) =>
      if !s.main.CreateContexts? then None
      else if n == 0 then Some(s.(main := CloseContexts(0)))
      else Some(s.(main := Bind(0), group := ServerGroup.Initial(n)))
    case Signal(hup, rotates) =>
      if !s.signal.SignalWait? then None
      else if hup && rotates then Some(s)
      else AppNext(s.(signal := SignalEnded), Application.Call(hup))
    case SignalSeesDone =>
      if s.signal.SignalWait? && Application.DoneClosed(s.app)
      then AppNext(s.(signal := SignalEnded), Application.Call(false)) else None
    case NodeCommand(command) =>
      if command == "restart" then Some(s.(delayed := s.delayed + multiset{true}))
      else if command == "shutdown" then Some(s.(delayed := s.delayed + multiset{false}))
      else None
    case DelayOver(restart) =>
      if restart !in s.delayed then None
      else AppNext(s.(delayed := s.delayed - multiset{restart}), Application.Call(restart))
  }

  function AppNext(s: State, step: Application.Action): Option<State> {
    match Application.Next(s.app, step)
    case None => None
    case Some(app) => Some(s.(app := app))
  }

  /** What the group does without the main goroutine. */
  function GroupNext(s: State, e: ServerGroup.Action): Option<State> {
    if ServerGroup.ByMain(e) then None
    else if e.ParentDone? && !(Application.DoneClosed(s.app) && (s.main.Launch? || !s.group.fan.FanOff?)) then None
    else match ServerGroup.Next(s.group, e)
      case None => None
      case Some(group) => Some(s.(group := group))
  }

  function MainNext(s: State, ok: bool): Option<State> {
    match s.main
    case CreateContexts =>
      if ok then Some(s.(contexts := s.contexts + 1)) else Some(s.(main := CloseContexts(0)))
    case Bind(i) =>
      if i >= |s.group.servers| then Some(s.(main := Launch(0)))
      else WithGroup(s, ServerGroup.Bound(i, ok), Bind(i + 1))
    case Launch(i) =>
      if i >= |s.group.servers| then WithGroup(s.(signal := SignalWait), ServerGroup.StartFan, Wait)
      else if s.group.servers[i].bound then WithGroup(s, ServerGroup.Launch(i), Launch(i + 1))
      else Some(s.(main := Launch(i + 1)))
    case Wait => WithGroup(s, ServerGroup.WaitReturns, CloseContexts(0))
    case CloseContexts(j) =>
      if j < s.contexts
      then Some(s.(main := CloseContexts(j + 1), closedContexts := s.closedContexts + 1))
      else Some(s.(main := CloseCore))
    case CloseCore => Some(s.(main := CheckRestart, coreClosed := true))
    case CheckRestart =>
      if s.app.restarting
      then Some(s.(main := Exit, attempts := s.attempts + 1,
                   successors := s.successors + if ok then 1 else 0))
      else Some(s.(main := Exit))
    case Exit => None
  }

  function WithGroup(s: State, e: ServerGroup.Action, main: MainPc): Option<State> {
    match ServerGroup.Next(s.group, e)
    case None => None
    case Some(group) => Some(s.(group := group, main := main))
  }

  // ----- Invariants

  predicate Starting(m: MainPc) { m.CreateContexts? || m.Bind? || m.Launch? }

  ghost predicate Phases(s: State) {
    && (Starting(s.main) ==> s.group.fan.FanOff? && !s.group.waited)
    && (s.main.Wait? ==> !s.group.fan.FanOff? && !s.group.waited)
    && (s.main.CreateContexts? ==> |s.group.servers| == 0)
    && (s.main.CreateContexts? || s.main.Bind? ==>
          forall srv :: srv in s.group.servers ==> srv.serve.NotServing?)
    && (s.main.Launch? ==> forall i: nat :: s.main.i <= i < |s.group.servers| ==> s.group.servers[i].serve.NotServing?)
    && (!Starting(s.main) && !s.main.Wait? ==>
          s.group.waited || forall srv :: srv in s.group.servers ==> srv.serve.NotServing?)
    && (s.group.parentDone ==> Application.DoneClosed(s.app))
  }

  ghost predicate Sequence(s: State) {
    && (Starting(s.main) || s.main.Wait? ==> s.closedContexts == 0)
    && (s.main.CloseContexts? ==> s.closedContexts == s.main.j <= s.contexts)
    && (s.main.CloseCore? || s.main.CheckRestart? || s.main.Exit? ==> s.closedContexts == s.contexts)
    && (s.coreClosed <==> s.main.CheckRestart? || s.main.Exit?)
    && (!s.main.Exit? ==> s.attempts == 0)
    && s.successors <= s.attempts <= 1
    && (s.attempts == 1 ==> s.app.restarting)
  }

  ghost predicate Inv(s: State) {
    Application.Inv(s.app) && ServerGroup.Inv(s.group) && Phases(s) && Sequence(s)
  }

  lemma AppNextKeepsInv(s: State, step: Application.Action)
    requires Inv(s) && AppNext(s, step).Some?
    ensures Inv(AppNext(s, step).value) && Application.Settles(s.app, AppNext(s, step).value.app)
  {
    Application.StepKeepsInv(s.app, step);
    Application.StepSettles(s.app, step);
  }

  lemma GroupNextKeepsInv(s: State, e: ServerGroup.Action)
    requires Inv(s) && GroupNext(s, e).Some?
    ensures Inv(GroupNext(s, e).value)
  {
    ServerGroup.StepKeepsInv(s.group, e);
    ServerGroup.OthersLaunchNothing(s.group, e);
    PhasesKept(s, GroupNext(s, e).value.group);
  }

  lemma PhasesKept(s: State, group: ServerGroup.State)
    requires Phases(s) && ServerGroup.NothingLaunched(s.group, group)
    requires group.parentDone ==> s.group.parentDone || Application.DoneClosed(s.app)
    ensures Phases(s.(group := group))
  {
    if forall srv :: srv in s.group.servers ==> srv.serve.NotServing? {
      forall srv | srv in group.servers ensures srv.serve.NotServing? {
        var i: nat :| i < |group.servers| && group.servers[i] == srv;
        assert s.group.servers[i] in s.group.servers;
      }
    }
  }

  lemma BindKeepsInv(s: State, ok: bool)
    requires Inv(s) && s.main.Bind? && MainNext(s, ok).Some?
    ensures Inv(MainNext(s, ok).value)
  {
    if s.main.i < |s.group.servers| {
      ServerGroup.StepKeepsInv(s.group, ServerGroup.Bound(s.main.i, ok));
    }
  }

  lemma LaunchKeepsInv(s: State, ok: bool)
    requires Inv(s) && s.main.Launch? && MainNext(s, ok).Some?
    ensures Inv(MainNext(s, ok).value)
  {
    if s.main.i >= |s.group.servers| {
      ServerGroup.StepKeepsInv(s.group, ServerGroup.StartFan);
    } else if s.group.servers[s.main.i].bound {
      ServerGroup.StepKeepsInv(s.group, ServerGroup.Launch(s.main.i));
    }
  }

  lemma MainNextKeepsInv(s: State, ok: bool)
    requires Inv(s) && MainNext(s, ok).Some?
    ensures Inv(MainNext(s, ok).value)
  {
    match s.main
    case Bind(_) => BindKeepsInv(s, ok);
    case Launch(_) => LaunchKeepsInv(s, ok);
    case Wait => ServerGroup.StepKeepsInv(s.group, ServerGroup.WaitReturns);
    case _ =>
  }

  /** The invariant does not speak of the signal loop or of the delayed commands. */
  lemma UnrelatedKeepsInv(s: State, signal: SignalPc, delayed: multiset<bool>)
    requires Inv(s)
    ensures Inv(s.(signal := signal, delayed := delayed))
  {
  }

  lemma CollectedKeepsInv(s: State, n: nat)
    requires Inv(s) && Next(s, Collected(n)).Some?
    ensures Inv(Next(s, Collected(n)).value)
  {
    ServerGroup.InvHolds(n, []);
  }

  lemma SignalKeepsInv(s: State, hup: bool, rotates: bool)
    requires Inv(s) && Next(s, Signal(hup, rotates)).Some?
    ensures Inv(Next(s, Signal(hup, rotates)).value)
  {
    if !(hup && rotates) {
      CallKeepsInv(s, SignalEnded, s.delayed, hup);
    }
  }

  lemma StepKeepsInv(s: State, a: Action)
    requires Inv(s) && Next(s, a).Some?
    ensures Inv(Next(s, a).value)
  {
    match a
    case App(step) => AppNextKeepsInv(s, step);
    case Group(e) => GroupNextKeepsInv(s, e);
    case Main(ok) => MainNextKeepsInv(s, ok);
    case Collected(n) => CollectedKeepsInv(s, n);
    case NodeCommand(_) => UnrelatedKeepsInv(s, s.signal, Next(s, a).value.delayed);
    case Signal(hup, rotates) => SignalKeepsInv(s, hup, rotates);
    case SignalSeesDone => CallKeepsInv(s, SignalEnded, s.delayed, false);
    case DelayOver(restart) => CallKeepsInv(s, s.signal, s.delayed - multiset{restart}, restart);
  }

  lemma CallKeepsInv(s: State, signal: SignalPc, delayed: multiset<bool>, restart: bool)
    requires Inv(s)
    ensures var t := AppNext(s.(signal := signal, delayed := delayed), Application.Call(restart));
            t.Some? && Inv(t.value)
  {
    UnrelatedKeepsInv(s, signal, delayed);
    AppNextKeepsInv(s.(signal := signal, delayed := delayed), Application.Call(restart));
  }

  lemma StepSettles(s: State, a: Action)
    requires Inv(s) && Next(s, a).Some?
    ensures Application.Settles(s.app, Next(s, a).value.app)
  {
    match a
    case App(step) => Application.StepSettles(s.app, step);
    case Signal(hup, rotates) =>
      if !(hup && rotates) { Application.StepSettles(s.app, Application.Call(hup)); }
    case SignalSeesDone => Application.StepSettles(s.app, Application.Call(false));
    case DelayOver(restart) => Application.StepSettles(s.app, Application.Call(restart));
    case _ => assert Next(s, a).value.app == s.app;
  }

  lemma {:induction false} RunKeepsInv(s: State, acts: seq<Action>)
    requires Inv(s) && Exec(Next, s, acts).Some?
    ensures Inv(Exec(Next, s, acts).value) && Application.Settles(s.app, Exec(Next, s, acts).value.app)
    decreases |acts|
  {
    if acts != [] {
      StepKeepsInv(s, acts[0]);
      StepSettles(s, acts[0]);
      RunKeepsInv(Next(s, acts[0]).value, acts[1..]);
    }
  }

  lemma InvHolds(acts: seq<Action>)
    requires Exec(Next, INITIAL, acts).Some?
    ensures Inv(Exec(Next, INITIAL, acts).value)
  {
    ServerGroup.InvHolds(0, []);
    RunKeepsInv(INITIAL, acts);
  }

  // ----- Successor safety

  /**
   In every run at most one successor is started; and only with `Restarting` set by the caller that
   won the shutdown, with no `Serve` still running (every bound server's has returned once the group
   was waited for), with every server context and the core context closed.
   */
  lemma SuccessorSafety(acts: seq<Action>)
    requires Exec(Next, INITIAL, acts).Some?
    ensures var s := Exec(Next, INITIAL, acts).value;
            && s.successors <= s.attempts <= 1
            && (s.attempts == 1 ==>
                  && s.app.restarting && !s.app.once.Fresh? && s.app.once.winner < |s.app.callers|
                  && s.app.callers[s.app.once.winner].restart
                  && s.closedContexts == s.contexts && s.coreClosed
                  && (forall srv :: srv in s.group.servers ==> !srv.serve.Serving?)
                  && (s.group.waited ==> forall srv :: srv in s.group.servers && srv.bound ==> srv.serve.Ended?)
                  && (!s.group.waited ==> forall srv :: srv in s.group.servers ==> srv.serve.NotServing?))
  {
    InvHolds(acts);
    var s := Exec(Next, INITIAL, acts).value;
    if s.attempts == 1 {
      forall srv | srv in s.group.servers
        ensures !srv.serve.Serving?
        ensures s.group.waited && srv.bound ==> srv.serve.Ended?
      {
        var i: nat :| i < |s.group.servers| && s.group.servers[i] == srv;
      }
    }
  }

  /**
   The shutdown decision is carried out: once the application is inactive and `Run` has not yet made
   its final test, every continuation in which `Run` ends calls `Start` exactly when the decision was
   to restart, whoever else calls `Shutdown` in the meantime.
   */
  lemma DecisionIsCarriedOut(acts: seq<Action>, more: seq<Action>)
    requires Exec(Next, INITIAL, acts).Some?
    requires var s := Exec(Next, INITIAL, acts).value;
             s.app.shuttingDown && !s.main.Exit? && Exec(Next, s, more).Some?
    ensures var s := Exec(Next, INITIAL, acts).value;
            var t := Exec(Next, s, more).value;
            t.main.Exit? ==> t.attempts == if s.app.restarting then 1 else 0
  {
    InvHolds(acts);
    Decided(Exec(Next, INITIAL, acts).value, more);
  }

  lemma {:induction false} Decided(s: State, more: seq<Action>)
    requires Inv(s) && s.app.shuttingDown && Exec(Next, s, more).Some?
    requires s.main.Exit? ==> s.attempts == if s.app.restarting then 1 else 0
    ensures var t := Exec(Next, s, more).value;
            t.main.Exit? ==> t.attempts == if s.app.restarting then 1 else 0
    decreases |more|
  {
    if more != [] {
      var a := more[0];
      StepKeepsInv(s, a);
      StepSettles(s, a);
      ExitOnlyByTest(s, a);
      Decided(Next(s, a).value, more[1..]);
    }
  }

  lemma ExitOnlyByTest(s: State, a: Action)
    requires Next(s, a).Some?
    ensures var t := Next(s, a).value;
            if a.Main? && s.main.CheckRestart? then t.attempts == s.attempts + if s.app.restarting then 1 else 0
            else t.attempts == s.attempts && (t.main.Exit? <==> s.main.Exit?)
  {
  }

  lemma MainBlockedExactly(s: State, ok: bool)
    requires Inv(s)
    ensures Next(s, Main(ok)).None? <==> s.main.Exit? || (s.main.Wait? && !ServerGroup.GroupDone(s.group))
  {
    if s.main.Bind? && s.main.i < |s.group.servers| {
      assert s.group.servers[s.main.i] in s.group.servers;
    }
  }

  /**
   The main goroutine is held up only by `Wait`, and only while the group still runs; and whenever it
   has ended, all server contexts and the core context are closed.
   */
  lemma MainOnlyWaits(acts: seq<Action>, ok: bool)
    requires Exec(Next, INITIAL, acts).Some?
    ensures var s := Exec(Next, INITIAL, acts).value;
            && (Next(s, Main(ok)).None? <==> s.main.Exit? || (s.main.Wait? && !ServerGroup.GroupDone(s.group)))
            && (s.main.Exit? ==> s.closedContexts == s.contexts && s.coreClosed)
  {
    InvHolds(acts);
    MainBlockedExactly(Exec(Next, INITIAL, acts).value, ok);
  }

  /**
   The order of closing.  No server context is closed while any `Serve` runs, or before the group of
   launched servers was waited for; and the core context is closed after all server contexts.
   */
  lemma ClosingOrder(acts: seq<Action>)
    requires Exec(Next, INITIAL, acts).Some?
    ensures var s := Exec(Next, INITIAL, acts).value;
            && (s.closedContexts > 0 || s.coreClosed ==>
                  && (forall srv :: srv in s.group.servers ==> !srv.serve.Serving?)
                  && (s.group.waited || forall srv :: srv in s.group.servers ==> srv.serve.NotServing?))
            && (s.coreClosed ==> s.closedContexts == s.contexts)
  {
    InvHolds(acts);
    var s := Exec(Next, INITIAL, acts).value;
    forall srv | srv in s.group.servers && (s.closedContexts > 0 || s.coreClosed) ensures !srv.serve.Serving? {
      var i: nat :| i < |s.group.servers| && s.group.servers[i] == srv;
    }
  }

  /** Within the whole process too, the fan-out stops every bound server exactly once. */
  lemma ProcessStopsServersOnce(acts: seq<Action>)
    requires Exec(Next, INITIAL, acts).Some?
    ensures var s := Exec(Next, INITIAL, acts).value;
            && (forall st :: st in s.group.stops && st.byGroup ==>
                  Application.DoneClosed(s.app) || s.group.waited || ServerGroup.SomeServeFailed(s.group))
            && (ServerGroup.Finished(s.group) ==>
                  forall i: nat :: i < |s.group.servers| && s.group.servers[i].bound ==>
                                     ServerGroup.StoppedOnce(s.group, i))
  {
    InvHolds(acts);
    var g := Exec(Next, INITIAL, acts).value.group;
    if ServerGroup.Finished(g) {
      forall i: nat | i < |g.servers| && g.servers[i].bound ensures ServerGroup.StoppedOnce(g, i) {
        ServerGroup.SpawnedAndReturned(g, i);
      }
    }
  }

  // ----- Requests that agree

  /** Every request in this action is for `restart`; SIGHUP rotates logs where it can. */
  predicate Requests(a: Action, restart: bool) {
    match a
    case App(Call(r)) => r == restart
    case Signal(hup, rotates) => (hup && rotates) || hup == restart
    case NodeCommand(command) => (command == "restart") == restart
    case _ => true
  }

  ghost predicate Agreed(s: State, restart: bool) {
    && Application.Inv(s.app)
    && (forall r :: r in s.delayed ==> r == restart)
    && (if s.app.once.Fresh? then forall c :: c in s.app.callers ==> c.restart == restart
        else s.app.callers[s.app.once.winner].restart == restart)
  }

  lemma CallKeepsAgreed(s: State, step: Application.Action, restart: bool)
    requires Agreed(s, restart) && AppNext(s, step).Some?
    requires step.Call? && step.restart != restart ==> !s.app.once.Fresh?
    ensures Agreed(AppNext(s, step).value, restart)
  {
    Application.StepKeepsInv(s.app, step);
    Application.StepSettles(s.app, step);
    var t := AppNext(s, step).value;
    if step.Step? && s.app.once.Fresh? {
      assert s.app.callers[step.caller] in s.app.callers;
      forall c | c in t.app.callers ensures c.restart == restart {
        var i: nat :| i < |t.app.callers| && t.app.callers[i] == c;
        assert s.app.callers[i] in s.app.callers;
      }
    }
  }

  /** A call made by the signal loop or by a delayed command. */
  lemma SourceKeepsAgreed(s: State, signal: SignalPc, delayed: multiset<bool>, r: bool, restart: bool)
    requires Agreed(s, restart) && delayed <= s.delayed && (r != restart ==> !s.app.once.Fresh?)
    ensures var t := AppNext(s.(signal := signal, delayed := delayed), Application.Call(r));
            t.Some? && Agreed(t.value, restart)
  {
    CallKeepsAgreed(s.(signal := signal, delayed := delayed), Application.Call(r), restart);
  }

  predicate Asks(a: Action) {
    a.App? || a.Signal? || a.SignalSeesDone? || a.DelayOver? || a.NodeCommand?
  }

  lemma OthersAskNothing(s: State, a: Action)
    requires !Asks(a) && Next(s, a).Some?
    ensures Next(s, a).value.app == s.app && Next(s, a).value.delayed == s.delayed
  {
  }

  lemma CommandKeepsAgreed(s: State, command: string, restart: bool)
    requires Agreed(s, restart) && Requests(NodeCommand(command), restart) && Next(s, NodeCommand(command)).Some?
    ensures Agreed(Next(s, NodeCommand(command)).value, restart)
  {
  }

  lemma StepKeepsAgreed(s: State, a: Action, restart: bool)
    requires Agreed(s, restart) && Requests(a, restart) && Next(s, a).Some?
    ensures Agreed(Next(s, a).value, restart)
  {
    if !Asks(a) {
      OthersAskNothing(s, a);
    } else {
      match a
      case App(step) => CallKeepsAgreed(s, step, restart);
      case Signal(hup, rotates) =>
        if !(hup && rotates) { SourceKeepsAgreed(s, SignalEnded, s.delayed, hup, restart); }
      case SignalSeesDone => SourceKeepsAgreed(s, SignalEnded, s.delayed, false, restart);
      case DelayOver(r) => SourceKeepsAgreed(s, s.signal, s.delayed - multiset{r}, r, restart);
      case NodeCommand(command) => CommandKeepsAgreed(s, command, restart);
    }
  }

  lemma {:induction false} RunKeepsAgreed(s: State, acts: seq<Action>, restart: bool)
    requires Agreed(s, restart) && (forall a :: a in acts ==> Requests(a, restart)) && Exec(Next, s, acts).Some?
    ensures Agreed(Exec(Next, s, acts).value, restart)
    decreases |acts|
  {
    if acts != [] {
      assert acts[0] in acts;
      StepKeepsAgreed(s, acts[0], restart);
      RunKeepsAgreed(Next(s, acts[0]).value, acts[1..], restart);
    }
  }

  /**
   When all requests of a run agree (RPC "restart" against "shutdown", SIGHUP without a rotating
   logger against other signals, direct calls), that is the decision: the signal loop's own
   `Shutdown(false)`, which follows every shutdown, never turns a restart into a stop.
   */
  lemma AgreedRequestsDecide(acts: seq<Action>, restart: bool)
    requires Exec(Next, INITIAL, acts).Some? && forall a :: a in acts ==> Requests(a, restart)
    ensures var s := Exec(Next, INITIAL, acts).value;
            && (!Application.Active(s.app) ==> s.app.restarting == restart)
            && (s.attempts == 1 ==> restart)
  {
    RunKeepsAgreed(INITIAL, acts, restart);
    InvHolds(acts);
  }
}
