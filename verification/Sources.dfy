/**
 Where the process's requests come from and what becomes of them: the `Node` command, the signal
 loop, the contexts and servers that are set up, and the start of the successor.
 */
module Sources {
  import opened Options
  import opened Runs
  import opened Lifecycle
  import Application
  import ServerGroup

  // ----- Commands and signals call Shutdown

  predicate Calls(s: State, restart: bool) { exists c :: c in s.app.callers && c.restart == restart }

  /** The request an action makes of `Application.Shutdown`, if it makes one. */
  function Request(a: Action): Option<bool> {
    match a
    case App(Call(restart)) => Some(restart)
    case Signal(hup, rotates) => if hup && rotates then None else Some(hup)
    case SignalSeesDone => Some(false)
    case DelayOver(restart) => Some(restart)
    case _ => None
  }

  lemma CallAdds(s: Application.State, restart: bool)
    ensures Application.Next(s, Application.Call(restart)).Some?
    ensures Application.Next(s, Application.Call(restart)).value.callers
         == s.callers + [Application.Caller(restart, Application.AtOnce)]
  {
  }

  lemma RequestCalls(s: State, a: Action)
    requires Next(s, a).Some? && Request(a).Some?
    ensures Calls(Next(s, a).value, Request(a).value)
  {
    var t := Next(s, a).value;
    CallAdds(s.app, Request(a).value);
    assert t.app.callers[|s.app.callers|] == Application.Caller(Request(a).value, Application.AtOnce);
  }

  lemma CallStays(s: State, a: Action, restart: bool)
    requires Inv(s) && Next(s, a).Some? && Calls(s, restart)
    ensures Calls(Next(s, a).value, restart)
  {
    StepSettles(s, a);
    var i :| 0 <= i < |s.app.callers| && s.app.callers[i].restart == restart;
    assert Next(s, a).value.app.callers[i].restart == restart;
  }

  lemma {:induction false} RunCalls(s: State, acts: seq<Action>, restart: bool)
    requires Inv(s) && Exec(Next, s, acts).Some?
    requires Calls(s, restart) || exists a :: a in acts && Request(a) == Some(restart)
    ensures Calls(Exec(Next, s, acts).value, restart)
    decreases |acts|
  {
    if acts != [] {
      StepKeepsInv(s, acts[0]);
      if Request(acts[0]) == Some(restart) {
        RequestCalls(s, acts[0]);
      } else if Calls(s, restart) {
        CallStays(s, acts[0], restart);
      } else {
        assert forall a :: a in acts <==> a == acts[0] || a in acts[1..];
      }
      RunCalls(Next(s, acts[0]).value, acts[1..], restart);
    }
  }

  /** Every request of a run, from whatever source, is a call of `Shutdown` with that argument. */
  lemma RequestsAreCalls(acts: seq<Action>, restart: bool)
    requires Exec(Next, INITIAL, acts).Some?
    requires exists a :: a in acts && Request(a) == Some(restart)
    ensures Calls(Exec(Next, INITIAL, acts).value, restart)
  {
    InvHolds([]);
    RunCalls(INITIAL, acts, restart);
  }

  lemma CommandIsScheduled(s: State, command: string)
    ensures Next(s, NodeCommand(command)).Some? <==> command == "restart" || command == "shutdown"
    ensures Next(s, NodeCommand(command)).Some? ==>
              Next(s, NodeCommand(command)).value == s.(delayed := s.delayed + multiset{command == "restart"})
  {
    assert "restart" != "shutdown";
  }

  lemma DelayCalls(s: State, restart: bool)
    requires restart in s.delayed
    ensures var t := Next(s, DelayOver(restart));
            && t.Some? && t.value.delayed == s.delayed - multiset{restart}
            && t.value.app.callers == s.app.callers + [Application.Caller(restart, Application.AtOnce)]
  {
    CallAdds(s.app, restart);
  }

  /**
   The `Node` command accepts "restart" and "shutdown" and nothing else; what it accepts is carried out
   when its delay is over, as a call of `Shutdown` with `restart` set for "restart" alone.
   */
  lemma CommandIsCarriedOut(s: State, command: string)
    ensures Next(s, NodeCommand(command)).Some? <==> command == "restart" || command == "shutdown"
    ensures Next(s, NodeCommand(command)).Some? ==>
              var late := Next(Next(s, NodeCommand(command)).value, DelayOver(command == "restart"));
              && late.Some? && late.value.delayed == s.delayed
              && late.value.app.callers
                 == s.app.callers + [Application.Caller(command == "restart", Application.AtOnce)]
  {
    CommandIsScheduled(s, command);
    if Next(s, NodeCommand(command)).Some? {
      DelayCalls(Next(s, NodeCommand(command)).value, command == "restart");
    }
  }

  /** Requests concern neither the main goroutine nor the group. */
  lemma OthersKeepGroup(s: State, a: Action)
    requires !a.Group? && !a.Main? && !a.Collected? && Next(s, a).Some?
    ensures var t := Next(s, a).value; t.group == s.group && t.main == s.main
    ensures s.signal.SignalOff? ==> Next(s, a).value.signal.SignalOff?
  {
  }

  /** The signal loop ends with the first signal that it does not use to rotate logs, or with `Done`. */
  predicate EndsLoop(a: Action) { a.SignalSeesDone? || (a.Signal? && !(a.hup && a.rotates)) }

  ghost predicate Listens(s: State, ended: bool) {
    && (s.group.fan.FanOff? ==> s.signal.SignalOff? && !ended && !s.main.Wait?)
    && (!s.group.fan.FanOff? ==>
          && !Starting(s.main)
          && s.signal == if ended then SignalEnded else SignalWait)
  }

  lemma GroupListens(s: State, e: ServerGroup.Action, ended: bool)
    requires Listens(s, ended) && GroupNext(s, e).Some?
    ensures Listens(GroupNext(s, e).value, ended)
  {
    ServerGroup.OthersLaunchNothing(s.group, e);
  }

  lemma MainListens(s: State, ok: bool, ended: bool)
    requires Inv(s) && Listens(s, ended) && MainNext(s, ok).Some?
    ensures Listens(MainNext(s, ok).value, ended)
  {
  }

  lemma StepListens(s: State, a: Action, ended: bool)
    requires Inv(s) && Listens(s, ended) && Next(s, a).Some?
    ensures Listens(Next(s, a).value, ended || EndsLoop(a))
  {
    match a
    case Group(e) => GroupListens(s, e, ended);
    case Main(ok) => MainListens(s, ok, ended);
    case Collected(_) =>
    case _ => assert Next(s, a).value.group == s.group && Next(s, a).value.main == s.main;
  }

  lemma {:induction false} RunListens(s: State, acts: seq<Action>, ended: bool)
    requires Inv(s) && Listens(s, ended) && Exec(Next, s, acts).Some?
    ensures Listens(Exec(Next, s, acts).value, ended || exists a :: a in acts && EndsLoop(a))
    decreases |acts|
  {
    if acts != [] {
      StepKeepsInv(s, acts[0]);
      StepListens(s, acts[0], ended);
      RunListens(Next(s, acts[0]).value, acts[1..], ended || EndsLoop(acts[0]));
      assert forall a :: a in acts <==> a == acts[0] || a in acts[1..];
    }
  }

  /**
   From the launch of the servers on, the signal loop listens until the first signal that is not a
   SIGHUP used for rotating, or until `Done`: rotating logs, however often, leaves it listening.
   */
  lemma LoopListens(acts: seq<Action>)
    requires Exec(Next, INITIAL, acts).Some?
    ensures var s := Exec(Next, INITIAL, acts).value;
            && (s.main.Wait? ==> !s.signal.SignalOff?)
            && (s.signal.SignalWait? <==>
                  !s.group.fan.FanOff? && forall a :: a in acts ==> !EndsLoop(a))
  {
    InvHolds([]);
    InvHolds(acts);
    RunListens(INITIAL, acts, false);
  }

  // ----- What is set up

  /** How many server contexts are created in this run. */
  function Created(s: State, acts: seq<Action>): nat
    requires Exec(Next, s, acts).Some?
    decreases |acts|
  {
    if acts == [] then 0
    else (if s.main.CreateContexts? && acts[0] == Main(true) then 1 else 0)
         + Created(Next(s, acts[0]).value, acts[1..])
  }

  lemma {:induction false} RunCreates(s: State, acts: seq<Action>)
    requires Exec(Next, s, acts).Some?
    ensures Exec(Next, s, acts).value.contexts == s.contexts + Created(s, acts)
    decreases |acts|
  {
    if acts != [] {
      RunCreates(Next(s, acts[0]).value, acts[1..]);
    }
  }

  /** Every server context that was created is closed when the main goroutine has ended. */
  lemma CreatedContextsAreClosed(acts: seq<Action>)
    requires Exec(Next, INITIAL, acts).Some?
    ensures var s := Exec(Next, INITIAL, acts).value;
            s.contexts == Created(INITIAL, acts) && (s.main.Exit? ==> s.closedContexts == Created(INITIAL, acts))
  {
    RunCreates(INITIAL, acts);
    MainOnlyWaits(acts, true);
  }

  /** Server `i` has been bound, or not, for good. */
  ghost predicate Decided(s: State, i: nat, ok: bool) {
    && i < |s.group.servers| && s.group.servers[i].bound == ok
    && !s.main.CreateContexts? && (s.main.Bind? ==> i < s.main.i)
    && ServerGroup.OnlyBound(s.group)
  }

  lemma GroupKeepsDecided(s: State, e: ServerGroup.Action, i: nat, ok: bool)
    requires Decided(s, i, ok) && GroupNext(s, e).Some?
    ensures Decided(GroupNext(s, e).value, i, ok)
  {
    ServerGroup.StepBinds(s.group, e, i);
    ServerGroup.StepKeepsOnlyBound(s.group, e);
  }

  lemma MainKeepsDecided(s: State, now: bool, i: nat, ok: bool)
    requires Decided(s, i, ok) && MainNext(s, now).Some?
    ensures Decided(MainNext(s, now).value, i, ok)
  {
    match s.main
    case Bind(j) =>
      if j < |s.group.servers| {
        ServerGroup.StepKeepsOnlyBound(s.group, ServerGroup.Bound(j, now));
      }
    case Launch(j) =>
      if j >= |s.group.servers| {
        ServerGroup.StepKeepsOnlyBound(s.group, ServerGroup.StartFan);
      } else if s.group.servers[j].bound {
        ServerGroup.StepKeepsOnlyBound(s.group, ServerGroup.Launch(j));
      }
    case Wait => ServerGroup.StepKeepsOnlyBound(s.group, ServerGroup.WaitReturns);
    case _ =>
  }

  lemma {:induction false} RunKeepsDecided(s: State, more: seq<Action>, i: nat, ok: bool)
    requires Decided(s, i, ok) && Exec(Next, s, more).Some?
    ensures Decided(Exec(Next, s, more).value, i, ok)
    decreases |more|
  {
    if more != [] {
      var a := more[0];
      if a.Group? {
        GroupKeepsDecided(s, a.event, i, ok);
      } else if a.Main? {
        MainKeepsDecided(s, a.ok, i, ok);
      } else if !a.Collected? {
        OthersKeepGroup(s, a);
      }
      RunKeepsDecided(Next(s, more[0]).value, more[1..], i, ok);
    }
  }

  /**
   A server whose `Bind` fails is logged and left out: for the rest of the process it is not bound,
   never served and never shut down by the group; one whose `Bind` succeeds stays bound.
   */
  lemma BindDecides(acts: seq<Action>, ok: bool, more: seq<Action>)
    requires Exec(Next, INITIAL, acts).Some?
    requires var s := Exec(Next, INITIAL, acts).value;
             && s.main.Bind? && s.main.i < |s.group.servers|
             && Next(s, Main(ok)).Some? && Exec(Next, Next(s, Main(ok)).value, more).Some?
    ensures var s := Exec(Next, INITIAL, acts).value;
            var t := Exec(Next, Next(s, Main(ok)).value, more).value;
            && s.main.i < |t.group.servers| && t.group.servers[s.main.i].bound == ok
            && (!ok ==>
                  && t.group.servers[s.main.i].serve.NotServing?
                  && forall st :: st in t.group.stops && st.byGroup ==> st.server != s.main.i)
  {
    InvHolds(acts);
    var s := Exec(Next, INITIAL, acts).value;
    assert ServerGroup.OnlyBound(s.group);
    StepKeepsInv(s, Main(ok));
    var i := s.main.i;
    ServerGroup.StepKeepsOnlyBound(s.group, ServerGroup.Bound(i, ok));
    RunKeepsDecided(Next(s, Main(ok)).value, more, i, ok);
    RunKeepsInv(Next(s, Main(ok)).value, more);
  }

  /** Nothing has been launched and nothing will be. */
  ghost predicate Aborted(s: State) {
    && !Starting(s.main) && !s.main.Wait? && s.group.fan.FanOff? && s.signal.SignalOff?
    && forall srv :: srv in s.group.servers ==> srv.serve.NotServing?
  }

  lemma StepKeepsAborted(s: State, a: Action)
    requires Aborted(s) && Next(s, a).Some?
    ensures Aborted(Next(s, a).value)
  {
    var t := Next(s, a).value;
    if a.Group? {
      ServerGroup.OthersLaunchNothing(s.group, a.event);
      forall srv | srv in t.group.servers ensures srv.serve.NotServing? {
        var i: nat :| i < |t.group.servers| && t.group.servers[i] == srv;
        assert s.group.servers[i] in s.group.servers;
      }
    } else if !a.Main? && !a.Collected? {
      OthersKeepGroup(s, a);
    }
  }

  /**
   Without a server, or when a server context cannot be created, nothing is ever served: no group runs,
   and `Run` goes straight to closing what it created.
   */
  lemma NothingToServe(acts: seq<Action>, a: Action, more: seq<Action>)
    requires Exec(Next, INITIAL, acts).Some? && Exec(Next, INITIAL, acts).value.main.CreateContexts?
    requires a == Collected(0) || a == Main(false)
    requires var s := Exec(Next, INITIAL, acts).value;
             Next(s, a).Some? && Exec(Next, Next(s, a).value, more).Some?
    ensures Aborted(Exec(Next, Next(Exec(Next, INITIAL, acts).value, a).value, more).value)
  {
    InvHolds(acts);
    RunListens(INITIAL, acts, false) by { InvHolds([]); }
    forall s, a | Aborted(s) && Next(s, a).Some? ensures Aborted(Next(s, a).value) {
      StepKeepsAborted(s, a);
    }
    Invariant(Next, Aborted, Next(Exec(Next, INITIAL, acts).value, a).value, more);
  }

  // ----- The successor

  lemma {:induction false} RunStarts(s: State, acts: seq<Action>)
    requires Exec(Next, s, acts).Some?
    ensures var t := Exec(Next, s, acts).value;
            && ((forall a :: a in acts && a.Main? ==> a.ok) ==>
                  t.successors - s.successors == t.attempts - s.attempts)
            && ((forall a :: a in acts && a.Main? ==> !a.ok) ==> t.successors == s.successors)
    decreases |acts|
  {
    if acts != [] {
      assert forall a :: a in acts[1..] ==> a in acts;
      assert acts[0] in acts;
      RunStarts(Next(s, acts[0]).value, acts[1..]);
    }
  }

  /** A successor runs exactly when `Start` was called and succeeded. */
  lemma SuccessorsAreStarted(acts: seq<Action>)
    requires Exec(Next, INITIAL, acts).Some?
    ensures var s := Exec(Next, INITIAL, acts).value;
            && ((forall a :: a in acts && a.Main? ==> a.ok) ==> s.successors == s.attempts)
            && ((forall a :: a in acts && a.Main? ==> !a.ok) ==> s.successors == 0)
  {
    RunStarts(INITIAL, acts);
  }
}
