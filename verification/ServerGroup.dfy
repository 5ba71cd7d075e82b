/**
 The servers of a node and the error group that runs them: binding, the group's `Serve` calls, the
 goroutine that shuts every bound server down once the group context is cancelled, and the servers'
 own `Shutdown` and `Destroy`.

 `errgroup` is modelled by its contract: the group context is cancelled when its parent is, by the
 first goroutine that returns an error, and when `Wait` returns.  A server's `Shutdown` runs its
 body under a `sync.Once`, for the group and for every `Destroy` alike.
 */
module ServerGroup {
  import opened Options
  import opened Runs
  import opened Totals

  datatype ServePc = NotServing | Serving | Ended(ok: bool)

  datatype Once = Fresh | Busy(winner: nat) | Done

  /** `bodies` counts executions of the shutdown body, `closes` those of `close(shutdownCh)`. */
  datatype Server = Server(bound: bool, serve: ServePc, once: Once, bodies: nat, closes: nat)

  datatype StopPc = AtOnce | CloseChannel | StopServing | Returned

  /** One call of a server's `Shutdown`, by the group or through `Destroy`. */
  datatype Stop = Stop(server: nat, byGroup: bool, pc: StopPc)

  datatype FanPc = FanOff | FanWait | FanSpawn(i: nat) | FanEnded

  /** `parentDone` and `waited` record why the group context was cancelled. */
  datatype State = State(
    servers: seq<Server>, stops: seq<Stop>, fan: FanPc, cancelled: bool, parentDone: bool, waited: bool)

  function Initial(count: nat): State {
    State(seq(count, _ => Server(false, NotServing, Fresh, 0, 0)), [], FanOff, false, false, false)
  }

  datatype ServeResult = ReturnsNil | ReturnsClosed | ReturnsError

  datatype Action =
    | Bound(server: nat, ok: bool)
    | Launch(server: nat)                           // g.Go(server.Serve)
    | StartFan                                      // the fan-out goroutine starts to wait
    | ServeReturns(server: nat, result: ServeResult)
    | ParentDone                                    // the parent context is done
    | FanStep
    | StopStep(stop: nat, err: bool)                // one operation of a Shutdown call
    | Destroy(server: nat)
    | WaitReturns                                   // g.Wait

  /** `err == nil || strings.Contains(err.Error(), "closed")`. */
  predicate ServeOk(r: ServeResult) { !r.ReturnsError? }

  predicate GroupDone(s: State) {
    && (forall srv :: srv in s.servers && srv.bound ==> srv.serve.Ended?)
    && (forall st :: st in s.stops && st.byGroup ==> st.pc.Returned?)
  }

  function Next(s: State, a: Action): Option<State> {
    match a
    case Bound(i, ok) =>
      if i < |s.servers| && s.fan.FanOff? && s.servers[i].serve.NotServing?
      then Some(SetServer(s, i, s.servers[i].(bound := ok))) else None
    case Launch(i) =>
      if i < |s.servers| && s.fan.FanOff? && s.servers[i].bound && s.servers[i].serve.NotServing?
      then Some(SetServer(s, i, s.servers[i].(serve := Serving))) else None
    case StartFan => if s.fan.FanOff? then Some(s.(fan := FanWait)) else None
    case ServeReturns(i, r) =>
      if i < |s.servers| && s.servers[i].serve.Serving?
      then Some(SetServer(s, i, s.servers[i].(serve := Ended(ServeOk(r))))
                .(cancelled := s.cancelled || !ServeOk(r))) else None
    case ParentDone => Some(s.(cancelled := true, parentDone := true))
    case FanStep => FanNext(s)
    case StopStep(k, err) =>
      if k < |s.stops| && s.stops[k].server < |s.servers| then StopNext(s, k, err) else None
    case Destroy(i) =>
      if i < |s.servers| then Some(s.(stops := s.stops + [Stop(i, false, AtOnce)])) else None
    case WaitReturns =>
      if !s.fan.FanOff? && GroupDone(s) then Some(s.(waited := true, cancelled := true)) else None
  }

  function SetServer(s: State, i: nat, srv: Server): State
    requires i < |s.servers|
  {
    s.(servers := s.servers[i := srv])
  }

  function SetStop(s: State, k: nat, pc: StopPc): State
    requires k < |s.stops|
  {
    s.(stops := s.stops[k := s.stops[k].(pc := pc)])
  }

  function FanNext(s: State): Option<State> {
    match s.fan
    case FanWait => if s.cancelled then Some(s.(fan := FanSpawn(0))) else None
    case FanSpawn(i) =>
      if i >= |s.servers| then Some(s.(fan := FanEnded))
      else if !s.servers[i].bound then Some(s.(fan := FanSpawn(i + 1)))
      else Some(s.(fan := FanSpawn(i + 1), stops := s.stops + [Stop(i, true, AtOnce)]))
    case _ => None
  }

  /** One operation of the `k`-th call of a server's `Shutdown`. */
  function StopNext(s: State, k: nat, err: bool): Option<State>
    requires k < |s.stops| && s.stops[k].server < |s.servers|
  {
    var i := s.stops[k].server;
    var srv := s.servers[i];
    match s.stops[k].pc
    case AtOnce =>
      (match srv.once
       case Fresh => Some(SetStop(SetServer(s, i, srv.(once := Busy(k), bodies := srv.bodies + 1)),
                                  k, CloseChannel))
       case Busy(_) => None
       case Done => Some(SetStop(s, k, Returned)))
    case CloseChannel =>
      Some(SetStop(SetServer(s, i, srv.(closes := srv.closes + 1)), k, StopServing))
    case StopServing =>
      Some(SetStop(SetServer(s, i, srv.(once := Done)), k, Returned)
           .(cancelled := s.cancelled || (err && s.stops[k].byGroup)))
    case Returned => None
  }

  // ----- Every shutdown body runs at most once

  /** Server `i` agrees with the call that runs its shutdown body. */
  ghost predicate StopState(s: State, i: nat)
    requires i < |s.servers|
  {
    var srv := s.servers[i];
    match srv.once
    case Fresh => srv.bodies == 0 && srv.closes == 0
    case Busy(k) =>
      && k < |s.stops| && s.stops[k].server == i && srv.bodies == 1
      && (s.stops[k].pc.CloseChannel? || s.stops[k].pc.StopServing?)
      && srv.closes == (if s.stops[k].pc.StopServing? then 1 else 0)
    case Done => srv.bodies == 1 && srv.closes == 1
  }

  /** Call `k` agrees with its server. */
  ghost predicate CallState(s: State, k: nat)
    requires k < |s.stops|
  {
    var st := s.stops[k];
    && st.server < |s.servers|
    && (st.pc.CloseChannel? || st.pc.StopServing? ==> s.servers[st.server].once == Busy(k))
    && (st.pc.Returned? ==> s.servers[st.server].once == Done)
  }

  ghost predicate StopInv(s: State) {
    && (forall i: nat :: i < |s.servers| ==> StopState(s, i))
    && (forall k: nat :: k < |s.stops| ==> CallState(s, k))
  }

  lemma StopNextKeepsServers(s: State, k: nat, err: bool, i: nat)
    requires StopInv(s) && k < |s.stops| && s.stops[k].server < |s.servers| && i < |s.servers|
    requires StopNext(s, k, err).Some?
    ensures |StopNext(s, k, err).value.servers| == |s.servers|
    ensures StopState(StopNext(s, k, err).value, i)
  {
    assert CallState(s, k) && StopState(s, i) && StopState(s, s.stops[k].server);
  }

  lemma StopNextKeepsCalls(s: State, k: nat, err: bool, j: nat)
    requires StopInv(s) && k < |s.stops| && s.stops[k].server < |s.servers| && j < |s.stops|
    requires StopNext(s, k, err).Some?
    ensures |StopNext(s, k, err).value.stops| == |s.stops|
    ensures CallState(StopNext(s, k, err).value, j)
  {
    assert CallState(s, k) && CallState(s, j) && StopState(s, s.stops[k].server);
  }

  lemma OthersKeepStopInv(s: State, a: Action)
    requires StopInv(s) && !a.StopStep? && Next(s, a).Some?
    ensures StopInv(Next(s, a).value)
  {
    var t := Next(s, a).value;
    forall i: nat | i < |t.servers| ensures StopState(t, i) {
      assert StopState(s, i);
    }
    forall k: nat | k < |t.stops| ensures CallState(t, k) {
      if k < |s.stops| {
        assert CallState(s, k);
      }
    }
  }

  lemma StepKeepsStopInv(s: State, a: Action)
    requires StopInv(s) && Next(s, a).Some?
    ensures StopInv(Next(s, a).value)
  {
    if a.StopStep? {
      var t := Next(s, a).value;
      forall i: nat | i < |t.servers| ensures StopState(t, i) {
        StopNextKeepsServers(s, a.stop, a.err, i);
      }
      forall k: nat | k < |t.stops| ensures CallState(t, k) {
        StopNextKeepsCalls(s, a.stop, a.err, k);
      }
    } else {
      OthersKeepStopInv(s, a);
    }
  }

  // ----- The fan-out starts after cancellation and reaches every bound server

  predicate Fanning(f: FanPc) { f.FanSpawn? || f.FanEnded? }

  ghost predicate Spawned(s: State, i: nat) {
    exists k: nat :: k < |s.stops| && s.stops[k].server == i && s.stops[k].byGroup
  }

  /** The fan-out is past server `i`. */
  predicate Passed(f: FanPc, i: nat) { f.FanEnded? || (f.FanSpawn? && i < f.i) }

  ghost predicate FanInv(s: State) {
    && (Fanning(s.fan) ==> s.cancelled)
    && (s.fan.FanSpawn? ==> s.fan.i <= |s.servers|)
    && (forall k: nat :: k < |s.stops| && s.stops[k].byGroup ==>
          Fanning(s.fan) && s.stops[k].server < |s.servers|)
    && (forall i: nat :: i < |s.servers| && s.servers[i].bound && Passed(s.fan, i) ==> Spawned(s, i))
  }

  lemma SpawnedStays(s: State, a: Action, i: nat)
    requires Next(s, a).Some? && Spawned(s, i)
    ensures Spawned(Next(s, a).value, i)
  {
    var k: nat :| k < |s.stops| && s.stops[k].server == i && s.stops[k].byGroup;
    var t := Next(s, a).value;
    assert t.stops[k].server == i && t.stops[k].byGroup;
  }

  lemma StepKeepsCoverage(s: State, a: Action, i: nat)
    requires FanInv(s) && Next(s, a).Some?
    requires var t := Next(s, a).value; i < |t.servers| && t.servers[i].bound && Passed(t.fan, i)
    ensures Spawned(Next(s, a).value, i)
  {
    var t := Next(s, a).value;
    if a.FanStep? && s.fan.FanSpawn? && i == s.fan.i {
      assert t.stops[|s.stops|] == Stop(i, true, AtOnce);
    } else {
      assert s.servers[i].bound && Passed(s.fan, i);
      SpawnedStays(s, a, i);
    }
  }

  lemma StepKeepsFanInv(s: State, a: Action)
    requires FanInv(s) && Next(s, a).Some?
    ensures FanInv(Next(s, a).value)
  {
    var t := Next(s, a).value;
    forall i: nat | i < |t.servers| && t.servers[i].bound && Passed(t.fan, i) ensures Spawned(t, i) {
      StepKeepsCoverage(s, a, i);
    }
    forall k: nat | k < |t.stops| && t.stops[k].byGroup
      ensures Fanning(t.fan) && t.stops[k].server < |t.servers|
    {
      GroupCallsKept(s, a, k);
    }
    FanAfterCancel(s, a);
  }

  lemma GroupCallsKept(s: State, a: Action, k: nat)
    requires FanInv(s) && Next(s, a).Some?
    requires k < |Next(s, a).value.stops| && Next(s, a).value.stops[k].byGroup
    ensures var t := Next(s, a).value; Fanning(t.fan) && t.stops[k].server < |t.servers|
  {
    if a.FanStep? {
      FanSpawnsBound(s, k);
    } else if a.StopStep? {
      StopNextKeepsFan(s, a.stop, a.err);
    } else {
      OthersSpawnNothing(s, a, k);
    }
  }

  lemma FanSpawnsBound(s: State, k: nat)
    requires FanInv(s) && FanNext(s).Some?
    requires k < |FanNext(s).value.stops| && FanNext(s).value.stops[k].byGroup
    ensures var t := FanNext(s).value; Fanning(t.fan) && t.stops[k].server < |t.servers|
  {
    if k < |s.stops| {
      assert s.stops[k].byGroup;
    }
  }

  lemma StopNextKeepsFan(s: State, k: nat, err: bool)
    requires k < |s.stops| && s.stops[k].server < |s.servers| && StopNext(s, k, err).Some?
    ensures var t := StopNext(s, k, err).value;
            && t.fan == s.fan && |t.servers| == |s.servers| && |t.stops| == |s.stops|
            && forall j :: 0 <= j < |s.stops| ==>
                 t.stops[j].server == s.stops[j].server && t.stops[j].byGroup == s.stops[j].byGroup
  {
  }

  lemma OthersSpawnNothing(s: State, a: Action, k: nat)
    requires !a.FanStep? && !a.StopStep? && Next(s, a).Some?
    requires k < |Next(s, a).value.stops| && Next(s, a).value.stops[k].byGroup
    ensures var t := Next(s, a).value;
            && k < |s.stops| && t.stops[k] == s.stops[k] && |t.servers| == |s.servers|
            && (Fanning(s.fan) ==> Fanning(t.fan))
  {
  }

  lemma FanAfterCancel(s: State, a: Action)
    requires FanInv(s) && Next(s, a).Some?
    ensures var t := Next(s, a).value;
            (Fanning(t.fan) ==> t.cancelled) && (t.fan.FanSpawn? ==> t.fan.i <= |t.servers|)
  {
  }

  // ----- Serve calls, and what cancels the group

  ghost predicate SomeServeFailed(s: State) {
    exists i: nat :: i < |s.servers| && s.servers[i].serve == Ended(false)
  }

  ghost predicate ServeInv(s: State) {
    && (forall i: nat :: i < |s.servers| && !s.servers[i].serve.NotServing? ==> s.servers[i].bound)
    && (s.waited ==> !s.fan.FanOff?)
    && (s.waited ==> forall i: nat :: i < |s.servers| && s.servers[i].bound ==> s.servers[i].serve.Ended?)
    && (s.cancelled <==> s.parentDone || s.waited || SomeServeFailed(s))
  }

  lemma FailureStays(s: State, a: Action)
    requires Next(s, a).Some? && SomeServeFailed(s)
    ensures SomeServeFailed(Next(s, a).value)
  {
    var i: nat :| i < |s.servers| && s.servers[i].serve == Ended(false);
    assert Next(s, a).value.servers[i].serve == Ended(false);
  }

  lemma StepKeepsCause(s: State, a: Action)
    requires ServeInv(s) && FanInv(s) && Next(s, a).Some?
    ensures var t := Next(s, a).value;
            t.cancelled <==> t.parentDone || t.waited || SomeServeFailed(t)
  {
    var t := Next(s, a).value;
    if SomeServeFailed(s) {
      FailureStays(s, a);
    } else if a.ServeReturns? {
      assert t.servers[a.server].serve == Ended(ServeOk(a.result));
    }
    if t.cancelled && !s.cancelled {
      NewCancellation(s, a);
    }
    if SomeServeFailed(t) && !SomeServeFailed(s) {
      NewFailure(s, a);
    }
  }

  lemma NewCancellation(s: State, a: Action)
    requires FanInv(s) && Next(s, a).Some? && Next(s, a).value.cancelled && !s.cancelled
    ensures a.ParentDone? || a.WaitReturns? || (a.ServeReturns? && !ServeOk(a.result))
  {
  }

  lemma NewFailure(s: State, a: Action)
    requires Next(s, a).Some? && SomeServeFailed(Next(s, a).value) && !SomeServeFailed(s)
    ensures a.ServeReturns? && !ServeOk(a.result)
  {
    var t := Next(s, a).value;
    var i: nat :| i < |t.servers| && t.servers[i].serve == Ended(false);
    if a.StopStep? {
      StopNextKeepsServe(s, a.stop, a.err, i);
    } else {
      OnlyReturnsFail(s, a, i);
    }
  }

  lemma StopNextKeepsServe(s: State, k: nat, err: bool, i: nat)
    requires k < |s.stops| && s.stops[k].server < |s.servers| && StopNext(s, k, err).Some? && i < |s.servers|
    ensures var t := StopNext(s, k, err).value;
            |t.servers| == |s.servers| && t.servers[i].serve == s.servers[i].serve
  {
  }

  lemma OnlyReturnsFail(s: State, a: Action, i: nat)
    requires !a.StopStep? && Next(s, a).Some? && i < |Next(s, a).value.servers|
    requires Next(s, a).value.servers[i].serve == Ended(false)
    ensures i < |s.servers|
    ensures s.servers[i].serve == Ended(false) || (a.ServeReturns? && !ServeOk(a.result))
  {
  }

  lemma StepKeepsServeInv(s: State, a: Action)
    requires ServeInv(s) && FanInv(s) && Next(s, a).Some?
    ensures ServeInv(Next(s, a).value)
  {
    StepKeepsCause(s, a);
    var t := Next(s, a).value;
    assert t.waited ==> !t.fan.FanOff?;
    forall i: nat | i < |t.servers|
      ensures !t.servers[i].serve.NotServing? ==> t.servers[i].bound
      ensures t.waited && t.servers[i].bound ==> t.servers[i].serve.Ended?
    {
      ServeKept(s, a, i);
    }
  }

  lemma ServeKept(s: State, a: Action, i: nat)
    requires ServeInv(s) && Next(s, a).Some? && i < |Next(s, a).value.servers|
    ensures var t := Next(s, a).value;
            && (!t.servers[i].serve.NotServing? ==> t.servers[i].bound)
            && (t.waited && t.servers[i].bound ==> t.servers[i].serve.Ended?)
  {
    assert s.servers[i] in s.servers;
  }

  /** Only the main goroutine binds, launches, starts the fan-out or waits. */
  predicate ByMain(a: Action) { a.Bound? || a.Launch? || a.StartFan? || a.WaitReturns? }

  ghost predicate NothingLaunched(s: State, t: State) {
    && |t.servers| == |s.servers| && (t.fan.FanOff? <==> s.fan.FanOff?) && t.waited == s.waited
    && forall i: nat :: i < |s.servers| && s.servers[i].serve.NotServing? ==> t.servers[i].serve.NotServing?
  }

  lemma OthersLaunchNothing(s: State, a: Action)
    requires !ByMain(a) && Next(s, a).Some?
    ensures NothingLaunched(s, Next(s, a).value)
    ensures !a.ParentDone? ==> Next(s, a).value.parentDone == s.parentDone
  {
  }

  ghost predicate Inv(s: State) { StopInv(s) && FanInv(s) && ServeInv(s) }

  lemma StepKeepsInv(s: State, a: Action)
    requires Inv(s) && Next(s, a).Some?
    ensures Inv(Next(s, a).value)
  {
    StepKeepsStopInv(s, a);
    StepKeepsFanInv(s, a);
    StepKeepsServeInv(s, a);
  }

  lemma InvHolds(count: nat, acts: seq<Action>)
    requires Exec(Next, Initial(count), acts).Some?
    ensures Inv(Exec(Next, Initial(count), acts).value)
  {
    forall s, a | Inv(s) && Next(s, a).Some? ensures Inv(Next(s, a).value) {
      StepKeepsInv(s, a);
    }
    Invariant(Next, Inv, Initial(count), acts);
  }

  ghost predicate Finished(s: State) {
    && s.fan.FanEnded?
    && (forall st :: st in s.stops ==> st.pc.Returned?)
    && (forall srv :: srv in s.servers ==> !srv.serve.Serving?)
  }

  /** Server `i` has been shut down, once. */
  predicate StoppedOnce(s: State, i: nat)
    requires i < |s.servers|
  {
    s.servers[i].once.Done? && s.servers[i].bodies == 1 && s.servers[i].closes == 1
  }

  lemma SpawnedAndReturned(s: State, i: nat)
    requires Inv(s) && i < |s.servers| && Spawned(s, i)
    requires forall st :: st in s.stops ==> st.pc.Returned?
    ensures StoppedOnce(s, i)
  {
    var k: nat :| k < |s.stops| && s.stops[k].server == i && s.stops[k].byGroup;
    assert s.stops[k] in s.stops;
    assert CallState(s, k) && StopState(s, i);
  }

  /**
   All or nothing.  In every interleaving: no server is shut down by the group before the group
   context is cancelled; no shutdown body runs twice and no `shutdownCh` is closed twice, however
   `Shutdown` and `Destroy` calls interleave; and when all goroutines have finished, every bound
   server was shut down exactly once.
   */
  lemma AllOrNothing(count: nat, acts: seq<Action>)
    requires Exec(Next, Initial(count), acts).Some?
    ensures var s := Exec(Next, Initial(count), acts).value;
            && (forall st :: st in s.stops && st.byGroup ==> s.cancelled)
            && (forall srv :: srv in s.servers ==> srv.bodies <= 1 && srv.closes <= srv.bodies)
            && (Finished(s) ==>
                  forall i: nat :: i < |s.servers| && s.servers[i].bound ==> StoppedOnce(s, i))
  {
    InvHolds(count, acts);
    var s := Exec(Next, Initial(count), acts).value;
    forall srv | srv in s.servers ensures srv.bodies <= 1 && srv.closes <= srv.bodies {
      var i: nat :| i < |s.servers| && s.servers[i] == srv;
      assert StopState(s, i);
    }
    if Finished(s) {
      forall i: nat | i < |s.servers| && s.servers[i].bound ensures StoppedOnce(s, i) {
        SpawnedAndReturned(s, i);
      }
    }
  }

  /** What cancels a group context: its parent, `Wait`, and a `Serve` that returns an error. */
  predicate Cancels(a: Action) {
    a.ParentDone? || a.WaitReturns? || (a.ServeReturns? && a.result.ReturnsError?)
  }

  lemma StepCancels(s: State, a: Action)
    requires Inv(s) && Next(s, a).Some?
    ensures Next(s, a).value.cancelled <==> s.cancelled || Cancels(a)
  {
    if a.StopStep? {
      GroupStopIsCancelled(s, a.stop, a.err);
    }
  }

  lemma GroupStopIsCancelled(s: State, k: nat, err: bool)
    requires FanInv(s) && k < |s.stops| && s.stops[k].server < |s.servers| && StopNext(s, k, err).Some?
    ensures StopNext(s, k, err).value.cancelled == s.cancelled
  {
    assert s.stops[k].byGroup ==> s.cancelled;
  }

  lemma {:induction false} RunCancels(s: State, acts: seq<Action>)
    requires Inv(s) && Exec(Next, s, acts).Some?
    ensures Exec(Next, s, acts).value.cancelled <==> s.cancelled || exists a :: a in acts && Cancels(a)
    decreases |acts|
  {
    if acts != [] {
      StepCancels(s, acts[0]);
      StepKeepsInv(s, acts[0]);
      RunCancels(Next(s, acts[0]).value, acts[1..]);
      assert forall a :: a in acts <==> a == acts[0] || a in acts[1..];
    }
  }

  /**
   What cancels the group.  In every run the group context is cancelled exactly when the parent
   context was done, `Wait` returned, or some `Serve` returned an error; a `Serve` that returns nil, or
   an error mentioning "closed", leaves the other servers running.
   */
  lemma CancelledExactlyByFailure(count: nat, acts: seq<Action>)
    requires Exec(Next, Initial(count), acts).Some?
    ensures var s := Exec(Next, Initial(count), acts).value;
            && (s.cancelled <==> exists a :: a in acts && Cancels(a))
            && (!s.parentDone && !s.waited ==> (s.cancelled <==> SomeServeFailed(s)))
            && (s.parentDone || s.waited || SomeServeFailed(s) ==> s.cancelled)
  {
    InvHolds(count, []);
    InvHolds(count, acts);
    RunCancels(Initial(count), acts);
  }

  /** So "first server stops" alone does not cancel: one of two servers ends, nothing follows. */
  lemma FirstServerStoppingDoesNotCancel(result: ServeResult)
    requires result == ReturnsNil || result == ReturnsClosed
    ensures exists s :: && Reaches(Next, Initial(2), s) && |s.servers| == 2
                        && s.servers[0].serve.Ended? && s.servers[1].serve.Serving?
                        && !s.cancelled && s.fan.FanWait? && s.stops == []
  {
    var s := Initial(2);
    Here<State, Action>(Next, s);
    s := ServeBoth(s);
    Extend(Next, Initial(2), s, StartFan);
    s := Next(s, StartFan).value;
    Extend(Next, Initial(2), s, ServeReturns(0, result));
    s := Next(s, ServeReturns(0, result)).value;
    assert s.servers[0].serve.Ended? && s.servers[1].serve.Serving?;
  }

  lemma ServeBoth(s: State) returns (t: State)
    requires s == Initial(2) && Reaches(Next, Initial(2), s)
    ensures Reaches(Next, Initial(2), t) && |t.servers| == 2 && t.stops == [] && !t.cancelled && t.fan.FanOff?
    ensures t.servers[0].serve.Serving? && t.servers[1].serve.Serving?
  {
    t := s;
    Extend(Next, s, t, Bound(0, true));
    t := Next(t, Bound(0, true)).value;
    Extend(Next, s, t, Bound(1, true));
    t := Next(t, Bound(1, true)).value;
    Extend(Next, s, t, Launch(0));
    t := Next(t, Launch(0)).value;
    Extend(Next, s, t, Launch(1));
    t := Next(t, Launch(1)).value;
  }

  // ----- Only servers that were bound take part

  /** How the last `Bind` of server `i` turned out. */
  function Binds(acts: seq<Action>, i: nat): bool {
    if acts == [] then false
    else
      var last := acts[|acts| - 1];
      if last.Bound? && last.server == i then last.ok else Binds(acts[..|acts| - 1], i)
  }

  ghost predicate OnlyBound(s: State) {
    forall k: nat :: k < |s.stops| && s.stops[k].byGroup ==>
      !s.fan.FanOff? && s.stops[k].server < |s.servers| && s.servers[s.stops[k].server].bound
  }

  lemma StepBinds(s: State, a: Action, i: nat)
    requires Next(s, a).Some? && i < |s.servers|
    ensures var t := Next(s, a).value;
            && |t.servers| == |s.servers|
            && t.servers[i].bound == if a.Bound? && a.server == i then a.ok else s.servers[i].bound
  {
    if a.StopStep? {
      StopKeepsBound(s, a.stop, a.err, i);
    }
  }

  lemma StopKeepsBound(s: State, k: nat, err: bool, i: nat)
    requires k < |s.stops| && s.stops[k].server < |s.servers| && i < |s.servers| && StopNext(s, k, err).Some?
    ensures var t := StopNext(s, k, err).value;
            |t.servers| == |s.servers| && t.servers[i].bound == s.servers[i].bound
  {
  }

  lemma StepSpawnsBound(s: State, a: Action, k: nat)
    requires OnlyBound(s) && Next(s, a).Some? && k < |Next(s, a).value.stops|
    requires Next(s, a).value.stops[k].byGroup
    ensures var t := Next(s, a).value;
            && !t.fan.FanOff? && t.stops[k].server < |s.servers| && s.servers[t.stops[k].server].bound
            && !a.Bound?
  {
    if a.StopStep? {
      StopNextKeepsFan(s, a.stop, a.err);
    } else if k < |s.stops| {
      OthersKeepStop(s, a, k);
    }
  }

  lemma OthersKeepStop(s: State, a: Action, k: nat)
    requires !a.StopStep? && Next(s, a).Some? && k < |s.stops|
    ensures var t := Next(s, a).value;
            k < |t.stops| && t.stops[k] == s.stops[k] && (!s.fan.FanOff? ==> !t.fan.FanOff? && !a.Bound?)
  {
  }

  lemma StepKeepsOnlyBound(s: State, a: Action)
    requires OnlyBound(s) && Next(s, a).Some?
    ensures OnlyBound(Next(s, a).value)
  {
    var t := Next(s, a).value;
    forall k: nat | k < |t.stops| && t.stops[k].byGroup
      ensures !t.fan.FanOff? && t.stops[k].server < |t.servers| && t.servers[t.stops[k].server].bound
    {
      StepSpawnsBound(s, a, k);
      StepBinds(s, a, t.stops[k].server);
    }
  }

  lemma {:induction false} RunBinds(count: nat, acts: seq<Action>, i: nat)
    requires Exec(Next, Initial(count), acts).Some? && i < count
    ensures var s := Exec(Next, Initial(count), acts).value;
            |s.servers| == count && s.servers[i].bound == Binds(acts, i)
    decreases |acts|
  {
    if acts != [] {
      var front, last := acts[..|acts| - 1], acts[|acts| - 1];
      assert acts == front + [last];
      PrefixRuns(Next, Initial(count), front, last);
      RunBinds(count, front, i);
      StepBinds(Exec(Next, Initial(count), front).value, last, i);
    }
  }

  /**
   A server takes part exactly if its `Bind` succeeded: the others are never served, and never shut
   down by the group.
   */
  lemma OnlyBoundTakePart(count: nat, acts: seq<Action>, i: nat)
    requires Exec(Next, Initial(count), acts).Some? && i < count
    ensures var s := Exec(Next, Initial(count), acts).value;
            && |s.servers| == count && s.servers[i].bound == Binds(acts, i)
            && (!Binds(acts, i) ==>
                  && s.servers[i].serve.NotServing?
                  && forall st :: st in s.stops && st.byGroup ==> st.server != i)
  {
    InvHolds(count, acts);
    RunBinds(count, acts, i);
    forall s, a | OnlyBound(s) && Next(s, a).Some? ensures OnlyBound(Next(s, a).value) {
      StepKeepsOnlyBound(s, a);
    }
    Invariant(Next, OnlyBound, Initial(count), acts);
  }

  /**
   `Wait` returns only when every bound server's `Serve` and every shutdown by the group has returned;
   so if the fan-out has ended by then, every bound server has been stopped, exactly once.
   */
  lemma WaitCollects(count: nat, acts: seq<Action>)
    requires Exec(Next, Initial(count), acts).Some?
    requires Next(Exec(Next, Initial(count), acts).value, WaitReturns).Some?
    ensures var s := Exec(Next, Initial(count), acts).value;
            forall i: nat :: i < |s.servers| && s.servers[i].bound ==>
              s.servers[i].serve.Ended? && (s.fan.FanEnded? ==> StoppedOnce(s, i))
  {
    InvHolds(count, acts);
    var s := Exec(Next, Initial(count), acts).value;
    forall i: nat | i < |s.servers| && s.servers[i].bound
      ensures s.servers[i].serve.Ended? && (s.fan.FanEnded? ==> StoppedOnce(s, i))
    {
      assert s.servers[i] in s.servers;
      if s.fan.FanEnded? {
        var k: nat :| k < |s.stops| && s.stops[k].server == i && s.stops[k].byGroup;
        assert s.stops[k] in s.stops;
        assert CallState(s, k) && StopState(s, i);
      }
    }
  }

  // ----- A cancelled group stops every bound server

  predicate Own(a: Action) { a.FanStep? || a.StopStep? }

  function Rank(pc: StopPc): nat {
    match pc
    case AtOnce => 3
    case CloseChannel => 2
    case StopServing => 1
    case Returned => 0
  }

  function StopRank(st: Stop): nat { Rank(st.pc) }

  function FanWork(s: State): nat {
    match s.fan
    case FanOff | FanEnded => 0
    case FanWait => 4 * |s.servers| + 2
    case FanSpawn(i) => if i <= |s.servers| then 4 * (|s.servers| - i) + 1 else 0
  }

  function Work(s: State): nat { FanWork(s) + Total(StopRank, s.stops) }

  ghost predicate SameServers(s: State, t: State) {
    && |t.servers| == |s.servers| && (s.cancelled ==> t.cancelled) && (!s.fan.FanOff? ==> !t.fan.FanOff?)
    && forall i: nat :: i < |s.servers| ==> t.servers[i].bound == s.servers[i].bound
  }

  lemma OwnStepWorks(s: State, a: Action)
    requires Inv(s) && Own(a) && Next(s, a).Some?
    ensures Work(Next(s, a).value) < Work(s) && SameServers(s, Next(s, a).value)
  {
    var t := Next(s, a).value;
    if a.StopStep? {
      StopStepWorks(s, a.stop, a.err);
    } else if |t.stops| > |s.stops| {
      TotalAppend(StopRank, s.stops, Stop(s.fan.i, true, AtOnce));
    }
  }

  lemma StopStepWorks(s: State, k: nat, err: bool)
    requires k < |s.stops| && s.stops[k].server < |s.servers| && StopNext(s, k, err).Some?
    ensures var t := StopNext(s, k, err).value;
            t.fan == s.fan && Total(StopRank, t.stops) < Total(StopRank, s.stops) && SameServers(s, t)
  {
    var t := StopNext(s, k, err).value;
    var pc := StopMoves(s, k, err);
    TotalUpdate(StopRank, s.stops, k, s.stops[k].(pc := pc));
  }

  lemma StopMoves(s: State, k: nat, err: bool) returns (pc: StopPc)
    requires k < |s.stops| && s.stops[k].server < |s.servers| && StopNext(s, k, err).Some?
    ensures var t := StopNext(s, k, err).value;
            t.fan == s.fan && SameServers(s, t) && t.stops == s.stops[k := s.stops[k].(pc := pc)]
    ensures Rank(pc) < Rank(s.stops[k].pc)
  {
    pc := match s.stops[k].pc
      case AtOnce => if s.servers[s.stops[k].server].once.Fresh? then CloseChannel else Returned
      case CloseChannel => StopServing
      case _ => Returned;
  }

  lemma {:induction false} OwnRunBounded(s: State, acts: seq<Action>)
    requires Inv(s) && Exec(Next, s, acts).Some? && forall a :: a in acts ==> Own(a)
    ensures var t := Exec(Next, s, acts).value;
            Inv(t) && |acts| + Work(t) <= Work(s) && SameServers(s, t)
    decreases |acts|
  {
    if acts != [] {
      assert acts[0] in acts;
      OwnStepWorks(s, acts[0]);
      StepKeepsInv(s, acts[0]);
      OwnRunBounded(Next(s, acts[0]).value, acts[1..]);
    }
  }

  ghost predicate Stuck(s: State) {
    forall a :: Own(a) ==> Next(s, a).None?
  }

  /** No `Shutdown` call waits forever: while one is open, one of them can proceed. */
  lemma OpenStopCanStep(s: State, k: nat)
    requires Inv(s) && k < |s.stops| && !s.stops[k].pc.Returned?
    ensures !Stuck(s)
  {
    assert CallState(s, k) && StopState(s, s.stops[k].server);
    var j := match s.servers[s.stops[k].server].once case Busy(w) => w case _ => k;
    assert CallState(s, j);
    assert Own(StopStep(j, false)) && Next(s, StopStep(j, false)).Some?;
  }

  lemma OpenFanCanStep(s: State)
    requires s.cancelled && (s.fan.FanWait? || s.fan.FanSpawn?)
    ensures !Stuck(s)
  {
    assert Own(FanStep) && Next(s, FanStep).Some?;
  }

  /**
   From any reachable state with a cancelled group and a waiting fan-out: shutting down takes at
   most `Work` operations, and when none is left to do every bound server was stopped exactly once.
   */
  lemma CancelledGroupStopsEveryServer(count: nat, acts: seq<Action>, own: seq<Action>)
    requires Exec(Next, Initial(count), acts).Some?
    requires var s := Exec(Next, Initial(count), acts).value;
             s.cancelled && !s.fan.FanOff? && Exec(Next, s, own).Some?
    requires forall a :: a in own ==> Own(a)
    ensures var s := Exec(Next, Initial(count), acts).value;
            var t := Exec(Next, s, own).value;
            && |own| <= Work(s) && |t.servers| == |s.servers|
            && (Stuck(t) ==>
                  forall i: nat :: i < |t.servers| && s.servers[i].bound ==> StoppedOnce(t, i))
  {
    InvHolds(count, acts);
    var s := Exec(Next, Initial(count), acts).value;
    OwnRunBounded(s, own);
    var t := Exec(Next, s, own).value;
    if Stuck(t) {
      if t.fan.FanWait? || t.fan.FanSpawn? {
        OpenFanCanStep(t);
      }
      if k: nat :| k < |t.stops| && !t.stops[k].pc.Returned? {
        OpenStopCanStep(t, k);
      }
      forall i: nat | i < |t.servers| && s.servers[i].bound ensures StoppedOnce(t, i) {
        SpawnedAndReturned(t, i);
      }
    }
  }
}
