/**
 The freeze/trigger protocol of the autoupdate service.

 Every goroutine inside `Freeze`, `Unfreeze`, `triggerUpdate` or a timer callback is a thread with
 a program counter; one action executes one atomic or map operation.  `hasFreezeJob` is one step.
 A pending timer may fire at any moment, which covers every delay.
 */
module Autoupdate {
  import opened Options
  import opened Runs
  import opened Totals

  datatype Pc =
    | FreezeInc(job: string)               // about to take the next handle
    | FreezeStore(id: int, job: string)    // about to store the handle in the freeze map
    | UnfreezeDelete(handle: int)          // about to delete the handle
    | UnfreezeHas                          // about to look for a remaining freeze job
    | UnfreezeLoad                         // saw none, about to load triggerAfterUnfreeze
    | TriggerHas                           // triggerUpdate, first look for a freeze job
    | TriggerDefer                         // saw one, about to set triggerAfterUnfreeze
    | TriggerHasAgain                      // second look
    | TriggerClock                         // about to read the clock
    | TriggerStamp(current: int)           // about to store the timestamp
    | TriggerArm(current: int)             // about to start the timer
    | FireCheck(current: int)              // timer callback, about to compare timestamps
    | FireLock                             // about to probe the file lock
    | FireShutdown                         // about to call Application.Shutdown(true)
    | Returned

  /** `requested` and `restarts` are history: an update was asked for, and how often the service
      has called `Shutdown(true)`.  `down` is the application's shutdown, whoever asked for it. */
  datatype State = State(
    nextId: int, frozen: map<int, string>, deferred: bool, stamp: int,
    timers: multiset<int>, threads: seq<Pc>,
    down: bool, requested: bool, restarts: nat)

  datatype Action =
    | CallFreeze(job: string)
    | CallUnfreeze(handle: int)
    | FileEvent                                  // onEvent calls triggerUpdate
    | Fire(current: int)                         // a pending timer goes off
    | Step(thread: nat, now: int, locked: bool)  // one operation; `now`, `locked` are what it reads
    | ShutdownElsewhere                          // another source shuts the application down

  const INITIAL := State(0, map[], false, 0, multiset{}, [], false, false, 0)

  function Next(s: State, a: Action): Option<State> {
    match a
    case CallFreeze(job) => Some(s.(threads := s.threads + [FreezeInc(job)]))
    case CallUnfreeze(h) => Some(s.(threads := s.threads + [UnfreezeDelete(h)]))
    case FileEvent => Some(s.(threads := s.threads + [TriggerHas], requested := true))
    case Fire(c) =>
      if c !in s.timers then None
      else Some(s.(timers := s.timers - multiset{c}, threads := s.threads + [FireCheck(c)]))
    case Step(i, now, locked) =>
      if i >= |s.threads| || s.threads[i].Returned? then None
      else Some(Operation(s, i, now, locked))
    case ShutdownElsewhere => Some(s.(down := true))
  }

  /** The next operation of thread `i`: what it does to the shared state, then where it goes. */
  function Operation(s: State, i: nat, now: int, locked: bool): State
    requires i < |s.threads|
  {
    Effect(s, s.threads[i]).(threads := s.threads[i := Goto(s, s.threads[i], now, locked)])
  }

  function Effect(s: State, pc: Pc): State {
    match pc
    case FreezeInc(_) => s.(nextId := s.nextId + 1)
    case FreezeStore(id, job) => s.(frozen := s.frozen[id := job])
    case UnfreezeDelete(h) => s.(frozen := s.frozen - {h})
    case TriggerDefer => s.(deferred := true)
    case TriggerStamp(c) => s.(stamp := c)
    case TriggerArm(c) => s.(timers := s.timers + multiset{c})
    case FireShutdown => s.(down := true, restarts := s.restarts + 1)
    case _ => s
  }

  function Goto(s: State, pc: Pc, now: int, locked: bool): Pc {
    match pc
    case FreezeInc(job) => FreezeStore(s.nextId + 1, job)
    case UnfreezeDelete(_) => UnfreezeHas
    case UnfreezeHas => if s.frozen != map[] then Returned else UnfreezeLoad
    case UnfreezeLoad => if s.deferred then TriggerHas else Returned
    case TriggerHas => if s.frozen != map[] then TriggerDefer else TriggerClock
    case TriggerDefer => TriggerHasAgain
    case TriggerHasAgain => if s.frozen != map[] then Returned else TriggerClock
    case TriggerClock => TriggerStamp(now)
    case TriggerStamp(c) => TriggerArm(c)
    case FireCheck(c) => if s.stamp == c then FireLock else Returned
    case FireLock => if locked then TriggerHas else FireShutdown
    case FreezeStore(_, _) | TriggerArm(_) | FireShutdown | Returned => Returned
  }

  // ----- No update is lost

  /** Thread `i` is sure to carry a requested update on: to a timer, a restart or a set flag. */
  ghost predicate Carries(s: State, i: nat)
    requires i < |s.threads|
  {
    match s.threads[i]
    case UnfreezeHas | UnfreezeLoad | TriggerHasAgain => s.deferred
    case TriggerHas | TriggerDefer | TriggerClock | FireLock | FireShutdown => true
    case TriggerStamp(_) => true
    case TriggerArm(c) => c == s.stamp
    case FireCheck(c) => c == s.stamp
    case _ => false
  }

  ghost predicate Carried(s: State) {
    || s.down
    || s.stamp in s.timers
    || (s.frozen != map[] && s.deferred)
    || exists i: nat :: i < |s.threads| && Carries(s, i)
  }

  ghost predicate Inv(s: State) {
    && (s.requested ==> Carried(s))
    && (forall i: nat :: i < |s.threads| && s.threads[i].TriggerHasAgain? ==> s.deferred)
  }

  lemma OperationKeepsCarried(s: State, a: Action)
    requires Inv(s) && s.requested && a.Step? && Next(s, a).Some?
    ensures Carried(Next(s, a).value)
  {
    var i, t := a.thread, Next(s, a).value;
    if Carries(s, i) {
      assert Carries(t, i) || t.down || t.stamp in t.timers || (t.frozen != map[] && t.deferred);
    } else if k: nat :| k < |s.threads| && Carries(s, k) {
      assert Carries(t, k) || Carries(t, i);
    } else if s.frozen != map[] && s.deferred {
      assert (t.frozen != map[] && t.deferred) || Carries(t, i);
    }
  }

  lemma SpawnKeepsCarried(s: State, a: Action)
    requires Inv(s) && !a.Step? && Next(s, a).Some? && Next(s, a).value.requested
    ensures Carried(Next(s, a).value)
  {
    var t := Next(s, a).value;
    if k: nat :| k < |s.threads| && Carries(s, k) {
      assert Carries(t, k);
    } else if a.FileEvent? || a.Fire? {
      assert Carries(t, |s.threads|) || s.down || s.stamp in t.timers || (s.frozen != map[] && s.deferred);
    }
  }

  lemma DeferredKept(s: State, a: Action)
    requires Inv(s) && Next(s, a).Some?
    ensures var t := Next(s, a).value;
            forall i: nat :: i < |t.threads| && t.threads[i].TriggerHasAgain? ==> t.deferred
  {
    var t := Next(s, a).value;
    assert s.deferred ==> t.deferred;
    forall i: nat | i < |t.threads| && t.threads[i].TriggerHasAgain? ensures t.deferred {
      if i < |s.threads| && t.threads[i] == s.threads[i] {
        assert s.threads[i].TriggerHasAgain?;
      } else {
        NewThreadState(s, a, i);
      }
    }
  }

  lemma NewThreadState(s: State, a: Action, i: nat)
    requires Next(s, a).Some? && i < |Next(s, a).value.threads|
    requires !(i < |s.threads| && Next(s, a).value.threads[i] == s.threads[i])
    ensures Next(s, a).value.threads[i].TriggerHasAgain? ==> Next(s, a).value.deferred
  {
  }

  lemma StepKeepsInv(s: State, a: Action)
    requires Inv(s) && Next(s, a).Some?
    ensures Inv(Next(s, a).value)
  {
    DeferredKept(s, a);
    if Next(s, a).value.requested {
      if a.Step? {
        OperationKeepsCarried(s, a);
      } else {
        SpawnKeepsCarried(s, a);
      }
    }
  }

  lemma InvHolds(acts: seq<Action>)
    requires Exec(Next, INITIAL, acts).Some?
    ensures Inv(Exec(Next, INITIAL, acts).value)
  {
    forall s, a | Inv(s) && Next(s, a).Some? ensures Inv(Next(s, a).value) {
      StepKeepsInv(s, a);
    }
    Invariant(Next, Inv, INITIAL, acts);
  }

  ghost predicate Idle(s: State) {
    forall pc :: pc in s.threads ==> pc.Returned?
  }

  /**
   No update is lost.  Once an update has been requested, in every reachable state the application
   is down, or a freeze handle is held, or a goroutine is still inside one of the operations, or a
   timer carrying the stored timestamp is pending.  With no goroutine inside, a held handle always
   comes with the flag that makes its `Unfreeze` trigger the update again.
   */
  lemma NoUpdateLost(acts: seq<Action>)
    requires Exec(Next, INITIAL, acts).Some? && Exec(Next, INITIAL, acts).value.requested
    ensures var s := Exec(Next, INITIAL, acts).value;
            && (s.down || s.frozen != map[] || !Idle(s) || s.stamp in s.timers)
            && (Idle(s) ==> s.down || (s.frozen != map[] && s.deferred) || s.stamp in s.timers)
  {
    InvHolds(acts);
    var s := Exec(Next, INITIAL, acts).value;
    if i: nat :| i < |s.threads| && Carries(s, i) {
      assert s.threads[i] in s.threads;
    }
  }

  // ----- A requested update ends in a restart

  function Rank(pc: Pc): nat {
    match pc
    case UnfreezeDelete(_) => 13
    case UnfreezeHas => 12
    case UnfreezeLoad => 11
    case TriggerHas => 10
    case TriggerDefer => 9
    case TriggerHasAgain => 8
    case TriggerClock => 7
    case TriggerStamp(_) => 6
    case TriggerArm(_) => 5
    case FireCheck(_) => 3
    case FireLock | FreezeInc(_) => 2
    case FireShutdown | FreezeStore(_, _) => 1
    case Returned => 0
  }

  /** How many operations are left to run, counting those of the timers still to fire. */
  function Work(s: State): nat {
    Total(Rank, s.threads) + 4 * |s.timers|
  }

  /** The actions of the service itself while the file is not locked: no new calls or events. */
  predicate Own(a: Action) {
    a.Fire? || (a.Step? && !a.locked)
  }

  lemma OperationWorks(s: State, i: nat, now: int)
    requires i < |s.threads| && !s.threads[i].Returned?
    ensures var t := Operation(s, i, now, false);
            Rank(t.threads[i]) + 4 * |t.timers| < Rank(s.threads[i]) + 4 * |s.timers|
  {
    var t := Operation(s, i, now, false);
    if s.threads[i].TriggerArm? {
      assert t.threads[i] == Returned && |t.timers| == |s.timers| + 1;
    } else {
      assert t.timers == s.timers;
    }
  }

  /** Left to itself the service shuts the application down only by a restart. */
  ghost predicate RestartsOnlyDown(s: State, t: State) {
    && t.requested == s.requested && t.restarts >= s.restarts
    && (s.down ==> t.down)
    && (t.down && !s.down ==> t.restarts > s.restarts)
  }

  lemma OwnStepWorks(s: State, a: Action)
    requires Own(a) && Next(s, a).Some?
    ensures Work(Next(s, a).value) < Work(s) && RestartsOnlyDown(s, Next(s, a).value)
  {
    if a.Fire? {
      TotalAppend(Rank, s.threads, FireCheck(a.current));
    } else {
      OperationWorks(s, a.thread, a.now);
      TotalUpdate(Rank, s.threads, a.thread, Next(s, a).value.threads[a.thread]);
    }
  }

  lemma {:induction false} OwnRunBounded(s: State, acts: seq<Action>)
    requires Exec(Next, s, acts).Some?
    requires forall a :: a in acts ==> Own(a)
    ensures |acts| + Work(Exec(Next, s, acts).value) <= Work(s)
    ensures RestartsOnlyDown(s, Exec(Next, s, acts).value)
    decreases |acts|
  {
    if acts != [] {
      assert acts[0] in acts;
      OwnStepWorks(s, acts[0]);
      OwnRunBounded(Next(s, acts[0]).value, acts[1..]);
    }
  }

  ghost predicate Stuck(s: State) {
    forall a :: Own(a) ==> Next(s, a).None?
  }

  lemma Member(m: multiset<int>) returns (c: int)
    requires m != multiset{}
    ensures c in m
  {
    if forall x :: x !in m {
      assert false;
    }
    c :| c in m;
  }

  lemma BusyCanStep(s: State)
    requires s.timers != multiset{} || !Idle(s)
    ensures !Stuck(s)
  {
    if Idle(s) {
      var c := Member(s.timers);
      assert Own(Fire(c)) && Next(s, Fire(c)).Some?;
    } else {
      var i: nat :| i < |s.threads| && !s.threads[i].Returned?;
      assert Own(Step(i, 0, false)) && Next(s, Step(i, 0, false)).Some?;
    }
  }

  /** At rest, with no handle held, a requested update has restarted the application or found it down. */
  lemma RestRestarts(acts: seq<Action>, quiet: seq<Action>)
    requires Exec(Next, INITIAL, acts).Some?
    requires forall a :: a in quiet ==> Own(a)
    requires Exec(Next, Exec(Next, INITIAL, acts).value, quiet).Some?
    ensures var s := Exec(Next, INITIAL, acts).value;
            var t := Exec(Next, s, quiet).value;
            && |quiet| <= Work(s)
            && (Stuck(t) ==> Idle(t))
            && (Stuck(t) && s.requested && t.frozen == map[] && !s.down ==> t.restarts > s.restarts)
  {
    var s := Exec(Next, INITIAL, acts).value;
    var t := Exec(Next, s, quiet).value;
    OwnRunBounded(s, quiet);
    Compose(Next, INITIAL, acts, quiet);
    if Stuck(t) {
      if t.timers != multiset{} || !Idle(t) {
        BusyCanStep(t);
      }
      if s.requested {
        NoUpdateLost(acts + quiet);
      }
    }
  }

  /** In this run from `s`, every handle that a `Freeze` stores is given to `Unfreeze` afterwards. */
  ghost predicate AllReleased(s: State, acts: seq<Action>)
    requires Exec(Next, s, acts).Some?
    decreases |acts|
  {
    acts == [] || (
      && (forall id, job :: Stores(s, acts[0], id, job) ==> CallUnfreeze(id) in acts[1..])
      && AllReleased(Next(s, acts[0]).value, acts[1..]))
  }

  predicate Stores(s: State, a: Action, id: int, job: string) {
    a.Step? && a.thread < |s.threads| && s.threads[a.thread] == FreezeStore(id, job)
  }

  /** Every held handle is about to be deleted, or will be given to `Unfreeze` in what follows. */
  ghost predicate Leaving(s: State, acts: seq<Action>) {
    forall h :: h in s.frozen ==> UnfreezeDelete(h) in s.threads || CallUnfreeze(h) in acts
  }

  lemma StepKeepsLeaving(s: State, acts: seq<Action>)
    requires acts != [] && Next(s, acts[0]).Some? && Leaving(s, acts)
    requires forall id, job :: Stores(s, acts[0], id, job) ==> CallUnfreeze(id) in acts[1..]
    ensures Leaving(Next(s, acts[0]).value, acts[1..])
  {
    var a, t := acts[0], Next(s, acts[0]).value;
    forall h | h in t.frozen ensures UnfreezeDelete(h) in t.threads || CallUnfreeze(h) in acts[1..] {
      if h !in s.frozen {
        StoredHere(s, a, h);
      } else if CallUnfreeze(h) == a {
        assert t.threads[|s.threads|] == UnfreezeDelete(h);
      } else if UnfreezeDelete(h) in s.threads {
        DeleteStays(s, a, h);
      } else {
        assert CallUnfreeze(h) in acts;
      }
    }
  }

  lemma StoredHere(s: State, a: Action, h: int)
    requires Next(s, a).Some? && h in Next(s, a).value.frozen && h !in s.frozen
    ensures exists job :: Stores(s, a, h, job)
  {
    assert a.Step?;
    assert s.threads[a.thread].FreezeStore?;
    assert Stores(s, a, h, s.threads[a.thread].job);
  }

  lemma DeleteStays(s: State, a: Action, h: int)
    requires Next(s, a).Some? && UnfreezeDelete(h) in s.threads && h in Next(s, a).value.frozen
    ensures UnfreezeDelete(h) in Next(s, a).value.threads
  {
    var i: nat :| i < |s.threads| && s.threads[i] == UnfreezeDelete(h);
    assert Next(s, a).value.threads[i] == UnfreezeDelete(h);
  }

  lemma {:induction false} ReleasedHandlesLeave(s: State, acts: seq<Action>)
    requires Exec(Next, s, acts).Some? && AllReleased(s, acts) && Leaving(s, acts)
    ensures Leaving(Exec(Next, s, acts).value, [])
    decreases |acts|
  {
    if acts != [] {
      StepKeepsLeaving(s, acts);
      ReleasedHandlesLeave(Next(s, acts[0]).value, acts[1..]);
    }
  }

  /**
   From any reachable state, leave the service to itself with an unlocked file.  It performs at most
   `Work` operations, in whatever order, and comes to rest with nobody inside; and if every handle
   that was stored has been given to `Unfreeze`, no handle is held then and a requested update has
   restarted the application, unless that was already down.
   */
  lemma RequestedUpdateRestarts(acts: seq<Action>, quiet: seq<Action>)
    requires Exec(Next, INITIAL, acts + quiet).Some? && Exec(Next, INITIAL, acts).Some?
    requires forall a :: a in quiet ==> Own(a)
    requires Exec(Next, Exec(Next, INITIAL, acts).value, quiet).Some?
    ensures var s := Exec(Next, INITIAL, acts).value;
            var t := Exec(Next, s, quiet).value;
            && |quiet| <= Work(s)
            && (Stuck(t) ==> Idle(t))
            && (Stuck(t) && s.requested && t.frozen == map[] && !s.down ==> t.restarts > s.restarts)
            && (Stuck(t) && AllReleased(INITIAL, acts + quiet) ==>
                  t.frozen == map[] && (s.requested && !s.down ==> t.restarts > s.restarts))
  {
    RestRestarts(acts, quiet);
    Compose(Next, INITIAL, acts, quiet);
    var t := Exec(Next, INITIAL, acts + quiet).value;
    if Stuck(t) && AllReleased(INITIAL, acts + quiet) {
      ReleasedHandlesLeave(INITIAL, acts + quiet);
      assert forall h :: h !in t.frozen;
    }
  }

  // ----- One operation running alone

  function Froze(s: State, job: string): State {
    s.(nextId := s.nextId + 1, frozen := s.frozen[s.nextId + 1 := job])
  }

  function Triggered(s: State, now: int): State {
    if s.frozen != map[] then s.(deferred := true) else s.(stamp := now, timers := s.timers + multiset{now})
  }

  function Unfroze(s: State, h: int, now: int): State {
    var t := s.(frozen := s.frozen - {h});
    if t.frozen == map[] && t.deferred then Triggered(t, now) else t
  }

  /** A superseded timer does nothing; the current one restarts, or tries again while the file is locked. */
  function Fired(s: State, c: int, now: int, locked: bool): State {
    if c != s.stamp then s
    else if locked then Triggered(s, now)
    else s.(down := true, restarts := s.restarts + 1)
  }

  /** What a call, an event or a timer does to the service when nothing else runs meanwhile. */
  function Serially(s: State, a: Action, now: int, locked: bool): State
    requires a.CallFreeze? || a.CallUnfreeze? || a.FileEvent? || a.Fire?
  {
    match a
    case CallFreeze(job) => Froze(s, job)
    case CallUnfreeze(h) => Unfroze(s, h, now)
    case FileEvent => Triggered(s, now).(requested := true)
    case Fire(c) => Fired(s.(timers := s.timers - multiset{c}), c, now, locked)
  }

  /** Bounds the operations of one thread, also while the file is locked. */
  function Left(pc: Pc): nat {
    match pc
    case UnfreezeDelete(_) => 10
    case UnfreezeHas | FireCheck(_) => 9
    case UnfreezeLoad | FireLock => 8
    case TriggerHas => 7
    case TriggerDefer => 6
    case TriggerHasAgain => 5
    case TriggerClock => 4
    case TriggerStamp(_) => 3
    case TriggerArm(_) | FreezeInc(_) => 2
    case FireShutdown | FreezeStore(_, _) => 1
    case Returned => 0
  }

  /** Thread `i` takes steps until it returns, with these readings. */
  function RunAlone(s: State, i: nat, now: int, locked: bool): State
    requires i < |s.threads|
    decreases Left(s.threads[i])
  {
    if s.threads[i].Returned? then s else RunAlone(Operation(s, i, now, locked), i, now, locked)
  }

  lemma {:induction false} RunAloneIsRun(s: State, i: nat, now: int, locked: bool)
    requires i < |s.threads|
    ensures Reaches(Next, s, RunAlone(s, i, now, locked))
    decreases Left(s.threads[i])
  {
    if s.threads[i].Returned? {
      Here<State, Action>(Next, s);
    } else {
      var t := Operation(s, i, now, locked);
      RunAloneIsRun(t, i, now, locked);
      var acts: seq<Action> :| Exec(Next, t, acts) == Some(RunAlone(t, i, now, locked));
      assert ([Step(i, now, locked)] + acts)[1..] == acts;
      assert Exec(Next, s, [Step(i, now, locked)] + acts) == Some(RunAlone(s, i, now, locked));
    }
  }

  lemma ArmAlone(s: State, i: nat, now: int, locked: bool)
    requires i < |s.threads| && s.threads[i].TriggerClock?
    ensures RunAlone(s, i, now, locked)
         == s.(stamp := now, timers := s.timers + multiset{now}, threads := s.threads[i := Returned])
  {
    var s1 := Operation(s, i, now, locked);
    var s2 := Operation(s1, i, now, locked);
    var s3 := Operation(s2, i, now, locked);
    assert s3.threads == s.threads[i := Returned];
    assert RunAlone(s1, i, now, locked) == RunAlone(s2, i, now, locked) == RunAlone(s3, i, now, locked) == s3;
  }

  lemma DeferAlone(s: State, i: nat, now: int, locked: bool)
    requires i < |s.threads| && s.threads[i].TriggerDefer? && s.frozen != map[]
    ensures RunAlone(s, i, now, locked) == s.(deferred := true, threads := s.threads[i := Returned])
  {
    var s1 := Operation(s, i, now, locked);
    var s2 := Operation(s1, i, now, locked);
    assert s2.threads == s.threads[i := Returned];
    assert RunAlone(s1, i, now, locked) == RunAlone(s2, i, now, locked) == s2;
  }

  lemma TriggerAlone(s: State, i: nat, now: int, locked: bool)
    requires i < |s.threads| && s.threads[i].TriggerHas?
    ensures RunAlone(s, i, now, locked) == Triggered(s, now).(threads := s.threads[i := Returned])
  {
    var t := Operation(s, i, now, locked);
    assert t.threads[i := Returned] == s.threads[i := Returned];
    if s.frozen != map[] {
      DeferAlone(t, i, now, locked);
    } else {
      ArmAlone(t, i, now, locked);
    }
  }

  lemma FreezeAlone(s: State, i: nat, job: string, now: int, locked: bool)
    requires i < |s.threads| && s.threads[i] == FreezeInc(job)
    ensures RunAlone(s, i, now, locked) == Froze(s, job).(threads := s.threads[i := Returned])
  {
    var s1 := Operation(s, i, now, locked);
    var s2 := Operation(s1, i, now, locked);
    assert s2.threads == s.threads[i := Returned];
    assert RunAlone(s1, i, now, locked) == RunAlone(s2, i, now, locked) == s2;
  }

  /** After the delete: look for a remaining job, then for the flag. */
  lemma LookAlone(s: State, i: nat, now: int, locked: bool)
    requires i < |s.threads| && s.threads[i].UnfreezeHas?
    ensures RunAlone(s, i, now, locked)
         == (if s.frozen == map[] && s.deferred then Triggered(s, now) else s).(threads := s.threads[i := Returned])
  {
    var s1 := Operation(s, i, now, locked);
    assert s1.threads[i := Returned] == s.threads[i := Returned];
    if s.frozen == map[] {
      var s2 := Operation(s1, i, now, locked);
      assert s2.threads[i := Returned] == s.threads[i := Returned];
      assert RunAlone(s, i, now, locked) == RunAlone(s2, i, now, locked);
      if s.deferred {
        TriggerAlone(s2, i, now, locked);
      }
    }
  }

  lemma UnfreezeAlone(s: State, i: nat, h: int, now: int, locked: bool)
    requires i < |s.threads| && s.threads[i] == UnfreezeDelete(h)
    ensures RunAlone(s, i, now, locked) == Unfroze(s, h, now).(threads := s.threads[i := Returned])
  {
    var t := Operation(s, i, now, locked);
    LookAlone(t, i, now, locked);
    assert t.threads[i := Returned] == s.threads[i := Returned];
  }

  lemma FireAlone(s: State, i: nat, c: int, now: int, locked: bool)
    requires i < |s.threads| && s.threads[i] == FireCheck(c)
    ensures RunAlone(s, i, now, locked) == Fired(s, c, now, locked).(threads := s.threads[i := Returned])
  {
    var s1 := Operation(s, i, now, locked);
    if c == s.stamp {
      var s2 := Operation(s1, i, now, locked);
      assert s2.threads == s.threads[i := s2.threads[i]];
      if locked {
        TriggerAlone(s2, i, now, locked);
        assert s2.threads[i := Returned] == s.threads[i := Returned];
      } else {
        var s3 := Operation(s2, i, now, locked);
        assert s3.threads == s.threads[i := Returned];
        assert RunAlone(s2, i, now, locked) == s3;
      }
    }
  }

  /**
   Each operation undisturbed is its serial meaning: `Freeze` takes the next handle and stores the job
   under it; `Unfreeze` drops its handle alone, and triggers when none is left and an update was put
   off; a trigger is put off while a job is frozen and otherwise supersedes the pending timer; the
   current timer restarts the application or, while the file is locked, triggers again.
   */
  lemma AloneIsSerial(s: State, a: Action, now: int, locked: bool)
    requires a.CallFreeze? || a.CallUnfreeze? || a.FileEvent? || a.Fire?
    requires Next(s, a).Some?
    ensures var t := Next(s, a).value;
            && |t.threads| == |s.threads| + 1
            && Reaches(Next, t, RunAlone(t, |s.threads|, now, locked))
            && RunAlone(t, |s.threads|, now, locked)
               == Serially(s, a, now, locked).(threads := s.threads + [Returned])
  {
    var i, t := |s.threads|, Next(s, a).value;
    RunAloneIsRun(t, i, now, locked);
    assert t.threads[i := Returned] == s.threads + [Returned];
    match a
    case CallFreeze(job) => FreezeAlone(t, i, job, now, locked);
    case CallUnfreeze(h) => UnfreezeAlone(t, i, h, now, locked);
    case FileEvent => TriggerAlone(t, i, now, locked);
    case Fire(c) => FireAlone(t, i, c, now, locked);
  }

  // ----- A locked file prevents the restart

  ghost predicate NoShutdown(s: State) { s.restarts == 0 && forall pc :: pc in s.threads ==> !pc.FireShutdown? }

  lemma LockedStep(s: State, a: Action)
    requires NoShutdown(s) && (a.Step? ==> a.locked) && Next(s, a).Some?
    ensures NoShutdown(Next(s, a).value)
  {
    var t := Next(s, a).value;
    if a.Step? {
      assert s.threads[a.thread] in s.threads;
      forall pc | pc in t.threads ensures pc in s.threads || pc == t.threads[a.thread] {}
    } else {
      forall pc | pc in t.threads ensures pc in s.threads || !pc.FireShutdown? {}
    }
  }

  lemma {:induction false} LockedRun(s: State, acts: seq<Action>)
    requires NoShutdown(s) && (forall a :: a in acts && a.Step? ==> a.locked) && Exec(Next, s, acts).Some?
    ensures NoShutdown(Exec(Next, s, acts).value)
    decreases |acts|
  {
    if acts != [] {
      assert acts[0] in acts;
      LockedStep(s, acts[0]);
      LockedRun(Next(s, acts[0]).value, acts[1..]);
    }
  }

  /** As long as the file is found locked there is no restart, and a requested update is not lost. */
  lemma LockedFileHoldsOff(acts: seq<Action>)
    requires Exec(Next, INITIAL, acts).Some? && forall a :: a in acts && a.Step? ==> a.locked
    ensures var s := Exec(Next, INITIAL, acts).value;
            && s.restarts == 0
            && (s.requested ==> s.down || s.frozen != map[] || !Idle(s) || s.stamp in s.timers)
  {
    LockedRun(INITIAL, acts);
    if Exec(Next, INITIAL, acts).value.requested {
      NoUpdateLost(acts);
    }
  }

  // ----- Only a requested update restarts

  /** Inside `Freeze`, or inside `Unfreeze` before it could trigger, or done. */
  predicate OnlyFreezing(pc: Pc) {
    pc.FreezeInc? || pc.FreezeStore? || pc.UnfreezeDelete? || pc.UnfreezeHas? || pc.UnfreezeLoad? || pc.Returned?
  }

  ghost predicate Quiet(s: State) {
    !s.requested ==>
      && s.restarts == 0 && !s.deferred && s.timers == multiset{}
      && forall pc :: pc in s.threads ==> OnlyFreezing(pc)
  }

  lemma StepKeepsQuiet(s: State, a: Action)
    requires Quiet(s) && Next(s, a).Some?
    ensures Quiet(Next(s, a).value)
  {
    var t := Next(s, a).value;
    if !t.requested {
      if a.Step? {
        assert s.threads[a.thread] in s.threads;
        forall pc | pc in t.threads ensures pc in s.threads || pc == t.threads[a.thread] {}
      } else {
        forall pc | pc in t.threads ensures pc in s.threads || OnlyFreezing(pc) {}
      }
    }
  }

  lemma NoSpuriousRestart(acts: seq<Action>)
    requires Exec(Next, INITIAL, acts).Some?
    ensures var s := Exec(Next, INITIAL, acts).value; s.restarts > 0 || s.deferred ==> s.requested
  {
    forall s, a | Quiet(s) && Next(s, a).Some? ensures Quiet(Next(s, a).value) {
      StepKeepsQuiet(s, a);
    }
    Invariant(Next, Quiet, INITIAL, acts);
  }

  // ----- Every Freeze gets a handle of its own

  ghost predicate HandleInv(s: State) {
    && (forall h :: h in s.frozen ==> h <= s.nextId)
    && (forall i: nat :: i < |s.threads| && s.threads[i].FreezeStore? ==>
          s.threads[i].id <= s.nextId && s.threads[i].id !in s.frozen)
    && (forall i: nat, j: nat :: i < j < |s.threads| && s.threads[i].FreezeStore? && s.threads[j].FreezeStore? ==>
          s.threads[i].id != s.threads[j].id)
  }

  lemma OperationKeepsHandles(s: State, i: nat, now: int, locked: bool)
    requires HandleInv(s) && i < |s.threads|
    ensures HandleInv(Operation(s, i, now, locked))
  {
    var t := Operation(s, i, now, locked);
    assert forall j: nat :: j < |t.threads| && j != i ==> t.threads[j] == s.threads[j];
    assert t.threads[i].FreezeStore? ==> s.threads[i].FreezeInc? && t.threads[i].id == s.nextId + 1 == t.nextId;
    assert t.nextId >= s.nextId;
    assert forall h :: h in t.frozen ==> h in s.frozen || (s.threads[i].FreezeStore? && h == s.threads[i].id);
  }

  lemma StepKeepsHandles(s: State, a: Action)
    requires HandleInv(s) && Next(s, a).Some?
    ensures HandleInv(Next(s, a).value)
  {
    if a.Step? {
      OperationKeepsHandles(s, a.thread, a.now, a.locked);
    } else {
      var t := Next(s, a).value;
      assert t.nextId == s.nextId && t.frozen == s.frozen;
      assert forall i: nat :: i < |t.threads| && t.threads[i].FreezeStore? ==>
                                i < |s.threads| && t.threads[i] == s.threads[i];
    }
  }

  /**
   A handle about to be stored is not in the freeze map and not held by any other `Freeze` in progress,
   so a job's handle is never overwritten and unfreezing one job never releases another.
   */
  lemma HandlesUnique(acts: seq<Action>)
    requires Exec(Next, INITIAL, acts).Some?
    ensures HandleInv(Exec(Next, INITIAL, acts).value)
  {
    forall s, a | HandleInv(s) && Next(s, a).Some? ensures HandleInv(Next(s, a).value) {
      StepKeepsHandles(s, a);
    }
    Invariant(Next, HandleInv, INITIAL, acts);
  }

  /** Handle `h` is free for good, or somebody is about to delete it. */
  ghost predicate Releasing(s: State, h: int) {
    && h <= s.nextId
    && (forall pc :: pc in s.threads && pc.FreezeStore? ==> pc.id != h)
    && (h in s.frozen ==> UnfreezeDelete(h) in s.threads)
  }

  lemma StepKeepsReleasing(s: State, a: Action, h: int)
    requires Releasing(s, h) && Next(s, a).Some?
    ensures Releasing(Next(s, a).value, h)
  {
    var t := Next(s, a).value;
    if h in t.frozen {
      if h !in s.frozen {
        StoredHere(s, a, h);
      } else {
        DeleteStays(s, a, h);
      }
    }
    forall pc | pc in t.threads && pc.FreezeStore? ensures pc.id != h {
      if pc !in s.threads {
        NewHandleIsNext(s, a, pc);
      }
    }
  }

  lemma NewHandleIsNext(s: State, a: Action, pc: Pc)
    requires Next(s, a).Some? && pc in Next(s, a).value.threads && pc !in s.threads && pc.FreezeStore?
    ensures pc.id == s.nextId + 1
  {
    var t := Next(s, a).value;
    var i: nat :| i < |t.threads| && t.threads[i] == pc;
    assert a.Step? && i == a.thread && s.threads[i].FreezeInc?;
  }

  lemma {:induction false} RunKeepsReleasing(s: State, acts: seq<Action>, h: int)
    requires Exec(Next, s, acts).Some?
    requires Releasing(s, h) || (h in s.frozen && HandleInv(s) && CallUnfreeze(h) in acts)
    ensures Releasing(Exec(Next, s, acts).value, h)
    decreases |acts|
  {
    if acts != [] {
      var t := Next(s, acts[0]).value;
      if Releasing(s, h) {
        StepKeepsReleasing(s, acts[0], h);
      } else {
        StepKeepsHandles(s, acts[0]);
        UnfreezeCalled(s, acts, h);
      }
      RunKeepsReleasing(t, acts[1..], h);
    }
  }

  lemma UnfreezeCalled(s: State, acts: seq<Action>, h: int)
    requires acts != [] && Next(s, acts[0]).Some? && HandleInv(s) && h in s.frozen && CallUnfreeze(h) in acts
    ensures var t := Next(s, acts[0]).value; Releasing(t, h) || (h in t.frozen && CallUnfreeze(h) in acts[1..])
  {
    var a, t := acts[0], Next(s, acts[0]).value;
    if a == CallUnfreeze(h) {
      assert t.threads[|s.threads|] == UnfreezeDelete(h);
    } else if h !in t.frozen {
      forall pc | pc in t.threads && pc.FreezeStore? ensures pc.id != h {
        if pc !in s.threads {
          NewHandleIsNext(s, a, pc);
        } else {
          var i: nat :| i < |s.threads| && s.threads[i] == pc;
        }
      }
    }
  }

  /**
   `Unfreeze` releases its handle.  Whatever else happens after a handle was taken: once it has been
   given to `Unfreeze` and nobody is inside an operation any more, it is not held.
   */
  lemma UnfreezeReleases(acts: seq<Action>, more: seq<Action>, h: int)
    requires Exec(Next, INITIAL, acts).Some? && h in Exec(Next, INITIAL, acts).value.frozen
    requires Exec(Next, Exec(Next, INITIAL, acts).value, more).Some? && CallUnfreeze(h) in more
    ensures var t := Exec(Next, Exec(Next, INITIAL, acts).value, more).value; Idle(t) ==> h !in t.frozen
  {
    HandlesUnique(acts);
    RunKeepsReleasing(Exec(Next, INITIAL, acts).value, more, h);
  }

  // ----- A freeze handle holds restarts off

  /** Work already past its freeze check: it can restart the application whatever is frozen now. */
  ghost predicate PastCheck(s: State, pc: Pc) {
    match pc
    case TriggerClock | FireLock | FireShutdown => true
    case TriggerStamp(_) => true
    case TriggerArm(c) => c == s.stamp
    case FireCheck(c) => c == s.stamp
    case _ => false
  }

  ghost predicate RestartUnderWay(s: State) {
    || s.stamp in s.timers
    || exists pc :: pc in s.threads && PastCheck(s, pc)
  }

  /** Handle `h` is in the freeze map and nobody is about to delete it. */
  ghost predicate Held(s: State, h: int) {
    h in s.frozen && UnfreezeDelete(h) !in s.threads
  }

  lemma HeldOperation(s: State, h: int, i: nat, now: int, locked: bool)
    requires Held(s, h) && !RestartUnderWay(s) && i < |s.threads| && !s.threads[i].Returned?
    ensures var t := Operation(s, i, now, locked);
            && h in t.frozen && t.stamp !in t.timers && t.stamp == s.stamp && t.restarts == s.restarts
            && t.threads == s.threads[i := t.threads[i]]
            && !PastCheck(s, t.threads[i]) && t.threads[i] != UnfreezeDelete(h)
  {
    assert s.threads[i] in s.threads;
    assert s.frozen != map[];
  }

  lemma HeldStep(s: State, h: int, a: Action)
    requires Held(s, h) && !RestartUnderWay(s) && a != CallUnfreeze(h) && Next(s, a).Some?
    ensures var t := Next(s, a).value; Held(t, h) && !RestartUnderWay(t) && t.restarts == s.restarts
  {
    var t := Next(s, a).value;
    if a.Step? {
      HeldOperation(s, h, a.thread, a.now, a.locked);
      forall pc | pc in t.threads ensures pc in s.threads || pc == t.threads[a.thread] {}
    } else {
      forall pc | pc in t.threads ensures pc in s.threads || pc == t.threads[|s.threads|] {}
    }
  }

  lemma {:induction false} HeldRun(s: State, h: int, acts: seq<Action>)
    requires Held(s, h) && !RestartUnderWay(s) && CallUnfreeze(h) !in acts
    requires Exec(Next, s, acts).Some?
    ensures Exec(Next, s, acts).value.restarts == s.restarts
    decreases |acts|
  {
    if acts != [] {
      assert acts[0] in acts;
      HeldStep(s, h, acts[0]);
      HeldRun(Next(s, acts[0]).value, h, acts[1..]);
    }
  }

  ghost predicate CanRestart(s: State) {
    exists acts: seq<Action> :: OwnRestart(s, acts)
  }

  ghost predicate OwnRestart(s: State, acts: seq<Action>) {
    && (forall a :: a in acts ==> Own(a))
    && Exec(Next, s, acts).Some? && Exec(Next, s, acts).value.restarts > s.restarts
  }

  lemma CanRestartAfter(s: State, a: Action)
    requires Own(a) && Next(s, a).Some?
    requires CanRestart(Next(s, a).value) || Next(s, a).value.restarts > s.restarts
    ensures CanRestart(s)
  {
    var t := Next(s, a).value;
    if t.restarts > s.restarts {
      assert Exec(Next, t, []) == Some(t);
      assert [a][1..] == [];
      assert OwnRestart(s, [a]);
    } else {
      var acts: seq<Action> :| OwnRestart(t, acts);
      OwnRunBounded(s, [a]) by { assert Exec(Next, t, [a][1..]) == Some(t); }
      assert ([a] + acts)[1..] == acts;
      assert OwnRestart(s, [a] + acts);
    }
  }

  /** One thread past its check, left to run alone, reaches the restart. */
  lemma {:induction false} ThreadRestarts(s: State, i: nat)
    requires i < |s.threads| && PastCheck(s, s.threads[i])
    ensures CanRestart(s)
    decreases Rank(s.threads[i])
  {
    var a := Step(i, 0, false);
    var t := Next(s, a).value;
    if s.threads[i].TriggerArm? {
      TimerRestarts(t);
    } else if !s.threads[i].FireShutdown? {
      ThreadRestarts(t, i);
    }
    CanRestartAfter(s, a);
  }

  lemma {:induction false} TimerRestarts(s: State)
    requires s.stamp in s.timers
    ensures CanRestart(s)
    decreases 4
  {
    var t := Next(s, Fire(s.stamp)).value;
    ThreadRestarts(t, |s.threads|);
    CanRestartAfter(s, Fire(s.stamp));
  }

  /**
   The freeze map is consulted when a timer is armed, not when it fires.  So a held handle keeps
   every continuation free of autoupdate restarts, until that handle is unfrozen, exactly when no
   work is past its freeze check at that moment.
   */
  lemma FreezeHoldsOffExactly(s: State, h: int)
    requires Held(s, h)
    ensures !RestartUnderWay(s) <==>
            forall acts: seq<Action> :: CallUnfreeze(h) !in acts && Exec(Next, s, acts).Some?
                                        ==> Exec(Next, s, acts).value.restarts == s.restarts
  {
    if RestartUnderWay(s) {
      if s.stamp in s.timers {
        TimerRestarts(s);
      } else {
        var i: nat :| i < |s.threads| && PastCheck(s, s.threads[i]);
        ThreadRestarts(s, i);
      }
      var acts: seq<Action> :| OwnRestart(s, acts);
      assert CallUnfreeze(h) !in acts;
    } else {
      forall acts: seq<Action> | CallUnfreeze(h) !in acts && Exec(Next, s, acts).Some?
        ensures Exec(Next, s, acts).value.restarts == s.restarts
      {
        HeldRun(s, h, acts);
      }
    }
  }

  /** `Freeze` returning while no timer is pending and no trigger or callback is in progress. */
  lemma FreezeHoldsOff(s: State, i: nat, more: seq<Action>)
    requires i < |s.threads| && s.threads[i].FreezeStore?
    requires s.timers == multiset{} && UnfreezeDelete(s.threads[i].id) !in s.threads
    requires forall pc :: pc in s.threads ==> OnlyFreezing(pc)
    requires CallUnfreeze(s.threads[i].id) !in more
    requires Exec(Next, Operation(s, i, 0, false), more).Some?
    ensures Exec(Next, Operation(s, i, 0, false), more).value.restarts == s.restarts
  {
    var t := Operation(s, i, 0, false);
    forall pc | pc in t.threads ensures pc in s.threads || pc == t.threads[i] {}
    FreezeHoldsOffExactly(t, s.threads[i].id);
  }

  /** A handle taken while a timer is pending does not stop that timer's restart. */
  lemma LateFreezeDoesNotHold()
    ensures exists s, h :: Reaches(Next, INITIAL, s) && Held(s, h) && CanRestart(s)
  {
    var armed := TriggerArmsTimer();
    Extend(Next, INITIAL, armed, CallFreeze("job"));
    var s1 := Next(armed, CallFreeze("job")).value;
    Extend(Next, INITIAL, s1, Step(1, 0, false));
    var s2 := Next(s1, Step(1, 0, false)).value;
    Extend(Next, INITIAL, s2, Step(1, 0, false));
    var s3 := Next(s2, Step(1, 0, false)).value;
    TimerRestarts(s3);
    assert s3.threads == [Returned, Returned];
    assert Held(s3, 1);
  }

  lemma TriggerArmsTimer() returns (s: State)
    ensures Reaches(Next, INITIAL, s) && s.stamp in s.timers && s.threads == [Returned] && s.nextId == 0
  {
    var step := Step(0, 7, false);
    Here<State, Action>(Next, INITIAL);
    Extend(Next, INITIAL, INITIAL, FileEvent);
    s := Next(INITIAL, FileEvent).value;
    Extend(Next, INITIAL, s, step);
    s := Next(s, step).value;
    assert s.threads == [TriggerClock];
    Extend(Next, INITIAL, s, step);
    s := Next(s, step).value;
    assert s.threads == [TriggerStamp(7)];
    Extend(Next, INITIAL, s, step);
    s := Next(s, step).value;
    assert s.threads == [TriggerArm(7)] && s.stamp == 7;
    Extend(Next, INITIAL, s, step);
    s := Next(s, step).value;
  }
}
