/**
 The application's shutdown decision.  `Shutdown` runs its body under a `sync.Once`: the first
 caller to enter executes it, later callers wait until it has finished.  One action is one caller
 entering or leaving the once, one atomic store, or closing the channel.
 */
module Application {
  import opened Options
  import opened Runs

  /** `Busy(i)` and `Done(i)` name the caller that won. */
  datatype Once = Fresh | Busy(winner: nat) | Done(winner: nat)

  datatype Pc = AtOnce | StoreRestarting | StoreDown | StoreErr | CloseDone | LeaveOnce | Returned

  datatype Caller = Caller(restart: bool, pc: Pc)

  /** `closes` counts how often `shutdownCh` was closed; closing it twice would panic. */
  datatype State = State(
    once: Once, restarting: bool, shuttingDown: bool, err: bool, closes: nat, callers: seq<Caller>)

  const INITIAL := State(Fresh, false, false, false, 0, [])

  datatype Action = Call(restart: bool) | Step(caller: nat)

  predicate Active(s: State) { !s.shuttingDown }

  predicate DoneClosed(s: State) { s.closes > 0 }

  function Next(s: State, a: Action): Option<State> {
    match a
    case Call(restart) => Some(s.(callers := s.callers + [Caller(restart, AtOnce)]))
    case Step(i) =>
      if i >= |s.callers| then None
      else match s.callers[i].pc
        case AtOnce =>
          (match s.once
           case Fresh => Some(Move(s, i, StoreRestarting).(once := Busy(i)))
           case Busy(_) => None
           case Done(_) => Some(Move(s, i, Returned)))
        case StoreRestarting => Some(Move(s, i, StoreDown).(restarting := s.callers[i].restart))
        case StoreDown => Some(Move(s, i, StoreErr).(shuttingDown := true))
        case StoreErr => Some(Move(s, i, CloseDone).(err := true))
        case CloseDone => Some(Move(s, i, LeaveOnce).(closes := s.closes + 1))
        case LeaveOnce => Some(Move(s, i, Returned).(once := Done(i)))
        case Returned => None
  }

  function Move(s: State, i: nat, pc: Pc): State
    requires i < |s.callers|
  {
    s.(callers := s.callers[i := s.callers[i].(pc := pc)])
  }

  /** How far the winner's body has come, read off its program counter. */
  ghost predicate Progress(s: State, winner: nat) {
    && winner < |s.callers|
    && var pc := s.callers[winner].pc;
    && (s.once.Done? <==> pc.Returned?)
    && !pc.AtOnce?
    && (s.restarting == if pc.StoreRestarting? then false else s.callers[winner].restart)
    && (s.shuttingDown <==> !pc.StoreRestarting? && !pc.StoreDown?)
    && (s.err <==> s.shuttingDown && !pc.StoreErr?)
    && (s.closes == if pc.LeaveOnce? || pc.Returned? then 1 else 0)
  }

  ghost predicate Inv(s: State) {
    && (s.once.Fresh? ==> !s.restarting && !s.shuttingDown && !s.err && s.closes == 0)
    && (!s.once.Fresh? ==> Progress(s, s.once.winner))
    && forall i :: 0 <= i < |s.callers| && (s.once.Fresh? || i != s.once.winner) ==>
         s.callers[i].pc.AtOnce? || (s.callers[i].pc.Returned? && s.once.Done?)
  }

  lemma StepKeepsInv(s: State, a: Action)
    requires Inv(s) && Next(s, a).Some?
    ensures Inv(Next(s, a).value)
  {
  }

  /** What a run never takes back: the winner, and the decision once the application is not active. */
  ghost predicate Settles(s: State, t: State) {
    && |s.callers| <= |t.callers|
    && (forall i :: 0 <= i < |s.callers| ==> t.callers[i].restart == s.callers[i].restart)
    && (!s.once.Fresh? ==> !t.once.Fresh? && t.once.winner == s.once.winner)
    && (s.restarting ==> t.restarting)
    && (s.shuttingDown ==> t.shuttingDown && t.restarting == s.restarting)
    && s.closes <= t.closes && (s.err ==> t.err)
  }

  lemma StepSettles(s: State, a: Action)
    requires Inv(s) && Next(s, a).Some?
    ensures Settles(s, Next(s, a).value)
  {
  }

  lemma {:induction false} RunSettles(s: State, acts: seq<Action>)
    requires Inv(s) && Exec(Next, s, acts).Some?
    ensures Inv(Exec(Next, s, acts).value) && Settles(s, Exec(Next, s, acts).value)
    decreases |acts|
  {
    if acts != [] {
      StepKeepsInv(s, acts[0]);
      StepSettles(s, acts[0]);
      RunSettles(Next(s, acts[0]).value, acts[1..]);
    }
  }

  /**
   Every run agrees on one shutdown decision.  For any calls in any interleaving: the channel is
   closed at most once, and exactly once as soon as any caller has returned; a closed `Done` implies
   that `Err` is set and the application inactive; while inactive, `Restarting` is the argument of
   the one winning caller, and no continuation changes it (in particular not the `Shutdown(false)`
   that the signal loop issues after `Done`).
   */
  lemma OneShutdownDecision(acts: seq<Action>, more: seq<Action>)
    requires Exec(Next, INITIAL, acts).Some?
    requires Exec(Next, Exec(Next, INITIAL, acts).value, more).Some?
    ensures var s := Exec(Next, INITIAL, acts).value;
            var t := Exec(Next, s, more).value;
            && s.closes <= 1
            && (forall c :: c in s.callers && c.pc.Returned? ==> s.closes == 1)
            && (DoneClosed(s) ==> s.err && !Active(s))
            && (!Active(s) ==>
                  && !s.once.Fresh? && s.once.winner < |s.callers|
                  && s.restarting == s.callers[s.once.winner].restart
                  && !Active(t) && t.restarting == s.restarting
                  && !t.once.Fresh? && t.once.winner == s.once.winner)
  {
    RunSettles(INITIAL, acts);
    RunSettles(Exec(Next, INITIAL, acts).value, more);
  }

  /** Nobody is left waiting: if some caller has not returned, some caller can take a step. */
  lemma ShutdownNeverDeadlocks(s: State, i: nat)
    requires Inv(s) && i < |s.callers| && !s.callers[i].pc.Returned?
    ensures exists j: nat :: Next(s, Step(j)).Some?
  {
    if s.once.Busy? {
      assert Next(s, Step(s.once.winner)).Some?;
    } else {
      assert Next(s, Step(i)).Some?;
    }
  }
}
