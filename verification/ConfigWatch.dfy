/**
 Watchers of the configuration.  `Set` writes the store and then hands the change, over an unbuffered
 channel, to every watcher whose prefix matches; Sets are serialized and watchers stay alive.  A
 watcher receives only in its `select`, so it takes the next change when its callback is done.

 The mirror is what a client holds that puts in every entry of one `EnumerateAll(prefix)` and applies
 every change handed to its watcher's callback.  Registering the watcher and enumerating are two
 operations, possible in either order and at any moment, also during a Set: the walk over the watch map
 then may or may not reach the new watcher.
 */
module ConfigWatch {
  import opened Options
  import opened Runs
  import opened Text
  import opened ConfigRepository

  datatype Change = Change(key: string, value: string)

  /** `late`: the client enumerated before its watcher was registered. */
  datatype Phase = New | Registered | Enumerated | Mirroring(late: bool)

  /** `inHand` is the change the callback is working on. */
  datatype Client = Client(prefix: string, phase: Phase, mirror: Entries, inHand: Option<Change>)

  /**
   `setting` is the change of the Set in progress, after its store write.  The walk must reach the
   `obliged` clients; `reached` are those it has handed the change to.
   */
  datatype State = State(
    entries: Entries, clients: seq<Client>, setting: Option<Change>, obliged: set<nat>, reached: set<nat>)

  datatype Action =
    | Join(prefix: string)
    | Register(client: nat)                     // watchMap.Store
    | Enumerate(client: nat)                    // EnumerateAll
    | WriteStore(key: string, value: string)    // doSet
    | HandOver(client: nat)                     // wc.ch <- e meets e := <-ch
    | SetReturns
    | CallbackDone(client: nat)

  function Initial(entries: Entries): State { State(entries, [], None, {}, {}) }

  function Applied(m: Entries, c: Option<Change>): Entries {
    match c
    case None => m
    case Some(e) => Updated(m, e.key, e.value)
  }

  predicate Watched(c: Client) { c.phase.Registered? || c.phase.Mirroring? }

  predicate Matches(c: Client, e: Change) { HasPrefix(e.key, c.prefix) }

  function Watching(s: State): set<nat> { set i: nat | i < |s.clients| && Watched(s.clients[i]) }

  function Put(s: State, i: nat, c: Client): State
    requires i < |s.clients|
  {
    s.(clients := s.clients[i := c])
  }

  function Next(s: State, a: Action): Option<State> {
    match a
    case Join(prefix) => Some(s.(clients := s.clients + [Client(prefix, New, map[], None)]))
    case Register(i) => if i < |s.clients| then RegisterNext(s, i) else None
    case Enumerate(i) => if i < |s.clients| then EnumerateNext(s, i) else None
    case WriteStore(k, v) =>
      if s.setting.Some? then None
      else Some(s.(entries := Updated(s.entries, k, v), setting := Some(Change(k, v)),
                   obliged := Watching(s), reached := {}))
    case HandOver(i) => if i < |s.clients| then HandOverNext(s, i) else None
    case SetReturns =>
      if s.setting.Some? && forall i: nat :: i < |s.clients| ==> !Owed(s, i)
      then Some(s.(setting := None)) else None
    case CallbackDone(i) =>
      if i < |s.clients| && s.clients[i].inHand.Some?
      then Some(Put(s, i, s.clients[i].(mirror := Held(s.clients[i]), inHand := None)))
      else None
  }

  function RegisterNext(s: State, i: nat): Option<State>
    requires i < |s.clients|
  {
    var c := s.clients[i];
    match c.phase
    case New => Some(Put(s, i, c.(phase := Registered)))
    case Enumerated => Some(Put(s, i, c.(phase := Mirroring(true))))
    case _ => None
  }

  function EnumerateNext(s: State, i: nat): Option<State>
    requires i < |s.clients|
  {
    var c := s.clients[i];
    var m := c.mirror + Under(s.entries, c.prefix);
    match c.phase
    case New => Some(Put(s, i, c.(phase := Enumerated, mirror := m)))
    case Registered => Some(Put(s, i, c.(phase := Mirroring(false), mirror := m)))
    case _ => None
  }

  function HandOverNext(s: State, i: nat): Option<State>
    requires i < |s.clients|
  {
    var c := s.clients[i];
    if s.setting.Some? && i !in s.reached && Watched(c) && Matches(c, s.setting.value) && c.inHand.None?
    then Some(Put(s, i, c.(inHand := s.setting)).(reached := s.reached + {i}))
    else None
  }

  /** What the client holds once its callback is done. */
  function Held(c: Client): Entries { Applied(c.mirror, c.inHand) }

  /** The walk still owes client `i` the change being set. */
  predicate Owed(s: State, i: nat)
    requires i < |s.clients|
  {
    s.setting.Some? && i in s.obliged && i !in s.reached && Matches(s.clients[i], s.setting.value)
  }

  function OwedChange(s: State, i: nat): Option<Change>
    requires i < |s.clients|
  {
    if Owed(s, i) then s.setting else None
  }

  /** What a mirror that is `m` now becomes by the changes in hand and owed. */
  function Settling(s: State, i: nat, m: Entries): Entries
    requires i < |s.clients|
  {
    Applied(Applied(m, s.clients[i].inHand), OwedChange(s, i))
  }

  function Store(s: State, i: nat): Entries
    requires i < |s.clients|
  {
    Under(s.entries, s.clients[i].prefix)
  }

  /** The client agrees with the store but for the changes in hand and owed. */
  ghost predicate Agrees(s: State, i: nat)
    requires i < |s.clients|
  {
    Settling(s, i, s.clients[i].mirror) == Store(s, i)
  }

  /** Every entry the client holds is right, but for the changes in hand and owed. */
  ghost predicate Partial(s: State, i: nat)
    requires i < |s.clients|
  {
    var m := Settling(s, i, s.clients[i].mirror);
    forall key :: key in m ==> key in Store(s, i) && m[key] == Store(s, i)[key]
  }

  ghost predicate ClientInv(s: State, i: nat)
    requires i < |s.clients|
  {
    var c := s.clients[i];
    && Settling(s, i, Store(s, i)) == Store(s, i)
    && (!Watched(c) ==> c.inHand.None? && i !in s.obliged)
    && (c.phase.New? ==> c.mirror == map[])
    && (c.phase.Registered? ==> Partial(s, i))
    && (c.phase == Mirroring(false) ==> Agrees(s, i))
  }

  /** The change is in the store already, so applying it again changes nothing. */
  ghost predicate Stored(m: Entries, c: Change) { Updated(m, c.key, c.value) == m }

  ghost predicate Inv(s: State) {
    && (forall i: nat :: i < |s.clients| ==> ClientInv(s, i))
    && (forall i :: i in s.obliged ==> i < |s.clients|)
    && (s.setting.Some? ==> Stored(s.entries, s.setting.value))
  }

  lemma UpdateUnder(m: Entries, c: Change, prefix: string)
    ensures Under(Updated(m, c.key, c.value), prefix)
         == if HasPrefix(c.key, prefix) then Updated(Under(m, prefix), c.key, c.value) else Under(m, prefix)
  {
    var a := Under(Updated(m, c.key, c.value), prefix);
    if HasPrefix(c.key, prefix) {
      assert a == Updated(Under(m, prefix), c.key, c.value);
    } else {
      assert a == Under(m, prefix);
    }
  }

  // ----- Every step keeps every client in order

  lemma WriteKeeps(s: State, e: Change, i: nat)
    requires Inv(s) && s.setting.None? && i < |s.clients|
    ensures var t := Next(s, WriteStore(e.key, e.value)).value;
            && ClientInv(t, i)
            && (Watched(s.clients[i]) && Agrees(s, i) ==> Agrees(t, i))
  {
    assert ClientInv(s, i);
    UpdateUnder(s.entries, e, s.clients[i].prefix);
  }

  lemma HandOverKeeps(s: State, j: nat, i: nat)
    requires Inv(s) && i < |s.clients| && Next(s, HandOver(j)).Some?
    ensures var t := Next(s, HandOver(j)).value;
            && ClientInv(t, i) && (Agrees(s, i) ==> Agrees(t, i))
  {
    assert ClientInv(s, i);
    UpdateUnder(s.entries, s.setting.value, s.clients[i].prefix);
  }

  /** A client that a step neither changes nor owes anything stays as it was. */
  lemma UntouchedKeeps(s: State, t: State, i: nat)
    requires i < |s.clients| == |t.clients| && t.clients[i] == s.clients[i] && ClientInv(s, i)
    requires t.entries == s.entries && t.setting == s.setting && t.obliged == s.obliged && t.reached == s.reached
    ensures ClientInv(t, i) && (Agrees(s, i) <==> Agrees(t, i))
  {
  }

  lemma RegisterKeeps(s: State, j: nat, i: nat)
    requires Inv(s) && i < |s.clients| && Next(s, Register(j)).Some?
    ensures var t := Next(s, Register(j)).value;
            && ClientInv(t, i) && (Agrees(s, i) ==> Agrees(t, i))
  {
    assert ClientInv(s, i);
    if i != j {
      UntouchedKeeps(s, Next(s, Register(j)).value, i);
    }
  }

  /** Entries enumerated in the midst of changes: what was applied before is either right or corrected. */
  lemma MergeSettles(m: Entries, u: Entries, inHand: Option<Change>, owed: Option<Change>)
    requires Applied(Applied(u, inHand), owed) == u
    requires var r := Applied(Applied(m, inHand), owed); forall key :: key in r ==> key in u && r[key] == u[key]
    ensures Applied(Applied(m + u, inHand), owed) == u
  {
    var r := Applied(Applied(m + u, inHand), owed);
    forall key ensures (key in r <==> key in u) && (key in u ==> r[key] == u[key]) {
      assert key in Applied(Applied(u, inHand), owed) <==> key in u;
    }
  }

  lemma EnumerateKeeps(s: State, j: nat, i: nat)
    requires Inv(s) && i < |s.clients| && Next(s, Enumerate(j)).Some?
    ensures var t := Next(s, Enumerate(j)).value;
            && ClientInv(t, i) && (s.clients[i].phase.Mirroring? && Agrees(s, i) ==> Agrees(t, i))
  {
    assert ClientInv(s, i);
    if i != j {
      UntouchedKeeps(s, Next(s, Enumerate(j)).value, i);
    } else if s.clients[i].phase.Registered? {
      MergeSettles(s.clients[i].mirror, Store(s, i), s.clients[i].inHand, OwedChange(s, i));
    }
  }

  lemma StepKeepsClient(s: State, a: Action, i: nat)
    requires Inv(s) && Next(s, a).Some? && i < |Next(s, a).value.clients|
    ensures var t := Next(s, a).value;
            && ClientInv(t, i)
            && (i < |s.clients| && s.clients[i].phase.Mirroring? && Agrees(s, i) ==> Agrees(t, i))
  {
    if i < |s.clients| {
      assert ClientInv(s, i);
      match a
      case WriteStore(k, v) => WriteKeeps(s, Change(k, v), i);
      case HandOver(j) => HandOverKeeps(s, j, i);
      case Register(j) => RegisterKeeps(s, j, i);
      case Enumerate(j) => EnumerateKeeps(s, j, i);
      case _ =>
    } else if s.setting.Some? {
      assert i !in s.obliged;
    }
  }

  lemma StepKeepsInv(s: State, a: Action)
    requires Inv(s) && Next(s, a).Some?
    ensures Inv(Next(s, a).value)
  {
    var t := Next(s, a).value;
    forall i: nat | i < |t.clients| ensures ClientInv(t, i) {
      StepKeepsClient(s, a, i);
    }
    if a.WriteStore? {
      assert Stored(t.entries, t.setting.value);
    }
  }

  lemma InvHolds(entries: Entries, acts: seq<Action>)
    requires Exec(Next, Initial(entries), acts).Some?
    ensures Inv(Exec(Next, Initial(entries), acts).value)
  {
    forall s, a | Inv(s) && Next(s, a).Some? ensures Inv(Next(s, a).value) {
      StepKeepsInv(s, a);
    }
    Invariant(Next, Inv, Initial(entries), acts);
  }

  /**
   Register, then enumerate: the mirror agrees.  In every interleaving, while no Set is in progress
   such a client holds exactly the store's entries under its prefix as soon as the callback of the
   change handed to it is done, whatever was handed over between its two operations; during a Set it
   differs by at most that one change.
   */
  lemma MirrorsAgree(entries: Entries, acts: seq<Action>, i: nat)
    requires Exec(Next, Initial(entries), acts).Some?
    requires i < |Exec(Next, Initial(entries), acts).value.clients|
    requires Exec(Next, Initial(entries), acts).value.clients[i].phase == Mirroring(false)
    ensures var s := Exec(Next, Initial(entries), acts).value;
            var c := s.clients[i];
            && (s.setting.None? ==> Held(c) == Store(s, i))
            && (s.setting.None? && c.inHand.None? ==> c.mirror == Store(s, i))
            && (s.setting.Some? ==> Held(c) == Store(s, i) || Applied(Held(c), s.setting) == Store(s, i))
  {
    InvHolds(entries, acts);
    assert ClientInv(Exec(Next, Initial(entries), acts).value, i);
  }

  // ----- A Set always completes

  predicate Own(a: Action) { a.HandOver? || a.SetReturns? || a.CallbackDone? }

  /** The walk, or a callback it waits for. */
  function Pending(s: State, i: nat): Action
    requires i < |s.clients|
  {
    if s.clients[i].inHand.None? then HandOver(i) else CallbackDone(i)
  }

  lemma OwedCanProceed(s: State, i: nat)
    requires Inv(s) && i < |s.clients| && Owed(s, i)
    ensures Next(s, Pending(s, i)).Some?
  {
    assert ClientInv(s, i);
  }

  /** With live watchers a Set in progress is never stuck. */
  lemma SetNeverBlocks(s: State)
    requires Inv(s) && s.setting.Some?
    ensures exists a :: Own(a) && Next(s, a).Some?
  {
    if i: nat :| i < |s.clients| && Owed(s, i) {
      OwedCanProceed(s, i);
      assert Own(Pending(s, i));
    } else {
      assert Own(SetReturns) && Next(s, SetReturns).Some?;
    }
  }

  function Waiting(s: State): set<nat> {
    set i: nat | i < |s.clients| && i !in s.reached
  }

  function Busy(s: State): set<nat> {
    set i: nat | i < |s.clients| && s.clients[i].inHand.Some?
  }

  /** Operations left: a change to hand over counts for the callback it starts, too. */
  function Work(s: State): nat {
    |Busy(s)| + if s.setting.Some? then 2 * |Waiting(s)| + 1 else 0
  }

  lemma HandOverWorks(s: State, i: nat)
    requires Next(s, HandOver(i)).Some?
    ensures Work(Next(s, HandOver(i)).value) < Work(s)
  {
    var t := Next(s, HandOver(i)).value;
    assert Waiting(t) == Waiting(s) - {i} && i in Waiting(s);
    assert Busy(t) == Busy(s) + {i};
  }

  lemma CallbackWorks(s: State, i: nat)
    requires Next(s, CallbackDone(i)).Some?
    ensures Work(Next(s, CallbackDone(i)).value) < Work(s)
  {
    var t := Next(s, CallbackDone(i)).value;
    assert Busy(t) == Busy(s) - {i} && i in Busy(s);
    assert Waiting(t) == Waiting(s);
  }

  lemma OwnStepWorks(s: State, a: Action)
    requires Own(a) && Next(s, a).Some?
    ensures var t := Next(s, a).value;
            Work(t) < Work(s) && t.entries == s.entries && |t.clients| == |s.clients|
  {
    match a
    case HandOver(i) => HandOverWorks(s, i);
    case CallbackDone(i) => CallbackWorks(s, i);
    case SetReturns => assert Busy(Next(s, a).value) == Busy(s);
  }

  lemma {:induction false} OwnRunBounded(s: State, acts: seq<Action>)
    requires Exec(Next, s, acts).Some? && forall a :: a in acts ==> Own(a)
    ensures |acts| + Work(Exec(Next, s, acts).value) <= Work(s)
    ensures Exec(Next, s, acts).value.entries == s.entries
    decreases |acts|
  {
    if acts != [] {
      assert acts[0] in acts;
      OwnStepWorks(s, acts[0]);
      OwnRunBounded(Next(s, acts[0]).value, acts[1..]);
    }
  }

  ghost predicate AtRest(s: State) {
    forall a :: Own(a) ==> Next(s, a).None?
  }

  lemma AtRestIsIdle(s: State)
    requires Inv(s) && AtRest(s)
    ensures s.setting.None? && forall i: nat :: i < |s.clients| ==> s.clients[i].inHand.None?
  {
    if s.setting.Some? {
      SetNeverBlocks(s);
    }
    forall i: nat | i < |s.clients| ensures s.clients[i].inHand.None? {
      assert Own(CallbackDone(i));
    }
  }

  /**
   From any reachable state, without further Sets: the current Set and all callbacks are done after
   at most `Work` operations, and then the mirror of every client that registered before it enumerated
   equals the store under its prefix.
   */
  lemma SetCompletesAndMirrorsAgree(entries: Entries, acts: seq<Action>, own: seq<Action>)
    requires Exec(Next, Initial(entries), acts).Some? && forall a :: a in own ==> Own(a)
    requires Exec(Next, Exec(Next, Initial(entries), acts).value, own).Some?
    ensures var s := Exec(Next, Initial(entries), acts).value;
            var t := Exec(Next, s, own).value;
            && |own| <= Work(s)
            && (AtRest(t) ==>
                  && t.setting.None? && t.entries == s.entries
                  && forall c :: c in t.clients && c.phase == Mirroring(false) ==>
                       c.mirror == Under(s.entries, c.prefix))
  {
    var s := Exec(Next, Initial(entries), acts).value;
    OwnRunBounded(s, own);
    Compose(Next, Initial(entries), acts, own);
    InvHolds(entries, acts + own);
    var t := Exec(Next, s, own).value;
    if AtRest(t) {
      AtRestIsIdle(t);
      forall c | c in t.clients && c.phase == Mirroring(false) ensures c.mirror == Under(s.entries, c.prefix) {
        var i: nat :| i < |t.clients| && t.clients[i] == c;
        MirrorsAgree(entries, acts + own, i);
      }
    }
  }

  // ----- Enumerating before registering

  /** No Set is in progress and the client's callback is done. */
  predicate Idle(s: State, i: nat) { i < |s.clients| && s.setting.None? && s.clients[i].inHand.None? }

  /** In every continuation the client holds the store's entries whenever it is idle. */
  ghost predicate StaysRight(s: State, i: nat) {
    forall more: seq<Action> :: Exec(Next, s, more).Some? && Idle(Exec(Next, s, more).value, i) ==>
      var t := Exec(Next, s, more).value; t.clients[i].mirror == Store(t, i)
  }

  lemma StaysMirroring(s: State, a: Action, i: nat)
    requires i < |s.clients| && s.clients[i].phase.Mirroring? && Next(s, a).Some?
    ensures i < |Next(s, a).value.clients| && Next(s, a).value.clients[i].phase == s.clients[i].phase
  {
  }

  lemma {:induction false} AgreementLasts(s: State, i: nat, more: seq<Action>)
    requires Inv(s) && i < |s.clients| && s.clients[i].phase.Mirroring? && Agrees(s, i)
    requires Exec(Next, s, more).Some?
    ensures var t := Exec(Next, s, more).value; i < |t.clients| && Agrees(t, i)
    decreases |more|
  {
    if more != [] {
      StepKeepsClient(s, more[0], i);
      StaysMirroring(s, more[0], i);
      StepKeepsInv(s, more[0]);
      AgreementLasts(Next(s, more[0]).value, i, more[1..]);
    }
  }

  /** An operation that reaches a client only where it is owed changes nothing of what `i` will hold. */
  lemma DutyKeeps(s: State, a: Action, i: nat)
    requires Inv(s) && i < |s.clients| && Own(a) && Next(s, a).Some?
    requires a == HandOver(i) ==> Owed(s, i)
    ensures var t := Next(s, a).value;
            Settling(t, i, t.clients[i].mirror) == Settling(s, i, s.clients[i].mirror) && Store(t, i) == Store(s, i)
  {
    assert ClientInv(s, i);
  }

  /** Finish the Set in progress, handing the change only to those it is owed to. */
  lemma {:induction false} Drains(s: State, i: nat) returns (own: seq<Action>)
    requires Inv(s) && i < |s.clients|
    ensures Exec(Next, s, own).Some?
    ensures var t := Exec(Next, s, own).value;
            && Idle(t, i) && Store(t, i) == Store(s, i)
            && t.clients[i].mirror == Settling(s, i, s.clients[i].mirror)
    decreases Work(s)
  {
    if Idle(s, i) {
      own := [];
    } else {
      var a := Duty(s, i);
      DutyKeeps(s, a, i);
      OwnStepWorks(s, a);
      StepKeepsInv(s, a);
      own := Drains(Next(s, a).value, i);
      assert ([a] + own)[1..] == own;
      own := [a] + own;
    }
  }

  lemma Duty(s: State, i: nat) returns (a: Action)
    requires Inv(s) && i < |s.clients| && !Idle(s, i)
    ensures Own(a) && Next(s, a).Some? && (a == HandOver(i) ==> Owed(s, i))
  {
    if s.clients[i].inHand.Some? {
      a := CallbackDone(i);
    } else if j: nat :| j < |s.clients| && Owed(s, j) {
      OwedCanProceed(s, j);
      a := Pending(s, j);
    } else {
      a := SetReturns;
    }
  }

  /**
   In whichever order a client began: it holds the store's entries in every idle moment from now on
   exactly when it does so already but for the change its callback works on and the one it is owed.
   */
  lemma StaysRightExactly(s: State, i: nat)
    requires Inv(s) && i < |s.clients| && s.clients[i].phase.Mirroring?
    ensures StaysRight(s, i) <==> Agrees(s, i)
  {
    if Agrees(s, i) {
      forall more: seq<Action> | Exec(Next, s, more).Some? && Idle(Exec(Next, s, more).value, i)
        ensures var t := Exec(Next, s, more).value; t.clients[i].mirror == Store(t, i)
      {
        AgreementLasts(s, i, more);
      }
    } else {
      var own := Drains(s, i);
      assert Exec(Next, s, own).Some?;
    }
  }

  /**
   Enumerate, then register: the mirror agrees from then on exactly when the snapshot still equals the
   store's entries under the prefix at the moment of registering.
   */
  lemma SnapshotFirst(entries: Entries, acts: seq<Action>, i: nat)
    requires Exec(Next, Initial(entries), acts).Some?
    requires var s := Exec(Next, Initial(entries), acts).value;
             i < |s.clients| && s.clients[i].phase.Enumerated?
    ensures var s := Exec(Next, Initial(entries), acts).value;
            StaysRight(Next(s, Register(i)).value, i) <==> s.clients[i].mirror == Store(s, i)
  {
    InvHolds(entries, acts);
    var s := Exec(Next, Initial(entries), acts).value;
    assert ClientInv(s, i);
    StepKeepsInv(s, Register(i));
    StaysRightExactly(Next(s, Register(i)).value, i);
  }

  /** A Set between the two operations is missed: nothing is under way, and the mirror is wrong. */
  lemma SnapshotFirstMisses()
    ensures exists s :: && Reaches(Next, Initial(map[]), s) && Idle(s, 0) && s.clients[0].phase.Mirroring?
                        && s.clients[0].mirror != Store(s, 0)
  {
    var init := Initial(map[]);
    var s := init;
    Here<State, Action>(Next, s);
    Extend(Next, init, s, Join("a"));
    s := Next(s, Join("a")).value;
    Extend(Next, init, s, Enumerate(0));
    s := Next(s, Enumerate(0)).value;
    assert s.clients[0].mirror == map[];
    Extend(Next, init, s, WriteStore("a", "1"));
    s := Next(s, WriteStore("a", "1")).value;
    Extend(Next, init, s, SetReturns);
    s := Next(s, SetReturns).value;
    Extend(Next, init, s, Register(0));
    s := Next(s, Register(0)).value;
    assert "a" in Store(s, 0);
  }
}
