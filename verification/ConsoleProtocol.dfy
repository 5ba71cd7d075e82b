/**
 The remote storage console as a protocol.  The client's prompt loop sends a query and waits on a
 channel of capacity one, the barrier; its receiver goroutine writes replies and puts a token on the
 barrier at every end marker, and -1 when the stream ends.  The server answers one query at a time.
 One action is one channel or stream operation.  A stream may break at any moment; from then on the
 server's sends and receives fail, and replies on their way may be lost.
 */
module ConsoleProtocol {
  import opened Options
  import opened Runs
  import opened Query
  import opened Console

  /** How the server answers a query: the session after it, and the replies. */
  type Serve = (Session, string) -> (Session, seq<Reply>)

  ghost predicate WellEnded(serve: Serve) {
    forall st, query :: EndsOnce(serve(st, query).1)
  }

  /** The rounds of the storage service's console. */
  function Rounds(env: Env): (serve: Serve)
    ensures WellEnded(serve)
  {
    (st, query) => RemoteRound(env, st, query)
  }

  datatype ClientPc = Prompting | Waiting | Exited
  datatype ServerPc = Receiving | Replying(pending: seq<Reply>) | Ended
  datatype ReceiverPc = Reading | PutToken | PutEnd | Stopped
  datatype Token = Answered | StreamOver    // 1 and -1

  /** What the client does, in order: `Query` is a successful send, `Answer` the token taken for it. */
  datatype Event = Query(query: string) | Wrote(reply: Reply) | Answer

  datatype State = State(
    client: ClientPc, server: ServerPc, receiver: ReceiverPc, barrier: Option<Token>,
    requests: seq<string>, responses: seq<Reply>, closed: bool, broken: bool,
    session: Session, typed: seq<string>, log: seq<Event>)

  function Initial(st: Session): State {
    State(Prompting, Receiving, Reading, None, [], [], false, false, st, [], [])
  }

  datatype Action =
    | Type(line: string)          // the user answers the prompt
    | SendFails(line: string)     // stream.Send reports the end of the stream
    | TakeToken                   // <-barrier
    | ServerReceives | ServerSends | ServerEnds
    | ReceiveReply | ReceiveEnd
    | PutOnBarrier
    | Break

  function Machine(serve: Serve): (State, Action) -> Option<State> {
    (s, a) => Next(serve, s, a)
  }

  predicate Over(s: State) { s.broken || s.server.Ended? }

  function Next(serve: Serve, s: State, a: Action): Option<State> {
    match a
    case Type(line) =>
      if !s.client.Prompting? then None
      else if line == "" then Some(s.(typed := s.typed + [line]))
      else if line == "exit" then Some(s.(typed := s.typed + [line], client := Exited, closed := true))
      else Some(s.(typed := s.typed + [line], client := Waiting,
                   requests := s.requests + [line], log := s.log + [Query(line)]))
    case SendFails(line) =>
      if s.client.Prompting? && Over(s) && line != "" && line != "exit"
      then Some(s.(client := Exited, closed := true)) else None
    case TakeToken =>
      if !s.client.Waiting? then None
      else (match s.barrier
        case None => None
        case Some(Answered) => Some(s.(barrier := None, client := Prompting, log := s.log + [Answer]))
        case Some(StreamOver) => Some(s.(barrier := None, client := Exited, closed := true)))
    case ServerReceives =>
      if s.server.Receiving? && !s.broken && s.requests != []
      then var (st, replies) := serve(s.session, s.requests[0]);
           Some(s.(session := st, requests := s.requests[1..], server := Replying(replies)))
      else None
    case ServerSends =>
      if !s.server.Replying? then None
      else if s.broken then Some(s.(server := Ended))
      else if |s.server.pending| == 0 then Some(s.(server := Receiving))
      else Some(s.(responses := s.responses + [s.server.pending[0]],
                   server := Replying(s.server.pending[1..])))
    case ServerEnds =>
      if s.server.Receiving? && (s.broken || (s.closed && s.requests == []))
      then Some(s.(server := Ended)) else None
    case ReceiveReply =>
      if !s.receiver.Reading? || s.responses == [] then None
      else if s.responses[0].status == END then Some(s.(responses := s.responses[1..], receiver := PutToken))
      else Some(s.(responses := s.responses[1..], log := s.log + [Wrote(s.responses[0])]))
    case ReceiveEnd =>
      if s.receiver.Reading? && (s.broken || (s.server.Ended? && s.responses == []))
      then Some(s.(receiver := PutEnd, responses := [])) else None
    case PutOnBarrier =>
      if s.barrier.Some? then None
      else if s.receiver.PutToken? then Some(s.(barrier := Some(Answered), receiver := Reading))
      else if s.receiver.PutEnd? then Some(s.(barrier := Some(StreamOver), receiver := Stopped))
      else None
    case Break => Some(s.(broken := true))
  }

  // ----- The specification: direct, synchronous execution

  /** A client session as it should look: idle, or owed these replies up to the end marker. */
  datatype Monitor = Idle(session: Session) | Owed(session: Session, due: seq<Reply>)

  /** `None` when an event is out of place: a second query, a reply not due next, an early answer. */
  function Observe(serve: Serve, m: Monitor, e: Event): Option<Monitor> {
    match (m, e)
    case (Idle(st), Query(q)) => Some(Owed(serve(st, q).0, serve(st, q).1))
    case (Owed(st, due), Wrote(r)) =>
      if |due| > 0 && due[0] == r && r.status != END then Some(Owed(st, due[1..])) else None
    case (Owed(st, due), Answer) => if |due| == 1 && due[0].status == END then Some(Idle(st)) else None
    case _ => None
  }

  function ObserveAll(serve: Serve, m: Monitor, log: seq<Event>): Option<Monitor>
    decreases |log|
  {
    if log == [] then Some(m)
    else match ObserveAll(serve, m, log[..|log| - 1])
      case None => None
      case Some(before) => Observe(serve, before, log[|log| - 1])
  }

  lemma ObserveMore(serve: Serve, m: Monitor, log: seq<Event>, e: Event)
    ensures ObserveAll(serve, m, log + [e]) ==
            match ObserveAll(serve, m, log) case None => None case Some(before) => Observe(serve, before, e)
  {
    assert (log + [e])[..|log|] == log;
  }

  // ----- Invariant

  /** Replies still on their way to the client, and the end marker already turned into a token. */
  function Coming(s: State): seq<Reply> {
    s.responses
    + (if s.server.Replying? && !s.broken then s.server.pending else [])
    + (if s.receiver.PutToken? || s.barrier == Some(Answered) then [Reply(END, "")] else [])
  }

  ghost predicate WaitingInv(serve: Serve, s: State, m: Monitor) {
    && m.Owed? && EndsOnce(m.due)
    && (if s.requests != [] then
          && |s.requests| == 1 && Coming(s) == []
          && (m.session, m.due) == serve(s.session, s.requests[0])
        else
          && s.session == m.session && Coming(s) <= m.due && (!s.broken ==> Coming(s) == m.due))
    && (s.receiver.PutToken? || s.barrier == Some(Answered) ==> |Coming(s)| == 1)
    && (s.receiver.PutToken? ==> s.barrier.None?)
  }

  ghost predicate RestingInv(s: State, m: Monitor) {
    m == Idle(s.session) && Coming(s) == [] && s.requests == []
  }

  ghost predicate ClientInv(serve: Serve, s: State, m: Monitor) {
    match s.client
    case Prompting => RestingInv(s, m)
    case Waiting => WaitingInv(serve, s, m)
    case Exited => RestingInv(s, m) || (s.broken && s.receiver.Stopped? && s.barrier.None? && |s.requests| <= 1)
  }

  ghost predicate Endings(s: State) {
    && (s.barrier == Some(StreamOver) ==> s.receiver.Stopped?)
    && (s.receiver.Stopped? && !s.client.Exited? ==> s.barrier == Some(StreamOver))
    && (s.receiver.PutEnd? || s.receiver.Stopped? ==> Over(s) && s.responses == [])
    && (s.closed <==> s.client.Exited?)
    && (s.server.Ended? && !s.broken ==> s.closed)
  }

  ghost predicate Inv(serve: Serve, st: Session, s: State) {
    && WellEnded(serve) && Endings(s)
    && ObserveAll(serve, Idle(st), s.log).Some?
    && ClientInv(serve, s, ObserveAll(serve, Idle(st), s.log).value)
  }

  lemma StepKeepsEndings(serve: Serve, s: State, a: Action, m: Monitor)
    requires WellEnded(serve) && Endings(s) && ClientInv(serve, s, m) && Next(serve, s, a).Some?
    ensures Endings(Next(serve, s, a).value)
  {
    if a.PutOnBarrier? && s.client.Waiting? {
      assert s.receiver.PutToken? ==> |Coming(s)| == 1;
    }
  }

  /** A step that logs nothing leaves the monitor where it is. */
  lemma SilentStep(serve: Serve, s: State, a: Action, m: Monitor)
    requires WellEnded(serve) && Endings(s) && ClientInv(serve, s, m) && Next(serve, s, a).Some?
    requires a.SendFails? || a.ServerReceives? || a.ServerEnds? || a.ReceiveEnd? || a.PutOnBarrier? || a.Break?
    ensures ClientInv(serve, Next(serve, s, a).value, m)
  {
    var t := Next(serve, s, a).value;
    if a.ServerReceives? {
      assert Coming(t) == t.server.pending;
    } else if a.ReceiveEnd? {
      assert s.client.Waiting? ==> Coming(t) == [] || s.barrier == Some(Answered);
    } else {
      assert Coming(t) <= Coming(s);
      assert !a.Break? ==> Coming(t) == Coming(s);
    }
  }

  lemma ServerSendKeeps(serve: Serve, s: State, m: Monitor)
    requires Endings(s) && ClientInv(serve, s, m) && Next(serve, s, ServerSends).Some?
    ensures ClientInv(serve, Next(serve, s, ServerSends).value, m)
  {
    var t := Next(serve, s, ServerSends).value;
    assert Coming(t) == Coming(s);
  }

  lemma TypeObserved(serve: Serve, s: State, line: string, m: Monitor)
    requires WellEnded(serve) && ClientInv(serve, s, m) && s.client.Prompting? && line != "" && line != "exit"
    ensures Observe(serve, m, Query(line)).Some?
    ensures ClientInv(serve, Next(serve, s, Type(line)).value, Observe(serve, m, Query(line)).value)
  {
    var t := Next(serve, s, Type(line)).value;
    assert Coming(t) == Coming(s) == [];
    assert t.requests == [line];
  }

  lemma AnswerObserved(serve: Serve, s: State, m: Monitor)
    requires s.client.Waiting? && WaitingInv(serve, s, m) && s.barrier == Some(Answered)
    ensures Observe(serve, m, Answer).Some?
    ensures ClientInv(serve, Next(serve, s, TakeToken).value, Observe(serve, m, Answer).value)
  {
    assert Coming(s)[|Coming(s)| - 1] == Reply(END, "");
    assert m.due[0] == Coming(s)[0];
    assert Coming(Next(serve, s, TakeToken).value) == [];
  }

  lemma BarrierCases(s: State)
    ensures s.barrier == None || s.barrier == Some(Answered) || s.barrier == Some(StreamOver)
  {
    match s.barrier
    case None =>
    case Some(Answered) =>
    case Some(StreamOver) =>
  }

  lemma ReplyDue(serve: Serve, s: State, m: Monitor)
    requires WellEnded(serve) && Endings(s) && ClientInv(serve, s, m) && s.receiver.Reading? && s.responses != []
    ensures s.client.Waiting? && s.requests == [] && m.due[0] == s.responses[0] && s.barrier.None?
    ensures s.responses[0].status == END ==> |m.due| == 1 && s.responses[0] == Reply(END, "")
  {
    assert Coming(s)[0] == s.responses[0];
    assert s.barrier == Some(Answered) ==> |Coming(s)| >= 2;
    BarrierCases(s);
  }

  /** The end marker becomes the receiver's token: nothing else is on its way. */
  lemma MarkerKept(serve: Serve, s: State, m: Monitor)
    requires WellEnded(serve) && Endings(s) && ClientInv(serve, s, m) && s.receiver.Reading?
    requires s.responses != [] && s.responses[0].status == END
    ensures ClientInv(serve, Next(serve, s, ReceiveReply).value, m)
  {
    ReplyDue(serve, s, m);
    var t := Next(serve, s, ReceiveReply).value;
    assert |Coming(s)| == 1;
    assert t.responses == [] && Coming(t) == [Reply(END, "")];
    assert m.due == [Reply(END, "")];
  }

  lemma ReplyObserved(serve: Serve, s: State, m: Monitor)
    requires WellEnded(serve) && Endings(s) && ClientInv(serve, s, m) && s.receiver.Reading?
    requires s.responses != [] && s.responses[0].status != END
    ensures Observe(serve, m, Wrote(s.responses[0])).Some?
    ensures ClientInv(serve, Next(serve, s, ReceiveReply).value, Observe(serve, m, Wrote(s.responses[0])).value)
  {
    ReplyDue(serve, s, m);
    var t := Next(serve, s, ReceiveReply).value;
    ComingAdvances(s);
    assert Coming(t) == Coming(s)[1..];
    assert Coming(s)[1..] <= m.due[1..];
  }

  lemma ComingAdvances(s: State)
    requires s.responses != []
    ensures Coming(s.(responses := s.responses[1..])) == Coming(s)[1..]
  {
  }

  lemma TakeEnd(serve: Serve, s: State, m: Monitor)
    requires Endings(s) && ClientInv(serve, s, m) && s.client.Waiting? && s.barrier == Some(StreamOver)
    ensures ClientInv(serve, Next(serve, s, TakeToken).value, m)
  {
    assert s.broken;
  }

  /** The monitor follows a step: silently, or by observing the one event it logs. */
  ghost predicate Follows(serve: Serve, s: State, t: State, m: Monitor, m': Monitor) {
    && ClientInv(serve, t, m')
    && if t.log == s.log then m' == m
       else |t.log| == |s.log| + 1 && t.log == s.log + [t.log[|s.log|]] && Observe(serve, m, t.log[|s.log|]) == Some(m')
  }

  lemma StepObserved(serve: Serve, s: State, a: Action, m: Monitor) returns (m': Monitor)
    requires WellEnded(serve) && Endings(s) && ClientInv(serve, s, m) && Next(serve, s, a).Some?
    ensures Follows(serve, s, Next(serve, s, a).value, m, m')
  {
    m' := m;
    match a
    case Type(line) => m' := TypeFollowed(serve, s, line, m);
    case TakeToken => m' := TakeFollowed(serve, s, m);
    case ServerSends => ServerSendKeeps(serve, s, m);
    case ReceiveReply =>
      if s.responses[0].status == END {
        MarkerKept(serve, s, m);
      } else {
        ReplyObserved(serve, s, m);
        m' := Observe(serve, m, Wrote(s.responses[0])).value;
      }
    case _ => SilentStep(serve, s, a, m);
  }

  lemma TypeFollowed(serve: Serve, s: State, line: string, m: Monitor) returns (m': Monitor)
    requires WellEnded(serve) && Endings(s) && ClientInv(serve, s, m) && s.client.Prompting?
    ensures Follows(serve, s, Next(serve, s, Type(line)).value, m, m')
  {
    m' := m;
    if line == "" || line == "exit" {
      assert Coming(Next(serve, s, Type(line)).value) == Coming(s);
    } else {
      TypeObserved(serve, s, line, m);
      m' := Observe(serve, m, Query(line)).value;
    }
  }

  lemma TakeFollowed(serve: Serve, s: State, m: Monitor) returns (m': Monitor)
    requires WellEnded(serve) && Endings(s) && ClientInv(serve, s, m) && s.client.Waiting? && s.barrier.Some?
    ensures Follows(serve, s, Next(serve, s, TakeToken).value, m, m')
  {
    m' := m;
    if s.barrier == Some(Answered) {
      AnswerObserved(serve, s, m);
      m' := Observe(serve, m, Answer).value;
    } else {
      BarrierCases(s);
      TakeEnd(serve, s, m);
    }
  }

  lemma StepKeepsInv(serve: Serve, st: Session, s: State, a: Action)
    requires Inv(serve, st, s) && Next(serve, s, a).Some?
    ensures Inv(serve, st, Next(serve, s, a).value)
  {
    var m := ObserveAll(serve, Idle(st), s.log).value;
    StepKeepsEndings(serve, s, a, m);
    var m' := StepObserved(serve, s, a, m);
    var t := Next(serve, s, a).value;
    if t.log != s.log {
      ObserveMore(serve, Idle(st), s.log, t.log[|s.log|]);
    }
  }

  lemma {:induction false} RunKeepsInv(serve: Serve, st: Session, s: State, acts: seq<Action>)
    requires Inv(serve, st, s) && Exec(Machine(serve), s, acts).Some?
    ensures Inv(serve, st, Exec(Machine(serve), s, acts).value)
    decreases |acts|
  {
    if acts != [] {
      StepKeepsInv(serve, st, s, acts[0]);
      RunKeepsInv(serve, st, Next(serve, s, acts[0]).value, acts[1..]);
    }
  }

  /**
   The console protocol.  In every run, with any breaking of the stream: the client's log is accepted
   by the monitor, so there is at most one unanswered query, the replies written are exactly the next
   ones due for it, and the token is taken (and the next query sent) only after all of them; and the
   receiver never finds a token already on the barrier when it puts one for an end marker.
   */
  lemma ProtocolOrder(serve: Serve, st: Session, acts: seq<Action>)
    requires WellEnded(serve) && Exec(Machine(serve), Initial(st), acts).Some?
    ensures var s := Exec(Machine(serve), Initial(st), acts).value;
            && ObserveAll(serve, Idle(st), s.log).Some?
            && (s.receiver.PutToken? ==> s.barrier.None?)
            && |s.requests| <= 1
            && (s.client.Prompting? ==> ObserveAll(serve, Idle(st), s.log) == Some(Idle(s.session)))
  {
    RunKeepsInv(serve, st, Initial(st), acts);
  }

  // ----- Nobody is left blocked

  /** The client's own operations: receiver goroutine and token taking, but no prompt. */
  predicate Own(a: Action) { a.TakeToken? || a.ReceiveReply? || a.ReceiveEnd? || a.PutOnBarrier? }

  function Work(s: State): nat {
    3 * |s.responses|
    + (match s.receiver case Reading => 3 case PutToken => 5 case PutEnd => 2 case Stopped => 0)
    + (if s.barrier.Some? then 1 else 0)
  }

  lemma OwnStepWorks(serve: Serve, s: State, a: Action)
    requires Own(a) && Next(serve, s, a).Some?
    ensures Work(Next(serve, s, a).value) < Work(s) && (Over(s) ==> Over(Next(serve, s, a).value))
  {
  }

  lemma {:induction false} OwnRunBounded(serve: Serve, st: Session, s: State, acts: seq<Action>)
    requires Inv(serve, st, s) && Exec(Machine(serve), s, acts).Some? && forall a :: a in acts ==> Own(a)
    ensures var t := Exec(Machine(serve), s, acts).value;
            |acts| + Work(t) <= Work(s) && Inv(serve, st, t) && (Over(s) ==> Over(t))
    decreases |acts|
  {
    if acts != [] {
      assert acts[0] in acts;
      OwnStepWorks(serve, s, acts[0]);
      StepKeepsInv(serve, st, s, acts[0]);
      OwnRunBounded(serve, st, Next(serve, s, acts[0]).value, acts[1..]);
    }
  }

  ghost predicate Stuck(serve: Serve, s: State) {
    forall a :: Own(a) ==> Next(serve, s, a).None?
  }

  lemma BlockedCanStep(serve: Serve, st: Session, s: State)
    requires Inv(serve, st, s) && Over(s) && (!s.receiver.Stopped? || s.client.Waiting?)
    ensures !Stuck(serve, s)
  {
    assert s.barrier == Some(Answered) || s.receiver.PutToken? ==> Coming(s) != [];
    BarrierCases(s);
    var a := if s.client.Waiting? && s.barrier.Some? then TakeToken
             else if !s.receiver.Reading? then PutOnBarrier
             else if s.responses != [] then ReceiveReply else ReceiveEnd;
    assert Own(a) && Next(serve, s, a).Some?;
  }

  /**
   Once the stream is over, in every reachable state the client's two goroutines need at most `Work`
   more operations, and when none is left the receiver has stopped and the sender does not wait.
   */
  lemma NobodyLeftBlocked(serve: Serve, st: Session, acts: seq<Action>, own: seq<Action>)
    requires WellEnded(serve) && Exec(Machine(serve), Initial(st), acts).Some? && forall a :: a in own ==> Own(a)
    requires var s := Exec(Machine(serve), Initial(st), acts).value;
             Over(s) && Exec(Machine(serve), s, own).Some?
    ensures var s := Exec(Machine(serve), Initial(st), acts).value;
            var t := Exec(Machine(serve), s, own).value;
            && |own| <= Work(s)
            && (Stuck(serve, t) ==> t.receiver.Stopped? && !t.client.Waiting?)
  {
    RunKeepsInv(serve, st, Initial(st), acts);
    var s := Exec(Machine(serve), Initial(st), acts).value;
    OwnRunBounded(serve, st, s, own);
    var t := Exec(Machine(serve), s, own).value;
    if Stuck(serve, t) && (!t.receiver.Stopped? || t.client.Waiting?) {
      BlockedCanStep(serve, st, t);
    }
  }

  /** While the stream is intact, a waiting client is never stuck either. */
  lemma WaitingMakesProgress(serve: Serve, st: Session, acts: seq<Action>)
    requires WellEnded(serve) && Exec(Machine(serve), Initial(st), acts).Some?
    ensures var s := Exec(Machine(serve), Initial(st), acts).value;
            s.client.Waiting? ==>
              exists a :: (Own(a) || a.ServerReceives? || a.ServerSends?) && Next(serve, s, a).Some?
  {
    RunKeepsInv(serve, st, Initial(st), acts);
    var s := Exec(Machine(serve), Initial(st), acts).value;
    if s.client.Waiting? {
      if Over(s) {
        BlockedCanStep(serve, st, s);
      } else {
        var a := if s.barrier.Some? then TakeToken
                 else if s.receiver.PutToken? then PutOnBarrier
                 else if s.responses != [] then ReceiveReply
                 else if s.server.Replying? then ServerSends else ServerReceives;
        assert (Own(a) || a.ServerReceives? || a.ServerSends?) && Next(serve, s, a).Some?;
      }
    }
  }

  // ----- A session that the client has left ends

  predicate Winding(a: Action) { Own(a) || a.ServerReceives? || a.ServerSends? || a.ServerEnds? }

  function WorkToEnd(s: State): nat {
    Work(s) + match s.server case Receiving => 1 case Replying(pending) => 2 + 4 * |pending| case Ended => 0
  }

  lemma WindingStepWorks(serve: Serve, st: Session, s: State, a: Action)
    requires Inv(serve, st, s) && s.client.Exited? && Winding(a) && Next(serve, s, a).Some?
    ensures WorkToEnd(Next(serve, s, a).value) < WorkToEnd(s) && Next(serve, s, a).value.client.Exited?
  {
    if Own(a) {
      OwnStepWorks(serve, s, a);
    }
  }

  lemma {:induction false} WindingRunBounded(serve: Serve, st: Session, s: State, acts: seq<Action>)
    requires Inv(serve, st, s) && s.client.Exited? && Exec(Machine(serve), s, acts).Some?
    requires forall a :: a in acts ==> Winding(a)
    ensures var t := Exec(Machine(serve), s, acts).value;
            |acts| + WorkToEnd(t) <= WorkToEnd(s) && Inv(serve, st, t) && t.client.Exited?
    decreases |acts|
  {
    if acts != [] {
      assert acts[0] in acts;
      WindingStepWorks(serve, st, s, acts[0]);
      StepKeepsInv(serve, st, s, acts[0]);
      WindingRunBounded(serve, st, Next(serve, s, acts[0]).value, acts[1..]);
    }
  }

  lemma ServerCanEnd(serve: Serve, st: Session, s: State)
    requires Inv(serve, st, s) && s.client.Exited? && !s.server.Ended?
    ensures Next(serve, s, ServerSends).Some? || Next(serve, s, ServerEnds).Some?
  {
  }

  lemma ReceiverCanEnd(serve: Serve, st: Session, s: State)
    requires Inv(serve, st, s) && s.client.Exited? && s.server.Ended? && !s.receiver.Stopped?
    ensures exists a :: Own(a) && Next(serve, s, a).Some?
  {
    assert s.barrier == Some(Answered) || s.receiver.PutToken? ==> Coming(s) != [];
    BarrierCases(s);
    var a := if !s.receiver.Reading? then PutOnBarrier else if s.responses != [] then ReceiveReply else ReceiveEnd;
    assert Own(a) && Next(serve, s, a).Some?;
  }

  /** At the prompt of a session that is over, typing "exit" or failing to send lets the client leave. */
  lemma PromptCanLeave(serve: Serve, s: State, line: string)
    requires s.client.Prompting? && Over(s) && line != ""
    ensures var a := if line == "exit" then Type(line) else SendFails(line);
            && Next(serve, s, a).Some? && Next(serve, s, a).value.client.Exited?
            && Next(serve, s, a).value.log == s.log && Next(serve, s, a).value.requests == s.requests
  {
  }

  /**
   When the client has left, by "exit" or because the stream was over, server and receiver need at most
   `WorkToEnd` more operations, and when none is left both have ended.
   */
  lemma LeftSessionEnds(serve: Serve, st: Session, acts: seq<Action>, more: seq<Action>)
    requires WellEnded(serve) && Exec(Machine(serve), Initial(st), acts).Some?
    requires var s := Exec(Machine(serve), Initial(st), acts).value;
             s.client.Exited? && Exec(Machine(serve), s, more).Some? && forall a :: a in more ==> Winding(a)
    ensures var s := Exec(Machine(serve), Initial(st), acts).value;
            var t := Exec(Machine(serve), s, more).value;
            && |more| <= WorkToEnd(s)
            && ((forall a :: Winding(a) ==> Next(serve, t, a).None?) ==> t.server.Ended? && t.receiver.Stopped?)
  {
    RunKeepsInv(serve, st, Initial(st), acts);
    var s := Exec(Machine(serve), Initial(st), acts).value;
    WindingRunBounded(serve, st, s, more);
    var t := Exec(Machine(serve), s, more).value;
    if forall a :: Winding(a) ==> Next(serve, t, a).None? {
      assert Winding(ServerSends) && Winding(ServerEnds);
      if !t.server.Ended? {
        ServerCanEnd(serve, st, t);
      } else if !t.receiver.Stopped? {
        ReceiverCanEnd(serve, st, t);
      }
    }
  }

  // ----- The remote console acts as the local one

  function ServeAll(serve: Serve, st: Session, queries: seq<string>): Session
    decreases |queries|
  {
    if queries == [] then st else ServeAll(serve, serve(st, queries[0]).0, queries[1..])
  }

  /** The queries of a log, in order. */
  function Queries(log: seq<Event>): seq<string> {
    if log == [] then []
    else Queries(log[..|log| - 1]) + match log[|log| - 1] case Query(q) => [q] case _ => []
  }

  lemma {:induction false} ServeAllMore(serve: Serve, st: Session, queries: seq<string>, q: string)
    ensures ServeAll(serve, st, queries + [q]) == serve(ServeAll(serve, st, queries), q).0
    decreases |queries|
  {
    if queries == [] {
      assert queries + [q] == [q] && [q][1..] == [];
    } else {
      assert (queries + [q])[0] == queries[0] && (queries + [q])[1..] == queries[1..] + [q];
      ServeAllMore(serve, serve(st, queries[0]).0, queries[1..], q);
    }
  }

  /** The monitor's session is the direct execution of the queries sent so far. */
  lemma {:induction false} MonitorExecutes(serve: Serve, st: Session, log: seq<Event>)
    requires ObserveAll(serve, Idle(st), log).Some?
    ensures ObserveAll(serve, Idle(st), log).value.session == ServeAll(serve, st, Queries(log))
    decreases |log|
  {
    if log != [] {
      var front := log[..|log| - 1];
      MonitorExecutes(serve, st, front);
      if log[|log| - 1].Query? {
        ServeAllMore(serve, st, Queries(front), log[|log| - 1].query);
      } else {
        assert Queries(log) == Queries(front);
      }
    }
  }

  lemma {:induction false} SentMore(typed: seq<string>, line: string)
    requires "exit" !in typed
    ensures Sent(typed + [line]) == Sent(typed) + if line == "" || line == "exit" then [] else [line]
  {
    if typed == [] {
      assert typed + [line] == [line] && [line][1..] == [];
    } else {
      assert typed[0] in typed;
      assert (typed + [line])[0] == typed[0] && (typed + [line])[1..] == typed[1..] + [line];
      SentMore(typed[1..], line);
    }
  }

  /** What was typed is what was sent. */
  ghost predicate TypedInv(s: State) {
    && Queries(s.log) == Sent(s.typed)
    && (!s.client.Exited? ==> "exit" !in s.typed)
  }

  lemma QueriesMore(log: seq<Event>, e: Event)
    ensures Queries(log + [e]) == Queries(log) + match e case Query(q) => [q] case _ => []
  {
    assert (log + [e])[..|log|] == log;
  }

  lemma StepKeepsTypedInv(serve: Serve, s: State, a: Action)
    requires TypedInv(s) && Next(serve, s, a).Some?
    ensures TypedInv(Next(serve, s, a).value)
  {
    if a.Type? {
      TypeKeepsTypedInv(serve, s, a.line);
    } else {
      var e := OthersSendNothing(serve, s, a);
      QueriesMore(s.log, e);
    }
  }

  lemma OthersSendNothing(serve: Serve, s: State, a: Action) returns (e: Event)
    requires !a.Type? && Next(serve, s, a).Some?
    ensures var t := Next(serve, s, a).value;
            t.typed == s.typed && (s.client.Exited? ==> t.client.Exited?) && (t.log == s.log || t.log == s.log + [e])
    ensures !e.Query?
  {
    e := if a.ReceiveReply? then Wrote(s.responses[0]) else Answer;
  }

  lemma TypeKeepsTypedInv(serve: Serve, s: State, line: string)
    requires TypedInv(s) && s.client.Prompting?
    ensures TypedInv(Next(serve, s, Type(line)).value)
  {
    SentMore(s.typed, line);
    QueriesMore(s.log, Query(line));
  }

  lemma TypedHolds(serve: Serve, st: Session, acts: seq<Action>)
    requires Exec(Machine(serve), Initial(st), acts).Some?
    ensures TypedInv(Exec(Machine(serve), Initial(st), acts).value)
  {
    forall s, a | TypedInv(s) && Machine(serve)(s, a).Some? ensures TypedInv(Machine(serve)(s, a).value) {
      StepKeepsTypedInv(serve, s, a);
    }
    Invariant(Machine(serve), TypedInv, Initial(st), acts);
  }

  lemma {:induction false} ServeAllIsRemoteRun(env: Env, st: Session, queries: seq<string>)
    ensures ServeAll(Rounds(env), st, queries) == RemoteRun(env, st, queries)
    decreases |queries|
  {
    if queries != [] {
      ServeAllIsRemoteRun(env, RemoteRound(env, st, queries[0]).0, queries[1..]);
    }
  }

  /**
   Over an unbroken stream the remote console, in every interleaving of client and server, leaves the
   stores and the selected storage exactly as the local console does on the same typed lines.
   */
  lemma RemoteActsAsLocal(env: Env, st: Session, acts: seq<Action>)
    requires Exec(Machine(Rounds(env)), Initial(st), acts).Some?
    ensures var s := Exec(Machine(Rounds(env)), Initial(st), acts).value;
            !s.broken && !s.client.Waiting? ==> s.session == LocalRun(env, st, s.typed).session
  {
    var serve := Rounds(env);
    RunKeepsInv(serve, st, Initial(st), acts);
    TypedHolds(serve, st, acts);
    var s := Exec(Machine(serve), Initial(st), acts).value;
    MonitorExecutes(serve, st, s.log);
    ServeAllIsRemoteRun(env, st, Queries(s.log));
    ConsolesAgree(env, st, s.typed);
  }
}
