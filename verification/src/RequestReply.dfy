/** Requests and replies on one DCA connection.

    The server numbers its requests and keeps, for every request in flight, a channel
    in `Receive`. The client answers with the id of the message it handled. The reader
    looks the id up under the lock, and only afterwards offers the reply on the channel
    it found. Requests may time out while sending or while waiting; messages may be
    lost, delayed and repeated. The system is modelled as a state machine over these
    steps, and the class `Client` has the three operations under the lock. */
module RequestReply {
  import opened Bytes

  const MAX_INT64: int := 0x7FFF_FFFF_FFFF_FFFF

  /** Number of ids in use: 1 to MAX_INT64 - 1. */
  const IDS: int := MAX_INT64 - 1

  type Action = string

  // ------------------------------------------------------------------------------
  // The fields under the connection's mutex
  // ------------------------------------------------------------------------------

  /** `channels` counts the channels made so far; a channel is known by its number. */
  datatype Slots = Slots(messageNumber: int, receive: map<int, nat>, channels: nat)

  const NoSlots := Slots(1, map[], 0)

  function NextId(messageNumber: int): int {
    if messageNumber > MAX_INT64 - 1 then 1 else messageNumber
  }

  function Issue(c: Slots): Slots {
    var id := NextId(c.messageNumber);
    Slots(id + 1, c.receive[id := c.channels], c.channels + 1)
  }

  function Release(c: Slots, id: int): Slots {
    c.(receive := c.receive - {id})
  }

  class Client {
    var messageNumber: int
    var receive: map<int, nat>
    var channels: nat

    ghost function View(): Slots
      reads this
    {
      Slots(messageNumber, receive, channels)
    }

    constructor ()
      ensures View() == NoSlots
    {
      messageNumber, receive, channels := 1, map[], 0;
    }

    /** getMessageNumber. The counter never leaves the range of int64, and the id is
        never 0, which marks pushed messages. */
    method GetMessageNumber() returns (id: int, ch: nat)
      requires 1 <= messageNumber <= MAX_INT64
      modifies this
      ensures View() == Issue(old(View()))
      ensures id == NextId(old(messageNumber)) && 1 <= id <= IDS
      ensures 1 <= messageNumber <= MAX_INT64
      ensures id in receive && receive[id] == ch && ch == old(channels)
    {
      id := messageNumber;
      if id > MAX_INT64 - 1 {
        messageNumber := 1;
        id := 1;
      }
      messageNumber := messageNumber + 1;
      ch := channels;
      channels := channels + 1;
      receive := receive[id := ch];
    }

    method ReleaseMessageCh(id: int)
      modifies this
      ensures View() == Release(old(View()), id)
    {
      receive := receive - {id};
    }

    method GetMessageCh(id: int) returns (ch: Option<nat>)
      ensures ch == if id in receive then Some(receive[id]) else None
    {
      if id in receive {
        ch := Some(receive[id]);
      } else {
        ch := None;
      }
    }
  }

  // ------------------------------------------------------------------------------
  // The state machine
  // ------------------------------------------------------------------------------

  /** The number of a request, counted from 0, in the order of their beginning. It is
      carried along to say which request a message belongs to; no step looks at it. */
  type Ticket = nat

  /** A message for the client; id 0 expects no reply. */
  datatype Msg = Msg(id: int, action: Action, ticket: Ticket)

  /** A message from the client: a reply, or a pushed message when the id is 0.
      `response` tells whether the data decodes to a DCAResponse. */
  datatype Reply = Reply(id: int, action: Action, response: bool, content: string, ticket: Ticket)

  datatype Outcome = TimedOut | Rejected(reply: Reply) | Accepted(reply: Reply)

  datatype Phase = Sending | Waiting | Ended(outcome: Outcome) | Left(outcome: Outcome)

  datatype Request = Request(id: int, ch: nat, action: Action, phase: Phase)

  datatype Reader = Idle | Offering(ch: nat, reply: Reply)

  /** Messages that were ever handed to a writer stay in the two sets, so they can be
      written and delivered late, repeatedly, in any order or never. */
  datatype State = State(
    slots: Slots,
    requests: seq<Request>,
    toClient: set<Msg>,
    toServer: set<Reply>,
    reader: Reader)

  const Start := State(NoSlots, [], {}, {}, Idle)

  datatype Step =
    | Begin(action: Action)
    | Sent(k: nat)
    | SendTimeout(k: nat)
    | SendUnnumbered(action: Action)
    | Handle(m: Msg, response: bool, content: string)
    | HandleFailed(m: Msg, content: string)
    | Push(action: Action, content: string)
    | Read(r: Reply)
    | OfferTimeout
    | Deliver(k: nat)
    | WaitTimeout(k: nat)
    | Leave(k: nat)

  predicate InPhase(s: State, k: nat, p: Phase) {
    k < |s.requests| && s.requests[k].phase == p
  }

  /** `handlers` gives, for every action the client knows, the action its replies name. */
  predicate Enabled(s: State, step: Step, handlers: map<Action, Action>) {
    match step
    case Begin(_) => true
    case Sent(k) => InPhase(s, k, Sending)
    case SendTimeout(k) => InPhase(s, k, Sending)
    case SendUnnumbered(_) => true
    case Handle(m, _, _) => m in s.toClient && m.action in handlers
    case HandleFailed(m, _) => m in s.toClient
    case Push(_, _) => true
    case Read(r) => s.reader.Idle? && r in s.toServer
    case OfferTimeout => s.reader.Offering?
    case Deliver(k) => s.reader.Offering? && InPhase(s, k, Waiting) && s.requests[k].ch == s.reader.ch
    case WaitTimeout(k) => InPhase(s, k, Waiting)
    case Leave(k) => k < |s.requests| && s.requests[k].phase.Ended?
  }

  function SetPhase(s: State, k: nat, p: Phase): State
    requires k < |s.requests|
  {
    s.(requests := s.requests[k := s.requests[k].(phase := p)])
  }

  /** What `request` makes of the reply it received. */
  function Judge(action: Action, r: Reply): Outcome {
    if r.response && r.action == action then Accepted(r) else Rejected(r)
  }

  function Apply(s: State, step: Step, handlers: map<Action, Action>): (s': State)
    requires Enabled(s, step, handlers)
  {
    match step
    case Begin(action) =>
      s.(slots := Issue(s.slots),
         requests := s.requests + [Request(NextId(s.slots.messageNumber), s.slots.channels, action, Sending)])
    case Sent(k) =>
      var req := s.requests[k];
      SetPhase(s, k, Waiting).(toClient := s.toClient + {Msg(req.id, req.action, k)})
    case SendTimeout(k) => SetPhase(s, k, Ended(TimedOut))
    case SendUnnumbered(action) => s.(toClient := s.toClient + {Msg(0, action, 0)})
    case Handle(m, response, content) =>
      s.(toServer := s.toServer + {Reply(m.id, handlers[m.action], response, content, m.ticket)})
    case HandleFailed(m, content) =>
      s.(toServer := s.toServer + {Reply(m.id, m.action, true, content, m.ticket)})
    case Push(action, content) =>
      s.(toServer := s.toServer + {Reply(0, action, false, content, 0)})
    case Read(r) =>
      if r.id != 0 && r.id in s.slots.receive then s.(reader := Offering(s.slots.receive[r.id], r)) else s
    case OfferTimeout => s.(reader := Idle)
    case Deliver(k) =>
      SetPhase(s, k, Ended(Judge(s.requests[k].action, s.reader.reply))).(reader := Idle)
    case WaitTimeout(k) => SetPhase(s, k, Ended(TimedOut))
    case Leave(k) =>
      SetPhase(s, k, Left(s.requests[k].phase.outcome)).(slots := Release(s.slots, s.requests[k].id))
  }

  /** The state after `steps`, if all of them can be taken. */
  function Exec(s: State, steps: seq<Step>, handlers: map<Action, Action>): (r: Option<State>)
    decreases |steps|
  {
    if steps == [] then Some(s)
    else if Enabled(s, steps[0], handlers) then Exec(Apply(s, steps[0], handlers), steps[1..], handlers)
    else None
  }

  // ------------------------------------------------------------------------------
  // Numbering, for any number of requests
  // ------------------------------------------------------------------------------

  /** The id of request `k`. */
  function IdOf(k: nat): int { k % IDS + 1 }

  /** The counter after `n` requests. */
  function CounterAfter(n: nat): int { if n == 0 then 1 else IdOf(n - 1) + 1 }

  ghost predicate Numbered(s: State) {
    && s.slots.channels == |s.requests|
    && s.slots.messageNumber == CounterAfter(|s.requests|)
    && forall k :: 0 <= k < |s.requests| ==> s.requests[k].id == IdOf(k) && s.requests[k].ch == k
  }

  lemma NextIdIsIdOf(n: nat)
    ensures NextId(CounterAfter(n)) == IdOf(n)
  {
    if n > 0 {
      var r := (n - 1) % IDS;
      assert n % IDS == if r + 1 == IDS then 0 else r + 1;
    }
  }

  lemma NumberedStep(s: State, step: Step, handlers: map<Action, Action>)
    requires Numbered(s) && Enabled(s, step, handlers)
    ensures Numbered(Apply(s, step, handlers))
  {
    if step.Begin? {
      NextIdIsIdOf(|s.requests|);
    }
  }

  lemma {:induction false} NumberedRun(s: State, steps: seq<Step>, handlers: map<Action, Action>)
    requires Numbered(s) && Exec(s, steps, handlers).Some?
    ensures Numbered(Exec(s, steps, handlers).value)
    decreases |steps|
  {
    if steps != [] {
      NumberedStep(s, steps[0], handlers);
      NumberedRun(Apply(s, steps[0], handlers), steps[1..], handlers);
    }
  }

  /** In every run, of any length, the k-th request has id k mod (2^63 - 2) + 1; no id
      is 0 and neither ids nor the counter leave the range of int64. */
  lemma IdsOfEveryRun(steps: seq<Step>, handlers: map<Action, Action>)
    requires Exec(Start, steps, handlers).Some?
    ensures
      var s := Exec(Start, steps, handlers).value;
      && 1 <= s.slots.messageNumber <= MAX_INT64
      && forall k :: 0 <= k < |s.requests| ==> s.requests[k].id == k % IDS + 1 && 1 <= s.requests[k].id < MAX_INT64
  {
    NumberedRun(Start, steps, handlers);
  }

  // ------------------------------------------------------------------------------
  // Correlation, for at most 2^63 - 2 requests
  // ------------------------------------------------------------------------------

  /** Receive holds exactly the channels of the requests in flight. */
  ghost predicate SlotsMatch(s: State) {
    && (forall id :: id in s.slots.receive ==> 1 <= id <= |s.requests| && s.slots.receive[id] == id - 1)
    && (forall k :: 0 <= k < |s.requests| ==> (k + 1 in s.slots.receive <==> !s.requests[k].phase.Left?))
  }

  /** A message for the client is unnumbered or was sent by the request it names. */
  ghost predicate MsgsMatch(s: State) {
    forall m :: m in s.toClient ==>
      m.id == 0 ||
      (m.ticket < |s.requests| && m.id == m.ticket + 1 && m.action == s.requests[m.ticket].action
       && !s.requests[m.ticket].phase.Sending?)
  }

  /** The message of a request that waits is on its way. */
  ghost predicate SentMatch(s: State) {
    forall k :: 0 <= k < |s.requests| && s.requests[k].phase.Waiting? ==> Msg(k + 1, s.requests[k].action, k) in s.toClient
  }

  /** A numbered message from the client answers a message that was sent to it. */
  ghost predicate Answers(s: State, r: Reply, handlers: map<Action, Action>) {
    exists m :: m in s.toClient && m.id == r.id && m.ticket == r.ticket
                && (r.action == m.action || (m.action in handlers && r.action == handlers[m.action]))
  }

  ghost predicate RepliesMatch(s: State, handlers: map<Action, Action>) {
    forall r :: r in s.toServer ==> r.id == 0 || Answers(s, r, handlers)
  }

  ghost predicate ReaderMatches(s: State) {
    s.reader.Offering? ==>
      s.reader.reply in s.toServer && s.reader.reply.id != 0 && s.reader.ch == s.reader.reply.id - 1
  }

  predicate GotOwnReply(s: State, k: nat, o: Outcome)
    requires k < |s.requests|
  {
    match o
    case TimedOut => true
    case Rejected(r) => r in s.toServer && r.id == k + 1
    case Accepted(r) => r in s.toServer && r.id == k + 1 && r.action == s.requests[k].action && r.response
  }

  ghost predicate OutcomesMatch(s: State) {
    forall k :: 0 <= k < |s.requests| && (s.requests[k].phase.Ended? || s.requests[k].phase.Left?) ==>
      GotOwnReply(s, k, s.requests[k].phase.outcome)
  }

  ghost predicate Inv(s: State, handlers: map<Action, Action>) {
    && Numbered(s) && |s.requests| <= IDS
    && SlotsMatch(s) && MsgsMatch(s) && SentMatch(s) && RepliesMatch(s, handlers) && ReaderMatches(s) && OutcomesMatch(s)
  }

  lemma IdIsTicket(s: State, k: nat)
    requires Numbered(s) && |s.requests| <= IDS && k < |s.requests|
    ensures s.requests[k].id == k + 1
  {
  }

  lemma AnswersKept(s: State, s': State, handlers: map<Action, Action>)
    requires RepliesMatch(s, handlers) && s.toClient <= s'.toClient
    ensures forall r :: r in s.toServer ==> r.id == 0 || Answers(s', r, handlers)
  {
    forall r | r in s.toServer && r.id != 0
      ensures Answers(s', r, handlers)
    {
      var m :| m in s.toClient && m.id == r.id && m.ticket == r.ticket
               && (r.action == m.action || (m.action in handlers && r.action == handlers[m.action]));
      assert m in s'.toClient;
    }
  }

  lemma BeginStep(s: State, action: Action, handlers: map<Action, Action>)
    requires Inv(s, handlers) && |s.requests| < IDS
    ensures Inv(Apply(s, Begin(action), handlers), handlers)
  {
    var s' := Apply(s, Begin(action), handlers);
    var n := |s.requests|;
    NumberedStep(s, Begin(action), handlers);
    assert NextId(s.slots.messageNumber) == n + 1;
    assert forall k :: 0 <= k < n ==> s'.requests[k] == s.requests[k];
    AnswersKept(s, s', handlers);
  }

  /** A request in flight moves on and stays in flight. */
  lemma PhaseStep(s: State, k: nat, p: Phase, handlers: map<Action, Action>)
    requires Inv(s, handlers) && (k < |s.requests| && !s.requests[k].phase.Left?) && !p.Left? && !p.Sending?
    requires p.Waiting? ==> Msg(k + 1, s.requests[k].action, k) in s.toClient
    requires p.Ended? ==> GotOwnReply(s, k, p.outcome)
    ensures Inv(SetPhase(s, k, p), handlers)
  {
    var s' := SetPhase(s, k, p);
    AnswersKept(s, s', handlers);
  }

  lemma LeaveStep(s: State, k: nat, handlers: map<Action, Action>)
    requires Inv(s, handlers) && Enabled(s, Leave(k), handlers)
    ensures Inv(Apply(s, Leave(k), handlers), handlers)
  {
    var s' := Apply(s, Leave(k), handlers);
    IdIsTicket(s, k);
    NumberedStep(s, Leave(k), handlers);
    AnswersKept(s, s', handlers);
  }

  lemma MessageStep(s: State, m: Msg, handlers: map<Action, Action>)
    requires Inv(s, handlers)
    requires m.id == 0 ||
             (m.ticket < |s.requests| && m.id == m.ticket + 1 && m.action == s.requests[m.ticket].action
              && !s.requests[m.ticket].phase.Sending?)
    ensures Inv(s.(toClient := s.toClient + {m}), handlers)
  {
    AnswersKept(s, s.(toClient := s.toClient + {m}), handlers);
  }

  lemma ReplyStep(s: State, r: Reply, handlers: map<Action, Action>)
    requires Inv(s, handlers)
    requires r.id == 0 || Answers(s, r, handlers)
    ensures Inv(s.(toServer := s.toServer + {r}), handlers)
  {
    var s' := s.(toServer := s.toServer + {r});
    AnswersKept(s, s', handlers);
    if r.id != 0 {
      AnswersKept(s.(toServer := {r}), s', handlers);
    }
    assert forall k, o :: 0 <= k < |s.requests| && GotOwnReply(s, k, o) ==> GotOwnReply(s', k, o);
  }

  lemma ReaderStep(s: State, reader: Reader, handlers: map<Action, Action>)
    requires Inv(s, handlers) && ReaderMatches(s.(reader := reader))
    ensures Inv(s.(reader := reader), handlers)
  {
    var s' := s.(reader := reader);
    AnswersKept(s, s', handlers);
  }

  /** The request goes on to wait and its message on its way, in one step. */
  lemma SentStep(s: State, k: nat, handlers: map<Action, Action>)
    requires Inv(s, handlers) && Enabled(s, Sent(k), handlers)
    ensures Inv(Apply(s, Sent(k), handlers), handlers)
  {
    IdIsTicket(s, k);
    var s' := Apply(s, Sent(k), handlers);
    AnswersKept(s, s', handlers);
    assert forall j, o :: 0 <= j < |s.requests| && GotOwnReply(s, j, o) ==> GotOwnReply(s', j, o);
  }

  lemma InvStep(s: State, step: Step, handlers: map<Action, Action>)
    requires Inv(s, handlers) && Enabled(s, step, handlers)
    requires step.Begin? ==> |s.requests| < IDS
    ensures Inv(Apply(s, step, handlers), handlers)
  {
    match step
    case Begin(action) => BeginStep(s, action, handlers);
    case Sent(k) => SentStep(s, k, handlers);
    case SendTimeout(k) => PhaseStep(s, k, Ended(TimedOut), handlers);
    case SendUnnumbered(action) => MessageStep(s, Msg(0, action, 0), handlers);
    case Handle(m, response, content) =>
      ReplyStep(s, Reply(m.id, handlers[m.action], response, content, m.ticket), handlers);
    case HandleFailed(m, content) =>
      ReplyStep(s, Reply(m.id, m.action, true, content, m.ticket), handlers);
    case Push(action, content) => ReplyStep(s, Reply(0, action, false, content, 0), handlers);
    case Read(r) =>
      if r.id != 0 && r.id in s.slots.receive {
        ReaderStep(s, Offering(s.slots.receive[r.id], r), handlers);
      }
    case OfferTimeout => ReaderStep(s, Idle, handlers);
    case Deliver(k) =>
      PhaseStep(s, k, Ended(Judge(s.requests[k].action, s.reader.reply)), handlers);
      ReaderStep(SetPhase(s, k, Ended(Judge(s.requests[k].action, s.reader.reply))), Idle, handlers);
    case WaitTimeout(k) => PhaseStep(s, k, Ended(TimedOut), handlers);
    case Leave(k) => LeaveStep(s, k, handlers);
  }

  /** Requests are never forgotten, so a bound on the final number bounds all of them. */
  lemma {:induction false} RequestsGrow(s: State, steps: seq<Step>, handlers: map<Action, Action>)
    requires Exec(s, steps, handlers).Some?
    ensures |s.requests| <= |Exec(s, steps, handlers).value.requests|
    decreases |steps|
  {
    if steps != [] {
      RequestsGrow(Apply(s, steps[0], handlers), steps[1..], handlers);
    }
  }

  lemma {:induction false} InvRun(s: State, steps: seq<Step>, handlers: map<Action, Action>)
    requires Inv(s, handlers) && Exec(s, steps, handlers).Some?
    requires |Exec(s, steps, handlers).value.requests| <= IDS
    ensures Inv(Exec(s, steps, handlers).value, handlers)
    decreases |steps|
  {
    if steps != [] {
      var s' := Apply(s, steps[0], handlers);
      RequestsGrow(s', steps[1..], handlers);
      InvStep(s, steps[0], handlers);
      InvRun(s', steps[1..], handlers);
    }
  }

  /** Whatever reply request `k` consumed carries its id and was produced by the client
      on handling the message that request `k` sent; it is accepted only if it is a
      response to its action. */
  ghost predicate Correlated(s: State, k: nat)
    requires k < |s.requests|
  {
    var req := s.requests[k];
    (req.phase.Ended? || req.phase.Left?) && !req.phase.outcome.TimedOut? ==>
      var r := req.phase.outcome.reply;
      && r.id == req.id && r.ticket == k && r in s.toServer
      && Msg(req.id, req.action, k) in s.toClient
      && (req.phase.outcome.Accepted? ==> r.action == req.action && r.response)
  }

  /** In every run with at most 2^63 - 2 requests, replies reach their own request only,
      however late, often and out of order they arrive, and Receive holds exactly the
      channels of the requests in flight. */
  lemma RepliesReachTheirRequest(steps: seq<Step>, handlers: map<Action, Action>)
    requires Exec(Start, steps, handlers).Some?
    requires |Exec(Start, steps, handlers).value.requests| <= IDS
    ensures
      var s := Exec(Start, steps, handlers).value;
      && (forall k :: 0 <= k < |s.requests| ==> Correlated(s, k))
      && (forall k :: 0 <= k < |s.requests| ==>
            (s.requests[k].id in s.slots.receive <==> !s.requests[k].phase.Left?))
      && (forall id :: id in s.slots.receive ==>
            exists k :: 0 <= k < |s.requests| && s.requests[k].id == id && s.requests[k].ch == s.slots.receive[id])
  {
    InvRun(Start, steps, handlers);
    var s := Exec(Start, steps, handlers).value;
    forall k | 0 <= k < |s.requests|
      ensures s.requests[k].id == k + 1 && Correlated(s, k)
    {
      IdIsTicket(s, k);
      var p := s.requests[k].phase;
      if (p.Ended? || p.Left?) && !p.outcome.TimedOut? {
        ReplyOfRequest(s, k, p.outcome.reply, handlers);
      }
    }
    forall id | id in s.slots.receive
      ensures exists k :: 0 <= k < |s.requests| && s.requests[k].id == id && s.requests[k].ch == s.slots.receive[id]
    {
      assert s.requests[id - 1].id == id && s.requests[id - 1].ch == id - 1;
    }
  }

  lemma ReplyOfRequest(s: State, k: nat, r: Reply, handlers: map<Action, Action>)
    requires Inv(s, handlers) && k < |s.requests| && r in s.toServer && r.id == k + 1
    ensures r.ticket == k && Msg(k + 1, s.requests[k].action, k) in s.toClient
  {
    assert Answers(s, r, handlers);
    var m :| m in s.toClient && m.id == r.id && m.ticket == r.ticket
             && (r.action == m.action || (m.action in handlers && r.action == handlers[m.action]));
    assert m == Msg(k + 1, s.requests[k].action, k);
  }

  // ------------------------------------------------------------------------------
  // A request that is answered succeeds
  // ------------------------------------------------------------------------------

  lemma ExecStep(s: State, steps: seq<Step>, handlers: map<Action, Action>)
    requires steps != [] && Enabled(s, steps[0], handlers)
    ensures Exec(s, steps, handlers) == Exec(Apply(s, steps[0], handlers), steps[1..], handlers)
  {
  }

  /** A reply on its way reaches the waiting request that it names: it can be read and
      delivered, and it ends the request as accepted exactly if it is a response under
      the action of the request. */
  lemma ReplyIsDelivered(s: State, k: nat, r: Reply, handlers: map<Action, Action>)
    requires Inv(s, handlers) && InPhase(s, k, Waiting) && s.reader.Idle? && r in s.toServer && r.id == k + 1
    ensures
      var e := Exec(s, [Read(r), Deliver(k)], handlers);
      && e.Some? && |e.value.requests| == |s.requests| && e.value.reader.Idle?
      && e.value.requests[k] == s.requests[k].(
           phase := Ended(if r.response && r.action == s.requests[k].action then Accepted(r) else Rejected(r)))
  {
    var steps := [Read(r), Deliver(k)];
    IdIsTicket(s, k);
    assert s.slots.receive[k + 1] == k;
    var t := Apply(s, Read(r), handlers);
    ExecStep(s, steps, handlers);
    assert steps[1..] == [Deliver(k)];
    ExecStep(t, [Deliver(k)], handlers);
    assert [Deliver(k)][1..] == [];
  }

  /** In every run with at most 2^63 - 2 requests: the message of a waiting request can be
      handled, and the reply then be read and delivered. The request succeeds, with the
      content of the reply, exactly if the handler replies with a response under the
      action of the request. */
  lemma HandledRequestIsAnswered(steps: seq<Step>, handlers: map<Action, Action>, k: nat, response: bool, content: string)
    requires Exec(Start, steps, handlers).Some?
    requires
      var s := Exec(Start, steps, handlers).value;
      |s.requests| <= IDS && InPhase(s, k, Waiting) && s.reader.Idle? && s.requests[k].action in handlers
    ensures
      var s := Exec(Start, steps, handlers).value;
      var req := s.requests[k];
      var r := Reply(req.id, handlers[req.action], response, content, k);
      var e := Exec(s, [Handle(Msg(req.id, req.action, k), response, content), Read(r), Deliver(k)], handlers);
      && e.Some? && |e.value.requests| == |s.requests|
      && e.value.requests[k].phase
         == Ended(if response && handlers[req.action] == req.action then Accepted(r) else Rejected(r))
  {
    InvRun(Start, steps, handlers);
    var s := Exec(Start, steps, handlers).value;
    IdIsTicket(s, k);
    var req := s.requests[k];
    var r := Reply(req.id, handlers[req.action], response, content, k);
    var handle := Handle(Msg(req.id, req.action, k), response, content);
    var all := [handle, Read(r), Deliver(k)];
    var t := Apply(s, handle, handlers);
    InvStep(s, handle, handlers);
    ExecStep(s, all, handlers);
    assert all[1..] == [Read(r), Deliver(k)];
    ReplyIsDelivered(t, k, r, handlers);
  }

  /** A message that the client cannot handle is answered by an error response under its
      own action, which the request accepts. */
  lemma FailedRequestIsAnswered(steps: seq<Step>, handlers: map<Action, Action>, k: nat, content: string)
    requires Exec(Start, steps, handlers).Some?
    requires
      var s := Exec(Start, steps, handlers).value;
      |s.requests| <= IDS && InPhase(s, k, Waiting) && s.reader.Idle?
    ensures
      var s := Exec(Start, steps, handlers).value;
      var req := s.requests[k];
      var r := Reply(req.id, req.action, true, content, k);
      var e := Exec(s, [HandleFailed(Msg(req.id, req.action, k), content), Read(r), Deliver(k)], handlers);
      e.Some? && |e.value.requests| == |s.requests| && e.value.requests[k].phase == Ended(Accepted(r))
  {
    InvRun(Start, steps, handlers);
    var s := Exec(Start, steps, handlers).value;
    IdIsTicket(s, k);
    var req := s.requests[k];
    var r := Reply(req.id, req.action, true, content, k);
    var handle := HandleFailed(Msg(req.id, req.action, k), content);
    var all := [handle, Read(r), Deliver(k)];
    var t := Apply(s, handle, handlers);
    InvStep(s, handle, handlers);
    ExecStep(s, all, handlers);
    assert all[1..] == [Read(r), Deliver(k)];
    ReplyIsDelivered(t, k, r, handlers);
  }

  /** After any run a request for `action` can begin; it is the next one, and once it is
      sent it waits and its message can be handled. */
  lemma RequestGoesOut(steps: seq<Step>, handlers: map<Action, Action>, action: Action)
    requires Exec(Start, steps, handlers).Some?
    ensures
      var s := Exec(Start, steps, handlers).value;
      var k := |s.requests|;
      var e := Exec(s, [Begin(action), Sent(k)], handlers);
      && e.Some? && |e.value.requests| == k + 1 && e.value.requests[..k] == s.requests
      && e.value.requests[k] == Request(IdOf(k), k, action, Waiting)
      && Msg(IdOf(k), action, k) in e.value.toClient && e.value.reader == s.reader
  {
    NumberedRun(Start, steps, handlers);
    var s := Exec(Start, steps, handlers).value;
    var k := |s.requests|;
    NextIdIsIdOf(k);
    var both := [Begin(action), Sent(k)];
    ExecStep(s, both, handlers);
    assert both[1..] == [Sent(k)];
    ExecStep(Apply(s, Begin(action), handlers), [Sent(k)], handlers);
    assert [Sent(k)][1..] == [];
  }

  /** What a request ended with. */
  predicate EndedWith(s: State, k: nat, o: Outcome) {
    k < |s.requests| && (s.requests[k].phase == Ended(o) || s.requests[k].phase == Left(o))
  }

  /** The outcome of a request, and what it asked for, never change any more. */
  lemma {:induction false} OutcomeStays(s: State, steps: seq<Step>, handlers: map<Action, Action>, k: nat, o: Outcome)
    requires EndedWith(s, k, o) && Exec(s, steps, handlers).Some?
    ensures EndedWith(Exec(s, steps, handlers).value, k, o)
    ensures Exec(s, steps, handlers).value.requests[k].action == s.requests[k].action
    decreases |steps|
  {
    if steps != [] {
      OutcomeStays(Apply(s, steps[0], handlers), steps[1..], handlers, k, o);
    }
  }

  /** Nothing keeps a request from timing out while it sends or waits, nor from leaving
      once it has ended. */
  lemma RequestCanLeave(s: State, k: nat, handlers: map<Action, Action>)
    requires k < |s.requests|
    ensures InPhase(s, k, Sending) ==> EndedWith(Apply(s, SendTimeout(k), handlers), k, TimedOut)
    ensures InPhase(s, k, Waiting) ==> EndedWith(Apply(s, WaitTimeout(k), handlers), k, TimedOut)
    ensures s.requests[k].phase.Ended? ==>
              && Apply(s, Leave(k), handlers).requests[k].phase == Left(s.requests[k].phase.outcome)
              && Apply(s, Leave(k), handlers).slots.receive == s.slots.receive - {s.requests[k].id}
  {
  }

  /** A reply that names no request in flight, and a pushed message, are read without
      effect; an offer that nobody takes ends, and the reader goes on. */
  lemma ReaderGoesOn(s: State, r: Reply, handlers: map<Action, Action>)
    requires s.reader.Idle? && r in s.toServer
    ensures r.id == 0 || r.id !in s.slots.receive ==> Apply(s, Read(r), handlers) == s
    ensures r.id != 0 && r.id in s.slots.receive ==>
              && Apply(s, Read(r), handlers).reader == Offering(s.slots.receive[r.id], r)
              && Apply(Apply(s, Read(r), handlers), OfferTimeout, handlers) == s
  {
  }

  /** Messages without a number go out and come in, and touch no request. */
  lemma UnnumberedMessages(s: State, action: Action, content: string, handlers: map<Action, Action>)
    ensures Apply(s, SendUnnumbered(action), handlers) == s.(toClient := s.toClient + {Msg(0, action, 0)})
    ensures Apply(s, Push(action, content), handlers) == s.(toServer := s.toServer + {Reply(0, action, false, content, 0)})
  {
  }

  // ------------------------------------------------------------------------------
  // The bound is exact
  // ------------------------------------------------------------------------------

  lemma {:induction false} ExecConcat(s: State, a: seq<Step>, b: seq<Step>, handlers: map<Action, Action>)
    requires Exec(s, a, handlers).Some?
    ensures Exec(s, a + b, handlers) == Exec(Exec(s, a, handlers).value, b, handlers)
    decreases |a|
  {
    if a == [] {
      assert a + b == b;
    } else {
      assert (a + b)[1..] == a[1..] + b;
      ExecConcat(Apply(s, a[0], handlers), a[1..], b, handlers);
    }
  }

  /** `n` requests that all time out before they are sent. */
  function Abandoned(first: nat, n: nat): seq<Step>
    decreases n
  {
    if n == 0 then [] else [Begin(""), SendTimeout(first), Leave(first)] + Abandoned(first + 1, n - 1)
  }

  lemma {:induction false} AbandonedRun(s: State, n: nat)
    requires Numbered(s) && s.reader.Idle?
    ensures
      var r := Exec(s, Abandoned(|s.requests|, n), map[]);
      && r.Some? && Numbered(r.value) && |r.value.requests| == |s.requests| + n
      && r.value.toServer == s.toServer && r.value.toClient == s.toClient && r.value.reader.Idle?
    decreases n
  {
    if n > 0 {
      var k := |s.requests|;
      var head := [Begin(""), SendTimeout(k), Leave(k)];
      var s1 := Apply(s, Begin(""), map[]);
      var s2 := Apply(s1, SendTimeout(k), map[]);
      var s3 := Apply(s2, Leave(k), map[]);
      NumberedStep(s, Begin(""), map[]);
      assert Exec(s2, head[1..][1..], map[]) == Exec(s3, head[1..][1..][1..], map[]);
      assert Exec(s, head, map[]) == Some(s3);
      AbandonedRun(s3, n - 1);
      ExecConcat(s, head, Abandoned(k + 1, n - 1), map[]);
    }
  }

  /** With one request more, id 1 is in use again, and a late reply to the first
      request is accepted by the last one. */
  lemma OneMoreRequestMixesReplies()
    ensures exists steps, r ::
              && Exec(Start, steps, map[]).Some?
              && |Exec(Start, steps, map[]).value.requests| == IDS + 1
              && Exec(Start, steps, map[]).value.requests[IDS].phase == Ended(Accepted(r))
              && r.ticket == 0
  {
    var m := Msg(1, "a", 0);
    var late := Reply(1, "a", true, "", 0);
    var s1 := Apply(Start, Begin("a"), map[]);
    var s2 := Apply(s1, Sent(0), map[]);
    var s3 := Apply(s2, HandleFailed(m, ""), map[]);
    var first := [Begin("a"), Sent(0), HandleFailed(m, "")];
    assert Exec(s2, first[1..][1..], map[]) == Exec(s3, first[1..][1..][1..], map[]);
    assert Exec(Start, first, map[]) == Some(s3);
    assert IdOf(0) == 1;
    AbandonedRun(s3, IDS - 1);
    var mid := Abandoned(1, IDS - 1);
    ExecConcat(Start, first, mid, map[]);
    var s4 := Exec(Start, first + mid, map[]).value;
    var last := [Begin("a"), Sent(IDS), Read(late), Deliver(IDS)];
    LateReplyAccepted(s4, late);
    ExecConcat(Start, first + mid, last, map[]);
    var s5 := Exec(Start, (first + mid) + last, map[]).value;
    assert s5.requests[IDS].phase == Ended(Accepted(late));
  }

  lemma LateReplyAccepted(s: State, late: Reply)
    requires Numbered(s) && |s.requests| == IDS && s.reader.Idle?
    requires late in s.toServer && late.id == 1 && late.action == "a" && late.response
    ensures
      var last := [Begin("a"), Sent(IDS), Read(late), Deliver(IDS)];
      var r := Exec(s, last, map[]);
      r.Some? && |r.value.requests| == IDS + 1 && r.value.requests[IDS].phase == Ended(Accepted(late))
  {
    var last := [Begin("a"), Sent(IDS), Read(late), Deliver(IDS)];
    NextIdIsIdOf(IDS);
    assert IdOf(IDS) == 1;
    var a := Apply(s, Begin("a"), map[]);
    var b := Apply(a, Sent(IDS), map[]);
    var c := Apply(b, Read(late), map[]);
    var d := Apply(c, Deliver(IDS), map[]);
    assert last[1..] == [Sent(IDS), Read(late), Deliver(IDS)];
    assert last[1..][1..] == [Read(late), Deliver(IDS)];
    assert last[1..][1..][1..] == [Deliver(IDS)];
    assert Exec(c, [Deliver(IDS)], map[]) == Exec(d, [Deliver(IDS)][1..], map[]);
    assert Exec(b, last[1..][1..], map[]) == Exec(c, last[1..][1..][1..], map[]);
  }
}
