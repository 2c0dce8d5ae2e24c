/** Handing a new websocket connection to the request that waits for it.

    A request asks the agent to dial back under a connection id, stores a channel for
    that id, and enters a select on it, each in its own time. The handler of the incoming connection looks the id
    up and sends without blocking; the channel has no buffer, so the send succeeds only
    while somebody waits. When the request is done it closes and removes the channel.
    Table operations run under the manager's lock and are atomic steps. Go panics on a
    send on a closed channel and on a second close. */
module HandOver {
  import opened Bytes

  type ID = string

  /** Connections are numbered in the order of arrival. */
  type Conn = nat

  /** WebsocketConns, with the channels made and closed so far. */
  datatype Table = Table(conns: map<ID, nat>, made: nat, closed: set<nat>, panicked: bool)

  function InitChan(t: Table, id: ID): Table {
    t.(conns := t.conns[id := t.made], made := t.made + 1)
  }

  function SendOn(t: Table, ch: nat): Table {
    if ch in t.closed then t.(panicked := true) else t
  }

  function DeleteChan(t: Table, id: ID): Table {
    if id !in t.conns then t
    else t.(conns := t.conns - {id}, closed := t.closed + {t.conns[id]},
            panicked := t.panicked || t.conns[id] in t.closed)
  }

  /** Registered channels exist, are open, and are registered once. */
  predicate ValidTable(t: Table) {
    && !t.panicked
    && (forall id :: id in t.conns ==> t.conns[id] < t.made && t.conns[id] !in t.closed)
    && (forall a, b :: a in t.conns && b in t.conns && t.conns[a] == t.conns[b] ==> a == b)
    && (forall ch :: ch in t.closed ==> ch < t.made)
  }

  class ClientManager {
    var conns: map<ID, nat>
    var made: nat
    var closed: set<nat>

    ghost function View(): Table
      reads this
    {
      Table(conns, made, closed, false)
    }

    constructor ()
      ensures View() == Table(map[], 0, {}, false) && ValidTable(View())
    {
      conns, made, closed := map[], 0, {};
    }

    method InitWebsocketConnChan(id: ID) returns (ch: nat)
      requires ValidTable(View())
      modifies this
      ensures View() == InitChan(old(View()), id) && ValidTable(View())
      ensures ch == conns[id] && ch !in old(conns).Values
    {
      ch := made;
      made := made + 1;
      conns := conns[id := ch];
    }

    /** `ready` tells whether a receiver is blocked on the channel. The connection is
        taken exactly when one is, and the channel it is sent on is open. */
    method AddWebsocketConnChan(id: ID, ready: bool) returns (sent: bool)
      requires ValidTable(View())
      ensures id in conns ==> SendOn(View(), conns[id]) == View()
      ensures sent <==> id in conns && ready
    {
      sent := false;
      if id in conns {
        sent := ready;
      }
    }

    method DeleteWebsocketConnChan(id: ID)
      requires ValidTable(View())
      modifies this
      ensures View() == DeleteChan(old(View()), id) && ValidTable(View())
    {
      if id in conns {
        var ch := conns[id];
        closed := closed + {ch};
        conns := conns - {id};
      }
    }
  }

  // ------------------------------------------------------------------------------
  // All interleavings of waiters and arriving connections
  // ------------------------------------------------------------------------------

  /** Stored: the channel is in the table, the select is not reached yet. */
  datatype Phase = Asking | Asked | Stored(ch: nat) | Waiting(ch: nat) | Returning(ch: nat) | Done

  /** What the waiter returns: the connection it received, the nil that a closed channel
      yields, or the timeout. */
  datatype Result = Unknown | Got(conn: Conn) | Nil | TimedOut

  datatype Waiter = Waiter(id: ID, phase: Phase, result: Result)

  /** `owner` is the waiter a channel was made for; `arrived` the id of a connection. */
  datatype State = State(table: Table, waiters: seq<Waiter>, owner: seq<nat>, arrived: seq<ID>)

  const Start := State(Table(map[], 0, {}, false), [], [], [])

  datatype Step =
    | Ask(id: ID)
    | AskTimeout(w: nat)
    | AskSent(w: nat)
    | Register(w: nat)
    | EnterSelect(w: nat)
    | Arrive(id: ID, to: Option<nat>)
    | ReceiveClosed(w: nat)
    | WaitTimeout(w: nat)
    | Return(w: nat)

  predicate WaitsOn(s: State, w: nat, ch: nat) {
    w < |s.waiters| && s.waiters[w].phase == Waiting(ch)
  }

  ghost predicate Enabled(s: State, step: Step) {
    match step
    case Ask(_) => true
    case AskTimeout(w) => w < |s.waiters| && s.waiters[w].phase.Asking?
    case AskSent(w) => w < |s.waiters| && s.waiters[w].phase.Asking?
    case Register(w) => w < |s.waiters| && s.waiters[w].phase.Asked?
    case EnterSelect(w) => w < |s.waiters| && s.waiters[w].phase.Stored?
    case Arrive(id, Some(w)) => id in s.table.conns && WaitsOn(s, w, s.table.conns[id])
    case Arrive(id, None) => id in s.table.conns ==> !exists w :: 0 <= w < |s.waiters| && WaitsOn(s, w, s.table.conns[id])
    case ReceiveClosed(w) => w < |s.waiters| && s.waiters[w].phase.Waiting? && s.waiters[w].phase.ch in s.table.closed
    case WaitTimeout(w) => w < |s.waiters| && s.waiters[w].phase.Waiting?
    case Return(w) => w < |s.waiters| && s.waiters[w].phase.Returning?
  }

  function Update(s: State, w: nat, x: Waiter): State
    requires w < |s.waiters|
  {
    s.(waiters := s.waiters[w := x])
  }

  ghost function Apply(s: State, step: Step): State
    requires Enabled(s, step)
  {
    match step
    case Ask(id) => s.(waiters := s.waiters + [Waiter(id, Asking, Unknown)])
    case AskTimeout(w) => Update(s, w, s.waiters[w].(phase := Done, result := TimedOut))
    case AskSent(w) => Update(s, w, s.waiters[w].(phase := Asked))
    case Register(w) =>
      Update(s, w, s.waiters[w].(phase := Stored(s.table.made)))
      .(table := InitChan(s.table, s.waiters[w].id), owner := s.owner + [w])
    case EnterSelect(w) => Update(s, w, s.waiters[w].(phase := Waiting(s.waiters[w].phase.ch)))
    case Arrive(id, to) =>
      var s1 := s.(arrived := s.arrived + [id],
                   table := if id in s.table.conns then SendOn(s.table, s.table.conns[id]) else s.table);
      (match to
       case None => s1
       case Some(w) => Update(s1, w, s.waiters[w].(phase := Returning(s.waiters[w].phase.ch), result := Got(|s.arrived|))))
    case ReceiveClosed(w) => Update(s, w, s.waiters[w].(phase := Returning(s.waiters[w].phase.ch), result := Nil))
    case WaitTimeout(w) => Update(s, w, s.waiters[w].(phase := Returning(s.waiters[w].phase.ch), result := TimedOut))
    case Return(w) => Update(s, w, s.waiters[w].(phase := Done)).(table := DeleteChan(s.table, s.waiters[w].id))
  }

  ghost function Exec(s: State, steps: seq<Step>): Option<State>
    decreases |steps|
  {
    if steps == [] then Some(s)
    else if Enabled(s, steps[0]) then Exec(Apply(s, steps[0]), steps[1..])
    else None
  }

  predicate HasChan(p: Phase) { p.Stored? || p.Waiting? || p.Returning? }

  /** Before the select has ended. */
  predicate Early(p: Phase) { p.Asking? || p.Asked? || p.Stored? || p.Waiting? }

  ghost predicate OwnersMatch(s: State) {
    && |s.owner| == s.table.made
    && (forall ch :: 0 <= ch < |s.owner| ==> s.owner[ch] < |s.waiters|)
    && (forall w :: 0 <= w < |s.waiters| && HasChan(s.waiters[w].phase) ==>
          s.waiters[w].phase.ch < |s.owner| && s.owner[s.waiters[w].phase.ch] == w)
    && (forall id :: id in s.table.conns ==> s.table.conns[id] < |s.owner| && s.waiters[s.owner[s.table.conns[id]]].id == id)
  }

  ghost predicate Delivered(s: State) {
    && (forall w :: 0 <= w < |s.waiters| && s.waiters[w].result.Got? ==>
          s.waiters[w].result.conn < |s.arrived| && s.arrived[s.waiters[w].result.conn] == s.waiters[w].id)
    && (forall v, w :: 0 <= v < |s.waiters| && 0 <= w < |s.waiters| && v != w && s.waiters[v].result.Got? ==>
          s.waiters[v].result != s.waiters[w].result)
    && (forall w :: 0 <= w < |s.waiters| ==> (Early(s.waiters[w].phase) <==> s.waiters[w].result.Unknown?))
  }

  ghost predicate Inv(s: State) {
    ValidTable(s.table) && OwnersMatch(s) && Delivered(s)
  }

  /** A waiter moves on without a new channel or connection. */
  lemma MoveStep(s: State, w: nat, x: Waiter)
    requires Inv(s) && w < |s.waiters|
    requires x.id == s.waiters[w].id && (x.result == s.waiters[w].result || x.result.Nil? || x.result.TimedOut?)
    requires HasChan(x.phase) ==> HasChan(s.waiters[w].phase) && x.phase.ch == s.waiters[w].phase.ch
    requires Early(x.phase) <==> x.result.Unknown?
    ensures Inv(Update(s, w, x))
  {
  }

  lemma AskStep(s: State, id: ID)
    requires Inv(s)
    ensures Inv(Apply(s, Ask(id)))
  {
    var s' := Apply(s, Ask(id));
    assert forall v :: 0 <= v < |s.waiters| ==> s'.waiters[v] == s.waiters[v];
  }

  lemma RegisterStep(s: State, w: nat)
    requires Inv(s) && Enabled(s, Register(w))
    ensures Inv(Apply(s, Register(w)))
  {
    var s' := Apply(s, Register(w));
    assert forall ch :: 0 <= ch < |s.owner| ==> s'.owner[ch] == s.owner[ch];
    assert forall v :: 0 <= v < |s.waiters| && v != w ==> s'.waiters[v] == s.waiters[v];
  }

  lemma ArrivedStep(s: State, id: ID)
    requires Inv(s)
    ensures Inv(s.(arrived := s.arrived + [id]))
  {
    assert forall c :: 0 <= c < |s.arrived| ==> (s.arrived + [id])[c] == s.arrived[c];
  }

  /** A waiter takes the connection that arrived last. */
  lemma TakeStep(s: State, w: nat, c: Conn)
    requires Inv(s) && w < |s.waiters| && s.waiters[w].phase.Waiting?
    requires |s.arrived| == c + 1 && s.arrived[c] == s.waiters[w].id
    requires forall v :: 0 <= v < |s.waiters| ==> s.waiters[v].result != Got(c)
    ensures Inv(Update(s, w, s.waiters[w].(phase := Returning(s.waiters[w].phase.ch), result := Got(c))))
  {
  }

  lemma ArriveStep(s: State, id: ID, to: Option<nat>)
    requires Inv(s) && Enabled(s, Arrive(id, to))
    ensures Inv(Apply(s, Arrive(id, to)))
  {
    ArrivedStep(s, id);
    var s1 := s.(arrived := s.arrived + [id]);
    assert id in s.table.conns ==> SendOn(s.table, s.table.conns[id]) == s.table;
    if to.Some? {
      TakeStep(s1, to.value, |s.arrived|);
    }
  }

  lemma DeleteStep(s: State, id: ID)
    requires Inv(s)
    ensures Inv(s.(table := DeleteChan(s.table, id)))
  {
  }

  lemma InvStep(s: State, step: Step)
    requires Inv(s) && Enabled(s, step)
    ensures Inv(Apply(s, step))
  {
    match step
    case Ask(id) => AskStep(s, id);
    case AskTimeout(w) => MoveStep(s, w, s.waiters[w].(phase := Done, result := TimedOut));
    case AskSent(w) => MoveStep(s, w, s.waiters[w].(phase := Asked));
    case Register(w) => RegisterStep(s, w);
    case EnterSelect(w) => MoveStep(s, w, s.waiters[w].(phase := Waiting(s.waiters[w].phase.ch)));
    case Arrive(id, to) => ArriveStep(s, id, to);
    case ReceiveClosed(w) => MoveStep(s, w, s.waiters[w].(phase := Returning(s.waiters[w].phase.ch), result := Nil));
    case WaitTimeout(w) => MoveStep(s, w, s.waiters[w].(phase := Returning(s.waiters[w].phase.ch), result := TimedOut));
    case Return(w) =>
      MoveStep(s, w, s.waiters[w].(phase := Done));
      DeleteStep(Update(s, w, s.waiters[w].(phase := Done)), s.waiters[w].id);
  }

  lemma {:induction false} InvRun(s: State, steps: seq<Step>)
    requires Inv(s) && Exec(s, steps).Some?
    ensures Inv(Exec(s, steps).value)
    decreases |steps|
  {
    if steps != [] {
      InvStep(s, steps[0]);
      InvRun(Apply(s, steps[0]), steps[1..]);
    }
  }

  /** In every interleaving, even if ids repeat, nothing is sent on a closed channel and
      no channel is closed twice; a connection reaches at most one waiter, and that
      waiter asked for its id. */
  lemma DeliveredAtMostOnce(steps: seq<Step>)
    requires Exec(Start, steps).Some?
    ensures
      var s := Exec(Start, steps).value;
      && !s.table.panicked
      && (forall w :: 0 <= w < |s.waiters| && s.waiters[w].result.Got? ==>
            s.waiters[w].result.conn < |s.arrived| && s.arrived[s.waiters[w].result.conn] == s.waiters[w].id)
      && (forall v, w :: 0 <= v < |s.waiters| && 0 <= w < |s.waiters| && v != w && s.waiters[v].result.Got? ==>
            s.waiters[v].result != s.waiters[w].result)
  {
    InvRun(Start, steps);
  }

  /** The ids of the connections that arrive in a run, in order. */
  function Arrivals(steps: seq<Step>): seq<ID> {
    if steps == [] then []
    else (if steps[0].Arrive? then [steps[0].id] else []) + Arrivals(steps[1..])
  }

  lemma {:induction false} ArrivedInOrder(s: State, steps: seq<Step>)
    requires Exec(s, steps).Some?
    ensures Exec(s, steps).value.arrived == s.arrived + Arrivals(steps)
    decreases |steps|
  {
    if steps != [] {
      ArrivedInOrder(Apply(s, steps[0]), steps[1..]);
    }
  }

  /** Once a waiter has a result it keeps it. */
  lemma {:induction false} ResultStays(s: State, steps: seq<Step>, w: nat)
    requires Exec(s, steps).Some? && Inv(s) && w < |s.waiters| && !s.waiters[w].result.Unknown?
    ensures w < |Exec(s, steps).value.waiters| && Exec(s, steps).value.waiters[w].result == s.waiters[w].result
    decreases |steps|
  {
    if steps != [] {
      InvStep(s, steps[0]);
      ResultStep(s, steps[0], w);
      ResultStays(Apply(s, steps[0]), steps[1..], w);
    }
  }

  lemma ResultStep(s: State, step: Step, w: nat)
    requires Delivered(s) && Enabled(s, step) && w < |s.waiters| && !s.waiters[w].result.Unknown?
    ensures w < |Apply(s, step).waiters| && Apply(s, step).waiters[w].result == s.waiters[w].result
  {
  }

  lemma Taken(s: State, id: ID, w: nat)
    requires Inv(s) && Enabled(s, Arrive(id, Some(w)))
    ensures
      var t := Apply(s, Arrive(id, Some(w)));
      Inv(t) && w < |t.waiters| && t.waiters[w].id == id && t.waiters[w].result == Got(|s.arrived|) && t.arrived == s.arrived + [id]
  {
    InvStep(s, Arrive(id, Some(w)));
  }

  lemma {:induction false} ExecConcat(s: State, a: seq<Step>, b: seq<Step>)
    requires Exec(s, a).Some?
    ensures Exec(s, a + b) == Exec(Exec(s, a).value, b)
    decreases |a|
  {
    if a == [] {
      assert a + b == b;
    } else {
      assert (a + b)[1..] == a[1..] + b;
      ExecConcat(Apply(s, a[0]), a[1..], b);
    }
  }

  /** A connection that arrives while a waiter can take it is what that waiter returns,
      whatever happens afterwards. Connections are counted in the order of arrival. */
  lemma {:induction false} HandedOver(before: seq<Step>, id: ID, w: nat, rest: seq<Step>)
    requires Exec(Start, before).Some? && Enabled(Exec(Start, before).value, Arrive(id, Some(w)))
    requires Exec(Apply(Exec(Start, before).value, Arrive(id, Some(w))), rest).Some?
    ensures
      var e := Exec(Start, before + ([Arrive(id, Some(w))] + rest));
      && e.Some? && w < |e.value.waiters| && e.value.waiters[w].id == id
      && e.value.waiters[w].result == Got(|Arrivals(before)|)
      && e.value.arrived == Arrivals(before) + [id] + Arrivals(rest)
  {
    InvRun(Start, before);
    ArrivedInOrder(Start, before);
    ExecConcat(Start, before, [Arrive(id, Some(w))] + rest);
    HandedOverFrom(Exec(Start, before).value, id, w, rest);
  }

  lemma {:induction false} HandedOverFrom(s: State, id: ID, w: nat, rest: seq<Step>)
    requires Inv(s) && Enabled(s, Arrive(id, Some(w))) && Exec(Apply(s, Arrive(id, Some(w))), rest).Some?
    ensures
      var e := Exec(s, [Arrive(id, Some(w))] + rest);
      && e.Some? && w < |e.value.waiters| && e.value.waiters[w].id == id
      && e.value.waiters[w].result == Got(|s.arrived|) && e.value.arrived == s.arrived + [id] + Arrivals(rest)
  {
    var t := Apply(s, Arrive(id, Some(w)));
    Taken(s, id, w);
    ArrivedInOrder(t, rest);
    ResultStays(t, rest, w);
    SameWaiter(t, rest, w);
    assert ([Arrive(id, Some(w))] + rest)[1..] == rest;
  }

  lemma {:induction false} SameWaiter(s: State, steps: seq<Step>, w: nat)
    requires Exec(s, steps).Some? && w < |s.waiters|
    ensures w < |Exec(s, steps).value.waiters| && Exec(s, steps).value.waiters[w].id == s.waiters[w].id
    decreases |steps|
  {
    if steps != [] {
      SameWaiter(Apply(s, steps[0]), steps[1..], w);
    }
  }

  /** In every run a waiter has a result exactly if it is past its select, or timed out
      before it: a connection, nil or a timeout. */
  lemma ResultExactlyWhenDone(steps: seq<Step>, w: nat)
    requires Exec(Start, steps).Some? && w < |Exec(Start, steps).value.waiters|
    ensures
      var x := Exec(Start, steps).value.waiters[w];
      x.result.Unknown? <==> x.phase.Asking? || x.phase.Asked? || x.phase.Stored? || x.phase.Waiting?
  {
    InvRun(Start, steps);
  }

  // ------------------------------------------------------------------------------
  // Distinct ids
  // ------------------------------------------------------------------------------

  ghost predicate DistinctIds(s: State) {
    forall v, w :: 0 <= v < |s.waiters| && 0 <= w < |s.waiters| && s.waiters[v].id == s.waiters[w].id ==> v == w
  }

  /** Every waiter that made its channel is still registered under its own id. */
  ghost predicate Registered(s: State) {
    && (forall w :: 0 <= w < |s.waiters| && HasChan(s.waiters[w].phase) ==>
          s.waiters[w].id in s.table.conns && s.table.conns[s.waiters[w].id] == s.waiters[w].phase.ch)
    && (forall w :: 0 <= w < |s.waiters| ==> !s.waiters[w].result.Nil?)
  }

  lemma RegisteredStep(s: State, step: Step)
    requires Inv(s) && Registered(s) && DistinctIds(s) && Enabled(s, step)
    ensures Registered(Apply(s, step))
  {
    var s' := Apply(s, step);
    if step.Arrive? {
      assert s'.table == s.table;
    }
    forall w | 0 <= w < |s'.waiters| && HasChan(s'.waiters[w].phase)
      ensures s'.waiters[w].id in s'.table.conns && s'.table.conns[s'.waiters[w].id] == s'.waiters[w].phase.ch
    {
      if w < |s.waiters| {
        assert s'.waiters[w].id == s.waiters[w].id;
      }
    }
  }

  lemma {:induction false} WaitersStay(s: State, steps: seq<Step>)
    requires Exec(s, steps).Some?
    ensures |s.waiters| <= |Exec(s, steps).value.waiters|
    ensures forall w :: 0 <= w < |s.waiters| ==> Exec(s, steps).value.waiters[w].id == s.waiters[w].id
    decreases |steps|
  {
    if steps != [] {
      WaitersStay(Apply(s, steps[0]), steps[1..]);
    }
  }

  lemma {:induction false} RegisteredRun(s: State, steps: seq<Step>)
    requires Inv(s) && Registered(s) && Exec(s, steps).Some? && DistinctIds(Exec(s, steps).value)
    ensures Inv(Exec(s, steps).value) && Registered(Exec(s, steps).value)
    decreases |steps|
  {
    if steps != [] {
      WaitersStay(s, steps);
      InvStep(s, steps[0]);
      RegisteredStep(s, steps[0]);
      RegisteredRun(Apply(s, steps[0]), steps[1..]);
    }
  }

  /** The waiter of `id` is in its select. */
  predicate Selecting(s: State, id: ID, w: nat) {
    w < |s.waiters| && s.waiters[w].id == id && s.waiters[w].phase.Waiting?
  }

  /** With distinct ids no waiter reads from a closed channel, and an arriving connection
      is handed over exactly when the waiter of its id is in its select, and dropped
      exactly when there is none. */
  lemma HandedOverExactlyWhileWaiting(steps: seq<Step>, id: ID, w: nat)
    requires Exec(Start, steps).Some? && DistinctIds(Exec(Start, steps).value)
    ensures
      var s := Exec(Start, steps).value;
      && (forall v :: 0 <= v < |s.waiters| ==> !s.waiters[v].result.Nil?)
      && (Enabled(s, Arrive(id, Some(w))) <==> Selecting(s, id, w))
      && (Enabled(s, Arrive(id, None)) <==> !exists v: nat :: Selecting(s, id, v))
  {
    RegisteredRun(Start, steps);
    var s := Exec(Start, steps).value;
    SelectingIsWaiting(s, id, w);
    forall v: nat
      ensures Selecting(s, id, v) <==> id in s.table.conns && WaitsOn(s, v, s.table.conns[id])
    {
      SelectingIsWaiting(s, id, v);
    }
    DroppedExactly(s, id);
  }

  lemma SelectingIsWaiting(s: State, id: ID, v: nat)
    requires Inv(s) && Registered(s)
    ensures Selecting(s, id, v) <==> id in s.table.conns && WaitsOn(s, v, s.table.conns[id])
  {
  }

  lemma DroppedExactly(s: State, id: ID)
    requires forall v: nat :: Selecting(s, id, v) <==> id in s.table.conns && WaitsOn(s, v, s.table.conns[id])
    ensures Enabled(s, Arrive(id, None)) <==> !exists v: nat :: Selecting(s, id, v)
  {
    if v: nat :| Selecting(s, id, v) {
      assert WaitsOn(s, v, s.table.conns[id]);
    }
  }

  /** A waiter that has asked and is not in its select yet loses its connection: while it
      has not stored its channel, and also between storing it and the select. The drop
      leaves it as it was. */
  lemma EarlyConnectionIsLost(steps: seq<Step>, w: nat)
    requires Exec(Start, steps).Some? && DistinctIds(Exec(Start, steps).value)
    requires
      var s := Exec(Start, steps).value;
      w < |s.waiters| && (s.waiters[w].phase.Asked? || s.waiters[w].phase.Stored?)
    ensures
      var s := Exec(Start, steps).value;
      var arrive := Arrive(s.waiters[w].id, None);
      && Enabled(s, arrive) && Apply(s, arrive).waiters == s.waiters
      && forall v: nat :: !Enabled(s, Arrive(s.waiters[w].id, Some(v)))
  {
    var s := Exec(Start, steps).value;
    var id := s.waiters[w].id;
    forall v: nat
      ensures !Selecting(s, id, v)
    {
      if v < |s.waiters| && s.waiters[v].id == id {
        assert v == w;
      }
    }
    HandedOverExactlyWhileWaiting(steps, id, w);
    forall v: nat
      ensures !Enabled(s, Arrive(id, Some(v)))
    {
      HandedOverExactlyWhileWaiting(steps, id, v);
    }
  }

  /** Both windows are met: the waiter goes on to wait for what has come and gone. */
  lemma WaitsInVain(id: ID, stored: bool)
    ensures
      var steps := [Ask(id), AskSent(0)] + (if stored then [Register(0), Arrive(id, None)] else [Arrive(id, None), Register(0)]) + [EnterSelect(0)];
      var s := Exec(Start, steps);
      && s.Some? && s.value.arrived == [id] && |s.value.waiters| == 1
      && s.value.waiters[0].phase.Waiting? && s.value.waiters[0].result.Unknown?
  {
    var mid := if stored then [Register(0), Arrive(id, None)] else [Arrive(id, None), Register(0)];
    var steps := [Ask(id), AskSent(0)] + mid + [EnterSelect(0)];
    var b := Apply(Apply(Start, Ask(id)), AskSent(0));
    TwoSteps(Start, steps);
    assert steps[2..] == mid + [EnterSelect(0)];
    assert b == Start.(waiters := [Waiter(id, Asked, Unknown)]);
    assert Enabled(b, mid[0]) && Enabled(Apply(b, mid[0]), mid[1]);
    TwoSteps(b, steps[2..]);
    assert steps[2..][2..] == [EnterSelect(0)];
    var d := Apply(Apply(b, mid[0]), mid[1]);
    assert d.waiters == [Waiter(id, Stored(0), Unknown)] && d.arrived == [id];
    assert Exec(d, [EnterSelect(0)]) == Exec(Apply(d, EnterSelect(0)), [EnterSelect(0)][1..]);
  }

  /** After any run, a request under a new id that is served without delay returns its
      connection, and leaves nothing behind. */
  lemma {:induction false} ServedInTime(before: seq<Step>, id: ID)
    requires Exec(Start, before).Some? && id !in Exec(Start, before).value.table.conns
    ensures
      var s := Exec(Start, before).value;
      var w := |s.waiters|;
      var e := Exec(s, [Ask(id), AskSent(w), Register(w), EnterSelect(w), Arrive(id, Some(w)), Return(w)]);
      && e.Some? && |e.value.waiters| == w + 1 && e.value.waiters[w] == Waiter(id, Done, Got(|s.arrived|))
      && e.value.table.conns == s.table.conns && s.table.made in e.value.table.closed
  {
    InvRun(Start, before);
    Served(Exec(Start, before).value, id);
  }

  lemma Served(s: State, id: ID)
    requires ValidTable(s.table) && id !in s.table.conns
    ensures
      var w := |s.waiters|;
      var e := Exec(s, [Ask(id), AskSent(w), Register(w), EnterSelect(w), Arrive(id, Some(w)), Return(w)]);
      && e.Some? && |e.value.waiters| == w + 1 && e.value.waiters[w] == Waiter(id, Done, Got(|s.arrived|))
      && e.value.table.conns == s.table.conns && s.table.made in e.value.table.closed
  {
    var w := |s.waiters|;
    var steps := [Ask(id), AskSent(w), Register(w), EnterSelect(w), Arrive(id, Some(w)), Return(w)];
    var b := s.(waiters := s.waiters + [Waiter(id, Asked, Unknown)]);
    assert Apply(Apply(s, Ask(id)), AskSent(w)) == b;
    TwoSteps(s, steps);
    assert steps[2..] == [Register(w), EnterSelect(w), Arrive(id, Some(w)), Return(w)];
    ServedOnceAsked(b, id, w);
  }

  lemma ServedOnceAsked(s: State, id: ID, w: nat)
    requires ValidTable(s.table) && id !in s.table.conns && w < |s.waiters| && s.waiters[w] == Waiter(id, Asked, Unknown)
    ensures
      var e := Exec(s, [Register(w), EnterSelect(w), Arrive(id, Some(w)), Return(w)]);
      && e.Some? && |e.value.waiters| == |s.waiters| && e.value.waiters[w] == Waiter(id, Done, Got(|s.arrived|))
      && e.value.table.conns == s.table.conns && s.table.made in e.value.table.closed
  {
    var steps := [Register(w), EnterSelect(w), Arrive(id, Some(w)), Return(w)];
    Selects(s, id, w);
    var d := Apply(Apply(s, Register(w)), EnterSelect(w));
    TwoSteps(s, steps);
    assert steps[2..] == [Arrive(id, Some(w)), Return(w)];
    Returns(d, id, w);
    TwoSteps(d, [Arrive(id, Some(w)), Return(w)]);
    assert s.table.conns[id := s.table.made] - {id} == s.table.conns;
  }

  lemma Selects(s: State, id: ID, w: nat)
    requires w < |s.waiters| && s.waiters[w] == Waiter(id, Asked, Unknown)
    ensures Enabled(s, Register(w)) && Enabled(Apply(s, Register(w)), EnterSelect(w))
    ensures
      var d := Apply(Apply(s, Register(w)), EnterSelect(w));
      && |d.waiters| == |s.waiters| && d.waiters[w] == Waiter(id, Waiting(s.table.made), Unknown)
      && d.table == InitChan(s.table, id) && d.arrived == s.arrived
  {
  }

  lemma Returns(s: State, id: ID, w: nat)
    requires w < |s.waiters| && id in s.table.conns && s.table.conns[id] !in s.table.closed
    requires s.waiters[w] == Waiter(id, Waiting(s.table.conns[id]), Unknown)
    ensures Enabled(s, Arrive(id, Some(w))) && Enabled(Apply(s, Arrive(id, Some(w))), Return(w))
    ensures
      var e := Apply(Apply(s, Arrive(id, Some(w))), Return(w));
      && |e.waiters| == |s.waiters| && e.waiters[w] == Waiter(id, Done, Got(|s.arrived|))
      && e.table.conns == s.table.conns - {id} && s.table.conns[id] in e.table.closed
  {
  }

  /** Two waiters registered under one id; the table knows the second only. */
  function TwoOfOneId(id: ID): State {
    State(Table(map[id := 1], 2, {}, false),
          [Waiter(id, Stored(0), Unknown), Waiter(id, Stored(1), Unknown)], [0, 1], [])
  }

  lemma TwoOfOneIdReached(id: ID, rest: seq<Step>)
    ensures Exec(Start, [Ask(id), Ask(id), AskSent(0), AskSent(1), Register(0), Register(1)] + rest)
            == Exec(TwoOfOneId(id), rest)
  {
    var steps := [Ask(id), Ask(id), AskSent(0), AskSent(1), Register(0), Register(1)] + rest;
    var w0, w1 := Waiter(id, Asking, Unknown), Waiter(id, Asked, Unknown);
    var s1 := Start.(waiters := [w0, w0]);
    var s2 := Start.(waiters := [w1, w1]);
    assert Apply(Apply(Start, Ask(id)), Ask(id)) == s1;
    TwoSteps(Start, steps);
    assert Apply(Apply(s1, AskSent(0)), AskSent(1)) == s2;
    TwoSteps(s1, steps[2..]);
    assert steps[2..][2..] == steps[4..];
    TwoRegister(id, s2);
    TwoSteps(s2, steps[4..]);
    assert steps[4..][2..] == rest;
  }

  lemma TwoRegister(id: ID, s: State)
    requires s == Start.(waiters := [Waiter(id, Asked, Unknown), Waiter(id, Asked, Unknown)])
    ensures Enabled(s, Register(0)) && Enabled(Apply(s, Register(0)), Register(1))
    ensures Apply(Apply(s, Register(0)), Register(1)) == TwoOfOneId(id)
  {
    var t := Apply(s, Register(0));
    assert t.table.conns == map[id := 0];
    assert Apply(t, Register(1)).table.conns == map[id := 1];
  }

  /** With a repeated id the first waiter to leave closes the channel of the second,
      which then receives nil instead of a connection. */
  lemma RepeatedIdReceivesNil(id: ID)
    ensures exists steps :: Exec(Start, steps).Some? && |Exec(Start, steps).value.waiters| == 2
                            && Exec(Start, steps).value.waiters[1].result.Nil?
  {
    var rest := [EnterSelect(0), EnterSelect(1), WaitTimeout(0), Return(0), ReceiveClosed(1)];
    TwoOfOneIdReached(id, rest);
    var r := TwoOfOneId(id);
    var s := Apply(Apply(r, EnterSelect(0)), EnterSelect(1));
    assert s.waiters == [Waiter(id, Waiting(0), Unknown), Waiter(id, Waiting(1), Unknown)];
    TwoSteps(r, rest);
    assert rest[2..] == [WaitTimeout(0), Return(0), ReceiveClosed(1)];
    rest := rest[2..];
    var t := Apply(s, WaitTimeout(0));
    assert t.table.conns[id] == 1;
    var u := Apply(t, Return(0));
    assert u.table.closed == {1};
    TwoSteps(s, rest);
    assert rest[2..] == [ReceiveClosed(1)];
    var v := Apply(u, ReceiveClosed(1));
    assert Exec(u, rest[2..]) == Exec(v, rest[2..][1..]);
    assert v.waiters[1].result.Nil?;
  }

  lemma TwoSteps(s: State, steps: seq<Step>)
    requires |steps| >= 2 && Enabled(s, steps[0]) && Enabled(Apply(s, steps[0]), steps[1])
    ensures Exec(s, steps) == Exec(Apply(Apply(s, steps[0]), steps[1]), steps[2..])
  {
    assert steps[1..][1..] == steps[2..];
  }
}
