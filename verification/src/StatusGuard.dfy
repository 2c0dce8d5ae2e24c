/** Which restart and upgrade requests are accepted.

    A request passes two guards: `isOperationAllowed` on a first look at the row, and
    `checkStatus` on a second look, just before the new status is written. */
module StatusGuard {
  import opened DatakitTable

  predicate IsOperationAllowed(status: Status) {
    status != OFFLINE && status != RESTARTING && status != UPGRADING
  }

  /** The states that restart and upgrade requests ask for. */
  type Operation = s: Status | s == RESTARTING || s == UPGRADING witness RESTARTING

  /** A missing row makes preOperation dereference a nil pointer. */
  datatype Response = Accepted | Refused(code: nat) | NilRow

  /** What preOperation answers if it sees `first`, and UpdateStatus then sees `second`. */
  function Answer(first: Found, second: Found, to: Operation): Response {
    match first
    case Many => Refused(500)
    case NotFound => NilRow
    case One(row) =>
      if !IsOperationAllowed(row.status) then Refused(400)
      else if second.One? && CheckStatus(second.row.status, to) then Accepted
      else Refused(500)
  }

  /** preOperation as one step. */
  function PreOperation(t: Table, id: ID, to: Operation): (Response, Table) {
    var r := Answer(Find(t, id), Find(t, id), to);
    (r, if r == Accepted then WithStatus(t, id, to) else t)
  }

  /** All answers, on every table. An operation is accepted exactly when the datakit has
      one row and it is running: the first guard alone would admit stopped and unknown
      states, the second alone a repeated operation. Without a row it dereferences nil. */
  lemma AcceptedExactlyWhenRunning(t: Table, id: ID, to: Operation)
    ensures
      var r := PreOperation(t, id, to).0;
      var found := Find(t, id);
      && (r == Accepted <==> found.One? && found.row.status == RUNNING)
      && (r == NilRow <==> forall x :: x in t ==> x.connID != id)
      && (r == Refused(400) <==> found.One? && found.row.status in {OFFLINE, RESTARTING, UPGRADING})
      && (r == Refused(500) <==> found.Many? || (found.One? && found.row.status !in {OFFLINE, RESTARTING, UPGRADING, RUNNING}))
      && var t' := PreOperation(t, id, to).1;
      && (r != Accepted ==> t' == t)
      && (r == Accepted ==>
            && Find(t', id) == One(found.row.(status := to))
            && forall other :: other != id ==> Select(t', other) == Select(t, other))
  {
    FindExactly(t, id);
    StatusRows(t, id, to);
  }

  /** If other steps come between the two looks, an operation is accepted exactly when
      the first one sees an allowed state and the second one sees a running row or one
      that is in the requested state already. */
  lemma AcceptedWhenSplit(first: Row, second: Row, to: Operation)
    ensures Answer(One(first), One(second), to) == Accepted <==>
              IsOperationAllowed(first.status) && (second.status == RUNNING || second.status == to)
  {
  }

  /** So two restarts that both look first are both accepted, with no step in between
      that sets the row back to running. */
  lemma SplitRestartsBothAccepted(t: Table, id: ID)
    requires Find(t, id).One? && Find(t, id).row.status == RUNNING
    ensures
      var restarted := WithStatus(t, id, RESTARTING);
      && Answer(Find(t, id), Find(t, id), RESTARTING) == Accepted
      && Answer(Find(t, id), Find(restarted, id), RESTARTING) == Accepted
  {
    StatusAfterUpdate(t, id, id, RESTARTING);
  }

  // ------------------------------------------------------------------------------
  // Runs
  // ------------------------------------------------------------------------------

  /** The statements of DatakitTable, one by one, and operations as one step each. */
  datatype Event = Statement(step: Step) | Operate(id: ID, to: Operation)

  predicate Possible(s: State, e: Event) {
    e.Statement? ==> Enabled(s, e.step)
  }

  function After(s: State, e: Event): State
    requires Possible(s, e)
  {
    match e
    case Statement(step) => Apply(s, step)
    case Operate(id, to) => s.(rows := PreOperation(s.rows, id, to).1)
  }

  /** `ss` are the states before, between and after the events. */
  predicate IsTrace(ss: seq<State>, es: seq<Event>) {
    |ss| == |es| + 1 && forall k :: 0 <= k < |es| ==> Possible(ss[k], es[k]) && ss[k + 1] == After(ss[k], es[k])
  }

  predicate IsRunning(t: Table, id: ID) {
    Find(t, id).One? && Find(t, id).row.status == RUNNING
  }

  predicate Accepts(t: Table, e: Event, id: ID) {
    e.Operate? && e.id == id && PreOperation(t, id, e.to).0 == Accepted
  }

  lemma StatusAfterUpdate(t: Table, id: ID, other: ID, status: Status)
    ensures Find(t, other).One? <==> Find(WithStatus(t, id, status), other).One?
    ensures Find(t, other).One? ==>
              Find(WithStatus(t, id, status), other).row.status == if id == other then status else Find(t, other).row.status
  {
    SelectUpdated(t, id, other, (x: Row) => x.(status := status));
  }

  /** The statements that can make the row of `id` running: the write of a pushed status,
      a pushed datakit, and the insert of a registration. */
  predicate SetsRunning(s: State, e: Event, id: ID) {
    e.Statement? &&
    match e.step
    case SetStatus(i, status) => i == id && status == RUNNING
    case UpdateDatakit(dk, _) => dk.connID == id && dk.status == RUNNING
    case ManagerInsert(ok, _) => ok && s.manager.Inserting? && s.manager.dk.connID == id
    case _ => false
  }

  lemma OperateNeverRuns(t: Table, i: ID, to: Operation, id: ID)
    ensures IsRunning(PreOperation(t, i, to).1, id) ==> IsRunning(t, id)
  {
    StatusAfterUpdate(t, i, id, to);
  }

  lemma PushedDatakit(t: Table, dk: Row, now: int, id: ID)
    ensures !IsRunning(t, id) && IsRunning(WithDatakit(t, dk, now), id) ==> dk.connID == id && dk.status == RUNNING
  {
    SelectUpdated(t, dk.connID, id, (x: Row) => dk.(connID := x.connID, runtimeID := x.runtimeID, updatedAt := now));
  }

  lemma InsertRuns(t: Table, dk: Row, now: int, id: ID)
    ensures id != dk.connID ==> (IsRunning(Inserted(t, dk, now), id) <==> IsRunning(t, id))
  {
    var row := dk.(status := RUNNING, updatedAt := now);
    SelectConcat(t, [row], id);
    assert [row][1..] == [];
  }

  lemma HeartbeatKeeps(t: Table, i: ID, now: int, id: ID)
    ensures IsRunning(WithHeartbeat(t, i, now), id) <==> IsRunning(t, id)
  {
    SelectUpdated(t, i, id, (x: Row) => x.(updatedAt := now));
  }

  lemma DeleteNeverRuns(t: Table, i: ID, hard: bool, id: ID)
    ensures IsRunning(Deleted(t, i, hard), id) ==> IsRunning(t, id)
  {
    SelectWithout(t, i, id);
    StatusAfterUpdate(t, i, id, OFFLINE);
  }

  lemma InitNeverRuns(t: Table, oldest: int, id: ID)
    ensures !IsRunning(InitRows(t, oldest), id)
  {
    var r := InitRows(t, oldest);
    SelectIsPart(r, id);
    if Find(r, id).One? {
      assert Find(r, id).row in Select(r, id);
    }
  }

  /** Nothing else makes a row running. */
  lemma WhatSetsRunning(s: State, e: Event, id: ID)
    requires Possible(s, e) && !IsRunning(s.rows, id) && IsRunning(After(s, e).rows, id)
    ensures SetsRunning(s, e, id)
  {
    match e
    case Operate(i, to) => OperateNeverRuns(s.rows, i, to, id);
    case Statement(step) =>
      match step
      case Register(_) =>
      case ManagerDelete(_) => DeleteNeverRuns(s.rows, s.manager.dk.connID, true, id);
      case ManagerInsert(_, now) => InsertRuns(s.rows, s.manager.dk, now, id);
      case Unregister(i, hard, _) => DeleteNeverRuns(s.rows, i, hard, id);
      case Heartbeat(i, now) => HeartbeatKeeps(s.rows, i, now, id);
      case SetStatus(i, status) => StatusAfterUpdate(s.rows, i, id, status);
      case UpdateDatakit(dk, now) => PushedDatakit(s.rows, dk, now, id);
      case Delete(i, hard) => DeleteNeverRuns(s.rows, i, hard, id);
      case Restart(oldest) => InitNeverRuns(s.rows, oldest, id);
  }

  lemma {:induction false} FirstTrue(p: seq<bool>, i: nat, j: nat) returns (k: nat)
    requires i <= j < |p| && !p[i] && p[j]
    ensures i <= k < j && !p[k] && p[k + 1]
    decreases j
  {
    if p[j - 1] {
      k := FirstTrue(p, i, j - 1);
    } else {
      k := j - 1;
    }
  }

  lemma NotRunningAfter(s: State, e: Event, id: ID)
    requires Accepts(s.rows, e, id)
    ensures IsRunning(s.rows, id) && !IsRunning(After(s, e).rows, id)
  {
    StatusAfterUpdate(s.rows, id, id, e.to);
  }

  /** Between two accepted operations on a connection some statement, which is the write
      of a pushed status, a pushed datakit or the insert of a registration of it, set the
      row back to running. */
  lemma RunningAgainInBetween(ss: seq<State>, es: seq<Event>, id: ID, i: nat, j: nat)
    requires IsTrace(ss, es) && i < j < |es|
    requires Accepts(ss[i].rows, es[i], id) && Accepts(ss[j].rows, es[j], id)
    ensures exists k :: i < k < j && SetsRunning(ss[k], es[k], id) && !IsRunning(ss[k].rows, id) && IsRunning(ss[k + 1].rows, id)
  {
    NotRunningAfter(ss[i], es[i], id);
    NotRunningAfter(ss[j], es[j], id);
    var running := seq(|ss|, n requires 0 <= n < |ss| => IsRunning(ss[n].rows, id));
    var k := FirstTrue(running, i + 1, j);
    WhatSetsRunning(ss[k], es[k], id);
  }
}
