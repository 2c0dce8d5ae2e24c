/** The table of connected datakits and its writers.

    Every SQL statement is one atomic step (the database has a single connection). The
    manager loop registers a connection with two statements, a delete and an insert;
    heartbeats, status updates, datakit updates and deletes come from other goroutines
    and may fall between them. A restart cleans up what the table has stored. The table's unique index covers the pair of connection
    id and runtime id, so it does not keep connection ids apart. */
module DatakitTable {
  import opened Bytes

  type ID = string
  type Status = string

  const UPGRADING: Status := "upgrading"
  const OFFLINE: Status := "offline"
  const STOPPED: Status := "stopped"
  const RUNNING: Status := "running"
  const RESTARTING: Status := "restarting"

  /** `info` stands for the columns nobody looks at here. */
  datatype Row = Row(connID: ID, runtimeID: string, status: Status, updatedAt: int, inContainer: bool, info: string)

  type Table = seq<Row>

  // ------------------------------------------------------------------------------
  // Statements
  // ------------------------------------------------------------------------------

  function Select(t: Table, id: ID): (r: Table) {
    if t == [] then []
    else if t[0].connID == id then [t[0]] + Select(t[1..], id)
    else Select(t[1..], id)
  }

  function Without(t: Table, id: ID): (r: Table)
    ensures forall x :: x in r <==> x in t && x.connID != id
  {
    if t == [] then []
    else if t[0].connID == id then Without(t[1..], id)
    else [t[0]] + Without(t[1..], id)
  }

  /** `update datakit set ... where conn_id = id`; no statement sets conn_id. */
  function Updated(t: Table, id: ID, f: Row -> Row): (r: Table)
    requires forall x :: f(x).connID == x.connID
    ensures |r| == |t|
    ensures forall i :: 0 <= i < |t| ==> r[i] == if t[i].connID == id then f(t[i]) else t[i]
  {
    if t == [] then []
    else [if t[0].connID == id then f(t[0]) else t[0]] + Updated(t[1..], id, f)
  }

  function WithStatus(t: Table, id: ID, status: Status): Table {
    Updated(t, id, (x: Row) => x.(status := status))
  }

  function WithHeartbeat(t: Table, id: ID, now: int): Table {
    Updated(t, id, (x: Row) => x.(updatedAt := now))
  }

  /** `Update`: all columns but the runtime id. */
  function WithDatakit(t: Table, dk: Row, now: int): Table {
    Updated(t, dk.connID, (x: Row) => dk.(connID := x.connID, runtimeID := x.runtimeID, updatedAt := now))
  }

  /** A hard delete removes the row, a soft one marks it offline. */
  function Deleted(t: Table, id: ID, hard: bool): Table {
    if hard then Without(t, id) else WithStatus(t, id, OFFLINE)
  }

  predicate Indexed(t: Table, dk: Row) {
    exists x :: x in t && x.connID == dk.connID && x.runtimeID == dk.runtimeID
  }

  /** Inserted rows are running; the unique index refuses a pair it already has. */
  function Inserted(t: Table, dk: Row, now: int): Table {
    if Indexed(t, dk) then t else t + [dk.(status := RUNNING, updatedAt := now)]
  }

  /** IsDuplicatedConn */
  predicate Duplicated(t: Table, id: ID) {
    exists x :: x in t && x.connID == id && x.status != OFFLINE
  }

  /** Find's three answers. */
  datatype Found = NotFound | One(row: Row) | Many

  function Find(t: Table, id: ID): Found {
    var rows := Select(t, id);
    if |rows| == 0 then NotFound else if |rows| > 1 then Many else One(rows[0])
  }

  /** The operations of DB on a database that reports no error of its own. */
  class DB {
    var rows: Table

    constructor (stored: Table, now: int, maxAge: int)
      ensures forall x :: x in rows <==>
                exists y :: y in stored && x == y.(status := OFFLINE) && y.updatedAt >= now - maxAge && !y.inContainer
      ensures OneRowEach(stored) ==> OneRowEach(rows)
    {
      if OneRowEach(stored) {
        InitKeepsOneRowEach(stored, now - maxAge);
      }
      rows := InitRows(stored, now - maxAge);
    }

    method Insert(dk: Row, now: int) returns (ok: bool)
      modifies this
      ensures rows == Inserted(old(rows), dk, now)
      ensures ok <==> !Indexed(old(rows), dk)
    {
      ok := !Indexed(rows, dk);
      rows := Inserted(rows, dk, now);
    }

    method DeleteByConnID(id: ID, hard: bool)
      modifies this
      ensures rows == Deleted(old(rows), id, hard)
    {
      rows := Deleted(rows, id, hard);
    }

    /** Undisturbed, ForceUpdate leaves exactly one row for the connection, and it is
        running; the other connections keep their rows. */
    method ForceUpdate(dk: Row, now: int) returns (ok: bool)
      modifies this
      ensures ok && Find(rows, dk.connID) == One(dk.(status := RUNNING, updatedAt := now))
      ensures forall id :: id != dk.connID ==> Select(rows, id) == Select(old(rows), id)
    {
      DeleteByConnID(dk.connID, true);
      ok := Insert(dk, now);
      ForceUpdateRows(old(rows), dk.(status := RUNNING, updatedAt := now));
    }

    method FindRow(id: ID) returns (r: Found)
      ensures r == Find(rows, id)
    {
      r := Find(rows, id);
    }

    method UpdateStatus(id: ID, status: Status) returns (ok: bool)
      modifies this
      ensures
        var was := Find(old(rows), id);
        ok <==> was.One? && (was.row.status == RUNNING || was.row.status == status || status == RUNNING || status == OFFLINE)
      ensures ok ==> Find(rows, id) == One(Find(old(rows), id).row.(status := status))
      ensures ok ==> forall other :: other != id ==> Select(rows, other) == Select(old(rows), other)
      ensures !ok ==> rows == old(rows)
    {
      StatusRows(rows, id, status);
      var r := FindRow(id);
      ok := r.One? && CheckStatus(r.row.status, status);
      if ok {
        rows := WithStatus(rows, id, status);
      }
    }
  }

  /** Init marks all rows offline and drops old ones and those of containers. */
  function InitRows(t: Table, oldest: int): (r: Table)
    ensures forall x :: x in r <==>
              exists y :: y in t && x == y.(status := OFFLINE) && y.updatedAt >= oldest && !y.inContainer
  {
    if t == [] then []
    else if t[0].updatedAt < oldest || t[0].inContainer then InitRows(t[1..], oldest)
    else [t[0].(status := OFFLINE)] + InitRows(t[1..], oldest)
  }

  lemma {:induction false} SelectConcat(a: Table, b: Table, id: ID)
    ensures Select(a + b, id) == Select(a, id) + Select(b, id)
  {
    if a == [] {
      assert a + b == b;
    } else {
      assert (a + b)[1..] == a[1..] + b;
      SelectConcat(a[1..], b, id);
    }
  }

  lemma {:induction false} SelectWithout(t: Table, gone: ID, id: ID)
    ensures Select(Without(t, gone), id) == if id == gone then [] else Select(t, id)
  {
    if t != [] {
      SelectWithout(t[1..], gone, id);
      if t[0].connID != gone {
        var r := Without(t[1..], gone);
        assert ([t[0]] + r)[1..] == r;
      }
    }
  }

  lemma ForceUpdateRows(t: Table, row: Row)
    ensures forall id :: Select(Without(t, row.connID) + [row], id)
                         == if id == row.connID then [row] else Select(t, id)
  {
    forall id
      ensures Select(Without(t, row.connID) + [row], id) == if id == row.connID then [row] else Select(t, id)
    {
      SelectConcat(Without(t, row.connID), [row], id);
      SelectWithout(t, row.connID, id);
      assert Select([row][1..], id) == [];
    }
  }

  lemma {:induction false} SelectUpdated(t: Table, id: ID, other: ID, f: Row -> Row)
    requires forall x :: f(x).connID == x.connID
    ensures |Select(Updated(t, id, f), other)| == |Select(t, other)|
    ensures forall k :: 0 <= k < |Select(t, other)| ==>
              Select(Updated(t, id, f), other)[k] == if id == other then f(Select(t, other)[k]) else Select(t, other)[k]
  {
    if t != [] {
      SelectUpdated(t[1..], id, other, f);
      assert Updated(t, id, f)[1..] == Updated(t[1..], id, f);
    }
  }

  /** An update changes the rows of its connection and no others. */
  lemma UpdatedRows(t: Table, id: ID, f: Row -> Row)
    requires forall x :: f(x).connID == x.connID
    ensures forall other :: other != id ==> Select(Updated(t, id, f), other) == Select(t, other)
    ensures Find(Updated(t, id, f), id) ==
              match Find(t, id)
              case One(row) => One(f(row))
              case none => none
  {
    SelectUpdated(t, id, id, f);
    forall other | other != id
      ensures Select(Updated(t, id, f), other) == Select(t, other)
    {
      SelectUpdated(t, id, other, f);
    }
  }

  /** What the statements leave of a row that is there once; all other connections keep
      theirs. */
  lemma StatusRows(t: Table, id: ID, status: Status)
    ensures Find(t, id).One? ==> Find(WithStatus(t, id, status), id) == One(Find(t, id).row.(status := status))
    ensures forall other :: other != id ==> Select(WithStatus(t, id, status), other) == Select(t, other)
  {
    UpdatedRows(t, id, (x: Row) => x.(status := status));
  }

  lemma HeartbeatRows(t: Table, id: ID, now: int)
    ensures Find(t, id).One? ==> Find(WithHeartbeat(t, id, now), id) == One(Find(t, id).row.(updatedAt := now))
    ensures forall other :: other != id ==> Select(WithHeartbeat(t, id, now), other) == Select(t, other)
  {
    UpdatedRows(t, id, (x: Row) => x.(updatedAt := now));
  }

  lemma DatakitRows(t: Table, dk: Row, now: int)
    ensures Find(t, dk.connID).One? ==>
              Find(WithDatakit(t, dk, now), dk.connID)
              == One(dk.(runtimeID := Find(t, dk.connID).row.runtimeID, updatedAt := now))
    ensures forall other :: other != dk.connID ==> Select(WithDatakit(t, dk, now), other) == Select(t, other)
  {
    UpdatedRows(t, dk.connID, (x: Row) => dk.(connID := x.connID, runtimeID := x.runtimeID, updatedAt := now));
    if Find(t, dk.connID).One? {
      SelectIsPart(t, dk.connID);
      assert Find(t, dk.connID).row in Select(t, dk.connID);
    }
  }

  lemma DeletedRows(t: Table, id: ID, hard: bool)
    ensures hard ==> Find(Deleted(t, id, hard), id) == NotFound
    ensures !hard && Find(t, id).One? ==> Find(Deleted(t, id, hard), id) == One(Find(t, id).row.(status := OFFLINE))
    ensures forall other :: other != id ==> Select(Deleted(t, id, hard), other) == Select(t, other)
  {
    StatusRows(t, id, OFFLINE);
    forall other
      ensures Select(Without(t, id), other) == if other == id then [] else Select(t, other)
    {
      SelectWithout(t, id, other);
    }
  }

  lemma {:induction false} SelectIsPart(t: Table, id: ID)
    ensures forall x :: x in Select(t, id) <==> x in t && x.connID == id
  {
    if t != [] {
      SelectIsPart(t[1..], id);
    }
  }

  lemma NotFoundExactly(t: Table, id: ID)
    ensures Find(t, id).NotFound? <==> forall x :: x in t ==> x.connID != id
    ensures Find(t, id).One? ==> Find(t, id).row in t && Find(t, id).row.connID == id
  {
    SelectIsPart(t, id);
    if Select(t, id) != [] {
      assert Select(t, id)[0] in Select(t, id);
    }
  }

  lemma ManyExactly(t: Table, id: ID)
    ensures Find(t, id).Many? <==> exists i, j :: 0 <= i < j < |t| && t[i].connID == id && t[j].connID == id
  {
    if i, j :| 0 <= i < j < |t| && t[i].connID == id && t[j].connID == id {
      SelectTwo(t, i, j);
    } else {
      SelectAtMostOne(t, id);
    }
  }

  /** Find answers with a row of the connection, with nothing exactly if there is none, and
      with the error exactly if there are two. */
  lemma FindExactly(t: Table, id: ID)
    ensures Find(t, id).NotFound? <==> forall x :: x in t ==> x.connID != id
    ensures Find(t, id).One? ==> Find(t, id).row in t && Find(t, id).row.connID == id
    ensures Find(t, id).Many? <==> exists i, j :: 0 <= i < j < |t| && t[i].connID == id && t[j].connID == id
  {
    NotFoundExactly(t, id);
    ManyExactly(t, id);
  }

  lemma {:induction false} SelectAtMostOne(t: Table, id: ID)
    requires !exists i, j :: 0 <= i < j < |t| && t[i].connID == id && t[j].connID == id
    ensures |Select(t, id)| <= 1
  {
    if t != [] {
      assert forall i :: 0 <= i < |t[1..]| ==> t[1..][i] == t[i + 1];
      SelectAtMostOne(t[1..], id);
      if t[0].connID == id {
        SelectNone(t[1..], id);
      }
    }
  }

  /** checkStatus */
  predicate CheckStatus(from: Status, to: Status) {
    from == to || from == RUNNING || to == OFFLINE || to == RUNNING
  }

  // ------------------------------------------------------------------------------
  // One row per connection
  // ------------------------------------------------------------------------------

  predicate OneRowEach(t: Table) {
    forall i, j :: 0 <= i < j < |t| ==> t[i].connID != t[j].connID
  }

  /** Find meets the branch "duplicated datakit found" for no id exactly then. */
  lemma {:induction false} FindIsUnique(t: Table)
    ensures OneRowEach(t) <==> forall id :: Find(t, id) != Many
  {
    if OneRowEach(t) {
      forall id
        ensures |Select(t, id)| <= 1
      {
        SelectOne(t, id);
      }
    } else {
      var i, j :| 0 <= i < j < |t| && t[i].connID == t[j].connID;
      SelectTwo(t, i, j);
      assert Find(t, t[i].connID) == Many;
    }
  }

  lemma {:induction false} SelectOne(t: Table, id: ID)
    requires OneRowEach(t)
    ensures |Select(t, id)| <= 1
  {
    if t != [] {
      assert OneRowEach(t[1..]);
      SelectOne(t[1..], id);
      if t[0].connID == id {
        assert forall k :: 0 <= k < |t[1..]| ==> t[1..][k] == t[k + 1];
        SelectNone(t[1..], id);
      }
    }
  }

  lemma {:induction false} SelectNone(t: Table, id: ID)
    requires forall k :: 0 <= k < |t| ==> t[k].connID != id
    ensures Select(t, id) == []
  {
    if t != [] {
      SelectNone(t[1..], id);
    }
  }

  lemma {:induction false} SelectSome(t: Table, i: nat)
    requires i < |t|
    ensures Select(t, t[i].connID) != []
  {
    if i > 0 {
      SelectSome(t[1..], i - 1);
    }
  }

  lemma {:induction false} SelectTwo(t: Table, i: nat, j: nat)
    requires i < j < |t| && t[i].connID == t[j].connID
    ensures |Select(t, t[i].connID)| >= 2
  {
    if i == 0 {
      SelectSome(t[1..], j - 1);
    } else {
      SelectTwo(t[1..], i - 1, j - 1);
    }
  }

  datatype Manager = Idle | Deleting(dk: Row) | Inserting(dk: Row)

  datatype State = State(rows: Table, manager: Manager)

  /** `ok` is false when the database reports an error and changes nothing. */
  datatype Step =
    | Register(dk: Row)
    | ManagerDelete(ok: bool)
    | ManagerInsert(ok: bool, now: int)
    | Unregister(id: ID, inContainer: bool, ok: bool)
    | Heartbeat(id: ID, now: int)
    | SetStatus(id: ID, status: Status)
    | UpdateDatakit(dk: Row, now: int)
    | Delete(id: ID, hard: bool)
    | Restart(oldest: int)

  predicate Enabled(s: State, step: Step) {
    match step
    case Register(_) => s.manager.Idle?
    case ManagerDelete(_) => s.manager.Deleting?
    case ManagerInsert(_, _) => s.manager.Inserting?
    case Unregister(_, _, _) => s.manager.Idle?
    case _ => true
  }

  function Apply(s: State, step: Step): State
    requires Enabled(s, step)
  {
    match step
    case Register(dk) => if Duplicated(s.rows, dk.connID) then s else s.(manager := Deleting(dk))
    case ManagerDelete(ok) =>
      if ok then State(Without(s.rows, s.manager.dk.connID), Inserting(s.manager.dk)) else s.(manager := Idle)
    case ManagerInsert(ok, now) =>
      State(if ok then Inserted(s.rows, s.manager.dk, now) else s.rows, Idle)
    case Unregister(id, inContainer, ok) => if ok then s.(rows := Deleted(s.rows, id, inContainer)) else s
    case Heartbeat(id, now) => s.(rows := WithHeartbeat(s.rows, id, now))
    case SetStatus(id, status) => s.(rows := WithStatus(s.rows, id, status))
    case UpdateDatakit(dk, now) => s.(rows := WithDatakit(s.rows, dk, now))
    case Delete(id, hard) => s.(rows := Deleted(s.rows, id, hard))
    case Restart(oldest) => State(InitRows(s.rows, oldest), Idle)
  }

  function Exec(s: State, steps: seq<Step>): Option<State>
    decreases |steps|
  {
    if steps == [] then Some(s)
    else if Enabled(s, steps[0]) then Exec(Apply(s, steps[0]), steps[1..])
    else None
  }

  /** No row has the id that the manager is about to insert. */
  predicate Inv(s: State) {
    && OneRowEach(s.rows)
    && (s.manager.Inserting? ==> forall x :: x in s.rows ==> x.connID != s.manager.dk.connID)
  }

  lemma {:induction false} WithoutKeepsOrder(t: Table, id: ID)
    requires OneRowEach(t)
    ensures OneRowEach(Without(t, id))
  {
    if t != [] {
      assert OneRowEach(t[1..]);
      WithoutKeepsOrder(t[1..], id);
      var r := Without(t[1..], id);
      forall k | 0 <= k < |r|
        ensures r[k].connID != t[0].connID
      {
        assert r[k] in t[1..];
        var m :| 0 <= m < |t[1..]| && t[1..][m] == r[k];
        assert t[m + 1] == r[k];
      }
    }
  }

  lemma {:induction false} InitKeepsOneRowEach(t: Table, oldest: int)
    requires OneRowEach(t)
    ensures OneRowEach(InitRows(t, oldest))
  {
    if t != [] {
      assert OneRowEach(t[1..]);
      InitKeepsOneRowEach(t[1..], oldest);
      var r := InitRows(t[1..], oldest);
      forall k | 0 <= k < |r|
        ensures r[k].connID != t[0].connID
      {
        assert r[k] in r;
        var y :| y in t[1..] && r[k] == y.(status := OFFLINE) && y.updatedAt >= oldest && !y.inContainer;
        var m :| 0 <= m < |t[1..]| && t[1..][m] == y;
        assert t[m + 1] == y;
      }
    }
  }

  lemma UpdatedStep(s: State, id: ID, f: Row -> Row)
    requires Inv(s) && forall x :: f(x).connID == x.connID
    ensures Inv(s.(rows := Updated(s.rows, id, f)))
  {
    var rows := Updated(s.rows, id, f);
    assert forall i :: 0 <= i < |rows| ==> rows[i].connID == s.rows[i].connID;
    if s.manager.Inserting? {
      forall x | x in rows
        ensures x.connID != s.manager.dk.connID
      {
        var i :| 0 <= i < |rows| && rows[i] == x;
        assert s.rows[i] in s.rows;
      }
    }
  }

  lemma DeletedStep(s: State, id: ID, hard: bool)
    requires Inv(s)
    ensures Inv(s.(rows := Deleted(s.rows, id, hard)))
  {
    if hard {
      WithoutKeepsOrder(s.rows, id);
    } else {
      UpdatedStep(s, id, (x: Row) => x.(status := OFFLINE));
    }
  }

  lemma InvStep(s: State, step: Step)
    requires Inv(s) && Enabled(s, step)
    ensures Inv(Apply(s, step))
  {
    match step
    case Register(_) =>
    case ManagerDelete(ok) => WithoutKeepsOrder(s.rows, s.manager.dk.connID);
    case ManagerInsert(_, _) =>
    case Unregister(id, inContainer, ok) => DeletedStep(s, id, inContainer);
    case Heartbeat(id, now) => UpdatedStep(s, id, (x: Row) => x.(updatedAt := now));
    case SetStatus(id, status) => UpdatedStep(s, id, (x: Row) => x.(status := status));
    case UpdateDatakit(dk, now) =>
      UpdatedStep(s, dk.connID, (x: Row) => dk.(connID := x.connID, runtimeID := x.runtimeID, updatedAt := now));
    case Delete(id, hard) => DeletedStep(s, id, hard);
    case Restart(oldest) => InitKeepsOneRowEach(s.rows, oldest);
  }

  lemma {:induction false} InvRun(s: State, steps: seq<Step>)
    requires Inv(s) && Exec(s, steps).Some?
    ensures Inv(Exec(s, steps).value)
    decreases |steps|
  {
    if steps != [] {
      InvStep(s, steps[0]);
      InvRun(Apply(s, steps[0]), steps[1..]);
    }
  }

  /** In every run, restarts of the server included, that starts from a table with one
      row for each connection, the table keeps one row for each connection, and Find never meets a duplicate. */
  lemma NoDuplicatesInAnyRun(rows: Table, steps: seq<Step>, id: ID)
    requires OneRowEach(rows) && Exec(State(rows, Idle), steps).Some?
    ensures OneRowEach(Exec(State(rows, Idle), steps).value.rows)
    ensures Find(Exec(State(rows, Idle), steps).value.rows, id) != Many
  {
    InvRun(State(rows, Idle), steps);
    FindIsUnique(Exec(State(rows, Idle), steps).value.rows);
  }

  /** A registration that nothing comes between: refused and without effect if the
      connection has a row that is not offline, and else the one row it leaves runs. */
  lemma RegistrationExactly(s: State, dk: Row, now: int)
    requires s.manager.Idle?
    ensures
      var s1 := Apply(s, Register(dk));
      if exists x :: x in s.rows && x.connID == dk.connID && x.status != OFFLINE then s1 == s
      else
        && Enabled(s1, ManagerDelete(true)) && Enabled(Apply(s1, ManagerDelete(true)), ManagerInsert(true, now))
        && var s3 := Apply(Apply(s1, ManagerDelete(true)), ManagerInsert(true, now));
        && s3.manager.Idle? && Find(s3.rows, dk.connID) == One(dk.(status := RUNNING, updatedAt := now))
        && forall id :: id != dk.connID ==> Select(s3.rows, id) == Select(s.rows, id)
  {
    ForceUpdateRows(s.rows, dk.(status := RUNNING, updatedAt := now));
  }

  /** A connection that unregisters is offline afterwards, or gone if it ran in a
      container. */
  lemma UnregistrationExactly(s: State, id: ID, inContainer: bool)
    requires s.manager.Idle?
    ensures
      var rows := Apply(s, Unregister(id, inContainer, true)).rows;
      && (inContainer ==> Find(rows, id) == NotFound)
      && (!inContainer && Find(s.rows, id).One? ==> Find(rows, id) == One(Find(s.rows, id).row.(status := OFFLINE)))
      && forall other :: other != id ==> Select(rows, other) == Select(s.rows, other)
  {
    DeletedRows(s.rows, id, inContainer);
  }

  /** A restart ends what the manager was doing and leaves the recent rows of datakits that
      do not run in a container, all of them offline. */
  lemma RestartExactly(s: State, oldest: int, x: Row)
    ensures
      var s' := Apply(s, Restart(oldest));
      && s'.manager.Idle?
      && (x in s'.rows <==>
            exists y :: y in s.rows && x == y.(status := OFFLINE) && y.updatedAt >= oldest && !y.inContainer)
  {
  }

  /** A second loop would break this: two deletes and then two inserts leave two rows,
      since the index compares runtime ids as well. */
  lemma TwoManagersDuplicate(a: Row, b: Row, now: int)
    requires a.connID == b.connID && a.runtimeID != b.runtimeID
    ensures
      var emptied := Without(Without([], a.connID), b.connID);
      Find(Inserted(Inserted(emptied, a, now), b, now), a.connID) == Many
  {
    var t := Inserted([], a, now);
    assert t == [a.(status := RUNNING, updatedAt := now)];
    var u := Inserted(t, b, now);
    assert u == t + [b.(status := RUNNING, updatedAt := now)];
    SelectTwo(u, 0, 1);
  }
}
