/**
 The job table (outbox/outbox.go): what each statement does to it, and the repository whose
 methods run those statements. Times are nanoseconds of one clock.
 */
module OutboxTable {
  import opened Durations
  import opened Wrappers

  type Id = nat

  /** What the application asked to have sent. */
  datatype Job = Job(kind: string, payload: seq<nat>)

  datatype Row = Row(job: Job, attempts: int, maxAttempts: int, nextAttemptAt: int, failedAt: Option<int>)

  type Table = map<Id, Row>

  /** One claimed row as the worker sees it. */
  datatype Message = Message(id: Id, job: Job, attempts: int, maxAttempts: int)

  const DEFAULT_MAX_ATTEMPTS := 5
  const MAX_SMALLINT := 32767

  predicate Pending(row: Row) {
    row.failedAt.None?
  }

  predicate Due(row: Row, now: int) {
    Pending(row) && row.nextAttemptAt <= now
  }

  /** The rows a claim may take: due, and not locked by another transaction. */
  function Claimable(rows: Table, now: int, locked: set<Id>): set<Id> {
    set id | id in rows && Due(rows[id], now) && id !in locked
  }

  /** `ORDER BY next_attempt_at ... LIMIT`: as many as fit, and no row left behind is older than one taken. */
  ghost predicate Oldest(rows: Table, from: set<Id>, limit: int, picked: set<Id>)
    requires from <= rows.Keys
  {
    && picked <= from
    && |picked| <= limit
    && (picked != from ==> |picked| == limit)
    && forall x, y :: x in picked && y in from - picked ==> rows[x].nextAttemptAt <= rows[y].nextAttemptAt
  }

  /** The claim's increment of a smallint column stays in range. */
  predicate RoomFor(rows: Table, picked: set<Id>)
    requires picked <= rows.Keys
  {
    forall id :: id in picked ==> rows[id].attempts < MAX_SMALLINT
  }

  // ---- The statements ----

  function Inserted(rows: Table, id: Id, job: Job, maxAttempts: int, now: int): Table {
    rows[id := Row(job, 0, if maxAttempts <= 0 then DEFAULT_MAX_ATTEMPTS else maxAttempts, now, None)]
  }

  function Claimed(rows: Table, picked: set<Id>, now: int, lease: int): Table {
    map id | id in rows ::
      if id in picked then rows[id].(attempts := rows[id].attempts + 1, nextAttemptAt := now + lease)
      else rows[id]
  }

  function Completed(rows: Table, id: Id): Table {
    rows - {id}
  }

  function Retried(rows: Table, id: Id, now: int, delay: int): Table {
    if id !in rows then rows
    else
      var row := rows[id];
      rows[id := row.(
        nextAttemptAt := now + delay,
        failedAt := if row.attempts >= row.maxAttempts then Some(now) else None)]
  }

  function Deferred(rows: Table, id: Id, now: int, delay: int): Table {
    if id !in rows then rows
    else
      var row := rows[id];
      rows[id := row.(
        nextAttemptAt := now + delay,
        attempts := if row.attempts - 1 >= 0 then row.attempts - 1 else 0)]
  }

  function Failed(rows: Table, id: Id, now: int): Table {
    if id in rows && Pending(rows[id]) then rows[id := rows[id].(failedAt := Some(now))] else rows
  }

  predicate Expired(row: Row, now: int, retention: int) {
    row.failedAt.Some? && row.failedAt.value < now - retention
  }

  function Purged(rows: Table, now: int, retention: int): Table {
    map id | id in rows && !Expired(rows[id], now, retention) :: rows[id]
  }

  function MessageOf(rows: Table, id: Id): Message
    requires id in rows
  {
    Message(id, rows[id].job, rows[id].attempts, rows[id].maxAttempts)
  }

  /** `RETURNING` lists the claimed rows in no promised order, each once. */
  predicate Returns(rows: Table, picked: set<Id>, messages: seq<Message>)
    requires picked <= rows.Keys
  {
    && (forall i :: 0 <= i < |messages| ==> messages[i].id in picked && messages[i] == MessageOf(rows, messages[i].id))
    && (forall i, j :: 0 <= i < j < |messages| ==> messages[i].id != messages[j].id)
    && (forall id :: id in picked ==> exists i :: 0 <= i < |messages| && messages[i].id == id)
  }

  function IdsOf(messages: seq<Message>): set<Id> {
    set i | 0 <= i < |messages| :: messages[i].id
  }

  /** A batch holds as many messages as the claim took rows. */
  lemma {:induction false} ReturnsCounts(rows: Table, picked: set<Id>, messages: seq<Message>)
    requires picked <= rows.Keys && Returns(rows, picked, messages)
    ensures |messages| == |picked|
    decreases messages
  {
    if messages == [] {
      assert forall id :: id in picked ==> false;
      assert picked == {};
    } else {
      var last := |messages| - 1;
      var id := messages[last].id;
      var rest := messages[..last];
      forall other | other in picked - {id} ensures exists i :: 0 <= i < |rest| && rest[i].id == other {
        var i :| 0 <= i < |messages| && messages[i].id == other;
        assert rest[i].id == other;
      }
      ReturnsCounts(rows, picked - {id}, rest);
    }
  }

  datatype RepositoryError =
    | KindRequired
    | PayloadRequired
    | DuplicateId
    | InsertFailed
    | NegativeLimit
    | AttemptsOutOfRange

  /** The least recently due row of a nonempty set of candidates. */
  method OldestOf(rows: Table, from: set<Id>) returns (oldest: Id)
    requires from != {} && from <= rows.Keys
    ensures oldest in from
    ensures forall id :: id in from ==> rows[oldest].nextAttemptAt <= rows[id].nextAttemptAt
  {
    oldest :| oldest in from;
    var rest := from - {oldest};
    while rest != {}
      invariant rest <= from && oldest in from
      invariant forall id :: id in from - rest ==> rows[oldest].nextAttemptAt <= rows[id].nextAttemptAt
      decreases rest
    {
      var id :| id in rest;
      if rows[id].nextAttemptAt < rows[oldest].nextAttemptAt {
        oldest := id;
      }
      rest := rest - {id};
    }
  }

  function SetOf(ids: seq<Id>): set<Id> {
    set id | id in ids
  }

  /** The subquery of a claim: the oldest candidates, up to the limit, each once. */
  method SelectOldest(rows: Table, from: set<Id>, limit: nat) returns (ids: seq<Id>)
    requires from <= rows.Keys
    ensures Oldest(rows, from, limit, SetOf(ids))
    ensures forall i, j :: 0 <= i < j < |ids| ==> ids[i] != ids[j]
  {
    ids := [];
    var left := from;
    ghost var picked := {};
    while |ids| < limit && left != {}
      invariant picked == SetOf(ids) && picked <= from && left == from - picked
      invariant |picked| == |ids| <= limit
      invariant forall x, y :: x in picked && y in left ==> rows[x].nextAttemptAt <= rows[y].nextAttemptAt
      invariant forall i, j :: 0 <= i < j < |ids| ==> ids[i] != ids[j]
      decreases left
    {
      var oldest := OldestOf(rows, left);
      ids := ids + [oldest];
      picked := picked + {oldest};
      left := left - {oldest};
    }
    assert left == {} ==> picked == from;
  }

  /** The PostgreSQL repository. `now` is the statement's now(); each method is one atomic statement. */
  class Repository {
    var rows: Table

    constructor ()
      ensures rows == map[]
    {
      rows := map[];
    }

    /**
     Puts one fresh row in; `id` is the generated identifier. `accepted` is the database's answer to the row: it
     refuses, among others, a payload that is not JSON.
     */
    method Enqueue(id: Id, job: Job, maxAttempts: int, now: int, accepted: bool) returns (r: Result<Id, RepositoryError>)
      modifies this
      ensures r.Ok? <==> job.kind != "" && job.payload != [] && id !in old(rows) && accepted
      ensures r.Ok? ==> r.value == id && rows == Inserted(old(rows), id, job, maxAttempts, now)
      ensures r.Err? ==> rows == old(rows)
    {
      if job.kind == "" {
        return Err(KindRequired);
      }
      if job.payload == [] {
        return Err(PayloadRequired);
      }
      if id in rows {
        return Err(DuplicateId);
      }
      if !accepted {
        return Err(InsertFailed);
      }
      rows := rows[id := Row(job, 0, if maxAttempts <= 0 then DEFAULT_MAX_ATTEMPTS else maxAttempts, now, None)];
      return Ok(id);
    }

    /**
     Takes the oldest claimable rows under a lease. A limit below zero, or an attempts column at
     its largest value, makes the statement fail as a whole.
     */
    method Claim(batchSize: int, visibility: int, now: int, locked: set<Id>)
      returns (r: Result<seq<Message>, RepositoryError>, ghost picked: set<Id>)
      modifies this
      ensures batchSize < 0 ==> r == Err(NegativeLimit)
      ensures batchSize >= 0 ==> Oldest(old(rows), Claimable(old(rows), now, locked), batchSize, picked)
      ensures batchSize >= 0 ==> (r.Ok? <==> RoomFor(old(rows), picked))
      ensures r.Ok? ==> rows == Claimed(old(rows), picked, now, Stored(visibility))
      ensures r.Ok? ==> picked <= rows.Keys && Returns(rows, picked, r.value) && |r.value| == |picked|
      ensures r.Err? ==> rows == old(rows)
    {
      picked := {};
      if batchSize < 0 {
        return Err(NegativeLimit), picked;
      }
      var ids := SelectOldest(rows, Claimable(rows, now, locked), batchSize);
      var taken := SetOf(ids);
      picked := taken;
      if !RoomFor(rows, taken) {
        return Err(AttemptsOutOfRange), picked;
      }
      rows := Claimed(rows, taken, now, Stored(visibility));
      var messages := [];
      for i := 0 to |ids|
        invariant rows == Claimed(old(rows), taken, now, Stored(visibility))
        invariant |messages| == i
        invariant forall j :: 0 <= j < i ==> messages[j] == MessageOf(rows, ids[j])
      {
        messages := messages + [MessageOf(rows, ids[i])];
      }
      forall id | id in taken ensures exists i :: 0 <= i < |messages| && messages[i].id == id {
        var i :| 0 <= i < |ids| && ids[i] == id;
        assert messages[i].id == id;
      }
      ReturnsCounts(rows, taken, messages);
      return Ok(messages), picked;
    }

    method Complete(id: Id)
      modifies this
      ensures rows == Completed(old(rows), id)
    {
      rows := rows - {id};
    }

    method Retry(id: Id, backoff: int, now: int)
      modifies this
      ensures rows == Retried(old(rows), id, now, Stored(backoff))
    {
      if id in rows {
        var failedAt := if rows[id].attempts >= rows[id].maxAttempts then Some(now) else None;
        rows := rows[id := rows[id].(nextAttemptAt := now + Stored(backoff), failedAt := failedAt)];
      }
    }

    method Defer(id: Id, delay: int, now: int)
      modifies this
      ensures rows == Deferred(old(rows), id, now, Stored(delay))
    {
      if id in rows {
        var attempts := if rows[id].attempts - 1 > 0 then rows[id].attempts - 1 else 0;
        rows := rows[id := rows[id].(nextAttemptAt := now + Stored(delay), attempts := attempts)];
      }
    }

    method Fail(id: Id, now: int)
      modifies this
      ensures rows == Failed(old(rows), id, now)
    {
      if id in rows && rows[id].failedAt == None {
        rows := rows[id := rows[id].(failedAt := Some(now))];
      }
    }

    method DeleteOldFailed(retention: int, now: int) returns (deleted: nat)
      modifies this
      ensures rows == Purged(old(rows), now, Stored(retention))
      ensures deleted == |old(rows)| - |rows|
    {
      var doomed := set id | id in rows && Expired(rows[id], now, Stored(retention));
      PurgedSize(rows, now, Stored(retention));
      rows := rows - doomed;
      deleted := |doomed|;
    }
  }

  lemma PurgedSize(rows: Table, now: int, retention: int)
    ensures var doomed := set id | id in rows && Expired(rows[id], now, retention);
            Purged(rows, now, retention) == rows - doomed && |doomed| == |rows| - |rows - doomed|
  {
    var doomed := set id | id in rows && Expired(rows[id], now, retention);
    assert rows.Keys == (rows - doomed).Keys + doomed;
    assert |rows.Keys| == |rows| && |(rows - doomed).Keys| == |rows - doomed|;
  }
}
