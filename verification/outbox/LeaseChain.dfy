/**
 Runs at the boundary of a lease: a verdict is written as another replica claims, and brings the row back before
 that replica's hold is over, or exactly when it is, for the same to happen again. The replicas may mix two
 configurations, b and x; a set of states is followed that is closed under the events of both.
 */
module OutboxLeaseChain {
  import opened Durations
  import opened Wrappers
  import opened OutboxConfig
  import opened OutboxErrors
  import opened OutboxTable
  import opened OutboxSystem
  import opened OutboxSchedule
  import opened OutboxLeaseBoundary
  import opened OutboxLeaseRuns

  // ---- A batch in a given order ----

  predicate Distinct(ids: seq<Id>) {
    forall i, j :: 0 <= i < j < |ids| ==> ids[i] != ids[j]
  }

  function BatchOf(rows: Table, ids: seq<Id>): seq<Message>
    requires SetOf(ids) <= rows.Keys
  {
    seq(|ids|, i requires 0 <= i < |ids| => assert ids[i] in SetOf(ids); MessageOf(rows, ids[i]))
  }

  lemma BatchReturns(rows: Table, ids: seq<Id>)
    requires Distinct(ids) && SetOf(ids) <= rows.Keys
    ensures Returns(rows, SetOf(ids), BatchOf(rows, ids)) && IdsOf(BatchOf(rows, ids)) == SetOf(ids)
  {
    var messages := BatchOf(rows, ids);
    forall id | id in SetOf(ids) ensures exists i :: 0 <= i < |messages| && messages[i].id == id {
      var i :| 0 <= i < |ids| && ids[i] == id;
      assert messages[i].id == id;
    }
    IdsOfReturned(rows, SetOf(ids), messages);
  }

  /** These and no other rows can be claimed, in this order. */
  ghost predicate Offered(s: System, ids: seq<Id>) {
    && Distinct(ids) && SetOf(ids) <= s.rows.Keys
    && Claimable(s.rows, s.now, {}) == SetOf(ids)
    && forall id :: id in ids ==> s.rows[id].attempts < MAX_SMALLINT
  }

  lemma {:induction false} DistinctSize(ids: seq<Id>)
    requires Distinct(ids)
    ensures |SetOf(ids)| == |ids|
    decreases ids
  {
    if ids != [] {
      var init, last := ids[..|ids| - 1], ids[|ids| - 1];
      DistinctSize(init);
      assert SetOf(ids) == SetOf(init) + {last};
      assert last !in SetOf(init);
    }
  }

  /** An idle replica takes all that is offered. */
  lemma ClaimOffered(reach: StateSet, c: Config, s: System, w: WorkerId, ids: seq<Id>) returns (s': System)
    requires Closed(reach, c) && reach(s) && w in s.workers && Idle(s.workers[w]) && Offered(s, ids)
    requires |ids| <= s.workers[w].config.batchSize
    ensures reach(s') && s'.now == s.now
    ensures s'.rows == Claimed(s.rows, SetOf(ids), s.now, Lease(s.workers[w].config)) && SetOf(ids) <= s'.rows.Keys
    ensures s'.workers == s.workers[w := Worker(s.workers[w].config, s.now, BatchOf(s'.rows, ids), 0, map[], false)]
  {
    var rows' := Claimed(s.rows, SetOf(ids), s.now, Lease(s.workers[w].config));
    assert rows'.Keys == s.rows.Keys;
    BatchReturns(rows', ids);
    DistinctSize(ids);
    ClaimEnabledBy(s, s.workers[w].config, w, BatchOf(rows', ids), SetOf(ids));
    s' := Claims(reach, c, s, w, BatchOf(rows', ids));
  }

  // ---- Fresh rows ----

  lemma {:induction false} Above(ids: set<Id>) returns (k: Id)
    ensures forall id :: id in ids ==> id < k
    decreases ids
  {
    if ids == {} {
      k := 0;
    } else {
      var id :| id in ids;
      var rest := Above(ids - {id});
      k := if id < rest then rest else id + 1;
      assert forall x :: x in ids ==> x == id || x in ids - {id};
    }
  }

  function Consecutive(k: Id, n: nat): seq<Id> {
    seq(n, i requires 0 <= i => k + i)
  }

  /** The rows from before, and n fresh ones from k on, due now. */
  ghost predicate Joined(before: Table, after: Table, k: Id, n: nat, max: nat, now: int) {
    && (forall id :: id in after <==> id in before || k <= id < k + n)
    && (forall id :: id in before ==> id in after && after[id] == before[id])
    && (forall id :: k <= id < k + n ==> id in after && after[id] == Row(JOB, 0, max, now, None))
  }

  lemma {:induction false} JoinRows(reach: StateSet, c: Config, s: System, k: Id, n: nat, max: nat) returns (s': System)
    requires Closed(reach, c) && reach(s) && max > 0
    requires forall id :: id in s.past || id in s.rows ==> id < k
    ensures reach(s') && s'.now == s.now && s'.workers == s.workers
    ensures forall id :: id in s'.past ==> id < k + n
    ensures Joined(s.rows, s'.rows, k, n, max, s.now)
  {
    if n == 0 {
      s' := s;
    } else {
      var before := JoinRows(reach, c, s, k, n - 1, max);
      s' := Enqueues(reach, c, before, k + (n - 1), max);
    }
  }

  // ---- Holding the last message of a batch ----

  predicate DistinctBatch(wk: Worker) {
    forall i, j :: 0 <= i < j < |wk.batch| ==> wk.batch[i].id != wk.batch[j].id
  }

  /** The replica's outstanding messages have their rows, as they were, and nobody else has one. */
  ghost predicate Working(s: System, wk: Worker, rows: Table) {
    && !wk.stopped && DistinctBatch(wk)
    && (forall i :: i in wk.live ==> i < wk.next && i < |wk.batch|)
    && (forall id :: id in s.rows <==> id in rows && Holds(wk, id))
    && (forall id :: id in s.rows ==> s.rows[id] == rows[id])
  }

  lemma HoldsWithout(wk: Worker, wk': Worker, i: nat, id: Id)
    requires DistinctBatch(wk) && i in wk.live && i < wk.next && i < |wk.batch|
    requires wk' == wk.(live := wk.live - {i})
    ensures Holds(wk', id) <==> Holds(wk, id) && id != wk.batch[i].id
  {
    if Holds(wk, id) && id != wk.batch[i].id {
      var j :| 0 <= j < |wk.batch| && Outstanding(wk, j) && wk.batch[j].id == id;
      assert Outstanding(wk', j);
    }
  }

  /** One message is sent, and its row deleted. */
  lemma CompleteOne(reach: StateSet, c: Config, s: System, r: WorkerId, i: nat, rows: Table) returns (s': System)
    requires Closed(reach, c) && reach(s) && r in s.workers && Working(s, s.workers[r], rows) && i in s.workers[r].live
    ensures reach(s') && s'.now == s.now
    ensures s'.workers == s.workers[r := s.workers[r].(live := s.workers[r].live - {i})]
    ensures Working(s', s'.workers[r], rows)
  {
    s' := Finishes(reach, c, s, r, i, Delivered, true);
    forall id: Id ensures Holds(s'.workers[r], id) <==> Holds(s.workers[r], id) && id != s.workers[r].batch[i].id {
      HoldsWithout(s.workers[r], s'.workers[r], i, id);
    }
  }

  /** What is left of a replica's running messages. */
  predicate Left(live: map<nat, int>, before: map<nat, int>, keep: set<nat>) {
    live.Keys == before.Keys * keep && forall i :: i in live ==> live[i] == before[i]
  }

  lemma LeftAfterOne(live: map<nat, int>, before: map<nat, int>, keep: set<nat>, i: nat)
    requires i in before && i !in keep && Left(live, before - {i}, keep)
    ensures Left(live, before, keep)
  {
    assert (before - {i}).Keys == before.Keys - {i};
    assert (before.Keys - {i}) * keep == before.Keys * keep;
  }

  /** All running messages but those to keep are sent. */
  lemma {:induction false} CompleteLive(reach: StateSet, c: Config, s: System, r: WorkerId, keep: set<nat>, rows: Table) returns (s': System)
    requires Closed(reach, c) && reach(s) && r in s.workers && Working(s, s.workers[r], rows)
    ensures reach(s') && s'.now == s.now
    ensures r in s'.workers && s'.workers == s.workers[r := s'.workers[r]]
    ensures s'.workers[r] == s.workers[r].(live := s'.workers[r].live)
    ensures Left(s'.workers[r].live, s.workers[r].live, keep)
    ensures Working(s', s'.workers[r], rows)
    decreases |s.workers[r].live|
  {
    var live := s.workers[r].live;
    if live.Keys <= keep {
      s' := s;
      assert live.Keys * keep == live.Keys;
    } else {
      var i :| i in live.Keys && i !in keep;
      var mid := CompleteOne(reach, c, s, r, i, rows);
      FewerLive(live, i);
      s' := CompleteLive(reach, c, mid, r, keep, rows);
      LeftAfterOne(s'.workers[r].live, live, keep, i);
    }
  }

  lemma FewerLive(live: map<nat, int>, i: nat)
    requires i in live
    ensures |live - {i}| < |live|
  {
    assert (live - {i}).Keys == live.Keys - {i};
    assert |live.Keys| == |live| && |(live - {i}).Keys| == |live - {i}|;
  }

  /** Starting messages holds what was waiting. */
  lemma StartedHolds(wk: Worker, wk': Worker, id: Id)
    requires forall i :: i in wk.live ==> i < wk.next
    requires wk'.batch == wk.batch && wk.next <= wk'.next
    requires forall i :: i in wk'.live <==> i in wk.live || wk.next <= i < wk'.next
    ensures Holds(wk', id) <==> Holds(wk, id)
  {
    assert forall i :: Outstanding(wk', i) <==> Outstanding(wk, i);
  }

  lemma StartWorking(reach: StateSet, c: Config, s: System, r: WorkerId, k: nat, rows: Table) returns (s': System)
    requires Closed(reach, c) && reach(s) && r in s.workers && Working(s, s.workers[r], rows) && s.workers[r].live == map[]
    requires s.workers[r].next + k <= |s.workers[r].batch| && k <= s.workers[r].config.concurrency
    ensures reach(s') && s'.now == s.now
    ensures r in s'.workers && s'.workers == s.workers[r := s'.workers[r]]
    ensures s'.workers[r] == s.workers[r].(next := s.workers[r].next + k, live := s'.workers[r].live)
    ensures forall i :: i in s'.workers[r].live <==> s.workers[r].next <= i < s.workers[r].next + k
    ensures forall i :: i in s'.workers[r].live ==> s'.workers[r].live[i] == s.now
    ensures |s'.workers[r].live| == k
    ensures Working(s', s'.workers[r], rows)
  {
    s' := StartMany(reach, c, s, r, k);
    forall id: Id ensures Holds(s'.workers[r], id) <==> Holds(s.workers[r], id) {
      StartedHolds(s.workers[r], s'.workers[r], id);
    }
  }

  /** While one replica is at work, the clock moves. */
  lemma WorkTicks(reach: StateSet, c: Config, s: System, r: WorkerId, time: int, rows: Table) returns (s': System)
    requires Closed(reach, c) && reach(s) && r in s.workers && AllDrainedBut(s, r) && Working(s, s.workers[r], rows)
    requires s.now <= time && MayAdvance(s.workers[r], time)
    ensures reach(s') && s' == s.(now := time) && Working(s', s'.workers[r], rows)
  {
    Ticks(reach, c, s, time);
    s' := s.(now := time);
  }

  /** One full wave: every slot busy for the whole timeout, then all sent. */
  lemma WorkWave(reach: StateSet, c: Config, s: System, r: WorkerId, rows: Table) returns (s': System)
    requires Closed(reach, c) && reach(s) && Positive(c) && r in s.workers && AllDrainedBut(s, r)
    requires s.workers[r].config == c && Working(s, s.workers[r], rows) && s.workers[r].live == map[]
    requires s.workers[r].next + c.concurrency <= |s.workers[r].batch|
    ensures reach(s') && s'.now == s.now + c.sendTimeout
    ensures s'.workers == s.workers[r := s.workers[r].(next := s.workers[r].next + c.concurrency)]
    ensures Working(s', s'.workers[r], rows)
  {
    var started := StartWorking(reach, c, s, r, c.concurrency, rows);
    var later := WorkTicks(reach, c, started, r, s.now + c.sendTimeout, rows);
    s' := CompleteLive(reach, c, later, r, {}, rows);
    assert s'.workers[r].live == map[];
  }

  /** Every wave but the last is over, and the last has just begun. */
  lemma {:induction false} WorkOn(reach: StateSet, c: Config, s: System, r: WorkerId, rows: Table) returns (s': System)
    requires Closed(reach, c) && reach(s) && Positive(c) && r in s.workers && AllDrainedBut(s, r)
    requires s.workers[r].config == c && Working(s, s.workers[r], rows) && s.workers[r].live == map[]
    requires s.workers[r].next < |s.workers[r].batch|
    ensures reach(s')
    ensures s'.now == s.now + LastWaveAfter(|s.workers[r].batch| - s.workers[r].next, c.concurrency, c.sendTimeout)
    ensures r in s'.workers && s'.workers == s.workers[r := s'.workers[r]]
    ensures var wk, wk' := s.workers[r], s'.workers[r];
            && wk' == wk.(next := |wk.batch|, live := wk'.live)
            && LastBegun(wk', s'.now) && Working(s', wk', rows)
    decreases |s.workers[r].batch| - s.workers[r].next
  {
    var wk := s.workers[r];
    var left := |wk.batch| - wk.next;
    if left <= c.concurrency {
      s' := StartWorking(reach, c, s, r, left, rows);
    } else {
      var mid := WorkWave(reach, c, s, r, rows);
      s' := WorkOn(reach, c, mid, r, rows);
    }
  }

  // ---- From one edge to the next ----

  /** A row's state apart from its job. */
  predicate Waits(row: Row, due: int, attempts: int, max: int) {
    Pending(row) && row.nextAttemptAt == due && row.attempts == attempts && row.maxAttempts == max
  }

  /**
   Replica v, the only one, has just claimed a full batch with the target last. The rows of the batch are all there
   are; the target's is due at `due`, the others' at the end of the lease.
   */
  ghost predicate Taken(s: System, v: WorkerId, c: Config, id: Id, seen: int, due: int, attempts: int, max: int) {
    && s.workers.Keys == {v} && Positive(c)
    && var wk := s.workers[v];
       && wk == Worker(c, s.now, wk.batch, 0, map[], false)
       && |wk.batch| == c.batchSize && DistinctBatch(wk)
       && wk.batch[|wk.batch| - 1].id == id && wk.batch[|wk.batch| - 1].attempts == seen
       && s.rows.Keys == IdsOf(wk.batch)
       && id in s.rows && Waits(s.rows[id], due, attempts, max)
       && forall other :: other in s.rows && other != id ==> s.rows[other].nextAttemptAt == s.now + Lease(c)
  }

  /** Replica r, the only one, is at the end of its hold, sending nothing but the target, whose row is alone and due. */
  ghost predicate AtEdge(s: System, r: WorkerId, c: Config, id: Id, seen: int, attempts: int, max: int) {
    && s.workers.Keys == {r}
    && s.rows.Keys == {id} && Due(s.rows[id], s.now) && s.rows[id].attempts == attempts && s.rows[id].maxAttempts == max
    && var wk := s.workers[r];
       && wk.config == c && !wk.stopped && wk.batch != [] && wk.next == |wk.batch|
       && wk.live.Keys == {|wk.batch| - 1}
       && wk.batch[|wk.batch| - 1].id == id && wk.batch[|wk.batch| - 1].attempts == seen
  }

  lemma TakenWorks(s: System, v: WorkerId, c: Config, id: Id, seen: int, due: int, attempts: int, max: int)
    requires Taken(s, v, c, id, seen, due, attempts, max)
    ensures Working(s, s.workers[v], s.rows) && AllDrainedBut(s, v)
  {
    var wk := s.workers[v];
    forall other | other in s.rows ensures Holds(wk, other) {
      var i :| 0 <= i < |wk.batch| && wk.batch[i].id == other;
      assert Outstanding(wk, i);
    }
  }

  /** The target held to the start of the last wave. */
  lemma WorkToLast(reach: StateSet, c: Config, s: System, v: WorkerId, id: Id, seen: int, due: int, attempts: int, max: int) returns (s': System)
    requires Closed(reach, c) && reach(s) && Taken(s, v, c, id, seen, due, attempts, max)
    ensures reach(s') && s'.now == s.now + LastStart(c) && s'.workers.Keys == {v} && Working(s', s'.workers[v], s.rows)
    ensures s'.workers[v] == s.workers[v].(next := c.batchSize, live := s'.workers[v].live) && LastBegun(s'.workers[v], s'.now)
  {
    TakenWorks(s, v, c, id, seen, due, attempts, max);
    s' := WorkOn(reach, c, s, v, s.rows);
  }

  /** Held to the very end, everything else sent. */
  lemma ToTheEdge(reach: StateSet, c: Config, s: System, v: WorkerId, id: Id, seen: int, due: int, attempts: int, max: int) returns (s': System)
    requires Closed(reach, c) && reach(s) && Taken(s, v, c, id, seen, due, attempts, max) && due == s.now + Hold(c)
    ensures reach(s') && AtEdge(s', v, c, id, seen, attempts, max)
  {
    var rows, last := s.rows, c.batchSize - 1;
    var begun := WorkToLast(reach, c, s, v, id, seen, due, attempts, max);
    LastStartExact(c);
    var later := WorkTicks(reach, c, begun, v, begun.now + c.sendTimeout, rows);
    s' := CompleteLive(reach, c, later, v, {last}, rows);
    assert s'.workers[v].live.Keys == {last};
    OnlyLast(s'.workers[v], id);
  }

  lemma OnlyLast(wk: Worker, id: Id)
    requires wk.batch != [] && wk.next == |wk.batch| && wk.live.Keys == {|wk.batch| - 1} && wk.batch[|wk.batch| - 1].id == id
    ensures forall other :: Holds(wk, other) <==> other == id
  {
    assert Outstanding(wk, |wk.batch| - 1);
    assert forall i :: Outstanding(wk, i) ==> i == |wk.batch| - 1;
  }

  /** The outcome of a Send with which a holder of that many attempts stores this pause. */
  ghost predicate Stores(c: Config, seen: int, outcome: Outcome, pause: int) {
    forall m: Message :: m.attempts == seen ==>
      var verdict := VerdictOn(c, m, outcome, false);
      (verdict.Defer? || verdict.Retry?) && Stored(verdict.delay) == pause
  }

  /** What the late verdict leaves of the attempts: a Defer gives one back. */
  function AttemptsLeft(outcome: Outcome, attempts: int): int {
    if outcome.Refused? && IsConflict(outcome.err) then attempts else attempts + 1
  }

  lemma LateVerdict(rows: Table, c: Config, m: Message, outcome: Outcome, now: int, pause: int, attempts: int, max: int)
    requires m.id in rows && Pending(rows[m.id]) && rows[m.id].attempts == attempts + 1 < max == rows[m.id].maxAttempts && attempts >= 0
    requires Stores(c, m.attempts, outcome, pause)
    ensures var rows' := Written(rows, m.id, VerdictOn(c, m, outcome, false), now);
            && rows'.Keys == rows.Keys
            && Waits(rows'[m.id], now + pause, AttemptsLeft(outcome, attempts), max)
            && forall id :: id in rows && id != m.id ==> rows'[id] == rows[id]
  {
    var verdict := VerdictOn(c, m, outcome, false);
    assert verdict.Defer? || verdict.Retry?;
  }

  /** A replica with x joins, and rows enough to fill its batch, the target last. */
  lemma Joins(reach: StateSet, x: Config, s: System, r: WorkerId, c: Config, id: Id, seen: int, attempts: int, max: nat)
    returns (s': System, ids: seq<Id>)
    requires Closed(reach, x) && reach(s) && Deployable(x) && AtEdge(s, r, c, id, seen, attempts, max)
    requires attempts < MAX_SMALLINT && max > 0
    ensures reach(s') && s'.now == s.now && s'.workers == s.workers[r + 1 := Worker(x, s.now, [], 0, map[], false)]
    ensures |ids| == x.batchSize && ids[|ids| - 1] == id
    ensures Offered(s', ids) && s'.rows.Keys == SetOf(ids) && id in s'.rows && s'.rows[id] == s.rows[id]
  {
    var k := Above(s.past.Keys + s.rows.Keys);
    var joined := JoinRows(reach, x, s, k, x.batchSize - 1, max);
    s' := Deploys(reach, x, joined, r + 1);
    ids := Consecutive(k, x.batchSize - 1) + [id];
    AllOffered(s, s', id, k, x.batchSize - 1, max);
  }

  /** It takes them all. */
  lemma Succeed(reach: StateSet, x: Config, s: System, r: WorkerId, c: Config, id: Id, seen: int, attempts: int, max: nat)
    returns (s': System, ids: seq<Id>)
    requires Closed(reach, x) && reach(s) && Deployable(x) && AtEdge(s, r, c, id, seen, attempts, max)
    requires attempts < MAX_SMALLINT && max > 0
    ensures reach(s') && s'.now == s.now && s'.workers.Keys == {r, r + 1} && s'.workers[r] == s.workers[r]
    ensures |ids| == x.batchSize && Distinct(ids) && ids[|ids| - 1] == id && s'.rows.Keys == SetOf(ids)
    ensures s'.workers[r + 1] == Worker(x, s.now, BatchOf(s'.rows, ids), 0, map[], false)
    ensures Waits(s'.rows[id], s.now + Lease(x), attempts + 1, max)
    ensures forall other :: other in s'.rows ==> s'.rows[other].nextAttemptAt == s.now + Lease(x)
  {
    var ready;
    ready, ids := Joins(reach, x, s, r, c, id, seen, attempts, max);
    s' := ClaimOffered(reach, x, ready, r + 1, ids);
  }

  lemma AllOffered(s: System, s': System, id: Id, k: Id, n: nat, max: nat)
    requires s.rows.Keys == {id} && id < k && Due(s.rows[id], s.now) && s.rows[id].attempts < MAX_SMALLINT
    requires s'.now == s.now && Joined(s.rows, s'.rows, k, n, max, s.now)
    ensures Offered(s', Consecutive(k, n) + [id]) && s'.rows.Keys == SetOf(Consecutive(k, n) + [id])
  {
    var ids := Consecutive(k, n) + [id];
    forall other | other in s'.rows ensures other in ids {
      if other != id {
        assert ids[other - k] == other;
      } else {
        assert ids[n] == other;
      }
    }
  }

  lemma IsTaken(s: System, v: WorkerId, c: Config, rows: Table, ids: seq<Id>, id: Id, due: int, attempts: int, max: int)
    requires Positive(c) && s.workers.Keys == {v} && SetOf(ids) == rows.Keys
    requires s.workers[v] == Worker(c, s.now, BatchOf(rows, ids), 0, map[], false)
    requires |ids| == c.batchSize && Distinct(ids) && ids[|ids| - 1] == id
    requires s.rows.Keys == rows.Keys && id in rows && Waits(s.rows[id], due, attempts, max)
    requires forall other :: other in rows && other != id ==>
               s.rows[other] == rows[other] && rows[other].nextAttemptAt == s.now + Lease(c)
    ensures Taken(s, v, c, id, rows[id].attempts, due, attempts, max)
  {
    BatchParts(rows, ids, s.workers[v]);
  }

  lemma BatchParts(rows: Table, ids: seq<Id>, wk: Worker)
    requires ids != [] && Distinct(ids) && SetOf(ids) == rows.Keys && wk.batch == BatchOf(rows, ids)
    ensures |wk.batch| == |ids| && DistinctBatch(wk) && IdsOf(wk.batch) == rows.Keys
    ensures ids[|ids| - 1] in rows && wk.batch[|ids| - 1] == MessageOf(rows, ids[|ids| - 1])
  {
    BatchReturns(rows, ids);
    assert ids[|ids| - 1] in SetOf(ids);
  }

  /** The old holder's verdict is written, and the old holder goes. */
  lemma Leaves(reach: StateSet, c: Config, s: System, r: WorkerId, last: nat, outcome: Outcome) returns (s': System)
    requires Closed(reach, c) && reach(s) && r in s.workers && !s.workers[r].stopped && s.workers[r].config == c
    requires last in s.workers[r].live && last < |s.workers[r].batch|
    ensures reach(s') && s'.now == s.now && s'.workers == s.workers - {r}
    ensures var m := s.workers[r].batch[last];
            s'.rows == Written(s.rows, m.id, VerdictOn(c, m, outcome, false), s.now)
  {
    var cut := Finishes(reach, c, s, r, last, outcome, true);
    s' := Crashes(reach, c, cut, r);
  }

  /** The old holder's verdict comes after the new one's claim. */
  lemma HandOver(reach: StateSet, c: Config, x: Config, s: System, r: WorkerId, id: Id, seen: int, attempts: int, max: nat,
                 outcome: Outcome, pause: int) returns (s': System)
    requires Closed(reach, c) && Closed(reach, x) && reach(s) && Deployable(x) && AtEdge(s, r, c, id, seen, attempts, max)
    requires 0 <= attempts && attempts + 1 < max && attempts < MAX_SMALLINT && Stores(c, seen, outcome, pause)
    ensures reach(s')
    ensures Taken(s', r + 1, x, id, attempts + 1, s'.now + pause, AttemptsLeft(outcome, attempts), max)
  {
    var last := |s.workers[r].batch| - 1;
    var taken, ids := Succeed(reach, x, s, r, c, id, seen, attempts, max);
    s' := Leaves(reach, c, taken, r, last, outcome);
    LateVerdict(taken.rows, c, s.workers[r].batch[last], outcome, taken.now, pause, attempts, max);
    IsTaken(s', r + 1, x, taken.rows, ids, id, s'.now + pause, AttemptsLeft(outcome, attempts), max);
  }

  /** When the row comes back before the hold is over, a third replica's Send overlaps the second one's. */
  lemma Overlaps(reach: StateSet, x: Config, s: System, v: WorkerId, id: Id, seen: int, due: int, attempts: int, max: int) returns (s': System)
    requires Closed(reach, x) && reach(s) && Deployable(x) && Hold(x) <= Lease(x)
    requires Taken(s, v, x, id, seen, due, attempts, max) && due < s.now + Hold(x) && attempts < MAX_SMALLINT
    ensures reach(s') && Overlap(s', id)
  {
    var begun := WorkToLast(reach, x, s, v, id, seen, due, attempts, max);
    LastStartExact(x);
    var time := if due <= begun.now then begun.now else due;
    var later := WorkTicks(reach, x, begun, v, time, s.rows);
    LastHeld(later.workers[v], begun.now);
    OnlyTarget(later, v, s.rows, id, due, attempts, max);
    s' := ThirdSend(reach, x, later, v, id, begun.now);
  }

  lemma LastHeld(wk: Worker, begun: int)
    requires LastBegun(wk, begun)
    ensures Holds(wk, wk.batch[|wk.batch| - 1].id)
  {
    assert Outstanding(wk, |wk.batch| - 1);
  }

  lemma OnlyTarget(s: System, v: WorkerId, rows: Table, id: Id, due: int, attempts: int, max: int)
    requires v in s.workers && Working(s, s.workers[v], rows) && Holds(s.workers[v], id)
    requires id in rows && Waits(rows[id], due, attempts, max) && due <= s.now && attempts < MAX_SMALLINT
    requires forall other :: other in rows && other != id ==> rows[other].nextAttemptAt > s.now
    ensures Offered(s, [id])
  {
  }

  /** A third replica claims and starts the message while the second one's Send of it still has time. */
  lemma ThirdSend(reach: StateSet, x: Config, s: System, v: WorkerId, id: Id, begun: int) returns (s': System)
    requires Closed(reach, x) && reach(s) && Deployable(x) && s.workers.Keys == {v} && Offered(s, [id])
    requires var wk := s.workers[v];
             && wk.config == x && LastBegun(wk, begun) && wk.batch[|wk.batch| - 1].id == id
             && begun <= s.now < begun + x.sendTimeout
    ensures reach(s') && Overlap(s', id)
  {
    var claimed := ThirdClaim(reach, x, s, v, id);
    var both := StartOnly(reach, x, claimed, v + 1);
    MayStillMove(both, v, v + 1, x, begun);
    Ticks(reach, x, both, both.now + 1);
    s' := both.(now := both.now + 1);
    BothSending(s', v, |s.workers[v].batch| - 1, v + 1, 0, id);
  }

  /** A batch of one is started. */
  lemma StartOnly(reach: StateSet, x: Config, s: System, w: WorkerId) returns (s': System)
    requires Closed(reach, x) && reach(s) && w in s.workers && 0 < s.workers[w].config.concurrency
    requires var wk := s.workers[w]; wk.next == 0 && wk.live == map[] && |wk.batch| == 1
    ensures reach(s') && s'.now == s.now && w in s'.workers && s'.workers == s.workers[w := s'.workers[w]]
    ensures s'.workers[w].batch == s.workers[w].batch && s'.workers[w].config == s.workers[w].config
    ensures LastBegun(s'.workers[w], s.now)
  {
    s' := Sends(reach, x, s, w);
  }

  lemma ThirdClaim(reach: StateSet, x: Config, s: System, v: WorkerId, id: Id) returns (s': System)
    requires Closed(reach, x) && reach(s) && Deployable(x) && s.workers.Keys == {v} && Offered(s, [id])
    ensures reach(s') && s'.now == s.now && s'.workers.Keys == {v, v + 1} && s'.workers[v] == s.workers[v]
    ensures var wk := s'.workers[v + 1];
            wk == Worker(x, s.now, wk.batch, 0, map[], false) && |wk.batch| == 1 && wk.batch[0].id == id
  {
    var ready := Deploys(reach, x, s, v + 1);
    s' := ClaimOffered(reach, x, ready, v + 1, [id]);
  }

  /** Both have started their last message, and both have time left. */
  lemma MayStillMove(s: System, v: WorkerId, w: WorkerId, x: Config, begun: int)
    requires s.workers.Keys == {v, w} && s.workers[v].config == x && s.workers[w].config == x && x.sendTimeout > 0
    requires LastBegun(s.workers[v], begun) && LastBegun(s.workers[w], s.now) && begun <= s.now < begun + x.sendTimeout
    ensures Punctual(s, Tick(s.now + 1))
  {
  }

  // ---- From the start ----

  /** One idle replica beside a full table, after as many abandoned claims as asked for. */
  lemma Alone(reach: StateSet, b: Config, rounds: nat, max: nat) returns (s: System)
    requires Closed(reach, b) && Deployable(b) && rounds <= 1 && max > 0
    ensures reach(s) && s.workers.Keys == {0} && s.workers[0].config == b && Idle(s.workers[0])
    ensures Ripe(s.rows, b.batchSize, rounds, max, s.now)
  {
    var ready := PrepareRounds(reach, b, max, rounds);
    s := Crashes(reach, b, ready, 1);
  }

  /** A full batch just claimed by it. */
  lemma FirstTaken(reach: StateSet, b: Config, rounds: nat, max: nat) returns (s: System)
    requires Closed(reach, b) && Deployable(b) && rounds <= 1 && max > 0
    ensures reach(s) && Taken(s, 0, b, Target(b), rounds + 1, s.now + Lease(b), rounds + 1, max)
  {
    var alone := Alone(reach, b, rounds, max);
    var ids := Consecutive(0, b.batchSize);
    RipeOffered(alone, b.batchSize, rounds, max);
    s := ClaimOffered(reach, b, alone, 0, ids);
    RipeTaken(alone, s, b, ids, rounds, max);
  }

  lemma RipeTaken(alone: System, s: System, b: Config, ids: seq<Id>, rounds: nat, max: nat)
    requires Positive(b) && ids == Consecutive(0, b.batchSize) && Distinct(ids) && alone.rows.Keys == SetOf(ids)
    requires Ripe(alone.rows, b.batchSize, rounds, max, alone.now) && s.now == alone.now && s.workers.Keys == {0}
    requires s.rows == Claimed(alone.rows, SetOf(ids), s.now, Lease(b)) && SetOf(ids) <= s.rows.Keys
    requires s.workers[0] == Worker(b, s.now, BatchOf(s.rows, ids), 0, map[], false)
    ensures Taken(s, 0, b, Target(b), rounds + 1, s.now + Lease(b), rounds + 1, max)
  {
    ClaimedRipe(alone.rows, b.batchSize, rounds, max, alone.now, Lease(b));
    IsTaken(s, 0, b, s.rows, ids, Target(b), s.now + Lease(b), rounds + 1, max);
  }

  /** A boundary configuration's replica at its edge. */
  lemma FirstEdge(reach: StateSet, b: Config, rounds: nat, max: nat) returns (s: System)
    requires Closed(reach, b) && Deployable(b) && Boundary(b) && rounds <= 1 && max > 0
    ensures reach(s) && AtEdge(s, 0, b, Target(b), rounds + 1, rounds + 1, max)
  {
    var taken := FirstTaken(reach, b, rounds, max);
    s := ToTheEdge(reach, b, taken, 0, Target(b), rounds + 1, taken.now + Lease(b), rounds + 1, max);
  }

  lemma RipeOffered(s: System, n: nat, attempts: nat, max: nat)
    requires Ripe(s.rows, n, attempts, max, s.now) && attempts < MAX_SMALLINT
    ensures Offered(s, Consecutive(0, n)) && s.rows.Keys == SetOf(Consecutive(0, n))
  {
    forall id | id in s.rows ensures id in Consecutive(0, n) {
      assert Consecutive(0, n)[id] == id;
    }
  }

  /** What stores the shortest pause, at the first attempt that can, and from the k-th attempt on. */
  lemma ShortestOutcome(c: Config) returns (outcome: Outcome)
    requires Usable(c)
    ensures Stores(c, FirstShortest(c), outcome, ShortestDelay(c))
  {
    FirstShortestExact(c, FirstShortest(c));
    outcome := Refused(if ShortestDelay(c) == Stored(c.conflictBackoff) then ConflictError(Plain("")) else Plain(""));
  }

  lemma LaterOutcome(c: Config, k: nat) returns (outcome: Outcome)
    requires Usable(c) && k >= 2
    ensures Stores(c, k, outcome, ShortestFrom(c, k))
  {
    ShortestFromExact(c, k, k);
    outcome := Refused(if ShortestFrom(c, k) == Stored(c.conflictBackoff) then ConflictError(Plain("")) else Plain(""));
  }

  /** b's shortest pause is shorter than x's hold. */
  lemma ShortPause(reach: StateSet, b: Config, x: Config) returns (s: System)
    requires Closed(reach, b) && Closed(reach, x) && Deployable(b) && Deployable(x)
    requires Boundary(b) && Hold(x) <= Lease(x) && ShortestDelay(b) < Hold(x)
    ensures reach(s) && Overlap(s, Target(b))
  {
    var k := FirstShortest(b);
    var outcome := ShortestOutcome(b);
    var edge := FirstEdge(reach, b, k - 1, 10);
    var taken := HandOver(reach, b, x, edge, 0, Target(b), k, k, 10, outcome, ShortestDelay(b));
    s := Overlaps(reach, x, taken, 1, Target(b), k + 1, taken.now + ShortestDelay(b), AttemptsLeft(outcome, k), 10);
  }

  /** b's shortest pause is as long as x's hold, and a later pause of x is shorter. */
  lemma TiedPause(reach: StateSet, b: Config, x: Config) returns (s: System)
    requires Closed(reach, b) && Closed(reach, x) && Deployable(b) && Deployable(x)
    requires Hold(x) <= Lease(x) && Ties(b, x) && ShortestFrom(x, FirstShortest(b) + 1) < Hold(x)
    ensures reach(s) && Overlap(s, Target(b))
  {
    var k, id := FirstShortest(b), Target(b);
    var outcome := ShortestOutcome(b);
    var edge := FirstEdge(reach, b, k - 1, 10);
    var taken := HandOver(reach, b, x, edge, 0, id, k, k, 10, outcome, ShortestDelay(b));
    var left := AttemptsLeft(outcome, k);
    var next := ToTheEdge(reach, x, taken, 1, id, k + 1, taken.now + Hold(x), left, 10);
    var later := LaterOutcome(x, k + 1);
    var pause := ShortestFrom(x, k + 1);
    var again := HandOver(reach, x, x, next, 1, id, k + 1, left, 10, later, pause);
    s := Overlaps(reach, x, again, 2, id, left + 1, again.now + pause, AttemptsLeft(later, left), 10);
  }
}
