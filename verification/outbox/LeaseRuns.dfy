/**
 Runs that show how long a message can be held: they fill a batch, let every wave take its full timeout,
 and claim again while the last message is still held. A run is followed state by state, inside any set of
 states that contains the initial one and is closed under punctual events.
 */
module OutboxLeaseRuns {
  import opened Durations
  import opened Products
  import opened Sets
  import opened Wrappers
  import opened OutboxConfig
  import opened OutboxErrors
  import opened OutboxTable
  import opened OutboxSystem
  import opened OutboxSchedule
  import opened OutboxLoss
  import opened OutboxLease
  import opened OutboxLeaseBoundary

  const JOB := Job("kind", [0])

  /** A deployable configuration: what `NewWorker` lets through. */
  predicate Deployable(c: Config) {
    Positive(c) && InRange(c) && Accepts(c)
  }

  type StateSet = System -> bool

  ghost predicate Closed(reach: StateSet, c: Config) {
    && reach(INIT)
    && forall s, e :: reach(s) && Punctual(s, e) && (e.Deploy? ==> e.config == c) ==> reach(Next(s, e))
  }

  // ---- Single events ----

  lemma Ticks(reach: StateSet, c: Config, s: System, time: int)
    requires Closed(reach, c) && reach(s) && s.now <= time && Punctual(s, Tick(time))
    ensures reach(s.(now := time))
  {
    assert Next(s, Tick(time)) == s.(now := time);
  }

  lemma Enqueues(reach: StateSet, c: Config, s: System, id: Id, max: nat) returns (s': System)
    requires Closed(reach, c) && reach(s) && id !in s.past && id !in s.rows && max > 0
    ensures reach(s') && s'.now == s.now && s'.workers == s.workers
    ensures s'.rows == s.rows[id := Row(JOB, 0, max, s.now, None)] && s'.past.Keys == s.past.Keys + {id}
  {
    s' := Next(s, Enqueue(id, JOB, max, s.now));
  }

  lemma Deploys(reach: StateSet, c: Config, s: System, w: WorkerId) returns (s': System)
    requires Closed(reach, c) && reach(s) && w !in s.workers && Deployable(c)
    ensures reach(s') && s'.now == s.now && s'.rows == s.rows
    ensures s'.workers == s.workers[w := Worker(c, s.now, [], 0, map[], false)]
  {
    s' := Next(s, Deploy(w, c));
  }

  lemma Crashes(reach: StateSet, c: Config, s: System, w: WorkerId) returns (s': System)
    requires Closed(reach, c) && reach(s) && w in s.workers
    ensures reach(s') && s'.now == s.now && s'.rows == s.rows && s'.workers == s.workers - {w}
  {
    s' := Next(s, Crash(w));
  }

  lemma Claims(reach: StateSet, c: Config, s: System, w: WorkerId, messages: seq<Message>) returns (s': System)
    requires Closed(reach, c) && reach(s) && ClaimEnabled(s, w, {}, messages)
    ensures reach(s') && s'.now == s.now
    ensures s'.rows == Claimed(s.rows, IdsOf(messages), s.now, Lease(s.workers[w].config))
    ensures s'.workers == s.workers[w := Worker(s.workers[w].config, s.now, messages, 0, map[], false)]
  {
    s' := Next(s, Claim(w, {}, messages));
    assert s' == AfterClaim(s, w, messages);
  }

  lemma Sends(reach: StateSet, c: Config, s: System, w: WorkerId) returns (s': System)
    requires Closed(reach, c) && reach(s) && Enabled(s, Event.Send(w))
    ensures reach(s') && s'.now == s.now && s'.rows == s.rows
    ensures var wk := s.workers[w];
            s'.workers == s.workers[w := wk.(next := wk.next + 1, live := wk.live[wk.next := s.now])]
  {
    s' := Next(s, Event.Send(w));
    assert s' == AfterSend(s, w);
  }

  lemma Finishes(reach: StateSet, c: Config, s: System, w: WorkerId, i: nat, outcome: Outcome, written: bool) returns (s': System)
    requires Closed(reach, c) && reach(s) && w in s.workers && !s.workers[w].stopped
    requires i in s.workers[w].live && i < |s.workers[w].batch|
    ensures reach(s') && s'.now == s.now
    ensures s' == AfterFinish(s, w, i, outcome, false, written)
    ensures s'.workers == s.workers[w := s.workers[w].(live := s.workers[w].live - {i})]
    ensures var verdict := VerdictOn(s.workers[w].config, s.workers[w].batch[i], outcome, false);
            s'.rows == if written then Written(s.rows, s.workers[w].batch[i].id, verdict, s.now) else s.rows
  {
    s' := AfterFinish(s, w, i, outcome, false, written);
    assert s' == Next(s, Finish(w, i, outcome, false, written));
  }

  // ---- Filling the table ----

  function Ids(n: nat): (ids: set<Id>)
    ensures |ids| == n
    ensures forall id: Id :: id in ids <==> id < n
  {
    if n == 0 then {} else Ids(n - 1) + {n - 1}
  }

  /** Rows 0..n-1 are pending and due, claimed `attempts` times so far. */
  ghost predicate Ripe(rows: Table, n: nat, attempts: nat, max: nat, now: int) {
    && rows.Keys == Ids(n)
    && forall id :: id in rows ==>
         && rows[id].attempts == attempts && rows[id].maxAttempts == max
         && rows[id].failedAt == None && rows[id].nextAttemptAt <= now
  }

  lemma {:induction false} Fill(reach: StateSet, c: Config, n: nat, max: nat) returns (s: System)
    requires Closed(reach, c) && max > 0
    ensures reach(s)
    ensures s.now == 0 && s.workers == map[] && Ripe(s.rows, n, 0, max, 0) && s.past.Keys == Ids(n)
  {
    if n == 0 {
      s := INIT;
    } else {
      var before := Fill(reach, c, n - 1, max);
      s := Enqueues(reach, c, before, n - 1, max);
    }
  }

  /** Two idle replicas beside a full table. */
  ghost predicate Ready(s: System, c: Config, attempts: nat, max: nat) {
    && s.workers.Keys == {0, 1}
    && s.workers[0].config == c && s.workers[1].config == c
    && Idle(s.workers[0]) && Idle(s.workers[1])
    && Positive(c)
    && Ripe(s.rows, c.batchSize, attempts, max, s.now)
  }

  lemma Prepare(reach: StateSet, c: Config, max: nat) returns (s: System)
    requires Closed(reach, c) && Deployable(c) && max > 0
    ensures reach(s) && Ready(s, c, 0, max)
  {
    s := Fill(reach, c, c.batchSize, max);
    s := Deploys(reach, c, s, 0);
    s := Deploys(reach, c, s, 1);
  }

  // ---- Claiming a full batch ----

  function Place(n: nat, i: nat, reversed: bool): Id
    requires i < n
  {
    if reversed then n - 1 - i else i
  }

  function FullBatch(rows: Table, n: nat, reversed: bool): seq<Message>
    requires rows.Keys == Ids(n)
  {
    seq(n, i requires 0 <= i < n => MessageOf(rows, Place(n, i, reversed)))
  }

  lemma FullBatchReturns(rows: Table, n: nat, reversed: bool)
    requires rows.Keys == Ids(n)
    ensures Returns(rows, rows.Keys, FullBatch(rows, n, reversed))
    ensures IdsOf(FullBatch(rows, n, reversed)) == rows.Keys
  {
    var messages := FullBatch(rows, n, reversed);
    forall id | id in rows.Keys ensures exists i :: 0 <= i < |messages| && messages[i].id == id {
      var i: nat := if reversed then n - 1 - id else id;
      assert messages[i].id == id;
    }
    assert Returns(rows, rows.Keys, messages);
    IdsOfReturned(rows, rows.Keys, messages);
  }

  /** A batch as large as the table takes it whole. */
  lemma AllOldest(rows: Table, limit: nat, attempts: nat, max: nat, now: int)
    requires Ripe(rows, limit, attempts, max, now)
    ensures Claimable(rows, now, {}) == rows.Keys && Oldest(rows, rows.Keys, limit, rows.Keys)
  {
    assert Claimable(rows, now, {}) == rows.Keys;
  }

  /** Every row has just been claimed. */
  ghost predicate AllClaimed(rows: Table, n: nat, attempts: nat, max: nat, due: int) {
    && Ripe(rows, n, attempts, max, due)
    && forall id :: id in rows ==> rows[id].nextAttemptAt == due
  }

  lemma ClaimedRipe(rows: Table, n: nat, attempts: nat, max: nat, now: int, lease: int)
    requires Ripe(rows, n, attempts, max, now)
    ensures AllClaimed(Claimed(rows, rows.Keys, now, lease), n, attempts + 1, max, now + lease)
  {
    assert Claimed(rows, rows.Keys, now, lease).Keys == rows.Keys;
  }

  /** Replica r, idle so far, claims every row. */
  lemma ClaimAll(reach: StateSet, c: Config, s: System, r: WorkerId, attempts: nat, max: nat, reversed: bool) returns (s': System)
    requires Closed(reach, c) && reach(s) && Positive(c) && attempts < MAX_SMALLINT
    requires r in s.workers && Idle(s.workers[r]) && s.workers[r].config == c
    requires Ripe(s.rows, c.batchSize, attempts, max, s.now)
    ensures reach(s') && s'.now == s.now
    ensures AllClaimed(s'.rows, c.batchSize, attempts + 1, max, s.now + Lease(c))
    ensures s'.workers == s.workers[r := Worker(c, s.now, FullBatch(s'.rows, c.batchSize, reversed), 0, map[], false)]
  {
    var rows' := Claimed(s.rows, s.rows.Keys, s.now, Lease(c));
    ClaimedRipe(s.rows, c.batchSize, attempts, max, s.now, Lease(c));
    var messages := FullBatch(rows', c.batchSize, reversed);
    ClaimAllEnabled(s, c, r, attempts, max, rows', messages, reversed);
    s' := Claims(reach, c, s, r, messages);
  }

  lemma ClaimAllEnabled(s: System, c: Config, r: WorkerId, attempts: nat, max: nat, rows': Table, messages: seq<Message>, reversed: bool)
    requires attempts < MAX_SMALLINT && c.batchSize >= 0
    requires r in s.workers && Idle(s.workers[r]) && s.workers[r].config == c
    requires Ripe(s.rows, c.batchSize, attempts, max, s.now)
    requires rows' == Claimed(s.rows, s.rows.Keys, s.now, Lease(c))
    requires rows'.Keys == Ids(c.batchSize) && messages == FullBatch(rows', c.batchSize, reversed)
    ensures IdsOf(messages) == s.rows.Keys && ClaimEnabled(s, r, {}, messages)
  {
    FullBatchReturns(rows', c.batchSize, reversed);
    AllOldest(s.rows, c.batchSize, attempts, max, s.now);
    ClaimEnabledBy(s, c, r, messages, s.rows.Keys);
  }

  lemma ClaimEnabledBy(s: System, c: Config, w: WorkerId, messages: seq<Message>, picked: set<Id>)
    requires w in s.workers && Idle(s.workers[w]) && s.workers[w].config == c && picked <= s.rows.Keys
    requires Oldest(s.rows, Claimable(s.rows, s.now, {}), c.batchSize, picked) && RoomFor(s.rows, picked)
    requires IdsOf(messages) == picked && Returns(Claimed(s.rows, picked, s.now, Lease(c)), picked, messages)
    ensures ClaimEnabled(s, w, {}, messages)
  {
  }

  // ---- Running a batch wave by wave ----

  /** A worker that has started its next k messages at once. */
  function Started(wk: Worker, k: nat, now: int): (r: Worker)
    ensures r == wk.(next := wk.next + k, live := r.live)
    ensures forall i :: i in r.live <==> i in wk.live || wk.next <= i < wk.next + k
    ensures forall i :: i in r.live ==> r.live[i] == if i >= wk.next && i < wk.next + k then now else wk.live[i]
    ensures (forall i :: i in wk.live ==> i < wk.next) ==> |r.live| == |wk.live| + k
  {
    if k == 0 then wk
    else
      var before := Started(wk, k - 1, now);
      before.(next := before.next + 1, live := before.live[before.next := now])
  }

  lemma StartNext(reach: StateSet, c: Config, s: System, mid: System, r: WorkerId, k: nat) returns (s': System)
    requires Closed(reach, c) && reach(mid) && k > 0
    requires r in s.workers && s.workers[r].next + k <= |s.workers[r].batch|
    requires |s.workers[r].live| + k <= s.workers[r].config.concurrency
    requires forall i :: i in s.workers[r].live ==> i < s.workers[r].next
    requires mid.now == s.now && mid.rows == s.rows && mid.workers == s.workers[r := Started(s.workers[r], k - 1, s.now)]
    ensures reach(s') && s'.now == s.now && s'.rows == s.rows
    ensures s'.workers == s.workers[r := Started(s.workers[r], k, s.now)]
  {
    var before := Started(s.workers[r], k - 1, s.now);
    assert mid.workers[r] == before && |before.live| == |s.workers[r].live| + (k - 1);
    s' := Sends(reach, c, mid, r);
  }

  lemma {:induction false} StartMany(reach: StateSet, c: Config, s: System, r: WorkerId, k: nat) returns (s': System)
    requires Closed(reach, c) && reach(s)
    requires r in s.workers && s.workers[r].next + k <= |s.workers[r].batch|
    requires |s.workers[r].live| + k <= s.workers[r].config.concurrency
    requires forall i :: i in s.workers[r].live ==> i < s.workers[r].next
    ensures reach(s') && s'.now == s.now && s'.rows == s.rows
    ensures s'.workers == s.workers[r := Started(s.workers[r], k, s.now)]
    decreases k
  {
    if k == 0 {
      s' := s;
    } else {
      var mid := StartMany(reach, c, s, r, k - 1);
      s' := StartNext(reach, c, s, mid, r, k);
    }
  }

  /** Every running Send of r fails, and the database takes none of the verdicts. */
  lemma {:induction false} AbandonLive(reach: StateSet, c: Config, s: System, r: WorkerId) returns (s': System)
    requires Closed(reach, c) && reach(s)
    requires r in s.workers && !s.workers[r].stopped && forall i :: i in s.workers[r].live ==> i < |s.workers[r].batch|
    ensures reach(s') && s'.now == s.now && s'.rows == s.rows
    ensures s'.workers == s.workers[r := s.workers[r].(live := map[])]
    decreases |s.workers[r].live|
  {
    var wk := s.workers[r];
    if wk.live.Keys == {} {
      s' := s;
      assert wk.live == map[];
    } else {
      var i :| i in wk.live;
      var mid := Finishes(reach, c, s, r, i, Refused(Plain("")), false);
      assert (wk.live - {i}).Keys == wk.live.Keys - {i};
      s' := AbandonLive(reach, c, mid, r);
    }
  }

  predicate AllDrainedBut(s: System, r: WorkerId) {
    forall v :: v in s.workers && v != r ==> Drained(s.workers[v])
  }

  /** With every slot just filled, the clock may move by a whole timeout. */
  lemma WaveMayRun(s: System, c: Config, r: WorkerId)
    requires r in s.workers && AllDrainedBut(s, r) && s.workers[r].config == c
    requires |s.workers[r].live| >= c.concurrency && forall i :: i in s.workers[r].live ==> s.workers[r].live[i] == s.now
    ensures Punctual(s, Tick(s.now + c.sendTimeout))
  {
  }

  lemma WaveEnds(reach: StateSet, c: Config, s: System, r: WorkerId) returns (s': System)
    requires r in s.workers && !s.workers[r].stopped
    requires Closed(reach, c) && reach(s) && Positive(c) && r in s.workers && AllDrainedBut(s, r) && s.workers[r].config == c
    requires |s.workers[r].live| >= c.concurrency && forall i :: i in s.workers[r].live ==> s.workers[r].live[i] == s.now
    requires forall i :: i in s.workers[r].live ==> i < |s.workers[r].batch|
    ensures reach(s') && s'.now == s.now + c.sendTimeout && s'.rows == s.rows
    ensures s'.workers == s.workers[r := s.workers[r].(live := map[])]
  {
    var time := s.now + c.sendTimeout;
    WaveMayRun(s, c, r);
    Ticks(reach, c, s, time);
    s' := AbandonLive(reach, c, s.(now := time), r);
  }

  lemma FillSlots(reach: StateSet, c: Config, s: System, r: WorkerId) returns (s': System)
    requires r in s.workers && !s.workers[r].stopped
    requires Closed(reach, c) && reach(s) && Positive(c) && r in s.workers
    requires s.workers[r].config == c && s.workers[r].live == map[]
    requires s.workers[r].next + c.concurrency <= |s.workers[r].batch|
    ensures reach(s') && s'.now == s.now && s'.rows == s.rows
    ensures r in s'.workers && s'.workers == s.workers[r := s'.workers[r]]
    ensures s'.workers[r] == s.workers[r].(next := s.workers[r].next + c.concurrency, live := s'.workers[r].live)
    ensures |s'.workers[r].live| >= c.concurrency
    ensures forall i :: i in s'.workers[r].live ==> s'.workers[r].live[i] == s'.now && i < |s.workers[r].batch|
  {
    s' := StartMany(reach, c, s, r, c.concurrency);
  }

  /** One full wave: every slot busy for the whole timeout, then all abandoned. */
  lemma OneWave(reach: StateSet, c: Config, s: System, r: WorkerId) returns (s': System)
    requires r in s.workers && !s.workers[r].stopped
    requires Closed(reach, c) && reach(s) && Positive(c) && r in s.workers && AllDrainedBut(s, r)
    requires s.workers[r].config == c && s.workers[r].live == map[]
    requires s.workers[r].next + c.concurrency <= |s.workers[r].batch|
    ensures reach(s') && s'.now == s.now + c.sendTimeout && s'.rows == s.rows
    ensures s'.workers == s.workers[r := s.workers[r].(next := s.workers[r].next + c.concurrency)]
  {
    s' := FillSlots(reach, c, s, r);
    s' := WaveEnds(reach, c, s', r);
  }

  /** How long the waves before the last one take. */
  function LastWaveAfter(left: nat, slots: nat, timeout: nat): nat
    requires slots > 0
  {
    if left <= slots then 0 else timeout + LastWaveAfter(left - slots, slots, timeout)
  }

  lemma {:induction false} LastWaveExact(left: nat, slots: nat, timeout: nat)
    requires left > 0 && slots > 0
    ensures LastWaveAfter(left, slots, timeout) + timeout == CeilDiv(left, slots) * timeout
    decreases left
  {
    if left <= slots {
      OneWaveFits(left, slots);
    } else {
      LastWaveExact(left - slots, slots, timeout);
      OneWaveLess(left, slots);
      assert (CeilDiv(left - slots, slots) + 1) * timeout == CeilDiv(left - slots, slots) * timeout + timeout;
    }
  }

  lemma OneWaveLess(left: nat, slots: nat)
    requires 0 < slots < left
    ensures CeilDiv(left, slots) == CeilDiv(left - slots, slots) + 1
  {
    var a, b := CeilDiv(left, slots), CeilDiv(left - slots, slots);
    if a < b + 1 {
      MulMonotone(a, b, slots);
    } else if a > b + 1 {
      MulMonotone(b + 1, a - 1, slots);
    }
  }

  /** The last message's Send has just begun, at time `now`. */
  ghost predicate LastBegun(wk: Worker, now: int) {
    && wk.next == |wk.batch|
    && |wk.batch| - 1 in wk.live
    && forall i :: i in wk.live ==> i < |wk.batch| && wk.live[i] == now
  }

  /** Runs every wave to its full timeout and starts the last one. */
  lemma {:induction false} RunWaves(reach: StateSet, c: Config, s: System, r: WorkerId) returns (s': System)
    requires r in s.workers && !s.workers[r].stopped
    requires Closed(reach, c) && reach(s) && Positive(c) && r in s.workers && AllDrainedBut(s, r)
    requires s.workers[r].config == c && s.workers[r].live == map[] && s.workers[r].next < |s.workers[r].batch|
    ensures reach(s') && s'.rows == s.rows
    ensures s'.now == s.now + LastWaveAfter(|s.workers[r].batch| - s.workers[r].next, c.concurrency, c.sendTimeout)
    ensures r in s'.workers && s'.workers == s.workers[r := s'.workers[r]]
    ensures var wk, wk' := s.workers[r], s'.workers[r];
            && wk'.config == c && wk'.batch == wk.batch && wk'.claimedAt == wk.claimedAt && !wk'.stopped
            && LastBegun(wk', s'.now)
    decreases |s.workers[r].batch| - s.workers[r].next
  {
    var wk := s.workers[r];
    var left := |wk.batch| - wk.next;
    if left <= c.concurrency {
      s' := StartMany(reach, c, s, r, left);
    } else {
      var mid := OneWave(reach, c, s, r);
      s' := RunWaves(reach, c, mid, r);
    }
  }

  // ---- One message held to the end ----

  /** The id claimed last in the batch. */
  function Target(c: Config): Id
    requires Positive(c)
  {
    c.batchSize - 1
  }

  /** When the last wave of a full batch starts, counted from the claim. */
  function LastStart(c: Config): nat
    requires Positive(c)
  {
    LastWaveAfter(c.batchSize, c.concurrency, c.sendTimeout)
  }

  lemma LastStartExact(c: Config)
    requires Positive(c)
    ensures LastStart(c) + c.sendTimeout == Hold(c)
  {
    LastWaveExact(c.batchSize, c.concurrency, c.sendTimeout);
  }

  /** Replica r has been sending the last message of a full batch for `d`. */
  ghost predicate AtTheEnd(wk: Worker, c: Config, now: int, d: int)
    requires Positive(c)
  {
    && wk.config == c && !wk.stopped && |wk.batch| == c.batchSize && wk.batch[Target(c)].id == Target(c)
    && now == wk.claimedAt + LastStart(c) + d
    && LastBegun(wk, now - d)
  }

  /** While one replica's last wave runs and the others are idle, the clock may move within the timeout. */
  lemma WaitAtTheEnd(reach: StateSet, c: Config, s: System, r: WorkerId, d: nat) returns (s': System)
    requires r in s.workers && !s.workers[r].stopped
    requires Closed(reach, c) && reach(s) && Positive(c) && r in s.workers && AllDrainedBut(s, r)
    requires AtTheEnd(s.workers[r], c, s.now, 0) && d <= c.sendTimeout
    ensures reach(s') && s' == s.(now := s.now + d) && AtTheEnd(s'.workers[r], c, s'.now, d)
  {
    var time := s.now + d;
    Ticks(reach, c, s, time);
    s' := s.(now := time);
  }

  /** A full batch claimed just now is run to its last wave. */
  lemma RunFullBatch(reach: StateSet, c: Config, s: System, r: WorkerId) returns (s': System)
    requires r in s.workers && !s.workers[r].stopped
    requires Closed(reach, c) && reach(s) && Positive(c) && r in s.workers && AllDrainedBut(s, r)
    requires var wk := s.workers[r];
             && wk.config == c && wk.claimedAt == s.now && wk.next == 0 && wk.live == map[]
             && |wk.batch| == c.batchSize && wk.batch[Target(c)].id == Target(c)
    ensures reach(s') && s'.rows == s.rows && s'.now == s.now + LastStart(c)
    ensures r in s'.workers && s'.workers == s.workers[r := s'.workers[r]]
    ensures AtTheEnd(s'.workers[r], c, s'.now, 0)
    ensures s'.workers[r].batch == s.workers[r].batch && s'.workers[r].claimedAt == s.now
  {
    s' := RunWaves(reach, c, s, r);
  }

  /** Two idle replicas beside due rows, after as many rounds of claiming every row and losing the claims to a crash. */
  lemma {:induction false} PrepareRounds(reach: StateSet, c: Config, max: nat, rounds: nat) returns (s: System)
    requires Closed(reach, c) && Deployable(c) && max > 0 && rounds <= MAX_SMALLINT
    ensures reach(s) && Ready(s, c, rounds, max)
  {
    if rounds == 0 {
      s := Prepare(reach, c, max);
    } else {
      s := PrepareRounds(reach, c, max, rounds - 1);
      s := AbandonRound(reach, c, s, max, rounds - 1);
    }
  }

  lemma AbandonRound(reach: StateSet, c: Config, s: System, max: nat, rounds: nat) returns (s': System)
    requires Closed(reach, c) && reach(s) && Deployable(c) && Ready(s, c, rounds, max) && rounds < MAX_SMALLINT
    ensures reach(s') && Ready(s', c, rounds + 1, max)
  {
    s' := ClaimAll(reach, c, s, 0, rounds, max, false);
    s' := Crashes(reach, c, s', 0);
    s' := Deploys(reach, c, s', 0);
    var time := s.now + Lease(c);
    Ticks(reach, c, s', time);
    s' := s'.(now := time);
  }

  /** Replica 0 claims everything and holds the last message; replica 1 is idle. */
  lemma HoldLast(reach: StateSet, c: Config, s: System, max: nat, rounds: nat, d: nat) returns (s': System)
    requires Closed(reach, c) && reach(s) && Ready(s, c, rounds, max) && rounds <= 1 && d <= c.sendTimeout
    ensures reach(s') && s'.workers.Keys == {0, 1}
    ensures s'.workers[1] == s.workers[1]
    ensures AtTheEnd(s'.workers[0], c, s'.now, d) && s'.workers[0].claimedAt == s.now
    ensures var m := s'.workers[0].batch[Target(c)]; m.attempts == rounds + 1 && m.maxAttempts == max
    ensures AllClaimed(s'.rows, c.batchSize, rounds + 1, max, s.now + Lease(c))
  {
    s' := ClaimAll(reach, c, s, 0, rounds, max, false);
    s' := RunFullBatch(reach, c, s', 0);
    s' := WaitAtTheEnd(reach, c, s', 0, d);
  }

  /** The second replica has just claimed everything while the first still holds the last message. */
  ghost predicate DoublyHeld(s: System, c: Config, max: nat, rounds: nat, d: nat, reversed: bool)
    requires Positive(c)
  {
    && s.workers.Keys == {0, 1}
    && AtTheEnd(s.workers[0], c, s.now, d)
    && s.workers[0].batch[Target(c)].attempts == rounds + 1 && s.workers[0].batch[Target(c)].maxAttempts == max
    && AllClaimed(s.rows, c.batchSize, rounds + 2, max, s.now + Lease(c))
    && s.workers[1] == Worker(c, s.now, FullBatch(s.rows, c.batchSize, reversed), 0, map[], false)
  }

  lemma DoubleClaim(reach: StateSet, c: Config, max: nat, rounds: nat, d: nat, reversed: bool) returns (s: System)
    requires Closed(reach, c) && Deployable(c) && max > 0 && rounds <= 1 && d <= c.sendTimeout && Lease(c) <= LastStart(c) + d
    ensures reach(s) && DoublyHeld(s, c, max, rounds, d, reversed)
  {
    s := PrepareRounds(reach, c, max, rounds);
    s := HoldLast(reach, c, s, max, rounds, d);
    s := ClaimAll(reach, c, s, 1, rounds + 1, max, reversed);
  }

  // ---- What goes wrong with a shorter lease ----

  lemma TwoHolders(reach: StateSet, c: Config) returns (s: System)
    requires Closed(reach, c) && Deployable(c) && Lease(c) <= Hold(c)
    ensures reach(s) && |Holders(s, Target(c))| > 1
  {
    LastStartExact(c);
    s := DoubleClaim(reach, c, 5, 0, c.sendTimeout, false);
    TwoOutstanding(s, c);
  }

  lemma TwoOutstanding(s: System, c: Config)
    requires Positive(c) && DoublyHeld(s, c, 5, 0, c.sendTimeout, false)
    ensures |Holders(s, Target(c))| > 1
  {
    assert Outstanding(s.workers[0], Target(c)) && Outstanding(s.workers[1], Target(c));
    assert {0, 1} <= Holders(s, Target(c));
    SubsetSize({0, 1}, Holders(s, Target(c)));
  }

  /** A plain failure of a message whose row has attempts left leaves the row pending. */
  lemma LateRetry(s: System, w: WorkerId, i: nat)
    requires w in s.workers && !s.workers[w].stopped && i in s.workers[w].live && i < |s.workers[w].batch|
    requires var id := s.workers[w].batch[i].id; id in s.rows && s.rows[id].attempts < s.rows[id].maxAttempts
    ensures var s' := Next(s, Finish(w, i, Refused(Plain("")), false, true));
            var id := s.workers[w].batch[i].id;
            id in s'.rows && !IsFailed(s', id)
  {
  }

  /** The second replica fails the row, and the first one's late Retry brings it back. */
  lemma Unfailing(reach: StateSet, c: Config) returns (s: System, e: Event)
    requires Closed(reach, c) && Deployable(c) && Lease(c) <= Hold(c)
    ensures reach(s) && IsFailed(s, Target(c))
    ensures Target(c) in Next(s, e).rows && !IsFailed(Next(s, e), Target(c))
  {
    LastStartExact(c);
    s := DoubleClaim(reach, c, 5, 0, c.sendTimeout, true);
    s := FailSecond(reach, c, s);
    e := Finish(0, Target(c), Refused(Plain("")), false, true);
    LateRetry(s, 0, Target(c));
  }

  lemma FailSecond(reach: StateSet, c: Config, s: System) returns (s': System)
    requires Closed(reach, c) && reach(s) && Positive(c) && DoublyHeld(s, c, 5, 0, c.sendTimeout, true)
    ensures reach(s') && IsFailed(s', Target(c))
    ensures s'.rows[Target(c)].attempts == 2 && s'.rows[Target(c)].maxAttempts == 5
    ensures s'.workers.Keys == {0, 1} && s'.workers[0] == s.workers[0]
  {
    assert s.workers[1].batch[0].id == Target(c);
    s' := Sends(reach, c, s, 1);
    s' := Finishes(reach, c, s', 1, 0, Refused(TerminalError(Plain(""))), true);
  }

  /** The first replica means to retry, but the second one's claim has used up the row's attempts. */
  lemma Disagreeing(reach: StateSet, c: Config) returns (s: System, e: Event)
    requires Closed(reach, c) && Deployable(c) && Lease(c) <= Hold(c)
    ensures reach(s) && e.Finish? && e.written && Enabled(s, e)
    ensures var m := s.workers[e.w].batch[e.i];
            && VerdictOn(s.workers[e.w].config, m, e.outcome, e.cancelled).Retry?
            && !GaveUp(m) && IsFailed(Next(s, e), m.id)
  {
    LastStartExact(c);
    s := DoubleClaim(reach, c, 2, 0, c.sendTimeout, false);
    e := Finish(0, Target(c), Refused(Plain("")), false, true);
  }

  /** Both replicas are sending the last message: one since `d` ago, the other as of now. */
  ghost predicate BothBegun(s: System, c: Config, d: nat, k: nat)
    requires Positive(c)
  {
    && s.workers.Keys == {0, 1} && AtTheEnd(s.workers[0], c, s.now, d)
    && var wk := s.workers[1];
       && wk.config == c && |wk.batch| == c.batchSize && wk.batch[0].id == Target(c)
       && wk.next == k && |wk.live| == k && 0 in wk.live
       && forall i :: i in wk.live ==> wk.live[i] == s.now
  }

  lemma EarlyStart(reach: StateSet, c: Config, d: nat, k: nat) returns (s: System)
    requires Closed(reach, c) && Deployable(c) && d <= c.sendTimeout && Lease(c) <= LastStart(c) + d
    requires k == Min(c.concurrency, c.batchSize)
    ensures reach(s) && BothBegun(s, c, d, k)
  {
    s := DoubleClaim(reach, c, 5, 0, d, true);
    assert s.workers[1].batch[0].id == Target(c);
    s := StartMany(reach, c, s, 1, k);
  }

  /** A lease shorter than the hold lets a second Send start while the first is running. */
  lemma EarlyClaim(reach: StateSet, c: Config) returns (s: System)
    requires Closed(reach, c) && Deployable(c) && Lease(c) < Hold(c)
    ensures reach(s) && Overlap(s, Target(c))
  {
    LastStartExact(c);
    var d: nat := if Lease(c) <= LastStart(c) then 0 else Lease(c) - LastStart(c);
    var k := Min(c.concurrency, c.batchSize);
    s := EarlyStart(reach, c, d, k);
    OneMoreTick(s, c, d, k);
    var time := s.now + 1;
    Ticks(reach, c, s, time);
    s := s.(now := time);
    BothSending(s, 0, Target(c), 1, 0, Target(c));
  }

  /** The clock may still move while the first replica's last wave and the second one's first wave run. */
  lemma OneMoreTick(s: System, c: Config, d: nat, k: nat)
    requires Positive(c) && BothBegun(s, c, d, k) && d < c.sendTimeout && k == Min(c.concurrency, c.batchSize)
    ensures Punctual(s, Tick(s.now + 1))
  {
  }

  lemma BothSending(s: System, w: WorkerId, i: nat, v: WorkerId, j: nat, id: Id)
    requires IsSending(s, w, i, id) && IsSending(s, v, j, id) && w != v
    requires s.workers[w].live[i] < s.now && s.workers[v].live[j] < s.now
    ensures Overlap(s, id)
  {
  }
}
