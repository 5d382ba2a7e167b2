/** The drain: what the polling loop does with a backlog, up to its first pause (outbox/worker.go). */
module OutboxDrain {
  import opened Durations
  import opened Products
  import opened Sets
  import opened Wrappers
  import opened OutboxConfig
  import opened OutboxTable
  import opened OutboxSystem
  import opened OutboxDelivery
  import opened OutboxWorker

  /** The world during a drain: claim times, answers, cleanups, and the table when it starts. */
  datatype Drain = Drain(
    config: Config, before: Table, start: int, horizon: int,
    clock: nat -> int, replies: Id -> Reply, cleanup: nat -> Option<int>)
  {
    function Due(): set<Id> {
      Claimable(before, start, {})
    }

    function RoundAt(pass: nat): Round {
      Round(clock(pass), {}, replies, false, false, cleanup(pass), false)
    }

    /** Once it has been claimed and answered the row is not due again by the horizon. */
    predicate StaysAway(id: Id)
      requires id in before
    {
      var row, reply := before[id], replies(id);
      var m := Message(id, row.job, row.attempts + 1, row.maxAttempts);
      match if reply.written then VerdictOn(config, m, reply.outcome, reply.cancelled) else Leave
      case Complete => true
      case Fail => true
      case Leave => start + Lease(config) > horizon
      case Defer(delay) => reply.at + Stored(delay) > horizon
      case Retry(delay) => GaveUp(m) || reply.at + Stored(delay) > horizon
    }

    /**
     All claims fall between start and horizon, and by the horizon only the rows due at the start come due;
     those can be claimed once more, and stay away once answered.
     */
    ghost predicate Quiet() {
      && Positive(config)
      && (forall p :: start <= clock(p) <= horizon)
      && (forall p :: cleanup(p).Some? ==> cleanup(p).value <= horizon)
      && (forall id :: id in before && Pending(before[id]) ==>
            || before[id].nextAttemptAt > horizon
            || (before[id].nextAttemptAt <= start && before[id].attempts < MAX_SMALLINT))
      && forall id :: id in Due() ==> StaysAway(id)
    }

    /** Old enough for a cleanup before the horizon. */
    predicate Purgeable(id: Id) {
      id in before && Expired(before[id], horizon, Stored(config.failedRetention))
    }

    /** The handled rows are not due until the horizon, those sent are gone, and the others are as before or purged. */
    ghost predicate Handled(after: Table, done: set<Id>) {
      && after.Keys <= before.Keys
      && (forall id :: id in before && id !in done && !Purgeable(id) ==> id in after)
      && (forall id :: id in after && id !in done ==> after[id] == before[id])
      && (forall id :: id in after && id in done ==> !OutboxTable.Due(after[id], horizon))
      && (forall id :: id in done && replies(id).outcome.Delivered? && replies(id).written ==> id !in after)
    }
  }

  /** A message sent and deleted stays away for ever, and every message for the shortest pause and the lease. */
  lemma WhenRowsStayAway(d: Drain, id: Id)
    requires Positive(d.config) && InRange(d.config) && id in d.before
    ensures d.replies(id).outcome.Delivered? && d.replies(id).written ==> d.StaysAway(id)
    ensures d.start <= d.replies(id).at && d.horizon - d.start < Min(Lease(d.config), ShortestDelay(d.config)) ==> d.StaysAway(id)
  {
    ShortestDelayExact(d.config, d.before[id].attempts + 1);
  }

  /** A cleanup takes nothing but rows that had failed long before. */
  lemma CleanupHandles(d: Drain, mid: Table, done: set<Id>, cleanup: Option<int>)
    requires d.Handled(mid, done) && (cleanup.Some? ==> cleanup.value <= d.horizon)
    ensures d.Handled(Cleaned(mid, d.config, cleanup), done)
  {
  }

  lemma StillDue(d: Drain, mid: Table, done: set<Id>, now: int)
    requires d.Quiet() && d.Handled(mid, done) && d.start <= now <= d.horizon
    ensures Claimable(mid, now, {}) == d.Due() - done
    ensures RoomFor(mid, Claimable(mid, now, {}))
  {
  }

  /** One handled message: its row is gone, failed, or due only after the horizon. */
  lemma HandledRow(d: Drain, rows: Table, m: Message)
    requires d.Quiet() && m.id in d.Due() && m.id in rows && m == MessageOf(rows, m.id)
    requires rows[m.id] == d.before[m.id].(attempts := d.before[m.id].attempts + 1, nextAttemptAt := rows[m.id].nextAttemptAt)
    requires rows[m.id].nextAttemptAt >= d.start + Lease(d.config)
    ensures var reply := d.replies(m.id);
            var after := Resolved(rows, d.config, m, reply);
            && (m.id in after ==> !Due(after[m.id], d.horizon))
            && (reply.outcome.Delivered? && reply.written ==> m.id !in after)
            && after.Keys <= rows.Keys
  {
    assert d.StaysAway(m.id);
  }

  lemma PassHandlesRow(d: Drain, mid: Table, done: set<Id>, now: int, messages: seq<Message>, id: Id)
    requires d.Quiet() && d.Handled(mid, done) && d.start <= now && IdsOf(messages) <= d.Due() - done
    requires var picked := IdsOf(messages);
             picked <= mid.Keys && Returns(Claimed(mid, picked, now, Lease(d.config)), picked, messages)
    ensures var picked := IdsOf(messages);
            var after := ResolvedAll(Claimed(mid, picked, now, Lease(d.config)), d.config, messages, d.replies);
            && (id in after ==> id in d.before)
            && (id in d.before && id !in done + picked && !d.Purgeable(id) ==> id in after)
            && (id in after && id !in done + picked ==> after[id] == d.before[id])
            && (id in after && id in done + picked ==> !Due(after[id], d.horizon))
            && (id in done + picked && d.replies(id).outcome.Delivered? && d.replies(id).written ==> id !in after)
  {
    var picked := IdsOf(messages);
    var claimed := Claimed(mid, picked, now, Lease(d.config));
    ResolvedAllAt(claimed, d.config, messages, d.replies, id);
    if id in picked {
      var i :| 0 <= i < |messages| && messages[i].id == id;
      HandledRow(d, claimed, messages[i]);
    }
  }

  /** One pass of a drain handles the rows it claims... */
  lemma PassHandles(d: Drain, mid: Table, done: set<Id>, now: int, messages: seq<Message>)
    requires d.Quiet() && d.Handled(mid, done) && d.start <= now && IdsOf(messages) <= d.Due() - done
    requires var picked := IdsOf(messages);
             picked <= mid.Keys && Returns(Claimed(mid, picked, now, Lease(d.config)), picked, messages)
    ensures var picked := IdsOf(messages);
            var after := ResolvedAll(Claimed(mid, picked, now, Lease(d.config)), d.config, messages, d.replies);
            d.Handled(after, done + picked)
  {
    forall id: Id {
      PassHandlesRow(d, mid, done, now, messages, id);
    }
  }

  /** ... and they are due rows not handled before, all of the rest when it is short. */
  lemma PassAdvances(d: Drain, mid: Table, done: set<Id>, now: int, picked: set<Id>)
    requires d.Quiet() && d.Handled(mid, done) && d.start <= now <= d.horizon && done <= d.Due()
    requires Oldest(mid, Claimable(mid, now, {}), d.config.batchSize, picked)
    ensures RoomFor(mid, picked) && picked <= mid.Keys
    ensures picked <= d.Due() - done
    ensures done + picked <= d.Due() && |done + picked| == |done| + |picked| <= |d.Due()|
    ensures |picked| <= d.config.batchSize && (|picked| < d.config.batchSize ==> done + picked == d.Due())
  {
    StillDue(d, mid, done, now);
    BatchFits(d.Due(), done, picked);
  }

  lemma BatchFits(due: set<Id>, done: set<Id>, picked: set<Id>)
    requires done <= due && picked <= due - done
    ensures done + picked <= due && |done + picked| == |done| + |picked| <= |due|
    ensures picked == due - done ==> done + picked == due
  {
    assert due == done + picked + (due - done - picked);
  }

  // ---- A run that starts with a drain ----

  function Union(batches: seq<set<Id>>): set<Id> {
    if batches == [] then {} else Union(batches[..|batches| - 1]) + batches[|batches| - 1]
  }

  /** No row is in two batches. */
  predicate Apart(batches: seq<set<Id>>) {
    batches == [] ||
    (Apart(batches[..|batches| - 1]) && Union(batches[..|batches| - 1]) !! batches[|batches| - 1])
  }

  predicate AllFull(batches: seq<set<Id>>, size: int) {
    forall i :: 0 <= i < |batches| ==> |batches[i]| == size
  }

  lemma OneMoreBatch(batches: seq<set<Id>>, batch: set<Id>)
    ensures (batches + [batch])[..|batches|] == batches && Union(batches + [batch]) == Union(batches) + batch
    ensures Apart(batches) && batch !! Union(batches) ==> Apart(batches + [batch])
  {
    assert (batches + [batch])[..|batches|] == batches;
  }

  lemma FullOneMore(batches: seq<set<Id>>, batch: set<Id>, size: nat)
    requires AllFull(batches, size) && |batch| == size
    ensures AllFull(batches + [batch], size)
  {
  }

  lemma {:induction false} FullSize(batches: seq<set<Id>>, size: nat)
    requires AllFull(batches, size) && Apart(batches)
    ensures |Union(batches)| == Times(|batches|, size)
  {
    if batches != [] {
      var init := batches[..|batches| - 1];
      FullSize(init, size);
      assert |Union(init) + batches[|batches| - 1]| == |Union(init)| + size;
    }
  }

  /** Full batches and a short one, all apart. */
  lemma PassCount(batches: seq<set<Id>>, last: set<Id>, size: nat)
    requires AllFull(batches, size) && Apart(batches) && last !! Union(batches) && |last| < size
    ensures |batches| == |Union(batches) + last| / size
  {
    FullSize(batches, size);
    BothSizes(Union(batches), last);
    FullPasses(|batches|, size, |last|, |Union(batches)|);
  }

  lemma BothSizes(a: set<Id>, b: set<Id>)
    requires a !! b
    ensures |a + b| == |a| + |b|
  {
  }

  lemma PassEnds(d: Drain, pass: nat, mid: Table, after: Table, done: set<Id>, picked: set<Id>, messages: seq<Message>, step: Step)
    requires d.Quiet() && d.Handled(mid, done) && picked <= d.Due() - done && picked <= mid.Keys && RoomFor(mid, picked)
    requires Passes(d.config, d.RoundAt(pass), mid, after, picked, messages, step)
    ensures d.Handled(after, done + picked)
    ensures step == if |picked| >= d.config.batchSize then Again else AfterPause
  {
    var now := d.clock(pass);
    PassHandles(d, mid, done, now, messages);
    CleanupHandles(d, ResolvedAll(Claimed(mid, picked, now, Lease(d.config)), d.config, messages, d.replies),
                   done + picked, d.cleanup(pass));
  }

  lemma NoneDue(d: Drain, after: Table)
    requires d.Quiet() && d.Handled(after, d.Due())
    ensures Claimable(after, d.horizon, {}) == {}
  {
    assert d.start <= d.clock(0) <= d.horizon;
    StillDue(d, after, d.Due(), d.horizon);
  }

  lemma FullPasses(passes: nat, size: nat, last: nat, handled: nat)
    requires handled == Times(passes, size) && last < size
    ensures (handled + last) / size == passes
  {
    TimesIs(passes, size);
    var q := (handled + last) / size;
    if q < passes {
      MulMonotone(q + 1, passes, size);
    } else if q > passes {
      MulMonotone(passes + 1, q, size);
    }
  }

  /** One pass, after the rows in `done` have been handled: a full one, or the last. */
  lemma DrainPass(d: Drain, pass: nat, mid: Table, after: Table, done: set<Id>, step: Step) returns (picked: set<Id>)
    requires d.Quiet() && done <= d.Due() && d.Handled(mid, done)
    requires PassesOn(d.config, d.RoundAt(pass), mid, after, step)
    ensures picked !! done && done + picked <= d.Due() && d.Handled(after, done + picked)
    ensures step == Again ==> |picked| == d.config.batchSize && |done + picked| <= |d.Due()|
    ensures step != Again ==> step == AfterPause && |picked| < d.config.batchSize && done + picked == d.Due()
  {
    var messages;
    picked, messages :|
      && Oldest(mid, Claimable(mid, d.RoundAt(pass).now, d.RoundAt(pass).locked), d.config.batchSize, picked)
      && Passes(d.config, d.RoundAt(pass), mid, after, picked, messages, step);
    PassAdvances(d, mid, done, d.clock(pass), picked);
    PassEnds(d, pass, mid, after, done, picked, messages, step);
  }

  lemma BatchCount(n: nat, size: nat, total: nat)
    requires Times(n, size) <= total && size > 0
    ensures n <= total / size
  {
    TimesIs(n, size);
    if n > total / size {
      MulMonotone(total / size + 1, n, size);
    }
  }

  lemma FullBatchesFit(batches: seq<set<Id>>, due: set<Id>, size: nat)
    requires AllFull(batches, size) && Apart(batches) && Union(batches) <= due && size > 0
    ensures |batches| <= |due| / size
  {
    FullSize(batches, size);
    SubsetSize(Union(batches), due);
    BatchCount(|batches|, size, |due|);
  }

  /** So far only full passes. */
  ghost predicate Going(d: Drain, after: Table, batches: seq<set<Id>>) {
    && AllFull(batches, d.config.batchSize) && Apart(batches)
    && Union(batches) <= d.Due() && d.Handled(after, Union(batches))
  }

  /** The short pass has been made. */
  ghost predicate Over(d: Drain, after: Table, batches: seq<set<Id>>, n: nat) {
    && |batches| == n + 1 && AllFull(batches[..n], d.config.batchSize) && Apart(batches) && Union(batches) == d.Due()
    && d.Handled(after, d.Due()) && Claimable(after, d.horizon, {}) == {}
  }

  lemma NextFull(d: Drain, after: Table, batches: seq<set<Id>>, picked: set<Id>)
    requires d.Quiet() && Apart(batches) && AllFull(batches, d.config.batchSize) && |picked| == d.config.batchSize
    requires picked !! Union(batches) && Union(batches) + picked <= d.Due() && d.Handled(after, Union(batches) + picked)
    ensures Going(d, after, batches + [picked]) && |batches| < |d.Due()| / d.config.batchSize
  {
    OneMoreBatch(batches, picked);
    FullOneMore(batches, picked, d.config.batchSize);
    FullBatchesFit(batches + [picked], d.Due(), d.config.batchSize);
  }

  lemma LastPass(d: Drain, after: Table, batches: seq<set<Id>>, picked: set<Id>)
    requires d.Quiet() && Apart(batches) && AllFull(batches, d.config.batchSize) && |picked| < d.config.batchSize
    requires picked !! Union(batches) && Union(batches) + picked == d.Due() && d.Handled(after, d.Due())
    ensures |batches| == |d.Due()| / d.config.batchSize && Over(d, after, batches + [picked], |batches|)
  {
    OneMoreBatch(batches, picked);
    PassCount(batches, picked, d.config.batchSize);
    NoneDue(d, after);
  }

  lemma DrainStep(d: Drain, mid: Table, after: Table, batches: seq<set<Id>>, step: Step) returns (batches': seq<set<Id>>)
    requires d.Quiet() && Going(d, mid, batches) && PassesOn(d.config, d.RoundAt(|batches|), mid, after, step)
    ensures |batches'| == |batches| + 1
    ensures step == Again ==> Going(d, after, batches') && |batches| < |d.Due()| / d.config.batchSize
    ensures step != Again ==>
              step == AfterPause && |batches| == |d.Due()| / d.config.batchSize && Over(d, after, batches', |batches|)
  {
    var picked := DrainPass(d, |batches|, mid, after, Union(batches), step);
    batches' := batches + [picked];
    if step == Again {
      NextFull(d, after, batches, picked);
    } else {
      LastPass(d, after, batches, picked);
    }
  }

  /** The i-th pass of a run. */
  lemma PassAt(c: Config, rounds: seq<Round>, steps: seq<Step>, tables: seq<Table>, i: nat)
    requires Runs(c, rounds, steps, tables) && i < |steps|
    ensures PassesOn(c, rounds[i], tables[i], tables[i + 1], steps[i])
  {
  }

  /** The first i passes of a run are full ones, as long as that many full batches are due. */
  lemma {:induction false} DrainTo(d: Drain, rounds: seq<Round>, steps: seq<Step>, tables: seq<Table>, i: nat) returns (batches: seq<set<Id>>)
    requires d.Quiet() && Runs(d.config, rounds, steps, tables) && tables[0] == d.before
    requires i <= |steps| && i <= |d.Due()| / d.config.batchSize && forall j :: 0 <= j < i ==> rounds[j] == d.RoundAt(j)
    ensures |batches| == i && Going(d, tables[i], batches)
    ensures forall j :: 0 <= j < i ==> steps[j] == Again
  {
    if i == 0 {
      batches := [];
    } else {
      var before := DrainTo(d, rounds, steps, tables, i - 1);
      PassAt(d.config, rounds, steps, tables, i - 1);
      batches := DrainStep(d, tables[i - 1], tables[i], before, steps[i - 1]);
      assert steps[i - 1] == Again;
      forall j | 0 <= j < i ensures steps[j] == Again {
        assert j < i - 1 || j == i - 1;
      }
    }
  }

  /**
   A run of the loop that starts with a drain of k due rows, cleanups included, makes exactly floor(k / batch) full
   passes without a pause and then a short one, takes each due row in exactly one of them and leaves none due at
   its pause, whatever the Sends answer as long as the answered rows stay away.
   */
  lemma RunDrains(d: Drain, rounds: seq<Round>, steps: seq<Step>, tables: seq<Table>) returns (batches: seq<set<Id>>)
    requires d.Quiet() && Runs(d.config, rounds, steps, tables) && tables[0] == d.before
    requires var n := |d.Due()| / d.config.batchSize; n < |rounds| && forall j :: 0 <= j <= n ==> rounds[j] == d.RoundAt(j)
    ensures var n := |d.Due()| / d.config.batchSize;
            && |steps| > n && (forall j :: 0 <= j < n ==> steps[j] == Again) && steps[n] == AfterPause
            && Over(d, tables[n + 1], batches, n)
  {
    var n := |d.Due()| / d.config.batchSize;
    RunLasts(d, rounds, steps, tables, n);
    var before := DrainTo(d, rounds, steps, tables, n);
    PassAt(d.config, rounds, steps, tables, n);
    batches := DrainStep(d, tables[n], tables[n + 1], before, steps[n]);
  }

  /** Nothing stops a run within its full passes. */
  lemma RunLasts(d: Drain, rounds: seq<Round>, steps: seq<Step>, tables: seq<Table>, n: nat)
    requires d.Quiet() && Runs(d.config, rounds, steps, tables) && tables[0] == d.before
    requires n == |d.Due()| / d.config.batchSize && n < |rounds| && forall j :: 0 <= j <= n ==> rounds[j] == d.RoundAt(j)
    ensures |steps| > n
  {
    if |steps| <= n {
      var _ := DrainTo(d, rounds, steps, tables, |steps|);
      assert false;
    }
  }

  /** The worker's loop over such a drain, up to its first pause. */
  method RunUntilPause(worker: OutboxWorker.Worker, d: Drain) returns (passes: nat, ghost batches: seq<set<Id>>)
    requires d.Quiet() && d.config == worker.config && d.before == worker.queue.rows
    modifies worker.queue
    ensures passes == |d.Due()| / d.config.batchSize + 1 && Over(d, worker.queue.rows, batches, passes - 1)
  {
    var n := |d.Due()| / d.config.batchSize;
    var steps;
    ghost var tables;
    steps, tables := worker.Run(seq(n + 1, i requires 0 <= i => d.RoundAt(i)));
    batches := RunDrains(d, seq(n + 1, i requires 0 <= i => d.RoundAt(i)), steps, tables);
    passes := |steps|;
  }

  /**
   When every Send succeeds and every deletion is written, the drain deletes the due rows, and otherwise at most
   rows the cleanup may take; where there are none of those, exactly the due rows.
   */
  lemma DrainCompletes(d: Drain, after: Table)
    requires d.Handled(after, d.Due())
    requires forall id :: id in d.Due() ==> d.replies(id).outcome.Delivered? && d.replies(id).written
    ensures after.Keys <= d.before.Keys - d.Due()
    ensures forall id :: id in d.before && id !in d.Due() && !d.Purgeable(id) ==> id in after
    ensures forall id :: id in after ==> after[id] == d.before[id]
    ensures (forall id :: id in d.before ==> !d.Purgeable(id)) ==> after == d.before - d.Due()
  {
  }
}
