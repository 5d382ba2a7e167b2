/** The worker's own code: deliver, processBatch and the polling loop (outbox/worker.go). */
module OutboxWorker {
  import opened Durations
  import opened Sets
  import opened Wrappers
  import opened OutboxConfig
  import opened OutboxErrors
  import opened OutboxTable
  import opened OutboxSystem
  import opened OutboxDelivery

  /** The table after a cleanup at the given time, if one went through. */
  function Cleaned(rows: Table, c: Config, cleanup: Option<int>): Table {
    if cleanup.Some? then Purged(rows, cleanup.value, Stored(c.failedRetention)) else rows
  }

  /** `NewWorker`: the defaults are filled in, and a lease too short for a batch is refused. */
  method NewWorker(config: Config, queue: Repository) returns (r: Result<Worker, Config>)
    ensures r.Ok? <==> Accepts(WithDefaults(config))
    ensures r.Ok? ==>
              && fresh(r.value) && r.value.queue == queue && Positive(r.value.config)
              && (Positive(config) ==> r.value.config == config)
              && r.value.config == WithDefaults(config)
    ensures r.Err? ==> r.error == WithDefaults(config)
  {
    var filled := WithDefaults(config);
    WithDefaultsPositive(config);
    if !Accepts(filled) {
      return Err(filled);
    }
    var worker := new Worker(filled, queue);
    return Ok(worker);
  }

  /** What the world answers during one pass of the loop. */
  datatype Round = Round(
    now: int,               // the claim's time
    locked: set<Id>,        // rows that other transactions have locked
    replies: Id -> Reply,
    claimFails: bool,       // the database refuses the claim
    cancelled: bool,        // the context has been cancelled by then
    cleanup: Option<int>,   // when a cleanup went through, if its ticker has fired
    stop: bool)             // the context is cancelled before the pause is over

  datatype Step = Again | AfterPause | Stop

  /** One pass: its claim and what became of it. */
  ghost predicate Passes(c: Config, round: Round, before: Table, after: Table, picked: set<Id>, messages: seq<Message>, step: Step) {
    if round.claimFails || !(picked <= before.Keys && RoomFor(before, picked)) then
      && after == (if round.cancelled then before else Cleaned(before, c, round.cleanup))
      && step == (if round.cancelled || round.stop then Stop else AfterPause)
    else
      var claimed := Claimed(before, picked, round.now, Lease(c));
      && picked == IdsOf(messages) && Returns(claimed, picked, messages)
      && after == Cleaned(ResolvedAll(claimed, c, messages, round.replies), c, round.cleanup)
      && step == (if |picked| >= c.batchSize then Again else if round.stop then Stop else AfterPause)
  }

  /** ... with rows picked as a claim picks them. */
  ghost predicate PassesOn(c: Config, round: Round, before: Table, after: Table, step: Step) {
    exists picked, messages ::
      && Oldest(before, Claimable(before, round.now, round.locked), c.batchSize, picked)
      && Passes(c, round, before, after, picked, messages, step)
  }

  /** A pass that did not fail and is not followed at once by another left no due unlocked row behind its claim. */
  lemma PauseMeansDrained(c: Config, round: Round, before: Table, after: Table, step: Step)
    requires PassesOn(c, round, before, after, step) && step != Again && !round.claimFails
    requires forall id :: id in Claimable(before, round.now, round.locked) ==> before[id].attempts < MAX_SMALLINT
    ensures exists messages ::
              var all := Claimable(before, round.now, round.locked);
              && Returns(Claimed(before, all, round.now, Lease(c)), all, messages)
              && after == Cleaned(ResolvedAll(Claimed(before, all, round.now, Lease(c)), c, messages, round.replies), c, round.cleanup)
  {
    var picked, messages :|
      && Oldest(before, Claimable(before, round.now, round.locked), c.batchSize, picked)
      && Passes(c, round, before, after, picked, messages, step);
    assert RoomFor(before, picked);
    assert picked == Claimable(before, round.now, round.locked);
  }

  /** Past the claim everything is decided by what it took and by the context: which pass ends the loop, pauses or goes on. */
  lemma PassEndsBy(c: Config, round: Round, before: Table, after: Table, step: Step)
    requires PassesOn(c, round, before, after, step)
    ensures round.claimFails && round.cancelled ==> step == Stop && after == before
    ensures round.claimFails && !round.cancelled ==>
              && step == (if round.stop then Stop else AfterPause)
              && (round.cleanup == None ==> after == before)
              && (round.cleanup.Some? ==>
                    && (forall id :: id in after ==> id in before && after[id] == before[id])
                    && forall id :: id in before ==>
                         (id !in after <==> before[id].failedAt.Some?
                                            && before[id].failedAt.value < round.cleanup.value - Stored(c.failedRetention)))
    ensures step == Again ==> |Claimable(before, round.now, round.locked)| >= c.batchSize && !round.claimFails
    ensures !round.claimFails && |Claimable(before, round.now, round.locked)| >= c.batchSize
            && (forall id :: id in Claimable(before, round.now, round.locked) ==> before[id].attempts < MAX_SMALLINT) ==>
              step == Again
    ensures step == Stop ==> round.stop || round.cancelled
  {
    var picked, messages :|
      && Oldest(before, Claimable(before, round.now, round.locked), c.batchSize, picked)
      && Passes(c, round, before, after, picked, messages, step);
    SubsetSize(picked, Claimable(before, round.now, round.locked));
  }

  /** Pass after pass, up to and including the first that stops. */
  ghost predicate Runs(c: Config, rounds: seq<Round>, steps: seq<Step>, tables: seq<Table>) {
    && |steps| <= |rounds| && |tables| == |steps| + 1
    && (forall i :: 0 <= i < |steps| ==> PassesOn(c, rounds[i], tables[i], tables[i + 1], steps[i]))
    && (forall i :: 0 <= i < |steps| - 1 ==> steps[i] != Stop)
    && (|steps| < |rounds| ==> steps != [] && steps[|steps| - 1] == Stop)
  }

  class Worker {
    const config: Config
    const queue: Repository

    constructor (config: Config, queue: Repository)
      ensures this.config == config && this.queue == queue
    {
      this.config := config;
      this.queue := queue;
    }

    /** Writes one verdict. A failed database call writes nothing. */
    method Deliver(m: Message, reply: Reply) returns (metric: Metric)
      modifies queue
      ensures queue.rows == Resolved(old(queue.rows), config, m, reply)
      ensures metric == MetricOf(config, m, reply)
    {
      if reply.outcome.Delivered? {
        if !reply.written {
          return Unreported;
        }
        queue.Complete(m.id);
        return Sent;
      }
      if reply.cancelled {
        return Unreported;
      }
      var err := reply.outcome.err;
      if IsTerminal(err) {
        if reply.written {
          queue.Fail(m.id, reply.at);
        }
        return Failure;
      }
      if IsConflict(err) {
        if reply.written {
          queue.Defer(m.id, config.conflictBackoff, reply.at);
        }
        return Deferral;
      }
      var backoff := BackoffFor(config, m.attempts);
      metric := if m.attempts >= m.maxAttempts then Failure else Retrial;
      if reply.written {
        queue.Retry(m.id, backoff, reply.at);
      }
    }

    /** The batch's deliveries; their rows are distinct, so any order of them leaves the same table. */
    method DeliverAll(batch: seq<Message>, replies: Id -> Reply)
      modifies queue
      ensures queue.rows == ResolvedAll(old(queue.rows), config, batch, replies)
    {
      for i := 0 to |batch|
        invariant queue.rows == ResolvedAll(old(queue.rows), config, batch[..i], replies)
      {
        assert batch[..i + 1][..i] == batch[..i];
        var _ := Deliver(batch[i], replies(batch[i].id));
      }
      assert batch[..|batch|] == batch;
    }

    /**
     Claims a batch and resolves every message of it. A count short of the batch size, after which the loop
     pauses, means that the claim left no due unlocked row behind.
     */
    method ProcessBatch(now: int, locked: set<Id>, replies: Id -> Reply)
      returns (r: Result<nat, RepositoryError>, ghost picked: set<Id>, ghost messages: seq<Message>)
      requires Positive(config)
      modifies queue
      ensures Oldest(old(queue.rows), Claimable(old(queue.rows), now, locked), config.batchSize, picked)
      ensures r.Ok? <==> RoomFor(old(queue.rows), picked)
      ensures r.Err? ==> queue.rows == old(queue.rows)
      ensures r.Ok? && r.value < config.batchSize ==> picked == Claimable(old(queue.rows), now, locked)
      ensures r.Ok? ==>
                var claimed := Claimed(old(queue.rows), picked, now, Lease(config));
                && r.value == |picked| && picked == IdsOf(messages)
                && Returns(claimed, picked, messages)
                && queue.rows == ResolvedAll(claimed, config, messages, replies)
    {
      messages := [];
      var claim;
      claim, picked := queue.Claim(config.batchSize, config.visibilityTimeout, now, locked);
      if claim.Err? {
        return Err(claim.error), picked, messages;
      }
      var batch := claim.value;
      IdsOfReturned(queue.rows, picked, batch);
      DeliverAll(batch, replies);
      return Ok(|batch|), picked, batch;
    }

    method Cleanup(now: int)
      modifies queue
      ensures queue.rows == Cleaned(old(queue.rows), config, Some(now))
    {
      var _ := queue.DeleteOldFailed(config.failedRetention, now);
    }

    /** The body of the polling loop. */
    method Pass(round: Round) returns (step: Step, ghost picked: set<Id>, ghost messages: seq<Message>)
      requires Positive(config)
      modifies queue
      ensures Oldest(old(queue.rows), Claimable(old(queue.rows), round.now, round.locked), config.batchSize, picked)
      ensures Passes(config, round, old(queue.rows), queue.rows, picked, messages, step)
    {
      var full, failed := false, round.claimFails;
      if round.claimFails {
        var ids := SelectOldest(queue.rows, Claimable(queue.rows, round.now, round.locked), config.batchSize);
        picked, messages := SetOf(ids), [];
      } else {
        var r;
        r, picked, messages := ProcessBatch(round.now, round.locked, round.replies);
        failed := r.Err?;
        full := r.Ok? && r.value >= config.batchSize;
      }
      if failed && round.cancelled {
        return Stop, picked, messages;
      }
      if round.cleanup.Some? {
        Cleanup(round.cleanup.value);
      }
      if full {
        return Again, picked, messages;
      }
      return if round.stop then Stop else AfterPause, picked, messages;
    }

    /** The polling loop over the answers of the world: it ends exactly with the first pass that stops it. */
    method Run(rounds: seq<Round>) returns (steps: seq<Step>, ghost tables: seq<Table>)
      requires Positive(config)
      modifies queue
      ensures |steps| <= |rounds| && |tables| == |steps| + 1
      ensures tables[0] == old(queue.rows) && tables[|steps|] == queue.rows
      ensures Runs(config, rounds, steps, tables)
    {
      steps, tables := [], [queue.rows];
      while |steps| < |rounds|
        invariant |steps| <= |rounds| && |tables| == |steps| + 1
        invariant tables[0] == old(queue.rows) && tables[|steps|] == queue.rows
        invariant forall i :: 0 <= i < |steps| ==> PassesOn(config, rounds[i], tables[i], tables[i + 1], steps[i])
        invariant forall i :: 0 <= i < |steps| ==> steps[i] != Stop
      {
        var step;
        ghost var picked, messages;
        step, picked, messages := Pass(rounds[|steps|]);
        assert PassesOn(config, rounds[|steps|], tables[|steps|], queue.rows, step);
        steps, tables := steps + [step], tables + [queue.rows];
        if step == Stop {
          break;
        }
      }
    }
  }
}
