/** What each step does to the rows, column by column. */
module OutboxSteps {
  import opened Durations
  import opened Wrappers
  import opened OutboxConfig
  import opened OutboxErrors
  import opened OutboxTable
  import opened OutboxSystem
  import opened OutboxDelivery
  import opened OutboxLoss

  /** A whole number of seconds. */
  function Cut(d: int): int {
    d - d % SECOND
  }

  lemma CutIsStored(d: int)
    requires d >= 0
    ensures Stored(d) == Cut(d)
  {
  }

  ghost predicate MarkedTerminal(err: Error) {
    exists e :: InChain(err, e) && e.TerminalError?
  }

  ghost predicate MarkedConflict(err: Error) {
    exists e :: InChain(err, e) && e.ConflictError?
  }

  /** Nothing has changed but possibly this row. */
  ghost predicate OnlyRow(rows: Table, rows': Table, id: Id) {
    && (forall other :: other != id ==> (other in rows' <==> other in rows))
    && (forall other :: other in rows && other != id ==> rows'[other] == rows[other])
  }

  // ---- Answers ----

  /** An answer that does not reach the database, or comes for a row that is gone, changes nothing. */
  lemma UnwrittenAnswer(rows: Table, c: Config, m: Message, reply: Reply)
    requires !reply.written || m.id !in rows
    ensures Resolved(rows, c, m, reply) == rows
  {
  }

  /** A message that was sent is deleted, whatever became of the context, and counted as sent only then. */
  lemma DeliveredAnswer(rows: Table, c: Config, m: Message, reply: Reply)
    requires reply.outcome.Delivered?
    ensures reply.written ==> m.id !in Resolved(rows, c, m, reply) && OnlyRow(rows, Resolved(rows, c, m, reply), m.id)
    ensures MetricOf(c, m, reply) == if reply.written then Sent else Unreported
  {
  }

  /** One that was refused under a cancelled context is left as it is, and nothing is reported. */
  lemma CancelledAnswer(rows: Table, c: Config, m: Message, reply: Reply)
    requires reply.outcome.Refused? && reply.cancelled
    ensures Resolved(rows, c, m, reply) == rows && MetricOf(c, m, reply) == Unreported
  {
  }

  /** Refused for good: failed now, unless it was already. */
  lemma TerminalAnswer(rows: Table, c: Config, m: Message, reply: Reply)
    requires reply.outcome.Refused? && !reply.cancelled && MarkedTerminal(reply.outcome.err)
    ensures MetricOf(c, m, reply) == Failure
    ensures reply.written && m.id in rows ==>
              var row, rows' := rows[m.id], Resolved(rows, c, m, reply);
              && OnlyRow(rows, rows', m.id) && m.id in rows'
              && rows'[m.id] == Row(row.job, row.attempts, row.maxAttempts, row.nextAttemptAt,
                                    if row.failedAt.Some? then row.failedAt else Some(reply.at))
  {
    MarksAreFound(reply.outcome.err);
  }

  /** In conflict: due again after the conflict pause, with one attempt given back; failed or not stays as it is. */
  lemma ConflictAnswer(rows: Table, c: Config, m: Message, reply: Reply)
    requires reply.outcome.Refused? && !reply.cancelled && c.conflictBackoff >= 0
    requires MarkedConflict(reply.outcome.err) && !MarkedTerminal(reply.outcome.err)
    ensures MetricOf(c, m, reply) == Deferral
    ensures reply.written && m.id in rows ==>
              var row, rows' := rows[m.id], Resolved(rows, c, m, reply);
              && OnlyRow(rows, rows', m.id) && m.id in rows'
              && rows'[m.id] == Row(row.job, if row.attempts > 0 then row.attempts - 1 else 0, row.maxAttempts,
                                    reply.at + Cut(c.conflictBackoff), row.failedAt)
  {
    MarksAreFound(reply.outcome.err);
    CutIsStored(c.conflictBackoff);
  }

  /** Any other refusal: due again after the pause for the attempts the message has seen, and failed exactly when the row has no attempt left. */
  lemma RetryAnswer(rows: Table, c: Config, m: Message, reply: Reply)
    requires reply.outcome.Refused? && !reply.cancelled && Positive(c) && InRange(c)
    requires !MarkedConflict(reply.outcome.err) && !MarkedTerminal(reply.outcome.err)
    ensures MetricOf(c, m, reply) == if m.attempts >= m.maxAttempts then Failure else Retrial
    ensures reply.written && m.id in rows ==>
              var row, rows' := rows[m.id], Resolved(rows, c, m, reply);
              && OnlyRow(rows, rows', m.id) && m.id in rows'
              && rows'[m.id] == Row(row.job, row.attempts, row.maxAttempts,
                                    reply.at + Cut(Pause(c.baseBackoff, c.maxBackoff, m.attempts)),
                                    if row.attempts >= row.maxAttempts then Some(reply.at) else None)
  {
    MarksAreFound(reply.outcome.err);
    PausesInRange(c, m.attempts);
    CutIsStored(Backoff(c, m.attempts));
  }

  /** The protocol's verdict is that answer at the time of the event, and its claim ends one way or another. */
  lemma FinishStep(s: System, w: WorkerId, i: nat, outcome: Outcome, cancelled: bool, written: bool)
    requires w in s.workers && i in s.workers[w].live && i < |s.workers[w].batch| && (s.workers[w].stopped ==> cancelled)
    ensures var wk, s' := s.workers[w], Next(s, Finish(w, i, outcome, cancelled, written));
            var id := wk.batch[i].id;
            && s'.rows == Resolved(s.rows, wk.config, wk.batch[i], Reply(outcome, cancelled, written, s.now))
            && s'.now == s.now && s'.workers == s.workers[w := wk.(live := wk.live - {i}, stopped := wk.stopped || cancelled)]
            && (forall other :: other in s.past && other != id ==> other in s'.past && s'.past[other] == s.past[other])
            && (id in s.past ==>
                  var h := s.past[id].(sent := s.past[id].sent + if outcome.Delivered? then 1 else 0);
                  && id in s'.past
                  && (!written || (outcome.Refused? && cancelled) ==> s'.past[id] == h.(dropped := h.dropped + 1))
                  && (written && (outcome.Delivered? || (!cancelled && (MarkedTerminal(outcome.err) || !MarkedConflict(outcome.err)))) ==>
                        s'.past[id] == h.(settled := h.settled + 1))
                  && (written && outcome.Refused? && !cancelled && MarkedConflict(outcome.err) && !MarkedTerminal(outcome.err) ==>
                        s'.past[id] == h.(defers := h.defers + 1)))
  {
    assert Next(s, Finish(w, i, outcome, cancelled, written)) == AfterFinish(s, w, i, outcome, cancelled, written);
    if outcome.Refused? {
      MarksAreFound(outcome.err);
    }
  }

  /** A shutdown during Send leaves the whole table alone and drops the one claim. */
  lemma CancelledFinish(s: System, w: WorkerId, i: nat, err: Error, written: bool)
    requires w in s.workers && i in s.workers[w].live && i < |s.workers[w].batch|
    ensures var id, s' := s.workers[w].batch[i].id, Next(s, Finish(w, i, Refused(err), true, written));
            && s'.rows == s.rows
            && (id in s.past ==> id in s'.past && s'.past[id] == s.past[id].(dropped := s.past[id].dropped + 1))
  {
    FinishStep(s, w, i, Refused(err), true, written);
    CancelledAnswer(s.rows, s.workers[w].config, s.workers[w].batch[i], Reply(Refused(err), true, written, s.now));
  }

  /** In a batch cut short by a shutdown every refused message keeps its row as the claim left it, to come due with the lease. */
  lemma CancelledBatch(rows: Table, picked: set<Id>, c: Config, now: int, messages: seq<Message>, replies: Id -> Reply, i: nat)
    requires picked <= rows.Keys && c.visibilityTimeout >= 0
    requires Returns(Claimed(rows, picked, now, Lease(c)), picked, messages) && i < |messages|
    requires replies(messages[i].id).outcome.Refused? && replies(messages[i].id).cancelled && Pending(rows[messages[i].id])
    ensures var id := messages[i].id;
            var after := ResolvedAll(Claimed(rows, picked, now, Lease(c)), c, messages, replies);
            && id in after
            && after[id] == Row(rows[id].job, rows[id].attempts + 1, rows[id].maxAttempts, now + Cut(c.visibilityTimeout), None)
  {
    var id, claimed := messages[i].id, Claimed(rows, picked, now, Lease(c));
    ResolvedAllAt(claimed, c, messages, replies, id);
    CancelledAnswer(claimed, c, messages[i], replies(id));
    CutIsStored(c.visibilityTimeout);
  }

  // ---- Replicas ----

  /** A replica joins exactly with a complete configuration that passes the lease check, under a new name, with nothing claimed. */
  lemma DeployStep(s: System, w: WorkerId, c: Config)
    ensures var s' := Next(s, Deploy(w, c));
            if w !in s.workers && Positive(c) && InRange(c) && Accepts(c) then
              s' == s.(workers := s.workers[w := Worker(c, s.now, [], 0, map[], false)])
            else
              s' == s
  {
  }

  /** A crash takes the replica and drops every claim it had, and leaves the table as it is. */
  lemma CrashStep(s: System, w: WorkerId)
    requires w in s.workers
    ensures var s' := Next(s, Crash(w));
            && s'.rows == s.rows && s'.now == s.now && s'.workers == s.workers - {w} && s'.past.Keys == s.past.Keys
            && forall id :: id in s.past ==>
                 s'.past[id] == s.past[id].(dropped := s.past[id].dropped + if w in Holders(s, id) then 1 else 0)
  {
    assert Next(s, Crash(w)) == AfterCrash(s, w);
  }

  /** Once a Send has come back under a cancelled context, all of that replica's do, and it claims no more. */
  lemma StoppedStep(s: System, w: WorkerId, e: Event)
    requires w in s.workers && s.workers[w].stopped
    ensures e.Claim? && e.w == w ==> Next(s, e) == s
    ensures e.Finish? && e.w == w && !e.cancelled ==> Next(s, e) == s
    ensures w in Next(s, e).workers ==> Next(s, e).workers[w].stopped
  {
  }

  // ---- Claims ----

  /**
   A claim takes rows that are pending, due and not locked; each gets one attempt more and is due when the lease
   ends, the message says so, and no other row changes.
   */
  lemma ClaimStep(s: System, w: WorkerId, locked: set<Id>, messages: seq<Message>)
    requires ClaimEnabled(s, w, locked, messages) && s.workers[w].config.visibilityTimeout >= 0
    ensures var c, rows' := s.workers[w].config, Next(s, Claim(w, locked, messages)).rows;
            && rows'.Keys == s.rows.Keys && |messages| <= c.batchSize
            && (forall i :: 0 <= i < |messages| ==>
                  var m := messages[i];
                  && m.id in s.rows && m.id !in locked
                  && var row := s.rows[m.id];
                     && row.failedAt == None && row.nextAttemptAt <= s.now
                     && rows'[m.id] == Row(row.job, row.attempts + 1, row.maxAttempts, s.now + Cut(c.visibilityTimeout), None)
                     && m == Message(m.id, row.job, row.attempts + 1, row.maxAttempts))
            && (forall id :: id in s.rows && (forall i :: 0 <= i < |messages| ==> messages[i].id != id) ==> rows'[id] == s.rows[id])
  {
    var c := s.workers[w].config;
    var picked := IdsOf(messages);
    assert Next(s, Claim(w, locked, messages)) == AfterClaim(s, w, messages);
    CutIsStored(c.visibilityTimeout);
    IdsOfReturned(Claimed(s.rows, picked, s.now, Lease(c)), picked, messages);
    assert Claimed(s.rows, picked, s.now, Lease(c)).Keys == s.rows.Keys;
    forall i | 0 <= i < |messages| ensures messages[i].id in picked {
    }
    forall id | id in picked ensures exists i :: 0 <= i < |messages| && messages[i].id == id {
    }
  }

  /** A claim finds every row that is pending, due and not locked: of two such, the later due is not taken before the other. */
  lemma ClaimIsFair(s: System, w: WorkerId, locked: set<Id>, messages: seq<Message>, id: Id)
    requires ClaimEnabled(s, w, locked, messages) && id in s.rows && id !in locked
    requires s.rows[id].failedAt == None && s.rows[id].nextAttemptAt <= s.now
    requires forall i :: 0 <= i < |messages| ==> messages[i].id != id
    ensures |messages| == s.workers[w].config.batchSize
    ensures forall i :: 0 <= i < |messages| ==> messages[i].id in s.rows && s.rows[messages[i].id].nextAttemptAt <= s.rows[id].nextAttemptAt
  {
    var c := s.workers[w].config;
    IdsOfReturned(Claimed(s.rows, IdsOf(messages), s.now, Lease(c)), IdsOf(messages), messages);
    assert id in Claimable(s.rows, s.now, locked) - IdsOf(messages);
    forall i | 0 <= i < |messages| ensures messages[i].id in IdsOf(messages) {
    }
  }

  /** A start gives the next waiting message a slot as of now and counts one Send; the table stays as it is. */
  lemma SendStep(s: System, w: WorkerId)
    requires w in s.workers && s.workers[w].next < |s.workers[w].batch| && |s.workers[w].live| < s.workers[w].config.concurrency
    ensures var wk, s' := s.workers[w], Next(s, Event.Send(w));
            var id := wk.batch[wk.next].id;
            && s'.rows == s.rows && s'.now == s.now
            && s'.workers == s.workers[w := wk.(next := wk.next + 1, live := wk.live[wk.next := s.now])]
            && (forall other :: other in s.past && other != id ==> other in s'.past && s'.past[other] == s.past[other])
            && (id in s.past ==> id in s'.past && s'.past[id] == s.past[id].(sends := s.past[id].sends + 1))
  {
    assert Next(s, Event.Send(w)) == AfterSend(s, w);
  }

  // ---- Enqueueing and cleaning up ----

  /** A job with a kind and a payload appears as one row, due since its transaction began. */
  lemma EnqueueStep(s: System, id: Id, job: Job, maxAttempts: int, at: int)
    requires id !in s.past && id !in s.rows && job.kind != "" && job.payload != [] && at <= s.now
    ensures var s' := Next(s, Enqueue(id, job, maxAttempts, at));
            && OnlyRow(s.rows, s'.rows, id) && id in s'.rows
            && s'.rows[id] == Row(job, 0, if maxAttempts > 0 then maxAttempts else 5, at, None)
            && s'.workers == s.workers && s'.now == s.now
  {
  }

  /** A cleanup deletes exactly the rows failed for longer than the retention, whatever their attempts. */
  lemma CleanupStep(s: System, w: WorkerId)
    requires w in s.workers && s.workers[w].config.failedRetention >= 0
    ensures var s', kept := Next(s, Cleanup(w)), Cut(s.workers[w].config.failedRetention);
            && s'.rows.Keys <= s.rows.Keys && s'.workers == s.workers && s'.now == s.now && s'.past == s.past
            && (forall id :: id in s'.rows ==> s'.rows[id] == s.rows[id])
            && (forall id :: id in s.rows ==>
                  (id !in s'.rows <==> s.rows[id].failedAt.Some? && s.now - s.rows[id].failedAt.value > kept))
  {
    CutIsStored(s.workers[w].config.failedRetention);
  }

  /** A row that is gone stays away. */
  lemma GoneStep(s: System, e: Event, id: Id)
    requires id in s.past && id !in s.rows
    ensures id in Next(s, e).past && id !in Next(s, e).rows
  {
  }

  lemma {:induction false} GoneForGood(s: System, es: seq<Event>, id: Id)
    requires id in s.past && id !in s.rows
    ensures id in After(s, es).past && id !in After(s, es).rows
  {
    if es != [] {
      GoneForGood(s, es[..|es| - 1], id);
      GoneStep(After(s, es[..|es| - 1]), es[|es| - 1], id);
    }
  }

  /**
   A row that failed at t and has kept that time is gone after the first cleanup later than t plus the retention, and
   for good.
   */
  lemma FailedRowGoes(es: seq<Event>, w: WorkerId, id: Id, t: int, more: seq<Event>)
    requires var s := After(INIT, es);
             && id in s.past && id in s.rows && s.rows[id].failedAt == Some(t)
             && w in s.workers && s.workers[w].config.failedRetention >= 0
             && s.now > t + Cut(s.workers[w].config.failedRetention)
    ensures id !in After(Next(After(INIT, es), Cleanup(w)), more).rows
  {
    var s := After(INIT, es);
    CleanupStep(s, w);
    GoneForGood(Next(s, Cleanup(w)), more, id);
  }
}
