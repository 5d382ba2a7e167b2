/**
 The outbox protocol as a state machine: any number of worker replicas, each claiming batches,
 sending them over a bounded number of slots and writing one verdict back per message, against
 one table and one clock. Each event is atomic; an event that is not enabled changes nothing, so
 every sequence of events is a run.
 */
module OutboxSystem {
  import opened Durations
  import opened OutboxConfig
  import opened OutboxErrors
  import opened OutboxTable

  type WorkerId = nat

  // ---- What deliver decides ----

  datatype Outcome = Delivered | Refused(err: Error)

  datatype Verdict = Complete | Leave | Fail | Defer(delay: int) | Retry(delay: int)

  /** The branch `deliver` takes once Send has returned. `cancelled` is the batch context's state. */
  function VerdictOn(c: Config, m: Message, outcome: Outcome, cancelled: bool): Verdict {
    match outcome
    case Delivered => Complete
    case Refused(err) =>
      if cancelled then Leave
      else if IsTerminal(err) then Fail
      else if IsConflict(err) then Defer(c.conflictBackoff)
      else Retry(Backoff(c, m.attempts))
  }

  /**
   A refused, uncancelled message is failed for good exactly when some error of the chain is marked terminal,
   deferred exactly when some is marked a conflict and none terminal, and retried otherwise.
   */
  lemma VerdictByMarks(c: Config, m: Message, err: Error)
    ensures var verdict := VerdictOn(c, m, Refused(err), false);
            var terminal := exists e :: InChain(err, e) && e.TerminalError?;
            var conflict := exists e :: InChain(err, e) && e.ConflictError?;
            && (verdict == Fail <==> terminal)
            && (verdict == Defer(c.conflictBackoff) <==> conflict && !terminal)
            && (verdict == Retry(Backoff(c, m.attempts)) <==> !conflict && !terminal)
  {
    MarksAreFound(err);
  }

  /** The statement that carries a verdict to the table. */
  function Written(rows: Table, id: Id, verdict: Verdict, now: int): Table {
    match verdict
    case Complete => Completed(rows, id)
    case Leave => rows
    case Fail => Failed(rows, id, now)
    case Defer(delay) => Deferred(rows, id, now, Stored(delay))
    case Retry(delay) => Retried(rows, id, now, Stored(delay))
  }

  /** A verdict that leaves its row pending either leaves it alone or puts it a full pause ahead. */
  lemma VerdictMovesRow(rows: Table, c: Config, m: Message, outcome: Outcome, cancelled: bool, now: int)
    requires Positive(c) && InRange(c)
    ensures var rows' := Written(rows, m.id, VerdictOn(c, m, outcome, cancelled), now);
            m.id in rows' && Pending(rows'[m.id]) ==>
              m.id in rows && (rows'[m.id] == rows[m.id] || rows'[m.id].nextAttemptAt >= now + ShortestDelay(c))
  {
    ShortestDelayExact(c, m.attempts);
  }

  /** The test that makes `deliver` report that it gave up. */
  predicate GaveUp(m: Message) {
    m.attempts >= m.maxAttempts
  }

  // ---- State ----

  /**
   A replica and its current batch: messages before `next` were started in order, `live` maps those
   whose Send has not returned to its start time, and those from `next` on wait for a slot. `stopped`
   records that a returning Send has found the context cancelled, which it then stays.
   */
  datatype Worker = Worker(config: Config, claimedAt: int, batch: seq<Message>, next: nat, live: map<nat, int>, stopped: bool)

  /**
   What has happened to an id: how often it was claimed and its Send called and successful, and how
   its claims ended: by an applied Defer, by another applied verdict (settled), or without any (dropped).
   */
  datatype History = History(
    job: Job, budget: int,
    claims: nat, sends: nat, sent: nat,
    defers: nat, settled: nat, dropped: nat)

  datatype System = System(now: int, rows: Table, workers: map<WorkerId, Worker>, past: map<Id, History>)

  const INIT := System(0, map[], map[], map[])

  predicate Drained(wk: Worker) {
    wk.next == |wk.batch| && wk.live == map[]
  }

  /** Ready to claim: `Run` never claims again once its context is cancelled. */
  predicate Idle(wk: Worker) {
    Drained(wk) && !wk.stopped
  }

  predicate Outstanding(wk: Worker, i: int) {
    0 <= i < |wk.batch| && (i >= wk.next || i in wk.live)
  }

  predicate Holds(wk: Worker, id: Id) {
    exists i :: 0 <= i < |wk.batch| && Outstanding(wk, i) && wk.batch[i].id == id
  }

  predicate Waits(wk: Worker, id: Id) {
    exists i :: wk.next <= i < |wk.batch| && wk.batch[i].id == id
  }

  /** The replicas with an unresolved claim on the id. */
  function Holders(s: System, id: Id): set<WorkerId> {
    set w | w in s.workers && Holds(s.workers[w], id)
  }

  /** The replicas that claimed the id and have not called Send for it yet. */
  function Waiting(s: System, id: Id): set<WorkerId> {
    set w | w in s.workers && Waits(s.workers[w], id)
  }

  // ---- Events ----

  datatype Event =
    | Tick(time: int)
    | Enqueue(id: Id, job: Job, maxAttempts: int, at: int)
    | Deploy(w: WorkerId, config: Config)
    | Crash(w: WorkerId)
    | Claim(w: WorkerId, locked: set<Id>, messages: seq<Message>)
    | Send(w: WorkerId)
    | Finish(w: WorkerId, i: nat, outcome: Outcome, cancelled: bool, written: bool)
    | Cleanup(w: WorkerId)

  ghost predicate ClaimEnabled(s: System, w: WorkerId, locked: set<Id>, messages: seq<Message>) {
    && w in s.workers
    && Idle(s.workers[w])
    && var c := s.workers[w].config;
       var picked := IdsOf(messages);
       && Oldest(s.rows, Claimable(s.rows, s.now, locked), c.batchSize, picked)
       && RoomFor(s.rows, picked)
       && Returns(Claimed(s.rows, picked, s.now, Lease(c)), picked, messages)
  }

  /** An enqueued row appears at its transaction's commit; `at` is that transaction's now(). */
  ghost predicate Enabled(s: System, e: Event) {
    match e
    case Tick(time) => s.now <= time
    case Enqueue(id, job, _, at) => id !in s.past && id !in s.rows && job.kind != "" && job.payload != [] && at <= s.now
    case Deploy(w, config) => w !in s.workers && Positive(config) && InRange(config) && Accepts(config)
    case Crash(w) => w in s.workers
    case Claim(w, locked, messages) => ClaimEnabled(s, w, locked, messages)
    case Send(w) =>
      w in s.workers && s.workers[w].next < |s.workers[w].batch| && |s.workers[w].live| < s.workers[w].config.concurrency
    case Finish(w, i, _, cancelled, _) =>
      w in s.workers && i in s.workers[w].live && i < |s.workers[w].batch| && (s.workers[w].stopped ==> cancelled)
    case Cleanup(w) => w in s.workers
  }

  function Tally(h: History, outcome: Outcome, verdict: Verdict, written: bool): History {
    var h := if outcome.Delivered? then h.(sent := h.sent + 1) else h;
    if verdict.Leave? || !written then h.(dropped := h.dropped + 1)
    else if verdict.Defer? then h.(defers := h.defers + 1)
    else h.(settled := h.settled + 1)
  }

  function AfterClaim(s: System, w: WorkerId, messages: seq<Message>): System
    requires w in s.workers
  {
    var c := s.workers[w].config;
    var picked := IdsOf(messages);
    s.(rows := Claimed(s.rows, picked, s.now, Lease(c)),
       workers := s.workers[w := Worker(c, s.now, messages, 0, map[], false)],
       past := map id | id in s.past ::
         if id in picked then s.past[id].(claims := s.past[id].claims + 1) else s.past[id])
  }

  function AfterSend(s: System, w: WorkerId): System
    requires w in s.workers && s.workers[w].next < |s.workers[w].batch|
  {
    var wk := s.workers[w];
    var id := wk.batch[wk.next].id;
    s.(workers := s.workers[w := wk.(next := wk.next + 1, live := wk.live[wk.next := s.now])],
       past := if id in s.past then s.past[id := s.past[id].(sends := s.past[id].sends + 1)] else s.past)
  }

  function AfterFinish(s: System, w: WorkerId, i: nat, outcome: Outcome, cancelled: bool, written: bool): System
    requires w in s.workers && i in s.workers[w].live && i < |s.workers[w].batch|
  {
    var wk := s.workers[w];
    var id := wk.batch[i].id;
    var verdict := VerdictOn(wk.config, wk.batch[i], outcome, cancelled);
    s.(rows := if written then Written(s.rows, id, verdict, s.now) else s.rows,
       workers := s.workers[w := wk.(live := wk.live - {i}, stopped := wk.stopped || cancelled)],
       past := if id in s.past then s.past[id := Tally(s.past[id], outcome, verdict, written)] else s.past)
  }

  function AfterCrash(s: System, w: WorkerId): System
    requires w in s.workers
  {
    s.(workers := s.workers - {w},
       past := map id | id in s.past ::
         if Holds(s.workers[w], id) then s.past[id].(dropped := s.past[id].dropped + 1) else s.past[id])
  }

  ghost function Next(s: System, e: Event): System {
    if !Enabled(s, e) then s
    else
      match e
      case Tick(time) => s.(now := time)
      case Enqueue(id, job, maxAttempts, at) =>
        var rows := Inserted(s.rows, id, job, maxAttempts, at);
        s.(rows := rows, past := s.past[id := History(job, rows[id].maxAttempts, 0, 0, 0, 0, 0, 0)])
      case Deploy(w, config) => s.(workers := s.workers[w := Worker(config, s.now, [], 0, map[], false)])
      case Crash(w) => AfterCrash(s, w)
      case Claim(w, _, messages) => AfterClaim(s, w, messages)
      case Send(w) => AfterSend(s, w)
      case Finish(w, i, outcome, cancelled, written) => AfterFinish(s, w, i, outcome, cancelled, written)
      case Cleanup(w) => s.(rows := Purged(s.rows, s.now, Stored(s.workers[w].config.failedRetention)))
  }

  /** The state after a run. */
  ghost function After(s: System, es: seq<Event>): System {
    if es == [] then s else Next(After(s, es[..|es| - 1]), es[|es| - 1])
  }

  lemma AfterSnoc(s: System, es: seq<Event>, e: Event)
    ensures After(s, es + [e]) == Next(After(s, es), e)
  {
    assert (es + [e])[..|es + [e]| - 1] == es;
  }

  // ---- What every run keeps ----

  predicate WellFormedWorker(wk: Worker) {
    && Positive(wk.config) && InRange(wk.config)
    && wk.next <= |wk.batch| <= wk.config.batchSize
    && (forall i :: i in wk.live ==> i < wk.next)
    && |wk.live| <= wk.config.concurrency
    && forall i, j :: 0 <= i < j < |wk.batch| ==> wk.batch[i].id != wk.batch[j].id
  }

  predicate WellFormed(s: System) {
    forall w :: w in s.workers ==> WellFormedWorker(s.workers[w])
  }

  lemma IdsOfReturned(rows: Table, picked: set<Id>, messages: seq<Message>)
    requires picked <= rows.Keys && Returns(rows, picked, messages)
    ensures IdsOf(messages) == picked && |messages| == |picked|
  {
    ReturnsCounts(rows, picked, messages);
  }

  lemma WellFormedClaim(s: System, w: WorkerId, locked: set<Id>, messages: seq<Message>)
    requires ClaimEnabled(s, w, locked, messages) && WellFormedWorker(s.workers[w])
    ensures WellFormedWorker(Worker(s.workers[w].config, s.now, messages, 0, map[], false))
  {
    var c := s.workers[w].config;
    IdsOfReturned(Claimed(s.rows, IdsOf(messages), s.now, Lease(c)), IdsOf(messages), messages);
  }

  lemma WellFormedSend(wk: Worker, now: int)
    requires WellFormedWorker(wk) && wk.next < |wk.batch| && |wk.live| < wk.config.concurrency
    ensures WellFormedWorker(wk.(next := wk.next + 1, live := wk.live[wk.next := now]))
  {
    assert wk.live[wk.next := now].Keys == wk.live.Keys + {wk.next};
    assert |wk.live[wk.next := now].Keys| == |wk.live.Keys| + 1;
  }

  lemma WellFormedFinish(wk: Worker, i: nat, stopped: bool)
    requires WellFormedWorker(wk)
    ensures WellFormedWorker(wk.(live := wk.live - {i}, stopped := stopped))
  {
    assert (wk.live - {i}).Keys == wk.live.Keys - {i};
    if i in wk.live {
      assert |wk.live.Keys - {i}| == |wk.live.Keys| - 1;
    } else {
      assert wk.live.Keys - {i} == wk.live.Keys;
    }
  }

  /** At most one replica has moved, and others may have gone. */
  lemma WellFormedMove(s: System, s': System, w: WorkerId)
    requires WellFormed(s) && (w in s'.workers ==> WellFormedWorker(s'.workers[w]))
    requires forall v :: v in s'.workers && v != w ==> v in s.workers && s'.workers[v] == s.workers[v]
    ensures WellFormed(s')
  {
  }

  lemma WellFormedAfterFinish(s: System, s': System, w: WorkerId, i: nat, stopped: bool)
    requires WellFormed(s) && w in s.workers
    requires s'.workers == s.workers[w := s.workers[w].(live := s.workers[w].live - {i}, stopped := stopped)]
    ensures WellFormed(s')
  {
    WellFormedFinish(s.workers[w], i, stopped);
    WellFormedMove(s, s', w);
  }

  lemma WellFormedAfterSend(s: System, s': System, w: WorkerId)
    requires WellFormed(s) && w in s.workers
    requires s.workers[w].next < |s.workers[w].batch| && |s.workers[w].live| < s.workers[w].config.concurrency
    requires s'.workers == s.workers[w := s.workers[w].(next := s.workers[w].next + 1, live := s.workers[w].live[s.workers[w].next := s.now])]
    ensures WellFormed(s')
  {
    WellFormedSend(s.workers[w], s.now);
    WellFormedMove(s, s', w);
  }

  lemma WellFormedAfterClaim(s: System, w: WorkerId, locked: set<Id>, messages: seq<Message>)
    requires WellFormed(s) && ClaimEnabled(s, w, locked, messages)
    ensures WellFormed(AfterClaim(s, w, messages))
  {
    WellFormedClaim(s, w, locked, messages);
    WellFormedMove(s, AfterClaim(s, w, messages), w);
  }

  lemma WellFormedStep(s: System, e: Event)
    requires WellFormed(s)
    ensures WellFormed(Next(s, e))
  {
    if Enabled(s, e) {
      match e
      case Claim(w, locked, messages) => WellFormedAfterClaim(s, w, locked, messages);
      case Send(w) => WellFormedAfterSend(s, AfterSend(s, w), w);
      case Finish(w, i, outcome, cancelled, written) =>
        WellFormedAfterFinish(s, AfterFinish(s, w, i, outcome, cancelled, written), w, i, s.workers[w].stopped || cancelled);
      case Crash(w) => WellFormedMove(s, AfterCrash(s, w), w);
      case _ =>
    }
  }

  lemma {:induction false} AlwaysWellFormed(es: seq<Event>)
    ensures WellFormed(After(INIT, es))
  {
    if es != [] {
      AlwaysWellFormed(es[..|es| - 1]);
      WellFormedStep(After(INIT, es[..|es| - 1]), es[|es| - 1]);
    }
  }

  // ---- How each event changes who holds an id ----

  /** A verdict touches its own row only. */
  lemma WrittenFrame(rows: Table, id: Id, verdict: Verdict, now: int, other: Id)
    requires other != id
    ensures other in Written(rows, id, verdict, now) <==> other in rows
    ensures other in rows ==> Written(rows, id, verdict, now)[other] == rows[other]
  {
  }

  lemma WaitersHold(s: System, id: Id)
    ensures Waiting(s, id) <= Holders(s, id)
  {
    forall w | w in Waiting(s, id) ensures w in Holders(s, id) {
      var wk := s.workers[w];
      var i :| wk.next <= i < |wk.batch| && wk.batch[i].id == id;
      assert Outstanding(wk, i);
    }
  }

  lemma HoldersAfterClaim(s: System, w: WorkerId, locked: set<Id>, messages: seq<Message>, id: Id)
    requires ClaimEnabled(s, w, locked, messages)
    ensures var s' := AfterClaim(s, w, messages);
            && w !in Holders(s, id) && w !in Waiting(s, id)
            && Holders(s', id) == (if id in IdsOf(messages) then Holders(s, id) + {w} else Holders(s, id))
            && Waiting(s', id) == (if id in IdsOf(messages) then Waiting(s, id) + {w} else Waiting(s, id))
  {
    var s' := AfterClaim(s, w, messages);
    var wk := s'.workers[w];
    if id in IdsOf(messages) {
      var i :| 0 <= i < |messages| && messages[i].id == id;
      assert Outstanding(wk, i);
    }
  }

  lemma HoldersAfterSend(s: System, w: WorkerId, id: Id)
    requires WellFormed(s) && Enabled(s, Event.Send(w))
    ensures var s' := AfterSend(s, w);
            var wk := s.workers[w];
            && Holders(s', id) == Holders(s, id)
            && (wk.batch[wk.next].id == id ==> w in Waiting(s, id))
            && Waiting(s', id) == (if wk.batch[wk.next].id == id then Waiting(s, id) - {w} else Waiting(s, id))
  {
    var s' := AfterSend(s, w);
    var wk, wk' := s.workers[w], s'.workers[w];
    assert forall i :: Outstanding(wk', i) <==> Outstanding(wk, i);
    assert Holds(wk', id) <==> Holds(wk, id);
  }

  lemma HoldersAfterFinish(s: System, e: Event, id: Id)
    requires e.Finish? && WellFormed(s) && Enabled(s, e)
    ensures var s' := Next(s, e);
            var mine := s.workers[e.w].batch[e.i].id == id;
            && (mine ==> e.w in Holders(s, id))
            && Holders(s', id) == (if mine then Holders(s, id) - {e.w} else Holders(s, id))
            && Waiting(s', id) == Waiting(s, id)
  {
    var s' := Next(s, e);
    var wk, wk' := s.workers[e.w], s'.workers[e.w];
    assert forall i :: Outstanding(wk', i) <==> Outstanding(wk, i) && i != e.i;
    assert Outstanding(wk, e.i);
    assert forall i, j :: Outstanding(wk, i) && Outstanding(wk, j) && i != j ==> wk.batch[i].id != wk.batch[j].id;
  }

  lemma HoldersAfterCrash(s: System, w: WorkerId, id: Id)
    requires w in s.workers
    ensures Holders(AfterCrash(s, w), id) == Holders(s, id) - {w}
    ensures Waiting(AfterCrash(s, w), id) == Waiting(s, id) - {w}
  {
  }
}
