/** The code's batch and the runs of the protocol: however the slots interleave, the same table comes out. */
module OutboxBatch {
  import opened OutboxConfig
  import opened OutboxTable
  import opened OutboxSystem
  import opened OutboxDelivery

  predicate Agree(a: Table, b: Table, id: Id) {
    (id in a <==> id in b) && (id in a ==> a[id] == b[id])
  }

  /** A verdict looks at its own row only. */
  lemma ResolvedLocally(a: Table, b: Table, c: Config, m: Message, reply: Reply)
    requires Agree(a, b, m.id)
    ensures Agree(Resolved(a, c, m, reply), Resolved(b, c, m, reply), m.id)
  {
  }

  /** The events of one batch after its claim: time, and the replica's own starts and verdicts. */
  predicate OfBatch(e: Event, w: WorkerId) {
    e.Tick? || e == Event.Send(w) || (e.Finish? && e.w == w)
  }

  /** The verdict an event writes is the one the replies speak of. */
  ghost predicate Answers(s: System, e: Event, replies: Id -> Reply) {
    e.Finish? && Enabled(s, e) ==>
      replies(s.workers[e.w].batch[e.i].id) == Reply(e.outcome, e.cancelled, e.written, s.now)
  }

  ghost predicate Schedule(s: System, es: seq<Event>, w: WorkerId, replies: Id -> Reply) {
    es == [] ||
    (var last, init := es[|es| - 1], es[..|es| - 1];
     Schedule(s, init, w, replies) && OfBatch(last, w) && Answers(After(s, init), last, replies))
  }

  predicate InBatch(wk: Worker, id: Id) {
    exists i :: 0 <= i < |wk.batch| && wk.batch[i].id == id
  }

  /** The resolved messages of w have had their verdicts, and no other row has changed. */
  ghost predicate Halfway(rows: Table, wk: Worker, before: Table, replies: Id -> Reply) {
    && (forall i :: 0 <= i < |wk.batch| ==>
          Agree(rows, if Outstanding(wk, i) then before else Resolved(before, wk.config, wk.batch[i], replies(wk.batch[i].id)),
                wk.batch[i].id))
    && (forall id: Id :: !InBatch(wk, id) ==> Agree(rows, before, id))
  }

  lemma HalfwaySend(rows: Table, wk: Worker, wk': Worker, before: Table, replies: Id -> Reply)
    requires wk.next < |wk.batch| && Halfway(rows, wk, before, replies)
    requires wk'.config == wk.config && wk'.batch == wk.batch && wk'.next == wk.next + 1 && wk'.live.Keys == wk.live.Keys + {wk.next}
    ensures Halfway(rows, wk', before, replies)
  {
    forall i | 0 <= i < |wk.batch| ensures Outstanding(wk', i) <==> Outstanding(wk, i) {
      assert i in wk'.live <==> i in wk'.live.Keys;
    }
    SameOutstanding(rows, wk, wk', before, replies);
  }

  lemma SameOutstanding(rows: Table, wk: Worker, wk': Worker, before: Table, replies: Id -> Reply)
    requires Halfway(rows, wk, before, replies) && wk'.config == wk.config && wk'.batch == wk.batch
    requires forall i :: 0 <= i < |wk.batch| ==> (Outstanding(wk', i) <==> Outstanding(wk, i))
    ensures Halfway(rows, wk', before, replies)
  {
    assert forall id :: InBatch(wk', id) <==> InBatch(wk, id);
  }

  lemma HalfwayFinish(rows: Table, wk: Worker, wk': Worker, i: nat, before: Table, replies: Id -> Reply)
    requires WellFormedWorker(wk) && i in wk.live && i < |wk.batch| && Halfway(rows, wk, before, replies)
    requires wk'.config == wk.config && wk'.batch == wk.batch && wk'.next == wk.next && wk'.live.Keys == wk.live.Keys - {i}
    ensures Halfway(Resolved(rows, wk.config, wk.batch[i], replies(wk.batch[i].id)), wk', before, replies)
  {
    var c, m := wk.config, wk.batch[i];
    var reply := replies(m.id);
    var rows' := Resolved(rows, c, m, reply);
    assert Outstanding(wk, i);
    ResolvedLocally(rows, before, c, m, reply);
    forall id: Id | id != m.id ensures Agree(rows', rows, id) {
      WrittenFrame(rows, m.id, VerdictOn(c, m, reply.outcome, reply.cancelled), reply.at, id);
    }
    assert forall j :: Outstanding(wk', j) <==> Outstanding(wk, j) && j != i;
    forall id: Id | !InBatch(wk', id) ensures Agree(rows', before, id) {
      assert !InBatch(wk, id);
      assert id != m.id;
    }
  }

  /** One event of the batch, from any point of it. */
  lemma HalfwayStep(s: System, e: Event, w: WorkerId, before: Table, replies: Id -> Reply)
    requires w in s.workers && WellFormedWorker(s.workers[w]) && Halfway(s.rows, s.workers[w], before, replies)
    requires OfBatch(e, w) && Answers(s, e, replies)
    ensures w in Next(s, e).workers && WellFormedWorker(Next(s, e).workers[w])
    ensures Next(s, e).workers[w].batch == s.workers[w].batch && Next(s, e).workers[w].config == s.workers[w].config
    ensures Halfway(Next(s, e).rows, Next(s, e).workers[w], before, replies)
  {
    if Enabled(s, e) {
      var wk := s.workers[w];
      if e.Send? {
        WellFormedSend(wk, s.now);
        HalfwaySend(s.rows, wk, AfterSend(s, w).workers[w], before, replies);
      } else if e.Finish? {
        WellFormedFinish(wk, e.i, wk.stopped || e.cancelled);
        HalfwayFinish(s.rows, wk, AfterFinish(s, w, e.i, e.outcome, e.cancelled, e.written).workers[w], e.i, before, replies);
      }
    }
  }

  lemma {:induction false} AlwaysHalfway(s: System, es: seq<Event>, w: WorkerId, replies: Id -> Reply)
    requires w in s.workers && WellFormedWorker(s.workers[w]) && s.workers[w].next == 0
    requires Schedule(s, es, w, replies)
    ensures var s' := After(s, es);
            && w in s'.workers && WellFormedWorker(s'.workers[w])
            && s'.workers[w].batch == s.workers[w].batch && s'.workers[w].config == s.workers[w].config
            && Halfway(s'.rows, s'.workers[w], s.rows, replies)
  {
    if es != [] {
      AlwaysHalfway(s, es[..|es| - 1], w, replies);
      HalfwayStep(After(s, es[..|es| - 1]), es[|es| - 1], w, s.rows, replies);
    }
  }

  lemma AgreeAll(a: Table, b: Table)
    requires forall id :: Agree(a, b, id)
    ensures a == b
  {
    forall id: Id ensures id in a <==> id in b {
      assert Agree(a, b, id);
    }
    forall id | id in a ensures a[id] == b[id] {
      assert Agree(a, b, id);
    }
  }

  lemma AllResolved(rows: Table, wk: Worker, before: Table, replies: Id -> Reply)
    requires WellFormedWorker(wk) && Drained(wk) && Halfway(rows, wk, before, replies)
    ensures rows == ResolvedAll(before, wk.config, wk.batch, replies)
  {
    var after := ResolvedAll(before, wk.config, wk.batch, replies);
    forall id: Id ensures Agree(rows, after, id) {
      ResolvedAllAt(before, wk.config, wk.batch, replies, id);
      if InBatch(wk, id) {
        var i :| 0 <= i < |wk.batch| && wk.batch[i].id == id;
        assert !Outstanding(wk, i);
        assert Agree(rows, Resolved(before, wk.config, wk.batch[i], replies(id)), id);
      }
    }
    AgreeAll(rows, after);
  }

  /**
   However the slots interleave the starts and verdicts of a batch, and however long they take: once the batch is
   drained the table is the one the code's deliveries leave, given the same answers.
   */
  lemma EveryScheduleResolves(s: System, w: WorkerId, locked: set<Id>, messages: seq<Message>, es: seq<Event>, replies: Id -> Reply)
    requires ClaimEnabled(s, w, locked, messages) && WellFormed(s)
    requires Schedule(AfterClaim(s, w, messages), es, w, replies)
    ensures var c := s.workers[w].config;
            var s' := After(AfterClaim(s, w, messages), es);
            && w in s'.workers
            && (Drained(s'.workers[w]) ==>
                  s'.rows == ResolvedAll(Claimed(s.rows, IdsOf(messages), s.now, Lease(c)), c, messages, replies))
  {
    var claimed := AfterClaim(s, w, messages);
    WellFormedClaim(s, w, locked, messages);
    AlwaysHalfway(claimed, es, w, replies);
    var s' := After(claimed, es);
    if Drained(s'.workers[w]) {
      AllResolved(s'.rows, s'.workers[w], claimed.rows, replies);
    }
  }

  /** Message i is started, its Send ends at the reply's time, and its verdict is written then. */
  function Delivery(w: WorkerId, i: nat, reply: Reply): seq<Event> {
    [Event.Send(w), Tick(reply.at), Finish(w, i, reply.outcome, reply.cancelled, reply.written)]
  }

  function Deliveries(w: WorkerId, messages: seq<Message>, replies: Id -> Reply): seq<Event> {
    if messages == [] then []
    else
      var last := |messages| - 1;
      Deliveries(w, messages[..last], replies) + Delivery(w, last, replies(messages[last].id))
  }

  lemma AfterOneMore(s: System, es: seq<Event>, e: Event, before: System, after: System)
    requires After(s, es) == before && Next(before, e) == after
    ensures After(s, es + [e]) == after
  {
    AfterSnoc(s, es, e);
  }

  /** A free replica starts its next message. */
  lemma StartRuns(start: System, es: seq<Event>, s: System, w: WorkerId, i: nat) returns (s': System)
    requires After(start, es) == s
    requires w in s.workers && 0 < s.workers[w].config.concurrency
    requires s.workers[w].next == i < |s.workers[w].batch| && s.workers[w].live == map[]
    ensures After(start, es + [Event.Send(w)]) == s'
    ensures s'.now == s.now && s'.rows == s.rows
    ensures s'.workers == s.workers[w := s.workers[w].(next := i + 1, live := map[i := s.now])]
  {
    s' := AfterSend(s, w);
    AfterOneMore(start, es, Event.Send(w), s, s');
  }

  /** The one running message is answered. */
  lemma EndRuns(start: System, es: seq<Event>, s: System, w: WorkerId, i: nat, reply: Reply) returns (s': System)
    requires After(start, es) == s && s.now <= reply.at
    requires w in s.workers && i < |s.workers[w].batch| && s.workers[w].live.Keys == {i}
    requires s.workers[w].stopped ==> reply.cancelled
    ensures After(start, es + [Tick(reply.at)] + [Finish(w, i, reply.outcome, reply.cancelled, reply.written)]) == s'
    ensures s'.now == reply.at
    ensures s'.rows == Resolved(s.rows, s.workers[w].config, s.workers[w].batch[i], reply)
    ensures s'.workers == s.workers[w := s.workers[w].(live := map[], stopped := reply.cancelled)]
  {
    var later := s.(now := reply.at);
    AfterOneMore(start, es, Tick(reply.at), s, later);
    s' := AfterFinish(later, w, i, reply.outcome, reply.cancelled, reply.written);
    assert s.workers[w].live - {i} == map[];
    AfterOneMore(start, es + [Tick(reply.at)], Finish(w, i, reply.outcome, reply.cancelled, reply.written), later, s');
  }

  lemma DeliveryRuns(start: System, es: seq<Event>, s: System, w: WorkerId, i: nat, reply: Reply) returns (s': System)
    requires After(start, es) == s
    requires w in s.workers && 0 < s.workers[w].config.concurrency && s.now <= reply.at
    requires s.workers[w].next == i < |s.workers[w].batch| && s.workers[w].live == map[]
    requires s.workers[w].stopped ==> reply.cancelled
    ensures After(start, es + Delivery(w, i, reply)) == s'
    ensures s'.now == reply.at
    ensures s'.rows == Resolved(s.rows, s.workers[w].config, s.workers[w].batch[i], reply)
    ensures s'.workers == s.workers[w := s.workers[w].(next := i + 1, stopped := reply.cancelled)]
  {
    var sent := StartRuns(start, es, s, w, i);
    s' := EndRuns(start, es + [Event.Send(w)], sent, w, i, reply);
    var last := Finish(w, i, reply.outcome, reply.cancelled, reply.written);
    assert es + Delivery(w, i, reply) == es + [Event.Send(w)] + [Tick(reply.at)] + [last];
  }

  /** The answers come one after the other, none before the claim, and a cancelled context stays so. */
  predicate InOrder(start: int, messages: seq<Message>, replies: Id -> Reply) {
    forall i :: 0 <= i < |messages| ==> Follows(start, messages, replies, i)
  }

  predicate Follows(start: int, messages: seq<Message>, replies: Id -> Reply, i: nat)
    requires i < |messages|
  {
    var reply := replies(messages[i].id);
    if i == 0 then start <= reply.at
    else
      var previous := replies(messages[i - 1].id);
      previous.at <= reply.at && (previous.cancelled ==> reply.cancelled)
  }

  /** The first n messages have been delivered. */
  ghost predicate Delivered(s: System, s': System, w: WorkerId, n: nat, replies: Id -> Reply)
    requires w in s.workers && n <= |s.workers[w].batch|
  {
    var batch := s.workers[w].batch;
    && s'.rows == ResolvedAll(s.rows, s.workers[w].config, batch[..n], replies)
    && s'.workers == s.workers[w := s.workers[w].(next := n, stopped := n > 0 && replies(batch[n - 1].id).cancelled)]
    && s'.now == (if n == 0 then s.now else replies(batch[n - 1].id).at)
  }

  lemma DeliverNext(s: System, es: seq<Event>, mid: System, w: WorkerId, n: nat, replies: Id -> Reply) returns (s': System)
    requires w in s.workers && n < |s.workers[w].batch| && Delivered(s, mid, w, n, replies) && After(s, es) == mid
    requires 0 < s.workers[w].config.concurrency && s.workers[w].live == map[]
    requires Follows(s.now, s.workers[w].batch, replies, n)
    ensures Delivered(s, s', w, n + 1, replies)
    ensures After(s, es + Delivery(w, n, replies(s.workers[w].batch[n].id))) == s'
  {
    var batch := s.workers[w].batch;
    s' := DeliveryRuns(s, es, mid, w, n, replies(batch[n].id));
    assert batch[..n + 1][..n] == batch[..n];
  }

  lemma OneMoreDelivery(w: WorkerId, batch: seq<Message>, n: nat, replies: Id -> Reply)
    requires n < |batch|
    ensures Deliveries(w, batch[..n + 1], replies) ==
            Deliveries(w, batch[..n], replies) + Delivery(w, n, replies(batch[n].id))
  {
    assert batch[..n + 1][..n] == batch[..n];
  }

  lemma {:induction false} DeliveriesRun(s: System, w: WorkerId, n: nat, replies: Id -> Reply)
    requires w in s.workers && 0 < s.workers[w].config.concurrency
    requires s.workers[w].next == 0 && s.workers[w].live == map[] && !s.workers[w].stopped && n <= |s.workers[w].batch|
    requires InOrder(s.now, s.workers[w].batch, replies)
    ensures Delivered(s, After(s, Deliveries(w, s.workers[w].batch[..n], replies)), w, n, replies)
  {
    var batch := s.workers[w].batch;
    if n > 0 {
      DeliveriesRun(s, w, n - 1, replies);
      var before := Deliveries(w, batch[..n - 1], replies);
      assert Follows(s.now, batch, replies, n - 1);
      var _ := DeliverNext(s, before, After(s, before), w, n - 1, replies);
      OneMoreDelivery(w, batch, n - 1, replies);
    }
  }

  /**
   The code's own order is one of them: claiming and delivering one message after the other is a run of the
   protocol that leaves the code's table and, uncancelled, a replica ready to claim again.
   */
  lemma BatchIsARun(s: System, w: WorkerId, locked: set<Id>, messages: seq<Message>, replies: Id -> Reply)
    requires ClaimEnabled(s, w, locked, messages) && WellFormed(s) && InOrder(s.now, messages, replies)
    ensures var c := s.workers[w].config;
            var claimed := Claimed(s.rows, IdsOf(messages), s.now, Lease(c));
            var s' := After(Next(s, Event.Claim(w, locked, messages)), Deliveries(w, messages, replies));
            && s'.rows == ResolvedAll(claimed, c, messages, replies)
            && w in s'.workers && Drained(s'.workers[w])
            && ((forall m :: m in messages ==> !replies(m.id).cancelled) ==> Idle(s'.workers[w]))
  {
    var s' := Next(s, Event.Claim(w, locked, messages));
    assert s' == AfterClaim(s, w, messages);
    DeliveriesRun(s', w, |messages|, replies);
    assert messages[..|messages|] == messages;
    assert messages != [] ==> messages[|messages| - 1] in messages;
  }
}
