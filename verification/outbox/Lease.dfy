/** The lease: what holds in every punctual run when each replica's lease outlives its batch. */
module OutboxLease {
  import opened OutboxConfig
  import opened OutboxTable
  import opened OutboxSystem
  import opened OutboxSchedule
  import opened OutboxLoss

  /** The stored lease is strictly longer than any hold of a full batch. */
  predicate LeaseCovers(c: Config) {
    Positive(c) && Hold(c) < Lease(c)
  }

  ghost predicate Covered(es: seq<Event>) {
    forall e :: e in es && e.Deploy? ==> LeaseCovers(e.config)
  }

  /** The holder's row is as the claim left it. */
  ghost predicate RowAsClaimed(s: System, wk: Worker, i: nat)
    requires i < |wk.batch|
  {
    var m := wk.batch[i];
    && m.id in s.rows
    && Pending(s.rows[m.id])
    && m == MessageOf(s.rows, m.id)
    && s.rows[m.id].nextAttemptAt == wk.claimedAt + Lease(wk.config)
  }

  ghost predicate SoleHolders(s: System) {
    && AllInWaves(s)
    && (forall w :: w in s.workers ==> LeaseCovers(s.workers[w].config))
    && (forall w, i :: w in s.workers && Outstanding(s.workers[w], i) ==> RowAsClaimed(s, s.workers[w], i))
    && (forall w, v, id :: w in Holders(s, id) && v in Holders(s, id) ==> w == v)
  }

  /** While an id is held its row is not due, so no claim can take it. */
  lemma HeldIsNotDue(s: System, w: WorkerId, i: nat)
    requires SoleHolders(s) && w in s.workers && Outstanding(s.workers[w], i)
    ensures !Due(s.rows[s.workers[w].batch[i].id], s.now)
  {
    HeldWithinHold(s.workers[w], s.now, i);
  }

  lemma SoleAfterClaim(s: System, w: WorkerId, locked: set<Id>, messages: seq<Message>)
    requires SoleHolders(s) && ClaimEnabled(s, w, locked, messages)
    requires AllInWaves(AfterClaim(s, w, messages))
    ensures SoleHolders(AfterClaim(s, w, messages))
  {
    var s' := AfterClaim(s, w, messages);
    var picked := IdsOf(messages);
    forall v, i | v in s.workers && Outstanding(s.workers[v], i) ensures s.workers[v].batch[i].id !in picked {
      HeldIsNotDue(s, v, i);
    }
    forall v, i | v in s'.workers && Outstanding(s'.workers[v], i) ensures RowAsClaimed(s', s'.workers[v], i) {
      if v == w {
        assert messages[i].id in picked;
      } else {
        assert Outstanding(s.workers[v], i);
      }
    }
    forall u, v, id | u in Holders(s', id) && v in Holders(s', id) ensures u == v {
      HoldersAfterClaim(s, w, locked, messages, id);
    }
  }

  /** A message still outstanding after another's verdict is about another row. */
  lemma OthersAfterFinish(s: System, s': System, w: WorkerId, k: nat, stopped: bool, v: WorkerId, i: nat)
    requires WellFormed(s) && forall u, v, id :: u in Holders(s, id) && v in Holders(s, id) ==> u == v
    requires w in s.workers && k in s.workers[w].live && k < |s.workers[w].batch|
    requires s'.workers == s.workers[w := s.workers[w].(live := s.workers[w].live - {k}, stopped := stopped)]
    requires v in s'.workers && Outstanding(s'.workers[v], i)
    ensures v in s.workers && Outstanding(s.workers[v], i) && s.workers[v].batch[i] == s'.workers[v].batch[i]
    ensures s.workers[v].batch[i].id != s.workers[w].batch[k].id
  {
    var mine := s.workers[w].batch[k].id;
    assert Outstanding(s.workers[w], k);
    assert w in Holders(s, mine);
    assert s.workers[v].batch[i].id == mine ==> v in Holders(s, mine);
  }

  lemma SoleAfterFinish(s: System, e: Event)
    requires e.Finish? && SoleHolders(s) && Enabled(s, e) && AllInWaves(Next(s, e))
    ensures SoleHolders(Next(s, e))
  {
    var s' := Next(s, e);
    var wk := s.workers[e.w];
    var verdict := VerdictOn(wk.config, wk.batch[e.i], e.outcome, e.cancelled);
    forall v, i | v in s'.workers && Outstanding(s'.workers[v], i) ensures RowAsClaimed(s', s'.workers[v], i) {
      OthersAfterFinish(s, s', e.w, e.i, wk.stopped || e.cancelled, v, i);
      assert RowAsClaimed(s, s.workers[v], i);
      WrittenFrame(s.rows, wk.batch[e.i].id, verdict, s.now, s.workers[v].batch[i].id);
    }
    forall u, v, id | u in Holders(s', id) && v in Holders(s', id) ensures u == v {
      HoldersAfterFinish(s, e, id);
    }
  }

  /** Events that give nobody anything new to hold, and leave pending rows alone. */
  lemma SoleFrame(s: System, s': System)
    requires SoleHolders(s) && AllInWaves(s')
    requires forall id :: id in s.rows && Pending(s.rows[id]) ==> id in s'.rows && s'.rows[id] == s.rows[id]
    requires forall w :: w in s'.workers ==> LeaseCovers(s'.workers[w].config)
    requires forall w, i :: w in s'.workers && Outstanding(s'.workers[w], i) ==>
               && w in s.workers && Outstanding(s.workers[w], i)
               && s.workers[w].batch == s'.workers[w].batch
               && s.workers[w].claimedAt == s'.workers[w].claimedAt
               && s.workers[w].config == s'.workers[w].config
    ensures SoleHolders(s')
  {
    forall w, i | w in s'.workers && Outstanding(s'.workers[w], i) ensures RowAsClaimed(s', s'.workers[w], i) {
      assert RowAsClaimed(s, s.workers[w], i);
    }
    forall id ensures Holders(s', id) <= Holders(s, id) {
      forall w | w in Holders(s', id) ensures w in Holders(s, id) {
        var i :| 0 <= i < |s'.workers[w].batch| && Outstanding(s'.workers[w], i) && s'.workers[w].batch[i].id == id;
        assert Outstanding(s.workers[w], i);
      }
    }
    forall w, v, id | w in Holders(s', id) && v in Holders(s', id) ensures w == v {
      assert w in Holders(s, id) && v in Holders(s, id);
    }
  }

  lemma SoleAfterSend(s: System, s': System, w: WorkerId)
    requires SoleHolders(s) && AllInWaves(s') && w in s.workers && s.workers[w].next < |s.workers[w].batch|
    requires s'.rows == s.rows
    requires var wk := s.workers[w];
             s'.workers == s.workers[w := wk.(next := wk.next + 1, live := wk.live[wk.next := s.now])]
    ensures SoleHolders(s')
  {
    SoleFrame(s, s');
  }

  lemma SoleAfterCrash(s: System, s': System, w: WorkerId)
    requires SoleHolders(s) && AllInWaves(s') && s'.rows == s.rows && s'.workers == s.workers - {w}
    ensures SoleHolders(s')
  {
    SoleFrame(s, s');
  }

  lemma SoleAfterDeploy(s: System, s': System, w: WorkerId, c: Config)
    requires SoleHolders(s) && AllInWaves(s') && s'.rows == s.rows && LeaseCovers(c)
    requires s'.workers == s.workers[w := Worker(c, s.now, [], 0, map[], false)]
    ensures SoleHolders(s')
  {
    SoleFrame(s, s');
  }

  /** Time passes, or rows that are not pending come and go. */
  lemma SoleAfterRows(s: System, s': System)
    requires SoleHolders(s) && AllInWaves(s') && s'.workers == s.workers
    requires forall id :: id in s.rows && Pending(s.rows[id]) ==> id in s'.rows && s'.rows[id] == s.rows[id]
    ensures SoleHolders(s')
  {
    SoleFrame(s, s');
  }

  /** Events of a batch. */
  lemma SoleBatchStep(s: System, e: Event)
    requires SoleHolders(s) && Enabled(s, e) && AllInWaves(Next(s, e)) && (e.Claim? || e.Send? || e.Finish?)
    ensures SoleHolders(Next(s, e))
  {
    match e
    case Claim(w, locked, messages) => SoleAfterClaim(s, w, locked, messages);
    case Finish(_, _, _, _, _) => SoleAfterFinish(s, e);
    case Send(w) => SoleAfterSend(s, AfterSend(s, w), w);
  }

  lemma SoleStep(s: System, e: Event)
    requires SoleHolders(s) && Punctual(s, e) && (e.Deploy? ==> LeaseCovers(e.config))
    ensures SoleHolders(Next(s, e))
  {
    WavesStep(s, e);
    if Enabled(s, e) {
      if e.Claim? || e.Send? || e.Finish? {
        SoleBatchStep(s, e);
      } else {
        SoleOtherStep(s, e);
      }
    }
  }

  lemma SoleOtherStep(s: System, e: Event)
    requires SoleHolders(s) && Enabled(s, e) && AllInWaves(Next(s, e)) && !e.Claim? && !e.Send? && !e.Finish?
    requires e.Deploy? ==> LeaseCovers(e.config)
    ensures SoleHolders(Next(s, e))
  {
    match e
    case Crash(w) => SoleAfterCrash(s, AfterCrash(s, w), w);
    case Deploy(w, config) => SoleAfterDeploy(s, Next(s, e), w, config);
    case Tick(time) => SoleAfterRows(s, s.(now := time));
    case Enqueue(_, _, _, _) => SoleAfterRows(s, Next(s, e));
    case Cleanup(_) => SoleAfterRows(s, Next(s, e));
  }

  lemma {:induction false} AlwaysSole(es: seq<Event>)
    requires OnTime(es) && Covered(es)
    ensures SoleHolders(After(INIT, es))
  {
    if es != [] {
      var init := es[..|es| - 1];
      AlwaysSole(init);
      SoleStep(After(INIT, init), es[|es| - 1]);
    }
  }

  // ---- Exclusive sends ----

  /** Two different Send calls for the id are running. */
  ghost predicate TwoSends(s: System, id: Id) {
    exists w, i, v, j ::
      && IsSending(s, w, i, id) && IsSending(s, v, j, id)
      && (w != v || i != j)
  }

  predicate IsSending(s: System, w: WorkerId, i: nat, id: Id) {
    w in s.workers && i in s.workers[w].live && i < |s.workers[w].batch| && s.workers[w].batch[i].id == id
  }

  lemma SendingHolds(s: System, w: WorkerId, i: nat, id: Id)
    requires IsSending(s, w, i, id)
    ensures w in Holders(s, id)
  {
    assert Outstanding(s.workers[w], i);
  }

  lemma SoleHolderSendsOnce(s: System, id: Id)
    requires WellFormed(s) && forall w, v :: w in Holders(s, id) && v in Holders(s, id) ==> w == v
    ensures !TwoSends(s, id)
    ensures |Holders(s, id)| <= 1
  {
    if TwoSends(s, id) {
      var w, i: nat, v, j: nat :| IsSending(s, w, i, id) && IsSending(s, v, j, id) && (w != v || i != j);
      SendingHolds(s, w, i, id);
      SendingHolds(s, v, j, id);
      assert false;
    }
    if Holders(s, id) != {} {
      var w :| w in Holders(s, id);
      assert Holders(s, id) == {w};
    }
  }

  /** No two Send calls for the same id are ever running at once, on any number of replicas. */
  lemma LeaseExclusivity(es: seq<Event>, id: Id)
    requires OnTime(es) && Covered(es)
    ensures !TwoSends(After(INIT, es), id)
    ensures |Holders(After(INIT, es), id)| <= 1
  {
    AlwaysSole(es);
    SoleHolderSendsOnce(After(INIT, es), id);
  }

  // ---- Failed rows, and what deliver reports ----

  /** A failed row keeps failed_at as it is until it is purged, although Retry may write NULL there. */
  lemma FailedIsAbsorbing(es: seq<Event>, e: Event, id: Id)
    requires OnTime(es) && Covered(es) && IsFailed(After(INIT, es), id)
    ensures var s, s' := After(INIT, es), Next(After(INIT, es), e);
            id in s'.rows ==> IsFailed(s', id) && s'.rows[id].failedAt == s.rows[id].failedAt
  {
    AlwaysSole(es);
    var s := After(INIT, es);
    if e.Finish? && Enabled(s, e) {
      assert Outstanding(s.workers[e.w], e.i);
      var wk := s.workers[e.w];
      WrittenFrame(s.rows, wk.batch[e.i].id, VerdictOn(wk.config, wk.batch[e.i], e.outcome, e.cancelled), s.now, id);
    }
  }

  /** When the write of a Retry succeeds, deliver reports giving up exactly when the statement fails the row. */
  lemma WorkerAndRowAgree(es: seq<Event>, e: Event)
    requires OnTime(es) && Covered(es) && e.Finish? && e.written && Enabled(After(INIT, es), e)
    requires var wk := After(INIT, es).workers[e.w];
             VerdictOn(wk.config, wk.batch[e.i], e.outcome, e.cancelled).Retry?
    ensures var s := After(INIT, es);
            var m := s.workers[e.w].batch[e.i];
            && m.id in Next(s, e).rows
            && (GaveUp(m) <==> IsFailed(Next(s, e), m.id))
  {
    AlwaysSole(es);
    assert Outstanding(After(INIT, es).workers[e.w], e.i);
  }
}
