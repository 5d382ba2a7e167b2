/** No enqueued message disappears unsent, except by the retention cleanup of long-failed rows. */
module OutboxLoss {
  import opened Durations
  import opened OutboxTable
  import opened OutboxSystem
  import opened OutboxAccounting

  ghost predicate IsFailed(s: System, id: Id) {
    id in s.rows && s.rows[id].failedAt.Some?
  }

  /** The state of the run after its first n events. */
  ghost function At(es: seq<Event>, n: nat): System
    requires n <= |es|
  {
    After(INIT, es[..n])
  }

  /** The states of a prefix are states of the run. */
  lemma AtPrefix(init: seq<Event>, es: seq<Event>)
    requires init <= es
    ensures forall n :: 0 <= n <= |init| ==> At(init, n) == At(es, n)
    ensures At(es, |es|) == After(INIT, es)
    ensures At(es, |init|) == After(INIT, init)
  {
    assert es[..|es|] == es;
    forall n | 0 <= n <= |init| ensures init[..n] == es[..n] {
    }
  }

  /** Failed in every state from the j-th to the k-th. */
  ghost predicate FailedThroughout(es: seq<Event>, id: Id, j: nat, k: nat)
    requires j <= k <= |es|
  {
    forall n :: j <= n <= k ==> IsFailed(At(es, n), id)
  }

  /** Some cleanup removed the row after it had been failed without a break for longer than the retention. */
  ghost predicate PurgedAfterRetention(es: seq<Event>, id: Id) {
    exists j, k :: 0 <= j <= k < |es| && PurgedAt(es, id, j, k)
  }

  ghost predicate PurgedAt(es: seq<Event>, id: Id, j: nat, k: nat)
    requires j <= k < |es|
  {
    var s, e := At(es, k), es[k];
    && FailedThroughout(es, id, j, k)
    && e.Cleanup? && e.w in s.workers
    && s.now - At(es, j).now > Stored(s.workers[e.w].config.failedRetention)
    && id !in At(es, k + 1).rows
  }

  lemma FailedExtends(init: seq<Event>, es: seq<Event>, id: Id, j: nat)
    requires init <= es && |es| == |init| + 1 && j <= |init|
    requires FailedThroughout(init, id, j, |init|) && IsFailed(After(INIT, es), id)
    ensures FailedThroughout(es, id, j, |es|)
  {
    AtPrefix(init, es);
    forall n | j <= n <= |es| ensures IsFailed(At(es, n), id) {
      if n < |es| {
        assert At(init, n) == At(es, n);
      }
    }
  }

  /** One event sets failed_at to now, or leaves it. */
  lemma FailedAtMoves(s: System, e: Event, id: Id)
    requires IsFailed(Next(s, e), id)
    ensures s.now <= Next(s, e).now
    ensures var at := Next(s, e).rows[id].failedAt.value;
            || at == Next(s, e).now == s.now
            || (IsFailed(s, id) && at == s.rows[id].failedAt.value)
  {
  }

  /** failed_at may be reset by a stale Retry, but only to a later time: the row failed no later than it says. */
  lemma {:induction false} FailedSince(es: seq<Event>, id: Id) returns (j: nat)
    requires IsFailed(After(INIT, es), id)
    ensures j <= |es| && FailedThroughout(es, id, j, |es|)
    ensures At(es, j).now <= After(INIT, es).rows[id].failedAt.value <= After(INIT, es).now
  {
    var init := es[..|es| - 1];
    AtPrefix(init, es);
    FailedAtMoves(After(INIT, init), es[|es| - 1], id);
    if IsFailed(After(INIT, init), id) {
      j := FailedSince(init, id);
      FailedExtends(init, es, id, j);
    } else {
      j := |es|;
    }
  }

  lemma {:induction false} PurgedAtExtends(init: seq<Event>, es: seq<Event>, id: Id)
    requires init <= es && PurgedAfterRetention(init, id)
    ensures PurgedAfterRetention(es, id)
  {
    var j, k :| 0 <= j <= k < |init| && PurgedAt(init, id, j, k);
    AtPrefix(init, es);
    assert At(es, k + 1) == At(init, k + 1);
    forall n | j <= n <= k ensures IsFailed(At(es, n), id) {
      assert At(init, n) == At(es, n);
    }
    assert PurgedAt(es, id, j, k);
  }

  /** A row disappears in one step only with a successful Send behind it, or past its retention. */
  lemma RowGone(s: System, e: Event, id: Id)
    requires id in s.rows && id in s.past && id !in Next(s, e).rows
    ensures || Next(s, e).past[id].sent > s.past[id].sent
            || (e.Cleanup? && e.w in s.workers && Expired(s.rows[id], s.now, Stored(s.workers[e.w].config.failedRetention)))
  {
  }

  /**
   In every reachable state each enqueued id is still in the table, or was sent successfully, or was
   purged after staying failed without a break for longer than the stored retention.
   */
  lemma {:induction false} NoMessageLost(es: seq<Event>, id: Id)
    requires id in After(INIT, es).past
    ensures || id in After(INIT, es).rows
            || After(INIT, es).past[id].sent >= 1
            || PurgedAfterRetention(es, id)
  {
    var init := es[..|es| - 1];
    var s, e := After(INIT, init), es[|es| - 1];
    if id in s.past {
      NoMessageLost(init, id);
      HistoryGrows(s, e, id);
      if PurgedAfterRetention(init, id) {
        PurgedAtExtends(init, es, id);
      } else if id in s.rows && id !in After(INIT, es).rows && After(INIT, es).past[id].sent == 0 {
        RowGone(s, e, id);
        var j := FailedSince(init, id);
        AtPrefix(init, es);
        assert At(es, |init| + 1) == After(INIT, es);
        forall n | j <= n <= |init| ensures IsFailed(At(es, n), id) {
          assert At(init, n) == At(es, n);
        }
        assert PurgedAt(es, id, j, |init|);
      }
    }
  }

  // ---- The message itself ----

  /** Every message a replica holds carries what was enqueued under its id. */
  ghost predicate Faithful(s: System) {
    forall w, i :: w in s.workers && 0 <= i < |s.workers[w].batch| ==>
      var m := s.workers[w].batch[i];
      m.id in s.past && m.job == s.past[m.id].job && m.maxAttempts == s.past[m.id].budget
  }

  lemma {:induction false} SendsCarryTheJob(es: seq<Event>)
    ensures Faithful(After(INIT, es))
  {
    if es != [] {
      var init := es[..|es| - 1];
      var s, e := After(INIT, init), es[|es| - 1];
      SendsCarryTheJob(init);
      forall id ensures Accounted(s, id) {
        AlwaysAccounted(init, id);
      }
      if e.Claim? && Enabled(s, e) {
        FaithfulClaim(s, e.w, e.locked, e.messages);
      } else {
        FaithfulFrame(s, e);
      }
    }
  }

  lemma FaithfulClaim(s: System, w: WorkerId, locked: set<Id>, messages: seq<Message>)
    requires ClaimEnabled(s, w, locked, messages) && Faithful(s) && forall id :: Accounted(s, id)
    ensures Faithful(AfterClaim(s, w, messages))
  {
    forall i | 0 <= i < |messages|
      ensures var m := messages[i]; m.id in s.past && m.job == s.past[m.id].job && m.maxAttempts == s.past[m.id].budget
    {
      assert Accounted(s, messages[i].id);
    }
  }

  lemma FaithfulFrame(s: System, e: Event)
    requires Faithful(s) && !(e.Claim? && Enabled(s, e))
    ensures Faithful(Next(s, e))
  {
    forall id | id in s.past
      ensures id in Next(s, e).past && Next(s, e).past[id].job == s.past[id].job && Next(s, e).past[id].budget == s.past[id].budget
    {
      HistoryGrows(s, e, id);
    }
    forall w | w in Next(s, e).workers
      ensures Next(s, e).workers[w].batch == (if w in s.workers then s.workers[w].batch else [])
    {
    }
  }
}
