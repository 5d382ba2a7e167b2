/** Where every claim and every attempt goes, over all interleavings, stale holders included. */
module OutboxAccounting {
  import opened OutboxTable
  import opened OutboxSystem

  /** Conservation of claims and of attempts, and the attempt budget, for one id. */
  ghost predicate Accounted(s: System, id: Id) {
    && (id in s.rows || Holders(s, id) != {} ==> id in s.past)
    && (id in s.past ==>
          var h := s.past[id];
          && h.claims == h.settled + h.defers + h.dropped + |Holders(s, id)|
          && h.sends + |Waiting(s, id)| <= h.claims
          && (id in s.rows ==>
                var row := s.rows[id];
                && row.job == h.job && row.maxAttempts == h.budget
                && row.attempts == h.claims - h.defers
                && (Pending(row) ==> row.attempts < h.budget + h.dropped + |Holders(s, id)|)))
  }

  /** The budget of a row after its holder's verdict, `holders` of them before it. */
  lemma BudgetAfterVerdict(rows: Table, id: Id, verdict: Verdict, now: int, h: History, holders: nat, outcome: Outcome, written: bool)
    requires id in rows && holders >= 1
    requires h.claims == h.settled + h.defers + h.dropped + holders
    requires rows[id].attempts == h.claims - h.defers && rows[id].maxAttempts == h.budget
    requires Pending(rows[id]) ==> rows[id].attempts < h.budget + h.dropped + holders
    ensures var rows' := if written then Written(rows, id, verdict, now) else rows;
            var h' := Tally(h, outcome, verdict, written);
            && h'.claims == h'.settled + h'.defers + h'.dropped + (holders - 1)
            && (id in rows' ==>
                  && rows'[id].job == rows[id].job && rows'[id].maxAttempts == h'.budget
                  && rows'[id].attempts == h'.claims - h'.defers
                  && (Pending(rows'[id]) ==> rows'[id].attempts < h'.budget + h'.dropped + (holders - 1)))
  {
  }

  /** The holder's own id... */
  lemma AccountedOwnVerdict(s: System, s': System, e: Event, id: Id)
    requires e.Finish? && WellFormed(s) && Enabled(s, e) && Accounted(s, id) && id == s.workers[e.w].batch[e.i].id
    requires s' == AfterFinish(s, e.w, e.i, e.outcome, e.cancelled, e.written)
    requires e.w in Holders(s, id) && Holders(s', id) == Holders(s, id) - {e.w} && Waiting(s', id) == Waiting(s, id)
    ensures Accounted(s', id)
  {
    var wk := s.workers[e.w];
    var verdict := VerdictOn(wk.config, wk.batch[e.i], e.outcome, e.cancelled);
    assert |Holders(s', id)| == |Holders(s, id)| - 1;
    if id in s.rows {
      BudgetAfterVerdict(s.rows, id, verdict, s.now, s.past[id], |Holders(s, id)|, e.outcome, e.written);
    }
  }

  /** ... and any other. */
  lemma AccountedOtherVerdict(s: System, s': System, e: Event, id: Id)
    requires e.Finish? && Enabled(s, e) && Accounted(s, id) && id != s.workers[e.w].batch[e.i].id
    requires s' == AfterFinish(s, e.w, e.i, e.outcome, e.cancelled, e.written)
    requires Holders(s', id) == Holders(s, id) && Waiting(s', id) == Waiting(s, id)
    ensures Accounted(s', id)
  {
    var wk := s.workers[e.w];
    var m := wk.batch[e.i];
    WrittenFrame(s.rows, m.id, VerdictOn(wk.config, m, e.outcome, e.cancelled), s.now, id);
  }

  lemma AccountedAfterFinish(s: System, e: Event, id: Id)
    requires e.Finish? && WellFormed(s) && Enabled(s, e) && Accounted(s, id)
    ensures Accounted(Next(s, e), id)
  {
    var s' := Next(s, e);
    HoldersAfterFinish(s, e, id);
    if id == s.workers[e.w].batch[e.i].id {
      AccountedOwnVerdict(s, s', e, id);
    } else {
      AccountedOtherVerdict(s, s', e, id);
    }
  }

  lemma AccountedAfterClaim(s: System, w: WorkerId, locked: set<Id>, messages: seq<Message>, id: Id)
    requires ClaimEnabled(s, w, locked, messages) && Accounted(s, id)
    ensures Accounted(AfterClaim(s, w, messages), id)
  {
    HoldersAfterClaim(s, w, locked, messages, id);
  }

  lemma AccountedAfterCrash(s: System, w: WorkerId, id: Id)
    requires w in s.workers && Accounted(s, id)
    ensures Accounted(AfterCrash(s, w), id)
  {
    HoldersAfterCrash(s, w, id);
  }

  lemma AccountedAfterSend(s: System, w: WorkerId, id: Id)
    requires WellFormed(s) && Enabled(s, Event.Send(w)) && Accounted(s, id)
    ensures Accounted(AfterSend(s, w), id)
  {
    HoldersAfterSend(s, w, id);
  }

  /** Events that leave the batches alone, and the id's row either alone or deleted. */
  lemma AccountedFrame(s: System, s': System, id: Id)
    requires forall w :: w in s.workers ==> w in s'.workers && s'.workers[w] == s.workers[w]
    requires forall w :: w in s'.workers && w !in s.workers ==> s'.workers[w].batch == []
    requires id in s'.rows ==> id in s.rows && s'.rows[id] == s.rows[id]
    requires id in s'.past <==> id in s.past
    requires id in s.past ==> s'.past[id] == s.past[id]
    requires Accounted(s, id)
    ensures Accounted(s', id)
  {
    assert Holders(s', id) == Holders(s, id) && Waiting(s', id) == Waiting(s, id);
  }

  lemma AccountedAfterEnqueue(s: System, e: Event, id: Id)
    requires e.Enqueue? && Enabled(s, e) && Accounted(s, id)
    ensures Accounted(Next(s, e), id)
  {
    var s' := Next(s, e);
    assert Holders(s', id) == Holders(s, id) && Waiting(s', id) == Waiting(s, id);
    WaitersHold(s, id);
  }

  lemma AccountedStep(s: System, e: Event, id: Id)
    requires WellFormed(s) && Accounted(s, id)
    ensures Accounted(Next(s, e), id)
  {
    if Enabled(s, e) {
      match e
      case Crash(w) => AccountedAfterCrash(s, w, id);
      case Claim(w, locked, messages) => AccountedAfterClaim(s, w, locked, messages, id);
      case Send(w) => AccountedAfterSend(s, w, id);
      case Finish(_, _, _, _, _) => AccountedAfterFinish(s, e, id);
      case Enqueue(_, _, _, _) => AccountedAfterEnqueue(s, e, id);
      case _ => AccountedFrame(s, Next(s, e), id);
    }
  }

  /**
   Every run, any interleaving: a live row's attempts are its claims minus its applied defers, every
   claim ended exactly one way or is outstanding, and a pending row is within its attempt budget.
   */
  lemma {:induction false} AlwaysAccounted(es: seq<Event>, id: Id)
    ensures Accounted(After(INIT, es), id)
  {
    if es == [] {
      assert Holders(INIT, id) == {};
    } else {
      AlwaysAccounted(es[..|es| - 1], id);
      AlwaysWellFormed(es[..|es| - 1]);
      AccountedStep(After(INIT, es[..|es| - 1]), es[|es| - 1], id);
    }
  }

  /** A verdict about a row that is still there finds at least one attempt to give back. */
  lemma ClampNeverActs(es: seq<Event>, e: Event)
    requires var s := After(INIT, es);
             e.Finish? && Enabled(s, e) && s.workers[e.w].batch[e.i].id in s.rows
    ensures var s := After(INIT, es);
            var id := s.workers[e.w].batch[e.i].id;
            && s.rows[id].attempts >= 1
            && forall delay :: Deferred(s.rows, id, s.now, delay)[id].attempts == s.rows[id].attempts - 1
  {
    var s := After(INIT, es);
    var id := s.workers[e.w].batch[e.i].id;
    AlwaysWellFormed(es);
    AlwaysAccounted(es, id);
    HoldersAfterFinish(s, e, id);
    assert |Holders(s, id)| >= 1;
  }

  /** The counters of an id never go back, and its budget is fixed when it is enqueued. */
  lemma HistoryGrows(s: System, e: Event, id: Id)
    requires id in s.past
    ensures var s' := Next(s, e);
            && id in s'.past
            && s'.past[id].budget == s.past[id].budget && s'.past[id].job == s.past[id].job
            && s'.past[id].defers >= s.past[id].defers && s'.past[id].dropped >= s.past[id].dropped
            && s'.past[id].sent >= s.past[id].sent
            && s'.past[id].claims == s.past[id].claims + (if e.Claim? && Enabled(s, e) && id in IdsOf(e.messages) then 1 else 0)
  {
  }

  lemma ClaimedStaysPending(s: System, e: Event, id: Id)
    requires e.Claim? && Enabled(s, e) && id in IdsOf(e.messages)
    ensures id in Next(s, e).rows && Pending(Next(s, e).rows[id])
  {
  }

  /**
   The attempt budget as a bound on Send calls, whatever happens to the row afterwards: with at most k
   replicas holding the id at any time, it is sent at most max_attempts times plus one for every dropped
   claim, every defer and every further simultaneous holder.
   */
  lemma {:induction false} SendsWithinBudget(es: seq<Event>, id: Id, k: nat)
    requires k >= 1 && id in After(INIT, es).past
    requires forall n :: 0 <= n <= |es| ==> |Holders(After(INIT, es[..n]), id)| <= k
    ensures var h := After(INIT, es).past[id];
            h.sends <= h.claims <= h.budget + h.dropped + h.defers + (k - 1)
  {
    var init := es[..|es| - 1];
    var s, e := After(INIT, init), es[|es| - 1];
    assert es[..|es|] == es;
    AlwaysAccounted(es, id);
    AlwaysAccounted(init, id);
    if id in s.past {
      HistoryGrows(s, e, id);
      assert forall n :: 0 <= n <= |init| ==> init[..n] == es[..n];
      SendsWithinBudget(init, id, k);
      if e.Claim? && Enabled(s, e) && id in IdsOf(e.messages) {
        ClaimedStaysPending(s, e, id);
      }
    }
  }

  /** A message never dropped, deferred or doubly held is sent at most max_attempts times. */
  lemma SentAtMostMaxAttempts(es: seq<Event>, id: Id)
    requires id in After(INIT, es).past
    requires forall n :: 0 <= n <= |es| ==> |Holders(After(INIT, es[..n]), id)| <= 1
    requires After(INIT, es).past[id].dropped == 0 && After(INIT, es).past[id].defers == 0
    ensures After(INIT, es).past[id].sends <= After(INIT, es).past[id].budget
  {
    SendsWithinBudget(es, id, 1);
  }
}
