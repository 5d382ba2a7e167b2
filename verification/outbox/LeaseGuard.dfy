/** Suitable leases keep Sends apart in every punctual run, whatever configurations the replicas mix. */
module OutboxLeaseGuard {
  import opened Durations
  import opened Wrappers
  import opened OutboxConfig
  import opened OutboxTable
  import opened OutboxSystem
  import opened OutboxSchedule
  import opened OutboxAccounting
  import opened OutboxLease
  import opened OutboxLeaseBoundary

  /** The attempts a batch's message about this id has seen. */
  function Seen(batch: seq<Message>, id: Id): int {
    if batch == [] then 0
    else if batch[|batch| - 1].id == id then batch[|batch| - 1].attempts
    else Seen(batch[..|batch| - 1], id)
  }

  lemma {:induction false} SeenIs(batch: seq<Message>, i: nat)
    requires i < |batch| && forall j, k :: 0 <= j < k < |batch| ==> batch[j].id != batch[k].id
    ensures Seen(batch, batch[i].id) == batch[i].attempts
    decreases batch
  {
    if i < |batch| - 1 {
      SeenIs(batch[..|batch| - 1], i);
    }
  }

  function ClaimantOf(wk: Worker, id: Id): Claimant {
    Claimant(wk.config, wk.claimedAt, Seen(wk.batch, id))
  }

  function RowOf(rows: Table, id: Id): Option<Live> {
    if id in rows && Pending(rows[id]) then Some(Live(rows[id].nextAttemptAt, rows[id].attempts)) else None
  }

  ghost predicate HolderGuarded(s: System, cs: set<Config>, w: WorkerId, id: Id)
    requires Suited(cs)
  {
    w in Holders(s, id) ==> id in s.past && Secure(cs, ClaimantOf(s.workers[w], id), RowOf(s.rows, id), s.now)
  }

  ghost predicate PairGuarded(s: System, cs: set<Config>, w: WorkerId, v: WorkerId, id: Id)
    requires Suited(cs) && forall w :: w in s.workers ==> s.workers[w].config in cs
  {
    w in Holders(s, id) && v in Holders(s, id) && w != v ==>
      Meet(cs, ClaimantOf(s.workers[w], id), ClaimantOf(s.workers[v], id), RowOf(s.rows, id), s.now)
  }

  ghost predicate Guarded(s: System, cs: set<Config>)
    requires Suited(cs)
  {
    && WellFormed(s)
    && (forall w :: w in s.workers ==> s.workers[w].config in cs)
    && (forall w, id :: HolderGuarded(s, cs, w, id))
    && (forall w, v, id :: PairGuarded(s, cs, w, v, id))
  }

  // ---- Verdicts ----

  /** A verdict about a pending row deletes or fails it, leaves it, or moves it by one of the holder's pauses. */
  lemma VerdictAnswers(rows: Table, c: Config, m: Message, outcome: Outcome, cancelled: bool, now: int, u: Claimant)
    requires RowOf(rows, m.id).Some? && u.config == c && u.attempts == m.attempts
    ensures Answered(u, RowOf(rows, m.id).value,
                     RowOf(Written(rows, m.id, VerdictOn(c, m, outcome, cancelled), now), m.id), now)
  {
    var row, verdict := RowOf(rows, m.id).value, VerdictOn(c, m, outcome, cancelled);
    var row' := RowOf(Written(rows, m.id, verdict, now), m.id);
    if verdict.Defer? || verdict.Retry? {
      var pause := Stored(verdict.delay);
      assert CanStore(u, pause);
      if row'.Some? {
        assert Moved(row, row', now + pause);
      }
    }
  }

  lemma FinishKeepsHolder(s: System, cs: set<Config>, e: Event, u: WorkerId, id: Id)
    requires Suited(cs) && WellFormed(s) && e.Finish? && Enabled(s, e)
    requires forall w :: w in s.workers ==> s.workers[w].config in cs
    requires HolderGuarded(s, cs, u, id) && HolderGuarded(s, cs, e.w, id) && PairGuarded(s, cs, e.w, u, id)
    ensures HolderGuarded(Next(s, e), cs, u, id)
  {
    var s', wk := AfterFinish(s, e.w, e.i, e.outcome, e.cancelled, e.written), s.workers[e.w];
    var m := wk.batch[e.i];
    HoldersAfterFinish(s, e, id);
    if u in Holders(s', id) {
      assert ClaimantOf(s'.workers[u], id) == ClaimantOf(s.workers[u], id);
      if id != m.id {
        WrittenFrame(s.rows, m.id, VerdictOn(wk.config, m, e.outcome, e.cancelled), s.now, id);
      } else if e.written {
        SeenIs(wk.batch, e.i);
        var mine, other := ClaimantOf(wk, id), ClaimantOf(s.workers[u], id);
        VerdictAnswers(s.rows, wk.config, m, e.outcome, e.cancelled, s.now, mine);
        SecureAfterVerdict(cs, mine, other, RowOf(s.rows, id).value, RowOf(s'.rows, id), s.now);
      }
    }
  }

  lemma FinishKeepsPair(s: System, cs: set<Config>, e: Event, u: WorkerId, v: WorkerId, id: Id)
    requires Suited(cs) && WellFormed(s) && e.Finish? && Enabled(s, e)
    requires forall w :: w in s.workers ==> s.workers[w].config in cs
    requires forall w :: w in Next(s, e).workers ==> Next(s, e).workers[w].config in cs
    requires PairGuarded(s, cs, u, v, id) && PairGuarded(s, cs, e.w, u, id) && PairGuarded(s, cs, e.w, v, id)
    ensures PairGuarded(Next(s, e), cs, u, v, id)
  {
    var s', wk := AfterFinish(s, e.w, e.i, e.outcome, e.cancelled, e.written), s.workers[e.w];
    var m := wk.batch[e.i];
    HoldersAfterFinish(s, e, id);
    if u in Holders(s', id) && v in Holders(s', id) && u != v {
      assert ClaimantOf(s'.workers[u], id) == ClaimantOf(s.workers[u], id);
      assert ClaimantOf(s'.workers[v], id) == ClaimantOf(s.workers[v], id);
      if id == m.id {
        ThreeNeverMeet(cs, ClaimantOf(wk, id), ClaimantOf(s.workers[u], id), ClaimantOf(s.workers[v], id), RowOf(s.rows, id), s.now);
        assert false;
      } else {
        WrittenFrame(s.rows, m.id, VerdictOn(wk.config, m, e.outcome, e.cancelled), s.now, id);
      }
    }
  }

  /** Of two that meet one is at its end and the other at its start, so no third meets both. */
  lemma ThreeNeverMeet(cs: set<Config>, a: Claimant, b: Claimant, c: Claimant, row: Option<Live>, now: int)
    requires Suited(cs) && a.config in cs && b.config in cs && c.config in cs
    ensures !(Meet(cs, a, b, row, now) && Meet(cs, a, c, row, now) && Meet(cs, b, c, row, now))
  {
    HoldPositive(a.config);
    HoldPositive(b.config);
    HoldPositive(c.config);
  }

  // ---- Claims ----

  /** What a claim makes of one id. */
  lemma ClaimView(s: System, w: WorkerId, locked: set<Id>, messages: seq<Message>, id: Id)
    requires ClaimEnabled(s, w, locked, messages) && WellFormed(s)
    ensures var s' := AfterClaim(s, w, messages);
            && (id in IdsOf(messages) ==>
                  && id in s.rows && Pending(s.rows[id]) && s.rows[id].nextAttemptAt <= s.now
                  && RowOf(s'.rows, id) == Some(Live(s.now + Lease(s.workers[w].config), s.rows[id].attempts + 1))
                  && ClaimantOf(s'.workers[w], id) == Claimant(s.workers[w].config, s.now, s.rows[id].attempts + 1))
            && (id !in IdsOf(messages) ==> RowOf(s'.rows, id) == RowOf(s.rows, id))
  {
    if id in IdsOf(messages) {
      WellFormedClaim(s, w, locked, messages);
      var i :| 0 <= i < |messages| && messages[i].id == id;
      SeenIs(messages, i);
    }
  }

  /** The new holder. */
  lemma NewHolder(s: System, cs: set<Config>, e: Event, id: Id)
    requires Suited(cs) && WellFormed(s) && e.Claim? && Enabled(s, e) && s.workers[e.w].config in cs
    requires id in IdsOf(e.messages) && id in s.past && (id in s.rows ==> s.rows[id].attempts >= 0)
    ensures HolderGuarded(AfterClaim(s, e.w, e.messages), cs, e.w, id)
  {
    ClaimView(s, e.w, e.locked, e.messages, id);
    SecureClaimant(cs, ClaimantOf(AfterClaim(s, e.w, e.messages).workers[e.w], id), s.rows[id].attempts, s.now);
  }

  /** An old holder beside the new one. */
  lemma OldHolder(s: System, cs: set<Config>, e: Event, u: WorkerId, id: Id)
    requires Suited(cs) && WellFormed(s) && e.Claim? && Enabled(s, e) && s.workers[e.w].config in cs
    requires u in Holders(s, id) && u != e.w && HolderGuarded(s, cs, u, id)
    ensures var s' := AfterClaim(s, e.w, e.messages);
            && s'.workers[u] == s.workers[u] && HolderGuarded(s', cs, u, id)
            && (id in IdsOf(e.messages) ==>
                  Succeeds(cs, ClaimantOf(s'.workers[u], id), ClaimantOf(s'.workers[e.w], id), RowOf(s'.rows, id), s.now))
  {
    ClaimView(s, e.w, e.locked, e.messages, id);
    if id in IdsOf(e.messages) {
      var claimant := ClaimantOf(AfterClaim(s, e.w, e.messages).workers[e.w], id);
      SecureAfterClaim(cs, ClaimantOf(s.workers[u], id), claimant, RowOf(s.rows, id).value, s.now);
    }
  }

  lemma ClaimKeepsHolder(s: System, cs: set<Config>, e: Event, u: WorkerId, id: Id)
    requires Suited(cs) && WellFormed(s) && e.Claim? && Enabled(s, e) && s.workers[e.w].config in cs
    requires HolderGuarded(s, cs, u, id)
    requires id in s.rows ==> id in s.past && s.rows[id].attempts >= 0
    ensures HolderGuarded(Next(s, e), cs, u, id)
  {
    HoldersAfterClaim(s, e.w, e.locked, e.messages, id);
    if u in Holders(s, id) {
      OldHolder(s, cs, e, u, id);
    } else if u == e.w && id in IdsOf(e.messages) {
      NewHolder(s, cs, e, id);
    }
  }

  lemma ClaimKeepsPair(s: System, cs: set<Config>, e: Event, u: WorkerId, v: WorkerId, id: Id)
    requires Suited(cs) && WellFormed(s) && e.Claim? && Enabled(s, e)
    requires forall w :: w in s.workers ==> s.workers[w].config in cs
    requires forall w :: w in Next(s, e).workers ==> Next(s, e).workers[w].config in cs
    requires HolderGuarded(s, cs, u, id) && HolderGuarded(s, cs, v, id) && PairGuarded(s, cs, u, v, id)
    ensures PairGuarded(Next(s, e), cs, u, v, id)
  {
    HoldersAfterClaim(s, e.w, e.locked, e.messages, id);
    if u in Holders(s, id) {
      OldHolder(s, cs, e, u, id);
    }
    if v in Holders(s, id) {
      OldHolder(s, cs, e, v, id);
    }
    if u in Holders(s, id) && v in Holders(s, id) && u != v {
      OldPair(s, cs, e, u, v, id);
    }
  }

  /** Two old holders are not both at their end, so no claim finds them. */
  lemma OldPair(s: System, cs: set<Config>, e: Event, u: WorkerId, v: WorkerId, id: Id)
    requires Suited(cs) && WellFormed(s) && e.Claim? && Enabled(s, e)
    requires forall w :: w in s.workers ==> s.workers[w].config in cs
    requires u in Holders(s, id) && v in Holders(s, id) && u != v && u != e.w && v != e.w
    requires HolderGuarded(s, cs, u, id) && HolderGuarded(s, cs, v, id) && PairGuarded(s, cs, u, v, id)
    ensures id !in IdsOf(e.messages) && RowOf(AfterClaim(s, e.w, e.messages).rows, id) == RowOf(s.rows, id)
  {
    ClaimView(s, e.w, e.locked, e.messages, id);
    HoldPositive(s.workers[u].config);
    HoldPositive(s.workers[v].config);
  }

  // ---- Everything else ----

  /** Any other event changes no batch, except by emptying or starting it, and no pending row of a held id. */
  lemma QuietEvents(s: System, e: Event, id: Id)
    requires WellFormed(s) && Enabled(s, e) && !e.Claim? && !e.Finish?
    ensures Holders(Next(s, e), id) <= Holders(s, id)
    ensures forall w :: w in Holders(Next(s, e), id) ==> ClaimantOf(Next(s, e).workers[w], id) == ClaimantOf(s.workers[w], id)
    ensures id in s.past ==> id in Next(s, e).past && RowOf(Next(s, e).rows, id) == RowOf(s.rows, id)
    ensures s.now <= Next(s, e).now
  {
    match e
    case Send(w) => HoldersAfterSend(s, w, id);
    case Crash(w) => HoldersAfterCrash(s, w, id);
    case _ =>
  }

  lemma HoldersInHold(s: System, w: WorkerId, id: Id)
    requires AllInWaves(s) && w in Holders(s, id)
    ensures s.now <= End(ClaimantOf(s.workers[w], id))
  {
    var i :| 0 <= i < |s.workers[w].batch| && Outstanding(s.workers[w], i) && s.workers[w].batch[i].id == id;
    HeldWithinHold(s.workers[w], s.now, i);
  }

  lemma QuietKeepsHolder(s: System, cs: set<Config>, e: Event, u: WorkerId, id: Id)
    requires Suited(cs) && WellFormed(s) && Enabled(s, e) && !e.Claim? && !e.Finish?
    requires HolderGuarded(s, cs, u, id) && AllInWaves(Next(s, e))
    ensures HolderGuarded(Next(s, e), cs, u, id)
  {
    QuietEvents(s, e, id);
    if u in Holders(Next(s, e), id) {
      HoldersInHold(Next(s, e), u, id);
    }
  }

  lemma QuietKeepsPair(s: System, cs: set<Config>, e: Event, u: WorkerId, v: WorkerId, id: Id)
    requires Suited(cs) && WellFormed(s) && Enabled(s, e) && !e.Claim? && !e.Finish?
    requires forall w :: w in s.workers ==> s.workers[w].config in cs
    requires forall w :: w in Next(s, e).workers ==> Next(s, e).workers[w].config in cs
    requires HolderGuarded(s, cs, u, id) && PairGuarded(s, cs, u, v, id) && AllInWaves(Next(s, e))
    ensures PairGuarded(Next(s, e), cs, u, v, id)
  {
    QuietEvents(s, e, id);
    if u in Holders(Next(s, e), id) && v in Holders(Next(s, e), id) && u != v {
      HoldersInHold(Next(s, e), u, id);
      HoldersInHold(Next(s, e), v, id);
    }
  }

  // ---- Every run ----

  lemma ConfigsStay(s: System, cs: set<Config>, e: Event)
    requires (forall w :: w in s.workers ==> s.workers[w].config in cs) && (e.Deploy? ==> e.config in cs)
    ensures forall w :: w in Next(s, e).workers ==> Next(s, e).workers[w].config in cs
  {
  }

  lemma HolderStep(s: System, cs: set<Config>, e: Event, u: WorkerId, id: Id)
    requires Suited(cs) && Guarded(s, cs) && Enabled(s, e) && AllInWaves(Next(s, e))
    requires id in s.rows ==> id in s.past && s.rows[id].attempts >= 0
    ensures HolderGuarded(Next(s, e), cs, u, id)
  {
    assert HolderGuarded(s, cs, u, id);
    if e.Claim? {
      ClaimKeepsHolder(s, cs, e, u, id);
    } else if e.Finish? {
      assert HolderGuarded(s, cs, e.w, id) && PairGuarded(s, cs, e.w, u, id);
      FinishKeepsHolder(s, cs, e, u, id);
    } else {
      QuietKeepsHolder(s, cs, e, u, id);
    }
  }

  lemma PairStep(s: System, cs: set<Config>, e: Event, u: WorkerId, v: WorkerId, id: Id)
    requires Suited(cs) && Guarded(s, cs) && Enabled(s, e) && AllInWaves(Next(s, e))
    requires forall w :: w in Next(s, e).workers ==> Next(s, e).workers[w].config in cs
    ensures PairGuarded(Next(s, e), cs, u, v, id)
  {
    assert HolderGuarded(s, cs, u, id) && HolderGuarded(s, cs, v, id) && PairGuarded(s, cs, u, v, id);
    if e.Claim? {
      ClaimKeepsPair(s, cs, e, u, v, id);
    } else if e.Finish? {
      assert PairGuarded(s, cs, e.w, u, id) && PairGuarded(s, cs, e.w, v, id);
      FinishKeepsPair(s, cs, e, u, v, id);
    } else {
      QuietKeepsPair(s, cs, e, u, v, id);
    }
  }

  lemma GuardedStep(s: System, cs: set<Config>, e: Event)
    requires Suited(cs) && Guarded(s, cs) && AllInWaves(s) && Punctual(s, e) && (e.Deploy? ==> e.config in cs)
    requires forall id :: id in s.rows ==> id in s.past && s.rows[id].attempts >= 0
    ensures Guarded(Next(s, e), cs)
  {
    if Enabled(s, e) {
      var s' := Next(s, e);
      WavesStep(s, e);
      ConfigsStay(s, cs, e);
      forall u, id ensures HolderGuarded(s', cs, u, id) {
        HolderStep(s, cs, e, u, id);
      }
      forall u, v, id ensures PairGuarded(s', cs, u, v, id) {
        PairStep(s, cs, e, u, v, id);
      }
    }
  }

  lemma {:induction false} AlwaysGuarded(es: seq<Event>, cs: set<Config>)
    requires Suited(cs) && OnTime(es) && Uses(es, cs)
    ensures Guarded(After(INIT, es), cs)
  {
    if es == [] {
      assert forall id :: Holders(INIT, id) == {};
    } else {
      var init := es[..|es| - 1];
      AlwaysGuarded(init, cs);
      AlwaysInWaves(init);
      forall id | id in After(INIT, init).rows
        ensures id in After(INIT, init).past && After(INIT, init).rows[id].attempts >= 0
      {
        AlwaysAccounted(init, id);
      }
      GuardedStep(After(INIT, init), cs, es[|es| - 1]);
    }
  }

  /** No two Sends of an id overlap, although it may be handed over within one instant. */
  lemma NoOverlap(es: seq<Event>, cs: set<Config>, id: Id)
    requires Suited(cs) && OnTime(es) && Uses(es, cs)
    ensures !Overlap(After(INIT, es), id)
  {
    AlwaysGuarded(es, cs);
    AlwaysInWaves(es);
    AllApart(After(INIT, es), cs, id);
  }

  lemma AllApart(s: System, cs: set<Config>, id: Id)
    requires Suited(cs) && Guarded(s, cs) && AllInWaves(s)
    ensures !Overlap(s, id)
  {
    forall w, i: nat, v, j: nat | IsSending(s, w, i, id) && IsSending(s, v, j, id) && (w != v || i != j)
      ensures !(s.workers[w].live[i] < s.now && s.workers[v].live[j] < s.now)
    {
      SendsApart(s, cs, w, i, v, j, id);
    }
  }

  lemma SendsApart(s: System, cs: set<Config>, w: WorkerId, i: nat, v: WorkerId, j: nat, id: Id)
    requires Suited(cs) && Guarded(s, cs) && AllInWaves(s)
    requires IsSending(s, w, i, id) && IsSending(s, v, j, id) && (w != v || i != j)
    ensures !(s.workers[w].live[i] < s.now && s.workers[v].live[j] < s.now)
  {
    SendingHolds(s, w, i, id);
    SendingHolds(s, v, j, id);
    assert PairGuarded(s, cs, w, v, id);
    assert InWaves(s.workers[w], s.now) && InWaves(s.workers[v], s.now);
  }
}
