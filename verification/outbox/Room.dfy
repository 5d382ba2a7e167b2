/** Full attempts columns: exactly when a claim can succeed, and when none does any more. */
module OutboxRoom {
  import opened Sets
  import opened OutboxConfig
  import opened OutboxTable
  import opened OutboxSystem
  import opened OutboxAccounting
  import opened OutboxBypass

  /** One more attempt does not fit the column. */
  predicate Full(row: Row) {
    row.attempts >= MAX_SMALLINT
  }

  /** The candidates due by t that have room for one more attempt. */
  function HealthyBy(rows: Table, from: set<Id>, t: int): set<Id>
    requires from <= rows.Keys
  {
    set id | id in from && !Full(rows[id]) && rows[id].nextAttemptAt <= t
  }

  /** The candidates due before t. */
  function Older(rows: Table, from: set<Id>, t: int): set<Id>
    requires from <= rows.Keys
  {
    set id | id in from && rows[id].nextAttemptAt < t
  }

  /** Every full candidate has a whole batch of healthy ones due no later... */
  predicate Served(rows: Table, from: set<Id>, limit: nat)
    requires from <= rows.Keys
  {
    forall f :: f in from && Full(rows[f]) ==> |HealthyBy(rows, from, rows[f].nextAttemptAt)| >= limit
  }

  /** ... or a whole batch of any that are due earlier. */
  predicate SafelyServed(rows: Table, from: set<Id>, limit: nat)
    requires from <= rows.Keys
  {
    forall f :: f in from && Full(rows[f]) ==> |Older(rows, from, rows[f].nextAttemptAt)| >= limit
  }

  // ---- A claim succeeds ----

  lemma Least(key: Id -> int, from: set<Id>) returns (least: Id)
    requires from != {}
    ensures least in from && forall id :: id in from ==> key(least) <= key(id)
    decreases from
  {
    least :| least in from;
    if from != {least} {
      var other := Least(key, from - {least});
      if key(other) < key(least) {
        least := other;
      }
    }
  }

  /** Any order by a key is one in which a claim may take its candidates, as long as it goes by age. */
  lemma {:induction false} LeastBy(key: Id -> int, from: set<Id>, limit: nat) returns (picked: set<Id>)
    ensures picked <= from && |picked| <= limit && (picked != from ==> |picked| == limit)
    ensures forall x, y :: x in picked && y in from - picked ==> key(x) <= key(y)
    decreases limit
  {
    if limit == 0 || from == {} {
      picked := {};
    } else {
      var least := Least(key, from);
      var others := LeastBy(key, from - {least}, limit - 1);
      picked := others + {least};
    }
  }

  function HealthyFirst(rows: Table): Id -> int {
    id => if id in rows then 2 * rows[id].nextAttemptAt + (if Full(rows[id]) then 1 else 0) else 0
  }

  function Preferring(rows: Table, f: Id): Id -> int {
    id => if id in rows then 2 * rows[id].nextAttemptAt + (if id == f then 0 else 1) else 0
  }

  lemma HealthyPick(rows: Table, from: set<Id>, limit: nat) returns (picked: set<Id>)
    requires from <= rows.Keys && Served(rows, from, limit)
    ensures Oldest(rows, from, limit, picked) && RoomFor(rows, picked)
  {
    picked := LeastBy(HealthyFirst(rows), from, limit);
    forall f | f in picked ensures !Full(rows[f]) {
      if Full(rows[f]) {
        var healthy := HealthyBy(rows, from, rows[f].nextAttemptAt);
        forall x | x in healthy ensures x in picked {
          assert HealthyFirst(rows)(x) < HealthyFirst(rows)(f);
        }
        SubsetSize(healthy + {f}, picked);
        assert false;
      }
    }
  }

  lemma PickIsServed(rows: Table, from: set<Id>, limit: nat, picked: set<Id>)
    requires from <= rows.Keys && Oldest(rows, from, limit, picked) && RoomFor(rows, picked)
    ensures Served(rows, from, limit)
  {
    forall f | f in from && Full(rows[f]) ensures |HealthyBy(rows, from, rows[f].nextAttemptAt)| >= limit {
      assert f !in picked;
      SubsetSize(picked, HealthyBy(rows, from, rows[f].nextAttemptAt));
    }
  }

  /**
   A claim of up to `limit` rows can succeed exactly when every full candidate has that many healthy candidates
   due no later: one full row fails the claim of the healthy rows beside it.
   */
  lemma ClaimCanSucceedIff(rows: Table, from: set<Id>, limit: nat)
    requires from <= rows.Keys
    ensures (exists picked :: Oldest(rows, from, limit, picked) && RoomFor(rows, picked)) <==> Served(rows, from, limit)
  {
    if Served(rows, from, limit) {
      var _ := HealthyPick(rows, from, limit);
    }
    forall picked | Oldest(rows, from, limit, picked) && RoomFor(rows, picked) ensures Served(rows, from, limit) {
      PickIsServed(rows, from, limit, picked);
    }
  }

  lemma FailingPick(rows: Table, from: set<Id>, limit: nat, f: Id) returns (picked: set<Id>)
    requires from <= rows.Keys && f in from && Full(rows[f]) && |Older(rows, from, rows[f].nextAttemptAt)| < limit
    ensures Oldest(rows, from, limit, picked) && !RoomFor(rows, picked)
  {
    picked := LeastBy(Preferring(rows, f), from, limit);
    forall x, y | x in picked && y in from - picked ensures rows[x].nextAttemptAt <= rows[y].nextAttemptAt {
      assert Preferring(rows, f)(x) <= Preferring(rows, f)(y);
    }
    if f !in picked {
      forall x | x in picked ensures x in Older(rows, from, rows[f].nextAttemptAt) {
        assert Preferring(rows, f)(x) <= Preferring(rows, f)(f);
      }
      SubsetSize(picked, Older(rows, from, rows[f].nextAttemptAt));
      assert false;
    }
  }

  lemma PickIsSafe(rows: Table, from: set<Id>, limit: nat, picked: set<Id>)
    requires from <= rows.Keys && SafelyServed(rows, from, limit) && Oldest(rows, from, limit, picked)
    ensures RoomFor(rows, picked)
  {
    forall f | f in picked ensures !Full(rows[f]) {
      if Full(rows[f]) {
        var older := Older(rows, from, rows[f].nextAttemptAt);
        assert older <= picked;
        SubsetSize(older + {f}, picked);
        assert false;
      }
    }
  }

  /** However the database breaks ties of age, the claim succeeds exactly when that many candidates are older. */
  lemma ClaimMustSucceedIff(rows: Table, from: set<Id>, limit: nat)
    requires from <= rows.Keys
    ensures (forall picked :: Oldest(rows, from, limit, picked) ==> RoomFor(rows, picked)) <==> SafelyServed(rows, from, limit)
  {
    if SafelyServed(rows, from, limit) {
      forall picked | Oldest(rows, from, limit, picked) ensures RoomFor(rows, picked) {
        PickIsSafe(rows, from, limit, picked);
      }
    } else {
      var f :| f in from && Full(rows[f]) && |Older(rows, from, rows[f].nextAttemptAt)| < limit;
      var _ := FailingPick(rows, from, limit, f);
    }
  }

  /** Some order in which RETURNING may list the claimed rows. */
  lemma {:induction false} Listing(rows: Table, picked: set<Id>) returns (messages: seq<Message>)
    requires picked <= rows.Keys
    ensures Returns(rows, picked, messages)
    decreases picked
  {
    if picked == {} {
      messages := [];
    } else {
      var id :| id in picked;
      var others := Listing(rows, picked - {id});
      messages := others + [MessageOf(rows, id)];
      forall x | x in picked ensures exists i :: 0 <= i < |messages| && messages[i].id == x {
        if x == id {
          assert messages[|others|].id == x;
        } else {
          assert x in picked - {id};
          var i :| 0 <= i < |others| && others[i].id == x;
          assert messages[i].id == x;
        }
      }
    }
  }

  /** An idle replica's claim can succeed exactly when the rows it finds due and unlocked are so served. */
  lemma ClaimEnabledIff(s: System, w: WorkerId, locked: set<Id>)
    requires w in s.workers && Idle(s.workers[w]) && Positive(s.workers[w].config)
    ensures (exists messages :: ClaimEnabled(s, w, locked, messages)) <==>
            Served(s.rows, Claimable(s.rows, s.now, locked), s.workers[w].config.batchSize)
  {
    var c, from := s.workers[w].config, Claimable(s.rows, s.now, locked);
    if Served(s.rows, from, c.batchSize) {
      var picked := HealthyPick(s.rows, from, c.batchSize);
      var claimed := Claimed(s.rows, picked, s.now, Lease(c));
      assert claimed.Keys == s.rows.Keys;
      var messages := Listing(claimed, picked);
      IdsOfReturned(claimed, picked, messages);
      assert ClaimEnabled(s, w, locked, messages);
    }
    forall messages | ClaimEnabled(s, w, locked, messages) ensures Served(s.rows, from, c.batchSize) {
      PickIsServed(s.rows, from, c.batchSize, IdsOf(messages));
    }
  }

  // ---- No claim succeeds any more ----

  /** The pending rows with room that are due no later than this one. */
  function HealthyAhead(s: System, id: Id): set<Id>
    requires id in s.rows
  {
    set other | other in Ahead(s, id, s.rows[id].nextAttemptAt) && !Full(s.rows[other])
  }

  /** A full due row with fewer than b healthy rows due no later, where every replica claims at least b at a time. */
  ghost predicate Exhausted(s: System, id: Id, b: nat) {
    && WellFormed(s)
    && id in s.rows && Due(s.rows[id], s.now) && Full(s.rows[id])
    && |HealthyAhead(s, id)| < b
    && forall w :: w in s.workers ==> s.workers[w].config.batchSize >= b
  }

  /** No claim succeeds that does not find such a row locked: it fails as a whole, healthy rows included. */
  lemma ExhaustedRowBlocks(s: System, id: Id, b: nat, e: Event)
    requires Exhausted(s, id, b) && e.Claim? && id !in e.locked
    ensures !Enabled(s, e)
  {
    if Enabled(s, e) {
      var from := Claimable(s.rows, s.now, e.locked);
      PickIsServed(s.rows, from, s.workers[e.w].config.batchSize, IdsOf(e.messages));
      SubsetSize(HealthyBy(s.rows, from, s.rows[id].nextAttemptAt), HealthyAhead(s, id));
      assert false;
    }
  }

  /** A pending row's column fills up only through dropped claims: as many as the column has beyond the row's maximum. */
  lemma ExhaustedByDrops(es: seq<Event>, id: Id)
    requires id in After(INIT, es).rows
    requires Pending(After(INIT, es).rows[id]) && Full(After(INIT, es).rows[id])
    ensures var s := After(INIT, es);
            id in s.past && s.past[id].dropped + |Holders(s, id)| > MAX_SMALLINT - s.past[id].budget
  {
    AlwaysAccounted(es, id);
  }

  ghost predicate Jammed(s: System, id: Id, t: int, b: nat) {
    Overdue(s, id, t) && Exhausted(s, id, b)
  }

  /** Rows ahead of an overdue row stay as they are for as long as they are ahead. */
  lemma AheadUnchanged(s: System, e: Event, id: Id, t: int)
    requires Overdue(s, id, t) && !Takes(s, e, id) && !Late(s, e, t)
    ensures forall other :: other in Ahead(Next(s, e), id, t) ==> other in s.rows && Next(s, e).rows[other] == s.rows[other]
  {
    if Enabled(s, e) {
      match e
      case Finish(_, _, _, _, _) =>
        FinishBehind(s, e, id, t);
      case Claim(w, _, _) =>
        assert Lease(s.workers[w].config) >= 0;
      case _ =>
    }
  }

  /** A replica that joins claims at least b rows at a time. */
  predicate Joins(e: Event, b: nat) {
    e.Deploy? && Positive(e.config) ==> e.config.batchSize >= b
  }

  lemma BatchesStay(s: System, e: Event, b: nat)
    requires (forall w :: w in s.workers ==> s.workers[w].config.batchSize >= b) && Joins(e, b)
    ensures forall w :: w in Next(s, e).workers ==> Next(s, e).workers[w].config.batchSize >= b
  {
  }

  lemma JamStep(s: System, e: Event, id: Id, t: int, b: nat)
    requires Jammed(s, id, t, b) && !Late(s, e, t) && Joins(e, b)
    ensures Jammed(Next(s, e), id, t, b)
  {
    if Takes(s, e, id) {
      TakenIsNotLocked(s, e, id);
      ExhaustedRowBlocks(s, id, b, e);
      assert false;
    }
    StaysOverdue(s, e, id, t);
    AheadUnchanged(s, e, id, t);
    RowUnchanged(s, e, id, t);
    BatchesStay(s, e, b);
    JamStays(s, Next(s, e), id, t, b);
  }

  lemma JamStays(s: System, s': System, id: Id, t: int, b: nat)
    requires Jammed(s, id, t, b) && Overdue(s', id, t) && s'.rows[id] == s.rows[id]
    requires Ahead(s', id, t) <= Ahead(s, id, t)
    requires forall other :: other in Ahead(s', id, t) ==> other in s.rows && s'.rows[other] == s.rows[other]
    requires forall w :: w in s'.workers ==> s'.workers[w].config.batchSize >= b
    ensures Jammed(s', id, t, b)
  {
    SubsetSize(HealthyAhead(s', id), HealthyAhead(s, id));
  }

  lemma TakenIsNotLocked(s: System, e: Event, id: Id)
    requires Takes(s, e, id)
    ensures id !in e.locked
  {
  }

  lemma RowUnchanged(s: System, e: Event, id: Id, t: int)
    requires Overdue(s, id, t) && !Takes(s, e, id)
    ensures id in Next(s, e).rows && Next(s, e).rows[id] == s.rows[id]
  {
    if e.Finish? && Enabled(s, e) {
      FinishBehind(s, e, id, t);
    }
  }

  /**
   Nothing but a late commit of an older row, or a replica with a smaller batch, ends this: whatever else happens,
   no claim that does not skip the row succeeds.
   */
  lemma {:induction false} JamLasts(s: System, es: seq<Event>, id: Id, t: int, b: nat)
    requires Jammed(s, id, t, b) && LateRows(s, es, t) == 0 && forall e :: e in es ==> Joins(e, b)
    ensures Jammed(After(s, es), id, t, b)
    ensures forall e: Event :: e.Claim? && id !in e.locked ==> !Enabled(After(s, es), e)
  {
    if es != [] {
      OneMoreLate(s, es[..|es| - 1], es, After(s, es[..|es| - 1]), t);
      JamLasts(s, es[..|es| - 1], id, t, b);
      JamStep(After(s, es[..|es| - 1]), es[|es| - 1], id, t, b);
    }
    forall e: Event | e.Claim? && id !in e.locked ensures !Enabled(After(s, es), e) {
      ExhaustedRowBlocks(After(s, es), id, b, e);
    }
  }
}
