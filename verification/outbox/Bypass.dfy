/** Bounded bypass: how many claims can pass over a due row. */
module OutboxBypass {
  import opened Products
  import opened Sets
  import opened OutboxConfig
  import opened OutboxTable
  import opened OutboxSystem

  /** The other pending rows that are due no later than t. */
  function Ahead(s: System, id: Id, t: int): set<Id> {
    set other | other in s.rows && other != id && Pending(s.rows[other]) && s.rows[other].nextAttemptAt <= t
  }

  /** A pending row, due at t, that nobody holds. */
  ghost predicate Overdue(s: System, id: Id, t: int) {
    && WellFormed(s)
    && id in s.rows && Pending(s.rows[id]) && s.rows[id].nextAttemptAt == t < s.now
    && Holders(s, id) == {}
  }

  ghost predicate Takes(s: System, e: Event, id: Id) {
    e.Claim? && Enabled(s, e) && id in IdsOf(e.messages)
  }

  /** A claim of at least b rows that does not find the row locked by another transaction. */
  ghost predicate Counts(s: System, e: Event, id: Id, b: nat) {
    e.Claim? && Enabled(s, e) && id !in e.locked && s.workers[e.w].config.batchSize >= b
  }

  /** A row appearing with a due time no later than t: its transaction began by then and committed only now. */
  ghost predicate Late(s: System, e: Event, t: int) {
    e.Enqueue? && Enabled(s, e) && e.at <= t
  }

  /** A claim that passes over the row takes a full batch, all of it from the rows ahead. */
  lemma PassedOver(s: System, e: Event, id: Id, t: int)
    requires Overdue(s, id, t) && e.Claim? && Enabled(s, e) && id !in IdsOf(e.messages) && id !in e.locked
    ensures |IdsOf(e.messages)| == s.workers[e.w].config.batchSize
    ensures IdsOf(e.messages) <= Ahead(s, id, t)
    ensures Ahead(Next(s, e), id, t) == Ahead(s, id, t) - IdsOf(e.messages)
    ensures |Ahead(Next(s, e), id, t)| == |Ahead(s, id, t)| - s.workers[e.w].config.batchSize
  {
    var picked := IdsOf(e.messages);
    var from := Claimable(s.rows, s.now, e.locked);
    assert id in from - picked;
    forall x | x in picked ensures x in Ahead(s, id, t) {
      assert s.rows[x].nextAttemptAt <= s.rows[id].nextAttemptAt;
    }
    var wk := s.workers[e.w];
    assert Lease(wk.config) >= 0;
  }

  /** Nobody else's event moves the row, and none but a late commit adds to the rows ahead. */
  lemma StaysOverdue(s: System, e: Event, id: Id, t: int)
    requires Overdue(s, id, t) && !Takes(s, e, id)
    ensures Overdue(Next(s, e), id, t)
    ensures e.Enqueue? && Late(s, e, t) ==> Ahead(Next(s, e), id, t) <= Ahead(s, id, t) + {e.id}
    ensures !Late(s, e, t) ==> Ahead(Next(s, e), id, t) <= Ahead(s, id, t)
  {
    WellFormedStep(s, e);
    if Enabled(s, e) {
      match e
      case Finish(w, i, outcome, cancelled, written) =>
        HoldersAfterFinish(s, e, id);
        FinishBehind(s, e, id, t);
      case Claim(w, locked, messages) =>
        HoldersAfterClaim(s, w, locked, messages, id);
        assert Lease(s.workers[w].config) >= 0;
      case Send(w) =>
        HoldersAfterSend(s, w, id);
      case Crash(w) =>
        HoldersAfterCrash(s, w, id);
      case _ =>
        assert Holders(Next(s, e), id) == {};
    }
  }

  lemma FinishBehind(s: System, e: Event, id: Id, t: int)
    requires Overdue(s, id, t) && e.Finish? && Enabled(s, e)
    ensures id in Next(s, e).rows && Next(s, e).rows[id] == s.rows[id]
    ensures Ahead(Next(s, e), id, t) <= Ahead(s, id, t)
    ensures forall other :: other in Ahead(Next(s, e), id, t) ==> Next(s, e).rows[other] == s.rows[other]
  {
    var c, m := s.workers[e.w].config, s.workers[e.w].batch[e.i];
    HoldersAfterFinish(s, e, id);
    assert m.id != id;
    var verdict := VerdictOn(c, m, e.outcome, e.cancelled);
    WrittenFrame(s.rows, m.id, verdict, s.now, id);
    VerdictMovesRow(s.rows, c, m, e.outcome, e.cancelled, s.now);
    ShortestDelayExact(c, m.attempts);
    forall other | other in Ahead(Next(s, e), id, t)
      ensures other in Ahead(s, id, t) && Next(s, e).rows[other] == s.rows[other]
    {
      if other != m.id {
        WrittenFrame(s.rows, m.id, verdict, s.now, other);
      }
    }
  }

  /** How many events of a run are such, each judged in the state it meets. */
  ghost function CountOf(such: (System, Event) -> bool, s: System, es: seq<Event>): nat {
    if es == [] then 0
    else
      CountOf(such, s, es[..|es| - 1]) + if such(After(s, es[..|es| - 1]), es[|es| - 1]) then 1 else 0
  }

  /** How many claims count, and how many late rows appear. */
  ghost function Claims(s: System, es: seq<Event>, id: Id, b: nat): nat {
    CountOf((at, e) => Counts(at, e, id, b), s, es)
  }

  ghost function LateRows(s: System, es: seq<Event>, t: int): nat {
    CountOf((at, e) => Late(at, e, t), s, es)
  }

  ghost predicate Taken(s: System, es: seq<Event>, id: Id) {
    es != [] && (Taken(s, es[..|es| - 1], id) || Takes(After(s, es[..|es| - 1]), es[|es| - 1], id))
  }

  lemma AheadStep(s: System, e: Event, id: Id, t: int, b: nat)
    requires Overdue(s, id, t) && !Takes(s, e, id)
    ensures |Ahead(Next(s, e), id, t)| + (if Counts(s, e, id, b) then b else 0)
            <= |Ahead(s, id, t)| + (if Late(s, e, t) then 1 else 0)
  {
    StaysOverdue(s, e, id, t);
    if Counts(s, e, id, b) {
      PassedOver(s, e, id, t);
    } else if Late(s, e, t) {
      SubsetSize(Ahead(Next(s, e), id, t), Ahead(s, id, t) + {e.id});
    } else {
      SubsetSize(Ahead(Next(s, e), id, t), Ahead(s, id, t));
    }
  }

  /** The rows ahead plus b for every claim so far never exceed what there was, plus the late rows. */
  predicate WithinRank(ahead: nat, claims: nat, b: nat, start: nat, late: nat) {
    ahead + Times(claims, b) <= start + late
  }

  lemma OneMore(such: (System, Event) -> bool, s: System, init: seq<Event>, es: seq<Event>, before: System)
    requires es != [] && init == es[..|es| - 1] && before == After(s, init)
    ensures CountOf(such, s, es) == CountOf(such, s, init) + (if such(before, es[|es| - 1]) then 1 else 0)
  {
  }

  lemma OneMoreClaim(s: System, init: seq<Event>, es: seq<Event>, before: System, id: Id, b: nat)
    requires es != [] && init == es[..|es| - 1] && before == After(s, init)
    ensures Claims(s, es, id, b) == Claims(s, init, id, b) + (if Counts(before, es[|es| - 1], id, b) then 1 else 0)
  {
    OneMore((at, e) => Counts(at, e, id, b), s, init, es, before);
  }

  lemma OneMoreLate(s: System, init: seq<Event>, es: seq<Event>, before: System, t: int)
    requires es != [] && init == es[..|es| - 1] && before == After(s, init)
    ensures LateRows(s, es, t) == LateRows(s, init, t) + (if Late(before, es[|es| - 1], t) then 1 else 0)
  {
    OneMore((at, e) => Late(at, e, t), s, init, es, before);
  }

  lemma RankAdds(ahead: nat, ahead': nat, claims: nat, one: nat, b: nat, start: nat, late: nat, more: nat)
    requires WithinRank(ahead, claims, b, start, late)
    requires one <= 1 && ahead' + (if one == 1 then b else 0) <= ahead + more
    ensures WithinRank(ahead', claims + one, b, start, late + more)
  {
  }

  /** One more event, judged in the state before it. */
  lemma RankStep(s: System, init: seq<Event>, es: seq<Event>, before: System, id: Id, t: int, b: nat)
    requires es != [] && init == es[..|es| - 1] && before == After(s, init)
    requires WithinRank(|Ahead(before, id, t)|, Claims(s, init, id, b), b, |Ahead(s, id, t)|, LateRows(s, init, t))
    requires Overdue(before, id, t) && !Takes(before, es[|es| - 1], id)
    ensures WithinRank(|Ahead(Next(before, es[|es| - 1]), id, t)|, Claims(s, es, id, b), b, |Ahead(s, id, t)|, LateRows(s, es, t))
  {
    var e := es[|es| - 1];
    AheadStep(before, e, id, t, b);
    OneMoreClaim(s, init, es, before, id, b);
    OneMoreLate(s, init, es, before, t);
    RankAdds(|Ahead(before, id, t)|, |Ahead(Next(before, e), id, t)|, Claims(s, init, id, b), if Counts(before, e, id, b) then 1 else 0, b,
             |Ahead(s, id, t)|, LateRows(s, init, t), if Late(before, e, t) then 1 else 0);
  }

  lemma {:induction false} BypassInvariant(s: System, es: seq<Event>, id: Id, t: int, b: nat)
    requires Overdue(s, id, t) && !Taken(s, es, id)
    ensures Overdue(After(s, es), id, t)
    ensures WithinRank(|Ahead(After(s, es), id, t)|, Claims(s, es, id, b), b, |Ahead(s, id, t)|, LateRows(s, es, t))
  {
    if es != [] {
      var init := es[..|es| - 1];
      BypassInvariant(s, init, id, t, b);
      RankStep(s, init, es, After(s, init), id, t, b);
      StaysOverdue(After(s, init), es[|es| - 1], id, t);
    }
  }

  lemma TimesExceeds(n: nat, b: nat, r: nat)
    requires b > 0 && n >= r / b + 1
    ensures Times(n, b) > r
  {
    TimesIs(n, b);
    MulMonotone(r / b + 1, n, b);
    assert r < (r / b) * b + b;
  }

  /**
   A due row nobody holds, with r pending rows due no later, is taken within floor(r / b) + 1 claims of at
   least b rows; every row committed late with an earlier due time counts as one more ahead of it.
   */
  lemma BoundedBypass(s: System, es: seq<Event>, id: Id, t: int, b: nat)
    requires Overdue(s, id, t) && b > 0
    requires Claims(s, es, id, b) >= (|Ahead(s, id, t)| + LateRows(s, es, t)) / b + 1
    ensures Taken(s, es, id)
  {
    if !Taken(s, es, id) {
      BypassInvariant(s, es, id, t, b);
      TimesExceeds(Claims(s, es, id, b), b, |Ahead(s, id, t)| + LateRows(s, es, t));
    }
  }
}
