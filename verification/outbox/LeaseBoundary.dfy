/**
 Leases at their boundary, for replicas with any mix of configurations. Where no lease is shorter than its hold,
 two claims of an id can meet only for an instant, when one ends as the other is made. Sends then stay apart
 exactly as long as no verdict written in such an instant can bring the row back within the new holder's time.
 */
module OutboxLeaseBoundary {
  import opened Durations
  import opened Products
  import opened Wrappers
  import opened OutboxConfig
  import opened OutboxTable
  import opened OutboxSystem
  import opened OutboxLease

  /** Every replica runs with one of these configurations. */
  ghost predicate Uses(es: seq<Event>, cs: set<Config>) {
    forall e :: e in es && e.Deploy? ==> e.config in cs
  }

  /** Two Send calls for the id have been running together for some time: their half-open intervals overlap. */
  ghost predicate Overlap(s: System, id: Id) {
    exists w, i, v, j ::
      && IsSending(s, w, i, id) && IsSending(s, v, j, id)
      && (w != v || i != j)
      && s.workers[w].live[i] < s.now && s.workers[v].live[j] < s.now
  }

  // ---- Which configurations suffice ----

  predicate Usable(c: Config) {
    Positive(c) && InRange(c)
  }

  /** A full batch can take all of the lease. */
  predicate Boundary(c: Config)
    requires Positive(c)
  {
    Hold(c) == Lease(c)
  }

  /** b's late verdict can bring a row back exactly when x's hold ends. */
  predicate Ties(b: Config, x: Config)
    requires Positive(b) && Positive(x)
  {
    Boundary(b) && ShortestDelay(b) == Hold(x)
  }

  /**
   No lease is shorter than its hold, no pause after a boundary lease is shorter than any hold, and where one
   equals a hold, no later pause of that holder, which has seen one attempt more, is shorter than it either.
   */
  predicate LeasesSuffice(cs: set<Config>)
    requires forall c :: c in cs ==> Positive(c)
  {
    && (forall c :: c in cs ==> Hold(c) <= Lease(c))
    && (forall b, x :: b in cs && x in cs && Boundary(b) ==> Hold(x) <= ShortestDelay(b))
    && (forall b, x :: b in cs && x in cs && Ties(b, x) ==> Hold(x) <= ShortestFrom(x, FirstShortest(b) + 1))
  }

  ghost predicate Suited(cs: set<Config>) {
    (forall c :: c in cs ==> Usable(c)) && LeasesSuffice(cs)
  }

  /** The least number of attempts a holder has seen that was tied to its end by a late verdict. */
  ghost function Level(cs: set<Config>): int
    requires Suited(cs)
  {
    if exists b, x :: b in cs && x in cs && Ties(b, x) && FirstShortest(b) == 1 then 2 else 3
  }

  // ---- One id at a time ----

  /** A holder: its configuration, when it claimed, and the attempts it has seen. */
  datatype Claimant = Claimant(config: Config, from: int, attempts: int)

  /** The id's row, if it is pending. */
  datatype Live = Live(due: int, attempts: int)

  function End(h: Claimant): int
    requires Positive(h.config)
  {
    h.from + Hold(h.config)
  }

  /** A holder whose row may come due at its very end. */
  ghost predicate Edge(cs: set<Config>, h: Claimant)
    requires Suited(cs) && h.config in cs
  {
    Boundary(h.config) || ((exists b :: b in cs && Ties(b, h.config)) && h.attempts >= Level(cs))
  }

  /** A pause that a verdict of this holder can store. */
  predicate CanStore(h: Claimant, pause: int) {
    pause == Stored(h.config.conflictBackoff) || pause == Stored(Backoff(h.config, h.attempts))
  }

  /** All ties are to the same, longest hold. */
  lemma TiesAgree(cs: set<Config>, b: Config, x: Config, y: Config)
    requires Suited(cs) && b in cs && x in cs && y in cs && Ties(b, x)
    ensures Hold(y) <= Hold(x)
  {
  }

  /** From its level on, a tied holder's pauses are no shorter than its hold. */
  lemma LaterPauses(cs: set<Config>, b: Config, h: Claimant, pause: int)
    requires Suited(cs) && b in cs && h.config in cs && Ties(b, h.config) && h.attempts >= Level(cs) && CanStore(h, pause)
    ensures Hold(h.config) <= pause
  {
    var c, k := b, h.config;
    if Level(cs) == 2 {
      var b', x :| b' in cs && x in cs && Ties(b', x) && FirstShortest(b') == 1;
      TiesAgree(cs, b, h.config, x);
      TiesAgree(cs, b', x, h.config);
      assert Ties(b', h.config);
      ShortestFromExact(h.config, 2, h.attempts);
    } else {
      assert FirstShortest(b) == 2;
      ShortestFromExact(h.config, 3, h.attempts);
    }
  }

  /** A pause after a boundary lease, and when it is the shortest. */
  lemma BoundaryPauses(cs: set<Config>, u: Claimant, x: Config, pause: int)
    requires Suited(cs) && u.config in cs && x in cs && Boundary(u.config) && u.attempts >= 1 && CanStore(u, pause)
    ensures Hold(x) <= pause
    ensures pause == Hold(x) ==> Ties(u.config, x) && u.attempts >= Level(cs) - 1
  {
    ShortestDelayExact(u.config, u.attempts);
    FirstShortestExact(u.config, u.attempts);
    if pause == Hold(x) {
      assert Ties(u.config, x);
    }
  }

  /** A late verdict of u leaves v, which has just claimed, its whole hold; and if no more than that, v is on the edge in turn. */
  lemma LatePause(cs: set<Config>, u: Claimant, v: Claimant, pause: int)
    requires Suited(cs) && u.config in cs && v.config in cs && Edge(cs, u) && u.attempts >= 1 && CanStore(u, pause)
    requires v.attempts >= Min(u.attempts, Level(cs) - 1) + 1
    ensures Hold(v.config) <= pause
    ensures pause == Hold(v.config) ==> Edge(cs, v) && v.attempts >= Level(cs)
  {
    if Boundary(u.config) {
      BoundaryPauses(cs, u, v.config, pause);
    } else {
      var b :| b in cs && Ties(b, u.config);
      LaterPauses(cs, b, u, pause);
      TiesAgree(cs, b, u.config, v.config);
      if pause == Hold(v.config) {
        assert Ties(b, v.config);
      }
    }
  }

  /** A holder's time is not over, and its row comes due no earlier than its end, and then only on the edge. */
  ghost predicate Secure(cs: set<Config>, h: Claimant, row: Option<Live>, now: int)
    requires Suited(cs)
  {
    && h.config in cs && h.attempts >= 1
    && h.from <= now <= End(h)
    && (row.Some? ==> End(h) <= row.value.due)
    && (row.Some? && row.value.due == End(h) ==> Edge(cs, h) && row.value.attempts >= Min(h.attempts, Level(cs) - 1))
  }

  /** u is at its very end, and v has claimed this instant. */
  ghost predicate Succeeds(cs: set<Config>, u: Claimant, v: Claimant, row: Option<Live>, now: int)
    requires Suited(cs) && u.config in cs && v.config in cs
  {
    && End(u) == now == v.from
    && Edge(cs, u)
    && v.attempts >= Min(u.attempts, Level(cs) - 1) + 1
    && row.Some? && row.value.attempts >= v.attempts
  }

  ghost predicate Meet(cs: set<Config>, u: Claimant, v: Claimant, row: Option<Live>, now: int)
    requires Suited(cs) && u.config in cs && v.config in cs
  {
    Succeeds(cs, u, v, row, now) || Succeeds(cs, v, u, row, now)
  }

  /** What one holder's verdict may make of a pending row. */
  ghost predicate Answered(u: Claimant, row: Live, row': Option<Live>, now: int) {
    || row' == None
    || row' == Some(row)
    || exists pause :: CanStore(u, pause) && Moved(row, row', now + pause)
  }

  predicate Moved(row: Live, row': Option<Live>, due: int) {
    row'.Some? && row'.value.due == due && row'.value.attempts >= row.attempts - 1
  }

  /** After the verdict of one of two holders the other is still secure. */
  lemma SecureAfterVerdict(cs: set<Config>, u: Claimant, v: Claimant, row: Live, row': Option<Live>, now: int)
    requires Suited(cs) && Secure(cs, u, Some(row), now) && Secure(cs, v, Some(row), now) && Meet(cs, u, v, Some(row), now)
    requires Answered(u, row, row', now)
    ensures Secure(cs, v, row', now)
  {
    if row' != None && row' != Some(row) {
      var pause :| CanStore(u, pause) && Moved(row, row', now + pause);
      if Succeeds(cs, u, v, Some(row), now) {
        LatePause(cs, u, v, pause);
      } else {
        ShortestDelayExact(u.config, u.attempts);
      }
    }
  }

  /** A claim finds every other holder at its very end. */
  lemma SecureAfterClaim(cs: set<Config>, u: Claimant, v: Claimant, row: Live, now: int)
    requires Suited(cs) && Secure(cs, u, Some(row), now) && row.due <= now
    requires v.config in cs && v.from == now && v.attempts == row.attempts + 1
    ensures var row' := Some(Live(now + Lease(v.config), row.attempts + 1));
            Secure(cs, u, row', now) && Succeeds(cs, u, v, row', now)
  {
    HoldPositive(v.config);
  }

  lemma SecureClaimant(cs: set<Config>, v: Claimant, attempts: int, now: int)
    requires Suited(cs) && v.config in cs && v.from == now && v.attempts == attempts + 1 && attempts >= 0
    ensures Secure(cs, v, Some(Live(now + Lease(v.config), attempts + 1)), now)
  {
    HoldPositive(v.config);
  }

  lemma HoldPositive(c: Config)
    requires Positive(c)
    ensures Hold(c) > 0
  {
    MulMonotone(1, CeilDiv(c.batchSize, c.concurrency), c.sendTimeout);
  }
}
