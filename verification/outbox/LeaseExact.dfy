/** Exactly when the lease works, for every mix of configurations that can be deployed. */
module OutboxLeaseExact {
  import opened Durations
  import opened OutboxConfig
  import opened OutboxTable
  import opened OutboxSystem
  import opened OutboxSchedule
  import opened OutboxLoss
  import opened OutboxLease
  import opened OutboxLeaseBoundary
  import opened OutboxLeaseGuard
  import opened OutboxLeaseRuns
  import opened OutboxLeaseChain

  /** A punctual run of any number of replicas, each with one of these configurations. */
  ghost predicate Run(es: seq<Event>, cs: set<Config>) {
    OnTime(es) && Uses(es, cs)
  }

  /** The states such runs reach. */
  ghost function Reached(cs: set<Config>): StateSet {
    s => exists es :: Run(es, cs) && After(INIT, es) == s
  }

  lemma RunExtends(es: seq<Event>, cs: set<Config>, e: Event)
    requires Run(es, cs) && Punctual(After(INIT, es), e) && (e.Deploy? ==> e.config in cs)
    ensures Run(es + [e], cs) && After(INIT, es + [e]) == Next(After(INIT, es), e)
  {
    AfterSnoc(INIT, es, e);
    assert (es + [e])[..|es + [e]| - 1] == es;
  }

  lemma ReachedIsClosed(cs: set<Config>, c: Config)
    requires c in cs
    ensures Closed(Reached(cs), c)
  {
    assert Run([], cs) && After(INIT, []) == INIT;
    forall s, e | Reached(cs)(s) && Punctual(s, e) && (e.Deploy? ==> e.config == c) ensures Reached(cs)(Next(s, e)) {
      var es :| Run(es, cs) && After(INIT, es) == s;
      RunExtends(es, cs, e);
    }
  }

  // ---- What the lease is for ----

  /** No two sends of an id ever overlap. */
  ghost predicate SendsApart(cs: set<Config>) {
    forall es, id :: Run(es, cs) ==> !Overlap(After(INIT, es), id)
  }

  /** No id is ever held by two replicas. */
  ghost predicate HoldersApart(cs: set<Config>) {
    forall es, id :: Run(es, cs) ==> |Holders(After(INIT, es), id)| <= 1
  }

  /** No event turns a failed row back into a pending one. */
  ghost predicate FailedStays(cs: set<Config>) {
    forall es, e, id :: Run(es, cs) && IsFailed(After(INIT, es), id) && id in Next(After(INIT, es), e).rows ==>
      IsFailed(Next(After(INIT, es), e), id)
  }

  /** The event writes a Retry about message m. */
  ghost predicate Retries(s: System, e: Event) {
    && e.Finish? && e.written && Enabled(s, e)
    && VerdictOn(s.workers[e.w].config, s.workers[e.w].batch[e.i], e.outcome, e.cancelled).Retry?
  }

  /** deliver reports giving up exactly when its Retry fails the row. */
  ghost predicate ReportsAgree(cs: set<Config>) {
    forall es, e :: Run(es, cs) && Retries(After(INIT, es), e) ==>
      var m := After(INIT, es).workers[e.w].batch[e.i];
      GaveUp(m) <==> IsFailed(Next(After(INIT, es), e), m.id)
  }

  ghost predicate AllDeployable(cs: set<Config>) {
    forall c :: c in cs ==> Deployable(c)
  }

  /** Every lease is strictly longer than the hold. */
  ghost predicate AllStrict(cs: set<Config>)
    requires AllDeployable(cs)
  {
    forall c :: c in cs ==> Hold(c) < Lease(c)
  }

  lemma UsesCovers(es: seq<Event>, cs: set<Config>)
    requires AllDeployable(cs) && Uses(es, cs) && AllStrict(cs)
    ensures Covered(es)
  {
  }

  lemma TwoHoldersRun(cs: set<Config>, c: Config) returns (es: seq<Event>)
    requires c in cs && Deployable(c) && Lease(c) <= Hold(c)
    ensures Run(es, cs) && |Holders(After(INIT, es), Target(c))| > 1
  {
    ReachedIsClosed(cs, c);
    var s := TwoHolders(Reached(cs), c);
    es :| Run(es, cs) && After(INIT, es) == s;
  }

  /**
   For every set of configurations that can be deployed, in punctual runs of any number of replicas that mix them:
   an id has one holder at a time exactly when every stored lease is strictly longer than its longest hold.
   */
  lemma HoldersApartExact(cs: set<Config>)
    requires AllDeployable(cs)
    ensures HoldersApart(cs) <==> AllStrict(cs)
  {
    if AllStrict(cs) {
      forall es, id | Run(es, cs) ensures |Holders(After(INIT, es), id)| <= 1 {
        UsesCovers(es, cs);
        LeaseExclusivity(es, id);
      }
    } else {
      var c :| c in cs && Lease(c) <= Hold(c);
      var es := TwoHoldersRun(cs, c);
      assert Run(es, cs) && !(|Holders(After(INIT, es), Target(c))| <= 1);
    }
  }

  lemma UnfailingRun(cs: set<Config>, c: Config) returns (es: seq<Event>, e: Event)
    requires c in cs && Deployable(c) && Lease(c) <= Hold(c)
    ensures Run(es, cs) && IsFailed(After(INIT, es), Target(c))
    ensures Target(c) in Next(After(INIT, es), e).rows && !IsFailed(Next(After(INIT, es), e), Target(c))
  {
    ReachedIsClosed(cs, c);
    var s;
    s, e := Unfailing(Reached(cs), c);
    es :| Run(es, cs) && After(INIT, es) == s;
  }

  /** The same strict leases are exactly what keeps failed rows failed... */
  lemma FailedStaysExact(cs: set<Config>)
    requires AllDeployable(cs)
    ensures FailedStays(cs) <==> AllStrict(cs)
  {
    if AllStrict(cs) {
      forall es, e, id | Run(es, cs) && IsFailed(After(INIT, es), id) && id in Next(After(INIT, es), e).rows
        ensures IsFailed(Next(After(INIT, es), e), id)
      {
        UsesCovers(es, cs);
        FailedIsAbsorbing(es, e, id);
      }
    } else {
      var c :| c in cs && Lease(c) <= Hold(c);
      var es, e := UnfailingRun(cs, c);
    }
  }

  lemma DisagreeingRun(cs: set<Config>, c: Config) returns (es: seq<Event>, e: Event)
    requires c in cs && Deployable(c) && Lease(c) <= Hold(c)
    ensures Run(es, cs) && Retries(After(INIT, es), e)
    ensures var m := After(INIT, es).workers[e.w].batch[e.i];
            !GaveUp(m) && IsFailed(Next(After(INIT, es), e), m.id)
  {
    ReachedIsClosed(cs, c);
    var s;
    s, e := Disagreeing(Reached(cs), c);
    es :| Run(es, cs) && After(INIT, es) == s;
  }

  /** ... and deliver's reports true to the rows. */
  lemma ReportsAgreeExact(cs: set<Config>)
    requires AllDeployable(cs)
    ensures ReportsAgree(cs) <==> AllStrict(cs)
  {
    if AllStrict(cs) {
      forall es, e | Run(es, cs) && Retries(After(INIT, es), e)
        ensures var m := After(INIT, es).workers[e.w].batch[e.i];
                GaveUp(m) <==> IsFailed(Next(After(INIT, es), e), m.id)
      {
        UsesCovers(es, cs);
        WorkerAndRowAgree(es, e);
      }
    } else {
      var c :| c in cs && Lease(c) <= Hold(c);
      var es, e := DisagreeingRun(cs, c);
    }
  }

  // ---- Sends ----

  lemma EarlyRun(cs: set<Config>, c: Config) returns (es: seq<Event>, id: Id)
    requires c in cs && Deployable(c) && Lease(c) < Hold(c)
    ensures Run(es, cs) && Overlap(After(INIT, es), id)
  {
    ReachedIsClosed(cs, c);
    var s := EarlyClaim(Reached(cs), c);
    id := Target(c);
    es :| Run(es, cs) && After(INIT, es) == s;
  }

  lemma LateRun(cs: set<Config>, b: Config, x: Config) returns (es: seq<Event>, id: Id)
    requires b in cs && x in cs && Deployable(b) && Deployable(x) && Hold(x) <= Lease(x) && Boundary(b)
    requires ShortestDelay(b) < Hold(x) || (Ties(b, x) && ShortestFrom(x, FirstShortest(b) + 1) < Hold(x))
    ensures Run(es, cs) && Overlap(After(INIT, es), id)
  {
    ReachedIsClosed(cs, b);
    ReachedIsClosed(cs, x);
    var s;
    if ShortestDelay(b) < Hold(x) {
      s := ShortPause(Reached(cs), b, x);
    } else {
      s := TiedPause(Reached(cs), b, x);
    }
    id := Target(b);
    es :| Run(es, cs) && After(INIT, es) == s;
  }

  lemma OverlappingRun(cs: set<Config>) returns (es: seq<Event>, id: Id)
    requires AllDeployable(cs) && !LeasesSuffice(cs)
    ensures Run(es, cs) && Overlap(After(INIT, es), id)
  {
    if c :| c in cs && Lease(c) < Hold(c) {
      es, id := EarlyRun(cs, c);
    } else if b, x :| b in cs && x in cs && Boundary(b) && ShortestDelay(b) < Hold(x) {
      es, id := LateRun(cs, b, x);
    } else {
      var b, x :| b in cs && x in cs && Ties(b, x) && ShortestFrom(x, FirstShortest(b) + 1) < Hold(x);
      es, id := LateRun(cs, b, x);
    }
  }

  /**
   For every set of configurations that can be deployed, in punctual runs of any number of replicas that mix them,
   Sends of an id never overlap exactly when no lease is shorter than its hold, no pause stored after a lease equal
   to its hold is shorter than any hold, and where such a pause equals a hold, neither is that holder's next one.
   */
  lemma LeaseExact(cs: set<Config>)
    requires AllDeployable(cs)
    ensures SendsApart(cs) <==> LeasesSuffice(cs)
  {
    if LeasesSuffice(cs) {
      forall es, id | Run(es, cs) ensures !Overlap(After(INIT, es), id) {
        NoOverlap(es, cs, id);
      }
    } else {
      var es, id := OverlappingRun(cs);
      assert Run(es, cs) && Overlap(After(INIT, es), id);
    }
  }

  /** One configuration for all: a longer lease, or one equal to the hold with no shorter pause. Acceptance does not ensure this. */
  lemma LeaseExactAlone(c: Config)
    requires Deployable(c)
    ensures SendsApart({c}) <==> Hold(c) < Lease(c) || (Hold(c) == Lease(c) && Hold(c) <= ShortestDelay(c))
  {
    LeaseExact({c});
    ShortestFromExact(c, FirstShortest(c) + 1, FirstShortest(c) + 1);
  }

  /** With whole-second leases and no int64 overflow, only the boundary itself is accepted and can fail. */
  lemma AcceptedBoundary(c: Config)
    requires Positive(c) && InRange(c) && NoOverflow(c) && c.visibilityTimeout % SECOND == 0
    ensures Accepts(c) <==> Hold(c) <= Lease(c)
  {
    AcceptsExact(c, 0);
    assert Lease(c) == c.visibilityTimeout;
  }

  /** One message at a time, two minutes to send it, a two-minute lease and the default pauses: accepted, yet sends overlap. */
  lemma AcceptedButOverlapping() returns (c: Config)
    ensures Deployable(c) && NoOverflow(c) && !SendsApart({c})
  {
    c := WithDefaults(Config(0, 1, 1, 0, 120 * SECOND, 0, 0, 0, 0, 0));
    assert CeilDiv(1, 1) == 1;
    LeaseExactAlone(c);
  }
}
