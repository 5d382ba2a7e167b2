/** The attempts column is reached and filled: a deployment can come to a state in which no claim succeeds any more. */
module OutboxJam {
  import opened OutboxConfig
  import opened OutboxTable
  import opened OutboxSystem
  import opened OutboxBypass
  import opened OutboxRoom
  import opened OutboxLeaseRuns
  import opened OutboxLeaseExact

  /** Every row claimed as often as the column can count, no claim resolved, and all leases run out. */
  lemma ReachJam(reach: StateSet, c: Config, max: nat) returns (s: System)
    requires Closed(reach, c) && Deployable(c) && max > 0
    ensures reach(s) && Ready(s.(now := s.now - 1), c, MAX_SMALLINT, max)
  {
    var before := PrepareRounds(reach, c, max, MAX_SMALLINT);
    var time := before.now + 1;
    Ticks(reach, c, before, time);
    s := before.(now := time);
    assert s.(now := s.now - 1) == before;
  }

  lemma RipeIsJammed(s: System, c: Config, max: nat)
    requires WellFormed(s) && Ready(s.(now := s.now - 1), c, MAX_SMALLINT, max)
    ensures 0 in s.rows && s.rows[0].maxAttempts == max && Jammed(s, 0, s.rows[0].nextAttemptAt, 1)
  {
    assert 0 in Ids(c.batchSize);
    assert Holders(s, 0) == {};
    assert HealthyAhead(s, 0) == {};
  }

  /**
   For every configuration that can be deployed and every maximum, some punctual run leads to due rows beside two
   idle replicas from where on, until a row with an earlier due time is committed, no claim succeeds that does not
   find the first row locked.
   */
  lemma ClaimsStop(c: Config, max: nat) returns (es: seq<Event>)
    requires Deployable(c) && max > 0
    ensures Run(es, {c})
    ensures var s := After(INIT, es);
            && s.workers.Keys == {0, 1} && Idle(s.workers[0]) && Idle(s.workers[1])
            && 0 in s.rows && Due(s.rows[0], s.now) && s.rows[0].maxAttempts == max
            && forall more, e: Event :: LateRows(s, more, s.rows[0].nextAttemptAt) == 0 && e.Claim? && 0 !in e.locked ==>
                 !Enabled(After(s, more), e)
  {
    ReachedIsClosed({c}, c);
    var s := ReachJam(Reached({c}), c, max);
    es :| Run(es, {c}) && After(INIT, es) == s;
    AlwaysWellFormed(es);
    RipeIsJammed(s, c, max);
    var t := s.rows[0].nextAttemptAt;
    forall more, e: Event | LateRows(s, more, t) == 0 && e.Claim? && 0 !in e.locked ensures !Enabled(After(s, more), e) {
      JamLasts(s, more, 0, t, 1);
    }
  }
}
