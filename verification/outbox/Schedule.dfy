/**
 Bounded-slot scheduling: a batch is started in order as slots free up, and every Send returns by its
 deadline, so every message starts and ends by a wave that depends only on its place in the batch.
 */
module OutboxSchedule {
  import opened Products
  import opened OutboxConfig
  import opened OutboxTable
  import opened OutboxSystem

  /**
   Time may move on only as far as every running Send's deadline, and not while a message waits beside
   a free slot: verdicts and starts are immediate, and Send returns within its timeout.
   */
  ghost predicate Punctual(s: System, e: Event) {
    e.Tick? && e.time > s.now ==>
      forall w :: w in s.workers ==> MayAdvance(s.workers[w], e.time)
  }

  predicate MayAdvance(wk: Worker, time: int) {
    && (forall i :: i in wk.live ==> time <= wk.live[i] + wk.config.sendTimeout)
    && (wk.next < |wk.batch| ==> |wk.live| >= wk.config.concurrency)
  }

  /** A run in which every Tick is punctual. */
  ghost predicate OnTime(es: seq<Event>)
  {
    es == [] || (OnTime(es[..|es| - 1]) && Punctual(After(INIT, es[..|es| - 1]), es[|es| - 1]))
  }

  /** The number of whole waves before message i: it starts at most this many timeouts after the claim. */
  function StartBy(wk: Worker, i: nat): int
    requires wk.config.concurrency > 0
  {
    wk.claimedAt + (i / wk.config.concurrency) * wk.config.sendTimeout
  }

  ghost predicate InWaves(wk: Worker, now: int)
    requires wk.config.concurrency > 0
  {
    && wk.claimedAt <= now
    && (forall i :: i in wk.live ==>
          && wk.claimedAt <= wk.live[i] <= now
          && wk.live[i] <= StartBy(wk, i)
          && now <= wk.live[i] + wk.config.sendTimeout)
    && (wk.next < |wk.batch| ==> now <= StartBy(wk, wk.next))
  }

  ghost predicate AllInWaves(s: System) {
    && WellFormed(s)
    && forall w :: w in s.workers ==> InWaves(s.workers[w], s.now)
  }

  lemma WavesMonotone(i: nat, j: nat, c: nat, t: nat)
    requires i <= j && c > 0
    ensures (i / c) * t <= (j / c) * t
  {
    DivMonotone(i, j, c);
    MulMonotone(i / c, j / c, t);
  }

  lemma DivMonotone(i: nat, j: nat, c: nat)
    requires i <= j && c > 0
    ensures i / c <= j / c
  {
    var a, b := i / c, j / c;
    if a > b {
      assert a * c <= i;
      assert j < (b + 1) * c;
      MulMonotone(b + 1, a, c);
    }
  }

  /** One wave back is one slot count back. */
  lemma WaveBefore(i: nat, q: nat, c: nat, t: nat)
    requires c > 0 && i + c <= q
    ensures (i / c) * t + t <= (q / c) * t
  {
    if i / c + 1 > q / c {
      MulMonotone(q / c + 1, i / c + 1, c);
    }
    MulMonotone(i / c + 1, q / c, t);
    assert (i / c + 1) * t == (i / c) * t + t;
  }

  /** Among c distinct numbers below q, one is at most q - c. */
  lemma {:induction false} Pigeonhole(live: set<nat>, q: nat, c: nat) returns (i: nat)
    requires |live| >= c > 0 && forall j :: j in live ==> j < q
    ensures i in live && i + c <= q
    decreases q
  {
    var j :| j in live;
    if q - 1 in live && c > 1 {
      i := Pigeonhole(live - {q - 1}, q - 1, c - 1);
    } else if q - 1 in live {
      i := q - 1;
    } else {
      i := Pigeonhole(live, q - 1, c);
    }
  }

  /** While all slots are busy, the next deadline comes within the waiting message's wave. */
  lemma WavesAfterTick(wk: Worker, now: int, time: int)
    requires WellFormedWorker(wk) && InWaves(wk, now) && now <= time && (now < time ==> MayAdvance(wk, time))
    ensures InWaves(wk, time)
  {
    if now < time && wk.next < |wk.batch| {
      var i := Pigeonhole(wk.live.Keys, wk.next, wk.config.concurrency);
      WaveBefore(i, wk.next, wk.config.concurrency, wk.config.sendTimeout);
    }
  }

  lemma WavesAfterSend(wk: Worker, now: int)
    requires WellFormedWorker(wk) && InWaves(wk, now) && wk.next < |wk.batch|
    ensures InWaves(wk.(next := wk.next + 1, live := wk.live[wk.next := now]), now)
  {
    WavesMonotone(wk.next, wk.next + 1, wk.config.concurrency, wk.config.sendTimeout);
  }

  lemma WavesAfterFinish(wk: Worker, now: int, i: nat, stopped: bool)
    requires WellFormedWorker(wk) && InWaves(wk, now)
    ensures InWaves(wk.(live := wk.live - {i}, stopped := stopped), now)
  {
  }

  lemma FreshInWaves(c: Config, now: int, batch: seq<Message>)
    requires Positive(c)
    ensures InWaves(Worker(c, now, batch, 0, map[], false), now)
  {
    assert 0 / c.concurrency == 0;
  }

  /** One replica has moved, at an unchanged time. */
  lemma OneWorkerMoves(s: System, s': System, w: WorkerId)
    requires AllInWaves(s) && WellFormed(s') && s'.now == s.now
    requires w in s'.workers && InWaves(s'.workers[w], s.now)
    requires forall v :: v in s'.workers && v != w ==> v in s.workers && s'.workers[v] == s.workers[v]
    ensures AllInWaves(s')
  {
  }

  lemma AllAfterTick(s: System, time: int)
    requires AllInWaves(s) && s.now <= time && Punctual(s, Tick(time))
    ensures AllInWaves(s.(now := time))
  {
    forall w | w in s.workers ensures InWaves(s.workers[w], time) {
      WavesAfterTick(s.workers[w], s.now, time);
    }
  }

  lemma AllAfterDeploy(s: System, w: WorkerId, c: Config)
    requires AllInWaves(s) && Enabled(s, Event.Deploy(w, c))
    ensures AllInWaves(s.(workers := s.workers[w := Worker(c, s.now, [], 0, map[], false)]))
  {
    FreshInWaves(c, s.now, []);
  }

  lemma AllAfterClaim(s: System, w: WorkerId, locked: set<Id>, messages: seq<Message>)
    requires AllInWaves(s) && ClaimEnabled(s, w, locked, messages)
    ensures AllInWaves(AfterClaim(s, w, messages))
  {
    WellFormedClaim(s, w, locked, messages);
    FreshInWaves(s.workers[w].config, s.now, messages);
    OneWorkerMoves(s, AfterClaim(s, w, messages), w);
  }

  lemma AllAfterSend(s: System, s': System, w: WorkerId, wk: Worker)
    requires AllInWaves(s) && w in s.workers && s.workers[w] == wk && s'.now == s.now
    requires wk.next < |wk.batch| && |wk.live| < wk.config.concurrency
    requires s'.workers == s.workers[w := wk.(next := wk.next + 1, live := wk.live[wk.next := s.now])]
    ensures AllInWaves(s')
  {
    WellFormedSend(wk, s.now);
    WavesAfterSend(wk, s.now);
    OneWorkerMoves(s, s', w);
  }

  lemma AllAfterFinish(s: System, s': System, w: WorkerId, i: nat, stopped: bool)
    requires AllInWaves(s) && w in s.workers && s'.now == s.now
    requires s'.workers == s.workers[w := s.workers[w].(live := s.workers[w].live - {i}, stopped := stopped)]
    ensures AllInWaves(s')
  {
    WellFormedFinish(s.workers[w], i, stopped);
    WavesAfterFinish(s.workers[w], s.now, i, stopped);
    OneWorkerMoves(s, s', w);
  }

  /** Replicas may go, and rows change. */
  lemma AllAfterOthers(s: System, s': System)
    requires AllInWaves(s) && s'.now == s.now
    requires forall w :: w in s'.workers ==> w in s.workers && s'.workers[w] == s.workers[w]
    ensures AllInWaves(s')
  {
  }

  lemma WavesStep(s: System, e: Event)
    requires AllInWaves(s) && Punctual(s, e)
    ensures AllInWaves(Next(s, e))
  {
    if Enabled(s, e) {
      match e
      case Tick(time) => AllAfterTick(s, time);
      case Deploy(w, config) => AllAfterDeploy(s, w, config);
      case Claim(w, locked, messages) => AllAfterClaim(s, w, locked, messages);
      case Send(w) => AllAfterSend(s, AfterSend(s, w), w, s.workers[w]);
      case Finish(w, i, outcome, cancelled, written) =>
        AllAfterFinish(s, AfterFinish(s, w, i, outcome, cancelled, written), w, i, s.workers[w].stopped || cancelled);
      case Enqueue(_, _, _, _) => AllAfterOthers(s, Next(s, e));
      case Crash(w) => AllAfterOthers(s, AfterCrash(s, w));
      case Cleanup(_) => AllAfterOthers(s, Next(s, e));
    }
  }

  lemma {:induction false} AlwaysInWaves(es: seq<Event>)
    requires OnTime(es)
    ensures AllInWaves(After(INIT, es))
  {
    if es != [] {
      AlwaysInWaves(es[..|es| - 1]);
      WavesStep(After(INIT, es[..|es| - 1]), es[|es| - 1]);
    }
  }

  /** An outstanding message ends within its wave, and every wave within the batch's ceiling. */
  lemma HeldWithinHold(wk: Worker, now: int, i: nat)
    requires WellFormedWorker(wk) && InWaves(wk, now) && Outstanding(wk, i)
    ensures now <= StartBy(wk, i) + wk.config.sendTimeout
    ensures i !in wk.live ==> now <= StartBy(wk, i)
    ensures now <= wk.claimedAt + CeilDiv(|wk.batch|, wk.config.concurrency) * wk.config.sendTimeout
    ensures now <= wk.claimedAt + Hold(wk.config)
  {
    var c, t := wk.config.concurrency, wk.config.sendTimeout;
    if i !in wk.live {
      WavesMonotone(wk.next, i, c, t);
    }
    LastWave(i, |wk.batch|, c, t);
    LastWave(i, wk.config.batchSize, c, t);
  }

  lemma LastWave(i: nat, n: nat, c: nat, t: nat)
    requires i < n && c > 0
    ensures (i / c) * t + t <= CeilDiv(n, c) * t
  {
    if i / c + 1 > CeilDiv(n, c) {
      MulMonotone(CeilDiv(n, c), i / c, c);
    }
    MulMonotone(i / c + 1, CeilDiv(n, c), t);
    assert (i / c + 1) * t == (i / c) * t + t;
  }

  /**
   The scheduling bound over every punctual run: message i of a batch claimed at T is started by
   T + floor(i / slots) * timeout, and none is unresolved after T + ceil(n / slots) * timeout.
   */
  lemma SchedulingBound(es: seq<Event>, w: WorkerId, i: nat)
    requires OnTime(es)
    requires w in After(INIT, es).workers && Outstanding(After(INIT, es).workers[w], i)
    ensures var s := After(INIT, es);
            var wk := s.workers[w];
            && wk.config.concurrency > 0
            && (i in wk.live ==> wk.live[i] <= StartBy(wk, i))
            && (i !in wk.live ==> s.now <= StartBy(wk, i))
            && s.now <= wk.claimedAt + CeilDiv(|wk.batch|, wk.config.concurrency) * wk.config.sendTimeout
  {
    AlwaysInWaves(es);
    var s := After(INIT, es);
    HeldWithinHold(s.workers[w], s.now, i);
  }
}
