/** The component runner (runner/runner.go): a group sharing one cancellation, and a shutdown timer. */
module Runner {
  import opened Wrappers

  const DEFAULT_SHUTDOWN_TIMEOUT := 30_000_000_000

  type Failure = Option<string>

  /** A component that returned has already cancelled the group, and is then recorded by it. */
  datatype Status = Running | Returned(err: Failure) | Recorded(err: Failure)

  datatype Result = Success | ComponentFailed(component: nat, err: string) | TimedOut

  /** The two selects of Run. */
  datatype Phase = Watching | Stopping(deadline: int) | Done(result: Result)

  datatype State = State(
    now: int,
    timeout: int,
    components: seq<Status>,
    cancelledAt: Option<int>,
    first: Option<nat>,
    phase: Phase)

  datatype Event =
    | Tick(time: int)
    | ParentCancelled
    | Return(i: nat, err: Failure)
    | Record(i: nat)
    | GroupDone
    | SeeCancelled
    | TimerFired

  class Group {
    var components: seq<string>
    var shutdownTimeout: int

    constructor ()
      ensures components == [] && shutdownTimeout == DEFAULT_SHUTDOWN_TIMEOUT
    {
      components := [];
      shutdownTimeout := DEFAULT_SHUTDOWN_TIMEOUT;
    }

    method WithShutdownTimeout(timeout: int)
      modifies this
      ensures shutdownTimeout == (if timeout > 0 then timeout else old(shutdownTimeout))
      ensures components == old(components)
    {
      if timeout > 0 {
        shutdownTimeout := timeout;
      }
    }

    method Add(name: string)
      modifies this
      ensures components == old(components) + [name]
      ensures shutdownTimeout == old(shutdownTimeout)
    {
      components := components + [name];
    }

    /** Run begins: without components it fails at once, otherwise every component is started. */
    method Start(now: int) returns (s: Option<State>)
      ensures s.None? <==> components == []
      ensures s.Some? ==> s.value == Started(|components|, shutdownTimeout, now)
      ensures s.Some? ==>
                && s.value.now == now && s.value.timeout == shutdownTimeout && s.value.phase == Watching && s.value.cancelledAt == None
                && |s.value.components| == |components| && forall i :: 0 <= i < |components| ==> s.value.components[i] == Running
    {
      if |components| == 0 {
        return None;
      }
      s := Some(Started(|components|, shutdownTimeout, now));
    }
  }

  function Started(n: nat, timeout: int, now: int): State {
    State(now, timeout, seq(n, _ => Running), None, None, Watching)
  }

  predicate AllRecorded(s: State) {
    forall i :: 0 <= i < |s.components| ==> s.components[i].Recorded?
  }

  predicate Enabled(s: State, e: Event) {
    match e
    case Tick(time) => s.now <= time
    case ParentCancelled => true
    case Return(i, _) => i < |s.components| && s.components[i].Running?
    case Record(i) => i < |s.components| && s.components[i].Returned?
    case GroupDone => !s.phase.Done? && AllRecorded(s)
    case SeeCancelled => s.phase.Watching? && s.cancelledAt.Some?
    case TimerFired => s.phase.Stopping? && s.phase.deadline <= s.now
  }

  /** Cancelling twice changes nothing. */
  function Cancelled(s: State): State {
    if s.cancelledAt.Some? then s else s.(cancelledAt := Some(s.now))
  }

  /** The group keeps the first error recorded. */
  function Recording(s: State, i: nat): State
    requires i < |s.components| && s.components[i].Returned?
  {
    var err := s.components[i].err;
    s.(components := s.components[i := Recorded(err)],
       first := if s.first.None? && err.Some? then Some(i) else s.first)
  }

  function GroupResult(s: State): Result {
    if s.first.Some? && s.first.value < |s.components| && FailedStatus(s.components[s.first.value]) then
      ComponentFailed(s.first.value, s.components[s.first.value].err.value)
    else Success
  }

  /** Recorded with an error. */
  predicate FailedStatus(c: Status) {
    c.Recorded? && c.err.Some?
  }

  function Next(s: State, e: Event): State {
    if !Enabled(s, e) then s
    else
      match e
      case Tick(time) => s.(now := time)
      case ParentCancelled => Cancelled(s)
      case Return(i, err) => Cancelled(s).(components := s.components[i := Returned(err)])
      case Record(i) => Recording(s, i)
      case GroupDone => Cancelled(s).(phase := Done(GroupResult(s)))
      case SeeCancelled => s.(phase := Stopping(s.now + s.timeout))
      case TimerFired => s.(phase := Done(TimedOut))
  }

  function After(s: State, es: seq<Event>): State {
    if es == [] then s else Next(After(s, es[..|es| - 1]), es[|es| - 1])
  }

  // ---- What every interleaving keeps ----

  ghost predicate Consistent(s: State) {
    && 0 < |s.components| && 0 < s.timeout
    && (s.cancelledAt.Some? ==> s.cancelledAt.value <= s.now)
    && (forall i :: 0 <= i < |s.components| && !s.components[i].Running? ==> s.cancelledAt.Some?)
    && (s.first.Some? ==> s.first.value < |s.components| && FailedStatus(s.components[s.first.value]))
    && (s.first.None? ==> forall i :: 0 <= i < |s.components| ==> !FailedStatus(s.components[i]))
    && (s.phase.Stopping? ==> s.cancelledAt.Some? && s.cancelledAt.value + s.timeout <= s.phase.deadline)
    && (s.phase.Done? ==> ResultMeans(s, s.phase.result))
  }

  /** What Run's result says about the components and the clock. */
  ghost predicate ResultMeans(s: State, r: Result) {
    match r
    case Success => AllRecorded(s) && forall i :: 0 <= i < |s.components| ==> s.components[i] == Recorded(None)
    case ComponentFailed(i, err) => AllRecorded(s) && i < |s.components| && s.components[i] == Recorded(Some(err)) && s.first == Some(i)
    case TimedOut => s.cancelledAt.Some? && s.cancelledAt.value + s.timeout <= s.now
  }

  lemma ConsistentStep(s: State, e: Event)
    requires Consistent(s)
    ensures Consistent(Next(s, e))
  {
    if e.GroupDone? && Enabled(s, e) && GroupResult(s) == Success {
      forall i | 0 <= i < |s.components| ensures s.components[i] == Recorded(None) {
        assert s.components[i].Recorded? && !FailedStatus(s.components[i]);
      }
    }
  }

  lemma {:induction false} AlwaysConsistent(n: nat, timeout: int, start: int, es: seq<Event>)
    requires 0 < n && 0 < timeout
    ensures Consistent(After(Started(n, timeout, start), es))
    ensures |After(Started(n, timeout, start), es).components| == n
  {
    if es != [] {
      AlwaysConsistent(n, timeout, start, es[..|es| - 1]);
      ConsistentStep(After(Started(n, timeout, start), es[..|es| - 1]), es[|es| - 1]);
    }
  }

  /**
   For any number of components and any interleaving: success means every component returned nil; a
   component's error means that component failed and all have returned; a timeout is reported only once
   shutdownTimeout has passed since cancellation.
   */
  lemma RunOutcome(n: nat, timeout: int, start: int, es: seq<Event>)
    requires 0 < n && 0 < timeout
    ensures var s := After(Started(n, timeout, start), es);
            s.phase.Done? ==> ResultMeans(s, s.phase.result)
  {
    AlwaysConsistent(n, timeout, start, es);
  }

  /** Once any component has returned, every component sees a cancelled context, whatever happens later. */
  lemma OthersSeeCancellation(n: nat, timeout: int, start: int, es: seq<Event>, i: nat)
    requires 0 < n && 0 < timeout && i < n
    ensures var s := After(Started(n, timeout, start), es);
            |s.components| == n && (!s.components[i].Running? ==> s.cancelledAt.Some?)
  {
    AlwaysConsistent(n, timeout, start, es);
  }

  /** The reported failure is the first the group recorded: no failure had been recorded before it. */
  lemma {:induction false} FirstFailureWins(n: nat, timeout: int, start: int, es: seq<Event>)
    requires 0 < n && 0 < timeout
    ensures var s := After(Started(n, timeout, start), es);
            s.phase.Done? && s.phase.result.ComponentFailed? ==> RecordedFirst(n, timeout, start, es, s.phase.result.component)
  {
    var s := After(Started(n, timeout, start), es);
    AlwaysConsistent(n, timeout, start, es);
    if s.first.Some? {
      FirstIsEarliest(n, timeout, start, es);
    }
  }

  ghost predicate RecordedFirst(n: nat, timeout: int, start: int, es: seq<Event>, i: nat) {
    exists k :: 0 <= k < |es| && es[k] == Record(i)
      && var before := After(Started(n, timeout, start), es[..k]);
         && Enabled(before, es[k]) && before.components[i].err.Some?
         && forall j :: 0 <= j < |before.components| ==> !FailedStatus(before.components[j])
  }

  lemma {:induction false} FirstIsEarliest(n: nat, timeout: int, start: int, es: seq<Event>)
    requires 0 < n && 0 < timeout && After(Started(n, timeout, start), es).first.Some?
    ensures RecordedFirst(n, timeout, start, es, After(Started(n, timeout, start), es).first.value)
  {
    var init := es[..|es| - 1];
    var before := After(Started(n, timeout, start), init);
    AlwaysConsistent(n, timeout, start, init);
    if before.first.Some? {
      FirstIsEarliest(n, timeout, start, init);
      var k :| 0 <= k < |init| && init[k] == Record(before.first.value)
        && var earlier := After(Started(n, timeout, start), init[..k]);
           && Enabled(earlier, init[k]) && earlier.components[before.first.value].err.Some?
           && forall j :: 0 <= j < |earlier.components| ==> !FailedStatus(earlier.components[j]);
      assert init[..k] == es[..k] && es[k] == init[k];
    } else {
      assert es[..|es| - 1] == init && es[|es| - 1].Record?;
    }
  }

  // ---- Run returns in time ----

  /** Some case of the select Run is in is ready. */
  predicate Ready(s: State) {
    Enabled(s, GroupDone) || Enabled(s, SeeCancelled) || Enabled(s, TimerFired)
  }

  /** Time does not pass over an instant at which a case is ready: Run takes it first. */
  ghost predicate Urgent(s: State, e: Event) {
    e.Tick? ==> forall u {:trigger s.(now := u)} :: s.now <= u < e.time ==> !Ready(s.(now := u))
  }

  ghost predicate UrgentRun(s: State, es: seq<Event>) {
    es == [] || (UrgentRun(s, es[..|es| - 1]) && Urgent(After(s, es[..|es| - 1]), es[|es| - 1]))
  }

  /** Where Run stands between cancellation and its return. */
  predicate InTime(s: State) {
    s.phase.Done? ||
    (s.cancelledAt.Some? ==>
       && s.now <= s.cancelledAt.value + s.timeout
       && (s.phase.Watching? ==> s.now == s.cancelledAt.value)
       && (s.phase.Stopping? ==> s.phase.deadline == s.cancelledAt.value + s.timeout))
  }

  lemma NotReadyAt(s: State, time: int, u: int)
    requires Urgent(s, Tick(time)) && s.now <= u < time
    ensures !Ready(s.(now := u))
  {
  }

  lemma InTimeTick(s: State, time: int)
    requires Consistent(s) && InTime(s) && s.now <= time && Urgent(s, Tick(time))
    ensures InTime(s.(now := time))
  {
    if s.now < time && s.cancelledAt.Some? && !s.phase.Done? {
      if s.phase.Watching? {
        NotReadyAt(s, time, s.now);
        assert false;
      } else if s.phase.deadline < time {
        NotReadyAt(s, time, s.phase.deadline);
        assert false;
      }
    }
  }

  lemma InTimeStep(s: State, e: Event)
    requires Consistent(s) && InTime(s) && Urgent(s, e)
    ensures InTime(Next(s, e)) && Next(s, e).timeout == s.timeout
  {
    if e.Tick? && Enabled(s, e) {
      InTimeTick(s, e.time);
    }
  }

  /** While Run has not returned, no more than the shutdown timeout has passed since cancellation. */
  lemma {:induction false} ReturnsInTime(n: nat, timeout: int, start: int, es: seq<Event>)
    requires 0 < n && 0 < timeout && UrgentRun(Started(n, timeout, start), es)
    ensures var s := After(Started(n, timeout, start), es);
            && s.timeout == timeout && InTime(s)
            && (s.cancelledAt.Some? && !s.phase.Done? ==> s.now <= s.cancelledAt.value + timeout)
  {
    if es != [] {
      var init := es[..|es| - 1];
      ReturnsInTime(n, timeout, start, init);
      AlwaysConsistent(n, timeout, start, init);
      InTimeStep(After(Started(n, timeout, start), init), es[|es| - 1]);
    }
  }

  /** Run's own way out of a cancelled state: see the cancellation, wait for the timer, take its case. */
  function WayOut(s: State): seq<Event> {
    var deadline := if s.phase.Stopping? then s.phase.deadline else s.now + s.timeout;
    [SeeCancelled, Tick(if deadline >= s.now then deadline else s.now), TimerFired]
  }

  /**
   Run cannot get stuck: from every cancelled state of every interleaving, without any help from the components,
   its own two events and the time until its deadline end it, and that deadline is a shutdown timeout after it saw
   the cancellation; once every component is recorded, one event of its own ends it at once.
   */
  lemma AlwaysEnds(n: nat, timeout: int, start: int, es: seq<Event>)
    requires 0 < n && 0 < timeout && After(Started(n, timeout, start), es).cancelledAt.Some?
    ensures var s := After(Started(n, timeout, start), es);
            var done := Next(Next(Next(s, WayOut(s)[0]), WayOut(s)[1]), WayOut(s)[2]);
            && done.phase.Done?
            && (s.phase.Watching? ==> done.now == s.now + timeout && done.phase.result == TimedOut)
            && (s.phase.Stopping? && s.now <= s.phase.deadline ==> done.now == s.phase.deadline)
            && (AllRecorded(s) ==> Next(s, GroupDone).phase.Done? && Next(s, GroupDone).now == s.now)
  {
    AlwaysConsistent(n, timeout, start, es);
    TimeoutKept(n, timeout, start, es);
  }

  lemma {:induction false} TimeoutKept(n: nat, timeout: int, start: int, es: seq<Event>)
    ensures After(Started(n, timeout, start), es).timeout == timeout
  {
    if es != [] {
      TimeoutKept(n, timeout, start, es[..|es| - 1]);
    }
  }

  // ---- Cancellation and results, by what has happened ----

  /** The parent's cancellation, or the return of a component that was running. */
  predicate Cancels(s: State, e: Event) {
    match e
    case ParentCancelled => true
    case Return(i, _) => i < |s.components| && s.components[i].Running?
    case _ => false
  }

  ghost function At(n: nat, timeout: int, start: int, es: seq<Event>, k: nat): State
    requires k <= |es|
  {
    After(Started(n, timeout, start), es[..k])
  }

  /** Event k is the first that cancels. */
  ghost predicate FirstCancel(n: nat, timeout: int, start: int, es: seq<Event>, k: nat) {
    && k < |es| && Cancels(At(n, timeout, start, es, k), es[k])
    && forall j :: 0 <= j < k ==> !Cancels(At(n, timeout, start, es, j), es[j])
  }

  lemma AtPrefix(n: nat, timeout: int, start: int, es: seq<Event>)
    requires es != []
    ensures var init := es[..|es| - 1];
            && (forall k :: 0 <= k <= |init| ==> At(n, timeout, start, init, k) == At(n, timeout, start, es, k))
            && At(n, timeout, start, es, |init|) == After(Started(n, timeout, start), init)
            && At(n, timeout, start, es, |es|) == After(Started(n, timeout, start), es)
  {
    var init := es[..|es| - 1];
    assert es[..|es|] == es;
    forall k | 0 <= k <= |init| ensures init[..k] == es[..k] {
    }
  }

  lemma CancelStep(s: State, e: Event)
    requires Consistent(s)
    ensures s.cancelledAt.Some? ==> Next(s, e).cancelledAt == s.cancelledAt
    ensures s.cancelledAt.None? ==> Next(s, e).cancelledAt == if Cancels(s, e) then Some(s.now) else None
  {
    if e.GroupDone? && Enabled(s, e) {
      assert s.components[0].Recorded?;
    }
  }

  /**
   In every interleaving the shared context is cancelled exactly when the parent's has been or a component has
   returned, and since the first of these.
   */
  lemma {:induction false} CancelledExactly(n: nat, timeout: int, start: int, es: seq<Event>)
    requires 0 < n && 0 < timeout
    ensures var s := After(Started(n, timeout, start), es);
            && (s.cancelledAt.None? <==> forall k :: 0 <= k < |es| ==> !Cancels(At(n, timeout, start, es, k), es[k]))
            && (s.cancelledAt.Some? ==> exists k :: 0 <= k < |es| && FirstCancel(n, timeout, start, es, k)
                                         && s.cancelledAt.value == At(n, timeout, start, es, k).now)
  {
    if es != [] {
      var init := es[..|es| - 1];
      var s := After(Started(n, timeout, start), init);
      CancelledExactly(n, timeout, start, init);
      AlwaysConsistent(n, timeout, start, init);
      AtPrefix(n, timeout, start, es);
      CancelStep(s, es[|es| - 1]);
      if s.cancelledAt.Some? {
        var k :| 0 <= k < |init| && FirstCancel(n, timeout, start, init, k) && s.cancelledAt.value == At(n, timeout, start, init, k).now;
        assert init[k] == es[k] && FirstCancel(n, timeout, start, es, k);
      } else {
        forall k | 0 <= k < |init| ensures !Cancels(At(n, timeout, start, es, k), es[k]) {
          assert init[k] == es[k];
        }
        if Cancels(s, es[|es| - 1]) {
          assert FirstCancel(n, timeout, start, es, |init|);
        }
      }
    }
  }

  /** A signal to the parent ends Run, with no help from any component: it sees the cancellation, waits, and times out. */
  lemma ParentEndsRun(n: nat, timeout: int, start: int, es: seq<Event>, k: nat)
    requires 0 < n && 0 < timeout && k < |es| && es[k] == ParentCancelled
    ensures var s := After(Started(n, timeout, start), es);
            s.cancelledAt.Some? && Next(Next(Next(s, WayOut(s)[0]), WayOut(s)[1]), WayOut(s)[2]).phase.Done?
  {
    CancelledExactly(n, timeout, start, es);
    assert Cancels(At(n, timeout, start, es, k), es[k]);
    AlwaysEnds(n, timeout, start, es);
  }

  /** What component i returned: a component returns once. */
  function ReturnOf(es: seq<Event>, i: nat): Option<Failure> {
    if es == [] then None
    else
      var before := ReturnOf(es[..|es| - 1], i);
      if before.None? && es[|es| - 1].Return? && es[|es| - 1].i == i then Some(es[|es| - 1].err) else before
  }

  predicate AllReturnedNil(es: seq<Event>, n: nat) {
    forall i: nat | i < n :: ReturnOf(es, i) == Some(None)
  }

  /** A component runs until it returns, and its recorded outcome is what it returned. */
  lemma {:induction false} StatusIsReturn(n: nat, timeout: int, start: int, es: seq<Event>, i: nat)
    requires i < n
    ensures var s := After(Started(n, timeout, start), es);
            && |s.components| == n
            && (s.components[i].Running? <==> ReturnOf(es, i).None?)
            && (!s.components[i].Running? ==> ReturnOf(es, i) == Some(s.components[i].err))
  {
    if es != [] {
      StatusIsReturn(n, timeout, start, es[..|es| - 1], i);
    }
  }

  /** The group records every component that has returned, keeps its outcome, and its error if it is the first. */
  lemma RecordStep(s: State, i: nat)
    requires i < |s.components| && s.components[i].Returned?
    ensures var s' := Next(s, Record(i));
            && s'.components == s.components[i := Recorded(s.components[i].err)]
            && s'.first == (if s.first == None && s.components[i].err != None then Some(i) else s.first)
            && s'.cancelledAt == s.cancelledAt && s'.phase == s.phase && s'.now == s.now
  {
  }

  /** The group's result when all are recorded: success exactly when none of them failed. */
  lemma GroupDoneResult(s: State)
    requires Consistent(s) && AllRecorded(s) && !s.phase.Done?
    ensures var done := Next(s, GroupDone);
            && done.phase.Done? && !done.phase.result.TimedOut?
            && (done.phase.result == Success <==> forall i :: 0 <= i < |s.components| ==> s.components[i].err == None)
  {
    if forall i :: 0 <= i < |s.components| ==> s.components[i].err == None {
      assert s.first.None?;
    }
  }

  /** Run's result, by what the components returned; when all are back and recorded, it is theirs. */
  lemma ResultByReturns(n: nat, timeout: int, start: int, es: seq<Event>)
    requires 0 < n && 0 < timeout
    ensures var s := After(Started(n, timeout, start), es);
            && (s.phase == Done(Success) ==> AllReturnedNil(es, n))
            && (s.phase.Done? && s.phase.result.ComponentFailed? ==>
                  ReturnOf(es, s.phase.result.component) == Some(Some(s.phase.result.err)))
            && (!s.phase.Done? && AllRecorded(s) ==>
                  var done := Next(s, GroupDone);
                  && done.phase.Done? && !done.phase.result.TimedOut?
                  && (done.phase.result == Success <==> AllReturnedNil(es, n)))
  {
    var s := After(Started(n, timeout, start), es);
    AlwaysConsistent(n, timeout, start, es);
    forall i | 0 <= i < n
      ensures !s.components[i].Running? ==> ReturnOf(es, i) == Some(s.components[i].err)
    {
      StatusIsReturn(n, timeout, start, es, i);
    }
    if !s.phase.Done? && AllRecorded(s) {
      GroupDoneResult(s);
      NilMeansNil(n, timeout, start, es);
    }
  }

  lemma NilMeansNil(n: nat, timeout: int, start: int, es: seq<Event>)
    requires AllRecorded(After(Started(n, timeout, start), es))
    ensures var s := After(Started(n, timeout, start), es);
            AllReturnedNil(es, n) <==> forall i :: 0 <= i < |s.components| ==> s.components[i].err == None
  {
    var s := After(Started(n, timeout, start), es);
    forall i: nat | i < n ensures |s.components| == n && ReturnOf(es, i) == Some(s.components[i].err) {
      StatusIsReturn(n, timeout, start, es, i);
    }
    SameCount(n, timeout, start, es);
    if AllReturnedNil(es, n) {
      forall i: nat | i < n ensures s.components[i].err == None {
        assert ReturnOf(es, i) == Some(None);
      }
    }
  }

  lemma {:induction false} SameCount(n: nat, timeout: int, start: int, es: seq<Event>)
    ensures |After(Started(n, timeout, start), es).components| == n
  {
    if es != [] {
      SameCount(n, timeout, start, es[..|es| - 1]);
    }
  }
}
