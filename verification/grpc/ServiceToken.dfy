/** The service-token cache (grpcclient/service.go), with the expiry arithmetic of token/token.go. Times are nanoseconds. */
module ServiceToken {
  import opened Durations
  import opened Products
  import opened Wrappers

  const DEFAULT_TTL := 300 * SECOND
  const RENEW_BEFORE := 30 * SECOND

  datatype TokenError = NotConfigured | IssueFailed

  /** What the token manager answers: when it read its clock, and the token if it could sign one. */
  datatype Issue = Issue(at: int, raw: Option<string>)

  datatype Cache = Cache(cached: string, expires: int)

  const EMPTY := Cache("", 0)

  /** The exp claim is a whole number of seconds. */
  function Expiry(at: int, ttl: int): (e: int)
    ensures at + ttl - SECOND < e <= at + ttl
    ensures e % SECOND == 0
  {
    at + ttl - (at + ttl) % SECOND
  }

  predicate Fresh(c: Cache, now: int) {
    c.cached != "" && now < c.expires - RENEW_BEFORE
  }

  function Served(c: Cache, ttl: int, now: int, issue: Issue): (r: (Cache, Result<string, TokenError>)) {
    if Fresh(c, now) then (c, Ok(c.cached))
    else
      match issue.raw
      case None => (c, Err(IssueFailed))
      case Some(raw) => (Cache(raw, Expiry(issue.at, ttl)), Ok(raw))
  }

  class ServiceTokenSource {
    const configured: bool
    const ttl: int
    var cached: string
    var expires: int

    constructor (configured: bool, ttl: int)
      ensures this.configured == configured && this.ttl == (if ttl <= 0 then DEFAULT_TTL else ttl) && this.ttl > 0
      ensures Cache(cached, expires) == EMPTY
    {
      this.configured := configured;
      this.ttl := if ttl <= 0 then DEFAULT_TTL else ttl;
      cached, expires := "", 0;
    }

    /** `now` is the source's clock and `issue` the manager's answer, should it be asked. */
    method Token(now: int, issue: Issue) returns (r: Result<string, TokenError>)
      modifies this
      ensures !configured ==> r == Err(NotConfigured) && cached == old(cached) && expires == old(expires)
      ensures configured ==> (Cache(cached, expires), r) == Served(old(Cache(cached, expires)), ttl, now, issue)
    {
      if !configured {
        return Err(NotConfigured);
      }
      if cached != "" && now < expires - RENEW_BEFORE {
        return Ok(cached);
      }
      if issue.raw.None? {
        return Err(IssueFailed);
      }
      cached := issue.raw.value;
      expires := issue.at + ttl - (issue.at + ttl) % SECOND;
      return Ok(issue.raw.value);
    }
  }

  // ---- Sequences of calls ----

  datatype Call = Call(now: int, issue: Issue)

  /** One clock: reads never go back, within a call or from call to call, and a signed token is not empty. */
  predicate Clocked(calls: seq<Call>) {
    && (forall k :: 0 <= k < |calls| ==> calls[k].now <= calls[k].issue.at && calls[k].issue.raw != Some(""))
    && forall j, k :: 0 <= j < k < |calls| ==> calls[j].issue.at <= calls[k].now
  }

  function StateAfter(ttl: int, calls: seq<Call>): Cache {
    if calls == [] then EMPTY
    else
      var call := calls[|calls| - 1];
      Served(StateAfter(ttl, calls[..|calls| - 1]), ttl, call.now, call.issue).0
  }

  function StateBefore(ttl: int, calls: seq<Call>, k: nat): Cache
    requires k < |calls|
  {
    StateAfter(ttl, calls[..k])
  }

  function Answer(ttl: int, calls: seq<Call>, k: nat): Result<string, TokenError>
    requires k < |calls|
  {
    Served(StateBefore(ttl, calls, k), ttl, calls[k].now, calls[k].issue).1
  }

  /** Call k asked for a new token and got one. */
  predicate Issues(ttl: int, calls: seq<Call>, k: nat)
    requires k < |calls|
  {
    !Fresh(StateBefore(ttl, calls, k), calls[k].now) && calls[k].issue.raw.Some?
  }

  /** When call k returns: a cached token at once, a new one after the manager's clock read. */
  function ReturnedAt(ttl: int, calls: seq<Call>, k: nat): int
    requires k < |calls|
  {
    if Fresh(StateBefore(ttl, calls, k), calls[k].now) then calls[k].now else calls[k].issue.at
  }

  /** The cache holds the last issued token, or nothing was issued yet. */
  ghost predicate FromIssue(ttl: int, calls: seq<Call>, c: Cache, j: nat)
    requires j < |calls|
  {
    && Issues(ttl, calls, j)
    && c == Cache(calls[j].issue.raw.value, Expiry(calls[j].issue.at, ttl))
    && forall k :: j < k < |calls| ==> !Issues(ttl, calls, k)
  }

  lemma {:induction false} CacheIsLastIssue(ttl: int, calls: seq<Call>)
    ensures var c := StateAfter(ttl, calls);
            || (c == EMPTY && forall k :: 0 <= k < |calls| ==> !Issues(ttl, calls, k))
            || exists j :: 0 <= j < |calls| && FromIssue(ttl, calls, c, j)
  {
    if calls != [] {
      var init := calls[..|calls| - 1];
      CacheIsLastIssue(ttl, init);
      forall k | 0 <= k < |init| ensures Issues(ttl, calls, k) <==> Issues(ttl, init, k) {
        assert calls[..k] == init[..k];
      }
      var last := |calls| - 1;
      if Issues(ttl, calls, last) {
        assert FromIssue(ttl, calls, StateAfter(ttl, calls), last);
      } else if j :| 0 <= j < |init| && FromIssue(ttl, init, StateAfter(ttl, init), j) {
        assert FromIssue(ttl, calls, StateAfter(ttl, calls), j);
      }
    }
  }

  /** The last issue before call k, still good for more than the renewal margin at that call. */
  ghost predicate CachedFrom(ttl: int, calls: seq<Call>, j: nat, k: nat)
    requires j < k < |calls|
  {
    && Issues(ttl, calls, j) && (forall i :: j < i < k ==> !Issues(ttl, calls, i))
    && calls[k].now < Expiry(calls[j].issue.at, ttl) - 30 * SECOND
  }

  lemma FromIssueMeans(ttl: int, calls: seq<Call>, k: nat, j: nat)
    requires k < |calls| && j < k && FromIssue(ttl, calls[..k], StateBefore(ttl, calls, k), j)
    ensures Issues(ttl, calls, j) && (forall i :: j < i < k ==> !Issues(ttl, calls, i))
    ensures StateBefore(ttl, calls, k) == Cache(calls[j].issue.raw.value, Expiry(calls[j].issue.at, ttl))
  {
    forall i | 0 <= i < k ensures Issues(ttl, calls[..k], i) <==> Issues(ttl, calls, i) {
      assert calls[..k][..i] == calls[..i];
    }
  }

  /**
   A call is answered exactly when the last issued token has more than the renewal margin left, and then with
   that token, or the manager signs, and then, if the token has not, with the new one.
   */
  lemma AnsweredIff(ttl: int, calls: seq<Call>, k: nat)
    requires Clocked(calls) && k < |calls|
    ensures var cached := exists j :: 0 <= j < k && CachedFrom(ttl, calls, j, k);
            && (Answer(ttl, calls, k).Ok? <==> cached || calls[k].issue.raw.Some?)
            && (forall j :: 0 <= j < k && CachedFrom(ttl, calls, j, k) ==> Answer(ttl, calls, k) == Ok(calls[j].issue.raw.value))
            && (!cached && calls[k].issue.raw.Some? ==> Answer(ttl, calls, k) == Ok(calls[k].issue.raw.value))
            && (!cached && calls[k].issue.raw.None? ==> Answer(ttl, calls, k) == Err(IssueFailed))
  {
    CacheIsLastIssue(ttl, calls[..k]);
    if StateBefore(ttl, calls, k) == EMPTY {
      NothingCached(ttl, calls, k);
    } else {
      var j :| 0 <= j < k && FromIssue(ttl, calls[..k], StateBefore(ttl, calls, k), j);
      FromIssueMeans(ttl, calls, k, j);
      assert calls[j].issue.raw != Some("");
      assert Fresh(StateBefore(ttl, calls, k), calls[k].now) <==> CachedFrom(ttl, calls, j, k);
      forall i | 0 <= i < k && CachedFrom(ttl, calls, i, k) ensures i == j {
      }
    }
  }

  lemma NothingCached(ttl: int, calls: seq<Call>, k: nat)
    requires Clocked(calls) && k < |calls| && StateBefore(ttl, calls, k) == EMPTY
    ensures forall j :: 0 <= j < k ==> !Issues(ttl, calls, j)
  {
    CacheIsLastIssue(ttl, calls[..k]);
    forall i | 0 <= i < k ensures Issues(ttl, calls[..k], i) <==> Issues(ttl, calls, i) {
      assert calls[..k][..i] == calls[..i];
    }
    forall j | 0 <= j < k ensures !FromIssue(ttl, calls[..k], EMPTY, j) {
      assert calls[..k][j] == calls[j];
    }
  }

  /**
   Every token returned was issued by this or an earlier call, and has more than min(30s, ttl - 1s) left
   when it is returned.
   */
  lemma ReturnedTokensAreFresh(ttl: int, calls: seq<Call>, k: nat)
    requires ttl > 0 && Clocked(calls) && k < |calls| && Answer(ttl, calls, k).Ok?
    ensures exists j :: 0 <= j <= k && IssuedAndFresh(ttl, calls, j, k)
  {
    if Fresh(StateBefore(ttl, calls, k), calls[k].now) {
      CacheIsLastIssue(ttl, calls[..k]);
      var j :| 0 <= j < k && FromIssue(ttl, calls[..k], StateBefore(ttl, calls, k), j);
      assert calls[..k][..j] == calls[..j];
      assert IssuedAndFresh(ttl, calls, j, k);
    } else {
      assert IssuedAndFresh(ttl, calls, k, k);
    }
  }

  ghost predicate IssuedAndFresh(ttl: int, calls: seq<Call>, j: nat, k: nat)
    requires j <= k < |calls|
  {
    && Issues(ttl, calls, j)
    && Answer(ttl, calls, k) == Ok(calls[j].issue.raw.value)
    && Expiry(calls[j].issue.at, ttl) - ReturnedAt(ttl, calls, k) > Min(RENEW_BEFORE, ttl - SECOND)
  }

  /** Any two issues are more than ttl - 31s apart. */
  lemma IssuesAreApart(ttl: int, calls: seq<Call>, i: nat, k: nat)
    requires ttl > 0 && Clocked(calls) && i < k < |calls| && Issues(ttl, calls, i) && Issues(ttl, calls, k)
    ensures calls[k].now - calls[i].issue.at > ttl - 31 * SECOND
  {
    CacheIsLastIssue(ttl, calls[..k]);
    assert calls[..k][..i] == calls[..i];
    assert Issues(ttl, calls[..k], i);
    var j :| 0 <= j < k && FromIssue(ttl, calls[..k], StateBefore(ttl, calls, k), j);
    assert i <= j;
    assert calls[..k][..j] == calls[..j];
    assert calls[j].issue.raw.value != "";
    assert calls[i].issue.at <= calls[j].issue.at;
  }

  /** How many of the first n calls issue a token. */
  function IssueCount(ttl: int, calls: seq<Call>, n: nat): nat
    requires n <= |calls|
  {
    if n == 0 then 0 else IssueCount(ttl, calls, n - 1) + if Issues(ttl, calls, n - 1) then 1 else 0
  }

  /** From one issue to a later one: the gaps between successive issues add up. */
  lemma {:induction false} IssueGaps(ttl: int, calls: seq<Call>, first: nat, last: nat, gap: int)
    requires gap == ttl - 31 * SECOND && ttl > 0 && Clocked(calls) && first < last < |calls|
    requires Issues(ttl, calls, first) && Issues(ttl, calls, last)
    ensures IssueCount(ttl, calls, first) < IssueCount(ttl, calls, last)
    ensures calls[last].issue.at - calls[first].issue.at >
            Times(IssueCount(ttl, calls, last) - IssueCount(ttl, calls, first), gap)
    decreases last
  {
    var prev := LastIssueBefore(ttl, calls, first, last);
    IssuesAreApart(ttl, calls, prev, last);
    if first < prev {
      IssueGaps(ttl, calls, first, prev, gap);
      OneMoreGap(calls[first].issue.at, calls[prev].issue.at, calls[last].issue.at,
                 IssueCount(ttl, calls, prev) - IssueCount(ttl, calls, first), gap);
    } else {
      assert Times(1, gap) == Times(0, gap) + gap;
    }
  }

  lemma OneMoreGap(a: int, b: int, c: int, gaps: nat, gap: int)
    requires b - a > Times(gaps, gap) && c - b > gap
    ensures c - a > Times(gaps + 1, gap)
  {
  }

  /** The rate bound: k + 1 issues, k > 0, take more than k times (ttl - 31s). */
  lemma IssueRate(ttl: int, calls: seq<Call>, first: nat, last: nat)
    requires ttl > 0 && Clocked(calls) && first < last < |calls|
    requires Issues(ttl, calls, first) && Issues(ttl, calls, last)
    ensures var later := IssueCount(ttl, calls, last) - IssueCount(ttl, calls, first);
            calls[last].issue.at - calls[first].issue.at > later * (ttl - 31 * SECOND)
  {
    IssueGaps(ttl, calls, first, last, ttl - 31 * SECOND);
    TimesIs(IssueCount(ttl, calls, last) - IssueCount(ttl, calls, first), ttl - 31 * SECOND);
  }

  lemma {:induction false} LastIssueBefore(ttl: int, calls: seq<Call>, first: nat, last: nat) returns (prev: nat)
    requires first < last < |calls| && Issues(ttl, calls, first)
    ensures first <= prev < last && Issues(ttl, calls, prev)
    ensures IssueCount(ttl, calls, last) == IssueCount(ttl, calls, prev) + 1
    decreases last
  {
    if Issues(ttl, calls, last - 1) {
      prev := last - 1;
    } else {
      prev := LastIssueBefore(ttl, calls, first, last - 1);
    }
  }
}
