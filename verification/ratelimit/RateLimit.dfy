/** The fixed-window limiter over Redis counters (ratelimit/ratelimit.go). Times are milliseconds of the Redis clock. */
module RateLimit {
  import opened Wrappers

  /** A stored counter; a key is gone from its expiry instant on. */
  datatype Entry = Entry(count: int, expiresAt: Option<int>)

  datatype Outcome = Outcome(allowed: bool, count: int, retryAfter: int)

  datatype Config = Config(limit: int, window: int)

  function WithDefaults(c: Config): Config {
    Config(if c.limit <= 0 then 20 else c.limit, if c.window <= 0 then 60_000 else c.window)
  }

  predicate Usable(c: Config) {
    0 < c.limit && 0 < c.window
  }

  /** A positive limit and a positive window are each kept, and what is not positive takes its own default. */
  lemma DefaultsOneByOne(c: Config)
    ensures c.limit > 0 ==> WithDefaults(c).limit == c.limit
    ensures c.limit <= 0 ==> WithDefaults(c).limit == 20
    ensures c.window > 0 ==> WithDefaults(c).window == c.window
    ensures c.window <= 0 ==> WithDefaults(c).window == 60_000
  {
  }

  /** EXPIRE carries whole seconds, and at least one. */
  function Ttl(c: Config): (ttl: int)
    requires Usable(c)
    ensures 0 < ttl && ttl % 1000 == 0
    ensures c.window < 1000 ==> ttl == 1000
    ensures 1000 <= c.window ==> ttl <= c.window < ttl + 1000
  {
    if c.window < 1000 then 1000 else c.window - c.window % 1000
  }

  /** What INCR sees at this time. */
  function Seen(stored: Option<Entry>, now: int): Option<Entry> {
    if stored.Some? && (stored.value.expiresAt.Some? ==> now < stored.value.expiresAt.value) then stored else None
  }

  /** INCR, EXPIRE NX and PTTL in one transaction: the new entry and the answer. */
  function Hit(c: Config, stored: Option<Entry>, now: int): (r: (Entry, Outcome))
    requires Usable(c)
    ensures r.0.expiresAt.Some? && now < r.0.expiresAt.value
    ensures r.1.allowed <==> r.1.count <= c.limit
    ensures !r.1.allowed ==> now + r.1.retryAfter == r.0.expiresAt.value
  {
    var seen := Seen(stored, now);
    var count := if seen.Some? then seen.value.count + 1 else 1;
    var expiresAt := if seen.Some? && seen.value.expiresAt.Some? then seen.value.expiresAt.value else now + Ttl(c);
    var remaining := expiresAt - now;
    var allowed := count <= c.limit;
    (Entry(count, Some(expiresAt)),
     Outcome(allowed, count, if allowed then 0 else if remaining > 0 then remaining else c.window))
  }

  class Limiter {
    const prefix: string
    const config: Config
    var store: map<string, Entry>

    constructor (prefix: string, config: Config, store: map<string, Entry>)
      ensures this.prefix == prefix && this.config == WithDefaults(config) && Usable(this.config)
      ensures (config.limit > 0 ==> this.config.limit == config.limit) && (config.window > 0 ==> this.config.window == config.window)
      ensures this.store == store
    {
      this.prefix := prefix;
      this.config := WithDefaults(config);
      this.store := store;
    }

    function Key(key: string): string {
      "ratelimit:" + prefix + ":" + key
    }

    function Stored(key: string): Option<Entry>
      reads this
    {
      if Key(key) in store then Some(store[Key(key)]) else None
    }

    method Allow(key: string, now: int) returns (r: Outcome)
      requires Usable(config)
      modifies this
      ensures store == old(store)[Key(key) := Hit(config, old(Stored(key)), now).0]
      ensures r == Hit(config, old(Stored(key)), now).1
    {
      var count, expiresAt := 1, None;
      if Key(key) in store {
        var entry := store[Key(key)];
        if entry.expiresAt.None? || now < entry.expiresAt.value {
          count := entry.count + 1;
          expiresAt := entry.expiresAt;
        }
      }
      if expiresAt.None? {
        expiresAt := Some(now + Ttl(config));
      }
      store := store[Key(key) := Entry(count, expiresAt)];
      r := Outcome(count <= config.limit, count, 0);
      if !r.allowed {
        var remaining := expiresAt.value - now;
        r := r.(retryAfter := if remaining > 0 then remaining else config.window);
      }
    }

    method Reset(key: string)
      modifies this
      ensures store == old(store) - {Key(key)}
      ensures Stored(key) == None
    {
      store := store - {Key(key)};
    }

    /** Calls about one key leave the others' counters alone. */
    lemma KeysApart(key: string, other: string)
      requires key != other
      ensures Key(key) != Key(other)
    {
      var n := |"ratelimit:" + prefix + ":"|;
      assert Key(key)[n..] == key && Key(other)[n..] == other;
    }
  }

  /** Limiters with different prefixes do not share a counter, as long as no prefix holds the separator. */
  lemma PrefixesApart(a: Limiter, b: Limiter, key: string, other: string)
    requires a.prefix != b.prefix && ':' !in a.prefix && ':' !in b.prefix
    ensures a.Key(key) != b.Key(other)
  {
    var n := |"ratelimit:"|;
    assert a.Key(key)[n..] == a.prefix + ":" + key && b.Key(other)[n..] == b.prefix + ":" + other;
    FirstColon(a.prefix, key, b.prefix, other);
  }

  lemma EarlierColon(p: string, x: string, q: string, y: string)
    requires ':' !in q && |p| < |q|
    ensures p + ":" + x != q + ":" + y
  {
    assert (p + ":" + x)[|p|] == ':';
    assert (q + ":" + y)[|p|] == q[|p|] && q[|p|] in q;
  }

  lemma FirstColon(p: string, x: string, q: string, y: string)
    requires ':' !in p && ':' !in q && p != q
    ensures p + ":" + x != q + ":" + y
  {
    if |p| < |q| {
      EarlierColon(p, x, q, y);
    } else if |q| < |p| {
      EarlierColon(q, y, p, x);
    } else {
      assert (p + ":" + x)[..|p|] == p && (q + ":" + y)[..|q|] == q;
    }
  }

  /** A call sets an expiry one window ahead where it finds none, or none that is still ahead, and else leaves it. */
  lemma ExpirySet(c: Config, stored: Option<Entry>, now: int)
    requires Usable(c)
    ensures stored == None || stored.value.expiresAt == None || stored.value.expiresAt.value <= now ==>
              Hit(c, stored, now).0.expiresAt == Some(now + Ttl(c))
    ensures stored.Some? && stored.value.expiresAt.Some? && now < stored.value.expiresAt.value ==>
              Hit(c, stored, now).0 == Entry(stored.value.count + 1, stored.value.expiresAt)
    ensures Hit(c, stored, now).1.count == Hit(c, stored, now).0.count
    ensures Hit(c, stored, now).1.allowed ==> Hit(c, stored, now).1.retryAfter == 0
  {
  }

  // ---- Traces of one key ----

  datatype Call = Allow(at: int) | Reset(at: int)

  predicate Monotone(calls: seq<Call>, since: int) {
    calls == [] || (since <= calls[0].at && Monotone(calls[1..], calls[0].at))
  }

  function Step(c: Config, stored: Option<Entry>, call: Call): Option<Entry>
    requires Usable(c)
  {
    match call
    case Allow(at) => Some(Hit(c, stored, at).0)
    case Reset(_) => None
  }

  function Replay(c: Config, stored: Option<Entry>, calls: seq<Call>): Option<Entry>
    requires Usable(c)
    decreases calls
  {
    if calls == [] then stored else Replay(c, Step(c, stored, calls[0]), calls[1..])
  }

  predicate Granted(c: Config, stored: Option<Entry>, call: Call)
    requires Usable(c)
  {
    call.Allow? && Hit(c, stored, call.at).1.allowed
  }

  /** Allowed calls with lo <= at < hi. */
  function AllowedIn(c: Config, stored: Option<Entry>, calls: seq<Call>, lo: int, hi: int): nat
    requires Usable(c)
    decreases calls
  {
    if calls == [] then 0
    else
      (if lo <= calls[0].at < hi && Granted(c, stored, calls[0]) then 1 else 0)
      + AllowedIn(c, Step(c, stored, calls[0]), calls[1..], lo, hi)
  }

  function ResetsIn(calls: seq<Call>, lo: int, hi: int): nat {
    if calls == [] then 0
    else (if lo <= calls[0].at < hi && calls[0].Reset? then 1 else 0) + ResetsIn(calls[1..], lo, hi)
  }

  /** What INCR ever leaves: a positive count. */
  predicate Counted(stored: Option<Entry>) {
    stored.Some? ==> stored.value.count >= 1
  }

  /** An expiry no further ahead than this limiter sets it; an earlier, larger window may have left a later one. */
  predicate WithinWindow(c: Config, stored: Option<Entry>, now: int)
    requires Usable(c)
  {
    stored.Some? && stored.value.expiresAt.Some? ==> stored.value.expiresAt.value <= now + Ttl(c)
  }

  lemma StepKeeps(c: Config, stored: Option<Entry>, call: Call, since: int)
    requires Usable(c) && since <= call.at
    ensures Counted(stored) ==> Counted(Step(c, stored, call))
    ensures WithinWindow(c, stored, since) ==> WithinWindow(c, Step(c, stored, call), call.at)
  {
  }

  // ---- The sliding-window bound ----

  /** How many calls a key can still allow before hi, if nothing created before hi - ttl expires twice. */
  function Room(c: Config, stored: Option<Entry>, hi: int): nat
    requires Usable(c)
  {
    match stored
    case None => c.limit
    case Some(entry) =>
      (if entry.count < c.limit then c.limit - entry.count else 0)
      + (if entry.expiresAt.Some? && entry.expiresAt.value < hi then c.limit else 0)
  }

  lemma {:induction false} NothingAfter(c: Config, stored: Option<Entry>, calls: seq<Call>, since: int, lo: int, hi: int)
    requires Usable(c) && Monotone(calls, since) && hi <= since
    ensures AllowedIn(c, stored, calls, lo, hi) == 0
    decreases calls
  {
    if calls != [] {
      NothingAfter(c, Step(c, stored, calls[0]), calls[1..], calls[0].at, lo, hi);
    }
  }

  /** One call within the interval pays for itself out of the room, or a Reset refills it. */
  lemma RoomStep(c: Config, stored: Option<Entry>, call: Call, hi: int)
    requires Usable(c) && hi - Ttl(c) <= call.at < hi
    ensures call.Allow? ==>
              Room(c, Step(c, stored, call), hi) + (if Granted(c, stored, call) then 1 else 0) <= Room(c, stored, hi)
    ensures call.Reset? ==> Room(c, Step(c, stored, call), hi) <= c.limit
  {
  }

  lemma {:induction false} WithinInterval(c: Config, stored: Option<Entry>, calls: seq<Call>, since: int, hi: int)
    requires Usable(c) && Monotone(calls, since) && hi - Ttl(c) <= since
    ensures AllowedIn(c, stored, calls, hi - Ttl(c), hi) <=
            Room(c, stored, hi) + ResetsIn(calls, hi - Ttl(c), hi) * c.limit
    decreases calls
  {
    if calls != [] {
      var call, rest := calls[0], calls[1..];
      if call.at >= hi {
        NothingAfter(c, stored, calls, call.at, hi - Ttl(c), hi);
        assert ResetsIn(calls, hi - Ttl(c), hi) * c.limit >= 0;
      } else {
        WithinInterval(c, Step(c, stored, call), rest, call.at, hi);
        RoomStep(c, stored, call, hi);
        assert call.Reset? ==>
          ResetsIn(calls, hi - Ttl(c), hi) * c.limit == ResetsIn(rest, hi - Ttl(c), hi) * c.limit + c.limit;
      }
    }
  }

  lemma Distributes(r: nat, limit: int)
    ensures (2 + r) * limit == 2 * limit + r * limit
  {
  }

  /**
   For every trace on one key, from any counter, and every half-open interval one window long: at most
   (2 + R) * limit - 1 calls are allowed, with R the Resets that fall inside it.
   */
  lemma {:induction false} SlidingBound(c: Config, stored: Option<Entry>, calls: seq<Call>, since: int, lo: int)
    requires Usable(c) && Counted(stored) && Monotone(calls, since)
    ensures AllowedIn(c, stored, calls, lo, lo + Ttl(c)) <= (2 + ResetsIn(calls, lo, lo + Ttl(c))) * c.limit - 1
    decreases calls
  {
    if calls == [] {
    } else if lo <= calls[0].at {
      assert Monotone(calls, calls[0].at);
      WithinInterval(c, stored, calls, calls[0].at, lo + Ttl(c));
      assert Room(c, stored, lo + Ttl(c)) <= 2 * c.limit - 1;
      Distributes(ResetsIn(calls, lo, lo + Ttl(c)), c.limit);
    } else {
      StepKeeps(c, stored, calls[0], since);
      SlidingBound(c, Step(c, stored, calls[0]), calls[1..], calls[0].at, lo);
    }
  }

  // ---- The bound is reached ----

  function Burst(at: int, n: nat): seq<Call> {
    seq(n, _ => Allow(at))
  }

  lemma {:induction false} AllowedInSplit(c: Config, stored: Option<Entry>, first: seq<Call>, second: seq<Call>, lo: int, hi: int)
    requires Usable(c)
    ensures AllowedIn(c, stored, first + second, lo, hi) ==
            AllowedIn(c, stored, first, lo, hi) + AllowedIn(c, Replay(c, stored, first), second, lo, hi)
    decreases first
  {
    if first == [] {
      assert first + second == second;
    } else {
      assert (first + second)[1..] == first[1..] + second;
      AllowedInSplit(c, Step(c, stored, first[0]), first[1..], second, lo, hi);
    }
  }

  lemma {:induction false} BurstAllowed(c: Config, stored: Option<Entry>, at: int, n: nat, lo: int, hi: int)
    requires Usable(c) && Seen(stored, at).Some? && lo <= at < hi
    requires stored.value.count + n <= c.limit && stored.value.expiresAt.Some?
    ensures AllowedIn(c, stored, Burst(at, n), lo, hi) == n
    ensures Replay(c, stored, Burst(at, n)) == Some(stored.value.(count := stored.value.count + n))
    decreases n
  {
    if n > 0 {
      assert Burst(at, n)[1..] == Burst(at, n - 1);
      BurstAllowed(c, Step(c, stored, Allow(at)), at, n - 1, lo, hi);
    }
  }

  /** A whole limit at one instant. */
  function FullBurst(c: Config, at: int): seq<Call>
    requires Usable(c)
  {
    [Allow(at)] + Burst(at, c.limit - 1)
  }

  /** As many times a Reset and a whole limit, all at one instant. */
  function Refills(c: Config, at: int, resets: nat): seq<Call>
    requires Usable(c)
  {
    if resets == 0 then [] else ([Reset(at)] + FullBurst(c, at)) + Refills(c, at, resets - 1)
  }

  /** One call opens a window; the rest of its limit come at its last instant, a full limit and the refills at the next. */
  function Squeeze(c: Config, resets: nat): seq<Call>
    requires Usable(c)
  {
    [Allow(0)] + (Burst(Ttl(c) - 1, c.limit - 1) + (FullBurst(c, Ttl(c)) + Refills(c, Ttl(c), resets)))
  }

  /** A window opened by one call takes the rest of its limit in a burst. */
  lemma OpenAndBurst(c: Config, stored: Option<Entry>, at: int, lo: int, hi: int)
    requires Usable(c) && Seen(stored, at) == None && lo <= at < hi
    ensures AllowedIn(c, stored, FullBurst(c, at), lo, hi) == c.limit
  {
    var inUse := Step(c, stored, Allow(at));
    assert inUse == Some(Entry(1, Some(at + Ttl(c))));
    AllowedInSplit(c, stored, [Allow(at)], Burst(at, c.limit - 1), lo, hi);
    assert Replay(c, stored, [Allow(at)]) == inUse;
    assert AllowedIn(c, stored, [Allow(at)], lo, hi) == 1;
    BurstAllowed(c, inUse, at, c.limit - 1, lo, hi);
  }

  /** A Reset and a full limit, whatever the counter was. */
  lemma RefillAllowed(c: Config, stored: Option<Entry>, at: int, lo: int, hi: int)
    requires Usable(c) && lo <= at < hi
    ensures AllowedIn(c, stored, [Reset(at)] + FullBurst(c, at), lo, hi) == c.limit
    ensures ResetsIn([Reset(at)] + FullBurst(c, at), lo, hi) == 1
  {
    AllowedInSplit(c, stored, [Reset(at)], FullBurst(c, at), lo, hi);
    assert Replay(c, stored, [Reset(at)]) == None;
    assert AllowedIn(c, stored, [Reset(at)], lo, hi) == 0;
    OpenAndBurst(c, None, at, lo, hi);
    assert ([Reset(at)] + FullBurst(c, at))[1..] == FullBurst(c, at);
    NoResets(FullBurst(c, at), lo, hi);
  }

  lemma {:induction false} RefillsAllowed(c: Config, stored: Option<Entry>, at: int, resets: nat, lo: int, hi: int)
    requires Usable(c) && lo <= at < hi
    ensures AllowedIn(c, stored, Refills(c, at, resets), lo, hi) == resets * c.limit
    ensures ResetsIn(Refills(c, at, resets), lo, hi) == resets
    ensures forall i :: 0 <= i < |Refills(c, at, resets)| ==> Refills(c, at, resets)[i].at == at
    decreases resets
  {
    if resets > 0 {
      var block, rest := [Reset(at)] + FullBurst(c, at), Refills(c, at, resets - 1);
      RefillAllowed(c, stored, at, lo, hi);
      RefillsAllowed(c, Replay(c, stored, block), at, resets - 1, lo, hi);
      AllowedInSplit(c, stored, block, rest, lo, hi);
      ResetsInSplit(block, rest, lo, hi);
      assert (resets - 1) * c.limit + c.limit == resets * c.limit;
    }
  }

  lemma {:induction false} ResetsInSplit(first: seq<Call>, second: seq<Call>, lo: int, hi: int)
    ensures ResetsIn(first + second, lo, hi) == ResetsIn(first, lo, hi) + ResetsIn(second, lo, hi)
    decreases first
  {
    if first == [] {
      assert first + second == second;
    } else {
      assert (first + second)[1..] == first[1..] + second;
      ResetsInSplit(first[1..], second, lo, hi);
    }
  }

  lemma SqueezeAllowed(c: Config, resets: nat, lo: int, hi: int)
    requires Usable(c) && lo == 1 && hi == 1 + Ttl(c)
    ensures AllowedIn(c, None, Squeeze(c, resets), lo, hi) == (c.limit - 1) + c.limit + resets * c.limit
  {
    var w := Ttl(c);
    var inUse := Some(Entry(1, Some(w)));
    var first, second, refills := Burst(w - 1, c.limit - 1), FullBurst(c, w), Refills(c, w, resets);
    AllowedInSplit(c, None, [Allow(0)], first + (second + refills), lo, hi);
    assert Replay(c, None, [Allow(0)]) == inUse;
    assert AllowedIn(c, None, [Allow(0)], lo, hi) == 0;
    AllowedInSplit(c, inUse, first, second + refills, lo, hi);
    BurstAllowed(c, inUse, w - 1, c.limit - 1, lo, hi);
    var expired := Replay(c, inUse, first);
    AllowedInSplit(c, expired, second, refills, lo, hi);
    OpenAndBurst(c, expired, w, lo, hi);
    RefillsAllowed(c, Replay(c, expired, second), w, resets, lo, hi);
  }

  lemma SqueezeResets(c: Config, resets: nat, lo: int, hi: int)
    requires Usable(c) && lo == 1 && hi == 1 + Ttl(c)
    ensures ResetsIn(Squeeze(c, resets), lo, hi) == resets
  {
    var w := Ttl(c);
    var first, second, refills := Burst(w - 1, c.limit - 1), FullBurst(c, w), Refills(c, w, resets);
    ResetsInSplit([Allow(0)], first + (second + refills), lo, hi);
    ResetsInSplit(first, second + refills, lo, hi);
    ResetsInSplit(second, refills, lo, hi);
    NoResets(first, lo, hi);
    NoResets(second, lo, hi);
    NoResets([Allow(0)], lo, hi);
    RefillsAllowed(c, None, w, resets, lo, hi);
  }

  lemma {:induction false} SortedMonotone(calls: seq<Call>, since: int)
    requires forall i :: 0 <= i < |calls| ==> since <= calls[i].at
    requires forall i, j :: 0 <= i < j < |calls| ==> calls[i].at <= calls[j].at
    ensures Monotone(calls, since)
    decreases calls
  {
    if calls != [] {
      SortedMonotone(calls[1..], calls[0].at);
    }
  }

  lemma SqueezeMonotone(c: Config, resets: nat)
    requires Usable(c)
    ensures Monotone(Squeeze(c, resets), 0)
  {
    var w, calls := Ttl(c), Squeeze(c, resets);
    RefillsAllowed(c, None, w, resets, 1, 1 + w);
    forall i | 0 <= i < |calls| ensures calls[i].at == if i == 0 then 0 else if i < c.limit then w - 1 else w {
    }
    SortedMonotone(calls, 0);
  }

  /** For every limit, window and number of Resets some trace from an empty store reaches the bound. */
  lemma SlidingBoundTight(c: Config, resets: nat)
    requires Usable(c)
    ensures Monotone(Squeeze(c, resets), 0)
    ensures ResetsIn(Squeeze(c, resets), 1, 1 + Ttl(c)) == resets
    ensures AllowedIn(c, None, Squeeze(c, resets), 1, 1 + Ttl(c)) == (2 + resets) * c.limit - 1
  {
    SqueezeMonotone(c, resets);
    SqueezeResets(c, resets, 1, 1 + Ttl(c));
    SqueezeAllowed(c, resets, 1, 1 + Ttl(c));
    Distributes(resets, c.limit);
  }

  lemma {:induction false} NoResets(calls: seq<Call>, lo: int, hi: int)
    requires forall i :: 0 <= i < |calls| ==> calls[i].Allow?
    ensures ResetsIn(calls, lo, hi) == 0
    decreases calls
  {
    if calls != [] {
      NoResets(calls[1..], lo, hi);
    }
  }

  // ---- One window ----

  predicate AllAllows(calls: seq<Call>) {
    forall i :: 0 <= i < |calls| ==> calls[i].Allow?
  }

  /** The answer to the i-th call. */
  function Answer(c: Config, stored: Option<Entry>, calls: seq<Call>, i: nat): Outcome
    requires Usable(c) && i < |calls|
  {
    Hit(c, Replay(c, stored, calls[..i]), calls[i].at).1
  }

  lemma {:induction false} WindowCounts(c: Config, stored: Option<Entry>, calls: seq<Call>, since: int, end: int, i: nat)
    requires Usable(c) && i < |calls| && AllAllows(calls) && Monotone(calls, since)
    requires stored.Some? && stored.value.expiresAt == Some(end) && forall k :: 0 <= k < |calls| ==> calls[k].at < end
    ensures Answer(c, stored, calls, i).count == stored.value.count + 1 + i
    ensures !Answer(c, stored, calls, i).allowed ==> calls[i].at + Answer(c, stored, calls, i).retryAfter == end
    decreases calls
  {
    if i > 0 {
      var next := Step(c, stored, calls[0]);
      WindowCounts(c, next, calls[1..], calls[0].at, end, i - 1);
      assert calls[..i][1..] == calls[1..][..i - 1];
    }
  }

  /** A window opened by its first call allows exactly its first min(n, limit) calls, numbered from 1. */
  lemma WindowAllowsFirst(c: Config, stored: Option<Entry>, calls: seq<Call>, i: nat)
    requires Usable(c) && i < |calls| && AllAllows(calls) && Monotone(calls, calls[0].at)
    requires Seen(stored, calls[0].at) == None
    requires forall k :: 0 <= k < |calls| ==> calls[k].at < calls[0].at + Ttl(c)
    ensures Answer(c, stored, calls, i).count == i + 1
    ensures Answer(c, stored, calls, i).allowed <==> i < c.limit
  {
    if i > 0 {
      var inUse := Step(c, stored, calls[0]);
      WindowCounts(c, inUse, calls[1..], calls[0].at, calls[0].at + Ttl(c), i - 1);
      assert calls[..i][1..] == calls[1..][..i - 1];
    }
  }

  /**
   RetryAfter is exact. After a call denied at t, whatever calls follow without a Reset: those before
   t + RetryAfter are denied, and the first at or after it is allowed with count 1.
   */
  lemma RetryAfterExact(c: Config, stored: Option<Entry>, t: int, calls: seq<Call>, later: int)
    requires Usable(c) && !Hit(c, stored, t).1.allowed
    requires var end := t + Hit(c, stored, t).1.retryAfter;
             && AllAllows(calls) && Monotone(calls, t) && (forall k :: 0 <= k < |calls| ==> calls[k].at < end)
             && end <= later
    ensures var after := Step(c, stored, Allow(t));
            && 0 < Hit(c, stored, t).1.retryAfter
            && (WithinWindow(c, stored, t) ==> Hit(c, stored, t).1.retryAfter <= Ttl(c))
            && (forall i :: 0 <= i < |calls| ==> !Answer(c, after, calls, i).allowed)
            && Hit(c, Replay(c, after, calls), later).1.allowed
            && Hit(c, Replay(c, after, calls), later).1.count == 1
  {
    var after := Step(c, stored, Allow(t));
    var end := t + Hit(c, stored, t).1.retryAfter;
    forall i | 0 <= i < |calls| ensures !Answer(c, after, calls, i).allowed {
      WindowCounts(c, after, calls, t, end, i);
    }
    ExpiryStays(c, after, calls, t, end);
  }

  lemma {:induction false} ExpiryStays(c: Config, stored: Option<Entry>, calls: seq<Call>, since: int, end: int)
    requires Usable(c) && AllAllows(calls) && Monotone(calls, since)
    requires stored.Some? && stored.value.expiresAt == Some(end) && forall k :: 0 <= k < |calls| ==> calls[k].at < end
    ensures Replay(c, stored, calls).Some? && Replay(c, stored, calls).value.expiresAt == Some(end)
    decreases calls
  {
    if calls != [] {
      ExpiryStays(c, Step(c, stored, calls[0]), calls[1..], calls[0].at, end);
    }
  }
}
