/** The sliding-window request limit: one Redis list of timestamps a user, newest first. */
module RateLimiter {
  import opened Names
  import opened Numbers

  /** The list and the time its key expires. */
  datatype Log = Log(entries: seq<real>, deadline: real)

  datatype Verdict = Allowed | Refused(retryAfter: int)

  function Recent(entries: seq<real>, since: real): seq<real> {
    if entries == [] then []
    else
      var init, last := Recent(entries[..|entries| - 1], since), entries[|entries| - 1];
      if last > since then init + [last] else init
  }

  function Oldest(entries: seq<real>, default: real): real {
    if entries == [] then default
    else
      var rest := Oldest(entries[1..], entries[0]);
      if entries[0] < rest then entries[0] else rest
  }

  /** LTRIM 0 max-1. */
  function Trimmed(entries: seq<real>, max: int): seq<real> {
    if 0 <= max <= |entries| then entries[..max] else entries
  }

  function Check(log: Log, now: real, max: int, window: int): (Log, Verdict) {
    var recent := Recent(log.entries, now - window as real);
    if |recent| >= max then
      (log, Refused(Truncated(Oldest(recent, now) + window as real - now) + 1))
    else
      (Log(Trimmed([now] + log.entries, max), now + window as real), Allowed)
  }

  // --- Runs of one user's key ---

  datatype Event =
    | Asked(at: real)      // a check, atomic with its recording
    | Expired(at: real)    // Redis drops the key, any time from its deadline on

  datatype Run = Begin | Then(before: Run, event: Event)

  /** `accepted` is every allowed request so far, newest first. */
  datatype State = State(log: Log, now: real, accepted: seq<real>)

  ghost predicate IsRun(r: Run, max: int, window: int) {
    match r
    case Begin => true
    case Then(before, e) =>
      && IsRun(before, max, window)
      && var s := Exec(before, max, window);
         e.at >= s.now && (e.Expired? ==> s.log.deadline <= e.at)
  }

  ghost function Exec(r: Run, max: int, window: int): State {
    match r
    case Begin => State(Log([], 0.0), 0.0, [])
    case Then(before, e) =>
      var s := Exec(before, max, window);
      match e
      case Expired(at) => State(Log([], s.log.deadline), at, s.accepted)
      case Asked(at) =>
        var (log', verdict) := Check(s.log, at, max, window);
        State(log', at, if verdict.Allowed? then [at] + s.accepted else s.accepted)
  }

  ghost predicate NewestFirst(xs: seq<real>) {
    forall i, j :: 0 <= i < j < |xs| ==> xs[i] >= xs[j]
  }

  /** Any `max` + 1 accepted requests in a row span at least the window. */
  ghost predicate Spaced(xs: seq<real>, max: int, window: int) {
    forall i, j :: 0 <= i < |xs| && 0 <= j < |xs| && j == i + max ==> xs[i] >= xs[j] + window as real
  }

  /** The list is the newest part of what was accepted, and what it lacks no longer
      matters: the list is full without it, or it has left the window. */
  ghost predicate Remembers(s: State, max: int, window: int) {
    && |s.log.entries| <= |s.accepted|
    && s.log.entries == s.accepted[..|s.log.entries|]
    && (|s.log.entries| < |s.accepted| ==>
          |s.log.entries| >= max || s.accepted[|s.log.entries|] <= s.now - window as real)
    && (s.log.entries != [] ==> s.log.deadline == s.log.entries[0] + window as real)
  }

  ghost predicate Inv(s: State, max: int, window: int) {
    && NewestFirst(s.accepted)
    && (forall x :: x in s.accepted ==> x <= s.now)
    && (max <= 0 ==> s.accepted == [])
    && (max > 0 ==> Spaced(s.accepted, max, window))
    && Remembers(s, max, window)
  }

  /** On a list that is newest first, what is recent is a prefix. */
  lemma {:induction false} RecentIsPrefix(xs: seq<real>, since: real)
    requires NewestFirst(xs)
    ensures |Recent(xs, since)| <= |xs| && Recent(xs, since) == xs[..|Recent(xs, since)|]
    ensures forall i :: 0 <= i < |xs| ==> (xs[i] > since <==> i < |Recent(xs, since)|)
  {
    if xs != [] {
      var n := |xs| - 1;
      RecentIsPrefix(xs[..n], since);
      assert forall i :: 0 <= i < n ==> xs[..n][i] == xs[i] && xs[i] >= xs[n];
      if xs[n] > since {
        assert n == 0 || xs[..n][n - 1] > since;
        assert Recent(xs, since) == xs[..n] + [xs[n]];
      } else {
        assert Recent(xs, since) == xs[..|Recent(xs[..n], since)|];
      }
    }
  }

  lemma {:induction false} OldestIsLast(xs: seq<real>, default: real)
    requires NewestFirst(xs)
    ensures Oldest(xs, default) == if xs == [] then default else xs[|xs| - 1]
  {
    if xs != [] { OldestIsLast(xs[1..], xs[0]); }
  }

  /** The window is full exactly when the max-th newest request is in it. */
  lemma FullIff(xs: seq<real>, since: real, max: int)
    requires NewestFirst(xs)
    ensures |Recent(xs, since)| >= max <==> max <= 0 || (max <= |xs| && xs[max - 1] > since)
  {
    RecentIsPrefix(xs, since);
  }

  lemma PrefixNewest(xs: seq<real>, n: nat)
    requires NewestFirst(xs) && n <= |xs|
    ensures NewestFirst(xs[..n])
  {
  }

  /** Whether the window is full can be read off the list. */
  lemma FullInList(s: State, at: real, max: int, window: int)
    requires Inv(s, max, window) && at >= s.now
    ensures |Recent(s.log.entries, at - window as real)| >= max <==>
            |Recent(s.accepted, at - window as real)| >= max
    ensures NewestFirst(s.log.entries)
  {
    var since, n := at - window as real, |s.log.entries|;
    PrefixNewest(s.accepted, n);
    FullIff(s.log.entries, since, max);
    FullIff(s.accepted, since, max);
    if 0 < max <= n {
      assert s.log.entries[max - 1] == s.accepted[max - 1];
    } else if n < max <= |s.accepted| {
      assert s.accepted[max - 1] <= s.accepted[n];
    }
  }

  lemma AskedSpaced(accepted: seq<real>, at: real, max: int, window: int)
    requires NewestFirst(accepted) && max > 0 && Spaced(accepted, max, window)
    requires |Recent(accepted, at - window as real)| < max
    ensures Spaced([at] + accepted, max, window)
  {
    var longer := [at] + accepted;
    RecentIsPrefix(accepted, at - window as real);
    forall i, j | 0 <= i < |longer| && 0 <= j < |longer| && j == i + max
      ensures longer[i] >= longer[j] + window as real
    {
      assert longer[j] == accepted[j - 1];
      if i > 0 { assert longer[i] == accepted[i - 1]; }
    }
  }

  lemma AskedKeeps(s: State, at: real, max: int, window: int)
    requires Inv(s, max, window) && at >= s.now
    requires |Recent(s.log.entries, at - window as real)| < max
    ensures Inv(State(Check(s.log, at, max, window).0, at, [at] + s.accepted), max, window)
  {
    FullInList(s, at, max, window);
    AskedSpaced(s.accepted, at, max, window);
    PushRemembers(s, at, max, window);
    AskedNewest(s.accepted, at, s.now);
  }

  lemma AskedNewest(accepted: seq<real>, at: real, now: real)
    requires NewestFirst(accepted) && at >= now && forall x :: x in accepted ==> x <= now
    ensures NewestFirst([at] + accepted) && forall x :: x in [at] + accepted ==> x <= at
  {
    var longer := [at] + accepted;
    forall i, j | 0 <= i < j < |longer|
      ensures longer[i] >= longer[j]
    {
      assert longer[j] == accepted[j - 1] && longer[j] in accepted;
      if i > 0 { assert longer[i] == accepted[i - 1]; }
    }
  }

  lemma PushRemembers(s: State, at: real, max: int, window: int)
    requires Remembers(s, max, window) && at >= s.now && max > 0
    ensures Remembers(State(Log(Trimmed([at] + s.log.entries, max), at + window as real), at, [at] + s.accepted),
                      max, window)
  {
    var pushed := [at] + s.log.entries;
    assert pushed == ([at] + s.accepted)[..|pushed|];
  }

  lemma {:induction false} RunInv(r: Run, max: int, window: int)
    requires IsRun(r, max, window)
    ensures Inv(Exec(r, max, window), max, window)
  {
    if r.Then? {
      RunInv(r.before, max, window);
      var s, e := Exec(r.before, max, window), r.event;
      match e
      case Expired(at) =>
        if s.log.entries != [] { assert s.accepted[0] == s.log.entries[0]; }
      case Asked(at) =>
        if |Recent(s.log.entries, at - window as real)| < max {
          AskedKeeps(s, at, max, window);
        }
    }
  }

  // --- What callers may rely on ---

  /** How many accepted requests fall in the window that ends at `t`. */
  ghost function InWindow(accepted: seq<real>, t: real, window: int): set<int> {
    set i | 0 <= i < |accepted| && t - window as real < accepted[i] <= t
  }

  lemma {:induction false} BoundedSize(s: set<int>, lo: int, n: nat)
    requires forall i :: i in s ==> lo <= i < lo + n
    ensures |s| <= n
  {
    if n == 0 {
      assert forall i :: i !in s;
    } else {
      BoundedSize(s - {lo + n - 1}, lo, n - 1);
    }
  }

  /** Wherever it is placed, no window holds more than `max` accepted requests. */
  lemma WindowNeverOverfull(r: Run, max: int, window: int, t: real)
    requires IsRun(r, max, window)
    ensures |InWindow(Exec(r, max, window).accepted, t, window)| <= if max > 0 then max else 0
  {
    RunInv(r, max, window);
    var accepted := Exec(r, max, window).accepted;
    var inside := InWindow(accepted, t, window);
    RecentIsPrefix(accepted, t);
    var lo := |Recent(accepted, t)|;
    if max > 0 {
      forall i | i in inside
        ensures lo <= i < lo + max
      {
        if i >= lo + max {
          OneWindowApart(accepted, lo, i, max, window);
          assert false;
        }
      }
      BoundedSize(inside, lo, max);
    }
  }

  lemma OneWindowApart(accepted: seq<real>, i: nat, j: nat, max: int, window: int)
    requires NewestFirst(accepted) && Spaced(accepted, max, window) && max > 0
    requires i + max <= j < |accepted|
    ensures accepted[i] >= accepted[j] + window as real
  {
    assert accepted[i] >= accepted[i + max] + window as real;
  }

  /** A request is refused exactly when the window ending now is full. */
  lemma RefusedIffFull(r: Run, max: int, window: int, at: real)
    requires IsRun(Then(r, Asked(at)), max, window)
    ensures var s := Exec(r, max, window);
            Check(s.log, at, max, window).1.Refused? <==> |Recent(s.accepted, at - window as real)| >= max
  {
    RunInv(r, max, window);
    FullInList(Exec(r, max, window), at, max, window);
  }

  /** The moment of the last event. */
  function LastAt(r: Run): real {
    match r
    case Begin => 0.0
    case Then(_, e) => e.at
  }

  /** What has been accepted is every request that was allowed, whatever Redis dropped since; a
      request can come at any later moment, and the key is dropped no sooner than one window after
      the last request that was allowed. */
  lemma {:induction false} AcceptedIs(r: Run, e: Event, max: int, window: int)
    requires IsRun(r, max, window)
    ensures IsRun(Then(r, e), max, window) <==>
            e.at >= LastAt(r) && (e.Expired? ==> e.at >= Exec(r, max, window).log.deadline)
    ensures var s := Exec(r, max, window);
            && (s.accepted != [] ==> s.log.deadline == s.accepted[0] + window as real)
            && Exec(Then(r, e), max, window).accepted ==
               if e.Asked? && Check(s.log, e.at, max, window).1.Allowed? then [e.at] + s.accepted else s.accepted
  {
    if r.Then? { AcceptedIs(r.before, r.event, max, window); }
  }

  lemma NothingAtFirst(max: int, window: int)
    ensures IsRun(Begin, max, window) && Exec(Begin, max, window).accepted == []
    ensures Exec(Begin, max, window).log.entries == []
  {
  }

  /** Fewer than `max` requests are recent exactly when the max-th newest is not. */
  lemma RoomIffOldestLeft(s: State, at: real, max: int, window: int)
    requires Inv(s, max, window) && max > 0 && s.now <= at
    ensures Check(s.log, at, max, window).1.Allowed? <==>
            |s.accepted| < max || s.accepted[max - 1] + window as real <= at
  {
    FullInList(s, at, max, window);
    RecentIsPrefix(s.accepted, at - window as real);
  }

  lemma RefusalHint(s: State, at: real, max: int, window: int)
    requires Inv(s, max, window) && max > 0 && s.now <= at
    requires Check(s.log, at, max, window).1.Refused?
    ensures |s.accepted| >= max
    ensures Check(s.log, at, max, window).1.retryAfter == Truncated(s.accepted[max - 1] + window as real - at) + 1
  {
    RoomIffOldestLeft(s, at, max, window);
    RecentAtMost(s, at, max, window);
    FullInList(s, at, max, window);
    var recent := Recent(s.log.entries, at - window as real);
    RecentIsPrefix(s.log.entries, at - window as real);
    OldestIsLast(recent, at);
    assert recent[max - 1] == s.log.entries[max - 1] == s.accepted[max - 1];
  }

  /** After a refusal, with no other traffic, the next request is allowed exactly from the
      moment the oldest of the last `max` accepted requests leaves the window. */
  lemma NextAllowedFrom(r: Run, at: real, later: real, max: int, window: int)
    requires IsRun(Then(r, Asked(at)), max, window) && max > 0 && at <= later
    requires Check(Exec(r, max, window).log, at, max, window).1.Refused?
    ensures var s := Exec(r, max, window);
            && |s.accepted| >= max
            && (Check(s.log, later, max, window).1.Allowed? <==> s.accepted[max - 1] + window as real <= later)
            && Check(s.log, at, max, window).1.retryAfter ==
               Truncated(s.accepted[max - 1] + window as real - at) + 1
  {
    RunInv(r, max, window);
    RefusalHint(Exec(r, max, window), at, max, window);
    RoomIffOldestLeft(Exec(r, max, window), later, max, window);
  }

  lemma RecentAtMost(s: State, at: real, max: int, window: int)
    requires Inv(s, max, window) && max > 0 && s.now <= at
    ensures |Recent(s.log.entries, at - window as real)| <= max
  {
    FullInList(s, at, max, window);
    var entries := s.log.entries;
    RecentIsPrefix(entries, at - window as real);
    if |entries| > max {
      assert entries[max] == s.accepted[max];
      OneWindowApart(s.accepted, 0, max, max, window);
      assert s.accepted[0] in s.accepted;
    }
  }

  /** Waiting as long as the refusal says is always enough, unless nothing is ever allowed. */
  lemma HintSuffices(r: Run, at: real, max: int, window: int)
    requires IsRun(Then(r, Asked(at)), max, window)
    requires Check(Exec(r, max, window).log, at, max, window).1.Refused?
    ensures var s := Exec(r, max, window);
            var later := at + Check(s.log, at, max, window).1.retryAfter as real;
            Check(s.log, later, max, window).1.Allowed? <==> max > 0
  {
    if max > 0 {
      var s := Exec(r, max, window);
      RunInv(r, max, window);
      NextAllowedFrom(r, at, at, max, window);
      RoomIffOldestLeft(s, at, max, window);
      var wait := s.accepted[max - 1] + window as real - at;
      AboveItself(wait);
      var later := at + (Truncated(wait) + 1) as real;
      assert later >= s.accepted[max - 1] + window as real;
      RoomIffOldestLeft(s, later, max, window);
    }
  }

  lemma AboveItself(x: real)
    requires x >= 0.0
    ensures (Truncated(x) + 1) as real > x
  {
  }

  // --- rate_limiter.py ---

  class Limiter {
    const maxRequests: int
    const windowSeconds: int
    var logs: map<string, Log>

    constructor (maxRequests: int, windowSeconds: int)
      ensures this.maxRequests == maxRequests && this.windowSeconds == windowSeconds && logs == map[]
    {
      this.maxRequests, this.windowSeconds, logs := maxRequests, windowSeconds, map[];
    }

    function LogOf(user: string): Log
      reads this
    {
      if user in logs then logs[user] else Log([], 0.0)
    }

    method CheckRateLimit(user: string, now: real) returns (verdict: Verdict)
      modifies this
      ensures (LogOf(user), verdict) == Check(old(LogOf(user)), now, maxRequests, windowSeconds)
      ensures forall other :: other != user ==> LogOf(other) == old(LogOf(other))
    {
      var log := LogOf(user);
      var since := now - windowSeconds as real;
      var timestamps := FilterRecent(log.entries, since);
      if |timestamps| >= maxRequests {
        var oldest := MinOf(timestamps, now);
        return Refused(Truncated(oldest + windowSeconds as real - now) + 1);
      }
      var pushed := [now] + log.entries;
      logs := logs[user := Log(Trimmed(pushed, maxRequests), now + windowSeconds as real)];
      return Allowed;
    }
  }

  method FilterRecent(entries: seq<real>, since: real) returns (kept: seq<real>)
    ensures kept == Recent(entries, since)
  {
    kept := [];
    for i := 0 to |entries|
      invariant kept == Recent(entries[..i], since)
    {
      assert entries[..i + 1][..i] == entries[..i];
      if entries[i] > since { kept := kept + [entries[i]]; }
    }
    assert entries[..|entries|] == entries;
  }

  method MinOf(entries: seq<real>, default: real) returns (least: real)
    ensures least == Oldest(entries, default)
    ensures entries != [] ==> least in entries && forall x :: x in entries ==> least <= x
  {
    least := default;
    if entries != [] { least := entries[0]; }
    for i := 0 to |entries|
      invariant entries != [] ==> least in entries && forall k :: 0 <= k < i ==> least <= entries[k]
      invariant entries == [] ==> least == default
    {
      if entries[i] < least { least := entries[i]; }
    }
    OldestIsMin(entries, default);
  }

  lemma {:induction false} OldestIsMin(entries: seq<real>, default: real)
    ensures entries != [] ==> Oldest(entries, default) in entries
    ensures forall x :: x in entries ==> Oldest(entries, default) <= x
  {
    if entries != [] {
      OldestIsMin(entries[1..], entries[0]);
      assert entries == [entries[0]] + entries[1..];
    }
  }
}
