/** The circuit breaker in front of each AI provider. */
module CircuitBreaker {
  datatype Mode = Closed | Open | HalfOpen

  datatype Entry = Entry(mode: Mode, failures: nat, opens: nat, openUntil: real)

  datatype Setup = Setup(threshold: int, baseCooldown: real, maxCooldown: real)

  const FRESH := Entry(Closed, 0, 0, 0.0)

  function TwoTo(n: nat): real {
    if n == 0 then 1.0 else 2.0 * TwoTo(n - 1)
  }

  /** How long the breaker stays open after the k-th trip. */
  function Cooldown(u: Setup, k: nat): real
    requires k > 0
  {
    var doubled := u.baseCooldown * TwoTo(k - 1);
    if doubled <= u.maxCooldown then doubled else u.maxCooldown
  }

  function Trip(u: Setup, e: Entry, now: real): Entry {
    Entry(Open, 0, e.opens + 1, now + Cooldown(u, e.opens + 1))
  }

  predicate Grants(e: Entry, now: real) {
    e.mode.Closed? || (e.mode.Open? && now >= e.openUntil)
  }

  function Asked(e: Entry, now: real): Entry {
    if e.mode.Open? && now >= e.openUntil then e.(mode := HalfOpen) else e
  }

  function Failed(u: Setup, e: Entry, transient: bool, now: real): Entry {
    if e.mode.HalfOpen? then Trip(u, e, now)
    else if !transient then e
    else if e.failures + 1 >= u.threshold then Trip(u, e, now)
    else e.(failures := e.failures + 1)
  }

  lemma TwoToPositive(n: nat)
    ensures TwoTo(n) >= 1.0
  {
  }

  /** The first trip cools for the base cooldown, each later one for twice as long as the one
      before, and none for longer than the maximum. */
  lemma CooldownGrows(u: Setup, k: nat)
    requires k > 0 && u.baseCooldown >= 0.0
    ensures Cooldown(u, 1) == if u.baseCooldown <= u.maxCooldown then u.baseCooldown else u.maxCooldown
    ensures Cooldown(u, k) <= Cooldown(u, k + 1) <= u.maxCooldown
    ensures Cooldown(u, k + 1) == u.maxCooldown || Cooldown(u, k + 1) == 2.0 * Cooldown(u, k)
  {
    var x := TwoTo(k - 1);
    TwoToPositive(k - 1);
    assert TwoTo(k) == 2.0 * x;
    assert u.baseCooldown * x >= 0.0;
    assert u.baseCooldown * (2.0 * x) == 2.0 * (u.baseCooldown * x);
  }

  // --- Any sequence of requests and results for one provider ---

  /** Results may come at any time, also from requests let through before a trip. */
  datatype Event =
    | Ask(at: real)
    | Success(at: real)
    | Failure(at: real, transient: bool)

  datatype Run = Begin | Then(before: Run, event: Event)

  function After(u: Setup, e: Entry, event: Event): Entry {
    match event
    case Ask(at) => Asked(e, at)
    case Success(_) => FRESH
    case Failure(at, transient) => Failed(u, e, transient, at)
  }

  function Exec(u: Setup, r: Run): Entry {
    match r
    case Begin => FRESH
    case Then(before, event) => After(u, Exec(u, before), event)
  }

  predicate Trips(u: Setup, before: Run, event: Event) {
    Exec(u, Then(before, event)).opens > Exec(u, before).opens
  }

  /** Trips since the last success. */
  function TripCount(u: Setup, r: Run): nat {
    match r
    case Begin => 0
    case Then(before, event) =>
      if event.Success? then 0 else TripCount(u, before) + if Trips(u, before, event) then 1 else 0
  }

  function LastTrip(u: Setup, r: Run): real {
    match r
    case Begin => 0.0
    case Then(before, event) => if Trips(u, before, event) then event.at else LastTrip(u, before)
  }

  /** Transient failures since the last success or trip. */
  function Streak(u: Setup, r: Run): nat {
    match r
    case Begin => 0
    case Then(before, event) =>
      if event.Success? || Trips(u, before, event) then 0
      else Streak(u, before) + if event.Failure? && event.transient then 1 else 0
  }

  /** Requests let through since a result was last recorded. */
  function GrantsSinceResult(u: Setup, r: Run): nat {
    match r
    case Begin => 0
    case Then(before, event) =>
      if !event.Ask? then 0
      else GrantsSinceResult(u, before) + if Grants(Exec(u, before), event.at) then 1 else 0
  }

  ghost predicate Inv(u: Setup, r: Run) {
    var e := Exec(u, r);
    && e.failures == Streak(u, r)
    && e.opens == TripCount(u, r)
    && (e.mode.Closed? <==> e.opens == 0)
    && (e.mode.Open? ==> GrantsSinceResult(u, r) == 0)
    && (e.mode.HalfOpen? ==> GrantsSinceResult(u, r) == 1)
    && (e.opens > 0 ==> e.openUntil == LastTrip(u, r) + Cooldown(u, e.opens))
    && (u.threshold >= 1 ==> e.failures < u.threshold)
  }

  lemma {:induction false} RunInv(u: Setup, r: Run)
    ensures Inv(u, r)
  {
    match r
    case Begin =>
    case Then(before, event) => RunInv(u, before);
  }

  /** Where the breaker stands, told by what happened: it is closed exactly when it has not
      tripped since the last success; a k-th trip keeps it open for the k-th cooldown; and
      once half open it has let through exactly one request since the last result. */
  lemma BreakerStands(u: Setup, r: Run)
    ensures var e := Exec(u, r);
            && e.failures == Streak(u, r) && e.opens == TripCount(u, r)
            && (e.mode.Closed? <==> TripCount(u, r) == 0)
            && (e.mode.Open? ==> e.opens > 0 && GrantsSinceResult(u, r) == 0 &&
                                 e.openUntil == LastTrip(u, r) + Cooldown(u, TripCount(u, r)) &&
                                 e.openUntil <= LastTrip(u, r) + u.maxCooldown)
            && (e.mode.HalfOpen? ==> GrantsSinceResult(u, r) == 1)
  {
    RunInv(u, r);
  }

  /** Failures stay below the threshold in every run exactly when it is at least one. */
  lemma FailuresBelowThresholdIff(u: Setup)
    ensures (forall r: Run :: Exec(u, r).failures < u.threshold) <==> u.threshold >= 1
  {
    forall r: Run | u.threshold >= 1
      ensures Exec(u, r).failures < u.threshold
    {
      RunInv(u, r);
    }
    assert Exec(u, Begin).failures == 0;
  }

  /** It trips on any failure while half open, and else on the transient failure that
      completes the threshold. */
  lemma TripsIff(u: Setup, r: Run, event: Event)
    ensures Trips(u, r, event) <==>
            event.Failure? && (Exec(u, r).mode.HalfOpen? || (event.transient && Streak(u, r) + 1 >= u.threshold))
  {
    RunInv(u, r);
  }

  /** An open breaker refuses until its cooldown is over; the request let through then leaves it
      half open, and a refused one changes nothing. */
  lemma OpenUntilCooled(u: Setup, r: Run, at: real)
    requires Exec(u, r).mode.Open?
    ensures TripCount(u, r) > 0
    ensures Grants(Exec(u, r), at) <==> at >= LastTrip(u, r) + Cooldown(u, TripCount(u, r))
    ensures Exec(u, Then(r, Ask(at))).mode == if Grants(Exec(u, r), at) then HalfOpen else Open
    ensures !Grants(Exec(u, r), at) ==> Exec(u, Then(r, Ask(at))) == Exec(u, r)
  {
    RunInv(u, r);
  }

  /** The mode told by what happened: open from a trip until a request is let through, half open
      from then until its result. */
  lemma ModeIs(u: Setup, r: Run)
    ensures Exec(u, r).mode ==
            if TripCount(u, r) == 0 then Closed else if GrantsSinceResult(u, r) == 0 then Open else HalfOpen
  {
    RunInv(u, r);
  }

  lemma EarlierOf(at: real, since: real, d: real, m: real)
    ensures at >= since + (if d <= m then d else m) <==> at >= since + d || at >= since + m
  {
  }

  /** base * 2^(k-1) have passed, or the maximum if that is less. */
  predicate Cooled(u: Setup, k: nat, since: real, at: real)
    requires k > 0
  {
    at >= since + u.baseCooldown * TwoTo(k - 1) || at >= since + u.maxCooldown
  }

  lemma CooledIff(u: Setup, k: nat, since: real, at: real)
    requires k > 0
    ensures Cooled(u, k, since, at) <==> at >= since + Cooldown(u, k)
  {
    EarlierOf(at, since, u.baseCooldown * TwoTo(k - 1), u.maxCooldown);
  }

  /** A request is let through exactly when the breaker has not tripped since the last success,
      or has cooled since its last trip and let no request through since the last result. */
  lemma LetThroughIff(u: Setup, r: Run, at: real)
    ensures Grants(Exec(u, r), at) <==>
            TripCount(u, r) == 0 ||
            (GrantsSinceResult(u, r) == 0 && Cooled(u, TripCount(u, r), LastTrip(u, r), at))
  {
    ModeIs(u, r);
    if Exec(u, r).mode.Open? {
      OpenUntilCooled(u, r, at);
      CooledIff(u, TripCount(u, r), LastTrip(u, r), at);
    }
  }

  /** When it trips, and what for, told by what happened alone. */
  lemma TripsByHistory(u: Setup, r: Run, event: Event)
    ensures Trips(u, r, event) <==>
            event.Failure? && ((TripCount(u, r) > 0 && GrantsSinceResult(u, r) > 0) ||
                               (event.transient && Streak(u, r) + 1 >= u.threshold))
  {
    TripsIff(u, r, event);
    RunInv(u, r);
  }

  function AskAll(r: Run, times: seq<real>): Run {
    if times == [] then r else Then(AskAll(r, times[..|times| - 1]), Ask(times[|times| - 1]))
  }

  /** While the probe's result is outstanding every request is refused, however late it
      comes; a probe that never reports blocks its provider for good. */
  lemma {:induction false} ProbeOutstanding(u: Setup, r: Run, times: seq<real>, at: real)
    requires Exec(u, r).mode.HalfOpen?
    ensures Exec(u, AskAll(r, times)) == Exec(u, r) && !Grants(Exec(u, AskAll(r, times)), at)
  {
    if times != [] { ProbeOutstanding(u, r, times[..|times| - 1], at); }
  }

  // --- The breaker itself ---

  class Breaker {
    const setup: Setup
    var state: map<string, Entry>

    constructor (setup: Setup)
      ensures this.setup == setup && state == map[]
    {
      this.setup, state := setup, map[];
    }

    function EntryOf(name: string): Entry
      reads this
    {
      if name in state then state[name] else FRESH
    }

    method Allow(name: string, now: real) returns (granted: bool)
      modifies this
      ensures granted == Grants(old(EntryOf(name)), now)
      ensures state == old(state)[name := Asked(old(EntryOf(name)), now)]
    {
      var e := EntryOf(name);
      state := state[name := e];
      if e.mode == Closed { return true; }
      if e.mode == Open && now >= e.openUntil {
        state := state[name := e.(mode := HalfOpen)];
        return true;
      }
      return false;
    }

    method RecordSuccess(name: string)
      modifies this
      ensures state == old(state)[name := FRESH]
    {
      state := state[name := FRESH];
    }

    method RecordFailure(name: string, transient: bool, now: real)
      modifies this
      ensures state == old(state)[name := Failed(setup, old(EntryOf(name)), transient, now)]
    {
      var e := EntryOf(name);
      state := state[name := e];
      if e.mode == HalfOpen {
        state := state[name := Trip(setup, e, now)];
        return;
      }
      if transient {
        e := e.(failures := e.failures + 1);
        state := state[name := e];
        if e.failures >= setup.threshold { state := state[name := Trip(setup, e, now)]; }
      }
    }
  }
}
