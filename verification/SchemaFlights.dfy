/** Sharing one schema read among the calls that arrive while it runs, as a transition
    system over every interleaving of the callers. */
module SchemaFlights {
  import opened Names

  type Db = string
  type Schema = string

  /** One call; a flight is named by the call that leads it. */
  datatype Call = Call(number: nat)

  datatype Outcome = Loaded(schema: Schema) | Failed

  /** `result` is what the leader stored, `done` the event waiters wait for. */
  datatype Flight = Flight(db: Db, result: Option<Outcome>, done: bool)

  datatype Role =
    | Leader
    | Sharer(flight: Call)    // answered from the flight it waited on
    | Alone(flight: Call)     // waited, gave up and read for itself

  datatype Phase =
    | Leading                          // flight registered, its own read running
    | Landed(outcome: Outcome)         // read over, flight still registered
    | Unregistered(outcome: Outcome)   // flight taken out, waiters not woken yet
    | Waiting(flight: Call)
    | Reading(flight: Call)            // gave up on the flight, own read running
    | Finished(role: Role, outcome: Outcome)

  datatype State = State(
    registry: map<Db, Call>,
    flights: map<Call, Flight>,
    calls: map<Call, Phase>,
    dbs: map<Call, Db>,
    readCount: nat,  // physical reads that ended
    fetches: nat,    // the counter `schema_fetches`
    shared: nat)     // the counter `schema_fetches_shared`

  datatype Event =
    | Enter(call: Call, db: Db)
    | LeaderReads(call: Call, outcome: Outcome)
    | Unregister(call: Call)
    | WakeWaiters(call: Call)
    | Wake(call: Call)
    | StopWaiting(call: Call)       // the wait timed out
    | ReadAlone(call: Call, outcome: Outcome)

  datatype Run = Begin | Then(before: Run, event: Event)

  function Start(): State {
    State(map[], map[], map[], map[], 0, 0, 0)
  }

  predicate Enabled(s: State, e: Event) {
    match e
    case Enter(c, _) => c !in s.calls
    case LeaderReads(c, _) => c in s.calls && s.calls[c].Leading?
    case Unregister(c) => c in s.calls && s.calls[c].Landed? && c in s.dbs
    case WakeWaiters(c) => c in s.calls && s.calls[c].Unregistered?
    case Wake(c) =>
      c in s.calls && s.calls[c].Waiting? && s.calls[c].flight in s.flights && s.flights[s.calls[c].flight].done
    case StopWaiting(c) => c in s.calls && s.calls[c].Waiting?
    case ReadAlone(c, _) => c in s.calls && s.calls[c].Reading?
  }

  /** What the call that moves does next. */
  function NextPhase(s: State, e: Event): Phase
    requires Enabled(s, e)
  {
    match e
    case Enter(c, db) => if db in s.registry then Waiting(s.registry[db]) else Leading
    case LeaderReads(c, o) => Landed(o)
    case Unregister(c) => Unregistered(s.calls[c].outcome)
    case WakeWaiters(c) => Finished(Leader, s.calls[c].outcome)
    case Wake(c) =>
      var f := s.calls[c].flight;
      if s.flights[f].result.Some? && s.flights[f].result.value.Loaded?
      then Finished(Sharer(f), s.flights[f].result.value)
      else Reading(f)
    case StopWaiting(c) => Reading(s.calls[c].flight)
    case ReadAlone(c, o) => Finished(Alone(s.calls[c].flight), o)
  }

  function NextFlights(s: State, e: Event): map<Call, Flight>
    requires Enabled(s, e)
  {
    match e
    case Enter(c, db) => if db in s.registry then s.flights else s.flights[c := Flight(db, None, false)]
    case LeaderReads(c, o) =>
      if c in s.flights then s.flights[c := Flight(s.flights[c].db, Some(o), s.flights[c].done)] else s.flights
    case WakeWaiters(c) =>
      if c in s.flights then s.flights[c := Flight(s.flights[c].db, s.flights[c].result, true)] else s.flights
    case _ => s.flights
  }

  function NextRegistry(s: State, e: Event): map<Db, Call>
    requires Enabled(s, e)
  {
    match e
    case Enter(c, db) => if db in s.registry then s.registry else s.registry[db := c]
    case Unregister(c) => s.registry - {s.dbs[c]}
    case _ => s.registry
  }

  function Apply(s: State, e: Event): State
    requires Enabled(s, e)
  {
    var p := NextPhase(s, e);
    State(NextRegistry(s, e), NextFlights(s, e), s.calls[e.call := p],
          if e.Enter? then s.dbs[e.call := e.db] else s.dbs,
          s.readCount + (if e.LeaderReads? || e.ReadAlone? then 1 else 0),
          s.fetches + (if p.Leading? || p.Reading? then 1 else 0),
          s.shared + (if e.Enter? && p.Waiting? then 1 else 0))
  }

  ghost predicate IsRun(r: Run)
    decreases r, 0
  {
    match r
    case Begin => true
    case Then(before, e) => IsRun(before) && Enabled(Exec(before), e)
  }

  ghost function Exec(r: Run): State
    requires IsRun(r)
    decreases r, 1
  {
    match r
    case Begin => Start()
    case Then(before, e) => Apply(Exec(before), e)
  }

  // --- The invariant ---

  ghost predicate Registered(s: State, db: Db, c: Call) {
    db in s.registry && s.registry[db] == c
  }

  predicate Leads(s: State, c: Call) {
    c in s.calls && (s.calls[c].Leading? || s.calls[c].Landed?)
  }

  /** A registered flight is one its leader has not taken out yet. */
  ghost predicate RegistryOk(s: State) {
    forall db :: db in s.registry ==> Leads(s, s.registry[db]) && s.registry[db] in s.dbs && s.dbs[s.registry[db]] == db
  }

  ghost predicate FlightIs(s: State, c: Call, result: Option<Outcome>, done: bool) {
    c in s.dbs && c in s.flights && s.flights[c] == Flight(s.dbs[c], result, done)
  }

  ghost predicate JoinedFlight(s: State, c: Call, f: Call) {
    c in s.dbs && f in s.flights && s.flights[f].db == s.dbs[c]
  }

  ghost predicate PhaseOk(s: State, c: Call)
    requires c in s.calls
  {
    match s.calls[c]
    case Leading => FlightIs(s, c, None, false) && Registered(s, s.dbs[c], c)
    case Landed(o) => FlightIs(s, c, Some(o), false) && Registered(s, s.dbs[c], c)
    case Unregistered(o) => FlightIs(s, c, Some(o), false)
    case Waiting(f) => JoinedFlight(s, c, f)
    case Reading(f) => JoinedFlight(s, c, f)
    case Finished(Leader, o) => FlightIs(s, c, Some(o), true)
    case Finished(Sharer(f), o) =>
      JoinedFlight(s, c, f) && s.flights[f].done && s.flights[f].result == Some(o) && o.Loaded?
    case Finished(Alone(f), _) => JoinedFlight(s, c, f)
  }

  ghost predicate PhasesOk(s: State) {
    forall c :: c in s.calls ==> PhaseOk(s, c)
  }

  /** Only a call that leads, or led, has a flight. */
  ghost predicate FlightsOk(s: State) {
    forall f :: f in s.flights ==> f in s.calls && Is(Led, s.calls[f])
  }

  // Kinds of call that the counters count.
  datatype Kind = HasRead | Led | GaveUp | Joined

  predicate Is(kind: Kind, p: Phase) {
    match kind
    case HasRead => p.Landed? || p.Unregistered? || (p.Finished? && !p.role.Sharer?)
    case Led => p.Leading? || p.Landed? || p.Unregistered? || (p.Finished? && p.role.Leader?)
    case GaveUp => p.Reading? || (p.Finished? && p.role.Alone?)
    case Joined => p.Waiting? || p.Reading? || (p.Finished? && !p.role.Leader?)
  }

  function All(calls: map<Call, Phase>, kind: Kind): set<Call> {
    set c | c in calls && Is(kind, calls[c])
  }

  ghost predicate CountersOk(s: State) {
    && s.readCount == |All(s.calls, HasRead)|
    && s.fetches == |All(s.calls, Led)| + |All(s.calls, GaveUp)|
    && s.shared == |All(s.calls, Joined)|
  }

  ghost predicate Inv(s: State) {
    RegistryOk(s) && PhasesOk(s) && FlightsOk(s) && CountersOk(s)
  }

  lemma StepRegistry(s: State, e: Event)
    requires RegistryOk(s) && PhasesOk(s) && Enabled(s, e)
    ensures RegistryOk(Apply(s, e))
  {
    var s' := Apply(s, e);
    forall db | db in s'.registry
      ensures Leads(s', s'.registry[db]) && s'.registry[db] in s'.dbs && s'.dbs[s'.registry[db]] == db
    {
      if db in s.registry {
        var c := s.registry[db];
        assert Leads(s, c) && s.dbs[c] == db;
      }
    }
  }

  lemma StepFlights(s: State, e: Event)
    requires PhasesOk(s) && FlightsOk(s) && Enabled(s, e)
    ensures FlightsOk(Apply(s, e))
  {
    var s' := Apply(s, e);
    forall f | f in s'.flights
      ensures f in s'.calls && Is(Led, s'.calls[f])
    {
      if f in s.flights { assert f in s.calls && Is(Led, s.calls[f]); }
    }
  }

  lemma StepSelf(s: State, e: Event)
    requires RegistryOk(s) && PhasesOk(s) && Enabled(s, e)
    ensures PhaseOk(Apply(s, e), e.call)
  {
    if e.call in s.calls {
      assert PhaseOk(s, e.call);
    } else if e.db in s.registry {
      assert Leads(s, s.registry[e.db]);
      assert PhaseOk(s, s.registry[e.db]);
    }
  }

  /** A flight keeps its database, and once done its result. */
  lemma FlightStays(s: State, e: Event, f: Call)
    requires PhasesOk(s) && FlightsOk(s) && Enabled(s, e) && f in s.flights
    ensures f in NextFlights(s, e) && NextFlights(s, e)[f].db == s.flights[f].db
    ensures f != e.call || s.flights[f].done ==> NextFlights(s, e)[f] == s.flights[f]
  {
    assert f in s.calls && Is(Led, s.calls[f]) && PhaseOk(s, f);
  }

  lemma StepOther(s: State, e: Event, c: Call)
    requires PhasesOk(s) && FlightsOk(s) && Enabled(s, e) && c in s.calls && c != e.call
    ensures PhaseOk(Apply(s, e), c)
  {
    assert PhaseOk(s, c);
    if e.call in s.calls { assert PhaseOk(s, e.call); }
    match s.calls[c]
    case Waiting(f) => FlightStays(s, e, f);
    case Reading(f) => FlightStays(s, e, f);
    case Finished(Sharer(f), _) => FlightStays(s, e, f);
    case Finished(Alone(f), _) => FlightStays(s, e, f);
    case _ => FlightStays(s, e, c);
  }

  lemma AllAfter(calls: map<Call, Phase>, c: Call, p: Phase, kind: Kind)
    ensures All(calls[c := p], kind) == if Is(kind, p) then All(calls, kind) + {c} else All(calls, kind) - {c}
  {
    forall d
      ensures d in All(calls[c := p], kind) <==> if d == c then Is(kind, p) else d in All(calls, kind)
    {
    }
  }

  lemma SizeAfter<T>(s: set<T>, x: T)
    ensures |s + {x}| == |s| + 1 - (if x in s then 1 else 0)
    ensures |s - {x}| == |s| - (if x in s then 1 else 0)
  {
    if x in s { assert s + {x} == s; } else { assert s - {x} == s; }
  }

  lemma CountAfter(calls: map<Call, Phase>, c: Call, p: Phase, kind: Kind)
    ensures |All(calls[c := p], kind)| ==
            |All(calls, kind)| + (if Is(kind, p) then 1 else 0) - (if c in All(calls, kind) then 1 else 0)
  {
    AllAfter(calls, c, p, kind);
    SizeAfter(All(calls, kind), c);
  }

  lemma StepCounters(s: State, e: Event)
    requires CountersOk(s) && Enabled(s, e)
    ensures CountersOk(Apply(s, e))
  {
    var p := NextPhase(s, e);
    CountAfter(s.calls, e.call, p, HasRead);
    CountAfter(s.calls, e.call, p, Led);
    CountAfter(s.calls, e.call, p, GaveUp);
    CountAfter(s.calls, e.call, p, Joined);
  }

  lemma {:induction false} RunInv(r: Run)
    requires IsRun(r)
    ensures Inv(Exec(r))
  {
    match r
    case Begin =>
    case Then(before, e) =>
      RunInv(before);
      var s := Exec(before);
      StepRegistry(s, e);
      StepFlights(s, e);
      StepCounters(s, e);
      forall c | c in Apply(s, e).calls
        ensures PhaseOk(Apply(s, e), c)
      {
        if c == e.call { StepSelf(s, e); } else { StepOther(s, e, c); }
      }
  }

  // --- What holds in every run ---

  /** At most one call at a time leads the registered read of a database. */
  lemma OneLeaderPerDatabase(r: Run, a: Call, b: Call)
    requires IsRun(r)
    requires Leads(Exec(r), a) && Leads(Exec(r), b)
    ensures a in Exec(r).dbs && b in Exec(r).dbs
    ensures Exec(r).dbs[a] == Exec(r).dbs[b] ==> a == b
  {
    RunInv(r);
    assert PhaseOk(Exec(r), a) && PhaseOk(Exec(r), b);
  }

  /** A flight is out of the registry before any of its waiters wakes, whatever became of
      its read, so nobody can join a flight that is done. */
  lemma DoneIsRetired(r: Run, f: Call, db: Db)
    requires IsRun(r) && f in Exec(r).flights && Exec(r).flights[f].done
    ensures !Registered(Exec(r), db, f) && Exec(r).flights[f].result.Some?
  {
    RunInv(r);
    assert f in Exec(r).calls && Is(Led, Exec(r).calls[f]) && PhaseOk(Exec(r), f);
    assert Registered(Exec(r), db, f) ==> Leads(Exec(r), f);
  }

  /** The flight a new call joins is one for its database whose waiters have yet to wake. */
  lemma JoinsLiveFlight(r: Run, c: Call, db: Db)
    requires IsRun(Then(r, Enter(c, db))) && db in Exec(r).registry
    ensures var f := Exec(r).registry[db];
            Exec(Then(r, Enter(c, db))).calls[c] == Waiting(f) &&
            f in Exec(r).flights && Exec(r).flights[f].db == db && !Exec(r).flights[f].done
  {
    RunInv(r);
    assert Leads(Exec(r), Exec(r).registry[db]);
    assert PhaseOk(Exec(r), Exec(r).registry[db]);
  }

  /** A waiter that fails failed by its own read; one that was answered by a flight got
      what that flight's leader loaded for the same database. */
  lemma OwnFailuresOnly(r: Run, c: Call)
    requires IsRun(r) && c in Exec(r).calls && Exec(r).calls[c].Finished?
    ensures Exec(r).calls[c].outcome.Failed? ==> !Exec(r).calls[c].role.Sharer?
    ensures Exec(r).calls[c].role.Sharer? ==>
              var f := Exec(r).calls[c].role.flight;
              f in Exec(r).calls && Exec(r).calls[f] == Finished(Leader, Exec(r).calls[c].outcome) &&
              f in Exec(r).dbs && c in Exec(r).dbs && Exec(r).dbs[f] == Exec(r).dbs[c]
  {
    RunInv(r);
    var s := Exec(r);
    assert PhaseOk(s, c);
    if s.calls[c].role.Sharer? {
      var f := s.calls[c].role.flight;
      assert f in s.calls && Is(Led, s.calls[f]) && PhaseOk(s, f);
    }
  }

  // --- Who shares, told by what happened ---

  predicate Happened(r: Run, e: Event) {
    match r
    case Begin => false
    case Then(before, last) => last == e || Happened(before, e)
  }

  /** A call has the outcome its own read had, and has one only after that read. */
  ghost predicate ReadsOk(r: Run, c: Call)
    requires IsRun(r)
  {
    var s := Exec(r);
    if c in s.flights && s.flights[c].result.Some?
    then forall o :: Happened(r, LeaderReads(c, o)) <==> o == s.flights[c].result.value
    else forall o :: !Happened(r, LeaderReads(c, o))
  }

  lemma {:induction false} LeaderReadOnce(r: Run, c: Call)
    requires IsRun(r)
    ensures ReadsOk(r, c)
  {
    match r
    case Begin =>
    case Then(before, e) =>
      LeaderReadOnce(before, c);
      RunInv(before);
      var s := Exec(before);
      if e.call in s.calls { assert PhaseOk(s, e.call); }
      if c in s.flights { FlightStays(s, e, c); }
  }

  /** The flight the call waits, or waited, on. */
  function FlightOf(p: Phase): Option<Call> {
    match p
    case Waiting(f) => Some(f)
    case Reading(f) => Some(f)
    case Finished(Sharer(f), _) => Some(f)
    case Finished(Alone(f), _) => Some(f)
    case _ => None
  }

  ghost predicate Heard(r: Run, c: Call, f: Call, o: Outcome) {
    Happened(r, Wake(c)) && Happened(r, LeaderReads(f, o))
  }

  /** It stopped waiting, or was woken to a failure; never both. */
  ghost predicate GaveUpOn(r: Run, c: Call, f: Call) {
    if Happened(r, StopWaiting(c)) then !Happened(r, Wake(c)) else Heard(r, c, f, Failed)
  }

  ghost predicate WaitOk(r: Run, c: Call)
    requires IsRun(r)
  {
    var s := Exec(r);
    if c !in s.calls then !Happened(r, Wake(c)) && !Happened(r, StopWaiting(c))
    else
      match s.calls[c]
      case Reading(f) => GaveUpOn(r, c, f)
      case Finished(Alone(f), _) => GaveUpOn(r, c, f)
      case Finished(Sharer(f), o) => !Happened(r, StopWaiting(c)) && o.Loaded? && Heard(r, c, f, o)
      case _ => !Happened(r, Wake(c)) && !Happened(r, StopWaiting(c))
  }

  lemma {:induction false} WaitsAre(r: Run, c: Call)
    requires IsRun(r)
    ensures WaitOk(r, c)
  {
    match r
    case Begin =>
    case Then(before, e) =>
      WaitsAre(before, c);
      if e == Wake(c) { WokenBy(before, c); }
  }

  /** What a waiter wakes to is what its flight's leader read. */
  lemma WokenBy(r: Run, c: Call)
    requires IsRun(Then(r, Wake(c)))
    ensures var s := Exec(r);
            var f := s.calls[c].flight;
            && f in s.flights && s.flights[f].result.Some?
            && (forall o :: Happened(r, LeaderReads(f, o)) <==> o == s.flights[f].result.value)
            && Exec(Then(r, Wake(c))).calls[c] ==
               match s.flights[f].result.value
               case Loaded(x) => Finished(Sharer(f), Loaded(x))
               case Failed => Reading(f)
  {
    RunInv(r);
    var f := Exec(r).calls[c].flight;
    DoneIsRetired(r, f, "");
    LeaderReadOnce(r, f);
  }

  /** Waking on a flight whose leader loaded a schema answers the call with that schema, and
      nothing more is read. */
  lemma WakeShares(r: Run, c: Call, x: Schema)
    requires IsRun(Then(r, Wake(c)))
    requires Happened(r, LeaderReads(Exec(r).calls[c].flight, Loaded(x)))
    ensures var s, s' := Exec(r), Exec(Then(r, Wake(c)));
            && s'.calls[c] == Finished(Sharer(s.calls[c].flight), Loaded(x))
            && s'.readCount == s.readCount && s'.fetches == s.fetches
  {
    WokenBy(r, c);
  }

  /** A call that joined a flight reads for itself exactly when its wait timed out, or it was
      woken after the flight's read had failed. */
  lemma ReadsAloneIff(r: Run, c: Call)
    requires IsRun(r) && c in Exec(r).calls && FlightOf(Exec(r).calls[c]).Some?
    ensures var p := Exec(r).calls[c];
            Is(GaveUp, p) <==> Happened(r, StopWaiting(c)) || Heard(r, c, FlightOf(p).value, Failed)
  {
    WaitsAre(r, c);
    LeaderReadOnce(r, FlightOf(Exec(r).calls[c]).value);
  }

  /** And it is answered by the flight exactly when it was woken in time and the flight's leader
      had loaded the schema. */
  lemma SharesIff(r: Run, c: Call, x: Schema)
    requires IsRun(r) && c in Exec(r).calls && FlightOf(Exec(r).calls[c]).Some?
    ensures var f := FlightOf(Exec(r).calls[c]).value;
            Exec(r).calls[c] == Finished(Sharer(f), Loaded(x)) <==> Heard(r, c, f, Loaded(x))
  {
    WaitsAre(r, c);
    LeaderReadOnce(r, FlightOf(Exec(r).calls[c]).value);
  }

  lemma {:induction false} DoneIff(r: Run, f: Call)
    requires IsRun(r)
    ensures f in Exec(r).flights && Exec(r).flights[f].done <==> Happened(r, WakeWaiters(f))
  {
    match r
    case Begin =>
    case Then(before, e) =>
      DoneIff(before, f);
      RunInv(before);
      var s := Exec(before);
      if e.call in s.calls { assert PhaseOk(s, e.call); }
      if f in s.flights { FlightStays(s, e, f); }
  }

  /** A waiter can give up at any time, and can wake exactly once its flight's leader has woken
      its waiters. */
  lemma WaiterCanMove(r: Run, c: Call)
    requires IsRun(r) && c in Exec(r).calls && Exec(r).calls[c].Waiting?
    ensures IsRun(Then(r, StopWaiting(c)))
    ensures IsRun(Then(r, Wake(c))) <==> Happened(r, WakeWaiters(Exec(r).calls[c].flight))
  {
    DoneIff(r, Exec(r).calls[c].flight);
  }

  /** A leader can always go on to wake its waiters: it reads, takes its flight out and wakes
      them, whatever its read comes to. */
  lemma LeaderGoesOn(r: Run, c: Call, o: Outcome)
    requires IsRun(r) && c in Exec(r).calls && Exec(r).calls[c] == Leading
    ensures var r' := Then(Then(Then(r, LeaderReads(c, o)), Unregister(c)), WakeWaiters(c));
            IsRun(r') && Exec(r').calls[c] == Finished(Leader, o)
  {
    RunInv(r);
    assert PhaseOk(Exec(r), c);
    var r1 := Then(r, LeaderReads(c, o));
    assert IsRun(r1) && Exec(r1).calls[c] == Landed(o);
    var r2 := Then(r1, Unregister(c));
    assert IsRun(r2) && Exec(r2).calls[c] == Unregistered(o);
  }

  /** Two calls for one database, the second while the first reads. */
  function TwoCalls(a: Call, b: Call, db: Db, x: Schema): Run {
    var read := Then(Then(Then(Begin, Enter(a, db)), Enter(b, db)), LeaderReads(a, Loaded(x)));
    Then(Then(Then(read, Unregister(a)), WakeWaiters(a)), Wake(b))
  }

  ghost predicate Stands(r: Run, s: State) {
    IsRun(r) && Exec(r) == s
  }

  lemma Goes(r: Run, s: State, e: Event, s': State)
    requires Stands(r, s) && Enabled(s, e) && s' == Apply(s, e)
    ensures Stands(Then(r, e), s')
  {
  }

  /** While the leader is in this phase and the other call waits. */
  function OneWaits(a: Call, b: Call, db: Db, leader: Phase, flight: Flight, done: nat): State {
    State(if flight.result.None? || leader.Landed? then map[db := a] else map[], map[a := flight],
          map[a := leader, b := Waiting(a)], map[a := db, b := db], done, 1, 1)
  }

  lemma BothEnter(a: Call, b: Call, db: Db)
    requires a != b
    ensures Stands(Then(Then(Begin, Enter(a, db)), Enter(b, db)),
                   OneWaits(a, b, db, Leading, Flight(db, None, false), 0))
  {
    var s1 := State(map[db := a], map[a := Flight(db, None, false)], map[a := Leading], map[a := db], 0, 1, 0);
    assert Stands(Begin, Start());
    Goes(Begin, Start(), Enter(a, db), s1);
    Goes(Then(Begin, Enter(a, db)), s1, Enter(b, db), OneWaits(a, b, db, Leading, Flight(db, None, false), 0));
  }

  lemma Lands(a: Call, b: Call, db: Db, o: Outcome)
    requires a != b
    ensures var s := OneWaits(a, b, db, Leading, Flight(db, None, false), 0);
            Enabled(s, LeaderReads(a, o)) &&
            Apply(s, LeaderReads(a, o)) == OneWaits(a, b, db, Landed(o), Flight(db, Some(o), false), 1)
  {
  }

  lemma TakesOut(a: Call, b: Call, db: Db, o: Outcome)
    requires a != b
    ensures var s := OneWaits(a, b, db, Landed(o), Flight(db, Some(o), false), 1);
            Enabled(s, Unregister(a)) &&
            Apply(s, Unregister(a)) == OneWaits(a, b, db, Unregistered(o), Flight(db, Some(o), false), 1)
  {
  }

  lemma Wakes(a: Call, b: Call, db: Db, o: Outcome)
    requires a != b
    ensures var s := OneWaits(a, b, db, Unregistered(o), Flight(db, Some(o), false), 1);
            Enabled(s, WakeWaiters(a)) &&
            Apply(s, WakeWaiters(a)) == OneWaits(a, b, db, Finished(Leader, o), Flight(db, Some(o), true), 1)
  {
  }

  /** Both are answered by the one read. */
  lemma TwoCallsShare(a: Call, b: Call, db: Db, x: Schema)
    requires a != b
    ensures IsRun(TwoCalls(a, b, db, x))
    ensures var s := Exec(TwoCalls(a, b, db, x));
            && s.calls == map[a := Finished(Leader, Loaded(x)), b := Finished(Sharer(a), Loaded(x))]
            && s.readCount == 1 && s.fetches == 1 && s.shared == 1
  {
    var o := Loaded(x);
    var entered := Then(Then(Begin, Enter(a, db)), Enter(b, db));
    BothEnter(a, b, db);
    Lands(a, b, db, o);
    Goes(entered, OneWaits(a, b, db, Leading, Flight(db, None, false), 0), LeaderReads(a, o),
         OneWaits(a, b, db, Landed(o), Flight(db, Some(o), false), 1));
    var landed := Then(entered, LeaderReads(a, o));
    TakesOut(a, b, db, o);
    Goes(landed, OneWaits(a, b, db, Landed(o), Flight(db, Some(o), false), 1), Unregister(a),
         OneWaits(a, b, db, Unregistered(o), Flight(db, Some(o), false), 1));
    Wakes(a, b, db, o);
    Goes(Then(landed, Unregister(a)), OneWaits(a, b, db, Unregistered(o), Flight(db, Some(o), false), 1),
         WakeWaiters(a), OneWaits(a, b, db, Finished(Leader, o), Flight(db, Some(o), true), 1));
    LastShares(a, b, db, o);
    var woken := OneWaits(a, b, db, Finished(Leader, o), Flight(db, Some(o), true), 1);
    Goes(Then(Then(landed, Unregister(a)), WakeWaiters(a)), woken, Wake(b), Apply(woken, Wake(b)));
  }

  lemma LastShares(a: Call, b: Call, db: Db, o: Outcome)
    requires a != b && o.Loaded?
    ensures var s := OneWaits(a, b, db, Finished(Leader, o), Flight(db, Some(o), true), 1);
            && Enabled(s, Wake(b))
            && Apply(s, Wake(b)).calls == map[a := Finished(Leader, o), b := Finished(Sharer(a), o)]
            && Apply(s, Wake(b)).readCount == 1 && Apply(s, Wake(b)).fetches == 1 && Apply(s, Wake(b)).shared == 1
  {
  }

  ghost predicate AllFinished(calls: map<Call, Phase>) {
    forall c :: c in calls ==> calls[c].Finished?
  }

  lemma Parts<T>(whole: set<T>, left: set<T>, right: set<T>)
    requires left !! right && whole == left + right
    ensures |whole| == |left| + |right|
  {
  }

  lemma ReadersSplit(calls: map<Call, Phase>)
    requires AllFinished(calls)
    ensures |All(calls, HasRead)| == |All(calls, Led)| + |All(calls, GaveUp)|
  {
    forall c
      ensures c in All(calls, HasRead) <==> c in All(calls, Led) || c in All(calls, GaveUp)
    {
    }
    Parts(All(calls, HasRead), All(calls, Led), All(calls, GaveUp));
  }

  lemma CallsSplit(calls: map<Call, Phase>)
    ensures |calls| == |All(calls, Led)| + |All(calls, Joined)|
  {
    assert |calls| == |calls.Keys|;
    Parts(calls.Keys, All(calls, Led), All(calls, Joined));
  }

  /** Once every call is over, the database was read exactly once for each leader and each
      waiter that gave up, and both counters say so. */
  lemma ReadsAreLeadersAndLoners(r: Run)
    requires IsRun(r) && AllFinished(Exec(r).calls)
    ensures var s := Exec(r);
            s.readCount == |All(s.calls, Led)| + |All(s.calls, GaveUp)| == s.fetches &&
            s.shared == |s.calls| - |All(s.calls, Led)|
  {
    RunInv(r);
    ReadersSplit(Exec(r).calls);
    CallsSplit(Exec(r).calls);
  }
}
