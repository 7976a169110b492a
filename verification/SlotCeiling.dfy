/** Every call to `query_slot` against one database, as a transition system: attempts, the
    separate clean-up of a lost attempt, releases that may fail, crashes, time, and the
    per-process semaphore calls fall back to when Redis cannot be used. */
module SlotCeiling {
  import opened Names
  import opened Numbers
  import opened Sets
  import opened SlotLeases

  type Worker = nat
  type Call = Token     // one use of query_slot; its token is its own

  datatype Phase =
    | Waiting                 // between attempts on the shared count
    | Losing                  // told no, its own entry not taken out yet
    | Holding(until: real)    // running its block on a shared slot, leased until then
    | WaitingLocal            // queued on its process's semaphore
    | HoldingLocal            // running its block on a local permit
    | Done                    // released, refused or dead

  /** `life` is what PEXPIRE gives the whole key; see `Derived`. */
  datatype Config = Config(limit: nat, lease: real, life: real, workers: set<Worker>, home: map<Call, Worker>)

  /** The key's life is the lease in whole milliseconds. */
  ghost predicate Derived(cfg: Config) {
    cfg.life == KeyLife(cfg.lease)
  }

  datatype State = State(now: real, leases: Leases, keyEnd: real, calls: map<Call, Phase>)

  datatype Event =
    | Tick(elapsed: real)
    | EnterShared(call: Call)
    | EnterLocal(call: Call)
    | Attempt(call: Call)
    | AttemptRaised(call: Call, applied: bool)    // Redis failed, with or without effect
    | CleanUp(call: Call)
    | CleanUpRaised(call: Call, applied: bool)
    | GiveUp(call: Call)
    | TakeLocal(call: Call)
    | Release(call: Call, removed: bool)          // a failed release leaves the entry
    | ReleaseLocal(call: Call)
    | Crash(worker: Worker)
    | KeyExpires

  ghost function Start(now: real): State {
    State(now, map[], now, map[])
  }

  function PhaseOf(s: State, c: Call): Phase {
    if c in s.calls then s.calls[c] else Done
  }

  function LocalHolders(cfg: Config, s: State, w: Worker): set<Call> {
    set c | c in s.calls && s.calls[c].HoldingLocal? && c in cfg.home && cfg.home[c] == w
  }

  ghost predicate Enabled(cfg: Config, s: State, e: Event) {
    match e
    case Tick(elapsed) => elapsed >= 0.0
    case EnterShared(c) => c !in s.calls && c in cfg.home && cfg.home[c] in cfg.workers
    case EnterLocal(c) => c !in s.calls && c in cfg.home && cfg.home[c] in cfg.workers
    case Attempt(c) => PhaseOf(s, c).Waiting?
    case AttemptRaised(c, _) => PhaseOf(s, c).Waiting?
    case CleanUp(c) => PhaseOf(s, c).Losing?
    case CleanUpRaised(c, _) => PhaseOf(s, c).Losing?
    case GiveUp(c) => PhaseOf(s, c).Waiting? || PhaseOf(s, c).WaitingLocal?
    case TakeLocal(c) =>
      PhaseOf(s, c).WaitingLocal? && c in cfg.home && |LocalHolders(cfg, s, cfg.home[c])| < cfg.limit
    case Release(c, _) => PhaseOf(s, c).Holding?
    case ReleaseLocal(c) => PhaseOf(s, c).HoldingLocal?
    case Crash(_) => true
    case KeyExpires => s.leases != map[] && s.keyEnd <= s.now
  }

  ghost function SetPhase(s: State, c: Call, p: Phase): State {
    s.(calls := s.calls[c := p])
  }

  /** The pipeline as the server runs it, whatever the caller learns of it. */
  ghost function Claimed(cfg: Config, s: State, c: Call): State {
    s.(leases := WithClaim(s.leases, c, s.now, cfg.lease), keyEnd := s.now + cfg.life)
  }

  ghost function Apply(cfg: Config, s: State, e: Event): State {
    match e
    case Tick(elapsed) => s.(now := s.now + elapsed)
    case EnterShared(c) => SetPhase(s, c, Waiting)
    case EnterLocal(c) => SetPhase(s, c, WaitingLocal)
    case Attempt(c) =>
      SetPhase(Claimed(cfg, s, c), c,
               if Admits(s.leases, c, s.now, cfg.lease, cfg.limit) then Holding(s.now + cfg.lease) else Losing)
    case AttemptRaised(c, applied) =>
      SetPhase(if applied then Claimed(cfg, s, c) else s, c, WaitingLocal)
    case CleanUp(c) => SetPhase(s.(leases := Without(s.leases, c)), c, Waiting)
    case CleanUpRaised(c, applied) =>
      SetPhase(if applied then s.(leases := Without(s.leases, c)) else s, c, WaitingLocal)
    case GiveUp(c) => SetPhase(s, c, Done)
    case TakeLocal(c) => SetPhase(s, c, HoldingLocal)
    case Release(c, removed) => SetPhase(if removed then s.(leases := Without(s.leases, c)) else s, c, Done)
    case ReleaseLocal(c) => SetPhase(s, c, Done)
    case Crash(w) =>
      s.(calls := map c | c in s.calls :: if c in cfg.home && cfg.home[c] == w then Done else s.calls[c])
    case KeyExpires => s.(leases := map[])
  }

  /** A run: the time it begins at, and then one event after another. */
  datatype Run = Begin(at: real) | Then(before: Run, event: Event)

  ghost predicate IsRun(cfg: Config, r: Run) {
    match r
    case Begin(_) => true
    case Then(before, e) => IsRun(cfg, before) && Enabled(cfg, Exec(cfg, before), e)
  }

  ghost function Exec(cfg: Config, r: Run): State {
    match r
    case Begin(at) => Start(at)
    case Then(before, e) => Apply(cfg, Exec(cfg, before), e)
  }

  // --- What is counted ---

  /** Calls on a shared slot whose lease has not ended. */
  ghost function LiveHolders(s: State): set<Call> {
    set c | c in s.calls && s.calls[c].Holding? && s.now < s.calls[c].until
  }

  ghost function AllLocal(s: State): set<Call> {
    set c | c in s.calls && s.calls[c].HoldingLocal?
  }

  // --- The invariant ---

  /** No lease runs for longer than one lease from now, or ends after the key it is in by
      more than what PEXPIRE truncates. */
  ghost predicate LeasesBounded(cfg: Config, s: State) {
    forall c :: c in s.leases ==>
      s.leases[c] <= s.now + cfg.lease && s.leases[c] <= s.keyEnd + (cfg.lease - cfg.life)
  }

  ghost predicate Inv(cfg: Config, s: State) {
    && (forall c :: c in LiveHolders(s) ==> c in s.leases && s.leases[c] == s.calls[c].until)
    && LeasesBounded(cfg, s)
    && |LiveHolders(s)| <= cfg.limit
    && (forall w :: |LocalHolders(cfg, s, w)| <= cfg.limit)
    && (forall c :: c in s.calls ==> c in cfg.home && cfg.home[c] in cfg.workers)
  }

  /** With this the whole-key expiry can only come after the last lease in the key. */
  ghost predicate KeyCoversLease(cfg: Config) {
    cfg.lease <= cfg.life
  }

  /** An admission is counted against a set that holds every live lease. */
  lemma AttemptCounts(cfg: Config, s: State, c: Call)
    requires Inv(cfg, s) && Enabled(cfg, s, Attempt(c))
    ensures |LiveHolders(Apply(cfg, s, Attempt(c)))| <= cfg.limit
  {
    var s' := Apply(cfg, s, Attempt(c));
    if Admits(s.leases, c, s.now, cfg.lease, cfg.limit) {
      assert LiveHolders(s') <= s'.leases.Keys;
      SubsetSize(LiveHolders(s'), s'.leases.Keys);
      assert |s'.leases.Keys| == |s'.leases|;
    } else {
      assert LiveHolders(s') <= LiveHolders(s);
      SubsetSize(LiveHolders(s'), LiveHolders(s));
    }
  }

  lemma LiveShrinks(cfg: Config, s: State, e: Event)
    requires Inv(cfg, s) && Enabled(cfg, s, e) && !e.Attempt?
    ensures LiveHolders(Apply(cfg, s, e)) <= LiveHolders(s)
    ensures |LiveHolders(Apply(cfg, s, e))| <= |LiveHolders(s)|
  {
    SubsetSize(LiveHolders(Apply(cfg, s, e)), LiveHolders(s));
  }

  lemma LocalKept(cfg: Config, s: State, e: Event, w: Worker)
    requires Inv(cfg, s) && Enabled(cfg, s, e)
    ensures |LocalHolders(cfg, Apply(cfg, s, e), w)| <= cfg.limit
  {
    var s' := Apply(cfg, s, e);
    if e.TakeLocal? {
      LocalTaken(cfg, s, e.call, w);
    } else {
      forall c | c in LocalHolders(cfg, s', w)
        ensures c in LocalHolders(cfg, s, w)
      {
        NewLocalOnlyTaken(cfg, s, e, c);
      }
      SubsetSize(LocalHolders(cfg, s', w), LocalHolders(cfg, s, w));
    }
  }

  lemma NewLocalOnlyTaken(cfg: Config, s: State, e: Event, c: Call)
    requires Enabled(cfg, s, e) && !e.TakeLocal? && PhaseOf(Apply(cfg, s, e), c).HoldingLocal?
    ensures PhaseOf(s, c).HoldingLocal?
  {
  }

  lemma LocalTaken(cfg: Config, s: State, c: Call, w: Worker)
    requires Inv(cfg, s) && Enabled(cfg, s, TakeLocal(c))
    ensures |LocalHolders(cfg, Apply(cfg, s, TakeLocal(c)), w)| <= cfg.limit
  {
    var before, after := LocalHolders(cfg, s, w), LocalHolders(cfg, Apply(cfg, s, TakeLocal(c)), w);
    if cfg.home[c] == w {
      assert after == before + {c};
    } else {
      assert after == before;
    }
  }

  lemma LeasesKept(cfg: Config, s: State, e: Event)
    requires Inv(cfg, s) && Enabled(cfg, s, e) && KeyCoversLease(cfg)
    ensures var s' := Apply(cfg, s, e);
            forall c :: c in LiveHolders(s') ==> c in s'.leases && s'.leases[c] == s'.calls[c].until
  {
    forall c | c in LiveHolders(Apply(cfg, s, e))
      ensures c in Apply(cfg, s, e).leases && Apply(cfg, s, e).leases[c] == Apply(cfg, s, e).calls[c].until
    {
      LeaseKept(cfg, s, e, c);
    }
  }

  lemma LeaseKept(cfg: Config, s: State, e: Event, c: Call)
    requires Enabled(cfg, s, e) && LeasesBounded(cfg, s) && KeyCoversLease(cfg)
    requires c in LiveHolders(Apply(cfg, s, e))
    requires c in LiveHolders(s) ==> c in s.leases && s.leases[c] == s.calls[c].until
    ensures c in Apply(cfg, s, e).leases && Apply(cfg, s, e).leases[c] == Apply(cfg, s, e).calls[c].until
  {
    if e.Attempt? && e.call == c {
      JustLeased(cfg, s, c);
    } else {
      HeldBefore(cfg, s, e, c);
      OthersLeases(cfg, s, e, c);
    }
  }

  lemma JustLeased(cfg: Config, s: State, c: Call)
    requires c in LiveHolders(Apply(cfg, s, Attempt(c)))
    ensures var after := Apply(cfg, s, Attempt(c)); c in after.leases && after.leases[c] == after.calls[c].until
  {
  }

  /** Only an attempt makes a call hold a slot. */
  lemma HeldBefore(cfg: Config, s: State, e: Event, c: Call)
    requires Enabled(cfg, s, e) && !(e.Attempt? && e.call == c) && c in LiveHolders(Apply(cfg, s, e))
    ensures c in LiveHolders(s) && Apply(cfg, s, e).calls[c] == s.calls[c]
  {
  }

  /** A running lease is not pruned, and its entry is its own. */
  lemma OthersLeases(cfg: Config, s: State, e: Event, c: Call)
    requires Enabled(cfg, s, e) && LeasesBounded(cfg, s) && KeyCoversLease(cfg)
    requires !(e.Attempt? && e.call == c) && c in LiveHolders(Apply(cfg, s, e)) && c in LiveHolders(s)
    requires c in s.leases && s.leases[c] == s.calls[c].until
    ensures c in Apply(cfg, s, e).leases && Apply(cfg, s, e).leases[c] == s.leases[c]
  {
  }

  lemma LeasesStayBounded(cfg: Config, s: State, e: Event)
    requires Inv(cfg, s) && Enabled(cfg, s, e) && KeyCoversLease(cfg)
    ensures LeasesBounded(cfg, Apply(cfg, s, e))
  {
  }

  lemma StepInv(cfg: Config, s: State, e: Event)
    requires Inv(cfg, s) && Enabled(cfg, s, e) && KeyCoversLease(cfg)
    ensures Inv(cfg, Apply(cfg, s, e))
  {
    LeasesKept(cfg, s, e);
    LeasesStayBounded(cfg, s, e);
    if e.Attempt? { AttemptCounts(cfg, s, e.call); } else { LiveShrinks(cfg, s, e); }
    forall w
      ensures |LocalHolders(cfg, Apply(cfg, s, e), w)| <= cfg.limit
    {
      LocalKept(cfg, s, e, w);
    }
  }

  lemma {:induction false} RunInv(cfg: Config, r: Run)
    requires IsRun(cfg, r) && KeyCoversLease(cfg)
    ensures Inv(cfg, Exec(cfg, r))
  {
    match r
    case Begin(at) =>
      assert LiveHolders(Start(at)) == {};
      assert forall w :: LocalHolders(cfg, Start(at), w) == {};
    case Then(before, e) =>
      RunInv(cfg, before);
      StepInv(cfg, Exec(cfg, before), e);
  }

  // --- Safety over every run ---

  /** The slots granted on the shared count, unreleased and within their lease, never
      exceed the limit, and each still has its own entry, so none is handed to another call
      early. */
  lemma SharedCeiling(cfg: Config, r: Run)
    requires IsRun(cfg, r) && KeyCoversLease(cfg)
    ensures var s := Exec(cfg, r);
            && |LiveHolders(s)| <= cfg.limit
            && (forall c :: c in LiveHolders(s) ==> c in s.leases && s.leases[c] == s.calls[c].until)
  {
    RunInv(cfg, r);
  }

  ghost predicate EndWithin(z: Leases, end: real) {
    forall c :: c in z ==> z[c] <= end
  }

  lemma StepEndsWithin(cfg: Config, s: State, e: Event)
    requires Enabled(cfg, s, e) && EndWithin(s.leases, s.now + cfg.lease)
    ensures EndWithin(Apply(cfg, s, e).leases, Apply(cfg, s, e).now + cfg.lease)
  {
  }

  /** Whatever the lease, no entry, orphaned or not, lasts longer than one lease from now. */
  lemma {:induction false} EntriesEndWithinLease(cfg: Config, r: Run)
    requires IsRun(cfg, r)
    ensures EndWithin(Exec(cfg, r).leases, Exec(cfg, r).now + cfg.lease)
  {
    if r.Then? {
      EntriesEndWithinLease(cfg, r.before);
      StepEndsWithin(cfg, Exec(cfg, r.before), r.event);
    }
  }

  ghost function LocalOf(cfg: Config, s: State, ws: set<Worker>): set<Call> {
    set c | c in s.calls && s.calls[c].HoldingLocal? && c in cfg.home && cfg.home[c] in ws
  }

  lemma {:induction false} LocalPerWorker(cfg: Config, s: State, ws: set<Worker>)
    requires forall w :: |LocalHolders(cfg, s, w)| <= cfg.limit
    ensures |LocalOf(cfg, s, ws)| <= |ws| * cfg.limit
  {
    if ws == {} {
      assert LocalOf(cfg, s, ws) == {};
    } else {
      var w :| w in ws;
      var rest := ws - {w};
      LocalPerWorker(cfg, s, rest);
      assert LocalOf(cfg, s, ws) == LocalOf(cfg, s, rest) + LocalHolders(cfg, s, w);
      UnionSize(LocalOf(cfg, s, rest), LocalHolders(cfg, s, w));
      assert |ws| == |rest| + 1;
      OneMoreTimes(|rest|, cfg.limit);
    }
  }

  /** With calls falling back to their own process's semaphore whenever Redis fails them,
      W workers run at most (W + 1) times the limit. */
  lemma MixedCeiling(cfg: Config, r: Run)
    requires IsRun(cfg, r) && KeyCoversLease(cfg)
    ensures |LiveHolders(Exec(cfg, r)) + AllLocal(Exec(cfg, r))| <= (|cfg.workers| + 1) * cfg.limit
  {
    RunInv(cfg, r);
    LiveAndLocal(cfg, Exec(cfg, r));
  }

  lemma LiveAndLocal(cfg: Config, s: State)
    requires |LiveHolders(s)| <= cfg.limit && forall w :: |LocalHolders(cfg, s, w)| <= cfg.limit
    requires forall c :: c in s.calls ==> c in cfg.home && cfg.home[c] in cfg.workers
    ensures |LiveHolders(s) + AllLocal(s)| <= (|cfg.workers| + 1) * cfg.limit
  {
    LocalPerWorker(cfg, s, cfg.workers);
    assert AllLocal(s) == LocalOf(cfg, s, cfg.workers);
    UnionSize(LiveHolders(s), AllLocal(s));
    OneMoreTimes(|cfg.workers|, cfg.limit);
  }

  lemma OneMoreTimes(w: nat, limit: nat)
    ensures (w + 1) * limit == w * limit + limit
  {
  }

  /** What the statement timeout is for: a block that is over before its lease ends. */
  ghost predicate BlocksWithinLease(s: State) {
    forall c :: c in s.calls && s.calls[c].Holding? ==> s.now < s.calls[c].until
  }

  ghost function Running(s: State): set<Call> {
    set c | c in s.calls && (s.calls[c].Holding? || s.calls[c].HoldingLocal?)
  }

  lemma RunningCeiling(cfg: Config, r: Run)
    requires IsRun(cfg, r) && KeyCoversLease(cfg) && BlocksWithinLease(Exec(cfg, r))
    ensures |Running(Exec(cfg, r))| <= (|cfg.workers| + 1) * cfg.limit
  {
    MixedCeiling(cfg, r);
    var s := Exec(cfg, r);
    assert Running(s) == LiveHolders(s) + AllLocal(s);
  }

  function Beginning(r: Run): real {
    match r
    case Begin(at) => at
    case Then(before, _) => Beginning(before)
  }

  lemma {:induction false} ScoresNotNegative(cfg: Config, r: Run)
    requires IsRun(cfg, r) && Beginning(r) >= 0.0 && cfg.lease >= 0.0
    ensures Exec(cfg, r).now >= 0.0
    ensures forall c :: c in Exec(cfg, r).leases ==> Exec(cfg, r).leases[c] >= 0.0
  {
    if r.Then? {
      ScoresNotNegative(cfg, r.before);
    }
  }

  /** At every point of every run an attempt is admitted exactly when fewer than `limit`
      other unexpired leases exist. */
  lemma AttemptIffRoom(cfg: Config, r: Run, c: Call)
    requires IsRun(cfg, Then(r, Attempt(c))) && Beginning(r) >= 0.0 && cfg.lease >= 0.0
    ensures PhaseOf(Exec(cfg, Then(r, Attempt(c))), c).Holding? <==>
            |Others(Exec(cfg, r).leases, c, Exec(cfg, r).now)| < cfg.limit
  {
    ScoresNotNegative(cfg, r);
    var s := Exec(cfg, r);
    AdmitsIffRoom(s.leases, c, s.now, cfg.lease, cfg.limit);
  }

  // --- What becomes of an entry ---

  /** The event takes the call's own entry out. */
  predicate TakesOut(e: Event, c: Call) {
    e == Release(c, true) || e == CleanUp(c) || e == CleanUpRaised(c, true)
  }

  /** The event runs the claim pipeline for the call, whether or not the call learns of it. */
  predicate Claims(e: Event, c: Call) {
    e == Attempt(c) || e == AttemptRaised(c, true)
  }

  /** The event prunes the set, for whichever call. */
  predicate Prunes(e: Event) {
    e.Attempt? || (e.AttemptRaised? && e.applied)
  }

  /** After an event a call has an entry exactly when it has just claimed one, which ends one
      lease from now, or had one before, which is as it was and was not taken out by the call
      itself, dropped with the key, or pruned after its end. */
  lemma EntryAfter(cfg: Config, r: Run, e: Event, c: Call)
    requires IsRun(cfg, Then(r, e))
    ensures var s, s' := Exec(cfg, r), Exec(cfg, Then(r, e));
            && (c in s'.leases <==>
                Claims(e, c) ||
                (c in s.leases && !TakesOut(e, c) && e != KeyExpires && !(Prunes(e) && 0.0 <= s.leases[c] <= s.now)))
            && (c in s'.leases ==> s'.leases[c] == if Claims(e, c) then s.now + cfg.lease else s.leases[c])
  {
    var s := Exec(cfg, r);
    match e
    case Attempt(d) => ClaimedEntry(cfg, s, d, c);
    case AttemptRaised(d, applied) => if applied { ClaimedEntry(cfg, s, d, c); }
    case _ =>
  }

  lemma ClaimedEntry(cfg: Config, s: State, d: Call, c: Call)
    ensures var z := Claimed(cfg, s, d).leases;
            && (c in z <==> c == d || (c in s.leases && !(0.0 <= s.leases[c] <= s.now)))
            && (c in z ==> z[c] == if c == d then s.now + cfg.lease else s.leases[c])
  {
  }

  /** A release that worked, like a clean-up that worked, frees exactly its own slot; one that
      failed without effect changes no entry. */
  lemma ReleaseFreesItsSlot(cfg: Config, r: Run, e: Event)
    requires IsRun(cfg, Then(r, e)) && (e.Release? || e.CleanUp? || e.CleanUpRaised?)
    ensures var s, s' := Exec(cfg, r), Exec(cfg, Then(r, e));
            s'.leases == (if TakesOut(e, e.call) then s.leases - {e.call} else s.leases) && s'.now == s.now
  {
  }

  /** The entries of other calls that still count. */
  ghost function Counted(s: State, gone: set<Call>): set<Call> {
    set t | t in s.leases && t !in gone && s.leases[t] > s.now
  }

  /** So the attempt that comes next is granted exactly when fewer than the limit other entries
      still count, the one taken out left aside. */
  lemma FreedSlotIsGranted(cfg: Config, r: Run, e: Event, d: Call)
    requires IsRun(cfg, Then(Then(r, e), Attempt(d))) && (e.Release? || e.CleanUp? || e.CleanUpRaised?)
    requires Beginning(r) >= 0.0 && cfg.lease >= 0.0
    ensures var s, s' := Exec(cfg, r), Exec(cfg, Then(Then(r, e), Attempt(d)));
            PhaseOf(s', d).Holding? <==>
            |Counted(s, if TakesOut(e, e.call) then {e.call, d} else {d})| < cfg.limit
  {
    var s, freed := Exec(cfg, r), Exec(cfg, Then(r, e));
    ReleaseFreesItsSlot(cfg, r, e);
    AttemptIffRoom(cfg, Then(r, e), d);
    assert Others(freed.leases, d, freed.now) == Counted(s, if TakesOut(e, e.call) then {e.call, d} else {d});
  }

  predicate Concerns(cfg: Config, e: Event, c: Call) {
    match e
    case Tick(_) => false
    case KeyExpires => false
    case Crash(w) => c in cfg.home && cfg.home[c] == w
    case _ => e.call == c
  }

  /** The last event of the run that is about the call. */
  function LastOf(cfg: Config, r: Run, c: Call): Option<Event> {
    match r
    case Begin(_) => None
    case Then(before, e) => if Concerns(cfg, e, c) then Some(e) else LastOf(cfg, before, c)
  }

  datatype Stage = New | InLine | InLocalLine | Tried | OnLocal | Over

  function StageOf(last: Option<Event>): Stage {
    match last
    case None => New
    case Some(e) =>
      if e.EnterShared? || e.CleanUp? then InLine
      else if e.EnterLocal? || e.AttemptRaised? || e.CleanUpRaised? then InLocalLine
      else if e.Attempt? then Tried
      else if e.TakeLocal? then OnLocal
      else Over
  }

  /** A call's phase told by the last that happened to it: once Redis has failed it, it waits
      for its own process's semaphore, and a crash ends the calls of its own worker only. */
  lemma {:induction false} PhaseByLastEvent(cfg: Config, r: Run, c: Call)
    requires IsRun(cfg, r)
    ensures var p, stage := PhaseOf(Exec(cfg, r), c), StageOf(LastOf(cfg, r, c));
            && (p.Waiting? <==> stage == InLine) && (p.Holding? || p.Losing? <==> stage == Tried)
            && (p.WaitingLocal? <==> stage == InLocalLine) && (p.HoldingLocal? <==> stage == OnLocal)
            && (p.Done? <==> stage == New || stage == Over)
  {
    match r
    case Begin(_) =>
    case Then(before, e) =>
      PhaseByLastEvent(cfg, before, c);
      PhaseStep(cfg, Exec(cfg, before), e, c);
  }

  /** What is not about a call leaves its phase; what is about it does not depend on others. */
  lemma PhaseStep(cfg: Config, s: State, e: Event, c: Call)
    requires Enabled(cfg, s, e)
    ensures var p := PhaseOf(Apply(cfg, s, e), c);
            if !Concerns(cfg, e, c) then p == PhaseOf(s, c)
            else
              match e
              case EnterShared(_) => p.Waiting?
              case CleanUp(_) => p.Waiting?
              case Attempt(_) => p.Holding? || p.Losing?
              case EnterLocal(_) => p.WaitingLocal?
              case AttemptRaised(_, _) => p.WaitingLocal?
              case CleanUpRaised(_, _) => p.WaitingLocal?
              case TakeLocal(_) => p.HoldingLocal?
              case _ => p.Done?
  {
  }

  /** What a call can do next, told by the last that happened to it: an attempt from the line, a
      clean-up after one that was refused, and a release, that works or not, after one that was
      granted. */
  lemma NextPossible(cfg: Config, r: Run, c: Call, worked: bool)
    requires IsRun(cfg, r)
    ensures var s, stage := Exec(cfg, r), StageOf(LastOf(cfg, r, c));
            && (IsRun(cfg, Then(r, Attempt(c))) <==> stage == InLine)
            && (IsRun(cfg, Then(r, AttemptRaised(c, worked))) <==> stage == InLine)
            && (IsRun(cfg, Then(r, CleanUp(c))) <==> stage == Tried && !PhaseOf(s, c).Holding?)
            && (IsRun(cfg, Then(r, CleanUpRaised(c, worked))) <==> stage == Tried && !PhaseOf(s, c).Holding?)
            && (IsRun(cfg, Then(r, Release(c, worked))) <==> stage == Tried && PhaseOf(s, c).Holding?)
  {
    PhaseByLastEvent(cfg, r, c);
  }

  /** It can give up while it waits in either line, takes a local permit while its process has one
      left, and gives it back. */
  lemma NextLocal(cfg: Config, r: Run, c: Call)
    requires IsRun(cfg, r)
    ensures var s, stage := Exec(cfg, r), StageOf(LastOf(cfg, r, c));
            && (IsRun(cfg, Then(r, GiveUp(c))) <==> stage == InLine || stage == InLocalLine)
            && (IsRun(cfg, Then(r, TakeLocal(c))) <==>
                stage == InLocalLine && c in cfg.home && |LocalHolders(cfg, s, cfg.home[c])| < cfg.limit)
            && (IsRun(cfg, Then(r, ReleaseLocal(c))) <==> stage == OnLocal)
  {
    PhaseByLastEvent(cfg, r, c);
  }

  predicate Arrived(r: Run, c: Call) {
    match r
    case Begin(_) => false
    case Then(before, e) => e == EnterShared(c) || e == EnterLocal(c) || Arrived(before, c)
  }

  lemma {:induction false} CallsArrived(cfg: Config, r: Run, c: Call)
    requires IsRun(cfg, r)
    ensures c in Exec(cfg, r).calls <==> Arrived(r, c)
  {
    if r.Then? {
      CallsArrived(cfg, r.before, c);
      OnlyArrivalsAdd(cfg, Exec(cfg, r.before), r.event, c);
    }
  }

  lemma OnlyArrivalsAdd(cfg: Config, s: State, e: Event, c: Call)
    requires Enabled(cfg, s, e)
    ensures c in Apply(cfg, s, e).calls <==> c in s.calls || e == EnterShared(c) || e == EnterLocal(c)
  {
  }

  /** A call of a known worker can arrive once, in either line; a worker can crash at any time; and
      Redis drops the key when its life is over. */
  lemma ArrivalPossible(cfg: Config, r: Run, c: Call, w: Worker)
    requires IsRun(cfg, r)
    ensures IsRun(cfg, Then(r, EnterShared(c))) <==>
            !Arrived(r, c) && c in cfg.home && cfg.home[c] in cfg.workers
    ensures IsRun(cfg, Then(r, EnterLocal(c))) <==> IsRun(cfg, Then(r, EnterShared(c)))
    ensures IsRun(cfg, Then(r, Crash(w)))
    ensures IsRun(cfg, Then(r, KeyExpires)) <==> Exec(cfg, r).leases != map[] && Exec(cfg, r).keyEnd <= Exec(cfg, r).now
  {
    CallsArrived(cfg, r, c);
  }

  /** The key's life runs from the last claim. */
  lemma KeyLivesFromLastClaim(cfg: Config, r: Run, e: Event)
    requires IsRun(cfg, Then(r, e))
    ensures Exec(cfg, Then(r, e)).keyEnd == if Prunes(e) then Exec(cfg, r).now + cfg.life else Exec(cfg, r).keyEnd
    ensures Exec(cfg, Then(r, e)).now == Exec(cfg, r).now + if e.Tick? then e.elapsed else 0.0
  {
  }

  // --- What a lease of a broken millisecond does ---

  lemma KeyCoversIffWholeMillis(cfg: Config)
    requires Derived(cfg)
    ensures KeyCoversLease(cfg) <==> cfg.lease < 0.0 || WholeMillis(cfg.lease)
  {
    if cfg.lease >= 0.0 {
      KeyLifeIs(cfg.lease);
    } else {
      var n := (-(cfg.lease * 1000.0)).Floor as real;
      assert KeyLife(cfg.lease) == -n / 1000.0;
    }
  }

  /** When Redis drops the key, every entry in it has ended, orphans of crashes and failed
      releases included. */
  ghost predicate OnlyEndedAtExpiry(cfg: Config, r: Run) {
    IsRun(cfg, Then(r, KeyExpires)) ==>
      forall c :: c in Exec(cfg, r).leases ==> Exec(cfg, r).leases[c] <= Exec(cfg, r).now
  }

  lemma ExpiryTakesOnlyEnded(cfg: Config, r: Run)
    requires KeyCoversLease(cfg)
    ensures OnlyEndedAtExpiry(cfg, r)
  {
    if IsRun(cfg, Then(r, KeyExpires)) { RunInv(cfg, r); }
  }

  /** One call enters and attempts, and then its key's life passes. */
  ghost function LifePasses(cfg: Config): Run {
    Then(Then(Then(Begin(0.0), EnterShared(0)), Attempt(0)), Tick(cfg.life))
  }

  lemma ExpiryTakesARunningLease(cfg: Config)
    requires HasCalls(cfg) && 0.0 <= cfg.life < cfg.lease
    ensures !OnlyEndedAtExpiry(cfg, LifePasses(cfg))
  {
    var r1 := Then(Begin(0.0), EnterShared(0));
    assert Exec(cfg, r1).leases == map[] && PhaseOf(Exec(cfg, r1), 0).Waiting?;
    assert IsRun(cfg, r1);
    var r2 := Then(r1, Attempt(0));
    assert IsRun(cfg, r2);
    assert Exec(cfg, r2).leases == WithClaim(map[], 0, 0.0, cfg.lease) && Exec(cfg, r2).keyEnd == cfg.life;
    assert 0 in Exec(cfg, r2).leases && Exec(cfg, r2).leases[0] == cfg.lease;
    var s := Exec(cfg, LifePasses(cfg));
    assert s.now == cfg.life && 0 in s.leases && s.leases[0] == cfg.lease;
    assert IsRun(cfg, Then(r2, Tick(cfg.life)));
    assert IsRun(cfg, Then(LifePasses(cfg), KeyExpires));
  }

  /** In every run key expiry removes only leases that have ended, exactly when the lease is
      negative or a whole number of milliseconds. */
  lemma ExpiryOnlyEndedIff(cfg: Config)
    requires HasCalls(cfg) && Derived(cfg)
    ensures (forall r: Run :: OnlyEndedAtExpiry(cfg, r)) <==> cfg.lease < 0.0 || WholeMillis(cfg.lease)
  {
    KeyCoversIffWholeMillis(cfg);
    if KeyCoversLease(cfg) {
      forall r: Run
        ensures OnlyEndedAtExpiry(cfg, r)
      {
        ExpiryTakesOnlyEnded(cfg, r);
      }
    } else {
      KeyLifeIs(cfg.lease);
      ExpiryTakesARunningLease(cfg);
    }
  }

  function Fill(start: real, k: nat): Run {
    if k == 0 then Begin(start) else Then(Then(Fill(start, k - 1), EnterShared(k - 1)), Attempt(k - 1))
  }

  ghost predicate HasCalls(cfg: Config) {
    forall c: nat :: c <= cfg.limit ==> c in cfg.home && cfg.home[c] in cfg.workers
  }

  function UpTo(k: nat): (r: set<Call>)
    ensures |r| == k && forall c: nat :: c in r <==> c < k
  {
    if k == 0 then {} else UpTo(k - 1) + {k - 1}
  }

  ghost predicate LeasesFilled(z: Leases, k: nat, end: real) {
    z.Keys == UpTo(k) && forall c :: c in z ==> z[c] == end
  }

  ghost predicate CallsFilled(calls: map<Call, Phase>, k: nat, end: real) {
    calls.Keys == UpTo(k) && forall c :: c in calls ==> calls[c] == Holding(end)
  }

  ghost predicate Filled(cfg: Config, start: real, s: State, k: nat) {
    && s.now == start
    && LeasesFilled(s.leases, k, start + cfg.lease)
    && CallsFilled(s.calls, k, start + cfg.lease)
    && (k > 0 ==> s.keyEnd == start + cfg.life)
  }

  lemma {:induction false} FillRuns(cfg: Config, start: real, k: nat)
    requires HasCalls(cfg) && cfg.lease > 0.0 && k <= cfg.limit
    ensures IsRun(cfg, Fill(start, k)) && Filled(cfg, start, Exec(cfg, Fill(start, k)), k)
  {
    if k > 0 {
      FillRuns(cfg, start, k - 1);
      FillStep(cfg, start, Exec(cfg, Fill(start, k - 1)), k - 1);
      ThenTwo(cfg, Fill(start, k - 1), EnterShared(k - 1), Attempt(k - 1));
    } else {
      assert UpTo(0) == {};
    }
  }

  lemma FillEnters(cfg: Config, start: real, s: State, c: Call)
    requires HasCalls(cfg) && c < cfg.limit && Filled(cfg, start, s, c)
    ensures Enabled(cfg, s, EnterShared(c))
    ensures Apply(cfg, s, EnterShared(c)) == State(start, s.leases, s.keyEnd, s.calls[c := Waiting])
    ensures Enabled(cfg, Apply(cfg, s, EnterShared(c)), Attempt(c))
  {
  }

  /** `c` has entered; every call before it holds a slot. */
  ghost predicate Entered(waiting: map<Call, Phase>, c: Call, end: real) {
    waiting.Keys == UpTo(c + 1) && forall d :: d in waiting ==> waiting[d] == if d == c then Waiting else Holding(end)
  }

  lemma FillAdmits(cfg: Config, start: real, s: State, c: Call)
    requires cfg.lease > 0.0 && c < cfg.limit && s.now == start
    requires LeasesFilled(s.leases, c, start + cfg.lease) && Entered(s.calls, c, start + cfg.lease)
    ensures Filled(cfg, start, Apply(cfg, s, Attempt(c)), c + 1)
  {
    ClaimFits(cfg, start, s.leases, c);
    AttemptAdmitted(cfg, s, c);
    EnteredHolds(s.calls, c, start + cfg.lease);
  }

  lemma EnteredHolds(waiting: map<Call, Phase>, c: Call, end: real)
    requires Entered(waiting, c, end)
    ensures CallsFilled(waiting[c := Holding(end)], c + 1, end)
  {
    assert c in UpTo(c + 1);
    assert waiting[c := Holding(end)].Keys == waiting.Keys;
  }

  lemma CallEnters(calls: map<Call, Phase>, c: Call, end: real)
    requires CallsFilled(calls, c, end)
    ensures c !in calls && Entered(calls[c := Waiting], c, end)
  {
    assert UpTo(c + 1) == UpTo(c) + {c};
  }

  lemma FillStep(cfg: Config, start: real, s: State, c: Call)
    requires HasCalls(cfg) && cfg.lease > 0.0 && c < cfg.limit && Filled(cfg, start, s, c)
    ensures Enabled(cfg, s, EnterShared(c))
    ensures Enabled(cfg, Apply(cfg, s, EnterShared(c)), Attempt(c))
    ensures Filled(cfg, start, Apply(cfg, Apply(cfg, s, EnterShared(c)), Attempt(c)), c + 1)
  {
    FillEnters(cfg, start, s, c);
    CallEnters(s.calls, c, start + cfg.lease);
    FillAdmits(cfg, start, Apply(cfg, s, EnterShared(c)), c);
  }

  lemma AttemptAdmitted(cfg: Config, s: State, c: Call)
    requires Admits(s.leases, c, s.now, cfg.lease, cfg.limit)
    ensures var after := Apply(cfg, s, Attempt(c));
            && after.now == s.now && after.leases == WithClaim(s.leases, c, s.now, cfg.lease)
            && after.keyEnd == s.now + cfg.life && after.calls == s.calls[c := Holding(s.now + cfg.lease)]
  {
  }

  lemma AttemptHolds(cfg: Config, s: State, c: Call, end: real)
    requires Admits(s.leases, c, s.now, cfg.lease, cfg.limit) && end == s.now + cfg.lease
    ensures Apply(cfg, s, Attempt(c)).now == s.now && Apply(cfg, s, Attempt(c)).calls == s.calls[c := Holding(end)]
  {
  }

  lemma ClaimFits(cfg: Config, start: real, z: Leases, c: Call)
    requires cfg.lease > 0.0 && c < cfg.limit && LeasesFilled(z, c, start + cfg.lease)
    ensures LeasesFilled(WithClaim(z, c, start, cfg.lease), c + 1, start + cfg.lease)
    ensures Admits(z, c, start, cfg.lease, cfg.limit)
  {
    var claimed := WithClaim(z, c, start, cfg.lease);
    assert claimed.Keys == UpTo(c + 1);
    assert |claimed| == |claimed.Keys|;
  }

  /** A full house whose key has just ended. */
  ghost function AfterKeyEnd(cfg: Config, s: State): State {
    State(s.now + cfg.life, map[], s.keyEnd, s.calls)
  }

  lemma KeyEnds(cfg: Config, start: real, s: State)
    requires cfg.limit > 0 && 0.0 <= cfg.life && Filled(cfg, start, s, cfg.limit)
    ensures Enabled(cfg, s, Tick(cfg.life))
    ensures Enabled(cfg, Apply(cfg, s, Tick(cfg.life)), KeyExpires)
    ensures Apply(cfg, Apply(cfg, s, Tick(cfg.life)), KeyExpires) == AfterKeyEnd(cfg, s)
  {
    assert (cfg.limit - 1) as nat in s.leases;
  }

  /** `n` calls that hold a slot until then, and one more. */
  ghost predicate Crowd(calls: map<Call, Phase>, n: Call, until: real, end: real) {
    calls.Keys == UpTo(n + 1) && forall c :: c in calls ==> calls[c] == Holding(if c == n then end else until)
  }

  lemma HoldCrowds(calls: map<Call, Phase>, held: map<Call, Phase>, n: Call, until: real, end: real)
    requires Entered(calls, n, until) && held == calls[n := Holding(end)]
    ensures Crowd(held, n, until, end)
  {
    assert n in UpTo(n + 1);
    assert held.Keys == calls.Keys;
  }

  lemma EmptyAdmits(n: Call, now: real, lease: real, limit: nat)
    requires limit > 0
    ensures Admits(map[], n, now, lease, limit)
  {
    assert WithClaim(map[], n, now, lease) == map[n := now + lease];
  }

  /** One call more, when the set is empty. */
  lemma OneMore(cfg: Config, entered: State, n: Call, until: real, end: real)
    requires end == entered.now + cfg.lease && cfg.limit > 0 && entered.leases == map[]
    requires Entered(entered.calls, n, until)
    ensures var after := Apply(cfg, entered, Attempt(n));
            after.now == entered.now && Crowd(after.calls, n, until, end)
  {
    EmptyAdmits(n, entered.now, cfg.lease, cfg.limit);
    AttemptHolds(cfg, entered, n, end);
    HoldCrowds(entered.calls, Apply(cfg, entered, Attempt(n)).calls, n, until, end);
  }

  lemma CrowdIsLive(s: State, n: Call, until: real, end: real)
    requires Crowd(s.calls, n, until, end) && s.now < until && s.now < end
    ensures |LiveHolders(s)| == n + 1
  {
    assert LiveHolders(s) == UpTo(n + 1);
  }

  /** When the key's whole life is shorter than the lease, a full house can be joined by one
      call more: the key goes while every lease in it still runs. */
  lemma BrokenMillisecondOverAdmits(cfg: Config, start: real) returns (r: Run)
    requires HasCalls(cfg) && Derived(cfg) && cfg.limit > 0 && !KeyCoversLease(cfg)
    ensures IsRun(cfg, r) && |LiveHolders(Exec(cfg, r))| == cfg.limit + 1
  {
    KeyCoversIffWholeMillis(cfg);
    KeyLifeIs(cfg.lease);
    r := OverfillRun(cfg, start);
  }

  ghost function Ended(cfg: Config, start: real): Run {
    Then(Then(Fill(start, cfg.limit), Tick(cfg.life)), KeyExpires)
  }

  lemma EndedRun(cfg: Config, start: real) returns (full: State)
    requires HasCalls(cfg) && cfg.limit > 0 && 0.0 <= cfg.life < cfg.lease
    ensures Filled(cfg, start, full, cfg.limit)
    ensures IsRun(cfg, Ended(cfg, start)) && Exec(cfg, Ended(cfg, start)) == AfterKeyEnd(cfg, full)
  {
    var filled := Fill(start, cfg.limit);
    FillRuns(cfg, start, cfg.limit);
    full := Exec(cfg, filled);
    KeyEnds(cfg, start, full);
    assert IsRun(cfg, Then(filled, Tick(cfg.life)));
  }

  lemma ThenTwo(cfg: Config, r: Run, a: Event, b: Event)
    requires IsRun(cfg, r) && Enabled(cfg, Exec(cfg, r), a) && Enabled(cfg, Apply(cfg, Exec(cfg, r), a), b)
    ensures IsRun(cfg, Then(Then(r, a), b))
    ensures Exec(cfg, Then(Then(r, a), b)) == Apply(cfg, Apply(cfg, Exec(cfg, r), a), b)
  {
    assert IsRun(cfg, Then(r, a));
  }

  /** Every slot is held, and the key has gone before the leases end. */
  ghost predicate Orphaned(cfg: Config, s: State, until: real) {
    s.leases == map[] && CallsFilled(s.calls, cfg.limit, until) && s.now < until
  }

  lemma EndedIsOrphaned(cfg: Config, start: real)
    requires HasCalls(cfg) && cfg.limit > 0 && 0.0 <= cfg.life < cfg.lease
    ensures IsRun(cfg, Ended(cfg, start)) && Orphaned(cfg, Exec(cfg, Ended(cfg, start)), start + cfg.lease)
  {
    var full := EndedRun(cfg, start);
  }

  lemma OneMoreEnters(cfg: Config, s: State, n: Call, until: real) returns (entered: State)
    requires n in cfg.home && cfg.home[n] in cfg.workers && n == cfg.limit && Orphaned(cfg, s, until)
    ensures Enabled(cfg, s, EnterShared(n)) && entered == Apply(cfg, s, EnterShared(n))
    ensures entered.leases == map[] && entered.now == s.now && Entered(entered.calls, n, until)
    ensures Enabled(cfg, entered, Attempt(n))
  {
    CallEnters(s.calls, n, until);
    entered := Apply(cfg, s, EnterShared(n));
  }

  lemma OneMoreCrowds(cfg: Config, s: State, n: Call, until: real)
    requires n in cfg.home && cfg.home[n] in cfg.workers && cfg.limit > 0 && cfg.lease > 0.0
    requires n == cfg.limit && Orphaned(cfg, s, until)
    ensures Enabled(cfg, s, EnterShared(n)) && Enabled(cfg, Apply(cfg, s, EnterShared(n)), Attempt(n))
    ensures |LiveHolders(Apply(cfg, Apply(cfg, s, EnterShared(n)), Attempt(n)))| == n + 1
  {
    var entered := OneMoreEnters(cfg, s, n, until);
    var end := entered.now + cfg.lease;
    OneMore(cfg, entered, n, until, end);
    CrowdIsLive(Apply(cfg, entered, Attempt(n)), n, until, end);
  }

  lemma OverfillRun(cfg: Config, start: real) returns (r: Run)
    requires HasCalls(cfg) && cfg.limit > 0 && 0.0 <= cfg.life < cfg.lease
    ensures IsRun(cfg, r) && |LiveHolders(Exec(cfg, r))| == cfg.limit + 1
  {
    var ended, n := Ended(cfg, start), cfg.limit;
    EndedIsOrphaned(cfg, start);
    OneMoreCrowds(cfg, Exec(cfg, ended), n, start + cfg.lease);
    ThenTwo(cfg, ended, EnterShared(n), Attempt(n));
    r := Then(Then(ended, EnterShared(n)), Attempt(n));
  }

  ghost predicate CeilingAlwaysHolds(cfg: Config) {
    forall r: Run :: IsRun(cfg, r) ==> |LiveHolders(Exec(cfg, r))| <= cfg.limit
  }

  lemma {:induction false} NoSlotsNoHolders(cfg: Config, r: Run)
    requires IsRun(cfg, r) && cfg.limit == 0
    ensures LiveHolders(Exec(cfg, r)) == {}
  {
    if r.Then? {
      NoSlotsNoHolders(cfg, r.before);
      var s, e := Exec(cfg, r.before), r.event;
      if e.Attempt? {
        assert e.call in WithClaim(s.leases, e.call, s.now, cfg.lease).Keys;
        assert !Admits(s.leases, e.call, s.now, cfg.lease, 0);
      }
      assert LiveHolders(Apply(cfg, s, e)) <= LiveHolders(s);
    }
  }

  /** The ceiling holds in every run exactly when there is nothing to hold or the lease is a
      whole number of milliseconds. */
  lemma CeilingIffWholeMillis(cfg: Config)
    requires HasCalls(cfg) && Derived(cfg)
    ensures CeilingAlwaysHolds(cfg) <==> cfg.limit == 0 || cfg.lease < 0.0 || WholeMillis(cfg.lease)
  {
    KeyCoversIffWholeMillis(cfg);
    if KeyCoversLease(cfg) {
      forall r: Run | IsRun(cfg, r)
        ensures |LiveHolders(Exec(cfg, r))| <= cfg.limit
      {
        SharedCeiling(cfg, r);
      }
    } else if cfg.limit == 0 {
      forall r: Run | IsRun(cfg, r)
        ensures |LiveHolders(Exec(cfg, r))| <= cfg.limit
      {
        NoSlotsNoHolders(cfg, r);
      }
    } else {
      var r := BrokenMillisecondOverAdmits(cfg, 0.0);
    }
  }
}
