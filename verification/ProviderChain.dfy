/** Failover along an ordered chain of AI providers. */
module ProviderChain {
  import opened Names
  import opened ProviderRetry
  import B = CircuitBreaker
  import M = AiMetrics

  /** `known` says whether the adapter is registered. */
  datatype Provider = Provider(name: string, adapter: string, known: bool, script: Script)

  function Label(cfg: Provider): string {
    if cfg.name != "" then cfg.name else cfg.adapter
  }

  function Bucket(cfg: Provider): string {
    M.BucketName(Label(cfg), cfg.adapter)
  }

  /** A provider goes by its name, or by its adapter when it has none, before the breaker and in
      the metrics alike; only the metrics have a word for one with neither. */
  lemma KnownBy(cfg: Provider)
    ensures cfg.name != "" ==> Label(cfg) == Bucket(cfg) == cfg.name
    ensures cfg.name == "" && cfg.adapter != "" ==> Label(cfg) == Bucket(cfg) == cfg.adapter
    ensures cfg.name == "" && cfg.adapter == "" ==> Label(cfg) == "" && Bucket(cfg) == "unknown"
  {
  }

  /** `parse` is none where parsing fails; `asked` and `ended` are the clock readings
      before and after each provider of the chain. */
  datatype Env = Env(
    breaker: B.Setup, policy: Policy, chain: seq<Provider>, parse: string -> Option<string>,
    asked: nat -> real, ended: nat -> real)

  /** What one provider that was let through came to, with the attempts really made. */
  datatype Result =
    | Won(value: string, attempts: nat, rateLimited: bool)
    | Exhausted(attempts: nat, rateLimited: bool)   // transient to the end
    | Unusable(attempts: nat)                       // refused, unknown, or not parsed

  ghost function ResultOf(env: Env, cfg: Provider): Result {
    if !cfg.known then Unusable(0)
    else
      var n := Last(env.policy, cfg.script);
      match cfg.script.replies(n)
      case Text(text) =>
        if env.parse(text).None? then Unusable(n + 1)
        else Won(env.parse(text).value, n + 1, SawRateLimit(cfg.script, n + 1))
      case Transient(_, _) => Exhausted(n + 1, SawRateLimit(cfg.script, n + 1))
      case Recoverable => Unusable(n + 1)
  }

  // What is reported of a result.

  function ReportOf(r: Result): M.Report {
    match r
    case Won(_, attempts, rateLimited) => M.Report(M.Success, attempts, rateLimited)
    case Exhausted(attempts, rateLimited) => M.Report(M.Failover, attempts, rateLimited)
    case Unusable(_) => M.Report(M.Failover, 1, false)
  }

  function EventOf(r: Result, at: real): B.Event {
    if r.Won? then B.Success(at) else B.Failure(at, r.Exhausted?)
  }

  /** What the breaker hears of a provider that was let through: a success when its last reply is
      parsed, and else a failure, which is transient exactly when its last reply was. */
  lemma BreakerHears(env: Env, cfg: Provider, at: real)
    ensures var reply := cfg.script.replies(Last(env.policy, cfg.script));
            EventOf(ResultOf(env, cfg), at) ==
            if cfg.known && reply.Text? && env.parse(reply.text).Some? then B.Success(at)
            else B.Failure(at, cfg.known && reply.Transient?)
  {
  }

  // --- Turn by turn ---

  type Entries = map<string, B.Entry>

  function EntryOf(es: Entries, name: string): B.Entry {
    if name in es then es[name] else B.FRESH
  }

  /** The breaker's entry for the i-th provider after it has been skipped or tried. */
  ghost function NextEntry(env: Env, e: B.Entry, i: nat): B.Entry
    requires i < |env.chain|
  {
    var asked := B.Asked(e, env.asked(i));
    if B.Grants(e, env.asked(i)) then B.After(env.breaker, asked, EventOf(ResultOf(env, env.chain[i]), env.ended(i)))
    else asked
  }

  /** The breaker once the first n providers have had their turn. */
  ghost function EntriesAt(env: Env, es: Entries, n: nat): Entries
    requires n <= |env.chain|
  {
    if n == 0 then es
    else
      var before, name := EntriesAt(env, es, n - 1), Label(env.chain[n - 1]);
      before[name := NextEntry(env, EntryOf(before, name), n - 1)]
  }

  /** The i-th provider is let through when its turn comes. */
  ghost predicate Tried(env: Env, es: Entries, i: nat)
    requires i < |env.chain|
  {
    B.Grants(EntryOf(EntriesAt(env, es, i), Label(env.chain[i])), env.asked(i))
  }

  ghost predicate Wins(env: Env, es: Entries, i: nat)
    requires i < |env.chain|
  {
    Tried(env, es, i) && ResultOf(env, env.chain[i]).Won?
  }

  ghost predicate NoneWins(env: Env, es: Entries, n: nat)
    requires n <= |env.chain|
  {
    forall i :: 0 <= i < n ==> !Wins(env, es, i)
  }

  /** What is reported of the i-th turn. */
  ghost function ReportAt(env: Env, es: Entries, i: nat): (r: M.Report)
    requires i < |env.chain|
    ensures r.outcome.Skipped? <==> !Tried(env, es, i)
    ensures r.outcome.Success? <==> Wins(env, es, i)
  {
    if Tried(env, es, i) then ReportOf(ResultOf(env, env.chain[i])) else M.SKIP
  }

  ghost function LineAt(env: Env, es: Entries, i: nat): M.Line
    requires i < |env.chain|
  {
    M.Line(Bucket(env.chain[i]), ReportAt(env, es, i))
  }

  ghost function Lines(env: Env, es: Entries, n: nat): (r: seq<M.Line>)
    requires n <= |env.chain|
    ensures |r| == n && forall i :: 0 <= i < n ==> r[i] == LineAt(env, es, i)
  {
    seq(n, i requires 0 <= i < n => LineAt(env, es, i))
  }

  /** The metrics once the first n providers have had their turn. */
  ghost function StatsAt(env: Env, es: Entries, stats: M.Stats, n: nat): M.Stats
    requires n <= |env.chain|
  {
    M.RecordedAll(stats, Lines(env, es, n))
  }

  // --- Every provider let through reports exactly once ---

  /** What can be counted of a provider's turn: that it was tried, or passed over, that it
      answered or gave up, the retries it made and the rate limits it hit, and those of them
      that are reported. */
  datatype Count = Tries | Passes | Answers | GiveUps | RetriesMade | RetriesKept | LimitsHit | LimitsKept

  /** It ends by refusing, or by an answer that is not parsed. */
  ghost predicate EndsBadly(env: Env, cfg: Provider) {
    cfg.known &&
    match cfg.script.replies(Last(env.policy, cfg.script))
    case Text(text) => env.parse(text).None?
    case Transient(_, _) => false
    case Recoverable => true
  }

  /** The retries really made. */
  ghost function RetriesOf(env: Env, cfg: Provider): nat {
    if cfg.known then Last(env.policy, cfg.script) else 0
  }

  ghost predicate WasLimited(env: Env, cfg: Provider) {
    cfg.known && SawRateLimit(cfg.script, Last(env.policy, cfg.script) + 1)
  }

  ghost function CountOf(env: Env, cfg: Provider, count: Count): nat {
    match count
    case Tries => 1
    case Passes => 0
    case Answers => if ResultOf(env, cfg).Won? then 1 else 0
    case GiveUps => if ResultOf(env, cfg).Won? then 0 else 1
    case RetriesMade => RetriesOf(env, cfg)
    case RetriesKept => if EndsBadly(env, cfg) then 0 else RetriesOf(env, cfg)
    case LimitsHit => if WasLimited(env, cfg) then 1 else 0
    case LimitsKept => if WasLimited(env, cfg) && !EndsBadly(env, cfg) then 1 else 0
  }

  ghost function TurnCount(env: Env, es: Entries, key: string, count: Count, i: nat): nat
    requires i < |env.chain|
  {
    if Bucket(env.chain[i]) != key then 0
    else if Tried(env, es, i) then CountOf(env, env.chain[i], count)
    else if count == Passes then 1 else 0
  }

  ghost function Turns(env: Env, es: Entries, key: string, count: Count, n: nat): (r: seq<nat>)
    requires n <= |env.chain|
    ensures |r| == n && forall i :: 0 <= i < n ==> r[i] == TurnCount(env, es, key, count, i)
  {
    seq(n, i requires 0 <= i < n => TurnCount(env, es, key, count, i))
  }

  /** How often that happened under a bucket's name in the first n turns. */
  ghost function TallyIn(env: Env, es: Entries, key: string, count: Count, n: nat): nat
    requires n <= |env.chain|
  {
    M.Sum(Turns(env, es, key, count, n))
  }

  /** What a field of the metrics is to count. */
  function Counts(f: M.Field): Count {
    match f
    case Calls => Tries
    case Successes => Answers
    case Failovers => GiveUps
    case Retries => RetriesKept
    case RateLimited => LimitsKept
    case Skips => Passes
  }

  lemma ResultIs(env: Env, cfg: Provider)
    ensures var r := ResultOf(env, cfg);
            && (r.Unusable? <==> !cfg.known || EndsBadly(env, cfg))
            && r.attempts == (if cfg.known then RetriesOf(env, cfg) + 1 else 0)
            && (!r.Unusable? ==> (r.rateLimited <==> WasLimited(env, cfg)))
  {
  }

  /** What the report of a result adds to its bucket. */
  function ReportedOf(r: Result, f: M.Field): nat {
    match f
    case Calls => 1
    case Successes => if r.Won? then 1 else 0
    case Failovers => if r.Won? then 0 else 1
    case Retries => if r.Unusable? then 0 else M.Extra(r.attempts)
    case RateLimited => if !r.Unusable? && r.rateLimited then 1 else 0
    case Skips => 0
  }

  lemma ResultMoves(r: Result, f: M.Field)
    ensures M.Adds(ReportOf(r), f) == ReportedOf(r, f)
  {
  }

  lemma ReportedIs(env: Env, cfg: Provider, f: M.Field)
    ensures ReportedOf(ResultOf(env, cfg), f) == CountOf(env, cfg, Counts(f))
  {
    ResultIs(env, cfg);
    match f {
      case Calls =>
      case Successes =>
      case Failovers =>
      case Retries =>
      case RateLimited =>
      case Skips =>
    }
  }

  lemma TurnMoves(env: Env, es: Entries, key: string, f: M.Field, i: nat)
    requires i < |env.chain|
    ensures M.Move(LineAt(env, es, i), key, f) == TurnCount(env, es, key, Counts(f), i)
  {
    ResultMoves(ResultOf(env, env.chain[i]), f);
    ReportedIs(env, env.chain[i], f);
  }

  /** Every counter of every bucket moves by exactly what happened under its name, except that
      of a provider that ends badly no retries and no rate limit are counted. */
  lemma MetricsCountOnce(env: Env, es: Entries, stats: M.Stats, key: string, f: M.Field, n: nat)
    requires n <= |env.chain|
    ensures M.Get(M.BucketOf(StatsAt(env, es, stats, n), key), f) ==
            M.Get(M.BucketOf(stats, key), f) + TallyIn(env, es, key, Counts(f), n)
  {
    M.RecordedSums(stats, Lines(env, es, n), key, f);
    MovesAreTurns(env, es, key, f, n);
  }

  lemma MovesAreTurns(env: Env, es: Entries, key: string, f: M.Field, n: nat)
    requires n <= |env.chain|
    ensures M.Moves(Lines(env, es, n), key, f) == Turns(env, es, key, Counts(f), n)
  {
    forall i | 0 <= i < n
      ensures M.Moves(Lines(env, es, n), key, f)[i] == Turns(env, es, key, Counts(f), n)[i]
    {
      TurnMoves(env, es, key, f, i);
    }
  }

  lemma ChainBalanced(env: Env, es: Entries, stats: M.Stats, n: nat)
    requires n <= |env.chain| && M.Balanced(stats)
    ensures M.Balanced(StatsAt(env, es, stats, n))
  {
    M.RecordedAllBalanced(stats, Lines(env, es, n));
  }

  /** What the chain adds to the history of one provider's breaker: a request for each of its
      turns, and one result for each that was let through. */
  ghost function History(env: Env, es: Entries, name: string, r: B.Run, n: nat): B.Run
    requires n <= |env.chain|
  {
    if n == 0 then r
    else
      var before, i := History(env, es, name, r, n - 1), n - 1;
      if Label(env.chain[i]) != name then before
      else
        var asked := B.Then(before, B.Ask(env.asked(i)));
        if Tried(env, es, i) then B.Then(asked, EventOf(ResultOf(env, env.chain[i]), env.ended(i))) else asked
  }

  lemma {:induction false} BreakerHearsOnce(env: Env, es: Entries, name: string, r: B.Run, n: nat)
    requires n <= |env.chain| && EntryOf(es, name) == B.Exec(env.breaker, r)
    ensures EntryOf(EntriesAt(env, es, n), name) == B.Exec(env.breaker, History(env, es, name, r, n))
  {
    if n > 0 { BreakerHearsOnce(env, es, name, r, n - 1); }
  }

  // --- Retries counted and not counted ---

  /** A turn that some retry or rate limit of is lost. */
  ghost predicate Loses(env: Env, es: Entries, key: string, made: Count, i: nat)
    requires i < |env.chain|
  {
    && Bucket(env.chain[i]) == key && Tried(env, es, i)
    && CountOf(env, env.chain[i], made) >= 1 && EndsBadly(env, env.chain[i])
  }

  ghost predicate NoneLoses(env: Env, es: Entries, key: string, made: Count, n: nat)
    requires n <= |env.chain|
  {
    forall i :: 0 <= i < n ==> !Loses(env, es, key, made, i)
  }

  predicate IsKept(made: Count, kept: Count) {
    (made == RetriesMade && kept == RetriesKept) || (made == LimitsHit && kept == LimitsKept)
  }

  lemma TurnLoses(env: Env, es: Entries, key: string, made: Count, kept: Count, i: nat)
    requires i < |env.chain| && IsKept(made, kept)
    ensures TurnCount(env, es, key, kept, i) <= TurnCount(env, es, key, made, i)
    ensures Loses(env, es, key, made, i) <==> TurnCount(env, es, key, kept, i) != TurnCount(env, es, key, made, i)
  {
  }

  lemma KeptIff(env: Env, es: Entries, key: string, made: Count, kept: Count, n: nat)
    requires n <= |env.chain| && IsKept(made, kept)
    ensures TallyIn(env, es, key, kept, n) == TallyIn(env, es, key, made, n) <==> NoneLoses(env, es, key, made, n)
  {
    var ks, ms := Turns(env, es, key, kept, n), Turns(env, es, key, made, n);
    forall i | 0 <= i < n
      ensures ks[i] <= ms[i] && (Loses(env, es, key, made, i) <==> ks[i] != ms[i])
    {
      TurnLoses(env, es, key, made, kept, i);
    }
    M.SumsEqualIff(ks, ms);
    assert ks == ms <==> forall i :: 0 <= i < n ==> ks[i] == ms[i];
  }

  predicate IsReported(f: M.Field, made: Count) {
    (f == M.Retries && made == RetriesMade) || (f == M.RateLimited && made == LimitsHit)
  }

  /** A bucket's `retries` and `rate_limited` grow by what was really made and hit under its
      name exactly when no provider of it that had any ends badly. */
  lemma RetriesCountedIff(env: Env, es: Entries, stats: M.Stats, key: string, f: M.Field, made: Count, n: nat)
    requires n <= |env.chain| && IsReported(f, made)
    ensures var before := M.Get(M.BucketOf(stats, key), f);
            var after := M.Get(M.BucketOf(StatsAt(env, es, stats, n), key), f);
            after == before + TallyIn(env, es, key, made, n) <==> NoneLoses(env, es, key, made, n)
  {
    MetricsCountOnce(env, es, stats, key, f, n);
    KeptIff(env, es, key, made, Counts(f), n);
  }

  /** One retry after a rate limit, then an answer that is not parsed: a chain that tries this
      provider alone leaves both counters as they were. */
  lemma RetryNotCounted(env: Env, es: Entries, stats: M.Stats, hint: Option<real>, text: string)
    requires |env.chain| == 1 && env.chain[0].known && Tried(env, es, 0)
    requires env.policy.maxAttempts >= 2 && env.parse(text).None?
    requires env.chain[0].script.replies(0) == Transient(hint, true) && env.chain[0].script.replies(1) == Text(text)
    requires hint.Some? ==> hint.value <= env.policy.retryAfterCap
    ensures var key := Bucket(env.chain[0]);
            var before, after := M.BucketOf(stats, key), M.BucketOf(StatsAt(env, es, stats, 1), key);
            && TallyIn(env, es, key, RetriesMade, 1) == TallyIn(env, es, key, LimitsHit, 1) == 1
            && after.retries == before.retries && after.rateLimited == before.rateLimited
  {
    var cfg := env.chain[0];
    LostRetry(env, cfg, hint, text);
    TallyOne(env, es, RetriesMade);
    TallyOne(env, es, RetriesKept);
    TallyOne(env, es, LimitsHit);
    TallyOne(env, es, LimitsKept);
    MetricsCountOnce(env, es, stats, Bucket(cfg), M.Retries, 1);
    MetricsCountOnce(env, es, stats, Bucket(cfg), M.RateLimited, 1);
  }

  lemma LostRetry(env: Env, cfg: Provider, hint: Option<real>, text: string)
    requires cfg.known && env.policy.maxAttempts >= 2 && env.parse(text).None?
    requires cfg.script.replies(0) == Transient(hint, true) && cfg.script.replies(1) == Text(text)
    requires hint.Some? ==> hint.value <= env.policy.retryAfterCap
    ensures CountOf(env, cfg, RetriesMade) == CountOf(env, cfg, LimitsHit) == 1
    ensures CountOf(env, cfg, RetriesKept) == CountOf(env, cfg, LimitsKept) == 0
  {
    assert Retried(env.policy, cfg.script, 0);
    assert EndsAt(env.policy, cfg.script, 1);
    LastIff(env.policy, cfg.script, 1);
    assert cfg.script.replies(0).rateLimited;
    assert SawRateLimit(cfg.script, 2);
  }

  lemma TallyOne(env: Env, es: Entries, count: Count)
    requires |env.chain| == 1 && Tried(env, es, 0)
    ensures TallyIn(env, es, Bucket(env.chain[0]), count, 1) == CountOf(env, env.chain[0], count)
  {
    var turns := Turns(env, es, Bucket(env.chain[0]), count, 1);
    assert turns[..0] == [] && turns[0] == TurnCount(env, es, Bucket(env.chain[0]), count, 0);
    assert M.Sum(turns) == M.Sum(turns[..0]) + turns[0];
  }

  // --- The chain itself ---

  method TryProvider(env: Env, cfg: Provider) returns (r: Result)
    ensures r == ResultOf(env, cfg)
    ensures r.attempts <= 1 || r.attempts <= env.policy.maxAttempts
  {
    if !cfg.known { return Unusable(0); }
    var reply, attempts, rateLimited, slept := GenerateWithRetries(env.policy, cfg.script);
    LastIff(env.policy, cfg.script, attempts - 1);
    match reply
    case Text(text) =>
      var value := env.parse(text);
      if value == None { return Unusable(attempts); }
      return Won(value.value, attempts, rateLimited);
    case Transient(_, _) => return Exhausted(attempts, rateLimited);
    case Recoverable => return Unusable(attempts);
  }

  lemma PutTwice<K, V>(m: map<K, V>, k: K, a: V, b: V)
    ensures m[k := a][k := b] == m[k := b]
  {
  }

  method TakeTurn(env: Env, i: nat, breaker: B.Breaker, metrics: M.Metrics) returns (won: Option<string>)
    requires i < |env.chain| && breaker.setup == env.breaker
    modifies breaker, metrics
    ensures var cfg := env.chain[i];
            var e, r := EntryOf(old(breaker.state), Label(cfg)), ResultOf(env, cfg);
            var granted := B.Grants(e, env.asked(i));
            && breaker.state == old(breaker.state)[Label(cfg) := NextEntry(env, e, i)]
            && metrics.stats == M.Recorded(old(metrics.stats), Bucket(cfg), if granted then ReportOf(r) else M.SKIP)
            && won == if granted && r.Won? then Some(r.value) else None
  {
    var cfg := env.chain[i];
    var name := Label(cfg);
    ghost var es, e := breaker.state, EntryOf(breaker.state, name);
    PutTwice(es, name, B.Asked(e, env.asked(i)), NextEntry(env, e, i));
    var granted := breaker.Allow(name, env.asked(i));
    if !granted {
      metrics.Record(name, cfg.adapter, M.SKIP);
      return None;
    }
    var r := TryProvider(env, cfg);
    metrics.Record(name, cfg.adapter, ReportOf(r));
    if r.Won? {
      breaker.RecordSuccess(name);
      return Some(r.value);
    }
    breaker.RecordFailure(name, r.Exhausted?, env.ended(i));
    return None;
  }

  lemma EntriesAfter(env: Env, es: Entries, i: nat)
    requires i < |env.chain|
    ensures var before, name := EntriesAt(env, es, i), Label(env.chain[i]);
            EntriesAt(env, es, i + 1) == before[name := NextEntry(env, EntryOf(before, name), i)]
  {
  }

  lemma StatsAfter(env: Env, es: Entries, stats: M.Stats, i: nat)
    requires i < |env.chain|
    ensures StatsAt(env, es, stats, i + 1) ==
            M.Recorded(StatsAt(env, es, stats, i), Bucket(env.chain[i]), ReportAt(env, es, i))
  {
    assert Lines(env, es, i + 1) == Lines(env, es, i) + [LineAt(env, es, i)];
    M.RecordedAllAppend(stats, Lines(env, es, i), LineAt(env, es, i));
  }

  lemma NoneWinsAfter(env: Env, es: Entries, i: nat)
    requires i < |env.chain| && NoneWins(env, es, i) && !Wins(env, es, i)
    ensures NoneWins(env, es, i + 1)
  {
  }

  /** The answer is that of the first provider in order that the breaker lets through and
      that succeeds; those after it are not touched. */
  method GenerateWithChain(env: Env, breaker: B.Breaker, metrics: M.Metrics)
    returns (answer: Option<(string, string)>, turns: nat)
    requires breaker.setup == env.breaker
    modifies breaker, metrics
    ensures turns <= |env.chain|
    ensures breaker.state == EntriesAt(env, old(breaker.state), turns)
    ensures metrics.stats == StatsAt(env, old(breaker.state), old(metrics.stats), turns)
    ensures answer.None? ==> turns == |env.chain| && NoneWins(env, old(breaker.state), turns)
    ensures answer.Some? ==>
              && turns > 0 && NoneWins(env, old(breaker.state), turns - 1) && Wins(env, old(breaker.state), turns - 1)
              && answer.value == (ResultOf(env, env.chain[turns - 1]).value, Label(env.chain[turns - 1]))
  {
    ghost var es := breaker.state;
    turns := 0;
    while turns < |env.chain|
      invariant turns <= |env.chain|
      invariant breaker.state == EntriesAt(env, es, turns)
      invariant metrics.stats == StatsAt(env, es, old(metrics.stats), turns)
      invariant NoneWins(env, es, turns)
    {
      EntriesAfter(env, es, turns);
      StatsAfter(env, es, old(metrics.stats), turns);
      var won := TakeTurn(env, turns, breaker, metrics);
      if won == None { NoneWinsAfter(env, es, turns); }
      turns := turns + 1;
      if won.Some? { return Some((won.value, Label(env.chain[turns - 1]))), turns; }
    }
    return None, turns;
  }
}
