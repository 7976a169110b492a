/** The store of prepared contexts: each section it runs under its lock, and every
    interleaving of those sections by callers of `get_context_ex`. */
module ContextStore {
  import opened Names
  import opened ContextKeys

  datatype Schema = Schema(tables: seq<(string, seq<string>)>)

  datatype Pool = Pool(config: DbConfig, serial: nat)

  /** `config` is the connection the context was prepared for; `types` is the schema its
      column types and keys were read with, if they could be read. */
  datatype Context = Context(
    key: string, schema: Schema, schemaHash: string, config: DbConfig, types: Option<Schema>, pool: Pool)

  datatype Cached = Cached(schema: Schema, storedAt: real)

  datatype Maps = Maps(contexts: map<string, Context>, cached: map<string, Cached>, pools: map<string, Pool>)

  /** What reading the schema brings; the rich half is best effort. */
  datatype Reading = Reading(schema: Schema, types: Option<Schema>)

  /** The plain schema is taken from the rich one when there is one. */
  predicate Consistent(r: Reading) {
    r.types.Some? ==> r.types.value == r.schema
  }

  ghost predicate GoodHash(hash: Schema -> string) {
    (forall s :: BarFree(hash(s))) && (forall s, t :: hash(s) == hash(t) ==> s == t)
  }

  // --- The sections under the lock ---

  function WithPool(m: Maps, c: DbConfig, renew: bool, serial: nat): Maps {
    if !renew && DbKey(c) in m.pools then m else m.(pools := m.pools[DbKey(c) := Pool(c, serial)])
  }

  predicate Hit(cached: map<string, Cached>, c: DbConfig, now: real, ttl: real) {
    ttl > 0.0 && DbKey(c) in cached && now - cached[DbKey(c)].storedAt < ttl
  }

  function Stored(cached: map<string, Cached>, c: DbConfig, schema: Schema, now: real, ttl: real): map<string, Cached> {
    if ttl > 0.0 then cached[DbKey(c) := Cached(schema, now)] else cached
  }

  function Put(m: Maps, key: string, ctx: Context): Maps {
    m.(contexts := m.contexts[key := ctx])
  }

  function Dropped(m: Maps, dbKey: string): Maps {
    Maps(map k | k in m.contexts && !Matches(dbKey, k) :: m.contexts[k], m.cached - {dbKey}, m.pools - {dbKey})
  }

  /** The build: the rich half is read again when the schema came without it. */
  function Prepared(hash: Schema -> string, c: DbConfig, r: Reading, reread: Option<Schema>, pool: Pool): Context {
    Context(CtxKey(c, hash(r.schema)), r.schema, hash(r.schema), c, if r.types.Some? then r.types else reread, pool)
  }

  // --- Callers interleaved ---

  type Call = string

  datatype Request = Request(config: DbConfig, rebuild: bool, pool: Pool)

  datatype Phase =
    | Pooled(req: Request)
    | Missed(req: Request)                      // nothing fresh cached, its read running
    | Resolved(req: Request, got: Reading)
    | Building(req: Request, got: Reading)
    | Ready(req: Request, got: Reading, ctx: Context)
    | Returned(req: Request, got: Reading, ctx: Context, built: bool)
    | Raised

  datatype State = State(now: real, maps: Maps, calls: map<Call, Phase>)

  datatype Event =
    | Enter(call: Call, config: DbConfig, rebuild: bool, serial: nat)
    | CacheHit(call: Call)
    | CacheMiss(call: Call)
    | Read(call: Call, reading: Reading)
    | ReadFails(call: Call)
    | Look(call: Call)
    | Build(call: Call, reread: Option<Schema>)
    | Install(call: Call)
    | Invalidate(config: DbConfig)
    | Message(text: string)
    | Tick(elapsed: real)

  /** The hash the store uses and how long it keeps a schema. */
  datatype Setup = Setup(hash: Schema -> string, ttl: real)

  predicate Enabled(u: Setup, s: State, e: Event) {
    match e
    case Enter(c, config, _, _) => c !in s.calls && Plain(config)
    case CacheHit(c) => c in s.calls && s.calls[c].Pooled? && Hit(s.maps.cached, s.calls[c].req.config, s.now, u.ttl)
    case CacheMiss(c) => c in s.calls && s.calls[c].Pooled? && !Hit(s.maps.cached, s.calls[c].req.config, s.now, u.ttl)
    case Read(c, r) => c in s.calls && s.calls[c].Missed? && Consistent(r)
    case ReadFails(c) => c in s.calls && s.calls[c].Missed?
    case Look(c) => c in s.calls && s.calls[c].Resolved?
    case Build(c, _) => c in s.calls && s.calls[c].Building?
    case Install(c) => c in s.calls && s.calls[c].Ready?
    case Invalidate(config) => Plain(config)
    case Message(_) => true
    case Tick(elapsed) => elapsed >= 0.0
  }

  function Apply(u: Setup, s: State, e: Event): State
    requires Enabled(u, s, e)
  {
    match e
    case Enter(c, config, rebuild, serial) =>
      var m := WithPool(s.maps, config, rebuild, serial);
      State(s.now, m, s.calls[c := Pooled(Request(config, rebuild, m.pools[DbKey(config)]))])
    case CacheHit(c) =>
      var req := s.calls[c].req;
      State(s.now, s.maps, s.calls[c := Resolved(req, Reading(s.maps.cached[DbKey(req.config)].schema, None))])
    case CacheMiss(c) => State(s.now, s.maps, s.calls[c := Missed(s.calls[c].req)])
    case Read(c, r) =>
      var req := s.calls[c].req;
      State(s.now, s.maps.(cached := Stored(s.maps.cached, req.config, r.schema, s.now, u.ttl)),
            s.calls[c := Resolved(req, r)])
    case ReadFails(c) => State(s.now, s.maps, s.calls[c := Raised])
    case Look(c) =>
      var req, got := s.calls[c].req, s.calls[c].got;
      var key := CtxKey(req.config, u.hash(got.schema));
      if key in s.maps.contexts && !req.rebuild then
        var ctx := s.maps.contexts[key].(pool := req.pool);
        State(s.now, Put(s.maps, key, ctx), s.calls[c := Returned(req, got, ctx, false)])
      else
        State(s.now, s.maps, s.calls[c := Building(req, got)])
    case Build(c, reread) =>
      var req, got := s.calls[c].req, s.calls[c].got;
      State(s.now, s.maps, s.calls[c := Ready(req, got, Prepared(u.hash, req.config, got, reread, req.pool))])
    case Install(c) =>
      var p := s.calls[c];
      State(s.now, Put(s.maps, p.ctx.key, p.ctx), s.calls[c := Returned(p.req, p.got, p.ctx, true)])
    case Invalidate(config) => State(s.now, Dropped(s.maps, DbKey(config)), s.calls)
    case Message(text) => State(s.now, if text == "" then s.maps else Dropped(s.maps, text), s.calls)
    case Tick(elapsed) => State(s.now + elapsed, s.maps, s.calls)
  }

  datatype Run = Begin(at: real) | Then(before: Run, event: Event)

  ghost predicate IsRun(u: Setup, r: Run)
    decreases r, 0
  {
    match r
    case Begin(_) => true
    case Then(before, e) => IsRun(u, before) && Enabled(u, Exec(u, before), e)
  }

  ghost function Exec(u: Setup, r: Run): State
    requires IsRun(u, r)
    decreases r, 1
  {
    match r
    case Begin(at) => State(at, Maps(map[], map[], map[]), map[])
    case Then(before, e) => Apply(u, Exec(u, before), e)
  }

  // --- The invariant ---

  /** A context is kept under the key of its own database and schema. */
  ghost predicate Kept(hash: Schema -> string, key: string, ctx: Context) {
    && ctx.key == key == CtxKey(ctx.config, ctx.schemaHash)
    && ctx.schemaHash == hash(ctx.schema)
    && Plain(ctx.config) && ctx.pool.config == ctx.config
  }

  ghost predicate ContextsKept(hash: Schema -> string, m: Maps) {
    forall k :: k in m.contexts ==> Kept(hash, k, m.contexts[k])
  }

  ghost predicate PoolsKept(m: Maps) {
    forall k :: k in m.pools ==> Plain(m.pools[k].config) && DbKey(m.pools[k].config) == k
  }

  ghost predicate MapsOk(hash: Schema -> string, m: Maps) {
    ContextsKept(hash, m) && PoolsKept(m)
  }

  ghost predicate RequestOk(req: Request) {
    Plain(req.config) && req.pool.config == req.config
  }

  /** The context is one for what this call asked and resolved. */
  ghost predicate Answers(hash: Schema -> string, req: Request, got: Reading, ctx: Context) {
    Kept(hash, ctx.key, ctx) && ctx.config == req.config && ctx.schema == got.schema && ctx.pool == req.pool
  }

  ghost predicate PhaseOk(hash: Schema -> string, p: Phase) {
    match p
    case Pooled(req) => RequestOk(req)
    case Missed(req) => RequestOk(req)
    case Resolved(req, got) => RequestOk(req) && Consistent(got)
    case Building(req, got) => RequestOk(req) && Consistent(got)
    case Ready(req, got, ctx) =>
      RequestOk(req) && Consistent(got) && Answers(hash, req, got, ctx) && (got.types.Some? ==> ctx.types == got.types)
    case Returned(req, got, ctx, built) =>
      RequestOk(req) && Consistent(got) && Answers(hash, req, got, ctx) &&
      (built && got.types.Some? ==> ctx.types == got.types)
    case Raised => true
  }

  ghost predicate Inv(hash: Schema -> string, s: State) {
    MapsOk(hash, s.maps) && forall c :: c in s.calls ==> PhaseOk(hash, s.calls[c])
  }

  lemma PoolForConfig(m: Maps, c: DbConfig, renew: bool, serial: nat)
    requires PoolsKept(m) && Plain(c)
    ensures var m' := WithPool(m, c, renew, serial);
            PoolsKept(m') && m'.contexts == m.contexts && DbKey(c) in m'.pools && m'.pools[DbKey(c)].config == c
  {
    if DbKey(c) in m.pools { KeysIdentify(c, m.pools[DbKey(c)].config, "", ""); }
  }

  lemma DroppedKeeps(hash: Schema -> string, m: Maps, dbKey: string)
    requires MapsOk(hash, m)
    ensures MapsOk(hash, Dropped(m, dbKey))
  {
  }

  /** What is found under the key of a database and a schema was built for both. */
  lemma FoundAnswers(hash: Schema -> string, m: Maps, req: Request, got: Reading)
    requires GoodHash(hash) && ContextsKept(hash, m) && RequestOk(req)
    requires CtxKey(req.config, hash(got.schema)) in m.contexts
    ensures var key := CtxKey(req.config, hash(got.schema));
            var ctx := m.contexts[key].(pool := req.pool);
            ctx.key == key && Answers(hash, req, got, ctx)
  {
    var key := CtxKey(req.config, hash(got.schema));
    var found := m.contexts[key];
    assert Kept(hash, key, found);
    assert BarFree(hash(got.schema)) && BarFree(hash(found.schema));
    KeysIdentify(req.config, found.config, hash(got.schema), found.schemaHash);
  }

  lemma PreparedAnswers(hash: Schema -> string, req: Request, got: Reading, reread: Option<Schema>)
    requires RequestOk(req)
    ensures Answers(hash, req, got, Prepared(hash, req.config, got, reread, req.pool))
  {
  }

  lemma LookInv(u: Setup, s: State, c: Call)
    requires GoodHash(u.hash) && Inv(u.hash, s) && Enabled(u, s, Look(c))
    ensures Inv(u.hash, Apply(u, s, Look(c)))
  {
    var req, got := s.calls[c].req, s.calls[c].got;
    assert PhaseOk(u.hash, s.calls[c]);
    if CtxKey(req.config, u.hash(got.schema)) in s.maps.contexts { FoundAnswers(u.hash, s.maps, req, got); }
  }

  lemma StepInv(u: Setup, s: State, e: Event)
    requires GoodHash(u.hash) && Inv(u.hash, s) && Enabled(u, s, e)
    ensures Inv(u.hash, Apply(u, s, e))
  {
    match e
    case Enter(c, config, rebuild, serial) => PoolForConfig(s.maps, config, rebuild, serial);
    case Look(c) => LookInv(u, s, c);
    case Invalidate(config) => DroppedKeeps(u.hash, s.maps, DbKey(config));
    case Message(text) => DroppedKeeps(u.hash, s.maps, text);
    case Tick(_) =>
    case _ => assert PhaseOk(u.hash, s.calls[e.call]);
  }

  lemma {:induction false} RunInv(u: Setup, r: Run)
    requires GoodHash(u.hash) && IsRun(u, r)
    ensures Inv(u.hash, Exec(u, r))
  {
    match r
    case Begin(_) =>
    case Then(before, e) =>
      RunInv(u, before);
      StepInv(u, Exec(u, before), e);
  }

  // --- What holds in every run ---

  /** A call only ever returns a context built for the database it asked about and the
      schema that same call resolved, whatever other calls and invalidations ran. */
  lemma ReturnsResolvedSchema(u: Setup, r: Run, c: Call)
    requires GoodHash(u.hash) && IsRun(u, r)
    requires c in Exec(u, r).calls && Exec(u, r).calls[c].Returned?
    ensures var p := Exec(u, r).calls[c];
            p.ctx.schema == p.got.schema && p.ctx.config == p.req.config && p.ctx.pool == p.req.pool &&
            p.ctx.key == CtxKey(p.req.config, u.hash(p.got.schema))
    ensures var p := Exec(u, r).calls[c];
            p.built && p.got.types.Some? ==> p.ctx.types == Some(p.ctx.schema)
  {
    RunInv(u, r);
    assert PhaseOk(u.hash, Exec(u, r).calls[c]);
  }

  // --- Contexts that mix two versions of the schema ---

  /** A context's column types and keys, if it has them, are those of its own schema. */
  predicate OfOneVersion(ctx: Context) {
    ctx.types == None || ctx.types == Some(ctx.schema)
  }

  ghost predicate StoreOfOneVersion(m: Maps) {
    forall k :: k in m.contexts ==> OfOneVersion(m.contexts[k])
  }

  /** The store never held a mixed context. */
  ghost predicate NeverMixed(u: Setup, r: Run)
    requires IsRun(u, r)
  {
    StoreOfOneVersion(Exec(u, r).maps) && (r.Then? ==> NeverMixed(u, r.before))
  }

  /** The call's last build had the rich half in hand, or read nothing again, or read the
      version it already had. */
  ghost predicate BuiltOfOne(u: Setup, r: Run, c: Call)
    requires IsRun(u, r)
  {
    match r
    case Begin(_) => true
    case Then(before, e) =>
      if e.Build? && e.call == c then
        var got := Exec(u, before).calls[c].got;
        got.types.Some? || e.reread == None || e.reread == Some(got.schema)
      else BuiltOfOne(u, before, c)
  }

  /** Every context put into the store came from such a build. */
  ghost predicate InstallsOfOne(u: Setup, r: Run)
    requires IsRun(u, r)
  {
    match r
    case Begin(_) => true
    case Then(before, e) => InstallsOfOne(u, before) && (e.Install? ==> BuiltOfOne(u, before, e.call))
  }

  lemma {:induction false} ReadyIffBuilt(u: Setup, r: Run, c: Call)
    requires GoodHash(u.hash) && IsRun(u, r)
    requires c in Exec(u, r).calls && Exec(u, r).calls[c].Ready?
    ensures OfOneVersion(Exec(u, r).calls[c].ctx) <==> BuiltOfOne(u, r, c)
  {
    match r
    case Begin(_) =>
    case Then(before, e) =>
      var s := Exec(u, before);
      if e.Build? && e.call == c {
        RunInv(u, before);
        assert PhaseOk(u.hash, s.calls[c]);
      } else {
        assert c in s.calls && s.calls[c] == Exec(u, r).calls[c];
        ReadyIffBuilt(u, before, c);
      }
  }

  lemma InstallMixes(u: Setup, r: Run, c: Call)
    requires GoodHash(u.hash) && IsRun(u, Then(r, Install(c))) && StoreOfOneVersion(Exec(u, r).maps)
    ensures StoreOfOneVersion(Exec(u, Then(r, Install(c))).maps) <==> BuiltOfOne(u, r, c)
  {
    ReadyIffBuilt(u, r, c);
    var ctx := Exec(u, r).calls[c].ctx;
    var after := Exec(u, Then(r, Install(c))).maps;
    assert after.contexts == Exec(u, r).maps.contexts[ctx.key := ctx];
    assert ctx.key in after.contexts;
  }

  lemma OthersKeepVersions(u: Setup, s: State, e: Event)
    requires Enabled(u, s, e) && !e.Install? && StoreOfOneVersion(s.maps)
    ensures StoreOfOneVersion(Apply(u, s, e).maps)
  {
  }

  /** The store never holds a context that mixes two versions of the schema exactly when every
      build that goes into it had the rich half in hand, or read the same version again. */
  lemma {:induction false} NeverMixedIff(u: Setup, r: Run)
    requires GoodHash(u.hash) && IsRun(u, r)
    ensures NeverMixed(u, r) <==> InstallsOfOne(u, r)
  {
    match r
    case Begin(_) =>
    case Then(before, e) =>
      NeverMixedIff(u, before);
      if NeverMixed(u, before) {
        if e.Install? { InstallMixes(u, before, e.call); } else { OthersKeepVersions(u, Exec(u, before), e); }
      }
  }

  /** The first call of a run reads the schema and stores it. */
  ghost function FirstRead(c: DbConfig, first: Schema): Run {
    Then(Then(Then(Begin(0.0), Enter("a", c, false, 0)), CacheMiss("a")), Read("a", Reading(first, Some(first))))
  }

  /** The second is served that schema from the cache and builds before the first does,
      when the database has changed. */
  ghost function SecondBuilds(r: Run, c: DbConfig, changed: Schema): Run {
    var looked := Then(Then(Then(r, Enter("b", c, false, 1)), CacheHit("b")), Look("b"));
    Then(Then(looked, Build("b", Some(changed))), Install("b"))
  }

  lemma FirstReadStores(u: Setup, c: DbConfig, first: Schema)
    requires u.ttl > 0.0 && Plain(c)
    ensures IsRun(u, FirstRead(c, first))
    ensures var s := Exec(u, FirstRead(c, first));
            s.now == 0.0 && s.calls.Keys == {"a"} && s.maps.contexts == map[] &&
            DbKey(c) in s.maps.cached && s.maps.cached[DbKey(c)] == Cached(first, 0.0)
  {
    var r1 := Then(Begin(0.0), Enter("a", c, false, 0));
    assert Exec(u, r1).calls["a"].Pooled?;
    var r2 := Then(r1, CacheMiss("a"));
    assert Exec(u, r2).calls["a"].Missed? && Exec(u, r2).calls["a"].req.config == c;
  }

  lemma SecondIsServed(u: Setup, r: Run, c: DbConfig, first: Schema)
    requires IsRun(u, r) && u.ttl > 0.0 && Plain(c)
    requires Exec(u, r).now == 0.0 && "b" !in Exec(u, r).calls && Exec(u, r).maps.contexts == map[]
    requires DbKey(c) in Exec(u, r).maps.cached && Exec(u, r).maps.cached[DbKey(c)] == Cached(first, 0.0)
    ensures var served := Then(Then(r, Enter("b", c, false, 1)), CacheHit("b"));
            && IsRun(u, served) && Exec(u, served).maps.contexts == map[] && "b" in Exec(u, served).calls
            && Exec(u, served).calls["b"].Resolved? && Exec(u, served).calls["b"].got == Reading(first, None)
            && Exec(u, served).calls["b"].req.config == c && !Exec(u, served).calls["b"].req.rebuild
  {
    var entered := Then(r, Enter("b", c, false, 1));
    assert IsRun(u, entered);
    assert Exec(u, entered).calls["b"].Pooled? && Exec(u, entered).calls["b"].req.config == c;
    assert Exec(u, entered).maps.contexts == map[] && Exec(u, entered).now == 0.0;
  }

  lemma BuildsAndInstalls(u: Setup, r: Run, c: Call, reread: Option<Schema>)
    requires IsRun(u, r) && c in Exec(u, r).calls && Exec(u, r).calls[c].Resolved? && Exec(u, r).maps.contexts == map[]
    ensures var ready := Then(Then(r, Look(c)), Build(c, reread));
            var p := Exec(u, r).calls[c];
            && IsRun(u, Then(ready, Install(c)))
            && var ctx := Prepared(u.hash, p.req.config, p.got, reread, p.req.pool);
               Exec(u, Then(ready, Install(c))).maps.contexts == map[ctx.key := ctx]
  {
    var p := Exec(u, r).calls[c];
    var looked := Then(r, Look(c));
    assert IsRun(u, looked) && Exec(u, looked).calls[c] == Building(p.req, p.got);
    var ready := Then(looked, Build(c, reread));
    assert IsRun(u, ready) && Exec(u, ready).calls[c].Ready?;
  }

  /** So a run can leave a context in the store whose column types and keys are not those of
      its schema. */
  lemma StoreCanMixVersions(u: Setup, c: DbConfig, first: Schema, changed: Schema)
    requires u.ttl > 0.0 && Plain(c)
    ensures IsRun(u, SecondBuilds(FirstRead(c, first), c, changed))
    ensures var m := Exec(u, SecondBuilds(FirstRead(c, first), c, changed)).maps;
            var key := CtxKey(c, u.hash(first));
            key in m.contexts && m.contexts[key].schema == first && m.contexts[key].types == Some(changed)
  {
    FirstReadStores(u, c, first);
    SecondIsServed(u, FirstRead(c, first), c, first);
    BuildsAndInstalls(u, Then(Then(FirstRead(c, first), Enter("b", c, false, 1)), CacheHit("b")), "b", Some(changed));
  }

  /** At the step an invalidation takes effect it drops the contexts it reaches, every
      version of the schema among them, and no context of another host, database or engine. */
  lemma InvalidationExact(u: Setup, r: Run, c: DbConfig, k: string)
    requires GoodHash(u.hash) && IsRun(u, r) && Plain(c) && k in Exec(u, r).maps.contexts
    ensures var ctx := Exec(u, r).maps.contexts[k];
            var after := Dropped(Exec(u, r).maps, DbKey(c));
            (k in after.contexts <==> !Reaches(c, ctx.config, ctx.schemaHash)) &&
            (k in after.contexts ==> after.contexts[k] == ctx)
  {
    RunInv(u, r);
    var ctx := Exec(u, r).maps.contexts[k];
    assert Kept(u.hash, k, ctx);
    assert BarFree(u.hash(ctx.schema));
    MatchesIffReaches(c, ctx.config, ctx.schemaHash);
  }

  /** Invalidating `c` drops a context of `d` but leaves the cached schema and the pool of `d`
      exactly when it reaches that context and `d` is not the connection invalidated. */
  lemma InvalidationUnevenIff(m: Maps, c: DbConfig, d: DbConfig, hash: string)
    requires Plain(c) && Plain(d) && BarFree(hash)
    requires CtxKey(d, hash) in m.contexts && DbKey(d) in m.cached && DbKey(d) in m.pools
    ensures var after := Dropped(m, DbKey(c));
            && (CtxKey(d, hash) in after.contexts <==> !Reaches(c, d, hash))
            && (DbKey(d) in after.cached <==> c != d) && (DbKey(d) in after.pools <==> c != d)
            && (CtxKey(d, hash) !in after.contexts && DbKey(d) in after.cached && DbKey(d) in after.pools <==>
                Reaches(c, d, hash) && c != d)
  {
    MatchesIffReaches(c, d, hash);
    KeysIdentify(c, d, hash, hash);
  }

  /** With no schema selected that happens to every selected schema of the same database. */
  lemma UnselectedInvalidationIsUneven(m: Maps, c: DbConfig, d: DbConfig, hash: string)
    requires Plain(d) && BarFree(hash) && c == d.(dbSchema := "") && d.dbSchema != ""
    ensures var after := Dropped(m, DbKey(c));
            CtxKey(d, hash) !in after.contexts &&
            (DbKey(d) in after.cached <==> DbKey(d) in m.cached) &&
            (DbKey(d) in after.pools <==> DbKey(d) in m.pools)
  {
    MatchesIffReaches(c, d, hash);
    KeysIdentify(c, d, hash, hash);
  }

  // --- The store itself ---

  class Store {
    const setup: Setup
    var contexts: map<string, Context>
    var cached: map<string, Cached>
    var pools: map<string, Pool>
    var contextHits: nat
    var schemaHits: nat
    var contextBuilds: nat

    constructor (setup: Setup)
      ensures this.setup == setup && Snapshot() == Maps(map[], map[], map[]) && Valid()
    {
      this.setup := setup;
      contexts, cached, pools := map[], map[], map[];
      contextHits, schemaHits, contextBuilds := 0, 0, 0;
    }

    function Snapshot(): Maps
      reads this
    {
      Maps(contexts, cached, pools)
    }

    ghost predicate Valid()
      reads this
    {
      MapsOk(setup.hash, Snapshot())
    }

    method GetPool(config: DbConfig, renew: bool, serial: nat) returns (pool: Pool)
      requires Valid() && Plain(config)
      modifies this`pools
      ensures Valid() && pool.config == config && DbKey(config) in pools && pool == pools[DbKey(config)]
      ensures Snapshot() == WithPool(old(Snapshot()), config, renew, serial)
    {
      var k := DbKey(config);
      PoolForConfig(Snapshot(), config, renew, serial);
      if renew { pools := pools - {k}; }
      if k !in pools { pools := pools[k := Pool(config, serial)]; }
      assert Snapshot().pools == WithPool(old(Snapshot()), config, renew, serial).pools;
      pool := pools[k];
    }

    /** The schema a call resolves: the cached one while it is fresh, else what is read. */
    function ReadingFor(config: DbConfig, now: real, read: Option<Reading>): Option<Reading>
      reads this`cached
    {
      if Hit(cached, config, now, setup.ttl) then Some(Reading(cached[DbKey(config)].schema, None)) else read
    }

    /** `read` is what the shared read brings when it is needed, at `later`. */
    method Resolve(config: DbConfig, now: real, read: Option<Reading>, later: real) returns (got: Option<Reading>)
      requires Valid()
      modifies this`cached, this`schemaHits
      ensures Valid() && got == old(ReadingFor(config, now, read))
      ensures cached == if !old(Hit(cached, config, now, setup.ttl)) && read.Some?
                        then Stored(old(cached), config, read.value.schema, later, setup.ttl) else old(cached)
      ensures schemaHits == old(schemaHits) + if old(Hit(cached, config, now, setup.ttl)) then 1 else 0
    {
      var k := DbKey(config);
      if setup.ttl > 0.0 {
        if k in cached && now - cached[k].storedAt < setup.ttl {
          schemaHits := schemaHits + 1;
          return Some(Reading(cached[k].schema, None));
        }
      }
      if read == None { return None; }
      if setup.ttl > 0.0 { cached := cached[k := Cached(read.value.schema, later)]; }
      return read;
    }

    /** The context under the key, unless it is to be built again. */
    method Look(config: DbConfig, rebuild: bool, pool: Pool, got: Reading) returns (found: Option<Context>)
      requires Valid() && Plain(config) && pool.config == config && GoodHash(setup.hash)
      modifies this`contexts, this`contextHits
      ensures Valid()
      ensures var key := CtxKey(config, setup.hash(got.schema));
              && (found.Some? <==> !rebuild && key in old(contexts))
              && contexts == (if found.Some? then old(contexts)[key := found.value] else old(contexts))
              && contextHits == old(contextHits) + if found.Some? then 1 else 0
      ensures found.Some? ==> Answers(setup.hash, Request(config, rebuild, pool), got, found.value)
    {
      var key := CtxKey(config, setup.hash(got.schema));
      if key !in contexts || rebuild { return None; }
      FoundAnswers(setup.hash, Snapshot(), Request(config, rebuild, pool), got);
      contexts := contexts[key := contexts[key].(pool := pool)];
      contextHits := contextHits + 1;
      return Some(contexts[key]);
    }

    method Install(ctx: Context)
      requires Valid() && Kept(setup.hash, ctx.key, ctx)
      modifies this`contexts, this`contextBuilds
      ensures Valid() && contexts == old(contexts)[ctx.key := ctx] && contextBuilds == old(contextBuilds) + 1
    {
      contextBuilds := contextBuilds + 1;
      contexts := contexts[ctx.key := ctx];
    }

    /** One call with nothing interleaved: the context it returns answers what the call asked
        and resolved, is the one left in the store, and no other context changes. */
    method GetContextEx(config: DbConfig, rebuild: bool, serial: nat, now: real, read: Option<Reading>, later: real,
                        reread: Option<Schema>)
      returns (answer: Option<Context>, built: bool, pool: Pool)
      requires Valid() && Plain(config) && GoodHash(setup.hash)
      modifies this
      ensures Valid() && DbKey(config) in pools && pools[DbKey(config)] == pool
      ensures answer.None? <==> old(ReadingFor(config, now, read)).None?
      ensures answer.None? ==> contexts == old(contexts) && !built
      ensures answer.Some? ==>
                && Answers(setup.hash, Request(config, rebuild, pool), old(ReadingFor(config, now, read)).value,
                           answer.value)
                && contexts == old(contexts)[answer.value.key := answer.value]
                && (built <==> rebuild || answer.value.key !in old(contexts))
    {
      pool := GetPool(config, rebuild, serial);
      var got := Resolve(config, now, read, later);
      if got == None { return None, false, pool; }
      answer := Look(config, rebuild, pool, got.value);
      if answer.Some? { return answer, false, pool; }
      var ctx := Prepared(setup.hash, config, got.value, reread, pool);
      PreparedAnswers(setup.hash, Request(config, rebuild, pool), got.value, reread);
      Install(ctx);
      return Some(ctx), true, pool;
    }

    /** The scan over the context keys. */
    method DropMatching(dbKey: string)
      modifies this`contexts
      ensures contexts == Dropped(old(Snapshot()), dbKey).contexts
    {
      var stale := set k | k in contexts && Matches(dbKey, k);
      while stale != {}
        invariant forall k :: k in stale ==> k in contexts && Matches(dbKey, k)
        invariant forall k :: k in contexts ==> k in old(contexts) && contexts[k] == old(contexts)[k]
        invariant forall k :: k in old(contexts) && !Matches(dbKey, k) ==> k in contexts
        invariant forall k :: k in contexts && Matches(dbKey, k) ==> k in stale
        decreases |stale|
      {
        var k :| k in stale;
        contexts := contexts - {k};
        stale := stale - {k};
      }
    }

    method DropContexts(dbKey: string)
      requires Valid()
      modifies this`contexts, this`cached, this`pools
      ensures Valid() && Snapshot() == Dropped(old(Snapshot()), dbKey)
    {
      DroppedKeeps(setup.hash, Snapshot(), dbKey);
      DropMatching(dbKey);
      cached, pools := cached - {dbKey}, pools - {dbKey};
    }

    method Invalidate(config: DbConfig)
      requires Valid() && Plain(config)
      modifies this`contexts, this`cached, this`pools
      ensures Valid() && Snapshot() == Dropped(old(Snapshot()), DbKey(config))
    {
      DropContexts(DbKey(config));
    }

    /** Anything may arrive on the channel; only a non-empty string is taken for a key. */
    method ApplyRemoteInvalidation(message: Option<string>)
      requires Valid()
      modifies this`contexts, this`cached, this`pools
      ensures Valid()
      ensures Snapshot() == if message.Some? && message.value != "" then Dropped(old(Snapshot()), message.value)
                            else old(Snapshot())
    {
      if message == None || message.value == "" { return; }
      DropContexts(message.value);
    }
  }
}
