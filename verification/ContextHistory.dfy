/** What the store holds at any point of a run, told by what happened before. */
module ContextHistory {
  import opened Names
  import opened ContextKeys
  import opened ContextStore

  function Clock(r: Run): real {
    match r
    case Begin(at) => at
    case Then(before, e) => if e.Tick? then Clock(before) + e.elapsed else Clock(before)
  }

  datatype Asked = Asked(config: DbConfig, rebuild: bool)

  /** What the call came for. */
  function Entered(r: Run, c: Call): Option<Asked> {
    match r
    case Begin(_) => None
    case Then(before, e) => if e.Enter? && e.call == c then Some(Asked(e.config, e.rebuild)) else Entered(before, c)
  }

  /** The event invalidates the very connection. */
  predicate Clears(e: Event, d: DbConfig) {
    match e
    case Invalidate(config) => config == d
    case Message(text) => text == DbKey(d)
    case _ => false
  }

  /** The last schema read of a connection since it was invalidated, and when. */
  function LastRead(u: Setup, r: Run, d: DbConfig): Option<Cached> {
    match r
    case Begin(_) => None
    case Then(before, e) =>
      if Clears(e, d) then None
      else if e.Read? && u.ttl > 0.0 && Entered(before, e.call).Some? && Entered(before, e.call).value.config == d
      then Some(Cached(e.reading.schema, Clock(before)))
      else LastRead(u, before, d)
  }

  /** The connection's pool: that of the first call since it was invalidated, or of the last one
      that asked for a new build. */
  function LastPool(r: Run, d: DbConfig): Option<Pool> {
    match r
    case Begin(_) => None
    case Then(before, e) =>
      if Clears(e, d) then None
      else if e.Enter? && e.config == d && (e.rebuild || LastPool(before, d).None?) then Some(Pool(d, e.serial))
      else LastPool(before, d)
  }

  ghost predicate RequestIs(s: State, r: Run, c: Call) {
    if c !in s.calls then Entered(r, c).None?
    else
      && Entered(r, c).Some?
      && Plain(Entered(r, c).value.config)
      && (!s.calls[c].Raised? ==>
            Asked(s.calls[c].req.config, s.calls[c].req.rebuild) == Entered(r, c).value)
  }

  lemma RequestStep(u: Setup, r: Run, e: Event, c: Call)
    requires IsRun(u, Then(r, e)) && RequestIs(Exec(u, r), r, c)
    ensures RequestIs(Apply(u, Exec(u, r), e), Then(r, e), c)
  {
  }

  lemma {:induction false} RequestsAre(u: Setup, r: Run, c: Call)
    requires IsRun(u, r)
    ensures RequestIs(Exec(u, r), r, c)
  {
    match r
    case Begin(_) =>
    case Then(before, e) =>
      RequestsAre(u, before, c);
      RequestStep(u, before, e, c);
  }

  lemma {:induction false} ClockIs(u: Setup, r: Run)
    requires IsRun(u, r)
    ensures Exec(u, r).now == Clock(r)
  {
    if r.Then? { ClockIs(u, r.before); }
  }

  lemma DbKeysIdentify(c: DbConfig, d: DbConfig)
    requires Plain(c) && Plain(d)
    ensures DbKey(c) == DbKey(d) <==> c == d
  {
    KeysIdentify(c, d, "", "");
  }

  lemma KeyNotEmpty(d: DbConfig)
    ensures DbKey(d) != ""
  {
    assert |DbKey(d)| >= 2;
  }

  ghost predicate CachedIs(cached: map<string, Cached>, d: DbConfig, last: Option<Cached>) {
    if last.Some? then DbKey(d) in cached && cached[DbKey(d)] == last.value else DbKey(d) !in cached
  }

  /** What is cached of a connection is the last schema read of it. */
  lemma {:induction false} CachedIsLastRead(u: Setup, r: Run, d: DbConfig)
    requires IsRun(u, r) && Plain(d)
    ensures CachedIs(Exec(u, r).maps.cached, d, LastRead(u, r, d))
  {
    match r
    case Begin(_) =>
    case Then(before, e) =>
      CachedIsLastRead(u, before, d);
      KeyNotEmpty(d);
      match e
      case Read(c, _) =>
        RequestsAre(u, before, c);
        ClockIs(u, before);
        DbKeysIdentify(Entered(before, c).value.config, d);
      case Invalidate(config) => DbKeysIdentify(config, d);
      case _ =>
  }

  ghost predicate PoolIs(pools: map<string, Pool>, d: DbConfig, last: Option<Pool>) {
    if last.Some? then DbKey(d) in pools && pools[DbKey(d)] == last.value else DbKey(d) !in pools
  }

  lemma {:induction false} PoolIsLast(u: Setup, r: Run, d: DbConfig)
    requires IsRun(u, r) && Plain(d)
    ensures PoolIs(Exec(u, r).maps.pools, d, LastPool(r, d))
  {
    match r
    case Begin(_) =>
    case Then(before, e) =>
      PoolIsLast(u, before, d);
      KeyNotEmpty(d);
      match e
      case Enter(_, config, _, _) => DbKeysIdentify(config, d);
      case Invalidate(config) => DbKeysIdentify(config, d);
      case _ =>
  }

  /** A call is given the connection's pool, a new one when it asked for a new build. */
  lemma CallGetsPool(u: Setup, r: Run, c: Call, d: DbConfig, rebuild: bool, serial: nat)
    requires IsRun(u, Then(r, Enter(c, d, rebuild, serial)))
    ensures var after := Then(r, Enter(c, d, rebuild, serial));
            LastPool(after, d).Some? && Exec(u, after).calls[c] == Pooled(Request(d, rebuild, LastPool(after, d).value))
  {
    PoolIsLast(u, Then(r, Enter(c, d, rebuild, serial)), d);
  }

  /** A call is served its schema from the cache exactly when one was read of its connection less
      than the time to live ago, with no invalidation since; and that one it gets. */
  lemma ServedFromCacheIff(u: Setup, r: Run, c: Call)
    requires IsRun(u, r) && c in Exec(u, r).calls && Exec(u, r).calls[c].Pooled?
    ensures Entered(r, c).Some?
    ensures var last := LastRead(u, r, Entered(r, c).value.config);
            && (IsRun(u, Then(r, CacheHit(c))) <==>
                u.ttl > 0.0 && last.Some? && Clock(r) - last.value.storedAt < u.ttl)
            && (IsRun(u, Then(r, CacheMiss(c))) <==> !IsRun(u, Then(r, CacheHit(c))))
            && (IsRun(u, Then(r, CacheHit(c))) ==>
                  Exec(u, Then(r, CacheHit(c))).calls[c] ==
                  Resolved(Exec(u, r).calls[c].req, Reading(last.value.schema, None)))
  {
    RequestsAre(u, r, c);
    ClockIs(u, r);
    CachedIsLastRead(u, r, Entered(r, c).value.config);
  }

  /** Time passes, connections are invalidated and messages come at any point; a call comes once;
      and a read that was begun ends either way. */
  lemma WhatCanHappen(u: Setup, r: Run, c: Call, d: DbConfig, rebuild: bool, serial: nat, text: string, elapsed: real)
    requires IsRun(u, r)
    ensures IsRun(u, Then(r, Tick(elapsed))) <==> elapsed >= 0.0
    ensures IsRun(u, Then(r, Invalidate(d))) <==> Plain(d)
    ensures IsRun(u, Then(r, Message(text)))
    ensures IsRun(u, Then(r, Enter(c, d, rebuild, serial))) <==> Entered(r, c).None? && Plain(d)
    ensures c in Exec(u, r).calls && Exec(u, r).calls[c].Missed? ==>
              IsRun(u, Then(r, ReadFails(c))) && forall reading :: Consistent(reading) ==>
                IsRun(u, Then(r, Read(c, reading))) &&
                Exec(u, Then(r, Read(c, reading))).calls[c] == Resolved(Exec(u, r).calls[c].req, reading)
  {
    RequestsAre(u, r, c);
  }

  // --- Contexts ---

  /** The event drops the context that is kept under `k`. */
  predicate Drops(e: Event, k: string, ctx: Context) {
    match e
    case Invalidate(config) => Reaches(config, ctx.config, ctx.schemaHash)
    case Message(text) => text != "" && (k == text || text + "|" <= k)
    case _ => false
  }

  /** The call has a context to put under `k`. */
  ghost predicate PutsUnder(u: Setup, s: State, e: Event, k: string) {
    e.Install? && e.call in s.calls && s.calls[e.call].Ready? &&
    k == CtxKey(s.calls[e.call].req.config, u.hash(s.calls[e.call].got.schema))
  }

  /** The call finds the context that is kept under `k`. */
  ghost predicate FindsUnder(u: Setup, s: State, e: Event, k: string) {
    e.Look? && e.call in s.calls && s.calls[e.call].Resolved? && !s.calls[e.call].req.rebuild &&
    k == CtxKey(s.calls[e.call].req.config, u.hash(s.calls[e.call].got.schema))
  }

  /** `now` is what an event leaves of what `s` kept under `k`. */
  ghost predicate ContextMoves(u: Setup, s: State, e: Event, k: string, now: map<string, Context>) {
    var was := s.maps.contexts;
    && (k in now <==> PutsUnder(u, s, e, k) || (k in was && !Drops(e, k, was[k])))
    && (k in now ==>
          now[k] == if PutsUnder(u, s, e, k) then s.calls[e.call].ctx
                    else if FindsUnder(u, s, e, k) then was[k].(pool := s.calls[e.call].req.pool)
                    else was[k])
  }

  lemma InstallStep(u: Setup, s: State, e: Event, k: string)
    requires Inv(u.hash, s) && Enabled(u, s, e) && e.Install?
    ensures ContextMoves(u, s, e, k, Apply(u, s, e).maps.contexts)
  {
    assert PhaseOk(u.hash, s.calls[e.call]);
  }

  lemma LookStep(u: Setup, s: State, e: Event, k: string)
    requires Enabled(u, s, e) && e.Look?
    ensures ContextMoves(u, s, e, k, Apply(u, s, e).maps.contexts)
  {
  }

  lemma OtherStep(u: Setup, s: State, e: Event, k: string)
    requires Enabled(u, s, e) && !e.Install? && !e.Look? && !e.Invalidate?
    ensures ContextMoves(u, s, e, k, Apply(u, s, e).maps.contexts)
  {
  }

  lemma InvalidateStep(u: Setup, r: Run, d: DbConfig, k: string)
    requires GoodHash(u.hash) && IsRun(u, r) && Plain(d)
    ensures ContextMoves(u, Exec(u, r), Invalidate(d), k, Dropped(Exec(u, r).maps, DbKey(d)).contexts)
  {
    if k in Exec(u, r).maps.contexts { InvalidationExact(u, r, d, k); }
  }

  /** After an event a context is kept exactly when it was just installed, or was kept before and
      is not one that an invalidation drops. It changes only by being installed, or by taking the
      pool of a call that finds it. */
  lemma ContextAfter(u: Setup, r: Run, e: Event, k: string)
    requires GoodHash(u.hash) && IsRun(u, Then(r, e))
    ensures ContextMoves(u, Exec(u, r), e, k, Exec(u, Then(r, e)).maps.contexts)
  {
    if e.Invalidate? {
      InvalidateStep(u, r, e.config, k);
    } else {
      RunInv(u, r);
      var s := Exec(u, r);
      if e.Install? {
        InstallStep(u, s, e, k);
      } else if e.Look? {
        LookStep(u, s, e, k);
      } else {
        OtherStep(u, s, e, k);
      }
    }
  }

  ghost predicate KeptFor(contexts: map<string, Context>, d: DbConfig, schema: Schema) {
    exists k :: k in contexts && contexts[k].config == d && contexts[k].schema == schema
  }

  /** A call that asked for a new build never gets one that it found; any other gets the one kept
      for its connection and schema, when there is one, without building. */
  lemma FindsIff(u: Setup, r: Run, c: Call)
    requires GoodHash(u.hash) && IsRun(u, Then(r, Look(c)))
    ensures Entered(r, c).Some?
    ensures var p := Exec(u, Then(r, Look(c))).calls[c];
            var asked, schema := Entered(r, c).value, Exec(u, r).calls[c].got.schema;
            && (p.Returned? <==> !asked.rebuild && KeptFor(Exec(u, r).maps.contexts, asked.config, schema))
            && (p.Returned? ==> !p.built) && (!p.Returned? ==> p.Building?)
  {
    RunInv(u, r);
    RequestsAre(u, r, c);
    var s := Exec(u, r);
    KeptUnder(u, s, s.calls[c].req.config, s.calls[c].got.schema);
  }

  lemma KeptUnder(u: Setup, s: State, d: DbConfig, schema: Schema)
    requires GoodHash(u.hash) && Inv(u.hash, s) && Plain(d)
    ensures CtxKey(d, u.hash(schema)) in s.maps.contexts <==>
            KeptFor(s.maps.contexts, d, schema)
  {
    var key := CtxKey(d, u.hash(schema));
    if key in s.maps.contexts {
      var ctx := s.maps.contexts[key];
      assert Kept(u.hash, key, ctx) && BarFree(u.hash(schema)) && BarFree(u.hash(ctx.schema));
      KeysIdentify(d, ctx.config, u.hash(schema), ctx.schemaHash);
    }
    if k :| k in s.maps.contexts && s.maps.contexts[k].config == d && s.maps.contexts[k].schema == schema {
      assert Kept(u.hash, k, s.maps.contexts[k]);
    }
  }

  /** So does the call that builds: what it returns it has installed. */
  lemma BuildsReturn(u: Setup, r: Run, c: Call, reread: Option<Schema>)
    requires GoodHash(u.hash) && IsRun(u, r) && c in Exec(u, r).calls && Exec(u, r).calls[c].Building?
    ensures var ready := Then(r, Build(c, reread));
            && IsRun(u, Then(ready, Install(c)))
            && var p := Exec(u, Then(ready, Install(c))).calls[c];
               && p.Returned? && p.built && p.got == Exec(u, r).calls[c].got
               && p.ctx.types == (if p.got.types.Some? then p.got.types else reread)
               && p.ctx.key in Exec(u, Then(ready, Install(c))).maps.contexts
               && Exec(u, Then(ready, Install(c))).maps.contexts[p.ctx.key] == p.ctx
  {
    var ready := Then(r, Build(c, reread));
    assert IsRun(u, ready) && Exec(u, ready).calls[c].Ready?;
  }
}
