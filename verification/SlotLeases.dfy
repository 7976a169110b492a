/** The shared count of slots against one database: leases in a Redis sorted set. */
module SlotLeases {
  import opened Numbers

  type Token = nat
  type Leases = map<Token, real>   // member := score, the time its lease ends

  function Max(a: real, b: real): real {
    if a >= b then a else b
  }

  const LEASE_MARGIN := 30.0
  const LEASE_FLOOR := 60.0

  function LeaseSeconds(statementTimeout: real, slotLease: real): real {
    if statementTimeout > 0.0 then Max(LEASE_FLOOR, statementTimeout + LEASE_MARGIN) else slotLease
  }

  /** The lifetime PEXPIRE gives the whole key, in seconds: `int(lease * 1000)` truncates. */
  function KeyLife(lease: real): real {
    Truncated(lease * 1000.0) as real / 1000.0
  }

  ghost predicate WholeMillis(lease: real) {
    Truncated(lease * 1000.0) as real == lease * 1000.0
  }

  /** ZREMRANGEBYSCORE key 0 now. */
  function Unexpired(z: Leases, now: real): Leases {
    map t | t in z && !(0.0 <= z[t] <= now) :: z[t]
  }

  /** The set after prune and add, which is what ZCARD counts. */
  function WithClaim(z: Leases, token: Token, now: real, lease: real): Leases {
    Unexpired(z, now)[token := now + lease]
  }

  function Admits(z: Leases, token: Token, now: real, lease: real, limit: nat): bool {
    |WithClaim(z, token, now, lease)| <= limit
  }

  function Without(z: Leases, token: Token): Leases {
    z - {token}
  }

  function Others(z: Leases, token: Token, now: real): set<Token> {
    set t | t in z && t != token && z[t] > now
  }

  /** One attempt succeeds exactly when fewer than `limit` other leases are running,
      whatever crashed or failed to release before. */
  lemma AdmitsIffRoom(z: Leases, token: Token, now: real, lease: real, limit: nat)
    requires forall t :: t in z ==> z[t] >= 0.0
    ensures Admits(z, token, now, lease, limit) <==> |Others(z, token, now)| < limit
  {
    var claimed, others := WithClaim(z, token, now, lease), Others(z, token, now);
    forall t
      ensures t in claimed.Keys <==> t in others + {token}
    {
      if t in z { assert z[t] >= 0.0; }
    }
    SameSize(claimed, others, token);
  }

  lemma SameSize(z: Leases, others: set<Token>, token: Token)
    requires token !in others && forall t :: t in z.Keys <==> t in others + {token}
    ensures |z| == |others| + 1
  {
    assert z.Keys == others + {token};
    assert |z| == |z.Keys|;
  }

  /** Under a statement timeout the lease is the shortest that outlives it by the margin and is
      not below the floor; without one it is the configured lease. */
  lemma LeaseOutlivesStatement(statementTimeout: real, slotLease: real)
    ensures statementTimeout > 0.0 ==>
      LeaseSeconds(statementTimeout, slotLease) >= statementTimeout + 30.0 &&
      LeaseSeconds(statementTimeout, slotLease) >= 60.0 &&
      LeaseSeconds(statementTimeout, slotLease) in {statementTimeout + 30.0, 60.0}
    ensures statementTimeout <= 0.0 ==> LeaseSeconds(statementTimeout, slotLease) == slotLease
  {
  }

  /** The key may vanish before the last lease in it ends, by less than a millisecond,
      unless the lease is a whole number of milliseconds. */
  lemma KeyLifeIs(lease: real)
    requires lease >= 0.0
    ensures 0.0 <= KeyLife(lease) <= lease < KeyLife(lease) + 0.001
    ensures KeyLife(lease) == lease <==> WholeMillis(lease)
  {
    var n := (lease * 1000.0).Floor as real;
    assert n <= lease * 1000.0 < n + 1.0;
    assert KeyLife(lease) == n / 1000.0;
    assert (n / 1000.0) * 1000.0 == n;
  }

  // --- _SharedSlots over an in-memory Redis ---

  class Redis {
    var sets: map<string, Leases>       // an empty set has no key
    var deadlines: map<string, real>

    constructor ()
      ensures sets == map[] && deadlines == map[]
    {
      sets, deadlines := map[], map[];
    }

    ghost predicate Valid()
      reads this
    {
      (forall k :: k in sets ==> sets[k] != map[]) && deadlines.Keys <= sets.Keys
    }

    function At(key: string): Leases
      reads this
    {
      if key in sets then sets[key] else map[]
    }

    method Store(key: string, z: Leases)
      requires Valid()
      modifies this
      ensures Valid() && At(key) == z
      ensures forall k :: k != key ==> At(k) == old(At(k)) && (k in deadlines <==> k in old(deadlines))
      ensures forall k :: k in deadlines && k != key ==> deadlines[k] == old(deadlines)[k]
      ensures z != map[] ==> (key in deadlines <==> key in old(deadlines))
      ensures z != map[] && key in deadlines ==> deadlines[key] == old(deadlines)[key]
    {
      if z == map[] {
        sets, deadlines := sets - {key}, deadlines - {key};
      } else {
        sets := sets[key := z];
      }
    }

    /** MULTI: prune, add, count, expire, with nothing in between. */
    method ClaimPipeline(key: string, token: Token, now: real, lease: real) returns (count: nat)
      requires Valid()
      modifies this
      ensures Valid() && At(key) == WithClaim(old(At(key)), token, now, lease) && count == |At(key)|
      ensures key in deadlines && deadlines[key] == now + KeyLife(lease)
      ensures forall k :: k != key ==> At(k) == old(At(k))
    {
      Store(key, Unexpired(At(key), now));
      Store(key, At(key)[token := now + lease]);
      count := |At(key)|;
      deadlines := deadlines[key := now + KeyLife(lease)];
    }

    method ZRem(key: string, token: Token)
      requires Valid()
      modifies this
      ensures Valid() && At(key) == Without(old(At(key)), token)
      ensures forall k :: k != key ==> At(k) == old(At(k))
    {
      Store(key, Without(At(key), token));
    }
  }

  function Key(target: string): string {
    "dbbuddy:erp:slots:" + target
  }

  lemma KeysDiffer(target: string)
    ensures forall other: string :: other != target ==> Key(other) != Key(target)
  {
    var n := |"dbbuddy:erp:slots:"|;
    assert forall other: string :: Key(other)[n..] == other;
  }

  class SharedSlots {
    const client: Redis
    const limit: nat
    const lease: real

    constructor (client: Redis, limit: nat, lease: real)
      ensures this.client == client && this.limit == limit && this.lease == lease
    {
      this.client, this.limit, this.lease := client, limit, lease;
    }

    /** A claim that loses leaves no lease of its own behind, and no attempt touches another
        target. */
    method Acquire(target: string, token: Token, now: real) returns (admitted: bool)
      requires client.Valid()
      modifies client
      ensures client.Valid()
      ensures admitted <==> Admits(old(client.At(Key(target))), token, now, lease, limit)
      ensures client.At(Key(target)) ==
              if admitted then WithClaim(old(client.At(Key(target))), token, now, lease)
              else Without(Unexpired(old(client.At(Key(target))), now), token)
      ensures forall other: string :: other != target ==> client.At(Key(other)) == old(client.At(Key(other)))
    {
      var key := Key(target);
      KeysDiffer(target);
      var count := client.ClaimPipeline(key, token, now, lease);
      if count <= limit { return true; }
      client.ZRem(key, token);
      return false;
    }

    method Release(target: string, token: Token)
      requires client.Valid()
      modifies client
      ensures client.Valid() && client.At(Key(target)) == Without(old(client.At(Key(target))), token)
      ensures forall other: string :: other != target ==> client.At(Key(other)) == old(client.At(Key(other)))
    {
      KeysDiffer(target);
      client.ZRem(Key(target), token);
    }
  }
}
