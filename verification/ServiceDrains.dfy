/** Finishing drains through the service: looking batches up in the document, and what a store
    looks like when only drains have been completed. */
module ServiceDrains {
  import opened Wrappers
  import opened FiniteSets
  import opened Orders
  import opened Names
  import opened Prefixes
  import opened StoreModel
  import opened StoreInvariant
  import opened StateDocument
  import opened DesiredNetwork
  import H = Host
  import N = NetworkManager

  // ---- the document's pools ----

  lemma ListedPools(s: StoreState)
    requires PoolsKeyed(s.pools)
    ensures forall p :: p in Saved(s).pools <==> p.name in s.pools && s.pools[p.name] == p
  {
    hide Ascending;
    var keys, list := NameList(s.pools), Saved(s).pools;
    forall p: Pool | p.name in s.pools && s.pools[p.name] == p ensures p in list {
      var i :| 0 <= i < |keys| && keys[i] == p.name;
      assert list[i] == p;
    }
    forall p | p in list ensures p.name in s.pools && s.pools[p.name] == p {
      var i :| 0 <= i < |list| && list[i] == p;
      assert keys[i] in keys;
    }
  }

  /** `drainingBatch`. */
  method DrainingBatch(d: Document, ghost s: StoreState, poolName: Name, batchId: string)
    returns (r: Option<(PoolKind, seq<Address>)>)
    requires PoolsKeyed(s.pools) && d == Saved(s)
    ensures poolName in s.pools && BatchIndex(s.pools[poolName].draining, batchId) < |s.pools[poolName].draining| ==>
              r == Some((s.pools[poolName].kind,
                         s.pools[poolName].draining[BatchIndex(s.pools[poolName].draining, batchId)].addresses))
    ensures r.Some? ==>
              poolName in s.pools && BatchIndex(s.pools[poolName].draining, batchId) < |s.pools[poolName].draining|
  {
    hide Saved, PoolsKeyed, BatchIndex;
    ListedPools(s);
    assert poolName in s.pools ==>
             s.pools[poolName] in d.pools && s.pools[poolName].name == poolName by { PoolsAreKeyed(s.pools); }
    for i := 0 to |d.pools|
      invariant forall k :: 0 <= k < i ==> d.pools[k].name != poolName
    {
      var pool := d.pools[i];
      assert pool in d.pools;
      if pool.name != poolName { continue; }
      var j := FindBatch(pool.draining, batchId);
      return if j < |pool.draining| then Some((pool.kind, pool.draining[j].addresses)) else None;
    }
    return None;
  }

  lemma PoolsAreKeyed(pools: map<Name, Pool>)
    requires PoolsKeyed(pools)
    ensures forall n :: n in pools ==> pools[n].name == n
  {
  }

  method FindBatch(draining: seq<DrainBatch>, id: string) returns (j: nat)
    ensures j == BatchIndex(draining, id)
  {
    hide BatchIndex;
    for j' := 0 to |draining|
      invariant forall k :: 0 <= k < j' ==> draining[k].id != id
    {
      if draining[j'].id == id {
        IndexIsFirst(draining, id, j');
        return j';
      }
    }
    IndexIsFirst(draining, id, |draining|);
    return |draining|;
  }

  lemma IndexIsFirst(draining: seq<DrainBatch>, id: string, j: nat)
    requires j <= |draining| && (j < |draining| ==> draining[j].id == id) && forall k :: 0 <= k < j ==>
              draining[k].id != id
    ensures BatchIndex(draining, id) == j
  {
  }

  /** `isDrainingAddress`. */
  method IsDrainingAddress(d: Document, ghost s: StoreState, poolName: Name, address: Address) returns (found: bool)
    requires PoolsKeyed(s.pools) && d == Saved(s)
    ensures found <==> poolName in s.pools && address in Draining(s.pools[poolName])
  {
    hide Saved, PoolsKeyed, Draining;
    ListedPools(s);
    assert poolName in s.pools ==>
             s.pools[poolName] in d.pools && s.pools[poolName].name == poolName by { PoolsAreKeyed(s.pools); }
    for i := 0 to |d.pools|
      invariant forall k :: 0 <= k < i && d.pools[k].name == poolName ==> address !in Draining(d.pools[k])
    {
      var pool := d.pools[i];
      assert pool in d.pools;
      if pool.name != poolName { continue; }
      var drains := Drains(pool, address);
      if drains { return true; }
    }
    return false;
  }

  method Drains(pool: Pool, address: Address) returns (drains: bool)
    ensures drains <==> address in Draining(pool)
  {
    hide Flat;
    FlatOfNothing(pool.draining);
    for j := 0 to |pool.draining|
      invariant address !in Flat(pool.draining[..j])
    {
      FlatOfPrefix(pool.draining, j);
      if address in pool.draining[j].addresses {
        FlatAround(pool.draining, j);
        return true;
      }
    }
    assert pool.draining[..|pool.draining|] == pool.draining;
    return false;
  }

  // ---- completing drains ----

  /** `t` is `s` after completing some drains: pools differ in their batches only, and addresses
      only lose references. In a valid `t` the reference counts are then determined. */
  ghost predicate OnlyDrained(s: StoreState, t: StoreState) {
    && Valid(t)
    && t.templates == s.templates && t.fixed == s.fixed && t.nextBatch == s.nextBatch && t.cursors == s.cursors
    && t.pools.Keys == s.pools.Keys
    && (forall n :: n in s.pools ==> t.pools[n] == s.pools[n].(draining := t.pools[n].draining))
    && (forall a :: a in t.addresses ==> a in s.addresses && SameIdentity(t.addresses[a], s.addresses[a]))
  }

  ghost predicate DrainsEmptied(s: StoreState, t: StoreState) {
    OnlyDrained(s, t) && forall n :: n in t.pools ==> t.pools[n].draining == []
  }

  /** The pool no longer drains these addresses; everything else it drains and every other pool stay. */
  ghost predicate DrainedOff(s: StoreState, t: StoreState, pool: Name, addresses: set<Address>) {
    && OnlyDrained(s, t)
    && (forall n :: n in s.pools && n != pool ==> t.pools[n] == s.pools[n])
    && (pool in s.pools ==> Elements(Draining(t.pools[pool])) == Elements(Draining(s.pools[pool])) - addresses)
  }

  lemma NothingDrained(s: StoreState)
    requires Valid(s)
    ensures OnlyDrained(s, s)
  {
    hide Valid;
  }

  /** Completing a pool's first batch always succeeds. */
  lemma FirstBatchCompletes(s: StoreState, v: StoreState, n: Name)
    requires OnlyDrained(s, v) && n in s.pools && v.pools[n].draining != []
    ensures CompleteDrain(v, n, v.pools[n].draining[0].id).Ok?
    ensures var t := CompleteDrain(v, n, v.pools[n].draining[0].id).value;
      OnlyDrained(s, t) && t.pools == v.pools[n := v.pools[n].(draining := v.pools[n].draining[1..])]
  {
    hide Valid, Release, Elements, CompleteDrain;
    var pool := v.pools[n];
    FirstBatch(v, n);
    CompleteDrainKeepsValid(v, n, pool.draining[0].id);
    ReleaseKeepsIdentity(v.addresses, Elements(pool.draining[0].addresses));
  }

  lemma FirstBatch(v: StoreState, n: Name)
    requires n in v.pools && v.pools[n].draining != []
    ensures var pool := v.pools[n];
      CompleteDrain(v, n, pool.draining[0].id)
      == Ok(v.(addresses := Release(v.addresses, Elements(pool.draining[0].addresses)),
                                                       pools := v.pools[n := pool.(draining := pool.draining[1..])]))
  {
    hide Release, Elements;
    var pool := v.pools[n];
    assert BatchIndex(pool.draining, pool.draining[0].id) == 0;
    assert pool.draining[..0] + pool.draining[1..] == pool.draining[1..];
  }

  lemma ReleaseKeepsIdentity(addresses: map<Address, CanonicalAddress>, freed: set<Address>)
    ensures var r := Release(addresses, freed);
      forall a :: a in r ==> a in addresses && SameIdentity(r[a], addresses[a])
  {
  }

  /** Completing one draining address always succeeds and frees that address only. */
  lemma AddressCompletes(s: StoreState, v: StoreState, n: Name, a: Address)
    requires OnlyDrained(s, v) && n in s.pools && a in Draining(v.pools[n])
    ensures CompleteDrainedAddress(v, n, a).Ok?
    ensures var t := CompleteDrainedAddress(v, n, a).value;
      && OnlyDrained(s, t) && (forall m :: m in v.pools && m != n ==> t.pools[m] == v.pools[m])
      && Elements(Draining(t.pools[n])) == Elements(Draining(v.pools[n])) - {a}
  {
    hide Valid, WithoutDraining, PoolShape, Release, Flat;
    var pool := v.pools[n];
    CompleteDrainedAddressKeepsValid(v, n, a);
    ReleaseKeepsIdentity(v.addresses, {a});
    OneLessDraining(v, n, a);
  }

  lemma OneLessDraining(v: StoreState, n: Name, a: Address)
    requires Valid(v) && n in v.pools && a in Flat(v.pools[n].draining)
    ensures Elements(Flat(WithoutDraining(v.pools[n].draining, a))) == Elements(Flat(v.pools[n].draining)) - {a}
  {
    hide Valid, WithoutDraining, PoolShape, PoolBacked, Flat, Shrinks, Distinct;
    var pool := v.pools[n];
    PoolIsOk(v, n);
    DrainingIsDistinct(pool);
    var i := WithoutDrainingShrinks(pool.draining, a);
    ShrinkingFreesExactly(pool.draining, WithoutDraining(pool.draining, a), i, {a});
  }

  lemma DrainingIsDistinct(p: Pool)
    requires PoolShape(p)
    ensures Distinct(Flat(p.draining))
  {
  }

  /** The document lists each pool once. */
  lemma PoolsOnce(s: StoreState, i: nat)
    requires PoolsKeyed(s.pools) && i < |Saved(s).pools|
    ensures forall k :: 0 <= k < |Saved(s).pools| && k != i ==> Saved(s).pools[k].name != Saved(s).pools[i].name
  {
    hide NameLess;
    NamesAreOrdered();
    var keys, list := NameList(s.pools), Saved(s).pools;
    forall k | 0 <= k < |list| && k != i ensures list[k].name != list[i].name {
      assert keys[k] in keys && keys[i] in keys && list[k].name == keys[k] && list[i].name == keys[i];
      assert k < i ==> NameLess(keys[k], keys[i]);
      assert i < k ==> NameLess(keys[i], keys[k]);
    }
  }

  lemma OnlyDrainedIsValid(s: StoreState, t: StoreState)
    requires OnlyDrained(s, t)
    ensures Valid(t) && t.pools.Keys == s.pools.Keys
  {
    hide Valid;
  }

  lemma AllPoolsEmptied(s: StoreState, t: StoreState)
    requires PoolsKeyed(s.pools) && OnlyDrained(s, t)
    requires forall k :: 0 <= k < |Saved(s).pools| ==>
              Saved(s).pools[k].name in t.pools && t.pools[Saved(s).pools[k].name].draining == []
    ensures DrainsEmptied(s, t)
  {
    hide Valid, Saved;
    ListedPools(s);
    forall n | n in t.pools ensures t.pools[n].draining == [] {
      assert s.pools[n].name == n;
      assert s.pools[n] in Saved(s).pools;
      var k :| 0 <= k < |Saved(s).pools| && Saved(s).pools[k] == s.pools[n];
    }
  }

  lemma ServablePools(s: StoreState)
    requires Servable(s)
    ensures PoolsKeyed(s.pools)
  {
  }

  /** A store that only drained asks for no more of the host than before. */
  lemma DrainedStaysUnobstructed(h: H.HostState, s: StoreState, t: StoreState)
    requires OnlyDrained(s, t) && Unobstructed(h, s)
    ensures Unobstructed(h, t)
  {
    hide Valid, N.RouteOf;
    assert forall n :: Serves(t, n) ==> Serves(s, n);
    assert NetworkAddresses(t) <= NetworkAddresses(s);
    assert NetworkRoutes(t) <= NetworkRoutes(s);
  }

  lemma DrainedIsServable(s: StoreState, t: StoreState)
    requires OnlyDrained(s, t)
    ensures Servable(t)
  {
    hide Valid, Servable;
    ValidIsServable(t);
  }

  method AnyResidual(d: Document, ghost s: StoreState) returns (any: bool)
    requires PoolsKeyed(s.pools) && d == Saved(s)
    ensures any <==> exists n :: n in s.pools && s.pools[n].draining != []
  {
    hide Saved;
    ListedPools(s);
    for i := 0 to |d.pools|
      invariant forall k :: 0 <= k < i ==> d.pools[k].draining == []
    {
      assert d.pools[i] in d.pools;
      if d.pools[i].draining != [] {
        assert s.pools[d.pools[i].name] == d.pools[i];
        return true;
      }
    }
    forall n | n in s.pools ensures s.pools[n].draining == [] {
      assert s.pools[n].name == n;
      assert s.pools[n] in d.pools;
    }
    return false;
  }

  // ---- completing single addresses ----

  /** The addresses once each, in order of first appearance. */
  method Normalized(addresses: seq<Address>) returns (normalized: seq<Address>)
    ensures Distinct(normalized) && Elements(normalized) == Elements(addresses)
  {
    normalized := [];
    for i := 0 to |addresses|
      invariant Distinct(normalized) && Elements(normalized) == Elements(addresses[..i])
    {
      ElementsStep(addresses, i);
      if addresses[i] !in Elements(normalized) {
        AppendKeepsDistinct(normalized, addresses[i]);
        normalized := normalized + [addresses[i]];
      }
    }
    assert addresses[..|addresses|] == addresses;
  }

  /** `pending` are the listed addresses that the pool drains. */
  ghost predicate PendingOf(s: StoreState, pool: Name, normalized: seq<Address>, pending: seq<Address>) {
    && Distinct(pending)
    && Elements(pending) == if pool in s.pools then Elements(normalized) * Elements(Draining(s.pools[pool])) else {}
  }

  method Pending(d: Document, ghost s: StoreState, pool: Name, normalized: seq<Address>) returns (pending: seq<Address>)
    requires PoolsKeyed(s.pools) && d == Saved(s) && Distinct(normalized)
    ensures PendingOf(s, pool, normalized, pending)
  {
    hide Saved, PoolsKeyed, Draining;
    pending := [];
    ghost var draining := if pool in s.pools then Elements(Draining(s.pools[pool])) else {};
    for i := 0 to |normalized|
      invariant Distinct(pending) && Elements(pending) == Elements(normalized[..i]) * draining
    {
      ElementsStep(normalized, i);
      var found := IsDrainingAddress(d, s, pool, normalized[i]);
      if found {
        assert normalized[i] !in Elements(pending);
        AppendKeepsDistinct(pending, normalized[i]);
        pending := pending + [normalized[i]];
      }
    }
    assert normalized[..|normalized|] == normalized;
  }

  lemma EmptyMeansDisjoint(s: StoreState, pool: Name, normalized: seq<Address>, pending: seq<Address>)
    requires PendingOf(s, pool, normalized, pending) && pending == []
    ensures pool !in s.pools || Elements(Draining(s.pools[pool])) !! Elements(normalized)
  {
    hide Elements, Draining, Distinct;
    NoElements(pending);
    if pool in s.pools {
      var x, y := Elements(normalized), Elements(Draining(s.pools[pool]));
      assert x * y == {};
      forall a | a in y ensures a !in x {
        assert a in x ==> a in x * y;
      }
    }
  }

  lemma PendingPool(s: StoreState, pool: Name, normalized: seq<Address>, pending: seq<Address>)
    requires PendingOf(s, pool, normalized, pending) && pending != []
    ensures pool in s.pools && !(Elements(Draining(s.pools[pool])) !! Elements(normalized))
  {
    hide Draining;
    assert pending[0] in Elements(pending);
    assert pending[0] in Elements(normalized) * Elements(Draining(s.pools[pool]));
  }

  lemma NoneDrainedOff(s: StoreState, pool: Name)
    requires Valid(s)
    ensures DrainedOff(s, s, pool, {})
  {
    hide Valid, OnlyDrained, Draining;
    NothingDrained(s);
  }

  lemma DrainedOffStep(s: StoreState, v: StoreState, pool: Name, normalized: seq<Address>, pending: seq<Address>,
                       i: nat)
    requires PendingOf(s, pool, normalized, pending) && i < |pending| && pool in s.pools
    requires DrainedOff(s, v, pool, Elements(pending[..i]))
    ensures Valid(v) && CompleteDrainedAddress(v, pool, pending[i]).Ok?
    ensures var t := CompleteDrainedAddress(v, pool, pending[i]).value;
      DrainedOff(s, t, pool, Elements(pending[..i + 1])) && pool in t.pools
  {
    hide Valid, OnlyDrained, Draining, CompleteDrainedAddress;
    OnlyDrainedIsValid(s, v);
    ElementsStep(pending, i);
    assert pending[i] in Elements(Draining(v.pools[pool]));
    AddressCompletes(s, v, pool, pending[i]);
    OnlyDrainedIsValid(s, CompleteDrainedAddress(v, pool, pending[i]).value);
  }

  lemma PendingIsAll(s: StoreState, t: StoreState, pool: Name, normalized: seq<Address>, pending: seq<Address>)
    requires PendingOf(s, pool, normalized, pending) && DrainedOff(s, t, pool, Elements(pending))
    ensures DrainedOff(s, t, pool, Elements(normalized))
  {
    hide Valid, OnlyDrained, Draining;
  }

  lemma DrainedOffIsServable(s: StoreState, t: StoreState, pool: Name, addresses: set<Address>)
    requires DrainedOff(s, t, pool, addresses)
    ensures Servable(t)
  {
    hide Valid, Servable, OnlyDrained;
    DrainedIsServable(s, t);
  }

  lemma DrainedOffUnobstructed(h: H.HostState, s: StoreState, t: StoreState, pool: Name, addresses: set<Address>)
    requires DrainedOff(s, t, pool, addresses) && Unobstructed(h, s)
    ensures Unobstructed(h, t)
  {
    hide OnlyDrained, Unobstructed, Draining;
    DrainedStaysUnobstructed(h, s, t);
  }
}
