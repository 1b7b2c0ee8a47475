/** Exclusive ownership: in a store grown from `NewStore` an automatic or draining address
    belongs to one pool only and is never a fixed address. The loader does not check this. */
module StoreOwnership {
  import opened Wrappers
  import opened Names
  import opened Prefixes
  import opened FiniteSets
  import opened StoreModel
  import opened StoreInvariant

  /** An owned address has one holder in the whole store. */
  lemma OwnedAlone(s: StoreState, n: Name, a: Address)
    requires Exclusive(s) && n in s.pools && a in Owned(s.pools[n])
    ensures SoleUse(s, a) && a in Held(s.pools[n])
  {
    hide References, FixedUses;
    assert SoleUse(s, a);
  }

  lemma OwnerIsUnique(s: StoreState, m: Name, n: Name, a: Address)
    requires Valid(s) && Exclusive(s)
    requires m in s.pools && a in Owned(s.pools[m]) && n in s.pools && a in Held(s.pools[n])
    ensures m == n
  {
    hide TemplatesOk, CursorsOk, AddressesOk, FixedOk, PoolsOk, BatchesOk, PoolShape, PoolBacked, Exclusive, Distinct;
    OwnedAlone(s, m, a);
    HeldMeansReferenced(s, m, a);
    assert References(s.addresses, a) == ExpectedReferences(s.fixed, s.pools, a);
    hide Valid, ReferencesOk, Held, Owned;
    ExpectedFollowsPool(s.fixed, s.pools, s.pools - {m}, m, a);
    UsersAreCounted(s.fixed, s.pools - {m}, n, a);
  }

  /** Ownership carries over a step in which every owned address was owned before with the same
      counts, or is newly used exactly once. */
  lemma OwnershipCarriesOver(s: StoreState, t: StoreState)
    requires Exclusive(s)
    requires forall n, a :: n in t.pools && a in Owned(t.pools[n]) ==>
      SoleUse(t, a) || ((exists m :: m in s.pools && a in Owned(s.pools[m]))
                        && References(t.addresses, a) == References(s.addresses, a)
                        && FixedUses(t.fixed, a) <= FixedUses(s.fixed, a))
    ensures Exclusive(t)
  {
    hide Owned, References, FixedUses;
    forall n, a | n in t.pools && a in Owned(t.pools[n]) ensures SoleUse(t, a) {
      if exists m :: m in s.pools && a in Owned(s.pools[m]) {
        var m :| m in s.pools && a in Owned(s.pools[m]);
        assert SoleUse(s, a);
      }
    }
  }

  // ---- one lemma for each operation ----

  lemma TemplateChangesKeepExclusive(s: StoreState, t: StoreState)
    requires Exclusive(s) && t.fixed == s.fixed && t.addresses == s.addresses && t.pools == s.pools
    ensures Exclusive(t)
  {
    hide References, FixedUses, Owned;
    forall n, a | n in t.pools && a in Owned(t.pools[n]) ensures SoleUse(t, a) {
      assert SoleUse(s, a);
    }
  }

  lemma CreateFixedAddressKeepsExclusive(s: StoreState, name: Name, template: Name, a: Address, ownership: Ownership)
    requires Valid(s) && Exclusive(s) && CreateFixedAddress(s, name, template, a, ownership).Ok?
    ensures Exclusive(CreateFixedAddress(s, name, template, a, ownership).value)
  {
    hide Valid, Exclusive, ValidOwnership, Prefix.Contains, OwnershipForMode, Elements, ExpectedReferences;
    var t := CreateFixedAddress(s, name, template, a, ownership).value;
    UnknownAddressIsUnused(s, a);
    forall n, b | n in t.pools && b in Owned(t.pools[n])
      ensures References(t.addresses, b) == References(s.addresses, b)
              && FixedUses(t.fixed, b) <= FixedUses(s.fixed, b) {
      assert b in Held(s.pools[n]);
    }
    OwnershipCarriesOver(s, t);
  }

  lemma DeleteFixedAddressKeepsExclusive(s: StoreState, name: Name)
    requires Valid(s) && Exclusive(s) && DeleteFixedAddress(s, name).Ok?
    ensures Exclusive(DeleteFixedAddress(s, name).value)
  {
    hide Valid, Exclusive, Owned;
    var t := DeleteFixedAddress(s, name).value;
    forall n, b | n in t.pools && b in Owned(t.pools[n])
      ensures References(t.addresses, b) == References(s.addresses, b)
              && FixedUses(t.fixed, b) <= FixedUses(s.fixed, b) {
      OwnedAlone(s, n, b);
      assert name in FixedUses(s.fixed, s.fixed[name].address);
      assert b != s.fixed[name].address;
    }
    OwnershipCarriesOver(s, t);
  }

  /** Releasing what pool `n` gives up touches no address another pool owns. */
  lemma ReleaseKeepsExclusive(s: StoreState, t: StoreState, n: Name, freed: set<Address>)
    requires Valid(s) && Exclusive(s) && t.fixed == s.fixed && SameBut(s.pools, t.pools, n) && n in s.pools
             && freed <= Held(s.pools[n])
    requires n in t.pools ==> Owned(t.pools[n]) <= Owned(s.pools[n]) - freed
    requires t.addresses == Release(s.addresses, freed)
    ensures Exclusive(t)
  {
    hide Valid, Exclusive, Owned, Held;
    forall m, a | m in t.pools && a in Owned(t.pools[m])
      ensures m in s.pools && a in Owned(s.pools[m]) && References(t.addresses, a) == References(s.addresses, a) {
      if m != n && a in freed {
        OwnerIsUnique(s, m, n, a);
      }
    }
    hide References, Release;
    OwnershipCarriesOver(s, t);
  }

  lemma DeletePoolKeepsExclusive(s: StoreState, n: Name)
    requires Valid(s) && Exclusive(s) && DeletePool(s, n).Ok?
    ensures Exclusive(DeletePool(s, n).value)
  {
    hide Valid, Exclusive, Release;
    ReleaseKeepsExclusive(s, DeletePool(s, n).value, n, Held(s.pools[n]));
  }

  lemma ShrinkKeepsExclusive(s: StoreState, n: Name, after: seq<DrainBatch>, i: nat, freed: set<Address>)
    requires Valid(s) && Exclusive(s) && n in s.pools && Shrinks(s.pools[n].draining, after, i, freed)
    ensures Exclusive(s.(addresses := Release(s.addresses, freed),
                                      pools := s.pools[n := s.pools[n].(draining := after)]))
  {
    hide Valid, Exclusive, Release, Shrinks;
    var p, q := s.pools[n], s.pools[n].(draining := after);
    var t := s.(addresses := Release(s.addresses, freed), pools := s.pools[n := q]);
    ShrinkKeepsValid(s, n, after, i, freed);
    DrainingIsNotAutomatic(s, n);
    assert Automatic(q) == Automatic(p) && Elements(Draining(q)) == Elements(Draining(p)) - freed;
    hide Automatic, Elements, Flat;
    assert Owned(q) <= Owned(p) - freed && freed <= Held(p);
    ReleaseKeepsExclusive(s, t, n, freed);
  }

  lemma DrainingIsNotAutomatic(s: StoreState, n: Name)
    requires Valid(s) && n in s.pools
    ensures Elements(Draining(s.pools[n])) !! Automatic(s.pools[n])
  {
    hide Blank, Distinct, Flat;
    assert PoolShape(s.pools[n]);
  }

  lemma CompleteDrainKeepsExclusive(s: StoreState, n: Name, id: string)
    requires Valid(s) && Exclusive(s) && CompleteDrain(s, n, id).Ok?
    ensures Exclusive(CompleteDrain(s, n, id).value)
  {
    hide Valid, Exclusive, Release;
    var draining := s.pools[n].draining;
    var i := BatchIndex(draining, id);
    RemovingABatchShrinks(draining, i);
    ShrinkKeepsExclusive(s, n, draining[..i] + draining[i + 1..], i, Elements(draining[i].addresses));
  }

  lemma CompleteDrainedAddressKeepsExclusive(s: StoreState, n: Name, a: Address)
    requires Valid(s) && Exclusive(s) && CompleteDrainedAddress(s, n, a).Ok?
    ensures Exclusive(CompleteDrainedAddress(s, n, a).value)
  {
    assert PoolShape(s.pools[n]);
    hide Valid, Exclusive, Release;
    var i := WithoutDrainingShrinks(s.pools[n].draining, a);
    ShrinkKeepsExclusive(s, n, WithoutDraining(s.pools[n].draining, a), i, {a});
  }

  /** Fresh addresses and new pins touch no address another pool owns. */
  lemma AllocationKeepsExclusive(s: StoreState, t: StoreState, n: Name, template: Name, referenced: seq<Address>,
                                 automatic: seq<Address>)
    requires Valid(s) && Exclusive(s) && t.fixed == s.fixed && SameBut(s.pools, t.pools, n) && n in t.pools
    requires template in s.templates && Fresh(s, template, automatic)
    requires forall a :: a in referenced ==> a in s.addresses && FixedUses(s.fixed, a) != {}
    requires t.addresses == Allocate(s.(addresses := Reference(s.addresses, referenced)), template, automatic)
    requires Owned(t.pools[n]) <= (if n in s.pools then Owned(s.pools[n]) else {}) + Elements(automatic)
    ensures Exclusive(t)
  {
    AllocatedReferences(s, template, referenced, automatic);
    hide Exclusive, Owned, Allocate, Reference, References, Distinct, Prefix.Contains, TemplatesOk, CursorsOk;
    hide AddressesOk, FixedOk, PoolsOk, BatchesOk, ReferencesOk;
    forall m, a | m in t.pools && a in Owned(t.pools[m])
      ensures SoleUse(t, a) {
      if a in automatic {
        UnknownAddressIsUnused(s, a);
        assert a !in referenced;
      } else {
        assert a !in Elements(automatic);
        assert m in s.pools && a in Owned(s.pools[m]);
        assert SoleUse(s, a);
        assert a !in referenced;
      }
    }
  }

  lemma AllocatedReferences(s: StoreState, template: Name, referenced: seq<Address>, automatic: seq<Address>)
    requires template in s.templates && Fresh(s, template, automatic)
    requires forall a :: a in referenced ==> a in s.addresses
    ensures var table := Allocate(s.(addresses := Reference(s.addresses, referenced)), template, automatic);
      forall a: Address :: References(table, a) ==
        if a in automatic then 1 else References(s.addresses, a) + One(a in referenced)
  {
    hide Distinct, Prefix.Contains, OwnershipForMode;
  }

  lemma CreatePoolKeepsExclusive(s: StoreState, name: Name, kind: PoolKind, template: Name, capacity: int,
                                 pinnedNames: seq<Name>)
    requires Valid(s) && Exclusive(s) && CreatePool(s, name, kind, template, capacity, pinnedNames).Ok?
    ensures Exclusive(CreatePool(s, name, kind, template, capacity, pinnedNames).value)
  {
    hide TemplatesOk, CursorsOk, FixedOk, AddressesOk, PoolsOk, BatchesOk, ReferencesOk, Exclusive, Fresh;
    hide ResolvePinned, Generate, FixedUses, Advance, Allocate, Reference, Distinct;
    var t := CreatePool(s, name, kind, template, capacity, pinnedNames).value;
    var pinned := ResolvePinned(s, template, pinnedNames).value;
    var automatic := Generate(s, template, capacity - |pinned|).value;
    ResolvedPinnedAreFixed(s, template, pinnedNames);
    GeneratedAreFresh(s, template, capacity - |pinned|);
    assert Owned(t.pools[name]) <= Elements(automatic) by {
      assert Elements(pinned + automatic) == Elements(pinned) + Elements(automatic);
    }
    hide Owned;
    AllocationKeepsExclusive(s, t, name, template, pinned, automatic);
  }

  lemma RefreshPoolKeepsExclusive(s: StoreState, n: Name)
    requires Valid(s) && Exclusive(s)
    requires n in s.pools ==> s.pools[n].template in s.templates
    requires RefreshPool(s, n).Ok?
    ensures Exclusive(RefreshPool(s, n).value)
  {
    hide Valid, Exclusive, Generate, Refreshed;
    var p := s.pools[n];
    RefreshedKeepsExclusive(s, n, Generate(s, p.template, p.capacity - |p.pinned|).value);
  }

  lemma ReferenceNothing(s: StoreState)
    ensures s.(addresses := Reference(s.addresses, [])) == s
  {
    assert Reference(s.addresses, []) == s.addresses;
  }

  lemma RefreshedKeepsExclusive(s: StoreState, n: Name, automatic: seq<Address>)
    requires Valid(s) && Exclusive(s) && n in s.pools && s.pools[n].template in s.templates
    requires Generate(s, s.pools[n].template, s.pools[n].capacity - |s.pools[n].pinned|) == Some(automatic)
    ensures Exclusive(Refreshed(s, n, automatic))
  {
    hide Valid, Exclusive, Owned, Generate, Fresh, Allocate, Advance, Difference, Reference, PoolShape;
    GeneratedAreFresh(s, s.pools[n].template, s.pools[n].capacity - |s.pools[n].pinned|);
    PoolIsOk(s, n);
    RefreshedOwns(s, n, automatic);
    ReferenceNothing(s);
    AllocationKeepsExclusive(s, Refreshed(s, n, automatic), n, s.pools[n].template, [], automatic);
  }

  lemma RefreshedOwns(s: StoreState, n: Name, automatic: seq<Address>)
    requires n in s.pools && PoolShape(s.pools[n]) && s.pools[n].template in s.templates
    ensures Owned(Refreshed(s, n, automatic).pools[n]) <= Owned(s.pools[n]) + Elements(automatic)
  {
    var p := s.pools[n];
    var q := Refreshed(s, n, automatic).pools[n];
    var retired := Difference(p.active, p.pinned);
    DifferenceSubtracts(p.active, p.pinned);
    hide PoolShape, Distinct, Difference, Allocate, Advance;
    assert PoolRefreshed(p, q, retired, automatic);
    RefreshedDraining(p, q, retired, automatic);
    assert Elements(Draining(p) + retired) == Elements(Draining(p)) + Elements(retired);
    assert Elements(p.pinned + automatic) == Elements(p.pinned) + Elements(automatic);
  }
}
