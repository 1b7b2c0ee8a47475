/** The address store itself: an object whose methods update its tables in place.
    Every method is proved to have exactly the effect `StoreModel` names, error for error. */
module Store {
  import opened Wrappers
  import opened Names
  import opened Prefixes
  import opened Walk
  import opened FiniteSets
  import opened DrainIds
  import opened StoreModel
  import opened StoreInvariant
  import opened StoreAnswers

  type Status = Result<(), StoreError>

  const DONE: Status := Ok(())

  /** A method that should have outcome `spec` from `before` reports `r` and leaves `after`. */
  ghost predicate Performs(spec: Outcome, before: StoreState, r: Status, after: StoreState) {
    match spec
    case Ok(next) => r == DONE && after == next
    case Err(e) => r == Err(e) && after == before
  }

  class Store {
    var templates: map<Name, PrefixTemplate>
    var fixed: map<Name, FixedAddress>
    var addresses: map<Address, CanonicalAddress>
    var pools: map<Name, Pool>
    var nextBatch: nat
    var nextAddresses: map<Prefix, Address>

    ghost function View(): StoreState
      reads this
    {
      StoreState(templates, fixed, addresses, pools, nextBatch, nextAddresses)
    }

    constructor NewStore()
      ensures View() == EMPTY_STORE
    {
      templates, fixed, addresses, pools, nextBatch, nextAddresses := map[], map[], map[], map[], 0, map[];
    }

    /** `ValidateTemplateSet` over the templates in the order the map yields them, then the insertion. */
    method AddTemplate(template: PrefixTemplate) returns (r: Status)
      requires TemplatesOk(templates)
      modifies this
      ensures r.Ok? <==> Admissible(old(View()), template)
      ensures r.Ok? <==>
                && template.name !in old(templates)
                && forall n, a: Address :: n in old(templates) && old(templates)[n].prefix.Contains(a) ==>
                                             !template.prefix.Contains(a)
      ensures View() == if r.Ok? then WithTemplate(old(View()), template) else old(View())
      ensures r == Err(TemplateExists) ==> template.name in old(templates)
      ensures r == Err(TemplateOverlaps) ==>
                exists n :: n in old(templates) && PrefixesOverlap(old(templates)[n].prefix, template.prefix)
      ensures r.Err? ==> r.error.TemplateExists? || r.error.TemplateOverlaps?
    {
      hide TemplatesOk, PrefixesOverlap, Prefix.Contains;
      AdmissibleMeansApart(View(), template);
      NamesAreKeys(templates);
      var pending := templates.Keys;
      while pending != {}
        invariant pending <= templates.Keys
        invariant forall n :: n in templates && n !in pending ==>
                  n != template.name && !PrefixesOverlap(templates[n].prefix, template.prefix)
        decreases |pending|
      {
        var n :| n in pending;
        if templates[n].name == template.name { return Err(TemplateExists); }
        if PrefixesOverlap(templates[n].prefix, template.prefix) { return Err(TemplateOverlaps); }
        pending := pending - {n};
      }
      templates := templates[template.name := template];
      return DONE;
    }

    /** The fixed entries and pools that use a template. */
    method TemplateReferences(name: Name) returns (references: seq<Name>)
      ensures references != [] <==> TemplateInUse(View(), name)
    {
      references := [];
      var pending := fixed.Keys;
      while pending != {}
        invariant pending <= fixed.Keys
        invariant references != [] <==> exists n :: n in fixed && n !in pending && fixed[n].template == name
        decreases |pending|
      {
        var n :| n in pending;
        pending := pending - {n};
        if fixed[n].template == name {
          references := references + ["fixed:" + n];
        }
      }
      ghost var byFixed := references != [];
      pending := pools.Keys;
      while pending != {}
        invariant pending <= pools.Keys
        invariant references != [] <==> byFixed || exists n :: n in pools && n !in pending && pools[n].template == name
        decreases |pending|
      {
        var n :| n in pending;
        pending := pending - {n};
        if pools[n].template == name {
          references := references + ["pool:" + n];
        }
      }
    }

    method DeleteTemplate(name: Name) returns (r: Status)
      modifies this
      ensures Performs(StoreModel.DeleteTemplate(old(View()), name), old(View()), r, View())
      ensures r.Ok? <==>
                && name in old(templates) && (forall f :: f in old(fixed) ==> old(fixed)[f].template != name)
                && (forall p :: p in old(pools) ==> old(pools)[p].template != name)
    {
      DeleteTemplateAnswers(View(), name);
      if name !in templates { return Err(TemplateMissing); }
      var references := TemplateReferences(name);
      if references != [] { return Err(TemplateReferenced); }
      nextAddresses := nextAddresses - {templates[name].prefix};
      templates := templates - {name};
      return DONE;
    }

    method CreateFixedAddress(name: Name, templateName: Name, address: Address, ownership: Ownership)
      returns (r: Status)
      modifies this
      ensures Performs(StoreModel.CreateFixedAddress(old(View()), name, templateName, address, ownership),
                       old(View()), r, View())
      ensures r.Ok? <==>
                && name != "" && name !in old(fixed) && templateName in old(templates)
                && old(templates)[templateName].prefix.Contains(address) && address !in old(addresses)
                && ownership == OwnershipForMode(old(templates)[templateName].mode)
    {
      CreateFixedAddressAnswers(View(), name, templateName, address, ownership);
      if name == "" { return Err(FixedNameRequired); }
      if name in fixed { return Err(FixedExists); }
      if templateName !in templates { return Err(TemplateMissing); }
      var template := templates[templateName];
      if !template.prefix.Contains(address) { return Err(AddressOutsideTemplate); }
      if !ValidOwnership(ownership) { return Err(UnsupportedOwnership); }
      if ownership != OwnershipForMode(template.mode) { return Err(OwnershipMismatch); }
      if address in addresses { return Err(AddressExists); }
      fixed := fixed[name := FixedAddress(name, templateName, address, ownership)];
      addresses := addresses[address := CanonicalAddress(address, templateName, ownership, 1)];
      return DONE;
    }

    method DeleteFixedAddress(name: Name) returns (r: Status)
      requires Valid(View())
      modifies this
      ensures Performs(StoreModel.DeleteFixedAddress(old(View()), name), old(View()), r, View())
      ensures r.Ok? <==>
                && name in old(fixed)
                && forall p :: p in old(pools) ==> old(fixed)[name].address !in Held(old(pools)[p])
    {
      hide Valid, Held;
      DeleteFixedAddressAnswers(View(), name);
      FixedIsKnown(View());
      if name !in fixed { return Err(FixedMissing); }
      var address := fixed[name].address;
      if addresses[address].references > 1 { return Err(FixedReferenced); }
      addresses := addresses - {address};
      fixed := fixed - {name};
      return DONE;
    }

    method ResolvePinned(templateName: Name, names: seq<Name>) returns (r: Result<seq<Address>, StoreError>)
      ensures r == StoreModel.ResolvePinned(View(), templateName, names)
    {
      var resolved: seq<Address> := [];
      var seen: set<Address> := {};
      for i := 0 to |names|
        invariant StoreModel.ResolvePinned(View(), templateName, names[..i]) == Ok(resolved)
        invariant seen == Elements(resolved)
      {
        var name := names[i];
        ResolveStep(View(), templateName, names, i);
        if name !in fixed { ResolveFails(View(), templateName, names, i + 1); return Err(PinnedMissing); }
        if fixed[name].template != templateName {
          ResolveFails(View(), templateName, names, i + 1); return Err(PinnedOtherTemplate);
        }
        if fixed[name].address in seen { ResolveFails(View(), templateName, names, i + 1); return Err(PinnedTwice); }
        seen := seen + {fixed[name].address};
        resolved := resolved + [fixed[name].address];
      }
      assert names[..|names|] == names;
      return Ok(resolved);
    }

    /** Resumes at the remembered position and moves it past the last address generated. */
    method GenerateAutomatic(templateName: Name, count: int) returns (r: Result<seq<Address>, StoreError>)
      requires templateName in templates && Canonical(templates[templateName]) && count <= MAX_POOL_SIZE
      modifies this`nextAddresses
      ensures match Generate(old(View()), templateName, count)
              case Some(generated) => r == Ok(generated)
              && nextAddresses == Advance(old(View()), templateName, generated)
              case None => r == Err(NotEnoughAddresses) && nextAddresses == old(nextAddresses)
    {
      if count <= 0 { return Ok([]); }
      var prefix := templates[templateName].prefix;
      CanonicalPrefix(templates[templateName]);
      var start := if prefix in nextAddresses then Some(nextAddresses[prefix]) else None;
      var generated := GenerateAddressesFrom(prefix, count, addresses.Keys, start);
      if generated.Err? { return Err(NotEnoughAddresses); }
      WalkForIsTheWalk(prefix, Begin(prefix, CursorOf(View(), prefix)), addresses.Keys, generated.value);
      nextAddresses := nextAddresses[prefix := NextWithin(prefix, generated.value[|generated.value| - 1])];
      return Ok(generated.value);
    }

    method CreatePool(name: Name, kind: PoolKind, templateName: Name, capacity: int, pinnedNames: seq<Name>)
      returns (r: Status)
      requires Valid(View())
      modifies this
      ensures Performs(StoreModel.CreatePool(old(View()), name, kind, templateName, capacity, pinnedNames),
                       old(View()), r, View())
      ensures r.Ok? <==>
                && name != "" && name !in old(pools) && !kind.OtherPoolKind? && templateName in old(templates)
                && 1 <= capacity <= MAX_POOL_SIZE && |pinnedNames| <= capacity
                && (forall i: nat :: i < |pinnedNames| ==> Pinnable(old(View()), templateName, pinnedNames, i))
                && capacity - |pinnedNames|
                   <= |FreeAddresses(old(templates)[templateName].prefix, old(addresses).Keys)|
    {
      hide TemplatesOk, CursorsOk, AddressesOk, FixedOk, PoolsOk, BatchesOk, ReferencesOk;
      hide Generate, Advance, Allocate, Reference, Canonical, StoreModel.ResolvePinned, FixedUses, Distinct;
      hide Pinnable, FreeAddresses;
      CreatePoolAnswers(View(), name, kind, templateName, capacity, pinnedNames);
      if name == "" { return Err(PoolNameRequired); }
      if name in pools { return Err(PoolExists); }
      if !ValidPoolKind(kind) { return Err(UnsupportedPoolKind); }
      if templateName !in templates { return Err(TemplateMissing); }
      if capacity < 1 || capacity > MAX_POOL_SIZE { return Err(BadCapacity); }
      var resolved := ResolvePinned(templateName, pinnedNames);
      if resolved.Err? { return Err(resolved.error); }
      var pinned := resolved.value;
      if |pinned| > capacity { return Err(TooManyPinned); }
      ghost var before := View();
      TemplateIsCanonical(before, templateName);
      var generated := GenerateAutomatic(templateName, capacity - |pinned|);
      if generated.Err? { return Err(NotEnoughAddresses); }
      var automatic := generated.value;
      ResolvedPinnedAreFixed(before, templateName, pinnedNames);
      AddReferences(pinned);
      AddAutomatic(before.(addresses := addresses), templateName, automatic);
      pools := pools[name := Pool(name, kind, templateName, capacity, pinned, pinned + automatic, [])];
      return DONE;
    }

    method AddReferences(pinned: seq<Address>)
      requires Distinct(pinned) && forall a :: a in pinned ==> a in addresses
      modifies this`addresses
      ensures addresses == Reference(old(addresses), pinned)
    {
      for i := 0 to |pinned|
        invariant addresses.Keys == old(addresses).Keys
        invariant addresses == Reference(old(addresses), pinned[..i])
      {
        ReferenceStep(old(addresses), pinned, i);
        var canonical := addresses[pinned[i]];
        addresses := addresses[pinned[i] := canonical.(references := canonical.references + 1)];
      }
      assert pinned[..|pinned|] == pinned;
    }

    method AddAutomatic(ghost before: StoreState, templateName: Name, automatic: seq<Address>)
      requires templateName in templates && before.templates == templates && before.addresses == addresses
      modifies this`addresses
      ensures addresses == Allocate(before, templateName, automatic)
    {
      hide Allocate;
      AllocateNothing(before, templateName);
      var template := templates[templateName];
      for i := 0 to |automatic|
        invariant addresses == Allocate(before, templateName, automatic[..i])
      {
        AllocateStep(before, templateName, automatic, i);
        addresses := addresses[automatic[i] := CanonicalAddress(automatic[i], templateName,
                                                                OwnershipForMode(template.mode), 1)];
      }
      assert automatic[..|automatic|] == automatic;
    }

    method RefreshPool(name: Name) returns (r: Status)
      requires Valid(View())
      modifies this
      ensures name in old(pools) ==> old(pools)[name].template in old(templates)
      ensures Performs(StoreModel.RefreshPool(old(View()), name), old(View()), r, View())
      ensures r.Ok? <==>
                && name in old(pools)
                && var p := old(pools)[name];
                p.capacity - |p.pinned| <= |FreeAddresses(old(templates)[p.template].prefix, old(addresses).Keys)|
    {
      hide TemplatesOk, CursorsOk, AddressesOk, FixedOk, PoolsOk, BatchesOk, ReferencesOk, PoolShape, PoolBacked, Held;
      hide Generate, Advance, Allocate, Canonical, FreeAddresses;
      RefreshPoolAnswers(View(), name);
      if name !in pools { return Err(PoolMissing); }
      var pool := pools[name];
      ghost var before := View();
      PoolFacts(before, name);
      RefreshIsSmall(pool);
      var generated := GenerateAutomatic(pool.template, pool.capacity - |pool.pinned|);
      if generated.Err? { return Err(NotEnoughAddresses); }
      var automatic := generated.value;
      var retired := ListDifference(pool.active, pool.pinned);
      AddAutomatic(before, pool.template, automatic);
      pool := pool.(active := pool.pinned + automatic);
      if |retired| > 0 {
        nextBatch := (nextBatch + 1) % UINT64_LIMIT;
        pool := pool.(draining := pool.draining + [DrainBatch(DrainId(nextBatch), retired)]);
      }
      pools := pools[name := pool];
      return DONE;
    }

    method DeletePool(name: Name) returns (r: Status)
      requires Valid(View())
      modifies this
      ensures Performs(StoreModel.DeletePool(old(View()), name), old(View()), r, View())
      ensures r.Ok? <==> name in old(pools)
    {
      hide TemplatesOk, CursorsOk, AddressesOk, FixedOk, PoolsOk, BatchesOk, ReferencesOk, PoolShape, PoolBacked, Held;
      hide Release;
      if name !in pools { return Err(PoolMissing); }
      ghost var before := View();
      var pool := pools[name];
      PoolFacts(before, name);
      var releases := PoolReleases(pool);
      var consistent := CanRelease(name, releases);
      if !consistent { return Err(InconsistentOwnership); }
      ApplyReleases(name, releases);
      pools := pools - {name};
      return DONE;
    }

    method CanRelease(name: Name, releases: map<Address, int>) returns (consistent: bool)
      requires Valid(View()) && name in pools
      requires releases.Keys == Held(pools[name]) && forall a :: a in releases ==> releases[a] == 1
      ensures consistent
    {
      hide Valid, Held;
      var pending := releases.Keys;
      while pending != {}
        invariant pending <= releases.Keys
        decreases |pending|
      {
        var address :| address in pending;
        HeldIsReleasable(View(), name, address);
        if address !in addresses || addresses[address].references < releases[address] { return false; }
        pending := pending - {address};
      }
      return true;
    }

    method ApplyReleases(name: Name, releases: map<Address, int>)
      requires Valid(View()) && name in pools
      requires releases.Keys == Held(pools[name]) && forall a :: a in releases ==> releases[a] == 1
      modifies this`addresses
      ensures addresses == Release(old(addresses), releases.Keys)
    {
      hide Valid, Release, Held;
      var pending := releases.Keys;
      ReleaseNothing(addresses);
      assert releases.Keys - pending == {};
      while pending != {}
        invariant pending <= releases.Keys
        invariant addresses == Release(old(addresses), releases.Keys - pending)
        decreases |pending|
      {
        var address :| address in pending;
        HeldIsReleasable(old(View()), name, address);
        ReleaseOneMore(old(addresses), releases.Keys - pending, address);
        var canonical := addresses[address].(references := addresses[address].references - releases[address]);
        if canonical.references == 0 {
          addresses := addresses - {address};
        } else {
          addresses := addresses[address := canonical];
        }
        assert releases.Keys - (pending - {address}) == (releases.Keys - pending) + {address};
        pending := pending - {address};
      }
      assert releases.Keys - {} == releases.Keys;
    }

    method CompleteDrain(poolName: Name, batchId: string) returns (r: Status)
      requires Valid(View())
      modifies this
      ensures Performs(StoreModel.CompleteDrain(old(View()), poolName, batchId), old(View()), r, View())
      ensures r.Ok? <==>
                && poolName in old(pools)
                && exists i :: 0 <= i < |old(pools)[poolName].draining|
                               && old(pools)[poolName].draining[i].id == batchId
    {
      hide TemplatesOk, CursorsOk, AddressesOk, FixedOk, PoolsOk, BatchesOk, ReferencesOk, PoolShape, PoolBacked, Held;
      hide Release, Flat, Distinct;
      if poolName !in pools { return Err(PoolMissing); }
      var pool := pools[poolName];
      ghost var before := View();
      PoolFacts(before, poolName);
      for i := 0 to |pool.draining|
        invariant i <= BatchIndex(pool.draining, batchId)
        invariant View() == before
      {
        var batch := pool.draining[i];
        if batch.id != batchId { continue; }
        assert i == BatchIndex(pool.draining, batchId);
        ReleaseBatch(before, poolName, i);
        pools := pools[poolName := pool.(draining := pool.draining[..i] + pool.draining[i + 1..])];
        return DONE;
      }
      return Err(BatchMissing);
    }

    /** Every address of one draining batch loses its reference. */
    method ReleaseBatch(ghost before: StoreState, poolName: Name, i: nat)
      requires Valid(before) && View() == before && poolName in pools && i < |pools[poolName].draining|
      modifies this`addresses
      ensures addresses == Release(before.addresses, Elements(pools[poolName].draining[i].addresses))
    {
      hide Valid, PoolShape, PoolBacked, Held, Release, Flat, Distinct, Elements;
      var batch := pools[poolName].draining[i];
      PoolFacts(before, poolName);
      ReleaseNothing(before.addresses);
      NoElements(batch.addresses[..0]);
      for k := 0 to |batch.addresses|
        invariant addresses == Release(before.addresses, Elements(batch.addresses[..k]))
      {
        var address := batch.addresses[k];
        DrainingIsHeld(pools[poolName], i, k);
        HeldIsReleasable(before, poolName, address);
        ElementsStep(batch.addresses, k);
        NotYetReleased(batch.addresses, k);
        ReleaseOneMore(before.addresses, Elements(batch.addresses[..k]), address);
        if address !in addresses { continue; }
        addresses := addresses[address := addresses[address].(references := addresses[address].references - 1)];
        if addresses[address].references == 0 {
          addresses := addresses - {address};
        }
      }
      assert batch.addresses[..|batch.addresses|] == batch.addresses;
    }

    method ReleaseReference(address: Address)
      requires address in addresses
      modifies this`addresses
      ensures addresses == Release(old(addresses), {address})
    {
      addresses := addresses[address := addresses[address].(references := addresses[address].references - 1)];
      if addresses[address].references == 0 {
        addresses := addresses - {address};
      }
    }

    /** `completed` tells whether the address was the last of its batch. */
    method CompleteDrainedAddress(poolName: Name, address: Address) returns (completed: bool, r: Status)
      requires Valid(View())
      modifies this
      ensures Performs(StoreModel.CompleteDrainedAddress(old(View()), poolName, address), old(View()), r, View())
      ensures r.Ok? <==>
                && poolName in old(pools)
                && exists i :: 0 <= i < |old(pools)[poolName].draining|
                               && address in old(pools)[poolName].draining[i].addresses
      ensures completed <==> r.Ok? && |pools[poolName].draining| < |old(pools)[poolName].draining|
    {
      hide TemplatesOk, CursorsOk, AddressesOk, FixedOk, PoolsOk, BatchesOk, ReferencesOk, PoolShape, PoolBacked, Held;
      hide Release;
      completed := false;
      if poolName !in pools { return false, Err(PoolMissing); }
      var pool := pools[poolName];
      ghost var before := View();
      PoolFacts(before, poolName);
      hide WithoutDraining, Without, Flat;
      for b := 0 to |pool.draining|
        invariant View() == before
        invariant forall j :: 0 <= j < b ==> address !in pool.draining[j].addresses
      {
        var batch := pool.draining[b];
        for k := 0 to |batch.addresses|
          invariant View() == before
          invariant address !in batch.addresses[..k]
        {
          if batch.addresses[k] != address { continue; }
          DrainingIsHeld(pool, b, k);
          HeldIsReleasable(before, poolName, address);
          if address !in addresses || addresses[address].references < 1 { return false, Err(InconsistentOwnership); }
          ReleaseReference(address);
          var rest := batch.addresses[..k] + batch.addresses[k + 1..];
          WithoutDrainingAt(pool.draining, b, k, address);
          if |rest| == 0 {
            pools := pools[poolName := pool.(draining := pool.draining[..b] + pool.draining[b + 1..])];
            return true, DONE;
          }
          pools := pools[poolName := pool.(draining := pool.draining[b := batch.(addresses := rest)])];
          return false, DONE;
        }
        assert batch.addresses[..|batch.addresses|] == batch.addresses;
      }
      NotInAnyBatch(pool.draining, address);
      return false, Err(NotDraining);
    }
  }

  // ---- loops over values ----

  method ListDifference(addresses: seq<Address>, excluded: seq<Address>) returns (result: seq<Address>)
    ensures result == Difference(addresses, excluded)
  {
    var skip := set a | a in excluded;
    result := [];
    for i := 0 to |addresses|
      invariant result == Difference(addresses[..i], excluded)
    {
      assert addresses[..i + 1][..i] == addresses[..i];
      if addresses[i] !in skip {
        result := result + [addresses[i]];
      }
    }
    assert addresses[..|addresses|] == addresses;
  }

  /** A map lookup that reads a missing key as zero. */
  function CountOf(counts: map<Address, int>, a: Address): int {
    if a in counts then counts[a] else 0
  }

  /** Each listed address is counted exactly once. */
  ghost predicate CountedOnce(releases: map<Address, int>, addresses: seq<Address>) {
    releases.Keys == Elements(addresses) && forall a :: a in releases ==> releases[a] == 1
  }

  method CountReleases(releases: map<Address, int>, addresses: seq<Address>, ghost counted: seq<Address>)
    returns (result: map<Address, int>)
    requires CountedOnce(releases, counted) && Distinct(counted + addresses)
    ensures CountedOnce(result, counted + addresses)
  {
    result := releases;
    assert counted + addresses[..0] == counted;
    for i := 0 to |addresses|
      invariant CountedOnce(result, counted + addresses[..i])
    {
      var a := addresses[i];
      assert a !in counted + addresses[..i] by {
        assert (counted + addresses)[|counted| + i] == a;
        assert forall j :: 0 <= j < |counted| + i ==> (counted + addresses[..i])[j] == (counted + addresses)[j];
      }
      result := result[a := CountOf(result, a) + 1];
      assert counted + addresses[..i + 1] == counted + addresses[..i] + [a];
    }
    assert addresses[..|addresses|] == addresses;
  }

  /** How often a pool references each of its addresses: once each. */
  method PoolReleases(pool: Pool) returns (releases: map<Address, int>)
    requires PoolShape(pool)
    ensures releases.Keys == Held(pool) && forall a :: a in releases ==> releases[a] == 1
  {
    DeletionCountsOnce(pool);
    hide PoolShape, Distinct, Held, Flat, Difference;
    var automatic := ListDifference(pool.active, pool.pinned);
    releases := CountReleases(map[], pool.pinned, []);
    releases := CountReleases(releases, automatic, pool.pinned);
    ghost var counted := pool.pinned + automatic;
    FlatOfNothing(pool.draining);
    assert counted + Flat(pool.draining[..0]) == counted;
    for i := 0 to |pool.draining|
      invariant CountedOnce(releases, counted + Flat(pool.draining[..i]))
    {
      FlatPrefixIsDistinct(counted, pool.draining, i);
      releases := CountReleases(releases, pool.draining[i].addresses, counted + Flat(pool.draining[..i]));
      assert counted + Flat(pool.draining[..i]) + pool.draining[i].addresses == counted + Flat(pool.draining[..i + 1]);
    }
    assert pool.draining[..|pool.draining|] == pool.draining;
  }

  // ---- lemmas for the methods ----

  lemma FixedIsKnown(s: StoreState)
    requires Valid(s)
    ensures forall n :: n in s.fixed ==> s.fixed[n].address in s.addresses
  {
    hide TemplatesOk, CursorsOk, AddressesOk, PoolsOk, BatchesOk, ReferencesOk, Blank;
  }

  lemma NamesAreKeys(templates: map<Name, PrefixTemplate>)
    requires TemplatesOk(templates)
    ensures forall n :: n in templates ==> templates[n].name == n
  {
    hide PrefixesOverlap, Canonical;
  }

  lemma AdmissibleMeansApart(s: StoreState, t: PrefixTemplate)
    ensures Admissible(s, t) <==>
              && t.name !in s.templates
              && forall n, a: Address :: n in s.templates && s.templates[n].prefix.Contains(a) ==> !t.prefix.Contains(a)
  {
    hide PrefixesOverlap, Prefix.Contains;
    forall n | n in s.templates
      ensures PrefixesOverlap(s.templates[n].prefix, t.prefix) <==>
                exists a: Address :: s.templates[n].prefix.Contains(a) && t.prefix.Contains(a)
    {
      OverlapMeansSharedAddress(s.templates[n].prefix, t.prefix);
    }
  }

  lemma NotYetReleased(addresses: seq<Address>, k: nat)
    requires k < |addresses| && addresses[k] !in addresses[..k]
    ensures addresses[k] !in Elements(addresses[..k])
  {
  }

  lemma DrainingIsHeld(p: Pool, i: nat, k: nat)
    requires PoolShape(p) && i < |p.draining| && k < |p.draining[i].addresses|
    ensures p.draining[i].addresses[k] in Held(p) && p.draining[i].addresses[k] in Draining(p)
    ensures p.draining[i].addresses[k] !in p.draining[i].addresses[..k]
  {
    var batch := p.draining[i].addresses;
    FlatAround(p.draining, i);
    DistinctParts(Flat(p.draining[..i]), batch, Flat(p.draining[i + 1..]));
  }

  lemma RefreshIsSmall(p: Pool)
    requires PoolShape(p)
    ensures p.capacity - |p.pinned| <= MAX_POOL_SIZE
  {
  }

  lemma TemplateIsCanonical(s: StoreState, n: Name)
    requires TemplatesOk(s.templates) && n in s.templates
    ensures Canonical(s.templates[n])
  {
    hide Canonical, PrefixesOverlap;
  }

  lemma HeldIsReleasable(s: StoreState, n: Name, a: Address)
    requires Valid(s) && n in s.pools && a in Held(s.pools[n])
    ensures a in s.addresses && s.addresses[a].references >= 1
  {
    hide TemplatesOk, CursorsOk, FixedOk, BatchesOk, PoolShape, Held;
    assert PoolBacked(s, s.pools[n]);
    PresentMeansReferenced(s, a);
  }

  lemma PoolFacts(s: StoreState, n: Name)
    requires Valid(s) && n in s.pools
    ensures PoolShape(s.pools[n]) && PoolBacked(s, s.pools[n])
    ensures s.pools[n].template in s.templates && Canonical(s.templates[s.pools[n].template])
  {
    hide Canonical, PoolShape, FixedOk, AddressesOk, CursorsOk, BatchesOk, ReferencesOk;
  }

  lemma CanonicalPrefix(t: PrefixTemplate)
    requires Canonical(t)
    ensures t.prefix.Masked() == t.prefix && t.prefix.IsGlobal()
  {
    MaskedKeepsTheRange(t.prefix);
  }

  lemma ResolveStep(s: StoreState, template: Name, names: seq<Name>, i: nat)
    requires i < |names|
    ensures names[..i + 1][..i] == names[..i] && names[..i + 1][i] == names[i]
  {
  }

  /** A name that cannot be resolved decides the result for every longer list. */
  lemma {:induction false} ResolveFails(s: StoreState, template: Name, names: seq<Name>, i: nat)
    requires i <= |names| && StoreModel.ResolvePinned(s, template, names[..i]).Err?
    ensures StoreModel.ResolvePinned(s, template, names) == StoreModel.ResolvePinned(s, template, names[..i])
    decreases |names|
  {
    if i == |names| {
      assert names[..i] == names;
    } else {
      var shorter := names[..|names| - 1];
      assert shorter[..i] == names[..i];
      ResolveFails(s, template, shorter, i);
    }
  }

  lemma DeletionCountsOnce(p: Pool)
    requires PoolShape(p)
    ensures var all := p.pinned + Difference(p.active, p.pinned) + Draining(p);
      && Distinct(all) && Elements(all) == Held(p)
      && Distinct([] + p.pinned) && [] + p.pinned == p.pinned && Distinct(p.pinned + Difference(p.active, p.pinned))
  {
    var automatic := Difference(p.active, p.pinned);
    DifferenceSubtracts(p.active, p.pinned);
    assert Elements(p.pinned) !! Elements(automatic);
    assert Elements(p.active) == Elements(p.pinned) + Elements(automatic);
    ActiveOfPinnedAndAutomatic(p.pinned, automatic);
    DistinctWhole(p.pinned, automatic, Draining(p));
    assert [] + p.pinned == p.pinned;
    assert Elements(p.pinned + automatic + Draining(p))
           == Elements(p.pinned) + Elements(automatic) + Elements(Draining(p));
  }

  lemma FlatPrefixIsDistinct(counted: seq<Address>, draining: seq<DrainBatch>, i: nat)
    requires i < |draining| && Distinct(counted + Flat(draining))
    ensures Distinct(counted + Flat(draining[..i]) + draining[i].addresses)
    ensures Flat(draining[..i + 1]) == Flat(draining[..i]) + draining[i].addresses
  {
    FlatAround(draining, i);
    FlatOfPrefix(draining, i);
    DistinctStart(counted, Flat(draining[..i]), draining[i].addresses, Flat(draining[i + 1..]));
  }

  lemma DistinctStart<T(!new)>(c: seq<T>, l: seq<T>, m: seq<T>, r: seq<T>)
    requires Distinct(c + (l + m + r))
    ensures Distinct(c + l + m)
  {
    assert c + (l + m + r) == (c + l + m) + r;
    assert forall j :: 0 <= j < |c + l + m| ==> (c + l + m)[j] == ((c + l + m) + r)[j];
  }

  lemma ReferenceStep(addresses: map<Address, CanonicalAddress>, pinned: seq<Address>, i: nat)
    requires i < |pinned| && Distinct(pinned) && forall a :: a in pinned ==> a in addresses
    ensures var before := Reference(addresses, pinned[..i]);
      && pinned[i] in before
      && Reference(addresses, pinned[..i + 1])
      == before[pinned[i] := before[pinned[i]].(references := before[pinned[i]].references + 1)]
  {
    assert pinned[i] !in pinned[..i];
    assert pinned[..i + 1] == pinned[..i] + [pinned[i]];
  }

  lemma AllocateNothing(s: StoreState, template: Name)
    requires template in s.templates
    ensures Allocate(s, template, []) == s.addresses
  {
  }

  lemma AllocateStep(s: StoreState, template: Name, automatic: seq<Address>, i: nat)
    requires template in s.templates && i < |automatic|
    ensures Allocate(s, template, automatic[..i + 1])
         == Allocate(s, template, automatic[..i])[automatic[i] := NewAddress(s, template, automatic[i])]
  {
    hide OwnershipForMode;
    assert automatic[..i + 1] == automatic[..i] + [automatic[i]];
  }

  lemma ReleaseNothing(addresses: map<Address, CanonicalAddress>)
    ensures Release(addresses, {}) == addresses
  {
  }

  /** Releasing one more address is the decrement-and-maybe-delete step of the loops. */
  lemma ReleaseOneMore(addresses: map<Address, CanonicalAddress>, freed: set<Address>, a: Address)
    requires a !in freed && a in addresses
    ensures var released := Release(addresses, freed);
      && a in released && released[a] == addresses[a]
      && Release(addresses, freed + {a}) ==
           if released[a].references == 1 then released - {a}
           else released[a := released[a].(references := released[a].references - 1)]
  {
  }
}
