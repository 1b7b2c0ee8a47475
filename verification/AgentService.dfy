/** `AgentService`: the resource side of applying a document. */
module AgentService {
  import opened Wrappers
  import opened FiniteSets
  import opened Names
  import opened Prefixes
  import opened DrainIds
  import opened StoreModel
  import opened StateDocument
  import opened StoreRuns
  import opened Walk
  import opened DesiredNetwork
  import opened ServiceSteps
  import opened AgentDocument
  import opened AgentPrune
  import opened ResourceService
  import H = Host
  import N = NetworkManager

  // ---- the second check against a snapshot ----

  /** Every list of a saved document indexes back to its table, and repeats no key. */
  lemma DocumentReadsBack(s: StoreState)
    requires Valid(s)
    ensures var d := Saved(s);
      && Index(d.templates, TemplateName) == s.templates && DistinctKeys(d.templates, TemplateName)
      && Index(d.fixed, FixedName) == s.fixed && DistinctKeys(d.fixed, FixedName)
      && Index(d.pools, PoolName) == s.pools && DistinctKeys(d.pools, PoolName)
  {
    hide Valid, Saved, Servable, Index, DistinctKeys;
    ValidIsServable(s);
    TablesReadBack(s);
  }

  method TableOf(list: seq<PrefixTemplate>) returns (m: map<Name, PrefixTemplate>)
    ensures m == Index(list, TemplateName)
  {
    hide Index;
    NoEntries(list, TemplateName);
    m := map[];
    for i := 0 to |list|
      invariant m == Index(list[..i], TemplateName)
    {
      IndexUnfolds(list, TemplateName, i);
      assert TemplateName(list[i]) == list[i].name;
      m := m[list[i].name := list[i]];
    }
    assert list[..|list|] == list;
  }

  /** The fixed entries by name and by address. In a valid snapshot no address occurs twice. */
  method FixedTables(list: seq<FixedAddress>, ghost s: StoreState)
    returns (fixed: map<Name, FixedEntry>, byAddress: map<Address, Name>)
    requires Valid(s) && list == Saved(s).fixed
    ensures fixed == CurrentFixed(s)
    ensures forall n :: n in s.fixed ==> s.fixed[n].address in byAddress && byAddress[s.fixed[n].address] == n
  {
    hide Valid, Saved, FixedKeyed, FixedOk, Index, Servable;
    KeysOf(s);
    DocumentReadsBack(s);
    fixed, byAddress := map[], map[];
    NoEntries(list, FixedName);
    for i := 0 to |list|
      invariant FixedSoFar(s, Index(list[..i], FixedName), fixed, byAddress)
    {
      IndexStep(list, FixedName, i);
      assert FixedName(list[i]) == list[i].name;
      var existing := list[i];
      if existing.address in byAddress {
        FixedAddressIsUnique(s, byAddress[existing.address], existing.name);
        assert false;
      }
      fixed := fixed[existing.name := FixedEntry(existing.template, Some(existing.address))];
      byAddress := byAddress[existing.address := existing.name];
    }
    assert list[..|list|] == list;
  }

  ghost predicate FixedSoFar(s: StoreState, m: map<Name, FixedAddress>, fixed: map<Name, FixedEntry>,
                             byAddress: map<Address, Name>) {
    && fixed.Keys == m.Keys
    && (forall n :: n in m ==> n in s.fixed && m[n] == s.fixed[n])
    && (forall n :: n in m ==> fixed[n] == FixedEntry(m[n].template, Some(m[n].address)))
    && (forall n :: n in m ==> m[n].address in byAddress && byAddress[m[n].address] == n)
    && (forall a :: a in byAddress ==> byAddress[a] in m && m[byAddress[a]].address == a)
  }

  /** The pools as the check compares them: pinned addresses by the names of their fixed entries. */
  method PoolTable(list: seq<Pool>, byAddress: map<Address, Name>, ghost s: StoreState)
    returns (pools: map<Name, PoolEntry>)
    requires Valid(s) && list == Saved(s).pools
    requires forall n :: n in s.pools ==> PinnedFixed(s.fixed, s.pools[n].pinned)
    requires forall n :: n in s.fixed ==> s.fixed[n].address in byAddress && byAddress[s.fixed[n].address] == n
    ensures pools == CurrentPools(s)
  {
    hide Valid, Saved, Index, Servable, PinnedFixed;
    DocumentReadsBack(s);
    pools := map[];
    NoEntries(list, PoolName);
    for i := 0 to |list|
      invariant PoolsSoFar(s, Index(list[..i], PoolName), pools)
    {
      IndexStep(list, PoolName, i);
      assert PoolName(list[i]) == list[i].name;
      var existing := list[i];
      var names := NamesOf(existing.pinned, byAddress, s);
      pools := pools[existing.name := PoolEntry(existing.kind, existing.template, existing.capacity, multiset(names))];
    }
    assert list[..|list|] == list;
    AllPools(s, pools);
  }

  ghost predicate PoolsSoFar(s: StoreState, m: map<Name, Pool>, pools: map<Name, PoolEntry>) {
    && pools.Keys == m.Keys
    && forall n :: n in m ==>
         n in s.pools && m[n] == s.pools[n] && PinnedFixed(s.fixed, m[n].pinned)
         && pools[n] == PoolEntry(m[n].kind, m[n].template, m[n].capacity, multiset(PinnedNames(s.fixed, m[n].pinned)))
  }

  lemma AllPools(s: StoreState, pools: map<Name, PoolEntry>)
    requires forall n :: n in s.pools ==> PinnedFixed(s.fixed, s.pools[n].pinned)
    requires PoolsSoFar(s, s.pools, pools)
    ensures pools == CurrentPools(s)
  {
    hide PinnedFixed, PinnedNames;
  }

  method NamesOf(pinned: seq<Address>, byAddress: map<Address, Name>, ghost s: StoreState) returns (names: seq<Name>)
    requires Valid(s) && PinnedFixed(s.fixed, pinned)
    requires forall n :: n in s.fixed ==> s.fixed[n].address in byAddress && byAddress[s.fixed[n].address] == n
    ensures names == PinnedNames(s.fixed, pinned)
  {
    hide Valid, FixedUses;
    names := [];
    for j := 0 to |pinned|
      invariant |names| == j && forall k :: 0 <= k < j ==> names[k] == NameAt(s.fixed, pinned[k])
    {
      ghost var n := NameAt(s.fixed, pinned[j]);
      names := names + [byAddress[pinned[j]]];
    }
  }

  /** `preflightAgentResources`: no complaint exactly when the document agrees with the current state. */
  method PreflightResources(input: Resources, d: Document, sizes: Sizes, ghost s: StoreState)
    returns (r: Option<Complaint>)
    requires Valid(s) && d == Saved(s)
    ensures r.None? <==> Agrees(input, s, sizes)
  {
    hide Valid, Saved, Index, Servable, TemplatesAgree, FixedAgree, PoolsAgree, TemplatesAfter, FixedAfter;
    hide CurrentFixed, CurrentPools, PinnedFixed;
    PinnedAreFixed(s);
    ValidIsServable(s);
    TablesReadBack(s);
    var current := TableOf(d.templates);
    var complaint, templates := PreflightTemplates(input.templates, current);
    if complaint.Some? { return complaint; }
    var currentFixed, byAddress := FixedTables(d.fixed, s);
    var fixedComplaint, fixed := PreflightFixed(input.fixed, templates, currentFixed);
    if fixedComplaint.Some? { return fixedComplaint; }
    var currentPools := PoolTable(d.pools, byAddress, s);
    r := PreflightPools(input.pools, sizes, templates, fixed, currentPools);
  }

  // ---- creating and pruning through the resource service ----

  datatype Applied' =
    | Complained(complaint: Complaint)
    | CreationFailed
    | PruneStopped(outcome: Outcome')
    | Applied

  class AgentService {
    const resources: ResourceCoordinator

    constructor (resources: ResourceCoordinator)
      ensures this.resources == resources
    {
      this.resources := resources;
    }

    /** Items whose name the snapshot does not know are created in order, and nothing that was there
        changes. However far this gets, a store that is ready to be pruned stays ready. */
    method ApplyResourceCreates(input: Resources, d: Document, sizes: Sizes, ghost s: StoreState) returns (failed: bool)
      requires resources.Consistent() && resources.Accounted()
      requires Agrees(input, s, sizes)
      modifies resources, resources.network.host
      ensures resources.Consistent() && resources.Accounted()
      ensures StaysReady(input, s, old(resources.store.View()), resources.store.View())
      ensures Keeps(old(resources.store.View()), resources.store.View())
      ensures resources.Calm() && old(resources.InStep()) ==> resources.InStep()
      ensures resources.Calm() && old(resources.InStep()) && failed
              && Valid(s) && s == old(resources.store.View()) && d == Saved(s) ==>
                Stuck(input, sizes, s, old(resources.network.host.State()), resources.store.View())
      ensures !failed ==>
                var t := resources.store.View();
                && (forall i :: 0 <= i < |input.templates| && input.templates[i].name !in KnownTemplates(d) ==>
                                  TemplateAdded(old(resources.store.View()), t, input.templates[i]))
                && (forall i :: 0 <= i < |input.fixed| && input.fixed[i].name !in KnownFixed(d) ==>
                                  FixedMade(t, input.fixed[i]))
                && (forall i :: 0 <= i < |input.pools| && input.pools[i].name !in KnownPools(d) ==>
                                  PoolMade(t, input.pools[i], sizes))
    {
      hide Valid, Servable, Agrees, Closed, StaysReady, Keeps, TemplateAdded, FixedMade, PoolMade, Loaded, Saved;
      hide Accepted, N.Realises, N.SameForeign, ResourceCoordinator.InStep, NetworkAddresses, NetworkRoutes;
      hide TemplateStuck, FixedStuck, PoolStuck;
      ghost var start, host := resources.store.View(), resources.network.host.State();
      if Valid(s) && d == Saved(s) { SnapshotNames(d, s); }
      failed := CreateTemplates(input, d, sizes, s);
      if failed { return; }
      ghost var middle, met := resources.store.View(), resources.network.host.State();
      failed := CreateFixed(input, d, sizes, s);
      if resources.Calm() {
        SameStuck(input, s.fixed.Keys, sizes, host, met, resources.store.View());
        ForeignTwice(host, met, resources.network.host.State());
      }
      AddedStays(start, middle, resources.store.View());
      StaysReadyTwice(input, s, start, middle, resources.store.View());
      KeepsTwice(start, middle, resources.store.View());
      if failed { return; }
      ghost var last, now := resources.store.View(), resources.network.host.State();
      failed := CreatePools(input, d, sizes, s);
      if resources.Calm() { SameStuck(input, s.pools.Keys, sizes, host, now, resources.store.View()); }
      AddedStays(start, last, resources.store.View());
      MadeStays(last, resources.store.View());
      StaysReadyTwice(input, s, start, last, resources.store.View());
      KeepsTwice(start, last, resources.store.View());
    }

    method CreateTemplates(input: Resources, d: Document, sizes: Sizes, ghost s: StoreState) returns (failed: bool)
      requires resources.Consistent() && resources.Accounted()
      requires Agrees(input, s, sizes)
      modifies resources, resources.network.host
      ensures resources.Consistent() && resources.Accounted()
      ensures StaysReady(input, s, old(resources.store.View()), resources.store.View())
      ensures Keeps(old(resources.store.View()), resources.store.View())
      ensures resources.Calm() && old(resources.InStep()) ==> resources.InStep()
      ensures resources.Calm() ==> N.SameForeign(old(resources.network.host.State()), resources.network.host.State())
      ensures Valid(old(resources.store.View())) ==> Valid(resources.store.View())
      ensures resources.store.View().fixed == old(resources.store.View().fixed)
      ensures resources.store.View().pools == old(resources.store.View().pools)
      ensures resources.Calm() && Valid(old(resources.store.View())) && failed ==>
                TemplateStuck(input, KnownTemplates(d), old(resources.store.View()),
                              old(resources.network.host.State()), resources.store.View())
      ensures !failed ==> forall i :: 0 <= i < |input.templates| && input.templates[i].name !in KnownTemplates(d) ==>
                TemplateAdded(old(resources.store.View()), resources.store.View(), input.templates[i])
    {
      hide Valid, Servable, Agrees, Closed, StaysReady, Keeps, TemplateAdded, Step, Accepts, Loaded, Saved, Accepted;
      hide StaysLoadable, N.Realises, N.SameForeign, ResourceCoordinator.InStep, NetworkAddresses, NetworkRoutes;
      hide CreatesListed, Canonical, Blank, Unobstructed, TemplatesWithin, TemplateStuck, Creatable;
      var known := KnownTemplates(d);
      ghost var start, host := resources.store.View(), resources.network.host.State();
      SameForeignItself(host);
      StartsWithin(input, start);
      KeepsItself(start);
      StaysReadyItself(input, s, start);
      for i := 0 to |input.templates|
        invariant resources.Consistent() && resources.Accounted() && StaysReady(input, s, start, resources.store.View())
        invariant Keeps(start, resources.store.View())
        invariant resources.Calm() && old(resources.InStep()) ==> resources.InStep()
        invariant resources.Calm() ==> N.SameForeign(host, resources.network.host.State())
        invariant Valid(start) ==> Valid(resources.store.View())
        invariant resources.store.View().fixed == start.fixed && resources.store.View().pools == start.pools
        invariant TemplatesWithin(input, start, resources.store.View(), i)
        invariant forall k :: 0 <= k < i && input.templates[k].name !in known ==>
                  TemplateAdded(start, resources.store.View(), input.templates[k])
      {
        if input.templates[i].name in known {
          StillWithin(input, start, resources.store.View(), i);
          continue;
        }
        TemplateItemIsCreated(input, s, sizes, i);
        var op := AddTemplateOp(Constructed(input.templates[i]).value);
        ghost var before, met := resources.store.View(), resources.network.host.State();
        CreationStaysReady(input, s, before, op);
        ListedIsLoadable(input, before, op);
        var r := resources.Transact(op);
        ForeignTwice(host, met, resources.network.host.State());
        if !r.Committed? {
          if resources.Calm() && Valid(start) {
            NotCreatable(host, met, before, op);
            TemplateIsStuck(input, known, start, host, before, i);
          }
          return true;
        }
        OneMoreWithin(input, start, before, i);
        TemplateIsAdded(start, before, input.templates[i]);
        KeepsTwice(start, before, resources.store.View());
        StaysReadyTwice(input, s, start, before, resources.store.View());
        AddedStays(start, before, resources.store.View());
      }
      return false;
    }

    method CreateFixed(input: Resources, d: Document, sizes: Sizes, ghost s: StoreState) returns (failed: bool)
      requires resources.Consistent() && resources.Accounted()
      requires Agrees(input, s, sizes)
      modifies resources, resources.network.host
      ensures resources.Consistent() && resources.Accounted()
      ensures StaysReady(input, s, old(resources.store.View()), resources.store.View())
      ensures Keeps(old(resources.store.View()), resources.store.View())
      ensures resources.Calm() && old(resources.InStep()) ==> resources.InStep()
      ensures resources.Calm() ==> N.SameForeign(old(resources.network.host.State()), resources.network.host.State())
      ensures Valid(old(resources.store.View())) ==> Valid(resources.store.View())
      ensures resources.store.View().pools == old(resources.store.View().pools)
      ensures resources.Calm() && Valid(old(resources.store.View())) && failed
              && old(resources.store.fixed).Keys == KnownFixed(d) ==>
                FixedStuck(input, KnownFixed(d), old(resources.network.host.State()), resources.store.View())
      ensures !failed ==> forall i :: 0 <= i < |input.fixed| && input.fixed[i].name !in KnownFixed(d) ==>
                FixedMade(resources.store.View(), input.fixed[i])
    {
      hide Valid, Servable, Agrees, Closed, StaysReady, Keeps, FixedMade, Step, Accepts, Loaded, Saved, Accepted;
      hide StaysLoadable, N.Realises, N.SameForeign, ResourceCoordinator.InStep, NetworkAddresses, NetworkRoutes;
      hide CreatesListed, Canonical, Blank, OwnershipForMode, Unobstructed, FixedStuck, FixedBlocked, Creatable;
      hide FreeAddresses, Elements, Distinct;
      var known := KnownFixed(d);
      ghost var start, host, names := resources.store.View(), resources.network.host.State(), FixedNames(input.fixed);
      SameForeignItself(host);
      NoElements(names[..0]);
      AgreeingNames(input, s, sizes);
      KeepsItself(start);
      StaysReadyItself(input, s, start);
      for i := 0 to |input.fixed|
        invariant resources.Consistent() && resources.Accounted() && StaysReady(input, s, start, resources.store.View())
        invariant Keeps(start, resources.store.View())
        invariant resources.Calm() && old(resources.InStep()) ==> resources.InStep()
        invariant resources.Calm() ==> N.SameForeign(host, resources.network.host.State())
        invariant Valid(start) ==> Valid(resources.store.View())
        invariant resources.store.View().pools == start.pools
        invariant resources.store.View().fixed.Keys <= start.fixed.Keys + Elements(FixedNames(input.fixed)[..i])
        invariant forall k :: 0 <= k < i && input.fixed[k].name !in known ==>
                  FixedMade(resources.store.View(), input.fixed[k])
      {
        var item := input.fixed[i];
        ElementsStep(names, i);
        if item.name in known { continue; }
        ghost var before, met := resources.store.View(), resources.network.host.State();
        var r, address := resources.CreateFixedAddress(item.name, item.template, item.address);
        ForeignTwice(host, met, resources.network.host.State());
        if !r.Committed? {
          if resources.Calm() && Valid(start) && start.fixed.Keys == known {
            NotSeen(names, i);
            FixedIsBlocked(host, met, before, item, address);
            FixedIsStuck(input, known, host, before, i);
          }
          return true;
        }
        ghost var op := CreateFixedOp(item.name, item.template, address,
                                      OwnershipForMode(before.templates[item.template].mode));
        FixedItemIsCreated(input, s, sizes, i, address, op.ownership);
        CreationStaysReady(input, s, before, op);
        FixedIsMade(before, item, address, op.ownership);
        KeepsTwice(start, before, resources.store.View());
        StaysReadyTwice(input, s, start, before, resources.store.View());
        MadeStays(before, resources.store.View());
      }
      return false;
    }

    method CreatePools(input: Resources, d: Document, sizes: Sizes, ghost s: StoreState) returns (failed: bool)
      requires resources.Consistent() && resources.Accounted()
      requires Agrees(input, s, sizes)
      modifies resources, resources.network.host
      ensures resources.Consistent() && resources.Accounted()
      ensures StaysReady(input, s, old(resources.store.View()), resources.store.View())
      ensures Keeps(old(resources.store.View()), resources.store.View())
      ensures resources.Calm() && old(resources.InStep()) ==> resources.InStep()
      ensures resources.Calm() ==> N.SameForeign(old(resources.network.host.State()), resources.network.host.State())
      ensures Valid(old(resources.store.View())) ==> Valid(resources.store.View())
      ensures resources.Calm() && Valid(old(resources.store.View())) && failed
              && old(resources.store.pools).Keys == KnownPools(d) ==>
                PoolStuck(input, KnownPools(d), sizes, old(resources.network.host.State()), resources.store.View())
      ensures !failed ==> forall i :: 0 <= i < |input.pools| && input.pools[i].name !in KnownPools(d) ==>
                PoolMade(resources.store.View(), input.pools[i], sizes)
    {
      hide Valid, Servable, Agrees, Closed, StaysReady, Keeps, PoolMade, Step, Accepts, Loaded, Saved, Accepted;
      hide StaysLoadable, N.Realises, N.SameForeign, ResourceCoordinator.InStep, NetworkAddresses, NetworkRoutes;
      hide CreatesListed, Canonical, Blank, Unobstructed, PoolStuck, PoolBlocked, Creatable, HasSize, PoolCapacity;
      hide Elements, Distinct;
      var known := KnownPools(d);
      ghost var start, host, names := resources.store.View(), resources.network.host.State(), PoolNames(input.pools);
      SameForeignItself(host);
      NoElements(names[..0]);
      AgreeingNames(input, s, sizes);
      KeepsItself(start);
      StaysReadyItself(input, s, start);
      for i := 0 to |input.pools|
        invariant resources.Consistent() && resources.Accounted() && StaysReady(input, s, start, resources.store.View())
        invariant Keeps(start, resources.store.View())
        invariant resources.Calm() && old(resources.InStep()) ==> resources.InStep()
        invariant resources.Calm() ==> N.SameForeign(host, resources.network.host.State())
        invariant Valid(start) ==> Valid(resources.store.View())
        invariant resources.store.View().pools.Keys <= start.pools.Keys + Elements(PoolNames(input.pools)[..i])
        invariant forall k :: 0 <= k < i && input.pools[k].name !in known ==>
                  PoolMade(resources.store.View(), input.pools[k], sizes)
      {
        var item := input.pools[i];
        ElementsStep(names, i);
        if item.name in known { continue; }
        PoolItemIsCreated(input, s, sizes, i, PoolCapacity(item, sizes));
        var op := CreatePoolOp(item.name, item.kind, item.template, PoolCapacity(item, sizes), item.pinned);
        ghost var before, met := resources.store.View(), resources.network.host.State();
        CreationStaysReady(input, s, before, op);
        ListedIsLoadable(input, before, op);
        var r := resources.Transact(op);
        ForeignTwice(host, met, resources.network.host.State());
        if !r.Committed? {
          if resources.Calm() && Valid(start) && start.pools.Keys == known {
            NotSeen(names, i);
            NotCreatable(host, met, before, op);
            PoolIsStuck(input, known, s, sizes, host, before, i);
          }
          return true;
        }
        PoolIsMade(before, item, sizes);
        KeepsTwice(start, before, resources.store.View());
        StaysReadyTwice(input, s, start, before, resources.store.View());
        MadeStays(before, resources.store.View());
      }
      return false;
    }

    /** Unlisted pools, then fixed addresses, then templates, and nothing else. The prune finishes only
        when no listed pool uses an unlisted fixed address without pinning it, and a deletion is
        refused only when one does; when no call fails and the host is in step with the store, that
        decides. */
    method PruneResources(input: Resources, d: Document, ghost s: StoreState) returns (stopped: Option<Outcome'>)
      requires resources.Consistent() && resources.Accounted()
      requires d == Saved(s) && Valid(s) && ReadyToPrune(input, s, resources.store.View())
      modifies resources, resources.network.host
      ensures resources.Consistent() && resources.Accounted()
      ensures stopped.Some? ==> !stopped.value.CloneFailed?
      ensures stopped.Some? && stopped.value.Refused? ==> !Unshared(input, old(resources.store.View()))
      ensures stopped.None? ==> Pruned(input, s, resources.store.View()) && Unshared(input, old(resources.store.View()))
      ensures OnlyPruned(input, s, old(resources.store.View()), resources.store.View())
      ensures resources.Calm() && old(resources.InStep()) ==>
                (stopped.None? <==> Unshared(input, old(resources.store.View()))) && resources.InStep()
    {
      hide Valid, Prepared, Unshared, Pruned, OnlyPruned, Saved, ResourceCoordinator.Consistent;
      hide ResourceCoordinator.InStep, ResourceCoordinator.Accounted;
      ghost var t := resources.store.View();
      stopped := PrunePools(input, d.pools, s);
      if stopped.Some? { return; }
      ghost var u := resources.store.View();
      SameSharing(input, s, t, u);
      stopped := PruneFixed(input, d.fixed, s);
      OnlyPrunedTwice(input, s, t, u, resources.store.View());
      if stopped.Some? { return; }
      ghost var v := resources.store.View();
      stopped := PruneTemplates(input, d.templates, s);
      OnlyPrunedTwice(input, s, t, v, resources.store.View());
    }

    /** Pools that disappeared since the snapshot count as pruned. */
    method PrunePools(input: Resources, list: seq<Pool>, ghost s: StoreState) returns (stopped: Option<Outcome'>)
      requires resources.Consistent() && resources.Accounted()
      requires list == Saved(s).pools && Valid(s) && ReadyToPrune(input, s, resources.store.View())
      modifies resources, resources.network.host
      ensures resources.Consistent() && resources.Accounted()
      ensures stopped.Some? ==> !stopped.value.Refused? && !stopped.value.CloneFailed?
      ensures stopped.None? ==>
                ReadyToPrune(input, s, resources.store.View()) && OnlyListedPools(input, resources.store.View())
      ensures resources.store.View().fixed == old(resources.store.View().fixed)
      ensures OnlyPruned(input, s, old(resources.store.View()), resources.store.View())
      ensures resources.Calm() && old(resources.InStep()) ==> stopped.None? && resources.InStep()
    {
      hide Valid, Prepared, OnlyPruned, Saved, Index, Step, Accepts, ListsPool, ResourceCoordinator.Consistent;
      hide ResourceCoordinator.InStep, ResourceCoordinator.Accounted;
      ghost var start := resources.store.View();
      OnlyPrunedItself(input, s, start);
      DocumentReadsBack(s);
      IndexReadsBack(list, PoolName);
      var keep := ListedPoolNames(input);
      var live := resources.store.pools.Keys;
      for i := 0 to |list|
        invariant resources.Consistent() && resources.Accounted() && ReadyToPrune(input, s, resources.store.View())
        invariant forall k :: 0 <= k < i ==>
                  PoolName(list[k]) in keep || PoolName(list[k]) !in resources.store.View().pools
        invariant resources.store.View().pools.Keys <= live
        invariant forall k :: i <= k < |list| && PoolName(list[k]) in live ==>
                  PoolName(list[k]) in resources.store.View().pools || PoolName(list[k]) in keep
        invariant resources.store.View().fixed == start.fixed
        invariant OnlyPruned(input, s, start, resources.store.View())
        invariant resources.Calm() && old(resources.InStep()) ==> resources.InStep()
      {
        var n := PoolName(list[i]);
        if n in keep { continue; }
        if n !in live { continue; }
        ghost var t := resources.store.View();
        PoolDeletionIsLegal(input, t, n, UnlistedPools(input, s), UnlistedFixed(input, s), UnlistedTemplates(input, s));
        PreparedIsSound(input, t, UnlistedPools(input, s), UnlistedFixed(input, s), UnlistedTemplates(input, s));
        DeletePoolKeepsFixed(t, n);
        var r := Delete(DeletePoolOp(n));
        if !r.Committed? { return Some(r); }
        DeletionOnlyPrunes(input, s, t, DeletePoolOp(n));
        OnlyPrunedTwice(input, s, start, t, resources.store.View());
      }
      PoolsAllPruned(input, s, resources.store.View(), list);
      return None;
    }

    method PruneFixed(input: Resources, list: seq<FixedAddress>, ghost s: StoreState)
      returns (stopped: Option<Outcome'>)
      requires resources.Consistent() && resources.Accounted()
      requires list == Saved(s).fixed && Valid(s) && ReadyToPrune(input, s, resources.store.View())
               && OnlyListedPools(input, resources.store.View())
      modifies resources, resources.network.host
      ensures resources.Consistent() && resources.Accounted()
      ensures stopped.Some? ==> !stopped.value.CloneFailed?
      ensures stopped.Some? && stopped.value.Refused? ==> !Unshared(input, old(resources.store.View()))
      ensures stopped.None? ==>
                && Unshared(input, old(resources.store.View()))
                && Prepared(input, resources.store.View(), UnlistedPools(input, s), {}, UnlistedTemplates(input, s))
                && OnlyListedPools(input, resources.store.View())
      ensures OnlyPruned(input, s, old(resources.store.View()), resources.store.View())
      ensures resources.Calm() && old(resources.InStep()) ==>
                (stopped.None? <==> Unshared(input, old(resources.store.View()))) && resources.InStep()
    {
      hide Valid, Prepared, OnlyPruned, Unshared, Unowned, Saved, Index, Step, Accepts, ListsFixed, ListsPool;
      hide ListsTemplate, OnlyListedPools, ResourceCoordinator.Consistent, ResourceCoordinator.InStep;
      hide ResourceCoordinator.Accounted;
      ghost var start := resources.store.View();
      OnlyPrunedItself(input, s, start);
      DocumentReadsBack(s);
      IndexReadsBack(list, FixedName);
      var keep := ListedFixedNames(input);
      ghost var left := UnlistedFixed(input, s);
      for i := 0 to |list|
        invariant resources.Consistent() && resources.Accounted() && OnlyListedPools(input, resources.store.View())
        invariant Prepared(input, resources.store.View(), UnlistedPools(input, s), left, UnlistedTemplates(input, s))
        invariant forall n :: n in left ==> n in s.fixed && forall k :: 0 <= k < i ==> FixedName(list[k]) != n
        invariant forall k :: i <= k < |list| && FixedName(list[k]) !in keep ==> FixedName(list[k]) in left
        invariant resources.store.View().pools == start.pools
        invariant forall f :: f in start.fixed && f !in resources.store.View().fixed ==> Unowned(start, f)
        invariant OnlyPruned(input, s, start, resources.store.View())
        invariant resources.Calm() && old(resources.InStep()) ==> resources.InStep()
      {
        var n := FixedName(list[i]);
        if n in keep {
          KeptIsNotLeft(input, resources.store.View(), n, UnlistedPools(input, s), left, UnlistedTemplates(input, s));
          continue;
        }
        ghost var t := resources.store.View();
        FixedDeletionIsLegal(input, t, n, UnlistedPools(input, s), left, UnlistedTemplates(input, s));
        PreparedIsSound(input, t, UnlistedPools(input, s), left, UnlistedTemplates(input, s));
        SameOwners(input, s, start, t, n);
        var r := Delete(DeleteFixedOp(n));
        if !r.Committed? { return Some(r); }
        DeletionOnlyPrunes(input, s, t, DeleteFixedOp(n));
        OnlyPrunedTwice(input, s, start, t, resources.store.View());
        left := left - {n};
      }
      NoneLeft(left, s.fixed.Keys, list, FixedName);
      NoFixedLeft(input, resources.store.View(), UnlistedPools(input, s), UnlistedTemplates(input, s));
      AllUnowned(input, start, resources.store.View());
      return None;
    }

    method PruneTemplates(input: Resources, list: seq<PrefixTemplate>, ghost s: StoreState)
      returns (stopped: Option<Outcome'>)
      requires resources.Consistent() && resources.Accounted()
      requires list == Saved(s).templates && Valid(s)
      requires Prepared(input, resources.store.View(), UnlistedPools(input, s), {}, UnlistedTemplates(input, s))
               && OnlyListedPools(input, resources.store.View())
      modifies resources, resources.network.host
      ensures resources.Consistent() && resources.Accounted()
      ensures stopped.Some? ==> !stopped.value.Refused? && !stopped.value.CloneFailed?
      ensures stopped.None? ==> Pruned(input, s, resources.store.View())
      ensures OnlyPruned(input, s, old(resources.store.View()), resources.store.View())
      ensures resources.Calm() && old(resources.InStep()) ==> stopped.None? && resources.InStep()
    {
      hide Valid, Prepared, OnlyPruned, Saved, Index, Step, Accepts, ListsFixed, ListsPool, ListsTemplate;
      hide OnlyListedPools, OnlyListedFixed, Pruned, ResourceCoordinator.Consistent, ResourceCoordinator.InStep;
      hide ResourceCoordinator.Accounted;
      ghost var start := resources.store.View();
      OnlyPrunedItself(input, s, start);
      DocumentReadsBack(s);
      IndexReadsBack(list, TemplateName);
      NoFixedLeft(input, resources.store.View(), UnlistedPools(input, s), UnlistedTemplates(input, s));
      var keep := ListedTemplateNames(input);
      ghost var left := UnlistedTemplates(input, s);
      for i := 0 to |list|
        invariant resources.Consistent() && resources.Accounted() && OnlyListedPools(input, resources.store.View())
                  && OnlyListedFixed(input, resources.store.View())
        invariant Prepared(input, resources.store.View(), UnlistedPools(input, s), {}, left)
        invariant forall n :: n in left ==> n in s.templates && forall k :: 0 <= k < i ==> TemplateName(list[k]) != n
        invariant forall k :: i <= k < |list| && TemplateName(list[k]) !in keep ==> TemplateName(list[k]) in left
        invariant forall k :: 0 <= k < i ==>
                  TemplateName(list[k]) in keep || TemplateName(list[k]) !in resources.store.View().templates
        invariant OnlyPruned(input, s, start, resources.store.View())
        invariant resources.Calm() && old(resources.InStep()) ==> resources.InStep()
      {
        var n := TemplateName(list[i]);
        if n in keep {
          KeptIsNotLeft(input, resources.store.View(), n, UnlistedPools(input, s), {}, left);
          continue;
        }
        ghost var t := resources.store.View();
        TemplateDeletionIsLegal(input, t, n, UnlistedPools(input, s), {}, left);
        PreparedIsSound(input, t, UnlistedPools(input, s), {}, left);
        var r := Delete(DeleteTemplateOp(n));
        if !r.Committed? { return Some(r); }
        DeletionOnlyPrunes(input, s, t, DeleteTemplateOp(n));
        OnlyPrunedTwice(input, s, start, t, resources.store.View());
        left := left - {n};
      }
      TemplatesAllPruned(input, s, resources.store.View(), list);
      return None;
    }

    /** A whole document: both checks against one snapshot, the creations, what other parts of the
        program do to the pools meanwhile (`others`), and the prune. */
    method ApplyResources(input: Resources, sizes: Sizes, prune: bool, others: seq<Op>) returns (r: Applied')
      requires resources.Consistent() && resources.Accounted() && Valid(resources.store.View())
      requires (forall op :: op in others ==> Unrelated(op)) && resources.store.nextBatch + |others| < UINT64_LIMIT
      modifies resources, resources.network.host
      ensures resources.Consistent() && resources.Accounted()
      ensures r.Complained? <==> !(prune ==> Closed(input)) || !Agrees(input, old(resources.store.View()), sizes)
      ensures r.Complained? ==>
                && resources.store.View() == old(resources.store.View())
                && resources.network.host.State() == old(resources.network.host.State())
      ensures r.PruneStopped? ==> prune && (r.outcome.Refused? ==> !Unshared(input, old(resources.store.View())))
      ensures r.PruneStopped? && r.outcome.Refused? ==> !Exclusive(old(resources.store.View()))
      ensures r.Applied? && prune ==> Pruned(input, old(resources.store.View()), resources.store.View())
      ensures r.Applied? ==>
                && (forall i :: 0 <= i < |input.templates|
                                && input.templates[i].name !in old(resources.store.templates) ==>
                                  TemplateMade(resources.store.View(), input.templates[i]))
                && (forall i :: 0 <= i < |input.fixed| && input.fixed[i].name !in old(resources.store.fixed) ==>
                                  FixedMade(resources.store.View(), input.fixed[i]))
                && (forall i :: 0 <= i < |input.pools| && input.pools[i].name !in old(resources.store.pools)
                                && DeletePoolOp(input.pools[i].name) !in others ==>
                                  PoolMade(resources.store.View(), input.pools[i], sizes))
      ensures resources.Calm() && old(resources.InStep()) ==>
                && resources.InStep()
                && (r.CreationFailed? ==>
                      Stuck(input, sizes, old(resources.store.View()), old(resources.network.host.State()),
                            resources.store.View()))
                && (r.PruneStopped? ==> !Unshared(input, old(resources.store.View())))
                && (r.Applied? && prune && others == [] ==> Unshared(input, old(resources.store.View())))
    {
      hide Valid, Exclusive, Agrees, Closed, ReadyToPrune, StaysReady, Keeps, OnlyPruned, Pruned, Unshared, FixedMade;
      hide PoolMade, TemplateMade, TemplateAdded, Saved, Accepts, Step, PoolsStay, Stuck;
      hide ResourceCoordinator.Consistent, ResourceCoordinator.InStep, ResourceCoordinator.Accounted;
      ghost var s := resources.store.View();
      ExclusiveUnshared(input, s);
      var d := resources.Snapshot();
      if prune {
        var missing := PreflightPrunedDependencies(input);
        if missing.Some? { return Complained(missing.value); }
      }
      var complaint := PreflightResources(input, d, sizes, s);
      if complaint.Some? { return Complained(complaint.value); }
      if prune { ChecksPrepare(input, s, sizes); }
      var failed := ApplyResourceCreates(input, d, sizes, s);
      if failed { return CreationFailed; }
      ghost var t := resources.store.View();
      SnapshotKnows(d, s, t);
      StaysReadyMeans(input, s, s, t);
      Meanwhile(input, others, prune, s);
      ghost var u := resources.store.View();
      MadeMeanwhile(input, sizes, others, s, t, u);
      AddedIsMade(input, s, u);
      if !prune { return Applied; }
      var stopped := PruneResources(input, d, s);
      ListedStay(input, sizes, s, u, resources.store.View());
      if stopped.Some? { return PruneStopped(stopped.value); }
      return Applied;
    }

    /** Other operations on pools, each of which may fail. */
    method Meanwhile(input: Resources, others: seq<Op>, prune: bool, ghost s: StoreState)
      requires resources.Consistent() && resources.Accounted()
      requires forall op :: op in others ==> Unrelated(op)
      requires prune ==>
                ReadyToPrune(input, s, resources.store.View()) && resources.store.nextBatch + |others| < UINT64_LIMIT
      modifies resources, resources.network.host
      ensures resources.Consistent() && resources.Accounted()
      ensures prune ==> ReadyToPrune(input, s, resources.store.View())
      ensures prune && Unshared(input, old(resources.store.View())) ==> Unshared(input, resources.store.View())
      ensures others == [] ==> resources.store.View() == old(resources.store.View())
      ensures PoolsStay(old(resources.store.View()), resources.store.View(), others)
      ensures resources.Calm() && old(resources.InStep()) ==> resources.InStep()
    {
      hide Valid, ReadyToPrune, Unshared, Accepts, Step, StaysLoadable, Saved, Loaded, Accepted, Servable;
      hide ResourceCoordinator.InStep, N.Realises, N.SameForeign, NetworkAddresses, NetworkRoutes, Unobstructed;
      hide PoolsStay;
      ghost var start := resources.store.View();
      NothingMeanwhile(start, others);
      for i := 0 to |others|
        invariant resources.Consistent() && resources.Accounted()
        invariant prune ==> ReadyToPrune(input, s, resources.store.View())
                            && resources.store.nextBatch + |others| - i < UINT64_LIMIT
        invariant prune && Unshared(input, start) ==> Unshared(input, resources.store.View())
        invariant i == 0 ==> resources.store.View() == start
        invariant PoolsStay(start, resources.store.View(), others)
        invariant resources.Calm() && old(resources.InStep()) ==> resources.InStep()
      {
        assert others[i] in others;
        ghost var t := resources.store.View();
        if prune { UnrelatedKeepsReady(input, s, t, others[i]); }
        PoolsStayOn(start, t, others, others[i]);
        var r := resources.Transact(others[i]);
      }
    }

    /** One deletion: refused only when the store does not accept it, and when no call fails and the
        host is in step, made exactly when it does. */
    method Delete(op: Op) returns (r: Outcome')
      requires resources.Consistent() && resources.Accounted()
      requires Valid(resources.store.View())
      requires op.DeletePoolOp? || op.DeleteFixedOp? || op.DeleteTemplateOp?
      modifies resources, resources.network.host
      ensures resources.Consistent() && resources.Accounted()
      ensures !r.CloneFailed? && (r.Refused? ==> !Accepts(old(resources.store.View()), op))
      ensures r.Committed? ==> Accepts(old(resources.store.View()), op)
                               && resources.store.View() == Step(old(resources.store.View()), op)
      ensures !r.Committed? ==> resources.store.View() == old(resources.store.View())
      ensures resources.Calm() && old(resources.InStep()) ==>
                (r.Committed? <==> Accepts(old(resources.store.View()), op)) && resources.InStep()
    {
      hide Valid, Servable, Step, Accepts, Loaded, Saved, Accepted, StaysLoadable;
      hide N.ForeignAddresses, N.ForeignRoutes, N.Realises, NetworkAddresses, NetworkRoutes, Unobstructed;
      ghost var t := resources.store.View();
      ghost var h := resources.network.host.State();
      if resources.InStep() { DeletionIsUnobstructed(h, t, op); }
      r := resources.Transact(op);
    }
  }

  // ---- what stops a creation when nothing fails ----

  /** The store accepts the operation, and nothing foreign on the host is in its way. */
  ghost predicate Creatable(h: H.HostState, t: StoreState, op: Op) { Accepts(t, op) && Unobstructed(h, Step(t, op)) }

  /** Some template that the snapshot does not know cannot be created, and its name is not there yet,
      unless it was there before or an earlier item has it too. */
  ghost predicate TemplateStuck(input: Resources, known: set<Name>, start: StoreState, h: H.HostState, t: StoreState) {
    exists i :: 0 <= i < |input.templates| && input.templates[i].name !in known
                && Constructed(input.templates[i]).Ok?
                && !Creatable(h, t, AddTemplateOp(Constructed(input.templates[i]).value))
                && TemplateNameTaken(input, start, t, i)
  }

  ghost predicate TemplateNameTaken(input: Resources, start: StoreState, t: StoreState, i: nat)
    requires i < |input.templates| && Constructed(input.templates[i]).Ok?
  {
    var n := Constructed(input.templates[i]).value.name;
    n in t.templates ==> n in start.templates || EarlierTemplate(input, i, n)
  }

  ghost predicate EarlierTemplate(input: Resources, i: nat, n: Name) {
    exists k :: 0 <= k < i && k < |input.templates| && Constructed(input.templates[k]).Ok?
                && Constructed(input.templates[k]).value.name == n
  }

  /** Some fixed address that the snapshot does not know is not there and cannot be created. */
  ghost predicate FixedStuck(input: Resources, known: set<Name>, h: H.HostState, t: StoreState) {
    exists i :: 0 <= i < |input.fixed| && input.fixed[i].name !in known && input.fixed[i].name !in t.fixed
                && FixedBlocked(h, t, input.fixed[i])
  }

  /** The template is missing, no address is free, or the wanted address cannot be had. */
  ghost predicate FixedBlocked(h: H.HostState, t: StoreState, item: FixedItem) {
    if item.template !in t.templates then true
    else
      var own, free := OwnershipForMode(t.templates[item.template].mode),
                       FreeAddresses(t.templates[item.template].prefix, t.addresses.Keys);
      match item.address
      case Some(a) => !Creatable(h, t, CreateFixedOp(item.name, item.template, a, own))
      case None =>
        free == {} || exists a :: a in free && !Creatable(h, t, CreateFixedOp(item.name, item.template, a, own))
  }

  ghost predicate PoolStuck(input: Resources, known: set<Name>, sizes: Sizes, h: H.HostState, t: StoreState) {
    exists i :: 0 <= i < |input.pools| && input.pools[i].name !in known && input.pools[i].name !in t.pools
                && PoolBlocked(h, t, sizes, input.pools[i])
  }

  ghost predicate PoolBlocked(h: H.HostState, t: StoreState, sizes: Sizes, item: PoolItem) {
    forall capacity :: HasSize(item, sizes, capacity) ==>
      !Creatable(h, t, CreatePoolOp(item.name, item.kind, item.template, capacity, item.pinned))
  }

  ghost predicate Stuck(input: Resources, sizes: Sizes, s: StoreState, h: H.HostState, t: StoreState) {
    || TemplateStuck(input, s.templates.Keys, s, h, t)
    || FixedStuck(input, s.fixed.Keys, h, t) || PoolStuck(input, s.pools.Keys, sizes, h, t)
  }

  ghost predicate TemplatesWithin(input: Resources, start: StoreState, t: StoreState, i: nat) {
    forall n :: n in t.templates ==> n in start.templates || EarlierTemplate(input, i, n)
  }

  lemma SameForeignItself(h: H.HostState)
    ensures N.SameForeign(h, h)
  {
  }

  lemma ForeignTwice(f: H.HostState, g: H.HostState, h: H.HostState)
    ensures N.SameForeign(f, g) && N.SameForeign(g, h) ==> N.SameForeign(f, h)
  {
  }

  lemma NotCreatable(h: H.HostState, met: H.HostState, t: StoreState, op: Op)
    requires N.SameForeign(h, met) && !(Accepts(t, op) && Unobstructed(met, Step(t, op)))
    ensures !Creatable(h, t, op)
  {
    hide Accepts, Step, NetworkAddresses, NetworkRoutes, N.ForeignAddresses, N.ForeignRoutes;
  }

  lemma SameCreatable(g: H.HostState, h: H.HostState, t: StoreState, op: Op)
    requires N.SameForeign(g, h)
    ensures Creatable(g, t, op) <==> Creatable(h, t, op)
  {
    hide Accepts, Step, NetworkAddresses, NetworkRoutes, N.ForeignAddresses, N.ForeignRoutes;
  }

  /** What the program itself put on the host meanwhile makes no difference. */
  lemma SameStuck(input: Resources, known: set<Name>, sizes: Sizes, g: H.HostState, h: H.HostState, t: StoreState)
    requires N.SameForeign(g, h)
    ensures FixedStuck(input, known, h, t) ==> FixedStuck(input, known, g, t)
    ensures PoolStuck(input, known, sizes, h, t) ==> PoolStuck(input, known, sizes, g, t)
  {
    hide Creatable, N.SameForeign, FreeAddresses, OwnershipForMode, HasSize;
    forall op { SameCreatable(g, h, t, op); }
    assert forall item :: FixedBlocked(h, t, item) ==> FixedBlocked(g, t, item);
    assert forall item :: PoolBlocked(h, t, sizes, item) ==> PoolBlocked(g, t, sizes, item);
  }

  lemma ListedIsLoadable(input: Resources, t: StoreState, op: Op)
    requires CreatesListed(input, op)
    ensures StaysLoadable(t, op)
  {
    hide Canonical, Blank;
  }

  lemma StartsWithin(input: Resources, start: StoreState)
    ensures TemplatesWithin(input, start, start, 0)
  {
  }

  lemma StillWithin(input: Resources, start: StoreState, t: StoreState, i: nat)
    requires TemplatesWithin(input, start, t, i)
    ensures TemplatesWithin(input, start, t, i + 1)
  {
    hide Constructed;
    assert forall n :: EarlierTemplate(input, i, n) ==> EarlierTemplate(input, i + 1, n);
  }

  lemma OneMoreWithin(input: Resources, start: StoreState, t: StoreState, i: nat)
    requires TemplatesWithin(input, start, t, i) && i < |input.templates| && Constructed(input.templates[i]).Ok?
    requires Accepts(t, AddTemplateOp(Constructed(input.templates[i]).value))
    ensures var u := Step(t, AddTemplateOp(Constructed(input.templates[i]).value));
      TemplatesWithin(input, start, u, i + 1) && u.fixed == t.fixed && u.pools == t.pools
  {
    hide Constructed, PrefixesOverlap;
    StillWithin(input, start, t, i);
    assert EarlierTemplate(input, i + 1, Constructed(input.templates[i]).value.name);
  }

  lemma TemplateIsStuck(input: Resources, known: set<Name>, start: StoreState, h: H.HostState, t: StoreState, i: nat)
    requires TemplatesWithin(input, start, t, i) && i < |input.templates| && Constructed(input.templates[i]).Ok?
    requires input.templates[i].name !in known
    requires !Creatable(h, t, AddTemplateOp(Constructed(input.templates[i]).value))
    ensures TemplateStuck(input, known, start, h, t)
  {
    hide Constructed, Creatable, EarlierTemplate;
  }

  lemma AgreeingNames(input: Resources, s: StoreState, sizes: Sizes)
    requires Agrees(input, s, sizes)
    ensures Distinct(FixedNames(input.fixed)) && Distinct(PoolNames(input.pools))
  {
    hide TemplatesAfter, FixedAfter, CurrentFixed, CurrentPools, PinnedFixed, Distinct;
  }

  lemma NotSeen(names: seq<Name>, i: nat)
    requires Distinct(names) && i < |names|
    ensures names[i] !in Elements(names[..i])
  {
  }

  lemma FixedIsBlocked(h: H.HostState, met: H.HostState, t: StoreState, item: FixedItem, address: Address)
    requires N.SameForeign(h, met)
    requires item.template in t.templates ==>
              var free := FreeAddresses(t.templates[item.template].prefix, t.addresses.Keys);
              match item.address
              case Some(a) => address == a
              case None => free != {} ==> address in free
    requires item.template in t.templates ==>
              var op := CreateFixedOp(item.name, item.template, address,
                                      OwnershipForMode(t.templates[item.template].mode));
              || (item.address.None? && FreeAddresses(t.templates[item.template].prefix, t.addresses.Keys) == {})
              || !(Accepts(t, op) && Unobstructed(met, Step(t, op)))
    ensures FixedBlocked(h, t, item)
  {
    hide Accepts, Step, Unobstructed, OwnershipForMode, FreeAddresses, N.SameForeign, Creatable;
    if item.template in t.templates {
      var free := FreeAddresses(t.templates[item.template].prefix, t.addresses.Keys);
      var op := CreateFixedOp(item.name, item.template, address, OwnershipForMode(t.templates[item.template].mode));
      if item.address.Some? || free != {} { NotCreatable(h, met, t, op); }
    }
  }

  lemma FixedIsStuck(input: Resources, known: set<Name>, h: H.HostState, t: StoreState, i: nat)
    requires i < |input.fixed| && input.fixed[i].name !in known && input.fixed[i].name !in t.fixed
    requires FixedBlocked(h, t, input.fixed[i])
    ensures FixedStuck(input, known, h, t)
  {
    hide FixedBlocked;
  }

  lemma PoolIsStuck(input: Resources, known: set<Name>, s: StoreState, sizes: Sizes, h: H.HostState, t: StoreState,
                    i: nat)
    requires Agrees(input, s, sizes)
    requires i < |input.pools| && input.pools[i].name !in known && input.pools[i].name !in t.pools
    requires var item := input.pools[i];
      !Creatable(h, t, CreatePoolOp(item.name, item.kind, item.template, PoolCapacity(item, sizes), item.pinned))
    ensures PoolStuck(input, known, sizes, h, t)
  {
    hide TemplatesAfter, FixedAfter, TemplatesAgree, FixedAgree, CurrentFixed, CurrentPools, PinnedFixed, Blank;
    hide Distinct, PoolCapacity, HasSize, Creatable;
    var item := input.pools[i];
    assert PoolAgrees(item, sizes, TemplatesAfter(input.templates, s.templates),
                      FixedAfter(input.fixed, CurrentFixed(s)), CurrentPools(s));
    forall capacity | HasSize(item, sizes, capacity)
      ensures !Creatable(h, t, CreatePoolOp(item.name, item.kind, item.template, capacity, item.pinned)) {
      CapacityIsTheSize(item, sizes, capacity);
    }
    assert PoolBlocked(h, t, sizes, item);
  }

  lemma SnapshotNames(d: Document, s: StoreState)
    requires Valid(s) && d == Saved(s)
    ensures KnownTemplates(d) == s.templates.Keys && KnownFixed(d) == s.fixed.Keys && KnownPools(d) == s.pools.Keys
  {
    hide Valid, Saved;
    KeepsItself(s);
    SnapshotKnows(d, s, s);
  }

  // ---- what a creation makes ----

  function KnownTemplates(d: Document): set<Name> { set i | 0 <= i < |d.templates| :: d.templates[i].name }

  function KnownFixed(d: Document): set<Name> { set i | 0 <= i < |d.fixed| :: d.fixed[i].name }

  function KnownPools(d: Document): set<Name> { set i | 0 <= i < |d.pools| :: d.pools[i].name }

  /** Every template, fixed address and pool is still there, unchanged. */
  ghost predicate Keeps(before: StoreState, after: StoreState) {
    && after.nextBatch == before.nextBatch
    && (forall n :: n in before.templates ==> n in after.templates && after.templates[n] == before.templates[n])
    && (forall n :: n in before.fixed ==> n in after.fixed && after.fixed[n] == before.fixed[n])
    && (forall n :: n in before.pools ==> n in after.pools && after.pools[n] == before.pools[n])
  }

  /** The store has what the item asks for. */
  ghost predicate TemplateMade(t: StoreState, item: TemplateItem) {
    Constructed(item).Ok? && Constructed(item).value.name in t.templates
    && t.templates[Constructed(item).value.name] == Constructed(item).value
  }

  ghost predicate FixedMade(t: StoreState, item: FixedItem) {
    && item.name in t.fixed && t.fixed[item.name].template == item.template
    && (item.address.Some? ==> t.fixed[item.name].address == item.address.value)
  }

  ghost predicate PoolMade(t: StoreState, item: PoolItem, sizes: Sizes) {
    && item.name in t.pools
    && var p := t.pools[item.name];
    && p.kind == item.kind && p.template == item.template && HasSize(item, sizes, p.capacity)
    && PinsAre(t.fixed, item.pinned, p.pinned)
  }

  /** The pinned addresses are those of the named fixed entries, in order. */
  ghost predicate PinsAre(fixed: map<Name, FixedAddress>, names: seq<Name>, pinned: seq<Address>) {
    && |pinned| == |names|
    && forall j :: 0 <= j < |names| ==> names[j] in fixed && pinned[j] == fixed[names[j]].address
  }

  lemma {:induction false} ResolvedPinsAre(t: StoreState, template: Name, names: seq<Name>)
    requires ResolvePinned(t, template, names).Ok?
    ensures PinsAre(t.fixed, names, ResolvePinned(t, template, names).value)
  {
    if names != [] {
      ResolvedPinsAre(t, template, names[..|names| - 1]);
    }
  }

  lemma KeepsItself(t: StoreState)
    ensures Keeps(t, t)
  {
  }

  lemma KeepsTwice(x: StoreState, y: StoreState, z: StoreState)
    ensures Keeps(x, y) && Keeps(y, z) ==> Keeps(x, z)
  {
  }

  /** The template was not there and is there now as the item defines it. */
  ghost predicate TemplateAdded(before: StoreState, after: StoreState, item: TemplateItem) {
    TemplateMade(after, item) && Constructed(item).value.name !in before.templates
  }

  lemma AddedIsMade(input: Resources, before: StoreState, after: StoreState)
    ensures forall i :: 0 <= i < |input.templates| && TemplateAdded(before, after, input.templates[i]) ==>
              TemplateMade(after, input.templates[i])
  {
    hide Constructed;
  }

  lemma AddedStays(start: StoreState, before: StoreState, after: StoreState)
    requires Keeps(before, after)
    ensures forall item :: TemplateAdded(start, before, item) ==> TemplateAdded(start, after, item)
  {
    hide Constructed;
  }

  lemma MadeStays(before: StoreState, after: StoreState)
    requires Keeps(before, after)
    ensures forall item :: FixedMade(before, item) ==> FixedMade(after, item)
    ensures forall item, sizes :: PoolMade(before, item, sizes) ==> PoolMade(after, item, sizes)
  {
    hide Constructed, PoolCapacity, HasSize;
  }

  lemma TemplateIsAdded(start: StoreState, t: StoreState, item: TemplateItem)
    requires Keeps(start, t) && Constructed(item).Ok? && Accepts(t, AddTemplateOp(Constructed(item).value))
    ensures Keeps(t, Step(t, AddTemplateOp(Constructed(item).value)))
            && TemplateAdded(start, Step(t, AddTemplateOp(Constructed(item).value)), item)
  {
    hide PrefixesOverlap, Constructed;
  }

  lemma FixedIsMade(t: StoreState, item: FixedItem, address: Address, ownership: StoreModel.Ownership)
    requires Accepts(t, CreateFixedOp(item.name, item.template, address, ownership))
             && (item.address.Some? ==> address == item.address.value)
    ensures var u := Step(t, CreateFixedOp(item.name, item.template, address, ownership));
      Keeps(t, u) && FixedMade(u, item) && u.pools == t.pools && u.fixed.Keys == t.fixed.Keys + {item.name}
  {
    hide Prefix.Contains, NewAddress, OwnershipForMode;
  }

  lemma PoolIsMade(t: StoreState, item: PoolItem, sizes: Sizes)
    requires Accepts(t, CreatePoolOp(item.name, item.kind, item.template, PoolCapacity(item, sizes), item.pinned))
    ensures var u := Step(t, CreatePoolOp(item.name, item.kind, item.template, PoolCapacity(item, sizes), item.pinned));
      Keeps(t, u) && PoolMade(u, item, sizes) && u.pools.Keys == t.pools.Keys + {item.name}
  {
    hide ResolvePinned, Generate, Allocate, Advance, Reference, PinsAre, PoolCapacity, HasSize;
    CapacityIsTheSize(item, sizes, PoolCapacity(item, sizes));
    ResolvedPinsAre(t, item.template, item.pinned);
  }

  lemma TemplateItemIsCreated(input: Resources, s: StoreState, sizes: Sizes, i: nat)
    requires Agrees(input, s, sizes) && i < |input.templates|
    ensures Constructed(input.templates[i]).Ok?
            && CreatesListed(input, AddTemplateOp(Constructed(input.templates[i]).value))
  {
    hide TemplatesAfter, FixedAfter, FixedAgree, PoolsAgree, CurrentFixed, CurrentPools, PinnedFixed, NewPrefixTemplate;
    hide Canonical, Distinct;
    var item := input.templates[i];
    ConstructedTemplatesAreCanonical(item.name, item.prefix, item.iface, item.mode);
  }

  lemma FixedItemIsCreated(input: Resources, s: StoreState, sizes: Sizes, i: nat, address: Address,
                           ownership: StoreModel.Ownership)
    requires Agrees(input, s, sizes) && i < |input.fixed|
    ensures !Blank(input.fixed[i].name)
    ensures CreatesListed(input, CreateFixedOp(input.fixed[i].name, input.fixed[i].template, address, ownership))
  {
    hide TemplatesAfter, FixedAfter, TemplatesAgree, PoolsAgree, CurrentFixed, CurrentPools, PinnedFixed, Blank;
    hide Distinct, Prefix.Contains;
    assert FixedAgrees(input.fixed[i], TemplatesAfter(input.templates, s.templates), CurrentFixed(s));
  }

  lemma PoolItemIsCreated(input: Resources, s: StoreState, sizes: Sizes, i: nat, capacity: int)
    requires Agrees(input, s, sizes) && i < |input.pools|
    ensures var item := input.pools[i];
      CreatesListed(input, CreatePoolOp(item.name, item.kind, item.template, capacity, item.pinned))
  {
    hide TemplatesAfter, FixedAfter, TemplatesAgree, FixedAgree, CurrentFixed, CurrentPools, PinnedFixed, Blank;
    hide Distinct, PoolCapacity;
    assert PoolAgrees(input.pools[i], sizes, TemplatesAfter(input.templates, s.templates),
                      FixedAfter(input.fixed, CurrentFixed(s)), CurrentPools(s));
  }

  /** With a closed document: a store that is ready to be pruned stays ready, and whether the prune
      can finish does not change. */
  ghost predicate StaysReady(input: Resources, s: StoreState, before: StoreState, after: StoreState) {
    Closed(input) && ReadyToPrune(input, s, before) ==>
      ReadyToPrune(input, s, after) && (Unshared(input, after) <==> Unshared(input, before))
  }

  lemma StaysReadyMeans(input: Resources, s: StoreState, before: StoreState, after: StoreState)
    requires StaysReady(input, s, before, after)
    ensures Closed(input) && ReadyToPrune(input, s, before) ==>
              ReadyToPrune(input, s, after) && (Unshared(input, after) <==> Unshared(input, before))
  {
    hide ReadyToPrune, Unshared, Closed;
  }

  lemma ExclusiveUnshared(input: Resources, t: StoreState)
    ensures Exclusive(t) ==> Unshared(input, t)
  {
    hide Exclusive, Unshared;
    if Exclusive(t) { ExclusiveIsUnshared(input, t); }
  }

  lemma UnrelatedKeepsReady(input: Resources, s: StoreState, t: StoreState, op: Op)
    requires ReadyToPrune(input, s, t) && Unrelated(op) && t.nextBatch + 1 < UINT64_LIMIT
    ensures ReadyToPrune(input, s, Step(t, op)) && Step(t, op).nextBatch <= t.nextBatch + 1
    ensures Unshared(input, t) ==> Unshared(input, Step(t, op))
  {
    hide Prepared, Step, Unshared, Valid;
    UnrelatedKeepsPrepared(input, t, op, UnlistedPools(input, s), UnlistedFixed(input, s), UnlistedTemplates(input, s));
    PreparedIsSound(input, t, UnlistedPools(input, s), UnlistedFixed(input, s), UnlistedTemplates(input, s));
    BatchCounterStep(t, op);
    if Unshared(input, t) { UnrelatedKeepsUnshared(input, t, op); }
  }

  /** The snapshot knows the names of its store. */
  lemma SnapshotKnows(d: Document, s: StoreState, t: StoreState)
    requires Valid(s) && d == Saved(s) && Keeps(s, t)
    ensures t.nextBatch == s.nextBatch
    ensures KnownTemplates(d) == s.templates.Keys && KnownFixed(d) == s.fixed.Keys && KnownPools(d) == s.pools.Keys
  {
    hide Valid, Saved, Index;
    DocumentReadsBack(s);
    KnowsNames(d.templates, TemplateName);
    KnowsNames(d.fixed, FixedName);
    KnowsNames(d.pools, PoolName);
    assert KnownTemplates(d) == set i | 0 <= i < |d.templates| :: TemplateName(d.templates[i]);
    assert KnownFixed(d) == set i | 0 <= i < |d.fixed| :: FixedName(d.fixed[i]);
    assert KnownPools(d) == set i | 0 <= i < |d.pools| :: PoolName(d.pools[i]);
  }

  lemma KnowsNames<V(!new)>(list: seq<V>, key: V -> Name)
    requires DistinctKeys(list, key)
    ensures (set i | 0 <= i < |list| :: key(list[i])) == Index(list, key).Keys
  {
    hide Index;
    IndexReadsBack(list, key);
  }

  // ---- what was made stays ----

  /** All but pools stays, and a pool that nobody deleted keeps its definition. */
  ghost predicate PoolsStay(before: StoreState, after: StoreState, others: seq<Op>) {
    && after.templates == before.templates && after.fixed == before.fixed
    && forall n :: n in before.pools && DeletePoolOp(n) !in others ==>
                     n in after.pools && SameDefinition(before.pools[n], after.pools[n])
  }

  predicate SameDefinition(p: Pool, q: Pool) {
    q.kind == p.kind && q.template == p.template && q.capacity == p.capacity && q.pinned == p.pinned
  }

  lemma NothingMeanwhile(t: StoreState, others: seq<Op>)
    ensures PoolsStay(t, t, others)
  {
  }

  lemma PoolsStayOn(start: StoreState, t: StoreState, others: seq<Op>, op: Op)
    requires PoolsStay(start, t, others) && op in others && Unrelated(op)
    ensures PoolsStay(start, Step(t, op), others)
  {
    hide Step;
    UnrelatedFrame(t, op);
    forall n | n in start.pools && DeletePoolOp(n) !in others
      ensures n in Step(t, op).pools && SameDefinition(start.pools[n], Step(t, op).pools[n])
    {
      DefinitionStays(t, op, n);
    }
  }

  lemma DefinitionStays(t: StoreState, op: Op, n: Name)
    requires Unrelated(op) && n in t.pools && op != DeletePoolOp(n)
    ensures n in Step(t, op).pools && SameDefinition(t.pools[n], Step(t, op).pools[n])
  {
    hide Release, BatchIndex, WithoutDraining, Generate, Allocate, Advance, Difference, Draining, Held;
  }

  /** What the creations made outlives the others' operations, but for a pool they delete. */
  lemma MadeMeanwhile(input: Resources, sizes: Sizes, others: seq<Op>, start: StoreState, t: StoreState, u: StoreState)
    requires PoolsStay(t, u, others)
    ensures forall i :: 0 <= i < |input.templates| && TemplateAdded(start, t, input.templates[i]) ==>
              TemplateAdded(start, u, input.templates[i])
    ensures forall i :: 0 <= i < |input.fixed| && FixedMade(t, input.fixed[i]) ==> FixedMade(u, input.fixed[i])
    ensures forall i :: (0 <= i < |input.pools| && PoolMade(t, input.pools[i], sizes)
                         && DeletePoolOp(input.pools[i].name) !in others) ==>
              PoolMade(u, input.pools[i], sizes)
  {
    hide Constructed, PoolCapacity, HasSize;
  }

  /** And it outlives the prune: the document lists it, or the snapshot does not know it. */
  lemma ListedStay(input: Resources, sizes: Sizes, s: StoreState, before: StoreState, after: StoreState)
    requires OnlyPruned(input, s, before, after) && Closed(input)
    ensures forall i :: 0 <= i < |input.templates| && TemplateAdded(s, before, input.templates[i]) ==>
              TemplateMade(after, input.templates[i])
    ensures forall i :: 0 <= i < |input.fixed| && FixedMade(before, input.fixed[i]) ==> FixedMade(after, input.fixed[i])
    ensures forall i :: 0 <= i < |input.pools| && PoolMade(before, input.pools[i], sizes) ==>
              PoolMade(after, input.pools[i], sizes)
  {
    hide Constructed, PoolCapacity, ListsTemplate;
    forall i | 0 <= i < |input.pools| && PoolMade(before, input.pools[i], sizes)
      ensures PoolMade(after, input.pools[i], sizes)
    {
      assert ListsPool(input, input.pools[i].name);
      forall j | 0 <= j < |input.pools[i].pinned| ensures input.pools[i].pinned[j] in after.fixed {
        assert ListsFixed(input, input.pools[i].pinned[j]);
      }
    }
  }

  lemma StaysReadyItself(input: Resources, s: StoreState, t: StoreState)
    ensures StaysReady(input, s, t, t)
  {
  }

  lemma StaysReadyTwice(input: Resources, s: StoreState, x: StoreState, y: StoreState, z: StoreState)
    ensures StaysReady(input, s, x, y) && StaysReady(input, s, y, z) ==> StaysReady(input, s, x, z)
  {
    hide ReadyToPrune, Unshared, Closed;
  }

  lemma CreationStaysReady(input: Resources, s: StoreState, t: StoreState, op: Op)
    requires CreatesListed(input, op)
    ensures StaysReady(input, s, t, Step(t, op))
  {
    hide Prepared, Closed, CreatesListed, Step, Unshared, Valid;
    if Closed(input) && ReadyToPrune(input, s, t) {
      CreationKeepsPrepared(input, t, op, UnlistedPools(input, s), UnlistedFixed(input, s),
                            UnlistedTemplates(input, s));
      PreparedIsSound(input, t, UnlistedPools(input, s), UnlistedFixed(input, s), UnlistedTemplates(input, s));
      CreationKeepsUnshared(input, t, op);
    }
  }

  // ---- pruning, phase by phase ----

  /** Only listed pools and fixed addresses are left, and no template of the snapshot that is not listed. */
  ghost predicate Pruned(input: Resources, s: StoreState, t: StoreState) {
    && OnlyListedPools(input, t) && OnlyListedFixed(input, t)
    && forall n :: n in t.templates && n in s.templates ==> ListsTemplate(input, n)
  }

  /** Nothing was added or changed, and what was removed was in the snapshot's store and is not listed. */
  ghost predicate OnlyPruned(input: Resources, s: StoreState, before: StoreState, after: StoreState) {
    && Keeps(after, before)
    && (forall n :: n in before.pools && (ListsPool(input, n) || n !in s.pools) ==> n in after.pools)
    && (forall n :: n in before.fixed && (ListsFixed(input, n) || n !in s.fixed) ==> n in after.fixed)
    && (forall n :: n in before.templates && (ListsTemplate(input, n) || n !in s.templates) ==> n in after.templates)
  }

  lemma OnlyPrunedItself(input: Resources, s: StoreState, t: StoreState)
    ensures OnlyPruned(input, s, t, t)
  {
  }

  lemma OnlyPrunedTwice(input: Resources, s: StoreState, x: StoreState, y: StoreState, z: StoreState)
    ensures OnlyPruned(input, s, x, y) && OnlyPruned(input, s, y, z) ==> OnlyPruned(input, s, x, z)
  {
    hide ListsPool, ListsFixed, ListsTemplate;
  }

  /** Deleting something unlisted. */
  lemma DeletionOnlyPrunes(input: Resources, s: StoreState, t: StoreState, op: Op)
    requires match op
             case DeletePoolOp(n) => !ListsPool(input, n) && n in s.pools
             case DeleteFixedOp(n) => !ListsFixed(input, n) && n in s.fixed
             case DeleteTemplateOp(n) => !ListsTemplate(input, n) && n in s.templates
             case _ => false
    ensures OnlyPruned(input, s, t, Step(t, op))
  {
    hide ListsPool, ListsFixed, ListsTemplate, TemplateInUse, Held, References;
  }

  method ListedPoolNames(input: Resources) returns (names: set<Name>)
    ensures forall n :: n in names <==> ListsPool(input, n)
  {
    names := set i | 0 <= i < |input.pools| :: input.pools[i].name;
  }

  method ListedFixedNames(input: Resources) returns (names: set<Name>)
    ensures forall n :: n in names <==> ListsFixed(input, n)
  {
    names := set i | 0 <= i < |input.fixed| :: input.fixed[i].name;
  }

  method ListedTemplateNames(input: Resources) returns (names: set<Name>)
    ensures forall n :: n in names <==> ListsTemplate(input, n)
  {
    names := set i | 0 <= i < |input.templates| :: input.templates[i].name;
  }

  lemma DeletePoolKeepsFixed(t: StoreState, n: Name)
    ensures Step(t, DeletePoolOp(n)).fixed == t.fixed
  {
    hide Held, Release;
  }

  /** Losing unlisted pools does not change who uses an unlisted fixed address. */
  lemma SameSharing(input: Resources, s: StoreState, x: StoreState, y: StoreState)
    requires OnlyPruned(input, s, x, y) && y.fixed == x.fixed
    ensures Unshared(input, x) <==> Unshared(input, y)
  {
    hide Owned, ListsPool, ListsFixed, ListsTemplate;
  }

  /** What stops the deletion of one fixed address was there from the start. */
  lemma SameOwners(input: Resources, s: StoreState, start: StoreState, t: StoreState, f: Name)
    requires OnlyPruned(input, s, start, t) && t.pools == start.pools && f in t.fixed && OnlyListedPools(input, t)
             && !ListsFixed(input, f)
    ensures f in start.fixed && (Unowned(start, f) <==> Unowned(t, f)) && (Unshared(input, start) ==> Unowned(t, f))
  {
    hide Owned, ListsPool, ListsFixed;
  }

  lemma AllUnowned(input: Resources, start: StoreState, t: StoreState)
    requires OnlyListedFixed(input, t) && forall f :: f in start.fixed && f !in t.fixed ==> Unowned(start, f)
    ensures Unshared(input, start)
  {
    hide Owned, ListsPool, ListsFixed;
  }

  lemma KeptIsNotLeft(input: Resources, t: StoreState, n: Name, pools: set<Name>, fixed: set<Name>,
                      templates: set<Name>)
    requires Prepared(input, t, pools, fixed, templates)
    ensures ListsFixed(input, n) ==> n !in fixed
    ensures ListsTemplate(input, n) ==> n !in templates
  {
    hide Valid, Exclusive, ListsPool, ListsFixed, ListsTemplate, PoolAsListed, FixedAsListed;
  }

  lemma NoneLeft<V>(left: set<Name>, all: set<Name>, list: seq<V>, key: V -> Name)
    requires left <= all && forall n :: n in all ==> exists i :: 0 <= i < |list| && key(list[i]) == n
    requires forall n :: n in left ==> forall k :: 0 <= k < |list| ==> key(list[k]) != n
    ensures left == {}
  {
    forall n | n in all ensures n !in left {
      var i :| 0 <= i < |list| && key(list[i]) == n;
    }
  }

  lemma NoFixedLeft(input: Resources, t: StoreState, pools: set<Name>, templates: set<Name>)
    requires Prepared(input, t, pools, {}, templates)
    ensures OnlyListedFixed(input, t)
  {
    hide Valid, Exclusive, ListsPool, ListsFixed, ListsTemplate, PoolAsListed, FixedAsListed;
  }

  lemma TemplatesAllPruned(input: Resources, s: StoreState, t: StoreState, list: seq<PrefixTemplate>)
    requires OnlyListedPools(input, t) && OnlyListedFixed(input, t)
    requires forall n :: n in s.templates ==> exists i :: 0 <= i < |list| && TemplateName(list[i]) == n
    requires forall k :: 0 <= k < |list| ==>
              ListsTemplate(input, TemplateName(list[k])) || TemplateName(list[k]) !in t.templates
    ensures Pruned(input, s, t)
  {
    hide ListsPool, ListsFixed, ListsTemplate;
    forall n | n in t.templates && n in s.templates ensures ListsTemplate(input, n) {
      var i :| 0 <= i < |list| && TemplateName(list[i]) == n;
    }
  }

  lemma PoolsAllPruned(input: Resources, s: StoreState, t: StoreState, list: seq<Pool>)
    requires ReadyToPrune(input, s, t)
    requires forall n :: n in s.pools ==> exists i :: 0 <= i < |list| && PoolName(list[i]) == n
    requires forall k :: 0 <= k < |list| ==> ListsPool(input, PoolName(list[k])) || PoolName(list[k]) !in t.pools
    ensures OnlyListedPools(input, t)
  {
    hide Valid, Exclusive, ListsPool, ListsFixed, ListsTemplate, PoolAsListed, FixedAsListed;
    forall n | n in t.pools ensures ListsPool(input, n) {
      if n in s.pools {
        var i :| 0 <= i < |list| && PoolName(list[i]) == n;
      }
    }
  }

  /** A deletion only shrinks the network the store asks for. */
  lemma DeletionIsUnobstructed(h: H.HostState, t: StoreState, op: Op)
    requires op.DeletePoolOp? || op.DeleteFixedOp? || op.DeleteTemplateOp?
    requires N.Realises(h, NetworkAddresses(t), NetworkRoutes(t)) && Valid(t)
    ensures Unobstructed(h, Step(t, op))
  {
    hide Valid;
    DeletionShrinks(t, op);
    hide Step, NetworkAddresses, NetworkRoutes;
  }

  lemma DeletionShrinks(t: StoreState, op: Op)
    requires op.DeletePoolOp? || op.DeleteFixedOp? || op.DeleteTemplateOp?
    ensures NetworkAddresses(Step(t, op)) <= NetworkAddresses(t) && NetworkRoutes(Step(t, op)) <= NetworkRoutes(t)
  {
    hide Held, TemplateInUse, N.RouteOf, References;
    var u := Step(t, op);
    assert forall a :: a in u.addresses ==> a in t.addresses && u.addresses[a].template == t.addresses[a].template;
    assert forall n :: n in u.templates ==> n in t.templates && u.templates[n] == t.templates[n];
    assert forall n :: Serves(u, n) ==> Serves(t, n);
  }
}
