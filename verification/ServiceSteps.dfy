/** One store operation as the resource service uses it: when it is accepted, and what the
    resulting store is good for. */
module ServiceSteps {
  import opened Wrappers
  import opened Names
  import opened Prefixes
  import opened DrainIds
  import opened StoreModel
  import opened StoreInvariant
  import opened StoreOwnership
  import opened StateDocument
  import opened StoreRuns
  import opened DesiredNetwork
  import Store

  ghost predicate Accepts(s: StoreState, op: Op) {
    match op
    case AddTemplateOp(t) => Admissible(s, t)
    case DeleteTemplateOp(n) => DeleteTemplate(s, n).Ok?
    case CreateFixedOp(n, t, a, o) => CreateFixedAddress(s, n, t, a, o).Ok?
    case DeleteFixedOp(n) => DeleteFixedAddress(s, n).Ok?
    case CreatePoolOp(n, k, t, c, p) => CreatePool(s, n, k, t, c, p).Ok?
    case RefreshPoolOp(n) => n in s.pools && s.pools[n].template in s.templates && RefreshPool(s, n).Ok?
    case DeletePoolOp(n) => DeletePool(s, n).Ok?
    case CompleteDrainOp(n, id) => CompleteDrain(s, n, id).Ok?
    case CompleteDrainedAddressOp(n, a) => CompleteDrainedAddress(s, n, a).Ok?
    case RestartOp => true
  }

  /** Exactly when an accepted operation leads to a state the loader takes back. */
  ghost predicate StaysLoadable(s: StoreState, op: Op) {
    match op
    case AddTemplateOp(t) => Canonical(t)
    case CreateFixedOp(n, _, _, _) => !Blank(n)
    case CreatePoolOp(n, _, _, _, _) => !Blank(n)
    case RefreshPoolOp(n) => n in s.pools ==>
      Difference(s.pools[n].active, s.pools[n].pinned) == [] || s.nextBatch + 1 < UINT64_LIMIT
    case _ => true
  }

  lemma AcceptedStep(s: StoreState, op: Op)
    requires Valid(s) && Accepts(s, op)
    ensures Valid(Step(s, op)) <==> StaysLoadable(s, op)
  {
    hide Valid, Canonical, Blank, Difference, Saved, Loaded;
    match op {
      case AddTemplateOp(t) => AddTemplateKeepsValid(s, t);
      case DeleteTemplateOp(n) => DeleteTemplateKeepsValid(s, n);
      case CreateFixedOp(n, t, a, o) => CreateFixedAddressKeepsValid(s, n, t, a, o);
      case DeleteFixedOp(n) => DeleteFixedAddressKeepsValid(s, n);
      case CreatePoolOp(n, k, t, c, p) => CreatePoolKeepsValid(s, n, k, t, c, p);
      case RefreshPoolOp(n) => RefreshPoolKeepsValid(s, n);
      case DeletePoolOp(n) => DeletePoolKeepsValid(s, n);
      case CompleteDrainOp(n, id) => CompleteDrainKeepsValid(s, n, id);
      case CompleteDrainedAddressOp(n, a) => CompleteDrainedAddressKeepsValid(s, n, a);
      case RestartOp => SaveThenLoad(s);
    }
  }

  /** The service dispatches an operation to a store. */
  method Mutate(store: Store.Store, op: Op) returns (r: Store.Status)
    requires Valid(store.View()) && !op.RestartOp?
    modifies store
    ensures r.Ok? <==> Accepts(old(store.View()), op)
    ensures store.View() == if r.Ok? then Step(old(store.View()), op) else old(store.View())
  {
    hide Valid, TemplatesOk, DeleteTemplate, CreateFixedAddress, DeleteFixedAddress, CreatePool, RefreshPool;
    hide DeletePool, CompleteDrain, CompleteDrainedAddress, Admissible, PoolShape, WithTemplate, Draining;
    ValidParts(store.View());
    match op {
      case AddTemplateOp(t) => r := store.AddTemplate(t);
      case DeleteTemplateOp(n) => r := store.DeleteTemplate(n);
      case CreateFixedOp(n, t, a, o) => r := store.CreateFixedAddress(n, t, a, o);
      case DeleteFixedOp(n) => r := store.DeleteFixedAddress(n);
      case CreatePoolOp(n, k, t, c, p) => r := store.CreatePool(n, k, t, c, p);
      case RefreshPoolOp(n) =>
        MissingPoolIsRefused(store.View(), n);
        r := store.RefreshPool(n);
      case DeletePoolOp(n) => r := store.DeletePool(n);
      case CompleteDrainOp(n, id) => r := store.CompleteDrain(n, id);
      case CompleteDrainedAddressOp(n, a) =>
        var completed;
        completed, r := store.CompleteDrainedAddress(n, a);
    }
  }

  lemma MissingPoolIsRefused(s: StoreState, n: Name)
    ensures n !in s.pools ==> RefreshPool(s, n).Err?
  {
  }

  lemma ValidParts(s: StoreState)
    requires Valid(s)
    ensures TemplatesOk(s.templates) && forall n :: n in s.pools ==> s.pools[n].template in s.templates
  {
    hide TemplatesOk, CursorsOk, AddressesOk, FixedOk, BatchesOk, ReferencesOk, PoolShape;
  }

  // ---- what every step leaves usable ----

  /** Whatever the operation, its result can be saved, read back and asked for on the host. */
  lemma StepIsServable(s: StoreState, op: Op)
    requires Valid(s)
    ensures Servable(Step(s, op))
  {
    ValidIsServable(s);
    if Accepts(s, op) {
      if StaysLoadable(s, op) {
        AcceptedStep(s, op);
        ValidIsServable(Step(s, op));
      } else {
        FlawedStepIsServable(s, op);
      }
    } else {
      RefusedChangesNothing(s, op);
    }
  }

  lemma RefusedChangesNothing(s: StoreState, op: Op)
    requires !Accepts(s, op)
    ensures Step(s, op) == s
  {
    hide DeleteTemplate, CreateFixedAddress, DeleteFixedAddress, CreatePool, RefreshPool, DeletePool, CompleteDrain;
    hide CompleteDrainedAddress, Admissible;
  }

  lemma FlawedStepIsServable(s: StoreState, op: Op)
    requires Valid(s) && Accepts(s, op) && !StaysLoadable(s, op)
    ensures Servable(Step(s, op))
  {
    hide Valid, Servable, DeleteTemplate, CreateFixedAddress, DeleteFixedAddress, CreatePool, RefreshPool, DeletePool;
    hide CompleteDrain, CompleteDrainedAddress, Admissible, Canonical;
    match op {
      case AddTemplateOp(t) => NewTemplateIsServable(s, t);
      case CreateFixedOp(n, t, a, o) => NewFixedIsServable(s, n, t, a, o);
      case CreatePoolOp(n, k, t, c, p) => NewPoolIsServable(s, n, k, t, c, p);
      case RefreshPoolOp(n) => RefreshedIsServable(s, n);
      case _ =>
    }
  }

  lemma NewTemplateIsServable(s: StoreState, t: PrefixTemplate)
    requires Valid(s) && Admissible(s, t)
    ensures Servable(WithTemplate(s, t))
  {
    hide Valid, TemplatesKeyed, CursorsReady, FixedKeyed, PoolsKeyed, AddressesOk, UsedTemplatesCanonical;
    ValidIsServable(s);
    NewTemplateParts(s, t);
  }

  lemma NewTemplateParts(s: StoreState, t: PrefixTemplate)
    requires Servable(s) && t.name !in s.templates
    ensures var next := WithTemplate(s, t);
      TemplatesKeyed(next.templates) && CursorsReady(next.templates, next.cursors) && AddressesOk(next)
      && UsedTemplatesCanonical(next)
  {
    hide Canonical, Prefix.Contains, Prefix.IsMasked, FixedKeyed, PoolsKeyed, KnownPrefix, AddressOk;
    var next := WithTemplate(s, t);
    forall p | p in next.cursors ensures KnownPrefix(next.templates, p) {
      KnownPrefixGrows(s.templates, t, p);
    }
    forall a | a in next.addresses ensures AddressOk(next.templates, next.addresses[a]) {
      AddressOkGrows(s.templates, t, s.addresses[a]);
    }
  }

  lemma KnownPrefixGrows(templates: map<Name, PrefixTemplate>, t: PrefixTemplate, p: Prefix)
    requires KnownPrefix(templates, p) && t.name !in templates
    ensures KnownPrefix(templates[t.name := t], p)
  {
    var n :| n in templates && templates[n].prefix == p;
    assert templates[t.name := t][n].prefix == p;
  }

  lemma AddressOkGrows(templates: map<Name, PrefixTemplate>, t: PrefixTemplate, c: CanonicalAddress)
    requires AddressOk(templates, c) && t.name !in templates
    ensures AddressOk(templates[t.name := t], c) && templates[t.name := t][c.template] == templates[c.template]
  {
  }

  /** A step of the address table that keeps the templates keeps the store servable. */
  lemma TableStepIsServable(s: StoreState, t: StoreState)
    requires Valid(s) && t.templates == s.templates && t.nextBatch < UINT64_LIMIT
    requires CursorsOk(t.templates, t.cursors) && TableStep(s, t.addresses)
    requires FixedKeyed(t.fixed) && PoolsKeyed(t.pools)
    ensures Servable(t)
  {
    TableStepKeepsAddressesOk(s, t);
    CursorsAreCanonical(s.templates, t.cursors);
    hide FixedOk, PoolsOk, BatchesOk, ReferencesOk, CursorsOk, Canonical, Prefix.Contains, Prefix.IsMasked;
    hide PrefixesOverlap, OwnershipForMode, TableStep;
    forall a | a in t.addresses ensures Canonical(t.templates[t.addresses[a].template]) {
      assert AddressOk(t.templates, t.addresses[a]);
    }
  }

  lemma CursorsAreCanonical(templates: map<Name, PrefixTemplate>, cursors: map<Prefix, Address>)
    requires TemplatesOk(templates) && CursorsOk(templates, cursors)
    ensures CursorsReady(templates, cursors)
  {
    hide Prefix.Contains, Prefix.IsMasked, PrefixesOverlap, Canonical;
    forall p | p in cursors ensures p.IsMasked() {
      var n :| n in templates && templates[n].prefix == p;
      CanonicalIsMasked(templates[n]);
    }
  }

  lemma NewFixedIsServable(s: StoreState, name: Name, template: Name, a: Address, ownership: Ownership)
    requires Valid(s) && CreateFixedAddress(s, name, template, a, ownership).Ok?
    ensures Servable(CreateFixedAddress(s, name, template, a, ownership).value)
  {
    KeysOf(s);
    NewFixedParts(s, name, template, a, ownership);
    hide *;
    var next := CreateFixedAddress(s, name, template, a, ownership).value;
    NewAddressIsOk(s, template, a);
    NewEntryIsATableStep(s, a, next.addresses);
    FixedStayKeyed(s.fixed, next.fixed, name);
    TableStepIsServable(s, next);
  }

  lemma NewFixedParts(s: StoreState, name: Name, template: Name, a: Address, ownership: Ownership)
    requires CreateFixedAddress(s, name, template, a, ownership).Ok?
    ensures var next := CreateFixedAddress(s, name, template, a, ownership).value;
      && template in s.templates && s.templates[template].prefix.Contains(a) && a !in s.addresses
      && next.templates == s.templates && next.pools == s.pools && next.cursors == s.cursors
      && next.nextBatch == s.nextBatch
      && next.addresses == s.addresses[a := NewAddress(s, template, a)]
      && name in next.fixed && next.fixed[name].name == name && next.fixed == s.fixed[name := next.fixed[name]]
  {
    hide NewAddress, Prefix.Contains, ValidOwnership, OwnershipForMode;
  }

  lemma FixedStayKeyed(x: map<Name, FixedAddress>, y: map<Name, FixedAddress>, n: Name)
    requires FixedKeyed(x) && n in y && y == x[n := y[n]] && y[n].name == n
    ensures FixedKeyed(y)
  {
  }

  lemma NewEntryIsATableStep(s: StoreState, a: Address, addresses: map<Address, CanonicalAddress>)
    requires AddressesOk(s) && a !in s.addresses && a in addresses && addresses == s.addresses[a := addresses[a]]
    requires addresses[a].address == a && AddressOk(s.templates, addresses[a])
    ensures TableStep(s, addresses)
  {
    hide Prefix.Contains, OwnershipForMode;
    TableGrows(s, addresses);
  }

  lemma NewPoolIsServable(s: StoreState, name: Name, kind: PoolKind, template: Name, capacity: int,
                          pinnedNames: seq<Name>)
    requires Valid(s) && CreatePool(s, name, kind, template, capacity, pinnedNames).Ok?
    ensures Servable(CreatePool(s, name, kind, template, capacity, pinnedNames).value)
  {
    hide *;
    KeysOf(s);
    var pinned, automatic := NewPoolParts(s, name, kind, template, capacity, pinnedNames);
    ResolvedPinnedAreFixed(s, template, pinnedNames);
    GeneratedAreFresh(s, template, capacity - |pinned|);
    GrownStoreIsServable(s, CreatePool(s, name, kind, template, capacity, pinnedNames).value, name, template, pinned,
                         automatic);
  }

  /** `t` is `s` with the pool `name` and its addresses. */
  ghost predicate Grown(s: StoreState, t: StoreState, name: Name, template: Name, pinned: seq<Address>,
                        automatic: seq<Address>)
    requires template in s.templates
  {
    && t.templates == s.templates && t.fixed == s.fixed && t.nextBatch == s.nextBatch
    && t.addresses == Allocate(s.(addresses := Reference(s.addresses, pinned)), template, automatic)
    && t.cursors == Advance(s, template, automatic)
    && name in t.pools && t.pools[name].name == name && t.pools == s.pools[name := t.pools[name]]
  }

  lemma NewPoolParts(s: StoreState, name: Name, kind: PoolKind, template: Name, capacity: int, pinnedNames: seq<Name>)
    returns (pinned: seq<Address>, automatic: seq<Address>)
    requires CreatePool(s, name, kind, template, capacity, pinnedNames).Ok?
    ensures template in s.templates && ResolvePinned(s, template, pinnedNames) == Ok(pinned)
    ensures Generate(s, template, capacity - |pinned|) == Some(automatic)
    ensures Grown(s, CreatePool(s, name, kind, template, capacity, pinnedNames).value, name, template, pinned,
                  automatic)
  {
    hide ResolvePinned, Generate, Allocate, Reference, Advance;
    pinned := ResolvePinned(s, template, pinnedNames).value;
    automatic := Generate(s, template, capacity - |pinned|).value;
  }

  lemma GrownStoreIsServable(s: StoreState, t: StoreState, name: Name, template: Name, pinned: seq<Address>,
                             automatic: seq<Address>)
    requires Valid(s) && template in s.templates && Fresh(s, template, automatic) && forall a :: a in pinned ==>
              a in s.addresses
    requires Grown(s, t, name, template, pinned, automatic)
    ensures Servable(t)
  {
    hide Valid, Servable, Advance, Allocate, Reference, Fresh, FixedOk, AddressesOk, CursorsOk, FixedKeyed, PoolsKeyed;
    KeysOf(s);
    PoolsStayKeyed(s.pools, t.pools, name);
    AllocatedIsServable(s, t, template, pinned, automatic);
  }

  lemma PoolsStayKeyed(x: map<Name, Pool>, y: map<Name, Pool>, n: Name)
    requires PoolsKeyed(x) && n in y && y == x[n := y[n]] && y[n].name == n
    ensures PoolsKeyed(y)
  {
  }

  lemma AllocatedIsServable(s: StoreState, t: StoreState, template: Name, referenced: seq<Address>,
                            automatic: seq<Address>)
    requires Valid(s) && template in s.templates && Fresh(s, template, automatic) && forall a :: a in referenced ==>
              a in s.addresses
    requires t.templates == s.templates && t.fixed == s.fixed && PoolsKeyed(t.pools) && t.nextBatch < UINT64_LIMIT
    requires t.addresses == Allocate(s.(addresses := Reference(s.addresses, referenced)), template, automatic)
    requires t.cursors == Advance(s, template, automatic)
    ensures Servable(t)
  {
    hide Valid, Servable, CursorsOk, AddressesOk, FixedOk, TableStep, Fresh, Advance, Allocate, Reference, FixedKeyed;
    hide PoolsKeyed, References;
    KeysOf(s);
    AllocationIsATableStep(s, template, referenced, automatic);
    AdvanceKeepsCursorsOk(s, template, automatic);
    TableStepIsServable(s, t);
  }

  lemma RefreshedIsServable(s: StoreState, n: Name)
    requires Valid(s) && n in s.pools && s.pools[n].template in s.templates && RefreshPool(s, n).Ok?
    ensures Servable(RefreshPool(s, n).value)
  {
    hide Valid, Servable, Generate, Refreshed;
    var template := s.pools[n].template;
    var count := s.pools[n].capacity - |s.pools[n].pinned|;
    GeneratedAreFresh(s, template, count);
    TakenAddressesAreServable(s, n, Generate(s, template, count).value);
  }

  lemma TakenAddressesAreServable(s: StoreState, n: Name, automatic: seq<Address>)
    requires Valid(s) && n in s.pools && s.pools[n].template in s.templates && Fresh(s, s.pools[n].template, automatic)
    ensures Servable(Refreshed(s, n, automatic))
  {
    KeysOf(s);
    TakenAddressesChange(s, n, automatic);
    ReferenceNothing(s);
    hide Valid, Servable, Refreshed, Fresh, Advance, Allocate, Reference, PoolsKeyed, FixedKeyed, CursorsOk;
    hide AddressesOk, FixedOk;
    AllocatedIsServable(s, Refreshed(s, n, automatic), s.pools[n].template, [], automatic);
  }

  lemma TakenAddressesChange(s: StoreState, n: Name, automatic: seq<Address>)
    requires n in s.pools && s.pools[n].template in s.templates && PoolsKeyed(s.pools) && s.nextBatch < UINT64_LIMIT
    ensures var t := Refreshed(s, n, automatic);
      && t.templates == s.templates && t.fixed == s.fixed && PoolsKeyed(t.pools) && t.nextBatch < UINT64_LIMIT
      && t.addresses == Allocate(s, s.pools[n].template, automatic)
      && t.cursors == Advance(s, s.pools[n].template, automatic)
  {
    hide Allocate, Advance, Difference;
  }

  /** What a committed operation saves is taken back by a restart exactly when names are not blank,
      the template is canonical and the batch counter did not wrap. */
  lemma RestartAccepts(s: StoreState, op: Op)
    requires Valid(s) && Accepts(s, op)
    ensures Accepted(Saved(Step(s, op))) <==> StaysLoadable(s, op)
    ensures Loaded(Saved(Step(s, op))) == Step(s, op)
  {
    hide *;
    AcceptedStep(s, op);
    StepIsServable(s, op);
    LoadableMeansValid(Step(s, op));
  }

  lemma StaysLoadableForFixed(s: StoreState, op: Op)
    requires op.CreateFixedOp?
    ensures StaysLoadable(s, op) <==> !Blank(op.name)
    ensures Accepts(s, op) ==> op.address !in s.addresses
  {
    hide Prefix.Contains, Blank, OwnershipForMode, ValidOwnership;
  }

  lemma AcceptedDrain(s: StoreState, pool: Name, batch: string)
    requires Accepts(s, CompleteDrainOp(pool, batch))
    ensures pool in s.pools && BatchIndex(s.pools[pool].draining, batch) < |s.pools[pool].draining|
    ensures StaysLoadable(s, CompleteDrainOp(pool, batch))
  {
    hide Release, BatchIndex;
  }
}
