/** Applying an agent document with prune: after both checks, whatever creations and unrelated
    store changes come in between, the deletions are refused exactly when a listed pool uses an
    unlisted fixed address without pinning it, which no store grown from the empty one allows. */
module AgentPrune {
  import opened Wrappers
  import opened FiniteSets
  import opened Names
  import opened Prefixes
  import opened DrainIds
  import opened StoreModel
  import opened StoreInvariant
  import opened StoreOwnership
  import opened StoreRuns
  import opened ServiceSteps
  import opened AgentDocument

  // ---- the current state as the second check sees it ----

  ghost function CurrentFixed(s: StoreState): map<Name, FixedEntry> {
    map n | n in s.fixed :: FixedEntry(s.fixed[n].template, Some(s.fixed[n].address))
  }

  /** The fixed entry an address belongs to. */
  ghost function NameAt(fixed: map<Name, FixedAddress>, a: Address): (n: Name)
    requires FixedUses(fixed, a) != {}
    ensures n in fixed && fixed[n].address == a
  {
    var n :| n in FixedUses(fixed, a);
    n
  }

  ghost predicate PinnedFixed(fixed: map<Name, FixedAddress>, pinned: seq<Address>) {
    forall a :: a in pinned ==> FixedUses(fixed, a) != {}
  }

  ghost function PinnedNames(fixed: map<Name, FixedAddress>, pinned: seq<Address>): (r: seq<Name>)
    requires PinnedFixed(fixed, pinned)
    ensures |r| == |pinned| && forall i :: 0 <= i < |r| ==> r[i] == NameAt(fixed, pinned[i])
  {
    seq(|pinned|, i requires 0 <= i < |pinned| => NameAt(fixed, pinned[i]))
  }

  ghost function CurrentPools(s: StoreState): map<Name, PoolEntry>
    requires forall n :: n in s.pools ==> PinnedFixed(s.fixed, s.pools[n].pinned)
  {
    map n | n in s.pools ::
      PoolEntry(s.pools[n].kind, s.pools[n].template, s.pools[n].capacity,
                multiset(PinnedNames(s.fixed, s.pools[n].pinned)))
  }

  lemma PinnedAreFixed(s: StoreState)
    requires Valid(s)
    ensures forall n :: n in s.pools ==> PinnedFixed(s.fixed, s.pools[n].pinned)
  {
    hide TemplatesOk, CursorsOk, AddressesOk, FixedOk, BatchesOk, ReferencesOk, PoolShape, Held, FixedUses;
  }

  /** The second check's verdict on a document. */
  ghost predicate Agrees(input: Resources, s: StoreState, sizes: Sizes) {
    var templates := TemplatesAfter(input.templates, s.templates);
    && (forall n :: n in s.pools ==> PinnedFixed(s.fixed, s.pools[n].pinned))
    && TemplatesAgree(input.templates, s.templates)
    && FixedAgree(input.fixed, templates, CurrentFixed(s))
    && PoolsAgree(input.pools, sizes, templates, FixedAfter(input.fixed, CurrentFixed(s)), CurrentPools(s))
  }

  // ---- what the checks establish and everything before the prune keeps ----

  ghost predicate PinsListed(input: Resources, fixed: map<Name, FixedAddress>, pinned: seq<Address>) {
    forall a :: a in pinned ==> exists f :: f in FixedUses(fixed, a) && ListsFixed(input, f)
  }

  /** A listed pool is what the document says. */
  ghost predicate PoolAsListed(input: Resources, t: StoreState, n: Name)
    requires n in t.pools
  {
    ListsPool(input, n) ==> ListsTemplate(input, t.pools[n].template) && PinsListed(input, t.fixed, t.pools[n].pinned)
  }

  ghost predicate FixedAsListed(input: Resources, t: StoreState, f: Name)
    requires f in t.fixed
  {
    ListsFixed(input, f) ==> ListsTemplate(input, t.fixed[f].template)
  }

  /** `pools`, `fixed` and `templates` are the unlisted names the prune still has to remove: nothing
      else is unlisted, and the fixed addresses and templates among them are all there. */
  ghost predicate Prepared(input: Resources, t: StoreState, pools: set<Name>, fixed: set<Name>, templates: set<Name>) {
    && Valid(t)
    && (forall n :: n in t.pools ==> (ListsPool(input, n) || n in pools) && PoolAsListed(input, t, n))
    && (forall f :: f in t.fixed ==> (ListsFixed(input, f) || f in fixed) && FixedAsListed(input, t, f))
    && (forall n :: n in pools ==> !ListsPool(input, n))
    && (forall f :: f in fixed ==> f in t.fixed && !ListsFixed(input, f))
    && (forall n :: n in templates ==> n in t.templates && !ListsTemplate(input, n))
  }

  ghost function UnlistedPools(input: Resources, s: StoreState): set<Name> {
    set n | n in s.pools && !ListsPool(input, n)
  }
  ghost function UnlistedFixed(input: Resources, s: StoreState): set<Name> {
    set n | n in s.fixed && !ListsFixed(input, n)
  }
  ghost function UnlistedTemplates(input: Resources, s: StoreState): set<Name> {
    set n | n in s.templates && !ListsTemplate(input, n)
  }

  ghost predicate ReadyToPrune(input: Resources, s: StoreState, t: StoreState) {
    Prepared(input, t, UnlistedPools(input, s), UnlistedFixed(input, s), UnlistedTemplates(input, s))
  }

  /** No pool uses this fixed address without pinning it. */
  ghost predicate Unowned(t: StoreState, f: Name)
    requires f in t.fixed
  {
    forall n :: n in t.pools ==> t.fixed[f].address !in Owned(t.pools[n])
  }

  /** No listed pool uses or drains, without pinning it, the address of an unlisted fixed entry. */
  ghost predicate Unshared(input: Resources, t: StoreState) {
    forall n, f :: n in t.pools && f in t.fixed && ListsPool(input, n) && !ListsFixed(input, f) ==>
                     t.fixed[f].address !in Owned(t.pools[n])
  }

  /** Stores grown from the empty one have nothing to fear. */
  lemma ExclusiveIsUnshared(input: Resources, t: StoreState)
    requires Exclusive(t)
    ensures Unshared(input, t)
  {
    hide Owned, ListsPool, ListsFixed, References;
    forall n, f | n in t.pools && f in t.fixed ensures t.fixed[f].address !in Owned(t.pools[n]) {
      assert f in FixedUses(t.fixed, t.fixed[f].address);
      assert t.fixed[f].address in Owned(t.pools[n]) ==> SoleUse(t, t.fixed[f].address);
    }
  }

  /** Both checks passing makes the checked state ready. */
  lemma ChecksPrepare(input: Resources, s: StoreState, sizes: Sizes)
    requires Valid(s) && Closed(input)
    requires Agrees(input, s, sizes)
    ensures ReadyToPrune(input, s, s)
  {
    hide Valid, TemplatesAgree, TemplatesAfter, FixedAfter, ListsPool, ListsFixed, ListsTemplate, PinnedFixed;
    hide PinsListed, Closed, FixedAgree, PoolsAgree, CurrentPools, CurrentFixed;
    forall n | n in s.pools ensures PoolAsListed(input, s, n) {
      ListedPoolAgrees(input, s, sizes, n);
    }
    forall f | f in s.fixed ensures FixedAsListed(input, s, f) {
      ListedFixedAgrees(input, s, f);
    }
  }

  lemma ListedFixedAgrees(input: Resources, s: StoreState, f: Name)
    requires Closed(input) && FixedAgree(input.fixed, TemplatesAfter(input.templates, s.templates), CurrentFixed(s))
             && f in s.fixed
    ensures FixedAsListed(input, s, f)
  {
    hide TemplatesAfter, Blank, Prefix.Contains, ListsTemplate;
    if ListsFixed(input, f) {
      var i :| 0 <= i < |input.fixed| && input.fixed[i].name == f;
      assert FixedAgrees(input.fixed[i], TemplatesAfter(input.templates, s.templates), CurrentFixed(s));
    }
  }

  lemma ListedPoolAgrees(input: Resources, s: StoreState, sizes: Sizes, n: Name)
    requires Closed(input) && n in s.pools
    requires forall m :: m in s.pools ==> PinnedFixed(s.fixed, s.pools[m].pinned)
    requires PoolsAgree(input.pools, sizes, TemplatesAfter(input.templates, s.templates),
                        FixedAfter(input.fixed, CurrentFixed(s)), CurrentPools(s))
    ensures PoolAsListed(input, s, n)
  {
    hide TemplatesAfter, FixedAfter, CurrentFixed, Blank, ListsTemplate, ListsFixed, PoolCapacity;
    if ListsPool(input, n) {
      var i :| 0 <= i < |input.pools| && input.pools[i].name == n;
      assert PoolAgrees(input.pools[i], sizes, TemplatesAfter(input.templates, s.templates),
                        FixedAfter(input.fixed, CurrentFixed(s)), CurrentPools(s));
      var pinned := s.pools[n].pinned;
      forall a | a in pinned ensures exists f :: f in FixedUses(s.fixed, a) && ListsFixed(input, f) {
        var k :| 0 <= k < |pinned| && pinned[k] == a;
        var f := PinnedNames(s.fixed, pinned)[k];
        assert f in multiset(PinnedNames(s.fixed, pinned));
        assert f in multiset(input.pools[i].pinned);
        var j :| 0 <= j < |input.pools[i].pinned| && input.pools[i].pinned[j] == f;
        assert f in FixedUses(s.fixed, a);
      }
    }
  }

  // ---- other changes before the prune ----

  /** Operations other parts of the program may run meanwhile: dedicated pools go with their nodes,
      pools are refreshed, drains complete. */
  predicate Unrelated(op: Op) {
    op.DeletePoolOp? || op.RefreshPoolOp? || op.CompleteDrainOp? || op.CompleteDrainedAddressOp?
  }

  /** Pools only disappear or change their automatic addresses; all else stays. */
  ghost predicate PoolsFrame(t: StoreState, u: StoreState) {
    && u.templates == t.templates && u.fixed == t.fixed
    && forall n :: n in u.pools ==> n in t.pools && u.pools[n].template == t.pools[n].template
                                    && u.pools[n].pinned == t.pools[n].pinned
  }

  lemma RefreshFrame(t: StoreState, n: Name)
    ensures PoolsFrame(t, Step(t, RefreshPoolOp(n)))
  {
    hide Generate, Allocate, Advance, Difference;
  }

  lemma UnrelatedFrame(t: StoreState, op: Op)
    requires Unrelated(op)
    ensures PoolsFrame(t, Step(t, op))
  {
    hide Release, BatchIndex, WithoutDraining, Generate, Allocate, Advance, Difference, Draining, Held, Elements;
    match op {
      case DeletePoolOp(_) =>
      case RefreshPoolOp(n) => RefreshFrame(t, n);
      case CompleteDrainOp(_, _) =>
      case CompleteDrainedAddressOp(_, _) =>
    }
  }

  lemma UnrelatedKeepsPrepared(input: Resources, t: StoreState, op: Op, pools: set<Name>, fixed: set<Name>,
                               templates: set<Name>)
    requires Prepared(input, t, pools, fixed, templates) && Unrelated(op)
    requires op.RefreshPoolOp? ==> t.nextBatch + 1 < UINT64_LIMIT
    ensures Prepared(input, Step(t, op), pools, fixed, templates)
  {
    hide Valid, Step, Accepts, PinsListed, ListsPool, ListsFixed, ListsTemplate;
    UnrelatedFrame(t, op);
    StepStaysValid(t, op);
  }

  /** These operations give no pool an address that some fixed entry has. */
  lemma UnrelatedKeepsUnshared(input: Resources, t: StoreState, op: Op)
    requires Valid(t) && Unrelated(op) && Unshared(input, t)
    ensures Unshared(input, Step(t, op))
  {
    hide Valid, Step, Owned, ListsPool, ListsFixed;
    UnrelatedFrame(t, op);
    forall n, f | n in Step(t, op).pools && f in t.fixed && ListsPool(input, n) && !ListsFixed(input, f)
      ensures t.fixed[f].address !in Owned(Step(t, op).pools[n])
    {
      UnrelatedTakesNoFixed(t, op, n, f);
    }
  }

  lemma UnrelatedTakesNoFixed(t: StoreState, op: Op, n: Name, f: Name)
    requires Valid(t) && Unrelated(op) && f in t.fixed && n in t.pools && n in Step(t, op).pools
    requires t.fixed[f].address !in Owned(t.pools[n])
    ensures t.fixed[f].address !in Owned(Step(t, op).pools[n])
  {
    hide Valid, Held, Owned, Release, Refreshed, Generate, BatchIndex, WithoutDraining, Draining;
    match op {
      case DeletePoolOp(_) =>
      case RefreshPoolOp(m) =>
        OtherPoolsStay(t, m);
        if m == n { RefreshTakesNoFixed(t, n, f); }
      case CompleteDrainOp(m, id) => if m == n { DrainedOwnsLess(t, op, n); }
      case CompleteDrainedAddressOp(m, a) => if m == n { DrainedOwnsLess(t, op, n); }
    }
  }

  lemma OtherPoolsStay(t: StoreState, n: Name)
    ensures forall m :: m in t.pools && m != n ==>
              m in Step(t, RefreshPoolOp(n)).pools && Step(t, RefreshPoolOp(n)).pools[m] == t.pools[m]
  {
    hide Generate, Allocate, Advance, Difference;
  }

  lemma RefreshTakesNoFixed(t: StoreState, n: Name, f: Name)
    requires Valid(t) && f in t.fixed && n in t.pools && t.fixed[f].address !in Owned(t.pools[n])
    ensures n in Step(t, RefreshPoolOp(n)).pools && t.fixed[f].address !in Owned(Step(t, RefreshPoolOp(n)).pools[n])
  {
    hide Valid, Owned, Generate, Fresh, Allocate, Advance, Difference, PoolShape, PoolBacked;
    var p := t.pools[n];
    FixedIsKnown(t, f);
    PoolIsOk(t, n);
    if RefreshPool(t, n).Ok? {
      var automatic := Generate(t, p.template, p.capacity - |p.pinned|).value;
      GeneratedAreFresh(t, p.template, p.capacity - |p.pinned|);
      FreshIsUnknown(t, p.template, automatic);
      RefreshedOwns(t, n, automatic);
    }
  }

  lemma FixedIsKnown(t: StoreState, f: Name)
    requires Valid(t) && f in t.fixed
    ensures t.fixed[f].address in t.addresses
  {
    hide TemplatesOk, CursorsOk, AddressesOk, PoolsOk, BatchesOk, ReferencesOk;
  }

  lemma OneLessDraining(p: Pool, a: Address)
    requires PoolShape(p) && a in Draining(p)
    ensures Elements(Flat(WithoutDraining(p.draining, a))) == Elements(Flat(p.draining)) - {a}
  {
    hide WithoutDraining, Shrinks, Elements;
    var i := WithoutDrainingShrinks(p.draining, a);
    ShrinkingFreesExactly(p.draining, WithoutDraining(p.draining, a), i, {a});
  }

  lemma DrainedOwnsLess(t: StoreState, op: Op, n: Name)
    requires Valid(t) && n in t.pools
    requires (op.CompleteDrainOp? || op.CompleteDrainedAddressOp?) && op.pool == n
    ensures n in Step(t, op).pools && Owned(Step(t, op).pools[n]) <= Owned(t.pools[n])
  {
    hide Valid, Held, Release, PoolShape, PoolBacked, Without, WithoutDraining, BatchIndex;
    PoolIsOk(t, n);
    var p := t.pools[n];
    match op {
      case CompleteDrainOp(_, id) =>
        var i := BatchIndex(p.draining, id);
        if i < |p.draining| {
          FlatAround(p.draining, i);
          FlatSplits(p.draining[..i], p.draining[i + 1..]);
        }
      case CompleteDrainedAddressOp(_, a) =>
        if a in Draining(p) { OneLessDraining(p, a); }
    }
  }

  lemma StepStaysValid(t: StoreState, op: Op)
    requires Valid(t) && (Accepts(t, op) ==> StaysLoadable(t, op))
    ensures Valid(Step(t, op))
  {
    hide *;
    if Accepts(t, op) { AcceptedStep(t, op); } else { RefusedChangesNothing(t, op); }
  }

  // ---- creations ----

  /** The operation that creates a listed item. */
  ghost predicate CreatesListed(input: Resources, op: Op) {
    match op
    case AddTemplateOp(t) => Canonical(t)
    case CreateFixedOp(n, template, _, _) => exists i :: 0 <= i < |input.fixed| && input.fixed[i].name == n
                                                         && input.fixed[i].template == template && !Blank(n)
    case CreatePoolOp(n, _, template, _, pinned) =>
      exists i :: 0 <= i < |input.pools| && input.pools[i].name == n && input.pools[i].template == template
                  && input.pools[i].pinned == pinned && !Blank(n)
    case _ => false
  }

  /** Creating a listed item neither makes nor mends the sharing that stops a prune. */
  lemma CreationKeepsUnshared(input: Resources, t: StoreState, op: Op)
    requires Valid(t) && CreatesListed(input, op)
    ensures Unshared(input, Step(t, op)) <==> Unshared(input, t)
  {
    hide Valid, Canonical, Blank, Owned, CreateFixedAddress, CreatePool, Admissible, ListsPool, ListsFixed, Accepts;
    if Accepts(t, op) {
      match op {
        case AddTemplateOp(template) => AddKeepsRest(t, template);
        case CreateFixedOp(n, template, a, o) =>
          FixedCreationAddsOne(t, op);
          CreatedIsListed(input, op);
        case CreatePoolOp(n, k, template, c, p) => PoolCreationAddsOne(t, op);
        case _ =>
      }
    } else {
      RefusedChangesNothing(t, op);
    }
  }

  lemma CreatedIsListed(input: Resources, op: Op)
    requires CreatesListed(input, op) && op.CreateFixedOp?
    ensures ListsFixed(input, op.name)
  {
    hide Blank;
  }

  lemma AddKeepsRest(t: StoreState, template: PrefixTemplate)
    ensures Step(t, AddTemplateOp(template)).pools == t.pools && Step(t, AddTemplateOp(template)).fixed == t.fixed
  {
    hide PrefixesOverlap;
  }

  lemma FixedCreationAddsOne(t: StoreState, op: Op)
    requires op.CreateFixedOp? && Accepts(t, op)
    ensures var u := Step(t, op);
      u.pools == t.pools && op.name !in t.fixed && op.name in u.fixed && u.fixed == t.fixed[op.name := u.fixed[op.name]]
  {
    hide Prefix.Contains, OwnershipForMode, NewAddress;
  }

  /** A new pool owns addresses that nothing had before. */
  lemma PoolCreationAddsOne(t: StoreState, op: Op)
    requires Valid(t) && op.CreatePoolOp? && Accepts(t, op)
    ensures var u := Step(t, op);
      && u.fixed == t.fixed && op.name !in t.pools && op.name in u.pools
      && u.pools == t.pools[op.name := u.pools[op.name]]
      && forall f :: f in t.fixed ==> t.fixed[f].address !in Owned(u.pools[op.name])
  {
    hide Valid, ResolvePinned, Generate, Advance, Allocate, Reference, Fresh, Distinct;
    var u := Step(t, op);
    var pinned := ResolvePinned(t, op.templateName, op.pinned).value;
    var automatic := Generate(t, op.templateName, op.capacity - |pinned|).value;
    GeneratedAreFresh(t, op.templateName, op.capacity - |pinned|);
    NewlyOwned(u.pools[op.name], pinned, automatic);
    forall f | f in t.fixed ensures t.fixed[f].address !in Owned(u.pools[op.name]) {
      FixedIsKnown(t, f);
      FreshIsUnknown(t, op.templateName, automatic);
    }
  }

  lemma NewlyOwned(p: Pool, pinned: seq<Address>, automatic: seq<Address>)
    requires p.pinned == pinned && p.active == pinned + automatic && p.draining == []
    ensures Owned(p) <= Elements(automatic)
  {
    assert Elements(pinned + automatic) == Elements(pinned) + Elements(automatic);
  }

  lemma FreshIsUnknown(t: StoreState, template: Name, automatic: seq<Address>)
    requires template in t.templates && Fresh(t, template, automatic)
    ensures forall a :: a in Elements(automatic) ==> a !in t.addresses
  {
  }

  lemma CreationKeepsPrepared(input: Resources, t: StoreState, op: Op, pools: set<Name>, fixed: set<Name>,
                              templates: set<Name>)
    requires Prepared(input, t, pools, fixed, templates) && Closed(input) && CreatesListed(input, op)
    ensures Prepared(input, Step(t, op), pools, fixed, templates)
  {
    hide Valid, Prepared, Closed, Canonical, Blank, CreateFixedAddress, CreatePool, Admissible, ListsPool, ListsFixed;
    hide ListsTemplate;
    PreparedIsSound(input, t, pools, fixed, templates);
    StepStaysValid(t, op);
    if Accepts(t, op) {
      match op {
        case AddTemplateOp(template) => TemplateKeepsPrepared(input, t, template, pools, fixed, templates);
        case CreateFixedOp(n, template, a, o) => FixedKeepsPrepared(input, t, op, pools, fixed, templates);
        case CreatePoolOp(n, k, template, c, p) => PoolKeepsPrepared(input, t, op, pools, fixed, templates);
        case _ =>
      }
    } else {
      RefusedChangesNothing(t, op);
    }
  }

  lemma PreparedIsSound(input: Resources, t: StoreState, pools: set<Name>, fixed: set<Name>, templates: set<Name>)
    requires Prepared(input, t, pools, fixed, templates)
    ensures Valid(t)
  {
    hide Valid, ListsPool, ListsFixed, ListsTemplate, PoolAsListed, FixedAsListed;
  }

  lemma TemplateKeepsPrepared(input: Resources, t: StoreState, template: PrefixTemplate, pools: set<Name>,
                              fixed: set<Name>, templates: set<Name>)
    requires Prepared(input, t, pools, fixed, templates) && Admissible(t, template)
    requires Valid(WithTemplate(t, template))
    ensures Prepared(input, WithTemplate(t, template), pools, fixed, templates)
  {
    hide Valid, ListsPool, ListsFixed, ListsTemplate, PinsListed;
  }

  lemma FixedKeepsPrepared(input: Resources, t: StoreState, op: Op, pools: set<Name>, fixed: set<Name>,
                           templates: set<Name>)
    requires Prepared(input, t, pools, fixed, templates) && Closed(input) && op.CreateFixedOp?
             && CreatesListed(input, op) && Accepts(t, op)
    requires Valid(Step(t, op))
    ensures Prepared(input, Step(t, op), pools, fixed, templates)
  {
    hide Valid, ListsTemplate, Prefix.Contains, OwnershipForMode, StoreModel.ValidOwnership, Blank, FixedUses;
    hide PinsListed, NewAddress;
    var u := Step(t, op);
    var i :| 0 <= i < |input.fixed| && input.fixed[i].name == op.name && input.fixed[i].template == op.templateName;
    assert ListsFixed(input, op.name) && ListsTemplate(input, op.templateName);
    FixedUsesOnlyGrow(t.fixed, u.fixed);
    forall n | n in u.pools ensures PoolAsListed(input, u, n) {
      if ListsPool(input, n) { PinsStayListed(input, t.fixed, u.fixed, t.pools[n].pinned); }
    }
  }

  lemma PinsStayListed(input: Resources, x: map<Name, FixedAddress>, y: map<Name, FixedAddress>, pinned: seq<Address>)
    requires PinsListed(input, x, pinned) && forall a :: a in pinned ==>
              forall f :: f in FixedUses(x, a) && ListsFixed(input, f) ==> f in FixedUses(y, a)
    ensures PinsListed(input, y, pinned)
  {
    hide ListsFixed;
    forall a | a in pinned ensures exists f :: f in FixedUses(y, a) && ListsFixed(input, f) {
      var f :| f in FixedUses(x, a) && ListsFixed(input, f);
    }
  }

  lemma PoolKeepsPrepared(input: Resources, t: StoreState, op: Op, pools: set<Name>, fixed: set<Name>,
                          templates: set<Name>)
    requires Prepared(input, t, pools, fixed, templates) && Closed(input) && op.CreatePoolOp?
             && CreatesListed(input, op) && Accepts(t, op)
    requires Valid(Step(t, op))
    ensures Prepared(input, Step(t, op), pools, fixed, templates)
  {
    hide Valid, ListsTemplate, ListsFixed, Blank, FixedUses, PinsListed, ResolvePinned, Generate, Advance, Allocate;
    hide Reference;
    var u := Step(t, op);
    var i :| 0 <= i < |input.pools| && input.pools[i].name == op.name && input.pools[i].template == op.templateName
             && input.pools[i].pinned == op.pinned;
    assert ListsPool(input, op.name) && ListsTemplate(input, op.templateName);
    ResolvedPinsAreListed(input, t, op.templateName, op.pinned);
    assert u.pools[op.name].pinned == ResolvePinned(t, op.templateName, op.pinned).value;
  }

  lemma {:induction false} ResolvedPinsAreListed(input: Resources, t: StoreState, template: Name, names: seq<Name>)
    requires ResolvePinned(t, template, names).Ok? && forall j :: 0 <= j < |names| ==> ListsFixed(input, names[j])
    ensures PinsListed(input, t.fixed, ResolvePinned(t, template, names).value)
  {
    hide ListsFixed;
    if names != [] {
      var before, last := names[..|names| - 1], names[|names| - 1];
      ResolvedPinsAreListed(input, t, template, before);
      assert last in FixedUses(t.fixed, t.fixed[last].address);
    }
  }

  // ---- no deletion is refused ----

  lemma PoolDeletionIsLegal(input: Resources, t: StoreState, n: Name, pools: set<Name>, fixed: set<Name>,
                            templates: set<Name>)
    requires Prepared(input, t, pools, fixed, templates) && n in t.pools
    ensures Accepts(t, DeletePoolOp(n)) && Prepared(input, Step(t, DeletePoolOp(n)), pools, fixed, templates)
    ensures Step(t, DeletePoolOp(n)).pools.Keys == t.pools.Keys - {n}
  {
    hide Valid, Prepared, Release, Held;
    UnrelatedKeepsPrepared(input, t, DeletePoolOp(n), pools, fixed, templates);
  }

  ghost predicate OnlyListedPools(input: Resources, t: StoreState) { forall n :: n in t.pools ==> ListsPool(input, n) }

  ghost predicate OnlyListedFixed(input: Resources, t: StoreState) { forall f :: f in t.fixed ==> ListsFixed(input, f) }

  /** With listed pools only, an unlisted fixed address can be deleted exactly when no pool uses or
      drains it without pinning it: the pools that are left pin listed addresses only. */
  lemma UnlistedFixedDeletesExactly(input: Resources, t: StoreState, f: Name)
    requires Valid(t) && OnlyListedPools(input, t) && (forall n :: n in t.pools ==> PoolAsListed(input, t, n))
    requires f in t.fixed && !ListsFixed(input, f)
    ensures DeleteFixedAddress(t, f).Ok? <==> Unowned(t, f)
  {
    hide Valid, ListsPool, ListsFixed, ListsTemplate;
    var a := t.fixed[f].address;
    assert f in FixedUses(t.fixed, a);
    OneFixedUse(t, f);
    ReferencesAreExpected(t, a);
    if Unowned(t, f) {
      forall n | n in t.pools ensures a !in t.pools[n].pinned {
        if a in t.pools[n].pinned {
          assert PoolAsListed(input, t, n);
          var g :| g in FixedUses(t.fixed, a) && ListsFixed(input, g);
          FixedAddressIsUnique(t, f, g);
        }
      }
      NoPoolUses(t, a);
    } else {
      var n :| n in t.pools && a in Owned(t.pools[n]);
      assert a in Automatic(t.pools[n]) ==> n in AutomaticUses(t.pools, a);
      assert a in Draining(t.pools[n]) ==> n in DrainingUses(t.pools, a);
    }
  }

  lemma FixedAddressIsUnique(t: StoreState, f: Name, g: Name)
    requires Valid(t) && f in t.fixed && g in t.fixed && t.fixed[f].address == t.fixed[g].address
    ensures f == g
  {
    hide TemplatesOk, CursorsOk, AddressesOk, PoolsOk, BatchesOk, ReferencesOk, FixedBacked;
  }

  lemma OneFixedUse(t: StoreState, f: Name)
    requires Valid(t) && f in t.fixed
    ensures FixedUses(t.fixed, t.fixed[f].address) == {f}
  {
    hide Valid;
    forall g | g in FixedUses(t.fixed, t.fixed[f].address) ensures g == f {
      FixedAddressIsUnique(t, f, g);
    }
  }

  lemma NoPoolUses(t: StoreState, a: Address)
    requires forall n :: n in t.pools ==> a !in t.pools[n].pinned && a !in Owned(t.pools[n])
    ensures PinnedUses(t.pools, a) == {} && AutomaticUses(t.pools, a) == {} && DrainingUses(t.pools, a) == {}
  {
    hide Draining;
  }

  lemma ReferencesAreExpected(t: StoreState, a: Address)
    requires Valid(t)
    ensures References(t.addresses, a) == ExpectedReferences(t.fixed, t.pools, a)
  {
    hide TemplatesOk, CursorsOk, AddressesOk, FixedOk, PoolsOk, BatchesOk, ExpectedReferences, References;
  }

  lemma FixedDeletionIsLegal(input: Resources, t: StoreState, f: Name, pools: set<Name>, fixed: set<Name>,
                             templates: set<Name>)
    requires Prepared(input, t, pools, fixed, templates) && OnlyListedPools(input, t) && f in fixed
    ensures f in t.fixed && (Accepts(t, DeleteFixedOp(f)) <==> Unowned(t, f))
    ensures Accepts(t, DeleteFixedOp(f)) ==>
              var u := Step(t, DeleteFixedOp(f));
              && Prepared(input, u, pools, fixed - {f}, templates) && OnlyListedPools(input, u)
              && u.fixed == t.fixed - {f} && u.pools == t.pools
  {
    hide Valid, ListsPool, ListsFixed, ListsTemplate, PinsListed, FixedUses, References, Unowned;
    UnlistedFixedDeletesExactly(input, t, f);
    var op := DeleteFixedOp(f);
    StepStaysValid(t, op);
    if Accepts(t, op) {
      var u := Step(t, op);
      assert u.fixed == t.fixed - {f} && u.pools == t.pools && u.templates == t.templates;
      forall n | n in u.pools ensures PoolAsListed(input, u, n) {
        assert PoolAsListed(input, t, n);
        UsesWithout(t.fixed, f);
        if ListsPool(input, n) { PinsStayListed(input, t.fixed, u.fixed, t.pools[n].pinned); }
      }
    }
  }

  lemma UsesWithout(fixed: map<Name, FixedAddress>, f: Name)
    ensures forall a, g :: g in FixedUses(fixed, a) && g != f ==> g in FixedUses(fixed - {f}, a)
  {
  }

  lemma TemplateDeletionIsLegal(input: Resources, t: StoreState, n: Name, pools: set<Name>, fixed: set<Name>,
                                templates: set<Name>)
    requires Prepared(input, t, pools, fixed, templates) && OnlyListedPools(input, t) && OnlyListedFixed(input, t)
             && n in templates
    ensures Accepts(t, DeleteTemplateOp(n))
    ensures var u := Step(t, DeleteTemplateOp(n));
      Prepared(input, u, pools, fixed, templates - {n}) && OnlyListedPools(input, u) && OnlyListedFixed(input, u)
      && u.templates.Keys == t.templates.Keys - {n}
  {
    hide Valid, ListsPool, ListsFixed, ListsTemplate, PinsListed;
    forall f | f in t.fixed ensures t.fixed[f].template != n {
      assert FixedAsListed(input, t, f);
    }
    forall p | p in t.pools ensures t.pools[p].template != n {
      assert PoolAsListed(input, t, p);
    }
    var op := DeleteTemplateOp(n);
    StepStaysValid(t, op);
  }

  // ---- the whole prune, in any order within its phases ----

  /** The store accepts one operation after the other. */
  ghost predicate Unrefused(t: StoreState, ops: seq<Op>)
    decreases |ops|
  {
    ops != [] ==> Accepts(t, ops[0]) && Unrefused(Step(t, ops[0]), ops[1..])
  }

  ghost function Deletions(pools: seq<Name>, fixed: seq<Name>, templates: seq<Name>): seq<Op> {
    if pools != [] then [DeletePoolOp(pools[0])] + Deletions(pools[1..], fixed, templates)
    else if fixed != [] then [DeleteFixedOp(fixed[0])] + Deletions(pools, fixed[1..], templates)
    else if templates != [] then [DeleteTemplateOp(templates[0])] + Deletions(pools, fixed, templates[1..])
    else []
  }

  /** When both checks passed on a state the loader accepts, the whole prune is accepted if and only
      if no listed pool uses or drains an unlisted fixed address without pinning it. */
  lemma PruneFinishesExactly(input: Resources, s: StoreState, sizes: Sizes, pools: seq<Name>, fixed: seq<Name>,
                             templates: seq<Name>)
    requires Valid(s) && Closed(input) && Agrees(input, s, sizes)
    requires Distinct(pools) && Elements(pools) == UnlistedPools(input, s)
    requires Distinct(fixed) && Elements(fixed) == UnlistedFixed(input, s)
    requires Distinct(templates) && Elements(templates) == UnlistedTemplates(input, s)
    ensures Unrefused(s, Deletions(pools, fixed, templates)) <==> Unshared(input, s)
  {
    hide Valid, Agrees, Closed, Prepared, Unrefused, Deletions, Unshared, Distinct, ListsPool, ListsFixed;
    hide ListsTemplate;
    ChecksPrepare(input, s, sizes);
    assert forall n :: n in pools <==> n in Elements(pools);
    PoolsPhase(input, s, pools, fixed, templates);
  }

  lemma {:induction false} PoolsPhase(input: Resources, t: StoreState, pools: seq<Name>, fixed: seq<Name>,
                                      templates: seq<Name>)
    requires Prepared(input, t, Elements(pools), Elements(fixed), Elements(templates))
    requires Distinct(pools) && (forall n :: n in pools ==> n in t.pools) && Distinct(fixed) && Distinct(templates)
    ensures Unrefused(t, Deletions(pools, fixed, templates)) <==> Unshared(input, t)
    decreases |pools|
  {
    hide Prepared, Step, Accepts, Unshared;
    if pools == [] {
      NoElements(pools);
      PreparedPools(input, t, Elements(fixed), Elements(templates));
      FixedPhase(input, t, fixed, templates);
    } else {
      var n, rest := pools[0], pools[1..];
      var u := Step(t, DeletePoolOp(n));
      FirstAndRest(pools);
      PoolDeletionIsLegal(input, t, n, Elements(pools), Elements(fixed), Elements(templates));
      FewerPools(input, t, u, n, Elements(pools), Elements(fixed), Elements(templates));
      assert Elements(pools) - {n} == Elements(rest);
      PoolsPhase(input, u, rest, fixed, templates);
    }
  }

  lemma {:induction false} FixedPhase(input: Resources, t: StoreState, fixed: seq<Name>, templates: seq<Name>)
    requires Prepared(input, t, {}, Elements(fixed), Elements(templates)) && OnlyListedPools(input, t)
    requires Distinct(fixed) && Distinct(templates)
    ensures Unrefused(t, Deletions([], fixed, templates)) <==> Unshared(input, t)
    decreases |fixed|
  {
    hide Prepared, Step, OnlyListedPools;
    if fixed == [] {
      NoElements(fixed);
      PreparedFixed(input, t, {}, Elements(templates));
      TemplatesPhase(input, t, templates);
      hide Accepts, Owned, ListsPool, ListsFixed;
    } else {
      var f, rest := fixed[0], fixed[1..];
      FirstAndRest(fixed);
      FixedDeletionIsLegal(input, t, f, {}, Elements(fixed), Elements(templates));
      PreparedListed(input, t, {}, Elements(fixed), Elements(templates));
      hide Accepts;
      if Accepts(t, DeleteFixedOp(f)) {
        var u := Step(t, DeleteFixedOp(f));
        assert Elements(fixed) - {f} == Elements(rest);
        FixedPhase(input, u, rest, templates);
        OneFewerFixed(input, t, u, f);
      } else {
        OwnedIsShared(input, t, f);
      }
    }
  }

  lemma {:induction false} TemplatesPhase(input: Resources, t: StoreState, templates: seq<Name>)
    requires Prepared(input, t, {}, {}, Elements(templates)) && OnlyListedPools(input, t) && OnlyListedFixed(input, t)
    requires Distinct(templates)
    ensures Unrefused(t, Deletions([], [], templates))
    decreases |templates|
  {
    hide Prepared, Step, Accepts, OnlyListedPools, OnlyListedFixed;
    if templates != [] {
      var n, rest := templates[0], templates[1..];
      FirstAndRest(templates);
      TemplateDeletionIsLegal(input, t, n, {}, {}, Elements(templates));
      assert Elements(templates) - {n} == Elements(rest);
      TemplatesPhase(input, Step(t, DeleteTemplateOp(n)), rest);
    }
  }

  // ---- the prune while other parts of the program act ----

  /** A deletion the prune makes, or an operation somebody else runs between two of them. */
  datatype PruneStep = Own(op: Op) | Others(op: Op)

  ghost function OwnOps(steps: seq<PruneStep>): seq<Op> {
    if steps == [] then [] else (if steps[0].Own? then [steps[0].op] else []) + OwnOps(steps[1..])
  }

  /** The store accepts every deletion of the prune. */
  ghost predicate NeverRefused(t: StoreState, steps: seq<PruneStep>)
    decreases |steps|
  {
    steps != [] ==> (steps[0].Own? ==> Accepts(t, steps[0].op)) && NeverRefused(Step(t, steps[0].op), steps[1..])
  }

  /** The others run operations on pools, and leave it to the prune to delete these. */
  ghost predicate Leaves(steps: seq<PruneStep>, pools: set<Name>) {
    forall i :: 0 <= i < |steps| && steps[i].Others? ==>
                  Unrelated(steps[i].op) && (steps[i].op.DeletePoolOp? ==> steps[i].op.name !in pools)
  }

  /** Whatever the others do to the pools in between, refreshes included, a prune of an unshared store
      is not refused. */
  lemma InterleavedPruneIsNeverRefused(input: Resources, s: StoreState, sizes: Sizes, pools: seq<Name>,
                                       fixed: seq<Name>, templates: seq<Name>, steps: seq<PruneStep>)
    requires Valid(s) && Closed(input) && Agrees(input, s, sizes) && Unshared(input, s)
    requires Distinct(pools) && Elements(pools) == UnlistedPools(input, s)
    requires Distinct(fixed) && Elements(fixed) == UnlistedFixed(input, s)
    requires Distinct(templates) && Elements(templates) == UnlistedTemplates(input, s)
    requires OwnOps(steps) == Deletions(pools, fixed, templates) && Leaves(steps, UnlistedPools(input, s))
    requires s.nextBatch + |steps| < UINT64_LIMIT
    ensures NeverRefused(s, steps)
  {
    hide Valid, Agrees, Closed, Prepared, Deletions, Unshared, Distinct, ListsPool, ListsFixed, ListsTemplate;
    hide OwnOps, NeverRefused, Leaves;
    ChecksPrepare(input, s, sizes);
    assert forall n :: n in pools <==> n in Elements(pools);
    Interleaved(input, s, pools, fixed, templates, steps);
  }

  lemma {:induction false} Interleaved(input: Resources, t: StoreState, pools: seq<Name>, fixed: seq<Name>,
                                       templates: seq<Name>, steps: seq<PruneStep>)
    requires Prepared(input, t, Elements(pools), Elements(fixed), Elements(templates)) && Unshared(input, t)
    requires Distinct(pools) && (forall n :: n in pools ==> n in t.pools) && Distinct(fixed) && Distinct(templates)
    requires OwnOps(steps) == Deletions(pools, fixed, templates) && Leaves(steps, Elements(pools))
    requires t.nextBatch + |steps| < UINT64_LIMIT
    ensures NeverRefused(t, steps)
    decreases |steps|
  {
    hide Prepared, Step, Accepts, Unshared, Unrelated, Distinct, Elements, Deletions;
    if steps == [] { return; }
    var op, rest := steps[0].op, steps[1..];
    var u := Step(t, op);
    PreparedIsValid(input, t, Elements(pools), Elements(fixed), Elements(templates));
    BatchCounterStep(t, op);
    DeletionsSplit(pools, fixed, templates);
    if steps[0].Others? {
      UnrelatedKeepsPrepared(input, t, op, Elements(pools), Elements(fixed), Elements(templates));
      UnrelatedKeepsUnshared(input, t, op);
      forall n | n in pools ensures n in u.pools { OtherPoolsRemain(t, op, n, pools); }
      Interleaved(input, u, pools, fixed, templates, rest);
    } else if pools != [] {
      OwnPool(input, t, pools, Elements(fixed), Elements(templates));
      Interleaved(input, u, pools[1..], fixed, templates, rest);
    } else if fixed != [] {
      OwnFixed(input, t, fixed, Elements(templates));
      Interleaved(input, u, [], fixed[1..], templates, rest);
    } else {
      OwnTemplate(input, t, templates);
      Interleaved(input, u, [], [], templates[1..], rest);
    }
  }

  lemma PreparedIsValid(input: Resources, t: StoreState, pools: set<Name>, fixed: set<Name>, templates: set<Name>)
    requires Prepared(input, t, pools, fixed, templates)
    ensures Valid(t)
  {
    hide Valid;
  }

  lemma DeletionsSplit(pools: seq<Name>, fixed: seq<Name>, templates: seq<Name>)
    ensures var ops := Deletions(pools, fixed, templates);
      if pools != [] then
        ops != [] && ops[0] == DeletePoolOp(pools[0]) && ops[1..] == Deletions(pools[1..], fixed, templates)
      else if fixed != [] then
        ops != [] && ops[0] == DeleteFixedOp(fixed[0]) && ops[1..] == Deletions([], fixed[1..], templates)
      else if templates != [] then
        ops != [] && ops[0] == DeleteTemplateOp(templates[0]) && ops[1..] == Deletions([], [], templates[1..])
      else ops == []
  {
  }

  lemma OtherPoolsRemain(t: StoreState, op: Op, n: Name, pools: seq<Name>)
    requires Unrelated(op) && n in t.pools && n in pools && (op.DeletePoolOp? ==> op.name !in Elements(pools))
    ensures n in Step(t, op).pools
  {
    hide Generate, Allocate, Advance, Difference, Release, BatchIndex, Without, WithoutDraining, Held, Draining;
  }

  lemma OwnPool(input: Resources, t: StoreState, pools: seq<Name>, fixed: set<Name>, templates: set<Name>)
    requires pools != [] && Distinct(pools) && Prepared(input, t, Elements(pools), fixed, templates)
    requires Unshared(input, t) && forall n :: n in pools ==> n in t.pools
    ensures Accepts(t, DeletePoolOp(pools[0]))
    ensures var u, rest := Step(t, DeletePoolOp(pools[0])), pools[1..];
      Prepared(input, u, Elements(rest), fixed, templates) && Unshared(input, u) && Distinct(rest)
      && (forall n :: n in rest ==> n in u.pools) && Elements(rest) <= Elements(pools)
  {
    hide Prepared, Step, Accepts, Unshared, Distinct;
    var n := pools[0];
    FirstAndRest(pools);
    PoolDeletionIsLegal(input, t, n, Elements(pools), fixed, templates);
    FewerPools(input, t, Step(t, DeletePoolOp(n)), n, Elements(pools), fixed, templates);
    assert Elements(pools) - {n} == Elements(pools[1..]);
  }

  lemma OwnFixed(input: Resources, t: StoreState, fixed: seq<Name>, templates: set<Name>)
    requires fixed != [] && Distinct(fixed) && Prepared(input, t, Elements([]), Elements(fixed), templates)
    requires Unshared(input, t)
    ensures Accepts(t, DeleteFixedOp(fixed[0]))
    ensures var u, rest := Step(t, DeleteFixedOp(fixed[0])), fixed[1..];
      Prepared(input, u, Elements([]), Elements(rest), templates) && Unshared(input, u) && Distinct(rest)
  {
    hide Prepared, Step, Accepts, Unshared, Unowned, Distinct, OnlyListedPools;
    var f := fixed[0];
    FirstAndRest(fixed);
    NoElements<Name>([]);
    PreparedPools(input, t, Elements(fixed), templates);
    PreparedListed(input, t, {}, Elements(fixed), templates);
    if !Unowned(t, f) { OwnedIsShared(input, t, f); }
    FixedDeletionIsLegal(input, t, f, {}, Elements(fixed), templates);
    OneFewerFixed(input, t, Step(t, DeleteFixedOp(f)), f);
    assert Elements(fixed) - {f} == Elements(fixed[1..]);
  }

  lemma OwnTemplate(input: Resources, t: StoreState, templates: seq<Name>)
    requires templates != [] && Distinct(templates) && Unshared(input, t)
    requires Prepared(input, t, Elements([]), Elements([]), Elements(templates))
    ensures Accepts(t, DeleteTemplateOp(templates[0]))
    ensures var u, rest := Step(t, DeleteTemplateOp(templates[0])), templates[1..];
      Prepared(input, u, Elements([]), Elements([]), Elements(rest)) && Unshared(input, u) && Distinct(rest)
  {
    hide Prepared, Step, Accepts, Unshared, Distinct, OnlyListedPools, OnlyListedFixed;
    var n := templates[0];
    FirstAndRest(templates);
    NoElements<Name>([]);
    PreparedPools(input, t, {}, Elements(templates));
    PreparedFixed(input, t, {}, Elements(templates));
    TemplateDeletionIsLegal(input, t, n, {}, {}, Elements(templates));
    AllListedIsUnshared(input, Step(t, DeleteTemplateOp(n)));
    assert Elements(templates) - {n} == Elements(templates[1..]);
  }

  lemma AllListedIsUnshared(input: Resources, t: StoreState)
    requires OnlyListedFixed(input, t)
    ensures Unshared(input, t)
  {
    hide Owned, ListsPool, ListsFixed;
  }

  lemma FirstAndRest(names: seq<Name>)
    requires names != [] && Distinct(names)
    ensures Distinct(names[1..]) && names[0] !in names[1..] && names[0] in Elements(names)
    ensures Elements(names[1..]) == Elements(names) - {names[0]}
    ensures forall n :: n in names[1..] ==> n in names && n != names[0]
  {
    assert names == [names[0]] + names[1..];
  }

  lemma PreparedPools(input: Resources, t: StoreState, fixed: set<Name>, templates: set<Name>)
    requires Prepared(input, t, {}, fixed, templates)
    ensures OnlyListedPools(input, t)
  {
    hide Valid, ListsPool, ListsFixed, ListsTemplate, PoolAsListed, FixedAsListed;
  }

  lemma PreparedFixed(input: Resources, t: StoreState, pools: set<Name>, templates: set<Name>)
    requires Prepared(input, t, pools, {}, templates)
    ensures OnlyListedFixed(input, t)
  {
    hide Valid, ListsPool, ListsFixed, ListsTemplate, PoolAsListed, FixedAsListed;
  }

  lemma PreparedListed(input: Resources, t: StoreState, pools: set<Name>, fixed: set<Name>, templates: set<Name>)
    requires Prepared(input, t, pools, fixed, templates)
    ensures forall f :: f in fixed ==> f in t.fixed && !ListsFixed(input, f)
  {
    hide Valid, ListsPool, ListsFixed, ListsTemplate, PoolAsListed, FixedAsListed;
  }

  /** A deleted unlisted pool takes part in no sharing that matters. */
  lemma FewerPools(input: Resources, t: StoreState, u: StoreState, n: Name, pools: set<Name>, fixed: set<Name>,
                   templates: set<Name>)
    requires Prepared(input, t, pools, fixed, templates) && n in pools && n in t.pools && u == Step(t, DeletePoolOp(n))
    requires Prepared(input, u, pools, fixed, templates)
    ensures Prepared(input, u, pools - {n}, fixed, templates) && (Unshared(input, u) <==> Unshared(input, t))
  {
    hide Valid, Owned, Held, Release, ListsPool, ListsFixed, ListsTemplate, PoolAsListed, FixedAsListed;
  }

  lemma OneFewerFixed(input: Resources, t: StoreState, u: StoreState, f: Name)
    requires OnlyListedPools(input, t) && f in t.fixed && !ListsFixed(input, f) && Unowned(t, f)
    requires u.fixed == t.fixed - {f} && u.pools == t.pools
    ensures Unshared(input, u) <==> Unshared(input, t)
  {
    hide Owned, ListsPool, ListsFixed;
  }

  lemma OwnedIsShared(input: Resources, t: StoreState, f: Name)
    requires OnlyListedPools(input, t) && f in t.fixed && !ListsFixed(input, f) && !Unowned(t, f)
    ensures !Unshared(input, t)
  {
    hide Owned, ListsPool, ListsFixed;
  }

  // ---- a state with sharing ----

  /** A store the loader accepts but no run from the empty store reaches: the only address of pool
      `pool` is the fixed address of `name`, unpinned. */
  ghost function UnpinnedFixed(t: PrefixTemplate, name: Name, pool: Name, a: Address): StoreState {
    var ownership := OwnershipForMode(t.mode);
    StoreState(map[t.name := t], map[name := FixedAddress(name, t.name, a, ownership)],
               map[a := CanonicalAddress(a, t.name, ownership, 2)],
               map[pool := Pool(pool, PoolInbound, t.name, 1, [], [a], [])], 0, map[])
  }

  ghost function KeepOnlyPool(t: PrefixTemplate, pool: Name): Resources {
    Resources([TemplateItem(t.name, t.prefix, t.iface, t.mode)], [], [PoolItem(pool, PoolInbound, t.name, Some(1), [])])
  }

  /** There both checks pass and the prune is refused all the same. */
  lemma UnpinnedFixedBlocksPrune(t: PrefixTemplate, name: Name, pool: Name, a: Address, sizes: Sizes)
    requires Canonical(t) && t.prefix.Contains(a) && !Blank(name) && !Blank(pool)
    ensures var s, input := UnpinnedFixed(t, name, pool, a), KeepOnlyPool(t, pool);
      && Valid(s) && !Exclusive(s) && Closed(input) && Agrees(input, s, sizes)
      && OnlyListedPools(input, s) && !ListsFixed(input, name) && !Unshared(input, s)
      && DeleteFixedAddress(s, name) == Err(FixedReferenced)
  {
    hide Canonical, Prefix.Contains, Blank;
    UnpinnedFixedIsValid(t, name, pool, a);
    KeepOnlyPoolAgrees(t, name, pool, a, sizes);
    UnpinnedFixedIsShared(t, name, pool, a);
    hide *;
    var s, input := UnpinnedFixed(t, name, pool, a), KeepOnlyPool(t, pool);
    if Exclusive(s) { ExclusiveIsUnshared(input, s); }
  }

  lemma UnpinnedFixedIsShared(t: PrefixTemplate, name: Name, pool: Name, a: Address)
    ensures var s, input := UnpinnedFixed(t, name, pool, a), KeepOnlyPool(t, pool);
      && OnlyListedPools(input, s) && !ListsFixed(input, name) && !Unshared(input, s)
      && DeleteFixedAddress(s, name) == Err(FixedReferenced)
  {
    hide Canonical, Blank, OwnershipForMode;
    var s, input := UnpinnedFixed(t, name, pool, a), KeepOnlyPool(t, pool);
    assert input.pools[0].name == pool && ListsPool(input, pool);
    assert name in s.fixed && s.fixed[name].address == a && a in s.pools[pool].active;
    assert a in Owned(s.pools[pool]);
  }

  lemma UnpinnedFixedIsValid(t: PrefixTemplate, name: Name, pool: Name, a: Address)
    requires Canonical(t) && t.prefix.Contains(a) && !Blank(name) && !Blank(pool)
    ensures Valid(UnpinnedFixed(t, name, pool, a))
  {
    hide Canonical, Prefix.Contains, Blank, PoolsOk, FixedOk, AddressesOk, ExpectedReferences, References;
    var s := UnpinnedFixed(t, name, pool, a);
    UnpinnedFixedTables(t, name, pool, a);
    UnpinnedFixedPool(t, name, pool, a);
    forall x: Address ensures References(s.addresses, x) == ExpectedReferences(s.fixed, s.pools, x) {
      UnpinnedFixedUses(t, name, pool, a, x);
    }
  }

  lemma UnpinnedFixedTables(t: PrefixTemplate, name: Name, pool: Name, a: Address)
    requires t.prefix.Contains(a) && !Blank(name)
    ensures var s := UnpinnedFixed(t, name, pool, a); AddressesOk(s) && FixedOk(s)
  {
    hide Prefix.Contains, Blank, OwnershipForMode;
  }

  lemma UnpinnedFixedPool(t: PrefixTemplate, name: Name, pool: Name, a: Address)
    requires !Blank(pool)
    ensures PoolsOk(UnpinnedFixed(t, name, pool, a))
  {
    hide Blank, OwnershipForMode, FixedUses;
    var s := UnpinnedFixed(t, name, pool, a);
    var p := s.pools[pool];
    assert Draining(p) == [];
    assert PoolShape(p) && PoolBacked(s, p);
  }

  lemma UnpinnedFixedUses(t: PrefixTemplate, name: Name, pool: Name, a: Address, x: Address)
    ensures var s := UnpinnedFixed(t, name, pool, a);
      References(s.addresses, x) == ExpectedReferences(s.fixed, s.pools, x)
  {
    var s := UnpinnedFixed(t, name, pool, a);
    var p := s.pools[pool];
    assert Draining(p) == [];
    assert x in p.active <==> x == a;
    assert FixedUses(s.fixed, x) == if x == a then {name} else {};
    assert PinnedUses(s.pools, x) == {};
    assert AutomaticUses(s.pools, x) == if x == a then {pool} else {};
    assert DrainingUses(s.pools, x) == {};
  }

  lemma KeepOnlyPoolAgrees(t: PrefixTemplate, name: Name, pool: Name, a: Address, sizes: Sizes)
    requires Canonical(t) && !Blank(pool)
    ensures Closed(KeepOnlyPool(t, pool)) && Agrees(KeepOnlyPool(t, pool), UnpinnedFixed(t, name, pool, a), sizes)
  {
    hide Canonical, Constructed, Blank, TemplatesAgree, FixedAgree, PoolsAgree, TemplatesAfter, FixedAfter;
    hide CurrentFixed, CurrentPools;
    var s, input := UnpinnedFixed(t, name, pool, a), KeepOnlyPool(t, pool);
    assert input.templates[0].name == t.name && input.fixed == [];
    assert ListsTemplate(input, t.name);
    OneTemplateAgrees(t, input.templates, s.templates);
    NoFixedAgree(s.templates, CurrentFixed(s));
    OnePoolAgrees(t, name, pool, a, sizes);
  }

  lemma OneTemplateAgrees(t: PrefixTemplate, items: seq<TemplateItem>, current: map<Name, PrefixTemplate>)
    requires Canonical(t) && items == [TemplateItem(t.name, t.prefix, t.iface, t.mode)] && current == map[t.name := t]
    ensures TemplatesAgree(items, current) && TemplatesAfter(items, current) == current
  {
    assert Constructed(items[0]) == Ok(t);
    hide Canonical, Constructed;
    assert items[..0] == [];
    assert TemplatesAfter(items[..0], current) == current;
    assert current[t.name := t] == current;
  }

  lemma NoFixedAgree(templates: map<Name, PrefixTemplate>, current: map<Name, FixedEntry>)
    ensures FixedAgree([], templates, current) && FixedAfter([], current) == current
  {
  }

  lemma OnePoolAgrees(t: PrefixTemplate, name: Name, pool: Name, a: Address, sizes: Sizes)
    requires !Blank(pool)
    ensures var s, input := UnpinnedFixed(t, name, pool, a), KeepOnlyPool(t, pool);
      && (forall n :: n in s.pools ==> PinnedFixed(s.fixed, s.pools[n].pinned))
      && PoolsAgree(input.pools, sizes, s.templates, CurrentFixed(s), CurrentPools(s))
  {
    hide Blank, CurrentFixed;
    var s, item := UnpinnedFixed(t, name, pool, a), KeepOnlyPool(t, pool).pools[0];
    assert s.pools[pool].pinned == [] && PinnedFixed(s.fixed, []);
    assert PinnedNames(s.fixed, s.pools[pool].pinned) == [];
    assert CurrentPools(s)[pool] == PoolEntry(PoolInbound, t.name, 1, multiset([]));
    assert PoolAgrees(item, sizes, s.templates, CurrentFixed(s), CurrentPools(s));
  }
}
