/** The value of the address store: its entities, the loader's invariant, and the exact
    effect of every operation as a function from store value to store value. */
module StoreModel {
  import opened Wrappers
  import opened Names
  import opened Prefixes
  import opened Walk
  import opened FiniteSets
  import opened DrainIds

  // ---- entities ----

  datatype Ownership = OwnershipAddress | OwnershipRoute | OwnershipExternal | OtherOwnership(text: string)

  datatype PoolKind = PoolInbound | PoolSharedOutbound | PoolDedicatedOutbound | OtherPoolKind(text: string)

  datatype CanonicalAddress = CanonicalAddress(address: Address, template: Name, ownership: Ownership, references: int)

  datatype FixedAddress = FixedAddress(name: Name, template: Name, address: Address, ownership: Ownership)

  datatype DrainBatch = DrainBatch(id: string, addresses: seq<Address>)

  datatype Pool = Pool(
    name: Name, kind: PoolKind, template: Name, capacity: int,
    pinned: seq<Address>, active: seq<Address>, draining: seq<DrainBatch>)

  /** Everything the store holds. `cursors` is the walk position per template prefix. */
  datatype StoreState = StoreState(
    templates: map<Name, PrefixTemplate>,
    fixed: map<Name, FixedAddress>,
    addresses: map<Address, CanonicalAddress>,
    pools: map<Name, Pool>,
    nextBatch: nat,
    cursors: map<Prefix, Address>)

  const EMPTY_STORE := StoreState(map[], map[], map[], map[], 0, map[])

  datatype StoreError =
    | TemplateExists | TemplateOverlaps | TemplateMissing | TemplateReferenced
    | FixedNameRequired | FixedExists | FixedMissing | FixedReferenced
    | AddressOutsideTemplate | UnsupportedOwnership | OwnershipMismatch | AddressExists
    | PoolNameRequired | PoolExists | PoolMissing | UnsupportedPoolKind | BadCapacity
    | PinnedMissing | PinnedOtherTemplate | PinnedTwice | TooManyPinned
    | NotEnoughAddresses | InconsistentOwnership | BatchMissing | NotDraining

  function OwnershipForMode(mode: ConfigMode): Ownership {
    match mode
    case ModeExternal => OwnershipExternal
    case ModeLocalRouteFreebind => OwnershipRoute
    case _ => OwnershipAddress
  }

  predicate ValidOwnership(o: Ownership) { !o.OtherOwnership? }

  predicate ValidPoolKind(k: PoolKind) { !k.OtherPoolKind? }

  // ---- what a pool holds ----

  /** The addresses of all batches, batch after batch. */
  function Flat(draining: seq<DrainBatch>): seq<Address> {
    if draining == [] then [] else draining[0].addresses + Flat(draining[1..])
  }

  function Draining(p: Pool): seq<Address> { Flat(p.draining) }

  ghost function Automatic(p: Pool): set<Address> { Elements(p.active) - Elements(p.pinned) }

  ghost function Held(p: Pool): set<Address> { Elements(p.active) + Elements(Draining(p)) }

  // ---- reference counting ----

  ghost function FixedUses(fixed: map<Name, FixedAddress>, a: Address): set<Name> {
    set n | n in fixed && fixed[n].address == a
  }

  ghost function PinnedUses(pools: map<Name, Pool>, a: Address): set<Name> {
    set n | n in pools && a in pools[n].pinned
  }

  ghost function AutomaticUses(pools: map<Name, Pool>, a: Address): set<Name> {
    set n | n in pools && a in Automatic(pools[n])
  }

  ghost function DrainingUses(pools: map<Name, Pool>, a: Address): set<Name> {
    set n | n in pools && a in Draining(pools[n])
  }

  /** What the loader expects an address to be referenced: its fixed use, the pools pinning it,
      the pools using it without pinning it, and the pools draining it. */
  ghost function ExpectedReferences(fixed: map<Name, FixedAddress>, pools: map<Name, Pool>, a: Address): nat {
    |FixedUses(fixed, a)| + |PinnedUses(pools, a)| + |AutomaticUses(pools, a)| + |DrainingUses(pools, a)|
  }

  function References(addresses: map<Address, CanonicalAddress>, a: Address): int {
    if a in addresses then addresses[a].references else 0
  }

  // ---- the loader's invariant ----

  ghost predicate TemplatesOk(templates: map<Name, PrefixTemplate>) {
    && (forall n :: n in templates ==> templates[n].name == n && Canonical(templates[n]))
    && (forall m, n :: m in templates && n in templates && m != n ==>
          !PrefixesOverlap(templates[m].prefix, templates[n].prefix))
  }

  ghost predicate KnownPrefix(templates: map<Name, PrefixTemplate>, p: Prefix) {
    exists n :: n in templates && templates[n].prefix == p
  }

  ghost predicate CursorsOk(templates: map<Name, PrefixTemplate>, cursors: map<Prefix, Address>) {
    forall p :: p in cursors ==> KnownPrefix(templates, p) && p.Contains(cursors[p])
  }

  ghost predicate AddressOk(templates: map<Name, PrefixTemplate>, c: CanonicalAddress) {
    && c.template in templates
    && templates[c.template].prefix.Contains(c.address)
    && c.ownership == OwnershipForMode(templates[c.template].mode)
    && c.references >= 1
  }

  ghost predicate AddressesOk(s: StoreState) {
    forall a :: a in s.addresses ==> s.addresses[a].address == a && AddressOk(s.templates, s.addresses[a])
  }

  ghost predicate FixedBacked(s: StoreState, f: FixedAddress) {
    && !Blank(f.name)
    && f.address in s.addresses
    && s.addresses[f.address].template == f.template
    && s.addresses[f.address].ownership == f.ownership
  }

  ghost predicate FixedOk(s: StoreState) {
    && (forall n :: n in s.fixed ==> s.fixed[n].name == n && FixedBacked(s, s.fixed[n]))
    && (forall m, n :: m in s.fixed && n in s.fixed && s.fixed[m].address == s.fixed[n].address ==> m == n)
  }

  /** The conditions on a pool that do not mention the rest of the store. */
  ghost predicate PoolShape(p: Pool) {
    && !Blank(p.name) && ValidPoolKind(p.kind)
    && 1 <= p.capacity <= MAX_POOL_SIZE
    && |p.active| == p.capacity && |p.pinned| <= p.capacity
    && Distinct(p.active) && Distinct(p.pinned)
    && Elements(p.pinned) <= Elements(p.active)
    && Distinct(Draining(p))
    && Elements(Draining(p)) !! Elements(p.active)
    && (forall i :: 0 <= i < |p.draining| ==> p.draining[i].addresses != [])
  }

  ghost predicate PoolBacked(s: StoreState, p: Pool) {
    && p.template in s.templates
    && (forall a :: a in Held(p) ==> a in s.addresses && s.addresses[a].template == p.template)
    && (forall a :: a in p.pinned ==> FixedUses(s.fixed, a) != {})
  }

  ghost predicate PoolsOk(s: StoreState) {
    forall n :: n in s.pools ==> s.pools[n].name == n && PoolShape(s.pools[n]) && PoolBacked(s, s.pools[n])
  }

  ghost predicate SequenceOk(id: string, nextBatch: nat) {
    ParseDrainSequence(id).Some? && ParseDrainSequence(id).value <= nextBatch
  }

  /** Every batch identifier is well formed, not ahead of the counter, and used once. */
  ghost predicate BatchesOk(pools: map<Name, Pool>, nextBatch: nat) {
    && (forall n, i :: n in pools && 0 <= i < |pools[n].draining| ==>
          SequenceOk(pools[n].draining[i].id, nextBatch))
    && (forall m, n, i, j ::
          (m in pools && n in pools && 0 <= i < |pools[m].draining| && 0 <= j < |pools[n].draining|
           && pools[m].draining[i].id == pools[n].draining[j].id) ==> m == n && i == j)
  }

  ghost predicate ReferencesOk(s: StoreState) {
    forall a: Address :: References(s.addresses, a) == ExpectedReferences(s.fixed, s.pools, a)
  }

  /** The states `buildStoreFromState` accepts. */
  ghost predicate Valid(s: StoreState) {
    && s.nextBatch < UINT64_LIMIT
    && TemplatesOk(s.templates) && CursorsOk(s.templates, s.cursors)
    && AddressesOk(s) && FixedOk(s) && PoolsOk(s) && BatchesOk(s.pools, s.nextBatch) && ReferencesOk(s)
  }

  /** The addresses a pool owns: all it holds except its pinned fixed addresses. */
  ghost function Owned(p: Pool): set<Address> { Automatic(p) + Elements(Draining(p)) }

  ghost predicate SoleUse(s: StoreState, a: Address) {
    References(s.addresses, a) == 1 && FixedUses(s.fixed, a) == {}
  }

  /** Ownership is exclusive: an automatic or draining address belongs to one pool only and is never
      fixed, and every active fixed address is pinned. The loader does not ask for this. */
  ghost predicate Exclusive(s: StoreState) {
    forall n, a :: n in s.pools && a in Owned(s.pools[n]) ==> SoleUse(s, a)
  }

  // ---- the operations ----

  type Outcome = Result<StoreState, StoreError>

  /** The name check comes first for each template in turn, so which of the two errors is reported
      can depend on the iteration order; either way the template is refused. */
  ghost predicate Admissible(s: StoreState, t: PrefixTemplate) {
    t.name !in s.templates && forall n :: n in s.templates ==> !PrefixesOverlap(s.templates[n].prefix, t.prefix)
  }

  function WithTemplate(s: StoreState, t: PrefixTemplate): StoreState {
    s.(templates := s.templates[t.name := t])
  }

  ghost predicate TemplateInUse(s: StoreState, name: Name) {
    || (exists n :: n in s.fixed && s.fixed[n].template == name)
    || (exists n :: n in s.pools && s.pools[n].template == name)
  }

  ghost function DeleteTemplate(s: StoreState, name: Name): Outcome {
    if name !in s.templates then Err(TemplateMissing)
    else if TemplateInUse(s, name) then Err(TemplateReferenced)
    else Ok(s.(templates := s.templates - {name}, cursors := s.cursors - {s.templates[name].prefix}))
  }

  function NewAddress(s: StoreState, template: Name, a: Address): CanonicalAddress
    requires template in s.templates
  {
    CanonicalAddress(a, template, OwnershipForMode(s.templates[template].mode), 1)
  }

  function CreateFixedAddress(s: StoreState, name: Name, template: Name, a: Address, ownership: Ownership): Outcome {
    if name == "" then Err(FixedNameRequired)
    else if name in s.fixed then Err(FixedExists)
    else if template !in s.templates then Err(TemplateMissing)
    else if !s.templates[template].prefix.Contains(a) then Err(AddressOutsideTemplate)
    else if !ValidOwnership(ownership) then Err(UnsupportedOwnership)
    else if ownership != OwnershipForMode(s.templates[template].mode) then Err(OwnershipMismatch)
    else if a in s.addresses then Err(AddressExists)
    else Ok(s.(fixed := s.fixed[name := FixedAddress(name, template, a, ownership)],
               addresses := s.addresses[a := NewAddress(s, template, a)]))
  }

  function DeleteFixedAddress(s: StoreState, name: Name): Outcome {
    if name !in s.fixed then Err(FixedMissing)
    else
      var a := s.fixed[name].address;
      if References(s.addresses, a) > 1 then Err(FixedReferenced)
      else Ok(s.(addresses := s.addresses - {a}, fixed := s.fixed - {name}))
  }

  /** The addresses named by `names`, in order, or the first complaint about them. */
  function ResolvePinned(s: StoreState, template: Name, names: seq<Name>): (r: Result<seq<Address>, StoreError>)
    ensures r.Ok? ==> |r.value| == |names|
  {
    if names == [] then Ok([])
    else
      var last := names[|names| - 1];
      match ResolvePinned(s, template, names[..|names| - 1])
      case Err(e) => Err(e)
      case Ok(addresses) =>
        if last !in s.fixed then Err(PinnedMissing)
        else if s.fixed[last].template != template then Err(PinnedOtherTemplate)
        else if s.fixed[last].address in addresses then Err(PinnedTwice)
        else Ok(addresses + [s.fixed[last].address])
  }

  function CursorOf(s: StoreState, p: Prefix): Option<Address> {
    if p in s.cursors then Some(s.cursors[p]) else None
  }

  /** The automatic addresses the next pool of `template` receives, or `None` when too few are free. */
  ghost function Generate(s: StoreState, template: Name, count: int): (r: Option<seq<Address>>)
    requires template in s.templates
    ensures r.Some? ==> |r.value| == if count <= 0 then 0 else count
  {
    var p := s.templates[template].prefix;
    if count <= 0 then Some([]) else WalkFor(p, Begin(p, CursorOf(s, p)), s.addresses.Keys, count)
  }

  function Advance(s: StoreState, template: Name, generated: seq<Address>): map<Prefix, Address>
    requires template in s.templates
  {
    var p := s.templates[template].prefix;
    if generated == [] then s.cursors else s.cursors[p := NextWithin(p, generated[|generated| - 1])]
  }

  /** New canonical addresses join the table with one reference each. */
  function Allocate(s: StoreState, template: Name, generated: seq<Address>): map<Address, CanonicalAddress>
    requires template in s.templates
  {
    s.addresses + map a | a in generated :: NewAddress(s, template, a)
  }

  /** Addresses gain one reference each. */
  function Reference(addresses: map<Address, CanonicalAddress>, used: seq<Address>): map<Address, CanonicalAddress> {
    map a | a in addresses ::
      if a in used then addresses[a].(references := addresses[a].references + 1) else addresses[a]
  }

  /** Addresses lose one reference each; an address without references leaves the table. */
  ghost function Release(addresses: map<Address, CanonicalAddress>,
                         freed: set<Address>): map<Address, CanonicalAddress> {
    map a | a in addresses && !(a in freed && addresses[a].references == 1) ::
      if a in freed then addresses[a].(references := addresses[a].references - 1) else addresses[a]
  }

  ghost function CreatePool(s: StoreState, name: Name, kind: PoolKind, template: Name, capacity: int,
                            pinnedNames: seq<Name>): Outcome {
    if name == "" then Err(PoolNameRequired)
    else if name in s.pools then Err(PoolExists)
    else if !ValidPoolKind(kind) then Err(UnsupportedPoolKind)
    else if template !in s.templates then Err(TemplateMissing)
    else if capacity < 1 || capacity > MAX_POOL_SIZE then Err(BadCapacity)
    else
      match ResolvePinned(s, template, pinnedNames)
      case Err(e) => Err(e)
      case Ok(pinned) =>
        if |pinned| > capacity then Err(TooManyPinned)
        else
          match Generate(s, template, capacity - |pinned|)
          case None => Err(NotEnoughAddresses)
          case Some(automatic) =>
            var pool := Pool(name, kind, template, capacity, pinned, pinned + automatic, []);
            Ok(s.(addresses := Allocate(s.(addresses := Reference(s.addresses, pinned)), template, automatic),
                  pools := s.pools[name := pool],
                  cursors := Advance(s, template, automatic)))
  }

  /** `difference`: the entries of `addresses` that are not excluded, in order. */
  function Difference(addresses: seq<Address>, excluded: seq<Address>): seq<Address> {
    if addresses == [] then []
    else
      var before := Difference(addresses[..|addresses| - 1], excluded);
      var last := addresses[|addresses| - 1];
      if last in excluded then before else before + [last]
  }

  /** The store after pool `name` takes these automatic addresses and drains its previous ones.
      The batch counter is 64 bits wide and wraps. */
  ghost function Refreshed(s: StoreState, name: Name, automatic: seq<Address>): StoreState
    requires name in s.pools && s.pools[name].template in s.templates
  {
    var pool := s.pools[name];
    var retired := Difference(pool.active, pool.pinned);
    var sequence := (s.nextBatch + 1) % UINT64_LIMIT;
    StoreState(
      s.templates, s.fixed,
      Allocate(s, pool.template, automatic),
      s.pools[name := pool.(
        active := pool.pinned + automatic,
        draining := if retired == [] then pool.draining else pool.draining + [DrainBatch(DrainId(sequence), retired)])],
      if retired == [] then s.nextBatch else sequence,
      Advance(s, pool.template, automatic))
  }

  ghost function RefreshPool(s: StoreState, name: Name): Outcome
    requires name in s.pools ==> s.pools[name].template in s.templates
  {
    if name !in s.pools then Err(PoolMissing)
    else
      match Generate(s, s.pools[name].template, s.pools[name].capacity - |s.pools[name].pinned|)
      case None => Err(NotEnoughAddresses)
      case Some(automatic) => Ok(Refreshed(s, name, automatic))
  }

  ghost function DeletePool(s: StoreState, name: Name): Outcome {
    if name !in s.pools then Err(PoolMissing)
    else Ok(s.(addresses := Release(s.addresses, Held(s.pools[name])), pools := s.pools - {name}))
  }

  /** The position of the batch with this identifier, or the number of batches. */
  function BatchIndex(draining: seq<DrainBatch>, id: string): (i: nat)
    ensures i <= |draining| && (i < |draining| ==> draining[i].id == id)
    ensures forall j :: 0 <= j < i ==> draining[j].id != id
  {
    if draining == [] || draining[0].id == id then 0 else 1 + BatchIndex(draining[1..], id)
  }

  ghost function CompleteDrain(s: StoreState, name: Name, id: string): Outcome {
    if name !in s.pools then Err(PoolMissing)
    else
      var pool := s.pools[name];
      var i := BatchIndex(pool.draining, id);
      if i == |pool.draining| then Err(BatchMissing)
      else Ok(s.(addresses := Release(s.addresses, Elements(pool.draining[i].addresses)),
                 pools := s.pools[name := pool.(draining := pool.draining[..i] + pool.draining[i + 1..])]))
  }

  function Without(addresses: seq<Address>, a: Address): seq<Address>
  {
    if addresses == [] then []
    else if addresses[0] == a then addresses[1..]
    else [addresses[0]] + Without(addresses[1..], a)
  }

  /** The batches after `a` left its batch; a batch that becomes empty disappears. */
  function WithoutDraining(draining: seq<DrainBatch>, a: Address): seq<DrainBatch> {
    if draining == [] then []
    else if a !in draining[0].addresses then [draining[0]] + WithoutDraining(draining[1..], a)
    else
      var rest := Without(draining[0].addresses, a);
      if rest == [] then draining[1..] else [draining[0].(addresses := rest)] + draining[1..]
  }

  ghost function CompleteDrainedAddress(s: StoreState, name: Name, a: Address): Outcome {
    if name !in s.pools then Err(PoolMissing)
    else
      var pool := s.pools[name];
      if a !in Draining(pool) then Err(NotDraining)
      else Ok(s.(addresses := Release(s.addresses, {a}),
                 pools := s.pools[name := pool.(draining := WithoutDraining(pool.draining, a))]))
  }
}
