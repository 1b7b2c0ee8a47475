/** What each store operation answers and leaves, said of the tables themselves: which calls are
    accepted, the reason behind each refusal, and the whole state after a success. */
module StoreAnswers {
  import opened Wrappers
  import opened Names
  import opened Prefixes
  import opened Walk
  import opened FiniteSets
  import opened DrainIds
  import opened StoreModel
  import opened StoreInvariant

  // ---- changes of the address table ----

  /** These addresses lose one reference each and leave with their last; nothing else changes. */
  ghost predicate Loses(before: map<Address, CanonicalAddress>, after: map<Address, CanonicalAddress>,
                        freed: set<Address>) {
    && (forall a: Address :: References(after, a) == References(before, a) - One(a in freed))
    && (forall a :: a in after ==>
          a in before && after[a].references >= 1 && after[a] == before[a].(references := after[a].references))
  }

  /** `used` gain one reference each, and `joining` join with one. */
  ghost predicate Gains(before: map<Address, CanonicalAddress>, after: map<Address, CanonicalAddress>,
                        used: seq<Address>, joining: seq<Address>, template: Name, mode: ConfigMode) {
    && (forall a: Address :: References(after, a) == References(before, a) + One(a in used) + One(a in joining))
    && (forall a :: a in after <==> a in before || a in joining)
    && (forall a :: a in before && a !in joining ==> after[a] == before[a].(references := after[a].references))
    && (forall a :: a in joining ==> after[a] == CanonicalAddress(a, template, OwnershipForMode(mode), 1))
  }

  lemma ReleaseLoses(addresses: map<Address, CanonicalAddress>, freed: set<Address>)
    requires forall a :: a in addresses ==> addresses[a].references >= 1
    requires forall a :: a in freed ==> a in addresses
    ensures Loses(addresses, Release(addresses, freed), freed)
  {
  }

  lemma AllocateGains(s: StoreState, template: Name, used: seq<Address>, automatic: seq<Address>)
    requires template in s.templates && forall a :: a in used ==> a in s.addresses && a !in automatic
    requires forall a :: a in automatic ==> a !in s.addresses
    ensures Gains(s.addresses, Allocate(s.(addresses := Reference(s.addresses, used)), template, automatic), used,
                  automatic, template, s.templates[template].mode)
  {
    hide OwnershipForMode;
  }

  lemma TableIsCounted(s: StoreState)
    requires Valid(s)
    ensures forall a :: a in s.addresses ==> s.addresses[a].references >= 1
    ensures forall n, a :: n in s.pools && a in Held(s.pools[n]) ==> a in s.addresses
  {
    hide TemplatesOk, CursorsOk, FixedOk, BatchesOk, ReferencesOk, PoolShape, Held;
    forall n, a | n in s.pools && a in Held(s.pools[n]) ensures a in s.addresses {
      assert PoolBacked(s, s.pools[n]);
    }
  }

  // ---- templates and fixed addresses ----

  lemma DeleteTemplateAnswers(s: StoreState, name: Name)
    ensures match DeleteTemplate(s, name)
            case Ok(t) =>
              && name in s.templates && (forall f :: f in s.fixed ==> s.fixed[f].template != name)
              && (forall p :: p in s.pools ==> s.pools[p].template != name)
              && t == s.(templates := t.templates, cursors := t.cursors) && t.templates == s.templates - {name}
              && t.cursors == s.cursors - {s.templates[name].prefix}
            case Err(e) =>
              if name !in s.templates then e == TemplateMissing
              else e == TemplateReferenced && ((exists f :: f in s.fixed && s.fixed[f].template == name)
                                               || (exists p :: p in s.pools && s.pools[p].template == name))
  {
  }

  /** Accepted exactly when every test passes, and otherwise refused for the first one that does not. */
  lemma CreateFixedAddressAnswers(s: StoreState, name: Name, template: Name, a: Address, ownership: Ownership)
    ensures var unused := name != "" && name !in s.fixed;
      var known := unused && template in s.templates;
      var inside := known && s.templates[template].prefix.Contains(a);
      var own := inside && ownership == OwnershipForMode(s.templates[template].mode);
      match CreateFixedAddress(s, name, template, a, ownership)
      case Ok(t) =>
        && own && a !in s.addresses
        && t == s.(fixed := s.fixed[name := FixedAddress(name, template, a, ownership)],
                   addresses := s.addresses[a := CanonicalAddress(a, template, ownership, 1)])
      case Err(FixedNameRequired) => name == ""
      case Err(FixedExists) => name != "" && name in s.fixed
      case Err(TemplateMissing) => unused && !known
      case Err(AddressOutsideTemplate) => known && !inside
      case Err(UnsupportedOwnership) => inside && ownership.OtherOwnership?
      case Err(OwnershipMismatch) => inside && !ownership.OtherOwnership? && !own
      case Err(AddressExists) => own && a in s.addresses
      case Err(_) => false
  {
    hide Prefix.Contains;
  }

  /** A fixed address goes exactly when no pool pins, uses or drains it. */
  lemma DeleteFixedAddressAnswers(s: StoreState, name: Name)
    requires Valid(s)
    ensures match DeleteFixedAddress(s, name)
            case Ok(t) =>
              && name in s.fixed
              && (forall p :: p in s.pools ==> s.fixed[name].address !in Held(s.pools[p]))
              && t == s.(fixed := s.fixed - {name}, addresses := s.addresses - {s.fixed[name].address})
            case Err(e) =>
              if name !in s.fixed then e == FixedMissing
              else e == FixedReferenced && exists p :: p in s.pools && s.fixed[name].address in Held(s.pools[p])
  {
    hide Valid, Held;
    if name in s.fixed { FixedIsFree(s, name); }
  }

  lemma FixedIsFree(s: StoreState, name: Name)
    requires Valid(s) && name in s.fixed
    ensures References(s.addresses, s.fixed[name].address) > 1 <==>
              exists p :: p in s.pools && s.fixed[name].address in Held(s.pools[p])
  {
    hide TemplatesOk, CursorsOk, AddressesOk, BatchesOk, PoolBacked, Draining, Distinct, Blank;
    var a := s.fixed[name].address;
    assert FixedUses(s.fixed, a) == {name} by {
      forall m | m in FixedUses(s.fixed, a) ensures m == name {
      }
    }
    assert References(s.addresses, a) == ExpectedReferences(s.fixed, s.pools, a);
    if p :| p in s.pools && a in Held(s.pools[p]) {
      assert a in s.pools[p].pinned || a in Automatic(s.pools[p]) || a in Draining(s.pools[p]);
      assert p in PinnedUses(s.pools, a) || p in AutomaticUses(s.pools, a) || p in DrainingUses(s.pools, a);
    } else {
      PinnedIsHeld(s);
      assert PinnedUses(s.pools, a) == {} && AutomaticUses(s.pools, a) == {} && DrainingUses(s.pools, a) == {};
    }
  }

  lemma PinnedIsHeld(s: StoreState)
    requires PoolsOk(s)
    ensures forall p, a :: p in s.pools && a in s.pools[p].pinned ==> a in Held(s.pools[p])
  {
    hide PoolBacked, Draining, Distinct, Blank;
    forall p, a | p in s.pools && a in s.pools[p].pinned ensures a in Held(s.pools[p]) {
      assert PoolShape(s.pools[p]);
      assert a in Elements(s.pools[p].pinned);
    }
  }

  // ---- creating and refreshing pools ----

  /** The pinned name is a fixed entry of the template with an address no earlier name has. */
  ghost predicate Pinnable(s: StoreState, template: Name, names: seq<Name>, i: nat)
    requires i < |names|
  {
    && names[i] in s.fixed && s.fixed[names[i]].template == template
    && forall j :: 0 <= j < i ==> names[j] in s.fixed ==> s.fixed[names[j]].address != s.fixed[names[i]].address
  }

  lemma PinnableBefore(s: StoreState, template: Name, names: seq<Name>, n: nat)
    requires n <= |names|
    ensures forall i: nat :: i < n ==> (Pinnable(s, template, names[..n], i) <==> Pinnable(s, template, names, i))
  {
  }

  lemma PinnableNext(s: StoreState, template: Name, names: seq<Name>, n: nat, r: seq<Address>)
    requires n < |names| && PinnedAre(s, names[..n], r)
    ensures Pinnable(s, template, names, n) <==>
              names[n] in s.fixed && s.fixed[names[n]].template == template && s.fixed[names[n]].address !in r
  {
    assert forall j :: 0 <= j < n ==> names[..n][j] == names[j];
    if names[n] in s.fixed && s.fixed[names[n]].address in r {
      var j :| 0 <= j < |r| && r[j] == s.fixed[names[n]].address;
      assert names[j] in s.fixed;
    }
  }

  /** The addresses of these fixed entries, in order. */
  ghost predicate PinnedAre(s: StoreState, names: seq<Name>, pinned: seq<Address>) {
    && |pinned| == |names|
    && forall i :: 0 <= i < |names| ==> names[i] in s.fixed && pinned[i] == s.fixed[names[i]].address
  }

  lemma OneMorePinned(s: StoreState, names: seq<Name>, n: nat, r: seq<Address>)
    requires |names| == n + 1 && PinnedAre(s, names[..n], r) && Distinct(r)
    requires names[n] in s.fixed && s.fixed[names[n]].address !in r
    ensures PinnedAre(s, names, r + [s.fixed[names[n]].address]) && Distinct(r + [s.fixed[names[n]].address])
  {
    assert forall j :: 0 <= j < n ==> names[..n][j] == names[j];
  }

  /** The first name that cannot be pinned, and why. */
  ghost predicate FirstRefused(s: StoreState, template: Name, names: seq<Name>, i: nat, e: StoreError) {
    && i < |names| && !Pinnable(s, template, names, i)
    && (forall j: nat :: j < i ==> Pinnable(s, template, names, j))
    && e == (if names[i] !in s.fixed then PinnedMissing
             else if s.fixed[names[i]].template != template then PinnedOtherTemplate
             else PinnedTwice)
  }

  ghost predicate Refused(s: StoreState, template: Name, names: seq<Name>, e: StoreError) {
    exists i: nat :: FirstRefused(s, template, names, i, e)
  }

  lemma RefusedHere(s: StoreState, template: Name, names: seq<Name>, i: nat, e: StoreError)
    requires FirstRefused(s, template, names, i, e)
    ensures Refused(s, template, names, e)
  {
  }

  lemma RefusedWhy(s: StoreState, template: Name, names: seq<Name>, e: StoreError)
    requires Refused(s, template, names, e)
    ensures e == PinnedMissing || e == PinnedOtherTemplate || e == PinnedTwice
    ensures exists i: nat :: i < |names| && !Pinnable(s, template, names, i)
  {
    hide Pinnable;
    var i: nat :| FirstRefused(s, template, names, i, e);
    assert !Pinnable(s, template, names, i);
  }

  lemma RefusedStays(s: StoreState, template: Name, names: seq<Name>, n: nat, e: StoreError)
    requires n <= |names| && Refused(s, template, names[..n], e)
    ensures Refused(s, template, names, e)
  {
    hide Pinnable;
    PinnableBefore(s, template, names, n);
    var i: nat :| FirstRefused(s, template, names[..n], i, e);
    RefusedHere(s, template, names, i, e);
  }

  lemma {:induction false} ResolvePinnedAnswers(s: StoreState, template: Name, names: seq<Name>)
    ensures match ResolvePinned(s, template, names)
            case Ok(r) =>
              PinnedAre(s, names, r) && Distinct(r) && forall i: nat :: i < |names| ==> Pinnable(s, template, names, i)
            case Err(e) => Refused(s, template, names, e)
  {
    hide Pinnable, PinnedAre, Distinct, Refused;
    if names == [] {
      NothingPinned(s);
    } else {
      var n := |names| - 1;
      var before := names[..n];
      ResolvePinnedAnswers(s, template, before);
      PinnableBefore(s, template, names, n);
      var r := ResolvePinned(s, template, before);
      if r.Ok? {
        PinnableNext(s, template, names, n, r.value);
        if Pinnable(s, template, names, n) {
          OneMorePinned(s, names, n, r.value);
        } else {
          RefusedHere(s, template, names, n, ResolvePinned(s, template, names).error);
        }
      } else {
        RefusedStays(s, template, names, n, r.error);
      }
    }
  }

  lemma NothingPinned(s: StoreState)
    ensures PinnedAre(s, [], []) && Distinct<Address>([])
  {
  }

  /** The automatic addresses are the next walk of the template's prefix, and the position moves past them. */
  ghost predicate Walked(s: StoreState, t: StoreState, template: Name, automatic: seq<Address>)
    requires template in s.templates
  {
    var p := s.templates[template].prefix;
    && IsWalk(p, Begin(p, CursorOf(s, p)), s.addresses.Keys, automatic)
    && t.cursors == if automatic == [] then s.cursors else s.cursors[p := NextWithin(p, automatic[|automatic| - 1])]
  }

  lemma GenerateAnswers(s: StoreState, template: Name, count: nat)
    requires template in s.templates
    ensures var p := s.templates[template].prefix;
      match Generate(s, template, count)
      case Some(r) =>
        |r| == count && count <= |FreeAddresses(p, s.addresses.Keys)|
        && Walked(s, s.(cursors := Advance(s, template, r)), template, r)
        && Distinct(r) && forall a :: a in r ==> a !in s.addresses
      case None => count > |FreeAddresses(p, s.addresses.Keys)|
  {
    hide FreeAddresses;
    if Generate(s, template, count).Some? { GeneratedAreFresh(s, template, count); }
  }

  lemma CreatePoolAnswers(s: StoreState, name: Name, kind: PoolKind, template: Name, capacity: int,
                          pinnedNames: seq<Name>)
    ensures CreatePool(s, name, kind, template, capacity, pinnedNames).Ok? <==>
              && name != "" && name !in s.pools && !kind.OtherPoolKind? && template in s.templates
              && 1 <= capacity <= 4096 && |pinnedNames| <= capacity
              && (forall i: nat :: i < |pinnedNames| ==> Pinnable(s, template, pinnedNames, i))
              && capacity - |pinnedNames| <= |FreeAddresses(s.templates[template].prefix, s.addresses.Keys)|
  {
    hide ResolvePinned, Generate, Advance, Allocate, Reference, FreeAddresses, IsWalk, Distinct, Pinnable, PinnedAre;
    hide Refused;
    if template in s.templates {
      ResolvePinnedAnswers(s, template, pinnedNames);
      var resolved := ResolvePinned(s, template, pinnedNames);
      if resolved.Err? { RefusedWhy(s, template, pinnedNames, resolved.error); }
      if resolved.Ok? && |pinnedNames| <= capacity { GenerateAnswers(s, template, capacity - |pinnedNames|); }
    }
  }

  lemma CreatePoolLeaves(s: StoreState, name: Name, kind: PoolKind, template: Name, capacity: int,
                         pinnedNames: seq<Name>) returns (pinned: seq<Address>, automatic: seq<Address>)
    requires Valid(s) && template in s.templates && CreatePool(s, name, kind, template, capacity, pinnedNames).Ok?
    ensures PinnedAre(s, pinnedNames, pinned) && |automatic| == capacity - |pinned|
    ensures var t := CreatePool(s, name, kind, template, capacity, pinnedNames).value;
      && t == s.(pools := s.pools[name := Pool(name, kind, template, capacity, pinned, pinned + automatic, [])],
                 addresses := t.addresses, cursors := t.cursors)
      && Walked(s, t, template, automatic)
      && Gains(s.addresses, t.addresses, pinned, automatic, template, s.templates[template].mode)
  {
    hide Valid, ResolvePinned, Generate, Advance, Allocate, Reference, FreeAddresses, Gains, Distinct, CreatePool;
    hide Walked, PinnedAre;
    CreatePoolUnfolds(s, name, kind, template, capacity, pinnedNames);
    pinned := ResolvePinned(s, template, pinnedNames).value;
    ResolvedInOrder(s, template, pinnedNames);
    GenerateAnswers(s, template, capacity - |pinned|);
    automatic := Generate(s, template, capacity - |pinned|).value;
    var t := CreatePool(s, name, kind, template, capacity, pinnedNames).value;
    WalkedByCursors(s, s.(cursors := Advance(s, template, automatic)), t, template, automatic);
    PinnedIsKnown(s, template, pinnedNames);
    AllocateGains(s, template, pinned, automatic);
  }

  lemma ResolvedInOrder(s: StoreState, template: Name, names: seq<Name>)
    requires ResolvePinned(s, template, names).Ok?
    ensures PinnedAre(s, names, ResolvePinned(s, template, names).value)
  {
    hide ResolvePinned, Distinct;
    ResolvePinnedAnswers(s, template, names);
  }

  lemma WalkedByCursors(s: StoreState, t: StoreState, u: StoreState, template: Name, automatic: seq<Address>)
    requires template in s.templates && t.cursors == u.cursors
    ensures Walked(s, t, template, automatic) <==> Walked(s, u, template, automatic)
  {
    hide IsWalk, Begin, NextWithin;
  }

  lemma CreatePoolUnfolds(s: StoreState, name: Name, kind: PoolKind, template: Name, capacity: int,
                          pinnedNames: seq<Name>)
    requires CreatePool(s, name, kind, template, capacity, pinnedNames).Ok?
    ensures name != "" && name !in s.pools && !kind.OtherPoolKind? && template in s.templates
    ensures 1 <= capacity <= 4096 && ResolvePinned(s, template, pinnedNames).Ok? && |pinnedNames| <= capacity
    ensures var pinned := ResolvePinned(s, template, pinnedNames).value;
      var generated := Generate(s, template, capacity - |pinned|);
      && generated.Some?
      && CreatePool(s, name, kind, template, capacity, pinnedNames) ==
           Ok(s.(addresses := Allocate(s.(addresses := Reference(s.addresses, pinned)), template, generated.value),
                 pools := s.pools[name := Pool(name, kind, template, capacity, pinned, pinned + generated.value, [])],
                 cursors := Advance(s, template, generated.value)))
  {
    hide ResolvePinned, Generate, Advance, Allocate, Reference;
  }

  lemma PinnedIsKnown(s: StoreState, template: Name, names: seq<Name>)
    requires Valid(s) && ResolvePinned(s, template, names).Ok?
    ensures forall a :: a in ResolvePinned(s, template, names).value ==> a in s.addresses
  {
    hide FixedOk, ResolvePinned, TemplatesOk, CursorsOk, AddressesOk, PoolsOk, BatchesOk, ReferencesOk, FixedUses;
    ResolvedPinnedAreFixed(s, template, names);
  }

  /** Each refusal of a new pool is for the first test that fails. */
  lemma CreatePoolRefusals(s: StoreState, name: Name, kind: PoolKind, template: Name, capacity: int,
                           pinnedNames: seq<Name>)
    requires CreatePool(s, name, kind, template, capacity, pinnedNames).Err?
    ensures var unused := name != "" && name !in s.pools;
      var known := unused && !kind.OtherPoolKind? && template in s.templates;
      var sized := known && 1 <= capacity <= 4096;
      var pinned := sized && forall i: nat :: i < |pinnedNames| ==> Pinnable(s, template, pinnedNames, i);
      match CreatePool(s, name, kind, template, capacity, pinnedNames).error
      case PoolNameRequired => name == ""
      case PoolExists => name != "" && name in s.pools
      case UnsupportedPoolKind => unused && kind.OtherPoolKind?
      case TemplateMissing => unused && !kind.OtherPoolKind? && !known
      case BadCapacity => known && !sized
      case PinnedMissing => sized && Refused(s, template, pinnedNames, PinnedMissing)
      case PinnedOtherTemplate => sized && Refused(s, template, pinnedNames, PinnedOtherTemplate)
      case PinnedTwice => sized && Refused(s, template, pinnedNames, PinnedTwice)
      case TooManyPinned => pinned && |pinnedNames| > capacity
      case NotEnoughAddresses =>
        && pinned && |pinnedNames| <= capacity
        && capacity - |pinnedNames| > |FreeAddresses(s.templates[template].prefix, s.addresses.Keys)|
      case _ => false
  {
    hide ResolvePinned, Generate, Advance, Allocate, Reference, FreeAddresses, IsWalk, Distinct, Pinnable, PinnedAre;
    hide Refused;
    if template in s.templates {
      ResolvePinnedAnswers(s, template, pinnedNames);
      var resolved := ResolvePinned(s, template, pinnedNames);
      if resolved.Err? { RefusedWhy(s, template, pinnedNames, resolved.error); }
      if resolved.Ok? && |pinnedNames| <= capacity { GenerateAnswers(s, template, capacity - |pinnedNames|); }
    }
  }

  /** The entries of a list that are left keep their order. */
  lemma {:induction false} DifferenceKeepsOrder(addresses: seq<Address>, excluded: seq<Address>, i: nat, j: nat,
                                                k: nat, l: nat)
    requires Distinct(addresses) && i < j < |Difference(addresses, excluded)|
    requires k < |addresses| && l < |addresses|
    requires Difference(addresses, excluded)[i] == addresses[k] && Difference(addresses, excluded)[j] == addresses[l]
    ensures k < l
    decreases |addresses|
  {
    var n := |addresses| - 1;
    var shorter := addresses[..n];
    DifferenceSubtracts(shorter, excluded);
    var before := Difference(shorter, excluded);
    assert before[i] in Elements(before) && before[i] in Elements(shorter);
    assert k < n;
    if l < n {
      assert addresses[l] != addresses[n];
      assert j < |before|;
      DifferenceKeepsOrder(shorter, excluded, i, j, k, l);
    }
  }

  /** A refresh is accepted exactly when the pool exists and enough addresses are free, whatever drains
      already; the previous automatic addresses become the last batch. */
  lemma RefreshPoolAnswers(s: StoreState, name: Name)
    requires Valid(s)
    ensures name in s.pools ==> s.pools[name].template in s.templates
    ensures match RefreshPool(s, name)
            case Ok(_) =>
              && name in s.pools
              && var p := s.pools[name];
              p.capacity - |p.pinned| <= |FreeAddresses(s.templates[p.template].prefix, s.addresses.Keys)|
            case Err(e) =>
              if name !in s.pools then e == PoolMissing
              else
                var p := s.pools[name];
                && e == NotEnoughAddresses
                && p.capacity - |p.pinned| > |FreeAddresses(s.templates[p.template].prefix, s.addresses.Keys)|
  {
    hide Valid, Generate, Advance, Allocate, FreeAddresses, PoolBacked, Refreshed;
    if name in s.pools {
      PoolIsOk(s, name);
      GenerateAnswers(s, s.pools[name].template, s.pools[name].capacity - |s.pools[name].pinned|);
    }
  }

  lemma RefreshPoolLeaves(s: StoreState, name: Name) returns (automatic: seq<Address>, retired: seq<Address>)
    requires Valid(s) && name in s.pools && s.pools[name].template in s.templates && RefreshPool(s, name).Ok?
    ensures var p, t := s.pools[name], RefreshPool(s, name).value;
      && |automatic| == p.capacity - |p.pinned| && Walked(s, t, p.template, automatic)
      && Gains(s.addresses, t.addresses, [], automatic, p.template, s.templates[p.template].mode)
      && Distinct(retired) && Elements(retired) == Elements(p.active) - Elements(p.pinned)
      && t.nextBatch == (if retired == [] then s.nextBatch else (s.nextBatch + 1) % UINT64_LIMIT)
      && t == s.(pools := s.pools[name := p.(
                   active := p.pinned + automatic,
                   draining := if retired == [] then p.draining
                               else p.draining + [DrainBatch(DrainId(t.nextBatch), retired)])],
                 addresses := t.addresses, cursors := t.cursors, nextBatch := t.nextBatch)
  {
    hide Valid, Generate, Advance, Allocate, Reference, FreeAddresses, Walked, Gains, Distinct, Difference, PoolBacked;
    PoolIsOk(s, name);
    var p, t := s.pools[name], RefreshPool(s, name).value;
    GenerateAnswers(s, p.template, p.capacity - |p.pinned|);
    automatic := Generate(s, p.template, p.capacity - |p.pinned|).value;
    retired := Difference(p.active, p.pinned);
    ActiveIsDistinct(p);
    DifferenceSubtracts(p.active, p.pinned);
    hide PoolShape;
    WalkedByCursors(s, s.(cursors := Advance(s, p.template, automatic)), t, p.template, automatic);
    ReferenceNothing(s.addresses);
    AllocateGains(s, p.template, [], automatic);
    assert s.(addresses := s.addresses) == s;
  }

  lemma ActiveIsDistinct(p: Pool)
    requires PoolShape(p)
    ensures Distinct(p.active)
  {
    hide Distinct;
  }

  lemma ReferenceNothing(addresses: map<Address, CanonicalAddress>)
    ensures Reference(addresses, []) == addresses
  {
  }

  // ---- giving addresses back ----

  lemma DeletePoolAnswers(s: StoreState, name: Name)
    requires Valid(s)
    ensures match DeletePool(s, name)
            case Ok(t) =>
              && name in s.pools && t == s.(pools := s.pools - {name}, addresses := t.addresses)
              && Loses(s.addresses, t.addresses,
                       Elements(s.pools[name].active) + Elements(Draining(s.pools[name])))
            case Err(e) => name !in s.pools && e == PoolMissing
  {
    hide Valid, Release, Loses, Draining;
    if name in s.pools {
      TableIsCounted(s);
      ReleaseLoses(s.addresses, Held(s.pools[name]));
    }
  }

  /** The first batch with the identifier goes and gives its addresses back. */
  lemma CompleteDrainAnswers(s: StoreState, name: Name, id: string)
    requires Valid(s)
    ensures match CompleteDrain(s, name, id)
            case Ok(t) =>
              && name in s.pools
              && var p := s.pools[name];
              exists i: nat :: i < |p.draining| && p.draining[i].id == id
                               && (forall j :: 0 <= j < i ==> p.draining[j].id != id)
                               && t.pools == s.pools[name := p.(draining := p.draining[..i] + p.draining[i + 1..])]
                               && t == s.(pools := t.pools, addresses := t.addresses)
                               && Loses(s.addresses, t.addresses, Elements(p.draining[i].addresses))
            case Err(e) =>
              if name !in s.pools then e == PoolMissing
              else e == BatchMissing
                   && forall i :: 0 <= i < |s.pools[name].draining| ==> s.pools[name].draining[i].id != id
  {
    hide Valid, Release, Loses, BatchIndex, Flat;
    if name in s.pools {
      var p := s.pools[name];
      var i := BatchIndex(p.draining, id);
      if i < |p.draining| {
        TableIsCounted(s);
        BatchIsHeld(p, i);
        ReleaseLoses(s.addresses, Elements(p.draining[i].addresses));
      }
    }
  }

  lemma BatchIsHeld(p: Pool, i: nat)
    requires i < |p.draining|
    ensures Elements(p.draining[i].addresses) <= Held(p)
  {
    hide Flat;
    FlatAround(p.draining, i);
  }

  /** The address is at place `k` of batch `b`, and nowhere before. */
  ghost predicate FirstAt(draining: seq<DrainBatch>, b: nat, k: nat, a: Address) {
    && b < |draining| && k < |draining[b].addresses| && draining[b].addresses[k] == a
    && a !in draining[b].addresses[..k] && forall j :: 0 <= j < b ==> a !in draining[j].addresses
  }

  /** The address leaves the first batch that drains it; a batch left empty disappears. */
  lemma CompleteDrainedAddressAnswers(s: StoreState, name: Name, a: Address)
    requires Valid(s)
    ensures match CompleteDrainedAddress(s, name, a)
            case Ok(t) =>
              && name in s.pools && name in t.pools
              && var p, q := s.pools[name], t.pools[name];
              && t == s.(pools := s.pools[name := q], addresses := t.addresses) && q == p.(draining := q.draining)
              && Loses(s.addresses, t.addresses, {a})
              && exists b: nat, k: nat ::
                   FirstAt(p.draining, b, k, a)
                   && var rest := p.draining[b].addresses[..k] + p.draining[b].addresses[k + 1..];
                   q.draining == if |p.draining[b].addresses| == 1 then p.draining[..b] + p.draining[b + 1..]
                                 else p.draining[b := p.draining[b].(addresses := rest)]
            case Err(e) =>
              if name !in s.pools then e == PoolMissing
              else e == NotDraining && forall i :: 0 <= i < |s.pools[name].draining| ==>
                                                     a !in s.pools[name].draining[i].addresses
  {
    hide Valid, Release, Loses, Flat, WithoutDraining, Without;
    if name in s.pools {
      var p := s.pools[name];
      if a in Draining(p) {
        TableIsCounted(s);
        ReleaseLoses(s.addresses, {a});
        var b, k := FirstDraining(p.draining, a);
        WithoutDrainingAt(p.draining, b, k, a);
      } else {
        NotInAnyBatch(p.draining, a);
      }
    }
  }

  lemma {:induction false} FirstDraining(draining: seq<DrainBatch>, a: Address) returns (b: nat, k: nat)
    requires a in Flat(draining)
    ensures FirstAt(draining, b, k, a)
  {
    if a in draining[0].addresses {
      b := 0;
      k := FirstOf(draining[0].addresses, a);
    } else {
      b, k := FirstDraining(draining[1..], a);
      b := b + 1;
    }
  }

  lemma {:induction false} FirstOf(s: seq<Address>, a: Address) returns (k: nat)
    requires a in s
    ensures k < |s| && s[k] == a && a !in s[..k]
  {
    if s[0] == a {
      k := 0;
    } else {
      k := FirstOf(s[1..], a);
      assert s[..k + 1] == [s[0]] + s[1..][..k];
      k := k + 1;
    }
  }

  lemma {:induction false} NotInAnyBatch(draining: seq<DrainBatch>, a: Address)
    ensures a !in Flat(draining) <==> forall j :: 0 <= j < |draining| ==> a !in draining[j].addresses
  {
    if draining != [] {
      NotInAnyBatch(draining[1..], a);
      if forall j :: 0 <= j < |draining[1..]| ==> a !in draining[1..][j].addresses {
        forall j | 0 < j < |draining| ensures a !in draining[j].addresses {
          assert draining[j] == draining[1..][j - 1];
        }
      }
    }
  }

  /** Where the first match is decides what completing an address leaves. */
  lemma {:induction false} WithoutDrainingAt(draining: seq<DrainBatch>, b: nat, k: nat, a: Address)
    requires b < |draining| && k < |draining[b].addresses| && draining[b].addresses[k] == a
    requires a !in draining[b].addresses[..k]
    requires forall j :: 0 <= j < b ==> a !in draining[j].addresses
    ensures var rest := draining[b].addresses[..k] + draining[b].addresses[k + 1..];
      WithoutDraining(draining, a) ==
        if rest == [] then draining[..b] + draining[b + 1..] else draining[b := draining[b].(addresses := rest)]
  {
    if b == 0 {
      WithoutAt(draining[0].addresses, k, a);
      assert draining[..0] + draining[1..] == draining[1..];
    } else {
      hide WithoutDraining, Without;
      WithoutDrainingAt(draining[1..], b - 1, k, a);
      WithoutLater(draining, a);
      var rest := draining[b].addresses[..k] + draining[b].addresses[k + 1..];
      LaterChange(draining, b, draining[b].(addresses := rest));
    }
  }

  lemma WithoutLater(draining: seq<DrainBatch>, a: Address)
    requires draining != [] && a !in draining[0].addresses
    ensures WithoutDraining(draining, a) == [draining[0]] + WithoutDraining(draining[1..], a)
  {
  }

  /** Leaving out or replacing an element behind the first. */
  lemma LaterChange<T>(s: seq<T>, b: nat, x: T)
    requires 0 < b < |s|
    ensures [s[0]] + (s[1..][..b - 1] + s[1..][b..]) == s[..b] + s[b + 1..]
    ensures [s[0]] + s[1..][b - 1 := x] == s[b := x]
  {
  }

  lemma {:induction false} WithoutAt(s: seq<Address>, k: nat, a: Address)
    requires k < |s| && s[k] == a && a !in s[..k]
    ensures Without(s, a) == s[..k] + s[k + 1..]
  {
    if k > 0 {
      assert s[0] == s[..k][0];
      assert s[1..][..k - 1] == s[..k][1..];
      WithoutAt(s[1..], k - 1, a);
      assert [s[0]] + (s[1..][..k - 1] + s[1..][k..]) == s[..k] + s[k + 1..];
    }
  }
}
