/** Every operation of the address store keeps the loader's invariant, with the exact condition
    where the create operations are more permissive than the loader. */
module StoreInvariant {
  import opened Wrappers
  import opened Names
  import opened Prefixes
  import opened Walk
  import opened FiniteSets
  import opened DrainIds
  import opened StoreModel

  // ---- batches and flattened draining lists ----

  lemma {:induction false} FlatSplits(left: seq<DrainBatch>, right: seq<DrainBatch>)
    ensures Flat(left + right) == Flat(left) + Flat(right)
  {
    if left == [] {
      assert left + right == right;
    } else {
      var first, rest := left[0], left[1..];
      assert left + right == [first] + (rest + right);
      FlatSplits(rest, right);
      FlatCons(first, rest + right);
      hide Flat;
      assert first.addresses + (Flat(rest) + Flat(right)) == first.addresses + Flat(rest) + Flat(right);
    }
  }

  lemma FlatCons(b: DrainBatch, r: seq<DrainBatch>)
    ensures Flat([b] + r) == b.addresses + Flat(r)
  {
    assert ([b] + r)[1..] == r;
  }

  lemma FlatOfPrefix(draining: seq<DrainBatch>, i: nat)
    requires i < |draining|
    ensures Flat(draining[..i + 1]) == Flat(draining[..i]) + draining[i].addresses
  {
    assert draining[..i + 1] == draining[..i] + [draining[i]];
    FlatSplits(draining[..i], [draining[i]]);
    FlatCons(draining[i], []);
    assert [draining[i]] + [] == [draining[i]];
    assert draining[i].addresses + Flat([]) == draining[i].addresses;
  }

  lemma FlatOfNothing(draining: seq<DrainBatch>)
    ensures Flat(draining[..0]) == []
  {
  }

  lemma ConcatAssociates<T>(x: seq<T>, y: seq<T>, z: seq<T>)
    ensures x + (y + z) == x + y + z
  {
  }

  lemma SplitAround<T>(s: seq<T>, i: nat)
    requires i < |s|
    ensures s == s[..i] + ([s[i]] + s[i + 1..])
  {
  }

  lemma FlatOfParts(l: seq<DrainBatch>, b: DrainBatch, r: seq<DrainBatch>)
    ensures Flat(l + ([b] + r)) == Flat(l) + b.addresses + Flat(r)
  {
    hide Flat;
    FlatSplits(l, [b] + r);
    FlatCons(b, r);
    ConcatAssociates(Flat(l), b.addresses, Flat(r));
  }

  lemma FlatAround(draining: seq<DrainBatch>, i: nat)
    requires i < |draining|
    ensures Flat(draining) == Flat(draining[..i]) + draining[i].addresses + Flat(draining[i + 1..])
  {
    hide Flat;
    FlatOfParts(draining[..i], draining[i], draining[i + 1..]);
    SplitAround(draining, i);
  }

  /** Batch `i` is removed, or replaced by one with the same identifier and fewer addresses. */
  ghost predicate Shrinks(before: seq<DrainBatch>, after: seq<DrainBatch>, i: nat, freed: set<Address>) {
    && i < |before|
    && freed <= Elements(before[i].addresses)
    && (|| (after == before[..i] + before[i + 1..] && freed == Elements(before[i].addresses))
        || (|after| == |before| && after[..i] == before[..i] && after[i + 1..] == before[i + 1..]
            && after[i].id == before[i].id && after[i].addresses != []
            && (Distinct(before[i].addresses) ==> Distinct(after[i].addresses))
            && Elements(after[i].addresses) == Elements(before[i].addresses) - freed))
  }

  lemma ShrinkingFreesExactly(before: seq<DrainBatch>, after: seq<DrainBatch>, i: nat, freed: set<Address>)
    requires Shrinks(before, after, i, freed) && Distinct(Flat(before))
    ensures Distinct(Flat(after))
    ensures Elements(Flat(after)) == Elements(Flat(before)) - freed
  {
    var l, m, r := Flat(before[..i]), before[i].addresses, Flat(before[i + 1..]);
    FlatAround(before, i);
    DistinctParts(l, m, r);
    ElementsOfThree(l, m, r);
    if |after| == |before| {
      FlatAround(after, i);
      hide Distinct, Elements, Flat;
      var n := after[i].addresses;
      assert Distinct(n) && Elements(n) == Elements(m) - freed;
      DistinctWhole(l, n, r);
      ElementsOfThree(l, n, r);
    } else {
      FlatSplits(before[..i], before[i + 1..]);
      assert Flat(after) == l + [] + r;
      hide Flat;
      DistinctWhole(l, [], r);
      ElementsOfThree(l, [], r);
    }
  }

  lemma ElementsOfThree<T>(l: seq<T>, m: seq<T>, r: seq<T>)
    ensures Elements(l + m + r) == Elements(l) + Elements(m) + Elements(r)
  {
  }

  lemma DistinctParts<T(!new)>(l: seq<T>, m: seq<T>, r: seq<T>)
    requires Distinct(l + m + r)
    ensures Distinct(l) && Distinct(m) && Distinct(r)
    ensures Elements(l) !! Elements(m) && Elements(l) !! Elements(r) && Elements(m) !! Elements(r)
  {
    var s := l + m + r;
    assert forall i :: 0 <= i < |l| ==> s[i] == l[i];
    assert forall i :: 0 <= i < |m| ==> s[|l| + i] == m[i];
    assert forall i :: 0 <= i < |r| ==> s[|l| + |m| + i] == r[i];
  }

  lemma DistinctWhole<T(!new)>(l: seq<T>, m: seq<T>, r: seq<T>)
    requires Distinct(l) && Distinct(m) && Distinct(r)
    requires Elements(l) !! Elements(m) && Elements(l) !! Elements(r) && Elements(m) !! Elements(r)
    ensures Distinct(l + m + r)
  {
    var s := l + m + r;
    forall i, j | 0 <= i < j < |s| ensures s[i] != s[j] {
      assert i < |l| ==> s[i] in Elements(l);
      assert |l| <= i < |l| + |m| ==> s[i] == m[i - |l|] && s[i] in Elements(m);
      assert j < |l| ==> s[j] in Elements(l);
      assert |l| <= j < |l| + |m| ==> s[j] == m[j - |l|] && s[j] in Elements(m);
      assert |l| + |m| <= j ==> s[j] == r[j - |l| - |m|] && s[j] in Elements(r);
      assert |l| + |m| <= i ==> s[i] == r[i - |l| - |m|];
    }
  }

  lemma RemovingABatchShrinks(draining: seq<DrainBatch>, i: nat)
    requires i < |draining|
    ensures Shrinks(draining, draining[..i] + draining[i + 1..], i, Elements(draining[i].addresses))
  {
  }

  lemma {:induction false} WithoutRemovesOne(s: seq<Address>, a: Address)
    requires Distinct(s)
    ensures Distinct(Without(s, a)) && Elements(Without(s, a)) == Elements(s) - {a}
    ensures a in s ==> |Without(s, a)| == |s| - 1
  {
    if s != [] {
      assert s == [s[0]] + s[1..];
      assert Elements(s) == {s[0]} + Elements(s[1..]);
      if s[0] == a {
        assert a !in s[1..];
      } else {
        WithoutRemovesOne(s[1..], a);
        assert s[0] !in s[1..];
        assert s[0] !in Elements(Without(s[1..], a));
        assert Elements([s[0]] + Without(s[1..], a)) == {s[0]} + Elements(Without(s[1..], a));
      }
    }
  }

  /** Completing one address shrinks the one batch that drains it. */
  lemma {:induction false} WithoutDrainingShrinks(draining: seq<DrainBatch>, a: Address) returns (i: nat)
    requires a in Flat(draining) && Distinct(Flat(draining))
    ensures Shrinks(draining, WithoutDraining(draining, a), i, {a})
  {
    var first, rest := draining[0].addresses, draining[1..];
    assert Flat(draining) == [] + first + Flat(rest);
    DistinctParts([], first, Flat(rest));
    if a in first {
      i := 0;
      WithoutRemovesOne(first, a);
      FirstBatchShrinks(draining, a);
    } else {
      assert a in Flat(rest);
      var k := WithoutDrainingShrinks(rest, a);
      i := k + 1;
      LaterBatchShrinks(draining[0], rest, WithoutDraining(rest, a), k, {a});
      assert draining == [draining[0]] + rest;
    }
  }

  lemma FirstBatchShrinks(draining: seq<DrainBatch>, a: Address)
    requires draining != [] && Distinct(draining[0].addresses) && a in draining[0].addresses
    ensures Shrinks(draining, WithoutDraining(draining, a), 0, {a})
  {
    var first := draining[0].addresses;
    WithoutRemovesOne(first, a);
    if Without(first, a) == [] {
      assert Elements(first) - {a} == Elements(Without(first, a)) == {};
      assert draining[1..] == draining[..0] + draining[1..];
    }
  }

  lemma LaterBatchShrinks(first: DrainBatch, before: seq<DrainBatch>, after: seq<DrainBatch>, i: nat,
                          freed: set<Address>)
    requires Shrinks(before, after, i, freed)
    ensures Shrinks([first] + before, [first] + after, i + 1, freed)
  {
    var b, t := [first] + before, [first] + after;
    assert b[..i + 1] == [first] + before[..i] && b[i + 2..] == before[i + 1..];
    if |after| == |before| {
      assert t[..i + 1] == [first] + after[..i] && t[i + 2..] == after[i + 1..];
    }
  }

  // ---- reference counting ----

  function One(b: bool): nat { if b then 1 else 0 }

  ghost function PoolUses(p: Pool, a: Address): nat {
    One(a in p.pinned) + One(a in Automatic(p)) + One(a in Draining(p))
  }

  /** A well-shaped pool references each address it holds once. */
  lemma WellShapedPoolUsesOnce(p: Pool, a: Address)
    requires PoolShape(p)
    ensures PoolUses(p, a) == One(a in Held(p))
  {
    assert a in p.active <==> a in Elements(p.active);
    assert a in p.pinned <==> a in Elements(p.pinned);
    assert a in Draining(p) <==> a in Elements(Draining(p));
  }

  lemma SizesDifferByOne<T>(x: set<T>, y: set<T>, e: T)
    requires forall m :: m != e ==> (m in x <==> m in y)
    ensures |y| == |x| - One(e in x) + One(e in y)
  {
    var rest := x - {e};
    assert rest == y - {e};
    if e in x { assert x == rest + {e}; } else { assert x == rest; }
    if e in y { assert y == rest + {e}; } else { assert y == rest; }
  }

  ghost predicate SameBut<V>(x: map<Name, V>, y: map<Name, V>, n: Name) {
    forall m :: m != n ==> (m in x <==> m in y) && (m in x ==> x[m] == y[m])
  }

  /** Changing, adding or removing pool `n` changes the expected count by that pool's uses. */
  lemma ExpectedFollowsPool(fixed: map<Name, FixedAddress>, x: map<Name, Pool>, y: map<Name, Pool>, n: Name, a: Address)
    requires SameBut(x, y, n)
    ensures ExpectedReferences(fixed, y, a)
         == ExpectedReferences(fixed, x, a) - (if n in x then PoolUses(x[n], a) else 0)
                                            + (if n in y then PoolUses(y[n], a) else 0)
  {
    SizesDifferByOne(PinnedUses(x, a), PinnedUses(y, a), n);
    SizesDifferByOne(AutomaticUses(x, a), AutomaticUses(y, a), n);
    SizesDifferByOne(DrainingUses(x, a), DrainingUses(y, a), n);
  }

  lemma ExpectedFollowsFixed(x: map<Name, FixedAddress>, y: map<Name, FixedAddress>, pools: map<Name, Pool>, n: Name,
                             a: Address)
    requires SameBut(x, y, n)
    ensures ExpectedReferences(y, pools, a)
         == ExpectedReferences(x, pools, a) - One(n in x && x[n].address == a) + One(n in y && y[n].address == a)
  {
    SizesDifferByOne(FixedUses(x, a), FixedUses(y, a), n);
  }

  /** A pool that holds an address and a fixed entry that names it are both counted. */
  lemma UsersAreCounted(fixed: map<Name, FixedAddress>, pools: map<Name, Pool>, n: Name, a: Address)
    ensures n in pools && a in Held(pools[n]) ==> ExpectedReferences(fixed, pools, a) >= 1
    ensures n in fixed && fixed[n].address == a ==> ExpectedReferences(fixed, pools, a) >= 1
  {
    if n in pools && a in Held(pools[n]) {
      ExpectedFollowsPool(fixed, pools, pools - {n}, n, a);
    }
    if n in fixed && fixed[n].address == a {
      assert n in FixedUses(fixed, a);
    }
  }

  lemma PoolIsOk(s: StoreState, n: Name)
    requires Valid(s) && n in s.pools
    ensures s.pools[n].name == n && PoolShape(s.pools[n]) && PoolBacked(s, s.pools[n])
            && s.pools[n].template in s.templates
  {
    hide TemplatesOk, PoolShape, FixedOk, AddressesOk, CursorsOk, BatchesOk, ReferencesOk;
  }

  /** Nothing refers to an address that is not in the table. */
  lemma UnknownAddressIsUnused(s: StoreState, a: Address)
    requires Valid(s) && a !in s.addresses
    ensures ExpectedReferences(s.fixed, s.pools, a) == 0
    ensures FixedUses(s.fixed, a) == {}
    ensures forall n :: n in s.pools ==> a !in Held(s.pools[n])
  {
    assert References(s.addresses, a) == 0;
    forall n | n in s.pools ensures a !in Held(s.pools[n]) {
      UsersAreCounted(s.fixed, s.pools, n, a);
    }
  }

  /** The count of an address covers the pool that holds it. */
  lemma HeldMeansReferenced(s: StoreState, n: Name, a: Address)
    requires Valid(s) && n in s.pools
    ensures References(s.addresses, a) >= PoolUses(s.pools[n], a)
    ensures PoolUses(s.pools[n], a) == One(a in Held(s.pools[n]))
  {
    WellShapedPoolUsesOnce(s.pools[n], a);
    ExpectedFollowsPool(s.fixed, s.pools, s.pools - {n}, n, a);
    assert References(s.addresses, a) == ExpectedReferences(s.fixed, s.pools, a);
  }

  lemma {:induction false} DifferenceSubtracts(addresses: seq<Address>, excluded: seq<Address>)
    requires Distinct(addresses)
    ensures Distinct(Difference(addresses, excluded))
    ensures Elements(Difference(addresses, excluded)) == Elements(addresses) - Elements(excluded)
  {
    if addresses != [] {
      var before, last := addresses[..|addresses| - 1], addresses[|addresses| - 1];
      DifferenceSubtracts(before, excluded);
      assert addresses == before + [last];
      assert Elements(addresses) == Elements(before) + {last};
      assert last !in before;
      assert last !in Elements(before);
      var rest := Difference(before, excluded);
      assert Elements(rest + [last]) == Elements(rest) + {last};
      assert last in excluded <==> last in Elements(excluded);
    }
  }

  // ---- templates ----

  /** Templates and cursors may change as long as every template in use stays. */
  lemma ChangeTemplates(s: StoreState, templates: map<Name, PrefixTemplate>, cursors: map<Prefix, Address>)
    requires Valid(s) && TemplatesOk(templates) && CursorsOk(templates, cursors)
    requires forall a :: a in s.addresses ==> KeepsTemplate(s.templates, templates, s.addresses[a].template)
    requires forall n :: n in s.pools ==> KeepsTemplate(s.templates, templates, s.pools[n].template)
    ensures Valid(s.(templates := templates, cursors := cursors))
  {
    hide TemplatesOk, CursorsOk, BatchesOk, ReferencesOk, PoolShape;
    hide Prefix.Contains, OwnershipForMode, Blank, FixedUses, Held;
    var next := s.(templates := templates, cursors := cursors);
    assert ReferencesOk(next) by { ReferencesDependOnTables(s, next); }
    forall a | a in next.addresses ensures next.addresses[a].address == a && AddressOk(templates, next.addresses[a]) {
      assert AddressOk(s.templates, s.addresses[a]);
    }
    forall n | n in next.fixed ensures FixedBacked(next, next.fixed[n]) {
      assert FixedBacked(s, s.fixed[n]);
    }
    forall n | n in next.pools ensures PoolBacked(next, next.pools[n]) {
      assert PoolBacked(s, s.pools[n]);
    }
  }

  ghost predicate KeepsTemplate(x: map<Name, PrefixTemplate>, y: map<Name, PrefixTemplate>, n: Name) {
    n in x ==> n in y && y[n] == x[n]
  }

  lemma ReferencesDependOnTables(s: StoreState, t: StoreState)
    requires ReferencesOk(s) && s.addresses == t.addresses && s.fixed == t.fixed && s.pools == t.pools
    ensures ReferencesOk(t)
  {
    hide References, ExpectedReferences;
  }

  lemma TemplatesGrow(templates: map<Name, PrefixTemplate>, t: PrefixTemplate)
    requires TemplatesOk(templates) && t.name !in templates && Canonical(t)
    requires forall n :: n in templates ==> !PrefixesOverlap(templates[n].prefix, t.prefix)
    ensures TemplatesOk(templates[t.name := t])
  {
    hide Canonical;
    assert forall n :: n in templates ==> !PrefixesOverlap(t.prefix, templates[n].prefix);
    hide PrefixesOverlap;
  }

  lemma CursorsStayKnown(x: map<Name, PrefixTemplate>, y: map<Name, PrefixTemplate>,
                         cursors: map<Prefix, Address>, kept: map<Prefix, Address>)
    requires CursorsOk(x, cursors)
    requires forall p :: p in kept ==> p in cursors && kept[p] == cursors[p]
    requires forall p, n :: p in kept && n in x && x[n].prefix == p ==> n in y && y[n] == x[n]
    ensures CursorsOk(y, kept)
  {
    hide Prefix.Contains;
    forall p | p in kept ensures KnownPrefix(y, p) {
      var n :| n in x && x[n].prefix == p;
      assert n in y && y[n].prefix == p;
    }
  }

  lemma AddTemplateKeepsValid(s: StoreState, t: PrefixTemplate)
    requires Valid(s) && Admissible(s, t)
    ensures Valid(WithTemplate(s, t)) <==> Canonical(t)
  {
    hide Canonical, PrefixesOverlap, CursorsOk, AddressesOk, FixedOk, PoolsOk, BatchesOk, ReferencesOk;
    var next := WithTemplate(s, t);
    if Canonical(t) {
      TemplatesGrow(s.templates, t);
      CursorsStayKnown(s.templates, next.templates, s.cursors, s.cursors);
      ChangeTemplates(s, next.templates, s.cursors);
    } else {
      assert t.name in next.templates && next.templates[t.name] == t;
    }
  }

  /** Every address in the table belongs to a fixed entry or a pool of its template. */
  lemma AddressHasAUser(s: StoreState, a: Address)
    requires Valid(s) && a in s.addresses
    ensures TemplateInUse(s, s.addresses[a].template)
  {
    hide TemplatesOk, CursorsOk, BatchesOk, PoolShape, Blank;
    assert AddressOk(s.templates, s.addresses[a]);
    assert References(s.addresses, a) == ExpectedReferences(s.fixed, s.pools, a) >= 1;
    if FixedUses(s.fixed, a) != {} {
      var n :| n in FixedUses(s.fixed, a);
      assert FixedBacked(s, s.fixed[n]);
    } else {
      var n := SomePoolHolds(s, a);
      assert PoolBacked(s, s.pools[n]);
    }
  }

  lemma SomePoolHolds(s: StoreState, a: Address) returns (n: Name)
    requires PoolsOk(s) && FixedUses(s.fixed, a) == {} && ExpectedReferences(s.fixed, s.pools, a) >= 1
    ensures n in s.pools && a in Held(s.pools[n])
  {
    hide PoolBacked;
    if PinnedUses(s.pools, a) != {} {
      n :| n in PinnedUses(s.pools, a);
      assert PoolShape(s.pools[n]);
      assert a in Elements(s.pools[n].pinned);
    } else if AutomaticUses(s.pools, a) != {} {
      n :| n in AutomaticUses(s.pools, a);
    } else {
      assert DrainingUses(s.pools, a) != {};
      n :| n in DrainingUses(s.pools, a);
    }
  }

  lemma TemplatesShrink(templates: map<Name, PrefixTemplate>, name: Name)
    requires TemplatesOk(templates) && name in templates
    ensures TemplatesOk(templates - {name})
    ensures forall n :: n in templates && n != name ==> templates[n].prefix != templates[name].prefix
  {
    hide Canonical;
    forall n | n in templates && n != name ensures templates[n].prefix != templates[name].prefix {
      var p := templates[n].prefix;
      OverlapIsReflexive(p);
    }
  }

  lemma OverlapIsReflexive(p: Prefix)
    ensures PrefixesOverlap(p, p)
  {
    ModBounds(p.addr, p.Size());
  }

  lemma DeleteTemplateKeepsValid(s: StoreState, name: Name)
    requires Valid(s) && DeleteTemplate(s, name).Ok?
    ensures Valid(DeleteTemplate(s, name).value)
  {
    hide TemplatesOk, CursorsOk, PoolBacked, PoolShape, AddressOk, FixedBacked, BatchesOk, ReferencesOk;
    var next := DeleteTemplate(s, name).value;
    forall a | a in s.addresses ensures s.addresses[a].template != name {
      AddressHasAUser(s, a);
    }
    TemplatesShrink(s.templates, name);
    CursorsStayKnown(s.templates, next.templates, s.cursors, next.cursors);
    ChangeTemplates(s, next.templates, next.cursors);
  }

  // ---- the tables ----

  /** What stays fixed about an address while its references change. */
  ghost predicate SameIdentity(c: CanonicalAddress, d: CanonicalAddress) {
    c.address == d.address && c.template == d.template && c.ownership == d.ownership
  }

  /** The address table changed: entries kept their identity, or are new and well formed. */
  ghost predicate TableStep(s: StoreState, addresses: map<Address, CanonicalAddress>) {
    forall a :: a in addresses ==>
      && addresses[a].references >= 1
      && (a in s.addresses ==> SameIdentity(addresses[a], s.addresses[a]))
      && (a !in s.addresses ==> addresses[a].address == a && AddressOk(s.templates, addresses[a]))
  }

  lemma TableStepKeepsAddressesOk(s: StoreState, t: StoreState)
    requires AddressesOk(s) && t.templates == s.templates && TableStep(s, t.addresses)
    ensures AddressesOk(t)
  {
    hide Prefix.Contains, OwnershipForMode;
    forall a | a in t.addresses ensures t.addresses[a].address == a && AddressOk(t.templates, t.addresses[a]) {
      if a in s.addresses { assert AddressOk(s.templates, s.addresses[a]); }
    }
  }

  lemma CountedIsPresent(s: StoreState, a: Address)
    requires ReferencesOk(s) && ExpectedReferences(s.fixed, s.pools, a) >= 1
    ensures a in s.addresses
  {
    assert References(s.addresses, a) == ExpectedReferences(s.fixed, s.pools, a);
  }

  /** A pool or fixed entry that was backed stays backed when its addresses are still counted. */
  lemma PoolStaysBacked(s: StoreState, t: StoreState, n: Name)
    requires AddressesOk(s) && t.templates == s.templates && TableStep(s, t.addresses) && ReferencesOk(t)
    requires n in s.pools && n in t.pools && PoolBacked(s, s.pools[n])
    requires t.pools[n].template == s.pools[n].template
    requires forall a :: a in Held(t.pools[n]) && a !in Held(s.pools[n]) ==>
               a !in s.addresses && a in t.addresses && t.addresses[a].template == t.pools[n].template
    requires forall a :: a in t.pools[n].pinned ==> FixedUses(t.fixed, a) != {}
    ensures PoolBacked(t, t.pools[n])
  {
    hide ReferencesOk, AddressOk, Held, FixedUses;
    forall a | a in Held(t.pools[n]) ensures a in t.addresses && t.addresses[a].template == t.pools[n].template {
      if a in Held(s.pools[n]) {
        UsersAreCounted(t.fixed, t.pools, n, a);
        CountedIsPresent(t, a);
      }
    }
  }

  lemma FixedStaysBacked(s: StoreState, t: StoreState, n: Name)
    requires TableStep(s, t.addresses) && ReferencesOk(t)
    requires n in s.fixed && n in t.fixed && t.fixed[n] == s.fixed[n] && FixedBacked(s, s.fixed[n])
    ensures FixedBacked(t, t.fixed[n])
  {
    UsersAreCounted(t.fixed, t.pools, n, t.fixed[n].address);
    CountedIsPresent(t, t.fixed[n].address);
  }

  // ---- fixed addresses ----

  lemma CreateFixedAddressKeepsValid(s: StoreState, name: Name, template: Name, a: Address, ownership: Ownership)
    requires Valid(s) && CreateFixedAddress(s, name, template, a, ownership).Ok?
    ensures Valid(CreateFixedAddress(s, name, template, a, ownership).value) <==> !Blank(name)
  {
    hide TemplatesOk, CursorsOk, BatchesOk, PoolShape, Prefix.Contains, Blank, ValidOwnership, AddressOk, Held;
    hide ExpectedReferences, FixedUses;
    hide FixedOk, OwnershipForMode, References, ReferencesOk, AddressesOk;
    var next := CreateFixedAddress(s, name, template, a, ownership).value;
    FixedCreationCounts(s, next, name, template, a);
    NewAddressIsOk(s, template, a);
    TableGrows(s, next.addresses);
    TableStepKeepsAddressesOk(s, next);
    FixedCreationKeepsFixedOk(s, next, next.fixed[name]);
    FixedUsesOnlyGrow(s.fixed, next.fixed);
    forall n | n in s.pools ensures PoolBacked(next, next.pools[n]) {
      assert PoolBacked(s, s.pools[n]);
      PoolStaysBacked(s, next, n);
    }
  }

  lemma FixedCreationCounts(s: StoreState, next: StoreState, name: Name, template: Name, a: Address)
    requires Valid(s) && name !in s.fixed && a !in s.addresses && template in s.templates
    requires next.pools == s.pools && SameBut(s.fixed, next.fixed, name)
    requires name in next.fixed && next.fixed[name].address == a
    requires next.addresses == s.addresses[a := NewAddress(s, template, a)]
    ensures ReferencesOk(next)
  {
    hide ExpectedReferences, FixedOk, PoolsOk, AddressesOk, TemplatesOk, CursorsOk, BatchesOk;
    UnknownAddressIsUnused(s, a);
    forall b: Address ensures References(next.addresses, b) == ExpectedReferences(next.fixed, next.pools, b) {
      assert References(s.addresses, b) == ExpectedReferences(s.fixed, s.pools, b);
      ExpectedFollowsFixed(s.fixed, next.fixed, s.pools, name, b);
    }
  }

  lemma FixedCreationKeepsFixedOk(s: StoreState, next: StoreState, f: FixedAddress)
    requires FixedOk(s) && f.address !in s.addresses && f.name !in s.fixed
    requires TableStep(s, next.addresses) && ReferencesOk(next)
    requires next.fixed == s.fixed[f.name := f]
    requires f.address in next.addresses
    requires next.addresses[f.address].template == f.template && next.addresses[f.address].ownership == f.ownership
    ensures FixedOk(next) <==> !Blank(f.name)
  {
    hide ReferencesOk, TableStep, Blank;
    forall n | n in s.fixed ensures FixedBacked(next, next.fixed[n]) && s.fixed[n].address != f.address {
      FixedStaysBacked(s, next, n);
    }
    assert next.fixed[f.name] == f;
    assert FixedBacked(next, f) <==> !Blank(f.name);
    assert FixedOk(next) ==> FixedBacked(next, next.fixed[f.name]);
  }

  lemma NewAddressIsOk(s: StoreState, template: Name, a: Address)
    requires template in s.templates && s.templates[template].prefix.Contains(a)
    ensures AddressOk(s.templates, NewAddress(s, template, a)) && NewAddress(s, template, a).address == a
  {
  }

  lemma TableGrows(s: StoreState, addresses: map<Address, CanonicalAddress>)
    requires AddressesOk(s)
    requires forall a :: a in s.addresses && a in addresses ==>
              SameIdentity(addresses[a], s.addresses[a]) && addresses[a].references >= s.addresses[a].references
    requires forall a :: a in addresses && a !in s.addresses ==>
               addresses[a].references >= 1 && addresses[a].address == a && AddressOk(s.templates, addresses[a])
    ensures TableStep(s, addresses)
  {
    hide Prefix.Contains, OwnershipForMode;
    forall a | a in addresses && a in s.addresses ensures addresses[a].references >= 1 {
      assert AddressOk(s.templates, s.addresses[a]);
    }
  }

  lemma FixedUsesOnlyGrow(x: map<Name, FixedAddress>, y: map<Name, FixedAddress>)
    requires forall n :: n in x ==> n in y && y[n] == x[n]
    ensures forall a :: FixedUses(x, a) <= FixedUses(y, a)
  {
  }

  lemma DeleteFixedAddressKeepsValid(s: StoreState, name: Name)
    requires Valid(s) && DeleteFixedAddress(s, name).Ok?
    ensures Valid(DeleteFixedAddress(s, name).value)
  {
    hide TemplatesOk, CursorsOk, BatchesOk, Blank, AddressOk, Held, ExpectedReferences;
    var next := DeleteFixedAddress(s, name).value;
    var a := s.fixed[name].address;
    assert FixedBacked(s, s.fixed[name]);
    assert s.addresses[a].references >= 1 by { assert AddressOk(s.templates, s.addresses[a]); SomeReference(s, a); }
    forall b: Address ensures References(next.addresses, b) == ExpectedReferences(next.fixed, next.pools, b) {
      assert References(s.addresses, b) == ExpectedReferences(s.fixed, s.pools, b);
      ExpectedFollowsFixed(s.fixed, next.fixed, s.pools, name, b);
    }
    assert TableStep(s, next.addresses) by { TableGrows(s, next.addresses); }
    TableStepKeepsAddressesOk(s, next);
    UsersAreGone(next, a);
    forall n | n in next.fixed ensures FixedBacked(next, next.fixed[n]) {
      assert FixedBacked(s, s.fixed[n]);
      FixedStaysBacked(s, next, n);
    }
    forall n | n in next.pools ensures PoolBacked(next, next.pools[n]) {
      assert PoolBacked(s, s.pools[n]) && PoolShape(s.pools[n]);
      PinnedStaysFixed(s, next, n, name);
      PoolStaysBacked(s, next, n);
    }
  }

  lemma SomeReference(s: StoreState, a: Address)
    requires a in s.addresses && AddressOk(s.templates, s.addresses[a])
    ensures s.addresses[a].references >= 1
  {
  }

  lemma PinnedStaysFixed(s: StoreState, next: StoreState, n: Name, name: Name)
    requires n in s.pools && PoolShape(s.pools[n]) && PoolBacked(s, s.pools[n])
    requires name in s.fixed && next.fixed == s.fixed - {name} && s.fixed[name].address !in Held(s.pools[n])
    ensures forall b :: b in s.pools[n].pinned ==> FixedUses(next.fixed, b) != {}
  {
    forall b | b in s.pools[n].pinned ensures FixedUses(next.fixed, b) != {} {
      assert b in Elements(s.pools[n].pinned) && b in Held(s.pools[n]);
      var m :| m in FixedUses(s.fixed, b);
      assert m in FixedUses(next.fixed, b);
    }
  }

  lemma UsersAreGone(s: StoreState, a: Address)
    requires ExpectedReferences(s.fixed, s.pools, a) == 0
    ensures forall n :: n in s.pools ==> a !in Held(s.pools[n])
  {
    forall n | n in s.pools ensures a !in Held(s.pools[n]) {
      UsersAreCounted(s.fixed, s.pools, n, a);
    }
  }

  // ---- one pool at a time ----

  /** A step that touches one pool, the table and the walk keeps the invariant when the
      counts, the batches and that pool are right. */
  lemma PoolChangeKeepsValid(s: StoreState, t: StoreState, n: Name)
    requires Valid(s) && t.templates == s.templates && t.fixed == s.fixed && SameBut(s.pools, t.pools, n)
    requires CursorsOk(t.templates, t.cursors) && t.nextBatch < UINT64_LIMIT
    requires TableStep(s, t.addresses) && ReferencesOk(t) && BatchesOk(t.pools, t.nextBatch)
    requires n in t.pools ==> t.pools[n].name == n && PoolShape(t.pools[n]) && PoolBacked(t, t.pools[n])
    ensures Valid(t)
  {
    hide TemplatesOk, CursorsOk, TableStep, ReferencesOk, BatchesOk, PoolShape, FixedBacked, FixedUses, Held;
    TableStepKeepsAddressesOk(s, t);
    forall m | m in t.fixed ensures FixedBacked(t, t.fixed[m]) {
      FixedStaysBacked(s, t, m);
    }
    forall m | m in t.pools && m != n ensures PoolBacked(t, t.pools[m]) {
      assert PoolBacked(s, s.pools[m]);
      PoolStaysBacked(s, t, m);
    }
  }

  /** Releasing what one pool gave up keeps every count right. */
  lemma ReleaseCounts(s: StoreState, t: StoreState, n: Name, freed: set<Address>)
    requires Valid(s) && t.fixed == s.fixed && t.templates == s.templates && SameBut(s.pools, t.pools, n)
    requires n in s.pools && freed <= Held(s.pools[n])
    requires if n in t.pools then PoolShape(t.pools[n]) && Held(t.pools[n]) == Held(s.pools[n]) - freed
             else freed == Held(s.pools[n])
    requires t.addresses == Release(s.addresses, freed)
    ensures ReferencesOk(t) && TableStep(s, t.addresses)
  {
    hide TemplatesOk, CursorsOk, FixedOk, BatchesOk, PoolBacked, ExpectedReferences, Held, PoolUses, PoolShape;
    hide AddressesOk;
    assert PoolShape(s.pools[n]);
    forall a: Address ensures References(t.addresses, a) == ExpectedReferences(t.fixed, t.pools, a) {
      assert References(s.addresses, a) == ExpectedReferences(s.fixed, s.pools, a);
      ExpectedFollowsPool(s.fixed, s.pools, t.pools, n, a);
      WellShapedPoolUsesOnce(s.pools[n], a);
      if n in t.pools { WellShapedPoolUsesOnce(t.pools[n], a); }
      HeldMeansReferenced(s, n, a);
      PresentMeansReferenced(s, a);
    }
    forall a | a in t.addresses ensures t.addresses[a].references >= 1 {
      PresentMeansReferenced(s, a);
    }
  }

  lemma PresentMeansReferenced(s: StoreState, a: Address)
    requires AddressesOk(s)
    ensures a in s.addresses ==> s.addresses[a].references >= 1
  {
    if a in s.addresses { assert AddressOk(s.templates, s.addresses[a]); SomeReference(s, a); }
  }

  lemma BatchesAfterShrink(pools: map<Name, Pool>, nextBatch: nat, n: Name, p: Pool, i: nat, freed: set<Address>)
    requires BatchesOk(pools, nextBatch) && n in pools && Shrinks(pools[n].draining, p.draining, i, freed)
    ensures BatchesOk(pools[n := p], nextBatch)
  {
    hide SequenceOk, Shrinks;
    var before, after := pools[n].draining, p.draining;
    ShrunkIdentifiers(before, after, i, freed);
  }

  /** Every remaining batch keeps the identifier it had. */
  lemma ShrunkIdentifiers(before: seq<DrainBatch>, after: seq<DrainBatch>, i: nat, freed: set<Address>)
    requires Shrinks(before, after, i, freed)
    ensures |after| == |before| || |after| + 1 == |before|
    ensures forall j :: 0 <= j < |after| ==> after[j].id == before[if |after| == |before| || j < i then j else j + 1].id
  {
    hide Distinct, Elements, Flat;
    forall j | 0 <= j < |after| ensures after[j].id == before[if |after| == |before| || j < i then j else j + 1].id {
      if j < i { assert after[j] == before[..i][j]; }
      else if |after| == |before| && j > i { assert after[j] == after[i + 1..][j - i - 1]; }
    }
  }

  lemma BatchesAfterRemoval(pools: map<Name, Pool>, nextBatch: nat, n: Name)
    requires BatchesOk(pools, nextBatch)
    ensures BatchesOk(pools - {n}, nextBatch)
  {
    hide SequenceOk;
  }

  lemma BatchesWithoutNew(pools: map<Name, Pool>, nextBatch: nat, n: Name, p: Pool)
    requires BatchesOk(pools, nextBatch)
    requires p.draining == if n in pools then pools[n].draining else []
    ensures BatchesOk(pools[n := p], nextBatch)
  {
    hide SequenceOk;
  }

  /** The identifier made from the incremented counter is new everywhere, unless the counter wraps. */
  lemma BatchesAfterAppend(pools: map<Name, Pool>, nextBatch: nat, n: Name, p: Pool, batch: DrainBatch)
    requires BatchesOk(pools, nextBatch) && n in pools && nextBatch < UINT64_LIMIT
    requires p.draining == pools[n].draining + [batch] && batch.id == DrainId((nextBatch + 1) % UINT64_LIMIT)
    ensures BatchesOk(pools[n := p], (nextBatch + 1) % UINT64_LIMIT) <==> nextBatch + 1 < UINT64_LIMIT
  {
    var sequence := (nextBatch + 1) % UINT64_LIMIT;
    DrainIdReadsBack(sequence);
    var next := pools[n := p];
    var last := |pools[n].draining|;
    assert next[n].draining[last] == batch;
    if nextBatch + 1 < UINT64_LIMIT {
      forall m, j | m in pools && 0 <= j < |pools[m].draining|
        ensures pools[m].draining[j].id != batch.id && SequenceOk(pools[m].draining[j].id, sequence) {
        assert SequenceOk(pools[m].draining[j].id, nextBatch);
      }
      assert SequenceOk(batch.id, sequence);
      hide SequenceOk, ParseDrainSequence;
      assert BatchesOk(next, sequence);
    } else {
      assert !SequenceOk(next[n].draining[last].id, sequence);
    }
  }

  // ---- releasing operations ----

  lemma DeletePoolKeepsValid(s: StoreState, n: Name)
    requires Valid(s) && DeletePool(s, n).Ok?
    ensures Valid(DeletePool(s, n).value)
  {
    hide TemplatesOk, CursorsOk, FixedOk, PoolsOk, AddressesOk, BatchesOk, ReferencesOk, TableStep, Release, Held;
    var t := DeletePool(s, n).value;
    ReleaseCounts(s, t, n, Held(s.pools[n]));
    BatchesAfterRemoval(s.pools, s.nextBatch, n);
    PoolChangeKeepsValid(s, t, n);
  }

  /** A pool that gives up draining addresses keeps the invariant when exactly those are released. */
  lemma ShrinkKeepsValid(s: StoreState, n: Name, after: seq<DrainBatch>, i: nat, freed: set<Address>)
    requires Valid(s) && n in s.pools && Shrinks(s.pools[n].draining, after, i, freed)
    ensures Valid(s.(addresses := Release(s.addresses, freed), pools := s.pools[n := s.pools[n].(draining := after)]))
    ensures freed <= Elements(Draining(s.pools[n])) && Elements(Flat(after)) == Elements(Draining(s.pools[n])) - freed
  {
    hide TemplatesOk, CursorsOk, FixedOk, AddressesOk, BatchesOk, ReferencesOk, TableStep, Release;
    hide Shrinks, PoolShape, Held, FixedUses, Elements;
    var p := s.pools[n];
    var q := p.(draining := after);
    var t := s.(addresses := Release(s.addresses, freed), pools := s.pools[n := q]);
    assert PoolBacked(s, p);
    ShrunkPoolIsWellShaped(p, q, i, freed);
    ReleaseCounts(s, t, n, freed);
    BatchesAfterShrink(s.pools, s.nextBatch, n, q, i, freed);
    PoolStaysBacked(s, t, n);
    PoolChangeKeepsValid(s, t, n);
  }

  lemma ShrunkPoolIsWellShaped(p: Pool, q: Pool, i: nat, freed: set<Address>)
    requires PoolShape(p) && q == p.(draining := q.draining) && Shrinks(p.draining, q.draining, i, freed)
    ensures PoolShape(q) && freed <= Elements(Draining(p)) && Elements(Draining(q)) == Elements(Draining(p)) - freed
    ensures freed <= Held(p) && Held(q) == Held(p) - freed
  {
    ShrinkingFreesExactly(p.draining, q.draining, i, freed);
    FlatAround(p.draining, i);
    assert Elements(p.draining[i].addresses) <= Elements(Draining(p));
    forall j | 0 <= j < |q.draining| ensures q.draining[j].addresses != [] {
      if j < i { assert q.draining[j] == p.draining[..i][j]; }
      else if |q.draining| == |p.draining| {
        if j > i { assert q.draining[j] == q.draining[i + 1..][j - i - 1] == p.draining[i + 1..][j - i - 1]; }
      } else { assert q.draining[j] == p.draining[j + 1]; }
    }
  }

  lemma CompleteDrainKeepsValid(s: StoreState, n: Name, id: string)
    requires Valid(s) && CompleteDrain(s, n, id).Ok?
    ensures Valid(CompleteDrain(s, n, id).value)
  {
    hide Valid;
    var draining := s.pools[n].draining;
    var i := BatchIndex(draining, id);
    RemovingABatchShrinks(draining, i);
    ShrinkKeepsValid(s, n, draining[..i] + draining[i + 1..], i, Elements(draining[i].addresses));
  }

  lemma CompleteDrainedAddressKeepsValid(s: StoreState, n: Name, a: Address)
    requires Valid(s) && CompleteDrainedAddress(s, n, a).Ok?
    ensures Valid(CompleteDrainedAddress(s, n, a).value)
  {
    assert PoolShape(s.pools[n]);
    hide Valid;
    var i := WithoutDrainingShrinks(s.pools[n].draining, a);
    ShrinkKeepsValid(s, n, WithoutDraining(s.pools[n].draining, a), i, {a});
  }

  // ---- allocating operations ----

  lemma {:induction false} ResolvedPinnedAreFixed(s: StoreState, template: Name, names: seq<Name>)
    requires FixedOk(s) && ResolvePinned(s, template, names).Ok?
    ensures var r := ResolvePinned(s, template, names).value;
      && Distinct(r)
      && forall a :: a in r ==> FixedUses(s.fixed, a) != {} && a in s.addresses && s.addresses[a].template == template
  {
    hide Blank;
    if names != [] {
      var before, last := names[..|names| - 1], names[|names| - 1];
      ResolvedPinnedAreFixed(s, template, before);
      assert FixedBacked(s, s.fixed[last]);
      assert last in FixedUses(s.fixed, s.fixed[last].address);
    }
  }

  /** What generation promises the store: fresh, distinct addresses of the template. */
  ghost predicate Fresh(s: StoreState, template: Name, automatic: seq<Address>)
    requires template in s.templates
  {
    Distinct(automatic) && forall a :: a in automatic ==> a !in s.addresses && s.templates[template].prefix.Contains(a)
  }

  lemma GeneratedAreFresh(s: StoreState, template: Name, count: int)
    requires template in s.templates && Generate(s, template, count).Some?
    ensures Fresh(s, template, Generate(s, template, count).value)
  {
    var p := s.templates[template].prefix;
    if count > 0 {
      var r := Generate(s, template, count).value;
      WalkFitsTheFreeAddresses(p, Begin(p, CursorOf(s, p)), s.addresses.Keys, r);
    }
  }

  lemma AdvanceKeepsCursorsOk(s: StoreState, template: Name, automatic: seq<Address>)
    requires CursorsOk(s.templates, s.cursors) && template in s.templates && Fresh(s, template, automatic)
    ensures CursorsOk(s.templates, Advance(s, template, automatic))
  {
    if automatic != [] {
      var p, last := s.templates[template].prefix, automatic[|automatic| - 1];
      assert last in automatic;
      NextWithinAdvances(p, p.Base(), last) by { BaseIsInside(p); }
      assert KnownPrefix(s.templates, p);
    }
  }

  /** A pool that takes new references and fresh addresses keeps every count right. */
  lemma AllocationCounts(s: StoreState, t: StoreState, n: Name, template: Name, referenced: seq<Address>,
                         automatic: seq<Address>)
    requires Valid(s) && t.fixed == s.fixed && t.templates == s.templates && SameBut(s.pools, t.pools, n)
    requires n in t.pools && template in s.templates && Fresh(s, template, automatic)
    requires forall a :: a in referenced ==> a in s.addresses
    requires t.addresses == Allocate(s.(addresses := Reference(s.addresses, referenced)), template, automatic)
    requires forall a: Address :: PoolUses(t.pools[n], a)
               == (if n in s.pools then PoolUses(s.pools[n], a) else 0) + One(a in referenced) + One(a in automatic)
    ensures ReferencesOk(t) && TableStep(s, t.addresses)
  {
    hide TemplatesOk, CursorsOk, FixedOk, PoolsOk, BatchesOk, ExpectedReferences, PoolUses, AddressesOk, TableStep;
    hide Fresh, Allocate, Reference, References;
    AllocationIsATableStep(s, template, referenced, automatic);
    forall a: Address ensures References(t.addresses, a) == ExpectedReferences(t.fixed, t.pools, a) {
      assert References(s.addresses, a) == ExpectedReferences(s.fixed, s.pools, a);
      ExpectedFollowsPool(s.fixed, s.pools, t.pools, n, a);
    }
  }

  lemma AllocationIsATableStep(s: StoreState, template: Name, referenced: seq<Address>, automatic: seq<Address>)
    requires AddressesOk(s) && template in s.templates && Fresh(s, template, automatic)
    requires forall a :: a in referenced ==> a in s.addresses
    ensures var table := Allocate(s.(addresses := Reference(s.addresses, referenced)), template, automatic);
      && TableStep(s, table)
      && forall a: Address :: References(table, a)
                              == References(s.addresses, a) + One(a in referenced) + One(a in automatic)
  {
    hide AddressesOk, Distinct, Prefix.Contains, OwnershipForMode, AddressOk;
    forall a | a in automatic ensures AddressOk(s.templates, NewAddress(s, template, a)) {
      NewAddressIsOk(s, template, a);
    }
    forall a | a in s.addresses ensures s.addresses[a].references >= 1 {
      PresentMeansReferenced(s, a);
    }
  }

  lemma ActiveOfPinnedAndAutomatic(pinned: seq<Address>, automatic: seq<Address>)
    requires Distinct(pinned) && Distinct(automatic) && Elements(pinned) !! Elements(automatic)
    ensures Distinct(pinned + automatic)
    ensures Elements(pinned + automatic) == Elements(pinned) + Elements(automatic)
    ensures Elements(pinned + automatic) - Elements(pinned) == Elements(automatic)
  {
    DistinctWhole(pinned, automatic, []);
    assert pinned + automatic + [] == pinned + automatic;
  }

  lemma CreatePoolKeepsValid(s: StoreState, name: Name, kind: PoolKind, template: Name, capacity: int,
                             pinnedNames: seq<Name>)
    requires Valid(s) && CreatePool(s, name, kind, template, capacity, pinnedNames).Ok?
    ensures Valid(CreatePool(s, name, kind, template, capacity, pinnedNames).value) <==> !Blank(name)
  {
    hide TemplatesOk, CursorsOk, FixedOk, AddressesOk, BatchesOk, ReferencesOk, Blank, Fresh, PoolBacked;
    hide ResolvePinned, Generate, FixedUses, PoolUses, Held, Advance, Allocate, Reference, Distinct;
    var t := CreatePool(s, name, kind, template, capacity, pinnedNames).value;
    var pinned := ResolvePinned(s, template, pinnedNames).value;
    var automatic := Generate(s, template, capacity - |pinned|).value;
    var pool := t.pools[name];
    assert pool == Pool(name, kind, template, capacity, pinned, pinned + automatic, []);
    if Blank(name) {
      assert !PoolShape(pool);
    } else {
      hide PoolShape;
      ResolvedPinnedAreFixed(s, template, pinnedNames);
      GeneratedAreFresh(s, template, capacity - |pinned|);
      NewPoolIsWellShaped(s, pool, automatic);
      NewPoolIsValid(s, t, name, pinned, automatic);
    }
  }

  lemma NewPoolIsWellShaped(s: StoreState, pool: Pool, automatic: seq<Address>)
    requires pool.template in s.templates && Fresh(s, pool.template, automatic)
    requires Distinct(pool.pinned) && forall a :: a in pool.pinned ==> a in s.addresses
    requires pool.active == pool.pinned + automatic && pool.draining == []
    requires !Blank(pool.name) && ValidPoolKind(pool.kind) && 1 <= pool.capacity <= MAX_POOL_SIZE
             && |pool.active| == pool.capacity
    ensures PoolShape(pool) && Held(pool) == Elements(pool.pinned) + Elements(automatic)
    ensures forall a: Address :: PoolUses(pool, a) == One(a in pool.pinned) + One(a in automatic)
  {
    hide Blank, Prefix.Contains;
    ActiveOfPinnedAndAutomatic(pool.pinned, automatic);
    forall a: Address ensures PoolUses(pool, a) == One(a in pool.pinned) + One(a in automatic) {
      assert a in automatic <==> a in Elements(automatic);
    }
  }

  lemma NewPoolIsValid(s: StoreState, t: StoreState, name: Name, pinned: seq<Address>, automatic: seq<Address>)
    requires Valid(s) && name !in s.pools && name in t.pools
    requires var pool := t.pools[name];
      && pool.name == name && pool.template in s.templates && Fresh(s, pool.template, automatic)
      && PoolShape(pool) && pool.pinned == pinned && pool.draining == []
      && Held(pool) == Elements(pinned) + Elements(automatic)
      && (forall a: Address :: PoolUses(pool, a) == One(a in pinned) + One(a in automatic))
      && (forall a :: a in pinned ==>
                        FixedUses(s.fixed, a) != {} && a in s.addresses && s.addresses[a].template == pool.template)
      && t == s.(addresses := Allocate(s.(addresses := Reference(s.addresses, pinned)), pool.template, automatic),
                 pools := s.pools[name := pool], cursors := Advance(s, pool.template, automatic))
    ensures Valid(t)
  {
    hide TemplatesOk, CursorsOk, FixedOk, PoolsOk, AddressesOk, BatchesOk, ReferencesOk;
    hide Fresh, PoolShape, FixedUses, PoolUses, TableStep, Held, Advance;
    var pool := t.pools[name];
    AllocationCounts(s, t, name, pool.template, pinned, automatic);
    AdvanceKeepsCursorsOk(s, pool.template, automatic);
    BatchesWithoutNew(s.pools, s.nextBatch, name, pool);
    PoolChangeKeepsValid(s, t, name);
  }

  // ---- refresh ----

  lemma RefreshPoolKeepsValid(s: StoreState, n: Name)
    requires Valid(s)
    requires n in s.pools ==> s.pools[n].template in s.templates
    requires RefreshPool(s, n).Ok?
    ensures Valid(RefreshPool(s, n).value)
       <==> (Difference(s.pools[n].active, s.pools[n].pinned) == [] || s.nextBatch + 1 < UINT64_LIMIT)
  {
    hide Valid, Generate, Refreshed;
    var p := s.pools[n];
    RefreshedIsValid(s, n, Generate(s, p.template, p.capacity - |p.pinned|).value);
  }

  lemma RefreshedIsValid(s: StoreState, n: Name, automatic: seq<Address>)
    requires Valid(s) && n in s.pools && s.pools[n].template in s.templates
    requires Generate(s, s.pools[n].template, s.pools[n].capacity - |s.pools[n].pinned|) == Some(automatic)
    ensures Valid(Refreshed(s, n, automatic))
       <==> (Difference(s.pools[n].active, s.pools[n].pinned) == [] || s.nextBatch + 1 < UINT64_LIMIT)
  {
    hide TemplatesOk, CursorsOk, FixedOk, AddressesOk, BatchesOk, ReferencesOk, Fresh, Generate, Distinct, TableStep;
    hide FixedUses;
    hide Difference, PoolUses, Held, Advance, Allocate, PoolShape, PoolBacked, PoolsOk;
    var t := Refreshed(s, n, automatic);
    var retired := Difference(s.pools[n].active, s.pools[n].pinned);
    RefreshedPoolIsRight(s, t, n, retired, automatic);
    AdvanceKeepsCursorsOk(s, s.pools[n].template, automatic);
    RefreshStepIsValid(s, t, n, retired);
  }

  lemma RefreshStepIsValid(s: StoreState, t: StoreState, n: Name, retired: seq<Address>)
    requires Valid(s) && n in s.pools && t.templates == s.templates && t.fixed == s.fixed
    requires CursorsOk(t.templates, t.cursors) && TableStep(s, t.addresses) && ReferencesOk(t)
    requires n in t.pools && t.pools == s.pools[n := t.pools[n]] && t.pools[n].name == s.pools[n].name
    requires PoolShape(t.pools[n]) && PoolBacked(t, t.pools[n])
    requires var sequence := (s.nextBatch + 1) % UINT64_LIMIT;
      if retired == [] then t.nextBatch == s.nextBatch && t.pools[n].draining == s.pools[n].draining
      else t.nextBatch == sequence && t.pools[n].draining
           == s.pools[n].draining + [DrainBatch(DrainId(sequence), retired)]
    ensures Valid(t) <==> (retired == [] || s.nextBatch + 1 < UINT64_LIMIT)
  {
    hide TemplatesOk, CursorsOk, FixedOk, AddressesOk, BatchesOk, ReferencesOk, TableStep, PoolShape, PoolBacked;
    var q := t.pools[n];
    if retired == [] {
      BatchesWithoutNew(s.pools, s.nextBatch, n, q);
      PoolChangeKeepsValid(s, t, n);
    } else {
      BatchesAfterAppend(s.pools, s.nextBatch, n, q, DrainBatch(DrainId(t.nextBatch), retired));
      if s.nextBatch + 1 < UINT64_LIMIT { PoolChangeKeepsValid(s, t, n); }
    }
  }

  lemma RefreshedPoolIsRight(s: StoreState, t: StoreState, n: Name, retired: seq<Address>, automatic: seq<Address>)
    requires Valid(s) && n in s.pools && s.pools[n].template in s.templates
    requires Generate(s, s.pools[n].template, s.pools[n].capacity - |s.pools[n].pinned|) == Some(automatic)
    requires retired == Difference(s.pools[n].active, s.pools[n].pinned)
    requires t.fixed == s.fixed && t.templates == s.templates && SameBut(s.pools, t.pools, n)
    requires t.addresses == Allocate(s, s.pools[n].template, automatic)
    requires n in t.pools && PoolRefreshed(s.pools[n], t.pools[n], retired, automatic)
    ensures PoolShape(t.pools[n]) && PoolBacked(t, t.pools[n]) && ReferencesOk(t) && TableStep(s, t.addresses)
    ensures Fresh(s, s.pools[n].template, automatic)
  {
    hide TemplatesOk, CursorsOk, FixedOk, AddressesOk, BatchesOk, ReferencesOk, Fresh, Generate, TableStep, FixedUses;
    hide Difference, PoolUses, Held, Allocate;
    var p, q := s.pools[n], t.pools[n];
    assert PoolShape(p) && PoolBacked(s, p);
    GeneratedAreFresh(s, p.template, p.capacity - |p.pinned|);
    DifferenceSubtracts(p.active, p.pinned);
    hide PoolShape, PoolBacked, Distinct;
    RefreshedPoolIsWellShaped(s, p, q, retired, automatic);
    RefreshedTableIsRight(s, t, n, automatic);
  }

  /** The refreshed pool: same pins, new automatic addresses, the old ones draining. */
  ghost predicate PoolRefreshed(p: Pool, q: Pool, retired: seq<Address>, automatic: seq<Address>) {
    && q.active == p.pinned + automatic
    && (if retired == [] then q.draining == p.draining
        else |q.draining| == |p.draining| + 1 && q.draining[..|p.draining|] == p.draining
             && q.draining[|p.draining|].addresses == retired)
    && q == p.(active := q.active, draining := q.draining)
  }

  lemma RefreshedDraining(p: Pool, q: Pool, retired: seq<Address>, automatic: seq<Address>)
    requires PoolRefreshed(p, q, retired, automatic)
    ensures Draining(q) == Draining(p) + retired
  {
    if retired != [] {
      var last := q.draining[|p.draining|];
      assert q.draining == p.draining + [last];
      FlatSplits(p.draining, [last]);
      FlatCons(last, []);
    }
  }

  lemma RefreshedPoolIsWellShaped(s: StoreState, p: Pool, q: Pool, retired: seq<Address>, automatic: seq<Address>)
    requires PoolShape(p) && PoolBacked(s, p) && p.template in s.templates && Fresh(s, p.template, automatic)
    requires PoolRefreshed(p, q, retired, automatic) && |automatic| == p.capacity - |p.pinned|
    requires Distinct(retired) && Elements(retired) == Elements(p.active) - Elements(p.pinned)
    ensures PoolShape(q) && Held(q) == Held(p) + Elements(automatic)
    ensures forall a: Address :: PoolUses(q, a) == PoolUses(p, a) + One(a in automatic)
  {
    hide Blank, Prefix.Contains;
    RefreshedDraining(p, q, retired, automatic);
    RefreshedParts(s, p, automatic);
    ActiveOfPinnedAndAutomatic(p.pinned, automatic);
    DistinctWhole(Draining(p), retired, []);
    assert Draining(p) + retired + [] == Draining(q);
    assert Elements(Draining(q)) == Elements(Draining(p)) + Elements(retired);
    forall i | 0 <= i < |q.draining| ensures q.draining[i].addresses != [] {
      if i < |p.draining| { assert q.draining[i] == q.draining[..|p.draining|][i]; }
    }
    assert PoolShape(q);
    assert Held(q) == Held(p) + Elements(automatic);
    forall a: Address ensures PoolUses(q, a) == PoolUses(p, a) + One(a in automatic) {
      WellShapedPoolUsesOnce(p, a);
      WellShapedPoolUsesOnce(q, a);
      assert a in automatic <==> a in Elements(automatic);
      assert a in automatic ==> a !in Held(p);
    }
  }

  lemma RefreshedParts(s: StoreState, p: Pool, automatic: seq<Address>)
    requires PoolShape(p) && PoolBacked(s, p) && Fresh(s, p.template, automatic)
    ensures Held(p) !! Elements(automatic) && Elements(p.pinned) !! Elements(automatic)
    ensures Distinct(automatic) && Distinct(p.pinned) && Distinct(Draining(p))
    ensures Elements(Draining(p)) !! Elements(p.active)
  {
    hide Blank, Prefix.Contains;
  }

  lemma RefreshedTableIsRight(s: StoreState, t: StoreState, n: Name, automatic: seq<Address>)
    requires Valid(s) && n in s.pools && n in t.pools && t.fixed == s.fixed && t.templates == s.templates
    requires var p, q := s.pools[n], t.pools[n];
      && PoolBacked(s, p) && Fresh(s, p.template, automatic) && q.template == p.template && q.pinned == p.pinned
      && Held(q) == Held(p) + Elements(automatic)
      && (forall a: Address :: PoolUses(q, a) == PoolUses(p, a) + One(a in automatic))
      && SameBut(s.pools, t.pools, n) && t.addresses == Allocate(s, p.template, automatic)
    ensures ReferencesOk(t) && TableStep(s, t.addresses) && PoolBacked(t, t.pools[n])
  {
    hide TemplatesOk, CursorsOk, FixedOk, PoolsOk, AddressesOk, BatchesOk, PoolUses, FixedUses, Held, TableStep;
    hide ReferencesOk;
    var template := s.pools[n].template;
    assert Reference(s.addresses, []) == s.addresses;
    assert s.(addresses := s.addresses) == s;
    AllocationCounts(s, t, n, template, [], automatic);
    forall a | a in Held(t.pools[n]) && a !in Held(s.pools[n])
      ensures a !in s.addresses && a in t.addresses && t.addresses[a].template == template {
      assert a in automatic;
    }
    PoolStaysBacked(s, t, n);
  }
}
