/** `buildStoreFromState`: the loops that rebuild a store from a document and check it,
    proved to accept exactly the documents that denote a valid store. */
module StateLoader {
  import opened Wrappers
  import opened Names
  import opened Prefixes
  import opened Walk
  import opened FiniteSets
  import opened DrainIds
  import opened StoreModel
  import opened StoreInvariant
  import opened StateDocument
  import Store

  datatype LoadError =
    | TemplateNotCanonical | TemplateRefused(cause: StoreError)
    | CursorKeyNotCanonical | CursorOutsidePrefix
    | AddressWithoutTemplate | AddressOwnership | AddressRepeated
    | FixedNameBlank | FixedRepeated | FixedInconsistent | FixedAddressShared
    | PoolNameOrKind | PoolRepeated | PoolTemplateMissing | PoolCapacity
    | ActiveRepeated | AddressInconsistent | PinnedRepeated | PinnedNotActive | PinnedNotFixed
    | BatchIdInvalid | BatchIdRepeated | BatchEmpty | DrainingStillActive | DrainingRepeated
    | NextBatchBehind | ReferencesWrong(address: Address)

  // ---- templates ----

  ghost predicate TemplatesLoad(ts: seq<PrefixTemplate>) {
    && (forall i :: 0 <= i < |ts| ==> Canonical(ts[i]))
    && (forall i, j :: 0 <= i < j < |ts| ==> ts[i].name != ts[j].name && !PrefixesOverlap(ts[i].prefix, ts[j].prefix))
  }

  lemma TemplatesLoadMeansOk(ts: seq<PrefixTemplate>)
    ensures TemplatesLoad(ts) <==> DistinctKeys(ts, TemplateName) && TemplatesOk(Index(ts, TemplateName))
  {
    hide Canonical;
    var m := Index(ts, TemplateName);
    if DistinctKeys(ts, TemplateName) {
      IndexReadsBack(ts, TemplateName);
      if TemplatesOk(m) {
        forall i | 0 <= i < |ts| ensures Canonical(ts[i]) { assert ts[i].name in m; }
        forall i, j | 0 <= i < j < |ts| ensures !PrefixesOverlap(ts[i].prefix, ts[j].prefix) {
          assert TemplateName(ts[i]) != TemplateName(ts[j]);
          assert ts[i].name in m && ts[j].name in m;
        }
      }
      if TemplatesLoad(ts) { LoadedTemplatesAreOk(ts); }
    }
  }

  lemma LoadedTemplatesAreOk(ts: seq<PrefixTemplate>)
    requires TemplatesLoad(ts) && DistinctKeys(ts, TemplateName)
    ensures TemplatesOk(Index(ts, TemplateName))
  {
    hide Canonical;
    var m := Index(ts, TemplateName);
    IndexReadsBack(ts, TemplateName);
    forall n | n in m ensures m[n].name == n && Canonical(m[n]) {
      var i :| 0 <= i < |ts| && TemplateName(ts[i]) == n;
      assert m[n] == ts[i];
    }
    forall k, n | k in m && n in m && k != n ensures !PrefixesOverlap(m[k].prefix, m[n].prefix) {
      var i :| 0 <= i < |ts| && TemplateName(ts[i]) == k;
      var j :| 0 <= j < |ts| && TemplateName(ts[j]) == n;
      assert m[k] == ts[i] && m[n] == ts[j] && i != j;
      if j < i { assert !PrefixesOverlap(ts[j].prefix, ts[i].prefix); }
    }
  }

  /** Adding the next template succeeds when it fits the ones before it. */
  lemma NextTemplateAdmissible(s: StoreState, ts: seq<PrefixTemplate>, i: nat)
    requires i < |ts| && TemplatesLoad(ts[..i]) && s.templates == Index(ts[..i], TemplateName) && Canonical(ts[i])
    ensures Admissible(s, ts[i]) <==> TemplatesLoad(ts[..i + 1])
  {
    hide Canonical, PrefixesOverlap, TemplatesOk, Index;
    var before := ts[..i];
    assert forall j :: 0 <= j < i ==> before[j] == ts[j] && ts[..i + 1][j] == ts[j];
    assert ts[..i + 1][i] == ts[i];
    TemplatesLoadMeansOk(before);
    IndexReadsBack(before, TemplateName);
    if Admissible(s, ts[i]) {
      forall j | 0 <= j < i ensures ts[j].name != ts[i].name && !PrefixesOverlap(ts[j].prefix, ts[i].prefix) {
        assert TemplateName(before[j]) in s.templates && s.templates[TemplateName(before[j])] == ts[j];
      }
    }
    if TemplatesLoad(ts[..i + 1]) {
      forall n | n in s.templates ensures n != ts[i].name && !PrefixesOverlap(s.templates[n].prefix, ts[i].prefix) {
        var j :| 0 <= j < i && TemplateName(before[j]) == n;
        assert s.templates[n] == ts[..i + 1][j];
      }
    }
  }

  method LoadTemplates(store: Store.Store, ts: seq<PrefixTemplate>) returns (r: Result<(), LoadError>)
    requires store.View() == EMPTY_STORE.(nextBatch := store.nextBatch)
    modifies store
    ensures r.Ok? <==> TemplatesLoad(ts)
    ensures r.Ok? ==> store.View() == old(store.View()).(templates := Index(ts, TemplateName))
  {
    hide Canonical, PrefixesOverlap, Admissible, TemplatesOk;
    for i := 0 to |ts|
      invariant TemplatesLoad(ts[..i])
      invariant store.View() == old(store.View()).(templates := Index(ts[..i], TemplateName))
    {
      var template := ts[i];
      var validated := NewPrefixTemplate(template.name, template.prefix, template.iface, template.mode);
      if validated != Ok(template) {
        NotCanonical(template);
        return Err(TemplateNotCanonical);
      }
      IsCanonical(template);
      TemplatesLoadMeansOk(ts[..i]);
      NextTemplateAdmissible(store.View(), ts, i);
      PrefixOfTemplates(ts, i + 1);
      var added := store.AddTemplate(template);
      if added.Err? { return Err(TemplateRefused(added.error)); }
      assert ts[..i + 1][..i] == ts[..i];
    }
    assert ts[..|ts|] == ts;
    return Ok(());
  }

  lemma IsCanonical(t: PrefixTemplate)
    requires NewPrefixTemplate(t.name, t.prefix, t.iface, t.mode) == Ok(t)
    ensures Canonical(t)
  {
  }

  lemma NotCanonical(t: PrefixTemplate)
    requires NewPrefixTemplate(t.name, t.prefix, t.iface, t.mode) != Ok(t)
    ensures !Canonical(t)
  {
  }

  lemma PrefixOfTemplates(ts: seq<PrefixTemplate>, i: nat)
    requires i <= |ts|
    ensures TemplatesLoad(ts) ==> TemplatesLoad(ts[..i])
  {
    hide Canonical, PrefixesOverlap;
  }

  // ---- walk positions ----

  method LoadCursors(templates: map<Name, PrefixTemplate>, cursors: map<Prefix, Address>)
    returns (r: Result<map<Prefix, Address>, LoadError>)
    ensures r.Ok? <==> CursorKeysOk(cursors)
    ensures r.Ok? ==> r.value == KnownCursors(templates, cursors)
  {
    hide Prefix.Contains, Prefix.IsMasked, KnownPrefix;
    var kept: map<Prefix, Address> := map[];
    var pending := cursors.Keys;
    while pending != {}
      invariant pending <= cursors.Keys
      invariant forall p :: p in cursors && p !in pending ==> p.IsMasked() && p.Contains(cursors[p])
      invariant kept == map p | p in cursors && p !in pending && KnownPrefix(templates, p) :: cursors[p]
      decreases |pending|
    {
      var prefix :| prefix in pending;
      if !prefix.IsMasked() { return Err(CursorKeyNotCanonical); }
      if !prefix.Contains(cursors[prefix]) { return Err(CursorOutsidePrefix); }
      var known := IsKnown(templates, prefix);
      if known {
        kept := kept[prefix := cursors[prefix]];
      }
      pending := pending - {prefix};
    }
    return Ok(kept);
  }

  method IsKnown(templates: map<Name, PrefixTemplate>, prefix: Prefix) returns (known: bool)
    ensures known <==> KnownPrefix(templates, prefix)
  {
    var pending := templates.Keys;
    while pending != {}
      invariant pending <= templates.Keys
      invariant forall n :: n in templates && n !in pending ==> templates[n].prefix != prefix
      decreases |pending|
    {
      var n :| n in pending;
      if templates[n].prefix == prefix { return true; }
      pending := pending - {n};
    }
    return false;
  }

  // ---- canonical addresses ----

  ghost predicate AddressesLoad(templates: map<Name, PrefixTemplate>, cs: seq<CanonicalAddress>) {
    DistinctKeys(cs, AddressKey) && forall i :: 0 <= i < |cs| ==> AddressOk(templates, cs[i])
  }

  method LoadAddresses(templates: map<Name, PrefixTemplate>, cs: seq<CanonicalAddress>)
    returns (r: Result<map<Address, CanonicalAddress>, LoadError>)
    requires TemplatesOk(templates)
    ensures r.Ok? <==> AddressesLoad(templates, cs)
    ensures r.Ok? ==> r.value == Index(cs, AddressKey)
  {
    hide Prefix.Contains, TemplatesOk;
    var table: map<Address, CanonicalAddress> := map[];
    for i := 0 to |cs|
      invariant AddressesLoad(templates, cs[..i]) && table == Index(cs[..i], AddressKey)
    {
      var c := cs[i];
      assert AddressesLoad(templates, cs) ==> AddressOk(templates, c);
      if c.template !in templates || !templates[c.template].prefix.Contains(c.address) {
        return Err(AddressWithoutTemplate);
      }
      if !ValidOwnership(c.ownership) || c.ownership != OwnershipForMode(templates[c.template].mode)
         || c.references < 1 {
        return Err(AddressOwnership);
      }
      IndexReadsBack(cs[..i], AddressKey);
      NextKey(cs, AddressKey, i);
      if c.address in table { return Err(AddressRepeated); }
      table := table[c.address := c];
      assert cs[..i + 1][..i] == cs[..i];
    }
    assert cs[..|cs|] == cs;
    return Ok(table);
  }

  /** The next element repeats a key exactly when the table built so far has it. */
  lemma NextKey<K(!new), V(!new)>(s: seq<V>, key: V -> K, i: nat)
    requires i < |s| && DistinctKeys(s[..i], key)
    ensures key(s[i]) !in Index(s[..i], key) <==> DistinctKeys(s[..i + 1], key)
    ensures DistinctKeys(s, key) ==> DistinctKeys(s[..i + 1], key)
  {
    IndexReadsBack(s[..i], key);
    var next := s[..i + 1];
    assert forall j :: 0 <= j < i ==> next[j] == s[..i][j];
    if key(s[i]) in Index(s[..i], key) {
      var j :| 0 <= j < i && key(s[..i][j]) == key(s[i]);
      assert key(next[j]) == key(next[i]);
    } else {
      forall j | 0 <= j < i ensures key(next[j]) != key(next[i]) {
        assert key(s[..i][j]) in Index(s[..i], key);
      }
    }
  }

  // ---- fixed addresses ----

  ghost predicate FixedLoads(addresses: map<Address, CanonicalAddress>, f: FixedAddress) {
    && !Blank(f.name)
    && f.address in addresses
    && addresses[f.address].template == f.template && addresses[f.address].ownership == f.ownership
  }

  function FixedTarget(f: FixedAddress): Address { f.address }

  ghost predicate FixedListLoads(addresses: map<Address, CanonicalAddress>, fs: seq<FixedAddress>) {
    && DistinctKeys(fs, FixedName) && DistinctKeys(fs, FixedTarget)
    && forall i :: 0 <= i < |fs| ==> FixedLoads(addresses, fs[i])
  }

  function Count(counts: map<Address, int>, a: Address): int {
    if a in counts then counts[a] else 0
  }

  ghost predicate CountsFixed(counts: map<Address, int>, fixedAddresses: set<Address>, fixed: map<Name, FixedAddress>) {
    && (forall a :: a in fixedAddresses <==> FixedUses(fixed, a) != {})
    && (forall a: Address :: Count(counts, a) == |FixedUses(fixed, a)|)
  }

  datatype FixedTables = FixedTables(fixed: map<Name, FixedAddress>, targets: set<Address>, counts: map<Address, int>)

  method LoadFixed(addresses: map<Address, CanonicalAddress>, fs: seq<FixedAddress>)
    returns (r: Result<FixedTables, LoadError>)
    ensures r.Ok? <==> FixedListLoads(addresses, fs)
    ensures r.Ok? ==>
              r.value.fixed == Index(fs, FixedName) && CountsFixed(r.value.counts, r.value.targets, r.value.fixed)
  {
    hide Blank, FixedUses, CountsFixed;
    var t := FixedTables(map[], {}, map[]);
    NothingFixed();
    for i := 0 to |fs|
      invariant FixedListLoads(addresses, fs[..i])
      invariant t.fixed == Index(fs[..i], FixedName)
      invariant t.targets == set j | 0 <= j < i :: fs[j].address
      invariant CountsFixed(t.counts, t.targets, t.fixed)
    {
      var f := fs[i];
      NextKey(fs, FixedName, i);
      assert FixedListLoads(addresses, fs) ==> FixedLoads(addresses, f);
      if Blank(f.name) { return Err(FixedNameBlank); }
      if f.name in t.fixed { return Err(FixedRepeated); }
      if f.address !in addresses || addresses[f.address].template != f.template
         || addresses[f.address].ownership != f.ownership {
        return Err(FixedInconsistent);
      }
      NextTarget(fs, i);
      if f.address in t.targets { return Err(FixedAddressShared); }
      FixedIsCounted(t.fixed, t.targets, t.counts, f);
      t := FixedTables(t.fixed[f.name := f], t.targets + {f.address},
                       t.counts[f.address := Count(t.counts, f.address) + 1]);
      assert fs[..i + 1][..i] == fs[..i];
    }
    assert fs[..|fs|] == fs;
    return Ok(t);
  }

  lemma NothingFixed()
    ensures CountsFixed(map[], {}, map[])
  {
  }

  lemma NextTarget(fs: seq<FixedAddress>, i: nat)
    requires i < |fs| && DistinctKeys(fs[..i], FixedTarget)
    ensures fs[i].address !in (set j | 0 <= j < i :: fs[j].address) <==> DistinctKeys(fs[..i + 1], FixedTarget)
    ensures DistinctKeys(fs, FixedTarget) ==> DistinctKeys(fs[..i + 1], FixedTarget)
  {
    var next := fs[..i + 1];
    assert forall j :: 0 <= j < i ==> next[j] == fs[..i][j] == fs[j];
    if fs[i].address in (set j | 0 <= j < i :: fs[j].address) {
      var j :| 0 <= j < i && fs[j].address == fs[i].address;
      assert FixedTarget(next[j]) == FixedTarget(next[i]);
    }
  }

  lemma FixedIsCounted(fixed: map<Name, FixedAddress>, targets: set<Address>, counts: map<Address, int>,
                       f: FixedAddress)
    requires CountsFixed(counts, targets, fixed) && f.name !in fixed
    ensures CountsFixed(counts[f.address := Count(counts, f.address) + 1], targets + {f.address}, fixed[f.name := f])
  {
    var next := fixed[f.name := f];
    forall a: Address ensures |FixedUses(next, a)| == |FixedUses(fixed, a)| + One(a == f.address)
                      ensures FixedUses(next, a) != {} <==> FixedUses(fixed, a) != {} || a == f.address {
      SizesDifferByOne(FixedUses(fixed, a), FixedUses(next, a), f.name);
      if a == f.address { assert f.name in FixedUses(next, a); }
         else { assert FixedUses(next, a) == FixedUses(fixed, a); }
    }
  }

  // ---- one pool ----

  ghost predicate Backed(addresses: map<Address, CanonicalAddress>, template: Name, a: Address) {
    a in addresses && addresses[a].template == template
  }

  ghost predicate PoolLoads(templates: map<Name, PrefixTemplate>, addresses: map<Address, CanonicalAddress>,
                            targets: set<Address>, p: Pool) {
    && PoolShape(p) && p.template in templates
    && (forall a :: a in Held(p) ==> Backed(addresses, p.template, a))
    && Elements(p.pinned) <= targets
  }

  /** The batch identifiers of a pool are well formed and new. */
  ghost predicate IdsFresh(ids: set<string>, draining: seq<DrainBatch>) {
    && (forall b :: 0 <= b < |draining| ==> ParseDrainSequence(draining[b].id).Some? && draining[b].id !in ids)
    && (forall b, c :: 0 <= b < c < |draining| ==> draining[b].id != draining[c].id)
  }

  ghost predicate CountsMore(after: map<Address, int>, before: map<Address, int>, more: seq<Address>) {
    forall a: Address :: Count(after, a) == Count(before, a) + One(a in more)
  }

  method LoadActive(addresses: map<Address, CanonicalAddress>, p: Pool) returns (r: Result<set<Address>, LoadError>)
    ensures r.Ok? <==> Distinct(p.active) && forall a :: a in p.active ==> Backed(addresses, p.template, a)
    ensures r.Ok? ==> r.value == Elements(p.active)
  {
    var active: set<Address> := {};
    for i := 0 to |p.active|
      invariant Distinct(p.active[..i]) && active == Elements(p.active[..i])
      invariant forall j :: 0 <= j < i ==> Backed(addresses, p.template, p.active[j])
    {
      var a := p.active[i];
      NextIsDistinct(p.active, i);
      if a in active { return Err(ActiveRepeated); }
      if a !in addresses || addresses[a].template != p.template {
        assert a in p.active;
        return Err(AddressInconsistent);
      }
      active := active + {a};
    }
    assert p.active[..|p.active|] == p.active;
    return Ok(active);
  }

  lemma NextIsDistinct(s: seq<Address>, i: nat)
    requires i < |s| && Distinct(s[..i])
    ensures s[i] !in s[..i] <==> Distinct(s[..i + 1])
    ensures Distinct(s) ==> Distinct(s[..i + 1])
    ensures s[..i + 1] == s[..i] + [s[i]] && Elements(s[..i + 1]) == Elements(s[..i]) + {s[i]}
  {
    if s[i] in s[..i] {
      var j :| 0 <= j < i && s[..i][j] == s[i];
      assert s[..i + 1][j] == s[..i + 1][i];
    }
  }

  method LoadPinned(p: Pool, active: set<Address>, targets: set<Address>, counts: map<Address, int>)
    returns (r: Result<(set<Address>, map<Address, int>), LoadError>)
    ensures r.Ok? <==> Distinct(p.pinned) && Elements(p.pinned) <= active && Elements(p.pinned) <= targets
    ensures r.Ok? ==> r.value.0 == Elements(p.pinned) && CountsMore(r.value.1, counts, p.pinned)
  {
    var pinned: set<Address> := {};
    var counted := counts;
    for i := 0 to |p.pinned|
      invariant Distinct(p.pinned[..i]) && pinned == Elements(p.pinned[..i])
      invariant pinned <= active && pinned <= targets
      invariant CountsMore(counted, counts, p.pinned[..i])
    {
      var a := p.pinned[i];
      NextIsDistinct(p.pinned, i);
      assert a in Elements(p.pinned);
      if a in pinned { return Err(PinnedRepeated); }
      if a !in active { return Err(PinnedNotActive); }
      if a !in targets { return Err(PinnedNotFixed); }
      pinned := pinned + {a};
      counted := counted[a := Count(counted, a) + 1];
    }
    assert p.pinned[..|p.pinned|] == p.pinned;
    return Ok((pinned, counted));
  }

  method CountAutomatic(active: set<Address>, pinned: set<Address>, counts: map<Address, int>)
    returns (counted: map<Address, int>)
    ensures forall a: Address :: Count(counted, a) == Count(counts, a) + One(a in active - pinned)
  {
    counted := counts;
    var pending := active;
    while pending != {}
      invariant pending <= active
      invariant forall a: Address :: Count(counted, a) == Count(counts, a) + One(a in active - pinned && a !in pending)
      decreases |pending|
    {
      var a :| a in pending;
      if a !in pinned {
        counted := counted[a := Count(counted, a) + 1];
      }
      pending := pending - {a};
    }
  }

  ghost predicate DrainingLoads(addresses: map<Address, CanonicalAddress>, p: Pool, active: set<Address>,
                                flat: seq<Address>) {
    && Distinct(flat) && Elements(flat) !! active
    && forall a :: a in flat ==> Backed(addresses, p.template, a)
  }

  lemma NextDrains(addresses: map<Address, CanonicalAddress>, p: Pool, active: set<Address>, flat: seq<Address>,
                   a: Address)
    requires DrainingLoads(addresses, p, active, flat)
    ensures DrainingLoads(addresses, p, active, flat + [a]) <==>
              a !in active && a !in flat && Backed(addresses, p.template, a)
    ensures Elements(flat + [a]) == Elements(flat) + {a}
  {
    var next := flat + [a];
    assert next[|flat|] == a;
    assert forall j :: 0 <= j < |flat| ==> next[j] == flat[j];
    assert a in Elements(next);
  }

  lemma {:induction false} DrainingPrefixLoads(addresses: map<Address, CanonicalAddress>, p: Pool,
                                               active: set<Address>, flat: seq<Address>, rest: seq<Address>)
    requires DrainingLoads(addresses, p, active, flat + rest)
    ensures DrainingLoads(addresses, p, active, flat)
  {
    assert forall j :: 0 <= j < |flat| ==> flat[j] == (flat + rest)[j];
    assert Elements(flat) <= Elements(flat + rest);
  }

  /** One batch, after the batches whose addresses are `flat`. */
  method LoadBatch(addresses: map<Address, CanonicalAddress>, p: Pool, active: set<Address>, batch: seq<Address>,
                   draining: set<Address>, counts: map<Address, int>, ghost flat: seq<Address>)
    returns (r: Result<(set<Address>, map<Address, int>), LoadError>)
    requires draining == Elements(flat) && DrainingLoads(addresses, p, active, flat)
    ensures r.Ok? <==> DrainingLoads(addresses, p, active, flat + batch)
    ensures r.Ok? ==> r.value.0 == Elements(flat + batch) && CountsMore(r.value.1, counts, batch)
  {
    hide DrainingLoads, Elements;
    var seen, counted := draining, counts;
    assert flat + batch[..0] == flat;
    for i := 0 to |batch|
      invariant seen == Elements(flat + batch[..i]) && DrainingLoads(addresses, p, active, flat + batch[..i])
      invariant CountsMore(counted, counts, batch[..i])
    {
      var a := batch[i];
      var before := flat + batch[..i];
      NextDrains(addresses, p, active, before, a);
      MemberOfElements(before, a);
      assert before + [a] == flat + batch[..i + 1];
      BatchFailure(addresses, p, active, flat, batch, i + 1);
      if a in active { return Err(DrainingStillActive); }
      if a in seen { return Err(DrainingRepeated); }
      if a !in addresses || addresses[a].template != p.template { return Err(AddressInconsistent); }
      seen := seen + {a};
      assert a !in batch[..i];
      assert batch[..i + 1] == batch[..i] + [a];
      counted := counted[a := Count(counted, a) + 1];
    }
    assert batch[..|batch|] == batch;
    return Ok((seen, counted));
  }

  lemma MemberOfElements(s: seq<Address>, a: Address)
    ensures a in s <==> a in Elements(s)
  {
  }

  lemma BatchFailure(addresses: map<Address, CanonicalAddress>, p: Pool, active: set<Address>, flat: seq<Address>,
                     batch: seq<Address>, i: nat)
    requires i <= |batch|
    ensures DrainingLoads(addresses, p, active, flat + batch) ==> DrainingLoads(addresses, p, active, flat + batch[..i])
  {
    hide DrainingLoads;
    if DrainingLoads(addresses, p, active, flat + batch) {
      assert flat + batch == (flat + batch[..i]) + batch[i..];
      DrainingPrefixLoads(addresses, p, active, flat + batch[..i], batch[i..]);
    }
  }

  // ---- the batches of one pool ----

  ghost predicate BatchesLoad(addresses: map<Address, CanonicalAddress>, p: Pool, active: set<Address>,
                              ids: set<string>, draining: seq<DrainBatch>) {
    && IdsFresh(ids, draining)
    && (forall b :: 0 <= b < |draining| ==> draining[b].addresses != [])
    && DrainingLoads(addresses, p, active, Flat(draining))
  }

  ghost function Ids(draining: seq<DrainBatch>): set<string> {
    set b | 0 <= b < |draining| :: draining[b].id
  }

  function SequenceOf(id: string): nat {
    match ParseDrainSequence(id)
    case Some(n) => n
    case None => 0
  }

  /** `highest` is the largest of `least` and the sequence numbers of the batches. */
  ghost predicate HighestOf(highest: nat, least: nat, draining: seq<DrainBatch>) {
    && highest >= least
    && (forall b :: 0 <= b < |draining| ==> SequenceOf(draining[b].id) <= highest)
    && (highest == least || exists b :: 0 <= b < |draining| && SequenceOf(draining[b].id) == highest)
  }

  datatype BatchTables = BatchTables(ids: set<string>, highest: nat, counts: map<Address, int>)

  method LoadDraining(addresses: map<Address, CanonicalAddress>, p: Pool, active: set<Address>, t: BatchTables)
    returns (r: Result<BatchTables, LoadError>)
    ensures r.Ok? <==> BatchesLoad(addresses, p, active, t.ids, p.draining)
    ensures r.Ok? ==> r.value.ids == t.ids + Ids(p.draining) && HighestOf(r.value.highest, t.highest, p.draining)
                      && CountsMore(r.value.counts, t.counts, Draining(p))
  {
    hide DrainingLoads, CountsMore, ParseDrainSequence, Flat, Elements;
    var d := p.draining;
    var ids, highest, counts := t.ids, t.highest, t.counts;
    var draining: set<Address> := {};
    NothingDrains(addresses, p, active, d, counts);
    for b := 0 to |d|
      invariant BatchesLoad(addresses, p, active, t.ids, d[..b])
      invariant ids == t.ids + Ids(d[..b]) && HighestOf(highest, t.highest, d[..b])
      invariant draining == Elements(Flat(d[..b])) && CountsMore(counts, t.counts, Flat(d[..b]))
    {
      var batch := d[b];
      FlatOfPrefix(d, b);
      BatchesFailure(addresses, p, active, t.ids, d, b + 1);
      NextBatchLoads(addresses, p, active, t.ids, d, b);
      var sequence := ParseDrainSequence(batch.id);
      if sequence.None? { return Err(BatchIdInvalid); }
      if batch.id in ids { return Err(BatchIdRepeated); }
      ids := ids + {batch.id};
      if sequence.value > highest { highest := sequence.value; }
      if |batch.addresses| == 0 { return Err(BatchEmpty); }
      var loaded := LoadBatch(addresses, p, active, batch.addresses, draining, counts, Flat(d[..b]));
      if loaded.Err? { return Err(loaded.error); }
      FreshBatchCounts(loaded.value.1, counts, t.counts, Flat(d[..b]), batch.addresses, addresses, p, active);
      draining, counts := loaded.value.0, loaded.value.1;
      assert Ids(d[..b + 1]) == Ids(d[..b]) + {batch.id} by { IdsGrow(d, b); }
      HighestGrows(highest, t.highest, d, b);
    }
    assert d[..|d|] == d;
    return Ok(BatchTables(ids, highest, counts));
  }

  lemma NothingDrains(addresses: map<Address, CanonicalAddress>, p: Pool, active: set<Address>, d: seq<DrainBatch>,
                      counts: map<Address, int>)
    ensures Flat(d[..0]) == [] && Elements(Flat(d[..0])) == {} && DrainingLoads(addresses, p, active, Flat(d[..0]))
    ensures CountsMore(counts, counts, Flat(d[..0])) && Ids(d[..0]) == {}
  {
  }

  lemma IdsGrow(d: seq<DrainBatch>, b: nat)
    requires b < |d|
    ensures Ids(d[..b + 1]) == Ids(d[..b]) + {d[b].id}
  {
    assert forall c :: 0 <= c < b ==> d[..b + 1][c] == d[..b][c];
    forall id | id in Ids(d[..b]) ensures id in Ids(d[..b + 1]) {
      var c :| 0 <= c < b && d[..b][c].id == id;
      assert d[..b + 1][c].id == id;
    }
    assert d[..b + 1][b].id == d[b].id;
  }

  lemma HighestGrows(highest: nat, least: nat, d: seq<DrainBatch>, b: nat)
    requires b < |d|
    requires exists before: nat :: HighestOf(before, least, d[..b])
               && highest == if SequenceOf(d[b].id) > before then SequenceOf(d[b].id) else before
    ensures HighestOf(highest, least, d[..b + 1])
  {
    var before: nat :| HighestOf(before, least, d[..b])
               && highest == if SequenceOf(d[b].id) > before then SequenceOf(d[b].id) else before;
    var next := d[..b + 1];
    assert forall c :: 0 <= c < b ==> next[c] == d[..b][c];
    assert next[b] == d[b];
    if highest != least && highest == before {
      var c :| 0 <= c < b && SequenceOf(d[..b][c].id) == highest;
      assert SequenceOf(next[c].id) == highest;
    }
  }

  lemma BatchesFailure(addresses: map<Address, CanonicalAddress>, p: Pool, active: set<Address>, ids: set<string>,
                       d: seq<DrainBatch>, i: nat)
    requires i <= |d|
    ensures BatchesLoad(addresses, p, active, ids, d) ==> BatchesLoad(addresses, p, active, ids, d[..i])
  {
    hide DrainingLoads, ParseDrainSequence, Flat;
    if BatchesLoad(addresses, p, active, ids, d) {
      assert d == d[..i] + d[i..];
      FlatSplits(d[..i], d[i..]);
      DrainingPrefixLoads(addresses, p, active, Flat(d[..i]), Flat(d[i..]));
    }
  }

  lemma NextBatchLoads(addresses: map<Address, CanonicalAddress>, p: Pool, active: set<Address>, ids: set<string>,
                       d: seq<DrainBatch>, b: nat)
    requires b < |d| && BatchesLoad(addresses, p, active, ids, d[..b])
    ensures BatchesLoad(addresses, p, active, ids, d[..b + 1]) <==>
              ParseDrainSequence(d[b].id).Some? && d[b].id !in ids + Ids(d[..b]) && d[b].addresses != []
              && DrainingLoads(addresses, p, active, Flat(d[..b + 1]))
  {
    hide DrainingLoads, ParseDrainSequence, Flat;
    var next := d[..b + 1];
    assert forall c :: 0 <= c < b ==> next[c] == d[..b][c];
    assert next[b] == d[b];
    if d[b].id in Ids(d[..b]) {
      var c :| 0 <= c < b && d[..b][c].id == d[b].id;
      assert next[c].id == next[b].id;
    } else {
      assert forall c :: 0 <= c < b ==> d[..b][c].id in Ids(d[..b]);
    }
  }

  lemma FreshBatchCounts(after: map<Address, int>, middle: map<Address, int>, before: map<Address, int>,
                         flat: seq<Address>, batch: seq<Address>,
                         addresses: map<Address, CanonicalAddress>, p: Pool, active: set<Address>)
    requires CountsMore(middle, before, flat) && CountsMore(after, middle, batch)
             && DrainingLoads(addresses, p, active, flat + batch)
    ensures CountsMore(after, before, flat + batch)
  {
    assert flat + batch == flat + batch + [];
    DistinctParts(flat, batch, []);
    forall a: Address ensures One(a in flat + batch) == One(a in flat) + One(a in batch) {
      MemberOfElements(flat, a);
      MemberOfElements(batch, a);
    }
  }

  method LoadPool(templates: map<Name, PrefixTemplate>, addresses: map<Address, CanonicalAddress>,
                  targets: set<Address>, p: Pool, t: BatchTables)
    returns (r: Result<BatchTables, LoadError>)
    ensures r.Ok? <==> PoolLoads(templates, addresses, targets, p) && IdsFresh(t.ids, p.draining)
    ensures r.Ok? ==> r.value.ids == t.ids + Ids(p.draining) && HighestOf(r.value.highest, t.highest, p.draining)
                      && forall a: Address :: Count(r.value.counts, a) == Count(t.counts, a) + PoolUses(p, a)
  {
    PoolLoadsInParts(templates, addresses, targets, p, t.ids);
    hide PoolLoads, Blank, BatchesLoad, IdsFresh, Distinct, Flat, HighestOf, PoolUses;
    if Blank(p.name) || !ValidPoolKind(p.kind) { return Err(PoolNameOrKind); }
    if p.template !in templates { return Err(PoolTemplateMissing); }
    if p.capacity < 1 || p.capacity > MAX_POOL_SIZE || |p.active| != p.capacity || |p.pinned| > p.capacity {
      return Err(PoolCapacity);
    }
    var active := LoadActive(addresses, p);
    if active.Err? { return Err(active.error); }
    var pinned := LoadPinned(p, active.value, targets, t.counts);
    if pinned.Err? { return Err(pinned.error); }
    var counts := CountAutomatic(active.value, pinned.value.0, pinned.value.1);
    var loaded := LoadDraining(addresses, p, active.value, t.(counts := counts));
    if loaded.Err? { return Err(loaded.error); }
    PoolUsesInParts(p, t.counts, pinned.value.1, counts, loaded.value.counts);
    return loaded;
  }

  lemma PoolLoadsInParts(templates: map<Name, PrefixTemplate>, addresses: map<Address, CanonicalAddress>,
                         targets: set<Address>, p: Pool, ids: set<string>)
    ensures PoolLoads(templates, addresses, targets, p) && IdsFresh(ids, p.draining) <==>
      && !Blank(p.name) && ValidPoolKind(p.kind) && p.template in templates
      && 1 <= p.capacity <= MAX_POOL_SIZE && |p.active| == p.capacity && |p.pinned| <= p.capacity
      && Distinct(p.active) && (forall a :: a in p.active ==> Backed(addresses, p.template, a))
      && Distinct(p.pinned) && Elements(p.pinned) <= Elements(p.active) && Elements(p.pinned) <= targets
      && BatchesLoad(addresses, p, Elements(p.active), ids, p.draining)
  {
    hide Blank, Distinct, IdsFresh, Flat, Backed;
    assert forall a :: a in Held(p) <==> a in p.active || a in Draining(p);
  }

  lemma PoolUsesInParts(p: Pool, c0: map<Address, int>, c1: map<Address, int>, c2: map<Address, int>,
                        c3: map<Address, int>)
    requires CountsMore(c1, c0, p.pinned)
    requires forall a: Address :: Count(c2, a) == Count(c1, a) + One(a in Elements(p.active) - Elements(p.pinned))
    requires CountsMore(c3, c2, Draining(p))
    ensures forall a: Address :: Count(c3, a) == Count(c0, a) + PoolUses(p, a)
  {
    hide Count;
    forall a: Address ensures Count(c3, a) == Count(c0, a) + PoolUses(p, a) {
      assert Count(c1, a) == Count(c0, a) + One(a in p.pinned);
      assert Count(c2, a) == Count(c1, a) + One(a in Automatic(p));
    }
  }

  // ---- all pools ----

  ghost predicate IdsLoad(ps: seq<Pool>) {
    && (forall i, b :: 0 <= i < |ps| && 0 <= b < |ps[i].draining| ==> ParseDrainSequence(ps[i].draining[b].id).Some?)
    && (forall i, j, b, c ::
          (0 <= i < |ps| && 0 <= j < |ps| && 0 <= b < |ps[i].draining| && 0 <= c < |ps[j].draining|
           && ps[i].draining[b].id == ps[j].draining[c].id) ==> i == j && b == c)
  }

  ghost predicate PoolListLoads(templates: map<Name, PrefixTemplate>, addresses: map<Address, CanonicalAddress>,
                                targets: set<Address>, ps: seq<Pool>) {
    && DistinctKeys(ps, PoolName) && IdsLoad(ps)
    && forall i :: 0 <= i < |ps| ==> PoolLoads(templates, addresses, targets, ps[i])
  }

  ghost predicate AllIds(ids: set<string>, ps: seq<Pool>) {
    && (forall i, b :: 0 <= i < |ps| && 0 <= b < |ps[i].draining| ==> ps[i].draining[b].id in ids)
    && (forall id :: id in ids ==>
                       exists i, b :: 0 <= i < |ps| && 0 <= b < |ps[i].draining| && ps[i].draining[b].id == id)
  }

  ghost predicate HighestOfAll(highest: nat, ps: seq<Pool>) {
    && (forall i, b :: 0 <= i < |ps| && 0 <= b < |ps[i].draining| ==> SequenceOf(ps[i].draining[b].id) <= highest)
    && (highest == 0 || exists i, b :: 0 <= i < |ps| && 0 <= b < |ps[i].draining|
                                       && SequenceOf(ps[i].draining[b].id) == highest)
  }

  lemma NextPoolIds(ids: set<string>, ps: seq<Pool>, i: nat)
    requires i < |ps| && IdsLoad(ps[..i]) && AllIds(ids, ps[..i])
    ensures IdsLoad(ps[..i + 1]) <==> IdsFresh(ids, ps[i].draining)
    ensures AllIds(ids + Ids(ps[i].draining), ps[..i + 1])
  {
    hide ParseDrainSequence;
    var before, next, d := ps[..i], ps[..i + 1], ps[i].draining;
    assert next[i] == ps[i] && forall k :: 0 <= k < i ==> next[k] == before[k];
    if IdsLoad(next) {
      forall b | 0 <= b < |d| ensures d[b].id !in ids {
        assert next[i].draining[b] == d[b];
      }
    }
    if IdsFresh(ids, d) {
      forall k, j, b, c | 0 <= k < |next| && 0 <= j < |next| && 0 <= b < |next[k].draining|
      && 0 <= c < |next[j].draining|
                          && next[k].draining[b].id == next[j].draining[c].id ensures k == j && b == c {
        assert k < i ==> before[k].draining[b].id in ids;
        assert j < i ==> before[j].draining[c].id in ids;
      }
    }
    AllIdsGrow(ids, before, next, i);
  }

  lemma AllIdsGrow(ids: set<string>, before: seq<Pool>, next: seq<Pool>, i: nat)
    requires |before| == i && |next| == i + 1 && next[..i] == before && AllIds(ids, before)
    ensures AllIds(ids + Ids(next[i].draining), next)
  {
    assert forall k :: 0 <= k < i ==> next[k] == before[k];
    forall id | id in ids + Ids(next[i].draining)
      ensures exists k, b :: 0 <= k < |next| && 0 <= b < |next[k].draining| && next[k].draining[b].id == id {
      if id in ids {
        var k, b :| 0 <= k < |before| && 0 <= b < |before[k].draining| && before[k].draining[b].id == id;
        assert next[k].draining[b].id == id;
      } else {
        var b :| 0 <= b < |next[i].draining| && next[i].draining[b].id == id;
      }
    }
  }

  lemma HighestOfAllGrows(highest: nat, before: nat, ps: seq<Pool>, i: nat)
    requires i < |ps| && HighestOfAll(before, ps[..i]) && HighestOf(highest, before, ps[i].draining)
    ensures HighestOfAll(highest, ps[..i + 1])
  {
    hide SequenceOf;
    var next := ps[..i + 1];
    assert next[i] == ps[i] && forall k :: 0 <= k < i ==> next[k] == ps[..i][k];
    if highest != before {
      var b :| 0 <= b < |ps[i].draining| && SequenceOf(ps[i].draining[b].id) == highest;
      assert SequenceOf(next[i].draining[b].id) == highest;
    } else if highest != 0 {
      var k, b :| 0 <= k < i && 0 <= b < |ps[..i][k].draining| && SequenceOf(ps[..i][k].draining[b].id) == highest;
      assert SequenceOf(next[k].draining[b].id) == highest;
    }
  }

  lemma PoolListFailure(templates: map<Name, PrefixTemplate>, addresses: map<Address, CanonicalAddress>,
                        targets: set<Address>, ps: seq<Pool>, i: nat)
    requires i <= |ps|
    ensures PoolListLoads(templates, addresses, targets, ps) ==> PoolListLoads(templates, addresses, targets, ps[..i])
  {
    hide PoolLoads, ParseDrainSequence;
  }

  lemma NextPoolLoads(templates: map<Name, PrefixTemplate>, addresses: map<Address, CanonicalAddress>,
                      targets: set<Address>, ps: seq<Pool>, i: nat, ids: set<string>)
    requires i < |ps| && PoolListLoads(templates, addresses, targets, ps[..i]) && AllIds(ids, ps[..i])
    ensures PoolListLoads(templates, addresses, targets, ps[..i + 1]) <==>
      ps[i].name !in Index(ps[..i], PoolName) && PoolLoads(templates, addresses, targets, ps[i])
      && IdsFresh(ids, ps[i].draining)
    ensures AllIds(ids + Ids(ps[i].draining), ps[..i + 1])
  {
    hide PoolLoads, IdsLoad, AllIds, IdsFresh;
    NextKey(ps, PoolName, i);
    NextPoolIds(ids, ps, i);
    assert ps[..i + 1][i] == ps[i] && forall k :: 0 <= k < i ==> ps[..i + 1][k] == ps[..i][k];
  }

  ghost predicate CountsAll(counts: map<Address, int>, fixed: map<Name, FixedAddress>, pools: map<Name, Pool>) {
    forall a: Address :: Count(counts, a) == ExpectedReferences(fixed, pools, a)
  }

  lemma NextPoolCounts(after: map<Address, int>, before: map<Address, int>, fixed: map<Name, FixedAddress>,
                       pools: map<Name, Pool>, p: Pool)
    requires CountsAll(before, fixed, pools) && p.name !in pools
    requires forall a: Address :: Count(after, a) == Count(before, a) + PoolUses(p, a)
    ensures CountsAll(after, fixed, pools[p.name := p])
  {
    hide PoolUses, Count, ExpectedReferences;
    forall a: Address ensures Count(after, a) == ExpectedReferences(fixed, pools[p.name := p], a) {
      ExpectedFollowsPool(fixed, pools, pools[p.name := p], p.name, a);
    }
  }

  datatype PoolTables = PoolTables(pools: map<Name, Pool>, highest: nat, counts: map<Address, int>)

  method LoadPools(templates: map<Name, PrefixTemplate>, addresses: map<Address, CanonicalAddress>,
                   ghost fixed: map<Name, FixedAddress>,
                   targets: set<Address>, counts: map<Address, int>, ps: seq<Pool>)
    returns (r: Result<PoolTables, LoadError>)
    requires CountsAll(counts, fixed, map[])
    ensures r.Ok? <==> PoolListLoads(templates, addresses, targets, ps)
    ensures r.Ok? ==> r.value.pools == Index(ps, PoolName) && HighestOfAll(r.value.highest, ps)
                      && CountsAll(r.value.counts, fixed, r.value.pools)
  {
    hide PoolListLoads, PoolLoads, HighestOfAll, HighestOf, CountsAll, AllIds, IdsFresh, PoolUses, Count, Ids;
    var pools: map<Name, Pool> := map[];
    var t := BatchTables({}, 0, counts);
    NoPools(templates, addresses, targets, ps);
    for i := 0 to |ps|
      invariant PoolListLoads(templates, addresses, targets, ps[..i])
      invariant pools == Index(ps[..i], PoolName) && AllIds(t.ids, ps[..i])
      invariant HighestOfAll(t.highest, ps[..i]) && CountsAll(t.counts, fixed, pools)
    {
      var pool := ps[i];
      PoolListFailure(templates, addresses, targets, ps, i + 1);
      NextPoolLoads(templates, addresses, targets, ps, i, t.ids);
      if pool.name in pools { return Err(PoolRepeated); }
      var loaded := LoadPool(templates, addresses, targets, pool, t);
      if loaded.Err? { return Err(loaded.error); }
      NextPoolCounts(loaded.value.counts, t.counts, fixed, pools, pool);
      HighestOfAllGrows(loaded.value.highest, t.highest, ps, i);
      assert ps[..i + 1][..i] == ps[..i];
      t := loaded.value;
      pools := pools[pool.name := pool];
    }
    assert ps[..|ps|] == ps;
    return Ok(PoolTables(pools, t.highest, t.counts));
  }

  lemma NoPools(templates: map<Name, PrefixTemplate>, addresses: map<Address, CanonicalAddress>,
                targets: set<Address>, ps: seq<Pool>)
    ensures PoolListLoads(templates, addresses, targets, ps[..0]) && AllIds({}, ps[..0]) && HighestOfAll(0, ps[..0])
  {
  }

  method CheckReferences(addresses: map<Address, CanonicalAddress>, counts: map<Address, int>)
    returns (r: Result<(), LoadError>)
    ensures r.Ok? <==> forall a :: a in addresses ==> Count(counts, a) == addresses[a].references
  {
    var pending := addresses.Keys;
    while pending != {}
      invariant pending <= addresses.Keys
      invariant forall a :: a in addresses && a !in pending ==> Count(counts, a) == addresses[a].references
      decreases |pending|
    {
      var a :| a in pending;
      if Count(counts, a) != addresses[a].references { return Err(ReferencesWrong(a)); }
      pending := pending - {a};
    }
    return Ok(());
  }

  // ---- the whole document ----

  /** What the loader checks, section by section. */
  ghost predicate SectionsLoad(d: Document) {
    var s := Loaded(d);
    && TemplatesLoad(d.templates) && CursorKeysOk(d.nextAddresses) && AddressesLoad(s.templates, d.addresses)
    && FixedListLoads(s.addresses, d.fixed)
    && PoolListLoads(s.templates, s.addresses, FixedTargets(s.fixed), d.pools)
    && (forall i, b :: 0 <= i < |d.pools| && 0 <= b < |d.pools[i].draining| ==>
                         SequenceOf(d.pools[i].draining[b].id) <= d.nextBatch)
    && (forall a :: a in s.addresses ==> s.addresses[a].references == ExpectedReferences(s.fixed, s.pools, a))
  }

  ghost function FixedTargets(fixed: map<Name, FixedAddress>): set<Address> {
    set n | n in fixed :: fixed[n].address
  }

  lemma TargetsAreUsed(fixed: map<Name, FixedAddress>, targets: set<Address>)
    requires forall a :: a in targets <==> FixedUses(fixed, a) != {}
    ensures targets == FixedTargets(fixed)
  {
    forall a | a in FixedTargets(fixed) ensures a in targets {
      var n :| n in fixed && fixed[n].address == a;
      assert n in FixedUses(fixed, a);
    }
    forall a | a in targets ensures a in FixedTargets(fixed) {
      var n :| n in FixedUses(fixed, a);
    }
  }

  /** `buildStoreFromState`: a store, or the first complaint; the caller's document is untouched. */
  method NewStoreFromState(d: Document) returns (r: Result<(), LoadError>, store: Store.Store)
    requires d.nextBatch < UINT64_LIMIT
    ensures fresh(store)
    ensures r.Ok? <==> Accepted(d)
    ensures r.Ok? ==> store.View() == Loaded(d)
  {
    hide Accepted, TemplatesLoad, CursorKeysOk, AddressesLoad, FixedListLoads, PoolListLoads, ExpectedReferences;
    hide HighestOfAll, CountsFixed, CountsAll, FixedTargets;
    SectionsAreTheInvariant(d);
    store := new Store.Store.NewStore();
    store.nextBatch := d.nextBatch;
    var templates := LoadTemplates(store, d.templates);
    if templates.Err? { return Err(templates.error), store; }
    TemplatesLoadMeansOk(d.templates);
    var cursors := LoadCursors(store.templates, d.nextAddresses);
    if cursors.Err? { return Err(cursors.error), store; }
    store.nextAddresses := cursors.value;
    var addresses := LoadAddresses(store.templates, d.addresses);
    if addresses.Err? { return Err(addresses.error), store; }
    store.addresses := addresses.value;
    var fixed := LoadFixed(store.addresses, d.fixed);
    if fixed.Err? { return Err(fixed.error), store; }
    store.fixed := fixed.value.fixed;
    FixedCountsStart(fixed.value);
    var pools := LoadPools(store.templates, store.addresses, store.fixed, fixed.value.targets, fixed.value.counts,
                           d.pools);
    if pools.Err? { return Err(pools.error), store; }
    store.pools := pools.value.pools;
    HighestIsEnough(pools.value.highest, d.pools, d.nextBatch);
    if pools.value.highest > d.nextBatch { return Err(NextBatchBehind), store; }
    CountsAreExpected(pools.value.counts, store.fixed, store.pools);
    var checked := CheckReferences(store.addresses, pools.value.counts);
    return checked, store;
  }

  lemma FixedCountsStart(t: FixedTables)
    requires CountsFixed(t.counts, t.targets, t.fixed)
    ensures CountsAll(t.counts, t.fixed, map[]) && t.targets == FixedTargets(t.fixed)
  {
    TargetsAreUsed(t.fixed, t.targets);
    forall a: Address ensures ExpectedReferences(t.fixed, map[], a) == |FixedUses(t.fixed, a)| {
      assert PinnedUses(map[], a) == AutomaticUses(map[], a) == DrainingUses(map[], a) == {};
    }
  }

  lemma CountsAreExpected(counts: map<Address, int>, fixed: map<Name, FixedAddress>, pools: map<Name, Pool>)
    requires CountsAll(counts, fixed, pools)
    ensures forall a: Address :: Count(counts, a) == ExpectedReferences(fixed, pools, a)
  {
  }

  lemma HighestIsEnough(highest: nat, ps: seq<Pool>, nextBatch: nat)
    requires HighestOfAll(highest, ps)
    ensures highest <= nextBatch <==>
      forall i, b :: 0 <= i < |ps| && 0 <= b < |ps[i].draining| ==> SequenceOf(ps[i].draining[b].id) <= nextBatch
  {
    hide SequenceOf;
  }

  // ---- sections and invariant are the same test ----

  lemma SectionsAreTheInvariant(d: Document)
    requires d.nextBatch < UINT64_LIMIT
    ensures SectionsLoad(d) <==> Accepted(d)
  {
    var s := Loaded(d);
    hide TemplatesLoad, AddressesLoad, FixedListLoads, PoolListLoads, TemplatesOk, AddressesOk, FixedOk, PoolsOk;
    hide BatchesOk, ReferencesOk;
    hide CursorsOk, CursorKeysOk, DistinctKeys, KnownCursors, FixedTargets, ExpectedReferences;
    TemplatesLoadMeansOk(d.templates);
    KnownCursorsAreOk(s.templates, d.nextAddresses);
    AddressesLoadMeansOk(s, d.addresses);
    FixedListLoadsMeansOk(s, d.fixed);
    PoolListLoadsMeansOk(s, d.pools, d.nextBatch);
    if AddressesOk(s) && FixedOk(s) && PoolsOk(s) { OnlyTableAddressesAreCounted(s); }
  }

  lemma KnownCursorsAreOk(templates: map<Name, PrefixTemplate>, cursors: map<Prefix, Address>)
    ensures CursorKeysOk(cursors) ==> CursorsOk(templates, KnownCursors(templates, cursors))
  {
  }

  lemma AddressesLoadMeansOk(s: StoreState, cs: seq<CanonicalAddress>)
    requires s.addresses == Index(cs, AddressKey)
    ensures AddressesLoad(s.templates, cs) <==> DistinctKeys(cs, AddressKey) && AddressesOk(s)
  {
    hide AddressOk;
    if DistinctKeys(cs, AddressKey) {
      IndexReadsBack(cs, AddressKey);
      if AddressesOk(s) {
        forall i | 0 <= i < |cs| ensures AddressOk(s.templates, cs[i]) { assert AddressKey(cs[i]) in s.addresses; }
      }
      if AddressesLoad(s.templates, cs) {
        forall a | a in s.addresses ensures s.addresses[a].address == a && AddressOk(s.templates, s.addresses[a]) {
          var i :| 0 <= i < |cs| && AddressKey(cs[i]) == a;
        }
      }
    }
  }

  lemma FixedListLoadsMeansOk(s: StoreState, fs: seq<FixedAddress>)
    requires s.fixed == Index(fs, FixedName)
    ensures FixedListLoads(s.addresses, fs) <==> DistinctKeys(fs, FixedName) && FixedOk(s)
  {
    hide Blank;
    if DistinctKeys(fs, FixedName) {
      IndexReadsBack(fs, FixedName);
      if FixedOk(s) { FixedOkMeansLoads(s, fs); }
      if FixedListLoads(s.addresses, fs) { LoadedFixedAreOk(s, fs); }
    }
  }

  lemma FixedOkMeansLoads(s: StoreState, fs: seq<FixedAddress>)
    requires s.fixed == Index(fs, FixedName) && DistinctKeys(fs, FixedName) && FixedOk(s)
    ensures FixedListLoads(s.addresses, fs)
  {
    hide Blank;
    IndexReadsBack(fs, FixedName);
    forall i | 0 <= i < |fs| ensures FixedLoads(s.addresses, fs[i]) {
      assert FixedName(fs[i]) in s.fixed && FixedBacked(s, s.fixed[FixedName(fs[i])]);
    }
    forall i, j | 0 <= i < j < |fs| ensures FixedTarget(fs[i]) != FixedTarget(fs[j]) {
      assert FixedName(fs[i]) in s.fixed && FixedName(fs[j]) in s.fixed && FixedName(fs[i]) != FixedName(fs[j]);
    }
  }

  lemma LoadedFixedAreOk(s: StoreState, fs: seq<FixedAddress>)
    requires s.fixed == Index(fs, FixedName) && FixedListLoads(s.addresses, fs)
    ensures FixedOk(s)
  {
    hide Blank;
    IndexReadsBack(fs, FixedName);
    forall n | n in s.fixed ensures s.fixed[n].name == n && FixedBacked(s, s.fixed[n]) {
      var i :| 0 <= i < |fs| && FixedName(fs[i]) == n;
      assert FixedLoads(s.addresses, fs[i]);
    }
    forall m, n | m in s.fixed && n in s.fixed && s.fixed[m].address == s.fixed[n].address ensures m == n {
      var i :| 0 <= i < |fs| && FixedName(fs[i]) == m;
      var j :| 0 <= j < |fs| && FixedName(fs[j]) == n;
      assert FixedTarget(fs[i]) == FixedTarget(fs[j]);
    }
  }

  lemma PoolLoadsMeansOk(s: StoreState, p: Pool)
    ensures PoolLoads(s.templates, s.addresses, FixedTargets(s.fixed), p) <==> PoolShape(p) && PoolBacked(s, p)
  {
    hide PoolShape;
    forall a: Address ensures a in FixedTargets(s.fixed) <==> FixedUses(s.fixed, a) != {} {
      if a in FixedTargets(s.fixed) {
        var n :| n in s.fixed && s.fixed[n].address == a;
        assert n in FixedUses(s.fixed, a);
      }
      if FixedUses(s.fixed, a) != {} {
        var n :| n in FixedUses(s.fixed, a);
      }
    }
    hide FixedTargets, FixedUses, Held;
    assert forall a :: a in p.pinned <==> a in Elements(p.pinned);
  }

  lemma PoolListLoadsMeansOk(s: StoreState, ps: seq<Pool>, nextBatch: nat)
    requires s.pools == Index(ps, PoolName)
    ensures PoolListLoads(s.templates, s.addresses, FixedTargets(s.fixed), ps)
            && (forall i, b :: 0 <= i < |ps| && 0 <= b < |ps[i].draining| ==>
                                 SequenceOf(ps[i].draining[b].id) <= nextBatch)
       <==> DistinctKeys(ps, PoolName) && PoolsOk(s) && BatchesOk(s.pools, nextBatch)
  {
    if DistinctKeys(ps, PoolName) {
      IndexReadsBack(ps, PoolName);
      PoolsLoadMeansPoolsOk(s, ps);
      IdsLoadMeansBatchesOk(s.pools, ps, nextBatch);
    }
  }

  lemma PoolsLoadMeansPoolsOk(s: StoreState, ps: seq<Pool>)
    requires s.pools == Index(ps, PoolName) && DistinctKeys(ps, PoolName)
    ensures (forall i :: 0 <= i < |ps| ==> PoolLoads(s.templates, s.addresses, FixedTargets(s.fixed), ps[i])) <==>
              PoolsOk(s)
  {
    hide PoolLoads, PoolShape, PoolBacked, Index, FixedTargets;
    IndexReadsBack(ps, PoolName);
    forall i | 0 <= i < |ps|
      ensures PoolLoads(s.templates, s.addresses, FixedTargets(s.fixed), ps[i]) <==>
                PoolShape(ps[i]) && PoolBacked(s, ps[i])
    {
      PoolLoadsMeansOk(s, ps[i]);
    }
    if PoolsOk(s) {
      forall i | 0 <= i < |ps| ensures PoolShape(ps[i]) && PoolBacked(s, ps[i]) { assert PoolName(ps[i]) in s.pools; }
    }
    if forall i :: 0 <= i < |ps| ==> PoolLoads(s.templates, s.addresses, FixedTargets(s.fixed), ps[i]) {
      forall n | n in s.pools ensures s.pools[n].name == n && PoolShape(s.pools[n]) && PoolBacked(s, s.pools[n]) {
        var i :| 0 <= i < |ps| && PoolName(ps[i]) == n;
        assert s.pools[n] == ps[i];
      }
    }
  }

  lemma IdsLoadMeansBatchesOk(pools: map<Name, Pool>, ps: seq<Pool>, nextBatch: nat)
    requires pools == Index(ps, PoolName) && DistinctKeys(ps, PoolName)
    ensures IdsLoad(ps) && (forall i, b :: 0 <= i < |ps| && 0 <= b < |ps[i].draining| ==>
                                             SequenceOf(ps[i].draining[b].id) <= nextBatch)
       <==> BatchesOk(pools, nextBatch)
  {
    hide ParseDrainSequence;
    IndexReadsBack(ps, PoolName);
    if BatchesOk(pools, nextBatch) {
      forall i, b | 0 <= i < |ps| && 0 <= b < |ps[i].draining|
        ensures ParseDrainSequence(ps[i].draining[b].id).Some? && SequenceOf(ps[i].draining[b].id) <= nextBatch {
        assert PoolName(ps[i]) in pools && SequenceOk(pools[PoolName(ps[i])].draining[b].id, nextBatch);
      }
      forall i, j, b, c | 0 <= i < |ps| && 0 <= j < |ps| && 0 <= b < |ps[i].draining| && 0 <= c < |ps[j].draining|
                          && ps[i].draining[b].id == ps[j].draining[c].id ensures i == j && b == c {
        var m, n := PoolName(ps[i]), PoolName(ps[j]);
        assert m in pools && n in pools && pools[m].draining[b].id == pools[n].draining[c].id;
        assert m == n && b == c;
      }
    }
    if IdsLoad(ps) && forall i, b :: 0 <= i < |ps| && 0 <= b < |ps[i].draining| ==>
                                       SequenceOf(ps[i].draining[b].id) <= nextBatch {
      LoadedIdsAreOk(pools, ps, nextBatch);
    }
  }

  lemma LoadedIdsAreOk(pools: map<Name, Pool>, ps: seq<Pool>, nextBatch: nat)
    requires pools == Index(ps, PoolName) && DistinctKeys(ps, PoolName) && IdsLoad(ps)
    requires forall i, b :: 0 <= i < |ps| && 0 <= b < |ps[i].draining| ==> SequenceOf(ps[i].draining[b].id) <= nextBatch
    ensures BatchesOk(pools, nextBatch)
  {
    hide ParseDrainSequence;
    IndexReadsBack(ps, PoolName);
    forall n, b | n in pools && 0 <= b < |pools[n].draining| ensures SequenceOk(pools[n].draining[b].id, nextBatch) {
      var i :| 0 <= i < |ps| && PoolName(ps[i]) == n;
      assert pools[n] == ps[i] && SequenceOf(ps[i].draining[b].id) <= nextBatch;
    }
    forall m, n, b, c | m in pools && n in pools && 0 <= b < |pools[m].draining| && 0 <= c < |pools[n].draining|
                        && pools[m].draining[b].id == pools[n].draining[c].id ensures m == n && b == c {
      var i :| 0 <= i < |ps| && PoolName(ps[i]) == m;
      var j :| 0 <= j < |ps| && PoolName(ps[j]) == n;
      assert pools[m] == ps[i] && pools[n] == ps[j];
      assert ps[i].draining[b].id == ps[j].draining[c].id;
    }
  }

  /** The loader compares counts for table addresses only; no other address can have a user. */
  lemma OnlyTableAddressesAreCounted(s: StoreState)
    requires AddressesOk(s) && FixedOk(s) && PoolsOk(s)
    ensures ReferencesOk(s) <==> forall a :: a in s.addresses ==>
              s.addresses[a].references == ExpectedReferences(s.fixed, s.pools, a)
  {
    hide ExpectedReferences, PoolShape, Blank, Held, AddressOk, FixedUses;
    forall a: Address | a !in s.addresses ensures ExpectedReferences(s.fixed, s.pools, a) == 0 {
      UnbackedAddressIsUnused(s, a);
    }
    if forall a :: a in s.addresses ==> s.addresses[a].references == ExpectedReferences(s.fixed, s.pools, a) {
      forall a: Address ensures References(s.addresses, a) == ExpectedReferences(s.fixed, s.pools, a) {}
    }
    if ReferencesOk(s) {
      forall a | a in s.addresses ensures s.addresses[a].references == ExpectedReferences(s.fixed, s.pools, a) {
        assert References(s.addresses, a) == ExpectedReferences(s.fixed, s.pools, a);
      }
    }
  }

  lemma UnbackedAddressIsUnused(s: StoreState, a: Address)
    requires FixedOk(s) && PoolsOk(s) && a !in s.addresses
    ensures ExpectedReferences(s.fixed, s.pools, a) == 0
  {
    hide Blank, Distinct;
    forall n | n in s.fixed ensures s.fixed[n].address != a { assert FixedBacked(s, s.fixed[n]); }
    forall n | n in s.pools ensures a !in Held(s.pools[n]) && a !in s.pools[n].pinned {
      assert PoolBacked(s, s.pools[n]) && PoolShape(s.pools[n]);
      assert a !in Elements(s.pools[n].pinned);
    }
    assert FixedUses(s.fixed, a) == {} && PinnedUses(s.pools, a) == {};
    assert AutomaticUses(s.pools, a) == {} && DrainingUses(s.pools, a) == {};
  }
}
