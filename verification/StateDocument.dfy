/** The saved form of the store: writing it out sorted, and the loader that rebuilds and
    checks a store. The loader accepts exactly the documents that denote a valid store. */
module StateDocument {
  import opened Orders
  import opened Names
  import opened Prefixes
  import opened StoreModel
  import Store

  datatype Document = Document(
    templates: seq<PrefixTemplate>,
    fixed: seq<FixedAddress>,
    addresses: seq<CanonicalAddress>,
    pools: seq<Pool>,
    nextBatch: nat,
    nextAddresses: map<Prefix, Address>)

  // ---- documents as values ----

  /** The table whose entries are the elements of `s`, each under its key. */
  function Index<K(==), V>(s: seq<V>, key: V -> K): map<K, V> {
    if s == [] then map[] else Index(s[..|s| - 1], key)[key(s[|s| - 1]) := s[|s| - 1]]
  }

  ghost predicate DistinctKeys<K(!new), V(!new)>(s: seq<V>, key: V -> K) {
    forall i, j :: 0 <= i < j < |s| ==> key(s[i]) != key(s[j])
  }

  function TemplateName(t: PrefixTemplate): Name { t.name }
  function FixedName(f: FixedAddress): Name { f.name }
  function AddressKey(c: CanonicalAddress): Address { c.address }
  function PoolName(p: Pool): Name { p.name }

  ghost predicate NoRepeats(d: Document) {
    && DistinctKeys(d.templates, TemplateName) && DistinctKeys(d.fixed, FixedName)
    && DistinctKeys(d.addresses, AddressKey) && DistinctKeys(d.pools, PoolName)
  }

  /** Every walk position is keyed by a canonical prefix that contains it. */
  ghost predicate CursorKeysOk(cursors: map<Prefix, Address>) {
    forall p :: p in cursors ==> p.IsMasked() && p.Contains(cursors[p])
  }

  /** Walk positions of prefixes without a template are dropped on load. */
  ghost function KnownCursors(templates: map<Name, PrefixTemplate>,
                              cursors: map<Prefix, Address>): map<Prefix, Address> {
    map p | p in cursors && KnownPrefix(templates, p) :: cursors[p]
  }

  /** The store a document denotes. */
  ghost function Loaded(d: Document): StoreState {
    var templates := Index(d.templates, TemplateName);
    StoreState(templates, Index(d.fixed, FixedName), Index(d.addresses, AddressKey), Index(d.pools, PoolName),
               d.nextBatch, KnownCursors(templates, d.nextAddresses))
  }

  ghost predicate Accepted(d: Document) {
    NoRepeats(d) && CursorKeysOk(d.nextAddresses) && Valid(Loaded(d))
  }

  ghost function InOrder<K(!new), V>(keys: seq<K>, m: map<K, V>): (s: seq<V>)
    requires forall k :: k in keys ==> k in m
    ensures |s| == |keys| && forall i :: 0 <= i < |s| ==> s[i] == m[keys[i]]
  {
    seq(|keys|, i requires 0 <= i < |keys| => m[keys[i]])
  }

  predicate AddressLess(a: Address, b: Address) { a < b }

  ghost function NameList<V>(m: map<Name, V>): (s: seq<Name>)
    ensures Ascending(NameLess, s) && Lists(s, m.Keys)
  {
    NamesAreOrdered();
    SortedKeys(NameLess, m.Keys)
  }

  ghost function SortedAddresses<V>(m: map<Address, V>): (s: seq<Address>)
    ensures Ascending(AddressLess, s) && Lists(s, m.Keys)
  {
    SortedKeys(AddressLess, m.Keys)
  }

  /** The document written for a store: every list sorted by its key. */
  ghost function Saved(s: StoreState): Document {
    Document(InOrder(NameList(s.templates), s.templates), InOrder(NameList(s.fixed), s.fixed),
             InOrder(SortedAddresses(s.addresses), s.addresses), InOrder(NameList(s.pools), s.pools),
             s.nextBatch, s.cursors)
  }

  // ---- saving ----

  method SortedNames<V>(m: map<Name, V>) returns (keys: seq<Name>)
    ensures keys == NameList(m)
  {
    NamesAreOrdered();
    keys := Sort(NameLess, m.Keys);
  }

  method Collect<K(==, !new), V>(keys: seq<K>, m: map<K, V>) returns (values: seq<V>)
    requires forall k :: k in keys ==> k in m
    ensures values == InOrder(keys, m)
  {
    values := [];
    for i := 0 to |keys|
      invariant |values| == i && forall j :: 0 <= j < i ==> values[j] == m[keys[j]]
    {
      values := values + [m[keys[i]]];
    }
  }

  /** `Store.State`. */
  method State(store: Store.Store) returns (d: Document)
    ensures d == Saved(store.View())
  {
    var templateNames := SortedNames(store.templates);
    var templates := Collect(templateNames, store.templates);
    var fixedNames := SortedNames(store.fixed);
    var fixed := Collect(fixedNames, store.fixed);
    var addressKeys := Sort(AddressLess, store.addresses.Keys);
    var addresses := Collect(addressKeys, store.addresses);
    var poolNames := SortedNames(store.pools);
    var pools := Collect(poolNames, store.pools);
    d := Document(templates, fixed, addresses, pools, store.nextBatch, store.nextAddresses);
  }

  // ---- the round trip ----

  lemma {:induction false} IndexReadsBack<K(!new), V(!new)>(s: seq<V>, key: V -> K)
    requires DistinctKeys(s, key)
    ensures forall i :: 0 <= i < |s| ==> key(s[i]) in Index(s, key) && Index(s, key)[key(s[i])] == s[i]
    ensures forall k :: k in Index(s, key) ==> exists i :: 0 <= i < |s| && key(s[i]) == k
  {
    if s != [] {
      var before, last := s[..|s| - 1], s[|s| - 1];
      IndexReadsBack(before, key);
      forall i | 0 <= i < |s| ensures key(s[i]) in Index(s, key) && Index(s, key)[key(s[i])] == s[i] {
        if i < |s| - 1 { assert before[i] == s[i]; }
      }
      forall k | k in Index(s, key) ensures exists i :: 0 <= i < |s| && key(s[i]) == k {
        if k != key(last) {
          assert k in Index(before, key);
          var i :| 0 <= i < |before| && key(before[i]) == k;
          assert key(s[i]) == k;
        } else {
          assert key(s[|s| - 1]) == k;
        }
      }
    }
  }

  /** Element `i` is new to the table of the elements before it, and is what the whole table holds. */
  lemma IndexStep<K(!new), V(!new)>(s: seq<V>, key: V -> K, i: nat)
    requires i < |s| && DistinctKeys(s, key)
    ensures Index(s[..i + 1], key) == Index(s[..i], key)[key(s[i]) := s[i]]
    ensures key(s[i]) !in Index(s[..i], key)
    ensures key(s[i]) in Index(s, key) && Index(s, key)[key(s[i])] == s[i]
  {
    hide Index;
    IndexReadsBack(s, key);
    IndexUnfolds(s, key, i);
    var before := s[..i];
    forall j, k | 0 <= j < k < |before| ensures key(before[j]) != key(before[k]) {
      assert before[j] == s[j] && before[k] == s[k];
    }
    IndexReadsBack(before, key);
    forall k | k in Index(before, key) ensures k != key(s[i]) {
      var j :| 0 <= j < |before| && key(before[j]) == k;
      assert before[j] == s[j];
    }
  }

  lemma NoEntries<K, V>(s: seq<V>, key: V -> K)
    ensures Index(s[..0], key) == map[]
  {
  }

  lemma IndexUnfolds<K, V>(s: seq<V>, key: V -> K, i: nat)
    requires i < |s|
    ensures Index(s[..i + 1], key) == Index(s[..i], key)[key(s[i]) := s[i]]
  {
    assert s[..i + 1][..i] == s[..i] && s[..i + 1][i] == s[i];
  }

  /** Listing a table in key order and indexing the list gives the table back. */
  lemma ListThenIndex<K(!new), V(!new)>(less: (K, K) -> bool, keys: seq<K>, m: map<K, V>, key: V -> K)
    requires StrictTotalOrder(less) && Ascending(less, keys) && Lists(keys, m.Keys)
    requires forall k :: k in m ==> key(m[k]) == k
    ensures DistinctKeys(InOrder(keys, m), key) && Index(InOrder(keys, m), key) == m
  {
    var s := InOrder(keys, m);
    forall i | 0 <= i < |s| ensures key(s[i]) == keys[i] {}
    assert DistinctKeys(s, key);
    IndexReadsBack(s, key);
    forall k | k in m ensures k in Index(s, key) && Index(s, key)[k] == m[k] {
      var i :| 0 <= i < |keys| && keys[i] == k;
      assert s[i] == m[k];
    }
    assert forall k :: k in Index(s, key) ==> k in m;
  }

  lemma AddressesAreOrdered()
    ensures StrictTotalOrder(AddressLess)
  {
  }

  /** What is saved for a valid store is accepted and denotes that store again. */
  lemma SaveThenLoad(s: StoreState)
    requires Valid(s)
    ensures Accepted(Saved(s)) && Loaded(Saved(s)) == s
  {
    NamesAreOrdered();
    AddressesAreOrdered();
    KeysMatch(s);
    hide Valid, NameLess;
    ListThenIndex(NameLess, NameList(s.templates), s.templates, TemplateName);
    ListThenIndex(NameLess, NameList(s.fixed), s.fixed, FixedName);
    ListThenIndex(AddressLess, SortedAddresses(s.addresses), s.addresses, AddressKey);
    ListThenIndex(NameLess, NameList(s.pools), s.pools, PoolName);
    CursorsSurvive(s);
  }

  lemma KeysMatch(s: StoreState)
    requires Valid(s)
    ensures forall n :: n in s.templates ==> TemplateName(s.templates[n]) == n
    ensures forall n :: n in s.fixed ==> FixedName(s.fixed[n]) == n
    ensures forall a :: a in s.addresses ==> AddressKey(s.addresses[a]) == a
    ensures forall n :: n in s.pools ==> PoolName(s.pools[n]) == n
  {
    hide Canonical, PrefixesOverlap, PoolShape, PoolBacked, FixedBacked, AddressOk, BatchesOk, ReferencesOk, CursorsOk;
  }

  lemma CursorsSurvive(s: StoreState)
    requires Valid(s)
    ensures CursorKeysOk(s.cursors) && KnownCursors(s.templates, s.cursors) == s.cursors
  {
    hide AddressesOk, FixedOk, PoolsOk, BatchesOk, ReferencesOk, Canonical, PrefixesOverlap, Prefix.Contains;
    forall p | p in s.cursors ensures p.IsMasked() {
      var n :| n in s.templates && s.templates[n].prefix == p;
      CanonicalIsMasked(s.templates[n]);
    }
  }

  lemma CanonicalIsMasked(t: PrefixTemplate)
    requires Canonical(t)
    ensures t.prefix.IsMasked()
  {
  }

  /** Loading and saving again changes nothing any more: the first save is already the sorted form. */
  lemma SavedDocumentIsStable(d: Document)
    requires Accepted(d)
    ensures Accepted(Saved(Loaded(d))) && Saved(Loaded(Saved(Loaded(d)))) == Saved(Loaded(d))
  {
    SaveThenLoad(Loaded(d));
  }
}
