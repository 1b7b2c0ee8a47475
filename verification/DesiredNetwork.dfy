/** From a store to the host: the resources a store asks the network manager for. */
module DesiredNetwork {
  import opened Orders
  import opened Names
  import opened Prefixes
  import opened DrainIds
  import opened StoreModel
  import opened StateDocument
  import H = Host
  import N = NetworkManager

  // ---- what a store asks for, read off the store itself ----

  ghost predicate Serves(s: StoreState, t: Name) {
    exists a :: a in s.addresses && s.addresses[a].template == t
  }

  /** Every allocated address of an address-mode template, on that template's interface. */
  ghost function NetworkAddresses(s: StoreState): set<H.AddressRef> {
    set a | a in s.addresses && s.addresses[a].template in s.templates
            && s.templates[s.addresses[a].template].mode == ModeAddress ::
      H.AddressRef(s.templates[s.addresses[a].template].iface, a)
  }

  /** The route of every route-mode template that has an allocated address. */
  ghost function NetworkRoutes(s: StoreState): set<H.RouteRef> {
    set t | t in s.templates && s.templates[t].mode == ModeLocalRouteFreebind && Serves(s, t) ::
      N.RouteOf(s.templates[t])
  }

  ghost predicate TemplatesKeyed(templates: map<Name, PrefixTemplate>) {
    forall n :: n in templates ==> templates[n].name == n
  }

  ghost predicate CursorsReady(templates: map<Name, PrefixTemplate>, cursors: map<Prefix, Address>) {
    forall p :: p in cursors ==> p.IsMasked() && p.Contains(cursors[p]) && KnownPrefix(templates, p)
  }

  ghost predicate UsedTemplatesCanonical(s: StoreState) {
    forall a :: a in s.addresses ==>
                  s.addresses[a].template in s.templates && Canonical(s.templates[s.addresses[a].template])
  }

  ghost predicate FixedKeyed(fixed: map<Name, FixedAddress>) { forall n :: n in fixed ==> fixed[n].name == n }

  ghost predicate PoolsKeyed(pools: map<Name, Pool>) { forall n :: n in pools ==> pools[n].name == n }

  /** All that the document and the network need from a store: valid stores have it, and so do
      stores whose only flaw is a name, a batch identifier or an unused template. */
  ghost predicate Servable(s: StoreState) {
    && s.nextBatch < UINT64_LIMIT
    && TemplatesKeyed(s.templates) && FixedKeyed(s.fixed) && PoolsKeyed(s.pools)
    && CursorsReady(s.templates, s.cursors)
    && AddressesOk(s)
    && UsedTemplatesCanonical(s)
  }

  lemma ValidIsServable(s: StoreState)
    requires Valid(s)
    ensures Servable(s)
  {
    hide Valid, AddressesOk, UsedTemplatesCanonical, KnownPrefix, Prefix.Contains, Prefix.IsMasked;
    KeysMatch(s);
    CursorsSurvive(s);
    ValidAddresses(s);
  }

  lemma ValidAddresses(s: StoreState)
    requires Valid(s)
    ensures s.nextBatch < UINT64_LIMIT && AddressesOk(s) && UsedTemplatesCanonical(s)
    ensures forall p :: p in s.cursors ==> KnownPrefix(s.templates, p) && p.Contains(s.cursors[p])
  {
    hide Canonical, PrefixesOverlap, FixedOk, PoolsOk, BatchesOk, ReferencesOk, KnownPrefix, Prefix.Contains;
    hide OwnershipForMode;
    forall a | a in s.addresses ensures s.addresses[a].template in s.templates {
      assert AddressOk(s.templates, s.addresses[a]);
    }
  }

  lemma KeysOf(s: StoreState)
    requires Valid(s)
    ensures FixedKeyed(s.fixed) && PoolsKeyed(s.pools)
    ensures CursorsOk(s.templates, s.cursors) && AddressesOk(s) && s.nextBatch < UINT64_LIMIT && FixedOk(s)
  {
    hide TemplatesOk, CursorsOk, AddressesOk, BatchesOk, ReferencesOk, PoolShape, PoolBacked, FixedBacked;
  }

  /** For servable stores, being valid is exactly being loadable after a save. */
  lemma LoadableMeansValid(s: StoreState)
    requires Servable(s)
    ensures Loaded(Saved(s)) == s && (Accepted(Saved(s)) <==> Valid(s))
  {
    TablesReadBack(s);
    CursorsReadBack(s.templates, s.cursors);
    hide Valid, Servable, Index, InOrder, NameList, SortedAddresses, NoRepeats, CursorKeysOk, KnownCursors;
  }

  lemma CursorsReadBack(templates: map<Name, PrefixTemplate>, cursors: map<Prefix, Address>)
    requires CursorsReady(templates, cursors)
    ensures CursorKeysOk(cursors) && KnownCursors(templates, cursors) == cursors
  {
    hide KnownPrefix, Prefix.IsMasked, Prefix.Contains;
  }

  lemma ServableKeysMatch(s: StoreState)
    requires Servable(s)
    ensures forall n :: n in s.templates ==> TemplateName(s.templates[n]) == n
    ensures forall n :: n in s.fixed ==> FixedName(s.fixed[n]) == n
    ensures forall a :: a in s.addresses ==> AddressKey(s.addresses[a]) == a
    ensures forall n :: n in s.pools ==> PoolName(s.pools[n]) == n
  {
    hide AddressOk, Canonical, Prefix.Contains, Prefix.IsMasked, KnownPrefix;
  }

  lemma TablesReadBack(s: StoreState)
    requires Servable(s)
    ensures var d := Saved(s);
      && Index(d.templates, TemplateName) == s.templates && Index(d.fixed, FixedName) == s.fixed
      && Index(d.addresses, AddressKey) == s.addresses && Index(d.pools, PoolName) == s.pools && NoRepeats(d)
  {
    NamesAreOrdered();
    AddressesAreOrdered();
    ServableKeysMatch(s);
    hide Servable, NameLess, Index, InOrder, Ascending, DistinctKeys, StrictTotalOrder, Lists;
    ListThenIndex(NameLess, NameList(s.templates), s.templates, TemplateName);
    ListThenIndex(NameLess, NameList(s.fixed), s.fixed, FixedName);
    ListThenIndex(AddressLess, SortedAddresses(s.addresses), s.addresses, AddressKey);
    ListThenIndex(NameLess, NameList(s.pools), s.pools, PoolName);
  }

  // ---- `desiredResources` ----

  /** The addresses listed for one template, in document order. */
  function AddressesOf(addresses: seq<CanonicalAddress>, template: Name): seq<Address> {
    if addresses == [] then []
    else
      var before, last := AddressesOf(addresses[..|addresses| - 1], template), addresses[|addresses| - 1];
      if last.template == template then before + [last.address] else before
  }

  lemma {:induction false} AddressesOfHolds(addresses: seq<CanonicalAddress>, template: Name)
    ensures forall a :: a in AddressesOf(addresses, template) <==>
              exists i :: 0 <= i < |addresses| && addresses[i].template == template && addresses[i].address == a
  {
    if addresses != [] {
      var before, last := addresses[..|addresses| - 1], |addresses| - 1;
      AddressesOfHolds(before, template);
      forall a
        ensures a in AddressesOf(addresses, template) <==>
                  exists i :: 0 <= i < |addresses| && addresses[i].template == template && addresses[i].address == a
      {
        if a in AddressesOf(before, template) {
          var i :| 0 <= i < |before| && before[i].template == template && before[i].address == a;
          assert addresses[i] == before[i];
        }
        if i :| 0 <= i < |addresses| && addresses[i].template == template && addresses[i].address == a {
          assert i < last ==> before[i] == addresses[i];
        }
      }
    }
  }

  function Desired(templates: seq<PrefixTemplate>, addresses: seq<CanonicalAddress>): seq<N.DesiredResource> {
    if templates == [] then []
    else
      var before, last := Desired(templates[..|templates| - 1], addresses), templates[|templates| - 1];
      var listed := AddressesOf(addresses, last.name);
      if listed == [] then before else before + [N.DesiredResource(last, listed)]
  }

  method DesiredResources(d: Document) returns (resources: seq<N.DesiredResource>)
    ensures resources == Desired(d.templates, d.addresses)
  {
    var byTemplate: map<Name, seq<Address>> := map[];
    for i := 0 to |d.addresses|
      invariant forall n :: n in byTemplate ==> byTemplate[n] == AddressesOf(d.addresses[..i], n)
      invariant forall n :: n !in byTemplate ==> AddressesOf(d.addresses[..i], n) == []
    {
      var address := d.addresses[i];
      assert d.addresses[..i + 1][..i] == d.addresses[..i] && d.addresses[..i + 1][i] == address;
      var listed := if address.template in byTemplate then byTemplate[address.template] else [];
      byTemplate := byTemplate[address.template := listed + [address.address]];
    }
    assert d.addresses[..|d.addresses|] == d.addresses;
    resources := [];
    for i := 0 to |d.templates|
      invariant resources == Desired(d.templates[..i], d.addresses)
    {
      var template := d.templates[i];
      assert d.templates[..i + 1][..i] == d.templates[..i] && d.templates[..i + 1][i] == template;
      if template.name !in byTemplate || byTemplate[template.name] == [] { continue; }
      resources := resources + [N.DesiredResource(template, byTemplate[template.name])];
    }
    assert d.templates[..|d.templates|] == d.templates;
  }

  /** Which resources the list holds. */
  lemma {:induction false} DesiredHolds(templates: seq<PrefixTemplate>, addresses: seq<CanonicalAddress>)
    ensures forall r :: r in Desired(templates, addresses) <==>
              r.template in templates && r.addresses == AddressesOf(addresses, r.template.name) && r.addresses != []
  {
    hide AddressesOf;
    if templates != [] {
      DesiredHolds(templates[..|templates| - 1], addresses);
      assert templates == templates[..|templates| - 1] + [templates[|templates| - 1]];
    }
  }

  ghost function DesiredOf(s: StoreState): seq<N.DesiredResource> {
    Desired(Saved(s).templates, Saved(s).addresses)
  }

  /** The resource the list holds for a template that has addresses. */
  ghost function ResourceOf(s: StoreState, t: PrefixTemplate): N.DesiredResource {
    N.DesiredResource(t, AddressesOf(Saved(s).addresses, t.name))
  }

  lemma ResourceIsListed(s: StoreState, r: N.DesiredResource)
    requires Servable(s)
    ensures r in DesiredOf(s) <==>
              && r.template.name in s.templates && s.templates[r.template.name] == r.template
              && r == ResourceOf(s, r.template) && r.addresses != []
  {
    DesiredHolds(Saved(s).templates, Saved(s).addresses);
    ListedTemplates(s);
    hide Servable, Saved, Desired, AddressesOf;
  }

  lemma AddressIsListed(s: StoreState, t: PrefixTemplate, a: Address)
    requires Servable(s)
    ensures a in ResourceOf(s, t).addresses <==> a in s.addresses && s.addresses[a].template == t.name
  {
    hide Canonical, Prefix.Contains, Prefix.IsMasked, AddressOk, Ascending, KnownPrefix;
    var addresses := Saved(s).addresses;
    var keys := SortedAddresses(s.addresses);
    AddressesOfHolds(addresses, t.name);
    if a in AddressesOf(addresses, t.name) {
      var i :| 0 <= i < |addresses| && addresses[i].template == t.name && addresses[i].address == a;
      assert keys[i] in keys;
    }
    if a in s.addresses && s.addresses[a].template == t.name {
      var i :| 0 <= i < |keys| && keys[i] == a;
      assert addresses[i] == s.addresses[a];
    }
  }

  /** One entry of the list: a template of the store with exactly its allocated addresses. */
  lemma Entry(s: StoreState, i: nat)
    requires Servable(s) && i < |DesiredOf(s)|
    ensures var r := DesiredOf(s)[i];
      && r.template.name in s.templates && s.templates[r.template.name] == r.template
      && r.addresses != []
      && forall a :: a in r.addresses <==> a in s.addresses && s.addresses[a].template == r.template.name
  {
    var r := DesiredOf(s)[i];
    ResourceIsListed(s, r);
    hide Servable, DesiredOf, ResourceOf;
    forall a ensures a in r.addresses <==> a in s.addresses && s.addresses[a].template == r.template.name {
      AddressIsListed(s, r.template, a);
    }
  }

  /** Every template with an allocated address has its entry. */
  lemma EntryFor(s: StoreState, a: Address) returns (i: nat)
    requires Servable(s) && a in s.addresses
    ensures s.addresses[a].template in s.templates
    ensures i < |DesiredOf(s)| && DesiredOf(s)[i].template == s.templates[s.addresses[a].template]
            && a in DesiredOf(s)[i].addresses
  {
    TemplateOfAddress(s, a);
    var t := s.templates[s.addresses[a].template];
    AddressIsListed(s, t, a);
    ResourceIsListed(s, ResourceOf(s, t));
    assert t.name == s.addresses[a].template;
    hide Servable, DesiredOf;
    i :| 0 <= i < |DesiredOf(s)| && DesiredOf(s)[i] == ResourceOf(s, t);
  }

  lemma ListedTemplates(s: StoreState)
    requires Servable(s)
    ensures forall t :: t in Saved(s).templates <==> t.name in s.templates && s.templates[t.name] == t
  {
    hide Canonical, Prefix.Contains, Prefix.IsMasked, AddressOk, Ascending, KnownPrefix, AddressesOk;
    var keys, list := NameList(s.templates), Saved(s).templates;
    forall t: PrefixTemplate | t.name in s.templates && s.templates[t.name] == t ensures t in list {
      var i :| 0 <= i < |keys| && keys[i] == t.name;
      assert list[i] == t;
    }
    forall t | t in list ensures t.name in s.templates && s.templates[t.name] == t {
      var i :| 0 <= i < |list| && list[i] == t;
      assert keys[i] in keys;
    }
  }

  lemma TemplateOfAddress(s: StoreState, a: Address)
    requires Servable(s) && a in s.addresses
    ensures s.addresses[a].template in s.templates
            && s.templates[s.addresses[a].template].name == s.addresses[a].template
    ensures var t := s.templates[s.addresses[a].template];
      t.prefix.Contains(a) && t.iface != "" && !Blank(t.iface) && ValidMode(t.mode)
  {
    var t := s.templates[s.addresses[a].template];
    assert AddressOk(s.templates, s.addresses[a]) && Canonical(t);
    CanonicalTemplates(t);
  }

  lemma CanonicalTemplates(t: PrefixTemplate)
    requires Canonical(t)
    ensures t.iface != "" && !Blank(t.iface) && ValidMode(t.mode)
  {
  }

  /** The list asks for exactly the network of the store and is always well formed. */
  lemma DesiredIsTheNetwork(s: StoreState)
    requires Servable(s)
    ensures N.WellFormed(DesiredOf(s))
    ensures N.DesiredAddresses(DesiredOf(s)) == NetworkAddresses(s)
    ensures N.DesiredRoutes(DesiredOf(s)) == NetworkRoutes(s)
  {
    hide Servable, DesiredOf, Prefix.Contains, ValidMode, Blank, N.RouteOf;
    var d := DesiredOf(s);
    forall i | 0 <= i < |d| ensures N.RefsDefined(d[i].template, d[i].addresses) && ValidMode(d[i].template.mode) {
      EntryIsDefined(s, i);
    }
    DesiredAddressesAre(s);
    DesiredRoutesAre(s);
  }

  lemma EntryIsDefined(s: StoreState, i: nat)
    requires Servable(s) && i < |DesiredOf(s)|
    ensures var r := DesiredOf(s)[i];
      N.RefsDefined(r.template, r.addresses) && ValidMode(r.template.mode) && !Blank(r.template.iface)
  {
    Entry(s, i);
    var r := DesiredOf(s)[i];
    hide Servable, DesiredOf, Prefix.Contains, ValidMode, Blank;
    TemplateOfAddress(s, r.addresses[0]);
    forall a | a in r.addresses ensures r.template.prefix.Contains(a) {
      TemplateOfAddress(s, a);
    }
  }

  lemma DesiredAddressesAre(s: StoreState)
    requires Servable(s)
    ensures N.DesiredAddresses(DesiredOf(s)) == NetworkAddresses(s)
  {
    hide Servable, DesiredOf;
    var d := DesiredOf(s);
    forall r | r in N.DesiredAddresses(d) ensures r in NetworkAddresses(s) {
      var i, a :| 0 <= i < |d| && d[i].template.mode == ModeAddress && a in d[i].addresses
                  && r == H.AddressRef(d[i].template.iface, a);
      Entry(s, i);
    }
    forall r | r in NetworkAddresses(s) ensures r in N.DesiredAddresses(d) {
      var a :| a in s.addresses && s.addresses[a].template in s.templates
               && s.templates[s.addresses[a].template].mode == ModeAddress
               && r == H.AddressRef(s.templates[s.addresses[a].template].iface, a);
      var i := EntryFor(s, a);
    }
  }

  lemma DesiredRoutesAre(s: StoreState)
    requires Servable(s)
    ensures N.DesiredRoutes(DesiredOf(s)) == NetworkRoutes(s)
  {
    hide Servable, DesiredOf, N.RouteOf;
    var d := DesiredOf(s);
    forall r | r in N.DesiredRoutes(d) ensures r in NetworkRoutes(s) {
      var i :| 0 <= i < |d| && d[i].template.mode == ModeLocalRouteFreebind && r == N.RouteOf(d[i].template);
      Entry(s, i);
      assert d[i].addresses[0] in d[i].addresses;
      assert Serves(s, d[i].template.name);
    }
    forall r | r in NetworkRoutes(s) ensures r in N.DesiredRoutes(d) {
      var n :| n in s.templates && s.templates[n].mode == ModeLocalRouteFreebind && Serves(s, n)
               && r == N.RouteOf(s.templates[n]);
      var a :| a in s.addresses && s.addresses[a].template == n;
      var i := EntryFor(s, a);
    }
  }

  // ---- what its ownership means for an address ----

  /** The host is asked to carry the address itself. */
  ghost predicate Carried(s: StoreState, a: Address) {
    exists iface :: H.AddressRef(iface, a) in NetworkAddresses(s)
  }

  /** The host is asked for a route that covers the address. */
  ghost predicate Routed(s: StoreState, a: Address) {
    exists r :: r in NetworkRoutes(s) && r.prefix.Contains(a)
  }

  /** The ownership of an allocated address is what is asked of the host for it: to carry it, to route
      its prefix, or neither. */
  lemma OwnershipIsTheRequest(s: StoreState, a: Address)
    requires Valid(s) && a in s.addresses
    ensures s.addresses[a].ownership == OwnershipAddress <==> Carried(s, a)
    ensures s.addresses[a].ownership == OwnershipRoute <==> Routed(s, a)
    ensures s.addresses[a].ownership == OwnershipExternal <==> !Carried(s, a) && !Routed(s, a)
  {
    hide Valid, Carried, Routed, Prefix.Contains;
    OwnTemplate(s, a);
    CarriedMeansAddressMode(s, a);
    RoutedMeansRouteMode(s, a);
  }

  lemma OwnTemplate(s: StoreState, a: Address)
    requires Valid(s) && a in s.addresses
    ensures s.addresses[a].template in s.templates
    ensures var t := s.templates[s.addresses[a].template];
      t.prefix.Contains(a) && ValidMode(t.mode) && s.addresses[a].ownership == OwnershipForMode(t.mode)
  {
    hide PrefixesOverlap, Prefix.Contains, FixedOk, PoolsOk, BatchesOk, ReferencesOk, CursorsOk;
    assert AddressOk(s.templates, s.addresses[a]);
    CanonicalTemplates(s.templates[s.addresses[a].template]);
  }

  lemma CarriedMeansAddressMode(s: StoreState, a: Address)
    requires a in s.addresses && s.addresses[a].template in s.templates
    ensures Carried(s, a) <==> s.templates[s.addresses[a].template].mode == ModeAddress
  {
    var t := s.templates[s.addresses[a].template];
    if t.mode == ModeAddress { assert H.AddressRef(t.iface, a) in NetworkAddresses(s); }
  }

  lemma SoleTemplate(s: StoreState, a: Address, m: Name, n: Name)
    requires Valid(s) && m in s.templates && n in s.templates
    requires s.templates[m].prefix.Contains(a) && s.templates[n].prefix.Contains(a)
    ensures m == n
  {
    hide PrefixesOverlap, Prefix.Contains, Canonical, AddressesOk, FixedOk, PoolsOk, BatchesOk, ReferencesOk, CursorsOk;
    OverlapMeansSharedAddress(s.templates[m].prefix, s.templates[n].prefix);
  }

  lemma RouteCovers(t: PrefixTemplate, a: Address)
    ensures N.RouteOf(t).prefix.Contains(a) <==> t.prefix.Contains(a)
  {
    MaskedKeepsTheRange(t.prefix);
  }

  lemma RoutedMeansRouteMode(s: StoreState, a: Address)
    requires Valid(s) && a in s.addresses && s.addresses[a].template in s.templates
    requires s.templates[s.addresses[a].template].prefix.Contains(a)
    ensures Routed(s, a) <==> s.templates[s.addresses[a].template].mode == ModeLocalRouteFreebind
  {
    hide Valid, Prefix.Contains, N.RouteOf;
    var n := s.addresses[a].template;
    var t := s.templates[n];
    RouteCovers(t, a);
    if t.mode == ModeLocalRouteFreebind {
      assert Serves(s, n);
      assert N.RouteOf(t) in NetworkRoutes(s);
    }
    if Routed(s, a) {
      var r :| r in NetworkRoutes(s) && r.prefix.Contains(a);
      var m :| m in s.templates && s.templates[m].mode == ModeLocalRouteFreebind && r == N.RouteOf(s.templates[m]);
      RouteCovers(s.templates[m], a);
      SoleTemplate(s, a, m, n);
    }
  }

  /** Nothing foreign is in the way of the store's network. */
  ghost predicate Unobstructed(h: H.HostState, s: StoreState) {
    NetworkAddresses(s) !! N.ForeignAddresses(h) && NetworkRoutes(s) !! N.ForeignRoutes(h)
  }

  lemma AppliableMeansUnobstructed(h: H.HostState, s: StoreState)
    requires Servable(s)
    ensures N.AllAppliable(h, DesiredOf(s)) <==> Unobstructed(h, s)
  {
    DesiredIsTheNetwork(s);
    hide Servable, DesiredOf, NetworkAddresses, NetworkRoutes, N.RouteOf, N.WellFormed, N.DesiredAddresses;
    hide N.DesiredRoutes, Blank, N.ForeignAddresses, N.ForeignRoutes;
    var d := DesiredOf(s);
    if N.AllAppliable(h, d) { AppliableListIsUnobstructed(h, d); }
    if Unobstructed(h, s) {
      hide N.Appliable;
      forall i | 0 <= i < |d| ensures N.Appliable(h, d[i].template, d[i].addresses) {
        EntryIsAppliable(h, s, i);
      }
    }
  }

  lemma AppliableListIsUnobstructed(h: H.HostState, d: seq<N.DesiredResource>)
    requires N.AllAppliable(h, d)
    ensures N.DesiredAddresses(d) !! N.ForeignAddresses(h) && N.DesiredRoutes(d) !! N.ForeignRoutes(h)
  {
    hide N.RefsDefined, N.RouteOf, Blank, N.ForeignAddresses, N.ForeignRoutes;
    forall r | r in N.DesiredAddresses(d) ensures r !in N.ForeignAddresses(h) {
      var i, a :| 0 <= i < |d| && d[i].template.mode == ModeAddress && a in d[i].addresses
                  && r == H.AddressRef(d[i].template.iface, a);
      assert N.Appliable(h, d[i].template, d[i].addresses) && r in N.RefSet(d[i].template, d[i].addresses);
    }
    forall r | r in N.DesiredRoutes(d) ensures r !in N.ForeignRoutes(h) {
      var i :| 0 <= i < |d| && d[i].template.mode == ModeLocalRouteFreebind && r == N.RouteOf(d[i].template);
      assert N.Appliable(h, d[i].template, d[i].addresses);
    }
  }

  lemma EntryIsAppliable(h: H.HostState, s: StoreState, i: nat)
    requires Servable(s) && i < |DesiredOf(s)| && Unobstructed(h, s)
    ensures N.Appliable(h, DesiredOf(s)[i].template, DesiredOf(s)[i].addresses)
  {
    DesiredAddressesAre(s);
    DesiredRoutesAre(s);
    EntryIsDefined(s, i);
    N.DesiredStep(DesiredOf(s), i);
    hide Servable, DesiredOf, NetworkAddresses, NetworkRoutes, N.DesiredAddresses, N.DesiredRoutes, N.RouteOf;
    hide N.RefsDefined, N.RefSet, Blank, N.ForeignAddresses, N.ForeignRoutes;
  }
}
