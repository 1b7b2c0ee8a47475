/** The resource part of an agent document and the two checks made before it is applied with prune. */
module AgentDocument {
  import opened Wrappers
  import opened FiniteSets
  import opened Names
  import opened Prefixes
  import opened Walk
  import opened StoreModel

  datatype TemplateItem = TemplateItem(name: Name, prefix: Prefix, iface: string, mode: ConfigMode)

  /** Without an address one is drawn on creation. */
  datatype FixedItem = FixedItem(name: Name, template: Name, address: Option<Address>)

  datatype PoolItem = PoolItem(name: Name, kind: PoolKind, template: Name, capacity: Option<int>, pinned: seq<Name>)

  datatype Resources = Resources(templates: seq<TemplateItem>, fixed: seq<FixedItem>, pools: seq<PoolItem>)

  /** Pool sizes used when an item names none. */
  datatype Sizes = Sizes(inbound: int, sharedOutbound: int, dedicatedOutbound: int)

  datatype Complaint =
    | TemplateRequired(name: Name) | PinnedRequired(name: Name)
    | DuplicateItem(name: Name) | InvalidItem(name: Name) | DiffersFromExisting(name: Name) | StateNotComparable

  function PoolCapacity(item: PoolItem, sizes: Sizes): int {
    if item.capacity.Some? then item.capacity.value
    else match item.kind
      case PoolInbound => sizes.inbound
      case PoolSharedOutbound => sizes.sharedOutbound
      case _ => sizes.dedicatedOutbound
  }

  /** The size an item asks for: its own, or else the configured one of its kind. */
  ghost predicate HasSize(item: PoolItem, sizes: Sizes, capacity: int) {
    && (item.capacity.Some? ==> capacity == item.capacity.value)
    && (item.capacity.None? && item.kind == PoolInbound ==> capacity == sizes.inbound)
    && (item.capacity.None? && item.kind == PoolSharedOutbound ==> capacity == sizes.sharedOutbound)
    && (item.capacity.None? && item.kind == PoolDedicatedOutbound ==> capacity == sizes.dedicatedOutbound)
  }

  lemma CapacityIsTheSize(item: PoolItem, sizes: Sizes, capacity: int)
    requires ValidPoolKind(item.kind)
    ensures HasSize(item, sizes, capacity) <==> capacity == PoolCapacity(item, sizes)
  {
  }

  ghost function TemplateNames(items: seq<TemplateItem>): (r: seq<Name>)
    ensures |r| == |items| && forall i :: 0 <= i < |r| ==> r[i] == items[i].name
  { seq(|items|, i requires 0 <= i < |items| => items[i].name) }

  ghost function FixedNames(items: seq<FixedItem>): (r: seq<Name>)
    ensures |r| == |items| && forall i :: 0 <= i < |r| ==> r[i] == items[i].name
  { seq(|items|, i requires 0 <= i < |items| => items[i].name) }

  ghost function PoolNames(items: seq<PoolItem>): (r: seq<Name>)
    ensures |r| == |items| && forall i :: 0 <= i < |r| ==> r[i] == items[i].name
  { seq(|items|, i requires 0 <= i < |items| => items[i].name) }

  ghost predicate ListsTemplate(input: Resources, n: Name) {
    exists i :: 0 <= i < |input.templates| && input.templates[i].name == n
  }
  ghost predicate ListsFixed(input: Resources, n: Name) {
    exists i :: 0 <= i < |input.fixed| && input.fixed[i].name == n
  }
  ghost predicate ListsPool(input: Resources, n: Name) {
    exists i :: 0 <= i < |input.pools| && input.pools[i].name == n
  }

  // ---- first check: the document is closed ----

  /** Whatever a listed resource needs is listed too. */
  ghost predicate Closed(input: Resources) {
    && (forall i :: 0 <= i < |input.fixed| ==> ListsTemplate(input, input.fixed[i].template))
    && (forall i :: 0 <= i < |input.pools| ==> ListsTemplate(input, input.pools[i].template))
    && (forall i, j :: 0 <= i < |input.pools| && 0 <= j < |input.pools[i].pinned| ==>
                         ListsFixed(input, input.pools[i].pinned[j]))
  }

  method PreflightPrunedDependencies(input: Resources) returns (r: Option<Complaint>)
    ensures r.None? <==> Closed(input)
  {
    var templates: set<Name> := {};
    for i := 0 to |input.templates|
      invariant templates == set k | 0 <= k < i :: input.templates[k].name
    {
      templates := templates + {input.templates[i].name};
    }
    assert forall n :: n in templates <==> ListsTemplate(input, n);
    var fixed: set<Name> := {};
    for i := 0 to |input.fixed|
      invariant fixed == set k | 0 <= k < i :: input.fixed[k].name
      invariant forall k :: 0 <= k < i ==> ListsTemplate(input, input.fixed[k].template)
    {
      if input.fixed[i].template !in templates { return Some(TemplateRequired(input.fixed[i].name)); }
      fixed := fixed + {input.fixed[i].name};
    }
    assert forall n :: n in fixed <==> ListsFixed(input, n);
    hide ListsTemplate, ListsFixed;
    for i := 0 to |input.pools|
      invariant forall k :: 0 <= k < i ==> ListsTemplate(input, input.pools[k].template)
      invariant forall k, j :: 0 <= k < i && 0 <= j < |input.pools[k].pinned| ==>
                ListsFixed(input, input.pools[k].pinned[j])
    {
      var item := input.pools[i];
      if item.template !in templates { return Some(TemplateRequired(item.name)); }
      for j := 0 to |item.pinned|
        invariant forall k :: 0 <= k < j ==> ListsFixed(input, item.pinned[k])
      {
        if item.pinned[j] !in fixed { return Some(PinnedRequired(item.name)); }
      }
    }
    return None;
  }

  // ---- second check: the document agrees with the current state ----

  function Constructed(item: TemplateItem): Result<PrefixTemplate, TemplateError> {
    NewPrefixTemplate(item.name, item.prefix, item.iface, item.mode)
  }

  /** Names do not repeat, every item can be constructed, and same names mean same definitions. */
  ghost predicate TemplatesAgree(items: seq<TemplateItem>, current: map<Name, PrefixTemplate>) {
    && Distinct(TemplateNames(items))
    && (forall i :: 0 <= i < |items| ==> Constructed(items[i]).Ok?)
    && (forall i :: 0 <= i < |items| && Constructed(items[i]).value.name in current ==>
          current[Constructed(items[i]).value.name] == Constructed(items[i]).value)
    && (forall i, j :: 0 <= i < j < |items| && Constructed(items[i]).value.name == Constructed(items[j]).value.name ==>
          Constructed(items[i]) == Constructed(items[j]))
  }

  /** The table once every item has joined it. */
  ghost function TemplatesAfter(items: seq<TemplateItem>,
                                current: map<Name, PrefixTemplate>): map<Name, PrefixTemplate> {
    if items == [] then current
    else
      var before, last := TemplatesAfter(items[..|items| - 1], current), Constructed(items[|items| - 1]);
      if last.Ok? then before[last.value.name := last.value] else before
  }

  method PreflightTemplates(items: seq<TemplateItem>, current: map<Name, PrefixTemplate>)
    returns (r: Option<Complaint>, templates: map<Name, PrefixTemplate>)
    ensures r.None? <==> TemplatesAgree(items, current)
    ensures r.None? ==> templates == TemplatesAfter(items, current)
  {
    hide Constructed, TemplatesAgree, Distinct, Elements, Collected;
    templates := current;
    var seen: set<Name> := {};
    ghost var names := TemplateNames(items);
    ghost var origin: map<Name, nat> := map[];
    NoElements(names[..0]);
    NothingRepeats(names[..0]);
    NoneCollected(items, current);
    for i := 0 to |items|
      invariant seen == Elements(names[..i]) && Distinct(names[..i])
      invariant Collected(items, i, current, templates, origin) && templates == TemplatesAfter(items[..i], current)
    {
      assert items[..i + 1][..i] == items[..i] && items[..i + 1][i] == items[i];
      var item := items[i];
      if item.name in seen {
        Repeats(names, i);
        RepeatedDisagree(items, current);
        return Some(DuplicateItem(item.name)), templates;
      }
      OneMoreDistinct(names, i);
      seen := seen + {item.name};
      var candidate := Constructed(item);
      if candidate.Err? {
        DisagreeingTemplates(items, current, i, i);
        return Some(InvalidItem(item.name)), templates;
      }
      var t := candidate.value;
      if t.name in templates && templates[t.name] != t {
        Conflict(items, i, current, templates, origin);
        return Some(DiffersFromExisting(t.name)), templates;
      }
      Collect(items, i, current, templates, origin);
      templates := templates[t.name := t];
      origin := origin[t.name := i];
    }
    assert names[..|items|] == names && items[..|items|] == items;
    AllCollected(items, current, templates, origin);
    AgreeingTemplates(items, current, templates);
    return None, templates;
  }

  /** The table after the first `i` items; `origin` says which item a new entry came from. */
  ghost predicate Collected(items: seq<TemplateItem>, i: nat, current: map<Name, PrefixTemplate>,
                            templates: map<Name, PrefixTemplate>, origin: map<Name, nat>)
    requires i <= |items|
  {
    && templates.Keys == current.Keys + origin.Keys
    && (forall n :: n in current ==> templates[n] == current[n])
    && (forall n :: n in origin ==>
                      origin[n] < i && Constructed(items[origin[n]]) == Ok(templates[n]) && templates[n].name == n)
    && (forall k :: 0 <= k < i ==>
          Constructed(items[k]).Ok? && Constructed(items[k]).value.name in templates
          && templates[Constructed(items[k]).value.name] == Constructed(items[k]).value)
  }

  lemma NoneCollected(items: seq<TemplateItem>, current: map<Name, PrefixTemplate>)
    ensures Collected(items, 0, current, current, map[])
  {
  }

  lemma Collect(items: seq<TemplateItem>, i: nat, current: map<Name, PrefixTemplate>,
                templates: map<Name, PrefixTemplate>, origin: map<Name, nat>)
    requires i < |items| && Collected(items, i, current, templates, origin) && Constructed(items[i]).Ok?
    requires var t := Constructed(items[i]).value; t.name in templates ==> templates[t.name] == t
    ensures var t := Constructed(items[i]).value;
      Collected(items, i + 1, current, templates[t.name := t], origin[t.name := i])
  {
    hide Constructed;
  }

  lemma Conflict(items: seq<TemplateItem>, i: nat, current: map<Name, PrefixTemplate>,
                 templates: map<Name, PrefixTemplate>, origin: map<Name, nat>)
    requires i < |items| && Collected(items, i, current, templates, origin) && Constructed(items[i]).Ok?
    requires var t := Constructed(items[i]).value; t.name in templates && templates[t.name] != t
    ensures !TemplatesAgree(items, current)
  {
    hide Constructed, TemplatesAgree;
    var t := Constructed(items[i]).value;
    DisagreeingTemplates(items, current, if t.name in current then i else origin[t.name], i);
  }

  lemma AllCollected(items: seq<TemplateItem>, current: map<Name, PrefixTemplate>,
                     templates: map<Name, PrefixTemplate>, origin: map<Name, nat>)
    requires Collected(items, |items|, current, templates, origin)
    ensures forall n :: n in current ==> n in templates && templates[n] == current[n]
    ensures forall i :: 0 <= i < |items| ==>
              Constructed(items[i]).Ok? && Constructed(items[i]).value.name in templates
              && templates[Constructed(items[i]).value.name] == Constructed(items[i]).value
  {
    hide Constructed;
  }

  lemma DisagreeingTemplates(items: seq<TemplateItem>, current: map<Name, PrefixTemplate>, k: nat, i: nat)
    requires k <= i < |items|
    requires k < i ==>
               && Constructed(items[k]).Ok? && Constructed(items[i]).Ok?
               && Constructed(items[k]).value.name == Constructed(items[i]).value.name
               && Constructed(items[k]) != Constructed(items[i])
    requires k == i ==>
               || Constructed(items[i]).Err?
               || (Constructed(items[i]).value.name in current
                   && current[Constructed(items[i]).value.name] != Constructed(items[i]).value)
    ensures !TemplatesAgree(items, current)
  {
    hide Constructed;
  }

  lemma RepeatedDisagree(items: seq<TemplateItem>, current: map<Name, PrefixTemplate>)
    requires !Distinct(TemplateNames(items))
    ensures !TemplatesAgree(items, current)
  {
    hide Constructed, Distinct;
  }

  lemma AgreeingTemplates(items: seq<TemplateItem>, current: map<Name, PrefixTemplate>,
                          templates: map<Name, PrefixTemplate>)
    requires forall k :: 0 <= k < |items| ==> Constructed(items[k]).Ok?
    requires Distinct(TemplateNames(items))
    requires forall n :: n in current ==> n in templates && templates[n] == current[n]
    requires forall k :: 0 <= k < |items| ==>
               var t := Constructed(items[k]).value; t.name in templates && templates[t.name] == t
    ensures TemplatesAgree(items, current)
  {
    hide Constructed;
    forall i, j | 0 <= i < j < |items| && Constructed(items[i]).value.name == Constructed(items[j]).value.name
      ensures Constructed(items[i]) == Constructed(items[j]) {
      var t, u := Constructed(items[i]).value, Constructed(items[j]).value;
      assert templates[t.name] == t && templates[u.name] == u;
    }
  }

  datatype FixedEntry = FixedEntry(template: Name, address: Option<Address>)

  function FixedEntryOf(item: FixedItem): FixedEntry { FixedEntry(item.template, item.address) }

  ghost function FixedAfter(items: seq<FixedItem>, current: map<Name, FixedEntry>): map<Name, FixedEntry> {
    if items == [] then current
    else FixedAfter(items[..|items| - 1], current)[items[|items| - 1].name := FixedEntryOf(items[|items| - 1])]
  }

  ghost predicate FixedAgrees(item: FixedItem, templates: map<Name, PrefixTemplate>, current: map<Name, FixedEntry>) {
    && !Blank(item.name) && item.template in templates
    && (item.address.Some? ==> templates[item.template].prefix.Contains(item.address.value))
    && (item.name in current ==> current[item.name] == FixedEntry(item.template, item.address))
  }

  ghost predicate FixedAgree(items: seq<FixedItem>, templates: map<Name, PrefixTemplate>,
                             current: map<Name, FixedEntry>) {
    && Distinct(FixedNames(items))
    && (forall i :: 0 <= i < |items| ==> FixedAgrees(items[i], templates, current))
  }

  method PreflightFixed(items: seq<FixedItem>, templates: map<Name, PrefixTemplate>, current: map<Name, FixedEntry>)
    returns (r: Option<Complaint>, fixed: map<Name, FixedEntry>)
    ensures r.None? <==> FixedAgree(items, templates, current)
    ensures r.None? ==> fixed == FixedAfter(items, current)
  {
    hide Blank, Prefix.Contains, FixedAgrees, Distinct, Elements;
    fixed := current;
    var seen: set<Name> := {};
    ghost var names := FixedNames(items);
    NoElements(names[..0]);
    NothingRepeats(names[..0]);
    for i := 0 to |items|
      invariant seen == Elements(names[..i]) && Distinct(names[..i])
      invariant forall k :: 0 <= k < i ==> FixedAgrees(items[k], templates, current)
      invariant fixed.Keys == current.Keys + seen
      invariant forall n :: n in current ==> fixed[n] == current[n]
      invariant fixed == FixedAfter(items[..i], current)
    {
      var item := items[i];
      assert items[..i + 1][..i] == items[..i] && items[..i + 1][i] == items[i];
      if item.name in seen {
        Repeats(names, i);
        return Some(DuplicateItem(item.name)), fixed;
      }
      OneMoreDistinct(names, i);
      seen := seen + {item.name};
      FixedItemChecked(item, templates, current);
      if Blank(item.name) || item.template !in templates { return Some(InvalidItem(item.name)), fixed; }
      if item.address.Some? && !templates[item.template].prefix.Contains(item.address.value) {
        return Some(InvalidItem(item.name)), fixed;
      }
      var entry := FixedEntry(item.template, item.address);
      if item.name in fixed && fixed[item.name] != entry { return Some(DiffersFromExisting(item.name)), fixed; }
      fixed := fixed[item.name := entry];
    }
    assert names[..|items|] == names && items[..|items|] == items;
    return None, fixed;
  }

  lemma FixedItemChecked(item: FixedItem, templates: map<Name, PrefixTemplate>, current: map<Name, FixedEntry>)
    ensures FixedAgrees(item, templates, current) <==>
      && !Blank(item.name) && item.template in templates
      && (item.address.Some? ==> templates[item.template].prefix.Contains(item.address.value))
      && (item.name in current ==> current[item.name] == FixedEntry(item.template, item.address))
  {
  }

  datatype PoolEntry = PoolEntry(kind: PoolKind, template: Name, capacity: int, pinned: multiset<Name>)

  ghost predicate PoolAgrees(item: PoolItem, sizes: Sizes, templates: map<Name, PrefixTemplate>,
                             fixed: map<Name, FixedEntry>, current: map<Name, PoolEntry>) {
    && !Blank(item.name) && item.template in templates && ValidPoolKind(item.kind)
    && 1 <= PoolCapacity(item, sizes) <= MAX_POOL_SIZE
    && Distinct(item.pinned) && |item.pinned| <= PoolCapacity(item, sizes)
    && (forall n :: n in item.pinned ==> n in fixed && fixed[n].template == item.template)
    && (item.name in current ==>
          current[item.name] == PoolEntry(item.kind, item.template, PoolCapacity(item, sizes), multiset(item.pinned)))
  }

  ghost predicate PoolsAgree(items: seq<PoolItem>, sizes: Sizes, templates: map<Name, PrefixTemplate>,
                             fixed: map<Name, FixedEntry>, current: map<Name, PoolEntry>) {
    && Distinct(PoolNames(items))
    && (forall i :: 0 <= i < |items| ==> PoolAgrees(items[i], sizes, templates, fixed, current))
  }

  method PreflightPinned(item: PoolItem, fixed: map<Name, FixedEntry>) returns (ok: bool)
    ensures ok <==> Distinct(item.pinned) && forall n :: n in item.pinned ==>
              n in fixed && fixed[n].template == item.template
  {
    var seen: set<Name> := {};
    for j := 0 to |item.pinned|
      invariant seen == Elements(item.pinned[..j]) && Distinct(item.pinned[..j])
      invariant forall n :: n in item.pinned[..j] ==> n in fixed && fixed[n].template == item.template
    {
      var n := item.pinned[j];
      assert item.pinned[..j + 1] == item.pinned[..j] + [n];
      if n !in fixed || fixed[n].template != item.template { return false; }
      if n in seen {
        var k :| 0 <= k < j && item.pinned[k] == n;
        return false;
      }
      AppendKeepsDistinct(item.pinned[..j], n);
      seen := seen + {n};
    }
    assert item.pinned[..|item.pinned|] == item.pinned;
    return true;
  }

  method PreflightPools(items: seq<PoolItem>, sizes: Sizes, templates: map<Name, PrefixTemplate>,
                        fixed: map<Name, FixedEntry>, current: map<Name, PoolEntry>)
    returns (r: Option<Complaint>)
    ensures r.None? <==> PoolsAgree(items, sizes, templates, fixed, current)
  {
    hide Blank, Elements;
    var seen: set<Name> := {};
    ghost var names := PoolNames(items);
    NoElements(names[..0]);
    NothingRepeats(names[..0]);
    for i := 0 to |items|
      invariant seen == Elements(names[..i]) && Distinct(names[..i])
      invariant forall k :: 0 <= k < i ==> PoolAgrees(items[k], sizes, templates, fixed, current)
    {
      var item := items[i];
      if item.name in seen {
        Repeats(names, i);
        return Some(DuplicateItem(item.name));
      }
      OneMoreDistinct(names, i);
      seen := seen + {item.name};
      if Blank(item.name) || item.template !in templates || !ValidPoolKind(item.kind) {
        return Some(InvalidItem(item.name));
      }
      var capacity := PoolCapacity(item, sizes);
      if capacity < 1 || capacity > MAX_POOL_SIZE { return Some(InvalidItem(item.name)); }
      var pinnedOk := PreflightPinned(item, fixed);
      if !pinnedOk || |item.pinned| > capacity { return Some(InvalidItem(item.name)); }
      if item.name in current
         && current[item.name] != PoolEntry(item.kind, item.template, capacity, multiset(item.pinned)) {
        return Some(DiffersFromExisting(item.name));
      }
    }
    assert names[..|items|] == names;
    return None;
  }
}
