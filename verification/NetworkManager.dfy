/** `network.ResourceManager`: lists a resource as owned before touching the kernel, rolls back
    when a step fails, and reconciles the host to a desired set. */
module NetworkManager {
  import opened Wrappers
  import opened FiniteSets
  import opened Names
  import opened Prefixes
  import opened Host

  datatype DesiredResource = DesiredResource(template: PrefixTemplate, addresses: seq<Address>)

  datatype Failure =
    | InvalidTemplate | NoAddresses | OutsidePrefix | UnsupportedConfigMode
    | LoadFailed | CheckFailed | Conflict | SaveFailed | AddFailed | RemoveFailed | WaitFailed | BindFailed | NotOwned

  // ---- what is desired ----

  ghost predicate RefsDefined(t: PrefixTemplate, addresses: seq<Address>) {
    t.iface != "" && addresses != [] && forall a :: a in addresses ==> t.prefix.Contains(a)
  }

  ghost function RefSet(t: PrefixTemplate, addresses: seq<Address>): set<AddressRef> {
    set a | a in addresses :: AddressRef(t.iface, a)
  }

  function RouteOf(t: PrefixTemplate): RouteRef { RouteRef(t.iface, t.prefix.Masked()) }

  ghost predicate WellFormed(desired: seq<DesiredResource>) {
    forall i :: 0 <= i < |desired| ==>
      RefsDefined(desired[i].template, desired[i].addresses) && ValidMode(desired[i].template.mode)
  }

  ghost function DesiredAddresses(desired: seq<DesiredResource>): set<AddressRef> {
    set i, a | 0 <= i < |desired| && desired[i].template.mode == ModeAddress && a in desired[i].addresses ::
      AddressRef(desired[i].template.iface, a)
  }

  ghost function DesiredRoutes(desired: seq<DesiredResource>): set<RouteRef> {
    set i | 0 <= i < |desired| && desired[i].template.mode == ModeLocalRouteFreebind :: RouteOf(desired[i].template)
  }

  /** The host carries exactly these owned addresses and routes. */
  ghost predicate Realises(h: HostState, addresses: set<AddressRef>, routes: set<RouteRef>) {
    && AddressSet(h.saved) == addresses && addresses <= h.addresses
    && RouteSet(h.saved) == routes && routes <= h.routes
  }

  /** What is on the host without being listed; in a safe state, what the program did not put there. */
  function ForeignAddresses(h: HostState): set<AddressRef> { h.addresses - AddressSet(h.saved) }

  function ForeignRoutes(h: HostState): set<RouteRef> { h.routes - RouteSet(h.saved) }

  ghost predicate SameForeign(g: HostState, h: HostState) {
    ForeignAddresses(g) == ForeignAddresses(h) && ForeignRoutes(g) == ForeignRoutes(h)
  }

  /** The program put nothing new on the host. */
  ghost predicate Fewer(before: HostState, after: HostState) {
    after.ours <= before.ours && after.ourRoutes <= before.ourRoutes
  }

  lemma ForeignIsNotOurs(h: HostState)
    requires Safe(h)
    ensures ForeignAddresses(h) == h.addresses - h.ours && ForeignRoutes(h) == h.routes - h.ourRoutes
  {
  }

  // ---- what one apply leaves ----

  /** Success adds exactly `refs` to the host and to the list. Failure leaves the host between the
      old state and that one, and exactly the old state when the rollback itself had no failure. */
  ghost predicate AppliedAddresses(before: HostState, after: HostState, refs: set<AddressRef>, failures: seq<Failure>) {
    && SameForeign(before, after)
    && after.routes == before.routes && after.saved.routes == before.saved.routes
    && before.addresses <= after.addresses <= before.addresses + refs
    && AddressSet(before.saved) <= AddressSet(after.saved) <= AddressSet(before.saved) + refs
    && (failures == [] ==> refs <= after.addresses && refs <= AddressSet(after.saved))
    && (|failures| == 1 ==> after.addresses == before.addresses && after.saved == before.saved)
  }

  ghost predicate AppliedRoute(before: HostState, after: HostState, route: RouteRef, failures: seq<Failure>) {
    && SameForeign(before, after)
    && after.addresses == before.addresses && after.saved.addresses == before.saved.addresses
    && before.routes <= after.routes <= before.routes + {route}
    && RouteSet(before.saved) <= RouteSet(after.saved) <= RouteSet(before.saved) + {route}
    && (failures == [] ==> route in after.routes && route in RouteSet(after.saved))
    && (|failures| == 1 ==> after.routes == before.routes && after.saved == before.saved)
  }

  // ---- what was checked ----

  ghost predicate AddedSince(trace: seq<Moment>, since: nat, x: Resource) {
    exists i :: since <= i < |trace| && trace[i].act == Add(x)
  }

  ghost predicate AllPassed(checks: seq<Check>, from: nat) {
    forall k :: from <= k < |checks| ==> checks[k].ok
  }

  /** The address became ready after the last thing was added. */
  ghost predicate Ready(checks: seq<Check>, from: nat, trace: seq<Moment>, r: AddressRef) {
    exists k :: from <= k < |checks| && checks[k].Waited? && checks[k].ok && r in checks[k].refs
                && NoAdds(trace, checks[k].at)
  }

  /** The address could be bound after the last thing was added. */
  ghost predicate Bindable(checks: seq<Check>, from: nat, trace: seq<Moment>, r: AddressRef, freebind: bool) {
    exists k :: from <= k < |checks| && checks[k].Bound? && checks[k].ok && checks[k].ref == r
                && checks[k].freebind == freebind && NoAdds(trace, checks[k].at)
  }

  /** No check failed, every one of `refs` could be bound, and only they were added, each of them waited
      for. */
  ghost predicate Checked(checks: seq<Check>, from: nat, trace: seq<Moment>, since: nat, refs: set<AddressRef>,
                          freebind: bool) {
    && AllPassed(checks, from)
    && (forall r :: r in refs ==> Bindable(checks, from, trace, r, freebind))
    && (forall r :: AddedSince(trace, since, OfAddress(r)) ==> r in refs && Ready(checks, from, trace, r))
  }

  /** The same for many templates in turn: each address was checked after it was added. */
  ghost predicate AllChecked(checks: seq<Check>, from: nat, trace: seq<Moment>, since: nat, refs: set<AddressRef>) {
    && AllPassed(checks, from)
    && (forall r :: r in refs ==> BoundSince(checks, from, trace, r))
    && (forall r :: AddedSince(trace, since, OfAddress(r)) ==> r in refs && ReadySince(checks, from, trace, r))
  }

  ghost predicate ReadySince(checks: seq<Check>, from: nat, trace: seq<Moment>, r: AddressRef) {
    exists k :: from <= k < |checks| && checks[k].Waited? && checks[k].ok && r in checks[k].refs
                && !AddedSince(trace, checks[k].at, OfAddress(r))
  }

  ghost predicate BoundSince(checks: seq<Check>, from: nat, trace: seq<Moment>, r: AddressRef) {
    exists k :: from <= k < |checks| && checks[k].Bound? && checks[k].ok && checks[k].ref == r
                && !AddedSince(trace, checks[k].at, OfAddress(r))
  }

  ghost function DesiredRefs(desired: seq<DesiredResource>): set<AddressRef> {
    set i, a | 0 <= i < |desired| && a in desired[i].addresses :: AddressRef(desired[i].template.iface, a)
  }

  lemma NoDesiredRefs(none: seq<DesiredResource>)
    requires none == []
    ensures DesiredRefs(none) == {}
  {
  }

  lemma DesiredRefsStep(desired: seq<DesiredResource>, i: nat)
    requires i < |desired|
    ensures DesiredRefs(desired[..i + 1])
            == DesiredRefs(desired[..i]) + RefSet(desired[i].template, desired[i].addresses)
  {
    var d := desired[..i + 1];
    assert d[i] == desired[i] && d[..i] == desired[..i];
    forall r | r in DesiredRefs(desired[..i]) ensures r in DesiredRefs(d) {
      var j, a :| 0 <= j < i && a in desired[..i][j].addresses && r == AddressRef(desired[..i][j].template.iface, a);
      assert d[j] == desired[..i][j];
    }
    forall r | r in DesiredRefs(d)
      ensures r in DesiredRefs(desired[..i]) + RefSet(desired[i].template, desired[i].addresses)
    {
      var j, a :| 0 <= j < |d| && a in d[j].addresses && r == AddressRef(d[j].template.iface, a);
      assert j < i ==> desired[..i][j] == d[j];
    }
  }

  lemma CheckedFromStart(checks: seq<Check>, from: nat, start: seq<Moment>, middle: seq<Moment>, end: seq<Moment>,
                         refs: set<AddressRef>)
    requires start <= middle <= end && NoAdds(middle, |start|) && AllChecked(checks, from, end, |middle|, refs)
    ensures AllChecked(checks, from, end, |start|, refs)
  {
    hide AddedSince, NoAdds, BoundSince, ReadySince;
    AddedOnlyLater(start, middle, end);
  }

  lemma NothingChecked(checks: seq<Check>, trace: seq<Moment>, since: nat)
    requires NoAdds(trace, since)
    ensures AllChecked(checks, |checks|, trace, since, {})
  {
  }

  lemma NothingAdded(trace: seq<Moment>, since: nat, x: Resource)
    requires NoAdds(trace, since)
    ensures !AddedSince(trace, since, x)
  {
  }

  /** What was checked stays checked while nothing is added. */
  lemma ChecksStay(checks: seq<Check>, more: seq<Check>, from: nat, trace: seq<Moment>, longer: seq<Moment>)
    requires checks <= more && trace <= longer && NoAdds(longer, |trace|)
    ensures forall r, f :: Bindable(checks, from, trace, r, f) ==> Bindable(more, from, longer, r, f)
    ensures forall r :: Ready(checks, from, trace, r) ==> Ready(more, from, longer, r)
  {
    forall r, f | Bindable(checks, from, trace, r, f) ensures Bindable(more, from, longer, r, f) {
      var k :| from <= k < |checks| && checks[k].Bound? && checks[k].ok && checks[k].ref == r
               && checks[k].freebind == f && NoAdds(trace, checks[k].at);
      assert more[k] == checks[k];
      NoneLater(trace, longer, checks[k].at);
    }
    forall r | Ready(checks, from, trace, r) ensures Ready(more, from, longer, r) {
      var k :| from <= k < |checks| && checks[k].Waited? && checks[k].ok && r in checks[k].refs
               && NoAdds(trace, checks[k].at);
      assert more[k] == checks[k];
      NoneLater(trace, longer, checks[k].at);
    }
  }

  lemma NoneLater(trace: seq<Moment>, longer: seq<Moment>, from: nat)
    requires trace <= longer && NoAdds(trace, from) && NoAdds(longer, |trace|)
    ensures NoAdds(longer, from)
  {
    forall i | from <= i < |longer| ensures !longer[i].act.Add? {
      assert i < |trace| ==> trace[i] == longer[i];
    }
  }

  lemma SameAdded(trace: seq<Moment>, longer: seq<Moment>, since: nat)
    requires trace <= longer && NoAdds(longer, |trace|)
    ensures forall x :: AddedSince(longer, since, x) <==> AddedSince(trace, since, x)
  {
    forall x | AddedSince(longer, since, x) ensures AddedSince(trace, since, x) {
      var i :| since <= i < |longer| && longer[i].act == Add(x);
      assert i < |trace| && trace[i] == longer[i];
    }
    forall x | AddedSince(trace, since, x) ensures AddedSince(longer, since, x) {
      var i :| since <= i < |trace| && trace[i].act == Add(x);
      assert longer[i] == trace[i];
    }
  }

  lemma OneMoreAdded(trace: seq<Moment>, longer: seq<Moment>, since: nat, x: Resource)
    requires trace <= longer && |trace| < |longer| && since <= |trace|
    requires NoAdds(longer[..|longer| - 1], |trace|) && longer[|longer| - 1].act == Add(x)
    ensures forall y :: AddedSince(longer, since, y) <==> AddedSince(trace, since, y) || y == x
  {
    var most := longer[..|longer| - 1];
    assert trace <= most;
    SameAdded(trace, most, since);
    forall y | AddedSince(longer, since, y) ensures AddedSince(most, since, y) || y == x {
      var i :| since <= i < |longer| && longer[i].act == Add(y);
      assert i < |most| ==> most[i] == longer[i];
    }
    forall y | AddedSince(most, since, y) ensures AddedSince(longer, since, y) {
      var i :| since <= i < |most| && most[i].act == Add(y);
      assert longer[i] == most[i];
    }
    assert longer[|longer| - 1].act == Add(x);
  }

  lemma ReadyNow(checks: seq<Check>, refs: seq<AddressRef>, trace: seq<Moment>)
    ensures forall r :: r in Elements(refs) ==>
              Ready(checks + [Waited(Elements(refs), true, |trace|)], |checks|, trace, r)
  {
    hide Elements;
    var more := checks + [Waited(Elements(refs), true, |trace|)];
    assert more[|checks|] == Waited(Elements(refs), true, |trace|);
  }

  lemma BindableNow(checks: seq<Check>, from: nat, trace: seq<Moment>, r: AddressRef, freebind: bool)
    requires from <= |checks|
    ensures Bindable(checks + [Bound(r, freebind, true, |trace|)], from, trace, r, freebind)
  {
    var more := checks + [Bound(r, freebind, true, |trace|)];
    assert more[|checks|] == Bound(r, freebind, true, |trace|);
  }

  lemma NothingSince(trace: seq<Moment>)
    ensures NoAdds(trace, |trace|)
  {
  }

  lemma NonePassed(checks: seq<Check>)
    ensures AllPassed(checks, |checks|)
  {
  }

  lemma NoneAdded(trace: seq<Moment>)
    ensures forall x :: !AddedSince(trace, |trace|, x)
  {
  }

  /** Checks from a later point on, together with those before, are checks from the earlier one. */
  lemma LaterBindable(checks: seq<Check>, more: seq<Check>, from: nat, trace: seq<Moment>)
    requires checks <= more && from <= |checks|
    ensures forall r, f :: Bindable(more, |checks|, trace, r, f) ==> Bindable(more, from, trace, r, f)
    ensures AllPassed(checks, from) && AllPassed(more, |checks|) ==> AllPassed(more, from)
  {
    if AllPassed(checks, from) && AllPassed(more, |checks|) {
      forall k | from <= k < |more| ensures more[k].ok {
        assert k < |checks| ==> more[k] == checks[k];
      }
    }
  }

  /** Nothing was added at first, so what was added was added later. */
  lemma AddedOnlyLater(start: seq<Moment>, middle: seq<Moment>, end: seq<Moment>)
    requires start <= middle <= end && NoAdds(middle, |start|)
    ensures forall x :: AddedSince(end, |start|, x) <==> AddedSince(end, |middle|, x)
  {
    assert forall j :: 0 <= j < |middle| ==> end[j] == middle[j];
    forall x | AddedSince(end, |start|, x) ensures AddedSince(end, |middle|, x) {
      var i :| |start| <= i < |end| && end[i].act == Add(x);
    }
  }

  lemma NoneAddedSince(trace: seq<Moment>, since: nat)
    requires NoAdds(trace, since)
    ensures forall x :: !AddedSince(trace, since, x)
  {
  }

  lemma OneMorePassed(checks: seq<Check>, from: nat, c: Check)
    requires from <= |checks|
    ensures AllPassed(checks + [c], from) <==> AllPassed(checks, from) && c.ok
  {
    var more := checks + [c];
    assert more[|checks|] == c && forall k :: 0 <= k < |checks| ==> more[k] == checks[k];
  }

  /** Checks of one more template, when only its own references were added meanwhile. */
  lemma CheckedStep(checks: seq<Check>, more: seq<Check>, from: nat, trace: seq<Moment>, longer: seq<Moment>,
                    since: nat, refs: set<AddressRef>, own: set<AddressRef>, freebind: bool)
    requires AllChecked(checks, from, trace, since, refs) && checks <= more && trace <= longer
    requires from <= |checks| && since <= |trace|
    requires Checked(more, |checks|, longer, |trace|, own, freebind)
    ensures AllChecked(more, from, longer, since, refs + own)
  {
    hide NoAdds, AddedSince, Bindable, Ready, BoundSince, ReadySince;
    assert forall k :: from <= k < |more| ==> more[k].ok by {
      assert forall k :: from <= k < |checks| ==> more[k] == checks[k];
    }
    forall r | r in refs + own ensures BoundSince(more, from, longer, r) {
      if r in own {
        BoundByStep(more, |checks|, from, longer, r, freebind);
      } else {
        StillBound(checks, more, from, trace, longer, r);
      }
    }
    forall r | AddedSince(longer, since, OfAddress(r)) ensures r in refs + own && ReadySince(more, from, longer, r) {
      if AddedSince(longer, |trace|, OfAddress(r)) {
        ReadyByStep(more, |checks|, from, longer, r);
      } else {
        AddedBefore(trace, longer, since, OfAddress(r));
        StillReady(checks, more, from, trace, longer, r);
      }
    }
  }

  lemma AddedBefore(trace: seq<Moment>, longer: seq<Moment>, since: nat, x: Resource)
    requires trace <= longer && since <= |trace|
    requires AddedSince(longer, since, x) && !AddedSince(longer, |trace|, x)
    ensures AddedSince(trace, since, x)
  {
    var i :| since <= i < |longer| && longer[i].act == Add(x);
    assert i < |trace| && trace[i] == longer[i];
  }

  lemma BoundByStep(more: seq<Check>, middle: nat, from: nat, longer: seq<Moment>, r: AddressRef, freebind: bool)
    requires from <= middle && Bindable(more, middle, longer, r, freebind)
    ensures BoundSince(more, from, longer, r)
  {
    hide NoAdds, AddedSince;
    var k :| middle <= k < |more| && more[k].Bound? && more[k].ok && more[k].ref == r && NoAdds(longer, more[k].at);
    NothingAdded(longer, more[k].at, OfAddress(r));
  }

  lemma ReadyByStep(more: seq<Check>, middle: nat, from: nat, longer: seq<Moment>, r: AddressRef)
    requires from <= middle && Ready(more, middle, longer, r)
    ensures ReadySince(more, from, longer, r)
  {
    hide NoAdds, AddedSince;
    var k :| middle <= k < |more| && more[k].Waited? && more[k].ok && r in more[k].refs && NoAdds(longer, more[k].at);
    NothingAdded(longer, more[k].at, OfAddress(r));
  }

  lemma StillBound(checks: seq<Check>, more: seq<Check>, from: nat, trace: seq<Moment>, longer: seq<Moment>,
                   r: AddressRef)
    requires checks <= more && trace <= longer && BoundSince(checks, from, trace, r)
    requires !AddedSince(longer, |trace|, OfAddress(r))
    ensures BoundSince(more, from, longer, r)
  {
    hide AddedSince;
    var k :| from <= k < |checks| && checks[k].Bound? && checks[k].ok && checks[k].ref == r
             && !AddedSince(trace, checks[k].at, OfAddress(r));
    assert more[k] == checks[k];
    StillNotAdded(trace, longer, checks[k].at, OfAddress(r));
  }

  lemma StillReady(checks: seq<Check>, more: seq<Check>, from: nat, trace: seq<Moment>, longer: seq<Moment>,
                   r: AddressRef)
    requires checks <= more && trace <= longer && ReadySince(checks, from, trace, r)
    requires !AddedSince(longer, |trace|, OfAddress(r))
    ensures ReadySince(more, from, longer, r)
  {
    hide AddedSince;
    var k :| from <= k < |checks| && checks[k].Waited? && checks[k].ok && r in checks[k].refs
             && !AddedSince(trace, checks[k].at, OfAddress(r));
    assert more[k] == checks[k];
    StillNotAdded(trace, longer, checks[k].at, OfAddress(r));
  }

  lemma StillNotAdded(trace: seq<Moment>, longer: seq<Moment>, from: nat, x: Resource)
    requires trace <= longer && !AddedSince(trace, from, x) && !AddedSince(longer, |trace|, x)
    ensures !AddedSince(longer, from, x)
  {
    assert forall j :: 0 <= j < |trace| ==> longer[j] == trace[j];
  }

  // ---- the two halves of an apply ----

  /** The undo of an apply whose list was `before` and that put `added` on the host. */
  ghost predicate RolledBack(middle: HostState, after: HostState, before: Ownership, added: set<AddressRef>,
                             failures: seq<Failure>) {
    && after.routes == middle.routes && after.saved.routes == before.routes && failures != []
    && middle.addresses - added <= after.addresses <= middle.addresses
    && AddressSet(before) <= AddressSet(after.saved) <= AddressSet(middle.saved)
    && (AddressSet(middle.saved) - AddressSet(after.saved)) !! after.addresses
    && (|failures| == 1 ==> after.addresses == middle.addresses - added && after.saved == before)
  }

  /** The kernel half of an apply: `toAdd` is listed and absent at its start. */
  ghost predicate Placed(start: HostState, after: HostState, before: Ownership, toAdd: set<AddressRef>,
                         failures: seq<Failure>) {
    && after.routes == start.routes && after.saved.routes == before.routes
    && start.addresses <= after.addresses <= start.addresses + toAdd
    && AddressSet(before) <= AddressSet(after.saved) <= AddressSet(start.saved)
    && (AddressSet(start.saved) - AddressSet(after.saved)) !! after.addresses
    && (failures == [] ==> after.addresses == start.addresses + toAdd && after.saved == start.saved)
    && (|failures| == 1 ==> after.addresses == start.addresses && after.saved == before)
  }

  lemma RolledBackIsPlaced(start: HostState, middle: HostState, after: HostState, before: Ownership,
                           toAdd: set<AddressRef>, added: set<AddressRef>, failures: seq<Failure>)
    requires added <= toAdd && toAdd !! start.addresses && middle.saved == start.saved && middle.routes == start.routes
    requires middle.addresses == start.addresses + added && RolledBack(middle, after, before, added, failures)
    ensures Placed(start, after, before, toAdd, failures)
  {
    assert middle.addresses - added == start.addresses;
  }

  lemma PlacedIsApplied(old': HostState, start: HostState, after: HostState, toAdd: set<AddressRef>,
                        refs: set<AddressRef>, failures: seq<Failure>)
    requires old'.addresses == start.addresses && old'.routes == start.routes && old'.saved.routes == start.saved.routes
    requires AddressSet(start.saved) == AddressSet(old'.saved) + toAdd && toAdd !! old'.addresses
    requires toAdd <= refs <= AddressSet(old'.saved) + toAdd && refs <= old'.addresses + toAdd
    requires Placed(start, after, old'.saved, toAdd, failures)
    ensures AppliedAddresses(old', after, refs, failures)
  {
    assert RouteSet(after.saved) == RouteSet(old'.saved);
  }

  /** The same two for a route. */
  ghost predicate RouteRolledBack(middle: HostState, after: HostState, before: Ownership, added: set<RouteRef>,
                                  failures: seq<Failure>) {
    && after.addresses == middle.addresses && after.saved.addresses == before.addresses && failures != []
    && middle.routes - added <= after.routes <= middle.routes
    && RouteSet(before) <= RouteSet(after.saved) <= RouteSet(middle.saved)
    && (RouteSet(middle.saved) - RouteSet(after.saved)) !! after.routes
    && (|failures| == 1 ==> after.routes == middle.routes - added && after.saved == before)
  }

  ghost predicate RoutePlaced(start: HostState, after: HostState, before: Ownership, route: RouteRef,
                              failures: seq<Failure>) {
    && after.addresses == start.addresses && after.saved.addresses == before.addresses
    && start.routes <= after.routes <= start.routes + {route}
    && RouteSet(before) <= RouteSet(after.saved) <= RouteSet(start.saved)
    && (RouteSet(start.saved) - RouteSet(after.saved)) !! after.routes
    && (failures == [] ==> after.routes == start.routes + {route} && after.saved == start.saved)
    && (|failures| == 1 ==> after.routes == start.routes && after.saved == before)
  }

  lemma RouteRolledBackIsPlaced(start: HostState, middle: HostState, after: HostState, before: Ownership,
                                route: RouteRef, added: set<RouteRef>, failures: seq<Failure>)
    requires added <= {route} && added !! start.routes && middle.saved == start.saved
             && middle.addresses == start.addresses
    requires middle.routes == start.routes + added && RouteRolledBack(middle, after, before, added, failures)
    ensures RoutePlaced(start, after, before, route, failures)
  {
    assert middle.routes - added == start.routes;
  }

  lemma RoutePlacedIsApplied(old': HostState, start: HostState, after: HostState, route: RouteRef,
                             failures: seq<Failure>)
    requires old'.addresses == start.addresses && old'.routes == start.routes
             && old'.saved.addresses == start.saved.addresses
    requires RouteSet(start.saved) == RouteSet(old'.saved) + {route}
             && (route in old'.routes ==> route in RouteSet(old'.saved))
    requires RoutePlaced(start, after, old'.saved, route, failures)
    ensures AppliedRoute(old', after, route, failures)
  {
    assert AddressSet(after.saved) == AddressSet(old'.saved);
  }

  class ResourceManager {
    const host: Host

    constructor (host: Host)
      ensures this.host == host
    {
      this.host := host;
    }

    /** The references of a template's addresses, each once. */
    static method AddressRefs(t: PrefixTemplate, addresses: seq<Address>) returns (r: Result<seq<AddressRef>, Failure>)
      ensures r.Ok? <==> RefsDefined(t, addresses)
      ensures r.Ok? ==> Elements(r.value) == RefSet(t, addresses) && Distinct(r.value)
      ensures r.Ok? ==> forall x :: x in r.value ==> x.iface == t.iface
    {
      if t.iface == "" { return Err(InvalidTemplate); }
      if |addresses| == 0 { return Err(NoAddresses); }
      var refs: seq<AddressRef> := [];
      var seen: set<Address> := {};
      for i := 0 to |addresses|
        invariant forall k :: 0 <= k < i ==> t.prefix.Contains(addresses[k])
        invariant seen == set k | 0 <= k < i :: addresses[k]
        invariant forall x :: x in refs <==> x.iface == t.iface && x.address in seen
        invariant Distinct(refs)
      {
        var a := addresses[i];
        if !t.prefix.Contains(a) { return Err(OutsidePrefix); }
        if a in seen { continue; }
        assert AddressRef(t.iface, a) !in refs;
        seen := seen + {a};
        refs := refs + [AddressRef(t.iface, a)];
      }
      assert forall a :: a in seen <==> a in addresses;
      return Ok(refs);
    }

    /** One address dump per interface; an interface without an entry could not be read. */
    method InterfaceAddressSets(refs: seq<AddressRef>) returns (sets: map<string, set<Address>>)
      requires host.Sound()
      modifies host`addresses, host`routes, host`ours, host`ourRoutes, host`trace, host`meddled
      ensures host.Sound() && old(host.trace) <= host.trace && Fewer(old(host.State()), host.State())
      ensures NoAdds(host.trace, |old(host.trace)|)
      ensures old(host.meddled) ==> host.meddled
      ensures !host.crowded ==> host.State() == old(host.State()) && host.trace == old(host.trace)
                                && host.meddled == old(host.meddled)
      ensures !host.faulty ==> forall r :: r in refs ==> r.iface in sets
      ensures forall r :: (r in refs && r.iface in sets && r.address !in sets[r.iface]) ==> r !in host.ours
      ensures !host.meddled ==>
                forall r :: (r in refs && r.iface in sets && r.address !in sets[r.iface]
                             && r in AddressSet(host.saved)) ==> r !in host.addresses
      ensures !host.crowded ==> forall r :: r in refs && r.iface in sets ==>
                (r.address in sets[r.iface] <==> r in host.addresses)
    {
      hide Host.Sound;
      sets := map[];
      var failed: set<string> := {};
      for i := 0 to |refs|
        invariant host.Sound() && old(host.trace) <= host.trace && Fewer(old(host.State()), host.State())
        invariant NoAdds(host.trace, |old(host.trace)|)
        invariant old(host.meddled) ==> host.meddled
        invariant !host.crowded ==> host.State() == old(host.State()) && host.trace == old(host.trace)
                                    && host.meddled == old(host.meddled)
        invariant forall j :: 0 <= j < i ==> refs[j].iface in sets || refs[j].iface in failed
        invariant !host.faulty ==> failed == {}
        invariant forall r: AddressRef :: r.iface in sets && r.address !in sets[r.iface] ==> r !in host.ours
        invariant !host.meddled ==>
                  forall r: AddressRef ::
                    (r.iface in sets && r.address !in sets[r.iface] && r in AddressSet(host.saved)) ==>
                      r !in host.addresses
        invariant !host.crowded ==> forall r: AddressRef :: r.iface in sets ==>
                  (r.address in sets[r.iface] <==> r in host.addresses)
      {
        var name := refs[i].iface;
        if name in sets || name in failed { continue; }
        var ok, found := host.InterfaceAddresses(name);
        if !ok {
          failed := failed + {name};
          continue;
        }
        FoundMeansPresent(host.addresses, name, found);
        sets := sets[name := found];
      }
    }

    /** Undo: take back what was added, newest first, and restore the ownership list, keeping
        listed whatever could not be removed. */
    method RollbackAddresses(before: Ownership, added: seq<AddressRef>, cause: Failure) returns (failures: seq<Failure>)
      requires host.Sound()
      requires AddressSet(before) <= AddressSet(host.saved) && host.saved.routes == before.routes
      requires Elements(added) <= AddressSet(host.saved) && Distinct(added)
      requires !host.crowded ==> Elements(added) <= host.addresses
      requires (AddressSet(host.saved) - AddressSet(before) - Elements(added)) !! host.ours
      requires !host.crowded ==> (AddressSet(host.saved) - AddressSet(before) - Elements(added)) !! host.addresses
      modifies host
      ensures host.raced == old(host.raced)
      ensures host.checks == old(host.checks) && failures != []
      ensures host.Sound() && old(host.trace) <= host.trace && Fewer(old(host.State()), host.State())
      ensures NoAdds(host.trace, |old(host.trace)|)
      ensures !host.crowded ==> RolledBack(old(host.State()), host.State(), before, Elements(added), failures)
    {
      hide ValidOwnership, AllGood, NoneRaced, Host.Sound, AddressSet, Elements, Distinct;
      failures := [cause];
      var restored := before;
      ghost var listed := host.saved;
      var i := |added|;
      assert added[..i] == added;
      while i > 0
        invariant 0 <= i <= |added|
        invariant host.Sound() && old(host.trace) <= host.trace && host.saved == listed
        invariant host.raced == old(host.raced) && Fewer(old(host.State()), host.State())
        invariant NoAdds(host.trace, |old(host.trace)|) && host.checks == old(host.checks)
        invariant AddressSet(before) <= AddressSet(restored) <= AddressSet(listed) && restored.routes == before.routes
        invariant (AddressSet(listed) - AddressSet(restored) - Elements(added[..i])) !! host.ours
        invariant !host.crowded ==>
                  (AddressSet(listed) - AddressSet(restored) - Elements(added[..i])) !! host.addresses
        invariant failures != []
        invariant !host.crowded ==>
                    && host.routes == old(host.routes)
                    && old(host.addresses) - (Elements(added)
                                              - Elements(added[..i])) <= host.addresses <= old(host.addresses)
        invariant !host.crowded && |failures| == 1 ==>
                    host.addresses == old(host.addresses) - (Elements(added) - Elements(added[..i]))
                    && restored == before
      {
        i := i - 1;
        ElementsStep(added, i);
        var removed := host.RemoveAddress(added[i]);
        if !removed {
          failures := failures + [RemoveFailed];
          if added[i] !in restored.addresses {
            AddressSetGrows(restored, added[i]);
            restored := restored.(addresses := restored.addresses + [added[i]]);
          }
          AddressSetHolds(restored, added[i]);
        }
      }
      assert Elements(added[..0]) == {} by { NoElements(added[..0]); }
      var saved := host.Save(restored);
      if !saved { failures := failures + [SaveFailed]; }
    }

    method ApplyAddresses(refs: seq<AddressRef>) returns (failures: seq<Failure>)
      requires host.Sound()
      requires Distinct(refs)
      modifies host
      ensures host.Sound() && old(host.trace) <= host.trace
      ensures !host.crowded ==> host.raced == old(host.raced)
      ensures old(host.checks) <= host.checks
      ensures failures == [] ==>
                Checked(host.checks, |old(host.checks)|, host.trace, |old(host.trace)|, Elements(refs), false)
      ensures !host.crowded ==> AppliedAddresses(old(host.State()), host.State(), Elements(refs), failures)
      ensures !host.crowded && !host.faulty ==>
                (failures == [] <==> Named(refs) && Elements(refs) !! ForeignAddresses(old(host.State())))
                && (failures != [] ==> host.State() == old(host.State()))
      ensures !host.crowded && !host.faulty && Elements(refs) <= old(host.addresses) * AddressSet(old(host.saved)) ==>
                host.State() == old(host.State()) && host.trace == old(host.trace)
    {
      hide ValidOwnership, Host.Sound, AllPassed, Bindable, Ready, AddedSince, NoAdds;
      var loaded, before := host.Load();
      if !loaded { return [LoadFailed]; }
      var missing := FindMissing(refs, before);
      if missing.Err? { return [missing.error]; }
      var toAdd := missing.value;
      EmptyElements(toAdd);
      ghost var found := host.trace;
      var listed := ListIntent(refs, toAdd, before);
      if !listed { return [SaveFailed]; }
      NoneLater(found, host.trace, |old(host.trace)|);
      ghost var start, trace := host.State(), host.trace;
      failures := AddAndValidate(refs, toAdd, before);
      AddedOnlyLater(old(host.trace), trace, host.trace);
      if !host.crowded {
        PlacedIsApplied(old(host.State()), start, host.State(), Elements(toAdd), Elements(refs), failures);
      }
    }

    /** The references that are not on the host yet; a present reference must be owned already. */
    method FindMissing(refs: seq<AddressRef>, before: Ownership) returns (r: Result<seq<AddressRef>, Failure>)
      requires host.Sound() && host.saved == before
      requires Distinct(refs)
      modifies host`addresses, host`routes, host`ours, host`ourRoutes, host`trace, host`meddled
      ensures host.Sound() && old(host.trace) <= host.trace && Fewer(old(host.State()), host.State())
      ensures NoAdds(host.trace, |old(host.trace)|)
      ensures old(host.meddled) ==> host.meddled
      ensures !host.crowded ==> host.State() == old(host.State()) && host.trace == old(host.trace)
      ensures !host.crowded ==> host.meddled == old(host.meddled)
      ensures r.Ok? ==>
                && Distinct(r.value) && Elements(r.value) !! host.ours
                && Elements(r.value) <= Elements(refs) <= AddressSet(before) + Elements(r.value)
      ensures r.Ok? && !host.meddled ==> Elements(r.value) * AddressSet(before) !! host.addresses
      ensures r.Ok? && !host.crowded ==>
                Elements(r.value) !! host.addresses && Elements(refs) <= host.addresses + Elements(r.value)
      ensures !host.crowded && !host.faulty ==> (r.Ok? <==> Elements(refs) !! ForeignAddresses(old(host.State())))
    {
      hide ValidOwnership, Host.Sound;
      var owned := AddressSet(before);
      var existing := InterfaceAddressSets(refs);
      var toAdd: seq<AddressRef> := [];
      for i := 0 to |refs|
        invariant forall r :: r in refs[..i] ==> r.iface in existing && (r.address in existing[r.iface] ==> r in owned)
        invariant forall r :: r in toAdd <==> r in refs[..i] && r.address !in existing[r.iface]
        invariant Distinct(toAdd)
      {
        var ref := refs[i];
        assert ref !in refs[..i] && ref in refs && ref in Elements(refs);
        assert refs[..i + 1] == refs[..i] + [ref];
        if ref.iface !in existing { return Err(CheckFailed); }
        var exists' := ref.address in existing[ref.iface];
        if exists' && ref !in owned { return Err(Conflict); }
        if !exists' { toAdd := toAdd + [ref]; }
      }
      assert refs[..|refs|] == refs;
      return Ok(toAdd);
    }

    /** Save the intent to add these addresses, unless all of them are listed already. The save races,
        and the trace stops being good, exactly when an address it newly lists is on the host by then. */
    method ListIntent(ghost refs: seq<AddressRef>, toAdd: seq<AddressRef>, before: Ownership) returns (ok: bool)
      requires host.Sound() && host.saved == before
      requires Elements(toAdd) <= Elements(refs) <= AddressSet(before) + Elements(toAdd)
      requires !host.meddled ==> Elements(toAdd) * AddressSet(before) !! host.addresses
      modifies host
      ensures host.Sound() && old(host.trace) <= host.trace && Fewer(old(host.State()), host.State())
      ensures NoAdds(host.trace, |old(host.trace)|) && host.checks == old(host.checks)
      ensures old(host.meddled) ==> host.meddled
      ensures host.raced <==> old(host.raced) || (ok && !((Elements(toAdd) - AddressSet(before)) !! host.addresses))
      ensures !old(host.raced) && !host.meddled ==>
                (AllGood(host.trace) <==> !ok || Elements(toAdd) !! host.addresses)
      ensures ok && !host.raced && !host.meddled ==> Elements(toAdd) !! host.addresses
      ensures if ok then AddressSet(host.saved) == AddressSet(before) + Elements(toAdd)
                         && host.saved.routes == before.routes else host.saved == before
      ensures Elements(toAdd) <= AddressSet(before) ==>
                ok && host.State() == old(host.State()) && host.trace == old(host.trace)
      ensures !host.crowded ==>
                && host.addresses == old(host.addresses) && host.routes == old(host.routes)
                && host.ours == old(host.ours) && host.ourRoutes == old(host.ourRoutes)
                && |host.trace| <= |old(host.trace)| + 1 && host.meddled == old(host.meddled)
      ensures !host.faulty ==> (ok <==> Named(refs))
    {
      hide ValidOwnership, AllGood, NoneRaced, AddressSet, Elements, Host.Sound;
      SoundMeans();
      var intent := AddOwned(before, toAdd);
      NamedMeansValid(before, refs, toAdd, intent);
      ok := true;
      if intent != before {
        ok := host.Save(intent);
      }
      SoundMeans();
    }

    /** The ownership list extended by the addresses it does not hold yet. */
    static method AddOwned(before: Ownership, toAdd: seq<AddressRef>) returns (intent: Ownership)
      ensures intent.routes == before.routes
      ensures AddressSet(intent) == AddressSet(before) + Elements(toAdd)
      ensures Distinct(before.addresses) ==>
                Distinct(intent.addresses)
      ensures Elements(toAdd) <= AddressSet(before) ==> intent == before
    {
      intent := before;
      for i := 0 to |toAdd|
        invariant intent.routes == before.routes
        invariant AddressSet(intent) == AddressSet(before) + Elements(toAdd[..i])
        invariant Distinct(before.addresses) ==>
                    Distinct(intent.addresses)
        invariant Elements(toAdd) <= AddressSet(before) ==> intent == before
      {
        assert toAdd[i] in Elements(toAdd);
        assert toAdd[..i + 1] == toAdd[..i] + [toAdd[i]];
        assert Elements(toAdd[..i + 1]) == Elements(toAdd[..i]) + {toAdd[i]};
        if toAdd[i] !in intent.addresses {
          AddressSetGrows(intent, toAdd[i]);
          intent := intent.(addresses := intent.addresses + [toAdd[i]]);
        }
      }
      assert toAdd[..|toAdd|] == toAdd;
    }

    /** The kernel half: add the listed addresses, wait until they are ready, try to bind all. */
    method AddAndValidate(refs: seq<AddressRef>, toAdd: seq<AddressRef>, before: Ownership)
      returns (failures: seq<Failure>)
      requires host.Sound()
      requires Distinct(toAdd)
      requires AddressSet(host.saved) == AddressSet(before) + Elements(toAdd) && host.saved.routes == before.routes
      requires Elements(toAdd) !! host.ours && (!host.crowded ==> Elements(toAdd) !! host.addresses)
      modifies host
      ensures host.Sound() && old(host.trace) <= host.trace && host.raced == old(host.raced)
      ensures old(host.checks) <= host.checks
      ensures failures == [] ==>
                && AllPassed(host.checks, |old(host.checks)|)
                && (forall r :: r in Elements(refs) ==>
                                  Bindable(host.checks, |old(host.checks)|, host.trace, r, false))
                && (forall r :: r in Elements(toAdd) <==> AddedSince(host.trace, |old(host.trace)|, OfAddress(r)))
                && (forall r :: r in Elements(toAdd) ==> Ready(host.checks, |old(host.checks)|, host.trace, r))
      ensures !host.crowded ==> Placed(old(host.State()), host.State(), before, Elements(toAdd), failures)
      ensures !host.crowded && !host.faulty ==> failures == []
      ensures !host.crowded && !host.faulty && toAdd == [] ==>
                host.State() == old(host.State()) && host.trace == old(host.trace)
    {
      hide ValidOwnership, AllGood, NoneRaced, RolledBack, Host.Sound, AddressSet, Elements, Distinct, Safe;
      hide AllPassed, Bindable, Ready, AddedSince, NoAdds;
      ghost var start, from, since := host.State(), |host.checks|, |host.trace|;
      NothingSince(host.trace);
      NoneAdded(host.trace);
      NonePassed(host.checks);
      var i := 0;
      NoElements(toAdd[..0]);
      while i < |toAdd|
        invariant 0 <= i <= |toAdd|
        invariant host.Sound() && old(host.trace) <= host.trace && host.saved == start.saved
                  && host.raced == old(host.raced)
        invariant (Elements(toAdd) - Elements(toAdd[..i])) !! host.ours
        invariant host.checks == old(host.checks)
        invariant forall r :: r in Elements(toAdd[..i]) <==> AddedSince(host.trace, since, OfAddress(r))
        invariant !host.crowded ==>
                  host.addresses == start.addresses + Elements(toAdd[..i]) && host.routes == start.routes
        invariant !host.crowded && i == 0 ==> host.trace == old(host.trace) && host.State() == start
      {
        var ref := toAdd[i];
        ElementsStep(toAdd, i);
        ghost var trace := host.trace;
        var added := host.AddAddress(ref);
        if !added {
          failures := UndoPlacing(start, host.State(), before, toAdd, i, AddFailed);
          return;
        }
        OneMoreAdded(trace, host.trace, since, OfAddress(ref));
        i := i + 1;
      }
      assert toAdd[..|toAdd|] == toAdd;
      if |toAdd| > 0 {
        ghost var trace := host.trace;
        var ready := host.WaitReady(toAdd);
        if !ready {
          failures := UndoPlacing(start, host.State(), before, toAdd, |toAdd|, WaitFailed);
          return;
        }
        OneMorePassed(old(host.checks), from, host.checks[from]);
        SameAdded(trace, host.trace, since);
        ReadyNow(old(host.checks), toAdd, host.trace);
      } else {
        EmptyElements(toAdd);
      }
      ghost var checks, trace := host.checks, host.trace;
      var valid := ValidateBindings(refs, false);
      ChecksStay(checks, host.checks, from, trace, host.trace);
      SameAdded(trace, host.trace, since);
      LaterBindable(checks, host.checks, from, host.trace);
      if !valid {
        failures := UndoPlacing(start, host.State(), before, toAdd, |toAdd|, BindFailed);
        return;
      }
      return [];
    }

    /** Roll back after the first `count` additions. */
    method UndoPlacing(ghost start: HostState, ghost middle: HostState, before: Ownership, toAdd: seq<AddressRef>,
                       count: nat, cause: Failure)
      returns (failures: seq<Failure>)
      requires host.Sound()
      requires count <= |toAdd| && Distinct(toAdd)
      requires AddressSet(host.saved) == AddressSet(before) + Elements(toAdd) && host.saved.routes == before.routes
      requires (Elements(toAdd) - Elements(toAdd[..count])) !! host.ours
      requires host.saved == start.saved && (!host.crowded ==> Elements(toAdd) !! start.addresses)
      requires !host.crowded ==>
                middle == host.State() && middle.addresses == start.addresses + Elements(toAdd[..count])
                && middle.routes == start.routes
      modifies host
      ensures host.Sound() && old(host.trace) <= host.trace && host.raced == old(host.raced)
      ensures host.checks == old(host.checks) && failures != []
      ensures !host.crowded ==> Placed(start, host.State(), before, Elements(toAdd), failures)
    {
      hide ValidOwnership, AllGood, NoneRaced, RolledBack, Placed, Host.Sound, AddressSet;
      failures := RollbackAddresses(before, toAdd[..count], cause);
      if !host.crowded {
        RolledBackIsPlaced(start, middle, host.State(), before, Elements(toAdd), Elements(toAdd[..count]), failures);
      }
    }

    lemma SoundMeans()
      requires host.Sound()
      ensures ValidOwnership(host.saved)
      ensures host.raced || host.meddled <==> !AllGood(host.trace)
      ensures host.raced <==> !NoneRaced(host.trace)
      ensures !host.raced && !host.meddled ==> Safe(host.State())
      ensures host.ours <= host.addresses && host.ourRoutes <= host.routes
    {
    }

    method ValidateBindings(refs: seq<AddressRef>, freebind: bool) returns (valid: bool)
      requires host.Sound()
      modifies host`addresses, host`routes, host`ours, host`ourRoutes, host`trace, host`meddled, host`checks
      ensures host.Sound() && old(host.trace) <= host.trace && Fewer(old(host.State()), host.State())
      ensures NoAdds(host.trace, |old(host.trace)|)
      ensures old(host.meddled) ==> host.meddled
      ensures !host.meddled ==> (host.addresses - old(host.addresses)) !! AddressSet(host.saved)
                                && (host.routes - old(host.routes)) !! RouteSet(host.saved)
      ensures !host.crowded ==> host.State() == old(host.State()) && host.trace == old(host.trace)
      ensures old(host.checks) <= host.checks
      ensures valid <==> AllPassed(host.checks, |old(host.checks)|)
      ensures valid ==>
                forall r :: r in Elements(refs) ==>
                              Bindable(host.checks, |old(host.checks)|, host.trace, r, freebind)
      ensures !host.faulty ==> valid
    {
      hide ValidOwnership, AllGood, NoneRaced, Host.Sound, Bindable, NoAdds, AllPassed, Elements;
      ghost var from, since := |host.checks|, |host.trace|;
      NoElements(refs[..0]);
      NothingSince(host.trace);
      NonePassed(host.checks);
      for i := 0 to |refs|
        invariant host.Sound() && old(host.trace) <= host.trace && Fewer(old(host.State()), host.State())
        invariant NoAdds(host.trace, |old(host.trace)|)
        invariant old(host.checks) <= host.checks && AllPassed(host.checks, from)
        invariant forall r :: r in Elements(refs[..i]) ==> Bindable(host.checks, from, host.trace, r, freebind)
        invariant old(host.meddled) ==> host.meddled
        invariant !host.meddled ==> (host.addresses - old(host.addresses)) !! AddressSet(host.saved)
                                    && (host.routes - old(host.routes)) !! RouteSet(host.saved)
        invariant !host.crowded ==> host.State() == old(host.State()) && host.trace == old(host.trace)
      {
        ghost var checks, trace := host.checks, host.trace;
        ElementsStep(refs, i);
        var bound := host.ValidateBindable(refs[i], freebind);
        OneMorePassed(checks, from, host.checks[|checks|]);
        NoneLater(trace, host.trace, since);
        if !bound { return false; }
        ChecksStay(checks, host.checks, from, trace, host.trace);
        BindableNow(checks, from, host.trace, refs[i], freebind);
      }
      assert refs[..|refs|] == refs;
      return true;
    }

    method ApplyLocalRoute(t: PrefixTemplate, refs: seq<AddressRef>) returns (failures: seq<Failure>)
      requires host.Sound()
      modifies host
      ensures host.Sound() && old(host.trace) <= host.trace
      ensures !host.crowded ==> host.raced == old(host.raced)
      ensures old(host.checks) <= host.checks
      ensures failures == [] ==>
                Checked(host.checks, |old(host.checks)|, host.trace, |old(host.trace)|, Elements(refs), true)
      ensures !host.crowded ==> AppliedRoute(old(host.State()), host.State(), RouteOf(t), failures)
      ensures !host.crowded && !host.faulty ==>
                (failures == [] <==> !Blank(t.iface) && RouteOf(t) !in ForeignRoutes(old(host.State())))
                && (failures != [] ==> host.State() == old(host.State()))
      ensures !host.crowded && !host.faulty && RouteOf(t) in old(host.routes) * RouteSet(old(host.saved)) ==>
                host.State() == old(host.State()) && host.trace == old(host.trace)
    {
      hide ValidOwnership, Host.Sound, AllPassed, Bindable, Ready, AddedSince, NoAdds;
      var loaded, before := host.Load();
      if !loaded { return [LoadFailed]; }
      var route := RouteOf(t);
      var owned := route in before.routes;
      var found, exists' := host.LocalRouteExists(route);
      if !found { return [CheckFailed]; }
      if exists' && !owned { return [Conflict]; }
      if owned { OwnedRouteIsNamed(before, t); }
      if !exists' && !owned {
        ghost var found' := host.trace;
        var saved := ListRoute(t, before);
        if !saved { return [SaveFailed]; }
        NoneLater(found', host.trace, |old(host.trace)|);
      }
      ghost var start, trace := host.State(), host.trace;
      failures := PutRoute(before, route, exists', refs);
      AddedOnlyLater(old(host.trace), trace, host.trace);
      if !host.crowded {
        RoutePlacedIsApplied(old(host.State()), start, host.State(), route, failures);
      }
    }

    /** Save the intent to add an unlisted route. The save races, and the trace stops being good,
        exactly when the route is on the host by then. */
    method ListRoute(t: PrefixTemplate, before: Ownership) returns (ok: bool)
      requires host.Sound() && host.saved == before && RouteOf(t) !in before.routes
      modifies host
      ensures host.Sound() && old(host.trace) <= host.trace && Fewer(old(host.State()), host.State())
      ensures NoAdds(host.trace, |old(host.trace)|) && host.checks == old(host.checks)
      ensures old(host.meddled) ==> host.meddled
      ensures host.raced <==> old(host.raced) || (ok && RouteOf(t) in host.routes)
      ensures !old(host.raced) && !host.meddled ==> (AllGood(host.trace) <==> !ok || RouteOf(t) !in host.routes)
      ensures if ok then host.saved.addresses == before.addresses
                         && RouteSet(host.saved) == RouteSet(before) + {RouteOf(t)} else host.saved == before
      ensures !host.crowded ==>
                && host.addresses == old(host.addresses) && host.routes == old(host.routes)
                && host.ours == old(host.ours) && host.ourRoutes == old(host.ourRoutes)
      ensures !host.faulty ==> (ok <==> !Blank(t.iface))
    {
      hide ValidOwnership, AllGood, NoneRaced, Host.Sound, RouteOf;
      SoundMeans();
      var route := RouteOf(t);
      var intent := before.(routes := before.routes + [route]);
      RouteSetGrows(before, route);
      NamedRouteIsValid(before, t);
      ok := host.Save(intent);
      SoundMeans();
    }

    /** The kernel half: add the listed route unless it is there, then try to bind. */
    method PutRoute(before: Ownership, route: RouteRef, exists': bool, refs: seq<AddressRef>)
      returns (failures: seq<Failure>)
      requires host.Sound()
      requires host.saved.addresses == before.addresses && route in RouteSet(host.saved)
      requires RouteSet(host.saved) == RouteSet(before) + {route}
      requires exists' ==> host.saved == before
      requires !exists' ==> route !in host.ourRoutes
      requires !host.crowded ==> (exists' <==> route in host.routes)
      modifies host
      ensures host.Sound() && old(host.trace) <= host.trace && host.raced == old(host.raced)
      ensures old(host.checks) <= host.checks
      ensures failures == [] ==>
                && AllPassed(host.checks, |old(host.checks)|)
                && (forall r :: r in Elements(refs) ==>
                                  Bindable(host.checks, |old(host.checks)|, host.trace, r, true))
                && (!exists' ==> AddedSince(host.trace, |old(host.trace)|, OfRoute(route)))
                && (forall r :: !AddedSince(host.trace, |old(host.trace)|, OfAddress(r)))
      ensures !host.crowded ==> RoutePlaced(old(host.State()), host.State(), before, route, failures)
      ensures !host.crowded && !host.faulty ==> failures == []
      ensures !host.crowded && !host.faulty && exists' ==>
                host.State() == old(host.State()) && host.trace == old(host.trace)
    {
      hide ValidOwnership, Host.Sound, RouteRolledBack, AllPassed, Bindable, AddedSince, NoAdds, Elements;
      ghost var start, since := host.State(), |host.trace|;
      NoneAdded(host.trace);
      var added := false;
      if !exists' {
        var put := host.AddLocalRoute(route);
        if !put {
          ghost var middle := host.State();
          failures := RollbackRoute(before, route, false, AddFailed);
          if !host.crowded {
            RouteRolledBackIsPlaced(start, middle, host.State(), before, route, {}, failures);
          }
          return;
        }
        OneMoreAdded(old(host.trace), host.trace, since, OfRoute(route));
        added := true;
      }
      ghost var trace := host.trace;
      var valid := ValidateBindings(refs, true);
      SameAdded(trace, host.trace, since);
      if !valid {
        ghost var middle := host.State();
        failures := RollbackRoute(before, route, added, BindFailed);
        if !host.crowded {
          RouteRolledBackIsPlaced(start, middle, host.State(), before, route, if added then {route} else {}, failures);
        }
        return;
      }
      return [];
    }

    method RollbackRoute(before: Ownership, route: RouteRef, added: bool, cause: Failure)
      returns (failures: seq<Failure>)
      requires host.Sound()
      requires host.saved.addresses == before.addresses
      requires RouteSet(before) <= RouteSet(host.saved) <= RouteSet(before) + {route}
      requires added ==> route in RouteSet(host.saved)
      requires !added && route in RouteSet(host.saved) && route !in RouteSet(before) ==> route !in host.ourRoutes
      requires !host.crowded && !added && route !in RouteSet(before) ==> route !in host.routes
      requires !host.crowded && added ==> route in host.routes
      modifies host
      ensures host.Sound() && old(host.trace) <= host.trace && host.raced == old(host.raced)
      ensures host.checks == old(host.checks) && failures != []
      ensures !host.crowded ==>
                RouteRolledBack(old(host.State()), host.State(), before, if added then {route} else {}, failures)
    {
      hide ValidOwnership, AllGood, NoneRaced;
      failures := [cause];
      var restored := before;
      if added {
        var removed := host.RemoveLocalRoute(route);
        if !removed {
          failures := failures + [RemoveFailed];
          if route !in restored.routes {
            restored := restored.(routes := restored.routes + [route]);
            assert RouteSet(restored) == RouteSet(before) + {route};
          }
        }
      }
      var saved := host.Save(restored);
      if !saved { failures := failures + [SaveFailed]; }
    }

    method Apply(t: PrefixTemplate, addresses: seq<Address>) returns (failures: seq<Failure>)
      requires host.Sound()
      modifies host
      ensures host.Sound() && old(host.trace) <= host.trace
      ensures !host.crowded ==> host.raced == old(host.raced)
      ensures old(host.checks) <= host.checks
      ensures failures == [] ==>
                Checked(host.checks, |old(host.checks)|, host.trace, |old(host.trace)|, RefSet(t, addresses),
                        t.mode == ModeLocalRouteFreebind)
      ensures !host.crowded ==> Applied(old(host.State()), host.State(), t, addresses, failures)
      ensures !host.crowded && !host.faulty ==> (failures == [] <==> Appliable(old(host.State()), t, addresses))
      ensures !host.crowded && !host.faulty && AlreadyApplied(old(host.State()), t, addresses) ==>
                host.State() == old(host.State()) && host.trace == old(host.trace)
    {
      var refs := AddressRefs(t, addresses);
      if refs.Err? { return [refs.error]; }
      NamedByTemplate(t, addresses, refs.value);
      hide ValidOwnership, Host.Sound, Blank, Prefix.Contains, AllPassed, Bindable, Ready, AddedSince, NoAdds;
      match t.mode {
        case ModeAddress => failures := ApplyAddresses(refs.value);
        case ModeLocalRouteFreebind => failures := ApplyLocalRoute(t, refs.value);
        case ModeExternal =>
          var valid := ValidateBindings(refs.value, false);
          NoneAddedSince(host.trace, |old(host.trace)|);
          failures := if valid then [] else [BindFailed];
        case OtherMode(_) => failures := [UnsupportedConfigMode];
      }
    }

    // ---- taking listed resources off the host ----

    /** One listed address: nothing to do when the dump did not show it. */
    method TakeOffAddress(ref: AddressRef, dump: Option<set<Address>>) returns (failures: seq<Failure>)
      requires host.Sound() && ref in AddressSet(host.saved)
      requires dump.Some? && ref.address !in dump.value ==>
                 ref !in host.ours && (!host.meddled || !host.crowded ==> ref !in host.addresses)
      modifies host`addresses, host`routes, host`ours, host`ourRoutes, host`trace, host`meddled
      ensures host.Sound() && old(host.trace) <= host.trace && Fewer(old(host.State()), host.State())
      ensures NoAdds(host.trace, |old(host.trace)|)
      ensures old(host.meddled) ==> host.meddled
      ensures failures == [] ==> ref !in host.ours && (!host.meddled || !host.crowded ==> ref !in host.addresses)
      ensures !host.meddled ==> (host.addresses - old(host.addresses)) !! AddressSet(host.saved)
      ensures !host.crowded ==>
                TakenOff(old(host.State()), host.State(), old(host.trace), host.trace,
                         if failures == [] then {ref} else {}, {})
      ensures !host.crowded && !host.faulty && dump.Some? && (ref.address in dump.value ==> ref in host.addresses) ==>
                failures == []
    {
      hide Host.Sound;
      if dump.None? { return [CheckFailed]; }
      if ref.address in dump.value {
        var removed := host.RemoveAddress(ref);
        if !removed { return [RemoveFailed]; }
      }
      return [];
    }

    /** Take listed addresses off the host and out of the list; what could not be removed stays listed. */
    method TakeOffAddresses(refs: seq<AddressRef>) returns (failures: seq<Failure>, left: Ownership)
      requires host.Sound()
      requires Elements(refs) <= AddressSet(host.saved) && Distinct(refs)
      modifies host`addresses, host`routes, host`ours, host`ourRoutes, host`trace, host`meddled
      ensures host.Sound() && old(host.trace) <= host.trace && Fewer(old(host.State()), host.State())
      ensures NoAdds(host.trace, |old(host.trace)|)
      ensures old(host.meddled) ==> host.meddled
      ensures left.routes == host.saved.routes
      ensures AddressSet(host.saved) - Elements(refs) <= AddressSet(left) <= AddressSet(host.saved)
      ensures (AddressSet(host.saved) - AddressSet(left)) !! host.ours
      ensures !host.meddled ==> (AddressSet(host.saved) - AddressSet(left)) !! host.addresses
      ensures failures == [] ==> AddressSet(left) == AddressSet(host.saved) - Elements(refs)
      ensures !host.crowded ==>
                TakenOff(old(host.State()), host.State(), old(host.trace), host.trace,
                         AddressSet(host.saved) - AddressSet(left), {})
      ensures !host.crowded && !host.faulty ==> failures == [] && ValidOwnership(left)
      ensures refs == [] ==> left == host.saved && failures == []
      ensures !host.crowded && refs == [] ==> host.State() == old(host.State()) && host.trace == old(host.trace)
    {
      hide ValidOwnership, Host.Sound, AddressSet, Elements, TakenOff, NoAdds;
      SoundMeans();
      failures, left := [], host.saved;
      ghost var start, since := host.State(), host.trace;
      var dumps := InterfaceAddressSets(refs);
      NoElements(refs[..0]);
      NothingTakenOff(start, since);
      assert AddressSet(host.saved) - AddressSet(left) == {};
      assert forall k :: 0 <= k < |refs| ==> refs[k] in AddressSet(host.saved) by { RefsAreListed(refs, host.saved); }
      for i := 0 to |refs|
        invariant host.Sound() && old(host.trace) <= host.trace && Fewer(old(host.State()), host.State())
        invariant NoAdds(host.trace, |old(host.trace)|)
        invariant old(host.meddled) ==> host.meddled
        invariant left.routes == host.saved.routes && (ValidOwnership(host.saved) ==> ValidOwnership(left))
        invariant AddressSet(host.saved) - Elements(refs[..i]) <= AddressSet(left) <= AddressSet(host.saved)
        invariant (AddressSet(host.saved) - AddressSet(left)) !! host.ours
        invariant !host.meddled ==> (AddressSet(host.saved) - AddressSet(left)) !! host.addresses
        invariant failures == [] ==> AddressSet(left) == AddressSet(host.saved) - Elements(refs[..i])
        invariant forall k :: i <= k < |refs| ==> refs[k] in AddressSet(host.saved)
        invariant forall k :: (i <= k < |refs| && refs[k].iface in dumps
                               && refs[k].address !in dumps[refs[k].iface]) ==>
                    refs[k] !in host.ours && (!host.meddled || !host.crowded ==> refs[k] !in host.addresses)
        invariant !host.crowded ==>
                  TakenOff(start, host.State(), since, host.trace, AddressSet(host.saved) - AddressSet(left), {})
        invariant !host.crowded ==> host.addresses == start.addresses - (AddressSet(host.saved) - AddressSet(left))
        invariant !host.crowded ==>
                  forall k :: (i <= k < |refs| && refs[k].iface in dumps
                               && refs[k].address in dumps[refs[k].iface]) ==> refs[k] in host.addresses
        invariant !host.crowded && !host.faulty ==> failures == []
        invariant refs == [] ==> left == host.saved && failures == []
        invariant !host.crowded && refs == [] ==> host.State() == old(host.State()) && host.trace == old(host.trace)
      {
        var ref := refs[i];
        ElementsStep(refs, i);
        ghost var middle, then', gone := host.State(), host.trace, AddressSet(host.saved) - AddressSet(left);
        var failed := TakeOffAddress(ref, if ref.iface in dumps then Some(dumps[ref.iface]) else None);
        NoneLater(then', host.trace, |since|);
        failures := failures + failed;
        if !host.crowded {
          TakenOffTwice(start, middle, host.State(), since, then', host.trace, gone, {},
                        if failed == [] then {ref} else {}, {});
        }
        NothingTwice<RouteRef>();
        if failed == [] { left := WithoutAddress(left, ref); }
        assert AddressSet(host.saved) - AddressSet(left) == gone + if failed == [] then {ref} else {};
        if !host.crowded {
          TakenOffMeans(start, host.State(), since, host.trace, AddressSet(host.saved) - AddressSet(left), {});
        }
      }
      assert refs[..|refs|] == refs;
    }

    /** One listed route, looked up first. */
    method TakeOffRoute(route: RouteRef) returns (failures: seq<Failure>)
      requires host.Sound() && route in RouteSet(host.saved)
      modifies host`addresses, host`routes, host`ours, host`ourRoutes, host`trace, host`meddled
      ensures host.Sound() && old(host.trace) <= host.trace && Fewer(old(host.State()), host.State())
      ensures NoAdds(host.trace, |old(host.trace)|)
      ensures old(host.meddled) ==> host.meddled
      ensures failures == [] ==> route !in host.ourRoutes && route !in host.routes
      ensures !host.meddled ==> (host.addresses - old(host.addresses)) !! AddressSet(host.saved)
                                && (host.routes - old(host.routes)) !! RouteSet(host.saved)
      ensures !host.crowded ==>
                TakenOff(old(host.State()), host.State(), old(host.trace), host.trace,
                         {}, if failures == [] then {route} else {})
      ensures !host.crowded && !host.faulty ==> failures == []
    {
      hide Host.Sound;
      var found, exists' := host.LocalRouteExists(route);
      if !found { return [CheckFailed]; }
      if exists' {
        var removed := host.RemoveLocalRoute(route);
        if !removed { return [RemoveFailed]; }
      }
      return [];
    }

    /** The same for routes, which are looked up one at a time. */
    method TakeOffRoutes(state: Ownership, refs: seq<RouteRef>) returns (failures: seq<Failure>, left: Ownership)
      requires host.Sound() && state.routes == host.saved.routes
      requires Elements(refs) <= RouteSet(host.saved) && Distinct(refs)
      modifies host`addresses, host`routes, host`ours, host`ourRoutes, host`trace, host`meddled
      ensures host.Sound() && old(host.trace) <= host.trace && Fewer(old(host.State()), host.State())
      ensures NoAdds(host.trace, |old(host.trace)|)
      ensures old(host.meddled) ==> host.meddled
      ensures !host.meddled ==> (host.addresses - old(host.addresses)) !! AddressSet(host.saved)
      ensures left.addresses == state.addresses
      ensures RouteSet(host.saved) - Elements(refs) <= RouteSet(left) <= RouteSet(host.saved)
      ensures (RouteSet(host.saved) - RouteSet(left)) !! host.ourRoutes
      ensures !host.meddled ==> (RouteSet(host.saved) - RouteSet(left)) !! host.routes
      ensures failures == [] ==> RouteSet(left) == RouteSet(host.saved) - Elements(refs)
      ensures !host.crowded ==>
                TakenOff(old(host.State()), host.State(), old(host.trace), host.trace,
                         {}, RouteSet(host.saved) - RouteSet(left))
      ensures !host.crowded && !host.faulty ==> failures == [] && (ValidOwnership(state) ==> ValidOwnership(left))
      ensures refs == [] ==> left == state && failures == []
      ensures !host.crowded && refs == [] ==> host.State() == old(host.State()) && host.trace == old(host.trace)
    {
      hide ValidOwnership, Host.Sound, RouteSet, Elements, TakenOff;
      failures, left := [], state;
      ghost var start, since := host.State(), host.trace;
      NoElements(refs[..0]);
      NothingTakenOff(start, since);
      SameRouteSet(state, host.saved);
      assert RouteSet(host.saved) - RouteSet(left) == {};
      for i := 0 to |refs|
        invariant host.Sound() && old(host.trace) <= host.trace && Fewer(old(host.State()), host.State())
        invariant NoAdds(host.trace, |old(host.trace)|)
        invariant old(host.meddled) ==> host.meddled
        invariant !host.meddled ==> (host.addresses - old(host.addresses)) !! AddressSet(host.saved)
        invariant left.addresses == state.addresses && (ValidOwnership(state) ==> ValidOwnership(left))
        invariant RouteSet(host.saved) - Elements(refs[..i]) <= RouteSet(left) <= RouteSet(host.saved)
        invariant (RouteSet(host.saved) - RouteSet(left)) !! host.ourRoutes
        invariant !host.meddled ==> (RouteSet(host.saved) - RouteSet(left)) !! host.routes
        invariant failures == [] ==> RouteSet(left) == RouteSet(host.saved) - Elements(refs[..i])
        invariant !host.crowded ==>
                  TakenOff(start, host.State(), since, host.trace, {}, RouteSet(host.saved) - RouteSet(left))
        invariant !host.crowded && !host.faulty ==> failures == []
        invariant refs == [] ==> left == state && failures == []
        invariant !host.crowded && refs == [] ==> host.State() == old(host.State()) && host.trace == old(host.trace)
      {
        var ref := refs[i];
        ElementsStep(refs, i);
        ghost var middle, then', gone := host.State(), host.trace, RouteSet(host.saved) - RouteSet(left);
        var failed := TakeOffRoute(ref);
        failures := failures + failed;
        if !host.crowded {
          TakenOffTwice(start, middle, host.State(), since, then', host.trace, {}, gone,
                        {}, if failed == [] then {ref} else {});
        }
        NothingTwice<AddressRef>();
        if failed == [] { left := WithoutRoute(left, ref); }
        assert RouteSet(host.saved) - RouteSet(left) == gone + if failed == [] then {ref} else {};
      }
      assert refs[..|refs|] == refs;
    }

    /** Everything listed that is not to be kept leaves the host and the list. */
    method RemoveStale(keep: set<AddressRef>, keepRoutes: set<RouteRef>) returns (failures: seq<Failure>)
      requires host.Sound()
      modifies host
      ensures host.Sound() && old(host.trace) <= host.trace && host.raced == old(host.raced)
      ensures NoAdds(host.trace, |old(host.trace)|) && host.checks == old(host.checks)
      ensures !host.crowded ==> KeptOnly(old(host.State()), host.State(), keep, keepRoutes, failures)
      ensures !host.crowded ==> RemovalsShown(old(host.State()), host.State(), old(host.trace), host.trace)
      ensures !host.crowded && !host.faulty ==> failures == []
      ensures !host.crowded && AddressSet(old(host.saved)) <= keep && RouteSet(old(host.saved)) <= keepRoutes ==>
                host.State() == old(host.State()) && host.trace == old(host.trace)
    {
      hide AllGood, NoneRaced, RemovalsShown;
      var loaded, state := host.Load();
      if !loaded {
        RemovalsOfNothing(host.State(), host.trace);
        return [LoadFailed];
      }
      var stale := Stale(state.addresses, keep);
      var staleRoutes := Stale(state.routes, keepRoutes);
      failures := TakeOff(stale, staleRoutes);
      hide ValidOwnership, Host.Sound;
      KeepingMore(old(host.State()), host.State(), Elements(stale), Elements(staleRoutes), keep, keepRoutes, failures);
      if AddressSet(state) <= keep && RouteSet(state) <= keepRoutes {
        EmptyElements(stale);
        EmptyElements(staleRoutes);
      }
    }

    /** Both kinds leave the host; the list is saved once, and only when it changed. */
    method TakeOff(refs: seq<AddressRef>, routes: seq<RouteRef>) returns (failures: seq<Failure>)
      requires host.Sound()
      requires Elements(refs) <= AddressSet(host.saved) && Distinct(refs)
      requires Elements(routes) <= RouteSet(host.saved) && Distinct(routes)
      modifies host
      ensures host.Sound() && old(host.trace) <= host.trace && host.raced == old(host.raced)
      ensures NoAdds(host.trace, |old(host.trace)|) && host.checks == old(host.checks)
      ensures !host.crowded ==>
                KeptOnly(old(host.State()), host.State(), AddressSet(old(host.saved)) - Elements(refs),
                         RouteSet(old(host.saved)) - Elements(routes), failures)
      ensures !host.crowded ==> RemovalsShown(old(host.State()), host.State(), old(host.trace), host.trace)
      ensures !host.crowded && !host.faulty ==> failures == []
      ensures !host.crowded && refs == [] && routes == [] ==>
                host.State() == old(host.State()) && host.trace == old(host.trace)
    {
      hide ValidOwnership, Host.Sound, TakenOff, RemovalsShown;
      ghost var state := host.saved;
      ghost var start, since := host.State(), host.trace;
      var left: Ownership;
      failures, left := TakeOffAddresses(refs);
      ghost var middle, then', gone := host.State(), host.trace, AddressSet(host.saved) - AddressSet(left);
      var more: seq<Failure>;
      more, left := TakeOffRoutes(left, routes);
      ghost var last, now, goneRoutes := host.State(), host.trace, RouteSet(host.saved) - RouteSet(left);
      if !host.crowded {
        TakenOffTwice(start, middle, last, since, then', now, gone, {}, {}, goneRoutes);
        TakenOffMeans(start, last, since, now, gone + {}, {} + goneRoutes);
      }
      failures := failures + more;
      if left != host.saved {
        var saved := host.Save(left);
        if !saved { failures := failures + [SaveFailed]; }
      }
      if !host.crowded { RemovalsStayShown(start, last, host.State(), since, now, host.trace); }
    }

    static method AllOwned(refs: seq<AddressRef>, state: Ownership) returns (owned: bool)
      ensures owned <==> Elements(refs) <= AddressSet(state)
    {
      for i := 0 to |refs|
        invariant Elements(refs[..i]) <= AddressSet(state)
      {
        ElementsStep(refs, i);
        if refs[i] !in state.addresses { return false; }
      }
      assert refs[..|refs|] == refs;
      return true;
    }

    /** Give up a template's addresses or route; every one of them must be owned. */
    method Release(t: PrefixTemplate, addresses: seq<Address>) returns (failures: seq<Failure>)
      requires host.Sound()
      modifies host
      ensures host.Sound() && old(host.trace) <= host.trace && host.raced == old(host.raced)
      ensures !host.crowded ==>
                KeptOnly(old(host.State()), host.State(), AddressSet(old(host.saved)) - OwnAddresses(t, addresses),
                         RouteSet(old(host.saved)) - OwnRoutes(t), failures)
      ensures !host.crowded && !host.faulty ==>
                (failures == [] <==>
                  && ValidMode(t.mode) && (t.mode == ModeAddress ==> RefsDefined(t, addresses))
                  && OwnAddresses(t, addresses) <= AddressSet(old(host.saved))
                  && OwnRoutes(t) <= RouteSet(old(host.saved)))
      ensures !host.crowded && !host.faulty && failures != [] ==>
                host.State() == old(host.State()) && host.trace == old(host.trace)
    {
      hide ValidOwnership, Host.Sound, Prefix.Contains;
      match t.mode {
        case ModeAddress =>
          var refs := AddressRefs(t, addresses);
          if refs.Err? { return [refs.error]; }
          var loaded, state := host.Load();
          if !loaded { return [LoadFailed]; }
          var owned := AllOwned(refs.value, state);
          if !owned { return [NotOwned]; }
          failures := TakeOff(refs.value, []);
        case ModeLocalRouteFreebind =>
          var loaded, state := host.Load();
          if !loaded { return [LoadFailed]; }
          if RouteOf(t) !in state.routes { return [NotOwned]; }
          failures := TakeOff([], [RouteOf(t)]);
        case ModeExternal => failures := [];
        case OtherMode(_) => failures := [UnsupportedConfigMode];
      }
    }

    /** Without a failure nothing of the program's own is left on the host or in the list. */
    method Shutdown() returns (failures: seq<Failure>)
      requires host.Sound()
      modifies host
      ensures host.Sound() && old(host.trace) <= host.trace && host.raced == old(host.raced)
      ensures !host.crowded ==> SameForeign(old(host.State()), host.State())
      ensures !host.crowded && failures == [] ==>
                Realises(host.State(), {}, {}) && ForeignAddresses(host.State()) == host.addresses
                && ForeignRoutes(host.State()) == host.routes
      ensures !host.crowded && !old(host.raced) && !old(host.meddled) && failures == [] ==>
                host.addresses == old(host.addresses - host.ours) && host.routes == old(host.routes - host.ourRoutes)
      ensures !host.crowded && !host.faulty ==> failures == []
    {
      hide ValidOwnership, AllGood, NoneRaced;
      if !host.raced && !host.meddled { ForeignIsNotOurs(host.State()); }
      failures := RemoveStale({}, {});
    }

    /** The sets a desired list names; an error stops everything before the host is touched. */
    static method Desire(desired: seq<DesiredResource>) returns (r: Result<(set<AddressRef>, set<RouteRef>), Failure>)
      ensures r.Ok? <==> WellFormed(desired)
      ensures r.Ok? ==> r.value == (DesiredAddresses(desired), DesiredRoutes(desired))
    {
      hide RefsDefined, RefSet, RouteOf;
      var addresses: set<AddressRef>, routes: set<RouteRef> := {}, {};
      for i := 0 to |desired|
        invariant WellFormed(desired[..i])
        invariant addresses == DesiredAddresses(desired[..i]) && routes == DesiredRoutes(desired[..i])
      {
        DesiredStep(desired, i);
        var t := desired[i].template;
        var refs := AddressRefs(t, desired[i].addresses);
        if refs.Err? {
          assert !Defined(desired[i]);
          return Err(refs.error);
        }
        match t.mode {
          case ModeAddress =>
            addresses := addresses + set ref | ref in refs.value;
            assert (set ref | ref in refs.value) == RefSet(t, desired[i].addresses);
          case ModeLocalRouteFreebind => routes := routes + {RouteOf(t)};
          case ModeExternal =>
          case OtherMode(_) =>
            assert !Defined(desired[i]);
            return Err(UnsupportedConfigMode);
        }
      }
      assert desired[..|desired|] == desired;
      return Ok((addresses, routes));
    }

    method ApplyAll(desired: seq<DesiredResource>) returns (failures: seq<Failure>)
      requires host.Sound()
      modifies host
      ensures host.Sound() && old(host.trace) <= host.trace
      ensures !host.crowded ==> host.raced == old(host.raced)
      ensures old(host.checks) <= host.checks
      ensures failures == [] ==>
                AllChecked(host.checks, |old(host.checks)|, host.trace, |old(host.trace)|, DesiredRefs(desired))
      ensures !host.crowded ==>
                AllApplied(old(host.State()), host.State(), DesiredAddresses(desired), DesiredRoutes(desired), failures)
      ensures !host.crowded && !host.faulty ==> (failures == [] <==> AllAppliable(old(host.State()), desired))
      ensures !host.crowded && !host.faulty
              && Carries(old(host.State()), DesiredAddresses(desired), DesiredRoutes(desired)) ==>
                host.State() == old(host.State()) && host.trace == old(host.trace)
    {
      hide ValidOwnership, Host.Sound, AllApplied, AllAppliable, Applied, Appliable, AlreadyApplied, Carries;
      hide Checked, AllChecked, NoAdds, DesiredRefs, RefSet;
      ghost var start, from, since := host.State(), |host.checks|, |host.trace|;
      NothingSince(host.trace);
      NothingChecked(host.checks, host.trace, since);
      NoDesiredRefs(desired[..0]);
      failures := [];
      NothingApplied(start, desired[..0]);
      for i := 0 to |desired|
        invariant host.Sound() && old(host.trace) <= host.trace
        invariant old(host.checks) <= host.checks
        invariant failures == [] ==> AllChecked(host.checks, from, host.trace, since, DesiredRefs(desired[..i]))
        invariant !host.crowded ==> host.raced == old(host.raced)
        invariant !host.crowded ==>
                  AllApplied(start, host.State(), DesiredAddresses(desired[..i]), DesiredRoutes(desired[..i]), failures)
        invariant !host.crowded && !host.faulty ==> (failures == [] <==> AllAppliable(start, desired[..i]))
        invariant !host.crowded && !host.faulty && Carries(start, DesiredAddresses(desired), DesiredRoutes(desired)) ==>
                    host.State() == start && host.trace == old(host.trace)
      {
        ghost var middle, checks, trace := host.State(), host.checks, host.trace;
        var failed := Apply(desired[i].template, desired[i].addresses);
        if !host.crowded {
          AppliedStep(start, middle, host.State(), desired, i, failures, failed);
          CarriedIsApplied(start, desired, i);
        }
        if failures == [] && failed == [] {
          DesiredRefsStep(desired, i);
          CheckedStep(checks, host.checks, from, trace, host.trace, since, DesiredRefs(desired[..i]),
                      RefSet(desired[i].template, desired[i].addresses),
                      desired[i].template.mode == ModeLocalRouteFreebind);
        }
        failures := failures + failed;
      }
      assert desired[..|desired|] == desired;
    }

    /** Brings the host to the desired set.
        Whatever the state it starts from: without a failure the host realises exactly the desired
        set; when no call fails, there is no failure exactly when the list is well formed and nothing
        foreign is in the way; a host that already realises it is not touched; and what the program
        did not put there never changes. */
    method Reconcile(desired: seq<DesiredResource>) returns (failures: seq<Failure>)
      requires host.Sound()
      modifies host
      ensures host.Sound() && old(host.trace) <= host.trace
      ensures !host.crowded ==> host.raced == old(host.raced)
      ensures !host.crowded ==> RemovalsShown(old(host.State()), host.State(), old(host.trace), host.trace)
      ensures !host.crowded && !host.faulty && WellFormed(desired) ==>
                && (old(host.addresses) * AddressSet(old(host.saved)) - DesiredAddresses(desired)) !! host.addresses
                && (old(host.routes) * RouteSet(old(host.saved)) - DesiredRoutes(desired)) !! host.routes
      ensures !host.crowded ==> SameForeign(old(host.State()), host.State())
      ensures old(host.checks) <= host.checks
      ensures failures == [] ==>
                AllChecked(host.checks, |old(host.checks)|, host.trace, |old(host.trace)|, DesiredRefs(desired))
      ensures failures == [] ==> WellFormed(desired)
      ensures !host.crowded && failures == [] ==>
                Realises(host.State(), DesiredAddresses(desired), DesiredRoutes(desired))
      ensures !host.crowded && !host.faulty ==>
                (failures == [] <==> WellFormed(desired) && AllAppliable(old(host.State()), desired))
      ensures !host.crowded && !host.faulty
              && Realises(old(host.State()), DesiredAddresses(desired), DesiredRoutes(desired)) ==>
                host.State() == old(host.State()) && host.trace == old(host.trace)
      ensures !WellFormed(desired) ==> host.State() == old(host.State()) && host.trace == old(host.trace)
    {
      hide ValidOwnership, Host.Sound, RemovalsShown, AllAppliable, KeptOnly, AllApplied, WellFormed, DesiredAddresses;
      hide DesiredRoutes, Realises, SameForeign, Carries, AllChecked, NoAdds, DesiredRefs;
      var sets := Desire(desired);
      if sets.Err? {
        SameForeignReflexive(host.State());
        RemovalsOfNothing(host.State(), host.trace);
        return [sets.error];
      }
      ghost var start := host.State();
      var stale := RemoveStale(sets.value.0, sets.value.1);
      ghost var middle, then' := host.State(), host.trace;
      var failed := ApplyAll(desired);
      failures := stale + failed;
      if failed == [] {
        CheckedFromStart(host.checks, |old(host.checks)|, old(host.trace), then', host.trace, DesiredRefs(desired));
      }
      if !host.crowded {
        AppliedOnlyGrows(middle, host.State(), sets.value.0, sets.value.1, failed);
        RemovalsStayShown(start, middle, host.State(), old(host.trace), then', host.trace);
        if stale == [] { StaleStaysAway(start, middle, host.State(), sets.value.0, sets.value.1, failed); }
        ReconciledFromParts(start, middle, host.State(), sets.value.0, sets.value.1, stale, failed);
        AppliableByForeign(start, middle, desired);
      }
    }

    static method Stale<T(==, !new)>(refs: seq<T>, keep: set<T>) returns (stale: seq<T>)
      requires Distinct(refs)
      ensures Elements(stale) == Elements(refs) - keep && Distinct(stale)
    {
      stale := [];
      for i := 0 to |refs|
        invariant Elements(stale) == Elements(refs[..i]) - keep && Distinct(stale)
      {
        ElementsStep(refs, i);
        if refs[i] !in keep {
          assert refs[i] !in Elements(stale);
          AppendKeepsDistinct(stale, refs[i]);
          stale := stale + [refs[i]];
        }
      }
      assert refs[..|refs|] == refs;
    }
  }

  // ---- which removals a trace shows ----

  /** Everything that left the host was taken off it by a recorded removal, and the record says
      whether the program had added it. */
  ghost predicate RemovalsShown(before: HostState, after: HostState, since: seq<Moment>, now: seq<Moment>) {
    since <= now && forall x :: Present(before, x) && !Present(after, x) ==> Removed(now, |since|, x, Ours(before, x))
  }

  /** Exactly these addresses and routes left the host, and nothing else changed. */
  ghost predicate TakenOff(before: HostState, after: HostState, since: seq<Moment>, now: seq<Moment>,
                           gone: set<AddressRef>, goneRoutes: set<RouteRef>) {
    && after.addresses == before.addresses - gone && after.routes == before.routes - goneRoutes
    && (forall x :: Present(after, x) ==> (Ours(after, x) <==> Ours(before, x)))
    && RemovalsShown(before, after, since, now)
  }

  lemma RemovalsOfNothing(h: HostState, trace: seq<Moment>)
    ensures RemovalsShown(h, h, trace, trace)
  {
  }

  lemma NothingTakenOff(h: HostState, trace: seq<Moment>)
    ensures TakenOff(h, h, trace, trace, {}, {})
  {
  }

  lemma TakenOffMeans(before: HostState, after: HostState, since: seq<Moment>, now: seq<Moment>,
                      gone: set<AddressRef>, goneRoutes: set<RouteRef>)
    requires TakenOff(before, after, since, now, gone, goneRoutes)
    ensures after.addresses == before.addresses - gone && after.routes == before.routes - goneRoutes
            && RemovalsShown(before, after, since, now)
  {
    hide RemovalsShown;
  }

  lemma TakenOffTwice(x: HostState, y: HostState, z: HostState, first: seq<Moment>, second: seq<Moment>,
                      third: seq<Moment>, some: set<AddressRef>, someRoutes: set<RouteRef>,
                      more: set<AddressRef>, moreRoutes: set<RouteRef>)
    requires TakenOff(x, y, first, second, some, someRoutes) && TakenOff(y, z, second, third, more, moreRoutes)
    ensures TakenOff(x, z, first, third, some + more, someRoutes + moreRoutes)
  {
    hide Removed;
    forall r | Present(z, r) ensures Ours(z, r) <==> Ours(x, r) {
      assert Present(y, r);
    }
    forall r | Present(x, r) && !Present(z, r) ensures Removed(third, |first|, r, Ours(x, r)) {
      if Present(y, r) {
        LaterRemoval(third, |first|, |second|, r, Ours(x, r));
      } else {
        RemovedStays(second, third, |first|, r, Ours(x, r));
      }
    }
  }

  lemma NothingTwice<T>()
    ensures var none: set<T> := {};
      none + none == none
  {
  }

  lemma LaterRemoval(trace: seq<Moment>, from: nat, later: nat, x: Resource, addedByUs: bool)
    requires from <= later && Removed(trace, later, x, addedByUs)
    ensures Removed(trace, from, x, addedByUs)
  {
  }

  /** What happens later without a removal does not hide the removals so far. */
  lemma RemovalsStayShown(x: HostState, y: HostState, z: HostState, first: seq<Moment>, second: seq<Moment>,
                          third: seq<Moment>)
    requires RemovalsShown(x, y, first, second) && second <= third
    requires y.addresses <= z.addresses && y.routes <= z.routes
    ensures RemovalsShown(x, z, first, third)
  {
    hide Removed;
    forall r | Present(x, r) && !Present(z, r) ensures Removed(third, |first|, r, Ours(x, r)) {
      assert !Present(y, r);
      RemovedStays(second, third, |first|, r, Ours(x, r));
    }
  }

  lemma AppliedOnlyGrows(before: HostState, after: HostState, addresses: set<AddressRef>, routes: set<RouteRef>,
                         failures: seq<Failure>)
    requires AllApplied(before, after, addresses, routes, failures)
    ensures before.addresses <= after.addresses && before.routes <= after.routes
  {
  }

  /** What is listed and not desired leaves and does not come back. */
  lemma StaleStaysAway(start: HostState, middle: HostState, after: HostState, addresses: set<AddressRef>,
                       routes: set<RouteRef>, failed: seq<Failure>)
    requires KeptOnly(start, middle, addresses, routes, []) && AllApplied(middle, after, addresses, routes, failed)
    ensures (start.addresses * AddressSet(start.saved) - addresses) !! after.addresses
    ensures (start.routes * RouteSet(start.saved) - routes) !! after.routes
  {
    forall r | r in start.routes * RouteSet(start.saved) - routes ensures r !in after.routes {
      assert r !in RouteSet(middle.saved) && r !in RouteSet(after.saved);
      assert r !in ForeignRoutes(start) && r !in ForeignRoutes(middle) && r !in ForeignRoutes(after);
    }
    forall r | r in start.addresses * AddressSet(start.saved) - addresses ensures r !in after.addresses {
      assert r !in AddressSet(middle.saved) && r !in AddressSet(after.saved);
      assert r !in ForeignAddresses(start) && r !in ForeignAddresses(middle) && r !in ForeignAddresses(after);
    }
  }

  // ---- why outsiders matter while an intent is being saved ----

  lemma OneReference(ref: AddressRef)
    ensures Distinct([ref]) && Elements([ref]) == {ref} && (Named([ref]) <==> !Blank(ref.iface))
  {
    assert ref in [ref];
  }

  /** Only the last moment made the difference. */
  lemma TurnedAtTheEnd(before: seq<Moment>, after: seq<Moment>)
    requires before <= after && |after| <= |before| + 1
    requires AllGood(before) && NoneRaced(before) && !AllGood(after) && !NoneRaced(after)
    ensures |after| == |before| + 1 && after[..|before|] == before
    ensures !Good(after[|before|]) && Raced(after[|before|])
  {
    hide Good, Raced;
    assert |after| == |before| ==> after == before;
    assert after == before + [after[|before|]];
    OneMoreMoment(before, after[|before|]);
  }

  /** An outsider adds an unlisted address after apply found it absent and before apply saves its
      intent; the program stops there. The next process, with nobody else around and no call failing,
      takes the outsider's address off the host unless it is desired. */
  method IntentRace(host: Host, ref: AddressRef, desired: seq<DesiredResource>)
    returns (next: Host, ghost listedAt: nat)
    requires host.Sound() && !host.raced && !host.meddled && !host.faulty && !host.crowded
    requires ref !in host.addresses && ref !in AddressSet(host.saved) && !Blank(ref.iface)
    requires WellFormed(desired) && ref !in DesiredAddresses(desired)
    modifies host
    ensures fresh(next) && old(host.trace) <= host.trace <= next.trace
    ensures |old(host.trace)| <= listedAt < |host.trace|
    ensures AllGood(host.trace[..listedAt]) && !Good(host.trace[listedAt]) && Raced(host.trace[listedAt])
    ensures ref !in next.addresses && Removed(next.trace, |host.trace|, OfAddress(ref), false)
  {
    hide ValidOwnership, AllGood, NoneRaced, Good, Raced, Host.Sound, WellFormed, DesiredAddresses, DesiredRoutes;
    hide AllAppliable, Realises, SameForeign, Safe, Removed;
    var manager := new ResourceManager(host);
    manager.SoundMeans();
    var loaded, before := host.Load();
    OneReference(ref);
    var missing := manager.FindMissing([ref], before);
    assert ref in Elements(missing.value);
    host.Visit({ref}, {}, {}, {});
    manager.SoundMeans();
    ghost var since := host.trace;
    var listed := manager.ListIntent([ref], missing.value, before);
    manager.SoundMeans();
    assert ref in Elements(missing.value) - AddressSet(before);
    listedAt := |since|;
    TurnedAtTheEnd(since, host.trace);
    next := new Host.Restart(host, false, false);
    assert Present(next.State(), OfAddress(ref)) && !Ours(next.State(), OfAddress(ref));
    var successor := new ResourceManager(next);
    var failures := successor.Reconcile(desired);
    assert !Present(next.State(), OfAddress(ref));
  }

  /** The host after stale resources were taken off: only listed ones outside `keep` may have left,
      and without a failure all of them did. */
  ghost predicate KeptOnly(before: HostState, after: HostState, keep: set<AddressRef>, keepRoutes: set<RouteRef>,
                           failures: seq<Failure>) {
    && SameForeign(before, after)
    && AddressSet(before.saved) * keep <= AddressSet(after.saved) <= AddressSet(before.saved)
    && RouteSet(before.saved) * keepRoutes <= RouteSet(after.saved) <= RouteSet(before.saved)
    && before.addresses * keep <= after.addresses <= before.addresses
    && before.routes * keepRoutes <= after.routes <= before.routes
    && (failures == [] ==> AddressSet(after.saved) == AddressSet(before.saved) * keep
                           && RouteSet(after.saved) == RouteSet(before.saved) * keepRoutes)
  }

  // ---- reconciling, from parts ----

  ghost predicate Defined(d: DesiredResource) { RefsDefined(d.template, d.addresses) && ValidMode(d.template.mode) }

  ghost function OwnAddresses(t: PrefixTemplate, addresses: seq<Address>): set<AddressRef> {
    if t.mode == ModeAddress then RefSet(t, addresses) else {}
  }

  function OwnRoutes(t: PrefixTemplate): set<RouteRef> {
    if t.mode == ModeLocalRouteFreebind then {RouteOf(t)} else {}
  }

  lemma DesiredStep(desired: seq<DesiredResource>, i: nat)
    requires i < |desired|
    ensures DesiredAddresses(desired[..i + 1])
            == DesiredAddresses(desired[..i]) + OwnAddresses(desired[i].template, desired[i].addresses)
    ensures DesiredRoutes(desired[..i + 1]) == DesiredRoutes(desired[..i]) + OwnRoutes(desired[i].template)
    ensures WellFormed(desired[..i + 1]) <==> WellFormed(desired[..i]) && Defined(desired[i])
    ensures WellFormed(desired) ==> Defined(desired[i])
    ensures OwnAddresses(desired[i].template, desired[i].addresses) <= DesiredAddresses(desired)
    ensures OwnRoutes(desired[i].template) <= DesiredRoutes(desired)
  {
    hide RefsDefined, RouteOf;
    var d := desired[..i + 1];
    assert d[i] == desired[i] && d[..i] == desired[..i];
    forall r | r in DesiredAddresses(d)
      ensures r in DesiredAddresses(desired[..i]) + OwnAddresses(desired[i].template, desired[i].addresses)
    {
      var j, a :| 0 <= j < |d| && d[j].template.mode == ModeAddress && a in d[j].addresses
                  && r == AddressRef(d[j].template.iface, a);
      assert j < i ==> desired[..i][j] == d[j];
    }
    forall r | r in DesiredAddresses(desired[..i]) ensures r in DesiredAddresses(d) {
      var j, a :| 0 <= j < i && desired[..i][j].template.mode == ModeAddress && a in desired[..i][j].addresses
                  && r == AddressRef(desired[..i][j].template.iface, a);
      assert d[j] == desired[..i][j];
    }
    forall r | r in DesiredRoutes(d) ensures r in DesiredRoutes(desired[..i]) + OwnRoutes(desired[i].template) {
      var j :| 0 <= j < |d| && d[j].template.mode == ModeLocalRouteFreebind && r == RouteOf(d[j].template);
      assert j < i ==> desired[..i][j] == d[j];
    }
    forall r | r in DesiredRoutes(desired[..i]) ensures r in DesiredRoutes(d) {
      var j :| 0 <= j < i && desired[..i][j].template.mode == ModeLocalRouteFreebind
               && r == RouteOf(desired[..i][j].template);
      assert d[j] == desired[..i][j];
    }
  }

  /** All these are on the host and listed. */
  ghost predicate Carries(h: HostState, addresses: set<AddressRef>, routes: set<RouteRef>) {
    addresses <= h.addresses * AddressSet(h.saved) && routes <= h.routes * RouteSet(h.saved)
  }

  ghost predicate AllAppliable(h: HostState, desired: seq<DesiredResource>) {
    forall i :: 0 <= i < |desired| ==> Appliable(h, desired[i].template, desired[i].addresses)
  }

  /** The host only grew, by no more than the desired set, and by all of it when nothing failed. */
  ghost predicate AllApplied(before: HostState, after: HostState, addresses: set<AddressRef>, routes: set<RouteRef>,
                             failures: seq<Failure>) {
    && SameForeign(before, after)
    && before.addresses <= after.addresses && before.routes <= after.routes
    && AddressSet(before.saved) <= AddressSet(after.saved) <= AddressSet(before.saved) + addresses
    && RouteSet(before.saved) <= RouteSet(after.saved) <= RouteSet(before.saved) + routes
    && (failures == [] ==> Carries(after, addresses, routes))
  }

  lemma NothingApplied(h: HostState, none: seq<DesiredResource>)
    requires none == []
    ensures AllApplied(h, h, DesiredAddresses(none), DesiredRoutes(none), []) && AllAppliable(h, none)
  {
  }

  lemma AppliedStep(start: HostState, middle: HostState, after: HostState, desired: seq<DesiredResource>, i: nat,
                    failures: seq<Failure>, failed: seq<Failure>)
    requires i < |desired|
    requires AllApplied(start, middle, DesiredAddresses(desired[..i]), DesiredRoutes(desired[..i]), failures)
    requires Applied(middle, after, desired[i].template, desired[i].addresses, failed)
    ensures AllApplied(start, after, DesiredAddresses(desired[..i + 1]), DesiredRoutes(desired[..i + 1]),
                       failures + failed)
    ensures Appliable(middle, desired[i].template, desired[i].addresses)
            == Appliable(start, desired[i].template, desired[i].addresses)
    ensures AllAppliable(start, desired[..i + 1]) <==>
              AllAppliable(start, desired[..i]) && Appliable(start, desired[i].template, desired[i].addresses)
  {
    DesiredStep(desired, i);
    var t, addresses := desired[i].template, desired[i].addresses;
    hide RefsDefined, RefSet, RouteOf, DesiredAddresses, DesiredRoutes, Blank, Applied, AllApplied, Appliable;
    hide AllAppliable, OwnAddresses, OwnRoutes;
    OneApplied(middle, after, t, addresses, failed);
    AppliedTwice(start, middle, after, DesiredAddresses(desired[..i]), DesiredRoutes(desired[..i]),
                 OwnAddresses(t, addresses), OwnRoutes(t), failures, failed);
    AppliableStep(start, middle, desired, i);
  }

  lemma AppliedTwice(start: HostState, middle: HostState, after: HostState, some: set<AddressRef>,
                     someRoutes: set<RouteRef>,
                     more: set<AddressRef>, moreRoutes: set<RouteRef>, failures: seq<Failure>, failed: seq<Failure>)
    requires AllApplied(start, middle, some, someRoutes, failures)
             && AllApplied(middle, after, more, moreRoutes, failed)
    ensures AllApplied(start, after, some + more, someRoutes + moreRoutes, failures + failed)
    ensures SameForeign(start, middle)
  {
    assert failures + failed == [] ==> failures == [] && failed == [];
  }

  lemma AppliableStep(start: HostState, middle: HostState, desired: seq<DesiredResource>, i: nat)
    requires i < |desired| && SameForeign(start, middle)
    ensures Appliable(middle, desired[i].template, desired[i].addresses)
            == Appliable(start, desired[i].template, desired[i].addresses)
    ensures AllAppliable(start, desired[..i + 1]) <==>
              AllAppliable(start, desired[..i]) && Appliable(start, desired[i].template, desired[i].addresses)
  {
    hide RefsDefined, RefSet, RouteOf, Blank;
    var t, addresses := desired[i].template, desired[i].addresses;
    assert Appliable(middle, t, addresses) == Appliable(start, t, addresses);
    hide Appliable;
    assert desired[..i + 1] == desired[..i] + [desired[i]];
    if AllAppliable(start, desired[..i + 1]) {
      forall j | 0 <= j < i ensures Appliable(start, desired[..i][j].template, desired[..i][j].addresses) {
        assert desired[..i][j] == desired[..i + 1][j];
      }
      assert desired[..i + 1][i] == desired[i];
    }
  }

  lemma OneApplied(before: HostState, after: HostState, t: PrefixTemplate, addresses: seq<Address>,
                   failed: seq<Failure>)
    requires Applied(before, after, t, addresses, failed)
    ensures AllApplied(before, after, OwnAddresses(t, addresses), OwnRoutes(t), failed)
  {
    hide RefsDefined, RefSet, RouteOf;
  }

  lemma CarriedIsApplied(h: HostState, desired: seq<DesiredResource>, i: nat)
    requires i < |desired|
    ensures Carries(h, DesiredAddresses(desired), DesiredRoutes(desired)) ==>
              AlreadyApplied(h, desired[i].template, desired[i].addresses)
  {
    DesiredStep(desired, i);
    hide DesiredAddresses, DesiredRoutes, RefSet, RouteOf;
  }

  lemma SameForeignReflexive(h: HostState)
    ensures SameForeign(h, h)
  {
  }

  lemma AppliableByForeign(g: HostState, h: HostState, desired: seq<DesiredResource>)
    requires SameForeign(g, h)
    ensures AllAppliable(g, desired) <==> AllAppliable(h, desired)
  {
    hide RefsDefined, RefSet, RouteOf, Blank;
  }

  lemma ReconciledFromParts(start: HostState, middle: HostState, after: HostState, addresses: set<AddressRef>,
                            routes: set<RouteRef>,
                            stale: seq<Failure>, failed: seq<Failure>)
    requires KeptOnly(start, middle, addresses, routes, stale) && AllApplied(middle, after, addresses, routes, failed)
    ensures SameForeign(start, middle) && SameForeign(start, after)
    ensures stale + failed == [] ==> stale == [] && failed == [] && Realises(after, addresses, routes)
    ensures Realises(start, addresses, routes) ==>
              AddressSet(start.saved) <= addresses && RouteSet(start.saved) <= routes
              && Carries(start, addresses, routes)
  {
  }

  lemma KeepingMore(before: HostState, after: HostState, stale: set<AddressRef>, staleRoutes: set<RouteRef>,
                    keep: set<AddressRef>, keepRoutes: set<RouteRef>, failures: seq<Failure>)
    requires stale == AddressSet(before.saved) - keep && staleRoutes == RouteSet(before.saved) - keepRoutes
    ensures KeptOnly(before, after, AddressSet(before.saved) - stale, RouteSet(before.saved) - staleRoutes,
                     failures) ==>
              KeptOnly(before, after, keep, keepRoutes, failures)
  {
    assert AddressSet(before.saved) - stale == AddressSet(before.saved) * keep;
    assert RouteSet(before.saved) - staleRoutes == RouteSet(before.saved) * keepRoutes;
    assert before.addresses <= ForeignAddresses(before) + AddressSet(before.saved);
    assert before.routes <= ForeignRoutes(before) + RouteSet(before.saved);
  }

  /** `slices.DeleteFunc`: every occurrence goes. */
  function Drop<T(==, !new)>(refs: seq<T>, ref: T): (r: seq<T>)
    ensures Elements(r) == Elements(refs) - {ref}
    ensures Distinct(refs) ==> Distinct(r)
  {
    if refs == [] then []
    else
      assert refs == refs[..|refs| - 1] + [refs[|refs| - 1]];
      var r := Drop(refs[..|refs| - 1], ref);
      if refs[|refs| - 1] == ref then r
      else
        assert Distinct(refs) ==> refs[|refs| - 1] !in Elements(refs[..|refs| - 1]);
        assert Elements(r + [refs[|refs| - 1]]) == Elements(r) + {refs[|refs| - 1]};
        assert Elements(refs) == Elements(refs[..|refs| - 1]) + {refs[|refs| - 1]};
        r + [refs[|refs| - 1]]
  }

  function WithoutAddress(o: Ownership, ref: AddressRef): (r: Ownership)
    ensures r.routes == o.routes && AddressSet(r) == AddressSet(o) - {ref}
    ensures ValidOwnership(o) ==> ValidOwnership(r)
  {
    DropAddressKeepsValid(o, ref);
    o.(addresses := Drop(o.addresses, ref))
  }

  function WithoutRoute(o: Ownership, ref: RouteRef): (r: Ownership)
    ensures r.addresses == o.addresses && RouteSet(r) == RouteSet(o) - {ref}
    ensures ValidOwnership(o) ==> ValidOwnership(r)
  {
    DropRouteKeepsValid(o, ref);
    o.(routes := Drop(o.routes, ref))
  }

  lemma DropAddressKeepsValid(o: Ownership, ref: AddressRef)
    ensures ValidOwnership(o) ==> ValidOwnership(o.(addresses := Drop(o.addresses, ref)))
  {
    hide Blank, Drop;
    if ValidOwnership(o) {
      var d := Drop(o.addresses, ref);
      forall i | 0 <= i < |d| ensures !Blank(d[i].iface) {
        assert d[i] in Elements(d);
      }
    }
  }

  lemma DropRouteKeepsValid(o: Ownership, ref: RouteRef)
    ensures ValidOwnership(o) ==> ValidOwnership(o.(routes := Drop(o.routes, ref)))
  {
    hide Blank, Drop, Prefix.IsMasked;
    if ValidOwnership(o) {
      var d := Drop(o.routes, ref);
      forall i | 0 <= i < |d| ensures !Blank(d[i].iface) && d[i].prefix.IsMasked() {
        assert d[i] in Elements(d);
      }
    }
  }

  /** What applying one template's addresses leaves, by mode. */
  ghost predicate Applied(before: HostState, after: HostState, t: PrefixTemplate, addresses: seq<Address>,
                          failures: seq<Failure>) {
    && (failures == [] ==> RefsDefined(t, addresses) && ValidMode(t.mode))
    && (!RefsDefined(t, addresses) ==> after == before)
    && (RefsDefined(t, addresses) ==>
          match t.mode
          case ModeAddress => AppliedAddresses(before, after, RefSet(t, addresses), failures)
          case ModeLocalRouteFreebind => AppliedRoute(before, after, RouteOf(t), failures)
          case _ => after == before)
  }

  /** Nothing foreign is in the way. */
  ghost predicate Appliable(h: HostState, t: PrefixTemplate, addresses: seq<Address>) {
    && RefsDefined(t, addresses)
    && match t.mode
       case ModeAddress => !Blank(t.iface) && RefSet(t, addresses) !! ForeignAddresses(h)
       case ModeLocalRouteFreebind => !Blank(t.iface) && RouteOf(t) !in ForeignRoutes(h)
       case ModeExternal => true
       case OtherMode(_) => false
  }

  ghost predicate AlreadyApplied(h: HostState, t: PrefixTemplate, addresses: seq<Address>) {
    match t.mode
    case ModeAddress => RefSet(t, addresses) <= h.addresses * AddressSet(h.saved)
    case ModeLocalRouteFreebind => RouteOf(t) in h.routes * RouteSet(h.saved)
    case _ => true
  }

  lemma SameRouteSet(o: Ownership, p: Ownership)
    requires o.routes == p.routes
    ensures RouteSet(o) == RouteSet(p)
  {
  }

  lemma RouteSetGrows(o: Ownership, route: RouteRef)
    ensures RouteSet(o.(routes := o.routes + [route])) == RouteSet(o) + {route}
  {
  }

  lemma NamedByTemplate(t: PrefixTemplate, addresses: seq<Address>, refs: seq<AddressRef>)
    requires addresses != [] && Elements(refs) == RefSet(t, addresses)
    ensures Named(refs) <==> !Blank(t.iface)
  {
    hide Blank;
    var ref := AddressRef(t.iface, addresses[0]);
    assert ref in RefSet(t, addresses) && ref in Elements(refs);
    forall r | r in refs ensures r.iface == t.iface {
      assert r in Elements(refs);
    }
  }

  lemma NamedRouteIsValid(before: Ownership, t: PrefixTemplate)
    requires ValidOwnership(before) && RouteOf(t) !in before.routes
    ensures ValidOwnership(before.(routes := before.routes + [RouteOf(t)])) <==> !Blank(t.iface)
  {
    hide Blank;
    MaskedKeepsTheRange(t.prefix);
    var routes := before.routes + [RouteOf(t)];
    assert routes[|before.routes|] == RouteOf(t);
  }

  lemma OwnedRouteIsNamed(before: Ownership, t: PrefixTemplate)
    requires ValidOwnership(before) && RouteOf(t) in before.routes
    ensures !Blank(t.iface)
  {
  }

  /** Every reference names an interface. */
  ghost predicate Named(refs: seq<AddressRef>) {
    forall r :: r in refs ==> !Blank(r.iface)
  }

  /** The intent is a valid file exactly when every reference names an interface. */
  lemma NamedMeansValid(before: Ownership, refs: seq<AddressRef>, toAdd: seq<AddressRef>, intent: Ownership)
    requires ValidOwnership(before) && intent.routes == before.routes
    requires AddressSet(intent) == AddressSet(before) + Elements(toAdd)
    requires Distinct(intent.addresses)
    requires Elements(toAdd) <= Elements(refs) <= AddressSet(before) + Elements(toAdd)
    ensures ValidOwnership(intent) <==> Named(refs)
  {
    hide Blank;
    forall r | r in AddressSet(before) ensures !Blank(r.iface) {
      var i :| 0 <= i < |before.addresses| && before.addresses[i] == r;
    }
    if Named(refs) {
      forall i | 0 <= i < |intent.addresses| ensures !Blank(intent.addresses[i].iface) {
        assert intent.addresses[i] in AddressSet(intent);
      }
    }
    if ValidOwnership(intent) {
      forall r | r in refs ensures !Blank(r.iface) {
        assert r in Elements(refs);
        assert r in AddressSet(intent);
        var i :| 0 <= i < |intent.addresses| && intent.addresses[i] == r;
      }
    }
  }

  lemma RefsAreListed(refs: seq<AddressRef>, o: Ownership)
    requires Elements(refs) <= AddressSet(o)
    ensures forall k :: 0 <= k < |refs| ==> refs[k] in AddressSet(o)
  {
    forall k | 0 <= k < |refs| ensures refs[k] in AddressSet(o) {
      ElementsStep(refs, k);
    }
  }

  lemma AddressSetHolds(o: Ownership, ref: AddressRef)
    requires ref in o.addresses
    ensures ref in AddressSet(o)
  {
  }

  lemma AddressSetGrows(o: Ownership, ref: AddressRef)
    ensures AddressSet(o.(addresses := o.addresses + [ref])) == AddressSet(o) + {ref}
  {
  }

  lemma FoundMeansPresent(addresses: set<AddressRef>, name: string, found: set<Address>)
    requires found == set r | r in addresses && r.iface == name :: r.address
    ensures forall r: AddressRef :: r.iface == name ==> (r.address in found <==> r in addresses)
  {
    forall r: AddressRef | r.iface == name && r.address in found ensures r in addresses {
      var q :| q in addresses && q.iface == name && q.address == r.address;
      assert q == r;
    }
  }
}
