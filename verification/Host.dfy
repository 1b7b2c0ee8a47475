/** The host the network manager acts on: the kernel's addresses and local routes, the saved
    ownership file, and the moments at which the program may crash.

    A kernel call or a save either takes effect at once or fails without effect. Before each of them
    outsiders may add and remove anything. */
module Host {
  import opened FiniteSets
  import opened Names
  import opened Prefixes

  datatype AddressRef = AddressRef(iface: string, address: Address)

  datatype RouteRef = RouteRef(iface: string, prefix: Prefix)

  datatype Ownership = Ownership(addresses: seq<AddressRef>, routes: seq<RouteRef>)

  function AddressSet(o: Ownership): set<AddressRef> { Elements(o.addresses) }

  function RouteSet(o: Ownership): set<RouteRef> { Elements(o.routes) }

  /** `validateOwnership`: what the ownership file may hold, checked on every load and save. */
  predicate ValidOwnership(o: Ownership) {
    && (forall i :: 0 <= i < |o.addresses| ==> !Blank(o.addresses[i].iface))
    && Distinct(o.addresses) && Distinct(o.routes)
    && (forall i :: 0 <= i < |o.routes| ==> !Blank(o.routes[i].iface) && o.routes[i].prefix.IsMasked())
  }

  /** `ours` and `ourRoutes` are what the program itself put on the host and is still there. */
  datatype HostState = HostState(
    addresses: set<AddressRef>, routes: set<RouteRef>, saved: Ownership,
    ours: set<AddressRef>, ourRoutes: set<RouteRef>)

  /** What the program put on the host and is still there is listed as owned. */
  ghost predicate Listed(h: HostState) {
    && h.ours <= h.addresses * AddressSet(h.saved)
    && h.ourRoutes <= h.routes * RouteSet(h.saved)
  }

  /** And nothing else on the host is. */
  ghost predicate Safe(h: HostState) {
    && h.ours == h.addresses * AddressSet(h.saved)
    && h.ourRoutes == h.routes * RouteSet(h.saved)
  }

  datatype Resource = OfAddress(ref: AddressRef) | OfRoute(route: RouteRef)

  ghost predicate Present(h: HostState, x: Resource) {
    match x
    case OfAddress(r) => r in h.addresses
    case OfRoute(r) => r in h.routes
  }

  ghost predicate Ours(h: HostState, x: Resource) {
    match x
    case OfAddress(r) => r in h.ours
    case OfRoute(r) => r in h.ourRoutes
  }

  /** It is on the host and listed although the program did not put it there. */
  ghost predicate Mistaken(h: HostState, x: Resource) {
    match x
    case OfAddress(r) => r in h.addresses && r in AddressSet(h.saved) && r !in h.ours
    case OfRoute(r) => r in h.routes && r in RouteSet(h.saved) && r !in h.ourRoutes
  }

  /** The outsiders' turn records what is on the host since, a save what it newly lists, a removal
      whether the program had added the resource. */
  datatype Act =
    | Outsiders(added: set<AddressRef>, addedRoutes: set<RouteRef>)
    | SaveOwnership(added: set<AddressRef>, addedRoutes: set<RouteRef>)
    | Add(resource: Resource)
    | Remove(resource: Resource, addedByUs: bool)

  /** One answer about the usability of addresses, and how many acts came before it: whether all of
      them became ready in time, or whether one can be bound. */
  datatype Check =
    | Waited(refs: set<AddressRef>, ok: bool, at: nat)
    | Bound(ref: AddressRef, freebind: bool, ok: bool, at: nat)

  /** The host right after one act; the program may crash at any of them. */
  datatype Moment = Moment(act: Act, after: HostState)

  ghost predicate Good(m: Moment) {
    Safe(m.after) && (m.act.Remove? ==> m.act.addedByUs)
  }

  /** The save newly lists something that is on the host by now. */
  ghost predicate Raced(m: Moment) {
    m.act.SaveOwnership? && !(m.act.added !! m.after.addresses && m.act.addedRoutes !! m.after.routes)
  }

  /** Outsiders put something on the host that is listed. */
  ghost predicate Meddled(m: Moment) {
    m.act.Outsiders? && !(m.act.added !! AddressSet(m.after.saved) && m.act.addedRoutes !! RouteSet(m.after.saved))
  }

  /** The act that made the resource look like the program's: a save that listed it while it was on
      the host, or outsiders who put it there while it was listed. */
  ghost predicate Mistook(m: Moment, x: Resource) {
    && (m.act.SaveOwnership? || m.act.Outsiders?) && Mistaken(m.after, x)
    && match x
       case OfAddress(r) => r in m.act.added
       case OfRoute(r) => r in m.act.addedRoutes
  }

  ghost predicate AllGood(trace: seq<Moment>) { forall i :: 0 <= i < |trace| ==> Good(trace[i]) }

  ghost predicate NoneRaced(trace: seq<Moment>) { forall i :: 0 <= i < |trace| ==> !Raced(trace[i]) }

  ghost predicate NoneMeddled(trace: seq<Moment>) { forall i :: 0 <= i < |trace| ==> !Meddled(trace[i]) }

  ghost predicate AllListed(trace: seq<Moment>) { forall i :: 0 <= i < |trace| ==> Listed(trace[i].after) }

  /** At moment `j` the resource was mistaken for the program's, and it has stayed so since. */
  ghost predicate MistakenSince(trace: seq<Moment>, j: nat, x: Resource) {
    j < |trace| && Mistook(trace[j], x) && forall k :: j <= k < |trace| ==> Mistaken(trace[k].after, x)
  }

  ghost predicate Explained(trace: seq<Moment>, x: Resource) { exists j: nat :: MistakenSince(trace, j, x) }

  /** Every removal of something the program did not add is explained by what went before it. */
  ghost predicate RemovalsExplained(trace: seq<Moment>) {
    forall i :: 0 <= i < |trace| && trace[i].act.Remove? && !trace[i].act.addedByUs ==>
                  Explained(trace[..i], trace[i].act.resource)
  }

  ghost predicate StateExplained(trace: seq<Moment>, h: HostState) {
    forall x :: Mistaken(h, x) ==> Explained(trace, x)
  }

  /** From moment `from` on, this was taken off the host. */
  ghost predicate Removed(trace: seq<Moment>, from: nat, x: Resource, addedByUs: bool) {
    exists i :: from <= i < |trace| && trace[i].act == Remove(x, addedByUs)
  }

  /** From moment `from` on, the program added nothing. */
  ghost predicate NoAdds(trace: seq<Moment>, from: nat) {
    forall i :: from <= i < |trace| ==> !trace[i].act.Add?
  }

  lemma OneMoreMoment(trace: seq<Moment>, m: Moment)
    ensures AllGood(trace + [m]) <==> AllGood(trace) && Good(m)
    ensures NoneRaced(trace + [m]) <==> NoneRaced(trace) && !Raced(m)
    ensures NoneMeddled(trace + [m]) <==> NoneMeddled(trace) && !Meddled(m)
    ensures AllListed(trace + [m]) <==> AllListed(trace) && Listed(m.after)
  {
    hide Good, Raced, Meddled, Listed;
    var longer := trace + [m];
    assert longer[|trace|] == m;
    assert forall i :: 0 <= i < |trace| ==> longer[i] == trace[i];
  }

  /** Nothing is mistaken without an act that made it so. */
  lemma OneMoreExplained(trace: seq<Moment>, before: HostState, m: Moment)
    requires RemovalsExplained(trace) && StateExplained(trace, before)
    requires forall x :: Mistaken(m.after, x) ==> Mistaken(before, x) || Mistook(m, x)
    requires m.act.Remove? && !m.act.addedByUs ==> Mistaken(before, m.act.resource)
    ensures RemovalsExplained(trace + [m]) && StateExplained(trace + [m], m.after)
  {
    hide Mistaken, Mistook;
    var longer := trace + [m];
    forall i | 0 <= i < |longer| && longer[i].act.Remove? && !longer[i].act.addedByUs
      ensures Explained(longer[..i], longer[i].act.resource)
    {
      assert longer[..i] == trace[..i];
      assert i == |trace| ==> trace[..i] == trace;
    }
    forall x | Mistaken(m.after, x) ensures Explained(longer, x) {
      if Mistook(m, x) {
        assert MistakenSince(longer, |trace|, x);
      } else {
        assert Explained(trace, x);
        var j: nat :| MistakenSince(trace, j, x);
        assert MistakenSince(longer, j, x);
      }
    }
  }

  lemma RemovedStays(before: seq<Moment>, after: seq<Moment>, from: nat, x: Resource, addedByUs: bool)
    requires before <= after && Removed(before, from, x, addedByUs)
    ensures Removed(after, from, x, addedByUs)
  {
    var i :| from <= i < |before| && before[i].act == Remove(x, addedByUs);
    assert after[i] == before[i];
  }

  // ---- the exact effect of a save on safety ----

  function AfterSave(h: HostState, o: Ownership): HostState { h.(saved := o) }

  /** From a safe state, saving another list keeps the state safe exactly when nothing that enters or
      leaves the list is on the host. */
  lemma SaveKeepsSafe(h: HostState, o: Ownership)
    requires Safe(h)
    ensures Safe(AfterSave(h, o)) <==>
      && (AddressSet(o) - AddressSet(h.saved)) !! h.addresses && (AddressSet(h.saved) - AddressSet(o)) !! h.addresses
      && (RouteSet(o) - RouteSet(h.saved)) !! h.routes && (RouteSet(h.saved) - RouteSet(o)) !! h.routes
  {
    hide AddressSet, RouteSet;
    var t := AfterSave(h, o);
    if Safe(t) {
      assert h.addresses * AddressSet(h.saved) == h.addresses * AddressSet(o);
      assert h.routes * RouteSet(h.saved) == h.routes * RouteSet(o);
      assert forall r :: r in h.addresses ==> (r in AddressSet(h.saved) <==> r in AddressSet(o)) by {
        forall r | r in h.addresses ensures r in AddressSet(h.saved) <==> r in AddressSet(o) {
          assert r in h.addresses * AddressSet(h.saved) <==> r in h.addresses * AddressSet(o);
        }
      }
      assert forall r :: r in h.routes ==> (r in RouteSet(h.saved) <==> r in RouteSet(o)) by {
        forall r | r in h.routes ensures r in RouteSet(h.saved) <==> r in RouteSet(o) {
          assert r in h.routes * RouteSet(h.saved) <==> r in h.routes * RouteSet(o);
        }
      }
    }
  }

  // ---- what one act keeps ----

  /** Whatever outsiders do, at every moment so far what the program had put on the host was listed,
      and each removal of something else is explained. Every moment was good exactly when no save
      raced and no outsider meddled; while that is so, the state is safe. */
  ghost predicate Accounted(trace: seq<Moment>, h: HostState, raced: bool, meddled: bool) {
    && ValidOwnership(h.saved) && Listed(h) && AllListed(trace)
    && RemovalsExplained(trace) && StateExplained(trace, h)
    && (raced <==> !NoneRaced(trace)) && (meddled <==> !NoneMeddled(trace))
    && (raced || meddled <==> !AllGood(trace))
    && (!raced && !meddled ==> Safe(h))
  }

  lemma OneMoreAct(trace: seq<Moment>, h: HostState, raced: bool, meddled: bool, m: Moment)
    requires Accounted(trace, h, raced, meddled)
    requires ValidOwnership(m.after.saved) && Listed(m.after)
    requires forall x :: Mistaken(m.after, x) ==> Mistaken(h, x) || Mistook(m, x)
    requires m.act.Remove? && !m.act.addedByUs ==> Mistaken(h, m.act.resource)
    requires Safe(h) ==> (Good(m) <==> !Raced(m) && !Meddled(m))
    ensures Accounted(trace + [m], m.after, raced || Raced(m), meddled || Meddled(m))
  {
    hide Mistaken, Mistook, Raced, Meddled, Listed, RemovalsExplained, StateExplained, AllGood, NoneRaced, NoneMeddled;
    hide AllListed, ValidOwnership, Safe;
    OneMoreMoment(trace, m);
    OneMoreExplained(trace, h, m);
    assert Good(m) ==> Safe(m.after);
  }

  /** After some left and others came, what is listed is still what is owned exactly when nothing
      listed came. */
  lemma ListedIsOwned<T>(present: set<T>, listed: set<T>, gone: set<T>, added: set<T>)
    requires added !! present - gone
    ensures present * listed - gone == (present - gone + added) * listed <==> added !! listed
  {
    if added !! listed {
      assert (present - gone + added) * listed == (present - gone) * listed;
    } else {
      var e :| e in added && e in listed;
      assert e in (present - gone + added) * listed && e !in present * listed - gone;
    }
  }

  lemma VisitIsGood(h: HostState, m: Moment, gone: set<AddressRef>, goneRoutes: set<RouteRef>)
    requires Safe(h) && m.act.Outsiders? && m.after.saved == h.saved
    requires m.after.addresses == h.addresses - gone + m.act.added && m.act.added !! h.addresses - gone
    requires m.after.routes == h.routes - goneRoutes + m.act.addedRoutes && m.act.addedRoutes !! h.routes - goneRoutes
    requires m.after.ours == h.ours - gone && m.after.ourRoutes == h.ourRoutes - goneRoutes
    ensures Good(m) <==> !Meddled(m)
  {
    hide AddressSet, RouteSet;
    ListedIsOwned(h.addresses, AddressSet(h.saved), gone, m.act.added);
    ListedIsOwned(h.routes, RouteSet(h.saved), goneRoutes, m.act.addedRoutes);
  }

  lemma VisitIsAccounted(trace: seq<Moment>, h: HostState, raced: bool, meddled: bool, m: Moment,
                         gone: set<AddressRef>, goneRoutes: set<RouteRef>)
    requires Accounted(trace, h, raced, meddled) && m.act.Outsiders? && m.after.saved == h.saved
    requires m.after.addresses == h.addresses - gone + m.act.added && m.act.added !! h.addresses - gone
    requires m.after.routes == h.routes - goneRoutes + m.act.addedRoutes && m.act.addedRoutes !! h.routes - goneRoutes
    requires m.after.ours == h.ours - gone && m.after.ourRoutes == h.ourRoutes - goneRoutes
    ensures Accounted(trace + [m], m.after, raced || Raced(m), meddled || Meddled(m)) && !Raced(m)
  {
    hide AddressSet, RouteSet, ValidOwnership, AllGood, NoneRaced, NoneMeddled, AllListed, RemovalsExplained;
    hide StateExplained, Safe, Good;
    if Safe(h) { VisitIsGood(h, m, gone, goneRoutes); }
    OneMoreAct(trace, h, raced, meddled, m);
  }

  lemma AddressActIsAccounted(trace: seq<Moment>, h: HostState, raced: bool, meddled: bool, m: Moment, ref: AddressRef)
    requires Accounted(trace, h, raced, meddled) && ref in AddressSet(h.saved)
    requires
      || (m.act == Add(OfAddress(ref)) && ref !in h.addresses
          && m.after == h.(addresses := h.addresses + {ref}, ours := h.ours + {ref}))
      || (m.act == Remove(OfAddress(ref), ref in h.ours) && ref in h.addresses
          && m.after == h.(addresses := h.addresses - {ref}, ours := h.ours - {ref}))
    ensures Accounted(trace + [m], m.after, raced, meddled)
  {
    hide AddressSet, RouteSet, ValidOwnership, AllGood, NoneRaced, NoneMeddled, AllListed, RemovalsExplained;
    hide StateExplained;
    OneMoreAct(trace, h, raced, meddled, m);
  }

  lemma RouteActIsAccounted(trace: seq<Moment>, h: HostState, raced: bool, meddled: bool, m: Moment, route: RouteRef)
    requires Accounted(trace, h, raced, meddled) && route in RouteSet(h.saved)
    requires
      || (m.act == Add(OfRoute(route)) && route !in h.routes
          && m.after == h.(routes := h.routes + {route}, ourRoutes := h.ourRoutes + {route}))
      || (m.act == Remove(OfRoute(route), route in h.ourRoutes) && route in h.routes
          && m.after == h.(routes := h.routes - {route}, ourRoutes := h.ourRoutes - {route}))
    ensures Accounted(trace + [m], m.after, raced, meddled)
  {
    hide AddressSet, RouteSet, ValidOwnership, AllGood, NoneRaced, NoneMeddled, AllListed, RemovalsExplained;
    hide StateExplained;
    OneMoreAct(trace, h, raced, meddled, m);
  }

  lemma SafeDrops<T>(present: set<T>, listed: set<T>, after: set<T>)
    requires (listed - after) !! present * listed
    ensures (listed - after) !! present
  {
    assert forall e :: e in listed - after && e in present ==> e in present * listed;
  }

  /** From a safe state, such a save can only go wrong by a race. */
  lemma SaveIsGood(h: HostState, m: Moment)
    requires Safe(h) && m.after == AfterSave(h, m.after.saved)
    requires (AddressSet(h.saved) - AddressSet(m.after.saved)) !! h.ours
             && (RouteSet(h.saved) - RouteSet(m.after.saved)) !! h.ourRoutes
    requires m.act == SaveOwnership(AddressSet(m.after.saved) - AddressSet(h.saved),
                                    RouteSet(m.after.saved) - RouteSet(h.saved))
    ensures Good(m) <==> !Raced(m)
  {
    hide AddressSet, RouteSet;
    SafeDrops(h.addresses, AddressSet(h.saved), AddressSet(m.after.saved));
    SafeDrops(h.routes, RouteSet(h.saved), RouteSet(m.after.saved));
    SaveKeepsSafe(h, m.after.saved);
    hide Safe;
  }

  lemma SaveIsAccounted(trace: seq<Moment>, h: HostState, raced: bool, meddled: bool, m: Moment)
    requires Accounted(trace, h, raced, meddled) && ValidOwnership(m.after.saved)
    requires m.after == AfterSave(h, m.after.saved)
    requires (AddressSet(h.saved) - AddressSet(m.after.saved)) !! h.ours
             && (RouteSet(h.saved) - RouteSet(m.after.saved)) !! h.ourRoutes
    requires m.act == SaveOwnership(AddressSet(m.after.saved) - AddressSet(h.saved),
                                    RouteSet(m.after.saved) - RouteSet(h.saved))
    ensures Accounted(trace + [m], m.after, raced || Raced(m), meddled) && !Meddled(m)
  {
    hide AddressSet, RouteSet, ValidOwnership, AllGood, NoneRaced, NoneMeddled, AllListed, RemovalsExplained;
    hide StateExplained, Safe, Good, Raced;
    if Safe(h) { SaveIsGood(h, m); }
    assert !Meddled(m);
    OneMoreAct(trace, h, raced, meddled, m);
  }

  /** The host without outsiders keeps everything the program did not change. */
  class Host {
    var addresses: set<AddressRef>
    var routes: set<RouteRef>
    var saved: Ownership
    ghost var ours: set<AddressRef>
    ghost var ourRoutes: set<RouteRef>
    ghost var trace: seq<Moment>
    ghost var checks: seq<Check>
    /** Some save so far listed a resource that was on the host by then. */
    ghost var raced: bool
    /** Outsiders so far put a resource on the host that was listed. */
    ghost var meddled: bool
    /** Whether calls may fail, and whether outsiders act. */
    const faulty: bool
    const crowded: bool

    ghost function State(): HostState
      reads this
    {
      HostState(addresses, routes, saved, ours, ourRoutes)
    }

    ghost predicate Sound()
      reads this
    {
      Accounted(trace, State(), raced, meddled)
    }

    constructor (faulty: bool, crowded: bool, addresses: set<AddressRef>, routes: set<RouteRef>)
      ensures Sound() && this.faulty == faulty && this.crowded == crowded
      ensures this.addresses == addresses && this.routes == routes && saved == Ownership([], [])
      ensures !raced && !meddled && trace == [] && checks == []
    {
      this.addresses, this.routes, saved := addresses, routes, Ownership([], []);
      ours, ourRoutes, trace, checks, raced, meddled := {}, {}, [], [], false, false;
      this.faulty, this.crowded := faulty, crowded;
    }

    /** What the next process finds when this one stops here. */
    constructor Restart(previous: Host, faulty: bool, crowded: bool)
      requires previous.Sound()
      ensures Sound() && this.faulty == faulty && this.crowded == crowded
      ensures State() == previous.State() && trace == previous.trace && checks == previous.checks
      ensures raced == previous.raced && meddled == previous.meddled
    {
      addresses, routes, saved := previous.addresses, previous.routes, previous.saved;
      ours, ourRoutes, trace, checks := previous.ours, previous.ourRoutes, previous.trace, previous.checks;
      raced, meddled := previous.raced, previous.meddled;
      this.faulty, this.crowded := faulty, crowded;
    }

    /** One turn of the outsiders: they remove what they like, then add what they like. */
    method Visit(newAddresses: set<AddressRef>, newRoutes: set<RouteRef>, goneAddresses: set<AddressRef>,
                 goneRoutes: set<RouteRef>)
      requires Sound()
      modifies this`addresses, this`routes, this`ours, this`ourRoutes, this`trace, this`meddled
      ensures Sound()
      ensures addresses == old(addresses) - goneAddresses + newAddresses
              && routes == old(routes) - goneRoutes + newRoutes
      ensures ours == old(ours) - goneAddresses && ourRoutes == old(ourRoutes) - goneRoutes
      ensures meddled <==>
                || old(meddled)
                || !((newAddresses - (old(addresses) - goneAddresses)) !! AddressSet(saved)
                     && (newRoutes - (old(routes) - goneRoutes)) !! RouteSet(saved))
      ensures |trace| == |old(trace)| + 1 && old(trace) <= trace && NoAdds(trace, |old(trace)|)
    {
      hide AddressSet, RouteSet, ValidOwnership, Accounted;
      ghost var before := State();
      addresses, routes := addresses - goneAddresses, routes - goneRoutes;
      ghost var added, addedRoutes := newAddresses - addresses, newRoutes - routes;
      addresses, routes := addresses + newAddresses, routes + newRoutes;
      ours, ourRoutes := ours - goneAddresses, ourRoutes - goneRoutes;
      ghost var moment := Moment(Outsiders(added, addedRoutes), State());
      VisitIsAccounted(trace, before, raced, meddled, moment, goneAddresses, goneRoutes);
      trace, meddled := trace + [moment], meddled || Meddled(moment);
    }

    /** Outsiders take their turn. */
    method Interfere()
      requires Sound()
      modifies this`addresses, this`routes, this`ours, this`ourRoutes, this`trace, this`meddled
      ensures Sound() && old(trace) <= trace && (old(meddled) ==> meddled) && NoAdds(trace, |old(trace)|)
      ensures !crowded ==> State() == old(State()) && trace == old(trace) && meddled == old(meddled)
      ensures !meddled ==> (addresses - old(addresses)) !! AddressSet(saved)
      ensures !meddled ==> (routes - old(routes)) !! RouteSet(saved)
      ensures ours <= old(ours) && ourRoutes <= old(ourRoutes)
    {
      if crowded {
        var newAddresses: set<AddressRef> := *;
        var newRoutes: set<RouteRef> := *;
        var goneAddresses: set<AddressRef> := *;
        var goneRoutes: set<RouteRef> := *;
        hide AddressSet, RouteSet, Accounted;
        Visit(newAddresses, newRoutes, goneAddresses, goneRoutes);
        assert addresses - old(addresses) <= newAddresses - (old(addresses) - goneAddresses);
        assert routes - old(routes) <= newRoutes - (old(routes) - goneRoutes);
      }
    }

    /** Any call but the ones below may simply fail. */
    method Fails() returns (failed: bool)
      ensures !faulty ==> !failed
    {
      if faulty { failed := *; } else { failed := false; }
    }

    /** The kernel's address dump. */
    method InterfaceAddresses(name: string) returns (ok: bool, found: set<Address>)
      requires Sound()
      modifies this`addresses, this`routes, this`ours, this`ourRoutes, this`trace, this`meddled
      ensures Sound() && old(trace) <= trace && (old(meddled) ==> meddled) && NoAdds(trace, |old(trace)|)
      ensures !crowded ==> State() == old(State()) && trace == old(trace) && meddled == old(meddled)
      ensures !meddled ==> (addresses - old(addresses)) !! AddressSet(saved)
      ensures ours <= old(ours) && ourRoutes <= old(ourRoutes)
      ensures ours <= addresses
      ensures !faulty ==> ok
      ensures ok ==> found == set r | r in addresses && r.iface == name :: r.address
    {
      Interfere();
      found := {};
      var failed := Fails();
      if failed { return false, {}; }
      return true, set r | r in addresses && r.iface == name :: r.address;
    }

    /** The kernel's route lookup. */
    method LocalRouteExists(route: RouteRef) returns (ok: bool, exists': bool)
      requires Sound()
      modifies this`addresses, this`routes, this`ours, this`ourRoutes, this`trace, this`meddled
      ensures Sound() && old(trace) <= trace && (old(meddled) ==> meddled) && NoAdds(trace, |old(trace)|)
      ensures !crowded ==> State() == old(State()) && trace == old(trace) && meddled == old(meddled)
      ensures !meddled ==> (addresses - old(addresses)) !! AddressSet(saved)
      ensures !meddled ==> (routes - old(routes)) !! RouteSet(saved)
      ensures ours <= old(ours) && ourRoutes <= old(ourRoutes)
      ensures ourRoutes <= routes
      ensures !faulty ==> ok
      ensures ok ==> (exists' <==> route in routes)
    {
      Interfere();
      var failed := Fails();
      if failed { return false, false; }
      return true, route in routes;
    }

    method AddAddress(ref: AddressRef) returns (ok: bool)
      requires Sound() && ref in AddressSet(saved)
      modifies this`addresses, this`routes, this`ours, this`ourRoutes, this`trace, this`meddled
      ensures Sound() && old(trace) <= trace && (old(meddled) ==> meddled)
      ensures ok ==> trace != [] && NoAdds(trace[..|trace| - 1], |old(trace)|) && |trace| > |old(trace)|
                     && trace[|trace| - 1].act == Add(OfAddress(ref))
      ensures !ok ==> NoAdds(trace, |old(trace)|)
      ensures !meddled ==> (addresses - old(addresses)) !! (AddressSet(saved) - if ok then {ref} else {})
      ensures ours <= old(ours) + (if ok then {ref} else {}) && ourRoutes <= old(ourRoutes)
      ensures !crowded ==> routes == old(routes) && ourRoutes == old(ourRoutes) && meddled == old(meddled)
      ensures !crowded && ok ==> addresses == old(addresses) + {ref} && ours == old(ours) + {ref}
      ensures !crowded && !ok ==> State() == old(State()) && trace == old(trace)
      ensures ok ==> ref in addresses
      ensures !crowded && !faulty ==> (ok <==> ref !in old(addresses))
    {
      hide AddressSet, RouteSet, ValidOwnership, Accounted;
      Interfere();
      var failed := Fails();
      if failed || ref in addresses { return false; }
      ghost var before := State();
      addresses, ours := addresses + {ref}, ours + {ref};
      ghost var moment := Moment(Add(OfAddress(ref)), State());
      AddressActIsAccounted(trace, before, raced, meddled, moment, ref);
      trace := trace + [moment];
      return true;
    }

    method RemoveAddress(ref: AddressRef) returns (ok: bool)
      requires Sound() && ref in AddressSet(saved)
      modifies this`addresses, this`routes, this`ours, this`ourRoutes, this`trace, this`meddled
      ensures Sound() && old(trace) <= trace && (old(meddled) ==> meddled) && NoAdds(trace, |old(trace)|)
      ensures !meddled ==> (addresses - old(addresses)) !! AddressSet(saved)
      ensures ours <= old(ours) && ourRoutes <= old(ourRoutes)
      ensures !crowded ==> routes == old(routes) && ourRoutes == old(ourRoutes) && meddled == old(meddled)
      ensures !crowded && ok ==> addresses == old(addresses) - {ref} && ours == old(ours) - {ref}
      ensures !crowded && ok ==> Removed(trace, |old(trace)|, OfAddress(ref), ref in old(ours))
      ensures !crowded && !ok ==> State() == old(State()) && trace == old(trace)
      ensures ok ==> ref !in addresses && ref !in ours
      ensures !crowded && !faulty ==> (ok <==> ref in old(addresses))
    {
      hide AddressSet, RouteSet, ValidOwnership, Accounted;
      Interfere();
      var failed := Fails();
      if failed || ref !in addresses { return false; }
      ghost var before, addedByUs := State(), ref in ours;
      addresses, ours := addresses - {ref}, ours - {ref};
      ghost var moment := Moment(Remove(OfAddress(ref), addedByUs), State());
      AddressActIsAccounted(trace, before, raced, meddled, moment, ref);
      trace := trace + [moment];
      assert trace[|trace| - 1].act == Remove(OfAddress(ref), addedByUs);
      return true;
    }

    method AddLocalRoute(route: RouteRef) returns (ok: bool)
      requires Sound() && route in RouteSet(saved)
      modifies this`addresses, this`routes, this`ours, this`ourRoutes, this`trace, this`meddled
      ensures Sound() && old(trace) <= trace && (old(meddled) ==> meddled)
      ensures ok ==> trace != [] && NoAdds(trace[..|trace| - 1], |old(trace)|) && |trace| > |old(trace)|
                     && trace[|trace| - 1].act == Add(OfRoute(route))
      ensures !ok ==> NoAdds(trace, |old(trace)|)
      ensures !meddled ==> (addresses - old(addresses)) !! AddressSet(saved)
      ensures !meddled ==> (routes - old(routes)) !! (RouteSet(saved) - if ok then {route} else {})
      ensures ours <= old(ours) && ourRoutes <= old(ourRoutes) + if ok then {route} else {}
      ensures !crowded ==> addresses == old(addresses) && ours == old(ours) && meddled == old(meddled)
      ensures !crowded && ok ==> routes == old(routes) + {route} && ourRoutes == old(ourRoutes) + {route}
      ensures !crowded && !ok ==> State() == old(State()) && trace == old(trace)
      ensures ok ==> route in routes
      ensures !crowded && !faulty ==> (ok <==> route !in old(routes))
    {
      hide AddressSet, RouteSet, ValidOwnership, Accounted;
      Interfere();
      var failed := Fails();
      if failed || route in routes { return false; }
      ghost var before := State();
      routes, ourRoutes := routes + {route}, ourRoutes + {route};
      ghost var moment := Moment(Add(OfRoute(route)), State());
      RouteActIsAccounted(trace, before, raced, meddled, moment, route);
      trace := trace + [moment];
      return true;
    }

    method RemoveLocalRoute(route: RouteRef) returns (ok: bool)
      requires Sound() && route in RouteSet(saved)
      modifies this`addresses, this`routes, this`ours, this`ourRoutes, this`trace, this`meddled
      ensures Sound() && old(trace) <= trace && (old(meddled) ==> meddled) && NoAdds(trace, |old(trace)|)
      ensures !meddled ==> (addresses - old(addresses)) !! AddressSet(saved)
      ensures !meddled ==> (routes - old(routes)) !! RouteSet(saved)
      ensures ours <= old(ours) && ourRoutes <= old(ourRoutes)
      ensures !crowded ==> addresses == old(addresses) && ours == old(ours) && meddled == old(meddled)
      ensures !crowded && ok ==> routes == old(routes) - {route} && ourRoutes == old(ourRoutes) - {route}
      ensures !crowded && ok ==> Removed(trace, |old(trace)|, OfRoute(route), route in old(ourRoutes))
      ensures !crowded && !ok ==> State() == old(State()) && trace == old(trace)
      ensures ok ==> route !in routes && route !in ourRoutes
      ensures !crowded && !faulty ==> (ok <==> route in old(routes))
    {
      hide AddressSet, RouteSet, ValidOwnership, Accounted;
      Interfere();
      var failed := Fails();
      if failed || route !in routes { return false; }
      ghost var before, addedByUs := State(), route in ourRoutes;
      routes, ourRoutes := routes - {route}, ourRoutes - {route};
      ghost var moment := Moment(Remove(OfRoute(route), addedByUs), State());
      RouteActIsAccounted(trace, before, raced, meddled, moment, route);
      trace := trace + [moment];
      assert trace[|trace| - 1].act == Remove(OfRoute(route), addedByUs);
      return true;
    }

    /** Waits until all of these passed duplicate address detection. */
    method WaitReady(refs: seq<AddressRef>) returns (ok: bool)
      requires Sound()
      modifies this`addresses, this`routes, this`ours, this`ourRoutes, this`trace, this`meddled, this`checks
      ensures Sound() && old(trace) <= trace && (old(meddled) ==> meddled) && NoAdds(trace, |old(trace)|)
      ensures !crowded ==> State() == old(State()) && trace == old(trace) && meddled == old(meddled)
      ensures !meddled ==> (addresses - old(addresses)) !! AddressSet(saved)
      ensures !meddled ==> (routes - old(routes)) !! RouteSet(saved)
      ensures ours <= old(ours) && ourRoutes <= old(ourRoutes)
      ensures checks == old(checks) + [Waited(Elements(refs), ok, |trace|)]
      ensures !faulty ==> ok
    {
      Interfere();
      var failed := Fails();
      checks := checks + [Waited(Elements(refs), !failed, |trace|)];
      return !failed;
    }

    /** A trial bind. */
    method ValidateBindable(ref: AddressRef, freebind: bool) returns (ok: bool)
      requires Sound()
      modifies this`addresses, this`routes, this`ours, this`ourRoutes, this`trace, this`meddled, this`checks
      ensures Sound() && old(trace) <= trace && (old(meddled) ==> meddled) && NoAdds(trace, |old(trace)|)
      ensures !crowded ==> State() == old(State()) && trace == old(trace) && meddled == old(meddled)
      ensures !meddled ==> (addresses - old(addresses)) !! AddressSet(saved)
      ensures !meddled ==> (routes - old(routes)) !! RouteSet(saved)
      ensures ours <= old(ours) && ourRoutes <= old(ourRoutes)
      ensures checks == old(checks) + [Bound(ref, freebind, ok, |trace|)]
      ensures !faulty ==> ok
    {
      Interfere();
      var failed := Fails();
      checks := checks + [Bound(ref, freebind, !failed, |trace|)];
      return !failed;
    }

    method Load() returns (ok: bool, ownership: Ownership)
      requires Sound()
      ensures ok ==> ownership == saved && ValidOwnership(ownership)
      ensures !faulty ==> ok
    {
      var failed := Fails();
      return !failed, saved;
    }

    /** What the program has on the host stays listed. The save races when an entry that joins the list
        is on the host by then. */
    method Save(ownership: Ownership) returns (ok: bool)
      requires Sound()
      requires (AddressSet(saved) - AddressSet(ownership)) !! ours
               && (RouteSet(saved) - RouteSet(ownership)) !! ourRoutes
      modifies this
      ensures checks == old(checks)
      ensures Sound() && old(trace) <= trace && (old(meddled) ==> meddled) && NoAdds(trace, |old(trace)|)
      ensures !meddled ==> (addresses - old(addresses)) !! AddressSet(old(saved))
      ensures !meddled ==> (routes - old(routes)) !! RouteSet(old(saved))
      ensures ours <= old(ours) && ourRoutes <= old(ourRoutes)
      ensures saved == if ok then ownership else old(saved)
      ensures raced <==>
                || old(raced)
                || (ok && !((AddressSet(saved) - AddressSet(old(saved))) !! addresses
                            && (RouteSet(saved) - RouteSet(old(saved))) !! routes))
      ensures !crowded ==>
                addresses == old(addresses) && routes == old(routes) && ours == old(ours) && ourRoutes == old(ourRoutes)
      ensures !crowded ==> |trace| == |old(trace)| + (if ok then 1 else 0) && meddled == old(meddled)
      ensures !crowded && !ok ==> trace == old(trace)
      ensures ok ==> ValidOwnership(ownership)
      ensures !faulty ==> (ok <==> ValidOwnership(ownership))
    {
      hide AddressSet, RouteSet, ValidOwnership, Accounted;
      Interfere();
      var failed := Fails();
      if failed || !ValidOwnership(ownership) { return false; }
      ghost var before := State();
      ghost var added := AddressSet(ownership) - AddressSet(saved);
      ghost var addedRoutes := RouteSet(ownership) - RouteSet(saved);
      saved := ownership;
      ghost var moment := Moment(SaveOwnership(added, addedRoutes), State());
      SaveIsAccounted(trace, before, raced, meddled, moment);
      raced := raced || Raced(moment);
      trace := trace + [moment];
      return true;
    }

    /** While outsiders add only what is not listed, the program removes nothing that it did not list
        while it was on the host: behind each wrong removal there is a save that raced for it. */
    lemma WrongRemovalWasRaced(i: nat)
      requires Sound() && !meddled && i < |trace| && trace[i].act.Remove? && !trace[i].act.addedByUs
      ensures exists j: nat :: j < i && trace[j].act.SaveOwnership? && Raced(trace[j])
                               && MistakenSince(trace[..i], j, trace[i].act.resource)
    {
      hide ValidOwnership, AddressSet, RouteSet, Listed, AllListed, StateExplained, AllGood, NoneRaced, Safe;
      var x := trace[i].act.resource;
      assert Explained(trace[..i], x);
      var j: nat :| MistakenSince(trace[..i], j, x);
      assert trace[..i][j] == trace[j] && !Meddled(trace[j]);
    }
  }
}
