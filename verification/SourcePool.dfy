/** `proxy.SourcePool`: round-robin source addresses, leases on them, and the drain notification of
    addresses that left the pool.

    Every method here is one region under one lock, or a sequence of such regions; the invariant
    holds after each region, so it holds under every interleaving of them. Notifications count when
    they are decided, because the callback runs after the lock is given up. */
module SourcePool {
  import opened Wrappers
  import opened FiniteSets
  import opened Prefixes

  const UINT64 := 0x1_0000_0000_0000_0000

  type Closer = nat

  datatype SourceError = Empty | Repeated | NotDraining

  datatype AttachError = AlreadyAttached | DrainForced | WasReleased

  /** The connections outside: closing one may report an error, but it happened. */
  class Connections {
    ghost var closed: multiset<Closer>
    /** The closings that reported an error. */
    ghost var failed: nat

    constructor ()
      ensures closed == multiset{} && failed == 0
    {
      closed, failed := multiset{}, 0;
    }

    method Close(c: Closer) returns (ok: bool)
      modifies this
      ensures closed == old(closed) + multiset{c}
      ensures failed == old(failed) + if ok then 0 else 1
    {
      closed := closed + multiset{c};
      ok := *;
      failed := failed + if ok then 0 else 1;
    }
  }

  class SourceLease {
    const pool: SourcePool
    const address: Address
    var closer: Option<Closer>
    var forced: bool
    var released: bool
    /** Whether the one-time part of `Release` has run. */
    var once: bool

    constructor (pool: SourcePool, address: Address)
      ensures this.pool == pool && this.address == address
      ensures closer == None && !forced && !released && !once
    {
      this.pool, this.address := pool, address;
      closer, forced, released, once := None, false, false, false;
    }

    /** A connection is attached to a fresh lease only; any other connection is closed at once. */
    method Attach(c: Closer, connections: Connections) returns (r: Result<(), AttachError>)
      modifies this`closer, connections
      ensures r.Ok? <==> old(closer) == None && !forced && !released
      ensures closer == if r.Ok? then Some(c) else old(closer)
      ensures connections.closed == old(connections.closed) + if r.Ok? then multiset{} else multiset{c}
      ensures old(pool.Resting()) ==> pool.Resting()
    {
      hide LeasesOf;
      if closer.Some? {
        var closed := connections.Close(c);
        return Err(AlreadyAttached);
      }
      if forced {
        var closed := connections.Close(c);
        return Err(DrainForced);
      }
      if released {
        var closed := connections.Close(c);
        return Err(WasReleased);
      }
      closer := Some(c);
      return Ok(());
    }

    /** The first call takes the lease out of the pool; later calls do nothing. */
    method Release()
      requires pool.Valid()
      modifies this`once, this`released, pool
      ensures pool.Valid() && once && (old(once) ==> released == old(released)) && (!old(once) ==> released)
      ensures pool.View() == if old(once) then old(pool.View()) else Dropping(old(pool.View()), this)
      ensures old(pool.Resting()) ==> pool.Resting()
      ensures !old(once) && old(pool.RestingBut({this})) ==> pool.Resting()
    {
      hide LeasesOf, Consistent, Dropping, SourcePool.Resting, SourcePool.RestingBut;
      if once { return; }
      once := true;
      released := true;
      pool.Drop(this);
      pool.StaysResting({this}, {});
      pool.RestsAnyway({this});
    }

    method Force(connections: Connections) returns (ok: bool)
      requires pool.Valid() && (forced ==> once)
      modifies this`once, this`released, this`forced, pool, connections
      ensures pool.Valid() && forced && once
      ensures pool.View() == if old(once) then old(pool.View()) else Dropping(old(pool.View()), this)
      ensures connections.closed == old(connections.closed) + if !old(forced) && closer.Some?
              then multiset{closer.value} else multiset{}
      ensures old(connections.failed) <= connections.failed && (ok <==> connections.failed == old(connections.failed))
      ensures old(pool.Resting()) ==> pool.Resting()
    {
      hide LeasesOf, Consistent, Dropping, SourcePool.Resting, SourcePool.RestingBut;
      if forced { return true; }
      forced := true;
      ok := true;
      if closer.Some? { ok := connections.Close(closer.value); }
      pool.RestsBut(this);
      Release();
    }
  }

  /** The pool as a value. `left`, `notified` and `readopted` count, for every address, how often it
      left the current set, how often its drain notification was decided, and how often it came
      back while draining. */
  datatype PoolView = PoolView(
    current: seq<Address>, next: nat, active: map<Address, set<SourceLease>>, draining: set<Address>,
    left: multiset<Address>, notified: multiset<Address>, readopted: multiset<Address>)

  function One(b: bool): nat { if b then 1 else 0 }

  ghost predicate Balanced(v: PoolView) {
    forall a :: v.left[a] == v.notified[a] + v.readopted[a] + One(a in v.draining)
  }

  ghost predicate Consistent(v: PoolView) {
    && v.current != [] && Distinct(v.current) && v.next < UINT64
    && (forall a :: a in v.active ==> v.active[a] != {} && forall l :: l in v.active[a] ==> l.address == a)
    && (forall a :: a in v.draining ==> a in v.active && a !in v.current)
    && Balanced(v)
  }

  /** What a notification promises: the address has no lease and is not current. */
  ghost predicate Quiet(v: PoolView, a: Address) { a !in v.active && a !in v.current }

  ghost predicate NotifiesQuietly(before: PoolView, after: PoolView) {
    forall a :: after.notified[a] > before.notified[a] ==> Quiet(after, a)
  }

  // ---- the two transitions that decide notifications ----

  ghost function Dropping(v: PoolView, lease: SourceLease): PoolView {
    var a := lease.address;
    if a !in v.active || lease !in v.active[a] then v
    else if v.active[a] != {lease} then v.(active := v.active[a := v.active[a] - {lease}])
    else v.(active := v.active - {a}, draining := v.draining - {a},
            notified := if a in v.draining then v.notified + multiset{a} else v.notified)
  }

  /** Addresses leaving the current set drain while they are leased and are done otherwise; draining
      addresses that come back are taken over again. */
  ghost function Replacing(v: PoolView, addresses: seq<Address>): PoolView {
    if v.current == addresses then v
    else
      var leaving := Elements(v.current) - Elements(addresses);
      PoolView(addresses, 0, v.active,
               (v.draining + set a | a in leaving && a in v.active) - Elements(addresses),
               v.left + multiset(leaving),
               v.notified + multiset(set a | a in leaving && a !in v.active),
               v.readopted + multiset(v.draining * Elements(addresses)))
  }

  /** What a replacement leaves: the addresses in their order, starting over unless they are the old ones;
      what drained or is leased and not listed drains. */
  lemma ReplacingLeaves(v: PoolView, addresses: seq<Address>)
    requires Consistent(v)
    ensures var t := Replacing(v, addresses);
      && t.current == addresses && t.next == (if v.current == addresses then v.next else 0) && t.active == v.active
      && forall a :: a in t.draining <==>
           a !in addresses && (a in v.draining || (a in v.current && a in v.active))
  {
    hide Distinct, Balanced;
  }

  /** What leaves without a lease is notified once, and nothing else is. */
  lemma LeavingIsNotified(v: PoolView, addresses: seq<Address>)
    ensures forall a :: Replacing(v, addresses).notified[a] ==
              v.notified[a] + One(a in v.current && a !in addresses && a !in v.active)
  {
  }

  /** These leases are gone and nothing else happened, except that an address whose last lease
      went stopped draining and had its notification decided. */
  ghost predicate Dropped(before: PoolView, after: PoolView, gone: set<SourceLease>) {
    && after.current == before.current && after.next == before.next && after.left == before.left
    && after.readopted == before.readopted
    && (forall a :: a in after.active ==> a in before.active && after.active[a] == before.active[a] - gone)
    && (forall a :: a in before.active && a !in after.active ==> before.active[a] <= gone)
    && after.draining == (set a | a in before.draining && a in after.active)
    && (forall a :: after.notified[a] == before.notified[a] + One(a in before.draining && a !in after.active))
  }

  lemma DroppingIsDropped(v: PoolView, lease: SourceLease)
    requires Consistent(v)
    ensures Dropped(v, Dropping(v, lease), {lease})
  {
    hide Distinct, Balanced;
    var a, t := lease.address, Dropping(v, lease);
    forall b | b in t.active ensures b in v.active && t.active[b] == v.active[b] - {lease} {
      assert b != a ==> lease !in v.active[b];
    }
    assert t.draining == (set b | b in v.draining && b in t.active);
  }

  lemma DroppingKeepsConsistent(v: PoolView, lease: SourceLease)
    requires Consistent(v)
    ensures Consistent(Dropping(v, lease)) && NotifiesQuietly(v, Dropping(v, lease))
  {
    hide Distinct, Balanced;
    DroppingBalances(v, lease);
    DroppingNotifies(v, lease);
    hide NotifiesQuietly;
  }

  lemma DroppingBalances(v: PoolView, lease: SourceLease)
    requires Balanced(v)
    ensures Balanced(Dropping(v, lease))
  {
  }

  lemma DroppingNotifies(v: PoolView, lease: SourceLease)
    requires Consistent(v)
    ensures NotifiesQuietly(v, Dropping(v, lease))
  {
    hide Distinct, Balanced;
  }

  lemma ReplacingKeepsConsistent(v: PoolView, addresses: seq<Address>)
    requires Consistent(v) && addresses != [] && Distinct(addresses)
    ensures Consistent(Replacing(v, addresses)) && NotifiesQuietly(v, Replacing(v, addresses))
  {
    hide Distinct, Balanced;
    ReplacingBalances(v, addresses);
    ReplacingNotifies(v, addresses);
    hide NotifiesQuietly;
    assert forall a :: a in addresses <==> a in Elements(addresses);
    hide Elements;
  }

  lemma ReplacingNotifies(v: PoolView, addresses: seq<Address>)
    ensures NotifiesQuietly(v, Replacing(v, addresses))
  {
    assert forall a :: a in addresses <==> a in Elements(addresses);
    hide Elements;
  }

  /** The four cases of an address: it stays, leaves leased, leaves free, or returns while draining. */
  lemma ReplacingBalances(v: PoolView, addresses: seq<Address>)
    requires Consistent(v)
    ensures Balanced(Replacing(v, addresses))
  {
    hide Distinct;
    var t := Replacing(v, addresses);
    assert forall a :: a in v.current <==> a in Elements(v.current);
    hide Elements;
    forall a ensures t.left[a] == t.notified[a] + t.readopted[a] + One(a in t.draining) {
      assert v.left[a] == v.notified[a] + v.readopted[a] + One(a in v.draining);
    }
  }

  lemma SameIsKept(v: PoolView)
    ensures Replacing(v, v.current) == v
  {
  }

  /** The current addresses that are not kept and have a lease, and those that have none. */
  ghost function Retiring(current: seq<Address>, active: map<Address, set<SourceLease>>,
                          kept: set<Address>): set<Address> {
    set a | a in Elements(current) - kept && a in active
  }

  ghost function Ready(current: seq<Address>, active: map<Address, set<SourceLease>>,
                       kept: set<Address>): set<Address> {
    set a | a in Elements(current) - kept && a !in active
  }

  lemma ReplacedParts(v: PoolView, addresses: seq<Address>, ready: seq<Address>, retiring: set<Address>)
    requires v.current != addresses
    requires retiring == Retiring(v.current, v.active, Elements(addresses))
    requires multiset(ready) == multiset(Ready(v.current, v.active, Elements(addresses)))
    ensures var t := Replacing(v, addresses);
      && t.current == addresses && t.next == 0 && t.active == v.active
      && t.draining == v.draining + retiring - Elements(addresses) && t.notified == v.notified + multiset(ready)
  {
    hide Elements;
  }

  lemma CurrentIsDistinct(v: PoolView)
    requires Consistent(v)
    ensures Distinct(v.current) && v.current != []
  {
    hide Distinct, Balanced;
  }

  lemma KeepingIsQuiet(v: PoolView)
    ensures NotifiesQuietly(v, v)
  {
  }

  lemma DrainingIsLeased(v: PoolView)
    requires Consistent(v)
    ensures forall a :: a in v.draining ==> a in v.active
  {
    hide Distinct, Balanced;
  }

  lemma NothingDropped(v: PoolView)
    requires Consistent(v)
    ensures Dropped(v, v, {})
  {
    hide Distinct, Balanced;
  }

  lemma AllDropped(before: PoolView, after: PoolView, a: Address)
    requires Consistent(before) && Consistent(after) && a in before.draining && a in before.active
             && Dropped(before, after, before.active[a])
    ensures a !in after.active && a !in after.draining
  {
    hide Distinct, Balanced;
  }

  /** Dropping one set of leases after another drops both. */
  lemma DroppedTwice(u: PoolView, v: PoolView, w: PoolView, some: set<SourceLease>, more: set<SourceLease>)
    requires Dropped(u, v, some) && Dropped(v, w, more) && Consistent(u) && Consistent(v)
    ensures Dropped(u, w, some + more)
  {
    hide Distinct, Balanced;
  }

  ghost function LeasesOf(active: map<Address, set<SourceLease>>): set<SourceLease> {
    set a, l | a in active && l in active[a] :: l
  }

  lemma DroppedLeases(v: PoolView, lease: SourceLease)
    requires Consistent(v)
    ensures LeasesOf(Dropping(v, lease).active) == LeasesOf(v.active) - {lease}
  {
    hide Distinct, Balanced;
    var t := Dropping(v, lease);
    forall a, l | a in v.active && l in v.active[a] && l != lease ensures a in t.active && l in t.active[a] {
    }
    forall a, l | a in t.active && l in t.active[a] ensures a in v.active && l in v.active[a] && l != lease {
    }
  }

  lemma AcquiringKeepsConsistent(v: PoolView, address: Address, lease: SourceLease)
    requires Consistent(v) && lease.address == address
    ensures Consistent(v.(next := (v.next + 1) % UINT64,
                          active := v.active[address :=
                            (if address in v.active then v.active[address] else {}) + {lease}]))
  {
    hide Distinct;
  }

  lemma AcquiredLeases(active: map<Address, set<SourceLease>>, address: Address, lease: SourceLease)
    ensures LeasesOf(active[address := (if address in active then active[address] else {}) + {lease}])
            == LeasesOf(active) + {lease}
  {
    var t := active[address := (if address in active then active[address] else {}) + {lease}];
    forall a, l | a in active && l in active[a] ensures a in t && l in t[a] {
    }
    assert address in t && lease in t[address];
  }

  class SourcePool {
    var current: seq<Address>
    var next: nat
    var active: map<Address, set<SourceLease>>
    var draining: set<Address>
    ghost var left: multiset<Address>
    ghost var notified: multiset<Address>
    ghost var readopted: multiset<Address>
    /** All leases in the table. */
    ghost var leases: set<SourceLease>

    ghost function View(): PoolView
      reads this
    {
      PoolView(current, next, active, draining, left, notified, readopted)
    }

    ghost predicate Valid()
      reads this
    {
      Consistent(View()) && leases == LeasesOf(active) && forall a, l :: a in active && l in active[a] ==>
                                                                           l.pool == this
    }

    /** No release or forced drain is under way, except for these leases. */
    ghost predicate RestingBut(some: set<SourceLease>)
      reads this, leases
    {
      forall l :: l in leases && l !in some ==> !l.forced && !l.once
    }

    ghost predicate Resting()
      reads this, leases
    {
      RestingBut({})
    }

    /** Leases that stay and do not change keep resting. */
    twostate lemma StaysResting(gone: set<SourceLease>, new born: set<SourceLease>)
      requires leases == old(leases) - gone + born && forall l :: l in born ==> !l.forced && !l.once
      requires forall l :: l in old(leases) && l !in gone ==> l.forced == old(l.forced) && l.once == old(l.once)
      ensures old(RestingBut(gone)) ==> Resting()
    {
    }

    twostate lemma StillResting()
      requires leases == old(leases) && forall l :: l in old(leases) ==>
                l.forced == old(l.forced) && l.once == old(l.once)
      ensures old(Resting()) ==> Resting()
    {
    }

    twostate lemma RestsAnyway(some: set<SourceLease>)
      ensures old(Resting()) ==> old(RestingBut(some))
    {
    }

    twostate lemma RestsBut(lease: SourceLease)
      requires leases == old(leases)
      requires forall l :: l in old(leases) && l != lease ==> l.forced == old(l.forced) && l.once == old(l.once)
      ensures old(Resting()) ==> RestingBut({lease}) && (old(lease.once) ==> Resting())
    {
    }

    constructor (addresses: seq<Address>)
      requires addresses != [] && Distinct(addresses)
      ensures Valid() && Resting() && current == addresses && next == 0 && active == map[] && draining == {}
    {
      current, next, active, draining := addresses, 0, map[], {};
      left, notified, readopted, leases := multiset{}, multiset{}, multiset{}, {};
    }

    method Acquire() returns (lease: SourceLease)
      requires Valid()
      modifies this`next, this`active, this`leases
      ensures Valid() && fresh(lease) && lease.pool == this && !lease.forced && !lease.once && !lease.released
              && lease.closer == None
      ensures lease.address == current[old(next) % |current|] && next == (old(next) + 1) % UINT64
      ensures active == old(active)[lease.address :=
                          (if lease.address in old(active) then old(active)[lease.address] else {}) + {lease}]
      ensures old(Resting()) ==> Resting()
    {
      hide LeasesOf, Resting, RestingBut, Consistent;
      CurrentIsDistinct(View());
      var address := current[next % |current|];
      next := (next + 1) % UINT64;
      lease := new SourceLease(this, address);
      AcquiredLeases(active, address, lease);
      AcquiringKeepsConsistent(old(View()), address, lease);
      active := active[address := (if address in active then active[address] else {}) + {lease}];
      leases := leases + {lease};
      StaysResting({}, {lease});
      RestsAnyway({});
    }

    /** The lease leaves the pool; with the last one a draining address is done. */
    method Drop(lease: SourceLease)
      requires Valid() && lease.pool == this
      modifies this`active, this`draining, this`notified, this`leases
      ensures Valid() && View() == Dropping(old(View()), lease)
      ensures NotifiesQuietly(old(View()), View())
      ensures leases == old(leases) - {lease}
    {
      hide Consistent, NotifiesQuietly, LeasesOf, Resting, RestingBut;
      DroppedLeases(View(), lease);
      DroppingKeepsConsistent(View(), lease);
      leases := leases - {lease};
      var address := lease.address;
      if address !in active || lease !in active[address] { return; }
      var rest := active[address] - {lease};
      if rest != {} {
        active := active[address := rest];
        assert View() == Dropping(old(View()), lease);
        return;
      }
      active := active - {address};
      if address in draining {
        draining := draining - {address};
        notified := notified + multiset{address};
      }
      assert View() == Dropping(old(View()), lease);
    }

    /** The current addresses that are not kept: leased ones drain, the others are ready. */
    static method Retire(current: seq<Address>, active: map<Address, set<SourceLease>>, kept: set<Address>)
      returns (draining: set<Address>, ready: seq<Address>)
      requires Distinct(current)
      ensures draining == Retiring(current, active, kept)
      ensures multiset(ready) == multiset(Ready(current, active, kept))
    {
      hide Distinct, Elements;
      draining, ready := {}, [];
      NoElements(current[..0]);
      for i := 0 to |current|
        invariant draining == set a | a in Elements(current[..i]) - kept && a in active
        invariant multiset(ready) == multiset(set a | a in Elements(current[..i]) - kept && a !in active)
      {
        ElementsStep(current, i);
        var address := current[i];
        if address in kept {
          assert Elements(current[..i + 1]) - kept == Elements(current[..i]) - kept;
          continue;
        }
        ghost var before, after := Elements(current[..i]) - kept, Elements(current[..i + 1]) - kept;
        assert after == before + {address} && address !in before;
        if address in active {
          draining := draining + {address};
          assert (set a | a in after && a !in active) == (set a | a in before && a !in active);
        } else {
          ready := ready + [address];
          assert (set a | a in after && a in active) == (set a | a in before && a in active);
          assert (set a | a in after && a !in active) == (set a | a in before && a !in active) + {address};
        }
      }
      assert current[..|current|] == current;
    }

    method Replace(addresses: seq<Address>) returns (r: Result<(), SourceError>)
      requires Valid()
      modifies this
      ensures Valid() && (r.Ok? <==> addresses != [] && Distinct(addresses))
      ensures View() == if r.Ok? then Replacing(old(View()), addresses) else old(View())
      ensures NotifiesQuietly(old(View()), View())
      ensures active == old(active) && (old(Resting()) ==> Resting())
    {
      hide Consistent, Distinct, NotifiesQuietly, Elements, Replacing, Retiring, Ready, LeasesOf, Resting, RestingBut;
      CurrentIsDistinct(View());
      KeepingIsQuiet(View());
      var normalized := Normalize(addresses);
      if normalized.Err? { return Err(normalized.error); }
      ghost var before := View();
      ReplacingKeepsConsistent(before, addresses);
      if current == normalized.value {
        SameIsKept(before);
        return Ok(());
      }
      var newSet := Elements(normalized.value);
      var retiring, ready := Retire(current, active, newSet);
      ReplacedParts(before, addresses, ready, retiring);
      ghost var after := Replacing(before, addresses);
      draining := draining + retiring - newSet;
      current, next := normalized.value, 0;
      notified := notified + multiset(ready);
      left, readopted := after.left, after.readopted;
      assert View() == after;
      StillResting();
      return Ok(());
    }

    lemma ValidIsConsistent()
      requires Valid()
      ensures Consistent(View())
    {
      hide Consistent;
    }

    /** Every lease of a draining address is forced; errors of the closers do not stop it. */
    method ForceDrain(address: Address, connections: Connections) returns (r: Result<bool, SourceError>)
      requires Valid() && Resting()
      modifies this, leases, connections
      ensures Valid() && Resting()
      ensures r.Err? <==> address !in old(draining)
      ensures r.Err? ==> View() == old(View()) && connections.closed == old(connections.closed)
      ensures r.Ok? ==> address !in active && address !in draining && Dropped(old(View()), View(), old(active)[address])
      ensures r.Ok? ==>
                ClosedFor(map l | l in old(active)[address] :: old(l.closer), old(active)[address],
                          old(connections.closed), connections.closed)
      ensures r.Ok? ==> (r.value <==> connections.failed == old(connections.failed))
    {
      hide Consistent, NotifiesQuietly, Dropping, Dropped, ClosedFor;
      if address !in draining { return Err(NotDraining); }
      DrainingIsLeased(View());
      assert active[address] <= leases;
      ghost var before := View();
      ghost var attached := map l | l in active[address] :: l.closer;
      var clean := ForceAll(active[address], connections, attached);
      assert attached == map l | l in old(active)[address] :: old(l.closer);
      AllDropped(before, View(), address);
      return Ok(clean);
    }

    method ForceOne(lease: SourceLease, connections: Connections, ghost before: PoolView,
                    ghost gone: set<SourceLease>, ghost attached: map<SourceLease, Option<Closer>>,
                    ghost closedBefore: multiset<Closer>) returns (closed: bool)
      requires Valid() && lease.pool == this && !lease.forced && !lease.once && Consistent(before)
               && Dropped(before, View(), gone)
      requires lease !in gone && lease in attached && attached[lease] == lease.closer
               && ClosedFor(attached, gone, closedBefore, connections.closed)
      modifies this, lease, connections
      ensures Valid() && Dropped(before, View(), gone + {lease})
      ensures old(Resting()) ==> Resting()
      ensures ClosedFor(attached, gone + {lease}, closedBefore, connections.closed)
      ensures old(connections.failed) <= connections.failed
      ensures closed <==> connections.failed == old(connections.failed)
    {
      hide Consistent, NotifiesQuietly, Dropping, Dropped, Resting, ClosedFor;
      ghost var middle := View();
      DroppingIsDropped(middle, lease);
      closed := lease.Force(connections);
      DroppedTwice(before, middle, View(), gone, {lease});
      OneMoreClosed(attached, gone, lease, closedBefore, old(connections.closed), connections.closed);
    }

    /** No release or forced drain of these leases has begun; these are their connections. */
    ghost predicate Fresh(pending: set<SourceLease>, attached: map<SourceLease, Option<Closer>>)
      reads pending
    {
      forall l :: l in pending ==> !l.forced && !l.once && l in attached && l.closer == attached[l] && l.pool == this
    }

    lemma FreshOne(pending: set<SourceLease>, attached: map<SourceLease, Option<Closer>>, l: SourceLease)
      requires Fresh(pending, attached) && l in pending
      ensures !l.forced && !l.once && l in attached && l.closer == attached[l] && l.pool == this
      ensures Fresh(pending - {l}, attached)
    {
    }

    method ForceAll(targets: set<SourceLease>, connections: Connections,
                    ghost attached: map<SourceLease, Option<Closer>>) returns (clean: bool)
      requires Valid() && Fresh(targets, attached)
      modifies this, targets, connections
      ensures Valid() && Dropped(old(View()), View(), targets)
      ensures old(Resting()) ==> Resting()
      ensures ClosedFor(attached, targets, old(connections.closed), connections.closed)
      ensures clean <==> connections.failed == old(connections.failed)
    {
      hide *;
      ValidIsConsistent();
      var pending := targets;
      clean := true;
      ghost var before, gone: set<SourceLease> := View(), {};
      NothingDropped(before);
      NothingClosed(attached, connections.closed);
      while pending != {}
        invariant pending + gone == targets && pending !! gone && Valid()
        invariant old(Resting()) ==> Resting()
        invariant Dropped(before, View(), gone)
        invariant Fresh(pending, attached)
        invariant ClosedFor(attached, gone, old(connections.closed), connections.closed)
        invariant old(connections.failed) <= connections.failed
        invariant clean <==> connections.failed == old(connections.failed)
        decreases |pending|
      {
        var lease :| lease in pending;
        FreshOne(pending, attached, lease);
        var closed := ForceOne(lease, connections, before, gone, attached, old(connections.closed));
        pending := pending - {lease};
        gone := gone + {lease};
        clean := clean && closed;
      }
      assert gone == targets;
    }

    /** `normalizeSourceAddresses`. */
    static method Normalize(addresses: seq<Address>) returns (r: Result<seq<Address>, SourceError>)
      ensures r.Ok? <==> addresses != [] && Distinct(addresses)
      ensures r.Ok? ==> r.value == addresses
    {
      if addresses == [] { return Err(Empty); }
      var seen: set<Address> := {};
      for i := 0 to |addresses|
        invariant seen == Elements(addresses[..i]) && Distinct(addresses[..i])
      {
        ElementsStep(addresses, i);
        if addresses[i] in seen { return Err(Repeated); }
        AppendKeepsDistinct(addresses[..i], addresses[i]);
        assert addresses[..i + 1] == addresses[..i] + [addresses[i]];
        seen := seen + {addresses[i]};
      }
      assert addresses[..|addresses|] == addresses;
      return Ok(addresses);
    }
  }

  /** The leases among these that hold the connection. */
  ghost function Attached(closers: map<SourceLease, Option<Closer>>, leases: set<SourceLease>,
                          c: Closer): set<SourceLease>
  {
    set l | l in leases && l in closers && closers[l] == Some(c)
  }

  /** Every connection was closed once more for each of these leases that holds it. */
  ghost predicate ClosedFor(closers: map<SourceLease, Option<Closer>>, leases: set<SourceLease>,
                            before: multiset<Closer>, after: multiset<Closer>) {
    forall c: Closer :: after[c] == before[c] + |Attached(closers, leases, c)|
  }

  lemma NothingClosed(closers: map<SourceLease, Option<Closer>>, closed: multiset<Closer>)
    ensures ClosedFor(closers, {}, closed, closed)
  {
    assert forall c: Closer :: Attached(closers, {}, c) == {};
  }

  lemma OneMoreClosed(closers: map<SourceLease, Option<Closer>>, leases: set<SourceLease>, lease: SourceLease,
                      before: multiset<Closer>, middle: multiset<Closer>, after: multiset<Closer>)
    requires lease in closers && lease !in leases && ClosedFor(closers, leases, before, middle)
    requires after == middle + if closers[lease].Some? then multiset{closers[lease].value} else multiset{}
    ensures ClosedFor(closers, leases + {lease}, before, after)
  {
    forall c: Closer ensures after[c] == before[c] + |Attached(closers, leases + {lease}, c)| {
      var held, now := Attached(closers, leases, c), Attached(closers, leases + {lease}, c);
      assert now == if closers[lease] == Some(c) then held + {lease} else held;
    }
  }
}
