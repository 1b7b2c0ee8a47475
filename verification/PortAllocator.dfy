/** `proxy.PortAllocator`: reservations of proxy endpoints, manual or by a cyclic search of the
    automatic range. */
module PortAllocator {
  import opened Wrappers
  import opened FiniteSets
  import opened Prefixes

  datatype BindProtocol = BindTCP | BindUDP | OtherProtocol(text: string)

  datatype BindFamily = BindIPv4 | BindIPv6 | OtherFamily(text: string)

  datatype IP = IP4(bits: nat) | IP6(address: Address)

  /** Without an address the endpoint is a wildcard. */
  datatype BindSpec = BindSpec(protocol: BindProtocol, family: BindFamily, address: Option<IP>, iface: string,
                               freebind: bool)

  datatype BindEndpoint = BindEndpoint(spec: BindSpec, port: nat)

  datatype Binding = Binding(endpoint: BindEndpoint, socket: nat)

  datatype ReserveError =
    | NoSpecification | Unsupported | AddressMismatch | Duplicate
    | PortConflict | BindFailed | NoAvailablePort | Cancelled

  // ---- the socket addresses of an endpoint ----

  datatype SocketAddress = SocketAddress(protocol: BindProtocol, family: BindFamily, ip: IP, port: nat)

  /** A socket on these specifications receives on this protocol, family and IP. */
  predicate Reaches(s: BindSpec, protocol: BindProtocol, family: BindFamily, ip: IP) {
    && s.protocol == protocol && s.family == family
    && (family == BindIPv4 <==> ip.IP4?) && (s.address.Some? ==> s.address.value == ip)
  }

  predicate Occupies(e: BindEndpoint, a: SocketAddress) {
    e.port == a.port && Reaches(e.spec, a.protocol, a.family, a.ip)
  }

  /** Some socket address is occupied by both. */
  ghost predicate Meet(l: BindEndpoint, r: BindEndpoint) {
    exists a :: Occupies(l, a) && Occupies(r, a)
  }

  ghost predicate SpecsMeet(l: BindSpec, r: BindSpec) {
    exists protocol, family, ip :: Reaches(l, protocol, family, ip) && Reaches(r, protocol, family, ip)
  }

  predicate WellTyped(s: BindSpec) {
    && !s.protocol.OtherProtocol? && !s.family.OtherFamily?
    && (s.address.Some? ==> (s.family == BindIPv4 <==> s.address.value.IP4?))
  }

  /** No socket address is occupied twice. */
  ghost predicate Exclusive(endpoints: set<BindEndpoint>) {
    forall x, y, a :: x in endpoints && y in endpoints && Occupies(x, a) && Occupies(y, a) ==> x == y
  }

  ghost predicate AllWellTyped(endpoints: set<BindEndpoint>) {
    forall e :: e in endpoints ==> WellTyped(e.spec)
  }

  // ---- conflicts ----

  predicate SpecsConflict(l: BindSpec, r: BindSpec) {
    l.protocol == r.protocol && l.family == r.family
    && (l.address == None || r.address == None || l.address == r.address)
  }

  predicate EndpointsConflict(l: BindEndpoint, r: BindEndpoint) { l.port == r.port && SpecsConflict(l.spec, r.spec) }

  lemma SpecsConflictMeansMeeting(l: BindSpec, r: BindSpec)
    requires WellTyped(l) && WellTyped(r)
    ensures SpecsConflict(l, r) <==> SpecsMeet(l, r)
  {
    if SpecsConflict(l, r) {
      var some := if l.family == BindIPv4 then IP4(0) else IP6(0);
      var ip := if l.address.Some? then l.address.value else if r.address.Some? then r.address.value else some;
      assert Reaches(l, l.protocol, l.family, ip);
    }
  }

  /** A specification is well typed exactly when a socket of a known protocol can be bound to it at all. */
  lemma WellTypedReaches(s: BindSpec)
    ensures WellTyped(s) <==>
              exists protocol, family, ip :: Reaches(s, protocol, family, ip)
                                             && (protocol == BindTCP || protocol == BindUDP)
                                             && (family == BindIPv4 || family == BindIPv6)
  {
    if WellTyped(s) {
      var some := if s.family == BindIPv4 then IP4(0) else IP6(0);
      assert Reaches(s, s.protocol, s.family, if s.address.Some? then s.address.value else some);
    }
  }

  /** The test on two endpoints finds exactly the socket addresses they have in common. */
  lemma ConflictMeansMeeting(l: BindEndpoint, r: BindEndpoint)
    requires WellTyped(l.spec) && WellTyped(r.spec)
    ensures EndpointsConflict(l, r) <==> Meet(l, r)
  {
    SpecsConflictMeansMeeting(l.spec, r.spec);
    if EndpointsConflict(l, r) {
      var protocol, family, ip :| Reaches(l.spec, protocol, family, ip) && Reaches(r.spec, protocol, family, ip);
      assert Occupies(l, SocketAddress(protocol, family, ip, l.port));
    }
    if Meet(l, r) {
      var a :| Occupies(l, a) && Occupies(r, a);
      assert Reaches(l.spec, a.protocol, a.family, a.ip);
    }
  }

  lemma MeetingAtOnePort(l: BindSpec, r: BindSpec, port: nat)
    ensures Meet(BindEndpoint(l, port), BindEndpoint(r, port)) <==> SpecsMeet(l, r)
  {
    var x, y := BindEndpoint(l, port), BindEndpoint(r, port);
    if SpecsMeet(l, r) {
      var protocol, family, ip :| Reaches(l, protocol, family, ip) && Reaches(r, protocol, family, ip);
      assert Occupies(x, SocketAddress(protocol, family, ip, port));
    }
    if Meet(x, y) {
      var a :| Occupies(x, a) && Occupies(y, a);
      assert Reaches(l, a.protocol, a.family, a.ip);
    }
  }

  /** What a list of specifications has to be: not empty, well typed and free of overlaps. */
  ghost predicate Normal(specs: seq<BindSpec>) {
    specs != [] && NormalSoFar(specs)
  }

  ghost predicate NormalSoFar(specs: seq<BindSpec>) {
    && (forall i :: 0 <= i < |specs| ==> WellTyped(specs[i]))
    && (forall i, j :: 0 <= i < j < |specs| ==> !SpecsMeet(specs[i], specs[j]))
  }

  /** What is wrong with the first specification that cannot join those before it. */
  ghost predicate Blamed(before: seq<BindSpec>, s: BindSpec, error: ReserveError) {
    match error
    case Unsupported => s.protocol.OtherProtocol? || s.family.OtherFamily?
    case AddressMismatch => s.address.Some? && (s.family == BindIPv4) != s.address.value.IP4?
    case Duplicate => s in before
    case PortConflict => s !in before && exists k :: 0 <= k < |before| && SpecsMeet(before[k], s)
    case _ => false
  }

  ghost predicate Rejected(specs: seq<BindSpec>, error: ReserveError) {
    if specs == [] then error == NoSpecification
    else exists i :: 0 <= i < |specs| && NormalSoFar(specs[..i]) && Blamed(specs[..i], specs[i], error)
  }

  method NormalizeBindSpecs(specs: seq<BindSpec>) returns (r: Result<seq<BindSpec>, ReserveError>)
    ensures r.Ok? <==> Normal(specs)
    ensures r.Ok? ==> r.value == specs
    ensures r.Err? ==> Rejected(specs, r.error)
  {
    hide SpecsMeet, SpecsConflict;
    if specs == [] { return Err(NoSpecification); }
    var normalized: seq<BindSpec> := [];
    for i := 0 to |specs|
      invariant normalized == specs[..i] && NormalSoFar(specs[..i])
    {
      var spec := specs[i];
      if spec.protocol.OtherProtocol? || spec.family.OtherFamily? { return Err(Unsupported); }
      if spec.address.Some? && (spec.family == BindIPv4) != spec.address.value.IP4? { return Err(AddressMismatch); }
      if spec in normalized {
        ghost var k :| 0 <= k < i && specs[k] == spec;
        MeetsItself(spec);
        return Err(Duplicate);
      }
      for j := 0 to |normalized|
        invariant forall k :: 0 <= k < j ==> !SpecsMeet(normalized[k], spec)
      {
        SpecsConflictMeansMeeting(normalized[j], spec);
        ConflictIsSymmetric(normalized[j], spec);
        if SpecsConflict(spec, normalized[j]) {
          assert SpecsMeet(specs[..i][j], specs[i]);
          return Err(PortConflict);
        }
      }
      normalized := normalized + [spec];
      assert specs[..i + 1] == specs[..i] + [spec];
    }
    assert specs[..|specs|] == specs;
    return Ok(normalized);
  }

  lemma MeetsItself(s: BindSpec)
    requires WellTyped(s)
    ensures SpecsMeet(s, s)
  {
    SpecsConflictMeansMeeting(s, s);
  }

  lemma ConflictIsSymmetric(l: BindSpec, r: BindSpec)
    ensures SpecsConflict(l, r) == SpecsConflict(r, l)
  {
  }

  function EndpointsAt(specs: seq<BindSpec>, port: nat): (r: seq<BindEndpoint>)
    ensures |r| == |specs| && forall i :: 0 <= i < |r| ==> r[i] == BindEndpoint(specs[i], port)
  {
    seq(|specs|, i requires 0 <= i < |specs| => BindEndpoint(specs[i], port))
  }

  /** The port is free for these specifications. */
  ghost predicate FreeFor(reserved: set<BindEndpoint>, specs: seq<BindSpec>, port: nat) {
    forall i, e :: 0 <= i < |specs| && e in reserved ==> !Meet(BindEndpoint(specs[i], port), e)
  }

  // ---- the sockets outside ----

  class Sockets {
    /** The open sockets, and where each was bound. */
    var open: map<nat, BindEndpoint>
    const faulty: bool

    constructor (faulty: bool)
      ensures open == map[] && this.faulty == faulty
    {
      open, this.faulty := map[], faulty;
    }

    method Bind(endpoint: BindEndpoint) returns (socket: Option<nat>)
      modifies this
      ensures socket.Some? ==> socket.value !in old(open) && open == old(open)[socket.value := endpoint]
      ensures socket.None? ==> open == old(open)
      ensures !faulty ==> socket.Some?
    {
      var failed: bool := *;
      if faulty && failed { return None; }
      var s := FreshSocket(open.Keys);
      open := open[s := endpoint];
      return Some(s);
    }

    static method FreshSocket(used: set<nat>) returns (s: nat)
      ensures s !in used
    {
      var pending := used;
      s := 0;
      while pending != {}
        invariant pending <= used && forall u :: u in used && u !in pending ==> u < s
        decreases |pending|
      {
        var u :| u in pending;
        if u >= s { s := u + 1; }
        pending := pending - {u};
      }
    }

    /** An error does not keep the socket open. */
    method Close(socket: nat) returns (ok: bool)
      modifies this
      ensures open == old(open) - {socket}
    {
      open := open - {socket};
      ok := *;
    }
  }

  // ---- the cyclic order of the range ----

  function After(start: nat, end: nat, port: nat): nat {
    if port >= end || port < start then start else port + 1
  }

  function Count(start: nat, end: nat): nat
    requires start <= end
  { end - start + 1 }

  /** The port `i` steps after `from`. */
  function Position(start: nat, end: nat, from: nat, i: nat): (p: nat)
    requires start <= from <= end
    ensures start <= p <= end
  {
    start + (from - start + i) % Count(start, end)
  }

  lemma PositionStep(start: nat, end: nat, from: nat, i: nat)
    requires start <= from <= end
    ensures Position(start, end, from, i + 1) == After(start, end, Position(start, end, from, i))
    ensures Position(start, end, from, 0) == from
  {
    var n := Count(start, end);
    var k := from - start + i;
    ModStep(k, n);
    SmallMod(from - start, n);
  }

  lemma ModStep(k: nat, n: nat)
    requires n > 0
    ensures (k + 1) % n == if k % n == n - 1 then 0 else k % n + 1
  {
    ModBounds(k, n);
    var q, r := k / n, k % n;
    if r == n - 1 { Remainder(k + 1, n, q + 1, 0); } else { Remainder(k + 1, n, q, r + 1); }
  }

  lemma Remainder(k: nat, n: nat, q: nat, r: nat)
    requires n > 0 && r < n && k == q * n + r
    ensures k % n == r
  {
    QuotientIsUnique(k, n, q, r);
    ModBounds(k, n);
  }

  lemma SmallMod(k: nat, n: nat)
    requires k < n
    ensures k % n == k
  {
  }

  /** A full round visits every port of the range exactly once. */
  lemma RoundVisitsEachPortOnce(start: nat, end: nat, from: nat, port: nat)
    requires start <= from <= end && start <= port <= end
    ensures exists i :: 0 <= i < Count(start, end) && Position(start, end, from, i) == port
    ensures forall i, j :: 0 <= i < j < Count(start, end) ==>
              Position(start, end, from, i) != Position(start, end, from, j)
  {
    var n := Count(start, end);
    var i := if port >= from then port - from else port - from + n;
    PositionWithin(start, end, from, i);
    assert Position(start, end, from, i) == port;
    forall j, k | 0 <= j < k < n ensures Position(start, end, from, j) != Position(start, end, from, k) {
      PositionWithin(start, end, from, j);
      PositionWithin(start, end, from, k);
    }
  }

  lemma PositionWithin(start: nat, end: nat, from: nat, i: nat)
    requires start <= from <= end && i < Count(start, end)
    ensures Position(start, end, from, i) == if from + i <= end then from + i else from + i - Count(start, end)
  {
    var n := Count(start, end);
    var k := from - start + i;
    if k < n { SmallMod(k, n); } else { Remainder(k, n, 1, k - n); }
  }

  // ---- who holds which endpoint ----

  function Endpoints(bindings: seq<Binding>): set<BindEndpoint> { set b | b in bindings :: b.endpoint }

  ghost function BoundSockets(bindings: seq<Binding>): set<nat> { set b | b in bindings :: b.socket }

  /** These bindings are new on the sockets, each open where it says, and nothing else has changed. */
  ghost predicate Opened(before: map<nat, BindEndpoint>, after: map<nat, BindEndpoint>, bindings: seq<Binding>) {
    && BoundSockets(bindings) !! before.Keys && after - BoundSockets(bindings) == before
    && forall b :: b in bindings ==> b.socket in after && after[b.socket] == b.endpoint
  }

  type Holders = map<PortReservation, seq<Binding>>

  /** The reserved endpoints are exactly the bindings of the reservations, each held by one of them. */
  ghost predicate Accounted(reserved: set<BindEndpoint>, holders: Holders) {
    && (forall r :: r in holders ==> Endpoints(holders[r]) <= reserved)
    && (forall e :: e in reserved ==> exists r :: r in holders && e in Endpoints(holders[r]))
    && (forall r, q :: r in holders && q in holders && r != q ==> Endpoints(holders[r]) !! Endpoints(holders[q]))
  }

  lemma HolderJoins(reserved: set<BindEndpoint>, holders: Holders, r: PortReservation, bindings: seq<Binding>)
    requires Accounted(reserved, holders) && r !in holders && Endpoints(bindings) !! reserved
    ensures Accounted(reserved + Endpoints(bindings), holders[r := bindings])
  {
    hide Endpoints;
    var after := holders[r := bindings];
    forall e | e in reserved + Endpoints(bindings) ensures exists q :: q in after && e in Endpoints(after[q]) {
      if e in reserved {
        var q: PortReservation :| q in holders && e in Endpoints(holders[q]);
        assert e in Endpoints(after[q]);
      } else {
        assert e in Endpoints(after[r]);
      }
    }
  }

  lemma HolderGivesUp(reserved: set<BindEndpoint>, holders: Holders, r: PortReservation, left: seq<Binding>)
    requires Accounted(reserved, holders) && r in holders && Endpoints(left) <= Endpoints(holders[r])
    ensures Accounted(reserved - (Endpoints(holders[r]) - Endpoints(left)), holders[r := left])
  {
    hide Endpoints;
    var after, kept := holders[r := left], reserved - (Endpoints(holders[r]) - Endpoints(left));
    forall e | e in kept ensures exists q :: q in after && e in Endpoints(after[q]) {
      var q: PortReservation :| q in holders && e in Endpoints(holders[q]);
      assert e in Endpoints(after[q]);
    }
  }

  class PortReservation {
    const allocator: PortAllocator
    const port: nat
    var bindings: seq<Binding>
    var closed: bool

    constructor (allocator: PortAllocator, port: nat, bindings: seq<Binding>)
      ensures this.allocator == allocator && this.port == port && this.bindings == bindings && !closed
    {
      this.allocator, this.port, this.bindings, closed := allocator, port, bindings, false;
    }

    /** Some endpoints of an open reservation are given up; their sockets close whatever happens. */
    method ReleaseEndpoints(endpoints: seq<BindEndpoint>)
      requires allocator.Valid() && this in allocator.holders
      modifies this`bindings, allocator`reserved, allocator`holders, allocator.sockets
      ensures allocator.Valid() && this in allocator.holders
      ensures closed ==> bindings == old(bindings) && allocator.reserved == old(allocator.reserved)
                         && allocator.sockets.open == old(allocator.sockets.open)
      ensures !closed ==> bindings == Unselected(old(bindings), Elements(endpoints))
      ensures !closed ==>
                allocator.reserved == old(allocator.reserved) - (Endpoints(old(bindings)) * Elements(endpoints))
      ensures !closed ==>
                allocator.sockets.open == old(allocator.sockets.open)
                - BoundSockets(Selected(old(bindings), Elements(endpoints)))
    {
      hide Exclusive, AllWellTyped, Accounted, Endpoints, BoundSockets, Elements;
      if closed || endpoints == [] {
        if endpoints == [] { NoElements(endpoints); NothingSelected(bindings); }
        return;
      }
      var requested := Elements(endpoints);
      Selection(bindings, requested);
      var released := Selected(bindings, requested);
      var remaining := Unselected(bindings, requested);
      allocator.CloseAll(released);
      allocator.GiveUp(this, released, remaining);
      bindings := remaining;
    }

    method Close()
      requires allocator.Valid() && this in allocator.holders
      modifies this`bindings, this`closed, allocator`reserved, allocator`holders, allocator.sockets
      ensures allocator.Valid() && closed
      ensures old(closed) ==> bindings == old(bindings) && allocator.reserved == old(allocator.reserved)
                              && allocator.sockets.open == old(allocator.sockets.open)
      ensures !old(closed) ==>
                && bindings == [] && allocator.reserved == old(allocator.reserved) - Endpoints(old(bindings))
                && allocator.sockets.open == old(allocator.sockets.open) - BoundSockets(old(bindings))
    {
      hide Exclusive, AllWellTyped, Accounted, Endpoints, BoundSockets;
      if closed { return; }
      closed := true;
      allocator.CloseAll(bindings);
      NoEndpoints();
      allocator.GiveUp(this, bindings, []);
      bindings := [];
    }
  }

  function Selected(bindings: seq<Binding>, requested: set<BindEndpoint>): seq<Binding> {
    if bindings == [] then []
    else
      var before, last := Selected(bindings[..|bindings| - 1], requested), bindings[|bindings| - 1];
      if last.endpoint in requested then before + [last] else before
  }

  function Unselected(bindings: seq<Binding>, requested: set<BindEndpoint>): seq<Binding> {
    if bindings == [] then []
    else
      var before, last := Unselected(bindings[..|bindings| - 1], requested), bindings[|bindings| - 1];
      if last.endpoint in requested then before else before + [last]
  }

  lemma {:induction false} Selection(bindings: seq<Binding>, requested: set<BindEndpoint>)
    ensures Endpoints(Selected(bindings, requested)) == Endpoints(bindings) * requested
    ensures Endpoints(Unselected(bindings, requested)) == Endpoints(bindings) - requested
  {
    if bindings != [] {
      var before, last := bindings[..|bindings| - 1], bindings[|bindings| - 1];
      Selection(before, requested);
      assert bindings == before + [last];
      EndpointsGrow(before, last);
      EndpointsGrow(Selected(before, requested), last);
      EndpointsGrow(Unselected(before, requested), last);
    }
  }

  /** A release parts the bindings: the requested ones, and the others, each as often as it was there. */
  lemma {:induction false} SelectionParts(bindings: seq<Binding>, requested: set<BindEndpoint>)
    ensures forall b :: b in Selected(bindings, requested) ==> b.endpoint in requested
    ensures forall b :: b in Unselected(bindings, requested) ==> b.endpoint !in requested
    ensures multiset(bindings) == multiset(Selected(bindings, requested)) + multiset(Unselected(bindings, requested))
  {
    if bindings != [] {
      var before, last := bindings[..|bindings| - 1], bindings[|bindings| - 1];
      SelectionParts(before, requested);
      assert bindings == before + [last];
    }
  }

  /** Both parts keep the order: a list is parted piece by piece. */
  lemma {:induction false} SelectionKeepsOrder(bindings: seq<Binding>, more: seq<Binding>, requested: set<BindEndpoint>)
    ensures Selected(bindings + more, requested) == Selected(bindings, requested) + Selected(more, requested)
    ensures Unselected(bindings + more, requested) == Unselected(bindings, requested) + Unselected(more, requested)
    decreases |more|
  {
    if more == [] {
      assert bindings + more == bindings;
    } else {
      var before, last := more[..|more| - 1], more[|more| - 1];
      SelectionKeepsOrder(bindings, before, requested);
      assert (bindings + more)[..|bindings + more| - 1] == bindings + before;
    }
  }

  lemma EndpointsGrow(bindings: seq<Binding>, b: Binding)
    ensures Endpoints(bindings + [b]) == Endpoints(bindings) + {b.endpoint}
  {
    assert forall x :: x in bindings + [b] <==> x in bindings || x == b;
  }

  lemma NoEndpoints()
    ensures Endpoints([]) == {}
  {
  }

  lemma {:induction false} NothingSelected(bindings: seq<Binding>)
    ensures Unselected(bindings, {}) == bindings && Selected(bindings, {}) == []
            && BoundSockets(Selected(bindings, {})) == {}
  {
    if bindings != [] {
      NothingSelected(bindings[..|bindings| - 1]);
      assert bindings == bindings[..|bindings| - 1] + [bindings[|bindings| - 1]];
    }
  }

  class PortAllocator {
    const start: nat
    const end: nat
    const sockets: Sockets
    var next: nat
    var reserved: set<BindEndpoint>
    /** The bindings of every reservation made here. */
    ghost var holders: Holders

    ghost predicate Valid()
      reads this, holders.Keys
    {
      && 1 <= start <= next <= end <= 65535
      && Exclusive(reserved) && AllWellTyped(reserved) && Accounted(reserved, holders)
      && forall r :: r in holders ==> r.allocator == this && r.bindings == holders[r]
    }

    constructor (start: nat, end: nat, sockets: Sockets)
      requires 1 <= start <= end <= 65535
      ensures Valid() && this.start == start && this.end == end && this.sockets == sockets && reserved == {}
              && holders == map[]
    {
      this.start, this.end, this.sockets := start, end, sockets;
      next, reserved, holders := start, {}, map[];
    }

    /** Whether some reserved endpoint is in the way. */
    method Conflicts(endpoint: BindEndpoint) returns (conflict: bool)
      requires WellTyped(endpoint.spec) && AllWellTyped(reserved)
      ensures conflict <==> exists e :: e in reserved && Meet(endpoint, e)
    {
      hide Meet, WellTyped;
      var pending := reserved;
      while pending != {}
        invariant pending <= reserved && forall e :: e in reserved && e !in pending ==> !Meet(endpoint, e)
        decreases |pending|
      {
        var e :| e in pending;
        ConflictMeansMeeting(endpoint, e);
        if EndpointsConflict(endpoint, e) { return true; }
        pending := pending - {e};
      }
      return false;
    }

    method AnyConflicts(endpoints: seq<BindEndpoint>) returns (conflict: bool)
      requires AllWellTyped(reserved) && forall e :: e in endpoints ==> WellTyped(e.spec)
      ensures conflict <==> exists i, e :: 0 <= i < |endpoints| && e in reserved && Meet(endpoints[i], e)
    {
      hide Meet, WellTyped, AllWellTyped;
      for i := 0 to |endpoints|
        invariant forall j, e :: 0 <= j < i && e in reserved ==> !Meet(endpoints[j], e)
      {
        conflict := Conflicts(endpoints[i]);
        if conflict { return; }
      }
      return false;
    }

    /** Open every endpoint, or none: a failure closes what was opened. */
    method BindAll(endpoints: seq<BindEndpoint>) returns (r: Option<seq<Binding>>)
      modifies sockets
      ensures r.Some? ==> |r.value| == |endpoints| && forall i :: 0 <= i < |endpoints| ==>
                r.value[i].endpoint == endpoints[i]
      ensures r.Some? ==> Opened(old(sockets.open), sockets.open, r.value)
      ensures r.None? ==> sockets.open == old(sockets.open)
      ensures !sockets.faulty ==> r.Some?
    {
      var bindings: seq<Binding> := [];
      for i := 0 to |endpoints|
        invariant |bindings| == i && forall j :: 0 <= j < i ==> bindings[j].endpoint == endpoints[j]
        invariant Opened(old(sockets.open), sockets.open, bindings)
      {
        var socket := sockets.Bind(endpoints[i]);
        if socket.None? {
          CloseAll(bindings);
          return None;
        }
        BoundOneMore(bindings, Binding(endpoints[i], socket.value));
        bindings := bindings + [Binding(endpoints[i], socket.value)];
      }
      return Some(bindings);
    }

    /** A reservation keeps only `remaining` of its bindings. */
    method GiveUp(r: PortReservation, released: seq<Binding>, remaining: seq<Binding>)
      requires Valid() && r in holders && Endpoints(remaining) == Endpoints(holders[r]) - Endpoints(released)
               && Endpoints(released) <= Endpoints(holders[r])
      modifies this`reserved, this`holders
      ensures reserved == old(reserved) - Endpoints(released)
      ensures Exclusive(reserved) && AllWellTyped(reserved)
      ensures Accounted(reserved, holders) && holders == old(holders)[r := remaining]
    {
      hide Accounted, Endpoints;
      HolderGivesUp(reserved, holders, r, remaining);
      assert Endpoints(holders[r]) - Endpoints(remaining) == Endpoints(released);
      reserved := reserved - Endpoints(released);
      holders := holders[r := remaining];
    }

    /** Newest first; errors do not stop it. */
    method CloseAll(bindings: seq<Binding>)
      modifies sockets
      ensures sockets.open == old(sockets.open) - BoundSockets(bindings)
    {
      var i := |bindings|;
      assert bindings[i..] == [];
      while i > 0
        invariant 0 <= i <= |bindings| && sockets.open == old(sockets.open) - BoundSockets(bindings[i..])
      {
        i := i - 1;
        assert bindings[i..] == [bindings[i]] + bindings[i + 1..];
        assert BoundSockets(bindings[i..]) == {bindings[i].socket} + BoundSockets(bindings[i + 1..]);
        var ok := sockets.Close(bindings[i].socket);
      }
      assert bindings[0..] == bindings;
    }

    method ReserveCandidate(port: nat, specs: seq<BindSpec>) returns (r: Result<PortReservation, ReserveError>)
      requires Valid() && Normal(specs)
      modifies this`reserved, this`holders, sockets
      ensures Valid()
      ensures r.Ok? ==> Made(r.value, port, specs, old(holders), old(reserved), old(sockets.open))
      ensures r.Ok? ==> fresh(r.value)
      ensures r.Err? ==> reserved == old(reserved) && holders == old(holders) && sockets.open == old(sockets.open)
      ensures r.Ok? ==> FreeFor(old(reserved), specs, port)
      ensures r.Err? ==> r.error == PortConflict || (r.error == BindFailed && sockets.faulty)
      ensures r == Err(PortConflict) <==> !FreeFor(old(reserved), specs, port)
      ensures !sockets.faulty ==> (r.Ok? <==> FreeFor(old(reserved), specs, port))
    {
      hide Exclusive, AllWellTyped, Accounted, Normal;
      var endpoints := EndpointsAt(specs, port);
      NormalAreWellTyped(specs, port);
      var conflict := AnyConflicts(endpoints);
      if conflict { return Err(PortConflict); }
      var bound := BindAll(endpoints);
      if bound.None? { return Err(BindFailed); }
      ReservingKeepsApart(reserved, specs, port, bound.value);
      var reservation := new PortReservation(this, port, bound.value);
      HolderJoins(reserved, holders, reservation, bound.value);
      reserved := reserved + set e | e in endpoints;
      BoundEndpoints(bound.value, endpoints);
      holders := holders[reservation := bound.value];
      return Ok(reservation);
    }

    /** `requested` is a port, or zero for the automatic range. `tried` are the ports tried, in order:
        the search stops early only on success or, unless `patient`, on cancellation. */
    method Reserve(requested: nat, specs: seq<BindSpec>, patient: bool)
      returns (r: Result<PortReservation, ReserveError>, ghost tried: seq<nat>)
      requires Valid()
      modifies this`reserved, this`holders, this`next, sockets
      ensures Valid()
      ensures r.Err? ==> reserved == old(reserved) && holders == old(holders) && next == old(next)
                         && sockets.open == old(sockets.open)
      ensures !Normal(specs) ==> r.Err? && Rejected(specs, r.error) && tried == []
      ensures Normal(specs) && requested != 0 ==> tried == [requested] && next == old(next)
      ensures Normal(specs) && requested != 0 ==>
                (r == Err(PortConflict) <==> !FreeFor(old(reserved), specs, requested))
      ensures Normal(specs) && requested == 0 ==>
                && |tried| <= Count(start, end) && forall i :: 0 <= i < |tried| ==>
                                                                 tried[i] == Position(start, end, old(next), i)
      ensures Normal(specs) && requested == 0 && r.Err? ==>
                r.error == NoAvailablePort || (r.error == Cancelled && !patient)
      ensures Normal(specs) && r == Err(NoAvailablePort) ==> |tried| == Count(start, end)
      ensures r.Ok? ==> Normal(specs) && fresh(r.value) && tried != []
                        && Made(r.value, tried[|tried| - 1], specs, old(holders), old(reserved), old(sockets.open))
      ensures r.Ok? && requested == 0 ==> next == After(start, end, r.value.port)
      ensures !sockets.faulty ==> forall i :: 0 <= i < |tried| ==>
                (FreeFor(old(reserved), specs, tried[i]) <==> r.Ok? && i == |tried| - 1)
    {
      hide Exclusive, AllWellTyped, Accounted, Normal, FreeFor, PortAllocator.Made, Position, After;
      var normalized := NormalizeBindSpecs(specs);
      if normalized.Err? { return Err(normalized.error), []; }
      if requested != 0 {
        r := ReserveCandidate(requested, normalized.value);
        return r, [requested];
      }
      r, tried := Search(normalized.value, patient);
    }

    /** The cyclic search of the automatic range. */
    method Search(specs: seq<BindSpec>, patient: bool)
      returns (r: Result<PortReservation, ReserveError>, ghost tried: seq<nat>)
      requires Valid() && Normal(specs)
      modifies this`reserved, this`holders, this`next, sockets
      ensures Valid()
      ensures r.Err? ==> reserved == old(reserved) && holders == old(holders) && next == old(next)
                         && sockets.open == old(sockets.open)
      ensures |tried| <= Count(start, end) && forall i :: 0 <= i < |tried| ==>
                tried[i] == Position(start, end, old(next), i)
      ensures r.Err? ==>
                (r.error == NoAvailablePort && |tried| == Count(start, end)) || (r.error == Cancelled && !patient)
      ensures r.Ok? ==> fresh(r.value) && tried != []
                        && Made(r.value, tried[|tried| - 1], specs, old(holders), old(reserved), old(sockets.open))
      ensures r.Ok? ==> next == After(start, end, r.value.port)
      ensures !sockets.faulty ==> forall i :: 0 <= i < |tried| ==>
                (FreeFor(old(reserved), specs, tried[i]) <==> r.Ok? && i == |tried| - 1)
    {
      hide Exclusive, AllWellTyped, Accounted, Normal, FreeFor, Position, After, PortAllocator.Made;
      tried := [];
      var candidate := next;
      PositionStep(start, end, next, 0);
      for i := 0 to Count(start, end)
        invariant Valid() && start <= candidate <= end && candidate == Position(start, end, old(next), i)
        invariant reserved == old(reserved) && holders == old(holders) && next == old(next)
                  && sockets.open == old(sockets.open)
        invariant |tried| == i && forall k :: 0 <= k < i ==> tried[k] == Position(start, end, old(next), k)
        invariant !sockets.faulty ==> forall k :: 0 <= k < i ==> !FreeFor(reserved, specs, tried[k])
      {
        tried := tried + [candidate];
        r := ReserveCandidate(candidate, specs);
        if r.Ok? {
          MadePort(r.value, candidate, specs, old(holders), old(reserved), old(sockets.open));
          AfterStays(start, end, candidate);
          next := After(start, end, candidate);
          return;
        }
        var cancelled: bool := *;
        if !patient && cancelled { return Err(Cancelled), tried; }
        PositionStep(start, end, old(next), i);
        candidate := After(start, end, candidate);
      }
      return Err(NoAvailablePort), tried;
    }

    lemma MadePort(r: PortReservation, port: nat, specs: seq<BindSpec>, before: Holders, taken: set<BindEndpoint>,
                   open: map<nat, BindEndpoint>)
      requires Made(r, port, specs, before, taken, open)
      ensures r.port == port
    {
    }

    /** The reservation holds exactly its specifications at the port, on sockets of its own. */
    ghost predicate Made(r: PortReservation, port: nat, specs: seq<BindSpec>, before: Holders,
                         taken: set<BindEndpoint>, open: map<nat, BindEndpoint>)
      reads this`holders, this`reserved, r, sockets
    {
      && r.port == port && !r.closed && r !in before && holders == before[r := r.bindings]
      && Endpoints(r.bindings) == (set e | e in EndpointsAt(specs, port)) && reserved == taken + Endpoints(r.bindings)
      && Opened(open, sockets.open, r.bindings)
    }
  }

  lemma AfterStays(start: nat, end: nat, port: nat)
    requires start <= port <= end
    ensures start <= After(start, end, port) <= end
  {
  }

  /** With sockets that never fail and no cancellation, the automatic search finds a port exactly
      when the range has a free one: the ports tried without success are then the whole range. */
  lemma ExhaustedMeansNoneFree(start: nat, end: nat, from: nat, reserved: set<BindEndpoint>, specs: seq<BindSpec>,
                               tried: seq<nat>, port: nat)
    requires start <= from <= end && start <= port <= end && |tried| == Count(start, end)
    requires forall i :: 0 <= i < |tried| ==>
              tried[i] == Position(start, end, from, i) && !FreeFor(reserved, specs, tried[i])
    ensures !FreeFor(reserved, specs, port)
  {
    hide FreeFor;
    RoundVisitsEachPortOnce(start, end, from, port);
    var i :| 0 <= i < Count(start, end) && Position(start, end, from, i) == port;
    assert tried[i] == port;
  }

  lemma BoundOneMore(bindings: seq<Binding>, b: Binding)
    ensures BoundSockets(bindings + [b]) == BoundSockets(bindings) + {b.socket}
  {
    assert forall x :: x in bindings + [b] <==> x in bindings || x == b;
  }

  lemma BoundEndpoints(bindings: seq<Binding>, endpoints: seq<BindEndpoint>)
    requires |bindings| == |endpoints| && forall i :: 0 <= i < |endpoints| ==> bindings[i].endpoint == endpoints[i]
    ensures Endpoints(bindings) == set e | e in endpoints
  {
    forall e | e in endpoints ensures e in Endpoints(bindings) {
      var i :| 0 <= i < |endpoints| && endpoints[i] == e;
      assert bindings[i] in bindings;
    }
    forall e | e in Endpoints(bindings) ensures e in endpoints {
      var i :| 0 <= i < |bindings| && bindings[i].endpoint == e;
    }
  }

  lemma NormalAreWellTyped(specs: seq<BindSpec>, port: nat)
    requires Normal(specs)
    ensures forall e :: e in EndpointsAt(specs, port) ==> WellTyped(e.spec)
  {
  }

  /** New endpoints that share no socket address with the reserved ones, or with each other, keep every
      socket address with one endpoint. */
  lemma ReservingKeepsApart(reserved: set<BindEndpoint>, specs: seq<BindSpec>, port: nat, bindings: seq<Binding>)
    requires Exclusive(reserved) && AllWellTyped(reserved) && Normal(specs) && FreeFor(reserved, specs, port)
    requires |bindings| == |specs| && forall i :: 0 <= i < |specs| ==>
              bindings[i].endpoint == EndpointsAt(specs, port)[i]
    ensures Exclusive(reserved + Endpoints(bindings)) && AllWellTyped(reserved + Endpoints(bindings))
    ensures Endpoints(bindings) !! reserved
  {
    BoundEndpoints(bindings, EndpointsAt(specs, port));
    hide Endpoints, Occupies, WellTyped, SpecsMeet;
    var made := Endpoints(bindings);
    forall x | x in made ensures exists i :: 0 <= i < |specs| && x == BindEndpoint(specs[i], port) {
      var i :| 0 <= i < |specs| && EndpointsAt(specs, port)[i] == x;
    }
    forall x, y | x in made && y in reserved ensures !Meet(x, y) {
      var i :| 0 <= i < |specs| && x == BindEndpoint(specs[i], port);
    }
    forall x | x in made ensures x !in reserved {
      var i :| 0 <= i < |specs| && x == BindEndpoint(specs[i], port);
      MeetsItself(specs[i]);
      MeetingAtOnePort(specs[i], specs[i], port);
    }
    forall x, y, a | x in made && y in made && Occupies(x, a) && Occupies(y, a) ensures x == y {
      var i :| 0 <= i < |specs| && x == BindEndpoint(specs[i], port);
      var j :| 0 <= j < |specs| && y == BindEndpoint(specs[j], port);
      MeetingAtOnePort(specs[i], specs[j], port);
      MeetingAtOnePort(specs[j], specs[i], port);
      SymmetricMeeting(specs[i], specs[j]);
    }
  }

  lemma SymmetricMeeting(l: BindSpec, r: BindSpec)
    ensures SpecsMeet(l, r) == SpecsMeet(r, l)
  {
  }
}
