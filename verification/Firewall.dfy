/** `node.FirewallCoordinator`: which ports the host firewall opens, with relay associations counted
    per address so that most of them need no rewrite of the ruleset.

    A rule list is taken as the set of its openings: the order it is sorted into is immaterial to the
    firewall, and so is an opening listed twice. An endpoint list, sorted and free of repetitions,
    is likewise taken as its set. */
module Firewall {
  import opened Wrappers
  import opened FiniteSets
  import opened Names
  import opened PortAllocator

  datatype RelayScope = RelayScope(family: BindFamily, address: Option<IP>)

  datatype Purpose = Management | NodePurpose(id: Name) | UdpRelay

  datatype Opening = Opening(protocol: BindProtocol, family: BindFamily, address: Option<IP>, port: nat, portEnd: nat,
                             purpose: Purpose)

  datatype FirewallError = IdRequired | InvalidEndpoint | NotApplied

  /** The tables of the coordinator, and the rules the firewall runs. */
  datatype FirewallState = FirewallState(
    management: set<BindEndpoint>, nodes: map<Name, set<BindEndpoint>>, relays: map<RelayScope, nat>,
    portMin: nat, portMax: nat, applied: set<Opening>)

  function ScopeOf(e: BindEndpoint): RelayScope { RelayScope(e.spec.family, e.spec.address) }

  function OpeningOf(e: BindEndpoint, purpose: Purpose): Opening {
    Opening(if e.spec.protocol == BindUDP then BindUDP else BindTCP,
            if e.spec.family == BindIPv6 then BindIPv6 else BindIPv4,
            e.spec.address, e.port, 0, purpose)
  }

  function RelayOpening(s: FirewallState, scope: RelayScope): Opening {
    Opening(BindUDP, if scope.family == BindIPv6 then BindIPv6 else BindIPv4,
            scope.address, s.portMin, s.portMax, UdpRelay)
  }

  function Openings(s: FirewallState): set<Opening> {
    (set e | e in s.management :: OpeningOf(e, Management))
    + (set id, e | id in s.nodes && e in s.nodes[id] :: OpeningOf(e, NodePurpose(id)))
    + (set scope | scope in s.relays :: RelayOpening(s, scope))
  }

  /** What the endpoint check asks of each endpoint. */
  predicate Acceptable(e: BindEndpoint, protocol: BindProtocol) {
    e.spec.protocol == protocol && !e.spec.family.OtherFamily? && e.port != 0
    && (e.spec.address.Some? ==> (e.spec.family == BindIPv4 <==> e.spec.address.value.IP4?))
  }

  /** A TCP or UDP endpoint passes exactly when a socket of that protocol can be bound to it at all. */
  lemma AcceptableMeansBindable(e: BindEndpoint, protocol: BindProtocol)
    requires protocol == BindTCP || protocol == BindUDP
    ensures Acceptable(e, protocol) <==>
              e.port != 0 && exists a :: Occupies(e, a) && a.protocol == protocol && !a.family.OtherFamily?
  {
    WellTypedReaches(e.spec);
    if Acceptable(e, protocol) {
      var p, family, ip :| Reaches(e.spec, p, family, ip);
      assert Occupies(e, SocketAddress(p, family, ip, e.port));
    }
  }

  ghost predicate TcpEndpoints(endpoints: set<BindEndpoint>) {
    forall e :: e in endpoints ==> Acceptable(e, BindTCP)
  }

  predicate ValidScope(scope: RelayScope) { !scope.family.OtherFamily? }

  ghost predicate Valid(s: FirewallState) {
    && 1 <= s.portMin <= s.portMax
    && TcpEndpoints(s.management) && (forall id :: id in s.nodes ==> TcpEndpoints(s.nodes[id]))
    && (forall scope :: scope in s.relays ==> ValidScope(scope) && s.relays[scope] >= 1)
    && s.applied == Openings(s)
  }

  /** In a valid state the relay range is open on an address exactly while an association uses it. */
  lemma RangeOpenMeansAssociated(s: FirewallState, scope: RelayScope)
    requires Valid(s) && ValidScope(scope)
    ensures RelayOpening(s, scope) in s.applied <==> scope in s.relays && s.relays[scope] >= 1
  {
    if RelayOpening(s, scope) in s.applied {
      var other :| other in s.relays && RelayOpening(s, other) == RelayOpening(s, scope);
      assert other == scope;
    }
  }

  // ---- the coordinator's steps, and the simple coordinator that rewrites the rules on every call ----

  /** Have the firewall run the rules of `next`; when it refuses, nothing changes. */
  function Apply(s: FirewallState, next: FirewallState, ok: bool): FirewallState {
    if ok then next.(applied := Openings(next)) else s
  }

  function CountOf(s: FirewallState, scope: RelayScope): nat { if scope in s.relays then s.relays[scope] else 0 }

  datatype Call =
    | OpenNodeCall(id: Name, endpoints: set<BindEndpoint>, ok: bool)
    | CloseNodeCall(id: Name, endpoints: set<BindEndpoint>, ok: bool)
    | OpenCall(scope: RelayScope, ok: bool)
    | CloseCall(scope: RelayScope, ok: bool)

  function Fast(s: FirewallState, c: Call): FirewallState {
    match c
    case OpenNodeCall(id, endpoints, ok) => Apply(s, s.(nodes := s.nodes[id := endpoints]), ok)
    case CloseNodeCall(id, endpoints, ok) =>
      if id !in s.nodes || s.nodes[id] != endpoints then s else Apply(s, s.(nodes := s.nodes - {id}), ok)
    case OpenCall(scope, ok) =>
      if CountOf(s, scope) > 0 then s.(relays := s.relays[scope := s.relays[scope] + 1])
      else Apply(s, s.(relays := s.relays[scope := 1]), ok)
    case CloseCall(scope, ok) =>
      if CountOf(s, scope) == 0 then s
      else if CountOf(s, scope) > 1 then s.(relays := s.relays[scope := s.relays[scope] - 1])
      else Apply(s, s.(relays := s.relays - {scope}), ok)
  }

  /** Every relay call counts first and then has the whole ruleset rewritten. */
  function Simple(s: FirewallState, c: Call): FirewallState {
    match c
    case OpenNodeCall(_, _, _) => Fast(s, c)
    case CloseNodeCall(_, _, _) => Fast(s, c)
    case OpenCall(scope, ok) => Apply(s, s.(relays := s.relays[scope := CountOf(s, scope) + 1]), ok)
    case CloseCall(scope, ok) =>
      if CountOf(s, scope) == 0 then s
      else Apply(s, s.(relays := if CountOf(s, scope) == 1 then s.relays - {scope}
                                 else s.relays[scope := CountOf(s, scope) - 1]), ok)
  }

  /** The calls whose rewrite would change no rule. */
  predicate Redundant(s: FirewallState, c: Call) {
    match c
    case OpenCall(scope, _) => CountOf(s, scope) > 0
    case CloseCall(scope, _) => CountOf(s, scope) > 1
    case _ => false
  }

  /** The same call with the firewall's answer taken as a success when the rewrite is redundant. */
  function Forgiven(s: FirewallState, c: Call): Call {
    match c
    case OpenCall(scope, ok) => OpenCall(scope, ok || Redundant(s, c))
    case CloseCall(scope, ok) => CloseCall(scope, ok || Redundant(s, c))
    case _ => c
  }

  ghost predicate WellFormed(c: Call) {
    match c
    case OpenNodeCall(_, endpoints, _) => TcpEndpoints(endpoints)
    case OpenCall(scope, _) => ValidScope(scope)
    case CloseCall(scope, _) => ValidScope(scope)
    case _ => true
  }

  lemma CountsDoNotShow(s: FirewallState, t: FirewallState)
    requires t == s.(relays := t.relays, applied := t.applied) && t.relays.Keys == s.relays.Keys
    ensures Openings(t) == Openings(s)
  {
  }

  lemma RulesIgnoreApplied(s: FirewallState, applied: set<Opening>)
    ensures Openings(s.(applied := applied)) == Openings(s)
  {
  }

  lemma CallKeepsValid(s: FirewallState, c: Call)
    requires Valid(s) && WellFormed(c)
    ensures Valid(Fast(s, c))
  {
    if Redundant(s, c) { CountsDoNotShow(s, Fast(s, c)); }
    hide Openings;
    if !Redundant(s, c) { ApplyIsValid(s, c); }
  }

  lemma ApplyIsValid(s: FirewallState, c: Call)
    requires Valid(s) && WellFormed(c) && !Redundant(s, c)
    ensures Valid(Fast(s, c))
  {
    RulesIgnoreApplied(Fast(s, c), s.applied);
  }

  /** One call: skipping the rewrite is the simple coordinator with that rewrite taken as done. */
  lemma FastStep(s: FirewallState, c: Call)
    requires Valid(s)
    ensures Fast(s, c) == Simple(s, Forgiven(s, c))
  {
    if Redundant(s, c) {
      var t := Simple(s, Forgiven(s, c));
      CountsDoNotShow(s, t);
      RulesIgnoreApplied(t, s.applied);
    }
  }

  function RunFast(s: FirewallState, calls: seq<Call>): FirewallState
    decreases |calls|
  {
    if calls == [] then s else RunFast(Fast(s, calls[0]), calls[1..])
  }

  function RunSimple(s: FirewallState, calls: seq<Call>): FirewallState
    decreases |calls|
  {
    if calls == [] then s else RunSimple(Simple(s, calls[0]), calls[1..])
  }

  function ForgivenRun(s: FirewallState, calls: seq<Call>): (r: seq<Call>)
    ensures |r| == |calls|
    decreases |calls|
  {
    if calls == [] then [] else [Forgiven(s, calls[0])] + ForgivenRun(Fast(s, calls[0]), calls[1..])
  }

  /** Over every run, with any pattern of refused rewrites: the coordinator ends where the simple one
      does, and the rules in force are those of its tables. */
  lemma {:induction false} FastRefinesSimple(s: FirewallState, calls: seq<Call>)
    requires Valid(s) && forall i :: 0 <= i < |calls| ==> WellFormed(calls[i])
    ensures RunFast(s, calls) == RunSimple(s, ForgivenRun(s, calls))
    ensures Valid(RunFast(s, calls))
    decreases |calls|
  {
    hide Valid, Fast, Simple, Forgiven;
    if calls != [] {
      FastStep(s, calls[0]);
      CallKeepsValid(s, calls[0]);
      FastRefinesSimple(Fast(s, calls[0]), calls[1..]);
      assert ForgivenRun(s, calls)[1..] == ForgivenRun(Fast(s, calls[0]), calls[1..]);
    }
  }

  // ---- associations, as their users see them ----

  /** What a call answers: without a rewrite there is nothing that can be refused. */
  predicate Answer(s: FirewallState, c: Call) {
    match c
    case OpenNodeCall(_, _, ok) => ok
    case CloseNodeCall(id, endpoints, ok) => id !in s.nodes || s.nodes[id] != endpoints || ok
    case OpenCall(scope, ok) => CountOf(s, scope) > 0 || ok
    case CloseCall(scope, ok) => CountOf(s, scope) != 1 || ok
  }

  datatype Answered = Answered(call: Call, ok: bool)

  /** The calls of a run with their answers. */
  ghost function History(s: FirewallState, calls: seq<Call>): seq<Answered>
    decreases |calls|
  {
    if calls == [] then [] else [Answered(calls[0], Answer(s, calls[0]))] + History(Fast(s, calls[0]), calls[1..])
  }

  function IsOpen(a: Answered, scope: RelayScope): bool { a.ok && a.call.OpenCall? && a.call.scope == scope }

  function IsClose(a: Answered, scope: RelayScope): bool { a.ok && a.call.CloseCall? && a.call.scope == scope }

  /** The associations on one address that the answered calls leave, of `held` at the start: each
      successful open begins one, each successful close ends one if there is any. */
  ghost function Outstanding(history: seq<Answered>, scope: RelayScope, held: nat): nat
    decreases |history|
  {
    if history == [] then held
    else
      Outstanding(history[1..], scope,
                  if IsOpen(history[0], scope) then held + 1
                  else if IsClose(history[0], scope) && held > 0 then held - 1 else held)
  }

  ghost function Opens(history: seq<Answered>, scope: RelayScope): nat {
    if history == [] then 0 else (if IsOpen(history[0], scope) then 1 else 0) + Opens(history[1..], scope)
  }

  ghost function Closes(history: seq<Answered>, scope: RelayScope): nat {
    if history == [] then 0 else (if IsClose(history[0], scope) then 1 else 0) + Closes(history[1..], scope)
  }

  /** When no close comes without an association to end, this is opens minus closes. */
  lemma {:induction false} OutstandingIsBalance(history: seq<Answered>, scope: RelayScope, held: nat)
    requires forall i :: 0 <= i <= |history| ==> Closes(history[..i], scope) <= held + Opens(history[..i], scope)
    ensures Outstanding(history, scope, held) == held + Opens(history, scope) - Closes(history, scope)
    decreases |history|
  {
    if history != [] {
      var a, rest := history[0], history[1..];
      assert history[..1][1..] == [] && history[..1][0] == a;
      assert Closes(history[..1], scope) == if IsClose(a, scope) then 1 else 0;
      assert Opens(history[..1], scope) == if IsOpen(a, scope) then 1 else 0;
      var now := if IsOpen(a, scope) then held + 1 else if IsClose(a, scope) then held - 1 else held;
      forall i | 0 <= i <= |rest| ensures Closes(rest[..i], scope) <= now + Opens(rest[..i], scope) {
        assert history[..i + 1][0] == a && history[..i + 1][1..] == rest[..i];
      }
      OutstandingIsBalance(rest, scope, now);
    }
  }

  /** The table counts exactly the outstanding associations, after every run. */
  lemma {:induction false} CountIsOutstanding(s: FirewallState, calls: seq<Call>, scope: RelayScope)
    requires Valid(s) && forall i :: 0 <= i < |calls| ==> WellFormed(calls[i])
    ensures CountOf(RunFast(s, calls), scope) == Outstanding(History(s, calls), scope, CountOf(s, scope))
    decreases |calls|
  {
    hide Valid, Openings;
    if calls != [] {
      CallKeepsValid(s, calls[0]);
      CountIsOutstanding(Fast(s, calls[0]), calls[1..], scope);
      CountStep(s, calls[0], scope);
      assert History(s, calls)[1..] == History(Fast(s, calls[0]), calls[1..]);
    }
  }

  lemma CountStep(s: FirewallState, c: Call, scope: RelayScope)
    ensures var a, held := Answered(c, Answer(s, c)), CountOf(s, scope);
      CountOf(Fast(s, c), scope) == if IsOpen(a, scope) then held + 1
                                    else if IsClose(a, scope) && held > 0 then held - 1 else held
  {
    hide Openings;
  }

  /** Over every run from a new coordinator, whatever the firewall refuses: the relay range is open on
      an address exactly while an association there is outstanding. */
  lemma RangeOpenMeansOutstanding(s: FirewallState, calls: seq<Call>, scope: RelayScope)
    requires Valid(s) && s.relays == map[] && ValidScope(scope)
    requires forall i :: 0 <= i < |calls| ==> WellFormed(calls[i])
    ensures RelayOpening(s, scope) in RunFast(s, calls).applied <==> Outstanding(History(s, calls), scope, 0) > 0
  {
    hide Valid, Fast, Openings;
    FastRefinesSimple(s, calls);
    CountIsOutstanding(s, calls, scope);
    var t := RunFast(s, calls);
    RunKeepsRange(s, calls);
    RangeOpenMeansAssociated(t, scope);
    CountedMeansHeld(t, scope);
  }

  lemma CountedMeansHeld(s: FirewallState, scope: RelayScope)
    requires Valid(s)
    ensures CountOf(s, scope) > 0 <==> scope in s.relays && s.relays[scope] >= 1
  {
    hide Openings;
  }

  lemma {:induction false} RunKeepsRange(s: FirewallState, calls: seq<Call>)
    ensures RunFast(s, calls).portMin == s.portMin && RunFast(s, calls).portMax == s.portMax
    ensures RunFast(s, calls).management == s.management
    decreases |calls|
  {
    hide Openings;
    if calls != [] { RunKeepsRange(Fast(s, calls[0]), calls[1..]); }
  }

  // ---- nodes, as their managers see them ----

  function OpensNode(a: Answered, id: Name): bool { a.ok && a.call.OpenNodeCall? && a.call.id == id }

  function ClosesNode(a: Answered, id: Name, endpoints: set<BindEndpoint>): bool {
    a.ok && a.call.CloseNodeCall? && a.call.id == id && a.call.endpoints == endpoints
  }

  /** Neither a successful open of the node nor a close of these endpoints is among the calls. */
  ghost predicate Untouched(history: seq<Answered>, id: Name, endpoints: set<BindEndpoint>) {
    forall i :: 0 <= i < |history| ==> !OpensNode(history[i], id) && !ClosesNode(history[i], id, endpoints)
  }

  /** Call `i` is the last successful open of the node, and its endpoints were not closed since. */
  ghost predicate Stands(history: seq<Answered>, i: int, id: Name) {
    0 <= i < |history| && OpensNode(history[i], id) && Untouched(history[i + 1..], id, history[i].call.endpoints)
  }

  ghost predicate Listed(history: seq<Answered>, id: Name, e: BindEndpoint) {
    exists i :: Stands(history, i, id) && e in history[i].call.endpoints
  }

  function NodeEndpoints(s: FirewallState, id: Name): set<BindEndpoint> {
    if id in s.nodes then s.nodes[id] else {}
  }

  lemma NodeStep(s: FirewallState, c: Call, id: Name)
    ensures var a := Answered(c, Answer(s, c));
      NodeEndpoints(Fast(s, c), id) ==
        if OpensNode(a, id) then c.endpoints
        else if ClosesNode(a, id, NodeEndpoints(s, id)) then {} else NodeEndpoints(s, id)
  {
    hide Openings;
  }

  lemma ListedStep(a: Answered, rest: seq<Answered>, id: Name, e: BindEndpoint)
    ensures Listed([a] + rest, id, e) <==>
              || Listed(rest, id, e)
              || (OpensNode(a, id) && e in a.call.endpoints && Untouched(rest, id, a.call.endpoints))
  {
    hide Untouched;
    var history := [a] + rest;
    assert history[1..] == rest;
    if Listed(history, id, e) {
      var i :| Stands(history, i, id) && e in history[i].call.endpoints;
      if i > 0 {
        assert history[i + 1..] == rest[i..];
        assert Stands(rest, i - 1, id);
      }
    }
    if Listed(rest, id, e) {
      var i :| Stands(rest, i, id) && e in rest[i].call.endpoints;
      assert history[i + 2..] == rest[i + 1..];
      assert Stands(history, i + 1, id);
    }
    if OpensNode(a, id) && e in a.call.endpoints && Untouched(rest, id, a.call.endpoints) {
      assert Stands(history, 0, id);
    }
  }

  lemma UntouchedStep(a: Answered, rest: seq<Answered>, id: Name, endpoints: set<BindEndpoint>)
    ensures Untouched([a] + rest, id, endpoints) <==>
              Untouched(rest, id, endpoints) && !OpensNode(a, id) && !ClosesNode(a, id, endpoints)
  {
    hide OpensNode, ClosesNode;
    var history := [a] + rest;
    assert history[0] == a;
    assert forall i :: 0 <= i < |rest| ==> history[i + 1] == rest[i];
    assert forall i :: 0 < i < |history| ==> history[i] == rest[i - 1];
  }

  /** After every run the table holds, for each node, what its last successful open listed unless that
      very list was closed since. */
  lemma {:induction false} NodeEndpointsAreListed(s: FirewallState, calls: seq<Call>, id: Name, e: BindEndpoint)
    ensures e in NodeEndpoints(RunFast(s, calls), id) <==>
              Listed(History(s, calls), id, e)
              || (e in NodeEndpoints(s, id) && Untouched(History(s, calls), id, NodeEndpoints(s, id)))
    decreases |calls|
  {
    hide Openings, Fast, Answer, NodeEndpoints, OpensNode, ClosesNode, Untouched, Listed;
    var held := NodeEndpoints(s, id);
    if calls == [] {
      NothingListed(id, e, held);
    } else {
      var next := Fast(s, calls[0]);
      var a, rest := Answered(calls[0], Answer(s, calls[0])), History(next, calls[1..]);
      NodeEndpointsAreListed(next, calls[1..], id, e);
      NodeStep(s, calls[0], id);
      ListedStep(a, rest, id, e);
      UntouchedStep(a, rest, id, held);
    }
  }

  lemma NothingListed(id: Name, e: BindEndpoint, held: set<BindEndpoint>)
    ensures !Listed([], id, e) && Untouched([], id, held)
  {
  }

  // ---- the rules in force, from the calls alone ----

  predicate RuleFor(e: BindEndpoint, rule: Opening) {
    && rule.protocol == BindTCP && rule.family == e.spec.family && rule.address == e.spec.address
    && rule.port == e.port && rule.portEnd == 0
  }

  /** What the answered calls call for: the management endpoints always, a node's endpoints while they
      are listed, and the relay range while an association is outstanding on the address. */
  ghost predicate CalledFor(management: set<BindEndpoint>, portMin: nat, portMax: nat, history: seq<Answered>,
                            rule: Opening) {
    match rule.purpose
    case Management => exists e :: e in management && RuleFor(e, rule)
    case NodePurpose(id) => exists e :: Listed(history, id, e) && RuleFor(e, rule)
    case UdpRelay =>
      && rule.protocol == BindUDP && rule.port == portMin && rule.portEnd == portMax && !rule.family.OtherFamily?
      && Outstanding(history, RelayScope(rule.family, rule.address), 0) > 0
  }

  lemma AcceptableRule(e: BindEndpoint, purpose: Purpose, rule: Opening)
    requires Acceptable(e, BindTCP)
    ensures rule == OpeningOf(e, purpose) <==> rule.purpose == purpose && RuleFor(e, rule)
  {
  }

  lemma RuleOfNode(s: FirewallState, rule: Opening, id: Name)
    requires Valid(s) && rule.purpose == NodePurpose(id)
    ensures rule in s.applied <==> exists e :: e in NodeEndpoints(s, id) && RuleFor(e, rule)
  {
    hide Acceptable, RuleFor;
    forall e | e in NodeEndpoints(s, id) ensures rule == OpeningOf(e, NodePurpose(id)) <==> RuleFor(e, rule) {
      AcceptableRule(e, NodePurpose(id), rule);
    }
  }

  lemma RuleOfManagement(s: FirewallState, rule: Opening)
    requires Valid(s) && rule.purpose == Management
    ensures rule in s.applied <==> exists e :: e in s.management && RuleFor(e, rule)
  {
    hide Acceptable, RuleFor;
    forall e | e in s.management ensures rule == OpeningOf(e, Management) <==> RuleFor(e, rule) {
      AcceptableRule(e, Management, rule);
    }
  }

  lemma RuleOfRelay(s: FirewallState, rule: Opening)
    requires Valid(s) && rule.purpose == UdpRelay
    ensures rule in s.applied <==>
              && rule.protocol == BindUDP && rule.port == s.portMin && rule.portEnd == s.portMax
              && !rule.family.OtherFamily? && CountOf(s, RelayScope(rule.family, rule.address)) > 0
  {
    var scope := RelayScope(rule.family, rule.address);
    if ValidScope(scope) {
      RangeOpenMeansAssociated(s, scope);
    }
    if rule in s.applied {
      var other :| other in s.relays && RelayOpening(s, other) == rule;
      assert other == scope;
    }
  }

  /** Over every run from a new coordinator, whatever the firewall refuses: a rule is in force exactly
      when the answered calls call for it. */
  lemma RulesAreCalledFor(s: FirewallState, calls: seq<Call>, rule: Opening)
    requires Valid(s) && s.nodes == map[] && s.relays == map[]
    requires forall i :: 0 <= i < |calls| ==> WellFormed(calls[i])
    ensures rule in RunFast(s, calls).applied <==>
              CalledFor(s.management, s.portMin, s.portMax, History(s, calls), rule)
  {
    hide Valid, Openings, Fast, RuleFor, Listed, NodeEndpoints, Untouched, WellFormed;
    var t, history := RunFast(s, calls), History(s, calls);
    FastRefinesSimple(s, calls);
    RunKeepsRange(s, calls);
    match rule.purpose {
      case Management => RuleOfManagement(t, rule);
      case UdpRelay =>
        RuleOfRelay(t, rule);
        CountIsOutstanding(s, calls, RelayScope(rule.family, rule.address));
      case NodePurpose(id) =>
        RuleOfNode(t, rule, id);
        NoNodes(s, id);
        forall e ensures e in NodeEndpoints(t, id) <==> Listed(history, id, e) {
          NodeEndpointsAreListed(s, calls, id, e);
        }
    }
  }

  lemma NoNodes(s: FirewallState, id: Name)
    requires s.nodes == map[]
    ensures NodeEndpoints(s, id) == {}
  {
  }

  // ---- the coordinator ----

  /** The firewall itself: a replacement takes effect as a whole or not at all. */
  class Replacer {
    var applied: set<Opening>
    const faulty: bool

    constructor (faulty: bool)
      ensures applied == {} && this.faulty == faulty
    {
      applied, this.faulty := {}, faulty;
    }

    method Replace(rules: set<Opening>) returns (ok: bool)
      modifies this
      ensures applied == if ok then rules else old(applied)
      ensures !faulty ==> ok
    {
      var failed: bool := *;
      ok := !(faulty && failed);
      if ok { applied := rules; }
    }
  }

  ghost predicate AllAcceptable(endpoints: seq<BindEndpoint>, protocol: BindProtocol) {
    Distinct(endpoints) && forall e :: e in endpoints ==> Acceptable(e, protocol)
  }

  lemma AcceptableAreTcp(endpoints: seq<BindEndpoint>)
    requires AllAcceptable(endpoints, BindTCP)
    ensures TcpEndpoints(Elements(endpoints))
  {
  }

  lemma OneAcceptable(e: BindEndpoint, protocol: BindProtocol)
    ensures AllAcceptable([e], protocol) <==> Acceptable(e, protocol)
  {
    assert e in [e];
  }

  method NormalizeEndpoints(endpoints: seq<BindEndpoint>, protocol: BindProtocol, allowEmpty: bool)
    returns (r: Option<set<BindEndpoint>>)
    ensures r.Some? <==> (endpoints != [] || allowEmpty) && AllAcceptable(endpoints, protocol)
    ensures r.Some? ==> r.value == Elements(endpoints)
  {
    if endpoints == [] && !allowEmpty { return None; }
    var seen: set<BindEndpoint> := {};
    for i := 0 to |endpoints|
      invariant seen == Elements(endpoints[..i]) && Distinct(endpoints[..i])
      invariant forall e :: e in endpoints[..i] ==> Acceptable(e, protocol)
    {
      var e := endpoints[i];
      assert endpoints[..i + 1] == endpoints[..i] + [e];
      ElementsStep(endpoints, i);
      if e.spec.protocol != protocol || e.spec.family.OtherFamily? || e.port == 0 { return None; }
      if e.spec.address.Some? && (e.spec.family == BindIPv4) != e.spec.address.value.IP4? { return None; }
      if e in seen { return None; }
      AppendKeepsDistinct(endpoints[..i], e);
      seen := seen + {e};
    }
    assert endpoints[..|endpoints|] == endpoints;
    return Some(seen);
  }

  class FirewallCoordinator {
    const replacer: Replacer
    const management: set<BindEndpoint>
    const portMin: nat
    const portMax: nat
    var nodes: map<Name, set<BindEndpoint>>
    var relayScopes: map<RelayScope, nat>

    ghost function View(): FirewallState
      reads this, replacer
    {
      FirewallState(management, nodes, relayScopes, portMin, portMax, replacer.applied)
    }

    constructor (replacer: Replacer, management: set<BindEndpoint>, portMin: nat, portMax: nat)
      requires 1 <= portMin <= portMax && TcpEndpoints(management)
      requires replacer.applied == Openings(FirewallState(management, map[], map[], portMin, portMax, {}))
      ensures this.replacer == replacer && this.management == management && Valid(View())
      ensures this.portMin == portMin && this.portMax == portMax
      ensures nodes == map[] && relayScopes == map[]
    {
      this.replacer, this.management, this.portMin, this.portMax := replacer, management, portMin, portMax;
      nodes, relayScopes := map[], map[];
      new;
      RulesIgnoreApplied(View(), {});
    }

    /** `NewFirewallCoordinator`: the initial rules must be accepted first. */
    static method Create(replacer: Replacer, management: seq<BindEndpoint>, portMin: nat, portMax: nat)
      returns (r: Option<FirewallCoordinator>)
      modifies replacer
      ensures r.Some? ==> fresh(r.value) && Valid(r.value.View()) && r.value.replacer == replacer
                          && r.value.management == Elements(management)
      ensures r.Some? ==> r.value.portMin == portMin && r.value.portMax == portMax
                          && r.value.nodes == map[] && r.value.relayScopes == map[]
      ensures r.Some? ==> 1 <= portMin <= portMax && AllAcceptable(management, BindTCP)
      ensures !replacer.faulty && 1 <= portMin <= portMax && AllAcceptable(management, BindTCP) ==> r.Some?
      ensures r.None? ==> replacer.applied == old(replacer.applied)
    {
      if portMin == 0 || portMax == 0 || portMin > portMax { return None; }
      var normalized := NormalizeEndpoints(management, BindTCP, true);
      if normalized.None? { return None; }
      var ok := replacer.Replace(Openings(FirewallState(normalized.value, map[], map[], portMin, portMax, {})));
      if !ok { return None; }
      AcceptableAreTcp(management);
      var c := new FirewallCoordinator(replacer, normalized.value, portMin, portMax);
      return Some(c);
    }

    method OpenNode(id: Name, endpoints: seq<BindEndpoint>) returns (r: Result<(), FirewallError>)
      requires Valid(View())
      modifies this`nodes, replacer
      ensures Valid(View())
      ensures r.Ok? || r == Err(NotApplied) ==>
                View() == Fast(old(View()), OpenNodeCall(id, Elements(endpoints), r.Ok?))
      ensures r.Err? ==> View() == old(View())
      ensures !replacer.faulty ==> r != Err(NotApplied)
      ensures Blank(id) ==> r == Err(IdRequired)
      ensures r.Ok? || r == Err(NotApplied) <==> !Blank(id) && endpoints != [] && AllAcceptable(endpoints, BindTCP)
    {
      hide Blank, AllAcceptable;
      if Blank(id) { return Err(IdRequired); }
      var normalized := NormalizeEndpoints(endpoints, BindTCP, false);
      if normalized.None? { return Err(InvalidEndpoint); }
      AcceptableAreTcp(endpoints);
      CallKeepsValid(View(), OpenNodeCall(id, normalized.value, true));
      var next := nodes[id := normalized.value];
      ghost var before := View();
      RulesIgnoreApplied(before.(nodes := next), {});
      var ok := replacer.Replace(Openings(FirewallState(management, next, relayScopes, portMin, portMax, {})));
      if !ok { return Err(NotApplied); }
      nodes := next;
      return Ok(());
    }

    /** Only the endpoints that are open now can be closed; a stale request is ignored. */
    method CloseNode(id: Name, endpoints: seq<BindEndpoint>) returns (r: Result<(), FirewallError>)
      requires Valid(View())
      modifies this`nodes, replacer
      ensures Valid(View())
      ensures endpoints != [] && AllAcceptable(endpoints, BindTCP)
              && (id !in old(nodes) || old(nodes)[id] != Elements(endpoints)) ==>
                r.Ok? && View() == old(View())
      ensures r.Ok? || r == Err(NotApplied) ==>
                View() == Fast(old(View()), CloseNodeCall(id, Elements(endpoints), r.Ok?))
      ensures r.Err? ==> View() == old(View())
      ensures !replacer.faulty ==> r != Err(NotApplied)
      ensures endpoints != [] && AllAcceptable(endpoints, BindTCP) ==>
                (r.Ok? <==> Answer(old(View()), CloseNodeCall(id, Elements(endpoints), r.Ok?)))
      ensures r.Ok? || r == Err(NotApplied) <==> endpoints != [] && AllAcceptable(endpoints, BindTCP)
    {
      hide AllAcceptable;
      var normalized := NormalizeEndpoints(endpoints, BindTCP, false);
      if normalized.None? { return Err(InvalidEndpoint); }
      if id !in nodes || nodes[id] != normalized.value { return Ok(()); }
      CallKeepsValid(View(), CloseNodeCall(id, normalized.value, true));
      var next := nodes - {id};
      ghost var before := View();
      RulesIgnoreApplied(before.(nodes := next), {});
      var ok := replacer.Replace(Openings(FirewallState(management, next, relayScopes, portMin, portMax, {})));
      if !ok { return Err(NotApplied); }
      nodes := next;
      return Ok(());
    }

    method Open(endpoint: BindEndpoint) returns (r: Result<(), FirewallError>)
      requires Valid(View())
      modifies this`relayScopes, replacer
      ensures Valid(View())
      ensures r.Ok? || r == Err(NotApplied) ==> View() == Fast(old(View()), OpenCall(ScopeOf(endpoint), r.Ok?))
      ensures r.Err? ==> View() == old(View())
      ensures !replacer.faulty ==> r != Err(NotApplied)
      ensures r.Ok? ==> ScopeOf(endpoint) in relayScopes
      ensures Acceptable(endpoint, BindUDP) ==>
                (r.Ok? <==> Answer(old(View()), OpenCall(ScopeOf(endpoint), r.Ok?)))
      ensures r.Ok? || r == Err(NotApplied) <==> Acceptable(endpoint, BindUDP)
    {
      OneAcceptable(endpoint, BindUDP);
      var normalized := NormalizeEndpoints([endpoint], BindUDP, false);
      if normalized.None? { return Err(InvalidEndpoint); }
      assert endpoint in [endpoint];
      var scope := ScopeOf(endpoint);
      CallKeepsValid(View(), OpenCall(scope, true));
      if scope in relayScopes && relayScopes[scope] > 0 {
        relayScopes := relayScopes[scope := relayScopes[scope] + 1];
        return Ok(());
      }
      var next := relayScopes[scope := 1];
      ghost var before := View();
      RulesIgnoreApplied(before.(relays := next), {});
      var ok := replacer.Replace(Openings(FirewallState(management, nodes, next, portMin, portMax, {})));
      if !ok { return Err(NotApplied); }
      relayScopes := next;
      return Ok(());
    }

    method Close(endpoint: BindEndpoint) returns (r: Result<(), FirewallError>)
      requires Valid(View())
      modifies this`relayScopes, replacer
      ensures Valid(View())
      ensures r.Ok? || r == Err(NotApplied) ==> View() == Fast(old(View()), CloseCall(ScopeOf(endpoint), r.Ok?))
      ensures r.Err? ==> View() == old(View())
      ensures !replacer.faulty ==> r != Err(NotApplied)
      ensures Acceptable(endpoint, BindUDP) ==>
                (r.Ok? <==> Answer(old(View()), CloseCall(ScopeOf(endpoint), r.Ok?)))
      ensures r.Ok? || r == Err(NotApplied) <==> Acceptable(endpoint, BindUDP)
    {
      OneAcceptable(endpoint, BindUDP);
      var normalized := NormalizeEndpoints([endpoint], BindUDP, false);
      if normalized.None? { return Err(InvalidEndpoint); }
      assert endpoint in [endpoint];
      var scope := ScopeOf(endpoint);
      CallKeepsValid(View(), CloseCall(scope, true));
      var count := if scope in relayScopes then relayScopes[scope] else 0;
      if count == 0 { return Ok(()); }
      if count > 1 {
        relayScopes := relayScopes[scope := count - 1];
        return Ok(());
      }
      var next := relayScopes - {scope};
      ghost var before := View();
      RulesIgnoreApplied(before.(relays := next), {});
      var ok := replacer.Replace(Openings(FirewallState(management, nodes, next, portMin, portMax, {})));
      if !ok { return Err(NotApplied); }
      relayScopes := next;
      return Ok(());
    }
  }
}
