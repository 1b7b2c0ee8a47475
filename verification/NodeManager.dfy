/** `node.Manager`: the table of proxy nodes and their running listeners. */
module NodeManager {
  import opened Wrappers
  import opened FiniteSets
  import opened Orders
  import opened Names

  const MAX_BATCH_CREATE := 100
  const RUNTIME_START_ATTEMPTS := 3

  /** The settings whose checks look at nothing but themselves, and whether they pass. */
  datatype Details = Details(acceptable: bool, text: string)

  datatype Config = Config(id: Name, name: Name, folder: string, username: string, dedicatedPool: Name, port: nat,
                           details: Details)

  datatype Node = Node(config: Config, running: bool)

  /** A node is running exactly while it has a runtime. */
  datatype Managed = Managed(config: Config, runtime: Option<nat>)

  type Table = map<Name, Managed>

  datatype NodeError =
    | BadFolder | FolderRequired | FoldersDiffer | BadConfig | Unconfirmed | IdChanged
    | NodeExists | NodeMissing | NodeLimit | BatchSize | RepeatedInBatch | FolderExists | FolderMissing
    | StartFailed | StopFailed | PoolCleanupFailed | PreviousCleanupFailed
    | NotEmpty | Cancelled | RestoreFailed | StateUnreadable

  function Snapshot(t: Table): map<Name, Node> { map id | id in t :: Node(t[id].config, t[id].runtime.Some?) }

  // ---- configurations ----

  predicate IsControl(c: char) { c < ' ' || '\U{007F}' <= c <= '\U{009F}' }

  /** `NormalizeFolderName`. */
  function NormalizeFolder(value: string): (r: Option<string>)
    ensures r.Some? ==> r.value == Trim(value)
  {
    var folder := Trim(value);
    if folder == "" then Some("")
    else if |folder| > 64 then None
    else if exists i :: 0 <= i < |folder| && IsControl(folder[i]) then None
    else Some(folder)
  }

  /** A folder name of at most 64 characters without control characters, apart from the space around it. */
  lemma FolderNames(value: string)
    ensures NormalizeFolder(value).Some? <==>
              |Trim(value)| <= 64 && forall c :: c in Trim(value) ==> ' ' <= c && (c < '\U{007F}' || '\U{009F}' < c)
  {
    var folder := Trim(value);
    assert forall i :: 0 <= i < |folder| ==> folder[i] in folder;
  }

  lemma NormalizedFolderIsStable(value: string)
    requires NormalizeFolder(value).Some?
    ensures NormalizeFolder(NormalizeFolder(value).value) == NormalizeFolder(value)
  {
    TrimIsIdempotent(value);
  }

  predicate ValidConfig(c: Config) {
    !Blank(c.id) && !Blank(c.name) && NormalizeFolder(c.folder).Some? && c.details.acceptable
  }

  predicate Allowed(c: Config, confirmed: bool) { ValidConfig(c) && (c.username != "" || confirmed) }

  /** A configuration the table may hold. */
  predicate Stored(c: Config) { ValidConfig(c) && NormalizeFolder(c.folder) == Some(c.folder) }

  ghost predicate TableOk(t: Table) {
    forall id :: id in t ==> t[id].config.id == id && Stored(t[id].config)
  }

  /** The same nodes with the same settings and status; only assigned ports may differ. */
  ghost predicate SameUpToPort(x: Table, y: Table) {
    && x.Keys == y.Keys
    && forall id :: id in x ==> x[id].config == y[id].config.(port := x[id].config.port)
                                && (x[id].runtime.Some? <==> y[id].runtime.Some?)
  }

  // ---- runtimes and dedicated pools, outside ----

  datatype Started = Started(runtime: nat, port: nat)

  class Factory {
    /** The runtimes that were started and not stopped. */
    var live: set<nat>
    var nextRuntime: nat
    /** The settings each of them serves, with the port it got. */
    ghost var serves: map<nat, Config>
    /** Every start call so far, by node, and every successful one. */
    ghost var calls: multiset<Name>
    ghost var wins: multiset<Name>
    /** Every deletion of a dedicated pool so far. */
    ghost var deletedPools: multiset<Name>
    const faulty: bool

    ghost predicate Valid()
      reads this
    {
      serves.Keys == live && forall r :: r in live ==> r < nextRuntime
    }

    constructor (faulty: bool)
      ensures Valid() && live == {} && this.faulty == faulty
    {
      live, nextRuntime, this.faulty := {}, 0, faulty;
      serves, calls, wins, deletedPools := map[], multiset{}, multiset{}, multiset{};
    }

    /** A factory that returns no runtime at all has failed as well. */
    method Start(config: Config) returns (r: Option<Started>)
      requires Valid()
      modifies this`live, this`nextRuntime, this`serves, this`calls, this`wins
      ensures Valid()
      ensures r.Some? ==> r.value.runtime !in old(live) && live == old(live) + {r.value.runtime}
                          && serves == old(serves)[r.value.runtime := config.(port := r.value.port)]
      ensures r.None? ==> live == old(live) && serves == old(serves)
      ensures calls == old(calls) + multiset{config.id}
      ensures wins == old(wins) + if r.Some? then multiset{config.id} else multiset{}
      ensures !faulty ==> r.Some?
    {
      calls := calls + multiset{config.id};
      var failed: bool := *;
      if faulty && failed { return None; }
      var port: nat := *;
      wins := wins + multiset{config.id};
      serves := serves[nextRuntime := config.(port := port)];
      live, nextRuntime := live + {nextRuntime}, nextRuntime + 1;
      return Some(Started(nextRuntime - 1, port));
    }

    method Stop(runtime: nat) returns (ok: bool)
      requires Valid()
      modifies this`live, this`serves
      ensures Valid() && live == if ok then old(live) - {runtime} else old(live)
      ensures serves == if ok then old(serves) - {runtime} else old(serves)
      ensures !faulty ==> ok
    {
      var failed: bool := *;
      if faulty && failed { return false; }
      live, serves := live - {runtime}, serves - {runtime};
      return true;
    }

    /** Adapt a running runtime in place, or start another one beside it. */
    method Replace(runtime: nat, config: Config) returns (r: Option<Started>)
      requires Valid()
      modifies this`live, this`nextRuntime, this`serves, this`calls, this`wins
      ensures Valid()
      ensures r.Some? ==>
                live == old(live) + {r.value.runtime} && (r.value.runtime == runtime || r.value.runtime !in old(live))
                && serves == old(serves)[r.value.runtime := config.(port := r.value.port)]
      ensures r.None? ==> live == old(live) && serves == old(serves)
      ensures !faulty ==> r.Some?
    {
      var inPlace: bool := *;
      if inPlace && runtime in live {
        var port: nat := *;
        serves := serves[runtime := config.(port := port)];
        return Some(Started(runtime, port));
      }
      r := Start(config);
    }

    method DeletePool(name: Name) returns (ok: bool)
      modifies this`deletedPools
      ensures deletedPools == old(deletedPools) + if ok then multiset{name} else multiset{}
      ensures !faulty ==> ok
    {
      ok := *;
      if !faulty { ok := true; }
      if ok { deletedPools := deletedPools + multiset{name}; }
    }
  }

  /** The runtime serves these settings; moving a node to another folder does not concern it. */
  predicate SameSettings(served: Config, config: Config) { served == config.(folder := served.folder) }

  /** Every running node has a live runtime of its own, which serves the node's settings. */
  ghost predicate Attached(t: Table, serves: map<nat, Config>) {
    && (forall id :: id in t && t[id].runtime.Some? ==>
          t[id].runtime.value in serves && SameSettings(serves[t[id].runtime.value], t[id].config))
    && (forall i, j :: i in t && j in t && i != j && t[i].runtime.Some? ==> t[i].runtime != t[j].runtime)
  }

  /** Only these runtimes may have stopped or serve something else. */
  ghost predicate Undisturbed(serves: map<nat, Config>, after: map<nat, Config>, touched: set<nat>) {
    forall r :: r in serves && r !in touched ==> r in after && after[r] == serves[r]
  }

  /** Only this node's own runtime may have changed, and the one it gets is its own or a new one. */
  lemma Updated(t: Table, serves: map<nat, Config>, after: map<nat, Config>, id: Name, m: Managed)
    requires TableOk(t) && Attached(t, serves) && m.config.id == id && Stored(m.config)
    requires Undisturbed(serves, after, Runtimes(t, {id}))
    requires m.runtime.Some? ==>
              && m.runtime.value in after && SameSettings(after[m.runtime.value], m.config)
              && (m.runtime.value !in serves || (id in t && t[id].runtime == m.runtime))
    ensures TableOk(t[id := m]) && Attached(t[id := m], after)
    ensures |t[id := m]| == |t| + if id in t then 0 else 1
  {
    hide Stored, Runtimes, Attached, TableOk;
    OthersStay(t, serves, after, id);
    AttachedOneMore(t, serves, after, id, m);
    TableOneMore(t, id, m);
    SizeOneMore(t, id, m);
  }

  lemma TableOneMore(t: Table, id: Name, m: Managed)
    requires TableOk(t) && m.config.id == id && Stored(m.config)
    ensures TableOk(t[id := m])
  {
    hide Stored;
  }

  lemma SizeOneMore(t: Table, id: Name, m: Managed)
    ensures |t[id := m]| == |t| + if id in t then 0 else 1
  {
    assert t[id := m].Keys == t.Keys + {id};
  }

  lemma AttachedOneMore(t: Table, serves: map<nat, Config>, after: map<nat, Config>, id: Name, m: Managed)
    requires Attached(t, serves) && Attached(t - {id}, after)
    requires m.runtime.Some? ==>
              && m.runtime.value in after && SameSettings(after[m.runtime.value], m.config)
              && (m.runtime.value !in serves || (id in t && t[id].runtime == m.runtime))
    ensures Attached(t[id := m], after)
  {
    hide SameSettings;
    var u := t[id := m];
    forall j | j in t && j != id ensures j in t - {id} && (t - {id})[j] == t[j] && u[j] == t[j] {}
    forall j | j in t && j != id && t[j].runtime.Some? ensures t[j].runtime != m.runtime {
      assert t[j].runtime.value in serves;
    }
  }

  /** Losing one node's runtime leaves the others attached. */
  lemma OthersStay(t: Table, serves: map<nat, Config>, after: map<nat, Config>, id: Name)
    requires Attached(t, serves) && Undisturbed(serves, after, Runtimes(t, {id}))
    ensures Attached(t - {id}, after)
  {
    hide Runtimes, SameSettings;
    OwnRuntime(t, id);
    var u := t - {id};
    forall j | j in u && u[j].runtime.Some?
      ensures u[j].runtime.value in after && SameSettings(after[u[j].runtime.value], u[j].config)
    {
      var r := t[j].runtime.value;
      assert u[j] == t[j] && r in serves;
      assert id in t ==> t[j].runtime != t[id].runtime;
      assert r !in Runtimes(t, {id});
    }
  }

  lemma Removed(t: Table, serves: map<nat, Config>, after: map<nat, Config>, id: Name)
    requires TableOk(t) && Attached(t, serves) && Undisturbed(serves, after, Runtimes(t, {id}))
    ensures TableOk(t - {id}) && Attached(t - {id}, after) && |t - {id}| <= |t|
  {
    hide Stored, Runtimes;
    OthersStay(t, serves, after, id);
    hide Attached;
    assert t.Keys == (t - {id}).Keys + (if id in t then {id} else {});
  }

  lemma UpdateThenRemove(t: Table, id: Name, m: Managed)
    ensures t[id := m] - {id} == t - {id} && t[id := m].Keys == t.Keys + {id}
  {
    assert t[id := m] - {id} == t - {id};
  }

  lemma HeldConfig(t: Table, id: Name)
    requires TableOk(t) && id in t
    ensures t[id].config.id == id && Stored(t[id].config)
  {
    hide Stored;
  }

  class Manager {
    const factory: Factory
    const hasPools: bool
    const maxNodes: nat
    const attempts: nat
    var nodes: Table

    /** The node's dedicated pool, if it has one, was deleted meanwhile. */
    ghost predicate PoolDeleted(config: Config, before: multiset<Name>, after: multiset<Name>) {
      config.dedicatedPool != "" && hasPools ==> after[config.dedicatedPool] > before[config.dedicatedPool]
    }

    /** The dedicated pool that goes with a node, where the program manages pools. */
    ghost function OwnPool(config: Config): multiset<Name> {
      if config.dedicatedPool != "" && hasPools then multiset{config.dedicatedPool} else multiset{}
    }

    ghost predicate Valid()
      reads this, factory
    {
      factory.Valid() && TableOk(nodes) && |nodes| <= maxNodes && attempts >= 1 && Attached(nodes, factory.serves)
    }

    constructor (factory: Factory, hasPools: bool, maxNodes: nat)
      requires factory.Valid() && maxNodes >= 1
      ensures Valid() && nodes == map[] && this.factory == factory && this.maxNodes == maxNodes
              && attempts == RUNTIME_START_ATTEMPTS
    {
      this.factory, this.hasPools, this.maxNodes, this.attempts := factory, hasPools, maxNodes, RUNTIME_START_ATTEMPTS;
      nodes := map[];
    }

    method Create(config: Config, confirmed: bool) returns (r: Result<Node, NodeError>)
      requires Valid()
      modifies this`nodes, factory
      ensures Valid()
      ensures r.Err? ==> nodes == old(nodes) && factory.live == old(factory.live)
      ensures r.Ok? ==> r.value.config.id == config.id && config.id !in old(nodes) && r.value.running
      ensures r.Ok? ==> r.value.config == config.(folder := Trim(config.folder), port := r.value.config.port)
      ensures r.Ok? ==> config.id in nodes && nodes == old(nodes)[config.id := nodes[config.id]]
      ensures r.Ok? ==> nodes[config.id].config == r.value.config && nodes[config.id].runtime.Some?
      ensures r.Ok? ==> nodes[config.id].runtime.value !in old(factory.live)
                        && factory.live == old(factory.live) + {nodes[config.id].runtime.value}
      ensures !factory.faulty ==>
                (r.Ok? <==>
                  && NormalizeFolder(config.folder).Some? && Allowed(NormalForm(config), confirmed)
                  && config.id !in old(nodes) && |old(nodes)| < maxNodes)
    {
      hide ValidConfig, NormalizeFolder, Trim, TableOk, Attached, Runtimes;
      var folder := NormalizeFolder(config.folder);
      if folder.None? { return Err(BadFolder); }
      var normalized := config.(folder := folder.value);
      if !ValidConfig(normalized) { return Err(BadConfig); }
      if normalized.username == "" && !confirmed { return Err(Unconfirmed); }
      NormalizedFolderIsStable(config.folder);
      if config.id in nodes { return Err(NodeExists); }
      if |nodes| >= maxNodes { return Err(NodeLimit); }
      var started := factory.Start(normalized);
      if started.None? { return Err(StartFailed); }
      var final := normalized.(port := started.value.port);
      StoredAtAnyPort(normalized, started.value.port);
      Updated(nodes, old(factory.serves), factory.serves, config.id, Managed(final, Some(started.value.runtime)));
      nodes := nodes[config.id := Managed(final, Some(started.value.runtime))];
      return Ok(Node(final, true));
    }

    // ---- batches ----

    /** The batch in its normal form, when it may be created at all. */
    static method NormalizeBatch(configs: seq<Config>, confirmed: bool) returns (r: Result<seq<Config>, NodeError>)
      ensures r.Ok? <==> BatchOk(configs, confirmed)
      ensures r.Ok? ==> r.value == NormalForms(configs)
    {
      hide NormalizeFolder, ValidConfig, Trim, Distinct, Elements;
      if |configs| == 0 || |configs| > MAX_BATCH_CREATE { return Err(BatchSize); }
      var normalized: seq<Config> := [];
      var ids: set<Name>, names: set<Name>, ports: set<nat> := {}, {}, {};
      EmptyParts(configs);
      for i := 0 to |configs|
        invariant normalized == NormalForms(configs)[..i]
        invariant forall j :: 0 <= j < i ==> MemberOk(configs[j], configs[0], confirmed)
        invariant ids == Elements(Ids(configs)[..i]) && Distinct(Ids(configs)[..i])
        invariant names == Elements(NamesOf(configs)[..i]) && Distinct(NamesOf(configs)[..i])
        invariant ports == set j | 0 <= j < i && configs[j].port != 0 :: configs[j].port
        invariant PortsApart(configs[..i])
      {
        var config := configs[i];
        var folder := NormalizeFolder(config.folder);
        if folder.None? { return Err(BadFolder); }
        if folder.value == "" { return Err(FolderRequired); }
        var normal := config.(folder := folder.value);
        if i > 0 && normalized[0].folder != folder.value { return Err(FoldersDiffer); }
        if !ValidConfig(normal) { return Err(BadConfig); }
        if normal.username == "" && !confirmed { return Err(Unconfirmed); }
        if config.id in ids {
          Repeats(Ids(configs), i);
          return Err(RepeatedInBatch);
        }
        OneMoreDistinct(Ids(configs), i);
        ids := ids + {config.id};
        if config.name in names {
          Repeats(NamesOf(configs), i);
          return Err(RepeatedInBatch);
        }
        OneMoreDistinct(NamesOf(configs), i);
        names := names + {config.name};
        if config.port != 0 && config.port in ports {
          PortRepeats(configs, i);
          return Err(RepeatedInBatch);
        }
        if config.port != 0 { ports := ports + {config.port}; }
        PortsStayApart(configs, i);
        normalized := normalized + [normal];
      }
      WholeParts(configs);
      return Ok(normalized);
    }

    /** Take nodes out again, newest first. A node that cannot be stopped, or whose pool cannot be
        deleted, stays in the table. */
    method RollbackBatch(ids: seq<Name>) returns (ok: bool)
      requires Valid()
      modifies this`nodes, factory`live, factory`serves, factory`deletedPools
      ensures Valid()
      ensures forall id :: id in nodes ==> id in old(nodes)
      ensures forall id :: id in old(nodes) && id !in ids ==> id in nodes && nodes[id] == old(nodes)[id]
      ensures ok ==> nodes == old(nodes) - Elements(ids)
                     && factory.live == old(factory.live) - Runtimes(old(nodes), Elements(ids))
      ensures ok ==> forall id :: id in ids && id in old(nodes) ==>
                PoolDeleted(old(nodes)[id].config, old(factory.deletedPools), factory.deletedPools)
      ensures !factory.faulty ==> ok
    {
      hide Stored, Elements, TableOk, Attached, Runtimes;
      ok := true;
      var i := |ids|;
      assert ids[i..] == [];
      NoElements(ids[i..]);
      NoRuntimes(nodes);
      while i > 0
        invariant 0 <= i <= |ids| && Valid()
        invariant forall id :: id in nodes ==> id in old(nodes)
        invariant forall id :: id in old(nodes) && id !in ids[i..] ==> id in nodes && nodes[id] == old(nodes)[id]
        invariant ok ==> nodes == old(nodes) - Elements(ids[i..])
                         && factory.live == old(factory.live) - Runtimes(old(nodes), Elements(ids[i..]))
        invariant old(factory.deletedPools) <= factory.deletedPools
        invariant ok ==> forall id :: id in ids[i..] && id in old(nodes) ==>
                    PoolDeleted(old(nodes)[id].config, old(factory.deletedPools), factory.deletedPools)
        invariant !factory.faulty ==> ok
      {
        i := i - 1;
        var id := ids[i];
        TailStep(ids, i);
        ghost var middle := nodes;
        ghost var wasLive := factory.live;
        var removed := RemoveNode(id);
        RemovedRuntimes(old(nodes), middle, old(factory.live), Elements(ids[i + 1..]), id);
        ok := ok && removed;
      }
      assert ids[0..] == ids;
    }

    /** Stop a node if it runs, delete its dedicated pool, and drop it from the table. */
    method RemoveNode(id: Name) returns (ok: bool)
      requires Valid()
      modifies this`nodes, factory`live, factory`serves, factory`deletedPools
      ensures Valid()
      ensures ok ==> nodes == old(nodes) - {id} && factory.live == old(factory.live) - Runtimes(old(nodes), {id})
      ensures factory.deletedPools
              == old(factory.deletedPools)
                 + if ok && id in old(nodes) then OwnPool(old(nodes)[id].config) else multiset{}
      ensures !ok ==> id in nodes && nodes.Keys == old(nodes).Keys && forall j :: j in nodes && j != id ==>
                nodes[j] == old(nodes)[j]
      ensures !ok ==>
                nodes == old(nodes) || (old(nodes)[id].runtime.Some? && nodes[id] == old(nodes)[id].(runtime := None))
      ensures !factory.faulty ==> ok
    {
      hide Stored, TableOk, Attached, Runtimes;
      ghost var before := nodes;
      OwnRuntime(before, id);
      if id !in nodes {
        assert nodes - {id} == nodes;
        return true;
      }
      UpdateThenRemove(before, id, before[id].(runtime := None));
      if nodes[id].runtime.Some? {
        var stopped := StopNode(id);
        if !stopped { return false; }
      }
      ok := DropStopped(id);
    }

    /** Delete a stopped node's dedicated pool, then the node. */
    method DropStopped(id: Name) returns (ok: bool)
      requires Valid() && id in nodes && nodes[id].runtime.None?
      modifies this`nodes, factory`deletedPools
      ensures Valid()
      ensures nodes == if ok then old(nodes) - {id} else old(nodes)
      ensures factory.deletedPools
              == old(factory.deletedPools) + if ok then OwnPool(old(nodes)[id].config) else multiset{}
      ensures !factory.faulty ==> ok
    {
      hide Stored, TableOk, Attached, Runtimes;
      if nodes[id].config.dedicatedPool != "" && hasPools {
        var deleted := factory.DeletePool(nodes[id].config.dedicatedPool);
        if !deleted { return false; }
      }
      Removed(nodes, factory.serves, factory.serves, id);
      nodes := nodes - {id};
      return true;
    }

    /** Stop a running node's runtime. */
    method StopNode(id: Name) returns (ok: bool)
      requires Valid() && id in nodes && nodes[id].runtime.Some?
      modifies this`nodes, factory`live, factory`serves
      ensures Valid()
      ensures nodes == if ok then old(nodes)[id := old(nodes)[id].(runtime := None)] else old(nodes)
      ensures factory.live == if ok then old(factory.live) - Runtimes(old(nodes), {id}) else old(factory.live)
      ensures !factory.faulty ==> ok
    {
      hide Stored, TableOk, Attached, Runtimes;
      OwnRuntime(nodes, id);
      HeldConfig(nodes, id);
      var current := nodes[id];
      ok := factory.Stop(current.runtime.value);
      if ok {
        Updated(nodes, old(factory.serves), factory.serves, id, current.(runtime := None));
        nodes := nodes[id := current.(runtime := None)];
      }
    }

    /** All of the batch, or nothing of it when the rollback calls succeed (`undone`). */
    method CreateBatch(configs: seq<Config>, confirmed: bool, cancelled: bool)
      returns (r: Result<(), NodeError>, undone: bool)
      requires Valid()
      modifies this`nodes, factory
      ensures Valid()
      ensures r.Ok? ==> BatchOk(configs, confirmed) && Created(old(nodes), nodes, NormalForms(configs))
      ensures r.Ok? ==> forall i :: 0 <= i < |configs| ==> configs[i].id !in old(nodes)
      ensures r.Ok? ==> factory.live == old(factory.live) + Runtimes(nodes, Elements(Ids(configs)))
                        && Runtimes(nodes, Elements(Ids(configs))) !! old(factory.live)
      ensures r.Err? && undone ==> nodes == old(nodes) && factory.live == old(factory.live)
      ensures r.Err? ==> forall id :: id in old(nodes) ==> id in nodes && nodes[id] == old(nodes)[id]
      ensures !factory.faulty ==> undone
      ensures !factory.faulty ==>
                (r.Ok? <==>
                  && !cancelled && BatchOk(configs, confirmed) && |old(nodes)| + |configs| <= maxNodes
                  && (forall id :: id in old(nodes) ==> old(nodes)[id].config.folder != Trim(configs[0].folder))
                  && (forall i :: 0 <= i < |configs| ==> configs[i].id !in old(nodes)))
    {
      hide Stored, BatchOk, Trim, Elements;
      undone := true;
      if cancelled { return Err(Cancelled), true; }
      var normalized := NormalizeBatch(configs, confirmed);
      if normalized.Err? { return Err(normalized.error), true; }
      BatchFacts(configs, confirmed);
      var batch := normalized.value;
      if |nodes| + |batch| > maxNodes { return Err(NodeLimit), true; }
      var taken := FolderInUse(batch[0].folder);
      if taken { return Err(FolderExists), true; }
      var clash := AnyExists(batch);
      if clash { return Err(NodeExists), true; }
      assert Ids(batch) == Ids(configs);
      r, undone := StartBatch(batch);
    }

    method FolderInUse(folder: string) returns (used: bool)
      ensures used <==> exists id :: id in nodes && nodes[id].config.folder == folder
    {
      var pending := nodes.Keys;
      while pending != {}
        invariant pending <= nodes.Keys && forall id :: id in nodes && id !in pending ==>
                  nodes[id].config.folder != folder
        decreases |pending|
      {
        var id :| id in pending;
        if nodes[id].config.folder == folder { return true; }
        pending := pending - {id};
      }
      return false;
    }

    method AnyExists(batch: seq<Config>) returns (clash: bool)
      ensures clash <==> exists i :: 0 <= i < |batch| && batch[i].id in nodes
    {
      for i := 0 to |batch|
        invariant forall j :: 0 <= j < i ==> batch[j].id !in nodes
      {
        if batch[i].id in nodes { return true; }
      }
      return false;
    }

    method StartBatch(batch: seq<Config>) returns (r: Result<(), NodeError>, undone: bool)
      requires Valid() && |nodes| + |batch| <= maxNodes && Distinct(Ids(batch))
      requires forall i :: 0 <= i < |batch| ==> batch[i].id !in nodes && Stored(batch[i])
      modifies this`nodes, factory
      ensures Valid()
      ensures r.Ok? ==> Created(old(nodes), nodes, batch)
                        && factory.live == old(factory.live) + Runtimes(nodes, Elements(Ids(batch)))
                        && Runtimes(nodes, Elements(Ids(batch))) !! old(factory.live)
      ensures r.Err? && undone ==> nodes == old(nodes) && factory.live == old(factory.live)
      ensures r.Err? ==> forall id :: id in old(nodes) ==> id in nodes && nodes[id] == old(nodes)[id]
      ensures !factory.faulty ==> r.Ok? && undone
    {
      hide Stored, Elements, Created, TableOk, Attached, Runtimes, Distinct;
      NothingCreated(nodes, batch);
      for i := 0 to |batch|
        invariant Valid() && Created(old(nodes), nodes, batch[..i]) && |nodes| + |batch| - i <= maxNodes
        invariant factory.live == old(factory.live) + Runtimes(nodes, Elements(Ids(batch)[..i]))
                  && Runtimes(nodes, Elements(Ids(batch)[..i])) !! old(factory.live)
      {
        var config := batch[i];
        CreatedLeavesRoom(old(nodes), nodes, batch, i);
        ghost var wasServed := factory.serves;
        var started := factory.Start(config);
        if started.None? {
          CreatedIds(old(nodes), nodes, batch, i);
          undone := RollbackBatch(Ids(batch)[..i]);
          return Err(StartFailed), undone;
        }
        StoredAtAnyPort(config, started.value.port);
        Updated(nodes, wasServed, factory.serves, config.id,
                Managed(config.(port := started.value.port), Some(started.value.runtime)));
        CreatedOneMore(old(nodes), nodes, batch, i,
                       Managed(config.(port := started.value.port), Some(started.value.runtime)));
        nodes := nodes[config.id := Managed(config.(port := started.value.port), Some(started.value.runtime))];
      }
      assert batch[..|batch|] == batch && Ids(batch)[..|batch|] == Ids(batch);
      return Ok(()), true;
    }

    // ---- single nodes ----

    /** A stopped node takes the settings at once; a running one gets a runtime for them first. When
        the previous runtime cannot be stopped the update has still taken place. */
    method Update(id: Name, config: Config, confirmed: bool) returns (r: Result<Node, NodeError>)
      requires Valid()
      modifies this`nodes, factory
      ensures Valid()
      ensures r.Err? && r.error != PreviousCleanupFailed ==> nodes == old(nodes) && factory.live == old(factory.live)
      ensures r.Ok? || r.error == PreviousCleanupFailed ==>
                && id in old(nodes) && id in nodes && config.id == id && NormalizeFolder(config.folder).Some?
                && Allowed(NormalForm(config), confirmed)
                && nodes == old(nodes)[id := nodes[id]]
                && (nodes[id].runtime.Some? <==> old(nodes)[id].runtime.Some?)
                && nodes[id].config == NormalForm(config).(port := nodes[id].config.port)
                && (old(nodes)[id].runtime.None? ==> nodes[id].config == NormalForm(config))
      ensures r.Ok? ==> id in nodes && r.value == Node(nodes[id].config, nodes[id].runtime.Some?)
                        && factory.live == old(factory.live - Runtimes(nodes, {id})) + Runtimes(nodes, {id})
      ensures r.Err? && r.error == PreviousCleanupFailed ==>
                factory.live == old(factory.live) + Runtimes(nodes, {id}) && nodes[id].runtime != old(nodes)[id].runtime
      ensures (!factory.faulty || (id in old(nodes) && old(nodes)[id].runtime.None?)) ==>
                (r.Ok? <==> id in old(nodes) && config.id == id && NormalizeFolder(config.folder).Some?
                            && Allowed(NormalForm(config), confirmed))
    {
      hide ValidConfig, NormalizeFolder, Trim, TableOk, Attached, Runtimes;
      var folder := NormalizeFolder(config.folder);
      if folder.None? { return Err(BadFolder); }
      var normalized := config.(folder := folder.value);
      if config.id != id { return Err(IdChanged); }
      if !ValidConfig(normalized) { return Err(BadConfig); }
      if normalized.username == "" && !confirmed { return Err(Unconfirmed); }
      if id !in nodes { return Err(NodeMissing); }
      NormalizedFolderIsStable(config.folder);
      var current := nodes[id];
      OwnRuntime(nodes, id);
      if current.runtime.None? {
        Updated(nodes, factory.serves, factory.serves, id, Managed(normalized, None));
        nodes := nodes[id := Managed(normalized, None)];
        OwnRuntime(nodes, id);
        return Ok(Node(normalized, false));
      }
      r := ReplaceRuntime(id, normalized);
    }

    method ReplaceRuntime(id: Name, normalized: Config) returns (r: Result<Node, NodeError>)
      requires Valid() && id in nodes && nodes[id].runtime.Some? && normalized.id == id && Stored(normalized)
      modifies this`nodes, factory
      ensures Valid()
      ensures r.Err? ==> r.error == StartFailed || r.error == PreviousCleanupFailed
      ensures r.Err? && r.error != PreviousCleanupFailed ==> nodes == old(nodes) && factory.live == old(factory.live)
      ensures r.Ok? || r.error == PreviousCleanupFailed ==>
                && id in nodes && nodes == old(nodes)[id := nodes[id]] && nodes[id].runtime.Some?
                && nodes[id].config == normalized.(port := nodes[id].config.port)
      ensures r.Ok? ==> id in nodes && r.value == Node(nodes[id].config, true)
                        && factory.live == old(factory.live - Runtimes(nodes, {id})) + Runtimes(nodes, {id})
      ensures r.Err? && r.error == PreviousCleanupFailed ==>
                factory.live == old(factory.live) + Runtimes(nodes, {id}) && nodes[id].runtime != old(nodes)[id].runtime
      ensures !factory.faulty ==> r.Ok?
    {
      hide Stored, TableOk, Attached, Runtimes;
      OwnRuntime(nodes, id);
      HeldIfRunning(nodes, factory.serves, id);
      var previous := nodes[id].runtime.value;
      var replaced := factory.Replace(previous, normalized);
      if replaced.None? { return Err(StartFailed); }
      var clean := true;
      if replaced.value.runtime != previous { clean := factory.Stop(previous); }
      var final := normalized.(port := replaced.value.port);
      StoredAtAnyPort(normalized, replaced.value.port);
      Updated(nodes, old(factory.serves), factory.serves, id, Managed(final, Some(replaced.value.runtime)));
      nodes := nodes[id := Managed(final, Some(replaced.value.runtime))];
      OwnRuntime(nodes, id);
      return if clean then Ok(Node(final, true)) else Err(PreviousCleanupFailed);
    }

    method Start(id: Name, patient: bool) returns (r: Result<Node, NodeError>)
      requires Valid()
      modifies this`nodes, factory
      ensures Valid()
      ensures r.Err? ==> nodes == old(nodes) && factory.live == old(factory.live)
      ensures r.Ok? ==>
                && id in old(nodes) && id in nodes && nodes == old(nodes)[id := nodes[id]] && nodes[id].runtime.Some?
                && nodes[id].config == old(nodes)[id].config.(port := nodes[id].config.port)
                && (old(nodes)[id].runtime.Some? ==> nodes == old(nodes))
                && factory.live == old(factory.live) + Runtimes(nodes, {id})
                && r.value == Node(nodes[id].config, true)
      ensures r == Err(NodeMissing) <==> id !in old(nodes)
      ensures r.Err? && patient && id in old(nodes) ==>
                factory.calls[id] == old(factory.calls)[id] + attempts
      ensures CalledUpTo(old(factory.calls), factory.calls, id, attempts)
      ensures id in old(nodes) && old(nodes)[id].runtime.Some? ==> factory.calls == old(factory.calls)
      ensures !factory.faulty && patient ==> (r.Ok? <==> id in old(nodes))
    {
      hide Stored, TableOk, Attached, Runtimes;
      if id !in nodes { return Err(NodeMissing); }
      var current := nodes[id];
      if current.runtime.Some? {
        assert nodes[id := nodes[id]] == nodes;
        OwnRuntime(nodes, id);
        HeldIfRunning(nodes, factory.serves, id);
        return Ok(Node(current.config, true));
      }
      HeldConfig(nodes, id);
      OwnRuntime(nodes, id);
      var started := StartWithRetry(current.config, patient);
      if started.None? { return Err(StartFailed); }
      var final := current.config.(port := started.value.port);
      StoredAtAnyPort(current.config, started.value.port);
      Updated(nodes, old(factory.serves), factory.serves, id, Managed(final, Some(started.value.runtime)));
      nodes := nodes[id := Managed(final, Some(started.value.runtime))];
      OwnRuntime(nodes, id);
      return Ok(Node(final, true));
    }

    /** Up to the configured number of attempts; cancellation ends them early. */
    method StartWithRetry(config: Config, patient: bool) returns (r: Option<Started>)
      requires factory.Valid() && attempts >= 1
      modifies factory
      ensures factory.Valid()
      ensures r.Some? ==> r.value.runtime !in old(factory.live) && factory.live == old(factory.live) + {r.value.runtime}
                          && factory.serves == old(factory.serves)[r.value.runtime := config.(port := r.value.port)]
      ensures r.None? ==> factory.live == old(factory.live) && factory.serves == old(factory.serves)
      ensures CalledUpTo(old(factory.calls), factory.calls, config.id, attempts)
      ensures r.Some? ==> factory.calls[config.id] > old(factory.calls)[config.id]
      ensures r.None? && patient ==> factory.calls[config.id] == old(factory.calls)[config.id] + attempts
      ensures !factory.faulty && patient ==> r.Some?
    {
      for attempt := 0 to attempts
        invariant factory.Valid() && factory.live == old(factory.live) && factory.serves == old(factory.serves)
        invariant CalledUpTo(old(factory.calls), factory.calls, config.id, attempt)
        invariant patient ==> factory.calls[config.id] == old(factory.calls)[config.id] + attempt
        invariant !factory.faulty && patient ==> attempt == 0
      {
        var cancelled: bool := *;
        if !patient && cancelled { return None; }
        r := factory.Start(config);
        if r.Some? { return; }
      }
      return None;
    }

    method Stop(id: Name) returns (r: Result<Node, NodeError>)
      requires Valid()
      modifies this`nodes, factory`live, factory`serves
      ensures Valid()
      ensures r.Err? ==> nodes == old(nodes) && factory.live == old(factory.live)
      ensures r.Ok? ==>
                && id in old(nodes) && nodes == old(nodes)[id := old(nodes)[id].(runtime := None)]
                && factory.live == old(factory.live) - Runtimes(old(nodes), {id})
                && r.value == Node(old(nodes)[id].config, false)
      ensures !factory.faulty ==> (r.Ok? <==> id in old(nodes))
    {
      hide Stored, TableOk, Attached, Runtimes;
      if id !in nodes { return Err(NodeMissing); }
      OwnRuntime(nodes, id);
      if nodes[id].runtime.None? {
        assert nodes[id := nodes[id].(runtime := None)] == nodes;
        return Ok(Node(nodes[id].config, false));
      }
      var stopped := StopNode(id);
      if !stopped { return Err(StopFailed); }
      return Ok(Node(nodes[id].config, false));
    }

    method MoveToFolder(id: Name, folder: string, cancelled: bool) returns (r: Result<Node, NodeError>)
      requires Valid()
      modifies this`nodes
      ensures Valid()
      ensures r.Ok? <==> !cancelled && NormalizeFolder(folder).Some? && id in old(nodes)
      ensures r.Ok? ==>
                nodes == old(nodes)[id := old(nodes)[id].(config := old(nodes)[id].config.(folder := Trim(folder)))]
      ensures r.Err? ==> nodes == old(nodes)
    {
      hide ValidConfig, NormalizeFolder, Trim, TableOk, Attached, Runtimes;
      if cancelled { return Err(Cancelled); }
      var normalized := NormalizeFolder(folder);
      if normalized.None? { return Err(BadFolder); }
      if id !in nodes { return Err(NodeMissing); }
      HeldConfig(nodes, id);
      NormalizedFolderIsStable(folder);
      var current := nodes[id];
      FolderKeepsValid(current.config, normalized.value);
      OwnRuntime(nodes, id);
      HeldIfRunning(nodes, factory.serves, id);
      var moved := current.(config := current.config.(folder := normalized.value));
      Updated(nodes, factory.serves, factory.serves, id, moved);
      nodes := nodes[id := moved];
      return Ok(Node(moved.config, moved.runtime.Some?));
    }

    /** The nodes of `source` move to `target`, which must be empty unless it is the same folder. */
    method RenameFolder(source: string, target: string, cancelled: bool) returns (r: Result<(), NodeError>)
      requires Valid()
      modifies this`nodes
      ensures Valid()
      ensures r.Ok? <==> !cancelled && Renamable(old(nodes), source, target)
      ensures nodes == if r.Ok? then Renamed(old(nodes), Trim(source), Trim(target)) else old(nodes)
    {
      hide ValidConfig, NormalizeFolder, Trim, TableOk, Attached;
      if cancelled { return Err(Cancelled); }
      var from := NormalizeFolder(source);
      if from.None? { return Err(BadFolder); }
      if from.value == "" { return Err(FolderRequired); }
      var to := NormalizeFolder(target);
      if to.None? { return Err(BadFolder); }
      if to.value == "" { return Err(FolderRequired); }
      if from.value != to.value {
        var used := FolderInUse(to.value);
        if used { return Err(FolderExists); }
      }
      var found := FolderInUse(from.value);
      if !found { return Err(FolderMissing); }
      NormalizedFolderIsStable(target);
      RenamedIsOk(nodes, factory.serves, from.value, to.value);
      RenameAll(from.value, to.value);
      return Ok(());
    }

    method RenameAll(source: string, target: string)
      modifies this`nodes
      ensures nodes == Renamed(old(nodes), source, target)
    {
      var pending := nodes.Keys;
      while pending != {}
        invariant pending <= old(nodes).Keys
        invariant nodes == map id | id in old(nodes) ::
                    if id !in pending && old(nodes)[id].config.folder == source then InFolder(old(nodes)[id], target)
                    else old(nodes)[id]
        decreases |pending|
      {
        var id :| id in pending;
        if nodes[id].config.folder == source { nodes := nodes[id := InFolder(nodes[id], target)]; }
        pending := pending - {id};
      }
    }

    /** Stop a node and drop it from the table, leaving its pool alone. */
    method Detach(id: Name) returns (r: Result<(), NodeError>)
      requires Valid()
      modifies this`nodes, factory`live, factory`serves
      ensures Valid()
      ensures r.Err? ==> nodes == old(nodes) && factory.live == old(factory.live)
      ensures r.Ok? ==> id in old(nodes) && nodes == old(nodes) - {id} && |nodes| + 1 <= maxNodes
                        && factory.live == old(factory.live - Runtimes(nodes, {id}))
      ensures !factory.faulty ==> (r.Ok? <==> id in old(nodes))
    {
      hide Stored, TableOk, Attached, Runtimes;
      if id !in nodes { return Err(NodeMissing); }
      OwnRuntime(nodes, id);
      if nodes[id].runtime.Some? {
        var stopped := factory.Stop(nodes[id].runtime.value);
        if !stopped { return Err(StopFailed); }
      }
      Removed(nodes, old(factory.serves), factory.serves, id);
      OneFewer(nodes, id);
      nodes := nodes - {id};
      return Ok(());
    }

    /** Put a node back as the snapshot has it; a running one is started again. */
    method RestoreNode(snapshot: Node) returns (r: Result<(), NodeError>)
      requires Valid() && Stored(snapshot.config)
      modifies this`nodes, factory
      ensures factory.deletedPools == old(factory.deletedPools)
      ensures Valid()
      ensures r.Err? ==> nodes == old(nodes) && factory.live == old(factory.live)
      ensures r.Ok? ==>
                var id := snapshot.config.id;
                && id !in old(nodes) && id in nodes && nodes == old(nodes)[id := nodes[id]]
                && (nodes[id].runtime.Some? <==> snapshot.running)
                && nodes[id].config == snapshot.config.(port := nodes[id].config.port)
                && (!snapshot.running ==> nodes[id].config == snapshot.config)
                && factory.live == old(factory.live) + Runtimes(nodes, {id})
                && (snapshot.running ==> nodes[id].runtime.value !in old(factory.live))
      ensures !factory.faulty ==> (r.Ok? <==> snapshot.config.id !in old(nodes) && |old(nodes)| < maxNodes)
    {
      hide Stored, TableOk, Attached, Runtimes;
      var id := snapshot.config.id;
      if id in nodes { return Err(NodeExists); }
      if |nodes| >= maxNodes { return Err(NodeLimit); }
      OwnRuntime(nodes, id);
      if !snapshot.running {
        Updated(nodes, factory.serves, factory.serves, id, Managed(snapshot.config, None));
        nodes := nodes[id := Managed(snapshot.config, None)];
        OwnRuntime(nodes, id);
        return Ok(());
      }
      var started := factory.Start(snapshot.config);
      if started.None? { return Err(StartFailed); }
      var final := snapshot.config.(port := started.value.port);
      StoredAtAnyPort(snapshot.config, started.value.port);
      Updated(nodes, old(factory.serves), factory.serves, id, Managed(final, Some(started.value.runtime)));
      nodes := nodes[id := Managed(final, Some(started.value.runtime))];
      OwnRuntime(nodes, id);
      return Ok(());
    }

    method CleanupDedicatedPool(config: Config) returns (ok: bool)
      modifies factory`deletedPools
      ensures factory.deletedPools == old(factory.deletedPools) + if ok then OwnPool(config) else multiset{}
      ensures !factory.faulty || config.dedicatedPool == "" || !hasPools ==> ok
    {
      if config.dedicatedPool == "" || !hasPools { return true; }
      ok := factory.DeletePool(config.dedicatedPool);
    }

    /** `Delete`: what a rollback of a creation uses. */
    method Delete(id: Name) returns (r: Result<(), NodeError>)
      requires Valid()
      modifies this`nodes, factory`live, factory`serves, factory`deletedPools
      ensures Valid()
      ensures r.Ok? ==> id in old(nodes) && nodes == old(nodes) - {id}
                        && factory.live == old(factory.live) - Runtimes(old(nodes), {id})
                        && factory.deletedPools == old(factory.deletedPools) + OwnPool(old(nodes)[id].config)
      ensures r.Err? ==> factory.deletedPools == old(factory.deletedPools)
      ensures r.Err? ==> nodes.Keys == old(nodes).Keys && forall j :: j in nodes && j != id ==>
                nodes[j] == old(nodes)[j]
      ensures !factory.faulty ==> (r.Ok? <==> id in old(nodes))
    {
      hide Stored, TableOk, Attached, Runtimes;
      if id !in nodes { return Err(NodeMissing); }
      var removed := RemoveNode(id);
      return if removed then Ok(()) else Err(StopFailed);
    }

    // ---- restore and shutdown ----

    /** `normalizeState`: the desired nodes by name, folders in normal form. */
    static method NormalizeState(list: seq<Node>) returns (r: Result<map<Name, Node>, NodeError>)
      ensures r.Ok? <==> StateOk(list)
      ensures r.Ok? ==> r.value == Desired(list)
    {
      hide NormalizeFolder, ValidConfig, Trim, Distinct, Elements;
      var desired: map<Name, Node> := map[];
      ghost var ids := NodeIds(list);
      NoElements(ids[..0]);
      assert Distinct(ids[..0]) by { assert ids[..0] == []; NothingRepeats(ids[..0]); }
      assert list[..0] == [];
      for i := 0 to |list|
        invariant desired == Desired(list[..i]) && desired.Keys == Elements(ids[..i]) && Distinct(ids[..i])
        invariant forall j :: 0 <= j < i ==>
                  NormalizeFolder(list[j].config.folder).Some? && ValidConfig(NormalForm(list[j].config))
      {
        var current := list[i];
        assert list[..i + 1][..i] == list[..i] && list[..i + 1][i] == current;
        var folder := NormalizeFolder(current.config.folder);
        if folder.None? { return Err(BadFolder); }
        var normal := current.config.(folder := folder.value);
        if !ValidConfig(normal) { return Err(BadConfig); }
        if normal.id in desired {
          Repeats(ids, i);
          return Err(RepeatedInBatch);
        }
        OneMoreDistinct(ids, i);
        desired := desired[normal.id := Node(normal, current.running)];
      }
      assert list[..|list|] == list && ids[..|list|] == ids;
      return Ok(desired);
    }

    /** Every desired node is there, stopped, and those that ought to run are tried up to the
        configured number of times. `tries` counts the start calls per node, `wins` the successful ones. */
    method Restore(list: seq<Node>, patient: bool)
      returns (r: Result<(), NodeError>, ghost tries: multiset<Name>, ghost wins: multiset<Name>)
      requires Valid()
      modifies this`nodes, factory
      ensures Valid()
      ensures !StateOk(list) || |Desired(list)| > maxNodes || old(nodes) != map[] ==>
                r.Err? && nodes == old(nodes) && factory.live == old(factory.live) && tries == multiset{}
      ensures factory.calls == old(factory.calls) + tries && factory.wins == old(factory.wins) + wins
      ensures StateOk(list) && |Desired(list)| <= maxNodes && old(nodes) == map[] ==>
                && Restored(patient, Desired(list), nodes, attempts, tries, wins)
                && factory.live == old(factory.live) + Runtimes(nodes, nodes.Keys)
                && (r.Ok? <==> forall id :: id in Desired(list) && Desired(list)[id].running ==>
                                              nodes[id].runtime.Some?)
      ensures !factory.faulty && patient && StateOk(list) && |Desired(list)| <= maxNodes && old(nodes) == map[] ==>
                r.Ok?
    {
      hide StateOk, Desired, Stored, TableOk, Attached, Distinct, Elements, NameLess, TriedOn, Restored, Runtimes;
      tries, wins := multiset{}, multiset{};
      var normalized := NormalizeState(list);
      if normalized.Err? { return Err(normalized.error), tries, wins; }
      var desired := normalized.value;
      if |desired| > maxNodes { return Err(NodeLimit), tries, wins; }
      if nodes != map[] { return Err(NotEmpty), tries, wins; }
      DesiredIsStored(list);
      AllStopped(desired, factory.serves);
      nodes := map id | id in desired :: Managed(desired[id].config, None);
      NoneRuns(nodes, nodes.Keys);
      NamesAreOrdered();
      var pending := Sort(NameLess, set id | id in desired && desired[id].running);
      PendingStart(patient, desired, nodes, pending);
      pending, tries, wins := TryRounds(desired, pending, patient);
      return if pending == [] then Ok(()) else Err(RestoreFailed), tries, wins;
    }

    lemma TriesAtLeastOnce()
      requires Valid()
      ensures attempts >= 1
    {
    }

    /** Rounds of starts until every desired node runs or the attempts are used up. */
    method TryRounds(ghost desired: map<Name, Node>, all: seq<Name>, patient: bool)
      returns (pending: seq<Name>, ghost tries: multiset<Name>, ghost wins: multiset<Name>)
      requires Valid() && TriedOn(patient, desired, nodes, all, 0, multiset{}, multiset{})
      requires Runtimes(nodes, nodes.Keys) == {}
      modifies this`nodes, factory
      ensures Valid() && Restored(patient, desired, nodes, attempts, tries, wins)
      ensures pending == [] <==> forall id :: id in desired && desired[id].running ==> nodes[id].runtime.Some?
      ensures factory.calls == old(factory.calls) + tries && factory.wins == old(factory.wins) + wins
      ensures factory.live == old(factory.live) + Runtimes(nodes, nodes.Keys)
      ensures !factory.faulty && patient ==> pending == []
    {
      hide *;
      TriesAtLeastOnce();
      pending, tries, wins := all, multiset{}, multiset{};
      NothingCounted(factory.calls);
      NothingCounted(factory.wins);
      assert Ran(factory.live, factory.live, nodes, nodes.Keys) by { NothingRan(factory.live, nodes); }
      var attempt := 0;
      while attempt < attempts && pending != []
        invariant Valid() && attempt <= attempts && TriedOn(patient, desired, nodes, pending, attempt, tries, wins)
        invariant Counted(old(factory.calls), factory.calls, tries) && Counted(old(factory.wins), factory.wins, wins)
        invariant Ran(old(factory.live), factory.live, nodes, nodes.Keys)
        invariant !factory.faulty && patient && attempt > 0 ==> pending == []
        decreases attempts - attempt
      {
        ghost var before, live, calls, won' := nodes, factory.live, factory.calls, factory.wins;
        PendingAreStopped(patient, desired, nodes, pending, attempt, tries, wins);
        ghost var tried, won;
        var retry;
        retry, tried, won := TryAll(pending, patient);
        RoundMeans(patient, Elements(pending), Elements(retry), tried, won);
        TriedOnce(patient, desired, before, nodes, pending, retry, attempt, tries, wins, tried, won);
        RanOn(old(factory.live), live, factory.live, before, nodes, pending, won);
        CountedTwice(old(factory.calls), calls, factory.calls, tries, multiset(tried));
        CountedTwice(old(factory.wins), won', factory.wins, wins, multiset(won));
        tries, wins := tries + multiset(tried), wins + multiset(won);
        pending := retry;
        attempt := attempt + 1;
        if pending == [] || attempt == attempts { break; }
        var cancelled: bool := *;
        if !patient && cancelled { break; }
      }
      assert patient ==> pending == [] || attempt == attempts;
      TriedToTheEnd(patient, desired, nodes, pending, attempt, attempts, tries, wins);
      CountedMeans(old(factory.calls), factory.calls, tries);
      CountedMeans(old(factory.wins), factory.wins, wins);
      RanMeans(old(factory.live), factory.live, nodes, nodes.Keys);
    }

    /** One round of starts; what could not be started is for the next round. */
    method TryAll(pending: seq<Name>, patient: bool)
      returns (retry: seq<Name>, ghost tried: set<Name>, ghost won: set<Name>)
      requires Valid() && Distinct(pending) && forall id :: id in pending ==> id in nodes && nodes[id].runtime.None?
      modifies this`nodes, factory
      ensures Valid() && RoundStarted(old(nodes), nodes, won)
      ensures Distinct(retry) && Round(patient, Elements(pending), Elements(retry), tried, won)
      ensures Counted(old(factory.calls), factory.calls, multiset(tried))
              && Counted(old(factory.wins), factory.wins, multiset(won))
      ensures Ran(old(factory.live), factory.live, nodes, won)
      ensures !factory.faulty && patient ==> retry == []
    {
      hide *;
      retry, tried, won := [], {}, {};
      NothingRepeats(retry);
      NoElements(retry);
      NoElements(pending[..0]);
      NothingYet(patient);
      NothingCounted(factory.calls);
      NothingCounted(factory.wins);
      NothingRan(factory.live, nodes);
      NothingStarted(nodes);
      assert multiset(tried) == multiset{} && multiset(won) == multiset{};
      for i := 0 to |pending|
        invariant Valid() && RoundStarted(old(nodes), nodes, won)
        invariant Distinct(retry) && Round(patient, Elements(pending[..i]), Elements(retry), tried, won)
        invariant Counted(old(factory.calls), factory.calls, multiset(tried))
                  && Counted(old(factory.wins), factory.wins, multiset(won))
        invariant Ran(old(factory.live), factory.live, nodes, won)
        invariant !factory.faulty && patient ==> retry == []
      {
        var id := pending[i];
        ElementsStep(pending, i);
        RoundStep(patient, Elements(pending[..i]), Elements(retry), tried, won, id);
        NotListed(retry, id);
        NotStartedYet(old(nodes), nodes, won, id);
        ghost var before, live, calls, wins := nodes, factory.live, factory.calls, factory.wins;
        var cancelled: bool := *;
        if !patient && cancelled {
          AppendKeepsDistinct(retry, id);
          retry := retry + [id];
          continue;
        }
        var started := TryOne(id);
        OneMoreCounted(old(factory.calls), calls, factory.calls, tried, id);
        tried := tried + {id};
        if !started {
          AppendKeepsDistinct(retry, id);
          retry := retry + [id];
          continue;
        }
        OneMoreCounted(old(factory.wins), wins, factory.wins, won, id);
        OneMoreRan(old(factory.live), live, factory.live, before, won, id, nodes[id]);
        OneMoreStarted(old(nodes), before, nodes, won, id);
        won := won + {id};
      }
      assert pending[..|pending|] == pending;
    }

    /** One start of a stopped node. */
    method TryOne(id: Name) returns (started: bool)
      requires Valid() && id in nodes && nodes[id].runtime.None?
      modifies this`nodes, factory
      ensures Valid() && id in nodes && nodes == old(nodes)[id := nodes[id]]
      ensures StartedOr(old(nodes)[id], nodes[id], started)
      ensures factory.calls == old(factory.calls) + multiset{id}
      ensures factory.wins == if started then old(factory.wins) + multiset{id} else old(factory.wins)
      ensures started ==> nodes[id].runtime.Some? && factory.live == old(factory.live) + {nodes[id].runtime.value}
      ensures !started ==> nodes == old(nodes) && factory.live == old(factory.live)
      ensures !factory.faulty ==> started
    {
      hide Stored, TableOk, Attached, Runtimes;
      HeldConfig(nodes, id);
      OwnRuntime(nodes, id);
      ghost var wasServed := factory.serves;
      var result := factory.Start(nodes[id].config);
      if result.None? { return false; }
      var m := Managed(nodes[id].config.(port := result.value.port), Some(result.value.runtime));
      StoredAtAnyPort(nodes[id].config, result.value.port);
      Updated(nodes, wasServed, factory.serves, id, m);
      nodes := nodes[id := m];
      return true;
    }

    /** Every running node is stopped; one that cannot be stays running. */
    method Shutdown() returns (ok: bool)
      requires Valid()
      modifies this`nodes, factory`live, factory`serves
      ensures Valid() && nodes.Keys == old(nodes).Keys
      ensures forall id :: id in nodes ==> nodes[id] == old(nodes)[id] || nodes[id] == old(nodes)[id].(runtime := None)
      ensures ok <==> forall id :: id in nodes ==> nodes[id].runtime.None?
      ensures ok ==> factory.live == old(factory.live - Runtimes(nodes, nodes.Keys))
      ensures !factory.faulty ==> ok
    {
      hide *;
      ok := true;
      var pending := nodes.Keys;
      ghost var before, live, done: set<Name> := nodes, factory.live, {};
      NothingShutDown(nodes, live);
      while pending != {}
        invariant Valid() && pending !! done && pending + done == before.Keys
        invariant ShutDown(before, nodes, done, ok)
        invariant ok ==> Gone(live, factory.live, before, done)
        invariant !factory.faulty ==> ok
        decreases |pending|
      {
        var id :| id in pending;
        OneMoreShutDown(before, nodes, done, ok, id);
        OneMoreGone(live, factory.live, before, done, id);
        pending, done := pending - {id}, done + {id};
        if nodes[id].runtime.None? { continue; }
        SameRuntime(nodes, before, id);
        var stopped := StopNode(id);
        ok := ok && stopped;
      }
      assert done == before.Keys;
      AllShutDown(before, nodes, done, ok);
      if ok { AllGone(live, factory.live, before); }
    }
  }

  // ---- shutting down ----

  /** Some of these nodes were stopped, and `ok` says that all of them are. */
  ghost predicate ShutDown(before: Table, now: Table, done: set<Name>, ok: bool) {
    && now.Keys == before.Keys && done <= now.Keys
    && (forall id :: id in now ==>
          now[id] == before[id] || (id in done && now[id] == before[id].(runtime := None)))
    && (ok <==> forall id :: id in done ==> now[id].runtime.None?)
  }

  /** The runtimes of these nodes are gone, and no other. */
  ghost predicate Gone(before: set<nat>, now: set<nat>, t: Table, done: set<Name>) {
    now == before - Runtimes(t, done)
  }

  lemma NothingShutDown(t: Table, live: set<nat>)
    ensures ShutDown(t, t, {}, true) && Gone(live, live, t, {})
  {
    NoRuntimes(t);
  }

  lemma OneMoreGone(before: set<nat>, now: set<nat>, t: Table, done: set<Name>, id: Name)
    ensures id in t && t[id].runtime.None? && Gone(before, now, t, done) ==> Gone(before, now, t, done + {id})
    ensures Gone(before, now, t, done) ==> Gone(before, now - Runtimes(t, {id}), t, done + {id})
  {
    MoreRuntimes(t, done, id);
    OwnRuntime(t, id);
    hide Runtimes;
  }

  lemma SameRuntime(t: Table, u: Table, id: Name)
    ensures id in t && id in u && t[id] == u[id] ==> Runtimes(t, {id}) == Runtimes(u, {id})
  {
    OwnRuntime(t, id);
    OwnRuntime(u, id);
    hide Runtimes;
  }

  lemma AllGone(before: set<nat>, now: set<nat>, t: Table)
    requires Gone(before, now, t, t.Keys)
    ensures now == before - Runtimes(t, t.Keys)
  {
  }

  lemma OneMoreShutDown(before: Table, now: Table, done: set<Name>, ok: bool, id: Name)
    requires ShutDown(before, now, done, ok) && id in before && id !in done
    ensures id in now && now[id] == before[id]
    ensures now[id].runtime.None? ==> ShutDown(before, now, done + {id}, ok)
    ensures now[id].runtime.Some? ==> ShutDown(before, now, done + {id}, false)
    ensures ShutDown(before, now[id := now[id].(runtime := None)], done + {id}, ok)
  {
  }

  lemma AllShutDown(before: Table, now: Table, done: set<Name>, ok: bool)
    requires ShutDown(before, now, done, ok) && done == before.Keys
    ensures now.Keys == before.Keys
    ensures forall id :: id in now ==> now[id] == before[id] || now[id] == before[id].(runtime := None)
    ensures ok <==> forall id :: id in now ==> now[id].runtime.None?
  {
  }

  // ---- restoring, as values ----

  function NodeIds(list: seq<Node>): (r: seq<Name>)
    ensures |r| == |list| && forall i :: 0 <= i < |r| ==> r[i] == list[i].config.id
  { seq(|list|, i requires 0 <= i < |list| => list[i].config.id) }

  ghost predicate StateOk(list: seq<Node>) {
    && (forall i :: 0 <= i < |list| ==>
                      NormalizeFolder(list[i].config.folder).Some? && ValidConfig(NormalForm(list[i].config)))
    && Distinct(NodeIds(list))
  }

  function Desired(list: seq<Node>): map<Name, Node> {
    if list == [] then map[]
    else
      var last := list[|list| - 1];
      Desired(list[..|list| - 1])[last.config.id := Node(NormalForm(last.config), last.running)]
  }

  lemma {:induction false} DesiredIsStored(list: seq<Node>)
    requires StateOk(list)
    ensures forall id :: id in Desired(list) ==> Desired(list)[id].config.id == id && Stored(Desired(list)[id].config)
  {
    hide NormalizeFolder, ValidConfig, Trim;
    if list != [] {
      var before, last := list[..|list| - 1], list[|list| - 1];
      assert NodeIds(before) == NodeIds(list)[..|list| - 1];
      DesiredIsStored(before);
      NormalizedFolderIsStable(last.config.folder);
    }
  }

  lemma AllStopped(desired: map<Name, Node>, serves: map<nat, Config>)
    requires forall id :: id in desired ==> desired[id].config.id == id && Stored(desired[id].config)
    ensures var t: Table := map id | id in desired :: Managed(desired[id].config, None);
      TableOk(t) && Attached(t, serves) && |t| == |desired|
  {
    hide Stored;
    var t: Table := map id | id in desired :: Managed(desired[id].config, None);
    assert t.Keys == desired.Keys;
  }

  /** The node got a runtime, or is as it was. */
  predicate StartedOr(before: Managed, after: Managed, started: bool) {
    if started then after.runtime.Some? && after.config == before.config.(port := after.config.port)
                    else after == before
  }

  /** Between rounds: `pending` are exactly the desired nodes that do not run yet. */
  ghost predicate TriedOn(patient: bool, desired: map<Name, Node>, t: Table, pending: seq<Name>, rounds: nat,
                          tries: multiset<Name>, wins: multiset<Name>) {
    && t.Keys == desired.Keys && Distinct(pending)
    && (forall id :: id in Elements(pending) ==> id in desired && desired[id].running)
    && (forall id :: id in desired ==>
          StartedOr(Managed(desired[id].config, None), t[id], desired[id].running && id !in Elements(pending)))
    && (forall id :: tries[id] <= if id in desired && desired[id].running then rounds else 0)
    && (forall id :: wins[id] == if id in desired && desired[id].running && id !in Elements(pending) then 1 else 0)
    && (patient ==> forall id :: id in Elements(pending) ==> tries[id] == rounds)
    && (forall id :: wins[id] <= tries[id])
  }

  /** What a restore leaves: each node that ought to run was started successfully at most once, in no
      more tries than configured, and runs exactly when a try succeeded; the others were left alone. Unless
      the call was cancelled, a node was given up only after all the tries. */
  ghost predicate Restored(patient: bool, desired: map<Name, Node>, t: Table, attempts: nat, tries: multiset<Name>,
                           wins: multiset<Name>) {
    && t.Keys == desired.Keys
    && (forall id :: id in desired ==> t[id].config == desired[id].config.(port := t[id].config.port))
    && (forall id :: id in desired && !desired[id].running ==> t[id].runtime.None? && tries[id] == 0)
    && (forall id :: tries[id] <= attempts && wins[id] <= 1)
    && (forall id :: id in desired ==> (t[id].runtime.Some? <==> wins[id] == 1))
    && (forall id :: wins[id] <= tries[id])
    && (patient ==> forall id :: id in desired && desired[id].running && wins[id] == 0 ==> tries[id] == attempts)
  }

  lemma PendingStart(patient: bool, desired: map<Name, Node>, t: Table, pending: seq<Name>)
    requires t == map id | id in desired :: Managed(desired[id].config, None)
    requires Ascending(NameLess, pending) && Lists(pending, set id | id in desired && desired[id].running)
    ensures TriedOn(patient, desired, t, pending, 0, multiset{}, multiset{})
  {
    hide NameLess;
    NamesAreOrdered();
  }

  lemma PendingAreStopped(patient: bool, desired: map<Name, Node>, t: Table, pending: seq<Name>, rounds: nat,
                          tries: multiset<Name>, wins: multiset<Name>)
    requires TriedOn(patient, desired, t, pending, rounds, tries, wins)
    ensures Distinct(pending) && forall id :: id in pending ==> id in t && t[id].runtime.None?
  {
    hide Distinct;
    forall id | id in pending ensures id in t && t[id].runtime.None? {
      assert id in Elements(pending);
    }
  }

  lemma TriedOnce(patient: bool, desired: map<Name, Node>, before: Table, after: Table, pending: seq<Name>,
                  retry: seq<Name>, rounds: nat,
                  tries: multiset<Name>, wins: multiset<Name>, tried: set<Name>, won: set<Name>)
    requires TriedOn(patient, desired, before, pending, rounds, tries, wins)
    requires Distinct(retry) && Round(patient, Elements(pending), Elements(retry), tried, won)
             && RoundStarted(before, after, won)
    ensures TriedOn(patient, desired, after, retry, rounds + 1, tries + multiset(tried), wins + multiset(won))
  {
    hide Distinct, Elements;
  }

  // ---- keeping count of a round ----

  /** Start was called for this node, at most so many times, and for no other. */
  ghost predicate CalledUpTo(before: multiset<Name>, after: multiset<Name>, id: Name, most: nat) {
    before[id] <= after[id] <= before[id] + most && after == before[id := after[id]]
  }

  ghost predicate Counted(before: multiset<Name>, after: multiset<Name>, more: multiset<Name>) {
    after == before + more
  }

  /** The runtimes of these nodes are what joined. */
  ghost predicate Ran(before: set<nat>, after: set<nat>, t: Table, ids: set<Name>) {
    after == before + Runtimes(t, ids)
  }

  /** Of the names done so far some are to be retried, the others were started; all of those were tried. */
  ghost predicate Round(patient: bool, done: set<Name>, retry: set<Name>, tried: set<Name>, won: set<Name>) {
    retry <= done && won == done - retry && won <= tried <= done && (patient ==> tried == done)
  }

  lemma NothingCounted(m: multiset<Name>)
    ensures Counted(m, m, multiset{})
  {
  }

  lemma CountedMeans(before: multiset<Name>, after: multiset<Name>, more: multiset<Name>)
    requires Counted(before, after, more)
    ensures after == before + more
  {
  }

  lemma CountedTwice(x: multiset<Name>, y: multiset<Name>, z: multiset<Name>, some: multiset<Name>,
                     more: multiset<Name>)
    requires Counted(x, y, some) && Counted(y, z, more)
    ensures Counted(x, z, some + more)
  {
  }

  lemma OneMoreCounted(x: multiset<Name>, y: multiset<Name>, z: multiset<Name>, names: set<Name>, id: Name)
    requires Counted(x, y, multiset(names)) && id !in names
    ensures z == y + multiset{id} ==> Counted(x, z, multiset(names + {id}))
  {
    assert multiset(names + {id}) == multiset(names) + multiset{id};
  }

  lemma NothingRan(live: set<nat>, t: Table)
    ensures Ran(live, live, t, {})
    ensures Runtimes(t, t.Keys) == {} ==> Ran(live, live, t, t.Keys)
  {
    NoRuntimes(t);
    hide Runtimes;
  }

  lemma RanMeans(before: set<nat>, after: set<nat>, t: Table, ids: set<Name>)
    requires Ran(before, after, t, ids)
    ensures after == before + Runtimes(t, ids)
  {
  }

  lemma OneMoreRan(x: set<nat>, y: set<nat>, z: set<nat>, t: Table, ids: set<Name>, id: Name, m: Managed)
    requires Ran(x, y, t, ids) && id !in ids
    ensures m.runtime.Some? && z == y + {m.runtime.value} ==> Ran(x, z, t[id := m], ids + {id})
  {
    if m.runtime.Some? { RuntimeGained(t, ids, id, m); }
    hide Runtimes;
  }

  lemma RanOn(x: set<nat>, y: set<nat>, z: set<nat>, before: Table, after: Table, pending: seq<Name>, won: set<Name>)
    requires Ran(x, y, before, before.Keys) && Ran(y, z, after, won)
    requires RoundStarted(before, after, won) && won <= Elements(pending)
    requires forall id :: id in pending ==> id in before && before[id].runtime.None?
    ensures Ran(x, z, after, after.Keys)
  {
    AllRuntimes(before, after, pending, won);
    hide Runtimes;
  }

  lemma NothingYet(patient: bool)
    ensures Round(patient, {}, {}, {}, {})
  {
  }

  lemma RoundMeans(patient: bool, done: set<Name>, retry: set<Name>, tried: set<Name>, won: set<Name>)
    requires Round(patient, done, retry, tried, won)
    ensures retry <= done && won == done - retry && won <= tried <= done && (patient ==> tried == done)
  {
  }

  lemma RoundStep(patient: bool, done: set<Name>, retry: set<Name>, tried: set<Name>, won: set<Name>, id: Name)
    requires Round(patient, done, retry, tried, won) && id !in done
    ensures id !in retry && id !in tried && id !in won
    ensures !patient ==> Round(patient, done + {id}, retry + {id}, tried, won)
    ensures Round(patient, done + {id}, retry + {id}, tried + {id}, won)
    ensures Round(patient, done + {id}, retry, tried + {id}, won + {id})
  {
  }

  /** These nodes got a runtime and the others are as they were. */
  ghost predicate RoundStarted(before: Table, after: Table, won: set<Name>) {
    after.Keys == before.Keys && forall id :: id in after ==> StartedOr(before[id], after[id], id in won)
  }

  lemma NothingStarted(t: Table)
    ensures RoundStarted(t, t, {})
  {
  }

  lemma NotStartedYet(before: Table, after: Table, won: set<Name>, id: Name)
    requires RoundStarted(before, after, won) && id in before && id !in won
    ensures id in after && after[id] == before[id]
  {
  }

  lemma OneMoreStarted(before: Table, middle: Table, after: Table, won: set<Name>, id: Name)
    requires RoundStarted(before, middle, won) && id in middle && id !in won && id in after
             && after == middle[id := after[id]]
    requires StartedOr(middle[id], after[id], true)
    ensures RoundStarted(before, after, won + {id})
  {
  }

  lemma NotListed(names: seq<Name>, id: Name)
    ensures id in names <==> id in Elements(names)
  {
  }

  lemma TriedToTheEnd(patient: bool, desired: map<Name, Node>, t: Table, pending: seq<Name>, rounds: nat,
                      attempts: nat, tries: multiset<Name>, wins: multiset<Name>)
    requires TriedOn(patient, desired, t, pending, rounds, tries, wins) && rounds <= attempts
    requires patient ==> pending == [] || rounds == attempts
    ensures Restored(patient, desired, t, attempts, tries, wins)
    ensures pending == [] <==> forall id :: id in desired && desired[id].running ==> t[id].runtime.Some?
  {
    hide Distinct;
    if pending != [] {
      assert pending[0] in Elements(pending);
    }
  }

  lemma OneFewer(t: Table, id: Name)
    requires id in t
    ensures |t - {id}| + 1 == |t|
  {
    assert t.Keys == (t - {id}).Keys + {id};
  }

  lemma HeldIfRunning(t: Table, serves: map<nat, Config>, id: Name)
    requires Attached(t, serves) && id in t
    ensures t[id].runtime.Some? ==>
              t[id].runtime.value in serves && SameSettings(serves[t[id].runtime.value], t[id].config)
  {
  }

  lemma FolderKeepsValid(c: Config, folder: string)
    requires Stored(c) && NormalizeFolder(folder) == Some(folder)
    ensures Stored(c.(folder := folder))
  {
    hide NormalizeFolder, Blank;
  }

  // ---- folders ----

  function InFolder(m: Managed, folder: string): Managed { m.(config := m.config.(folder := folder)) }

  function Renamed(t: Table, source: string, target: string): Table {
    map id | id in t :: if t[id].config.folder == source then InFolder(t[id], target) else t[id]
  }

  ghost predicate Uses(t: Table, folder: string) { exists id :: id in t && t[id].config.folder == folder }

  ghost predicate Renamable(t: Table, source: string, target: string) {
    && NormalizeFolder(source).Some? && Trim(source) != "" && NormalizeFolder(target).Some? && Trim(target) != ""
    && (Trim(source) != Trim(target) ==> !Uses(t, Trim(target))) && Uses(t, Trim(source))
  }

  lemma RenamedIsOk(t: Table, serves: map<nat, Config>, source: string, target: string)
    requires TableOk(t) && Attached(t, serves) && NormalizeFolder(target) == Some(target)
    ensures TableOk(Renamed(t, source, target)) && Attached(Renamed(t, source, target), serves)
            && |Renamed(t, source, target)| == |t|
  {
    hide Stored;
    var u := Renamed(t, source, target);
    assert u.Keys == t.Keys;
    forall id | id in u ensures u[id].config.id == id && Stored(u[id].config) && u[id].runtime == t[id].runtime {
      if t[id].config.folder == source { FolderKeepsValid(t[id].config, target); }
    }
  }

  /** Because the target was empty, renaming back is possible and restores the table exactly. */
  lemma RenameUndoes(t: Table, source: string, target: string)
    requires Renamable(t, source, target)
    ensures var u := Renamed(t, Trim(source), Trim(target));
      Renamable(u, target, source) && Renamed(u, Trim(target), Trim(source)) == t
  {
    hide NormalizeFolder, Trim;
    var from, to := Trim(source), Trim(target);
    var u := Renamed(t, from, to);
    var id :| id in t && t[id].config.folder == from;
    assert u[id].config.folder == to;
    assert forall j :: j in t && t[j].config.folder == to ==> from == to;
    assert Renamed(u, to, from) == t;
  }

  /** The runtimes of these nodes. */
  ghost function Runtimes(t: Table, ids: set<Name>): set<nat> {
    set id | id in ids && id in t && t[id].runtime.Some? :: t[id].runtime.value
  }

  lemma MoreRuntimes(t: Table, ids: set<Name>, id: Name)
    ensures Runtimes(t, ids + {id}) == Runtimes(t, ids) + Runtimes(t, {id})
  {
  }

  lemma NoRuntimes(t: Table)
    ensures Runtimes(t, {}) == {}
  {
  }

  lemma OwnRuntime(t: Table, id: Name)
    ensures Runtimes(t, {id}) == if id in t && t[id].runtime.Some? then {t[id].runtime.value} else {}
  {
  }

  lemma TailStep(ids: seq<Name>, i: nat)
    requires i < |ids|
    ensures Elements(ids[i..]) == Elements(ids[i + 1..]) + {ids[i]}
    ensures forall id :: id in ids[i..] <==> id == ids[i] || id in ids[i + 1..]
  {
    assert ids[i..] == [ids[i]] + ids[i + 1..];
  }

  lemma RemovedRuntimes(t: Table, middle: Table, live: set<nat>, gone: set<Name>, id: Name)
    ensures middle == t - gone ==>
              && middle - {id} == t - (gone + {id})
              && live - Runtimes(t, gone) - Runtimes(middle, {id}) == live - Runtimes(t, gone + {id})
  {
    if middle == t - gone {
      assert Runtimes(t, gone + {id}) == Runtimes(t, gone) + Runtimes(middle, {id}) by {
        if id in gone { assert gone + {id} == gone; }
        forall r | r in Runtimes(t, gone + {id}) ensures r in Runtimes(t, gone) + Runtimes(middle, {id}) {
          var j :| j in gone + {id} && j in t && t[j].runtime.Some? && t[j].runtime.value == r;
          if j in gone { assert r in Runtimes(t, gone); } else { assert j in middle; }
        }
      }
    }
  }

  /** The table has gained exactly these nodes, all running, with assigned ports. */
  ghost predicate Created(before: Table, after: Table, batch: seq<Config>) {
    && after.Keys == before.Keys + Elements(Ids(batch))
    && (forall id :: id in before ==> id in after && after[id] == before[id])
    && (forall i :: 0 <= i < |batch| ==>
          batch[i].id in after && after[batch[i].id].runtime.Some?
          && after[batch[i].id].config == batch[i].(port := after[batch[i].id].config.port))
  }

  lemma NothingCreated(t: Table, batch: seq<Config>)
    ensures Created(t, t, batch[..0]) && Runtimes(t, Elements(Ids(batch)[..0])) == {}
  {
    assert Ids(batch)[..0] == [] && Ids(batch[..0]) == [];
  }

  lemma IdsPrefix(batch: seq<Config>, i: nat)
    requires i <= |batch|
    ensures Ids(batch[..i]) == Ids(batch)[..i]
  {
  }

  lemma CreatedLeavesRoom(before: Table, after: Table, batch: seq<Config>, i: nat)
    requires i < |batch| && Distinct(Ids(batch)) && batch[i].id !in before && Created(before, after, batch[..i])
    ensures batch[i].id !in after
  {
    IdsPrefix(batch, i);
    ElementsStep(Ids(batch), i);
  }

  lemma CreatedIds(before: Table, after: Table, batch: seq<Config>, i: nat)
    requires i <= |batch| && Created(before, after, batch[..i])
    requires forall j :: 0 <= j < |batch| ==> batch[j].id !in before
    ensures after - Elements(Ids(batch)[..i]) == before
    ensures forall id :: id in before ==> id !in Ids(batch)[..i]
  {
    IdsPrefix(batch, i);
    forall id | id in Ids(batch)[..i] ensures id !in before {
      var j :| 0 <= j < i && Ids(batch)[j] == id;
    }
    assert after - Elements(Ids(batch)[..i]) == before;
  }

  lemma CreatedOneMore(before: Table, after: Table, batch: seq<Config>, i: nat, m: Managed)
    requires i < |batch| && Distinct(Ids(batch)) && batch[i].id !in after && Created(before, after, batch[..i])
    requires m.runtime.Some? && m.config == batch[i].(port := m.config.port)
    ensures var next := after[batch[i].id := m];
      && Created(before, next, batch[..i + 1])
      && Runtimes(next, Elements(Ids(batch)[..i + 1])) == Runtimes(after, Elements(Ids(batch)[..i])) + {m.runtime.value}
  {
    hide Distinct, Runtimes, Elements;
    IdsPrefix(batch, i);
    IdsPrefix(batch, i + 1);
    ElementsStep(Ids(batch), i);
    var next := after[batch[i].id := m];
    assert next.Keys == after.Keys + {batch[i].id};
    forall j | 0 <= j < i ensures batch[..i + 1][j].id in next && next[batch[j].id] == after[batch[j].id] {
      assert batch[..i][j] == batch[j];
    }
    OneMoreRuntime(after, Elements(Ids(batch)[..i]), batch[i].id, m);
  }

  lemma RuntimeGained(t: Table, ids: set<Name>, id: Name, m: Managed)
    requires id !in ids && m.runtime.Some?
    ensures Runtimes(t[id := m], ids + {id}) == Runtimes(t, ids) + {m.runtime.value}
  {
    var u := t[id := m];
    assert u[id] == m;
    assert forall j :: j in ids ==> (j in t <==> j in u) && (j in t ==> u[j] == t[j]);
  }

  lemma NoneRuns(t: Table, ids: set<Name>)
    requires forall id :: id in t ==> t[id].runtime.None?
    ensures Runtimes(t, ids) == {}
  {
  }

  /** The runtimes after a round are those before it and those of the nodes it started. */
  lemma AllRuntimes(before: Table, after: Table, pending: seq<Name>, won: set<Name>)
    requires after.Keys == before.Keys && won <= Elements(pending)
    requires forall id :: id in after ==> StartedOr(before[id], after[id], id in won)
    requires forall id :: id in pending ==> id in before && before[id].runtime.None?
    ensures Runtimes(after, after.Keys) == Runtimes(before, before.Keys) + Runtimes(after, won)
  {
    forall r | r in Runtimes(before, before.Keys) ensures r in Runtimes(after, after.Keys) {
      var id :| id in before && before[id].runtime.Some? && before[id].runtime.value == r;
      assert after[id] == before[id];
    }
  }

  lemma OneMoreRuntime(t: Table, ids: set<Name>, id: Name, m: Managed)
    requires id !in t && m.runtime.Some?
    ensures Runtimes(t[id := m], ids + {id}) == Runtimes(t, ids) + {m.runtime.value}
  {
    var u := t[id := m];
    forall r | r in Runtimes(t, ids) + {m.runtime.value} ensures r in Runtimes(u, ids + {id}) {
      if r == m.runtime.value {
        assert u[id] == m;
      } else {
        var j :| j in ids && j in t && t[j].runtime.Some? && t[j].runtime.value == r;
        assert u[j] == t[j];
      }
    }
  }

  lemma BatchFacts(configs: seq<Config>, confirmed: bool)
    requires BatchOk(configs, confirmed)
    ensures |configs| >= 1 && Distinct(Ids(NormalForms(configs)))
    ensures forall i :: 0 <= i < |configs| ==>
              Stored(NormalForms(configs)[i]) && NormalForms(configs)[i].id == configs[i].id
    ensures NormalForms(configs)[0].folder == Trim(configs[0].folder)
  {
    hide Trim, NormalizeFolder, Blank;
    assert Ids(NormalForms(configs)) == Ids(configs);
    forall i | 0 <= i < |configs| ensures Stored(NormalForms(configs)[i]) {
      assert MemberOk(configs[i], configs[0], confirmed);
      NormalizedFolderIsStable(configs[i].folder);
    }
  }

  // ---- batches as values ----

  function NormalForm(c: Config): Config { c.(folder := Trim(c.folder)) }

  function NormalForms(configs: seq<Config>): (r: seq<Config>)
    ensures |r| == |configs| && forall i :: 0 <= i < |r| ==> r[i] == NormalForm(configs[i])
  { seq(|configs|, i requires 0 <= i < |configs| => NormalForm(configs[i])) }

  function Ids(configs: seq<Config>): (r: seq<Name>)
    ensures |r| == |configs| && forall i :: 0 <= i < |r| ==> r[i] == configs[i].id
  { seq(|configs|, i requires 0 <= i < |configs| => configs[i].id) }

  function NamesOf(configs: seq<Config>): (r: seq<Name>)
    ensures |r| == |configs| && forall i :: 0 <= i < |r| ==> r[i] == configs[i].name
  { seq(|configs|, i requires 0 <= i < |configs| => configs[i].name) }

  ghost predicate PortsApart(configs: seq<Config>) {
    forall i, j :: 0 <= i < j < |configs| && configs[i].port != 0 ==> configs[i].port != configs[j].port
  }

  /** One member, next to the first one whose folder all share. */
  ghost predicate MemberOk(c: Config, first: Config, confirmed: bool) {
    && NormalizeFolder(c.folder).Some? && NormalizeFolder(c.folder).value != ""
    && NormalizeFolder(c.folder) == NormalizeFolder(first.folder) && Allowed(NormalForm(c), confirmed)
  }

  ghost predicate BatchOk(configs: seq<Config>, confirmed: bool) {
    && 1 <= |configs| <= MAX_BATCH_CREATE
    && (forall i :: 0 <= i < |configs| ==> MemberOk(configs[i], configs[0], confirmed))
    && Distinct(Ids(configs)) && Distinct(NamesOf(configs)) && PortsApart(configs)
  }

  /** What a configuration has to be, in its own terms: it is the one stored, with the space around the
      folder taken off. */
  lemma AllowedConfigs(c: Config, confirmed: bool)
    ensures NormalForm(c) == c.(folder := Trim(c.folder))
    ensures NormalizeFolder(c.folder).Some? && Allowed(NormalForm(c), confirmed) <==>
              && !Blank(c.id) && !Blank(c.name) && c.details.acceptable && (c.username != "" || confirmed)
              && |Trim(c.folder)| <= 64
              && forall x :: x in Trim(c.folder) ==> ' ' <= x && (x < '\U{007F}' || '\U{009F}' < x)
  {
    hide Trim, Blank;
    FolderNames(c.folder);
    TrimIsIdempotent(c.folder);
  }

  lemma EmptyParts(configs: seq<Config>)
    ensures Elements(Ids(configs)[..0]) == {} && Distinct(Ids(configs)[..0])
    ensures Elements(NamesOf(configs)[..0]) == {} && Distinct(NamesOf(configs)[..0])
  {
  }

  lemma WholeParts(configs: seq<Config>)
    ensures Ids(configs)[..|configs|] == Ids(configs) && NamesOf(configs)[..|configs|] == NamesOf(configs)
    ensures configs[..|configs|] == configs && NormalForms(configs)[..|configs|] == NormalForms(configs)
  {
  }

  lemma PortRepeats(configs: seq<Config>, i: nat)
    requires i < |configs| && configs[i].port != 0 && exists j :: 0 <= j < i && configs[j].port == configs[i].port
    ensures !PortsApart(configs)
  {
    var j :| 0 <= j < i && configs[j].port == configs[i].port;
  }

  lemma PortsStayApart(configs: seq<Config>, i: nat)
    requires i < |configs| && PortsApart(configs[..i])
    requires configs[i].port == 0 || forall j :: 0 <= j < i ==> configs[j].port != configs[i].port
    ensures PortsApart(configs[..i + 1])
  {
    var before, after := configs[..i], configs[..i + 1];
    forall j, k | 0 <= j < k < |after| && after[j].port != 0 ensures after[j].port != after[k].port {
      if k < i { assert before[j] == after[j] && before[k] == after[k]; }
    }
  }

  lemma StoredAtAnyPort(c: Config, port: nat)
    ensures Stored(c) <==> Stored(c.(port := port))
  {
  }
}
