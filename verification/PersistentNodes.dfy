/** `node.PersistentManager`: every change of the node table is saved, and compensated when it cannot be. */
module PersistentNodes {
  import opened Wrappers
  import opened FiniteSets
  import opened Names
  import opened Orders
  import opened NodeManager

  datatype Outcome =
    /** Saved; `clean` unless the previous runtime of an updated node could not be stopped. */
    | Done(clean: bool)
    /** Refused by the manager. `undone` is about the rollback of a batch. */
    | Rejected(error: NodeError, undone: bool)
    /** The save failed; `undone` when the compensating call succeeded. */
    | NotSaved(undone: bool)
    /** A node's dedicated pool could not be deleted, so the node was put back, stopped. */
    | PoolKept(restored: bool, resaved: bool)

  /** The nodes in the order of their identifiers, as the file lists them. */
  ghost function Listing(state: map<Name, Node>): (list: seq<Node>) {
    NamesAreOrdered();
    var ids := SortedKeys(NameLess, state.Keys);
    seq(|ids|, i requires 0 <= i < |ids| => state[ids[i]])
  }

  /** What a table holds: each node under its identifier, with normal settings. */
  ghost predicate Saveable(state: map<Name, Node>) {
    forall id :: id in state ==> state[id].config.id == id && Stored(state[id].config)
  }

  /** Only this node may differ. */
  ghost predicate ChangedOnly(before: Table, after: Table, id: Name) {
    id in after && after == before[id := after[id]]
  }

  method ListNodes(state: map<Name, Node>) returns (list: seq<Node>)
    ensures list == Listing(state)
  {
    hide NameLess, SortedKeys;
    NamesAreOrdered();
    var ids := Sort(NameLess, state.Keys);
    list := [];
    for i := 0 to |ids|
      invariant |list| == i && forall j :: 0 <= j < i ==> list[j] == state[ids[j]]
    {
      list := list + [state[ids[i]]];
    }
  }

  class PersistentManager {
    const manager: Manager
    const faulty: bool
    /** The node state file: whatever it was at the start, and what was saved since. */
    var saved: Option<seq<Node>>
    var restored: bool

    ghost predicate Valid()
      reads this, manager, manager.factory
    {
      manager.Valid()
    }

    /** The file says what the table holds. */
    ghost predicate InSync()
      reads this, manager
    {
      saved == Some(Listing(Snapshot(manager.nodes)))
    }

    constructor (manager: Manager, faulty: bool, file: Option<seq<Node>>)
      requires manager.Valid()
      ensures Valid() && this.manager == manager && this.faulty == faulty && saved == file && !restored
    {
      this.manager, this.faulty, saved, restored := manager, faulty, file, false;
    }

    /** The list is checked as on a load; what a table holds always passes. */
    method Save(state: map<Name, Node>) returns (ok: bool)
      modifies this`saved
      ensures saved == if ok then Some(Listing(state)) else old(saved)
      ensures !faulty && Saveable(state) ==> ok
    {
      hide Saveable, StateOk, Listing, Desired;
      var list := ListNodes(state);
      if Saveable(state) { ListingReadsBack(state); }
      var normalized := Manager.NormalizeState(list);
      if normalized.Err? { return false; }
      var failed: bool := *;
      if faulty && failed { return false; }
      saved := Some(list);
      return true;
    }

    /** The table as it is now. */
    method SaveTable() returns (ok: bool)
      requires Valid()
      modifies this`saved
      ensures ok ==> InSync()
      ensures !ok ==> saved == old(saved)
      ensures !faulty ==> ok
    {
      hide Stored, Attached, Listing;
      ok := Save(Snapshot(manager.nodes));
    }

    method Create(config: Config, confirmed: bool) returns (r: Outcome)
      requires Valid()
      modifies this`saved, manager`nodes, manager.factory
      ensures Valid() && (r.Done? || r.Rejected? || r.NotSaved?)
      ensures r.Done? ==> InSync() && config.id !in old(manager.nodes)
                          && ChangedOnly(old(manager.nodes), manager.nodes, config.id)
      ensures r.Done? ==>
                manager.nodes[config.id].config == NormalForm(config).(port := manager.nodes[config.id].config.port)
      ensures r.Done? ==> manager.nodes[config.id].runtime.Some?
      ensures r.NotSaved? && !manager.factory.faulty ==> r.undone
      ensures !r.Done? ==> saved == old(saved)
      ensures r.Rejected? || r == NotSaved(true) ==>
                manager.nodes == old(manager.nodes) && manager.factory.live == old(manager.factory.live)
      ensures r.Done? ==>
                manager.factory.live == old(manager.factory.live) + {manager.nodes[config.id].runtime.value}
      ensures !faulty && !manager.factory.faulty ==>
                (r.Done? <==>
                  && NormalizeFolder(config.folder).Some? && Allowed(NormalForm(config), confirmed)
                  && config.id !in old(manager.nodes) && |old(manager.nodes)| < manager.maxNodes)
      ensures !faulty ==> !r.NotSaved?
    {
      hide TableOk, Attached, Stored;
      var created := manager.Create(config, confirmed);
      if created.Err? { return Rejected(created.error, true); }
      ghost var middle := manager.nodes;
      var ok := SaveTable();
      if ok { return Done(true); }
      OwnRuntime(manager.nodes, config.id);
      var undo := manager.Delete(config.id);
      UpdateThenRemove(old(manager.nodes), config.id, middle[config.id]);
      assert old(manager.nodes) - {config.id} == old(manager.nodes);
      return NotSaved(undo.Ok?);
    }

    method CreateBatch(configs: seq<Config>, confirmed: bool, cancelled: bool) returns (r: Outcome)
      requires Valid()
      modifies this`saved, manager`nodes, manager.factory
      ensures Valid() && (r.Done? || r.Rejected? || r.NotSaved?)
      ensures r.Done? ==> InSync() && BatchOk(configs, confirmed)
                          && Created(old(manager.nodes), manager.nodes, NormalForms(configs))
      ensures !r.Done? ==> saved == old(saved)
      ensures !r.Done? && r.undone ==> manager.nodes == old(manager.nodes)
      ensures !r.Done? && !manager.factory.faulty ==> r.undone
      ensures r.Done? ==>
                manager.factory.live == old(manager.factory.live) + Runtimes(manager.nodes, Elements(Ids(configs)))
      ensures !r.Done? && r.undone ==> manager.factory.live == old(manager.factory.live)
      ensures !faulty && !manager.factory.faulty ==>
                (r.Done? <==>
                  && !cancelled && BatchOk(configs, confirmed)
                  && |old(manager.nodes)| + |configs| <= manager.maxNodes
                  && (forall id :: id in old(manager.nodes) ==>
                                     old(manager.nodes)[id].config.folder != Trim(configs[0].folder))
                  && (forall i :: 0 <= i < |configs| ==> configs[i].id !in old(manager.nodes)))
      ensures !faulty ==> !r.NotSaved?
    {
      hide TableOk, Attached, Stored, BatchOk, Created, Runtimes, Elements, Trim;
      var created, undone := manager.CreateBatch(configs, confirmed, cancelled);
      if created.Err? { return Rejected(created.error, undone); }
      var ok := SaveTable();
      if ok { return Done(true); }
      BatchCanGo(old(manager.nodes), manager.nodes, configs);
      var undo := manager.RollbackBatch(Ids(configs));
      return NotSaved(undo);
    }

    method Update(id: Name, config: Config, confirmed: bool) returns (r: Outcome)
      requires Valid()
      modifies this`saved, manager`nodes, manager.factory
      ensures Valid() && (r.Done? || r.Rejected? || r.NotSaved?)
      ensures r.Done? ==> InSync() && id in old(manager.nodes) && ChangedOnly(old(manager.nodes), manager.nodes, id)
      ensures r.Done? ==> manager.nodes[id].config == NormalForm(config).(port := manager.nodes[id].config.port)
      ensures r.Done? ==> (manager.nodes[id].runtime.Some? <==> old(manager.nodes)[id].runtime.Some?)
      ensures !r.Done? ==> saved == old(saved)
      ensures r.Rejected? ==> manager.nodes == old(manager.nodes)
      ensures r == NotSaved(true) ==> SameUpToPort(manager.nodes, old(manager.nodes))
      ensures r.NotSaved? && id in old(manager.nodes) && old(manager.nodes)[id].runtime.None? ==>
                r.undone && manager.nodes == old(manager.nodes)
      ensures r.NotSaved? && !manager.factory.faulty ==> r.undone
      ensures r == Done(true) ==>
                manager.factory.live
                == old(manager.factory.live - Runtimes(manager.nodes, {id})) + Runtimes(manager.nodes, {id})
      ensures !faulty && !manager.factory.faulty ==>
                (r.Done? <==> id in old(manager.nodes) && config.id == id && NormalizeFolder(config.folder).Some?
                              && Allowed(NormalForm(config), confirmed))
      ensures !faulty ==> !r.NotSaved?
    {
      hide TableOk, Attached, ValidConfig, NormalizeFolder, Trim;
      if id !in manager.nodes { return Rejected(NodeMissing, true); }
      var before := manager.nodes[id].config;
      HeldConfig(manager.nodes, id);
      StoredIsNormal(before);
      var updated := manager.Update(id, config, confirmed);
      if updated.Err? && updated.error != PreviousCleanupFailed { return Rejected(updated.error, true); }
      ghost var middle := manager.nodes;
      var ok := SaveTable();
      if ok { return Done(updated.Ok?); }
      var undo := manager.Update(id, before, before.username == "");
      BackAgain(old(manager.nodes), middle, manager.nodes, id);
      return NotSaved(undo.Ok?);
    }

    /** The save failing after an idempotent start of a node that was already running makes the
        compensation stop it: the table is as before exactly when the node was stopped before. */
    method Start(id: Name, patient: bool) returns (r: Outcome)
      requires Valid()
      modifies this`saved, manager`nodes, manager.factory
      ensures Valid() && (r.Done? || r.Rejected? || r.NotSaved?)
      ensures r.Done? ==> InSync() && id in old(manager.nodes) && ChangedOnly(old(manager.nodes), manager.nodes, id)
      ensures r.Done? ==> StartedOr(old(manager.nodes)[id], manager.nodes[id], true)
      ensures !r.Done? ==> saved == old(saved)
      ensures r.Rejected? ==> manager.nodes == old(manager.nodes)
      ensures r == NotSaved(true) ==>
                id in old(manager.nodes) && (SameUpToPort(manager.nodes, old(manager.nodes)) <==>
                                               old(manager.nodes)[id].runtime.None?)
      ensures r.NotSaved? && !manager.factory.faulty ==> r.undone
      ensures r.Done? ==> manager.factory.live == old(manager.factory.live) + Runtimes(manager.nodes, {id})
      ensures !faulty && !manager.factory.faulty && patient ==> (r.Done? <==> id in old(manager.nodes))
      ensures !faulty ==> !r.NotSaved?
    {
      hide TableOk, Attached, Stored, SameUpToPort, Runtimes;
      var started := manager.Start(id, patient);
      if started.Err? { return Rejected(started.error, true); }
      ghost var middle := manager.nodes;
      var ok := SaveTable();
      if ok { return Done(true); }
      var undo := manager.Stop(id);
      if undo.Ok? { ChangedOnce(old(manager.nodes), middle, manager.nodes, id); }
      return NotSaved(undo.Ok?);
    }

    method Stop(id: Name, patient: bool) returns (r: Outcome)
      requires Valid()
      modifies this`saved, manager`nodes, manager.factory
      ensures Valid() && (r.Done? || r.Rejected? || r.NotSaved?)
      ensures r.Done? ==>
                InSync() && id in old(manager.nodes)
                && manager.nodes == old(manager.nodes)[id := old(manager.nodes)[id].(runtime := None)]
      ensures !r.Done? ==> saved == old(saved)
      ensures r.Rejected? ==> manager.nodes == old(manager.nodes)
      ensures r == NotSaved(true) ==> SameUpToPort(manager.nodes, old(manager.nodes))
      ensures r.NotSaved? && !manager.factory.faulty && patient ==> r.undone
      ensures r.Done? ==> manager.factory.live == old(manager.factory.live - Runtimes(manager.nodes, {id}))
      ensures !faulty && !manager.factory.faulty ==> (r.Done? <==> id in old(manager.nodes))
      ensures !faulty ==> !r.NotSaved?
    {
      hide TableOk, Attached, Stored, SameUpToPort, Runtimes;
      if id !in manager.nodes { return Rejected(NodeMissing, true); }
      var wasRunning := manager.nodes[id].runtime.Some?;
      var stopped := manager.Stop(id);
      if stopped.Err? { return Rejected(stopped.error, true); }
      ghost var middle := manager.nodes;
      var ok := SaveTable();
      if ok { return Done(true); }
      if !wasRunning {
        ChangedOnce(old(manager.nodes), middle, manager.nodes, id);
        return NotSaved(true);
      }
      var undo := manager.Start(id, patient);
      if undo.Ok? { ChangedOnce(old(manager.nodes), middle, manager.nodes, id); }
      return NotSaved(undo.Ok?);
    }

    method MoveToFolder(id: Name, folder: string, cancelled: bool) returns (r: Outcome)
      requires Valid()
      modifies this`saved, manager`nodes
      ensures Valid() && (r.Done? || r.Rejected? || r == NotSaved(true))
      ensures r.Done? ==>
                InSync() && id in old(manager.nodes)
                && manager.nodes == old(manager.nodes)[id := InFolder(old(manager.nodes)[id], Trim(folder))]
      ensures !r.Done? ==> saved == old(saved) && manager.nodes == old(manager.nodes)
      ensures !faulty ==>
                (r.Done? <==> !cancelled && NormalizeFolder(folder).Some? && id in old(manager.nodes))
      ensures !faulty ==> !r.NotSaved?
    {
      hide TableOk, Attached, ValidConfig, NormalizeFolder, Trim;
      if id !in manager.nodes { return Rejected(NodeMissing, true); }
      var before := manager.nodes[id].config;
      HeldConfig(manager.nodes, id);
      StoredIsNormal(before);
      var moved := manager.MoveToFolder(id, folder, cancelled);
      if moved.Err? { return Rejected(moved.error, true); }
      var ok := SaveTable();
      if ok { return Done(true); }
      var undo := manager.MoveToFolder(id, before.folder, false);
      assert manager.nodes == old(manager.nodes);
      return NotSaved(undo.Ok?);
    }

    /** The compensating rename always succeeds and is exact, because the target was empty. */
    method RenameFolder(source: string, target: string, cancelled: bool) returns (r: Outcome)
      requires Valid()
      modifies this`saved, manager`nodes
      ensures Valid() && (r.Done? || r.Rejected? || r == NotSaved(true))
      ensures r.Done? ==> InSync() && manager.nodes == Renamed(old(manager.nodes), Trim(source), Trim(target))
      ensures !r.Done? ==> saved == old(saved) && manager.nodes == old(manager.nodes)
      ensures !faulty ==> (r.Done? <==> !cancelled && Renamable(old(manager.nodes), source, target))
      ensures !faulty ==> !r.NotSaved?
    {
      hide TableOk, Attached, Stored, Renamable, Renamed, Trim;
      var renamed := manager.RenameFolder(source, target, cancelled);
      if renamed.Err? { return Rejected(renamed.error, true); }
      var ok := SaveTable();
      if ok { return Done(true); }
      RenameUndoes(old(manager.nodes), source, target);
      var undo := manager.RenameFolder(target, source, false);
      return NotSaved(undo.Ok?);
    }

    method Delete(id: Name) returns (r: Outcome)
      requires Valid()
      modifies this`saved, manager`nodes, manager.factory
      ensures Valid()
      ensures r.Done? ==> InSync() && manager.nodes == old(manager.nodes) - {id}
      ensures r.Rejected? ==> manager.nodes == old(manager.nodes) && saved == old(saved)
      ensures r.NotSaved? ==> saved == old(saved)
      ensures r == NotSaved(true) ==> SameUpToPort(manager.nodes, old(manager.nodes))
      ensures r.PoolKept? && r.restored ==>
                id in old(manager.nodes) && manager.nodes
                == old(manager.nodes)[id := Managed(old(manager.nodes)[id].config, None)]
      ensures r.PoolKept? ==> (r.resaved ==> InSync()) && (!faulty && r.restored ==> r.resaved)
      ensures r.NotSaved? && !manager.factory.faulty ==> r.undone
      ensures r.Done? ==> id in old(manager.nodes)
                          && manager.factory.live == old(manager.factory.live - Runtimes(manager.nodes, {id}))
      ensures manager.factory.deletedPools
              == old(manager.factory.deletedPools)
                 + if r.Done? then manager.OwnPool(old(manager.nodes)[id].config) else multiset{}
      ensures !faulty && !manager.factory.faulty ==> (r.Done? <==> id in old(manager.nodes))
      ensures !faulty ==> !r.NotSaved?
    {
      hide TableOk, Attached, Stored, SameUpToPort, Snapshot, Runtimes, Manager.OwnPool, Listing;
      if id !in manager.nodes { return Rejected(NodeMissing, true); }
      HeldConfig(manager.nodes, id);
      var before := Node(manager.nodes[id].config, manager.nodes[id].runtime.Some?);
      var detached := manager.Detach(id);
      if detached.Err? { return Rejected(detached.error, true); }
      var ok := SaveTable();
      if !ok {
        var undone := Reattach(old(manager.nodes), before);
        return NotSaved(undone);
      }
      var cleaned := manager.CleanupDedicatedPool(before.config);
      if cleaned { return Done(true); }
      var restored := Reattach(old(manager.nodes), before.(running := false));
      if !restored { return PoolKept(false, false); }
      ok := SaveTable();
      return PoolKept(true, ok);
    }

    /** Puts a detached node back, running or stopped. */
    method Reattach(ghost t: Table, node: Node) returns (ok: bool)
      requires Valid() && Stored(node.config) && node.config.id in t && node.config == t[node.config.id].config
      requires manager.nodes == t - {node.config.id} && |manager.nodes| + 1 <= manager.maxNodes
      modifies manager`nodes, manager.factory
      ensures Valid() && manager.factory.deletedPools == old(manager.factory.deletedPools)
      ensures !ok ==> manager.nodes == old(manager.nodes) && manager.factory.live == old(manager.factory.live)
      ensures ok && (node.running <==> t[node.config.id].runtime.Some?) ==> SameUpToPort(manager.nodes, t)
      ensures ok && !node.running ==>
                manager.nodes == t[node.config.id := Managed(node.config, None)]
                && manager.factory.live == old(manager.factory.live)
      ensures !manager.factory.faulty ==> ok
    {
      hide TableOk, Attached, Stored, SameUpToPort;
      var undo := manager.RestoreNode(node);
      if undo.Ok? {
        PutBack(t, manager.nodes, node.config.id);
        OwnRuntime(manager.nodes, node.config.id);
      }
      return undo.Ok?;
    }

    /** The nodes the file lists; none without a file. */
    function FileNodes(): seq<Node>
      reads this
    {
      if saved.Some? then saved.value else []
    }

    /** A restore that could not read the file (`!read`), or failed before any node was taken over, may be
        tried again; any other counts as the one restore. */
    method Restore(patient: bool)
      returns (r: Result<(), NodeError>, read: bool, ghost tries: multiset<Name>, ghost wins: multiset<Name>)
      requires Valid()
      modifies this`restored, manager`nodes, manager.factory
      ensures Valid()
      ensures !faulty && !old(restored) ==> read
      ensures old(restored) || !read ==>
                r.Err? && restored == old(restored) && manager.nodes == old(manager.nodes)
                && manager.factory.live == old(manager.factory.live)
      ensures !old(restored) && read ==> (restored <==> r.Ok? || manager.nodes != map[] || FileNodes() == [])
      ensures !old(restored) && read && StateOk(FileNodes()) && |Desired(FileNodes())| <= manager.maxNodes
              && old(manager.nodes) == map[] ==>
                && Restored(patient, Desired(FileNodes()), manager.nodes, manager.attempts, tries, wins)
                && manager.factory.calls == old(manager.factory.calls) + tries
                && manager.factory.wins == old(manager.factory.wins) + wins
                && (r.Ok? <==> forall id :: id in Desired(FileNodes()) && Desired(FileNodes())[id].running ==>
                                              manager.nodes[id].runtime.Some?)
    {
      hide TableOk, Attached, Stored, StateOk, Desired, Restored;
      tries, wins := multiset{}, multiset{};
      if restored { return Err(NotEmpty), false, tries, wins; }
      var unreadable: bool := *;
      if faulty && unreadable { return Err(StateUnreadable), false, tries, wins; }
      var state := FileNodes();
      r, tries, wins := manager.Restore(state, patient);
      if r.Ok? || manager.nodes != map[] || state == [] { restored := true; }
      return r, true, tries, wins;
    }

    /** The state is saved as it was before the nodes were stopped, so a restart starts them again. */
    method Shutdown() returns (stopped: bool, ok: bool)
      requires Valid()
      modifies this`saved, manager`nodes, manager.factory`live, manager.factory`serves
      ensures Valid() && (ok ==> saved == Some(Listing(Snapshot(old(manager.nodes))))) && (!ok ==> saved == old(saved))
      ensures stopped <==> forall id :: id in manager.nodes ==> manager.nodes[id].runtime.None?
    {
      hide TableOk, Attached, Stored;
      var desired := Snapshot(manager.nodes);
      stopped := manager.Shutdown();
      ok := Save(desired);
    }
  }

  // ---- lemmas ----

  lemma StoredIsNormal(c: Config)
    requires Stored(c)
    ensures NormalForm(c) == c && NormalizeFolder(c.folder) == Some(c.folder) && Trim(c.folder) == c.folder
            && ValidConfig(c)
  {
    hide ValidConfig, Trim;
  }

  /** Two updates of one node, the second back to the first settings, change at most its port. */
  lemma BackAgain(x: Table, y: Table, z: Table, id: Name)
    requires id in x && id in y && y == x[id := y[id]] && (y[id].runtime.Some? <==> x[id].runtime.Some?)
    ensures (id in z && z == y[id := z[id]] && (z[id].runtime.Some? <==> y[id].runtime.Some?)
             && z[id].config == x[id].config.(port := z[id].config.port)) ==>
              SameUpToPort(z, x) && (x[id].runtime.None? && z[id].config == x[id].config ==> z == x)
  {
  }

  /** Two changes of one node that leave its settings, up to the port. */
  lemma ChangedOnce(x: Table, y: Table, z: Table, id: Name)
    requires id in x && id in y && id in z && y == x[id := y[id]] && z == y[id := z[id]]
    requires z[id].config == x[id].config.(port := z[id].config.port)
    ensures SameUpToPort(z, x) <==> (z[id].runtime.Some? <==> x[id].runtime.Some?)
  {
    assert z.Keys == x.Keys;
    assert forall j :: j in x && j != id ==> z[j] == x[j];
  }

  /** Why `Start` is special: for a node that was running all along, start and compensating stop
      together do not give the table back. */
  lemma StartThenStopLosesRunningNode(t: Table, id: Name)
    requires id in t && t[id].runtime.Some?
    ensures !SameUpToPort(t[id := t[id].(runtime := None)], t)
  {
    assert id in t[id := t[id].(runtime := None)];
  }

  /** A node taken out and put back. */
  lemma PutBack(t: Table, u: Table, id: Name)
    requires id in t && id in u && u == (t - {id})[id := u[id]]
             && u[id].config == t[id].config.(port := u[id].config.port)
    ensures (u[id].runtime.Some? <==> t[id].runtime.Some?) ==> SameUpToPort(u, t)
    ensures u[id].runtime.None? && u[id].config == t[id].config ==> u == t[id := Managed(t[id].config, None)]
  {
    assert u.Keys == t.Keys;
    assert forall j :: j in t && j != id ==> u[j] == t[j];
    assert u[id].runtime.None? && u[id].config == t[id].config ==> u[id] == Managed(t[id].config, None);
  }

  lemma BatchCanGo(before: Table, after: Table, configs: seq<Config>)
    requires Created(before, after, NormalForms(configs))
    requires forall i :: 0 <= i < |configs| ==> configs[i].id !in before
    ensures after - Elements(Ids(configs)) == before
  {
    assert Ids(NormalForms(configs)) == Ids(configs);
    forall id | id in Elements(Ids(configs)) ensures id !in before {
      var i :| 0 <= i < |configs| && Ids(configs)[i] == id;
    }
  }

  // ---- the file read back ----

  lemma {:induction false} DesiredIsIndexed(list: seq<Node>)
    requires Distinct(NodeIds(list)) && forall i :: 0 <= i < |list| ==> Stored(list[i].config)
    ensures forall i :: 0 <= i < |list| ==>
              list[i].config.id in Desired(list) && Desired(list)[list[i].config.id] == list[i]
    ensures forall id :: id in Desired(list) ==> exists i :: 0 <= i < |list| && list[i].config.id == id
  {
    hide Stored;
    if list != [] {
      var before, last := list[..|list| - 1], list[|list| - 1];
      assert NodeIds(before) == NodeIds(list)[..|list| - 1];
      DesiredIsIndexed(before);
      StoredIsNormal(last.config);
      forall i | 0 <= i < |list| - 1
        ensures list[i].config.id in Desired(list) && Desired(list)[list[i].config.id] == list[i]
      {
        assert before[i] == list[i] && NodeIds(list)[i] != NodeIds(list)[|list| - 1];
      }
      forall id | id in Desired(list) ensures exists i :: 0 <= i < |list| && list[i].config.id == id {
        if id == last.config.id {
          assert list[|list| - 1].config.id == id;
        } else {
          var i :| 0 <= i < |before| && before[i].config.id == id;
          assert list[i].config.id == id;
        }
      }
    }
  }

  lemma ListingLists(state: map<Name, Node>)
    requires Saveable(state)
    ensures var list := Listing(state);
      && (forall i :: 0 <= i < |list| ==> list[i].config.id in state && state[list[i].config.id] == list[i])
      && (forall id :: id in state ==> exists i :: 0 <= i < |list| && list[i].config.id == id)
      && Distinct(NodeIds(list))
  {
    hide Stored, NameLess, SortedKeys;
    NamesAreOrdered();
    var ids, list := SortedKeys(NameLess, state.Keys), Listing(state);
    forall id | id in state ensures exists i :: 0 <= i < |list| && list[i].config.id == id {
      var i :| 0 <= i < |ids| && ids[i] == id;
      assert list[i].config.id == id;
    }
  }

  /** What a table holds passes the checks of a load and is read back as it was. */
  lemma ListingReadsBack(state: map<Name, Node>)
    requires Saveable(state)
    ensures StateOk(Listing(state)) && Desired(Listing(state)) == state
  {
    hide Stored, Listing, Desired, ValidConfig, NormalizeFolder, NormalForm, Distinct, NodeIds;
    ListingLists(state);
    var list := Listing(state);
    forall i | 0 <= i < |list|
      ensures Stored(list[i].config) && NormalizeFolder(list[i].config.folder).Some?
              && ValidConfig(NormalForm(list[i].config))
    {
      StoredIsNormal(list[i].config);
    }
    DesiredIsIndexed(list);
    forall id | id in state ensures id in Desired(list) && Desired(list)[id] == state[id] {
      var i :| 0 <= i < |list| && list[i].config.id == id;
    }
    forall id | id in Desired(list) ensures id in state {
      var i :| 0 <= i < |list| && list[i].config.id == id;
    }
  }

  lemma RestoredIsSame(patient: bool, t: Table, u: Table, attempts: nat, tries: multiset<Name>, wins: multiset<Name>)
    requires Restored(patient, Snapshot(t), u, attempts, tries, wins)
    requires forall id :: id in Snapshot(t) && Snapshot(t)[id].running ==> u[id].runtime.Some?
    ensures SameUpToPort(u, t)
  {
  }

  /** A restart from the saved file that brings every node up again leaves the table as it was, up to
      ports. */
  lemma RestartKeepsTable(patient: bool, t: Table, u: Table, attempts: nat, tries: multiset<Name>, wins: multiset<Name>)
    requires TableOk(t)
    requires Restored(patient, Desired(Listing(Snapshot(t))), u, attempts, tries, wins)
    requires forall id :: id in t && t[id].runtime.Some? ==> id in u && u[id].runtime.Some?
    ensures StateOk(Listing(Snapshot(t))) && SameUpToPort(u, t)
  {
    hide Stored, Listing, Desired, StateOk, Restored, SameUpToPort;
    ListingReadsBack(Snapshot(t));
    RestoredIsSame(patient, t, u, attempts, tries, wins);
  }
}
