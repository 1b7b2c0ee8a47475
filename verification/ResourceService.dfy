/** `admin.ResourceCoordinator`: one store change becomes one transaction over the store, the
    host, the node runtime and the state file, with compensation when a later step fails.

    The state file, the runtime and the connection terminator are outside: each call succeeds or
    fails; the file changes only when its save succeeds, and after a failed synchronisation it is
    unknown what the runtime serves. */
module ResourceService {
  import opened Wrappers
  import opened FiniteSets
  import opened Names
  import opened Prefixes
  import opened Walk
  import opened DrainIds
  import opened StoreModel
  import opened StateDocument
  import opened StateLoader
  import opened StoreRuns
  import opened DesiredNetwork
  import opened ServiceSteps
  import opened ServiceDrains
  import opened RandomAddresses
  import Store
  import H = Host
  import N = NetworkManager

  datatype Outcome' =
    | Committed
    /** A success without anything to change. */
    | NothingToDo
    /** Refused before anything outside the candidate was touched. */
    | NotWritable | CloneFailed | Refused(error: StoreError) | NoAddress | NotTerminated | BlankPool
    /** A later step failed; what the compensating calls reported. */
    | Compensated(runtimeRestored: bool, networkRestored: bool)

  datatype Termination = Termination(pool: Name, batch: string, kind: PoolKind, addresses: seq<Address>)

  /** What reading the state file gives. */
  datatype StateFile = Unreadable | Missing | Found(document: Document)

  datatype Service = WritableCheck | Terminate | RuntimeSync | StateSave

  /** A call outside, and whether it succeeded. */
  datatype Asked = Asked(service: Service, ok: bool)

  /** These calls were made meanwhile, in this order. */
  ghost predicate Made(before: seq<Asked>, calls: seq<Asked>, after: seq<Asked>) { after == before + calls }

  lemma MadeBoth(a: seq<Asked>, x: seq<Asked>, b: seq<Asked>, y: seq<Asked>, c: seq<Asked>)
    requires Made(a, x, b) && Made(b, y, c)
    ensures Made(a, x + y, c)
  {
  }

  class ResourceCoordinator {
    var store: Store.Store
    var file: Option<Document>
    /** What the runtime serves; `None` when unknown. */
    var serving: Option<Document>
    var terminated: seq<Termination>
    /** Every call outside with its answer, except those to the host. */
    ghost var asked: seq<Asked>
    const hasRuntime: bool
    const faulty: bool
    const network: N.ResourceManager

    /** The state on disk is the state in memory, and a restart accepts it exactly when it is valid. */
    ghost predicate Consistent()
      reads this`store, this`file, store
    {
      && Servable(store.View())
      && (file.Some? ==> Loaded(file.value) == store.View() && (Accepted(file.value) <==> Valid(store.View())))
    }

    /** The ownership accounting of the host holds so far. */
    ghost predicate Accounted()
      reads network.host
    {
      network.host.Sound()
    }

    /** The host realises this store's network. */
    ghost predicate OnHost(s: StoreState)
      reads network.host
    {
      N.Realises(network.host.State(), NetworkAddresses(s), NetworkRoutes(s))
    }

    ghost predicate Served(s: StoreState)
      reads this`serving
    {
      hasRuntime ==> serving.Some? && Loaded(serving.value) == s
    }

    /** Memory, disk, runtime and host all describe the same store. */
    ghost predicate InStep()
      reads this`store, this`file, this`serving, store, network.host
    {
      Consistent() && OnHost(store.View()) && Served(store.View())
    }

    /** No call fails and no outsider acts. */
    predicate Calm() { !faulty && !network.host.faulty && !network.host.crowded }

    constructor (store: Store.Store, hasRuntime: bool, faulty: bool, network: N.ResourceManager)
      requires Servable(store.View())
      ensures this.store == store && this.hasRuntime == hasRuntime && this.faulty == faulty && this.network == network
      ensures file == None && serving == None && Consistent()
    {
      this.store, this.hasRuntime, this.faulty, this.network := store, hasRuntime, faulty, network;
      file, serving, terminated, asked := None, None, [], [];
    }

    // ---- the world outside ----

    method Ask(service: Service) returns (ok: bool)
      modifies this`asked
      ensures !faulty ==> ok
      ensures Made(old(asked), [Asked(service, ok)], asked)
    {
      var failed: bool := *;
      ok := !(faulty && failed);
      asked := asked + [Asked(service, ok)];
    }

    /** The calls of a successful commit. */
    ghost function CommitCalls(): seq<Asked> {
      (if hasRuntime then [Asked(RuntimeSync, true)] else []) + [Asked(StateSave, true)]
    }

    /** What the entropy source answers to the attempts at a random address. */
    method Draws() returns (answers: seq<Option<Address>>)
      ensures |answers| == RANDOM_ADDRESS_ATTEMPTS && (!faulty ==> None !in answers)
    {
      answers := [];
      for i := 0 to RANDOM_ADDRESS_ATTEMPTS
        invariant |answers| == i && (!faulty ==> None !in answers)
      {
        var failed: bool := *;
        var drawn: Address := *;
        answers := answers + [if faulty && failed then None else Some(drawn)];
      }
    }

    method Sync(d: Document) returns (ok: bool)
      modifies this`serving, this`asked
      ensures !faulty ==> ok
      ensures hasRuntime ==> Made(old(asked), [Asked(RuntimeSync, ok)], asked)
      ensures ok && hasRuntime ==> serving == Some(d)
      ensures !hasRuntime ==> ok && serving == old(serving) && asked == old(asked)
    {
      if !hasRuntime { return true; }
      ok := Ask(RuntimeSync);
      serving := if ok then Some(d) else None;
    }

    method SaveState(d: Document) returns (ok: bool)
      modifies this`file, this`asked
      ensures !faulty ==> ok
      ensures Made(old(asked), [Asked(StateSave, ok)], asked)
      ensures file == if ok then Some(d) else old(file)
    {
      ok := Ask(StateSave);
      if ok { file := Some(d); }
    }

    method Reconcile(d: Document, ghost s: StoreState) returns (ok: bool)
      requires Accounted() && Servable(s) && d == Saved(s)
      modifies network.host
      ensures Accounted() && old(network.host.trace) <= network.host.trace
      ensures !network.host.crowded ==> N.SameForeign(old(network.host.State()), network.host.State())
      ensures !network.host.crowded && ok ==> OnHost(s)
      ensures !network.host.crowded && !network.host.faulty ==> (ok <==> Unobstructed(old(network.host.State()), s))
      ensures !network.host.crowded && !network.host.faulty && old(OnHost(s)) ==>
                network.host.State() == old(network.host.State()) && network.host.trace == old(network.host.trace)
    {
      hide Valid, Servable, Loaded, Saved, Accepted, NetworkAddresses, NetworkRoutes, Unobstructed, Desired, DesiredOf;
      hide N.AllAppliable, N.WellFormed, N.ForeignAddresses, N.ForeignRoutes, N.DesiredAddresses, N.DesiredRoutes;
      hide H.Host.Sound;
      var resources := DesiredResources(d);
      DesiredOfSaved(s);
      DesiredIsTheNetwork(s);
      AppliableMeansUnobstructed(network.host.State(), s);
      var failures := network.Reconcile(resources);
      return failures == [];
    }

    // ---- the transaction ----

    /** Undo after a failed step: the previous resources, and the previous runtime unless it was never asked. */
    method Compensate(before: Document, attempted: bool, ghost s: StoreState) returns (r: Outcome')
      requires Accounted() && Servable(s) && before == Saved(s)
      modifies this`serving, this`asked, network.host
      ensures Accounted() && old(network.host.trace) <= network.host.trace
      ensures r.Compensated?
      ensures !network.host.crowded ==> N.SameForeign(old(network.host.State()), network.host.State())
      ensures !network.host.crowded && r.networkRestored ==> OnHost(s)
      ensures !attempted ==> serving == old(serving) && r.runtimeRestored
      ensures attempted && hasRuntime && r.runtimeRestored ==> serving == Some(before)
      ensures !network.host.crowded && !network.host.faulty ==>
                (r.networkRestored <==> Unobstructed(old(network.host.State()), s))
    {
      hide Valid, Servable, Loaded, Saved, Accepted, NetworkAddresses, NetworkRoutes, Unobstructed, Desired, DesiredOf;
      hide N.AllAppliable, N.WellFormed, N.ForeignAddresses, N.ForeignRoutes, N.DesiredAddresses, N.DesiredRoutes;
      hide H.Host.Sound;
      var restored := true;
      if attempted { restored := Sync(before); }
      var reconciled := Reconcile(before, s);
      return Compensated(restored, reconciled);
    }

    /** `commitCandidate`. */
    method Commit(before: Document, candidate: Store.Store) returns (r: Outcome')
      requires Consistent() && Accounted() && before == Saved(store.View())
      requires Servable(candidate.View())
      modifies this, network.host
      ensures Consistent() && Accounted() && old(network.host.trace) <= network.host.trace
      ensures !network.host.crowded ==> N.SameForeign(old(network.host.State()), network.host.State())
      ensures terminated == old(terminated)
      ensures r.Committed? || r.Compensated?
      ensures r.Committed? ==> Made(old(asked), CommitCalls(), asked)
      ensures r.Committed? ==> store == candidate && file == Some(Saved(candidate.View())) && Served(candidate.View())
      ensures r.Committed? && !network.host.crowded ==> OnHost(candidate.View())
      ensures r.Compensated? ==> store == old(store) && file == old(file)
      ensures r.Compensated? && !network.host.crowded && r.networkRestored ==> OnHost(store.View())
      ensures r.Compensated? && r.runtimeRestored && old(Served(store.View())) ==> Served(store.View())
      ensures r.Compensated? && Calm() && old(OnHost(store.View())) ==> r.runtimeRestored && r.networkRestored
      ensures Calm() ==> (r.Committed? <==> Unobstructed(old(network.host.State()), candidate.View()))
    {
      hide Valid, Servable, Loaded, Saved, Accepted, NetworkAddresses, NetworkRoutes, Unobstructed, Desired, DesiredOf;
      hide N.AllAppliable, N.WellFormed, N.ForeignAddresses, N.ForeignRoutes, N.DesiredAddresses, N.DesiredRoutes;
      hide H.Host.Sound;
      LoadableMeansValid(candidate.View());
      LoadableMeansValid(store.View());
      ghost var s, t := store.View(), candidate.View();
      var after := State(candidate);
      var reconciled := Reconcile(after, t);
      if !reconciled {
        if !network.host.crowded { StillUnobstructed(old(network.host.State()), network.host.State(), s); }
        r := Compensate(before, false, s);
        return;
      }
      var synced := Sync(after);
      if !synced {
        r := Compensate(before, true, s);
        return;
      }
      ghost var synchronised := asked;
      var saved := SaveState(after);
      if !saved {
        r := Compensate(before, true, s);
        return;
      }
      if hasRuntime { MadeBoth(old(asked), [Asked(RuntimeSync, true)], synchronised, [Asked(StateSave, true)], asked); }
      store := candidate;
      return Committed;
    }

    /** All or nothing. A commit makes memory, disk, runtime and host describe `next`. Anything else
        leaves memory and disk alone; a refusal touches nothing at all, and after a failed step whose
        compensation succeeded everything is in step again if it was before. */
    twostate predicate AllOrNothing(r: Outcome', next: StoreState)
      reads this`store, this`file, this`serving, store, network.host
    {
      && Consistent() && Accounted()
      && (r.Committed? ==> store.View() == next && file == Some(Saved(next)) && Served(next))
      && (r.Committed? && !network.host.crowded ==> OnHost(next))
      && (!r.Committed? ==> store == old(store) && store.View() == old(store.View()) && file == old(file))
      && (!r.Committed? && !r.Compensated? ==>
            network.host.State() == old(network.host.State()) && network.host.trace == old(network.host.trace)
            && serving == old(serving))
      && (!network.host.crowded ==> N.SameForeign(old(network.host.State()), network.host.State()))
      && (!network.host.crowded && old(InStep()) && (r.Compensated? ==> r.runtimeRestored && r.networkRestored) ==>
            InStep())
      && (Calm() && old(InStep()) ==> InStep())
    }

    /** `ensureWritable`, then a private copy of the store to work on. */
    method Begin() returns (refusal: Option<Outcome'>, before: Document, candidate: Store.Store)
      requires Consistent()
      modifies this`asked
      ensures Made(old(asked), [Asked(WritableCheck, refusal != Some(NotWritable))], asked)
      ensures refusal.None? ==> fresh(candidate) && candidate.View() == store.View() && before == Saved(store.View())
                                && Valid(store.View())
      ensures refusal.Some? ==> refusal.value == NotWritable || (refusal.value == CloneFailed && !Valid(store.View()))
      ensures !faulty && Valid(store.View()) ==> refusal.None?
    {
      hide Valid, Loaded, Saved, Accepted, AddressesOk, TemplatesKeyed, FixedKeyed, PoolsKeyed, CursorsReady;
      hide UsedTemplatesCanonical;
      var writable := Ask(WritableCheck);
      before := State(store);
      if !writable { return Some(NotWritable), before, store; }
      LoadableMeansValid(store.View());
      SavedCounter(store.View());
      var built;
      built, candidate := NewStoreFromState(before);
      refusal := if built.Err? then Some(CloneFailed) else None;
    }

    /** The saved form of the store in memory. */
    method Snapshot() returns (d: Document)
      ensures d == Saved(store.View())
    {
      d := State(store);
    }

    /** Change the private copy and commit it. */
    method Attempt(before: Document, candidate: Store.Store, op: Op) returns (r: Outcome')
      requires Consistent() && Accounted() && !op.RestartOp?
      requires before == Saved(store.View()) && candidate != store && candidate.View() == store.View()
               && Valid(store.View())
      modifies this, candidate, network.host
      ensures AllOrNothing(r, Step(old(store.View()), op))
      ensures r.Committed? || r.Compensated? || r.Refused?
      ensures r.Refused? <==> !Accepts(old(store.View()), op)
      ensures r.Committed? ==> (Valid(store.View()) <==> StaysLoadable(old(store.View()), op))
      ensures Calm() ==>
                (r.Committed? <==> Accepts(old(store.View()), op)
                                   && Unobstructed(old(network.host.State()), Step(old(store.View()), op)))
      ensures terminated == old(terminated)
      ensures r.Committed? ==> Made(old(asked), CommitCalls(), asked)
      ensures r.Refused? ==> asked == old(asked)
    {
      hide Valid, Servable, Loaded, Saved, Accepted, NetworkAddresses, NetworkRoutes, Unobstructed, Step, Accepts;
      hide StaysLoadable;
      hide N.ForeignAddresses, N.ForeignRoutes, N.Realises, H.Host.Sound;
      var mutated := Mutate(candidate, op);
      assert store.View() == old(store.View()) && network.host.State() == old(network.host.State());
      if mutated.Err? { return Refused(mutated.error); }
      StepIsServable(store.View(), op);
      AcceptedStep(store.View(), op);
      r := Commit(before, candidate);
    }

    /** One store operation as a transaction. */
    method Transact(op: Op) returns (r: Outcome')
      requires Consistent() && Accounted() && !op.RestartOp?
      modifies this, network.host
      ensures AllOrNothing(r, Step(old(store.View()), op))
      ensures r.Committed? ==> Made(old(asked), [Asked(WritableCheck, true)] + CommitCalls(), asked)
      ensures r == NotWritable ==> Made(old(asked), [Asked(WritableCheck, false)], asked)
      ensures r.Committed? || r.Compensated? ==> Valid(old(store.View())) && Accepts(old(store.View()), op)
      ensures r.Committed? ==> (Valid(store.View()) <==> StaysLoadable(old(store.View()), op))
      ensures r.Refused? ==> !Accepts(old(store.View()), op)
      ensures r.CloneFailed? ==> !Valid(old(store.View()))
      ensures Calm() && Valid(old(store.View())) ==>
                (r.Committed? <==> Accepts(old(store.View()), op)
                                   && Unobstructed(old(network.host.State()), Step(old(store.View()), op)))
    {
      hide Made, ResourceCoordinator.CommitCalls, Valid, Servable, Loaded, Saved, Accepted, NetworkAddresses;
      hide NetworkRoutes, Unobstructed, Step, Accepts;
      hide StaysLoadable;
      hide N.ForeignAddresses, N.ForeignRoutes, N.Realises, H.Host.Sound;
      var refusal, before, candidate := Begin();
      if refusal.Some? { return refusal.value; }
      ghost var begun := asked;
      r := Attempt(before, candidate, op);
      if r.Committed? { MadeBoth(old(asked), [Asked(WritableCheck, true)], begun, CommitCalls(), asked); }
    }

    /** The requested address, or a drawn one when there is a free one. */
    method ChooseAddress(candidate: Store.Store, templateName: Name, requested: Option<Address>)
      returns (chosen: Option<Address>)
      requires Valid(candidate.View()) && templateName in candidate.templates
      ensures requested.Some? ==> chosen == requested
      ensures requested.None? && chosen.Some? ==>
                candidate.templates[templateName].prefix.Contains(chosen.value) && chosen.value !in candidate.addresses
      ensures !faulty && requested.None? ==>
                (chosen.Some? <==>
                   FreeAddresses(candidate.templates[templateName].prefix, candidate.addresses.Keys) != {})
    {
      hide Valid, Prefix.Contains, FreeAddresses, Canonical;
      ValidParts(candidate.View());
      Store.TemplateIsCanonical(candidate.View(), templateName);
      Store.CanonicalPrefix(candidate.templates[templateName]);
      chosen := requested;
      if requested.None? {
        var answers := Draws();
        var drawn := RandomAddress(candidate.templates[templateName].prefix, candidate.addresses.Keys, Reads(answers));
        chosen := if drawn.Ok? then Some(drawn.value) else None;
      }
    }

    /** Without a requested address one is drawn; the ownership follows the template's mode. */
    method CreateFixedAddress(name: Name, templateName: Name, requested: Option<Address>)
      returns (r: Outcome', ghost address: Address)
      requires Consistent() && Accounted()
      modifies this, network.host
      ensures r.Committed? ==> templateName in old(store.templates)
      ensures r.Committed? ==> Made(old(asked), [Asked(WritableCheck, true)] + CommitCalls(), asked)
      ensures r == NotWritable ==> Made(old(asked), [Asked(WritableCheck, false)], asked)
      ensures templateName in old(store.templates) ==>
                var op := CreateFixedOp(name, templateName, address,
                                        OwnershipForMode(old(store.templates)[templateName].mode));
                && AllOrNothing(r, Step(old(store.View()), op))
                && (r.Committed? ==> Accepts(old(store.View()), op) && (Valid(store.View()) <==> !Blank(name)))
      ensures !r.Committed? ==> AllOrNothing(r, old(store.View()))
      ensures requested.Some? ==> address == requested.value
      ensures r.Committed? ==> address !in old(store.addresses)
      ensures Calm() && Valid(old(store.View())) && requested.None? && templateName in old(store.templates) ==>
                var free := FreeAddresses(old(store.templates)[templateName].prefix, old(store.addresses).Keys);
                free != {} ==> address in free
      ensures Calm() && Valid(old(store.View())) ==>
                (r.Committed? <==>
                  && templateName in old(store.templates)
                  && (requested.None? ==>
                        FreeAddresses(old(store.templates)[templateName].prefix, old(store.addresses).Keys) != {})
                  && var op := CreateFixedOp(name, templateName, address,
                                             OwnershipForMode(old(store.templates)[templateName].mode));
                  && Accepts(old(store.View()), op)
                  && Unobstructed(old(network.host.State()), Step(old(store.View()), op)))
    {
      hide Made, ResourceCoordinator.CommitCalls, Valid, Servable, Loaded, Saved, Accepted, NetworkAddresses;
      hide NetworkRoutes, Unobstructed, Step, Accepts;
      hide StaysLoadable;
      hide N.ForeignAddresses, N.ForeignRoutes, N.Realises, H.Host.Sound, Prefix.Contains, FreeAddresses;
      hide OwnershipForMode, Blank;
      address := if requested.Some? then requested.value else 0;
      var refusal, before, candidate := Begin();
      if refusal.Some? { return refusal.value, address; }
      ghost var begun := asked;
      if templateName !in candidate.templates { return Refused(TemplateMissing), address; }
      var chosen := ChooseAddress(candidate, templateName, requested);
      if chosen.None? { return NoAddress, address; }
      address := chosen.value;
      FreeMeans(candidate.templates[templateName].prefix, candidate.addresses.Keys, address);
      var op := CreateFixedOp(name, templateName, chosen.value,
                              OwnershipForMode(candidate.templates[templateName].mode));
      StaysLoadableForFixed(store.View(), op);
      r := Attempt(before, candidate, op);
      if r.Committed? { MadeBoth(old(asked), [Asked(WritableCheck, true)], begun, CommitCalls(), asked); }
    }

    method DrainBatch(before: Document, candidate: Store.Store, pool: Name, batch: string) returns (r: Outcome')
      requires Consistent() && Accounted()
      requires before == Saved(store.View()) && candidate != store && candidate.View() == store.View()
               && Valid(store.View())
      modifies this, candidate, network.host
      ensures AllOrNothing(r, Step(old(store.View()), CompleteDrainOp(pool, batch)))
      ensures r.Committed? || r.Compensated? || r.Refused? || r == NotTerminated
      ensures r.Committed? ==> Made(old(asked), [Asked(Terminate, true)] + CommitCalls(), asked)
      ensures r == NotTerminated ==> Made(old(asked), [Asked(Terminate, false)], asked)
      ensures r.Committed? ==> Accepts(old(store.View()), CompleteDrainOp(pool, batch)) && Valid(store.View())
      ensures r.Committed? || r.Compensated? ==>
                && pool in old(store.pools)
                && var p := old(store.pools)[pool];
                && BatchIndex(p.draining, batch) < |p.draining|
                && terminated == old(terminated)
                + [Termination(pool, batch, p.kind, p.draining[BatchIndex(p.draining, batch)].addresses)]
      ensures !r.Committed? && !r.Compensated? ==> terminated == old(terminated)
      ensures Calm() ==>
                (r.Committed? <==> Accepts(old(store.View()), CompleteDrainOp(pool, batch))
                                   && Unobstructed(old(network.host.State()),
                                                   Step(old(store.View()), CompleteDrainOp(pool, batch))))
    {
      hide Made, ResourceCoordinator.CommitCalls, Valid, Servable, Loaded, Saved, Accepted, Unobstructed, Step;
      hide NetworkAddresses, NetworkRoutes, N.ForeignAddresses, N.ForeignRoutes, N.Realises, H.Host.Sound;
      hide Accepts, StaysLoadable, BatchIndex;
      var op := CompleteDrainOp(pool, batch);
      var mutated := Mutate(candidate, op);
      assert store.View() == old(store.View()) && network.host.State() == old(network.host.State());
      if mutated.Err? { return Refused(mutated.error); }
      AcceptedDrain(store.View(), pool, batch);
      StepIsServable(store.View(), op);
      AcceptedStep(store.View(), op);
      ServablePools(store.View());
      var found := DrainingBatch(before, store.View(), pool, batch);
      var ended := Ask(Terminate);
      if !ended { return NotTerminated; }
      ghost var terminating := asked;
      terminated := terminated + [Termination(pool, batch, found.value.0, found.value.1)];
      r := Commit(before, candidate);
      if r.Committed? { MadeBoth(old(asked), [Asked(Terminate, true)], terminating, CommitCalls(), asked); }
    }

    /** Terminate a batch's connections, then complete the batch. */
    method ForceDrain(pool: Name, batch: string) returns (r: Outcome')
      requires Consistent() && Accounted()
      modifies this, network.host
      ensures AllOrNothing(r, Step(old(store.View()), CompleteDrainOp(pool, batch)))
      ensures r.Committed? ==>
                Made(old(asked), [Asked(WritableCheck, true)] + ([Asked(Terminate, true)] + CommitCalls()), asked)
      ensures r == NotWritable ==> Made(old(asked), [Asked(WritableCheck, false)], asked)
      ensures r == NotTerminated ==>
                Made(old(asked), [Asked(WritableCheck, true)] + [Asked(Terminate, false)], asked)
      ensures r.Committed? ==> Accepts(old(store.View()), CompleteDrainOp(pool, batch)) && Valid(store.View())
      ensures r.Committed? || r.Compensated? ==>
                && pool in old(store.pools)
                && var p := old(store.pools)[pool];
                && BatchIndex(p.draining, batch) < |p.draining|
                && terminated == old(terminated)
                + [Termination(pool, batch, p.kind, p.draining[BatchIndex(p.draining, batch)].addresses)]
      ensures !r.Committed? && !r.Compensated? ==> terminated == old(terminated)
      ensures Calm() && Valid(old(store.View())) ==>
                (r.Committed? <==> Accepts(old(store.View()), CompleteDrainOp(pool, batch))
                                   && Unobstructed(old(network.host.State()),
                                                   Step(old(store.View()), CompleteDrainOp(pool, batch))))
    {
      hide Made, ResourceCoordinator.CommitCalls, Valid, Servable, Loaded, Saved, Accepted, Unobstructed, Step;
      hide NetworkAddresses, NetworkRoutes, N.ForeignAddresses, N.ForeignRoutes, N.Realises, H.Host.Sound;
      hide Accepts, StaysLoadable, BatchIndex;
      var refusal, before, candidate := Begin();
      if refusal.Some? { return refusal.value; }
      ghost var begun := asked;
      r := DrainBatch(before, candidate, pool, batch);
      if r.Committed? {
        MadeBoth(old(asked), [Asked(WritableCheck, true)], begun, [Asked(Terminate, true)] + CommitCalls(), asked);
      }
      if r == NotTerminated {
        MadeBoth(old(asked), [Asked(WritableCheck, true)], begun, [Asked(Terminate, false)], asked);
      }
    }

    /** Every batch of every pool in one transaction. */
    method CompleteAllDrains() returns (r: Outcome')
      requires Consistent() && Accounted()
      modifies this, network.host
      ensures AllOrNothing(r, store.View())
      ensures r.Committed? ==> Made(old(asked), [Asked(WritableCheck, true)] + CommitCalls(), asked)
      ensures r == NotWritable ==> Made(old(asked), [Asked(WritableCheck, false)], asked)
      ensures r.Committed? ==> DrainsEmptied(old(store.View()), store.View())
      ensures r == NothingToDo <==> forall n :: n in old(store.pools) ==> old(store.pools)[n].draining == []
      ensures !r.Refused?
      ensures Calm() && Valid(old(store.View())) && Unobstructed(old(network.host.State()), old(store.View())) ==>
                r.Committed? || r == NothingToDo
    {
      hide Made, ResourceCoordinator.CommitCalls, Valid, Servable, Loaded, Saved, Accepted, NetworkAddresses;
      hide NetworkRoutes, Unobstructed, N.ForeignAddresses;
      hide N.ForeignRoutes, N.Realises, H.Host.Sound;
      hide OnlyDrained;
      ServablePools(store.View());
      var current := State(store);
      var residual := AnyResidual(current, store.View());
      if !residual { return NothingToDo; }
      var refusal, before, candidate := Begin();
      if refusal.Some? { return refusal.value; }
      ghost var begun := asked;
      EmptyAllDrains(before, candidate);
      assert store.View() == old(store.View()) && network.host.State() == old(network.host.State());
      DrainedIsServable(store.View(), candidate.View());
      if Unobstructed(network.host.State(), store.View()) {
        DrainedStaysUnobstructed(network.host.State(), store.View(), candidate.View());
      }
      r := Commit(before, candidate);
      if r.Committed? { MadeBoth(old(asked), [Asked(WritableCheck, true)], begun, CommitCalls(), asked); }
    }

    static method EmptyPool(ghost s: StoreState, candidate: Store.Store, pool: Pool)
      requires OnlyDrained(s, candidate.View()) && pool.name in s.pools && pool.name in candidate.pools
               && candidate.pools[pool.name] == pool
      modifies candidate
      ensures OnlyDrained(s, candidate.View())
      ensures candidate.pools == old(candidate.pools)[pool.name := pool.(draining := [])]
    {
      hide OnlyDrained, Valid, CompleteDrain;
      for j := 0 to |pool.draining|
        invariant OnlyDrained(s, candidate.View())
        invariant candidate.pools == old(candidate.pools)[pool.name := pool.(draining := pool.draining[j..])]
      {
        assert pool.draining[j..][1..] == pool.draining[j + 1..];
        OnlyDrainedIsValid(s, candidate.View());
        FirstBatchCompletes(s, candidate.View(), pool.name);
        var completed := candidate.CompleteDrain(pool.name, pool.draining[j].id);
      }
    }

    static method EmptyAllDrains(before: Document, candidate: Store.Store)
      requires Valid(candidate.View()) && before == Saved(candidate.View())
      modifies candidate
      ensures DrainsEmptied(old(candidate.View()), candidate.View())
    {
      hide Valid, Saved, OnlyDrained, CompleteDrain;
      ghost var s := candidate.View();
      NothingDrained(s);
      KeysOf(s);
      ListedPools(s);
      for i := 0 to |before.pools|
        invariant OnlyDrained(s, candidate.View())
        invariant forall k :: 0 <= k < i ==>
                  before.pools[k].name in candidate.pools && candidate.pools[before.pools[k].name].draining == []
        invariant forall k :: i <= k < |before.pools| ==>
                  before.pools[k].name in candidate.pools && candidate.pools[before.pools[k].name] == before.pools[k]
      {
        PoolsOnce(s, i);
        assert before.pools[i] in before.pools;
        EmptyPool(s, candidate, before.pools[i]);
      }
      AllPoolsEmptied(s, candidate.View());
    }

    method DrainPending(before: Document, candidate: Store.Store, pool: Name, addresses: seq<Address>,
                        normalized: seq<Address>, pending: seq<Address>) returns (r: Outcome')
      requires Consistent() && Accounted()
      requires before == Saved(store.View()) && candidate != store && candidate.View() == store.View()
               && Valid(store.View())
      requires pool in candidate.pools && PendingOf(candidate.View(), pool, normalized, pending)
               && Elements(normalized) == Elements(addresses)
      modifies this, candidate, network.host
      ensures AllOrNothing(r, store.View())
      ensures r.Committed? || r.Compensated?
      ensures r.Committed? ==> Made(old(asked), CommitCalls(), asked)
      ensures r.Committed? ==> DrainedOff(old(store.View()), store.View(), pool, Elements(addresses))
      ensures Calm() && Unobstructed(old(network.host.State()), old(store.View())) ==> r.Committed?
    {
      hide Made, ResourceCoordinator.CommitCalls, Valid, Servable, Loaded, Saved, Accepted, Unobstructed, Elements;
      hide NetworkAddresses, NetworkRoutes, N.ForeignAddresses, N.ForeignRoutes, N.Realises, H.Host.Sound;
      hide OnlyDrained, DrainedOff, Draining, Blank, PendingOf;
      CompletePending(candidate, pool, normalized, pending);
      assert store.View() == old(store.View()) && network.host.State() == old(network.host.State());
      DrainedOffIsServable(store.View(), candidate.View(), pool, Elements(addresses));
      if Unobstructed(network.host.State(), store.View()) {
        DrainedOffUnobstructed(network.host.State(), store.View(), candidate.View(), pool, Elements(addresses));
      }
      r := Commit(before, candidate);
    }

    /** `CompleteDrainedAddresses`: addresses that no longer drain are skipped, the rest leave in one transaction. */
    method CompleteDrainedAddresses(pool: Name, addresses: seq<Address>) returns (r: Outcome')
      requires Consistent() && Accounted()
      modifies this, network.host
      ensures AllOrNothing(r, store.View())
      ensures r.Committed? ==> Made(old(asked), [Asked(WritableCheck, true)] + CommitCalls(), asked)
      ensures r == NotWritable ==> Made(old(asked), [Asked(WritableCheck, false)], asked)
      ensures r.Committed? ==> DrainedOff(old(store.View()), store.View(), pool, Elements(addresses))
      ensures r == BlankPool <==> Blank(pool)
      ensures r == NothingToDo <==>
                && !Blank(pool)
                && (pool !in old(store.pools) || Elements(Draining(old(store.pools)[pool])) !! Elements(addresses))
      ensures !r.Refused?
      ensures Calm() && Valid(old(store.View())) && Unobstructed(old(network.host.State()), old(store.View())) ==>
                r.Committed? || r == NothingToDo || r == BlankPool
    {
      hide Made, ResourceCoordinator.CommitCalls, Valid, Servable, Loaded, Saved, Accepted, NetworkAddresses;
      hide NetworkRoutes, Unobstructed, N.ForeignAddresses;
      hide N.ForeignRoutes, N.Realises, H.Host.Sound;
      hide OnlyDrained, DrainedOff, Draining, Blank, PendingOf;
      if Blank(pool) { return BlankPool; }
      var normalized := Normalized(addresses);
      ServablePools(store.View());
      var current := State(store);
      var pending := Pending(current, store.View(), pool, normalized);
      if pending == [] {
        EmptyMeansDisjoint(store.View(), pool, normalized, pending);
        return NothingToDo;
      }
      PendingPool(store.View(), pool, normalized, pending);
      var refusal, before, candidate := Begin();
      if refusal.Some? { return refusal.value; }
      ghost var begun := asked;
      r := DrainPending(before, candidate, pool, addresses, normalized, pending);
      if r.Committed? { MadeBoth(old(asked), [Asked(WritableCheck, true)], begun, CommitCalls(), asked); }
    }

    static method CompletePending(candidate: Store.Store, pool: Name, normalized: seq<Address>, pending: seq<Address>)
      requires Valid(candidate.View()) && pool in candidate.pools
      requires PendingOf(candidate.View(), pool, normalized, pending)
      modifies candidate
      ensures DrainedOff(old(candidate.View()), candidate.View(), pool, Elements(normalized))
    {
      hide Valid, OnlyDrained, CompleteDrainedAddress, PendingOf, DrainedOff, Draining;
      ghost var s := candidate.View();
      NoneDrainedOff(s, pool);
      NoElements(pending[..0]);
      for i := 0 to |pending|
        invariant DrainedOff(s, candidate.View(), pool, Elements(pending[..i])) && pool in candidate.pools
      {
        DrainedOffStep(s, candidate.View(), pool, normalized, pending, i);
        var completed, status := candidate.CompleteDrainedAddress(pool, pending[i]);
      }
      assert pending[..|pending|] == pending;
      PendingIsAll(s, candidate.View(), pool, normalized, pending);
    }

    /** `Reconcile` at start-up: the host and the runtime are brought in step with memory and disk. */
    method Resume() returns (ok: bool)
      requires Consistent() && Accounted()
      modifies this`serving, this`asked, network.host
      ensures ok && hasRuntime ==> Made(old(asked), [Asked(RuntimeSync, true)], asked)
      ensures Consistent() && Accounted()
      ensures !network.host.crowded && ok ==> InStep()
      ensures Calm() ==> (ok <==> Unobstructed(old(network.host.State()), store.View()))
    {
      hide Valid, Servable, Loaded, Saved, Accepted, NetworkAddresses, NetworkRoutes, Unobstructed, N.ForeignAddresses;
      hide N.ForeignRoutes, N.Realises, H.Host.Sound;
      var d := State(store);
      LoadableMeansValid(store.View());
      var reconciled := Reconcile(d, store.View());
      if !reconciled { return false; }
      ok := Sync(d);
    }

    /** `NewResourceCoordinator`: without a file the store is empty; a file that cannot be read, or is not
        accepted, stops the start. */
    static method Load(read: StateFile, hasRuntime: bool, faulty: bool, network: N.ResourceManager)
      returns (r: Option<ResourceCoordinator>)
      requires read.Found? ==> read.document.nextBatch < UINT64_LIMIT
      ensures r.Some? <==> read.Missing? || (read.Found? && Accepted(read.document))
      ensures r.Some? ==> fresh(r.value) && r.value.Consistent() && r.value.network == network
      ensures r.Some? && read.Missing? ==> r.value.file == None && r.value.store.View() == EMPTY_STORE
      ensures r.Some? && read.Found? ==>
                r.value.file == Some(read.document) && r.value.store.View() == Loaded(read.document)
    {
      hide Valid, Loaded, Saved, AddressesOk, TemplatesKeyed, FixedKeyed, PoolsKeyed, CursorsReady;
      hide UsedTemplatesCanonical;
      if read.Unreadable? { return None; }
      var store := new Store.Store.NewStore();
      EmptyIsServable();
      if read.Found? {
        var built, loaded := NewStoreFromState(read.document);
        if built.Err? { return None; }
        LoadedIsServable(read.document);
        store := loaded;
      }
      var c := new ResourceCoordinator(store, hasRuntime, faulty, network);
      c.file := if read.Found? then Some(read.document) else None;
      return Some(c);
    }
  }

  /** What a host carries for a store is not in its way, and stays so while foreign resources stay. */
  lemma StillUnobstructed(g: H.HostState, h: H.HostState, s: StoreState)
    requires N.SameForeign(g, h)
    ensures N.Realises(g, NetworkAddresses(s), NetworkRoutes(s)) ==> Unobstructed(h, s)
  {
    hide NetworkAddresses, NetworkRoutes;
  }

  lemma EmptyIsServable()
    ensures Servable(EMPTY_STORE)
  {
  }

  lemma LoadedIsServable(d: Document)
    requires Accepted(d)
    ensures Servable(Loaded(d)) && Valid(Loaded(d))
  {
    hide Valid, Servable, Loaded;
    ValidIsServable(Loaded(d));
  }

  lemma SavedCounter(s: StoreState)
    ensures Saved(s).nextBatch == s.nextBatch
  {
  }

  lemma DesiredOfSaved(s: StoreState)
    ensures Desired(Saved(s).templates, Saved(s).addresses) == DesiredOf(s)
  {
  }
}
