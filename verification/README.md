# Verification model of the proxy manager

The program keeps a store of IPv6 resources (prefix templates, fixed addresses, address pools and the
batches of addresses that drain), realises it on a Linux host as interface addresses and local routes,
applies declarative documents to it, and runs proxy nodes on top. This project models that logic in
Dafny and proves what the program relies on. `dafny verify dfyconfig.toml` checks all of it.

## How the model is laid out

| modules | part of the program |
|---|---|
| `Names`, `Prefixes`, `Walk`, `RandomAddresses`, `DrainIds` | names, prefixes as intervals of addresses below 2^128, the cyclic walk, identifiers |
| `StoreModel`, `StoreAnswers`, `StoreInvariant`, `Store` | the operations on store states as values, when each is accepted and what it leaves, what it keeps, and the store object whose methods have exactly these effects |
| `StoreOwnership`, `StoreRuns` | exclusive ownership, whole runs, and the walk seen along a run |
| `StateDocument`, `StateLoader` | saving, loading and the round trip |
| `Host`, `NetworkManager` | the host with the ownership list, moment by moment, and the manager that changes it |
| `DesiredNetwork`, `ServiceSteps`, `ServiceDrains`, `ResourceService` | one store change as a transaction over memory, host, runtime and disk |
| `AgentDocument`, `AgentPrune`, `AgentService` | declarative documents: the two checks, creations and the prune |
| `SourcePool`, `PortAllocator`, `Firewall`, `Watchdog`, `NodeManager`, `PersistentNodes` | the runtime state machines |
| `ResolverCache`, `LoginLimiter` | cache eviction and the sliding window |
| `Wrappers`, `Orders`, `FiniteSets` | shared vocabulary |

An object that the program updates in place is a class whose methods update its fields; most are proved
against a function on values (`Store.Store.View`, `Firewall.Fast`, `Watchdog.Round`, `SourcePool.Replacing`,
...), and the lemmas are about those functions. Results with a condition (`Result`, `Option`) stand for
Go errors.

Two predicates carry the address store. `StoreModel.Valid` is the loader's invariant: references of each
address equal its fixed use, plus the pools pinning it, plus its other active uses, plus its draining uses;
draining and active addresses of a pool are disjoint; a pool has exactly its capacity of distinct active
addresses; batch identifiers are well formed, unique and not ahead of the counter; walk positions lie in
the prefix of a template. `StoreModel.Exclusive` is the stronger property of stores grown from the empty
one: an automatic or draining address has one pool and no fixed entry.

Everything outside is an oracle that succeeds as a whole or fails without effect: kernel calls and saves
(`Host.Host`), the node runtime and the state file (`ResourceService`), sockets (`PortAllocator.Sockets`),
runtimes and dedicated pools (`NodeManager.Factory`), the firewall (`Firewall.Replacer`) and the world a
watchdog round meets (`Watchdog.Answers`). An oracle that is not `faulty` never fails, which is how success
conditions are stated in both directions. Where a check only answers and changes nothing, the question is recorded
with its answer (`Host.Host.checks`, `ResourceService.ResourceCoordinator.asked`), so that skipping it or ignoring
its answer would show; `NodeManager.Factory` records what each runtime serves and which pools were deleted. On the host, other programs (`crowded`) may add and remove any address
or route at any moment between calls; `Host.Host.trace` records the host after every act, so a statement about the
trace is a statement about every point at which the process may crash. `Host.Accounted`, which every call keeps
across races, failures and restarts, says of that trace:

- at every moment each address and route the program has put on the host is listed in the saved ownership;
- each removal of something the program did not add follows an act on that very resource: a save that listed
  it while it was on the host, or outsiders who added it while it was listed;
- all moments were good (nothing else on the host was listed, nothing else was removed) if and only if there
  was no such save and no such addition.

## Where the code does not keep a promise

The code was followed; each of these comes with the exact condition or a concrete state.

- A template that is not canonical, or a fixed address or pool with a blank name, is accepted by the store
  and refused by the loader. The operation keeps the invariant if and only if the name is visible or the
  template canonical, and `ServiceSteps.RestartAccepts` says that a restart then accepts the saved file under
  exactly the same condition.
- The batch counter wraps at 2^64. A refresh keeps the invariant if and only if it retires nothing or the
  counter does not wrap.
- The program may list, and later remove, something it did not add: an outsider adds it after the dump that
  shows it absent and before the intent is saved. `Host.SaveKeepsSafe` is the exact condition for one save, in
  terms of the host and the two lists; `NetworkManager.ResourceManager.ListIntent` and `ListRoute` tie it to
  apply; `Host.Host.WrongRemovalWasRaced` says that, while outsiders add only what is not listed, nothing else
  leads to a wrong removal; and `NetworkManager.IntentRace` is the run in which the next start takes the
  outsider's address off the host.
- Both prune checks can pass and the prune is refused all the same. `AgentPrune.PruneFinishesExactly`: the
  prune is accepted if and only if no listed pool uses or drains, without pinning it, the address of an
  unlisted fixed entry. `AgentService.AgentService.PruneResources` has the same condition for the calls
  themselves, `AgentPrune.UnpinnedFixedBlocksPrune` gives the states, and stores grown from the empty one
  never are in one (`AgentPrune.ExclusiveIsUnshared`).
- `PersistentNodes.PersistentManager.Start`: starting a node that already runs succeeds; when the save
  then fails, the compensation stops the node.

## Model

| member | source | states |
|---|---|---|
| `Prefixes.ContainsIsAgreementOfLeadingBits` | internal/ipv6resource/template.go:101-103 | A prefix contains exactly the addresses that agree with its own address in the leading bits, whatever its host bits are. |
| `Prefixes.MaskedKeepsTheRange` | internal/ipv6resource/template.go:29-55 | Masking a prefix keeps the set of addresses it contains. |
| `Prefixes.GlobalMeans` | internal/ipv6resource/template.go:29-55 | A prefix passes the test for global unicast exactly when all of its addresses are in 2000::/3. |
| `Prefixes.ConstructorAnswers` | internal/ipv6resource/template.go:29-55 | A template is made exactly of a visible name and interface, a known mode and a global prefix, trimmed and masked; otherwise the error is that of the first argument that fails. |
| `Prefixes.ConstructedTemplatesAreCanonical` | internal/ipv6resource/template.go:29-55 | A template the constructor returned is returned unchanged when it is constructed again, which is the test the loader makes. |
| `Prefixes.OverlapMeansSharedAddress` | internal/ipv6resource/template.go:101-103 | The two-sided containment test holds exactly when the two prefixes share an address. |
| `Names.TrimIsTheMiddle` | internal/ipv6resource/template.go:29-55 | Trimming drops the white space before the first visible character and after the last, and nothing else. |
| `Names.BlankMeansSpace` | internal/ipv6resource/template.go:29-55 | A string is blank exactly when it is white space throughout. |
| `Names.TrimIsIdempotent` | internal/ipv6resource/template.go:29-55 | Trimming white space twice is trimming it once, for every string. |
| `Walk.GenerateAddressesFrom` | internal/ipv6resource/walk.go:15-48 | Ends for every input; succeeds exactly when the count is 1 to 4096 and at least that many addresses are free; returns exactly the first free addresses in cyclic order from the start; each failure has its own error. |
| `Walk.GenerateAddresses` | internal/ipv6resource/template.go:69-90 | Same success condition; returns the lowest free addresses in ascending order. |
| `Walk.WalkFromBaseIsTheScan` | internal/ipv6resource/walk.go:15-48 | Started at the first address of the prefix, the walk is the plain scan, for every occupancy. |
| `Walk.WalkIsUnique` | internal/ipv6resource/walk.go:15-48 | Where a walk starts, the occupancy and the length leave only one result. |
| `Walk.WalkFitsTheFreeAddresses` | internal/ipv6resource/walk.go:15-48 | A walk has no repetition, uses free addresses only, and so is no longer than their number. |
| `Walk.WalkFor` | internal/ipv6resource/walk.go:15-48 | The walk as a value: it exists exactly when enough addresses are free. |
| `Walk.WalkForIsTheWalk` | internal/ipv6resource/walk.go:15-48 | Every list that is a walk is the one this value names, so the loop and the value agree. |
| `Walk.NextWithinAdvances` | internal/ipv6resource/walk.go:69-81 | The remembered next address is one step further in cyclic order, wrapping at the end of the prefix and at the end of the address space. |
| `RandomAddresses.RandomAddress` | internal/ipv6resource/random.go:12-48 | The first of 128 drawn addresses that is free, and when none is the first free one of the prefix; a failed read ends it there. Each failure has its own error and its reason; when every read works, an address is returned exactly when the prefix is global and has a free one. |
| `RandomAddresses.EveryAddressCanBeDrawn` | internal/ipv6resource/random.go:25-38 | Every address of the prefix can be drawn. |
| `RandomAddresses.Mixed` | internal/ipv6resource/random.go:25-38 | The network part of the prefix with random host bits always lies in the prefix. |
| `RandomAddresses.PrefixIsExhausted` | internal/ipv6resource/random.go:50-63 | Answers yes exactly for prefixes of at most 4096 addresses that have no free one. |
| `DrainIds.DrainIdReadsBack` | internal/ipv6resource/state.go:283-293 | An identifier made from a number parses back to it, except 0 and numbers of more than 64 bits. |
| `Store.Store.AddTemplate` | internal/ipv6resource/store.go:79-91 | Accepted exactly when the name is new and no template shares an address with it, in whatever order the table is visited; the error names a real reason; a refusal changes nothing. |
| `Store.Store.DeleteTemplate` | internal/ipv6resource/store.go:93-106 | Refused while a fixed address or pool uses the template; otherwise the template and its walk position go, and nothing else. |
| `Store.Store.CreateFixedAddress` | internal/ipv6resource/store.go:108-140 | Each refusal in the order of the checks, leaving the store alone; on success the entry and its address with one reference. |
| `Store.Store.DeleteFixedAddress` | internal/ipv6resource/store.go:142-156 | Refused while anything else references the address; otherwise entry and address go. |
| `Store.Store.CreatePool` | internal/ipv6resource/store.go:158-202 | Each refusal in order, leaving the store alone; on success pinned addresses gain a reference, automatic ones are the next walk of the template, and the walk position moves past them. |
| `Store.Store.RefreshPool` | internal/ipv6resource/store.go:204-232 | The pinned addresses stay, the automatic ones are replaced by the next walk and drain under a batch whose number is the counter plus one modulo 2^64. |
| `Store.Store.DeletePool` | internal/ipv6resource/store.go:234-268 | Every address the pool held, active or draining, loses exactly one reference and disappears with the last; the ownership check never fails in a valid store. |
| `Store.Store.CompleteDrain` | internal/ipv6resource/store.go:270-295 | The first batch with the identifier goes and its addresses lose one reference each. |
| `Store.Store.CompleteDrainedAddress` | internal/ipv6resource/store.go:297-328 | The address leaves the first batch that drains it; the batch disappears with its last address, which is what the flag reports. |
| `Store.Store.ResolvePinned` | internal/ipv6resource/store.go:391-409 | The addresses of the named fixed entries in order, or the first of the three complaints. |
| `Store.Store.GenerateAutomatic` | internal/ipv6resource/walk.go:53-64 | Resumes at the remembered position and moves it behind the last address; a failure leaves the position alone. |
| `Store.Store.TemplateReferences` | internal/ipv6resource/store.go:419-433 | Lists something exactly when a fixed entry or a pool uses the template. |
| `Store.ListDifference` | internal/ipv6resource/store.go:464-476 | The addresses that are not excluded, in order. |
| `Store.PoolReleases` | internal/ipv6resource/store.go:234-268 | A well-formed pool references each address it holds once: pinned, automatic and draining uses never coincide. |
| `StoreAnswers.DeleteTemplateAnswers` | internal/ipv6resource/store.go:93-106 | Accepted exactly when the template exists and nothing is made from it; then it and the position of its prefix are all that goes. |
| `StoreAnswers.CreateFixedAddressAnswers` | internal/ipv6resource/store.go:108-140 | Accepted exactly when the name is new, the template exists and contains the address, the ownership is the one of its mode and the address is not in use, and otherwise refused for the first of these that fails; the table then gains this one entry. |
| `StoreAnswers.DeleteFixedAddressAnswers` | internal/ipv6resource/store.go:142-156 | Accepted exactly when the entry exists and no pool uses or drains its address; then only the entry and the address go. |
| `StoreAnswers.ResolvePinnedAnswers` | internal/ipv6resource/store.go:391-409 | Accepted exactly when every name is an entry of the template and no name repeats; otherwise the error is that of the first name that fails. |
| `StoreAnswers.GenerateAnswers` | internal/ipv6resource/walk.go:53-64 | The walk succeeds exactly when enough addresses of the prefix are free, and the remembered position then follows the last one. |
| `StoreAnswers.CreatePoolAnswers` | internal/ipv6resource/store.go:158-202 | Accepted exactly when name, kind, template and capacity pass, every pinned name can be pinned, and capacity minus pins is at most the number of free addresses. |
| `StoreAnswers.CreatePoolLeaves` | internal/ipv6resource/store.go:158-202 | The pool that is then there: the pins in order followed by the walk; pins gain a reference, walked addresses join with one, and nothing else changes. |
| `StoreAnswers.CreatePoolRefusals` | internal/ipv6resource/store.go:158-202 | Each refusal is for the first check that fails. |
| `StoreAnswers.RefreshPoolAnswers` | internal/ipv6resource/store.go:204-232 | Accepted exactly when the pool exists and capacity minus pins is at most the number of free addresses, whatever drains already. |
| `StoreAnswers.RefreshPoolLeaves` | internal/ipv6resource/store.go:204-232 | The walk replaces the automatic addresses, which become the last batch under the next number; earlier batches and every other pool stay. |
| `StoreAnswers.DeletePoolAnswers` | internal/ipv6resource/store.go:234-268 | Accepted exactly when the pool exists; exactly the addresses it held lose one reference each. |
| `StoreAnswers.CompleteDrainAnswers` | internal/ipv6resource/store.go:270-295 | Accepted exactly when some batch has the identifier; the first such batch goes and its addresses lose one reference each. |
| `StoreAnswers.CompleteDrainedAddressAnswers` | internal/ipv6resource/store.go:297-328 | Accepted exactly when some batch drains the address; it leaves its first place, and a batch that was down to it goes. |
| `StoreAnswers.DifferenceKeepsOrder` | internal/ipv6resource/store.go:464-476 | What is left of a list keeps its order. |
| `StoreInvariant.AddTemplateKeepsValid` | internal/ipv6resource/store.go:79-91 | The result is a state the loader accepts if and only if the template is canonical. |
| `StoreInvariant.DeleteTemplateKeepsValid` | internal/ipv6resource/store.go:93-106 | Keeps the loader's invariant. |
| `StoreInvariant.CreateFixedAddressKeepsValid` | internal/ipv6resource/store.go:108-140 | Keeps the loader's invariant if and only if the name is not blank. |
| `StoreInvariant.DeleteFixedAddressKeepsValid` | internal/ipv6resource/store.go:142-156 | Keeps the loader's invariant. |
| `StoreInvariant.CreatePoolKeepsValid` | internal/ipv6resource/store.go:158-202 | Keeps the loader's invariant if and only if the name is not blank. |
| `StoreInvariant.RefreshPoolKeepsValid` | internal/ipv6resource/store.go:204-232 | Keeps the loader's invariant if and only if nothing was retired or the batch counter did not wrap at 2^64. |
| `StoreInvariant.DeletePoolKeepsValid` | internal/ipv6resource/store.go:234-268 | Keeps the loader's invariant. |
| `StoreInvariant.CompleteDrainKeepsValid` | internal/ipv6resource/store.go:270-295 | Keeps the loader's invariant. |
| `StoreInvariant.CompleteDrainedAddressKeepsValid` | internal/ipv6resource/store.go:297-328 | Keeps the loader's invariant. |
| `StoreInvariant.WellShapedPoolUsesOnce` | internal/ipv6resource/store.go:204-232 | A well-formed pool counts once for every address it holds and not at all for any other. |
| `StoreInvariant.BatchesAfterAppend` | internal/ipv6resource/store.go:204-232 | The identifier made from the incremented counter is new in every pool, exactly when the counter did not wrap. |
| `StoreOwnership.OwnerIsUnique` | internal/ipv6resource/store.go:158-328 | An address a pool owns (automatic or draining) is held by no other pool. |
| `StoreOwnership.CreateFixedAddressKeepsExclusive` | internal/ipv6resource/store.go:108-140 | Keeps exclusive ownership. |
| `StoreOwnership.DeleteFixedAddressKeepsExclusive` | internal/ipv6resource/store.go:142-156 | Keeps exclusive ownership. |
| `StoreOwnership.CreatePoolKeepsExclusive` | internal/ipv6resource/store.go:158-202 | Keeps exclusive ownership. |
| `StoreOwnership.RefreshPoolKeepsExclusive` | internal/ipv6resource/store.go:204-232 | Keeps exclusive ownership. |
| `StoreOwnership.DeletePoolKeepsExclusive` | internal/ipv6resource/store.go:234-268 | Keeps exclusive ownership. |
| `StoreOwnership.CompleteDrainKeepsExclusive` | internal/ipv6resource/store.go:270-295 | Keeps exclusive ownership. |
| `StoreOwnership.CompleteDrainedAddressKeepsExclusive` | internal/ipv6resource/store.go:297-328 | Keeps exclusive ownership. |
| `StoreRuns.StepKeepsValid` | internal/ipv6resource/store.go:79-328 | Any operation, refused or accepted, and any restart keeps the loader's invariant, and raises the batch counter by at most one. |
| `StoreRuns.StepKeepsExclusive` | internal/ipv6resource/store.go:79-328 | The same for exclusive ownership. |
| `StoreRuns.RunKeepsInvariants` | internal/ipv6resource/store.go:79-328 | Both invariants hold after every run of operations and restarts, of any length the counter allows. |
| `StoreRuns.NewStoreIsValid` | internal/ipv6resource/store.go:69-77 | The empty store satisfies both invariants. |
| `StoreRuns.GrownStoresAreExclusive` | internal/ipv6resource/store.go:69-328 | In every store grown from the empty one, each automatic or draining address has one reference, belongs to exactly one pool and is never fixed. |
| `StoreRuns.RunKeepsTracks` | internal/ipv6resource/walk.go:53-81 | Along every run, with frees, drains and restarts in between, the unwrapped positions of the addresses one template hands out strictly increase. |
| `StoreRuns.ReuseTakesAFullLap` | internal/ipv6resource/walk.go:53-81 | An address is handed out again only after the walk has passed every other address of the prefix. |
| `StateDocument.State` | internal/ipv6resource/state.go:60-94 | Writes every table as the list sorted by its key, with the counter and the walk positions. |
| `StateDocument.SaveThenLoad` | internal/ipv6resource/state.go:60-94 | What is saved for a store that satisfies the invariant is accepted and denotes the same store, walk positions included. |
| `StateDocument.SavedDocumentIsStable` | internal/ipv6resource/state.go:60-94 | Loading any accepted document and saving it gives a document that saving and loading no longer changes. |
| `StateLoader.NewStoreFromState` | internal/ipv6resource/state.go:96-273 | Accepts a document exactly when no key repeats, every walk position is in its prefix and the store it denotes satisfies the invariant; then it builds that store. |
| `StateLoader.SectionsAreTheInvariant` | internal/ipv6resource/state.go:96-273 | The checks made section by section are together exactly the invariant, both ways. |
| `StateLoader.LoadPool` | internal/ipv6resource/state.go:180-262 | One pool passes exactly when it is well formed, backed by the address table and its batch identifiers are new; its uses are counted once each. |
| `StateLoader.LoadTemplates` | internal/ipv6resource/state.go:99-110 | The templates load exactly when each is canonical and no two share a name or an address. |
| `StateLoader.LoadCursors` | internal/ipv6resource/state.go:112-138 | Positions load exactly when each key is canonical and contains its position; those of unknown prefixes are dropped. |
| `Host.SaveKeepsSafe` | internal/network/ownership_store.go:71-115 | From an accounted state, saving another list keeps the accounting if and only if nothing that enters or leaves the list is on the host. |
| `NetworkManager.IntentRace` | internal/network/manager.go:123-403 | The whole run of the race: an outsider adds an address after the check found it absent, the intent is saved, the program stops there, and the next start takes the outsider's address off the host. |
| `Host.Host.Save` | internal/network/ownership_store.go:71-115 | An entry may leave the list unless the program has it on the host, so that what it has there stays listed at every moment, whatever outsiders do. The save races exactly when an entry that joins the list is on the host by then; it succeeds only for a valid list. |
| `Host.Host.WaitReady` | internal/network/manager.go:458-468 | Asks once whether the added addresses are ready, and records the question with its answer. |
| `Host.Host.ValidateBindable` | internal/network/manager.go:470-477 | Tries one bind, and records it with its answer. |
| `Host.Host.Visit` | internal/network/manager.go:332-456 | Outsiders may remove and add anything, listed or not: what the program has on the host stays listed, and the turn meddles exactly when it puts something listed on the host. |
| `Host.OneMoreAct` | internal/network/manager.go:195-456 | One more act, of the program or of outsiders, keeps the whole accounting: resources of the program are listed at every moment, every removal of something else is explained, and all moments were good exactly when no save raced and no outsider meddled. |
| `Host.OneMoreExplained` | internal/network/manager.go:195-456 | Each single address or route that is listed on the host without being the program's got there by one recorded act, a save that listed it while present or outsiders who added it while listed, and has been so ever since; so is each one that was wrongly removed. |
| `Host.Host.WrongRemovalWasRaced` | internal/network/manager.go:195-456 | While outsiders add only what is not listed, each removal of a resource the program did not add follows a save that listed this resource while it was on the host. |
| `NetworkManager.CheckedStep` | internal/network/manager.go:147-157 | Checks of one more template leave those of the earlier ones standing, since only its own references were added meanwhile. |
| `NetworkManager.ForeignIsNotOurs` | internal/network/manager.go:332-456 | In an accounted state what is on the host without being listed is exactly what the program did not add. |
| `NetworkManager.ResourceManager.AddressRefs` | internal/network/manager.go:479-500 | Defined exactly for a named interface and a non-empty list inside the prefix; each reference once. |
| `NetworkManager.ResourceManager.InterfaceAddressSets` | internal/network/manager.go:168-193 | What the dump of an interface does not show is not on the host, and an unreadable interface has no entry. |
| `NetworkManager.ResourceManager.FindMissing` | internal/network/manager.go:342-356 | Fails without touching the host when a present address is not owned; otherwise lists exactly the absent ones. |
| `NetworkManager.ResourceManager.AddOwned` | internal/network/manager.go:376-383 | The list grows by exactly the missing addresses, each once. |
| `NetworkManager.ResourceManager.ValidateBindings` | internal/network/manager.go:470-477 | Binds each reference in turn up to the first failure; no failure means that every one was bound. |
| `NetworkManager.ResourceManager.AddAndValidate` | internal/network/manager.go:389-403 | No failure means that the missing references were added, each was waited for after it was added, and every reference of the call was bound after the last addition; a failed wait or bind is a failure, and then the additions are taken back; what could not be taken back stays listed. |
| `NetworkManager.ResourceManager.RollbackAddresses` | internal/network/manager.go:359-374 | Removes what was added in reverse; an address that cannot be removed stays listed, and the old list is restored when all could. |
| `NetworkManager.ResourceManager.ListIntent` | internal/network/manager.go:376-388 | Starting from a good run, and unless outsiders add something listed meanwhile, every moment is still good if and only if none of the addresses being listed is on the host when the intent is saved; the list grows by exactly them. |
| `NetworkManager.ResourceManager.ApplyAddresses` | internal/network/manager.go:332-403 | At every moment and crash point, also after a race, what the program has on the host is listed. Success means that every address was checked after it was added. A single failure leaves host and list as before; without faults it succeeds exactly when nothing foreign is in the way, and repeating it adds, removes and saves nothing. |
| `NetworkManager.ResourceManager.ListRoute` | internal/network/manager.go:439-445 | The same condition for the route being listed. |
| `NetworkManager.ResourceManager.ApplyLocalRoute` | internal/network/manager.go:405-456 | The same for a template's local route. |
| `NetworkManager.ResourceManager.PutRoute` | internal/network/manager.go:446-456 | Adds the listed route unless it is there and binds every reference through it; success means all were bound after the route was there, and a failed bind takes back a route added here. |
| `NetworkManager.ResourceManager.RollbackRoute` | internal/network/manager.go:422-437 | A route that cannot be removed stays listed; otherwise the old list returns. |
| `NetworkManager.ResourceManager.Apply` | internal/network/manager.go:79-101 | By mode: addresses, a route, nothing, or an error; external templates touch nothing. Success means that every address was checked as its mode asks. |
| `NetworkManager.ResourceManager.TakeOffAddresses` | internal/network/manager.go:255-294 | Removes listed addresses only; exactly those that are off the host leave the list. |
| `NetworkManager.ResourceManager.TakeOffRoutes` | internal/network/manager.go:296-330 | Removes listed routes only; exactly those that are off the host leave the list, and every removal is recorded. |
| `NetworkManager.ResourceManager.RemoveStale` | internal/network/manager.go:195-253 | At every moment what the program has on the host is listed; without failure exactly what is not desired is gone, each address and route that left is recorded as removed, with whether the program had added it, and nothing happens when nothing is stale. |
| `NetworkManager.ResourceManager.Release` | internal/network/manager.go:103-121 | All or nothing owned: refuses resources the program does not own, otherwise gives them up. |
| `NetworkManager.ResourceManager.Shutdown` | internal/network/manager.go:159-163 | Without failure nothing of the program's own is left, and everything else is. |
| `NetworkManager.ResourceManager.Desire` | internal/network/manager.go:127-145 | An ill-formed desired list is refused before the host is touched. |
| `NetworkManager.ResourceManager.ApplyAll` | internal/network/manager.go:147-157 | Applies each template in turn; grows the host by no more than the desired set, and without failure every desired address was checked after it was last added. |
| `NetworkManager.ResourceManager.Reconcile` | internal/network/manager.go:123-157 | From any state, raced or not: at every moment what the program has on the host is listed, and each wrong removal is explained by an earlier act on that resource; foreign resources stay. Without failure owned addresses and routes are exactly the desired sets, all on the host and checked to be usable; without faults it succeeds exactly when nothing foreign is in the way; a second call does nothing at all. |
| `DesiredNetwork.DesiredResources` | internal/admin/resource_service.go:386-400 | Lists each template with addresses once, in document order, with its addresses in order. |
| `DesiredNetwork.DesiredIsTheNetwork` | internal/admin/resource_service.go:386-400 | The list is always well formed and asks for exactly the addresses of the address-mode templates and the routes of the used route-mode templates. |
| `DesiredNetwork.OwnershipIsTheRequest` | internal/ipv6resource/store.go:435-444 | In a valid store the ownership of an address is what the host is asked for: an interface address is carried by the host, a routed one is covered by a route, and for an external one neither is asked. |
| `DesiredNetwork.AppliableMeansUnobstructed` | internal/admin/resource_service.go:386-400 | Every resource in the list can be applied exactly when no foreign address or route coincides with the store's network. |
| `DesiredNetwork.ValidIsServable` | internal/admin/resource_service.go:386-400 | A store that satisfies the invariant can always be saved and asked for on the host. |
| `DesiredNetwork.LoadableMeansValid` | internal/admin/resource_service.go:323-338 | For every store the service can hold, being loadable after a save is the same as satisfying the invariant. |
| `ServiceSteps.Mutate` | internal/admin/resource_service.go:115-187 | Each service call changes the private copy as its store operation does, or not at all. |
| `ServiceSteps.AcceptedStep` | internal/admin/resource_service.go:323-338 | After an accepted operation the invariant holds if and only if the operation's own condition does (canonical template, visible name, no counter wrap). |
| `ServiceSteps.StepIsServable` | internal/admin/resource_service.go:323-338 | Whatever the operation, its result can be saved, read back and asked for on the host. |
| `ServiceSteps.RestartAccepts` | internal/admin/resource_service.go:48-73 | A restart after an accepted operation accepts the saved state if and only if that condition holds, and then has the same store. |
| `ServiceDrains.DrainingBatch` | internal/admin/resource_service.go:292-305 | Finds the kind and addresses of the first batch with the identifier, exactly when there is one. |
| `ServiceDrains.IsDrainingAddress` | internal/admin/resource_service.go:307-321 | Says whether the pool drains the address. |
| `ServiceDrains.FirstBatchCompletes` | internal/admin/resource_service.go:215-242 | Completing a pool's first batch always succeeds while only drains have been completed, so the loop over all batches cannot be refused. |
| `ServiceDrains.AddressCompletes` | internal/admin/resource_service.go:248-290 | Completing an address the pool drains always succeeds and takes off that address only. |
| `ServiceDrains.DrainedStaysUnobstructed` | internal/admin/resource_service.go:215-290 | A store that has only drained asks for no more of the host, so nothing new can be in the way. |
| `ResourceService.ResourceCoordinator.Reconcile` | internal/admin/resource_service.go:351-357 | Success means the host realises the document's store; without faults it succeeds exactly when nothing foreign is in the way. |
| `ResourceService.ResourceCoordinator.Compensate` | internal/admin/resource_service.go:353-381 | A successful network compensation makes the host realise the old store whatever partial point the failed call reached; the runtime is asked back only when it had been asked. |
| `ResourceService.ResourceCoordinator.Commit` | internal/admin/resource_service.go:351-384 | Committed: memory, disk, runtime and host all describe the new store. Compensated: memory and disk are untouched. Without faults it commits exactly when nothing foreign is in the way, and a service in step stays in step either way. |
| `ResourceService.ResourceCoordinator.Begin` | internal/admin/resource_service.go:323-349 | Asks whether the state can be written, and otherwise works on a private copy of the store, equal to it. |
| `ResourceService.ResourceCoordinator.Transact` | internal/admin/resource_service.go:323-338 | All or nothing for every operation; a refusal touches nothing; after a failed step with successful compensation everything is in step again if it was before; without faults it commits exactly when the store accepts the operation and the host has room. A commit has asked for writability first, then the runtime, then the save, and each of them succeeded. |
| `ResourceService.ResourceCoordinator.Attempt` | internal/admin/resource_service.go:323-338 | One operation on the private copy: refused exactly when the store refuses it, otherwise all or nothing. |
| `ResourceService.ResourceCoordinator.ChooseAddress` | internal/admin/resource_service.go:127-153 | The requested address, or a free one of the template; with a working entropy source one is found exactly when one is free. |
| `ResourceService.ResourceCoordinator.CreateFixedAddress` | internal/admin/resource_service.go:127-153 | All or nothing, with the requested address or a free one and the ownership of the template's mode; without faults it commits exactly when the template exists, an address is there to use, the store accepts the entry and the host has room. |
| `ResourceService.ResourceCoordinator.ForceDrain` | internal/admin/resource_service.go:187-209 | All or nothing for a batch; connections are terminated exactly once, with the batch's kind and addresses, when the call commits or is compensated, and not otherwise; a termination that fails ends it before anything is committed. |
| `ResourceService.ResourceCoordinator.CompleteAllDrains` | internal/admin/resource_service.go:215-242 | One transaction empties every pool's batches and changes nothing else; never refused; without faults on an unobstructed host it commits or has nothing to do. |
| `ResourceService.ResourceCoordinator.EmptyAllDrains` | internal/admin/resource_service.go:223-240 | The loop over every batch leaves no batch and changes nothing else. |
| `ResourceService.ResourceCoordinator.CompleteDrainedAddresses` | internal/admin/resource_service.go:248-290 | One transaction takes exactly the listed addresses off the pool's batches, skipping those that no longer drain, and has nothing to do exactly when none drains; never refused. |
| `ResourceService.ResourceCoordinator.CompletePending` | internal/admin/resource_service.go:283-289 | Every pending address completes. |
| `ResourceService.ResourceCoordinator.Resume` | internal/admin/resource_service.go:88-101 | At start-up, success puts host and runtime in step with memory and disk. |
| `ResourceService.ResourceCoordinator.Load` | internal/admin/resource_service.go:48-73 | Starts empty without a file, with a readable one exactly when it is accepted, and not at all with an unreadable one. |
| `AgentDocument.PreflightPrunedDependencies` | internal/admin/agent.go:635-661 | Passes exactly when whatever a listed resource needs is listed too. |
| `AgentDocument.PreflightTemplates` | internal/admin/agent.go:667-688 | Passes exactly when names do not repeat, every item can be constructed and no definition differs from the existing one or from another item. |
| `AgentDocument.PreflightFixed` | internal/admin/agent.go:699-723 | Passes exactly when names do not repeat and every item is well formed and agrees with the existing one. |
| `AgentDocument.PreflightPinned` | internal/admin/agent.go:761-777 | Passes exactly when the pinned names do not repeat and are fixed entries of the pool's template. |
| `AgentDocument.CapacityIsTheSize` | internal/admin/agent.go:604-616 | The size of a pool is the listed one, and otherwise the configured one of its kind. |
| `AgentDocument.PreflightPools` | internal/admin/agent.go:745-790 | Passes exactly when names do not repeat and every pool is well formed and agrees with the existing one. |
| `AgentService.FixedTables` | internal/admin/agent.go:689-698 | Entries by name and by address, inverse to each other. |
| `AgentService.PoolTable` | internal/admin/agent.go:724-744 | The existing pools with their pinned addresses turned back into names. |
| `AgentService.PreflightResources` | internal/admin/agent.go:663-792 | No complaint exactly when the document agrees with the current state. |
| `AgentPrune.ChecksPrepare` | internal/admin/agent.go:635-792 | Both checks passing makes any store that satisfies the invariant ready to be pruned. |
| `AgentPrune.PruneFinishesExactly` | internal/admin/agent.go:542-602 | When both checks passed, the deletions of the whole prune, in any order within its three phases, are all accepted if and only if no listed pool uses or drains an unlisted fixed address without pinning it. |
| `AgentPrune.InterleavedPruneIsNeverRefused` | internal/admin/agent.go:542-602 | Under that condition no deletion of the prune is refused, whatever refreshes, drains and deletions of other pools run between its own. |
| `AgentPrune.ExclusiveIsUnshared` | internal/admin/agent.go:542-602 | Exclusive ownership, which every grown store has, implies that condition. |
| `AgentPrune.UnrelatedKeepsPrepared` | internal/admin/agent.go:542-602 | Pool deletions, refreshes and completed drains in between keep it ready. |
| `AgentPrune.UnrelatedKeepsUnshared` | internal/admin/agent.go:542-602 | They also keep the condition: no such operation gives a pool the address of a fixed entry. |
| `AgentPrune.CreationKeepsUnshared` | internal/admin/agent.go:419-472 | Creating a listed item neither establishes nor breaks the condition. |
| `AgentPrune.CreationKeepsPrepared` | internal/admin/agent.go:419-472 | Creating a listed item, refused or not, keeps it ready. |
| `AgentPrune.PoolDeletionIsLegal` | internal/admin/agent.go:562-578 | Deleting any pool is accepted and keeps it ready. |
| `AgentPrune.UnlistedFixedDeletesExactly` | internal/admin/agent.go:579-589 | Once only listed pools are left, deleting an unlisted fixed address is accepted if and only if no pool uses or drains it without pinning it. |
| `AgentPrune.FixedDeletionIsLegal` | internal/admin/agent.go:579-589 | The same during the prune; after an accepted deletion the rest is still ready. |
| `AgentPrune.TemplateDeletionIsLegal` | internal/admin/agent.go:590-600 | Once only listed pools and fixed addresses are left, deleting an unlisted template is accepted. |
| `AgentPrune.UnpinnedFixedBlocksPrune` | internal/admin/agent.go:542-602 | A state the loader accepts in which both checks pass and the condition fails: a fixed address active in a listed pool that does not pin it, whose deletion the store refuses. |
| `AgentService.AgentService.ApplyResources` | internal/admin/agent.go:175-260 | One document from the checks to the prune, with other pool operations in between: refused exactly by the checks and then without any change. When it finishes, every listed template, fixed entry and pool the snapshot lacked is there as listed, but for a pool that somebody else deleted. A refused prune means sharing in the checked store, which no store with exclusive ownership has; without faults, on a host in step, a creation fails only at an item that cannot be created, and with nothing in between it stops in the prune only with sharing and finishes only without. |
| `AgentService.AgentService.Meanwhile` | internal/admin/agent.go:542-602 | Other pool operations, each of which may fail, keep the store ready and unshared and the service in step. |
| `AgentService.AgentService.ApplyResourceCreates` | internal/admin/agent.go:419-472 | Creates exactly the items whose names the snapshot lacks, as the document defines them, changing nothing else; however far it gets, a store that is ready to be pruned stays ready. Without faults, on a host in step, it stops only at a missing item that the store refuses or a foreign resource obstructs. |
| `AgentService.SameStuck` | internal/admin/agent.go:419-472 | What the program itself put on the host before does not change whether an item can be created. |
| `AgentService.AgentService.PruneResources` | internal/admin/agent.go:542-602 | Removes only unlisted resources of the snapshot. A refusal means that a listed pool shares an unlisted fixed address, finishing that none does; without faults on a host in step it finishes exactly in that case, with no unlisted pool or fixed address left, nor an unlisted template of the snapshot. |
| `AgentService.AgentService.PrunePools` | internal/admin/agent.go:553-578 | The first phase: no unlisted pool is left, and pools that vanished meanwhile are skipped. |
| `AgentService.AgentService.PruneFixed` | internal/admin/agent.go:579-589 | The second phase: no unlisted fixed address of the snapshot is left. |
| `AgentService.AgentService.PruneTemplates` | internal/admin/agent.go:590-600 | The third phase: no unlisted template of the snapshot is left. |
| `AgentService.AgentService.Delete` | internal/admin/agent.go:571-598 | Refused only when the store does not accept the deletion; without faults on a host in step, made exactly when it does. |
| `AgentService.DeletionIsUnobstructed` | internal/admin/agent.go:542-602 | A deletion asks for no more of the host, so no foreign resource can stop it. |
| `SourcePool.SourceLease.Attach` | internal/proxy/source_pool.go:151-178 | Only a lease that is neither released nor forced and has no connection takes one; any other connection is closed at once. |
| `SourcePool.SourceLease.Release` | internal/proxy/source_pool.go:180-190 | Takes the lease out of the pool at the first call and does nothing later. |
| `SourcePool.SourceLease.Force` | internal/proxy/source_pool.go:192-214 | Closes the attached connection once and releases the lease whether or not closing reports an error, which it reports. |
| `SourcePool.SourcePool.Acquire` | internal/proxy/source_pool.go:49-63 | Round robin over the current addresses with a counter that wraps at 2^64; the lease joins its address and nothing else changes; a pool at rest stays at rest. |
| `SourcePool.SourcePool.Drop` | internal/proxy/source_pool.go:216-240 | The address is done with its last lease, and is notified only when it was draining. |
| `SourcePool.SourcePool.Replace` | internal/proxy/source_pool.go:65-110 | Refused exactly for an empty or repeating list; leased addresses that leave drain, others are notified at once, draining ones that return are taken over again; a pool at rest stays at rest. |
| `SourcePool.SourcePool.ForceDrain` | internal/proxy/source_pool.go:122-142 | Refused exactly when the address is not draining; otherwise it has no lease afterwards, the connection of each of its leases was closed once and no other, whatever errors the closers report, an error is reported exactly when one did, and the pool is at rest again. |
| `SourcePool.SourcePool.Normalize` | internal/proxy/source_pool.go:242-260 | Accepts exactly non-empty lists without repetition. |
| `SourcePool.DroppingKeepsConsistent` | internal/proxy/source_pool.go:216-240 | Releasing keeps the pool consistent and its balance, and a notified address has no lease and is not current. |
| `SourcePool.ReplacingKeepsConsistent` | internal/proxy/source_pool.go:65-110 | Replacing keeps the pool consistent and its balance, and a notified address has no lease and is not current. |
| `SourcePool.ReplacingLeaves` | internal/proxy/source_pool.go:65-110 | The pool has the addresses in their order and starts over, but goes on where it was when they are the same; exactly what is not listed and was draining, or was current and is leased, drains. |
| `SourcePool.LeavingIsNotified` | internal/proxy/source_pool.go:65-110 | Exactly the addresses that leave without a lease are notified, once each. |
| `SourcePool.ReplacingBalances` | internal/proxy/source_pool.go:65-110 | For every address: times it left equals notifications plus returns plus one while it drains. |
| `SourcePool.DroppingIsDropped` | internal/proxy/source_pool.go:216-240 | Releasing affects the lease's own address only. |
| `PortAllocator.WellTypedReaches` | internal/proxy/port_allocator.go:258-294 | A specification is well typed exactly when a socket of a known protocol and family can be bound to it at all. |
| `PortAllocator.ConflictMeansMeeting` | internal/proxy/port_allocator.go:296-301 | For well-typed endpoints the test finds exactly the pairs that occupy a common socket address (protocol, family, IP, port), a wildcard occupying every IP of its family. |
| `PortAllocator.NormalizeBindSpecs` | internal/proxy/port_allocator.go:258-294 | Accepts exactly non-empty, well-typed lists in which no two specifications reach a common address; otherwise the error is that of the first one that cannot join those before it. |
| `PortAllocator.PositionStep` | internal/proxy/port_allocator.go:168-173 | The successor function steps through the range cyclically. |
| `PortAllocator.RoundVisitsEachPortOnce` | internal/proxy/port_allocator.go:92-125 | As many steps as the range has ports visit each port exactly once, from any starting port. |
| `PortAllocator.ExhaustedMeansNoneFree` | internal/proxy/port_allocator.go:92-125 | After a full round of refusals no port of the range is free for the request. |
| `PortAllocator.HolderJoins` | internal/proxy/port_allocator.go:127-166 | A new reservation with endpoints of its own keeps reserved endpoints equal to the bindings of the reservations. |
| `PortAllocator.HolderGivesUp` | internal/proxy/port_allocator.go:191-256 | Giving endpoints up keeps it so. |
| `PortAllocator.ReservingKeepsApart` | internal/proxy/port_allocator.go:127-166 | Reserving free endpoints keeps every socket address with at most one reserved endpoint. |
| `PortAllocator.SelectionParts` | internal/proxy/port_allocator.go:191-230 | A release parts the bindings into the requested ones and the others, each as often as it was there. |
| `PortAllocator.SelectionKeepsOrder` | internal/proxy/port_allocator.go:191-230 | Both parts keep the order. |
| `PortAllocator.PortAllocator.ReserveCandidate` | internal/proxy/port_allocator.go:127-166 | All specifications at the port or none: each socket is bound where its specification says, and a failure closes every socket it opened. A conflict is reported exactly when a reserved endpoint occupies an address the request needs; without socket faults it succeeds exactly otherwise. |
| `PortAllocator.PortAllocator.Reserve` | internal/proxy/port_allocator.go:92-125 | A requested port is the only one tried; otherwise ports are tried in cyclic order, and the search stops early only on success or cancellation and reports exhaustion only after a full round. |
| `PortAllocator.PortAllocator.Search` | internal/proxy/port_allocator.go:108-125 | The search itself: the tried ports are a prefix of the round, and without socket faults a port is refused exactly when it is not free. |
| `PortAllocator.PortAllocator.BindAll` | internal/proxy/port_allocator.go:142-161 | Opens every endpoint on a socket of its own, bound there, or leaves the open sockets as they were. |
| `PortAllocator.PortAllocator.CloseAll` | internal/proxy/port_allocator.go:145-157 | Closes all of them whatever errors occur. |
| `PortAllocator.PortReservation.ReleaseEndpoints` | internal/proxy/port_allocator.go:191-230 | Gives up exactly the requested endpoints it holds and closes their sockets; nothing on a closed reservation. |
| `PortAllocator.PortReservation.Close` | internal/proxy/port_allocator.go:232-256 | Gives up everything once; later calls do nothing. |
| `Firewall.RulesAreCalledFor` | internal/node/firewall_coordinator.go:47-210 | Over every run from a new coordinator, whatever the firewall refuses: a rule is in force if and only if the answered calls call for it. Those are the management endpoints always, the endpoints of each node's last successful open until that very list is closed, and the relay range where an association is outstanding. |
| `Firewall.NodeEndpointsAreListed` | internal/node/firewall_coordinator.go:70-107 | The table holds for each node what its last successful open listed, unless a close of the same endpoints followed. |
| `Firewall.RangeOpenMeansOutstanding` | internal/node/firewall_coordinator.go:109-210 | Over every run from a new coordinator, whatever the firewall refuses: the relay range is open on an address if and only if the answered opens and closes leave an association there outstanding, so a refused last close leaves it open. |
| `Firewall.CountIsOutstanding` | internal/node/firewall_coordinator.go:109-153 | The table counts exactly the associations that the answers of the calls leave outstanding. |
| `Firewall.OutstandingIsBalance` | internal/node/firewall_coordinator.go:109-153 | Without closes that have nothing to end, outstanding is successful opens minus successful closes. |
| `Firewall.RangeOpenMeansAssociated` | internal/node/firewall_coordinator.go:161-210 | In any valid state the running rules open the relay range on an address if and only if the table counts an association there. |
| `Firewall.CallKeepsValid` | internal/node/firewall_coordinator.go:70-153 | Whatever the firewall answers, the running rules are those of the coordinator's tables. |
| `Firewall.FastStep` | internal/node/firewall_coordinator.go:109-153 | A skipped rewrite is a full rewrite taken as successful. |
| `Firewall.FastRefinesSimple` | internal/node/firewall_coordinator.go:70-153 | Over every run with failing replacements, the coordinator that skips rewrites equals the one that recomputes the rules on every call. |
| `Firewall.AcceptableMeansBindable` | internal/node/firewall_coordinator.go:212-245 | A TCP or UDP endpoint passes the check exactly when its port is not zero and a socket of that protocol can be bound to it at all. |
| `Firewall.NormalizeEndpoints` | internal/node/firewall_coordinator.go:212-245 | Accepts exactly acceptable endpoints without repetition. |
| `Firewall.FirewallCoordinator.Create` | internal/node/firewall_coordinator.go:47-68 | Exists only after the firewall took the initial rules, and exactly for valid arguments when it does not fail. |
| `Firewall.FirewallCoordinator.OpenNode` | internal/node/firewall_coordinator.go:70-87 | The coordinator's step, or an exactly characterised refusal that changes nothing; without a failing firewall every acceptable call is carried out. |
| `Firewall.FirewallCoordinator.CloseNode` | internal/node/firewall_coordinator.go:89-107 | The same; a request for endpoints that are not the open ones is ignored. |
| `Firewall.FirewallCoordinator.Open` | internal/node/firewall_coordinator.go:109-128 | The same for an association; one that joins others cannot be refused by the firewall. |
| `Firewall.FirewallCoordinator.Close` | internal/node/firewall_coordinator.go:130-153 | The same for its end; one that is not the last cannot be refused by the firewall. |
| `Watchdog.HappenKeepsBacked` | internal/app/watchdog.go:117-238 | A round or a new process keeps the guard up while a restart is outstanding and every count backed by failed probes. |
| `Watchdog.NoSecondRestart` | internal/app/watchdog.go:117-238 | In every run over any number of processes no restart is requested while an earlier successful one is neither answered by a healthy probe nor by an empty target list. |
| `Watchdog.AttemptsHaveEvidence` | internal/app/watchdog.go:117-238 | Every attempt follows at least the threshold of failed probes of each current target since evidence last began. |
| `Watchdog.RunIsRecorded` | internal/app/watchdog.go:117-238 | Over every run from any start: the saved guard is up exactly when the events say so (a restart sets it, its failure or a recovery or an empty target list takes it down), and attempts of one process are at least the pause apart. |
| `Watchdog.NextRound` | internal/app/watchdog.go:117-259 | After every run: a healthy probe lifts the guard if the file can be removed, and so does an empty target list; an attempt comes exactly when the probe fails, the events leave no guard, the pause is over and this failure brings every target to the threshold; the restart is then called exactly when it is possible and its mark was saved. |
| `Watchdog.EvenRound` | internal/app/watchdog.go:176-259 | With fixed targets and failing probes the counts never differ by more than one. |
| `Watchdog.TotalAtThreshold` | internal/app/watchdog.go:261-269 | Counts bounded by the threshold add up to all of it exactly when each is at it. |
| `Watchdog.RestartComesExactly` | internal/app/watchdog.go:117-269 | With n distinct targets, no guard, no pause and failing probes the attempt comes at probe n times the threshold, for every random choice. |
| `Watchdog.Watchdog.DropRemovedTargets` | internal/app/watchdog.go:271-283 | Forgets exactly the targets that are gone. |
| `Watchdog.Watchdog.SelectTarget` | internal/app/watchdog.go:240-259 | The running minimum collects exactly the targets with the fewest failures, in order. |
| `Watchdog.Watchdog.AllTargetsFailedAtThreshold` | internal/app/watchdog.go:261-269 | Holds exactly when every target has reached the threshold. |
| `Watchdog.Watchdog.ProbeOnce` | internal/app/watchdog.go:117-238 | One call is one round: state, saved guard and events. |
| `Watchdog.Watchdog.HandleFailure` | internal/app/watchdog.go:176-238 | The failing half of a round. |
| `NodeManager.FolderNames` | internal/node/manager.go:155-172 | Folder names are exactly those of at most 64 characters without control characters, apart from the space around them. |
| `NodeManager.NormalizedFolderIsStable` | internal/node/manager.go:155-172 | Normalising a normal folder name changes nothing. |
| `NodeManager.AllowedConfigs` | internal/node/manager.go:237-247 | A configuration is allowed exactly when identifier and name are visible, its folder is acceptable, the other fields pass, and a missing user name is confirmed; it is stored with the space around the folder taken off. |
| `NodeManager.Manager.Create` | internal/node/manager.go:237-264 | One new running node with its own runtime, which serves its settings, and an assigned port, or nothing changes; without runtime faults it succeeds exactly for an acceptable, new configuration below the limit. |
| `NodeManager.Manager.NormalizeBatch` | internal/node/manager.go:266-310 | Accepts exactly batches of 1 to 100 in one named folder with distinct identifiers, names and non-zero ports. |
| `NodeManager.Manager.CreateBatch` | internal/node/manager.go:266-346 | All of the batch or, when the rollback calls succeed, nothing; existing nodes are never touched; without runtime faults it succeeds exactly under the stated conditions. |
| `NodeManager.Manager.StartBatch` | internal/node/manager.go:328-345 | The loop of starts and its rollback. |
| `NodeManager.Manager.RollbackBatch` | internal/node/manager.go:354-379 | Removes exactly the batch when every call succeeds and never touches another node. |
| `NodeManager.Manager.DropStopped` | internal/node/manager.go:530-551 | Deletes the dedicated pool of a stopped node and then drops it; a pool that cannot be deleted leaves it in the table. Every deletion is recorded. |
| `NodeManager.Manager.RemoveNode` | internal/node/manager.go:360-377 | Stops, deletes the dedicated pool and drops the node; a failure leaves it in the table. |
| `NodeManager.Manager.Update` | internal/node/manager.go:381-428 | Settings replaced, identity and running state kept; a failure other than the clean-up of the previous runtime changes nothing. On success the live runtimes are the earlier ones without the node's previous one and with the one it has now, which serves the new settings. |
| `NodeManager.Manager.ReplaceRuntime` | internal/node/manager.go:400-427 | The running node gets a runtime that serves the new settings, and only its own previous one is stopped. |
| `NodeManager.Manager.Start` | internal/node/manager.go:430-448 | Runs the node, leaving a running one alone; a failure changes nothing and comes, unless the call is cancelled, only for an unknown node or after all the attempts. |
| `NodeManager.Manager.StartWithRetry` | internal/node/manager.go:702-724 | At most one runtime comes out of the attempts, and none is left behind; the factory is called at most the configured number of times, and exactly so often before an uncancelled call gives up. |
| `NodeManager.Manager.Stop` | internal/node/manager.go:450-466 | Stops the node's own runtime; a failure changes nothing. |
| `NodeManager.Manager.MoveToFolder` | internal/node/manager.go:468-484 | Changes the folder only. |
| `NodeManager.Manager.RenameFolder` | internal/node/manager.go:486-528 | Succeeds exactly when the source is used and the target is the same or unused; moves exactly the nodes of the source. |
| `NodeManager.RenameUndoes` | internal/node/manager.go:486-528 | Renaming back is then possible and restores the table exactly. |
| `NodeManager.Manager.Detach` | internal/node/manager.go:553-567 | Stops and drops the node, leaving its pool and room for it. |
| `NodeManager.Manager.RestoreNode` | internal/node/manager.go:569-593 | Puts a node back as the snapshot has it, up to an assigned port. |
| `NodeManager.Manager.Delete` | internal/node/manager.go:530-551 | Drops the node after its runtime and its dedicated pool are gone; a failure leaves every other node alone. |
| `NodeManager.Manager.NormalizeState` | internal/node/state_store.go:307-332 | Accepts exactly valid states without a repeated identifier. |
| `NodeManager.Manager.Restore` | internal/node/manager.go:630-700 | At most the configured attempts and at most one successful start per desired-running node, counted at the factory's start calls; unless cancelled, a node is given up only after all of them; stopped nodes are never started; exactly the runtimes of the table come to live; succeeds if and only if every desired-running node runs. |
| `NodeManager.Manager.TryRounds` | internal/node/manager.go:650-700 | The rounds of attempts: ends with the promise of the restore for the nodes that are to run. |
| `NodeManager.Manager.TryOne` | internal/node/manager.go:660-680 | One counted start call; a success puts its runtime into the table and among the live ones, a failure changes nothing. |
| `NodeManager.Manager.TryAll` | internal/node/manager.go:659-681 | One round calls the factory once for each node it tries, every pending one unless cancelled, starts some of them and returns exactly the others. |
| `NodeManager.TriedToTheEnd` | internal/node/manager.go:630-700 | Rounds of this kind add up to the promise of the restore. |
| `NodeManager.Manager.Shutdown` | internal/node/manager.go:743-766 | Succeeds exactly when no node is left running; settings stay. |
| `PersistentNodes.PersistentManager.Create` | internal/node/persistent.go:53-65 | Done: saved state equals the table, which gained this node. Not saved but undone: table and runtimes as before. Undone whenever runtimes do not fail. |
| `PersistentNodes.PersistentManager.CreateBatch` | internal/node/persistent.go:67-83 | The same for a batch. |
| `PersistentNodes.PersistentManager.Update` | internal/node/persistent.go:85-103 | The same up to an assigned port; exactly as before for a stopped node. |
| `PersistentNodes.PersistentManager.Start` | internal/node/persistent.go:105-117 | Done: saved state equals the table. Not saved but undone: the table is as before if and only if the node was stopped at the call. |
| `PersistentNodes.PersistentManager.Stop` | internal/node/persistent.go:119-138 | As at the call, up to a port, when the save fails and the node can be started again. |
| `PersistentNodes.PersistentManager.MoveToFolder` | internal/node/persistent.go:140-156 | The compensating move always succeeds and is exact. |
| `PersistentNodes.PersistentManager.RenameFolder` | internal/node/persistent.go:158-170 | The compensating rename always succeeds and is exact. |
| `PersistentNodes.PersistentManager.Reattach` | internal/node/persistent.go:172-197 | Puts a detached node back, as it was up to a port or stopped; a failure changes nothing, and without runtime faults there is none. |
| `PersistentNodes.PersistentManager.Delete` | internal/node/persistent.go:172-197 | Done: the node is gone and saved. Not saved but undone: as before up to a port. A pool that cannot be deleted puts the node back, stopped. |
| `PersistentNodes.PersistentManager.Restore` | internal/node/persistent.go:33-51 | Reads the file that was saved. An unreadable file or a second restore changes nothing; otherwise it counts as the one restore unless it failed before any node was taken over, with the promise of the manager's restore for the nodes of the file. |
| `PersistentNodes.PersistentManager.SaveTable` | internal/node/persistent.go:53-65 | The file then lists exactly the table, in the order of identifiers; only a failing disk can refuse, never the checks. |
| `PersistentNodes.ListingReadsBack` | internal/node/state_store.go:307-332 | What any table is saved as passes the checks of a load and is read back as the same nodes. |
| `PersistentNodes.PersistentManager.Shutdown` | internal/node/persistent.go:223-233 | Saves the state as it was before the nodes were stopped. |
| `PersistentNodes.StartThenStopLosesRunningNode` | internal/node/persistent.go:105-117 | The compensation of a start that found the node running leaves a different table, for every such node. |
| `PersistentNodes.RestartKeepsTable` | internal/node/persistent.go:33-51 | A restart from the saved file that brings every running node up leaves the table as it was, up to ports. |
| `ResolverCache.ClampTtl` | internal/dns64/resolver.go:330-338 | Between 30 and 600 seconds, and unchanged inside that range. |
| `ResolverCache.Resolver.NewResolver` | internal/dns64/resolver.go:88-106 | A resolver exists exactly for endpoints that pass the check, with an empty cache. |
| `ResolverCache.Resolver.UpdateEndpoints` | internal/dns64/resolver.go:114-123 | Endpoints that pass the check start the cache over; others change nothing. |
| `ResolverCache.Resolver.ValidateEndpoints` | internal/dns64/resolver.go:356-366 | Passes exactly non-empty lists of valid endpoints. |
| `ResolverCache.Resolver.Peek` | internal/dns64/resolver.go:185-195 | Answers exactly for an entry that has not expired. |
| `ResolverCache.Resolver.BeginLookup` | internal/dns64/resolver.go:224-233 | One query per key at a time: a second caller joins the first one's. |
| `ResolverCache.Resolver.QueryEndpoints` | internal/dns64/resolver.go:237-258 | The first endpoint that answers decides, with a bounded lifetime. |
| `ResolverCache.Resolver.FinishLookup` | internal/dns64/resolver.go:197-220 | The new entry is cached, the cache stays within its limit, and the query is over. |
| `ResolverCache.Resolver.Evict` | internal/dns64/resolver.go:263-289 | Ends; keeps the new entry and the limit; no victim expires later than another survivor; a fresh entry goes only when the cache is full without it. |
| `ResolverCache.Resolver.DropExpired` | internal/dns64/resolver.go:266-272 | Exactly the expired entries go, except the new one. |
| `ResolverCache.Resolver.Soonest` | internal/dns64/resolver.go:273-288 | The victim is another entry that expires no later than any other. |
| `LoginLimiter.PruneBefore` | internal/auth/limiter.go:72-78 | Dropping the leading old times of a sorted list is the filter of all old times. |
| `LoginLimiter.AfterTwice` | internal/auth/limiter.go:51-62 | Pruning at an earlier cutoff does not matter to a later one. |
| `LoginLimiter.PruningStands` | internal/auth/limiter.go:51-62 | A pruned list stands for the full history at every later cutoff. |
| `LoginLimiter.RecordingStands` | internal/auth/limiter.go:35-43 | Recording a failure on both keeps it so. |
| `LoginLimiter.LoginLimiter.Prune` | internal/auth/limiter.go:51-62 | Both kinds of list become the filtered full history. |
| `LoginLimiter.LoginLimiter.Allow` | internal/auth/limiter.go:28-33 | Answers exactly as filtering the full failure history would, for every clock that does not go back. |
| `LoginLimiter.LoginLimiter.RecordFailure` | internal/auth/limiter.go:35-43 | Adds one failure to the source and to the total. |
| `LoginLimiter.LoginLimiter.Reset` | internal/auth/limiter.go:45-49 | Forgets the source's failures, not their share of the total. |

## Left out

- Store.Store.AddTemplate: when a set of templates holds both a template of the same name and an overlapping one, which of the two errors is reported depends on the map order in the program; the contract allows either.
- RandomAddresses.RandomAddress: keeping the network bits and taking the host bits from the random bytes is arithmetic on the address as a number.
- AgentService.AgentService.PruneResources: in the method other clients act before the prune but not between its own deletions; `AgentPrune.InterleavedPruneIsNeverRefused` has them in between, on stores as values.
- AgentService.AgentService.ApplyResources: what other clients do meanwhile is operations on pools; the list of completed steps in the answer, dry runs, and the settings, network and node parts of a document are not modelled.
- SourcePool.SourcePool.ForceDrain: one uninterrupted call, as every other call of the pool, so no release or second force runs inside it (`Resting`, which every call keeps); callbacks are counted when they are decided, not when they are made.
- NodeManager.Manager.Create: the field checks of a configuration that look at nothing else are one predicate of the configuration (`Details.acceptable`).
- ResolverCache.Resolver.FinishLookup: the joining callers' wait and their cancellation are not modelled.
- Firewall.NormalizeEndpoints: lists of endpoints and of rules are sets; their order is not modelled.
- IPv4, IPv4-mapped and zoned addresses in resources: the store holds native IPv6 addresses only.
- Text, YAML and JSON encodings, temporary files and renames: a document is a value and a save is one step.
- Error texts and joined errors: an error is its kind, or only the fact that there was one.
- Replacing a store's state in place, snapshots and defensive copies: values are immutable here.
- Concurrency: one locked region is one step, and several locked regions of one call are consecutive steps.
- Netlink, nftables, sockets, TLS and DNS transport: oracles, as described above.
- HTTP, server-sent events, the command line, the user interface and the start-up wiring.
- Listener runtimes, inbound binding refreshes and forced inbound drains of nodes.
- The node and network parts of agent documents, and credentials.
- DNS name normalisation, address synthesis and destination policy.
- Progress of drains over time: the tracker forgets earlier progress on each synchronisation, so that every drain ends is not what the code promises.
- Session tokens, statistics, health tracking, generated names: easy properties only.
