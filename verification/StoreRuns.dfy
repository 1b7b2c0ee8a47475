/** Whole runs of the store: both invariants hold in every state grown from `NewStore`,
    and the walk hands out addresses at strictly increasing positions. */
module StoreRuns {
  import opened Names
  import opened Prefixes
  import opened Walk
  import opened DrainIds
  import opened StoreModel
  import opened StoreInvariant
  import opened StoreOwnership
  import opened StateDocument

  datatype Op =
    | AddTemplateOp(template: PrefixTemplate)
    | DeleteTemplateOp(name: Name)
    | CreateFixedOp(name: Name, templateName: Name, address: Address, ownership: Ownership)
    | DeleteFixedOp(name: Name)
    | CreatePoolOp(name: Name, kind: PoolKind, templateName: Name, capacity: int, pinned: seq<Name>)
    | RefreshPoolOp(name: Name)
    | DeletePoolOp(name: Name)
    | CompleteDrainOp(pool: Name, id: string)
    | CompleteDrainedAddressOp(pool: Name, address: Address)
    | RestartOp

  /** The state after one committed operation; a refused operation changes nothing, and a
      restart saves the state and loads it again. */
  ghost function Step(s: StoreState, op: Op): StoreState {
    match op
    case AddTemplateOp(t) => if Admissible(s, t) then WithTemplate(s, t) else s
    case DeleteTemplateOp(n) => After(s, DeleteTemplate(s, n))
    case CreateFixedOp(n, t, a, o) => After(s, CreateFixedAddress(s, n, t, a, o))
    case DeleteFixedOp(n) => After(s, DeleteFixedAddress(s, n))
    case CreatePoolOp(n, k, t, c, p) => After(s, CreatePool(s, n, k, t, c, p))
    case RefreshPoolOp(n) =>
      if n in s.pools && s.pools[n].template in s.templates then After(s, RefreshPool(s, n)) else s
    case DeletePoolOp(n) => After(s, DeletePool(s, n))
    case CompleteDrainOp(n, id) => After(s, CompleteDrain(s, n, id))
    case CompleteDrainedAddressOp(n, a) => After(s, CompleteDrainedAddress(s, n, a))
    case RestartOp => Loaded(Saved(s))
  }

  function After(s: StoreState, outcome: Outcome): StoreState {
    match outcome
    case Ok(next) => next
    case Err(_) => s
  }

  ghost function Run(s: StoreState, ops: seq<Op>): StoreState
    decreases |ops|
  {
    if ops == [] then s else Run(Step(s, ops[0]), ops[1..])
  }

  /** Templates come from the constructor and names are not blank. */
  predicate WellFormed(op: Op) {
    match op
    case AddTemplateOp(t) => Canonical(t)
    case CreateFixedOp(n, _, _, _) => !Blank(n)
    case CreatePoolOp(n, _, _, _, _) => !Blank(n)
    case _ => true
  }

  // ---- both invariants along every run ----

  lemma StepKeepsValid(s: StoreState, op: Op)
    requires Valid(s) && WellFormed(op) && s.nextBatch + 1 < UINT64_LIMIT
    ensures Valid(Step(s, op)) && Step(s, op).nextBatch <= s.nextBatch + 1
  {
    hide Valid, Canonical, Blank, Saved, Loaded, Difference, Admissible, DeleteTemplate, CreateFixedAddress;
    hide DeleteFixedAddress, CreatePool, DeletePool, CompleteDrain, CompleteDrainedAddress;
    BatchCounterStep(s, op);
    match op {
      case AddTemplateOp(t) =>
        if Admissible(s, t) { AddTemplateKeepsValid(s, t); }
      case DeleteTemplateOp(n) =>
        if DeleteTemplate(s, n).Ok? { DeleteTemplateKeepsValid(s, n); }
      case CreateFixedOp(n, t, a, o) =>
        if CreateFixedAddress(s, n, t, a, o).Ok? { CreateFixedAddressKeepsValid(s, n, t, a, o); }
      case DeleteFixedOp(n) =>
        if DeleteFixedAddress(s, n).Ok? { DeleteFixedAddressKeepsValid(s, n); }
      case CreatePoolOp(n, k, t, c, p) =>
        if CreatePool(s, n, k, t, c, p).Ok? { CreatePoolKeepsValid(s, n, k, t, c, p); }
      case RefreshPoolOp(n) =>
        if n in s.pools && s.pools[n].template in s.templates && RefreshPool(s, n).Ok? { RefreshPoolKeepsValid(s, n); }
      case DeletePoolOp(n) =>
        if DeletePool(s, n).Ok? { DeletePoolKeepsValid(s, n); }
      case CompleteDrainOp(n, id) =>
        if CompleteDrain(s, n, id).Ok? { CompleteDrainKeepsValid(s, n, id); }
      case CompleteDrainedAddressOp(n, a) =>
        if CompleteDrainedAddress(s, n, a).Ok? { CompleteDrainedAddressKeepsValid(s, n, a); }
      case RestartOp =>
        SaveThenLoad(s);
    }
  }

  lemma BatchCounterStep(s: StoreState, op: Op)
    requires Valid(s) && s.nextBatch + 1 < UINT64_LIMIT
    ensures Step(s, op).nextBatch <= s.nextBatch + 1
  {
    hide Valid, Saved, Loaded, CreatePool, RefreshPool, Release, WithoutDraining, BatchIndex, TemplateInUse, Admissible;
    hide Flat;
    match op {
      case RestartOp => SaveThenLoad(s);
      case CreatePoolOp(n, k, t, c, p) => CreatePoolBasics(s, n, k, t, c, p);
      case RefreshPoolOp(n) => if n in s.pools && s.pools[n].template in s.templates { RefreshPoolBasics(s, n); }
      case _ =>
    }
  }

  /** The parts of a created pool's store that the walk and the batch counter depend on. */
  lemma CreatePoolBasics(s: StoreState, n: Name, k: PoolKind, t: Name, c: int, p: seq<Name>)
    ensures CreatePool(s, n, k, t, c, p).Ok? ==>
      var next := CreatePool(s, n, k, t, c, p).value;
      && next.nextBatch == s.nextBatch && next.templates == s.templates && t in s.templates
      && ResolvePinned(s, t, p).Ok? && Generate(s, t, c - |ResolvePinned(s, t, p).value|).Some?
      && next.cursors == Advance(s, t, Generate(s, t, c - |ResolvePinned(s, t, p).value|).value)
  {
    hide ResolvePinned, Generate, Allocate, Reference, Advance;
  }

  lemma RefreshPoolBasics(s: StoreState, n: Name)
    requires n in s.pools && s.pools[n].template in s.templates
    ensures RefreshPool(s, n).Ok? ==>
      var next, g := RefreshPool(s, n).value,
                     Generate(s, s.pools[n].template, s.pools[n].capacity - |s.pools[n].pinned|);
      && next.nextBatch <= s.nextBatch + 1 && next.templates == s.templates
      && g.Some? && next.cursors == Advance(s, s.pools[n].template, g.value)
  {
    hide Generate, Allocate, Advance, Difference;
  }

  lemma DeleteTemplateKeepsExclusive(s: StoreState, n: Name)
    requires Exclusive(s) && DeleteTemplate(s, n).Ok?
    ensures Exclusive(DeleteTemplate(s, n).value)
  {
    hide Exclusive, TemplateInUse;
    TemplateChangesKeepExclusive(s, DeleteTemplate(s, n).value);
  }

  lemma StepKeepsExclusive(s: StoreState, op: Op)
    requires Valid(s) && Exclusive(s)
    ensures Exclusive(Step(s, op))
  {
    hide Valid, Exclusive, DeleteTemplate, CreateFixedAddress, DeleteFixedAddress, CreatePool, RefreshPool, DeletePool;
    hide CompleteDrain, CompleteDrainedAddress, Admissible, Saved, Loaded;
    match op {
      case AddTemplateOp(t) =>
        if Admissible(s, t) { TemplateChangesKeepExclusive(s, WithTemplate(s, t)); }
      case DeleteTemplateOp(n) =>
        if DeleteTemplate(s, n).Ok? { DeleteTemplateKeepsExclusive(s, n); }
      case CreateFixedOp(n, t, a, o) =>
        if CreateFixedAddress(s, n, t, a, o).Ok? { CreateFixedAddressKeepsExclusive(s, n, t, a, o); }
      case DeleteFixedOp(n) =>
        if DeleteFixedAddress(s, n).Ok? { DeleteFixedAddressKeepsExclusive(s, n); }
      case CreatePoolOp(n, k, t, c, p) =>
        if CreatePool(s, n, k, t, c, p).Ok? { CreatePoolKeepsExclusive(s, n, k, t, c, p); }
      case RefreshPoolOp(n) =>
        if n in s.pools && s.pools[n].template in s.templates && RefreshPool(s, n).Ok? {
          RefreshPoolKeepsExclusive(s, n);
        }
      case DeletePoolOp(n) =>
        if DeletePool(s, n).Ok? { DeletePoolKeepsExclusive(s, n); }
      case CompleteDrainOp(n, id) =>
        if CompleteDrain(s, n, id).Ok? { CompleteDrainKeepsExclusive(s, n, id); }
      case CompleteDrainedAddressOp(n, a) =>
        if CompleteDrainedAddress(s, n, a).Ok? { CompleteDrainedAddressKeepsExclusive(s, n, a); }
      case RestartOp =>
        SaveThenLoad(s);
    }
  }

  lemma {:induction false} RunKeepsInvariants(s: StoreState, ops: seq<Op>)
    requires Valid(s) && Exclusive(s) && s.nextBatch + |ops| < UINT64_LIMIT
    requires forall i :: 0 <= i < |ops| ==> WellFormed(ops[i])
    ensures Valid(Run(s, ops)) && Exclusive(Run(s, ops))
    decreases |ops|
  {
    hide Valid, Exclusive, Step;
    if ops != [] {
      StepKeepsValid(s, ops[0]);
      StepKeepsExclusive(s, ops[0]);
      RunKeepsInvariants(Step(s, ops[0]), ops[1..]);
    }
  }

  lemma NewStoreIsValid()
    ensures Valid(EMPTY_STORE) && Exclusive(EMPTY_STORE)
  {
    var s := EMPTY_STORE;
    forall a: Address ensures References(s.addresses, a) == ExpectedReferences(s.fixed, s.pools, a) {
      assert FixedUses(s.fixed, a) == {} && PinnedUses(s.pools, a) == {} && AutomaticUses(s.pools, a) == {}
             && DrainingUses(s.pools, a) == {};
    }
  }

  /** In every state grown from `NewStore`: the loader accepts it, and each automatic or draining
      address has one holder, no fixed entry and one reference. */
  lemma GrownStoresAreExclusive(ops: seq<Op>)
    requires |ops| < UINT64_LIMIT && forall i :: 0 <= i < |ops| ==> WellFormed(ops[i])
    ensures var s := Run(EMPTY_STORE, ops);
      && Valid(s)
      && forall n, a :: n in s.pools && a in Owned(s.pools[n]) ==>
           && References(s.addresses, a) == 1
           && (forall f :: f in s.fixed ==> s.fixed[f].address != a)
           && (forall m :: m in s.pools && a in Held(s.pools[m]) ==> m == n)
  {
    hide Valid, Exclusive, Run, Owned, Held, References;
    NewStoreIsValid();
    RunKeepsInvariants(EMPTY_STORE, ops);
    var s := Run(EMPTY_STORE, ops);
    OwnedAddressesAreSolelyHeld(s);
  }

  lemma OwnedAddressesAreSolelyHeld(s: StoreState)
    requires Valid(s) && Exclusive(s)
    ensures forall n, a :: n in s.pools && a in Owned(s.pools[n]) ==>
           && References(s.addresses, a) == 1
           && (forall f :: f in s.fixed ==> s.fixed[f].address != a)
           && (forall m :: m in s.pools && a in Held(s.pools[m]) ==> m == n)
  {
    hide Valid, Owned, Held;
    forall n, a | n in s.pools && a in Owned(s.pools[n])
      ensures References(s.addresses, a) == 1
      ensures forall f :: f in s.fixed ==> s.fixed[f].address != a
      ensures forall m :: m in s.pools && a in Held(s.pools[m]) ==> m == n {
      assert SoleUse(s, a);
      forall f | f in s.fixed ensures s.fixed[f].address != a {
        assert f !in FixedUses(s.fixed, a);
      }
      forall m | m in s.pools && a in Held(s.pools[m]) ensures m == n {
        OwnerIsUnique(s, n, m, a);
      }
    }
  }

  // ---- the walk along a run ----

  /** An address handed out at an unwrapped position of the walk. */
  datatype Handout = Handout(address: Address, at: nat)

  /** A run as seen from one template: the store, the unwrapped position of its walk, and
      everything it has handed out. */
  datatype Track = Track(state: StoreState, position: nat, log: seq<Handout>)

  /** The automatic addresses an operation takes from template `t`. */
  ghost function HandedOut(s: StoreState, t: Name, op: Op): seq<Address> {
    match op
    case CreatePoolOp(n, k, tn, c, p) =>
      if tn == t && t in s.templates && CreatePool(s, n, k, t, c, p).Ok? then
        Generate(s, t, c - |ResolvePinned(s, t, p).value|).value
      else []
    case RefreshPoolOp(n) =>
      if n in s.pools && s.pools[n].template == t && t in s.templates && RefreshPool(s, n).Ok? then
        Generate(s, t, s.pools[n].capacity - |s.pools[n].pinned|).value
      else []
    case _ => []
  }

  ghost function WalkBegin(s: StoreState, t: Name): (begin: Address)
    requires t in s.templates
    ensures s.templates[t].prefix.Contains(begin)
  {
    Begin(s.templates[t].prefix, CursorOf(s, s.templates[t].prefix))
  }

  ghost function Stamp(p: Prefix, begin: Address, position: nat, addresses: seq<Address>): (log: seq<Handout>)
    requires p.Contains(begin) && forall a :: a in addresses ==> p.Contains(a)
    ensures |log| == |addresses|
    ensures forall i :: 0 <= i < |log| ==> log[i] == Handout(addresses[i], position + Offset(p, begin, addresses[i]))
  {
    seq(|addresses|, i requires 0 <= i < |addresses| => Handout(addresses[i],
                                                                position + Offset(p, begin, addresses[i])))
  }

  ghost function TrackStep(track: Track, t: Name, op: Op): Track
    requires Valid(track.state) && t in track.state.templates
  {
    var s := track.state;
    var p, begin, addresses := s.templates[t].prefix, WalkBegin(s, t), HandedOut(s, t, op);
    HandedOutIsAWalk(s, t, op);
    Track(Step(s, op),
          if addresses == [] then track.position else track.position + Offset(p, begin, addresses[|addresses| - 1]) + 1,
          track.log + Stamp(p, begin, track.position, addresses))
  }

  lemma HandedOutIsAWalk(s: StoreState, t: Name, op: Op)
    requires t in s.templates
    ensures var addresses := HandedOut(s, t, op);
      && (forall a :: a in addresses ==> s.templates[t].prefix.Contains(a))
      && IsWalk(s.templates[t].prefix, WalkBegin(s, t), s.addresses.Keys, addresses)
  {
    hide Prefix.Contains, Offset;
  }

  /** The log is in step with the walk: positions strictly increase, each lies before the current
      position, and position modulo the prefix size tells the address. */
  ghost predicate Tracks(track: Track, t: Name, p: Prefix) {
    && t in track.state.templates && track.state.templates[t].prefix == p
    && WalkBegin(track.state, t) == p.Base() + track.position % p.Size()
    && (forall i :: 0 <= i < |track.log| ==>
          track.log[i].at < track.position && track.log[i].address == p.Base() + track.log[i].at % p.Size())
    && (forall i, j :: 0 <= i < j < |track.log| ==> track.log[i].at < track.log[j].at)
  }

  lemma ModAfter(position: nat, d: nat, m: nat)
    requires m >= 1 && d <= m
    ensures (position + d) % m == if position % m + d < m then position % m + d else position % m + d - m
  {
    var q, r := position / m, position % m;
    ModBounds(position, m);
    if r + d < m {
      QuotientIsUnique(position + d, m, q, r + d);
    } else {
      assert (q + 1) * m == q * m + m;
      QuotientIsUnique(position + d, m, q + 1, r + d - m);
    }
    ModBounds(position + d, m);
  }

  /** Offsets from the walk's start are distances on the unwrapped line. */
  lemma OffsetIsDistance(p: Prefix, begin: Address, position: nat, a: Address)
    requires p.Contains(begin) && p.Contains(a) && begin == p.Base() + position % p.Size()
    ensures a == p.Base() + (position + Offset(p, begin, a)) % p.Size()
    ensures NextWithin(p, a) == p.Base() + (position + Offset(p, begin, a) + 1) % p.Size()
    ensures p.Contains(NextWithin(p, a))
  {
    hide Prefix.Base, Prefix.Size;
    var o := Offset(p, begin, a);
    OffsetsAreFaithful(p, begin, a);
    PrefixFits(p);
    ModAfter(position, o, p.Size());
    ModAfter(position, o + 1, p.Size());
    NextWithinAdvances(p, begin, a);
  }

  /** What an operation leaves of the template and its cursor. */
  lemma StepMovesCursor(s: StoreState, t: Name, op: Op)
    requires Valid(s) && t in s.templates && t in Step(s, op).templates
    ensures CursorMoved(s, t, op, Step(s, op))
  {
    OtherPrefixesDiffer(s, t);
    if op.CreatePoolOp? {
      CreateMovesCursor(s, t, op);
    } else if op.RefreshPoolOp? {
      RefreshMovesCursor(s, t, op);
    } else {
      hide Valid, Step, WalkBegin;
      OtherStepsKeepCursor(s, t, op);
    }
  }

  lemma CreateMovesCursor(s: StoreState, t: Name, op: Op)
    requires t in s.templates && op.CreatePoolOp?
    requires forall m :: m in s.templates && m != t ==> s.templates[m].prefix != s.templates[t].prefix
    ensures t in Step(s, op).templates && CursorMoved(s, t, op, Step(s, op))
  {
    hide CreatePool, Generate, ResolvePinned, Advance, WalkBegin, NextWithin, Prefix.Contains, IsWalk;
    HandedOutIsAWalk(s, t, op);
    CreatePoolBasics(s, op.name, op.kind, op.templateName, op.capacity, op.pinned);
    var r := CreatePool(s, op.name, op.kind, op.templateName, op.capacity, op.pinned);
    if r.Ok? {
      CursorAfterAdvance(s, t, op.templateName,
                         Generate(s, op.templateName, op.capacity
                                  - |ResolvePinned(s, op.templateName, op.pinned).value|).value, r.value);
    }
  }

  lemma RefreshMovesCursor(s: StoreState, t: Name, op: Op)
    requires t in s.templates && op.RefreshPoolOp?
    requires forall m :: m in s.templates && m != t ==> s.templates[m].prefix != s.templates[t].prefix
    ensures t in Step(s, op).templates && CursorMoved(s, t, op, Step(s, op))
  {
    hide RefreshPool, Generate, Advance, WalkBegin, NextWithin, Prefix.Contains, IsWalk;
    HandedOutIsAWalk(s, t, op);
    var n := op.name;
    if n in s.pools && s.pools[n].template in s.templates {
      RefreshPoolBasics(s, n);
      var r := RefreshPool(s, n);
      if r.Ok? {
        CursorAfterAdvance(s, t, s.pools[n].template,
                           Generate(s, s.pools[n].template, s.pools[n].capacity - |s.pools[n].pinned|).value, r.value);
      }
    }
  }

  /** After a step the walk of template `t` stands behind the last address it handed out. */
  ghost predicate CursorMoved(s: StoreState, t: Name, op: Op, next: StoreState)
    requires t in s.templates && t in next.templates
  {
    var addresses := HandedOut(s, t, op);
    && next.templates[t] == s.templates[t]
    && (addresses == [] ==> WalkBegin(next, t) == WalkBegin(s, t))
    && (addresses != [] ==> WalkBegin(next, t) == NextWithin(s.templates[t].prefix, addresses[|addresses| - 1]))
  }

  lemma OtherStepsKeepCursor(s: StoreState, t: Name, op: Op)
    requires Valid(s) && t in s.templates && t in Step(s, op).templates && !op.CreatePoolOp? && !op.RefreshPoolOp?
    requires forall n :: n in s.templates && n != t ==> s.templates[n].prefix != s.templates[t].prefix
    ensures Step(s, op).templates[t] == s.templates[t] && WalkBegin(Step(s, op), t) == WalkBegin(s, t)
  {
    hide Valid, WalkBegin, Saved, Loaded, Admissible, DeleteTemplate, CreateFixedAddress, DeleteFixedAddress;
    hide DeletePool, CompleteDrain, CompleteDrainedAddress;
    match op {
      case AddTemplateOp(template) => AddKeepsCursor(s, t, template);
      case DeleteTemplateOp(n) => DeleteKeepsCursor(s, t, n);
      case RestartOp => SaveThenLoad(s);
      case _ =>
        OtherStepsKeepTemplates(s, op);
        hide Step;
        SameCursor(s, Step(s, op), t);
    }
  }

  lemma SameCursor(s: StoreState, next: StoreState, t: Name)
    requires t in s.templates && t in next.templates && next.templates[t] == s.templates[t]
    requires CursorOf(next, s.templates[t].prefix) == CursorOf(s, s.templates[t].prefix)
    ensures WalkBegin(next, t) == WalkBegin(s, t)
  {
    hide CursorOf;
  }

  lemma AddKeepsCursor(s: StoreState, t: Name, template: PrefixTemplate)
    requires t in s.templates
    ensures var next := Step(s, AddTemplateOp(template));
      t in next.templates && next.templates[t] == s.templates[t] && WalkBegin(next, t) == WalkBegin(s, t)
  {
    hide PrefixesOverlap, WalkBegin;
    SameCursor(s, Step(s, AddTemplateOp(template)), t);
  }

  lemma DeleteKeepsCursor(s: StoreState, t: Name, n: Name)
    requires t in s.templates && t in Step(s, DeleteTemplateOp(n)).templates
    requires forall m :: m in s.templates && m != t ==> s.templates[m].prefix != s.templates[t].prefix
    ensures var next := Step(s, DeleteTemplateOp(n));
      next.templates[t] == s.templates[t] && WalkBegin(next, t) == WalkBegin(s, t)
  {
    hide TemplateInUse, WalkBegin;
    SameCursor(s, Step(s, DeleteTemplateOp(n)), t);
  }

  lemma OtherStepsKeepTemplates(s: StoreState, op: Op)
    requires !op.CreatePoolOp? && !op.RefreshPoolOp? && !op.AddTemplateOp? && !op.DeleteTemplateOp? && !op.RestartOp?
    ensures Step(s, op).templates == s.templates && Step(s, op).cursors == s.cursors
  {
    hide Release, WithoutDraining, BatchIndex, Flat, Prefix.Contains, CreatePool, RefreshPool, DeleteTemplate;
  }

  lemma OtherPrefixesDiffer(s: StoreState, t: Name)
    requires Valid(s) && t in s.templates
    ensures forall n :: n in s.templates && n != t ==> s.templates[n].prefix != s.templates[t].prefix
  {
    hide AddressesOk, FixedOk, PoolsOk, BatchesOk, ReferencesOk, CursorsOk, Canonical;
    TemplatesShrink(s.templates, t);
  }

  lemma CursorAfterAdvance(s: StoreState, t: Name, tn: Name, g: seq<Address>, next: StoreState)
    requires t in s.templates && tn in s.templates && next.templates == s.templates && next.cursors == Advance(s, tn, g)
    requires tn != t ==> s.templates[tn].prefix != s.templates[t].prefix
    requires g != [] && tn == t ==> s.templates[t].prefix.Contains(g[|g| - 1])
    ensures WalkBegin(next, t) ==
      if tn == t && g != [] then NextWithin(s.templates[t].prefix, g[|g| - 1]) else WalkBegin(s, t)
  {
    if g != [] && tn == t {
      BaseIsInside(s.templates[t].prefix);
      NextWithinAdvances(s.templates[t].prefix, s.templates[t].prefix.Base(), g[|g| - 1]);
    }
    hide Prefix.Contains, NextWithin;
  }

  lemma TrackStepKeepsTracks(track: Track, t: Name, p: Prefix, op: Op)
    requires Valid(track.state) && Tracks(track, t, p) && t in Step(track.state, op).templates
    ensures Tracks(TrackStep(track, t, op), t, p)
  {
    hide IsWalk, Stamp, Step, Valid, HandedOut, WalkBegin, NextWithin, Prefix.Contains, Prefix.Base, Prefix.Size;
    hide Offset;
    var s := track.state;
    var begin, addresses := WalkBegin(s, t), HandedOut(s, t, op);
    StepMovesCursor(s, t, op);
    HandedOutAdvances(s, t, op);
    StampedTracks(track, t, p, begin, addresses, TrackStep(track, t, op));
  }

  lemma HandedOutAdvances(s: StoreState, t: Name, op: Op)
    requires t in s.templates
    ensures var p, addresses := s.templates[t].prefix, HandedOut(s, t, op);
      && (forall a :: a in addresses ==> p.Contains(a))
      && (forall i, j :: 0 <= i < j < |addresses| ==>
            Offset(p, WalkBegin(s, t), addresses[i]) < Offset(p, WalkBegin(s, t), addresses[j]))
  {
    hide Stamp, HandedOut, WalkBegin, Prefix.Contains, Offset;
    HandedOutIsAWalk(s, t, op);
  }

  lemma StampedTracks(track: Track, t: Name, p: Prefix, begin: Address, addresses: seq<Address>, next: Track)
    requires Tracks(track, t, p) && begin == WalkBegin(track.state, t)
    requires t in next.state.templates && next.state.templates[t].prefix == p
    requires forall a :: a in addresses ==> p.Contains(a)
    requires forall i, j :: 0 <= i < j < |addresses| ==> Offset(p, begin, addresses[i]) < Offset(p, begin, addresses[j])
    requires WalkBegin(next.state, t) == if addresses == [] then begin else NextWithin(p, addresses[|addresses| - 1])
    requires next.position == if addresses == [] then track.position
                              else track.position + Offset(p, begin, addresses[|addresses| - 1]) + 1
    requires next.log == track.log + Stamp(p, begin, track.position, addresses)
    ensures Tracks(next, t, p)
  {
    hide WalkBegin, NextWithin, Prefix.Contains, Prefix.Base, Prefix.Size, Offset, Stamp;
    forall a | a in addresses
      ensures a == p.Base() + (track.position + Offset(p, begin, a)) % p.Size()
      ensures NextWithin(p, a) == p.Base() + (track.position + Offset(p, begin, a) + 1) % p.Size() {
      OffsetIsDistance(p, begin, track.position, a);
    }
    if addresses != [] { assert addresses[|addresses| - 1] in addresses; }
    StampedLogGrows(track, p, begin, addresses, next.position);
  }

  lemma StampedLogGrows(track: Track, p: Prefix, begin: Address, addresses: seq<Address>, position: nat)
    requires p.Contains(begin) && forall a :: a in addresses ==> p.Contains(a)
    requires forall i, j :: 0 <= i < j < |addresses| ==> Offset(p, begin, addresses[i]) < Offset(p, begin, addresses[j])
    requires forall a :: a in addresses ==> a == p.Base() + (track.position + Offset(p, begin, a)) % p.Size()
    requires forall i :: 0 <= i < |track.log| ==>
               track.log[i].at < track.position && track.log[i].address == p.Base() + track.log[i].at % p.Size()
    requires forall i, j :: 0 <= i < j < |track.log| ==> track.log[i].at < track.log[j].at
    requires position == if addresses == [] then track.position
                         else track.position + Offset(p, begin, addresses[|addresses| - 1]) + 1
    ensures var log := track.log + Stamp(p, begin, track.position, addresses);
      && (forall i :: 0 <= i < |log| ==> log[i].at < position && log[i].address == p.Base() + log[i].at % p.Size())
      && (forall i, j :: 0 <= i < j < |log| ==> log[i].at < log[j].at)
  {
    hide Offset, Prefix.Contains, Prefix.Base, Prefix.Size;
    var log := track.log + Stamp(p, begin, track.position, addresses);
    var n := |track.log|;
    forall i | n <= i < |log| ensures log[i].at < position && log[i].address == p.Base() + log[i].at % p.Size() {
      assert addresses[i - n] in addresses;
      assert i - n < |addresses| - 1 ==>
               Offset(p, begin, addresses[i - n]) < Offset(p, begin, addresses[|addresses| - 1]);
    }
  }

  /** The whole run, seen from template `t`. */
  ghost function TrackRun(track: Track, t: Name, ops: seq<Op>): Track
    requires Valid(track.state) && track.state.nextBatch + |ops| < UINT64_LIMIT
    requires forall i :: 0 <= i < |ops| ==> WellFormed(ops[i])
    requires StaysDefined(track.state, t, ops)
    decreases |ops|
  {
    if ops == [] then track
    else
      StepKeepsValid(track.state, ops[0]);
      TrackRun(TrackStep(track, t, ops[0]), t, ops[1..])
  }

  /** The template is not deleted during the run. */
  ghost predicate StaysDefined(s: StoreState, t: Name, ops: seq<Op>)
    decreases |ops|
  {
    t in s.templates && (ops != [] ==> StaysDefined(Step(s, ops[0]), t, ops[1..]))
  }

  lemma {:induction false} RunKeepsTracks(track: Track, t: Name, p: Prefix, ops: seq<Op>)
    requires Valid(track.state) && track.state.nextBatch + |ops| < UINT64_LIMIT
    requires forall i :: 0 <= i < |ops| ==> WellFormed(ops[i])
    requires StaysDefined(track.state, t, ops) && Tracks(track, t, p)
    ensures Tracks(TrackRun(track, t, ops), t, p)
    ensures TrackRun(track, t, ops).state == Run(track.state, ops)
    decreases |ops|
  {
    hide Valid, Step, Tracks, HandedOut, Stamp;
    if ops != [] {
      StepKeepsValid(track.state, ops[0]);
      TrackStepKeepsTracks(track, t, p, ops[0]);
      RunKeepsTracks(TrackStep(track, t, ops[0]), t, p, ops[1..]);
    }
  }

  /** An address comes back only after a full lap: between two handouts of the same address the
      walk has been at the position of every other address of the prefix. */
  lemma ReuseTakesAFullLap(s: StoreState, t: Name, ops: seq<Op>, i: nat, j: nat, other: Address)
    requires Valid(s) && s.nextBatch + |ops| < UINT64_LIMIT
    requires forall k :: 0 <= k < |ops| ==> WellFormed(ops[k])
    requires StaysDefined(s, t, ops)
    requires var p := s.templates[t].prefix;
      var log := TrackRun(Track(s, Offset(p, p.Base(), WalkBegin(s, t)), []), t, ops).log;
      i < j < |log| && log[i].address == log[j].address && p.Contains(other) && other != log[i].address
    ensures var p := s.templates[t].prefix;
      var log := TrackRun(Track(s, Offset(p, p.Base(), WalkBegin(s, t)), []), t, ops).log;
      && log[i].at + p.Size() <= log[j].at
      && exists q: nat :: log[i].at < q < log[j].at && other == p.Base() + q % p.Size()
  {
    var p := s.templates[t].prefix;
    var start := Track(s, Offset(p, p.Base(), WalkBegin(s, t)), []);
    StartTracks(s, t);
    RunKeepsTracks(start, t, p, ops);
    var log := TrackRun(start, t, ops).log;
    hide Valid, Run, TrackRun, StaysDefined, WalkBegin, Offset, Prefix.Base, Prefix.Size;
    LapsApart(log[i].at, log[j].at, p.Size());
    PositionWithin(p, log[i].at, other);
  }

  lemma StartTracks(s: StoreState, t: Name)
    requires t in s.templates
    ensures var p := s.templates[t].prefix;
      p.Contains(p.Base()) && Tracks(Track(s, Offset(p, p.Base(), WalkBegin(s, t)), []), t, p)
  {
    var p := s.templates[t].prefix;
    BaseIsInside(p);
    var o := Offset(p, p.Base(), WalkBegin(s, t));
    hide Prefix.Base, Prefix.Size, Begin;
    OffsetsAreFaithful(p, p.Base(), WalkBegin(s, t));
    QuotientIsUnique(o, p.Size(), 0, o);
    ModBounds(o, p.Size());
  }

  /** Different positions of the same residue are at least one lap apart. */
  lemma LapsApart(x: nat, y: nat, m: nat)
    requires m >= 1 && x < y && x % m == y % m
    ensures x + m <= y
  {
    ModBounds(x, m);
    ModBounds(y, m);
    MultiplesAreApart(x / m, y / m, m);
    MultiplesAreApart(y / m, x / m, m);
  }

  /** Within one lap after any position, every other address has its turn. */
  lemma PositionWithin(p: Prefix, x: nat, other: Address)
    requires p.Contains(other) && other != p.Base() + x % p.Size()
    ensures exists q: nat :: x < q < x + p.Size() && other == p.Base() + q % p.Size()
  {
    hide Prefix.Base, Prefix.Size;
    var m, r := p.Size(), x % p.Size();
    ModBounds(x, m);
    var o := other - p.Base();
    var d := if o > r then o - r else o + m - r;
    ModAfter(x, d, m);
    assert x < x + d < x + m && other == p.Base() + (x + d) % m;
  }
}
