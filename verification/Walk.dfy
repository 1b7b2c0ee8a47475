/** Automatic address generation: the plain scan of a prefix, and the walk that resumes
    at a remembered position and wraps around. */
module Walk {
  import opened Wrappers
  import opened Prefixes
  import opened FiniteSets

  const MAX_POOL_SIZE: nat := 4096

  datatype GenerateError = PrefixNotGlobal | BadCount | PrefixExhausted

  // ---- the cyclic order of a prefix ----

  /** How many steps the wrapping walk takes from `begin` to `a`. */
  ghost function Offset(p: Prefix, begin: Address, a: Address): nat
    requires p.Contains(begin) && p.Contains(a)
  {
    if begin <= a then a - begin else a + p.Size() - begin
  }

  /** The address reached after `i` steps. */
  ghost function AtOffset(p: Prefix, begin: Address, i: nat): (a: Address)
    requires p.Contains(begin) && i < p.Size()
    ensures p.Contains(a) && Offset(p, begin, a) == i
  {
    PrefixFits(p);
    var a := if begin + i < p.Base() + p.Size() then begin + i else begin + i - p.Size();
    a
  }

  lemma OffsetsAreFaithful(p: Prefix, begin: Address, a: Address)
    requires p.Contains(begin) && p.Contains(a)
    ensures Offset(p, begin, a) < p.Size()
    ensures AtOffset(p, begin, Offset(p, begin, a)) == a
  {
    hide Prefix.Base, Prefix.Size;
  }

  ghost function FreeAddresses(p: Prefix, occupied: set<Address>): set<Address> {
    set a: Address | p.Base() <= a < p.Base() + p.Size() && a !in occupied
  }

  /** `r` lists the first `|r|` unoccupied addresses of the prefix in cyclic order from `begin`. */
  ghost predicate IsWalk(p: Prefix, begin: Address, occupied: set<Address>, r: seq<Address>)
    requires p.Contains(begin)
  {
    && (forall k :: 0 <= k < |r| ==> p.Contains(r[k]) && r[k] !in occupied)
    && (forall j, k :: 0 <= j < k < |r| ==> Offset(p, begin, r[j]) < Offset(p, begin, r[k]))
    && (forall a: Address ::
          (p.Contains(a) && a !in occupied && r != [] && Offset(p, begin, a) <= Offset(p, begin, r[|r| - 1])) ==>
            a in r)
  }

  /** `r` lists the `|r|` lowest unoccupied addresses of the prefix in ascending order. */
  ghost predicate IsScan(p: Prefix, occupied: set<Address>, r: seq<Address>) {
    && (forall k :: 0 <= k < |r| ==> p.Contains(r[k]) && r[k] !in occupied)
    && (forall j, k :: 0 <= j < k < |r| ==> r[j] < r[k])
    && (forall a: Address :: p.Contains(a) && a !in occupied && r != [] && a <= r[|r| - 1] ==> a in r)
  }

  lemma BaseIsInside(p: Prefix)
    ensures p.Contains(p.Base())
  {
  }

  /** A walk that starts at the first address of the prefix is the plain scan. */
  lemma WalkFromBaseIsTheScan(p: Prefix, occupied: set<Address>, r: seq<Address>)
    ensures p.Contains(p.Base())
    ensures IsWalk(p, p.Base(), occupied, r) <==> IsScan(p, occupied, r)
  {
    hide Prefix.Base, Prefix.Size;
    BaseIsInside(p);
    forall a: Address | p.Contains(a) ensures Offset(p, p.Base(), a) == a - p.Base() {
    }
  }

  /** The walk of a given length is determined by where it starts. */
  lemma {:induction false} WalkIsUnique(p: Prefix, begin: Address, occupied: set<Address>, r: seq<Address>,
                                        t: seq<Address>, n: nat)
    requires p.Contains(begin)
    requires IsWalk(p, begin, occupied, r) && IsWalk(p, begin, occupied, t)
    requires n <= |r| && n <= |t|
    ensures r[..n] == t[..n]
  {
    hide Prefix.Contains, Offset, AtOffset;
    if n > 0 {
      assert p.Contains(r[n - 1]) && p.Contains(t[n - 1]);
      hide IsWalk;
      WalkIsUnique(p, begin, occupied, r, t, n - 1);
      NextOfWalk(p, begin, occupied, r, t, n - 1);
      NextOfWalk(p, begin, occupied, t, r, n - 1);
      OffsetsAreFaithful(p, begin, r[n - 1]);
      OffsetsAreFaithful(p, begin, t[n - 1]);
      assert r[n - 1] == t[n - 1];
      assert r[..n] == r[..n - 1] + [r[n - 1]] && t[..n] == t[..n - 1] + [t[n - 1]];
    }
  }

  /** Everything free that precedes the `n`th entry of a walk is one of its first `n` entries. */
  lemma EarlierFreeIsListed(p: Prefix, begin: Address, occupied: set<Address>, t: seq<Address>, n: nat, a: Address)
    requires p.Contains(begin) && IsWalk(p, begin, occupied, t)
    requires n < |t| && p.Contains(a) && a !in occupied && Offset(p, begin, a) < Offset(p, begin, t[n])
    ensures a in t[..n]
  {
    hide Prefix.Contains, Offset, AtOffset;
    assert Offset(p, begin, t[n]) <= Offset(p, begin, t[|t| - 1]);
    var k :| 0 <= k < |t| && t[k] == a;
    assert k < n;
    assert t[..n][k] == a;
  }

  lemma NextOfWalk(p: Prefix, begin: Address, occupied: set<Address>, r: seq<Address>, t: seq<Address>, n: nat)
    requires p.Contains(begin)
    requires IsWalk(p, begin, occupied, r) && IsWalk(p, begin, occupied, t)
    requires n < |r| && n < |t| && r[..n] == t[..n]
    ensures Offset(p, begin, t[n]) <= Offset(p, begin, r[n])
  {
    hide Prefix.Contains, Offset, AtOffset;
    assert r[n] !in r[..n] by {
      forall k | 0 <= k < n ensures r[..n][k] != r[n] {
        assert Offset(p, begin, r[k]) < Offset(p, begin, r[n]);
      }
    }
    if Offset(p, begin, r[n]) < Offset(p, begin, t[n]) {
      EarlierFreeIsListed(p, begin, occupied, t, n, r[n]);
    }
  }

  /** A walk has no duplicates and uses only free addresses, so it is no longer than their number. */
  lemma WalkFitsTheFreeAddresses(p: Prefix, begin: Address, occupied: set<Address>, r: seq<Address>)
    requires p.Contains(begin) && IsWalk(p, begin, occupied, r)
    ensures Distinct(r) && Elements(r) <= FreeAddresses(p, occupied)
    ensures |r| <= |FreeAddresses(p, occupied)|
  {
    hide Prefix.Base, Prefix.Size;
    forall a | a in Elements(r) ensures a in FreeAddresses(p, occupied) {
    }
    DistinctSize(r);
    SubsetSize(Elements(r), FreeAddresses(p, occupied));
  }

  // ---- the walk as a function ----

  /** `r` lists, in order, exactly the free addresses met in the first `i` steps. */
  ghost predicate ListsFree(p: Prefix, begin: Address, occupied: set<Address>, r: seq<Address>, i: nat)
    requires p.Contains(begin)
  {
    && (forall k :: 0 <= k < |r| ==> p.Contains(r[k]) && r[k] !in occupied && Offset(p, begin, r[k]) < i)
    && (forall j, k :: 0 <= j < k < |r| ==> Offset(p, begin, r[j]) < Offset(p, begin, r[k]))
    && (forall a: Address :: p.Contains(a) && a !in occupied && Offset(p, begin, a) < i ==> a in r)
  }

  lemma ListsFreeStart(p: Prefix, begin: Address, occupied: set<Address>)
    requires p.Contains(begin)
    ensures ListsFree(p, begin, occupied, [], 0) && AtOffset(p, begin, 0) == begin
  {
  }

  lemma ListsFreeStep(p: Prefix, begin: Address, occupied: set<Address>, r: seq<Address>, i: nat)
    requires p.Contains(begin) && i < p.Size() && ListsFree(p, begin, occupied, r, i)
    ensures var a := AtOffset(p, begin, i);
            ListsFree(p, begin, occupied, if a in occupied then r else r + [a], i + 1)
  {
    hide Prefix.Base, Prefix.Size;
    var a := AtOffset(p, begin, i);
    var t := if a in occupied then r else r + [a];
    forall b: Address | p.Contains(b) && b !in occupied && Offset(p, begin, b) < i + 1 ensures b in t {
      OffsetsAreFaithful(p, begin, b);
      if Offset(p, begin, b) < i { assert b in r; }
    }
  }

  lemma ListsFreeIsWalk(p: Prefix, begin: Address, occupied: set<Address>, r: seq<Address>, i: nat)
    requires p.Contains(begin) && ListsFree(p, begin, occupied, r, i)
    ensures IsWalk(p, begin, occupied, r)
  {
    hide Prefix.Base, Prefix.Size;
    if r != [] { assert Offset(p, begin, r[|r| - 1]) < i; }
  }

  /** The free addresses met in the first `i` steps. */
  ghost function FreeUpTo(p: Prefix, begin: Address, occupied: set<Address>, i: nat): (r: seq<Address>)
    requires p.Contains(begin) && i <= p.Size()
  {
    if i == 0 then
      []
    else
      var before := FreeUpTo(p, begin, occupied, i - 1);
      var a := AtOffset(p, begin, i - 1);
      if a in occupied then before else before + [a]
  }

  lemma {:induction false} FreeUpToListsFree(p: Prefix, begin: Address, occupied: set<Address>, i: nat)
    requires p.Contains(begin) && i <= p.Size()
    ensures ListsFree(p, begin, occupied, FreeUpTo(p, begin, occupied, i), i)
  {
    hide Prefix.Contains, Offset, AtOffset, ListsFree;
    if i == 0 {
      ListsFreeStart(p, begin, occupied);
    } else {
      var before := FreeUpTo(p, begin, occupied, i - 1);
      FreeUpToListsFree(p, begin, occupied, i - 1);
      ListsFreeStep(p, begin, occupied, before, i - 1);
    }
  }

  /** The result of a successful walk for `count` addresses, or `None` when too few are free. */
  ghost function WalkFor(p: Prefix, begin: Address, occupied: set<Address>, count: nat): (r: Option<seq<Address>>)
    requires p.Contains(begin)
    ensures r.Some? <==> count <= |FreeAddresses(p, occupied)|
    ensures r.Some? ==> |r.value| == count && IsWalk(p, begin, occupied, r.value)
  {
    var all := FreeUpTo(p, begin, occupied, p.Size());
    FreeUpToListsFree(p, begin, occupied, p.Size());
    FullListIsAllFree(p, begin, occupied, all);
    if count <= |all| then
      ListsFreeIsWalk(p, begin, occupied, all, p.Size());
      PrefixOfWalk(p, begin, occupied, all, count);
      Some(all[..count])
    else None
  }

  lemma FullListIsAllFree(p: Prefix, begin: Address, occupied: set<Address>, all: seq<Address>)
    requires p.Contains(begin) && ListsFree(p, begin, occupied, all, p.Size())
    ensures |all| == |FreeAddresses(p, occupied)|
  {
    hide Prefix.Base, Prefix.Size;
    ListsFreeIsWalk(p, begin, occupied, all, p.Size());
    WalkFitsTheFreeAddresses(p, begin, occupied, all);
    forall a | a in FreeAddresses(p, occupied) ensures a in Elements(all) {
      OffsetsAreFaithful(p, begin, a);
    }
    assert Elements(all) == FreeAddresses(p, occupied);
    DistinctSize(all);
  }

  lemma PrefixOfWalk(p: Prefix, begin: Address, occupied: set<Address>, r: seq<Address>, n: nat)
    requires p.Contains(begin) && IsWalk(p, begin, occupied, r) && n <= |r|
    ensures IsWalk(p, begin, occupied, r[..n])
  {
    hide Prefix.Contains, Offset, AtOffset;
    if n > 0 {
      var bound := Offset(p, begin, r[n - 1]);
      forall a: Address | p.Contains(a) && a !in occupied && Offset(p, begin, a) <= bound ensures a in r[..n] {
        assert bound <= Offset(p, begin, r[|r| - 1]);
        var k :| 0 <= k < |r| && r[k] == a;
        assert k < n;
        assert r[..n][k] == a;
      }
    }
  }

  /** Any walk of the right length is the one `WalkFor` names. */
  lemma WalkForIsTheWalk(p: Prefix, begin: Address, occupied: set<Address>, r: seq<Address>)
    requires p.Contains(begin) && IsWalk(p, begin, occupied, r)
    ensures WalkFor(p, begin, occupied, |r|) == Some(r)
  {
    hide Prefix.Base, Prefix.Size;
    WalkFitsTheFreeAddresses(p, begin, occupied, r);
    var w := WalkFor(p, begin, occupied, |r|).value;
    WalkIsUnique(p, begin, occupied, r, w, |r|);
    assert r[..|r|] == r && w[..|r|] == w;
  }

  // ---- the loops ----

  predicate CanGenerate(p: Prefix, count: int) {
    p.Masked().IsGlobal() && 1 <= count <= MAX_POOL_SIZE
  }

  /** The walk starts at the remembered address when it lies in the prefix, else at the first address. */
  function Begin(p: Prefix, start: Option<Address>): (begin: Address)
    ensures p.Contains(begin)
  {
    BaseIsInside(p);
    if start.Some? && p.Contains(start.value) then start.value else p.Base()
  }

  /** The address after `a`, wrapping to the first address of the prefix. */
  function NextWithin(p: Prefix, a: Address): Address {
    match Next(a)
    case Some(n) => if p.Contains(n) then n else p.Base()
    case None => p.Base()
  }

  lemma NextWithinAdvances(p: Prefix, begin: Address, a: Address)
    requires p.Contains(begin) && p.Contains(a)
    ensures p.Contains(NextWithin(p, a))
    ensures Offset(p, begin, a) + 1 < p.Size() ==> NextWithin(p, a) == AtOffset(p, begin, Offset(p, begin, a) + 1)
    ensures NextWithin(p, a) == begin <==> Offset(p, begin, a) + 1 == p.Size()
  {
    hide Prefix.Base, Prefix.Size;
    PrefixFits(p);
    BaseIsInside(p);
  }

  method GenerateAddressesFrom(prefix: Prefix, count: int, occupied: set<Address>, start: Option<Address>)
    returns (r: Result<seq<Address>, GenerateError>)
    ensures !prefix.Masked().IsGlobal() ==> r == Err(PrefixNotGlobal)
    ensures prefix.Masked().IsGlobal() && !CanGenerate(prefix, count) ==> r == Err(BadCount)
    ensures CanGenerate(prefix, count) ==>
              (r.Ok? <==> count <= |FreeAddresses(prefix.Masked(), occupied)|)
              && (r.Err? ==> r == Err(PrefixExhausted))
    ensures r.Ok? ==>
              |r.value| == count && IsWalk(prefix.Masked(), Begin(prefix.Masked(), start), occupied, r.value)
  {
    hide Prefix.Contains, Offset, AtOffset, ListsFree, IsWalk, FreeAddresses, NextWithin;
    var p := prefix.Masked();
    if !p.IsGlobal() { return Err(PrefixNotGlobal); }
    if count < 1 || count > MAX_POOL_SIZE { return Err(BadCount); }
    var begin := Begin(p, start);
    var addresses: seq<Address> := [];
    var address := begin;
    ghost var i := 0;
    ListsFreeStart(p, begin, occupied);
    while true
      invariant 0 <= i < p.Size() && p.Contains(address) && address == AtOffset(p, begin, i)
      invariant ListsFree(p, begin, occupied, addresses, i)
      invariant |addresses| < count
      decreases p.Size() - i
    {
      ListsFreeStep(p, begin, occupied, addresses, i);
      if address !in occupied {
        addresses := addresses + [address];
        if |addresses| == count {
          ListsFreeIsWalk(p, begin, occupied, addresses, i + 1);
          WalkFitsTheFreeAddresses(p, begin, occupied, addresses);
          return Ok(addresses);
        }
      }
      var next := NextWithin(p, address);
      NextWithinAdvances(p, begin, address);
      i := i + 1;
      if next == begin {
        break;
      }
      address := next;
    }
    assert i == p.Size();
    FullListIsAllFree(p, begin, occupied, addresses);
    return Err(PrefixExhausted);
  }

  method GenerateAddresses(prefix: Prefix, count: int, occupied: set<Address>)
    returns (r: Result<seq<Address>, GenerateError>)
    ensures !prefix.Masked().IsGlobal() ==> r == Err(PrefixNotGlobal)
    ensures prefix.Masked().IsGlobal() && !CanGenerate(prefix, count) ==> r == Err(BadCount)
    ensures CanGenerate(prefix, count) ==>
              (r.Ok? <==> count <= |FreeAddresses(prefix.Masked(), occupied)|)
              && (r.Err? ==> r == Err(PrefixExhausted))
    ensures r.Ok? ==> |r.value| == count && IsScan(prefix.Masked(), occupied, r.value)
  {
    hide Prefix.Contains, Offset, AtOffset, ListsFree, IsScan, FreeAddresses;
    var p := prefix.Masked();
    if !p.IsGlobal() { return Err(PrefixNotGlobal); }
    if count < 1 || count > MAX_POOL_SIZE { return Err(BadCount); }
    var addresses: seq<Address> := [];
    var address := Some(p.Base());
    ghost var i := 0;
    BaseIsInside(p);
    ListsFreeStart(p, p.Base(), occupied);
    while address.Some? && p.Contains(address.value)
      invariant 0 <= i <= p.Size()
      invariant address == if i < p.Size() then Some(AtOffset(p, p.Base(), i)) else address
      invariant i == p.Size() ==> address.None? || !p.Contains(address.value)
      invariant ListsFree(p, p.Base(), occupied, addresses, i)
      invariant |addresses| < count
      decreases p.Size() - i
    {
      ListsFreeStep(p, p.Base(), occupied, addresses, i);
      if address.value !in occupied {
        addresses := addresses + [address.value];
        if |addresses| == count {
          ListsFreeIsWalk(p, p.Base(), occupied, addresses, i + 1);
          WalkFromBaseIsTheScan(p, occupied, addresses);
          WalkFitsTheFreeAddresses(p, p.Base(), occupied, addresses);
          return Ok(addresses);
        }
      }
      NextFromBase(p, i);
      i := i + 1;
      address := Next(address.value);
    }
    FullListIsAllFree(p, p.Base(), occupied, addresses);
    return Err(PrefixExhausted);
  }

  lemma NextFromBase(p: Prefix, i: nat)
    requires i < p.Size()
    ensures p.Contains(p.Base())
    ensures var next := Next(AtOffset(p, p.Base(), i));
      if i + 1 < p.Size() then next == Some(AtOffset(p, p.Base(), i + 1)) else next.None? || !p.Contains(next.value)
  {
    hide Prefix.Base, Prefix.Size;
    PrefixFits(p);
  }
}
