/** `RandomAddress`: random attempts first, then the scan, so an address is found whenever one is free. */
module RandomAddresses {
  import opened Wrappers
  import opened Prefixes
  import opened Walk

  const RANDOM_ADDRESS_ATTEMPTS := 128

  /** Addresses from an interval are at most as many as its length, and as many only when all are there. */
  lemma {:induction false} IntervalCounts(s: set<Address>, base: int, size: nat)
    requires forall a :: a in s ==> base <= a < base + size
    ensures |s| <= size
    ensures |s| == size ==> forall a: Address :: base <= a < base + size ==> a in s
  {
    if size == 0 {
      assert s == {};
    } else {
      var rest := set a | a in s && a != base + size - 1;
      IntervalCounts(rest, base, size - 1);
      if a: Address :| a in s && a !in rest {
        assert s == rest + {a};
      } else {
        assert s == rest;
      }
    }
  }

  /** A set that holds a whole interval has at least as many elements as the interval. */
  lemma {:induction false} IntervalFits(s: set<Address>, base: int, size: nat)
    requires 0 <= base && base + size <= ADDRESS_SPACE
    requires forall a: Address :: base <= a < base + size ==> a in s
    ensures |s| >= size
  {
    if size > 0 {
      var last: Address := base + size - 1;
      IntervalFits(s - {last}, base, size - 1);
    }
  }

  lemma FullMeansNoneFree(p: Prefix, occupied: set<Address>, counted: set<Address>)
    requires forall a :: a in counted <==> p.Contains(a) && a in occupied
    ensures |counted| >= p.Size() <==> FreeAddresses(p, occupied) == {}
  {
    hide Prefix.Base, Prefix.Size;
    PrefixFits(p);
    IntervalCounts(counted, p.Base(), p.Size());
    if FreeAddresses(p, occupied) == {} {
      forall a: Address | p.Base() <= a < p.Base() + p.Size() ensures a in counted {
        assert a !in FreeAddresses(p, occupied);
      }
      IntervalFits(counted, p.Base(), p.Size());
    }
  }

  /** Counting answers only for prefixes of at most 4096 addresses; for them it is exact. */
  method PrefixIsExhausted(p: Prefix, occupied: set<Address>) returns (exhausted: bool)
    ensures exhausted <==> p.bits >= 116 && FreeAddresses(p, occupied) == {}
  {
    hide Prefix.Contains, Prefix.Base, Prefix.Size, FreeAddresses;
    if 128 - p.bits > 12 { return false; }
    var used := 0;
    var pending := occupied;
    ghost var counted: set<Address> := {};
    while pending != {}
      invariant pending <= occupied && forall a :: a in counted <==> p.Contains(a) && a in occupied && a !in pending
      invariant used == |counted|
      decreases |pending|
    {
      var a :| a in pending;
      pending := pending - {a};
      if p.Contains(a) {
        used := used + 1;
        assert a !in counted;
        counted := counted + {a};
      }
    }
    FullMeansNoneFree(p, occupied, counted);
    return used >= p.Size();
  }

  datatype RandomError = NotGlobal | EntropyRequired | NoAvailableAddress | EntropyFailed

  /** The answers of the entropy source, one for every attempt; a failed read gives none. */
  datatype Entropy = Absent | Reads(answers: seq<Option<Address>>)

  /** The network part of the prefix with the host part of the drawn bits. */
  function Mixed(p: Prefix, drawn: Address): (a: Address)
    ensures p.Contains(a)
  {
    PrefixFits(p);
    ModBounds(drawn, p.Size());
    p.Base() + drawn % p.Size()
  }

  /** Drawing can give every address of the prefix. */
  lemma EveryAddressCanBeDrawn(p: Prefix, a: Address)
    requires p.Contains(a)
    ensures Mixed(p, a - p.Base()) == a
  {
    QuotientIsUnique(a - p.Base(), p.Size(), 0, a - p.Base());
    ModBounds(a - p.Base(), p.Size());
  }

  /** The attempts before number `i` all drew occupied addresses. */
  predicate Missed(p: Prefix, occupied: set<Address>, answers: seq<Option<Address>>, i: nat)
    requires i <= |answers|
  {
    forall k :: 0 <= k < i ==> answers[k].Some? && Mixed(p, answers[k].value) in occupied
  }

  /** The answer of attempt number `i`: of the draw, or after the last draw of the scan. */
  ghost predicate AnsweredAt(p: Prefix, occupied: set<Address>, answers: seq<Option<Address>>, i: nat,
                             r: Result<Address, RandomError>)
    requires i <= |answers|
  {
    if i == |answers| then
      if FreeAddresses(p, occupied) == {} then r == Err(NoAvailableAddress)
      else r.Ok? && IsScan(p, occupied, [r.value])
    else
      match answers[i]
      case None => r == Err(EntropyFailed)
      case Some(drawn) => Mixed(p, drawn) !in occupied && r == Ok(Mixed(p, drawn))
  }

  /** The first drawn address that is free, and the first free one of the prefix when no draw is: an
      address is found whenever one is free, unless a read fails first. */
  method RandomAddress(prefix: Prefix, occupied: set<Address>, entropy: Entropy)
    returns (r: Result<Address, RandomError>)
    requires entropy.Reads? ==> |entropy.answers| == RANDOM_ADDRESS_ATTEMPTS
    ensures r == Err(NotGlobal) <==> !prefix.Masked().IsGlobal()
    ensures r == Err(EntropyRequired) <==> prefix.Masked().IsGlobal() && entropy.Absent?
    ensures prefix.Masked().IsGlobal() && entropy.Reads? ==>
              var p := prefix.Masked();
              || (r == Err(NoAvailableAddress) && p.bits >= 116 && FreeAddresses(p, occupied) == {})
              || ((p.bits >= 116 ==> FreeAddresses(p, occupied) != {})
                  && exists i :: 0 <= i <= |entropy.answers| && Missed(p, occupied, entropy.answers, i)
                                 && AnsweredAt(p, occupied, entropy.answers, i, r))
    ensures r.Ok? ==> prefix.Contains(r.value) && r.value !in occupied
    ensures r == Err(NoAvailableAddress) ==> FreeAddresses(prefix.Masked(), occupied) == {}
    ensures r == Err(EntropyFailed) ==> None in entropy.answers
    ensures prefix.Masked().IsGlobal() && entropy.Reads? && None !in entropy.answers ==>
              (r.Ok? <==> FreeAddresses(prefix.Masked(), occupied) != {})
  {
    hide Prefix.IsGlobal, Mixed, FreeAddresses, IsScan;
    var p := prefix.Masked();
    MaskedKeepsTheRange(prefix);
    if !p.IsGlobal() { return Err(NotGlobal); }
    if entropy.Absent? { return Err(EntropyRequired); }
    var exhausted := PrefixIsExhausted(p, occupied);
    if exhausted { return Err(NoAvailableAddress); }
    for i := 0 to RANDOM_ADDRESS_ATTEMPTS
      invariant Missed(p, occupied, entropy.answers, i)
    {
      if entropy.answers[i].None? {
        assert AnsweredAt(p, occupied, entropy.answers, i, Err(EntropyFailed));
        return Err(EntropyFailed);
      }
      var candidate := Mixed(p, entropy.answers[i].value);
      if candidate !in occupied {
        FreeMeans(p, occupied, candidate);
        assert AnsweredAt(p, occupied, entropy.answers, i, Ok(candidate));
        return Ok(candidate);
      }
    }
    MaskedIsStable(prefix);
    assert CanGenerate(p, 1);
    var fallback := GenerateAddresses(p, 1, occupied);
    if fallback.Err? {
      NoneIsFree(p, occupied);
      assert AnsweredAt(p, occupied, entropy.answers, |entropy.answers|, Err(NoAvailableAddress));
      return Err(NoAvailableAddress);
    }
    SomeIsFree(p, occupied, fallback.value);
    assert AnsweredAt(p, occupied, entropy.answers, |entropy.answers|, Ok(fallback.value[0]));
    return Ok(fallback.value[0]);
  }

  lemma FreeMeans(p: Prefix, occupied: set<Address>, a: Address)
    ensures a in FreeAddresses(p, occupied) <==> p.Contains(a) && a !in occupied
  {
  }

  lemma NoneIsFree(p: Prefix, occupied: set<Address>)
    requires 1 > |FreeAddresses(p, occupied)|
    ensures FreeAddresses(p, occupied) == {}
  {
  }

  lemma SomeIsFree(p: Prefix, occupied: set<Address>, r: seq<Address>)
    requires |r| == 1 && IsScan(p, occupied, r)
    ensures r == [r[0]] && r[0] in FreeAddresses(p, occupied) && p.Contains(r[0]) && r[0] !in occupied
  {
  }

  lemma MaskedIsStable(prefix: Prefix)
    ensures prefix.Masked().Masked() == prefix.Masked()
  {
    MaskedKeepsTheRange(prefix);
  }
}
