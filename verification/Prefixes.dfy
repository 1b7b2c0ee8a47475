/** IPv6 addresses as naturals below 2^128, CIDR prefixes, and prefix templates. */
module Prefixes {
  import opened Wrappers
  import opened Names

  function Pow2(n: nat): (r: nat)
    ensures r >= 1
  {
    if n == 0 then 1 else 2 * Pow2(n - 1)
  }

  /** 2^128. */
  const ADDRESS_SPACE: nat := 0x1_0000_0000_0000_0000_0000_0000_0000_0000

  type Address = a: nat | a < ADDRESS_SPACE witness 0

  type Bits = b: nat | b <= 128

  /** `netip.Prefix`; host bits of `addr` may be set. */
  datatype Prefix = Prefix(addr: Address, bits: Bits) {
    function Size(): (size: nat)
      ensures size >= 1
    {
      Pow2(128 - bits)
    }

    /** The first address: what `Masked().Addr()` is. */
    function Base(): (base: Address)
    {
      var rest := addr % Size();
      assert rest <= addr by { ModBounds(addr, Size()); }
      addr - rest
    }

    function Masked(): Prefix {
      Prefix(Base(), bits)
    }

    predicate IsMasked() {
      addr == Base()
    }

    /** `netip.Prefix.Contains`, as an interval of addresses; `ContainsIsAgreementOfLeadingBits`
        shows that it is the comparison of the leading `bits` bits. */
    predicate Contains(a: Address) {
      Base() <= a < Base() + Size()
    }

    /** The prefix lies inside 2000::/3. */
    predicate IsGlobal() {
      bits >= GLOBAL_UNICAST.bits && GLOBAL_UNICAST.Contains(Base())
    }
  }

  /** 2000::/3. */
  const GLOBAL_UNICAST: Prefix := Prefix(0x2000_0000_0000_0000_0000_0000_0000_0000, 3)

  /** `Addr.Next`: undefined past the last address. */
  function Next(a: Address): Option<Address> {
    if a + 1 < ADDRESS_SPACE then Some(a + 1) else None
  }

  // ---- arithmetic of aligned blocks ----

  lemma ModBounds(a: nat, m: nat)
    requires m >= 1
    ensures 0 <= a % m < m && a % m <= a && a == (a / m) * m + a % m
  {
  }

  lemma Pow2Square(n: nat, m: nat, x: nat)
    requires Pow2(n) == x && m == 2 * n
    ensures Pow2(m) == x * x
  {
    Pow2Splits(n, n);
    assert n + n == m;
  }

  lemma AddressSpaceIsPow2(n: nat)
    requires n == 128
    ensures Pow2(n) == ADDRESS_SPACE
  {
    var n8, n16, n32, n64 := n / 16, n / 8, n / 4, n / 2;
    assert Pow2(n8) == 0x100 by { assert Pow2(8) == 0x100; }
    hide Pow2;
    Pow2Square(n8, n16, 0x100);
    Pow2Square(n16, n32, 0x1_0000);
    Pow2Square(n32, n64, 0x1_0000_0000);
    Pow2Square(n64, n, 0x1_0000_0000_0000_0000);
  }

  lemma {:induction false} Pow2Splits(m: nat, n: nat)
    ensures Pow2(m + n) == Pow2(m) * Pow2(n)
  {
    if m > 0 {
      Pow2Splits(m - 1, n);
      assert Pow2(m) * Pow2(n) == 2 * (Pow2(m - 1) * Pow2(n));
    }
  }

  lemma QuotientIsUnique(a: nat, m: nat, q: nat, r: nat)
    requires m >= 1 && a == q * m + r && r < m
    ensures a / m == q
  {
    var p := a / m;
    ModBounds(a, m);
    MultiplesAreApart(p, q, m);
    MultiplesAreApart(q, p, m);
  }

  lemma MultiplesAreApart(x: nat, y: nat, m: nat)
    ensures x < y ==> x * m + m <= y * m
    ensures x <= y ==> x * m <= y * m
  {
    if x < y {
      var d := y - x - 1;
      assert y * m == (x + 1 + d) * m == x * m + m + d * m;
    }
  }

  lemma HalvesTheQuotient(a: nat, m: nat)
    requires m >= 1
    ensures a / (2 * m) == (a / m) / 2
  {
    var q := a / m;
    var h, e := q / 2, q % 2;
    ModBounds(a, m);
    assert a == h * (2 * m) + (e * m + a % m) by {
      assert q * m == (2 * h + e) * m == h * (2 * m) + e * m;
    }
    assert e * m + a % m < 2 * m by { assert e * m <= m by { if e == 0 {} else { assert e == 1; } } }
    QuotientIsUnique(a, 2 * m, h, e * m + a % m);
  }

  /** Addresses in one small aligned block are in one larger aligned block. */
  lemma {:induction false} SameBlockWidens(a: nat, b: nat, m: nat, n: nat)
    requires m <= n && a / Pow2(m) == b / Pow2(m)
    ensures a / Pow2(n) == b / Pow2(n)
    decreases n
  {
    if m < n {
      SameBlockWidens(a, b, m, n - 1);
      HalvesTheQuotient(a, Pow2(n - 1));
      HalvesTheQuotient(b, Pow2(n - 1));
    }
  }

  /** A prefix is the interval of `Size()` addresses that share its leading bits. */
  lemma ContainsIsAgreementOfLeadingBits(p: Prefix, a: Address)
    ensures p.Contains(a) <==> a / p.Size() == p.addr / p.Size()
  {
    var m := p.Size();
    ModBounds(p.addr, m);
    ModBounds(a, m);
    if p.Contains(a) {
      QuotientIsUnique(a, m, p.addr / m, a - p.Base());
    }
  }

  /** The last address of a prefix is still an address. */
  lemma PrefixFits(p: Prefix)
    ensures p.Base() + p.Size() <= ADDRESS_SPACE
  {
    var m, k := p.Size(), Pow2(p.bits);
    AddressSpaceIsPow2(p.bits + (128 - p.bits));
    Pow2Splits(p.bits, 128 - p.bits);
    var q := p.addr / m;
    ModBounds(p.addr, m);
    assert p.Base() == q * m;
    MultiplesAreApart(k, q, m);
    MultiplesAreApart(q, k, m);
  }

  lemma MaskedKeepsTheRange(p: Prefix)
    ensures p.Masked().Base() == p.Base() && p.Masked().Size() == p.Size() && p.Masked().IsMasked()
    ensures forall a: Address :: p.Masked().Contains(a) <==> p.Contains(a)
  {
    var m := p.Size();
    ModBounds(p.addr, m);
    QuotientIsUnique(p.Base(), m, p.addr / m, 0);
    ModBounds(p.Base(), m);
  }

  lemma EighthOfTheSpace(n: nat)
    requires n == 125
    ensures 8 * Pow2(n) == ADDRESS_SPACE
  {
    var m, three := n + 3, n - 122;
    AddressSpaceIsPow2(m);
    assert Pow2(three) == 8 by { assert Pow2(3) == 8; }
    hide Pow2;
    Pow2Splits(three, n);
    assert three + n == m;
  }

  /** 2000::/3 is the second eighth of the address space. */
  lemma GlobalUnicastIs(a: Address)
    ensures GLOBAL_UNICAST.Contains(a) <==>
              0x2000_0000_0000_0000_0000_0000_0000_0000 <= a < 0x4000_0000_0000_0000_0000_0000_0000_0000
  {
    var g := GLOBAL_UNICAST;
    var n := 128 - g.bits;
    hide Pow2;
    EighthOfTheSpace(n);
    QuotientIsUnique(g.addr, g.Size(), 1, 0);
    ModBounds(g.addr, g.Size());
  }

  lemma ShorterIsLarger(p: Prefix, q: Prefix)
    requires p.bits < q.bits
    ensures p.Size() >= 2 * q.Size()
  {
    var d := q.bits - p.bits;
    assert 128 - p.bits == d + (128 - q.bits);
    Pow2Splits(d, 128 - q.bits);
    assert Pow2(d) >= 2;
    var m := q.Size();
    assert Pow2(d) * m >= 2 * m by { MultiplesAreApart(2, Pow2(d), m); }
  }

  /** A prefix is global unicast exactly when all of its addresses are in 2000::/3. */
  lemma GlobalMeans(p: Prefix)
    ensures p.IsGlobal() <==> forall a: Address :: p.Contains(a) ==> GLOBAL_UNICAST.Contains(a)
  {
    hide Pow2;
    var g := GLOBAL_UNICAST;
    BaseAndLast(p);
    if p.IsGlobal() {
      forall a: Address | p.Contains(a) ensures g.Contains(a) {
        ContainsIsAgreementOfLeadingBits(p, a);
        ContainsIsAgreementOfLeadingBits(p, p.Base());
        SameBlockWidens(a, p.Base(), 128 - p.bits, 128 - g.bits);
        ContainsIsAgreementOfLeadingBits(g, a);
        ContainsIsAgreementOfLeadingBits(g, p.Base());
      }
    } else if p.bits < g.bits {
      ShorterIsLarger(p, g);
      var last: Address := p.Base() + p.Size() - 1;
      assert !(g.Contains(p.Base()) && g.Contains(last));
    }
  }

  lemma BaseAndLast(p: Prefix)
    ensures p.Base() + p.Size() <= ADDRESS_SPACE && p.Contains(p.Base())
    ensures var last: Address := p.Base() + p.Size() - 1; p.Contains(last)
  {
    PrefixFits(p);
  }

  // ---- templates ----

  datatype ConfigMode = ModeAddress | ModeLocalRouteFreebind | ModeExternal | OtherMode(text: string)

  predicate ValidMode(mode: ConfigMode) {
    !mode.OtherMode?
  }

  datatype PrefixTemplate = PrefixTemplate(name: Name, prefix: Prefix, iface: string, mode: ConfigMode)

  datatype TemplateError = NameRequired | InterfaceRequired | UnsupportedMode | NotGlobalUnicast

  function NewPrefixTemplate(name: string, prefix: Prefix, iface: string,
                             mode: ConfigMode): Result<PrefixTemplate, TemplateError> {
    if Blank(name) then Err(NameRequired)
    else if Blank(iface) then Err(InterfaceRequired)
    else if !ValidMode(mode) then Err(UnsupportedMode)
    else if !prefix.Masked().IsGlobal() then Err(NotGlobalUnicast)
    else Ok(PrefixTemplate(Trim(name), prefix.Masked(), Trim(iface), mode))
  }

  /** The template that is made of acceptable arguments, and the first argument that is not. */
  lemma ConstructorAnswers(name: string, prefix: Prefix, iface: string, mode: ConfigMode)
    ensures var visible := !Blank(name) && !Blank(iface);
      var global := forall a: Address :: prefix.Contains(a) ==> GLOBAL_UNICAST.Contains(a);
      match NewPrefixTemplate(name, prefix, iface, mode)
      case Ok(t) =>
        && visible && (mode == ModeAddress || mode == ModeLocalRouteFreebind || mode == ModeExternal) && global
        && t == PrefixTemplate(Trim(name), prefix.Masked(), Trim(iface), mode)
      case Err(NameRequired) => Blank(name)
      case Err(InterfaceRequired) => !Blank(name) && Blank(iface)
      case Err(UnsupportedMode) => visible && mode.OtherMode?
      case Err(NotGlobalUnicast) => visible && !mode.OtherMode? && !global
  {
    hide Prefix.Contains, Prefix.Size, Trim;
    GlobalMeans(prefix.Masked());
    MaskedKeepsTheRange(prefix);
  }

  /** The loader's test: the constructor returns the template unchanged. */
  predicate Canonical(t: PrefixTemplate) {
    NewPrefixTemplate(t.name, t.prefix, t.iface, t.mode) == Ok(t)
  }

  /** Whatever the constructor returns passes the loader's test. */
  lemma ConstructedTemplatesAreCanonical(name: string, prefix: Prefix, iface: string, mode: ConfigMode)
    requires NewPrefixTemplate(name, prefix, iface, mode).Ok?
    ensures Canonical(NewPrefixTemplate(name, prefix, iface, mode).value)
  {
    TrimIsIdempotent(name);
    TrimIsIdempotent(iface);
    MaskedKeepsTheRange(prefix);
    MaskedKeepsTheRange(prefix.Masked());
  }

  predicate PrefixesOverlap(left: Prefix, right: Prefix) {
    left.Contains(right.addr) || right.Contains(left.addr)
  }

  /** The two-sided containment test finds exactly the pairs that share an address. */
  lemma OverlapMeansSharedAddress(left: Prefix, right: Prefix)
    ensures PrefixesOverlap(left, right) <==> exists a: Address :: left.Contains(a) && right.Contains(a)
  {
    ModBounds(left.addr, left.Size());
    ModBounds(right.addr, right.Size());
    assert left.Contains(left.addr) && right.Contains(right.addr);
    forall a: Address | left.Contains(a) && right.Contains(a) ensures PrefixesOverlap(left, right) {
      ContainsIsAgreementOfLeadingBits(left, a);
      ContainsIsAgreementOfLeadingBits(right, a);
      ContainsIsAgreementOfLeadingBits(left, right.addr);
      ContainsIsAgreementOfLeadingBits(right, left.addr);
      if left.bits >= right.bits {
        SameBlockWidens(a, left.addr, 128 - left.bits, 128 - right.bits);
      } else {
        SameBlockWidens(a, right.addr, 128 - right.bits, 128 - left.bits);
      }
    }
  }
}
