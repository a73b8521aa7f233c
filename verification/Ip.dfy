/**
 IP addresses and prefixes as the allocators use them: net/netip values, with the address
 families and the IPv4-mapped block (section 2.5.5.2 of RFC 4291) kept apart.
 */
module Ip {

  // ---------------------------------------------------------------------------------------
  // Shifting
  // ---------------------------------------------------------------------------------------

  /** `n` shifted left by `k` bits. */
  function Shl(n: nat, k: nat): (r: nat)
    ensures n <= r
  {
    if k == 0 then n else 2 * Shl(n, k - 1)
  }

  function Pow2(k: nat): (r: nat)
    ensures r >= 1
  {
    Shl(1, k)
  }

  lemma {:induction false} ShlAdd(a: nat, b: nat, k: nat)
    ensures Shl(a + b, k) == Shl(a, k) + Shl(b, k)
  {
    if k > 0 { ShlAdd(a, b, k - 1); }
  }

  lemma ShlMono(a: nat, b: nat, k: nat)
    requires a <= b
    ensures Shl(a, k) <= Shl(b, k)
  {
    ShlAdd(a, b - a, k);
  }

  lemma {:induction false} ShlShl(n: nat, j: nat, k: nat)
    ensures Shl(Shl(n, j), k) == Shl(n, j + k)
  {
    if k > 0 { ShlShl(n, j, k - 1); }
  }

  /** Leading and trailing bits are determined by the number. */
  lemma ShlUnique(k: nat, q: nat, r: nat, q': nat, r': nat)
    requires r < Pow2(k) && r' < Pow2(k) && Shl(q, k) + r == Shl(q', k) + r'
    ensures q == q' && r == r'
  {
    if q < q' {
      ShlMono(q + 1, q', k);
      ShlAdd(q, 1, k);
    } else if q' < q {
      ShlMono(q' + 1, q, k);
      ShlAdd(q', 1, k);
    }
  }

  lemma Shl8(n: nat)
    ensures Shl(n, 8) == 0x100 * n
  {
    assert Shl(n, 1) == 2 * n;
    assert Shl(n, 2) == 2 * Shl(n, 1);
    assert Shl(n, 3) == 2 * Shl(n, 2);
    assert Shl(n, 4) == 2 * Shl(n, 3);
    assert Shl(n, 5) == 2 * Shl(n, 4);
    assert Shl(n, 6) == 2 * Shl(n, 5);
    assert Shl(n, 7) == 2 * Shl(n, 6);
  }

  lemma Shl32(n: nat)
    ensures Shl(n, 32) == 0x1_0000_0000 * n
  {
    Shl8(n);
    Shl8(Shl(n, 8));
    ShlShl(n, 8, 8);
    Shl8(Shl(n, 16));
    ShlShl(n, 16, 8);
    Shl8(Shl(n, 24));
    ShlShl(n, 24, 8);
  }

  lemma Shl128(n: nat)
    ensures Shl(n, 128) == 0x1_0000_0000_0000_0000_0000_0000_0000_0000 * n
  {
    Shl32(n);
    Shl32(Shl(n, 32));
    ShlShl(n, 32, 32);
    Shl32(Shl(n, 64));
    ShlShl(n, 64, 32);
    Shl32(Shl(n, 96));
    ShlShl(n, 96, 32);
  }

  // ---------------------------------------------------------------------------------------
  // Addresses and prefixes
  // ---------------------------------------------------------------------------------------

  /** `NoAddr` is the zero netip.Addr, which is not valid. */
  datatype AnyAddr = NoAddr | V4(value: nat) | V6(value: nat)

  predicate InRange(a: AnyAddr) {
    match a
    case NoAddr => true
    case V4(n) => n < Limit(true)
    case V6(n) => n < Limit(false)
  }

  type Addr = a: AnyAddr | InRange(a) witness NoAddr

  function Width(v4: bool): nat { if v4 then 32 else 128 }

  /** How many addresses a family has. */
  function Limit(v4: bool): nat {
    if v4 then 0x1_0000_0000 else 0x1_0000_0000_0000_0000_0000_0000_0000_0000
  }

  lemma LimitIsPow2(v4: bool)
    ensures Pow2(Width(v4)) == Limit(v4)
  {
    Shl32(1);
    Shl128(1);
  }

  function MakeAddr(v4: bool, value: nat): (a: Addr)
    requires value < Limit(v4)
  {
    if v4 then V4(value) else V6(value)
  }

  /** The IPv4-mapped block ::ffff:0:0/96 starts at ::ffff:0:0. */
  const MAPPED_START: nat := 0xffff_0000_0000

  predicate Mapped(n: nat) { MAPPED_START <= n < MAPPED_START + Limit(true) }

  function Unmap(a: Addr): Addr {
    if a.V6? && Mapped(a.value) then V4(a.value - MAPPED_START) else a
  }

  /** The address after `a`; none after the last one of a family. */
  function Next(a: Addr): Addr {
    match a
    case NoAddr => NoAddr
    case V4(n) => if n + 1 < Limit(true) then V4(n + 1) else NoAddr
    case V6(n) => if n + 1 < Limit(false) then V6(n + 1) else NoAddr
  }

  /**
   A network prefix with its host bits zero: `lead` is the number that its `bits` leading bits
   denote.
   */
  datatype Prefix = Prefix(v4: bool, lead: nat, bits: nat) {
    predicate Valid() {
      bits <= Width(v4) && lead < Pow2(bits)
    }

    function HostBits(): nat {
      if bits <= Width(v4) then Width(v4) - bits else 0
    }

    function Size(): (n: nat)
      ensures n >= 1
    {
      Pow2(HostBits())
    }

    /** The value of the network address. */
    function Network(): nat { Shl(lead, HostBits()) }

    /** The address has the prefix's family and lies in its range. */
    predicate Contains(a: Addr) {
      !a.NoAddr? && v4 == a.V4? && Network() <= a.value < Network() + Size()
    }
  }

  /** Lying in the range is having the prefix's leading bits. */
  lemma ContainsIsLead(p: Prefix, lead: nat, host: nat)
    requires p.Valid() && lead < Pow2(p.bits) && host < p.Size()
    ensures Shl(lead, p.HostBits()) + host < Limit(p.v4)
    ensures p.Contains(MakeAddr(p.v4, Shl(lead, p.HostBits()) + host)) <==> lead == p.lead
  {
    PrefixFits(Prefix(p.v4, lead, p.bits));
    var n := Shl(lead, p.HostBits()) + host;
    if p.Contains(MakeAddr(p.v4, n)) {
      ShlUnique(p.HostBits(), lead, host, p.lead, n - p.Network());
    }
  }

  lemma PrefixFits(p: Prefix)
    requires p.Valid()
    ensures p.Network() + p.Size() <= Limit(p.v4)
  {
    LimitIsPow2(p.v4);
    ShlAdd(p.lead, 1, p.HostBits());
    ShlMono(p.lead + 1, Pow2(p.bits), p.HostBits());
    ShlShl(1, p.bits, p.HostBits());
  }
}
