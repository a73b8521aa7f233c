/**
 The allocators that only move forward: consecutive sub-prefixes of a network, and consecutive
 addresses of a network.
 */
module Allocators {
  import opened Ip
  import opened Broadcast
  import opened Basics

  // ---------------------------------------------------------------------------------------
  // Masking
  // ---------------------------------------------------------------------------------------

  /** `n` shifted right by `k` bits. */
  function Shr(n: nat, k: nat): nat
    decreases k
  {
    if k == 0 then n else Shr(n / 2, k - 1)
  }

  lemma {:induction false} ShrShl(n: nat, k: nat)
    ensures Shr(Shl(n, k), k) == n
  {
    if k > 0 { ShrShl(n, k - 1); }
  }

  lemma {:induction false} ShrBound(n: nat, k: nat, m: nat)
    requires n < Pow2(m + k)
    ensures Shr(n, k) < Pow2(m)
    decreases k
  {
    if k > 0 { ShrBound(n / 2, k - 1, m); }
  }

  /** Addr.Prefix: the prefix of `len` bits around an address. */
  function PrefixOf(a: Addr, len: nat): (p: Prefix)
    requires !a.NoAddr? && len <= Width(a.V4?)
    ensures p.Valid() && p.v4 == a.V4? && p.bits == len
  {
    LimitIsPow2(a.V4?);
    ShrBound(a.value, Width(a.V4?) - len, len);
    Prefix(a.V4?, Shr(a.value, Width(a.V4?) - len), len)
  }

  // ---------------------------------------------------------------------------------------
  // Sub-prefixes
  // ---------------------------------------------------------------------------------------

  /** What NewPrefixAllocator accepts. */
  ghost predicate Splits(base: Prefix, len: nat) {
    base.Valid() && base.bits < len <= Width(base.v4)
  }

  /** One call of Next, given the prefix assigned last; `None` is its error. */
  function PrefixAfter(base: Prefix, len: nat, last: Option<Prefix>): (r: Option<Prefix>)
    requires Splits(base, len) && (last.Some? ==> last.value.Valid())
    ensures r.Some? ==> r.value.Valid()
  {
    PrefixFits(base);
    var addr := if last.Some? then Next(BroadcastOf(last.value)) else MakeAddr(base.v4, base.Network());
    if addr.NoAddr? || len > Width(addr.V4?) then None
    else
      var p := PrefixOf(addr, len);
      PrefixFits(p);
      if base.Contains(MakeAddr(p.v4, p.Network())) then Some(p) else None
  }

  class PrefixAllocator {
    const base: Prefix
    const len: nat
    var last: Option<Prefix>

    ghost predicate Valid()
      reads this
    {
      Splits(base, len) && (last.Some? ==> last.value.Valid())
    }

    constructor (base: Prefix, len: nat)
      requires Splits(base, len)
      ensures Valid() && this.base == base && this.len == len && last == None
    {
      this.base, this.len, last := base, len, None;
    }

    method Next() returns (r: Option<Prefix>)
      requires Valid()
      modifies this
      ensures Valid() && r == PrefixAfter(base, len, old(last))
      ensures last == if r.Some? then r else old(last)
    {
      var addr: Addr;
      if last.Some? {
        var broadcast := BroadcastAddr(last.value);
        addr := Ip.Next(broadcast);
      } else {
        PrefixFits(base);
        addr := MakeAddr(base.v4, base.Network());
      }
      if addr.NoAddr? || len > Width(addr.V4?) {
        return None;
      }
      var p := PrefixOf(addr, len);
      PrefixFits(p);
      if !base.Contains(MakeAddr(p.v4, p.Network())) {
        return None;
      }
      last := Some(p);
      return Some(p);
    }
  }

  /** The number of sub-prefixes. */
  function Count(base: Prefix, len: nat): nat
    requires base.bits <= len
  {
    Pow2(len - base.bits)
  }

  /** The k-th sub-prefix. */
  function Kth(base: Prefix, len: nat, k: nat): Prefix
    requires base.bits <= len
  {
    Prefix(base.v4, Shl(base.lead, len - base.bits) + k, len)
  }

  lemma AppendFits(lead: nat, b: nat, k: nat, d: nat)
    requires lead < Pow2(b) && k < Pow2(d)
    ensures Shl(lead, d) + k < Pow2(b + d)
  {
    ShlAdd(lead, 1, d);
    ShlMono(lead + 1, Pow2(b), d);
    ShlShl(1, b, d);
  }

  lemma AppendShl(lead: nat, d: nat, k: nat, h: nat)
    ensures Shl(Shl(lead, d) + k, h) == Shl(lead, d + h) + Shl(k, h)
  {
    ShlAdd(Shl(lead, d), k, h);
    ShlShl(lead, d, h);
  }

  /** It starts k sub-prefix sizes after the base, and lies inside the base. */
  lemma KthFits(base: Prefix, len: nat, k: nat)
    requires Splits(base, len) && k < Count(base, len)
    ensures Kth(base, len, k).Valid()
    ensures Kth(base, len, k).Network() == base.Network() + Shl(k, Width(base.v4) - len)
    ensures Kth(base, len, k).Network() + Kth(base, len, k).Size() <= base.Network() + base.Size()
  {
    var d, h := len - base.bits, Width(base.v4) - len;
    AppendFits(base.lead, base.bits, k, d);
    AppendShl(base.lead, d, k, h);
    ShlAdd(k, 1, h);
    ShlMono(k + 1, Pow2(d), h);
    ShlShl(1, d, h);
  }

  /** The successor of the k-th sub-prefix starts where the next one would. */
  lemma KthSuccessor(base: Prefix, len: nat, k: nat)
    requires Splits(base, len) && k < Count(base, len)
    ensures Kth(base, len, k).Network() + Kth(base, len, k).Size() == base.Network() + Shl(k + 1, Width(base.v4) - len)
    ensures k + 1 == Count(base, len) ==> base.Network() + Shl(k + 1, Width(base.v4) - len) == base.Network() + base.Size()
  {
    KthFits(base, len, k);
    ShlAdd(k, 1, Width(base.v4) - len);
    ShlShl(1, len - base.bits, Width(base.v4) - len);
  }

  /** The last address of the k-th sub-prefix is an IPv4-mapped one, which Unmap turns into IPv4. */
  predicate Blocked(base: Prefix, len: nat, k: nat)
    requires base.bits <= len
  {
    !base.v4 && Mapped(Kth(base, len, k).Network() + Kth(base, len, k).Size() - 1)
  }

  lemma PrefixOfKth(base: Prefix, len: nat, k: nat, a: Addr)
    requires Splits(base, len) && !a.NoAddr? && a.V4? == base.v4 && a.value == Kth(base, len, k).Network()
    ensures PrefixOf(a, len) == Kth(base, len, k)
  {
    ShrShl(Kth(base, len, k).lead, Width(base.v4) - len);
  }

  /** The first call returns the first sub-prefix. */
  lemma FirstCall(base: Prefix, len: nat)
    requires Splits(base, len)
    ensures PrefixAfter(base, len, None) == Some(Kth(base, len, 0))
  {
    PrefixFits(base);
    KthFits(base, len, 0);
    ShlZero(Width(base.v4) - len);
    PrefixOfKth(base, len, 0, MakeAddr(base.v4, base.Network()));
  }

  lemma {:induction false} ShlZero(k: nat)
    ensures Shl(0, k) == 0
  {
    if k > 0 { ShlZero(k - 1); }
  }

  /** The address after a prefix: of the wrong family, or none, if the prefix ends in the mapped block. */
  lemma AddrAfterPrefix(p: Prefix)
    requires p.Valid()
    ensures var a, end := Next(BroadcastOf(p)), p.Network() + p.Size();
            if !p.v4 && Mapped(end - 1) then a.NoAddr? || a.V4?
            else if end < Limit(p.v4) then a == MakeAddr(p.v4, end)
            else a.NoAddr?
  {
    PrefixFits(p);
  }

  lemma KthAdjacent(base: Prefix, len: nat, k: nat)
    requires base.bits <= len <= Width(base.v4)
    ensures Kth(base, len, k + 1).Network() == Kth(base, len, k).Network() + Kth(base, len, k).Size()
  {
    ShlAdd(Kth(base, len, k).lead, 1, Width(base.v4) - len);
  }

  lemma NextSome(base: Prefix, len: nat, k: nat)
    requires Splits(base, len) && k + 1 < Count(base, len) && !Blocked(base, len, k)
    ensures Kth(base, len, k).Valid()
    ensures PrefixAfter(base, len, Some(Kth(base, len, k))) == Some(Kth(base, len, k + 1))
  {
    var next := Kth(base, len, k + 1);
    KthFits(base, len, k);
    AddrAfterPrefix(Kth(base, len, k));
    KthAdjacent(base, len, k);
    KthFits(base, len, k + 1);
    PrefixFits(next);
    PrefixOfKth(base, len, k + 1, MakeAddr(base.v4, next.Network()));
  }

  lemma NextNone(base: Prefix, len: nat, k: nat)
    requires Splits(base, len) && k < Count(base, len) && Kth(base, len, k).Valid()
    requires k + 1 == Count(base, len) || Blocked(base, len, k)
    ensures PrefixAfter(base, len, Some(Kth(base, len, k))) == None
  {
    var next := Kth(base, len, k + 1);
    AddrAfterPrefix(Kth(base, len, k));
    if !Blocked(base, len, k) {
      KthAdjacent(base, len, k);
      KthSuccessor(base, len, k);
      if next.Network() < Limit(base.v4) {
        PrefixOfKth(base, len, k + 1, MakeAddr(base.v4, next.Network()));
      }
    }
  }

  // ---------------------------------------------------------------------------------------
  // Calls one after the other
  // ---------------------------------------------------------------------------------------

  /** What was assigned last after `n` calls: a call that fails assigns nothing. */
  ghost function Iterated<T>(next: Option<T> -> Option<T>, n: nat): Option<T> {
    if n == 0 then None
    else
      var last := Iterated(next, n - 1);
      if next(last).Some? then next(last) else last
  }

  /** If after each result comes the following one, call `n` gives result number `n`. */
  lemma {:induction false} IteratedInOrder<T>(next: Option<T> -> Option<T>, kth: nat -> T, n: nat)
    requires next(None) == Some(kth(0)) && forall k :: 0 <= k < n ==> next(Some(kth(k))) == Some(kth(k + 1))
    ensures next(Iterated(next, n)) == Iterated(next, n + 1) == Some(kth(n))
  {
    if n > 0 {
      IteratedInOrder(next, kth, n - 1);
      assert next(Some(kth(n - 1))) == Some(kth(n - 1 + 1)) == Some(kth(n));
    }
  }

  lemma {:induction false} IteratedStuck<T>(next: Option<T> -> Option<T>, n: nat, m: nat)
    requires n <= m && next(Iterated(next, n)) == None
    ensures Iterated(next, m) == Iterated(next, n)
    decreases m
  {
    if n < m { IteratedStuck(next, n, m - 1); }
  }

  /** PrefixAfter as a function of the prefix assigned last. */
  ghost function NextPrefix(base: Prefix, len: nat): Option<Prefix> -> Option<Prefix>
    requires Splits(base, len)
  {
    (last: Option<Prefix>) => if last.Some? && !last.value.Valid() then None else PrefixAfter(base, len, last)
  }

  /** The prefix assigned last after `n` calls of Next on a new allocator. */
  ghost function LastAfter(base: Prefix, len: nat, n: nat): Option<Prefix>
    requires Splits(base, len)
  {
    Iterated(NextPrefix(base, len), n)
  }

  /** The result of call number `n`, counting from zero. */
  ghost function Call(base: Prefix, len: nat, n: nat): Option<Prefix>
    requires Splits(base, len)
  {
    NextPrefix(base, len)(LastAfter(base, len, n))
  }

  lemma NextPrefixAfter(base: Prefix, len: nat, k: nat)
    requires Splits(base, len) && k + 1 < Count(base, len) && !Blocked(base, len, k)
    ensures NextPrefix(base, len)(Some(Kth(base, len, k))) == Some(Kth(base, len, k + 1))
  {
    NextSome(base, len, k);
  }

  /** As long as nothing is blocked, call `n` returns the n-th sub-prefix. */
  lemma CallsInOrder(base: Prefix, len: nat, n: nat)
    requires Splits(base, len) && n < Count(base, len)
    requires forall k :: 0 <= k < n ==> !Blocked(base, len, k)
    ensures Call(base, len, n) == LastAfter(base, len, n + 1) == Some(Kth(base, len, n))
  {
    var next, kth := NextPrefix(base, len), (k: nat) => Kth(base, len, k);
    assert next(None) == Some(kth(0)) by { FirstCall(base, len); }
    forall k | 0 <= k < n ensures next(Some(kth(k))) == Some(kth(k + 1)) {
      NextPrefixAfter(base, len, k);
    }
    IteratedInOrder(next, kth, n);
  }

  /** A call that fails leaves the allocator as it was, so every later call fails too. */
  lemma FailureIsPermanent(base: Prefix, len: nat, n: nat, m: nat)
    requires Splits(base, len) && n <= m && Call(base, len, n) == None
    ensures Call(base, len, m) == None && LastAfter(base, len, m) == LastAfter(base, len, n)
  {
    IteratedStuck(NextPrefix(base, len), n, m);
  }

  /** The first blocked sub-prefix, or the last one: up to there all is in order, then calls fail. */
  lemma StopsAt(base: Prefix, len: nat) returns (stop: nat)
    requires Splits(base, len)
    ensures stop < Count(base, len) && (stop + 1 == Count(base, len) || Blocked(base, len, stop))
    ensures forall k :: 0 <= k < stop ==> !Blocked(base, len, k)
    ensures Call(base, len, stop + 1) == None
  {
    stop := 0;
    while stop + 1 < Count(base, len) && !Blocked(base, len, stop)
      invariant stop < Count(base, len) && forall k :: 0 <= k < stop ==> !Blocked(base, len, k)
      decreases Count(base, len) - stop
    {
      stop := stop + 1;
    }
    CallsInOrder(base, len, stop);
    KthFits(base, len, stop);
    NextNone(base, len, stop);
  }

  /**
   Next hands out every sub-prefix of the base in order, the k-th starting k sub-prefix sizes
   after the base: this holds exactly if no sub-prefix but the last ends in the IPv4-mapped block.
   */
  lemma AllocatesAllPrefixes(base: Prefix, len: nat)
    requires Splits(base, len)
    ensures (forall n :: 0 <= n < Count(base, len) ==> Call(base, len, n) == Some(Kth(base, len, n)))
            <==> (forall k :: 0 <= k < Count(base, len) - 1 ==> !Blocked(base, len, k))
  {
    var stop := StopsAt(base, len);
    if stop + 1 == Count(base, len) {
      forall n | 0 <= n < Count(base, len) ensures Call(base, len, n) == Some(Kth(base, len, n)) {
        CallsInOrder(base, len, n);
      }
    }
  }

  /** After as many calls as there are sub-prefixes, every call fails. */
  lemma FailsAfterwards(base: Prefix, len: nat, n: nat)
    requires Splits(base, len) && n >= Count(base, len)
    ensures Call(base, len, n) == None
  {
    var stop := StopsAt(base, len);
    FailureIsPermanent(base, len, stop + 1, n);
  }

  /** Splitting ::/64 into /96 networks, number 0xffff is the mapped block. */
  lemma MappedBlockIsBlocked(base: Prefix)
    requires base == Prefix(false, 0, 64)
    ensures Splits(base, 96) && Blocked(base, 96, 0xffff)
  {
    Shl32(1);
    ShlZero(32);
    Shl32(0xffff);
    assert Kth(base, 96, 0xffff).HostBits() == 32;
  }

  /** The condition is needed: that split stops at the mapped block. */
  lemma MappedBlockStopsAllocation(base: Prefix)
    requires base == Prefix(false, 0, 64)
    ensures Splits(base, 96)
    ensures !(forall n :: 0 <= n < Count(base, 96) ==> Call(base, 96, n) == Some(Kth(base, 96, n)))
  {
    MappedBlockIsBlocked(base);
    Shl32(1);
    AllocatesAllPrefixes(base, 96);
  }

  /** A base that does not meet the mapped block is never blocked. */
  lemma UnblockedOutsideMapped(base: Prefix, len: nat, k: nat)
    requires Splits(base, len) && k < Count(base, len)
    requires base.v4 || base.Network() + base.Size() <= MAPPED_START || MAPPED_START + Limit(true) <= base.Network()
    ensures !Blocked(base, len, k)
  {
    KthFits(base, len, k);
  }

  /** Two prefixes of one length that share an address are the same. */
  lemma SameLengthMeet(p: Prefix, q: Prefix, a: Addr)
    requires p.v4 == q.v4 && p.bits == q.bits && p.Contains(a) && q.Contains(a)
    ensures p == q
  {
    ShlUnique(p.HostBits(), p.lead, a.value - p.Network(), q.lead, a.value - q.Network());
  }

  /** The sub-prefixes are inside the base and pairwise disjoint. */
  lemma SubPrefixesDisjoint(base: Prefix, len: nat, i: nat, j: nat, a: Addr)
    requires Splits(base, len) && i < Count(base, len) && j < Count(base, len)
    requires Kth(base, len, i).Contains(a)
    ensures base.Contains(a) && (Kth(base, len, j).Contains(a) ==> i == j)
  {
    KthFits(base, len, i);
    if Kth(base, len, j).Contains(a) { SameLengthMeet(Kth(base, len, i), Kth(base, len, j), a); }
  }

  // ---------------------------------------------------------------------------------------
  // Single addresses
  // ---------------------------------------------------------------------------------------

  /** One call of addrAllocator.Next, given the address assigned last. */
  function AddrAfter(base: Prefix, last: Addr): Option<Addr> {
    var next := Next(last);
    if !base.Contains(next) || !base.Contains(Next(next)) then None else Some(next)
  }

  class AddrAllocator {
    const base: Prefix
    var last: Addr

    constructor (base: Prefix)
      requires base.Valid()
      ensures this.base == base && base.Network() < Limit(base.v4) && last == MakeAddr(base.v4, base.Network())
    {
      PrefixFits(base);
      this.base, last := base, MakeAddr(base.v4, base.Network());
    }

    method Next() returns (r: Option<Addr>)
      modifies this
      ensures r == AddrAfter(base, old(last)) && last == if r.Some? then r.value else old(last)
    {
      var next := Ip.Next(last);
      var isOutOfRange := !base.Contains(next);
      var isBroadcast := !base.Contains(Ip.Next(next));
      if isOutOfRange || isBroadcast {
        return None;
      }
      last := next;
      return Some(next);
    }
  }

  /** After the address at offset k comes the one at offset k + 1, up to the last but one of the network. */
  lemma NextAddress(base: Prefix, k: nat)
    requires base.Valid() && k < base.Size()
    ensures base.Network() + k < Limit(base.v4)
    ensures AddrAfter(base, MakeAddr(base.v4, base.Network() + k)) ==
            if k + 2 < base.Size() then PrefixFits(base); Some(MakeAddr(base.v4, base.Network() + k + 1)) else None
  {
    PrefixFits(base);
  }

  /** AddrAfter as a function of the address assigned last; a new allocator starts at the network address. */
  ghost function NextAddr(base: Prefix): Option<Addr> -> Option<Addr>
    requires base.Valid()
  {
    PrefixFits(base);
    (last: Option<Addr>) => AddrAfter(base, if last.Some? then last.value else MakeAddr(base.v4, base.Network()))
  }

  /** The result of call number `n`, counting from zero. */
  ghost function AddrCall(base: Prefix, n: nat): Option<Addr>
    requires base.Valid()
  {
    NextAddr(base)(Iterated(NextAddr(base), n))
  }

  /** The address at an offset. */
  function AtOffset(base: Prefix, k: nat): Addr {
    if base.Network() + k < Limit(base.v4) then MakeAddr(base.v4, base.Network() + k) else NoAddr
  }

  lemma NextAddrIs(base: Prefix, k: nat)
    requires base.Valid() && k < base.Size()
    ensures NextAddr(base)(if k == 0 then None else Some(AtOffset(base, k)))
         == if k + 2 < base.Size() then Some(AtOffset(base, k + 1)) else None
  {
    PrefixFits(base);
    NextAddress(base, k);
  }

  lemma AddressInOrder(base: Prefix, n: nat)
    requires base.Valid() && n + 2 < base.Size()
    ensures AddrCall(base, n) == Iterated(NextAddr(base), n + 1) == Some(AtOffset(base, n + 1))
  {
    var next, kth := NextAddr(base), (k: nat) => AtOffset(base, k + 1);
    assert next(None) == Some(kth(0)) by { NextAddrIs(base, 0); }
    forall k | 0 <= k < n ensures next(Some(kth(k))) == Some(kth(k + 1)) { NextAddrIs(base, k + 1); }
    IteratedInOrder(next, kth, n);
  }

  /** A call fails from the moment on at which the addresses are used up: `k` calls have succeeded. */
  lemma FailsFrom(base: Prefix, k: nat, n: nat)
    requires base.Valid() && k < base.Size() <= k + 2 && k <= n
    requires Iterated(NextAddr(base), k) == if k == 0 then None else Some(AtOffset(base, k))
    ensures AddrCall(base, n) == None
  {
    NextAddrIs(base, k);
    IteratedStuck(NextAddr(base), k, n);
  }

  /** Once the addresses are used up, calls fail. */
  lemma AddressesEnd(base: Prefix, n: nat)
    requires base.Valid() && n + 2 >= base.Size()
    ensures AddrCall(base, n) == None
  {
    if base.Size() <= 2 {
      FailsFrom(base, 0, n);
    } else {
      var k := base.Size() - 2;
      AddressInOrder(base, k - 1);
      FailsFrom(base, k, n);
    }
  }

  /**
   The calls hand out exactly the addresses between the first and the last of the network, in
   order: call number n returns network + n + 1, and once these are used up every call fails.
   */
  lemma AddressesInOrder(base: Prefix, n: nat)
    requires base.Valid()
    ensures n + 2 < base.Size() ==> base.Network() + n + 1 < Limit(base.v4) && AddrCall(base, n) == Some(MakeAddr(base.v4, base.Network() + n + 1))
    ensures n + 2 >= base.Size() ==> AddrCall(base, n) == None
  {
    PrefixFits(base);
    if n + 2 < base.Size() { AddressInOrder(base, n); } else { AddressesEnd(base, n); }
  }
}
