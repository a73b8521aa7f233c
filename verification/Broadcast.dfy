/**
 broadcastAddr: the last address of a prefix, found by setting the host bits one by one in the
 16-byte form of the address.
 */
module Broadcast {
  import opened Ip

  /** A byte, most significant bit first; `b | 1 << j` is `b[7 - j := true]`. */
  type Octet = b: seq<bool> | |b| == 8 witness [false, false, false, false, false, false, false, false]

  /** The number a bit string denotes, most significant bit first. */
  function Value(bits: seq<bool>): nat {
    if bits == [] then 0
    else 2 * Value(bits[..|bits| - 1]) + if bits[|bits| - 1] then 1 else 0
  }

  /** The `k`-bit form of `n`. */
  function ToBits(n: nat, k: nat): (bits: seq<bool>)
    ensures |bits| == k
  {
    if k == 0 then [] else ToBits(n / 2, k - 1) + [n % 2 == 1]
  }

  lemma {:induction false} ValueToBits(n: nat, k: nat)
    requires n < Pow2(k)
    ensures Value(ToBits(n, k)) == n
  {
    if k > 0 {
      ValueToBits(n / 2, k - 1);
      assert ToBits(n, k)[..k - 1] == ToBits(n / 2, k - 1);
    }
  }

  lemma {:induction false} ValueBound(bits: seq<bool>)
    ensures Value(bits) < Pow2(|bits|)
  {
    if bits != [] { ValueBound(bits[..|bits| - 1]); }
  }

  lemma {:induction false} ValueConcat(a: seq<bool>, b: seq<bool>)
    ensures Value(a + b) == Shl(Value(a), |b|) + Value(b)
  {
    if b == [] {
      assert a + b == a;
    } else {
      var front := b[..|b| - 1];
      ValueConcat(a, front);
      assert (a + b)[..|a + b| - 1] == a + front;
    }
  }

  lemma {:induction false} ValueOnes(ones: seq<bool>)
    requires forall i :: 0 <= i < |ones| ==> ones[i]
    ensures Value(ones) == Pow2(|ones|) - 1
  {
    if ones != [] { ValueOnes(ones[..|ones| - 1]); }
  }

  /** Setting the trailing bits of a number whose trailing bits are zero. */
  lemma FillTrailing(a: seq<bool>, b: seq<bool>, ones: seq<bool>, lead: nat)
    requires |b| == |ones| && Value(a + b) == Shl(lead, |b|)
    requires forall i :: 0 <= i < |ones| ==> ones[i]
    ensures Value(a + ones) == Shl(lead, |b|) + Pow2(|b|) - 1
  {
    ValueConcat(a, b);
    ValueConcat(a, ones);
    ValueOnes(ones);
    ValueBound(b);
    ShlUnique(|b|, Value(a), Value(b), lead, 0);
  }

  lemma {:induction false} FillBits(bits: seq<bool>, filled: seq<bool>, h: nat, lead: nat)
    requires |bits| == |filled| && h <= |bits| && Value(bits) == Shl(lead, h)
    requires forall p :: 0 <= p < |bits| ==> filled[p] == (p >= |bits| - h || bits[p])
    ensures Value(filled) == Shl(lead, h) + Pow2(h) - 1
  {
    var m := |bits| - h;
    var a, b, ones := bits[..m], bits[m..], filled[m..];
    assert filled[..m] == a;
    assert bits == a + b;
    assert filled == a + ones;
    FillTrailing(a, b, ones, lead);
  }

  // ---------------------------------------------------------------------------------------
  // The last address of a prefix
  // ---------------------------------------------------------------------------------------

  /** The value of the 16-byte form of an address; IPv4 addresses are mapped. */
  function As16(v4: bool, value: nat): nat {
    if v4 then MAPPED_START + value else value
  }

  lemma PrependLead(ones: nat, bits: nat, lead: nat, host: nat)
    ensures Shl(ones, bits + host) + Shl(lead, host) == Shl(Shl(ones, bits) + lead, host)
  {
    ShlShl(ones, bits, host);
    ShlAdd(Shl(ones, bits), lead, host);
  }

  /** The 16-byte form of a network address has zero host bits too. */
  lemma As16Lead(p: Prefix) returns (lead: nat)
    requires p.Valid()
    ensures As16(p.v4, p.Network()) == Shl(lead, p.HostBits())
  {
    if p.v4 {
      Shl32(0xffff);
      PrependLead(0xffff, p.bits, p.lead, p.HostBits());
      lead := Shl(0xffff, p.bits) + p.lead;
    } else {
      lead := p.lead;
    }
  }

  /** The last address of a prefix, in the family that Unmap leaves it in. */
  function BroadcastOf(p: Prefix): Addr
    requires p.Valid()
  {
    PrefixFits(p);
    Unmap(MakeAddr(p.v4, p.Network() + p.Size() - 1))
  }

  /** All bits of some bytes, in order. */
  function Flat(bytes: seq<Octet>): (bits: seq<bool>)
    ensures |bits| == 8 * |bytes|
  {
    seq(8 * |bytes|, p requires 0 <= p < 8 * |bytes| => bytes[p / 8][p % 8])
  }

  lemma FilledValue(p: Prefix, n: nat, bits: seq<bool>, filled: seq<bool>)
    requires p.Valid() && n == As16(p.v4, p.Network()) && bits == ToBits(n, 128) && |filled| == 128
    requires forall q :: 0 <= q < 128 ==> filled[q] == (q >= 128 - p.HostBits() || bits[q])
    ensures Value(filled) == n + p.Size() - 1
  {
    PrefixFits(p);
    LimitIsPow2(false);
    ValueToBits(n, 128);
    var lead := As16Lead(p);
    FillBits(bits, filled, p.HostBits(), lead);
  }

  lemma BroadcastFrom16(p: Prefix, n: nat)
    requires p.Valid() && n == As16(p.v4, p.Network()) + p.Size() - 1
    ensures n < Limit(false) && Unmap(V6(n)) == BroadcastOf(p)
  {
    PrefixFits(p);
  }

  /** The loop: set the `hostBits` low bits of the 16 bytes in place. */
  method SetHostBits(ip: array<Octet>, hostBits: nat)
    requires ip.Length == 16 && hostBits <= 128
    modifies ip
    ensures forall q :: 0 <= q < 128 ==> Flat(ip[..])[q] == (q >= 128 - hostBits || old(Flat(ip[..]))[q])
  {
    for i := 0 to hostBits
      invariant forall a, b :: 0 <= a < 16 && 0 <= b < 8 ==> ip[a][b] == (8 * a + b >= 128 - i || old(ip[a])[b])
    {
      var byteIndex := 15 - i / 8;
      var bitIndex := i % 8;
      ip[byteIndex] := ip[byteIndex][7 - bitIndex := true];
    }
  }

  method BroadcastAddr(p: Prefix) returns (r: Addr)
    requires p.Valid()
    ensures r == BroadcastOf(p)
  {
    var n := As16(p.v4, p.Network());
    var bits := ToBits(n, 128);
    var ip := new Octet[16](i requires 0 <= i < 16 => bits[8 * i..8 * i + 8]);
    assert Flat(ip[..]) == bits;
    SetHostBits(ip, p.HostBits());
    var filled := Flat(ip[..]);
    FilledValue(p, n, bits, filled);
    BroadcastFrom16(p, Value(filled));
    r := Unmap(V6(Value(filled)));
  }
}
