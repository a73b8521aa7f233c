/**
 Recomputing the transport checksum of an inner IPv6 packet: a 64-bit sum over the pseudo-header
 and the payload in the machine's byte order, folded to 16 bits and complemented. The receiver
 checks it with one's-complement additions in network byte order (section 2 of RFC 1071; the
 pseudo-header is that of section 8.1 of RFC 8200).
 */
module Checksum {
  import opened Basics

  // ---------------------------------------------------------------------------------------
  // Words and sums
  // ---------------------------------------------------------------------------------------

  /** The 16-bit word stored as two bytes. */
  function Word16(big: bool, a: Byte, b: Byte): nat {
    if big then 0x100 * a + b else a + 0x100 * b
  }

  /** The 32-bit word stored as four bytes. */
  function Word32(big: bool, s: seq<Byte>): nat
    requires |s| == 4
  {
    if big then 0x1_0000 * Word16(true, s[0], s[1]) + Word16(true, s[2], s[3])
    else Word16(false, s[0], s[1]) + 0x1_0000 * Word16(false, s[2], s[3])
  }

  /** The sum of the 16-bit words of `s`, an odd last byte being padded with zero. */
  function Sum16(big: bool, s: seq<Byte>): nat {
    if s == [] then 0
    else if |s| == 1 then Word16(big, s[0], 0)
    else Word16(big, s[0], s[1]) + Sum16(big, s[2..])
  }

  /** Equal as one's-complement numbers, up to the two forms of zero. */
  ghost predicate Cong(a: int, b: int) { (a - b) % 0xffff == 0 }

  lemma {:induction false} Sum16Append(big: bool, s: seq<Byte>, t: seq<Byte>)
    requires |s| % 2 == 0
    ensures Sum16(big, s + t) == Sum16(big, s) + Sum16(big, t)
  {
    if s == [] {
      assert s + t == t;
    } else {
      assert (s + t)[2..] == s[2..] + t;
      Sum16Append(big, s[2..], t);
    }
  }

  lemma Sum16OfFour(big: bool, s: seq<Byte>)
    requires |s| == 4
    ensures Sum16(big, s) == Word16(big, s[0], s[1]) + Word16(big, s[2], s[3])
  {
    assert s[2..][0] == s[2] && s[2..][1] == s[3] && s[2..][2..] == [];
    assert Sum16(big, s[2..]) == Word16(big, s[2], s[3]) + Sum16(big, s[2..][2..]);
  }

  lemma CongBy(a: int, b: int, k: int)
    requires a - b == 0xffff * k
    ensures Cong(a, b)
  {
  }

  lemma CongTrans(a: int, b: int, c: int)
    requires Cong(a, b) && Cong(b, c)
    ensures Cong(a, c)
  {
    CongBy(a, c, (a - b) / 0xffff + (b - c) / 0xffff);
  }

  lemma CongAdd(a: int, b: int, c: int, d: int, sum: int)
    requires Cong(a, b) && Cong(c, d) && sum == b + d
    ensures Cong(a + c, sum)
  {
    CongBy(a + c, sum, (a - b) / 0xffff + (c - d) / 0xffff);
  }

  /** A 32-bit word counts as its two 16-bit words. */
  lemma Word32Cong(big: bool, s: seq<Byte>)
    requires |s| == 4
    ensures Cong(Word32(big, s), Sum16(big, s)) && Word32(big, s) <= 0xffff_ffff
  {
    Sum16OfFour(big, s);
    CongBy(Word32(big, s), Sum16(big, s), if big then Word16(true, s[0], s[1]) else Word16(false, s[2], s[3]));
  }

  /** Byte order: reading every word the other way round multiplies the sum by 256. */
  lemma {:induction false} ByteOrder(s: seq<Byte>)
    ensures Cong(Sum16(true, s), 0x100 * Sum16(false, s))
  {
    if |s| == 1 {
    } else if s != [] {
      ByteOrder(s[2..]);
      var w, v := Word16(true, s[0], s[1]), Word16(false, s[0], s[1]);
      var k: int := s[1];
      CongBy(w, 0x100 * v, -k);
      CongAdd(w, 0x100 * v, Sum16(true, s[2..]), 0x100 * Sum16(false, s[2..]), 0x100 * Sum16(false, s));
    }
  }

  lemma {:induction false} Positive(big: bool, s: seq<Byte>, i: nat)
    requires i < |s| && s[i] > 0
    ensures Sum16(big, s) > 0
    decreases |s|
  {
    if i >= 2 { Positive(big, s[2..], i - 2); }
  }

  // ---------------------------------------------------------------------------------------
  // The receiver
  // ---------------------------------------------------------------------------------------

  /** One's-complement addition: a carry out of the top is added at the bottom. */
  function OnesAdd(a: nat, b: nat): nat { if a + b > 0xffff then a + b - 0xffff else a + b }

  /** The receiver's sum, in network byte order. */
  function OnesSum(acc: nat, s: seq<Byte>): nat
    decreases |s|
  {
    if s == [] then acc
    else if |s| == 1 then OnesAdd(acc, Word16(true, s[0], 0))
    else OnesSum(OnesAdd(acc, Word16(true, s[0], s[1])), s[2..])
  }

  lemma {:induction false} OnesSumIs(acc: nat, s: seq<Byte>)
    requires acc <= 0xffff
    ensures OnesSum(acc, s) <= 0xffff && Cong(OnesSum(acc, s), acc + Sum16(true, s))
    ensures OnesSum(acc, s) == 0 <==> acc + Sum16(true, s) == 0
    decreases |s|
  {
    if |s| >= 2 {
      OnesSumIs(OnesAdd(acc, Word16(true, s[0], s[1])), s[2..]);
    }
  }

  // ---------------------------------------------------------------------------------------
  // The folds
  // ---------------------------------------------------------------------------------------

  function Fold32(n: nat): nat { n % 0x1_0000_0000 + n / 0x1_0000_0000 }

  function Fold16(n: nat): nat { n % 0x1_0000 + n / 0x1_0000 }

  function Folded(csum: nat): nat { Fold16(Fold16(Fold32(Fold32(csum)))) }

  lemma FoldCong(n: nat)
    ensures Cong(Fold32(n), n) && Cong(Fold16(n), n)
  {
    CongBy(Fold32(n), n, -0x1_0001 * (n / 0x1_0000_0000));
    CongBy(Fold16(n), n, -(n / 0x1_0000));
  }

  lemma Fold32Bounds(n: nat)
    ensures Fold32(n) > 0 <==> n > 0
    ensures n < 0x10_0000_0000 ==> Fold32(n) < 0x1_0000_0010
    ensures n < 0x1_0000_0010 ==> Fold32(n) < 0x1_0000_0000
  {
    var q, r := n / 0x1_0000_0000, n % 0x1_0000_0000;
    assert n == 0x1_0000_0000 * q + r;
  }

  lemma Fold16Bounds(n: nat)
    ensures Fold16(n) > 0 <==> n > 0
    ensures n < 0x1_0000_0000 ==> Fold16(n) <= 0x1_fffe
    ensures n <= 0x1_fffe ==> Fold16(n) <= 0xffff
  {
    var q, r := n / 0x1_0000, n % 0x1_0000;
    assert n == 0x1_0000 * q + r;
  }

  /** The folds give the 16-bit number that equals the sum in one's complement. */
  lemma FoldedIs(csum: nat)
    requires csum < 0x10_0000_0000
    ensures Folded(csum) <= 0xffff && Cong(Folded(csum), csum) && (Folded(csum) > 0 <==> csum > 0)
  {
    FoldedBounds(csum);
    var a, b, c := Fold32(csum), Fold32(Fold32(csum)), Fold16(Fold32(Fold32(csum)));
    FoldCong(csum);
    FoldCong(a);
    FoldCong(b);
    FoldCong(c);
    CongTrans(b, a, csum);
    CongTrans(c, b, csum);
    CongTrans(Fold16(c), c, csum);
  }

  lemma FoldedBounds(csum: nat)
    requires csum < 0x10_0000_0000
    ensures Folded(csum) <= 0xffff && (Folded(csum) > 0 <==> csum > 0)
  {
    Fold32Bounds(csum);
    Fold32Bounds(Fold32(csum));
    Fold16Bounds(Fold32(Fold32(csum)));
    Fold16Bounds(Fold16(Fold32(Fold32(csum))));
  }

  // ---------------------------------------------------------------------------------------
  // The packet
  // ---------------------------------------------------------------------------------------

  const TCP := 6
  const UDP := 17
  const ICMPV6 := 58
  const MAX_PAYLOAD := 1500

  /** Where the checksum of a protocol is, and whether the program handles it. */
  function ChecksumOffset(proto: Byte): nat { if proto == TCP then 16 else if proto == UDP then 6 else 2 }

  predicate Handles(proto: Byte, len: nat, room: nat) {
    len <= MAX_PAYLOAD <= room && (proto == TCP || proto == UDP || proto == ICMPV6)
  }

  /** The four bytes of a number in network byte order. */
  function Be32(n: nat): seq<Byte>
    requires n <= 0xffff
  {
    [0, 0, n / 0x100, n % 0x100]
  }

  /** The pseudo-header: both addresses, the length and the protocol. */
  function Pseudo(src: seq<Byte>, dst: seq<Byte>, len: nat, proto: Byte): (r: seq<Byte>)
    requires |src| == |dst| == 16 && len <= 0xffff
    ensures |r| == 40 && r[..16] == src && r[16..32] == dst && r[32] == r[33] == 0 && 0x100 * (r[34] as int) + (r[35] as int) == len
    ensures r[36] == r[37] == r[38] == 0 && r[39] == proto
  {
    src + dst + Be32(len) + Be32(proto)
  }

  /** A payload with the checksum field at `off` set to `c`, in the machine's byte order. */
  ghost predicate Stored(big: bool, s: seq<Byte>, off: nat, c: nat, r: seq<Byte>) {
    && |r| == |s| && off + 2 <= |s| && Word16(big, r[off], r[off + 1]) == c
    && r[..off] == s[..off] && r[off + 2..] == s[off + 2..]
  }

  lemma SumAround(big: bool, s: seq<Byte>, off: nat)
    requires off % 2 == 0 && off + 2 <= |s|
    ensures Sum16(big, s) == Sum16(big, s[..off]) + Word16(big, s[off], s[off + 1]) + Sum16(big, s[off + 2..])
  {
    Sum16Append(big, s[..off], s[off..]);
    assert s == s[..off] + s[off..];
    assert s[off..][2..] == s[off + 2..];
  }

  /** Storing `c` where zero was adds `c` to the sum. */
  lemma StoreSum(big: bool, s: seq<Byte>, off: nat, c: nat, r: seq<Byte>)
    requires Stored(big, s, off, c, r) && off % 2 == 0 && s[off] == s[off + 1] == 0
    ensures Sum16(big, r) == Sum16(big, s) + c
  {
    SumAround(big, s, off);
    SumAround(big, r, off);
  }

  /** A sum that is zero in one byte order is so in the other; if positive, it is 0xffff to the receiver. */
  lemma ReceiverOfZero(big: bool, s: seq<Byte>, i: nat)
    requires i < |s| && s[i] > 0 && Cong(Sum16(big, s), 0)
    ensures OnesSum(0, s) == 0xffff
  {
    Positive(true, s, i);
    OnesSumIs(0, s);
    if !big {
      ByteOrder(s);
      CongBy(0x100 * Sum16(false, s), 0, 0x100 * (Sum16(false, s) / 0xffff));
      CongTrans(Sum16(true, s), 0x100 * Sum16(false, s), 0);
    }
    CongTrans(OnesSum(0, s), Sum16(true, s), 0);
  }

  /**
   The receiver accepts: if `c` is the complement of a number that equals the sum over
   pseudo-header and payload, then the receiver's one's-complement sum over the pseudo-header and
   the payload with `c` stored is 0xffff, whatever the machine's byte order.
   */
  lemma ReceiverAccepts(big: bool, pseudo: seq<Byte>, i: nat, zeroed: seq<Byte>, off: nat, total: nat, c: nat, stored: seq<Byte>)
    requires |pseudo| % 2 == 0 && i < |pseudo| && pseudo[i] > 0
    requires Stored(big, zeroed, off, c, stored) && off % 2 == 0 && zeroed[off] == zeroed[off + 1] == 0
    requires Cong(total, Sum16(big, pseudo) + Sum16(big, zeroed)) && Cong(c + total, 0)
    ensures OnesSum(0, pseudo + stored) == 0xffff
  {
    StoredCancels(big, pseudo, zeroed, off, total, c, stored);
    assert (pseudo + stored)[i] == pseudo[i];
    ReceiverOfZero(big, pseudo + stored, i);
  }

  lemma {:induction false} StoredCancels(big: bool, pseudo: seq<Byte>, zeroed: seq<Byte>, off: nat, total: nat, c: nat, stored: seq<Byte>)
    requires |pseudo| % 2 == 0 && Stored(big, zeroed, off, c, stored) && off % 2 == 0 && zeroed[off] == zeroed[off + 1] == 0
    requires Cong(total, Sum16(big, pseudo) + Sum16(big, zeroed)) && Cong(c + total, 0)
    ensures Cong(Sum16(big, pseudo + stored), 0)
  {
    StoreSum(big, zeroed, off, c, stored);
    Sum16Append(big, pseudo, stored);
    Complement(total, Sum16(big, pseudo) + Sum16(big, zeroed), c);
  }

  lemma Complement(total: int, sum: int, c: int)
    requires Cong(total, sum) && Cong(c + total, 0)
    ensures Cong(sum + c, 0)
  {
    CongBy(sum + c, 0, (c + total) / 0xffff - (total - sum) / 0xffff);
  }

  // ---------------------------------------------------------------------------------------
  // The program
  // ---------------------------------------------------------------------------------------

  /** What the kernel's bpf_csum_diff promises when it does not fail: the payload's sum, in 32 bits. */
  ghost predicate SumsPayload(big: bool, csumDiff: seq<Byte> -> int) {
    forall s :: csumDiff(s) >= 0 ==> csumDiff(s) <= 0xffff_ffff && Cong(csumDiff(s), Sum16(big, s))
  }

  /** Adding the next 32-bit word of `s` to a sum over the words before it. */
  lemma NextWord(big: bool, s: seq<Byte>, j: nat, sum: nat)
    requires j + 4 <= |s| && j % 2 == 0 && Cong(sum, Sum16(big, s[..j]))
    ensures Cong(sum + Word32(big, s[j..j + 4]), Sum16(big, s[..j + 4])) && Word32(big, s[j..j + 4]) <= 0xffff_ffff
  {
    Word32Cong(big, s[j..j + 4]);
    assert s[..j + 4] == s[..j] + s[j..j + 4];
    Sum16Append(big, s[..j], s[j..j + 4]);
    CongAdd(sum, Sum16(big, s[..j]), Word32(big, s[j..j + 4]), Sum16(big, s[j..j + 4]), Sum16(big, s[..j + 4]));
  }

  /** Reads a 32-bit word of `s`; `sum` is a sum over the words before it. */
  method ReadWord(big: bool, s: seq<Byte>, j: nat, ghost sum: nat) returns (w: nat)
    requires j + 4 <= |s| && j % 2 == 0 && Cong(sum, Sum16(big, s[..j]))
    ensures w <= 0xffff_ffff && Cong(sum + w, Sum16(big, s[..j + 4]))
  {
    NextWord(big, s, j, sum);
    w := Word32(big, s[j..j + 4]);
  }

  method AddressSum(big: bool, src: seq<Byte>, dst: seq<Byte>) returns (csum: nat)
    requires |src| == |dst| == 16
    ensures csum <= 8 * 0xffff_ffff && Cong(csum, Sum16(big, src + dst))
  {
    csum := 0;
    ghost var a: nat, b: nat := 0, 0;
    for j := 0 to 4
      invariant csum == a + b <= 2 * j * 0xffff_ffff
      invariant Cong(a, Sum16(big, src[..4 * j])) && Cong(b, Sum16(big, dst[..4 * j]))
    {
      var s := ReadWord(big, src, 4 * j, a);
      var d := ReadWord(big, dst, 4 * j, b);
      csum := csum + s;
      csum := csum + d;
      a, b := a + s, b + d;
    }
    BothAddresses(big, src, dst, a, b);
  }

  lemma BothAddresses(big: bool, src: seq<Byte>, dst: seq<Byte>, a: nat, b: nat)
    requires |src| == |dst| == 16 && Cong(a, Sum16(big, src[..16])) && Cong(b, Sum16(big, dst[..16]))
    ensures Cong(a + b, Sum16(big, src + dst))
  {
    assert src[..16] == src && dst[..16] == dst;
    Sum16Append(big, src, dst);
    CongAdd(a, Sum16(big, src[..16]), b, Sum16(big, dst[..16]), Sum16(big, src + dst));
  }

  /** The sum over the pseudo-header. */
  method PseudoHeaderSum(big: bool, src: seq<Byte>, dst: seq<Byte>, len: nat, proto: Byte) returns (csum: nat)
    requires |src| == |dst| == 16 && len <= 0xffff
    ensures csum <= 10 * 0xffff_ffff && (proto > 0 ==> csum > 0)
    ensures Cong(csum, Sum16(big, Pseudo(src, dst, len, proto)))
  {
    csum := AddressSum(big, src, dst);
    ghost var s := Pseudo(src, dst, len, proto);
    assert s[..32] == src + dst && s[32..36] == Be32(len) && s[36..40] == Be32(proto) && s[..40] == s;
    NextWord(big, s, 32, csum);
    csum := csum + Word32(big, Be32(len));
    NextWord(big, s, 36, csum);
    csum := csum + Word32(big, Be32(proto));
  }

  method Fold(sum: nat) returns (csum: nat)
    requires 0 < sum < 0x10_0000_0000
    ensures 0 < csum <= 0xffff && Cong(csum, sum)
  {
    FoldedIs(sum);
    csum := sum;
    csum := Fold32(csum);
    csum := Fold32(csum);
    csum := Fold16(csum);
    csum := Fold16(csum);
  }

  /** The folds and the complement; UDP reserves zero for "no checksum". */
  method FoldAndComplement(sum: nat, udp: bool) returns (c: nat)
    requires 0 < sum < 0x10_0000_0000
    ensures Cong(c + sum, 0) && (if udp then 1 <= c <= 0xffff else c <= 0xfffe)
  {
    var csum := Fold(sum);
    c := 0xffff - csum;
    ghost var k := (csum - sum) / 0xffff;
    CongBy(c + sum, 0, 1 - k);
    if udp && c == 0 {
      CongBy(0xffff + sum, 0, 2 - k);
      c := 0xffff;
    }
  }

  /** Storing in the same field twice changes the two bytes of the field only. */
  lemma StoredOnly(big: bool, a: seq<Byte>, b: seq<Byte>, r: seq<Byte>, off: nat, c: nat, d: nat)
    requires Stored(big, a, off, c, b) && (r == b || Stored(big, b, off, d, r))
    ensures |r| == |a| && forall i :: 0 <= i < |a| && r[i] != a[i] ==> off <= i < off + 2
  {
    forall i | 0 <= i < |a| && !(off <= i < off + 2) ensures r[i] == a[i] {
      if i < off {
        assert a[..off][i] == b[..off][i] == r[..off][i];
      } else {
        assert a[off + 2..][i - off - 2] == b[off + 2..][i - off - 2] == r[off + 2..][i - off - 2];
      }
    }
  }

  method StoreWord(big: bool, l4: array<Byte>, off: nat, c: nat)
    requires off + 2 <= l4.Length && c <= 0xffff
    modifies l4
    ensures Stored(big, old(l4[..]), off, c, l4[..])
  {
    if big {
      l4[off], l4[off + 1] := c / 0x100, c % 0x100;
    } else {
      l4[off], l4[off + 1] := c % 0x100, c / 0x100;
    }
  }

  /**
   The program, on the bytes from the transport header on. It leaves alone a packet it does not
   handle. Otherwise it changes nothing but the checksum field: it leaves zero there if summing
   the payload fails, and else, provided the payload contains the field, a checksum that makes
   the receiver's sum 0xffff and is not zero for UDP.
   */
  method Recalculate(big: bool, src: seq<Byte>, dst: seq<Byte>, proto: Byte, l4: array<Byte>, len: nat, csumDiff: seq<Byte> -> int)
    returns (ghost zeroed: seq<Byte>, ghost c: nat)
    requires |src| == |dst| == 16 && len <= 0xffff && SumsPayload(big, csumDiff)
    modifies l4
    ensures !(len <= 1500 <= l4.Length && (proto == 6 || proto == 17 || proto == 58)) ==> l4[..] == old(l4[..])
    ensures forall i :: 0 <= i < l4.Length && l4[i] != old(l4[i]) ==>
              (proto == 6 && 16 <= i < 18) || (proto == 17 && 6 <= i < 8) || (proto == 58 && 2 <= i < 4)
    ensures Handles(proto, len, l4.Length) ==>
              && Stored(big, old(l4[..]), ChecksumOffset(proto), 0, zeroed) && Stored(big, zeroed, ChecksumOffset(proto), c, l4[..])
              && (csumDiff(zeroed[..len]) < 0 ==> c == 0)
              && (csumDiff(zeroed[..len]) >= 0 && proto == UDP ==> c != 0)
              && (csumDiff(zeroed[..len]) >= 0 && ChecksumOffset(proto) + 2 <= len ==>
                    OnesSum(0, Pseudo(src, dst, len, proto) + l4[..len]) == 0xffff)
  {
    zeroed, c := [], 0;
    if len > MAX_PAYLOAD || len > l4.Length || MAX_PAYLOAD > l4.Length {
      return;
    }
    if proto != TCP && proto != UDP && proto != ICMPV6 {
      return;
    }
    var off := ChecksumOffset(proto);
    ghost var before := l4[..];
    StoreWord(big, l4, off, 0);
    zeroed := l4[..];
    StoredOnly(big, before, zeroed, zeroed, off, 0, 0);
    var csum := PseudoHeaderSum(big, src, dst, len, proto);
    var raw := csumDiff(l4[..len]);
    assert l4[..len] == zeroed[..len];
    if raw < 0 {
      return;
    }
    var final := FoldAndComplement(csum + raw, proto == UDP);
    StoreWord(big, l4, off, final);
    c := final;
    StoredOnly(big, before, zeroed, l4[..], off, 0, final);
    if off + 2 <= len {
      Accepted(big, Pseudo(src, dst, len, proto), proto, zeroed, off, len, csum, raw, c, l4[..]);
    }
  }

  lemma Accepted(
    big: bool, pseudo: seq<Byte>, proto: Byte, zeroed: seq<Byte>, off: nat, len: nat, csum: nat, raw: nat, c: nat, r: seq<Byte>)
    requires |pseudo| == 40 && pseudo[39] == proto > 0 && off % 2 == 0 && off + 2 <= len <= |zeroed|
    requires Stored(big, zeroed, off, c, r) && Word16(big, zeroed[off], zeroed[off + 1]) == 0
    requires Cong(csum, Sum16(big, pseudo)) && Cong(raw, Sum16(big, zeroed[..len])) && Cong(c + (csum + raw), 0)
    ensures OnesSum(0, pseudo + r[..len]) == 0xffff
  {
    CongAdd(csum, Sum16(big, pseudo), raw, Sum16(big, zeroed[..len]), Sum16(big, pseudo) + Sum16(big, zeroed[..len]));
    assert r[..len][off + 2..] == r[off + 2..][..len - off - 2] == zeroed[..len][off + 2..];
    assert r[..len][..off] == r[..off] == zeroed[..len][..off];
    ReceiverAccepts(big, pseudo, 39, zeroed[..len], off, csum + raw, c, r[..len]);
  }
}
