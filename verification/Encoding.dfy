/**
 P4Runtime values: a number given in decimal or hexadecimal becomes a big-endian byte string of
 the width of its field.
 */
module Encoding {
  import opened Basics
  import Decimal

  // ---------------------------------------------------------------------------------------
  // Big-endian numbers
  // ---------------------------------------------------------------------------------------

  /** The number that bytes stand for, the most significant first. */
  function Value(b: seq<Byte>): nat {
    if b == [] then 0 else 0x100 * Value(b[..|b| - 1]) + b[|b| - 1]
  }

  /** `n` in `len` bytes, without the bytes that do not fit. */
  function BigEndian(n: nat, len: nat): (r: seq<Byte>)
    ensures |r| == len
  {
    if len == 0 then [] else BigEndian(n / 0x100, len - 1) + [n % 0x100]
  }

  function Zeros(n: nat): (r: seq<Byte>)
    ensures |r| == n
  {
    seq(n, _ => 0)
  }

  /** big.Int.Bytes: no leading zeros. */
  function Bytes(n: nat): seq<Byte> {
    if n == 0 then [] else Bytes(n / 0x100) + [n % 0x100]
  }

  lemma {:induction false} BytesValue(n: nat)
    ensures Value(Bytes(n)) == n
  {
    if n > 0 {
      BytesValue(n / 0x100);
      assert Bytes(n)[..|Bytes(n)| - 1] == Bytes(n / 0x100);
    }
  }

  /** The number of a nonempty string, taken apart. */
  lemma ValueSplit(init: seq<Byte>, last: Byte)
    ensures Value(init + [last]) / 0x100 == Value(init) && Value(init + [last]) % 0x100 == last
  {
    ValueSnoc(init, last);
  }

  /** A string cut or padded to a width, with one more byte at the end. */
  function Fitted(b: seq<Byte>, size: nat): seq<Byte> {
    if size <= |b| then b[|b| - size..] else Zeros(size - |b|) + b
  }

  lemma FittedSnoc(init: seq<Byte>, last: Byte, size: nat)
    ensures Fitted(init + [last], size + 1) == Fitted(init, size) + [last]
  {
  }

  lemma FittedEmpty(size: nat)
    ensures Fitted([], size + 1) == Fitted([], size) + [0]
  {
    assert Zeros(size) + [0] == Zeros(size + 1);
  }

  /** Cutting off leading bytes or putting zeros before them gives the same number in another width. */
  lemma {:induction false} PaddedIs(b: seq<Byte>, size: nat)
    ensures BigEndian(Value(b), size) == Fitted(b, size)
    decreases size
  {
    if size == 0 {
      assert b[|b|..] == [];
    } else if b == [] {
      PaddedIs([], size - 1);
      FittedEmpty(size - 1);
    } else {
      var init, last := b[..|b| - 1], b[|b| - 1];
      assert b == init + [last];
      ValueSplit(init, last);
      FittedSnoc(init, last, size - 1);
      PaddedIs(init, size - 1);
    }
  }

  function Pow256(k: nat): (r: nat)
    ensures r > 0
  {
    if k == 0 then 1 else 0x100 * Pow256(k - 1)
  }

  lemma NoMultiple(d: int, k: int)
    requires -d < d * k < d
    ensures k == 0
  {
  }

  lemma RemainderIs(n: nat, d: nat, q: nat, r: nat)
    requires r < d && n == d * q + r
    ensures n % d == r
  {
    assert n == d * (n / d) + n % d;
    assert d * (n / d - q) == d * (n / d) - d * q;
    NoMultiple(d, n / d - q);
  }

  /** What the bytes leave out. */
  function Quotient(n: nat, len: nat): nat {
    if len == 0 then n else Quotient(n / 0x100, len - 1)
  }

  lemma Regroup(p: nat, q: nat)
    ensures (0x100 * p) * q == 0x100 * (p * q)
  {
  }

  lemma {:induction false} BigEndianParts(n: nat, len: nat)
    ensures n == Pow256(len) * Quotient(n, len) + Value(BigEndian(n, len)) && Value(BigEndian(n, len)) < Pow256(len)
    decreases len
  {
    if len > 0 {
      var q, p, init := Quotient(n, len), Pow256(len - 1), BigEndian(n / 0x100, len - 1);
      BigEndianParts(n / 0x100, len - 1);
      assert BigEndian(n, len)[..len - 1] == init;
      assert Value(BigEndian(n, len)) == 0x100 * Value(init) + n % 0x100;
      Regroup(p, q);
    }
  }

  /** It is the only string of `len` bytes for `n` modulo 256 to the power of `len`. */
  lemma BigEndianUnique(n: nat, len: nat, r: seq<Byte>)
    ensures r == BigEndian(n, len) <==> |r| == len && Value(r) == n % Pow256(len)
  {
    BigEndianParts(n, len);
    RemainderIs(n, Pow256(len), Quotient(n, len), Value(BigEndian(n, len)));
    PaddedIs(r, |r|);
    PaddedIs(BigEndian(n, len), len);
  }

  method PadToWidth(b: seq<Byte>, size: nat) returns (r: seq<Byte>)
    ensures r == BigEndian(Value(b), size)
  {
    PaddedIs(b, size);
    if |b| == size {
      return b;
    }
    if |b| > size {
      return b[|b| - size..];
    }
    var padded := new Byte[size](_ => 0);
    for i := 0 to |b|
      invariant padded[..] == (Zeros(size - |b|) + b)[..size - |b| + i] + Zeros(|b| - i)
    {
      padded[size - |b| + i] := b[i];
    }
    return padded[..];
  }

  // ---------------------------------------------------------------------------------------
  // Hexadecimal
  // ---------------------------------------------------------------------------------------

  predicate IsHex(c: char) { '0' <= c <= '9' || 'a' <= c <= 'f' || 'A' <= c <= 'F' }

  function HexDigit(c: char): (d: nat)
    requires IsHex(c)
    ensures d < 16
  {
    if c <= '9' then (c - '0') as nat else if 'a' <= c then (c - 'a') as nat + 10 else (c - 'A') as nat + 10
  }

  /** The digits, in lower and in upper case. */
  lemma HexDigitIs(c: char)
    requires IsHex(c)
    ensures c == "0123456789abcdef"[HexDigit(c)] || c == "0123456789ABCDEF"[HexDigit(c)]
  {
  }

  predicate AllHex(s: string) { forall i :: 0 <= i < |s| ==> IsHex(s[i]) }

  function HexValue(s: string): nat
    requires AllHex(s)
  {
    if s == "" then 0 else 16 * HexValue(s[..|s| - 1]) + HexDigit(s[|s| - 1])
  }

  function TrimPrefix(s: string, p: string): string { if p <= s then s[|p|..] else s }

  /** The digits of a spelling: a prefix 0x, then a prefix 0X, are taken off. */
  function HexDigits(s: string): string { TrimPrefix(TrimPrefix(s, "0x"), "0X") }

  /** What EncodeHexString promises: the number in `len` bytes, or an error if there is another character. */
  function HexEncoding(s: string, len: nat): Option<seq<Byte>> {
    if AllHex(HexDigits(s)) then Some(BigEndian(HexValue(HexDigits(s)), len)) else None
  }

  lemma {:induction false} LeadingZero(s: string)
    requires AllHex(s)
    ensures AllHex("0" + s) && HexValue("0" + s) == HexValue(s)
  {
    if s == "" {
      assert ("0" + s)[..0] == "";
    } else {
      assert AllHex(s[..|s| - 1]);
      LeadingZero(s[..|s| - 1]);
      assert ("0" + s)[..|s|] == "0" + s[..|s| - 1];
    }
  }

  lemma HexSnoc(s: string, c: char)
    requires AllHex(s) && IsHex(c)
    ensures AllHex(s + [c]) && HexValue(s + [c]) == 16 * HexValue(s) + HexDigit(c)
  {
    assert (s + [c])[..|s|] == s;
  }

  /** Two more digits of a text. */
  lemma TwoDigits(s: string, i: nat)
    requires i + 2 <= |s| && AllHex(s[..i]) && IsHex(s[i]) && IsHex(s[i + 1])
    ensures AllHex(s[..i + 2]) && HexValue(s[..i + 2]) == 0x100 * HexValue(s[..i]) + 16 * HexDigit(s[i]) + HexDigit(s[i + 1])
  {
    HexSnoc(s[..i], s[i]);
    HexSnoc(s[..i] + [s[i]], s[i + 1]);
    assert s[..i + 2] == s[..i] + [s[i]] + [s[i + 1]];
  }

  lemma ValueSnoc(b: seq<Byte>, d: Byte)
    ensures Value(b + [d]) == 0x100 * Value(b) + d
  {
    assert (b + [d])[..|b|] == b;
  }

  /** hex.DecodeString, on a text of even length. */
  method DecodeString(s: string) returns (r: Option<seq<Byte>>)
    requires |s| % 2 == 0
    ensures r.Some? <==> AllHex(s)
    ensures r.Some? ==> Value(r.value) == HexValue(s)
  {
    var b: seq<Byte> := [];
    var i := 0;
    while i < |s|
      invariant 0 <= i <= |s| && i % 2 == 0
      invariant AllHex(s[..i]) && Value(b) == HexValue(s[..i])
    {
      if !IsHex(s[i]) || !IsHex(s[i + 1]) {
        return None;
      }
      var d := 16 * HexDigit(s[i]) + HexDigit(s[i + 1]);
      TwoDigits(s, i);
      ValueSnoc(b, d);
      b := b + [d];
      i := i + 2;
    }
    assert s[..|s|] == s;
    return Some(b);
  }

  /** A zero in front changes neither whether all are digits nor the number. */
  lemma EvenDigits(t: string)
    ensures AllHex("0" + t) <==> AllHex(t)
    ensures AllHex(t) ==> HexValue("0" + t) == HexValue(t)
  {
    if AllHex(t) { LeadingZero(t); }
    assert forall i :: 0 <= i < |t| ==> t[i] == ("0" + t)[i + 1];
  }

  method EncodeHexString(s: string, byteLen: nat) returns (r: Option<seq<Byte>>)
    ensures r == HexEncoding(s, byteLen)
  {
    var t := TrimPrefix(s, "0x");
    t := TrimPrefix(t, "0X");
    if |t| % 2 != 0 {
      EvenDigits(t);
      t := "0" + t;
    }
    var b := DecodeString(t);
    if b.None? {
      return None;
    }
    var padded := PadToWidth(b.value, byteLen);
    return Some(padded);
  }

  // ---------------------------------------------------------------------------------------
  // Decimal
  // ---------------------------------------------------------------------------------------

  predicate AllDigits(s: string) { s != "" && forall i :: 0 <= i < |s| ==> '0' <= s[i] <= '9' }

  function DigitsValue(s: string): nat
    requires forall i :: 0 <= i < |s| ==> '0' <= s[i] <= '9'
  {
    if s == "" then 0 else 10 * DigitsValue(s[..|s| - 1]) + (s[|s| - 1] - '0') as nat
  }

  function Unsigned(s: string): string { if s != "" && (s[0] == '+' || s[0] == '-') then s[1..] else s }

  /** The absolute value of a number in base ten, which may have a sign and leading zeros; its sign is not encoded. */
  function ParseInt(s: string): Option<nat> {
    if AllDigits(Unsigned(s)) then Some(DigitsValue(Unsigned(s))) else None
  }

  /** A value as given by the user: at most one of the fields is used, in this order. For the last three, what parsing gave. */
  datatype ParametrizedValue = ParametrizedValue(
    rawHex: Option<string>, decimal: Option<string>,
    ipv4: Option<Option<seq<Byte>>>, ipv6: Option<Option<seq<Byte>>>, mac: Option<Option<seq<Byte>>>)

  function IntEncoding(s: string, len: nat): Option<seq<Byte>> {
    if ParseInt(s).Some? then Some(BigEndian(ParseInt(s).value, len)) else None
  }

  /** The least number of bytes that hold so many bits. */
  function ByteLen(bitwidth: nat): (n: nat)
    ensures 8 * n - 8 < bitwidth <= 8 * n
  {
    (bitwidth + 7) / 8
  }

  method EncodeValue(v: ParametrizedValue, bitwidth: nat) returns (r: Option<seq<Byte>>)
    ensures v.rawHex.Some? ==> r == HexEncoding(v.rawHex.value, ByteLen(bitwidth))
    ensures v.rawHex.None? && v.decimal.Some? ==> r == IntEncoding(v.decimal.value, ByteLen(bitwidth))
    ensures (v.rawHex.Some? || v.decimal.Some?) && r.Some? ==> 8 * |r.value| - 8 < bitwidth <= 8 * |r.value|
    ensures v.rawHex.None? && v.decimal.None? ==>
              r == if v.ipv4.Some? then v.ipv4.value else if v.ipv6.Some? then v.ipv6.value else if v.mac.Some? then v.mac.value else None
  {
    var byteLen := (bitwidth + 7) / 8;
    if v.rawHex.Some? {
      r := EncodeHexString(v.rawHex.value, byteLen);
      return;
    }
    if v.decimal.Some? {
      var n := ParseInt(v.decimal.value);
      if n.None? {
        return None;
      }
      BytesValue(n.value);
      var padded := PadToWidth(Bytes(n.value), byteLen);
      return Some(padded);
    }
    if v.ipv4.Some? {
      return v.ipv4.value;
    }
    if v.ipv6.Some? {
      return v.ipv6.value;
    }
    if v.mac.Some? {
      return v.mac.value;
    }
    return None;
  }

  // ---------------------------------------------------------------------------------------
  // Spellings
  // ---------------------------------------------------------------------------------------

  function HexChar(d: nat): char
    requires d < 16
  {
    if d < 10 then '0' + d as char else 'a' + (d - 10) as char
  }

  /** The hexadecimal spelling of `n`, without leading zeros. */
  function SpellHex(n: nat): (s: string)
    ensures s != "" && AllHex(s)
  {
    if n < 16 then [HexChar(n)] else SpellHex(n / 16) + [HexChar(n % 16)]
  }

  lemma {:induction false} SpellHexValue(n: nat)
    ensures HexValue(SpellHex(n)) == n
  {
    var s := SpellHex(n);
    if n >= 16 {
      SpellHexValue(n / 16);
      assert s[..|s| - 1] == SpellHex(n / 16);
    }
  }

  lemma {:induction false} SpellValue(n: nat)
    ensures DigitsValue(Decimal.Spell(n)) == n
  {
    var s := Decimal.Spell(n);
    if n >= 10 {
      SpellValue(n / 10);
      assert s[..|s| - 1] == Decimal.Spell(n / 10);
    }
  }

  lemma {:induction false} LeadingZeros(k: nat, s: string)
    requires AllDigits(s)
    ensures AllDigits(seq(k, _ => '0') + s) && DigitsValue(seq(k, _ => '0') + s) == DigitsValue(s)
    decreases |s|
  {
    var z := seq(k, _ => '0') + s;
    assert z[..|z| - 1] == seq(k, _ => '0') + s[..|s| - 1];
    if |s| > 1 { LeadingZeros(k, s[..|s| - 1]); } else { ZerosValue(k); }
  }

  lemma {:induction false} ZerosValue(k: nat)
    ensures DigitsValue(seq(k, _ => '0')) == 0
  {
    if k > 0 {
      ZerosValue(k - 1);
      assert seq(k, _ => '0')[..k - 1] == seq(k - 1, _ => '0');
    }
  }

  /**
   Every number and every width: the decimal spelling, with any number of leading zeros, and the
   hexadecimal one, with or without a prefix, encode to the same bytes, and these are the only
   ones of that length that stand for the number modulo 256 to the power of the length.
   */
  lemma SpellingsAgree(n: nat, zeros: nat, prefix: string, len: nat)
    requires prefix == "" || prefix == "0x" || prefix == "0X"
    ensures IntEncoding(seq(zeros, _ => '0') + Decimal.Spell(n), len) == HexEncoding(prefix + SpellHex(n), len) == Some(BigEndian(n, len))
    ensures forall r :: r == BigEndian(n, len) <==> |r| == len && Value(r) == n % Pow256(len)
  {
    forall r ensures r == BigEndian(n, len) <==> |r| == len && Value(r) == n % Pow256(len) { BigEndianUnique(n, len, r); }
    HexEncodes(n, prefix, len);
    DecimalEncodes(n, zeros, len);
  }

  lemma HexEncodes(n: nat, prefix: string, len: nat)
    requires prefix == "" || prefix == "0x" || prefix == "0X"
    ensures HexEncoding(prefix + SpellHex(n), len) == Some(BigEndian(n, len))
  {
    SpellHexValue(n);
    PrefixStripped(prefix, SpellHex(n));
  }

  lemma DecimalEncodes(n: nat, zeros: nat, len: nat)
    ensures IntEncoding(seq(zeros, _ => '0') + Decimal.Spell(n), len) == Some(BigEndian(n, len))
  {
    var s := seq(zeros, _ => '0') + Decimal.Spell(n);
    SpellValue(n);
    LeadingZeros(zeros, Decimal.Spell(n));
    assert '0' <= s[0] <= '9';
    assert Unsigned(s) == s;
  }

  lemma PrefixStripped(prefix: string, s: string)
    requires s != "" && AllHex(s) && (prefix == "" || prefix == "0x" || prefix == "0X")
    ensures HexDigits(prefix + s) == s
  {
    assert !("0x" <= s) && !("0X" <= s) by {
      if |s| >= 2 { assert IsHex(s[1]); }
    }
    if prefix == "0X" { assert (prefix + s)[1] == 'X'; }
  }

  /** The digit in the other case. */
  function Upper(c: char): char { if 'a' <= c <= 'f' then "ABCDEF"[(c - 'a') as int] else c }

  function UpperAll(s: string): (r: string)
    ensures |r| == |s| && forall i :: 0 <= i < |s| ==> r[i] == Upper(s[i])
  {
    seq(|s|, i requires 0 <= i < |s| => Upper(s[i]))
  }

  lemma UpperDigit(c: char)
    requires IsHex(c)
    ensures IsHex(Upper(c)) && HexDigit(Upper(c)) == HexDigit(c)
  {
  }

  /** Upper- and lower-case digits denote the same number. */
  lemma {:induction false} CaseDoesNotMatter(s: string)
    requires AllHex(s)
    ensures AllHex(UpperAll(s)) && HexValue(UpperAll(s)) == HexValue(s)
  {
    forall i | 0 <= i < |s| ensures IsHex(UpperAll(s)[i]) { UpperDigit(s[i]); }
    if s != "" {
      var n := |s| - 1;
      CaseDoesNotMatter(s[..n]);
      UpperDigit(s[n]);
      assert UpperAll(s)[..n] == UpperAll(s[..n]);
    }
  }

  /** A sign makes no difference: the magnitude is encoded. */
  lemma SignIsDropped(n: nat, sign: char, len: nat)
    requires sign == '+' || sign == '-'
    ensures IntEncoding([sign] + Decimal.Spell(n), len) == Some(BigEndian(n, len))
  {
    var s := [sign] + Decimal.Spell(n);
    assert Unsigned(s) == s[1..] == Decimal.Spell(n);
    SpellValue(n);
  }
}
