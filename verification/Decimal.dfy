/** Numbers written in decimal. */
module Decimal {

  function Digit(d: nat): char
    requires d < 10
  {
    '0' + d as char
  }

  /** The decimal spelling of `n`, without leading zeros. */
  function Spell(n: nat): (s: string)
    ensures s != [] && forall i :: 0 <= i < |s| ==> '0' <= s[i] <= '9'
  {
    if n < 10 then [Digit(n)] else Spell(n / 10) + [Digit(n % 10)]
  }
}
