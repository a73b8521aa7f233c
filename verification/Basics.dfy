/** Types and functions that several modules use. */
module Basics {
  /** A value that may be missing. */
  datatype Option<T> = None | Some(value: T)

  type Byte = b: int | 0 <= b < 256

  function Min(a: int, b: int): int { if a <= b then a else b }

  lemma SubsetSize<T>(a: set<T>, b: set<T>)
    requires a <= b
    ensures |a| <= |b|
  {
    assert b == a + (b - a);
  }

  lemma {:induction false} LongerThanAll(names: set<string>) returns (n: nat)
    ensures forall k :: k in names ==> |k| < n
    decreases |names|
  {
    n := 0;
    if names != {} {
      var k :| k in names;
      n := LongerThanAll(names - {k});
      assert forall j :: j in names ==> j == k || j in names - {k};
      if n <= |k| { n := |k| + 1; }
    }
  }

  /** There is always a name that is not in use. */
  lemma UnusedName(names: set<string>) returns (k: string)
    ensures k !in names && k != ""
  {
    var n := LongerThanAll(names);
    k := seq(n + 1, _ => 'a');
  }

  /** There is always a number that is not in use. */
  lemma {:induction false} UnusedNumber(numbers: set<nat>) returns (n: nat)
    ensures forall k :: k in numbers ==> k < n
    decreases |numbers|
  {
    n := 0;
    if numbers != {} {
      var k :| k in numbers;
      n := UnusedNumber(numbers - {k});
      assert forall j :: j in numbers ==> j == k || j in numbers - {k};
      if n <= k { n := k + 1; }
    }
  }
}
