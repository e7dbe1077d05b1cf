/** Types and facts used throughout. */
module Basics {
  datatype Option<T> = None | Some(value: T)

  type Byte = b: int | 0 <= b < 256

  /** A non-empty set has an element to pick. */
  lemma {:induction false} SomeElement<T>(s: set<T>) returns (x: T)
    requires s != {}
    ensures x in s
  {
    x :| x in s;
  }

  const INT32_MAX: int := 0x7fff_ffff

  function Min(a: int, b: int): int { if a <= b then a else b }

  function Max(a: int, b: int): int { if a <= b then b else a }

  // ----- products and remainders --------------------------------------------------------------------

  lemma {:induction false} ProductIsNat(x: nat, y: nat)
    ensures x * y >= 0
  {
  }

  lemma {:induction false} NoSmallMultiple(q: int, m: int, d: int)
    requires m > 0 && d == q * m && -m < d < m
    ensures d == 0
  {
    if q >= 1 {
      ProductIsNat(q - 1, m);
    } else if q <= -1 {
      ProductIsNat(-q - 1, m);
    }
  }

  lemma {:induction false} RemainderIs(x: int, n: nat, q: int, r: int)
    requires n > 0 && 0 <= r < n && x == q * n + r
    ensures x % n == r
  {
    var q', r' := x / n, x % n;
    var d := q - q';
    assert r' - r == d * n;
    NoSmallMultiple(d, n, r' - r);
  }

  // ----- removal from a vector ----------------------------------------------------------------------

  /** A vector without one element, whose place is taken by the last one. */
  ghost function RemoveAt<T>(s: seq<T>, i: nat): seq<T>
    requires i < |s|
  {
    s[i := s[|s| - 1]][..|s| - 1]
  }

  /** Where the element at this position was before. */
  ghost function Source(n: nat, i: nat, k: nat): nat
    requires i < n
  {
    if k == i then n - 1 else k
  }

  lemma {:induction false} WithoutAt<T>(s: seq<T>, i: nat)
    requires i < |s|
    ensures |RemoveAt(s, i)| == |s| - 1
    ensures forall k :: 0 <= k < |RemoveAt(s, i)| ==>
              Source(|s|, i, k) < |s| && Source(|s|, i, k) != i && RemoveAt(s, i)[k] == s[Source(|s|, i, k)]
  {
  }

  lemma {:induction false} RemovedIs<T>(s: seq<T>, i: nat)
    requires i < |s|
    ensures RemoveAt(s, i) == s[i := s[|s| - 1]][..|s| - 1]
    ensures i == |s| - 1 ==> RemoveAt(s, i) == s[..|s| - 1]
  {
  }

  lemma {:induction false} WithoutElements<T>(s: seq<T>, i: nat)
    requires i < |s|
    ensures forall x :: x in s <==> x in RemoveAt(s, i) || x == s[i]
  {
    forall x | x in s ensures x in RemoveAt(s, i) || x == s[i] {
      var k :| 0 <= k < |s| && s[k] == x;
      assert k < |s| - 1 && k != i ==> RemoveAt(s, i)[k] == x;
      assert k == |s| - 1 && k != i ==> RemoveAt(s, i)[i] == x;
    }
  }
}
