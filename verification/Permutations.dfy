/** Permutations of `[0, n)` as sequences. */
module Permutations {

  ghost predicate InRange(p: seq<int>, n: int) {
    forall i :: 0 <= i < |p| ==> 0 <= p[i] < n
  }

  ghost predicate Injective(p: seq<int>) {
    forall i, j :: 0 <= i < j < |p| ==> p[i] != p[j]
  }

  ghost predicate IsPermutation(p: seq<int>, n: int) {
    |p| == n && InRange(p, n) && Injective(p)
  }

  function Range(n: nat): (r: set<int>)
    ensures forall i :: i in r <==> 0 <= i < n
  {
    if n == 0 then {} else Range(n - 1) + {n - 1}
  }

  function Image(p: seq<int>): set<int> { set i | 0 <= i < |p| :: p[i] }

  lemma {:induction false} RangeSize(n: nat)
    ensures |Range(n)| == n
  {
    if n > 0 {
      RangeSize(n - 1);
    }
  }

  lemma {:induction false} ImageSize(p: seq<int>)
    requires Injective(p)
    ensures |Image(p)| == |p|
  {
    if |p| > 0 {
      var front := p[..|p| - 1];
      assert forall i :: 0 <= i < |front| ==> front[i] == p[i];
      ImageSize(front);
      assert Image(p) == Image(front) + {p[|p| - 1]};
    }
  }

  lemma {:induction false} SubsetSize(a: set<int>, b: set<int>)
    requires a <= b
    ensures |a| <= |b|
    ensures |a| == |b| ==> a == b
  {
    assert b == a + (b - a);
    assert |b| == |a| + |b - a|;
  }

  /** More values than room: two of them coincide. */
  lemma {:induction false} Pigeonhole(p: seq<int>, n: nat) returns (i: nat, j: nat)
    requires InRange(p, n) && |p| > n
    ensures i < j < |p| && p[i] == p[j]
  {
    if Injective(p) {
      ImageSize(p);
      RangeSize(n);
      SubsetSize(Image(p), Range(n));
      assert false;
    }
    i, j :| 0 <= i < j < |p| && p[i] == p[j];
  }

  /** A permutation hits every value. */
  lemma {:induction false} PermutationImage(p: seq<int>, n: nat)
    requires IsPermutation(p, n)
    ensures Image(p) == Range(n)
  {
    ImageSize(p);
    RangeSize(n);
    SubsetSize(Image(p), Range(n));
  }

  lemma {:induction false} Onto(p: seq<int>, n: nat, y: int) returns (x: nat)
    requires IsPermutation(p, n) && 0 <= y < n
    ensures x < n && p[x] == y
  {
    PermutationImage(p, n);
    assert y in Image(p);
    x :| 0 <= x < |p| && p[x] == y;
  }

  /** Exchanging two values keeps a permutation. */
  lemma {:induction false} SwapKeepsPermutation(p: seq<int>, n: int, i: nat, j: nat)
    requires IsPermutation(p, n) && i < n && j < n
    ensures IsPermutation(p[i := p[j]][j := p[i]], n)
  {
  }
}
