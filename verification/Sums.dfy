/** Finite sums over sequences, and the fact that they ignore the order of the summands. */
module Sums {

  function Sum<T>(s: seq<T>, f: T -> int): int {
    if |s| == 0 then 0 else Sum(s[..|s| - 1], f) + f(s[|s| - 1])
  }

  function RealSum<T>(s: seq<T>, f: T -> real): real {
    if |s| == 0 then 0.0 else RealSum(s[..|s| - 1], f) + f(s[|s| - 1])
  }

  function Without<T>(s: seq<T>, j: nat): seq<T>
    requires j < |s|
  {
    s[..j] + s[j + 1..]
  }

  lemma {:induction false} SumAppend<T>(s: seq<T>, x: T, f: T -> int)
    ensures Sum(s + [x], f) == Sum(s, f) + f(x)
  {
    assert (s + [x])[..|s|] == s;
  }

  lemma {:induction false} RealSumAppend<T>(s: seq<T>, x: T, f: T -> real)
    ensures RealSum(s + [x], f) == RealSum(s, f) + f(x)
  {
    assert (s + [x])[..|s|] == s;
  }

  lemma {:induction false} SumWithout<T>(s: seq<T>, j: nat, f: T -> int)
    requires j < |s|
    ensures Sum(s, f) == Sum(Without(s, j), f) + f(s[j])
    decreases |s|
  {
    var last := |s| - 1;
    if j < last {
      SumWithout(s[..last], j, f);
      assert Without(s, j)[..last - 1] == Without(s[..last], j);
    } else {
      assert Without(s, j) == s[..last];
    }
  }

  lemma {:induction false} RealSumWithout<T>(s: seq<T>, j: nat, f: T -> real)
    requires j < |s|
    ensures RealSum(s, f) == RealSum(Without(s, j), f) + f(s[j])
    decreases |s|
  {
    var last := |s| - 1;
    if j < last {
      RealSumWithout(s[..last], j, f);
      assert Without(s, j)[..last - 1] == Without(s[..last], j);
    } else {
      assert Without(s, j) == s[..last];
    }
  }

  /** A permutation of a non-empty sequence has its last element somewhere; removing both keeps a permutation. */
  lemma {:induction false} MatchLast<T>(a: seq<T>, b: seq<T>) returns (j: nat)
    requires |a| > 0
    requires multiset(a) == multiset(b)
    ensures j < |b| && b[j] == a[|a| - 1]
    ensures multiset(Without(b, j)) == multiset(a[..|a| - 1])
  {
    var last := |a| - 1;
    assert a[last] in multiset(a);
    assert a[last] in b;
    j :| 0 <= j < |b| && b[j] == a[last];
    assert b == b[..j] + [b[j]] + b[j + 1..];
    assert a == a[..last] + [a[last]];
    assert multiset(b) == multiset(Without(b, j)) + multiset{b[j]};
    assert multiset(a) == multiset(a[..last]) + multiset{a[last]};
    assert multiset(Without(b, j)) == multiset(b) - multiset{b[j]};
  }

  lemma {:induction false} SumPermutation<T>(a: seq<T>, b: seq<T>, f: T -> int)
    requires multiset(a) == multiset(b)
    ensures Sum(a, f) == Sum(b, f)
    decreases |a|
  {
    if |a| == 0 {
      assert |b| == |multiset(b)|;
    } else {
      var j := MatchLast(a, b);
      SumPermutation(a[..|a| - 1], Without(b, j), f);
      SumWithout(b, j, f);
    }
  }

  lemma {:induction false} RealSumPermutation<T>(a: seq<T>, b: seq<T>, f: T -> real)
    requires multiset(a) == multiset(b)
    ensures RealSum(a, f) == RealSum(b, f)
    decreases |a|
  {
    if |a| == 0 {
      assert |b| == |multiset(b)|;
    } else {
      var j := MatchLast(a, b);
      RealSumPermutation(a[..|a| - 1], Without(b, j), f);
      RealSumWithout(b, j, f);
    }
  }

  lemma {:induction false} SumMonotone<T>(s: seq<T>, f: T -> int, g: T -> int)
    requires forall i :: 0 <= i < |s| ==> f(s[i]) <= g(s[i])
    ensures Sum(s, f) <= Sum(s, g)
  {
    if |s| > 0 {
      var last := |s| - 1;
      assert forall i :: 0 <= i < last ==> s[..last][i] == s[i];
      SumMonotone(s[..last], f, g);
    }
  }

  lemma {:induction false} SumConstant<T>(s: seq<T>, f: T -> int, c: int)
    requires forall i :: 0 <= i < |s| ==> f(s[i]) == c
    ensures Sum(s, f) == c * |s|
  {
    if |s| > 0 {
      var last := |s| - 1;
      assert forall i :: 0 <= i < last ==> s[..last][i] == s[i];
      SumConstant(s[..last], f, c);
      assert c * last + c == c * |s|;
    }
  }

  /** Each summand is at least `low`; then the sum is at least any one summand plus `low` for each other one. */
  lemma {:induction false} SumAtLeast<T>(s: seq<T>, f: T -> int, low: int, j: nat)
    requires j < |s|
    requires forall i :: 0 <= i < |s| ==> f(s[i]) >= low
    ensures Sum(s, f) >= f(s[j]) + low * (|s| - 1)
  {
    SumWithout(s, j, f);
    var rest := Without(s, j);
    assert forall i :: 0 <= i < |rest| ==> rest[i] == (if i < j then s[i] else s[i + 1]);
    var g := (x: T) => low;
    SumConstant(rest, g, low);
    SumMonotone(rest, g, f);
  }

  function Mapped<T, U>(s: seq<T>, f: T -> U): seq<U> {
    seq(|s|, i requires 0 <= i < |s| => f(s[i]))
  }

  /** Mapping keeps permutations. */
  lemma {:induction false} MappedPermutation<T, U>(a: seq<T>, b: seq<T>, f: T -> U)
    requires multiset(a) == multiset(b)
    ensures multiset(Mapped(a, f)) == multiset(Mapped(b, f))
    decreases |a|
  {
    if |a| == 0 {
      assert |b| == |multiset(b)|;
    } else {
      var j := MatchLast(a, b);
      var rest := Without(b, j);
      MappedPermutation(a[..|a| - 1], rest, f);
      assert Mapped(a, f) == Mapped(a[..|a| - 1], f) + [f(b[j])];
      assert Mapped(rest, f) == Mapped(b[..j], f) + Mapped(b[j + 1..], f);
      assert Mapped(b, f) == Mapped(b[..j], f) + [f(b[j])] + Mapped(b[j + 1..], f);
    }
  }
}
