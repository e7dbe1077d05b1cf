/**
 The binomial tree over which balancing data is reduced and broadcast: the parent of a rank is the rank
 without its lowest set bit.
 */
module BalancerTree {
  import opened Basics

  /** The lowest set bit of a positive number. */
  function LowBit(r: nat): (b: nat)
    requires r > 0
    ensures 0 < b <= r
  {
    if r % 2 == 1 then 1 else 2 * LowBit(r / 2)
  }

  function Parent(rank: nat): (p: nat)
    ensures rank > 0 ==> p < rank
  {
    if rank == 0 then 0 else rank - LowBit(rank)
  }

  predicate IsChild(c: int, rank: nat, size: nat) { 0 < c < size && Parent(c) == rank }

  ghost predicate PowerOfTwo(p: nat) {
    p == 1 || (p > 1 && p % 2 == 0 && PowerOfTwo(p / 2))
  }

  // ----- arithmetic of the lowest bit --------------------------------------------

  lemma {:induction false} LowBitPower(r: nat)
    requires r > 0
    ensures PowerOfTwo(LowBit(r))
  {
    if r % 2 == 0 {
      LowBitPower(r / 2);
      assert (2 * LowBit(r / 2)) / 2 == LowBit(r / 2);
    }
  }

  lemma {:induction false} LowBitDouble(y: nat)
    requires y > 0
    ensures LowBit(2 * y) == 2 * LowBit(y)
  {
    assert (2 * y) % 2 == 0 && (2 * y) / 2 == y;
  }

  lemma {:induction false} LowBitScaled(m: nat, p: nat, x: nat)
    requires m > 0 && PowerOfTwo(p) && x == m * p
    ensures x > 0 && LowBit(x) == p * LowBit(m)
    decreases p
  {
    if p > 1 {
      hide LowBit;
      var h, b := p / 2, LowBit(m);
      var y := m * h;
      DoubleProduct(m, h, p);
      LowBitScaled(m, h, y);
      LowBitDouble(y);
      DoubleProduct(b, h, p);
    }
  }

  lemma {:induction false} DoubleProduct(m: nat, h: nat, p: nat)
    requires p == 2 * h
    ensures m * p == 2 * (m * h) && p * m == 2 * (h * m)
  {
  }

  /** A number is an odd multiple of its lowest bit. */
  lemma {:induction false} OddMultiple(r: nat) returns (q: nat)
    requires r > 0
    ensures r == (2 * q + 1) * LowBit(r)
  {
    if r % 2 == 1 {
      q := r / 2;
    } else {
      q := OddMultiple(r / 2);
      var b := LowBit(r / 2);
      assert r == 2 * ((2 * q + 1) * b) == (2 * q + 1) * (2 * b);
    }
  }

  lemma {:induction false} PowerGap(p: nat, q: nat)
    requires PowerOfTwo(p) && PowerOfTwo(q) && p < q
    ensures 2 * p <= q
  {
    if p > 1 {
      PowerGap(p / 2, q / 2);
    }
  }

  /** The remainder of a multiple of `p` by `2 * p` tells whether the factor is odd. */
  lemma {:induction false} HalfRemainder(m: nat, p: nat, x: nat)
    requires p > 0 && x == m * p
    ensures x % (2 * p) == if m % 2 == 1 then p else 0
  {
    var q := m / 2;
    var r := if m % 2 == 1 then p else 0;
    assert m == 2 * q + m % 2;
    assert (2 * q) * p == q * (2 * p);
    assert x == q * (2 * p) + r;
    RemainderIs(x, 2 * p, q, r);
  }

  // ----- parent and children as computed ----------------------------------------------

  /** `rank` is `m` times the power of two `half`. */
  ghost predicate Factored(rank: nat, m: nat, half: nat) {
    half > 0 && m > 0 && PowerOfTwo(half) && rank == m * half
  }

  lemma {:induction false} FactorTest(rank: nat, m: nat, half: nat)
    requires Factored(rank, m, half)
    ensures half > 0 && half <= rank && (rank % (2 * half) == half <==> m % 2 == 1)
    ensures m % 2 == 0 ==> m > 1 && Factored(rank, m / 2, 2 * half)
    ensures m % 2 == 1 ==> rank > 0 && LowBit(rank) == half
  {
    HalfRemainder(m, half, rank);
    FactorBound(m, half, rank);
    if m % 2 == 0 {
      var k := m / 2;
      assert (2 * half) / 2 == half;
      assert (2 * k) * half == k * (2 * half);
    } else {
      LowBitScaled(m, half, rank);
      assert LowBit(m) == 1;
    }
  }

  /** Tries growing powers of two until one leaves half of itself as remainder. */
  method ComputeParent(rank: nat) returns (parent: nat)
    ensures parent == Parent(rank)
  {
    if rank == 0 { return 0; }
    var exp := 2;
    ghost var m, half := rank, 1;
    assert Factored(rank, m, half);
    hide Factored, LowBit;
    FactorTest(rank, m, half);
    while !(rank % exp == exp / 2 && rank - exp / 2 >= 0)
      invariant exp == 2 * half && half > 0 && Factored(rank, m, half)
      decreases m
    {
      FactorTest(rank, m, half);
      m, half, exp := m / 2, 2 * half, exp * 2;
    }
    FactorTest(rank, m, half);
    parent := rank - exp / 2;
  }

  lemma {:induction false} FactorBound(m: nat, p: nat, x: nat)
    requires m > 0 && x == m * p
    ensures p <= x
  {
    ProductIsNat(m - 1, p);
    assert m * p == (m - 1) * p + p;
  }

  /** The smallest power of two that covers the communicator. */
  method CoveringPower(size: nat) returns (exp: nat)
    requires size >= 1
    ensures PowerOfTwo(exp) && exp >= size && (size >= 2 ==> exp >= 2)
  {
    exp := 1;
    while exp < size
      invariant PowerOfTwo(exp) && exp >= 1
      decreases size - exp
    {
      assert (2 * exp) / 2 == exp;
      exp := exp * 2;
    }
  }

  /** The lowest bit of a rank, zero for rank zero. */
  ghost function BitOf(c: int): int { if c <= 0 then 0 else LowBit(c) }

  lemma {:induction false} ChildHasBit(c: nat, rank: nat, h: nat, exp: nat)
    requires c > 0 && Parent(c) == rank && PowerOfTwo(h) && exp == 2 * h && h <= LowBit(c) < exp
    ensures rank % exp == 0 && c == rank + h
  {
    LowBitPower(c);
    if LowBit(c) > h {
      PowerGap(h, LowBit(c));
      assert false;
    }
    var q := OddMultiple(c);
    assert rank == c - h;
    hide *;
    var r := q * exp;
    OddTimes(q, h, exp, r);
    RemainderIs(rank, exp, q, 0);
  }

  lemma {:induction false} BitMakesChild(c: nat, rank: nat, h: nat, exp: nat)
    requires PowerOfTwo(h) && h > 0 && exp == 2 * h && rank % exp == 0 && c == rank + h
    ensures Parent(c) == rank && LowBit(c) == h
  {
    var q := rank / exp;
    var m := 2 * q + 1;
    assert LowBit(m) == 1;
    WholeQuotient(rank, exp, q);
    OddTimes(q, h, exp, rank);
    hide LowBit;
    LowBitScaled(m, h, c);
  }

  lemma {:induction false} WholeQuotient(x: nat, d: nat, q: nat)
    requires d > 0 && x % d == 0 && q == x / d
    ensures x == q * d
  {
  }

  lemma {:induction false} OddTimes(q: nat, h: nat, exp: nat, rank: nat)
    requires exp == 2 * h && rank == q * exp
    ensures (2 * q + 1) * h == rank + h
  {
    DoubleProduct(q, h, exp);
    assert (2 * q + 1) * h == 2 * (q * h) + h;
  }

  /** The child that differs in the bit `exp / 2`, if there is one. */
  lemma {:induction false} ChildWithBit(c: int, rank: nat, size: nat, exp: nat)
    requires PowerOfTwo(exp) && exp >= 2
    ensures IsChild(c, rank, size) && exp / 2 <= BitOf(c) < exp
       <==> rank % exp == 0 && c == rank + exp / 2 && c < size
  {
    hide LowBit, Parent;
    var h := exp / 2;
    if IsChild(c, rank, size) && h <= BitOf(c) < exp {
      ChildHasBit(c, rank, h, exp);
    }
    if rank % exp == 0 && c == rank + h && c < size {
      BitMakesChild(c, rank, h, exp);
    }
  }

  /** Children are listed exactly: every rank that has this one as parent, once. */
  method ComputeChildren(rank: nat, size: nat) returns (children: seq<nat>)
    requires rank < size
    ensures forall c :: c in children <==> IsChild(c, rank, size)
    ensures forall i, j :: 0 <= i < j < |children| ==> children[i] > children[j]
    ensures rank % 2 == 1 ==> children == []
  {
    if rank % 2 == 1 {
      forall c: int ensures !IsChild(c, rank, size) { OddIsLeaf(rank, c, size); }
    }
    children := [];
    var exp: nat;
    if size == 1 { return; }
    exp := CoveringPower(size);
    hide Parent, LowBit;
    while true
      invariant PowerOfTwo(exp) && exp >= 2
      invariant forall c :: c in children <==> IsChild(c, rank, size) && BitOf(c) >= exp
      invariant forall i :: 0 <= i < |children| ==> children[i] >= rank + exp
      invariant forall i, j :: 0 <= i < j < |children| ==> children[i] > children[j]
      decreases exp
    {
      forall c: int
        ensures IsChild(c, rank, size) && exp / 2 <= BitOf(c) < exp
           <==> rank % exp == 0 && c == rank + exp / 2 && c < size
      {
        ChildWithBit(c, rank, size, exp);
      }
      if rank % exp == 0 {
        var child := rank + exp / 2;
        if child < size {
          children := children + [child];
        }
      }
      exp := exp / 2;
      if exp == 1 { break; }
    }
    assert |children| > 0 ==> IsChild(children[0], rank, size);
  }

  /** Every rank except the root is the child of exactly one rank, which is smaller. */
  lemma {:induction false} OneParent(c: nat, size: nat, p: nat, q: nat)
    requires 0 < c < size
    ensures IsChild(c, Parent(c), size) && Parent(c) < c
    ensures IsChild(c, p, size) && IsChild(c, q, size) ==> p == q
  {
  }

  /** Odd ranks have no children, which is how leaves are recognized. */
  lemma {:induction false} OddIsLeaf(rank: nat, c: int, size: nat)
    requires rank % 2 == 1
    ensures !IsChild(c, rank, size)
  {
  }
}
