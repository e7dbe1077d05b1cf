/**
 A pseudo-random permutation of `[0, n)`: a Feistel network permutes `[0, rootN * rootN)`, and values
 outside `[0, n)` are fed back until one falls inside. Single values can be overridden.
 */
module AdjustablePermutations {
  import opened Basics
  import opened Permutations

  /** Round tables and the size of the two halves. */
  datatype Network = Network(rootN: nat, tables: seq<seq<nat>>) {
    ghost predicate Valid() {
      rootN > 0 && forall i :: 0 <= i < |tables| ==> |tables[i]| == rootN
    }
  }

  function Mix(a: nat, v: nat, root: nat): (r: nat)
    requires root > 0
    ensures r < root
  {
    (a + v) % root
  }

  /** The halves after the rounds from `i` on. */
  function Rounds(net: Network, i: nat, a: nat, b: nat): (r: (nat, nat))
    requires net.Valid() && i <= |net.tables| && a < net.rootN && b < net.rootN
    ensures r.0 < net.rootN && r.1 < net.rootN
    decreases |net.tables| - i
  {
    if i == |net.tables| then (a, b)
    else Rounds(net, i + 1, b, Mix(a, net.tables[i][b], net.rootN))
  }

  function Domain(net: Network): nat { net.rootN * net.rootN }

  /** A value as two halves, and back. */
  function Split(x: nat, root: nat): (h: (nat, nat))
    requires root > 0
  {
    (x % root, x / root)
  }

  function Join(a: nat, b: nat, root: nat): nat { a + root * b }

  lemma {:induction false} SplitInRange(x: nat, root: nat)
    requires root > 0 && x < root * root
    ensures Split(x, root).0 < root && Split(x, root).1 < root
    ensures Join(Split(x, root).0, Split(x, root).1, root) == x
  {
    var q := x / root;
    if q >= root {
      ProductIsNat(q - root, root);
    }
  }

  lemma {:induction false} HalvesInRange(net: Network, x: nat)
    requires net.Valid() && x < Domain(net)
    ensures Split(x, net.rootN).0 < net.rootN && Split(x, net.rootN).1 < net.rootN
  {
    SplitInRange(x, net.rootN);
  }

  lemma {:induction false} JoinInRange(a: nat, b: nat, root: nat)
    requires a < root && b < root
    ensures Join(a, b, root) < root * root
  {
    var e: nat := root - 1 - b;
    ProductIsNat(root, e);
    assert root * root == root * (b + 1 + e) == root * b + root + root * e;
  }

  /** One pass through the network. */
  function Pass(net: Network, x: nat): (y: nat)
    requires net.Valid() && x < Domain(net)
    ensures y < Domain(net)
  {
    SplitInRange(x, net.rootN);
    var (a, b) := Split(x, net.rootN);
    var (c, d) := Rounds(net, 0, a, b);
    JoinInRange(c, d, net.rootN);
    Join(c, d, net.rootN)
  }

  // ----- the network backwards ---------------------------------------------------

  /** The halves before the rounds from `i` on: the table's value is taken off again, last round first. */
  function Unrounds(net: Network, i: nat, c: nat, d: nat): (r: (nat, nat))
    requires net.Valid() && i <= |net.tables| && c < net.rootN && d < net.rootN
    ensures r.0 < net.rootN && r.1 < net.rootN
    decreases |net.tables| - i
  {
    if i == |net.tables| then (c, d)
    else
      var (b, m) := Unrounds(net, i + 1, c, d);
      ((m + net.rootN - net.tables[i][b] % net.rootN) % net.rootN, b)
  }

  lemma {:induction false} MixUndone(a: nat, v: nat, root: nat)
    requires a < root
    ensures (Mix(a, v, root) + root - v % root) % root == a
  {
    var w, q := v % root, v / root;
    assert v == q * root + w;
    if a + w < root {
      RemainderIs(a + v, root, q, a + w);
      RemainderIs(a + root, root, 1, a);
    } else {
      assert (q + 1) * root == q * root + root;
      RemainderIs(a + v, root, q + 1, a + w - root);
      RemainderIs(a, root, 0, a);
    }
  }

  /** Every pass through the network can be run backwards. */
  lemma {:induction false} RoundsUndone(net: Network, i: nat, a: nat, b: nat)
    requires net.Valid() && i <= |net.tables| && a < net.rootN && b < net.rootN
    ensures var (c, d) := Rounds(net, i, a, b); Unrounds(net, i, c, d) == (a, b)
    decreases |net.tables| - i
  {
    if i < |net.tables| {
      MixUndone(a, net.tables[i][b], net.rootN);
      hide Mix;
      RoundsUndone(net, i + 1, b, Mix(a, net.tables[i][b], net.rootN));
    }
  }

  // ----- the network is a bijection of its domain -----------------------------

  lemma {:induction false} ModInjective(a: nat, c: nat, f: nat, m: nat)
    requires a < m && c < m && (a + f) % m == (c + f) % m
    ensures a == c
  {
    var q, r := (a + f) / m, (c + f) / m;
    var p := q - r;
    assert a - c == p * m;
    NoSmallMultiple(p, m, a - c);
  }

  lemma {:induction false} RoundsInjective(net: Network, i: nat, a: nat, b: nat, c: nat, d: nat)
    requires net.Valid() && i <= |net.tables|
    requires a < net.rootN && b < net.rootN && c < net.rootN && d < net.rootN
    requires Rounds(net, i, a, b) == Rounds(net, i, c, d)
    ensures a == c && b == d
    decreases |net.tables| - i
  {
    if i < |net.tables| {
      var t := net.tables[i];
      RoundsInjective(net, i + 1, b, Mix(a, t[b], net.rootN), d, Mix(c, t[d], net.rootN));
      ModInjective(a, c, t[b], net.rootN);
    }
  }

  lemma {:induction false} JoinInjective(a: nat, b: nat, c: nat, d: nat, root: nat)
    requires a < root && c < root && Join(a, b, root) == Join(c, d, root)
    ensures a == c && b == d
  {
    var p := b - d;
    assert c - a == p * root;
    NoSmallMultiple(p, root, c - a);
    assert p == 0;
  }

  lemma {:induction false} PassInjective(net: Network, x: nat, y: nat)
    requires net.Valid() && x < Domain(net) && y < Domain(net)
    requires Pass(net, x) == Pass(net, y)
    ensures x == y
  {
    hide Rounds, Split, Join, Domain;
    DomainIsSquare(net);
    var root := net.rootN;
    SplitInRange(x, root);
    SplitInRange(y, root);
    var (xa, xb) := Split(x, root);
    var (ya, yb) := Split(y, root);
    var (a, b) := Rounds(net, 0, xa, xb);
    var (c, d) := Rounds(net, 0, ya, yb);
    JoinInjective(a, b, c, d, root);
    RoundsInjective(net, 0, xa, xb, ya, yb);
  }

  lemma {:induction false} DomainIsSquare(net: Network)
    ensures Domain(net) == net.rootN * net.rootN
  {
  }

  // ----- cycle walking ---------------------------------------------------------

  ghost function Iterate(net: Network, x: nat, k: nat): (y: nat)
    requires net.Valid() && x < Domain(net)
    ensures y < Domain(net)
  {
    if k == 0 then x else Pass(net, Iterate(net, x, k - 1))
  }

  lemma {:induction false} IterateInjective(net: Network, x: nat, y: nat, k: nat)
    requires net.Valid() && x < Domain(net) && y < Domain(net)
    requires Iterate(net, x, k) == Iterate(net, y, k)
    ensures x == y
  {
    if k > 0 {
      PassInjective(net, Iterate(net, x, k - 1), Iterate(net, y, k - 1));
      IterateInjective(net, x, y, k - 1);
    }
  }

  lemma {:induction false} IterateSum(net: Network, x: nat, j: nat, k: nat)
    requires net.Valid() && x < Domain(net)
    ensures Iterate(net, x, j + k) == Iterate(net, Iterate(net, x, j), k)
  {
    if k > 0 {
      IterateSum(net, x, j, k - 1);
    }
  }

  /** After `k` passes a value has come back below `n` for the first time. */
  ghost predicate Returns(net: Network, n: nat, x: nat, k: nat)
    requires net.Valid() && x < Domain(net)
  {
    && k >= 1
    && Iterate(net, x, k) < n
    && forall j :: 1 <= j < k ==> Iterate(net, x, j) >= n
  }

  /** The orbit of a value comes back to the value itself. */
  lemma {:induction false} OrbitCloses(net: Network, x: nat) returns (k: nat)
    requires net.Valid() && x < Domain(net)
    ensures k >= 1 && Iterate(net, x, k) == x
  {
    var size := Domain(net);
    var orbit: seq<int> := seq(size + 1, i requires 0 <= i => Iterate(net, x, i));
    var i, j := Pigeonhole(orbit, size);
    k := j - i;
    IterateSum(net, x, k, i);
    IterateInjective(net, Iterate(net, x, k), x, i);
  }

  /** Cycle walking ends: every value below `n` returns. */
  lemma {:induction false} ReturnExists(net: Network, n: nat, x: nat) returns (k: nat)
    requires net.Valid() && x < n <= Domain(net)
    ensures Returns(net, n, x, k)
  {
    var closes := OrbitCloses(net, x);
    k := 1;
    while Iterate(net, x, k) >= n
      invariant 1 <= k <= closes
      invariant forall j :: 1 <= j < k ==> Iterate(net, x, j) >= n
      decreases closes - k
    {
      k := k + 1;
    }
  }

  lemma {:induction false} SomeReturn(net: Network, n: nat, x: nat)
    requires net.Valid() && x < n <= Domain(net)
    ensures exists k: nat :: Returns(net, n, x, k)
  {
    var k := ReturnExists(net, n, x);
  }

  lemma {:induction false} ReturnIsUnique(net: Network, n: nat, x: nat, k: nat, l: nat)
    requires net.Valid() && x < Domain(net) && Returns(net, n, x, k) && Returns(net, n, x, l)
    ensures k == l
  {
  }

  /** The value that cycle walking assigns to `x`. */
  ghost function Walked(net: Network, n: nat, x: nat): (y: nat)
    requires net.Valid() && x < n <= Domain(net)
    ensures y < n
  {
    SomeReturn(net, n, x);
    var k: nat :| Returns(net, n, x, k);
    Iterate(net, x, k)
  }

  lemma {:induction false} WalkedIs(net: Network, n: nat, x: nat, k: nat)
    requires net.Valid() && x < n <= Domain(net) && Returns(net, n, x, k)
    ensures Walked(net, n, x) == Iterate(net, x, k)
  {
    var l: nat :| Returns(net, n, x, l) && Walked(net, n, x) == Iterate(net, x, l);
    ReturnIsUnique(net, n, x, k, l);
  }

  /** Cycle walking is injective: the longer of two walks to one value would have stopped earlier. */
  lemma {:induction false} WalkedInjective(net: Network, n: nat, x: nat, y: nat)
    requires net.Valid() && x < n <= Domain(net) && y < n
    requires Walked(net, n, x) == Walked(net, n, y)
    ensures x == y
  {
    var k := ReturnExists(net, n, x);
    var l := ReturnExists(net, n, y);
    WalkedIs(net, n, x, k);
    WalkedIs(net, n, y, l);
    if k <= l {
      SameWalk(net, n, x, y, k, l);
    } else {
      SameWalk(net, n, y, x, l, k);
    }
  }

  lemma {:induction false} SameWalk(net: Network, n: nat, x: nat, y: nat, k: nat, l: nat)
    requires net.Valid() && x < n <= Domain(net) && y < n
    requires Returns(net, n, x, k) && Returns(net, n, y, l) && k <= l
    requires Iterate(net, x, k) == Iterate(net, y, l)
    ensures x == y
  {
    IterateSum(net, y, l - k, k);
    IterateInjective(net, x, Iterate(net, y, l - k), k);
    var d := l - k;
    assert Iterate(net, y, d) == x;
  }

  ghost function WalkedAll(net: Network, n: nat): (p: seq<int>)
    requires net.Valid() && n <= Domain(net)
    ensures |p| == n && forall x :: 0 <= x < n ==> p[x] == Walked(net, n, x)
  {
    seq(n, x requires 0 <= x < n => Walked(net, n, x))
  }

  /** For every size and all round tables, the unadjusted permutation is a bijection of `[0, n)`. */
  lemma {:induction false} WalkedIsPermutation(net: Network, n: nat)
    requires net.Valid() && n <= Domain(net)
    ensures IsPermutation(WalkedAll(net, n), n)
    ensures Image(WalkedAll(net, n)) == Range(n)
  {
    var p := WalkedAll(net, n);
    forall i, j | 0 <= i < j < n ensures p[i] != p[j] {
      if p[i] == p[j] { WalkedInjective(net, n, i, j); }
    }
    PermutationImage(p, n);
  }

  /** The rounds of one pass. */
  method RunNetwork(net: Network, x: nat) returns (y: nat)
    requires net.Valid() && x < Domain(net)
    ensures y == Pass(net, x)
  {
    hide Domain, Split, Join, Mix;
    HalvesInRange(net, x);
    var (a, b) := Split(x, net.rootN);
    ghost var (a0, b0) := (a, b);
    for i := 0 to |net.tables|
      invariant 0 <= a < net.rootN && 0 <= b < net.rootN
      invariant Rounds(net, 0, a0, b0) == Rounds(net, i, a, b)
    {
      var table := net.tables[i];
      a, b := b, Mix(a, table[b], net.rootN);
    }
    y := Join(a, b, net.rootN);
  }

  /** Passes are repeated until the value is below `n`. */
  method Walk(net: Network, n: nat, x: nat) returns (y: nat)
    requires net.Valid() && x < n <= Domain(net)
    ensures y == Walked(net, n, x)
  {
    ghost var last := ReturnExists(net, n, x);
    hide Domain, Pass;
    y := RunNetwork(net, x);
    ghost var k := 1;
    assert Iterate(net, x, 0) == x;
    while y >= n
      invariant 1 <= k <= last && y < Domain(net) && y == Iterate(net, x, k)
      decreases last - k
    {
      y := RunNetwork(net, y);
      k := k + 1;
    }
    WalkedIs(net, n, x, k);
  }

  /** An invalid position is moved into the range. */
  function Position(x: int, n: nat): (p: nat)
    requires n > 0
    ensures p < n
    ensures 0 <= x < n ==> p == x
  {
    x % n
  }

  method Normalize(x: int, n: nat) returns (y: nat)
    requires n > 0
    ensures y == Position(x, n)
  {
    hide Position;
    var z := x;
    while z < 0
      invariant Position(z, n) == Position(x, n)
    {
      ShiftKeepsPosition(z, n);
      z := z + 100 * n;
    }
    PositionOfNat(z, n);
    y := z % n;
  }

  lemma {:induction false} PositionOfNat(z: int, n: nat)
    requires n > 0
    ensures z % n == Position(z, n)
  {
  }

  lemma {:induction false} ShiftKeepsPosition(z: int, n: nat)
    requires n > 0
    ensures Position(z + 100 * n, n) == Position(z, n)
  {
    var q, r := z / n, z % n;
    var q' := q + 100;
    assert z + 100 * n == q' * n + r;
    RemainderIs(z + 100 * n, n, q', r);
  }

  ghost function Overridden(p: seq<int>, adjusted: map<int, int>): (r: seq<int>)
    ensures |r| == |p|
    ensures forall x :: 0 <= x < |p| ==> r[x] == if x in adjusted then adjusted[x] else p[x]
  {
    seq(|p|, x requires 0 <= x < |p| => if x in adjusted then adjusted[x] else p[x])
  }

  class AdjustablePermutation {
    const n: nat
    const net: Network
    var adjusted: map<int, int>

    ghost predicate Valid() {
      n > 0 && net.Valid() && n <= Domain(net)
    }

    /** The current value at each position. */
    ghost function Values(): (p: seq<int>)
      requires Valid()
      reads this
      ensures |p| == n
    {
      Overridden(WalkedAll(net, n), adjusted)
    }

    /** The network's tables stand for the shuffles drawn from the seed. */
    constructor (n: nat, net: Network)
      requires n > 0 && net.Valid() && n <= Domain(net)
      ensures Valid() && this.n == n && IsPermutation(Values(), n)
    {
      this.n, this.net, adjusted := n, net, map[];
      new;
      WalkedIsPermutation(net, n);
      hide Domain, IsPermutation;
      assert Values() == WalkedAll(net, n);
    }

    /** The value at a position: a walk along the network's cycle, or the override. */
    method Get(x: int) returns (y: int)
      requires Valid()
      ensures y == Values()[Position(x, n)]
    {
      hide Domain, Walked, Position;
      var pos := x;
      if x < 0 || x >= n { pos := Normalize(x, n); }
      if pos in adjusted { return adjusted[pos]; }
      y := Walk(net, n, pos);
    }

    /** Overrides the value at a position. */
    method Adjust(x: int, newX: int)
      requires Valid()
      modifies `adjusted
      ensures Values() == old(Values())[Position(x, n) := newX]
    {
      hide Domain, Walked, Position;
      var pos := x;
      if x < 0 || x >= n { pos := Normalize(x, n); }
      var current := Get(pos);
      if current != newX { adjusted := adjusted[pos := newX]; }
    }
  }
}
