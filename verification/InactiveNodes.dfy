/** Ordered sets of inactive job nodes. */
module InactiveNodes {
  import opened Basics
  import opened TreeIndices

  datatype Status = AVAILABLE | BUSY | LOST

  type Int32 = x: int | -INT32_MAX - 1 <= x <= INT32_MAX

  /** The status is not part of a node's place in the order. */
  datatype Node = Node(rank: int, originalIndex: int, lastEpoch: Int32, status: Status)

  /** By index, then newer epochs first, then rank. */
  predicate Before(a: Node, b: Node) {
    if a.originalIndex != b.originalIndex then a.originalIndex < b.originalIndex
    else if a.lastEpoch != b.lastEpoch then a.lastEpoch > b.lastEpoch
    else a.rank < b.rank
  }

  predicate SameKey(a: Node, b: Node) {
    a.originalIndex == b.originalIndex && a.lastEpoch == b.lastEpoch && a.rank == b.rank
  }

  ghost predicate Sorted(s: seq<Node>) {
    forall i, j :: 0 <= i < j < |s| ==> Before(s[i], s[j])
  }

  ghost predicate HasKey(s: seq<Node>, n: Node) {
    exists m :: m in s && SameKey(m, n)
  }

  // ----- ordered sets -------------------------------------------------------------------------

  /** Insertion into an ordered set; an element with the same key is kept instead. */
  function Inserted(s: seq<Node>, n: Node): seq<Node> {
    if |s| == 0 then [n]
    else if Before(n, s[0]) then [n] + s
    else if SameKey(n, s[0]) then s
    else [s[0]] + Inserted(s[1..], n)
  }

  function Erased(s: seq<Node>, n: Node): seq<Node> {
    if |s| == 0 then []
    else if SameKey(n, s[0]) then s[1..]
    else [s[0]] + Erased(s[1..], n)
  }

  lemma {:induction false} SameKeySameNode(s: seq<Node>, a: Node, b: Node)
    requires Sorted(s) && a in s && b in s && SameKey(a, b)
    ensures a == b
  {
    var i :| 0 <= i < |s| && s[i] == a;
    var j :| 0 <= j < |s| && s[j] == b;
    assert forall k, l :: 0 <= k < l < |s| ==> !SameKey(s[k], s[l]);
  }

  lemma {:induction false} InsertedElements(s: seq<Node>, n: Node)
    requires Sorted(s)
    ensures Sorted(Inserted(s, n))
    ensures forall m :: m in Inserted(s, n) <==> m in s || (m == n && !HasKey(s, n))
    ensures HasKey(Inserted(s, n), n)
  {
    if |s| == 0 {
    } else if Before(n, s[0]) {
      assert forall m :: m in s ==> Before(n, m);
      assert n in Inserted(s, n) && SameKey(n, n);
    } else if SameKey(n, s[0]) {
      assert s[0] in s && SameKey(s[0], n);
    } else {
      var rest := s[1..];
      InsertedElements(rest, n);
      hide Inserted;
      assert forall m :: m in s <==> m == s[0] || m in rest;
      assert Inserted(s, n) == [s[0]] + Inserted(rest, n) by { InsertedStep(s, n); }
      assert forall m :: m in Inserted(rest, n) ==> Before(s[0], m);
    }
  }

  lemma {:induction false} InsertedStep(s: seq<Node>, n: Node)
    requires |s| > 0 && !Before(n, s[0]) && !SameKey(n, s[0])
    ensures Inserted(s, n) == [s[0]] + Inserted(s[1..], n)
  {
  }

  lemma {:induction false} ErasedElements(s: seq<Node>, n: Node)
    requires Sorted(s)
    ensures Sorted(Erased(s, n))
    ensures forall m :: m in Erased(s, n) <==> m in s && !SameKey(m, n)
  {
    if |s| > 0 {
      var rest := s[1..];
      ErasedElements(rest, n);
      assert forall m :: m in s <==> m == s[0] || m in rest;
      assert forall m :: m in rest ==> Before(s[0], m);
    }
  }

  lemma {:induction false} Appended(s: seq<Node>, n: Node)
    requires Sorted(s) && forall m :: m in s ==> Before(m, n)
    ensures Sorted(s + [n]) && Inserted(s, n) == s + [n]
  {
    if |s| > 0 {
      assert Before(s[0], n);
      Appended(s[1..], n);
      assert s == [s[0]] + s[1..];
    }
  }

  /** Erases every node of a list. */
  method EraseAll(s: seq<Node>, gone: seq<Node>) returns (rest: seq<Node>)
    requires Sorted(s)
    ensures Sorted(rest) && forall m :: m in rest <==> m in s && !HasKey(gone, m)
  {
    rest := s;
    assert forall m :: !HasKey(gone[..0], m);
    for i := 0 to |gone|
      invariant Sorted(rest)
      invariant forall m :: m in rest <==> m in s && !HasKey(gone[..i], m)
    {
      ErasedElements(rest, gone[i]);
      HasKeyStep(gone, i);
      rest := Erased(rest, gone[i]);
    }
    assert gone[..|gone|] == gone;
  }

  lemma {:induction false} HasKeyStep(gone: seq<Node>, i: nat)
    requires i < |gone|
    ensures forall m :: HasKey(gone[..i + 1], m) <==> HasKey(gone[..i], m) || SameKey(m, gone[i])
  {
    var a, b := gone[..i], gone[..i + 1];
    assert b == a + [gone[i]];
    forall m ensures HasKey(b, m) <==> HasKey(a, m) || SameKey(m, gone[i]) {
      if SameKey(m, gone[i]) { assert gone[i] in b && SameKey(gone[i], m); }
      if HasKey(a, m) { var x :| x in a && SameKey(x, m); assert x in b; }
    }
  }

  // ----- subtrees -------------------------------------------------------------------------------

  ghost predicate Extracts(root: nat, excludeRoot: bool, n: Node) {
    InSubtree(root, n.originalIndex) && (excludeRoot ==> n.originalIndex != root)
  }

  /** Takes out exactly the nodes of a subtree; the bounds of the current layer only move forward. */
  method ExtractSubtree(s: seq<Node>, root: nat, excludeRoot: bool) returns (result: seq<Node>, rest: seq<Node>)
    requires Sorted(s)
    ensures Sorted(result) && Sorted(rest)
    ensures forall n :: n in result <==> n in s && Extracts(root, excludeRoot, n)
    ensures forall n :: n in rest <==> n in s && !Extracts(root, excludeRoot, n)
  {
    var leftIndex, rightIndex := root, root;
    ghost var first := if excludeRoot then 1 else 0;
    ghost var layer := first;
    if excludeRoot { leftIndex, rightIndex := 2 * leftIndex + 1, 2 * rightIndex + 2; }
    result := [];
    assert LeftMost(root, 0) == root && RightMost(root, 0) == root;
    for i := 0 to |s|
      invariant first <= layer && leftIndex == LeftMost(root, layer) && rightIndex == RightMost(root, layer)
      invariant layer > first ==> forall j :: i <= j < |s| ==> s[j].originalIndex > RightMost(root, layer - 1)
      invariant Sorted(result)
      invariant forall n :: n in result <==> n in s[..i] && Extracts(root, excludeRoot, n)
    {
      var node := s[i];
      while node.originalIndex > rightIndex
        invariant first <= layer && leftIndex == LeftMost(root, layer) && rightIndex == RightMost(root, layer)
        invariant layer > first ==> forall j :: i <= j < |s| ==> s[j].originalIndex > RightMost(root, layer - 1)
        decreases node.originalIndex - rightIndex
      {
        Later(s, i);
        leftIndex, rightIndex := 2 * leftIndex + 1, 2 * rightIndex + 2;
        layer := layer + 1;
      }
      if excludeRoot {
        StrictLayerExact(root, layer, node.originalIndex);
      } else {
        LayerExact(root, layer, node.originalIndex);
      }
      assert Extracts(root, excludeRoot, node) <==> leftIndex <= node.originalIndex <= rightIndex;
      PrefixStep(s, i);
      if leftIndex <= node.originalIndex <= rightIndex {
        Appended(result, node);
        result := Inserted(result, node);
      }
    }
    assert s[..|s|] == s;
    rest := EraseAll(s, result);
    ErasedExactly(s, result, rest);
  }

  /** The order of the set is an order of indices. */
  lemma {:induction false} Later(s: seq<Node>, i: nat)
    requires Sorted(s) && i < |s|
    ensures forall j :: i <= j < |s| ==> s[j].originalIndex >= s[i].originalIndex
  {
    forall j | i <= j < |s| ensures s[j].originalIndex >= s[i].originalIndex {
      assert i < j ==> Before(s[i], s[j]);
    }
  }

  lemma {:induction false} PrefixStep(s: seq<Node>, i: nat)
    requires Sorted(s) && i < |s|
    ensures s[..i + 1] == s[..i] + [s[i]]
    ensures forall n :: n in s[..i] ==> Before(n, s[i])
  {
  }

  lemma {:induction false} ErasedExactly(s: seq<Node>, gone: seq<Node>, rest: seq<Node>)
    requires Sorted(s) && (forall n :: n in gone ==> n in s)
    requires forall m :: m in rest <==> m in s && !HasKey(gone, m)
    ensures forall m :: m in rest <==> m in s && m !in gone
  {
    forall m | m in s ensures HasKey(gone, m) <==> m in gone {
      if m in gone { assert SameKey(m, m); }
      if HasKey(gone, m) {
        var x :| x in gone && SameKey(x, m);
        SameKeySameNode(s, x, m);
      }
    }
  }

  // ----- statuses -------------------------------------------------------------------------------

  /** A node after clean-up. */
  function Cleaned(n: Node): Node { n.(status := AVAILABLE) }

  /** Discards lost nodes and makes all others available. */
  method CleanUpStatuses(s: seq<Node>) returns (r: seq<Node>)
    requires Sorted(s)
    ensures Sorted(r)
    ensures forall n :: n in r <==> exists m :: m in s && m.status != LOST && n == Cleaned(m)
  {
    var toDelete, t := [], s;
    for i := 0 to |s|
      invariant |t| == |s| && (forall j :: i <= j < |s| ==> t[j] == s[j])
      invariant forall j :: 0 <= j < i ==> t[j] == if s[j].status == LOST then s[j] else Cleaned(s[j])
      invariant forall m :: m in toDelete <==> m in s[..i] && m.status == LOST
    {
      PrefixStep(s, i);
      if t[i].status == LOST { toDelete := toDelete + [t[i]]; } else { t := t[i := t[i].(status := AVAILABLE)]; }
    }
    assert s[..|s|] == s;
    Relabelled(s, t);
    r := EraseAll(t, toDelete);
    CleanedExactly(s, t, toDelete, r);
  }

  lemma {:induction false} Relabelled(s: seq<Node>, t: seq<Node>)
    requires Sorted(s) && |t| == |s| && forall j :: 0 <= j < |s| ==> SameKey(t[j], s[j])
    ensures Sorted(t)
  {
    forall i, j | 0 <= i < j < |t| ensures Before(t[i], t[j]) {
      assert Before(s[i], s[j]);
    }
  }

  lemma {:induction false} CleanedExactly(s: seq<Node>, t: seq<Node>, toDelete: seq<Node>, r: seq<Node>)
    requires Sorted(s) && Sorted(t) && |t| == |s|
    requires forall j :: 0 <= j < |s| ==> t[j] == if s[j].status == LOST then s[j] else Cleaned(s[j])
    requires forall m :: m in toDelete <==> m in s && m.status == LOST
    requires forall m :: m in r <==> m in t && !HasKey(toDelete, m)
    ensures forall n :: n in r <==> exists m :: m in s && m.status != LOST && n == Cleaned(m)
  {
    forall j | 0 <= j < |s| ensures HasKey(toDelete, t[j]) <==> s[j].status == LOST {
      if s[j].status == LOST { assert s[j] in toDelete && SameKey(s[j], t[j]); }
      if HasKey(toDelete, t[j]) {
        var x :| x in toDelete && SameKey(x, t[j]);
        SameKeySameNode(s, x, s[j]);
      }
    }
    forall n ensures n in r <==> exists m :: m in s && m.status != LOST && n == Cleaned(m) {
      if n in r {
        var j :| 0 <= j < |t| && t[j] == n;
        assert s[j] in s && n == Cleaned(s[j]);
      }
      if exists m :: m in s && m.status != LOST && n == Cleaned(m) {
        var m :| m in s && m.status != LOST && n == Cleaned(m);
        var j :| 0 <= j < |s| && s[j] == m;
        assert t[j] in t;
      }
    }
  }

  // ----- one node per rank ------------------------------------------------------------------------

  /** Of two nodes of the same rank: the newer epoch is kept, then the one that comes first. */
  predicate Preferred(a: Node, b: Node) {
    a.lastEpoch > b.lastEpoch || (a.lastEpoch == b.lastEpoch && Before(a, b))
  }

  /** The node is the best of its rank. */
  ghost predicate BestOfRank(s: seq<Node>, n: Node) {
    n in s && forall m :: m in s && m.rank == n.rank && m != n ==> Preferred(n, m)
  }

  ghost predicate ByRankOk(s: seq<Node>, byRank: map<int, Node>, toDelete: seq<Node>) {
    && (forall n :: n in s ==> n.rank in byRank)
    && (forall rank :: rank in byRank ==> byRank[rank].rank == rank && BestOfRank(s, byRank[rank]))
    && (forall n :: n in toDelete <==> n in s && byRank[n.rank] != n)
  }

  /** Keeps exactly the best node of each rank. */
  method FilterDuplicates(s: seq<Node>) returns (r: seq<Node>)
    requires Sorted(s)
    ensures Sorted(r)
    ensures forall n :: n in r <==> BestOfRank(s, n)
    ensures forall n :: n in s ==> Covered(r, n)
    ensures OnePerRank(r)
  {
    var toDelete: seq<Node> := [];
    var byRank: map<int, Node> := map[];
    for i := 0 to |s|
      invariant ByRankOk(s[..i], byRank, toDelete)
    {
      var node := s[i];
      PrefixStep(s, i);
      RankStep(s[..i], byRank, toDelete, node);
      if node.rank in byRank {
        var other := byRank[node.rank];
        if node.lastEpoch > other.lastEpoch {
          toDelete := toDelete + [other];
          byRank := byRank[node.rank := node];
        } else {
          toDelete := toDelete + [node];
        }
      } else {
        byRank := byRank[node.rank := node];
      }
    }
    assert s[..|s|] == s;
    r := EraseAll(s, toDelete);
    ErasedExactly(s, toDelete, r);
    BestRemain(s, byRank, toDelete, r);
  }

  ghost predicate OnePerRank(s: seq<Node>) {
    forall a, b :: a in s && b in s && a.rank == b.rank ==> a == b
  }

  lemma {:induction false} RankStep(s: seq<Node>, byRank: map<int, Node>, toDelete: seq<Node>, node: Node)
    requires ByRankOk(s, byRank, toDelete) && forall n :: n in s ==> Before(n, node)
    ensures node.rank !in byRank ==> ByRankOk(s + [node], byRank[node.rank := node], toDelete)
    ensures node.rank in byRank && node.lastEpoch > byRank[node.rank].lastEpoch ==>
              ByRankOk(s + [node], byRank[node.rank := node], toDelete + [byRank[node.rank]])
    ensures node.rank in byRank && node.lastEpoch <= byRank[node.rank].lastEpoch ==>
              ByRankOk(s + [node], byRank, toDelete + [node])
  {
    assert forall n :: n in s + [node] <==> n in s || n == node;
    assert node !in s;
    if node.rank in byRank {
      var other := byRank[node.rank];
      assert BestOfRank(s, other) && other in s && Before(other, node);
      assert forall m :: m in s && m.rank == node.rank && m != other ==> Preferred(other, m);
    }
    forall rank | rank in byRank && rank != node.rank ensures BestOfRank(s + [node], byRank[rank]) {
      assert BestOfRank(s, byRank[rank]);
    }
  }

  lemma {:induction false} BestRemain(s: seq<Node>, byRank: map<int, Node>, toDelete: seq<Node>, r: seq<Node>)
    requires ByRankOk(s, byRank, toDelete) && forall m :: m in r <==> m in s && m !in toDelete
    ensures forall n :: n in r <==> BestOfRank(s, n)
    ensures forall n :: n in s ==> Covered(r, n)
    ensures OnePerRank(r)
  {
    forall n ensures n in r <==> BestOfRank(s, n) {
      if n in s {
        var best := byRank[n.rank];
        assert BestOfRank(s, best) && best in s;
        assert best != n ==> Preferred(best, n) && !Preferred(n, best);
      }
    }
    forall n | n in s ensures Covered(r, n) {
      var best := byRank[n.rank];
      assert BestOfRank(s, best) && best in r;
      assert best != n ==> Preferred(best, n);
    }
  }

  /** All nodes of both sets, an equal key taken from the first. */
  ghost predicate IsUnion(u: seq<Node>, a: seq<Node>, b: seq<Node>) {
    Sorted(u) && forall n :: n in u <==> n in a || (n in b && !HasKey(a, n))
  }

  /** The set has a node of this rank that is at least as new. */
  ghost predicate Covered(s: seq<Node>, n: Node) {
    exists m :: m in s && m.rank == n.rank && m.lastEpoch >= n.lastEpoch
  }

  /** Exactly the best node of each rank in the union, hence one node per rank and none that is newer dropped. */
  ghost predicate Merges(a: seq<Node>, b: seq<Node>, r: seq<Node>) {
    && Sorted(r) && OnePerRank(r)
    && (forall n :: n in r ==> n in a || n in b)
    && (forall n :: n in a || n in b ==> Covered(r, n))
    && exists u :: IsUnion(u, a, b) && forall n :: n in r <==> BestOfRank(u, n)
  }

  /** The union with duplicates removed: one node per rank, of the newest epoch of that rank in either set. */
  method MergePreferringNewer(a: seq<Node>, b: seq<Node>) returns (r: seq<Node>)
    requires Sorted(a) && Sorted(b)
    ensures Merges(a, b, r)
  {
    var u := a;
    for i := 0 to |b|
      invariant IsUnion(u, a, b[..i])
    {
      PrefixStep(b, i);
      InsertedElements(u, b[i]);
      UnionStep(u, a, b, i);
      u := Inserted(u, b[i]);
    }
    assert b[..|b|] == b;
    r := FilterDuplicates(u);
    UnionCovers(u, a, b);
    hide IsUnion, BestOfRank, OnePerRank;
    forall n | n in a || n in b ensures Covered(r, n) {
      var m :| m in u && m.rank == n.rank && m.lastEpoch == n.lastEpoch;
      assert Covered(r, m);
    }
  }

  lemma {:induction false} UnionStep(u: seq<Node>, a: seq<Node>, b: seq<Node>, i: nat)
    requires i < |b| && IsUnion(u, a, b[..i]) && Sorted(b) && b[..i + 1] == b[..i] + [b[i]]
    requires forall n :: n in b[..i] ==> Before(n, b[i])
    requires Sorted(Inserted(u, b[i]))
    requires forall m :: m in Inserted(u, b[i]) <==> m in u || (m == b[i] && !HasKey(u, b[i]))
    ensures IsUnion(Inserted(u, b[i]), a, b[..i + 1])
  {
    hide Inserted;
    if HasKey(a, b[i]) {
      var x :| x in a && SameKey(x, b[i]);
      assert x in u;
    }
    if HasKey(u, b[i]) {
      var x :| x in u && SameKey(x, b[i]);
      assert x in a;
    }
  }

  lemma {:induction false} UnionCovers(u: seq<Node>, a: seq<Node>, b: seq<Node>)
    requires IsUnion(u, a, b)
    ensures forall n :: n in a || n in b ==> exists m :: m in u && m.rank == n.rank && m.lastEpoch == n.lastEpoch
    ensures forall n :: n in u ==> n in a || n in b
  {
    forall n | n in a || n in b ensures exists m :: m in u && m.rank == n.rank && m.lastEpoch == n.lastEpoch {
      if n !in a && HasKey(a, n) {
        var x :| x in a && SameKey(x, n);
        assert x in u;
      } else {
        assert n in u;
      }
    }
  }

  // ----- splitting -----------------------------------------------------------------------------------

  /** The node belongs to the right half. */
  ghost predicate GoesRight(index: nat, n: Node) { InSubtree(RightChild(index), n.originalIndex) }

  /**
   Every node goes into exactly one half. A node at or behind the first child goes right exactly if it lies in
   the right child's subtree, so a strict descendant goes to the child whose subtree contains it. Nodes before
   the first child alternate, starting with the right half.
   */
  method Split(s: seq<Node>, index: nat) returns (left: seq<Node>, right: seq<Node>)
    requires Sorted(s)
    ensures IsSplit(s, index, left, right)
    ensures Sorted(left) && Sorted(right) && |left| + |right| == |s|
    ensures forall n :: n in s <==> n in left || n in right
    ensures forall n :: n in left ==> n !in right
    ensures forall n :: n in s && n.originalIndex >= LeftChild(index) ==> (n in right <==> GoesRight(index, n))
    ensures forall n :: n in s && InSubtree(index, n.originalIndex) && n.originalIndex != index ==>
              (n in left <==> InSubtree(LeftChild(index), n.originalIndex))
              && (n in right <==> InSubtree(RightChild(index), n.originalIndex))
    ensures forall i :: 0 <= i < |s| && s[i].originalIndex < LeftChild(index) ==> (s[i] in right <==> i % 2 == 0)
  {
    left, right := [], [];
    assert IsSplit(s[..0], index, left, right);
    hide IsSplit, GoesRight, Inserted;
    for i := 0 to |s|
      invariant IsSplit(s[..i], index, left, right)
    {
      var node := s[i];
      PrefixStep(s, i);
      Halves(s[..i], index, left, right, node);
      if node.originalIndex < 2 * index + 1 {
        if |left| < |right| { left := Inserted(left, node); } else { right := Inserted(right, node); }
      } else {
        var goesRight := RightOfSplit(index, node);
        if goesRight { right := Inserted(right, node); } else { left := Inserted(left, node); }
      }
    }
    assert s[..|s|] == s;
    SplitByChildren(s, index, left, right);
  }

  /** Goes down layer by layer along the right ends of both subtrees until the node's layer is reached. */
  method RightOfSplit(index: nat, node: Node) returns (right: bool)
    requires node.originalIndex >= LeftChild(index)
    ensures right <==> GoesRight(index, node)
  {
    var leftMax, rightMax := 2 * index + 1, 2 * index + 2;
    ghost var layer := 0;
    while node.originalIndex > rightMax
      invariant leftMax == RightMost(LeftChild(index), layer) && rightMax == RightMost(RightChild(index), layer)
      invariant layer > 0 ==> node.originalIndex > RightMost(RightChild(index), layer - 1)
      decreases node.originalIndex - rightMax
    {
      leftMax, rightMax := 2 * leftMax + 2, 2 * rightMax + 2;
      layer := layer + 1;
    }
    LayerExact(RightChild(index), layer, node.originalIndex);
    Siblings(index, layer);
    return node.originalIndex > leftMax;
  }

  ghost predicate IsSplit(s: seq<Node>, index: nat, left: seq<Node>, right: seq<Node>) {
    && Sorted(left) && Sorted(right) && |left| + |right| == |s|
    && (forall n :: n in s <==> n in left || n in right)
    && (forall n :: n in left ==> n !in right)
    && (forall n :: n in s && n.originalIndex >= LeftChild(index) ==> (n in right <==> GoesRight(index, n)))
    && (forall i :: 0 <= i < |s| && s[i].originalIndex < LeftChild(index) ==> (s[i] in right <==> i % 2 == 0))
    && ((forall n :: n in s ==> n.originalIndex < LeftChild(index)) ==> |right| == |left| + |s| % 2)
  }

  lemma {:induction false} Halves(s: seq<Node>, index: nat, left: seq<Node>, right: seq<Node>, node: Node)
    requires IsSplit(s, index, left, right) && forall n :: n in s ==> Before(n, node)
    ensures (if node.originalIndex < LeftChild(index) then |left| < |right| else !GoesRight(index, node)) ==>
              IsSplit(s + [node], index, Inserted(left, node), right)
    ensures (if node.originalIndex < LeftChild(index) then |left| >= |right| else GoesRight(index, node)) ==>
              IsSplit(s + [node], index, left, Inserted(right, node))
  {
    Appended(left, node);
    Appended(right, node);
    hide Inserted, GoesRight;
    assert node !in s;
    Alternating(s, index, left, right, node);
    assert forall n :: n in s + [node] <==> n in s || n == node;
    hide Sorted, Before;
  }

  /** Where the next node before the first child belongs. */
  lemma {:induction false} Alternating(s: seq<Node>, index: nat, left: seq<Node>, right: seq<Node>, node: Node)
    requires IsSplit(s, index, left, right) && node !in s && forall n :: n in s ==> Before(n, node)
    ensures var t, low := s + [node], node.originalIndex < LeftChild(index);
            && (low ==> |right| == |left| + |s| % 2)
            && (forall n :: n in t ==> n.originalIndex < LeftChild(index)) == low
            && (forall i :: 0 <= i < |t| && t[i].originalIndex < LeftChild(index) && i < |s| ==>
              (t[i] in right <==> i % 2 == 0) && t[i] != node)
            && t[|s|] == node
  {
    hide GoesRight;
    var t := s + [node];
    assert forall i :: 0 <= i < |s| ==> t[i] == s[i] && s[i] in s;
    assert node in t;
    assert node.originalIndex < LeftChild(index) ==>
        forall n :: n in s ==> Before(n, node) && n.originalIndex < LeftChild(index);
  }

  lemma {:induction false} SplitByChildren(s: seq<Node>, index: nat, left: seq<Node>, right: seq<Node>)
    requires IsSplit(s, index, left, right)
    ensures Sorted(left) && Sorted(right) && |left| + |right| == |s|
    ensures forall n :: n in s <==> n in left || n in right
    ensures forall n :: n in left ==> n !in right
    ensures forall n :: n in s && n.originalIndex >= LeftChild(index) ==> (n in right <==> GoesRight(index, n))
    ensures forall i :: 0 <= i < |s| && s[i].originalIndex < LeftChild(index) ==> (s[i] in right <==> i % 2 == 0)
    ensures forall n :: n in s && InSubtree(index, n.originalIndex) && n.originalIndex != index ==>
              (n in left <==> InSubtree(LeftChild(index), n.originalIndex))
              && (n in right <==> InSubtree(RightChild(index), n.originalIndex))
  {
    forall n | n in s && InSubtree(index, n.originalIndex) && n.originalIndex != index
      ensures n in left <==> InSubtree(LeftChild(index), n.originalIndex)
      ensures n in right <==> InSubtree(RightChild(index), n.originalIndex)
    {
      OneChild(index, n.originalIndex);
      assert n.originalIndex >= LeftChild(index) by {
        if InSubtree(LeftChild(index), n.originalIndex) { SubtreeAbove(LeftChild(index), n.originalIndex); }
        else { SubtreeAbove(RightChild(index), n.originalIndex); }
      }
    }
  }
}
