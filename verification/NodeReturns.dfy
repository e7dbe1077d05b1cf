/** What a node returns to its parent when it is suspended: the nodes of both sides and itself. */
module NodeReturns {
  import opened InactiveNodes

  // ----- merging both sides -------------------------------------------------------------------------

  /** First one side, then the other is merged into the empty set. */
  ghost predicate MergesBoth(a: seq<Node>, b: seq<Node>, r: seq<Node>) {
    exists first :: Merges([], a, first) && Merges(first, b, r)
  }

  method MergeBoth(a: seq<Node>, b: seq<Node>) returns (r: seq<Node>)
    requires Sorted(a) && Sorted(b)
    ensures Sorted(r) && MergesBoth(a, b, r)
  {
    hide Sorted;
    var first := MergePreferringNewer([], a) by { EmptyIsSorted(); }
    assert Sorted(first);
    r := MergePreferringNewer(first, b);
  }

  lemma {:induction false} EmptyIsSorted()
    ensures Sorted([])
  {
  }

  lemma {:induction false} CoveredTwice(r: seq<Node>, m: Node, n: Node)
    requires Covered(r, m) && m.rank == n.rank && m.lastEpoch >= n.lastEpoch
    ensures Covered(r, n)
  {
  }

  /** The merged set holds nodes of both sides only, and covers all of them. */
  lemma {:induction false} BothMerged(a: seq<Node>, b: seq<Node>, r: seq<Node>)
    requires MergesBoth(a, b, r)
    ensures Sorted(r) && forall n :: n in r ==> n in a || n in b
    ensures forall n :: n in a || n in b ==> Covered(r, n)
  {
    var first: seq<Node> :| Merges([], a, first) && Merges(first, b, r);
    forall n | n in a || n in b ensures Covered(r, n) {
      if n in a {
        assert Covered(first, n);
        var m :| m in first && m.rank == n.rank && m.lastEpoch >= n.lastEpoch;
        CoveredTwice(r, m, n);
      }
    }
  }

  // ----- the return ----------------------------------------------------------------------------------

  /** The merged nodes that are not lost, all available, and the node itself if its key is free. */
  ghost predicate ReturnsFrom(merged: seq<Node>, own: Node, r: seq<Node>) {
    Sorted(r) && forall n :: n in r <==> CleanedIn(merged, n) || (n == own && !HasKey(merged, own))
  }

  ghost predicate CleanedIn(s: seq<Node>, n: Node) {
    exists m :: m in s && m.status != LOST && n == Cleaned(m)
  }

  ghost predicate ReturnedBy(a: seq<Node>, b: seq<Node>, own: Node, r: seq<Node>) {
    exists merged :: MergesBoth(a, b, merged) && ReturnsFrom(merged, own, r)
  }

  /** What a resuming root works on: the merged nodes that are not lost, all available. */
  ghost predicate CleanedBoth(a: seq<Node>, b: seq<Node>, r: seq<Node>) {
    Sorted(r) && exists merged :: MergesBoth(a, b, merged) && forall n :: n in r <==> CleanedIn(merged, n)
  }

  method CollectReturn(a: seq<Node>, b: seq<Node>, own: Node) returns (r: seq<Node>)
    requires Sorted(a) && Sorted(b) && own.status == AVAILABLE
    ensures Sorted(r) && ReturnedBy(a, b, own, r)
  {
    hide MergesBoth, Sorted;
    var merged := MergeBoth(a, b);
    InsertedElements(merged, own);
    r := CleanUpStatuses(Inserted(merged, own));
    InsertedCleaned(merged, own, Inserted(merged, own), r);
  }

  lemma {:induction false} InsertedCleaned(merged: seq<Node>, own: Node, all: seq<Node>, r: seq<Node>)
    requires own.status == AVAILABLE && Sorted(r)
    requires forall m :: m in all <==> m in merged || (m == own && !HasKey(merged, own))
    requires forall n :: n in r <==> exists m :: m in all && m.status != LOST && n == Cleaned(m)
    ensures ReturnsFrom(merged, own, r)
  {
    forall n ensures n in r <==> CleanedIn(merged, n) || (n == own && !HasKey(merged, own)) {
      if n in r {
        var m :| m in all && m.status != LOST && n == Cleaned(m);
        assert m in merged ==> CleanedIn(merged, n);
      }
      if CleanedIn(merged, n) {
        var m :| m in merged && m.status != LOST && n == Cleaned(m);
        assert m in all;
      }
      if n == own && !HasKey(merged, own) { assert own in all && own == Cleaned(own); }
    }
  }

  method CollectForRoot(a: seq<Node>, b: seq<Node>) returns (r: seq<Node>)
    requires Sorted(a) && Sorted(b)
    ensures CleanedBoth(a, b, r)
  {
    hide MergesBoth, Sorted;
    var merged := MergeBoth(a, b);
    r := CleanUpStatuses(merged);
    assert forall n :: n in r <==> CleanedIn(merged, n);
  }

  // ----- what that means --------------------------------------------------------------------------

  ghost predicate NoLost(s: seq<Node>, rank: int) {
    forall n :: n in s && n.rank == rank ==> n.status != LOST
  }

  /** Every rank that is not lost comes back, at least as new as on either side. */
  lemma {:induction false} RankReturned(a: seq<Node>, b: seq<Node>, own: Node, r: seq<Node>, n: Node)
    requires ReturnedBy(a, b, own, r) && (n in a || n in b) && NoLost(a, n.rank) && NoLost(b, n.rank)
    ensures Covered(r, n)
  {
    var merged: seq<Node> :| MergesBoth(a, b, merged) && ReturnsFrom(merged, own, r);
    BothMerged(a, b, merged);
    hide MergesBoth;
    var m :| m in merged && m.rank == n.rank && m.lastEpoch >= n.lastEpoch;
    assert m.status != LOST;
    assert CleanedIn(merged, Cleaned(m));
    assert Cleaned(m) in r;
  }

  /** Nothing comes back but the node itself and nodes of both sides that are not lost. */
  lemma {:induction false} NothingElseReturned(a: seq<Node>, b: seq<Node>, own: Node, r: seq<Node>, n: Node)
    requires ReturnedBy(a, b, own, r) && n in r && n != own
    ensures exists m :: (m in a || m in b) && m.status != LOST && n == Cleaned(m)
  {
    var merged: seq<Node> :| MergesBoth(a, b, merged) && ReturnsFrom(merged, own, r);
    BothMerged(a, b, merged);
    hide MergesBoth;
    var m :| m in merged && m.status != LOST && n == Cleaned(m);
  }

  /** All other nodes of its rank are older. */
  ghost predicate StrictlyNewest(a: seq<Node>, b: seq<Node>, n: Node) {
    forall m :: (m in a || m in b) && m.rank == n.rank && m != n ==> m.lastEpoch < n.lastEpoch
  }

  /** The newest node of a rank comes back as it is, unless it is lost. */
  lemma {:induction false} NewestReturned(a: seq<Node>, b: seq<Node>, own: Node, r: seq<Node>, n: Node)
    requires ReturnedBy(a, b, own, r) && (n in a || n in b) && n.status != LOST && StrictlyNewest(a, b, n)
    ensures Cleaned(n) in r
  {
    var merged: seq<Node> :| MergesBoth(a, b, merged) && ReturnsFrom(merged, own, r);
    BothMerged(a, b, merged);
    hide MergesBoth;
    var m :| m in merged && m.rank == n.rank && m.lastEpoch >= n.lastEpoch;
    assert m == n;
    assert CleanedIn(merged, Cleaned(n));
  }

  // ----- the node itself -------------------------------------------------------------------------

  ghost predicate LostTwin(s: seq<Node>, own: Node) {
    exists m :: m in s && SameKey(m, own) && m.status == LOST
  }

  /** The node itself is part of the return exactly if no lost node with its key survives the merge. */
  lemma {:induction false} OwnReturnedIff(merged: seq<Node>, own: Node, r: seq<Node>)
    requires ReturnsFrom(merged, own, r) && own.status == AVAILABLE && Sorted(merged)
    ensures own in r <==> !LostTwin(merged, own)
  {
    if HasKey(merged, own) {
      var m :| m in merged && SameKey(m, own);
      if m.status != LOST {
        assert CleanedIn(merged, own) by { assert own == Cleaned(m); }
        assert forall x :: x in merged && SameKey(x, own) ==> x == m by {
          forall x | x in merged && SameKey(x, own) ensures x == m { SameKeySameNode(merged, x, m); }
        }
      } else {
        assert !CleanedIn(merged, own) by {
          forall x | x in merged && own == Cleaned(x) ensures x == m { SameKeySameNode(merged, x, m); }
        }
      }
    } else {
      assert forall m :: m in merged ==> !SameKey(m, own);
    }
  }

  /** Such a twin does hide it: with a lost node of the same rank, index and epoch nothing comes back. */
  lemma {:induction false} OwnHidden(own: Node)
    requires own.status == AVAILABLE
    ensures var twin := own.(status := LOST); ReturnedBy([twin], [], own, [])
  {
    var twin := own.(status := LOST);
    var s := [twin];
    SingleMerge(twin);
    assert MergesBoth(s, [], s);
    assert twin in s && SameKey(twin, own);
    assert forall n :: !CleanedIn(s, n);
    assert ReturnsFrom(s, own, []);
  }

  lemma {:induction false} SingleMerge(n: Node)
    ensures Merges([], [n], [n]) && Merges([n], [], [n])
  {
    var s := [n];
    assert n in s && Covered(s, n);
    assert IsUnion(s, [], s) && IsUnion(s, s, []);
    assert forall m :: m in s <==> BestOfRank(s, m);
  }

  /** If no node of either side has the index of the node itself, it is always part of the return. */
  lemma {:induction false} OwnReturned(a: seq<Node>, b: seq<Node>, own: Node, r: seq<Node>)
    requires ReturnedBy(a, b, own, r) && forall n :: n in a || n in b ==> n.originalIndex != own.originalIndex
    ensures own in r
  {
    var merged: seq<Node> :| MergesBoth(a, b, merged) && ReturnsFrom(merged, own, r);
    BothMerged(a, b, merged);
    hide MergesBoth;
    assert !HasKey(merged, own);
  }
}
