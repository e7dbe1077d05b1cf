/**
 How the routing tables of all workers fit together: for each root, the hops towards it are the parent
 pointers of a spanning tree in which every hop shortens the distance by exactly one.
 */
module RoutingTree {
  import opened Basics
  import opened Permutations
  import opened PermutationGraph
  import opened Routing

  /** One routing table per worker. */
  ghost predicate AllTables(perms: seq<seq<int>>, n: nat, tables: seq<seq<int>>) {
    |tables| == n && forall w :: 0 <= w < n ==> RoutingTable(perms, n, w, tables[w])
  }

  /** The root of an epoch, which all workers compute alike. */
  function CurrentRoot(hash: int -> nat, epoch: int, numWorkers: nat): (root: nat)
    requires numWorkers > 0
    ensures root < numWorkers
  {
    hash(epoch) % numWorkers
  }

  ghost function Parents(tables: seq<seq<int>>, root: nat): (parents: seq<int>)
    requires forall w :: 0 <= w < |tables| ==> root < |tables[w]|
    ensures |parents| == |tables| && forall w :: 0 <= w < |tables| ==> parents[w] == tables[w][root]
  {
    seq(|tables|, w requires 0 <= w < |tables| => tables[w][root])
  }

  /** Parent pointers that lead to the root, one level of depth per step. */
  ghost predicate SpanningTree(parents: seq<int>, depth: seq<nat>, n: nat, root: nat) {
    && |parents| == |depth| == n && root < n
    && parents[root] == root && depth[root] == 0
    && forall w :: 0 <= w < n && w != root ==> 0 <= parents[w] < n && depth[w] == depth[parents[w]] + 1
  }

  ghost predicate DepthIsDistance(perms: seq<seq<int>>, n: nat, depth: seq<nat>, root: nat) {
    |depth| == n && forall w :: 0 <= w < n ==> Distance(perms, n, w, root, depth[w])
  }

  ghost predicate FollowsEdges(perms: seq<seq<int>>, parents: seq<int>, root: nat) {
    forall w :: 0 <= w < |parents| && w != root ==> Edge(perms, w, parents[w])
  }

  /** For any root, the tables of all workers form one spanning tree along edges of the graph, and the
      depth of each worker is its distance to the root. */
  lemma {:induction false} TablesFormTree(perms: seq<seq<int>>, n: nat, tables: seq<seq<int>>, root: nat)
      returns (depth: seq<nat>)
    requires AllTables(perms, n, tables) && root < n
    ensures SpanningTree(Parents(tables, root), depth, n, root)
    ensures DepthIsDistance(perms, n, depth, root)
    ensures FollowsEdges(perms, Parents(tables, root), root)
  {
    depth := Depths(perms, n, tables, root, n);
    var parents := Parents(tables, root);
    assert RoutingTable(perms, n, root, tables[root]);
    hide Distance;
    forall w | 0 <= w < n && w != root
      ensures 0 <= parents[w] < n && depth[w] == depth[parents[w]] + 1 && Edge(perms, w, parents[w])
    {
      assert RoutingTable(perms, n, w, tables[w]);
      assert FirstHop(perms, n, w, root, parents[w]);
      var d: nat :| Distance(perms, n, w, root, d + 1) && Distance(perms, n, parents[w], root, d);
      DistanceUnique(perms, n, w, root, depth[w], d + 1);
      DistanceUnique(perms, n, parents[w], root, depth[parents[w]], d);
    }
    DistanceToSelf(perms, n, root);
    DistanceUnique(perms, n, root, root, depth[root], 0);
  }

  lemma {:induction false} Depths(perms: seq<seq<int>>, n: nat, tables: seq<seq<int>>, root: nat, m: nat)
      returns (depth: seq<nat>)
    requires AllTables(perms, n, tables) && root < n && m <= n
    ensures |depth| == m && forall w :: 0 <= w < m ==> Distance(perms, n, w, root, depth[w])
  {
    hide Distance;
    depth := [];
    if m > 0 {
      depth := Depths(perms, n, tables, root, m - 1);
      var w := m - 1;
      if w == root {
        DistanceToSelf(perms, n, root);
        depth := depth + [0];
      } else {
        assert RoutingTable(perms, n, w, tables[w]);
        assert FirstHop(perms, n, w, root, tables[w][root]);
        var d: nat :| Distance(perms, n, w, root, d + 1);
        depth := depth + [d + 1];
      }
    }
  }

  // ----- what a spanning tree means -----------------------------------------------------

  /** The worker reached after `k` steps along parent pointers. */
  ghost function Ancestor(parents: seq<int>, w: int, k: nat): int {
    if k == 0 then w
    else var a := Ancestor(parents, w, k - 1); if 0 <= a < |parents| then parents[a] else a
  }

  /** Each step goes up one level; after as many steps as its depth, and not before, a worker is at the
      root. */
  lemma {:induction false} AncestorDepth(parents: seq<int>, depth: seq<nat>, n: nat, root: nat, w: nat, k: nat)
    requires SpanningTree(parents, depth, n, root) && w < n && k <= depth[w]
    ensures 0 <= Ancestor(parents, w, k) < n && depth[Ancestor(parents, w, k)] == depth[w] - k
    ensures Ancestor(parents, w, k) == root <==> k == depth[w]
  {
    if k > 0 {
      AncestorDepth(parents, depth, n, root, w, k - 1);
    }
    RootIsOnlyTop(parents, depth, n, root, Ancestor(parents, w, k));
  }

  lemma {:induction false} RootIsOnlyTop(parents: seq<int>, depth: seq<nat>, n: nat, root: nat, w: int)
    requires SpanningTree(parents, depth, n, root) && 0 <= w < n
    ensures depth[w] == 0 <==> w == root
  {
    if w != root {
      var d: nat := depth[parents[w]];
    }
  }

  /** There are no cycles except at the root. */
  lemma {:induction false} NoCycle(parents: seq<int>, depth: seq<nat>, n: nat, root: nat, w: nat, k: nat)
    requires SpanningTree(parents, depth, n, root) && w < n && w != root && k > 0
    ensures Ancestor(parents, w, k) != w
  {
    if k <= depth[w] {
      AncestorDepth(parents, depth, n, root, w, k);
    } else {
      AncestorDepth(parents, depth, n, root, w, depth[w]);
      StaysAtRoot(parents, depth, n, root, w, depth[w], k);
    }
  }

  lemma {:induction false} StaysAtRoot(parents: seq<int>, depth: seq<nat>, n: nat, root: nat, w: nat, k: nat, l: nat)
    requires SpanningTree(parents, depth, n, root) && Ancestor(parents, w, k) == root && k <= l
    ensures Ancestor(parents, w, l) == root
    decreases l - k
  {
    if k < l {
      StaysAtRoot(parents, depth, n, root, w, k, l - 1);
    }
  }

  /** Every worker computes its own table over the same hop graph. */
  method ComputeAllTables(perms: seq<seq<int>>, n: nat, hash: int -> int) returns (tables: seq<seq<int>>)
    requires HopGraph(perms, n) && 0 < n && n + 1 < INT32_MAX
    ensures AllTables(perms, n, tables)
  {
    hide RoutingTable;
    tables := [];
    assert IsPermutation(perms[0], n);
    hide HopGraph;
    for w := 0 to n
      invariant |tables| == w && forall v :: 0 <= v < w ==> RoutingTable(perms, n, v, tables[v])
    {
      HopGraphConnected(perms, n, w);
      var table := GetBestOutgoingEdgeForEachNode(perms, w, hash);
      tables := tables + [table];
    }
  }

  /** For the root of every epoch the tables form a spanning tree, and each worker reaches that root. */
  lemma {:induction false} EpochTree(perms: seq<seq<int>>, n: nat, tables: seq<seq<int>>, hash: int -> nat,
      epoch: int, w: nat)
    returns (depth: seq<nat>)
    requires AllTables(perms, n, tables) && w < n
    ensures var root := CurrentRoot(hash, epoch, n);
            && SpanningTree(Parents(tables, root), depth, n, root)
            && DepthIsDistance(perms, n, depth, root)
            && Ancestor(Parents(tables, root), w, depth[w]) == root
  {
    hide CurrentRoot;
    var root := CurrentRoot(hash, epoch, n);
    depth := TablesFormTree(perms, n, tables, root);
    AncestorDepth(Parents(tables, root), depth, n, root, w, depth[w]);
  }

  // ----- aggregated status --------------------------------------------------------------

  /** A worker's aggregated idle count: itself plus what its children report. */
  ghost function Reported(parents: seq<int>, root: nat, reports: seq<int>, w: int, m: nat): int
    requires |parents| == |reports| && m <= |reports|
  {
    if m == 0 then 0
    else Reported(parents, root, reports, w, m - 1) + if parents[m - 1] == w && m - 1 != root then reports[m - 1] else 0
  }

  ghost predicate UpToDate(parents: seq<int>, root: nat, idle: seq<int>, reports: seq<int>) {
    && |parents| == |idle| == |reports|
    && forall w :: 0 <= w < |reports| ==> reports[w] == idle[w] + Reported(parents, root, reports, w, |reports|)
  }

  ghost function Total(s: seq<int>, m: nat): int
    requires m <= |s|
  {
    if m == 0 then 0 else Total(s, m - 1) + s[m - 1]
  }

  ghost function TotalReported(parents: seq<int>, root: nat, reports: seq<int>, ws: nat, m: nat): int
    requires |parents| == |reports| && m <= |reports|
  {
    if ws == 0 then 0
    else TotalReported(parents, root, reports, ws - 1, m) + Reported(parents, root, reports, ws - 1, m)
  }

  /** Each report is counted at exactly one parent. */
  lemma {:induction false} CountedOnce(parents: seq<int>, root: nat, reports: seq<int>, ws: nat, m: nat)
    requires |parents| == |reports| && 0 < m <= |reports| && 0 <= parents[m - 1] && m - 1 != root
    ensures TotalReported(parents, root, reports, ws, m)
         == TotalReported(parents, root, reports, ws, m - 1) + if parents[m - 1] < ws then reports[m - 1] else 0
  {
    if ws > 0 {
      CountedOnce(parents, root, reports, ws - 1, m);
    }
  }

  lemma {:induction false} RootNotCounted(parents: seq<int>, root: nat, reports: seq<int>, ws: nat)
    requires |parents| == |reports| && root < |reports|
    ensures TotalReported(parents, root, reports, ws, root + 1) == TotalReported(parents, root, reports, ws, root)
  {
    if ws > 0 {
      RootNotCounted(parents, root, reports, ws - 1);
    }
  }

  lemma {:induction false} NothingReported(parents: seq<int>, root: nat, reports: seq<int>, ws: nat)
    requires |parents| == |reports|
    ensures TotalReported(parents, root, reports, ws, 0) == 0
  {
    if ws > 0 {
      NothingReported(parents, root, reports, ws - 1);
    }
  }

  lemma {:induction false} AllButRootCounted(parents: seq<int>, root: nat, reports: seq<int>, n: nat, m: nat)
    requires |parents| == |reports| == n && m <= n && root < n
    requires forall w :: 0 <= w < n ==> 0 <= parents[w] < n
    ensures TotalReported(parents, root, reports, n, m) == Total(reports, m) - if root < m then reports[root] else 0
  {
    if m == 0 {
      NothingReported(parents, root, reports, n);
    } else {
      AllButRootCounted(parents, root, reports, n, m - 1);
      if m - 1 == root {
        RootNotCounted(parents, root, reports, n);
      } else {
        CountedOnce(parents, root, reports, n, m);
      }
    }
  }

  lemma {:induction false} SumOfReports(parents: seq<int>, root: nat, idle: seq<int>, reports: seq<int>, m: nat)
    requires UpToDate(parents, root, idle, reports) && m <= |reports|
    ensures Total(reports, m) == Total(idle, m) + TotalReported(parents, root, reports, m, |reports|)
  {
    if m > 0 {
      SumOfReports(parents, root, idle, reports, m - 1);
    }
  }

  /** Once all reports along a tree are up to date, the root counts every idle worker exactly once. */
  lemma {:induction false} RootCountsAllIdle(parents: seq<int>, depth: seq<nat>, n: nat, root: nat, idle: seq<int>,
      reports: seq<int>)
    requires SpanningTree(parents, depth, n, root) && UpToDate(parents, root, idle, reports)
    ensures reports[root] == Total(idle, n)
  {
    SumOfReports(parents, root, idle, reports, n);
    AllButRootCounted(parents, root, reports, n, n);
  }
}
