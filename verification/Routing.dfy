/**
 Routing over the hop graph: every worker computes on its own, with its own tie-breaking, the first hop
 towards each other worker. For any root these first hops fit together into one tree.
 */
module Routing {
  import opened Basics
  import opened Permutations
  import opened PermutationGraph

  ghost predicate Graph(perms: seq<seq<int>>, n: nat) {
    |perms| > 0 && forall k :: 0 <= k < |perms| ==> |perms[k]| == n && InRange(perms[k], n)
  }

  ghost predicate Edge(perms: seq<seq<int>>, u: int, v: int) {
    exists k :: 0 <= k < |perms| && 0 <= u < |perms[k]| && perms[k][u] == v
  }

  ghost predicate Path(perms: seq<seq<int>>, n: nat, u: int, v: int, p: seq<int>) {
    && |p| > 0 && p[0] == u && p[|p| - 1] == v
    && InRange(p, n)
    && forall i :: 0 <= i < |p| - 1 ==> Edge(perms, p[i], p[i + 1])
  }

  ghost predicate Distance(perms: seq<seq<int>>, n: nat, u: int, v: int, d: nat) {
    && (exists p :: Path(perms, n, u, v, p) && |p| == d + 1)
    && (forall p :: Path(perms, n, u, v, p) ==> |p| >= d + 1)
  }

  ghost predicate Reaches(perms: seq<seq<int>>, n: nat, u: int, v: int) {
    exists p :: Path(perms, n, u, v, p)
  }

  ghost predicate ReachesAll(perms: seq<seq<int>>, n: nat, u: int) {
    forall v :: 0 <= v < n ==> Reaches(perms, n, u, v)
  }

  // ----- paths -------------------------------------------------------------------

  lemma {:induction false} ExtendPath(perms: seq<seq<int>>, n: nat, u: int, v: int, p: seq<int>, w: int)
    requires Path(perms, n, u, v, p) && Edge(perms, v, w) && 0 <= w < n
    ensures Path(perms, n, u, w, p + [w])
  {
    var q := p + [w];
    forall i | 0 <= i < |q| - 1 ensures Edge(perms, q[i], q[i + 1]) {
      if i < |p| - 1 { assert Edge(perms, p[i], p[i + 1]); }
    }
  }

  lemma {:induction false} PrependPath(perms: seq<seq<int>>, n: nat, u: int, v: int, p: seq<int>, w: int)
    requires Path(perms, n, u, v, p) && Edge(perms, w, u) && 0 <= w < n
    ensures Path(perms, n, w, v, [w] + p)
  {
    var q := [w] + p;
    forall i | 0 <= i < |q| - 1 ensures Edge(perms, q[i], q[i + 1]) {
      if i > 0 { assert Edge(perms, p[i - 1], p[i]); }
    }
  }

  lemma {:induction false} PathTail(perms: seq<seq<int>>, n: nat, u: int, v: int, p: seq<int>)
    requires Path(perms, n, u, v, p) && |p| > 1
    ensures Path(perms, n, p[1], v, p[1..]) && Edge(perms, u, p[1])
  {
    var q := p[1..];
    assert Edge(perms, p[0], p[0 + 1]);
    forall i | 0 <= i < |q| - 1 ensures Edge(perms, q[i], q[i + 1]) {
      assert Edge(perms, p[i + 1], p[i + 1 + 1]);
    }
  }

  lemma {:induction false} DistanceUnique(perms: seq<seq<int>>, n: nat, u: int, v: int, d: nat, e: nat)
    requires Distance(perms, n, u, v, d) && Distance(perms, n, u, v, e)
    ensures d == e
  {
  }

  lemma {:induction false} DistanceToSelf(perms: seq<seq<int>>, n: nat, u: int)
    requires 0 <= u < n
    ensures Distance(perms, n, u, u, 0)
  {
    assert Path(perms, n, u, u, [u]);
  }

  // ----- connectivity of the hop graph -----------------------------------------------

  /** Along the cycle of the first permutation every worker reaches every worker. */
  lemma {:induction false} HopGraphConnected(perms: seq<seq<int>>, n: nat, u: nat)
    requires HopGraph(perms, n) && u < n
    ensures Graph(perms, n) && ReachesAll(perms, n, u)
  {
    var order :| CycleThrough(perms[0], order, n);
    var i := Onto(order, n, u);
    assert forall k :: 0 <= k < |perms| ==> IsPermutation(perms[k], n);
    forall v | 0 <= v < n ensures Reaches(perms, n, u, v) {
      var j := Onto(order, n, v);
      var p := AlongCycle(perms, order, n, i, if j >= i then j - i else n - i + j);
      assert Path(perms, n, u, v, p);
    }
  }

  lemma {:induction false} AlongCycle(perms: seq<seq<int>>, order: seq<int>, n: nat, i: nat, steps: nat)
      returns (p: seq<int>)
    requires |perms| > 0 && CycleThrough(perms[0], order, n) && i < n && steps <= n
    ensures Path(perms, n, order[i],
        order[if i + steps < n then i + steps else if i + steps - n < n then i + steps - n else 0], p)
  {
    if steps == 0 {
      p := [order[i]];
    } else {
      p := AlongCycle(perms, order, n, i, steps - 1);
      var j := if i + steps - 1 < n then i + steps - 1 else i + steps - 1 - n;
      assert perms[0][order[j]] == order[Next(j, n)];
      assert Edge(perms, order[j], order[Next(j, n)]);
      ExtendPath(perms, n, order[i], order[j], p, order[Next(j, n)]);
      p := p + [order[Next(j, n)]];
    }
  }

  // ----- shortest paths from one worker -------------------------------------------

  /** A path of length `d` to `x` whose first hop, if there is one, is `hop`. */
  ghost predicate Witness(perms: seq<seq<int>>, n: nat, rank: int, x: int, d: int, hop: int) {
    exists p :: Path(perms, n, rank, x, p) && |p| == d + 1 && (|p| > 1 ==> p[1] == hop)
  }

  /** Every distance found so far belongs to a path that starts with the recorded hop. */
  ghost predicate Sound(perms: seq<seq<int>>, n: nat, rank: int, distance: seq<int>, best: seq<int>, bound: int) {
    && |distance| == |best| == n && 0 <= rank < n && distance[rank] == 0
    && forall x :: 0 <= x < n && distance[x] != INT32_MAX ==>
                     && 0 <= distance[x] <= bound
                     && (x != rank ==> distance[x] > 0)
                     && Witness(perms, n, rank, x, distance[x], best[x])
  }

  /** The edges out of `u` through the first `m` permutations are accounted for. */
  ghost predicate Relaxed(perms: seq<seq<int>>, n: nat, distance: seq<int>, u: int, m: int)
    requires Graph(perms, n) && |distance| == n && 0 <= u < n && 0 <= m <= |perms|
  {
    forall k :: 0 <= k < m ==> distance[perms[k][u]] <= distance[u] + 1
  }

  /** Visited workers have final distances, no larger than those of the unvisited. */
  ghost predicate Settled(perms: seq<seq<int>>, n: nat, distance: seq<int>, unvisited: set<int>)
    requires Graph(perms, n) && |distance| == n
  {
    && (forall u :: u in unvisited ==> 0 <= u < n)
    && (forall u :: 0 <= u < n && u !in unvisited ==>
          distance[u] < INT32_MAX && Relaxed(perms, n, distance, u, |perms|))
    && (forall u, v :: 0 <= u < n && u !in unvisited && v in unvisited ==> distance[u] <= distance[v])
  }

  /** Order of the unvisited workers: by distance, ties by a hash that differs per worker. */
  predicate Before(distance: seq<int>, hash: int -> int, rank: int, x: int, y: int)
    requires 0 <= x < |distance| && 0 <= y < |distance|
  {
    if distance[x] != distance[y] then distance[x] < distance[y] else hash(x + rank) < hash(y + rank)
  }

  predicate First(distance: seq<int>, hash: int -> int, rank: int, unvisited: set<int>, x: int)
    requires forall y :: y in unvisited ==> 0 <= y < |distance|
  {
    x in unvisited && forall y :: y in unvisited ==> !Before(distance, hash, rank, y, x)
  }

  lemma {:induction false} FirstExists(distance: seq<int>, hash: int -> int, rank: int, unvisited: set<int>)
    requires unvisited != {} && forall y :: y in unvisited ==> 0 <= y < |distance|
    ensures exists x :: First(distance, hash, rank, unvisited, x)
    decreases |unvisited|
  {
    var x := SomeElement(unvisited);
    var rest := unvisited - {x};
    assert unvisited == rest + {x};
    if rest == {} {
      assert First(distance, hash, rank, unvisited, x) by {
        forall y | y in unvisited ensures !Before(distance, hash, rank, y, x) { assert y == x; }
      }
    } else {
      FirstExists(distance, hash, rank, rest);
      var y :| First(distance, hash, rank, rest, y);
      var z := if Before(distance, hash, rank, x, y) then x else y;
      assert First(distance, hash, rank, unvisited, z) by {
        forall w | w in unvisited ensures !Before(distance, hash, rank, w, z) {
          assert w == x || w in rest;
        }
      }
    }
  }

  /** Reachable workers are not left behind: some unvisited one has a finite distance. */
  lemma {:induction false} FrontIsFinite(perms: seq<seq<int>>, n: nat, rank: int, distance: seq<int>,
      best: seq<int>, bound: int, unvisited: set<int>, c: int)
    requires Graph(perms, n) && Sound(perms, n, rank, distance, best, bound) && bound + 1 < INT32_MAX
    requires Settled(perms, n, distance, unvisited) && ReachesAll(perms, n, rank)
    requires c in unvisited && forall y :: y in unvisited ==> distance[c] <= distance[y]
    ensures distance[c] < INT32_MAX
  {
    hide Relaxed, Witness, Path;
    if distance[c] >= INT32_MAX {
      assert Reaches(perms, n, rank, c);
      var p :| Path(perms, n, rank, c, p);
      StaysVisited(perms, n, distance, unvisited, rank, c, p);
    }
  }

  lemma {:induction false} StaysVisited(perms: seq<seq<int>>, n: nat, distance: seq<int>, unvisited: set<int>,
      rank: int, x: int, p: seq<int>)
    requires Graph(perms, n) && |distance| == n && Settled(perms, n, distance, unvisited)
    requires rank !in unvisited && forall y :: y in unvisited ==> distance[y] >= INT32_MAX
    requires forall u :: 0 <= u < n && u !in unvisited ==> distance[u] + 1 < INT32_MAX
    requires Path(perms, n, rank, x, p)
    ensures x !in unvisited
    decreases |p|
  {
    if |p| > 1 {
      var q, u := p[..|p| - 1], p[|p| - 2];
      assert Path(perms, n, rank, u, q) by {
        forall i | 0 <= i < |q| - 1 ensures Edge(perms, q[i], q[i + 1]) { assert Edge(perms, p[i], p[i + 1]); }
      }
      StaysVisited(perms, n, distance, unvisited, rank, u, q);
      assert Edge(perms, p[|p| - 2], p[|p| - 2 + 1]);
      var k :| 0 <= k < |perms| && 0 <= u < |perms[k]| && perms[k][u] == x;
      assert Relaxed(perms, n, distance, u, |perms|);
      assert distance[perms[k][u]] <= distance[u] + 1;
    }
  }

  /** With all edges accounted for, no path is shorter than the recorded distance. */
  lemma {:induction false} NoShorterPath(perms: seq<seq<int>>, n: nat, distance: seq<int>, rank: int, x: int,
      p: seq<int>)
    requires Graph(perms, n) && |distance| == n && Settled(perms, n, distance, {})
    requires Path(perms, n, rank, x, p) && distance[rank] == 0
    ensures distance[x] <= |p| - 1
    decreases |p|
  {
    if |p| > 1 {
      var q, u := p[..|p| - 1], p[|p| - 2];
      assert Path(perms, n, rank, u, q) by {
        forall i | 0 <= i < |q| - 1 ensures Edge(perms, q[i], q[i + 1]) { assert Edge(perms, p[i], p[i + 1]); }
      }
      NoShorterPath(perms, n, distance, rank, u, q);
      assert Edge(perms, p[|p| - 2], p[|p| - 2 + 1]);
      var k :| 0 <= k < |perms| && 0 <= u < |perms[k]| && perms[k][u] == x;
      assert Relaxed(perms, n, distance, u, |perms|);
      assert distance[perms[k][u]] <= distance[u] + 1;
    }
  }

  /** The first hop of a shortest path. */
  ghost predicate FirstHop(perms: seq<seq<int>>, n: nat, u: int, v: int, hop: int) {
    && Edge(perms, u, hop) && 0 <= hop < n
    && exists d: nat :: Distance(perms, n, u, v, d + 1) && Distance(perms, n, hop, v, d)
  }

  /** What one worker's routing table promises. */
  ghost predicate RoutingTable(perms: seq<seq<int>>, n: nat, rank: int, table: seq<int>) {
    && 0 <= rank < n == |table| && table[rank] == rank
    && forall v :: 0 <= v < n && v != rank ==> FirstHop(perms, n, rank, v, table[v])
  }

  lemma {:induction false} HopIsFirst(perms: seq<seq<int>>, n: nat, u: int, v: int, d: nat, hop: int)
    requires Graph(perms, n) && Distance(perms, n, u, v, d + 1) && Witness(perms, n, u, v, d + 1, hop)
    ensures FirstHop(perms, n, u, v, hop)
  {
    var p :| Path(perms, n, u, v, p) && |p| == d + 2 && (|p| > 1 ==> p[1] == hop);
    PathTail(perms, n, u, v, p);
    forall q | Path(perms, n, hop, v, q) ensures |q| >= d + 1 {
      PrependPath(perms, n, hop, v, q, u);
      assert |[u] + q| >= d + 2;
    }
    assert Path(perms, n, hop, v, p[1..]) && |p[1..]| == d + 1;
    assert Distance(perms, n, hop, v, d);
  }

  // ----- the search ------------------------------------------------------------------

  /** Before a worker is taken from the unvisited ones. */
  ghost predicate Searching(perms: seq<seq<int>>, n: nat, rank: int, distance: seq<int>, best: seq<int>,
      unvisited: set<int>)
    requires Graph(perms, n)
  {
    && Sound(perms, n, rank, distance, best, n - |unvisited|)
    && Settled(perms, n, distance, unvisited)
  }

  /** While the edges of `c`, the front of the unvisited workers, are followed. */
  ghost predicate Following(perms: seq<seq<int>>, n: nat, rank: int, distance: seq<int>, best: seq<int>,
      unvisited: set<int>, c: int, i: int)
    requires Graph(perms, n) && 0 <= i <= |perms|
  {
    && Sound(perms, n, rank, distance, best, n - |unvisited| + 1)
    && Settled(perms, n, distance, unvisited)
    && c in unvisited && distance[c] <= n - |unvisited|
    && (forall y :: y in unvisited ==> distance[c] <= distance[y])
    && Relaxed(perms, n, distance, c, i)
  }

  lemma {:induction false} BeginFollowing(perms: seq<seq<int>>, n: nat, rank: int, distance: seq<int>,
      best: seq<int>, unvisited: set<int>, c: int, hash: int -> int)
    requires Graph(perms, n) && n + 1 < INT32_MAX && Searching(perms, n, rank, distance, best, unvisited)
    requires ReachesAll(perms, n, rank) && First(distance, hash, rank, unvisited, c)
    ensures Following(perms, n, rank, distance, best, unvisited, c, 0)
  {
    hide Witness, ReachesAll, Relaxed;
    assert forall y :: y in unvisited ==> distance[c] <= distance[y] by {
      forall y | y in unvisited ensures distance[c] <= distance[y] { assert !Before(distance, hash, rank, y, c); }
    }
    FrontIsFinite(perms, n, rank, distance, best, n - |unvisited|, unvisited, c);
    NothingRelaxed(perms, n, distance, c);
  }

  lemma {:induction false} NothingRelaxed(perms: seq<seq<int>>, n: nat, distance: seq<int>, c: int)
    requires Graph(perms, n) && |distance| == n && 0 <= c < n
    ensures Relaxed(perms, n, distance, c, 0)
  {
  }

  /** An edge to a visited worker, or one that does not shorten its distance, changes nothing. */
  lemma {:induction false} SkipEdge(perms: seq<seq<int>>, n: nat, rank: int, distance: seq<int>, best: seq<int>,
      unvisited: set<int>, c: int, i: int)
    requires Graph(perms, n) && 0 <= i < |perms| && Following(perms, n, rank, distance, best, unvisited, c, i)
    requires var succ := perms[i][c]; succ !in unvisited || distance[succ] <= distance[c] + 1
    ensures Following(perms, n, rank, distance, best, unvisited, c, i + 1)
  {
    hide Witness;
    assert distance[perms[i][c]] <= distance[c] + 1;
  }

  /** The hop recorded for the start worker itself is free. */
  lemma {:induction false} StartHopIsFree(perms: seq<seq<int>>, n: nat, rank: int, distance: seq<int>,
      best: seq<int>, unvisited: set<int>, i: int, hop: int)
    requires Graph(perms, n) && 0 <= i <= |perms| && Following(perms, n, rank, distance, best, unvisited, rank, i)
    ensures Following(perms, n, rank, distance, best[rank := hop], unvisited, rank, i)
  {
    hide Relaxed;
    var b := best[rank := hop];
    forall x | 0 <= x < n && distance[x] != INT32_MAX
      ensures Witness(perms, n, rank, x, distance[x], b[x])
    {
      assert Witness(perms, n, rank, x, distance[x], best[x]);
      if x == rank {
        assert Path(perms, n, rank, rank, [rank]);
      }
    }
  }

  /** A longer path: one more edge, same first hop. */
  lemma {:induction false} ExtendWitness(perms: seq<seq<int>>, n: nat, rank: int, c: int, d: int, hop: int, succ: int)
    requires Graph(perms, n) && Witness(perms, n, rank, c, d, hop) && Edge(perms, c, succ) && 0 <= succ < n
    requires c == rank && d == 0 ==> hop == succ
    requires c != rank ==> d > 0
    ensures Witness(perms, n, rank, succ, d + 1, hop)
  {
    var p :| Path(perms, n, rank, c, p) && |p| == d + 1 && (|p| > 1 ==> p[1] == hop);
    ExtendPath(perms, n, rank, c, p, succ);
    assert Path(perms, n, rank, succ, p + [succ]) && |p + [succ]| == d + 2;
  }

  /** An edge that shortens the distance of an unvisited worker. */
  lemma {:induction false} ShortenEdge(perms: seq<seq<int>>, n: nat, rank: int, distance: seq<int>, best: seq<int>,
      unvisited: set<int>, c: int, i: int)
    requires Graph(perms, n) && n + 1 < INT32_MAX && 0 <= i < |perms|
    requires Following(perms, n, rank, distance, best, unvisited, c, i)
    requires var succ := perms[i][c]; succ in unvisited && distance[c] + 1 < distance[succ]
    requires c == rank ==> best[c] == perms[i][c]
    ensures var succ := perms[i][c];
            Following(perms, n, rank, distance[succ := distance[c] + 1], best[succ := best[c]], unvisited, c, i + 1)
  {
    hide Witness, Edge, Relaxed;
    assert |distance| == |best| == n && 0 <= c < n;
    var succ := perms[i][c];
    hide Sound, Settled;
    SoundAfterShorten(perms, n, rank, distance, best, n - |unvisited| + 1, c, i);
    SettledAfterShorten(perms, n, distance, unvisited, c, succ);
    RelaxedAfterShorten(perms, n, distance, c, i);
  }

  lemma {:induction false} RelaxedAfterShorten(perms: seq<seq<int>>, n: nat, distance: seq<int>, c: int, i: int)
    requires Graph(perms, n) && |distance| == n && 0 <= c < n && 0 <= i < |perms| && Relaxed(perms, n, distance, c, i)
    requires distance[c] + 1 < distance[perms[i][c]]
    ensures Relaxed(perms, n, distance[perms[i][c] := distance[c] + 1], c, i + 1)
  {
    var d := distance[perms[i][c] := distance[c] + 1];
    forall k | 0 <= k < i + 1 ensures d[perms[k][c]] <= d[c] + 1 {
      if k < i { assert distance[perms[k][c]] <= distance[c] + 1; }
    }
  }

  lemma {:induction false} SoundAfterShorten(perms: seq<seq<int>>, n: nat, rank: int, distance: seq<int>,
      best: seq<int>, bound: int, c: int, i: int)
    requires Graph(perms, n) && 0 <= i < |perms| && 0 <= c < n
    requires Sound(perms, n, rank, distance, best, bound) && distance[c] < bound < INT32_MAX
    requires distance[c] + 1 < distance[perms[i][c]]
    requires c == rank ==> best[c] == perms[i][c]
    ensures var succ := perms[i][c];
            Sound(perms, n, rank, distance[succ := distance[c] + 1], best[succ := best[c]], bound)
  {
    var succ := perms[i][c];
    assert Edge(perms, c, succ);
    assert Witness(perms, n, rank, c, distance[c], best[c]);
    ExtendWitness(perms, n, rank, c, distance[c], best[c], succ);
    hide Witness, Edge;
    var d, b := distance[succ := distance[c] + 1], best[succ := best[c]];
    assert succ != rank;
    assert Witness(perms, n, rank, succ, d[succ], b[succ]);
  }

  lemma {:induction false} SettledAfterShorten(perms: seq<seq<int>>, n: nat, distance: seq<int>,
      unvisited: set<int>, c: int, succ: int)
    requires Graph(perms, n) && |distance| == n && Settled(perms, n, distance, unvisited)
    requires c in unvisited && succ in unvisited && distance[c] + 1 < distance[succ]
    ensures Settled(perms, n, distance[succ := distance[c] + 1], unvisited)
  {
    var d := distance[succ := distance[c] + 1];
    forall u | 0 <= u < n && u !in unvisited ensures Relaxed(perms, n, d, u, |perms|) {
      assert Relaxed(perms, n, distance, u, |perms|);
      forall k | 0 <= k < |perms| ensures d[perms[k][u]] <= d[u] + 1 {
        assert distance[perms[k][u]] <= distance[u] + 1;
      }
    }
    hide Relaxed;
    forall u, v | 0 <= u < n && u !in unvisited && v in unvisited ensures d[u] <= d[v] {
      assert distance[u] <= distance[c] && distance[u] <= distance[v];
    }
  }

  /** With all edges followed, the front is visited. */
  lemma {:induction false} EndFollowing(perms: seq<seq<int>>, n: nat, rank: int, distance: seq<int>, best: seq<int>,
      unvisited: set<int>, c: int)
    requires Graph(perms, n) && n + 1 < INT32_MAX
    requires Following(perms, n, rank, distance, best, unvisited, c, |perms|)
    ensures Searching(perms, n, rank, distance, best, unvisited - {c})
  {
    hide Witness, Relaxed;
    assert |unvisited - {c}| == |unvisited| - 1;
  }

  lemma {:induction false} SearchDone(perms: seq<seq<int>>, n: nat, rank: int, distance: seq<int>, best: seq<int>)
    requires Graph(perms, n) && Searching(perms, n, rank, distance, best, {})
    ensures RoutingTable(perms, n, rank, best[rank := rank])
  {
    hide Relaxed;
    forall v | 0 <= v < n && v != rank ensures FirstHop(perms, n, rank, v, best[v]) {
      assert distance[v] < INT32_MAX;
      assert Witness(perms, n, rank, v, distance[v], best[v]);
      ExactDistance(perms, n, rank, distance, best, v);
      HopIsFirst(perms, n, rank, v, distance[v] - 1, best[v]);
    }
  }

  lemma {:induction false} ExactDistance(perms: seq<seq<int>>, n: nat, rank: int, distance: seq<int>,
      best: seq<int>, v: int)
    requires Graph(perms, n) && |distance| == n && Settled(perms, n, distance, {})
    requires 0 <= rank < n && distance[rank] == 0 && 0 <= v < n && distance[v] >= 0 && 0 <= v < |best|
    requires Witness(perms, n, rank, v, distance[v], best[v])
    ensures Distance(perms, n, rank, v, distance[v])
  {
    hide Relaxed, Settled;
    forall p | Path(perms, n, rank, v, p) ensures |p| >= distance[v] + 1 {
      NoShorterPath(perms, n, distance, rank, v, p);
    }
  }

  lemma {:induction false} InUnvisited(distance: seq<int>, hash: int -> int, rank: int, unvisited: set<int>)
    requires unvisited != {} && forall y :: y in unvisited ==> 0 <= y < |distance|
    ensures exists x :: x in unvisited && First(distance, hash, rank, unvisited, x)
  {
    FirstExists(distance, hash, rank, unvisited);
    var x :| First(distance, hash, rank, unvisited, x);
    assert x in unvisited;
  }

  lemma {:induction false} SearchStart(perms: seq<seq<int>>, n: nat, rank: nat, distance: seq<int>, best: seq<int>)
    requires Graph(perms, n) && rank < n == |distance| == |best|
    requires forall x :: 0 <= x < n ==> distance[x] == if x == rank then 0 else INT32_MAX
    ensures Searching(perms, n, rank, distance, best, Range(n))
  {
    RangeSize(n);
    assert Path(perms, n, rank, rank, [rank]);
    assert Witness(perms, n, rank, rank, 0, best[rank]);
    hide Witness, Relaxed;
  }

  /** The loop over the successors of the front. */
  method FollowEdges(perms: seq<seq<int>>, n: nat, rank: int, distance0: seq<int>, best0: seq<int>,
      unvisited: set<int>, c: int, ghost hash: int -> int) returns (distance: seq<int>, best: seq<int>)
    requires Graph(perms, n) && n + 1 < INT32_MAX && ReachesAll(perms, n, rank)
    requires Searching(perms, n, rank, distance0, best0, unvisited)
    requires (forall y :: y in unvisited ==> 0 <= y < |distance0|) && First(distance0, hash, rank, unvisited, c)
    ensures |distance| == |best| == n
    ensures Searching(perms, n, rank, distance, best, unvisited - {c})
  {
    distance, best := distance0, best0;
    BeginFollowing(perms, n, rank, distance, best, unvisited, c, hash);
    hide Sound, Settled, Relaxed, First, ReachesAll, Searching;
    FollowingFacts(perms, n, rank, distance, best, unvisited, c, 0);
    for i := 0 to |perms|
      invariant Following(perms, n, rank, distance, best, unvisited, c, i)
      invariant |distance| == |best| == n && 0 <= c < n
    {
      var succ := perms[i][c];
      FollowingFacts(perms, n, rank, distance, best, unvisited, c, i);
      if succ !in unvisited {
        SkipEdge(perms, n, rank, distance, best, unvisited, c, i);
      } else {
        if c == rank {
          StartHopIsFree(perms, n, rank, distance, best, unvisited, i, succ);
          best := best[c := succ];
        }
        assert best[c] >= 0;
        var newDistance := distance[c] + 1;
        if newDistance < distance[succ] {
          ShortenEdge(perms, n, rank, distance, best, unvisited, c, i);
          distance := distance[succ := newDistance];
          best := best[succ := best[c]];
        } else {
          SkipEdge(perms, n, rank, distance, best, unvisited, c, i);
        }
      }
    }
    EndFollowing(perms, n, rank, distance, best, unvisited, c);
  }

  /** The front always has a recorded hop by the time its edges are used. */
  lemma {:induction false} FollowingFacts(perms: seq<seq<int>>, n: nat, rank: int, distance: seq<int>,
      best: seq<int>, unvisited: set<int>, c: int, i: int)
    requires Graph(perms, n) && 0 <= i <= |perms| && Following(perms, n, rank, distance, best, unvisited, c, i)
    ensures |distance| == |best| == n && 0 <= c < n
    ensures i < |perms| ==> 0 <= perms[i][c] < n
    ensures forall y :: y in unvisited ==> 0 <= y < n
    ensures c != rank && n < INT32_MAX ==> best[c] >= 0
  {
    hide Relaxed;
    if c != rank && n < INT32_MAX {
      assert Witness(perms, n, rank, c, distance[c], best[c]);
    }
    hide Witness;
  }

  /** First hops from one worker towards all others. */
  method GetBestOutgoingEdgeForEachNode(perms: seq<seq<int>>, rank: nat, hash: int -> int) returns (best: seq<int>)
    requires |perms| > 0 && Graph(perms, |perms[0]|) && rank < |perms[0]| && |perms[0]| + 1 < INT32_MAX
    requires ReachesAll(perms, |perms[0]|, rank)
    ensures RoutingTable(perms, |perms[0]|, rank, best)
  {
    var n := |perms[0]|;
    var distance := seq(n, _ => INT32_MAX)[rank := 0];
    var unvisited := Range(n);
    best := seq(n, _ => -1);
    SearchStart(perms, n, rank, distance, best);
    hide *;
    while unvisited != {}
      invariant Searching(perms, n, rank, distance, best, unvisited)
      invariant forall y :: y in unvisited ==> 0 <= y < |distance|
      invariant |distance| == |best| == n
      decreases |unvisited|
    {
      FirstExists(distance, hash, rank, unvisited);
      InUnvisited(distance, hash, rank, unvisited);
      var c :| c in unvisited && First(distance, hash, rank, unvisited, c);
      distance, best := FollowEdges(perms, n, rank, distance, best, unvisited, c, hash);
      unvisited := unvisited - {c};
    }
    assert unvisited == {};
    SearchDone(perms, n, rank, distance, best);
    best := best[rank := rank];
  }
}
