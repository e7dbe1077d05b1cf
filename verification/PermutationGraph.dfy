/**
 The hop graph of the workers: the successors of a worker are its values under several permutations.
 The first permutation is one cycle through all workers; later ones are adjusted by swaps until no two
 permutations agree anywhere and none has a fixed point.
 */
module PermutationGraph {
  import opened Basics
  import opened Permutations
  import opened AdjustablePermutations

  function Next(i: nat, n: nat): nat { if i + 1 >= n then 0 else i + 1 }

  ghost predicate NoFixedPoint(p: seq<int>) {
    forall i :: 0 <= i < |p| ==> p[i] != i
  }

  /** The two disagree at every position. */
  ghost predicate Disjoint(p: seq<int>, q: seq<int>) {
    |p| == |q| && forall i :: 0 <= i < |p| ==> p[i] != q[i]
  }

  /** Following `p` visits all values in the given order and starts over. */
  ghost predicate CycleThrough(p: seq<int>, order: seq<int>, n: nat) {
    && IsPermutation(order, n) && IsPermutation(p, n)
    && forall i :: 0 <= i < n ==> p[order[i]] == order[Next(i, n)]
  }

  ghost predicate SingleCycle(p: seq<int>, n: nat) {
    exists order :: CycleThrough(p, order, n)
  }

  ghost predicate AllPermutations(perms: seq<seq<int>>, n: nat) {
    forall k :: 0 <= k < |perms| ==> IsPermutation(perms[k], n)
  }

  /** A graph whose edges out of a node are its values under each permutation. */
  ghost predicate HopGraph(perms: seq<seq<int>>, n: nat) {
    && |perms| > 0 && AllPermutations(perms, n) && SingleCycle(perms[0], n)
    && (n >= 2 ==> forall k :: 0 <= k < |perms| ==> NoFixedPoint(perms[k]))
    && (forall k, l :: 0 <= k < l < |perms| ==> Disjoint(perms[k], perms[l]))
  }

  // ----- the cycle -------------------------------------------------------------

  /** Each value's partner is the value at the next position of some permutation. */
  method IntrinsicPartners(n: nat, net: Network) returns (partners: seq<int>)
    requires n > 0 && net.Valid() && n <= Domain(net)
    ensures IsPermutation(partners, n) && SingleCycle(partners, n)
    ensures n >= 2 ==> NoFixedPoint(partners)
  {
    var init := new AdjustablePermutation(n, net);
    hide Domain, Overridden, Position, AdjustablePermutation.Values;
    ghost var order := init.Values();
    partners := seq(n, _ => 0);
    for pos := 0 to n
      invariant |partners| == n && init.Valid() && init.Values() == order
      invariant forall j :: 0 <= j < pos ==> partners[order[j]] == order[Next(j, n)]
    {
      var val := init.Get(pos);
      NextPosition(pos, n);
      var nextVal := init.Get((pos + 1) % n);
      partners := partners[val := nextVal];
    }
    PartnersFormCycle(partners, order, n);
  }

  lemma {:induction false} NextPosition(pos: nat, n: nat)
    requires pos < n
    ensures 0 <= (pos + 1) % n < n && (pos + 1) % n == Next(pos, n)
  {
    if pos + 1 == n {
      assert n % n == 0;
    }
  }

  lemma {:induction false} PartnersFormCycle(p: seq<int>, order: seq<int>, n: nat)
    requires |p| == n && IsPermutation(order, n)
    requires forall i :: 0 <= i < n ==> p[order[i]] == order[Next(i, n)]
    ensures IsPermutation(p, n) && SingleCycle(p, n)
    ensures n >= 2 ==> NoFixedPoint(p)
  {
    forall x | 0 <= x < n ensures 0 <= p[x] < n && (n >= 2 ==> p[x] != x) {
      var i := Onto(order, n, x);
      assert order[Next(i, n)] == p[x];
    }
    forall x, y | 0 <= x < y < n ensures p[x] != p[y] {
      var i := Onto(order, n, x);
      var j := Onto(order, n, y);
      assert Next(i, n) != Next(j, n);
      assert order[Next(i, n)] == p[x] && order[Next(j, n)] == p[y];
    }
    assert CycleThrough(p, order, n);
  }

  // ----- disjoint permutations -------------------------------------------------

  /** A value is allowed at a position if it is no fixed point and no earlier permutation has it there. */
  predicate Allowed(prior: seq<seq<int>>, pos: int, val: int)
    requires 0 <= pos && forall k :: 0 <= k < |prior| ==> pos < |prior[k]|
  {
    pos != val && forall k :: 0 <= k < |prior| ==> prior[k][pos] != val
  }

  ghost predicate AllowedBelow(prior: seq<seq<int>>, n: nat, p: seq<int>, pos: nat)
    requires AllPermutations(prior, n) && pos <= n == |p|
  {
    forall q :: 0 <= q < pos ==> Allowed(prior, q, p[q])
  }

  /** Draws swap positions until the values of both positions may be exchanged; fails when the draws
      run out. */
  method FindSwap(p: AdjustablePermutation, prior: seq<seq<int>>, n: nat, pos: nat, val: int, draws: seq<nat>)
    returns (swapPos: nat, swapVal: int, found: bool, rest: seq<nat>)
    requires p.Valid() && p.n == n >= 2 && AllPermutations(prior, n) && pos < n
    requires forall i :: 0 <= i < |draws| ==> draws[i] < n - 1
    ensures forall i :: 0 <= i < |rest| ==> rest[i] < n - 1
    ensures found ==> swapPos < n && swapPos != pos && swapVal == p.Values()[swapPos]
    ensures found ==> Allowed(prior, pos, swapVal) && Allowed(prior, swapPos, val)
  {
    hide AdjustablePermutation.Values, Position, IsPermutation;
    assert forall k :: 0 <= k < |prior| ==> |prior[k]| == n by { PriorLengths(prior, n); }
    rest, swapPos, swapVal, found := draws, 0, 0, false;
    while !found && |rest| > 0
      invariant forall i :: 0 <= i < |rest| ==> rest[i] < n - 1
      invariant found ==> swapPos < n && swapPos != pos && swapVal == p.Values()[swapPos]
      invariant found ==> Allowed(prior, pos, swapVal) && Allowed(prior, swapPos, val)
      decreases |rest|
    {
      swapPos := rest[0];
      rest := rest[1..];
      if swapPos >= pos { swapPos := swapPos + 1; }
      swapVal := p.Get(swapPos);
      if Allowed(prior, pos, swapVal) && Allowed(prior, swapPos, val) { found := true; }
    }
  }

  lemma {:induction false} PriorLengths(prior: seq<seq<int>>, n: nat)
    requires AllPermutations(prior, n)
    ensures forall k :: 0 <= k < |prior| ==> |prior[k]| == n
  {
  }

  /** Left to right, every value that is not allowed is swapped for one that is. */
  method MakeDisjoint(p: AdjustablePermutation, prior: seq<seq<int>>, n: nat, draws: seq<nat>)
    returns (done: bool, rest: seq<nat>)
    requires p.Valid() && p.n == n >= 2 && AllPermutations(prior, n) && IsPermutation(p.Values(), n)
    requires forall i :: 0 <= i < |draws| ==> draws[i] < n - 1
    modifies p
    ensures forall i :: 0 <= i < |rest| ==> rest[i] < n - 1
    ensures IsPermutation(p.Values(), n)
    ensures done ==> AllowedBelow(prior, n, p.Values(), n)
  {
    hide AdjustablePermutation.Values, Position, IsPermutation, AllPermutations, Allowed, AdjustablePermutation.Valid;
    rest := draws;
    for pos := 0 to n
      invariant IsPermutation(p.Values(), n) && AllowedBelow(prior, n, p.Values(), pos)
      invariant forall i :: 0 <= i < |rest| ==> rest[i] < n - 1
    {
      PriorLengths(prior, n);
      var val := p.Get(pos);
      if !Allowed(prior, pos, val) {
        var swapPos, swapVal, found;
        swapPos, swapVal, found, rest := FindSwap(p, prior, n, pos, val, rest);
        if !found { return false, rest; }
        ghost var before := p.Values();
        p.Adjust(pos, swapVal);
        p.Adjust(swapPos, val);
        assert p.Values() == before[pos := before[swapPos]][swapPos := before[pos]];
        SwapKeepsPermutation(before, n, pos, swapPos);
      }
    }
    done := true;
  }

  /** Lists the values of a permutation. */
  method Tabulate(p: AdjustablePermutation, n: nat) returns (values: seq<int>)
    requires p.Valid() && p.n == n
    ensures values == p.Values()
  {
    hide AdjustablePermutation.Values, Position;
    values := [];
    for j := 0 to n
      invariant values == p.Values()[..j]
    {
      var v := p.Get(j);
      values := values + [v];
    }
  }

  /** The permutations of the hop graph. The draws stand for random numbers: `None` means that the swap
      search of some permutation needs more of them. */
  method GetPermutations(n: nat, degree: nat, nets: seq<Network>, draws: seq<nat>) returns (out: Option<seq<seq<int>>>)
    requires n > 0 && |nets| >= degree && |nets| >= 1
    requires forall i :: 0 <= i < |nets| ==> nets[i].Valid() && n <= Domain(nets[i])
    requires forall i :: 0 <= i < |draws| ==> draws[i] < n - 1
    ensures out.Some? ==> HopGraph(out.value, n) && |out.value| == if degree == 0 then 1 else degree
  {
    hide Domain, AdjustablePermutation.Values, IsPermutation, SingleCycle, Disjoint, AdjustablePermutation.Valid;
    var partners := IntrinsicPartners(n, nets[0]);
    var perms, rest: seq<nat> := [partners], draws;
    if degree <= 1 { return Some(perms); }
    if n == 1 { return None; } // a single node has no value other than its fixed point
    for r := 1 to degree
      invariant |perms| == r && HopGraph(perms, n)
      invariant forall i :: 0 <= i < |rest| ==> rest[i] < n - 1
    {
      var p := new AdjustablePermutation(n, nets[r]);
      var done;
      done, rest := MakeDisjoint(p, perms, n, rest);
      if !done { return None; }
      var values := Tabulate(p, n);
      ExtendGraph(perms, n, values);
      perms := perms + [values];
    }
    return Some(perms);
  }

  lemma {:induction false} ExtendGraph(perms: seq<seq<int>>, n: nat, p: seq<int>)
    requires HopGraph(perms, n) && IsPermutation(p, n) && AllowedBelow(perms, n, p, n) && n >= 2
    ensures HopGraph(perms + [p], n)
  {
    hide IsPermutation, SingleCycle;
    var r := perms + [p];
    PriorLengths(perms, n);
    LengthOf(p, n);
    forall k | 0 <= k < |r| ensures IsPermutation(r[k], n) && NoFixedPoint(r[k]) {
      if k < |perms| { assert r[k] == perms[k]; }
      else {
        forall i | 0 <= i < |p| ensures p[i] != i { assert Allowed(perms, i, p[i]); }
      }
    }
    forall k, l | 0 <= k < l < |r| ensures Disjoint(r[k], r[l]) {
      assert r[k] == perms[k];
      if l < |perms| {
        assert Disjoint(perms[k], perms[l]);
      } else {
        forall i | 0 <= i < |p| ensures perms[k][i] != p[i] { assert Allowed(perms, i, p[i]); }
      }
    }
  }

  lemma {:induction false} LengthOf(p: seq<int>, n: nat)
    requires IsPermutation(p, n)
    ensures |p| == n
  {
  }

  // ----- degrees ---------------------------------------------------------------

  function Successors(perms: seq<seq<int>>, u: nat): set<int>
    requires forall k :: 0 <= k < |perms| ==> u < |perms[k]|
  {
    set k | 0 <= k < |perms| :: perms[k][u]
  }

  ghost function Predecessors(perms: seq<seq<int>>, n: nat, v: int): set<int>
    requires AllPermutations(perms, n)
  {
    set u, k | 0 <= k < |perms| && 0 <= u < n && perms[k][u] == v :: u
  }

  /** The outgoing edges of one worker, as listed for it. */
  method CreateExpanderGraph(perms: seq<seq<int>>, n: nat, rank: nat) returns (edges: seq<int>)
    requires HopGraph(perms, n) && rank < n
    ensures |edges| == |perms| && Injective(edges)
    ensures Image(edges) == Successors(perms, rank)
    ensures n >= 2 ==> rank !in edges
  {
    edges := [];
    for i := 0 to |perms|
      invariant |edges| == i && forall k :: 0 <= k < i ==> edges[k] == perms[k][rank]
    {
      edges := edges + [perms[i][rank]];
    }
    EdgesDistinct(perms, n, rank, edges);
  }

  lemma {:induction false} EdgesDistinct(perms: seq<seq<int>>, n: nat, u: nat, edges: seq<int>)
    requires HopGraph(perms, n) && u < n && |edges| == |perms|
    requires forall k :: 0 <= k < |perms| ==> edges[k] == perms[k][u]
    ensures Injective(edges) && Image(edges) == Successors(perms, u)
    ensures n >= 2 ==> u !in edges
  {
    forall k, l | 0 <= k < l < |edges| ensures edges[k] != edges[l] {
      assert Disjoint(perms[k], perms[l]);
    }
    forall k | 0 <= k < |edges| && n >= 2 ensures edges[k] != u {
      assert NoFixedPoint(perms[k]);
    }
  }

  /** Every node has as many distinct successors as there are permutations. */
  lemma {:induction false} OutDegree(perms: seq<seq<int>>, n: nat, u: nat)
    requires HopGraph(perms, n) && u < n
    ensures |Successors(perms, u)| == |perms|
  {
    var edges := seq(|perms|, k requires 0 <= k < |perms| => perms[k][u]);
    EdgesDistinct(perms, n, u, edges);
    ImageSize(edges);
  }

  /** Every node has as many distinct predecessors as there are permutations. */
  lemma {:induction false} InDegree(perms: seq<seq<int>>, n: nat, v: nat)
    requires HopGraph(perms, n) && v < n
    ensures |Predecessors(perms, n, v)| == |perms|
  {
    var sources := Sources(perms, n, v, |perms|);
    ImageSize(sources);
    forall u ensures u in Image(sources) <==> u in Predecessors(perms, n, v) {
      if u in Predecessors(perms, n, v) {
        var k :| 0 <= k < |perms| && 0 <= u < n && perms[k][u] == v;
        assert IsPermutation(perms[k], n);
        assert sources[k] == u;
      }
    }
    assert Image(sources) == Predecessors(perms, n, v);
  }

  /** The preimages of a node under the first permutations. */
  lemma {:induction false} Sources(perms: seq<seq<int>>, n: nat, v: nat, m: nat) returns (sources: seq<int>)
    requires HopGraph(perms, n) && v < n && m <= |perms|
    ensures |sources| == m && Injective(sources)
    ensures forall k :: 0 <= k < m ==> 0 <= sources[k] < n && perms[k][sources[k]] == v
  {
    sources := [];
    if m > 0 {
      sources := Sources(perms, n, v, m - 1);
      assert IsPermutation(perms[m - 1], n);
      var u := Onto(perms[m - 1], n, v);
      forall k | 0 <= k < m - 1 ensures sources[k] != u {
        assert Disjoint(perms[k], perms[m - 1]);
      }
      sources := sources + [u];
    }
  }
}
