/** Splitting of cubes and flushing of refuted ones, on zero-terminated arrays and a vector of nodes. */
module Treengeling {
  import opened Basics
  import opened Clauses
  import opened Cubes

  // ----- zero-terminated arrays ------------------------------------------------------------------

  /** The array holds literals followed by a single zero. */
  ghost predicate Terminated(ints: array<int>)
    reads ints
  {
    ints.Length >= 1 && ints[ints.Length - 1] == 0 && forall i :: 0 <= i < ints.Length - 1 ==> ints[i] != 0
  }

  ghost function Lits(ints: array<int>): seq<int>
    requires ints.Length >= 1
    reads ints
  {
    ints[..ints.Length - 1]
  }

  method IntsLen(ints: array<int>) returns (len: nat)
    requires Terminated(ints)
    ensures len == |Lits(ints)| == ints.Length - 1
  {
    len := 0;
    while ints[len] != 0
      invariant 0 <= len < ints.Length
      invariant forall i :: 0 <= i < len ==> ints[i] != 0
      decreases ints.Length - len
    {
      len := len + 1;
    }
  }

  /** A copy with one more literal; the new memory is zeroed. */
  method AppendInt(ints: array<int>, lit: int) returns (res: array<int>)
    requires Terminated(ints) && lit != 0
    ensures fresh(res) && Terminated(res) && Lits(res) == Lits(ints) + [lit]
  {
    var len := IntsLen(ints);
    len := len + 1;
    res := new int[len + 1](_ => 0);
    var p := 0;
    while ints[p] != 0
      invariant 0 <= p < ints.Length && len == ints.Length && res.Length == len + 1
      invariant res[..p] == ints[..p] && forall i :: p <= i < res.Length ==> res[i] == 0
      invariant forall i :: 0 <= i < p ==> ints[i] != 0
      decreases ints.Length - p
    {
      res[p] := ints[p];
      p := p + 1;
    }
    res[p] := lit;
    assert Lits(res) == Lits(ints) + [lit];
  }

  /** Negates all literals in place. */
  method NegateInPlace(ints: array<int>)
    requires Terminated(ints)
    modifies ints
    ensures Terminated(ints) && Lits(ints) == Negated(old(Lits(ints)))
  {
    var p := 0;
    ghost var n := ints.Length - 1;
    ghost var before := Lits(ints);
    while ints[p] != 0
      invariant 0 <= p <= n && ints[n] == 0 && NonZero(before)
      invariant forall i :: 0 <= i < n ==> ints[i] == if i < p then -before[i] else before[i]
      decreases n - p
    {
      ints[p] := -ints[p];
      p := p + 1;
    }
    assert Lits(ints) == Negated(before);
  }

  // ----- nodes and leaves ------------------------------------------------------------------------

  /** An open node. The solver of the node sets the lookahead literal, its result and whether it is inconsistent. */
  class Node {
    var cube: array<int>
    var lookahead: int
    var res: int
    var inconsistent: bool
    var pos: int

    constructor (cube: array<int>, pos: int)
      ensures this.cube == cube && this.pos == pos && lookahead == 0 && res == 0 && !inconsistent
    {
      this.cube, this.pos := cube, pos;
      lookahead, res, inconsistent := 0, 0, false;
    }

    /** The node's solver has found that the formula and the cube have no model. */
    predicate IsRefuted()
      reads this
    {
      res == 20 || inconsistent
    }
  }

  class Leaf {
    const lits: array<int>

    constructor (lits: array<int>)
      ensures this.lits == lits
    {
      this.lits := lits;
    }
  }

  ghost predicate Stores(ints: array<int>, lits: seq<int>)
    reads ints
  {
    Terminated(ints) && Lits(ints) == lits
  }

  /**
   The solver's tree. Beside the nodes and the queue of leaves, `open` is the sequence of the nodes' cubes,
   `closed` the sequence of all clauses that ever became leaves, `owner` the node to which an
   array belongs, and `repr` holds all nodes and arrays.
   */
  class Tree {
    ghost const formula: set<Clause>
    var nodes: seq<Node>
    var leafs: seq<Leaf>
    ghost var repr: set<object>
    ghost var owner: map<array<int>, Node>
    ghost var open: seq<seq<int>>
    ghost var closed: seq<seq<int>>

    /** The node at this position has its own array, which holds its cube. */
    ghost predicate NodeOk(i: nat)
      requires i < |nodes| == |open|
      reads this, repr
    {
      var node := nodes[i];
      && node in repr && node.cube in repr && node.cube in owner && owner[node.cube] == node
      && Stores(node.cube, open[i])
    }

    /** The leaf at this position of the queue holds its clause; its array belongs to no node. */
    ghost predicate LeafOk(i: nat)
      requires i < |leafs| <= |closed|
      reads this, repr
    {
      leafs[i].lits in repr && leafs[i].lits !in owner && Stores(leafs[i].lits, closed[|closed| - |leafs| + i])
    }

    /** All is well, except perhaps for the array of one node; the leaves in the queue are the last closed clauses. */
    ghost predicate WellFormedBut(x: int)
      reads this, repr
    {
      && |open| == |nodes| && |leafs| <= |closed|
      && (forall i :: 0 <= i < |nodes| ==> nodes[i] in repr && nodes[i].pos == i)
      && (forall i :: 0 <= i < |nodes| && i != x ==> NodeOk(i))
      && (forall i :: 0 <= i < |leafs| ==> LeafOk(i))
    }

    ghost predicate WellFormed()
      reads this, repr
    {
      WellFormedBut(-1)
    }

    /** Open cubes and closed clauses divide up all assignments, and the formula implies every closed clause. */
    ghost predicate Sound()
      reads this
    {
      && Partition(open, closed) && (forall i :: 0 <= i < |open| ==> NonZero(open[i]))
      && forall i :: 0 <= i < |closed| ==> Implied(formula, closed[i])
    }

    ghost predicate Valid()
      reads this, repr
    {
      WellFormed() && Sound()
    }

    /** One node with the empty cube. */
    constructor (formula: set<Clause>)
      ensures Valid() && open == [[]] && closed == [] && leafs == [] && this.formula == formula
      ensures fresh(repr)
    {
      var empty := new int[1](_ => 0);
      var root := new Node(empty, 0);
      nodes, leafs, open, closed, this.formula := [root], [], [[]], [], formula;
      owner, repr := map[empty := root], {root, empty};
      new;
      OneCubeIsAll();
    }

    /** Opens a node whose cube extends that of its parent. */
    method NewNode(parent: nat, decision: int)
      requires WellFormed() && parent < |nodes| && decision != 0
      modifies this
      ensures WellFormed() && open == old(open) + [old(open)[parent] + [decision]]
      ensures |nodes| == |old(nodes)| + 1 && nodes[..|old(nodes)|] == old(nodes) && fresh(nodes[|old(nodes)|])
      ensures leafs == old(leafs) && closed == old(closed) && fresh(repr - old(repr))
    {
      hide Stores;
      var node := nodes[parent];
      assert NodeOk(parent);
      var cube := AppendStored(node.cube, decision, open[parent]);
      var child := new Node(cube, |nodes|);
      nodes, open := nodes + [child], open + [open[parent] + [decision]];
      owner, repr := owner[cube := child], repr + {child, cube};
      forall k | 0 <= k < |old(nodes)| ensures NodeOk(k) { assert old(NodeOk(k)); }
      forall k | 0 <= k < |leafs| ensures LeafOk(k) { assert old(LeafOk(k)); }
    }

    /** Extends the cube of a node; its old array is freed. */
    method AddInt(i: nat, lit: int)
      requires WellFormed() && i < |nodes| && lit != 0
      modifies this, nodes[i]
      ensures WellFormed() && open == old(open)[i := old(open)[i] + [lit]]
      ensures nodes == old(nodes) && leafs == old(leafs) && closed == old(closed) && fresh(repr - old(repr))
      ensures nodes[i].lookahead == old(nodes[i].lookahead)
    {
      hide Stores;
      var node := nodes[i];
      assert NodeOk(i);
      var longer := AppendStored(node.cube, lit, open[i]);
      node.cube := longer;
      open := open[i := open[i] + [lit]];
      owner, repr := owner[longer := node], repr + {longer};
      forall k | 0 <= k < |nodes| ensures NodeOk(k) { assert old(NodeOk(k)); }
      forall k | 0 <= k < |leafs| ensures LeafOk(k) { assert old(LeafOk(k)); }
    }

    /** The node takes its lookahead literal, and a new node the negation. */
    method SplitNode(i: nat)
      requires Valid() && i < |nodes| && nodes[i].lookahead != 0
      modifies this, nodes[i]
      ensures Valid() && open == SplitAt(old(open), i, old(nodes[i].lookahead)) && closed == old(closed)
      ensures |nodes| == |old(nodes)| + 1 && nodes[..|old(nodes)|] == old(nodes) && fresh(nodes[|old(nodes)|])
      ensures leafs == old(leafs) && fresh(repr - old(repr))
      ensures nodes[i].lookahead == old(nodes[i].lookahead)
    {
      hide Partition, Implied, NonZero, WellFormedBut;
      OpenNodes();
      SplitSound(i, nodes[i].lookahead);
      var lit := nodes[i].lookahead;
      NewNode(i, -lit);
      AddInt(i, lit);
    }

    /** Splits every node that has a lookahead literal, except the skipped ones. */
    method Split(skipped: set<nat>)
      requires Valid()
      modifies this, repr
      ensures Valid() && fresh(repr - old(repr)) && closed == old(closed) && leafs == old(leafs)
      ensures |nodes| >= |old(nodes)| && nodes[..|old(nodes)|] == old(nodes)
      ensures open == AllSplit(old(open), old(Chosen(skipped)), |old(nodes)|)
      ensures |old(open)| == |old(nodes)| == |old(Chosen(skipped))|
      ensures forall i :: 0 <= i < |old(nodes)| ==>
                old(Chosen(skipped))[i] == if i in skipped then 0 else old(nodes[i].lookahead)
      ensures SplitBy(old(open), open, old(Chosen(skipped)))
    {
      ghost var lits, looks := Chosen(skipped), Chosen({});
      OpenNodes();
      AllAreSplit(open, lits);
      hide Sound, NodeOk, LeafOk, WellFormed, AllSplit, SplitBy;
      SplitNodes(skipped, lits, looks);
    }

    /** The loop over the nodes there are at its start. */
    method SplitNodes(skipped: set<nat>, ghost lits: seq<int>, ghost looks: seq<int>)
      requires Valid() && |lits| == |looks| == |nodes| == |open|
      requires forall k :: 0 <= k < |nodes| ==> nodes[k].lookahead == looks[k]
      requires forall k :: 0 <= k < |nodes| ==> lits[k] == if k in skipped then 0 else looks[k]
      modifies this, repr
      ensures Valid() && fresh(repr - old(repr)) && closed == old(closed) && leafs == old(leafs)
      ensures |nodes| >= |lits| && nodes[..|lits|] == old(nodes) && open == AllSplit(old(open), lits, |lits|)
    {
      ghost var before := open;
      assert AllSplit(before, lits, 0) == before;
      hide Sound, NodeOk, LeafOk, AllSplit, SplitAt, WellFormed, Valid;
      var n := |nodes|;
      for i := 0 to n
        invariant Valid() && fresh(repr - old(repr)) && closed == old(closed) && leafs == old(leafs)
        invariant n <= |nodes| && nodes[..n] == old(nodes) && open == AllSplit(before, lits, i)
        invariant forall k :: 0 <= k < n ==> nodes[k].lookahead == looks[k]
      {
        OneMoreSplit(before, lits, i + 1);
        SplitUnless(i, i in skipped, n, looks);
      }
    }

    method SplitUnless(i: nat, skip: bool, ghost n: nat, ghost looks: seq<int>)
      requires Valid() && i < n <= |nodes| && |looks| == n
      requires forall k :: 0 <= k < n ==> nodes[k].lookahead == looks[k]
      modifies this, repr
      ensures Valid() && fresh(repr - old(repr)) && closed == old(closed) && leafs == old(leafs)
      ensures n <= |nodes| && nodes[..n] == old(nodes)[..n]
      ensures forall k :: 0 <= k < n ==> nodes[k].lookahead == looks[k]
      ensures |old(open)| == |old(nodes)|
      ensures open == if skip || looks[i] == 0 then old(open) else SplitAt(old(open), i, looks[i])
    {
      OpenNodes();
      hide Sound, LeafOk, SplitAt;
      assert nodes[i] in repr by { assert NodeOk(i); }
      ghost var before := nodes;
      if !skip && nodes[i].lookahead != 0 { SplitNode(i); }
      forall k | 0 <= k < n ensures nodes[k].lookahead == looks[k] {
        assert nodes[k] == nodes[..|before|][k] == before[k];
      }
      assert nodes[..n] == nodes[..|before|][..n];
    }

    /** The lookahead literals that lead to a split; zero stands for none. */
    ghost function Chosen(skipped: set<nat>): seq<int>
      reads this, nodes
    {
      seq(|nodes|, i requires 0 <= i < |nodes| reads this, nodes => if i in skipped then 0 else nodes[i].lookahead)
    }

    /** Takes the first leaf from the queue: the oldest closed clause that has not been taken. */
    method DequeueLeaf() returns (leaf: Leaf)
      requires Valid() && leafs != []
      modifies `leafs
      ensures Valid() && leafs == old(leafs)[1..] && leaf == old(leafs)[0]
      ensures Stores(leaf.lits, closed[|closed| - |old(leafs)|])
    {
      hide Partition, Implied, NonZero, Stores;
      leaf := leafs[0];
      assert LeafOk(0);
      leafs := leafs[1..];
      forall k | 0 <= k < |nodes| ensures NodeOk(k) { assert old(NodeOk(k)); }
      forall k | 0 <= k < |leafs| ensures LeafOk(k) { assert old(LeafOk(k + 1)); }
    }

    lemma {:induction false} OpenNodes()
      requires WellFormed()
      ensures |open| == |nodes|
    {
    }

    lemma {:induction false} SplitSound(i: nat, lit: int)
      requires Sound() && i < |open| && lit != 0
      ensures Partition(SplitAt(open, i, lit), closed)
      ensures forall k :: 0 <= k < |SplitAt(open, i, lit)| ==> NonZero(SplitAt(open, i, lit)[k])
    {
      SplitKeepsPartition(open, closed, i, lit);
    }

    /** The negated cube becomes a leaf clause, and the last node takes the place of the closed one. */
    method CloseNode(i: nat)
      requires Valid() && i < |nodes| == |open| && Refuted(formula, open[i])
      modifies this, nodes[i].cube, nodes[|nodes| - 1]
      ensures Valid() && open == RemoveAt(old(open), i) && closed == old(closed) + [Negated(old(open)[i])]
      ensures nodes == RemoveAt(old(nodes), i) && |leafs| == |old(leafs)| + 1
      ensures forall n :: n in old(nodes) ==> n.cube == old(n.cube) && n.IsRefuted() == old(n.IsRefuted())
      ensures repr == old(repr)
    {
      hide Partition, Implied, Refuted, NonZero, Negated, RemoveAt, WellFormedBut;
      CloseSound(i);
      EnqueueNewLeaf(i);
      DeleteNode(i);
    }

    /** The node's array becomes the leaf's, with all literals negated. */
    method EnqueueNewLeaf(i: nat)
      requires WellFormed() && i < |nodes| == |open|
      modifies `leafs, `closed, `owner, nodes[i].cube
      ensures WellFormedBut(i) && closed == old(closed) + [Negated(open[i])] && |leafs| == |old(leafs)| + 1
    {
      hide Stores, Negated;
      var node := nodes[i];
      assert NodeOk(i);
      NegateStored(node.cube, open[i]);
      var leaf := new Leaf(node.cube);
      closed, leafs := closed + [Negated(open[i])], leafs + [leaf];
      owner := owner - {node.cube};
      forall k | 0 <= k < |nodes| && k != i ensures NodeOk(k) { assert old(NodeOk(k)); }
      forall k | 0 <= k < |old(leafs)| ensures LeafOk(k) { assert old(LeafOk(k)); }
    }

    lemma {:induction false} CloseSound(i: nat)
      requires Sound() && i < |open| && Refuted(formula, open[i])
      ensures Partition(RemoveAt(open, i), closed + [Negated(open[i])])
      ensures Implied(formula, Negated(open[i]))
      ensures forall k :: 0 <= k < |RemoveAt(open, i)| ==> NonZero(RemoveAt(open, i)[k])
    {
      CloseKeepsPartition(open, closed, i);
      RefutedIffImplied(formula, open[i]);
    }

    /** Deletes a node; the last one moves to its position. */
    method DeleteNode(i: nat)
      requires WellFormedBut(i) && i < |nodes|
      modifies `nodes, `open, nodes[|nodes| - 1]
      ensures WellFormed() && nodes == RemoveAt(old(nodes), i) && open == RemoveAt(old(open), i)
      ensures forall n :: n in old(nodes) ==> n.cube == old(n.cube) && n.IsRefuted() == old(n.IsRefuted())
    {
      hide Stores, RemoveAt;
      WithoutAt(nodes, i);
      WithoutAt(open, i);
      ghost var before := nodes;
      var lastpos := |nodes| - 1;
      var node, last := nodes[i], nodes[lastpos];
      open := RemoveAt(open, i);
      if node != last {
        nodes := nodes[i := last];
        last.pos := i;
      }
      nodes := nodes[..lastpos];
      RemovedIs(before, i);
      forall k | 0 <= k < |nodes| ensures NodeOk(k) { assert old(NodeOk(Source(|before|, i, k))); }
      forall k | 0 <= k < |leafs| ensures LeafOk(k) { assert old(LeafOk(k)); }
    }

    /** Part of the way through a flush: nothing but refuted nodes has been closed, and none is left before i. */
    ghost predicate Flushing(start: seq<Node>, refuted: set<Node>, i: nat)
      reads this, repr, start
    {
      && Valid() && i <= |nodes| == |open|
      && (forall n :: n in start ==> n in repr && (n.IsRefuted() <==> n in refuted))
      && (forall n :: n in nodes ==> n in start) && (forall n :: n in start && n !in refuted ==> n in nodes)
      && (forall k :: 0 <= k < i ==> nodes[k] !in refuted)
      && (forall k :: 0 <= k < |nodes| && nodes[k] in refuted ==> Refuted(formula, open[k]))
    }

    method CloseRefuted(i: nat, ghost start: seq<Node>, ghost refuted: set<Node>)
      requires Flushing(start, refuted, i) && i < |nodes| && nodes[i] in refuted
      modifies this, repr
      ensures Flushing(start, refuted, i) && |nodes| < |old(nodes)|
      ensures repr == old(repr)
    {
      WithoutElements(nodes, i);
      WithoutAt(nodes, i);
      WithoutAt(open, i);
      assert NodeOk(i) && nodes[|nodes| - 1] in repr;
      hide Partition, Implied, Refuted, WellFormedBut, Sound, RemoveAt;
      CloseNode(i);
    }

    /** Closes every refuted node; if none is left, the formula is unsatisfiable. */
    method Flush() returns (res: int)
      requires Valid()
      requires forall i :: 0 <= i < |nodes| && nodes[i].IsRefuted() ==> Refuted(formula, open[i])
      modifies this, repr
      ensures Valid()
      ensures forall n :: n in nodes <==> n in old(nodes) && !old(n.IsRefuted())
      ensures res == 20 <==> nodes == []
      ensures res == 20 ==> Unsatisfiable(formula)
    {
      ghost var refuted := set n | n in nodes && n.IsRefuted();
      assert Flushing(nodes, refuted, 0);
      hide Partition, Implied, Refuted, WellFormedBut, Sound, Unsatisfiable;
      var i := 0;
      while i < |nodes|
        invariant 0 <= i <= |nodes| && Flushing(old(nodes), refuted, i)
        invariant repr == old(repr)
        decreases |nodes| - i
      {
        if nodes[i].res == 20 || nodes[i].inconsistent { CloseRefuted(i, old(nodes), refuted); } else { i := i + 1; }
      }
      if |nodes| > 0 { res := 0; } else {
        res := 20;
        AllClosed();
      }
    }

    lemma {:induction false} AllClosed()
      requires Sound() && open == []
      ensures Unsatisfiable(formula)
    {
      NoCubeLeft(closed, formula);
    }
  }

  method AppendStored(ints: array<int>, lit: int, ghost lits: seq<int>) returns (res: array<int>)
    requires Stores(ints, lits) && lit != 0
    ensures fresh(res) && Stores(res, lits + [lit])
  {
    res := AppendInt(ints, lit);
  }

  method NegateStored(ints: array<int>, ghost lits: seq<int>)
    requires Stores(ints, lits)
    modifies ints
    ensures Stores(ints, Negated(lits))
  {
    NegateInPlace(ints);
  }
}
