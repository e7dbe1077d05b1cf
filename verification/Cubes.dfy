/** Cubes, clauses and the way a set of cubes divides up all assignments. */
module Cubes {
  import opened Basics
  import opened Clauses

  ghost predicate NonZero(lits: seq<int>) {
    forall i :: 0 <= i < |lits| ==> lits[i] != 0
  }

  ghost predicate SatCube(t: Assignment, cube: seq<int>) {
    forall i :: 0 <= i < |cube| ==> Holds(t, cube[i])
  }

  /** No model of the formula satisfies the cube. */
  ghost predicate Refuted(formula: set<Clause>, cube: seq<int>) {
    forall t: Assignment :: Model(t, formula) ==> !SatCube(t, cube)
  }

  ghost function Negated(lits: seq<int>): (r: seq<int>)
    ensures |r| == |lits| && forall i :: 0 <= i < |lits| ==> r[i] == -lits[i]
  {
    seq(|lits|, i requires 0 <= i < |lits| => -lits[i])
  }

  /** The negation of a cube is falsified by exactly the assignments that satisfy the cube. */
  lemma {:induction false} NegatedDual(t: Assignment, cube: seq<int>)
    requires NonZero(cube)
    ensures SatClause(t, Negated(cube)) <==> !SatCube(t, cube)
  {
    var clause := Negated(cube);
    forall i | 0 <= i < |cube| ensures Holds(t, clause[i]) <==> !Holds(t, cube[i]) {
    }
    if !SatCube(t, cube) {
      var i :| 0 <= i < |cube| && !Holds(t, cube[i]);
      assert Holds(t, clause[i]);
    }
  }

  /** A refuted cube gives an implied clause, and only such a cube does. */
  lemma {:induction false} RefutedIffImplied(formula: set<Clause>, cube: seq<int>)
    requires NonZero(cube)
    ensures Refuted(formula, cube) <==> Implied(formula, Negated(cube))
  {
    forall t: Assignment ensures SatClause(t, Negated(cube)) <==> !SatCube(t, cube) {
      NegatedDual(t, cube);
    }
  }

  // ----- counting ----------------------------------------------------------------------------

  /** How many of the cubes the assignment satisfies. */
  ghost function Satisfied(t: Assignment, open: seq<seq<int>>): nat {
    if |open| == 0 then 0 else Satisfied(t, open[..|open| - 1]) + if SatCube(t, open[|open| - 1]) then 1 else 0
  }

  /** How many of the clauses the assignment falsifies. */
  ghost function Falsified(t: Assignment, closed: seq<seq<int>>): nat {
    if |closed| == 0 then 0
    else Falsified(t, closed[..|closed| - 1]) + if SatClause(t, closed[|closed| - 1]) then 0 else 1
  }

  /** Every assignment satisfies exactly one open cube or falsifies exactly one closed clause, not both. */
  ghost predicate Partition(open: seq<seq<int>>, closed: seq<seq<int>>) {
    forall t: Assignment :: Satisfied(t, open) + Falsified(t, closed) == 1
  }

  ghost function One(b: bool): nat { if b then 1 else 0 }

  lemma {:induction false} SatisfiedAppend(t: Assignment, open: seq<seq<int>>, c: seq<int>)
    ensures Satisfied(t, open + [c]) == Satisfied(t, open) + One(SatCube(t, c))
  {
    assert (open + [c])[..|open|] == open;
  }

  lemma {:induction false} FalsifiedAppend(t: Assignment, closed: seq<seq<int>>, c: seq<int>)
    ensures Falsified(t, closed + [c]) == Falsified(t, closed) + One(!SatClause(t, c))
  {
    assert (closed + [c])[..|closed|] == closed;
  }

  lemma {:induction false} SatisfiedUpdate(t: Assignment, open: seq<seq<int>>, i: nat, c: seq<int>)
    requires i < |open|
    ensures Satisfied(t, open[i := c]) + One(SatCube(t, open[i])) == Satisfied(t, open) + One(SatCube(t, c))
  {
    var last := |open| - 1;
    if i < last {
      SatisfiedUpdate(t, open[..last], i, c);
      assert open[i := c][..last] == open[..last][i := c];
    } else {
      assert open[i := c][..last] == open[..last];
    }
  }

  // ----- what happens to the open cubes -----------------------------------------------------------

  /** A node takes the literal, its new child the negation. */
  ghost function SplitAt(open: seq<seq<int>>, i: nat, lit: int): seq<seq<int>>
    requires i < |open|
  {
    (open + [open[i] + [-lit]])[i := open[i] + [lit]]
  }

  /** The first nodes are split by their literals, in order. */
  ghost function AllSplit(open: seq<seq<int>>, lits: seq<int>, k: nat): (r: seq<seq<int>>)
    requires k <= |lits| <= |open|
    ensures |r| >= |open|
  {
    if k == 0 then open
    else
      var r := AllSplit(open, lits, k - 1);
      if lits[k - 1] != 0 then SplitAt(r, k - 1, lits[k - 1]) else r
  }

  lemma {:induction false} BehindKept(r: seq<seq<int>>, at: nat, lit: int, first: nat, cube: seq<int>)
    requires at < first <= |r|
    ensures Behind(r, first, cube) ==> Behind(SplitAt(r, at, lit), first, cube)
    ensures Behind(SplitAt(r, at, lit), first, r[at] + [-lit])
  {
    var split := SplitAt(r, at, lit);
    assert split[|r|] == r[at] + [-lit];
    assert forall j :: first <= j < |r| ==> split[j] == r[j];
  }

  /** Each split node has a new one with the negated literal. */
  lemma {:induction false} AllSplitNew(open: seq<seq<int>>, lits: seq<int>, k: nat, i: nat)
    requires i < k <= |lits| <= |open| && lits[i] != 0
    ensures Behind(AllSplit(open, lits, k), |open|, open[i] + [-lits[i]])
  {
    hide AllSplit, Behind, SplitAt;
    OneMoreSplit(open, lits, k);
    AllSplitFirst(open, lits, k - 1, k - 1);
    if i < k - 1 { AllSplitNew(open, lits, k - 1, i); }
    BehindKept(AllSplit(open, lits, k - 1), k - 1, lits[k - 1], |open|, open[i] + [-lits[i]]);
  }

  lemma {:induction false} OneMoreSplit(open: seq<seq<int>>, lits: seq<int>, k: nat)
    requires 0 < k <= |lits| <= |open|
    ensures var r := AllSplit(open, lits, k - 1);
            && AllSplit(open, lits, k) == if lits[k - 1] != 0 then SplitAt(r, k - 1, lits[k - 1]) else r
  {
    hide SplitAt;
  }

  lemma {:induction false} AllSplitFirst(open: seq<seq<int>>, lits: seq<int>, k: nat, i: nat)
    requires k <= |lits| <= |open| && i < |open|
    ensures AllSplit(open, lits, k)[i] == if i < k && lits[i] != 0 then open[i] + [lits[i]] else open[i]
  {
    if k > 0 {
      OneMoreSplit(open, lits, k);
      AllSplitFirst(open, lits, k - 1, i);
      hide AllSplit;
    }
  }

  /** The first cubes got their literals, and each of those has a counterpart with the negated literal behind them. */
  ghost predicate SplitBy(before: seq<seq<int>>, after: seq<seq<int>>, lits: seq<int>)
    requires |lits| == |before|
  {
    && |after| >= |before|
    && (forall i :: 0 <= i < |before| ==> after[i] == if lits[i] != 0 then before[i] + [lits[i]] else before[i])
    && (forall i :: 0 <= i < |before| && lits[i] != 0 ==> Behind(after, |before|, before[i] + [-lits[i]]))
  }

  ghost predicate Behind(cubes: seq<seq<int>>, first: nat, cube: seq<int>) {
    exists j :: first <= j < |cubes| && cubes[j] == cube
  }

  lemma {:induction false} AllAreSplit(open: seq<seq<int>>, lits: seq<int>)
    requires |lits| == |open|
    ensures SplitBy(open, AllSplit(open, lits, |lits|), lits)
  {
    hide AllSplit, Behind;
    var after := AllSplit(open, lits, |lits|);
    forall i | 0 <= i < |open| ensures after[i] == if lits[i] != 0 then open[i] + [lits[i]] else open[i] {
      AllSplitFirst(open, lits, |lits|, i);
    }
    forall i: nat | i < |open| && lits[i] != 0
      ensures Behind(AllSplit(open, lits, |lits|), |open|, open[i] + [-lits[i]])
    {
      AllSplitNew(open, lits, |lits|, i);
    }
  }

  lemma {:induction false} SatCubeAppend(t: Assignment, cube: seq<int>, lit: int)
    ensures SatCube(t, cube + [lit]) <==> SatCube(t, cube) && Holds(t, lit)
  {
    var longer := cube + [lit];
    assert longer[|cube|] == lit && forall i :: 0 <= i < |cube| ==> longer[i] == cube[i];
    if SatCube(t, longer) {
      forall i | 0 <= i < |cube| ensures Holds(t, cube[i]) { assert Holds(t, longer[i]); }
      assert Holds(t, longer[|cube|]);
    }
  }

  lemma {:induction false} SplitKeepsPartition(open: seq<seq<int>>, closed: seq<seq<int>>, i: nat, lit: int)
    requires Partition(open, closed) && i < |open| && lit != 0
    ensures Partition(SplitAt(open, i, lit), closed)
  {
    forall t: Assignment ensures Satisfied(t, SplitAt(open, i, lit)) == Satisfied(t, open) {
      var c := open[i];
      SatisfiedAppend(t, open, c + [-lit]);
      SatisfiedUpdate(t, open + [c + [-lit]], i, c + [lit]);
      SatCubeAppend(t, c, lit);
      SatCubeAppend(t, c, -lit);
    }
  }

  lemma {:induction false} SatisfiedRemove(t: Assignment, open: seq<seq<int>>, i: nat)
    requires i < |open|
    ensures Satisfied(t, RemoveAt(open, i)) + One(SatCube(t, open[i])) == Satisfied(t, open)
  {
    var last := |open| - 1;
    var moved := open[i := open[last]];
    SatisfiedUpdate(t, open, i, open[last]);
    assert moved[..last] == RemoveAt(open, i) && moved[last] == open[last];
  }

  lemma {:induction false} CloseKeepsPartition(open: seq<seq<int>>, closed: seq<seq<int>>, i: nat)
    requires Partition(open, closed) && i < |open| && NonZero(open[i])
    ensures Partition(RemoveAt(open, i), closed + [Negated(open[i])])
  {
    forall t: Assignment
      ensures Satisfied(t, RemoveAt(open, i)) + Falsified(t, closed + [Negated(open[i])])
           == Satisfied(t, open) + Falsified(t, closed)
    {
      SatisfiedRemove(t, open, i);
      FalsifiedAppend(t, closed, Negated(open[i]));
      NegatedDual(t, open[i]);
    }
  }

  /** The order of the nodes does not matter. */
  lemma {:induction false} SwapKeepsPartition(open: seq<seq<int>>, closed: seq<seq<int>>, i: nat, j: nat)
    requires Partition(open, closed) && i < |open| && j < |open|
    ensures Partition(open[i := open[j]][j := open[i]], closed)
  {
    forall t: Assignment ensures Satisfied(t, open[i := open[j]][j := open[i]]) == Satisfied(t, open) {
      SatisfiedUpdate(t, open, i, open[j]);
      SatisfiedUpdate(t, open[i := open[j]], j, open[i]);
    }
  }

  lemma {:induction false} OneCubeIsAll()
    ensures Partition([[]], [])
  {
    forall t: Assignment ensures Satisfied(t, [[]]) == 1 {
      var none: seq<seq<int>> := [];
      SatisfiedAppend(t, none, []);
      assert none + [[]] == [[]];
    }
  }

  // ----- the answer ------------------------------------------------------------------------------------

  lemma {:induction false} SomeFalsified(t: Assignment, closed: seq<seq<int>>) returns (i: nat)
    requires Falsified(t, closed) > 0
    ensures i < |closed| && !SatClause(t, closed[i])
  {
    var last := |closed| - 1;
    if SatClause(t, closed[last]) { i := SomeFalsified(t, closed[..last]); } else { i := last; }
  }

  /** Without open cubes, every assignment is excluded by a closed clause; if all are implied, there is no model. */
  lemma {:induction false} NoCubeLeft(closed: seq<seq<int>>, formula: set<Clause>)
    requires Partition([], closed) && forall i :: 0 <= i < |closed| ==> Implied(formula, closed[i])
    ensures Unsatisfiable(formula)
  {
    forall t: Assignment ensures !Model(t, formula) {
      assert Satisfied(t, []) + Falsified(t, closed) == 1;
      var i := SomeFalsified(t, closed);
      assert Implied(formula, closed[i]);
    }
  }

  lemma {:induction false} NoneFalsified(t: Assignment, closed: seq<seq<int>>)
    requires forall i :: 0 <= i < |closed| ==> SatClause(t, closed[i])
    ensures Falsified(t, closed) == 0
  {
    if |closed| > 0 { NoneFalsified(t, closed[..|closed| - 1]); }
  }

  /** Conversely, with all closed clauses implied, a satisfiable formula has all its models in open cubes. */
  lemma {:induction false} ModelsAreOpen(open: seq<seq<int>>, closed: seq<seq<int>>, formula: set<Clause>,
      t: Assignment)
    requires Partition(open, closed) && (forall i :: 0 <= i < |closed| ==> Implied(formula, closed[i]))
    requires Model(t, formula)
    ensures Satisfied(t, open) == 1
  {
    assert Satisfied(t, open) + Falsified(t, closed) == 1;
    assert forall i :: 0 <= i < |closed| ==> Implied(formula, closed[i]) && SatClause(t, closed[i]);
    NoneFalsified(t, closed);
  }
}
