/**
 Conservation of inactive nodes in a subtree of any depth: a child serves calls between joining and returning, its
 children do the same in between, and the parent goes on serving calls meanwhile.
 */
module NodeTrees {
  import opened Basics
  import opened InactiveNodes
  import opened Sessions
  import opened NodeReturns
  import opened SchedulerSteps
  import opened NodeVisits
  import opened LocalScheduling

  /** What a node of the job does between its initialization and its closing return; a return that it is sent comes
      with what the child did before. */
  datatype Stay = Stay(
    index: nat, own: Node, trace: seq<Sides>, calls: seq<Call>, givens: seq<Option<seq<Node>>>,
    children: seq<Option<Stay>>) {

    ghost predicate Shaped() { |trace| == |calls| + 1 && |givens| == |calls| && |children| == |calls| }

    /** The call is a return that a session takes. */
    ghost predicate Taken(j: nat)
      requires Shaped() && j < |calls|
    {
      calls[j].Return? && ByRank(trace[j], calls[j].source).Some?
    }

    /** What the child on this side holds before a call. */
    ghost function OutAt(j: nat, w: Which): seq<Node>
      requires Shaped() && j <= |calls|
    {
      Out(LedgerAt(index, trace, calls, givens, 0, 0, j), w)
    }

    /** No child holds nodes, and these are returned. */
    ghost predicate Closes(returned: seq<Node>)
      requires Shaped()
    {
      var v := trace[|calls|];
      && !v.left.childHasNodes && !v.right.childHasNodes
      && ReturnedBy(v.left.nodes, v.right.nodes, own, returned)
    }
  }

  /** The child was initialized with what it was given, and returns what the call brings. */
  ghost predicate Follows(t: Stay, j: nat, child: Stay)
    requires t.Shaped() && j < |t.calls| && t.Taken(j) && child.Shaped()
  {
    var w := ByRank(t.trace[j], t.calls[j].source).value;
    && child.index == IndexOf(t.index, w) && child.Closes(t.calls[j].nodes)
    && HalvesOf(t.OutAt(j, w), child.index, child.trace[0].left.nodes, child.trace[0].right.nodes)
  }

  /** Calls have their effects, and returns come from children that stayed regularly. */
  ghost predicate Regular(t: Stay)
    decreases t
  {
    && t.Shaped() && Visit(t.index, t.trace, t.calls, t.givens) && t.own.status == AVAILABLE
    && forall j :: 0 <= j < |t.calls| && t.Taken(j) ==>
                     t.children[j].Some? && Regular(t.children[j].value) && Follows(t, j, t.children[j].value)
  }

  /** A call at this node does not report the rank lost, free it or replace the child that holds it, and does not set
      the rank's epoch below the given one. */
  ghost predicate CallSpares(t: Stay, j: nat, rank: int, epoch: int)
    requires t.Shaped() && j < |t.calls|
  {
    match t.calls[j]
    case Reject(e, childIndex, lost, _) =>
      var w := ByIndex(t.index, childIndex);
      w.Some? && At(t.trace[j], w.value).childRank == rank ==> !lost && epoch <= e
    case Join(source, e, childIndex) =>
      var w := ByIndex(t.index, childIndex);
      (w.Some? ==> !HasRank(t.OutAt(j, w.value), rank)) && (source == rank ==> epoch <= e)
    case Freed(freed, _, _) => freed != rank
    case _ => true
  }

  /** No call in the whole subtree takes the rank away. */
  ghost predicate SubtreeSpares(t: Stay, rank: int, epoch: int)
    requires Regular(t)
    decreases t
  {
    && (forall j :: 0 <= j < |t.calls| ==> CallSpares(t, j, rank, epoch))
    && (forall j :: 0 <= j < |t.calls| && t.Taken(j) ==> SubtreeSpares(t.children[j].value, rank, epoch))
  }

  /** What the children hold does not depend on the rank that is observed. */
  lemma {:induction false} SameOuts(t: Stay, rank: int, epoch: int, j: nat, w: Which)
    requires t.Shaped() && j <= |t.calls|
    ensures Out(LedgerAt(t.index, t.trace, t.calls, t.givens, rank, epoch, j), w) == t.OutAt(j, w)
  {
    if j > 0 {
      SameOuts(t, rank, epoch, j - 1, Left);
      SameOuts(t, rank, epoch, j - 1, Right);
    }
  }

  lemma {:induction false} HalvesStart(given: seq<Node>, index: nat, v: Sides, rank: int, epoch: int)
    requires HalvesOf(given, index, v.left.nodes, v.right.nodes) && NoLost(given, rank) && HasAt(given, rank, epoch)
    ensures StartsWith(v, rank, epoch)
  {
    var l0, r0 :| IsSplit(given, index, l0, r0) && OnlyStatuses(v.left.nodes, l0) && OnlyStatuses(v.right.nodes, r0);
    assert forall m :: m in given <==> m in l0 || m in r0;
    hide IsSplit;
    assert HasAt(l0, rank, epoch) || HasAt(r0, rank, epoch);
    assert NoLost(l0, rank) && NoLost(r0, rank);
    StatusesConserve(l0, v.left.nodes, rank);
    StatusesConserve(r0, v.right.nodes, rank);
  }

  /** Nothing that is returned is lost. */
  lemma {:induction false} NoneLost(a: seq<Node>, b: seq<Node>, own: Node, r: seq<Node>, rank: int)
    requires ReturnedBy(a, b, own, r) && own.status == AVAILABLE
    ensures NoLost(r, rank)
  {
    forall n | n in r && n.rank == rank ensures n.status != LOST {
      if n != own { NothingElseReturned(a, b, own, r, n); }
    }
  }

  /** The first calls spare the rank and do not lower its epoch. */
  ghost predicate SparedUpTo(t: Stay, rank: int, epoch: int, k: nat) {
    && t.Shaped() && k <= |t.calls|
    && Spared(t.index, t.trace, t.calls, t.givens, rank, epoch, k)
    && LedgerAt(t.index, t.trace, t.calls, t.givens, rank, epoch, k).floor == epoch
  }

  lemma {:induction false} OneMoreSpared(t: Stay, rank: int, epoch: int, j: nat)
    requires SparedUpTo(t, rank, epoch, j) && j < |t.calls| && CallSpares(t, j, rank, epoch)
    requires var l := LedgerAt(t.index, t.trace, t.calls, t.givens, rank, epoch, j);
             Spares(l, t.index, t.trace[j], t.calls[j], rank)
    ensures SparedUpTo(t, rank, epoch, j + 1)
  {
    hide CallSpares, Spares, Booked;
    FloorStays(t, j, rank, epoch, LedgerAt(t.index, t.trace, t.calls, t.givens, rank, epoch, j));
  }

  lemma {:induction false} NoneYet(t: Stay, rank: int, epoch: int)
    requires t.Shaped()
    ensures SparedUpTo(t, rank, epoch, 0)
  {
  }

  /** All calls spare the rank, since the children return it. */
  lemma {:induction false} CallsSpare(t: Stay, rank: int, epoch: int, k: nat)
    requires Regular(t) && SubtreeSpares(t, rank, epoch) && StartsWith(t.trace[0], rank, epoch) && k <= |t.calls|
    ensures SparedUpTo(t, rank, epoch, k)
    decreases t, k
  {
    hide SubtreeSpares, StartsWith, SparedUpTo, Regular, CallSpares, Spares;
    RegularShape(t);
    if k == 0 {
      NoneYet(t, rank, epoch);
    } else {
      CallsSpare(t, rank, epoch, k - 1);
      CallIsSpared(t, k - 1, rank, epoch);
      if t.Taken(k - 1) {
        ChildReturns(t, rank, epoch, k - 1);
      } else {
        OtherCallSpares(t, k - 1, rank, epoch);
      }
      OneMoreSpared(t, rank, epoch, k - 1);
    }
  }

  lemma {:induction false} RegularShape(t: Stay)
    requires Regular(t)
    ensures t.Shaped()
  {
  }

  lemma {:induction false} CallIsSpared(t: Stay, j: nat, rank: int, epoch: int)
    requires Regular(t) && SubtreeSpares(t, rank, epoch) && j < |t.calls|
    ensures CallSpares(t, j, rank, epoch)
  {
    hide CallSpares;
  }

  lemma {:induction false} FloorStays(t: Stay, j: nat, rank: int, epoch: int, l: Ledger)
    requires t.Shaped() && j < |t.calls| && CallSpares(t, j, rank, epoch) && l.floor == epoch
    ensures Booked(l, t.index, t.trace[j], t.calls[j], t.givens[j], rank).floor == epoch
  {
    hide HasRank, LedgerAt;
  }

  lemma {:induction false} OtherCallSpares(t: Stay, j: nat, rank: int, epoch: int)
    requires t.Shaped() && j < |t.calls| && CallSpares(t, j, rank, epoch) && !t.Taken(j)
    ensures Spares(LedgerAt(t.index, t.trace, t.calls, t.givens, rank, epoch, j), t.index, t.trace[j], t.calls[j], rank)
  {
    SameOuts(t, rank, epoch, j, Left);
    SameOuts(t, rank, epoch, j, Right);
    hide HasRank, LedgerAt;
  }

  lemma {:induction false} ChildReturns(t: Stay, rank: int, epoch: int, j: nat)
    requires Regular(t) && SubtreeSpares(t, rank, epoch) && StartsWith(t.trace[0], rank, epoch)
    requires j < |t.calls| && t.Taken(j) && SparedUpTo(t, rank, epoch, j)
    ensures Spares(LedgerAt(t.index, t.trace, t.calls, t.givens, rank, epoch, j), t.index, t.trace[j], t.calls[j], rank)
    decreases t, j, 0
  {
    var l := LedgerAt(t.index, t.trace, t.calls, t.givens, rank, epoch, j);
    var w, nodes, child := ByRank(t.trace[j], t.calls[j].source).value, t.calls[j].nodes, t.children[j].value;
    VisitKeeps(t.index, t.trace, t.calls, t.givens, rank, epoch, j);
    SameOuts(t, rank, epoch, j, w);
    assert Regular(child) && Follows(t, j, child) && SubtreeSpares(child, rank, epoch);
    hide Visit, Spared, LedgerAt, ReturnedBy, HalvesOf, StartsWith, SubtreeSpares;
    var v := child.trace[|child.calls|];
    NoneLost(v.left.nodes, v.right.nodes, child.own, nodes, rank);
    if HasAt(Out(l, w), rank, epoch) {
      HalvesStart(Out(l, w), child.index, child.trace[0], rank, epoch);
      SubtreeConserves(child, rank, epoch, nodes);
    }
  }

  /**
   Whatever the nodes of a subtree are called for, at the closing return of its root every rank that was given to it
   and that no call in the subtree takes away comes back, at least as new.
   */
  lemma {:induction false} SubtreeConserves(t: Stay, rank: int, epoch: int, returned: seq<Node>)
    requires Regular(t) && SubtreeSpares(t, rank, epoch) && StartsWith(t.trace[0], rank, epoch) && t.Closes(returned)
    ensures HasAt(returned, rank, epoch)
    decreases t, |t.calls| + 1
  {
    CallsSpare(t, rank, epoch, |t.calls|);
    hide SubtreeSpares, ReturnedBy, LedgerAt, Spared, StartsWith, HasAt;
    VisitConserves(t.index, t.trace, t.calls, t.givens, t.own, returned, rank, epoch);
  }
}
