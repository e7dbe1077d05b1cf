/**
 Conservation of inactive nodes at a scheduler that serves any sequence of calls between its initialization and
 its closing return.
 */
module NodeVisits {
  import opened Basics
  import opened TreeIndices
  import opened InactiveNodes
  import opened Sessions
  import opened NodeReturns
  import opened SchedulerSteps

  /** The set has a node of this rank of at least this epoch. */
  ghost predicate HasAt(s: seq<Node>, rank: int, epoch: int) {
    exists n :: n in s && n.rank == rank && n.lastEpoch >= epoch
  }

  ghost predicate HasRank(s: seq<Node>, rank: int) {
    exists n :: n in s && n.rank == rank
  }

  // ----- one side -------------------------------------------------------------------------------

  /** A side of the scheduler, with the nodes that its child holds. */
  ghost predicate PartHeld(s: Side, out: seq<Node>, rank: int, epoch: int) {
    HasAt(s.nodes, rank, epoch) || HasAt(out, rank, epoch)
  }

  /** No node of the rank is lost, and the child has nothing once it holds no nodes. */
  ghost predicate PartClean(s: Side, out: seq<Node>, rank: int) {
    NoLost(s.nodes, rank) && NoLost(out, rank) && (!s.childHasNodes ==> out == [])
  }

  lemma {:induction false} LowerFloor(s: Side, out: seq<Node>, rank: int, epoch: int, floor: int)
    requires PartHeld(s, out, rank, epoch) && floor <= epoch
    ensures PartHeld(s, out, rank, floor)
  {
  }

  lemma {:induction false} StatusesConserve(a: seq<Node>, b: seq<Node>, rank: int)
    requires OnlyStatuses(b, a)
    ensures forall epoch :: HasAt(a, rank, epoch) ==> HasAt(b, rank, epoch)
    ensures NoLost(a, rank) ==> NoLost(b, rank)
  {
    forall epoch | HasAt(a, rank, epoch) ensures HasAt(b, rank, epoch) {
      var n :| n in a && n.rank == rank && n.lastEpoch >= epoch;
      var i :| 0 <= i < |a| && a[i] == n;
      assert b[i] in b && SameKey(b[i], a[i]);
    }
  }

  /** An updated node keeps its rank; its epoch becomes the given one. */
  lemma {:induction false} UpdateConserves(a: seq<Node>, b: seq<Node>, asked: int, index: int, epoch: Int32,
      status: Status, rank: int)
    requires Sorted(a) && IsUpdate(a, b, asked, index, epoch, status)
    ensures forall e :: HasAt(a, rank, e) && (asked == rank ==> e <= epoch) ==> HasAt(b, rank, e)
    ensures NoLost(a, rank) && (asked == rank ==> status != LOST) ==> NoLost(b, rank)
  {
    if b != a {
      var x :| x in a && x.rank == asked && x.originalIndex == index
        && b == Inserted(Erased(a, x), x.(lastEpoch := epoch, status := status));
      var y := x.(lastEpoch := epoch, status := status);
      ErasedElements(a, x);
      InsertedElements(Erased(a, x), y);
      hide Inserted, Erased;
      forall e | HasAt(a, rank, e) && (asked == rank ==> e <= epoch) ensures HasAt(b, rank, e) {
        var n :| n in a && n.rank == rank && n.lastEpoch >= e;
        if asked == rank {
          var m :| m in b && SameKey(m, y);
        } else {
          assert n in b;
        }
      }
    }
  }

  lemma {:induction false} AskConserves(s: Side, s': Side, out: seq<Node>, childIndex: nat, epoch: Int32,
      lost: bool, rank: int, floor: int)
    requires Sorted(s.nodes) && Asks(s, s', childIndex, epoch, lost) && PartClean(s, out, rank)
    requires s.childRank == rank ==> !lost && floor <= epoch
    ensures PartClean(s', out, rank) && (PartHeld(s, out, rank, floor) ==> PartHeld(s', out, rank, floor))
  {
    var status := if lost then LOST else BUSY;
    var u :| Sorted(u) && OnlyStatuses(s'.nodes, u) && IsUpdate(s.nodes, u, s.childRank, childIndex, epoch, status);
    UpdateConserves(s.nodes, u, s.childRank, childIndex, epoch, status, rank);
    StatusesConserve(u, s'.nodes, rank);
    hide HasAt, NoLost, IsUpdate, OnlyStatuses;
  }

  /** A node either stays or is given to the joining child. */
  lemma {:induction false} JoinConserves(s: Side, s': Side, source: int, childIndex: nat, epoch: Int32,
      given: seq<Node>, out: seq<Node>, rank: int, floor: int)
    requires Joins(s, s', source, childIndex, epoch, given) && PartClean(s, out, rank) && !HasRank(out, rank)
    requires source == rank ==> floor <= epoch
    ensures PartClean(s', given, rank) && (PartHeld(s, out, rank, floor) ==> PartHeld(s', given, rank, floor))
  {
    var updated :| KeptFrom(s.nodes, s'.nodes, updated, source, childIndex, epoch);
    var rest :| Sorted(rest) && (forall n :: n in rest <==> n in s.nodes && !Extracts(childIndex, true, n))
                && IsUpdate(rest, updated, source, childIndex, epoch, BUSY);
    hide Extracts;
    UpdateConserves(rest, updated, source, childIndex, epoch, BUSY, rank);
    NotifiedStatuses(updated, -1);
    StatusesConserve(updated, s'.nodes, rank);
    hide IsUpdate, OnlyStatuses, Sorted;
    assert NoLost(given, rank);
    if HasAt(s.nodes, rank, floor) {
      var n :| n in s.nodes && n.rank == rank && n.lastEpoch >= floor;
      if Extracts(childIndex, true, n) {
        assert Cleaned(n) in given;
      } else {
        assert n in rest;
        assert HasAt(rest, rank, floor);
      }
    }
  }

  /** What a child returns takes the place of what it was given. */
  lemma {:induction false} TakeConserves(s: Side, s': Side, nodes: seq<Node>, out: seq<Node>, rank: int, floor: int)
    requires Takes(s, s', nodes) && PartClean(s, out, rank) && NoLost(nodes, rank)
    requires HasAt(out, rank, floor) ==> HasAt(nodes, rank, floor)
    ensures PartClean(s', [], rank) && (PartHeld(s, out, rank, floor) ==> PartHeld(s', [], rank, floor))
  {
    hide OnePerRank, Sorted;
    if PartHeld(s, out, rank, floor) {
      var n :| (n in s.nodes || n in nodes) && n.rank == rank && n.lastEpoch >= floor;
      assert Covered(s'.nodes, n);
    }
  }

  lemma {:induction false} FreeConserves(s: Side, s': Side, freed: int, epoch: Int32, index: int, out: seq<Node>,
      rank: int, floor: int)
    requires Frees(s, s', freed, epoch, index) && PartClean(s, out, rank) && freed != rank
    ensures PartClean(s', out, rank) && (PartHeld(s, out, rank, floor) ==> PartHeld(s', out, rank, floor))
  {
  }

  // ----- a visit ------------------------------------------------------------------------------------

  /** A sequence of calls with what each hands to a joining child. */
  ghost predicate Visit(index: nat, trace: seq<Sides>, calls: seq<Call>, givens: seq<Option<seq<Node>>>) {
    && |trace| == |calls| + 1 && |givens| == |calls|
    && (forall i :: 0 <= i < |trace| ==> Sorted(trace[i].left.nodes) && Sorted(trace[i].right.nodes))
    && forall i :: 0 <= i < |calls| ==> Steps(index, trace[i], calls[i], trace[i + 1], givens[i])
  }

  /** What the two children hold, and the epoch that is promised for the observed rank. */
  datatype Ledger = Ledger(left: seq<Node>, right: seq<Node>, floor: int)

  function Out(l: Ledger, w: Which): seq<Node> { if w == Left then l.left else l.right }

  function WithOut(l: Ledger, w: Which, out: seq<Node>): Ledger {
    if w == Left then l.(left := out) else l.(right := out)
  }

  function Lowered(l: Ledger, epoch: int): Ledger { if epoch < l.floor then l.(floor := epoch) else l }

  /** A child that joins takes nodes along, and one that returns has none; an asked or joining rank gets a new epoch. */
  function Booked(l: Ledger, index: nat, v: Sides, c: Call, given: Option<seq<Node>>, rank: int): Ledger {
    match c
    case Reject(epoch, childIndex, _, _) =>
      var w := ByIndex(index, childIndex);
      if w.Some? && At(v, w.value).childRank == rank then Lowered(l, epoch) else l
    case Join(source, epoch, childIndex) =>
      var w := ByIndex(index, childIndex);
      var next := if source == rank then Lowered(l, epoch) else l;
      if w.Some? && given.Some? then WithOut(next, w.value, given.value) else l
    case Return(_, source) =>
      var w := ByRank(v, source);
      if w.Some? then WithOut(l, w.value, []) else l
    case _ => l
  }

  /**
   Nothing happens to the rank that makes it disappear: it is not reported lost or freed, the child that holds
   it is not replaced before it returns, and the child returns it.
   */
  ghost predicate Spares(l: Ledger, index: nat, v: Sides, c: Call, rank: int) {
    match c
    case Reject(_, childIndex, lost, _) =>
      var w := ByIndex(index, childIndex);
      w.Some? && lost ==> At(v, w.value).childRank != rank
    case Join(_, _, childIndex) =>
      var w := ByIndex(index, childIndex);
      w.Some? ==> !HasRank(Out(l, w.value), rank)
    case Return(nodes, source) =>
      var w := ByRank(v, source);
      w.Some? ==> NoLost(nodes, rank) && (HasAt(Out(l, w.value), rank, l.floor) ==> HasAt(nodes, rank, l.floor))
    case Freed(freed, _, _) => freed != rank
    case _ => true
  }

  ghost predicate Held(v: Sides, l: Ledger, rank: int) {
    PartHeld(v.left, l.left, rank, l.floor) || PartHeld(v.right, l.right, rank, l.floor)
  }

  ghost predicate Clean(v: Sides, l: Ledger, rank: int) {
    PartClean(v.left, l.left, rank) && PartClean(v.right, l.right, rank)
  }

  /** A change of one side keeps the rank in its place. */
  lemma {:induction false} OneSideConserves(v: Sides, l: Ledger, v': Sides, l': Ledger, w: Which, rank: int)
    requires Held(v, l, rank) && Clean(v, l, rank) && OnlySide(v, v', w) && l'.floor <= l.floor
    requires Out(l', Other(w)) == Out(l, Other(w)) && PartClean(At(v', w), Out(l', w), rank)
    requires PartHeld(At(v, w), Out(l, w), rank, l'.floor) ==> PartHeld(At(v', w), Out(l', w), rank, l'.floor)
    ensures Held(v', l', rank) && Clean(v', l', rank)
  {
    if PartHeld(v.left, l.left, rank, l.floor) { LowerFloor(v.left, l.left, rank, l.floor, l'.floor); }
    if PartHeld(v.right, l.right, rank, l.floor) { LowerFloor(v.right, l.right, rank, l.floor, l'.floor); }
    hide PartHeld, PartClean;
  }

  lemma {:induction false} StepConserves(index: nat, v: Sides, c: Call, v': Sides, given: Option<seq<Node>>,
      l: Ledger, rank: int)
    requires Steps(index, v, c, v', given) && Sorted(v.left.nodes) && Sorted(v.right.nodes)
    requires Held(v, l, rank) && Clean(v, l, rank) && Spares(l, index, v, c, rank)
    ensures Held(v', Booked(l, index, v, c, given, rank), rank) && Clean(v', Booked(l, index, v, c, given, rank), rank)
  {
    var l' := Booked(l, index, v, c, given, rank);
    match c
    case Balance(_, _, _, _) =>
      StatusesConserve(v.left.nodes, v'.left.nodes, rank);
      StatusesConserve(v.right.nodes, v'.right.nodes, rank);
      hide HasAt, NoLost, OnlyStatuses;
    case Suspend(_) =>
    case Freed(freed, epoch, nodeIndex) =>
      FreeConserves(v.left, v'.left, freed, epoch, nodeIndex, l.left, rank, l.floor);
      FreeConserves(v.right, v'.right, freed, epoch, nodeIndex, l.right, rank, l.floor);
      hide PartHeld, PartClean;
    case Reject(epoch, childIndex, lost, _) =>
      var w := ByIndex(index, childIndex);
      hide PartHeld, PartClean, Asks;
      if w.Some? {
        AskConserves(At(v, w.value), At(v', w.value), Out(l, w.value), childIndex, epoch, lost, rank, l'.floor);
        OneSideConserves(v, l, v', l', w.value, rank);
      }
    case Join(source, epoch, childIndex) =>
      var w := ByIndex(index, childIndex);
      hide PartHeld, PartClean, Joins;
      if w.Some? {
        JoinConserves(At(v, w.value), At(v', w.value), source, childIndex, epoch, given.value, Out(l, w.value), rank,
            l'.floor);
        OneSideConserves(v, l, v', l', w.value, rank);
      }
    case Return(nodes, source) =>
      var w := ByRank(v, source);
      hide PartHeld, PartClean, Takes;
      if w.Some? {
        TakeConserves(At(v, w.value), At(v', w.value), nodes, Out(l, w.value), rank, l.floor);
        OneSideConserves(v, l, v', l', w.value, rank);
      }
  }

  ghost function LedgerAt(index: nat, trace: seq<Sides>, calls: seq<Call>, givens: seq<Option<seq<Node>>>,
      rank: int, epoch: int, k: nat): Ledger
    requires |trace| == |calls| + 1 && |givens| == |calls| && k <= |calls|
  {
    if k == 0 then Ledger([], [], epoch)
    else
      Booked(LedgerAt(index, trace, calls, givens, rank, epoch, k - 1), index, trace[k - 1], calls[k - 1],
          givens[k - 1], rank)
  }

  /** The rank is spared by the first k calls. */
  ghost predicate Spared(index: nat, trace: seq<Sides>, calls: seq<Call>, givens: seq<Option<seq<Node>>>, rank: int,
      epoch: int, k: nat)
    requires |trace| == |calls| + 1 && |givens| == |calls| && k <= |calls|
  {
    forall i :: 0 <= i < k ==>
      Spares(LedgerAt(index, trace, calls, givens, rank, epoch, i), index, trace[i], calls[i], rank)
  }

  ghost predicate StartsWith(v: Sides, rank: int, epoch: int) {
    && (HasAt(v.left.nodes, rank, epoch) || HasAt(v.right.nodes, rank, epoch))
    && NoLost(v.left.nodes, rank) && NoLost(v.right.nodes, rank)
  }

  lemma {:induction false} StartHeld(v: Sides, rank: int, epoch: int)
    requires StartsWith(v, rank, epoch)
    ensures Held(v, Ledger([], [], epoch), rank) && Clean(v, Ledger([], [], epoch), rank)
  {
  }

  lemma {:induction false} VisitKeeps(index: nat, trace: seq<Sides>, calls: seq<Call>,
      givens: seq<Option<seq<Node>>>, rank: int, epoch: int, k: nat)
    requires Visit(index, trace, calls, givens) && k <= |calls| && StartsWith(trace[0], rank, epoch)
    requires Spared(index, trace, calls, givens, rank, epoch, k)
    ensures var l := LedgerAt(index, trace, calls, givens, rank, epoch, k);
            Held(trace[k], l, rank) && Clean(trace[k], l, rank)
  {
    hide Held, Clean, Steps, Spares, Booked, StartsWith, Sorted;
    if k == 0 {
      StartHeld(trace[0], rank, epoch);
    } else {
      VisitKeeps(index, trace, calls, givens, rank, epoch, k - 1);
      var l := LedgerAt(index, trace, calls, givens, rank, epoch, k - 1);
      assert Spares(l, index, trace[k - 1], calls[k - 1], rank);
      StepConserves(index, trace[k - 1], calls[k - 1], trace[k], givens[k - 1], l, rank);
    }
  }

  /**
   Whatever a scheduler is called for, at its closing return every rank that it was given and that was spared
   comes back, with an epoch no smaller than given or set by a request for that rank.
   */
  lemma {:induction false} VisitConserves(index: nat, trace: seq<Sides>, calls: seq<Call>,
      givens: seq<Option<seq<Node>>>, own: Node, returned: seq<Node>, rank: int, epoch: int)
    requires Visit(index, trace, calls, givens) && StartsWith(trace[0], rank, epoch)
    requires Spared(index, trace, calls, givens, rank, epoch, |calls|)
    requires var v := trace[|calls|];
             && !v.left.childHasNodes && !v.right.childHasNodes
             && ReturnedBy(v.left.nodes, v.right.nodes, own, returned)
    ensures HasAt(returned, rank, LedgerAt(index, trace, calls, givens, rank, epoch, |calls|).floor)
  {
    VisitKeeps(index, trace, calls, givens, rank, epoch, |calls|);
    var v, l := trace[|calls|], LedgerAt(index, trace, calls, givens, rank, epoch, |calls|);
    hide Visit, Spared, LedgerAt, ReturnedBy;
    var n :| (n in v.left.nodes || n in v.right.nodes) && n.rank == rank && n.lastEpoch >= l.floor;
    RankReturned(v.left.nodes, v.right.nodes, own, returned, n);
  }

  // ----- nothing is invented ---------------------------------------------------------------------------

  ghost predicate Absent(v: Sides, rank: int) { !HasRank(v.left.nodes, rank) && !HasRank(v.right.nodes, rank) }

  lemma {:induction false} StatusesAbsent(a: seq<Node>, b: seq<Node>, rank: int)
    requires OnlyStatuses(b, a) && !HasRank(a, rank)
    ensures !HasRank(b, rank)
  {
    forall n | n in b ensures n.rank != rank {
      var i :| 0 <= i < |b| && b[i] == n;
      assert a[i] in a && SameKey(b[i], a[i]);
    }
  }

  lemma {:induction false} UpdateAbsent(a: seq<Node>, b: seq<Node>, asked: int, index: int, epoch: Int32,
      status: Status, rank: int)
    requires Sorted(a) && IsUpdate(a, b, asked, index, epoch, status) && !HasRank(a, rank)
    ensures !HasRank(b, rank)
  {
    if b != a {
      var x :| x in a && x.rank == asked && x.originalIndex == index
        && b == Inserted(Erased(a, x), x.(lastEpoch := epoch, status := status));
      ErasedElements(a, x);
      InsertedElements(Erased(a, x), x.(lastEpoch := epoch, status := status));
    }
  }

  lemma {:induction false} AskAbsent(s: Side, s': Side, childIndex: nat, epoch: Int32, lost: bool, rank: int)
    requires Sorted(s.nodes) && Asks(s, s', childIndex, epoch, lost) && !HasRank(s.nodes, rank)
    ensures !HasRank(s'.nodes, rank)
  {
    var status := if lost then LOST else BUSY;
    var u :| Sorted(u) && OnlyStatuses(s'.nodes, u) && IsUpdate(s.nodes, u, s.childRank, childIndex, epoch, status);
    UpdateAbsent(s.nodes, u, s.childRank, childIndex, epoch, status, rank);
    StatusesAbsent(u, s'.nodes, rank);
  }

  lemma {:induction false} JoinAbsent(s: Side, s': Side, source: int, childIndex: nat, epoch: Int32,
      given: seq<Node>, rank: int)
    requires Joins(s, s', source, childIndex, epoch, given) && !HasRank(s.nodes, rank)
    ensures !HasRank(s'.nodes, rank)
  {
    var updated :| KeptFrom(s.nodes, s'.nodes, updated, source, childIndex, epoch);
    var rest :| Sorted(rest) && (forall n :: n in rest <==> n in s.nodes && !Extracts(childIndex, true, n))
                && IsUpdate(rest, updated, source, childIndex, epoch, BUSY);
    UpdateAbsent(rest, updated, source, childIndex, epoch, BUSY, rank);
    NotifiedStatuses(updated, -1);
    StatusesAbsent(updated, s'.nodes, rank);
  }

  lemma {:induction false} StepAbsent(index: nat, v: Sides, c: Call, v': Sides, given: Option<seq<Node>>, rank: int)
    requires Steps(index, v, c, v', given) && Sorted(v.left.nodes) && Sorted(v.right.nodes)
    requires Absent(v, rank) && (c.Return? ==> !HasRank(c.nodes, rank))
    ensures Absent(v', rank)
  {
    match c
    case Balance(_, _, _, _) =>
      StatusesAbsent(v.left.nodes, v'.left.nodes, rank);
      StatusesAbsent(v.right.nodes, v'.right.nodes, rank);
    case Suspend(_) =>
    case Freed(_, _, _) =>
    case Reject(epoch, childIndex, lost, _) =>
      var w := ByIndex(index, childIndex);
      if w.Some? { AskAbsent(At(v, w.value), At(v', w.value), childIndex, epoch, lost, rank); }
    case Join(source, epoch, childIndex) =>
      var w := ByIndex(index, childIndex);
      if w.Some? { JoinAbsent(At(v, w.value), At(v', w.value), source, childIndex, epoch, given.value, rank); }
    case Return(_, _) =>
  }

  lemma {:induction false} VisitAbsent(index: nat, trace: seq<Sides>, calls: seq<Call>,
      givens: seq<Option<seq<Node>>>, rank: int, j: nat, k: nat)
    requires Visit(index, trace, calls, givens) && j <= k <= |calls| && Absent(trace[j], rank)
    requires forall i :: j <= i < k && calls[i].Return? ==> !HasRank(calls[i].nodes, rank)
    ensures Absent(trace[k], rank)
    decreases k - j
  {
    if j < k {
      VisitAbsent(index, trace, calls, givens, rank, j, k - 1);
      hide Steps, Absent, HasRank;
      StepAbsent(index, trace[k - 1], calls[k - 1], trace[k], givens[k - 1], rank);
    }
  }

  /**
   A rank that neither side holds at some point and that no child returns from then on is not part of the closing
   return, unless it is the node's own. So nothing is invented, and a child that is replaced takes along what only
   it holds.
   */
  lemma {:induction false} NothingInvented(index: nat, trace: seq<Sides>, calls: seq<Call>,
      givens: seq<Option<seq<Node>>>, own: Node, returned: seq<Node>, rank: int, j: nat)
    requires Visit(index, trace, calls, givens) && j <= |calls| && Absent(trace[j], rank) && own.rank != rank
    requires forall i :: j <= i < |calls| && calls[i].Return? ==> !HasRank(calls[i].nodes, rank)
    requires var v := trace[|calls|]; ReturnedBy(v.left.nodes, v.right.nodes, own, returned)
    ensures !HasRank(returned, rank)
  {
    VisitAbsent(index, trace, calls, givens, rank, j, |calls|);
    var v := trace[|calls|];
    hide Visit, ReturnedBy;
    forall n | n in returned ensures n.rank != rank {
      if n != own { NothingElseReturned(v.left.nodes, v.right.nodes, own, returned, n); }
    }
  }

  // ----- where the nodes belong ---------------------------------------------------------------------

  /** Only strict descendants of the index. */
  ghost predicate Scoped(index: nat, s: seq<Node>) {
    forall n :: n in s ==> InSubtree(index, n.originalIndex) && n.originalIndex != index
  }

  ghost predicate BothScoped(index: nat, v: Sides) { Scoped(index, v.left.nodes) && Scoped(index, v.right.nodes) }

  lemma {:induction false} StatusesScoped(index: nat, a: seq<Node>, b: seq<Node>)
    requires Scoped(index, a) && OnlyStatuses(b, a)
    ensures Scoped(index, b)
  {
    forall n | n in b ensures InSubtree(index, n.originalIndex) && n.originalIndex != index {
      var i :| 0 <= i < |b| && b[i] == n;
      assert a[i] in a && SameKey(b[i], a[i]);
    }
  }

  lemma {:induction false} UpdateScoped(index: nat, a: seq<Node>, b: seq<Node>, asked: int, at: int, epoch: Int32,
      status: Status)
    requires Sorted(a) && Scoped(index, a) && IsUpdate(a, b, asked, at, epoch, status)
    ensures Scoped(index, b)
  {
    if b != a {
      var x :| x in a && x.rank == asked && x.originalIndex == at
        && b == Inserted(Erased(a, x), x.(lastEpoch := epoch, status := status));
      ErasedElements(a, x);
      InsertedElements(Erased(a, x), x.(lastEpoch := epoch, status := status));
      hide Inserted, Erased, InSubtree;
    }
  }

  lemma {:induction false} JoinScoped(index: nat, s: Side, s': Side, source: int, childIndex: nat, epoch: Int32,
      given: seq<Node>)
    requires Joins(s, s', source, childIndex, epoch, given) && Scoped(index, s.nodes)
    ensures Scoped(index, s'.nodes) && Scoped(childIndex, given)
  {
    var updated :| KeptFrom(s.nodes, s'.nodes, updated, source, childIndex, epoch);
    var rest :| Sorted(rest) && (forall n :: n in rest <==> n in s.nodes && !Extracts(childIndex, true, n))
                && IsUpdate(rest, updated, source, childIndex, epoch, BUSY);
    UpdateScoped(index, rest, updated, source, childIndex, epoch, BUSY);
    NotifiedStatuses(updated, -1);
    StatusesScoped(index, updated, s'.nodes);
    hide InSubtree;
  }

  lemma {:induction false} AskScoped(index: nat, s: Side, s': Side, childIndex: nat, epoch: Int32, lost: bool)
    requires Sorted(s.nodes) && Asks(s, s', childIndex, epoch, lost) && Scoped(index, s.nodes)
    ensures Scoped(index, s'.nodes)
  {
    var status := if lost then LOST else BUSY;
    var u :| Sorted(u) && OnlyStatuses(s'.nodes, u) && IsUpdate(s.nodes, u, s.childRank, childIndex, epoch, status);
    UpdateScoped(index, s.nodes, u, s.childRank, childIndex, epoch, status);
    StatusesScoped(index, u, s'.nodes);
  }

  /** If children return descendants only, both sides hold descendants only. */
  lemma {:induction false} StepScoped(index: nat, v: Sides, c: Call, v': Sides, given: Option<seq<Node>>)
    requires Steps(index, v, c, v', given) && Sorted(v.left.nodes) && Sorted(v.right.nodes)
    requires BothScoped(index, v) && (c.Return? ==> Scoped(index, c.nodes))
    ensures BothScoped(index, v')
  {
    hide InSubtree;
    match c
    case Balance(_, _, _, _) =>
      StatusesScoped(index, v.left.nodes, v'.left.nodes);
      StatusesScoped(index, v.right.nodes, v'.right.nodes);
    case Suspend(_) =>
    case Freed(_, _, _) =>
    case Reject(epoch, childIndex, lost, _) =>
      var w := ByIndex(index, childIndex);
      if w.Some? { AskScoped(index, At(v, w.value), At(v', w.value), childIndex, epoch, lost); }
    case Join(source, epoch, childIndex) =>
      var w := ByIndex(index, childIndex);
      if w.Some? { JoinScoped(index, At(v, w.value), At(v', w.value), source, childIndex, epoch, given.value); }
    case Return(_, _) =>
  }

  ghost predicate ReturnsScoped(index: nat, calls: seq<Call>) {
    forall i :: 0 <= i < |calls| && calls[i].Return? ==> Scoped(index, calls[i].nodes)
  }

  lemma {:induction false} VisitScoped(index: nat, trace: seq<Sides>, calls: seq<Call>,
      givens: seq<Option<seq<Node>>>, k: nat)
    requires Visit(index, trace, calls, givens) && k <= |calls| && BothScoped(index, trace[0])
    requires ReturnsScoped(index, calls)
    ensures BothScoped(index, trace[k])
  {
    if k > 0 {
      VisitScoped(index, trace, calls, givens, k - 1);
      hide Steps, BothScoped, Scoped;
      StepScoped(index, trace[k - 1], calls[k - 1], trace[k], givens[k - 1]);
    }
  }

  /**
   A scheduler that was given strict descendants, and whose children return such, returns itself, and nothing
   outside its own subtree.
   */
  lemma {:induction false} VisitReturnsOwn(index: nat, trace: seq<Sides>, calls: seq<Call>,
      givens: seq<Option<seq<Node>>>, own: Node, returned: seq<Node>)
    requires Visit(index, trace, calls, givens) && BothScoped(index, trace[0]) && ReturnsScoped(index, calls)
    requires own.originalIndex == index
    requires var v := trace[|calls|]; ReturnedBy(v.left.nodes, v.right.nodes, own, returned)
    ensures own in returned && forall n :: n in returned ==> InSubtree(index, n.originalIndex)
  {
    VisitScoped(index, trace, calls, givens, |calls|);
    var v := trace[|calls|];
    hide Visit, ReturnedBy;
    OwnReturned(v.left.nodes, v.right.nodes, own, returned);
    forall n | n in returned ensures InSubtree(index, n.originalIndex) {
      if n != own { NothingElseReturned(v.left.nodes, v.right.nodes, own, returned, n); }
    }
  }

  /** So a parent whose children return descendants only receives strict descendants of its own. */
  lemma {:induction false} ReturnIsScoped(parent: nat, w: Which, returned: seq<Node>)
    requires forall n :: n in returned ==> InSubtree(IndexOf(parent, w), n.originalIndex)
    ensures Scoped(parent, returned)
  {
    forall n | n in returned ensures InSubtree(parent, n.originalIndex) && n.originalIndex != parent {
      OneChild(parent, n.originalIndex);
    }
  }
}
