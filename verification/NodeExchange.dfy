/** Conservation of inactive nodes through an exchange between a parent and a child. */
module NodeExchange {
  import opened Basics
  import opened InactiveNodes
  import opened Sessions
  import opened NodeReturns
  import opened SchedulerSteps
  import opened LocalScheduling
  import opened NodeVisits

  /** Apart from one rank, all nodes are among those known before. */
  ghost predicate KeysFrom(s: seq<Node>, before: seq<Node>, rank: int) {
    forall m :: m in s && m.rank != rank ==> HasKey(before, m)
  }

  // ----- the nodes that stay --------------------------------------------------------------------

  lemma {:induction false} UpdatedKeys(rest: seq<Node>, updated: seq<Node>, rank: int, index: nat, epoch: Int32)
    requires Sorted(rest) && IsUpdate(rest, updated, rank, index, epoch, BUSY)
    ensures forall n: Node :: n.rank != rank ==> (n in rest <==> n in updated)
  {
    if exists n :: n in rest && n.rank == rank && n.originalIndex == index {
      var x :| x in rest && x.rank == rank && x.originalIndex == index
        && updated == Inserted(Erased(rest, x), x.(lastEpoch := epoch, status := BUSY));
      ErasedElements(rest, x);
      InsertedElements(Erased(rest, x), x.(lastEpoch := epoch, status := BUSY));
    }
  }

  lemma {:induction false} KeptOther(before: seq<Node>, kept: seq<Node>, rank: int, index: nat, epoch: Int32)
    requires Kept(before, kept, rank, index, epoch)
    ensures KeysFrom(kept, before, rank)
    ensures forall n :: n in before && !Extracts(index, true, n) && n.rank != rank ==> HasKey(kept, n)
  {
    var updated :| KeptFrom(before, kept, updated, rank, index, epoch);
    var rest :| Sorted(rest) && (forall n :: n in rest <==> n in before && !Extracts(index, true, n))
                && IsUpdate(rest, updated, rank, index, epoch, BUSY);
    UpdatedKeys(rest, updated, rank, index, epoch);
    hide Extracts, Notifies, IsUpdate;
    forall m | m in kept && m.rank != rank ensures HasKey(before, m) {
      var i :| 0 <= i < |kept| && kept[i] == m;
      assert updated[i] in rest && SameKey(updated[i], m);
    }
    forall n | n in before && !Extracts(index, true, n) && n.rank != rank ensures HasKey(kept, n) {
      assert n in updated;
      var i :| 0 <= i < |updated| && updated[i] == n;
      assert kept[i] in kept && SameKey(kept[i], n);
    }
  }

  // ----- the nodes that travel ---------------------------------------------------------------------

  lemma {:induction false} GivenOnePerRank(before: seq<Node>, index: nat, given: seq<Node>)
    requires OnePerRank(before) && Given(before, index, given)
    ensures OnePerRank(given) && forall n :: n in given ==> n.status != LOST && HasKey(before, n)
  {
    hide Extracts;
    forall n | n in given ensures n.status != LOST && HasKey(before, n) {
      var x :| x in before && Extracts(index, true, x) && x.status != LOST && n == Cleaned(x);
      assert SameKey(x, n);
    }
    forall m, n | m in given && n in given && m.rank == n.rank ensures m == n {
      var x :| x in before && Extracts(index, true, x) && x.status != LOST && m == Cleaned(x);
      var y :| y in before && Extracts(index, true, y) && y.status != LOST && n == Cleaned(y);
      assert x == y;
    }
  }

  lemma {:induction false} SameSide(given: seq<Node>, half: seq<Node>, side: seq<Node>, i: nat, j: nat)
    requires OnePerRank(given) && (forall n :: n in half ==> n in given) && Sorted(half) && OnlyStatuses(side, half)
    requires i < |side| && j < |side| && side[i].rank == side[j].rank
    ensures i == j
  {
    assert half[i] in half && half[j] in half;
    assert half[i] == half[j];
    assert forall k, l :: 0 <= k < l < |half| ==> !SameKey(half[k], half[l]);
  }

  lemma {:induction false} OtherSide(given: seq<Node>, l0: seq<Node>, r0: seq<Node>, l: seq<Node>, r: seq<Node>,
      i: nat, j: nat)
    requires OnePerRank(given) && (forall n :: n in given <==> n in l0 || n in r0) && (forall n :: n in l0 ==> n !in r0)
    requires OnlyStatuses(l, l0) && OnlyStatuses(r, r0) && i < |l| && j < |r|
    ensures l[i].rank != r[j].rank
  {
    assert l0[i] in l0 && r0[j] in r0;
    assert l0[i] in given && r0[j] in given && l0[i] != r0[j];
  }

  ghost predicate OneNodePerRank(l: seq<Node>, r: seq<Node>) {
    forall m, n :: (m in l || m in r) && (n in l || n in r) && m.rank == n.rank ==> m == n
  }

  /** Both sides together hold the given nodes up to status: one per rank, none of them lost. */
  lemma {:induction false} SidesOfGiven(given: seq<Node>, index: nat, l: seq<Node>, r: seq<Node>)
    requires OnePerRank(given) && HalvesOf(given, index, l, r) && forall n :: n in given ==> n.status != LOST
    ensures OneNodePerRank(l, r)
    ensures forall m :: m in l || m in r ==> m.status != LOST && HasKey(given, m)
    ensures forall n :: n in given ==> exists m :: (m in l || m in r) && SameKey(m, n)
  {
    var l0, r0 :| IsSplit(given, index, l0, r0) && OnlyStatuses(l, l0) && OnlyStatuses(r, r0);
    assert Sorted(l0) && Sorted(r0) && (forall n :: n in given <==> n in l0 || n in r0)
      && (forall n :: n in l0 ==> n !in r0);
    hide IsSplit, OneNodePerRank, Sorted;
    forall m | m in l || m in r ensures m.status != LOST && HasKey(given, m) {
      if m in l {
        var i :| 0 <= i < |l| && l[i] == m;
        assert l0[i] in given && SameKey(l0[i], m);
      } else {
        var i :| 0 <= i < |r| && r[i] == m;
        assert r0[i] in given && SameKey(r0[i], m);
      }
    }
    forall n | n in given ensures exists m :: (m in l || m in r) && SameKey(m, n) {
      if n in l0 {
        var i :| 0 <= i < |l0| && l0[i] == n;
        assert l[i] in l && SameKey(l[i], n);
      } else {
        var i :| 0 <= i < |r0| && r0[i] == n;
        assert r[i] in r && SameKey(r[i], n);
      }
    }
    SidesDistinct(given, l0, r0, l, r);
  }

  lemma {:induction false} SidesDistinct(given: seq<Node>, l0: seq<Node>, r0: seq<Node>, l: seq<Node>, r: seq<Node>)
    requires OnePerRank(given) && (forall n :: n in given <==> n in l0 || n in r0) && (forall n :: n in l0 ==> n !in r0)
    requires Sorted(l0) && Sorted(r0) && OnlyStatuses(l, l0) && OnlyStatuses(r, r0)
    ensures OneNodePerRank(l, r)
  {
    forall i: nat, j: nat | i < |l| && j < |l| && l[i].rank == l[j].rank
      ensures i == j
    {
      SameSide(given, l0, l, i, j);
    }
    forall i: nat, j: nat | i < |r| && j < |r| && r[i].rank == r[j].rank
      ensures i == j
    {
      SameSide(given, r0, r, i, j);
    }
    forall i: nat, j: nat | i < |l| && j < |r| ensures l[i].rank != r[j].rank { OtherSide(given, l0, r0, l, r, i, j); }
  }

  lemma {:induction false} ReturnedOther(before: seq<Node>, index: nat, given: seq<Node>, l: seq<Node>,
      r: seq<Node>, own: Node, returned: seq<Node>)
    requires OnePerRank(before) && Given(before, index, given) && HalvesOf(given, index, l, r)
    requires ReturnedBy(l, r, own, returned) && own.status == AVAILABLE
    ensures KeysFrom(returned, before, own.rank) && own in returned
    ensures forall n :: n in before && Extracts(index, true, n) && n.status != LOST ==> HasKey(returned, n)
  {
    GivenOnePerRank(before, index, given);
    SidesOfGiven(given, index, l, r);
    NoLostTwin(l, r, own, returned);
    hide Extracts, HalvesOf, ReturnedBy;
    forall m | m in returned && m.rank != own.rank ensures HasKey(before, m) {
      NothingElseReturned(l, r, own, returned, m);
      var x :| (x in l || x in r) && x.status != LOST && m == Cleaned(x);
      var y :| y in given && SameKey(y, x);
      var z :| z in before && SameKey(z, y);
      assert SameKey(z, m);
    }
    forall n | n in before && Extracts(index, true, n) && n.status != LOST ensures HasKey(returned, n) {
      assert Cleaned(n) in given;
      var m :| (m in l || m in r) && SameKey(m, Cleaned(n));
      assert StrictlyNewest(l, r, m);
      NewestReturned(l, r, own, returned, m);
      assert SameKey(Cleaned(m), n);
    }
  }

  lemma {:induction false} NoLostTwin(l: seq<Node>, r: seq<Node>, own: Node, returned: seq<Node>)
    requires ReturnedBy(l, r, own, returned) && own.status == AVAILABLE
    requires forall m :: m in l || m in r ==> m.status != LOST
    ensures own in returned
  {
    var merged: seq<Node> :| MergesBoth(l, r, merged) && ReturnsFrom(merged, own, returned);
    BothMerged(l, r, merged);
    hide MergesBoth;
    OwnReturnedIff(merged, own, returned);
  }

  // ----- the exchange -----------------------------------------------------------------------------

  lemma {:induction false} Returned(before: seq<Node>, kept: seq<Node>, returned: seq<Node>, after: seq<Node>,
      rank: int, index: nat)
    requires OnePerRank(before) && KeysFrom(kept, before, rank) && KeysFrom(returned, before, rank)
    requires forall n :: n in before && !Extracts(index, true, n) && n.rank != rank ==> HasKey(kept, n)
    requires forall n :: n in before && Extracts(index, true, n) && n.status != LOST ==> HasKey(returned, n)
    requires forall n :: n in after ==> n in kept || n in returned
    requires forall n :: n in kept || n in returned ==> Covered(after, n)
    ensures forall n :: n in before && n.rank != rank && !(n.status == LOST && Extracts(index, true, n)) ==>
              HasKey(after, n)
  {
    hide Extracts, OnePerRank, HasKey, Covered, KeysFrom;
    forall n | n in before && n.rank != rank && !(n.status == LOST && Extracts(index, true, n))
      ensures HasKey(after, n)
    {
      assert HasKey(kept, n) || HasKey(returned, n);
      if HasKey(kept, n) { FoundAgain(before, kept, kept, returned, after, rank, n); }
      else { FoundAgain(before, returned, kept, returned, after, rank, n); }
    }
  }

  /** The merge keeps a node of the same rank, and that can only be the same node. */
  lemma {:induction false} FoundAgain(before: seq<Node>, part: seq<Node>, kept: seq<Node>, returned: seq<Node>,
      after: seq<Node>, rank: int, n: Node)
    requires OnePerRank(before) && KeysFrom(kept, before, rank) && KeysFrom(returned, before, rank)
    requires n in before && n.rank != rank && HasKey(part, n) && (part == kept || part == returned)
    requires forall n :: n in after ==> n in kept || n in returned
    requires forall n :: n in kept || n in returned ==> Covered(after, n)
    ensures HasKey(after, n)
  {
    var x :| x in part && SameKey(x, n);
    assert Covered(after, x);
    var m :| m in after && m.rank == x.rank && m.lastEpoch >= x.lastEpoch;
    hide Covered;
    assert HasKey(before, m);
    var y :| y in before && SameKey(y, m);
    assert y == n;
  }

  /**
   A child joins, receives the nodes of its subtree and is suspended again before it has children of its own.
   Afterwards the parent holds every node of another rank that it held before, except the lost ones among
   those handed out, and the child itself is one of its inactive nodes.
   */
  method ExchangeAtOnce(parent: ChildInterface, child: LocalScheduler, joinEpoch: Int32)
    requires parent.Valid() && OnePerRank(parent.nodes)
    requires child.Valid() && child.suspended && child.index == parent.childIndex > 0
    requires child.epochOfLastSuspension < joinEpoch
    modifies parent, child
    ensures parent.Valid() && !parent.childHasNodes && OnePerRank(parent.nodes)
    ensures child.Valid() && child.suspended
    ensures child.initsReceived == old(child.initsReceived) + 1 && child.returnsSent == old(child.returnsSent) + 1
    ensures forall n :: (n in old(parent.nodes) && n.rank != child.myRank
                         && !(n.status == LOST && Extracts(parent.childIndex, true, n))) ==>
                          HasKey(parent.nodes, n)
    ensures exists n :: n in parent.nodes && n.rank == child.myRank
  {
    ghost var before := parent.nodes;
    hide Extracts;
    var given, released := parent.HandleChildJoining(child.myRank, parent.childIndex, joinEpoch);
    ghost var kept := parent.nodes;
    KeptOther(before, kept, child.myRank, parent.childIndex, joinEpoch);
    assert Sorted(given);
    hide Given, Kept, OnePerRank, Sorted, KeysFrom, HasKey, Covered;
    var returned := ReceiveAndReturn(child, Update(joinEpoch, parent.volume, given), before);
    parent.AddJobNodesFromSuspendedChild(returned);
    Returned(before, kept, returned, parent.nodes, child.myRank, parent.childIndex);
  }

  /** The child's part: it opens its sessions with the given nodes and closes them again. */
  method ReceiveAndReturn(child: LocalScheduler, update: Update, ghost before: seq<Node>) returns (returned: seq<Node>)
    requires child.Valid() && child.suspended && child.index > 0 && child.epochOfLastSuspension < update.epoch
    requires OnePerRank(before) && Given(before, child.index, update.nodes) && Sorted(update.nodes)
    modifies child
    ensures child.Valid() && child.suspended
    ensures child.initsReceived == old(child.initsReceived) + 1 && child.returnsSent == old(child.returnsSent) + 1
    ensures Sorted(returned) && KeysFrom(returned, before, child.myRank)
    ensures exists n :: n in returned && n.rank == child.myRank
    ensures forall n :: n in before && Extracts(child.index, true, n) && n.status != LOST ==> HasKey(returned, n)
  {
    hide Given, Extracts, OnePerRank, Sorted, HalvesOf, ReturnedBy, KeysFrom, HasKey;
    var requests, bounced := child.HandleInitialize(update, 0);
    ghost var l, r := child.left.nodes, child.right.nodes;
    var closing := child.BeginSuspension(-1);
    returned := closing.value;
    ReturnedOther(before, child.index, update.nodes, l, r, child.Own(), returned);
  }

  // ----- any sequence of calls ------------------------------------------------------------------------

  lemma {:induction false} StepSorted(index: nat, v: Sides, c: Call, v': Sides, given: Option<seq<Node>>)
    requires Steps(index, v, c, v', given) && Sorted(v.left.nodes) && Sorted(v.right.nodes)
    ensures Sorted(v'.left.nodes) && Sorted(v'.right.nodes)
  {
    hide Sorted, OnlyStatuses, Kept, Given, OnePerRank, Covered;
  }

  lemma {:induction false} LongerVisit(index: nat, trace: seq<Sides>, calls: seq<Call>,
      givens: seq<Option<seq<Node>>>, k: nat, v': Sides, given: Option<seq<Node>>)
    requires k < |calls| && Visit(index, trace, calls[..k], givens) && Steps(index, trace[k], calls[k], v', given)
    ensures Visit(index, trace + [v'], calls[..k + 1], givens + [given])
  {
    StepSorted(index, trace[k], calls[k], v', given);
    hide Steps, Sorted;
    assert calls[..k + 1] == calls[..k] + [calls[k]];
  }

  /** Serves one call. */
  method Dispatch(child: LocalScheduler, c: Call) returns (given: Option<seq<Node>>, returned: Option<seq<Node>>)
    requires child.Valid() && !child.suspended && child.index > 0 && (c.Return? ==> Sorted(c.nodes))
    modifies child, child.Repr()
    ensures child.Valid() && fresh(child.Repr() - old(child.Repr()))
    ensures child.Answers(old(child.View()), c, given, returned)
    ensures child.suspended <==> returned.Some?
    ensures returned.Some? ==> Sorted(returned.value)
    ensures child.initsReceived == old(child.initsReceived)
  {
    hide Steps, ReturnedBy;
    given, returned := None, None;
    var requests: seq<Request>;
    match c
    case Balance(epoch, volume, hasLeftChild, hasRightChild) =>
      requests, returned := child.UpdateBalancing(epoch, volume, hasLeftChild, hasRightChild);
    case Suspend(epoch) =>
      ghost var v := child.View();
      assert Steps(child.index, v, c, v, None) by { SameStep(child.index, v, epoch); }
      returned := child.BeginSuspension(epoch);
    case Reject(epoch, childIndex, lost, hasChild) =>
      requests := child.HandleRejectReactivation(epoch, childIndex, lost, hasChild);
    case Join(source, epoch, childIndex) =>
      var update := child.HandleChildJoining(source, epoch, childIndex);
      given := if update.Some? then Some(update.value.nodes) else None;
    case Return(nodes, source) =>
      requests, returned := child.HandleReturn(nodes, source);
    case Freed(rank, epoch, nodeIndex) =>
      child.HandleNodeFreed(rank, epoch, nodeIndex);
  }

  lemma {:induction false} SameStep(index: nat, v: Sides, epoch: Int32)
    ensures Steps(index, v, Suspend(epoch), v, None)
  {
  }

  /** Serves calls until the scheduler closes its suspension. */
  method ServeCalls(child: LocalScheduler, calls: seq<Call>)
      returns (returned: Option<seq<Node>>, served: nat, ghost trace: seq<Sides>, ghost givens: seq<Option<seq<Node>>>)
    requires child.Valid() && !child.suspended && child.index > 0
    requires forall i :: 0 <= i < |calls| && calls[i].Return? ==> Sorted(calls[i].nodes)
    modifies child, child.Repr()
    ensures child.Valid() && served <= |calls| && Visit(child.index, trace, calls[..served], givens)
    ensures trace[0] == old(child.View())
    ensures child.suspended <==> returned.Some?
    ensures child.Outcome(trace[served], returned)
    ensures returned == None ==> served == |calls|
    ensures returned.Some? ==> Sorted(returned.value)
    ensures child.initsReceived == old(child.initsReceived)
  {
    returned, served, givens := None, 0, [];
    trace := [child.View()];
    assert Visit(child.index, trace, calls[..0], givens);
    hide Visit, Steps, ReturnedBy;
    while served < |calls| && returned == None
      invariant child.Valid() && served <= |calls| && |trace| == served + 1
      invariant Visit(child.index, trace, calls[..served], givens)
      invariant trace[0] == old(child.View()) && child.Outcome(trace[served], returned)
      invariant child.suspended <==> returned.Some?
      invariant returned.Some? ==> Sorted(returned.value)
      invariant fresh(child.Repr() - old(child.Repr())) && child.initsReceived == old(child.initsReceived)
      decreases |calls| - served
    {
      ghost var given: Option<seq<Node>>;
      given, returned := Dispatch(child, calls[served]);
      ghost var v' :| Steps(child.index, trace[served], calls[served], v', given) && child.Outcome(v', returned);
      LongerVisit(child.index, trace, calls, givens, served, v', given);
      trace, givens, served := trace + [v'], givens + [given], served + 1;
    }
  }

  /** Both sides of a scheduler that was just initialized hold what it was given. */
  lemma {:induction false} GivenStarts(before: seq<Node>, index: nat, given: seq<Node>, v: Sides, n: Node)
    requires Given(before, index, given) && HalvesOf(given, index, v.left.nodes, v.right.nodes)
    requires n in before && Extracts(index, true, n) && n.status != LOST
    ensures StartsWith(v, n.rank, n.lastEpoch)
  {
    var l0, r0 :| IsSplit(given, index, l0, r0) && OnlyStatuses(v.left.nodes, l0) && OnlyStatuses(v.right.nodes, r0);
    assert forall m :: m in given <==> m in l0 || m in r0;
    hide IsSplit;
    assert Cleaned(n) in given;
    assert HasAt(l0, n.rank, n.lastEpoch) || HasAt(r0, n.rank, n.lastEpoch);
    assert forall m :: m in given ==> m.status != LOST;
    hide Given, Extracts;
    assert NoLost(l0, n.rank) && NoLost(r0, n.rank);
    StatusesConserve(l0, v.left.nodes, n.rank);
    StatusesConserve(r0, v.right.nodes, n.rank);
  }

  lemma {:induction false} GivenScoped(before: seq<Node>, index: nat, given: seq<Node>, v: Sides)
    requires Given(before, index, given) && HalvesOf(given, index, v.left.nodes, v.right.nodes)
    ensures BothScoped(index, v)
  {
    assert Scoped(index, given);
    var l0, r0 :| IsSplit(given, index, l0, r0) && OnlyStatuses(v.left.nodes, l0) && OnlyStatuses(v.right.nodes, r0);
    assert forall m :: m in given <==> m in l0 || m in r0;
    hide IsSplit, Given, Scoped;
    StatusesScoped(index, l0, v.left.nodes);
    StatusesScoped(index, r0, v.right.nodes);
  }

  /**
   A child joins, serves any sequence of calls, and returns when it is suspended and its own children have
   returned. Afterwards the parent holds every node it kept, of other ranks than the child's, and every rank it
   handed out that was spared, at least as new; and the child itself, if its children returned descendants.
   */
  method Exchange(parent: ChildInterface, child: LocalScheduler, joinEpoch: Int32, calls: seq<Call>)
      returns (closed: bool, served: nat, ghost trace: seq<Sides>, ghost givens: seq<Option<seq<Node>>>)
    requires parent.Valid() && child.Valid() && child.suspended && child.index == parent.childIndex > 0
    requires child.epochOfLastSuspension < joinEpoch
    requires forall i :: 0 <= i < |calls| && calls[i].Return? ==> Sorted(calls[i].nodes)
    modifies parent, child
    ensures parent.Valid() && child.Valid() && (closed <==> child.suspended)
    ensures served <= |calls| && Visit(child.index, trace, calls[..served], givens)
    ensures closed ==> child.returnsSent == old(child.returnsSent) + 1
    ensures closed ==> forall n :: n in old(parent.nodes) ==>
              Exchanged(n, child.index, trace, calls[..served], givens, child.myRank, parent.nodes)
    ensures closed && ReturnsScoped(child.index, calls[..served]) ==> HasRank(parent.nodes, child.myRank)
  {
    ghost var before := parent.nodes;
    var given, released := parent.HandleChildJoining(child.myRank, parent.childIndex, joinEpoch);
    ghost var kept := parent.nodes;
    KeptOther(before, kept, child.myRank, parent.childIndex, joinEpoch);
    assert Sorted(given);
    hide Given, Kept, HalvesOf, Sorted, Visit, ReturnedBy, Exchanged, Merges, HasKey, ReturnsScoped;
    var requests, bounced := child.HandleInitialize(Update(joinEpoch, parent.volume, given), 0);
    ghost var start := child.View();
    var returned;
    returned, served, trace, givens := ServeCalls(child, calls);
    closed := returned.Some?;
    if closed {
      parent.AddJobNodesFromSuspendedChild(returned.value);
      ExchangeDone(before, kept, given, child.index, trace, calls[..served], givens, child.Own(), returned.value,
          parent.nodes);
    }
  }

  lemma {:induction false} ExchangeDone(before: seq<Node>, kept: seq<Node>, given: seq<Node>, index: nat,
      trace: seq<Sides>, calls: seq<Call>, givens: seq<Option<seq<Node>>>, own: Node, returned: seq<Node>,
      after: seq<Node>)
    requires forall n :: n in before && !Extracts(index, true, n) && n.rank != own.rank ==> HasKey(kept, n)
    requires Given(before, index, given) && Visit(index, trace, calls, givens)
    requires HalvesOf(given, index, trace[0].left.nodes, trace[0].right.nodes) && own.originalIndex == index
    requires var v := trace[|calls|];
             && !v.left.childHasNodes && !v.right.childHasNodes
             && ReturnedBy(v.left.nodes, v.right.nodes, own, returned)
    requires Merges(kept, returned, after)
    ensures forall n :: n in before ==> Exchanged(n, index, trace, calls, givens, own.rank, after)
    ensures ReturnsScoped(index, calls) ==> HasRank(after, own.rank)
  {
    assert forall n :: n in kept || n in returned ==> Covered(after, n) by {
      hide *;
      MergeCovers(kept, returned, after);
    }
    assert |trace| == |calls| + 1 && |givens| == |calls|;
    hide Merges, Extracts, Visit, ReturnedBy, HalvesOf, Given, Spared, LedgerAt, StartsWith;
    forall n | n in before ensures Exchanged(n, index, trace, calls, givens, own.rank, after) {
      if !Extracts(index, true, n) {
        if n.rank != own.rank {
          var m :| m in kept && SameKey(m, n);
          CoveredTwice(after, m, n);
        }
      } else if n.status != LOST && Spared(index, trace, calls, givens, n.rank, n.lastEpoch, |calls|) {
        GivenStarts(before, index, given, trace[0], n);
        VisitConserves(index, trace, calls, givens, own, returned, n.rank, n.lastEpoch);
        RankKept(returned, after, n.rank, LedgerAt(index, trace, calls, givens, n.rank, n.lastEpoch, |calls|).floor);
      }
    }
    if ReturnsScoped(index, calls) {
      GivenScoped(before, index, given, trace[0]);
      hide ReturnsScoped, BothScoped;
      VisitReturnsOwn(index, trace, calls, givens, own, returned);
      assert Covered(after, own);
    }
  }

  lemma {:induction false} MergeCovers(a: seq<Node>, b: seq<Node>, r: seq<Node>)
    requires Merges(a, b, r)
    ensures forall n :: n in a || n in b ==> Covered(r, n)
  {
  }

  lemma {:induction false} RankKept(returned: seq<Node>, after: seq<Node>, rank: int, floor: int)
    requires HasAt(returned, rank, floor) && forall n :: n in returned ==> Covered(after, n)
    ensures HasAt(after, rank, floor)
  {
    var n :| n in returned && n.rank == rank && n.lastEpoch >= floor;
    assert Covered(after, n);
  }

  /** What the exchange means for a node the parent held before. */
  ghost predicate Exchanged(n: Node, index: nat, trace: seq<Sides>, calls: seq<Call>,
      givens: seq<Option<seq<Node>>>, childRank: int, after: seq<Node>)
    requires |trace| == |calls| + 1 && |givens| == |calls|
  {
    if !Extracts(index, true, n) then n.rank != childRank ==> Covered(after, n)
    else n.status != LOST && Spared(index, trace, calls, givens, n.rank, n.lastEpoch, |calls|) ==>
      HasAt(after, n.rank, LedgerAt(index, trace, calls, givens, n.rank, n.lastEpoch, |calls|).floor)
  }
}
