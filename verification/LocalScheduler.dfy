/** Suspension, return of inactive nodes and resumption of one node of a job tree. */
module LocalScheduling {
  import opened Basics
  import opened TreeIndices
  import opened InactiveNodes
  import opened Sessions
  import opened NodeReturns
  import opened SchedulerSteps

  /** Nodes sent from a parent to a child, with the epoch and volume the parent knows (-1: none). */
  datatype Update = Update(epoch: Int32, volume: int, nodes: seq<Node>)

  /** A request for a child; a directed one names the rank that is asked. */
  datatype Request = Directed(epoch: int, index: nat, rank: int) | Undirected(epoch: int, index: nat)

  function Applied(d: Directive, epoch: int, index: nat, rank: int): seq<Request> {
    match d
    case DO_NOTHING => []
    case EMIT_DIRECTED_REQUEST => [Directed(epoch, index, rank)]
    case EMIT_UNDIRECTED_REQUEST => [Undirected(epoch, index)]
  }

  /** A child that is wanted is requested once: from the first node of its index that is not lost, if there is one. */
  ghost predicate Asked(requests: seq<Request>, nodes: seq<Node>, childIndex: nat, epoch: int, wanted: bool) {
    if !wanted then requests == []
    else if exists i :: FirstOf(nodes, childIndex, i) then
      exists i :: FirstOf(nodes, childIndex, i) && requests == [Directed(epoch, childIndex, nodes[i].rank)]
    else requests == [Undirected(epoch, childIndex)]
  }

  /** The left child is requested before the right one. */
  ghost predicate AskedBoth(requests: seq<Request>, left: seq<Node>, right: seq<Node>, index: nat, epoch: int,
      wantsLeft: bool, wantsRight: bool) {
    exists a, b :: requests == a + b && Asked(a, left, LeftChild(index), epoch, wantsLeft)
                   && Asked(b, right, RightChild(index), epoch, wantsRight)
  }

  /** The next available node of the child's index is asked directly, while there is one and attempts are left. */
  ghost predicate NextAsked(requests: seq<Request>, nodes: seq<Node>, queries: nat, epoch: int, childIndex: nat) {
    if queries < 4 && exists n :: n in nodes && n.status == AVAILABLE && n.originalIndex == childIndex
    then exists i :: FirstCandidate(nodes, childIndex, i) && requests == [Directed(epoch, childIndex, nodes[i].rank)]
    else requests == [Undirected(epoch, childIndex)]
  }

  /** After a rejection, the asked node has a new status and another one is asked. */
  ghost predicate AskedAgain(requests: seq<Request>, s: Side, queries: nat, sessionEpoch: int, childIndex: nat,
      epoch: Int32, status: Status) {
    exists nodes ::
      IsUpdate(s.nodes, nodes, s.childRank, childIndex, epoch, status)
      && NextAsked(requests, nodes, queries, sessionEpoch, childIndex)
  }

  class LocalScheduler {
    const myRank: int
    const index: nat
    var parentRank: int
    var left: ChildInterface?
    var right: ChildInterface?
    var epochOfLastSuspension: Int32
    var lastUpdateEpoch: Int32
    var lastUpdateVolume: int
    var suspending: bool
    var suspended: bool
    var resuming: bool
    ghost var initsReceived: nat
    ghost var returnsSent: nat

    ghost function Repr(): set<object>
      reads this
    {
      (if left != null then {left} else {}) + (if right != null then {right} else {})
    }

    /** Sessions exist exactly while the scheduler is not suspended. */
    ghost predicate Consistent()
      reads this, Repr()
    {
      && (left == null <==> suspended) && (right == null <==> suspended)
      && (left != null && right != null ==>
            && left != right && left.Valid() && right.Valid()
            && left.childIndex == LeftChild(index) && right.childIndex == RightChild(index))
      && !(suspended && suspending)
      && (resuming ==> index == 0 && suspending)
    }

    /** Both sides, while the scheduler is not suspended. */
    ghost function View(): Sides
      requires left != null && right != null
      reads this, left, right
    {
      Sides(left.AsSide(), right.AsSide())
    }

    /** This node as an inactive node. */
    function Own(): Node
      reads this
    {
      Node(myRank, index, lastUpdateEpoch, AVAILABLE)
    }

    /** Some child has not yet returned the nodes it was given. */
    predicate ChildrenHoldNodes()
      reads this, left, right
    {
      (left != null && left.childHasNodes) || (right != null && right.childHasNodes)
    }

    /**
     Every initialization is answered by one return, except while the scheduler is not suspended. A scheduler
     that could complete its suspension or resumption has done so: it waits only for nodes held by a child.
     */
    ghost predicate Valid()
      reads this, Repr()
    {
      && Consistent()
      && (index > 0 ==> initsReceived == returnsSent + if suspended then 0 else 1)
      && (index == 0 ==> returnsSent == 0)
      && (suspending && index > 0 ==> ChildrenHoldNodes())
      && (resuming ==> ChildrenHoldNodes())
    }

    constructor (myRank: int, index: nat, parentRank: int)
      ensures Valid() && suspended && this.index == index && this.myRank == myRank
      ensures initsReceived == 0 && returnsSent == 0
    {
      this.myRank, this.index, this.parentRank := myRank, index, parentRank;
      left, right := null, null;
      epochOfLastSuspension, lastUpdateEpoch, lastUpdateVolume := -1, -1, -1;
      suspending, suspended, resuming := false, true, false;
      initsReceived, returnsSent := 0, 0;
    }

    /** An update from before the last suspension. */
    predicate Past(update: Update)
      reads this
    {
      index > 0 && update.epoch <= epochOfLastSuspension
    }

    // ----- initialization ----------------------------------------------------------------------

    /** Sends a past update back; otherwise opens both sessions, each with the nodes of its subtree. */
    method InitializeScheduling(update: Update, parentRank: int)
        returns (requests: seq<Request>, returned: Option<seq<Node>>)
      requires Sorted(update.nodes)
      requires Past(update) || (left == null && right == null && !suspending && !resuming)
      modifies `parentRank, `left, `right, `lastUpdateEpoch, `lastUpdateVolume, `suspended
      ensures this.parentRank == parentRank
      ensures old(Past(update)) ==>
                && returned == Some(update.nodes) && requests == [] && left == old(left) && right == old(right)
                && suspended == old(suspended) && lastUpdateEpoch == old(lastUpdateEpoch)
                && lastUpdateVolume == old(lastUpdateVolume)
      ensures !old(Past(update)) ==>
                && returned == None && !suspended && Consistent() && fresh(left) && fresh(right)
                && !left.childHasNodes && !right.childHasNodes
                && (update.volume >= 0 && update.epoch > old(lastUpdateEpoch) ==>
                      lastUpdateEpoch == update.epoch && lastUpdateVolume == update.volume)
                && (!(update.volume >= 0 && update.epoch > old(lastUpdateEpoch)) ==>
                      lastUpdateEpoch == old(lastUpdateEpoch) && lastUpdateVolume == old(lastUpdateVolume))
                && Wanted(requests, index, lastUpdateEpoch, lastUpdateVolume)
                && HalvesOf(update.nodes, index, left.nodes, right.nodes)
      ensures !old(Past(update)) ==>
                AskedBoth(requests, update.nodes, update.nodes, index, lastUpdateEpoch,
                    lastUpdateEpoch >= 0 && LeftChild(index) < lastUpdateVolume,
                    lastUpdateEpoch >= 0 && RightChild(index) < lastUpdateVolume)
    {
      this.parentRank := parentRank;
      if Past(update) { return [], Some(update.nodes); }
      if update.volume >= 0 && update.epoch > lastUpdateEpoch {
        lastUpdateEpoch, lastUpdateVolume := update.epoch, update.volume;
      }
      suspended := false;
      hide AskedBoth, Wanted, HalvesOf, Sorted;
      requests := OpenSessions(update.nodes);
      returned := None;
    }

    /** Opens both sessions with the nodes of their subtrees. */
    method OpenSessions(nodes: seq<Node>) returns (requests: seq<Request>)
      requires Sorted(nodes)
      modifies `left, `right
      ensures left != null && right != null && left != right && fresh(left) && fresh(right)
      ensures left.Valid() && right.Valid() && !left.childHasNodes && !right.childHasNodes
      ensures left.childIndex == LeftChild(index) && right.childIndex == RightChild(index)
      ensures HalvesOf(nodes, index, left.nodes, right.nodes)
      ensures Wanted(requests, index, lastUpdateEpoch, lastUpdateVolume)
      ensures AskedBoth(requests, nodes, nodes, index, lastUpdateEpoch,
                  lastUpdateEpoch >= 0 && LeftChild(index) < lastUpdateVolume,
                  lastUpdateEpoch >= 0 && RightChild(index) < lastUpdateVolume)
    {
      var leftNodes, rightNodes := Split(nodes, index);
      hide IsSplit, HalvesOf, AskedBoth, Asked, Sorted;
      left := new ChildInterface(0, leftNodes, LeftChild(index));
      var a := OpenSession(left);
      right := new ChildInterface(0, rightNodes, RightChild(index));
      var b := OpenSession(right);
      requests := a + b;
      HalvesKept(nodes, index, leftNodes, rightNodes, left.nodes, right.nodes);
      AskedOfHalves(nodes, index, leftNodes, rightNodes, a, b, lastUpdateEpoch,
          lastUpdateEpoch >= 0 && LeftChild(index) < lastUpdateVolume,
          lastUpdateEpoch >= 0 && RightChild(index) < lastUpdateVolume);
    }

    /** A new session learns the last known epoch and volume, if any. */
    method OpenSession(session: ChildInterface) returns (requests: seq<Request>)
      requires session.Valid() && (session.childIndex == LeftChild(index) || session.childIndex == RightChild(index))
      modifies session
      ensures session.Valid() && Refreshes(old(session.AsSide()), session.AsSide())
      ensures Wanted(requests, index, lastUpdateEpoch, lastUpdateVolume)
      ensures old(session.epoch) == -1 ==>
                Asked(requests, old(session.nodes), session.childIndex, lastUpdateEpoch,
                    lastUpdateEpoch >= 0 && session.childIndex < lastUpdateVolume)
    {
      requests := [];
      if lastUpdateEpoch >= 0 {
        requests := UpdateSession(session, lastUpdateEpoch, lastUpdateVolume, false);
      } else {
        SameStatuses(session.nodes);
      }
    }

    method UpdateSession(session: ChildInterface, epoch: Int32, volume: int, hasChild: bool)
        returns (requests: seq<Request>)
      requires session.Valid()
      modifies session
      ensures session.Valid() && Refreshes(old(session.AsSide()), session.AsSide())
      ensures requests != [] <==> epoch > old(session.epoch) && !hasChild && session.childIndex < volume
      ensures forall r :: r in requests ==> r.epoch == epoch && r.index == session.childIndex
      ensures Asked(requests, old(session.nodes), session.childIndex, epoch,
                  epoch > old(session.epoch) && !hasChild && session.childIndex < volume)
    {
      var d, released := session.HandleBalancingUpdate(epoch, volume, hasChild);
      requests := Applied(d, session.epoch, session.childIndex, session.childRank);
    }

    // ----- balancing updates and suspension ----------------------------------------------------------

    /** A newer epoch reaches both sessions; a non-root node outside the volume is suspended. */
    method UpdateBalancing(epoch: Int32, volume: int, hasLeftChild: bool, hasRightChild: bool)
        returns (requests: seq<Request>, returned: Option<seq<Node>>)
      requires Valid()
      modifies this, Repr()
      ensures Valid() && Repr() <= old(Repr()) && initsReceived == old(initsReceived)
      ensures returnsSent == old(returnsSent) + if returned.Some? then 1 else 0
      ensures returned.Some? <==> epoch > old(lastUpdateEpoch) && !old(suspending || suspended)
                                  && volume <= index && index > 0 && !old(ChildrenHoldNodes())
      ensures epoch <= old(lastUpdateEpoch) ==>
                requests == [] && lastUpdateEpoch == old(lastUpdateEpoch) && suspending == old(suspending)
      ensures epoch > old(lastUpdateEpoch) ==> lastUpdateEpoch == epoch && lastUpdateVolume == volume
      ensures requests != [] ==>
                !old(suspended) && !old(suspending) && Wanted(requests, index, lastUpdateEpoch, lastUpdateVolume)
      ensures epoch > old(lastUpdateEpoch) && !old(suspending || suspended) ==>
                ((suspending || suspended) <==> volume <= index && index > 0)
      ensures epoch <= old(lastUpdateEpoch) || old(suspending || suspended) ==> requests == []
      ensures epoch > old(lastUpdateEpoch) && !old(suspending || suspended) ==>
                AskedBoth(requests, old(left.nodes), old(right.nodes), index, epoch,
                    epoch > old(left.epoch) && !hasLeftChild && LeftChild(index) < volume,
                    epoch > old(right.epoch) && !hasRightChild && RightChild(index) < volume)
      ensures !old(suspended) ==>
                Answers(old(View()), Balance(epoch, volume, hasLeftChild, hasRightChild), None, returned)
    {
      requests, returned := [], None;
      if !suspended { SameSides(View()); }
      hide Refreshes;
      ghost var call := Balance(epoch, volume, hasLeftChild, hasRightChild);
      assert !suspended ==> Steps(index, View(), call, View(), None);
      if lastUpdateEpoch >= epoch { return; }
      lastUpdateEpoch, lastUpdateVolume := epoch, volume;
      if suspending || suspended { return; }
      var a := UpdateSession(left, epoch, volume, hasLeftChild);
      var b := UpdateSession(right, epoch, volume, hasRightChild);
      requests := a + b;
      assert AskedBoth(requests, old(left.nodes), old(right.nodes), index, epoch,
          epoch > old(left.epoch) && !hasLeftChild && LeftChild(index) < volume,
          epoch > old(right.epoch) && !hasRightChild && RightChild(index) < volume);
      hide AskedBoth, Asked, Wanted;
      assert Steps(index, old(View()), call, View(), None);
      hide Steps;
      if volume <= index && index > 0 { returned := BeginSuspension(epoch); }
    }

    /**
     The scheduler has served a call: either it is still open with both sides as the call left them, or it has
     closed its suspension and returned their nodes to its parent, while neither child held nodes.
     */
    ghost predicate Answers(v: Sides, c: Call, given: Option<seq<Node>>, returned: Option<seq<Node>>)
      reads this, left, right
    {
      exists v' :: Steps(index, v, c, v', given) && Outcome(v', returned)
    }

    ghost predicate Outcome(v': Sides, returned: Option<seq<Node>>)
      reads this, left, right
    {
      match returned
      case Some(nodes) =>
        && suspended && Sorted(nodes)
        && ReturnedBy(v'.left.nodes, v'.right.nodes, Node(myRank, index, lastUpdateEpoch, AVAILABLE), nodes)
        && !v'.left.childHasNodes && !v'.right.childHasNodes
      case None => left != null && right != null && View() == v'
    }

    /** Remembers the epoch, and suspends unless already done: at once if no child holds nodes. */
    method BeginSuspension(epoch: Int32) returns (returned: Option<seq<Node>>)
      requires Valid()
      modifies this, Repr()
      ensures Valid() && Repr() <= old(Repr()) && initsReceived == old(initsReceived)
      ensures returnsSent == old(returnsSent) + if returned.Some? then 1 else 0
      ensures returned.Some? <==> index > 0 && !old(suspended) && !old(ChildrenHoldNodes())
      ensures returned.Some? ==> Sorted(returned.value)
      ensures !old(suspended) ==> Outcome(old(View()), returned)
      ensures suspending || suspended
      ensures suspended == (old(suspended) || returned.Some?)
      ensures lastUpdateEpoch == old(lastUpdateEpoch) && lastUpdateVolume == old(lastUpdateVolume)
      ensures epochOfLastSuspension == if epoch == -1 then old(Max(lastUpdateEpoch, epochOfLastSuspension)) else epoch
    {
      epochOfLastSuspension := if epoch == -1 then Max(lastUpdateEpoch, epochOfLastSuspension) else epoch;
      returned := None;
      if !suspended {
        suspending := true;
        if CanReturnInactiveJobNodes() { returned := ReturnInactiveJobNodesToParent(); }
      }
    }

    predicate CanReturnInactiveJobNodes()
      reads this, left, right
    {
      index != 0 && !suspended && suspending && !ChildrenHoldNodes()
    }

    predicate CanResumeAsRoot()
      reads this, left, right
    {
      resuming && !ChildrenHoldNodes()
    }

    /** Closes the suspension: all inactive nodes of both sides and this node itself go to the parent. */
    method ReturnInactiveJobNodesToParent() returns (returned: Option<seq<Node>>)
      requires Consistent() && CanReturnInactiveJobNodes()
      requires initsReceived == returnsSent + 1
      modifies `left, `right, `suspending, `suspended, `returnsSent
      ensures Valid() && suspended && returnsSent == old(returnsSent) + 1
      ensures returned.Some? && Sorted(returned.value)
      ensures Outcome(old(View()), returned)
    {
      hide ReturnedBy;
      var nodes := CollectReturn(left.nodes, right.nodes, Own());
      returned := Some(nodes);
      suspending, suspended := false, true;
      left, right := null, null;
      returnsSent := returnsSent + 1;
    }

    // ----- messages ------------------------------------------------------------------------------------

    /** The parent's initialization, which comes only while the scheduler is suspended. */
    method HandleInitialize(update: Update, source: int) returns (requests: seq<Request>, returned: Option<seq<Node>>)
      requires Valid() && Sorted(update.nodes) && (suspended || Past(update))
      modifies this, Repr()
      ensures Valid() && fresh(Repr() - old(Repr()))
      ensures initsReceived == old(initsReceived) + 1
      ensures returnsSent == old(returnsSent) + if returned.Some? then 1 else 0
      ensures returned.Some? <==> old(Past(update))
      ensures returned.Some? ==> returned.value == update.nodes && suspended == old(suspended)
      ensures returned == None ==>
                !suspended && !suspending && !ChildrenHoldNodes()
                  && HalvesOf(update.nodes, index, left.nodes, right.nodes)
      ensures returned.Some? ==> requests == []
      ensures returned == None ==>
                AskedBoth(requests, update.nodes, update.nodes, index, lastUpdateEpoch,
                    lastUpdateEpoch >= 0 && LeftChild(index) < lastUpdateVolume,
                    lastUpdateEpoch >= 0 && RightChild(index) < lastUpdateVolume)
    {
      requests, returned := InitializeScheduling(update, source);
      assert !CanReturnInactiveJobNodes() && !CanResumeAsRoot();
      initsReceived := initsReceived + 1;
      if returned.Some? { returnsSent := returnsSent + 1; }
    }

    /** A child's returned nodes go to the session that knows its rank; this may complete a suspension or resumption. */
    method HandleReturn(nodes: seq<Node>, source: int) returns (requests: seq<Request>, returned: Option<seq<Node>>)
      requires Valid() && Sorted(nodes)
      modifies this, Repr()
      ensures Valid() && fresh(Repr() - old(Repr())) && initsReceived == old(initsReceived)
      ensures returnsSent == old(returnsSent) + if returned.Some? then 1 else 0
      ensures returned.Some? <==> index > 0 && old(suspending) && !old(OthersHoldNodes(source))
      ensures suspended == (old(suspended) || returned.Some?)
      ensures old(resuming) && !old(OthersHoldNodes(source)) ==> !suspending && !resuming
      ensures !(index == 0 && old(resuming) && !old(OthersHoldNodes(source))) ==> requests == []
      ensures !(old(resuming) && !old(OthersHoldNodes(source))) ==>
                && (returned == None ==>
                      && left == old(left) && right == old(right)
                      && suspending == old(suspending) && resuming == old(resuming))
                && (!old(suspended) ==> Answers(old(View()), Return(nodes, source), None, returned))
      ensures old(resuming) && !old(OthersHoldNodes(source)) ==>
                exists v' :: Steps(index, old(View()), Return(nodes, source), v', None) && Resumes(v', requests)
    {
      hide Takes, ReturnedBy, CleanedBoth, HalvesOf, AskedBoth;
      requests, returned := [], None;
      var session := SessionByRank(source);
      if session != null { session.AddJobNodesFromSuspendedChild(nodes); }
      ghost var taken := if suspended then None else Some(View());
      assert taken.Some? ==> Steps(index, old(View()), Return(nodes, source), taken.value, None) by { TakesEnds(); }
      hide Steps;
      assert ChildrenHoldNodes() == old(OthersHoldNodes(source)) by { TakesEnds(); }
      if CanReturnInactiveJobNodes() {
        returned := ReturnInactiveJobNodesToParent();
      } else if CanResumeAsRoot() {
        requests := ResumeAsRoot();
      }
    }

    /** The root has new sessions with the halves of all nodes of the old ones that are not lost, and requests the
        children within its volume. */
    ghost predicate Resumes(v: Sides, requests: seq<Request>)
      reads this, left, right
    {
      && left != null && right != null && !suspending && !resuming && !left.childHasNodes && !right.childHasNodes
      && exists nodes ::
           && CleanedBoth(v.left.nodes, v.right.nodes, nodes) && HalvesOf(nodes, 0, left.nodes, right.nodes)
           && AskedBoth(requests, nodes, nodes, 0, lastUpdateEpoch, lastUpdateEpoch >= 0 && 1 < lastUpdateVolume,
                  lastUpdateEpoch >= 0 && 2 < lastUpdateVolume)
    }

    predicate Serves(session: ChildInterface?, rank: int)
      reads session
    {
      session != null && session.childRank == rank
    }

    /** Some child other than the one of this rank holds nodes. */
    predicate OthersHoldNodes(rank: int)
      reads this, left, right
    {
      || (left != null && left.childHasNodes && !Serves(left, rank))
      || (right != null && right.childHasNodes && (Serves(left, rank) || !Serves(right, rank)))
    }

    method SessionByRank(rank: int) returns (session: ChildInterface?)
      ensures session == if left != null && left.childRank == rank then left
                         else if right != null && right.childRank == rank then right else null
    {
      if left != null && rank == left.childRank { return left; }
      if right != null && rank == right.childRank { return right; }
      return null;
    }

    method SessionByIndex(childIndex: nat) returns (session: ChildInterface?)
      ensures session == if left != null && left.childIndex == childIndex then left
                         else if right != null && right.childIndex == childIndex then right else null
    {
      if left != null && childIndex == left.childIndex { return left; }
      if right != null && childIndex == right.childIndex { return right; }
      return null;
    }

    method HandleRejectReactivation(epoch: Int32, childIndex: nat, lost: bool, hasChild: bool)
        returns (requests: seq<Request>)
      requires Valid()
      modifies Repr()
      ensures Valid() && Repr() == old(Repr())
      ensures requests != [] <==>
                !suspended && !suspending && !hasChild
                && ((childIndex == LeftChild(index) && childIndex < left.volume)
                  || (childIndex == RightChild(index) && childIndex < right.volume))
      ensures forall r :: r in requests ==> r.index == childIndex
      ensures !suspended && requests != [] && childIndex == LeftChild(index) ==>
                AskedAgain(requests, old(left.AsSide()), old(left.numQueriedJobNodes), left.epoch, childIndex, epoch,
                    if lost then LOST else BUSY)
      ensures !suspended && requests != [] && childIndex == RightChild(index) ==>
                AskedAgain(requests, old(right.AsSide()), old(right.numQueriedJobNodes), right.epoch, childIndex, epoch,
                    if lost then LOST else BUSY)
      ensures !suspended ==> Answers(old(View()), Reject(epoch, childIndex, lost, hasChild), None, None)
    {
      hide Asks;
      requests := [];
      var session := SessionByIndex(childIndex);
      ghost var call := Reject(epoch, childIndex, lost, hasChild);
      assert !suspended && session == null ==> Steps(index, View(), call, View(), None);
      if session == null { return; }
      hide AskedAgain;
      requests := RejectSession(session, epoch, childIndex, lost, hasChild);
      assert Steps(index, old(View()), call, View(), None);
    }

    method RejectSession(session: ChildInterface, epoch: Int32, childIndex: nat, lost: bool, hasChild: bool)
        returns (requests: seq<Request>)
      requires session.Valid() && session.childIndex == childIndex
      modifies session
      ensures session.Valid() && Asks(old(session.AsSide()), session.AsSide(), childIndex, epoch, lost)
      ensures session.volume == old(session.volume) && session.epoch == old(session.epoch)
      ensures session.childHasNodes == old(session.childHasNodes)
      ensures requests != [] <==> !suspended && !suspending && !hasChild && childIndex < session.volume
      ensures requests != [] ==>
                AskedAgain(requests, old(session.AsSide()), old(session.numQueriedJobNodes), session.epoch, childIndex,
                    epoch, if lost then LOST else BUSY)
      ensures forall r :: r in requests ==> r.index == childIndex
    {
      hide Asks, AskedAgain;
      var d, released :=
        session.HandleRejectionOfPotentialChild(childIndex, epoch, lost, hasChild, suspended || suspending);
      requests := Applied(d, session.epoch, session.childIndex, session.childRank);
      if d != DO_NOTHING {
        ghost var nodes :| IsUpdate(old(session.nodes), nodes, old(session.childRank), childIndex, epoch,
                                    if lost then LOST else BUSY)
                           && Recruited(nodes, childIndex, old(session.numQueriedJobNodes), old(session.childRank), d,
                                        session.childRank, session.numQueriedJobNodes);
        AskedNext(requests, old(session.AsSide()), nodes, old(session.numQueriedJobNodes), session.epoch, childIndex,
            epoch, if lost then LOST else BUSY, d, session.childRank, session.numQueriedJobNodes);
      }
    }

    /** A joining child is given the nodes of its subtree; it holds nodes until it returns them. */
    method HandleChildJoining(source: int, epoch: Int32, childIndex: nat) returns (given: Option<Update>)
      requires Valid()
      modifies Repr()
      ensures Valid() && Repr() == old(Repr())
      ensures given.Some? <==> !suspended && (childIndex == LeftChild(index) || childIndex == RightChild(index))
      ensures given.Some? ==> ChildrenHoldNodes() && given.value.epoch == epoch
      ensures given.Some? ==>
                given.value.volume == if childIndex == LeftChild(index) then left.volume else right.volume
      ensures !suspended ==>
                Answers(old(View()), Join(source, epoch, childIndex),
                    if given.Some? then Some(given.value.nodes) else None, None)
    {
      hide Joins;
      given := None;
      var session := SessionByIndex(childIndex);
      ghost var call := Join(source, epoch, childIndex);
      assert !suspended && session == null ==> Steps(index, View(), call, View(), None);
      if session == null { return; }
      var nodes, released := session.HandleChildJoining(source, childIndex, epoch);
      given := Some(Update(epoch, session.volume, nodes));
      assert Steps(index, old(View()), call, View(), Some(nodes)) by { JoinsHolds(); }
      assert ChildrenHoldNodes() by { JoinsHolds(); }
    }

    method HandleNodeFreed(rank: int, epoch: Int32, nodeIndex: int)
      requires Valid()
      modifies Repr()
      ensures Valid() && Repr() == old(Repr())
      ensures !suspended ==> Answers(old(View()), Freed(rank, epoch, nodeIndex), None, None)
    {
      hide Frees;
      if left != null { left.RemoveNode(rank, epoch, nodeIndex); }
      if right != null { right.RemoveNode(rank, epoch, nodeIndex); }
      assert !suspended ==> Steps(index, old(View()), Freed(rank, epoch, nodeIndex), View(), None);
    }

    // ----- the root -------------------------------------------------------------------------------------

    method BeginResumptionAsRoot() returns (requests: seq<Request>)
      requires Valid() && index == 0 && suspending && !suspended
      modifies this, Repr()
      ensures Valid() && fresh(Repr() - old(Repr())) && !suspended
      ensures suspending == resuming == old(ChildrenHoldNodes())
      ensures old(ChildrenHoldNodes()) ==> View() == old(View())
      ensures old(ChildrenHoldNodes()) ==> requests == []
      ensures !old(ChildrenHoldNodes()) ==> Resumes(old(View()), requests)
      ensures returnsSent == old(returnsSent) && initsReceived == old(initsReceived)
    {
      requests := [];
      resuming := true;
      if CanResumeAsRoot() { requests := ResumeAsRoot(); }
    }

    /** The root opens new sessions with the nodes of the old ones. */
    method ResumeAsRoot() returns (requests: seq<Request>)
      requires Consistent() && CanResumeAsRoot() && returnsSent == 0
      modifies `parentRank, `left, `right, `lastUpdateEpoch, `lastUpdateVolume, `suspended, `suspending, `resuming
      ensures Valid() && fresh(Repr()) && !suspended && !suspending && !resuming
      ensures lastUpdateVolume == old(lastUpdateVolume)
      ensures lastUpdateEpoch
           == if lastUpdateVolume >= 0 then old(Max(lastUpdateEpoch, epochOfLastSuspension)) else old(lastUpdateEpoch)
      ensures Resumes(old(View()), requests)
    {
      resuming, suspending := false, false;
      var nodes := CollectForRoot(left.nodes, right.nodes);
      assert Sorted(nodes);
      hide CleanedBoth, HalvesOf, Sorted, AskedBoth, Wanted;
      var update := Update(Max(lastUpdateEpoch, epochOfLastSuspension), lastUpdateVolume, nodes);
      left, right := null, null;
      ghost var returned: Option<seq<Node>>;
      requests, returned := InitializeScheduling(update, parentRank);
    }

    // ----- roles -----------------------------------------------------------------------------------------

    predicate CanCommit()
      reads this
    {
      suspended
    }

    /** Only a suspended scheduler may be reset for a new role. */
    method ResetRole()
      requires Valid() && CanCommit()
      modifies this
      ensures Valid() && suspended && initsReceived == old(initsReceived) && returnsSent == old(returnsSent)
      ensures forall update: Update :: update.epoch >= 0 ==> !Past(update)
    {
      epochOfLastSuspension, lastUpdateEpoch := -1, -1;
      left, right := null, null;
    }

    method AcceptsChild(childIndex: nat) returns (accepts: bool)
      requires Valid()
      ensures accepts <==> !suspended && ((childIndex == LeftChild(index) && childIndex < left.volume)
                                          || (childIndex == RightChild(index) && childIndex < right.volume))
    {
      var session := SessionByIndex(childIndex);
      if session == null { return false; }
      return session.WantsChild();
    }
  }

  /** Requests are for children within the volume, at the current epoch. */
  ghost predicate Wanted(requests: seq<Request>, index: nat, epoch: int, volume: int) {
    forall r :: r in requests ==>
                  && r.epoch == epoch && r.index < volume
                  && (r.index == LeftChild(index) || r.index == RightChild(index))
  }

  /** Each side holds exactly the nodes of its subtree, up to their statuses. */
  ghost predicate HalvesOf(s: seq<Node>, index: nat, left: seq<Node>, right: seq<Node>) {
    exists l, r :: IsSplit(s, index, l, r) && OnlyStatuses(left, l) && OnlyStatuses(right, r)
  }

  lemma {:induction false} HalvesKept(s: seq<Node>, index: nat, l: seq<Node>, r: seq<Node>, left: seq<Node>,
      right: seq<Node>)
    requires IsSplit(s, index, l, r) && OnlyStatuses(left, l) && OnlyStatuses(right, r)
    ensures HalvesOf(s, index, left, right)
  {
  }

  lemma {:induction false} AskedNext(requests: seq<Request>, s: Side, nodes: seq<Node>, queries: nat,
      sessionEpoch: int, childIndex: nat, epoch: Int32, status: Status, d: Directive, rank: int, queries': nat)
    requires IsUpdate(s.nodes, nodes, s.childRank, childIndex, epoch, status)
    requires Recruited(nodes, childIndex, queries, s.childRank, d, rank, queries')
    requires requests == Applied(d, sessionEpoch, childIndex, rank)
    ensures AskedAgain(requests, s, queries, sessionEpoch, childIndex, epoch, status)
  {
    hide IsUpdate;
    assert HasCandidate(nodes, childIndex) <==>
           exists n :: n in nodes && n.status == AVAILABLE && n.originalIndex == childIndex;
  }

  /** The first node of an index is the same in the half that holds all nodes of that index. */
  lemma {:induction false} FirstKept(s: seq<Node>, part: seq<Node>, childIndex: nat, i: nat, k: nat)
    requires Sorted(s) && Sorted(part) && FirstOf(s, childIndex, i) && FirstOf(part, childIndex, k)
    requires forall n: Node :: n.originalIndex == childIndex ==> (n in s <==> n in part)
    ensures s[i] == part[k]
  {
    assert s[i] in part && part[k] in s;
    var a :| 0 <= a < |part| && part[a] == s[i];
    var b :| 0 <= b < |s| && s[b] == part[k];
    assert a >= k && b >= i;
    assert a > k ==> Before(part[k], part[a]);
    assert b > i ==> Before(s[i], s[b]);
  }

  lemma {:induction false} SomeFirst(s: seq<Node>, childIndex: nat, n: Node) returns (i: nat)
    requires n in s && n.originalIndex == childIndex && n.status != LOST
    ensures FirstOf(s, childIndex, i)
  {
    i := 0;
    while !(s[i].originalIndex == childIndex && s[i].status != LOST)
      invariant i < |s| && forall j :: 0 <= j < i ==> !(s[j].originalIndex == childIndex && s[j].status != LOST)
      invariant exists k :: i <= k < |s| && s[k] == n
      decreases |s| - i
    {
      i := i + 1;
    }
  }

  lemma {:induction false} AskedOfPart(s: seq<Node>, part: seq<Node>, a: seq<Request>, childIndex: nat, epoch: int,
      wanted: bool)
    requires Sorted(s) && Sorted(part) && Asked(a, part, childIndex, epoch, wanted)
    requires forall n: Node :: n.originalIndex == childIndex ==> (n in s <==> n in part)
    ensures Asked(a, s, childIndex, epoch, wanted)
  {
    hide Sorted;
    if i: nat :| FirstOf(s, childIndex, i) {
      var k := SomeFirst(part, childIndex, s[i]);
      if wanted {
        var l: nat :| FirstOf(part, childIndex, l) && a == [Directed(epoch, childIndex, part[l].rank)];
        FirstKept(s, part, childIndex, i, l);
      }
    } else if k: nat :| FirstOf(part, childIndex, k) {
      var i := SomeFirst(s, childIndex, part[k]);
    }
  }

  /** All nodes of a child's index are in the half of that child. */
  lemma {:induction false} AskedOfHalves(s: seq<Node>, index: nat, l: seq<Node>, r: seq<Node>, a: seq<Request>,
      b: seq<Request>, epoch: int, wantsLeft: bool, wantsRight: bool)
    requires Sorted(s) && IsSplit(s, index, l, r)
    requires Asked(a, l, LeftChild(index), epoch, wantsLeft) && Asked(b, r, RightChild(index), epoch, wantsRight)
    ensures AskedBoth(a + b, s, s, index, epoch, wantsLeft, wantsRight)
  {
    assert forall n: Node :: n.originalIndex == LeftChild(index) ==> !GoesRight(index, n);
    assert forall n: Node :: n.originalIndex == RightChild(index) ==> GoesRight(index, n);
    hide GoesRight, Asked, Sorted;
    AskedOfPart(s, l, a, LeftChild(index), epoch, wantsLeft);
    AskedOfPart(s, r, b, RightChild(index), epoch, wantsRight);
  }

  lemma {:induction false} TakesEnds()
    ensures forall s, s', nodes :: Takes(s, s', nodes) ==> s'.childRank == s.childRank && !s'.childHasNodes
  {
  }

  lemma {:induction false} JoinsHolds()
    ensures forall s, s', source, childIndex, epoch, given :: Joins(s, s', source, childIndex, epoch, given) ==>
              s'.childHasNodes
  {
  }

  lemma {:induction false} SameSides(v: Sides)
    requires Sorted(v.left.nodes) && Sorted(v.right.nodes)
    ensures Refreshes(v.left, v.left) && Refreshes(v.right, v.right)
  {
  }
}
