/** One side of a scheduler: the inactive nodes kept for a child and the attempts to recruit that child. */
module Sessions {
  import opened Basics
  import opened InactiveNodes

  const MAX_QUERIES: nat := 4

  datatype Directive = DO_NOTHING | EMIT_DIRECTED_REQUEST | EMIT_UNDIRECTED_REQUEST

  /** Sent to an inactive node that is no longer waited for. */
  datatype Release = Release(rank: int, index: int, epoch: int)

  /** A new epoch frees busy nodes, except those beyond the new volume. */
  function Refreshed(n: Node, volume: int): Node {
    var status := if n.status == BUSY then AVAILABLE else n.status;
    if status == AVAILABLE && n.originalIndex >= volume then n.(status := BUSY) else n.(status := status)
  }

  function AllRefreshed(s: seq<Node>, volume: int): (r: seq<Node>)
    ensures |r| == |s| && forall i :: 0 <= i < |s| ==> r[i] == Refreshed(s[i], volume)
  {
    seq(|s|, i requires 0 <= i < |s| => Refreshed(s[i], volume))
  }

  /** The node is told that nobody waits for it; -1 means every index. */
  predicate Notifies(n: Node, index: int) {
    n.status == AVAILABLE && (index == -1 || n.originalIndex == index)
  }

  function Notified(s: seq<Node>, index: int): (r: seq<Node>)
    ensures |r| == |s|
    ensures forall i :: 0 <= i < |s| ==> r[i] == if Notifies(s[i], index) then s[i].(status := BUSY) else s[i]
  {
    seq(|s|, i requires 0 <= i < |s| => if Notifies(s[i], index) then s[i].(status := BUSY) else s[i])
  }

  /** One release per notified node, in order. */
  function Releases(s: seq<Node>, index: int, epoch: int): seq<Release> {
    if |s| == 0 then []
    else
      var n, rest := s[|s| - 1], Releases(s[..|s| - 1], index, epoch);
      if Notifies(n, index) then rest + [Release(n.rank, n.originalIndex, epoch)] else rest
  }

  predicate Candidate(n: Node, childIndex: int) { n.status == AVAILABLE && n.originalIndex == childIndex }

  ghost predicate SameNodes(a: seq<Node>, b: seq<Node>) {
    |a| == |b| && forall i :: 0 <= i < |a| ==> SameKey(a[i], b[i])
  }

  /** Changes of status keep order and ranks; nodes do not become lost by them. */
  ghost predicate OnlyStatuses(a: seq<Node>, b: seq<Node>) {
    SameNodes(a, b) && forall i :: 0 <= i < |a| ==> (a[i].status == LOST <==> b[i].status == LOST)
  }

  class ChildInterface {
    const jobId: int
    const childIndex: nat
    var nodes: seq<Node>
    var epoch: int
    var volume: int
    var childRank: int
    var numQueriedJobNodes: nat
    var childHasNodes: bool

    ghost function AsSide(): Side
      reads this
    {
      Side(nodes, childRank, childHasNodes)
    }

    ghost predicate Valid()
      reads this
    {
      Sorted(nodes) && numQueriedJobNodes <= MAX_QUERIES
    }

    constructor (jobId: int, nodes: seq<Node>, childIndex: nat)
      requires Sorted(nodes)
      ensures Valid() && this.nodes == nodes && this.childIndex == childIndex && this.jobId == jobId
      ensures epoch == -1 && volume == -1 && childRank == -1 && !childHasNodes
    {
      this.jobId, this.nodes, this.childIndex := jobId, nodes, childIndex;
      epoch, volume, childRank, numQueriedJobNodes, childHasNodes := -1, -1, -1, 0, false;
    }

    predicate WantsChild()
      reads this
    {
      childIndex < volume
    }

    /**
     Only a newer epoch counts. A missing but wanted child is asked for: directly if an available node of its
     index is known. Otherwise every node still available is released.
     */
    method HandleBalancingUpdate(newEpoch: int, newVolume: int, hasChild: bool)
        returns (d: Directive, released: seq<Release>)
      requires Valid()
      modifies `nodes, `epoch, `volume, `childRank, `numQueriedJobNodes
      ensures Valid() && Refreshes(old(AsSide()), AsSide())
      ensures newEpoch <= old(epoch) ==>
                && d == DO_NOTHING && released == [] && nodes == old(nodes) && epoch == old(epoch)
                && volume == old(volume)
                && childRank == old(childRank) && numQueriedJobNodes == old(numQueriedJobNodes)
      ensures newEpoch > old(epoch) ==>
                && epoch == newEpoch && volume == newVolume
                && var refreshed := AllRefreshed(old(nodes), newVolume);
                   if hasChild || childIndex >= newVolume then
                     && d == DO_NOTHING && nodes == Notified(refreshed, -1)
                     && released == Releases(refreshed, -1, newEpoch)
                     && childRank == old(childRank) && numQueriedJobNodes == 0
                   else
                     && nodes == refreshed && released == []
                     && Recruited(refreshed, childIndex, 0, old(childRank), d, childRank, numQueriedJobNodes)
      ensures newEpoch > old(epoch) ==>
                if hasChild || childIndex >= newVolume
                then AllReleased(old(nodes), nodes, newVolume, newEpoch, released)
                else FirstAsked(old(nodes), nodes, newVolume, childIndex, d, childRank)
    {
      if newEpoch <= epoch {
        SameStatuses(nodes);
        return DO_NOTHING, [];
      }
      numQueriedJobNodes, epoch, volume := 0, newEpoch, newVolume;
      ghost var before := nodes;
      for i := 0 to |nodes|
        invariant numQueriedJobNodes == 0 && epoch == newEpoch && volume == newVolume && childRank == old(childRank)
        invariant |nodes| == |before|
        invariant forall j :: 0 <= j < |before| ==>
                  nodes[j] == if j < i then Refreshed(before[j], newVolume) else before[j]
      {
        if nodes[i].status == BUSY { nodes := nodes[i := nodes[i].(status := AVAILABLE)]; }
        if nodes[i].status == AVAILABLE && nodes[i].originalIndex >= newVolume {
          nodes := nodes[i := nodes[i].(status := BUSY)];
        }
      }
      ghost var refreshed := AllRefreshed(before, newVolume);
      assert nodes == refreshed;
      RefreshedStatuses(before, newVolume);
      NotifiedStatuses(refreshed, -1);
      ReleasedAre(before, newVolume, newEpoch);
      if !hasChild && WantsChild() {
        d, released := RecruitChild();
        NoCandidateNoRelease(refreshed, childIndex, epoch);
        AskedAre(before, newVolume, childIndex, 0, old(childRank), d, childRank, numQueriedJobNodes);
      } else {
        released := NotifyRemainingInactiveNodes(-1);
        d := DO_NOTHING;
      }
    }

    /** Asks the first available node of the child's index, at most four times per epoch; else releases all of them. */
    method RecruitChild() returns (d: Directive, released: seq<Release>)
      requires Valid()
      modifies `nodes, `childRank, `numQueriedJobNodes
      ensures Valid()
      ensures Recruited(old(nodes), childIndex, old(numQueriedJobNodes), old(childRank), d, childRank,
          numQueriedJobNodes)
      ensures d == EMIT_DIRECTED_REQUEST ==> nodes == old(nodes) && released == []
      ensures d != EMIT_DIRECTED_REQUEST ==>
                nodes == Notified(old(nodes), childIndex) && released == Releases(old(nodes), childIndex, epoch)
    {
      var i := 0;
      while numQueriedJobNodes < MAX_QUERIES && i < |nodes|
        invariant 0 <= i <= |nodes| && nodes == old(nodes) && numQueriedJobNodes == old(numQueriedJobNodes)
        invariant childRank == old(childRank)
        invariant forall j :: 0 <= j < i ==> !Candidate(nodes[j], childIndex)
      {
        var node := nodes[i];
        if node.status == AVAILABLE && node.originalIndex == childIndex {
          assert node in nodes && Candidate(node, childIndex) && FirstCandidate(nodes, childIndex, i);
          childRank := node.rank;
          numQueriedJobNodes := numQueriedJobNodes + 1;
          return EMIT_DIRECTED_REQUEST, [];
        }
        i := i + 1;
      }
      released := NotifyRemainingInactiveNodes(childIndex);
      d := EMIT_UNDIRECTED_REQUEST;
    }

    method NotifyRemainingInactiveNodes(particularIndex: int) returns (released: seq<Release>)
      requires Valid()
      modifies `nodes
      ensures Valid() && nodes == Notified(old(nodes), particularIndex)
      ensures released == Releases(old(nodes), particularIndex, epoch)
    {
      released := [];
      ghost var before := nodes;
      for i := 0 to |nodes|
        invariant |nodes| == |before|
        invariant forall j :: 0 <= j < |before| ==>
                    nodes[j] == if j < i && Notifies(before[j], particularIndex)
                                then before[j].(status := BUSY) else before[j]
        invariant released == Releases(before[..i], particularIndex, epoch)
      {
        assert before[..i + 1][..i] == before[..i];
        if nodes[i].status == AVAILABLE && (particularIndex == -1 || nodes[i].originalIndex == particularIndex) {
          released := released + [Release(nodes[i].rank, nodes[i].originalIndex, epoch)];
          nodes := nodes[i := nodes[i].(status := BUSY)];
        }
      }
      assert before[..|before|] == before;
      assert nodes == Notified(before, particularIndex);
      NotifiedStatuses(before, particularIndex);
    }

    method AddJobNodesFromSuspendedChild(newNodes: seq<Node>)
      requires Valid() && Sorted(newNodes)
      modifies `nodes, `childHasNodes
      ensures Valid() && Takes(old(AsSide()), AsSide(), newNodes)
    {
      nodes := MergePreferringNewer(nodes, newNodes);
      childHasNodes := false;
    }

    method HandleRejectionOfPotentialChild(index: nat, epoch: Int32, lost: bool, hasChild: bool, suspended: bool)
        returns (d: Directive, released: seq<Release>)
      requires Valid() && index == childIndex
      modifies `nodes, `childRank, `numQueriedJobNodes
      ensures Valid()
      ensures Asks(old(AsSide()), AsSide(), index, epoch, lost)
      ensures d == DO_NOTHING <==> hasChild || suspended || !WantsChild()
      ensures exists updated ::
                && IsUpdate(old(nodes), updated, old(childRank), index, epoch, if lost then LOST else BUSY)
                && (d == DO_NOTHING ==> nodes == updated && released == [] && childRank == old(childRank))
                && (d != DO_NOTHING ==>
                  Recruited(updated, childIndex, old(numQueriedJobNodes), old(childRank), d, childRank,
                      numQueriedJobNodes))
                && (d == EMIT_DIRECTED_REQUEST ==> nodes == updated && released == [])
                && (d == EMIT_UNDIRECTED_REQUEST ==>
                      nodes == Notified(updated, childIndex) && released == Releases(updated, childIndex, this.epoch))
    {
      var found := FindAndUpdateNode(childRank, childIndex, epoch, if lost then LOST else BUSY);
      ghost var updated := nodes;
      assert IsUpdate(old(nodes), updated, old(childRank), index, epoch, if lost then LOST else BUSY);
      SameStatuses(updated);
      NotifiedStatuses(updated, childIndex);
      hide IsUpdate, OnlyStatuses, Sorted;
      if !hasChild && !suspended && WantsChild() {
        d, released := RecruitChild();
      } else {
        d, released := DO_NOTHING, [];
      }
    }

    /** The node of this rank and index, if any, gets a new epoch and status. */
    method FindAndUpdateNode(rank: int, index: int, epoch: Int32, status: Status) returns (found: bool)
      requires Valid()
      modifies `nodes
      ensures Valid() && IsUpdate(old(nodes), nodes, rank, index, epoch, status)
      ensures found <==> exists n :: n in old(nodes) && n.rank == rank && n.originalIndex == index
    {
      var probe := Node(rank, index, INT32_MAX, AVAILABLE);
      var i := 0;
      while i < |nodes| && Before(nodes[i], probe)
        invariant 0 <= i <= |nodes| && nodes == old(nodes)
        invariant forall j :: 0 <= j < i ==> Before(nodes[j], probe)
      {
        i := i + 1;
      }
      while i < |nodes|
        invariant 0 <= i <= |nodes| && nodes == old(nodes)
        invariant forall j :: 0 <= j < i ==> !(nodes[j].rank == rank && nodes[j].originalIndex == index)
        invariant i < |nodes| ==> nodes[i].originalIndex >= index
      {
        var n := nodes[i];
        if n.originalIndex != index {
          Later(nodes, i);
          break;
        }
        if n.rank == rank {
          UpdateKeeps(nodes, i, epoch, status);
          nodes := Inserted(Erased(nodes, n), n.(lastEpoch := epoch, status := status));
          return true;
        }
        if i + 1 < |nodes| { Later(nodes, i); }
        i := i + 1;
      }
      found := false;
      assert forall j :: 0 <= j < |nodes| ==> !(nodes[j].rank == rank && nodes[j].originalIndex == index);
    }

    /**
     A child has joined: it gets exactly the strict descendants of its index, cleaned up; the other nodes
     remain here, and those still available are released.
     */
    method HandleChildJoining(source: int, index: nat, epoch: Int32) returns (given: seq<Node>, released: seq<Release>)
      requires Valid() && index == childIndex
      modifies `nodes, `childRank, `childHasNodes
      ensures Valid() && childRank == source && childHasNodes
      ensures Joins(old(AsSide()), AsSide(), source, index, epoch, given)
      ensures forall n :: n in nodes ==> n.status != AVAILABLE
      ensures exists updated ::
                KeptFrom(old(nodes), nodes, updated, source, index, epoch)
                  && released == Releases(updated, -1, this.epoch)
    {
      hide IsUpdate, Extracts, Releases;
      childRank, childHasNodes := source, true;
      var extracted, rest := ExtractSubtree(nodes, index, true);
      nodes := rest;
      given := CleanUpStatuses(extracted);
      GivenNodes(old(nodes), extracted, given, index);
      var found := FindAndUpdateNode(source, index, epoch, BUSY);
      ghost var updated := nodes;
      released := NotifyRemainingInactiveNodes(-1);
      hide Sorted, Given;
      assert KeptFrom(old(nodes), nodes, updated, source, index, epoch);
    }

    /** Deletes a node that was freed at this epoch and index. */
    method RemoveNode(rank: int, epoch: Int32, index: int)
      requires Valid()
      modifies `nodes
      ensures Valid() && Frees(old(AsSide()), AsSide(), rank, epoch, index)
    {
      var node := Node(rank, index, epoch, AVAILABLE);
      ErasedElements(nodes, node);
      nodes := Erased(nodes, node);
    }
  }

  // ----- one side as a value ---------------------------------------------------------------------

  /** The nodes kept for a child, the rank of the child that was asked or has joined, and whether it holds nodes. */
  datatype Side = Side(nodes: seq<Node>, childRank: int, childHasNodes: bool)

  /** A balancing update changes statuses and perhaps the rank that is asked. */
  ghost predicate Refreshes(s: Side, s': Side) {
    Sorted(s'.nodes) && OnlyStatuses(s'.nodes, s.nodes) && s'.childHasNodes == s.childHasNodes
  }

  /** After a rejection the asked node is lost or busy; a further attempt may release others. */
  ghost predicate Asks(s: Side, s': Side, childIndex: nat, epoch: Int32, lost: bool) {
    && Sorted(s'.nodes) && s'.childHasNodes == s.childHasNodes
    && exists u :: Sorted(u) && OnlyStatuses(s'.nodes, u)
                   && IsUpdate(s.nodes, u, s.childRank, childIndex, epoch, if lost then LOST else BUSY)
  }

  /** The side keeps what is not handed to the joining child; a known node of that rank is busy. */
  ghost predicate KeptFrom(before: seq<Node>, kept: seq<Node>, updated: seq<Node>, rank: int, index: nat,
      epoch: Int32) {
    && Sorted(updated) && kept == Notified(updated, -1)
    && exists rest :: Sorted(rest) && (forall n :: n in rest <==> n in before && !Extracts(index, true, n))
                      && IsUpdate(rest, updated, rank, index, epoch, BUSY)
  }

  ghost predicate Kept(before: seq<Node>, kept: seq<Node>, rank: int, index: nat, epoch: Int32) {
    exists updated :: KeptFrom(before, kept, updated, rank, index, epoch)
  }

  ghost predicate Joins(s: Side, s': Side, source: int, childIndex: nat, epoch: Int32, given: seq<Node>) {
    && Sorted(s'.nodes) && s'.childRank == source && s'.childHasNodes
    && Kept(s.nodes, s'.nodes, source, childIndex, epoch) && Given(s.nodes, childIndex, given)
  }

  /** Returned nodes are merged in; the child no longer holds nodes. */
  ghost predicate Takes(s: Side, s': Side, nodes: seq<Node>) {
    s'.childRank == s.childRank && !s'.childHasNodes && Merges(s.nodes, nodes, s'.nodes)
  }

  /** Exactly the freed node is gone. */
  ghost predicate Frees(s: Side, s': Side, rank: int, epoch: Int32, index: int) {
    && s' == s.(nodes := s'.nodes) && Sorted(s'.nodes)
    && forall n :: n in s'.nodes <==>
                   n in s.nodes && !(n.rank == rank && n.lastEpoch == epoch && n.originalIndex == index)
  }

  // ----- about sessions -----------------------------------------------------------------------

  /** How a child is recruited: directly while queries are left and a candidate is known. */
  ghost predicate Recruited(s: seq<Node>, childIndex: int, queries: nat, oldRank: int, d: Directive, rank: int,
      queries': nat) {
    && (d == EMIT_DIRECTED_REQUEST <==> queries < MAX_QUERIES && HasCandidate(s, childIndex))
    && (d == EMIT_DIRECTED_REQUEST ==>
          queries' == queries + 1 && exists i :: FirstCandidate(s, childIndex, i) && s[i].rank == rank)
    && (d != EMIT_DIRECTED_REQUEST ==> d == EMIT_UNDIRECTED_REQUEST && queries' == queries && rank == oldRank)
  }

  /** Nobody is waited for: all nodes but the lost ones are busy, and those within the volume are released. */
  ghost predicate AllReleased(before: seq<Node>, after: seq<Node>, volume: int, epoch: int, released: seq<Release>) {
    && |after| == |before|
    && (forall i :: 0 <= i < |before| ==>
          after[i] == before[i].(status := if before[i].status == LOST then LOST else BUSY))
    && forall r :: r in released <==>
                   exists n :: n in before && n.status != LOST && n.originalIndex < volume
                               && r == Release(n.rank, n.originalIndex, epoch)
  }

  /** All nodes within the volume but the lost ones are available, and the first one of the child's index is asked. */
  ghost predicate FirstAsked(before: seq<Node>, after: seq<Node>, volume: int, childIndex: int, d: Directive, rank: int)
  {
    && |after| == |before|
    && (forall i :: 0 <= i < |before| ==> after[i] == before[i].(status :=
          if before[i].status == LOST then LOST else if before[i].originalIndex < volume then AVAILABLE else BUSY))
    && (d == EMIT_DIRECTED_REQUEST || d == EMIT_UNDIRECTED_REQUEST)
    && (d == EMIT_DIRECTED_REQUEST <==> exists i :: FirstOf(before, childIndex, i))
    && (d == EMIT_DIRECTED_REQUEST ==> exists i :: FirstOf(before, childIndex, i) && before[i].rank == rank)
  }

  /** The first node of this index that is not lost. */
  ghost predicate FirstOf(s: seq<Node>, childIndex: int, i: int) {
    && 0 <= i < |s| && s[i].originalIndex == childIndex && s[i].status != LOST
    && forall j :: 0 <= j < i ==> !(s[j].originalIndex == childIndex && s[j].status != LOST)
  }

  lemma {:induction false} ReleasesAre(s: seq<Node>, index: int, epoch: int, r: Release)
    ensures r in Releases(s, index, epoch) <==>
            exists n :: n in s && Notifies(n, index) && r == Release(n.rank, n.originalIndex, epoch)
  {
    if |s| > 0 {
      var front, last := s[..|s| - 1], s[|s| - 1];
      ReleasesAre(front, index, epoch, r);
      assert s == front + [last];
    }
  }

  lemma {:induction false} ReleasedAre(s: seq<Node>, volume: int, epoch: int)
    ensures var refreshed := AllRefreshed(s, volume);
            AllReleased(s, Notified(refreshed, -1), volume, epoch, Releases(refreshed, -1, epoch))
  {
    var refreshed := AllRefreshed(s, volume);
    var released := Releases(refreshed, -1, epoch);
    hide AllRefreshed;
    forall r
      ensures r in released <==>
              exists n :: n in s && n.status != LOST && n.originalIndex < volume
                          && r == Release(n.rank, n.originalIndex, epoch)
    {
      ReleasesAre(refreshed, -1, epoch, r);
      if r in released {
        var m :| m in refreshed && Notifies(m, -1) && r == Release(m.rank, m.originalIndex, epoch);
        var i :| 0 <= i < |refreshed| && refreshed[i] == m;
        assert s[i] in s;
      }
      if n :| n in s && n.status != LOST && n.originalIndex < volume && r == Release(n.rank, n.originalIndex, epoch) {
        var i :| 0 <= i < |s| && s[i] == n;
        assert refreshed[i] in refreshed && Notifies(refreshed[i], -1);
      }
    }
  }

  lemma {:induction false} AskedAre(s: seq<Node>, volume: int, childIndex: int, queries: nat, oldRank: int,
      d: Directive, rank: int, queries': nat)
    requires childIndex < volume && queries < MAX_QUERIES
    requires Recruited(AllRefreshed(s, volume), childIndex, queries, oldRank, d, rank, queries')
    ensures FirstAsked(s, AllRefreshed(s, volume), volume, childIndex, d, rank)
  {
    var refreshed := AllRefreshed(s, volume);
    assert forall i :: 0 <= i < |s| ==>
        (Candidate(refreshed[i], childIndex) <==> s[i].originalIndex == childIndex && s[i].status != LOST);
    if HasCandidate(refreshed, childIndex) {
      var i :| FirstCandidate(refreshed, childIndex, i) && refreshed[i].rank == rank;
      assert FirstOf(s, childIndex, i);
    }
  }

  ghost predicate FirstCandidate(s: seq<Node>, childIndex: int, i: int) {
    0 <= i < |s| && Candidate(s[i], childIndex) && forall j :: 0 <= j < i ==> !Candidate(s[j], childIndex)
  }

  ghost predicate HasCandidate(s: seq<Node>, childIndex: int) {
    exists n :: n in s && Candidate(n, childIndex)
  }

  /** At most one node of this rank and index was replaced by one with the new epoch and status. */
  ghost predicate IsUpdate(s: seq<Node>, s': seq<Node>, rank: int, index: int, epoch: Int32, status: Status) {
    (s' == s && forall n :: n in s ==> !(n.rank == rank && n.originalIndex == index))
    || exists n ::
         && n in s && n.rank == rank && n.originalIndex == index
         && s' == Inserted(Erased(s, n), n.(lastEpoch := epoch, status := status))
  }

  lemma {:induction false} UpdateKeeps(s: seq<Node>, i: nat, epoch: Int32, status: Status)
    requires Sorted(s) && i < |s|
    ensures Sorted(Inserted(Erased(s, s[i]), s[i].(lastEpoch := epoch, status := status)))
  {
    ErasedElements(s, s[i]);
    InsertedElements(Erased(s, s[i]), s[i].(lastEpoch := epoch, status := status));
  }

  lemma {:induction false} SameStatuses(s: seq<Node>)
    ensures OnlyStatuses(s, s)
  {
  }

  lemma {:induction false} RefreshedStatuses(s: seq<Node>, volume: int)
    requires Sorted(s)
    ensures Sorted(AllRefreshed(s, volume)) && OnlyStatuses(AllRefreshed(s, volume), s)
  {
    Relabelled(s, AllRefreshed(s, volume));
  }

  lemma {:induction false} NotifiedStatuses(s: seq<Node>, index: int)
    requires Sorted(s)
    ensures Sorted(Notified(s, index)) && OnlyStatuses(Notified(s, index), s)
  {
    Relabelled(s, Notified(s, index));
  }

  /** Without a candidate for the child there is nothing to release for its index. */
  lemma {:induction false} NoCandidateNoRelease(s: seq<Node>, childIndex: nat, epoch: int)
    ensures !HasCandidate(s, childIndex) ==> Notified(s, childIndex) == s && Releases(s, childIndex, epoch) == []
  {
    if !HasCandidate(s, childIndex) {
      assert forall i :: 0 <= i < |s| ==> !Candidate(s[i], childIndex);
      NoReleases(s, childIndex, epoch);
    }
  }

  lemma {:induction false} NoReleases(s: seq<Node>, index: int, epoch: int)
    requires forall i :: 0 <= i < |s| ==> !Notifies(s[i], index)
    ensures Releases(s, index, epoch) == []
  {
    if |s| > 0 { NoReleases(s[..|s| - 1], index, epoch); }
  }

  /** What a joining child is given: the strict descendants of its index that are not lost, all available. */
  ghost predicate Given(before: seq<Node>, index: nat, given: seq<Node>) {
    && Sorted(given)
    && forall n :: n in given <==>
                   exists m :: m in before && Extracts(index, true, m) && m.status != LOST && n == Cleaned(m)
  }

  lemma {:induction false} GivenNodes(s: seq<Node>, extracted: seq<Node>, given: seq<Node>, index: nat)
    requires forall n :: n in extracted <==> n in s && Extracts(index, true, n)
    requires forall n :: n in given <==> exists m :: m in extracted && m.status != LOST && n == Cleaned(m)
    ensures forall n :: n in given <==>
              exists m :: m in s && Extracts(index, true, m) && m.status != LOST && n == Cleaned(m)
  {
    forall n
      ensures n in given <==>
              exists m :: m in s && Extracts(index, true, m) && m.status != LOST && n == Cleaned(m)
    {
      if n in given { var m :| m in extracted && m.status != LOST && n == Cleaned(m); assert m in s; }
      if exists m :: m in s && Extracts(index, true, m) && m.status != LOST && n == Cleaned(m) {
        var m :| m in s && Extracts(index, true, m) && m.status != LOST && n == Cleaned(m);
        assert m in extracted;
      }
    }
  }
}
