/**
 The event-driven balancer of one worker: local diffs are reduced towards the root, the root broadcasts
 them with a new epoch, and every worker digests broadcasts into its copy of the global event state.
 */
module Balancing {
  import opened EventTypes
  import opened EventMaps

  /** State of one worker's balancer. `computedFrom` is the event state its volumes were last computed from. */
  datatype Node = Node(states: EventState, diffs: EventState, balancingEpoch: int, computedFrom: EventState)

  const FreshNode := Node(EmptyState, EmptyState, 0, EmptyState)

  /** What handling data sends: nothing, the diffs to the parent, or a broadcast to all children. */
  datatype Output = Nothing | SendUp(data: EventState) | Broadcast(data: EventState)

  // ----- the steps as functions ----------------------------------------------------

  function Pushed(node: Node, ev: Event): Node {
    node.(diffs := node.diffs.(entries := Inserted(node.diffs.entries, ev)))
  }

  /** Volumes are computed from the updated state, before entries of terminated jobs are dropped. */
  function Digested(node: Node, data: EventState): Node {
    var updated := UpdatedState(node.states, data);
    Node(updated.(entries := WithoutOldZeros(updated.entries)),
         FilteredState(node.diffs, updated), data.globalEpoch, updated)
  }

  /** Whether digesting meets two different events of one job and epoch. */
  predicate DigestAborts(node: Node, data: EventState) {
    Conflict(node.diffs.entries, Updated(node.states.entries, data.entries))
  }

  /** A reduction's data joins the diffs; when it is time, they travel on. */
  function Collected(node: Node, data: EventState): Node {
    node.(diffs := UpdatedState(node.diffs, data))
  }

  /** The diffs the root broadcasts carry the next epoch. */
  function Stamped(node: Node): Node {
    node.(diffs := node.diffs.(globalEpoch := node.balancingEpoch + 1))
  }

  function Cleared(node: Node): Node { node.(diffs := node.diffs.(entries := map[])) }

  function Reduced(node: Node, data: EventState, ready: bool, isRoot: bool): (Node, Output) {
    var n := Collected(node, data);
    if !ready then (n, Nothing)
    else if isRoot then (Digested(Stamped(n), Stamped(n).diffs), Broadcast(Stamped(n).diffs))
    else (Cleared(n), SendUp(n.diffs))
  }

  predicate ReduceAborts(node: Node, data: EventState, ready: bool, isRoot: bool) {
    ready && isRoot && DigestAborts(Stamped(Collected(node, data)), Stamped(Collected(node, data)).diffs)
  }

  function Advanced(node: Node, isRoot: bool): (Node, Output) {
    if node.diffs.entries == map[] then (node, Nothing)
    else Reduced(Cleared(node), node.diffs, true, isRoot)
  }

  predicate AdvanceAborts(node: Node, isRoot: bool) {
    node.diffs.entries != map[] && ReduceAborts(Cleared(node), node.diffs, true, isRoot)
  }

  // ----- the balancer object ---------------------------------------------------------

  class Balancer {
    const isRoot: bool
    const states: EventMap
    const diffs: EventMap
    var balancingEpoch: int
    var computedFrom: EventState

    ghost predicate Valid()
      reads this, states, diffs
    {
      states != diffs && states.Value().Valid() && diffs.Value().Valid()
    }

    ghost function Value(): Node
      reads this, states, diffs
    {
      Node(states.Value(), diffs.Value(), balancingEpoch, computedFrom)
    }

    constructor (isRoot: bool)
      ensures Valid() && Value() == FreshNode && this.isRoot == isRoot && fresh(states) && fresh(diffs)
    {
      this.isRoot := isRoot;
      states := new EventMap();
      diffs := new EventMap();
      balancingEpoch, computedFrom := 0, EmptyState;
    }

    /** A new event; if it is news and it is time, the diffs are sent on at once. */
    method PushEvent(ev: Event, ready: bool) returns (out: Output, aborted: bool)
      requires Valid()
      modifies this, diffs, states
      ensures aborted == (ready && Novel(old(diffs.entries), ev) && AdvanceAborts(Pushed(old(Value()), ev), isRoot))
      ensures !aborted ==> Valid()
      ensures !aborted && ready && Novel(old(diffs.entries), ev) ==>
                (Value(), out) == Advanced(Pushed(old(Value()), ev), isRoot)
      ensures !(ready && Novel(old(diffs.entries), ev)) ==>
                Value() == Pushed(old(Value()), ev) && out == Nothing
    {
      hide Advanced, AdvanceAborts;
      out, aborted := Nothing, false;
      var inserted := diffs.InsertIfNovel(ev);
      if inserted && ready {
        out, aborted := Advance();
      }
    }

    method Advance() returns (out: Output, aborted: bool)
      requires Valid()
      modifies this, diffs, states
      ensures aborted == AdvanceAborts(old(Value()), isRoot)
      ensures !aborted ==> Valid() && (Value(), out) == Advanced(old(Value()), isRoot)
    {
      hide Reduced, ReduceAborts;
      if diffs.entries == map[] { return Nothing, false; }
      var m := new EventMap();
      m.entries, m.globalEpoch := diffs.entries, diffs.globalEpoch;
      diffs.entries := map[];
      out, aborted := HandleReduction(m, true);
    }

    /** Data of a reduction. */
    method HandleReduction(data: EventMap, ready: bool) returns (out: Output, aborted: bool)
      requires Valid() && data.Value().Valid() && data != diffs && data != states
      modifies this, diffs, states
      ensures aborted == ReduceAborts(old(Value()), data.Value(), ready, isRoot)
      ensures !aborted ==> Valid() && (Value(), out) == Reduced(old(Value()), data.Value(), ready, isRoot)
    {
      hide Updated, Conflict, Digested, DigestAborts;
      ghost var before := Value();
      var change := diffs.UpdateBy(data);
      UpdatedValid(before.diffs, data.Value());
      out, aborted := Nothing, false;
      if ready {
        if isRoot {
          diffs.globalEpoch := balancingEpoch + 1;
          out := Broadcast(diffs.Value());
          var copy := new EventMap();
          copy.entries, copy.globalEpoch := diffs.entries, diffs.globalEpoch;
          aborted := Digest(copy);
        } else {
          out := SendUp(diffs.Value());
          diffs.entries := map[];
        }
      }
    }

    /** A broadcast is passed on to the children and digested. */
    method HandleBroadcast(data: EventMap) returns (out: Output, aborted: bool)
      requires Valid() && data.Value().Valid() && data != diffs && data != states
      modifies this, diffs, states
      ensures aborted == DigestAborts(old(Value()), data.Value())
      ensures !aborted ==>
                Valid() && Value() == Digested(old(Value()), data.Value()) && out == Broadcast(data.Value())
    {
      hide Digested, DigestAborts;
      out := Broadcast(data.Value());
      aborted := Digest(data);
    }

    method Digest(data: EventMap) returns (aborted: bool)
      requires Valid() && data.Value().Valid() && data != diffs && data != states
      modifies this, diffs, states
      ensures aborted == DigestAborts(old(Value()), data.Value())
      ensures !aborted ==> Valid() && Value() == Digested(old(Value()), data.Value())
    {
      hide Updated, Conflict, Filtered, WithoutOldZeros;
      ghost var before := Value();
      var change := states.UpdateBy(data);
      UpdatedValid(before.states, data.Value());
      balancingEpoch := data.globalEpoch;
      computedFrom := states.Value();
      aborted := diffs.FilterBy(states);
      if aborted { return; }
      FilteredValid(before.diffs, states.Value());
      ThinnedValid(states.Value());
      states.RemoveOldZeros();
    }
  }

  lemma {:induction false} UpdatedValid(a: EventState, b: EventState)
    requires a.Valid() && b.Valid()
    ensures UpdatedState(a, b).Valid()
  {
  }

  lemma {:induction false} FilteredValid(a: EventState, b: EventState)
    requires a.Valid()
    ensures FilteredState(a, b).Valid()
  {
  }

  lemma {:induction false} ThinnedValid(a: EventState)
    requires a.Valid()
    ensures a.(entries := WithoutOldZeros(a.entries)).Valid()
  {
  }
}
