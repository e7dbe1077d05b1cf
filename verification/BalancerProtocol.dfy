/**
 The balancing protocol as a whole: all workers, the links between them, and every interleaving of their
 steps. Links are first-in-first-out (section 3.5 of MPI 3.1: messages do not overtake each other).
 */
module BalancerProtocol {
  import opened EventTypes
  import opened EventMaps
  import opened Balancing
  import opened BalancerTree

  /** `up[w]` holds reductions on their way from `w` to its parent, `down[w]` broadcasts on their way to
      `w`; the record keeps what was ever broadcast and pushed. */
  datatype System = System(
    nodes: seq<Node>, up: seq<seq<EventState>>, down: seq<seq<EventState>>,
    aborted: bool, record: Record)

  datatype Record = Record(broadcasts: seq<EventState>, issued: set<Event>)

  datatype Step =
    | Push(w: nat, ev: Event, ready: bool)
    | Advance(w: nat)
    | ReceiveUp(c: nat, ready: bool)
    | ReceiveDown(w: nat)

  ghost predicate Shaped(s: System) {
    |s.nodes| > 0 && |s.up| == |s.nodes| && |s.down| == |s.nodes|
  }

  function Initial(n: nat): System {
    System(seq(n, _ => FreshNode), seq(n, _ => []), seq(n, _ => []), false, Record([], {}))
  }

  // ----- steps ------------------------------------------------------------------------

  /** The broadcast is put on the link to each child. */
  function ToChildren(down: seq<seq<EventState>>, w: nat, data: EventState): (r: seq<seq<EventState>>)
    ensures |r| == |down|
    ensures forall c :: 0 <= c < |down| ==> r[c] == if IsChild(c, w, |down|) then down[c] + [data] else down[c]
  {
    seq(|down|, c requires 0 <= c < |down| => if IsChild(c, w, |down|) then down[c] + [data] else down[c])
  }

  /** Puts what worker `w` sends on the links. Only the root starts broadcasts. */
  function Delivered(s: System, w: nat, out: Output): System
    requires Shaped(s) && w < |s.nodes|
  {
    match out
    case Nothing => s
    case SendUp(data) => s.(up := s.up[w := s.up[w] + [data]])
    case Broadcast(data) =>
      s.(down := ToChildren(s.down, w, data),
         record := s.record.(broadcasts := if w == 0 then s.record.broadcasts + [data] else s.record.broadcasts))
  }

  function WithNode(s: System, w: nat, node: Node): System
    requires Shaped(s) && w < |s.nodes|
  {
    s.(nodes := s.nodes[w := node])
  }

  ghost predicate Enabled(s: System, step: Step) {
    && Shaped(s) && !s.aborted
    && match step
       case Push(w, ev, _) => w < |s.nodes| && ev.epoch >= 0
       case Advance(w) => w < |s.nodes|
       case ReceiveUp(c, _) => 0 < c < |s.nodes| && |s.up[c]| > 0
       case ReceiveDown(w) => 0 < w < |s.nodes| && |s.down[w]| > 0
  }

  function PushStep(s: System, w: nat, ev: Event, ready: bool): System
    requires Shaped(s) && w < |s.nodes|
  {
    var node := s.nodes[w];
    var s := s.(record := s.record.(issued := s.record.issued + {ev}));
    var pushed := Pushed(node, ev);
    if ready && Novel(node.diffs.entries, ev) then
      if AdvanceAborts(pushed, w == 0) then s.(aborted := true)
      else var (next, out) := Advanced(pushed, w == 0); Delivered(WithNode(s, w, next), w, out)
    else WithNode(s, w, pushed)
  }

  function AdvanceStep(s: System, w: nat): System
    requires Shaped(s) && w < |s.nodes|
  {
    if AdvanceAborts(s.nodes[w], w == 0) then s.(aborted := true)
    else var (next, out) := Advanced(s.nodes[w], w == 0); Delivered(WithNode(s, w, next), w, out)
  }

  function ReceiveUpStep(s: System, c: nat, ready: bool): System
    requires Shaped(s) && 0 < c < |s.nodes| && |s.up[c]| > 0
  {
    var data, p := s.up[c][0], Parent(c);
    var s := s.(up := s.up[c := s.up[c][1..]]);
    if ReduceAborts(s.nodes[p], data, ready, p == 0) then s.(aborted := true)
    else var (next, out) := Reduced(s.nodes[p], data, ready, p == 0); Delivered(WithNode(s, p, next), p, out)
  }

  function ReceiveDownStep(s: System, w: nat): System
    requires Shaped(s) && 0 < w < |s.nodes| && |s.down[w]| > 0
  {
    var data := s.down[w][0];
    var s := s.(down := s.down[w := s.down[w][1..]]);
    if DigestAborts(s.nodes[w], data) then s.(aborted := true)
    else Delivered(WithNode(s, w, Digested(s.nodes[w], data)), w, Broadcast(data))
  }

  function After(s: System, step: Step): System
    requires Enabled(s, step)
  {
    match step
    case Push(w, ev, ready) => PushStep(s, w, ev, ready)
    case Advance(w) => AdvanceStep(s, w)
    case ReceiveUp(c, ready) => ReceiveUpStep(s, c, ready)
    case ReceiveDown(w) => ReceiveDownStep(s, w)
  }

  /** A run: every system results from the one before by an enabled step. */
  ghost predicate Run(n: nat, trace: seq<System>, steps: seq<Step>) {
    && n > 0 && |trace| == |steps| + 1 && trace[0] == Initial(n)
    && forall i :: 0 <= i < |steps| ==> Enabled(trace[i], steps[i]) && trace[i + 1] == After(trace[i], steps[i])
  }

  // ----- replication --------------------------------------------------------------------

  /** The global state after digesting a sequence of broadcasts. */
  ghost function Replay(h: seq<EventState>): EventState {
    if |h| == 0 then EmptyState
    else
      var updated := UpdatedState(Replay(h[..|h| - 1]), h[|h| - 1]);
      updated.(entries := WithoutOldZeros(updated.entries))
  }

  /** The state volumes are computed from after the last of these broadcasts. */
  ghost function Basis(h: seq<EventState>): EventState {
    if |h| == 0 then EmptyState else UpdatedState(Replay(h[..|h| - 1]), h[|h| - 1])
  }

  /** The worker has digested exactly the first broadcasts, as many as its epoch says. */
  ghost predicate Replica(node: Node, h: seq<EventState>) {
    && 0 <= node.balancingEpoch <= |h|
    && node.states == Replay(h[..node.balancingEpoch])
    && node.computedFrom == Basis(h[..node.balancingEpoch])
  }

  ghost predicate Numbered(h: seq<EventState>) {
    forall i :: 0 <= i < |h| ==> h[i].globalEpoch == i + 1
  }

  /** The link to a worker holds exactly the broadcasts its parent has digested and it has not. */
  ghost predicate LinkGap(link: seq<EventState>, node: Node, parent: Node, h: seq<EventState>) {
    0 <= node.balancingEpoch <= parent.balancingEpoch <= |h| &&
    link == h[node.balancingEpoch..parent.balancingEpoch]
  }

  ghost predicate Replicated(s: System) {
    && Shaped(s) && Numbered(s.record.broadcasts)
    && s.nodes[0].balancingEpoch == |s.record.broadcasts|
    && (forall w :: 0 <= w < |s.nodes| ==> Replica(s.nodes[w], s.record.broadcasts))
    && (forall w :: 0 < w < |s.nodes| ==>
          LinkGap(s.down[w], s.nodes[w], s.nodes[Parent(w)], s.record.broadcasts))
  }

  ghost predicate SameReplica(a: Node, b: Node) {
    a.states == b.states && a.balancingEpoch == b.balancingEpoch && a.computedFrom == b.computedFrom
  }

  /** The node digests `data`. */
  ghost predicate DigestsNext(node: Node, next: Node, data: EventState) {
    && data.globalEpoch == node.balancingEpoch + 1 == next.balancingEpoch
    && next.computedFrom == UpdatedState(node.states, data)
    && next.states == next.computedFrom.(entries := WithoutOldZeros(next.computedFrom.entries))
  }

  ghost predicate ReplicaEffect(node: Node, next: Node, out: Output, isRoot: bool) {
    if out.Broadcast? then isRoot && DigestsNext(node, next, out.data) else SameReplica(node, next)
  }

  lemma {:induction false} ReduceEffect(node: Node, data: EventState, ready: bool, isRoot: bool)
    ensures var (next, out) := Reduced(node, data, ready, isRoot); ReplicaEffect(node, next, out, isRoot)
  {
    hide Updated, Filtered, WithoutOldZeros;
  }

  lemma {:induction false} AdvanceEffect(node: Node, isRoot: bool)
    ensures var (next, out) := Advanced(node, isRoot); ReplicaEffect(node, next, out, isRoot)
  {
    if node.diffs.entries != map[] { ReduceEffect(Cleared(node), node.diffs, true, isRoot); }
    hide Reduced;
  }

  lemma {:induction false} ReplicaExtends(node: Node, next: Node, h: seq<EventState>, g: seq<EventState>)
    requires Replica(node, h) && |h| < |g| && h == g[..|h|] && node.balancingEpoch == |h|
    requires DigestsNext(node, next, g[|h|])
    ensures Replica(next, g[..|h| + 1])
  {
    var k := |h|;
    assert g[..k + 1][..k] == h && h[..k] == h;
    assert g[..k + 1][..k + 1] == g[..k + 1];
    hide Updated, WithoutOldZeros;
  }

  lemma {:induction false} ReplicaPrefix(node: Node, h: seq<EventState>, g: seq<EventState>)
    requires |h| <= |g| && h == g[..|h|] && Replica(node, h)
    ensures Replica(node, g)
  {
    assert g[..node.balancingEpoch] == h[..node.balancingEpoch];
  }

  /** Whatever a worker sends after a step of its own, replication is kept. */
  lemma {:induction false} SendKeepsReplicated(s: System, w: nat, next: Node, out: Output)
    requires Replicated(s) && w < |s.nodes| && ReplicaEffect(s.nodes[w], next, out, w == 0)
    ensures Replicated(Delivered(WithNode(s, w, next), w, out))
  {
    if out.Broadcast? {
      RootBroadcast(s, next, out.data);
    } else {
      hide Replay, Basis, Parent;
      var s' := Delivered(WithNode(s, w, next), w, out);
      forall v | 0 <= v < |s.nodes| ensures SameReplica(s.nodes[v], s'.nodes[v]) {}
      Unmoved(s, s');
    }
  }

  lemma {:induction false} Unmoved(s: System, s': System)
    requires Replicated(s) && Shaped(s') && |s'.nodes| == |s.nodes|
    requires s'.record.broadcasts == s.record.broadcasts && s'.down == s.down
    requires forall v :: 0 <= v < |s.nodes| ==> SameReplica(s.nodes[v], s'.nodes[v])
    ensures Replicated(s')
  {
    hide Replay, Basis, LowBit;
    forall v | 0 <= v < |s'.nodes| ensures Replica(s'.nodes[v], s'.record.broadcasts) {
      assert Replica(s.nodes[v], s.record.broadcasts);
    }
    forall v | 0 < v < |s'.nodes|
      ensures LinkGap(s'.down[v], s'.nodes[v], s'.nodes[Parent(v)], s'.record.broadcasts)
    {
      assert LinkGap(s.down[v], s.nodes[v], s.nodes[Parent(v)], s.record.broadcasts);
    }
  }

  lemma {:induction false} LinkLonger(link: seq<EventState>, node: Node, parent: Node, h: seq<EventState>,
      g: seq<EventState>)
    requires LinkGap(link, node, parent, h) && |h| <= |g| && g[..|h|] == h
    ensures LinkGap(link, node, parent, g)
  {
    var i, j := node.balancingEpoch, parent.balancingEpoch;
    assert g[i..j] == g[..|h|][i..j];
  }

  /** The parent digests one more broadcast and forwards it. */
  lemma {:induction false} LinkForwarded(link: seq<EventState>, node: Node, parent: Node, parent': Node,
      h: seq<EventState>)
    requires LinkGap(link, node, parent, h) && parent.balancingEpoch < |h|
    requires parent'.balancingEpoch == parent.balancingEpoch + 1
    ensures LinkGap(link + [h[parent.balancingEpoch]], node, parent', h)
  {
    var i, j := node.balancingEpoch, parent.balancingEpoch;
    assert h[i..j + 1] == h[i..j] + [h[j]];
  }

  /** The worker takes the first broadcast off its link. */
  lemma {:induction false} LinkShifted(link: seq<EventState>, node: Node, next: Node, parent: Node, h: seq<EventState>)
    requires LinkGap(link, node, parent, h) && |link| > 0 && next.balancingEpoch == node.balancingEpoch + 1
    ensures link[0] == h[node.balancingEpoch] && LinkGap(link[1..], next, parent, h)
  {
  }

  lemma {:induction false} RootBroadcast(s: System, next: Node, data: EventState)
    requires Replicated(s) && DigestsNext(s.nodes[0], next, data)
    ensures Replicated(Delivered(WithNode(s, 0, next), 0, Broadcast(data)))
  {
    var s' := Delivered(WithNode(s, 0, next), 0, Broadcast(data));
    var h, g := s.record.broadcasts, s'.record.broadcasts;
    assert g == h + [data] && g[..|h|] == h && g[..|h| + 1] == g;
    assert Replica(s.nodes[0], h);
    ReplicaExtends(s.nodes[0], next, h, g);
    assert Numbered(g);
    forall v | 0 < v < |s'.nodes|
      ensures Replica(s'.nodes[v], g) && LinkGap(s'.down[v], s'.nodes[v], s'.nodes[Parent(v)], g)
    {
      RootLink(s, next, data, v);
    }
    hide Replica, Parent, DigestsNext, LinkGap, Numbered;
  }

  /** Every other worker's replica and link after a broadcast of the root. */
  lemma {:induction false} RootLink(s: System, next: Node, data: EventState, v: nat)
    requires Replicated(s) && DigestsNext(s.nodes[0], next, data) && 0 < v < |s.nodes|
    ensures var s' := Delivered(WithNode(s, 0, next), 0, Broadcast(data));
            && Replica(s'.nodes[v], s'.record.broadcasts)
            && LinkGap(s'.down[v], s'.nodes[v], s'.nodes[Parent(v)], s'.record.broadcasts)
  {
    var s' := Delivered(WithNode(s, 0, next), 0, Broadcast(data));
    var h, g := s.record.broadcasts, s'.record.broadcasts;
    assert g == h + [data] && g[..|h|] == h;
    assert Replica(s.nodes[v], h);
    ReplicaPrefix(s.nodes[v], h, g);
    assert LinkGap(s.down[v], s.nodes[v], s.nodes[Parent(v)], h);
    LinkLonger(s.down[v], s.nodes[v], s.nodes[Parent(v)], h, g);
    if Parent(v) == 0 { LinkForwarded(s.down[v], s.nodes[v], s.nodes[0], next, g); }
    hide Replica, Parent, LinkGap;
  }

  /** Forwarding a broadcast moves it from one link to the links of the children. */
  lemma {:induction false} ForwardKeepsReplicated(s: System, w: nat)
    requires Replicated(s) && 0 < w < |s.nodes| && |s.down[w]| > 0 && !DigestAborts(s.nodes[w], s.down[w][0])
    ensures Replicated(ReceiveDownStep(s, w))
  {
    var h, k := s.record.broadcasts, s.nodes[w].balancingEpoch;
    var data := s.down[w][0];
    assert LinkGap(s.down[w], s.nodes[w], s.nodes[Parent(w)], h);
    assert data == h[k] && data.globalEpoch == k + 1;
    var next := Digested(s.nodes[w], data);
    assert DigestsNext(s.nodes[w], next, data);
    assert Replica(s.nodes[w], h);
    DigestedReplica(s.nodes[w], next, h, k);
    hide Replica, Parent, Digested, DigestAborts, DigestsNext, LinkGap;
    var s' := ReceiveDownStep(s, w);
    forall v | 0 < v < |s'.nodes| ensures LinkGap(s'.down[v], s'.nodes[v], s'.nodes[Parent(v)], h) {
      assert LinkGap(s.down[v], s.nodes[v], s.nodes[Parent(v)], h);
      if v == w {
        LinkShifted(s.down[v], s.nodes[v], next, s.nodes[Parent(v)], h);
      } else if Parent(v) == w {
        LinkForwarded(s.down[v], s.nodes[v], s.nodes[w], next, h);
      }
    }
  }

  lemma {:induction false} DigestedReplica(node: Node, next: Node, h: seq<EventState>, k: nat)
    requires Replica(node, h) && node.balancingEpoch == k < |h| && DigestsNext(node, next, h[k])
    ensures Replica(next, h)
  {
    assert h[..k + 1][..k] == h[..k];
    hide Updated, WithoutOldZeros;
  }
}
