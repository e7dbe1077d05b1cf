/**
 Safety of the balancing protocol over all runs: workers with equal epochs agree, no event is lost, and
 no worker aborts as long as job and epoch determine an event.
 */
module BalancerSafety {
  import opened EventTypes
  import opened EventMaps
  import opened Balancing
  import opened BalancerTree
  import opened BalancerProtocol

  // ----- where events are ---------------------------------------------------------------

  /** The map holds the event or a newer one of the same job. */
  ghost predicate Holds(m: EventState, ev: Event) {
    ev.jobId in m.entries && m.entries[ev.jobId].epoch >= ev.epoch
  }

  ghost predicate InDiffs(s: System, ev: Event) {
    exists w :: 0 <= w < |s.nodes| && Holds(s.nodes[w].diffs, ev)
  }

  ghost predicate OnLink(link: seq<EventState>, ev: Event) {
    exists i :: 0 <= i < |link| && Holds(link[i], ev)
  }

  ghost predicate InTransit(s: System, ev: Event) {
    exists c :: 0 <= c < |s.up| && OnLink(s.up[c], ev)
  }

  /** The event or a newer one waits in some worker's diffs, travels upwards, or was broadcast. */
  ghost predicate Covered(s: System, ev: Event) {
    InDiffs(s, ev) || InTransit(s, ev) || OnLink(s.record.broadcasts, ev)
  }

  /** Only issued events. */
  ghost predicate Known(m: EventState, issued: set<Event>) {
    m.Valid() && forall j :: j in m.entries ==> m.entries[j] in issued
  }

  ghost predicate AllKnown(ms: seq<EventState>, issued: set<Event>) {
    forall i :: 0 <= i < |ms| ==> Known(ms[i], issued)
  }

  ghost predicate Contained(s: System) {
    && Shaped(s) && AllKnown(s.record.broadcasts, s.record.issued)
    && (forall w :: 0 <= w < |s.nodes| ==> Known(s.nodes[w].diffs, s.record.issued))
    && (forall c :: 0 <= c < |s.up| ==> AllKnown(s.up[c], s.record.issued))
  }

  ghost predicate NothingLost(s: System) {
    forall ev :: ev in s.record.issued ==> Covered(s, ev)
  }

  ghost predicate Invariant(s: System) {
    Replicated(s) && Contained(s) && NothingLost(s)
  }

  /** No two different events of one job share an epoch. */
  ghost predicate Functional(issued: set<Event>) {
    forall a, b :: a in issued && b in issued && a.jobId == b.jobId && a.epoch == b.epoch ==> a == b
  }

  // ----- operations on event maps -----------------------------------------------------------

  lemma {:induction false} InsertHolds(m: EventState, ev: Event, other: Event)
    requires m.Valid() && ev.epoch >= 0
    ensures Holds(m.(entries := Inserted(m.entries, ev)), ev)
    ensures Holds(m, other) ==> Holds(m.(entries := Inserted(m.entries, ev)), other)
  {
  }

  lemma {:induction false} UpdateHolds(a: EventState, b: EventState, ev: Event)
    requires a.Valid() && b.Valid()
    ensures Holds(UpdatedState(a, b), ev) <==> Holds(a, ev) || Holds(b, ev)
  {
  }

  lemma {:induction false} FilterHolds(a: EventState, b: EventState, ev: Event)
    requires Holds(a, ev)
    ensures Holds(FilteredState(a, b), ev) || Holds(b, ev)
  {
  }

  lemma {:induction false} InsertKnown(m: EventState, ev: Event, issued: set<Event>)
    requires Known(m, issued) && ev in issued && ev.epoch >= 0
    ensures Known(m.(entries := Inserted(m.entries, ev)), issued)
  {
  }

  lemma {:induction false} UpdateKnown(a: EventState, b: EventState, issued: set<Event>)
    requires Known(a, issued) && Known(b, issued)
    ensures Known(UpdatedState(a, b), issued)
  {
  }

  lemma {:induction false} FilterKnown(a: EventState, b: EventState, issued: set<Event>)
    requires Known(a, issued)
    ensures Known(FilteredState(a, b), issued)
  {
  }

  lemma {:induction false} NoConflict(a: EventState, b: EventState, issued: set<Event>)
    requires Known(a, issued) && Known(b, issued) && Functional(issued)
    ensures !Conflict(a.entries, b.entries)
  {
    forall j | j in a.entries && j in b.entries && b.entries[j].epoch == a.entries[j].epoch
      ensures b.entries[j] == a.entries[j]
    {
      assert a.entries[j].jobId == j == b.entries[j].jobId;
    }
  }

  /** The replicated state holds nothing but broadcast events. */
  lemma {:induction false} ReplayKnown(h: seq<EventState>, issued: set<Event>)
    requires AllKnown(h, issued)
    ensures Known(Replay(h), issued)
  {
    if |h| > 0 {
      var front := h[..|h| - 1];
      assert forall i :: 0 <= i < |front| ==> front[i] == h[i];
      ReplayKnown(front, issued);
      UpdateKnown(Replay(front), h[|h| - 1], issued);
    }
  }

  lemma {:induction false} ReplayOnLink(h: seq<EventState>, ev: Event)
    requires forall i :: 0 <= i < |h| ==> h[i].Valid()
    requires Holds(Replay(h), ev)
    ensures OnLink(h, ev)
  {
    if |h| > 0 {
      var front := h[..|h| - 1];
      assert forall i :: 0 <= i < |front| ==> front[i] == h[i];
      ReplayIsValid(front);
      UpdateHolds(Replay(front), h[|h| - 1], ev);
      if Holds(h[|h| - 1], ev) {
      } else {
        ReplayOnLink(front, ev);
        var i :| 0 <= i < |front| && Holds(front[i], ev);
        assert Holds(h[i], ev);
      }
    }
  }

  lemma {:induction false} ReplayIsValid(h: seq<EventState>)
    requires forall i :: 0 <= i < |h| ==> h[i].Valid()
    ensures Replay(h).Valid()
  {
    if |h| > 0 {
      var front := h[..|h| - 1];
      assert forall i :: 0 <= i < |front| ==> front[i] == h[i];
      ReplayIsValid(front);
      UpdatedValid(Replay(front), h[|h| - 1]);
      ThinnedValid(UpdatedState(Replay(front), h[|h| - 1]));
    }
  }

  // ----- what one worker's step does to its events --------------------------------------------

  /** Every event the worker held, or got, is still held by it or sent. */
  ghost predicate Keeps(held: EventState, next: Node, out: Output, ev: Event) {
    Holds(held, ev) ==> Holds(next.diffs, ev) || (!out.Nothing? && Holds(out.data, ev))
  }

  ghost predicate OutKnown(next: Node, out: Output, issued: set<Event>) {
    Known(next.diffs, issued) && (!out.Nothing? ==> Known(out.data, issued))
  }

  lemma {:induction false} ReduceKeeps(node: Node, data: EventState, ready: bool, isRoot: bool, ev: Event)
    requires node.diffs.Valid() && data.Valid()
    ensures var (next, out) := Reduced(node, data, ready, isRoot);
            Keeps(node.diffs, next, out, ev) && Keeps(data, next, out, ev)
  {
    UpdateHolds(node.diffs, data, ev);
    hide Updated, Filtered, WithoutOldZeros;
    var n := Collected(node, data);
    assert Holds(n.diffs, ev) <==> Holds(Stamped(n).diffs, ev);
  }

  lemma {:induction false} ReduceKnown(node: Node, data: EventState, ready: bool, isRoot: bool, issued: set<Event>)
    requires Known(node.diffs, issued) && Known(data, issued)
    ensures var (next, out) := Reduced(node, data, ready, isRoot); OutKnown(next, out, issued)
  {
    UpdateKnown(node.diffs, data, issued);
    var n := Collected(node, data);
    FilterKnown(Stamped(n).diffs, UpdatedState(n.states, Stamped(n).diffs), issued);
    hide Updated, Filtered, WithoutOldZeros;
  }

  lemma {:induction false} ReduceSafe(node: Node, data: EventState, ready: bool, isRoot: bool, issued: set<Event>)
    requires Known(node.diffs, issued) && Known(data, issued) && Known(node.states, issued) && Functional(issued)
    ensures !ReduceAborts(node, data, ready, isRoot)
  {
    UpdateKnown(node.diffs, data, issued);
    var d := Stamped(Collected(node, data)).diffs;
    UpdateKnown(node.states, d, issued);
    NoConflict(d, UpdatedState(node.states, d), issued);
    hide Updated, Conflict;
  }

  lemma {:induction false} AdvanceKeeps(node: Node, isRoot: bool, ev: Event, issued: set<Event>)
    requires Known(node.diffs, issued)
    ensures var (next, out) := Advanced(node, isRoot);
            Keeps(node.diffs, next, out, ev) && OutKnown(next, out, issued)
    ensures Functional(issued) && Known(node.states, issued) ==> !AdvanceAborts(node, isRoot)
  {
    if node.diffs.entries != map[] {
      ReduceKeeps(Cleared(node), node.diffs, true, isRoot, ev);
      ReduceKnown(Cleared(node), node.diffs, true, isRoot, issued);
      if Functional(issued) && Known(node.states, issued) {
        ReduceSafe(Cleared(node), node.diffs, true, isRoot, issued);
      }
    }
    hide Reduced, ReduceAborts;
  }

  // ----- what a step does to the system -----------------------------------------------------

  lemma {:induction false} LinkGrows(link: seq<EventState>, data: EventState, ev: Event)
    ensures OnLink(link, ev) || Holds(data, ev) ==> OnLink(link + [data], ev)
  {
    if OnLink(link, ev) {
      var i :| 0 <= i < |link| && Holds(link[i], ev);
      assert Holds((link + [data])[i], ev);
    } else if Holds(data, ev) {
      assert Holds((link + [data])[|link|], ev);
    }
  }

  lemma {:induction false} LinkShrinks(link: seq<EventState>, ev: Event)
    requires |link| > 0 && OnLink(link, ev)
    ensures Holds(link[0], ev) || OnLink(link[1..], ev)
  {
    var i :| 0 <= i < |link| && Holds(link[i], ev);
    if i > 0 { assert Holds(link[1..][i - 1], ev); }
  }

  /** What the worker still holds or sends is covered after the delivery. */
  lemma {:induction false} DeliveryCovers(s: System, w: nat, next: Node, out: Output, ev: Event)
    requires Shaped(s) && w < |s.nodes| && (out.Broadcast? ==> w == 0)
    requires Holds(next.diffs, ev) || (!out.Nothing? && Holds(out.data, ev))
    ensures Covered(Delivered(WithNode(s, w, next), w, out), ev)
  {
    hide Holds;
    var s' := Delivered(WithNode(s, w, next), w, out);
    if Holds(next.diffs, ev) {
      assert Holds(s'.nodes[w].diffs, ev);
    } else if out.SendUp? {
      LinkGrows(s.up[w], out.data, ev);
      assert OnLink(s'.up[w], ev);
    } else {
      LinkGrows(s.record.broadcasts, out.data, ev);
    }
  }

  lemma {:induction false} DeliveryKeepsCovered(s: System, w: nat, next: Node, out: Output, ev: Event)
    requires Shaped(s) && w < |s.nodes| && (out.Broadcast? ==> w == 0)
    requires Keeps(s.nodes[w].diffs, next, out, ev) && Covered(s, ev)
    ensures Covered(Delivered(WithNode(s, w, next), w, out), ev)
  {
    hide Holds;
    var s' := Delivered(WithNode(s, w, next), w, out);
    if InDiffs(s, ev) {
      var v :| 0 <= v < |s.nodes| && Holds(s.nodes[v].diffs, ev);
      if v == w { DeliveryCovers(s, w, next, out, ev); }
      else { assert s'.nodes[v] == s.nodes[v]; assert InDiffs(s', ev); }
    } else if InTransit(s, ev) {
      var c :| 0 <= c < |s.up| && OnLink(s.up[c], ev);
      if out.SendUp? && c == w { LinkGrows(s.up[w], out.data, ev); }
      assert OnLink(s'.up[c], ev);
      assert InTransit(s', ev);
    } else if out.Broadcast? {
      LinkGrows(s.record.broadcasts, out.data, ev);
    }
  }

  lemma {:induction false} DeliveryKeepsContained(s: System, w: nat, next: Node, out: Output)
    requires Contained(s) && w < |s.nodes| && OutKnown(next, out, s.record.issued)
    ensures Contained(Delivered(WithNode(s, w, next), w, out))
  {
    hide Known;
    var s' := Delivered(WithNode(s, w, next), w, out);
    forall c | 0 <= c < |s'.up| ensures AllKnown(s'.up[c], s.record.issued) {
      assert AllKnown(s.up[c], s.record.issued);
    }
  }

  /** A delivery after a step of worker `w` keeps the invariant, given that the step keeps its parts. */
  lemma {:induction false} DeliveryKeepsInvariant(s: System, w: nat, next: Node, out: Output)
    requires Replicated(s) && Contained(s) && w < |s.nodes|
    requires ReplicaEffect(s.nodes[w], next, out, w == 0) && OutKnown(next, out, s.record.issued)
    requires forall ev :: ev in s.record.issued ==>
               (Covered(s, ev) && Keeps(s.nodes[w].diffs, next, out, ev))
               || Holds(next.diffs, ev) || (!out.Nothing? && Holds(out.data, ev))
    ensures Invariant(Delivered(WithNode(s, w, next), w, out))
  {
    SendKeepsReplicated(s, w, next, out);
    DeliveryKeepsContained(s, w, next, out);
    hide Replicated, Contained, OutKnown, Covered, Holds, Keeps;
    assert out.Broadcast? ==> w == 0;
    var s' := Delivered(WithNode(s, w, next), w, out);
    assert s'.record.issued == s.record.issued;
    assert Shaped(s) by { ContainedShape(s); }
    forall ev | ev in s'.record.issued ensures Covered(s', ev) {
      if Covered(s, ev) && Keeps(s.nodes[w].diffs, next, out, ev) {
        DeliveryKeepsCovered(s, w, next, out, ev);
      } else {
        DeliveryCovers(s, w, next, out, ev);
      }
    }
  }

  lemma {:induction false} ContainedShape(s: System)
    requires Contained(s)
    ensures Shaped(s)
  {
  }

  lemma {:induction false} NodeStatesKnown(s: System, w: nat)
    requires Replicated(s) && Contained(s) && w < |s.nodes|
    ensures Known(s.nodes[w].states, s.record.issued) && Known(s.nodes[w].diffs, s.record.issued)
  {
    hide Known;
    var h, k := s.record.broadcasts, s.nodes[w].balancingEpoch;
    assert Replica(s.nodes[w], h);
    assert forall i :: 0 <= i < k ==> h[..k][i] == h[i];
    ReplayKnown(h[..k], s.record.issued);
  }

  lemma {:induction false} AdvanceKeepsInvariant(s: System, w: nat)
    requires Invariant(s) && w < |s.nodes| && !AdvanceAborts(s.nodes[w], w == 0)
    ensures Invariant(AdvanceStep(s, w))
  {
    var (next, out) := Advanced(s.nodes[w], w == 0);
    NodeStatesKnown(s, w);
    AdvanceEffect(s.nodes[w], w == 0);
    var any := Event(0, 0, 0, 0.0);
    AdvanceKeeps(s.nodes[w], w == 0, any, s.record.issued);
    hide Replicated, Contained, Advanced, AdvanceAborts, ReplicaEffect, OutKnown, Keeps, Covered, Known;
    forall ev | ev in s.record.issued
      ensures Covered(s, ev) && Keeps(s.nodes[w].diffs, next, out, ev)
    {
      AdvanceKeeps(s.nodes[w], w == 0, ev, s.record.issued);
    }
    DeliveryKeepsInvariant(s, w, next, out);
  }

  // ----- pushing ---------------------------------------------------------------------------

  /** The system with an event recorded as issued and put into a worker's diffs. */
  function WithPushed(s: System, w: nat, ev: Event): System
    requires Shaped(s) && w < |s.nodes|
  {
    WithNode(s.(record := s.record.(issued := s.record.issued + {ev})), w, Pushed(s.nodes[w], ev))
  }

  lemma {:induction false} PushThenAdvance(s: System, w: nat, ev: Event, ready: bool)
    requires Shaped(s) && w < |s.nodes|
    ensures var t := WithPushed(s, w, ev);
            && (!(ready && Novel(s.nodes[w].diffs.entries, ev)) ==> PushStep(s, w, ev, ready) == t)
            && (ready && Novel(s.nodes[w].diffs.entries, ev) && !AdvanceAborts(t.nodes[w], w == 0) ==>
                  PushStep(s, w, ev, ready) == AdvanceStep(t, w))
            && (PushStep(s, w, ev, ready).aborted && !s.aborted ==> AdvanceAborts(t.nodes[w], w == 0))
  {
    hide Advanced, AdvanceAborts, Novel, Pushed, ToChildren;
    var t := WithPushed(s, w, ev);
    var (next, out) := Advanced(t.nodes[w], w == 0);
    assert t.nodes[w := next] == s.nodes[w := next];
  }

  lemma {:induction false} MoreIssued(ms: seq<EventState>, issued: set<Event>, ev: Event)
    requires AllKnown(ms, issued)
    ensures AllKnown(ms, issued + {ev})
  {
    forall i | 0 <= i < |ms| ensures Known(ms[i], issued + {ev}) {
      assert Known(ms[i], issued);
    }
  }

  lemma {:induction false} PushedContained(s: System, w: nat, ev: Event)
    requires Contained(s) && w < |s.nodes| && ev.epoch >= 0
    ensures Contained(WithPushed(s, w, ev))
  {
    var t, issued := WithPushed(s, w, ev), s.record.issued + {ev};
    MoreIssued(s.record.broadcasts, s.record.issued, ev);
    forall c | 0 <= c < |t.up| ensures AllKnown(t.up[c], issued) {
      MoreIssued(s.up[c], s.record.issued, ev);
    }
    hide AllKnown;
    forall v | 0 <= v < |t.nodes| ensures Known(t.nodes[v].diffs, issued) {
      assert Known(s.nodes[v].diffs, s.record.issued);
      if v == w { InsertKnown(s.nodes[w].diffs, ev, issued); }
    }
  }

  lemma {:induction false} PushedInvariant(s: System, w: nat, ev: Event)
    requires Invariant(s) && w < |s.nodes| && ev.epoch >= 0
    ensures Invariant(WithPushed(s, w, ev))
  {
    var t := WithPushed(s, w, ev);
    PushedContained(s, w, ev);
    Unmoved(s, t);
    assert Known(s.nodes[w].diffs, s.record.issued);
    var s1 := s.(record := s.record.(issued := s.record.issued + {ev}));
    hide Replicated, Contained;
    forall e | e in t.record.issued ensures Covered(t, e) {
      InsertHolds(s.nodes[w].diffs, ev, e);
      if e == ev {
        DeliveryCovers(s1, w, t.nodes[w], Nothing, e);
      } else {
        assert Covered(s, e);
        assert Covered(s1, e);
        DeliveryKeepsCovered(s1, w, t.nodes[w], Nothing, e);
      }
    }
  }

  // ----- receiving -------------------------------------------------------------------------

  function WithoutHead(s: System, c: nat): System
    requires Shaped(s) && c < |s.nodes| && |s.up[c]| > 0
  {
    s.(up := s.up[c := s.up[c][1..]])
  }

  lemma {:induction false} PopKeeps(s: System, c: nat)
    requires Replicated(s) && Contained(s) && c < |s.nodes| && |s.up[c]| > 0
    ensures Replicated(WithoutHead(s, c)) && Contained(WithoutHead(s, c)) && Known(s.up[c][0], s.record.issued)
  {
    var t := WithoutHead(s, c);
    assert AllKnown(s.up[c], s.record.issued);
    hide Known;
    forall d | 0 <= d < |t.up| ensures AllKnown(t.up[d], s.record.issued) {
      assert AllKnown(s.up[d], s.record.issued);
    }
    Unmoved(s, t);
  }

  lemma {:induction false} PopCovered(s: System, c: nat, ev: Event)
    requires Shaped(s) && c < |s.nodes| && |s.up[c]| > 0 && Covered(s, ev)
    ensures Covered(WithoutHead(s, c), ev) || Holds(s.up[c][0], ev)
  {
    hide Holds;
    var t := WithoutHead(s, c);
    if InDiffs(s, ev) {
      assert InDiffs(t, ev);
    } else if InTransit(s, ev) {
      var d :| 0 <= d < |s.up| && OnLink(s.up[d], ev);
      if d == c { LinkShrinks(s.up[c], ev); }
      assert d != c ==> OnLink(t.up[d], ev);
      assert d == c && !Holds(s.up[c][0], ev) ==> OnLink(t.up[c], ev);
    }
  }

  lemma {:induction false} ReceiveUpKeepsInvariant(s: System, c: nat, ready: bool)
    requires Invariant(s) && 0 < c < |s.nodes| && |s.up[c]| > 0
    requires !ReduceAborts(s.nodes[Parent(c)], s.up[c][0], ready, Parent(c) == 0)
    ensures Invariant(ReceiveUpStep(s, c, ready))
  {
    var t, data, p := WithoutHead(s, c), s.up[c][0], Parent(c);
    PopKeeps(s, c);
    NodeStatesKnown(s, p);
    var (next, out) := Reduced(s.nodes[p], data, ready, p == 0);
    ReduceEffect(s.nodes[p], data, ready, p == 0);
    ReduceKnown(s.nodes[p], data, ready, p == 0, s.record.issued);
    assert Shaped(s) && s.nodes[p].diffs.Valid() && data.Valid();
    hide Replicated, Contained, Reduced, ReduceAborts, ReplicaEffect, OutKnown, Covered, Known, Holds;
    forall ev | ev in t.record.issued
      ensures (Covered(t, ev) && Keeps(t.nodes[p].diffs, next, out, ev))
              || Holds(next.diffs, ev) || (!out.Nothing? && Holds(out.data, ev))
    {
      assert Covered(s, ev);
      PopCovered(s, c, ev);
      ReduceKeeps(s.nodes[p], data, ready, p == 0, ev);
    }
    DeliveryKeepsInvariant(t, p, next, out);
  }

  /** What a digest filters out of the diffs was broadcast. */
  lemma {:induction false} DigestCovers(s: System, w: nat, ev: Event)
    requires Replicated(s) && Contained(s) && 0 < w < |s.nodes| && |s.down[w]| > 0
    requires Holds(s.nodes[w].diffs, ev)
    ensures Holds(Digested(s.nodes[w], s.down[w][0]).diffs, ev) || OnLink(s.record.broadcasts, ev)
  {
    var node, data, h := s.nodes[w], s.down[w][0], s.record.broadcasts;
    var k := node.balancingEpoch;
    assert Replica(node, h);
    assert LinkGap(s.down[w], node, s.nodes[Parent(w)], h);
    assert data == h[k];
    assert Known(data, s.record.issued);
    NodeStatesKnown(s, w);
    assert forall i :: 0 <= i < k ==> h[..k][i] == h[i] && Known(h[i], s.record.issued);
    hide Updated, Filtered, WithoutOldZeros, Contained, LinkGap;
    var updated := UpdatedState(node.states, data);
    FilterHolds(node.diffs, updated, ev);
    UpdateHolds(node.states, data, ev);
    if Holds(node.states, ev) {
      ReplayOnLink(h[..k], ev);
      var i :| 0 <= i < k && Holds(h[..k][i], ev);
      assert Holds(h[i], ev);
    }
  }

  lemma {:induction false} ReceiveDownCovered(s: System, w: nat, ev: Event)
    requires Replicated(s) && Contained(s) && 0 < w < |s.nodes| && |s.down[w]| > 0
    requires !DigestAborts(s.nodes[w], s.down[w][0]) && Covered(s, ev)
    ensures Covered(ReceiveDownStep(s, w), ev)
  {
    var s' := ReceiveDownStep(s, w);
    if Holds(s.nodes[w].diffs, ev) { DigestCovers(s, w, ev); }
    hide Replicated, Contained, Digested, DigestAborts, Holds;
    if InDiffs(s, ev) {
      var v :| 0 <= v < |s.nodes| && Holds(s.nodes[v].diffs, ev);
      if v == w {
        assert Holds(s'.nodes[w].diffs, ev) ==> InDiffs(s', ev);
      } else {
        assert Holds(s'.nodes[v].diffs, ev);
        assert InDiffs(s', ev);
      }
    }
  }

  lemma {:induction false} ReceiveDownKeepsInvariant(s: System, w: nat)
    requires Invariant(s) && 0 < w < |s.nodes| && |s.down[w]| > 0 && !DigestAborts(s.nodes[w], s.down[w][0])
    ensures Invariant(ReceiveDownStep(s, w))
  {
    var s' := ReceiveDownStep(s, w);
    ForwardKeepsReplicated(s, w);
    NodeStatesKnown(s, w);
    FilterKnown(s.nodes[w].diffs, UpdatedState(s.nodes[w].states, s.down[w][0]), s.record.issued);
    assert Contained(s') by {
      hide Known, AllKnown, Filtered, Updated;
      assert s'.up == s.up && s'.record == s.record;
    }
    hide Replicated, Contained, Digested, DigestAborts, Covered;
    forall ev | ev in s'.record.issued ensures Covered(s', ev) {
      assert Covered(s, ev);
      ReceiveDownCovered(s, w, ev);
    }
  }

  // ----- all steps, all runs -----------------------------------------------------------------

  lemma {:induction false} InitialInvariant(n: nat)
    requires n > 0
    ensures Invariant(Initial(n)) && !Initial(n).aborted
  {
    hide LowBit;
    var s := Initial(n);
    forall w | 0 < w < n ensures LinkGap(s.down[w], s.nodes[w], s.nodes[Parent(w)], []) {
      assert Parent(w) < w;
    }
  }

  /** Every step keeps the invariant, unless the worker that takes it aborts. */
  lemma {:induction false} StepKeepsInvariant(s: System, step: Step)
    requires Invariant(s) && Enabled(s, step)
    ensures After(s, step).aborted || Invariant(After(s, step))
  {
    hide Invariant, AdvanceAborts, ReduceAborts, DigestAborts, Advanced, Reduced, Digested, Delivered;
    match step
    case Push(w, ev, ready) =>
      PushedInvariant(s, w, ev);
      PushThenAdvance(s, w, ev, ready);
      var t := WithPushed(s, w, ev);
      if ready && Novel(s.nodes[w].diffs.entries, ev) && !AdvanceAborts(t.nodes[w], w == 0) {
        AdvanceKeepsInvariant(t, w);
      }
    case Advance(w) =>
      if !AdvanceAborts(s.nodes[w], w == 0) { AdvanceKeepsInvariant(s, w); }
    case ReceiveUp(c, ready) =>
      if !ReduceAborts(s.nodes[Parent(c)], s.up[c][0], ready, Parent(c) == 0) {
        ReceiveUpKeepsInvariant(s, c, ready);
      }
    case ReceiveDown(w) =>
      if !DigestAborts(s.nodes[w], s.down[w][0]) { ReceiveDownKeepsInvariant(s, w); }
  }

  /** Where job and epoch determine the event, no step aborts. */
  lemma {:induction false} StepIsSafe(s: System, step: Step)
    requires Invariant(s) && Enabled(s, step) && Functional(After(s, step).record.issued)
    ensures !After(s, step).aborted
  {
    hide AdvanceAborts, ReduceAborts, DigestAborts, Advanced, Reduced, Digested, Delivered, Covered;
    var any := Event(0, 0, 0, 0.0);
    match step
    case Push(w, ev, ready) =>
      PushedInvariant(s, w, ev);
      PushThenAdvance(s, w, ev, ready);
      PushIssues(s, w, ev, ready);
      var t := WithPushed(s, w, ev);
      NodeStatesKnown(t, w);
      AdvanceKeeps(t.nodes[w], w == 0, any, t.record.issued);
    case Advance(w) =>
      NodeStatesKnown(s, w);
      AdvanceIssues(s, w);
      AdvanceKeeps(s.nodes[w], w == 0, any, s.record.issued);
    case ReceiveUp(c, ready) =>
      PopKeeps(s, c);
      NodeStatesKnown(s, Parent(c));
      ReceiveUpIssues(s, c, ready);
      ReduceSafe(s.nodes[Parent(c)], s.up[c][0], ready, Parent(c) == 0, s.record.issued);
    case ReceiveDown(w) =>
      ReceiveDownIsSafe(s, w);
  }

  lemma {:induction false} PushIssues(s: System, w: nat, ev: Event, ready: bool)
    requires Shaped(s) && w < |s.nodes|
    ensures PushStep(s, w, ev, ready).record.issued == s.record.issued + {ev}
  {
    hide Advanced, AdvanceAborts, Novel;
  }

  lemma {:induction false} AdvanceIssues(s: System, w: nat)
    requires Shaped(s) && w < |s.nodes|
    ensures AdvanceStep(s, w).record.issued == s.record.issued
    ensures !s.aborted && !AdvanceAborts(s.nodes[w], w == 0) ==> !AdvanceStep(s, w).aborted
  {
    hide Advanced, AdvanceAborts;
  }

  lemma {:induction false} ReceiveUpIssues(s: System, c: nat, ready: bool)
    requires Shaped(s) && 0 < c < |s.nodes| && |s.up[c]| > 0
    ensures ReceiveUpStep(s, c, ready).record.issued == s.record.issued
    ensures !s.aborted && !ReduceAborts(s.nodes[Parent(c)], s.up[c][0], ready, Parent(c) == 0) ==>
              !ReceiveUpStep(s, c, ready).aborted
  {
    hide Reduced, ReduceAborts;
  }

  lemma {:induction false} ReceiveDownIsSafe(s: System, w: nat)
    requires Invariant(s) && !s.aborted && 0 < w < |s.nodes| && |s.down[w]| > 0
    requires Functional(ReceiveDownStep(s, w).record.issued)
    ensures !ReceiveDownStep(s, w).aborted
  {
    var node, data := s.nodes[w], s.down[w][0];
    assert LinkGap(s.down[w], node, s.nodes[Parent(w)], s.record.broadcasts);
    assert data == s.record.broadcasts[node.balancingEpoch];
    assert Known(data, s.record.issued);
    NodeStatesKnown(s, w);
    hide Replicated, Contained, NothingLost, Conflict, Updated, LinkGap;
    UpdateKnown(node.states, data, s.record.issued);
    assert ReceiveDownStep(s, w).record.issued == s.record.issued;
    NoConflict(node.diffs, UpdatedState(node.states, data), s.record.issued);
  }

  lemma {:induction false} RunShape(n: nat, trace: seq<System>, steps: seq<Step>, k: nat)
    requires Run(n, trace, steps) && k < |trace|
    ensures |steps| == |trace| - 1
    ensures k > 0 ==> Enabled(trace[k - 1], steps[k - 1]) && trace[k] == After(trace[k - 1], steps[k - 1])
  {
  }

  /** In every run, every system before an abort satisfies the invariant. */
  lemma {:induction false} RunKeepsInvariant(n: nat, trace: seq<System>, steps: seq<Step>, k: nat)
    requires Run(n, trace, steps) && k < |trace| && !trace[k].aborted
    ensures Invariant(trace[k])
  {
    hide Invariant, Run, Enabled, After;
    if k == 0 {
      RunStarts(n, trace, steps);
      InitialInvariant(n);
    } else {
      RunShape(n, trace, steps, k);
      EnabledMeansRunning(trace[k - 1], steps[k - 1]);
      RunKeepsInvariant(n, trace, steps, k - 1);
      StepKeepsInvariant(trace[k - 1], steps[k - 1]);
    }
  }

  lemma {:induction false} RunStarts(n: nat, trace: seq<System>, steps: seq<Step>)
    requires Run(n, trace, steps)
    ensures n > 0 && |trace| > 0 && trace[0] == Initial(n)
  {
  }

  lemma {:induction false} EnabledMeansRunning(s: System, step: Step)
    requires Enabled(s, step)
    ensures !s.aborted
  {
  }

  // ----- the theorems --------------------------------------------------------------------------

  /** Any two workers that have digested the same balancing epoch hold identical event states, and
      computed their volumes from identical event states. */
  lemma {:induction false} Agreement(n: nat, trace: seq<System>, steps: seq<Step>, k: nat, u: nat, v: nat)
    requires Run(n, trace, steps) && k < |trace| && !trace[k].aborted
    requires u < |trace[k].nodes| && v < |trace[k].nodes|
    requires trace[k].nodes[u].balancingEpoch == trace[k].nodes[v].balancingEpoch
    ensures trace[k].nodes[u].states == trace[k].nodes[v].states
    ensures trace[k].nodes[u].computedFrom == trace[k].nodes[v].computedFrom
  {
    RunKeepsInvariant(n, trace, steps, k);
    var s := trace[k];
    hide Run, Contained, NothingLost, Replay, Basis;
    assert Replica(s.nodes[u], s.record.broadcasts) && Replica(s.nodes[v], s.record.broadcasts);
  }

  /** A worker that lags behind holds exactly what any other worker held at that epoch. */
  lemma {:induction false} AgreementAcrossTime(n: nat, trace: seq<System>, steps: seq<Step>, k: nat, l: nat, u: nat,
      v: nat)
    requires Run(n, trace, steps) && k <= l < |trace| && !trace[l].aborted && !trace[k].aborted
    requires u < |trace[k].nodes| && v < |trace[l].nodes|
    requires trace[k].nodes[u].balancingEpoch == trace[l].nodes[v].balancingEpoch
    ensures trace[k].nodes[u].states == trace[l].nodes[v].states
    ensures trace[k].nodes[u].computedFrom == trace[l].nodes[v].computedFrom
  {
    RunKeepsInvariant(n, trace, steps, k);
    RunKeepsInvariant(n, trace, steps, l);
    BroadcastsGrow(n, trace, steps, k, l);
    var h, g := trace[k].record.broadcasts, trace[l].record.broadcasts;
    var e := trace[k].nodes[u].balancingEpoch;
    hide Run, Contained, NothingLost, Replay, Basis;
    assert Replica(trace[k].nodes[u], h) && Replica(trace[l].nodes[v], g);
    assert h[..e] == g[..e];
  }

  lemma {:induction false} BroadcastsGrow(n: nat, trace: seq<System>, steps: seq<Step>, k: nat, l: nat)
    requires Run(n, trace, steps) && k <= l < |trace|
    ensures trace[k].record.broadcasts <= trace[l].record.broadcasts
    decreases l - k
  {
    hide Run, Enabled, After;
    if k < l {
      BroadcastsGrow(n, trace, steps, k, l - 1);
      RunShape(n, trace, steps, l);
      StepAppends(trace[l - 1], steps[l - 1]);
    }
  }

  lemma {:induction false} StepAppends(s: System, step: Step)
    requires Enabled(s, step)
    ensures s.record.broadcasts <= After(s, step).record.broadcasts
  {
    hide Advanced, Reduced, Digested, AdvanceAborts, ReduceAborts, DigestAborts, Novel, ToChildren;
  }

  /** No event is lost: what was issued is covered in every later system. */
  lemma {:induction false} NoEventLost(n: nat, trace: seq<System>, steps: seq<Step>, k: nat, ev: Event)
    requires Run(n, trace, steps) && k < |trace| && !trace[k].aborted && ev in trace[k].record.issued
    ensures Covered(trace[k], ev)
  {
    RunKeepsInvariant(n, trace, steps, k);
    hide Run, Replicated, Contained, Covered;
  }

  /** No run aborts whose issued events are determined by job and epoch. */
  lemma {:induction false} NoAbort(n: nat, trace: seq<System>, steps: seq<Step>, k: nat)
    requires Run(n, trace, steps) && k < |trace| && Functional(trace[k].record.issued)
    ensures !trace[k].aborted
  {
    hide Invariant, Enabled, After;
    if k == 0 {
      InitialInvariant(n);
    } else {
      RunShape(n, trace, steps, k);
      EnabledMeansRunning(trace[k - 1], steps[k - 1]);
      RunKeepsInvariant(n, trace, steps, k - 1);
      StepIsSafe(trace[k - 1], steps[k - 1]);
    }
  }

  /** A worker that holds an event aborts when it digests another one of the same job and epoch. */
  lemma {:induction false} ConflictIsFound(node: Node, e: Event, f: Event)
    requires node.diffs.entries == map[] && f.jobId in node.states.entries && node.states.entries[f.jobId] == f
    requires e.jobId == f.jobId && e.epoch == f.epoch >= 0 && e != f
    ensures Novel(node.diffs.entries, e) && AdvanceAborts(Pushed(node, e), true)
  {
    var pushed := Pushed(node, e);
    var n := Stamped(Collected(Cleared(pushed), pushed.diffs));
    assert e.jobId in pushed.diffs.entries;
    assert e.jobId in n.diffs.entries && n.diffs.entries[e.jobId] == e;
    var updated := Updated(n.states.entries, n.diffs.entries);
    assert f.jobId in updated && updated[f.jobId] == f;
  }

  lemma {:induction false} FirstIsDigested(f: Event)
    requires f.epoch >= 0 && !OldZero(f)
    ensures Novel(FreshNode.diffs.entries, f) && !AdvanceAborts(Pushed(FreshNode, f), true)
    ensures var next := Advanced(Pushed(FreshNode, f), true).0;
            next.diffs.entries == map[] && f.jobId in next.states.entries && next.states.entries[f.jobId] == f
  {
    var pushed, only := Pushed(FreshNode, f), map[f.jobId := f];
    assert pushed.diffs.entries == only && f.jobId in only;
    var n := Stamped(Collected(Cleared(pushed), pushed.diffs));
    assert n.diffs.entries == only;
    assert Updated(n.states.entries, only) == only;
    assert Filtered(only, only) == map[];
  }

  /** The condition is needed: any two different events of one job and epoch can lead to an abort. */
  lemma {:induction false} ConflictAborts(n: nat, e: Event, f: Event) returns (trace: seq<System>, steps: seq<Step>)
    requires n > 0 && e.jobId == f.jobId && e.epoch == f.epoch >= 0 && e != f && !OldZero(f)
    ensures Run(n, trace, steps) && steps == [Push(0, f, true), Push(0, e, true)] && trace[2].aborted
  {
    FirstIsDigested(f);
    hide Advanced, AdvanceAborts, Novel, ToChildren, OldZero, Pushed;
    var s0 := Initial(n);
    var s1 := After(s0, Push(0, f, true));
    assert s1.nodes[0] == Advanced(Pushed(FreshNode, f), true).0;
    ConflictIsFound(s1.nodes[0], e, f);
    var s2 := After(s1, Push(0, e, true));
    trace, steps := [s0, s1, s2], [Push(0, f, true), Push(0, e, true)];
  }

  // ----- quiescence -------------------------------------------------------------------------------

  /** Nothing is waiting or travelling. */
  ghost predicate Quiescent(s: System) {
    && Shaped(s)
    && (forall w :: 0 <= w < |s.nodes| ==> s.nodes[w].diffs.entries == map[])
    && (forall w :: 0 <= w < |s.up| ==> s.up[w] == [])
    && (forall w :: 0 <= w < |s.down| ==> s.down[w] == [])
  }

  lemma {:induction false} AllUpToDate(s: System, w: nat)
    requires Replicated(s) && Quiescent(s) && w < |s.nodes|
    ensures s.nodes[w].balancingEpoch == |s.record.broadcasts|
    decreases w
  {
    if w > 0 {
      assert LinkGap(s.down[w], s.nodes[w], s.nodes[Parent(w)], s.record.broadcasts);
      AllUpToDate(s, Parent(w));
    }
  }

  /** Of a job whose events never announce its end, the replicated state holds an event at least as new as
      any that was broadcast. */
  lemma {:induction false} ReplayKeepsNewest(h: seq<EventState>, ev: Event)
    requires forall i :: 0 <= i < |h| ==> h[i].Valid()
    requires forall i :: 0 <= i < |h| && ev.jobId in h[i].entries ==> !OldZero(h[i].entries[ev.jobId])
    requires OnLink(h, ev)
    ensures Holds(Replay(h), ev)
  {
    var last := |h| - 1;
    var i :| 0 <= i < |h| && Holds(h[i], ev);
    var front := h[..last];
    assert forall j :: 0 <= j < last ==> front[j] == h[j];
    ReplayIsValid(front);
    if i < last {
      assert Holds(front[i], ev);
      ReplayKeepsNewest(front, ev);
    }
    UpdateHolds(Replay(front), h[last], ev);
    NoZeroInReplay(front, ev.jobId);
    var updated := UpdatedState(Replay(front), h[last]);
    assert ev.jobId in updated.entries;
    assert (ev.jobId in h[last].entries && updated.entries[ev.jobId] == h[last].entries[ev.jobId])
        || (ev.jobId in Replay(front).entries && updated.entries[ev.jobId] == Replay(front).entries[ev.jobId]);
  }

  lemma {:induction false} NoZeroInReplay(h: seq<EventState>, j: int)
    ensures j in Replay(h).entries ==> !OldZero(Replay(h).entries[j])
  {
  }

  /** When everything has come to rest, all workers hold the same state, and for every job that was never
      terminated that state holds exactly its newest issued event. */
  lemma {:induction false} QuiescentAgreement(n: nat, trace: seq<System>, steps: seq<Step>, k: nat, w: nat, ev: Event)
    requires Run(n, trace, steps) && k < |trace| && !trace[k].aborted && Quiescent(trace[k])
    requires w < |trace[k].nodes| && ev in trace[k].record.issued
    requires forall e :: e in trace[k].record.issued && e.jobId == ev.jobId ==> !OldZero(e)
    ensures trace[k].nodes[w].states == Replay(trace[k].record.broadcasts)
    ensures Holds(trace[k].nodes[w].states, ev)
    ensures trace[k].nodes[w].states.entries[ev.jobId] in trace[k].record.issued
  {
    RunKeepsInvariant(n, trace, steps, k);
    hide Run;
    var s := trace[k];
    var h := s.record.broadcasts;
    AllUpToDate(s, w);
    assert Replica(s.nodes[w], h) && h[..|h|] == h;
    assert Covered(s, ev);
    assert forall i :: 0 <= i < |h| ==> Known(h[i], s.record.issued);
    hide Replicated, Contained, NothingLost;
    assert OnLink(h, ev);
    ReplayKeepsNewest(h, ev);
    ReplayKnown(h, s.record.issued);
  }
}
