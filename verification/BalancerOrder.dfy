/**
 The order in which events of one job travel: from any point of a run on, newer events that are pushed at one worker
 with growing epochs reach the broadcasts in that order; an event that is pushed once is in one place at a time.
 */
module BalancerOrder {
  import opened Basics
  import opened EventTypes
  import opened EventMaps
  import opened Balancing
  import opened BalancerTree
  import opened BalancerProtocol
  import opened BalancerSafety

  // ----- marks ------------------------------------------------------------------------------------

  /** The events of a job from an epoch on. */
  datatype Topic = Topic(job: int, floor: int)

  ghost predicate About(topic: Topic, ev: Event) { ev.jobId == topic.job && ev.epoch >= topic.floor }

  /** The epoch of the topic's event in a map, or -1. */
  ghost function Mark(m: EventState, topic: Topic): int {
    if topic.job in m.entries && m.entries[topic.job].epoch >= topic.floor then m.entries[topic.job].epoch else -1
  }

  ghost function Marks(ms: seq<EventState>, topic: Topic): (r: seq<int>)
    ensures |r| == |ms| && forall i :: 0 <= i < |ms| ==> r[i] == Mark(ms[i], topic)
  {
    seq(|ms|, i requires 0 <= i < |ms| => Mark(ms[i], topic))
  }

  /** The first is not newer than the second, if both are there. */
  ghost predicate Fits(a: int, b: int) { a < 0 || b < 0 || a <= b }

  ghost predicate Ascending(x: seq<int>) {
    forall i, k :: 0 <= i < k < |x| ==> Fits(x[i], x[k])
  }

  ghost predicate Below(x: seq<int>, y: seq<int>) {
    forall a, b :: a in x && b in y ==> Fits(a, b)
  }

  /** The second has no marks the first has not, in no other order. */
  ghost predicate Thins(x: seq<int>, y: seq<int>) {
    (Ascending(x) ==> Ascending(y)) && forall b :: b in y && b >= 0 ==> b in x
  }

  /** The marks of the second are those of the first, in their places, or are gone. */
  ghost predicate Shadows(x: seq<int>, y: seq<int>) {
    forall i :: 0 <= i < |y| && y[i] >= 0 ==> i < |x| && x[i] == y[i]
  }

  lemma {:induction false} ShadowThins(x: seq<int>, y: seq<int>)
    requires Shadows(x, y)
    ensures Thins(x, y)
  {
    if Ascending(x) {
      forall i, k | 0 <= i < k < |y| ensures Fits(y[i], y[k]) {
        if y[i] >= 0 && y[k] >= 0 { assert Fits(x[i], x[k]); }
      }
    }
  }

  // ----- the line from a worker to the root --------------------------------------------------------

  /** The worker or one of its ancestors. */
  ghost predicate OnPath(v: nat, w: nat)
    decreases w
  {
    v == w || (w > 0 && OnPath(v, Parent(w)))
  }

  lemma {:induction false} PathAbove(v: nat, w: nat)
    requires OnPath(v, w)
    ensures v <= w && OnPath(Parent(v), w)
    decreases w
  {
    if v != w { PathAbove(v, Parent(w)); }
  }

  /** Between a worker on the path and its parent there is no other worker on the path. */
  lemma {:induction false} PathHasNoGap(v: nat, c: nat, w: nat)
    requires OnPath(v, w) && OnPath(c, w) && v < c
    ensures v <= Parent(c)
    decreases w
  {
    if c == w {
      PathAbove(v, Parent(w));
    } else {
      PathAbove(c, Parent(w));
      PathHasNoGap(v, c, Parent(w));
    }
  }

  /** What passed a worker, oldest first: its messages to the parent, for the root the broadcasts, and its diffs. */
  ghost function Segment(s: System, v: nat, topic: Topic): seq<int>
    requires Shaped(s) && v < |s.nodes|
  {
    Marks(if v == 0 then s.record.broadcasts else s.up[v], topic) + [Mark(s.nodes[v].diffs, topic)]
  }

  ghost predicate Empty(x: seq<int>) {
    forall a :: a in x ==> a < 0
  }

  /** Only the path holds events of the topic, and the nearer to the root the older they are. */
  ghost predicate Lined(s: System, w: nat, topic: Topic) {
    && Shaped(s) && w < |s.nodes|
    && (forall v: nat :: v < |s.nodes| && !OnPath(v, w) ==> Empty(Segment(s, v, topic)))
    && (forall v: nat :: v < |s.nodes| && OnPath(v, w) ==> Ascending(Segment(s, v, topic)))
    && (forall u: nat, v: nat :: u < v < |s.nodes| && OnPath(u, w) && OnPath(v, w) ==>
          Below(Segment(s, u, topic), Segment(s, v, topic)))
  }

  lemma {:induction false} ThinKeepsLined(s: System, s': System, w: nat, topic: Topic)
    requires Lined(s, w, topic) && Shaped(s') && |s'.nodes| == |s.nodes|
    requires forall v: nat :: v < |s.nodes| ==> Thins(Segment(s, v, topic), Segment(s', v, topic))
    ensures Lined(s', w, topic)
  {
    hide Segment, Ascending, OnPath;
    forall u: nat, v: nat | u < v < |s.nodes| && OnPath(u, w) && OnPath(v, w)
      ensures Below(Segment(s', u, topic), Segment(s', v, topic))
    {
      assert Below(Segment(s, u, topic), Segment(s, v, topic));
      assert Thins(Segment(s, u, topic), Segment(s', u, topic)) && Thins(Segment(s, v, topic), Segment(s', v, topic));
      hide Lined;
      forall a, b | a in Segment(s', u, topic) && b in Segment(s', v, topic) ensures Fits(a, b) {
      }
    }
  }

  // ----- what a worker's step does to its segment ------------------------------------------------------

  /** The diffs are forwarded or kept: what is sent has their mark, and what remains has it or none. */
  ghost predicate Forwards(held: int, next: Node, out: Output, topic: Topic) {
    && (Mark(next.diffs, topic) == held || Mark(next.diffs, topic) < 0)
    && (!out.Nothing? ==> Mark(out.data, topic) == held && Mark(next.diffs, topic) < 0)
  }

  lemma {:induction false} ForwardShadows(s: System, w: nat, next: Node, out: Output, topic: Topic, x: nat)
    requires Shaped(s) && w < |s.nodes| && x < |s.nodes| && (out.Broadcast? ==> w == 0) && (out.SendUp? ==> w > 0)
    requires Forwards(Mark(s.nodes[w].diffs, topic), next, out, topic)
    ensures Shadows(Segment(s, x, topic), Segment(Delivered(WithNode(s, w, next), w, out), x, topic))
  {
    hide Mark, ToChildren;
    var s' := Delivered(WithNode(s, w, next), w, out);
    if x == w {
      var before := Marks(if w == 0 then s.record.broadcasts else s.up[w], topic);
      var d, f := Mark(s.nodes[w].diffs, topic), Mark(next.diffs, topic);
      if !out.Nothing? {
        assert Segment(s', w, topic) == before + [d] + [f];
      } else {
        assert Segment(s', w, topic) == before + [f];
      }
    } else {
      assert Segment(s', x, topic) == Segment(s, x, topic);
    }
  }

  lemma {:induction false} UpdatedMark(a: EventState, b: EventState, topic: Topic)
    requires a.Valid() && b.Valid()
    ensures Mark(UpdatedState(a, b), topic) == Max(Mark(a, topic), Mark(b, topic))
  {
  }

  lemma {:induction false} FilteredMark(a: EventState, b: EventState, topic: Topic)
    ensures Mark(FilteredState(a, b), topic) == Mark(a, topic) || Mark(FilteredState(a, b), topic) < 0
  {
  }

  lemma {:induction false} DigestedMark(a: EventState, states: EventState, topic: Topic)
    requires a.Valid()
    ensures Mark(FilteredState(a, UpdatedState(states, a)), topic) < 0
  {
  }

  /** After the data has joined the diffs, they are forwarded or kept. */
  lemma {:induction false} ReduceForwards(node: Node, data: EventState, ready: bool, isRoot: bool, topic: Topic)
    requires node.diffs.Valid() && data.Valid()
    ensures var (next, out) := Reduced(node, data, ready, isRoot);
            Forwards(Max(Mark(node.diffs, topic), Mark(data, topic)), next, out, topic)
    ensures var (next, out) := Reduced(node, data, ready, isRoot);
            (out.Broadcast? ==> isRoot) && (out.SendUp? ==> !isRoot)
  {
    UpdatedMark(node.diffs, data, topic);
    var n := Collected(node, data);
    var m := Stamped(n);
    assert Mark(m.diffs, topic) == Mark(n.diffs, topic);
    UpdatedValid(node.diffs, data);
    DigestedMark(m.diffs, m.states, topic);
    hide Updated, Filtered, WithoutOldZeros;
  }

  lemma {:induction false} AdvanceForwards(node: Node, isRoot: bool, topic: Topic)
    requires node.diffs.Valid()
    ensures var (next, out) := Advanced(node, isRoot); Forwards(Mark(node.diffs, topic), next, out, topic)
    ensures var (next, out) := Advanced(node, isRoot); (out.Broadcast? ==> isRoot) && (out.SendUp? ==> !isRoot)
  {
    if node.diffs.entries != map[] { ReduceForwards(Cleared(node), node.diffs, true, isRoot, topic); }
    hide Reduced;
  }

  // ----- pushing ------------------------------------------------------------------------------------

  ghost predicate AllBelow(s: System, topic: Topic, epoch: int) {
    Shaped(s) && forall v: nat, a :: v < |s.nodes| && a in Segment(s, v, topic) ==> a < epoch
  }

  /** An event newer than all others joins at the end of the line. */
  lemma {:induction false} PushKeepsLined(s: System, w0: nat, topic: Topic, w: nat, ev: Event)
    requires Lined(s, w0, topic) && w < |s.nodes| && ev.epoch >= 0
    requires About(topic, ev) ==> w == w0 && AllBelow(s, topic, ev.epoch)
    ensures Lined(WithPushed(s, w, ev), w0, topic)
  {
    var t := WithPushed(s, w, ev);
    if !About(topic, ev) {
      OtherPush(s, w, ev, topic);
      hide Segment, Ascending, OnPath, WithPushed;
    } else {
      NewestMark(s, w0, ev, topic);
      hide Segment, Ascending, WithPushed;
      forall u: nat, v: nat | u < v < |s.nodes| && OnPath(u, w0) && OnPath(v, w0)
        ensures Below(Segment(t, u, topic), Segment(t, v, topic))
      {
        PathAbove(v, w0);
      }
    }
  }

  lemma {:induction false} OtherPush(s: System, w: nat, ev: Event, topic: Topic)
    requires Shaped(s) && w < |s.nodes| && !About(topic, ev)
    ensures var t := WithPushed(s, w, ev);
            && Shaped(t) && |t.nodes| == |s.nodes|
            && forall v: nat :: v < |s.nodes| ==> Segment(t, v, topic) == Segment(s, v, topic)
  {
  }

  lemma {:induction false} NewestMark(s: System, w: nat, ev: Event, topic: Topic)
    requires Shaped(s) && w < |s.nodes| && About(topic, ev) && ev.epoch >= 0 && AllBelow(s, topic, ev.epoch)
    ensures var t := WithPushed(s, w, ev);
            && Shaped(t) && |t.nodes| == |s.nodes|
            && (forall v: nat :: v < |s.nodes| && v != w ==> Segment(t, v, topic) == Segment(s, v, topic))
            && (forall a :: a in Segment(t, w, topic) ==> a == ev.epoch || a in Segment(s, w, topic))
            && (Ascending(Segment(s, w, topic)) ==> Ascending(Segment(t, w, topic)))
            && (forall u: nat :: u < |s.nodes| && u < w && Below(Segment(s, u, topic), Segment(s, w, topic)) ==>
                  Below(Segment(s, u, topic), Segment(t, w, topic)))
  {
    var t := WithPushed(s, w, ev);
    var x := Marks(if w == 0 then s.record.broadcasts else s.up[w], topic);
    var d := Mark(s.nodes[w].diffs, topic);
    assert Segment(s, w, topic) == x + [d] && d in x + [d];
    assert Segment(t, w, topic) == x + [ev.epoch];
    hide Segment;
    forall i | 0 <= i < |x| ensures x[i] < ev.epoch { assert x[i] in x + [d]; }
    if Ascending(x + [d]) {
      forall i, k | 0 <= i < k < |x| ensures Fits(x[i], x[k]) { assert Fits((x + [d])[i], (x + [d])[k]); }
    }
  }

  // ----- receiving from a child --------------------------------------------------------------------------

  /** The head of a link has joined the diffs of the parent. */
  ghost function Joined(s: System, c: nat): System
    requires Shaped(s) && 0 < c < |s.nodes| && |s.up[c]| > 0
  {
    WithNode(WithoutHead(s, c), Parent(c), Collected(s.nodes[Parent(c)], s.up[c][0]))
  }

  lemma {:induction false} JoinedSegments(s: System, c: nat, topic: Topic, x: seq<int>, d: int, m: int, y: seq<int>)
    requires Shaped(s) && 0 < c < |s.nodes| && |s.up[c]| > 0 && s.nodes[Parent(c)].diffs.Valid() && s.up[c][0].Valid()
    requires x == Marks(if Parent(c) == 0 then s.record.broadcasts else s.up[Parent(c)], topic)
    requires d == Mark(s.nodes[Parent(c)].diffs, topic) && m == Mark(s.up[c][0], topic)
    requires y == Marks(s.up[c][1..], topic) + [Mark(s.nodes[c].diffs, topic)]
    ensures Segment(s, Parent(c), topic) == x + [d] && Segment(Joined(s, c), Parent(c), topic) == x + [Max(d, m)]
    ensures Segment(s, c, topic) == [m] + y && Segment(Joined(s, c), c, topic) == y
    ensures forall v: nat :: v < |s.nodes| && v != c && v != Parent(c) ==>
              Segment(Joined(s, c), v, topic) == Segment(s, v, topic)
  {
    UpdatedMark(s.nodes[Parent(c)].diffs, s.up[c][0], topic);
    var p, t := Parent(c), Joined(s, c);
    assert p < c;
    hide UpdatedState, Parent, Mark;
    assert t.nodes[p].diffs == UpdatedState(s.nodes[p].diffs, s.up[c][0]) && t.nodes[c] == s.nodes[c];
    assert t.up[c] == s.up[c][1..] && t.record == s.record;
    assert Marks(s.up[c], topic) == [m] + Marks(s.up[c][1..], topic);
    assert ([m] + Marks(s.up[c][1..], topic)) + [Mark(s.nodes[c].diffs, topic)] == [m] + y;
  }

  lemma {:induction false} MergeAscends(x: seq<int>, d: int, m: int, y: seq<int>)
    requires Ascending(x + [d]) && Ascending([m] + y) && Below(x + [d], [m] + y)
    ensures Ascending(x + [Max(d, m)]) && Ascending(y) && Below(x + [Max(d, m)], y)
  {
    var l, r, e := x + [d], [m] + y, Max(d, m);
    assert d in l && m in r && forall a :: a in x ==> a in l;
    forall i, k | 0 <= i < k < |x| ensures Fits(x[i], x[k]) { assert Fits(l[i], l[k]); }
    forall i | 0 <= i < |x| ensures Fits(x[i], e) { assert Fits(l[i], l[|x|]) && Fits(x[i], m); }
    forall i, k | 0 <= i < k < |y| ensures Fits(y[i], y[k]) { assert Fits(r[i + 1], r[k + 1]); }
    forall a, b | a in x + [e] && b in y ensures Fits(a, b) {
      var k :| 0 <= k < |y| && y[k] == b;
      assert Fits(r[0], r[k + 1]) && b in r;
    }
  }

  lemma {:induction false} MergeBetween(z: seq<int>, x: seq<int>, d: int, m: int, y: seq<int>)
    ensures Below(z, x + [d]) && Below(z, [m] + y) ==> Below(z, x + [Max(d, m)]) && Below(z, y)
    ensures Below(x + [d], z) && Below([m] + y, z) ==> Below(x + [Max(d, m)], z) && Below(y, z)
  {
    assert d in x + [d] && m in [m] + y && (forall a :: a in x ==> a in x + [d])
      && (forall a :: a in y ==> a in [m] + y);
  }

  /** The oldest event of a child's link is not older than what its parent holds and not newer than what follows. */
  lemma {:induction false} JoinKeepsLined(s: System, w0: nat, topic: Topic, c: nat)
    requires Lined(s, w0, topic) && 0 < c < |s.nodes| && |s.up[c]| > 0
    requires s.nodes[Parent(c)].diffs.Valid() && s.up[c][0].Valid()
    ensures Lined(Joined(s, c), w0, topic)
  {
    var p, t := Parent(c), Joined(s, c);
    var x := Marks(if p == 0 then s.record.broadcasts else s.up[p], topic);
    var d, m := Mark(s.nodes[p].diffs, topic), Mark(s.up[c][0], topic);
    var y := Marks(s.up[c][1..], topic) + [Mark(s.nodes[c].diffs, topic)];
    JoinedSegments(s, c, topic, x, d, m, y);
    assert m >= -1 && d >= -1;
    assert Shaped(t) && |t.nodes| == |s.nodes|;
    hide Segment, Joined, Mark, Parent;
    if OnPath(c, w0) {
      PathAbove(c, w0);
      JoinOnPath(s, t, w0, topic, c, x, d, m, y);
    } else {
      assert m in [m] + y && m < 0;
      TailThins(m, y);
      forall v: nat | v < |s.nodes| ensures Thins(Segment(s, v, topic), Segment(t, v, topic)) {
        if v != c { ShadowThins(Segment(s, v, topic), Segment(t, v, topic)); }
      }
      hide Lined, Thins;
      ThinKeepsLined(s, t, w0, topic);
    }
  }

  lemma {:induction false} TailThins(m: int, y: seq<int>)
    ensures Thins([m] + y, y)
  {
    var r := [m] + y;
    if Ascending(r) {
      forall i, k | 0 <= i < k < |y| ensures Fits(y[i], y[k]) { assert Fits(r[i + 1], r[k + 1]); }
    }
  }

  lemma {:induction false} JoinOnPath(s: System, t: System, w0: nat, topic: Topic, c: nat, x: seq<int>, d: int, m: int,
      y: seq<int>)
    requires Lined(s, w0, topic) && 0 < c < |s.nodes| && Shaped(t) && |t.nodes| == |s.nodes|
    requires OnPath(c, w0) && OnPath(Parent(c), w0)
    requires Segment(s, Parent(c), topic) == x + [d] && Segment(t, Parent(c), topic) == x + [Max(d, m)]
    requires Segment(s, c, topic) == [m] + y && Segment(t, c, topic) == y
    requires forall v: nat :: v < |s.nodes| && v != c && v != Parent(c) ==> Segment(t, v, topic) == Segment(s, v, topic)
    ensures Lined(t, w0, topic)
  {
    var p := Parent(c);
    assert p < c;
    hide Segment, Parent, Ascending, Below;
    MergeAscends(x, d, m, y);
    forall u: nat, v: nat | u < v < |s.nodes| && OnPath(u, w0) && OnPath(v, w0)
      ensures Below(Segment(t, u, topic), Segment(t, v, topic))
    {
      assert Below(Segment(s, u, topic), Segment(s, v, topic));
      if u < p && (v == p || v == c) {
        assert Below(Segment(s, u, topic), x + [d]) && Below(Segment(s, u, topic), [m] + y);
        MergeBetween(Segment(s, u, topic), x, d, m, y);
      } else if u == p && v != c {
        PathOrder(c, p, v, w0);
        assert Below(x + [d], Segment(s, v, topic)) && Below([m] + y, Segment(s, v, topic));
        MergeBetween(Segment(s, v, topic), x, d, m, y);
      } else if u == c {
        assert Below(x + [d], Segment(s, v, topic));
        MergeBetween(Segment(s, v, topic), x, d, m, y);
      } else if u != p && v == c {
        PathOrder(c, p, u, w0);
      }
    }
  }

  /** A worker on the path above the parent of another lies behind that one. */
  lemma {:induction false} PathOrder(c: nat, p: nat, v: nat, w: nat)
    requires OnPath(c, w) && OnPath(v, w) && p == Parent(c) < v && v != c
    ensures v > c
  {
    if v < c { PathHasNoGap(v, c, w); }
  }

  // ----- every step --------------------------------------------------------------------------------------

  /** What a step adds to a worker's diffs has been added; nothing has been sent on yet. */
  ghost function Gathered(s: System, step: Step): System
    requires Enabled(s, step)
  {
    match step
    case Push(w, ev, _) => WithPushed(s, w, ev)
    case ReceiveUp(c, _) => Joined(s, c)
    case _ => s
  }

  /** After that, a step only moves marks out of the diffs, keeping their places, or drops them. */
  ghost predicate Moves(t: System, s': System, topic: Topic) {
    && Shaped(t) && Shaped(s') && |s'.nodes| == |t.nodes|
    && forall v: nat :: v < |t.nodes| ==> Shadows(Segment(t, v, topic), Segment(s', v, topic))
  }

  lemma {:induction false} ForwardMoves(s: System, w: nat, next: Node, out: Output, topic: Topic)
    requires Shaped(s) && w < |s.nodes| && (out.Broadcast? ==> w == 0) && (out.SendUp? ==> w > 0)
    requires Forwards(Mark(s.nodes[w].diffs, topic), next, out, topic)
    ensures Moves(s, Delivered(WithNode(s, w, next), w, out), topic)
  {
    hide ToChildren, Forwards;
    var s' := Delivered(WithNode(s, w, next), w, out);
    forall v: nat | v < |s.nodes| ensures Shadows(Segment(s, v, topic), Segment(s', v, topic)) {
      ForwardShadows(s, w, next, out, topic, v);
    }
    hide Segment, Shadows;
  }

  lemma {:induction false} AdvanceMoves(s: System, w: nat, topic: Topic)
    requires Shaped(s) && w < |s.nodes| && s.nodes[w].diffs.Valid() && !AdvanceAborts(s.nodes[w], w == 0)
    ensures Moves(s, AdvanceStep(s, w), topic)
  {
    var (next, out) := Advanced(s.nodes[w], w == 0);
    AdvanceForwards(s.nodes[w], w == 0, topic);
    hide Advanced, AdvanceAborts, Forwards, ToChildren, Moves;
    ForwardMoves(s, w, next, out, topic);
  }

  lemma {:induction false} PushMoves(s: System, w: nat, ev: Event, ready: bool, topic: Topic)
    requires Invariant(s) && Enabled(s, Push(w, ev, ready)) && !PushStep(s, w, ev, ready).aborted
    ensures Moves(WithPushed(s, w, ev), PushStep(s, w, ev, ready), topic)
  {
    PushedInvariant(s, w, ev);
    var t := WithPushed(s, w, ev);
    assert Shaped(t) && |t.nodes| == |s.nodes|;
    hide AdvanceAborts, Invariant, PushStep, Novel, WithPushed;
    PushThenAdvance(s, w, ev, ready);
    if ready && Novel(s.nodes[w].diffs.entries, ev) {
      if AdvanceAborts(t.nodes[w], w == 0) { PushAborts(s, w, ev, ready); }
      DiffsValid(t, w);
      AdvanceMoves(t, w, topic);
    }
  }

  lemma {:induction false} PushAborts(s: System, w: nat, ev: Event, ready: bool)
    requires Shaped(s) && w < |s.nodes| && ready && Novel(s.nodes[w].diffs.entries, ev)
    requires AdvanceAborts(WithPushed(s, w, ev).nodes[w], w == 0)
    ensures PushStep(s, w, ev, ready).aborted
  {
    hide Advanced, AdvanceAborts;
  }

  lemma {:induction false} ReceiveUpMoves(s: System, c: nat, ready: bool, topic: Topic)
    requires Shaped(s) && 0 < c < |s.nodes| && |s.up[c]| > 0
    requires s.nodes[Parent(c)].diffs.Valid() && s.up[c][0].Valid()
    requires !ReduceAborts(s.nodes[Parent(c)], s.up[c][0], ready, Parent(c) == 0)
    ensures Moves(Joined(s, c), ReceiveUpStep(s, c, ready), topic)
  {
    var p, data, t := Parent(c), s.up[c][0], Joined(s, c);
    var (next, out) := Reduced(s.nodes[p], data, ready, p == 0);
    ReduceForwards(s.nodes[p], data, ready, p == 0, topic);
    UpdatedMark(s.nodes[p].diffs, data, topic);
    hide Reduced, ReduceAborts, Forwards, ToChildren, Updated, Parent, Moves;
    assert t.nodes[p := next] == s.nodes[p := next];
    assert ReceiveUpStep(s, c, ready) == Delivered(WithNode(t, p, next), p, out);
    ForwardMoves(t, p, next, out, topic);
  }

  lemma {:induction false} ReceiveDownMoves(s: System, w: nat, topic: Topic)
    requires Shaped(s) && 0 < w < |s.nodes| && |s.down[w]| > 0 && !DigestAborts(s.nodes[w], s.down[w][0])
    ensures Moves(s, ReceiveDownStep(s, w), topic)
  {
    var data := s.down[w][0];
    var next := Digested(s.nodes[w], data);
    FilteredMark(s.nodes[w].diffs, UpdatedState(s.nodes[w].states, data), topic);
    hide Digested, DigestAborts, ToChildren, FilteredState, UpdatedState;
    var s' := ReceiveDownStep(s, w);
    forall v: nat | v < |s.nodes| ensures Shadows(Segment(s, v, topic), Segment(s', v, topic)) {
      ForwardShadows(s, w, next, Nothing, topic, v);
      assert Segment(s', v, topic) == Segment(Delivered(WithNode(s, w, next), w, Nothing), v, topic);
    }
    hide Segment, Shadows;
  }

  lemma {:induction false} StepMoves(s: System, step: Step, topic: Topic)
    requires Invariant(s) && Enabled(s, step) && !After(s, step).aborted
    ensures Moves(Gathered(s, step), After(s, step), topic)
  {
    hide Moves, Delivered, Advanced, Reduced, Digested, AdvanceAborts, ReduceAborts, DigestAborts, Invariant;
    match step
    case Push(w, ev, ready) =>
      hide PushStep;
      PushMoves(s, w, ev, ready, topic);
    case Advance(w) =>
      DiffsValid(s, w);
      AdvanceMoves(s, w, topic);
    case ReceiveUp(c, ready) =>
      DiffsValid(s, Parent(c));
      LinkValid(s, c);
      ReceiveUpMoves(s, c, ready, topic);
    case ReceiveDown(w) =>
      ReceiveDownMoves(s, w, topic);
  }

  lemma {:induction false} DiffsValid(s: System, w: nat)
    requires Invariant(s) && w < |s.nodes|
    ensures s.nodes[w].diffs.Valid()
  {
    assert Known(s.nodes[w].diffs, s.record.issued);
  }

  lemma {:induction false} LinkValid(s: System, c: nat)
    requires Invariant(s) && c < |s.up| && |s.up[c]| > 0
    ensures s.up[c][0].Valid()
  {
    assert AllKnown(s.up[c], s.record.issued) && Known(s.up[c][0], s.record.issued);
  }

  /** A step keeps the line if what it pushes of the topic is newest and joins at the end. */
  lemma {:induction false} StepKeepsLined(s: System, step: Step, w0: nat, topic: Topic)
    requires Invariant(s) && Enabled(s, step) && !After(s, step).aborted && Lined(s, w0, topic)
    requires Pushes(step, topic) ==> step.w == w0 && AllBelow(s, topic, step.ev.epoch)
    ensures Lined(After(s, step), w0, topic)
  {
    StepMoves(s, step, topic);
    var t, s' := Gathered(s, step), After(s, step);
    hide After, AllBelow, Invariant, OnPath;
    assert Lined(t, w0, topic) by {
      hide Lined, Moves, Joined, WithPushed;
      match step
      case Push(w, ev, _) => PushKeepsLined(s, w0, topic, w, ev);
      case ReceiveUp(c, _) =>
        DiffsValid(s, Parent(c));
        LinkValid(s, c);
        JoinKeepsLined(s, w0, topic, c);
      case _ =>
    }
    hide Segment, Gathered, Lined;
    forall v: nat | v < |t.nodes| ensures Thins(Segment(t, v, topic), Segment(s', v, topic)) {
      ShadowThins(Segment(t, v, topic), Segment(s', v, topic));
    }
    hide Thins;
    ThinKeepsLined(t, s', w0, topic);
  }

  // ----- every run -------------------------------------------------------------------------------------------

  ghost predicate Pushes(step: Step, topic: Topic) { step.Push? && About(topic, step.ev) }

  ghost predicate OfJob(step: Step, job: int) { step.Push? && step.ev.jobId == job }

  /** Between these steps, events of the topic are pushed at one worker, with growing epochs. */
  ghost predicate OneIssuer(steps: seq<Step>, j: nat, k: nat, w: nat, topic: Topic)
    requires j <= k <= |steps|
  {
    && (forall i :: j <= i < k && Pushes(steps[i], topic) ==> steps[i].w == w)
    && (forall i, l :: j <= i < l < k && Pushes(steps[i], topic) && Pushes(steps[l], topic) ==>
          steps[i].ev.epoch < steps[l].ev.epoch)
  }

  /** No event of the topic exists yet. */
  ghost predicate Unknown(issued: set<Event>, topic: Topic) {
    forall ev :: ev in issued ==> !About(topic, ev)
  }

  /** Events that exist and did not exist before were pushed since. */
  lemma {:induction false} IssuedWerePushed(n: nat, trace: seq<System>, steps: seq<Step>, j: nat, k: nat, ev: Event)
    requires Run(n, trace, steps) && j <= k < |trace| && ev in trace[k].record.issued && ev !in trace[j].record.issued
    ensures exists i :: j <= i < k && steps[i].Push? && steps[i].ev == ev
  {
    hide After;
    if k > j {
      StepIssues(trace[k - 1], steps[k - 1]);
      if ev in trace[k - 1].record.issued { IssuedWerePushed(n, trace, steps, j, k - 1, ev); }
    }
  }

  lemma {:induction false} StepIssues(s: System, step: Step)
    requires Enabled(s, step)
    ensures After(s, step).record.issued == s.record.issued + if step.Push? then {step.ev} else {}
  {
    match step
    case Push(w, ev, ready) => PushIssues(s, w, ev, ready);
    case Advance(w) => AdvanceIssues(s, w);
    case ReceiveUp(c, ready) => ReceiveUpIssues(s, c, ready);
    case ReceiveDown(w) => ReceiveDownIssues(s, w);
  }

  lemma {:induction false} ReceiveDownIssues(s: System, w: nat)
    requires Shaped(s) && 0 < w < |s.nodes| && |s.down[w]| > 0
    ensures ReceiveDownStep(s, w).record.issued == s.record.issued
  {
    hide Digested, DigestAborts;
  }

  /** Marks are epochs of issued events. */
  lemma {:induction false} MarksWereIssued(s: System, topic: Topic, v: nat, a: int)
    requires Contained(s) && v < |s.nodes| && a in Segment(s, v, topic) && a >= 0
    ensures exists ev :: ev in s.record.issued && About(topic, ev) && ev.epoch == a
  {
    var ms := if v == 0 then s.record.broadcasts else s.up[v];
    assert AllKnown(ms, s.record.issued) && Known(s.nodes[v].diffs, s.record.issued);
    var x := Marks(ms, topic);
    if a in x {
      var i :| 0 <= i < |x| && x[i] == a;
      MarkWasIssued(ms[i], s.record.issued, topic);
    } else {
      MarkWasIssued(s.nodes[v].diffs, s.record.issued, topic);
    }
  }

  lemma {:induction false} MarkWasIssued(m: EventState, issued: set<Event>, topic: Topic)
    requires Known(m, issued) && Mark(m, topic) >= 0
    ensures exists ev :: ev in issued && About(topic, ev) && ev.epoch == Mark(m, topic)
  {
    assert m.entries[topic.job] in issued;
  }

  lemma {:induction false} NewestIsAbove(n: nat, trace: seq<System>, steps: seq<Step>, j: nat, k: nat, w: nat,
      topic: Topic)
    requires Run(n, trace, steps) && j <= k < |steps| && Invariant(trace[k]) && OneIssuer(steps, j, k + 1, w, topic)
    requires Unknown(trace[j].record.issued, topic) && Pushes(steps[k], topic) && steps[k].ev.epoch >= 0
    ensures AllBelow(trace[k], topic, steps[k].ev.epoch)
  {
    var s := trace[k];
    assert Shaped(s) && Contained(s);
    hide Invariant, Segment, Contained;
    forall v: nat, a | v < |s.nodes| && a in Segment(s, v, topic) ensures a < steps[k].ev.epoch {
      if a >= 0 {
        MarksWereIssued(s, topic, v, a);
        var ev :| ev in s.record.issued && About(topic, ev) && ev.epoch == a;
        IssuedWerePushed(n, trace, steps, j, k, ev);
        var i :| j <= i < k && steps[i].Push? && steps[i].ev == ev;
        assert Pushes(steps[i], topic);
      }
    }
  }

  /**
   From any point of any run on at which no event of the topic exists, the events of the topic stand in line if
   one worker pushes them with growing epochs.
   */
  lemma {:induction false} RunKeepsLined(n: nat, trace: seq<System>, steps: seq<Step>, j: nat, k: nat, w: nat,
      topic: Topic)
    requires Run(n, trace, steps) && j <= k < |trace| && !trace[k].aborted && w < |trace[j].nodes|
    requires Unknown(trace[j].record.issued, topic) && OneIssuer(steps, j, k, w, topic)
    ensures Lined(trace[k], w, topic)
  {
    hide Lined, Invariant, Enabled, After;
    if k == j {
      RunKeepsInvariant(n, trace, steps, j);
      UnknownIsLined(trace[j], w, topic);
    } else {
      RunShape(n, trace, steps, k);
      EnabledMeansRunning(trace[k - 1], steps[k - 1]);
      RunKeepsInvariant(n, trace, steps, k - 1);
      RunKeepsLined(n, trace, steps, j, k - 1, w, topic);
      if Pushes(steps[k - 1], topic) {
        PushIsValid(trace[k - 1], steps[k - 1]);
        NewestIsAbove(n, trace, steps, j, k - 1, w, topic);
      }
      StepKeepsLined(trace[k - 1], steps[k - 1], w, topic);
    }
  }

  lemma {:induction false} PushIsValid(s: System, step: Step)
    requires Enabled(s, step) && step.Push?
    ensures step.ev.epoch >= 0
  {
  }

  lemma {:induction false} UnknownIsLined(s: System, w: nat, topic: Topic)
    requires Invariant(s) && w < |s.nodes| && Unknown(s.record.issued, topic)
    ensures Lined(s, w, topic)
  {
    assert Shaped(s) && Contained(s);
    hide Invariant, Segment, OnPath, Contained;
    forall v: nat | v < |s.nodes| ensures Empty(Segment(s, v, topic)) {
      forall a | a in Segment(s, v, topic) ensures a < 0 {
        if a >= 0 { MarksWereIssued(s, topic, v, a); }
      }
    }
    forall v: nat | v < |s.nodes| ensures Ascending(Segment(s, v, topic)) {
      assert Empty(Segment(s, v, topic));
    }
    hide Ascending;
  }

  lemma {:induction false} OldestLine(s: System, w: nat, topic: Topic)
    requires Lined(s, w, topic)
    ensures Ascending(Marks(s.record.broadcasts, topic))
  {
    RootOnPath(w);
    var x, y := Marks(s.record.broadcasts, topic), Segment(s, 0, topic);
    assert Ascending(y);
    forall i, l | 0 <= i < l < |x| ensures Fits(x[i], x[l]) { assert Fits(y[i], y[l]); }
  }

  lemma {:induction false} RootOnPath(w: nat)
    ensures OnPath(0, w)
    decreases w
  {
    if w > 0 { RootOnPath(Parent(w)); }
  }

  // ----- one place at a time -----------------------------------------------------------------------------------

  ghost predicate MarkedAt(s: System, v: nat, i: int, topic: Topic)
    requires Shaped(s)
  {
    v < |s.nodes| && 0 <= i < |Segment(s, v, topic)| && Segment(s, v, topic)[i] >= 0
  }

  /** At most one map of all diffs, links and broadcasts holds an event of the topic. */
  ghost predicate InOnePlace(s: System, topic: Topic) {
    && Shaped(s)
    && forall u: nat, i, v: nat, k :: MarkedAt(s, u, i, topic) && MarkedAt(s, v, k, topic) ==> u == v && i == k
  }

  lemma {:induction false} JoinKeepsPlace(s: System, topic: Topic, c: nat)
    requires InOnePlace(s, topic) && 0 < c < |s.nodes| && |s.up[c]| > 0
    requires s.nodes[Parent(c)].diffs.Valid() && s.up[c][0].Valid()
    ensures InOnePlace(Joined(s, c), topic)
  {
    var p, t := Parent(c), Joined(s, c);
    var x := Marks(if p == 0 then s.record.broadcasts else s.up[p], topic);
    var d, m := Mark(s.nodes[p].diffs, topic), Mark(s.up[c][0], topic);
    var y := Marks(s.up[c][1..], topic) + [Mark(s.nodes[c].diffs, topic)];
    JoinedSegments(s, c, topic, x, d, m, y);
    assert Shaped(t) && |t.nodes| == |s.nodes| && p < c;
    hide Segment, Joined, Mark, Parent;
    forall u: nat, i, v: nat, k | MarkedAt(t, u, i, topic) && MarkedAt(t, v, k, topic) ensures u == v && i == k {
      var u', i' := Before(s, t, c, p, |x|, m, u, i, topic);
      var v', k' := Before(s, t, c, p, |x|, m, v, k, topic);
    }
  }

  /** Where the mark was before the head of the link joined. */
  lemma {:induction false} Before(s: System, t: System, c: nat, p: nat, l: nat, m: int, v: nat, i: int, topic: Topic)
      returns (v': nat, i': int)
    requires Shaped(s) && Shaped(t) && |t.nodes| == |s.nodes| && p < c < |s.nodes| && MarkedAt(t, v, i, topic)
    requires |Segment(s, p, topic)| == l + 1 && |Segment(s, c, topic)| > 0 && Segment(s, c, topic)[0] == m
    requires Segment(t, p, topic) == Segment(s, p, topic)[..l] + [Max(Segment(s, p, topic)[l], m)]
    requires Segment(t, c, topic) == Segment(s, c, topic)[1..]
    requires forall u: nat :: u < |s.nodes| && u != c && u != p ==> Segment(t, u, topic) == Segment(s, u, topic)
    ensures MarkedAt(s, v', i', topic)
    ensures v' == c && i' == 0 ==> v == p && i == l
    ensures !(v' == c && i' == 0) ==> v == v' && i == if v == c then i' - 1 else i'
  {
    hide Segment;
    if v == c {
      v', i' := c, i + 1;
    } else if v == p && i == l && m >= 0 {
      v', i' := c, 0;
    } else {
      v', i' := v, i;
    }
  }

  lemma {:induction false} PushKeepsPlace(s: System, topic: Topic, w: nat, ev: Event)
    requires InOnePlace(s, topic) && w < |s.nodes| && ev.epoch >= 0
    requires About(topic, ev) ==> forall v: nat, i :: !MarkedAt(s, v, i, topic)
    ensures InOnePlace(WithPushed(s, w, ev), topic)
  {
    var t := WithPushed(s, w, ev);
    if !About(topic, ev) {
      OtherPush(s, w, ev, topic);
      hide Segment, WithPushed;
      forall v: nat, i | MarkedAt(t, v, i, topic) ensures MarkedAt(s, v, i, topic) {
      }
    } else {
      forall v: nat, i | MarkedAt(t, v, i, topic) ensures v == w && i == |Segment(s, w, topic)| - 1 {
        assert !MarkedAt(s, v, i, topic);
      }
    }
  }

  lemma {:induction false} StepKeepsPlace(s: System, step: Step, topic: Topic)
    requires Invariant(s) && Enabled(s, step) && !After(s, step).aborted && InOnePlace(s, topic)
    requires Pushes(step, topic) ==> forall v: nat, i :: !MarkedAt(s, v, i, topic)
    ensures InOnePlace(After(s, step), topic)
  {
    StepMoves(s, step, topic);
    var t, s' := Gathered(s, step), After(s, step);
    hide After, Invariant;
    assert InOnePlace(t, topic) by {
      hide InOnePlace, Moves, Joined, WithPushed;
      match step
      case Push(w, ev, _) => PushKeepsPlace(s, topic, w, ev);
      case ReceiveUp(c, _) =>
        DiffsValid(s, Parent(c));
        LinkValid(s, c);
        JoinKeepsPlace(s, topic, c);
      case _ =>
    }
    hide Segment, Gathered;
    forall v: nat, i | MarkedAt(s', v, i, topic) ensures MarkedAt(t, v, i, topic) {
      assert Shadows(Segment(t, v, topic), Segment(s', v, topic));
    }
  }
}
