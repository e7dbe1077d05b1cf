/**
 The end of a job. Workers forget a job once they have digested its end, so an older event that is still on its way
 is taken for news. The job can come back without another push exactly if such an event exists, and it does not
 exist if the worker that announced the end started when no event of the job was on its way.
 */
module BalancerEnd {
  import opened EventTypes
  import opened EventMaps
  import opened Balancing
  import opened BalancerTree
  import opened BalancerProtocol
  import opened BalancerSafety
  import opened BalancerOrder

  // ----- events on their way ----------------------------------------------------------------------

  ghost predicate Contains(m: EventState, ev: Event) { ev.jobId in m.entries && m.entries[ev.jobId] == ev }

  ghost predicate Carries(link: seq<EventState>, ev: Event) {
    exists i :: 0 <= i < |link| && Contains(link[i], ev)
  }

  /** The event is in the diffs of a worker or travels upwards. */
  ghost predicate Waits(s: System, ev: Event) {
    || (exists w :: 0 <= w < |s.nodes| && Contains(s.nodes[w].diffs, ev))
    || (exists c :: 0 < c < |s.up| && Carries(s.up[c], ev))
  }

  /** The event was on its way before the step, or the step pushes it. */
  ghost predicate Stems(s: System, step: Step, ev: Event) {
    Waits(s, ev) || (step.Push? && step.ev == ev)
  }

  lemma {:induction false} UpdateContains(a: EventState, b: EventState, ev: Event)
    ensures Contains(UpdatedState(a, b), ev) ==> Contains(a, ev) || Contains(b, ev)
  {
  }

  /** A worker holds and sends nothing but what it held or got. */
  ghost predicate NothingNew(held: EventState, got: EventState, next: Node, out: Output, ev: Event) {
    Contains(next.diffs, ev) || (!out.Nothing? && Contains(out.data, ev)) ==> Contains(held, ev) || Contains(got, ev)
  }

  lemma {:induction false} ReduceOrigin(node: Node, data: EventState, ready: bool, isRoot: bool, ev: Event)
    ensures var (next, out) := Reduced(node, data, ready, isRoot); NothingNew(node.diffs, data, next, out, ev)
  {
    UpdateContains(node.diffs, data, ev);
    var n := Collected(node, data);
    assert Contains(Stamped(n).diffs, ev) <==> Contains(n.diffs, ev);
    assert Contains(Digested(Stamped(n), Stamped(n).diffs).diffs, ev) ==> Contains(Stamped(n).diffs, ev);
    hide Updated, Filtered, WithoutOldZeros;
  }

  lemma {:induction false} AdvanceOrigin(node: Node, isRoot: bool, ev: Event)
    ensures var (next, out) := Advanced(node, isRoot); NothingNew(node.diffs, node.diffs, next, out, ev)
  {
    if node.diffs.entries != map[] {
      ReduceOrigin(Cleared(node), node.diffs, true, isRoot, ev);
      assert !Contains(Cleared(node).diffs, ev);
    }
    hide Reduced;
  }

  lemma {:induction false} CarriesGrows(link: seq<EventState>, data: EventState, ev: Event)
    ensures Carries(link + [data], ev) <==> Carries(link, ev) || Contains(data, ev)
  {
    hide Contains;
    var longer := link + [data];
    if Carries(link, ev) {
      var i :| 0 <= i < |link| && Contains(link[i], ev);
      assert Contains(longer[i], ev);
    } else if Contains(data, ev) {
      assert Contains(longer[|link|], ev);
    }
  }

  /** What is on its way, or newly broadcast, after a delivery was so before or comes from the worker. */
  lemma {:induction false} DeliveryOrigin(s: System, w: nat, next: Node, out: Output, ev: Event)
    requires Shaped(s) && w < |s.nodes| && (out.Broadcast? ==> w == 0)
    ensures var s' := Delivered(WithNode(s, w, next), w, out);
            && (Waits(s', ev) ==> Waits(s, ev) || Contains(next.diffs, ev) || (!out.Nothing? && Contains(out.data, ev)))
            && s.record.broadcasts <= s'.record.broadcasts
            && (forall i :: |s.record.broadcasts| <= i < |s'.record.broadcasts| ==>
                  !out.Nothing? && s'.record.broadcasts[i] == out.data)
  {
    hide Contains, ToChildren;
    var s' := Delivered(WithNode(s, w, next), w, out);
    if Waits(s', ev) {
      if v :| 0 <= v < |s'.nodes| && Contains(s'.nodes[v].diffs, ev) {
        assert v == w || Contains(s.nodes[v].diffs, ev);
      } else {
        var c :| 0 < c < |s'.up| && Carries(s'.up[c], ev);
        if out.SendUp? { CarriesGrows(s.up[w], out.data, ev); }
      }
    }
  }

  /** Nothing is on its way or broadcast that was not on its way before or pushed. */
  ghost predicate NoneInvented(s: System, step: Step, s': System, ev: Event) {
    && (Waits(s', ev) ==> Stems(s, step, ev))
    && s.record.broadcasts <= s'.record.broadcasts
    && forall i :: |s.record.broadcasts| <= i < |s'.record.broadcasts| && Contains(s'.record.broadcasts[i], ev) ==>
                     Stems(s, step, ev)
  }

  lemma {:induction false} WorkerOrigin(s: System, step: Step, t: System, w: nat, got: EventState, next: Node,
      out: Output, ev: Event)
    requires Shaped(t) && w < |t.nodes| && (out.Broadcast? ==> w == 0)
    requires t.record.broadcasts == s.record.broadcasts && (Waits(t, ev) ==> Stems(s, step, ev))
    requires NothingNew(t.nodes[w].diffs, got, next, out, ev) && (Contains(got, ev) ==> Stems(s, step, ev))
    ensures NoneInvented(s, step, Delivered(WithNode(t, w, next), w, out), ev)
  {
    hide Contains;
    DeliveryOrigin(t, w, next, out, ev);
    hide Delivered, Stems;
    assert Contains(t.nodes[w].diffs, ev) ==> Waits(t, ev);
  }

  lemma {:induction false} AdvanceInvents(s: System, step: Step, t: System, w: nat, ev: Event)
    requires Shaped(t) && w < |t.nodes| && t.record.broadcasts == s.record.broadcasts
    requires Waits(t, ev) ==> Stems(s, step, ev)
    ensures NoneInvented(s, step, AdvanceStep(t, w), ev)
  {
    var (next, out) := Advanced(t.nodes[w], w == 0);
    AdvanceOrigin(t.nodes[w], w == 0, ev);
    AdvanceEffect(t.nodes[w], w == 0);
    hide Advanced, AdvanceAborts, NothingNew, NoneInvented, Contains, DigestsNext;
    assert Contains(t.nodes[w].diffs, ev) ==> Waits(t, ev);
    WorkerOrigin(s, step, t, w, t.nodes[w].diffs, next, out, ev);
    Aborted(s, step, t, ev);
  }

  lemma {:induction false} Aborted(s: System, step: Step, t: System, ev: Event)
    requires t.record.broadcasts == s.record.broadcasts && (Waits(t, ev) ==> Stems(s, step, ev))
    ensures NoneInvented(s, step, t.(aborted := true), ev) && NoneInvented(s, step, t, ev)
  {
    hide Contains, Stems;
    assert Waits(t.(aborted := true), ev) ==> Waits(t, ev);
  }

  lemma {:induction false} PushedOrigin(s: System, w: nat, ev: Event, ready: bool, e: Event)
    requires Shaped(s) && w < |s.nodes|
    ensures Waits(WithPushed(s, w, ev), e) ==> Stems(s, Push(w, ev, ready), e)
  {
    var t := WithPushed(s, w, ev);
    if v :| 0 <= v < |t.nodes| && Contains(t.nodes[v].diffs, e) {
      assert v != w ==> t.nodes[v] == s.nodes[v];
      assert v == w ==> e == ev || Contains(s.nodes[v].diffs, e);
    }
  }

  lemma {:induction false} PoppedOrigin(s: System, c: nat, ev: Event)
    requires Shaped(s) && 0 < c < |s.nodes| && |s.up[c]| > 0
    ensures Waits(WithoutHead(s, c), ev) || Contains(s.up[c][0], ev) ==> Waits(s, ev)
  {
    hide Contains;
    var t := WithoutHead(s, c);
    if Contains(s.up[c][0], ev) {
      assert Carries(s.up[c], ev);
    } else if d :| 0 < d < |t.up| && Carries(t.up[d], ev) {
      if d == c {
        var i :| 0 <= i < |t.up[c]| && Contains(t.up[c][i], ev);
        assert Contains(s.up[c][i + 1], ev);
      }
      assert Carries(s.up[d], ev);
    }
  }

  lemma {:induction false} StepInvents(s: System, step: Step, ev: Event)
    requires Enabled(s, step)
    ensures NoneInvented(s, step, After(s, step), ev)
  {
    hide Advanced, Reduced, Digested, AdvanceAborts, ReduceAborts, DigestAborts, Delivered, NoneInvented, Waits;
    match step
    case Push(w, e, ready) =>
      PushedOrigin(s, w, e, ready, ev);
      var t := WithPushed(s, w, e);
      Aborted(s, step, t, ev);
      PushThenAdvance(s, w, e, ready);
      AdvanceInvents(s, step, t, w, ev);
      hide Novel, WithPushed;
      if ready && Novel(s.nodes[w].diffs.entries, e) && AdvanceAborts(t.nodes[w], w == 0) {
        PushAbortsAs(s, w, e, ready);
      }
    case Advance(w) =>
      AdvanceInvents(s, step, s, w, ev);
    case ReceiveUp(c, ready) =>
      ReceiveUpInvents(s, c, ready, ev);
    case ReceiveDown(w) =>
      ReceiveDownInvents(s, w, ev);
  }

  lemma {:induction false} PushAbortsAs(s: System, w: nat, ev: Event, ready: bool)
    requires Shaped(s) && w < |s.nodes| && ready && Novel(s.nodes[w].diffs.entries, ev)
    requires AdvanceAborts(WithPushed(s, w, ev).nodes[w], w == 0)
    ensures forall e :: NoneInvented(s, Push(w, ev, ready), PushStep(s, w, ev, ready), e)
  {
    hide AdvanceAborts, Advanced, Contains;
    var s' := PushStep(s, w, ev, ready);
    forall e ensures NoneInvented(s, Push(w, ev, ready), s', e) {
      assert Waits(s', e) ==> Waits(s, e);
    }
  }

  lemma {:induction false} ReceiveUpInvents(s: System, c: nat, ready: bool, ev: Event)
    requires Enabled(s, ReceiveUp(c, ready))
    ensures NoneInvented(s, ReceiveUp(c, ready), ReceiveUpStep(s, c, ready), ev)
  {
    var t, data, p, step := WithoutHead(s, c), s.up[c][0], Parent(c), ReceiveUp(c, ready);
    PoppedOrigin(s, c, ev);
    var (next, out) := Reduced(s.nodes[p], data, ready, p == 0);
    ReduceOrigin(s.nodes[p], data, ready, p == 0, ev);
    ReduceEffect(s.nodes[p], data, ready, p == 0);
    hide Reduced, ReduceAborts, NothingNew, NoneInvented, Contains, DigestsNext, Parent, Waits;
    Aborted(s, step, t, ev);
    WorkerOrigin(s, step, t, p, data, next, out, ev);
  }

  lemma {:induction false} ReceiveDownInvents(s: System, w: nat, ev: Event)
    requires Enabled(s, ReceiveDown(w))
    ensures NoneInvented(s, ReceiveDown(w), ReceiveDownStep(s, w), ev)
  {
    var next := Digested(s.nodes[w], s.down[w][0]);
    assert Contains(next.diffs, ev) ==> Contains(s.nodes[w].diffs, ev);
    hide Digested, DigestAborts, Contains, ToChildren;
    var s' := ReceiveDownStep(s, w);
    if Waits(s', ev) {
      if v :| 0 <= v < |s'.nodes| && Contains(s'.nodes[v].diffs, ev) {
        assert Contains(s.nodes[v].diffs, ev);
      }
    }
  }

  // ----- replaying the end ------------------------------------------------------------------------

  /** From the first broadcast of the end on, only the end is broadcast for the job. */
  ghost predicate EndsAt(h: seq<EventState>, p: nat, end: Event) {
    && p < |h| && Contains(h[p], end) && OldZero(end)
    && (forall i :: 0 <= i < |h| ==> h[i].Valid())
    && (forall i :: p <= i < |h| && end.jobId in h[i].entries ==> h[i].entries[end.jobId] == end)
    && (forall i :: 0 <= i < |h| && end.jobId in h[i].entries ==> Precedes(h[i].entries[end.jobId], end))
  }

  ghost predicate Precedes(ev: Event, end: Event) { ev.epoch < end.epoch || ev == end }

  /** What the replay holds of the job was broadcast. */
  lemma {:induction false} ReplayFromBroadcast(h: seq<EventState>, job: int)
    ensures job in Replay(h).entries ==>
              exists i :: 0 <= i < |h| && job in h[i].entries && h[i].entries[job] == Replay(h).entries[job]
  {
    if |h| > 0 {
      var front := h[..|h| - 1];
      ReplayFromBroadcast(front, job);
      if job in Replay(h).entries && job in Replay(front).entries
        && Replay(h).entries[job] == Replay(front).entries[job] {
        var i :| 0 <= i < |front| && job in front[i].entries && front[i].entries[job] == Replay(front).entries[job];
        assert h[i] == front[i];
      } else if job in Replay(h).entries {
        assert h[|h| - 1].entries[job] == Replay(h).entries[job];
      }
    }
  }

  /** After the end was digested, the job is not held again. */
  lemma {:induction false} GoneAfterEnd(h: seq<EventState>, p: nat, end: Event, q: nat)
    requires EndsAt(h, p, end) && p < q <= |h|
    ensures end.jobId !in Replay(h[..q]).entries
  {
    var job, front := end.jobId, h[..q - 1];
    assert h[..q][..q - 1] == front && h[..q][q - 1] == h[q - 1];
    var before := Replay(front);
    if p < q - 1 {
      GoneAfterEnd(h, p, end, q - 1);
    } else {
      ReplayFromBroadcast(front, job);
      NoZeroInReplay(front, job);
      if job in before.entries {
        var i :| 0 <= i < |front| && job in front[i].entries && front[i].entries[job] == before.entries[job];
        assert h[i] == front[i];
        assert before.entries[job].epoch < end.epoch;
      }
    }
    var updated := UpdatedState(before, h[q - 1]);
    assert job in updated.entries ==> updated.entries[job] == end;
  }

  // ----- nothing of the job is on its way ------------------------------------------------------------

  ghost predicate Settled(s: System, job: int) {
    forall ev :: Waits(s, ev) ==> ev.jobId != job
  }

  /** No event of the job is on its way, and those that are pushed from there on are newer than all before. */
  ghost predicate StartsAfresh(trace: seq<System>, steps: seq<Step>, j: nat, k: nat, topic: Topic)
    requires j <= k <= |steps| < |trace|
  {
    && Settled(trace[j], topic.job) && Unknown(trace[j].record.issued, topic)
    && forall i :: j <= i < k && OfJob(steps[i], topic.job) ==> Pushes(steps[i], topic)
  }

  /** Only newer events are on their way, and only such were broadcast since. */
  ghost predicate OnlyNewer(s: System, from: nat, topic: Topic) {
    && (forall ev :: Waits(s, ev) && ev.jobId == topic.job ==> About(topic, ev))
    && (forall i, ev :: from <= i < |s.record.broadcasts| && Contains(s.record.broadcasts[i], ev) ==>
                          ev.jobId == topic.job ==> About(topic, ev))
  }

  lemma {:induction false} StepKeepsNewer(s: System, step: Step, from: nat, topic: Topic)
    requires Enabled(s, step) && OnlyNewer(s, from, topic)
    requires OfJob(step, topic.job) ==> About(topic, step.ev)
    ensures OnlyNewer(After(s, step), from, topic)
  {
    hide Waits, Contains, Enabled, After;
    var s' := After(s, step);
    forall ev | Waits(s', ev) && ev.jobId == topic.job ensures About(topic, ev) {
      StepInvents(s, step, ev);
    }
    forall i, ev | from <= i < |s'.record.broadcasts| && Contains(s'.record.broadcasts[i], ev)
      ensures ev.jobId == topic.job ==> About(topic, ev)
    {
      StepInvents(s, step, ev);
      if i < |s.record.broadcasts| { assert s.record.broadcasts[i] == s'.record.broadcasts[i]; }
    }
  }

  lemma {:induction false} SettledIsNewer(s: System, topic: Topic)
    requires Settled(s, topic.job)
    ensures OnlyNewer(s, |s.record.broadcasts|, topic)
  {
    hide Waits, Contains;
  }

  lemma {:induction false} RunKeepsNewer(n: nat, trace: seq<System>, steps: seq<Step>, j: nat, k: nat, topic: Topic)
    requires Run(n, trace, steps) && j <= k <= |steps| && StartsAfresh(trace, steps, j, k, topic)
    ensures OnlyNewer(trace[k], |trace[j].record.broadcasts|, topic)
  {
    hide Waits, Contains, Enabled, After, Settled, Unknown;
    if k > j {
      hide OnlyNewer;
      RunShape(n, trace, steps, k);
      RunKeepsNewer(n, trace, steps, j, k - 1, topic);
      hide Run;
      assert OfJob(steps[k - 1], topic.job) ==> Pushes(steps[k - 1], topic);
      StepKeepsNewer(trace[k - 1], steps[k - 1], |trace[j].record.broadcasts|, topic);
    } else {
      SettledIsNewer(trace[j], topic);
    }
  }

  /** Events of the topic that exist were pushed before the last one. */
  lemma {:induction false} IssuedBeforeLast(n: nat, trace: seq<System>, steps: seq<Step>, j: nat, k: nat, w: nat,
      topic: Topic, last: nat, ev: Event)
    requires Run(n, trace, steps) && j <= last < k < |trace| && Pushes(steps[last], topic)
    requires Unknown(trace[j].record.issued, topic) && OneIssuer(steps, j, k, w, topic)
    requires forall i :: last < i < k ==> !Pushes(steps[i], topic)
    requires ev in trace[k].record.issued && ev.jobId == topic.job
    ensures Precedes(ev, steps[last].ev)
  {
    if About(topic, ev) {
      IssuedWerePushed(n, trace, steps, j, k, ev);
      var i :| j <= i < k && steps[i].Push? && steps[i].ev == ev;
      assert Pushes(steps[i], topic);
    }
  }

  /** One worker pushes newer events of a job with growing epochs, the last one is its end, and that was broadcast. */
  ghost predicate EndBroadcast(trace: seq<System>, steps: seq<Step>, j: nat, k: nat, w: nat, topic: Topic, last: nat,
      p: nat)
    requires |trace| == |steps| + 1
  {
    && j <= last < k < |trace| && !trace[k].aborted && w < |trace[j].nodes|
    && StartsAfresh(trace, steps, j, k, topic) && OneIssuer(steps, j, k, w, topic)
    && Pushes(steps[last], topic) && OldZero(steps[last].ev)
    && (forall i :: last < i < k ==> !Pushes(steps[i], topic))
    && p < |trace[k].record.broadcasts| && Contains(trace[k].record.broadcasts[p], steps[last].ev)
  }

  /**
   If no event of a job is on its way, one worker then pushes newer events of it with growing epochs and the last
   one is its end, then no worker that has digested a broadcast of the end holds the job, then or later, and all
   that is on its way is the end.
   */
  lemma {:induction false} EndIsFinal(n: nat, trace: seq<System>, steps: seq<Step>, j: nat, k: nat, w: nat,
      topic: Topic, last: nat, p: nat)
    requires Run(n, trace, steps) && EndBroadcast(trace, steps, j, k, w, topic, last, p)
    ensures forall v: nat :: v < |trace[k].nodes| && p < trace[k].nodes[v].balancingEpoch ==>
              topic.job !in trace[k].nodes[v].states.entries
    ensures forall ev :: Waits(trace[k], ev) && ev.jobId == topic.job ==> ev == steps[last].ev
  {
    var s, end := trace[k], steps[last].ev;
    var h := s.record.broadcasts;
    RunKeepsLined(n, trace, steps, j, k, w, topic);
    RunKeepsInvariant(n, trace, steps, k);
    RunKeepsNewer(n, trace, steps, j, k, topic);
    BroadcastSince(n, trace, steps, j, k, topic, p, end);
    assert AllKnown(h, s.record.issued);
    assert Replicated(s) && Contained(s);
    hide Run, Lined, Invariant, Replicated, Contained, Waits, Unknown;
    forall ev | ev in s.record.issued && ev.jobId == topic.job ensures Precedes(ev, end) {
      IssuedBeforeLast(n, trace, steps, j, k, w, topic, last, ev);
    }
    EndedFrom(s, w, topic, |trace[j].record.broadcasts|, p, end);
    forall v: nat | v < |s.nodes| && p < s.nodes[v].balancingEpoch ensures topic.job !in s.nodes[v].states.entries {
      GoneAt(s, p, end, v);
    }
    forall ev | Waits(s, ev) && ev.jobId == topic.job ensures ev == end {
      WaitingIsEnd(s, w, topic, p, end, ev);
    }
  }

  /** The end was not broadcast before it was pushed. */
  lemma {:induction false} BroadcastSince(n: nat, trace: seq<System>, steps: seq<Step>, j: nat, k: nat, topic: Topic,
      p: nat, end: Event)
    requires Run(n, trace, steps) && j <= k < |trace| && !trace[k].aborted
    requires Unknown(trace[j].record.issued, topic) && About(topic, end)
    requires p < |trace[k].record.broadcasts| && Contains(trace[k].record.broadcasts[p], end)
    ensures p >= |trace[j].record.broadcasts|
  {
    BroadcastsGrow(n, trace, steps, j, k);
    if j < k { EnabledMeansRunning(trace[j], steps[j]); }
    RunKeepsInvariant(n, trace, steps, j);
    assert AllKnown(trace[j].record.broadcasts, trace[j].record.issued);
  }

  lemma {:induction false} EndedFrom(s: System, w: nat, topic: Topic, from: nat, p: nat, end: Event)
    requires Lined(s, w, topic) && AllKnown(s.record.broadcasts, s.record.issued) && OnlyNewer(s, from, topic)
    requires About(topic, end) && OldZero(end) && from <= p < |s.record.broadcasts|
    requires Contains(s.record.broadcasts[p], end)
    requires forall ev :: ev in s.record.issued && ev.jobId == topic.job ==> Precedes(ev, end)
    ensures EndsAt(s.record.broadcasts, p, end)
  {
    OldestLine(s, w, topic);
    var h := s.record.broadcasts;
    hide Lined, Waits;
    forall i | 0 <= i < |h| ensures h[i].Valid() { assert Known(h[i], s.record.issued); }
    forall i | 0 <= i < |h| && topic.job in h[i].entries ensures Precedes(h[i].entries[topic.job], end) {
      assert Known(h[i], s.record.issued);
    }
    forall i | p <= i < |h| && topic.job in h[i].entries ensures h[i].entries[topic.job] == end {
      assert Contains(h[i], h[i].entries[topic.job]);
      var x := Marks(h, topic);
      assert p < i ==> Fits(x[p], x[i]);
    }
  }

  lemma {:induction false} GoneAt(s: System, p: nat, end: Event, v: nat)
    requires Replicated(s) && EndsAt(s.record.broadcasts, p, end) && v < |s.nodes| && p < s.nodes[v].balancingEpoch
    ensures end.jobId !in s.nodes[v].states.entries
  {
    assert Replica(s.nodes[v], s.record.broadcasts);
    hide EndsAt, Replay;
    GoneAfterEnd(s.record.broadcasts, p, end, s.nodes[v].balancingEpoch);
  }

  /** What is on its way is a mark of a segment. */
  lemma {:induction false} WaitingIsMarked(s: System, topic: Topic, ev: Event) returns (v: nat, i: int)
    requires Contained(s) && Waits(s, ev) && About(topic, ev)
    ensures MarkedAt(s, v, i, topic) && Segment(s, v, topic)[i] == ev.epoch
    ensures v == 0 ==> i == |Segment(s, 0, topic)| - 1
    ensures ev in s.record.issued && ev.epoch >= 0
  {
    if w :| 0 <= w < |s.nodes| && Contains(s.nodes[w].diffs, ev) {
      assert Known(s.nodes[w].diffs, s.record.issued);
      v, i := w, |Segment(s, w, topic)| - 1;
    } else {
      var c :| 0 < c < |s.up| && Carries(s.up[c], ev);
      var l :| 0 <= l < |s.up[c]| && Contains(s.up[c][l], ev);
      assert AllKnown(s.up[c], s.record.issued) && Known(s.up[c][l], s.record.issued);
      v, i := c, l;
    }
  }

  lemma {:induction false} WaitingIsEnd(s: System, w: nat, topic: Topic, p: nat, end: Event, ev: Event)
    requires Lined(s, w, topic) && Contained(s) && About(topic, end) && About(topic, ev) && Waits(s, ev)
    requires p < |s.record.broadcasts| && Contains(s.record.broadcasts[p], end) && end.epoch >= 0
    requires forall e :: e in s.record.issued && e.jobId == topic.job ==> Precedes(e, end)
    ensures ev == end
  {
    var v, i := WaitingIsMarked(s, topic, ev);
    RootOnPath(w);
    var x, y := Segment(s, 0, topic), Segment(s, v, topic);
    assert p < |x| - 1 && x[p] == end.epoch;
    assert x[p] in x && y[i] in y;
    hide Segment, Contained, Waits, OnPath, Precedes;
    if v == 0 {
      assert Ascending(x) && Fits(x[p], x[i]);
    } else {
      assert OnPath(v, w) by { assert !Empty(y); }
      assert Below(x, y);
    }
    assert Precedes(ev, end);
    OldestPrecedes(ev, end);
  }

  lemma {:induction false} OldestPrecedes(ev: Event, end: Event)
    requires Precedes(ev, end) && ev.epoch >= end.epoch
    ensures ev == end
  {
  }

  // ----- a probe before the root --------------------------------------------------------------------------

  lemma {:induction false} UnknownIsUnmarked(s: System, topic: Topic, v: nat, i: int)
    requires Invariant(s) && Unknown(s.record.issued, topic)
    ensures !MarkedAt(s, v, i, topic)
  {
    assert Contained(s);
    hide Segment, Contained, Replicated, NothingLost;
    if MarkedAt(s, v, i, topic) {
      MarksWereIssued(s, topic, v, Segment(s, v, topic)[i]);
    }
  }

  /** An event that is pushed once is in one place at a time. */
  lemma {:induction false} RunKeepsPlace(n: nat, trace: seq<System>, steps: seq<Step>, k: nat, topic: Topic, probe: nat)
    requires Run(n, trace, steps) && k < |trace| && !trace[k].aborted
    requires forall i :: 0 <= i < k && Pushes(steps[i], topic) ==> i == probe
    ensures InOnePlace(trace[k], topic)
  {
    hide InOnePlace, Invariant, Enabled, After;
    RunKeepsInvariant(n, trace, steps, k);
    if k == 0 {
      RunStarts(n, trace, steps);
      NothingAnywhere(Initial(n), topic);
    } else {
      RunShape(n, trace, steps, k);
      EnabledMeansRunning(trace[k - 1], steps[k - 1]);
      RunKeepsInvariant(n, trace, steps, k - 1);
      RunKeepsPlace(n, trace, steps, k - 1, topic, probe);
      if Pushes(steps[k - 1], topic) {
        forall ev | ev in trace[k - 1].record.issued ensures !About(topic, ev) {
          if About(topic, ev) {
            RunStarts(n, trace, steps);
            IssuedWerePushed(n, trace, steps, 0, k - 1, ev);
          }
        }
        var s := trace[k - 1];
        forall v: nat, i ensures !MarkedAt(s, v, i, topic) {
          UnknownIsUnmarked(s, topic, v, i);
        }
      }
      StepKeepsPlace(trace[k - 1], steps[k - 1], topic);
    }
  }

  lemma {:induction false} NothingAnywhere(s: System, topic: Topic)
    requires Invariant(s) && s.record.issued == {}
    ensures InOnePlace(s, topic)
  {
    assert Shaped(s);
    hide Invariant, Segment;
    forall v: nat, i ensures !MarkedAt(s, v, i, topic) {
      UnknownIsUnmarked(s, topic, v, i);
    }
  }

  /** Once a worker has held a job of which one event was pushed, nothing of it is on its way. */
  lemma {:induction false} ProbeSettles(n: nat, trace: seq<System>, steps: seq<Step>, j: nat, job: int, probe: nat,
      v: nat)
    requires Run(n, trace, steps) && j < |trace| && !trace[j].aborted
    requires forall i :: 0 <= i < j && OfJob(steps[i], job) ==> i == probe
    requires v < |trace[j].nodes| && job in trace[j].nodes[v].states.entries
    ensures Settled(trace[j], job)
  {
    var s, topic := trace[j], Topic(job, 0);
    RunKeepsInvariant(n, trace, steps, j);
    RunKeepsPlace(n, trace, steps, j, topic, probe);
    var h, e := s.record.broadcasts, s.nodes[v].balancingEpoch;
    assert Contained(s) && Replica(s.nodes[v], h);
    ReplayFromBroadcast(h[..e], job);
    var p :| 0 <= p < e && job in h[p].entries;
    assert Known(h[p], s.record.issued);
    assert MarkedAt(s, 0, p, topic);
    hide Run, Invariant, Replica, Segment;
    forall ev | Waits(s, ev) ensures ev.jobId != job {
      if ev.jobId == job {
        WaitingIsValid(s, ev);
        var u, i := WaitingIsMarked(s, topic, ev);
        RootSegment(s, topic);
      }
    }
  }

  lemma {:induction false} WaitingIsValid(s: System, ev: Event)
    requires Contained(s) && Waits(s, ev)
    ensures ev.epoch >= 0
  {
    if w :| 0 <= w < |s.nodes| && Contains(s.nodes[w].diffs, ev) {
      assert Known(s.nodes[w].diffs, s.record.issued);
    } else {
      var c :| 0 < c < |s.up| && Carries(s.up[c], ev);
      var l :| 0 <= l < |s.up[c]| && Contains(s.up[c][l], ev);
      assert AllKnown(s.up[c], s.record.issued) && Known(s.up[c][l], s.record.issued);
    }
  }

  lemma {:induction false} RootSegment(s: System, topic: Topic)
    requires Shaped(s)
    ensures |Segment(s, 0, topic)| == |s.record.broadcasts| + 1
  {
  }

  /**
   A job that is probed at any worker, then held by some worker, and from then on announced by one worker with
   growing epochs above the probe's up to its end, does not come back.
   */
  lemma {:induction false} ProbedJobEnds(n: nat, trace: seq<System>, steps: seq<Step>, probe: nat, j: nat, k: nat,
      u: nat, w: nat, last: nat, p: nat)
    requires Run(n, trace, steps) && probe < j <= last < k < |trace| && !trace[k].aborted && steps[probe].Push?
    requires forall i :: 0 <= i < j && OfJob(steps[i], steps[probe].ev.jobId) ==> i == probe
    requires u < |trace[j].nodes| && steps[probe].ev.jobId in trace[j].nodes[u].states.entries
    requires w < |trace[j].nodes| && OneIssuer(steps, j, k, w, Topic(steps[probe].ev.jobId, 0))
    requires forall i :: j <= i < k && OfJob(steps[i], steps[probe].ev.jobId) ==>
               steps[probe].ev.epoch < steps[i].ev.epoch
    requires OfJob(steps[last], steps[probe].ev.jobId) && OldZero(steps[last].ev)
    requires forall i :: last < i < k ==> !OfJob(steps[i], steps[probe].ev.jobId)
    requires p < |trace[k].record.broadcasts| && Contains(trace[k].record.broadcasts[p], steps[last].ev)
    ensures forall v: nat :: v < |trace[k].nodes| && p < trace[k].nodes[v].balancingEpoch ==>
              steps[probe].ev.jobId !in trace[k].nodes[v].states.entries
    ensures forall ev :: Waits(trace[k], ev) && ev.jobId == steps[probe].ev.jobId ==> ev == steps[last].ev
  {
    var job, topic := steps[probe].ev.jobId, Topic(steps[probe].ev.jobId, steps[probe].ev.epoch + 1);
    hide Enabled, After, Waits, Settled;
    EnabledMeansRunning(trace[j], steps[j]);
    ProbeSettles(n, trace, steps, j, job, probe, u);
    forall ev | ev in trace[j].record.issued ensures !About(topic, ev) {
      RunStarts(n, trace, steps);
      IssuedWerePushed(n, trace, steps, 0, j, ev);
    }
    forall i | j <= i < k && Pushes(steps[i], topic) ensures Pushes(steps[i], Topic(job, 0)) {
      PushIsValid(trace[i], steps[i]);
    }
    EndIsFinal(n, trace, steps, j, k, w, topic, last, p);
  }
}
