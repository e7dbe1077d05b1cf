/** When a job comes back without another push: exactly if an event of it is on its way that is not an end. */
module BalancerRevival {
  import opened EventTypes
  import opened EventMaps
  import opened Balancing
  import opened BalancerTree
  import opened BalancerProtocol
  import opened BalancerSafety
  import opened BalancerOrder
  import opened BalancerEnd

  ghost predicate RootHolds(s: System, job: int) { |s.nodes| > 0 && job in s.nodes[0].states.entries }

  /** An event of the job that is not an end is on its way. */
  ghost predicate LiveWaits(s: System, job: int) {
    exists ev :: Waits(s, ev) && ev.jobId == job && !OldZero(ev)
  }

  ghost predicate Continues(s: System, trace: seq<System>, steps: seq<Step>) {
    && |trace| == |steps| + 1 && trace[0] == s
    && forall i :: 0 <= i < |steps| ==> Enabled(trace[i], steps[i]) && trace[i + 1] == After(trace[i], steps[i])
  }

  /** No step pushes an event of the job other than an end. */
  ghost predicate Silent(steps: seq<Step>, job: int) {
    forall i :: 0 <= i < |steps| && OfJob(steps[i], job) ==> OldZero(steps[i].ev)
  }

  /** Some continuation that pushes no event of the job but its end makes the root hold the job. */
  ghost predicate ComesBack(s: System, job: int) {
    exists trace, steps :: Continues(s, trace, steps) && Silent(steps, job) && RootHolds(trace[|steps|], job)
  }

  // ----- what the root holds stems from what was on its way ------------------------------------------

  /** A worker's step brings the job into its states only with a broadcast of a live event. */
  lemma {:induction false} EffectHolds(node: Node, next: Node, out: Output, isRoot: bool, job: int)
    requires ReplicaEffect(node, next, out, isRoot) && job in next.states.entries
    ensures job in node.states.entries
         || (out.Broadcast? && job in out.data.entries && !OldZero(out.data.entries[job]))
  {
  }

  lemma {:induction false} AdvanceHolds(s: System, t: System, w: nat, job: int)
    requires Shaped(t) && w < |t.nodes| && RootHolds(AdvanceStep(t, w), job) && !RootHolds(t, job)
    requires t.record.broadcasts == s.record.broadcasts
    ensures BroadcastsLive(s, AdvanceStep(t, w), job)
  {
    var (next, out) := Advanced(t.nodes[w], w == 0);
    AdvanceEffect(t.nodes[w], w == 0);
    hide Advanced, AdvanceAborts, ReplicaEffect, ToChildren, OldZero;
    DeliveryHolds(s, t, w, next, out, job);
  }

  /** A broadcast with a live event of the job was added. */
  ghost predicate BroadcastsLive(s: System, s': System, job: int) {
    exists i :: |s.record.broadcasts| <= i < |s'.record.broadcasts| && job in s'.record.broadcasts[i].entries
                && !OldZero(s'.record.broadcasts[i].entries[job])
  }

  lemma {:induction false} DeliveryHolds(s: System, t: System, w: nat, next: Node, out: Output, job: int)
    requires Shaped(t) && w < |t.nodes| && ReplicaEffect(t.nodes[w], next, out, w == 0)
    requires t.record.broadcasts == s.record.broadcasts && !RootHolds(t, job)
    ensures RootHolds(Delivered(WithNode(t, w, next), w, out), job) ==>
              BroadcastsLive(s, Delivered(WithNode(t, w, next), w, out), job)
  {
    var s' := Delivered(WithNode(t, w, next), w, out);
    if RootHolds(s', job) && w == 0 {
      EffectHolds(t.nodes[0], next, out, true, job);
      hide ToChildren, OldZero, ReplicaEffect;
      assert s'.record.broadcasts[|s.record.broadcasts|] == out.data;
    }
  }

  lemma {:induction false} StepHolds(s: System, step: Step, job: int)
    requires Enabled(s, step) && RootHolds(After(s, step), job) && !RootHolds(s, job)
    ensures BroadcastsLive(s, After(s, step), job)
  {
    hide Advanced, Reduced, Digested, AdvanceAborts, ReduceAborts, DigestAborts, ToChildren, ReplicaEffect;
    hide BroadcastsLive;
    match step
    case Push(w, ev, ready) =>
      PushThenAdvance(s, w, ev, ready);
      var t := WithPushed(s, w, ev);
      assert !RootHolds(t, job);
      if ready && Novel(s.nodes[w].diffs.entries, ev) {
        if AdvanceAborts(t.nodes[w], w == 0) {
          assert false;
        } else {
          AdvanceHolds(s, t, w, job);
        }
      }
    case Advance(w) =>
      AdvanceHolds(s, s, w, job);
    case ReceiveUp(c, ready) =>
      var t, p := WithoutHead(s, c), Parent(c);
      hide Parent;
      var (next, out) := Reduced(s.nodes[p], s.up[c][0], ready, p == 0);
      ReduceEffect(s.nodes[p], s.up[c][0], ready, p == 0);
      DeliveryHolds(s, t, p, next, out, job);
    case ReceiveDown(w) =>
  }

  /** Backwards: the root holds the job or a live event is on its way, before a step as after it. */
  lemma {:induction false} StepBack(s: System, step: Step, job: int)
    requires Invariant(s) && Enabled(s, step) && (OfJob(step, job) ==> OldZero(step.ev))
    requires RootHolds(After(s, step), job) || LiveWaits(After(s, step), job)
    ensures RootHolds(s, job) || LiveWaits(s, job)
  {
    var s' := After(s, step);
    if !RootHolds(s, job) {
      if RootHolds(s', job) {
        StepHolds(s, step, job);
        BroadcastStems(s, step, job);
      } else {
        hide After, Waits, OldZero, Enabled;
        var ev :| Waits(s', ev) && ev.jobId == job && !OldZero(ev);
        StepInvents(s, step, ev);
      }
    }
  }

  lemma {:induction false} BroadcastStems(s: System, step: Step, job: int)
    requires Invariant(s) && Enabled(s, step) && BroadcastsLive(s, After(s, step), job)
    requires OfJob(step, job) ==> OldZero(step.ev)
    ensures LiveWaits(s, job)
  {
    StepKeepsInvariant(s, step);
    var s' := After(s, step);
    if s'.aborted { AbortBroadcasts(s, step); }
    assert AllKnown(s'.record.broadcasts, s'.record.issued);
    hide After, Waits, OldZero, Enabled, Invariant;
    var i :| |s.record.broadcasts| <= i < |s'.record.broadcasts| && job in s'.record.broadcasts[i].entries
             && !OldZero(s'.record.broadcasts[i].entries[job]);
    var ev := s'.record.broadcasts[i].entries[job];
    assert Known(s'.record.broadcasts[i], s'.record.issued);
    assert Contains(s'.record.broadcasts[i], ev);
    StepInvents(s, step, ev);
  }

  lemma {:induction false} AbortBroadcasts(s: System, step: Step)
    requires Enabled(s, step) && After(s, step).aborted
    ensures After(s, step).record.broadcasts == s.record.broadcasts
  {
    hide Advanced, Reduced, Digested, AdvanceAborts, ReduceAborts, DigestAborts, ToChildren, Novel;
  }

  /** Nothing comes of a system in which nothing live is on its way. */
  lemma {:induction false} NothingComes(s: System, trace: seq<System>, steps: seq<Step>, job: int)
    requires Invariant(s) && Continues(s, trace, steps) && Silent(steps, job)
    requires RootHolds(trace[|steps|], job) || LiveWaits(trace[|steps|], job)
    ensures RootHolds(s, job) || LiveWaits(s, job)
    decreases |steps|
  {
    hide Invariant, Enabled, After, OldZero, RootHolds, LiveWaits;
    if |steps| > 0 {
      var next := After(s, steps[0]);
      StepKeepsInvariant(s, steps[0]);
      if |steps| > 1 {
        EnabledMeansRunning(trace[1], steps[1]);
        NothingComes(next, trace[1..], steps[1..], job);
      }
      StepBack(s, steps[0], job);
    }
  }

  // ----- what is on its way can arrive ---------------------------------------------------------------

  lemma {:induction false} OneMoreStep(s: System, step: Step, trace: seq<System>, steps: seq<Step>)
    requires Enabled(s, step) && Continues(After(s, step), trace, steps)
    ensures Continues(s, [s] + trace, [step] + steps)
  {
    hide After, Enabled;
  }

  /** The root has broadcast the event last, and holds the job unless the event is an end. */
  ghost predicate Arrived(s: System, ev: Event) {
    var h := s.record.broadcasts;
    |h| > 0 && Contains(h[|h| - 1], ev) && (!OldZero(ev) ==> RootHolds(s, ev.jobId))
  }

  /** Workers off the path to the root are as before. */
  ghost predicate OffPath(s: System, s': System, w: nat) {
    && |s'.nodes| == |s.nodes| && s'.record.issued == s.record.issued
    && forall v: nat :: v < |s.nodes| && !OnPath(v, w) ==> s'.nodes[v] == s.nodes[v]
  }

  lemma {:induction false} Digesting(node: Node, data: EventState, ev: Event)
    requires Contains(data, ev) && !OldZero(ev) && ev.epoch >= 0
    requires ev.jobId in node.states.entries ==> !OldZero(node.states.entries[ev.jobId])
    ensures ev.jobId in Digested(node, data).states.entries
  {
  }

  /** After an advance nothing is left in the diffs. */
  lemma {:induction false} AdvanceEmpties(node: Node, isRoot: bool)
    requires node.diffs.Valid()
    ensures Advanced(node, isRoot).0.diffs.entries == map[]
  {
    var n := Stamped(Collected(Cleared(node), node.diffs));
    UpdatedValid(Cleared(node).diffs, node.diffs);
    AllFiltered(n.diffs.entries, n.states.entries);
    hide Updated, Filtered, WithoutOldZeros;
  }

  lemma {:induction false} AllFiltered(a: map<int, Event>, states: map<int, Event>)
    requires forall j :: j in a ==> a[j].epoch >= 0
    ensures Filtered(a, Updated(states, a)) == map[]
  {
    var updated := Updated(states, a);
    forall j | j in a ensures j in updated && updated[j].epoch >= a[j].epoch {
    }
    hide Updated;
    forall j ensures j !in Filtered(a, updated) {
    }
  }

  lemma {:induction false} CollectedContains(node: Node, data: EventState, ev: Event)
    requires node.diffs.entries == map[] && Contains(data, ev) && ev.epoch >= 0
    ensures Contains(Collected(node, data).diffs, ev)
  {
  }

  lemma {:induction false} AdvanceStepEmpties(s: System, w: nat)
    requires Shaped(s) && w < |s.nodes| && s.nodes[w].diffs.Valid() && !AdvanceAborts(s.nodes[w], w == 0)
    ensures var s' := AdvanceStep(s, w);
            && s'.nodes[w].diffs.entries == map[] && |s'.up| == |s.up|
            && (forall c :: 0 <= c < |s.up| && c != w ==> s'.up[c] == s.up[c])
            && (forall v :: 0 <= v < |s.nodes| && v != w ==> s'.nodes[v] == s.nodes[v])
  {
    AdvanceEmpties(s.nodes[w], w == 0);
    hide Advanced, AdvanceAborts, ToChildren;
  }

  /** The next message of a link is received. */
  lemma {:induction false} ReceiveUpMovesOn(s: System, c: nat)
    requires Enabled(s, ReceiveUp(c, true)) && !ReceiveUpStep(s, c, true).aborted
    ensures var s', p := ReceiveUpStep(s, c, true), Parent(c);
            && s'.up[c] == s.up[c][1..]
            && (forall v :: 0 <= v < |s.nodes| && v != p ==> s'.nodes[v] == s.nodes[v])
  {
    hide Reduced, ReduceAborts, ToChildren;
  }

  lemma {:induction false} ArrivesAtParent(s: System, c: nat, ev: Event)
    requires Enabled(s, ReceiveUp(c, true)) && Parent(c) > 0 && s.nodes[Parent(c)].diffs.entries == map[]
    requires Contains(s.up[c][0], ev) && ev.epoch >= 0
    ensures var s', p := ReceiveUpStep(s, c, true), Parent(c);
            |s'.up[p]| > 0 && Contains(s'.up[p][|s'.up[p]| - 1], ev) && !s'.aborted
  {
    CollectedContains(s.nodes[Parent(c)], s.up[c][0], ev);
    hide Contains, Collected;
  }

  lemma {:induction false} ArrivesAtRoot(s: System, c: nat, ev: Event)
    requires Enabled(s, ReceiveUp(c, true)) && Parent(c) == 0 && s.nodes[0].diffs.entries == map[]
    requires Contains(s.up[c][0], ev) && ev.epoch >= 0 && !ReceiveUpStep(s, c, true).aborted
    requires ev.jobId in s.nodes[0].states.entries ==> !OldZero(s.nodes[0].states.entries[ev.jobId])
    ensures Arrived(ReceiveUpStep(s, c, true), ev)
  {
    var n := Stamped(Collected(s.nodes[0], s.up[c][0]));
    CollectedContains(s.nodes[0], s.up[c][0], ev);
    assert Contains(n.diffs, ev);
    if !OldZero(ev) { Digesting(n, n.diffs, ev); }
    hide Contains, Collected, Digested, DigestAborts, OldZero, ToChildren;
  }

  lemma {:induction false} RootHasNoZero(s: System, job: int)
    requires Replicated(s) && job in s.nodes[0].states.entries
    ensures !OldZero(s.nodes[0].states.entries[job])
  {
    assert Replica(s.nodes[0], s.record.broadcasts);
    NoZeroInReplay(s.record.broadcasts[..s.nodes[0].balancingEpoch], job);
  }

  /** A step that is no push leaves all but one worker as they are, and aborts only on a conflict of issued events. */
  ghost predicate Proceeds(s: System, step: Step, s': System) {
    && Enabled(s, step) && !step.Push? && s' == After(s, step)
    && s'.record.issued == s.record.issued && (Functional(s.record.issued) ==> !s'.aborted)
    && (!s'.aborted ==> Invariant(s'))
  }

  lemma {:induction false} StepProceeds(s: System, step: Step)
    requires Invariant(s) && Enabled(s, step) && !step.Push?
    ensures Proceeds(s, step, After(s, step))
  {
    StepIssues(s, step);
    StepKeepsInvariant(s, step);
    hide Invariant, Enabled, After, Functional;
    if Functional(s.record.issued) { StepIsSafe(s, step); }
  }

  /** What a continuation without pushes brings about. */
  ghost predicate Delivers(s: System, trace: seq<System>, steps: seq<Step>, w: nat, ev: Event) {
    && Continues(s, trace, steps) && (forall i :: 0 <= i < |steps| ==> !steps[i].Push?)
    && OffPath(s, trace[|steps|], w)
    && (if trace[|steps|].aborted then !Functional(s.record.issued) else Arrived(trace[|steps|], ev))
  }

  lemma {:induction false} StepThenDelivers(s: System, step: Step, s1: System, trace: seq<System>, steps: seq<Step>,
      c: nat, w: nat, ev: Event)
    requires Proceeds(s, step, s1) && OffPath(s, s1, w) && !s1.aborted && Delivers(s1, trace, steps, c, ev)
    requires OnPath(c, w)
    ensures Delivers(s, [s] + trace, [step] + steps, w, ev)
  {
    hide Arrived, Functional, Enabled, After, Invariant;
    OneMoreStep(s, step, trace, steps);
    hide Continues;
    forall v: nat | v < |s.nodes| && !OnPath(v, w) ensures trace[|steps|].nodes[v] == s.nodes[v] {
      if OnPath(v, c) { PathThrough(v, c, w); }
    }
  }

  lemma {:induction false} PathThrough(v: nat, c: nat, w: nat)
    requires OnPath(v, c) && OnPath(c, w)
    ensures OnPath(v, w)
    decreases w
  {
    if c != w { PathThrough(v, c, Parent(w)); }
  }

  lemma {:induction false} StopsAt(s: System, step: Step, s1: System, w: nat, ev: Event)
    requires Proceeds(s, step, s1) && OffPath(s, s1, w) && (s1.aborted || Arrived(s1, ev))
    ensures Delivers(s, [s, s1], [step], w, ev)
  {
    hide Arrived, Functional, Enabled, After, Invariant;
  }

  lemma {:induction false} PopsHead(s: System, c: nat)
    requires Invariant(s) && Enabled(s, ReceiveUp(c, true))
    ensures var s1 := After(s, ReceiveUp(c, true));
            && Proceeds(s, ReceiveUp(c, true), s1) && OffPath(s, s1, c) && Shaped(s1)
            && (!s1.aborted ==> s1.up[c] == s.up[c][1..])
  {
    var s1, p := After(s, ReceiveUp(c, true)), Parent(c);
    StepProceeds(s, ReceiveUp(c, true));
    if !s1.aborted { ReceiveUpMovesOn(s, c); }
    assert OnPath(c, c) && OnPath(p, c) by { PathAbove(c, c); }
    hide Invariant, Reduced, ReduceAborts, ToChildren, Parent, OnPath, Functional;
    assert Shaped(s1) && |s1.nodes| == |s.nodes|;
    assert s1.aborted ==> s1.nodes == s.nodes;
    hide After, Enabled;
  }

  lemma {:induction false} ClearsParent(s: System, c: nat)
    requires Invariant(s) && !s.aborted && 0 < c < |s.nodes|
    ensures var s1, p := After(s, Advance(Parent(c))), Parent(c);
            && Proceeds(s, Advance(p), s1) && OffPath(s, s1, c) && Shaped(s1)
            && (!s1.aborted ==> s1.up[c] == s.up[c] && s1.nodes[p].diffs.entries == map[])
  {
    var p := Parent(c);
    assert p < c;
    var s1 := After(s, Advance(p));
    StepProceeds(s, Advance(p));
    DiffsValid(s, p);
    if !s1.aborted { AdvanceStepEmpties(s, p); }
    assert OnPath(c, c) && OnPath(p, c) by { PathAbove(c, c); }
    hide Invariant, Advanced, AdvanceAborts, ToChildren, Parent, OnPath, Functional;
    assert Shaped(s1) && |s1.nodes| == |s.nodes|;
    assert s1.aborted ==> s1.nodes == s.nodes;
    hide After, Enabled;
  }

  lemma {:induction false} PopsEarlier(s: System, c: nat, i: nat)
    requires Invariant(s) && !s.aborted && 0 < c < |s.nodes| && 0 < i < |s.up[c]|
    ensures Enabled(s, ReceiveUp(c, true)) && OnPath(c, c)
    ensures var s1 := After(s, ReceiveUp(c, true));
            && Proceeds(s, ReceiveUp(c, true), s1) && OffPath(s, s1, c)
            && (!s1.aborted ==> c < |s1.nodes| == |s1.up| && i - 1 < |s1.up[c]| && s1.up[c][i - 1] == s.up[c][i])
  {
    PopsHead(s, c);
    hide After, Invariant, Parent, Functional;
  }

  /** What travels on a link can be made to arrive at the root: all that is ahead of it goes first. */
  lemma {:induction false} BringUp(s: System, c: nat, i: nat, ev: Event) returns (trace: seq<System>, steps: seq<Step>)
    requires Invariant(s) && !s.aborted && 0 < c < |s.nodes| && i < |s.up[c]| && Contains(s.up[c][i], ev)
    ensures Delivers(s, trace, steps, c, ev)
    decreases c, 1, i
  {
    hide After, Enabled, Invariant, Contains, Delivers, OnPath, OffPath;
    if i == 0 {
      trace, steps := BringFirst(s, c, ev);
      return;
    }
    PopsEarlier(s, c, i);
    var step, s1 := ReceiveUp(c, true), After(s, ReceiveUp(c, true));
    if s1.aborted {
      StopsAt(s, step, s1, c, ev);
      trace, steps := [s, s1], [step];
    } else {
      var rest, more := BringUp(s1, c, i - 1, ev);
      StepThenDelivers(s, step, s1, rest, more, c, c, ev);
      trace, steps := [s] + rest, [step] + more;
    }
  }

  /** The first message of a link arrives once the parent has sent on what it holds. */
  lemma {:induction false} BringFirst(s: System, c: nat, ev: Event) returns (trace: seq<System>, steps: seq<Step>)
    requires Invariant(s) && !s.aborted && 0 < c < |s.nodes| && |s.up[c]| > 0 && Contains(s.up[c][0], ev)
    ensures Delivers(s, trace, steps, c, ev)
    decreases c, 0, 1
  {
    assert OnPath(c, c);
    ClearsParent(s, c);
    hide After, Enabled, Invariant, Contains, Delivers, Parent, OnPath, OffPath, Functional;
    var step, s1 := Advance(Parent(c)), After(s, Advance(Parent(c)));
    if s1.aborted {
      StopsAt(s, step, s1, c, ev);
      trace, steps := [s, s1], [step];
    } else {
      var rest, more := BringHead(s1, c, ev);
      StepThenDelivers(s, step, s1, rest, more, c, c, ev);
      trace, steps := [s] + rest, [step] + more;
    }
  }

  lemma {:induction false} BringHead(s: System, c: nat, ev: Event) returns (trace: seq<System>, steps: seq<Step>)
    requires Invariant(s) && !s.aborted && 0 < c < |s.nodes| && |s.up[c]| > 0 && Contains(s.up[c][0], ev)
    requires s.nodes[Parent(c)].diffs.entries == map[]
    ensures Delivers(s, trace, steps, c, ev)
    decreases c, 0, 0
  {
    var p, step, s1 := Parent(c), ReceiveUp(c, true), After(s, ReceiveUp(c, true));
    PopsHead(s, c);
    LinkValid(s, c);
    assert ev.epoch >= 0 && p < c;
    assert OnPath(p, c) by { PathAbove(c, c); }
    if s1.aborted {
      StopsAt(s, step, s1, c, ev);
      trace, steps := [s, s1], [step];
    } else if p == 0 {
      if ev.jobId in s.nodes[0].states.entries { RootHasNoZero(s, ev.jobId); }
      ArrivesAtRoot(s, c, ev);
      hide Invariant, Contains, Delivers, Parent;
      StopsAt(s, step, s1, c, ev);
      trace, steps := [s, s1], [step];
    } else {
      ArrivesAtParent(s, c, ev);
      hide Invariant, Contains, Delivers, Parent, OnPath;
      var rest, more := BringUp(s1, p, |s1.up[p]| - 1, ev);
      StepThenDelivers(s, step, s1, rest, more, p, c, ev);
      trace, steps := [s] + rest, [step] + more;
    }
  }

  lemma {:induction false} AdvanceSends(s: System, w: nat, ev: Event)
    requires Shaped(s) && 0 < w < |s.nodes| && Contains(s.nodes[w].diffs, ev) && ev.epoch >= 0
    ensures var s' := AdvanceStep(s, w);
            && |s'.up| == |s.up| && |s'.up[w]| > 0 && Contains(s'.up[w][|s'.up[w]| - 1], ev)
            && s'.aborted == s.aborted && |s'.nodes| == |s.nodes|
            && (forall v :: 0 <= v < |s.nodes| && v != w ==> s'.nodes[v] == s.nodes[v])
  {
    CollectedContains(Cleared(s.nodes[w]), s.nodes[w].diffs, ev);
    assert s.nodes[w].diffs.entries != map[];
    hide Contains, Collected;
  }

  lemma {:induction false} RootAdvances(s: System, ev: Event)
    requires Shaped(s) && Contains(s.nodes[0].diffs, ev) && ev.epoch >= 0 && !AdvanceStep(s, 0).aborted
    requires ev.jobId in s.nodes[0].states.entries ==> !OldZero(s.nodes[0].states.entries[ev.jobId])
    ensures Arrived(AdvanceStep(s, 0), ev)
  {
    var node := s.nodes[0];
    var n := Stamped(Collected(Cleared(node), node.diffs));
    assert node.diffs.entries != map[];
    CollectedContains(Cleared(node), node.diffs, ev);
    assert Contains(n.diffs, ev);
    if !OldZero(ev) { Digesting(n, n.diffs, ev); }
    hide Contains, Collected, Digested, DigestAborts, OldZero, ToChildren;
  }

  /** What waits in a worker's diffs can be made to arrive at the root. */
  lemma {:induction false} BringOut(s: System, w: nat, ev: Event) returns (trace: seq<System>, steps: seq<Step>)
    requires Invariant(s) && !s.aborted && w < |s.nodes| && Contains(s.nodes[w].diffs, ev)
    ensures Delivers(s, trace, steps, w, ev)
  {
    var step, s1 := Advance(w), After(s, Advance(w));
    StepProceeds(s, step);
    DiffsValid(s, w);
    assert ev.epoch >= 0 && OnPath(w, w);
    if w == 0 && ev.jobId in s.nodes[0].states.entries { RootHasNoZero(s, ev.jobId); }
    if w == 0 {
      if !s1.aborted {
        AdvanceStepEmpties(s, 0);
        RootAdvances(s, ev);
      }
      hide Invariant, Contains, Delivers, OnPath, Arrived, Advanced, AdvanceAborts, ToChildren;
      assert OffPath(s, s1, w);
      StopsAt(s, step, s1, w, ev);
      trace, steps := [s, s1], [step];
    } else {
      AdvanceSends(s, w, ev);
      hide Invariant, Contains, Delivers, OnPath, Advanced, AdvanceAborts;
      assert OffPath(s, s1, w);
      hide After, Enabled, OffPath;
      var rest, more := BringUp(s1, w, |s1.up[w]| - 1, ev);
      StepThenDelivers(s, step, s1, rest, more, w, w, ev);
      trace, steps := [s] + rest, [step] + more;
    }
  }

  /** Whatever is on its way can be made to arrive without a push. */
  lemma {:induction false} WaitingArrives(s: System, ev: Event) returns (trace: seq<System>, steps: seq<Step>)
    requires Invariant(s) && !s.aborted && Waits(s, ev)
    ensures Continues(s, trace, steps) && forall i :: 0 <= i < |steps| ==> !steps[i].Push?
    ensures if trace[|steps|].aborted then !Functional(s.record.issued) else Arrived(trace[|steps|], ev)
  {
    if w: nat :| w < |s.nodes| && Contains(s.nodes[w].diffs, ev) {
      hide Invariant, Contains, OnPath, Arrived, Functional;
      trace, steps := BringOut(s, w, ev);
    } else {
      var c: nat :| 0 < c < |s.up| && Carries(s.up[c], ev);
      var i: nat :| i < |s.up[c]| && Contains(s.up[c][i], ev);
      assert Shaped(s);
      hide Invariant, Contains, OnPath, Arrived, Functional;
      trace, steps := BringUp(s, c, i, ev);
    }
  }

  /**
   In every system that can be reached, a job can come back without another push exactly if the root holds it or an
   event of it that is not an end is on its way.
   */
  lemma {:induction false} ComesBackIff(n: nat, trace: seq<System>, steps: seq<Step>, k: nat, job: int)
    requires Run(n, trace, steps) && k < |trace| && Functional(trace[k].record.issued)
    ensures ComesBack(trace[k], job) <==> RootHolds(trace[k], job) || LiveWaits(trace[k], job)
  {
    var s := trace[k];
    NoAbort(n, trace, steps, k);
    RunKeepsInvariant(n, trace, steps, k);
    hide Run, Invariant, Functional, Waits;
    if ComesBack(s, job) {
      var after, more :| Continues(s, after, more) && Silent(more, job) && RootHolds(after[|more|], job);
      hide Continues, Silent;
      NothingComes(s, after, more, job);
    }
    if RootHolds(s, job) {
      var none: seq<Step> := [];
      assert Continues(s, [s], none) && Silent(none, job) && RootHolds([s][|none|], job);
    } else if LiveWaits(s, job) {
      var ev :| Waits(s, ev) && ev.jobId == job && !OldZero(ev);
      var after, more := WaitingArrives(s, ev);
      assert Silent(more, job) && RootHolds(after[|more|], job);
    }
  }

  /** After the end of a job whose events came in order, nothing brings the job back but another push. */
  lemma {:induction false} EndedForGood(n: nat, trace: seq<System>, steps: seq<Step>, j: nat, k: nat, w: nat,
      topic: Topic, last: nat, p: nat)
    requires Run(n, trace, steps) && EndBroadcast(trace, steps, j, k, w, topic, last, p)
    requires Functional(trace[k].record.issued)
    ensures !ComesBack(trace[k], topic.job)
  {
    var s := trace[k];
    RunKeepsInvariant(n, trace, steps, k);
    assert s.nodes[0].balancingEpoch == |s.record.broadcasts|;
    EndIsFinal(n, trace, steps, j, k, w, topic, last, p);
    ComesBackIff(n, trace, steps, k, topic.job);
    hide Run, Invariant, Waits, StartsAfresh, OneIssuer, ComesBack, Functional;
  }

  // ----- such systems are reached ----------------------------------------------------------------------

  lemma {:induction false} Then(s: System, a: seq<System>, x: seq<Step>, b: seq<System>, y: seq<Step>)
    requires Continues(s, a, x) && Continues(a[|x|], b, y)
    ensures Continues(s, a[..|x|] + b, x + y) && (a[..|x|] + b)[|x| + |y|] == b[|y|]
    ensures forall i :: 0 <= i <= |x| ==> (a[..|x|] + b)[i] == a[i]
  {
    hide After, Enabled;
  }

  /** An event stays with the worker it is pushed at until it is time. */
  lemma {:induction false} PushWaits(s: System, w: nat, ev: Event)
    requires Shaped(s) && !s.aborted && w < |s.nodes| && ev.epoch >= 0
    requires ev.jobId in s.nodes[w].diffs.entries ==> s.nodes[w].diffs.entries[ev.jobId].epoch < ev.epoch
    ensures Enabled(s, Push(w, ev, false)) && After(s, Push(w, ev, false)) == WithPushed(s, w, ev)
    ensures Contains(WithPushed(s, w, ev).nodes[w].diffs, ev)
  {
  }

  /** The root has digested the end and does not hold the job. */
  ghost predicate Over(s: System, end: Event) {
    && Shaped(s) && !s.aborted && Arrived(s, end) && s.nodes[0].balancingEpoch == |s.record.broadcasts|
    && !RootHolds(s, end.jobId)
  }

  lemma {:induction false} LastIsEnd(h: seq<EventState>, issued: set<Event>, end: Event)
    requires AllKnown(h, issued) && |h| > 0 && Contains(h[|h| - 1], end) && OldZero(end)
    requires forall ev :: ev in issued && ev.jobId == end.jobId ==> Precedes(ev, end)
    ensures EndsAt(h, |h| - 1, end)
  {
    hide OldZero, Precedes;
    forall i | 0 <= i < |h|
      ensures h[i].Valid() && (end.jobId in h[i].entries ==> Precedes(h[i].entries[end.jobId], end))
    {
      assert Known(h[i], issued);
    }
  }

  lemma {:induction false} EndArrived(s: System, end: Event)
    requires Invariant(s) && !s.aborted && Arrived(s, end) && OldZero(end)
    requires forall ev :: ev in s.record.issued && ev.jobId == end.jobId ==> Precedes(ev, end)
    ensures Over(s, end)
  {
    var h := s.record.broadcasts;
    assert Replicated(s) && Shaped(s) && s.nodes[0].balancingEpoch == |h| && AllKnown(h, s.record.issued);
    hide Invariant, Replicated, Contained, NothingLost, OldZero;
    LastIsEnd(h, s.record.issued, end);
    hide EndsAt;
    GoneAt(s, |h| - 1, end, 0);
  }

  lemma {:induction false} ContinuesKeeps(s: System, trace: seq<System>, steps: seq<Step>)
    requires Invariant(s) && Continues(s, trace, steps) && !trace[|steps|].aborted
    ensures Invariant(trace[|steps|])
    decreases |steps|
  {
    hide Invariant, Enabled, After;
    if |steps| > 0 {
      StepKeepsInvariant(s, steps[0]);
      if |steps| > 1 { EnabledMeansRunning(trace[1], steps[1]); }
      ContinuesKeeps(trace[1], trace[1..], steps[1..]);
    }
  }

  /** Two pushes: an event at one worker, the end at another. */
  lemma {:induction false} TwoPushes(n: nat, u: nat, w: nat, ev: Event, end: Event) returns (s1: System, s2: System)
    requires u < n && w < n && u != w && ev.epoch >= 0 && end.epoch >= 0
    ensures Continues(Initial(n), [Initial(n), s1, s2], [Push(u, ev, false), Push(w, end, false)])
    ensures Invariant(s2) && !s2.aborted && |s2.nodes| == n && s2.record.issued == {ev, end}
    ensures Contains(s2.nodes[u].diffs, ev) && Contains(s2.nodes[w].diffs, end)
  {
    var s0 := Initial(n);
    InitialInvariant(n);
    PushWaits(s0, u, ev);
    PushedInvariant(s0, u, ev);
    s1 := WithPushed(s0, u, ev);
    PushWaits(s1, w, end);
    PushedInvariant(s1, w, end);
    s2 := WithPushed(s1, w, end);
    hide Invariant, Contains, PushStep;
  }

  /**
   For any number of workers, an event of a worker that is not on the path from the announcing worker to the root
   can be late: the end is digested, the job is gone, and then it is held again.
   */
  lemma {:induction false} LateEventRevives(n: nat, u: nat, w: nat, ev: Event, end: Event)
      returns (trace: seq<System>, steps: seq<Step>, k: nat)
    requires u < n && w < n && !OnPath(u, w)
    requires ev.jobId == end.jobId && 0 <= ev.epoch < end.epoch && OldZero(end) && !OldZero(ev)
    ensures Run(n, trace, steps) && 2 <= k <= |steps|
    ensures steps[..2] == [Push(u, ev, false), Push(w, end, false)] && forall i :: 2 <= i < |steps| ==> !steps[i].Push?
    ensures Over(trace[k], end) && RootHolds(trace[|steps|], end.jobId)
  {
    var s0 := Initial(n);
    var s1, s2 := TwoPushes(n, u, w, ev, end);
    var a, x := [s0, s1, s2], [Push(u, ev, false), Push(w, end, false)];
    hide Invariant, Contains, OnPath, OldZero, Over, RootHolds, Initial, Enabled, After;
    var b, y, c, z := EndThenLate(s2, u, w, ev, end);
    Joint(s0, a, x, s2, b, y, c, z);
    trace, steps, k := a[..2] + (b[..|y|] + c), x + (y + z), 2 + |y|;
    assert steps[..2] == x;
  }

  lemma {:induction false} Joint(s0: System, a: seq<System>, x: seq<Step>, s2: System, b: seq<System>, y: seq<Step>,
      c: seq<System>, z: seq<Step>)
    requires Continues(s0, a, x) && a[|x|] == s2 && Continues(s2, b, y) && Continues(b[|y|], c, z)
    ensures var trace, steps := a[..|x|] + (b[..|y|] + c), x + (y + z);
            Continues(s0, trace, steps) && trace[|x| + |y|] == b[|y|] && trace[|steps|] == c[|z|]
  {
    Then(s2, b, y, c, z);
    Then(s0, a, x, b[..|y|] + c, y + z);
    hide Continues;
    assert c[0] == b[|y|] by { ContinuesStarts(b[|y|], c, z); }
  }

  lemma {:induction false} ContinuesStarts(s: System, trace: seq<System>, steps: seq<Step>)
    requires Continues(s, trace, steps)
    ensures |trace| == |steps| + 1 && trace[0] == s
  {
  }

  /** The end arrives first, the other event afterwards. */
  lemma {:induction false} EndThenLate(s: System, u: nat, w: nat, ev: Event, end: Event)
      returns (b: seq<System>, y: seq<Step>, c: seq<System>, z: seq<Step>)
    requires Invariant(s) && !s.aborted && u < |s.nodes| && w < |s.nodes| && !OnPath(u, w)
    requires s.record.issued == {ev, end} && Contains(s.nodes[u].diffs, ev) && Contains(s.nodes[w].diffs, end)
    requires ev.jobId == end.jobId && 0 <= ev.epoch < end.epoch && OldZero(end) && !OldZero(ev)
    ensures Continues(s, b, y) && Continues(b[|y|], c, z) && Over(b[|y|], end) && RootHolds(c[|z|], end.jobId)
    ensures (forall i :: 0 <= i < |y| ==> !y[i].Push?) && (forall i :: 0 <= i < |z| ==> !z[i].Push?)
  {
    assert Functional(s.record.issued);
    hide Invariant, Functional, Contains, OnPath, OldZero, Continues, RootHolds, Over, OffPath;
    b, y := EndFirst(s, u, w, ev, end);
    c, z := BringOut(b[|y|], u, ev);
  }

  lemma {:induction false} EndFirst(s: System, u: nat, w: nat, ev: Event, end: Event)
      returns (b: seq<System>, y: seq<Step>)
    requires Invariant(s) && !s.aborted && u < |s.nodes| && w < |s.nodes| && !OnPath(u, w)
    requires s.record.issued == {ev, end} && Functional(s.record.issued)
    requires Contains(s.nodes[u].diffs, ev) && Contains(s.nodes[w].diffs, end)
    requires ev.jobId == end.jobId && 0 <= ev.epoch < end.epoch && OldZero(end)
    ensures Continues(s, b, y) && Over(b[|y|], end) && forall i :: 0 <= i < |y| ==> !y[i].Push?
    ensures var s' := b[|y|];
            && Invariant(s') && !s'.aborted && s'.record.issued == s.record.issued
            && |s'.nodes| == |s.nodes| && s'.nodes[u] == s.nodes[u]
  {
    hide Invariant, Functional, Contains, OnPath, OldZero, Continues, RootHolds, Over, Arrived;
    b, y := BringOut(s, w, end);
    ContinuesStarts(s, b, y);
    ContinuesKeeps(s, b, y);
    EndArrived(b[|y|], end);
  }
}
