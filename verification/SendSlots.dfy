/**
 Bounded send slots of the message queue: handles are sent in the order in which they were posted, at most
 sixteen at a time.
 */
module SendSlots {
  import opened Basics

  const MAX_CONCURRENT_SENDS: nat := 16

  /** What is handed to the network at once: a batch, which is the whole message if there is only one, or the mark of
      a cancelled message. */
  datatype Part = Batch(number: nat) | Cancellation

  /** A send handle as the queue sees it: batches counted as sent, whether a request is under way, and what it has
      handed to the network so far. */
  datatype Handle = Handle(id: int, total: nat, sent: nat, cancelled: bool, initiated: bool, handed: seq<Part>) {
    ghost predicate Valid() {
      total >= 1 && sent <= total && (initiated <==> sent > 0)
    }

    /** As many batches were handed over as are counted, or the message was ended before. */
    ghost predicate Recorded() { InOrder(handed, sent) || Ended() }

    /** A cancelled message: a part of its batches, in order, and then the mark. */
    ghost predicate Ended() {
      && cancelled && total > 1 && sent == total && 0 < |handed| <= total
      && InOrder(handed[..|handed| - 1], |handed| - 1) && handed[|handed| - 1] == Cancellation
    }
  }

  /** The first batches, each once and in order. */
  ghost predicate InOrder(parts: seq<Part>, count: nat) {
    |parts| == count && forall i :: 0 <= i < count ==> parts[i] == Batch(i)
  }

  function NextPart(h: Handle): Part { if h.total > 1 && h.cancelled then Cancellation else Batch(h.sent) }

  /** Hands the next batch to the network; a cancelled batched message is finished at once. */
  function SendNext(h: Handle): (r: Handle)
    requires h.Valid() && h.sent < h.total
    ensures r.Valid() && r.initiated && r.id == h.id && r.total == h.total && r.cancelled == h.cancelled
  {
    var h := h.(handed := h.handed + [NextPart(h)]);
    if h.total == 1 then h.(sent := 1, initiated := true)
    else if h.cancelled then h.(sent := h.total, initiated := true)
    else h.(sent := h.sent + 1, initiated := true)
  }

  lemma {:induction false} SentIsRecorded(h: Handle)
    requires h.Valid() && h.sent < h.total && h.Recorded()
    ensures SendNext(h).Recorded()
  {
    var r := SendNext(h);
    assert r.handed[..|h.handed|] == h.handed && |r.handed| == |h.handed| + 1;
    if h.total > 1 && h.cancelled {
      assert r.handed[..|r.handed| - 1] == h.handed;
      assert r.Ended();
    } else {
      assert InOrder(r.handed, r.sent);
    }
  }

  /** A handle whose current request is done leaves the queue unless another batch follows. */
  predicate Leaves(h: Handle, done: set<int>) {
    h.initiated && h.id in done && (h.total == 1 || h.sent == h.total)
  }

  function Tested(h: Handle, done: set<int>): (r: Handle)
    requires h.Valid() && !Leaves(h, done)
    ensures r.Valid() && r.initiated == h.initiated && SameMessage(r, h)
  {
    if h.initiated && h.id in done then SendNext(h) else h
  }

  ghost predicate SameMessage(a: Handle, b: Handle) { a.id == b.id && a.total == b.total && a.cancelled == b.cancelled }

  ghost predicate AllValid(queue: seq<Handle>) {
    forall i :: 0 <= i < |queue| ==> queue[i].Valid()
  }

  /** The handles left after every request was tested once. */
  ghost function Surviving(queue: seq<Handle>, done: set<int>): (r: seq<Handle>)
    requires AllValid(queue)
    ensures |r| <= |queue| && AllValid(r)
  {
    if |queue| == 0 then []
    else
      var h, rest := queue[|queue| - 1], Surviving(queue[..|queue| - 1], done);
      if Leaves(h, done) then rest else rest + [Tested(h, done)]
  }

  /** The handles that leave. */
  ghost function Finishing(queue: seq<Handle>, done: set<int>): seq<Handle> {
    if |queue| == 0 then []
    else
      var h, rest := queue[|queue| - 1], Finishing(queue[..|queue| - 1], done);
      if Leaves(h, done) then rest + [h] else rest
  }

  ghost function Ids(queue: seq<Handle>): seq<int> {
    seq(|queue|, i requires 0 <= i < |queue| => queue[i].id)
  }

  /** The first k handles are under way; those that were waiting have been started. */
  ghost function Started(queue: seq<Handle>, k: nat): seq<Handle>
    requires AllValid(queue) && k <= |queue|
  {
    seq(|queue|, i requires 0 <= i < |queue| => if i < k && !queue[i].initiated then SendNext(queue[i]) else queue[i])
  }

  /** The queue with its history: identifiers posted and first handed to the network, and completed handles. */
  datatype State = State(queue: seq<Handle>, busy: int, nextId: int, posted: seq<int>, started: seq<int>,
      completed: seq<Handle>)

  const Initial := State([], 0, 1, [], [], [])

  ghost predicate StrictlyIncreasing(s: seq<int>) {
    forall i, j :: 0 <= i < j < |s| ==> s[i] < s[j]
  }

  /** The first `busy` handles are under way and the others wait. */
  ghost predicate Prefix(queue: seq<Handle>, busy: int) {
    0 <= busy <= |queue| && forall i :: 0 <= i < |queue| ==> (queue[i].initiated <==> i < busy)
  }

  ghost predicate Slots(s: State) {
    && AllValid(s.queue) && Prefix(s.queue, s.busy) && s.busy <= MAX_CONCURRENT_SENDS
    && (s.busy < |s.queue| ==> s.busy == MAX_CONCURRENT_SENDS)
  }

  ghost predicate Invariant(s: State) {
    && Slots(s)
    && s.posted == s.started + Ids(s.queue[s.busy..])
    && StrictlyIncreasing(s.posted) && (forall i :: 0 <= i < |s.posted| ==> s.posted[i] < s.nextId)
    && multiset(s.posted) == multiset(Ids(s.completed)) + multiset(Ids(s.queue))
    && (forall i :: 0 <= i < |s.completed| ==> s.completed[i].Valid() && s.completed[i].sent == s.completed[i].total)
  }

  // ----- operations on states ---------------------------------------------------------------

  ghost function Post(s: State, total: nat): State
    requires total >= 1
  {
    var h := Handle(s.nextId, total, 0, false, false, []);
    var now := s.busy < MAX_CONCURRENT_SENDS;
    State(s.queue + [if now then SendNext(h) else h], if now then s.busy + 1 else s.busy, s.nextId + 1,
          s.posted + [h.id], if now then s.started + [h.id] else s.started, s.completed)
  }

  /** Position of the first handle of this identifier, or the end of the queue. */
  ghost function Position(queue: seq<Handle>, id: int, start: nat): (k: nat)
    requires start <= |queue|
    ensures k <= |queue|
    decreases |queue| - start
  {
    if start == |queue| || queue[start].id == id then start else Position(queue, id, start + 1)
  }

  ghost function WithCancelled(queue: seq<Handle>, id: int): seq<Handle> {
    var k := Position(queue, id, 0);
    if k < |queue| then queue[k := queue[k].(cancelled := true)] else queue
  }

  ghost function Processed(s: State, done: set<int>): State
    requires Invariant(s)
  {
    var rest, gone := Surviving(s.queue, done), Finishing(s.queue, done);
    var k := Min(MAX_CONCURRENT_SENDS, |rest|);
    var busy := s.busy - |gone|;
    State(Started(rest, k), k, s.nextId, s.posted,
          if busy <= k then s.started + Ids(rest)[if busy < 0 then 0 else busy..k] else s.started,
          s.completed + gone)
  }

  // ----- testing ---------------------------------------------------------------------------------

  lemma {:induction false} TestOneMore(queue: seq<Handle>, j: nat, done: set<int>)
    requires AllValid(queue) && j < |queue|
    ensures AllValid(queue[..j + 1]) && AllValid(queue[..j]) && queue[j].Valid()
    ensures Surviving(queue[..j + 1], done)
         == Surviving(queue[..j], done) + if Leaves(queue[j], done) then [] else [Tested(queue[j], done)]
    ensures Finishing(queue[..j + 1], done)
         == Finishing(queue[..j], done) + if Leaves(queue[j], done) then [queue[j]] else []
  {
    assert queue[..j + 1][..j] == queue[..j];
  }

  /** Handles that are under way stay so or leave. */
  lemma {:induction false} TestBusy(queue: seq<Handle>, j: nat, done: set<int>)
    requires AllValid(queue) && j <= |queue| && forall i :: 0 <= i < j ==> queue[i].initiated
    ensures AllValid(queue[..j])
    ensures |Surviving(queue[..j], done)| + |Finishing(queue[..j], done)| == j
    ensures AllInitiated(Surviving(queue[..j], done))
  {
    if j > 0 {
      TestBusy(queue, j - 1, done);
      TestOneMore(queue, j - 1, done);
      hide Surviving, Finishing;
    }
  }

  ghost predicate AllInitiated(queue: seq<Handle>) {
    forall i :: 0 <= i < |queue| ==> queue[i].initiated
  }

  /** A handle stays or leaves, and keeps its identifier. */
  lemma {:induction false} TestConserves(queue: seq<Handle>, j: nat, done: set<int>)
    requires AllValid(queue) && j <= |queue|
    ensures AllValid(queue[..j])
    ensures multiset(Ids(queue[..j]))
         == multiset(Ids(Surviving(queue[..j], done))) + multiset(Ids(Finishing(queue[..j], done)))
  {
    hide Surviving, Finishing, Ids, Leaves, Tested, SendNext;
    if j == 0 {
      NoIds(queue[..0], done);
    } else {
      TestConserves(queue, j - 1, done);
      TestOneMore(queue, j - 1, done);
      assert queue[..j - 1] + [queue[j - 1]] == queue[..j];
      hide AllValid;
      OneConserved(queue[..j - 1], Surviving(queue[..j - 1], done), Finishing(queue[..j - 1], done), queue[j - 1],
          done);
    }
  }

  lemma {:induction false} NoIds(queue: seq<Handle>, done: set<int>)
    requires queue == []
    ensures AllValid(queue) && Ids(queue) == []
    ensures Ids(Surviving(queue, done)) == [] && Ids(Finishing(queue, done)) == []
  {
  }

  lemma {:induction false} OneConserved(all: seq<Handle>, rest: seq<Handle>, gone: seq<Handle>, h: Handle,
      done: set<int>)
    requires multiset(Ids(all)) == multiset(Ids(rest)) + multiset(Ids(gone)) && h.Valid()
    ensures multiset(Ids(all + [h]))
         == multiset(Ids(rest + if Leaves(h, done) then [] else [Tested(h, done)]))
            + multiset(Ids(gone + if Leaves(h, done) then [h] else []))
  {
    IdsAppend(all, h);
    hide Ids;
    if !Leaves(h, done) {
      IdsAppend(rest, Tested(h, done));
      assert gone + [] == gone;
    } else {
      IdsAppend(gone, h);
      assert rest + [] == rest;
    }
  }

  lemma {:induction false} IdsAppend(queue: seq<Handle>, h: Handle)
    ensures Ids(queue + [h]) == Ids(queue) + [h.id]
  {
  }

  lemma {:induction false} IdsConcat(a: seq<Handle>, b: seq<Handle>)
    ensures Ids(a + b) == Ids(a) + Ids(b)
  {
  }

  /** A handle leaves when everything was handed to the network. */
  lemma {:induction false} FinishedAre(queue: seq<Handle>, j: nat, done: set<int>)
    requires AllValid(queue) && j <= |queue|
    ensures var gone := Finishing(queue[..j], done);
            forall i :: 0 <= i < |gone| ==> gone[i].Valid() && gone[i].sent == gone[i].total
  {
    if j > 0 {
      FinishedAre(queue, j - 1, done);
      TestOneMore(queue, j - 1, done);
    }
  }

  lemma {:induction false} WaitingStays(h: Handle, done: set<int>)
    requires h.Valid() && !h.initiated
    ensures !Leaves(h, done) && Tested(h, done) == h
  {
  }

  /** Waiting handles are not touched by the tests. */
  lemma {:induction false} TestWaiting(queue: seq<Handle>, busy: nat, j: nat, done: set<int>)
    requires AllValid(queue) && Prefix(queue, busy) && busy <= j <= |queue|
    ensures AllValid(queue[..j]) && AllValid(queue[..busy])
    ensures Surviving(queue[..j], done) == Surviving(queue[..busy], done) + queue[busy..j]
    ensures Finishing(queue[..j], done) == Finishing(queue[..busy], done)
    decreases j
  {
    if j > busy {
      TestWaiting(queue, busy, j - 1, done);
      TestOneMore(queue, j - 1, done);
      WaitingStays(queue[j - 1], done);
      hide Surviving, Finishing, Leaves, Tested, SendNext;
      assert queue[busy..j] == queue[busy..j - 1] + [queue[j - 1]];
    } else {
      assert queue[busy..j] == [];
    }
  }

  lemma {:induction false} TestAll(queue: seq<Handle>, busy: nat, done: set<int>)
    requires AllValid(queue) && Prefix(queue, busy)
    ensures var rest, gone := Surviving(queue, done), Finishing(queue, done);
            && |gone| <= busy && Prefix(rest, busy - |gone|)
            && |rest| == |queue| - |gone|
            && rest[busy - |gone|..] == queue[busy..]
  {
    TestBusy(queue, busy, done);
    TestWaiting(queue, busy, |queue|, done);
    assert queue[..|queue|] == queue;
    hide Surviving, Finishing;
    var front := Surviving(queue[..busy], done);
    assert Surviving(queue, done) == front + queue[busy..];
  }

  // ----- every operation keeps the invariant ---------------------------------------------------------

  lemma {:induction false} PostKeeps(s: State, total: nat)
    requires Invariant(s) && total >= 1
    ensures Invariant(Post(s, total))
  {
    PostKeepsSlots(s, total);
    var s' := Post(s, total);
    var h := s'.queue[|s.queue|];
    IdsAppend(s.queue, h);
    if s.busy < MAX_CONCURRENT_SENDS {
      assert s.queue[s.busy..] == [] && s'.queue[s'.busy..] == [];
    } else {
      assert s'.queue[s.busy..] == s.queue[s.busy..] + [h];
      IdsAppend(s.queue[s.busy..], h);
    }
    hide Slots;
  }

  lemma {:induction false} PostKeepsSlots(s: State, total: nat)
    requires Slots(s) && total >= 1
    ensures Slots(Post(s, total))
  {
  }

  lemma {:induction false} CancelKeeps(s: State, id: int)
    requires Invariant(s)
    ensures Invariant(s.(queue := WithCancelled(s.queue, id)))
  {
    hide Position;
    var q := WithCancelled(s.queue, id);
    assert Ids(q) == Ids(s.queue);
    assert Ids(q[s.busy..]) == Ids(s.queue[s.busy..]);
  }

  lemma {:induction false} ProcessedKeeps(s: State, done: set<int>)
    requires Invariant(s)
    ensures Invariant(Processed(s, done))
  {
    TestAll(s.queue, s.busy, done);
    TestConserves(s.queue, |s.queue|, done);
    FinishedAre(s.queue, |s.queue|, done);
    assert s.queue[..|s.queue|] == s.queue;
    hide Surviving, Finishing, Leaves, Tested, SendNext;
    var rest, gone := Surviving(s.queue, done), Finishing(s.queue, done);
    StartedSlots(rest, s.busy - |gone|);
    hide Started, Ids, Prefix, AllValid, StrictlyIncreasing;
    var k, busy := Min(MAX_CONCURRENT_SENDS, |rest|), s.busy - |gone|;
    Restarted(s, rest, gone, Started(rest, k), Ids(rest)[busy..k]);
  }

  lemma {:induction false} Restarted(s: State, rest: seq<Handle>, gone: seq<Handle>, queue: seq<Handle>,
      newly: seq<int>)
    requires Invariant(s) && AllValid(queue) && |queue| == |rest| && Ids(queue) == Ids(rest)
    requires var k := Min(MAX_CONCURRENT_SENDS, |queue|);
             Prefix(queue, k) && Ids(s.queue[s.busy..]) == newly + Ids(queue[k..])
    requires multiset(Ids(s.queue)) == multiset(Ids(rest)) + multiset(Ids(gone))
    requires forall i :: 0 <= i < |gone| ==> gone[i].Valid() && gone[i].sent == gone[i].total
    ensures var k := Min(MAX_CONCURRENT_SENDS, |queue|);
            Invariant(State(queue, k, s.nextId, s.posted, s.started + newly, s.completed + gone))
  {
    IdsConcat(s.completed, gone);
    hide Ids, Prefix, AllValid, StrictlyIncreasing;
  }

  /** Starting waiting handles from the front fills the slots and keeps the order. */
  lemma {:induction false} StartedSlots(rest: seq<Handle>, busy: nat)
    requires AllValid(rest) && Prefix(rest, busy) && busy <= MAX_CONCURRENT_SENDS
    ensures var k := Min(MAX_CONCURRENT_SENDS, |rest|);
            && busy <= k <= |Ids(rest)| && |Started(rest, k)| == |rest|
            && AllValid(Started(rest, k)) && Prefix(Started(rest, k), k) && Ids(Started(rest, k)) == Ids(rest)
            && Ids(rest[busy..]) == Ids(rest)[busy..k] + Ids(Started(rest, k)[k..])
  {
    var k := Min(MAX_CONCURRENT_SENDS, |rest|);
    var q := Started(rest, k);
    assert Ids(q) == Ids(rest);
    assert q[k..] == rest[k..];
    assert Ids(rest[k..]) == Ids(rest)[k..];
    assert Ids(rest[busy..]) == Ids(rest)[busy..];
  }

  // ----- every run -----------------------------------------------------------------------------------

  datatype Step = Send(total: nat) | SendToSelf | Cancel(id: int) | Process(done: set<int>)

  ghost function After(s: State, step: Step): State
    requires Invariant(s) && (step.Send? ==> step.total >= 1)
  {
    match step
    case Send(total) => Post(s, total)
    case SendToSelf => s.(nextId := s.nextId + 1)
    case Cancel(id) => s.(queue := WithCancelled(s.queue, id))
    case Process(done) => Processed(s, done)
  }

  ghost predicate Run(trace: seq<State>, steps: seq<Step>) {
    && |trace| == |steps| + 1 && trace[0] == Initial
    && forall i :: 0 <= i < |steps| ==>
         (steps[i].Send? ==> steps[i].total >= 1) && (Invariant(trace[i]) ==> trace[i + 1] == After(trace[i], steps[i]))
  }

  lemma {:induction false} RunKeepsInvariant(trace: seq<State>, steps: seq<Step>, n: nat)
    requires Run(trace, steps) && n < |trace|
    ensures Invariant(trace[n])
  {
    if n > 0 {
      RunKeepsInvariant(trace, steps, n - 1);
      var s, step := trace[n - 1], steps[n - 1];
      assert trace[n] == After(s, step);
      hide Post, Processed, WithCancelled;
      match step
      case Send(total) => PostKeeps(s, total);
      case SendToSelf =>
      case Cancel(id) => CancelKeeps(s, id);
      case Process(done) => ProcessedKeeps(s, done);
    } else {
      assert Ids(Initial.queue) == [];
    }
  }

  /**
   The counter is the number of handles under way; they come first in the queue, are at most sixteen, and a
   handle waits only when all slots are taken. Messages are first handed to the network in the order of
   posting, and every posted message is either completed once or still in the queue.
   */
  lemma {:induction false} SlotsOfEveryRun(trace: seq<State>, steps: seq<Step>, n: nat)
    requires Run(trace, steps) && n < |trace|
    ensures var s := trace[n];
            && 0 <= s.busy <= 16 && CountInitiated(s.queue) == s.busy
            && (forall i, j :: 0 <= i < j < |s.queue| && s.queue[j].initiated ==> s.queue[i].initiated)
            && ((exists i :: 0 <= i < |s.queue| && !s.queue[i].initiated) ==> s.busy == 16)
            && s.started <= s.posted && StrictlyIncreasing(s.posted)
            && multiset(s.posted) == multiset(Ids(s.completed)) + multiset(Ids(s.queue))
  {
    RunKeepsInvariant(trace, steps, n);
    var s := trace[n];
    PrefixCount(s.queue, s.busy);
  }

  ghost function CountInitiated(queue: seq<Handle>): nat {
    if |queue| == 0 then 0 else CountInitiated(queue[..|queue| - 1]) + if queue[|queue| - 1].initiated then 1 else 0
  }

  lemma {:induction false} PrefixCount(queue: seq<Handle>, busy: nat)
    requires Prefix(queue, busy)
    ensures CountInitiated(queue) == busy
  {
    if |queue| > 0 { PrefixCount(queue[..|queue| - 1], if busy == |queue| then busy - 1 else busy); }
  }

  // ----- what becomes of one message ------------------------------------------------------------------

  /** The handle is queued or completed. */
  ghost predicate Has(s: State, h: Handle) { h in s.queue || h in s.completed }

  lemma {:induction false} TestedFate(queue: seq<Handle>, j: nat, done: set<int>, h: Handle)
    requires AllValid(queue) && j <= |queue| && h in queue[..j]
    ensures AllValid(queue[..j])
    ensures if Leaves(h, done) then h in Finishing(queue[..j], done)
            else h.Valid() && Tested(h, done) in Surviving(queue[..j], done)
  {
    TestOneMore(queue, j - 1, done);
    hide Surviving, Finishing, Leaves, Tested;
    if h != queue[j - 1] {
      assert h in queue[..j - 1];
      TestedFate(queue, j - 1, done, h);
    }
  }

  /** Processing keeps a handle's message: one under way whose request is done leaves if it is finished and hands over
      its next part otherwise; one whose request is not done stays as it is. */
  lemma {:induction false} ProcessedFate(s: State, done: set<int>, h: Handle) returns (r: Handle)
    requires Invariant(s) && h in s.queue
    ensures Has(Processed(s, done), r) && SameMessage(r, h) && (h.Recorded() ==> r.Recorded())
    ensures h.initiated && h.id in done && h.sent == h.total ==> r == h && r in Processed(s, done).completed
    ensures h.initiated && h.id in done && h.sent < h.total ==>
              && r in Processed(s, done).queue
              && r.handed == h.handed + [if h.cancelled then Cancellation else Batch(h.sent)]
    ensures h.initiated && h.id !in done ==> r == h && r in Processed(s, done).queue
  {
    assert s.queue[..|s.queue|] == s.queue;
    TestedFate(s.queue, |s.queue|, done, h);
    if Leaves(h, done) {
      r := h;
    } else {
      var rest, t := Surviving(s.queue, done), Tested(h, done);
      TestedIs(h, done);
      if h.Recorded() && t.sent < t.total && !t.initiated { SentIsRecorded(t); }
      var k := Min(MAX_CONCURRENT_SENDS, |rest|);
      hide Surviving, Finishing, Tested, Leaves;
      var i :| 0 <= i < |rest| && rest[i] == t;
      r := Started(rest, k)[i];
      assert r in Started(rest, k);
      hide SendNext;
    }
  }

  lemma {:induction false} TestedIs(h: Handle, done: set<int>)
    requires h.Valid() && !Leaves(h, done)
    ensures h.initiated && h.id in done ==>
              && h.sent < h.total
              && Tested(h, done).handed == h.handed + [if h.cancelled then Cancellation else Batch(h.sent)]
    ensures h.initiated && h.id !in done ==> Tested(h, done) == h
    ensures h.Recorded() ==> Tested(h, done).Recorded()
  {
    if h.Recorded() && h.initiated && h.id in done { SentIsRecorded(h); }
  }

  /** A handle that is the only one of its identifier is the one that is cancelled. */
  lemma {:induction false} CancelledFate(queue: seq<Handle>, id: int, h: Handle)
    requires h in queue && StrictlyOnce(queue)
    ensures h.id == id ==> h.(cancelled := true) in WithCancelled(queue, id)
    ensures h.id != id ==> h in WithCancelled(queue, id)
  {
    var k := Position(queue, id, 0);
    PositionIs(queue, id, 0);
    hide Position;
    var i :| 0 <= i < |queue| && queue[i] == h;
    var q := WithCancelled(queue, id);
    assert h.id == id ==> k == i;
    assert |q| == |queue| && q[i] in q;
  }

  ghost predicate StrictlyOnce(queue: seq<Handle>) {
    forall i, j :: 0 <= i < j < |queue| ==> queue[i].id != queue[j].id
  }

  lemma {:induction false} PositionIs(queue: seq<Handle>, id: int, start: nat)
    requires start <= |queue| && forall i :: 0 <= i < start ==> queue[i].id != id
    ensures var k := Position(queue, id, start);
            (k < |queue| ==> queue[k].id == id) && forall i :: 0 <= i < k ==> queue[i].id != id
    decreases |queue| - start
  {
    if start < |queue| && queue[start].id != id { PositionIs(queue, id, start + 1); }
  }

  /** Identifiers are not repeated, neither in the queue nor among completed handles. */
  lemma {:induction false} NoneTwice(s: State)
    requires Invariant(s)
    ensures StrictlyOnce(s.queue)
    ensures forall h, g :: h in s.queue && g in s.completed ==> h.id != g.id
  {
    var all := Ids(s.completed) + Ids(s.queue);
    assert multiset(s.posted) == multiset(all);
    forall i, j | 0 <= i < j < |all| ensures all[i] != all[j] { OnceInBoth(s.posted, all, i, j); }
    forall i, j | 0 <= i < j < |s.queue| ensures s.queue[i].id != s.queue[j].id {
      assert all[|s.completed| + i] != all[|s.completed| + j];
    }
    forall h, g | h in s.queue && g in s.completed ensures h.id != g.id {
      var i :| 0 <= i < |s.queue| && s.queue[i] == h;
      var j :| 0 <= j < |s.completed| && s.completed[j] == g;
      assert all[j] != all[|s.completed| + i];
    }
  }

  lemma {:induction false} OnceInBoth(a: seq<int>, b: seq<int>, i: nat, j: nat)
    requires multiset(a) == multiset(b) && StrictlyIncreasing(a) && i < j < |b|
    ensures b[i] != b[j]
  {
    assert b[i] in multiset(a);
    var k :| 0 <= k < |a| && a[k] == b[i];
    CountOnce(a, k);
    hide StrictlyIncreasing;
    if b[i] == b[j] { CountTwice(b, i, j); }
  }

  lemma {:induction false} CountOnce(a: seq<int>, k: nat)
    requires StrictlyIncreasing(a) && k < |a|
    ensures multiset(a)[a[k]] == 1
  {
    assert a == a[..k] + [a[k]] + a[k + 1..];
    assert multiset(a) == multiset(a[..k]) + multiset{a[k]} + multiset(a[k + 1..]);
    assert a[k] !in a[..k] && a[k] !in a[k + 1..];
  }

  lemma {:induction false} CountTwice(b: seq<int>, i: nat, j: nat)
    requires i < j < |b| && b[i] == b[j]
    ensures multiset(b)[b[i]] >= 2
  {
    assert b == b[..j] + [b[j]] + b[j + 1..] && b[i] in b[..j];
    assert multiset(b) == multiset(b[..j]) + multiset{b[j]} + multiset(b[j + 1..]);
  }

  /** The message was cancelled while its handle was queued. */
  ghost predicate CancelledIn(trace: seq<State>, steps: seq<Step>, i: nat, n: nat, id: int)
    requires n <= |steps| < |trace|
  {
    exists j :: i < j < n && steps[j] == Cancel(id) && exists h :: h in trace[j].queue && h.id == id
  }

  /** What every run has done for a message: a completed one has handed over all its batches, each once and in
      order, a queued one as many as it counts, and a cancelled one a part of them and then the mark. */
  ghost predicate Served(s: State, h: Handle) {
    && Has(s, h)
    && (h in s.completed && !h.cancelled ==> InOrder(h.handed, h.total))
    && (h in s.queue && !h.cancelled ==> InOrder(h.handed, h.sent) && h.sent <= h.total)
    && (h.cancelled ==> InOrder(h.handed, h.sent) || h.Ended())
    && (h in s.completed ==> h.sent == h.total)
  }

  lemma {:induction false} ServedAre(s: State, h: Handle)
    requires Invariant(s) && Has(s, h) && h.Recorded()
    ensures Served(s, h)
  {
    assert h.Valid();
  }

  /**
   In every run, each message that was posted is served: there is a handle with its identifier and number of
   batches, which is marked as cancelled exactly if the message was cancelled while queued.
   */
  lemma {:induction false} BatchesOfEveryRun(trace: seq<State>, steps: seq<Step>, i: nat, n: nat) returns (h: Handle)
    requires Run(trace, steps) && i < n < |trace| && steps[i].Send?
    ensures h.id == trace[i].nextId && h.total == steps[i].total && h.Recorded() && Served(trace[n], h)
    ensures h.cancelled <==> CancelledIn(trace, steps, i, n, h.id)
  {
    hide Invariant, After, Served, CancelledIn;
    RunKeepsInvariant(trace, steps, n);
    RunKeepsInvariant(trace, steps, n - 1);
    StepOf(trace, steps, n);
    hide Run;
    var s, step := trace[n - 1], steps[n - 1];
    if n == i + 1 {
      h := Posted(s, step.total);
      NotYet(trace, steps, i, h.id);
    } else {
      var g := BatchesOfEveryRun(trace, steps, i, n - 1);
      ServedHas(s, g);
      h := NextFate(s, step, g);
      CancelledNext(trace, steps, i, n, g);
    }
    ServedAre(trace[n], h);
  }

  lemma {:induction false} StepOf(trace: seq<State>, steps: seq<Step>, n: nat)
    requires Run(trace, steps) && 0 < n < |trace| && Invariant(trace[n - 1])
    ensures |trace| == |steps| + 1 && (steps[n - 1].Send? ==> steps[n - 1].total >= 1)
    ensures trace[n] == After(trace[n - 1], steps[n - 1])
  {
  }

  lemma {:induction false} NotYet(trace: seq<State>, steps: seq<Step>, i: nat, id: int)
    requires |trace| == |steps| + 1 && i < |steps|
    ensures !CancelledIn(trace, steps, i, i + 1, id)
  {
  }

  lemma {:induction false} ServedHas(s: State, h: Handle)
    requires Served(s, h)
    ensures Has(s, h)
  {
  }

  lemma {:induction false} CancelledNext(trace: seq<State>, steps: seq<Step>, i: nat, n: nat, g: Handle)
    requires |trace| == |steps| + 1 && i + 1 < n < |trace| && Invariant(trace[n - 1]) && Has(trace[n - 1], g)
    ensures CancelledIn(trace, steps, i, n, g.id) <==>
            CancelledIn(trace, steps, i, n - 1, g.id) || (steps[n - 1] == Cancel(g.id) && g in trace[n - 1].queue)
  {
    NoneTwice(trace[n - 1]);
    hide Invariant;
    if CancelledIn(trace, steps, i, n, g.id) && !CancelledIn(trace, steps, i, n - 1, g.id) {
      var j :| i < j < n && steps[j] == Cancel(g.id) && exists h :: h in trace[j].queue && h.id == g.id;
      assert j == n - 1;
    }
  }

  lemma {:induction false} Posted(s: State, total: nat) returns (h: Handle)
    requires Invariant(s) && total >= 1
    ensures Has(After(s, Send(total)), h) && h.id == s.nextId && h.total == total && !h.cancelled && h.Recorded()
  {
    SentIsRecorded(Handle(s.nextId, total, 0, false, false, []));
    h := After(s, Send(total)).queue[|s.queue|];
    assert h in After(s, Send(total)).queue;
  }

  /** One step of the queue keeps a handle or moves it on. */
  lemma {:induction false} NextFate(s: State, step: Step, g: Handle) returns (h: Handle)
    requires Invariant(s) && Has(s, g) && (step.Send? ==> step.total >= 1)
    ensures Has(After(s, step), h) && h.id == g.id && h.total == g.total && (g.Recorded() ==> h.Recorded())
    ensures h.cancelled == (g.cancelled || (step == Cancel(g.id) && g in s.queue))
  {
    NoneTwice(s);
    h := g;
    match step
    case Send(total) =>
    case SendToSelf =>
    case Cancel(id) =>
      hide Invariant, WithCancelled;
      if g in s.queue {
        CancelledFate(s.queue, id, g);
        if g.id == id { h := g.(cancelled := true); }
      }
    case Process(done) =>
      if g in s.queue { h := ProcessedFate(s, done, g); }
  }

  // ----- steps of the queue's loops --------------------------------------------------------------

  ghost predicate Waiting(queue: seq<Handle>, j: nat)
    requires j <= |queue|
  {
    exists i :: 0 <= i < j && !queue[i].initiated
  }

  lemma {:induction false} TestStep(queue: seq<Handle>, j: nat, tested: seq<Handle>, done: set<int>)
    requires j < |queue| && queue[j].Valid()
    ensures var now, h := tested + queue[j..], queue[j];
            && |tested| < |now| && now[|tested|] == h
            && now[..|tested|] + now[|tested| + 1..] == tested + queue[j + 1..]
            && (!Leaves(h, done) ==> now[|tested| := Tested(h, done)] == tested + [Tested(h, done)] + queue[j + 1..])
            && tested + [] == tested
    ensures Waiting(queue, j + 1) == (Waiting(queue, j) || !queue[j].initiated)
  {
  }

  lemma {:induction false} TestNone(queue: seq<Handle>, done: set<int>)
    ensures queue[..0] == [] && AllValid(queue[..0]) && !Waiting(queue, 0)
    ensures Surviving(queue[..0], done) == [] && Finishing(queue[..0], done) == []
  {
  }

  /** What the tests leave behind; without a waiting handle nothing has to be started. */
  lemma {:induction false} BeforeStarting(s: State, done: set<int>)
    requires Invariant(s)
    ensures AllValid(s.queue)
    ensures var rest, busy := Surviving(s.queue, done), s.busy - |Finishing(s.queue, done)|;
            var k := Min(MAX_CONCURRENT_SENDS, |rest|);
            && Prefix(rest, busy) && 0 <= busy <= k <= |Ids(rest)|
            && (!Waiting(s.queue, |s.queue|) ==> busy == k && Started(rest, k) == rest && Ids(rest)[busy..k] == [])
  {
    TestAll(s.queue, s.busy, done);
    hide Surviving, Finishing;
    assert s.busy < |s.queue| ==> !s.queue[s.busy].initiated;
  }

  lemma {:induction false} ProcessedIs(s: State, done: set<int>, rest: seq<Handle>, busy: int, s': State)
    requires Invariant(s) && rest == Surviving(s.queue, done) && busy == s.busy - |Finishing(s.queue, done)|
    requires var k := Min(MAX_CONCURRENT_SENDS, |rest|);
             && 0 <= busy <= k <= |Ids(rest)| && s'.busy == k && s'.queue == Started(rest, k)
             && s'.started == s.started + Ids(rest)[busy..k]
    requires s'.completed == s.completed + Finishing(s.queue, done) && s'.posted == s.posted && s'.nextId == s.nextId
    ensures s' == Processed(s, done)
  {
  }

  // ----- the queue --------------------------------------------------------------------------------

  class MessageQueue {
    const myRank: int
    var sendQueue: seq<Handle>
    var numConcurrentSends: int
    var runningSendId: int
    ghost var posted: seq<int>
    ghost var started: seq<int>
    ghost var completed: seq<Handle>

    ghost function View(): State
      reads this
    {
      State(sendQueue, numConcurrentSends, runningSendId, posted, started, completed)
    }

    ghost predicate Valid()
      reads this
    {
      Invariant(View())
    }

    constructor (rank: int)
      ensures Valid() && View() == Initial && myRank == rank
    {
      myRank := rank;
      sendQueue, numConcurrentSends, runningSendId := [], 0, 1;
      posted, started, completed := [], [], [];
      new;
      assert Ids(sendQueue) == [];
    }

    /** Posts a message of so many batches; a message to oneself takes an identifier but no slot. */
    method Send(dest: int, total: nat) returns (id: int)
      requires Valid() && total >= 1
      modifies this
      ensures Valid() && id == old(runningSendId)
      ensures View() == After(old(View()), if dest == myRank then SendToSelf else Step.Send(total))
    {
      PostKeeps(View(), total);
      ghost var s := View();
      id := runningSendId;
      runningSendId := runningSendId + 1;
      if dest == myRank { return; }
      var h := Handle(id, total, 0, false, false, []);
      sendQueue, posted := sendQueue + [h], posted + [id];
      if numConcurrentSends < MAX_CONCURRENT_SENDS {
        sendQueue := sendQueue[|sendQueue| - 1 := SendNext(h)];
        numConcurrentSends := numConcurrentSends + 1;
        started := started + [id];
      }
      assert View() == Post(s, total);
    }

    method CancelSend(id: int)
      requires Valid()
      modifies `sendQueue
      ensures Valid() && View() == After(old(View()), Cancel(id))
    {
      ghost var s := View();
      CancelKeeps(s, id);
      hide Invariant, Ids;
      var i := 0;
      while i < |sendQueue| && sendQueue[i].id != id
        invariant 0 <= i <= |sendQueue| && sendQueue == s.queue
        invariant Position(s.queue, id, 0) == Position(s.queue, id, i)
      {
        i := i + 1;
      }
      if i < |sendQueue| {
        sendQueue := sendQueue[i := sendQueue[i].(cancelled := true)];
      }
    }

    /**
     Tests each request under way once (`done` holds the identifiers whose request is found complete), sends
     next batches, removes finished handles, then starts waiting handles while slots are free.
     */
    method ProcessSent(done: set<int>)
      requires Valid()
      modifies this
      ensures Valid() && View() == After(old(View()), Process(done))
    {
      hide Surviving, Finishing, AllValid, Waiting, Started, Ids, Invariant, Processed, Prefix;
      ghost var s := View();
      ProcessedKeeps(s, done);
      BeforeStarting(s, done);
      var uninitiatedPresent := TestRequests(done);
      ghost var rest, busy := sendQueue, numConcurrentSends;
      if uninitiatedPresent { StartWaiting(); }
      ProcessedIs(s, done, rest, busy, View());
    }

    method TestRequests(done: set<int>) returns (uninitiatedPresent: bool)
      requires AllValid(sendQueue)
      modifies `sendQueue, `numConcurrentSends, `completed
      ensures sendQueue == Surviving(old(sendQueue), done)
      ensures completed == old(completed) + Finishing(old(sendQueue), done)
      ensures numConcurrentSends == old(numConcurrentSends) - |Finishing(old(sendQueue), done)|
      ensures uninitiatedPresent == Waiting(old(sendQueue), |old(sendQueue)|)
    {
      ghost var queue, j := sendQueue, 0;
      ghost var tested, gone := [], [];
      var it := 0;
      uninitiatedPresent := false;
      hide Surviving, Finishing, AllValid, Waiting;
      TestNone(queue, done);
      while it < |sendQueue|
        invariant 0 <= j <= |queue| && AllValid(queue[..j])
        invariant tested == Surviving(queue[..j], done) && gone == Finishing(queue[..j], done)
        invariant it == |tested| && sendQueue == tested + queue[j..]
        invariant completed == old(completed) + gone && numConcurrentSends == old(numConcurrentSends) - |gone|
        invariant uninitiatedPresent == Waiting(queue, j)
        decreases |sendQueue| - it
      {
        TestOneMore(queue, j, done);
        TestStep(queue, j, tested, done);
        var h := sendQueue[it];
        if !h.initiated {
          uninitiatedPresent := true;
          it := it + 1;
        } else if h.id !in done {
          it := it + 1;
        } else if h.total > 1 && h.sent < h.total {
          sendQueue := sendQueue[it := SendNext(h)];
          it := it + 1;
        } else {
          completed := completed + [h];
          numConcurrentSends := numConcurrentSends - 1;
          sendQueue := sendQueue[..it] + sendQueue[it + 1..];
        }
        tested := tested + if Leaves(h, done) then [] else [Tested(h, done)];
        gone := gone + if Leaves(h, done) then [h] else [];
        j := j + 1;
      }
      assert queue[..j] == queue;
    }

    method StartWaiting()
      requires AllValid(sendQueue) && Prefix(sendQueue, numConcurrentSends)
      requires numConcurrentSends <= MAX_CONCURRENT_SENDS
      modifies `sendQueue, `numConcurrentSends, `started
      ensures numConcurrentSends == Min(MAX_CONCURRENT_SENDS, |old(sendQueue)|)
      ensures sendQueue == Started(old(sendQueue), numConcurrentSends)
      ensures old(numConcurrentSends) <= numConcurrentSends
      ensures started == old(started) + Ids(old(sendQueue))[old(numConcurrentSends)..numConcurrentSends]
    {
      ghost var queue, busy := sendQueue, numConcurrentSends;
      var it := 0;
      while numConcurrentSends < MAX_CONCURRENT_SENDS && it < |sendQueue|
        invariant 0 <= it <= |queue| && busy <= numConcurrentSends <= MAX_CONCURRENT_SENDS
        invariant numConcurrentSends == if it <= busy then busy else it
        invariant sendQueue == Started(queue, numConcurrentSends)
        invariant started == old(started) + Ids(queue)[busy..numConcurrentSends]
      {
        var h := sendQueue[it];
        if !h.initiated {
          sendQueue := sendQueue[it := SendNext(h)];
          numConcurrentSends := numConcurrentSends + 1;
          started := started + [h.id];
        }
        it := it + 1;
      }
    }
  }
}
