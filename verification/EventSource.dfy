/** How a worker numbers the events it issues for the jobs it is the root of. */
module EventSources {
  import opened Basics
  import opened EventTypes
  import opened EventMaps
  import opened BalancerProtocol
  import opened BalancerSafety
  import opened BalancerOrder
  import opened BalancerEnd

  /** Reserves a place for a job that is about to be introduced. */
  function ProbeEvent(job: int): Event { Event(job, 1, 1, 0.01) }

  /** Announces the end of a job. */
  function EndEvent(job: int): Event { Event(job, INT32_MAX, 0, 0.0) }

  /** The event's number comes from a counter: it is neither the first nor the last number of a job. */
  predicate Counted(e: Event) { 2 <= e.epoch < INT32_MAX }

  /** A worker's active job, the counters of the jobs it is the root of, and all events it ever issued. */
  datatype Source = Source(active: int, epochs: map<int, int>, issued: set<Event>)

  const NewSource := Source(-1, map[], {})

  datatype Call =
    | OnProbe(job: int)
    | OnActivate(job: int, isRoot: bool, priority: real, demand: int)
    | OnDemandChange(job: int, priority: real, demand: int)
    | OnSuspend(job: int, isRoot: bool, priority: real)
    | OnTerminate(job: int, isRoot: bool)

  // ----- calls -----------------------------------------------------------------------------------

  /** The job has a counter that can still be increased. */
  predicate CanCount(s: Source, job: int) { job in s.epochs && 0 < s.epochs[job] < INT32_MAX }

  /** What the balancer asserts of its callers. */
  predicate MayCall(s: Source, c: Call) {
    match c
    case OnProbe(_) => true
    case OnActivate(job, isRoot, _, _) => s.active == job && isRoot ==> CanCount(s, job)
    case OnDemandChange(job, _, _) => s.active == job && CanCount(s, job)
    case OnSuspend(job, isRoot, _) => isRoot ==> CanCount(s, job)
    case OnTerminate(_, _) => true
  }

  function NextEvent(s: Source, job: int, priority: real, demand: int): Event
    requires CanCount(s, job)
  {
    Event(job, s.epochs[job] + 1, demand, priority)
  }

  /** The event that a call issues, if any. */
  function Issue(s: Source, c: Call): Option<Event>
    requires MayCall(s, c)
  {
    match c
    case OnProbe(job) => Some(ProbeEvent(job))
    case OnActivate(job, isRoot, priority, demand) =>
      if s.active == job && isRoot then Some(NextEvent(s, job, priority, demand)) else None
    case OnDemandChange(job, priority, demand) => Some(NextEvent(s, job, priority, demand))
    case OnSuspend(job, isRoot, priority) => if isRoot then Some(NextEvent(s, job, priority, 1)) else None
    case OnTerminate(job, isRoot) => if isRoot && job in s.epochs then Some(EndEvent(job)) else None
  }

  /** A counter is opened by the first activation, increased by every counted event and given up at the end. */
  function EpochsAfter(s: Source, c: Call): map<int, int>
    requires MayCall(s, c)
  {
    var ev := Issue(s, c);
    match c
    case OnProbe(_) => s.epochs
    case OnTerminate(job, _) => if ev.Some? then s.epochs - {job} else s.epochs
    case OnActivate(job, isRoot, _, _) =>
      if ev.Some? then s.epochs[job := ev.value.epoch]
      else if isRoot && job !in s.epochs then s.epochs[job := 1]
      else s.epochs
    case _ => if ev.Some? then s.epochs[c.job := ev.value.epoch] else s.epochs
  }

  function ActiveAfter(s: Source, c: Call): int {
    match c
    case OnActivate(job, _, _, _) => job
    case OnSuspend(job, _, _) => if s.active == job then -1 else s.active
    case OnTerminate(job, _) => if s.active == job then -1 else s.active
    case _ => s.active
  }

  function AfterCall(s: Source, c: Call): Source
    requires MayCall(s, c)
  {
    var ev := Issue(s, c);
    Source(ActiveAfter(s, c), EpochsAfter(s, c), if ev.Some? then s.issued + {ev.value} else s.issued)
  }

  ghost predicate RunFrom(s: Source, trace: seq<Source>, calls: seq<Call>) {
    && |trace| == |calls| + 1 && trace[0] == s
    && forall i :: 0 <= i < |calls| ==> MayCall(trace[i], calls[i]) && trace[i + 1] == AfterCall(trace[i], calls[i])
  }

  // ----- when numbers are reused -------------------------------------------------------------------

  /** A counter is opened. */
  predicate Opens(s: Source, c: Call) { c.OnActivate? && c.isRoot && s.active != c.job && c.job !in s.epochs }

  /** A counter is opened for a job of which an event was counted before. */
  ghost predicate Reopens(s: Source, c: Call) {
    Opens(s, c) && exists e :: e in s.issued && e.jobId == c.job && Counted(e)
  }

  /** A counter arrives at the number that is reserved for the end of a job. */
  predicate Exhausts(s: Source, c: Call)
    requires MayCall(s, c)
  {
    Issue(s, c).Some? && Issue(s, c).value.epoch == INT32_MAX && Issue(s, c).value != EndEvent(c.job)
  }

  ghost predicate Reuses(s: Source, c: Call)
    requires MayCall(s, c)
  {
    Reopens(s, c) || Exhausts(s, c)
  }

  ghost predicate HasCounted(s: Source, job: int) { exists e :: e in s.issued && e.jobId == job && Counted(e) }

  /** Numbers are in range, no counter is behind or ahead of all it counted, and job and epoch determine the event. */
  ghost predicate Safe(s: Source) {
    && (forall e :: e in s.issued ==> e == ProbeEvent(e.jobId) || e == EndEvent(e.jobId) || Counted(e))
    && (forall e :: e in s.issued && Counted(e) && e.jobId in s.epochs ==> e.epoch <= s.epochs[e.jobId])
    && (forall j :: j in s.epochs ==> 1 <= s.epochs[j] <= INT32_MAX)
    && (forall j :: j in s.epochs && s.epochs[j] > 1 ==> HasCounted(s, j))
    && Functional(s.issued)
  }

  /** A new event that shares its number with no other keeps job and epoch a key. */
  lemma {:induction false} NewNumber(issued: set<Event>, e: Event)
    requires Functional(issued)
    requires forall f :: f in issued && f.jobId == e.jobId && f.epoch == e.epoch ==> f == e
    ensures Functional(issued + {e})
  {
  }

  /** Every call keeps job and epoch a key of the issued events, unless it reuses a number. */
  lemma {:induction false} CallIsSafe(s: Source, c: Call)
    requires Safe(s) && MayCall(s, c) && !Reuses(s, c)
    ensures Safe(AfterCall(s, c))
  {
    if Issue(s, c).Some? { NumberIsFree(s, c); }
    InRange(s, c);
    var after := AfterCall(s, c);
    hide AfterCall, Functional, HasCounted, MayCall, Reuses;
    forall j | j in after.epochs && after.epochs[j] > 1 ensures HasCounted(after, j) {
      KeepsCounted(s, c, j);
    }
    forall e | e in after.issued && Counted(e) && e.jobId in after.epochs ensures e.epoch <= after.epochs[e.jobId] {
      NotBehind(s, c, e);
    }
  }

  lemma {:induction false} InRange(s: Source, c: Call)
    requires Safe(s) && MayCall(s, c) && !Exhausts(s, c)
    ensures var after := AfterCall(s, c);
            && (forall e :: e in after.issued ==> e == ProbeEvent(e.jobId) || e == EndEvent(e.jobId) || Counted(e))
            && (forall j :: j in after.epochs ==> 1 <= after.epochs[j] <= INT32_MAX)
            && after.issued == if Issue(s, c).Some? then s.issued + {Issue(s, c).value} else s.issued
  {
    hide Functional, HasCounted;
  }

  lemma {:induction false} NotBehind(s: Source, c: Call, e: Event)
    requires Safe(s) && MayCall(s, c) && !Reuses(s, c)
    requires e in AfterCall(s, c).issued && Counted(e) && e.jobId in AfterCall(s, c).epochs
    ensures e.epoch <= AfterCall(s, c).epochs[e.jobId]
  {
    hide Functional, HasCounted;
  }

  lemma {:induction false} KeepsCounted(s: Source, c: Call, job: int)
    requires Safe(s) && MayCall(s, c) && job in AfterCall(s, c).epochs && AfterCall(s, c).epochs[job] > 1
    requires !Exhausts(s, c)
    ensures HasCounted(AfterCall(s, c), job)
  {
    var ev, after := Issue(s, c), AfterCall(s, c);
    if HasCounted(s, job) {
      var e :| e in s.issued && e.jobId == job && Counted(e);
      assert e in after.issued;
    } else {
      assert job in s.epochs ==> s.epochs[job] == 1;
      assert ev.Some? && ev.value.jobId == job && Counted(ev.value) && ev.value in after.issued;
    }
  }

  lemma {:induction false} NumberIsFree(s: Source, c: Call)
    requires Safe(s) && MayCall(s, c) && !Reuses(s, c) && Issue(s, c).Some?
    ensures Functional(s.issued + {Issue(s, c).value})
  {
    NewNumber(s.issued, Issue(s, c).value);
  }

  lemma {:induction false} SafeUntilReuse(trace: seq<Source>, calls: seq<Call>, k: nat)
    requires RunFrom(NewSource, trace, calls) && k < |trace|
    requires forall i :: 0 <= i < k ==> !Reuses(trace[i], calls[i])
    ensures Safe(trace[k])
  {
    if k > 0 {
      SafeUntilReuse(trace, calls, k - 1);
      hide AfterCall, Reuses, Safe;
      CallIsSafe(trace[k - 1], calls[k - 1]);
    }
  }

  // ----- reuse does break it -----------------------------------------------------------------------

  lemma {:induction false} OneMoreCall(s: Source, c: Call, trace: seq<Source>, calls: seq<Call>)
    requires MayCall(s, c) && RunFrom(AfterCall(s, c), trace, calls)
    ensures RunFrom(s, [s] + trace, [c] + calls)
  {
    hide AfterCall;
  }

  /** Suspensions of a root count its events up to any number below the last one. */
  lemma {:induction false} CountTo(s: Source, job: int, number: int, priority: real)
      returns (trace: seq<Source>, calls: seq<Call>)
    requires CanCount(s, job) && s.epochs[job] < number < INT32_MAX
    ensures RunFrom(s, trace, calls)
    ensures s.issued + {Event(job, number, 1, priority)} <= trace[|calls|].issued
    decreases number - s.epochs[job]
  {
    var c := OnSuspend(job, true, priority);
    var next := AfterCall(s, c);
    if s.epochs[job] + 1 == number {
      trace, calls := [s, next], [c];
    } else {
      var rest, more := CountTo(next, job, number, priority);
      OneMoreCall(s, c, rest, more);
      trace, calls := [s] + rest, [c] + more;
    }
  }

  /** From every state in which a call reuses a number, it leads to two different events of one job and epoch. */
  lemma {:induction false} ReuseBreaks(s: Source, c: Call) returns (trace: seq<Source>, calls: seq<Call>)
    requires Safe(s) && MayCall(s, c) && Reuses(s, c)
    ensures RunFrom(s, trace, calls) && |calls| > 0 && calls[0] == c
    ensures !Functional(trace[|calls|].issued)
  {
    var next := AfterCall(s, c);
    var rest, more;
    if Reopens(s, c) {
      var e :| e in s.issued && e.jobId == c.job && Counted(e);
      rest, more := CountTo(next, c.job, e.epoch, e.priority + 1.0);
      TwoEvents(rest[|more|].issued, e, Event(c.job, e.epoch, 1, e.priority + 1.0));
    } else {
      var end := OnTerminate(c.job, true);
      rest, more := [next, AfterCall(next, end)], [end];
      TwoEvents(rest[1].issued, Issue(s, c).value, EndEvent(c.job));
    }
    OneMoreCall(s, c, rest, more);
    trace, calls := [s] + rest, [c] + more;
  }

  lemma {:induction false} TwoEvents(issued: set<Event>, e: Event, f: Event)
    requires e in issued && f in issued && e.jobId == f.jobId && e.epoch == f.epoch && e != f
    ensures !Functional(issued)
  {
  }

  // ----- several workers ----------------------------------------------------------------------------

  ghost function AllIssued(sources: seq<Source>): set<Event> {
    set i, e | 0 <= i < |sources| && e in sources[i].issued :: e
  }

  ghost predicate CountedAt(s: Source, e: Event) { e in s.issued && Counted(e) }

  /** Counted events of a job come from one worker. */
  ghost predicate OneCounterPerJob(sources: seq<Source>) {
    forall i, j, e, f :: 0 <= i < |sources| && 0 <= j < |sources| && CountedAt(sources[i], e)
      && CountedAt(sources[j], f)
      ==> e.jobId == f.jobId ==> i == j
  }

  lemma {:induction false} UnionIsSafe(sources: seq<Source>)
    requires (forall i :: 0 <= i < |sources| ==> Safe(sources[i])) && OneCounterPerJob(sources)
    ensures Functional(AllIssued(sources))
  {
    hide Safe, CountedAt;
    forall e, f | e in AllIssued(sources) && f in AllIssued(sources) && e.jobId == f.jobId && e.epoch == f.epoch
      ensures e == f
    {
      var i :| 0 <= i < |sources| && e in sources[i].issued;
      var j :| 0 <= j < |sources| && f in sources[j].issued;
      assert CountedAt(sources[i], e) && CountedAt(sources[j], f) ==> i == j;
      SameEvent(sources[i], sources[j], e, f);
    }
  }

  lemma {:induction false} SameEvent(s: Source, t: Source, e: Event, f: Event)
    requires Safe(s) && Safe(t) && e in s.issued && f in t.issued && e.jobId == f.jobId && e.epoch == f.epoch
    requires CountedAt(s, e) && CountedAt(t, f) ==> s == t
    ensures e == f
  {
  }

  /** The worker counts or has counted events of the job. */
  ghost predicate Touches(s: Source, job: int) { job in s.epochs || HasCounted(s, job) }

  /** A call at one of the workers. */
  datatype CallAt = CallAt(i: nat, c: Call)

  predicate MayCallAt(sources: seq<Source>, x: CallAt) { x.i < |sources| && MayCall(sources[x.i], x.c) }

  function AfterCallAt(sources: seq<Source>, x: CallAt): seq<Source>
    requires MayCallAt(sources, x)
  {
    sources[x.i := AfterCall(sources[x.i], x.c)]
  }

  ghost predicate RunOfAll(sources: seq<Source>, trace: seq<seq<Source>>, calls: seq<CallAt>) {
    && |trace| == |calls| + 1 && trace[0] == sources
    && forall k :: 0 <= k < |calls| ==>
                     MayCallAt(trace[k], calls[k]) && trace[k + 1] == AfterCallAt(trace[k], calls[k])
  }

  /** A counter is opened for a job that another worker counts or has counted events of. */
  ghost predicate Interferes(sources: seq<Source>, x: CallAt)
    requires MayCallAt(sources, x)
  {
    Opens(sources[x.i], x.c) && exists j :: 0 <= j < |sources| && j != x.i && Touches(sources[j], x.c.job)
  }

  ghost predicate Collides(sources: seq<Source>, x: CallAt)
    requires MayCallAt(sources, x)
  {
    Reuses(sources[x.i], x.c) || Interferes(sources, x)
  }

  /** Every worker is safe, and no two of them count events of the same job. */
  ghost predicate AllSafe(sources: seq<Source>) {
    && (forall i :: 0 <= i < |sources| ==> Safe(sources[i]))
    && (forall i, j, job :: 0 <= i < j < |sources| && Touches(sources[i], job) ==> !Touches(sources[j], job))
  }

  lemma {:induction false} AllSafeIsFunctional(sources: seq<Source>)
    requires AllSafe(sources)
    ensures Functional(AllIssued(sources))
  {
    hide Safe;
    forall i, j, e, f | 0 <= i < |sources| && 0 <= j < |sources| && CountedAt(sources[i], e)
                        && CountedAt(sources[j], f) && e.jobId == f.jobId
      ensures i == j
    {
      assert Touches(sources[i], e.jobId) && Touches(sources[j], f.jobId);
    }
    UnionIsSafe(sources);
  }

  /** Only a call that opens a counter makes a worker count events of a job. */
  lemma {:induction false} TouchedBy(s: Source, c: Call, job: int)
    requires MayCall(s, c) && Touches(AfterCall(s, c), job) && !Touches(s, job)
    ensures Opens(s, c) && c.job == job
  {
  }

  lemma {:induction false} CallKeepsAllSafe(sources: seq<Source>, x: CallAt)
    requires AllSafe(sources) && MayCallAt(sources, x) && !Collides(sources, x)
    ensures AllSafe(AfterCallAt(sources, x))
  {
    var after := AfterCallAt(sources, x);
    CallIsSafe(sources[x.i], x.c);
    hide Safe, AfterCall, Reuses, Touches;
    forall i, j, job | 0 <= i < j < |after| && Touches(after[i], job) ensures !Touches(after[j], job) {
      if Touches(after[j], job) {
        if i == x.i && !Touches(sources[i], job) { TouchedBy(sources[i], x.c, job); }
        if j == x.i && !Touches(sources[j], job) { TouchedBy(sources[j], x.c, job); }
      }
    }
  }

  /** Until a call collides, job and epoch determine the event among those of all workers. */
  lemma {:induction false} AllSafeUntilCollision(n: nat, trace: seq<seq<Source>>, calls: seq<CallAt>, k: nat)
    requires RunOfAll(seq(n, _ => NewSource), trace, calls) && k < |trace|
    requires forall i :: 0 <= i < k ==> !Collides(trace[i], calls[i])
    ensures AllSafe(trace[k]) && Functional(AllIssued(trace[k]))
  {
    if k > 0 {
      AllSafeUntilCollision(n, trace, calls, k - 1);
      hide AfterCallAt, Collides, AllSafe;
      CallKeepsAllSafe(trace[k - 1], calls[k - 1]);
    }
    AllSafeIsFunctional(trace[k]);
  }

  // ----- a collision does break it ---------------------------------------------------------------------

  ghost function Placed(i: nat, calls: seq<Call>): (r: seq<CallAt>)
    ensures |r| == |calls| && forall k :: 0 <= k < |r| ==> r[k] == CallAt(i, calls[k])
  {
    seq(|calls|, k requires 0 <= k < |calls| => CallAt(i, calls[k]))
  }

  ghost function Extended(sources: seq<Source>, i: nat, trace: seq<Source>): (r: seq<seq<Source>>)
    requires i < |sources|
    ensures |r| == |trace| && forall k :: 0 <= k < |r| ==> r[k] == sources[i := trace[k]]
  {
    seq(|trace|, k requires 0 <= k < |trace| => sources[i := trace[k]])
  }

  /** What one worker does is done among all. */
  lemma {:induction false} AmongAll(sources: seq<Source>, i: nat, trace: seq<Source>, calls: seq<Call>)
    requires i < |sources| && RunFrom(sources[i], trace, calls)
    ensures RunOfAll(sources, Extended(sources, i, trace), Placed(i, calls))
  {
    hide AfterCall, MayCall;
    var all, placed := Extended(sources, i, trace), Placed(i, calls);
    assert all[0] == sources;
    forall k | 0 <= k < |placed| ensures MayCallAt(all[k], placed[k]) && all[k + 1] == AfterCallAt(all[k], placed[k]) {
      assert all[k][i := trace[k + 1]] == all[k + 1];
    }
  }

  lemma {:induction false} RunThenRun(sources: seq<Source>, a: seq<seq<Source>>, x: seq<CallAt>, b: seq<seq<Source>>,
      y: seq<CallAt>)
    requires RunOfAll(sources, a, x) && RunOfAll(a[|x|], b, y)
    ensures RunOfAll(sources, a[..|x|] + b, x + y) && (a[..|x|] + b)[|x + y|] == b[|y|]
  {
    hide AfterCallAt, MayCallAt;
  }

  /** Of two workers one has counted an event of a job, and the other has a counter of the job behind it. */
  lemma {:induction false} CounterBehindBreaks(sources: seq<Source>, i: nat, j: nat, e: Event)
      returns (trace: seq<seq<Source>>, calls: seq<CallAt>)
    requires i < |sources| && j < |sources| && i != j && e in sources[j].issued && Counted(e)
    requires CanCount(sources[i], e.jobId) && sources[i].epochs[e.jobId] < e.epoch
    ensures RunOfAll(sources, trace, calls) && !Functional(AllIssued(trace[|calls|]))
  {
    var one, more := CountTo(sources[i], e.jobId, e.epoch, e.priority + 1.0);
    var f := Event(e.jobId, e.epoch, 1, e.priority + 1.0);
    AmongAll(sources, i, one, more);
    trace, calls := Extended(sources, i, one), Placed(i, more);
    hide RunFrom, RunOfAll;
    var all := trace[|calls|];
    assert all[i].issued == one[|more|].issued && f in all[i].issued && e in all[j].issued;
    TwoEvents(AllIssued(all), e, f);
  }

  /** Of two workers one has opened a counter of a job, and so has the other. */
  lemma {:induction false} SecondCounterBreaks(sources: seq<Source>, i: nat, j: nat, job: int)
      returns (trace: seq<seq<Source>>, calls: seq<CallAt>)
    requires i < |sources| && j < |sources| && i != j && Safe(sources[j]) && Touches(sources[j], job)
    requires job in sources[i].epochs && sources[i].epochs[job] == 1
    ensures RunOfAll(sources, trace, calls) && !Functional(AllIssued(trace[|calls|]))
  {
    if HasCounted(sources[j], job) {
      var e :| e in sources[j].issued && e.jobId == job && Counted(e);
      trace, calls := CounterBehindBreaks(sources, i, j, e);
    } else {
      var one, more := CountTo(sources[j], job, 2, 0.0);
      AmongAll(sources, j, one, more);
      var a, x := Extended(sources, j, one), Placed(j, more);
      var e := Event(job, 2, 1, 0.0);
      hide RunFrom, RunOfAll;
      var b, y := CounterBehindBreaks(a[|x|], i, j, e);
      RunThenRun(sources, a, x, b, y);
      trace, calls := a[..|x|] + b, x + y;
    }
  }

  /** From every safe state of all workers in which a call collides, it leads to two events of one job and epoch. */
  lemma {:induction false} CollisionBreaks(sources: seq<Source>, x: CallAt)
      returns (trace: seq<seq<Source>>, calls: seq<CallAt>)
    requires AllSafe(sources) && MayCallAt(sources, x) && Collides(sources, x)
    ensures RunOfAll(sources, trace, calls) && |calls| > 0 && calls[0] == x
    ensures !Functional(AllIssued(trace[|calls|]))
  {
    if Reuses(sources[x.i], x.c) {
      var one, more := ReuseBreaks(sources[x.i], x.c);
      AmongAll(sources, x.i, one, more);
      trace, calls := Extended(sources, x.i, one), Placed(x.i, more);
      hide RunFrom, RunOfAll;
      assert trace[|calls|][x.i].issued == one[|more|].issued;
      MoreEvents(one[|more|].issued, AllIssued(trace[|calls|]));
    } else {
      var j :| 0 <= j < |sources| && j != x.i && Touches(sources[j], x.c.job);
      var next := AfterCallAt(sources, x);
      assert next[j] == sources[j] && x.c.job in next[x.i].epochs && next[x.i].epochs[x.c.job] == 1;
      assert RunOfAll(sources, [sources, next], [x]);
      hide RunOfAll, AfterCallAt, Safe;
      var b, y := SecondCounterBreaks(next, x.i, j, x.c.job);
      RunThenRun(sources, [sources, next], [x], b, y);
      trace, calls := [sources, next][..1] + b, [x] + y;
    }
  }

  lemma {:induction false} MoreEvents(few: set<Event>, many: set<Event>)
    requires few <= many && !Functional(few)
    ensures !Functional(many)
  {
  }

  // ----- the protocol --------------------------------------------------------------------------------

  /** The events of a run come from the workers' sources. */
  ghost predicate PushesFrom(sources: seq<Source>, steps: seq<Step>, k: nat)
    requires k <= |steps|
  {
    forall i :: 0 <= i < k && steps[i].Push? ==> steps[i].ev in AllIssued(sources)
  }

  lemma {:induction false} IssuedArePushed(n: nat, trace: seq<System>, steps: seq<Step>, k: nat, sources: seq<Source>)
    requires Run(n, trace, steps) && k < |trace| && PushesFrom(sources, steps, k)
    ensures trace[k].record.issued <= AllIssued(sources)
  {
    forall ev | ev in trace[k].record.issued ensures ev in AllIssued(sources) {
      IssuedWerePushed(n, trace, steps, 0, k, ev);
    }
  }

  /** No run of the balancing protocol aborts whose events come from workers whose calls do not collide. */
  lemma {:induction false} NoAbortFromSources(n: nat, trace: seq<System>, steps: seq<Step>, k: nat, workers: nat,
      strace: seq<seq<Source>>, calls: seq<CallAt>)
    requires Run(n, trace, steps) && k < |trace| && RunOfAll(seq(workers, _ => NewSource), strace, calls)
    requires forall i :: 0 <= i < |calls| ==> !Collides(strace[i], calls[i])
    requires PushesFrom(strace[|calls|], steps, k)
    ensures !trace[k].aborted
  {
    IssuedArePushed(n, trace, steps, k, strace[|calls|]);
    AllSafeUntilCollision(workers, strace, calls, |calls|);
    hide Run, AllSafe, Collides;
    NoAbort(n, trace, steps, k);
  }

  // ----- numbers of one worker ---------------------------------------------------------------------------

  /** The counter stays at or above a number it has reached, as long as the job is not terminated. */
  lemma {:induction false} CounterStays(s: Source, trace: seq<Source>, calls: seq<Call>, x: nat, y: nat, job: int,
      number: int)
    requires RunFrom(s, trace, calls) && x <= y < |trace|
    requires job in trace[x].epochs && trace[x].epochs[job] >= number
    requires forall k :: x <= k < y && calls[k].OnTerminate? ==> calls[k].job != job
    ensures job in trace[y].epochs && trace[y].epochs[job] >= number
    decreases y - x
  {
    if x < y { CounterStays(s, trace, calls, x, y - 1, job, number); }
  }

  /** A job's later event has the larger number, as long as the job was not terminated in between. */
  lemma {:induction false} NumbersGrow(s: Source, trace: seq<Source>, calls: seq<Call>, x: nat, y: nat, e: Event,
      f: Event)
    requires RunFrom(s, trace, calls) && x < y < |calls| && e.jobId == f.jobId && e.epoch < INT32_MAX
    requires Issue(trace[x], calls[x]) == Some(e) && Issue(trace[y], calls[y]) == Some(f)
    requires forall k :: x <= k < y && calls[k].OnTerminate? ==> calls[k].job != e.jobId
    requires !calls[y].OnProbe?
    ensures e.epoch < f.epoch
  {
    if !calls[x].OnProbe? {
      assert e.jobId in trace[x + 1].epochs && trace[x + 1].epochs[e.jobId] >= e.epoch;
      CounterStays(s, trace, calls, x + 1, y, e.jobId, e.epoch);
    }
  }

  /** Between these steps, the job's events are pushed where its root is, in the order of the calls that issue them. */
  ghost predicate RootPushes(steps: seq<Step>, j: nat, k: nat, w: nat, job: int, strace: seq<Source>,
      calls: seq<Call>, at: nat -> nat)
    requires j <= k <= |steps| && |strace| == |calls| + 1
    requires forall i :: 0 <= i < |calls| ==> MayCall(strace[i], calls[i])
  {
    && (forall i: nat :: j <= i < k && OfJob(steps[i], job) ==>
          && steps[i].w == w && at(i) < |calls| && !calls[at(i)].OnProbe?
          && Issue(strace[at(i)], calls[at(i)]) == Some(steps[i].ev))
    && (forall i: nat, l: nat :: j <= i < l < k && OfJob(steps[i], job) && OfJob(steps[l], job) ==>
          && at(i) < at(l) && steps[i].ev.epoch < INT32_MAX
          && (forall x :: at(i) <= x < at(l) && calls[x].OnTerminate? ==> calls[x].job != job))
  }

  lemma {:induction false} RootPushesGrow(steps: seq<Step>, j: nat, k: nat, w: nat, job: int, s: Source,
      strace: seq<Source>, calls: seq<Call>, at: nat -> nat)
    requires j <= k <= |steps| && RunFrom(s, strace, calls) && RootPushes(steps, j, k, w, job, strace, calls, at)
    ensures OneIssuer(steps, j, k, w, Topic(job, 0))
    ensures forall i :: j <= i < k && OfJob(steps[i], job) ==> steps[i].ev.epoch > 1
  {
    forall i: nat, l: nat | j <= i < l < k && OfJob(steps[i], job) && OfJob(steps[l], job)
      ensures steps[i].ev.epoch < steps[l].ev.epoch
    {
      NumbersGrow(s, strace, calls, at(i), at(l), steps[i].ev, steps[l].ev);
    }
  }

  /**
   A job that is probed at any worker, whose request is passed on once the probe is digested, and whose events its
   root then issues up to the end, does not come back after its end.
   */
  lemma {:induction false} AnnouncedJobEnds(n: nat, trace: seq<System>, steps: seq<Step>, probe: nat, j: nat, k: nat,
      u: nat, w: nat, job: int, last: nat, p: nat, s: Source, strace: seq<Source>, calls: seq<Call>, at: nat -> nat)
    requires Run(n, trace, steps) && probe < j <= last < k < |trace| && !trace[k].aborted
    requires steps[probe].Push? && steps[probe].ev == ProbeEvent(job)
    requires forall i :: 0 <= i < j && OfJob(steps[i], job) ==> i == probe
    requires u < |trace[j].nodes| && job in trace[j].nodes[u].states.entries && w < |trace[j].nodes|
    requires RunFrom(s, strace, calls) && RootPushes(steps, j, k, w, job, strace, calls, at)
    requires steps[last].Push? && steps[last].ev == EndEvent(job)
    requires p < |trace[k].record.broadcasts| && Contains(trace[k].record.broadcasts[p], EndEvent(job))
    ensures forall v: nat :: v < |trace[k].nodes| && p < trace[k].nodes[v].balancingEpoch ==>
              job !in trace[k].nodes[v].states.entries
    ensures forall ev :: Waits(trace[k], ev) && ev.jobId == job ==> ev == EndEvent(job)
  {
    RootPushesGrow(steps, j, k, w, job, s, strace, calls, at);
    hide Run, Waits, Contains, RunFrom, OneIssuer;
    assert forall i: nat :: last < i < k ==> !OfJob(steps[i], job);
    ProbedJobEnds(n, trace, steps, probe, j, k, u, w, last, p);
  }

  // ----- what the newest event says ------------------------------------------------------------------------

  /** The call of a root announces this demand and priority: a change of demand, an activation of the job that is
      active already, or a suspension, which leaves a demand of one. */
  ghost predicate Announces(s: Source, c: Call, job: int, demand: int, priority: real) {
    match c
    case OnDemandChange(j, p, d) => j == job && d == demand && p == priority
    case OnActivate(j, isRoot, p, d) => j == job && isRoot && s.active == job && d == demand && p == priority
    case OnSuspend(j, isRoot, p) => j == job && isRoot && demand == 1 && p == priority
    case _ => false
  }

  /** The call announces no demand of the job and does not end it. */
  ghost predicate Passes(s: Source, c: Call, job: int) {
    && (forall demand, priority :: !Announces(s, c, job, demand, priority))
    && !(c.OnTerminate? && c.job == job && c.isRoot)
  }

  lemma {:induction false} AnnouncedNow(s: Source, c: Call, job: int, demand: int, priority: real)
    requires MayCall(s, c) && Announces(s, c, job, demand, priority)
    ensures job in s.epochs && job in AfterCall(s, c).epochs && AfterCall(s, c).epochs[job] == s.epochs[job] + 1
    ensures Issue(s, c) == Some(Event(job, s.epochs[job] + 1, demand, priority))
  {
  }

  lemma {:induction false} PassesBy(s: Source, c: Call, job: int)
    requires MayCall(s, c) && Passes(s, c, job) && job in s.epochs
    ensures job in AfterCall(s, c).epochs && AfterCall(s, c).epochs[job] == s.epochs[job]
    ensures s.issued <= AfterCall(s, c).issued
  {
    match c
    case OnProbe(_) =>
    case OnTerminate(_, _) =>
    case OnActivate(j, isRoot, p, d) => assert !Announces(s, c, job, d, p);
    case OnDemandChange(j, p, d) => assert !Announces(s, c, job, d, p);
    case OnSuspend(j, isRoot, p) => assert !Announces(s, c, job, 1, p);
  }

  /** Call number `x` is the last one that announces a demand of the job. */
  ghost predicate LastAnnounced(trace: seq<Source>, calls: seq<Call>, x: nat, job: int, demand: int, priority: real)
    requires |trace| == |calls| + 1
  {
    && x < |calls| && Announces(trace[x], calls[x], job, demand, priority)
    && forall y :: x < y < |calls| ==> Passes(trace[y], calls[y], job)
  }

  lemma {:induction false} SinceThen(s: Source, trace: seq<Source>, calls: seq<Call>, x: nat, y: nat, job: int,
      demand: int, priority: real)
    requires RunFrom(s, trace, calls) && LastAnnounced(trace, calls, x, job, demand, priority) && x < y < |trace|
    ensures job in trace[y].epochs && Event(job, trace[y].epochs[job], demand, priority) in trace[y].issued
  {
    AnnouncedNow(trace[x], calls[x], job, demand, priority);
    if y > x + 1 {
      SinceThen(s, trace, calls, x, y - 1, job, demand, priority);
      hide AfterCall, MayCall, Announces;
      PassesBy(trace[y - 1], calls[y - 1], job);
    }
  }

  /**
   In every sequence of calls that reuses no number, the newest event that a root has issued for a job that it has
   not ended carries the demand and priority that it announced last.
   */
  lemma {:induction false} NewestIsLast(trace: seq<Source>, calls: seq<Call>, x: nat, job: int, demand: int,
      priority: real) returns (e: Event)
    requires RunFrom(NewSource, trace, calls) && LastAnnounced(trace, calls, x, job, demand, priority)
    requires Safe(trace[|calls|]) && EndEvent(job) !in trace[|calls|].issued
    ensures e.jobId == job && e.demand == demand && e.priority == priority && e in trace[|calls|].issued
    ensures forall f :: f in trace[|calls|].issued && f.jobId == job ==> f.epoch <= e.epoch
  {
    SinceThen(NewSource, trace, calls, x, |calls|, job, demand, priority);
    var s := trace[|calls|];
    e := Event(job, s.epochs[job], demand, priority);
    hide RunFrom, LastAnnounced;
    forall f | f in s.issued && f.jobId == job ensures f.epoch <= e.epoch {
      assert f == ProbeEvent(job) || Counted(f);
    }
  }

  /**
   When the protocol has come to rest, every worker holds the demand and priority that the root of a job announced
   last, for every job that was not ended.
   */
  lemma {:induction false} RestingDemand(n: nat, trace: seq<System>, steps: seq<Step>, k: nat, w: nat,
      sources: seq<Source>, r: nat, rtrace: seq<Source>, calls: seq<Call>, x: nat, job: int, demand: int,
      priority: real)
    requires Run(n, trace, steps) && k < |trace| && !trace[k].aborted && Quiescent(trace[k]) && w < |trace[k].nodes|
    requires AllSafe(sources) && r < |sources| && PushesFrom(sources, steps, k)
    requires RunFrom(NewSource, rtrace, calls) && rtrace[|calls|] == sources[r]
    requires LastAnnounced(rtrace, calls, x, job, demand, priority)
    requires forall f :: f in sources[r].issued && f.jobId == job ==> f in trace[k].record.issued
    requires forall f :: f in AllIssued(sources) && f.jobId == job ==> !OldZero(f)
    ensures job in trace[k].nodes[w].states.entries
    ensures trace[k].nodes[w].states.entries[job].demand == demand
    ensures trace[k].nodes[w].states.entries[job].priority == priority
  {
    IssuedArePushed(n, trace, steps, k, sources);
    AllSafeIsFunctional(sources);
    RootNewest(sources, r, rtrace, calls, x, job, demand, priority);
    hide Run, AllSafe, RunFrom, LastAnnounced;
    var e :| e in sources[r].issued && e.jobId == job && e.demand == demand && e.priority == priority
             && forall f :: f in AllIssued(sources) && f.jobId == job ==> f.epoch <= e.epoch;
    QuiescentAgreement(n, trace, steps, k, w, e);
    StatesAreValid(n, trace, steps, k, w);
    var f := trace[k].nodes[w].states.entries[job];
    assert f in AllIssued(sources) && f.jobId == job && f.epoch >= e.epoch;
    assert e in AllIssued(sources);
    assert f == e;
  }

  lemma {:induction false} StatesAreValid(n: nat, trace: seq<System>, steps: seq<Step>, k: nat, w: nat)
    requires Run(n, trace, steps) && k < |trace| && !trace[k].aborted && w < |trace[k].nodes|
    ensures trace[k].nodes[w].states.Valid()
  {
    RunKeepsInvariant(n, trace, steps, k);
    hide Run;
    NodeStatesKnown(trace[k], w);
  }

  /** The newest event of a job among those of all workers is the newest of its root. */
  lemma {:induction false} RootNewest(sources: seq<Source>, r: nat, rtrace: seq<Source>, calls: seq<Call>, x: nat,
      job: int, demand: int, priority: real)
    requires AllSafe(sources) && r < |sources| && RunFrom(NewSource, rtrace, calls) && rtrace[|calls|] == sources[r]
    requires LastAnnounced(rtrace, calls, x, job, demand, priority)
    requires forall f :: f in AllIssued(sources) && f.jobId == job ==> !OldZero(f)
    ensures exists e ::
              && e in sources[r].issued && e.jobId == job && e.demand == demand && e.priority == priority
              && forall f :: f in AllIssued(sources) && f.jobId == job ==> f.epoch <= e.epoch
  {
    assert sources[r].issued <= AllIssued(sources);
    var e := NewestIsLast(rtrace, calls, x, job, demand, priority);
    SinceThen(NewSource, rtrace, calls, x, |calls|, job, demand, priority);
    hide RunFrom, LastAnnounced;
    forall f | f in AllIssued(sources) && f.jobId == job ensures f.epoch <= e.epoch {
      var i :| 0 <= i < |sources| && f in sources[i].issued;
      if i != r { OnlyProbed(sources, r, i, job, f); }
      assert e.epoch >= 1;
    }
  }

  /** Workers other than the root have only probed a job that was not ended. */
  lemma {:induction false} OnlyProbed(sources: seq<Source>, r: nat, i: nat, job: int, f: Event)
    requires AllSafe(sources) && r < |sources| && i < |sources| && i != r && Touches(sources[r], job)
    requires f in sources[i].issued && f.jobId == job && !OldZero(f)
    ensures f == ProbeEvent(job)
  {
    assert Safe(sources[i]) && !Touches(sources[i], job);
    assert f != EndEvent(job);
  }

  // ----- the object ------------------------------------------------------------------------------------

  class EventSource {
    var activeJobId: int
    var rootEpochs: map<int, int>
    ghost var issued: set<Event>

    ghost function View(): Source
      reads this
    {
      Source(activeJobId, rootEpochs, issued)
    }

    constructor ()
      ensures View() == NewSource
    {
      activeJobId, rootEpochs, issued := -1, map[], {};
    }

    method Probe(job: int) returns (ev: Option<Event>)
      modifies `issued
      ensures ev == Issue(old(View()), OnProbe(job)) && View() == AfterCall(old(View()), OnProbe(job))
      ensures ev == Some(Event(job, 1, 1, 0.01))
    {
      ev := Some(ProbeEvent(job));
      issued := issued + {ev.value};
    }

    /** The first activation of a root opens a counter; another one of the active job is a change of demand. */
    method Activate(job: int, isRoot: bool, priority: real, demand: int) returns (ev: Option<Event>)
      requires MayCall(View(), OnActivate(job, isRoot, priority, demand))
      modifies this
      ensures var c := OnActivate(job, isRoot, priority, demand);
              ev == Issue(old(View()), c) && View() == AfterCall(old(View()), c)
      ensures ev == if old(activeJobId) == job && isRoot
                    then Some(Event(job, old(rootEpochs)[job] + 1, demand, priority)) else None
      ensures activeJobId == job
      ensures rootEpochs == if !isRoot then old(rootEpochs)
                            else old(rootEpochs)[job := if ev.Some? then ev.value.epoch
                                                        else if job in old(rootEpochs) then old(rootEpochs)[job] else 1]
    {
      ev := None;
      if activeJobId == job {
        if isRoot { ev := DemandChange(job, priority, demand); }
        return;
      }
      activeJobId := job;
      if isRoot && job !in rootEpochs { rootEpochs := rootEpochs[job := 1]; }
    }

    method DemandChange(job: int, priority: real, demand: int) returns (ev: Option<Event>)
      requires MayCall(View(), OnDemandChange(job, priority, demand))
      modifies `rootEpochs, `issued
      ensures var c := OnDemandChange(job, priority, demand);
              ev == Issue(old(View()), c) && View() == AfterCall(old(View()), c)
      ensures ev == Some(Event(job, old(rootEpochs)[job] + 1, demand, priority))
      ensures rootEpochs == old(rootEpochs)[job := old(rootEpochs)[job] + 1]
    {
      rootEpochs := rootEpochs[job := rootEpochs[job] + 1];
      ev := Some(Event(job, rootEpochs[job], demand, priority));
      issued := issued + {ev.value};
    }

    /** A suspended root keeps a demand of one. */
    method Suspend(job: int, isRoot: bool, priority: real) returns (ev: Option<Event>)
      requires MayCall(View(), OnSuspend(job, isRoot, priority))
      modifies this
      ensures var c := OnSuspend(job, isRoot, priority);
              ev == Issue(old(View()), c) && View() == AfterCall(old(View()), c)
      ensures ev == if isRoot then Some(Event(job, old(rootEpochs)[job] + 1, 1, priority)) else None
      ensures rootEpochs == if isRoot then old(rootEpochs)[job := old(rootEpochs)[job] + 1] else old(rootEpochs)
    {
      ev := None;
      if activeJobId == job { activeJobId := -1; }
      if !isRoot { return; }
      rootEpochs := rootEpochs[job := rootEpochs[job] + 1];
      ev := Some(Event(job, rootEpochs[job], 1, priority));
      issued := issued + {ev.value};
    }

    /** The end of a root is announced once, and its counter is given up. */
    method Terminate(job: int, isRoot: bool) returns (ev: Option<Event>)
      modifies this
      ensures var c := OnTerminate(job, isRoot); ev == Issue(old(View()), c) && View() == AfterCall(old(View()), c)
      ensures ev == if isRoot && job in old(rootEpochs) then Some(Event(job, INT32_MAX, 0, 0.0)) else None
      ensures rootEpochs == if ev.Some? then old(rootEpochs) - {job} else old(rootEpochs)
    {
      ev := None;
      if activeJobId == job { activeJobId := -1; }
      if !isRoot || job !in rootEpochs { return; }
      ev := Some(EndEvent(job));
      issued := issued + {ev.value};
      rootEpochs := rootEpochs - {job};
    }
  }
}
