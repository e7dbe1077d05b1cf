/**
 Counting idle workers: every worker reports its own status and those of its children towards the root of the
 current epoch. Once nothing is left to report, the root counts every idle worker exactly once.
 */
module IdleCounts {
  import opened Basics
  import opened Routing
  import opened RoutingTree

  datatype Report = Report(epoch: int, numIdle: int)

  /** What a worker knows: the statuses its children reported in the epoch, and whether its own changed since. */
  datatype Member = Member(epoch: int, statuses: map<int, int>, dirty: bool, idle: bool)

  function SumBelow(statuses: map<int, int>, k: nat): int {
    if k == 0 then 0 else SumBelow(statuses, k - 1) + if k - 1 in statuses then statuses[k - 1] else 0
  }

  function Aggregate(m: Member, n: nat): int { (if m.idle then 1 else 0) + SumBelow(m.statuses, n) }

  /** A newer epoch makes all statuses obsolete. */
  function Renewed(m: Member, epoch: int): Member {
    if epoch > m.epoch then m.(epoch := epoch, statuses := map[], dirty := true) else m
  }

  function Stored(m: Member, source: int, r: Report): Member {
    if r.epoch < m.epoch then m
    else var m' := Renewed(m, r.epoch); m'.(statuses := m'.statuses[source := r.numIdle], dirty := true)
  }

  /** What an advance sends to the parent. */
  function Outgoing(m: Member, isRoot: bool, n: nat): Option<Report> {
    if m.dirty && !isRoot then Some(Report(m.epoch, Aggregate(m, n))) else None
  }

  // ----- the object -------------------------------------------------------------------------------

  class CollectiveAssignment {
    const rank: nat
    const numWorkers: nat
    const hash: int -> nat
    var epoch: int
    var childStatuses: map<int, int>
    var statusDirty: bool

    ghost predicate Valid()
      reads this
    {
      rank < numWorkers && forall c :: c in childStatuses ==> 0 <= c < numWorkers
    }

    ghost function View(idle: bool): Member
      reads this
    {
      Member(epoch, childStatuses, statusDirty, idle)
    }

    constructor (rank: nat, numWorkers: nat, hash: int -> nat)
      requires rank < numWorkers
      ensures Valid() && this.rank == rank && this.numWorkers == numWorkers && this.hash == hash
      ensures forall idle :: View(idle) == Member(-1, map[], true, idle)
    {
      this.rank, this.numWorkers, this.hash := rank, numWorkers, hash;
      epoch, childStatuses, statusDirty := -1, map[], true;
    }

    method GetAggregatedStatus(idle: bool) returns (numIdle: int)
      requires Valid()
      ensures numIdle == Aggregate(View(idle), numWorkers)
    {
      numIdle := if idle then 1 else 0;
      var todo := childStatuses.Keys;
      ghost var rest := childStatuses;
      while todo != {}
        invariant rest.Keys == todo && rest.Items <= childStatuses.Items
        invariant numIdle + SumBelow(rest, numWorkers) == Aggregate(View(idle), numWorkers)
        decreases todo
      {
        ghost var w := SomeElement(todo);
        var c :| c in todo;
        assert (c, rest[c]) in rest.Items;
        numIdle := numIdle + childStatuses[c];
        SumWithout(rest, c, numWorkers);
        rest := rest - {c};
        todo := todo - {c};
      }
      NothingToSum(rest, numWorkers);
    }

    /** Enters a newer epoch; a changed status is reported to the parent, unless this is the root. */
    method Advance(epoch: int, idle: bool) returns (sent: Option<Report>)
      requires Valid()
      modifies this
      ensures Valid() && View(idle) == Renewed(old(View(idle)), epoch).(dirty := false)
      ensures var m := Renewed(old(View(idle)), epoch);
              sent == Outgoing(m, rank == CurrentRoot(hash, m.epoch, numWorkers), numWorkers)
    {
      if epoch > this.epoch {
        this.epoch := epoch;
        childStatuses := map[];
        statusDirty := true;
      }
      sent := None;
      if statusDirty {
        var numIdle := GetAggregatedStatus(idle);
        if rank != CurrentRoot(hash, this.epoch, numWorkers) { sent := Some(Report(this.epoch, numIdle)); }
        statusDirty := false;
      }
    }

    /** The status of a child: obsolete ones are dropped, and one of a newer epoch starts that epoch. */
    method HandleStatus(source: nat, r: Report)
      requires Valid() && source < numWorkers
      modifies this
      ensures Valid() && forall idle :: View(idle) == Stored(old(View(idle)), source, r)
    {
      if r.epoch < epoch { return; }
      if r.epoch > epoch {
        epoch := r.epoch;
        childStatuses := map[];
        statusDirty := true;
      }
      childStatuses := childStatuses[source := r.numIdle];
      statusDirty := true;
    }
  }

  lemma {:induction false} SumWithout(statuses: map<int, int>, c: int, k: nat)
    requires c in statuses
    ensures SumBelow(statuses, k) == SumBelow(statuses - {c}, k) + if 0 <= c < k then statuses[c] else 0
  {
    if k > 0 { SumWithout(statuses, c, k - 1); }
  }

  lemma {:induction false} NothingToSum(statuses: map<int, int>, k: nat)
    requires statuses.Keys == {}
    ensures SumBelow(statuses, k) == 0
  {
    if k > 0 {
      assert k - 1 !in statuses.Keys;
      NothingToSum(statuses, k - 1);
    }
  }

  // ----- all workers ------------------------------------------------------------------------------

  /** The routing tables of all workers and the hash that selects the root of an epoch. */
  datatype Trees = Trees(tables: seq<seq<int>>, hash: int -> nat) {
    ghost predicate Valid() {
      && |tables| > 0 && (forall w :: 0 <= w < |tables| ==> |tables[w]| == |tables|)
      && (forall w, r :: 0 <= w < |tables| && 0 <= r < |tables| ==> 0 <= tables[w][r] < |tables|)
      && (forall w, r :: 0 <= w < |tables| && 0 <= r < |tables| && w != r ==> tables[w][r] != w)
    }
    ghost function Root(epoch: int): nat
      requires Valid()
    {
      CurrentRoot(hash, epoch, |tables|)
    }
    ghost function Parent(epoch: int, w: nat): nat
      requires Valid() && w < |tables|
    {
      tables[w][Root(epoch)]
    }
  }

  /** Routing tables of a hop graph are such trees. */
  lemma {:induction false} TablesAreTrees(perms: seq<seq<int>>, t: Trees)
    requires |t.tables| > 0 && AllTables(perms, |t.tables|, t.tables)
    ensures t.Valid()
  {
    var n := |t.tables|;
    forall w | 0 <= w < n ensures |t.tables[w]| == n { assert RoutingTable(perms, n, w, t.tables[w]); }
    forall w: nat, r: nat | w < n && r < n ensures 0 <= t.tables[w][r] < n && (w != r ==> t.tables[w][r] != w) {
      var depth := TablesFormTree(perms, n, t.tables, r);
      hide AllTables;
      assert Parents(t.tables, r)[w] == t.tables[w][r];
    }
  }

  /** `links[c][d]` holds the reports on their way from `c` to `d`, which do not overtake each other. */
  datatype Net = Net(members: seq<Member>, links: seq<seq<seq<Report>>>)

  datatype Step =
    | Change(w: nat, idle: bool)
    | Advance(w: nat, epoch: int)
    | Receive(c: nat, d: nat)

  ghost predicate Shaped(t: Trees, s: Net) {
    && t.Valid() && |s.members| == |t.tables| == |s.links|
    && forall c :: 0 <= c < |s.links| ==> |s.links[c]| == |t.tables|
  }

  ghost predicate Initial(t: Trees, s: Net) {
    && Shaped(t, s)
    && (forall w :: 0 <= w < |s.members| ==> s.members[w] == Member(-1, map[], true, s.members[w].idle))
    && (forall c, d :: 0 <= c < |s.links| && 0 <= d < |s.links[c]| ==> s.links[c][d] == [])
  }

  ghost predicate Enabled(t: Trees, s: Net, step: Step) {
    && Shaped(t, s)
    && match step
       case Change(w, _) => w < |s.members|
       case Advance(w, _) => w < |s.members|
       case Receive(c, d) => c < |s.links| && d < |s.links[c]| && |s.links[c][d]| > 0
  }

  ghost function WithLink(s: Net, c: nat, d: nat, link: seq<Report>): Net
    requires c < |s.links| && d < |s.links[c]|
  {
    s.(links := s.links[c := s.links[c][d := link]])
  }

  ghost function WithMember(s: Net, w: nat, m: Member): Net
    requires w < |s.members|
  {
    s.(members := s.members[w := m])
  }

  /** A worker that stops or starts being idle marks its status as changed. */
  ghost function After(t: Trees, s: Net, step: Step): Net
    requires Enabled(t, s, step)
  {
    match step
    case Change(w, idle) => WithMember(s, w, s.members[w].(idle := idle, dirty := true))
    case Advance(w, epoch) =>
      var m := Renewed(s.members[w], epoch);
      var out := Outgoing(m, w == t.Root(m.epoch), |t.tables|);
      var s' := WithMember(s, w, m.(dirty := false));
      if out == None then s' else var p := t.Parent(m.epoch, w); WithLink(s', w, p, s.links[w][p] + [out.value])
    case Receive(c, d) =>
      var s' := WithMember(s, d, Stored(s.members[d], c, s.links[c][d][0]));
      WithLink(s', c, d, s.links[c][d][1..])
  }

  ghost predicate Run(t: Trees, trace: seq<Net>, steps: seq<Step>) {
    && |trace| == |steps| + 1 && Initial(t, trace[0])
    && forall i :: 0 <= i < |steps| ==> Enabled(t, trace[i], steps[i]) && trace[i + 1] == After(t, trace[i], steps[i])
  }

  // ----- the invariant -------------------------------------------------------------------------------

  /** Reports go to the parent of their epoch, in the order of epochs. */
  ghost predicate Addressed(t: Trees, c: nat, d: nat, m: Member, link: seq<Report>)
    requires t.Valid() && c < |t.tables|
  {
    && (forall i :: 0 <= i < |link| ==>
          link[i].epoch <= m.epoch && d == t.Parent(link[i].epoch, c) && c != t.Root(link[i].epoch))
    && (forall i, k :: 0 <= i < k < |link| ==> link[i].epoch <= link[k].epoch)
  }

  /** The last report of this epoch is on its way. */
  ghost predicate Pending(m: Member, link: seq<Report>) { |link| > 0 && link[|link| - 1].epoch == m.epoch }

  /** A status that has not changed since is known to the parent, or on its way, or the parent is in a newer epoch. */
  ghost predicate Reports(c: nat, m: Member, parent: Member, link: seq<Report>, n: nat) {
    || m.dirty
    || (if Pending(m, link) then link[|link| - 1].numIdle == Aggregate(m, n)
        else parent.epoch > m.epoch
             || (parent.epoch == m.epoch && c in parent.statuses && parent.statuses[c] == Aggregate(m, n)))
  }

  ghost predicate OnlyChildren(t: Trees, d: nat, m: Member)
    requires t.Valid()
  {
    forall c: int :: c in m.statuses ==>
      0 <= c < |t.tables| && c != t.Root(m.epoch) && t.Parent(m.epoch, c) == d
  }

  ghost predicate StatusKnown(t: Trees, s: Net, c: nat)
    requires Shaped(t, s) && c < |s.members|
  {
    var m := s.members[c];
    var p := t.Parent(m.epoch, c);
    c == t.Root(m.epoch) || Reports(c, m, s.members[p], s.links[c][p], |t.tables|)
  }

  ghost predicate Invariant(t: Trees, s: Net) {
    && Shaped(t, s)
    && (forall c: nat, d: nat :: c < |s.links| && d < |s.links[c]| ==> Addressed(t, c, d, s.members[c], s.links[c][d]))
    && (forall d: nat :: d < |s.members| ==> OnlyChildren(t, d, s.members[d]))
    && (forall c: nat :: c < |s.members| ==> StatusKnown(t, s, c))
  }

  /** A parent that is not older and has not lost the child's status, unless it is in a newer epoch. */
  ghost predicate StillKnows(c: nat, parent: Member, parent': Member) {
    || parent'.epoch > parent.epoch
    || (parent'.epoch == parent.epoch
        && (c in parent.statuses ==> c in parent'.statuses && parent'.statuses[c] == parent.statuses[c]))
  }

  lemma {:induction false} ChangeKeeps(t: Trees, s: Net, w: nat, idle: bool)
    requires Invariant(t, s) && w < |s.members|
    ensures Invariant(t, After(t, s, Change(w, idle)))
  {
    hide SumBelow;
    var s' := After(t, s, Change(w, idle));
    forall c: nat, d: nat | c < |s'.links| && d < |s'.links[c]|
      ensures Addressed(t, c, d, s'.members[c], s'.links[c][d])
    {
      assert Addressed(t, c, d, s.members[c], s.links[c][d]);
    }
    forall d: nat | d < |s'.members| ensures OnlyChildren(t, d, s'.members[d]) {
      assert OnlyChildren(t, d, s.members[d]);
    }
    forall c: nat | c < |s'.members| ensures StatusKnown(t, s', c) {
      assert StatusKnown(t, s, c);
    }
  }

  /** Another worker's status stays known when one member, perhaps its parent, and links of others change. */
  lemma {:induction false} OthersKnown(t: Trees, s: Net, s': Net, w: nat, c: nat)
    requires Shaped(t, s) && Shaped(t, s') && c < |s.members| && w < |s.members| && StatusKnown(t, s, c)
    requires s'.members[c] == s.members[c] && s'.links[c] == s.links[c]
    requires forall v :: 0 <= v < |s.members| && v != w ==> s'.members[v] == s.members[v]
    requires StillKnows(c, s.members[w], s'.members[w])
    ensures StatusKnown(t, s', c)
  {
    hide Aggregate;
  }

  lemma {:induction false} AdvanceKeeps(t: Trees, s: Net, w: nat, epoch: int)
    requires Invariant(t, s) && w < |s.members|
    ensures Invariant(t, After(t, s, Advance(w, epoch)))
  {
    hide Aggregate;
    var s', m := After(t, s, Advance(w, epoch)), Renewed(s.members[w], epoch);
    forall c: nat, d: nat | c < |s'.links| && d < |s'.links[c]|
      ensures Addressed(t, c, d, s'.members[c], s'.links[c][d])
    {
      assert Addressed(t, c, d, s.members[c], s.links[c][d]);
    }
    forall d: nat | d < |s'.members| ensures OnlyChildren(t, d, s'.members[d]) {
      assert OnlyChildren(t, d, s.members[d]);
    }
    forall c: nat | c < |s'.members| ensures StatusKnown(t, s', c) {
      assert StatusKnown(t, s, c);
      if c == w { AdvanceReports(t, s, w, epoch); } else { OthersKnown(t, s, s', w, c); }
    }
  }

  lemma {:induction false} AdvanceReports(t: Trees, s: Net, w: nat, epoch: int)
    requires Shaped(t, s) && w < |s.members| && StatusKnown(t, s, w)
    ensures StatusKnown(t, After(t, s, Advance(w, epoch)), w)
  {
    var s', m := After(t, s, Advance(w, epoch)), Renewed(s.members[w], epoch);
    assert Aggregate(m.(dirty := false), |t.tables|) == Aggregate(m, |t.tables|);
    hide Aggregate;
    var p := t.Parent(m.epoch, w);
    if m.dirty && w != t.Root(m.epoch) {
      var link := s'.links[w][p];
      assert link == s.links[w][p] + [Report(m.epoch, Aggregate(m, |t.tables|))];
    } else if w != t.Root(m.epoch) {
      assert m == s.members[w] && s'.links == s.links && p != w;
    }
  }

  lemma {:induction false} ReceiveKeeps(t: Trees, s: Net, c0: nat, d0: nat)
    requires Invariant(t, s) && Enabled(t, s, Receive(c0, d0))
    ensures Invariant(t, After(t, s, Receive(c0, d0)))
  {
    hide Aggregate;
    var s', r := After(t, s, Receive(c0, d0)), s.links[c0][d0][0];
    assert Addressed(t, c0, d0, s.members[c0], s.links[c0][d0]);
    assert c0 != d0 && d0 == t.Parent(r.epoch, c0) && c0 != t.Root(r.epoch);
    forall c: nat, d: nat | c < |s'.links| && d < |s'.links[c]|
      ensures Addressed(t, c, d, s'.members[c], s'.links[c][d])
    {
      assert Addressed(t, c, d, s.members[c], s.links[c][d]);
    }
    forall d: nat | d < |s'.members| ensures OnlyChildren(t, d, s'.members[d]) {
      assert OnlyChildren(t, d, s.members[d]);
    }
    forall c: nat | c < |s'.members| ensures StatusKnown(t, s', c) {
      assert StatusKnown(t, s, c);
      if c == c0 {
        ReceiveReports(t, s, c0, d0);
      } else if c == d0 {
        OwnKnown(t, s, s', d0, r, c0);
      } else {
        OthersKnown(t, s, s', d0, c);
      }
    }
  }

  /** The receiver's own status has changed, unless the report was obsolete. */
  lemma {:induction false} OwnKnown(t: Trees, s: Net, s': Net, d: nat, r: Report, c: nat)
    requires Shaped(t, s) && Shaped(t, s') && d < |s.members| && StatusKnown(t, s, d)
    requires s'.members == s.members[d := Stored(s.members[d], c, r)] && s'.links[d] == s.links[d]
    ensures StatusKnown(t, s', d)
  {
    hide Aggregate;
    var m := s.members[d];
    if r.epoch < m.epoch { assert s'.members == s.members; }
  }

  /** The sender's status is known after the receipt as before. */
  lemma {:induction false} ReceiveReports(t: Trees, s: Net, c: nat, d: nat)
    requires Invariant(t, s) && Enabled(t, s, Receive(c, d)) && c != d
    ensures StatusKnown(t, After(t, s, Receive(c, d)), c)
  {
    hide Aggregate;
    var s', m, link := After(t, s, Receive(c, d)), s.members[c], s.links[c][d];
    assert StatusKnown(t, s, c) && Addressed(t, c, d, m, link);
    assert s'.members[c] == m && s'.links[c][d] == link[1..];
    var p := t.Parent(m.epoch, c);
    if c != t.Root(m.epoch) && !m.dirty && p == d {
      assert |link| > 1 ==> link[1..][|link| - 2] == link[|link| - 1];
    }
  }

  lemma {:induction false} StepKeepsInvariant(t: Trees, s: Net, step: Step)
    requires Invariant(t, s) && Enabled(t, s, step)
    ensures Invariant(t, After(t, s, step))
  {
    hide Invariant, After;
    match step
    case Change(w, idle) => ChangeKeeps(t, s, w, idle);
    case Advance(w, epoch) => AdvanceKeeps(t, s, w, epoch);
    case Receive(c, d) => ReceiveKeeps(t, s, c, d);
  }

  lemma {:induction false} RunKeepsInvariant(t: Trees, trace: seq<Net>, steps: seq<Step>, k: nat)
    requires Run(t, trace, steps) && k < |trace|
    ensures Invariant(t, trace[k])
  {
    hide After;
    if k == 0 {
      hide Aggregate;
    } else {
      RunKeepsInvariant(t, trace, steps, k - 1);
      hide Invariant;
      StepKeepsInvariant(t, trace[k - 1], steps[k - 1]);
    }
  }

  // ----- the count ------------------------------------------------------------------------------------

  /** All workers are in one epoch, nothing has changed since the last reports, and none is on its way. */
  ghost predicate Quiet(s: Net, epoch: int) {
    && (forall w :: 0 <= w < |s.members| ==> s.members[w].epoch == epoch && !s.members[w].dirty)
    && (forall c, d :: 0 <= c < |s.links| && 0 <= d < |s.links[c]| ==> s.links[c][d] == [])
  }

  ghost function Idles(s: Net): (r: seq<int>)
    ensures |r| == |s.members| && forall w :: 0 <= w < |r| ==> r[w] == if s.members[w].idle then 1 else 0
  {
    seq(|s.members|, w requires 0 <= w < |s.members| => if s.members[w].idle then 1 else 0)
  }

  ghost function Aggregates(s: Net): (r: seq<int>)
    ensures |r| == |s.members| && forall w :: 0 <= w < |r| ==> r[w] == Aggregate(s.members[w], |s.members|)
  {
    seq(|s.members|, w requires 0 <= w < |s.members| => Aggregate(s.members[w], |s.members|))
  }

  /** In a quiet network a worker's statuses are exactly the aggregates of its children. */
  lemma {:induction false} QuietStatuses(t: Trees, s: Net, epoch: int, w: nat, c: nat)
    requires Invariant(t, s) && Quiet(s, epoch) && w < |s.members| && c < |s.members|
    ensures c in s.members[w].statuses <==> c != t.Root(epoch) && t.Parent(epoch, c) == w
    ensures c in s.members[w].statuses ==> s.members[w].statuses[c] == Aggregate(s.members[c], |s.members|)
  {
    hide Aggregate;
    assert OnlyChildren(t, w, s.members[w]) && StatusKnown(t, s, c);
  }

  lemma {:induction false} QuietSums(t: Trees, s: Net, epoch: int, w: nat, k: nat)
    requires Invariant(t, s) && Quiet(s, epoch) && w < |s.members| && k <= |s.members|
    ensures SumBelow(s.members[w].statuses, k)
         == Reported(Parents(t.tables, t.Root(epoch)), t.Root(epoch), Aggregates(s), w, k)
  {
    if k > 0 {
      QuietSums(t, s, epoch, w, k - 1);
      QuietStatuses(t, s, epoch, w, k - 1);
      hide Invariant, Quiet;
    }
  }

  /**
   In every run, once all workers are in one epoch and no status is left to report, the root of that epoch counts
   every idle worker exactly once.
   */
  lemma {:induction false} IdleCountIsExact(perms: seq<seq<int>>, t: Trees, trace: seq<Net>, steps: seq<Step>, k: nat,
      epoch: int)
    requires AllTables(perms, |t.tables|, t.tables) && Run(t, trace, steps) && k < |trace| && Quiet(trace[k], epoch)
    ensures Shaped(t, trace[k])
    ensures Aggregate(trace[k].members[t.Root(epoch)], |t.tables|) == Total(Idles(trace[k]), |t.tables|)
  {
    var s, n, root := trace[k], |t.tables|, t.Root(epoch);
    RunKeepsInvariant(t, trace, steps, k);
    assert Shaped(t, s);
    hide Invariant, Run, AllTables;
    forall w: nat | w < n
      ensures SumBelow(s.members[w].statuses, n) == Reported(Parents(t.tables, root), root, Aggregates(s), w, n)
    {
      QuietSums(t, s, epoch, w, n);
    }
    var depth := TablesFormTree(perms, n, t.tables, root);
    assert UpToDate(Parents(t.tables, root), root, Idles(s), Aggregates(s));
    RootCountsAllIdle(Parents(t.tables, root), depth, n, root, Idles(s), Aggregates(s));
  }
}
