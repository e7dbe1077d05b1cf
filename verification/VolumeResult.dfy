/**
 The volume calculation as a function: what every pass over the entries and every iteration of the search makes of
 the state before, so that equal inputs have equal results on all workers.
 */
module VolumeResult {
  import opened Basics
  import opened Sums
  import opened FairShare
  import opened VolumeSearch

  function Abs(x: int): int { if x < 0 then -x else x }

  /** The entries with their caches, the previous interval, and what the dismissed jobs add up to. */
  datatype Progress = Progress(
    entries: seq<Entry>, prevLb: real, prevUb: real, dismissed: int, base: int, diff: int)

  // ----- one evaluation ------------------------------------------------------------------------

  function WithBounds(es: seq<Entry>, left: real, right: real): (r: seq<Entry>)
    ensures |r| == |es|
    ensures forall i :: 0 <= i < |es| ==> r[i] == WithBound(es[i], left, right)
  {
    seq(|es|, i requires 0 <= i < |es| => WithBound(es[i], left, right))
  }

  function WithBound(e: Entry, left: real, right: real): Entry {
    e.(volumeLower := e.Share().Volume(left), volumeUpper := e.Share().Volume(right))
  }

  /** Where an evaluation takes place. */
  datatype Place = Place(mid: real, leftHalf: bool, rightHalf: bool, available: int)

  /** One entry is examined: dismissed if its volume no longer varies, otherwise evaluated. */
  function Examine(p: Progress, sum: int, i: int, at: Place): (Progress, int) {
    if !(0 <= p.dismissed <= i < |p.entries|) then (p, sum)
    else
      var job := Refreshed(p.entries[i], at.leftHalf, at.rightHalf);
      if job.volumeLower == job.volumeUpper then
        var settled := job.(volume := job.volumeLower);
        (p.(entries := Dismiss(p.entries[i := settled], p.dismissed, i), dismissed := p.dismissed + 1,
            base := p.base + job.volumeLower),
         sum + job.volumeLower)
      else
        var evaluated := job.(volume := job.Share().Volume(at.mid));
        (p.(entries := p.entries[i := evaluated], diff := Max(p.diff, job.volumeUpper - job.volumeLower)),
         if sum <= at.available then sum + evaluated.volume else sum)
  }

  function Examined(p: Progress, sum: int, start: int, i: int, at: Place): (Progress, int)
    decreases i - start
  {
    if i <= start then (p, sum)
    else var (q, s) := Examined(p, sum, start, i - 1, at); Examine(q, s, i - 1, at)
  }

  function Prepared(p: Progress, left: real, right: real): Progress {
    (if p.prevLb == -1.0 then p.(entries := WithBounds(p.entries, left, right)) else p).(diff := 0)
  }

  /** The state after an evaluation, and the excess or a negative number. */
  function Evaluation(p: Progress, mid: real, left: real, right: real, available: int): (Progress, int) {
    var q := Prepared(p, left, right);
    var at := Place(mid, left == p.prevLb, right == p.prevUb, available);
    var (r, sum) := Examined(q, p.base, p.dismissed, |p.entries|, at);
    (r.(prevLb := left, prevUb := right), available - sum)
  }

  // ----- the search ------------------------------------------------------------------------------

  /** The remaining jobs are sorted, and the first ones get a worker more than at the lower bound. */
  function HandedOut(hash: int -> int, es: seq<Entry>, dismissed: int, excess: int): seq<Entry>
    requires 0 <= dismissed <= |es|
  {
    var s := es[..dismissed] + SortByPriority(hash, es[dismissed..]);
    seq(|s|, k requires 0 <= k < |s| => if k < dismissed then s[k] else WithBonus(s[k], k - dismissed < excess))
  }

  function WithBonus(e: Entry, bonus: bool): Entry { e.(volume := e.volumeLower + if bonus then 1 else 0) }

  datatype Interval = Interval(lower: real, upper: real, mid: real, excessAtLeft: int)

  function Narrowed(v: Interval, center: real, excess: int): Interval {
    var w := if excess > 0 then v.(lower := v.mid, excessAtLeft := excess)
             else if excess < 0 then v.(upper := v.mid)
             else v;
    if (v.mid == 1.0 && excess > 0 && center > v.mid) || (v.mid == 1.0 && excess < 0 && center < v.mid)
    then w.(mid := center)
    else w.(mid := (w.lower + w.upper) / 2.0)
  }

  datatype Search = Search(p: Progress, interval: Interval, bestExcess: int, done: bool)

  /** One iteration of the search. */
  function Iteration(hash: int -> int, s: Search, center: real, available: int): Search {
    if s.done then s
    else
      var (p, excess) := Evaluation(s.p, s.interval.mid, s.interval.lower, s.interval.upper, available);
      var better := s.bestExcess == -1 || Abs(excess) < Abs(s.bestExcess);
      var best := if better then excess else s.bestExcess;
      if better && best == 0 then s.(p := p, bestExcess := best, done := true)
      else if p.diff <= 1 && 0 <= p.dismissed <= |p.entries| then
        var final := HandedOut(hash, p.entries, p.dismissed, s.interval.excessAtLeft);
        s.(p := p.(entries := final), bestExcess := best, done := true)
      else Search(p, Narrowed(s.interval, center, excess), best, false)
  }

  function Iterated(hash: int -> int, s: Search, center: real, available: int, n: nat): Search {
    if n == 0 then s else Iteration(hash, Iterated(hash, s, center, available, n - 1), center, available)
  }

  /** The search ends with these entries. */
  ghost predicate EndsWith(hash: int -> int, s: Search, center: real, available: int, r: seq<Entry>) {
    exists n: nat :: Iterated(hash, s, center, available, n).done
                     && Iterated(hash, s, center, available, n).p.entries == r
  }

  lemma {:induction false} StaysDone(hash: int -> int, s: Search, center: real, available: int, n: nat, m: nat)
    requires n <= m && Iterated(hash, s, center, available, n).done
    ensures Iterated(hash, s, center, available, m) == Iterated(hash, s, center, available, n)
  {
    if n < m { StaysDone(hash, s, center, available, n, m - 1); }
  }

  lemma {:induction false} OneEnd(hash: int -> int, s: Search, center: real, available: int, r: seq<Entry>,
      q: seq<Entry>)
    requires EndsWith(hash, s, center, available, r) && EndsWith(hash, s, center, available, q)
    ensures r == q
  {
    var n: nat :| Iterated(hash, s, center, available, n).done
                  && Iterated(hash, s, center, available, n).p.entries == r;
    var m: nat :| Iterated(hash, s, center, available, m).done
                  && Iterated(hash, s, center, available, m).p.entries == q;
    hide Iterated;
    if n <= m { StaysDone(hash, s, center, available, n, m); } else { StaysDone(hash, s, center, available, m, n); }
  }

  // ----- the whole calculation -----------------------------------------------------------------------

  function FullDemands(es: seq<Entry>): (r: seq<Entry>)
    ensures |r| == |es| && forall i :: 0 <= i < |es| ==> r[i] == es[i].(volume := es[i].demand)
  {
    seq(|es|, i requires 0 <= i < |es| => es[i].(volume := es[i].demand))
  }

  ghost function Center(es: seq<Entry>): real
    requires |es| > 0
  {
    RealSum(Shares(es), CenterOf()) / |es| as real
  }

  ghost function Start(es: seq<Entry>, available: int): Search {
    Search(Progress(es, -1.0, -1.0, 0, 0, 0),
           Interval(LowestOf(es, |es|), HighestOf(es, |es|) + EPSILON, 1.0, available - |es|), -1, false)
  }

  /** What is computed from entries with fair shares. */
  ghost predicate Assigns(hash: int -> int, shared: seq<Entry>, available: int, r: seq<Entry>) {
    if Sum(Shares(shared), CappedDemand()) <= available || |shared| == 0 then r == FullDemands(shared)
    else EndsWith(hash, Start(shared, available), Center(shared), available, r)
  }

  /** What is computed from new entries. */
  ghost predicate Computes(hash: int -> int, es: seq<Entry>, available: int, r: seq<Entry>) {
    var total, sorted := RealSum(es, PriorityOf()), SortByPriority(hash, es);
    if available <= |es| then r == es
    else if |es| == 0 then r == []
    else total > 0.0 && Assigns(hash, WithFairShares(sorted, total, available), available, r)
  }

  lemma {:induction false} OneAssignment(hash: int -> int, shared: seq<Entry>, available: int, r: seq<Entry>,
      q: seq<Entry>)
    requires Assigns(hash, shared, available, r) && Assigns(hash, shared, available, q)
    ensures r == q
  {
    if !(Sum(Shares(shared), CappedDemand()) <= available || |shared| == 0) {
      hide EndsWith;
      OneEnd(hash, Start(shared, available), Center(shared), available, r, q);
    }
  }

  // ----- order of the entries ---------------------------------------------------------------------------

  ghost predicate DistinctJobs(es: seq<Entry>) {
    forall i, j :: 0 <= i < j < |es| ==> es[i].jobId != es[j].jobId
  }

  lemma {:induction false} OneFirst(hash: int -> int, a: Entry, b: Entry)
    requires !Precedes(hash, a, b) && !Precedes(hash, b, a)
    ensures a.jobId == b.jobId
  {
  }

  /** Entries of distinct jobs can be ordered in one way only. */
  lemma {:induction false} OneOrder(hash: int -> int, a: seq<Entry>, b: seq<Entry>)
    requires multiset(a) == multiset(b) && Ordered(hash, a) && Ordered(hash, b) && DistinctJobs(a)
    ensures a == b
  {
    assert |a| == |multiset(a)| == |multiset(b)| == |b|;
    if |a| > 0 {
      SameHead(hash, a, b);
      TailOrdered(hash, a);
      TailOrdered(hash, b);
      hide Ordered, DistinctJobs;
      OneOrder(hash, a[1..], b[1..]);
      assert a == [a[0]] + a[1..] && b == [b[0]] + b[1..];
    }
  }

  lemma {:induction false} TailOrdered(hash: int -> int, a: seq<Entry>)
    requires |a| > 0 && Ordered(hash, a)
    ensures Ordered(hash, a[1..]) && multiset(a[1..]) == multiset(a) - multiset{a[0]}
    ensures DistinctJobs(a) ==> DistinctJobs(a[1..])
  {
    assert a == [a[0]] + a[1..];
    hide Precedes;
  }

  lemma {:induction false} SameHead(hash: int -> int, a: seq<Entry>, b: seq<Entry>)
    requires multiset(a) == multiset(b) && Ordered(hash, a) && Ordered(hash, b) && DistinctJobs(a)
    requires |a| > 0 && |b| > 0
    ensures a[0] == b[0]
  {
    hide Precedes;
    var x, y := a[0], b[0];
    assert x in multiset(b) && y in multiset(a);
    var i :| 0 <= i < |a| && a[i] == y;
    var j :| 0 <= j < |b| && b[j] == x;
    if i > 0 && j > 0 {
      OneFirst(hash, x, y);
    }
  }

  lemma {:induction false} SortedAlike(hash: int -> int, a: seq<Entry>, b: seq<Entry>)
    requires multiset(a) == multiset(b) && DistinctJobs(a)
    ensures SortByPriority(hash, a) == SortByPriority(hash, b)
  {
    var s := SortByPriority(hash, a);
    DistinctPermuted(a, s);
    hide SortByPriority;
    OneOrder(hash, s, SortByPriority(hash, b));
  }

  lemma {:induction false} DistinctPermuted(a: seq<Entry>, b: seq<Entry>)
    requires multiset(a) == multiset(b) && DistinctJobs(a)
    ensures DistinctJobs(b)
  {
    assert |a| == |multiset(a)| == |multiset(b)| == |b|;
    forall i, j | 0 <= i < j < |b| ensures b[i].jobId != b[j].jobId {
      if b[i].jobId == b[j].jobId {
        assert b[i] in multiset(a) && b[j] in multiset(a);
        var k :| 0 <= k < |a| && a[k] == b[i];
        var l :| 0 <= l < |a| && a[l] == b[j];
        assert k == l;
        Twice(b, i, j);
        Once(a, k);
      }
    }
  }

  lemma {:induction false} Twice(s: seq<Entry>, i: nat, j: nat)
    requires i < j < |s| && s[i] == s[j]
    ensures multiset(s)[s[i]] >= 2
  {
    assert s == s[..j] + [s[j]] + s[j + 1..];
    assert s[i] in s[..j] && s[i] in multiset(s[..j]);
    assert multiset(s) == multiset(s[..j]) + multiset{s[j]} + multiset(s[j + 1..]);
  }

  lemma {:induction false} Once(s: seq<Entry>, k: nat)
    requires k < |s| && DistinctJobs(s)
    ensures multiset(s)[s[k]] == 1
  {
    assert s == s[..k] + [s[k]] + s[k + 1..];
    assert multiset(s) == multiset(s[..k]) + multiset{s[k]} + multiset(s[k + 1..]);
    assert s[k] !in s[..k] && s[k] !in s[k + 1..];
  }

  /** The volume that the entries give to a job. */
  ghost predicate Gets(r: seq<Entry>, job: int, volume: int) {
    exists i :: 0 <= i < |r| && r[i].jobId == job && r[i].volume == volume
  }

  /** The result does not depend on the order in which the jobs are listed. */
  lemma {:induction false} OneResult(hash: int -> int, a: seq<Entry>, b: seq<Entry>, available: int, r: seq<Entry>,
      q: seq<Entry>)
    requires multiset(a) == multiset(b) && DistinctJobs(a)
    requires Computes(hash, a, available, r) && Computes(hash, b, available, q)
    ensures forall job, volume :: Gets(r, job, volume) <==> Gets(q, job, volume)
  {
    assert |a| == |multiset(a)| == |multiset(b)| == |b|;
    if available <= |a| {
      forall job, volume ensures Gets(r, job, volume) <==> Gets(q, job, volume) {
        GetsAlike(r, q, job, volume);
        GetsAlike(q, r, job, volume);
      }
    } else if |a| > 0 {
      SortedAlike(hash, a, b);
      RealSumPermutation(a, b, PriorityOf());
      hide Assigns, SortByPriority;
      var total := RealSum(a, PriorityOf());
      OneAssignment(hash, WithFairShares(SortByPriority(hash, a), total, available), available, r, q);
    }
  }

  lemma {:induction false} GetsAlike(r: seq<Entry>, q: seq<Entry>, job: int, volume: int)
    requires multiset(r) == multiset(q)
    ensures Gets(r, job, volume) ==> Gets(q, job, volume)
  {
    if Gets(r, job, volume) {
      var i :| 0 <= i < |r| && r[i].jobId == job && r[i].volume == volume;
      assert r[i] in multiset(q);
    }
  }
}
