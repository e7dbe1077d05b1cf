/**
 Volume of one job as a function of the common fair-share multiplier, the entries of the volume
 calculator, and what it means for an assignment of volumes to be fair. Multipliers, priorities and
 fair shares are exact reals.
 */
module FairShare {
  import opened Basics
  import opened Sums

  const EPSILON: real := 0.000001

  function RealMin(a: real, b: real): real { if a <= b then a else b }
  function RealMax(a: real, b: real): real { if a <= b then b else a }

  /** Conversion of a floating-point value to an integer: rounds towards zero. */
  function Truncate(x: real): int { if x >= 0.0 then x.Floor else -((-x).Floor) }

  /** A number of workers, rounded down, but at least one and at most the demand. */
  function Clamped(demand: int, workers: real): int { Max(1, Min(demand, workers.Floor)) }

  /** The part of an entry that identifies a job and determines its volume at any multiplier. */
  datatype JobShare = JobShare(jobId: int, priority: real, demand: int, fairShare: real) {
    predicate WellFormed() { priority > 0.0 && demand >= 1 && fairShare > 0.0 }

    /** The multiple of the fair share. */
    function Entitled(alpha: real): real { alpha * fairShare }

    /** The multiple of the fair share, rounded down, but at least one worker and at most the demand. */
    function Volume(alpha: real): int { Clamped(demand, Entitled(alpha)) }
  }

  datatype Entry = Entry(
    jobId: int, demand: int, originalDemand: int, priority: real, fairShare: real,
    volumeLower: int, volume: int, volumeUpper: int)
  {
    function Share(): JobShare { JobShare(jobId, priority, demand, fairShare) }

    /** As computed, with two shortcuts that avoid overflowing products. */
    function GetVolume(alpha: real): (v: int)
      requires Share().WellFormed()
      ensures v == Share().Volume(alpha)
    {
      ShortcutsAgree(Share(), alpha);
      var fairVolume :=
        if alpha >= demand as real && fairShare >= 1.0 then demand
        else if alpha >= 1.0 && fairShare >= demand as real then demand
        else Truncate(Share().Entitled(alpha));
      Max(1, Min(demand, fairVolume))
    }

    function MultiplierLowerBound(): real
      requires fairShare > 0.0
    {
      1.0 / fairShare
    }

    function MultiplierUpperBound(): real
      requires fairShare > 0.0
    {
      demand as real / fairShare
    }
  }

  /** A fresh entry starts with volume one. */
  function NewEntry(jobId: int, demand: int, priority: real): Entry {
    Entry(jobId, demand, demand, priority, 0.0, 1, 1, 1)
  }

  /** Exchange of a dismissed entry with the first active one; `originalDemand` stays where it is, and
      the dismissed entry takes over the cached bounds of the slot it moves to. */
  function DismissedInto(dismissed: Entry, other: Entry): (Entry, Entry) {
    (other.(originalDemand := dismissed.originalDemand),
     dismissed.(originalDemand := other.originalDemand,
                volumeLower := other.volumeLower, volumeUpper := other.volumeUpper))
  }

  function Shares(es: seq<Entry>): (ss: seq<JobShare>)
    ensures |ss| == |es|
    ensures forall i :: 0 <= i < |es| ==> ss[i] == es[i].Share()
  {
    seq(|es|, i requires 0 <= i < |es| => es[i].Share())
  }

  ghost predicate AllWellFormed(ss: seq<JobShare>) {
    forall i :: 0 <= i < |ss| ==> ss[i].WellFormed()
  }

  ghost function VolumeAt(alpha: real): JobShare -> int { (s: JobShare) => s.Volume(alpha) }
  ghost function AssignedVolume(): Entry -> int { (e: Entry) => e.volume }
  ghost function OriginalDemand(): Entry -> int { (e: Entry) => e.originalDemand }
  ghost function CappedDemand(): JobShare -> int { (s: JobShare) => s.demand }
  ghost function PriorityOf(): Entry -> real { (e: Entry) => e.priority }
  ghost function FairShareOf(): JobShare -> real { (s: JobShare) => s.fairShare }

  /** Workers used when every job is evaluated from scratch at one multiplier. */
  ghost function Utilization(ss: seq<JobShare>, alpha: real): int { Sum(ss, VolumeAt(alpha)) }

  ghost function Assigned(es: seq<Entry>): int { Sum(es, AssignedVolume()) }

  // ----- volume of one job -------------------------------------------------

  lemma {:induction false} ProductSign(x: real, y: real)
    requires x >= 0.0 && y >= 0.0
    ensures x * y >= 0.0
  {
  }

  lemma {:induction false} ProductMonotone(a: real, b: real, f: real)
    requires a <= b && f >= 0.0
    ensures a * f <= b * f
  {
    var d := b - a;
    ProductSign(d, f);
    assert b * f == (a + d) * f == a * f + d * f;
  }

  lemma {:induction false} ClampedMonotone(demand: int, x: real, y: real)
    requires x <= y && demand >= 1
    ensures 1 <= Clamped(demand, x) <= Clamped(demand, y) <= demand
    ensures y >= demand as real ==> Clamped(demand, y) == demand
    ensures x <= 1.0 ==> Clamped(demand, x) == 1
  {
  }

  lemma {:induction false} ProductAtLeast(a: real, b: real, d: real, x: real)
    requires a >= d > 0.0 && b >= 1.0 && x == a * b
    ensures x >= d
  {
    var e := b - 1.0;
    ProductSign(a, e);
    assert a * b == a * (1.0 + e) == a + a * e;
  }

  lemma {:induction false} ShortcutsAgree(s: JobShare, alpha: real)
    requires s.WellFormed()
    ensures alpha >= s.demand as real && s.fairShare >= 1.0 ==> s.Volume(alpha) == s.demand
    ensures alpha >= 1.0 && s.fairShare >= s.demand as real ==> s.Volume(alpha) == s.demand
    ensures s.Entitled(alpha) < 0.0 ==> s.Volume(alpha) == 1
  {
    ShortcutsEntitle(s, alpha);
    ClampedMonotone(s.demand, s.Entitled(alpha), s.Entitled(alpha));
    hide JobShare.Entitled, Clamped;
  }

  lemma {:induction false} ShortcutsEntitle(s: JobShare, alpha: real)
    requires s.WellFormed()
    ensures alpha >= s.demand as real && s.fairShare >= 1.0 ==> s.Entitled(alpha) >= s.demand as real
    ensures alpha >= 1.0 && s.fairShare >= s.demand as real ==> s.Entitled(alpha) >= s.demand as real
  {
    var d, f := s.demand as real, s.fairShare;
    var x := alpha * f;
    if alpha >= d && f >= 1.0 {
      ProductAtLeast(alpha, f, d, x);
    }
    if alpha >= 1.0 && f >= d {
      ProductAtLeast(f, alpha, d, x);
    }
  }

  lemma {:induction false} EntitledMonotone(s: JobShare, a: real, b: real)
    requires s.fairShare >= 0.0 && a <= b
    ensures s.Entitled(a) <= s.Entitled(b)
  {
    ProductMonotone(a, b, s.fairShare);
  }

  lemma {:induction false} VolumeMonotone(s: JobShare, a: real, b: real)
    requires s.WellFormed() && a <= b
    ensures 1 <= s.Volume(a) <= s.Volume(b) <= s.demand
  {
    hide JobShare.Entitled;
    EntitledMonotone(s, a, b);
    ClampedMonotone(s.demand, s.Entitled(a), s.Entitled(b));
  }

  /** At the multiple `c` of the reciprocal the entitlement is `c`. */
  lemma {:induction false} EntitledAtQuotient(s: JobShare, c: real)
    requires s.fairShare > 0.0
    ensures s.Entitled(c / s.fairShare) == c
  {
  }

  lemma {:induction false} VolumeAtLowerBound(s: JobShare, alpha: real)
    requires s.WellFormed() && alpha <= 1.0 / s.fairShare
    ensures s.Volume(alpha) == 1
  {
    hide JobShare.Entitled;
    EntitledMonotone(s, alpha, 1.0 / s.fairShare);
    EntitledAtQuotient(s, 1.0);
    ClampedMonotone(s.demand, s.Entitled(alpha), 1.0);
  }

  lemma {:induction false} VolumeAtUpperBound(s: JobShare, alpha: real)
    requires s.WellFormed() && alpha >= s.demand as real / s.fairShare
    ensures s.Volume(alpha) == s.demand
  {
    hide JobShare.Entitled;
    var d := s.demand as real;
    EntitledMonotone(s, d / s.fairShare, alpha);
    EntitledAtQuotient(s, d);
    ClampedMonotone(s.demand, d, s.Entitled(alpha));
  }

  /** Volumes two apart force the multipliers more than one fair-share unit apart. */
  lemma {:induction false} WideGap(s: JobShare, a: real, b: real, width: real)
    requires s.WellFormed() && a <= b && width == b - a
    requires s.Volume(b) - s.Volume(a) >= 2
    ensures s.Entitled(width) > 1.0
  {
    hide JobShare.Entitled;
    assert s.Volume(b) <= s.Entitled(b).Floor;
    assert s.Volume(a) >= s.Entitled(a).Floor;
    EntitledDifference(s, a, b, width);
  }

  lemma {:induction false} EntitledDifference(s: JobShare, a: real, b: real, width: real)
    requires width == b - a
    ensures s.Entitled(width) == s.Entitled(b) - s.Entitled(a)
  {
  }

  // ----- sums of volumes ---------------------------------------------------

  lemma {:induction false} AssignedAtMultiplier(es: seq<Entry>, alpha: real)
    requires forall i :: 0 <= i < |es| ==> es[i].volume == es[i].Share().Volume(alpha)
    ensures Assigned(es) == Utilization(Shares(es), alpha)
  {
    if |es| > 0 {
      var front := es[..|es| - 1];
      AssignedAtMultiplier(front, alpha);
      assert Shares(es)[..|es| - 1] == Shares(front);
    }
  }

  /** A multiplier at or below every lower bound gives one worker to each job. */
  lemma {:induction false} UtilizationAtMinimum(ss: seq<JobShare>, alpha: real)
    requires AllWellFormed(ss)
    requires forall i :: 0 <= i < |ss| ==> alpha <= 1.0 / ss[i].fairShare
    ensures Utilization(ss, alpha) == |ss|
  {
    forall i | 0 <= i < |ss| ensures VolumeAt(alpha)(ss[i]) == 1 {
      VolumeAtLowerBound(ss[i], alpha);
    }
    SumConstant(ss, VolumeAt(alpha), 1);
  }

  /** A multiplier at or above every upper bound gives each job its demand. */
  lemma {:induction false} UtilizationAtMaximum(ss: seq<JobShare>, alpha: real)
    requires AllWellFormed(ss)
    requires forall i :: 0 <= i < |ss| ==> alpha >= ss[i].demand as real / ss[i].fairShare
    ensures Utilization(ss, alpha) == Sum(ss, CappedDemand())
  {
    forall i | 0 <= i < |ss| ensures VolumeAt(alpha)(ss[i]) == CappedDemand()(ss[i]) {
      VolumeAtUpperBound(ss[i], alpha);
    }
    SumMonotone(ss, VolumeAt(alpha), CappedDemand());
    SumMonotone(ss, CappedDemand(), VolumeAt(alpha));
  }

  // ----- fairness ----------------------------------------------------------

  ghost predicate Contested(e: Entry, alpha: real, beta: real) {
    e.Share().Volume(alpha) < e.Share().Volume(beta)
  }

  /** Every job gets its volume at the common multiplier `alpha`, or one worker more where the next
      multiplier `beta` grants it; among the contested jobs higher priority is served first. */
  ghost predicate Fair(es: seq<Entry>, alpha: real, beta: real) {
    && alpha <= beta
    && (forall i :: 0 <= i < |es| ==>
          && es[i].Share().Volume(alpha) <= es[i].volume <= es[i].Share().Volume(beta)
          && es[i].Share().Volume(beta) <= es[i].Share().Volume(alpha) + 1)
    && (forall i, j :: 0 <= i < |es| && 0 <= j < |es|
          && Contested(es[i], alpha, beta) && Contested(es[j], alpha, beta)
          && es[i].priority > es[j].priority && es[j].volume == es[j].Share().Volume(beta)
          ==> es[i].volume == es[i].Share().Volume(beta))
  }

  /** Fair shares follow priorities. */
  ghost predicate SharesFollowPriorities(es: seq<Entry>) {
    forall i, j :: 0 <= i < |es| && 0 <= j < |es| && es[i].priority >= es[j].priority
                   ==> es[i].fairShare >= es[j].fairShare
  }

  /** A fair assignment has no priority inversion: strictly higher priority and no smaller demand
      never means fewer workers. */
  lemma {:induction false} NoPriorityInversion(es: seq<Entry>, alpha: real, beta: real, i: nat, j: nat)
    requires Fair(es, alpha, beta) && SharesFollowPriorities(es) && AllWellFormed(Shares(es))
    requires 0.0 < alpha
    requires i < |es| && j < |es|
    requires es[i].priority > es[j].priority && es[i].demand >= es[j].demand
    ensures es[i].volume >= es[j].volume
  {
    LargerShare(es[i].Share(), es[j].Share(), alpha);
    LargerShare(es[i].Share(), es[j].Share(), beta);
    if es[j].volume > es[j].Share().Volume(alpha) && es[i].Share().Volume(alpha) == es[j].Share().Volume(alpha) {
      assert es[j].volume == es[j].Share().Volume(beta);
      assert Contested(es[i], alpha, beta) && Contested(es[j], alpha, beta);
    }
  }

  lemma {:induction false} LargerShare(s: JobShare, t: JobShare, alpha: real)
    requires s.WellFormed() && t.WellFormed() && alpha > 0.0
    requires s.fairShare >= t.fairShare && s.demand >= t.demand
    ensures s.Volume(alpha) >= t.Volume(alpha)
  {
    LargerEntitlement(s, t, alpha);
    hide JobShare.Entitled;
    ClampedInDemand(t.demand, s.demand, t.Entitled(alpha), s.Entitled(alpha));
  }

  lemma {:induction false} LargerEntitlement(s: JobShare, t: JobShare, alpha: real)
    requires alpha > 0.0 && s.fairShare >= t.fairShare
    ensures s.Entitled(alpha) >= t.Entitled(alpha)
  {
    ProductMonotone(t.fairShare, s.fairShare, alpha);
  }

  lemma {:induction false} ClampedInDemand(d: int, e: int, x: real, y: real)
    requires d <= e && x <= y
    ensures Clamped(d, x) <= Clamped(e, y)
  {
  }

  // ----- order of the entries ----------------------------------------------

  /** Highest priority first, then highest original demand, then hash of the job id, then job id. */
  predicate Precedes(hash: int -> int, a: Entry, b: Entry) {
    if a.priority != b.priority then a.priority > b.priority
    else if a.originalDemand != b.originalDemand then a.originalDemand > b.originalDemand
    else if hash(a.jobId) != hash(b.jobId) then hash(a.jobId) < hash(b.jobId)
    else a.jobId < b.jobId
  }

  ghost predicate Ordered(hash: int -> int, es: seq<Entry>) {
    forall i, j :: 0 <= i < j < |es| ==> !Precedes(hash, es[j], es[i])
  }

  lemma {:induction false} OrderTransitive(hash: int -> int, a: Entry, b: Entry, c: Entry)
    requires !Precedes(hash, b, a) && !Precedes(hash, c, b)
    ensures !Precedes(hash, c, a)
  {
  }

  function Insert(hash: int -> int, e: Entry, es: seq<Entry>): (r: seq<Entry>)
    ensures multiset(r) == multiset(es) + multiset{e}
  {
    if |es| == 0 then [e]
    else if !Precedes(hash, es[0], e) then [e] + es
    else
      assert es == [es[0]] + es[1..];
      [es[0]] + Insert(hash, e, es[1..])
  }

  lemma {:induction false} InsertOrdered(hash: int -> int, e: Entry, es: seq<Entry>)
    requires Ordered(hash, es)
    ensures Ordered(hash, Insert(hash, e, es))
  {
    if |es| > 0 {
      if !Precedes(hash, es[0], e) {
        forall j | 0 < j < |es| ensures !Precedes(hash, es[j], e) {
          OrderTransitive(hash, e, es[0], es[j]);
        }
      } else {
        InsertOrdered(hash, e, es[1..]);
        InsertKeepsHead(hash, e, es[0], es[1..]);
      }
    }
  }

  lemma {:induction false} InsertKeepsHead(hash: int -> int, e: Entry, head: Entry, es: seq<Entry>)
    requires !Precedes(hash, e, head)
    requires forall j :: 0 <= j < |es| ==> !Precedes(hash, es[j], head)
    ensures forall j :: 0 <= j < |Insert(hash, e, es)| ==> !Precedes(hash, Insert(hash, e, es)[j], head)
  {
    var r := Insert(hash, e, es);
    forall j | 0 <= j < |r| ensures !Precedes(hash, r[j], head) {
      assert r[j] in multiset(r);
      assert r[j] in multiset(es) || r[j] == e;
    }
  }

  /** The comparator orders entries strictly, so sorting has one result for distinct job ids. */
  function SortByPriority(hash: int -> int, es: seq<Entry>): (r: seq<Entry>)
    ensures Ordered(hash, r)
    ensures multiset(r) == multiset(es)
  {
    if |es| == 0 then []
    else
      assert es == [es[0]] + es[1..];
      var rest := SortByPriority(hash, es[1..]);
      InsertOrdered(hash, es[0], rest);
      Insert(hash, es[0], rest)
  }
}
