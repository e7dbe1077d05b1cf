/**
 Facts about the multiplier search that do not mention the calculator's state: what the caches of an
 entry hold between two evaluations, what a dismissal permutes, why the search ends, and why the cap
 on demands loses no workers.
 */
module VolumeSearch {
  import opened Basics
  import opened Sums
  import opened FairShare

  // ----- caches ------------------------------------------------------------

  /** The part of the previous interval that is searched next, which tells what each cache still holds. */
  datatype Half = Whole | LeftHalf | RightHalf

  ghost predicate Settled(e: Entry, left: real, right: real) {
    e.volume == e.Share().Volume(left) == e.Share().Volume(right)
  }

  ghost predicate Cached(e: Entry, half: Half, left: real, right: real) {
    match half
    case Whole => e.volumeLower == e.Share().Volume(left) && e.volumeUpper == e.Share().Volume(right)
    case LeftHalf => e.volumeLower == e.Share().Volume(left) && e.volume == e.Share().Volume(right)
    case RightHalf => e.volume == e.Share().Volume(left) && e.volumeUpper == e.Share().Volume(right)
  }

  ghost predicate Evaluated(e: Entry, left: real, mid: real, right: real) {
    && e.volumeLower == e.Share().Volume(left)
    && e.volume == e.Share().Volume(mid)
    && e.volumeUpper == e.Share().Volume(right)
    && e.volumeLower < e.volumeUpper
  }

  /** Entries below `dismissed` are settled, those below `i` evaluated, the rest still hold old caches. */
  ghost predicate Scanned(es: seq<Entry>, dismissed: int, i: int, half: Half, left: real, mid: real, right: real) {
    && 0 <= dismissed <= i <= |es|
    && (forall k :: 0 <= k < dismissed ==> Settled(es[k], left, right))
    && (forall k :: dismissed <= k < i ==> Evaluated(es[k], left, mid, right))
    && (forall k :: i <= k < |es| ==> Cached(es[k], half, left, right))
  }

  /** A sum that may stop growing once it exceeds the limit. */
  ghost predicate CutOff(sum: int, exact: int, limit: int) {
    if exact <= limit then sum == exact else limit < sum <= exact
  }

  /** Exchange of the entry at `i` with the first active one. */
  function Dismiss(es: seq<Entry>, dismissed: nat, i: nat): seq<Entry>
    requires dismissed <= i < |es|
  {
    var (here, there) := DismissedInto(es[i], es[dismissed]);
    es[i := here][dismissed := there]
  }

  /** A dismissal only permutes the jobs; entries behind `i` are untouched. */
  lemma {:induction false} DismissPermutes(es: seq<Entry>, dismissed: nat, i: nat)
    requires dismissed <= i < |es|
    ensures |Dismiss(es, dismissed, i)| == |es|
    ensures multiset(Shares(Dismiss(es, dismissed, i)[..i + 1])) == multiset(Shares(es[..i + 1]))
    ensures multiset(Shares(Dismiss(es, dismissed, i))) == multiset(Shares(es))
    ensures Dismiss(es, dismissed, i)[i + 1..] == es[i + 1..]
  {
    var r := Dismiss(es, dismissed, i);
    var s := Shares(es);
    assert Shares(r) == s[i := s[dismissed]][dismissed := s[i]];
    var t := Shares(es[..i + 1]);
    assert Shares(r[..i + 1]) == t[i := t[dismissed]][dismissed := t[i]];
  }

  lemma {:induction false} DismissWellFormed(es: seq<Entry>, dismissed: nat, i: nat)
    requires dismissed <= i < |es| && AllWellFormed(Shares(es))
    ensures AllWellFormed(Shares(Dismiss(es, dismissed, i)))
  {
    var r := Dismiss(es, dismissed, i);
    forall k | 0 <= k < |r| ensures Shares(r)[k].WellFormed() {
      assert Shares(r)[k] == (if k == i then Shares(es)[dismissed]
                              else if k == dismissed then Shares(es)[i] else Shares(es)[k]);
    }
  }

  /** A job whose volumes agree at both ends has that volume everywhere in between. */
  lemma {:induction false} SettledInside(e: Entry, left: real, right: real, a: real, b: real)
    requires e.Share().WellFormed() && left <= a <= b <= right
    requires Settled(e, left, right)
    ensures Settled(e, a, b)
  {
    VolumeMonotone(e.Share(), left, a);
    VolumeMonotone(e.Share(), a, b);
    VolumeMonotone(e.Share(), b, right);
  }

  /** One more summand in the utilization of a scanned prefix. */
  lemma {:induction false} UtilizationPrefix(es: seq<Entry>, i: nat, alpha: real)
    requires i < |es|
    ensures Utilization(Shares(es[..i + 1]), alpha)
         == Utilization(Shares(es[..i]), alpha) + es[i].Share().Volume(alpha)
  {
    assert Shares(es[..i + 1]) == Shares(es[..i]) + [es[i].Share()];
    SumAppend(Shares(es[..i]), es[i].Share(), VolumeAt(alpha));
  }

  lemma {:induction false} AssignedPrefix(es: seq<Entry>, i: nat)
    requires i < |es|
    ensures Assigned(es[..i + 1]) == Assigned(es[..i]) + es[i].volume
  {
    assert es[..i + 1] == es[..i] + [es[i]];
    SumAppend(es[..i], es[i], AssignedVolume());
  }

  // ----- one scan over the active jobs ----------------------------------------

  /** The largest distance between the cached bounds of the entries from `dismissed` up to `i`. */
  ghost predicate LargestDiff(es: seq<Entry>, dismissed: int, i: int, diff: int)
    requires 0 <= dismissed <= i <= |es|
  {
    && (forall k :: dismissed <= k < i ==> es[k].volumeUpper - es[k].volumeLower <= diff)
    && (diff > 0 ==> exists k :: dismissed <= k < i && es[k].volumeUpper - es[k].volumeLower == diff)
  }

  /** State of a scan that has examined the entries below `i`. */
  ghost predicate Scan(es: seq<Entry>, dismissed: int, i: int, half: Half, left: real, mid: real, right: real,
      base: int, diff: int, sum: int, available: int)
  {
    && Scanned(es, dismissed, i, half, left, mid, right)
    && AllWellFormed(Shares(es))
    && base == Assigned(es[..dismissed])
    && LargestDiff(es, dismissed, i, diff)
    && CutOff(sum, Utilization(Shares(es[..i]), mid), available)
  }

  lemma {:induction false} ScanFacts(es: seq<Entry>, dismissed: int, i: int, half: Half, left: real, mid: real,
      right: real, base: int, diff: int, sum: int, available: int)
    requires Scan(es, dismissed, i, half, left, mid, right, base, diff, sum, available) && i < |es|
    requires left < mid < right
    ensures 0 <= dismissed <= i
    ensures es[i].Share().WellFormed() && Cached(es[i], half, left, right)
    ensures 1 <= es[i].Share().Volume(left) <= es[i].Share().Volume(mid) <= es[i].Share().Volume(right)
  {
    assert Shares(es)[i].WellFormed();
    VolumeMonotone(es[i].Share(), left, mid);
    VolumeMonotone(es[i].Share(), mid, right);
  }

  /** The caches of the entry at `i` after they are brought up to date for this scan. */
  function Refreshed(e: Entry, leftHalf: bool, rightHalf: bool): Entry {
    var e := if leftHalf then e.(volumeUpper := e.volume) else e;
    if rightHalf then e.(volumeLower := e.volume) else e
  }

  lemma {:induction false} RefreshedBounds(e: Entry, half: Half, left: real, right: real)
    requires Cached(e, half, left, right)
    ensures var r := Refreshed(e, half.LeftHalf?, half.RightHalf?);
            && r.Share() == e.Share()
            && r.volumeLower == e.Share().Volume(left) && r.volumeUpper == e.Share().Volume(right)
  {
    hide JobShare.Volume;
  }

  /** An entry whose volume still varies stays active. */
  lemma {:induction false} KeepStep(es: seq<Entry>, dismissed: int, i: int, half: Half, left: real, mid: real,
      right: real, base: int, diff: int, sum: int, available: int, job: Entry, sum': int)
    requires Scan(es, dismissed, i, half, left, mid, right, base, diff, sum, available) && i < |es|
    requires job.Share() == es[i].Share() && Evaluated(job, left, mid, right)
    requires sum' == if sum <= available then sum + job.volume else sum
    requires job.volume >= 1
    ensures Shares(es[i := job]) == Shares(es)
    ensures Scan(es[i := job], dismissed, i + 1, half, left, mid, right,
                 base, Max(diff, job.volumeUpper - job.volumeLower), sum', available)
  {
    hide JobShare.Volume;
    var r := es[i := job];
    assert Shares(r) == Shares(es);
    assert r[..dismissed] == es[..dismissed];
    assert Shares(r[..i]) == Shares(es[..i]);
    UtilizationPrefix(r, i, mid);
    LargestDiffKept(es, dismissed, i, diff, job);
  }

  lemma {:induction false} LargestDiffKept(es: seq<Entry>, dismissed: int, i: int, diff: int, job: Entry)
    requires 0 <= dismissed <= i < |es| && LargestDiff(es, dismissed, i, diff)
    ensures LargestDiff(es[i := job], dismissed, i + 1, Max(diff, job.volumeUpper - job.volumeLower))
  {
    var r, d := es[i := job], job.volumeUpper - job.volumeLower;
    if diff > 0 && diff > d {
      var k :| dismissed <= k < i && es[k].volumeUpper - es[k].volumeLower == diff;
      assert r[k] == es[k];
    } else {
      assert r[i].volumeUpper - r[i].volumeLower == d;
    }
  }

  /** An entry with equal bounds is swapped to the dismissed ones. */
  lemma {:induction false} DismissStep(es: seq<Entry>, dismissed: int, i: int, half: Half, left: real, mid: real,
      right: real, base: int, diff: int, sum: int, available: int, job: Entry, r: seq<Entry>)
    requires Scan(es, dismissed, i, half, left, mid, right, base, diff, sum, available) && i < |es|
    requires job.Share() == es[i].Share() && Settled(job, left, right)
    requires job.volume == job.Share().Volume(mid) && job.volume >= 1
    requires r == Dismiss(es[i := job], dismissed, i)
    ensures multiset(Shares(r)) == multiset(Shares(es))
    ensures Scan(r, dismissed + 1, i + 1, half, left, mid, right, base + job.volume, diff, sum + job.volume, available)
  {
    hide JobShare.Volume;
    var q := es[i := job];
    assert Shares(q) == Shares(es) && Shares(q[..i]) == Shares(es[..i]);
    DismissPermutes(q, dismissed, i);
    DismissWellFormed(q, dismissed, i);
    UtilizationPrefix(q, i, mid);
    SumPermutation(Shares(r[..i + 1]), Shares(q[..i + 1]), VolumeAt(mid));
    AssignedPrefix(r, dismissed);
    assert r[..dismissed] == es[..dismissed];
    LargestDiffDismissed(es, dismissed, i, diff, job);
    DismissScanned(es, dismissed, i, half, left, mid, right, job);
  }

  lemma {:induction false} DismissScanned(es: seq<Entry>, dismissed: int, i: int, half: Half, left: real, mid: real,
      right: real, job: Entry)
    requires Scanned(es, dismissed, i, half, left, mid, right) && i < |es|
    requires job.Share() == es[i].Share() && Settled(job, left, right)
    ensures Scanned(Dismiss(es[i := job], dismissed, i), dismissed + 1, i + 1, half, left, mid, right)
  {
    hide JobShare.Volume;
    var r := Dismiss(es[i := job], dismissed, i);
    assert forall k :: 0 <= k < dismissed || dismissed < k < i || i < k < |es| ==> r[k] == es[k];
    assert Settled(r[dismissed], left, right);
    if dismissed < i {
      assert Evaluated(es[dismissed], left, mid, right);
      assert Evaluated(r[i], left, mid, right);
    }
  }

  lemma {:induction false} LargestDiffDismissed(es: seq<Entry>, dismissed: int, i: int, diff: int, job: Entry)
    requires 0 <= dismissed <= i < |es| && LargestDiff(es, dismissed, i, diff)
    ensures LargestDiff(Dismiss(es[i := job], dismissed, i), dismissed + 1, i + 1, diff)
  {
    var r := Dismiss(es[i := job], dismissed, i);
    assert forall k :: dismissed < k < i ==> r[k] == es[k];
    if dismissed < i {
      assert r[i].volumeUpper - r[i].volumeLower == es[dismissed].volumeUpper - es[dismissed].volumeLower;
    }
    if diff > 0 {
      var k :| dismissed <= k < i && es[k].volumeUpper - es[k].volumeLower == diff;
      var k' := if k == dismissed then i else k;
      assert r[k'].volumeUpper - r[k'].volumeLower == diff;
    }
  }

  /** Before a scan only the dismissed jobs count, at their settled volumes. */
  lemma {:induction false} ScanStart(es: seq<Entry>, dismissed: int, half: Half, left: real, mid: real, right: real,
      base: int, available: int)
    requires Scanned(es, dismissed, dismissed, half, left, mid, right) && AllWellFormed(Shares(es))
    requires left <= mid <= right && base == Assigned(es[..dismissed])
    ensures Scan(es, dismissed, dismissed, half, left, mid, right, base, 0, base, available)
  {
    hide JobShare.Volume;
    var front := es[..dismissed];
    forall k | 0 <= k < |front| ensures front[k].volume == front[k].Share().Volume(mid) {
      assert Shares(es)[k].WellFormed();
      SettledInside(front[k], left, right, mid, mid);
    }
    AssignedAtMultiplier(front, mid);
  }

  // ----- termination -------------------------------------------------------

  /** How often a width can be halved before it drops below one. */
  ghost function Halvings(w: real): nat
    decreases if w < 1.0 then 0 else w.Floor
  {
    if w < 1.0 then 0 else 1 + Halvings(w / 2.0)
  }

  /** Bisections of an interval after which no fair share up to `top` spans a whole worker any more. */
  ghost function Rounds(width: real, top: real): nat { Halvings(width * top) }

  /** While some job's volume still varies by two, halving the interval makes progress. */
  lemma {:induction false} HalvingProgress(s: JobShare, lower: real, upper: real, top: real, width: real, width': real)
    requires s.WellFormed() && s.fairShare <= top
    requires width == upper - lower > 0.0 && width' == width / 2.0
    requires s.Volume(upper) - s.Volume(lower) >= 2
    ensures Rounds(width', top) < Rounds(width, top)
  {
    hide JobShare.Volume;
    WideGap(s, lower, upper, width);
    ProductMonotone(s.fairShare, top, width);
    var w, w' := width * top, width' * top;
    assert w >= 1.0 && w' == w / 2.0;
    assert Halvings(w) == 1 + Halvings(w');
  }

  // ----- fair shares -------------------------------------------------------

  /** The part of `available` that goes to `p` out of `total`. */
  function Portion(p: real, total: real, available: real): real
    requires total > 0.0
  {
    p / total * available
  }

  lemma {:induction false} PortionAdds(p: real, q: real, total: real, available: real)
    requires total > 0.0
    ensures Portion(p + q, total, available) == Portion(p, total, available) + Portion(q, total, available)
    ensures Portion(0.0, total, available) == 0.0
  {
    var a, b := p / total, q / total;
    assert (p + q) / total == a + b;
  }

  lemma {:induction false} PortionWhole(total: real, available: real)
    requires total > 0.0
    ensures Portion(total, total, available) == available
  {
    assert total / total == 1.0;
  }

  lemma {:induction false} PortionMonotone(p: real, q: real, total: real, available: real)
    requires total > 0.0 && p <= q && available > 0.0
    ensures Portion(p, total, available) <= Portion(q, total, available)
    ensures p < q ==> Portion(p, total, available) < Portion(q, total, available)
  {
    var d := (q - p) / total;
    assert d * total == q - p;
    assert d < 0.0 ==> d * total < 0.0;
    assert d >= 0.0;
    assert d * available >= 0.0;
    assert d > 0.0 ==> d * available > 0.0;
    PortionAdds(p, q - p, total, available);
    assert Portion(q - p, total, available) == d * available;
  }

  /** The entry after fair shares are computed: proportional share, demand capped at the volume that is
      left when every other job takes one worker. */
  function WithFairShare(e: Entry, sumOfPriorities: real, available: int, n: int): Entry
    requires sumOfPriorities > 0.0
  {
    e.(fairShare := Portion(e.priority, sumOfPriorities, available as real),
       demand := Min(e.demand, available - n + 1))
  }

  ghost predicate IsFresh(e: Entry) {
    e.priority > 0.0 && e.demand >= 1 && e.originalDemand == e.demand && e.volume == 1
  }

  function WithFairShares(es: seq<Entry>, sumOfPriorities: real, available: int): (r: seq<Entry>)
    requires sumOfPriorities > 0.0
    ensures |r| == |es|
    ensures forall i :: 0 <= i < |es| ==> r[i] == WithFairShare(es[i], sumOfPriorities, available, |es|)
  {
    seq(|es|, i requires 0 <= i < |es| => WithFairShare(es[i], sumOfPriorities, available, |es|))
  }

  lemma {:induction false} PrioritySumPositive(es: seq<Entry>)
    requires forall i :: 0 <= i < |es| ==> es[i].priority > 0.0
    ensures |es| > 0 ==> RealSum(es, PriorityOf()) > 0.0
    ensures forall i :: 0 <= i < |es| ==> es[i].priority <= RealSum(es, PriorityOf())
    ensures RealSum(es, PriorityOf()) >= 0.0
  {
    if |es| > 0 {
      var last := |es| - 1;
      PrioritySumPositive(es[..last]);
      forall i | 0 <= i < |es| ensures es[i].priority <= RealSum(es, PriorityOf()) {
        if i < last { assert es[..last][i] == es[i]; }
      }
    }
  }

  /** `n` times `c`, by repeated addition. */
  ghost function Times(n: nat, c: real): real { if n == 0 then 0.0 else Times(n - 1, c) + c }

  lemma {:induction false} TimesIsProduct(n: nat, c: real)
    ensures Times(n, c) == c * n as real
  {
    if n > 0 {
      TimesIsProduct(n - 1, c);
      assert c * (n - 1) as real + c == c * n as real;
    }
  }

  lemma {:induction false} RealSumBounds<T>(s: seq<T>, f: T -> real, low: real, high: real)
    requires forall i :: 0 <= i < |s| ==> low <= f(s[i]) <= high
    ensures Times(|s|, low) <= RealSum(s, f) <= Times(|s|, high)
  {
    if |s| > 0 {
      var last := |s| - 1;
      assert forall i :: 0 <= i < last ==> s[..last][i] == s[i];
      RealSumBounds(s[..last], f, low, high);
    }
  }

  lemma {:induction false} SumBelowRealSum<T>(s: seq<T>, f: T -> int, g: T -> real)
    requires forall i :: 0 <= i < |s| ==> f(s[i]) as real <= g(s[i])
    ensures Sum(s, f) as real <= RealSum(s, g)
  {
    if |s| > 0 {
      var last := |s| - 1;
      assert forall i :: 0 <= i < last ==> s[..last][i] == s[i];
      SumBelowRealSum(s[..last], f, g);
    }
  }

  lemma {:induction false} FairShareOfOne(e: Entry, total: real, available: int, n: int)
    requires 0.0 < e.priority <= total
    requires 0 <= n < available
    ensures 0.0 < WithFairShare(e, total, available, n).fairShare <= available as real
    ensures e.demand >= 1 ==> WithFairShare(e, total, available, n).Share().WellFormed()
  {
    PortionMonotone(0.0, e.priority, total, available as real);
    PortionAdds(0.0, 0.0, total, available as real);
    PortionMonotone(e.priority, total, total, available as real);
    PortionWhole(total, available as real);
  }

  lemma {:induction false} PartialShares(es: seq<Entry>, r: seq<Entry>, total: real, available: real)
    requires total > 0.0 && |es| == |r|
    requires forall i :: 0 <= i < |es| ==> r[i].fairShare == Portion(es[i].priority, total, available)
    ensures RealSum(Shares(r), FairShareOf()) == Portion(RealSum(es, PriorityOf()), total, available)
  {
    if |es| == 0 {
      PortionAdds(0.0, 0.0, total, available);
    } else {
      var last := |es| - 1;
      PartialShares(es[..last], r[..last], total, available);
      PortionAdds(RealSum(es[..last], PriorityOf()), es[last].priority, total, available);
      assert Shares(r)[..last] == Shares(r[..last]);
    }
  }

  /** The fair shares sum up to the available volume and follow the priorities. */
  lemma {:induction false} FairSharesExhaustVolume(es: seq<Entry>, total: real, available: int, r: seq<Entry>)
    requires |es| < available && total > 0.0
    requires forall i :: 0 <= i < |es| ==> es[i].priority > 0.0
    requires total == RealSum(es, PriorityOf())
    requires r == WithFairShares(es, total, available)
    ensures RealSum(Shares(r), FairShareOf()) == available as real
    ensures SharesFollowPriorities(r)
  {
    PartialShares(es, r, total, available as real);
    PortionWhole(total, available as real);
    forall i, j | 0 <= i < |r| && 0 <= j < |r| && r[i].priority >= r[j].priority
      ensures r[i].fairShare >= r[j].fairShare
    {
      PortionMonotone(r[j].priority, r[i].priority, total, available as real);
    }
  }

  lemma {:induction false} FairSharesWellFormed(es: seq<Entry>, total: real, available: int, r: seq<Entry>)
    requires |es| < available && total > 0.0
    requires forall i :: 0 <= i < |es| ==> es[i].priority > 0.0 && es[i].demand >= 1
    requires total == RealSum(es, PriorityOf())
    requires r == WithFairShares(es, total, available)
    ensures AllWellFormed(Shares(r))
    ensures forall i :: 0 <= i < |r| ==> r[i].fairShare <= available as real
  {
    PrioritySumPositive(es);
    forall i | 0 <= i < |r| ensures r[i].Share().WellFormed() && r[i].fairShare <= available as real {
      FairShareOfOne(es[i], total, available, |es|);
    }
  }

  // ----- position of the start multiplier ----------------------------------

  ghost function CenterOf(): JobShare -> real {
    (s: JobShare) => if s.fairShare == 0.0 then 0.0 else (1.0 / s.fairShare + s.demand as real / s.fairShare) / 2.0
  }

  ghost predicate Brackets(ss: seq<JobShare>, low: real, high: real) {
    forall i :: 0 <= i < |ss| && ss[i].fairShare > 0.0 ==>
                  low <= 1.0 / ss[i].fairShare && ss[i].demand as real / ss[i].fairShare + EPSILON <= high
  }

  /** The least multiplier at which one of the first jobs gets more than one worker. */
  ghost function LowestOf(es: seq<Entry>, k: nat): real
    requires k <= |es|
  {
    if k == 0 then INT32_MAX as real
    else RealMin(LowestOf(es, k - 1), if es[k - 1].fairShare > 0.0 then es[k - 1].MultiplierLowerBound() else 0.0)
  }

  /** The largest multiplier at which one of the first jobs gets less than its demand. */
  ghost function HighestOf(es: seq<Entry>, k: nat): real
    requires k <= |es|
  {
    if k == 0 then 0.0
    else RealMax(HighestOf(es, k - 1), if es[k - 1].fairShare > 0.0 then es[k - 1].MultiplierUpperBound() else 0.0)
  }

  /** Bounds, demands and centers accumulated over the first `k` entries. */
  ghost predicate Accumulated(es: seq<Entry>, k: int, low: real, high: real, demands: int, center: real)
    requires AllWellFormed(Shares(es)) && 0 <= k <= |es|
  {
    && 0.0 < low == LowestOf(es, k) && high == HighestOf(es, k)
    && (forall i :: 0 <= i < k ==>
          low <= 1.0 / Shares(es)[i].fairShare && Shares(es)[i].demand as real / Shares(es)[i].fairShare <= high)
    && demands == Sum(Shares(es[..k]), CappedDemand())
    && center == RealSum(Shares(es[..k]), CenterOf())
  }

  lemma {:induction false} AccumulateStart(es: seq<Entry>)
    requires AllWellFormed(Shares(es))
    ensures Accumulated(es, 0, INT32_MAX as real, 0.0, 0, 0.0)
  {
  }

  lemma {:induction false} AccumulateStep(es: seq<Entry>, k: int, low: real, high: real, demands: int, center: real,
      lb: real, ub: real)
    requires AllWellFormed(Shares(es)) && 0 <= k < |es| && Accumulated(es, k, low, high, demands, center)
    requires es[k].fairShare > 0.0
    requires lb == es[k].MultiplierLowerBound() && ub == es[k].MultiplierUpperBound()
    ensures Accumulated(es, k + 1, RealMin(low, lb), RealMax(high, ub), demands + es[k].demand,
        center + (lb + ub) / 2.0)
  {
    assert Shares(es[..k + 1]) == Shares(es[..k]) + [es[k].Share()];
    SumAppend(Shares(es[..k]), es[k].Share(), CappedDemand());
    RealSumAppend(Shares(es[..k]), es[k].Share(), CenterOf());
    QuotientMonotone(0.0, 1.0, es[k].fairShare);
    assert Shares(es)[k] == es[k].Share();
  }

  lemma {:induction false} AccumulateDone(es: seq<Entry>, low: real, high: real, demands: int, center: real)
    requires AllWellFormed(Shares(es)) && Accumulated(es, |es|, low, high, demands, center)
    ensures Brackets(Shares(es), low, high + EPSILON) && 0.0 < low
    ensures low == LowestOf(es, |es|) && high == HighestOf(es, |es|)
    ensures demands == Sum(Shares(es), CappedDemand()) && center == RealSum(Shares(es), CenterOf())
  {
    assert es[..|es|] == es;
  }

  /** With fewer jobs than workers and more demand than workers, the multiplier one lies strictly
      between the extreme multipliers. */
  lemma {:induction false} OneIsInside(ss: seq<JobShare>, available: int, low: real, high: real)
    requires AllWellFormed(ss) && Brackets(ss, low, high)
    requires RealSum(ss, FairShareOf()) == available as real
    requires |ss| < available < Sum(ss, CappedDemand())
    ensures low < 1.0 < high
  {
    if low >= 1.0 {
      forall i | 0 <= i < |ss| ensures 0.0 <= FairShareOf()(ss[i]) <= 1.0 {
        ReciprocalAtLeastOne(ss[i].fairShare);
      }
      RealSumBounds(ss, FairShareOf(), 0.0, 1.0);
      TimesIsProduct(|ss|, 1.0);
    }
    if high <= 1.0 {
      forall i | 0 <= i < |ss| ensures CappedDemand()(ss[i]) as real <= FairShareOf()(ss[i]) {
        QuotientAtMostOne(ss[i].demand as real, ss[i].fairShare);
      }
      SumBelowRealSum(ss, CappedDemand(), FairShareOf());
    }
  }

  lemma {:induction false} ReciprocalAtLeastOne(f: real)
    requires f > 0.0
    ensures 1.0 / f >= 1.0 ==> f <= 1.0
  {
    if f > 1.0 { assert 1.0 / f * f == 1.0; }
  }

  lemma {:induction false} QuotientAtMostOne(d: real, f: real)
    requires f > 0.0
    ensures d / f <= 1.0 ==> d <= f
  {
    assert d / f * f == d;
    if d / f <= 1.0 { ProductMonotone(d / f, 1.0, f); }
  }

  lemma {:induction false} QuotientMonotone(c: real, d: real, f: real)
    requires f > 0.0 && c <= d
    ensures c / f <= d / f
    ensures c < d ==> c / f < d / f
  {
    assert d / f - c / f == (d - c) / f;
  }

  lemma {:induction false} CenterOfOne(s: JobShare, low: real, high: real)
    requires s.WellFormed()
    requires low <= 1.0 / s.fairShare && s.demand as real / s.fairShare + EPSILON <= high
    ensures low <= CenterOf()(s) <= high - EPSILON
    ensures s.demand >= 2 ==> low < CenterOf()(s)
  {
    QuotientMonotone(1.0, s.demand as real, s.fairShare);
  }

  /** The center of mass, too, lies strictly between the extreme multipliers. */
  lemma {:induction false} CenterIsInside(ss: seq<JobShare>, available: int, low: real, high: real, center: real)
    requires AllWellFormed(ss) && Brackets(ss, low, high)
    requires |ss| < available < Sum(ss, CappedDemand())
    requires |ss| > 0 && center == RealSum(ss, CenterOf()) / |ss| as real
    ensures low < center < high
  {
    forall i | 0 <= i < |ss| ensures low <= CenterOf()(ss[i]) <= high - EPSILON {
      CenterOfOne(ss[i], low, high);
    }
    RealSumBounds(ss, CenterOf(), low, high - EPSILON);
    var j := DemandingJob(ss);
    CenterOfOne(ss[j], low, high);
    RealSumAbove(ss, CenterOf(), low, high, j);
    MeanInside(RealSum(ss, CenterOf()), |ss|, low, high);
  }

  lemma {:induction false} RealSumAbove<T>(s: seq<T>, f: T -> real, low: real, high: real, j: nat)
    requires j < |s| && low < f(s[j])
    requires forall i :: 0 <= i < |s| ==> low <= f(s[i]) <= high
    ensures Times(|s|, low) < RealSum(s, f)
  {
    RealSumWithout(s, j, f);
    var rest := Without(s, j);
    forall i | 0 <= i < |rest| ensures low <= f(rest[i]) <= high {
      assert rest[i] == (if i < j then s[i] else s[i + 1]);
    }
    RealSumBounds(rest, f, low, high);
  }

  lemma {:induction false} MeanInside(total: real, n: nat, low: real, high: real)
    requires n > 0 && Times(n, low) < total <= Times(n, high - EPSILON)
    ensures low < total / n as real < high
  {
    TimesIsProduct(n, low);
    TimesIsProduct(n, high - EPSILON);
    var mean, m, top := total / n as real, n as real, high - EPSILON;
    assert mean * m == total;
    assert mean <= low ==> (low - mean) * m >= 0.0;
    assert mean > top ==> (mean - top) * m > 0.0;
  }

  /** Some job asks for two workers or more. */
  lemma {:induction false} DemandingJob(ss: seq<JobShare>) returns (j: nat)
    requires AllWellFormed(ss) && |ss| < Sum(ss, CappedDemand())
    ensures j < |ss| && ss[j].demand >= 2
  {
    if forall i :: 0 <= i < |ss| ==> ss[i].demand == 1 {
      SumConstant(ss, CappedDemand(), 1);
      assert false;
    }
    j :| 0 <= j < |ss| && ss[j].demand != 1;
  }

  // ----- the cap -----------------------------------------------------------

  ghost function CapOf(available: int, n: int): Entry -> int {
    (e: Entry) => Min(e.originalDemand, available - n + 1)
  }

  /** Capping demands never changes how many workers can be handed out. */
  lemma {:induction false} CapLosesNothing(es: seq<Entry>, available: int)
    requires |es| < available
    requires forall i :: 0 <= i < |es| ==> es[i].originalDemand >= 1
    ensures Min(available, Sum(es, CapOf(available, |es|))) == Min(available, Sum(es, OriginalDemand()))
  {
    var cap := CapOf(available, |es|);
    SumMonotone(es, cap, OriginalDemand());
    if forall i :: 0 <= i < |es| ==> OriginalDemand()(es[i]) <= cap(es[i]) {
      SumMonotone(es, OriginalDemand(), cap);
    } else {
      var j :| 0 <= j < |es| && !(OriginalDemand()(es[j]) <= cap(es[j]));
      SumAtLeast(es, cap, 1, j);
    }
  }

  lemma {:induction false} CappedDemands(es: seq<Entry>, sumOfPriorities: real, available: int, n: int)
    requires sumOfPriorities > 0.0
    requires forall i :: 0 <= i < |es| ==> es[i].originalDemand == es[i].demand
    ensures Sum(Shares(seq(|es|, i requires 0 <= i < |es| => WithFairShare(es[i], sumOfPriorities, available, n))),
        CappedDemand())
         == Sum(es, CapOf(available, n))
  {
    if |es| > 0 {
      var last := |es| - 1;
      CappedDemands(es[..last], sumOfPriorities, available, n);
      var r := seq(|es|, i requires 0 <= i < |es| => WithFairShare(es[i], sumOfPriorities, available, n));
      assert Shares(r)[..last] ==
        Shares(seq(|es[..last]|,
            i requires 0 <= i < |es[..last]| => WithFairShare(es[..last][i], sumOfPriorities, available, n)));
    }
  }

  // ----- bracketing and the last workers --------------------------------------

  /** The wanted multiplier lies strictly between `lower` and `upper`. */
  ghost predicate Bracketing(es: seq<Entry>, available: int, lower: real, upper: real, excessAtLeft: int) {
    && available - Utilization(Shares(es), lower) == excessAtLeft > 0
    && Utilization(Shares(es), upper) > available
  }

  /** The extreme multipliers bracket the wanted one, and the first two candidates lie strictly inside. */
  lemma {:induction false} SearchStart(es: seq<Entry>, available: int, low: real, high: real, center: real)
    requires AllWellFormed(Shares(es)) && Brackets(Shares(es), low, high)
    requires |es| < available < Sum(Shares(es), CappedDemand())
    requires RealSum(Shares(es), FairShareOf()) == available as real
    requires forall i :: 0 <= i < |es| ==> es[i].fairShare <= available as real
    requires |es| > 0 && center == RealSum(Shares(es), CenterOf()) / |es| as real
    ensures low < 1.0 < high && low < center < high
    ensures Bracketing(es, available, low, high, available - |es|)
    ensures forall s :: s in multiset(Shares(es)) ==> s.fairShare <= available as real
  {
    OneIsInside(Shares(es), available, low, high);
    CenterIsInside(Shares(es), available, low, high, center);
    hide JobShare.Volume;
    AtExtremes(Shares(es), low, high);
    forall s | s in multiset(Shares(es)) ensures s.fairShare <= available as real {
      var i :| 0 <= i < |es| && Shares(es)[i] == s;
    }
  }

  lemma {:induction false} AtExtremes(ss: seq<JobShare>, low: real, high: real)
    requires AllWellFormed(ss) && Brackets(ss, low, high)
    ensures Utilization(ss, low) == |ss|
    ensures Utilization(ss, high) == Sum(ss, CappedDemand())
  {
    UtilizationAtMinimum(ss, low);
    UtilizationAtMaximum(ss, high);
  }

  /** Evaluating `mid` keeps the bracket and tells which half holds the wanted multiplier. */
  lemma {:induction false} BracketingHalves(es: seq<Entry>, es': seq<Entry>, available: int, lower: real, mid: real,
      upper: real, excessAtLeft: int, excess: int)
    requires Bracketing(es, available, lower, upper, excessAtLeft)
    requires multiset(Shares(es)) == multiset(Shares(es'))
    requires var exact := available - Utilization(Shares(es'), mid);
             if exact >= 0 then excess == exact else excess < 0
    ensures Bracketing(es', available, lower, upper, excessAtLeft)
    ensures excess > 0 ==> Bracketing(es', available, mid, upper, excess)
    ensures excess < 0 ==> Bracketing(es', available, lower, mid, excessAtLeft)
    ensures excess == 0 ==> Utilization(Shares(es'), mid) == available
  {
    SumPermutation(Shares(es), Shares(es'), VolumeAt(lower));
    SumPermutation(Shares(es), Shares(es'), VolumeAt(upper));
  }

  /** Extra worker of the entry at `k` when `count` workers go to the entries from `first` on. */
  function Bonus(k: int, first: int, count: int): int { if first <= k < first + count then 1 else 0 }

  lemma {:induction false} AssignedWithBonus(es: seq<Entry>, alpha: real, first: int, count: int, m: nat)
    requires 0 <= first && 0 <= count && m <= |es|
    requires forall k :: 0 <= k < |es| ==> es[k].volume == es[k].Share().Volume(alpha) + Bonus(k, first, count)
    ensures Assigned(es[..m]) == Utilization(Shares(es[..m]), alpha) + Max(0, Min(m - first, count))
  {
    hide JobShare.Volume;
    if m > 0 {
      AssignedWithBonus(es, alpha, first, count, m - 1);
      AssignedPrefix(es, m - 1);
      UtilizationPrefix(es, m - 1, alpha);
    }
  }

  /** If every entry from `first` on gains one worker between the bounds, so does the sum per entry. */
  lemma {:induction false} UtilizationGap(es: seq<Entry>, lower: real, upper: real, first: nat)
    requires first <= |es|
    requires forall k :: 0 <= k < |es| ==>
               es[k].Share().Volume(upper) == es[k].Share().Volume(lower) + Bonus(k, first, |es| - first)
    ensures Utilization(Shares(es), upper) == Utilization(Shares(es), lower) + |es| - first
  {
    hide JobShare.Volume;
    var r := seq(|es|, k requires 0 <= k < |es| => es[k].(volume := es[k].Share().Volume(upper)));
    assert Shares(r) == Shares(es) && r[..|es|] == r;
    AssignedAtMultiplier(r, upper);
    AssignedWithBonus(r, lower, first, |es| - first, |es|);
  }

  /** Sorted by priority, the first entries are the ones to serve. */
  lemma {:induction false} BonusIsFair(hash: int -> int, es: seq<Entry>, lower: real, upper: real, first: nat,
      count: nat)
    requires lower <= upper && first + count <= |es| && Ordered(hash, es[first..])
    requires forall k :: 0 <= k < |es| ==>
               && es[k].volume == es[k].Share().Volume(lower) + Bonus(k, first, count)
               && es[k].Share().Volume(upper) == es[k].Share().Volume(lower) + Bonus(k, first, |es| - first)
    ensures Fair(es, lower, upper)
  {
    hide JobShare.Volume;
    forall i, j | 0 <= i < |es| && 0 <= j < |es|
                  && Contested(es[i], lower, upper) && Contested(es[j], lower, upper)
                  && es[i].priority > es[j].priority && es[j].volume == es[j].Share().Volume(upper)
      ensures es[i].volume == es[i].Share().Volume(upper)
    {
      assert first <= i && first <= j < first + count;
      assert es[i] == es[first..][i - first] && es[j] == es[first..][j - first];
    }
  }
}
