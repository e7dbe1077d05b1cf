/**
 The volume calculator: distributes the available workers among the jobs by a search for one common
 multiplier of their fair shares. The search caches volumes at the bounds of the current interval,
 dismisses jobs whose volume no longer varies, and hands out the last workers by priority.
 */
module VolumeCalculation {
  import opened Basics
  import opened EventTypes
  import opened Sums
  import opened FairShare
  import opened VolumeSearch
  import opened VolumeResult

  /** Entries for the events with positive demand, or for those without. */
  function EntriesOf(events: seq<Event>, demanding: bool): seq<Entry> {
    if |events| == 0 then []
    else
      var ev := events[|events| - 1];
      var front := EntriesOf(events[..|events| - 1], demanding);
      if demanding == (ev.demand != 0) then front + [NewEntry(ev.jobId, ev.demand, ev.priority)] else front
  }

  /** The entry of an event: its demand and priority, and one worker to begin with. */
  ghost predicate EntryOf(e: Entry, ev: Event) {
    && e.jobId == ev.jobId && e.demand == ev.demand && e.originalDemand == ev.demand && e.priority == ev.priority
    && e.volume == 1
  }

  /** One entry, in order, for each event with a demand, or for each one without. */
  ghost predicate Represents(es: seq<Entry>, events: seq<Event>, demanding: bool)
    decreases |events|
  {
    if |events| == 0 then es == []
    else
      var front, ev := events[..|events| - 1], events[|events| - 1];
      if demanding == (ev.demand != 0)
      then |es| > 0 && EntryOf(es[|es| - 1], ev) && Represents(es[..|es| - 1], front, demanding)
      else Represents(es, front, demanding)
  }

  lemma {:induction false} EntriesRepresent(events: seq<Event>, demanding: bool)
    ensures Represents(EntriesOf(events, demanding), events, demanding)
  {
    if |events| > 0 {
      var front, es := events[..|events| - 1], EntriesOf(events, demanding);
      EntriesRepresent(front, demanding);
      assert |es| > 0 ==> es == es[..|es| - 1] + [es[|es| - 1]];
    }
  }

  lemma {:induction false} SharesOfPermutation(es: seq<Entry>, sorted: seq<Entry>, total: real, available: int)
    requires multiset(es) == multiset(sorted) && total > 0.0
    ensures multiset(Shares(WithFairShares(es, total, available)))
         == multiset(Shares(WithFairShares(sorted, total, available)))
  {
    assert |es| == |multiset(es)| == |multiset(sorted)| == |sorted|;
    var n := |es|;
    var f := (e: Entry) => if total > 0.0 then WithFairShare(e, total, available, n).Share() else e.Share();
    MappedPermutation(es, sorted, f);
    assert Shares(WithFairShares(es, total, available)) == Mapped(es, f);
    assert Shares(WithFairShares(sorted, total, available)) == Mapped(sorted, f);
  }

  lemma {:induction false} FairWithinDemand(es: seq<Entry>, alpha: real, beta: real)
    requires AllWellFormed(Shares(es)) && Fair(es, alpha, beta)
    ensures forall i :: 0 <= i < |es| ==> 1 <= es[i].volume <= es[i].demand
  {
    forall i | 0 <= i < |es| ensures 1 <= es[i].volume <= es[i].demand {
      assert Shares(es)[i].WellFormed();
      VolumeMonotone(es[i].Share(), alpha, beta);
    }
  }

  lemma {:induction false} PermutedWellFormed(ss: seq<JobShare>, tt: seq<JobShare>)
    requires multiset(ss) == multiset(tt) && AllWellFormed(ss)
    ensures AllWellFormed(tt)
  {
    forall i | 0 <= i < |tt| ensures tt[i].WellFormed() {
      assert tt[i] in multiset(tt);
      assert tt[i] in ss;
    }
  }

  lemma {:induction false} VolumeAtBounds(job: Entry, lb: real, ub: real)
    requires job.Share().WellFormed() && lb == job.MultiplierLowerBound() && ub == job.MultiplierUpperBound()
    ensures job.GetVolume(lb) == 1 && job.GetVolume(ub + EPSILON) == job.demand
  {
    VolumeAtLowerBound(job.Share(), lb);
    VolumeAtUpperBound(job.Share(), ub + EPSILON);
  }

  /** The next interval is the half that holds the wanted multiplier. The next candidate is its center,
      except that the start value one may be followed by the center of mass. */
  method NarrowInterval(lower: real, mid: real, upper: real, centerOfMass: real, excessAtLeft: int, excess: int,
      ghost phase: int, ghost low: real, ghost high: real)
    returns (lower': real, upper': real, mid': real, excessAtLeft': int, ghost phase': int)
    requires lower < mid < upper && excess != 0 && low < centerOfMass < high
    requires phase == 0 || phase == 1 || phase == 2
    requires if phase == 2 then mid == 1.0 && lower == low && upper == high else 1.0 <= lower || upper <= 1.0
    ensures Interval(lower', upper', mid', excessAtLeft')
         == Narrowed(Interval(lower, upper, mid, excessAtLeft), centerOfMass, excess)
    ensures excess > 0 ==> lower' == mid && upper' == upper && excessAtLeft' == excess
    ensures excess < 0 ==> lower' == lower && upper' == mid && excessAtLeft' == excessAtLeft
    ensures lower' < mid' < upper' && (1.0 <= lower' || upper' <= 1.0)
    ensures phase' == 0 ==> mid' == (lower' + upper') / 2.0
    ensures phase' == 0 || phase' == 1 < phase
  {
    lower', upper', excessAtLeft' := lower, upper, excessAtLeft;
    if excess > 0 {
      lower' := mid;
      excessAtLeft' := excess;
    }
    if excess < 0 {
      upper' := mid;
    }
    if mid == 1.0 && excess > 0 && centerOfMass > mid {
      mid', phase' := centerOfMass, 1;
    } else if mid == 1.0 && excess < 0 && centerOfMass < mid {
      mid', phase' := centerOfMass, 1;
    } else {
      mid', phase' := (lower' + upper') / 2.0, 0;
    }
  }

  class VolumeCalculator {
    const hash: int -> int
    var entries: seq<Entry>
    var zeroEntries: seq<Entry>
    var sumOfPriorities: real
    var availableVolume: int
    var sumOfDemands: int

    var minMultiplier: real
    var maxMultiplier: real
    var centerOfMass: real

    var prevLb: real
    var prevUb: real
    var numDismissed: int
    var baseUtilization: int
    var maxVolumeDiff: int

    constructor (events: seq<Event>, available: int, hash: int -> int)
      requires forall i :: 0 <= i < |events| ==> events[i].demand >= 0
      requires forall i :: 0 <= i < |events| && events[i].demand > 0 ==> events[i].priority > 0.0
      ensures Fresh()
      ensures availableVolume == available && this.hash == hash
      ensures entries == EntriesOf(events, true) && zeroEntries == EntriesOf(events, false)
      ensures Represents(entries, events, true) && Represents(zeroEntries, events, false)
    {
      this.hash := hash;
      entries, zeroEntries, sumOfPriorities := [], [], 0.0;
      availableVolume, sumOfDemands, numDismissed := available, 0, 0;
      minMultiplier, maxMultiplier, centerOfMass := 0.0, 0.0, 0.0;
      prevLb, prevUb, baseUtilization, maxVolumeDiff := -1.0, -1.0, 0, 0;
      new;
      for k := 0 to |events|
        invariant availableVolume == available && sumOfDemands == 0 && numDismissed == 0
        invariant entries == EntriesOf(events[..k], true) && zeroEntries == EntriesOf(events[..k], false)
        invariant sumOfPriorities == RealSum(entries, PriorityOf())
        invariant forall i :: 0 <= i < |entries| ==> IsFresh(entries[i])
      {
        var ev := events[k];
        var e := NewEntry(ev.jobId, ev.demand, ev.priority);
        assert events[..k + 1][..k] == events[..k];
        if ev.demand == 0 {
          zeroEntries := zeroEntries + [e];
        } else {
          RealSumAppend(entries, e, PriorityOf());
          entries := entries + [e];
          sumOfPriorities := sumOfPriorities + ev.priority;
        }
      }
      assert events[..|events|] == events;
      EntriesRepresent(events, true);
      EntriesRepresent(events, false);
    }

    ghost predicate Fresh()
      reads this
    {
      && numDismissed == 0 && sumOfDemands == 0
      && sumOfPriorities == RealSum(entries, PriorityOf())
      && (forall i :: 0 <= i < |entries| ==> IsFresh(entries[i]))
    }

    /** With fewer jobs than workers the result is a complete and fair distribution; with too many jobs,
        each keeps the volume one. */
    method CalculateResult()
      requires Fresh()
      modifies this
      ensures availableVolume == old(availableVolume) && sumOfPriorities == old(sumOfPriorities)
      ensures availableVolume <= |old(entries)| ==> entries == old(entries)
      ensures availableVolume > |old(entries)| ==>
                Distributed(old(entries), entries, sumOfPriorities, availableVolume)
      ensures Computes(hash, old(entries), availableVolume, entries)
    {
      FreshFacts();
      hide *;
      if availableVolume <= |entries| {
        ComputesNothing(hash, entries, availableVolume);
        return;
      }
      ghost var es := entries;
      SortAllEntries();
      ghost var sorted := entries;
      ComputeFairShares();
      SharedFacts(es, sorted, entries, sumOfPriorities, availableVolume, sumOfDemands);
      ghost var shared := entries;
      AssignVolumes(es);
      ComputesIs(hash, es, shared, sumOfPriorities, availableVolume, entries);
    }

    method SortAllEntries()
      requires Fresh()
      modifies `entries
      ensures Fresh() && |entries| == |old(entries)|
      ensures multiset(old(entries)) == multiset(entries) && entries == SortByPriority(hash, old(entries))
    {
      FreshFacts();
      hide *;
      SortRemainingEntries();
      assert entries[0..] == entries && old(entries)[0..] == old(entries);
      FreshPermuted(old(entries), entries);
      FreshAgain();
    }

    /** Either all demands fit, or a common multiplier is searched. */
    method AssignVolumes(ghost es: seq<Entry>)
      requires AllWellFormed(Shares(entries)) && Brackets(Shares(entries), minMultiplier, maxMultiplier)
      requires 0.0 < minMultiplier && |es| == |entries| < availableVolume
      requires sumOfDemands == Sum(Shares(entries), CappedDemand())
      requires |entries| > 0 ==>
                 && RealSum(Shares(entries), FairShareOf()) == availableVolume as real
                 && centerOfMass == RealSum(Shares(entries), CenterOf()) / |entries| as real
      requires |entries| > 0 ==>
                 && sumOfPriorities > 0.0
                 && multiset(Shares(entries)) == multiset(Shares(WithFairShares(es, sumOfPriorities, availableVolume)))
      requires forall i :: 0 <= i < |entries| ==> entries[i].fairShare <= availableVolume as real
      requires SharesFollowPriorities(entries)
      requires Min(availableVolume, Sum(es, OriginalDemand()))
            == if sumOfDemands <= availableVolume then sumOfDemands else availableVolume
      requires minMultiplier == LowestOf(entries, |entries|)
      requires maxMultiplier == HighestOf(entries, |entries|) + EPSILON && sumOfPriorities == RealSum(es, PriorityOf())
      modifies `entries, `prevLb, `prevUb, `numDismissed, `baseUtilization, `maxVolumeDiff
      ensures Distributed(es, entries, sumOfPriorities, availableVolume)
      ensures Assigns(hash, old(entries), availableVolume, entries)
    {
      hide *;
      ghost var shared := entries;
      if sumOfDemands <= availableVolume {
        AssignFullDemands();
        FullDemandsFair(entries, minMultiplier, maxMultiplier);
      } else {
        SomeJob(entries);
        CalculateFunctionOptimizationAssignments();
      }
      Conclude(es, shared, entries, sumOfPriorities, availableVolume);
      AssignsIs(hash, shared, availableVolume, entries, sumOfDemands, centerOfMass);
    }

    lemma {:induction false} FreshFacts()
      requires Fresh()
      ensures numDismissed == 0 && sumOfDemands == 0 && sumOfPriorities == RealSum(entries, PriorityOf())
      ensures forall i :: 0 <= i < |entries| ==> IsFresh(entries[i])
    {
    }

    lemma {:induction false} FreshAgain()
      requires numDismissed == 0 && sumOfDemands == 0 && sumOfPriorities == RealSum(entries, PriorityOf())
      requires forall i :: 0 <= i < |entries| ==> IsFresh(entries[i])
      ensures Fresh()
    {
    }

    method SortRemainingEntries()
      requires 0 <= numDismissed <= |entries|
      modifies `entries
      ensures |entries| == |old(entries)|
      ensures entries[..numDismissed] == old(entries)[..numDismissed]
      ensures entries == old(entries)[..numDismissed] + SortByPriority(hash, old(entries)[numDismissed..])
      ensures Ordered(hash, entries[numDismissed..])
      ensures forall i, j :: numDismissed <= i < j < |entries| ==>
                var a, b := entries[i], entries[j];
                || a.priority > b.priority
                || (a.priority == b.priority && a.originalDemand > b.originalDemand)
                || (a.priority == b.priority && a.originalDemand == b.originalDemand && hash(a.jobId) < hash(b.jobId))
                || (a.priority == b.priority && a.originalDemand == b.originalDemand && hash(a.jobId) == hash(b.jobId)
                    && a.jobId <= b.jobId)
      ensures multiset(entries[numDismissed..]) == multiset(old(entries)[numDismissed..])
    {
      var sorted := SortByPriority(hash, entries[numDismissed..]);
      assert |sorted| == |multiset(sorted)| == |multiset(entries[numDismissed..])| == |entries[numDismissed..]|;
      entries := entries[..numDismissed] + sorted;
      assert entries[numDismissed..] == sorted;
    }

    // ----- fair shares -----------------------------------------------------

    method ComputeFairShares()
      requires Fresh() && |entries| < availableVolume
      modifies `entries, `minMultiplier, `maxMultiplier, `centerOfMass, `sumOfDemands
      ensures |entries| == |old(entries)|
      ensures |entries| > 0 ==>
                sumOfPriorities > 0.0 && entries == WithFairShares(old(entries), sumOfPriorities, availableVolume)
      ensures AllWellFormed(Shares(entries)) && Brackets(Shares(entries), minMultiplier, maxMultiplier)
      ensures 0.0 < minMultiplier == LowestOf(entries, |entries|)
      ensures maxMultiplier == HighestOf(entries, |entries|) + EPSILON
      ensures sumOfDemands == Sum(Shares(entries), CappedDemand())
      ensures |entries| > 0 ==> centerOfMass == RealSum(Shares(entries), CenterOf()) / |entries| as real
    {
      minMultiplier, maxMultiplier, centerOfMass := INT32_MAX as real, 0.0, 0.0;
      var n := |entries|;
      PrioritySumPositive(entries);
      ghost var fair := if n == 0 then [] else WithFairShares(entries, sumOfPriorities, availableVolume);
      if n > 0 { FairSharesWellFormed(entries, sumOfPriorities, availableVolume, fair); }
      AccumulateStart(fair);
      hide *;
      ShareOutPerJob(fair);
      AccumulateDone(fair, minMultiplier, maxMultiplier, sumOfDemands, centerOfMass);
      maxMultiplier := maxMultiplier + EPSILON;
      if n > 0 { centerOfMass := centerOfMass / n as real; }
    }

    /** The loop over the jobs. */
    method ShareOutPerJob(ghost fair: seq<Entry>)
      requires |entries| == |fair| && AllWellFormed(Shares(fair))
      requires |entries| > 0 ==>
                sumOfPriorities > 0.0 && fair == WithFairShares(entries, sumOfPriorities, availableVolume)
      requires Accumulated(fair, 0, minMultiplier, maxMultiplier, sumOfDemands, centerOfMass)
      modifies `entries, `minMultiplier, `maxMultiplier, `centerOfMass, `sumOfDemands
      ensures entries == fair
      ensures Accumulated(fair, |fair|, minMultiplier, maxMultiplier, sumOfDemands, centerOfMass)
    {
      hide *;
      var n := |entries|;
      for k := 0 to n
        invariant |entries| == n
        invariant forall i :: 0 <= i < k ==> entries[i] == fair[i]
        invariant forall i :: k <= i < n ==> entries[i] == old(entries)[i]
        invariant Accumulated(fair, k, minMultiplier, maxMultiplier, sumOfDemands, centerOfMass)
      {
        var job := WithFairShare(entries[k], sumOfPriorities, availableVolume, n);
        assert job == fair[k] && Shares(fair)[k] == job.Share();
        AccumulateJob(fair, k, job);
        entries := entries[k := job];
      }
    }

    method AccumulateJob(ghost fair: seq<Entry>, k: nat, job: Entry)
      requires AllWellFormed(Shares(fair)) && k < |fair| && job == fair[k]
      requires Accumulated(fair, k, minMultiplier, maxMultiplier, sumOfDemands, centerOfMass)
      modifies `minMultiplier, `maxMultiplier, `centerOfMass, `sumOfDemands
      ensures Accumulated(fair, k + 1, minMultiplier, maxMultiplier, sumOfDemands, centerOfMass)
    {
      assert Shares(fair)[k].WellFormed();
      var lb, ub := job.MultiplierLowerBound(), job.MultiplierUpperBound();
      AccumulateStep(fair, k, minMultiplier, maxMultiplier, sumOfDemands, centerOfMass, lb, ub);
      VolumeAtBounds(job, lb, ub);
      hide *;
      centerOfMass := centerOfMass + (lb + ub) / 2.0;
      minMultiplier := RealMin(minMultiplier, lb);
      maxMultiplier := RealMax(maxMultiplier, ub);
      sumOfDemands := sumOfDemands + job.demand;
      assert 1 == job.GetVolume(lb);
      assert job.demand == job.GetVolume(ub + EPSILON);
    }

    /** Every job receives its full demand. */
    method AssignFullDemands()
      modifies `entries
      ensures Shares(entries) == Shares(old(entries)) && entries == FullDemands(old(entries))
      ensures forall i :: 0 <= i < |entries| ==> entries[i].volume == entries[i].demand
    {
      ghost var es := entries;
      for k := 0 to |entries|
        invariant |entries| == |es|
        invariant forall i :: 0 <= i < k ==> entries[i] == FullDemands(es)[i]
        invariant forall i :: k <= i < |es| ==> entries[i] == es[i]
      {
        entries := entries[k := entries[k].(volume := entries[k].demand)];
      }
    }

    // ----- evaluation of one multiplier --------------------------------------

    ghost function View(): Progress
      reads this
    {
      Progress(entries, prevLb, prevUb, numDismissed, baseUtilization, maxVolumeDiff)
    }

    ghost function HalfOf(left: real, right: real): Half
      reads `prevLb, `prevUb
    {
      if prevLb == -1.0 then Whole else if left == prevLb then LeftHalf else RightHalf
    }

    /** What an evaluation within `[left, right]` relies on. */
    ghost predicate Ready(left: real, right: real)
      reads this
    {
      && 0.0 < left < right
      && AllWellFormed(Shares(entries))
      && 0 <= numDismissed <= |entries|
      && (forall k :: 0 <= k < numDismissed ==> Settled(entries[k], left, right))
      && baseUtilization == Assigned(entries[..numDismissed])
      && (prevLb == -1.0 ==> numDismissed == 0 && prevUb == -1.0)
      && (prevLb != -1.0 ==>
            && (left == prevLb) != (right == prevUb)
            && (forall k :: numDismissed <= k < |entries| ==> Cached(entries[k], HalfOf(left, right), left, right)))
    }

    /** What an evaluation of `mid` within `[left, right]` leaves behind. */
    ghost predicate EvaluatedAt(left: real, mid: real, right: real)
      reads this
    {
      && prevLb == left && prevUb == right
      && AllWellFormed(Shares(entries))
      && Scanned(entries, numDismissed, |entries|, Whole, left, mid, right)
      && baseUtilization == Assigned(entries[..numDismissed])
      && LargestDiff(entries, numDismissed, |entries|, maxVolumeDiff)
    }

    /** The cached, cut-off evaluation agrees with evaluating all jobs from scratch: same sign of the
        excess, same value unless negative; jobs are at most permuted. */
    method CalculateExcessVolumeOrNegative(multiplier: real, left: real, right: real) returns (excess: int)
      requires Ready(left, right) && left < multiplier < right
      modifies `entries, `prevLb, `prevUb, `numDismissed, `baseUtilization, `maxVolumeDiff
      ensures EvaluatedAt(left, multiplier, right)
      ensures (View(), excess) == Evaluation(old(View()), multiplier, left, right, availableVolume)
      ensures multiset(Shares(entries)) == multiset(Shares(old(entries)))
      ensures var exact := availableVolume - Utilization(Shares(entries), multiplier);
              if exact >= 0 then excess == exact else excess < 0
    {
      ghost var half, before := HalfOf(left, right), View();
      HalvesApart(left, right);
      hide JobShare.Volume, Examined, Prepared, Evaluation, Scan, Ready;
      PrepareCaches(multiplier, left, right);
      var leftHalf, rightHalf := left == prevLb, right == prevUb;
      var utilization := baseUtilization;
      utilization := ExamineJobs(half, multiplier, left, right, leftHalf, rightHalf, utilization);
      ScanDone(entries, numDismissed, half, left, multiplier, right, baseUtilization, maxVolumeDiff, utilization,
               availableVolume);
      EvaluationIs(before, multiplier, left, right, availableVolume, View(), utilization);
      prevLb, prevUb := left, right;
      excess := availableVolume - utilization;
    }

    lemma {:induction false} HalvesApart(left: real, right: real)
      requires Ready(left, right)
      ensures (left == prevLb) == HalfOf(left, right).LeftHalf? && (right == prevUb) == HalfOf(left, right).RightHalf?
    {
    }

    /** The first evaluation computes the volumes at the bounds. */
    method PrepareCaches(ghost multiplier: real, left: real, right: real)
      requires Ready(left, right) && left < multiplier < right
      modifies `entries, `maxVolumeDiff
      ensures View() == Prepared(old(View()), left, right) && Shares(entries) == Shares(old(entries))
      ensures 0 <= numDismissed <= |entries| == |old(entries)| && HalfOf(left, right) == old(HalfOf(left, right))
      ensures Scan(entries, numDismissed, numDismissed, HalfOf(left, right), left, multiplier, right,
                   baseUtilization, maxVolumeDiff, baseUtilization, availableVolume)
    {
      hide JobShare.Volume;
      if prevLb == -1.0 {
        CacheBounds(left, right);
      }
      maxVolumeDiff := 0;
      assert entries[..0] == [];
      ScanStart(entries, numDismissed, HalfOf(left, right), left, multiplier, right, baseUtilization, availableVolume);
    }

    /** The loop over the active jobs. */
    method ExamineJobs(ghost half: Half, multiplier: real, left: real, right: real, leftHalf: bool, rightHalf: bool,
        startUtilization: int) returns (utilization: int)
      requires leftHalf == half.LeftHalf? && rightHalf == half.RightHalf? && left < multiplier < right
      requires 0 <= numDismissed <= |entries|
      requires Scan(entries, numDismissed, numDismissed, half, left, multiplier, right,
                    baseUtilization, maxVolumeDiff, startUtilization, availableVolume)
      modifies `entries, `numDismissed, `baseUtilization, `maxVolumeDiff
      ensures (View(), utilization)
           == Examined(old(View()), startUtilization, old(numDismissed), |old(entries)|,
                       Place(multiplier, leftHalf, rightHalf, availableVolume))
      ensures multiset(Shares(entries)) == multiset(Shares(old(entries)))
      ensures Scan(entries, numDismissed, |entries|, half, left, multiplier, right,
                   baseUtilization, maxVolumeDiff, utilization, availableVolume)
    {
      hide JobShare.Volume, Scan, Examined, Examine;
      ghost var start, first := View(), numDismissed;
      ghost var at := Place(multiplier, leftHalf, rightHalf, availableVolume);
      ExaminedFirst(start, startUtilization, first, at);
      utilization := startUtilization;
      for i := numDismissed to |entries|
        invariant |entries| == |old(entries)| && multiset(Shares(entries)) == multiset(Shares(old(entries)))
        invariant Scan(entries, numDismissed, i, half, left, multiplier, right,
                       baseUtilization, maxVolumeDiff, utilization, availableVolume)
        invariant (View(), utilization) == Examined(start, startUtilization, first, i, at)
      {
        ExaminedNext(start, startUtilization, first, i, at);
        ScanFacts(entries, numDismissed, i, half, left, multiplier, right,
                  baseUtilization, maxVolumeDiff, utilization, availableVolume);
        RefreshedBounds(entries[i], half, left, right);
        ExamineIs(View(), utilization, i, at);
        var job := Refreshed(entries[i], leftHalf, rightHalf);
        if job.volumeLower == job.volumeUpper {
          job := job.(volume := job.volumeLower);
          var swapped := Dismiss(entries[i := job], numDismissed, i);
          DismissStep(entries, numDismissed, i, half, left, multiplier, right,
                      baseUtilization, maxVolumeDiff, utilization, availableVolume, job, swapped);
          utilization := utilization + job.volumeLower;
          baseUtilization := baseUtilization + job.volumeLower;
          entries, numDismissed := swapped, numDismissed + 1;
        } else {
          job := job.(volume := job.GetVolume(multiplier));
          var sum := if utilization <= availableVolume then utilization + job.volume else utilization;
          KeepStep(entries, numDismissed, i, half, left, multiplier, right,
                   baseUtilization, maxVolumeDiff, utilization, availableVolume, job, sum);
          utilization := sum;
          maxVolumeDiff := Max(maxVolumeDiff, job.volumeUpper - job.volumeLower);
          entries := entries[i := job];
        }
      }
    }

    method CacheBounds(left: real, right: real)
      requires AllWellFormed(Shares(entries))
      modifies `entries
      ensures Shares(entries) == Shares(old(entries)) && entries == WithBounds(old(entries), left, right)
      ensures forall k :: 0 <= k < |entries| ==> Cached(entries[k], Whole, left, right)
    {
      hide JobShare.Volume;
      ghost var es := entries;
      for k := 0 to |entries|
        invariant |entries| == |es|
        invariant forall i :: 0 <= i < k ==> entries[i] == WithBounds(es, left, right)[i]
        invariant forall i :: k <= i < |es| ==> entries[i] == es[i]
      {
        var job := entries[k];
        assert Shares(es)[k].WellFormed();
        entries := entries[k := job.(volumeLower := job.GetVolume(left), volumeUpper := job.GetVolume(right))];
      }
    }

    // ----- the search --------------------------------------------------------

    /** Caches and dismissals of an evaluation serve both halves of its interval. */
    lemma {:induction false} ReadyForHalves(lower: real, mid: real, upper: real)
      requires EvaluatedAt(lower, mid, upper) && 0.0 < lower < mid < upper
      ensures Ready(mid, upper) && Ready(lower, mid)
    {
      hide JobShare.Volume;
      forall k | 0 <= k < numDismissed
        ensures Settled(entries[k], mid, upper) && Settled(entries[k], lower, mid)
      {
        assert Shares(entries)[k].WellFormed();
        SettledInside(entries[k], lower, upper, mid, upper);
        SettledInside(entries[k], lower, upper, lower, mid);
      }
      forall k | numDismissed <= k < |entries|
        ensures Cached(entries[k], RightHalf, mid, upper) && Cached(entries[k], LeftHalf, lower, mid)
      {
        assert Evaluated(entries[k], lower, mid, upper);
      }
    }

    lemma {:induction false} SearchProgress(lower: real, mid: real, upper: real, top: real, width: real, width': real)
      requires EvaluatedAt(lower, mid, upper) && maxVolumeDiff >= 2
      requires width == upper - lower > 0.0 && width' == width / 2.0
      requires forall s :: s in multiset(Shares(entries)) ==> s.fairShare <= top
      ensures Rounds(width', top) < Rounds(width, top)
    {
      hide JobShare.Volume, Rounds;
      var k :| numDismissed <= k < |entries| && entries[k].volumeUpper - entries[k].volumeLower == maxVolumeDiff;
      assert Evaluated(entries[k], lower, mid, upper);
      assert Shares(entries)[k] == entries[k].Share() && Shares(entries)[k] in multiset(Shares(entries));
      HalvingProgress(entries[k].Share(), lower, upper, top, width, width');
    }

    lemma {:induction false} EvaluationFacts(lower: real, mid: real, upper: real)
      requires EvaluatedAt(lower, mid, upper)
      ensures 0 <= numDismissed <= |entries|
      ensures Scanned(entries, numDismissed, |entries|, Whole, lower, mid, upper)
      ensures LargestDiff(entries, numDismissed, |entries|, maxVolumeDiff)
    {
    }

    /** With no excess left the evaluated volumes are final. */
    lemma {:induction false} ExactFit(lower: real, mid: real, upper: real)
      requires EvaluatedAt(lower, mid, upper) && lower < mid < upper
      requires Utilization(Shares(entries), mid) == availableVolume
      ensures Assigned(entries) == availableVolume && Fair(entries, mid, mid)
    {
      hide JobShare.Volume;
      forall k | 0 <= k < |entries| ensures entries[k].volume == entries[k].Share().Volume(mid) {
        assert Shares(entries)[k].WellFormed();
        if k < numDismissed {
          SettledInside(entries[k], lower, upper, mid, mid);
        } else {
          assert Evaluated(entries[k], lower, mid, upper);
        }
      }
      AssignedAtMultiplier(entries, mid);
    }

    /** At the lower bound, one additional worker per remaining job by priority until none is left. */
    method HandOutRemaining(lower: real, ghost mid: real, ghost upper: real, excess: int)
      requires 0 <= numDismissed <= |entries| && lower < mid < upper && maxVolumeDiff <= 1
      requires Scanned(entries, numDismissed, |entries|, Whole, lower, mid, upper)
      requires LargestDiff(entries, numDismissed, |entries|, maxVolumeDiff)
      requires Bracketing(entries, availableVolume, lower, upper, excess)
      modifies `entries
      ensures multiset(Shares(entries)) == multiset(Shares(old(entries)))
      ensures entries == HandedOut(hash, old(entries), numDismissed, excess)
      ensures Assigned(entries) == availableVolume
      ensures Fair(entries, lower, upper)
    {
      hide *;
      SortRemainingEntries();
      ghost var es := entries;
      RemainingJobs(old(entries), es, numDismissed, lower, mid, upper, maxVolumeDiff, availableVolume, excess);
      var numRemaining := |entries| - numDismissed;
      assert numRemaining > excess > 0;
      var stillAvailable := DistributeOnePerJob(excess, lower);
      assert stillAvailable == 0 by { NoneLeft(excess, numRemaining); }
      LastWorkers(hash, es, entries, numDismissed, lower, upper, availableVolume, excess);
      HandedOutIs(hash, old(entries), es, entries, numDismissed, lower, excess);
    }

    method DistributeOnePerJob(excess: int, ghost lower: real) returns (stillAvailable: int)
      requires 0 <= numDismissed <= |entries| && excess > 0
      requires forall k :: 0 <= k < numDismissed ==> entries[k].volume == entries[k].Share().Volume(lower)
      requires forall k :: numDismissed <= k < |entries| ==> entries[k].volumeLower == entries[k].Share().Volume(lower)
      modifies `entries
      ensures |entries| == |old(entries)|
      ensures stillAvailable == Max(0, excess - (|entries| - numDismissed))
      ensures forall k :: 0 <= k < |entries| ==>
                && entries[k] == old(entries)[k].(volume := entries[k].volume)
                && entries[k].volume == entries[k].Share().Volume(lower) + Bonus(k, numDismissed, excess)
    {
      hide JobShare.Volume;
      stillAvailable := excess;
      for i := numDismissed to |entries|
        invariant |entries| == |old(entries)|
        invariant stillAvailable == Max(0, excess - (i - numDismissed))
        invariant forall k :: 0 <= k < |entries| ==> entries[k] == old(entries)[k].(volume := entries[k].volume)
        invariant forall k :: 0 <= k < i ==>
                    entries[k].volume == entries[k].Share().Volume(lower) + Bonus(k, numDismissed, excess)
      {
        var job := entries[i];
        job := job.(volume := job.volumeLower);
        if stillAvailable > 0 {
          job := job.(volume := job.volume + 1);
          stillAvailable := stillAvailable - 1;
        }
        entries := entries[i := job];
      }
    }

    method CalculateFunctionOptimizationAssignments()
      requires AllWellFormed(Shares(entries)) && Brackets(Shares(entries), minMultiplier, maxMultiplier)
      requires 0.0 < minMultiplier
      requires |entries| < availableVolume < Sum(Shares(entries), CappedDemand())
      requires RealSum(Shares(entries), FairShareOf()) == availableVolume as real
      requires forall i :: 0 <= i < |entries| ==> entries[i].fairShare <= availableVolume as real
      requires |entries| > 0 && centerOfMass == RealSum(Shares(entries), CenterOf()) / |entries| as real
      requires minMultiplier == LowestOf(entries, |entries|)
      requires maxMultiplier == HighestOf(entries, |entries|) + EPSILON
      modifies `entries, `prevLb, `prevUb, `numDismissed, `baseUtilization, `maxVolumeDiff
      ensures multiset(Shares(entries)) == multiset(Shares(old(entries)))
      ensures EndsWith(hash, Start(old(entries), availableVolume), centerOfMass, availableVolume, entries)
      ensures Assigned(entries) == availableVolume
      ensures exists alpha, beta :: 0.0 < alpha && Fair(entries, alpha, beta)
    {
      SearchStart(entries, availableVolume, minMultiplier, maxMultiplier, centerOfMass);
      prevLb, prevUb := -1.0, -1.0;
      numDismissed, baseUtilization, maxVolumeDiff := 0, 0, 0;
      assert entries[..0] == [];
      assert SearchFrom() == Start(entries, availableVolume);
      hide Brackets, AllWellFormed, Utilization, Sum, RealSum, Bracketing, EndsWith, Start;
      SearchMultiplier();
    }

    ghost function SearchFrom(): Search
      reads this
    {
      Search(View(), Interval(minMultiplier, maxMultiplier, 1.0, availableVolume - |entries|), -1, false)
    }

    lemma {:induction false} ViewIs()
      ensures View() == Progress(entries, prevLb, prevUb, numDismissed, baseUtilization, maxVolumeDiff)
      ensures SearchFrom()
           == Search(View(), Interval(minMultiplier, maxMultiplier, 1.0, availableVolume - |entries|), -1, false)
    {
    }

    /** The search loop: the interval always brackets the wanted multiplier, and it shrinks until either
        the volumes fit exactly or no volume varies by more than one. */
    method SearchMultiplier()
      requires Ready(minMultiplier, maxMultiplier) && prevLb == -1.0 && 0.0 < minMultiplier
      requires minMultiplier < 1.0 < maxMultiplier && minMultiplier < centerOfMass < maxMultiplier
      requires Bracketing(entries, availableVolume, minMultiplier, maxMultiplier, availableVolume - |entries|)
      requires forall s :: s in multiset(Shares(entries)) ==> s.fairShare <= availableVolume as real
      modifies `entries, `prevLb, `prevUb, `numDismissed, `baseUtilization, `maxVolumeDiff
      ensures multiset(Shares(entries)) == multiset(Shares(old(entries)))
      ensures EndsWith(hash, old(SearchFrom()), centerOfMass, availableVolume, entries)
      ensures Assigned(entries) == availableVolume
      ensures exists alpha, beta :: 0.0 < alpha && Fair(entries, alpha, beta)
    {
      hide *;
      var lower, upper, mid := minMultiplier, maxMultiplier, 1.0;
      var bestExcess := -1;
      var excessAtLeft := availableVolume - |entries|;
      ghost var shares, top := multiset(Shares(entries)), availableVolume as real;
      ghost var phase, width := 2, upper - lower;
      ghost var start, n: nat := SearchFrom(), 0;
      ViewIs();
      IteratedFirst(hash, start, centerOfMass, availableVolume);
      while true
        invariant Iterated(hash, start, centerOfMass, availableVolume, n)
               == Search(View(), Interval(lower, upper, mid, excessAtLeft), bestExcess, false)
        invariant Ready(lower, upper) && 0.0 < lower < mid < upper
        invariant Bracketing(entries, availableVolume, lower, upper, excessAtLeft)
        invariant bestExcess != 0 && width == upper - lower
        invariant multiset(Shares(entries)) == shares
        invariant phase == 0 || phase == 1 || phase == 2
        invariant phase == 2 ==> mid == 1.0 && lower == minMultiplier && upper == maxMultiplier
        invariant phase != 2 ==> 1.0 <= lower || upper <= 1.0
        invariant phase == 0 ==> mid == (lower + upper) / 2.0
        decreases phase, Rounds(width, top)
      {
        ghost var es := entries;
        ghost var now := Search(View(), Interval(lower, upper, mid, excessAtLeft), bestExcess, false);
        var excess := CalculateExcessVolumeOrNegative(mid, lower, upper);
        ghost var after := View();
        ViewIs();
        BracketingHalves(es, entries, availableVolume, lower, mid, upper, excessAtLeft, excess);
        if bestExcess == -1 || Abs(excess) < Abs(bestExcess) {
          bestExcess := excess;
          if bestExcess == 0 {
            EndsExactly(hash, start, centerOfMass, availableVolume, n, now, after);
            ExactFit(lower, mid, upper);
            return;
          }
        }
        assert excess != 0 by { SmallestAbs(excess, bestExcess); }
        if maxVolumeDiff <= 1 {
          EvaluationFacts(lower, mid, upper);
          EndsByHand(hash, start, centerOfMass, availableVolume, n, now, after, excess);
          HandOutRemaining(lower, mid, upper, excessAtLeft);
          return;
        }
        ReadyForHalves(lower, mid, upper);
        if phase == 0 { SearchProgress(lower, mid, upper, top, width, width / 2.0); }
        lower, upper, mid, excessAtLeft, phase :=
          NarrowInterval(lower, mid, upper, centerOfMass, excessAtLeft, excess, phase, minMultiplier, maxMultiplier);
        width := upper - lower;
        GoesOn(hash, start, centerOfMass, availableVolume, n, now, after, excess);
        n := n + 1;
      }
    }
  }

  // ----- the calculation as a function ------------------------------------------------------------

  /** A scan that has examined all entries. */
  lemma {:induction false} ScanDone(es: seq<Entry>, dismissed: int, half: Half, left: real, mid: real, right: real,
      base: int, diff: int, sum: int, available: int)
    requires Scan(es, dismissed, |es|, half, left, mid, right, base, diff, sum, available)
    ensures Scanned(es, dismissed, |es|, Whole, left, mid, right) && AllWellFormed(Shares(es))
    ensures base == Assigned(es[..dismissed]) && LargestDiff(es, dismissed, |es|, diff)
    ensures CutOff(sum, Utilization(Shares(es), mid), available)
  {
    hide JobShare.Volume;
    assert es[..|es|] == es;
  }

  lemma {:induction false} EvaluationIs(p: Progress, mid: real, left: real, right: real, available: int, r: Progress,
      sum: int)
    requires (r, sum) == Examined(Prepared(p, left, right), p.base, p.dismissed, |p.entries|,
                                  Place(mid, left == p.prevLb, right == p.prevUb, available))
    ensures Evaluation(p, mid, left, right, available) == (r.(prevLb := left, prevUb := right), available - sum)
  {
    hide Examined;
  }

  lemma {:induction false} ExaminedFirst(p: Progress, sum: int, start: int, at: Place)
    ensures Examined(p, sum, start, start, at) == (p, sum)
  {
  }

  lemma {:induction false} ExaminedNext(p: Progress, sum: int, start: int, i: int, at: Place)
    requires start <= i
    ensures var (q, s) := Examined(p, sum, start, i, at); Examined(p, sum, start, i + 1, at) == Examine(q, s, i, at)
  {
  }

  lemma {:induction false} ExamineIs(p: Progress, sum: int, i: int, at: Place)
    requires 0 <= p.dismissed <= i < |p.entries|
    ensures var job := Refreshed(p.entries[i], at.leftHalf, at.rightHalf);
            && job.Share() == p.entries[i].Share()
            && (job.volumeLower == job.volumeUpper ==>
                  Examine(p, sum, i, at) ==
                  (p.(entries := Dismiss(p.entries[i := job.(volume := job.volumeLower)], p.dismissed, i),
                      dismissed := p.dismissed + 1, base := p.base + job.volumeLower), sum + job.volumeLower))
            && (job.volumeLower != job.volumeUpper ==>
                  Examine(p, sum, i, at) ==
                  (p.(entries := p.entries[i := job.(volume := job.Share().Volume(at.mid))],
                      diff := Max(p.diff, job.volumeUpper - job.volumeLower)),
                   if sum <= at.available then sum + job.Share().Volume(at.mid) else sum))
  {
    hide JobShare.Volume;
  }

  lemma {:induction false} HandedOutIs(hash: int -> int, es: seq<Entry>, sorted: seq<Entry>, r: seq<Entry>,
      dismissed: int, lower: real, excess: int)
    requires 0 <= dismissed <= |es| && sorted == es[..dismissed] + SortByPriority(hash, es[dismissed..])
    requires |r| == |sorted|
    requires forall k :: 0 <= k < |r| ==>
               && r[k] == sorted[k].(volume := r[k].volume)
               && r[k].volume == r[k].Share().Volume(lower) + Bonus(k, dismissed, excess)
               && (if k < dismissed then sorted[k].volume else sorted[k].volumeLower) == sorted[k].Share().Volume(lower)
    ensures r == HandedOut(hash, es, dismissed, excess)
  {
    hide JobShare.Volume, SortByPriority;
  }

  lemma {:induction false} IteratedFirst(hash: int -> int, s: Search, center: real, available: int)
    ensures Iterated(hash, s, center, available, 0) == s
  {
  }

  lemma {:induction false} EndsExactly(hash: int -> int, start: Search, center: real, available: int, n: nat,
      now: Search, p: Progress)
    requires Iterated(hash, start, center, available, n) == now && !now.done
    requires (p, 0) == Evaluation(now.p, now.interval.mid, now.interval.lower, now.interval.upper, available)
    requires now.bestExcess != 0
    ensures EndsWith(hash, start, center, available, p.entries)
  {
    var next := Iterated(hash, start, center, available, n + 1);
    hide Evaluation, Narrowed, HandedOut;
    assert next == Iteration(hash, now, center, available);
  }

  lemma {:induction false} EndsByHand(hash: int -> int, start: Search, center: real, available: int, n: nat,
      now: Search, p: Progress, excess: int)
    requires Iterated(hash, start, center, available, n) == now && !now.done
    requires (p, excess) == Evaluation(now.p, now.interval.mid, now.interval.lower, now.interval.upper, available)
    requires excess != 0 && now.bestExcess != 0 && p.diff <= 1 && 0 <= p.dismissed <= |p.entries|
    ensures EndsWith(hash, start, center, available,
                     HandedOut(hash, p.entries, p.dismissed, now.interval.excessAtLeft))
  {
    var next := Iterated(hash, start, center, available, n + 1);
    hide Evaluation, Narrowed, HandedOut;
    assert next == Iteration(hash, now, center, available);
  }

  lemma {:induction false} GoesOn(hash: int -> int, start: Search, center: real, available: int, n: nat, now: Search,
      p: Progress, excess: int)
    requires Iterated(hash, start, center, available, n) == now && !now.done
    requires (p, excess) == Evaluation(now.p, now.interval.mid, now.interval.lower, now.interval.upper, available)
    requires excess != 0 && now.bestExcess != 0 && p.diff > 1
    ensures Iterated(hash, start, center, available, n + 1) ==
              Search(p, Narrowed(now.interval, center, excess),
                     if now.bestExcess == -1 || Abs(excess) < Abs(now.bestExcess) then excess else now.bestExcess,
                     false)
  {
    hide Evaluation, Narrowed, HandedOut;
  }

  lemma {:induction false} AssignsIs(hash: int -> int, shared: seq<Entry>, available: int, r: seq<Entry>, demands: int,
      center: real)
    requires demands == Sum(Shares(shared), CappedDemand())
    requires demands <= available ==> r == FullDemands(shared)
    requires demands > available ==>
               && |shared| > 0 && center == RealSum(Shares(shared), CenterOf()) / |shared| as real
               && EndsWith(hash, Start(shared, available), center, available, r)
    ensures Assigns(hash, shared, available, r)
  {
    hide EndsWith, Start, Sum, RealSum;
  }

  lemma {:induction false} ComputesNothing(hash: int -> int, es: seq<Entry>, available: int)
    requires available <= |es|
    ensures Computes(hash, es, available, es)
  {
    hide SortByPriority, RealSum;
  }

  lemma {:induction false} ComputesIs(hash: int -> int, es: seq<Entry>, shared: seq<Entry>, total: real,
      available: int, r: seq<Entry>)
    requires available > |es| && |r| == |es| == |shared| && total == RealSum(es, PriorityOf())
    requires |shared| > 0 ==>
               total > 0.0 && shared == WithFairShares(SortByPriority(hash, es), total, available)
    requires Assigns(hash, shared, available, r)
    ensures Computes(hash, es, available, r)
  {
    hide SortByPriority, RealSum, Assigns;
  }

  /** Sorting the remaining jobs keeps what an evaluation established for each of them. */
  lemma {:induction false} SortedSuffix(es: seq<Entry>, r: seq<Entry>, first: nat, lower: real, mid: real,
      upper: real, diff: int)
    requires first <= |es| == |r| && r[..first] == es[..first]
    requires multiset(r[first..]) == multiset(es[first..])
    requires Scanned(es, first, |es|, Whole, lower, mid, upper) && LargestDiff(es, first, |es|, diff) && diff <= 1
    ensures multiset(Shares(r)) == multiset(Shares(es))
    ensures forall k :: 0 <= k < |r| ==>
              && r[k].Share().Volume(upper) == r[k].Share().Volume(lower) + Bonus(k, first, |r| - first)
              && (if k < first then r[k].volume else r[k].volumeLower) == r[k].Share().Volume(lower)
  {
    hide JobShare.Volume;
    forall k | 0 <= k < |r|
      ensures && r[k].Share().Volume(upper) == r[k].Share().Volume(lower) + Bonus(k, first, |r| - first)
              && (if k < first then r[k].volume else r[k].volumeLower) == r[k].Share().Volume(lower)
    {
      if k < first {
        assert r[k] == r[..first][k] == es[k];
        assert Settled(es[k], lower, upper);
      } else {
        assert r[k] == r[first..][k - first];
        assert r[k] in multiset(r[first..]);
        var j :| 0 <= j < |es[first..]| && es[first..][j] == r[k];
        assert Evaluated(es[first + j], lower, mid, upper);
      }
    }
    assert es == es[..first] + es[first..] && r == r[..first] + r[first..];
    assert multiset(r) == multiset(es);
    var f := (e: Entry) => e.Share();
    MappedPermutation(es, r, f);
    assert Shares(es) == Mapped(es, f) && Shares(r) == Mapped(r, f);
  }

  /** More jobs remain than workers are left at the lower bound. */
  lemma {:induction false} RemainingJobs(es: seq<Entry>, r: seq<Entry>, first: nat, lower: real, mid: real,
      upper: real, diff: int, available: int, excess: int)
    requires first <= |es| == |r| && r[..first] == es[..first] && multiset(r[first..]) == multiset(es[first..])
    requires Scanned(es, first, |es|, Whole, lower, mid, upper) && LargestDiff(es, first, |es|, diff) && diff <= 1
    requires Bracketing(es, available, lower, upper, excess)
    ensures multiset(Shares(r)) == multiset(Shares(es)) && Utilization(Shares(r), lower) == available - excess
    ensures |r| - first > excess > 0
    ensures forall k :: 0 <= k < |r| ==>
              && r[k].Share().Volume(upper) == r[k].Share().Volume(lower) + Bonus(k, first, |r| - first)
              && (if k < first then r[k].volume else r[k].volumeLower) == r[k].Share().Volume(lower)
  {
    hide JobShare.Volume, Sum, Bonus;
    SortedSuffix(es, r, first, lower, mid, upper, diff);
    SumPermutation(Shares(es), Shares(r), VolumeAt(lower));
    SumPermutation(Shares(es), Shares(r), VolumeAt(upper));
    UtilizationGap(r, lower, upper, first);
  }

  /** The distributed workers use up the available volume, fairly. */
  lemma {:induction false} LastWorkers(hash: int -> int, es: seq<Entry>, r: seq<Entry>, first: nat, lower: real,
      upper: real, available: int, excess: int)
    requires lower <= upper && first <= |es| == |r| && 0 < excess < |es| - first && Ordered(hash, es[first..])
    requires Utilization(Shares(es), lower) == available - excess
    requires forall k :: 0 <= k < |es| ==>
               es[k].Share().Volume(upper) == es[k].Share().Volume(lower) + Bonus(k, first, |es| - first)
    requires forall k :: 0 <= k < |r| ==>
               && r[k] == es[k].(volume := r[k].volume)
               && r[k].volume == r[k].Share().Volume(lower) + Bonus(k, first, excess)
    ensures Shares(r) == Shares(es) && Assigned(r) == available && Fair(r, lower, upper)
  {
    hide JobShare.Volume, Sum, Bonus;
    SameShares(es, r, first);
    SameOrder(hash, es[first..], r[first..]);
    assert r[..|r|] == r;
    AssignedWithBonus(r, lower, first, excess, |r|);
    forall k | 0 <= k < |r|
      ensures r[k].Share().Volume(upper) == r[k].Share().Volume(lower) + Bonus(k, first, |r| - first)
    {
      assert r[k].Share() == es[k].Share();
    }
    BonusIsFair(hash, r, lower, upper, first, excess);
  }

  lemma {:induction false} NoneLeft(excess: int, jobs: int)
    requires jobs > excess
    ensures Max(0, excess - jobs) == 0
  {
  }

  lemma {:induction false} SameShares(es: seq<Entry>, r: seq<Entry>, first: nat)
    requires |es| == |r| && first <= |es|
    requires forall k :: 0 <= k < |es| ==> r[k] == es[k].(volume := r[k].volume)
    ensures Shares(es) == Shares(r)
  {
  }

  /** Changing volumes leaves the order alone. */
  lemma {:induction false} SameOrder(hash: int -> int, es: seq<Entry>, r: seq<Entry>)
    requires |es| == |r| && Ordered(hash, es)
    requires forall k :: 0 <= k < |es| ==> r[k] == es[k].(volume := r[k].volume)
    ensures Ordered(hash, r)
  {
    forall i, j | 0 <= i < j < |r| ensures !Precedes(hash, r[j], r[i]) {
      assert !Precedes(hash, es[j], es[i]);
    }
  }

  lemma {:induction false} PermutedFollow(es: seq<Entry>, r: seq<Entry>)
    requires multiset(Shares(es)) == multiset(Shares(r)) && SharesFollowPriorities(es)
    ensures SharesFollowPriorities(r)
  {
    forall i, j | 0 <= i < |r| && 0 <= j < |r| && r[i].priority >= r[j].priority
      ensures r[i].fairShare >= r[j].fairShare
    {
      assert Shares(r)[i] in multiset(Shares(es)) && Shares(r)[j] in multiset(Shares(es));
      var a :| 0 <= a < |es| && Shares(es)[a] == Shares(r)[i];
      var b :| 0 <= b < |es| && Shares(es)[b] == Shares(r)[j];
      assert es[a].priority >= es[b].priority;
    }
  }

  /** No job with strictly higher priority and no smaller demand gets fewer workers. */
  ghost predicate NoInversion(es: seq<Entry>) {
    forall i, j :: 0 <= i < |es| && 0 <= j < |es| && es[i].priority > es[j].priority && es[i].demand >= es[j].demand
                   ==> es[i].volume >= es[j].volume
  }

  /** The workers that a job of this priority and demand is entitled to at a common multiplier: its part of the
      available volume, rounded down, but at least one and at most the demand. */
  ghost function FairVolume(priority: real, demand: int, alpha: real, total: real, available: int): int
    requires total > 0.0
  {
    Max(1, Min(demand, Part(priority, alpha, total, available).Floor))
  }

  ghost function Part(priority: real, alpha: real, total: real, available: int): real
    requires total > 0.0
  {
    alpha * priority * available as real / total
  }

  /** The result is about the same jobs, with their priorities, shares of the available volume in proportion to
      priority, and demands capped at what the other jobs leave. */
  ghost predicate SameJobs(es: seq<Entry>, r: seq<Entry>, total: real, available: int) {
    && (forall i :: 0 <= i < |r| ==> SharesVolume(r[i], total, available))
    && (forall i :: 0 <= i < |r| ==> HasOrigin(es, r[i], available - |es| + 1))
    && (forall j :: 0 <= j < |es| ==> HasResult(es[j], r, available - |es| + 1))
  }

  ghost predicate SharesVolume(e: Entry, total: real, available: int) {
    e.fairShare * total == e.priority * available as real
  }

  ghost predicate HasOrigin(es: seq<Entry>, e: Entry, cap: int) {
    exists j :: 0 <= j < |es| && CappedOf(es[j], e, cap)
  }

  ghost predicate HasResult(e: Entry, r: seq<Entry>, cap: int) {
    exists i :: 0 <= i < |r| && CappedOf(e, r[i], cap)
  }

  ghost predicate CappedOf(e: Entry, r: Entry, cap: int) {
    r.jobId == e.jobId && r.priority == e.priority && r.demand == if e.demand <= cap then e.demand else cap
  }

  /** Each job gets what it is entitled to at `alpha`, or one worker more if it is entitled to that at `beta`; the
      additional workers go to higher priorities first. */
  ghost predicate SplitFairly(r: seq<Entry>, total: real, available: int, alpha: real, beta: real)
    requires total > 0.0
  {
    && 0.0 < alpha <= beta
    && (forall i :: 0 <= i < |r| ==>
          var low, high := FairVolume(r[i].priority, r[i].demand, alpha, total, available),
                           FairVolume(r[i].priority, r[i].demand, beta, total, available);
          low <= r[i].volume <= high <= low + 1)
    && (forall i, j :: 0 <= i < |r| && 0 <= j < |r| && r[i].priority > r[j].priority
          && r[j].volume > FairVolume(r[j].priority, r[j].demand, alpha, total, available)
          ==> r[i].volume == FairVolume(r[i].priority, r[i].demand, beta, total, available))
  }

  /** No worker is withheld and none is invented: the volumes sum up to the smaller of the available
      volume and all original demands. Every job gets between one worker and its demand, in proportion to priority. */
  ghost predicate Distributed(es: seq<Entry>, r: seq<Entry>, total: real, available: int) {
    && |r| == |es| && total == RealSum(es, PriorityOf())
    && (|es| > 0 ==> total > 0.0 && multiset(Shares(r)) == multiset(Shares(WithFairShares(es, total, available))))
    && SameJobs(es, r, total, available)
    && (|es| > 0 ==> exists alpha, beta :: SplitFairly(r, total, available, alpha, beta))
    && Assigned(r) == Min(available, Sum(es, OriginalDemand()))
    && (forall i :: 0 <= i < |r| ==> 1 <= r[i].volume <= r[i].demand)
    && (exists alpha, beta :: 0.0 < alpha && Fair(r, alpha, beta))
    && NoInversion(r)
  }

  lemma {:induction false} Conclude(es: seq<Entry>, shared: seq<Entry>, r: seq<Entry>, total: real, available: int)
    requires multiset(Shares(shared)) == multiset(Shares(r)) && AllWellFormed(Shares(shared))
    requires SharesFollowPriorities(shared) && |es| == |shared| && total == RealSum(es, PriorityOf())
    requires |shared| > 0 ==>
               total > 0.0 && multiset(Shares(shared)) == multiset(Shares(WithFairShares(es, total, available)))
    requires Assigned(r) == Min(available, Sum(es, OriginalDemand()))
    requires exists alpha, beta :: 0.0 < alpha && Fair(r, alpha, beta)
    ensures Distributed(es, r, total, available)
  {
    var alpha, beta :| 0.0 < alpha && Fair(r, alpha, beta);
    assert |shared| == |multiset(Shares(shared))| == |multiset(Shares(r))| == |r|;
    hide JobShare.Volume, WithFairShares, WithFairShare;
    PermutedWellFormed(Shares(shared), Shares(r));
    PermutedFollow(shared, r);
    FairWithinDemand(r, alpha, beta);
    NoInversions(r, alpha, beta);
    hide Fair, NoInversion, SharesFollowPriorities, AllWellFormed, SplitFairly, SameJobs;
    JobsKept(es, r, total, available);
    if |es| > 0 { SplitByPriority(es, r, total, available, alpha, beta); }
  }

  lemma {:induction false} SplitByPriority(es: seq<Entry>, r: seq<Entry>, total: real, available: int, alpha: real,
      beta: real)
    requires total > 0.0 && 0.0 < alpha && Fair(r, alpha, beta) && SameJobs(es, r, total, available)
    ensures SplitFairly(r, total, available, alpha, beta)
  {
    hide Fair, SplitFairly, HasOrigin, HasResult;
    FairIsProportional(r, total, available, alpha, beta);
  }

  lemma {:induction false} NoInversions(r: seq<Entry>, alpha: real, beta: real)
    requires 0.0 < alpha && Fair(r, alpha, beta) && SharesFollowPriorities(r) && AllWellFormed(Shares(r))
    ensures NoInversion(r)
  {
    hide JobShare.Volume;
    forall i, j | 0 <= i < |r| && 0 <= j < |r| && r[i].priority > r[j].priority && r[i].demand >= r[j].demand
      ensures r[i].volume >= r[j].volume
    {
      NoPriorityInversion(r, alpha, beta, i, j);
    }
  }

  lemma {:induction false} JobKept(e: Entry, x: Entry, total: real, available: int, n: int)
    requires total > 0.0 && WithFairShare(e, total, available, n).Share() == x.Share()
    ensures SharesVolume(x, total, available) && CappedOf(e, x, available - n + 1)
  {
    InProportion(e.priority, total, available as real);
    hide Portion;
  }

  lemma {:induction false} OriginKept(es: seq<Entry>, shared: seq<Entry>, r: seq<Entry>, total: real, available: int,
      i: nat)
    requires total > 0.0 && shared == WithFairShares(es, total, available)
    requires i < |r| && multiset(Shares(r)) == multiset(Shares(shared))
    ensures SharesVolume(r[i], total, available) && HasOrigin(es, r[i], available - |es| + 1)
  {
    hide WithFairShare, WithFairShares, CappedOf, SharesVolume;
    assert Shares(r)[i] in multiset(Shares(shared));
    var j :| 0 <= j < |shared| && Shares(shared)[j] == Shares(r)[i];
    JobKept(es[j], r[i], total, available, |es|);
  }

  lemma {:induction false} ResultKept(es: seq<Entry>, shared: seq<Entry>, r: seq<Entry>, total: real, available: int,
      j: nat)
    requires total > 0.0 && shared == WithFairShares(es, total, available)
    requires j < |es| && multiset(Shares(r)) == multiset(Shares(shared))
    ensures HasResult(es[j], r, available - |es| + 1)
  {
    hide WithFairShare, WithFairShares, CappedOf, SharesVolume;
    assert Shares(shared)[j] in multiset(Shares(r));
    var i :| 0 <= i < |r| && Shares(r)[i] == Shares(shared)[j];
    JobKept(es[j], r[i], total, available, |es|);
  }

  /** Equal sets of shares come from the same jobs. */
  lemma {:induction false} JobsKept(es: seq<Entry>, r: seq<Entry>, total: real, available: int)
    requires |r| == |es|
    requires |es| > 0 ==>
               total > 0.0 && multiset(Shares(r)) == multiset(Shares(WithFairShares(es, total, available)))
    ensures SameJobs(es, r, total, available)
  {
    hide WithFairShare, SharesVolume, HasOrigin, HasResult, Shares, WithFairShares;
    forall i: nat | i < |r|
      ensures SharesVolume(r[i], total, available) && HasOrigin(es, r[i], available - |es| + 1)
    {
      OriginKept(es, WithFairShares(es, total, available), r, total, available, i);
    }
    forall j: nat | j < |es| ensures HasResult(es[j], r, available - |es| + 1) {
      ResultKept(es, WithFairShares(es, total, available), r, total, available, j);
    }
  }

  lemma {:induction false} InProportion(p: real, total: real, available: real)
    requires total > 0.0
    ensures Portion(p, total, available) * total == p * available
  {
    var q := p / total;
    assert q * total == p;
    assert q * available * total == (q * total) * available;
  }

  /** The volume at a multiplier, from priority instead of fair share. */
  lemma {:induction false} VolumeByPriority(e: Entry, total: real, available: int, alpha: real)
    requires total > 0.0 && SharesVolume(e, total, available)
    ensures e.Share().Volume(alpha) == FairVolume(e.priority, e.demand, alpha, total, available)
  {
    EntitledToPart(e, total, available, alpha);
    hide JobShare.Entitled, Part, SharesVolume;
  }

  lemma {:induction false} EntitledToPart(e: Entry, total: real, available: int, alpha: real)
    requires total > 0.0 && SharesVolume(e, total, available)
    ensures e.Share().Entitled(alpha) == Part(e.priority, alpha, total, available)
  {
    var f, p, a := e.fairShare, e.priority, available as real;
    Regrouped(alpha, f, total);
    Regrouped(alpha, p, a);
    Quotient(alpha * f, total, alpha * p * a);
  }

  lemma {:induction false} Regrouped(a: real, b: real, c: real)
    ensures (a * b) * c == a * (b * c)
  {
  }

  lemma {:induction false} Quotient(x: real, t: real, y: real)
    requires t > 0.0 && x * t == y
    ensures y / t == x
  {
  }

  lemma {:induction false} FairIsProportional(r: seq<Entry>, total: real, available: int, alpha: real, beta: real)
    requires total > 0.0 && 0.0 < alpha && Fair(r, alpha, beta)
    requires forall i :: 0 <= i < |r| ==> SharesVolume(r[i], total, available)
    ensures SplitFairly(r, total, available, alpha, beta)
  {
    hide SharesVolume;
    forall i | 0 <= i < |r|
      ensures r[i].Share().Volume(alpha) == FairVolume(r[i].priority, r[i].demand, alpha, total, available)
      ensures r[i].Share().Volume(beta) == FairVolume(r[i].priority, r[i].demand, beta, total, available)
    {
      VolumeByPriority(r[i], total, available, alpha);
      VolumeByPriority(r[i], total, available, beta);
    }
    hide JobShare.Volume, FairVolume;
  }

  lemma {:induction false} FreshPermuted(es: seq<Entry>, r: seq<Entry>)
    requires multiset(es) == multiset(r)
    requires forall i :: 0 <= i < |es| ==> IsFresh(es[i])
    ensures |es| == |r|
    ensures forall i :: 0 <= i < |r| ==> IsFresh(r[i])
    ensures RealSum(es, PriorityOf()) == RealSum(r, PriorityOf())
    ensures Sum(es, OriginalDemand()) == Sum(r, OriginalDemand())
  {
    assert |es| == |multiset(es)| == |multiset(r)| == |r|;
    forall i | 0 <= i < |r| ensures IsFresh(r[i]) {
      assert r[i] in multiset(es);
    }
    RealSumPermutation(es, r, PriorityOf());
    SumPermutation(es, r, OriginalDemand());
  }

  lemma {:induction false} SomeJob(es: seq<Entry>)
    requires Sum(Shares(es), CappedDemand()) > 0
    ensures |es| > 0
  {
  }

  /** What the computed fair shares guarantee, with or without jobs. */
  lemma {:induction false} SharedFacts(es: seq<Entry>, sorted: seq<Entry>, shared: seq<Entry>, total: real,
      available: int, demands: int)
    requires multiset(es) == multiset(sorted) && |sorted| == |shared| < available
    requires forall i :: 0 <= i < |es| ==> IsFresh(es[i])
    requires total == RealSum(es, PriorityOf())
    requires |shared| > 0 ==> total > 0.0 && shared == WithFairShares(sorted, total, available)
    requires demands == Sum(Shares(shared), CappedDemand())
    ensures |shared| > 0 ==> multiset(Shares(shared)) == multiset(Shares(WithFairShares(es, total, available)))
    ensures |shared| > 0 ==> RealSum(Shares(shared), FairShareOf()) == available as real
    ensures forall i :: 0 <= i < |shared| ==> shared[i].fairShare <= available as real
    ensures SharesFollowPriorities(shared) && AllWellFormed(Shares(shared))
    ensures Min(available, Sum(es, OriginalDemand())) == if demands <= available then demands else available
  {
    FreshPermuted(es, sorted);
    CapLosesNothing(sorted, available);
    if |shared| > 0 {
      SharesOfPermutation(es, sorted, total, available);
      FairSharesExhaustVolume(sorted, total, available, shared);
      FairSharesWellFormed(sorted, total, available, shared);
      CappedDemands(sorted, total, available, |sorted|);
      assert shared == seq(|sorted|,
          i requires 0 <= i < |sorted| => WithFairShare(sorted[i], total, available, |sorted|));
    }
  }

  /** Full demands are the volumes at the largest multiplier. */
  lemma {:induction false} FullDemandsFair(es: seq<Entry>, low: real, high: real)
    requires AllWellFormed(Shares(es)) && Brackets(Shares(es), low, high) && 0.0 < low
    requires forall i :: 0 <= i < |es| ==> es[i].volume == es[i].demand
    ensures Assigned(es) == Sum(Shares(es), CappedDemand())
    ensures exists alpha, beta :: 0.0 < alpha && Fair(es, alpha, beta)
  {
    var top := RealMax(low, high);
    forall i | 0 <= i < |es| ensures es[i].volume == es[i].Share().Volume(top) {
      assert Shares(es)[i].WellFormed();
      VolumeAtUpperBound(es[i].Share(), top);
    }
    AssignedAtMultiplier(es, top);
    UtilizationAtMaximum(Shares(es), top);
    assert Fair(es, top, top);
  }

  lemma {:induction false} SmallestAbs(excess: int, best: int)
    requires best != 0
    ensures excess == 0 ==> Abs(excess) < Abs(best)
  {
  }
}
