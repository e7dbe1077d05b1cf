/** The volumes that workers compute from what they have digested. */
module BalancerVolumes {
  import opened EventTypes
  import opened EventMaps
  import opened BalancerProtocol
  import opened BalancerSafety
  import opened Sums
  import opened FairShare
  import opened VolumeResult
  import opened VolumeCalculation

  /** The events of the map, each once, in any order. */
  ghost predicate Lists(events: seq<Event>, m: EventState) {
    && (forall i :: 0 <= i < |events| ==> events[i].jobId in m.entries && m.entries[events[i].jobId] == events[i])
    && (forall i, j :: 0 <= i < j < |events| ==> events[i].jobId != events[j].jobId)
    && (forall j :: j in m.entries ==> m.entries[j] in events)
  }

  /** The calculation makes these entries of the events with a demand. */
  ghost predicate VolumesOf(hash: int -> int, events: seq<Event>, available: int, r: seq<Entry>) {
    Computes(hash, EntriesOf(events, true), available, r)
  }

  /** The jobs with a demand share the available volume in proportion to their priorities, or have one worker each if
      there are too many of them. */
  ghost predicate Apportions(events: seq<Event>, available: int, r: seq<Entry>) {
    exists es ::
      && Represents(es, events, true)
      && if available > |es| then Distributed(es, r, RealSum(es, PriorityOf()), available) else r == es
  }

  lemma {:induction false} TotalPriority(es: seq<Entry>, r: seq<Entry>, total: real, available: int)
    requires Distributed(es, r, total, available)
    ensures total == RealSum(es, PriorityOf())
  {
  }

  /** The calculation of a worker. */
  method ComputeVolumes(events: seq<Event>, available: int, hash: int -> int) returns (r: seq<Entry>)
    requires forall i :: 0 <= i < |events| ==> events[i].demand >= 0
    requires forall i :: 0 <= i < |events| && events[i].demand > 0 ==> events[i].priority > 0.0
    ensures VolumesOf(hash, events, available, r) && Apportions(events, available, r)
  {
    hide Computes, Distributed, Represents;
    var calculator := new VolumeCalculator(events, available, hash);
    ghost var es := calculator.entries;
    calculator.CalculateResult();
    r := calculator.entries;
    if available > |es| { TotalPriority(es, r, calculator.sumOfPriorities, available); }
  }

  /** The entries are those of the events with a demand. */
  lemma {:induction false} EntriesAre(events: seq<Event>, e: Entry)
    ensures e in EntriesOf(events, true) <==>
            exists ev :: ev in events && ev.demand != 0 && e == NewEntry(ev.jobId, ev.demand, ev.priority)
  {
    if |events| > 0 {
      var front, last := events[..|events| - 1], events[|events| - 1];
      EntriesAre(front, e);
      assert events == front + [last];
    }
  }

  lemma {:induction false} EntriesDistinct(events: seq<Event>)
    requires forall i, j :: 0 <= i < j < |events| ==> events[i].jobId != events[j].jobId
    ensures DistinctJobs(EntriesOf(events, true))
  {
    if |events| > 0 {
      var front, last := events[..|events| - 1], events[|events| - 1];
      EntriesDistinct(front);
      var es := EntriesOf(front, true);
      forall i | 0 <= i < |es| ensures es[i].jobId != last.jobId {
        EntriesAre(front, es[i]);
        var ev :| ev in front && es[i] == NewEntry(ev.jobId, ev.demand, ev.priority);
      }
    }
  }

  /** Distinct entries that are the same are a permutation. */
  lemma {:induction false} SameElements(a: seq<Entry>, b: seq<Entry>)
    requires DistinctJobs(a) && DistinctJobs(b) && forall e :: e in a <==> e in b
    ensures multiset(a) == multiset(b)
  {
    forall e ensures multiset(a)[e] == multiset(b)[e] {
      if e in a {
        var i :| 0 <= i < |a| && a[i] == e;
        var j :| 0 <= j < |b| && b[j] == e;
        Once(a, i);
        Once(b, j);
      }
    }
  }

  lemma {:induction false} ListedAlike(a: seq<Event>, b: seq<Event>, m: EventState)
    requires Lists(a, m) && Lists(b, m)
    ensures multiset(EntriesOf(a, true)) == multiset(EntriesOf(b, true)) && DistinctJobs(EntriesOf(a, true))
  {
    EntriesDistinct(a);
    EntriesDistinct(b);
    assert forall ev :: ev in a <==> ev in b;
    forall e ensures e in EntriesOf(a, true) <==> e in EntriesOf(b, true) {
      EntriesAre(a, e);
      EntriesAre(b, e);
    }
    SameElements(EntriesOf(a, true), EntriesOf(b, true));
  }

  /**
   Any two workers that have digested the same balancing epoch compute identical volumes for every job, whatever
   the order in which their maps list the events.
   */
  lemma {:induction false} VolumesAgree(n: nat, trace: seq<System>, steps: seq<Step>, k: nat, u: nat, v: nat,
      a: seq<Event>, b: seq<Event>, hash: int -> int, available: int, r: seq<Entry>, q: seq<Entry>)
    requires Run(n, trace, steps) && k < |trace| && !trace[k].aborted
    requires u < |trace[k].nodes| && v < |trace[k].nodes|
    requires trace[k].nodes[u].balancingEpoch == trace[k].nodes[v].balancingEpoch
    requires Lists(a, trace[k].nodes[u].computedFrom) && Lists(b, trace[k].nodes[v].computedFrom)
    requires VolumesOf(hash, a, available, r) && VolumesOf(hash, b, available, q)
    ensures forall job, volume :: Gets(r, job, volume) <==> Gets(q, job, volume)
  {
    Agreement(n, trace, steps, k, u, v);
    hide Run, Lists, Computes, EntriesOf;
    ListedAlike(a, b, trace[k].nodes[u].computedFrom);
    OneResult(hash, EntriesOf(a, true), EntriesOf(b, true), available, r, q);
  }
}
