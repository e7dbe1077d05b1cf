/** Event maps: the newest known event of each job, and the operations that combine and thin them out. */
module EventMaps {
  import opened Basics
  import opened EventTypes

  /** Contents of an event map: an epoch and at most one event per job. */
  datatype EventState = EventState(globalEpoch: int, entries: map<int, Event>) {
    ghost predicate Valid() {
      forall j :: j in entries ==> entries[j].jobId == j && entries[j].epoch >= 0
    }
  }

  const EmptyState := EventState(0, map[])

  /** Whether an event would replace what the map holds for its job. */
  predicate Novel(m: map<int, Event>, ev: Event) {
    ev.epoch >= 0 && (ev.jobId !in m || ev.Dominates(m[ev.jobId]))
  }

  function Inserted(m: map<int, Event>, ev: Event): map<int, Event> {
    if Novel(m, ev) then m[ev.jobId := ev] else m
  }

  /** Job by job the newer event; on equal epochs the one that was there. */
  function Updated(a: map<int, Event>, b: map<int, Event>): map<int, Event> {
    a + (b - set j | j in b && !(b[j].epoch >= 0 && (j !in a || b[j].epoch > a[j].epoch)))
  }

  function UpdatedState(a: EventState, b: EventState): EventState {
    EventState(Max(a.globalEpoch, b.globalEpoch), Updated(a.entries, b.entries))
  }

  /** Only events that are newer than what the other map holds. */
  function Filtered(a: map<int, Event>, b: map<int, Event>): map<int, Event> {
    a - set j | j in a && j in b && b[j].epoch >= a[j].epoch
  }

  function FilteredState(a: EventState, b: EventState): EventState {
    EventState(Max(a.globalEpoch, b.globalEpoch), Filtered(a.entries, b.entries))
  }

  /** Filtering aborts on two different events of one job and epoch. */
  predicate Conflict(a: map<int, Event>, b: map<int, Event>) {
    exists j :: j in a && j in b && b[j].epoch == a[j].epoch
                && (b[j].priority != a[j].priority || b[j].demand != a[j].demand)
  }

  predicate OldZero(ev: Event) { ev.demand == 0 && ev.priority <= 0.0 }

  function WithoutOldZeros(m: map<int, Event>): map<int, Event> {
    m - set j | j in m && OldZero(m[j])
  }

  class EventMap {
    var globalEpoch: int
    var entries: map<int, Event>

    constructor ()
      ensures Value() == EmptyState
    {
      globalEpoch, entries := 0, map[];
    }

    function Value(): EventState
      reads this
    {
      EventState(globalEpoch, entries)
    }

    method InsertIfNovel(ev: Event) returns (inserted: bool)
      modifies `entries
      ensures entries == Inserted(old(entries), ev) && inserted == Novel(old(entries), ev)
      ensures inserted <==> ev.epoch >= 0 && (ev.jobId !in old(entries) || ev.epoch > old(entries)[ev.jobId].epoch)
      ensures entries == if inserted then old(entries)[ev.jobId := ev] else old(entries)
    {
      if ev.epoch < 0 { return false; }
      if ev.jobId !in entries || ev.Dominates(entries[ev.jobId]) {
        entries := entries[ev.jobId := ev];
        return true;
      }
      return false;
    }

    /** The other map's events are inserted one by one. */
    method UpdateBy(other: EventMap) returns (change: bool)
      requires other.Value().Valid() && other != this
      modifies this
      ensures Value() == UpdatedState(old(Value()), other.Value())
      ensures globalEpoch == if other.globalEpoch > old(globalEpoch) then other.globalEpoch else old(globalEpoch)
      ensures entries.Keys == old(entries).Keys + other.entries.Keys
      ensures forall j :: j in entries ==>
                entries[j] == if j in other.entries
                                 && (j in old(entries) ==> other.entries[j].epoch > old(entries)[j].epoch)
                              then other.entries[j] else old(entries)[j]
      ensures change <==> Value() != old(Value())
    {
      change := false;
      var todo := other.entries.Keys;
      while todo != {}
        invariant todo <= other.entries.Keys
        invariant entries == Updated(old(entries), Excluding(other.entries, todo))
        invariant globalEpoch == old(globalEpoch)
        invariant change <==> entries != old(entries)
        decreases todo
      {
        ghost var w := SomeElement(todo);
        var j :| j in todo;
        var ev := other.entries[j];
        UpdateStep(old(entries), other.entries, todo, j);
        var inserted := InsertIfNovel(ev);
        if inserted {
          StillChanged(old(entries), other.entries, todo, j);
          change := true;
        }
        todo := todo - {j};
      }
      assert Excluding(other.entries, {}) == other.entries;
      UpdatedIs(old(entries), other.entries);
      if other.globalEpoch > globalEpoch { change := true; }
      globalEpoch := Max(globalEpoch, other.globalEpoch);
    }

    /** Drops what the other map makes obsolete; reports a conflict, on which the program aborts. */
    method FilterBy(other: EventMap) returns (aborted: bool)
      requires other != this
      modifies this
      ensures aborted == Conflict(old(entries), other.entries)
      ensures !aborted ==> Value() == FilteredState(old(Value()), other.Value())
      ensures aborted <==>
                exists j :: j in old(entries) && j in other.entries && old(entries)[j].epoch == other.entries[j].epoch
                            && (old(entries)[j].demand != other.entries[j].demand
                                || old(entries)[j].priority != other.entries[j].priority)
      ensures !aborted ==>
                && globalEpoch == (if other.globalEpoch > old(globalEpoch) then other.globalEpoch else old(globalEpoch))
                && forall j :: j in entries <==>
                     j in old(entries) && !(j in other.entries && other.entries[j].epoch >= old(entries)[j].epoch)
      ensures !aborted ==> forall j :: j in entries ==> entries[j] == old(entries)[j]
    {
      var erased: set<int>, todo := {}, entries.Keys;
      while todo != {}
        invariant todo <= entries.Keys && entries == old(entries) && globalEpoch == old(globalEpoch)
        invariant erased == set j | (j in entries && j !in todo
                                     && j in other.entries && other.entries[j].epoch >= entries[j].epoch)
        invariant !Conflict(Excluding(entries, todo), other.entries)
        decreases todo
      {
        ghost var w := SomeElement(todo);
        var j :| j in todo;
        FilterStep(entries, other.entries, todo, j);
        if j in other.entries {
          var ev, otherEv := entries[j], other.entries[j];
          if otherEv.epoch == ev.epoch && (otherEv.priority != ev.priority || otherEv.demand != ev.demand) {
            return true;
          }
          if otherEv.epoch >= ev.epoch { erased := erased + {j}; }
        }
        todo := todo - {j};
      }
      assert Excluding(entries, {}) == entries;
      assert entries - erased == Filtered(entries, other.entries);
      entries := entries - erased;
      globalEpoch := Max(globalEpoch, other.globalEpoch);
      aborted := false;
    }

    method RemoveOldZeros()
      modifies `entries
      ensures entries == WithoutOldZeros(old(entries))
      ensures forall j :: j in entries <==>
                j in old(entries) && !(old(entries)[j].demand == 0 && old(entries)[j].priority <= 0.0)
      ensures forall j :: j in entries ==> entries[j] == old(entries)[j]
    {
      var erased: set<int>, todo := {}, entries.Keys;
      while todo != {}
        invariant todo <= entries.Keys && entries == old(entries)
        invariant erased == set j | j in entries && j !in todo && OldZero(entries[j])
        decreases todo
      {
        ghost var w := SomeElement(todo);
        var j :| j in todo;
        if OldZero(entries[j]) { erased := erased + {j}; }
        todo := todo - {j};
      }
      entries := entries - erased;
    }
  }

  ghost function Excluding(m: map<int, Event>, keys: set<int>): map<int, Event> {
    m - keys
  }

  lemma {:induction false} UpdatedIs(a: map<int, Event>, b: map<int, Event>)
    requires forall j :: j in b ==> b[j].epoch >= 0
    ensures Updated(a, b).Keys == a.Keys + b.Keys
    ensures forall j :: j in Updated(a, b) ==>
              Updated(a, b)[j] == if j in b && (j in a ==> b[j].epoch > a[j].epoch) then b[j] else a[j]
  {
    var u := Updated(a, b);
    assert forall j :: j in u.Keys <==> j in a.Keys + b.Keys;
  }

  lemma {:induction false} UpdateStep(a: map<int, Event>, b: map<int, Event>, todo: set<int>, j: int)
    requires j in todo && todo <= b.Keys && b[j].jobId == j
    ensures Updated(a, Excluding(b, todo - {j})) == Inserted(Updated(a, Excluding(b, todo)), b[j])
  {
    var before, after := Excluding(b, todo), Excluding(b, todo - {j});
    assert after == before[j := b[j]];
    assert j !in before;
    assert (j in Updated(a, before)) == (j in a);
    assert j in a ==> Updated(a, before)[j] == a[j];
  }

  /** An inserted event is newer than what was there, so the map differs from the start. */
  lemma {:induction false} StillChanged(a: map<int, Event>, b: map<int, Event>, todo: set<int>, j: int)
    requires j in todo && todo <= b.Keys && b[j].jobId == j && Novel(Updated(a, Excluding(b, todo)), b[j])
    ensures Updated(a, Excluding(b, todo - {j})) != a
  {
    var r := Updated(a, Excluding(b, todo - {j}));
    UpdateStep(a, b, todo, j);
    assert j !in Excluding(b, todo);
    assert j in r && r[j] == b[j];
    assert j in a ==> Updated(a, Excluding(b, todo))[j] == a[j];
  }

  lemma {:induction false} FilterStep(a: map<int, Event>, b: map<int, Event>, todo: set<int>, j: int)
    requires j in todo && todo <= a.Keys
    ensures Excluding(a, todo - {j}) == Excluding(a, todo)[j := a[j]]
    ensures Conflict(Excluding(a, todo - {j}), b) ==> Conflict(a, b)
  {
  }
}
