/** Event maps in the order of job identifiers, and how two of them are merged. */
module EventOrder {
  import opened Basics
  import opened EventTypes
  import opened EventMaps

  /** The entries of an ordered map. */
  ghost predicate Ordered(s: seq<Event>) {
    forall i, j :: 0 <= i < j < |s| ==> s[i].jobId < s[j].jobId
  }

  ghost function MapOf(s: seq<Event>): map<int, Event> {
    if |s| == 0 then map[] else MapOf(s[..|s| - 1])[s[|s| - 1].jobId := s[|s| - 1]]
  }

  lemma {:induction false} MapOfEntries(s: seq<Event>)
    requires Ordered(s)
    ensures forall j :: j in MapOf(s) ==> MapOf(s)[j] in s && MapOf(s)[j].jobId == j
    ensures forall i :: 0 <= i < |s| ==> s[i].jobId in MapOf(s) && MapOf(s)[s[i].jobId] == s[i]
  {
    if |s| > 0 { MapOfEntries(s[..|s| - 1]); }
  }

  lemma {:induction false} MapOfAppend(s: seq<Event>, e: Event)
    ensures MapOf(s + [e]) == MapOf(s)[e.jobId := e]
  {
    assert (s + [e])[..|s|] == s;
  }

  // ----- merging --------------------------------------------------------------------------------

  /** Job by job the newer event; on equal epochs the other map's. */
  ghost function Merged(a: map<int, Event>, b: map<int, Event>): map<int, Event> {
    a + (b - set j | j in a && j in b && a[j].Dominates(b[j]))
  }

  lemma {:induction false} MergedBoth(a: map<int, Event>, b: map<int, Event>, e: Event, f: Event)
    requires e.jobId == f.jobId
    ensures Merged(a[e.jobId := e], b[f.jobId := f]) == Merged(a, b)[e.jobId := if e.Dominates(f) then e else f]
  {
  }

  lemma {:induction false} MergedFirst(a: map<int, Event>, b: map<int, Event>, e: Event)
    requires e.jobId !in b
    ensures Merged(a[e.jobId := e], b) == Merged(a, b)[e.jobId := e]
  {
  }

  lemma {:induction false} MergedSecond(a: map<int, Event>, b: map<int, Event>, e: Event)
    requires e.jobId !in a
    ensures Merged(a, b[e.jobId := e]) == Merged(a, b)[e.jobId := e]
  {
  }

  /** All entries taken so far come before those still to take. */
  ghost predicate Taken(out: seq<Event>, rest: seq<Event>, k: nat) {
    k <= |rest| && forall i, j :: 0 <= i < |out| && k <= j < |rest| ==> out[i].jobId < rest[j].jobId
  }

  ghost predicate Merging(a: seq<Event>, b: seq<Event>, i: nat, j: nat, out: seq<Event>) {
    && Ordered(a) && Ordered(b) && Ordered(out) && Taken(out, a, i) && Taken(out, b, j)
    && MapOf(out) == Merged(MapOf(a[..i]), MapOf(b[..j]))
  }

  lemma {:induction false} TakenStep(out: seq<Event>, e: Event, rest: seq<Event>, k: nat)
    requires Taken(out, rest, k) && Ordered(rest) && (k < |rest| ==> e.jobId < rest[k].jobId)
    ensures Taken(out + [e], rest, k)
  {
    forall i, j | 0 <= i < |out| + 1 && k <= j < |rest| ensures (out + [e])[i].jobId < rest[j].jobId {
      assert k < j ==> rest[k].jobId < rest[j].jobId;
    }
  }

  lemma {:induction false} TakenNext(out: seq<Event>, e: Event, rest: seq<Event>, k: nat)
    requires Taken(out, rest, k) && Ordered(rest) && k < |rest| && e.jobId == rest[k].jobId
    ensures Taken(out + [e], rest, k + 1)
  {
  }

  lemma {:induction false} OrderedAppend(out: seq<Event>, rest: seq<Event>, k: nat, e: Event)
    requires Ordered(out) && Taken(out, rest, k) && k < |rest| && e.jobId == rest[k].jobId
    ensures Ordered(out + [e])
  {
  }

  lemma {:induction false} PrefixMap(s: seq<Event>, k: nat)
    requires Ordered(s) && k < |s|
    ensures MapOf(s[..k + 1]) == MapOf(s[..k])[s[k].jobId := s[k]]
    ensures forall j :: j in MapOf(s[..k]) ==> j < s[k].jobId
  {
    assert s[..k + 1] == s[..k] + [s[k]];
    MapOfAppend(s[..k], s[k]);
    MapOfEntries(s[..k]);
  }

  /** An identifier that comes before all entries left of a map is not among those taken, unless it is larger. */
  lemma {:induction false} NotBefore(s: seq<Event>, k: nat, out: seq<Event>, id: int)
    requires Ordered(s) && k <= |s| && (forall j :: j in MapOf(s[..k]) ==> j in MapOf(out))
    requires Ordered(out) && forall i :: 0 <= i < |out| ==> out[i].jobId < id
    ensures id !in MapOf(s[..k])
  {
    MapOfEntries(out);
  }

  method Merge(epoch: int, a: seq<Event>, otherEpoch: int, b: seq<Event>) returns (globalEpoch: int, out: seq<Event>)
    requires Ordered(a) && Ordered(b)
    ensures globalEpoch == Max(epoch, otherEpoch) && Ordered(out) && MapOf(out) == Merged(MapOf(a), MapOf(b))
  {
    globalEpoch := Max(epoch, otherEpoch);
    var i, j := 0, 0;
    out := [];
    assert a[..0] == [] && b[..0] == [];
    assert Merging(a, b, 0, 0, out);
    hide Merging;
    while i < |a| || j < |b|
      invariant 0 <= i <= |a| && 0 <= j <= |b| && Merging(a, b, i, j, out)
      decreases |a| - i + |b| - j
    {
      if i < |a| && j < |b| {
        if a[i].jobId == b[j].jobId {
          TakeBoth(a, b, i, j, out);
          out := out + [if a[i].Dominates(b[j]) then a[i] else b[j]];
          i, j := i + 1, j + 1;
        } else if a[i].jobId < b[j].jobId {
          TakeFirst(a, b, i, j, out);
          out, i := out + [a[i]], i + 1;
        } else {
          TakeSecond(a, b, i, j, out);
          out, j := out + [b[j]], j + 1;
        }
      } else if i < |a| {
        TakeFirst(a, b, i, j, out);
        out, i := out + [a[i]], i + 1;
      } else {
        TakeSecond(a, b, i, j, out);
        out, j := out + [b[j]], j + 1;
      }
    }
    MergeDone(a, b, out);
  }

  lemma {:induction false} MergeDone(a: seq<Event>, b: seq<Event>, out: seq<Event>)
    requires Merging(a, b, |a|, |b|, out)
    ensures Ordered(out) && MapOf(out) == Merged(MapOf(a), MapOf(b))
  {
    assert a[..|a|] == a && b[..|b|] == b;
  }

  lemma {:induction false} TakeBoth(a: seq<Event>, b: seq<Event>, i: nat, j: nat, out: seq<Event>)
    requires Merging(a, b, i, j, out) && i < |a| && j < |b| && a[i].jobId == b[j].jobId
    ensures Merging(a, b, i + 1, j + 1, out + [if a[i].Dominates(b[j]) then a[i] else b[j]])
  {
    var e := if a[i].Dominates(b[j]) then a[i] else b[j];
    TakenNext(out, e, a, i);
    TakenNext(out, e, b, j);
    OrderedAppend(out, a, i, e);
    MapOfAppend(out, e);
    PrefixMap(a, i);
    PrefixMap(b, j);
    MergedBoth(MapOf(a[..i]), MapOf(b[..j]), a[i], b[j]);
    hide Merged, MapOf, Taken, Ordered;
  }

  lemma {:induction false} TakeFirst(a: seq<Event>, b: seq<Event>, i: nat, j: nat, out: seq<Event>)
    requires Merging(a, b, i, j, out) && i < |a| && (j < |b| ==> a[i].jobId < b[j].jobId)
    ensures Merging(a, b, i + 1, j, out + [a[i]])
  {
    var e := a[i];
    TakenNext(out, e, a, i);
    TakenStep(out, e, b, j);
    OrderedAppend(out, a, i, e);
    MapOfAppend(out, e);
    PrefixMap(a, i);
    NotBefore(b, j, out, e.jobId);
    MergedFirst(MapOf(a[..i]), MapOf(b[..j]), e);
    hide Merged, MapOf, Taken, Ordered;
  }

  lemma {:induction false} TakeSecond(a: seq<Event>, b: seq<Event>, i: nat, j: nat, out: seq<Event>)
    requires Merging(a, b, i, j, out) && j < |b| && (i < |a| ==> b[j].jobId < a[i].jobId)
    ensures Merging(a, b, i, j + 1, out + [b[j]])
  {
    var e := b[j];
    TakenNext(out, e, b, j);
    TakenStep(out, e, a, i);
    OrderedAppend(out, b, j, e);
    MapOfAppend(out, e);
    PrefixMap(b, j);
    NotBefore(a, i, out, e.jobId);
    MergedSecond(MapOf(a[..i]), MapOf(b[..j]), e);
    hide Merged, MapOf, Taken, Ordered;
  }

  /**
   Merging and inserting one by one agree exactly if no job has two different events of the same epoch in the
   two maps: on equal epochs the former takes the other map's event, the latter keeps its own.
   */
  lemma {:induction false} MergeAgreesWithUpdate(a: map<int, Event>, b: map<int, Event>)
    requires forall j :: j in b ==> b[j].epoch >= 0
    ensures Merged(a, b) == Updated(a, b) <==> forall j :: j in a && j in b && a[j].epoch == b[j].epoch ==> a[j] == b[j]
  {
    var m, u := Merged(a, b), Updated(a, b);
    assert forall j :: j in m <==> j in a || j in b;
    assert forall j :: j in u <==> j in a || j in b;
    forall j | j in m ensures m[j] == u[j] <==> (j in a && j in b && a[j].epoch == b[j].epoch ==> a[j] == b[j]) {
    }
    if m == u {
      forall j | j in a && j in b && a[j].epoch == b[j].epoch ensures a[j] == b[j] { assert j in m; }
    }
    if forall j :: j in a && j in b && a[j].epoch == b[j].epoch ==> a[j] == b[j] {
      assert m.Keys == u.Keys;
      assert forall j :: j in m ==> m[j] == u[j];
      assert m == u;
    }
  }
}
