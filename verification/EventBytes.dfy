/** The form in which event maps travel: an epoch of eight bytes, then four fields of four bytes per event. */
module EventBytes {
  import opened Basics
  import opened EventTypes
  import opened EventOrder

  const EPOCH_SIZE: nat := 8
  const INT_SIZE: nat := 4
  const EVENT_SIZE: nat := 16

  // ----- numbers ---------------------------------------------------------------------------------

  ghost function Power(k: nat): (p: nat)
    ensures p > 0
  {
    if k == 0 then 1 else 256 * Power(k - 1)
  }

  /** Little-endian bytes of a number. */
  function Encode(u: nat, k: nat): (r: seq<Byte>)
    ensures |r| == k
  {
    if k == 0 then [] else [u % 256] + Encode(u / 256, k - 1)
  }

  function Decode(b: seq<Byte>): nat {
    if |b| == 0 then 0 else b[0] + 256 * Decode(b[1..])
  }

  lemma {:induction false} NumberRoundTrip(u: nat, k: nat)
    requires u < Power(k)
    ensures Decode(Encode(u, k)) == u
  {
    if k > 0 {
      NumberRoundTrip(u / 256, k - 1);
      assert Encode(u, k)[1..] == Encode(u / 256, k - 1);
    }
  }

  /** Byte number `j` of a number is its digit to the base 256, the lowest one first. */
  lemma {:induction false} EncodeDigits(u: nat, k: nat, j: nat)
    requires j < k
    ensures Encode(u, k)[j] == u / Power(j) % 256
  {
    if j > 0 {
      EncodeDigits(u / 256, k - 1, j - 1);
      DivideTwice(u, Power(j - 1));
    }
  }

  lemma {:induction false} DivideTwice(u: nat, p: nat)
    requires p > 0
    ensures u / 256 / p == u / (256 * p)
  {
    var q, r := u / 256, u % 256;
    var x, y := q / p, q % p;
    assert u == 256 * q + r && q == x * p + y;
    assert u == x * (256 * p) + (256 * y + r);
    QuotientIs(u, 256 * p, x, 256 * y + r);
  }

  lemma {:induction false} QuotientIs(u: nat, m: nat, x: nat, r: nat)
    requires m > 0 && u == x * m + r && r < m
    ensures u / m == x
  {
    var d := u / m - x;
    assert d * m == r - u % m;
    NoSmallMultiple(d, m, r - u % m);
  }

  ghost predicate IsInt32(x: int) { -0x8000_0000 <= x < 0x8000_0000 }

  /** Two's complement. */
  function EncodeInt(x: int): seq<Byte>
    requires IsInt32(x)
  {
    Encode(if x < 0 then x + 0x1_0000_0000 else x, INT_SIZE)
  }

  function DecodeInt(b: seq<Byte>): int {
    var u := Decode(b);
    if u >= 0x8000_0000 then u - 0x1_0000_0000 else u
  }

  lemma {:induction false} PowerOfInt()
    ensures Power(4) == 0x1_0000_0000
  {
    assert Power(1) == 256;
    assert Power(2) == 65536;
    assert Power(3) == 16777216;
  }

  lemma {:induction false} IntRoundTrip(x: int)
    requires IsInt32(x)
    ensures |EncodeInt(x)| == INT_SIZE && DecodeInt(EncodeInt(x)) == x
  {
    PowerOfInt();
    NumberRoundTrip(if x < 0 then x + 0x1_0000_0000 else x, INT_SIZE);
  }

  // ----- events ----------------------------------------------------------------------------------

  /** The 32 bits that represent a priority, and the priority that bits represent. */
  datatype FloatFormat = FloatFormat(bits: real -> nat, value: nat -> real) {
    /** The priority can be stored without loss. */
    ghost predicate Exact(p: real) { bits(p) < Power(4) && value(bits(p)) == p }
  }

  ghost predicate Storable(f: FloatFormat, e: Event) {
    IsInt32(e.jobId) && IsInt32(e.epoch) && IsInt32(e.demand) && f.Exact(e.priority)
  }

  function EventToBytes(f: FloatFormat, e: Event): (r: seq<Byte>)
    requires Storable(f, e)
    ensures |r| == EVENT_SIZE
  {
    EncodeInt(e.jobId) + EncodeInt(e.epoch) + EncodeInt(e.demand) + Encode(f.bits(e.priority), INT_SIZE)
  }

  function EventFromBytes(f: FloatFormat, b: seq<Byte>): Event
    requires |b| == EVENT_SIZE
  {
    Event(DecodeInt(b[0..4]), DecodeInt(b[4..8]), DecodeInt(b[8..12]), f.value(Decode(b[12..16])))
  }

  lemma {:induction false} EventRoundTrip(f: FloatFormat, e: Event)
    requires Storable(f, e)
    ensures EventFromBytes(f, EventToBytes(f, e)) == e
  {
    IntRoundTrip(e.jobId);
    IntRoundTrip(e.epoch);
    IntRoundTrip(e.demand);
    NumberRoundTrip(f.bits(e.priority), INT_SIZE);
    hide EncodeInt, DecodeInt, Encode, Decode;
    var j, h, d, p := EncodeInt(e.jobId), EncodeInt(e.epoch), EncodeInt(e.demand), Encode(f.bits(e.priority), INT_SIZE);
    var b := EventToBytes(f, e);
    assert b == j + h + d + p;
    assert b[0..4] == j && b[4..8] == h && b[8..12] == d && b[12..16] == p;
  }

  // ----- maps -------------------------------------------------------------------------------------

  ghost predicate AllStorable(f: FloatFormat, s: seq<Event>) {
    forall i :: 0 <= i < |s| ==> Storable(f, s[i])
  }

  ghost function EventsToBytes(f: FloatFormat, s: seq<Event>): (r: seq<Byte>)
    requires AllStorable(f, s)
    ensures |r| == |s| * EVENT_SIZE
  {
    if |s| == 0 then [] else EventsToBytes(f, s[..|s| - 1]) + EventToBytes(f, s[|s| - 1])
  }

  ghost function ToBytes(f: FloatFormat, epoch: nat, s: seq<Event>): seq<Byte>
    requires AllStorable(f, s)
  {
    Encode(epoch, EPOCH_SIZE) + EventsToBytes(f, s)
  }

  /** Fields are copied one after another. */
  method Serialize(f: FloatFormat, epoch: nat, s: seq<Event>) returns (packed: seq<Byte>)
    requires AllStorable(f, s)
    ensures packed == ToBytes(f, epoch, s)
  {
    packed := Encode(epoch, EPOCH_SIZE);
    assert s[..0] == [];
    for i := 0 to |s|
      invariant AllStorable(f, s[..i]) && packed == Encode(epoch, EPOCH_SIZE) + EventsToBytes(f, s[..i])
    {
      assert s[..i + 1][..i] == s[..i];
      packed := packed + EventToBytes(f, s[i]);
    }
    assert s[..|s|] == s;
  }

  /** Bytes of the event at a position. */
  function Chunk(packed: seq<Byte>, i: nat): (r: seq<Byte>)
    requires EPOCH_SIZE + (i + 1) * EVENT_SIZE <= |packed|
    ensures |r| == EVENT_SIZE
  {
    packed[EPOCH_SIZE + i * EVENT_SIZE..EPOCH_SIZE + (i + 1) * EVENT_SIZE]
  }

  lemma {:induction false} ChunkOfEvents(f: FloatFormat, s: seq<Event>, i: nat)
    requires AllStorable(f, s) && i < |s|
    ensures EventsToBytes(f, s)[i * EVENT_SIZE..(i + 1) * EVENT_SIZE] == EventToBytes(f, s[i])
  {
    var last := |s| - 1;
    var front := EventsToBytes(f, s[..last]);
    assert EventsToBytes(f, s) == front + EventToBytes(f, s[last]);
    if i < last {
      ChunkOfEvents(f, s[..last], i);
      assert front[i * EVENT_SIZE..(i + 1) * EVENT_SIZE] == EventsToBytes(f, s)[i * EVENT_SIZE..(i + 1) * EVENT_SIZE];
    }
  }

  /** Storing an event under its job identifier in an ordered map. */
  function Stored(s: seq<Event>, e: Event): seq<Event> {
    if |s| == 0 then [e]
    else if e.jobId < s[0].jobId then [e] + s
    else if e.jobId == s[0].jobId then [e] + s[1..]
    else [s[0]] + Stored(s[1..], e)
  }

  lemma {:induction false} StoredOrdered(s: seq<Event>, e: Event)
    requires Ordered(s)
    ensures Ordered(Stored(s, e)) && forall x :: x in Stored(s, e) <==> x == e || (x in s && x.jobId != e.jobId)
  {
    if |s| > 0 && e.jobId > s[0].jobId {
      var rest := s[1..];
      StoredOrdered(rest, e);
      assert forall x :: x in s <==> x == s[0] || x in rest;
      assert forall x :: x in Stored(rest, e) ==> s[0].jobId < x.jobId;
    } else if |s| > 0 {
      assert forall x :: x in s <==> x == s[0] || x in s[1..];
    }
  }

  lemma {:induction false} StoredLast(s: seq<Event>, e: Event)
    requires Ordered(s) && forall i :: 0 <= i < |s| ==> s[i].jobId < e.jobId
    ensures Stored(s, e) == s + [e]
  {
    if |s| > 0 {
      StoredLast(s[1..], e);
      assert s == [s[0]] + s[1..];
    }
  }

  /** What the bytes mean: the events in their order, later ones replacing earlier ones of the same job. */
  ghost function EventsFromBytes(f: FloatFormat, packed: seq<Byte>, n: nat): seq<Event>
    requires EPOCH_SIZE + n * EVENT_SIZE <= |packed|
  {
    if n == 0 then [] else Stored(EventsFromBytes(f, packed, n - 1), EventFromBytes(f, Chunk(packed, n - 1)))
  }

  function NumEvents(packed: seq<Byte>): (n: nat)
    requires |packed| >= EPOCH_SIZE
    ensures EPOCH_SIZE + n * EVENT_SIZE <= |packed|
  {
    (|packed| - EPOCH_SIZE) / EVENT_SIZE
  }

  lemma {:induction false} NoEvents()
    ensures Ordered([])
  {
  }

  /** Fewer bytes than an event takes are ignored. */
  method Deserialize(f: FloatFormat, packed: seq<Byte>) returns (epoch: nat, s: seq<Event>)
    requires |packed| >= EPOCH_SIZE
    ensures epoch == Decode(packed[..EPOCH_SIZE]) && s == EventsFromBytes(f, packed, NumEvents(packed)) && Ordered(s)
  {
    hide Decode, EventFromBytes, Stored, Chunk, Ordered;
    s := [];
    assert Ordered(s) by { NoEvents(); }
    var numEvents := NumEvents(packed);
    epoch := Decode(packed[..EPOCH_SIZE]);
    if |packed| <= EPOCH_SIZE + INT_SIZE { return; }
    for ev := 0 to numEvents
      invariant s == EventsFromBytes(f, packed, ev) && Ordered(s)
    {
      var e := EventFromBytes(f, Chunk(packed, ev));
      StoredOrdered(s, e);
      s := Stored(s, e);
    }
  }

  lemma {:induction false} EventsRoundTrip(f: FloatFormat, epoch: nat, s: seq<Event>, n: nat)
    requires AllStorable(f, s) && Ordered(s) && n <= |s|
    ensures EPOCH_SIZE + n * EVENT_SIZE <= |ToBytes(f, epoch, s)|
    ensures EventsFromBytes(f, ToBytes(f, epoch, s), n) == s[..n]
  {
    hide EventToBytes, EventFromBytes, EventsToBytes, Encode, Stored, Chunk, Storable;
    if n > 0 {
      EventsRoundTrip(f, epoch, s, n - 1);
      ChunkOfToBytes(f, epoch, s, n - 1);
      EventRoundTrip(f, s[n - 1]);
      StoredLast(s[..n - 1], s[n - 1]);
      assert s[..n] == s[..n - 1] + [s[n - 1]];
    }
  }

  lemma {:induction false} ChunkOfToBytes(f: FloatFormat, epoch: nat, s: seq<Event>, i: nat)
    requires AllStorable(f, s) && i < |s|
    ensures EPOCH_SIZE + (i + 1) * EVENT_SIZE <= |ToBytes(f, epoch, s)|
    ensures Chunk(ToBytes(f, epoch, s), i) == EventToBytes(f, s[i])
  {
    ChunkOfEvents(f, s, i);
    hide EventToBytes, Encode;
    var head, tail := Encode(epoch, EPOCH_SIZE), EventsToBytes(f, s);
    var packed := ToBytes(f, epoch, s);
    assert packed == head + tail;
    assert packed[EPOCH_SIZE + i * EVENT_SIZE..EPOCH_SIZE + (i + 1) * EVENT_SIZE]
        == tail[i * EVENT_SIZE..(i + 1) * EVENT_SIZE];
  }

  /** Where the fields of an event are. */
  lemma {:induction false} FieldsAt(f: FloatFormat, epoch: nat, s: seq<Event>, i: nat)
    requires AllStorable(f, s) && i < |s|
    ensures var packed, at := ToBytes(f, epoch, s), 8 + 16 * i;
            && |packed| == 8 + 16 * |s| && packed[..8] == Encode(epoch, 8)
            && packed[at..at + 4] == EncodeInt(s[i].jobId) && packed[at + 4..at + 8] == EncodeInt(s[i].epoch)
            && packed[at + 8..at + 12] == EncodeInt(s[i].demand)
            && packed[at + 12..at + 16] == Encode(f.bits(s[i].priority), 4)
  {
    ChunkOfToBytes(f, epoch, s, i);
    hide Encode;
    var packed, at, b := ToBytes(f, epoch, s), 8 + 16 * i, EventToBytes(f, s[i]);
    assert packed[at..at + 16] == b;
    PartOfChunk(packed, at, b, 0, 4);
    PartOfChunk(packed, at, b, 4, 8);
    PartOfChunk(packed, at, b, 8, 12);
    PartOfChunk(packed, at, b, 12, 16);
  }

  lemma {:induction false} PartOfChunk(packed: seq<Byte>, at: nat, b: seq<Byte>, x: nat, y: nat)
    requires at + |b| <= |packed| && packed[at..at + |b|] == b && x <= y <= |b|
    ensures packed[at + x..at + y] == b[x..y]
  {
    var u, v := packed[at + x..at + y], b[x..y];
    forall k | 0 <= k < |u| ensures u[k] == v[k] {
      assert b[x + k] == packed[at..at + |b|][x + k];
    }
  }

  /** Round trip: reading what was written gives the same epoch and the same entries, also for an empty map. */
  lemma {:induction false} RoundTrip(f: FloatFormat, epoch: nat, s: seq<Event>)
    requires AllStorable(f, s) && Ordered(s) && epoch < Power(EPOCH_SIZE)
    ensures var packed := ToBytes(f, epoch, s);
            && |packed| >= EPOCH_SIZE && Decode(packed[..EPOCH_SIZE]) == epoch
            && NumEvents(packed) == |s| && EventsFromBytes(f, packed, NumEvents(packed)) == s
  {
    NumberRoundTrip(epoch, EPOCH_SIZE);
    EventsRoundTrip(f, epoch, s, |s|);
    hide Encode, Decode, EventsToBytes, EventsFromBytes;
    var packed := ToBytes(f, epoch, s);
    assert packed[..EPOCH_SIZE] == Encode(epoch, EPOCH_SIZE);
    assert s[..|s|] == s;
  }
}
