/**
 Fragmentation of large messages: a send handle cuts its data into numbered batches, a receive fragment
 collects the batches of one message in any order and puts them together again.
 */
module Fragmentation {
  import opened Basics

  /** Three integers of meta data follow the payload of a batch. */
  const META_SIZE: nat := 12

  /** The receive buffer is this much larger than the maximum message size. */
  const BUFFER_SLACK: nat := 20

  /** What travels: a whole message, or one batch with id, batch number and number of batches. */
  datatype Packet =
    | Whole(source: int, id: int, tag: int, data: seq<Byte>)
    | Batch(source: int, id: int, tag: int, payload: seq<Byte>, number: nat, total: nat)
  {
    /** Bytes on the wire. */
    function Length(): nat {
      match this
      case Whole(_, _, _, data) => |data|
      case Batch(_, _, _, payload, _, _) => |payload| + META_SIZE
    }

    /** Announces that the remaining batches will not come. */
    predicate IsCancellation() { Batch? && payload == [] && number == 0 && total == 0 }
  }

  // ----- batches --------------------------------------------------------------------------

  /** Number of batches: the exact integer ceiling. */
  function NumBatches(size: nat, batchSize: nat): (n: nat)
    requires batchSize > 0
    ensures n >= 1
  {
    if size <= batchSize + META_SIZE then 1
    else
      CeilingPositive(size, batchSize);
      (size + batchSize - 1) / batchSize
  }

  lemma {:induction false} CeilingPositive(size: nat, batchSize: nat)
    requires size >= 1 && batchSize > 0
    ensures (size + batchSize - 1) / batchSize >= 1
  {
  }

  function Offset(batchSize: nat, i: nat): nat { i * batchSize }

  function Slice(data: seq<Byte>, batchSize: nat, i: nat): seq<Byte>
    requires Offset(batchSize, i) <= |data|
  {
    data[Offset(batchSize, i)..Min(|data|, Offset(batchSize, i) + batchSize)]
  }

  lemma {:induction false} OffsetStep(batchSize: nat, i: nat)
    ensures Offset(batchSize, i + 1) == Offset(batchSize, i) + batchSize
    ensures Offset(batchSize, 0) == 0
  {
  }

  lemma {:induction false} OffsetMonotone(batchSize: nat, i: nat, j: nat)
    requires i <= j
    ensures Offset(batchSize, i) <= Offset(batchSize, j)
    decreases j - i
  {
    if i < j {
      OffsetMonotone(batchSize, i, j - 1);
      OffsetStep(batchSize, j - 1);
    }
  }

  lemma {:induction false} CeilingBounds(x: nat, m: nat, q: nat)
    requires m > 0 && x >= 1 && q == (x + m - 1) / m
    ensures Offset(m, q) >= x
    ensures q >= 1 && Offset(m, q - 1) < x
  {
    var y := x + m - 1;
    assert y == q * m + y % m;
    CeilingPositive(x, m);
    OffsetStep(m, q - 1);
  }

  /** Every batch has data: it starts within the message. The last one ends it. */
  lemma {:induction false} BatchesCover(size: nat, batchSize: nat, i: nat)
    requires batchSize > 0 && size > batchSize + META_SIZE && i < NumBatches(size, batchSize)
    ensures NumBatches(size, batchSize) >= 2
    ensures Offset(batchSize, i) < size
    ensures Offset(batchSize, NumBatches(size, batchSize)) >= size
  {
    var n := NumBatches(size, batchSize);
    CeilingBounds(size, batchSize, n);
    hide Offset;
    OffsetMonotone(batchSize, i, n - 1);
    OffsetStep(batchSize, 0);
  }

  /** The batches of a message, in order. */
  ghost function Slices(data: seq<Byte>, batchSize: nat, k: nat): (r: seq<seq<Byte>>)
    requires batchSize > 0 && |data| > batchSize + META_SIZE && k <= NumBatches(|data|, batchSize)
    ensures |r| == k
  {
    if k == 0 then []
    else
      BatchesCover(|data|, batchSize, k - 1);
      Slices(data, batchSize, k - 1) + [Slice(data, batchSize, k - 1)]
  }

  function Concat(parts: seq<seq<Byte>>): seq<Byte> {
    if |parts| == 0 then [] else Concat(parts[..|parts| - 1]) + parts[|parts| - 1]
  }

  /** Putting the first batches together gives the beginning of the message. */
  lemma {:induction false} ConcatSlices(data: seq<Byte>, batchSize: nat, k: nat)
    requires batchSize > 0 && |data| > batchSize + META_SIZE && k <= NumBatches(|data|, batchSize)
    ensures Concat(Slices(data, batchSize, k)) == data[..Min(|data|, Offset(batchSize, k))]
  {
    OffsetStep(batchSize, 0);
    if k > 0 {
      BatchesCover(|data|, batchSize, k - 1);
      ConcatSlices(data, batchSize, k - 1);
      OffsetStep(batchSize, k - 1);
      hide Offset, NumBatches;
      var parts := Slices(data, batchSize, k);
      assert parts[..k - 1] == Slices(data, batchSize, k - 1);
    }
  }

  /** Reassembly: all batches together are the message. */
  lemma {:induction false} Reassembly(data: seq<Byte>, batchSize: nat)
    requires batchSize > 0 && |data| > batchSize + META_SIZE
    ensures Concat(Slices(data, batchSize, NumBatches(|data|, batchSize))) == data
  {
    var n := NumBatches(|data|, batchSize);
    ConcatSlices(data, batchSize, n);
    BatchesCover(|data|, batchSize, n - 1);
  }

  lemma {:induction false} SlicesAt(data: seq<Byte>, batchSize: nat, k: nat, i: nat)
    requires batchSize > 0 && |data| > batchSize + META_SIZE && i < k <= NumBatches(|data|, batchSize)
    ensures Offset(batchSize, i) <= |data| && Slices(data, batchSize, k)[i] == Slice(data, batchSize, i)
  {
    BatchesCover(|data|, batchSize, i);
    if i < k - 1 { SlicesAt(data, batchSize, k - 1, i); }
  }

  // ----- the send handle ---------------------------------------------------------------------

  class SendHandle {
    const source: int
    const id: int
    const tag: int
    const data: seq<Byte>
    const maxMsgSize: nat
    const totalNumBatches: nat
    var sizePerBatch: int
    var sentBatches: nat

    ghost predicate Valid()
      reads this
    {
      && maxMsgSize > 0 && totalNumBatches == NumBatches(|data|, maxMsgSize)
      && (sizePerBatch == maxMsgSize || sizePerBatch == -1) && sentBatches <= totalNumBatches
    }

    predicate IsBatched() { totalNumBatches > 1 }

    predicate IsCancelled()
      reads this
    {
      sizePerBatch == -1
    }

    predicate IsFinished()
      reads this
    {
      sentBatches == totalNumBatches
    }

    constructor (source: int, id: int, tag: int, data: seq<Byte>, maxMsgSize: nat)
      requires maxMsgSize > 0
      ensures Valid() && sentBatches == 0 && !IsCancelled()
      ensures this.source == source && this.id == id && this.tag == tag && this.data == data
      ensures this.maxMsgSize == maxMsgSize
    {
      this.source, this.id, this.tag, this.data, this.maxMsgSize := source, id, tag, data, maxMsgSize;
      totalNumBatches := NumBatches(|data|, maxMsgSize);
      sizePerBatch, sentBatches := maxMsgSize, 0;
    }

    method Cancel()
      requires Valid()
      modifies `sizePerBatch
      ensures Valid() && IsCancelled()
    {
      sizePerBatch := -1;
    }

    /** The next packet fits the receive buffer; a batch is never empty unless it cancels the message. */
    method SendNext() returns (p: Packet)
      requires Valid() && !IsFinished()
      modifies `sentBatches
      ensures Valid()
      ensures p.Length() <= maxMsgSize + BUFFER_SLACK
      ensures !IsBatched() ==> p == Whole(source, id, tag, data) && IsFinished()
      ensures IsBatched() && IsCancelled() ==> p == Batch(source, id, tag, [], 0, 0) && IsFinished()
      ensures IsBatched() && !IsCancelled() ==>
                && old(sentBatches) < totalNumBatches && sentBatches == old(sentBatches) + 1
                && Offset(maxMsgSize, old(sentBatches)) <= |data|
                && p == Batch(source, id, tag, Slice(data, maxMsgSize, old(sentBatches)), old(sentBatches),
                    totalNumBatches)
                && p.payload != []
    {
      if !IsBatched() {
        NotBatched(|data|, maxMsgSize);
        sentBatches := 1;
        return Whole(source, id, tag, data);
      }
      if IsCancelled() {
        sentBatches := totalNumBatches;
        return Batch(source, id, tag, [], 0, 0);
      }
      BatchesCover(|data|, maxMsgSize, sentBatches);
      OffsetStep(maxMsgSize, sentBatches);
      hide Offset, NumBatches;
      var begin := Offset(sizePerBatch, sentBatches);
      var end := Min(|data|, Offset(sizePerBatch, sentBatches + 1));
      assert end > begin;
      p := Batch(source, id, tag, data[begin..end], sentBatches, totalNumBatches);
      sentBatches := sentBatches + 1;
    }
  }

  /** A single batch means that the message fits the buffer as a whole. */
  lemma {:induction false} NotBatched(size: nat, batchSize: nat)
    requires batchSize > 0 && NumBatches(size, batchSize) == 1
    ensures size <= batchSize + META_SIZE
  {
    if size > batchSize + META_SIZE { BatchesCover(size, batchSize, 0); }
  }

  // ----- the receive fragment ----------------------------------------------------------------------

  /** Batches of one message collected so far; `received` is -1 once it is complete. */
  datatype Partial = Partial(tag: int, slots: seq<Option<seq<Byte>>>, received: int, cancelled: bool)

  function FreshPartial(tag: int): Partial { Partial(tag, [], 0, false) }

  function Padded(slots: seq<Option<seq<Byte>>>, n: nat): (r: seq<Option<seq<Byte>>>)
    ensures |r| >= |slots| && |r| >= n && (|slots| >= n ==> r == slots)
    ensures forall i :: 0 <= i < |slots| ==> r[i] == slots[i]
    ensures forall i :: |slots| <= i < |r| ==> r[i] == None
  {
    if |slots| >= n then slots else slots + seq(n - |slots|, _ => None)
  }

  /** The fragment after one more packet of its message. */
  function Received(f: Partial, p: Packet): Partial
    requires p.Batch? && (!p.IsCancellation() ==> p.number < p.total)
  {
    if p.IsCancellation() then f.(cancelled := true)
    else
      var slots := Padded(f.slots, p.total)[p.number := Some(p.payload)];
      f.(slots := slots, received := if f.received + 1 == p.total then -1 else f.received + 1)
  }

  class ReceiveFragment {
    const source: int
    const id: int
    const tag: int
    var receivedFragments: int
    var dataFragments: seq<Option<seq<Byte>>>
    var cancelled: bool

    function Value(): Partial
      reads this
    {
      Partial(tag, dataFragments, receivedFragments, cancelled)
    }

    constructor (source: int, id: int, tag: int)
      ensures Value() == FreshPartial(tag) && this.source == source && this.id == id && this.tag == tag
    {
      this.source, this.id, this.tag := source, id, tag;
      receivedFragments, dataFragments, cancelled := 0, [], false;
    }

    method ReceiveNext(p: Packet)
      requires p.Batch? && p.source == source && p.id == id && p.tag == tag
      requires !p.IsCancellation() ==>
                 && p.number < p.total && receivedFragments >= 0
                 && (p.number < |dataFragments| ==> dataFragments[p.number] == None)
      modifies this
      ensures Value() == Received(old(Value()), p)
    {
      if |p.payload| == 0 && p.number == 0 && p.total == 0 {
        cancelled := true;
        return;
      }
      if p.total > |dataFragments| { dataFragments := Padded(dataFragments, p.total); }
      assert receivedFragments >= 0;
      assert dataFragments[p.number] == None;
      dataFragments := dataFragments[p.number := Some(p.payload)];
      receivedFragments := receivedFragments + 1;
      if receivedFragments == p.total { receivedFragments := -1; }
    }

    predicate IsFinished()
      reads this
    {
      receivedFragments == -1
    }
  }

  /** Sizes are summed up, then the fragments are copied one after another. */
  method Assemble(slots: seq<Option<seq<Byte>>>) returns (data: seq<Byte>)
    requires forall i :: 0 <= i < |slots| ==> slots[i].Some?
    ensures data == Concat(Values(slots))
  {
    data := [];
    for i := 0 to |slots|
      invariant data == Concat(Values(slots)[..i])
    {
      assert Values(slots)[..i + 1][..i] == Values(slots)[..i];
      data := data + slots[i].value;
    }
    assert Values(slots)[..|slots|] == Values(slots);
  }

  function Values(slots: seq<Option<seq<Byte>>>): (r: seq<seq<Byte>>)
    requires forall i :: 0 <= i < |slots| ==> slots[i].Some?
    ensures |r| == |slots| && forall i :: 0 <= i < |slots| ==> r[i] == slots[i].value
  {
    seq(|slots|, i requires 0 <= i < |slots| => slots[i].value)
  }

  /** Number of batches present. */
  ghost function Filled(slots: seq<Option<seq<Byte>>>): nat {
    if |slots| == 0 then 0 else Filled(slots[..|slots| - 1]) + if slots[|slots| - 1].Some? then 1 else 0
  }

  lemma {:induction false} FilledBound(slots: seq<Option<seq<Byte>>>)
    ensures Filled(slots) <= |slots|
    ensures Filled(slots) == |slots| <==> forall i :: 0 <= i < |slots| ==> slots[i].Some?
  {
    if |slots| > 0 {
      var front := slots[..|slots| - 1];
      FilledBound(front);
      assert forall i :: 0 <= i < |front| ==> front[i] == slots[i];
    }
  }

  lemma {:induction false} FilledOneMore(slots: seq<Option<seq<Byte>>>, i: nat, payload: seq<Byte>)
    requires i < |slots| && slots[i] == None
    ensures Filled(slots[i := Some(payload)]) == Filled(slots) + 1
  {
    var last := |slots| - 1;
    var r := slots[i := Some(payload)];
    if i < last {
      FilledOneMore(slots[..last], i, payload);
      assert r[..last] == slots[..last][i := Some(payload)];
    } else {
      assert r[..last] == slots[..last];
    }
  }

  lemma {:induction false} NoneFilled(slots: seq<Option<seq<Byte>>>)
    requires forall i :: 0 <= i < |slots| ==> slots[i] == None
    ensures Filled(slots) == 0
  {
    if |slots| > 0 {
      assert forall i :: 0 <= i < |slots| - 1 ==> slots[..|slots| - 1][i] == slots[i];
      NoneFilled(slots[..|slots| - 1]);
    }
  }
}
