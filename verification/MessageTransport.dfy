/**
 Transport of messages to one receiver: many senders post, send and cancel messages, and packets arrive
 in any order and interleaving.
 */
module MessageTransport {
  import opened Basics
  import opened Fragmentation

  datatype Key = Key(source: int, id: int)

  /** A posted message: batches sent so far, and whether a cancellation was requested and sent. */
  datatype Message = Message(tag: int, data: seq<Byte>, batchSize: nat, sent: nat, cancelled: bool, closed: bool) {
    ghost predicate Valid() { batchSize > 0 }

    function Total(): nat
      requires batchSize > 0
    {
      NumBatches(|data|, batchSize)
    }

    predicate Batched()
      requires batchSize > 0
    {
      Total() > 1
    }
  }

  datatype Delivery = Delivery(key: Key, tag: int, data: seq<Byte>)

  datatype Net = Net(messages: map<Key, Message>, inFlight: multiset<Packet>, table: map<Key, Partial>,
      delivered: seq<Delivery>)

  datatype Step =
    | Post(key: Key, tag: int, data: seq<Byte>, batchSize: nat)
    | Send(key: Key)
    | Cancel(key: Key)
    | Receive(packet: Packet)

  const Empty := Net(map[], multiset{}, map[], [])

  function KeyOf(p: Packet): Key { Key(p.source, p.id) }

  /** A batched message has more data than fits into one packet. */
  lemma {:induction false} BatchedSize(m: Message)
    requires m.Valid() && m.Batched()
    ensures |m.data| > m.batchSize + META_SIZE
  {
  }

  ghost function BatchPacket(key: Key, m: Message, i: nat): Packet
    requires m.Valid() && m.Batched() && i < m.Total()
  {
    BatchedSize(m);
    BatchesCover(|m.data|, m.batchSize, i);
    Batch(key.source, key.id, m.tag, Slice(m.data, m.batchSize, i), i, m.Total())
  }

  function CancelPacket(key: Key, m: Message): Packet { Batch(key.source, key.id, m.tag, [], 0, 0) }

  function WholePacket(key: Key, m: Message): Packet { Whole(key.source, key.id, m.tag, m.data) }

  // ----- steps ------------------------------------------------------------------------------

  ghost predicate Enabled(net: Net, step: Step) {
    match step
    case Post(key, _, _, batchSize) => key !in net.messages && batchSize > 0
    case Send(key) =>
      key in net.messages && net.messages[key].Valid()
      && net.messages[key].sent < net.messages[key].Total() && !net.messages[key].closed
    case Cancel(key) => key in net.messages
    case Receive(p) => p in net.inFlight && (p.Batch? && !p.IsCancellation() ==> p.number < p.total)
  }

  /** Batches put together; a missing one would contribute nothing. */
  function Joined(slots: seq<Option<seq<Byte>>>): seq<Byte> {
    if |slots| == 0 then []
    else Joined(slots[..|slots| - 1]) + match slots[|slots| - 1] case Some(b) => b case None => []
  }

  function EntryFor(table: map<Key, Partial>, p: Packet): Partial {
    if KeyOf(p) in table then table[KeyOf(p)] else FreshPartial(p.tag)
  }

  function Arrived(net: Net, p: Packet): Net
    requires p in net.inFlight && (p.Batch? && !p.IsCancellation() ==> p.number < p.total)
  {
    var key, inFlight := KeyOf(p), net.inFlight - multiset{p};
    match p
    case Whole(_, _, tag, data) => net.(inFlight := inFlight, delivered := net.delivered + [Delivery(key, tag, data)])
    case Batch(_, _, _, _, _, _) =>
      var f := Received(EntryFor(net.table, p), p);
      if f.cancelled then net.(inFlight := inFlight, table := net.table - {key})
      else if f.received == -1 then
        net.(inFlight := inFlight, table := net.table - {key},
             delivered := net.delivered + [Delivery(key, f.tag, Joined(f.slots))])
      else net.(inFlight := inFlight, table := net.table[key := f])
  }

  ghost function After(net: Net, step: Step): Net
    requires Enabled(net, step)
  {
    match step
    case Post(key, tag, data, batchSize) =>
      net.(messages := net.messages[key := Message(tag, data, batchSize, 0, false, false)])
    case Send(key) =>
      var m := net.messages[key];
      if !m.Batched() then
        net.(messages := net.messages[key := m.(sent := 1)], inFlight := net.inFlight + multiset{WholePacket(key, m)})
      else if m.cancelled then
        net.(messages := net.messages[key := m.(closed := true)],
            inFlight := net.inFlight + multiset{CancelPacket(key, m)})
      else
        net.(messages := net.messages[key := m.(sent := m.sent + 1)],
             inFlight := net.inFlight + multiset{BatchPacket(key, m, m.sent)})
    case Cancel(key) => net.(messages := net.messages[key := net.messages[key].(cancelled := true)])
    case Receive(p) => Arrived(net, p)
  }

  ghost predicate Run(trace: seq<Net>, steps: seq<Step>) {
    && |trace| == |steps| + 1 && trace[0] == Empty
    && forall i :: 0 <= i < |steps| ==> Enabled(trace[i], steps[i]) && trace[i + 1] == After(trace[i], steps[i])
  }

  // ----- what holds for each message -----------------------------------------------------------

  ghost predicate Done(delivered: seq<Delivery>, key: Key) {
    exists i :: 0 <= i < |delivered| && delivered[i].key == key
  }

  ghost function Entry(table: map<Key, Partial>, key: Key): Option<Partial> {
    if key in table then Some(table[key]) else None
  }

  ghost predicate HasSlot(entry: Option<Partial>, i: nat) {
    entry.Some? && i < |entry.value.slots| && entry.value.slots[i].Some?
  }

  /** How often a sent batch exists: on the way or collected. */
  ghost function Copies(key: Key, m: Message, inFlight: multiset<Packet>, entry: Option<Partial>, i: nat): nat
    requires m.Valid() && m.Batched() && i < m.Total()
  {
    inFlight[BatchPacket(key, m, i)] + if HasSlot(entry, i) then 1 else 0
  }

  ghost predicate EntryOk(m: Message, f: Partial)
    requires m.Valid() && m.Batched()
  {
    && f.tag == m.tag && !f.cancelled && |f.slots| == m.Total()
    && f.received == Filled(f.slots) < m.Total()
    && forall i :: 0 <= i < |f.slots| && f.slots[i].Some? ==> i < m.sent && f.slots[i].value == PayloadOf(m, i)
  }

  ghost function PayloadOf(m: Message, i: nat): seq<Byte>
    requires m.Valid() && m.Batched() && i < m.Total()
  {
    BatchPacket(Key(0, 0), m, i).payload
  }

  /** A batched message: every sent batch exists exactly once until the message is delivered. */
  ghost predicate BatchedOk(key: Key, m: Message, inFlight: multiset<Packet>, entry: Option<Partial>, done: bool)
    requires m.Valid() && m.Batched()
  {
    && m.sent <= m.Total() && (m.closed ==> m.cancelled && m.sent < m.Total())
    && (entry.Some? ==> EntryOk(m, entry.value))
    && (done ==> m.sent == m.Total() && !m.closed && entry == None)
    && forall i :: 0 <= i < m.sent ==>
         Copies(key, m, inFlight, entry, i) + (if done then 1 else 0) <= 1
         && (!m.closed ==> Copies(key, m, inFlight, entry, i) + (if done then 1 else 0) == 1)
  }

  ghost predicate WholeOk(key: Key, m: Message, inFlight: multiset<Packet>, entry: Option<Partial>, done: bool)
    requires m.Valid() && !m.Batched()
  {
    && m.sent <= 1 && !m.closed && entry == None
    && inFlight[WholePacket(key, m)] + (if done then 1 else 0) == m.sent
  }

  ghost predicate MessageOk(key: Key, m: Message, inFlight: multiset<Packet>, entry: Option<Partial>, done: bool) {
    && m.Valid()
    && if m.Batched() then BatchedOk(key, m, inFlight, entry, done) else WholeOk(key, m, inFlight, entry, done)
  }

  /** A packet in flight was sent for a posted message. */
  ghost predicate PacketOk(messages: map<Key, Message>, p: Packet) {
    && KeyOf(p) in messages
    && var m := messages[KeyOf(p)];
       && m.Valid()
       && match p
          case Whole(_, _, _, _) => !m.Batched() && p == WholePacket(KeyOf(p), m)
          case Batch(_, _, _, _, number, _) =>
            m.Batched() && if p.IsCancellation() then m.closed && p.tag == m.tag
                           else number < m.sent <= m.Total() && p == BatchPacket(KeyOf(p), m, number)
  }

  ghost predicate DeliveryOk(messages: map<Key, Message>, d: Delivery) {
    d.key in messages && d.tag == messages[d.key].tag && d.data == messages[d.key].data
  }

  ghost predicate Invariant(net: Net) {
    && (forall key :: key in net.messages ==>
          MessageOk(key, net.messages[key], net.inFlight, Entry(net.table, key), Done(net.delivered, key)))
    && (forall p :: p in net.inFlight ==> PacketOk(net.messages, p))
    && (forall key :: key in net.table ==> key in net.messages)
    && (forall i :: 0 <= i < |net.delivered| ==> DeliveryOk(net.messages, net.delivered[i]))
    && (forall i, j :: 0 <= i < j < |net.delivered| ==> net.delivered[i].key != net.delivered[j].key)
  }

  // ----- frames -----------------------------------------------------------------------------------

  ghost predicate SameFor(key: Key, a: multiset<Packet>, b: multiset<Packet>) {
    forall p: Packet :: KeyOf(p) == key ==> a[p] == b[p]
  }

  /** Packets of other messages do not matter to a message. */
  lemma {:induction false} FrameInFlight(key: Key, m: Message, a: multiset<Packet>, b: multiset<Packet>,
      entry: Option<Partial>, done: bool)
    requires SameFor(key, a, b) && MessageOk(key, m, a, entry, done)
    ensures MessageOk(key, m, b, entry, done)
  {
    hide EntryOk;
    if m.Batched() {
      forall i | 0 <= i < m.sent
        ensures Copies(key, m, b, entry, i) == Copies(key, m, a, entry, i)
      {
        assert KeyOf(BatchPacket(key, m, i)) == key;
      }
    } else {
      assert KeyOf(WholePacket(key, m)) == key;
    }
  }

  /** Packets are determined by the contents of a message, not by how much of it was sent. */
  lemma {:induction false} SameContents(key: Key, m: Message, m': Message)
    requires m.Valid() && m'.tag == m.tag && m'.data == m.data && m'.batchSize == m.batchSize
    ensures m'.Valid() && m'.Total() == m.Total() && m'.Batched() == m.Batched()
    ensures WholePacket(key, m') == WholePacket(key, m)
    ensures m.Batched() ==> forall i :: 0 <= i < m.Total() ==>
              BatchPacket(key, m', i) == BatchPacket(key, m, i) && PayloadOf(m', i) == PayloadOf(m, i)
  {
    hide NumBatches, Slice, Offset;
  }

  lemma {:induction false} EntryKept(key: Key, m: Message, m': Message, f: Partial)
    requires m.Valid() && m.Batched() && EntryOk(m, f)
    requires m'.tag == m.tag && m'.data == m.data && m'.batchSize == m.batchSize && m'.sent >= m.sent
    ensures m'.Valid() && m'.Batched() && EntryOk(m', f)
  {
    SameContents(key, m, m');
    hide PayloadOf, Filled;
  }

  lemma {:induction false} PacketKept(messages: map<Key, Message>, key: Key, m': Message, p: Packet)
    requires PacketOk(messages, p) && key in messages
    requires var m := messages[key];
             m'.tag == m.tag && m'.data == m.data && m'.batchSize == m.batchSize && m'.sent >= m.sent
               && (m.closed ==> m'.closed)
    requires m'.batchSize > 0 ==> m'.sent <= m'.Total()
    ensures PacketOk(messages[key := m'], p)
  {
    if KeyOf(p) == key { SameContents(key, messages[key], m'); }
    hide BatchPacket, NumBatches;
  }

  /** Changing one message keeps the invariant if the packets and that message stay in order. */
  lemma {:induction false} UpdateMessage(net: Net, key: Key, m': Message, inFlight: multiset<Packet>)
    requires Invariant(net)
    requires key in net.messages ==> m'.tag == net.messages[key].tag && m'.data == net.messages[key].data
    requires MessageOk(key, m', inFlight, Entry(net.table, key), Done(net.delivered, key))
    requires forall k :: k in net.messages && k != key ==> SameFor(k, net.inFlight, inFlight)
    requires forall p :: p in inFlight ==> PacketOk(net.messages[key := m'], p)
    ensures Invariant(net.(messages := net.messages[key := m'], inFlight := inFlight))
  {
    hide MessageOk, PacketOk, Done, SameFor;
    var net' := net.(messages := net.messages[key := m'], inFlight := inFlight);
    forall k | k in net'.messages
      ensures MessageOk(k, net'.messages[k], net'.inFlight, Entry(net'.table, k), Done(net'.delivered, k))
    {
      if k != key {
        FrameInFlight(k, net.messages[k], net.inFlight, inFlight, Entry(net.table, k), Done(net.delivered, k));
      }
    }
  }

  lemma {:induction false} OnePacketMore(key: Key, p: Packet, inFlight: multiset<Packet>)
    requires KeyOf(p) != key
    ensures SameFor(key, inFlight, inFlight + multiset{p}) && SameFor(key, inFlight, inFlight - multiset{p})
  {
  }

  // ----- posting, sending, cancelling -----------------------------------------------------------------

  lemma {:induction false} PostKeeps(net: Net, key: Key, tag: int, data: seq<Byte>, batchSize: nat)
    requires Invariant(net) && key !in net.messages && batchSize > 0
    ensures Invariant(net.(messages := net.messages[key := Message(tag, data, batchSize, 0, false, false)]))
  {
    var m := Message(tag, data, batchSize, 0, false, false);
    assert !Done(net.delivered, key);
    assert WholePacket(key, m) !in net.inFlight;
    assert Entry(net.table, key) == None;
    assert MessageOk(key, m, net.inFlight, None, false);
    forall p | p in net.inFlight ensures PacketOk(net.messages[key := m], p) {
      assert PacketOk(net.messages, p);
    }
    hide Invariant, MessageOk, PacketOk, Done;
    UpdateMessage(net, key, m, net.inFlight);
    assert net.(messages := net.messages[key := m], inFlight := net.inFlight)
        == net.(messages := net.messages[key := m]);
  }

  lemma {:induction false} CancelKeeps(net: Net, key: Key)
    requires Invariant(net) && key in net.messages
    ensures Invariant(net.(messages := net.messages[key := net.messages[key].(cancelled := true)]))
  {
    var m := net.messages[key];
    var m' := m.(cancelled := true);
    var entry, done := Entry(net.table, key), Done(net.delivered, key);
    assert MessageOk(key, m, net.inFlight, entry, done);
    MessageStays(key, m, m', net.inFlight, entry, done);
    forall p | p in net.inFlight ensures PacketOk(net.messages[key := m'], p) {
      assert PacketOk(net.messages, p);
      PacketKept(net.messages, key, m', p);
    }
    hide Invariant, MessageOk, PacketOk, Done;
    UpdateMessage(net, key, m', net.inFlight);
    assert net.(messages := net.messages[key := m'], inFlight := net.inFlight)
        == net.(messages := net.messages[key := m']);
  }

  /** Flags may change as long as a message is closed only when it was cancelled in time. */
  lemma {:induction false} MessageStays(key: Key, m: Message, m': Message, inFlight: multiset<Packet>,
      entry: Option<Partial>, done: bool)
    requires MessageOk(key, m, inFlight, entry, done)
    requires m'.tag == m.tag && m'.data == m.data && m'.batchSize == m.batchSize && m'.sent == m.sent
    requires (m.closed ==> m'.closed) && (m.cancelled ==> m'.cancelled)
    requires m'.closed && !m.closed ==> m.Batched() && m'.cancelled && m.sent < m.Total()
    ensures MessageOk(key, m', inFlight, entry, done)
    ensures m'.batchSize > 0 && m'.sent <= m'.Total()
  {
    SameContents(key, m, m');
    if m.Batched() && entry.Some? { EntryKept(key, m, m', entry.value); }
    if m.Batched() {
      forall i | 0 <= i < m'.sent
        ensures Copies(key, m', inFlight, entry, i) == Copies(key, m, inFlight, entry, i)
      {
      }
    }
    hide BatchPacket, EntryOk, NumBatches;
  }

  /** Sending one packet of a message keeps the invariant if it stays true for that message. */
  lemma {:induction false} SendPacket(net: Net, key: Key, m': Message, p0: Packet)
    requires Invariant(net) && key in net.messages && KeyOf(p0) == key
    requires var m := net.messages[key];
             m'.tag == m.tag && m'.data == m.data && m'.batchSize == m.batchSize && m'.sent >= m.sent
               && (m.closed ==> m'.closed)
    requires m'.batchSize > 0 ==> m'.sent <= m'.Total()
    requires MessageOk(key, m', net.inFlight + multiset{p0}, Entry(net.table, key), Done(net.delivered, key))
    requires PacketOk(net.messages[key := m'], p0)
    ensures Invariant(net.(messages := net.messages[key := m'], inFlight := net.inFlight + multiset{p0}))
  {
    var inFlight := net.inFlight + multiset{p0};
    assert forall p :: p in net.inFlight ==> PacketOk(net.messages, p);
    hide Invariant, MessageOk, PacketOk, Done, NumBatches;
    forall p | p in inFlight ensures PacketOk(net.messages[key := m'], p) {
      if p != p0 { PacketKept(net.messages, key, m', p); }
    }
    forall k | k in net.messages && k != key ensures SameFor(k, net.inFlight, inFlight) {
      OnePacketMore(k, p0, net.inFlight);
    }
    hide SameFor;
    UpdateMessage(net, key, m', inFlight);
  }

  lemma {:induction false} SendWholeKeeps(net: Net, key: Key)
    requires Invariant(net) && key in net.messages && net.messages[key].Valid()
    requires !net.messages[key].Batched() && net.messages[key].sent == 0
    ensures var m := net.messages[key];
            Invariant(net.(messages := net.messages[key := m.(sent := 1)],
                inFlight := net.inFlight + multiset{WholePacket(key, m)}))
  {
    var m := net.messages[key];
    var m', p0 := m.(sent := 1), WholePacket(key, m);
    var inFlight := net.inFlight + multiset{p0};
    assert MessageOk(key, m, net.inFlight, Entry(net.table, key), Done(net.delivered, key));
    SameContents(key, m, m');
    assert MessageOk(key, m', inFlight, Entry(net.table, key), Done(net.delivered, key));
    assert PacketOk(net.messages[key := m'], p0);
    hide Invariant, MessageOk, PacketOk, Done;
    SendPacket(net, key, m', p0);
  }

  lemma {:induction false} SendCancelKeeps(net: Net, key: Key)
    requires Invariant(net) && key in net.messages && net.messages[key].Valid() && net.messages[key].Batched()
    requires net.messages[key].cancelled && net.messages[key].sent < net.messages[key].Total()
    ensures var m := net.messages[key];
            Invariant(net.(messages := net.messages[key := m.(closed := true)],
                inFlight := net.inFlight + multiset{CancelPacket(key, m)}))
  {
    var m := net.messages[key];
    var m', p0 := m.(closed := true), CancelPacket(key, m);
    var inFlight := net.inFlight + multiset{p0};
    var entry, done := Entry(net.table, key), Done(net.delivered, key);
    assert MessageOk(key, m, net.inFlight, entry, done);
    MessageStays(key, m, m', net.inFlight, entry, done);
    CancelIsNoBatch(key, m', net.inFlight, entry, done);
    SameContents(key, m, m');
    assert PacketOk(net.messages[key := m'], p0);
    hide Invariant, MessageOk, PacketOk, Done;
    SendPacket(net, key, m', p0);
  }

  /** A cancellation is none of the batches. */
  lemma {:induction false} CancelIsNoBatch(key: Key, m: Message, inFlight: multiset<Packet>, entry: Option<Partial>,
      done: bool)
    requires MessageOk(key, m, inFlight, entry, done) && m.Batched()
    ensures MessageOk(key, m, inFlight + multiset{CancelPacket(key, m)}, entry, done)
    ensures MessageOk(key, m, inFlight - multiset{CancelPacket(key, m)}, entry, done)
  {
    hide EntryOk;
    var more, less := inFlight + multiset{CancelPacket(key, m)}, inFlight - multiset{CancelPacket(key, m)};
    forall i | 0 <= i < m.sent
      ensures Copies(key, m, more, entry, i) == Copies(key, m, inFlight, entry, i)
      ensures Copies(key, m, less, entry, i) == Copies(key, m, inFlight, entry, i)
    {
      assert BatchPacket(key, m, i).total > 0;
    }
  }

  lemma {:induction false} SendBatchKeeps(net: Net, key: Key)
    requires Invariant(net) && key in net.messages && net.messages[key].Valid() && net.messages[key].Batched()
    requires !net.messages[key].cancelled && net.messages[key].sent < net.messages[key].Total()
    ensures var m := net.messages[key];
            Invariant(net.(messages := net.messages[key := m.(sent := m.sent + 1)],
                           inFlight := net.inFlight + multiset{BatchPacket(key, m, m.sent)}))
  {
    hide NumBatches, BatchPacket, Invariant, MessageOk, PacketOk, Done;
    var m := net.messages[key];
    var m', p0 := m.(sent := m.sent + 1), BatchPacket(key, m, m.sent);
    DataBatch(key, m, m.sent);
    NextBatchIsNew(net, key);
    NewPacket(net.messages, key);
    NewBatch(key, m, net.inFlight, Entry(net.table, key), Done(net.delivered, key));
    SendPacket(net, key, m', p0);
  }

  lemma {:induction false} NextBatchIsNew(net: Net, key: Key)
    requires Invariant(net) && key in net.messages && net.messages[key].Valid() && net.messages[key].Batched()
    requires net.messages[key].sent < net.messages[key].Total()
    ensures var m := net.messages[key];
            && BatchPacket(key, m, m.sent) !in net.inFlight
            && MessageOk(key, m, net.inFlight, Entry(net.table, key), Done(net.delivered, key))
            && m.sent + 1 <= m.Total()
  {
    var m := net.messages[key];
    DataBatch(key, m, m.sent);
    hide BatchPacket, NumBatches, MessageOk;
  }

  lemma {:induction false} NewPacket(messages: map<Key, Message>, key: Key)
    requires key in messages && messages[key].Valid() && messages[key].Batched()
    requires messages[key].sent < messages[key].Total()
    ensures var m := messages[key];
            PacketOk(messages[key := m.(sent := m.sent + 1)], BatchPacket(key, m, m.sent))
  {
    var m := messages[key];
    SameContents(key, m, m.(sent := m.sent + 1));
    DataBatch(key, m, m.sent);
    hide NumBatches, BatchPacket;
  }

  lemma {:induction false} DataBatch(key: Key, m: Message, i: nat)
    requires m.Valid() && m.Batched() && i < m.Total()
    ensures var p := BatchPacket(key, m, i);
            KeyOf(p) == key && p.number == i && p.total == m.Total() && !p.IsCancellation()
              && p.payload == PayloadOf(m, i)
  {
    hide NumBatches;
  }

  lemma {:induction false} NewBatch(key: Key, m: Message, inFlight: multiset<Packet>, entry: Option<Partial>,
      done: bool)
    requires MessageOk(key, m, inFlight, entry, done) && m.Batched() && m.sent < m.Total() && !m.cancelled
    requires BatchPacket(key, m, m.sent) !in inFlight
    ensures MessageOk(key, m.(sent := m.sent + 1), inFlight + multiset{BatchPacket(key, m, m.sent)}, entry, done)
  {
    var m', p0 := m.(sent := m.sent + 1), BatchPacket(key, m, m.sent);
    var more := inFlight + multiset{p0};
    SameContents(key, m, m');
    if entry.Some? { EntryKept(key, m, m', entry.value); }
    assert !HasSlot(entry, m.sent);
    forall i | 0 <= i < m'.sent
      ensures Copies(key, m', more, entry, i) == if i < m.sent then Copies(key, m, inFlight, entry, i) else 1
    {
      DataBatch(key, m, i);
      DataBatch(key, m, m.sent);
    }
    hide EntryOk, BatchPacket, NumBatches;
  }

  // ----- receiving ------------------------------------------------------------------------------------

  /** An arriving packet concerns one message only. */
  lemma {:induction false} UpdateReceiver(net: Net, key: Key, net': Net)
    requires Invariant(net) && key in net.messages && net'.messages == net.messages
    requires forall k :: k in net.messages && k != key ==>
               SameFor(k, net.inFlight, net'.inFlight) && Entry(net'.table, k) == Entry(net.table, k)
    requires forall p :: p in net'.inFlight ==> p in net.inFlight
    requires forall k :: k in net'.table ==> k in net.table || k == key
    requires net'.delivered != net.delivered ==>
               && |net'.delivered| > 0 && net'.delivered == net.delivered + [net'.delivered[|net'.delivered| - 1]]
               && !Done(net.delivered, key) && net'.delivered[|net'.delivered| - 1].key == key
               && DeliveryOk(net.messages, net'.delivered[|net'.delivered| - 1])
    requires MessageOk(key, net.messages[key], net'.inFlight, Entry(net'.table, key), Done(net'.delivered, key))
    ensures Invariant(net')
  {
    hide MessageOk, PacketOk, DeliveryOk, SameFor;
    forall k | k in net'.messages
      ensures MessageOk(k, net'.messages[k], net'.inFlight, Entry(net'.table, k), Done(net'.delivered, k))
    {
      if k != key {
        DoneOther(net.delivered, net'.delivered, k);
        FrameInFlight(k, net.messages[k], net.inFlight, net'.inFlight, Entry(net.table, k), Done(net.delivered, k));
      }
    }
  }

  lemma {:induction false} DoneOther(a: seq<Delivery>, b: seq<Delivery>, key: Key)
    requires b != a ==> |b| > 0 && b == a + [b[|b| - 1]] && b[|b| - 1].key != key
    ensures Done(b, key) == Done(a, key)
  {
    if b != a && Done(a, key) {
      var i :| 0 <= i < |a| && a[i].key == key;
      assert b[i].key == key;
    }
  }

  lemma {:induction false} ReceiveWholeKeeps(net: Net, p: Packet)
    requires Invariant(net) && p in net.inFlight && p.Whole?
    ensures Invariant(Arrived(net, p))
  {
    var key, net' := KeyOf(p), Arrived(net, p);
    assert PacketOk(net.messages, p);
    var m := net.messages[key];
    assert MessageOk(key, m, net.inFlight, Entry(net.table, key), Done(net.delivered, key));
    assert net'.delivered[|net.delivered|].key == key;
    assert MessageOk(key, m, net'.inFlight, Entry(net'.table, key), Done(net'.delivered, key));
    forall k | k in net.messages && k != key ensures SameFor(k, net.inFlight, net'.inFlight) {
      OnePacketMore(k, p, net.inFlight);
    }
    hide Invariant, MessageOk, PacketOk, Done;
    UpdateReceiver(net, key, net');
  }

  lemma {:induction false} ReceiveCancelKeeps(net: Net, p: Packet)
    requires Invariant(net) && p in net.inFlight && p.IsCancellation()
    ensures Invariant(Arrived(net, p))
  {
    var key, net' := KeyOf(p), Arrived(net, p);
    assert PacketOk(net.messages, p);
    var m := net.messages[key];
    var entry, done := Entry(net.table, key), Done(net.delivered, key);
    assert MessageOk(key, m, net.inFlight, entry, done);
    assert p == CancelPacket(key, m);
    CancelIsNoBatch(key, m, net.inFlight, entry, done);
    DropEntry(key, m, net'.inFlight, entry, done);
    forall k | k in net.messages && k != key ensures SameFor(k, net.inFlight, net'.inFlight) {
      OnePacketMore(k, p, net.inFlight);
    }
    hide Invariant, MessageOk, PacketOk, Done;
    UpdateReceiver(net, key, net');
  }

  /** The batches of a cancelled message may be thrown away. */
  lemma {:induction false} DropEntry(key: Key, m: Message, inFlight: multiset<Packet>, entry: Option<Partial>,
      done: bool)
    requires MessageOk(key, m, inFlight, entry, done) && m.closed
    ensures MessageOk(key, m, inFlight, None, done)
  {
    hide EntryOk;
    forall i | 0 <= i < m.sent
      ensures Copies(key, m, inFlight, None, i) <= Copies(key, m, inFlight, entry, i)
    {
    }
  }

  /** A batch joins the others: it is new, and it completes the message only if it is the last one missing. */
  lemma {:induction false} CollectBatch(m: Message, entry: Option<Partial>, p: Packet)
    requires m.Valid() && m.Batched() && p.Batch? && !p.IsCancellation()
    requires p.number < m.sent <= m.Total() == p.total && p.payload == PayloadOf(m, p.number)
    requires entry.Some? ==> EntryOk(m, entry.value)
    requires !HasSlot(entry, p.number)
    ensures var f := Received(if entry.Some? then entry.value else FreshPartial(m.tag), p);
            && |f.slots| == m.Total() && f.tag == m.tag && !f.cancelled
            && (forall i :: 0 <= i < |f.slots| ==> (f.slots[i].Some? <==> i == p.number || HasSlot(entry, i)))
            && (forall i :: 0 <= i < |f.slots| && f.slots[i].Some? ==>
                              i < m.sent && f.slots[i].value == PayloadOf(m, i))
            && (f.received != -1 ==> EntryOk(m, f))
            && (f.received == -1 <==> forall i :: 0 <= i < |f.slots| ==> f.slots[i].Some?)
  {
    hide NumBatches, PayloadOf, Filled;
    var f0 := if entry.Some? then entry.value else FreshPartial(m.tag);
    var padded := Padded(f0.slots, p.total);
    assert Filled(padded) == f0.received by {
      if entry == None { NoneFilled(padded); }
    }
    FilledOneMore(padded, p.number, p.payload);
    var f := Received(f0, p);
    assert f.slots == padded[p.number := Some(p.payload)];
    FilledBound(f.slots);
  }

  lemma {:induction false} JoinedValues(slots: seq<Option<seq<Byte>>>)
    requires forall i :: 0 <= i < |slots| ==> slots[i].Some?
    ensures Joined(slots) == Concat(Values(slots))
  {
    if |slots| > 0 {
      var front := slots[..|slots| - 1];
      JoinedValues(front);
      assert Values(slots)[..|slots| - 1] == Values(front);
    }
  }

  /** All batches in their slots make up the message. */
  lemma {:induction false} JoinedAll(m: Message, slots: seq<Option<seq<Byte>>>)
    requires m.Valid() && m.Batched() && |slots| == m.Total()
    requires forall i :: 0 <= i < |slots| ==> slots[i].Some? && slots[i].value == PayloadOf(m, i)
    ensures Joined(slots) == m.data
  {
    BatchedSize(m);
    var parts := Slices(m.data, m.batchSize, m.Total());
    forall i | 0 <= i < |slots| ensures slots[i].value == parts[i] {
      SlicesAt(m.data, m.batchSize, m.Total(), i);
    }
    hide NumBatches, PayloadOf, Slices;
    assert Values(slots) == parts;
    JoinedValues(slots);
    Reassembly(m.data, m.batchSize);
  }

  /** A batch on its way has not been collected, and its message is not complete. */
  lemma {:induction false} BatchIsNew(key: Key, m: Message, inFlight: multiset<Packet>, entry: Option<Partial>,
      done: bool, i: nat)
    requires MessageOk(key, m, inFlight, entry, done) && m.Batched() && i < m.sent <= m.Total()
    requires BatchPacket(key, m, i) in inFlight
    ensures !done && !HasSlot(entry, i)
    ensures entry.Some? ==> EntryOk(m, entry.value)
  {
    hide EntryOk, BatchPacket;
    assert Copies(key, m, inFlight, entry, i) >= 1;
  }

  /** Taking a batch from the network into its slot keeps every batch exactly as often. */
  lemma {:induction false} CopiesMoved(key: Key, m: Message, inFlight: multiset<Packet>, entry: Option<Partial>,
      f: Partial, number: nat, i: nat)
    requires m.Valid() && m.Batched() && i < m.Total() && number < m.Total() == |f.slots|
    requires BatchPacket(key, m, number) in inFlight && !HasSlot(entry, number)
    requires f.slots[i].Some? <==> i == number || HasSlot(entry, i)
    ensures Copies(key, m, inFlight - multiset{BatchPacket(key, m, number)}, Some(f), i)
         == Copies(key, m, inFlight, entry, i)
  {
    DataBatch(key, m, i);
    DataBatch(key, m, number);
    hide BatchPacket, NumBatches;
  }

  lemma {:induction false} BatchMoved(key: Key, m: Message, inFlight: multiset<Packet>, entry: Option<Partial>,
      done: bool, p: Packet, f: Partial)
    requires MessageOk(key, m, inFlight, entry, done) && m.Batched()
    requires p in inFlight && p.Batch? && !p.IsCancellation() && p.number < m.sent <= m.Total()
    requires p == BatchPacket(key, m, p.number)
    requires f == Received(if entry.Some? then entry.value else FreshPartial(m.tag), p)
    ensures !done && f.tag == m.tag && !f.cancelled
    ensures f.received == -1 ==> MessageOk(key, m, inFlight - multiset{p}, None, true) && Joined(f.slots) == m.data
    ensures f.received != -1 ==> MessageOk(key, m, inFlight - multiset{p}, Some(f), false)
  {
    BatchIsNew(key, m, inFlight, entry, done, p.number);
    DataBatch(key, m, p.number);
    CollectBatch(m, entry, p);
    hide Received, NumBatches, EntryOk, Joined;
    var less := inFlight - multiset{p};
    forall i | 0 <= i < m.sent
      ensures Copies(key, m, less, Some(f), i) == Copies(key, m, inFlight, entry, i)
    {
      CopiesMoved(key, m, inFlight, entry, f, p.number, i);
    }
    hide MessageOk, BatchPacket, Copies;
    if f.received == -1 {
      JoinedAll(m, f.slots);
      Completed(key, m, inFlight, less, entry, f);
    } else {
      Collected(key, m, inFlight, less, entry, f);
    }
  }

  lemma {:induction false} Collected(key: Key, m: Message, inFlight: multiset<Packet>, less: multiset<Packet>,
      entry: Option<Partial>, f: Partial)
    requires MessageOk(key, m, inFlight, entry, false) && m.Batched() && EntryOk(m, f) && m.sent <= m.Total()
    requires forall i :: 0 <= i < m.sent ==> Copies(key, m, less, Some(f), i) == Copies(key, m, inFlight, entry, i)
    ensures MessageOk(key, m, less, Some(f), false)
  {
    hide EntryOk, Copies, NumBatches;
  }

  lemma {:induction false} Completed(key: Key, m: Message, inFlight: multiset<Packet>, less: multiset<Packet>,
      entry: Option<Partial>, f: Partial)
    requires MessageOk(key, m, inFlight, entry, false) && m.Batched() && m.sent <= m.Total() == |f.slots|
    requires forall i :: 0 <= i < m.sent ==> Copies(key, m, less, Some(f), i) == Copies(key, m, inFlight, entry, i)
    requires forall i :: 0 <= i < |f.slots| ==> f.slots[i].Some? && i < m.sent
    ensures MessageOk(key, m, less, None, true)
  {
    hide EntryOk, NumBatches, BatchPacket;
    assert f.slots[m.Total() - 1].Some?;
    forall i | 0 <= i < m.sent ensures Copies(key, m, less, None, i) == 0 {
      assert f.slots[i].Some? && HasSlot(Some(f), i);
      assert Copies(key, m, less, Some(f), i) <= 1;
    }
  }

  lemma {:induction false} ReceiveBatchKeeps(net: Net, p: Packet)
    requires Invariant(net) && p in net.inFlight && p.Batch? && !p.IsCancellation() && p.number < p.total
    ensures Invariant(Arrived(net, p))
  {
    hide Joined, Received, MessageOk, BatchPacket;
    var key, net' := KeyOf(p), Arrived(net, p);
    assert PacketOk(net.messages, p);
    var m := net.messages[key];
    var entry, done := Entry(net.table, key), Done(net.delivered, key);
    assert MessageOk(key, m, net.inFlight, entry, done);
    var f := Received(EntryFor(net.table, p), p);
    DataBatch(key, m, p.number);
    assert p.tag == m.tag by { BatchTag(key, m, p.number); }
    BatchMoved(key, m, net.inFlight, entry, done, p, f);
    assert Entry(net'.table, key) == if f.received == -1 then None else Some(f);
    assert Done(net'.delivered, key) == (f.received == -1) by {
      if f.received == -1 { assert net'.delivered[|net.delivered|].key == key; }
    }
    forall k | k in net.messages && k != key ensures SameFor(k, net.inFlight, net'.inFlight) {
      OnePacketMore(k, p, net.inFlight);
    }
    hide Invariant, PacketOk, Done, SameFor;
    UpdateReceiver(net, key, net');
  }

  lemma {:induction false} BatchTag(key: Key, m: Message, i: nat)
    requires m.Valid() && m.Batched() && i < m.Total()
    ensures BatchPacket(key, m, i).tag == m.tag
  {
  }

  // ----- every run ---------------------------------------------------------------------------------------

  lemma {:induction false} StepKeepsInvariant(net: Net, step: Step)
    requires Invariant(net) && Enabled(net, step)
    ensures Invariant(After(net, step))
  {
    hide Invariant;
    match step
    case Post(key, tag, data, batchSize) => PostKeeps(net, key, tag, data, batchSize);
    case Cancel(key) => CancelKeeps(net, key);
    case Receive(p) =>
      if p.Whole? { ReceiveWholeKeeps(net, p); }
      else if p.IsCancellation() { ReceiveCancelKeeps(net, p); }
      else { ReceiveBatchKeeps(net, p); }
    case Send(key) =>
      var m := net.messages[key];
      if m.Batched() {
        if m.cancelled { SendCancelKeeps(net, key); } else { SendBatchKeeps(net, key); }
      } else {
        UnbatchedOnce(net, key);
        SendWholeKeeps(net, key);
      }
  }

  lemma {:induction false} UnbatchedOnce(net: Net, key: Key)
    requires key in net.messages && net.messages[key].Valid() && !net.messages[key].Batched()
    ensures net.messages[key].Total() == 1
  {
  }

  lemma {:induction false} RunKeepsInvariant(trace: seq<Net>, steps: seq<Step>, n: nat)
    requires Run(trace, steps) && n < |trace|
    ensures Invariant(trace[n])
  {
    if n > 0 {
      RunKeepsInvariant(trace, steps, n - 1);
      hide Invariant, After;
      StepKeepsInvariant(trace[n - 1], steps[n - 1]);
    }
  }

  /** The message was posted with these contents. */
  ghost predicate WasPosted(steps: seq<Step>, n: nat, key: Key, tag: int, data: seq<Byte>)
    requires n <= |steps|
  {
    exists i :: 0 <= i < n && steps[i].Post? && steps[i].key == key && steps[i].tag == tag && steps[i].data == data
  }

  lemma {:induction false} NewIsPosted(net: Net, step: Step, key: Key)
    requires Enabled(net, step) && key !in net.messages && key in After(net, step).messages
    ensures var m := After(net, step).messages[key];
            step == Post(key, m.tag, m.data, m.batchSize)
  {
    hide Received, Joined, NumBatches, BatchPacket;
  }

  lemma {:induction false} MessageWasPosted(trace: seq<Net>, steps: seq<Step>, n: nat, key: Key)
    requires Run(trace, steps) && n < |trace| && key in trace[n].messages
    ensures WasPosted(steps, n, key, trace[n].messages[key].tag, trace[n].messages[key].data)
  {
    if n > 0 {
      var net, step := trace[n - 1], steps[n - 1];
      RunKeepsInvariant(trace, steps, n - 1);
      hide Invariant, After, Enabled;
      if key in net.messages {
        MessageWasPosted(trace, steps, n - 1, key);
        StepProgress(net, step, key);
      } else {
        NewIsPosted(net, step, key);
      }
    }
  }

  /** Nothing but posted messages is delivered, each with its own tag and bytes and at most once. */
  lemma {:induction false} DeliveriesAreFaithful(trace: seq<Net>, steps: seq<Step>, n: nat, i: nat)
    requires Run(trace, steps) && n < |trace| && i < |trace[n].delivered|
    ensures var d := trace[n].delivered[i];
            && d.key in trace[n].messages
            && d.tag == trace[n].messages[d.key].tag && d.data == trace[n].messages[d.key].data
            && WasPosted(steps, n, d.key, d.tag, d.data)
            && forall j :: 0 <= j < |trace[n].delivered| && j != i ==> trace[n].delivered[j].key != d.key
  {
    RunKeepsInvariant(trace, steps, n);
    var net := trace[n];
    assert DeliveryOk(net.messages, net.delivered[i]);
    MessageWasPosted(trace, steps, n, net.delivered[i].key);
  }

  /** Every packet fits the receive buffer, and no batch is empty unless it announces a cancellation. */
  lemma {:induction false} PacketsFit(trace: seq<Net>, steps: seq<Step>, n: nat, p: Packet)
    requires Run(trace, steps) && n < |trace| && p in trace[n].inFlight
    ensures KeyOf(p) in trace[n].messages && p.Length() <= trace[n].messages[KeyOf(p)].batchSize + 20
    ensures p.Batch? ==> p.payload != [] || p.IsCancellation()
  {
    RunKeepsInvariant(trace, steps, n);
    var messages := trace[n].messages;
    assert PacketOk(messages, p);
    var m := messages[KeyOf(p)];
    if p.Whole? {
      NotBatched(|m.data|, m.batchSize);
    } else if !p.IsCancellation() {
      BatchLength(KeyOf(p), m, p.number);
    }
  }

  lemma {:induction false} BatchLength(key: Key, m: Message, i: nat)
    requires m.Valid() && m.Batched() && i < m.Total()
    ensures 0 < |BatchPacket(key, m, i).payload| <= m.batchSize
  {
    BatchedSize(m);
    BatchesCover(|m.data|, m.batchSize, i);
    hide Offset, NumBatches;
  }

  /** The receiver's assertions never fail: a batch belongs to its entry, which is incomplete and lacks it. */
  lemma {:induction false} ReceiverAssertionsHold(trace: seq<Net>, steps: seq<Step>, n: nat, p: Packet)
    requires Run(trace, steps) && n < |trace| && p in trace[n].inFlight && p.Batch? && !p.IsCancellation()
    ensures Enabled(trace[n], Receive(p))
    ensures var f := EntryFor(trace[n].table, p);
            && p.number < p.total && f.tag == p.tag && f.received >= 0
            && (p.number < |f.slots| ==> f.slots[p.number] == None)
  {
    RunKeepsInvariant(trace, steps, n);
    var net, key := trace[n], KeyOf(p);
    assert PacketOk(net.messages, p);
    var m := net.messages[key];
    DataBatch(key, m, p.number);
    BatchTag(key, m, p.number);
    assert MessageOk(key, m, net.inFlight, Entry(net.table, key), Done(net.delivered, key));
    BatchIsNew(key, m, net.inFlight, Entry(net.table, key), Done(net.delivered, key), p.number);
  }

  // ----- what is delivered ----------------------------------------------------------------------------------

  /** The sender has nothing left to send for this message. */
  ghost predicate SenderFinished(m: Message)
    requires m.Valid()
  {
    m.sent == m.Total() || m.closed
  }

  ghost predicate NothingInFlight(net: Net, key: Key) {
    forall p :: p in net.inFlight ==> KeyOf(p) != key
  }

  /** Once the network has carried everything, exactly the completely sent messages are delivered. */
  lemma {:induction false} DeliveredIffSent(net: Net, key: Key)
    requires Invariant(net) && key in net.messages && net.messages[key].Valid()
    requires SenderFinished(net.messages[key]) && NothingInFlight(net, key)
    ensures Done(net.delivered, key) <==> net.messages[key].sent == net.messages[key].Total()
  {
    var m := net.messages[key];
    var entry, done := Entry(net.table, key), Done(net.delivered, key);
    assert MessageOk(key, m, net.inFlight, entry, done);
    if m.Batched() {
      if !done && m.sent == m.Total() { AllCollected(net, key); }
    } else {
      assert KeyOf(WholePacket(key, m)) == key;
    }
  }

  /** Batches that are sent and no longer on their way have been collected. */
  lemma {:induction false} AllCollected(net: Net, key: Key)
    requires key in net.messages && net.messages[key].Valid() && NothingInFlight(net, key)
    requires var m, entry := net.messages[key], Entry(net.table, key);
             && m.Batched() && m.sent == m.Total()
             && (forall i :: 0 <= i < m.Total() ==> Copies(key, m, net.inFlight, entry, i) == 1)
             && (entry.Some? ==> |entry.value.slots| == m.Total())
    ensures key in net.table && Filled(net.table[key].slots) == net.messages[key].Total()
  {
    var m := net.messages[key];
    var entry := Entry(net.table, key);
    hide NumBatches;
    forall i | 0 <= i < m.sent ensures HasSlot(entry, i) {
      DataBatch(key, m, i);
      assert Copies(key, m, net.inFlight, entry, i) == 1;
    }
    assert HasSlot(entry, 0);
    var slots := entry.value.slots;
    assert forall i :: 0 <= i < |slots| ==> HasSlot(entry, i) && slots[i].Some?;
    FilledBound(slots);
  }

  /** A cancellation comes in time if a batched message still has batches to send. */
  ghost predicate InTime(m: Message)
    requires m.Valid()
  {
    m.Batched() && m.sent < m.Total()
  }

  ghost predicate Progressed(m: Message, m': Message) {
    && m.Valid() && m'.tag == m.tag && m'.data == m.data && m'.batchSize == m.batchSize
    && (m.cancelled ==> m'.cancelled)
    && m.sent <= m'.sent && (m.cancelled && InTime(m) ==> m'.sent == m.sent)
  }

  lemma {:induction false} StepProgress(net: Net, step: Step, key: Key)
    requires Invariant(net) && Enabled(net, step) && key in net.messages
    ensures key in After(net, step).messages && Progressed(net.messages[key], After(net, step).messages[key])
  {
    hide NumBatches, BatchPacket, Received, Joined;
    assert MessageOk(key, net.messages[key], net.inFlight, Entry(net.table, key), Done(net.delivered, key));
    if step.Send? { SendProgress(net, step.key, key); }
  }

  lemma {:induction false} SendProgress(net: Net, sending: Key, key: Key)
    requires Invariant(net) && Enabled(net, Send(sending)) && key in net.messages && net.messages[key].Valid()
    ensures key in After(net, Send(sending)).messages
    ensures Progressed(net.messages[key], After(net, Send(sending)).messages[key])
  {
    var m := net.messages[key];
    assert MessageOk(key, m, net.inFlight, Entry(net.table, key), Done(net.delivered, key));
    hide NumBatches, BatchPacket, MessageOk;
    if key == sending && !m.Batched() { UnbatchedOnce(net, key); }
  }

  lemma {:induction false} RunProgress(trace: seq<Net>, steps: seq<Step>, n: nat, last: nat, key: Key)
    requires Run(trace, steps) && n <= last < |trace| && key in trace[n].messages
    ensures key in trace[last].messages && Progressed(trace[n].messages[key], trace[last].messages[key])
    decreases last - n
  {
    hide NumBatches, After, Invariant;
    if n < last {
      RunProgress(trace, steps, n, last - 1, key);
      RunKeepsInvariant(trace, steps, last - 1);
      StepProgress(trace[last - 1], steps[last - 1], key);
    } else {
      RunKeepsInvariant(trace, steps, n);
      ValidMessage(trace[n], key);
    }
  }

  lemma {:induction false} ValidMessage(net: Net, key: Key)
    requires Invariant(net) && key in net.messages
    ensures net.messages[key].Valid()
  {
  }

  /** A batched message that is cancelled before its last batch was sent is never delivered. */
  lemma {:induction false} CancelledInTimeIsNeverDelivered(trace: seq<Net>, steps: seq<Step>, n: nat, last: nat,
      key: Key)
    requires Run(trace, steps) && n < last < |trace| && steps[n] == Cancel(key)
    requires trace[n].messages[key].Valid() && InTime(trace[n].messages[key])
    ensures !Done(trace[last].delivered, key)
  {
    CancelTakesEffect(trace, steps, n, key);
    RunProgress(trace, steps, n + 1, last, key);
    RunKeepsInvariant(trace, steps, last);
    var net := trace[last];
    assert MessageOk(key, net.messages[key], net.inFlight, Entry(net.table, key), Done(net.delivered, key));
  }

  lemma {:induction false} CancelTakesEffect(trace: seq<Net>, steps: seq<Step>, n: nat, key: Key)
    requires Run(trace, steps) && n < |steps| && steps[n] == Cancel(key)
    ensures key in trace[n].messages && key in trace[n + 1].messages
    ensures trace[n + 1].messages[key] == trace[n].messages[key].(cancelled := true)
  {
    assert Enabled(trace[n], steps[n]) && trace[n + 1] == After(trace[n], steps[n]);
  }

  /**
   When exactly a cancelled message is delivered nevertheless: once everything sent has arrived, it was
   delivered if and only if the cancellation did not come in time.
   */
  lemma {:induction false} CancelStopsDelivery(trace: seq<Net>, steps: seq<Step>, n: nat, last: nat, key: Key)
    requires Run(trace, steps) && n < last < |trace| && steps[n] == Cancel(key)
    requires key in trace[last].messages && trace[last].messages[key].Valid()
    requires SenderFinished(trace[last].messages[key]) && NothingInFlight(trace[last], key)
    ensures trace[n].messages[key].Valid()
    ensures Done(trace[last].delivered, key) <==> !InTime(trace[n].messages[key])
  {
    CancelTakesEffect(trace, steps, n, key);
    RunProgress(trace, steps, n + 1, last, key);
    RunKeepsInvariant(trace, steps, last);
    var net, m := trace[last], trace[n].messages[key];
    DeliveredIffSent(net, key);
    assert MessageOk(key, net.messages[key], net.inFlight, Entry(net.table, key), Done(net.delivered, key));
    hide Invariant, BatchPacket;
    SameContents(key, m, net.messages[key]);
    if InTime(m) { CancelledInTimeIsNeverDelivered(trace, steps, n, last, key); }
  }

  /** Such runs exist: any message that fits into one packet is delivered although it was cancelled once sent. */
  lemma {:induction false} CancelledButDelivered(key: Key, tag: int, data: seq<Byte>, batchSize: nat)
      returns (trace: seq<Net>, steps: seq<Step>)
    requires batchSize > 0 && |data| <= batchSize + META_SIZE
    ensures Run(trace, steps) && |steps| == 4 && steps[2] == Cancel(key)
    ensures trace[4].delivered == [Delivery(key, tag, data)] && Done(trace[4].delivered, key)
  {
    var m := Message(tag, data, batchSize, 0, false, false);
    var p := WholePacket(key, m);
    var posted := Net(map[key := m], multiset{}, map[], []);
    var sent := Net(map[key := m.(sent := 1)], multiset{p}, map[], []);
    var cancelled := sent.(messages := map[key := m.(sent := 1, cancelled := true)]);
    var arrived := Net(cancelled.messages, multiset{}, map[], [Delivery(key, tag, data)]);
    steps := [Post(key, tag, data, batchSize), Send(key), Cancel(key), Receive(p)];
    trace := [Empty, posted, sent, cancelled, arrived];
    assert !m.Batched() && m.Total() == 1 && m.(sent := 1).Total() == 1
      && m.(sent := 1, cancelled := true).Total() == 1;
    hide NumBatches, BatchPacket, Received, Joined;
    assert After(Empty, steps[0]) == posted;
    assert After(posted, steps[1]) == sent;
    assert After(sent, steps[2]) == cancelled;
    assert After(cancelled, steps[3]) == arrived;
    assert arrived.delivered[0].key == key;
  }
}
