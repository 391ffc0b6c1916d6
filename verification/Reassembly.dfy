/** Fragmentation and reassembly are inverse: what a message's packets are, and what the receiver makes of them. */
module Reassembly {
  import opened Prelude
  import opened Packets
  import opened Receivers
  import opened Protocol
  import opened Sessions
  import opened HostileReceiver
  import opened SenderRuns

  /** One sent message: its packets carry the sequences base, base + 1, ...; fragment id 0 means it goes out whole. */
  datatype Message = Message(
    channelId: ChannelId,
    ordered: bool,
    sequenced: bool,
    base: u32,
    fragmentId: u16,
    chunks: seq<Bytes>)

  predicate IsFragmented(m: Message) {
    m.fragmentId != 0
  }

  ghost predicate WellFormed(m: Message) {
    && m.base + |m.chunks| <= U32_MAX
    && (if IsFragmented(m) then 2 <= |m.chunks| <= U16_MAX else |m.chunks| == 1)
  }

  /** The number after the message's last packet. */
  function End(m: Message): nat {
    m.base + |m.chunks|
  }

  function FrameOf(m: Message): Frame {
    Frame(m.channelId, Concat(m.chunks), m.base)
  }

  function ReadyOf(m: Message): Ready {
    Ready(FrameOf(m), m.ordered, End(m))
  }

  /** p is the i-th packet of m, whatever acknowledgement and connection it carries. */
  ghost predicate IsPart(p: Packet, m: Message, i: nat) {
    && i < |m.chunks|
    && p.packetType == Data
    && p.channelId == m.channelId
    && p.ordered == m.ordered
    && p.sequenced == m.sequenced
    && p.sequence == m.base + i
    && p.payload == m.chunks[i]
    && p.fragmentId == m.fragmentId
    && p.fragmentCount == (if IsFragmented(m) then |m.chunks| else 0)
    && p.fragmentIndex == (if IsFragmented(m) then i else 0)
  }

  // ---- What send_many sends

  function MessageOf(s: State, channelId: ChannelId, payload: Bytes, options: SendOptions, plan: Plan): Message {
    Message(channelId, options.ordered, options.sequenced, s.sender.nextSequence,
            if plan.Whole? then 0 else s.sender.nextFragmentId,
            if plan.Whole? then [payload] else ChunksOf(payload, plan.size, plan.count))
  }

  /** The message a successful send_many turns a payload into. */
  function SentMessage(s: State, channelId: ChannelId, payload: Bytes, options: SendOptions, max: Option<nat>): Message
    requires SendPlan(s, |payload|, options, max).Ok?
  {
    MessageOf(Purged(s, options.nowMs), channelId, payload, options, SendPlan(s, |payload|, options, max).value)
  }

  function ChunksOf(payload: Bytes, size: nat, count: nat): (chunks: seq<Bytes>)
    ensures |chunks| == count
  {
    seq(count, i requires 0 <= i < count => Chunk(payload, size, i))
  }

  lemma SlicesJoin(payload: Bytes, a: nat, b: nat)
    requires a <= b <= |payload|
    ensures payload[..a] + payload[a..b] == payload[..b]
  {
  }

  lemma ConcatExtends(chunks: seq<Bytes>, k: nat)
    requires k < |chunks|
    ensures Concat(chunks[..k + 1]) == Concat(chunks[..k]) + chunks[k]
  {
    assert chunks[..k + 1][..k] == chunks[..k];
  }

  lemma ConcatOne(chunk: Bytes)
    ensures Concat([chunk]) == chunk
  {
    assert [chunk][..0] == [];
  }

  /** A chunk is the slice of the payload between two ends. */
  lemma ChunkIsSlice(payload: Bytes, size: nat, index: nat, from: nat, to: nat)
    requires from == index * size && to == Min(from + size, |payload|) && from <= |payload|
    ensures Chunk(payload, size, index) == payload[from..to]
  {
  }

  /** The ends of one chunk: it starts inside the payload, and the next one starts a size further. */
  lemma ChunkEnds(length: nat, size: nat, count: nat, index: nat)
    requires 0 < size && count == DivCeil(length, size) && index < count
    ensures index * size < length && (index + 1) * size == index * size + size
  {
    LastChunkEnds(length, size, count, index);
  }

  /** The first k chunks are the payload up to where the k-th ends. */
  lemma {:induction false} ChunksCover(payload: Bytes, size: nat, count: nat, k: nat)
    requires 0 < size && count == DivCeil(|payload|, size) && k <= count
    ensures Concat(ChunksOf(payload, size, count)[..k]) == payload[..Min(k * size, |payload|)]
  {
    hide DivCeil, Concat, Chunk;
    var chunks := ChunksOf(payload, size, count);
    if k == 0 {
      NoChunks(chunks);
    } else {
      ChunksCover(payload, size, count, k - 1);
      ChunkEnds(|payload|, size, count, k - 1);
      var a := (k - 1) * size;
      var b := Min(a + size, |payload|);
      ChunkIsSlice(payload, size, k - 1, a, b);
      ConcatExtends(chunks, k - 1);
      SlicesJoin(payload, a, b);
    }
  }

  lemma NoChunks(chunks: seq<Bytes>)
    ensures Concat(chunks[..0]) == []
  {
  }

  lemma PacketsAreParts(s: State, channelId: ChannelId, payload: Bytes, options: SendOptions, plan: Plan)
    requires HasRoom(s, PacketCount(plan)) && (plan.Fragmented? ==> s.sender.nextFragmentId > 0)
    ensures var packets := PacketsOf(s, channelId, payload, options, plan);
      var m := MessageOf(s, channelId, payload, options, plan);
      && |packets| == |m.chunks| == PacketCount(plan)
      && forall i :: 0 <= i < |packets| ==> IsPart(packets[i], m, i)
  {
    hide StampOf, Chunk;
    var packets := PacketsOf(s, channelId, payload, options, plan);
    var m := MessageOf(s, channelId, payload, options, plan);
    forall i | 0 <= i < |packets|
      ensures IsPart(packets[i], m, i)
    {
      assert packets[i] == DataPacket(StampIn(s), s.sender.nextSequence, s.sender.nextFragmentId, channelId, payload,
                                      options, plan, i);
    }
  }

  /** The packets of a send are exactly the parts of one message whose chunks concatenate to the payload. */
  lemma SendsAMessage(s: State, channelId: ChannelId, payload: Bytes, options: SendOptions, max: Option<nat>)
    requires CanSend(s, |payload|, options, max) && s.sender.nextFragmentId > 0
    requires SendMany(s, channelId, payload, options, max).1.Ok?
    ensures var packets := SendMany(s, channelId, payload, options, max).1.value;
      var m := SentMessage(s, channelId, payload, options, max);
      && SendPlan(s, |payload|, options, max).Ok?
      && WellFormed(m) && Concat(m.chunks) == payload && |packets| == |m.chunks|
      && forall i :: 0 <= i < |packets| ==> IsPart(packets[i], m, i)
  {
    var plan := SendPlan(s, |payload|, options, max).value;
    var purged := Purged(s, options.nowMs);
    var m := MessageOf(purged, channelId, payload, options, plan);
    PacketsAreParts(purged, channelId, payload, options, plan);
    PlanFits(purged, |payload|, options.reliable, max);
    hide PacketsOf, PlanFor, HasCapacity, IsPart;
    if plan.Whole? {
      ConcatOne(payload);
    } else {
      ChunksCover(payload, plan.size, plan.count, plan.count);
      assert m.chunks[..plan.count] == m.chunks;
    }
  }

  lemma PlanFits(s: State, length: nat, reliable: bool, max: Option<nat>)
    ensures var plan := PlanFor(s, length, reliable, max);
      plan.Ok? && plan.value.Fragmented? ==>
        && plan.value.size > 0 && plan.value.count == DivCeil(length, plan.value.size) && plan.value.count > 1
        && plan.value.count * plan.value.size >= length
  {
    var plan := PlanFor(s, length, reliable, max);
    if plan.Ok? && plan.value.Fragmented? {
      DivCeilCovers(length, plan.value.size);
      LastChunkEnds(length, plan.value.size, plan.value.count, plan.value.count - 1);
    }
  }

  // ---- What the receiver holds of a message

  ghost predicate Arrived(m: Message, received: set<u32>, i: nat) {
    m.base + i in received
  }

  ghost function ArrivedIndexes(m: Message, received: set<u32>): set<u16>
    requires |m.chunks| <= U16_MAX
  {
    set i: u16 | 0 <= i < |m.chunks| && Arrived(m, received, i)
  }

  /** Every packet of the message has arrived. */
  ghost predicate Complete(m: Message, received: set<u32>) {
    forall i :: 0 <= i < |m.chunks| ==> Arrived(m, received, i)
  }

  ghost predicate Untouched(m: Message, received: set<u32>) {
    forall i :: 0 <= i < |m.chunks| ==> !Arrived(m, received, i)
  }

  /** The buffer that holds exactly what has arrived of a message. */
  ghost function PartialBuffer(m: Message, received: set<u32>): FragmentBuffer
    requires WellFormed(m) && IsFragmented(m)
  {
    FragmentBuffer(m.channelId, m.ordered, |m.chunks|,
                   map i | i in ArrivedIndexes(m, received) :: m.chunks[i],
                   map i | i in ArrivedIndexes(m, received) :: m.base + i)
  }

  function MessageKey(m: Message): FragmentKey {
    (m.channelId, m.fragmentId)
  }

  /** The receiver holds what has arrived of an incomplete message, and nothing of one that is complete or untouched. */
  ghost predicate BufferMatches(fragments: map<FragmentKey, FragmentBuffer>, m: Message, received: set<u32>)
    requires WellFormed(m) && IsFragmented(m)
  {
    if Complete(m, received) || Untouched(m, received) then MessageKey(m) !in fragments
    else MessageKey(m) in fragments && fragments[MessageKey(m)] == PartialBuffer(m, received)
  }

  lemma {:induction false} PartsAssemble(m: Message, received: set<u32>, n: u16)
    requires WellFormed(m) && IsFragmented(m) && Complete(m, received) && n <= |m.chunks|
    ensures var b := PartialBuffer(m, received);
      HasIndexes(b.payloads, n) && Assemble(b.payloads, n) == Concat(m.chunks[..n])
  {
    var b := PartialBuffer(m, received);
    forall i: u16 | 0 <= i < n ensures i in b.payloads {
      assert Arrived(m, received, i);
    }
    if n == 0 {
      assert m.chunks[..0] == [];
    } else {
      PartsAssemble(m, received, n - 1);
      assert m.chunks[..n][..n - 1] == m.chunks[..n - 1];
      var last: u16 := n - 1;
      assert last in b.payloads && b.payloads[last] == m.chunks[last];
    }
  }

  /** A complete buffer yields the message's exact bytes, its first sequence, and the number after its last. */
  lemma CompleteBufferYieldsMessage(m: Message, received: set<u32>)
    requires WellFormed(m) && IsFragmented(m) && Complete(m, received)
    ensures var b := PartialBuffer(m, received); IsComplete(b) && Completed(b) == ReadyOf(m)
  {
    var b := PartialBuffer(m, received);
    var n: u16 := |m.chunks|;
    forall i: u16 | 0 <= i < n ensures i in b.payloads && i in b.sequences && b.sequences[i] == m.base + i {
      assert Arrived(m, received, i);
    }
    PartsAssemble(m, received, n);
    assert m.chunks[..n] == m.chunks;
    LeastIsLeast(b.sequences, n);
    GreatestIsGreatest(b.sequences, n);
    var zero: u16, last: u16 := 0, n - 1;
    assert b.sequences[zero] == m.base && b.sequences[last] == m.base + n - 1;
    AllIndexes(b.payloads.Keys, n);
  }

  /** n indexes, all present, are at least n. */
  lemma {:induction false} AllIndexes(s: set<u16>, n: u16)
    requires forall i: u16 :: 0 <= i < n ==> i in s
    ensures |s| >= n
  {
    if n > 0 {
      var last: u16 := n - 1;
      AllIndexes(s - {last}, n - 1);
    }
  }

  /** An incomplete buffer has room left. */
  lemma IncompleteBufferWaits(m: Message, received: set<u32>)
    requires WellFormed(m) && IsFragmented(m) && !Complete(m, received)
    ensures !IsComplete(PartialBuffer(m, received))
  {
    var b := PartialBuffer(m, received);
    var i :| 0 <= i < |m.chunks| && !Arrived(m, received, i);
    var missing: u16 := i;
    assert missing !in b.payloads;
  }

  /** Filling in a fragment that has not arrived yet gives the buffer of what has arrived then. */
  lemma FillingMatches(m: Message, received: set<u32>, p: Packet, i: nat)
    requires WellFormed(m) && IsFragmented(m) && IsPart(p, m, i) && p.sequence !in received
    ensures Filled(PartialBuffer(m, received), p) == PartialBuffer(m, received + {p.sequence})
  {
    var received' := received + {p.sequence};
    forall k: u16
      ensures k in ArrivedIndexes(m, received') <==> k in ArrivedIndexes(m, received) || k == p.fragmentIndex
    {
      assert Arrived(m, received', k) <==> Arrived(m, received, k) || k == i;
    }
    assert Filled(PartialBuffer(m, received), p).payloads == PartialBuffer(m, received').payloads;
    assert Filled(PartialBuffer(m, received), p).sequences == PartialBuffer(m, received').sequences;
  }

  lemma UntouchedBufferIsEmpty(m: Message, received: set<u32>, fragments: map<FragmentKey, FragmentBuffer>, p: Packet,
                               i: nat)
    requires WellFormed(m) && IsFragmented(m) && IsPart(p, m, i) && p.sequence !in received
    requires BufferMatches(fragments, m, received)
    ensures BufferFor(fragments, p) == PartialBuffer(m, received)
  {
    assert !Arrived(m, received, i);
    if Untouched(m, received) {
      var b := PartialBuffer(m, received);
      assert ArrivedIndexes(m, received) == {};
      assert b.payloads == map[] && b.sequences == map[];
    }
  }

  /** A new part of a fragmented message: the message is handed over with its last part and not before. */
  lemma PartReassembles(fragments: map<FragmentKey, FragmentBuffer>, m: Message, received: set<u32>, p: Packet, i: nat)
    requires WellFormed(m) && IsFragmented(m) && IsPart(p, m, i) && p.sequence !in received
    requires BufferMatches(fragments, m, received)
    ensures var (after, outcome) := Reassemble(fragments, p);
      var received' := received + {p.sequence};
      && outcome == Ok(if Complete(m, received') then Some(ReadyOf(m)) else None)
      && BufferMatches(after, m, received')
      && after - {MessageKey(m)} == fragments - {MessageKey(m)}
  {
    var received' := received + {p.sequence};
    UntouchedBufferIsEmpty(m, received, fragments, p, i);
    FillingMatches(m, received, p, i);
    var filled := PartialBuffer(m, received');
    assert Arrived(m, received', i) && !Untouched(m, received');
    assert Filled(BufferFor(fragments, p), p) == filled;
    assert Fits(fragments, p);
    UpdateThenRemove(fragments, MessageKey(m), filled);
    if Complete(m, received') {
      CompleteBufferYieldsMessage(m, received');
    } else {
      IncompleteBufferWaits(m, received');
    }
    hide PartialBuffer, Filled, Completed, BufferFor, ReadyOf, IsComplete, Complete, Untouched;
  }

  /** A whole message is handed over at once and no buffer changes. */
  lemma WholeReassembles(fragments: map<FragmentKey, FragmentBuffer>, m: Message, p: Packet, i: nat)
    requires WellFormed(m) && !IsFragmented(m) && IsPart(p, m, i)
    ensures Reassemble(fragments, p) == (fragments, Ok(Some(ReadyOf(m))))
  {
    assert m.chunks == [m.chunks[0]];
    ConcatOne(m.chunks[0]);
  }

  /** Packets for other buffers leave a message's buffer as it is. */
  lemma OtherPacketsKeepBuffer(fragments: map<FragmentKey, FragmentBuffer>, m: Message, received: set<u32>, p: Packet)
    requires WellFormed(m) && IsFragmented(m) && BufferMatches(fragments, m, received)
    requires p.fragmentCount == 0 || KeyOf(p) != MessageKey(m)
    requires !(m.base <= p.sequence < End(m))
    ensures BufferMatches(Reassemble(fragments, p).0, m, received + {p.sequence})
  {
    OtherNumbersKeepBuffer(fragments, m, received, p.sequence);
  }

  lemma OtherNumbersKeepBuffer(fragments: map<FragmentKey, FragmentBuffer>, m: Message, received: set<u32>, q: u32)
    requires WellFormed(m) && IsFragmented(m) && BufferMatches(fragments, m, received)
    requires !(m.base <= q < End(m))
    ensures BufferMatches(fragments, m, received + {q})
    ensures Complete(m, received + {q}) == Complete(m, received)
    ensures PartialBuffer(m, received + {q}) == PartialBuffer(m, received)
  {
    assert forall i :: 0 <= i < |m.chunks| ==> Arrived(m, received + {q}, i) == Arrived(m, received, i);
    assert ArrivedIndexes(m, received + {q}) == ArrivedIndexes(m, received);
  }

  // ---- Every permutation

  /** Feed packets to reassembly one after the other. */
  function Feed(fragments: map<FragmentKey, FragmentBuffer>, packets: seq<Packet>)
    : (map<FragmentKey, FragmentBuffer>, seq<Result<Option<Ready>, Error>>)
  {
    if packets == [] then (fragments, [])
    else
      var (before, outcomes) := Feed(fragments, packets[..|packets| - 1]);
      var (after, outcome) := Reassemble(before, packets[|packets| - 1]);
      (after, outcomes + [outcome])
  }

  /** packets are parts of m, in any order, none twice. */
  ghost predicate Shuffled(packets: seq<Packet>, m: Message, order: seq<nat>) {
    && |packets| == |order|
    && (forall k :: 0 <= k < |packets| ==> IsPart(packets[k], m, order[k]))
    && (forall j, k :: 0 <= j < k < |order| ==> order[j] != order[k])
  }

  lemma NumbersOfAppend(packets: seq<Packet>, p: Packet)
    ensures NumbersOf(packets + [p]) == NumbersOf(packets) + {p.sequence}
  {
    assert forall x :: x in packets + [p] <==> x in packets || x == p;
    assert p in packets + [p];
    forall q ensures q in NumbersOf(packets + [p]) <==> q in NumbersOf(packets) + {p.sequence} {
      if q in NumbersOf(packets) {
        var x :| x in packets && x.sequence == q;
        assert x in packets + [p];
      }
    }
  }

  lemma {:induction false} FeedMatches(fragments: map<FragmentKey, FragmentBuffer>, m: Message, packets: seq<Packet>,
                                       order: seq<nat>)
    requires WellFormed(m) && IsFragmented(m) && MessageKey(m) !in fragments && Shuffled(packets, m, order)
    ensures var (after, outcomes) := Feed(fragments, packets);
      && BufferMatches(after, m, NumbersOf(packets))
      && after - {MessageKey(m)} == fragments
      && |outcomes| == |packets|
      && forall k :: 0 <= k < |packets| ==>
           outcomes[k] == Ok(if CompleteAfter(m, packets, k + 1) then Some(ReadyOf(m)) else None)
  {
    hide Reassemble, BufferMatches, Complete, ReadyOf;
    if packets == [] {
      FeedNothing(fragments, m);
    } else {
      var n := |packets| - 1;
      var (before, outcomes) := Feed(fragments, packets[..n]);
      FeedMatches(fragments, m, packets[..n], order[..n]);
      FreshPart(packets, m, order);
      assert packets == packets[..n] + [packets[n]];
      NumbersOfAppend(packets[..n], packets[n]);
      PartReassembles(before, m, NumbersOf(packets[..n]), packets[n], order[n]);
      forall k | 0 <= k < |packets|
        ensures Feed(fragments, packets).1[k] == Ok(if CompleteAfter(m, packets, k + 1) then Some(ReadyOf(m)) else None)
      {
        if k < n { assert packets[..n][..k + 1] == packets[..k + 1]; } else { assert packets[..k + 1] == packets; }
      }
    }
  }

  lemma FeedNothing(fragments: map<FragmentKey, FragmentBuffer>, m: Message)
    requires WellFormed(m) && IsFragmented(m) && MessageKey(m) !in fragments
    ensures BufferMatches(fragments, m, NumbersOf([])) && fragments - {MessageKey(m)} == fragments
  {
    assert NumbersOf([]) == {};
    assert Untouched(m, {});
  }

  lemma FreshPart(packets: seq<Packet>, m: Message, order: seq<nat>)
    requires Shuffled(packets, m, order) && packets != []
    ensures packets[|packets| - 1].sequence !in NumbersOf(packets[..|packets| - 1])
  {
    var n := |packets| - 1;
    forall p | p in packets[..n]
      ensures p.sequence != packets[n].sequence
    {
      var k :| 0 <= k < n && packets[k] == p;
      assert order[k] != order[n];
    }
  }

  /** Any message's parts, in any order: nothing until the last, then the message. */
  lemma {:induction false} ShuffledPartsReassemble(
    fragments: map<FragmentKey, FragmentBuffer>, m: Message, arrived: seq<Packet>, order: seq<nat>)
    requires WellFormed(m) && IsFragmented(m) && MessageKey(m) !in fragments
    requires Shuffled(arrived, m, order) && |arrived| == |m.chunks|
    ensures var (after, outcomes) := Feed(fragments, arrived);
      && after == fragments
      && |outcomes| == |arrived|
      && (forall k :: 0 <= k < |arrived| - 1 ==> outcomes[k] == Ok(None))
      && outcomes[|arrived| - 1] == Ok(Some(ReadyOf(m)))
  {
    hide Feed, ReadyOf, Complete, BufferMatches;
    FeedMatches(fragments, m, arrived, order);
    ShuffleCompletes(arrived, m, order);
    assert arrived[..|arrived|] == arrived;
    CompletedLeavesNothing(Feed(fragments, arrived).0, m, NumbersOf(arrived));
  }

  lemma CompletedLeavesNothing(fragments: map<FragmentKey, FragmentBuffer>, m: Message, received: set<u32>)
    requires WellFormed(m) && IsFragmented(m) && BufferMatches(fragments, m, received) && Complete(m, received)
    ensures fragments - {MessageKey(m)} == fragments
  {
  }

  /** Reassembly undoes fragmentation under every permutation: nothing until the last fragment,
      then one message with the exact payload, and every other buffer untouched. */
  lemma {:induction false} ReassemblyUndoesFragmentation(
    s: State, channelId: ChannelId, payload: Bytes, options: SendOptions, max: Option<nat>, packets: seq<Packet>,
    fragments: map<FragmentKey, FragmentBuffer>, arrived: seq<Packet>, order: seq<nat>)
    requires CanSend(s, |payload|, options, max) && s.sender.nextFragmentId > 0
    requires SendMany(s, channelId, payload, options, max).1 == Ok(packets) && |packets| > 1
    requires |arrived| == |packets| == |order|
    requires forall k :: 0 <= k < |order| ==> order[k] < |packets| && arrived[k] == packets[order[k]]
    requires forall j, k :: 0 <= j < k < |order| ==> order[j] != order[k]
    requires (channelId, s.sender.nextFragmentId) !in fragments
    ensures var (after, outcomes) := Feed(fragments, arrived);
      var n := |arrived|;
      && after == fragments
      && |outcomes| == n
      && (forall k :: 0 <= k < n - 1 ==> outcomes[k] == Ok(None))
      && outcomes[n - 1] == Ok(Some(Ready(Frame(channelId, payload, s.sender.nextSequence), options.ordered,
                                          s.sender.nextSequence + n)))
  {
    hide SendMany, CanSend, SentMessage, SendPlan, Feed, IsPart;
    SendsAMessage(s, channelId, payload, options, max);
    SentMessageIs(s, channelId, payload, options, max);
    ShuffledPartsReassemble(fragments, SentMessage(s, channelId, payload, options, max), arrived, order);
  }

  lemma {:induction false} SentMessageIs(s: State, channelId: ChannelId, payload: Bytes, options: SendOptions,
                                         max: Option<nat>)
    requires SendPlan(s, |payload|, options, max).Ok?
    ensures var m := SentMessage(s, channelId, payload, options, max);
      && m.base == s.sender.nextSequence && m.ordered == options.ordered && m.sequenced == options.sequenced
      && m.channelId == channelId
      && m.fragmentId == (if SendPlan(s, |payload|, options, max).value.Whole? then 0 else s.sender.nextFragmentId)
      && (SendPlan(s, |payload|, options, max).value.Whole? ==> |m.chunks| == 1)
  {
  }

  ghost predicate CompleteAfter(m: Message, packets: seq<Packet>, n: nat)
    requires n <= |packets|
  {
    Complete(m, NumbersOf(packets[..n]))
  }

  /** A shuffle of all parts completes the message exactly with its last packet. */
  lemma ShuffleCompletes(packets: seq<Packet>, m: Message, order: seq<nat>)
    requires WellFormed(m) && Shuffled(packets, m, order) && |packets| == |m.chunks|
    ensures Complete(m, NumbersOf(packets))
    ensures forall n: nat :: n < |packets| ==> !CompleteAfter(m, packets, n)
  {
    forall i | 0 <= i < |m.chunks|
      ensures Arrived(m, NumbersOf(packets), i)
    {
      InjectionIsOnto(order, |order|, i);
      var k :| 0 <= k < |order| && order[k] == i;
      assert packets[k] in packets;
    }
    forall n: nat | n < |packets|
      ensures !CompleteAfter(m, packets, n)
    {
      var i := order[n];
      forall p | p in packets[..n]
        ensures p.sequence != m.base + i
      {
        var j :| 0 <= j < n && packets[j] == p;
        assert order[j] != order[n];
      }
      assert !Arrived(m, NumbersOf(packets[..n]), i);
    }
  }

  lemma InjectionIsOnto(order: seq<nat>, n: nat, i: nat)
    requires |order| == n && i < n
    requires forall k :: 0 <= k < n ==> order[k] < n
    requires forall j, k :: 0 <= j < k < n ==> order[j] != order[k]
    ensures exists k :: 0 <= k < n && order[k] == i
  {
    var image := set k | 0 <= k < n :: order[k];
    ImageSize(order, n);
    if i !in image { AtMostCount(image + {i}, n); }
  }

  lemma {:induction false} ImageSize(order: seq<nat>, n: nat)
    requires n <= |order|
    requires forall j, k :: 0 <= j < k < n ==> order[j] != order[k]
    ensures |set k | 0 <= k < n :: order[k]| == n
  {
    if n > 0 {
      ImageSize(order, n - 1);
      var before, image := set k | 0 <= k < n - 1 :: order[k], set k | 0 <= k < n :: order[k];
      forall x ensures x in image <==> x in before || x == order[n - 1] {
        if x in image {
          var k :| 0 <= k < n && order[k] == x;
          assert k < n - 1 ==> order[k] in before;
        }
      }
      assert image == before + {order[n - 1]} && order[n - 1] !in before;
    }
  }
}
