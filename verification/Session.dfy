/** The session object: fields updated in place, each method proved to do exactly what its function in Protocol says. */
module Sessions {
  import opened Prelude
  import opened Packets
  import opened AckWindow
  import opened Receivers
  import opened Protocol

  lemma {:induction false} LeastIsLeast(sequences: map<u16, u32>, n: u16)
    requires n > 0 && HasIndexes(sequences, n)
    ensures exists i: u16 :: 0 <= i < n && sequences[i] == LeastSequence(sequences, n)
    ensures forall i: u16 :: 0 <= i < n ==> LeastSequence(sequences, n) <= sequences[i]
  {
    if n == 1 {
      var zero: u16 := 0;
      assert sequences[zero] == LeastSequence(sequences, n);
    } else {
      LeastIsLeast(sequences, n - 1);
      var last: u16 := n - 1;
      assert sequences[last] >= LeastSequence(sequences, n);
    }
  }

  lemma {:induction false} GreatestIsGreatest(sequences: map<u16, u32>, n: u16)
    requires n > 0 && HasIndexes(sequences, n)
    ensures exists i: u16 :: 0 <= i < n && sequences[i] == GreatestSequence(sequences, n)
    ensures forall i: u16 :: 0 <= i < n ==> sequences[i] <= GreatestSequence(sequences, n)
  {
    if n == 1 {
      var zero: u16 := 0;
      assert sequences[zero] == GreatestSequence(sequences, n);
    } else {
      GreatestIsGreatest(sequences, n - 1);
      var last: u16 := n - 1;
      assert sequences[last] <= GreatestSequence(sequences, n);
    }
  }

  method Extremes(sequences: seq<u32>) returns (least: u32, greatest: u32)
    requires sequences != []
    ensures least in sequences && forall i :: 0 <= i < |sequences| ==> least <= sequences[i]
    ensures greatest in sequences && forall i :: 0 <= i < |sequences| ==> sequences[i] <= greatest
  {
    least, greatest := sequences[0], sequences[0];
    for k := 1 to |sequences|
      invariant least in sequences && forall i :: 0 <= i < k ==> least <= sequences[i]
      invariant greatest in sequences && forall i :: 0 <= i < k ==> sequences[i] <= greatest
    {
      if sequences[k] < least { least := sequences[k]; }
      if sequences[k] > greatest { greatest := sequences[k]; }
    }
  }

  /** The loop of Reassemble over the indexes of a buffer. */
  method JoinFragments(buffer: FragmentBuffer) returns (r: Option<Ready>)
    requires buffer.fragmentCount > 0
    ensures r == if AllPresent(buffer) then Some(Completed(buffer)) else None
  {
    var payload: Bytes := [];
    var sequences: seq<u32> := [];
    for index := 0 to buffer.fragmentCount
      invariant HasIndexes(buffer.payloads, index) && payload == Assemble(buffer.payloads, index)
      invariant HasIndexes(buffer.sequences, index) && |sequences| == index
      invariant forall i: u16 :: 0 <= i < index ==> sequences[i] == buffer.sequences[i]
    {
      if index !in buffer.payloads { return None; }
      if index !in buffer.sequences { return None; }
      payload := payload + buffer.payloads[index];
      sequences := sequences + [buffer.sequences[index]];
    }
    var least, greatest := Extremes(sequences);
    LeastIsLeast(buffer.sequences, buffer.fragmentCount);
    GreatestIsGreatest(buffer.sequences, buffer.fragmentCount);
    assert forall i :: 0 <= i < |sequences| ==> sequences[i] == buffer.sequences[i];
    var next: nat := greatest as int + 1;
    r := Some(Ready(Frame(buffer.channelId, payload, least), buffer.ordered, next));
  }

  /** The bytes of one fragment. */
  method FragmentBytes(payload: Bytes, size: nat, count: nat, index: nat) returns (chunk: Bytes)
    requires 0 < size && count == DivCeil(|payload|, size) && index < count
    ensures chunk == Chunk(payload, size, index)
  {
    LastChunkEnds(|payload|, size, count, index);
    var from := index * size;
    var to := if from + size <= |payload| then from + size else |payload|;
    chunk := payload[from..to];
  }

  class Session {
    var connectionId: u32
    var resendDelayMs: u64
    var maxPendingReliablePackets: Option<nat>
    var nextSequence: u32
    var nextFragmentId: u16
    var connected: bool
    var lastReceivedAtMs: Option<u64>
    var highestReceivedSequence: Option<u32>
    var receivedSequences: set<u32>
    var pendingReliable: map<u32, Pending>
    var orderedNextSequenceByChannel: map<ChannelId, nat>
    var orderedBuffers: map<ChannelId, ReorderBuffer>
    var fragmentBuffers: map<FragmentKey, FragmentBuffer>
    var highestDeliveredSequencedByChannel: map<ChannelId, u32>
    var reliablePacketsExpired: nat

    ghost function SenderView(): Sender
      reads this
    {
      Sender(nextSequence, nextFragmentId, pendingReliable, reliablePacketsExpired)
    }

    ghost function ReceiverView(): Receiver
      reads this
    {
      Receiver(highestReceivedSequence, receivedSequences, orderedNextSequenceByChannel, orderedBuffers,
               fragmentBuffers, highestDeliveredSequencedByChannel)
    }

    ghost function View(): State
      reads this
    {
      State(connectionId, resendDelayMs, maxPendingReliablePackets, connected, lastReceivedAtMs,
            SenderView(), ReceiverView())
    }

    ghost function StampNow(): Stamp
      reads this
    {
      StampOf(connectionId, highestReceivedSequence, receivedSequences)
    }

    constructor (options: SessionOptions)
      ensures View() == NewState(options)
    {
      connectionId := options.connectionId;
      resendDelayMs := options.resendDelayMs;
      maxPendingReliablePackets := options.maxPending;
      nextSequence := options.initialSequence;
      nextFragmentId := 1;
      connected := false;
      lastReceivedAtMs := None;
      highestReceivedSequence := None;
      receivedSequences := {};
      pendingReliable := map[];
      orderedNextSequenceByChannel := map[];
      orderedBuffers := map[];
      fragmentBuffers := map[];
      highestDeliveredSequencedByChannel := map[];
      reliablePacketsExpired := 0;
    }

    method ResetPeerState()
      modifies this
      ensures View() == Protocol.ResetPeerState(old(View()))
    {
      ghost var target := Protocol.ResetPeerState(View());
      assert target.sender == SenderView().(pending := map[]) && target.receiver == FreshReceiver;
      connected := false;
      lastReceivedAtMs := None;
      highestReceivedSequence := None;
      receivedSequences := {};
      pendingReliable := map[];
      orderedNextSequenceByChannel := map[];
      orderedBuffers := map[];
      fragmentBuffers := map[];
      highestDeliveredSequencedByChannel := map[];
      assert SenderView() == target.sender;
      assert ReceiverView() == target.receiver;
    }

    method AssumeConnected(nowMs: u64)
      modifies this
      ensures View() == Protocol.AssumeConnected(old(View()), nowMs)
    {
      connected := true;
      lastReceivedAtMs := Some(nowMs);
    }

    // ---- Packets and the pending table

    method AckStateNow() returns (ack: u32, ackMask: u32)
      ensures (ack, ackMask) == AckState(highestReceivedSequence, receivedSequences)
    {
      ack := if highestReceivedSequence.Some? then highestReceivedSequence.value else 0;
      var mask: nat := 0;
      for bit := 0 to 32
        invariant mask == AckMask(receivedSequences, ack, bit)
      {
        if ack > bit && ack - bit - 1 in receivedSequences {
          LowNumberHasNoHighBit(mask, bit);
          mask := SetBit(mask, bit);
        }
      }
      Pow2Is32();
      ackMask := mask;
    }

    method CreatePacketWithFragments(packetType: PacketType, channelId: ChannelId, payload: Bytes,
                                     reliable: bool, ordered: bool, sequenced: bool,
                                     fragmentId: u16, fragmentIndex: u16, fragmentCount: u16)
      returns (packet: Packet)
      requires HasRoom(View(), 1)
      modifies this`nextSequence
      ensures nextSequence == old(nextSequence) + 1 && View() == Advanced(old(View()), 1)
      ensures packet == PacketAt(StampNow(), old(nextSequence), packetType, channelId, payload,
                                 reliable, ordered, sequenced, fragmentId, fragmentIndex, fragmentCount)
    {
      var sequence := nextSequence;
      nextSequence := nextSequence + 1;
      var ack, ackMask := AckStateNow();
      packet := Packet(packetType, connectionId, sequence, ack, ackMask, channelId, reliable, ordered, sequenced,
                       fragmentId, fragmentIndex, fragmentCount, payload);
    }

    method CreatePacket(packetType: PacketType, channelId: ChannelId, payload: Bytes,
                        reliable: bool, ordered: bool, sequenced: bool)
      returns (packet: Packet)
      requires HasRoom(View(), 1)
      modifies this`nextSequence
      ensures nextSequence == old(nextSequence) + 1 && View() == Advanced(old(View()), 1)
      ensures packet == PacketAt(StampNow(), old(nextSequence), packetType, channelId, payload,
                                 reliable, ordered, sequenced, 0, 0, 0)
    {
      packet := CreatePacketWithFragments(packetType, channelId, payload, reliable, ordered, sequenced, 0, 0, 0);
    }

    method TrackReliable(nowMs: u64, expireAfterMs: Option<u64>, packet: Packet)
      modifies this`pendingReliable
      ensures pendingReliable == old(pendingReliable)[packet.sequence := Entry(packet, nowMs, expireAfterMs)]
    {
      var expiresAtMs := None;
      if expireAfterMs.Some? { expiresAtMs := Some(SaturatingAdd(nowMs, expireAfterMs.value)); }
      pendingReliable := pendingReliable[packet.sequence := Pending(packet, nowMs, expiresAtMs)];
    }

    method EnsureReliableCapacity(packetCount: nat) returns (ok: bool)
      ensures ok <==> HasCapacity(View(), packetCount)
    {
      if packetCount == 0 { return true; }
      if maxPendingReliablePackets.Some? && |pendingReliable| + packetCount > maxPendingReliablePackets.value {
        return false;
      }
      return true;
    }

    method PurgeExpiredReliable(nowMs: u64)
      modifies this`pendingReliable, this`reliablePacketsExpired
      ensures SenderView() == Purged(old(View()), nowMs).sender
      ensures View() == Purged(old(View()), nowMs)
    {
      var before := |pendingReliable|;
      RetainedArePurged(View(), nowMs);
      pendingReliable := Retained(pendingReliable, nowMs);
      reliablePacketsExpired := reliablePacketsExpired + (before - |pendingReliable|);
    }

    method ApplyAcknowledgements(packet: Packet)
      modifies this`pendingReliable
      ensures pendingReliable == old(pendingReliable) - Acknowledged(packet.ack, packet.ackMask)
    {
      ghost var was := pendingReliable;
      pendingReliable := pendingReliable - {packet.ack};
      for bit := 0 to 32
        invariant forall k :: k in pendingReliable <==>
          k in was && (Covers(packet.ack, packet.ackMask, k) ==> k < packet.ack && packet.ack - k > bit)
        invariant forall k :: k in pendingReliable ==> pendingReliable[k] == was[k]
      {
        if Bit(packet.ackMask, bit) && packet.ack > bit {
          pendingReliable := pendingReliable - {packet.ack - bit - 1};
        }
      }
      assert pendingReliable == was - Acknowledged(packet.ack, packet.ackMask);
    }

    method RememberReceived(sequence: u32)
      modifies this`receivedSequences, this`highestReceivedSequence
      ensures ReceiverView() == Remember(old(ReceiverView()), sequence)
      ensures View() == old(View()).(receiver := Remember(old(View()).receiver, sequence))
    {
      receivedSequences := receivedSequences + {sequence};
      if highestReceivedSequence.None? || sequence > highestReceivedSequence.value {
        highestReceivedSequence := Some(sequence);
      }
    }

    method AllocateFragmentId() returns (id: u16)
      modifies this`nextFragmentId
      ensures id == old(nextFragmentId)
      ensures nextFragmentId == NextFragmentId(id)
    {
      id := nextFragmentId;
      nextFragmentId := if nextFragmentId < U16_MAX then nextFragmentId + 1 else U16_MAX;
      // The original resets a zero id to 1 here; a saturating increment is never zero.
      assert nextFragmentId != 0;
    }

    // ---- Handshake

    method CreateConnect(nowMs: u64, payload: Bytes) returns (r: Result<Packet, Error>)
      requires HasCapacity(View(), 1) ==> HasRoom(View(), 1)
      modifies this
      ensures (View(), r) == Protocol.CreateConnect(old(View()), nowMs, payload)
    {
      hide StampOf, Entry;
      var ok := EnsureReliableCapacity(1);
      if !ok { return Err(QueueFull); }
      var packet := CreatePacket(Connect, CONTROL, payload, true, true, false);
      ghost var created := View();
      TrackReliable(nowMs, None, packet);
      assert View() == Tracked(created, packet, nowMs, None);
      r := Ok(packet);
    }

    method AcceptConnect(packet: Packet, nowMs: u64, payload: Bytes) returns (r: Result<Packet, Error>)
      requires WillAccept(View(), packet) ==> HasRoom(View(), 1)
      modifies this
      ensures (View(), r) == Protocol.AcceptConnect(old(View()), packet, nowMs, payload)
    {
      hide StampOf, Entry, Remember;
      if packet.connectionId != connectionId { return Err(WrongConnection); }
      if packet.packetType != Connect { return Err(NotAConnectPacket); }
      var wasConnected := connected;
      if !wasConnected {
        var ok := EnsureReliableCapacity(1);
        if !ok { return Err(QueueFull); }
      }
      RememberReceived(packet.sequence);
      lastReceivedAtMs := Some(nowMs);
      connected := true;
      var response := CreatePacket(Accept, CONTROL, payload, true, true, false);
      ghost var sent := View();
      if !wasConnected {
        TrackReliable(nowMs, None, response);
        assert View() == Tracked(sent, response, nowMs, None);
      }
      r := Ok(response);
    }

    // ---- Sending

    method SendMany(channelId: ChannelId, payload: Bytes, options: SendOptions, maxFragmentBytes: Option<nat>)
      returns (r: Result<seq<Packet>, Error>)
      requires CanSend(View(), |payload|, options, maxFragmentBytes)
      modifies this`nextSequence, this`nextFragmentId, this`pendingReliable, this`reliablePacketsExpired
      ensures View() == Protocol.SendMany(old(View()), channelId, payload, options, maxFragmentBytes).0
      ensures r == Protocol.SendMany(old(View()), channelId, payload, options, maxFragmentBytes).1
    {
      if !connected { return Err(NotConnected); }
      PurgeExpiredReliable(options.nowMs);
      r := SendPurged(channelId, payload, options, maxFragmentBytes);
    }

    /** The rest of SendMany, once the session is known to be connected and expired packets are gone. */
    method SendPurged(channelId: ChannelId, payload: Bytes, options: SendOptions, maxFragmentBytes: Option<nat>)
      returns (r: Result<seq<Packet>, Error>)
      requires var plan := PlanFor(View(), |payload|, options.reliable, maxFragmentBytes);
        plan.Ok? ==> HasRoom(View(), PacketCount(plan.value))
      modifies this`nextSequence, this`nextFragmentId, this`pendingReliable
      ensures var plan := PlanFor(old(View()), |payload|, options.reliable, maxFragmentBytes);
        && (plan.Err? ==> View() == old(View()) && r == Err(plan.error))
        && (plan.Ok? ==> View() == Sent(old(View()), channelId, payload, options, plan.value)
                         && r == Ok(PacketsOf(old(View()), channelId, payload, options, plan.value)))
    {
      if maxFragmentBytes.Some? {
        if maxFragmentBytes.value == 0 { return Err(ZeroFragmentBytes); }
        if |payload| > maxFragmentBytes.value {
          var fragmentCount := DivCeil(|payload|, maxFragmentBytes.value);
          if fragmentCount > U16_MAX { return Err(TooManyFragments); }
          var ok := EnsureReliableCapacity(if options.reliable then fragmentCount else 0);
          if !ok { return Err(QueueFull); }
          var packets := SendFragmented(channelId, payload, options, maxFragmentBytes.value, fragmentCount);
          return Ok(packets);
        }
      }
      var ok := EnsureReliableCapacity(if options.reliable then 1 else 0);
      if !ok { return Err(QueueFull); }
      var packet := SendWhole(channelId, payload, options);
      r := Ok([packet]);
    }

    method SendFragmented(channelId: ChannelId, payload: Bytes, options: SendOptions, size: nat, fragmentCount: u16)
      returns (packets: seq<Packet>)
      requires 0 < size < |payload| && fragmentCount == DivCeil(|payload|, size)
      requires HasRoom(View(), fragmentCount)
      modifies this`nextSequence, this`nextFragmentId, this`pendingReliable
      ensures View() == Sent(old(View()), channelId, payload, options, Fragmented(fragmentCount, size))
      ensures packets == PacketsOf(old(View()), channelId, payload, options, Fragmented(fragmentCount, size))
    {
      hide StampOf, Entries, DataPackets, DivCeil, Chunk;
      var fragmentId := AllocateFragmentId();
      packets := SendFragments(channelId, payload, options, size, fragmentCount, fragmentId);
    }

    method SendWhole(channelId: ChannelId, payload: Bytes, options: SendOptions) returns (packet: Packet)
      requires HasRoom(View(), 1)
      modifies this`nextSequence, this`pendingReliable
      ensures View() == Sent(old(View()), channelId, payload, options, Whole)
      ensures [packet] == PacketsOf(old(View()), channelId, payload, options, Whole)
    {
      hide StampOf, Run, InRun, Entry;
      ghost var first := nextSequence;
      packet := CreatePacket(Data, channelId, payload, options.reliable, options.ordered, options.sequenced);
      if packet.reliable {
        EntriesOfOne(packet, first, options);
        TrackReliable(options.nowMs, options.expireAfterMs, packet);
      }
      ghost var sent := Sent(old(View()), channelId, payload, options, Whole);
      assert [packet] == PacketsOf(old(View()), channelId, payload, options, Whole);
      assert SenderView() == sent.sender;
    }

    /** The loop of SendMany over the fragments of a payload. */
    method SendFragments(channelId: ChannelId, payload: Bytes, options: SendOptions, size: nat, fragmentCount: u16,
                         fragmentId: u16)
      returns (packets: seq<Packet>)
      requires 0 < size < |payload| && fragmentCount == DivCeil(|payload|, size)
      requires nextSequence + fragmentCount <= U32_MAX
      modifies this`nextSequence, this`pendingReliable
      ensures nextSequence == old(nextSequence) + fragmentCount
      ensures packets == DataPackets(StampNow(), old(nextSequence), fragmentId, channelId, payload, options,
                                     Fragmented(fragmentCount, size))
      ensures pendingReliable == if options.reliable
                                 then old(pendingReliable) + Entries(packets, old(nextSequence), options)
                                 else old(pendingReliable)
    {
      hide StampOf, InRun, Chunk, DivCeil, Entry;
      ghost var first := nextSequence;
      ghost var all := DataPackets(StampNow(), first, fragmentId, channelId, payload, options,
                                   Fragmented(fragmentCount, size));
      packets := [];
      for index := 0 to fragmentCount
        invariant nextSequence == first + index
        invariant packets == all[..index]
        invariant pendingReliable
          == if options.reliable then old(pendingReliable) + Entries(all[..index], first, options)
                                     else old(pendingReliable)
      {
        var chunk := FragmentBytes(payload, size, fragmentCount, index);
        var packet := CreatePacketWithFragments(Data, channelId, chunk, options.reliable, options.ordered,
                                                options.sequenced, fragmentId, index, fragmentCount);
        assert packet == all[index];
        if packet.reliable {
          TrackReliable(options.nowMs, options.expireAfterMs, packet);
          EntriesGrow(old(pendingReliable), all, index, first, options);
        }
        packets := packets + [packet];
      }
      assert all[..fragmentCount] == all;
    }

    method Send(channelId: ChannelId, payload: Bytes, options: SendOptions) returns (r: Result<Packet, Error>)
      requires CanSend(View(), |payload|, options, None)
      modifies this
      ensures View() == Protocol.SendMany(old(View()), channelId, payload, options, None).0
      ensures var sent := Protocol.SendMany(old(View()), channelId, payload, options, None).1;
        if sent.Ok? then |sent.value| == 1 && r == Ok(sent.value[0]) else r == Err(sent.error)
    {
      var sent := SendMany(channelId, payload, options, None);
      if sent.Err? { return Err(sent.error); }
      r := Ok(sent.value[0]);
    }

    // ---- Receiving

    method Receive(packet: Packet, nowMs: u64) returns (r: Result<ReceiveResult, Error>)
      requires CanReceive(View(), packet)
      modifies this
      ensures View() == Protocol.Receive(old(View()), packet, nowMs).0
      ensures r == Protocol.Receive(old(View()), packet, nowMs).1
    {
      hide Acknowledged, Intake, Answer, StampOf, Heard;
      if packet.connectionId != connectionId { return Err(WrongConnection); }
      ghost var before := View();
      r := ReceiveOwn(packet, nowMs);
      ReceivedFields(before, packet, nowMs);
    }

    /** Receive, for a packet of this connection. */
    method ReceiveOwn(packet: Packet, nowMs: u64) returns (r: Result<ReceiveResult, Error>)
      requires packet.packetType == Ping ==> HasRoom(View(), 1)
      modifies this`pendingReliable, this`lastReceivedAtMs, this`connected, this`nextSequence,
               this`highestReceivedSequence, this`receivedSequences, this`orderedNextSequenceByChannel,
               this`orderedBuffers, this`fragmentBuffers, this`highestDeliveredSequencedByChannel
      ensures pendingReliable == old(pendingReliable) - Acknowledged(packet.ack, packet.ackMask)
      ensures lastReceivedAtMs == Some(nowMs)
      ensures connected == (packet.packetType == Accept || (packet.packetType != Disconnect && old(connected)))
      ensures nextSequence == old(nextSequence) + if packet.packetType == Ping then 1 else 0
      ensures ReceiverView() == Intake(old(ReceiverView()), packet).0
      ensures r == Answer(packet, StampNow(), old(nextSequence), Intake(old(ReceiverView()), packet).1)
    {
      hide Acknowledged, StampOf, Receivers.ReceiveData, Remember, Covers, Intake, Answer, FramesOf;
      ApplyAcknowledgements(packet);
      lastReceivedAtMs := Some(nowMs);
      var expected: nat := if highestReceivedSequence.Some? then highestReceivedSequence.value + 1 else packet.sequence;
      ghost var receiver, sequence := ReceiverView(), nextSequence;
      IntakeByType(receiver, packet);
      match packet.packetType {
        case Connect =>
          r := Ok(Nothing);
          AnswerWithoutReply(packet, StampNow(), sequence, Ok([]));
        case Data =>
          var delivered := ReceiveData(packet, expected);
          AnswerWithoutReply(packet, StampNow(), sequence, Receivers.ReceiveData(receiver, packet).1);
          r := if delivered.Ok? then Ok(Nothing.(delivered := delivered.value)) else Err(delivered.error);
        case _ =>
          var result := ReceiveControl(packet);
          r := Ok(result);
      }
    }

    /** The branches of Receive for the other packet types. */
    method ReceiveControl(packet: Packet) returns (r: ReceiveResult)
      requires packet.packetType != Connect && packet.packetType != Data
      requires packet.packetType == Ping ==> HasRoom(View(), 1)
      modifies this`receivedSequences, this`highestReceivedSequence, this`connected, this`nextSequence
      ensures ReceiverView() == Remember(old(ReceiverView()), packet.sequence)
      ensures connected == (packet.packetType == Accept || (packet.packetType != Disconnect && old(connected)))
      ensures nextSequence == old(nextSequence) + if packet.packetType == Ping then 1 else 0
      ensures Ok(r) == Answer(packet, StampNow(), old(nextSequence), Ok([]))
    {
      RememberReceived(packet.sequence);
      r := Nothing;
      match packet.packetType {
        case Accept =>
          connected := true;
        case Ping =>
          var pong := CreatePacket(Pong, CONTROL, packet.payload, false, false, false);
          r := Nothing.(reply := Some(pong));
        case Pong =>
          r := Nothing.(pong := true, pongPayload := packet.payload);
        case Disconnect =>
          connected := false;
          r := Nothing.(disconnected := true, disconnectReason := packet.payload);
        case Ack =>
      }
    }

    /** The data branch of Receive. */
    method ReceiveData(packet: Packet, expected: nat) returns (r: Result<seq<Frame>, Error>)
      requires expected == Expected(ReceiverView(), packet)
      modifies this`highestReceivedSequence, this`receivedSequences, this`orderedNextSequenceByChannel,
               this`orderedBuffers, this`fragmentBuffers, this`highestDeliveredSequencedByChannel
      ensures var (receiver, releases) := Receivers.ReceiveData(old(ReceiverView()), packet);
        && ReceiverView() == receiver
        && r == (if releases.Ok? then Ok(FramesOf(releases.value)) else Err(releases.error))
    {
      assert FramesOf([]) == [];
      var duplicate := packet.sequence in receivedSequences;
      RememberReceived(packet.sequence);
      if duplicate { return Ok([]); }
      var reassembled := Reassemble(packet);
      if reassembled.Err? { return Err(reassembled.error); }
      if reassembled.value.None? { return Ok([]); }
      var ready := reassembled.value.value;
      var frame := ready.frame;
      if packet.sequenced && !ready.ordered {
        if frame.channelId !in highestDeliveredSequencedByChannel {
          highestDeliveredSequencedByChannel := highestDeliveredSequencedByChannel[frame.channelId := frame.sequence];
        }
        if frame.sequence < highestDeliveredSequencedByChannel[frame.channelId] { return Ok([]); }
        highestDeliveredSequencedByChannel := highestDeliveredSequencedByChannel[frame.channelId := frame.sequence];
      }
      if ready.ordered {
        var delivered := DeliverOrdered(ready, expected);
        r := Ok(delivered);
      } else {
        assert forall release: Release :: FramesOf([release]) == [release.frame];
        r := Ok([frame]);
      }
    }

    method Reassemble(packet: Packet) returns (r: Result<Option<Ready>, Error>)
      modifies this`fragmentBuffers
      ensures fragmentBuffers == Receivers.Reassemble(old(fragmentBuffers), packet).0
      ensures r == Receivers.Reassemble(old(fragmentBuffers), packet).1
    {
      if packet.fragmentCount == 0 {
        return Ok(Some(Ready(Frame(packet.channelId, packet.payload, packet.sequence),
                             packet.ordered, packet.sequence + 1)));
      }
      if packet.fragmentId == 0 { return Err(ZeroFragmentId); }
      if packet.fragmentIndex >= packet.fragmentCount { return Err(FragmentIndexOutOfRange); }
      var key := (packet.channelId, packet.fragmentId);
      var buffer := if key in fragmentBuffers then fragmentBuffers[key]
                    else FragmentBuffer(packet.channelId, packet.ordered, packet.fragmentCount, map[], map[]);
      if buffer.fragmentCount != packet.fragmentCount || buffer.ordered != packet.ordered {
        return Err(FragmentMetadataChanged);
      }
      var ready := FillFragment(packet, key, buffer);
      r := Ok(ready);
    }

    /** Reassemble, once the fragment is known to fit its buffer. */
    method FillFragment(packet: Packet, key: FragmentKey, found: FragmentBuffer) returns (r: Option<Ready>)
      requires packet.fragmentCount > 0 && Fits(fragmentBuffers, packet)
      requires key == KeyOf(packet) && found == BufferFor(fragmentBuffers, packet)
      modifies this`fragmentBuffers
      ensures fragmentBuffers == Fill(old(fragmentBuffers), packet).0
      ensures r == Fill(old(fragmentBuffers), packet).1
    {
      hide HasIndexes, Completed;
      ghost var before := fragmentBuffers;
      var buffer := found.(payloads := found.payloads[packet.fragmentIndex := packet.payload],
                           sequences := found.sequences[packet.fragmentIndex := packet.sequence]);
      assert buffer == Filled(found, packet);
      fragmentBuffers := fragmentBuffers[key := buffer];
      if |buffer.payloads| < packet.fragmentCount { return None; }
      r := JoinFragments(buffer);
      if r.Some? {
        fragmentBuffers := fragmentBuffers - {key};
        assert fragmentBuffers == before - {key};
      }
    }

    method DeliverOrdered(ready: Ready, expected: nat) returns (delivered: seq<Frame>)
      modifies this`orderedNextSequenceByChannel, this`orderedBuffers
      ensures var (receiver, releases) := Receivers.DeliverOrdered(old(ReceiverView()), ready, expected);
        && ReceiverView() == receiver
        && delivered == FramesOf(releases)
    {
      hide Drain;
      var channelId := ready.frame.channelId;
      var sequence := ready.frame.sequence;
      var next: nat;
      if channelId in orderedNextSequenceByChannel {
        next := orderedNextSequenceByChannel[channelId];
      } else {
        next := Min(expected, sequence);
        orderedNextSequenceByChannel := orderedNextSequenceByChannel[channelId := next];
      }
      ghost var cursors := old(orderedNextSequenceByChannel);
      assert orderedNextSequenceByChannel == cursors[channelId := next];
      assert FramesOf([]) == [];
      if sequence < next { return []; }
      if sequence > next {
        var buffer := if channelId in orderedBuffers then orderedBuffers[channelId] else map[];
        orderedBuffers := orderedBuffers[channelId := buffer[sequence := PendingOrdered(ready.frame, ready.next)]];
        return [];
      }
      orderedNextSequenceByChannel := orderedNextSequenceByChannel[channelId := ready.next];
      var drained := DrainOrdered(channelId);
      delivered := [ready.frame] + drained;
      ghost var releases := Receivers.DeliverOrdered(old(ReceiverView()), ready, expected).1;
      assert delivered == FramesOf(releases);
      assert orderedNextSequenceByChannel == cursors[channelId := orderedNextSequenceByChannel[channelId]];
    }

    method DrainOrdered(channelId: ChannelId) returns (delivered: seq<Frame>)
      requires channelId in orderedNextSequenceByChannel
      modifies this`orderedNextSequenceByChannel, this`orderedBuffers
      ensures var (rest, cursor, releases) :=
          Drain(BufferOf(old(ReceiverView()), channelId), old(orderedNextSequenceByChannel)[channelId]);
        && orderedNextSequenceByChannel == old(orderedNextSequenceByChannel)[channelId := cursor]
        && orderedBuffers
             == (if channelId in old(orderedBuffers) then old(orderedBuffers)[channelId := rest]
                 else old(orderedBuffers))
        && delivered == FramesOf(releases)
    {
      ghost var target := Drain(BufferOf(ReceiverView(), channelId), orderedNextSequenceByChannel[channelId]);
      ghost var done: seq<Release> := [];
      delivered := [];
      assert done + target.2 == target.2;
      while channelId in orderedBuffers && orderedNextSequenceByChannel[channelId] in orderedBuffers[channelId]
        invariant channelId in orderedNextSequenceByChannel
        invariant channelId in orderedBuffers <==> channelId in old(orderedBuffers)
        invariant orderedNextSequenceByChannel
          == old(orderedNextSequenceByChannel)[channelId := orderedNextSequenceByChannel[channelId]]
        invariant orderedBuffers == if channelId in old(orderedBuffers)
                                    then old(orderedBuffers)[channelId := BufferOf(ReceiverView(), channelId)]
                                    else old(orderedBuffers)
        invariant var now := Drain(BufferOf(ReceiverView(), channelId), orderedNextSequenceByChannel[channelId]);
          target.0 == now.0 && target.1 == now.1 && target.2 == done + now.2
        invariant delivered == FramesOf(done)
        decreases |BufferOf(ReceiverView(), channelId)|
      {
        var next := orderedNextSequenceByChannel[channelId];
        var pending := orderedBuffers[channelId][next];
        orderedBuffers := orderedBuffers[channelId := orderedBuffers[channelId] - {next}];
        delivered := delivered + [pending.frame];
        ghost var released := Release(InOrder, pending.frame, pending.next);
        ghost var after := Drain(orderedBuffers[channelId], pending.next).2;
        assert done + ([released] + after) == (done + [released]) + after;
        done := done + [released];
        orderedNextSequenceByChannel := orderedNextSequenceByChannel[channelId := pending.next];
      }
      assert done + [] == done;
    }

    // ---- Control packets, timeout and resends

    method CreateAck() returns (packet: Packet)
      requires HasRoom(View(), 1)
      modifies this
      ensures (View(), packet) == CreateControl(old(View()), Ack, [])
    {
      packet := CreatePacket(Ack, CONTROL, [], false, false, false);
    }

    method CreatePing(payload: Bytes) returns (packet: Packet)
      requires HasRoom(View(), 1)
      modifies this
      ensures (View(), packet) == CreateControl(old(View()), Ping, payload)
    {
      packet := CreatePacket(Ping, CONTROL, payload, false, false, false);
    }

    method CreateDisconnect(reason: Bytes) returns (packet: Packet)
      requires HasRoom(View(), 1)
      modifies this
      ensures (View(), packet) == Protocol.CreateDisconnect(old(View()), reason)
    {
      connected := false;
      packet := CreatePacket(Disconnect, CONTROL, reason, false, false, false);
    }

    method CheckTimeout(nowMs: u64, timeoutMs: u64) returns (timedOut: bool)
      modifies this
      ensures View() == Protocol.CheckTimeout(old(View()), nowMs, timeoutMs)
      ensures timedOut <==> TimedOut(old(View()), nowMs, timeoutMs)
      ensures timedOut <==> old(connected) && !connected
    {
      if !connected { return false; }
      if lastReceivedAtMs.None? { return false; }
      if SaturatingSub(nowMs, lastReceivedAtMs.value) <= timeoutMs { return false; }
      connected := false;
      return true;
    }

    /** In increasing sequence order, exactly the unexpired packets that have waited the resend delay, unchanged. */
    method DueResends(nowMs: u64) returns (due: seq<Packet>)
      requires KeyedBySequence(View())
      modifies this`pendingReliable, this`reliablePacketsExpired
      ensures View() == Resent(old(View()), nowMs)
      ensures Increasing(due)
      ensures forall p :: p in due <==>
        p.sequence in DueKeys(old(View()), nowMs) && p == old(pendingReliable)[p.sequence].packet
    {
      PurgeExpiredReliable(nowMs);
      var touched;
      ghost var purged := pendingReliable;
      touched, due := TouchDue(pendingReliable, resendDelayMs, nowMs);
      pendingReliable := touched;
      forall p
        ensures p in due <==> DueIn(purged, resendDelayMs, nowMs, p)
      {
        if DueIn(purged, resendDelayMs, nowMs, p) { assert purged[p.sequence].packet in due; }
      }
    }
  }

  /** p is a due packet of the table, as it was first sent. */
  ghost predicate DueIn(pending: map<u32, Pending>, resendDelayMs: u64, nowMs: u64, p: Packet) {
    && p.sequence in pending
    && IsDue(pending[p.sequence], resendDelayMs, nowMs)
    && p == pending[p.sequence].packet
  }

  ghost predicate Increasing(packets: seq<Packet>) {
    forall i, j :: 0 <= i < j < |packets| ==> packets[i].sequence < packets[j].sequence
  }

  /** due lists, in order, exactly the due packets whose keys are in done; keys not done are greater. */
  ghost predicate Listed(pending: map<u32, Pending>, resendDelayMs: u64, nowMs: u64, left: set<u32>, due: seq<Packet>) {
    && Increasing(due)
    && (forall i :: 0 <= i < |due| ==> DueIn(pending, resendDelayMs, nowMs, due[i]) && due[i].sequence !in left)
    && (forall k :: k in pending && k !in left && IsDue(pending[k], resendDelayMs, nowMs) ==> pending[k].packet in due)
    && (forall i, k :: 0 <= i < |due| && k in left ==> due[i].sequence < k)
  }

  lemma ListLeast(pending: map<u32, Pending>, resendDelayMs: u64, nowMs: u64, left: set<u32>, due: seq<Packet>, k: u32)
    requires Listed(pending, resendDelayMs, nowMs, left, due)
    requires k in left && k in pending && pending[k].packet.sequence == k
    requires forall j :: j in left ==> k <= j
    ensures Listed(pending, resendDelayMs, nowMs, left - {k},
                   if IsDue(pending[k], resendDelayMs, nowMs) then due + [pending[k].packet] else due)
  {
    if IsDue(pending[k], resendDelayMs, nowMs) {
      var longer := due + [pending[k].packet];
      assert DueIn(pending, resendDelayMs, nowMs, pending[k].packet);
      assert longer[|due|] == pending[k].packet;
      assert forall p :: p in due ==> p in longer;
    }
  }

  /** The first key of a table iterated in key order. */
  method LeastKey(keys: set<u32>) returns (k: u32)
    requires keys != {}
    ensures k in keys && forall j :: j in keys ==> k <= j
  {
    ghost var least := Least(keys);
    k :| k in keys && forall j :: j in keys ==> k <= j;
  }

  /** The loop of DueResends over the pending table, in key order. */
  method TouchDue(pending: map<u32, Pending>, resendDelayMs: u64, nowMs: u64)
    returns (touched: map<u32, Pending>, due: seq<Packet>)
    requires forall k :: k in pending ==> pending[k].packet.sequence == k
    ensures touched == Touched(pending, resendDelayMs, nowMs)
    ensures Listed(pending, resendDelayMs, nowMs, {}, due)
  {
    touched, due := pending, [];
    var left := pending.Keys;
    while left != {}
      invariant left <= pending.Keys == touched.Keys
      invariant forall k :: k in pending ==>
        touched[k] == if k in left then pending[k] else Touch(pending[k], resendDelayMs, nowMs)
      invariant Listed(pending, resendDelayMs, nowMs, left, due)
      decreases |left|
    {
      var k := LeastKey(left);
      ListLeast(pending, resendDelayMs, nowMs, left, due, k);
      left := left - {k};
      if SaturatingSub(nowMs, touched[k].lastSentAtMs) >= resendDelayMs {
        touched := touched[k := touched[k].(lastSentAtMs := nowMs)];
        due := due + [pending[k].packet];
      }
    }
  }

  function Retained(pending: map<u32, Pending>, nowMs: u64): map<u32, Pending> {
    map k | k in pending && (pending[k].expiresAtMs.None? || nowMs <= pending[k].expiresAtMs.value) :: pending[k]
  }

  lemma RetainedArePurged(s: State, nowMs: u64)
    ensures Retained(s.sender.pending, nowMs) == s.sender.pending - ExpiredKeys(s, nowMs)
    ensures |s.sender.pending| == |Retained(s.sender.pending, nowMs)| + |ExpiredKeys(s, nowMs)|
  {
    KeysRemoved(s.sender.pending, ExpiredKeys(s, nowMs));
  }

  /** Each pending entry sits under its own packet's sequence. */
  ghost predicate KeyedBySequence(s: State) {
    forall k :: k in s.sender.pending ==> s.sender.pending[k].packet.sequence == k
  }

  lemma ReceivedFields(s: State, p: Packet, nowMs: u64)
    requires CanReceive(s, p) && p.connectionId == s.connectionId
    ensures Protocol.Receive(s, p, nowMs).0 == State(
      s.connectionId, s.resendDelayMs, s.maxPending,
      p.packetType == Accept || (p.packetType != Disconnect && s.connected),
      Some(nowMs),
      Sender(s.sender.nextSequence + if p.packetType == Ping then 1 else 0, s.sender.nextFragmentId,
             s.sender.pending - Acknowledged(p.ack, p.ackMask), s.sender.expired),
      Intake(s.receiver, p).0)
    ensures Protocol.Receive(s, p, nowMs).1
      == Answer(p, StampIn(Heard(s, p, nowMs)), s.sender.nextSequence, Intake(s.receiver, p).1)
  {
  }

  lemma IntakeByType(r: Receiver, p: Packet)
    ensures p.packetType == Connect ==> Intake(r, p) == (r, Ok([]))
    ensures p.packetType == Data ==> Intake(r, p) == Receivers.ReceiveData(r, p)
    ensures p.packetType != Connect && p.packetType != Data ==> Intake(r, p) == (Remember(r, p.sequence), Ok([]))
  {
  }

  /** A connect or data packet is answered by what it delivers, whatever the session would stamp on a reply. */
  lemma AnswerWithoutReply(p: Packet, stamp: Stamp, sequence: u32, intake: Result<seq<Release>, Error>)
    requires p.packetType == Connect || p.packetType == Data
    ensures Answer(p, stamp, sequence, intake)
      == if intake.Err? then Err(intake.error) else Ok(Nothing.(delivered := FramesOf(intake.value)))
    ensures FramesOf([]) == []
  {
  }

  lemma KeysRemoved<T>(m: map<u32, T>, gone: set<u32>)
    requires gone <= m.Keys
    ensures |m| == |m - gone| + |gone|
  {
    assert m.Keys == (m - gone).Keys + gone;
    assert |m.Keys| == |m| && |(m - gone).Keys| == |m - gone|;
  }

  lemma EntriesOfOne(packet: Packet, first: u32, options: SendOptions)
    requires packet.sequence == first < U32_MAX
    ensures Entries([packet], first, options) == map[first := Entry(packet, options.nowMs, options.expireAfterMs)]
  {
    assert InRun(first, 1, first);
  }

  lemma EntriesGrow(pending: map<u32, Pending>, all: seq<Packet>, index: nat, first: u32, options: SendOptions)
    requires index < |all| && first + |all| <= U32_MAX
    requires all[index].sequence == first + index
    ensures pending + Entries(all[..index + 1], first, options)
         == (pending + Entries(all[..index], first, options))
              [all[index].sequence := Entry(all[index], options.nowMs, options.expireAfterMs)]
  {
    var after := Entries(all[..index + 1], first, options);
    var before := Entries(all[..index], first, options);
    var q := all[index].sequence;
    assert InRun(first, index + 1, q);
    forall k: u32
      ensures k in after <==> k in before || k == q
    {
      assert InRun(first, index + 1, k) <==> InRun(first, index, k) || k == q;
    }
  }

  /** Every fragment but the last is full, and together they cover the payload. */
  lemma LastChunkEnds(length: nat, size: nat, count: nat, index: nat)
    requires 0 < size && count == DivCeil(length, size) && index < count
    ensures index * size < length
    ensures index + 1 < count ==> (index + 1) * size < length
    ensures index + 1 == count ==> (index + 1) * size >= length
  {
    var x := length + size - 1;
    assert x == count * size + x % size;
    assert (index + 1) * size <= count * size by { Monotone(index + 1, count, size); }
    if index + 1 < count { assert (index + 2) * size <= count * size by { Monotone(index + 2, count, size); } }
    assert (index + 1) * size == index * size + size;
    assert (index + 2) * size == (index + 1) * size + size;
  }

  lemma Monotone(a: nat, b: nat, c: nat)
    requires a <= b
    ensures a * c <= b * c
  {
    assert b * c == a * c + (b - a) * c;
  }
}
