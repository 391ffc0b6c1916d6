/** Ordered delivery refines a simple specification: whatever the arrival history,
    a channel has released exactly the longest prefix of messages whose packets have all arrived. */
module OrderedRefinement {
  import opened Prelude
  import opened Packets
  import opened Receivers
  import opened HostileReceiver
  import opened DeliveryOrder
  import opened Reassembly

  // ---- The specification

  /** msgs were sent in order on one channel under contiguous sequences from first, any of them fragmented. */
  ghost predicate InSequence(msgs: seq<Message>, channel: ChannelId, first: nat) {
    && (forall k :: 0 <= k < |msgs| ==> InPlace(msgs, channel, first, k))
    && (forall j, k :: 0 <= j < k < |msgs| ==> Distinguished(msgs, j, k))
  }

  ghost predicate InPlace(msgs: seq<Message>, channel: ChannelId, first: nat, k: nat)
    requires k < |msgs|
  {
    && WellFormed(msgs[k]) && msgs[k].ordered && msgs[k].channelId == channel
    && msgs[k].base == StartOf(msgs, first, k)
  }

  /** Two fragmented messages are told apart by their channel and fragment id, the key of their buffers. */
  ghost predicate Distinguished(msgs: seq<Message>, j: nat, k: nat)
    requires j < |msgs| && k < |msgs|
  {
    IsFragmented(msgs[j]) && IsFragmented(msgs[k]) ==> MessageKey(msgs[j]) != MessageKey(msgs[k])
  }

  function StartOf(msgs: seq<Message>, first: nat, k: nat): nat
    requires k <= |msgs|
  {
    if k == 0 then first else End(msgs[k - 1])
  }

  /** The number of leading messages that have arrived completely, counted from k. */
  ghost function Prefix(msgs: seq<Message>, received: set<u32>, k: nat): (n: nat)
    requires k <= |msgs|
    ensures k <= n <= |msgs|
    decreases |msgs| - k
  {
    if k < |msgs| && Complete(msgs[k], received) then Prefix(msgs, received, k + 1) else k
  }

  /** The first n messages, released in order. */
  function ReleasesOfFirst(msgs: seq<Message>, n: nat): seq<Release>
    requires n <= |msgs|
  {
    if n == 0 then [] else ReleasesOfFirst(msgs, n - 1) + [ReleaseOf(msgs[n - 1])]
  }

  function ReleaseOf(m: Message): Release {
    Release(InOrder, FrameOf(m), End(m))
  }

  // ---- What the receiver holds

  function HeldEntry(m: Message): PendingOrdered {
    PendingOrdered(FrameOf(m), End(m))
  }

  /** The reorder buffer holding every complete message from k on. */
  ghost function Holding(msgs: seq<Message>, received: set<u32>, k: nat): ReorderBuffer
    requires k <= |msgs|
    decreases |msgs| - k
  {
    if k == |msgs| then map[]
    else
      var later := Holding(msgs, received, k + 1);
      if Complete(msgs[k], received) then later[msgs[k].base := HeldEntry(msgs[k])] else later
  }

  ghost predicate Buffered(fragments: map<FragmentKey, FragmentBuffer>, m: Message, received: set<u32>) {
    WellFormed(m) && IsFragmented(m) ==> BufferMatches(fragments, m, received)
  }

  ghost predicate BuffersMatch(fragments: map<FragmentKey, FragmentBuffer>, msgs: seq<Message>, received: set<u32>) {
    forall k :: 0 <= k < |msgs| ==> Buffered(fragments, msgs[k], received)
  }

  ghost predicate AtChannel(r: Receiver, channel: ChannelId, cursor: nat, buffer: ReorderBuffer) {
    channel in r.cursors && r.cursors[channel] == cursor && BufferOf(r, channel) == buffer
  }

  /** The receiver's channel state is determined by what has arrived. */
  ghost predicate Tracks(r: Receiver, msgs: seq<Message>, channel: ChannelId, first: nat)
  {
    var n := Prefix(msgs, r.received, 0);
    && AtChannel(r, channel, StartOf(msgs, first, n), Holding(msgs, r.received, n))
    && BuffersMatch(r.fragments, msgs, r.received)
  }

  // ---- Messages do not overlap

  lemma {:induction false} StartsIncrease(msgs: seq<Message>, channel: ChannelId, first: nat, j: nat, k: nat)
    requires InSequence(msgs, channel, first) && j < k <= |msgs|
    ensures End(msgs[j]) <= StartOf(msgs, first, k)
    ensures first <= msgs[j].base == StartOf(msgs, first, j) < End(msgs[j])
    ensures WellFormed(msgs[j]) && msgs[j].ordered && msgs[j].channelId == channel
    ensures k < |msgs| ==> msgs[k].base == StartOf(msgs, first, k)
    decreases k
  {
    assert InPlace(msgs, channel, first, j);
    if k < |msgs| { assert InPlace(msgs, channel, first, k); }
    if j < k - 1 {
      assert InPlace(msgs, channel, first, k - 1);
      StartsIncrease(msgs, channel, first, j, k - 1);
    } else if j > 0 {
      StartsIncrease(msgs, channel, first, j - 1, j);
    }
  }

  lemma {:induction false} HeldKeysAreLater(msgs: seq<Message>, channel: ChannelId, first: nat, received: set<u32>,
                                            k: nat, q: u32)
    requires InSequence(msgs, channel, first) && k <= |msgs| && q in Holding(msgs, received, k)
    ensures StartOf(msgs, first, k) <= q < StartOf(msgs, first, |msgs|)
    decreases |msgs| - k
  {
    StartsIncrease(msgs, channel, first, k, |msgs|);
    if q in Holding(msgs, received, k + 1) { HeldKeysAreLater(msgs, channel, first, received, k + 1, q); }
  }

  /** An incomplete message is not held, nor anything after the last one. */
  lemma NextIsNotHeld(msgs: seq<Message>, channel: ChannelId, first: nat, received: set<u32>, k: nat)
    requires InSequence(msgs, channel, first) && k <= |msgs|
    requires k < |msgs| ==> !Complete(msgs[k], received)
    ensures StartOf(msgs, first, k) !in Holding(msgs, received, k)
  {
    var q := StartOf(msgs, first, k);
    if k < |msgs| {
      StartsIncrease(msgs, channel, first, k, |msgs|);
      if q in Holding(msgs, received, k + 1) { HeldKeysAreLater(msgs, channel, first, received, k + 1, q); }
    }
  }

  /** Draining from a message on releases the complete messages up to the first gap. */
  lemma {:induction false} DrainReleasesPrefix(msgs: seq<Message>, channel: ChannelId, first: nat, received: set<u32>,
                                               k: nat)
    requires InSequence(msgs, channel, first) && k <= |msgs|
    ensures var n := Prefix(msgs, received, k);
      var (rest, cursor, releases) := Drain(Holding(msgs, received, k), StartOf(msgs, first, k));
      && rest == Holding(msgs, received, n)
      && cursor == StartOf(msgs, first, n)
      && ReleasesOfFirst(msgs, k) + releases == ReleasesOfFirst(msgs, n)
    decreases |msgs| - k
  {
    if k < |msgs| && Complete(msgs[k], received) {
      var base := msgs[k].base;
      var later := Holding(msgs, received, k + 1);
      assert StartOf(msgs, first, k + 1) == End(msgs[k]);
      StartsIncrease(msgs, channel, first, k, |msgs|);
      if base in later { HeldKeysAreLater(msgs, channel, first, received, k + 1, base); }
      assert later[base := HeldEntry(msgs[k])] - {base} == later;
      DrainReleasesPrefix(msgs, channel, first, received, k + 1);
      var rest := Drain(later, End(msgs[k])).2;
      assert ReleasesOfFirst(msgs, k) + ([ReleaseOf(msgs[k])] + rest) == ReleasesOfFirst(msgs, k + 1) + rest;
    } else {
      NextIsNotHeld(msgs, channel, first, received, k);
    }
  }

  // ---- How arrivals change what is complete

  lemma {:induction false} SameCompleteness(msgs: seq<Message>, a: set<u32>, b: set<u32>, k: nat)
    requires k <= |msgs|
    requires forall j :: k <= j < |msgs| ==> Complete(msgs[j], a) == Complete(msgs[j], b)
    ensures Prefix(msgs, a, k) == Prefix(msgs, b, k)
    ensures Holding(msgs, a, k) == Holding(msgs, b, k)
    decreases |msgs| - k
  {
    if k < |msgs| { SameCompleteness(msgs, a, b, k + 1); }
  }

  /** Only a number of the message itself can complete it. */
  lemma OutsideNumberKeepsComplete(m: Message, received: set<u32>, q: u32)
    requires !(m.base <= q < End(m))
    ensures Complete(m, received + {q}) == Complete(m, received)
  {
    assert forall i :: 0 <= i < |m.chunks| ==> Arrived(m, received + {q}, i) == Arrived(m, received, i);
  }

  lemma PartIsOutsideOthers(msgs: seq<Message>, channel: ChannelId, first: nat, k: nat, j: nat, q: u32)
    requires InSequence(msgs, channel, first) && k < |msgs| && j < |msgs| && j != k
    requires msgs[k].base <= q < End(msgs[k])
    ensures !(msgs[j].base <= q < End(msgs[j]))
  {
    if j < k { StartsIncrease(msgs, channel, first, j, k); } else { StartsIncrease(msgs, channel, first, k, j); }
  }

  /** When a later message completes, it joins the held ones. */
  lemma {:induction false} CompletingJoinsHeld(msgs: seq<Message>, channel: ChannelId, first: nat, received: set<u32>,
                                               q: u32, k: nat, from: nat)
    requires InSequence(msgs, channel, first) && from <= k < |msgs|
    requires msgs[k].base <= q < End(msgs[k])
    requires !Complete(msgs[k], received) && Complete(msgs[k], received + {q})
    ensures Holding(msgs, received + {q}, from) == Holding(msgs, received, from)[msgs[k].base := HeldEntry(msgs[k])]
    decreases |msgs| - from
  {
    var received' := received + {q};
    if from < k {
      CompletingJoinsHeld(msgs, channel, first, received, q, k, from + 1);
      PartIsOutsideOthers(msgs, channel, first, k, from, q);
      OutsideNumberKeepsComplete(msgs[from], received, q);
      StartsIncrease(msgs, channel, first, from, k);
    } else {
      LaterUnchanged(msgs, channel, first, received, q, k);
    }
  }

  lemma LaterUnchanged(msgs: seq<Message>, channel: ChannelId, first: nat, received: set<u32>, q: u32, k: nat)
    requires InSequence(msgs, channel, first) && k < |msgs|
    requires msgs[k].base <= q < End(msgs[k])
    ensures Prefix(msgs, received + {q}, k + 1) == Prefix(msgs, received, k + 1)
    ensures Holding(msgs, received + {q}, k + 1) == Holding(msgs, received, k + 1)
  {
    forall j | k + 1 <= j < |msgs|
      ensures Complete(msgs[j], received + {q}) == Complete(msgs[j], received)
    {
      PartIsOutsideOthers(msgs, channel, first, k, j, q);
      OutsideNumberKeepsComplete(msgs[j], received, q);
    }
    SameCompleteness(msgs, received + {q}, received, k + 1);
  }

  /** Below the first incomplete message everything is complete, and that one is not. */
  lemma {:induction false} PrefixIsLongest(msgs: seq<Message>, received: set<u32>, from: nat, k: nat)
    requires from <= |msgs|
    ensures from <= k < Prefix(msgs, received, from) ==> Complete(msgs[k], received)
    ensures k == Prefix(msgs, received, from) && k < |msgs| ==> !Complete(msgs[k], received)
    decreases |msgs| - from
  {
    if from < |msgs| && Complete(msgs[from], received) {
      PrefixIsLongest(msgs, received, from + 1, k);
    }
  }

  /** The prefix only depends on the messages before its end. */
  lemma {:induction false} PrefixSurvives(msgs: seq<Message>, channel: ChannelId, first: nat, received: set<u32>,
                                          q: u32, k: nat, from: nat)
    requires InSequence(msgs, channel, first) && from <= k < |msgs|
    requires msgs[k].base <= q < End(msgs[k]) && !Complete(msgs[k], received)
    ensures Prefix(msgs, received, from) <= k
    ensures Prefix(msgs, received, from) < k ==> Prefix(msgs, received + {q}, from) == Prefix(msgs, received, from)
    ensures Prefix(msgs, received, from) == k ==> Prefix(msgs, received + {q}, from) == Prefix(msgs, received + {q}, k)
    decreases |msgs| - from
  {
    if from < k {
      PartIsOutsideOthers(msgs, channel, first, k, from, q);
      OutsideNumberKeepsComplete(msgs[from], received, q);
      PrefixSurvives(msgs, channel, first, received, q, k, from + 1);
    }
  }

  // ---- One packet of the channel's messages

  /** Delivery in order, in terms of one channel's cursor and buffer. */
  lemma DeliveryOnChannel(r: Receiver, ready: Ready, expected: nat, cursor: nat, buffer: ReorderBuffer)
    requires AtChannel(r, ready.frame.channelId, cursor, buffer) && ready.frame.sequence >= cursor
    ensures var (r', releases) := DeliverOrdered(r, ready, expected);
      var channel := ready.frame.channelId;
      && r'.fragments == r.fragments && r'.received == r.received && r'.highest == r.highest
      && if ready.frame.sequence > cursor then
           && releases == []
           && AtChannel(r', channel, cursor, buffer[ready.frame.sequence := PendingOrdered(ready.frame, ready.next)])
         else
           var (rest, after, drained) := Drain(buffer, ready.next);
           && releases == [Release(InOrder, ready.frame, ready.next)] + drained
           && AtChannel(r', channel, after, rest)
  {
  }

  /** What a message that just completed adds to the releases: itself and what it unblocks, or nothing yet. */
  lemma CompletionReleases(msgs: seq<Message>, channel: ChannelId, first: nat, received: set<u32>, q: u32, k: nat)
    requires InSequence(msgs, channel, first) && k < |msgs|
    requires msgs[k].base <= q < End(msgs[k])
    requires !Complete(msgs[k], received) && Complete(msgs[k], received + {q})
    requires Prefix(msgs, received, 0) == k
    ensures var n' := Prefix(msgs, received + {q}, 0);
      var (rest, cursor, drained) := Drain(Holding(msgs, received, k), End(msgs[k]));
      && cursor == StartOf(msgs, first, n') && rest == Holding(msgs, received + {q}, n')
      && ReleasesOfFirst(msgs, k) + ([ReleaseOf(msgs[k])] + drained) == ReleasesOfFirst(msgs, n')
  {
    hide Drain, Complete, InSequence;
    PrefixSurvives(msgs, channel, first, received, q, k, 0);
    LaterUnchanged(msgs, channel, first, received, q, k);
    DrainReleasesPrefix(msgs, channel, first, received + {q}, k + 1);
    assert Holding(msgs, received, k) == Holding(msgs, received + {q}, k + 1);
    var drained := Drain(Holding(msgs, received, k), End(msgs[k])).2;
    JoinAfter(ReleasesOfFirst(msgs, k), ReleaseOf(msgs[k]), drained);
  }

  lemma JoinAfter<T>(a: seq<T>, x: T, b: seq<T>)
    ensures a + ([x] + b) == (a + [x]) + b
  {
  }

  /** What delivering a message that just completed does to the channel. */
  lemma CompletionIsTracked(r: Receiver, msgs: seq<Message>, channel: ChannelId, first: nat, received: set<u32>,
                            q: u32, k: nat, expected: nat)
    requires InSequence(msgs, channel, first) && k < |msgs|
    requires msgs[k].base <= q < End(msgs[k])
    requires !Complete(msgs[k], received) && Complete(msgs[k], received + {q})
    requires var n := Prefix(msgs, received, 0);
      AtChannel(r, channel, StartOf(msgs, first, n), Holding(msgs, received, n))
    ensures var (r', releases) := DeliverOrdered(r, ReadyOf(msgs[k]), expected);
      var n := Prefix(msgs, received, 0);
      var n' := Prefix(msgs, received + {q}, 0);
      && AtChannel(r', channel, StartOf(msgs, first, n'), Holding(msgs, received + {q}, n'))
      && ReleasesOfFirst(msgs, n) + releases == ReleasesOfFirst(msgs, n')
      && r'.fragments == r.fragments && r'.received == r.received
  {
    var n := Prefix(msgs, received, 0);
    PrefixSurvives(msgs, channel, first, received, q, k, 0);
    StartsIncrease(msgs, channel, first, k, k + 1);
    if n < k {
      StartsIncrease(msgs, channel, first, n, k);
      CompletingJoinsHeld(msgs, channel, first, received, q, k, n);
      assert ReleasesOfFirst(msgs, n) + [] == ReleasesOfFirst(msgs, n);
    } else {
      CompletionReleases(msgs, channel, first, received, q, k);
    }
    hide Drain, DeliverOrdered, Holding, Prefix, ReleasesOfFirst, Complete, InSequence, AtChannel;
    DeliveryOnChannel(r, ReadyOf(msgs[k]), expected, StartOf(msgs, first, n), Holding(msgs, received, n));
  }

  /** Messages with separate ranges of numbers, and separate buffers. */
  ghost predicate Apart(msgs: seq<Message>) {
    && (forall k :: 0 <= k < |msgs| ==> WellFormed(msgs[k]))
    && (forall j, k :: 0 <= j < k < |msgs| ==> Precedes(msgs, j, k) && Distinguished(msgs, j, k))
  }

  ghost predicate Precedes(msgs: seq<Message>, j: nat, k: nat)
    requires j < |msgs| && k < |msgs|
  {
    End(msgs[j]) <= msgs[k].base
  }

  lemma InSequenceIsApart(msgs: seq<Message>, channel: ChannelId, first: nat)
    requires InSequence(msgs, channel, first)
    ensures Apart(msgs)
  {
    forall k | 0 <= k < |msgs| ensures WellFormed(msgs[k]) {
      assert InPlace(msgs, channel, first, k);
    }
    forall j, k | 0 <= j < k < |msgs| ensures Precedes(msgs, j, k) {
      StartsIncrease(msgs, channel, first, j, k);
    }
  }

  lemma OnlyOneMessageOwns(msgs: seq<Message>, k: nat, j: nat, q: u32)
    requires Apart(msgs) && j < |msgs| && k < |msgs| && j != k && msgs[k].base <= q < End(msgs[k])
    ensures !(msgs[j].base <= q < End(msgs[j]))
  {
    assert if j < k then Precedes(msgs, j, k) else Precedes(msgs, k, j);
  }

  /** A part of one message leaves the buffers of the others as they should be. */
  lemma PartKeepsOtherBuffers(fragments: map<FragmentKey, FragmentBuffer>, msgs: seq<Message>,
                              received: set<u32>, p: Packet, k: nat, i: nat)
    requires Apart(msgs) && k < |msgs| && IsPart(p, msgs[k], i)
    requires BuffersMatch(fragments, msgs, received)
    requires Buffered(Reassemble(fragments, p).0, msgs[k], received + {p.sequence})
    ensures BuffersMatch(Reassemble(fragments, p).0, msgs, received + {p.sequence})
  {
    hide Reassemble, BufferMatches;
    forall j | 0 <= j < |msgs|
      ensures Buffered(Reassemble(fragments, p).0, msgs[j], received + {p.sequence})
    {
      assert Buffered(fragments, msgs[j], received);
      if j != k && WellFormed(msgs[j]) && IsFragmented(msgs[j]) {
        OnlyOneMessageOwns(msgs, k, j, p.sequence);
        assert if j < k then Distinguished(msgs, j, k) else Distinguished(msgs, k, j);
        OtherPacketsKeepBuffer(fragments, msgs[j], received, p);
      }
    }
  }

  /** What reassembly makes of a new part: the whole message with its last part, nothing before. */
  lemma PartArrives(fragments: map<FragmentKey, FragmentBuffer>, msgs: seq<Message>, received: set<u32>, p: Packet,
                    k: nat, i: nat)
    requires Apart(msgs) && k < |msgs| && IsPart(p, msgs[k], i) && p.sequence !in received
    requires BuffersMatch(fragments, msgs, received)
    ensures var (after, outcome) := Reassemble(fragments, p);
      && outcome == Ok(if Complete(msgs[k], received + {p.sequence}) then Some(ReadyOf(msgs[k])) else None)
      && BuffersMatch(after, msgs, received + {p.sequence})
      && after - {MessageKey(msgs[k])} == fragments - {MessageKey(msgs[k])}
      && (!IsFragmented(msgs[k]) ==> after == fragments)
    ensures !Complete(msgs[k], received)
    ensures msgs[k].base <= p.sequence < End(msgs[k])
  {
    assert !Arrived(msgs[k], received, i);
    assert Buffered(fragments, msgs[k], received);
    if IsFragmented(msgs[k]) {
      PartReassembles(fragments, msgs[k], received, p, i);
    } else {
      WholeReassembles(fragments, msgs[k], p, i);
      assert Arrived(msgs[k], received + {p.sequence}, 0);
    }
    hide Reassemble, BufferMatches, Complete, ReadyOf, Apart;
    PartKeepsOtherBuffers(fragments, msgs, received, p, k, i);
  }

  lemma NewPart(fragments: map<FragmentKey, FragmentBuffer>, msgs: seq<Message>, channel: ChannelId, first: nat,
                received: set<u32>, p: Packet, k: nat, i: nat)
    requires InSequence(msgs, channel, first) && k < |msgs| && IsPart(p, msgs[k], i) && p.sequence !in received
    requires BuffersMatch(fragments, msgs, received)
    ensures var (after, outcome) := Reassemble(fragments, p);
      && outcome == Ok(if Complete(msgs[k], received + {p.sequence}) then Some(ReadyOf(msgs[k])) else None)
      && BuffersMatch(after, msgs, received + {p.sequence})
    ensures !Complete(msgs[k], received)
    ensures msgs[k].base <= p.sequence < End(msgs[k]) && msgs[k].ordered && msgs[k].channelId == channel
  {
    InSequenceIsApart(msgs, channel, first);
    StartsIncrease(msgs, channel, first, k, k + 1);
    PartArrives(fragments, msgs, received, p, k, i);
    hide Reassemble, BuffersMatch, Complete, ReadyOf, Apart, InSequence;
  }

  /** A packet of the channel's messages releases exactly the messages by which the prefix grows. */
  lemma OwnPacketIsTracked(r: Receiver, msgs: seq<Message>, channel: ChannelId, first: nat, p: Packet, k: nat, i: nat)
    requires InSequence(msgs, channel, first) && Tracks(r, msgs, channel, first)
    requires k < |msgs| && IsPart(p, msgs[k], i)
    ensures var (r', outcome) := Intake(r, p);
      && outcome.Ok? && Tracks(r', msgs, channel, first) && r'.received == r.received + {p.sequence}
      && ReleasesOfFirst(msgs, Prefix(msgs, r.received, 0)) + outcome.value
           == ReleasesOfFirst(msgs, Prefix(msgs, r'.received, 0))
  {
    hide InSequence, Holding, ReleasesOfFirst, BuffersMatch, Complete, DeliverOrdered, ReadyOf;
    var n := Prefix(msgs, r.received, 0);
    assert ReleasesOfFirst(msgs, n) + [] == ReleasesOfFirst(msgs, n);
    if p.sequence in r.received {
      assert r.received + {p.sequence} == r.received;
    } else {
      NewPart(r.fragments, msgs, channel, first, r.received, p, k, i);
      var reassembled := Remember(r, p.sequence).(fragments := Reassemble(r.fragments, p).0);
      assert AtChannel(reassembled, channel, StartOf(msgs, first, n), Holding(msgs, r.received, n));
      hide Reassemble, AtChannel, Prefix;
      if Complete(msgs[k], r.received + {p.sequence}) {
        CompletionIsTracked(reassembled, msgs, channel, first, r.received, p.sequence, k, Expected(r, p));
      } else {
        IncompletePartKeepsChannel(msgs, channel, first, r.received, p.sequence, k);
      }
    }
  }

  lemma IncompletePartKeepsChannel(msgs: seq<Message>, channel: ChannelId, first: nat, received: set<u32>, q: u32,
                                   k: nat)
    requires InSequence(msgs, channel, first) && k < |msgs| && msgs[k].base <= q < End(msgs[k])
    requires !Complete(msgs[k], received) && !Complete(msgs[k], received + {q})
    ensures Prefix(msgs, received + {q}, 0) == Prefix(msgs, received, 0)
    ensures var n := Prefix(msgs, received, 0); Holding(msgs, received + {q}, n) == Holding(msgs, received, n)
  {
    forall j | 0 <= j < |msgs|
      ensures Complete(msgs[j], received + {q}) == Complete(msgs[j], received)
    {
      if j != k {
        PartIsOutsideOthers(msgs, channel, first, k, j, q);
        OutsideNumberKeepsComplete(msgs[j], received, q);
      }
    }
    SameCompleteness(msgs, received + {q}, received, 0);
    SameCompleteness(msgs, received + {q}, received, Prefix(msgs, received, 0));
  }

  // ---- Other packets

  function AllEnd(msgs: seq<Message>, first: nat): nat {
    StartOf(msgs, first, |msgs|)
  }

  /** A packet that has nothing to do with the messages: its number is outside theirs, and it neither
      goes into one of their fragment buffers nor is delivered in order on their channel. */
  ghost predicate IsForeign(p: Packet, msgs: seq<Message>, channel: ChannelId, first: nat) {
    && p.sequence < U32_MAX
    && !(first <= p.sequence < AllEnd(msgs, first))
    && (p.packetType == Data && p.channelId == channel ==>
          && !p.ordered
          && (p.fragmentCount > 0 ==>
                forall k :: 0 <= k < |msgs| && IsFragmented(msgs[k]) ==> p.fragmentId != msgs[k].fragmentId))
  }

  lemma ForeignKeepsArrivals(msgs: seq<Message>, channel: ChannelId, first: nat, received: set<u32>, p: Packet)
    requires InSequence(msgs, channel, first) && IsForeign(p, msgs, channel, first)
    ensures Prefix(msgs, received + {p.sequence}, 0) == Prefix(msgs, received, 0)
    ensures var n := Prefix(msgs, received, 0); Holding(msgs, received + {p.sequence}, n) == Holding(msgs, received, n)
  {
    forall j | 0 <= j < |msgs|
      ensures Complete(msgs[j], received + {p.sequence}) == Complete(msgs[j], received)
    {
      StartsIncrease(msgs, channel, first, j, |msgs|);
      OutsideNumberKeepsComplete(msgs[j], received, p.sequence);
    }
    SameCompleteness(msgs, received + {p.sequence}, received, 0);
    SameCompleteness(msgs, received + {p.sequence}, received, Prefix(msgs, received, 0));
  }

  lemma ForeignKeepsBuffers(fragments: map<FragmentKey, FragmentBuffer>, msgs: seq<Message>, channel: ChannelId,
                            first: nat, received: set<u32>, p: Packet, fed: bool)
    requires InSequence(msgs, channel, first) && IsForeign(p, msgs, channel, first)
    requires fed ==> p.packetType == Data
    requires BuffersMatch(fragments, msgs, received)
    ensures BuffersMatch(if fed then Reassemble(fragments, p).0 else fragments, msgs, received + {p.sequence})
  {
    hide Reassemble, BufferMatches;
    var after := if fed then Reassemble(fragments, p).0 else fragments;
    forall j | 0 <= j < |msgs|
      ensures Buffered(after, msgs[j], received + {p.sequence})
    {
      assert Buffered(fragments, msgs[j], received);
      StartsIncrease(msgs, channel, first, j, |msgs|);
      if IsFragmented(msgs[j]) {
        OtherNumbersKeepBuffer(fragments, msgs[j], received, p.sequence);
        if fed { OtherPacketsKeepBuffer(fragments, msgs[j], received, p); }
      }
    }
  }

  lemma ReassemblyKeepsOrdering(fragments: map<FragmentKey, FragmentBuffer>, p: Packet)
    ensures var outcome := Reassemble(fragments, p).1;
      outcome.Ok? && outcome.value.Some? ==> outcome.value.value.ordered == p.ordered
  {
  }

  lemma NoneOnChannel(channel: ChannelId)
    ensures OnChannel([], InOrder, channel) == []
  {
  }

  /** Handing over a message that is not ordered, or is on another channel, does not concern the channel. */
  lemma DispatchElsewhere(r: Receiver, ready: Ready, sequenced: bool, expected: nat, channel: ChannelId, cursor: nat,
                          buffer: ReorderBuffer)
    requires ShapedOrder(r.cursors, r.reorder) && ShapedReady(ready)
    requires !ready.ordered || ready.frame.channelId != channel
    requires AtChannel(r, channel, cursor, buffer)
    ensures var (r', releases) := Dispatch(r, ready, sequenced, expected);
      && AtChannel(r', channel, cursor, buffer) && OnChannel(releases, InOrder, channel) == []
      && r'.fragments == r.fragments && r'.received == r.received
  {
    var (r', releases) := Dispatch(r, ready, sequenced, expected);
    NoneOnChannel(channel);
    if ready.ordered {
      OrderedIsChain(r, ready, expected);
      var start := CursorOr(r, ready.frame.channelId, expected, ready.frame.sequence);
      ChainIsOnChannel(releases, ready.frame.channelId, start, r'.cursors[ready.frame.channelId], channel);
    } else if releases != [] {
      assert releases[..0] == [];
    }
  }

  /** New data of other messages: what it completes is handed over elsewhere. */
  lemma ForeignDataPassesBy(r: Receiver, msgs: seq<Message>, channel: ChannelId, first: nat, p: Packet, cursor: nat,
                            buffer: ReorderBuffer)
    requires InSequence(msgs, channel, first) && IsForeign(p, msgs, channel, first) && p.packetType == Data
    requires p.sequence !in r.received
    requires Shaped(r) && BuffersMatch(r.fragments, msgs, r.received) && AtChannel(r, channel, cursor, buffer)
    ensures var (r', outcome) := Intake(r, p);
      && AtChannel(r', channel, cursor, buffer)
      && BuffersMatch(r'.fragments, msgs, r'.received)
      && r'.received == r.received + {p.sequence}
      && OnChannel(ReleasesOf(outcome), InOrder, channel) == []
  {
    hide Reassemble, AtChannel, Dispatch, InSequence, BuffersMatch, Shaped, ShapedReady, OnChannel;
    NoneOnChannel(channel);
    ForeignKeepsBuffers(r.fragments, msgs, channel, first, r.received, p, true);
    var (fragments, outcome) := Reassemble(r.fragments, p);
    var reassembled := Remember(r, p.sequence).(fragments := fragments);
    ShapedHasShapedParts(r);
    ReassembleIsShaped(r.fragments, p);
    ReassemblyKeepsOrdering(r.fragments, p);
    SameChannel(r, reassembled, channel, cursor, buffer);
    hide ShapedFragments, ShapedOrder;
    if outcome.Ok? && outcome.value.Some? {
      DispatchElsewhere(reassembled, outcome.value.value, p.sequenced, Expected(r, p), channel, cursor, buffer);
    }
  }

  /** A foreign packet leaves the messages' buffers and the channel's cursor and reorder buffer alone, and releases
      nothing on the channel. */
  lemma ForeignPacketPassesBy(r: Receiver, msgs: seq<Message>, channel: ChannelId, first: nat, p: Packet, cursor: nat,
                              buffer: ReorderBuffer)
    requires InSequence(msgs, channel, first) && IsForeign(p, msgs, channel, first)
    requires Shaped(r) && BuffersMatch(r.fragments, msgs, r.received) && AtChannel(r, channel, cursor, buffer)
    ensures var (r', outcome) := Intake(r, p);
      && AtChannel(r', channel, cursor, buffer)
      && BuffersMatch(r'.fragments, msgs, r'.received)
      && r'.received == (if p.packetType == Connect then r.received else r.received + {p.sequence})
      && OnChannel(ReleasesOf(outcome), InOrder, channel) == []
  {
    hide InSequence, BuffersMatch, Shaped, OnChannel, IsForeign, Reassemble, Dispatch;
    if p.packetType == Data && p.sequence !in r.received {
      ForeignDataPassesBy(r, msgs, channel, first, p, cursor, buffer);
    } else {
      NoneOnChannel(channel);
      ForeignKeepsBuffers(r.fragments, msgs, channel, first, r.received, p, false);
      assert p.sequence in r.received ==> r.received + {p.sequence} == r.received;
    }
  }

  lemma SameChannel(r: Receiver, r': Receiver, channel: ChannelId, cursor: nat, buffer: ReorderBuffer)
    requires AtChannel(r, channel, cursor, buffer) && r'.cursors == r.cursors && r'.reorder == r.reorder
    ensures AtChannel(r', channel, cursor, buffer)
  {
  }

  /** A foreign packet changes neither what the channel holds nor what it releases. */
  lemma ForeignPacketIsTracked(r: Receiver, msgs: seq<Message>, channel: ChannelId, first: nat, p: Packet)
    requires InSequence(msgs, channel, first) && Tracks(r, msgs, channel, first) && Shaped(r)
    requires IsForeign(p, msgs, channel, first)
    ensures var (r', outcome) := Intake(r, p);
      && Tracks(r', msgs, channel, first)
      && (p.packetType != Connect ==> r'.received == r.received + {p.sequence})
      && Prefix(msgs, r'.received, 0) == Prefix(msgs, r.received, 0)
      && OnChannel(ReleasesOf(outcome), InOrder, channel) == []
  {
    hide Intake, AtChannel, BuffersMatch, Prefix, Holding, InSequence, Shaped, IsForeign, OnChannel;
    var n := Prefix(msgs, r.received, 0);
    ForeignKeepsArrivals(msgs, channel, first, r.received, p);
    ForeignPacketPassesBy(r, msgs, channel, first, p, StartOf(msgs, first, n), Holding(msgs, r.received, n));
  }

  lemma ShapedHasShapedParts(r: Receiver)
    requires Shaped(r)
    ensures ShapedOrder(r.cursors, r.reorder) && ShapedFragments(r.fragments)
  {
  }

  // ---- Arrival histories

  /** The receiver after packets arrived one by one, and everything it released meanwhile. */
  function Absorb(r: Receiver, packets: seq<Packet>): (Receiver, seq<Release>) {
    if packets == [] then (r, [])
    else
      var (before, log) := Absorb(r, packets[..|packets| - 1]);
      var (after, outcome) := Intake(before, packets[|packets| - 1]);
      (after, log + ReleasesOf(outcome))
  }

  ghost predicate IsOwn(p: Packet, msgs: seq<Message>) {
    exists k, i :: 0 <= k < |msgs| && IsPart(p, msgs[k], i)
  }

  /** An arrival history: the messages' packets in any order, any number of times or never, among packets
      that are foreign or repeat a number received before. */
  ghost predicate IsArrival(packets: seq<Packet>, msgs: seq<Message>, channel: ChannelId, first: nat,
                            earlier: set<u32>) {
    forall p :: p in packets ==> IsOwn(p, msgs) || IsForeign(p, msgs, channel, first) || p.sequence in earlier
  }

  /** Nothing of the messages has arrived, and nothing is held on the channel. */
  ghost predicate Untroubled(r: Receiver, msgs: seq<Message>, channel: ChannelId, first: nat) {
    && (forall q :: q in r.received ==> !(first <= q < AllEnd(msgs, first)))
    && BufferOf(r, channel) == map[]
    && (forall k :: 0 <= k < |msgs| && IsFragmented(msgs[k]) ==> MessageKey(msgs[k]) !in r.fragments)
  }

  /** ... and the channel's cursor stands at the first message. */
  ghost predicate Awaits(r: Receiver, msgs: seq<Message>, channel: ChannelId, first: nat) {
    Untroubled(r, msgs, channel, first) && channel in r.cursors && r.cursors[channel] == first
  }

  lemma {:induction false} NothingHeld(msgs: seq<Message>, received: set<u32>, k: nat)
    requires k <= |msgs|
    requires forall j :: 0 <= j < |msgs| ==> !Complete(msgs[j], received)
    ensures Holding(msgs, received, k) == map[]
    decreases |msgs| - k
  {
    if k < |msgs| { NothingHeld(msgs, received, k + 1); }
  }

  lemma NothingArrived(r: Receiver, msgs: seq<Message>, channel: ChannelId, first: nat, k: nat)
    requires InSequence(msgs, channel, first) && k < |msgs|
    requires Untroubled(r, msgs, channel, first)
    ensures !Complete(msgs[k], r.received) && Untouched(msgs[k], r.received)
    ensures Buffered(r.fragments, msgs[k], r.received)
  {
    StartsIncrease(msgs, channel, first, k, |msgs|);
    forall i | 0 <= i < |msgs[k].chunks| ensures !Arrived(msgs[k], r.received, i) { }
    assert !Arrived(msgs[k], r.received, 0);
  }

  lemma AwaitingIsTracked(r: Receiver, msgs: seq<Message>, channel: ChannelId, first: nat)
    requires InSequence(msgs, channel, first) && Awaits(r, msgs, channel, first)
    ensures Tracks(r, msgs, channel, first) && Prefix(msgs, r.received, 0) == 0
  {
    forall k | 0 <= k < |msgs|
      ensures !Complete(msgs[k], r.received) && Buffered(r.fragments, msgs[k], r.received)
    {
      NothingArrived(r, msgs, channel, first, k);
    }
    NothingHeld(msgs, r.received, 0);
  }

  lemma {:induction false} ReleasesAreOnChannel(msgs: seq<Message>, channel: ChannelId, first: nat, n: nat)
    requires InSequence(msgs, channel, first) && n <= |msgs|
    ensures OnChannel(ReleasesOfFirst(msgs, n), InOrder, channel) == ReleasesOfFirst(msgs, n)
  {
    if n > 0 {
      ReleasesAreOnChannel(msgs, channel, first, n - 1);
      StartsIncrease(msgs, channel, first, n - 1, n);
      OnChannelAppendsOne(ReleasesOfFirst(msgs, n - 1), ReleaseOf(msgs[n - 1]), InOrder, channel);
    }
  }

  /** A number received before changes nothing. */
  lemma RepeatChangesNothing(r: Receiver, p: Packet)
    requires Shaped(r) && p.sequence in r.received
    ensures Intake(r, p) == (r, Ok([])) && p.sequence < U32_MAX
  {
    assert r.received + {p.sequence} == r.received;
  }

  lemma IntakeRemembers(r: Receiver, p: Packet)
    ensures Intake(r, p).0.received == if p.packetType == Connect then r.received else r.received + {p.sequence}
  {
    assert p.sequence in r.received ==> r.received + {p.sequence} == r.received;
  }

  /** One more arrival keeps the channel's releases equal to the longest complete prefix. */
  lemma ArrivalKeepsPrefix(r: Receiver, log: seq<Release>, msgs: seq<Message>, channel: ChannelId, first: nat,
                           p: Packet)
    requires InSequence(msgs, channel, first) && Tracks(r, msgs, channel, first) && Shaped(r)
    requires IsOwn(p, msgs) || IsForeign(p, msgs, channel, first) || p.sequence in r.received
    requires OnChannel(log, InOrder, channel) == ReleasesOfFirst(msgs, Prefix(msgs, r.received, 0))
    ensures var (r', outcome) := Intake(r, p);
      && Tracks(r', msgs, channel, first) && Shaped(r')
      && OnChannel(log + ReleasesOf(outcome), InOrder, channel) == ReleasesOfFirst(msgs, Prefix(msgs, r'.received, 0))
  {
    hide Intake, Tracks, Shaped, InSequence, Prefix, ReleasesOfFirst, OnChannel, IsForeign, IsPart;
    var (r', outcome) := Intake(r, p);
    OnChannelAppends(log, ReleasesOf(outcome), InOrder, channel);
    if p.sequence in r.received {
      RepeatChangesNothing(r, p);
      NoneOnChannel(channel);
    } else if IsOwn(p, msgs) {
      var k, i :| 0 <= k < |msgs| && IsPart(p, msgs[k], i);
      PartFits(p, msgs, channel, first, k, i);
      OwnPacketIsTracked(r, msgs, channel, first, p, k, i);
      var n, n' := Prefix(msgs, r.received, 0), Prefix(msgs, r'.received, 0);
      ReleasesAreOnChannel(msgs, channel, first, n);
      ReleasesAreOnChannel(msgs, channel, first, n');
      OnChannelAppends(ReleasesOfFirst(msgs, n), outcome.value, InOrder, channel);
      IntakeIsShaped(r, p);
    } else {
      ForeignIsBelowMax(p, msgs, channel, first);
      ForeignPacketIsTracked(r, msgs, channel, first, p);
      IntakeIsShaped(r, p);
    }
  }

  lemma PartFits(p: Packet, msgs: seq<Message>, channel: ChannelId, first: nat, k: nat, i: nat)
    requires InSequence(msgs, channel, first) && k < |msgs| && IsPart(p, msgs[k], i)
    ensures p.sequence < U32_MAX && p.packetType == Data && first <= p.sequence < AllEnd(msgs, first)
  {
    StartsIncrease(msgs, channel, first, k, |msgs|);
  }

  lemma ForeignIsBelowMax(p: Packet, msgs: seq<Message>, channel: ChannelId, first: nat)
    requires IsForeign(p, msgs, channel, first)
    ensures p.sequence < U32_MAX
  {
  }

  lemma {:induction false} TrackedThroughout(r: Receiver, msgs: seq<Message>, channel: ChannelId, first: nat,
                                             packets: seq<Packet>)
    requires InSequence(msgs, channel, first) && Tracks(r, msgs, channel, first) && Prefix(msgs, r.received, 0) == 0
    requires Shaped(r)
    requires IsArrival(packets, msgs, channel, first, r.received)
    ensures var (r', log) := Absorb(r, packets);
      && Tracks(r', msgs, channel, first) && Shaped(r') && r.received <= r'.received
      && OnChannel(log, InOrder, channel) == ReleasesOfFirst(msgs, Prefix(msgs, r'.received, 0))
  {
    hide Tracks, Shaped, InSequence, OnChannel, Prefix, Intake, IsOwn, IsForeign;
    if packets == [] {
      NoneOnChannel(channel);
    } else {
      var n := |packets| - 1;
      TrackedThroughout(r, msgs, channel, first, packets[..n]);
      var (before, log) := Absorb(r, packets[..n]);
      ArrivalKeepsPrefix(before, log, msgs, channel, first, packets[n]);
      IntakeRemembers(before, packets[n]);
    }
  }

  /** Among the messages' numbers, what was received is what arrived. */
  lemma {:induction false} ReceivedIsArrived(r: Receiver, packets: seq<Packet>, q: u32)
    requires q !in r.received
    requires forall p :: p in packets && p.sequence == q ==> p.packetType != Connect
    ensures q in Absorb(r, packets).0.received <==> q in NumbersOf(packets)
  {
    if packets != [] {
      var n := |packets| - 1;
      ReceivedIsArrived(r, packets[..n], q);
      IntakeRemembers(Absorb(r, packets[..n]).0, packets[n]);
      NumbersOfAppend(packets[..n], packets[n]);
      assert packets == packets[..n] + [packets[n]];
    }
  }

  lemma ArrivedCompletes(r: Receiver, msgs: seq<Message>, channel: ChannelId, first: nat, packets: seq<Packet>)
    requires InSequence(msgs, channel, first) && Untroubled(r, msgs, channel, first)
    requires IsArrival(packets, msgs, channel, first, r.received)
    ensures Prefix(msgs, Absorb(r, packets).0.received, 0) == Prefix(msgs, NumbersOf(packets), 0)
  {
    hide Absorb, NumbersOf;
    var received := Absorb(r, packets).0.received;
    forall q: u32 | first <= q < AllEnd(msgs, first)
      ensures q in received <==> q in NumbersOf(packets)
    {
      ReceivedIsArrived(r, packets, q);
    }
    forall j | 0 <= j < |msgs|
      ensures Complete(msgs[j], received) == Complete(msgs[j], NumbersOf(packets))
    {
      StartsIncrease(msgs, channel, first, j, |msgs|);
      hide InSequence;
      SameArrivals(msgs[j], received, NumbersOf(packets));
    }
    SameCompleteness(msgs, received, NumbersOf(packets), 0);
  }

  lemma SameArrivals(m: Message, a: set<u32>, b: set<u32>)
    requires WellFormed(m)
    requires forall q: u32 :: m.base <= q < End(m) ==> (q in a <==> q in b)
    ensures Complete(m, a) == Complete(m, b)
  {
    forall i | 0 <= i < |m.chunks| ensures Arrived(m, a, i) == Arrived(m, b, i) {
      var q: u32 := m.base + i;
    }
  }

  /** What the channel released is exactly the longest prefix of messages whose packets have all arrived. */
  ghost predicate ReleasesPrefix(r: Receiver, msgs: seq<Message>, channel: ChannelId, packets: seq<Packet>) {
    OnChannel(Absorb(r, packets).1, InOrder, channel) == ReleasesOfFirst(msgs, Prefix(msgs, NumbersOf(packets), 0))
  }

  /** Ordered delivery refines the specification: from a cursor at the first message, after any arrival history,
      a channel has released exactly the longest complete prefix, each message once and with its exact bytes. */
  lemma OrderedDeliveryReleasesPrefix(r: Receiver, msgs: seq<Message>, channel: ChannelId, first: nat,
                                      packets: seq<Packet>)
    requires Shaped(r) && InSequence(msgs, channel, first) && Awaits(r, msgs, channel, first)
    requires IsArrival(packets, msgs, channel, first, r.received)
    ensures ReleasesPrefix(r, msgs, channel, packets)
  {
    AwaitingIsTracked(r, msgs, channel, first);
    TrackedThroughout(r, msgs, channel, first, packets);
    ArrivedCompletes(r, msgs, channel, first, packets);
  }
}
