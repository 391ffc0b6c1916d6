/** What two endpoints deliver to each other over a network that drops, duplicates and reorders: the exact fate of every
    message sent, each channel's ordered messages as one unbroken block, and delivery exactly once of what was
    acknowledged. */
module EndToEnd {
  import opened Prelude
  import opened Packets
  import opened Receivers
  import opened Protocol
  import opened Histories
  import opened HostileReceiver
  import opened DeliveryOrder
  import opened ReceiverRuns
  import opened SenderRuns
  import opened Reassembly
  import opened OrderedRefinement
  import opened TwoEndpoints
  import opened PeerMessages
  import opened SystemDelivery

  // ---- What became of a message

  /** A newer message of m's channel was handed over. */
  ghost predicate NewerHanded(messages: seq<Message>, k: nat, log: seq<Release>)
    requires k < |messages|
  {
    exists j :: k < j < |messages| && ModeOf(messages[j]) == Latest && messages[j].channelId == messages[k].channelId
                && Handed(messages[j], log)
  }

  /** What became of an ordered message: it can be handed over or held only once it is complete, and a complete one is
      handed over, held, or passed by according to whether it starts before the place where the channel began,
      between there and the cursor, or beyond the cursor; none starts at the cursor. */
  ghost predicate OrderedFate(m: Message, r: Receiver, log: seq<Release>) {
    && (Handed(m, log) || Held(m, r) ==> Complete(m, r.received))
    && (Complete(m, r.received) ==>
          && m.channelId in r.cursors && m.base != r.cursors[m.channelId]
          && (Handed(m, log) <==> StartedAt(r, log, m.channelId) <= m.base < r.cursors[m.channelId])
          && (Held(m, r) <==> r.cursors[m.channelId] < m.base))
  }

  /** What became of a message, according to its mode and what of it arrived. */
  ghost predicate Fate(messages: seq<Message>, k: nat, r: Receiver, log: seq<Release>)
    requires k < |messages|
  {
    var m := messages[k];
    match ModeOf(m)
    case Plain => Handed(m, log) <==> Complete(m, r.received)
    case Latest =>
      && (Handed(m, log) ==> Complete(m, r.received))
      && (Complete(m, r.received) ==> Handed(m, log) || NewerHanded(messages, k, log))
    case InOrder => OrderedFate(m, r, log)
  }

  // ---- What an ordered channel hands over

  /** xs are the messages from one index on, each starting where the one before ended. */
  ghost predicate IsBlock(xs: seq<Release>, messages: seq<Message>, from: nat, channel: ChannelId) {
    from + |xs| <= |messages| && forall i :: 0 <= i < |xs| ==> InBlock(xs, messages, from, channel, i)
  }

  ghost predicate InBlock(xs: seq<Release>, messages: seq<Message>, from: nat, channel: ChannelId, i: nat)
    requires i < |xs| && from + i < |messages|
  {
    && messages[from + i].ordered && messages[from + i].channelId == channel
    && xs[i] == ReleasedAs(messages[from + i])
    && (i > 0 ==> messages[from + i].base == End(messages[from + i - 1]))
  }

  /** The messages from one index up to another were sent in order on a channel, each directly after the one before,
      and the channel began its ordered delivery at the first of them. */
  ghost predicate StartsSequence(messages: seq<Message>, from: nat, to: nat, channel: ChannelId, r: Receiver,
                                 log: seq<Release>) {
    && from < to <= |messages|
    && (forall k :: from <= k < to ==> messages[k].ordered && messages[k].channelId == channel)
    && (forall k :: from < k < to ==> messages[k].base == End(messages[k - 1]))
    && channel in r.cursors && StartedAt(r, log, channel) == messages[from].base
  }

  // ---- Each channel's ordered messages are handed over as one block

  /** Only the next message can start where a message ends. */
  lemma NextMessage(messages: seq<Message>, j: nat, k: nat)
    requires Apart(messages) && j < |messages| && k < |messages|
    ensures k <= j ==> messages[k].base < End(messages[j])
    ensures k < j ==> messages[k].base < messages[j].base
    ensures j + 1 < k ==> End(messages[j]) < messages[k].base
  {
    assert WellFormed(messages[j]) && WellFormed(messages[k]);
    if k < j {
      assert Precedes(messages, k, j);
    } else if j + 1 < k {
      assert WellFormed(messages[j + 1]) && Precedes(messages, j, j + 1) && Precedes(messages, j + 1, k);
    }
  }

  lemma OrderedReleaseIsMessage(messages: seq<Message>, log: seq<Release>, channel: ChannelId, i: nat) returns (k: nat)
    requires LogKnown(log, messages) && i < |OnChannel(log, InOrder, channel)|
    ensures k < |messages| && OnChannel(log, InOrder, channel)[i] == ReleasedAs(messages[k])
    ensures messages[k].ordered && messages[k].channelId == channel
  {
    var n := OnChannelComesFromLog(log, InOrder, channel, i);
    assert KnownRelease(log[n], messages);
    hide OnChannel, Concat;
    k :| 0 <= k < |messages| && ReleasedAs(messages[k]) == log[n];
  }

  lemma ChainIsBlock(messages: seq<Message>, r: Receiver, log: seq<Release>, channel: ChannelId) returns (from: nat)
    requires Apart(messages) && LogKnown(log, messages) && ChainTo(r, log, channel)
    ensures IsBlock(OnChannel(log, InOrder, channel), messages, from, channel)
  {
    var xs := OnChannel(log, InOrder, channel);
    hide OnChannel, Apart, LogKnown, ReleasedAs;
    from := 0;
    if xs != [] {
      from := OrderedReleaseIsMessage(messages, log, channel, 0);
      var n := 1;
      while n < |xs|
        invariant 1 <= n <= |xs| && from + n <= |messages|
        invariant forall i :: 0 <= i < n ==> InBlock(xs, messages, from, channel, i)
      {
        var k := OrderedReleaseIsMessage(messages, log, channel, n);
        ChainLinks(xs, channel, xs[0].frame.sequence, r.cursors[channel], n);
        assert InBlock(xs, messages, from, channel, n - 1);
        ReleaseEnds(messages[from + n - 1]);
        ReleaseEnds(messages[k]);
        NextMessage(messages, from + n - 1, k);
        n := n + 1;
      }
    }
  }

  // ---- What became of each message

  lemma OnChannelIsInLog(log: seq<Release>, mode: Mode, channel: ChannelId, i: nat)
    requires i < |OnChannel(log, mode, channel)|
    ensures OnChannel(log, mode, channel)[i] in log
  {
    var n := OnChannelComesFromLog(log, mode, channel, i);
  }

  /** What was handed over in order lies between the start of its channel and its cursor. */
  lemma HandedIsBetween(m: Message, r: Receiver, log: seq<Release>)
    requires m.ordered && Handed(m, log) && ChainTo(r, log, m.channelId)
    ensures m.channelId in r.cursors && StartedAt(r, log, m.channelId) <= m.base < r.cursors[m.channelId]
  {
    InLogIsOnChannel(log, ReleasedAs(m));
    var xs := OnChannel(log, InOrder, m.channelId);
    hide OnChannel;
    var i :| 0 <= i < |xs| && xs[i] == ReleasedAs(m);
    ReleaseEnds(m);
    ChainLinks(xs, m.channelId, xs[0].frame.sequence, r.cursors[m.channelId], i);
  }

  /** What starts between the start of its channel and its cursor was handed over. */
  lemma BetweenIsHanded(messages: seq<Message>, k: nat, r: Receiver, log: seq<Release>)
    requires Apart(messages) && LogKnown(log, messages) && k < |messages|
    requires var c := messages[k].channelId;
      ChainTo(r, log, c) && c in r.cursors && StartedAt(r, log, c) <= messages[k].base < r.cursors[c]
    ensures Handed(messages[k], log)
  {
    var c := messages[k].channelId;
    var xs := OnChannel(log, InOrder, c);
    hide OnChannel, Apart, ChainFrom;
    var i := ChainCovers(xs, c, xs[0].frame.sequence, r.cursors[c], messages[k].base);
    OnChannelIsInLog(log, InOrder, c, i);
    CoveredBaseIsReleased(messages, xs[i], k);
  }

  lemma OrderedMeetsFate(messages: seq<Message>, k: nat, r: Receiver, log: seq<Release>)
    requires Apart(messages) && LogKnown(log, messages) && k < |messages| && messages[k].ordered
    requires Settled(messages[k], r, log) && ChainTo(r, log, messages[k].channelId) && Ahead(r, messages[k].channelId)
    ensures OrderedFate(messages[k], r, log)
  {
    var m := messages[k];
    hide Apart, LogKnown, ChainTo, Complete, StartedAt;
    if Handed(m, log) { HandedIsBetween(m, r, log); }
    if m.channelId in r.cursors && StartedAt(r, log, m.channelId) <= m.base < r.cursors[m.channelId] {
      BetweenIsHanded(messages, k, r, log);
    }
  }

  /** An overtaken message was overtaken by a newer one that was handed over. */
  lemma OvertakenByNewer(messages: seq<Message>, k: nat, r: Receiver, log: seq<Release>)
    requires Apart(messages) && LogKnown(log, messages) && k < |messages|
    requires RisesTo(r, log, messages[k].channelId) && Overtaken(messages[k], r)
    ensures NewerHanded(messages, k, log)
  {
    var c := messages[k].channelId;
    var xs := OnChannel(log, Latest, c);
    var n := OnChannelComesFromLog(log, Latest, c, |xs| - 1);
    hide OnChannel, Concat;
    assert KnownRelease(log[n], messages);
    var j :| 0 <= j < |messages| && ReleasedAs(messages[j]) == log[n];
    ReleaseEnds(messages[j]);
    NextMessage(messages, k, j);
    assert ModeOf(messages[j]) == Latest && messages[j].channelId == c && Handed(messages[j], log);
  }

  lemma UnorderedMeetsFate(messages: seq<Message>, k: nat, r: Receiver, log: seq<Release>)
    requires Apart(messages) && LogKnown(log, messages) && k < |messages| && !messages[k].ordered
    requires Settled(messages[k], r, log) && RisesTo(r, log, messages[k].channelId)
    ensures var m := messages[k];
      && (Handed(m, log) ==> Complete(m, r.received))
      && (Complete(m, r.received) ==> Handed(m, log) || (m.sequenced && NewerHanded(messages, k, log)))
  {
    hide Apart, LogKnown, RisesTo, Complete;
    if Overtaken(messages[k], r) { OvertakenByNewer(messages, k, r, log); }
  }

  // ---- From the invariant to the results

  /** What holds of two sides at any moment of a run. */
  ghost predicate InTouch(x: Side, y: Side) {
    && Apart(x.messages)
    && LogKnown(y.history.log, x.messages)
    && AllSettled(x.messages, y.history.state.receiver, y.history.log)
    && AllAhead(y.history.state.receiver)
    && Sound(y.history.state.receiver, y.history.log)
    && PayloadsMatch(x.messages, x.payloads)
  }

  lemma RunIsInTouch(left: SessionOptions, right: SessionOptions, run: seq<System>, turns: seq<Turn>, n: nat,
                     fromLeft: bool)
    requires IsSystemRun(left, right, run, turns) && n < |run|
    requires KeysDistinct(SideOf(run[n], fromLeft).messages)
    ensures InTouch(SideOf(run[n], fromLeft), SideOf(run[n], !fromLeft))
  {
    hide IsSystemRun, KeysDistinct, Partitioned, Placed, Balanced, Numbered, Truthful, AllSettled, AllAhead, Sound,
      IdsFollow, BuffersMatch, KeysKnown, ReorderKnown, LogKnown, Apart, OnWire, ReceivedFrom;
    RunConveys(left, right, run, turns, n);
    RunIsLinked(left, right, run, turns, n);
    RunSettles(left, right, run, turns, n);
    CataloguedIsApart(SideOf(run[n], fromLeft));
  }

  /** In every run the buffers of one side's messages can be told apart exactly as long as no channel has two fragmented
      messages of which the earlier already got the last id; 65535 fragmented messages are always few enough. */
  lemma RunKeysAreDistinct(left: SessionOptions, right: SessionOptions, run: seq<System>, turns: seq<Turn>, n: nat,
                           fromLeft: bool)
    requires IsSystemRun(left, right, run, turns) && n < |run|
    ensures var messages := SideOf(run[n], fromLeft).messages;
      && (KeysDistinct(messages) <==> SaturatesLast(messages))
      && (FragmentedCount(messages) <= U16_MAX ==> KeysDistinct(messages))
  {
    hide IsSystemRun, KeysDistinct, SaturatesLast, Partitioned, Placed, IdsFollow, Filed;
    RunConveys(left, right, run, turns, n);
    var x := SideOf(run[n], fromLeft);
    KeysAreDistinctUpToSaturation(x.messages, x.history.state.sender.nextFragmentId);
  }

  lemma {:induction false} ReleasesOfFirstAt(msgs: seq<Message>, n: nat, i: nat)
    requires i < n <= |msgs|
    ensures |ReleasesOfFirst(msgs, n)| == n && ReleasesOfFirst(msgs, n)[i] == ReleaseOf(msgs[i])
  {
    if n > 1 { ReleasesOfFirstAt(msgs, n - 1, if i < n - 1 then i else 0); }
  }

  /** The block starts at the first message, and every message of both is the same. */
  lemma BlockOfSequence(messages: seq<Message>, from: nat, to: nat, channel: ChannelId, r: Receiver, log: seq<Release>)
    requires Apart(messages) && LogKnown(log, messages) && ChainTo(r, log, channel)
    requires StartsSequence(messages, from, to, channel, r, log)
    ensures var xs := OnChannel(log, InOrder, channel);
      && IsBlock(xs, messages, from, channel)
      && (from + |xs| < to ==> messages[from + |xs|].base == r.cursors[channel])
  {
    hide OnChannel, Apart, LogKnown;
    var xs := OnChannel(log, InOrder, channel);
    var f := ChainIsBlock(messages, r, log, channel);
    if xs != [] {
      assert InBlock(xs, messages, f, channel, 0) && InBlock(xs, messages, f, channel, |xs| - 1);
      ReleaseEnds(messages[f]);
      SameBaseSameMessage(messages, f, from);
      ReleaseEnds(messages[from + |xs| - 1]);
      ChainLinks(xs, channel, xs[0].frame.sequence, r.cursors[channel], |xs| - 1);
    }
  }

  /** What the block holds of a sequence are complete messages. */
  lemma BlockIsComplete(messages: seq<Message>, from: nat, to: nat, channel: ChannelId, r: Receiver, log: seq<Release>,
                        i: nat)
    requires from <= to <= |messages| && AllSettled(messages, r, log)
    requires var xs := OnChannel(log, InOrder, channel);
      IsBlock(xs, messages, from, channel) && i < |xs| && from + i < to
    ensures Complete(messages[from..to][i], r.received)
    ensures OnChannel(log, InOrder, channel)[i] == ReleaseOf(messages[from..to][i])
  {
    hide OnChannel, Settled, Complete, ReleasedAs;
    assert InBlock(OnChannel(log, InOrder, channel), messages, from, channel, i);
    OnChannelIsInLog(log, InOrder, channel, i);
    HandedIsComplete(messages[from + i], r, log);
    OrderedReleaseIs(messages[from + i]);
  }

  /** The releases of a channel are those of the longest complete prefix, if the first is incomplete that they do not
      hold. */
  lemma MatchedPrefix(msgs: seq<Message>, xs: seq<Release>, received: set<u32>)
    requires forall i :: 0 <= i < Min(|xs|, |msgs|) ==> Complete(msgs[i], received) && xs[i] == ReleaseOf(msgs[i])
    requires |xs| < |msgs| ==> !Complete(msgs[|xs|], received)
    ensures var p := Prefix(msgs, received, 0); p == Min(|xs|, |msgs|) && xs[..p] == ReleasesOfFirst(msgs, p)
  {
    hide Complete, ReleaseOf, ReleasesOfFirst;
    var p := Prefix(msgs, received, 0);
    PrefixIsLongest(msgs, received, 0, p);
    PrefixIsLongest(msgs, received, 0, |xs|);
    hide Prefix;
    if p > 0 { ReleasesOfFirstAt(msgs, p, 0); } else { NoReleases(msgs); }
    forall i | 0 <= i < p ensures ReleasesOfFirst(msgs, p)[i] == xs[i] { ReleasesOfFirstAt(msgs, p, i); }
  }

  /** Of a sequence, exactly the longest prefix of messages that arrived completely has been handed over. */
  lemma SequenceReleasesPrefix(messages: seq<Message>, from: nat, to: nat, channel: ChannelId, r: Receiver,
                               log: seq<Release>)
    requires Apart(messages) && LogKnown(log, messages) && AllSettled(messages, r, log)
    requires ChainTo(r, log, channel) && Ahead(r, channel)
    requires StartsSequence(messages, from, to, channel, r, log)
    ensures var xs, msgs := OnChannel(log, InOrder, channel), messages[from..to];
      var p := Prefix(msgs, r.received, 0);
      p == Min(|xs|, |msgs|) && xs[..p] == ReleasesOfFirst(msgs, p)
  {
    BlockOfSequence(messages, from, to, channel, r, log);
    var xs, msgs := OnChannel(log, InOrder, channel), messages[from..to];
    hide OnChannel, Apart, LogKnown, Prefix, ChainTo, Ahead, Settled, Complete, ReleasesOfFirst, ReleaseOf, IsBlock,
      StartedAt;
    forall i | 0 <= i < Min(|xs|, |msgs|) ensures Complete(msgs[i], r.received) && xs[i] == ReleaseOf(msgs[i]) {
      BlockIsComplete(messages, from, to, channel, r, log, i);
    }
    if |xs| < |msgs| { OrderedMeetsFate(messages, from + |xs|, r, log); }
    MatchedPrefix(msgs, xs, r.received);
  }

  lemma NoReleases(msgs: seq<Message>)
    ensures ReleasesOfFirst(msgs, 0) == []
  {
  }

  lemma HandedIsComplete(m: Message, r: Receiver, log: seq<Release>)
    requires Settled(m, r, log) && Handed(m, log)
    ensures Complete(m, r.received)
  {
  }

  lemma OrderedReleaseIs(m: Message)
    requires m.ordered
    ensures ReleasedAs(m) == ReleaseOf(m)
  {
  }

  lemma AllCompletePrefix(msgs: seq<Message>, received: set<u32>)
    requires forall k :: 0 <= k < |msgs| ==> Complete(msgs[k], received)
    ensures Prefix(msgs, received, 0) == |msgs|
  {
    PrefixIsLongest(msgs, received, 0, Prefix(msgs, received, 0));
  }

  lemma AcknowledgedIsComplete(x: Side, k: nat, received: set<u32>)
    requires k < |x.messages| && FullyAcknowledged(x, k) && x.history.acked <= received
    ensures Complete(x.messages[k], received)
  {
    var m := x.messages[k];
    forall i | 0 <= i < |m.chunks| ensures Arrived(m, received, i) {
      assert Arrived(m, x.history.acked, i);
    }
  }

  // ---- Exactly once

  function SentFrame(x: Side, k: nat): Frame
    requires k < |x.messages| && k < |x.payloads|
  {
    Frame(x.messages[k].channelId, x.payloads[k], x.messages[k].base)
  }

  /** Every packet of the k-th message left the pending table by acknowledgement. */
  ghost predicate FullyAcknowledged(x: Side, k: nat)
    requires k < |x.messages|
  {
    forall i :: 0 <= i < |x.messages[k].chunks| ==> Arrived(x.messages[k], x.history.acked, i)
  }

  /** y has handed over the k-th message of x, with its original bytes, exactly once. */
  ghost predicate DeliveredOnce(x: Side, y: Side, k: nat)
    requires k < |x.messages| && k < |x.payloads|
  {
    exists i :: HandedOverOnlyAt(y.history.log, SentFrame(x, k), i)
  }

  ghost predicate EachDeliveredOnce(x: Side, y: Side, from: nat, to: nat) {
    && to <= |x.messages| && to <= |x.payloads|
    && forall k :: from <= k < to ==> DeliveredOnce(x, y, k)
  }

  ghost predicate HandedOverOnlyAt(log: seq<Release>, frame: Frame, i: nat) {
    && i < |log| && log[i].frame == frame
    && forall j :: 0 <= j < |log| && log[j].frame.sequence == frame.sequence ==> j == i
  }

  lemma ReleasedOnce(r: Receiver, log: seq<Release>, x: Release)
    requires Sound(r, log) && x in log
    ensures exists i :: HandedOverOnlyAt(log, x.frame, i)
  {
    var i :| 0 <= i < |log| && log[i] == x;
    var q := x.frame.sequence;
    assert Holds(r, log, q, InLog(i));
    forall j | 0 <= j < |log| && log[j].frame.sequence == q ensures j == i {
      assert Holds(r, log, q, InLog(j));
    }
    assert HandedOverOnlyAt(log, x.frame, i);
  }

  /** A message that was handed over was handed over once, with the payload that was sent. */
  lemma HandedIsDeliveredOnce(x: Side, y: Side, k: nat)
    requires InTouch(x, y) && k < |x.messages| && Handed(x.messages[k], y.history.log)
    ensures k < |x.payloads| && DeliveredOnce(x, y, k)
  {
    hide Sound, AllSettled, AllAhead, Apart, LogKnown, HandedOverOnlyAt;
    assert ReleasedAs(x.messages[k]).frame == SentFrame(x, k);
    ReleasedOnce(y.history.state.receiver, y.history.log, ReleasedAs(x.messages[k]));
  }

  lemma CompleteSequenceIsDelivered(x: Side, y: Side, channel: ChannelId, from: nat, to: nat)
    requires InTouch(x, y) && StartsSequence(x.messages, from, to, channel, y.history.state.receiver, y.history.log)
    requires forall k :: from <= k < to ==> Complete(x.messages[k], y.history.state.receiver.received)
    ensures ReleasesOfFirst(x.messages[from..to], to - from) <= OnChannel(y.history.log, InOrder, channel)
    ensures EachDeliveredOnce(x, y, from, to)
  {
    hide OnChannel, Chains, Rises, UsedOnce, Shaped, AllSettled, Apart, LogKnown, Prefix, Complete, ReleasesOfFirst,
      StartedAt, DeliveredOnce, Handed;
    var msgs := x.messages[from..to];
    AllCompletePrefix(msgs, y.history.state.receiver.received);
    ChannelIsChain(x, y, channel);
    SequenceReleasesPrefix(x.messages, from, to, channel, y.history.state.receiver, y.history.log);
    assert |x.payloads| == |x.messages|;
    forall k | from <= k < to ensures DeliveredOnce(x, y, k) {
      PrefixIsHanded(x.messages, from, to, channel, y.history.log, k);
      HandedIsDeliveredOnce(x, y, k);
    }
  }

  lemma ChannelIsChain(x: Side, y: Side, channel: ChannelId)
    requires InTouch(x, y)
    ensures ChainTo(y.history.state.receiver, y.history.log, channel)
    ensures RisesTo(y.history.state.receiver, y.history.log, channel)
    ensures Ahead(y.history.state.receiver, channel)
  {
  }

  lemma PrefixIsHanded(messages: seq<Message>, from: nat, to: nat, channel: ChannelId, log: seq<Release>, k: nat)
    requires from <= k < to <= |messages| && messages[k].ordered
    requires ReleasesOfFirst(messages[from..to], to - from) <= OnChannel(log, InOrder, channel)
    ensures Handed(messages[k], log)
  {
    ReleasesOfFirstAt(messages[from..to], to - from, k - from);
    OnChannelIsInLog(log, InOrder, channel, k - from);
    OrderedReleaseIs(messages[k]);
  }

  // ---- Where a channel begins

  function ReceiverOf(s: System, isLeft: bool): Receiver {
    SideOf(s, isLeft).history.state.receiver
  }

  /** A turn in which an ordered message of the other side completes on a channel that had no cursor yet. */
  ghost predicate BeginsAt(run: seq<System>, turns: seq<Turn>, t: nat, fromLeft: bool, channel: ChannelId, m: Message) {
    && t < |turns| && t + 1 < |run|
    && turns[t].leftActs != fromLeft && turns[t].op.TakePacket? && Inside(m, turns[t].op.packet.sequence)
    && m.ordered && m.channelId == channel
    && channel !in ReceiverOf(run[t], !fromLeft).cursors
    && !Complete(m, ReceiverOf(run[t], !fromLeft).received) && Complete(m, ReceiverOf(run[t + 1], !fromLeft).received)
  }

  /** The packet that gives a channel its cursor completes an ordered message of it, and the channel begins at that
      message, or at the number after the highest one received before, if that is lower. */
  lemma PartBeginsChannel(messages: seq<Message>, wire: set<Packet>, r: Receiver, log: seq<Release>, p: Packet,
                          channel: ChannelId)
    returns (k: nat)
    requires Apart(messages) && Partitioned(wire, messages) && p in wire
    requires BuffersMatch(r.fragments, messages, r.received)
    requires ShapedOrder(r.cursors, r.reorder) && ChainTo(r, log, channel)
    requires channel !in r.cursors && channel in Intake(r, p).0.cursors
    ensures k < |messages| && messages[k].ordered && messages[k].channelId == channel && Inside(messages[k], p.sequence)
    ensures !Complete(messages[k], r.received) && Complete(messages[k], Intake(r, p).0.received)
    ensures StartedAt(Intake(r, p).0, log + ReleasesOf(Intake(r, p).1), channel)
      == Min(Expected(r, p), messages[k].base)
  {
    hide Reassemble, BuffersMatch, Apart, ReadyOf, DeliverOrdered, ShapedOrder, Complete, StartedAt, IsPart, OnChannel;
    assert p.packetType == Data && p.sequence !in r.received;
    assert OfSomeMessage(p, messages);
    k :| 0 <= k < |messages| && Inside(messages[k], p.sequence);
    assert PartIfInside(p, messages[k]);
    PartArrives(r.fragments, messages, r.received, p, k, p.sequence - messages[k].base);
    var reassembled := Remember(r, p.sequence).(fragments := Reassemble(r.fragments, p).0);
    ReadyIsShaped(messages, k);
    if messages[k].ordered {
      DispatchesInOrder(reassembled, messages[k], Expected(r, p));
      DeliveryIsOnChannel(reassembled, ReadyOf(messages[k]), Expected(r, p));
      assert ChainTo(reassembled, log, channel);
      OrderedKeepsStart(reassembled, log, ReadyOf(messages[k]), Expected(r, p), channel);
    } else {
      UnorderedKeepsOrder(reassembled, messages[k], Expected(r, p));
    }
  }

  lemma ReadyIsShaped(messages: seq<Message>, k: nat)
    requires Apart(messages) && k < |messages|
    ensures ShapedReady(ReadyOf(messages[k]))
    ensures ReadyOf(messages[k]).frame.channelId == messages[k].channelId
    ensures ReadyOf(messages[k]).frame.sequence == messages[k].base
  {
    assert WellFormed(messages[k]);
  }

  /** One operation of the receiving side moves no channel's beginning. */
  lemma StepKeepsStart(s: State, log: seq<Release>, op: Op, channel: ChannelId)
    requires CanStep(s, op) && !op.ResetPeer? && Sound(s.receiver, log) && channel in s.receiver.cursors
    ensures var o := Step(s, op);
      && channel in o.state.receiver.cursors
      && StartedAt(o.state.receiver, log + o.released, channel) == StartedAt(s.receiver, log, channel)
  {
    StepOnReceiver(s, op);
    assert log + [] == log;
    NothingOnChannel([], channel);
    assert ChainTo(s.receiver, log, channel);
    hide Step, Intake, StartedAt, UsedOnce, Rises, ShapedOrder, ShapedFragments;
    match op
    case TakePacket(p, _) =>
      if p.connectionId == s.connectionId { IntakeKeepsStart(s.receiver, log, p, channel); }
    case AnswerDial(p, _, _) => SameOrderKeepsStart(s.receiver, log, Remember(s.receiver, p.sequence), [], channel);
    case _ =>
  }

  /** One operation of the receiving side that gives a channel its cursor. */
  lemma StepBeginsChannel(x: Side, y: Side, op: Op, channel: ChannelId) returns (k: nat)
    requires InTouch(x, y) && Partitioned(x.out, x.messages) && Deliverable(op, x.out)
    requires BuffersMatch(y.history.state.receiver.fragments, x.messages, y.history.state.receiver.received)
    requires CanStep(y.history.state, op) && !op.ResetPeer?
    requires channel !in y.history.state.receiver.cursors && channel in Step(y.history.state, op).state.receiver.cursors
    ensures op.TakePacket? && k < |x.messages| && x.messages[k].ordered && x.messages[k].channelId == channel
    ensures var r, o := y.history.state.receiver, Step(y.history.state, op);
      && Inside(x.messages[k], op.packet.sequence)
      && !Complete(x.messages[k], r.received) && Complete(x.messages[k], o.state.receiver.received)
      && StartedAt(o.state.receiver, y.history.log + o.released, channel)
           == Min(Expected(r, op.packet), x.messages[k].base)
  {
    StepOnReceiver(y.history.state, op);
    ChannelIsChain(x, y, channel);
    hide Step, Intake, StartedAt, Partitioned, BuffersMatch, Complete, Expected, Chains, Rises, UsedOnce, AllSettled,
      AllAhead, Apart, LogKnown, PayloadsMatch, ShapedOrder;
    k := PartBeginsChannel(x.messages, x.out, y.history.state.receiver, y.history.log, op.packet, channel);
  }

  lemma FewerMessagesKeepKeys(messages: seq<Message>, all: seq<Message>)
    requires messages <= all && KeysDistinct(all)
    ensures KeysDistinct(messages)
  {
    forall j, k | 0 <= j < k < |messages| ensures Distinguished(messages, j, k) {
      assert Distinguished(all, j, k);
    }
  }

  /** One turn only adds to the messages of a side, and to the log of its peer. */
  lemma TurnAdds(s: System, turn: Turn, s': System, fromLeft: bool)
    requires Takes(s, turn, s')
    ensures SideOf(s, fromLeft).messages <= SideOf(s', fromLeft).messages
    ensures var x, y, y' := SideOf(s, fromLeft), SideOf(s, !fromLeft), SideOf(s', !fromLeft);
      if turn.leftActs == fromLeft then y' == y
      else
        && !turn.op.ResetPeer? && CanStep(y.history.state, turn.op) && Deliverable(turn.op, x.out)
        && y'.history.state == Step(y.history.state, turn.op).state
        && y'.history.log == y.history.log + Step(y.history.state, turn.op).released
  {
    hide Acts, Step, CanStep, Transmitted, AckedBy, Deliverable;
    ActingChanges(SideOf(s, turn.leftActs), SideOf(s, !turn.leftActs).out, turn.op, SideOf(s', turn.leftActs));
  }

  /** A turn that gives a channel its cursor. */
  lemma TurnBeginsChannel(left: SessionOptions, right: SessionOptions, run: seq<System>, turns: seq<Turn>, t: nat,
                          fromLeft: bool, channel: ChannelId)
    returns (k: nat)
    requires IsSystemRun(left, right, run, turns) && t < |turns| && KeysDistinct(SideOf(run[t], fromLeft).messages)
    requires channel !in ReceiverOf(run[t], !fromLeft).cursors && channel in ReceiverOf(run[t + 1], !fromLeft).cursors
    ensures k < |SideOf(run[t], fromLeft).messages|
    ensures BeginsAt(run, turns, t, fromLeft, channel, SideOf(run[t], fromLeft).messages[k])
    ensures StartedAt(ReceiverOf(run[t + 1], !fromLeft), SideOf(run[t + 1], !fromLeft).history.log, channel)
      == Min(Expected(ReceiverOf(run[t], !fromLeft), turns[t].op.packet), SideOf(run[t], fromLeft).messages[k].base)
  {
    RunConveys(left, right, run, turns, t);
    RunIsInTouch(left, right, run, turns, t, fromLeft);
    assert Takes(run[t], turns[t], run[t + 1]);
    hide IsSystemRun, Takes, KeysDistinct, StartedAt, Expected, InTouch, CanStep, Step, Deliverable, BuffersMatch,
      KeysKnown, ReorderKnown, LogKnown, Partitioned, Placed, IdsFollow, PayloadsMatch, Complete;
    TurnAdds(run[t], turns[t], run[t + 1], fromLeft);
    k := StepBeginsChannel(SideOf(run[t], fromLeft), SideOf(run[t], !fromLeft), turns[t].op, channel);
  }

  /** Once begun, a channel keeps its beginning. */
  lemma TurnKeepsStart(s: System, turn: Turn, s': System, fromLeft: bool, channel: ChannelId)
    requires Takes(s, turn, s') && Sound(ReceiverOf(s, !fromLeft), SideOf(s, !fromLeft).history.log)
    requires channel in ReceiverOf(s, !fromLeft).cursors
    ensures channel in ReceiverOf(s', !fromLeft).cursors
    ensures StartedAt(ReceiverOf(s', !fromLeft), SideOf(s', !fromLeft).history.log, channel)
      == StartedAt(ReceiverOf(s, !fromLeft), SideOf(s, !fromLeft).history.log, channel)
  {
    hide Takes, StartedAt, Sound, CanStep, Step, Deliverable;
    TurnAdds(s, turn, s', fromLeft);
    if turn.leftActs != fromLeft {
      StepKeepsStart(SideOf(s, !fromLeft).history.state, SideOf(s, !fromLeft).history.log, turn.op, channel);
    }
  }

  // ---- Main results

  /** Nothing is made up: every frame an endpoint hands over, in any mode, is one the peer sent on that channel, byte
      for byte. */
  lemma EveryFrameWasSent(left: SessionOptions, right: SessionOptions, run: seq<System>, turns: seq<Turn>, n: nat,
                          fromLeft: bool, i: nat) returns (k: nat)
    requires IsSystemRun(left, right, run, turns) && n < |run|
    requires i < |SideOf(run[n], !fromLeft).history.log| && KeysDistinct(SideOf(run[n], fromLeft).messages)
    ensures var x, released := SideOf(run[n], fromLeft), SideOf(run[n], !fromLeft).history.log[i];
      && k < |x.messages| && k < |x.payloads|
      && released.frame == SentFrame(x, k) && released.mode == ModeOf(x.messages[k])
  {
    hide IsSystemRun, Apart, AllSettled, AllAhead, Sound, KeysDistinct;
    RunIsInTouch(left, right, run, turns, n, fromLeft);
    var x, y := SideOf(run[n], fromLeft), SideOf(run[n], !fromLeft);
    assert KnownRelease(y.history.log[i], x.messages);
    k :| 0 <= k < |x.messages| && ReleasedAs(x.messages[k]) == y.history.log[i];
  }

  /** Acknowledged means delivered exactly once: in every run over a network that drops, duplicates and reorders,
      once all packets of an unordered, unsequenced message have left the pending table by acknowledgement, the
      peer has handed it over exactly once with its original bytes. The sending side must start above 0. */
  lemma AcknowledgedMeansDeliveredOnce(left: SessionOptions, right: SessionOptions, run: seq<System>, turns: seq<Turn>,
                                       n: nat, fromLeft: bool, k: nat)
    requires IsSystemRun(left, right, run, turns) && n < |run| && OptionsOf(left, right, fromLeft).initialSequence > 0
    requires var x := SideOf(run[n], fromLeft);
      && k < |x.messages| && ModeOf(x.messages[k]) == Plain && FullyAcknowledged(x, k) && KeysDistinct(x.messages)
    ensures var x := SideOf(run[n], fromLeft); k < |x.payloads| && DeliveredOnce(x, SideOf(run[n], !fromLeft), k)
  {
    hide IsSystemRun, DeliveredOnce, KeysDistinct, FullyAcknowledged, Complete, Fate;
    var x, y := SideOf(run[n], fromLeft), SideOf(run[n], !fromLeft);
    NoSilentLoss(left, right, run, turns, n, fromLeft);
    RunIsInTouch(left, right, run, turns, n, fromLeft);
    hide InTouch;
    AcknowledgedIsComplete(x, k, y.history.state.receiver.received);
    EveryMessageIsAccountedFor(left, right, run, turns, n, fromLeft, k);
    PlainFate(x.messages, k, y.history.state.receiver, y.history.log);
    HandedIsDeliveredOnce(x, y, k);
  }

  lemma PlainFate(messages: seq<Message>, k: nat, r: Receiver, log: seq<Release>)
    requires k < |messages| && ModeOf(messages[k]) == Plain && Fate(messages, k, r, log)
    requires Complete(messages[k], r.received)
    ensures Handed(messages[k], log)
  {
  }

  /** Nothing that arrived is unaccounted for: at every moment of every run over a network that drops, duplicates and
      reorders, every message of one side has met the fate its mode and its arrived packets prescribe. */
  lemma EveryMessageIsAccountedFor(left: SessionOptions, right: SessionOptions, run: seq<System>, turns: seq<Turn>,
                                   n: nat, fromLeft: bool, k: nat)
    requires IsSystemRun(left, right, run, turns) && n < |run|
    requires k < |SideOf(run[n], fromLeft).messages| && KeysDistinct(SideOf(run[n], fromLeft).messages)
    ensures var x, y := SideOf(run[n], fromLeft), SideOf(run[n], !fromLeft);
      Fate(x.messages, k, y.history.state.receiver, y.history.log)
  {
    hide IsSystemRun, Apart, LogKnown, Settled, ChainTo, RisesTo, Ahead, Complete, OrderedFate;
    RunIsInTouch(left, right, run, turns, n, fromLeft);
    var x, y := SideOf(run[n], fromLeft), SideOf(run[n], !fromLeft);
    var r, log := y.history.state.receiver, y.history.log;
    var m := x.messages[k];
    assert Settled(m, r, log) && ChainTo(r, log, m.channelId) && RisesTo(r, log, m.channelId) && Ahead(r, m.channelId);
    if m.ordered {
      OrderedMeetsFate(x.messages, k, r, log);
    } else {
      UnorderedMeetsFate(x.messages, k, r, log);
    }
  }

  /** What an ordered channel has handed over is one block of consecutive messages, byte for byte, in the order sent,
      none skipped and none twice; it reaches to the cursor, and the message that would continue it, if it was sent,
      has not arrived completely. */
  lemma OrderedReleasesAreABlock(left: SessionOptions, right: SessionOptions, run: seq<System>, turns: seq<Turn>,
                                 n: nat, fromLeft: bool, channel: ChannelId)
    returns (from: nat)
    requires IsSystemRun(left, right, run, turns) && n < |run|
    requires KeysDistinct(SideOf(run[n], fromLeft).messages)
    ensures var x, y := SideOf(run[n], fromLeft), SideOf(run[n], !fromLeft);
      var xs, r := OnChannel(y.history.log, InOrder, channel), y.history.state.receiver;
      && IsBlock(xs, x.messages, from, channel)
      && (xs != [] ==> channel in r.cursors && End(x.messages[from + |xs| - 1]) == r.cursors[channel])
      && (forall k :: 0 <= k < |x.messages| && x.messages[k].ordered && x.messages[k].channelId == channel
                      && channel in r.cursors && x.messages[k].base == r.cursors[channel]
                      ==> !Complete(x.messages[k], r.received))
  {
    hide IsSystemRun, OnChannel, Apart, LogKnown, Settled, RisesTo, Ahead, Complete;
    RunIsInTouch(left, right, run, turns, n, fromLeft);
    var x, y := SideOf(run[n], fromLeft), SideOf(run[n], !fromLeft);
    var r, log := y.history.state.receiver, y.history.log;
    var xs := OnChannel(log, InOrder, channel);
    assert ChainTo(r, log, channel) && Ahead(r, channel);
    from := ChainIsBlock(x.messages, r, log, channel);
    if xs != [] {
      ChainLinks(xs, channel, xs[0].frame.sequence, r.cursors[channel], |xs| - 1);
      assert InBlock(xs, x.messages, from, channel, |xs| - 1);
      ReleaseEnds(x.messages[from + |xs| - 1]);
    }
    forall k | 0 <= k < |x.messages| && x.messages[k].ordered && x.messages[k].channelId == channel
               && channel in r.cursors && x.messages[k].base == r.cursors[channel]
      ensures !Complete(x.messages[k], r.received)
    {
      OrderedMeetsFate(x.messages, k, r, log);
    }
  }

  /** Ordered delivery between two endpoints: messages sent in order on a channel under contiguous numbers, from where
      the channel began, have been handed over exactly up to the first that has not arrived completely. */
  lemma OrderedChannelReleasesPrefix(left: SessionOptions, right: SessionOptions, run: seq<System>, turns: seq<Turn>,
                                     n: nat, fromLeft: bool, channel: ChannelId, from: nat, to: nat)
    requires IsSystemRun(left, right, run, turns) && n < |run|
    requires KeysDistinct(SideOf(run[n], fromLeft).messages)
    requires var x, y := SideOf(run[n], fromLeft), SideOf(run[n], !fromLeft);
      StartsSequence(x.messages, from, to, channel, y.history.state.receiver, y.history.log)
    ensures var x, y := SideOf(run[n], fromLeft), SideOf(run[n], !fromLeft);
      var xs, msgs := OnChannel(y.history.log, InOrder, channel), x.messages[from..to];
      var p := Prefix(msgs, y.history.state.receiver.received, 0);
      p == Min(|xs|, |msgs|) && xs[..p] == ReleasesOfFirst(msgs, p)
  {
    hide IsSystemRun, OnChannel, Apart, LogKnown, AllSettled, StartsSequence, ChainTo, Rises, Ahead, Prefix;
    RunIsInTouch(left, right, run, turns, n, fromLeft);
    var x, y := SideOf(run[n], fromLeft), SideOf(run[n], !fromLeft);
    SequenceReleasesPrefix(x.messages, from, to, channel, y.history.state.receiver, y.history.log);
  }

  /** Once every packet of such a sequence has left the sender's pending table by acknowledgement, the peer has handed
      over all its messages in the order sent, byte for byte, each of them once and no more. */
  lemma AcknowledgedSequenceIsDelivered(left: SessionOptions, right: SessionOptions, run: seq<System>,
                                        turns: seq<Turn>, n: nat, fromLeft: bool, channel: ChannelId, from: nat,
                                        to: nat)
    requires IsSystemRun(left, right, run, turns) && n < |run| && OptionsOf(left, right, fromLeft).initialSequence > 0
    requires KeysDistinct(SideOf(run[n], fromLeft).messages)
    requires var x, y := SideOf(run[n], fromLeft), SideOf(run[n], !fromLeft);
      && StartsSequence(x.messages, from, to, channel, y.history.state.receiver, y.history.log)
      && forall k :: from <= k < to ==> FullyAcknowledged(x, k)
    ensures var x, y := SideOf(run[n], fromLeft), SideOf(run[n], !fromLeft);
      && ReleasesOfFirst(x.messages[from..to], to - from) <= OnChannel(y.history.log, InOrder, channel)
      && EachDeliveredOnce(x, y, from, to)
  {
    hide IsSystemRun, InTouch, Complete, FullyAcknowledged, ReleasesOfFirst, KeysDistinct, StartedAt,
      EachDeliveredOnce, OnChannel;
    NoSilentLoss(left, right, run, turns, n, fromLeft);
    RunIsInTouch(left, right, run, turns, n, fromLeft);
    var x, y := SideOf(run[n], fromLeft), SideOf(run[n], !fromLeft);
    forall k | from <= k < to ensures Complete(x.messages[k], y.history.state.receiver.received) {
      AcknowledgedIsComplete(x, k, y.history.state.receiver.received);
    }
    CompleteSequenceIsDelivered(x, y, channel, from, to);
  }

  /** Where ordered delivery on a channel begins: at one turn of the run, a packet that completes an ordered
      message gives the channel its cursor, and it begins at that message, or at the number after the highest one the
      receiver took before, if that is lower. Nothing moves it later. */
  lemma {:induction false} WhereAChannelBegins(left: SessionOptions, right: SessionOptions, run: seq<System>,
                                               turns: seq<Turn>, n: nat, fromLeft: bool, channel: ChannelId)
    returns (t: nat, k: nat)
    requires IsSystemRun(left, right, run, turns) && n < |run|
    requires KeysDistinct(SideOf(run[n], fromLeft).messages) && channel in ReceiverOf(run[n], !fromLeft).cursors
    ensures t < n && k < |SideOf(run[n], fromLeft).messages|
    ensures var m := SideOf(run[n], fromLeft).messages[k];
      && BeginsAt(run, turns, t, fromLeft, channel, m)
      && StartedAt(ReceiverOf(run[n], !fromLeft), SideOf(run[n], !fromLeft).history.log, channel)
           == Min(Expected(ReceiverOf(run[t], !fromLeft), turns[t].op.packet), m.base)
  {
    hide Takes, KeysDistinct, StartedAt, BeginsAt, Expected, CanStep, Step, Deliverable, Sound, Apart, LogKnown,
      AllSettled, AllAhead, PayloadsMatch;
    if n > 0 {
      TurnAdds(run[n - 1], turns[n - 1], run[n], fromLeft);
      FewerMessagesKeepKeys(SideOf(run[n - 1], fromLeft).messages, SideOf(run[n], fromLeft).messages);
      if channel in ReceiverOf(run[n - 1], !fromLeft).cursors {
        t, k := WhereAChannelBegins(left, right, run, turns, n - 1, fromLeft, channel);
        RunIsInTouch(left, right, run, turns, n - 1, fromLeft);
        TurnKeepsStart(run[n - 1], turns[n - 1], run[n], fromLeft, channel);
        assert SideOf(run[n], fromLeft).messages[k] == SideOf(run[n - 1], fromLeft).messages[k];
      } else {
        t := n - 1;
        k := TurnBeginsChannel(left, right, run, turns, t, fromLeft, channel);
      }
    }
  }

  /** Message k gives a channel its cursor at receiver r: the guess is the base of the first message. */
  ghost predicate BeginsAtFirst(r: Receiver, k: nat, first: nat, base: u32) {
    || (k == first && (r.highest.None? || r.highest.value + 1 >= base))
    || (r.highest.Some? && r.highest.value + 1 == base)
  }

  /** When a channel begins at the first ordered message sent on it, as the theorems on whole sequences need: exactly
      if that message completed first and the receiver had taken nothing, or a number not below the one before it; or
      if, whatever message completed first, the highest number taken before was the one before the first message. */
  lemma BeginsAtTheFirstMessage(left: SessionOptions, right: SessionOptions, run: seq<System>, turns: seq<Turn>,
                                n: nat, fromLeft: bool, channel: ChannelId, first: nat)
    returns (t: nat, k: nat)
    requires IsSystemRun(left, right, run, turns) && n < |run|
    requires KeysDistinct(SideOf(run[n], fromLeft).messages) && channel in ReceiverOf(run[n], !fromLeft).cursors
    requires var messages := SideOf(run[n], fromLeft).messages;
      && first < |messages| && messages[first].ordered && messages[first].channelId == channel
      && forall j :: 0 <= j < first ==> !(messages[j].ordered && messages[j].channelId == channel)
    ensures t < n && k < |SideOf(run[n], fromLeft).messages|
    ensures BeginsAt(run, turns, t, fromLeft, channel, SideOf(run[n], fromLeft).messages[k])
    ensures var start := StartedAt(ReceiverOf(run[n], !fromLeft), SideOf(run[n], !fromLeft).history.log, channel);
      var base := SideOf(run[n], fromLeft).messages[first].base;
      start == base <==> BeginsAtFirst(ReceiverOf(run[t], !fromLeft), k, first, base)
  {
    hide IsSystemRun, KeysDistinct, StartedAt, Sound, AllSettled, AllAhead, LogKnown, PayloadsMatch, Complete;
    t, k := WhereAChannelBegins(left, right, run, turns, n, fromLeft, channel);
    RunIsInTouch(left, right, run, turns, n, fromLeft);
    var messages := SideOf(run[n], fromLeft).messages;
    assert k >= first;
    if k > first { assert Precedes(messages, first, k) && WellFormed(messages[first]); }
  }
}
