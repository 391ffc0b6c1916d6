/** What becomes of every message in the two-endpoint system, as an invariant of its runs: each one that arrived
    completely is handed over, held behind a gap, overtaken, or behind its channel's cursor. */
module SystemDelivery {
  import opened Prelude
  import opened Packets
  import opened Receivers
  import opened Protocol
  import opened Histories
  import opened HostileReceiver
  import opened DeliveryOrder
  import opened ReceiverRuns
  import opened SenderRuns
  import opened Reassembly
  import opened OrderedRefinement
  import opened TwoEndpoints
  import opened PeerMessages

  // ---- What can become of a message

  /** The message was handed over. */
  ghost predicate Handed(m: Message, log: seq<Release>) {
    ReleasedAs(m) in log
  }

  /** It waits in its channel's reorder buffer. */
  ghost predicate Held(m: Message, r: Receiver) {
    m.ordered && m.base in BufferOf(r, m.channelId)
  }

  /** Its latest-wins channel has moved beyond it. */
  ghost predicate Overtaken(m: Message, r: Receiver) {
    m.channelId in r.newest && m.base < r.newest[m.channelId]
  }

  // ---- The invariant

  /** Where a complete message can be. */
  ghost predicate Accounted(m: Message, r: Receiver, log: seq<Release>) {
    match ModeOf(m)
    case Plain => Handed(m, log)
    case Latest => Handed(m, log) || Overtaken(m, r)
    case InOrder => m.channelId in r.cursors && (m.base >= r.cursors[m.channelId] ==> Held(m, r))
  }

  /** A complete message is accounted for, and only complete messages are held or handed over. */
  ghost predicate Settled(m: Message, r: Receiver, log: seq<Release>) {
    && (Complete(m, r.received) ==> Accounted(m, r, log))
    && (Handed(m, log) || Held(m, r) ==> Complete(m, r.received))
  }

  ghost predicate AllSettled(messages: seq<Message>, r: Receiver, log: seq<Release>) {
    forall k :: 0 <= k < |messages| ==> Settled(messages[k], r, log)
  }

  lemma ReleaseEnds(m: Message)
    ensures ReleasedAs(m).frame.sequence == m.base && ReleasedAs(m).next == End(m)
  {
  }

  // ---- Delivering one complete message

  lemma SameBaseSameMessage(messages: seq<Message>, j: nat, k: nat)
    requires Apart(messages) && j < |messages| && k < |messages| && messages[j].base == messages[k].base
    ensures j == k
  {
    if j != k { OnlyOneMessageOwns(messages, k, j, messages[k].base); }
  }

  /** Every other message stays settled when one is delivered in order. */
  lemma OrderedKeepsOther(r: Receiver, log: seq<Release>, messages: seq<Message>, k: nat, expected: nat, j: nat)
    requires Apart(messages) && k < |messages| && j < |messages| && j != k
    requires messages[k].ordered && ShapedOrder(r.cursors, r.reorder) && Settled(messages[j], r, log)
    ensures var (r', releases) := DeliverOrdered(r, ReadyOf(messages[k]), expected);
      Settled(messages[j], r', log + releases)
  {
    var m, ready := messages[j], ReadyOf(messages[k]);
    assert WellFormed(messages[k]);
    DeliveryMoves(r, ready, expected);
    DeliveryIsOnChannel(r, ready, expected);
    if m.base == messages[k].base { SameBaseSameMessage(messages, j, k); }
    hide DeliverOrdered, Complete, Apart, ShapedOrder, WellFormed, Concat;
    var (r', releases) := DeliverOrdered(r, ready, expected);
    if ReleasedAs(m) in releases { assert Held(m, r); }
  }

  /** A complete message delivered in order is settled, and so is every other message. */
  lemma OrderedSettles(r: Receiver, log: seq<Release>, messages: seq<Message>, k: nat, expected: nat)
    requires Apart(messages) && k < |messages| && messages[k].ordered && ShapedOrder(r.cursors, r.reorder)
    requires Complete(messages[k], r.received)
    requires forall j :: 0 <= j < |messages| && j != k ==> Settled(messages[j], r, log)
    ensures var (r', releases) := DeliverOrdered(r, ReadyOf(messages[k]), expected);
      AllSettled(messages, r', log + releases)
  {
    assert WellFormed(messages[k]);
    DeliveryMoves(r, ReadyOf(messages[k]), expected);
    DeliveryIsOnChannel(r, ReadyOf(messages[k]), expected);
    hide DeliverOrdered, Complete, Apart, ShapedOrder, WellFormed, Concat;
    var (r', releases) := DeliverOrdered(r, ReadyOf(messages[k]), expected);
    forall j | 0 <= j < |messages| ensures Settled(messages[j], r', log + releases) {
      if j != k { OrderedKeepsOther(r, log, messages, k, expected, j); }
    }
  }

  /** The same for a message that is handed over unordered, or dropped as overtaken. */
  lemma UnorderedSettles(r: Receiver, log: seq<Release>, messages: seq<Message>, k: nat, expected: nat)
    requires Apart(messages) && k < |messages| && !messages[k].ordered
    requires Complete(messages[k], r.received)
    requires forall j :: 0 <= j < |messages| && j != k ==> Settled(messages[j], r, log)
    ensures var (r', releases) := Dispatch(r, ReadyOf(messages[k]), messages[k].sequenced, expected);
      AllSettled(messages, r', log + releases)
  {
    var (r', releases) := Dispatch(r, ReadyOf(messages[k]), messages[k].sequenced, expected);
    hide Complete, Apart, Concat;
    forall j | 0 <= j < |messages| ensures Settled(messages[j], r', log + releases) {
      if j != k && ReleasedAs(messages[j]) in releases { SameBaseSameMessage(messages, j, k); }
    }
  }

  // ---- What is held is ahead of its channel's cursor

  ghost predicate Ahead(r: Receiver, channel: ChannelId) {
    forall q :: q in BufferOf(r, channel) ==> channel in r.cursors && r.cursors[channel] < q
  }

  ghost predicate AllAhead(r: Receiver) {
    forall c :: Ahead(r, c)
  }

  lemma {:induction false} DrainRemoves(buffer: ReorderBuffer, next: nat)
    requires forall q :: q in buffer ==> buffer[q].frame.sequence == q
    ensures var (rest, cursor, releases) := Drain(buffer, next);
      && rest.Keys <= buffer.Keys
      && forall x :: x in releases ==> x.frame.sequence !in rest
    decreases |buffer|
  {
    if next in buffer { DrainRemoves(buffer - {next}, buffer[next].next); }
  }

  /** A chain leaves no number between its ends uncovered. */
  lemma {:induction false} ChainCovers(xs: seq<Release>, channel: ChannelId, start: nat, end: nat, q: nat)
    returns (i: nat)
    requires ChainFrom(xs, channel, start, end) && start <= q < end
    ensures i < |xs| && xs[i].frame.sequence <= q < xs[i].next
  {
    if q < xs[0].next {
      i := 0;
    } else {
      i := ChainCovers(xs[1..], channel, xs[0].next, end, q);
      i := i + 1;
    }
  }

  /** A number inside a released message that begins another message begins the released one. */
  lemma CoveredBaseIsReleased(messages: seq<Message>, x: Release, k: nat)
    requires Apart(messages) && KnownRelease(x, messages) && k < |messages|
    requires x.frame.sequence <= messages[k].base < x.next
    ensures x == ReleasedAs(messages[k])
  {
    var j :| 0 <= j < |messages| && ReleasedAs(messages[j]) == x;
    assert WellFormed(messages[k]);
    if j != k { OnlyOneMessageOwns(messages, j, k, messages[k].base); }
  }

  /** A chain of known messages steps over no held message. */
  lemma ChainStepsOverNothing(messages: seq<Message>, releases: seq<Release>, channel: ChannelId, start: nat, end: nat,
                              held: PendingOrdered, q: u32)
    requires Apart(messages) && LogKnown(releases, messages) && ChainFrom(releases, channel, start, end)
    requires KnownHeld(channel, q, held, messages) && start <= q < end
    ensures exists x :: x in releases && x.frame.sequence == q
  {
    var i := ChainCovers(releases, channel, start, end, q);
    var k :| 0 <= k < |messages| && messages[k].ordered && messages[k].channelId == channel
             && messages[k].base == q && HeldEntry(messages[k]) == held;
    hide ChainFrom, Apart, KnownRelease;
    CoveredBaseIsReleased(messages, releases[i], k);
    ReleaseEnds(messages[k]);
    assert releases[i] in releases;
  }

  /** Draining steps over nothing it leaves behind. */
  lemma DrainStaysBehind(channel: ChannelId, buffer: ReorderBuffer, next: nat, messages: seq<Message>, q: u32)
    requires Apart(messages) && ShapedReorder(channel, buffer) && BufferKnown(channel, buffer, messages)
    requires q in Drain(buffer, next).0 && next <= q
    ensures Drain(buffer, next).1 < q
  {
    hide Drain, ChainFrom, Apart, LogKnown, KnownHeld;
    var (rest, cursor, releases) := Drain(buffer, next);
    assert q in buffer && cursor != q && forall x :: x in releases ==> x.frame.sequence != q by {
      DrainRemoves(buffer, next);
      DrainIsChain(channel, buffer, next);
    }
    if q < cursor {
      DrainIsChain(channel, buffer, next);
      DrainIsKnown(channel, buffer, next, messages);
      assert KnownHeld(channel, q, buffer[q], messages);
      hide ShapedReorder, BufferKnown;
      ChainStepsOverNothing(messages, releases, channel, next, cursor, buffer[q], q);
    }
  }

  lemma OrderedKeepsAhead(r: Receiver, messages: seq<Message>, k: nat, expected: nat)
    requires Apart(messages) && k < |messages| && messages[k].ordered && ShapedOrder(r.cursors, r.reorder)
    requires ReorderKnown(r.reorder, messages) && AllAhead(r)
    ensures AllAhead(DeliverOrdered(r, ReadyOf(messages[k]), expected).0)
  {
    var m, ready := messages[k], ReadyOf(messages[k]);
    var c := m.channelId;
    assert WellFormed(m);
    DeliveryMoves(r, ready, expected);
    DeliveryIsOnChannel(r, ready, expected);
    var r' := DeliverOrdered(r, ready, expected).0;
    forall d ensures Ahead(r', d) {
      assert Ahead(r, d);
      if d == c {
        OrderedKeepsChannelAhead(r, messages, k, expected);
      } else {
        hide DeliverOrdered, ReadyOf;
        assert BufferOf(r', d) == BufferOf(r, d);
      }
    }
  }

  /** On the channel of the frame: whatever is still held is ahead of the new cursor. */
  lemma OrderedKeepsChannelAhead(r: Receiver, messages: seq<Message>, k: nat, expected: nat)
    requires Apart(messages) && k < |messages| && messages[k].ordered && ShapedOrder(r.cursors, r.reorder)
    requires ReorderKnown(r.reorder, messages) && Ahead(r, messages[k].channelId)
    ensures Ahead(DeliverOrdered(r, ReadyOf(messages[k]), expected).0, messages[k].channelId)
  {
    var m, ready := messages[k], ReadyOf(messages[k]);
    var c, buffer := m.channelId, BufferOf(r, m.channelId);
    assert ShapedReorder(c, buffer) && BufferKnown(c, buffer, messages) && WellFormed(m);
    var r' := DeliverOrdered(r, ready, expected).0;
    DrainRemoves(buffer, End(m));
    hide Drain, ShapedOrder, ShapedReorder, BufferKnown, Apart, Concat;
    if m.base == CursorOr(r, c, expected, m.base) {
      var (rest, cursor, releases) := Drain(buffer, End(m));
      assert r'.cursors[c] == cursor;
      forall q | q in BufferOf(r', c) ensures cursor < q {
        assert q in rest && q in buffer && m.base < q;
        HeldIsOutside(messages, k, c, buffer, q);
        DrainStaysBehind(c, buffer, End(m), messages, q);
      }
    }
  }

  /** What is held beyond the start of a message is beyond its end. */
  lemma HeldIsOutside(messages: seq<Message>, k: nat, channel: ChannelId, buffer: ReorderBuffer, q: u32)
    requires Apart(messages) && k < |messages| && BufferKnown(channel, buffer, messages) && q in buffer
    requires messages[k].base < q
    ensures End(messages[k]) <= q
  {
    assert KnownHeld(channel, q, buffer[q], messages);
    var j :| 0 <= j < |messages| && messages[j].ordered && messages[j].channelId == channel
             && messages[j].base == q && HeldEntry(messages[j]) == buffer[q];
    assert WellFormed(messages[j]);
    if q < End(messages[k]) { OnlyOneMessageOwns(messages, k, j, q); }
  }

  // ---- Receiving one packet

  lemma OutsideKeepsSettled(messages: seq<Message>, r: Receiver, log: seq<Release>, q: u32, j: nat)
    requires j < |messages| && Settled(messages[j], r, log) && !Inside(messages[j], q)
    ensures Settled(messages[j], Remember(r, q), log)
  {
    OutsideNumberKeepsComplete(messages[j], r.received, q);
    hide Complete, Concat;
  }

  /** Only the received numbers, cursors, reorder buffers and newest numbers settle a message. */
  lemma SettledIgnoresFragments(m: Message, r: Receiver, log: seq<Release>, fragments: map<FragmentKey, FragmentBuffer>)
    requires Settled(m, r, log)
    ensures Settled(m, r.(fragments := fragments), log)
  {
  }

  lemma PartKeepsSettled(messages: seq<Message>, r: Receiver, log: seq<Release>, p: Packet, k: nat, i: nat)
    requires Apart(messages) && BuffersMatch(r.fragments, messages, r.received) && AllSettled(messages, r, log)
    requires ShapedOrder(r.cursors, r.reorder)
    requires k < |messages| && IsPart(p, messages[k], i) && p.sequence !in r.received
    ensures var (r', outcome) := Intake(r, p); AllSettled(messages, r', log + ReleasesOf(outcome))
  {
    hide Reassemble, BuffersMatch, Apart, ReadyOf, Dispatch, Settled, ShapedOrder;
    var m := messages[k];
    PartArrives(r.fragments, messages, r.received, p, k, i);
    var received' := r.received + {p.sequence};
    var (fragments, outcome) := Reassemble(r.fragments, p);
    var reassembled := Remember(r, p.sequence).(fragments := fragments);
    assert log + [] == log;
    forall j | 0 <= j < |messages| && j != k ensures Settled(messages[j], reassembled, log) {
      OnlyOneMessageOwns(messages, k, j, p.sequence);
      OutsideKeepsSettled(messages, r, log, p.sequence, j);
      SettledIgnoresFragments(messages[j], Remember(r, p.sequence), log, fragments);
    }
    if Complete(m, received') {
      if m.ordered {
        OrderedSettles(reassembled, log, messages, k, Expected(r, p));
        DispatchesInOrder(reassembled, m, Expected(r, p));
      } else {
        UnorderedSettles(reassembled, log, messages, k, Expected(r, p));
      }
    } else {
      IncompleteIsSettled(m, r, reassembled, log);
    }
  }

  lemma DispatchesInOrder(r: Receiver, m: Message, expected: nat)
    requires m.ordered
    ensures Dispatch(r, ReadyOf(m), m.sequenced, expected) == DeliverOrdered(r, ReadyOf(m), expected)
  {
  }

  lemma IncompleteIsSettled(m: Message, r: Receiver, r': Receiver, log: seq<Release>)
    requires Settled(m, r, log) && !Complete(m, r.received) && !Complete(m, r'.received) && r'.reorder == r.reorder
    ensures Settled(m, r', log)
  {
  }

  /** Any packet the peer put on the wire, at any time and however often, leaves every message settled. */
  lemma IntakeKeepsSettled(messages: seq<Message>, wire: set<Packet>, r: Receiver, log: seq<Release>, p: Packet)
    requires Apart(messages) && Partitioned(wire, messages) && p in wire
    requires BuffersMatch(r.fragments, messages, r.received) && AllSettled(messages, r, log)
    requires ShapedOrder(r.cursors, r.reorder)
    ensures var (r', outcome) := Intake(r, p); AllSettled(messages, r', log + ReleasesOf(outcome))
  {
    assert log + [] == log;
    hide Apart, Settled, BuffersMatch, ShapedOrder;
    if p.packetType == Data {
      assert OfSomeMessage(p, messages);
      var k :| 0 <= k < |messages| && Inside(messages[k], p.sequence);
      assert PartIfInside(p, messages[k]);
      if p.sequence in r.received {
        assert r.received + {p.sequence} == r.received;
        RepeatKeepsSettled(messages, r, log, p.sequence);
      } else {
        PartKeepsSettled(messages, r, log, p, k, p.sequence - messages[k].base);
      }
    } else {
      ControlIsOutside(messages, wire, p);
      ControlKeepsSettled(messages, r, log, p.sequence);
    }
  }

  lemma RepeatKeepsSettled(messages: seq<Message>, r: Receiver, log: seq<Release>, q: u32)
    requires AllSettled(messages, r, log) && q in r.received
    ensures AllSettled(messages, Remember(r, q), log)
  {
    assert r.received + {q} == r.received;
  }

  lemma ControlKeepsSettled(messages: seq<Message>, r: Receiver, log: seq<Release>, q: u32)
    requires AllSettled(messages, r, log)
    requires forall k :: 0 <= k < |messages| ==> !Inside(messages[k], q)
    ensures AllSettled(messages, Remember(r, q), log)
  {
    hide Settled;
    forall j | 0 <= j < |messages| ensures Settled(messages[j], Remember(r, q), log) {
      OutsideKeepsSettled(messages, r, log, q, j);
    }
  }

  lemma SameOrderStaysAhead(r: Receiver, r': Receiver)
    requires AllAhead(r) && r'.cursors == r.cursors && r'.reorder == r.reorder
    ensures AllAhead(r')
  {
    forall c ensures Ahead(r', c) { assert Ahead(r, c) && BufferOf(r', c) == BufferOf(r, c); }
  }

  lemma PartKeepsAhead(messages: seq<Message>, r: Receiver, p: Packet, k: nat, i: nat)
    requires Apart(messages) && BuffersMatch(r.fragments, messages, r.received)
    requires ShapedOrder(r.cursors, r.reorder) && ReorderKnown(r.reorder, messages) && AllAhead(r)
    requires k < |messages| && IsPart(p, messages[k], i) && p.sequence !in r.received
    ensures AllAhead(Intake(r, p).0)
  {
    hide Reassemble, BuffersMatch, Apart, ReadyOf, DeliverOrdered, ShapedOrder, ReorderKnown, AllAhead, Complete;
    PartArrives(r.fragments, messages, r.received, p, k, i);
    var reassembled := Remember(r, p.sequence).(fragments := Reassemble(r.fragments, p).0);
    SameOrderStaysAhead(r, reassembled);
    if Complete(messages[k], r.received + {p.sequence}) {
      if messages[k].ordered {
        OrderedKeepsAhead(reassembled, messages, k, Expected(r, p));
        DispatchesInOrder(reassembled, messages[k], Expected(r, p));
      } else {
        UnorderedKeepsOrder(reassembled, messages[k], Expected(r, p));
        SameOrderStaysAhead(reassembled,
                            Dispatch(reassembled, ReadyOf(messages[k]), messages[k].sequenced, Expected(r, p)).0);
      }
    }
  }

  lemma UnorderedKeepsOrder(r: Receiver, m: Message, expected: nat)
    requires !m.ordered
    ensures var r' := Dispatch(r, ReadyOf(m), m.sequenced, expected).0;
      r'.cursors == r.cursors && r'.reorder == r.reorder
  {
  }

  lemma IntakeKeepsAhead(messages: seq<Message>, wire: set<Packet>, r: Receiver, p: Packet)
    requires Apart(messages) && Partitioned(wire, messages) && p in wire
    requires BuffersMatch(r.fragments, messages, r.received)
    requires ShapedOrder(r.cursors, r.reorder) && ReorderKnown(r.reorder, messages) && AllAhead(r)
    ensures AllAhead(Intake(r, p).0)
  {
    hide Apart, BuffersMatch, ShapedOrder, ReorderKnown, AllAhead;
    if p.packetType == Data && p.sequence !in r.received {
      assert OfSomeMessage(p, messages);
      var k :| 0 <= k < |messages| && Inside(messages[k], p.sequence);
      assert PartIfInside(p, messages[k]);
      PartKeepsAhead(messages, r, p, k, p.sequence - messages[k].base);
    } else {
      SameOrderStaysAhead(r, Remember(r, p.sequence));
    }
  }

  // ---- Runs

  ghost predicate Settles(x: Side, y: Side) {
    KeysDistinct(x.messages) ==>
      AllSettled(x.messages, y.history.state.receiver, y.history.log) && AllAhead(y.history.state.receiver)
  }

  /** A message just sent is neither complete nor held nor handed over. */
  lemma PostingKeepsSettled(messages: seq<Message>, m: Message, r: Receiver, log: seq<Release>)
    requires AllSettled(messages, r, log) && Apart(messages + [m])
    requires ReorderKnown(r.reorder, messages) && LogKnown(log, messages)
    requires forall q :: q in r.received ==> q < m.base
    ensures AllSettled(messages + [m], r, log)
  {
    var all := messages + [m];
    assert WellFormed(all[|messages|]) && !Arrived(m, r.received, 0);
    hide Settled, HeldEntry, FrameOf, WellFormed;
    forall k | 0 <= k < |messages| ensures messages[k].base != m.base {
      if all[k].base == m.base { SameBaseSameMessage(all, k, |messages|); }
    }
    UnknownIsNotHanded(messages, m, log);
    UnknownIsNotHeld(messages, m, r);
    forall k | 0 <= k < |all| ensures Settled(all[k], r, log) {
      if k < |messages| { assert Settled(messages[k], r, log); } else { NewIsSettled(m, r, log); }
    }
  }

  lemma UnknownIsNotHanded(messages: seq<Message>, m: Message, log: seq<Release>)
    requires LogKnown(log, messages)
    requires forall k :: 0 <= k < |messages| ==> messages[k].base != m.base
    ensures !Handed(m, log)
  {
    forall i | 0 <= i < |log| ensures log[i] != ReleasedAs(m) {
      assert KnownRelease(log[i], messages);
      var k :| 0 <= k < |messages| && ReleasedAs(messages[k]) == log[i];
      ReleaseEnds(messages[k]);
      ReleaseEnds(m);
    }
  }

  lemma UnknownIsNotHeld(messages: seq<Message>, m: Message, r: Receiver)
    requires ReorderKnown(r.reorder, messages)
    requires forall k :: 0 <= k < |messages| ==> messages[k].base != m.base
    ensures !Held(m, r)
  {
    forall q | q in BufferOf(r, m.channelId) ensures q != m.base {
      assert KnownHeld(m.channelId, q, r.reorder[m.channelId][q], messages);
    }
  }

  lemma NewIsSettled(m: Message, r: Receiver, log: seq<Release>)
    requires !Complete(m, r.received) && !Handed(m, log) && !Held(m, r)
    ensures Settled(m, r, log)
  {
  }

  /** An operation of the receiving side: at most a packet of the peer arrives. */
  lemma StepKeepsSettled(messages: seq<Message>, wire: set<Packet>, s: State, log: seq<Release>, op: Op)
    requires CanStep(s, op) && !op.ResetPeer? && Deliverable(op, wire)
    requires Apart(messages) && Partitioned(wire, messages)
    requires BuffersMatch(s.receiver.fragments, messages, s.receiver.received)
    requires ReorderKnown(s.receiver.reorder, messages)
    requires ShapedOrder(s.receiver.cursors, s.receiver.reorder)
    requires AllSettled(messages, s.receiver, log) && AllAhead(s.receiver)
    ensures AllSettled(messages, Step(s, op).state.receiver, log + Step(s, op).released)
    ensures AllAhead(Step(s, op).state.receiver)
  {
    var r := s.receiver;
    StepOnReceiver(s, op);
    assert log + [] == log;
    hide Step, CanStep, Intake, Partitioned, Apart, AllSettled, ShapedOrder, BuffersMatch, AllAhead, ReorderKnown;
    match op
    case TakePacket(p, _) =>
      IntakeKeepsSettled(messages, wire, r, log, p);
      IntakeKeepsAhead(messages, wire, r, p);
    case AnswerDial(p, _, _) =>
      if WillAccept(s, p) {
        ControlIsOutside(messages, wire, p);
        ControlKeepsSettled(messages, r, log, p.sequence);
        SameOrderStaysAhead(r, Remember(r, p.sequence));
      }
    case _ =>
  }

  /** The receiving side acts in a run. */
  lemma ReceivingTurnSettles(left: SessionOptions, right: SessionOptions, run: seq<System>, turns: seq<Turn>, n: nat)
    requires IsSystemRun(left, right, run, turns) && n < |turns|
    requires var fromLeft := !turns[n].leftActs; Settles(SideOf(run[n], fromLeft), SideOf(run[n], !fromLeft))
    ensures var fromLeft := !turns[n].leftActs; Settles(SideOf(run[n + 1], fromLeft), SideOf(run[n + 1], !fromLeft))
  {
    var fromLeft, op := !turns[n].leftActs, turns[n].op;
    var x, y := SideOf(run[n], fromLeft), SideOf(run[n], !fromLeft);
    RunConveys(left, right, run, turns, n);
    RunIsLinked(left, right, run, turns, n);
    assert Takes(run[n], turns[n], run[n + 1]);
    hide IsSystemRun, KeysDistinct, AllSettled, AllAhead, Balanced, Numbered, Truthful, OnWire, Chains, Rises,
      UsedOnce, Knows, Partitioned, Placed, IdsFollow, BuffersMatch, KeysKnown, ReorderKnown, LogKnown, CanStep, Step,
      Transmitted, Posted, TrackedBy, AckedBy, ExpiredBy, ResendsBy, PayloadsMatch, ShapedOrder, ShapedFragments,
      Deliverable, Apart;
    if KeysDistinct(x.messages) {
      CataloguedIsApart(x);
      StepKeepsSettled(x.messages, x.out, y.history.state, y.history.log, op);
    }
  }

  /** The sending side acts in a run: at most it sends one more message. */
  lemma SendingTurnSettles(left: SessionOptions, right: SessionOptions, run: seq<System>, turns: seq<Turn>, n: nat)
    requires IsSystemRun(left, right, run, turns) && n < |turns|
    requires var fromLeft := turns[n].leftActs; Settles(SideOf(run[n], fromLeft), SideOf(run[n], !fromLeft))
    ensures var fromLeft := turns[n].leftActs; Settles(SideOf(run[n + 1], fromLeft), SideOf(run[n + 1], !fromLeft))
  {
    var fromLeft := turns[n].leftActs;
    var x, y, x' := SideOf(run[n], fromLeft), SideOf(run[n], !fromLeft), SideOf(run[n + 1], fromLeft);
    RunConveys(left, right, run, turns, n);
    RunConveys(left, right, run, turns, n + 1);
    RunIsLinked(left, right, run, turns, n);
    assert Takes(run[n], turns[n], run[n + 1]);
    hide IsSystemRun, Acts;
    PostedIsNext(x, y.out, turns[n].op, x');
    ReceivedIsBelow(y.history.state.receiver.received, x.out, x.history.state.sender.nextSequence);
    hide KeysDistinct, AllSettled, AllAhead, Balanced, Numbered, Truthful, OnWire, Sound, Partitioned, Placed,
      IdsFollow, BuffersMatch, KeysKnown, ReorderKnown, LogKnown, PayloadsMatch, Apart, ReceivedFrom, CatalogueOf;
    if x'.messages != x.messages && KeysDistinct(x'.messages) {
      var m := x'.messages[|x.messages|];
      FewerKeysAreDistinct(x.messages, m);
      CataloguedIsApart(x');
      PostingKeepsSettled(x.messages, m, y.history.state.receiver, y.history.log);
    }
  }

  lemma OpeningSettles(left: SessionOptions, right: SessionOptions)
    ensures Settles(Opening(left), Opening(right))
  {
  }

  lemma {:induction false} RunSettles(left: SessionOptions, right: SessionOptions, run: seq<System>, turns: seq<Turn>,
                                      n: nat)
    requires IsSystemRun(left, right, run, turns) && n < |run|
    ensures Settles(run[n].left, run[n].right) && Settles(run[n].right, run[n].left)
  {
    hide Takes, Settles;
    if n == 0 {
      OpeningSettles(left, right);
      OpeningSettles(right, left);
    } else {
      RunSettles(left, right, run, turns, n - 1);
      SendingTurnSettles(left, right, run, turns, n - 1);
      ReceivingTurnSettles(left, right, run, turns, n - 1);
    }
  }
}
