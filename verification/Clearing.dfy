/** When a pending packet can still be cleared by an acknowledgement: the window reaches 32 numbers below the highest
    one received, so past that only packets already on the wire can clear it, even if the packet was received. */
module Clearing {
  import opened Prelude
  import opened Packets
  import opened AckWindow
  import opened Receivers
  import opened Protocol
  import opened Histories
  import opened HostileReceiver
  import opened DeliveryOrder
  import opened ReceiverRuns
  import opened SenderRuns
  import opened TwoEndpoints

  /** The window of y has moved past q. */
  ghost predicate OutOfReach(y: Side, q: u32) {
    PastWindow(y.history.state.receiver, q)
  }

  ghost predicate PastWindow(r: Receiver, q: u32) {
    r.highest.Some? && r.highest.value > q + 32
  }

  // ---- No new packet acknowledges what is out of reach

  lemma FreshIsPastWindow(p: Packet, sequence: nat, r: Receiver, q: u32)
    requires IsFresh(p, sequence, r) && HighestOf(r.highest, r.received) && PastWindow(r, q)
    ensures q !in Acknowledged(p.ack, p.ackMask)
  {
    hide AckState, Acknowledged;
    WindowIsExact(r.highest, r.received);
  }

  lemma IntakeKeepsPastWindow(r: Receiver, p: Packet, q: u32)
    requires PastWindow(r, q)
    ensures PastWindow(Intake(r, p).0, q)
  {
    hide Reassemble, Drain;
  }

  lemma StepKeepsPastWindow(s: State, op: Op, q: u32)
    requires CanStep(s, op) && !op.ResetPeer? && PastWindow(s.receiver, q)
    ensures PastWindow(Step(s, op).state.receiver, q)
  {
    StepOnReceiver(s, op);
    if op.TakePacket? { IntakeKeepsPastWindow(s.receiver, op.packet, q); }
    hide Step, Intake;
  }

  /** Whatever y does, what it puts on the wire anew does not acknowledge q. */
  lemma ActingStaysOutOfReach(y: Side, wire: set<Packet>, op: Op, y': Side, q: u32)
    requires Acts(y, wire, op, y') && Honest(y) && Honest(y') && OutOfReach(y, q)
    ensures OutOfReach(y', q)
    ensures forall p :: p in y'.out && q in Acknowledged(p.ack, p.ackMask) ==> p in y.out
  {
    var s := y.history.state;
    hide Step, CanStep, Transmitted, AckedBy, Acts, Deliverable, Acknowledged, PastWindow, IsFresh, AckState, Numbered,
      Truthful, Books, UsedOnce, Chains, Rises, ShapedFragments, ShapedOrder;
    ActingChanges(y, wire, op, y');
    StepKeepsPastWindow(s, op, q);
    EmittedAreFresh(s, op);
    TransmittedIsKnown(s, op, y.out);
    var o := Step(s, op);
    forall p | p in o.emitted ensures q !in Acknowledged(p.ack, p.ackMask) {
      var i :| 0 <= i < |o.emitted| && o.emitted[i] == p;
      FreshIsPastWindow(p, s.sender.nextSequence + i, o.state.receiver, q);
    }
  }

  /** Once the window of a side has moved past q, every packet of its that acknowledges q is on the wire already. */
  lemma {:induction false} NothingNewAcknowledges(left: SessionOptions, right: SessionOptions, run: seq<System>,
                                                  turns: seq<Turn>, n: nat, m: nat, isLeft: bool, q: u32)
    requires IsSystemRun(left, right, run, turns) && n <= m < |run| && OutOfReach(SideOf(run[n], isLeft), q)
    ensures OutOfReach(SideOf(run[m], isLeft), q)
    ensures forall p :: p in SideOf(run[m], isLeft).out && q in Acknowledged(p.ack, p.ackMask) ==>
      p in SideOf(run[n], isLeft).out
    decreases m
  {
    hide Acts, Honest, Knows, OutOfReach, Acknowledged;
    if n < m {
      NothingNewAcknowledges(left, right, run, turns, n, m - 1, isLeft, q);
      RunIsLinked(left, right, run, turns, m - 1);
      RunIsLinked(left, right, run, turns, m);
      var s, turn := run[m - 1], turns[m - 1];
      assert Takes(s, turn, run[m]);
      if turn.leftActs == isLeft {
        ActingStaysOutOfReach(SideOf(s, isLeft), SideOf(s, !isLeft).out, turn.op, SideOf(run[m], isLeft), q);
      }
    }
  }

  // ---- What clears a packet

  /** p, received in this state, acknowledges q. */
  ghost predicate MayClear(s: State, p: Packet, q: u32) {
    p.connectionId == s.connectionId && CanReceive(s, p) && q in Acknowledged(p.ack, p.ackMask)
  }

  /** At turn t one side took a packet of the wire that acknowledged q. */
  ghost predicate ClearedAt(run: seq<System>, turns: seq<Turn>, t: nat, fromLeft: bool, wire: set<Packet>, q: u32) {
    && t < |turns| && t < |run| && turns[t].leftActs == fromLeft
    && turns[t].op.TakePacket? && turns[t].op.packet in wire
    && MayClear(SideOf(run[t], fromLeft).history.state, turns[t].op.packet, q)
  }

  /** What a turn acknowledges, it takes from the wire. */
  lemma TurnClears(s: System, turn: Turn, s': System, fromLeft: bool, q: u32)
    requires Takes(s, turn, s')
    requires q !in SideOf(s, fromLeft).history.acked && q in SideOf(s', fromLeft).history.acked
    ensures turn.leftActs == fromLeft && turn.op.TakePacket? && turn.op.packet in SideOf(s, !fromLeft).out
    ensures MayClear(SideOf(s, fromLeft).history.state, turn.op.packet, q)
  {
    hide Acts, Acknowledged, Step, Transmitted;
    ActingChanges(SideOf(s, turn.leftActs), SideOf(s, !turn.leftActs).out, turn.op, SideOf(s', turn.leftActs));
  }

  /** Past the window, only a packet that was on the wire then clears q. */
  lemma {:induction false} OnlyOldPacketsClear(left: SessionOptions, right: SessionOptions, run: seq<System>,
                                               turns: seq<Turn>, n: nat, m: nat, fromLeft: bool, q: u32)
    returns (t: nat)
    requires IsSystemRun(left, right, run, turns) && n <= m < |run|
    requires q in SideOf(run[n], fromLeft).history.state.sender.pending && OutOfReach(SideOf(run[n], !fromLeft), q)
    requires q in SideOf(run[m], fromLeft).history.acked
    ensures n <= t < m && ClearedAt(run, turns, t, fromLeft, SideOf(run[n], !fromLeft).out, q)
    decreases m
  {
    hide Takes, OutOfReach, ClearedAt, Opening;
    PendingIsNotAcked(left, right, run, turns, n, fromLeft, q);
    var t' := m - 1;
    if m > n && q in SideOf(run[t'], fromLeft).history.acked {
      t := OnlyOldPacketsClear(left, right, run, turns, n, t', fromLeft, q);
    } else {
      t := t';
      OldPacketClearsNow(left, right, run, turns, n, t, fromLeft, q);
    }
  }

  lemma OldPacketClearsNow(left: SessionOptions, right: SessionOptions, run: seq<System>, turns: seq<Turn>, n: nat,
                           t: nat, fromLeft: bool, q: u32)
    requires IsSystemRun(left, right, run, turns) && n <= t < |turns| && OutOfReach(SideOf(run[n], !fromLeft), q)
    requires q !in SideOf(run[t], fromLeft).history.acked && q in SideOf(run[t + 1], fromLeft).history.acked
    ensures ClearedAt(run, turns, t, fromLeft, SideOf(run[n], !fromLeft).out, q)
  {
    hide Takes, OutOfReach, Acknowledged, MayClear;
    assert Takes(run[t], turns[t], run[t + 1]);
    NothingNewAcknowledges(left, right, run, turns, n, t, !fromLeft, q);
    hide IsSystemRun;
    TurnClears(run[t], turns[t], run[t + 1], fromLeft, q);
    MayClearAcknowledges(SideOf(run[t], fromLeft).history.state, turns[t].op.packet, q);
  }

  lemma MayClearAcknowledges(s: State, p: Packet, q: u32)
    requires MayClear(s, p, q)
    ensures q in Acknowledged(p.ack, p.ackMask)
  {
  }

  lemma PendingIsNotAcked(left: SessionOptions, right: SessionOptions, run: seq<System>, turns: seq<Turn>, n: nat,
                          fromLeft: bool, q: u32)
    requires IsSystemRun(left, right, run, turns) && n < |run|
    requires q in SideOf(run[n], fromLeft).history.state.sender.pending
    ensures q !in SideOf(run[n], fromLeft).history.acked
  {
    RunIsLinked(left, right, run, turns, n);
    hide IsSystemRun, Sound, Numbered, Truthful, OnWire, Knows;
  }

  // ---- What stays on the books

  /** A turn forgets no tracked number, and hands numbers out in increasing order on one connection. */
  lemma TurnKeepsBooks(s: System, turn: Turn, s': System, isLeft: bool)
    requires Takes(s, turn, s') && Keyed(SideOf(s, isLeft).history.state.sender)
    ensures var x, x' := SideOf(s, isLeft).history, SideOf(s', isLeft).history;
      && x.tracked <= x'.tracked
      && x'.state.connectionId == x.state.connectionId
      && x.state.sender.nextSequence <= x'.state.sender.nextSequence
  {
    hide Step, CanStep, Transmitted, Posted, TrackedBy, AckedBy, ExpiredBy, ResendsBy, Deliverable, Keyed;
    var x := SideOf(s, turn.leftActs).history.state;
    if turn.leftActs == isLeft {
      EmittedNameTheConnection(x, turn.op);
      EmittedAreFresh(x, turn.op);
    }
  }

  lemma {:induction false} RunKeepsBooks(left: SessionOptions, right: SessionOptions, run: seq<System>,
                                         turns: seq<Turn>, n: nat, m: nat, isLeft: bool)
    requires IsSystemRun(left, right, run, turns) && n <= m < |run|
    ensures var x, x' := SideOf(run[n], isLeft).history, SideOf(run[m], isLeft).history;
      && x.tracked <= x'.tracked
      && x'.state.connectionId == x.state.connectionId
      && x.state.sender.nextSequence <= x'.state.sender.nextSequence
    decreases m
  {
    hide Takes, Linked;
    if n < m {
      RunKeepsBooks(left, right, run, turns, n, m - 1, isLeft);
      SideIsKeyed(left, right, run, turns, m - 1, isLeft);
      TurnKeepsBooks(run[m - 1], turns[m - 1], run[m], isLeft);
    }
  }

  lemma SideIsKeyed(left: SessionOptions, right: SessionOptions, run: seq<System>, turns: seq<Turn>, n: nat,
                    isLeft: bool)
    requires IsSystemRun(left, right, run, turns) && n < |run|
    ensures Keyed(SideOf(run[n], isLeft).history.state.sender)
    ensures var x := SideOf(run[n], isLeft).history;
      x.tracked == x.state.sender.pending.Keys + x.acked + x.expired
  {
    RunIsLinked(left, right, run, turns, n);
    hide IsSystemRun, Sound, Numbered, Truthful, OnWire, Knows, Keyed;
  }

  // ---- Main results

  /** What becomes of a pending packet the peer's window has moved past: it stays pending, expires, or is cleared by a
      packet that was on the wire at that moment. */
  lemma PastTheWindow(left: SessionOptions, right: SessionOptions, run: seq<System>, turns: seq<Turn>, n: nat, m: nat,
                      fromLeft: bool, q: u32)
    requires IsSystemRun(left, right, run, turns) && n <= m < |run|
    requires q in SideOf(run[n], fromLeft).history.state.sender.pending && OutOfReach(SideOf(run[n], !fromLeft), q)
    ensures var x', wire := SideOf(run[m], fromLeft).history, SideOf(run[n], !fromLeft).out;
      || q in x'.state.sender.pending
      || q in x'.expired
      || exists t :: n <= t < m && ClearedAt(run, turns, t, fromLeft, wire, q)
  {
    hide IsSystemRun, OutOfReach, ClearedAt;
    SideIsKeyed(left, right, run, turns, n, fromLeft);
    SideIsKeyed(left, right, run, turns, m, fromLeft);
    RunKeepsBooks(left, right, run, turns, n, m, fromLeft);
    if q in SideOf(run[m], fromLeft).history.acked {
      var t := OnlyOldPacketsClear(left, right, run, turns, n, m, fromLeft, q);
    }
  }

  /** run' is run and some turns more. */
  ghost predicate Continues(left: SessionOptions, right: SessionOptions, run: seq<System>, run': seq<System>,
                            turns': seq<Turn>) {
    IsSystemRun(left, right, run', turns') && run <= run'
  }

  /** Some continuation of the run clears q. */
  ghost predicate CanBeCleared(left: SessionOptions, right: SessionOptions, run: seq<System>, fromLeft: bool, q: u32) {
    exists run': seq<System>, turns': seq<Turn>, m: nat ::
      Continues(left, right, run, run', turns') && ClearsAt(run', m, fromLeft, q)
  }

  ghost predicate ClearsAt(run: seq<System>, m: nat, fromLeft: bool, q: u32) {
    m < |run| && q in SideOf(run[m], fromLeft).history.acked
  }

  /** A pending packet the peer's window has moved past can still be cleared exactly if a packet that acknowledges it is
      on the wire and could be taken now. */
  lemma ClearableExactlyByOldPackets(left: SessionOptions, right: SessionOptions, run: seq<System>, turns: seq<Turn>,
                                     fromLeft: bool, q: u32)
    requires IsSystemRun(left, right, run, turns)
    requires var s := run[|turns|];
      q in SideOf(s, fromLeft).history.state.sender.pending && OutOfReach(SideOf(s, !fromLeft), q)
    ensures var s := run[|turns|];
      CanBeCleared(left, right, run, fromLeft, q) <==>
        exists p :: p in SideOf(s, !fromLeft).out && MayClear(SideOf(s, fromLeft).history.state, p, q)
  {
    hide OutOfReach, Acknowledged, CanReceive;
    var n := |turns|;
    var x, y := SideOf(run[n], fromLeft), SideOf(run[n], !fromLeft);
    if p :| p in y.out && MayClear(x.history.state, p, q) {
      OldPacketClears(left, right, run, turns, fromLeft, q, p);
    }
    if CanBeCleared(left, right, run, fromLeft, q) {
      var run': seq<System>, turns': seq<Turn>, m: nat :|
        Continues(left, right, run, run', turns') && ClearsAt(run', m, fromLeft, q);
      ClearedByOldPacket(left, right, run, turns, run', turns', m, fromLeft, q);
    }
  }

  lemma OldPacketClears(left: SessionOptions, right: SessionOptions, run: seq<System>, turns: seq<Turn>, fromLeft: bool,
                        q: u32, p: Packet)
    requires IsSystemRun(left, right, run, turns)
    requires p in SideOf(run[|turns|], !fromLeft).out
    requires q in SideOf(run[|turns|], fromLeft).history.state.sender.pending
    requires MayClear(SideOf(run[|turns|], fromLeft).history.state, p, q)
    ensures CanBeCleared(left, right, run, fromLeft, q)
  {
    hide Acknowledged, Step, Transmitted, CanReceive;
    var s' := OneMoreTurn(left, right, run, turns, Turn(fromLeft, TakePacket(p, 0)));
    var run', turns' := run + [s'], turns + [Turn(fromLeft, TakePacket(p, 0))];
    assert Continues(left, right, run, run', turns');
    assert ClearsAt(run', |turns| + 1, fromLeft, q);
  }

  lemma ClearedByOldPacket(left: SessionOptions, right: SessionOptions, run: seq<System>, turns: seq<Turn>,
                           run': seq<System>, turns': seq<Turn>, m: nat, fromLeft: bool, q: u32)
    requires IsSystemRun(left, right, run, turns) && Continues(left, right, run, run', turns')
    requires ClearsAt(run', m, fromLeft, q)
    requires var s := run[|turns|];
      q in SideOf(s, fromLeft).history.state.sender.pending && OutOfReach(SideOf(s, !fromLeft), q)
    ensures var s := run[|turns|];
      exists p :: p in SideOf(s, !fromLeft).out && MayClear(SideOf(s, fromLeft).history.state, p, q)
  {
    hide Takes, OutOfReach, Acknowledged, Linked;
    var n := |turns|;
    assert run'[n] == run[n];
    var last := if m < n then n else m;
    if m < n { AckedStays(left, right, run', turns', m, n, fromLeft, q); }
    var t := OnlyOldPacketsClear(left, right, run', turns', n, last, fromLeft, q);
    RunKeepsBooks(left, right, run', turns', n, t, fromLeft);
    var p := turns'[t].op.packet;
    assert MayClear(SideOf(run[n], fromLeft).history.state, p, q);
  }

  lemma {:induction false} AckedStays(left: SessionOptions, right: SessionOptions, run: seq<System>, turns: seq<Turn>,
                                      m: nat, n: nat, isLeft: bool, q: u32)
    requires IsSystemRun(left, right, run, turns) && m <= n < |run| && q in SideOf(run[m], isLeft).history.acked
    ensures q in SideOf(run[n], isLeft).history.acked
    decreases n
  {
    hide Acts;
    if m < n {
      AckedStays(left, right, run, turns, m, n - 1, isLeft, q);
      var s, turn := run[n - 1], turns[n - 1];
      assert Takes(s, turn, run[n]);
      hide IsSystemRun, Step, CanStep, Transmitted, AckedBy, Deliverable;
      ActingChanges(SideOf(s, turn.leftActs), SideOf(s, !turn.leftActs).out, turn.op, SideOf(run[n], turn.leftActs));
    }
  }

  // ---- A packet received that can never be cleared

  /** Reliable, in neither order nor latest-wins mode, without a deadline. */
  const PLAINLY := SendOptions(true, false, false, 0, None)

  /** As many bytes as the window has numbers, and one more. */
  const LONG: Bytes := seq(34, i => 0)

  /** Cut into single bytes. */
  const BYTEWISE: Op := SendMessage([], LONG, PLAINLY, Some(1))

  /** The sender can send such a message at once. */
  predicate CanSendLong(mine: SessionOptions) {
    && mine.initialSequence + 34 <= U32_MAX
    && (mine.maxPending.None? || mine.maxPending.value >= 34)
  }

  lemma LongIsPlanned(mine: SessionOptions)
    requires CanSendLong(mine)
    ensures var s := AssumeConnected(NewState(mine), 0);
      && CanStep(s, BYTEWISE)
      && SendPlan(s, |LONG|, PLAINLY, Some(1)) == Ok(Fragmented(34, 1))
  {
    var s := AssumeConnected(NewState(mine), 0);
    assert ExpiredKeys(s, 0) == {};
    assert DivCeil(|LONG|, 1) == 34;
  }

  lemma LongIsSplit(mine: SessionOptions) returns (sent: seq<Packet>)
    requires CanSendLong(mine)
    ensures var s := AssumeConnected(NewState(mine), 0);
      && CanStep(s, BYTEWISE) && Step(s, BYTEWISE).emitted == sent
      && |sent| == 34
      && (forall i :: 0 <= i < |sent| ==> sent[i].sequence == mine.initialSequence + i && sent[i].packetType == Data)
  {
    var s := AssumeConnected(NewState(mine), 0);
    var plan := Fragmented(34, 1);
    LongIsPlanned(mine);
    SendFollowsPlan(s, [], LONG, PLAINLY, Some(1));
    sent := PacketsOf(Purged(s, 0), [], LONG, PLAINLY, plan);
    assert Step(s, BYTEWISE).emitted == sent by { hide SendMany, PacketsOf; }
    hide SendMany, SendPlan, CanStep, ExpiredKeys, Step, Chunk, StampOf;
  }

  lemma LongIsTracked(mine: SessionOptions)
    requires CanSendLong(mine)
    ensures var s := AssumeConnected(NewState(mine), 0);
      CanStep(s, BYTEWISE) && mine.initialSequence in Step(s, BYTEWISE).state.sender.pending
  {
    var s := AssumeConnected(NewState(mine), 0);
    LongIsPlanned(mine);
    SendFollowsPlan(s, [], LONG, PLAINLY, Some(1));
    SendIsAllOrNothing(s, [], LONG, PLAINLY, Some(1));
    hide SendMany, SendPlan, ExpiredKeys, PacketsOf, Sent;
  }

  /** What the send puts on the wire: among others a first and a last packet that are a window and one apart. */
  lemma LongIsSent(mine: SessionOptions) returns (first: Packet, last: Packet)
    requires CanSendLong(mine)
    ensures var s := AssumeConnected(NewState(mine), 0);
      && CanStep(s, BYTEWISE)
      && first in Transmitted(s, BYTEWISE) && last in Transmitted(s, BYTEWISE)
      && mine.initialSequence in Step(s, BYTEWISE).state.sender.pending
    ensures first.sequence == mine.initialSequence && last.sequence == mine.initialSequence + 33
    ensures first.packetType == last.packetType == Data
    ensures first.connectionId == last.connectionId == mine.connectionId
  {
    var s := AssumeConnected(NewState(mine), 0);
    LongIsTracked(mine);
    var sent := LongIsSplit(mine);
    hide Step, CanStep, PacketsOf, CanSendLong;
    EmittedNameTheConnection(s, BYTEWISE);
    first, last := sent[0], sent[33];
  }

  /** Taking a data packet of the connection records its number and puts nothing on the wire. */
  lemma DataIsTaken(s: State, p: Packet)
    requires p.packetType == Data && p.connectionId == s.connectionId && p.sequence < U32_MAX
    ensures CanStep(s, TakePacket(p, 0)) && Transmitted(s, TakePacket(p, 0)) == {}
    ensures var s' := Step(s, TakePacket(p, 0)).state;
      && s'.connectionId == s.connectionId
      && s'.receiver.received == s.receiver.received + {p.sequence}
      && s'.receiver.highest == HighestAfter(s.receiver.highest, p.sequence)
  {
    DataIsRemembered(s.receiver, p);
    hide Intake, Acknowledged, AckState;
    assert Step(s, TakePacket(p, 0)).emitted == [];
  }

  lemma DataIsRemembered(r: Receiver, p: Packet)
    requires p.packetType == Data
    ensures var r' := Intake(r, p).0;
      r'.received == r.received + {p.sequence} && r'.highest == HighestAfter(r.highest, p.sequence)
  {
    hide Reassemble, Drain;
  }

  lemma OneSideConnects(left: SessionOptions, right: SessionOptions, fromLeft: bool)
    returns (run: seq<System>, turns: seq<Turn>)
    ensures IsSystemRun(left, right, run, turns) && |run| == 2 && |turns| == 1
    ensures SideOf(run[1], fromLeft).history.state == AssumeConnected(NewState(OptionsOf(left, right, fromLeft)), 0)
    ensures SideOf(run[1], !fromLeft) == Opening(OptionsOf(left, right, !fromLeft))
  {
    run, turns := [System(Opening(left), Opening(right))], [];
    var connected := OneMoreTurn(left, right, run, turns, Turn(fromLeft, Assume(0)));
    run, turns := run + [connected], turns + [Turn(fromLeft, Assume(0))];
  }

  /** A long message is on the wire, and the peer has put nothing there. */
  lemma LongIsUnderWay(left: SessionOptions, right: SessionOptions, fromLeft: bool)
    returns (run: seq<System>, turns: seq<Turn>, first: Packet, last: Packet)
    requires CanSendLong(OptionsOf(left, right, fromLeft))
    ensures IsSystemRun(left, right, run, turns) && |turns| == 2
    ensures var x, y, mine := SideOf(run[2], fromLeft), SideOf(run[2], !fromLeft), OptionsOf(left, right, fromLeft);
      && y == Opening(OptionsOf(left, right, !fromLeft))
      && first in x.out && first.sequence == mine.initialSequence
      && last in x.out && last.sequence == mine.initialSequence + 33
      && first.packetType == last.packetType == Data
      && first.connectionId == last.connectionId == mine.connectionId
      && mine.initialSequence in x.history.state.sender.pending
  {
    var mine := OptionsOf(left, right, fromLeft);
    first, last := LongIsSent(mine);
    hide IsSystemRun, Step, CanStep, Transmitted, AckedBy, CanSendLong;
    run, turns := OneSideConnects(left, right, fromLeft);
    var sent := OneMoreTurn(left, right, run, turns, Turn(fromLeft, BYTEWISE));
    run, turns := run + [sent], turns + [Turn(fromLeft, BYTEWISE)];
  }

  /** What the window cannot promise: a run in which the peer has received a packet that stays pending for good unless
      it expires. The peer takes the first and the last of 34 fragments before it sends anything. */
  lemma ReceivedYetNeverCleared(left: SessionOptions, right: SessionOptions, fromLeft: bool)
    returns (run: seq<System>, turns: seq<Turn>)
    requires CanSendLong(OptionsOf(left, right, fromLeft)) && left.connectionId == right.connectionId
    ensures IsSystemRun(left, right, run, turns) && |turns| == 4
    ensures var q := OptionsOf(left, right, fromLeft).initialSequence;
      var x, y := SideOf(run[4], fromLeft).history.state, SideOf(run[4], !fromLeft).history.state;
      && q in y.receiver.received && q in x.sender.pending
      && !CanBeCleared(left, right, run, fromLeft, q)
  {
    var first, last;
    run, turns, first, last := LongIsUnderWay(left, right, fromLeft);
    var peer := NewState(OptionsOf(left, right, !fromLeft));
    hide IsSystemRun, Step, CanStep, Transmitted, AckedBy, CanSendLong, CanBeCleared;
    DataIsTaken(peer, first);
    var one := OneMoreTurn(left, right, run, turns, Turn(!fromLeft, TakePacket(first, 0)));
    run, turns := run + [one], turns + [Turn(!fromLeft, TakePacket(first, 0))];
    DataIsTaken(Step(peer, TakePacket(first, 0)).state, last);
    var two := OneMoreTurn(left, right, run, turns, Turn(!fromLeft, TakePacket(last, 0)));
    run, turns := run + [two], turns + [Turn(!fromLeft, TakePacket(last, 0))];
    var q := OptionsOf(left, right, fromLeft).initialSequence;
    assert SideOf(run[4], !fromLeft).out == {};
    ClearableExactlyByOldPackets(left, right, run, turns, fromLeft, q);
  }
}
