/** When packets are sent again, when they expire and when a silent peer is given up, told from the operations alone:
    their times and lifetimes, and the log of what was sent again. */
module Timing {
  import opened Prelude
  import opened Packets
  import opened AckWindow
  import opened Receivers
  import opened Protocol
  import opened Sessions
  import opened Histories
  import opened SenderRuns

  // ---- What an operation says

  /** The clock reading an operation is given, if any. */
  function TimeOf(op: Op): u64 {
    match op
    case Dial(now, _) => now
    case AnswerDial(_, now, _) => now
    case SendMessage(_, _, options, _) => options.nowMs
    case TakePacket(_, now) => now
    case ProbeTimeout(now, _) => now
    case ResendDue(now) => now
    case Assume(now) => now
    case _ => 0
  }

  /** How long the packets of an operation may stay pending. */
  function LifetimeOf(op: Op): Option<u64> {
    if op.SendMessage? then op.options.expireAfterMs else None
  }

  /** The packets of an operation have outlived their lifetime. */
  predicate OutlivedAt(op: Op, nowMs: u64) {
    LifetimeOf(op).Some? && nowMs > TimeOf(op) + LifetimeOf(op).value
  }

  // ---- What a run did with a number

  /** The i-th operation began to track k. */
  ghost predicate StartsTracking(run: seq<History>, ops: seq<Op>, i: nat, k: u32) {
    i < |ops| && i + 1 < |run| && k in run[i + 1].tracked && k !in run[i].tracked
  }

  /** The i-th operation sent k again. */
  ghost predicate SendsAgain(run: seq<History>, ops: seq<Op>, i: nat, k: u32) {
    && i < |ops| && i + 1 < |run| && ops[i].ResendDue? && |run[i].resends| <= |run[i + 1].resends|
    && Resend(k, ops[i].nowMs) in run[i + 1].resends[|run[i].resends|..]
  }

  ghost predicate Sends(run: seq<History>, ops: seq<Op>, i: nat, k: u32) {
    StartsTracking(run, ops, i, k) || SendsAgain(run, ops, i, k)
  }

  /** Before the n-th operation, k was last sent by the j-th. */
  ghost predicate LastSent(run: seq<History>, ops: seq<Op>, n: nat, j: nat, k: u32) {
    j < n && Sends(run, ops, j, k) && forall m :: j < m < n ==> !Sends(run, ops, m, k)
  }

  // ---- What the table remembers

  function DeadlineOf(op: Op): Option<u64> {
    if LifetimeOf(op).Some? then Some(SaturatingAdd(TimeOf(op), LifetimeOf(op).value)) else None
  }

  ghost predicate EntryOf(entry: Pending, first: Op, last: Op) {
    entry.expiresAtMs == DeadlineOf(first) && entry.lastSentAtMs == TimeOf(last)
  }

  lemma SentEntries(s: State, channelId: ChannelId, payload: Bytes, options: SendOptions, plan: Plan)
    requires HasRoom(s, PacketCount(plan)) && options.reliable
    ensures var s' := Sent(s, channelId, payload, options, plan).sender;
      forall k :: k in s'.pending && k >= s.sender.nextSequence && k !in s.sender.pending ==>
        s'.pending[k].lastSentAtMs == options.nowMs
        && s'.pending[k].expiresAtMs
             == if options.expireAfterMs.None? then None
                else Some(SaturatingAdd(options.nowMs, options.expireAfterMs.value))
  {
    hide PacketsOf, Run;
  }

  /** What a send enters into the table. */
  lemma SendEntries(s: State, op: Op)
    requires CanStep(s, op) && op.SendMessage? && Keyed(s.sender)
    ensures var s' := Step(s, op).state.sender;
      forall k :: k in s'.pending && k !in s.sender.pending ==> EntryOf(s'.pending[k], op, op)
  {
    var payload, options, max := op.payload, op.options, op.maxFragmentBytes;
    SendIsAllOrNothing(s, op.channelId, payload, options, max);
    SendFollowsPlan(s, op.channelId, payload, options, max);
    hide SendMany, SendPlan, CanSend, ExpiredKeys, PacketsOf, CanStep;
    var plan, purged := SendPlan(s, |payload|, options, max), Purged(s, options.nowMs);
    if plan.Ok? && options.reliable {
      SentEntries(purged, op.channelId, payload, options, plan.value);
    }
    hide Sent;
  }

  /** What an operation enters into the table carries its time and its deadline. */
  lemma NewEntries(s: State, op: Op)
    requires CanStep(s, op) && Keyed(s.sender)
    ensures var s' := Step(s, op).state.sender;
      forall k :: k in s'.pending && k !in s.sender.pending ==> EntryOf(s'.pending[k], op, op)
  {
    hide SendMany, Protocol.Receive, StampOf;
    match op
    case SendMessage(_, _, _, _) => SendEntries(s, op);
    case TakePacket(p, now) =>
      if p.connectionId == s.connectionId { ReceivedFields(s, p, now); } else { ForeignPacketIsRefused(s, p, now); }
    case _ =>
  }

  /** The resends an operation logs. */
  function NewResends(h: History, h': History): seq<Resend> {
    if |h.resends| <= |h'.resends| then h'.resends[|h.resends|..] else []
  }

  /** A packet that stays pending keeps its deadline, and its time unless it is sent again. */
  lemma StepRemembers(h: History, op: Op, h': History, k: u32)
    requires Follows(h, op, h') && Balanced(h) && k in h.state.sender.pending && k in h'.state.sender.pending
    ensures var entry, entry' := h.state.sender.pending[k], h'.state.sender.pending[k];
      && entry'.expiresAtMs == entry.expiresAtMs
      && entry'.lastSentAtMs
           == if op.ResendDue? && Resend(k, op.nowMs) in NewResends(h, h') then op.nowMs else entry.lastSentAtMs
  {
    FollowsIsProgress(h, op, h');
    hide Balanced, Books, TrackedBy, AckedBy, ExpiredBy;
    if op.ResendDue? {
      ResendTouches(h, op, h', k);
    } else {
      StepKeepsTimes(h.state, op);
      hide Step, CanStep;
    }
  }

  lemma ResendTouches(h: History, op: Op, h': History, k: u32)
    requires Follows(h, op, h') && op.ResendDue? && k in h.state.sender.pending && k in h'.state.sender.pending
    ensures h'.state.sender.pending[k].lastSentAtMs
      == if Resend(k, op.nowMs) in NewResends(h, h') then op.nowMs else h.state.sender.pending[k].lastSentAtMs
  {
    hide TrackedBy, AckedBy, ExpiredBy;
    if Resend(k, op.nowMs) in NewResends(h, h') { assert k in DueKeys(h.state, op.nowMs); }
  }

  /** Exactly the due packets are logged. */
  lemma ResendLogged(h: History, op: Op, h': History, k: u32)
    requires Follows(h, op, h') && op.ResendDue?
    ensures Resend(k, op.nowMs) in NewResends(h, h') <==> k in DueKeys(h.state, op.nowMs)
  {
    hide TrackedBy, AckedBy, ExpiredBy, DueKeys, Step, CanStep;
  }

  /** A number that becomes pending is tracked by that operation, and was not before. */
  lemma NewlyPendingIsTracked(h: History, op: Op, h': History, k: u32)
    requires Follows(h, op, h') && Balanced(h) && k !in h.state.sender.pending && k in h'.state.sender.pending
    ensures k in h'.tracked && k !in h.tracked && EntryOf(h'.state.sender.pending[k], op, op)
  {
    StepMoves(h.state, op);
    NewEntries(h.state, op);
    hide Step, CanStep, TrackedBy, AckedBy, ExpiredBy, ResendsBy, KeepsEntries, EntryOf;
  }

  lemma PendingIsTracked(h: History, k: u32)
    requires Balanced(h) && k in h.state.sender.pending
    ensures k in h.tracked && k !in h.expired && k !in h.acked
  {
  }

  // ---- What the table remembers, over runs

  lemma LastSentStays(run: seq<History>, ops: seq<Op>, n: nat, j: nat, k: u32)
    requires LastSent(run, ops, n, j, k) && !Sends(run, ops, n, k)
    ensures LastSent(run, ops, n + 1, j, k)
  {
  }

  /** Every pending number was tracked by some operation and last sent by some operation, and its entry carries the
      deadline of the one and the time of the other. */
  lemma {:induction false} PendingRemembers(options: SessionOptions, run: seq<History>, ops: seq<Op>, n: nat, k: u32)
    returns (i: nat, j: nat)
    requires IsRun(options, run, ops) && n < |run| && k in run[n].state.sender.pending
    ensures i < n && j < n <= |ops| && StartsTracking(run, ops, i, k) && LastSent(run, ops, n, j, k)
    ensures EntryOf(run[n].state.sender.pending[k], ops[i], ops[j])
  {
    hide IsRun, Follows, Balanced, EntryOf, LastSent;
    StartsEmpty(options, run, ops);
    var m := n - 1;
    RunFollows(options, run, ops, m);
    if k in run[m].state.sender.pending {
      i, j := PendingRemembers(options, run, ops, m, k);
      j := StillPendingRemembers(run, ops, m, i, j, k);
    } else {
      NewlyPendingIsTracked(run[m], ops[m], run[n], k);
      i, j := m, m;
      JustSent(run, ops, m, k);
    }
  }

  lemma JustSent(run: seq<History>, ops: seq<Op>, m: nat, k: u32)
    requires Sends(run, ops, m, k)
    ensures LastSent(run, ops, m + 1, m, k)
  {
  }

  lemma StartsEmpty(options: SessionOptions, run: seq<History>, ops: seq<Op>)
    requires IsRun(options, run, ops)
    ensures |run| == |ops| + 1 && run[0].state.sender.pending == map[] && run[0].expired == {}
  {
    hide Follows;
  }

  /** Each step of a run, from a state that keeps the ledger. */
  lemma RunFollows(options: SessionOptions, run: seq<History>, ops: seq<Op>, n: nat)
    requires IsRun(options, run, ops) && n < |ops|
    ensures |run| == |ops| + 1 && Follows(run[n], ops[n], run[n + 1]) && Balanced(run[n])
  {
    hide Follows, Balanced;
    RunIsBalanced(options, run, ops, n);
  }

  /** One more step of a number that stays pending. */
  lemma StillPendingRemembers(run: seq<History>, ops: seq<Op>, m: nat, i: nat, j: nat, k: u32) returns (j': nat)
    requires m < |ops| && m + 1 < |run| && Follows(run[m], ops[m], run[m + 1]) && Balanced(run[m])
    requires k in run[m].state.sender.pending && k in run[m + 1].state.sender.pending
    requires i < m && j < m && LastSent(run, ops, m, j, k) && EntryOf(run[m].state.sender.pending[k], ops[i], ops[j])
    ensures LastSent(run, ops, m + 1, j', k) && j' <= m
    ensures EntryOf(run[m + 1].state.sender.pending[k], ops[i], ops[j'])
  {
    hide Follows, Balanced, LastSent;
    PendingIsTracked(run[m], k);
    StepRemembers(run[m], ops[m], run[m + 1], k);
    ResendsStart(run[m], ops[m], run[m + 1]);
    j' := j;
    if SendsAgain(run, ops, m, k) {
      j' := m;
      JustSent(run, ops, m, k);
    } else {
      LastSentStays(run, ops, m, j, k);
    }
  }

  lemma ResendsStart(h: History, op: Op, h': History)
    requires Follows(h, op, h')
    ensures |h.resends| <= |h'.resends|
  {
  }

  lemma {:induction false} TrackedStays(options: SessionOptions, run: seq<History>, ops: seq<Op>, m: nat, n: nat)
    requires IsRun(options, run, ops) && m <= n < |run|
    ensures run[m].tracked <= run[n].tracked
    decreases n
  {
    if m < n {
      TrackedStays(options, run, ops, m, n - 1);
      assert Follows(run[n - 1], ops[n - 1], run[n]);
      hide Step, CanStep, TrackedBy, AckedBy, ExpiredBy, ResendsBy;
    }
  }

  /** A number is tracked once. */
  lemma TrackedOnce(options: SessionOptions, run: seq<History>, ops: seq<Op>, i: nat, j: nat, k: u32)
    requires IsRun(options, run, ops) && StartsTracking(run, ops, i, k) && StartsTracking(run, ops, j, k)
    ensures i == j
  {
    hide Follows;
    if i < j { TrackedStays(options, run, ops, i + 1, j); } else if j < i { TrackedStays(options, run, ops, j + 1, i); }
  }

  lemma {:induction false} DelayIsKept(options: SessionOptions, run: seq<History>, ops: seq<Op>, n: nat)
    requires IsRun(options, run, ops) && n < |run|
    ensures run[n].state.resendDelayMs == options.resendDelayMs
  {
    hide Follows, Balanced;
    if n > 0 {
      DelayIsKept(options, run, ops, n - 1);
      RunProgress(options, run, ops, n - 1);
    }
  }

  // ---- Sending again and expiring

  /** A pending packet is sent again exactly if its lifetime is not over and it was last sent at least the resend delay
      ago; with no delay at all it is sent every time. */
  lemma SentAgainExactlyWhenDue(options: SessionOptions, run: seq<History>, ops: seq<Op>, n: nat, k: u32, i: nat,
                                j: nat)
    requires IsRun(options, run, ops) && n < |ops| && ops[n].ResendDue? && k in run[n].state.sender.pending
    requires StartsTracking(run, ops, i, k) && LastSent(run, ops, n, j, k)
    ensures SendsAgain(run, ops, n, k) <==>
      && !OutlivedAt(ops[i], ops[n].nowMs)
      && (options.resendDelayMs == 0 || ops[n].nowMs >= TimeOf(ops[j]) + options.resendDelayMs)
  {
    hide IsRun, Follows, Balanced;
    StartsEmpty(options, run, ops);
    var i', j' := PendingRemembers(options, run, ops, n, k);
    TrackedOnce(options, run, ops, i, i', k);
    assert j' == j;
    DelayIsKept(options, run, ops, n);
    RunFollows(options, run, ops, n);
    ResendLogged(run[n], ops[n], run[n + 1], k);
    ResendsStart(run[n], ops[n], run[n + 1]);
  }

  /** The operations that look for expired packets: a resend, and a send while connected. */
  predicate LooksForExpired(s: State, op: Op) {
    op.ResendDue? || (op.SendMessage? && s.connected)
  }

  lemma ExpiresWhenPastDeadline(h: History, op: Op, h': History, k: u32)
    requires Follows(h, op, h') && Balanced(h) && k in h.state.sender.pending
    ensures var deadline := h.state.sender.pending[k].expiresAtMs;
      k in h'.expired <==> LooksForExpired(h.state, op) && deadline.Some? && TimeOf(op) > deadline.value
  {
    hide Balanced, TrackedBy, AckedBy, ExpiredBy, ResendsBy, Step, CanStep;
    PendingIsTracked(h, k);
    ExpiredByDeadline(h.state, op, k);
  }

  lemma ExpiredByDeadline(s: State, op: Op, k: u32)
    requires k in s.sender.pending
    ensures var deadline := s.sender.pending[k].expiresAtMs;
      k in ExpiredBy(s, op) <==> LooksForExpired(s, op) && deadline.Some? && TimeOf(op) > deadline.value
  {
  }

  /** A pending packet expires exactly at the first operation that looks for expired packets after its lifetime. */
  lemma ExpiresExactlyPastItsLifetime(options: SessionOptions, run: seq<History>, ops: seq<Op>, n: nat, k: u32, i: nat)
    requires IsRun(options, run, ops) && n < |ops| && k in run[n].state.sender.pending
    requires StartsTracking(run, ops, i, k)
    ensures k in run[n + 1].expired <==>
      LooksForExpired(run[n].state, ops[n]) && OutlivedAt(ops[i], TimeOf(ops[n]))
  {
    hide IsRun, Follows, LastSent, Balanced, Sends;
    StartsEmpty(options, run, ops);
    var i', j := PendingRemembers(options, run, ops, n, k);
    TrackedOnce(options, run, ops, i, i', k);
    RunFollows(options, run, ops, n);
    ExpiresWhenPastDeadline(run[n], ops[n], run[n + 1], k);
  }

  lemma NewlyExpiredWasPending(h: History, op: Op, h': History, k: u32)
    requires Follows(h, op, h') && k !in h.expired && k in h'.expired
    ensures k in h.state.sender.pending
  {
    hide TrackedBy, AckedBy, ResendsBy, Step, CanStep;
  }

  /** What expired was pending when an operation looked for expired packets after its lifetime. */
  lemma {:induction false} ExpiredWasOutlived(options: SessionOptions, run: seq<History>, ops: seq<Op>, n: nat, k: u32)
    returns (i: nat, m: nat)
    requires IsRun(options, run, ops) && n < |run| && k in run[n].expired
    ensures i < m < n && StartsTracking(run, ops, i, k) && k in run[m].state.sender.pending
    ensures LooksForExpired(run[m].state, ops[m]) && OutlivedAt(ops[i], TimeOf(ops[m]))
  {
    hide IsRun, Follows, Balanced, LastSent;
    StartsEmpty(options, run, ops);
    if k in run[n - 1].expired {
      i, m := ExpiredWasOutlived(options, run, ops, n - 1, k);
    } else {
      m := n - 1;
      RunFollows(options, run, ops, m);
      NewlyExpiredWasPending(run[m], ops[m], run[n], k);
      var j;
      i, j := PendingRemembers(options, run, ops, m, k);
      ExpiresExactlyPastItsLifetime(options, run, ops, m, k, i);
    }
  }

  /** Packets sent without a lifetime, and those of a handshake, never expire. */
  lemma NeverExpiresWithoutLifetime(options: SessionOptions, run: seq<History>, ops: seq<Op>, i: nat, n: nat, k: u32)
    requires IsRun(options, run, ops) && n < |run| && StartsTracking(run, ops, i, k)
    requires ops[i].Dial? || ops[i].AnswerDial? || (ops[i].SendMessage? && ops[i].options.expireAfterMs.None?)
    ensures k !in run[n].expired
  {
    if k in run[n].expired {
      var i', m := ExpiredWasOutlived(options, run, ops, n, k);
      TrackedOnce(options, run, ops, i, i', k);
      assert false;
    }
  }

  // ---- Who is connected, and who is given up

  /** An answer was given: it took a number. */
  ghost predicate Answered(h: History, h': History) {
    h'.state.sender.nextSequence > h.state.sender.nextSequence
  }

  /** The operation heard the peer: it took a packet of the connection, answered a dial, or was told so. */
  ghost predicate Hears(options: SessionOptions, run: seq<History>, ops: seq<Op>, i: nat) {
    && i < |ops| && i + 1 < |run|
    && match ops[i]
       case TakePacket(p, _) => p.connectionId == options.connectionId
       case AnswerDial(_, _, _) => Answered(run[i], run[i + 1])
       case Assume(_) => true
       case _ => false
  }

  /** Before the n-th operation the peer was last heard by the i-th, and nothing was reset since. */
  ghost predicate LastHeard(options: SessionOptions, run: seq<History>, ops: seq<Op>, n: nat, i: nat) {
    && i < n && n <= |ops| && Hears(options, run, ops, i)
    && forall m :: i < m < n ==> !Hears(options, run, ops, m) && !ops[m].ResetPeer?
  }

  /** What an operation does to the connection, by its kind. */
  ghost predicate Connects(options: SessionOptions, h: History, op: Op, h': History) {
    match op
    case Assume(_) => h'.state.connected
    case AnswerDial(_, _, _) => h'.state.connected == (h.state.connected || Answered(h, h'))
    case TakePacket(p, _) =>
      if p.connectionId == options.connectionId && p.packetType == Accept then h'.state.connected
      else if p.connectionId == options.connectionId && p.packetType == Disconnect then !h'.state.connected
      else h'.state.connected == h.state.connected
    case HangUp(_) => !h'.state.connected
    case ResetPeer => !h'.state.connected
    case ProbeTimeout(_, _) => h'.state.connected ==> h.state.connected
    case _ => h'.state.connected == h.state.connected
  }

  /** The time of the last operation that heard the peer is remembered until a reset. */
  ghost predicate RemembersTime(options: SessionOptions, h: History, op: Op, h': History) {
    h'.state.lastReceivedAtMs ==
      match op
      case Assume(now) => Some(now)
      case AnswerDial(_, now, _) => if Answered(h, h') then Some(now) else h.state.lastReceivedAtMs
      case TakePacket(p, now) => if p.connectionId == options.connectionId then Some(now) else h.state.lastReceivedAtMs
      case ResetPeer => None
      case _ => h.state.lastReceivedAtMs
  }

  lemma StepConnects(options: SessionOptions, h: History, op: Op, h': History)
    requires Follows(h, op, h') && h.state.connectionId == options.connectionId
    ensures Connects(options, h, op, h') && RemembersTime(options, h, op, h')
    ensures h'.state.connectionId == options.connectionId
  {
    hide TrackedBy, AckedBy, ExpiredBy, ResendsBy, SendMany, StampOf, Intake, Acknowledged, HasCapacity;
    if op.SendMessage? { SendKeepsConnection(h.state, op); }
  }

  lemma SendKeepsConnection(s: State, op: Op)
    requires CanStep(s, op) && op.SendMessage?
    ensures var s' := Step(s, op).state;
      s'.connected == s.connected && s'.lastReceivedAtMs == s.lastReceivedAtMs && s'.connectionId == s.connectionId
  {
    SendKeepsLimits(s, op.channelId, op.payload, op.options, op.maxFragmentBytes);
    SendFollowsPlan(s, op.channelId, op.payload, op.options, op.maxFragmentBytes);
    hide SendMany, SendPlan, PacketsOf;
  }

  lemma {:induction false} ConnectionIsKept(options: SessionOptions, run: seq<History>, ops: seq<Op>, n: nat)
    requires IsRun(options, run, ops) && n < |run|
    ensures run[n].state.connectionId == options.connectionId
  {
    hide Follows;
    if n > 0 {
      ConnectionIsKept(options, run, ops, n - 1);
      StepConnects(options, run[n - 1], ops[n - 1], run[n]);
    }
  }

  /** What connects and disconnects a session: it is connected by being told so, by answering a dial and by taking an
      accept packet, disconnected by hanging up, by taking a disconnect packet and by a reset, at most disconnected by a
      timeout probe, and left as it is by everything else. */
  lemma WhatConnects(options: SessionOptions, run: seq<History>, ops: seq<Op>, n: nat)
    requires IsRun(options, run, ops) && n < |ops|
    ensures !run[0].state.connected && Connects(options, run[n], ops[n], run[n + 1])
  {
    ConnectionIsKept(options, run, ops, n);
    assert Follows(run[n], ops[n], run[n + 1]);
    hide Follows;
    StepConnects(options, run[n], ops[n], run[n + 1]);
  }

  /** A connected session remembers when it last heard the peer. */
  lemma {:induction false} ConnectedHasHeard(options: SessionOptions, run: seq<History>, ops: seq<Op>, n: nat)
    returns (i: nat)
    requires IsRun(options, run, ops) && n < |run| && run[n].state.lastReceivedAtMs.Some?
    ensures LastHeard(options, run, ops, n, i) && run[n].state.lastReceivedAtMs == Some(TimeOf(ops[i]))
  {
    hide Follows;
    assert n > 0;
    ConnectionIsKept(options, run, ops, n - 1);
    StepConnects(options, run[n - 1], ops[n - 1], run[n]);
    if Hears(options, run, ops, n - 1) {
      i := n - 1;
    } else {
      i := ConnectedHasHeard(options, run, ops, n - 1);
    }
  }

  lemma {:induction false} ConnectedHasTime(options: SessionOptions, run: seq<History>, ops: seq<Op>, n: nat)
    requires IsRun(options, run, ops) && n < |run| && run[n].state.connected
    ensures run[n].state.lastReceivedAtMs.Some?
  {
    hide Follows;
    if n > 0 {
      ConnectionIsKept(options, run, ops, n - 1);
      StepConnects(options, run[n - 1], ops[n - 1], run[n]);
      if run[n - 1].state.connected { ConnectedHasTime(options, run, ops, n - 1); }
    }
  }

  /** A timeout probe gives a connected peer up exactly if it was last heard more than the timeout ago, and changes
      nothing else; a connected session has always heard its peer since the last reset. */
  lemma GivenUpExactlyAfterSilence(options: SessionOptions, run: seq<History>, ops: seq<Op>, n: nat) returns (i: nat)
    requires IsRun(options, run, ops) && n < |ops| && ops[n].ProbeTimeout? && run[n].state.connected
    ensures LastHeard(options, run, ops, n, i)
    ensures run[n + 1].state.connected <==> ops[n].nowMs <= TimeOf(ops[i]) + ops[n].timeoutMs
    ensures run[n + 1].state == run[n].state.(connected := run[n + 1].state.connected)
  {
    ConnectedHasTime(options, run, ops, n);
    i := ConnectedHasHeard(options, run, ops, n);
    assert Follows(run[n], ops[n], run[n + 1]);
    hide IsRun;
  }

  /** A probe of a session that is not connected changes nothing. */
  lemma ProbeOfUnconnectedIsIdle(options: SessionOptions, run: seq<History>, ops: seq<Op>, n: nat)
    requires IsRun(options, run, ops) && n < |ops| && ops[n].ProbeTimeout? && !run[n].state.connected
    ensures run[n + 1].state == run[n].state
  {
    assert Follows(run[n], ops[n], run[n + 1]);
  }
}
