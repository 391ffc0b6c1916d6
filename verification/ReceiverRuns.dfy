/** What the frames a session releases have in common, over every run with any packets. */
module ReceiverRuns {
  import opened Prelude
  import opened Packets
  import opened Receivers
  import opened Protocol
  import opened Histories
  import opened HostileReceiver
  import opened DeliveryOrder

  ghost predicate Sound(r: Receiver, log: seq<Release>) {
    Shaped(r) && UsedOnce(r, log) && Chains(r, log) && Rises(r, log)
  }

  lemma FreshIsSound()
    ensures Sound(FreshReceiver, [])
  {
    forall c
      ensures ChainTo(FreshReceiver, [], c) && RisesTo(FreshReceiver, [], c)
    {
      assert OnChannel([], InOrder, c) == [] && OnChannel([], Latest, c) == [];
    }
  }

  lemma RememberIsSound(r: Receiver, log: seq<Release>, q: u32)
    requires Sound(r, log) && q < U32_MAX
    ensures Sound(Remember(r, q), log)
  {
    assert log + [] == log;
    RememberIsShaped(r, q);
    DroppingKeepsUsedOnce(r, log, Remember(r, q), log);
    UnorderedKeepsChains(r, log, Remember(r, q), []);
    OthersKeepRises(r, log, Remember(r, q), []);
  }

  lemma IntakeIsSound(r: Receiver, log: seq<Release>, p: Packet)
    requires Sound(r, log) && p.sequence < U32_MAX
    ensures var (r', outcome) := Intake(r, p); Sound(r', log + ReleasesOf(outcome))
  {
    IntakeIsShaped(r, p);
    IntakeKeepsUsedOnce(r, log, p);
    IntakeKeepsChains(r, log, p);
    IntakeKeepsRises(r, log, p);
  }

  /** Only a handshake, a received packet or a reset touches the receiving half. */
  lemma StepOnReceiver(s: State, op: Op)
    requires CanStep(s, op)
    ensures var after := Step(s, op);
      match op
      case AnswerDial(p, _, _) =>
        after.released == []
        && after.state.receiver == if WillAccept(s, p) then Remember(s.receiver, p.sequence) else s.receiver
      case TakePacket(p, _) =>
        && after.released == ReleasedBy(s, p)
        && after.state.receiver == if p.connectionId == s.connectionId then Intake(s.receiver, p).0 else s.receiver
      case ResetPeer => after.released == [] && after.state.receiver == FreshReceiver
      case _ => after.released == [] && after.state.receiver == s.receiver
  {
  }

  lemma FollowsIsSound(h: History, op: Op, h': History)
    requires Follows(h, op, h') && Sound(h.state.receiver, h.log)
    ensures Sound(h'.state.receiver, h'.log)
  {
    assert h.log + [] == h.log;
    StepOnReceiver(h.state, op);
    match op
    case AnswerDial(p, _, _) => RememberIsSound(h.state.receiver, h.log, p.sequence);
    case TakePacket(p, _) => IntakeIsSound(h.state.receiver, h.log, p);
    case ResetPeer => FreshIsSound();
    case _ =>
  }

  lemma {:induction false} RunIsSound(options: SessionOptions, run: seq<History>, ops: seq<Op>, n: nat)
    requires IsRun(options, run, ops) && n < |run|
    ensures Sound(run[n].state.receiver, run[n].log)
  {
    if n == 0 {
      FreshIsSound();
    } else {
      RunIsSound(options, run, ops, n - 1);
      FollowsIsSound(run[n - 1], ops[n - 1], run[n]);
    }
  }

  /** At most once: between resets, no two released frames, on any channels, share a sequence number. */
  lemma AtMostOnce(options: SessionOptions, run: seq<History>, ops: seq<Op>, n: nat, i: nat, j: nat)
    requires IsRun(options, run, ops) && n < |run| && i < j < |run[n].log|
    ensures run[n].log[i].frame.sequence != run[n].log[j].frame.sequence
  {
    RunIsSound(options, run, ops, n);
    var q := run[n].log[i].frame.sequence;
    assert Holds(run[n].state.receiver, run[n].log, q, InLog(i));
    assert !Holds(run[n].state.receiver, run[n].log, q, InLog(j));
  }

  /** Ordered frames form a chain: each starts exactly where the one before it on its channel ended,
      so numbers strictly increase and nothing behind a gap is released. */
  lemma OrderedFramesFormAChain(options: SessionOptions, run: seq<History>, ops: seq<Op>, n: nat, channel: ChannelId,
                                j: nat)
    requires IsRun(options, run, ops) && n < |run|
    requires j < |OnChannel(run[n].log, InOrder, channel)|
    ensures var xs := OnChannel(run[n].log, InOrder, channel);
      && xs[j].frame.sequence < xs[j].next
      && (j + 1 < |xs| ==> xs[j + 1].frame.sequence == xs[j].next)
      && (j + 1 == |xs| ==>
            channel in run[n].state.receiver.cursors && run[n].state.receiver.cursors[channel] == xs[j].next)
  {
    RunIsSound(options, run, ops, n);
    var r := run[n].state.receiver;
    var xs := OnChannel(run[n].log, InOrder, channel);
    assert ChainTo(r, run[n].log, channel);
    ChainLinks(xs, channel, xs[0].frame.sequence, r.cursors[channel], j);
    if j + 1 < |xs| { ChainLinks(xs, channel, xs[0].frame.sequence, r.cursors[channel], j + 1); }
  }

  /** A frame that could be released is never held back: no channel buffers a frame at its cursor. */
  lemma NothingWaitsAtTheCursor(options: SessionOptions, run: seq<History>, ops: seq<Op>, n: nat, channel: ChannelId)
    requires IsRun(options, run, ops) && n < |run| && channel in run[n].state.receiver.reorder
    ensures var r := run[n].state.receiver; channel in r.cursors && r.cursors[channel] !in r.reorder[channel]
  {
    RunIsSound(options, run, ops, n);
  }

  /** A latest-wins channel never goes backwards. */
  lemma LatestNeverGoesBack(options: SessionOptions, run: seq<History>, ops: seq<Op>, n: nat, channel: ChannelId,
                            i: nat, j: nat)
    requires IsRun(options, run, ops) && n < |run|
    requires i < j < |OnChannel(run[n].log, Latest, channel)|
    ensures var xs := OnChannel(run[n].log, Latest, channel); xs[i].frame.sequence < xs[j].frame.sequence
  {
    RunIsSound(options, run, ops, n);
    assert RisesTo(run[n].state.receiver, run[n].log, channel);
  }

  /** The missing-index exits of reassembly are never taken: in every reachable state, a buffer that has received
      as many payloads as it needs has every index. */
  lemma FullBuffersAreComplete(options: SessionOptions, run: seq<History>, ops: seq<Op>, n: nat, p: Packet)
    requires IsRun(options, run, ops) && n < |run| && p.sequence < U32_MAX
    requires p.fragmentIndex < p.fragmentCount && Fits(run[n].state.receiver.fragments, p)
    ensures var filled := Filled(BufferFor(run[n].state.receiver.fragments, p), p);
      |filled.payloads| >= p.fragmentCount ==> AllPresent(filled)
  {
    RunIsSound(options, run, ops, n);
    var fragments := run[n].state.receiver.fragments;
    FilledIsShaped(fragments, p);
    var filled := Filled(BufferFor(fragments, p), p);
    if |filled.payloads| >= p.fragmentCount { FullBufferHasEveryIndex(KeyOf(p), filled); }
  }
}
