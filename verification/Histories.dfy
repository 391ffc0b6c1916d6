/** Runs of one session over arbitrary operations, with the history that the properties speak of. */
module Histories {
  import opened Prelude
  import opened Packets
  import opened AckWindow
  import opened Receivers
  import opened Protocol

  /** One packet sent again at a time. */
  datatype Resend = Resend(sequence: u32, atMs: u64)

  /** A session, the frames it released since the last reset, and what became of every packet it ever tracked. */
  datatype History = History(
    state: State,
    log: seq<Release>,
    tracked: set<u32>,
    acked: set<u32>,
    expired: set<u32>,
    abandoned: set<u32>,
    resends: seq<Resend>)

  function Start(options: SessionOptions): History {
    History(NewState(options), [], {}, {}, {}, {}, [])
  }

  /** The sequences an operation starts to track: those of the reliable packets it creates.
      A repeated connect is answered again without being tracked again. */
  function TrackedBy(s: State, op: Op): set<u32>
    requires CanStep(s, op)
  {
    match op
    case Dial(_, _) => NumbersOf(Step(s, op).emitted)
    case AnswerDial(_, _, _) => if s.connected then {} else NumbersOf(Step(s, op).emitted)
    case SendMessage(_, _, options, _) => if options.reliable then NumbersOf(Step(s, op).emitted) else {}
    case _ => {}
  }

  /** The tracked sequences an operation finds acknowledged. */
  function AckedBy(s: State, op: Op): set<u32> {
    match op
    case TakePacket(p, _) =>
      if p.connectionId == s.connectionId then Acknowledged(p.ack, p.ackMask) * s.sender.pending.Keys else {}
    case _ => {}
  }

  /** The tracked sequences an operation gives up on. */
  function ExpiredBy(s: State, op: Op): set<u32> {
    match op
    case SendMessage(_, _, options, _) => if s.connected then ExpiredKeys(s, options.nowMs) else {}
    case ResendDue(now) => ExpiredKeys(s, now)
    case _ => {}
  }

  /** The resends an operation makes, at its own time. */
  ghost predicate ResendsBy(s: State, op: Op, resends: seq<Resend>) {
    match op
    case ResendDue(now) =>
      && (forall r :: r in resends ==> r.atMs == now && r.sequence in DueKeys(s, now))
      && (forall k :: k in DueKeys(s, now) ==> Resend(k, now) in resends)
      && (forall i, j :: 0 <= i < j < |resends| ==> resends[i].sequence < resends[j].sequence)
    case _ => resends == []
  }

  /** h' follows h by one operation. */
  ghost predicate Follows(h: History, op: Op, h': History) {
    && CanStep(h.state, op)
    && h'.state == Step(h.state, op).state
    && h'.log == (if op.ResetPeer? then [] else h.log + Step(h.state, op).released)
    && h'.tracked == h.tracked + TrackedBy(h.state, op)
    && h'.acked == h.acked + AckedBy(h.state, op)
    && h'.expired == h.expired + ExpiredBy(h.state, op)
    && h'.abandoned == h.abandoned + (if op.ResetPeer? then h.state.sender.pending.Keys else {})
    && |h.resends| <= |h'.resends| && h'.resends[..|h.resends|] == h.resends
    && ResendsBy(h.state, op, h'.resends[|h.resends|..])
  }

  /** A run of a session from its creation, over any operations with any packets and any clock readings. */
  ghost predicate IsRun(options: SessionOptions, run: seq<History>, ops: seq<Op>) {
    && |run| == |ops| + 1
    && run[0] == Start(options)
    && forall i :: 0 <= i < |ops| ==> Follows(run[i], ops[i], run[i + 1])
  }

  /** Any set of numbers can be resent in increasing order. */
  lemma {:induction false} InIncreasingOrder(keys: set<u32>, atMs: u64) returns (resends: seq<Resend>)
    ensures forall r :: r in resends ==> r.atMs == atMs && r.sequence in keys
    ensures forall k :: k in keys ==> Resend(k, atMs) in resends
    ensures forall i, j :: 0 <= i < j < |resends| ==> resends[i].sequence < resends[j].sequence
    decreases |keys|
  {
    resends := [];
    if keys != {} {
      var k := Least(keys);
      var later := InIncreasingOrder(keys - {k}, atMs);
      resends := [Resend(k, atMs)] + later;
      assert forall r :: r in later ==> r.sequence in keys - {k};
    }
  }

  /** Histories never get stuck: every operation that does not run out of numbers can follow any history. */
  lemma HistoryGoesOn(h: History, op: Op) returns (h': History)
    requires CanStep(h.state, op)
    ensures Follows(h, op, h')
  {
    hide Step, TrackedBy, AckedBy, ExpiredBy, DueKeys, CanStep;
    var resends: seq<Resend> := [];
    if op.ResendDue? { resends := InIncreasingOrder(DueKeys(h.state, op.nowMs), op.nowMs); }
    h' := History(Step(h.state, op).state,
                  if op.ResetPeer? then [] else h.log + Step(h.state, op).released,
                  h.tracked + TrackedBy(h.state, op),
                  h.acked + AckedBy(h.state, op),
                  h.expired + ExpiredBy(h.state, op),
                  h.abandoned + (if op.ResetPeer? then h.state.sender.pending.Keys else {}),
                  h.resends + resends);
    assert h'.resends[|h.resends|..] == resends;
  }
}
