/** The receiving half of a session as a value: duplicate suppression, reassembly of fragments,
    ordered delivery and the latest-wins mode. */
module Receivers {
  import opened Prelude
  import opened Packets

  type FragmentKey = (ChannelId, u16)

  datatype FragmentBuffer = FragmentBuffer(
    channelId: ChannelId,
    ordered: bool,
    fragmentCount: u16,
    payloads: map<u16, Bytes>,
    sequences: map<u16, u32>)

  /** A whole message, with the sequence that follows its last packet. */
  datatype Ready = Ready(frame: Frame, ordered: bool, next: nat)

  datatype PendingOrdered = PendingOrdered(frame: Frame, next: nat)

  type ReorderBuffer = map<u32, PendingOrdered>

  /** How a frame left the receiver: unordered, latest-wins, or in channel order. */
  datatype Mode = Plain | Latest | InOrder

  /** A frame handed to the application. Only the frame is visible there; the rest is kept to state properties. */
  datatype Release = Release(mode: Mode, frame: Frame, next: nat)

  datatype Receiver = Receiver(
    highest: Option<u32>,
    received: set<u32>,
    cursors: map<ChannelId, nat>,
    reorder: map<ChannelId, ReorderBuffer>,
    fragments: map<FragmentKey, FragmentBuffer>,
    newest: map<ChannelId, u32>)

  const FreshReceiver := Receiver(None, {}, map[], map[], map[], map[])

  function HighestAfter(highest: Option<u32>, sequence: u32): Option<u32> {
    if highest.None? || sequence > highest.value then Some(sequence) else highest
  }

  function Remember(r: Receiver, sequence: u32): Receiver {
    r.(highest := HighestAfter(r.highest, sequence), received := r.received + {sequence})
  }

  // ---- Reassembly

  function WholeMessage(p: Packet): Ready {
    Ready(Frame(p.channelId, p.payload, p.sequence), p.ordered, p.sequence + 1)
  }

  function KeyOf(p: Packet): FragmentKey {
    (p.channelId, p.fragmentId)
  }

  function BufferFor(fragments: map<FragmentKey, FragmentBuffer>, p: Packet): FragmentBuffer {
    if KeyOf(p) in fragments then fragments[KeyOf(p)]
    else FragmentBuffer(p.channelId, p.ordered, p.fragmentCount, map[], map[])
  }

  function Filled(buffer: FragmentBuffer, p: Packet): FragmentBuffer {
    buffer.(payloads := buffer.payloads[p.fragmentIndex := p.payload],
            sequences := buffer.sequences[p.fragmentIndex := p.sequence])
  }

  predicate HasIndexes<T>(m: map<u16, T>, n: u16) {
    forall i: u16 :: 0 <= i < n ==> i in m
  }

  /** The payloads at 0, 1, ..., n - 1, concatenated. */
  function Assemble(payloads: map<u16, Bytes>, n: u16): Bytes
    requires HasIndexes(payloads, n)
  {
    if n == 0 then [] else Assemble(payloads, n - 1) + payloads[n - 1]
  }

  function LeastSequence(sequences: map<u16, u32>, n: u16): u32
    requires n > 0 && HasIndexes(sequences, n)
  {
    if n == 1 then sequences[0]
    else
      var rest := LeastSequence(sequences, n - 1);
      if sequences[n - 1] < rest then sequences[n - 1] else rest
  }

  function GreatestSequence(sequences: map<u16, u32>, n: u16): u32
    requires n > 0 && HasIndexes(sequences, n)
  {
    if n == 1 then sequences[0]
    else
      var rest := GreatestSequence(sequences, n - 1);
      if sequences[n - 1] >= rest then sequences[n - 1] else rest
  }

  predicate AllPresent(buffer: FragmentBuffer) {
    && HasIndexes(buffer.payloads, buffer.fragmentCount)
    && HasIndexes(buffer.sequences, buffer.fragmentCount)
  }

  function Completed(buffer: FragmentBuffer): Ready
    requires buffer.fragmentCount > 0 && AllPresent(buffer)
  {
    Ready(Frame(buffer.channelId,
                Assemble(buffer.payloads, buffer.fragmentCount),
                LeastSequence(buffer.sequences, buffer.fragmentCount)),
          buffer.ordered,
          GreatestSequence(buffer.sequences, buffer.fragmentCount) + 1)
  }

  /** The fragment belongs to its buffer. */
  predicate Fits(fragments: map<FragmentKey, FragmentBuffer>, p: Packet) {
    && BufferFor(fragments, p).fragmentCount == p.fragmentCount
    && BufferFor(fragments, p).ordered == p.ordered
  }

  predicate IsComplete(buffer: FragmentBuffer) {
    |buffer.payloads| >= buffer.fragmentCount && AllPresent(buffer)
  }

  /** The buffers after a fragment that fits, and the message it completes, if any. */
  function Fill(fragments: map<FragmentKey, FragmentBuffer>,
                p: Packet): (map<FragmentKey, FragmentBuffer>, Option<Ready>)
    requires p.fragmentCount > 0 && Fits(fragments, p)
  {
    var filled := Filled(BufferFor(fragments, p), p);
    if IsComplete(filled) then (fragments - {KeyOf(p)}, Some(Completed(filled)))
    else (fragments[KeyOf(p) := filled], None)
  }

  function Reassemble(fragments: map<FragmentKey, FragmentBuffer>, p: Packet)
    : (map<FragmentKey, FragmentBuffer>, Result<Option<Ready>, Error>)
  {
    if p.fragmentCount == 0 then (fragments, Ok(Some(WholeMessage(p))))
    else if p.fragmentId == 0 then (fragments, Err(ZeroFragmentId))
    else if p.fragmentIndex >= p.fragmentCount then (fragments, Err(FragmentIndexOutOfRange))
    else if !Fits(fragments, p) then (fragments, Err(FragmentMetadataChanged))
    else var (after, ready) := Fill(fragments, p); (after, Ok(ready))
  }

  // ---- Ordered delivery

  /** Release every buffered frame that continues the channel at next. */
  function Drain(buffer: ReorderBuffer, next: nat): (ReorderBuffer, nat, seq<Release>)
    decreases |buffer|
  {
    if next in buffer then
      var pending := buffer[next];
      var (rest, cursor, releases) := Drain(buffer - {next}, pending.next);
      (rest, cursor, [Release(InOrder, pending.frame, pending.next)] + releases)
    else (buffer, next, [])
  }

  function BufferOf(r: Receiver, channel: ChannelId): ReorderBuffer {
    if channel in r.reorder then r.reorder[channel] else map[]
  }

  /** The cursor a channel delivers from; a channel not seen before starts no later than its first frame. */
  function CursorOr(r: Receiver, channel: ChannelId, expected: nat, sequence: u32): nat {
    if channel in r.cursors then r.cursors[channel] else Min(expected, sequence)
  }

  function DeliverOrdered(r: Receiver, ready: Ready, expected: nat): (Receiver, seq<Release>) {
    var channel := ready.frame.channelId;
    var sequence := ready.frame.sequence;
    var next := CursorOr(r, channel, expected, sequence);
    if sequence < next then
      (r.(cursors := r.cursors[channel := next]), [])
    else if sequence > next then
      (r.(cursors := r.cursors[channel := next],
          reorder := r.reorder[channel := BufferOf(r, channel)[sequence := PendingOrdered(ready.frame, ready.next)]]),
       [])
    else
      var (rest, cursor, releases) := Drain(BufferOf(r, channel), ready.next);
      (r.(cursors := r.cursors[channel := cursor],
          reorder := if channel in r.reorder then r.reorder[channel := rest] else r.reorder),
       [Release(InOrder, ready.frame, ready.next)] + releases)
  }

  // ---- Receiving one packet

  /** A message that is complete: hand it over, hold it, or drop it as overtaken. */
  function Dispatch(r: Receiver, ready: Ready, sequenced: bool, expected: nat): (Receiver, seq<Release>) {
    var frame := ready.frame;
    if ready.ordered then DeliverOrdered(r, ready, expected)
    else if !sequenced then (r, [Release(Plain, frame, ready.next)])
    else if frame.channelId in r.newest && frame.sequence < r.newest[frame.channelId] then (r, [])
    else (r.(newest := r.newest[frame.channelId := frame.sequence]), [Release(Latest, frame, ready.next)])
  }

  function Expected(r: Receiver, p: Packet): nat {
    if r.highest.Some? then r.highest.value + 1 else p.sequence
  }

  function ReceiveData(r: Receiver, p: Packet): (Receiver, Result<seq<Release>, Error>) {
    var remembered := Remember(r, p.sequence);
    if p.sequence in r.received then (remembered, Ok([]))
    else
      var (fragments, outcome) := Reassemble(r.fragments, p);
      var reassembled := remembered.(fragments := fragments);
      match outcome
      case Err(e) => (reassembled, Err(e))
      case Ok(None) => (reassembled, Ok([]))
      case Ok(Some(ready)) =>
        var (r', releases) := Dispatch(reassembled, ready, p.sequenced, Expected(r, p));
        (r', Ok(releases))
  }

  /** What any packet of this connection does to the receiving half. A connect packet is left to the handshake. */
  function Intake(r: Receiver, p: Packet): (Receiver, Result<seq<Release>, Error>) {
    match p.packetType
    case Connect => (r, Ok([]))
    case Data => ReceiveData(r, p)
    case _ => (Remember(r, p.sequence), Ok([]))
  }

  function ReleasesOf(outcome: Result<seq<Release>, Error>): seq<Release> {
    if outcome.Ok? then outcome.value else []
  }
}
