/** The packets, frames and options a reliable-UDP session exchanges. */
module Packets {
  import opened Prelude

  /** A channel id, as the UTF-8 bytes of its string. */
  type ChannelId = Bytes

  datatype PacketType = Connect | Accept | Data | Ack | Ping | Pong | Disconnect

  datatype Packet = Packet(
    packetType: PacketType,
    connectionId: u32,
    sequence: u32,
    ack: u32,
    ackMask: u32,
    channelId: ChannelId,
    reliable: bool,
    ordered: bool,
    sequenced: bool,
    fragmentId: u16,
    fragmentIndex: u16,
    fragmentCount: u16,
    payload: Bytes)

  datatype Frame = Frame(channelId: ChannelId, payload: Bytes, sequence: u32)

  datatype SendOptions = SendOptions(
    reliable: bool,
    ordered: bool,
    sequenced: bool,
    nowMs: u64,
    expireAfterMs: Option<u64>)

  /** Every error a session operation can report. */
  datatype Error =
    | NotConnected
    | ZeroFragmentBytes
    | TooManyFragments
    | QueueFull
    | WrongConnection
    | NotAConnectPacket
    | ZeroFragmentId
    | FragmentIndexOutOfRange
    | FragmentMetadataChanged

  /** "control" */
  const CONTROL: ChannelId := [99, 111, 110, 116, 114, 111, 108]

  /** The sequence numbers of packets. */
  function NumbersOf(packets: seq<Packet>): set<u32> {
    set p | p in packets :: p.sequence
  }
}
