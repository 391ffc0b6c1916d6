/** The binary packet codec: a fixed header of 36 bytes, the channel id, the payload. */
module PacketCodec {
  import opened Prelude
  import opened Packets
  import opened BigEndian
  import opened Utf8

  const MAGIC: Bytes := [0x43, 0x4E, 0x52, 0x30]
  const VERSION: byte := 0
  const FIXED_HEADER_BYTES := 36
  const TWO_TO_32 := 0x1_0000_0000

  datatype CodecError =
    | ChannelIdTooLong
    | ShorterThanHeader
    | WrongMagic
    | UnsupportedVersion
    | UnsupportedType
    | HeaderLengthMismatch
    | PayloadLengthMismatch
    | ChannelIdNotUtf8

  // ---- Codes

  function TypeCode(t: PacketType): byte {
    match t
    case Connect => 1
    case Accept => 2
    case Data => 3
    case Ack => 4
    case Ping => 5
    case Pong => 6
    case Disconnect => 7
  }

  function TypeFromCode(code: byte): Option<PacketType> {
    match code
    case 1 => Some(Connect)
    case 2 => Some(Accept)
    case 3 => Some(Data)
    case 4 => Some(Ack)
    case 5 => Some(Ping)
    case 6 => Some(Pong)
    case 7 => Some(Disconnect)
    case _ => None
  }

  function Flag(b: bool, value: byte): byte {
    if b then value else 0
  }

  function Flags(p: Packet): byte {
    Flag(p.reliable, 1) + Flag(p.ordered, 2) + Flag(p.sequenced, 4) + Flag(p.fragmentCount > 0, 8)
  }

  /** Bit n of a flags byte. */
  predicate FlagSet(flags: byte, value: byte)
    requires value > 0
  {
    flags / value % 2 == 1
  }

  // ---- Encoding

  function Preamble(p: Packet): (b: Bytes)
    requires |p.channelId| <= U8_MAX
    ensures |b| == 8
  {
    MAGIC + [VERSION, TypeCode(p.packetType), Flags(p), (FIXED_HEADER_BYTES + |p.channelId|) % 0x100]
  }

  function Numbers(p: Packet): (b: Bytes)
    requires |p.channelId| <= U8_MAX
    ensures |b| == 24
  {
    Preamble(p) + U32Bytes(p.connectionId) + U32Bytes(p.sequence) + U32Bytes(p.ack) + U32Bytes(p.ackMask)
  }

  function Header(p: Packet): (b: Bytes)
    requires |p.channelId| <= U8_MAX
    ensures |b| == FIXED_HEADER_BYTES
  {
    Numbers(p) + U16Bytes(p.fragmentId) + U16Bytes(p.fragmentIndex) + U16Bytes(p.fragmentCount)
    + U32Bytes(|p.payload| % TWO_TO_32) + [|p.channelId|, 0]
  }

  function Encode(p: Packet): Result<Bytes, CodecError> {
    if |p.channelId| > U8_MAX then Err(ChannelIdTooLong)
    else Ok(Header(p) + p.channelId + p.payload)
  }

  /** Copy bytes into an array at an offset. */
  method CopyInto(wire: array<byte>, at: nat, bytes: Bytes)
    requires at + |bytes| <= wire.Length
    modifies wire
    ensures wire[..at + |bytes|] == old(wire[..at]) + bytes
  {
    var i := 0;
    while i < |bytes|
      invariant 0 <= i <= |bytes|
      invariant wire[..at + i] == old(wire[..at]) + bytes[..i]
    {
      wire[at + i] := bytes[i];
      i := i + 1;
    }
  }

  /** The encoder, writing field after field into a buffer of the final size. */
  method EncodePacket(p: Packet) returns (r: Result<array<byte>, CodecError>)
    ensures r.Ok? <==> |p.channelId| <= 255
    ensures r.Ok? ==> fresh(r.value) && IsWireOf(r.value[..], p) && Encode(p) == Ok(r.value[..])
    ensures r.Err? ==> r.error == ChannelIdTooLong && Encode(p) == Err(r.error)
  {
    if |p.channelId| > U8_MAX {
      return Err(ChannelIdTooLong);
    }
    var headerBytes := FIXED_HEADER_BYTES + |p.channelId|;
    var wire := new byte[headerBytes + |p.payload|](i => 0);
    WritePreamble(wire, p, headerBytes);
    WriteNumbers(wire, p);
    WriteRest(wire, p);
    CopyInto(wire, FIXED_HEADER_BYTES, p.channelId);
    CopyInto(wire, headerBytes, p.payload);
    assert wire[..] == wire[..headerBytes + |p.payload|];
    EncodedIsWire(p);
    r := Ok(wire);
  }

  method WritePreamble(wire: array<byte>, p: Packet, headerBytes: nat)
    requires |p.channelId| <= U8_MAX && headerBytes == FIXED_HEADER_BYTES + |p.channelId| <= wire.Length
    modifies wire
    ensures wire[..8] == Preamble(p)
  {
    CopyInto(wire, 0, MAGIC);
    wire[4] := VERSION;
    wire[5] := TypeCode(p.packetType);
    wire[6] := Flags(p);
    wire[7] := headerBytes % 0x100;
  }

  method WriteNumbers(wire: array<byte>, p: Packet)
    requires |p.channelId| <= U8_MAX && 24 <= wire.Length && wire[..8] == Preamble(p)
    modifies wire
    ensures wire[..24] == Numbers(p)
  {
    CopyInto(wire, 8, U32Bytes(p.connectionId));
    CopyInto(wire, 12, U32Bytes(p.sequence));
    CopyInto(wire, 16, U32Bytes(p.ack));
    CopyInto(wire, 20, U32Bytes(p.ackMask));
  }

  method WriteRest(wire: array<byte>, p: Packet)
    requires |p.channelId| <= U8_MAX && FIXED_HEADER_BYTES <= wire.Length && wire[..24] == Numbers(p)
    modifies wire
    ensures wire[..FIXED_HEADER_BYTES] == Header(p)
  {
    hide Numbers, U16Bytes, U32Bytes;
    CopyInto(wire, 24, U16Bytes(p.fragmentId));
    CopyInto(wire, 26, U16Bytes(p.fragmentIndex));
    CopyInto(wire, 28, U16Bytes(p.fragmentCount));
    CopyInto(wire, 30, U32Bytes(|p.payload| % TWO_TO_32));
    wire[34] := |p.channelId|;
    wire[35] := 0;
  }

  // ---- Decoding

  function Decode(wire: Bytes): Result<Packet, CodecError> {
    if |wire| < FIXED_HEADER_BYTES then Err(ShorterThanHeader)
    else if wire[..4] != MAGIC then Err(WrongMagic)
    else if wire[4] != VERSION then Err(UnsupportedVersion)
    else if TypeFromCode(wire[5]).None? then Err(UnsupportedType)
    else
      var headerBytes: nat := wire[7];
      var channelIdLength: nat := wire[34];
      if headerBytes != FIXED_HEADER_BYTES + channelIdLength then Err(HeaderLengthMismatch)
      else if |wire| != headerBytes + U32Of(wire[30..34]) then Err(PayloadLengthMismatch)
      else if !ValidUtf8(wire[FIXED_HEADER_BYTES..headerBytes]) then Err(ChannelIdNotUtf8)
      else Ok(Read(wire, headerBytes))
  }

  function Read(wire: Bytes, headerBytes: nat): Packet
    requires FIXED_HEADER_BYTES <= headerBytes <= |wire| && TypeFromCode(wire[5]).Some?
  {
    Packet(TypeFromCode(wire[5]).value,
           U32Of(wire[8..12]), U32Of(wire[12..16]), U32Of(wire[16..20]), U32Of(wire[20..24]),
           wire[FIXED_HEADER_BYTES..headerBytes],
           FlagSet(wire[6], 1), FlagSet(wire[6], 2), FlagSet(wire[6], 4),
           U16Of(wire[24..26]), U16Of(wire[26..28]), U16Of(wire[28..30]),
           wire[headerBytes..])
  }

  // ---- decode(encode(p))

  lemma TypeRoundTrips(t: PacketType, code: byte)
    ensures TypeFromCode(TypeCode(t)) == Some(t)
    ensures TypeFromCode(code).Some? ==> TypeCode(TypeFromCode(code).value) == code
  {
  }

  lemma FlagsRoundTrip(p: Packet)
    ensures FlagSet(Flags(p), 1) == p.reliable && FlagSet(Flags(p), 2) == p.ordered
    ensures FlagSet(Flags(p), 4) == p.sequenced
  {
  }

  lemma PreambleFields(p: Packet)
    requires |p.channelId| <= U8_MAX
    ensures var b := Preamble(p);
      b[..4] == MAGIC && b[4] == VERSION && b[5] == TypeCode(p.packetType) && b[6] == Flags(p)
      && b[7] == (FIXED_HEADER_BYTES + |p.channelId|) % 0x100
  {
  }

  lemma NumbersFields(p: Packet)
    requires |p.channelId| <= U8_MAX
    ensures var b := Numbers(p);
      b[..8] == Preamble(p) && b[8..12] == U32Bytes(p.connectionId) && b[12..16] == U32Bytes(p.sequence)
      && b[16..20] == U32Bytes(p.ack) && b[20..24] == U32Bytes(p.ackMask)
  {
    hide Preamble, U32Bytes;
  }

  lemma HeaderFields(p: Packet)
    requires |p.channelId| <= U8_MAX
    ensures var b := Header(p);
      b[..24] == Numbers(p) && b[24..26] == U16Bytes(p.fragmentId) && b[26..28] == U16Bytes(p.fragmentIndex)
      && b[28..30] == U16Bytes(p.fragmentCount) && b[30..34] == U32Bytes(|p.payload| % TWO_TO_32)
      && b[34] == |p.channelId| && b[35] == 0
  {
    hide Numbers, U32Bytes, U16Bytes;
  }

  /** Where each field of an encoded packet is found. */
  lemma WireFields(p: Packet)
    requires |p.channelId| <= U8_MAX
    ensures Encode(p).Ok?
    ensures var w := Encode(p).value;
      && |w| == FIXED_HEADER_BYTES + |p.channelId| + |p.payload|
      && w[..4] == MAGIC && w[4] == VERSION && w[5] == TypeCode(p.packetType) && w[6] == Flags(p)
      && w[7] == (FIXED_HEADER_BYTES + |p.channelId|) % 0x100
      && w[8..12] == U32Bytes(p.connectionId) && w[12..16] == U32Bytes(p.sequence)
      && w[16..20] == U32Bytes(p.ack) && w[20..24] == U32Bytes(p.ackMask)
      && w[24..26] == U16Bytes(p.fragmentId) && w[26..28] == U16Bytes(p.fragmentIndex)
      && w[28..30] == U16Bytes(p.fragmentCount) && w[30..34] == U32Bytes(|p.payload| % TWO_TO_32)
      && w[34] == |p.channelId| && w[35] == 0
      && w[FIXED_HEADER_BYTES..FIXED_HEADER_BYTES + |p.channelId|] == p.channelId
      && w[FIXED_HEADER_BYTES + |p.channelId|..] == p.payload
  {
    PreambleFields(p);
    NumbersFields(p);
    HeaderFields(p);
    hide Preamble, Numbers, Header, U32Bytes, U16Bytes;
    var w, h, n, b := Encode(p).value, Header(p), Numbers(p), Preamble(p);
    assert w[..FIXED_HEADER_BYTES] == h;
    assert w[..24] == h[..24] && w[..8] == n[..8] && w[..4] == b[..4];
    assert forall i :: 0 <= i < FIXED_HEADER_BYTES ==> w[i] == h[i];
    assert forall i, j :: 0 <= i <= j <= FIXED_HEADER_BYTES ==> w[i..j] == h[i..j];
    assert forall i, j :: 0 <= i <= j <= 24 ==> h[i..j] == n[i..j];
    assert forall i :: 0 <= i < 8 ==> h[i] == h[..24][i] == n[i] == n[..8][i] == b[i];
  }

  lemma ReadUndoesEncode(p: Packet)
    requires |p.channelId| <= U8_MAX
    ensures var w := Encode(p).value;
      TypeFromCode(w[5]).Some? && Read(w, FIXED_HEADER_BYTES + |p.channelId|) == p
  {
    WireFields(p);
    TypeRoundTrips(p.packetType, 0);
    FlagsRoundTrip(p);
    U32RoundTrips(p.connectionId, []);
    U32RoundTrips(p.sequence, []);
    U32RoundTrips(p.ack, []);
    U32RoundTrips(p.ackMask, []);
    U16RoundTrips(p.fragmentId, []);
    U16RoundTrips(p.fragmentIndex, []);
    U16RoundTrips(p.fragmentCount, []);
    hide Encode, Flags, FlagSet, U32Of, U16Of, U32Bytes, U16Bytes, TypeCode, TypeFromCode;
  }

  /** Decoding an encoded packet gives the packet back exactly when the channel id has at most 219 bytes and the
      payload's length fits 32 bits. Longer channel ids, up to the 255 bytes the encoder accepts, are always rejected,
      because the header-length byte is truncated. A channel id is a string, so its bytes are valid UTF-8. */
  lemma DecodeUndoesEncode(p: Packet)
    requires ValidUtf8(p.channelId) && Encode(p).Ok?
    ensures Decode(Encode(p).value) ==
      if |p.channelId| > 219 then Err(HeaderLengthMismatch)
      else if |p.payload| >= TWO_TO_32 then Err(PayloadLengthMismatch)
      else Ok(p)
  {
    hide Read, U32Of, U16Of, U32Bytes, U16Bytes, TypeCode, TypeFromCode, ValidUtf8, Header, Flags;
    WireFields(p);
    TypeRoundTrips(p.packetType, 0);
    ReadUndoesEncode(p);
    U32RoundTrips(|p.payload| % TWO_TO_32, []);
    hide Encode;
  }

  /** Two packets that both round-trip never share an encoding. */
  lemma EncodeIsInjective(p: Packet, q: Packet)
    requires ValidUtf8(p.channelId) && ValidUtf8(q.channelId)
    requires |p.channelId| <= 219 && |p.payload| < TWO_TO_32 && |q.channelId| <= 219 && |q.payload| < TWO_TO_32
    requires Encode(p) == Encode(q)
    ensures p == q
  {
    DecodeUndoesEncode(p);
    DecodeUndoesEncode(q);
    hide Decode, Encode;
  }

  // ---- encode(decode(w))

  /** Reserved flag bits clear, the fragment flag agreeing with the fragment count, and the padding byte zero. */
  predicate Canonical(wire: Bytes)
    requires |wire| >= FIXED_HEADER_BYTES
  {
    && wire[6] < 16
    && (FlagSet(wire[6], 8) <==> U16Of(wire[28..30]) > 0)
    && wire[35] == 0
  }

  lemma FlagsOfByte(flags: byte, p: Packet)
    requires FlagSet(flags, 1) == p.reliable && FlagSet(flags, 2) == p.ordered && FlagSet(flags, 4) == p.sequenced
    ensures Flags(p) == flags <==> flags < 16 && (FlagSet(flags, 8) <==> p.fragmentCount > 0)
  {
  }

  /** Every field of two wires agrees, but for flags and padding. */
  predicate SameFields(a: Bytes, b: Bytes, n: nat)
    requires FIXED_HEADER_BYTES <= n <= |a| == |b|
  {
    && a[..4] == b[..4] && a[4] == b[4] && a[5] == b[5] && a[7] == b[7]
    && a[8..12] == b[8..12] && a[12..16] == b[12..16] && a[16..20] == b[16..20] && a[20..24] == b[20..24]
    && a[24..26] == b[24..26] && a[26..28] == b[26..28] && a[28..30] == b[28..30] && a[30..34] == b[30..34]
    && a[34] == b[34] && a[FIXED_HEADER_BYTES..n] == b[FIXED_HEADER_BYTES..n] && a[n..] == b[n..]
  }

  lemma SliceEquality(a: Bytes, b: Bytes, i: nat, j: nat, k: nat)
    requires i <= k < j <= |a| && j <= |b| && a[i..j] == b[i..j]
    ensures a[k] == b[k]
  {
    assert a[i..j][k - i] == b[i..j][k - i];
  }

  lemma SameFieldsAgree(a: Bytes, b: Bytes, n: nat, k: nat)
    requires FIXED_HEADER_BYTES <= n <= |a| == |b| && SameFields(a, b, n)
    requires k < |a| && k != 6 && k != 35
    ensures a[k] == b[k]
  {
    if k < 4 { SliceEquality(a, b, 0, 4, k); }
    else if 8 <= k < 24 { var i := k - k % 4; SliceEquality(a, b, i, i + 4, k); }
    else if 24 <= k < 30 { var i := k - k % 2; SliceEquality(a, b, i, i + 2, k); }
    else if 30 <= k < 34 { SliceEquality(a, b, 30, 34, k); }
    else if FIXED_HEADER_BYTES <= k < n { SliceEquality(a, b, FIXED_HEADER_BYTES, n, k); }
    else if n <= k { SliceEquality(a, b, n, |a|, k); }
  }

  /** Everything about an accepted wire but its flags and padding byte is rebuilt by encoding. */
  lemma RebuiltFields(wire: Bytes)
    requires Decode(wire).Ok?
    ensures var p := Decode(wire).value;
      && |p.channelId| <= 219 && Encode(p).Ok?
      && |Encode(p).value| == |wire| >= wire[7] >= FIXED_HEADER_BYTES && SameFields(Encode(p).value, wire, wire[7])
      && Encode(p).value[6] == Flags(p) && Encode(p).value[35] == 0
  {
    hide Encode, U32Of, U16Of, U32Bytes, U16Bytes, TypeCode, TypeFromCode, ValidUtf8, Flags, FlagSet;
    var p := Decode(wire).value;
    assert |p.channelId| <= 219;
    WireFields(p);
    TypeRoundTrips(Connect, wire[5]);
    U32RoundTrips(0, wire[8..12]);
    U32RoundTrips(0, wire[12..16]);
    U32RoundTrips(0, wire[16..20]);
    U32RoundTrips(0, wire[20..24]);
    U16RoundTrips(0, wire[24..26]);
    U16RoundTrips(0, wire[26..28]);
    U16RoundTrips(0, wire[28..30]);
    U32RoundTrips(0, wire[30..34]);
    assert |p.payload| % TWO_TO_32 == |p.payload|;
  }

  /** Encoding a decoded packet gives the wire back exactly when the wire is canonical. */
  lemma EncodeUndoesDecode(wire: Bytes)
    requires Decode(wire).Ok?
    ensures Encode(Decode(wire).value) == Ok(wire) <==> Canonical(wire)
  {
    var p := Decode(wire).value;
    RebuiltFields(wire);
    FlagsOfByte(wire[6], p);
    hide Encode, U32Of, U16Of, U32Bytes, U16Bytes, TypeFromCode, ValidUtf8, Flags, FlagSet;
    var w := Encode(p).value;
    forall k | 0 <= k < |wire| && k != 6 && k != 35 ensures w[k] == wire[k] {
      SameFieldsAgree(w, wire, wire[7], k);
    }
    hide SameFields;
    assert w == wire <==> w[6] == wire[6] && w[35] == wire[35];
  }

  /** The decoder normalises: what it accepts, it accepts again after re-encoding, as the same packet. */
  lemma DecodeIsStable(wire: Bytes)
    requires Decode(wire).Ok?
    ensures Encode(Decode(wire).value).Ok? && Decode(Encode(Decode(wire).value).value) == Decode(wire)
  {
    var p := Decode(wire).value;
    RebuiltFields(wire);
    DecodeUndoesEncode(p);
    hide SameFields, Encode, U32Of;
  }

  // ---- The bytes on the wire

  /** The number that four bytes from position i on stand for, the first byte weighing most. */
  function FourAt(w: Bytes, i: nat): nat
    requires i + 4 <= |w|
  {
    w[i] as int * 16777216 + w[i + 1] as int * 65536 + w[i + 2] as int * 256 + w[i + 3] as int
  }

  function TwoAt(w: Bytes, i: nat): nat
    requires i + 2 <= |w|
  {
    w[i] as int * 256 + w[i + 1] as int
  }

  predicate StandsFor(code: nat, t: PacketType) {
    match t
    case Connect => code == 1
    case Accept => code == 2
    case Data => code == 3
    case Ack => code == 4
    case Ping => code == 5
    case Pong => code == 6
    case Disconnect => code == 7
  }

  /** The fixed header, byte by byte: "CNR0", version 0, type, flags, header length, the numbers, the channel's
      length. */
  predicate IsHeaderOf(w: Bytes, p: Packet)
    requires |w| >= 36
  {
    && w[0] == 0x43 && w[1] == 0x4E && w[2] == 0x52 && w[3] == 0x30 && w[4] == 0
    && StandsFor(w[5], p.packetType)
    && w[6] < 16
    && (w[6] % 2 == 1 <==> p.reliable) && (w[6] / 2 % 2 == 1 <==> p.ordered)
    && (w[6] / 4 % 2 == 1 <==> p.sequenced) && (w[6] / 8 == 1 <==> p.fragmentCount > 0)
    && w[7] == (36 + |p.channelId|) % 256
    && FourAt(w, 8) == p.connectionId && FourAt(w, 12) == p.sequence
    && FourAt(w, 16) == p.ack && FourAt(w, 20) == p.ackMask
    && TwoAt(w, 24) == p.fragmentId && TwoAt(w, 26) == p.fragmentIndex && TwoAt(w, 28) == p.fragmentCount
    && FourAt(w, 30) == |p.payload| % 4294967296
    && w[34] == |p.channelId| && w[35] == 0
  }

  /** The wire form of a packet: the header, the channel id, the payload. */
  predicate IsWireOf(w: Bytes, p: Packet) {
    && |w| == 36 + |p.channelId| + |p.payload|
    && IsHeaderOf(w, p)
    && w[36..36 + |p.channelId|] == p.channelId && w[36 + |p.channelId|..] == p.payload
  }

  lemma FourOf(w: Bytes, i: nat, x: u32)
    requires i + 4 <= |w| && w[i..i + 4] == U32Bytes(x)
    ensures FourAt(w, i) == x
  {
    var b := w[i..i + 4];
    assert w[i] == b[0] && w[i + 1] == b[1] && w[i + 2] == b[2] && w[i + 3] == b[3];
    assert b[0] == x / 0x1_0000 / 0x100 && b[1] == x / 0x1_0000 % 0x100;
    assert b[2] == x % 0x1_0000 / 0x100 && b[3] == x % 0x1_0000 % 0x100;
  }

  lemma TwoOf(w: Bytes, i: nat, x: u16)
    requires i + 2 <= |w| && w[i..i + 2] == U16Bytes(x)
    ensures TwoAt(w, i) == x
  {
    assert w[i] == w[i..i + 2][0] && w[i + 1] == w[i..i + 2][1];
  }

  lemma FlagsAreBits(p: Packet)
    ensures var f := Flags(p);
      && f < 16 && (f % 2 == 1 <==> p.reliable) && (f / 2 % 2 == 1 <==> p.ordered)
      && (f / 4 % 2 == 1 <==> p.sequenced) && (f / 8 == 1 <==> p.fragmentCount > 0)
  {
  }

  /** What the encoder writes is the wire form. */
  lemma EncodedIsWire(p: Packet)
    requires |p.channelId| <= 255
    ensures Encode(p).Ok? && IsWireOf(Encode(p).value, p)
  {
    WireFields(p);
    FlagsAreBits(p);
    hide Encode, Flags, U32Bytes, U16Bytes;
    var w := Encode(p).value;
    assert w[0] == w[..4][0] && w[1] == w[..4][1] && w[2] == w[..4][2] && w[3] == w[..4][3];
    FourOf(w, 8, p.connectionId);
    FourOf(w, 12, p.sequence);
    FourOf(w, 16, p.ack);
    FourOf(w, 20, p.ackMask);
    TwoOf(w, 24, p.fragmentId);
    TwoOf(w, 26, p.fragmentIndex);
    TwoOf(w, 28, p.fragmentCount);
    FourOf(w, 30, |p.payload| % TWO_TO_32);
    hide FourAt, TwoAt;
  }

  lemma FourDetermine(v: Bytes, w: Bytes, i: nat)
    requires i + 4 <= |v| && i + 4 <= |w| && FourAt(v, i) == FourAt(w, i)
    ensures v[i] == w[i] && v[i + 1] == w[i + 1] && v[i + 2] == w[i + 2] && v[i + 3] == w[i + 3]
  {
  }

  lemma TwoDetermine(v: Bytes, w: Bytes, i: nat)
    requires i + 2 <= |v| && i + 2 <= |w| && TwoAt(v, i) == TwoAt(w, i)
    ensures v[i] == w[i] && v[i + 1] == w[i + 1]
  {
  }

  lemma BitsDetermine(f: byte, g: byte)
    requires f < 16 && g < 16 && f % 2 == g % 2 && f / 2 % 2 == g / 2 % 2 && f / 4 % 2 == g / 4 % 2 && f / 8 == g / 8
    ensures f == g
  {
    HalvesTwice(f);
    HalvesTwice(g);
    HalfDetermines(f / 4, g / 4);
    HalfDetermines(f / 2, g / 2);
    HalfDetermines(f, g);
  }

  lemma HalvesTwice(x: nat)
    ensures x / 4 == x / 2 / 2 && x / 8 == x / 4 / 2
  {
  }

  lemma HalfDetermines(x: nat, y: nat)
    requires x / 2 == y / 2 && x % 2 == y % 2
    ensures x == y
  {
  }

  /** A packet has one header. */
  lemma OneHeader(v: Bytes, w: Bytes, p: Packet)
    requires |v| >= 36 && |w| >= 36 && IsHeaderOf(v, p) && IsHeaderOf(w, p)
    ensures v[..36] == w[..36]
  {
    hide FourAt, TwoAt;
    FourDetermine(v, w, 8);
    FourDetermine(v, w, 12);
    FourDetermine(v, w, 16);
    FourDetermine(v, w, 20);
    TwoDetermine(v, w, 24);
    TwoDetermine(v, w, 26);
    TwoDetermine(v, w, 28);
    FourDetermine(v, w, 30);
    BitsDetermine(v[6], w[6]);
    assert v[5] == w[5];
    forall i | 0 <= i < 36 ensures v[i] == w[i] { }
  }

  /** The encoder writes exactly the wire form, or fails for channel ids of more than 255 bytes. */
  lemma EncodesTheWireForm(p: Packet, w: Bytes)
    ensures Encode(p) == Ok(w) <==> |p.channelId| <= 255 && IsWireOf(w, p)
    ensures |p.channelId| > 255 ==> Encode(p) == Err(ChannelIdTooLong)
  {
    if |p.channelId| <= 255 {
      EncodedIsWire(p);
      var v := Encode(p).value;
      hide Encode, IsHeaderOf;
      if IsWireOf(w, p) {
        OneHeader(v, w, p);
        var n := 36 + |p.channelId|;
        assert v == v[..36] + v[36..n] + v[n..] && w == w[..36] + w[36..n] + w[n..];
      }
    }
  }

  /** The decoder's conditions, in the order it checks them. */
  ghost predicate IsAccepted(w: Bytes) {
    HasAcceptedHeader(w) && AreOfAString(w[36..w[7]])
  }

  predicate HasAcceptedHeader(w: Bytes) {
    && |w| >= 36
    && w[0] == 0x43 && w[1] == 0x4E && w[2] == 0x52 && w[3] == 0x30 && w[4] == 0
    && 1 <= w[5] <= 7
    && w[7] as int == 36 + w[34] as int
    && |w| == w[7] as int + FourAt(w, 30)
  }

  /** p is what a wire says, whatever its reserved flags and its padding byte. */
  predicate IsReadFrom(w: Bytes, p: Packet)
    requires |w| >= 36
  {
    && StandsFor(w[5], p.packetType)
    && (w[6] % 2 == 1 <==> p.reliable) && (w[6] / 2 % 2 == 1 <==> p.ordered) && (w[6] / 4 % 2 == 1 <==> p.sequenced)
    && FourAt(w, 8) == p.connectionId && FourAt(w, 12) == p.sequence
    && FourAt(w, 16) == p.ack && FourAt(w, 20) == p.ackMask
    && TwoAt(w, 24) == p.fragmentId && TwoAt(w, 26) == p.fragmentIndex && TwoAt(w, 28) == p.fragmentCount
    && |p.channelId| == w[34] && 36 + |p.channelId| <= |w|
    && w[36..36 + |p.channelId|] == p.channelId && w[36 + |p.channelId|..] == p.payload
  }

  lemma FourRead(w: Bytes, i: nat)
    requires i + 4 <= |w|
    ensures U32Of(w[i..i + 4]) == FourAt(w, i)
  {
    var b := w[i..i + 4];
    assert b[..2] == [w[i], w[i + 1]] && b[2..] == [w[i + 2], w[i + 3]];
  }

  lemma TwoRead(w: Bytes, i: nat)
    requires i + 2 <= |w|
    ensures U16Of(w[i..i + 2]) == TwoAt(w, i)
  {
  }

  lemma MagicRead(w: Bytes)
    requires |w| >= 4
    ensures w[..4] == MAGIC <==> w[0] == 0x43 && w[1] == 0x4E && w[2] == 0x52 && w[3] == 0x30
  {
    assert w[..4] == [w[0], w[1], w[2], w[3]];
  }

  /** The decoder accepts exactly the wires that keep its conditions, and reads the packet they say. */
  lemma DecodesTheWireForm(w: Bytes)
    ensures Decode(w).Ok? <==> IsAccepted(w)
    ensures Decode(w).Ok? ==> IsReadFrom(w, Decode(w).value)
  {
    HeaderDecides(w);
    hide Decode, HasAcceptedHeader, ValidUtf8;
    if HasAcceptedHeader(w) {
      ValidExactlyForStrings(w[36..w[7]]);
      if ValidUtf8(w[36..w[7]]) { ReadIsRead(w); }
    }
  }

  lemma HeaderDecides(w: Bytes)
    ensures HasAcceptedHeader(w) ==>
      36 <= w[7] as int == 36 + w[34] as int && w[7] as int <= |w| && TypeFromCode(w[5]).Some?
    ensures Decode(w).Ok? <==> HasAcceptedHeader(w) && ValidUtf8(w[36..w[7]])
    ensures Decode(w).Ok? ==> Decode(w).value == Read(w, w[7])
  {
    if |w| >= 36 {
      MagicRead(w);
      FourRead(w, 30);
      hide U32Of, FourAt, ValidUtf8, Read;
      assert TypeFromCode(w[5]).Some? <==> 1 <= w[5] <= 7;
    }
  }

  lemma ReadIsRead(w: Bytes)
    requires |w| >= 36 && w[7] as int == 36 + w[34] as int && w[7] as int <= |w| && TypeFromCode(w[5]).Some?
    ensures IsReadFrom(w, Read(w, w[7]))
  {
    FourRead(w, 8);
    FourRead(w, 12);
    FourRead(w, 16);
    FourRead(w, 20);
    TwoRead(w, 24);
    TwoRead(w, 26);
    TwoRead(w, 28);
    hide U32Of, U16Of, FourAt, TwoAt;
  }

  /** Which error is reported for a wire that is not accepted: that of the first condition it breaks. */
  lemma FirstDecodeError(w: Bytes)
    ensures |w| < 36 ==> Decode(w) == Err(ShorterThanHeader)
    ensures |w| >= 36 && !(w[0] == 0x43 && w[1] == 0x4E && w[2] == 0x52 && w[3] == 0x30) ==>
      Decode(w) == Err(WrongMagic)
    ensures |w| >= 36 && Decode(w).Err? && Decode(w).error != WrongMagic ==>
      && (w[4] != 0 <==> Decode(w) == Err(UnsupportedVersion))
      && (w[4] == 0 && !(1 <= w[5] <= 7) <==> Decode(w) == Err(UnsupportedType))
      && (w[4] == 0 && 1 <= w[5] <= 7 && w[7] as int != 36 + w[34] as int <==> Decode(w) == Err(HeaderLengthMismatch))
      && (Decode(w) == Err(PayloadLengthMismatch) <==>
            w[4] == 0 && 1 <= w[5] <= 7 && w[7] as int == 36 + w[34] as int && |w| != w[7] as int + FourAt(w, 30))
  {
    if |w| >= 36 {
      MagicRead(w);
      FourRead(w, 30);
      hide U32Of, FourAt, ValidUtf8, Read;
      assert TypeFromCode(w[5]).Some? <==> 1 <= w[5] <= 7;
    }
  }
}
