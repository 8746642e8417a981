// The RTMP chunk format as librtmp writes it (librtmp/rtmp.c, RTMP_SendPacket);
// section 5.3.1 of Adobe's RTMP 1.0 specification.
module Chunk {
  import opened Bytes

  const LARGE: byte := 0
  const MEDIUM: byte := 1
  const SMALL: byte := 2
  const MINIMUM: byte := 3

  // A 24-bit timestamp field of this value announces a 32-bit extended timestamp.
  const EXTENDED := 0xff_ffff

  // A whole message, as the sender is given it and as the reader hands it over.
  datatype Message = Message(packetType: byte, channel: nat, timeStamp: u32, infoField2: i32, body: seq<byte>)

  // What the sender remembers of the last packet on a channel.
  datatype Last = Last(packetType: byte, bodySize: nat, timeStamp: u32, infoField2: i32)

  function Remember(m: Message): Last {
    Last(m.packetType, |m.body|, m.timeStamp, m.infoField2)
  }

  // Bytes of a message header, the leading format byte included.
  function HeaderSize(fmt: byte): nat
    requires fmt <= MINIMUM
  {
    if fmt == LARGE then 12 else if fmt == MEDIUM then 8 else if fmt == SMALL then 4 else 1
  }

  // Header compression against the channel's last packet.
  function ShrinkFormat(prev: Option<Last>, headerType: byte, m: Message): byte {
    if prev.None? || headerType == LARGE then headerType
    else
      var h := if prev.value.bodySize == |m.body| && prev.value.packetType == m.packetType && headerType == MEDIUM
               then SMALL else headerType;
      if prev.value.timeStamp == m.timeStamp && h == SMALL then MINIMUM else h
  }

  // The timestamp put on the wire: absolute in a LARGE header or on a fresh channel, else a delta.
  function WireTime(prev: Option<Last>, headerType: byte, m: Message): u32 {
    Wrap(m.timeStamp - if prev.Some? && headerType != LARGE then prev.value.timeStamp else 0)
  }

  function TimeField(t: u32): u32 {
    Min(t, EXTENDED)
  }

  // Bytes of the channel number beyond the first header byte.
  function ChannelSize(channel: nat): nat {
    if channel > 319 then 2 else if channel > 63 then 1 else 0
  }

  function BasicHeader(fmt: byte, channel: nat): (s: seq<byte>)
    requires fmt <= MINIMUM
    ensures |s| == 1 + ChannelSize(channel)
  {
    if channel > 319 then [fmt * 0x40 + 1, (channel - 64) % 0x100, (channel - 64) / 0x100 % 0x100]
    else if channel > 63 then [fmt * 0x40, channel - 64]
    else [fmt * 0x40 + channel]
  }

  function ExtendedTime(t: u32): seq<byte> {
    if t >= EXTENDED then Be32(t) else []
  }

  function MessageHeader(fmt: byte, t: u32, m: Message): seq<byte>
    requires fmt <= MINIMUM
  {
    (if fmt <= SMALL then Be24(TimeField(t)) else []) +
    (if fmt <= MEDIUM then Be24(|m.body|) + [m.packetType] else []) +
    (if fmt == LARGE then Le32(m.infoField2) else [])
  }

  function FirstHeader(fmt: byte, t: u32, m: Message): seq<byte>
    requires fmt <= MINIMUM
  {
    BasicHeader(fmt, m.channel) + MessageHeader(fmt, t, m) + ExtendedTime(t)
  }

  function NextHeader(channel: nat, t: u32): seq<byte> {
    BasicHeader(MINIMUM, channel) + ExtendedTime(t)
  }

  function LaterChunks(channel: nat, t: u32, body: seq<byte>, size: nat): seq<seq<byte>>
    requires size > 0
    decreases |body|
  {
    if body == [] then []
    else
      var k := Min(|body|, size);
      [NextHeader(channel, t) + body[..k]] + LaterChunks(channel, t, body[k..], size)
  }

  // All the chunks of one message, in sending order.
  function MessageChunks(fmt: byte, t: u32, m: Message, size: nat): seq<seq<byte>>
    requires fmt <= MINIMUM && size > 0
  {
    var k := Min(|m.body|, size);
    [FirstHeader(fmt, t, m) + m.body[..k]] + LaterChunks(m.channel, t, m.body[k..], size)
  }

  function Flatten(chunks: seq<seq<byte>>): seq<byte> {
    if chunks == [] then [] else chunks[0] + Flatten(chunks[1..])
  }
}
