// The chunks RTMP_SendPacket writes, byte by byte (librtmp/rtmp.c; section 5.3.1 of Adobe's RTMP 1.0 specification).
module ChunkWire {
  import opened Bytes
  import opened Chunk
  import opened Octets

  // The bytes of a basic header: the format in the upper two bits, and the channel in 6 bits, or behind a 0 in one more
  // byte, or behind a 1 in two more bytes, the low one first.
  predicate IsBasic(s: seq<byte>, fmt: nat, channel: nat) {
    && 1 <= |s| <= 3 && s[0] / 64 == fmt
    && (|s| == 1 ==> s[0] % 64 == channel)
    && (|s| == 2 ==> s[0] % 64 == 0 && s[1] as int + 64 == channel)
    && (|s| == 3 ==> s[0] % 64 == 1 && LittleEndian(s[1..]) + 64 == channel)
    && |s| == if channel <= 63 then 1 else if channel <= 319 then 2 else 3
  }

  // How long a header is behind the channel number and in front of the extended time.
  function Fields(fmt: nat): nat {
    if fmt == 0 then 11 else if fmt == 1 then 7 else if fmt == 2 then 3 else 0
  }

  // A first chunk: the basic header, as many fields as the format has, the 32-bit time if it does not fit the time
  // field, and the front of the body.
  predicate IsFirst(chunk: seq<byte>, fmt: nat, t: nat, m: Message, n: nat)
    requires n <= |m.body|
  {
    var b := if m.channel <= 63 then 1 else if m.channel <= 319 then 2 else 3;
    var f := b + Fields(fmt);
    var x := if t < 0xff_ffff then f else f + 4;
    && |chunk| == x + n && IsBasic(chunk[..b], fmt, m.channel) && chunk[x..] == m.body[..n]
    && (fmt <= 2 ==> BigEndian(chunk[b..b + 3]) == if t < 0xff_ffff then t else 0xff_ffff)
    && (fmt <= 1 ==> BigEndian(chunk[b + 3..b + 6]) == |m.body| && chunk[b + 6] == m.packetType)
    && (fmt == 0 ==> LittleEndian(chunk[b + 7..b + 11]) == m.infoField2 % 0x1_0000_0000)
    && (t >= 0xff_ffff ==> BigEndian(chunk[f..f + 4]) == t)
  }

  // A continuation chunk.
  predicate IsLater(chunk: seq<byte>, t: nat, channel: nat, piece: seq<byte>) {
    var b := if channel <= 63 then 1 else if channel <= 319 then 2 else 3;
    var x := if t < 0xff_ffff then b else b + 4;
    && |chunk| == x + |piece| && IsBasic(chunk[..b], 3, channel) && chunk[x..] == piece
    && (t >= 0xff_ffff ==> BigEndian(chunk[b..b + 4]) == t)
  }

  lemma BasicIs(fmt: byte, channel: nat)
    requires fmt <= 3 && 2 <= channel <= 65599
    ensures IsBasic(BasicHeader(fmt, channel), fmt, channel)
  {
    var s := BasicHeader(fmt, channel);
    if channel > 319 {
      Little2(s[1..]);
    }
  }

  // The channel's last packet has the same size and type.
  predicate Same(prev: Last, m: Message) {
    prev.bodySize == |m.body| && prev.packetType == m.packetType
  }

  lemma ThreeParts(a: seq<byte>, b: seq<byte>, c: seq<byte>, s: seq<byte>)
    requires s == a + b + c
    ensures s[..|a|] == a && s[|a|..|a| + |b|] == b && s[|a| + |b|..] == c
  {
  }

  // The fields behind the basic header.
  predicate IsFields(s: seq<byte>, fmt: nat, t: nat, m: Message) {
    && |s| == Fields(fmt)
    && (fmt <= 2 ==> BigEndian(s[..3]) == if t < 0xff_ffff then t else 0xff_ffff)
    && (fmt <= 1 ==> BigEndian(s[3..6]) == |m.body| && s[6] == m.packetType)
    && (fmt == 0 ==> LittleEndian(s[7..11]) == m.infoField2 % 0x1_0000_0000)
  }

  lemma FieldsAre(fmt: byte, t: u32, m: Message)
    requires fmt <= 3 && |m.body| < 0x100_0000
    ensures IsFields(MessageHeader(fmt, t, m), fmt, t, m)
  {
    hide BigEndian, LittleEndian, Be24, Le32;
    var time: seq<byte> := if fmt <= 2 then Be24(TimeField(t)) else [];
    var size: seq<byte> := if fmt <= 1 then Be24(|m.body|) + [m.packetType] else [];
    var info: seq<byte> := if fmt == 0 then Le32(m.infoField2) else [];
    ThreeParts(time, size, info, MessageHeader(fmt, t, m));
    Be24Is(TimeField(t));
    Be24Is(|m.body|);
    Le32Is(m.infoField2);
    var s := MessageHeader(fmt, t, m);
    if fmt <= 1 {
      assert s[3..6] == size[..3] && s[6] == size[3];
    }
    if fmt == 0 {
      assert s[7..11] == s[7..];
    }
  }

  // The first chunk of a packet, byte by byte. A LARGE header has 12 bytes beside the rest of the channel number and the
  // extended time, a MEDIUM one 8; 4 if size and type are those of the channel's last packet, and 1 if the time is, too.
  // The time is the packet's own in a LARGE header or on a fresh channel, else its distance from the channel's last.
  lemma FirstChunk(prev: Option<Last>, headerType: byte, m: Message, size: nat)
    requires headerType <= 3 && 2 <= m.channel <= 65599 && |m.body| < 0x100_0000 && size > 0
    ensures ShrinkFormat(prev, headerType, m) <= 3
    ensures var chunk := MessageChunks(ShrinkFormat(prev, headerType, m), WireTime(prev, headerType, m), m, size)[0];
      var fmt :=
        if prev.None? || headerType == 0 || headerType == 3 || (headerType == 1 && !Same(prev.value, m)) then headerType
        else if m.timeStamp != prev.value.timeStamp then 2 else 3;
      var from := if prev.None? || headerType == 0 then 0 else prev.value.timeStamp;
      IsFirst(chunk, fmt, (m.timeStamp - from) % 0x1_0000_0000, m, Min(|m.body|, size))
  {
    hide BigEndian, LittleEndian, Be32, IsBasic, MessageHeader, BasicHeader;
    var fmt, t := ShrinkFormat(prev, headerType, m), WireTime(prev, headerType, m);
    var n := Min(|m.body|, size);
    BasicIs(fmt, m.channel);
    FieldsAre(fmt, t, m);
    Be32Is(t);
    var a, b, c, d := BasicHeader(fmt, m.channel), MessageHeader(fmt, t, m), ExtendedTime(t), m.body[..n];
    FourParts(a, b, c, d, MessageChunks(fmt, t, m, size)[0]);
  }

  // The time field of a first chunk is ff ff ff exactly when an extended time follows it.
  lemma FieldSays(chunk: seq<byte>, fmt: nat, t: nat, m: Message, n: nat)
    requires n <= |m.body| && fmt <= 2 && IsFirst(chunk, fmt, t, m, n) && t < 0x1_0000_0000
    ensures var b := if m.channel <= 63 then 1 else if m.channel <= 319 then 2 else 3;
      chunk[b..b + 3] == [0xff, 0xff, 0xff] <==> t >= 0xff_ffff
  {
    hide IsBasic, LittleEndian;
    var b := if m.channel <= 63 then 1 else if m.channel <= 319 then 2 else 3;
    Big3(chunk[b..b + 3]);
  }

  // Continuation chunks: each has the next `size` bytes of the body, the last one what is left.
  predicate AreLater(chunks: seq<seq<byte>>, t: nat, channel: nat, body: seq<byte>, size: nat)
    decreases |chunks|
  {
    if chunks == [] then body == []
    else
      var n := Min(|body|, size);
      && body != [] && IsLater(chunks[0], t, channel, body[..n]) && AreLater(chunks[1..], t, channel, body[n..], size)
  }

  lemma {:induction false} LaterAre(channel: nat, t: u32, body: seq<byte>, size: nat)
    requires 2 <= channel <= 65599 && size > 0
    ensures AreLater(LaterChunks(channel, t, body, size), t, channel, body, size)
    decreases |body|
  {
    hide BigEndian, IsBasic, BasicHeader, Be32;
    if body != [] {
      BasicIs(3, channel);
      Be32Is(t);
      var n := Min(|body|, size);
      FourParts(BasicHeader(3, channel), [], ExtendedTime(t), body[..n], LaterChunks(channel, t, body, size)[0]);
      LaterAre(channel, t, body[n..], size);
    }
  }

  // All chunks of a packet: behind the first one the rest of the body, cut up in order.
  lemma PacketChunks(prev: Option<Last>, headerType: byte, m: Message, size: nat)
    requires headerType <= 3 && 2 <= m.channel <= 65599 && |m.body| < 0x100_0000 && size > 0
    ensures ShrinkFormat(prev, headerType, m) <= 3
    ensures var chunks := MessageChunks(ShrinkFormat(prev, headerType, m), WireTime(prev, headerType, m), m, size);
      var from := if prev.None? || headerType == 0 then 0 else prev.value.timeStamp;
      && chunks != []
      && AreLater(chunks[1..], (m.timeStamp - from) % 0x1_0000_0000, m.channel, m.body[Min(|m.body|, size)..], size)
  {
    hide AreLater, LaterChunks, FirstHeader;
    var t := WireTime(prev, headerType, m);
    LaterAre(m.channel, t, m.body[Min(|m.body|, size)..], size);
  }

  lemma FourParts(a: seq<byte>, b: seq<byte>, c: seq<byte>, d: seq<byte>, s: seq<byte>)
    requires s == a + b + c + d
    ensures |s| == |a| + |b| + |c| + |d| && s[..|a|] == a
    ensures |b| >= 3 ==> s[|a|..|a| + 3] == b[..3]
    ensures |b| >= 7 ==> s[|a| + 3..|a| + 6] == b[3..6] && s[|a| + 6] == b[6]
    ensures |b| >= 11 ==> s[|a| + 7..|a| + 11] == b[7..11]
    ensures s[|a| + |b|..|a| + |b| + |c|] == c && s[|a| + |b| + |c|..] == d
  {
  }
}
