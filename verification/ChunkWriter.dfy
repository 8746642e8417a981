// RTMP_SendPacket (librtmp/rtmp.c): headers are built in place, in the reserve in front of the body
// and, from the second chunk on, over body bytes that have already been sent.
module ChunkWriter {
  import opened Buffer
  import opened Bytes
  import opened Chunk

  // Bytes RTMPPacket_Alloc leaves free in front of every body.
  const RESERVE := 18

  class OutPacket {
    var headerType: byte
    var packetType: byte
    var channel: nat
    var timeStamp: u32
    var infoField2: i32
    var bodySize: nat
    var body: array?<byte>  // the whole allocation; m_body points RESERVE bytes into it

    ghost predicate Valid()
      reads this
    {
      if body == null then bodySize == 0 else body.Length >= RESERVE + bodySize
    }

    // m has this packet's header fields and body length.
    ghost predicate Describes(m: Message)
      reads this
    {
      && m.packetType == packetType && m.channel == channel && m.timeStamp == timeStamp
      && m.infoField2 == infoField2 && |m.body| == bodySize
    }

    ghost function Contents(): Message
      reads this, body
      requires Valid()
    {
      Message(packetType, channel, timeStamp, infoField2,
              if body == null then [] else body[RESERVE..RESERVE + bodySize])
    }
  }

  // RTMPPacket_Alloc and the caller's assignments.
  method NewPacket(headerType: byte, m: Message) returns (packet: OutPacket)
    ensures fresh(packet) && packet.Valid() && packet.headerType == headerType && packet.Contents() == m
    ensures packet.body != null ==> fresh(packet.body)
  {
    packet := new OutPacket;
    packet.headerType, packet.packetType, packet.channel := headerType, m.packetType, m.channel;
    packet.timeStamp, packet.infoField2, packet.bodySize := m.timeStamp, m.infoField2, |m.body|;
    packet.body := null;
    if m.body != [] {
      var body := new byte[RESERVE + |m.body|](_ => 0);
      Copy(body, RESERVE, m.body);
      packet.body := body;
    }
  }

  method EncodeInt32LE(a: array<byte>, i: nat, x: i32) returns (next: nat)
    requires i + 4 <= a.Length
    modifies a
    ensures next == i + 4 && Patched(a, old(a[..]), i, Le32(x))
  {
    var u := Wrap(x);
    a[i] := u % 0x100;
    a[i + 1] := u / 0x100 % 0x100;
    a[i + 2] := u / 0x1_0000 % 0x100;
    a[i + 3] := u / 0x100_0000 % 0x100;
    next := i + 4;
  }

  // The format byte and the rest of the channel number.
  method EncodeBasic(a: array<byte>, i: nat, fmt: byte, channel: nat) returns (next: nat)
    requires fmt <= MINIMUM && i + 1 + ChannelSize(channel) <= a.Length
    modifies a
    ensures next == i + 1 + ChannelSize(channel)
    ensures Patched(a, old(a[..]), i, BasicHeader(fmt, channel))
  {
    var cSize := if channel > 319 then 2 else if channel > 63 then 1 else 0;
    a[i] := fmt * 0x40 + if cSize == 0 then channel else if cSize == 1 then 0 else 1;
    next := i + 1;
    if cSize > 0 {
      var tmp := channel - 64;
      a[next] := tmp % 0x100;
      next := next + 1;
      if cSize == 2 {
        a[next] := tmp / 0x100 % 0x100;
        next := next + 1;
      }
    }
  }

  // A header patched in just in front of the unsent bytes before[buffer..end]: those bytes survive, and
  // header and chunk lie next to each other.
  lemma HeaderThenChunk(before: seq<byte>, after: seq<byte>, header: nat, h: seq<byte>, end: nat, k: nat)
    requires PatchedTo(before, after, header, h)
    requires header + |h| + k <= end <= |before|
    ensures after[header + |h|..end] == before[header + |h|..end]
    ensures after[header..header + |h| + k] == h + before[header + |h|..end][..k]
  {
    var buffer := header + |h|;
    assert after[buffer..end] == after[buffer..][..end - buffer];
    assert before[buffer..end] == before[buffer..][..end - buffer];
    SliceOfSlice(after, header, buffer, buffer + k);
    SliceOfSlice(after, buffer, buffer + k, end);
    var s := after[header..buffer + k];
    assert s == s[..|h|] + s[|h|..];
  }

  lemma FirstSize(fmt: byte, t: u32, m: Message)
    requires fmt <= MINIMUM
    ensures |FirstHeader(fmt, t, m)| == HeaderSize(fmt) + ChannelSize(m.channel) + if t >= EXTENDED then 4 else 0
  {
  }

  // What sending one more continuation chunk leaves to send.
  lemma LaterStep(sent: seq<seq<byte>>, channel: nat, t: u32, left: seq<byte>, size: nat, k: nat)
    requires size > 0 && left != [] && k == Min(|left|, size)
    ensures sent + LaterChunks(channel, t, left, size)
         == sent + [NextHeader(channel, t) + left[..k]] + LaterChunks(channel, t, left[k..], size)
  {
  }

  class Writer {
    var channelsOut: map<nat, Last>
    var outChunkSize: int
    var writes: seq<seq<byte>>  // one entry for each WriteN

    ghost function Previous(channel: nat): Option<Last>
      reads this
    {
      if channel in channelsOut then Some(channelsOut[channel]) else None
    }

    method WriteN(a: array<byte>, from: nat, to: nat)
      requires from <= to <= a.Length
      modifies this`writes
      ensures writes == old(writes) + [a[from..to]]
    {
      writes := writes + [a[from..to]];
    }

    // The header of the first chunk, ending exactly where the body starts.
    method EncodeFirst(fmt: byte, t: u32, packet: OutPacket, a: array<byte>, header: nat, ghost m: Message)
      returns (end: nat)
      requires fmt <= MINIMUM
      requires packet.Describes(m)
      requires header + |FirstHeader(fmt, t, m)| <= a.Length
      modifies a
      ensures end == header + |FirstHeader(fmt, t, m)|
      ensures Patched(a, old(a[..]), header, FirstHeader(fmt, t, m))
    {
      ghost var s0 := a[..];
      end := EncodeBasic(a, header, fmt, packet.channel);
      ghost var s1 := a[..];
      end := EncodeMessageHeader(fmt, t, packet, a, end, m);
      PatchAgain(s0, s1, a[..], header, BasicHeader(fmt, m.channel), MessageHeader(fmt, t, m));
      ghost var s2 := a[..];
      if t >= EXTENDED {
        end := EncodeInt32(a, end, t);
      }
      PatchAgain(s0, s2, a[..], header, BasicHeader(fmt, m.channel) + MessageHeader(fmt, t, m), ExtendedTime(t));
    }

    method EncodeSizeAndType(packet: OutPacket, a: array<byte>, i: nat) returns (end: nat)
      requires i + 4 <= a.Length
      modifies a
      ensures end == i + 4 && Patched(a, old(a[..]), i, Be24(packet.bodySize) + [packet.packetType])
    {
      ghost var s0 := a[..];
      end := EncodeInt24(a, i, packet.bodySize);
      ghost var s1 := a[..];
      a[end] := packet.packetType;
      end := end + 1;
      assert PatchedTo(s1, a[..], i + 3, [packet.packetType]);
      PatchAgain(s0, s1, a[..], i, Be24(packet.bodySize), [packet.packetType]);
    }

    method EncodeMessageHeader(fmt: byte, t: u32, packet: OutPacket, a: array<byte>, i: nat, ghost m: Message)
      returns (end: nat)
      requires fmt <= MINIMUM
      requires packet.Describes(m)
      requires i + |MessageHeader(fmt, t, m)| <= a.Length
      modifies a
      ensures end == i + |MessageHeader(fmt, t, m)|
      ensures Patched(a, old(a[..]), i, MessageHeader(fmt, t, m))
    {
      ghost var s0 := a[..];
      end := i;
      ghost var time: seq<byte> := if fmt <= SMALL then Be24(TimeField(t)) else [];
      ghost var size: seq<byte> := if fmt <= MEDIUM then Be24(|m.body|) + [m.packetType] else [];
      ghost var info: seq<byte> := if fmt == LARGE then Le32(m.infoField2) else [];
      if HeaderSize(fmt) > 1 {
        end := EncodeInt24(a, end, if t > EXTENDED then EXTENDED else t);
      }
      ghost var s1 := a[..];
      assert PatchedTo(s0, s1, i, time);
      if HeaderSize(fmt) > 4 {
        end := EncodeSizeAndType(packet, a, end);
      }
      ghost var s2 := a[..];
      PatchAgain(s0, s1, s2, i, time, size);
      if HeaderSize(fmt) > 8 {
        end := EncodeInt32LE(a, end, packet.infoField2);
      }
      PatchAgain(s0, s2, a[..], i, time + size, info);
    }

    // A continuation header, written over the bytes just in front of `buffer`.
    method EncodeNext(channel: nat, t: u32, a: array<byte>, buffer: nat) returns (header: nat)
      requires |NextHeader(channel, t)| <= buffer <= a.Length
      modifies a
      ensures header == buffer - |NextHeader(channel, t)|
      ensures Patched(a, old(a[..]), header, NextHeader(channel, t))
    {
      ghost var before := a[..];
      header := buffer - 1 - ChannelSize(channel) - if t >= EXTENDED then 4 else 0;
      var next := EncodeBasic(a, header, MINIMUM, channel);
      if t >= EXTENDED {
        ghost var s := a[..];
        next := EncodeInt32(a, next, t);
        PatchAgain(before, s, a[..], header, BasicHeader(MINIMUM, channel), Be32(t));
      }
      assert BasicHeader(MINIMUM, channel) + [] == BasicHeader(MINIMUM, channel);
    }

    // One continuation chunk: its header goes over bytes already sent, then both are written at once.
    method SendNext(a: array<byte>, buffer: nat, k: nat, end: nat, channel: nat, t: u32)
      requires |NextHeader(channel, t)| <= buffer <= buffer + k <= end <= a.Length
      modifies this`writes, a
      ensures a[buffer..end] == old(a[buffer..end])
      ensures writes == old(writes) + [NextHeader(channel, t) + old(a[buffer..end])[..k]]
    {
      ghost var before := a[..];
      var header := EncodeNext(channel, t, a, buffer);
      HeaderThenChunk(before, a[..], header, NextHeader(channel, t), end, k);
      WriteN(a, header, buffer + k);
    }

    // The chunk loop. Bytes from `buffer` on are still the caller's; everything in front of it has been
    // sent or is reserve, so the continuation headers can land there.
    method SendLater(a: array<byte>, start: nat, bodySize: nat, channel: nat, t: u32, ghost body: seq<byte>)
      requires RESERVE <= start <= RESERVE + bodySize <= a.Length && outChunkSize > 0
      requires body == a[start..RESERVE + bodySize]
      modifies this`writes, a
      ensures writes == old(writes) + LaterChunks(channel, t, body, outChunkSize)
    {
      var buffer, end := start, RESERVE + bodySize;
      ghost var all := writes + LaterChunks(channel, t, body, outChunkSize);
      ghost var left := body;
      while buffer < end
        invariant start <= buffer <= end
        invariant a[buffer..end] == left
        invariant writes + LaterChunks(channel, t, left, outChunkSize) == all
      {
        var k := if end - buffer < outChunkSize then end - buffer else outChunkSize;
        SliceOfSlice(a[..], buffer, buffer + k, end);
        LaterStep(writes, channel, t, left, outChunkSize, k);
        SendNext(a, buffer, k, end, channel, t);
        SliceOfSlice(a[..], buffer, buffer + k, end);
        left := left[k..];
        buffer := buffer + k;
      }
    }

    // Shrinks the packet's header type against the last packet on its channel.
    method Compress(packet: OutPacket) returns (last: u32)
      requires packet.Valid()
      modifies packet`headerType
      ensures packet.Valid() && packet.Contents() == old(packet.Contents())
      ensures packet.headerType == ShrinkFormat(Previous(packet.channel), old(packet.headerType), packet.Contents())
      ensures Wrap(packet.timeStamp - last) == WireTime(Previous(packet.channel), old(packet.headerType), packet.Contents())
    {
      last := 0;
      if packet.channel in channelsOut && packet.headerType != LARGE {
        var prev := channelsOut[packet.channel];
        if prev.bodySize == packet.bodySize && prev.packetType == packet.packetType && packet.headerType == MEDIUM {
          packet.headerType := SMALL;
        }
        if prev.timeStamp == packet.timeStamp && packet.headerType == SMALL {
          packet.headerType := MINIMUM;
        }
        last := prev.timeStamp;
      }
    }

    // A packet without a body: its header is built in a buffer of its own.
    method SendEmpty(packet: OutPacket, t: u32, ghost m: Message)
      requires packet.Valid() && packet.body == null && packet.headerType <= MINIMUM && outChunkSize > 0
      requires m == packet.Contents()
      modifies this`writes
      ensures writes == old(writes) + MessageChunks(packet.headerType, t, m, outChunkSize)
    {
      var hbuf := new byte[RESERVE](_ => 0);
      var header := 6 - ChannelSize(packet.channel) - if t >= EXTENDED then 4 else 0;
      var end := EncodeFirst(packet.headerType, t, packet, hbuf, header, m);
      assert FirstHeader(packet.headerType, t, m) + m.body[..0] == FirstHeader(packet.headerType, t, m);
      WriteN(hbuf, header, end);
    }

    // The first chunk of a packet with a body: the header ends where the body starts.
    method SendFirst(packet: OutPacket, t: u32, a: array<byte>, first: nat, end: nat, ghost m: Message)
      requires packet.headerType <= MINIMUM && packet.Describes(m)
      requires first <= |m.body| && end == RESERVE + |m.body| <= a.Length && a[RESERVE..end] == m.body
      modifies this`writes, a
      ensures a[RESERVE..end] == m.body
      ensures writes == old(writes) + [FirstHeader(packet.headerType, t, m) + m.body[..first]]
    {
      hide PatchedTo, FirstHeader;
      ghost var before := a[..];
      FirstSize(packet.headerType, t, m);
      var header := RESERVE - HeaderSize(packet.headerType) - ChannelSize(packet.channel) - if t >= EXTENDED then 4 else 0;
      var buffer := EncodeFirst(packet.headerType, t, packet, a, header, m);
      HeaderThenChunk(before, a[..], header, FirstHeader(packet.headerType, t, m), end, first);
      WriteN(a, header, buffer + first);
    }

    method SendBody(packet: OutPacket, t: u32, a: array<byte>, ghost m: Message)
      requires packet.headerType <= MINIMUM && packet.Describes(m) && outChunkSize > 0
      requires RESERVE + |m.body| <= a.Length && a[RESERVE..RESERVE + |m.body|] == m.body
      modifies this`writes, a
      ensures writes == old(writes) + MessageChunks(packet.headerType, t, m, outChunkSize)
    {
      var first := if packet.bodySize < outChunkSize then packet.bodySize else outChunkSize;
      var end := RESERVE + packet.bodySize;
      SendFirst(packet, t, a, first, end, m);
      SliceOfSlice(a[..], RESERVE, RESERVE + first, end);
      assert first == Min(|m.body|, outChunkSize);
      SendLater(a, RESERVE + first, packet.bodySize, packet.channel, t, m.body[first..]);
    }

    method SendPacket(packet: OutPacket) returns (ok: bool)
      requires packet.Valid() && outChunkSize > 0
      modifies this, packet`headerType, if packet.body == null then {} else {packet.body}
      ensures outChunkSize == old(outChunkSize)
      ensures packet.headerType == ShrinkFormat(old(Previous(packet.channel)), old(packet.headerType), old(packet.Contents()))
      ensures ok <==> packet.headerType <= MINIMUM
      ensures !ok ==> channelsOut == old(channelsOut) && writes == old(writes)
      ensures ok ==>
        var m := old(packet.Contents());
        && channelsOut == old(channelsOut)[m.channel := Remember(m)]
        && writes == old(writes) + MessageChunks(packet.headerType,
             WireTime(old(Previous(packet.channel)), old(packet.headerType), m), m, outChunkSize)
    {
      ghost var m := packet.Contents();
      var last := Compress(packet);
      if packet.headerType > MINIMUM {
        return false;
      }
      var t := Wrap(packet.timeStamp - last);
      if packet.body == null {
        SendEmpty(packet, t, m);
      } else {
        SendBody(packet, t, packet.body, m);
      }
      channelsOut := channelsOut[packet.channel := Last(packet.packetType, packet.bodySize, packet.timeStamp, packet.infoField2)];
      ok := true;
    }
  }
}
