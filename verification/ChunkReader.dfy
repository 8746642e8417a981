// RTMP_ReadPacket (librtmp/rtmp.c): one call reads one chunk and updates the channel's half-read packet.
module ChunkReader {
  import opened Bytes
  import opened Chunk

  // RTMPPacket on the reading side. body is m_body's first bytesRead bytes, or None when it is NULL.
  datatype Packet = Packet(headerType: byte, packetType: byte, hasAbsTimestamp: bool, channel: nat,
                           timeStamp: u32, infoField2: i32, bodySize: nat, bytesRead: nat,
                           body: Option<seq<byte>>)
  {
    predicate IsReady() {
      bytesRead == bodySize
    }

    // The body holds exactly what has been read.
    predicate WellRead() {
      if body.Some? then |body.value| == bytesRead else bytesRead == 0
    }

    function Message(): Chunk.Message {
      Chunk.Message(packetType, channel, timeStamp, infoField2, if body.Some? then body.value else [])
    }
  }

  const ZERO := Packet(0, 0, false, 0, 0, 0, 0, 0, None)

  // m_vecChannelsIn[channel] and m_channelTimestamp[channel]; a fresh channel has NULL and 0.
  datatype Channel = Channel(stored: Option<Packet>, clock: u32)

  // What one chunk does to its channel, what the caller's packet is then, and the bytes left unread.
  datatype ReadResult = Fail | Done(packet: Packet, after: Channel, rest: seq<byte>)

  datatype Basic = Basic(fmt: byte, channel: nat, size: nat)

  function ParseBasic(w: seq<byte>): (b: Option<Basic>)
    ensures b.Some? ==> 0 < b.value.size <= |w| && b.value.fmt <= MINIMUM
  {
    if w == [] then None
    else
      var fmt, low := w[0] / 0x40, w[0] % 0x40;
      if low == 0 then
        if |w| < 2 then None else Some(Basic(fmt, w[1] as int + 64, 2))
      else if low == 1 then
        if |w| < 3 then None else Some(Basic(fmt, w[2] as int * 0x100 + w[1] as int + 64, 3))
      else Some(Basic(fmt, low, 1))
  }

  // The header fields present in h overwrite those of p.
  function ApplyHeader(p: Packet, h: seq<byte>): Packet {
    if |h| < 3 then p
    else
      var p1 := p.(timeStamp := FromBe24(h));
      if |h| < 6 then p1
      else
        var p2 := p1.(bodySize := FromBe24(h[3..]), bytesRead := 0, body := if p.body.Some? then Some([]) else None);
        if |h| < 7 then p2
        else
          var p3 := p2.(packetType := h[6]);
          if |h| < 11 then p3 else p3.(infoField2 := FromLe32(h[7..]))
  }

  function AppendBody(body: Option<seq<byte>>, s: seq<byte>): Option<seq<byte>> {
    if body.Some? then Some(body.value + s) else if s == [] then None else Some(s)
  }

  // The packet a chunk header is applied to: the caller's for a LARGE header, else the stored one.
  function Base(c: Channel, p: Packet): Packet {
    if p.headerType == LARGE then p.(hasAbsTimestamp := true)
    else if c.stored.Some? then c.stored.value
    else p
  }

  // A body buffer is allocated when the message has a body and no buffer yet.
  function OpenBody(p: Packet, fmt: byte): Packet {
    if p.bodySize > 0 && p.body.None? then p.(body := Some([]), bytesRead := 0, headerType := fmt) else p
  }

  // The chunk's share of the body.
  function TakeBody(c: Channel, p: Packet, extended: bool, chunkSize: i32, w: seq<byte>): (r: ReadResult)
    ensures r.Done? ==> r.after.stored.Some? && |r.rest| <= |w|
  {
    var left := p.bodySize - p.bytesRead;
    var k := if left < chunkSize then left else chunkSize;
    if k < 0 || |w| < k then Fail
    else
      var p1 := p.(body := AppendBody(p.body, w[..k]), bytesRead := p.bytesRead + k);
      var keep := if extended then p1.(timeStamp := EXTENDED) else p1;
      if p1.IsReady() then
        var now := if p1.hasAbsTimestamp then p1.timeStamp else Wrap(p1.timeStamp + c.clock);
        Done(p1.(timeStamp := now),
             Channel(Some(keep.(body := None, bytesRead := 0, hasAbsTimestamp := false)), now), w[k..])
      else
        Done(p1.(body := None), Channel(Some(keep), c.clock), w[k..])
  }

  // Everything behind the basic header; p carries its format and channel number.
  function ReadOnChannel(c: Channel, chunkSize: i32, p: Packet, w: seq<byte>): (r: ReadResult)
    requires p.headerType <= MINIMUM
    ensures r.Done? ==> r.after.stored.Some? && |r.rest| <= |w|
  {
    var n := HeaderSize(p.headerType) - 1;
    if |w| < n then Fail
    else
      var p1 := ApplyHeader(Base(c, p), w[..n]);
      var extended := p1.timeStamp == EXTENDED;
      var n1 := if extended then n + 4 else n;
      if |w| < n1 then Fail
      else
        var p2 := if extended then p1.(timeStamp := FromBe32(w[n..])) else p1;
        TakeBody(c, OpenBody(p2, p.headerType), extended, chunkSize, w[n1..])
  }

  // The whole reader state, channel by channel.
  datatype Table = Table(stored: map<nat, Packet>, clocks: map<nat, u32>) {
    predicate Valid() {
      forall ch | ch in stored :: stored[ch].channel == ch && stored[ch].WellRead()
    }

    function At(ch: nat): Channel {
      Channel(if ch in stored then Some(stored[ch]) else None, if ch in clocks then clocks[ch] else 0)
    }

    function With(ch: nat, c: Channel): (t: Table)
      requires c.stored.Some?
      ensures forall x: nat :: t.At(x) == if x == ch then c else At(x)
    {
      Table(stored[ch := c.stored.value], clocks[ch := c.clock])
    }
  }

  datatype ChunkResult = NoChunk | GotChunk(packet: Packet, after: Table, rest: seq<byte>)

  // Only the chunk's own channel is touched.
  function ReadChunk(t: Table, chunkSize: i32, p: Packet, w: seq<byte>): (r: ChunkResult)
    ensures r.GotChunk? ==> |r.rest| < |w| && ParseBasic(w).Some?
    ensures r.GotChunk? ==> forall x: nat | x != ParseBasic(w).value.channel :: r.after.At(x) == t.At(x)
  {
    var b := ParseBasic(w);
    if b.None? then NoChunk
    else
      var Basic(fmt, ch, size) := b.value;
      var r := ReadOnChannel(t.At(ch), chunkSize, p.(headerType := fmt, channel := ch), w[size..]);
      if r.Fail? then NoChunk else GotChunk(r.packet, t.With(ch, r.after), r.rest)
  }

  class Reader {
    var channelsIn: map<nat, Packet>
    var channelTimestamp: map<nat, u32>
    var inChunkSize: i32
    var wire: seq<byte>  // what the peer has sent and nobody has read yet

    // Every stored packet carries the number of its channel, and no more body than has been read.
    ghost predicate Valid()
      reads this
    {
      State().Valid()
    }

    function State(): Table
      reads this
    {
      Table(channelsIn, channelTimestamp)
    }

    // Reads n bytes, or as many as there are.
    method ReadN(n: int) returns (s: seq<byte>)
      modifies this`wire
      ensures s + wire == old(wire)
      ensures |s| == if n < 0 then 0 else Min(n, |old(wire)|)
    {
      var k := if n <= 0 then 0 else if n < |wire| then n else |wire|;
      s, wire := wire[..k], wire[k..];
    }

    // The format and channel number; None when the connection ends inside them.
    method ReadBasic() returns (b: Option<Basic>)
      modifies this`wire
      ensures b == ParseBasic(old(wire))
      ensures b.Some? ==> b.value.size <= |old(wire)| && wire == old(wire)[b.value.size..]
    {
      var first := ReadN(1);
      if |first| == 0 {
        return None;
      }
      var fmt, channel := first[0] / 0x40, first[0] % 0x40;
      if channel == 0 {
        var second := ReadN(1);
        if |second| != 1 {
          return None;
        }
        b := Some(Basic(fmt, second[0] as int + 64, 2));
      } else if channel == 1 {
        var tail := ReadN(2);
        if |tail| != 2 {
          return None;
        }
        b := Some(Basic(fmt, tail[1] as int * 0x100 + tail[0] as int + 64, 3));
      } else {
        b := Some(Basic(fmt, channel, 1));
      }
    }

    // The message header and the extended timestamp, applied to the packet they refer to.
    method ReadHeader(base: Packet, fmt: byte) returns (ok: bool, packet: Packet, extended: bool)
      requires fmt <= MINIMUM
      modifies this`wire
      ensures ok <==> var n := HeaderSize(fmt) - 1;
        && n <= |old(wire)|
        && (ApplyHeader(base, old(wire)[..n]).timeStamp == EXTENDED ==> n + 4 <= |old(wire)|)
      ensures ok ==> var n := HeaderSize(fmt) - 1;
        var p := ApplyHeader(base, old(wire)[..n]);
        && extended == (p.timeStamp == EXTENDED)
        && wire == old(wire)[if extended then n + 4 else n..]
        && packet == if extended then p.(timeStamp := FromBe32(old(wire)[n..])) else p
    {
      packet, extended := base, false;
      var nSize := HeaderSize(fmt) - 1;
      var header := ReadN(nSize);
      if |header| != nSize {
        return false, packet, extended;
      }
      assert header == old(wire)[..nSize] && wire == old(wire)[nSize..];
      if nSize >= 3 {
        packet := packet.(timeStamp := FromBe24(header));
        if nSize >= 6 {
          packet := packet.(bodySize := FromBe24(header[3..]), bytesRead := 0,
                            body := if packet.body.Some? then Some([]) else None);
          if nSize > 6 {
            packet := packet.(packetType := header[6]);
            if nSize == 11 {
              packet := packet.(infoField2 := FromLe32(header[7..]));
            }
          }
        }
      }
      assert packet == ApplyHeader(base, header);
      extended := packet.timeStamp == EXTENDED;
      if extended {
        var s := ReadN(4);
        if |s| != 4 {
          return false, packet, extended;
        }
        assert s == old(wire)[nSize..][..4];
        packet := packet.(timeStamp := FromBe32(s));
      }
      ok := true;
    }

    // The chunk's body bytes, the stored packet, and on the last chunk the absolute timestamp.
    method ReadBody(ch: nat, packet0: Packet, extended: bool) returns (ok: bool, packet: Packet)
      modifies this
      ensures inChunkSize == old(inChunkSize)
      ensures var r := TakeBody(old(State()).At(ch), packet0, extended, inChunkSize, old(wire));
        && (ok <==> r.Done?)
        && (ok ==> packet == r.packet && State() == old(State()).With(ch, r.after) && wire == r.rest)
        && (!ok ==> State() == old(State()))
    {
      packet := packet0;
      var nToRead := packet.bodySize - packet.bytesRead;
      var nChunk := inChunkSize;
      if nToRead < nChunk {
        nChunk := nToRead;
      }
      var s := ReadN(nChunk);
      if |s| != nChunk {
        return false, packet;
      }
      assert s == old(wire)[..nChunk] && wire == old(wire)[nChunk..];
      packet := packet.(body := AppendBody(packet.body, s), bytesRead := packet.bytesRead + nChunk);
      var keep := packet;
      if extended {
        keep := keep.(timeStamp := EXTENDED);
      }
      var clock := if ch in channelTimestamp then channelTimestamp[ch] else 0;
      if packet.IsReady() {
        if !packet.hasAbsTimestamp {
          packet := packet.(timeStamp := Wrap(packet.timeStamp + clock));
        }
        clock := packet.timeStamp;
        keep := keep.(body := None, bytesRead := 0, hasAbsTimestamp := false);
      } else {
        packet := packet.(body := None);
      }
      channelTimestamp := channelTimestamp[ch := clock];
      channelsIn := channelsIn[ch := keep];
      ok := true;
    }

    // Everything behind the basic header; packet0 carries its format and channel number.
    method ReadRest(packet0: Packet) returns (ok: bool, packet: Packet)
      requires packet0.headerType <= MINIMUM
      modifies this
      ensures inChunkSize == old(inChunkSize)
      ensures var r := ReadOnChannel(old(State()).At(packet0.channel), inChunkSize, packet0, old(wire));
        && (ok <==> r.Done?)
        && (ok ==> packet == r.packet && State() == old(State()).With(packet0.channel, r.after) && wire == r.rest)
        && (!ok ==> State() == old(State()))
    {
      var fmt, ch := packet0.headerType, packet0.channel;
      packet := packet0;
      if fmt == LARGE {
        packet := packet.(hasAbsTimestamp := true);
      } else if ch in channelsIn {
        packet := channelsIn[ch];
      }
      assert packet == Base(State().At(ch), packet0);
      var extended;
      ok, packet, extended := ReadHeader(packet, fmt);
      if ok {
        if packet.bodySize > 0 && packet.body.None? {
          packet := packet.(body := Some([]), bytesRead := 0, headerType := fmt);
        }
        ok, packet := ReadBody(ch, packet, extended);
      }
    }

    method ReadPacket(packet0: Packet) returns (ok: bool, packet: Packet)
      requires Valid() && packet0.body.None? && packet0.WellRead()
      modifies this
      ensures Valid() && inChunkSize == old(inChunkSize)
      ensures ok ==> packet.IsReady() ==> packet.WellRead()
      ensures var r := ReadChunk(old(State()), inChunkSize, packet0, old(wire));
        && (ok <==> r.GotChunk?)
        && (ok ==> packet == r.packet && State() == r.after && wire == r.rest)
        && (!ok ==> State() == old(State()))
    {
      hide ReadOnChannel;
      packet := packet0;
      var basic := ReadBasic();
      if basic.None? {
        return false, packet;
      }
      packet := packet.(headerType := basic.value.fmt, channel := basic.value.channel);
      ghost var before, p, w := State(), packet, wire;
      ok, packet := ReadRest(packet);
      if ok {
        KeepsChannel(before, inChunkSize, p, w);
      }
    }
  }

  predicate Sound(p: Packet, ch: nat) {
    p.channel == ch && p.WellRead()
  }

  lemma HeaderKeeps(p: Packet, h: seq<byte>, ch: nat)
    requires Sound(p, ch)
    ensures Sound(ApplyHeader(p, h), ch)
  {
  }

  lemma BodyKeeps(c: Channel, p: Packet, extended: bool, chunkSize: i32, w: seq<byte>, ch: nat)
    requires Sound(p, ch) && (p.bodySize > 0 ==> p.body.Some?)
    ensures var r := TakeBody(c, p, extended, chunkSize, w);
      r.Done? ==>
        && Sound(r.after.stored.value, ch)
        && r.packet.channel == ch && (r.packet.IsReady() ==> r.packet.WellRead())
  {
  }

  // The packet stored by a chunk carries the number of the channel it came on, and no more body than has been read.
  lemma KeepsChannel(t: Table, chunkSize: i32, p: Packet, w: seq<byte>)
    requires p.headerType <= MINIMUM && p.WellRead()
    requires var s := t.At(p.channel).stored;
      s.Some? ==> Sound(s.value, p.channel)
    ensures var r := ReadOnChannel(t.At(p.channel), chunkSize, p, w);
      r.Done? ==>
        && r.after.stored.Some? && Sound(r.after.stored.value, p.channel)
        && r.packet.channel == p.channel && (r.packet.IsReady() ==> r.packet.WellRead())
  {
    hide ApplyHeader, TakeBody;
    var c, n := t.At(p.channel), HeaderSize(p.headerType) - 1;
    if |w| >= n {
      HeaderKeeps(Base(c, p), w[..n], p.channel);
      var p1 := ApplyHeader(Base(c, p), w[..n]);
      var extended := p1.timeStamp == EXTENDED;
      if !extended || |w| >= n + 4 {
        var p2 := if extended then p1.(timeStamp := FromBe32(w[n..])) else p1;
        BodyKeeps(c, OpenBody(p2, p.headerType), extended, chunkSize, w[if extended then n + 4 else n..], p.channel);
      }
    }
  }
}
