// A published stream, read and played back: the chunks RTMP_Write causes to be sent, read by
// RTMP_GetNextMediaPacket, give back the messages and so the FLV tags (librtmp/rtmp.c).
module Relay {
  import opened Bytes
  import opened Chunk
  import opened ChunkReader
  import opened ChunkSession
  import opened Flv
  import F = FlvRead
  import opened Interleave
  import opened Publish
  import P = Publisher
  import opened Session
  import opened Octets

  // ---------- A message's chunks and the packet they complete ----------

  // Each chunk but the last delivers nothing, the last one delivers m.
  predicate Quiet(ch: nat, c: Channel, size: i32, chunks: seq<seq<byte>>, m: Message)
    decreases |chunks|
  {
    && chunks != []
    && var s := StepOn(ch, c, size, chunks[0]);
    && s.Step?
    && if |chunks| == 1 then s.got == [m] else s.got == [] && Quiet(ch, s.after, size, chunks[1..], m)
  }

  lemma QuietStep(ch: nat, c: Channel, size: i32, chunks: seq<seq<byte>>, m: Message, step: Step)
    requires chunks != [] && step == StepOn(ch, c, size, chunks[0]) && step.Step?
    requires if chunks[1..] == [] then step.got == [m] else step.got == [] && Quiet(ch, step.after, size, chunks[1..], m)
    ensures Quiet(ch, c, size, chunks, m)
  {
    hide StepOn;
  }

  lemma {:induction false} LaterQuiet(f: Flight, c: Channel, size: i32, k: nat)
    requires f.Valid() && size > 0 && k < |f.m.body| && f.Halfway(k, c)
    ensures Quiet(f.m.channel, c, size, LaterChunks(f.m.channel, f.t, f.m.body[k..], size),
                  f.m.(timeStamp := f.Due()))
    decreases |f.m.body| - k
  {
    hide StepOn, Quiet;
    var n := Min(|f.m.body| - k, size);
    var chunks := LaterChunks(f.m.channel, f.t, f.m.body[k..], size);
    assert f.m.body[k..][n..] == f.m.body[k + n..];
    var step := NextStep(f, c, size, k, n);
    assert chunks[1..] == LaterChunks(f.m.channel, f.t, f.m.body[k + n..], size);
    if k + n < |f.m.body| {
      LaterQuiet(f, step.after, size, k + n);
    } else {
      assert f.m.body[k + n..] == [];
    }
    QuietStep(f.m.channel, c, size, chunks, f.m.(timeStamp := f.Due()), step);
  }

  // The chunks of one message.
  lemma MessageQuiet(s: Option<Sender>, c: Channel, headerType: byte, m: Message, size: i32)
    requires Sync(m.channel, s, c) && Sendable(s, headerType, m) && Parsable(s, headerType, m) && size > 0
    ensures FormatOf(s, headerType, m) <= MINIMUM
    ensures Quiet(m.channel, c, size, ChunksOf(s, headerType, m, size), Expected(s, headerType, m))
  {
    hide StepOn, ApplyHeader, Quiet, Sync;
    LeftOut(s, headerType, m);
    FlightIsDue(s, c, headerType, m);
    var f := FlightOf(s, headerType, m, c.clock);
    var fmt := FormatOf(s, headerType, m);
    HeaderApplied(s, c, headerType, m, fmt, MessageHeader(fmt, f.t, m));
    var k := Min(|m.body|, size);
    var chunks := ChunksOf(s, headerType, m, size);
    var step := FirstStep(f, c, size, fmt, MessageHeader(fmt, f.t, f.m));
    assert chunks[1..] == LaterChunks(m.channel, f.t, m.body[k..], size);
    if k < |m.body| {
      LaterQuiet(f, step.after, size, k);
    } else {
      assert m.body[k..] == [];
    }
    QuietStep(m.channel, c, size, chunks, Expected(s, headerType, m), step);
  }

  // A packet structure handed over from the chunk before makes no difference: what a header leaves out comes from the
  // channel's stored packet, not from it.
  lemma SamePacket(t: Table, size: i32, p: Packet, w: seq<byte>)
    requires p.body == None && p.bytesRead == 0 && ParseBasic(w).Some?
    requires p == ZERO || t.At(ParseBasic(w).value.channel).stored.Some?
    ensures ReadChunk(t, size, p, w) == ReadChunk(t, size, ZERO, w)
  {
    hide TakeBody;
    var b := ParseBasic(w).value;
    var c := t.At(b.channel);
    var p0, p1 := ZERO.(headerType := b.fmt, channel := b.channel), p.(headerType := b.fmt, channel := b.channel);
    var n := HeaderSize(b.fmt) - 1;
    if b.fmt == LARGE && |w[b.size..]| >= n {
      assert ApplyHeader(Base(c, p0), w[b.size..][..n]) == ApplyHeader(Base(c, p1), w[b.size..][..n]);
    }
  }

  predicate IsMedia(m: Message) {
    (m.packetType == AUDIO || m.packetType == VIDEO) && m.body != []
  }

  // A chunk that delivers nothing, or m.
  lemma ChunkStep(t: Table, size: i32, p: Packet, x: Tagged, rest: seq<byte>)
    requires t.Valid() && p.body == None && p.bytesRead == 0 && (p == ZERO || t.At(x.channel).stored.Some?)
    requires StepOn(x.channel, t.At(x.channel), size, x.chunk).Step?
    ensures var s := StepOn(x.channel, t.At(x.channel), size, x.chunk);
      var r := ReadChunk(t, size, p, x.chunk + rest);
      && x.chunk != [] && r.GotChunk? && r.after == t.With(x.channel, s.after) && r.rest == rest && r.after.Valid()
      && (r.packet.IsReady() <==> s.got != [])
      && (s.got != [] ==> s.got == [r.packet.Message()] && r.packet.bodySize == |r.packet.Message().body|)
  {
    hide ReadOnChannel;
    ReadsFirst(t, size, x, rest);
    StepKeepsChannel(t, size, x);
    var b := ParseBasic(x.chunk).value;
    BasicMore(x.chunk, rest);
    SamePacket(t, size, p, x.chunk + rest);
    KeepsChannel(t, size, ZERO.(headerType := b.fmt, channel := x.channel), (x.chunk + rest)[b.size..]);
  }

  predicate HasMessage(p: Packet, m: Message) {
    p.Message() == m && p.packetType == m.packetType && p.bodySize == |m.body|
  }

  lemma Playable(peer: F.Peer, p: Packet, m: Message, size: i32)
    requires HasMessage(p, m) && IsMedia(m)
    ensures F.ClientPacket(peer, p) == 1 && F.ChunkSizeAfter(p, size) == size && p.bodySize != 0
  {
  }

  // One turn of the loop in RTMP_GetNextMediaPacket.
  lemma MediaTurn(peer: F.Peer, t: Table, size: i32, p: Packet, w: seq<byte>, m: Message)
    requires ReadChunk(t, size, p, w).GotChunk?
    ensures var r := ReadChunk(t, size, p, w);
      && (!r.packet.IsReady() ==>
            F.NextMedia(peer, t, size, p, w) == F.NextMedia(peer, r.after, size, F.Reusable(r.packet), r.rest))
      && (r.packet.IsReady() && HasMessage(r.packet, m) && IsMedia(m) ==>
            F.NextMedia(peer, t, size, p, w) == F.Got(1, r.packet, r.after, size, r.rest))
  {
    hide ReadChunk, F.ClientPacket, F.ChunkSizeAfter, HasMessage, IsMedia;
    var r := ReadChunk(t, size, p, w);
    if HasMessage(r.packet, m) && IsMedia(m) {
      Playable(peer, r.packet, m, size);
    }
  }

  // Reading up to the end of one message's chunks.
  lemma {:induction false} NextMediaIs(peer: F.Peer, t: Table, size: i32, p: Packet, ch: nat, chunks: seq<seq<byte>>,
                                       m: Message, rest: seq<byte>)
    requires t.Valid() && p.body == None && p.bytesRead == 0 && (p == ZERO || t.At(ch).stored.Some?)
    requires Quiet(ch, t.At(ch), size, chunks, m) && IsMedia(m)
    ensures var r := F.NextMedia(peer, t, size, p, Chunk.Flatten(chunks) + rest);
      && r.Got? && r.kind == 1 && HasMessage(r.packet, m) && r.after.Valid() && r.size == size && r.rest == rest
      && RunOn(ch, t.At(ch), size, chunks).Step? && r.after.At(ch) == RunOn(ch, t.At(ch), size, chunks).after
    decreases |chunks|
  {
    hide StepOn, ReadChunk, F.NextMedia, HasMessage, IsMedia;
    var x, more := Tagged(ch, chunks[0]), Chunk.Flatten(chunks[1..]) + rest;
    assert Chunk.Flatten(chunks) + rest == x.chunk + more;
    var s := StepOn(ch, t.At(ch), size, chunks[0]);
    ChunkStep(t, size, p, x, more);
    MediaTurn(peer, t, size, p, x.chunk + more, m);
    var r := ReadChunk(t, size, p, x.chunk + more);
    if |chunks| == 1 {
      assert more == rest;
      Delivered(r.packet, m);
    } else {
      NextMediaIs(peer, r.after, size, F.Reusable(r.packet), ch, chunks[1..], m, rest);
    }
  }

  lemma Delivered(p: Packet, m: Message)
    requires p.Message() == m && p.bodySize == |m.body|
    ensures HasMessage(p, m)
  {
  }

  predicate Carries(packets: seq<Packet>, ms: seq<Message>) {
    |packets| == |ms| && forall i | 0 <= i < |ms| :: HasMessage(packets[i], ms[i])
  }

  predicate AllMedia(sends: seq<Send>) {
    forall x | x in sends :: IsMedia(x.m)
  }

  lemma FlattenConcat(a: seq<seq<byte>>, b: seq<seq<byte>>)
    ensures Chunk.Flatten(a + b) == Chunk.Flatten(a) + Chunk.Flatten(b)
  {
    if a == [] {
      assert a + b == b;
    } else {
      assert (a + b)[0] == a[0] && (a + b)[1..] == a[1..] + b;
      FlattenConcat(a[1..], b);
    }
  }

  // A script of audio and video messages on one channel comes out of RTMP_GetNextMediaPacket message by message, dated
  // by the reader's clock.
  lemma {:induction false} ScriptMedia(peer: F.Peer, t: Table, ch: nat, s: Option<Sender>, sends: seq<Send>, size: i32)
    requires size > 0 && t.Valid() && Sync(ch, s, t.At(ch)) && Runnable(ch, s, sends) && AllMedia(sends)
    ensures Carries(F.MediaPackets(peer, t, size, Chunk.Flatten(ScriptChunks(ch, s, sends, size))), Deliveries(s, sends))
    decreases |sends|
  {
    hide Sync, Advance, ChunksOf, Quiet, F.NextMedia, HasMessage, ReadChunk, RunOn, IsMedia;
    if sends == [] {
      NothingMore(peer, t, size);
    } else {
      var x, s' := sends[0], Some(Advance(s, sends[0].headerType, sends[0].m));
      var m := Expected(s, x.headerType, x.m);
      MessageQuiet(s, t.At(ch), x.headerType, x.m, size);
      MessageOn(s, t.At(ch), x.headerType, x.m, size);
      var chunks, later := ChunksOf(s, x.headerType, x.m, size), ScriptChunks(ch, s', sends[1..], size);
      FlattenConcat(chunks, later);
      StillMedia(x.m, m.timeStamp);
      NextMediaIs(peer, t, size, ZERO, ch, chunks, m, Chunk.Flatten(later));
      var r := F.NextMedia(peer, t, size, ZERO, Chunk.Flatten(chunks) + Chunk.Flatten(later));
      ScriptMedia(peer, r.after, ch, s', sends[1..], size);
    }
  }

  lemma StillMedia(m: Message, time: u32)
    requires IsMedia(m)
    ensures IsMedia(m.(timeStamp := time))
  {
  }

  lemma NothingMore(peer: F.Peer, t: Table, size: i32)
    ensures F.MediaPackets(peer, t, size, []) == []
  {
  }

  // ---------- Messages as published ----------

  // No message is shrunk behind an extended timestamp.
  predicate Readable(s: Option<Sender>, sends: seq<Send>)
    decreases |sends|
  {
    sends == [] ||
    (Parsable(s, sends[0].headerType, sends[0].m)
     && Readable(Some(Advance(s, sends[0].headerType, sends[0].m)), sends[1..]))
  }

  // The messages with the info field that reaches the reader: LARGE headers carry it, the others keep the last one.
  function Heard(info: i32, sends: seq<Send>): (r: seq<Send>)
    ensures |r| == |sends|
    ensures forall i | 0 <= i < |sends| ::
      r[i].headerType == sends[i].headerType && r[i].m == sends[i].m.(infoField2 := r[i].m.infoField2)
    decreases |sends|
  {
    if sends == [] then []
    else
      var x := sends[0];
      var i := if x.headerType == LARGE then x.m.infoField2 else info;
      [Send(x.headerType, x.m.(infoField2 := i))] + Heard(i, sends[1..])
  }

  predicate Alike(s: Option<Sender>, s': Option<Sender>, info: i32) {
    && (s.Some? <==> s'.Some?)
    && (s.None? ==> info == 0)
    && (s.Some? ==> s'.value == s.value.(last := s.value.last.(infoField2 := info)))
  }

  // What may be published on one channel, whatever its info field.
  predicate Sends(ch: nat, sends: seq<Send>) {
    && 2 <= ch <= 65599
    && forall x | x in sends ::
         x.m.channel == ch && (x.headerType == LARGE || x.headerType == MEDIUM) && |x.m.body| < B24
  }

  lemma OneHeard(s: Option<Sender>, s': Option<Sender>, info: i32, x: Send, y: Send, size: nat)
    requires Alike(s, s', info) && (x.headerType == LARGE || x.headerType == MEDIUM) && size > 0
    requires y.headerType == x.headerType
    requires y.m == x.m.(infoField2 := if x.headerType == LARGE then x.m.infoField2 else info)
    ensures var fmt := FormatOf(s, x.headerType, x.m);
      && fmt == FormatOf(s', y.headerType, y.m) <= MINIMUM
      && WireTime(LastOf(s), x.headerType, x.m) == WireTime(LastOf(s'), y.headerType, y.m)
      && ChunksOf(s, x.headerType, x.m, size) == MessageChunks(fmt, WireTime(LastOf(s), x.headerType, x.m), x.m, size)
      && ChunksOf(s, x.headerType, x.m, size) == ChunksOf(s', y.headerType, y.m, size)
    ensures Alike(Some(Advance(s, x.headerType, x.m)), Some(Advance(s', y.headerType, y.m)), y.m.infoField2)
  {
  }

  // On the wire, and for the reader, only the heard info fields exist.
  lemma {:induction false} HeardIsSent(ch: nat, s: Option<Sender>, s': Option<Sender>, info: i32, sends: seq<Send>,
                                       size: nat)
    requires Alike(s, s', info) && Sends(ch, sends) && size > 0 && Readable(s, sends)
    ensures Runnable(ch, s', Heard(info, sends))
    ensures P.SendAll(LastOf(s), sends, size) == ScriptChunks(ch, s', Heard(info, sends), size)
    ensures Clean(s, sends) <==> Clean(s', Heard(info, sends))
    decreases |sends|
  {
    hide Advance, ChunksOf, WireTime, MessageChunks, Alike;
    if sends != [] {
      var x, y := sends[0], Heard(info, sends)[0];
      var t, t' := Advance(s, x.headerType, x.m), Advance(s', y.headerType, y.m);
      OneHeard(s, s', info, x, y, size);
      OneSendable(s, s', info, x, y, ch);
      AdvanceLast(s, x);
      HeardIsSent(ch, Some(t), Some(t'), y.m.infoField2, sends[1..], size);
      assert Heard(info, sends)[1..] == Heard(y.m.infoField2, sends[1..]);
    }
  }

  lemma AdvanceLast(s: Option<Sender>, x: Send)
    ensures LastOf(Some(Advance(s, x.headerType, x.m))) == Some(Remember(x.m))
  {
  }

  lemma OneSendable(s: Option<Sender>, s': Option<Sender>, info: i32, x: Send, y: Send, ch: nat)
    requires Alike(s, s', info) && Sends(ch, [x]) && Parsable(s, x.headerType, x.m)
    requires y.headerType == x.headerType
    requires y.m == x.m.(infoField2 := if x.headerType == LARGE then x.m.infoField2 else info)
    ensures Sendable(s', y.headerType, y.m) && Parsable(s', y.headerType, y.m)
    ensures s.Some? ==> s'.value.field == s.value.field
  {
    assert [x][0] == x;
  }

  // ---------- Chunk size ----------

  // A message that is not for the player, read through: the loop goes on behind it, with the packet structure it left.
  lemma {:induction false} ReadsPast(peer: F.Peer, t: Table, size: i32, p: Packet, ch: nat, chunks: seq<seq<byte>>,
                                     m: Message, rest: seq<byte>) returns (t': Table, p': Packet)
    requires t.Valid() && p.body == None && p.bytesRead == 0 && (p == ZERO || t.At(ch).stored.Some?)
    requires Quiet(ch, t.At(ch), size, chunks, m) && m.packetType == 0x01 && m.body != []
    ensures F.NextMedia(peer, t, size, p, Chunk.Flatten(chunks) + rest)
         == F.NextMedia(peer, t', F.ChunkSizeAfter(p', size), F.Reusable(p'), rest)
    ensures HasMessage(p', m) && t'.Valid()
    ensures RunOn(ch, t.At(ch), size, chunks).Step? && t'.At(ch) == RunOn(ch, t.At(ch), size, chunks).after
    decreases |chunks|
  {
    hide StepOn, ReadChunk, F.NextMedia, HasMessage;
    var x, more := Tagged(ch, chunks[0]), Chunk.Flatten(chunks[1..]) + rest;
    assert Chunk.Flatten(chunks) + rest == x.chunk + more;
    ChunkStep(t, size, p, x, more);
    MediaTurn(peer, t, size, p, x.chunk + more, m);
    var r := ReadChunk(t, size, p, x.chunk + more);
    if |chunks| == 1 {
      assert more == rest;
      Delivered(r.packet, m);
      t', p' := r.after, r.packet;
      ControlTurn(peer, t, size, p, x.chunk + more, m);
    } else {
      t', p' := ReadsPast(peer, r.after, size, F.Reusable(r.packet), ch, chunks[1..], m, rest);
    }
  }

  lemma ControlTurn(peer: F.Peer, t: Table, size: i32, p: Packet, w: seq<byte>, m: Message)
    requires ReadChunk(t, size, p, w).GotChunk?
    requires var r := ReadChunk(t, size, p, w);
      r.packet.IsReady() && HasMessage(r.packet, m) && m.packetType == 0x01 && m.body != []
    ensures var r := ReadChunk(t, size, p, w);
      F.NextMedia(peer, t, size, p, w)
      == F.NextMedia(peer, r.after, F.ChunkSizeAfter(r.packet, size), F.Reusable(r.packet), r.rest)
  {
    hide ReadChunk, F.ChunkSizeAfter;
  }

  // A set-chunk-size message is not handed to the player, and from then on chunks are read with the size in it: a
  // four-byte number, most significant byte first.
  lemma ChunkSizeChanges(peer: F.Peer, t: Table, s: Option<Sender>, headerType: byte, m: Message, size: i32, rest: seq<byte>)
    returns (t': Table, p': Packet)
    requires size > 0 && t.Valid() && Sync(m.channel, s, t.At(m.channel))
    requires Sendable(s, headerType, m) && Parsable(s, headerType, m)
    requires m.packetType == 0x01 && |m.body| == 4 && BigEndian(m.body) < 0x8000_0000
    ensures FormatOf(s, headerType, m) <= MINIMUM
    ensures F.NextMedia(peer, t, size, ZERO, Chunk.Flatten(ChunksOf(s, headerType, m, size)) + rest)
         == F.NextMedia(peer, t', BigEndian(m.body), p', rest)
    ensures t'.Valid() && p'.body == None && p'.bytesRead == 0
    ensures Sync(m.channel, Some(Advance(s, headerType, m)), t'.At(m.channel))
  {
    hide StepOn, Quiet, Sync, F.NextMedia, BigEndian, RunOn;
    MessageQuiet(s, t.At(m.channel), headerType, m, size);
    MessageOn(s, t.At(m.channel), headerType, m, size);
    var p;
    t', p := ReadsPast(peer, t, size, ZERO, m.channel, ChunksOf(s, headerType, m, size), Expected(s, headerType, m), rest);
    p' := F.Reusable(p);
    SizeIs(p, Expected(s, headerType, m), size);
  }

  lemma SizeIs(p: Packet, m: Message, size: i32)
    requires HasMessage(p, m) && m.packetType == 0x01 && |m.body| == 4 && BigEndian(m.body) < 0x8000_0000
    ensures F.ChunkSizeAfter(p, size) == BigEndian(m.body)
  {
    hide BigEndian;
    FromBe32Is(m.body);
    assert m.body[..4] == m.body;
  }

  // What the player is handed: audio, video, aggregates, and metadata; or the end of the stream, told in a command.
  lemma {:induction false} OnlyMedia(peer: F.Peer, t: Table, size: i32, p: Packet, w: seq<byte>)
    ensures var r := F.NextMedia(peer, t, size, p, w);
      r.Got? ==>
        && r.packet.IsReady() && r.packet.bodySize != 0
        && (r.kind == 1 <==>
              r.packet.packetType == 0x08 || r.packet.packetType == 0x09 || r.packet.packetType == 0x16
              || (r.packet.packetType == 0x12 && peer.isMetadata(r.packet.Message().body)))
        && (r.kind == 2 ==> (r.packet.packetType == 0x11 || r.packet.packetType == 0x14) && peer.ends(r.packet))
    decreases |w|
  {
    hide ReadChunk, F.ChunkSizeAfter;
    var c := ReadChunk(t, size, p, w);
    if c.GotChunk? {
      OnlyMedia(peer, c.after, size, F.Reusable(c.packet), c.rest);
      if c.packet.IsReady() {
        OnlyMedia(peer, c.after, F.ChunkSizeAfter(c.packet, size), F.Reusable(c.packet), c.rest);
      }
    }
  }
}
