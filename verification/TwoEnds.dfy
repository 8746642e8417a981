// Two ends of a connection: RTMP_SendPacket for any list of messages on any channels, RTMP_ReadPacket until everything
// is read (librtmp/rtmp.c).
module TwoEnds {
  import opened Bytes
  import opened Chunk
  import opened ChunkReader
  import opened ChunkSession
  import opened ChunkWriter
  import opened Interleave
  import opened Session
  import opened SessionExact

  function Chunks(items: seq<Tagged>): seq<seq<byte>> {
    if items == [] then [] else [items[0].chunk] + Chunks(items[1..])
  }

  lemma {:induction false} ChunksConcat(a: seq<Tagged>, b: seq<Tagged>)
    ensures Chunks(a + b) == Chunks(a) + Chunks(b)
    decreases |a|
  {
    if a == [] {
      assert a + b == b;
    } else {
      assert (a + b)[1..] == a[1..] + b;
      ChunksConcat(a[1..], b);
    }
  }

  lemma {:induction false} ChunksOfTag(ch: nat, chunks: seq<seq<byte>>)
    ensures Chunks(Tag(ch, chunks)) == chunks
    decreases |chunks|
  {
    if chunks != [] {
      ChunksOfTag(ch, chunks[1..]);
      assert Tag(ch, chunks)[1..] == Tag(ch, chunks[1..]);
    }
  }

  lemma {:induction false} FlattenIsWire(items: seq<Tagged>)
    ensures Flatten(Chunks(items)) == Wire(items)
    decreases |items|
  {
    if items != [] {
      FlattenIsWire(items[1..]);
      assert Chunks(items)[1..] == Chunks(items[1..]);
    }
  }

  // The writer remembers the last packet of every channel.
  ghost predicate Remembers(writer: Writer, ss: Senders)
    reads writer
  {
    forall ch: nat :: writer.Previous(ch) == LastOf(SenderAt(ss, ch))
  }

  // One message more.
  lemma ItemsStep(ss: Senders, sends: seq<Send>, size: nat)
    requires size > 0 && sends != [] && SessionSendable(ss, sends)
    ensures var Send(headerType, m) := sends[0];
      var s := SenderAt(ss, m.channel);
      && FormatOf(s, headerType, m) <= MINIMUM
      && Chunks(SessionItems(ss, sends, size))
         == ChunksOf(s, headerType, m, size)
            + Chunks(SessionItems(ss[m.channel := Advance(s, headerType, m)], sends[1..], size))
  {
    hide Advance, ChunksOf;
    var Send(headerType, m) := sends[0];
    var s := SenderAt(ss, m.channel);
    LeftOut(s, headerType, m);
    var chunks := ChunksOf(s, headerType, m, size);
    ChunksConcat(Tag(m.channel, chunks),
                 SessionItems(ss[m.channel := Advance(s, headerType, m)], sends[1..], size));
    ChunksOfTag(m.channel, chunks);
  }

  // One message, on its channel.
  method SendOne(writer: Writer, x: Send, ghost ss: Senders)
    requires writer.outChunkSize > 0 && Remembers(writer, ss)
    requires Sendable(SenderAt(ss, x.m.channel), x.headerType, x.m)
    modifies writer
    ensures FormatOf(SenderAt(ss, x.m.channel), x.headerType, x.m) <= MINIMUM
    ensures var s := SenderAt(ss, x.m.channel);
      && writer.outChunkSize == old(writer.outChunkSize)
      && Remembers(writer, ss[x.m.channel := Advance(s, x.headerType, x.m)])
      && writer.writes == old(writer.writes) + ChunksOf(s, x.headerType, x.m, writer.outChunkSize)
  {
    hide MessageChunks;
    LeftOut(SenderAt(ss, x.m.channel), x.headerType, x.m);
    var packet := NewPacket(x.headerType, x.m);
    assert writer.Previous(x.m.channel) == LastOf(SenderAt(ss, x.m.channel));
    var ok := writer.SendPacket(packet);
    ghost var ss' := ss[x.m.channel := Advance(SenderAt(ss, x.m.channel), x.headerType, x.m)];
    forall ch: nat
      ensures writer.Previous(ch) == LastOf(SenderAt(ss', ch))
    {
      assert old(writer.Previous(ch)) == LastOf(SenderAt(ss, ch));
    }
  }

  // Every message is sent as the session says, whatever channels the others were on.
  method SendAll(writer: Writer, sends: seq<Send>, ghost ss: Senders)
    requires writer.outChunkSize > 0 && Remembers(writer, ss) && SessionSendable(ss, sends)
    modifies writer
    ensures writer.outChunkSize == old(writer.outChunkSize) && Remembers(writer, SessionAfter(ss, sends))
    ensures writer.writes == old(writer.writes) + Chunks(SessionItems(ss, sends, writer.outChunkSize))
  {
    hide ChunksOf, SessionItems, Advance, Sendable, Remembers;
    ghost var ss': Senders, size := ss, writer.outChunkSize;
    ghost var all := writer.writes + Chunks(SessionItems(ss, sends, size));
    for i := 0 to |sends|
      invariant writer.outChunkSize == size && Remembers(writer, ss') && SessionSendable(ss', sends[i..])
      invariant writer.writes + Chunks(SessionItems(ss', sends[i..], size)) == all
      invariant SessionAfter(ss', sends[i..]) == SessionAfter(ss, sends)
    {
      var x := sends[i];
      assert sends[i..][1..] == sends[i + 1..];
      ItemsStep(ss', sends[i..], size);
      ghost var writes := writer.writes;
      SendOne(writer, x, ss');
      ghost var s := SenderAt(ss', x.m.channel);
      ss' := ss'[x.m.channel := Advance(s, x.headerType, x.m)];
    }
    NoMore(ss', size);
  }

  lemma NoMore(ss: Senders, size: nat)
    requires size > 0
    ensures Chunks(SessionItems(ss, [], size)) == []
  {
  }

  // RTMP_ReadPacket, each time with a zeroed packet, until nothing is left or it fails.
  method ReceiveAll(reader: Reader) returns (ok: bool, got: seq<Message>)
    requires reader.Valid()
    modifies reader
    ensures reader.Valid() && reader.inChunkSize == old(reader.inChunkSize)
    ensures var r := ReadAll(old(reader.State()), old(reader.inChunkSize), old(reader.wire));
      && (ok <==> r.Run?)
      && (ok ==> got == r.got && reader.State() == r.after && reader.wire == [])
  {
    hide ReadChunk, ReadAll;
    ghost var whole := ReadAll(reader.State(), reader.inChunkSize, reader.wire);
    got := [];
    while reader.wire != []
      invariant reader.Valid() && reader.inChunkSize == old(reader.inChunkSize)
      invariant Then(got, ReadAll(reader.State(), reader.inChunkSize, reader.wire)) == whole
      decreases |reader.wire|
    {
      ReadAllFirst(reader.State(), reader.inChunkSize, reader.wire);
      var packet;
      ok, packet := reader.ReadPacket(ZERO);
      if !ok {
        return;
      }
      ghost var before := got;
      if packet.IsReady() {
        got := got + [packet.Message()];
      }
      ThenThen(before, if packet.IsReady() then [packet.Message()] else [],
               ReadAll(reader.State(), reader.inChunkSize, reader.wire));
    }
    ReadAllEmpty(reader.State(), reader.inChunkSize);
    ok := true;
  }

  // A whole session between two ends in step: what can be parsed is delivered to the last byte, dated by the reader's
  // clock, and with clocks that agree it is exactly what was sent if and only if it is clean.
  method Converse(writer: Writer, reader: Reader, sends: seq<Send>, ghost ss: Senders) returns (ok: bool, got: seq<Message>)
    requires writer.outChunkSize == reader.inChunkSize > 0 && writer.writes == []
    requires reader.Valid() && Remembers(writer, ss) && InStep(ss, reader.State()) && SessionSendable(ss, sends)
    modifies writer, reader
    ensures Remembers(writer, SessionAfter(ss, sends))
    ensures SessionOk(ss, sends) ==>
      ok && got == SessionDeliveries(ss, sends) && InStep(SessionAfter(ss, sends), reader.State()) && reader.wire == []
    ensures NoDrift(ss) && NoFalseTime(ss, sends, old(reader.inChunkSize)) ==>
      (ok && got == Messages(sends) <==> SessionClean(ss, sends))
  {
    hide ReadAll, SessionItems, InStep;
    ghost var t, size := reader.State(), reader.inChunkSize;
    SendAll(writer, sends, ss);
    ghost var items := SessionItems(ss, sends, size);
    assert [] + Chunks(items) == Chunks(items);
    FlattenIsWire(items);
    reader.wire := Flatten(writer.writes);
    ok, got := ReceiveAll(reader);
    if SessionOk(ss, sends) {
      SessionRead(ss, t, sends, size);
    }
    if NoDrift(ss) && NoFalseTime(ss, sends, size) {
      SessionExactIff(ss, t, sends, size);
    }
  }
}
