// What a reader makes of a published stream, script data included (librtmp/rtmp.c, RTMP_Write and RTMP_ReadPacket).
module Published {
  import opened Bytes
  import Chunk
  import opened ChunkReader
  import opened ChunkSession
  import opened Flv
  import opened Interleave
  import opened Publish
  import opened Publisher
  import opened PublishPlay
  import opened Relay
  import opened Session
  import TwoEnds

  // "@setDataFrame" as an AMF0 string.
  const AT_SET: seq<byte> := [0x40, 0x73, 0x65, 0x74]
  const DATA: seq<byte> := [0x44, 0x61, 0x74, 0x61]
  const FRAME: seq<byte> := [0x46, 0x72, 0x61, 0x6d, 0x65]

  predicate Spells(s: seq<byte>, text: string) {
    |s| == |text| && forall i | 0 <= i < |s| :: s[i] == text[i] as int
  }

  lemma Words()
    ensures Spells(AT_SET, "@set") && Spells(DATA, "Data") && Spells(FRAME, "Frame")
    ensures |AT_SET + DATA + FRAME| == 13
  {
  }

  // The message tag t is read back as. Script data, and the first audio or video of a stream, at time 0, are sent with a
  // whole header: whatever came before, they have their own time and the stream's id. The others have the id that was
  // read last; their times are those of the reader's clock.
  ghost predicate ReadAs(m: Chunk.Message, t: Tag, streamId: i32, before: i32) {
    && m.packetType == t.tagType && m.channel == 4
    && (t.tagType == 0x12 ==>
          m.timeStamp == t.time && m.infoField2 == streamId
          && m.body == [0x02, 0, 13] + (AT_SET + DATA + FRAME) + t.data)
    && (t.tagType != 0x12 ==> m.body == t.data)
    && ((t.tagType == 0x08 || t.tagType == 0x09) && t.time == 0 ==> m.timeStamp == 0 && m.infoField2 == streamId)
    && (t.tagType != 0x12 && !((t.tagType == 0x08 || t.tagType == 0x09) && t.time == 0) ==> m.infoField2 == before)
  }

  // The stream id read last.
  function IdBefore(ms: seq<Chunk.Message>, i: nat): i32
    requires i <= |ms|
  {
    if i == 0 then 0 else ms[i - 1].infoField2
  }

  ghost predicate AllReadAs(ms: seq<Chunk.Message>, tags: seq<Tag>, streamId: i32) {
    |ms| == |tags| && forall i | 0 <= i < |tags| :: ReadAs(ms[i], tags[i], streamId, IdBefore(ms, i))
  }

  // Tags whose messages are not longer than a message may be.
  predicate Sized(tags: seq<Tag>) {
    Publishable(tags) && forall t | t in tags :: |t.data| + 16 < 0x100_0000
  }

  lemma SendsSized(tags: seq<Tag>, streamId: i32)
    requires Sized(tags)
    ensures Sends(SOURCE_CHANNEL, MessagesOf(tags, streamId))
  {
    forall x | x in MessagesOf(tags, streamId)
      ensures x.m.channel == SOURCE_CHANNEL && (x.headerType == Chunk.LARGE || x.headerType == Chunk.MEDIUM)
              && |x.m.body| < B24
    {
      var i :| 0 <= i < |tags| && x == MessageOf(tags[i], streamId);
      assert tags[i] in tags;
    }
  }

  lemma SetDataFrameIs()
    ensures SET_DATA_FRAME == [0x02, 0, 13] + (AT_SET + DATA + FRAME)
  {
  }

  // One message, `info` being the id read last.
  lemma OneRead(before: Option<Sender>, t: Tag, streamId: i32, info: i32)
    ensures var x := MessageOf(t, streamId);
      var heard := x.m.(infoField2 := if x.headerType == Chunk.LARGE then streamId else info);
      && ReadAs(Expected(before, x.headerType, heard), t, streamId, info)
      && Expected(before, x.headerType, heard).infoField2 == heard.infoField2
  {
    SetDataFrameIs();
    assert [] + t.data == t.data;
  }

  lemma {:induction false} HeardFrom(info: i32, sends: seq<Send>, i: nat)
    requires i < |sends|
    ensures var before := if i == 0 then info else Heard(info, sends)[i - 1].m.infoField2;
      var x := sends[i];
      Heard(info, sends)[i]
      == Send(x.headerType, x.m.(infoField2 := if x.headerType == Chunk.LARGE then x.m.infoField2 else before))
    decreases |sends|
  {
    if i > 0 {
      var first := Heard(info, sends)[0];
      HeardFrom(first.m.infoField2, sends[1..], i - 1);
      assert Heard(info, sends)[1..] == Heard(first.m.infoField2, sends[1..]);
    }
  }

  // What is delivered for what is heard of a published stream.
  lemma DeliveredAreRead(tags: seq<Tag>, streamId: i32)
    ensures AllReadAs(Deliveries(None, Heard(0, MessagesOf(tags, streamId))), tags, streamId)
  {
    hide Deliveries, Heard, Expected, ReadAs, MessageOf, ScriptAfter;
    var sends := MessagesOf(tags, streamId);
    var heard := Heard(0, sends);
    var ms := Deliveries(None, heard);
    DeliveriesLength(None, heard);
    forall i | 0 <= i < |tags|
      ensures ReadAs(ms[i], tags[i], streamId, IdBefore(ms, i))
    {
      DeliveredAt(None, heard, i);
      HeardFrom(0, sends, i);
      var before := if i == 0 then 0 else heard[i - 1].m.infoField2;
      OneRead(ScriptAfter(None, heard[..i]), tags[i], streamId, before);
      MessageParts(tags[i], streamId);
      if i > 0 {
        DeliveredAt(None, heard, i - 1);
        KeepsInfo(ScriptAfter(None, heard[..i - 1]), heard[i - 1]);
      }
    }
  }

  lemma MessageParts(t: Tag, streamId: i32)
    ensures MessageOf(t, streamId).m.infoField2 == streamId
  {
  }

  lemma KeepsInfo(s: Option<Sender>, x: Send)
    ensures Expected(s, x.headerType, x.m).infoField2 == x.m.infoField2
  {
  }

  lemma {:induction false} WireIs(ch: nat, chunks: seq<seq<byte>>)
    ensures Wire(Session.Tag(ch, chunks)) == Chunk.Flatten(chunks)
    decreases |chunks|
  {
    if chunks != [] {
      WireIs(ch, chunks[1..]);
    }
  }

  // Chunks of one channel, read off the wire.
  lemma WireRead(ch: nat, t: Table, size: i32, chunks: seq<seq<byte>>)
    requires RunOn(ch, t.At(ch), size, chunks).Step?
    ensures var r := ReadAll(t, size, Chunk.Flatten(chunks));
      r.Run? && r.got == RunOn(ch, t.At(ch), size, chunks).got
  {
    hide StepOn, ReadAll, RunItems;
    var items := Session.Tag(ch, chunks);
    WireIs(ch, chunks);
    if chunks == [] {
      ReadAllEmpty(t, size);
    } else {
      var r := RunOn(ch, t.At(ch), size, chunks);
      RunTagged(t, size, ch, chunks, []);
      NoItems(t.With(ch, r.after), size, []);
      assert items + [] == items && r.got + [] == r.got;
      RunIsRead(t, size, items);
    }
  }

  // A published stream, read to its end: every tag arrives, script data included.
  lemma PublishedRead(tags: seq<Tag>, streamId: i32, size: i32)
    requires size > 0 && Sized(tags) && Readable(None, MessagesOf(tags, streamId))
    ensures var r := ReadAll(EMPTY, size, Chunk.Flatten(SendAll(None, MessagesOf(tags, streamId), size)));
      r.Run? && AllReadAs(r.got, tags, streamId)
  {
    hide ReadAll, SendAll, ScriptChunks, Readable, Runnable, Heard, Deliveries, AllReadAs, Chunk.Flatten, RunOn;
    var sends := MessagesOf(tags, streamId);
    var heard := Heard(0, sends);
    SendsSized(tags, streamId);
    HeardIsSent(SOURCE_CHANNEL, None, None, 0, sends, size);
    ScriptOn(SOURCE_CHANNEL, None, EMPTY.At(SOURCE_CHANNEL), heard, size);
    WireRead(SOURCE_CHANNEL, EMPTY, size, ScriptChunks(SOURCE_CHANNEL, None, heard, size));
    DeliveredAreRead(tags, streamId);
  }

  // The same with the publisher and the reader themselves, in any pieces.
  method PublishAndReceive(publisher: Publisher, reader: Reader, ghost tags: seq<Tag>, pieces: seq<seq<byte>>)
    returns (ok: bool, got: seq<Chunk.Message>)
    requires publisher.Valid() && publisher.State() == None && publisher.writer.writes == []
    requires publisher.writer.Previous(SOURCE_CHANNEL) == None
    requires reader.Valid() && reader.State() == EMPTY && reader.inChunkSize == publisher.writer.outChunkSize
    requires Sized(tags) && Pieces(tags, 0, pieces) && Readable(None, MessagesOf(tags, publisher.streamId))
    modifies publisher, publisher.pkt, publisher.writer, publisher.pkt.body, reader
    ensures ok && reader.wire == [] && AllReadAs(got, tags, publisher.streamId)
  {
    hide ReadAll, SendAll, Readable, AllReadAs, Chunk.Flatten, Pieces;
    var rets := WriteAll(publisher, tags, pieces);
    ghost var size, id := reader.inChunkSize, publisher.streamId;
    ghost var chunks := SendAll(None, MessagesOf(tags, id), size);
    assert publisher.writer.writes == [] + chunks == chunks;
    reader.wire := Chunk.Flatten(publisher.writer.writes);
    PublishedRead(tags, id, size);
    ok, got := TwoEnds.ReceiveAll(reader);
  }
}
