// FLV in, FLV out: what RTMP_Write is given on the publishing side is what RTMP_Read hands out on the playing side
// (librtmp/rtmp.c).
module EndToEnd {
  import opened Bytes
  import Chunk
  import opened ChunkReader
  import opened ChunkSession
  import opened Flv
  import opened FlvPlayer
  import opened FlvRead
  import opened Publish
  import opened Publisher
  import opened PublishPlay
  import opened Relay
  import opened Session

  // Complete audio and video tags that Read_1_Packet does not pass over.
  predicate Playing(t: Tag) {
    && t.Valid() && t.streamId == 0
    && ((t.tagType == AUDIO && |t.data| > 1) || (t.tagType == VIDEO && |t.data| > 5))
  }

  predicate AllPlaying(tags: seq<Tag>) {
    forall t | t in tags :: Playing(t)
  }

  // The same tag with the size field the player writes.
  function Played(t: Tag): Tag {
    t.(prev := Wrap(11 + |t.data|))
  }

  function PlayedBytes(tags: seq<Tag>): (r: seq<seq<byte>>)
    ensures |r| == |tags|
    ensures forall i | 0 <= i < |tags| :: r[i] == Played(tags[i]).Bytes()
  {
    if tags == [] then [] else [Played(tags[0]).Bytes()] + PlayedBytes(tags[1..])
  }

  // The wire a fresh publisher fills.
  function PublishedWire(tags: seq<Tag>, streamId: i32, size: nat): seq<byte>
    requires size > 0
  {
    Chunk.Flatten(SendAll(None, MessagesOf(tags, streamId), size))
  }

  // The times the tags are played with.
  function Times(tags: seq<Tag>, streamId: i32): (r: seq<u32>)
    ensures |r| == |tags|
  {
    var ds := Deliveries(None, Heard(0, MessagesOf(tags, streamId)));
    DeliveriesLength(None, Heard(0, MessagesOf(tags, streamId)));
    seq(|ds|, i requires 0 <= i < |ds| => ds[i].timeStamp)
  }

  // m is tag t as the player's reader receives it, dated time.
  predicate IsTag(m: Chunk.Message, t: Tag, time: u32) {
    m.packetType == t.tagType && m.body == t.data && m.timeStamp == time
  }

  lemma MuxedTag(m: Chunk.Message, t: Tag, time: u32)
    requires IsTag(m, t, time) && t.streamId == 0
    ensures MuxTag(m, 0) == Played(t).(time := time)
  {
  }

  lemma BytesTell(t: Tag, time: u32)
    ensures t.(time := time).Bytes() == t.Bytes() <==> time == t.time
  {
    if t.(time := time).Bytes() == t.Bytes() {
      assert t.Bytes()[4..8] == TimeBytes(t.time);
      assert t.(time := time).Bytes()[4..8] == TimeBytes(time);
      TimeRoundTrip(t.time);
      TimeRoundTrip(time);
    }
  }

  predicate HaveTags(packets: seq<Packet>, tags: seq<Tag>, times: seq<u32>) {
    && |packets| == |tags| == |times|
    && forall i | 0 <= i < |tags| :: IsTag(packets[i].Message(), tags[i], times[i]) && packets[i].bodySize == |tags[i].data|
  }

  lemma NotTooSmall(p: Packet, t: Tag, time: u32)
    requires IsTag(p.Message(), t, time) && p.bodySize == |t.data| && Playing(t)
    ensures !TooSmall(p)
    ensures forall stale: seq<byte> | |stale| == 4 ::
      RecordOf(p.Message(), 0, stale) == Played(t).(time := time).Bytes()
  {
    MuxedTag(p.Message(), t, time);
  }

  // The records of packets that hold tags are those tags.
  lemma {:induction false} RecordsAre(packets: seq<Packet>, tags: seq<Tag>, times: seq<u32>, records: seq<seq<byte>>)
    requires HaveTags(packets, tags, times) && AllPlaying(tags) && RecordsOf(packets, 0, records)
    ensures |records| == |tags|
    ensures forall i | 0 <= i < |tags| :: records[i] == Played(tags[i]).(time := times[i]).Bytes()
    decreases |packets|
  {
    hide IsTag, Playing, RecordOf, TooSmall, Tag.Bytes, Played;
    if packets != [] {
      var n := |packets| - 1;
      assert tags[n] in tags;
      NotTooSmall(packets[n], tags[n], times[n]);
      RecordsAre(packets[..n], tags[..n], times[..n], records[..|records| - 1]);
    }
  }

  lemma {:induction false} SendsTags(tags: seq<Tag>, streamId: i32)
    requires AllPlaying(tags)
    ensures Sends(SOURCE_CHANNEL, MessagesOf(tags, streamId)) && AllMedia(Heard(0, MessagesOf(tags, streamId)))
  {
    forall x | x in MessagesOf(tags, streamId)
      ensures x.m.channel == SOURCE_CHANNEL && (x.headerType == Chunk.LARGE || x.headerType == Chunk.MEDIUM)
              && |x.m.body| < B24
    {
      var i :| 0 <= i < |tags| && x == MessageOf(tags[i], streamId);
      assert Playing(tags[i]);
    }
    var heard := Heard(0, MessagesOf(tags, streamId));
    forall x | x in heard
      ensures IsMedia(x.m)
    {
      var i :| 0 <= i < |tags| && x == heard[i];
      assert Playing(tags[i]);
    }
  }

  // A delivered message differs from the one sent in its time only.
  lemma {:induction false} DeliveredBut(s: Option<Sender>, sends: seq<Send>, i: nat)
    requires i < |sends|
    ensures |Deliveries(s, sends)| == |sends|
    ensures Deliveries(s, sends)[i] == sends[i].m.(timeStamp := Deliveries(s, sends)[i].timeStamp)
  {
    DeliveredAt(s, sends, i);
  }

  lemma PublishedPackets(peer: Peer, tags: seq<Tag>, streamId: i32, size: i32)
    requires size > 0 && AllPlaying(tags) && Readable(None, MessagesOf(tags, streamId))
    ensures HaveTags(MediaPackets(peer, EMPTY, size, PublishedWire(tags, streamId, size)), tags, Times(tags, streamId))
  {
    hide MediaPackets, SendAll, ScriptChunks, Deliveries, Runnable, Readable, Chunk.Flatten, HasMessage;
    var sends := MessagesOf(tags, streamId);
    var heard := Heard(0, sends);
    SendsTags(tags, streamId);
    HeardIsSent(SOURCE_CHANNEL, None, None, 0, sends, size);
    ScriptMedia(peer, EMPTY, SOURCE_CHANNEL, None, heard, size);
    var packets := MediaPackets(peer, EMPTY, size, PublishedWire(tags, streamId, size));
    DeliveriesLength(None, heard);
    forall i | 0 <= i < |tags|
      ensures IsTag(packets[i].Message(), tags[i], Times(tags, streamId)[i]) && packets[i].bodySize == |tags[i].data|
    {
      DeliveredBut(None, heard, i);
      OneTagHas(packets[i], Deliveries(None, heard)[i], heard[i].m, tags[i], streamId);
    }
  }

  lemma OneTagHas(p: Packet, d: Chunk.Message, m: Chunk.Message, t: Tag, streamId: i32)
    requires HasMessage(p, d) && d == m.(timeStamp := d.timeStamp)
    requires m == MessageOf(t, streamId).m.(infoField2 := m.infoField2) && Playing(t)
    ensures IsTag(p.Message(), t, d.timeStamp) && p.bodySize == |t.data|
  {
  }

  // The tags are played at their own times exactly when the published messages are clean.
  lemma TimesAreOwn(tags: seq<Tag>, streamId: i32)
    requires AllPlaying(tags) && Readable(None, MessagesOf(tags, streamId))
    ensures (forall i | 0 <= i < |tags| :: Times(tags, streamId)[i] == tags[i].time)
            <==> Clean(None, MessagesOf(tags, streamId))
  {
    hide Deliveries, Clean, Runnable, Readable, ScriptChunks, SendAll;
    var sends := MessagesOf(tags, streamId);
    var heard := Heard(0, sends);
    SendsTags(tags, streamId);
    HeardIsSent(SOURCE_CHANNEL, None, None, 0, sends, 1);
    CleanIsExact(None, heard);
    var ds, times := Deliveries(None, heard), Times(tags, streamId);
    DeliveriesLength(None, heard);
    MessagesAt(heard);
    forall i | 0 <= i < |tags|
      ensures ds[i] == Messages(heard)[i] <==> times[i] == tags[i].time
    {
      DeliveredBut(None, heard, i);
    }
  }

  lemma MessagesAt(sends: seq<Send>)
    ensures |Messages(sends)| == |sends| && forall i | 0 <= i < |sends| :: Messages(sends)[i] == sends[i].m
  {
  }

  // Publish and play: the records made of a published stream are its tags, dated by the reader's clock; they are the
  // published tags, byte for byte and with right size fields, if and only if no message was shrunk behind an explicit
  // timestamp field other than 0.
  lemma PublishPlayIdentity(peer: Peer, tags: seq<Tag>, streamId: i32, size: i32, records: seq<seq<byte>>)
    requires size > 0 && AllPlaying(tags) && Readable(None, MessagesOf(tags, streamId))
    requires RecordsOf(MediaPackets(peer, EMPTY, size, PublishedWire(tags, streamId, size)), 0, records)
    ensures |records| == |tags|
    ensures forall i | 0 <= i < |tags| :: records[i] == Played(tags[i]).(time := Times(tags, streamId)[i]).Bytes()
    ensures records == PlayedBytes(tags) <==> Clean(None, MessagesOf(tags, streamId))
  {
    hide MediaPackets, RecordsOf, HaveTags, Times, Tag.Bytes, Clean, Readable;
    var times := Times(tags, streamId);
    PublishedPackets(peer, tags, streamId, size);
    RecordsAre(MediaPackets(peer, EMPTY, size, PublishedWire(tags, streamId, size)), tags, times, records);
    forall i | 0 <= i < |tags|
      ensures records[i] == PlayedBytes(tags)[i] <==> times[i] == tags[i].time
    {
      BytesTell(Played(tags[i]), times[i]);
    }
    TimesAreOwn(tags, streamId);
  }

  lemma {:induction false} CleanIsReadable(s: Option<Sender>, sends: seq<Send>)
    requires Clean(s, sends)
    ensures Readable(s, sends)
    decreases |sends|
  {
    hide Advance;
    if sends != [] {
      CleanIsReadable(Some(Advance(s, sends[0].headerType, sends[0].m)), sends[1..]);
    }
  }

  lemma HavePrefix(packets: seq<Packet>, all: seq<Packet>, tags: seq<Tag>, times: seq<u32>)
    requires HaveTags(all, tags, times) && packets <= all
    ensures HaveTags(packets, tags[..|packets|], times[..|packets|])
  {
  }

  lemma {:induction false} FlattenTags(tags: seq<Tag>)
    ensures Flatten(PlayedBytes(tags)) == TagsBytes(PlayedTags(tags))
    decreases |tags|
  {
    hide *;
    if tags == [] {
      FlattenEmpty();
    } else {
      var a, b := tags[..|tags| - 1], tags[|tags| - 1];
      FlattenTags(a);
      assert tags == a + [b];
      PlayedLast(a, b);
      FlattenOne(PlayedBytes(a), Played(b).Bytes());
      TagsBytesConcat(PlayedTags(a), [Played(b)]);
      OneTagBytes(Played(b));
    }
  }

  lemma PlayedLast(a: seq<Tag>, b: Tag)
    ensures PlayedBytes(a + [b]) == PlayedBytes(a) + [Played(b).Bytes()]
    ensures PlayedTags(a + [b]) == PlayedTags(a) + [Played(b)]
  {
    hide Tag.Bytes, Played;
  }

  lemma FlattenEmpty()
    ensures PlayedBytes([]) == [] && PlayedTags([]) == [] && Flatten([]) == TagsBytes([]) == []
  {
  }

  function PlayedTags(tags: seq<Tag>): (r: seq<Tag>)
    ensures |r| == |tags| && forall i | 0 <= i < |tags| :: r[i] == Played(tags[i])
  {
    if tags == [] then [] else [Played(tags[0])] + PlayedTags(tags[1..])
  }

  // Of a clean stream, any first packets give the first tags' records.
  lemma FirstTags(peer: Peer, tags: seq<Tag>, streamId: i32, size: i32, packets: seq<Packet>, records: seq<seq<byte>>)
    requires size > 0 && AllPlaying(tags) && Clean(None, MessagesOf(tags, streamId))
    requires packets <= MediaPackets(peer, EMPTY, size, PublishedWire(tags, streamId, size))
    requires RecordsOf(packets, 0, records)
    ensures |records| == |packets| <= |tags| && Flatten(records) == TagsBytes(PlayedTags(tags[..|records|]))
    ensures packets == MediaPackets(peer, EMPTY, size, PublishedWire(tags, streamId, size)) ==> |packets| == |tags|
  {
    hide MediaPackets, RecordsOf, HaveTags, Times, Tag.Bytes, Clean, Readable, Flatten, TagsBytes;
    CleanIsReadable(None, MessagesOf(tags, streamId));
    var all, times := MediaPackets(peer, EMPTY, size, PublishedWire(tags, streamId, size)), Times(tags, streamId);
    PublishedPackets(peer, tags, streamId, size);
    HavePrefix(packets, all, tags, times);
    HaveLength(packets, all, tags, times);
    var n := |packets|;
    RecordsAre(packets, tags[..n], times[..n], records);
    TimesAreOwn(tags, streamId);
    forall i | 0 <= i < n
      ensures records[i] == PlayedBytes(tags[..n])[i]
    {
      assert Played(tags[i]).(time := times[i]) == Played(tags[i]);
    }
    assert records == PlayedBytes(tags[..n]);
    FlattenTags(tags[..n]);
  }

  lemma HaveLength(packets: seq<Packet>, all: seq<Packet>, tags: seq<Tag>, times: seq<u32>)
    requires HaveTags(all, tags, times) && packets <= all
    ensures |packets| <= |tags| == |times| == |all|
  {
  }

  // ---------- When a player comes to nothing ----------

  ghost function KindsIn(tags: seq<Tag>): Kinds {
    Kinds(exists t | t in tags :: t.tagType == AUDIO, exists t | t in tags :: t.tagType == VIDEO)
  }

  // All times are 0, there is only one kind of tag, and all tags fit the player's header buffer.
  ghost predicate Dropped(tags: seq<Tag>) {
    && (forall t | t in tags :: t.time == 0) && KindsIn(tags) != Kinds(true, true)
    && 17 + |TagsBytes(PlayedTags(tags))| <= 131072
  }

  // The flags in the FLV header are the kinds of tag up to the first one that gets the player past its header phase.
  ghost predicate FlagsOf(tags: seq<Tag>, flags: Kinds) {
    exists k :: 0 < k <= |tags| && Dropped(tags[..k - 1]) && !Dropped(tags[..k]) && flags == KindsIn(tags[..k])
  }

  lemma HavePacket(p: Packet, t: Tag, time: u32)
    requires IsTag(p.Message(), t, time) && p.bodySize == |t.data| && Playing(t)
    ensures !TooSmall(p) && p.packetType == t.tagType != FLASH_VIDEO && |p.Message().body| == |t.data|
    ensures forall how: PlayMode | how.resumeTS == 0 :: PlayTime(how, p) == time
    ensures forall peer: Peer, kinds: Kinds ::
      KindsBefore(peer, kinds, p) == Kinds(kinds.audio || t.tagType == AUDIO, kinds.video || t.tagType == VIDEO)
  {
  }

  lemma {:induction false} KindsAndBytes(peer: Peer, packets: seq<Packet>, tags: seq<Tag>, times: seq<u32>)
    requires HaveTags(packets, tags, times) && AllPlaying(tags)
    ensures KindsOf(peer, packets) == KindsIn(tags)
    ensures RecordBytes(packets) == |TagsBytes(PlayedTags(tags))|
    decreases |packets|
  {
    hide KindsBefore, TooSmall, IsTag, Playing, Packet.Message, TagsBytes, PlayedTags, PlayedBytes;
    if packets == [] {
      FlattenEmpty();
    } else {
      var n := |packets| - 1;
      var init, t := tags[..n], tags[n];
      assert tags == init + [t];
      HavePacket(packets[n], t, times[n]);
      KindsAndBytes(peer, packets[..n], init, times[..n]);
      PlayedLast(init, t);
      TagsBytesConcat(PlayedTags(init), [Played(t)]);
      OneTagBytes(Played(t));
      OneTagLong(Played(t));
    }
  }

  lemma DroppedTags(how: PlayMode, packets: seq<Packet>, tags: seq<Tag>, times: seq<u32>)
    requires HaveTags(packets, tags, times) && AllPlaying(tags) && how.resumeTS == 0
    requires forall i | 0 <= i < |tags| :: times[i] == tags[i].time
    ensures Unsettled(how, packets) <==> Dropped(tags)
    ensures Warm(how, packets).kinds == KindsIn(tags)
  {
    hide IsTag, KindsOf, KindsIn, RecordBytes, Playing, PlayTime, TooSmall, TagsBytes, PlayedTags, Warm, Unsettled;
    KindsAndBytes(how.peer, packets, tags, times);
    forall i | 0 <= i < |tags|
      ensures packets[i].packetType != FLASH_VIDEO && !TooSmall(packets[i]) && PlayTime(how, packets[i]) == tags[i].time
    {
      HavePacket(packets[i], tags[i], times[i]);
    }
    DroppedIff(how, packets);
    WarmKinds(how, packets);
  }

  lemma FlagsAre(how: PlayMode, packets: seq<Packet>, tags: seq<Tag>, times: seq<u32>, flags: Kinds)
    requires HaveTags(packets, tags, times) && AllPlaying(tags) && how.resumeTS == 0
    requires forall i | 0 <= i < |tags| :: times[i] == tags[i].time
    requires Flagged(how, packets, flags)
    ensures FlagsOf(tags, flags)
  {
    hide IsTag, KindsIn, Dropped, Playing, Warm, Unsettled;
    var k :| 0 < k <= |packets| && Unsettled(how, packets[..k - 1])
             && Warm(how, packets[..k]).Settled() && Warm(how, packets[..k]).kinds == flags;
    DroppedTags(how, packets[..k - 1], tags[..k - 1], times[..k - 1]);
    DroppedTags(how, packets[..k], tags[..k], times[..k]);
    SettledEarly(how, packets[..k], packets[..k]);
  }

  // A player of a clean stream never gets past the header phase exactly if its tags say so; if it does, they say what
  // flags it puts in the header.
  lemma UnsettledIff(how: PlayMode, tags: seq<Tag>, streamId: i32, size: i32, flags: Kinds)
    requires size > 0 && AllPlaying(tags) && Clean(None, MessagesOf(tags, streamId)) && how.resumeTS == 0
    ensures var packets := MediaPackets(how.peer, EMPTY, size, PublishedWire(tags, streamId, size));
      && (Unsettled(how, packets) <==> Dropped(tags))
      && (Flagged(how, packets, flags) ==> FlagsOf(tags, flags))
  {
    hide MediaPackets, Times, Clean, Readable, PublishedWire, HaveTags, Dropped, Unsettled, Flagged, FlagsOf;
    CleanIsReadable(None, MessagesOf(tags, streamId));
    var packets, times := MediaPackets(how.peer, EMPTY, size, PublishedWire(tags, streamId, size)), Times(tags, streamId);
    PublishedPackets(how.peer, tags, streamId, size);
    TimesAreOwn(tags, streamId);
    DroppedTags(how, packets, tags, times);
    if Flagged(how, packets, flags) {
      FlagsAre(how, packets, tags, times, flags);
    }
  }

  // Publisher and player in the states a connection starts with.
  ghost predicate Starting(publisher: Publisher, player: Player)
    reads publisher, publisher.pkt, publisher.pkt.body, publisher.writer, player, player.reader, player.buf
  {
    && publisher.Valid() && publisher.State() == None && publisher.writer.writes == []
    && publisher.writer.Previous(SOURCE_CHANNEL) == None
    && player.Valid() && player.Accounted() && !player.headerRead && player.status == 0 && player.resumeTS == 0
    && player.reader.State() == EMPTY && player.reader.inChunkSize == publisher.writer.outChunkSize
  }

  // A clean stream goes through the publisher onto the player's wire.
  method PublishTo(publisher: Publisher, player: Player, ghost tags: seq<Tag>, pieces: seq<seq<byte>>)
    requires Starting(publisher, player)
    requires AllPlaying(tags) && Pieces(tags, 0, pieces)
    modifies publisher, publisher.pkt, publisher.writer, publisher.pkt.body, player.reader
    ensures player.Valid() && player.Accounted() && !player.headerRead && player.status == 0
    ensures player.reader.inChunkSize == old(player.reader.inChunkSize) > 0
    ensures player.Ahead() == MediaPackets(player.peer, EMPTY, player.reader.inChunkSize,
                                           PublishedWire(tags, publisher.streamId, player.reader.inChunkSize))
  {
    hide MediaPackets, RecordsOf, Flatten, FlvHeader, SendAll, Pieces;
    PlayingIsPublishable(tags);
    var rets := WriteAll(publisher, tags, pieces);
    ghost var size := player.reader.inChunkSize;
    ghost var chunks := SendAll(None, MessagesOf(tags, publisher.streamId), size);
    assert publisher.writer.writes == [] + chunks == chunks;
    player.reader.wire := Chunk.Flatten(publisher.writer.writes);
  }

  // A whole clean stream, published in any pieces and played with any request sizes: what comes out, with what is still
  // pending, is the FLV header and the first of the published tags, in order, each with its time, data and right size;
  // all of them when a request finds the stream over. Without the header nothing comes out.
  method PublishAndPlay(publisher: Publisher, player: Player, ghost tags: seq<Tag>, pieces: seq<seq<byte>>, sizes: seq<nat>)
    returns (got: seq<byte>)
    requires Starting(publisher, player)
    requires AllPlaying(tags) && Pieces(tags, 0, pieces) && Clean(None, MessagesOf(tags, publisher.streamId))
    modifies publisher, publisher.pkt, publisher.writer, publisher.pkt.body, player, player.reader
    ensures player.Valid() && |player.records| <= |tags|
    ensures if !player.headerRead then got == []
            else got + player.Pending()
                 == FlvHeader(player.flags) + TagsBytes(PlayedTags(tags[..|player.records|]))
    ensures player.status != 0 ==> |player.records| == |tags| && player.buf == null
    ensures sizes != [] ==> (player.headerRead <==> !Dropped(tags))
    ensures player.headerRead ==> FlagsOf(tags, player.flags)
  {
    hide MediaPackets, RecordsOf, Flatten, FlvHeader, Clean, TagsBytes, Pieces, Dropped, FlagsOf, Unsettled, PublishedWire,
      Flagged;
    PublishTo(publisher, player, tags, pieces);
    ghost var size := player.reader.inChunkSize;
    got := ReadSchedule(player, sizes);
    UnsettledIff(player.How(), tags, publisher.streamId, size, player.flags);
    FirstTags(player.peer, tags, publisher.streamId, size, player.packets, player.records);
  }

  // The same played to its end: the FLV header and every published tag come out, unless the header phase never ends.
  method PublishAndPlayToEnd(publisher: Publisher, player: Player, ghost tags: seq<Tag>, pieces: seq<seq<byte>>, size: nat)
    returns (got: seq<byte>)
    requires Starting(publisher, player) && size > 0
    requires AllPlaying(tags) && Pieces(tags, 0, pieces) && Clean(None, MessagesOf(tags, publisher.streamId))
    modifies publisher, publisher.pkt, publisher.writer, publisher.pkt.body, player, player.reader
    ensures player.status != 0 && (!Dropped(tags) ==> FlagsOf(tags, player.flags))
    ensures got == if Dropped(tags) then [] else FlvHeader(player.flags) + TagsBytes(PlayedTags(tags))
  {
    hide MediaPackets, RecordsOf, Flatten, FlvHeader, Clean, TagsBytes, Pieces, Dropped, FlagsOf, Unsettled, PublishedWire,
      Flagged;
    PublishTo(publisher, player, tags, pieces);
    ghost var chunkSize := player.reader.inChunkSize;
    got := PlayToEnd(player, size);
    UnsettledIff(player.How(), tags, publisher.streamId, chunkSize, player.flags);
    FirstTags(player.peer, tags, publisher.streamId, chunkSize, player.packets, player.records);
    assert tags[..|tags|] == tags;
  }

  lemma PlayingIsPublishable(tags: seq<Tag>)
    requires AllPlaying(tags)
    ensures Publishable(tags)
  {
    forall t | t in tags
      ensures t.Valid() && t.tagType != 0x46
    {
      assert Playing(t);
    }
  }
}
