// The reading side of librtmp (librtmp/rtmp.c): RTMP_GetNextMediaPacket, Read_1_Packet and RTMP_Read turn a chunk
// stream into an FLV file handed out in pieces of any size. No pause, seek or resume.
module FlvRead {
  import opened Bytes
  import opened Chunk
  import opened ChunkReader
  import opened Flv

  // ---------- Media packets ----------

  // What is not modelled of RTMP_ClientPacket: the AMF contents of metadata and commands.
  datatype Peer = Peer(isMetadata: seq<byte> -> bool, ends: Packet -> bool, notices: Packet -> Kinds)

  datatype Kinds = Kinds(audio: bool, video: bool)

  const CHUNK_SIZE: byte := 0x01
  const FLEX_MESSAGE: byte := 0x11
  const INVOKE: byte := 0x14

  // RTMP_ClientPacket: 1 for a media packet, 2 when the stream is over, else 0.
  function ClientPacket(peer: Peer, p: Packet): nat {
    if p.packetType == AUDIO || p.packetType == VIDEO || p.packetType == FLASH_VIDEO then 1
    else if p.packetType == INFO then if peer.isMetadata(p.Message().body) then 1 else 0
    else if (p.packetType == INVOKE || p.packetType == FLEX_MESSAGE) && peer.ends(p) then 2
    else 0
  }

  function ChunkSizeAfter(p: Packet, size: i32): i32 {
    var body := p.Message().body;
    if p.packetType == CHUNK_SIZE && |body| >= 4 then
      var x := FromBe32(body);
      if x < 0x8000_0000 then x else x - B32
    else size
  }

  datatype Next = Gone | Got(kind: nat, packet: Packet, after: Table, size: i32, rest: seq<byte>)

  // RTMP_GetNextMediaPacket: chunks are read until one completes a media packet.
  function NextMedia(peer: Peer, t: Table, size: i32, p: Packet, w: seq<byte>): (r: Next)
    ensures r.Got? ==> |r.rest| < |w| && (r.kind == 1 || r.kind == 2)
    decreases |w|
  {
    var c := ReadChunk(t, size, p, w);
    if c.NoChunk? then Gone
    else if !c.packet.IsReady() || c.packet.bodySize == 0 then
      NextMedia(peer, c.after, size, Reusable(c.packet), c.rest)
    else
      var kind := ClientPacket(peer, c.packet);
      var size' := ChunkSizeAfter(c.packet, size);
      if kind == 0 then NextMedia(peer, c.after, size', Reusable(c.packet), c.rest)
      else Got(kind, c.packet, c.after, size', c.rest)
  }

  // The packet structure as the loop hands it to the next RTMP_ReadPacket: its body given back, the rest as it was.
  function Reusable(p: Packet): Packet {
    p.(body := None, bytesRead := 0)
  }

  // All media packets of a wire, each call starting from a zeroed packet.
  function MediaPackets(peer: Peer, t: Table, size: i32, w: seq<byte>): seq<Packet>
    decreases |w|
  {
    var r := NextMedia(peer, t, size, ZERO, w);
    if r.Gone? || r.kind != 1 then [] else [r.packet] + MediaPackets(peer, r.after, r.size, r.rest)
  }

  // ---------- Records ----------

  // Packets Read_1_Packet passes over.
  predicate TooSmall(p: Packet) {
    (p.packetType == VIDEO && p.bodySize <= 5) || (p.packetType == AUDIO && p.bodySize <= 1)
  }

  // A single-tag packet as an FLV tag.
  function MuxTag(m: Message, resumeTS: u32): Tag {
    Tag(m.packetType, Wrap(resumeTS + m.timeStamp), 0, m.body, Wrap(11 + |m.body|))
  }

  // The first tag's time in an aggregate; bytes past its end read as 0.
  function FirstTime(body: seq<byte>): u32 {
    TimeOf((body + [0, 0, 0, 0, 0, 0, 0, 0])[4..])
  }

  function Delta(m: Message, resumeTS: u32): u32 {
    Wrap(m.timeStamp - FirstTime(m.body) + resumeTS)
  }

  // The bytes Read_1_Packet makes of a packet; stale is what the output held in the last four bytes it may use.
  function RecordOf(m: Message, resumeTS: u32, stale: seq<byte>): seq<byte>
    requires |stale| == 4
  {
    if m.packetType == FLASH_VIDEO then Repair(m.body, Delta(m, resumeTS), stale) else MuxTag(m, resumeTS).Bytes()
  }

  // What the read state learns from a packet.
  function SeenIn(m: Message, resumeTS: u32, kinds: Kinds): Seen {
    var audio, video := kinds.audio || m.packetType == AUDIO, kinds.video || m.packetType == VIDEO;
    if m.packetType == FLASH_VIDEO then Look(m.body, Delta(m, resumeTS), Seen(FirstTime(m.body), audio, video))
    else Seen(Wrap(resumeTS + m.timeStamp), audio, video)
  }

  function Flatten(records: seq<seq<byte>>): seq<byte> {
    if records == [] then [] else Flatten(records[..|records| - 1]) + records[|records| - 1]
  }

  // records are what Read_1_Packet made of packets, in order, one for each that is not too small.
  ghost predicate RecordsOf(packets: seq<Packet>, resumeTS: u32, records: seq<seq<byte>>) {
    if packets == [] then records == []
    else
      var n, p := |packets| - 1, packets[|packets| - 1];
      if TooSmall(p) then RecordsOf(packets[..n], resumeTS, records)
      else
        && records != []
        && RecordsOf(packets[..n], resumeTS, records[..|records| - 1])
        && exists stale: seq<byte> ::
             |stale| == 4 && records[|records| - 1] == RecordOf(p.Message(), resumeTS, stale)
  }

  // The 13 bytes in front of the first record; flags say which kinds of tag have been seen by then.
  function FlvHeader(kinds: Kinds): (s: seq<byte>)
    ensures |s| == 13
  {
    [0x46, 0x4c, 0x56, 0x01, (if kinds.audio then 4 else 0) + if kinds.video then 1 else 0, 0, 0, 0, 9, 0, 0, 0, 0]
  }

  // ---------- The header phase ----------

  // The buffer the FLV header and the first records go to.
  const HEADERBUF := 0x2_0000

  // The room Read_1_Packet asks for, without the spare four bytes.
  function Room(m: Message): nat {
    |m.body| + if m.packetType == FLASH_VIDEO then 0 else 15
  }

  // Metadata in the packet tells what kinds of tag there will be; audio and video packets have none.
  function Noticed(peer: Peer, p: Packet): Kinds {
    if p.packetType == AUDIO || p.packetType == VIDEO then Kinds(false, false) else peer.notices(p)
  }

  // What the read state knows before a packet's record is made.
  function KindsBefore(peer: Peer, kinds: Kinds, p: Packet): Kinds {
    var n := Noticed(peer, p);
    Kinds(kinds.audio || n.audio || p.packetType == AUDIO, kinds.video || n.video || p.packetType == VIDEO)
  }

  // How a stream is played: what metadata means, whether it is live, and where it is resumed.
  datatype PlayMode = PlayMode(peer: Peer, live: bool, resumeTS: u32)

  // What RTMP_Read has seen before it lets go of the FLV header: kinds of tag, the last time, the room left in the
  // buffer, and whether a record might have needed more.
  datatype Warmup = Warmup(kinds: Kinds, time: u32, room: int, full: bool) {
    predicate Settled() {
      time != 0 || full || (kinds.audio && kinds.video)
    }
  }

  const COLD := Warmup(Kinds(false, false), 0, HEADERBUF - 13, false)

  function RecordSize(m: Message, resumeTS: u32): nat {
    |RecordOf(m, resumeTS, [0, 0, 0, 0])|
  }

  function WarmNext(how: PlayMode, w: Warmup, p: Packet): Warmup {
    var kinds, m := KindsBefore(how.peer, w.kinds, p), p.Message();
    if TooSmall(p) then w.(kinds := kinds)
    else
      var seen := SeenIn(m, how.resumeTS, kinds);
      Warmup(Kinds(seen.audio, seen.video), if how.live then m.timeStamp else seen.time,
             w.room - RecordSize(m, how.resumeTS), w.full || Room(m) + 4 > w.room)
  }

  function Warm(how: PlayMode, packets: seq<Packet>): Warmup {
    if packets == [] then COLD
    else WarmNext(how, Warm(how, packets[..|packets| - 1]), packets[|packets| - 1])
  }

  // The header phase does not end within these packets.
  ghost predicate Unsettled(how: PlayMode, packets: seq<Packet>) {
    forall k | 0 < k <= |packets| :: !Warm(how, packets[..k]).Settled()
  }

  lemma {:induction false} RepairLength(s: seq<byte>, delta: u32, a: seq<byte>, b: seq<byte>)
    requires |a| == |b| == 4
    ensures |Repair(s, delta, a)| == |Repair(s, delta, b)|
    decreases |s|
  {
    if |s| > 11 && 15 + DataSize(s) <= |s| {
      RepairLength(s[15 + DataSize(s)..], delta, a, b);
    }
  }

  lemma RecordSizeIs(m: Message, resumeTS: u32, stale: seq<byte>)
    requires |stale| == 4
    ensures |RecordOf(m, resumeTS, stale)| == RecordSize(m, resumeTS)
  {
    RepairLength(m.body, Delta(m, resumeTS), stale, [0, 0, 0, 0]);
  }

  lemma WarmMore(how: PlayMode, packets: seq<Packet>, p: Packet)
    ensures Warm(how, packets + [p]) == WarmNext(how, Warm(how, packets), p)
    ensures Unsettled(how, packets + [p]) <==> Unsettled(how, packets) && !Warm(how, packets + [p]).Settled()
  {
    hide WarmNext, Warmup.Settled;
    var all := packets + [p];
    assert all[..|packets|] == packets && all[..|all|] == all;
    forall k | 0 < k <= |packets|
      ensures all[..k] == packets[..k]
    {
    }
    if Unsettled(how, all) {
      forall k | 0 < k <= |packets|
        ensures !Warm(how, packets[..k]).Settled()
      {
        assert !Warm(how, all[..k]).Settled();
      }
      assert !Warm(how, all[..|all|]).Settled();
    }
  }

  lemma ColdStart(how: PlayMode)
    ensures Warm(how, []) == COLD && Unsettled(how, [])
  {
  }

  lemma SettledEarly(how: PlayMode, packets: seq<Packet>, all: seq<Packet>)
    requires packets <= all && packets != [] && Warm(how, packets).Settled()
    ensures !Unsettled(how, all)
  {
    assert all[..|packets|] == packets;
  }

  // The flags in the FLV header: the kinds of tag seen when the header phase ended.
  ghost predicate Flagged(how: PlayMode, all: seq<Packet>, flags: Kinds) {
    exists k ::
      && 0 < k <= |all| && Unsettled(how, all[..k - 1])
      && Warm(how, all[..k]).Settled() && Warm(how, all[..k]).kinds == flags
  }

  lemma FlaggedAt(how: PlayMode, packets: seq<Packet>, all: seq<Packet>)
    requires packets <= all && packets != [] && Unsettled(how, packets[..|packets| - 1]) && Warm(how, packets).Settled()
    ensures Flagged(how, all, Warm(how, packets).kinds) && !Unsettled(how, all)
  {
    hide Warm, Unsettled;
    assert all[..|packets|] == packets && all[..|packets| - 1] == packets[..|packets| - 1];
    SettledEarly(how, packets, all);
  }

  // ---------- When the header phase never ends ----------

  function PlayTime(how: PlayMode, p: Packet): u32 {
    if how.live then p.timeStamp else Wrap(how.resumeTS + p.timeStamp)
  }

  function KindsOf(peer: Peer, packets: seq<Packet>): Kinds {
    if packets == [] then Kinds(false, false)
    else KindsBefore(peer, KindsOf(peer, packets[..|packets| - 1]), packets[|packets| - 1])
  }

  // The bytes the records of single-tag packets take.
  function RecordBytes(packets: seq<Packet>): nat {
    if packets == [] then 0
    else
      var p := packets[|packets| - 1];
      RecordBytes(packets[..|packets| - 1]) + if TooSmall(p) then 0 else 15 + |p.Message().body|
  }

  ghost predicate SingleTags(packets: seq<Packet>) {
    forall p | p in packets :: p.packetType != FLASH_VIDEO
  }

  ghost predicate AllAtZero(how: PlayMode, packets: seq<Packet>) {
    forall p | p in packets && !TooSmall(p) :: PlayTime(how, p) == 0
  }

  lemma SingleNext(how: PlayMode, w: Warmup, p: Packet)
    requires p.packetType != FLASH_VIDEO
    ensures var kinds, n := KindsBefore(how.peer, w.kinds, p), 15 + |p.Message().body|;
      WarmNext(how, w, p) ==
      if TooSmall(p) then w.(kinds := kinds) else Warmup(kinds, PlayTime(how, p), w.room - n, w.full || n + 4 > w.room)
  {
    OneTagLong(MuxTag(p.Message(), how.resumeTS));
  }

  // Single-tag packets add their kind, their time and their record's bytes.
  lemma {:induction false} WarmIs(how: PlayMode, packets: seq<Packet>)
    requires SingleTags(packets) && AllAtZero(how, packets)
    ensures var bytes := RecordBytes(packets);
      Warm(how, packets) == Warmup(KindsOf(how.peer, packets), 0, HEADERBUF - 13 - bytes, 17 + bytes > HEADERBUF)
  {
    hide KindsBefore, TooSmall, WarmNext, PlayTime, Packet.Message;
    if packets != [] {
      var p := packets[|packets| - 1];
      assert p in packets;
      WarmIs(how, packets[..|packets| - 1]);
      SingleNext(how, Warm(how, packets[..|packets| - 1]), p);
    }
  }

  lemma {:induction false} WarmKinds(how: PlayMode, packets: seq<Packet>)
    requires SingleTags(packets)
    ensures Warm(how, packets).kinds == KindsOf(how.peer, packets)
  {
    hide KindsBefore, TooSmall, WarmNext, PlayTime, Packet.Message;
    if packets != [] {
      var p := packets[|packets| - 1];
      assert p in packets;
      WarmKinds(how, packets[..|packets| - 1]);
      SingleNext(how, Warm(how, packets[..|packets| - 1]), p);
    }
  }

  // A stream of audio, video and metadata packets comes to nothing, the records already made dropped with the header,
  // exactly if all its times are 0, only one kind of tag is seen, and its records fit the header buffer.
  lemma {:induction false} DroppedIff(how: PlayMode, packets: seq<Packet>)
    requires SingleTags(packets)
    ensures Unsettled(how, packets) <==>
      && AllAtZero(how, packets) && KindsOf(how.peer, packets) != Kinds(true, true)
      && 17 + RecordBytes(packets) <= 131072
  {
    hide KindsBefore, TooSmall, Warm, RecordBytes, KindsOf;
    if packets == [] {
      NothingYet(how.peer);
      ColdStart(how);
    } else {
      var init, p := packets[..|packets| - 1], packets[|packets| - 1];
      assert packets == init + [p];
      WarmMore(how, init, p);
      DroppedIff(how, init);
      OneLast(how.peer, init, p);
      if AllAtZero(how, packets) {
        assert AllAtZero(how, init);
        WarmIs(how, packets);
      } else if AllAtZero(how, init) {
        assert !TooSmall(p) && PlayTime(how, p) != 0;
        SingleNext(how, Warm(how, init), p);
      }
    }
  }

  lemma NothingYet(peer: Peer)
    ensures RecordBytes([]) == 0 && KindsOf(peer, []) == Kinds(false, false)
  {
  }

  lemma OneLast(peer: Peer, init: seq<Packet>, p: Packet)
    ensures RecordBytes(init + [p]) >= RecordBytes(init)
    ensures KindsOf(peer, init) == Kinds(true, true) ==> KindsOf(peer, init + [p]) == Kinds(true, true)
  {
    assert (init + [p])[..|init|] == init;
  }
}
