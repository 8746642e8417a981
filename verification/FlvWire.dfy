// What Read_1_Packet and RTMP_Read hand out, byte by byte (librtmp/rtmp.c; section E of the Adobe Flash Video File Format
// Specification 10.1).
module FlvWire {
  import opened Bytes
  import Chunk
  import opened ChunkReader
  import opened Flv
  import opened FlvRead
  import opened Octets

  // A tag of the file with its size field behind it. Times are split: the low 24 bits, then the top byte.
  predicate IsTag(s: seq<byte>, kind: nat, time: nat, streamId: nat, data: seq<byte>) {
    var n := |data|;
    && |s| == 15 + n
    && s[0] == kind && BigEndian(s[1..4]) == n
    && BigEndian(s[4..7]) == time % 0x100_0000 && s[7] == time / 0x100_0000
    && BigEndian(s[8..11]) == streamId
    && s[11..11 + n] == data
    && BigEndian(s[11 + n..]) == n + 11
  }

  lemma TagIs(t: Tag)
    requires t.Valid() && t.prev == |t.data| + 11
    ensures IsTag(t.Bytes(), t.tagType, t.time, t.streamId, t.data)
  {
    hide BigEndian, Be24, Be32;
    var s, h := t.Bytes(), t.Header();
    Be24Is(|t.data|);
    Be24Is(t.time % 0x100_0000);
    Be24Is(t.streamId);
    Be32Is(t.prev);
    LowTime(t.time);
    assert s[1..4] == h[1..4] == Be24(|t.data|);
    assert s[4..7] == h[4..7] == Be24(t.time) && s[7] == h[7] == t.time / 0x100_0000;
    assert s[8..11] == h[8..11] == Be24(t.streamId);
    assert s[11 + |t.data|..] == Be32(t.prev);
  }

  lemma LowTime(t: u32)
    ensures Be24(t) == Be24(t % 0x100_0000)
  {
    var q, r := t / 0x100_0000, t % 0x100_0000;
    assert t == q * 0x100_0000 + r;
    var a, b, c := r / 0x1_0000, r / 0x100 % 0x100, r % 0x100;
    assert r == a * 0x1_0000 + b * 0x100 + c;
    QuotientIs(t, 0x1_0000, q * 0x100 + a, b * 0x100 + c);
    QuotientIs(t, 0x100, q * 0x1_0000 + a * 0x100 + b, c);
    QuotientIs(q * 0x100 + a, 0x100, q, a);
    QuotientIs(q * 0x1_0000 + a * 0x100 + b, 0x100, q * 0x100 + a, b);
  }

  // ---------- One packet ----------

  // An audio, video or metadata packet becomes one tag, dated by the packet from the resume time on.
  lemma SingleRecord(m: Chunk.Message, resumeTS: u32, stale: seq<byte>)
    requires m.packetType == 0x08 || m.packetType == 0x09 || m.packetType == 0x12
    requires |m.body| < 0x100_0000 && |stale| == 4
    ensures IsTag(RecordOf(m, resumeTS, stale), m.packetType, (resumeTS + m.timeStamp) % 0x1_0000_0000, 0, m.body)
  {
    TagIs(MuxTag(m, resumeTS));
  }

  // Tag t, `shift` later and with its size field right.
  predicate IsMoved(r: Tag, t: Tag, shift: int) {
    && r.tagType == t.tagType && r.streamId == t.streamId && r.data == t.data
    && r.time == (t.time + shift) % 0x1_0000_0000 && r.prev == |t.data| + 11
  }

  // The front of an aggregate.
  lemma AggregateFront(tags: seq<Tag>, bare: bool) returns (rest: seq<byte>)
    requires tags != [] && (bare ==> tags[|tags| - 1].data != [])
    ensures |rest| > 0 && Aggregate(tags, bare) == tags[0].Header() + rest
  {
    hide Tag.Header, Aggregate;
    AggregateFirst(tags, bare);
    var t := tags[0];
    if bare && |tags| == 1 {
      rest := t.data;
    } else {
      rest := t.data + (Be32(t.prev) + Aggregate(tags[1..], bare));
      Regroup4(t.Header(), t.data, Be32(t.prev), Aggregate(tags[1..], bare));
    }
  }

  lemma AggregateFirst(tags: seq<Tag>, bare: bool)
    requires tags != [] && (bare ==> tags[|tags| - 1].data != [])
    ensures bare && |tags| == 1 ==> Aggregate(tags, bare) == tags[0].Header() + tags[0].data
    ensures !(bare && |tags| == 1) ==>
      && (bare ==> tags[1..] != [] && tags[1..][|tags| - 2].data != [])
      && Aggregate(tags, bare)
         == tags[0].Header() + tags[0].data + Be32(tags[0].prev) + Aggregate(tags[1..], bare)
  {
    hide Tag.Header;
  }

  // The time Read_1_Packet finds at the front of an aggregate is the first tag's.
  lemma FirstTimeIs(tags: seq<Tag>, bare: bool)
    requires tags != [] && tags[0].Valid() && (bare ==> tags[|tags| - 1].data != [])
    ensures FirstTime(Aggregate(tags, bare)) == tags[0].time
  {
    hide TimeOf, Tag.Header, Aggregate;
    var body := Aggregate(tags, bare);
    var rest := AggregateFront(tags, bare);
    var zeros := [0, 0, 0, 0, 0, 0, 0, 0];
    assert body + zeros == tags[0].Header() + (rest + zeros);
    HeaderParts(tags[0], rest + zeros);
  }

  // An aggregate becomes its own tags, with right size fields. The first is played at the packet's time from the resume
  // time on, and the others as long after it as they were.
  lemma AggregateRecord(m: Chunk.Message, tags: seq<Tag>, bare: bool, resumeTS: u32, stale: seq<byte>)
    returns (played: seq<Tag>)
    requires m.packetType == 0x16 && tags != [] && (bare ==> tags[|tags| - 1].data != [])
    requires m.body == Aggregate(tags, bare) && |stale| == 4 && forall t | t in tags :: t.Valid()
    ensures RecordOf(m, resumeTS, stale) == TagsBytes(played) && |played| == |tags|
    ensures forall i | 0 <= i < |tags| :: IsMoved(played[i], tags[i], resumeTS + m.timeStamp - tags[0].time)
    ensures played[0].time == (resumeTS + m.timeStamp) % 0x1_0000_0000
  {
    hide FirstTime, Repair, Aggregate, TagsBytes, IsMoved, Tag.Repaired, Tag.Valid;
    FirstTimeIs(tags, bare);
    var delta := Delta(m, resumeTS);
    RepairAggregate(tags, bare, delta, stale);
    played := RepairedTags(tags, delta);
    forall i | 0 <= i < |tags|
      ensures IsMoved(played[i], tags[i], resumeTS + m.timeStamp - tags[0].time)
    {
      assert tags[i] in tags;
      MovedBy(tags[i], m.timeStamp - tags[0].time + resumeTS);
    }
    FirstMoved(played[0], tags[0], resumeTS + m.timeStamp);
  }

  lemma FirstMoved(r: Tag, t: Tag, time: int)
    requires IsMoved(r, t, time - t.time)
    ensures r.time == time % 0x1_0000_0000
  {
  }

  lemma MovedBy(t: Tag, shift: int)
    requires t.Valid()
    ensures IsMoved(t.Repaired(Wrap(shift)), t, shift)
  {
    WrapAdd(shift, t.time);
  }

  // ---------- What the read state learns ----------

  // The last time, and which kinds of tag there were.
  lemma {:induction false} LookAggregate(tags: seq<Tag>, bare: bool, delta: u32, seen: Seen)
    requires (bare ==> tags != [] && tags[|tags| - 1].data != []) && forall t | t in tags :: t.Valid()
    ensures var r := Look(Aggregate(tags, bare), delta, seen);
      && r.time == (if tags == [] then seen.time else (tags[|tags| - 1].time + delta) % 0x1_0000_0000)
      && (r.audio <==> seen.audio || exists t | t in tags :: t.tagType == 0x08)
      && (r.video <==> seen.video || exists t | t in tags :: t.tagType == 0x09)
    decreases |tags|
  {
    hide Look, Aggregate, Tag.Header;
    if tags == [] {
      LookNothing(delta, seen);
    } else {
      var t := tags[0];
      AggregateFirst(tags, bare);
      LookFirst(t, if bare && |tags| == 1 then [] else Be32(t.prev) + Aggregate(tags[1..], bare), delta, seen);
      var seen' := Seen(Wrap(t.time + delta), seen.audio || t.tagType == 0x08, seen.video || t.tagType == 0x09);
      if bare && |tags| == 1 {
        assert t.data + [] == t.data;
      } else {
        Regroup4(t.Header(), t.data, Be32(t.prev), Aggregate(tags[1..], bare));
        SplitAt(Be32(t.prev), Aggregate(tags[1..], bare));
        LookAggregate(tags[1..], bare, delta, seen');
        assert tags == [t] + tags[1..];
      }
    }
  }

  lemma LookNothing(delta: u32, seen: Seen)
    ensures Aggregate([], false) == [] && Look([], delta, seen) == seen
  {
  }

  // One turn of the loop; p is what follows the tag's data.
  lemma LookFirst(t: Tag, p: seq<byte>, delta: u32, seen: Seen)
    requires t.Valid() && (|p| >= 4 || (p == [] && t.data != []))
    ensures var seen' := Seen(Wrap(t.time + delta), seen.audio || t.tagType == 0x08, seen.video || t.tagType == 0x09);
      Look(t.Header() + (t.data + p), delta, seen) == if p == [] then seen' else Look(p[4..], delta, seen')
  {
    hide Tag.Header, DataSize, TimeOf;
    HeaderParts(t, t.data + p);
    var s := t.Header() + (t.data + p);
    SplitAt(t.data, p);
    if p != [] {
      assert s[15 + |t.data|..] == s[11..][|t.data|..][4..];
    }
  }

  // What a packet teaches: its time from the resume time on, or the last tag's of an aggregate, moved as that is; and the
  // kinds of tag in it.
  lemma SingleSeen(m: Chunk.Message, resumeTS: u32, kinds: Kinds)
    requires m.packetType != 0x16
    ensures var seen := SeenIn(m, resumeTS, kinds);
      && seen.time == (resumeTS + m.timeStamp) % 0x1_0000_0000
      && seen.audio == (kinds.audio || m.packetType == 0x08) && seen.video == (kinds.video || m.packetType == 0x09)
  {
  }

  lemma AggregateSeen(m: Chunk.Message, tags: seq<Tag>, bare: bool, resumeTS: u32, kinds: Kinds)
    requires m.packetType == 0x16 && tags != [] && (bare ==> tags[|tags| - 1].data != [])
    requires m.body == Aggregate(tags, bare) && forall t | t in tags :: t.Valid()
    ensures var seen := SeenIn(m, resumeTS, kinds);
      && seen.time == (tags[|tags| - 1].time + resumeTS + m.timeStamp - tags[0].time) % 0x1_0000_0000
      && (seen.audio <==> kinds.audio || exists t | t in tags :: t.tagType == 0x08)
      && (seen.video <==> kinds.video || exists t | t in tags :: t.tagType == 0x09)
  {
    hide FirstTime, Look, Aggregate;
    FirstTimeIs(tags, bare);
    LookAggregate(tags, bare, Delta(m, resumeTS), Seen(FirstTime(m.body), kinds.audio, kinds.video));
    WrapAdd(m.timeStamp - tags[0].time + resumeTS, tags[|tags| - 1].time);
  }

  // ---------- Records and file header ----------

  // A packet is passed over if it is a video packet of at most five bytes or an audio packet of one.
  predicate PassedOver(p: Packet) {
    (p.packetType == 0x09 && p.bodySize <= 5) || (p.packetType == 0x08 && p.bodySize <= 1)
  }

  function Kept(packets: seq<Packet>): (r: seq<Packet>)
    ensures forall p | p in r :: p in packets && !PassedOver(p)
  {
    if packets == [] then []
    else
      var p := packets[|packets| - 1];
      Kept(packets[..|packets| - 1]) + if PassedOver(p) then [] else [p]
  }

  // There is one record for each packet that is not passed over, in order.
  lemma {:induction false} RecordsAre(packets: seq<Packet>, resumeTS: u32, records: seq<seq<byte>>)
    requires RecordsOf(packets, resumeTS, records)
    ensures |records| == |Kept(packets)|
    ensures forall i | 0 <= i < |records| :: MadeOf(records[i], Kept(packets)[i], resumeTS)
    decreases |packets|
  {
    hide MadeOf, RecordsOf;
    LastRecord(packets, resumeTS, records);
    if packets != [] {
      var n, p := |packets| - 1, packets[|packets| - 1];
      RecordsAre(packets[..n], resumeTS, if PassedOver(p) then records else records[..|records| - 1]);
    }
  }

  ghost predicate MadeOf(record: seq<byte>, p: Packet, resumeTS: u32) {
    exists stale: seq<byte> :: |stale| == 4 && record == RecordOf(p.Message(), resumeTS, stale)
  }

  lemma LastRecord(packets: seq<Packet>, resumeTS: u32, records: seq<seq<byte>>)
    requires RecordsOf(packets, resumeTS, records)
    ensures packets == [] ==> records == []
    ensures packets != [] ==>
      var n, p := |packets| - 1, packets[|packets| - 1];
      if PassedOver(p) then RecordsOf(packets[..n], resumeTS, records)
      else
        && records != [] && RecordsOf(packets[..n], resumeTS, records[..|records| - 1])
        && MadeOf(records[|records| - 1], p, resumeTS)
  {
    hide RecordOf, Packet.Message;
  }

  // ---------- The header phase ----------

  // Kinds of tag are seen from packets of that kind, and from metadata that gives notice of them.
  lemma {:induction false} KindsAre(peer: Peer, packets: seq<Packet>)
    ensures var kinds := KindsOf(peer, packets);
      && (kinds.audio <==> exists p | p in packets :: TellsAudio(peer, p))
      && (kinds.video <==> exists p | p in packets :: TellsVideo(peer, p))
    decreases |packets|
  {
    hide TellsAudio, TellsVideo, KindsBefore;
    if packets != [] {
      var init, p := packets[..|packets| - 1], packets[|packets| - 1];
      assert packets == init + [p];
      KindsAre(peer, init);
      KindTold(peer, KindsOf(peer, init), p);
    }
  }

  predicate TellsAudio(peer: Peer, p: Packet) {
    p.packetType == 0x08 || (p.packetType != 0x09 && peer.notices(p).audio)
  }

  predicate TellsVideo(peer: Peer, p: Packet) {
    p.packetType == 0x09 || (p.packetType != 0x08 && peer.notices(p).video)
  }

  lemma KindTold(peer: Peer, kinds: Kinds, p: Packet)
    ensures var after := KindsBefore(peer, kinds, p);
      (after.audio <==> kinds.audio || TellsAudio(peer, p)) && (after.video <==> kinds.video || TellsVideo(peer, p))
  {
  }

  function RecordTotal(packets: seq<Packet>): nat {
    if packets == [] then 0
    else
      var p := packets[|packets| - 1];
      RecordTotal(packets[..|packets| - 1]) + if PassedOver(p) then 0 else 15 + |p.Message().body|
  }

  lemma {:induction false} TotalIs(packets: seq<Packet>)
    ensures RecordTotal(packets) == RecordBytes(packets)
    decreases |packets|
  {
    hide Packet.Message;
    if packets != [] {
      TotalIs(packets[..|packets| - 1]);
    }
  }

  // The time a packet is played at.
  function PlayedAt(how: PlayMode, p: Packet): nat {
    if how.live then p.timeStamp else (how.resumeTS + p.timeStamp) % 0x1_0000_0000
  }

  // A stream without aggregates comes to nothing exactly if every packet that is kept is played at 0, one kind of tag at
  // most is told of, and the records are less than the header's buffer.
  lemma NothingPlayedIff(how: PlayMode, packets: seq<Packet>)
    requires forall p | p in packets :: p.packetType != 0x16
    ensures Unsettled(how, packets) <==>
      && (forall p | p in packets && !PassedOver(p) :: PlayedAt(how, p) == 0)
      && ((forall p | p in packets :: !TellsAudio(how.peer, p)) || (forall p | p in packets :: !TellsVideo(how.peer, p)))
      && RecordTotal(packets) <= 131055
  {
    hide Unsettled, TellsAudio, TellsVideo, KindsOf, RecordBytes, RecordTotal;
    DroppedIff(how, packets);
    KindsAre(how.peer, packets);
    TotalIs(packets);
    assert forall p | p in packets :: PlayedAt(how, p) == PlayTime(how, p) && PassedOver(p) == TooSmall(p);
  }

  // The file begins with "FLV" and version 1; the flags say audio with the bit of value 4 and video with that of value 1;
  // the header is nine bytes long, and the size field in front of the first tag is 0.
  lemma FileHeaderIs(kinds: Kinds)
    ensures var s := FlvHeader(kinds);
      && |s| == 13 && s[0] == 'F' as int && s[1] == 'L' as int && s[2] == 'V' as int && s[3] == 1
      && (s[4] / 4 % 2 == 1 <==> kinds.audio) && (s[4] % 2 == 1 <==> kinds.video) && s[4] / 8 == 0 && s[4] / 2 % 2 == 0
      && BigEndian(s[5..9]) == 9 && BigEndian(s[9..13]) == 0
  {
    hide BigEndian;
    var s := FlvHeader(kinds);
    Big4(s[5..9]);
    Big4(s[9..13]);
  }
}
