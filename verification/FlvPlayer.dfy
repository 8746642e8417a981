// The read state of a connection (m_read) and the calls that change it: Read_1_Packet and RTMP_Read (librtmp/rtmp.c).
module FlvPlayer {
  import opened Buffer
  import opened Bytes
  import Chunk
  import opened ChunkReader
  import opened Flv
  import opened FlvRead
  import opened FlvRepair

  const READ_EOF := -1
  const READ_ERROR := -2
  const READ_COMPLETE := -3

  lemma PatchedIn(pre: seq<byte>, x: seq<byte>, post: seq<byte>, y: seq<byte>, rest: seq<byte>)
    requires |y| + |rest| == |x| && rest == x[|y|..]
    ensures PatchedTo(pre + x + post, pre + y + rest + post, |pre|, y)
  {
    var before, after := pre + x + post, pre + y + rest + post;
    assert after[..|pre|] == pre == before[..|pre|];
    assert after[|pre| + |y|..] == rest + post == before[|pre| + |y|..];
  }

  lemma OneByte(before: seq<byte>, after: seq<byte>, i: nat, x: byte)
    requires i < |before| && after == before[i := x]
    ensures PatchedTo(before, after, i, [x])
  {
  }

  // The 11 bytes in front of a single-tag packet's body.
  method EncodeTagHeader(a: array<byte>, at: nat, m: Chunk.Message, resumeTS: u32) returns (next: nat)
    requires at + 11 <= a.Length
    modifies a
    ensures next == at + 11
    ensures Patched(a, old(a[..]), at, MuxTag(m, resumeTS).Header())
  {
    hide PatchedTo;
    var time := Wrap(resumeTS + m.timeStamp);
    ghost var s0 := a[..];
    a[at] := m.packetType;
    ghost var s1 := a[..];
    OneByte(s0, s1, at, m.packetType);
    next := EncodeInt24(a, at + 1, |m.body|);
    PatchAgain(s0, s1, a[..], at, [m.packetType], Be24(|m.body|));
    ghost var s2 := a[..];
    next := EncodeInt24(a, next, time);
    ghost var s3 := a[..];
    a[next] := time / B24;
    next := next + 1;
    OneByte(s3, a[..], at + 7, time / B24);
    PatchAgain(s2, s3, a[..], at + 4, Be24(time), [time / B24]);
    PatchAgain(s0, s2, a[..], at, [m.packetType] + Be24(|m.body|), TimeBytes(time));
    ghost var s4 := a[..];
    next := EncodeInt24(a, next, 0);
    PatchAgain(s0, s4, a[..], at, [m.packetType] + Be24(|m.body|) + TimeBytes(time), Be24(0));
  }

  method WriteTag(a: array<byte>, at: nat, m: Chunk.Message, resumeTS: u32)
    requires at + 15 + |m.body| <= a.Length
    modifies a
    ensures Patched(a, old(a[..]), at, MuxTag(m, resumeTS).Bytes())
  {
    ghost var s0 := a[..];
    ghost var t := MuxTag(m, resumeTS);
    hide PatchedTo, Tag.Header;
    var next := EncodeTagHeader(a, at, m, resumeTS);
    ghost var s1 := a[..];
    Copy(a, next, m.body);
    ghost var s2 := a[..];
    PatchAgain(s0, s1, s2, at, t.Header(), m.body);
    next := EncodeInt32(a, next + |m.body|, Wrap(11 + |m.body|));
    PatchAgain(s0, s2, a[..], at, t.Header() + m.body, Be32(t.prev));
  }

  method WriteAggregate(a: array<byte>, at: nat, m: Chunk.Message, resumeTS: u32, kinds: Kinds)
    returns (seen: Seen, size: nat, ghost stale: seq<byte>)
    requires m.packetType == FLASH_VIDEO && at + |m.body| + 4 <= a.Length
    modifies a
    ensures |stale| == 4 && size == |RecordOf(m, resumeTS, stale)|
    ensures Patched(a, old(a[..]), at, RecordOf(m, resumeTS, stale))
    ensures seen == Look(m.body, Delta(m, resumeTS), Seen(FirstTime(m.body), kinds.audio, kinds.video))
  {
    hide Repair, Look, PatchedTo;
    var n := |m.body|;
    ghost var s0 := a[..];
    Copy(a, at, m.body);
    ghost var pre, post := s0[..at], s0[at + n + 4..];
    stale := s0[at + n..at + n + 4];
    InThree(s0, a[..], at, m.body, stale);
    var delta := Delta(m, resumeTS);
    var extra;
    seen, extra := RepairInPlace(m.body, a, at, delta, Seen(FirstTime(m.body), kinds.audio, kinds.video), pre, stale, post);
    size := n + extra;
    ghost var y := Repair(m.body, delta, stale);
    ghost var x := s0[at..at + n + 4];
    Around(s0, at, n);
    PatchedIn(pre, x, post, y, if extra == 0 then stale else []);
  }

  lemma Around(s: seq<byte>, at: nat, n: nat)
    requires at + n + 4 <= |s|
    ensures var x := s[at..at + n + 4];
      s == s[..at] + x + s[at + n + 4..] && x[n..] == s[at + n..at + n + 4] && x[n + 4..] == []
  {
  }

  lemma InThree(before: seq<byte>, after: seq<byte>, at: nat, s: seq<byte>, stale: seq<byte>)
    requires PatchedTo(before, after, at, s) && at + |s| + 4 <= |before|
    requires stale == before[at + |s|..at + |s| + 4]
    ensures after == before[..at] + (s + stale) + before[at + |s| + 4..]
  {
    var j := at + |s|;
    assert after == after[..at] + after[at..j] + after[j..];
    assert before[j..] == stale + before[j + 4..];
  }

  lemma OneMore(packets: seq<Packet>, resumeTS: u32, records: seq<seq<byte>>, p: Packet, rec: seq<byte>, stale: seq<byte>)
    requires RecordsOf(packets, resumeTS, records) && |stale| == 4
    ensures TooSmall(p) ==> RecordsOf(packets + [p], resumeTS, records)
    ensures !TooSmall(p) && rec == RecordOf(p.Message(), resumeTS, stale) ==>
      RecordsOf(packets + [p], resumeTS, records + [rec])
  {
    hide RecordOf, TooSmall;
    assert (packets + [p])[..|packets|] == packets;
    assert (records + [rec])[..|records|] == records;
  }

  lemma FlattenOne(records: seq<seq<byte>>, rec: seq<byte>)
    ensures Flatten(records + [rec]) == Flatten(records) + rec
  {
    assert (records + [rec])[..|records|] == records;
  }

  lemma AheadStep(peer: Peer, t: Table, size: i32, w: seq<byte>)
    requires var r := NextMedia(peer, t, size, ZERO, w);
      r.Got? && r.kind == 1
    ensures var r := NextMedia(peer, t, size, ZERO, w);
      MediaPackets(peer, t, size, w) == [r.packet] + MediaPackets(peer, r.after, r.size, r.rest)
  {
    hide NextMedia;
  }

  lemma NoneAhead(peer: Peer, t: Table, size: i32, w: seq<byte>)
    requires var r := NextMedia(peer, t, size, ZERO, w);
      r.Got? ==> r.kind != 1
    ensures MediaPackets(peer, t, size, w) == []
  {
    hide NextMedia;
  }

  lemma RecordFits(m: Chunk.Message, resumeTS: u32, stale: seq<byte>)
    requires |stale| == 4 && |m.body| > 0
    ensures 0 < |RecordOf(m, resumeTS, stale)| <= Room(m) + 4
  {
  }

  class Player {
    const peer: Peer
    const reader: Reader
    const live: bool
    const resumeTS: u32

    // m_read
    var kinds: Kinds  // dataType
    var timestamp: u32
    var status: int
    var headerRead: bool  // RTMP_READ_HEADER
    var buf: array?<byte>
    var bufpos: nat
    var buflen: nat

    // Every media packet taken from the reader, and the record made of each that was not too small.
    ghost var packets: seq<Packet>
    ghost var records: seq<seq<byte>>
    // What was known when the FLV header was written, and all bytes handed out so far.
    ghost var flags: Kinds
    ghost var delivered: seq<byte>

    ghost predicate Valid()
      reads this, reader
    {
      && reader.Valid()
      && RecordsOf(packets, resumeTS, records)
      && if buf == null then buflen == 0 else bufpos + buflen <= buf.Length
    }

    // Bytes read but not handed out.
    ghost function Pending(): seq<byte>
      reads this, buf
      requires buf != null ==> bufpos + buflen <= buf.Length
    {
      if buf == null then [] else buf[bufpos..bufpos + buflen]
    }

    // The media packets still to come.
    ghost function Ahead(): seq<Packet>
      reads this, reader
    {
      MediaPackets(peer, reader.State(), reader.inChunkSize, reader.wire)
    }

    ghost function How(): PlayMode {
      PlayMode(peer, live, resumeTS)
    }

    // Nothing has been read yet.
    ghost predicate Fresh()
      reads this
    {
      buf == null && packets == [] && records == [] && kinds == Kinds(false, false) && timestamp == 0
    }

    // Everything handed out or pending is the FLV header and the records, in order; before the header nothing is.
    ghost predicate Accounted()
      reads this, reader, buf
      requires Valid()
    {
      if headerRead then delivered + Pending() == FlvHeader(flags) + Flatten(records)
      else delivered == [] && (status == 0 ==> Fresh())
    }

    constructor (peer: Peer, reader: Reader, live: bool, resumeTS: u32)
      requires reader.Valid()
      ensures Valid() && Accounted() && this.reader == reader && this.peer == peer && this.resumeTS == resumeTS
      ensures !headerRead && status == 0 && packets == [] && records == [] && delivered == [] && buf == null
    {
      this.peer, this.reader, this.live, this.resumeTS := peer, reader, live, resumeTS;
      kinds, flags, timestamp, status, headerRead := Kinds(false, false), Kinds(false, false), 0, 0, false;
      buf, bufpos, buflen := null, 0, 0;
      packets, records, delivered := [], [], [];
    }

    method GetNextMediaPacket() returns (kind: nat, packet: Packet)
      requires reader.Valid()
      modifies reader
      ensures reader.Valid()
      ensures var r := NextMedia(peer, old(reader.State()), old(reader.inChunkSize), ZERO, old(reader.wire));
        if r.Gone? then kind == 0
        else
          && kind == r.kind && packet == r.packet && reader.State() == r.after
          && reader.inChunkSize == r.size && reader.wire == r.rest
          && packet.IsReady() && packet.WellRead() && packet.bodySize != 0
    {
      hide ReadChunk, ClientPacket, ChunkSizeAfter;
      packet := ZERO;
      ghost var whole := NextMedia(peer, reader.State(), reader.inChunkSize, ZERO, reader.wire);
      while true
        invariant reader.Valid() && packet.body == None && packet.WellRead()
        invariant NextMedia(peer, reader.State(), reader.inChunkSize, packet, reader.wire) == whole
        decreases |reader.wire|
      {
        var ok;
        ok, packet := reader.ReadPacket(packet);
        if !ok {
          return 0, packet;
        }
        if packet.IsReady() && packet.bodySize != 0 {
          kind := ClientPacket(peer, packet);
          reader.inChunkSize := ChunkSizeAfter(packet, reader.inChunkSize);
          if kind != 0 {
            return;
          }
        }
        packet := Reusable(packet);
      }
    }

    // The record of a packet at a[at..]; what the read state learns from it.
    method WriteRecord(a: array<byte>, at: nat, m: Chunk.Message) returns (size: nat, ghost stale: seq<byte>)
      requires at + Room(m) + 4 <= a.Length
      modifies a, this`kinds, this`timestamp
      ensures |stale| == 4 && size == |RecordOf(m, resumeTS, stale)|
      ensures Patched(a, old(a[..]), at, RecordOf(m, resumeTS, stale))
      ensures var seen := SeenIn(m, resumeTS, old(kinds));
        && timestamp == (if live then m.timeStamp else seen.time)
        && kinds == Kinds(seen.audio, seen.video)
    {
      kinds := Kinds(kinds.audio || m.packetType == AUDIO, kinds.video || m.packetType == VIDEO);
      var time;
      if m.packetType == FLASH_VIDEO {
        var seen;
        seen, size, stale := WriteAggregate(a, at, m, resumeTS, kinds);
        kinds := Kinds(seen.audio, seen.video);
        time := seen.time;
      } else {
        time := Wrap(resumeTS + m.timeStamp);
        WriteTag(a, at, m, resumeTS);
        size, stale := 15 + |m.body|, [0, 0, 0, 0];
      }
      timestamp := if live then m.timeStamp else time;
    }

    // The next media packet, if the stream is not over.
    method TakePacket() returns (kind: nat, packet: Packet)
      requires reader.Valid()
      modifies reader
      ensures reader.Valid() && kind <= 2
      ensures kind != 1 ==> old(Ahead()) == []
      ensures kind == 1 ==>
        && packet.IsReady() && packet.WellRead() && packet.bodySize != 0
        && |reader.wire| < old(|reader.wire|) && old(Ahead()) == [packet] + Ahead()
    {
      hide NextMedia, MediaPackets;
      ghost var t, n, w := reader.State(), reader.inChunkSize, reader.wire;
      kind, packet := GetNextMediaPacket();
      if kind == 1 {
        AheadStep(peer, t, n, w);
      } else {
        NoneAhead(peer, t, n, w);
      }
    }

    // A record that fits for sure is built where it belongs, any other one in a buffer of its own, where what does not
    // fit stays.
    method Emit(m: Chunk.Message, out: array<byte>, at: nat, room: nat)
      returns (ret: nat, ghost rec: seq<byte>, ghost stale: seq<byte>)
      requires buf == null && at + room <= out.Length && |m.body| > 0
      modifies this`kinds, this`timestamp, this`buf, this`bufpos, this`buflen, out
      ensures |stale| == 4 && rec == RecordOf(m, resumeTS, stale) && |rec| == ret > 0
      ensures Patched(out, old(out[..]), at, rec[..Min(ret, room)])
      ensures var seen := SeenIn(m, resumeTS, old(kinds));
        && timestamp == (if live then m.timeStamp else seen.time)
        && kinds == Kinds(seen.audio, seen.video)
      ensures buf == null <==> Room(m) + 4 <= room
      ensures
        if buf == null then ret <= room && buflen == old(buflen)
        else fresh(buf) && bufpos == Min(ret, room) && bufpos + buflen == ret && ret <= buf.Length && buf[..ret] == rec
    {
      hide RecordOf, SeenIn;
      if Room(m) + 4 > room {
        var slop := new byte[Room(m) + 4](_ => 0);
        ret, stale := WriteRecord(slop, 0, m);
        rec := RecordOf(m, resumeTS, stale);
        RecordFits(m, resumeTS, stale);
        var len := Min(ret, room);
        assert slop[..ret] == slop[0..0 + |rec|] == rec;
        assert slop[..len] == rec[..len];
        Copy(out, at, slop[..len]);
        buf, bufpos, buflen := slop, len, ret - len;
      } else {
        ret, stale := WriteRecord(out, at, m);
        rec := RecordOf(m, resumeTS, stale);
        RecordFits(m, resumeTS, stale);
        assert rec[..ret] == rec;
      }
    }

    // What the read state has learnt from packet p, for which ret was returned.
    ghost predicate Learnt(before: Warmup, p: Packet, ret: int)
      reads this
    {
      WarmNext(How(), before, p) == Warmup(kinds, timestamp, before.room - ret, buf != null)
    }

    // Read_1_Packet: one record, as far as it fits, goes to out[at..at + room].
    method Read1Packet(out: array<byte>, at: nat, room: nat) returns (ret: int, ghost rec: seq<byte>)
      requires Valid() && buf == null && at + room <= out.Length
      modifies this, reader, out
      ensures Valid()
      ensures headerRead == old(headerRead) && status == old(status)
      ensures flags == old(flags) && delivered == old(delivered)
      ensures ret <= 0 ==> rec == [] && records == old(records) && out[..] == old(out[..]) && buf == null
      ensures ret < 0 ==> (ret == READ_EOF || ret == READ_COMPLETE) && packets == old(packets) && old(Ahead()) == []
      ensures ret >= 0 ==> |reader.wire| < old(|reader.wire|) && packets + Ahead() == old(packets + Ahead())
      ensures ret >= 0 ==> packets != [] && packets[..|packets| - 1] == old(packets)
      ensures ret >= 0 ==> Learnt(Warmup(old(kinds), old(timestamp), room, false), packets[|packets| - 1], ret)
      ensures ret > 0 ==> |rec| == ret && records == old(records) + [rec]
      ensures ret > 0 ==> Patched(out, old(out[..]), at, rec[..Min(ret, room)])
      ensures ret > 0 ==>
        if buf == null then ret <= room
        else fresh(buf) && bufpos == Min(ret, room) && bufpos + buflen == ret && ret <= buf.Length && buf[..ret] == rec
    {
      hide NextMedia, MediaPackets, RecordOf, TooSmall, RecordsOf, KindsBefore, SeenIn;
      rec := [];
      var kind, packet := TakePacket();
      if kind != 1 {
        return if kind == 2 then READ_COMPLETE else READ_EOF, rec;
      }
      assert packets + ([packet] + Ahead()) == packets + [packet] + Ahead();
      var m := packet.Message();
      kinds := KindsBefore(peer, kinds, packet);
      if TooSmall(packet) {
        OneMore(packets, resumeTS, records, packet, rec, [0, 0, 0, 0]);
        packets := packets + [packet];
        return 0, rec;
      }
      ghost var stale;
      ret, rec, stale := Emit(m, out, at, room);
      RecordSizeIs(m, resumeTS, stale);
      OneMore(packets, resumeTS, records, packet, rec, stale);
      packets, records := packets + [packet], records + [rec];
    }

    // One record behind the cnt bytes of the header buffer; one that did not fit moves everything to a larger buffer.
    method HeaderRecord(mybuf: array<byte>, cnt: nat, ghost head: seq<byte>)
      returns (nRead: int, full: array<byte>, cnt': nat)
      requires Valid() && buf == null && cnt <= mybuf.Length && mybuf[..cnt] == head + Flatten(records)
      modifies this, reader, mybuf
      ensures Valid() && buf == null && headerRead == old(headerRead) && status == old(status)
      ensures delivered == old(delivered) && flags == old(flags)
      ensures nRead < 0 ==> (nRead == READ_EOF || nRead == READ_COMPLETE) && packets == old(packets) && old(Ahead()) == []
      ensures nRead >= 0 ==> |reader.wire| < old(|reader.wire|) && packets + Ahead() == old(packets + Ahead())
      ensures nRead >= 0 ==>
        cnt <= cnt' <= full.Length && full[..cnt'] == head + Flatten(records) && (full == mybuf || fresh(full))
      ensures nRead >= 0 ==> packets != [] && packets[..|packets| - 1] == old(packets)
      ensures nRead >= 0 ==>
        WarmNext(How(), Warmup(old(kinds), old(timestamp), mybuf.Length - cnt, false), packets[|packets| - 1])
        == Warmup(kinds, timestamp, mybuf.Length - cnt', full != mybuf)
    {
      hide RecordsOf, MediaPackets, Flatten, PatchedTo, WarmNext, Table.Valid;
      ghost var before, recs := mybuf[..], records;
      ghost var rec;
      nRead, rec := Read1Packet(mybuf, cnt, mybuf.Length - cnt);
      full, cnt' := mybuf, cnt;
      if nRead > 0 {
        FlattenOne(recs, rec);
        Regroup(head, Flatten(recs), rec);
        var k := Min(nRead, mybuf.Length - cnt);
        Appended(before, mybuf[..], cnt, rec[..k]);
        if buf != null {
          full := Grow(mybuf, cnt, buf, nRead);
          buf, buflen := null, 0;
        } else {
          assert rec[..k] == rec;
        }
        cnt' := cnt + nRead;
      }
    }

    // realloc and memcpy of an overflowing record.
    static method Grow(mybuf: array<byte>, cnt: nat, slop: array<byte>, n: nat) returns (full: array<byte>)
      requires cnt <= mybuf.Length && n <= slop.Length
      ensures fresh(full) && full.Length == cnt + n && full[..] == mybuf[..cnt] + slop[..n]
    {
      full := new byte[cnt + n](_ => 0);
      Copy(full, 0, mybuf[..cnt]);
      ghost var b := full[..];
      Copy(full, cnt, slop[..n]);
      Appended(b, full[..], cnt, slop[..n]);
      assert b[..cnt] == b[0..cnt];
    }

    // The header, and records until one has a time or both kinds of tag have been seen.
    method FillHeader(ghost head: seq<byte>) returns (nRead: int, mybuf: array<byte>, cnt: nat)
      requires Valid() && Fresh() && head == FlvHeader(Kinds(false, false))
      modifies this, reader
      ensures Valid() && buf == null && headerRead == old(headerRead) && status == old(status)
      ensures delivered == old(delivered) && packets <= old(Ahead())
      ensures nRead < 0 <==> Unsettled(How(), old(Ahead()))
      ensures nRead < 0 ==> (nRead == READ_EOF || nRead == READ_COMPLETE) && packets == old(Ahead())
      ensures nRead >= 0 ==> Flagged(How(), old(Ahead()), kinds)
      ensures nRead >= 0 ==> |reader.wire| < old(|reader.wire|)
      ensures nRead >= 0 ==> packets + Ahead() == old(Ahead())
      ensures nRead >= 0 ==> fresh(mybuf) && 13 <= cnt <= mybuf.Length && mybuf[..cnt] == head + Flatten(records)
    {
      hide RecordsOf, MediaPackets, Flatten, PatchedTo, FlvHeader, WarmNext, Warm, Unsettled, Table.Valid;
      ghost var all := Ahead();
      ColdStart(How());
      mybuf := FreshHeader();
      nRead, cnt := 0, 13;
      EmptyFlatten(head);
      assert [] + all == all;
      while timestamp == 0
        invariant Valid() && buf == null && headerRead == old(headerRead) && status == old(status)
        invariant delivered == old(delivered) && flags == old(flags) && nRead >= 0
        invariant fresh(mybuf) && 13 <= cnt <= mybuf.Length && mybuf[..cnt] == head + Flatten(records)
        invariant packets + Ahead() == all
        invariant mybuf.Length == HEADERBUF && Warm(How(), packets) == Warmup(kinds, timestamp, HEADERBUF - cnt, false)
        invariant timestamp == 0 ==> Unsettled(How(), packets)
        invariant packets != [] ==> Unsettled(How(), packets[..|packets| - 1])
        invariant if packets == [] then timestamp == 0 else |reader.wire| < old(|reader.wire|)
        decreases |reader.wire|
      {
        ghost var before := packets;
        var full, cnt';
        nRead, full, cnt' := HeaderRecord(mybuf, cnt, head);
        if nRead < 0 {
          assert packets + [] == packets;
          return;
        }
        var overflow := full != mybuf;
        mybuf, cnt := full, cnt';
        assert packets == before + [packets[|packets| - 1]];
        WarmMore(How(), before, packets[|packets| - 1]);
        if overflow || (kinds.audio && kinds.video) {
          break;
        }
      }
      FlaggedAt(How(), packets, all);
    }

    // The first call. The flags in the header are filled in at the end; a stream that ends before is dropped.
    method ReadHeader() returns (ok: bool)
      requires Valid() && Fresh() && !headerRead && status == 0 && delivered == []
      modifies this, reader
      ensures Valid() && delivered == [] && packets <= old(Ahead())
      ensures ok <==> !Unsettled(How(), old(Ahead()))
      ensures if ok then packets + Ahead() == old(Ahead()) else packets == old(Ahead())
      ensures ok ==> |reader.wire| < old(|reader.wire|) && Flagged(How(), old(Ahead()), flags)
      ensures ok ==> headerRead && status == 0 && fresh(buf) && Pending() == FlvHeader(flags) + Flatten(records)
      ensures !ok ==> !headerRead && buf == null && (status == READ_EOF || status == READ_COMPLETE)
    {
      hide RecordsOf, MediaPackets, Flatten, Flagged, Unsettled;
      var nRead, mybuf, cnt := FillHeader(FlvHeader(Kinds(false, false)));
      if nRead < 0 {
        status := nRead;
        return false;
      }
      ghost var was := mybuf[..cnt];
      mybuf[4] := (if kinds.audio then 4 else 0) + if kinds.video then 1 else 0;
      flags := kinds;
      FlagsPut(was, mybuf[..cnt], flags, Flatten(records));
      buf, bufpos, buflen := mybuf, 0, cnt;
      assert mybuf[0..cnt] == mybuf[..cnt];
      headerRead := true;
      ok := true;
    }

    // While the stream is open the packets taken and those ahead are `all`; it ends when all are taken and handed out.
    ghost predicate Following(all: seq<Packet>)
      reads this, reader
    {
      && (headerRead ==> Flagged(How(), all, flags))
      && if status == 0 then packets + Ahead() == all else packets == all && buf == null
    }

    // Leftover bytes go out first.
    method TakeLeftover(out: array<byte>, size: nat) returns (n: nat)
      requires buf != null && buf != out && bufpos + buflen <= buf.Length && size <= out.Length
      modifies this`buf, this`bufpos, this`buflen, out
      ensures if buf == null then buflen == 0 && n == old(buflen)
              else buf == old(buf) && n == size && buflen == old(buflen) - n && bufpos + buflen <= buf.Length
      ensures n <= size && out[..n] + Pending() == old(Pending())
    {
      hide PatchedTo;
      ghost var o, b, lo, hi := out[..], buf[..], bufpos, bufpos + buflen;
      n := if buflen < size then buflen else size;
      var s := buf[bufpos..bufpos + n];
      Copy(out, 0, s);
      Prefixed(o, out[..], s);
      assert buf[..] == b;
      Rejoin(b, lo, lo + n, hi);
      buflen := buflen - n;
      if buflen == 0 {
        buf := null;
        assert b[lo + n..hi] == [];
      } else {
        bufpos := bufpos + n;
        assert Pending() == b[lo + n..hi];
      }
    }

    // One packet, if there is one, and what fits of its record.
    method NextRecord(out: array<byte>, at: nat, size: nat, ghost all: seq<Packet>) returns (nRead: int, n: nat)
      requires Valid() && headerRead && Accounted() && buf == null && status == 0 && 0 < size <= at + size <= out.Length
      requires Following(all)
      modifies this, reader, out
      ensures Valid() && headerRead && Accounted() && Following(all) && (buf == null || fresh(buf))
      ensures nRead <= 0 ==> n == 0 && buf == null && out[..] == old(out[..]) && delivered == old(delivered)
      ensures nRead < 0 ==> status == READ_EOF || status == READ_COMPLETE
      ensures nRead >= 0 ==> status == 0 && |reader.wire| < old(|reader.wire|)
      ensures nRead > 0 ==>
        0 < n <= size && out[..at] == old(out[..at]) && delivered == old(delivered) + out[at..at + n]
    {
      hide RecordsOf, MediaPackets, Flatten, FlvHeader, PatchedTo, Table.Valid, WarmNext, Learnt, Flagged;
      ghost var o, recs := out[..], records;
      ghost var rec;
      nRead, rec := Read1Packet(out, at, size);
      n := 0;
      if nRead < 0 {
        assert packets + [] == packets;
        status := nRead;
      } else if nRead > 0 {
        FlattenOne(recs, rec);
        n := Min(nRead, size);
        PatchedPart(o, out[..], at, rec[..n]);
        delivered := delivered + rec[..n];
        Regroup(FlvHeader(flags), Flatten(recs), rec);
        RecordSplit(delivered, Pending(), rec, n, old(delivered));
      }
    }

    // At most one more record; none only if nothing is asked for or the stream is over.
    method TakeRecord(out: array<byte>, at: nat, size: nat, ghost all: seq<Packet>) returns (n: nat)
      requires Valid() && headerRead && Accounted() && buf == null && status == 0 && at + size <= out.Length
      requires Following(all)
      modifies this, reader, out
      ensures Valid() && headerRead && Accounted() && Following(all) && (buf == null || fresh(buf))
      ensures n <= size && out[..at] == old(out[..at])
      ensures delivered == old(delivered) + out[at..at + n]
      ensures status == 0 || status == READ_EOF || status == READ_COMPLETE
      ensures size > 0 && status == 0 ==> n > 0 && |reader.wire| < old(|reader.wire|)
      ensures size == 0 ==> reader.wire == old(reader.wire) && buf == null && status == 0
    {
      hide RecordsOf, MediaPackets, Flatten, FlvHeader, Accounted, Following;
      n := 0;
      while size > 0
        invariant Valid() && headerRead && buf == null && status == 0 && Accounted() && Following(all)
        invariant n == 0 && out[..] == old(out[..]) && delivered == old(delivered)
        invariant if size == 0 then reader.wire == old(reader.wire) else |reader.wire| <= old(|reader.wire|)
        decreases |reader.wire|
      {
        var nRead;
        nRead, n := NextRecord(out, at, size, all);
        if nRead != 0 {
          return;
        }
      }
    }

    // What is left over goes out and is accounted for.
    method Drain(out: array<byte>, size: nat) returns (n: nat)
      requires Valid() && headerRead && Accounted() && buf != null && buf != out && size <= out.Length
      modifies this`buf, this`bufpos, this`buflen, this`delivered, out
      ensures Valid() && Accounted() && (buf == null || buf == old(buf))
      ensures n <= size && delivered == old(delivered) + out[..n]
      ensures if buf != null then n == size && buflen == old(buflen) - n else n == old(buflen)
    {
      hide RecordsOf, MediaPackets, Flatten, FlvHeader, Table.Valid;
      ghost var whole, pending := FlvHeader(flags) + Flatten(records), Pending();
      n := TakeLeftover(out, size);
      Handed(whole, delivered, pending, out[..n], Pending());
      delivered := delivered + out[..n];
    }

    // Less is left to read, or as much to read and less pending.
    ghost predicate Nearer(wire: nat, pending: nat)
      reads this, reader
    {
      |reader.wire| < wire || (|reader.wire| == wire && buflen < pending)
    }

    // Leftover, then a record, once there is a header.
    method ReadOn(out: array<byte>, size: nat, ghost all: seq<Packet>) returns (n: nat)
      requires Valid() && headerRead && Accounted() && Following(all) && status == 0
      requires (buf == null || buf != out) && size <= out.Length
      modifies this, reader, out
      ensures Valid() && headerRead && Accounted() && Following(all) && (buf == null || buf == old(buf) || fresh(buf))
      ensures status == 0 || status == READ_EOF || status == READ_COMPLETE
      ensures n <= size && delivered == old(delivered) + out[..n]
      ensures size > 0 && status == 0 ==> n > 0 && Nearer(old(|reader.wire|), old(buflen))
    {
      hide RecordsOf, MediaPackets, Flatten, FlvHeader, Table.Valid, Unsettled, Flagged;
      n := 0;
      if buf != null {
        n := Drain(out, size);
      }
      if buf == null {
        ghost var first := out[..n];
        var more := TakeRecord(out, n, size - n, all);
        assert out[..n + more] == first + out[n..n + more];
        Regroup(old(delivered), first, out[n..n + more]);
        n := n + more;
      }
    }

    // RTMP_Read: at most size bytes, and never more than one new record's worth.
    method Read(out: array<byte>, size: nat, ghost all: seq<Packet>) returns (n: int)
      requires Valid() && Accounted() && Following(all) && (buf == null || buf != out) && size <= out.Length
      requires status == 0 || status == READ_EOF || status == READ_ERROR || status == READ_COMPLETE
      modifies this, reader, out
      ensures Valid() && Accounted() && Following(all) && (buf == null || buf == old(buf) || fresh(buf))
      ensures status == 0 || status == READ_EOF || status == READ_ERROR || status == READ_COMPLETE
      ensures n <= size && (n < 0 <==> old(status) == READ_ERROR)
      ensures delivered == old(delivered) + if n < 0 then [] else out[..n]
      ensures old(status) != 0 ==> status == old(status) && headerRead == old(headerRead)
      ensures old(status) == 0 ==> status != READ_ERROR && (headerRead <==> old(headerRead) || !Unsettled(How(), all))
      ensures old(status) == 0 && size > 0 && status == 0 ==>
        n > 0 && headerRead && Nearer(old(|reader.wire|), old(buflen))
    {
      hide RecordsOf, MediaPackets, Flatten, FlvHeader, Unsettled, Flagged, Table.Valid;
      assert delivered + [] == delivered;
      if status == READ_EOF || status == READ_COMPLETE {
        assert out[..0] == [];
        return 0;
      }
      if status == READ_ERROR {
        return -1;
      }
      if !headerRead {
        assert [] + Ahead() == Ahead();
        var ok := ReadHeader();
        if !ok {
          assert out[..0] == [];
          return 0;
        }
        assert delivered + Pending() == Pending();
      }
      n := ReadOn(out, size, all);
    }

    static method FreshHeader() returns (mybuf: array<byte>)
      ensures fresh(mybuf) && mybuf.Length == HEADERBUF && mybuf[..13] == FlvHeader(Kinds(false, false))
    {
      mybuf := new byte[HEADERBUF](_ => 0);
      Copy(mybuf, 0, FlvHeader(Kinds(false, false)));
      assert mybuf[..13] == mybuf[0..13];
    }
  }

  // Any number of calls with any request sizes: what they return, one after the other, is the FLV header and the records
  // from the start, short only of what is still pending. Nothing is lost, repeated or out of order, whatever the sizes;
  // when a call finds the stream over, every media packet has been taken and nothing is pending.
  method ReadSchedule(p: Player, sizes: seq<nat>) returns (got: seq<byte>)
    requires p.Valid() && p.Accounted() && !p.headerRead && p.status == 0
    modifies p, p.reader
    ensures p.Valid()
    ensures RecordsOf(p.packets, p.resumeTS, p.records) && p.packets <= old(p.Ahead())
    ensures if p.headerRead then got + p.Pending() == FlvHeader(p.flags) + Flatten(p.records) else got == []
    ensures p.headerRead ==> Flagged(p.How(), old(p.Ahead()), p.flags)
    ensures p.status != 0 ==> p.packets == old(p.Ahead()) && p.buf == null
    ensures sizes != [] ==> (p.headerRead <==> !Unsettled(p.How(), old(p.Ahead())))
  {
    hide RecordsOf, MediaPackets, Flatten, FlvHeader, Unsettled, Flagged;
    got := [];
    ghost var all := p.Ahead();
    assert [] + all == all;
    for i := 0 to |sizes|
      invariant p.Valid() && p.Accounted() && p.Following(all) && p.delivered == got
      invariant p.buf == null || fresh(p.buf)
      invariant p.status == 0 || p.status == READ_EOF || p.status == READ_ERROR || p.status == READ_COMPLETE
      invariant if i == 0 then !p.headerRead && p.status == 0 else p.headerRead <==> !Unsettled(p.How(), all)
    {
      var out := new byte[sizes[i]](_ => 0);
      var n := p.Read(out, sizes[i], all);
      got := got + if n < 0 then [] else out[..n];
    }
  }

  // Reading until the stream is over, as a caller who wants all of it does: the loop ends, and has been handed the FLV
  // header and the record of every media packet, or nothing at all if the header phase never ends.
  method PlayToEnd(p: Player, size: nat) returns (got: seq<byte>)
    requires p.Valid() && p.Accounted() && !p.headerRead && p.status == 0 && size > 0
    modifies p, p.reader
    ensures p.Valid() && p.status != 0 && p.packets == old(p.Ahead()) && RecordsOf(p.packets, p.resumeTS, p.records)
    ensures p.headerRead <==> !Unsettled(p.How(), old(p.Ahead()))
    ensures p.headerRead ==> Flagged(p.How(), old(p.Ahead()), p.flags) && got == FlvHeader(p.flags) + Flatten(p.records)
    ensures !p.headerRead ==> got == []
  {
    hide RecordsOf, MediaPackets, Flatten, FlvHeader, Unsettled, Flagged;
    got := [];
    ghost var all, started := p.Ahead(), false;
    assert [] + all == all;
    while p.status == 0
      invariant p.Valid() && p.Accounted() && p.Following(all) && p.delivered == got
      invariant p.buf == null || fresh(p.buf)
      invariant p.status == 0 || p.status == READ_EOF || p.status == READ_COMPLETE
      invariant if started then p.headerRead <==> !Unsettled(p.How(), all) else !p.headerRead && p.status == 0
      decreases p.status == 0, |p.reader.wire|, p.buflen
    {
      var out := new byte[size](_ => 0);
      var n := p.Read(out, size, all);
      got, started := got + if n < 0 then [] else out[..n], true;
    }
    assert got + [] == got;
  }

  lemma Handed(whole: seq<byte>, delivered: seq<byte>, pending: seq<byte>, s: seq<byte>, left: seq<byte>)
    requires delivered + pending == whole && s + left == pending
    ensures delivered + s + left == whole
  {
  }

  // The part of a record that fitted and the part that is pending are the record.
  lemma RecordSplit(delivered: seq<byte>, pending: seq<byte>, rec: seq<byte>, n: nat, before: seq<byte>)
    requires n <= |rec| && pending == rec[n..] && delivered == before + rec[..n]
    ensures delivered + pending == before + rec
  {
    assert rec == rec[..n] + rec[n..];
  }

  lemma EmptyFlatten(head: seq<byte>)
    ensures head + Flatten([]) == head
  {
  }

  // A patch behind the first cnt bytes extends them.
  lemma Appended(before: seq<byte>, after: seq<byte>, cnt: nat, s: seq<byte>)
    requires PatchedTo(before, after, cnt, s)
    ensures after[..cnt] == before[..cnt] && after[..cnt + |s|] == before[..cnt] + s
  {
    assert after[..cnt + |s|] == after[..cnt] + after[cnt..cnt + |s|];
  }

  lemma PatchedPart(before: seq<byte>, after: seq<byte>, at: nat, s: seq<byte>)
    requires PatchedTo(before, after, at, s)
    ensures at + |s| <= |after| == |before| && after[..at] == before[..at] && after[at..at + |s|] == s
  {
  }

  lemma Prefixed(before: seq<byte>, after: seq<byte>, s: seq<byte>)
    requires PatchedTo(before, after, 0, s)
    ensures after[..|s|] == s
  {
    assert after[..|s|] == after[0..|s|];
  }

  lemma FlagsPut(was: seq<byte>, now: seq<byte>, flags: Kinds, rest: seq<byte>)
    requires was == FlvHeader(Kinds(false, false)) + rest
    requires now == was[4 := (if flags.audio then 4 else 0) + if flags.video then 1 else 0]
    ensures now == FlvHeader(flags) + rest
  {
  }
}
