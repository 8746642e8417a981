// The publishing side's state (m_write) and RTMP_Write itself (librtmp/rtmp.c).
module Publisher {
  import opened Buffer
  import opened Bytes
  import opened Chunk
  import opened ChunkWriter
  import opened Flv
  import opened Publish
  import opened Session

  // What the writer puts on the wire for some messages in a row on one channel.
  function SendAll(prev: Option<Last>, sends: seq<Send>, size: nat): seq<seq<byte>>
    requires size > 0
    decreases |sends|
  {
    if sends == [] then []
    else
      var Send(headerType, m) := sends[0];
      var fmt := ShrinkFormat(prev, headerType, m);
      (if fmt <= MINIMUM then MessageChunks(fmt, WireTime(prev, headerType, m), m, size) else [])
      + SendAll(Some(Remember(m)), sends[1..], size)
  }

  function LastAfter(prev: Option<Last>, sends: seq<Send>): Option<Last>
    decreases |sends|
  {
    if sends == [] then prev else LastAfter(Some(Remember(sends[0].m)), sends[1..])
  }

  lemma {:induction false} SendAllConcat(prev: Option<Last>, a: seq<Send>, b: seq<Send>, size: nat)
    requires size > 0
    ensures SendAll(prev, a + b, size) == SendAll(prev, a, size) + SendAll(LastAfter(prev, a), b, size)
    ensures LastAfter(prev, a + b) == LastAfter(LastAfter(prev, a), b)
    decreases |a|
  {
    hide MessageChunks, ShrinkFormat, WireTime;
    if a == [] {
      assert a + b == b;
    } else {
      assert (a + b)[0] == a[0] && (a + b)[1..] == a[1..] + b;
      SendAllConcat(Some(Remember(a[0].m)), a[1..], b, size);
    }
  }

  // The messages sent before, and those of the rest of the call.
  function Prepend(sent: seq<Send>, r: Fed): Fed {
    if r.Malformed? then Malformed else Fed(sent + r.sent, r.pending, r.ret)
  }

  // One unfolding of Feed and of FeedBody, as the loop takes them.
  lemma FeedStarts(p: Option<Filling>, streamId: i32, size: nat, w: seq<byte>)
    requires w != []
    ensures Feed(p, streamId, size, w) ==
            if p.Some? then FeedBody(p.value, streamId, size, w)
            else if size < 11 then Fed([], None, 0)
            else
              var w1 := if |w| >= 3 && w[..3] == [0x46, 0x4c, 0x56] then if |w| >= 13 then w[13..] else [] else w;
              if |w1| < 11 then Malformed else FeedBody(StartOf(w1), streamId, size, w1[11..])
  {
  }

  lemma FeedGoesOn(f: Filling, streamId: i32, size: nat, w: seq<byte>)
    requires |f.got| <= f.total
    ensures FeedBody(f, streamId, size, w) ==
            var num := Min(f.total - |f.got|, |w|);
            var body, rest := f.got + w[..num], w[num..];
            if |body| < f.total then Fed([], if body == [] then None else Some(f.(got := body)), size)
            else if |rest| < 4 then Fed([SendOf(f, streamId, body)], None, size + |rest| - 4)
            else Prepend([SendOf(f, streamId, body)], Feed(None, streamId, size, rest[4..]))
  {
  }

  class Publisher {
    const writer: Writer
    const pkt: OutPacket
    const streamId: i32
    var bytesRead: nat

    constructor (writer: Writer, pkt: OutPacket, streamId: i32)
      requires writer.outChunkSize > 0 && pkt.body == null
      ensures Valid() && State() == None && this.writer == writer && this.pkt == pkt && this.streamId == streamId
    {
      this.writer, this.pkt, this.streamId, bytesRead := writer, pkt, streamId, 0;
    }

    // A tag under way has a buffer for its whole message.
    ghost predicate Valid()
      reads this, pkt, writer
    {
      && writer.outChunkSize > 0
      && (bytesRead > 0 ==> pkt.body != null)
      && (pkt.body != null ==> pkt.body.Length == RESERVE + pkt.bodySize && bytesRead <= pkt.bodySize)
      && (pkt.body != null ==> pkt.headerType == LARGE || pkt.headerType == MEDIUM)
    }

    ghost function Filled(): Filling
      reads this, pkt, pkt.body, writer
      requires Valid() && pkt.body != null
    {
      Filling(pkt.headerType, pkt.packetType, pkt.timeStamp, pkt.bodySize, pkt.body[RESERVE..RESERVE + bytesRead])
    }

    ghost function State(): Option<Filling>
      reads this, pkt, pkt.body, writer
      requires Valid()
    {
      if bytesRead == 0 then None else Some(Filled())
    }

    // The writer has gone from `writes` and `prev` through the given messages.
    ghost predicate Sent(writes: seq<seq<byte>>, prev: Option<Last>, sent: seq<Send>)
      reads writer
      requires writer.outChunkSize > 0
    {
      && writer.writes == writes + SendAll(prev, sent, writer.outChunkSize)
      && writer.Previous(SOURCE_CHANNEL) == LastAfter(prev, sent)
    }

    // The 11 header bytes of a tag: a new packet.
    method StartTag(h: seq<byte>)
      requires Valid() && bytesRead == 0 && |h| >= 11
      modifies this`bytesRead, pkt
      ensures Valid() && pkt.body != null && fresh(pkt.body) && Filled() == StartOf(h)
      ensures pkt.channel == old(pkt.channel) && pkt.infoField2 == old(pkt.infoField2)
    {
      pkt.packetType := h[0];
      pkt.bodySize := FromBe24(h[1..]);
      pkt.timeStamp := TimeOf(h[4..]);
      if ((pkt.packetType == AUDIO || pkt.packetType == VIDEO) && pkt.timeStamp == 0) || pkt.packetType == INFO {
        pkt.headerType := LARGE;
        if pkt.packetType == INFO {
          pkt.bodySize := pkt.bodySize + 16;
        }
      } else {
        pkt.headerType := MEDIUM;
      }
      pkt.body := new byte[RESERVE + pkt.bodySize](_ => 0);
      if pkt.packetType == INFO {
        Copy(pkt.body, RESERVE, SET_DATA_FRAME);
        bytesRead := 16;
      }
    }

    method AddData(d: seq<byte>)
      requires Valid() && pkt.body != null && bytesRead + |d| <= pkt.bodySize
      modifies this`bytesRead, pkt.body
      ensures Valid() && pkt.body == old(pkt.body) && bytesRead == old(bytesRead) + |d|
      ensures Filled() == old(Filled()).(got := old(Filled()).got + d)
    {
      ghost var before := pkt.body[..];
      Copy(pkt.body, RESERVE + bytesRead, d);
      Grown(before, pkt.body[..], RESERVE, RESERVE + bytesRead, d);
      bytesRead := bytesRead + |d|;
    }

    lemma Grown(before: seq<byte>, after: seq<byte>, from: nat, at: nat, d: seq<byte>)
      requires from <= at && PatchedTo(before, after, at, d)
      ensures after[from..at + |d|] == before[from..at] + d
    {
      assert after[from..at] == after[..at][from..] == before[..at][from..] == before[from..at];
      assert after[from..at + |d|] == after[from..at] + after[at..at + |d|];
    }

    method SendTag(ghost writes: seq<seq<byte>>, ghost prev: Option<Last>, ghost sent: seq<Send>) returns (ghost x: Send)
      requires Valid() && pkt.body != null && bytesRead == pkt.bodySize
      requires pkt.channel == SOURCE_CHANNEL
      requires Sent(writes, prev, sent)
      modifies this`bytesRead, pkt, writer, pkt.body
      ensures Valid() && pkt.body == null && bytesRead == 0
      ensures pkt.channel == old(pkt.channel) && pkt.infoField2 == old(pkt.infoField2)
      ensures writer.outChunkSize == old(writer.outChunkSize)
      ensures x == SendOf(old(Filled()), pkt.infoField2, old(Filled()).got)
      ensures Sent(writes, prev, sent + [x])
    {
      hide MessageChunks, ShrinkFormat, WireTime, SendAll, LastAfter, HeaderTypeOf;
      x := Send(pkt.headerType, pkt.Contents());
      SendAllConcat(prev, sent, [x], writer.outChunkSize);
      SendOne(LastAfter(prev, sent), x, writer.outChunkSize);
      Regroup(writes, SendAll(prev, sent, writer.outChunkSize), SendAll(LastAfter(prev, sent), [x], writer.outChunkSize));
      var ok := writer.SendPacket(pkt);
      pkt.body := null;
      bytesRead := 0;
    }

    // The body bytes there are for the tag under way.
    method TakeData(w: seq<byte>) returns (num: nat)
      requires Valid() && pkt.body != null
      modifies this`bytesRead, pkt.body
      ensures Valid() && pkt.body == old(pkt.body)
      ensures num == Min(pkt.bodySize - old(bytesRead), |w|) && bytesRead == old(bytesRead) + num
      ensures Filled() == old(Filled()).(got := old(Filled()).got + w[..num])
    {
      num := pkt.bodySize - bytesRead;
      if num > |w| {
        num := |w|;
      }
      AddData(w[..num]);
    }

    // The header of a new tag, behind the FLV file header if there is one.
    method TakeHeader(w: seq<byte>, ghost size: nat) returns (rest: seq<byte>)
      requires Valid() && bytesRead == 0 && w != [] && size >= 11 && Feed(None, streamId, size, w).Fed?
      modifies this`bytesRead, pkt
      ensures Valid() && pkt.body != null && fresh(pkt.body) && |rest| < |w|
      ensures Feed(None, streamId, size, w) == FeedBody(Filled(), streamId, size, rest)
      ensures pkt.channel == old(pkt.channel) && pkt.infoField2 == old(pkt.infoField2)
    {
      hide Feed, FeedBody, StartOf;
      FeedStarts(None, streamId, size, w);
      rest := w;
      if |w| >= 3 && w[..3] == [0x46, 0x4c, 0x56] {
        rest := w[13..];
      }
      StartTag(rest);
      rest := rest[11..];
    }

    // As much of the body as there is; a complete message is sent and the tag's size field skipped, if it is all there.
    method TakePart(w: seq<byte>, ghost size: nat, ghost writes: seq<seq<byte>>, ghost prev: Option<Last>,
                    ghost sent: seq<Send>)
      returns (rest: seq<byte>, short: bool, ghost sent': seq<Send>)
      requires Valid() && pkt.body != null && pkt.channel == SOURCE_CHANNEL && pkt.infoField2 == streamId
      requires Sent(writes, prev, sent)
      modifies this`bytesRead, pkt, writer, pkt.body
      ensures Valid() && (pkt.body == null || pkt.body == old(pkt.body))
      ensures pkt.channel == SOURCE_CHANNEL && pkt.infoField2 == streamId
      ensures writer.outChunkSize == old(writer.outChunkSize) && Sent(writes, prev, sent')
      ensures |rest| <= |w| && (w != [] && !short ==> |rest| < |w|)
      ensures Prepend(sent, FeedBody(old(Filled()), streamId, size, w)) ==
              if short then Fed(sent', State(), size + |rest| - 4)
              else Prepend(sent', Feed(State(), streamId, size, rest))
    {
      hide Feed, FeedBody, Sent, Prepend;
      FeedGoesOn(Filled(), streamId, size, w);
      var num := TakeData(w);
      rest, short, sent' := w[num..], false, sent;
      if bytesRead == pkt.bodySize {
        ghost var x := SendTag(writes, prev, sent);
        sent' := sent + [x];
        if |rest| < 4 {
          PrependLast(sent, [x], None, size + |rest| - 4);
          short := true;
        } else {
          rest := rest[4..];
          PrependTwice(sent, [x], Feed(None, streamId, size, rest));
        }
      } else {
        assert rest == [];
        FeedNothing(State(), streamId, size);
      }
    }

    method Address()
      requires Valid()
      modifies pkt`channel, pkt`infoField2
      ensures Valid() && State() == old(State())
      ensures pkt.channel == SOURCE_CHANNEL && pkt.infoField2 == streamId
    {
      pkt.channel, pkt.infoField2 := SOURCE_CHANNEL, streamId;
    }

    // RTMP_Write: the messages of the tags this call completes go to the writer, the last tag stays under way.
    method Write(data: seq<byte>) returns (ret: int, ghost sent: seq<Send>)
      requires Valid() && Feed(State(), streamId, |data|, data).Fed?
      modifies this`bytesRead, pkt, writer, pkt.body
      ensures Valid() && writer.outChunkSize == old(writer.outChunkSize)
      ensures pkt.body == null || pkt.body == old(pkt.body) || fresh(pkt.body)
      ensures old(Feed(State(), streamId, |data|, data)) == Fed(sent, State(), ret)
      ensures Sent(old(writer.writes), old(writer.Previous(SOURCE_CHANNEL)), sent)
    {
      hide Feed, FeedBody, SendAll, LastAfter, StartOf, Prepend, Filled;
      Address();
      ghost var writes, prev := writer.writes, writer.Previous(SOURCE_CHANNEL);
      ghost var goal := Feed(State(), streamId, |data|, data);
      sent := [];
      var buf := data;
      NothingSent(writes, prev, writer.outChunkSize);
      PrependNothing(goal);
      while buf != []
        invariant Valid() && writer.outChunkSize == old(writer.outChunkSize)
        invariant pkt.body == null || pkt.body == old(pkt.body) || fresh(pkt.body)
        invariant pkt.channel == SOURCE_CHANNEL && pkt.infoField2 == streamId
        invariant goal == Prepend(sent, Feed(State(), streamId, |data|, buf))
        invariant Sent(writes, prev, sent)
        decreases |buf|
      {
        FeedStarts(State(), streamId, |data|, buf);
        if bytesRead == 0 {
          if |data| < 11 {
            PrependLast(sent, [], None, 0);
            return 0, sent;
          }
          PrependFed(sent, Feed(None, streamId, |data|, buf));
          buf := TakeHeader(buf, |data|);
        }
        var short;
        buf, short, sent := TakePart(buf, |data|, writes, prev, sent);
        if short {
          return |data| + |buf| - 4, sent;
        }
      }
      FeedNothing(State(), streamId, |data|);
      PrependLast(sent, [], State(), |data|);
      ret := |data|;
    }
  }

  lemma PrependNothing(r: Fed)
    ensures Prepend([], r) == r
  {
    assert r.Fed? ==> [] + r.sent == r.sent;
  }

  lemma PrependLast(sent: seq<Send>, more: seq<Send>, p: Option<Filling>, ret: int)
    ensures Prepend(sent, Fed(more, p, ret)) == Fed(sent + more, p, ret) && sent + [] == sent
  {
  }

  lemma PrependFed(a: seq<Send>, r: Fed)
    requires Prepend(a, r).Fed?
    ensures r.Fed?
  {
  }

  lemma PrependTwice(a: seq<Send>, b: seq<Send>, r: Fed)
    ensures Prepend(a, Prepend(b, r)) == Prepend(a + b, r)
  {
    assert r.Fed? ==> a + (b + r.sent) == a + b + r.sent;
  }

  lemma NothingSent(writes: seq<seq<byte>>, prev: Option<Last>, size: nat)
    requires size > 0
    ensures writes + SendAll(prev, [], size) == writes && LastAfter(prev, []) == prev
  {
  }

  lemma SendOne(prev: Option<Last>, x: Send, size: nat)
    requires size > 0 && (x.headerType == LARGE || x.headerType == MEDIUM)
    ensures var fmt := ShrinkFormat(prev, x.headerType, x.m);
      && fmt <= MINIMUM
      && SendAll(prev, [x], size) == MessageChunks(fmt, WireTime(prev, x.headerType, x.m), x.m, size)
      && LastAfter(prev, [x]) == Some(Remember(x.m))
  {
    hide MessageChunks;
    var fmt := ShrinkFormat(prev, x.headerType, x.m);
    var c := MessageChunks(fmt, WireTime(prev, x.headerType, x.m), x.m, size);
    assert c + [] == c;
  }
}
