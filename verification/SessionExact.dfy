// When a session arrives exactly as it was sent (librtmp/rtmp.c, RTMP_SendPacket and RTMP_ReadPacket).
module SessionExact {
  import opened Bytes
  import opened Chunk
  import opened ChunkReader
  import opened ChunkSession
  import opened Interleave
  import opened Session

  ghost predicate NoDrift(ss: Senders) {
    forall ch | ch in ss :: ss[ch].drift == 0
  }

  predicate SessionSendable(ss: Senders, sends: seq<Send>)
    decreases |sends|
  {
    sends == [] ||
    (var Send(headerType, m) := sends[0];
     && Sendable(SenderAt(ss, m.channel), headerType, m)
     && SessionSendable(ss[m.channel := Advance(SenderAt(ss, m.channel), headerType, m)], sends[1..]))
  }

  // A message shrunk to one byte behind an extended timestamp, if its chunk is all there is: the chunk is too short for
  // the reader, who looks for four more timestamp bytes.
  lemma FramedShrunkBehindExtended(s: Option<Sender>, c: Channel, headerType: byte, m: Message, size: i32)
    requires Sync(m.channel, s, c) && Sendable(s, headerType, m) && size > 0
    requires Shrunk(s, headerType, m) && s.value.field == EXTENDED
    ensures RunOn(m.channel, c, size, ChunksOf(s, headerType, m, size)) == Stuck
  {
    hide ReadOnChannel;
    LeftOut(s, headerType, m);
    var piece := m.body[..Min(|m.body|, size)];
    var chunks := ChunksOf(s, headerType, m, size);
    FirstOfShrunk(s, headerType, m, size);
    StepIs(m.channel, c, size, MINIMUM, piece);
    assert c.stored.Some? && c.stored.value.timeStamp == EXTENDED;
    TooShort(c, size, ZERO.(headerType := MINIMUM, channel := m.channel), |m.body|, piece);
  }

  lemma FirstOfShrunk(s: Option<Sender>, headerType: byte, m: Message, size: i32)
    requires Sendable(s, headerType, m) && Shrunk(s, headerType, m) && size > 0
    ensures ChunksOf(s, headerType, m, size) != []
    ensures ChunksOf(s, headerType, m, size)[0] == BasicHeader(MINIMUM, m.channel) + m.body[..Min(|m.body|, size)]
  {
    LeftOut(s, headerType, m);
    assert WireTime(LastOf(s), headerType, m) == 0;
    BareHeader(m);
  }

  lemma BareHeader(m: Message)
    ensures FirstHeader(MINIMUM, 0, m) == BasicHeader(MINIMUM, m.channel)
  {
  }

  lemma TooShort(c: Channel, size: i32, p: Packet, n: nat, piece: seq<byte>)
    requires size > 0 && p.headerType == MINIMUM && |piece| == Min(n, size)
    requires c.stored.Some? && c.stored.value.timeStamp == EXTENDED && c.stored.value.bodySize == n
    requires c.stored.value.bytesRead == 0
    ensures ReadOnChannel(c, size, p, piece).Fail?
  {
    assert ApplyHeader(Base(c, p), piece[..0]) == c.stored.value;
  }

  // Message m, n bytes of body long, as read from w by a reader who takes w's first four bytes for a time.
  function Misread(m: Message, drift: u32, w: seq<byte>, n: nat): Message
    requires 4 + n <= |w|
  {
    m.(timeStamp := Wrap(m.timeStamp + drift + FromBe32(w)), body := w[4..4 + n])
  }

  // The same on the wire, where bytes follow. The reader takes the first four bytes behind the header for the time,
  // whatever they are, and the chunk's body from behind them.
  lemma ShrunkBehindExtended(s: Option<Sender>, t: Table, headerType: byte, m: Message, size: i32, rest: seq<byte>)
    requires Sync(m.channel, s, t.At(m.channel)) && Sendable(s, headerType, m) && size > 0
    requires Shrunk(s, headerType, m) && s.value.field == EXTENDED
    ensures var chunk, n := ChunksOf(s, headerType, m, size)[0], Min(|m.body|, size);
      var w := m.body[..n] + rest;
      var r := ReadChunk(t, size, ZERO, chunk + rest);
      if |rest| < 4 then r.NoChunk?
      else
        && r.GotChunk? && r.rest == w[4 + n..] && (r.packet.IsReady() <==> |m.body| <= size)
        && (r.packet.IsReady() ==> r.packet.Message() == Misread(m, s.value.drift, w, n))
  {
    hide ReadOnChannel;
    LeftOut(s, headerType, m);
    FirstOfShrunk(s, headerType, m, size);
    var n := Min(|m.body|, size);
    var w := m.body[..n] + rest;
    assert ChunksOf(s, headerType, m, size)[0] + rest == BasicHeader(MINIMUM, m.channel) + w;
    BasicRoundTrip(MINIMUM, m.channel, w);
    BorrowedTime(t.At(m.channel), size, ZERO.(headerType := MINIMUM, channel := m.channel), s.value, m, n, w);
  }

  lemma BorrowedTime(c: Channel, size: i32, p: Packet, s: Sender, m: Message, n: nat, w: seq<byte>)
    requires Sync(m.channel, Some(s), c) && size > 0 && p.headerType == MINIMUM && n == Min(|m.body|, size)
    requires s.field == EXTENDED && s.last == Remember(m) && |w| >= n
    ensures var r := ReadOnChannel(c, size, p, w);
      if |w| < n + 4 then r.Fail?
      else
        && r.Done? && r.rest == w[4 + n..] && (r.packet.IsReady() <==> |m.body| <= size)
        && (r.packet.IsReady() ==> r.packet.Message() == Misread(m, s.drift, w, n))
  {
    assert w[..0] == [] && w[0..] == w;
    assert ApplyHeader(Base(c, p), []) == c.stored.value;
    WrapAdd(m.timeStamp + s.drift, if |w| < 4 then 0 else FromBe32(w));
    if |w| >= n + 4 {
      assert w[4..][..n] == w[4..4 + n] && w[4..][n..] == w[4 + n..];
    }
  }

  // One message, read by a reader whose clock is right and who is told where its chunks end, arrives exactly as sent if
  // and only if it is not shrunk behind an explicit field other than 0.
  lemma FramedExactIff(s: Option<Sender>, c: Channel, headerType: byte, m: Message, size: i32)
    requires Sync(m.channel, s, c) && Sendable(s, headerType, m) && size > 0
    requires s.Some? ==> s.value.drift == 0
    ensures FormatOf(s, headerType, m) <= MINIMUM
    ensures var r := RunOn(m.channel, c, size, ChunksOf(s, headerType, m, size));
      r.Step? && r.got == [m] <==> (Shrunk(s, headerType, m) ==> s.Some? && s.value.field == 0)
  {
    hide RunOn, ChunksOf;
    LeftOut(s, headerType, m);
    if Parsable(s, headerType, m) {
      MessageOn(s, c, headerType, m, size);
      FirstIsExact(s, headerType, m);
    } else {
      FramedShrunkBehindExtended(s, c, headerType, m, size);
    }
  }

  // The same for a whole session on any channels, if the reader is told where the chunks end.
  lemma {:induction false} FramedSessionExactIff(ss: Senders, t: Table, sends: seq<Send>, size: i32)
    requires size > 0 && InStep(ss, t) && NoDrift(ss) && SessionSendable(ss, sends)
    ensures var r := RunItems(t, size, SessionItems(ss, sends, size));
      r.Run? && r.got == Messages(sends) <==> SessionClean(ss, sends)
    decreases |sends|
  {
    hide Sync, Advance, Expected, ChunksOf, StepOn, RunOn;
    if sends != [] {
      var Send(headerType, m) := sends[0];
      var s := SenderAt(ss, m.channel);
      assert Sync(m.channel, s, t.At(m.channel));
      FramedExactIff(s, t.At(m.channel), headerType, m, size);
      var chunks := ChunksOf(s, headerType, m, size);
      var ss' := ss[m.channel := Advance(s, headerType, m)];
      ChunksNotEmpty(s, headerType, m, size);
      var rest := SessionItems(ss', sends[1..], size);
      RunTagged(t, size, m.channel, chunks, rest);
      var r := RunOn(m.channel, t.At(m.channel), size, chunks);
      FirstIsExact(s, headerType, m);
      assert [m] + Messages(sends[1..]) == Messages(sends);
      if Parsable(s, headerType, m) {
        MessageOn(s, t.At(m.channel), headerType, m, size);
        var t' := t.With(m.channel, r.after);
        var r' := RunItems(t', size, rest);
        if r'.Run? {
          assert (r.got + r'.got)[0] == Expected(s, headerType, m);
          assert (r.got + r'.got)[1..] == r'.got;
          assert Messages(sends)[1..] == Messages(sends[1..]);
        }
        if Advance(s, headerType, m).drift == 0 {
          InStepAfter(ss, t, m.channel, Advance(s, headerType, m), r.after);
          FramedSessionExactIff(ss', t', sends[1..], size);
        }
      } else {
        FramedShrunkBehindExtended(s, t.At(m.channel), headerType, m, size);
      }
    }
  }

  // The one way in which four bytes behind a message's header can pass for a time of 0: the next message starts with
  // them.
  predicate StartsWithZeros(x: Send) {
    x.headerType == LARGE && x.m.channel == 64 && x.m.timeStamp < 0x100
  }

  // No message shrunk behind an extended timestamp is longer than a chunk or followed by one that starts with zeros.
  predicate NoFalseTime(ss: Senders, sends: seq<Send>, size: nat)
    decreases |sends|
  {
    sends == [] ||
    (var Send(headerType, m) := sends[0];
     var s := SenderAt(ss, m.channel);
     && (Parsable(s, headerType, m) || (|m.body| <= size && (|sends| > 1 ==> !StartsWithZeros(sends[1]))))
     && NoFalseTime(ss[m.channel := Advance(s, headerType, m)], sends[1..], size))
  }

  lemma {:induction false} OkIsNoFalseTime(ss: Senders, sends: seq<Send>, size: nat)
    requires SessionOk(ss, sends)
    ensures SessionSendable(ss, sends) && NoFalseTime(ss, sends, size)
    decreases |sends|
  {
    hide Advance, Sendable, Parsable, StartsWithZeros;
    if sends != [] {
      var Send(headerType, m) := sends[0];
      OkIsNoFalseTime(ss[m.channel := Advance(SenderAt(ss, m.channel), headerType, m)], sends[1..], size);
    }
  }

  lemma {:induction false} WireConcat(a: seq<Tagged>, b: seq<Tagged>)
    ensures Wire(a + b) == Wire(a) + Wire(b)
    decreases |a|
  {
    if a == [] {
      assert a + b == b;
    } else {
      assert (a + b)[1..] == a[1..] + b;
      WireConcat(a[1..], b);
    }
  }

  lemma WireStarts(ch: nat, chunks: seq<seq<byte>>, rest: seq<Tagged>)
    requires chunks != []
    ensures Wire(Tag(ch, chunks) + rest) == chunks[0] + (Wire(Tag(ch, chunks[1..])) + Wire(rest))
  {
    WireConcat(Tag(ch, chunks), rest);
  }

  // A message that can be read, in front of any other bytes.
  lemma MessageRead(ss: Senders, t: Table, x: Send, size: i32, rest: seq<byte>) returns (t': Table)
    requires size > 0 && InStep(ss, t)
    requires Sendable(SenderAt(ss, x.m.channel), x.headerType, x.m) && Parsable(SenderAt(ss, x.m.channel), x.headerType, x.m)
    ensures FormatOf(SenderAt(ss, x.m.channel), x.headerType, x.m) <= MINIMUM
    ensures InStep(ss[x.m.channel := Advance(SenderAt(ss, x.m.channel), x.headerType, x.m)], t')
    ensures var s := SenderAt(ss, x.m.channel);
      ReadAll(t, size, Wire(Tag(x.m.channel, ChunksOf(s, x.headerType, x.m, size))) + rest)
      == Then([Expected(s, x.headerType, x.m)], ReadAll(t', size, rest))
  {
    hide Sync, Advance, Expected, ChunksOf, StepOn, RunOn, RunItems, ReadAll;
    var ch := x.m.channel;
    var s := SenderAt(ss, ch);
    assert Sync(ch, s, t.At(ch));
    MessageOn(s, t.At(ch), x.headerType, x.m, size);
    var chunks := ChunksOf(s, x.headerType, x.m, size);
    var r := RunOn(ch, t.At(ch), size, chunks);
    ChunksNotEmpty(s, x.headerType, x.m, size);
    RunTagged(t, size, ch, chunks, []);
    t' := t.With(ch, r.after);
    NoItems(t', size, rest);
    assert Tag(ch, chunks) + [] == Tag(ch, chunks) && r.got + [] == r.got;
    InStepAfter(ss, t, ch, Advance(s, x.headerType, x.m), r.after);
    ReadsThrough(t, size, Tag(ch, chunks), rest);
  }

  const ZEROS: seq<byte> := [0, 0, 0, 0]

  lemma {:induction false} ZerosRepeat(w: seq<byte>, n: nat)
    requires |w| >= n + 4 && forall k | 0 <= k < 4 :: w[k] == 0
    requires forall k | 4 <= k < n + 4 :: w[k] == w[k - 4]
    ensures forall k | 0 <= k < n + 4 :: w[k] == 0
  {
    if n > 0 {
      ZerosRepeat(w, n - 1);
      assert w[n + 3] == w[n + 3 - 4];
    }
  }

  lemma MisreadIsOther(m: Message, w: seq<byte>, n: nat)
    requires n + 4 <= |w| && n == |m.body| && m.body == w[..n] && w[n..n + 4] != ZEROS
    ensures Misread(m, 0, w, n) != m
  {
    if w[4..4 + n] == w[..n] {
      if FromBe32(w) == 0 {
        forall k | 4 <= k < n + 4
          ensures w[k] == w[k - 4]
        {
          assert w[4..4 + n][k - 4] == w[..n][k - 4];
        }
        ZerosRepeat(w, n);
      } else {
        SmallShift(m.timeStamp, FromBe32(w));
      }
    }
  }

  // Without four zero bytes behind it, a one-chunk message shrunk behind an extended timestamp is not what is delivered
  // next.
  lemma ShrunkIsLost(s: Option<Sender>, t: Table, x: Send, size: i32, rest: seq<byte>)
    requires Sync(x.m.channel, s, t.At(x.m.channel)) && Sendable(s, x.headerType, x.m) && size > 0
    requires !Parsable(s, x.headerType, x.m) && (s.Some? ==> s.value.drift == 0) && |x.m.body| <= size
    requires |rest| >= 4 ==> rest[..4] != ZEROS
    ensures FormatOf(s, x.headerType, x.m) <= MINIMUM
    ensures var r := ReadAll(t, size, Wire(Tag(x.m.channel, ChunksOf(s, x.headerType, x.m, size))) + rest);
      r.Run? ==> r.got != [] && r.got[0] != x.m
  {
    hide Sync, ReadAll, ReadChunk, Sendable;
    LeftOut(s, x.headerType, x.m);
    ShrunkBehindExtended(s, t, x.headerType, x.m, size, rest);
    OneChunk(s, x, size);
    var chunk, n := ChunksOf(s, x.headerType, x.m, size)[0], |x.m.body|;
    ReadAllFirst(t, size, chunk + rest);
    var w := x.m.body[..n] + rest;
    if |rest| >= 4 {
      assert w[..n] == x.m.body && w[n..n + 4] == rest[..4];
      MisreadIsOther(x.m, w, n);
    }
  }

  lemma OneChunk(s: Option<Sender>, x: Send, size: i32)
    requires FormatOf(s, x.headerType, x.m) <= MINIMUM && |x.m.body| <= size && size > 0
    ensures var chunks := ChunksOf(s, x.headerType, x.m, size);
      |chunks| == 1 && chunks[0] != [] && Wire(Tag(x.m.channel, chunks)) == chunks[0]
  {
    var chunks := ChunksOf(s, x.headerType, x.m, size);
    assert chunks[1..] == [];
    assert Wire(Tag(x.m.channel, chunks)) == chunks[0] + Wire(Tag(x.m.channel, chunks[1..]));
    assert chunks[0] + [] == chunks[0];
  }

  // A wire that starts with four zero bytes starts with a LARGE message on channel 64 whose time is small.
  lemma ZerosStart(ss: Senders, sends: seq<Send>, size: i32)
    requires size > 0 && SessionSendable(ss, sends)
    ensures var w := Wire(SessionItems(ss, sends, size));
      |w| >= 4 && w[..4] == ZEROS ==> sends != [] && StartsWithZeros(sends[0])
  {
    if sends != [] {
      var Send(headerType, m) := sends[0];
      var s := SenderAt(ss, m.channel);
      LeftOut(s, headerType, m);
      var fmt, t := FormatOf(s, headerType, m), WireTime(LastOf(s), headerType, m);
      var chunks := ChunksOf(s, headerType, m, size);
      WireStarts(m.channel, chunks, SessionItems(ss[m.channel := Advance(s, headerType, m)], sends[1..], size));
      var w := Wire(SessionItems(ss, sends, size));
      if |w| >= 4 && w[..4] == ZEROS {
        FirstBytes(fmt, t, m, chunks[0], w);
      }
    }
  }

  lemma FirstBytes(fmt: byte, t: u32, m: Message, chunk: seq<byte>, w: seq<byte>)
    requires fmt <= MINIMUM && 2 <= m.channel <= 65599 && FirstHeader(fmt, t, m) <= chunk <= w
    requires |w| >= 4 && w[..4] == ZEROS
    ensures fmt == LARGE && m.channel == 64 && t < 0x100
  {
    var h := FirstHeader(fmt, t, m);
    assert h[0] == w[..4][0] == 0;
    assert fmt == LARGE && 64 <= m.channel <= 319;
    assert h[1] == w[..4][1] == 0;
    assert h[2] == w[..4][2] == 0 && h[3] == w[..4][3] == 0;
    assert h[2] == Be24(TimeField(t))[0] && h[3] == Be24(TimeField(t))[1];
  }

  lemma SessionItemsFirst(ss: Senders, sends: seq<Send>, size: i32)
    requires size > 0 && SessionSendable(ss, sends) && sends != []
    ensures var Send(headerType, m) := sends[0];
      var s := SenderAt(ss, m.channel);
      && FormatOf(s, headerType, m) <= MINIMUM
      && Wire(SessionItems(ss, sends, size)) ==
         Wire(Tag(m.channel, ChunksOf(s, headerType, m, size)))
         + Wire(SessionItems(ss[m.channel := Advance(s, headerType, m)], sends[1..], size))
  {
    hide Advance, ChunksOf;
    var Send(headerType, m) := sends[0];
    var s := SenderAt(ss, m.channel);
    LeftOut(s, headerType, m);
    WireConcat(Tag(m.channel, ChunksOf(s, headerType, m, size)),
               SessionItems(ss[m.channel := Advance(s, headerType, m)], sends[1..], size));
  }

  // The session theorem, on the wire: whatever is sent on whatever channels, the reader gets through all of it and
  // delivers exactly what was sent if and only if every shrunk message follows an explicit field of 0 on its channel.
  // Messages shrunk behind an extended timestamp are lost; only a false time of 0 is excluded.
  lemma {:induction false} SessionExactIff(ss: Senders, t: Table, sends: seq<Send>, size: i32)
    requires size > 0 && InStep(ss, t) && NoDrift(ss)
    requires SessionSendable(ss, sends) && NoFalseTime(ss, sends, size)
    ensures var r := ReadAll(t, size, Wire(SessionItems(ss, sends, size)));
      r.Run? && r.got == Messages(sends) <==> SessionClean(ss, sends)
    decreases |sends|
  {
    if sends != [] {
      hide Sync, Advance, Expected, ChunksOf, ReadAll, Sendable, StartsWithZeros, SessionItems, Shrunk;
      var x := sends[0];
      var s := SenderAt(ss, x.m.channel);
      var ss' := ss[x.m.channel := Advance(s, x.headerType, x.m)];
      SessionItemsFirst(ss, sends, size);
      var rest := Wire(SessionItems(ss', sends[1..], size));
      assert Messages(sends) == [x.m] + Messages(sends[1..]);
      assert Sync(x.m.channel, s, t.At(x.m.channel));
      ClearIs(s, x);
      if Parsable(s, x.headerType, x.m) {
        var t' := MessageRead(ss, t, x, size, rest);
        OneMessage(Expected(s, x.headerType, x.m), ReadAll(t', size, rest), x.m, Messages(sends[1..]));
        if Advance(s, x.headerType, x.m).drift == 0 {
          SessionExactIff(ss', t', sends[1..], size);
        }
      } else {
        ZerosStart(ss', sends[1..], size);
        ShrunkIsLost(s, t, x, size, rest);
      }
    }
  }

  lemma ClearIs(s: Option<Sender>, x: Send)
    requires (s.Some? ==> s.value.drift == 0) && Sendable(s, x.headerType, x.m)
    ensures Advance(s, x.headerType, x.m).drift == 0 <==> (Shrunk(s, x.headerType, x.m) ==> s.Some? && s.value.field == 0)
    ensures Expected(s, x.headerType, x.m) == x.m <==> Advance(s, x.headerType, x.m).drift == 0
    ensures !Parsable(s, x.headerType, x.m) ==> Shrunk(s, x.headerType, x.m) && s.Some? && s.value.field == EXTENDED
  {
    FirstIsExact(s, x.headerType, x.m);
  }

  lemma OneMessage(d: Message, r: Run, m: Message, ms: seq<Message>)
    ensures var all := Then([d], r);
      all.Run? && all.got == [m] + ms <==> d == m && r.Run? && r.got == ms
  {
    if r.Run? {
      assert ([d] + r.got)[1..] == r.got && ([m] + ms)[1..] == ms;
      assert ([d] + r.got)[0] == d && ([m] + ms)[0] == m;
    }
  }

  // Why the condition on four zero bytes is there. The third message is shrunk behind an extended timestamp; the reader
  // takes the first four bytes of the fourth for its time, and what is left of the fourth for a MEDIUM header on the
  // same channel: all four arrive as sent.
  function FalseTime(): (sends: seq<Send>)
    ensures |sends| == 4
  {
    [Send(LARGE, Message(8, 64, 56, 0x800_0000, [])), Send(LARGE, Message(8, 4, EXTENDED, 0, [])),
     Send(MEDIUM, Message(8, 4, EXTENDED, 0, [])), Send(LARGE, Message(8, 64, 64, 0x800_0000, []))]
  }

  // The senders after the first two messages.
  function FalseTimeSenders(): (ss: Senders)
    ensures 4 in ss && 64 in ss
  {
    map[64 := Sender(Remember(FalseTime()[0].m), 56, 0), 4 := Sender(Remember(FalseTime()[1].m), EXTENDED, 0)]
  }

  const FALSE_LAST: seq<byte> := [0, 0, 0, 0, 64, 0, 0, 0, 8, 0, 0, 0, 8]

  lemma FalseTimeStarts()
    ensures var x := FalseTime();
      && SessionSendable(map[], x) && !SessionClean(map[], x)
      && map[][64 := Advance(None, LARGE, x[0].m)][4 := Advance(None, LARGE, x[1].m)] == FalseTimeSenders()
      && Expected(None, LARGE, x[0].m) == x[0].m && Expected(None, LARGE, x[1].m) == x[1].m
  {
    var x := FalseTime();
    var ss1 := map[64 := Sender(Remember(x[0].m), 56, 0)];
    assert Advance(None, LARGE, x[0].m) == ss1[64] && map[][64 := ss1[64]] == ss1;
    assert Advance(None, LARGE, x[1].m) == FalseTimeSenders()[4] && ss1[4 := FalseTimeSenders()[4]] == FalseTimeSenders();
  }

  lemma WithoutBody(fmt: byte, t: u32, m: Message, size: nat)
    requires fmt <= MINIMUM && size > 0 && m.body == []
    ensures MessageChunks(fmt, t, m, size) == [FirstHeader(fmt, t, m)]
  {
    hide FirstHeader;
    assert m.body[..0] == m.body[0..] == [];
    assert FirstHeader(fmt, t, m) + [] == FirstHeader(fmt, t, m);
  }

  lemma TagOne(ch: nat, chunk: seq<byte>)
    ensures Tag(ch, [chunk]) == [Tagged(ch, chunk)]
  {
    assert [chunk][1..] == [];
  }

  // The last two messages, each in one chunk.
  lemma FalseTimeChunks()
    ensures var x, ss := FalseTime(), FalseTimeSenders();
      && FormatOf(Some(ss[4]), MEDIUM, x[2].m) <= MINIMUM && ChunksOf(Some(ss[4]), MEDIUM, x[2].m, 128) == [[0xc4]]
      && FormatOf(Some(ss[64]), LARGE, x[3].m) <= MINIMUM && ChunksOf(Some(ss[64]), LARGE, x[3].m, 128) == [FALSE_LAST]
  {
    hide MessageChunks;
    var x, ss := FalseTime(), FalseTimeSenders();
    WithoutBody(MINIMUM, 0, x[2].m, 128);
    WithoutBody(LARGE, 64, x[3].m, 128);
    assert FirstHeader(MINIMUM, 0, x[2].m) == [0xc4];
    FalseTimeHeader(x[3].m);
  }

  lemma FalseTimeHeader(m: Message)
    requires m == FalseTime()[3].m
    ensures FirstHeader(LARGE, 64, m) == FALSE_LAST
  {
    assert Le32(0x800_0000) == [0, 0, 0, 8];
  }

  lemma FalseTimeItems()
    ensures SessionItems(FalseTimeSenders(), FalseTime()[2..], 128) == [Tagged(4, [0xc4]), Tagged(64, FALSE_LAST)]
  {
    hide ChunksOf, Advance, Tag;
    var x, ss := FalseTime(), FalseTimeSenders();
    FalseTimeChunks();
    TagOne(4, [0xc4]);
    TagOne(64, FALSE_LAST);
    var ss' := ss[4 := Advance(Some(ss[4]), MEDIUM, x[2].m)];
    assert x[2..][1..] == [x[3]] && [x[3]][1..] == [];
    assert SessionItems(ss', [x[3]], 128) == [Tagged(64, FALSE_LAST)];
  }

  lemma FalseTimeWire()
    ensures Wire(SessionItems(FalseTimeSenders(), FalseTime()[2..], 128)) == [0xc4] + FALSE_LAST
  {
    hide SessionItems;
    FalseTimeItems();
    var items := [Tagged(4, [0xc4]), Tagged(64, FALSE_LAST)];
    assert items[1..] == [items[1]] && items[1..][1..] == [];
    assert FALSE_LAST + [] == FALSE_LAST;
  }

  lemma InStepAt(ss: Senders, t: Table, ch: nat)
    requires InStep(ss, t)
    ensures Sync(ch, SenderAt(ss, ch), t.At(ch))
  {
  }

  lemma FalseTimeShrunk()
    ensures var s, m := Some(FalseTimeSenders()[4]), FalseTime()[2].m;
      && Sendable(s, MEDIUM, m) && Shrunk(s, MEDIUM, m) && s.value.field == EXTENDED && s.value.drift == 0
      && m.channel == 4 && m.body == [] && Min(|m.body|, 128) == 0 && |FALSE_LAST| == 13
      && m.body[..0] + FALSE_LAST == FALSE_LAST && Misread(m, 0, FALSE_LAST, 0) == m
    ensures ParseBasic([0xc4] + FALSE_LAST) == Some(Basic(MINIMUM, 4, 1))
    ensures SenderAt(FalseTimeSenders(), 64) == Some(FalseTimeSenders()[64])
    ensures SenderAt(FalseTimeSenders(), 4) == Some(FalseTimeSenders()[4])
  {
  }

  lemma FalseTimeMiddle(t: Table)
    requires InStep(FalseTimeSenders(), t)
    ensures var r := ReadChunk(t, 128, ZERO, [0xc4] + FALSE_LAST);
      && r.GotChunk? && r.rest == FALSE_LAST[4..] && r.packet.IsReady() && r.packet.Message() == FalseTime()[2].m
      && Sync(64, Some(FalseTimeSenders()[64]), r.after.At(64))
  {
    hide *;
    var ss := FalseTimeSenders();
    InStepAt(ss, t, 4);
    InStepAt(ss, t, 64);
    FalseTimeShrunk();
    FalseTimeChunks();
    ShrunkBehindExtended(Some(ss[4]), t, MEDIUM, FalseTime()[2].m, 128, FALSE_LAST);
  }

  lemma FalseTimeLast(c: Channel, p: Packet)
    requires Sync(64, Some(FalseTimeSenders()[64]), c) && p.headerType == MEDIUM
    ensures var r := ReadOnChannel(c, 128, p, [0, 0, 8, 0, 0, 0, 8]);
      r.Done? && r.rest == [] && r.packet.IsReady() && r.packet.Message() == FalseTime()[3].m
  {
    var w := [0, 0, 8, 0, 0, 0, 8];
    assert w[..7] == w && w[7..] == [] && w[3..] == [0, 0, 0, 8];
  }

  lemma FalseTimeEnds(t: Table)
    requires Sync(64, Some(FalseTimeSenders()[64]), t.At(64))
    ensures var r := ReadChunk(t, 128, ZERO, FALSE_LAST[4..]);
      r.GotChunk? && r.rest == [] && r.packet.IsReady() && r.packet.Message() == FalseTime()[3].m
  {
    hide ReadOnChannel, Sync, FalseTime;
    FalseTimeLast(t.At(64), ZERO.(headerType := MEDIUM, channel := 64));
    var w := FALSE_LAST[4..];
    assert w == [64, 0, 0, 0, 8, 0, 0, 0, 8];
    assert w[2..] == [0, 0, 8, 0, 0, 0, 8];
  }

  // Reading them.
  lemma FalseTimeRead(t: Table)
    requires InStep(FalseTimeSenders(), t)
    ensures var r := ReadAll(t, 128, [0xc4] + FALSE_LAST);
      r.Run? && r.got == [FalseTime()[2].m, FalseTime()[3].m]
  {
    hide Sync, InStep, ReadAll, ReadChunk;
    FalseTimeMiddle(t);
    ReadAllFirst(t, 128, [0xc4] + FALSE_LAST);
    var r := ReadChunk(t, 128, ZERO, [0xc4] + FALSE_LAST);
    FalseTimeEnds(r.after);
    ReadAllFirst(r.after, 128, FALSE_LAST[4..]);
    ReadAllEmpty(ReadChunk(r.after, 128, ZERO, FALSE_LAST[4..]).after, 128);
  }

  lemma FalseTimeArrives()
    ensures SessionSendable(map[], FalseTime()) && !SessionClean(map[], FalseTime())
    ensures var r := ReadAll(Table(map[], map[]), 128, Wire(SessionItems(map[], FalseTime(), 128)));
      r.Run? && r.got == Messages(FalseTime())
  {
    hide ReadAll, SessionItems, ChunksOf, Advance, Expected;
    var x, t := FalseTime(), Table(map[], map[]);
    var ss1 := map[][64 := Advance(None, LARGE, x[0].m)];
    FalseTimeStarts();
    SessionItemsFirst(map[], x, 128);
    SessionItemsFirst(ss1, x[1..], 128);
    assert x[1..][1..] == x[2..];
    var t1 := MessageRead(map[], t, x[0], 128, Wire(SessionItems(ss1, x[1..], 128)));
    var t2 := MessageRead(ss1, t1, x[1], 128, Wire(SessionItems(FalseTimeSenders(), x[2..], 128)));
    FalseTimeWire();
    FalseTimeRead(t2);
    assert Messages(x) == [x[0].m, x[1].m, x[2].m, x[3].m];
  }

  lemma {:induction false} CleanIsOk(ss: Senders, sends: seq<Send>)
    requires SessionSendable(ss, sends) && SessionClean(ss, sends)
    ensures SessionOk(ss, sends)
    decreases |sends|
  {
    hide Advance, Sendable, Shrunk;
    if sends != [] {
      var Send(headerType, m) := sends[0];
      CleanIsOk(ss[m.channel := Advance(SenderAt(ss, m.channel), headerType, m)], sends[1..]);
    }
  }

  // The session round trip: clean sessions of well-formed messages come back message for message, with no byte of
  // the wire left over.
  lemma SessionRoundTrip(ss: Senders, t: Table, sends: seq<Send>, size: i32)
    requires size > 0 && InStep(ss, t) && NoDrift(ss) && SessionSendable(ss, sends) && SessionClean(ss, sends)
    ensures var r := ReadAll(t, size, Wire(SessionItems(ss, sends, size)));
      r.Run? && r.got == Messages(sends)
  {
    CleanIsOk(ss, sends);
    OkIsNoFalseTime(ss, sends, size);
    SessionExactIff(ss, t, sends, size);
  }
}
