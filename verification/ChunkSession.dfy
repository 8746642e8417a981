// RTMP_SendPacket against RTMP_ReadPacket over whole sessions (librtmp/rtmp.c; section 5.3.1 of
// Adobe's RTMP 1.0 specification).
module ChunkSession {
  import opened Bytes
  import opened Chunk
  import opened ChunkReader

  // ---------- One channel ----------

  datatype Step = Stuck | Step(after: Channel, got: seq<Message>)

  // Reading one chunk of channel ch to its last byte with a zeroed packet.
  function StepOn(ch: nat, c: Channel, size: i32, chunk: seq<byte>): (s: Step)
    ensures s.Step? ==> s.after.stored.Some?
  {
    var b := ParseBasic(chunk);
    if b.None? || b.value.channel != ch then Stuck
    else
      StepOf(ReadOnChannel(c, size, ZERO.(headerType := b.value.fmt, channel := ch), chunk[b.value.size..]))
  }

  function RunOn(ch: nat, c: Channel, size: i32, chunks: seq<seq<byte>>): Step
    decreases |chunks|
  {
    if chunks == [] then Step(c, [])
    else
      var s := StepOn(ch, c, size, chunks[0]);
      if s.Stuck? then Stuck
      else
        var r := RunOn(ch, s.after, size, chunks[1..]);
        if r.Stuck? then Stuck else Step(r.after, s.got + r.got)
  }

  lemma {:induction false} RunOnConcat(ch: nat, c: Channel, size: i32, a: seq<seq<byte>>, b: seq<seq<byte>>)
    ensures RunOn(ch, c, size, a + b) ==
            var r := RunOn(ch, c, size, a);
            if r.Stuck? then Stuck
            else
              var r' := RunOn(ch, r.after, size, b);
              if r'.Stuck? then Stuck else Step(r'.after, r.got + r'.got)
    decreases |a|
  {
    if a == [] {
      assert a + b == b;
      var r := RunOn(ch, c, size, b);
      assert r.Step? ==> [] + r.got == r.got;
    } else {
      assert (a + b)[0] == a[0] && (a + b)[1..] == a[1..] + b;
      var s := StepOn(ch, c, size, a[0]);
      if s.Step? {
        RunOnConcat(ch, s.after, size, a[1..], b);
        var r := RunOn(ch, s.after, size, a[1..]);
        if r.Step? {
          var r' := RunOn(ch, r.after, size, b);
          assert r'.Step? ==> s.got + (r.got + r'.got) == s.got + r.got + r'.got;
        }
      }
    }
  }

  lemma BasicRoundTrip(fmt: byte, channel: nat, rest: seq<byte>)
    requires fmt <= MINIMUM && 2 <= channel <= 65599
    ensures ParseBasic(BasicHeader(fmt, channel) + rest) == Some(Basic(fmt, channel, 1 + ChannelSize(channel)))
    ensures (BasicHeader(fmt, channel) + rest)[1 + ChannelSize(channel)..] == rest
  {
    var w := BasicHeader(fmt, channel) + rest;
    if channel > 319 {
      assert w[0] == fmt * 0x40 + 1 && w[1] == (channel - 64) % 0x100 && w[2] == (channel - 64) / 0x100;
    } else if channel > 63 {
      assert w[0] == fmt * 0x40 && w[1] == channel - 64;
    } else {
      assert w[0] == fmt * 0x40 + channel;
    }
  }

  // ---------- The sender's side of a channel ----------

  // After at least one message: what the sender remembers, the explicit timestamp field last put on the
  // wire, and how far the reader's clock is ahead of the sender's, modulo 2^32.
  datatype Sender = Sender(last: Last, field: u32, drift: u32)

  function LastOf(s: Option<Sender>): Option<Last> {
    if s.Some? then Some(s.value.last) else None
  }

  function FormatOf(s: Option<Sender>, headerType: byte, m: Message): byte {
    ShrinkFormat(LastOf(s), headerType, m)
  }

  function Advance(s: Option<Sender>, headerType: byte, m: Message): Sender {
    var fmt := FormatOf(s, headerType, m);
    var drift := if s.Some? then s.value.drift else 0;
    if fmt == LARGE then Sender(Remember(m), TimeField(m.timeStamp), 0)
    else if fmt == MINIMUM && s.Some? then Sender(Remember(m), s.value.field, Wrap(drift + s.value.field))
    else Sender(Remember(m), TimeField(WireTime(LastOf(s), headerType, m)), drift)
  }

  // What a caller of RTMP_SendPacket may hand over. The info field travels in LARGE headers only.
  predicate Sendable(s: Option<Sender>, headerType: byte, m: Message) {
    && (headerType == LARGE || headerType == MEDIUM)
    && 2 <= m.channel <= 65599
    && |m.body| < B24
    && (headerType == MEDIUM ==> m.infoField2 == if s.Some? then s.value.last.infoField2 else 0)
  }

  // The sender's "same time as before" meets a reader that reuses the last field as a delta.
  predicate Shrunk(s: Option<Sender>, headerType: byte, m: Message) {
    FormatOf(s, headerType, m) == MINIMUM
  }

  // The reader is not misled into looking for an extended timestamp that is not there.
  predicate Parsable(s: Option<Sender>, headerType: byte, m: Message) {
    Shrunk(s, headerType, m) ==> s.Some? && s.value.field != EXTENDED
  }

  function ChunksOf(s: Option<Sender>, headerType: byte, m: Message, size: nat): seq<seq<byte>>
    requires FormatOf(s, headerType, m) <= MINIMUM && size > 0
  {
    MessageChunks(FormatOf(s, headerType, m), WireTime(LastOf(s), headerType, m), m, size)
  }

  // The message as the reader's clock dates it.
  function Expected(s: Option<Sender>, headerType: byte, m: Message): Message {
    m.(timeStamp := Wrap(m.timeStamp + Advance(s, headerType, m).drift))
  }

  // Between messages the two ends agree on a channel up to the drift of the reader's clock.
  predicate Sync(ch: nat, s: Option<Sender>, c: Channel) {
    if s.None? then c == Channel(None, 0)
    else
      && c.stored.Some?
      && var last := s.value.last;
      && Settled(c.stored.value, last.packetType, last.bodySize, last.infoField2, ch, s.value.field)
      && c.clock == Wrap(s.value.last.timeStamp + s.value.drift)
  }

  // ---------- One message on the wire ----------

  // A message as its chunks carry it: whether its time is absolute, the explicit or reused 24-bit field, the
  // 32-bit time, and the reader's clock when it starts.
  datatype Flight = Flight(m: Message, large: bool, field: u32, t: u32, clock: u32) {
    predicate Valid() {
      (t >= EXTENDED) == (field == EXTENDED) && 2 <= m.channel <= 65599
    }

    // The time the packet shows while it is being read.
    function Time(): u32 {
      if t >= EXTENDED then t else field
    }

    // The time it is delivered with.
    function Due(): u32 {
      if large then Time() else Wrap(Time() + clock)
    }

    // A packet of this message with k body bytes read.
    predicate Reading(p: Packet, time: u32, k: nat)
      requires k <= |m.body|
    {
      && p.packetType == m.packetType && p.bodySize == |m.body| && p.infoField2 == m.infoField2
      && p.channel == m.channel && p.hasAbsTimestamp == large && p.timeStamp == time
      && p.bytesRead == k && p.body == if m.body == [] then None else Some(m.body[..k])
    }

    predicate Halfway(k: nat, c: Channel)
      requires k <= |m.body|
    {
      c.stored.Some? && c.clock == clock && Reading(c.stored.value, field, k)
    }

    predicate Landed(c: Channel) {
      && c.stored.Some? && c.clock == Due()
      && Settled(c.stored.value, m.packetType, |m.body|, m.infoField2, m.channel, field)
    }

    // What reading the chunk that brings the body to k bytes amounts to.
    predicate Partly(k: nat, r: Step)
      requires k <= |m.body|
    {
      && r.Step?
      && if k == |m.body| then r.got == [m.(timeStamp := Due())] && Landed(r.after)
         else r.got == [] && Halfway(k, r.after)
    }
  }

  // A stored packet between two messages.
  predicate Settled(p: Packet, packetType: byte, bodySize: nat, infoField2: i32, channel: nat, field: u32) {
    && p.packetType == packetType && p.bodySize == bodySize && p.infoField2 == infoField2
    && p.channel == channel && p.timeStamp == field
    && !p.hasAbsTimestamp && p.bytesRead == 0 && p.body == None
  }

  function StepOf(r: ReadResult): Step {
    if r.Fail? || r.rest != [] then Stuck
    else Step(r.after, if r.packet.IsReady() then [r.packet.Message()] else [])
  }

  lemma HeaderFields(fmt: byte, t: u32, m: Message)
    requires fmt <= MINIMUM && |m.body| < B24
    ensures var h := MessageHeader(fmt, t, m);
      && |h| == HeaderSize(fmt) - 1
      && (fmt <= SMALL ==> FromBe24(h) == TimeField(t))
      && (fmt <= MEDIUM ==> FromBe24(h[3..]) == |m.body| && h[6] == m.packetType)
      && (fmt == LARGE ==> FromLe32(h[7..]) == m.infoField2)
  {
    var h := MessageHeader(fmt, t, m);
    Be24RoundTrip(TimeField(t));
    Be24RoundTrip(|m.body|);
    if fmt <= SMALL {
      assert h[..3] == Be24(TimeField(t));
    }
    if fmt <= MEDIUM {
      assert h[3..6] == Be24(|m.body|);
    }
    if fmt == LARGE {
      assert h[7..] == Le32(m.infoField2);
      Le32RoundTrip(m.infoField2);
    }
  }

  lemma HeaderOn(base: Packet, fmt: byte, h: seq<byte>)
    requires fmt <= MINIMUM && |h| == HeaderSize(fmt) - 1 && base.body == None && base.bytesRead == 0
    ensures ApplyHeader(base, h) ==
            base.(timeStamp := if fmt <= SMALL then FromBe24(h) else base.timeStamp,
                  bodySize := if fmt <= MEDIUM then FromBe24(h[3..]) else base.bodySize,
                  packetType := if fmt <= MEDIUM then h[6] else base.packetType,
                  infoField2 := if fmt == LARGE then FromLe32(h[7..]) else base.infoField2)
  {
  }

  // Reading a chunk laid out as message header, extended timestamp, body bytes.
  lemma ChunkTaken(c: Channel, size: i32, p: Packet, h: seq<byte>, t: u32, piece: seq<byte>, w: seq<byte>)
    requires p.headerType <= MINIMUM && |h| == HeaderSize(p.headerType) - 1
    requires w == h + ExtendedTime(t) + piece
    requires (ApplyHeader(Base(c, p), h).timeStamp == EXTENDED) == (t >= EXTENDED)
    ensures var p1 := ApplyHeader(Base(c, p), h);
      ReadOnChannel(c, size, p, w)
      == TakeBody(c, OpenBody(p1.(timeStamp := if t >= EXTENDED then t else p1.timeStamp), p.headerType),
                  p1.timeStamp == EXTENDED, size, piece)
  {
    hide ApplyHeader, TakeBody, Base, OpenBody;
    var x := ExtendedTime(t);
    SplitAt3(h, x, piece);
    if t >= EXTENDED {
      Be32RoundTrip(t);
      assert (x + piece)[..4] == Be32(t);
    }
  }

  // A chunk's body bytes, appended to a message k bytes of which are there.
  lemma BodyTaken(f: Flight, c: Channel, size: i32, p: Packet, k: nat, piece: seq<byte>)
    requires f.Valid() && c.clock == f.clock && size > 0
    requires k <= |f.m.body| && piece == f.m.body[k..][..Min(|f.m.body| - k, size)]
    requires f.Reading(p, f.Time(), k)
    ensures f.Partly(k + |piece|, StepOf(TakeBody(c, p, f.field == EXTENDED, size, piece)))
  {
    var m, k' := f.m, k + |piece|;
    assert piece[..|piece|] == piece && piece[|piece|..] == [];
    assert m.body[..k] + piece == m.body[..k'];
    if k' == |m.body| {
      assert m.body[..k'] == m.body;
    }
  }

  // A whole chunk on its channel.
  lemma StepIs(ch: nat, c: Channel, size: i32, fmt: byte, w: seq<byte>)
    requires fmt <= MINIMUM && 2 <= ch <= 65599
    ensures StepOn(ch, c, size, BasicHeader(fmt, ch) + w) ==
            StepOf(ReadOnChannel(c, size, ZERO.(headerType := fmt, channel := ch), w))
  {
    BasicRoundTrip(fmt, ch, w);
  }

  // The first chunk, given what its header makes of the channel's packet.
  lemma FirstStep(f: Flight, c: Channel, size: i32, fmt: byte, h: seq<byte>) returns (step: Step)
    requires f.Valid() && c.clock == f.clock && size > 0 && fmt <= MINIMUM && |h| == HeaderSize(fmt) - 1
    requires var p := ApplyHeader(Base(c, ZERO.(headerType := fmt, channel := f.m.channel)), h);
      p.body == None && f.Reading(p.(body := if f.m.body == [] then None else Some([])), f.field, 0)
    ensures step == StepOn(f.m.channel, c, size,
                           BasicHeader(fmt, f.m.channel) + h + ExtendedTime(f.t) + f.m.body[..Min(|f.m.body|, size)])
    ensures f.Partly(Min(|f.m.body|, size), step)
  {
    hide ReadOnChannel, TakeBody, StepOn, ApplyHeader;
    var piece := f.m.body[..Min(|f.m.body|, size)];
    var w := h + ExtendedTime(f.t) + piece;
    var p := ZERO.(headerType := fmt, channel := f.m.channel);
    ChunkTaken(c, size, p, h, f.t, piece, w);
    StepIs(f.m.channel, c, size, fmt, w);
    assert f.m.body[0..] == f.m.body;
    BodyTaken(f, c, size, OpenBody(ApplyHeader(Base(c, p), h).(timeStamp := f.Time()), fmt), 0, piece);
    assert BasicHeader(fmt, f.m.channel) + h + ExtendedTime(f.t) + piece == BasicHeader(fmt, f.m.channel) + w;
    step := StepOn(f.m.channel, c, size, BasicHeader(fmt, f.m.channel) + w);
  }

  // A continuation chunk.
  lemma NextStep(f: Flight, c: Channel, size: i32, k: nat, n: nat) returns (step: Step)
    requires f.Valid() && size > 0 && k < |f.m.body| && n == Min(|f.m.body| - k, size) && f.Halfway(k, c)
    ensures step == StepOn(f.m.channel, c, size, NextHeader(f.m.channel, f.t) + f.m.body[k..][..n])
    ensures f.Partly(k + n, step)
  {
    hide ReadOnChannel, TakeBody, StepOn;
    var piece := f.m.body[k..][..n];
    var w := ExtendedTime(f.t) + piece;
    assert w == [] + ExtendedTime(f.t) + piece;
    ChunkTaken(c, size, ZERO.(headerType := MINIMUM, channel := f.m.channel), [], f.t, piece, w);
    StepIs(f.m.channel, c, size, MINIMUM, w);
    BodyTaken(f, c, size, c.stored.value.(timeStamp := f.Time()), k, piece);
    assert NextHeader(f.m.channel, f.t) + piece == BasicHeader(MINIMUM, f.m.channel) + w;
    step := StepOn(f.m.channel, c, size, BasicHeader(MINIMUM, f.m.channel) + w);
  }

  lemma RunFirst(ch: nat, c: Channel, size: i32, chunks: seq<seq<byte>>, step: Step)
    requires chunks != [] && step == StepOn(ch, c, size, chunks[0]) && step.Step?
    ensures RunOn(ch, c, size, chunks) ==
            var r := RunOn(ch, step.after, size, chunks[1..]);
            if r.Stuck? then Stuck else Step(r.after, step.got + r.got)
  {
  }

  // The rest of a half-read message.
  lemma {:induction false} LaterOn(f: Flight, c: Channel, size: i32, k: nat)
    requires f.Valid() && size > 0 && k < |f.m.body| && f.Halfway(k, c)
    ensures f.Partly(|f.m.body|, RunOn(f.m.channel, c, size, LaterChunks(f.m.channel, f.t, f.m.body[k..], size)))
    decreases |f.m.body| - k
  {
    hide StepOn;
    var n := Min(|f.m.body| - k, size);
    var chunks := LaterChunks(f.m.channel, f.t, f.m.body[k..], size);
    assert f.m.body[k..][n..] == f.m.body[k + n..];
    var step := NextStep(f, c, size, k, n);
    RunFirst(f.m.channel, c, size, chunks, step);
    if k + n < |f.m.body| {
      LaterOn(f, step.after, size, k + n);
    } else {
      assert f.m.body[k + n..] == [];
    }
  }

  // ---------- One message, both ends ----------

  // What a header leaves out is what the channel already has.
  lemma LeftOut(s: Option<Sender>, headerType: byte, m: Message)
    requires Sendable(s, headerType, m)
    ensures var fmt := FormatOf(s, headerType, m);
      && fmt <= MINIMUM
      && (fmt == LARGE <==> headerType == LARGE)
      && (fmt != LARGE ==> m.infoField2 == if s.Some? then s.value.last.infoField2 else 0)
      && (fmt >= SMALL ==> s.Some? && s.value.last.bodySize == |m.body| && s.value.last.packetType == m.packetType)
      && Advance(s, headerType, m).field
         == if fmt == MINIMUM then s.value.field else TimeField(WireTime(LastOf(s), headerType, m))
  {
  }

  function FlightOf(s: Option<Sender>, headerType: byte, m: Message, clock: u32): Flight {
    Flight(m, FormatOf(s, headerType, m) == LARGE, Advance(s, headerType, m).field, WireTime(LastOf(s), headerType, m), clock)
  }

  // Its header restores every field, those it leaves out from the packet stored last.
  lemma HeaderApplied(s: Option<Sender>, c: Channel, headerType: byte, m: Message, fmt: byte, h: seq<byte>)
    requires Sync(m.channel, s, c) && Sendable(s, headerType, m)
    requires fmt == FormatOf(s, headerType, m) && fmt <= MINIMUM
    requires h == MessageHeader(fmt, WireTime(LastOf(s), headerType, m), m)
    ensures |h| == HeaderSize(fmt) - 1
    ensures var p := ApplyHeader(Base(c, ZERO.(headerType := fmt, channel := m.channel)), h);
      var f := FlightOf(s, headerType, m, c.clock);
      p.body == None && f.Reading(p.(body := if m.body == [] then None else Some([])), f.field, 0)
  {
    LeftOut(s, headerType, m);
    HeaderFields(fmt, WireTime(LastOf(s), headerType, m), m);
    var base := Base(c, ZERO.(headerType := fmt, channel := m.channel));
    assert base.body == None && base.bytesRead == 0 && base.channel == m.channel;
    assert base.hasAbsTimestamp == (fmt == LARGE);
    assert m.body[..0] == [];
    HeaderOn(base, fmt, h);
  }

  // A 32-bit time travels exactly when the field says so, and the message is due at the expected time.
  lemma FlightIsDue(s: Option<Sender>, c: Channel, headerType: byte, m: Message)
    requires Sync(m.channel, s, c) && Sendable(s, headerType, m) && Parsable(s, headerType, m)
    ensures var f := FlightOf(s, headerType, m, c.clock);
      f.Valid() && f.Due() == Expected(s, headerType, m).timeStamp
  {
    var f := FlightOf(s, headerType, m, c.clock);
    LeftOut(s, headerType, m);
    if s.Some? && headerType != LARGE {
      var last, drift := s.value.last.timeStamp, s.value.drift;
      if Shrunk(s, headerType, m) {
        assert f.Time() == f.field && last == m.timeStamp;
        WrapAdd(last + drift, f.field);
        WrapAdd(drift + f.field, last);
      } else {
        assert f.Time() == Wrap(m.timeStamp - last);
        WrapBoth(m.timeStamp - last, last + drift);
      }
    }
  }

  // Message m has arrived, dated by the reader's clock, and the two ends of its channel agree again.
  predicate Arrived(s: Option<Sender>, headerType: byte, m: Message, r: Step) {
    r.Step? && r.got == [Expected(s, headerType, m)] && Sync(m.channel, Some(Advance(s, headerType, m)), r.after)
  }

  lemma LandedIsArrived(s: Option<Sender>, c: Channel, headerType: byte, m: Message, r: Step)
    requires Sync(m.channel, s, c) && Sendable(s, headerType, m) && Parsable(s, headerType, m)
    requires FlightOf(s, headerType, m, c.clock).Partly(|m.body|, r)
    ensures Arrived(s, headerType, m, r)
  {
    FlightIsDue(s, c, headerType, m);
  }

  // One message, sent and read chunk by chunk: it arrives, dated by the reader's clock, and the ends stay in step.
  lemma MessageOn(s: Option<Sender>, c: Channel, headerType: byte, m: Message, size: i32)
    requires Sync(m.channel, s, c) && Sendable(s, headerType, m) && Parsable(s, headerType, m) && size > 0
    ensures FormatOf(s, headerType, m) <= MINIMUM
    ensures Arrived(s, headerType, m, RunOn(m.channel, c, size, ChunksOf(s, headerType, m, size)))
  {
    LeftOut(s, headerType, m);
    FlightIsDue(s, c, headerType, m);
    var f := FlightOf(s, headerType, m, c.clock);
    var fmt := FormatOf(s, headerType, m);
    HeaderApplied(s, c, headerType, m, fmt, MessageHeader(fmt, f.t, m));
    FlightOn(f, c, size, fmt);
    LandedIsArrived(s, c, headerType, m, RunOn(m.channel, c, size, ChunksOf(s, headerType, m, size)));
  }

  lemma FlightOn(f: Flight, c: Channel, size: i32, fmt: byte)
    requires f.Valid() && c.clock == f.clock && size > 0 && fmt <= MINIMUM
    requires var h := MessageHeader(fmt, f.t, f.m);
      && |h| == HeaderSize(fmt) - 1
      && var p := ApplyHeader(Base(c, ZERO.(headerType := fmt, channel := f.m.channel)), h);
      p.body == None && f.Reading(p.(body := if f.m.body == [] then None else Some([])), f.field, 0)
    ensures f.Partly(|f.m.body|, RunOn(f.m.channel, c, size, MessageChunks(fmt, f.t, f.m, size)))
  {
    hide StepOn, ApplyHeader;
    var k := Min(|f.m.body|, size);
    var chunks := MessageChunks(fmt, f.t, f.m, size);
    var step := FirstStep(f, c, size, fmt, MessageHeader(fmt, f.t, f.m));
    RunFirst(f.m.channel, c, size, chunks, step);
    assert chunks[1..] == LaterChunks(f.m.channel, f.t, f.m.body[k..], size);
    if k < |f.m.body| {
      LaterOn(f, step.after, size, k);
    }
  }
}
