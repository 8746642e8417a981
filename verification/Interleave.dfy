// Chunks of different channels on one wire (librtmp/rtmp.c, RTMP_ReadPacket).
module Interleave {
  import opened Bytes
  import opened Chunk
  import opened ChunkReader
  import opened ChunkSession

  // A chunk and the channel it belongs to.
  datatype Tagged = Tagged(channel: nat, chunk: seq<byte>)

  function Project(items: seq<Tagged>, ch: nat): seq<seq<byte>> {
    if items == [] then []
    else (if items[0].channel == ch then [items[0].chunk] else []) + Project(items[1..], ch)
  }

  function Wire(items: seq<Tagged>): seq<byte> {
    if items == [] then [] else items[0].chunk + Wire(items[1..])
  }

  function OnChannel(ms: seq<Message>, ch: nat): seq<Message> {
    if ms == [] then [] else (if ms[0].channel == ch then [ms[0]] else []) + OnChannel(ms[1..], ch)
  }

  datatype Run = Broken | Run(after: Table, got: seq<Message>)

  // RTMP_ReadPacket with a zeroed packet, until the wire is empty; the messages completed on the way.
  function ReadAll(t: Table, size: i32, w: seq<byte>): Run
    decreases |w|
  {
    if w == [] then Run(t, [])
    else
      var r := ReadChunk(t, size, ZERO, w);
      if r.NoChunk? then Broken
      else
        var rest := ReadAll(r.after, size, r.rest);
        if rest.Broken? then Broken
        else Run(rest.after, (if r.packet.IsReady() then [r.packet.Message()] else []) + rest.got)
  }

  // The same, chunk by chunk, each read to its last byte.
  function RunItems(t: Table, size: i32, items: seq<Tagged>): Run
    decreases |items|
  {
    if items == [] then Run(t, [])
    else
      var s := StepOn(items[0].channel, t.At(items[0].channel), size, items[0].chunk);
      if s.Stuck? then Broken
      else
        var rest := RunItems(t.With(items[0].channel, s.after), size, items[1..]);
        if rest.Broken? then Broken else Run(rest.after, s.got + rest.got)
  }

  // More bytes behind a chunk change nothing about it.
  lemma ReadMore(c: Channel, size: i32, p: Packet, w: seq<byte>, v: seq<byte>)
    requires p.headerType <= MINIMUM && ReadOnChannel(c, size, p, w).Done?
    ensures var r := ReadOnChannel(c, size, p, w);
      ReadOnChannel(c, size, p, w + v) == r.(rest := r.rest + v)
  {
    hide ApplyHeader, OpenBody, Base, TakeBody;
    var n := HeaderSize(p.headerType) - 1;
    assert (w + v)[..n] == w[..n];
    var p1 := ApplyHeader(Base(c, p), w[..n]);
    var extended := p1.timeStamp == EXTENDED;
    var n1 := if extended then n + 4 else n;
    if extended {
      assert (w + v)[n..] == w[n..] + v;
      FromBe32More(w[n..], v);
    }
    assert (w + v)[n1..] == w[n1..] + v;
    var p2 := if extended then p1.(timeStamp := FromBe32(w[n..])) else p1;
    TakeMore(c, OpenBody(p2, p.headerType), extended, size, w[n1..], v);
  }

  lemma TakeMore(c: Channel, p: Packet, extended: bool, size: i32, w: seq<byte>, v: seq<byte>)
    requires TakeBody(c, p, extended, size, w).Done?
    ensures var r := TakeBody(c, p, extended, size, w);
      TakeBody(c, p, extended, size, w + v) == r.(rest := r.rest + v)
  {
    var left := p.bodySize - p.bytesRead;
    var k := if left < size then left else size;
    assert (w + v)[..k] == w[..k] && (w + v)[k..] == w[k..] + v;
  }

  lemma BasicMore(w: seq<byte>, v: seq<byte>)
    requires ParseBasic(w).Some?
    ensures ParseBasic(w + v) == ParseBasic(w)
    ensures var n := ParseBasic(w).value.size;
      (w + v)[n..] == w[n..] + v
  {
    assert (w + v)[0] == w[0];
    if |w| > 1 {
      assert (w + v)[1] == w[1];
    }
    if |w| > 2 {
      assert (w + v)[2] == w[2];
    }
  }

  // On the wire a chunk is read as it would be alone, and the next one starts right behind it.
  lemma ReadsFirst(t: Table, size: i32, x: Tagged, rest: seq<byte>)
    requires StepOn(x.channel, t.At(x.channel), size, x.chunk).Step?
    ensures var s := StepOn(x.channel, t.At(x.channel), size, x.chunk);
      var r := ReadChunk(t, size, ZERO, x.chunk + rest);
      && x.chunk != []
      && r.GotChunk? && r.after == t.With(x.channel, s.after) && r.rest == rest
      && (if r.packet.IsReady() then [r.packet.Message()] else []) == s.got
  {
    hide ReadOnChannel;
    var b := ParseBasic(x.chunk).value;
    BasicMore(x.chunk, rest);
    ReadMore(t.At(x.channel), size, ZERO.(headerType := b.fmt, channel := x.channel), x.chunk[b.size..], rest);
    assert [] + rest == rest;
  }

  // The outcome of reading some items, then more.
  function Then(got: seq<Message>, r: Run): Run {
    if r.Broken? then Broken else Run(r.after, got + r.got)
  }

  lemma RunItemsFirst(t: Table, size: i32, x: Tagged, rest: seq<Tagged>)
    ensures RunItems(t, size, [x] + rest) ==
            var s := StepOn(x.channel, t.At(x.channel), size, x.chunk);
            if s.Stuck? then Broken else Then(s.got, RunItems(t.With(x.channel, s.after), size, rest))
  {
    hide StepOn;
    assert ([x] + rest)[1..] == rest;
  }

  lemma ReadAllFirst(t: Table, size: i32, w: seq<byte>)
    requires w != []
    ensures ReadAll(t, size, w) ==
            var r := ReadChunk(t, size, ZERO, w);
            if r.NoChunk? then Broken
            else Then(if r.packet.IsReady() then [r.packet.Message()] else [], ReadAll(r.after, size, r.rest))
  {
    hide ReadChunk;
  }

  lemma ReadAllEmpty(t: Table, size: i32)
    ensures ReadAll(t, size, []) == Run(t, [])
  {
  }

  lemma NoItems(t: Table, size: i32, rest: seq<byte>)
    ensures RunItems(t, size, []) == Run(t, []) && Wire([]) + rest == rest
    ensures Then([], ReadAll(t, size, rest)) == ReadAll(t, size, rest)
  {
    hide ReadAll;
  }

  lemma WireFirst(items: seq<Tagged>, rest: seq<byte>)
    requires items != []
    ensures Wire(items) + rest == items[0].chunk + (Wire(items[1..]) + rest)
  {
  }

  lemma ThenThen(a: seq<Message>, b: seq<Message>, r: Run)
    ensures Then(a, Then(b, r)) == Then(a + b, r)
  {
    assert r.Run? ==> a + (b + r.got) == a + b + r.got;
  }

  // Items that can be read, in front of any other bytes: they are read one by one, and then the rest is.
  lemma {:induction false} ReadsThrough(t: Table, size: i32, items: seq<Tagged>, rest: seq<byte>)
    requires RunItems(t, size, items).Run?
    ensures var r := RunItems(t, size, items);
      ReadAll(t, size, Wire(items) + rest) == Then(r.got, ReadAll(r.after, size, rest))
    decreases |items|
  {
    hide StepOn, ReadChunk, RunItems, ReadAll, Wire;
    if items == [] {
      NoItems(t, size, rest);
    } else {
      var x := items[0];
      assert items == [x] + items[1..];
      RunItemsFirst(t, size, x, items[1..]);
      var s := StepOn(x.channel, t.At(x.channel), size, x.chunk);
      var t' := t.With(x.channel, s.after);
      WireFirst(items, rest);
      ReadsFirst(t, size, x, Wire(items[1..]) + rest);
      ReadAllFirst(t, size, x.chunk + (Wire(items[1..]) + rest));
      ReadsThrough(t', size, items[1..], rest);
      var r' := RunItems(t', size, items[1..]);
      ThenThen(s.got, r'.got, ReadAll(r'.after, size, rest));
    }
  }

  lemma {:induction false} RunIsRead(t: Table, size: i32, items: seq<Tagged>)
    requires RunItems(t, size, items).Run?
    ensures ReadAll(t, size, Wire(items)) == RunItems(t, size, items)
  {
    hide RunItems;
    ReadsThrough(t, size, items, []);
    assert Wire(items) + [] == Wire(items);
  }

  // ---------- Independence of the channels ----------

  // A chunk delivers on its own channel, and its channel's packet keeps the channel's number.
  lemma StepKeepsChannel(t: Table, size: i32, x: Tagged)
    requires t.Valid() && StepOn(x.channel, t.At(x.channel), size, x.chunk).Step?
    ensures var s := StepOn(x.channel, t.At(x.channel), size, x.chunk);
      t.With(x.channel, s.after).Valid() && forall m | m in s.got :: m.channel == x.channel
  {
    hide ReadOnChannel;
    var b := ParseBasic(x.chunk).value;
    KeepsChannel(t, size, ZERO.(headerType := b.fmt, channel := x.channel), x.chunk[b.size..]);
  }

  lemma {:induction false} OnChannelConcat(a: seq<Message>, b: seq<Message>, ch: nat)
    ensures OnChannel(a + b, ch) == OnChannel(a, ch) + OnChannel(b, ch)
    decreases |a|
  {
    if a == [] {
      assert a + b == b;
    } else {
      assert (a + b)[0] == a[0] && (a + b)[1..] == a[1..] + b;
      OnChannelConcat(a[1..], b, ch);
      Regroup(if a[0].channel == ch then [a[0]] else [], OnChannel(a[1..], ch), OnChannel(b, ch));
    }
  }

  lemma OnOneChannel(ms: seq<Message>, from: nat, ch: nat)
    requires forall m | m in ms :: m.channel == from
    ensures OnChannel(ms, ch) == if ch == from then ms else []
  {
    if ms != [] {
      assert ms == [ms[0]] + ms[1..];
    }
  }

  // Whatever the interleaving, each channel delivers what its own chunks deliver on their own.
  ghost predicate ReadsAlone(t: Table, size: i32, items: seq<Tagged>) {
    forall ch: nat :: RunOn(ch, t.At(ch), size, Project(items, ch)).Step?
  }

  lemma {:induction false} Interleaved(t: Table, size: i32, items: seq<Tagged>)
    requires t.Valid() && ReadsAlone(t, size, items)
    ensures var r := RunItems(t, size, items);
      && r.Run? && r.after.Valid()
      && forall ch: nat ::
           var alone := RunOn(ch, t.At(ch), size, Project(items, ch));
           alone.Step? && r.after.At(ch) == alone.after && OnChannel(r.got, ch) == alone.got
    decreases |items|
  {
    hide StepOn;
    if items != [] {
      var x, rest := items[0], items[1..];
      assert Project(items, x.channel) == [x.chunk] + Project(rest, x.channel);
      assert RunOn(x.channel, t.At(x.channel), size, Project(items, x.channel)).Step?;
      var s := StepOn(x.channel, t.At(x.channel), size, x.chunk);
      StepKeepsChannel(t, size, x);
      var t' := t.With(x.channel, s.after);
      forall ch: nat
        ensures OneLess(ch, t, t', size, items, x, s)
      {
        SplitOff(ch, t, t', size, items, x, s);
      }
      assert ReadsAlone(t', size, rest) by {
        forall ch: nat
          ensures RunOn(ch, t'.At(ch), size, Project(rest, ch)).Step?
        {
          assert OneLess(ch, t, t', size, items, x, s);
        }
      }
      Interleaved(t', size, rest);
      var r := RunItems(t', size, rest);
      forall ch: nat
        ensures var alone := RunOn(ch, t.At(ch), size, Project(items, ch));
          alone.Step? && r.after.At(ch) == alone.after && OnChannel(s.got + r.got, ch) == alone.got
      {
        assert OneLess(ch, t, t', size, items, x, s);
        OnChannelConcat(s.got, r.got, ch);
        OnOneChannel(s.got, x.channel, ch);
      }
    }
  }

  // Channel ch before and after the first chunk x.
  ghost predicate OneLess(ch: nat, t: Table, t': Table, size: i32, items: seq<Tagged>, x: Tagged, s: Step)
    requires items != []
  {
    var all := RunOn(ch, t.At(ch), size, Project(items, ch));
    var fewer := RunOn(ch, t'.At(ch), size, Project(items[1..], ch));
    && all.Step? && fewer.Step? && all.after == fewer.after && s.Step?
    && all.got == (if ch == x.channel then s.got else []) + fewer.got
  }

  lemma SplitOff(ch: nat, t: Table, t': Table, size: i32, items: seq<Tagged>, x: Tagged, s: Step)
    requires items != [] && x == items[0] && s == StepOn(x.channel, t.At(x.channel), size, x.chunk) && s.Step?
    requires t' == t.With(x.channel, s.after)
    requires RunOn(ch, t.At(ch), size, Project(items, ch)).Step?
    ensures OneLess(ch, t, t', size, items, x, s)
  {
    hide StepOn;
    var rest := Project(items[1..], ch);
    if ch == x.channel {
      assert Project(items, ch) == [x.chunk] + rest;
      assert ([x.chunk] + rest)[1..] == rest;
    } else {
      assert Project(items, ch) == rest;
    }
  }
}
