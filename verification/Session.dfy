// Sessions: any list of messages sent by RTMP_SendPacket and read back by RTMP_ReadPacket, on any channels
// and in any interleaving (librtmp/rtmp.c).
module Session {
  import opened Bytes
  import opened Chunk
  import opened ChunkReader
  import opened ChunkSession
  import opened Interleave

  // A message and the header type its sender asked for.
  datatype Send = Send(headerType: byte, m: Message)

  type Senders = map<nat, Sender>

  function SenderAt(ss: Senders, ch: nat): Option<Sender> {
    if ch in ss then Some(ss[ch]) else None
  }

  // ---------- One channel: a script of messages ----------

  function ScriptAfter(s: Option<Sender>, sends: seq<Send>): Option<Sender>
    decreases |sends|
  {
    if sends == [] then s else ScriptAfter(Some(Advance(s, sends[0].headerType, sends[0].m)), sends[1..])
  }

  predicate Runnable(ch: nat, s: Option<Sender>, sends: seq<Send>)
    decreases |sends|
  {
    sends == [] ||
    (var x := sends[0];
     && x.m.channel == ch && Sendable(s, x.headerType, x.m) && Parsable(s, x.headerType, x.m)
     && Runnable(ch, Some(Advance(s, x.headerType, x.m)), sends[1..]))
  }

  function ScriptChunks(ch: nat, s: Option<Sender>, sends: seq<Send>, size: nat): seq<seq<byte>>
    requires Runnable(ch, s, sends) && size > 0
    decreases |sends|
  {
    if sends == [] then []
    else
      var x := sends[0];
      LeftOut(s, x.headerType, x.m);
      ChunksOf(s, x.headerType, x.m, size) + ScriptChunks(ch, Some(Advance(s, x.headerType, x.m)), sends[1..], size)
  }

  function Deliveries(s: Option<Sender>, sends: seq<Send>): seq<Message>
    decreases |sends|
  {
    if sends == [] then []
    else
      var x := sends[0];
      [Expected(s, x.headerType, x.m)] + Deliveries(Some(Advance(s, x.headerType, x.m)), sends[1..])
  }

  function Messages(sends: seq<Send>): seq<Message> {
    if sends == [] then [] else [sends[0].m] + Messages(sends[1..])
  }

  // Every message shrunk to the one-byte header follows one whose explicit timestamp field was 0.
  predicate Clean(s: Option<Sender>, sends: seq<Send>)
    decreases |sends|
  {
    sends == [] ||
    (var x := sends[0];
     && (Shrunk(s, x.headerType, x.m) ==> s.Some? && s.value.field == 0)
     && Clean(Some(Advance(s, x.headerType, x.m)), sends[1..]))
  }

  lemma {:induction false} ScriptOn(ch: nat, s: Option<Sender>, c: Channel, sends: seq<Send>, size: i32)
    requires Sync(ch, s, c) && Runnable(ch, s, sends) && size > 0
    ensures var r := RunOn(ch, c, size, ScriptChunks(ch, s, sends, size));
      r.Step? && r.got == Deliveries(s, sends) && Sync(ch, ScriptAfter(s, sends), r.after)
    decreases |sends|
  {
    hide StepOn, Sync, Advance, Expected, ChunksOf;
    if sends != [] {
      var x := sends[0];
      MessageOn(s, c, x.headerType, x.m, size);
      var first := ChunksOf(s, x.headerType, x.m, size);
      var r := RunOn(ch, c, size, first);
      ScriptOn(ch, Some(Advance(s, x.headerType, x.m)), r.after, sends[1..], size);
      RunOnConcat(ch, c, size, first, ScriptChunks(ch, Some(Advance(s, x.headerType, x.m)), sends[1..], size));
    }
  }

  // A script is delivered with its own times exactly when it is clean: the reader's clock is right from the
  // start, and the first reused field other than 0 puts it wrong.
  lemma {:induction false} CleanIsExact(s: Option<Sender>, sends: seq<Send>)
    requires s.Some? ==> s.value.drift == 0
    requires forall x | x in sends :: x.headerType == LARGE || x.headerType == MEDIUM
    ensures Deliveries(s, sends) == Messages(sends) <==> Clean(s, sends)
    decreases |sends|
  {
    if sends != [] {
      var x := sends[0];
      var s' := Advance(s, x.headerType, x.m);
      assert Deliveries(s, sends)[0] == Expected(s, x.headerType, x.m);
      assert Deliveries(s, sends)[1..] == Deliveries(Some(s'), sends[1..]);
      assert Messages(sends)[0] == x.m && Messages(sends)[1..] == Messages(sends[1..]);
      FirstIsExact(s, x.headerType, x.m);
      if s'.drift == 0 {
        CleanIsExact(Some(s'), sends[1..]);
      }
    }
  }

  lemma FirstIsExact(s: Option<Sender>, headerType: byte, m: Message)
    requires (s.Some? ==> s.value.drift == 0) && (headerType == LARGE || headerType == MEDIUM)
    ensures Shrunk(s, headerType, m) ==> s.Some?
    ensures Advance(s, headerType, m).drift == 0 <==> (Shrunk(s, headerType, m) ==> s.value.field == 0)
    ensures Expected(s, headerType, m) == m <==> Advance(s, headerType, m).drift == 0
  {
    var d := Advance(s, headerType, m).drift;
    if d != 0 {
      SmallShift(m.timeStamp, d);
    }
  }

  // Two equal messages, the first with an explicit time of 5: the second arrives five late.
  lemma SameTimeArrivesLate(packetType: byte, channel: nat, info: i32, body: seq<byte>)
    ensures var m := Message(packetType, channel, 5, info, body);
      Deliveries(None, [Send(LARGE, m), Send(MEDIUM, m)]) == [m, m.(timeStamp := 10)]
  {
    var m := Message(packetType, channel, 5, info, body);
    var s := Some(Advance(None, LARGE, m));
    var two := [Send(LARGE, m), Send(MEDIUM, m)];
    assert s == Some(Sender(Remember(m), 5, 0));
    assert two[1..] == [Send(MEDIUM, m)];
    assert Deliveries(s, two[1..]) == [Expected(s, MEDIUM, m)] + Deliveries(Some(Advance(s, MEDIUM, m)), two[1..][1..]);
    assert two[1..][1..] == [];
  }

  lemma SmallShift(t: u32, d: u32)
    requires d != 0
    ensures Wrap(t + d) != t
  {
    if t + d >= B32 {
      AddMultiple(t + d - B32, 1);
    }
  }

  // The fields the reader has replayed as deltas since the last LARGE header of the script.
  function Replayed(s: Option<Sender>, sends: seq<Send>): seq<u32> {
    if sends == [] then []
    else
      var init, x := sends[..|sends| - 1], sends[|sends| - 1];
      var before := ScriptAfter(s, init);
      var fmt := FormatOf(before, x.headerType, x.m);
      if fmt == LARGE then []
      else if fmt == MINIMUM && before.Some? then Replayed(s, init) + [before.value.field]
      else Replayed(s, init)
  }

  function Sum(xs: seq<u32>): nat {
    if xs == [] then 0 else Sum(xs[..|xs| - 1]) + xs[|xs| - 1]
  }

  lemma {:induction false} AfterLast(s: Option<Sender>, sends: seq<Send>, x: Send)
    ensures ScriptAfter(s, sends + [x]) == Some(Advance(ScriptAfter(s, sends), x.headerType, x.m))
    decreases |sends|
  {
    if sends != [] {
      assert (sends + [x])[1..] == sends[1..] + [x];
      AfterLast(Some(Advance(s, sends[0].headerType, sends[0].m)), sends[1..], x);
    }
  }

  // The clock law: on a channel that starts fresh, the reader's clock is ahead of the sender's by the sum, modulo
  // 2^32, of the fields replayed since the last LARGE header.
  lemma {:induction false} ClockLaw(sends: seq<Send>)
    requires sends != []
    ensures ScriptAfter(None, sends).Some?
    ensures ScriptAfter(None, sends).value.drift == Wrap(Sum(Replayed(None, sends)))
    decreases |sends|
  {
    var init, x := sends[..|sends| - 1], sends[|sends| - 1];
    assert sends == init + [x];
    AfterLast(None, init, x);
    if init != [] {
      ClockLaw(init);
    }
    DriftStep(ScriptAfter(None, init), x, Replayed(None, init));
  }

  lemma DriftStep(before: Option<Sender>, x: Send, r: seq<u32>)
    requires if before.Some? then before.value.drift == Wrap(Sum(r)) else r == []
    ensures var fmt := FormatOf(before, x.headerType, x.m);
      var r' := if fmt == LARGE then [] else if fmt == MINIMUM && before.Some? then r + [before.value.field] else r;
      Advance(before, x.headerType, x.m).drift == Wrap(Sum(r'))
  {
    if before.Some? {
      var field := before.value.field;
      assert (r + [field])[..|r|] == r;
      WrapAdd(Sum(r), field);
    }
  }

  // The k-th message of a script is delivered late by that sum.
  lemma {:induction false} DeliveredAt(s: Option<Sender>, sends: seq<Send>, k: nat)
    requires k < |sends|
    ensures |Deliveries(s, sends)| == |sends|
    ensures Deliveries(s, sends)[k] == Expected(ScriptAfter(s, sends[..k]), sends[k].headerType, sends[k].m)
    ensures ScriptAfter(s, sends[..k + 1])
         == Some(Advance(ScriptAfter(s, sends[..k]), sends[k].headerType, sends[k].m))
    decreases |sends|
  {
    hide Expected, Advance;
    var x := sends[0];
    var s' := Some(Advance(s, x.headerType, x.m));
    assert sends[..k + 1] == sends[..k] + [sends[k]];
    AfterLast(s, sends[..k], sends[k]);
    DeliveriesLength(s', sends[1..]);
    if k > 0 {
      DeliveredAt(s', sends[1..], k - 1);
      assert sends[..k][1..] == sends[1..][..k - 1];
    }
  }

  lemma DeliveriesLength(s: Option<Sender>, sends: seq<Send>)
    ensures |Deliveries(s, sends)| == |sends|
    decreases |sends|
  {
    hide Expected, Advance;
  }

  lemma ClocksDiffer(sends: seq<Send>, k: nat)
    requires k < |sends|
    ensures |Deliveries(None, sends)| == |sends|
    ensures Deliveries(None, sends)[k]
         == sends[k].m.(timeStamp := Wrap(sends[k].m.timeStamp + Sum(Replayed(None, sends[..k + 1]))))
  {
    DeliveredAt(None, sends, k);
    ClockLaw(sends[..k + 1]);
    WrapAdd(Sum(Replayed(None, sends[..k + 1])), sends[k].m.timeStamp);
  }

  // ---------- Interleaved scripts ----------

  type Scripts = map<nat, seq<Send>>

  function Script(scripts: Scripts, ch: nat): seq<Send> {
    if ch in scripts then scripts[ch] else []
  }

  // The two ends agree on every channel.
  ghost predicate InStep(ss: Senders, t: Table) {
    t.Valid() && forall ch: nat :: Sync(ch, SenderAt(ss, ch), t.At(ch))
  }

  // The items are the chunks of every channel's script, each script in order.
  ghost predicate Shuffles(items: seq<Tagged>, ss: Senders, scripts: Scripts, size: nat)
    requires size > 0 && forall ch: nat :: Runnable(ch, SenderAt(ss, ch), Script(scripts, ch))
  {
    forall ch: nat :: Project(items, ch) == ScriptChunks(ch, SenderAt(ss, ch), Script(scripts, ch), size)
  }

  // For every interleaving of the channels' chunks, the reader gets through the whole wire and delivers on every
  // channel that channel's messages, in order.
  lemma InterleavedScripts(t: Table, ss: Senders, scripts: Scripts, items: seq<Tagged>, size: i32)
    requires size > 0 && InStep(ss, t)
    requires forall ch: nat :: Runnable(ch, SenderAt(ss, ch), Script(scripts, ch))
    requires Shuffles(items, ss, scripts, size)
    ensures var r := ReadAll(t, size, Wire(items));
      && r.Run? && r.after.Valid()
      && forall ch: nat ::
           && OnChannel(r.got, ch) == Deliveries(SenderAt(ss, ch), Script(scripts, ch))
           && Sync(ch, ScriptAfter(SenderAt(ss, ch), Script(scripts, ch)), r.after.At(ch))
  {
    hide Sync, StepOn;
    forall ch: nat
      ensures var s, script := SenderAt(ss, ch), Script(scripts, ch);
        var r := RunOn(ch, t.At(ch), size, Project(items, ch));
        r.Step? && r.got == Deliveries(s, script) && Sync(ch, ScriptAfter(s, script), r.after)
    {
      ScriptOn(ch, SenderAt(ss, ch), t.At(ch), Script(scripts, ch), size);
    }
    Interleaved(t, size, items);
    RunIsRead(t, size, items);
  }

  // ---------- Sessions: one message after the other ----------

  predicate SessionOk(ss: Senders, sends: seq<Send>)
    decreases |sends|
  {
    sends == [] ||
    (var Send(headerType, m) := sends[0];
     && Sendable(SenderAt(ss, m.channel), headerType, m) && Parsable(SenderAt(ss, m.channel), headerType, m)
     && SessionOk(ss[m.channel := Advance(SenderAt(ss, m.channel), headerType, m)], sends[1..]))
  }

  predicate SessionClean(ss: Senders, sends: seq<Send>)
    decreases |sends|
  {
    sends == [] ||
    (var Send(headerType, m) := sends[0];
     var s := SenderAt(ss, m.channel);
     && (Shrunk(s, headerType, m) ==> s.Some? && s.value.field == 0)
     && SessionClean(ss[m.channel := Advance(s, headerType, m)], sends[1..]))
  }

  function SessionAfter(ss: Senders, sends: seq<Send>): Senders
    decreases |sends|
  {
    if sends == [] then ss
    else
      var Send(headerType, m) := sends[0];
      SessionAfter(ss[m.channel := Advance(SenderAt(ss, m.channel), headerType, m)], sends[1..])
  }

  function SessionDeliveries(ss: Senders, sends: seq<Send>): seq<Message>
    decreases |sends|
  {
    if sends == [] then []
    else
      var Send(headerType, m) := sends[0];
      var s := SenderAt(ss, m.channel);
      [Expected(s, headerType, m)] + SessionDeliveries(ss[m.channel := Advance(s, headerType, m)], sends[1..])
  }

  function Tag(ch: nat, chunks: seq<seq<byte>>): seq<Tagged> {
    if chunks == [] then [] else [Tagged(ch, chunks[0])] + Tag(ch, chunks[1..])
  }

  // The chunks in the order the sender writes them.
  function SessionItems(ss: Senders, sends: seq<Send>, size: nat): seq<Tagged>
    requires size > 0
    decreases |sends|
  {
    if sends == [] then []
    else
      var Send(headerType, m) := sends[0];
      var s := SenderAt(ss, m.channel);
      if FormatOf(s, headerType, m) > MINIMUM then []
      else Tag(m.channel, ChunksOf(s, headerType, m, size))
           + SessionItems(ss[m.channel := Advance(s, headerType, m)], sends[1..], size)
  }

  lemma WithTwice(t: Table, ch: nat, a: Channel, b: Channel)
    requires a.stored.Some? && b.stored.Some?
    ensures t.With(ch, a).With(ch, b) == t.With(ch, b)
  {
  }

  lemma {:induction false} RunTagged(t: Table, size: i32, ch: nat, chunks: seq<seq<byte>>, rest: seq<Tagged>)
    requires chunks != []
    ensures var r := RunOn(ch, t.At(ch), size, chunks);
      && (r.Step? ==> r.after.stored.Some?)
      && RunItems(t, size, Tag(ch, chunks) + rest) ==
         if r.Stuck? then Broken else Then(r.got, RunItems(t.With(ch, r.after), size, rest))
    decreases |chunks|
  {
    hide StepOn, RunItems;
    var s := StepOn(ch, t.At(ch), size, chunks[0]);
    assert Tag(ch, chunks) + rest == [Tagged(ch, chunks[0])] + (Tag(ch, chunks[1..]) + rest);
    RunItemsFirst(t, size, Tagged(ch, chunks[0]), Tag(ch, chunks[1..]) + rest);
    if s.Step? {
      var t' := t.With(ch, s.after);
      if chunks[1..] == [] {
        assert [] + rest == rest;
        assert s.got + [] == s.got;
      } else {
        RunTagged(t', size, ch, chunks[1..], rest);
        var r := RunOn(ch, s.after, size, chunks[1..]);
        if r.Step? {
          WithTwice(t, ch, s.after, r.after);
          var r' := RunItems(t.With(ch, r.after), size, rest);
          assert r'.Run? ==> s.got + (r.got + r'.got) == (s.got + r.got) + r'.got;
        }
      }
    }
  }

  lemma InStepAfter(ss: Senders, t: Table, ch: nat, s: Sender, c: Channel)
    requires InStep(ss, t) && c.stored.Some? && Sync(ch, Some(s), c)
    ensures InStep(ss[ch := s], t.With(ch, c))
  {
    var ss', t' := ss[ch := s], t.With(ch, c);
    forall x: nat
      ensures Sync(x, SenderAt(ss', x), t'.At(x))
    {
      assert Sync(x, SenderAt(ss, x), t.At(x));
    }
  }

  // Reading a session, each chunk to its last byte.
  lemma {:induction false} SessionRun(ss: Senders, t: Table, sends: seq<Send>, size: i32)
    requires size > 0 && InStep(ss, t) && SessionOk(ss, sends)
    ensures var r := RunItems(t, size, SessionItems(ss, sends, size));
      r.Run? && r.got == SessionDeliveries(ss, sends) && InStep(SessionAfter(ss, sends), r.after)
    decreases |sends|
  {
    hide Sync, Advance, Expected, ChunksOf, StepOn, RunOn;
    if sends != [] {
      var Send(headerType, m) := sends[0];
      var s := SenderAt(ss, m.channel);
      assert Sync(m.channel, s, t.At(m.channel));
      MessageOn(s, t.At(m.channel), headerType, m, size);
      var chunks := ChunksOf(s, headerType, m, size);
      var r := RunOn(m.channel, t.At(m.channel), size, chunks);
      var ss' := ss[m.channel := Advance(s, headerType, m)];
      ChunksNotEmpty(s, headerType, m, size);
      RunTagged(t, size, m.channel, chunks, SessionItems(ss', sends[1..], size));
      InStepAfter(ss, t, m.channel, Advance(s, headerType, m), r.after);
      SessionRun(ss', t.With(m.channel, r.after), sends[1..], size);
    }
  }

  lemma ChunksNotEmpty(s: Option<Sender>, headerType: byte, m: Message, size: nat)
    requires FormatOf(s, headerType, m) <= MINIMUM && size > 0
    ensures ChunksOf(s, headerType, m, size) != []
  {
  }

  // Every session that can be parsed is read to its last byte: channels, types, info fields, sizes and bodies arrive
  // as sent and in order, timestamps by the reader's clock.
  lemma SessionRead(ss: Senders, t: Table, sends: seq<Send>, size: i32)
    requires size > 0 && InStep(ss, t) && SessionOk(ss, sends)
    ensures var r := ReadAll(t, size, Wire(SessionItems(ss, sends, size)));
      r.Run? && r.got == SessionDeliveries(ss, sends) && InStep(SessionAfter(ss, sends), r.after)
  {
    SessionRun(ss, t, sends, size);
    RunIsRead(t, size, SessionItems(ss, sends, size));
  }
}
