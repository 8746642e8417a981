// RTMP_Write (librtmp/rtmp.c): a stream of FLV tags, handed over in pieces, becomes one message per tag.
module Publish {
  import opened Bytes
  import opened Chunk
  import opened ChunkWriter
  import opened Flv
  import opened Session

  // The channel everything is published on.
  const SOURCE_CHANNEL := 4

  // AMF string "@setDataFrame", which goes in front of script data.
  const SET_DATA_FRAME: seq<byte> :=
    [0x02, 0x00, 0x0d, 0x40, 0x73, 0x65, 0x74, 0x44, 0x61, 0x74, 0x61, 0x46, 0x72, 0x61, 0x6d, 0x65]

  // A tag under way: its header, and as much of the message body as there is.
  datatype Filling = Filling(headerType: byte, packetType: byte, time: u32, total: nat, got: seq<byte>)

  // What a call sends, what it leaves under way, and what it returns; Malformed if it ends inside a tag header.
  datatype Fed = Malformed | Fed(sent: seq<Send>, pending: Option<Filling>, ret: int)

  // The message header type of a tag.
  function HeaderTypeOf(packetType: byte, time: u32): byte {
    if ((packetType == AUDIO || packetType == VIDEO) && time == 0) || packetType == INFO then LARGE else MEDIUM
  }

  function StartOf(h: seq<byte>): Filling
    requires |h| >= 11
  {
    var packetType, time := h[0], TimeOf(h[4..]);
    var prefix := if packetType == INFO then SET_DATA_FRAME else [];
    Filling(HeaderTypeOf(packetType, time), packetType, time, FromBe24(h[1..]) + |prefix|, prefix)
  }

  function SkipFlvHeader(w: seq<byte>): Option<seq<byte>> {
    if |w| >= 3 && w[..3] == [0x46, 0x4c, 0x56] then if |w| >= 13 then Some(w[13..]) else None else Some(w)
  }

  function SendOf(f: Filling, streamId: i32, body: seq<byte>): Send {
    Send(f.headerType, Message(f.packetType, SOURCE_CHANNEL, f.time, streamId, body))
  }

  function Feed(p: Option<Filling>, streamId: i32, size: nat, w: seq<byte>): Fed
    decreases |w|, 1
  {
    if w == [] then Fed([], p, size)
    else if p.Some? then FeedBody(p.value, streamId, size, w)
    else if size < 11 then Fed([], None, 0)
    else
      var w1 := SkipFlvHeader(w);
      if w1.None? || |w1.value| < 11 then Malformed
      else FeedBody(StartOf(w1.value), streamId, size, w1.value[11..])
  }

  function FeedBody(f: Filling, streamId: i32, size: nat, w: seq<byte>): Fed
    decreases |w|, 0
  {
    var left := if f.total > |f.got| then f.total - |f.got| else 0;
    var num := Min(left, |w|);
    var body, rest := f.got + w[..num], w[num..];
    if num == left then
      if |rest| < 4 then Fed([SendOf(f, streamId, body)], None, size + |rest| - 4)
      else
        var r := Feed(None, streamId, size, rest[4..]);
        if r.Malformed? then Malformed else Fed([SendOf(f, streamId, body)] + r.sent, r.pending, r.ret)
    else Fed([], if body == [] then None else Some(f.(got := body)), size)
  }

  // ---------- Tags in pieces ----------

  // The message body a tag is published as.
  function BodyOf(t: Tag): seq<byte> {
    (if t.tagType == INFO then SET_DATA_FRAME else []) + t.data
  }

  function MessageOf(t: Tag, streamId: i32): Send {
    Send(HeaderTypeOf(t.tagType, t.time), Message(t.tagType, SOURCE_CHANNEL, t.time, streamId, BodyOf(t)))
  }

  function MessagesOf(tags: seq<Tag>, streamId: i32): (r: seq<Send>)
    ensures |r| == |tags|
    ensures forall i | 0 <= i < |tags| :: r[i] == MessageOf(tags[i], streamId)
  {
    if tags == [] then [] else [MessageOf(tags[0], streamId)] + MessagesOf(tags[1..], streamId)
  }

  // Position k of the tags' bytes lies between two tags or strictly inside a tag's data.
  predicate GoodCut(tags: seq<Tag>, k: nat) {
    if k == 0 then true
    else if tags == [] then false
    else if k < 15 + |tags[0].data| then 11 < k < 11 + |tags[0].data|
    else GoodCut(tags[1..], k - 15 - |tags[0].data|)
  }

  // How many tags end at or before position k, and how far into the next one it is.
  function Whole(tags: seq<Tag>, k: nat): nat
    requires GoodCut(tags, k)
  {
    if k == 0 || k < 15 + |tags[0].data| then 0 else 1 + Whole(tags[1..], k - 15 - |tags[0].data|)
  }

  function Into(tags: seq<Tag>, k: nat): nat
    requires GoodCut(tags, k)
  {
    if k == 0 || k < 15 + |tags[0].data| then k else Into(tags[1..], k - 15 - |tags[0].data|)
  }

  // The state between two calls, o bytes into the first of the tags.
  function Underway(tags: seq<Tag>, o: nat): Option<Filling>
    requires o == 0 || (tags != [] && 11 < o < 11 + |tags[0].data|)
  {
    if o == 0 then None
    else
      var t := tags[0];
      Some(Filling(HeaderTypeOf(t.tagType, t.time), t.tagType, t.time, |BodyOf(t)|,
                   BodyOf(t)[..|BodyOf(t)| - |t.data| + o - 11]))
  }

  predicate Publishable(tags: seq<Tag>) {
    forall t | t in tags :: t.Valid() && t.tagType != 0x46
  }

  lemma StartParts(t: Tag, rest: seq<byte>)
    requires t.Valid() && t.tagType != 0x46 && |rest| > 0
    ensures var w := t.Header() + rest;
      && SkipFlvHeader(w) == Some(w) && w[11..] == rest
      && StartOf(w) == Filling(HeaderTypeOf(t.tagType, t.time), t.tagType, t.time, |BodyOf(t)|,
                               if t.tagType == INFO then SET_DATA_FRAME else [])
  {
    HeaderParts(t, rest);
    var w := t.Header() + rest;
    assert w[..3][0] == t.tagType;
    assert DataSize(w) == |t.data|;
  }

  // Data that completes the tag, its size field, and more.
  lemma FeedDone(f: Filling, streamId: i32, size: nat, d: seq<byte>, p: seq<byte>, more: seq<byte>)
    requires f.total == |f.got| + |d| && |p| == 4
    ensures FeedBody(f, streamId, size, d + (p + more)) ==
            var r := Feed(None, streamId, size, more);
            if r.Malformed? then Malformed else Fed([SendOf(f, streamId, f.got + d)] + r.sent, r.pending, r.ret)
  {
    SplitAt(d, p + more);
    SplitAt(p, more);
  }

  // Data that does not complete it.
  lemma FeedPart(f: Filling, streamId: i32, size: nat, d: seq<byte>)
    requires |f.got| + |d| < f.total && d != []
    ensures FeedBody(f, streamId, size, d) == Fed([], Some(f.(got := f.got + d)), size)
  {
    assert d[..|d|] == d;
  }

  lemma FeedHeader(t: Tag, streamId: i32, size: nat, rest: seq<byte>)
    requires t.Valid() && t.tagType != 0x46 && |rest| > 0 && size >= 11
    ensures Feed(None, streamId, size, t.Header() + rest)
         == FeedBody(Filling(HeaderTypeOf(t.tagType, t.time), t.tagType, t.time, |BodyOf(t)|,
                             if t.tagType == INFO then SET_DATA_FRAME else []), streamId, size, rest)
  {
    hide FeedBody;
    StartParts(t, rest);
  }

  // A tag o bytes into which the call starts; the rest of its data is d.
  function OnTag(t: Tag, o: nat): (r: (Filling, seq<byte>))
    requires o == 0 || 11 < o < 11 + |t.data|
    ensures r.0.total == |r.0.got| + |r.1| && r.0.got + r.1 == BodyOf(t)
  {
    var k := if o == 0 then 0 else o - 11;
    var j := |BodyOf(t)| - |t.data| + k;
    assert BodyOf(t)[..j] + t.data[k..] == BodyOf(t);
    (Filling(HeaderTypeOf(t.tagType, t.time), t.tagType, t.time, |BodyOf(t)|, BodyOf(t)[..j]), t.data[k..])
  }

  lemma FeedOnTag(tags: seq<Tag>, o: nat, streamId: i32, size: nat, w: seq<byte>)
    requires Publishable(tags) && tags != [] && w != [] && (o == 0 ==> size >= 11)
    requires o == 0 || 11 < o < 11 + |tags[0].data|
    ensures Feed(Underway(tags, o), streamId, size, (if o == 0 then tags[0].Header() else []) + w)
         == FeedBody(OnTag(tags[0], o).0, streamId, size, w)
  {
    hide FeedBody;
    var t := tags[0];
    if o == 0 {
      FeedHeader(t, streamId, size, w);
      assert BodyOf(t)[..|BodyOf(t)| - |t.data|] == if t.tagType == INFO then SET_DATA_FRAME else [];
    } else {
      assert [] + w == w;
      assert Feed(Underway(tags, o), streamId, size, w) == FeedBody(Underway(tags, o).value, streamId, size, w);
    }
  }

  lemma {:induction false} CutParts(tags: seq<Tag>, k: nat)
    requires GoodCut(tags, k)
    ensures var n, i := Whole(tags, k), Into(tags, k);
      n <= |tags| && (i == 0 || (n < |tags| && 11 < i < 11 + |tags[n].data|))
    decreases |tags|
  {
    if k != 0 && k >= 15 + |tags[0].data| {
      CutParts(tags[1..], k - 15 - |tags[0].data|);
    }
  }

  // The bytes of a first tag from o on, in front of more tags.
  lemma TagFrom(tags: seq<Tag>, o: nat)
    requires tags != [] && (o == 0 || 11 < o < 11 + |tags[0].data|)
    ensures var t, rest := tags[0], TagsBytes(tags[1..]);
      && |TagsBytes(tags)| == 15 + |t.data| + |rest|
      && TagsBytes(tags)[o..]
         == (if o == 0 then t.Header() else []) + (OnTag(t, o).1 + (Be32(t.prev) + rest))
  {
    var t, rest := tags[0], TagsBytes(tags[1..]);
    var d := OnTag(t, o).1;
    Regroup4(t.Header(), t.data, Be32(t.prev), rest);
    if o == 0 {
      assert t.data[0..] == t.data;
    } else {
      SplitAt(t.Header(), t.data + (Be32(t.prev) + rest));
      assert TagsBytes(tags)[o..] == TagsBytes(tags)[11..][o - 11..];
      assert (t.data + (Be32(t.prev) + rest))[o - 11..] == t.data[o - 11..] + (Be32(t.prev) + rest);
    }
  }

  lemma TakePrefix<T>(a: seq<T>, b: seq<T>, k: nat)
    requires k <= |a| + |b|
    ensures (a + b)[..k] == if k <= |a| then a[..k] else a + b[..k - |a|]
  {
  }

  // Further into the same tag.
  lemma Further(tags: seq<Tag>, o: nat, l: nat)
    requires tags != [] && (o == 0 || 11 < o < 11 + |tags[0].data|)
    requires l > 0 && 11 < o + l < 11 + |tags[0].data|
    ensures var (f, d) := OnTag(tags[0], o);
      var k := if o == 0 then l - 11 else l;
      && 0 < k < |d| && |f.got| + |d[..k]| < f.total
      && Underway(tags, o + l) == Some(f.(got := f.got + d[..k]))
  {
    var (f, d) := OnTag(tags[0], o);
    var k := if o == 0 then l - 11 else l;
    assert f.got + d[..k] == (f.got + d)[..|f.got| + k];
  }

  lemma OnTagSends(t: Tag, o: nat, streamId: i32)
    requires o == 0 || 11 < o < 11 + |t.data|
    ensures var (f, d) := OnTag(t, o);
      SendOf(f, streamId, f.got + d) == MessageOf(t, streamId)
  {
  }

  lemma MessagesFirst(tags: seq<Tag>, n: nat, streamId: i32)
    requires n < |tags|
    ensures MessagesOf(tags[..n + 1], streamId) == [MessageOf(tags[0], streamId)] + MessagesOf(tags[1..][..n], streamId)
  {
    assert tags[..n + 1][1..] == tags[1..][..n];
  }

  lemma NoMessages(streamId: i32)
    ensures MessagesOf([], streamId) == []
  {
  }

  lemma FeedNothing(p: Option<Filling>, streamId: i32, size: nat)
    ensures Feed(p, streamId, size, []) == Fed([], p, size)
  {
  }

  // A call that ends inside the tag it starts in.
  lemma FeedInside(tags: seq<Tag>, o: nat, l: nat, streamId: i32, size: nat, c: seq<byte>)
    requires Publishable(tags) && tags != [] && (o == 0 || 11 < o < 11 + |tags[0].data|)
    requires l > 0 && 11 < o + l < 11 + |tags[0].data| && o + l <= |TagsBytes(tags)|
    requires c == TagsBytes(tags)[o..][..l] && size >= l
    ensures Feed(Underway(tags, o), streamId, size, c) == Fed([], Underway(tags, o + l), size)
  {
    hide Feed, FeedBody, OnTag, Underway;
    var t := tags[0];
    Further(tags, o, l);
    TagFrom(tags, o);
    var (f, d) := OnTag(t, o);
    var h := if o == 0 then t.Header() else [];
    var w := d[..l - |h|];
    TakePrefix(h, d + (Be32(t.prev) + TagsBytes(tags[1..])), l);
    TakePrefix(d, Be32(t.prev) + TagsBytes(tags[1..]), l - |h|);
    assert c == h + w;
    FeedOnTag(tags, o, streamId, size, w);
    FeedPart(f, streamId, size, w);
  }

  // A call that completes the tag it starts in: the rest of the call starts at the next tag.
  lemma FeedAcross(tags: seq<Tag>, o: nat, l: nat, streamId: i32, size: nat, c: seq<byte>)
    requires Publishable(tags) && tags != [] && (o == 0 || 11 < o < 11 + |tags[0].data|)
    requires l > 0 && 15 + |tags[0].data| <= o + l <= |TagsBytes(tags)|
    requires c == TagsBytes(tags)[o..][..l] && size >= l
    ensures o + l - 15 - |tags[0].data| <= |TagsBytes(tags[1..])|
    ensures Feed(Underway(tags, o), streamId, size, c) ==
            var r := Feed(None, streamId, size, TagsBytes(tags[1..])[..o + l - 15 - |tags[0].data|]);
            if r.Malformed? then Malformed else Fed([MessageOf(tags[0], streamId)] + r.sent, r.pending, r.ret)
  {
    hide *;
    var t, rest := tags[0], TagsBytes(tags[1..]);
    TagFrom(tags, o);
    var (f, d) := OnTag(t, o);
    var h := if o == 0 then t.Header() else [];
    var more := rest[..o + l - 15 - |t.data|];
    TakePrefix(h, d + (Be32(t.prev) + rest), l);
    TakePrefix(d, Be32(t.prev) + rest, l - |h|);
    TakePrefix(Be32(t.prev), rest, l - |h| - |d|);
    OnTagSends(t, o, streamId);
    assert c == h + (d + (Be32(t.prev) + more));
    FeedOnTag(tags, o, streamId, size, d + (Be32(t.prev) + more));
    FeedDone(f, streamId, size, d, Be32(t.prev), more);
  }

  lemma CutHere(tags: seq<Tag>, k: nat)
    requires GoodCut(tags, k) && (k == 0 || (tags != [] && k < 15 + |tags[0].data|))
    ensures Whole(tags, k) == 0 && Into(tags, k) == k
    ensures tags[0..] == tags
  {
  }

  lemma CutLater(tags: seq<Tag>, k: nat)
    requires GoodCut(tags, k) && k > 0 && !(tags != [] && k < 15 + |tags[0].data|)
    ensures tags != [] && k >= 15 + |tags[0].data|
    ensures var k' := k - 15 - |tags[0].data|;
      && Underway(tags[1..], 0) == None
      && GoodCut(tags[1..], k') && Whole(tags, k) == 1 + Whole(tags[1..], k') && Into(tags, k) == Into(tags[1..], k')
  {
  }

  lemma PublishRest(tags: seq<Tag>)
    requires Publishable(tags) && tags != []
    ensures Publishable(tags[1..])
  {
  }

  // A call that starts at a good cut and ends at one sends exactly the messages of the tags it completes, leaves the
  // last one under way, and takes all its bytes.
  lemma {:induction false} FeedTags(tags: seq<Tag>, o: nat, l: nat, streamId: i32, size: nat, c: seq<byte>)
    requires Publishable(tags) && (o == 0 || (tags != [] && 11 < o < 11 + |tags[0].data|))
    requires o + l <= |TagsBytes(tags)| && GoodCut(tags, o + l)
    requires c == TagsBytes(tags)[o..][..l] && size >= l
    ensures var n, i := Whole(tags, o + l), Into(tags, o + l);
      && n <= |tags| && (i == 0 || (n < |tags| && 11 < i < 11 + |tags[n].data|))
      && Feed(Underway(tags, o), streamId, size, c)
         == Fed(MessagesOf(tags[..n], streamId), Underway(tags[n..], i), size)
    decreases |tags|
  {
    hide *;
    CutParts(tags, o + l);
    if l == 0 {
      CutHere(tags, o);
      FeedNothing(Underway(tags, o), streamId, size);
      NoMessages(streamId);
    } else if tags != [] && o + l < 15 + |tags[0].data| {
      CutHere(tags, o + l);
      FeedInside(tags, o, l, streamId, size, c);
      NoMessages(streamId);
    } else {
      CutLater(tags, o + l);
      FeedAcross(tags, o, l, streamId, size, c);
      var k := o + l - 15 - |tags[0].data|;
      assert TagsBytes(tags[1..])[0..] == TagsBytes(tags[1..]);
      PublishRest(tags);
      FeedTags(tags[1..], 0, k, streamId, size, TagsBytes(tags[1..])[..k]);
      var n := Whole(tags[1..], k);
      MessagesFirst(tags, n, streamId);
      assert tags[1..][n..] == tags[n + 1..];
    }
  }

  // ---------- What a call returns ----------

  // A piece too short for a tag header sends nothing and returns 0.
  lemma ShortPiece(streamId: i32, w: seq<byte>)
    requires 0 < |w| < 11
    ensures Feed(None, streamId, |w|, w) == Fed([], None, 0)
  {
  }

  // The 13 bytes of an FLV file header, if a piece begins with them, are skipped.
  lemma FileHeaderSkipped(streamId: i32, size: nat, h: seq<byte>, w: seq<byte>)
    requires |h| == 13 && h[0] == 'F' as int && h[1] == 'L' as int && h[2] == 'V' as int
    requires |w| >= 11 && w[0] != 'F' as int && size >= 11
    ensures Feed(None, streamId, size, h + w) == Feed(None, streamId, size, w)
  {
    hide FeedBody;
    SplitAt(h, w);
    assert (h + w)[..3] == h[..3] == [h[0], h[1], h[2]];
    assert w[..3][0] == w[0];
  }

  // A call that ends inside a tag's size field has sent the tag, and returns its size less the bytes that are missing.
  lemma CutSizeField(tags: seq<Tag>, o: nat, k: nat, streamId: i32, size: nat, c: seq<byte>)
    requires Publishable(tags) && tags != [] && (o == 0 || 11 < o < 11 + |tags[0].data|) && k < 4
    requires o < 11 + |tags[0].data| + k && (tags[0].data == [] ==> k > 0)
    requires c == TagsBytes(tags)[o..11 + |tags[0].data| + k] && size == |c|
    ensures Feed(Underway(tags, o), streamId, size, c)
         == Fed([MessageOf(tags[0], streamId)], None, size - (4 - k))
  {
    hide Feed, FeedBody, OnTag, Underway;
    var t := tags[0];
    var (f, d) := OnTag(t, o);
    var h := if o == 0 then t.Header() else [];
    var rest := Be32(t.prev) + TagsBytes(tags[1..]);
    TagFrom(tags, o);
    var l := 11 + |t.data| + k - o;
    assert TagsBytes(tags)[o..11 + |t.data| + k] == TagsBytes(tags)[o..][..l];
    TakePrefix(h, d + rest, l);
    TakePrefix(d, rest, l - |h|);
    var p := rest[..k];
    assert c == h + (d + p);
    FeedOnTag(tags, o, streamId, size, d + p);
    FeedCut(f, streamId, size, d, p);
    OnTagSends(t, o, streamId);
  }

  lemma FeedCut(f: Filling, streamId: i32, size: nat, d: seq<byte>, p: seq<byte>)
    requires f.total == |f.got| + |d| && |p| < 4
    ensures FeedBody(f, streamId, size, d + p) == Fed([SendOf(f, streamId, f.got + d)], None, size + |p| - 4)
  {
    SplitAt(d, p);
  }
}
