// FLV tags, and the repair of an aggregate packet: a list of FLV tags whose times and trailing sizes are put right
// in place (librtmp/rtmp.c, Read_1_Packet).
module Flv {
  import opened Buffer
  import opened Bytes

  const AUDIO: byte := 0x08
  const VIDEO: byte := 0x09
  const INFO: byte := 0x12
  const FLASH_VIDEO: byte := 0x16

  // The low 24 bits of a time, most significant first, then its top byte.
  function TimeBytes(t: u32): (s: seq<byte>)
    ensures |s| == 4
  {
    Be24(t) + [t / B24]
  }

  function TimeOf(s: seq<byte>): u32
    requires |s| >= 4
  {
    FromBe24(s) + s[3] as int * B24
  }

  lemma TimeRoundTrip(t: u32)
    ensures TimeOf(TimeBytes(t)) == t
  {
    Be24RoundTrip(t);
    assert TimeBytes(t)[..3] == Be24(t);
  }

  lemma TimeKept(s: seq<byte>)
    requires |s| == 4
    ensures TimeBytes(TimeOf(s)) == s
  {
    var a, b, c, d := s[0] as int, s[1] as int, s[2] as int, s[3] as int;
    var t := TimeOf(s);
    QuotientIs(t, B24, d, a * 0x1_0000 + b * 0x100 + c);
    QuotientIs(t, 0x1_0000, d * 0x100 + a, b * 0x100 + c);
    QuotientIs(t, 0x100, d * 0x1_0000 + a * 0x100 + b, c);
    assert TimeBytes(t) == [a, b, c, d];
  }

  lemma Be32Kept(s: seq<byte>)
    requires |s| == 4
    ensures Be32(FromBe32(s)) == s
  {
    var a, b, c, d := s[0] as int, s[1] as int, s[2] as int, s[3] as int;
    var x := FromBe32(s);
    QuotientIs(x, B24, a, b * 0x1_0000 + c * 0x100 + d);
    QuotientIs(x, 0x1_0000, a * 0x100 + b, c * 0x100 + d);
    QuotientIs(x, 0x100, a * 0x1_0000 + b * 0x100 + c, d);
    assert Be32(x) == [a, b, c, d];
  }

  // prev is the size field behind the tag.
  datatype Tag = Tag(tagType: byte, time: u32, streamId: nat, data: seq<byte>, prev: u32) {
    // The fields fit the header, and the tag its own size field.
    predicate Valid() {
      streamId < B24 && |data| < B24
    }

    function Header(): (s: seq<byte>)
      ensures |s| == 11
    {
      [tagType] + Be24(|data|) + TimeBytes(time) + Be24(streamId)
    }

    function Bytes(): seq<byte> {
      Header() + data + Be32(prev)
    }

    // This tag with its time moved and its trailing size put right.
    function Repaired(delta: u32): Tag {
      this.(time := Wrap(time + delta), prev := Wrap(|data| + 11))
    }
  }

  function TagsBytes(tags: seq<Tag>): seq<byte> {
    if tags == [] then [] else tags[0].Bytes() + TagsBytes(tags[1..])
  }

  lemma OneTagLong(t: Tag)
    ensures |t.Bytes()| == 15 + |t.data|
  {
  }

  lemma OneTagBytes(t: Tag)
    ensures TagsBytes([t]) == t.Bytes()
  {
    assert t.Bytes() + [] == t.Bytes();
  }

  lemma {:induction false} TagsBytesConcat(a: seq<Tag>, b: seq<Tag>)
    ensures TagsBytes(a + b) == TagsBytes(a) + TagsBytes(b)
    decreases |a|
  {
    hide Tag.Bytes;
    if a == [] {
      assert a + b == b;
    } else {
      assert (a + b)[0] == a[0] && (a + b)[1..] == a[1..] + b;
      TagsBytesConcat(a[1..], b);
    }
  }

  function DataSize(s: seq<byte>): nat
    requires |s| > 11
    ensures DataSize(s) < B24
  {
    FromBe24(s[1..])
  }

  // The header at the front of s, its time moved.
  function MovedHead(s: seq<byte>, delta: u32): (h: seq<byte>)
    requires |s| >= 11
    ensures |h| == 11
  {
    s[..4] + TimeBytes(Wrap(TimeOf(s[4..]) + delta)) + s[8..11]
  }

  // What the repair loop makes of the bytes s at and behind some tag. stale is what the output buffer holds in the four
  // bytes behind the packet: it shows when a truncated size field is replaced.
  function Repair(s: seq<byte>, delta: u32, stale: seq<byte>): (r: seq<byte>)
    requires |stale| == 4
    ensures |r| == |s| || |r| == |s| + 4
    decreases |s|
  {
    if |s| <= 11 then s
    else
      var d := DataSize(s);
      var head := MovedHead(s, delta);
      if 11 + d > |s| then head + s[11..]
      else
        var tag := head + s[11..11 + d] + Be32(d + 11);
        if 15 + d > |s| then tag + stale[15 + d - |s|..]
        else tag + Repair(s[15 + d..], delta, stale)
  }

  // What the loop learns on the way: the last tag's time, and which kinds of tag there were.
  datatype Seen = Seen(time: u32, audio: bool, video: bool)

  function Look(s: seq<byte>, delta: u32, seen: Seen): Seen
    decreases |s|
  {
    if |s| <= 11 then seen
    else
      var d := DataSize(s);
      var seen' := Seen(Wrap(TimeOf(s[4..]) + delta), seen.audio || s[0] == AUDIO, seen.video || s[0] == VIDEO);
      if 15 + d > |s| then seen' else Look(s[15 + d..], delta, seen')
  }

  // ---------- Lists of tags ----------

  // A list of tags; the last one may come without its size field if it has data.
  function Aggregate(tags: seq<Tag>, bare: bool): (s: seq<byte>)
    requires bare ==> tags != [] && tags[|tags| - 1].data != []
    decreases |tags|
  {
    if tags == [] then []
    else if bare && |tags| == 1 then tags[0].Header() + tags[0].data
    else tags[0].Bytes() + Aggregate(tags[1..], bare)
  }

  function RepairedTags(tags: seq<Tag>, delta: u32): (r: seq<Tag>)
    ensures |r| == |tags|
    ensures forall i | 0 <= i < |tags| :: r[i] == tags[i].Repaired(delta)
  {
    if tags == [] then [] else [tags[0].Repaired(delta)] + RepairedTags(tags[1..], delta)
  }

  lemma HeaderParts(t: Tag, rest: seq<byte>)
    requires t.Valid() && |rest| > 0
    ensures var s := t.Header() + rest;
      && DataSize(s) == |t.data| && s[0] == t.tagType && TimeOf(s[4..]) == t.time
      && s[..4] == [t.tagType] + Be24(|t.data|) && s[8..11] == Be24(t.streamId)
      && s[11..] == rest
  {
    var s := t.Header() + rest;
    Be24RoundTrip(|t.data|);
    assert s[1..4] == Be24(|t.data|);
    assert s[4..8] == TimeBytes(t.time);
    TimeRoundTrip(t.time);
    assert s[4..][..4] == s[4..8];
  }

  lemma HeadMoved(t: Tag, rest: seq<byte>, delta: u32)
    requires t.Valid() && |rest| > 0
    ensures DataSize(t.Header() + rest) == |t.data|
    ensures MovedHead(t.Header() + rest, delta) == t.Repaired(delta).Header()
    ensures (t.Header() + rest)[11..] == rest
  {
    HeaderParts(t, rest);
  }

  // One unfolding of Repair, for a header h, data and, unless it is the bare end, a size field p.
  lemma RepairStep(h: seq<byte>, data: seq<byte>, p: seq<byte>, rest: seq<byte>, delta: u32, stale: seq<byte>)
    requires |h| == 11 && |p| == 4 && |stale| == 4
    requires DataSize(h + (data + (p + rest))) == |data|
    ensures Repair(h + (data + (p + rest)), delta, stale)
         == MovedHead(h + (data + (p + rest)), delta) + data + Be32(|data| + 11) + Repair(rest, delta, stale)
  {
    hide MovedHead, DataSize;
    var s := h + (data + (p + rest));
    SplitAt(h, data + (p + rest));
    SplitAt(data, p + rest);
    SplitAt(p, rest);
    SliceOfSlice(s, 11, 11 + |data|, |s|);
    assert s[11..] == s[11..|s|];
    assert s[15 + |data|..] == s[11..][|data|..][4..];
  }

  lemma RepairBare(h: seq<byte>, data: seq<byte>, delta: u32, stale: seq<byte>)
    requires |h| == 11 && data != [] && |stale| == 4 && DataSize(h + data) == |data|
    ensures Repair(h + data, delta, stale) == MovedHead(h + data, delta) + data + Be32(|data| + 11)
  {
    hide MovedHead, DataSize;
    var s := h + data;
    SplitAt(h, data);
    assert s[11..11 + |data|] == s[11..];
    assert stale[4..] == [];
    var tag := MovedHead(s, delta) + data + Be32(|data| + 11);
    assert tag + [] == tag;
  }

  lemma Regroup4(a: seq<byte>, b: seq<byte>, c: seq<byte>, d: seq<byte>)
    ensures a + b + c + d == a + (b + (c + d))
  {
  }

  lemma RepairOne(t: Tag, rest: seq<byte>, delta: u32, stale: seq<byte>)
    requires t.Valid() && |stale| == 4
    ensures Repair(t.Bytes() + rest, delta, stale) == t.Repaired(delta).Bytes() + Repair(rest, delta, stale)
  {
    hide MovedHead, DataSize, Repair, Tag.Header;
    var tail := t.data + (Be32(t.prev) + rest);
    Regroup4(t.Header(), t.data, Be32(t.prev), rest);
    HeadMoved(t, tail, delta);
    RepairStep(t.Header(), t.data, Be32(t.prev), rest, delta, stale);
  }

  lemma RepairLast(t: Tag, delta: u32, stale: seq<byte>)
    requires t.Valid() && t.data != [] && |stale| == 4
    ensures Repair(t.Header() + t.data, delta, stale) == t.Repaired(delta).Bytes()
  {
    hide MovedHead, DataSize, Repair, Tag.Header;
    HeadMoved(t, t.data, delta);
    RepairBare(t.Header(), t.data, delta, stale);
  }

  // Repair gives back the same tags, every time moved by the same amount and every size field right; the missing last
  // one is supplied.
  lemma {:induction false} RepairAggregate(tags: seq<Tag>, bare: bool, delta: u32, stale: seq<byte>)
    requires bare ==> tags != [] && tags[|tags| - 1].data != []
    requires |stale| == 4 && forall t | t in tags :: t.Valid()
    ensures Repair(Aggregate(tags, bare), delta, stale) == TagsBytes(RepairedTags(tags, delta))
    decreases |tags|
  {
    if tags != [] {
      var t := tags[0];
      if bare && |tags| == 1 {
        RepairLast(t, delta, stale);
        assert TagsBytes(RepairedTags(tags, delta)[1..]) == [];
      } else {
        assert tags[1..] != [] ==> tags[1..][|tags| - 2] == tags[|tags| - 1];
        RepairOne(t, Aggregate(tags[1..], bare), delta, stale);
        RepairAggregate(tags[1..], bare, delta, stale);
        assert RepairedTags(tags, delta)[1..] == RepairedTags(tags[1..], delta);
      }
    }
  }
}
