// From RTMP_Write to RTMP_Read: FLV tags published on one side come out as the same FLV tags on the other
// (librtmp/rtmp.c).
module PublishPlay {
  import opened Bytes
  import Chunk
  import opened ChunkReader
  import opened ChunkSession
  import opened Flv
  import opened FlvPlayer
  import opened FlvRead
  import opened Interleave
  import opened Publish
  import opened Publisher
  import opened Session

  const EMPTY := Table(map[], map[])

  // ---------- RTMP_Write in pieces ----------

  // The pieces are the tags' bytes from position pos on, each ending between two tags or strictly inside a tag's data.
  predicate Pieces(tags: seq<Tag>, pos: nat, pieces: seq<seq<byte>>)
    decreases |pieces|
  {
    if pieces == [] then pos == |TagsBytes(tags)|
    else
      var next := pos + |pieces[0]|;
      && next <= |TagsBytes(tags)| && pieces[0] == TagsBytes(tags)[pos..][..|pieces[0]|]
      && GoodCut(tags, next) && Pieces(tags, next, pieces[1..])
  }

  // A good cut k splits the bytes, and the later cuts, into those of the tags before and those of the tags behind it.
  lemma {:induction false} CutShift(tags: seq<Tag>, k: nat, next: nat)
    requires GoodCut(tags, k) && k <= next <= |TagsBytes(tags)| && GoodCut(tags, next)
    ensures var n, i := Whole(tags, k), Into(tags, k);
      && n <= |tags| && i <= |TagsBytes(tags[n..])| && TagsBytes(tags)[k..] == TagsBytes(tags[n..])[i..]
      && (i == 0 || (n < |tags| && 11 < i < 11 + |tags[n].data|))
      && GoodCut(tags[n..], i + next - k)
      && Whole(tags, next) == n + Whole(tags[n..], i + next - k) && Into(tags, next) == Into(tags[n..], i + next - k)
    decreases |tags|
  {
    hide *;
    if k == 0 || (tags != [] && k < 15 + |tags[0].data|) {
      CutHere(tags, k);
      CutParts(tags, k);
    } else {
      CutLater(tags, k);
      CutLater(tags, next);
      var d := 15 + |tags[0].data|;
      TagsDrop(tags, d);
      CutShift(tags[1..], k - d, next - d);
      var n := Whole(tags[1..], k - d);
      assert tags[1..][n..] == tags[n + 1..];
      assert TagsBytes(tags)[k..] == TagsBytes(tags)[d..][k - d..];
    }
  }

  lemma TagsDrop(tags: seq<Tag>, d: nat)
    requires tags != [] && d == 15 + |tags[0].data|
    ensures d + |TagsBytes(tags[1..])| == |TagsBytes(tags)| && TagsBytes(tags)[d..] == TagsBytes(tags[1..])
  {
    hide Tag.Bytes;
    OneTagLong(tags[0]);
  }

  lemma MessagesSplit(tags: seq<Tag>, a: nat, b: nat, streamId: i32)
    requires a + b <= |tags|
    ensures MessagesOf(tags[..a + b], streamId) == MessagesOf(tags[..a], streamId) + MessagesOf(tags[a..][..b], streamId)
  {
  }

  // The sender's state when the call that ends at position pos returns.
  ghost predicate UpTo(p: Publisher, tags: seq<Tag>, pos: nat)
    reads p, p.pkt, p.pkt.body, p.writer
    requires p.Valid() && GoodCut(tags, pos)
  {
    var n, i := Whole(tags, pos), Into(tags, pos);
    && n <= |tags| && (i == 0 || (n < |tags| && 11 < i < 11 + |tags[n].data|))
    && p.State() == Underway(tags[n..], i)
  }

  lemma SentIs(p: Publisher, writes: seq<seq<byte>>, prev: Option<Chunk.Last>, sent: seq<Send>)
    requires p.writer.outChunkSize > 0
    ensures p.Sent(writes, prev, sent) <==>
            && p.writer.writes == writes + SendAll(prev, sent, p.writer.outChunkSize)
            && p.writer.Previous(SOURCE_CHANNEL) == LastAfter(prev, sent)
  {
  }

  lemma SentMore(p: Publisher, writes: seq<seq<byte>>, prev: Option<Chunk.Last>, a: seq<Send>, b: seq<Send>)
    requires p.writer.outChunkSize > 0
    requires p.Sent(writes + SendAll(prev, a, p.writer.outChunkSize), LastAfter(prev, a), b)
    ensures p.Sent(writes, prev, a + b)
  {
    hide SendAll, LastAfter;
    SendAllConcat(prev, a, b, p.writer.outChunkSize);
  }

  // One call.
  method WritePiece(p: Publisher, ghost tags: seq<Tag>, ghost pos: nat, piece: seq<byte>, ghost writes: seq<seq<byte>>,
                    ghost prev: Option<Chunk.Last>) returns (ret: int)
    requires p.Valid() && Publishable(tags) && GoodCut(tags, pos) && UpTo(p, tags, pos)
    requires pos + |piece| <= |TagsBytes(tags)| && piece == TagsBytes(tags)[pos..][..|piece|]
    requires GoodCut(tags, pos + |piece|)
    requires p.Sent(writes, prev, MessagesOf(tags[..Whole(tags, pos)], p.streamId))
    modifies p, p.pkt, p.writer, p.pkt.body
    ensures p.Valid() && (p.pkt.body == null || p.pkt.body == old(p.pkt.body) || fresh(p.pkt.body))
    ensures p.writer.outChunkSize == old(p.writer.outChunkSize)
    ensures ret == |piece| && UpTo(p, tags, pos + |piece|)
    ensures p.Sent(writes, prev, MessagesOf(tags[..Whole(tags, pos + |piece|)], p.streamId))
  {
    hide Feed, Underway, TagsBytes, SendAll, LastAfter, MessagesOf, GoodCut, Whole, Into, Publisher.Filled, Publisher.Sent;
    ghost var n, i, l := Whole(tags, pos), Into(tags, pos), |piece|;
    CutShift(tags, pos, pos + l);
    FeedTags(tags[n..], i, l, p.streamId, l, piece);
    CutParts(tags, pos + l);
    ghost var k := Whole(tags[n..], i + l);
    ghost var sent;
    SentIs(p, writes, prev, MessagesOf(tags[..n], p.streamId));
    ret, sent := p.Write(piece);
    MessagesSplit(tags, n, k, p.streamId);
    SentMore(p, writes, prev, MessagesOf(tags[..n], p.streamId), sent);
    assert tags[n..][k..] == tags[n + k..];
  }

  // Any number of calls that end between tags or strictly inside a tag's data: the writer is given exactly one message
  // for each tag, in order, and every call takes all its bytes.
  method WriteAll(p: Publisher, ghost tags: seq<Tag>, pieces: seq<seq<byte>>) returns (rets: seq<int>)
    requires p.Valid() && p.State() == None && Publishable(tags) && Pieces(tags, 0, pieces)
    modifies p, p.pkt, p.writer, p.pkt.body
    ensures p.Valid() && p.State() == None && p.writer.outChunkSize == old(p.writer.outChunkSize)
    ensures |rets| == |pieces| && forall i | 0 <= i < |rets| :: rets[i] == |pieces[i]|
    ensures p.Sent(old(p.writer.writes), old(p.writer.Previous(SOURCE_CHANNEL)), MessagesOf(tags, p.streamId))
  {
    hide Feed, Underway, TagsBytes, SendAll, LastAfter, MessagesOf, GoodCut, Whole, Into, Publisher.Filled;
    ghost var writes, prev := p.writer.writes, p.writer.Previous(SOURCE_CHANNEL);
    ghost var pos: nat := 0;
    rets := [];
    WholeNone(tags, p.streamId);
    NothingSent(writes, prev, p.writer.outChunkSize);
    assert pieces[0..] == pieces;
    for i := 0 to |pieces|
      invariant p.Valid() && p.writer.outChunkSize == old(p.writer.outChunkSize)
      invariant (p.pkt.body == null || p.pkt.body == old(p.pkt.body) || fresh(p.pkt.body))
      invariant GoodCut(tags, pos) && UpTo(p, tags, pos) && Pieces(tags, pos, pieces[i..])
      invariant |rets| == i && forall j | 0 <= j < i :: rets[j] == |pieces[j]|
      invariant p.Sent(writes, prev, MessagesOf(tags[..Whole(tags, pos)], p.streamId))
    {
      assert pieces[i..][0] == pieces[i] && pieces[i..][1..] == pieces[i + 1..];
      var ret := WritePiece(p, tags, pos, pieces[i], writes, prev);
      rets := rets + [ret];
      pos := pos + |pieces[i]|;
    }
    WholeAll(tags, pos);
    assert tags[..|tags|] == tags;
  }

  lemma WholeNone(tags: seq<Tag>, streamId: i32)
    ensures GoodCut(tags, 0) && Whole(tags, 0) == 0 && Into(tags, 0) == 0
    ensures Underway(tags[0..], 0) == None && MessagesOf(tags[..0], streamId) == []
  {
  }

  lemma {:induction false} WholeAll(tags: seq<Tag>, k: nat)
    requires GoodCut(tags, k) && k == |TagsBytes(tags)|
    ensures Whole(tags, k) == |tags| && Into(tags, k) == 0
    ensures Underway(tags[|tags|..], 0) == None
    decreases |tags|
  {
    hide Tag.Bytes;
    if tags != [] {
      OneTagLong(tags[0]);
      WholeAll(tags[1..], k - 15 - |tags[0].data|);
    }
  }
}
