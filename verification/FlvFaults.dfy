// Files the checker does not accept (FlvCheck.cpp, ParseBody and ParseBodyTag): where it stops, and with which code.
module FlvFaults {
  import opened Bytes
  import opened Flv
  import opened FlvParse

  // Behind acceptable tags the parser goes on as it would without them.
  lemma {:induction false} ParsedBehind(tags: seq<Tag>, files: seq<seq<byte>>, w: seq<byte>)
    requires AllAccepted(tags, files)
    ensures var r := ParseTags(w);
      ParseTags(TagsBytes(tags) + w) ==
      if r.PastEnd? then PastEnd
      else Parsed(r.code, AllListed(tags) + r.tags, |TagsBytes(tags)| + r.used, Joined(files) + r.file)
    decreases |tags|
  {
    hide Tag.Bytes, Accepted, Listed, ParseTags;
    if tags == [] {
      assert [] + w == w;
      var r := ParseTags(w);
      assert r.Parsed? ==> AllListed([]) + r.tags == r.tags && Joined([]) + r.file == r.file;
    } else {
      var more := TagsBytes(tags[1..]) + w;
      Regroup(tags[0].Bytes(), TagsBytes(tags[1..]), w);
      OneParsed(tags[0], files[0], more);
      OneTagLong(tags[0]);
      ParsedBehind(tags[1..], files[1..], w);
      BehindOne(tags, files, ParseTags(w));
    }
  }

  lemma BehindOne(tags: seq<Tag>, files: seq<seq<byte>>, r: Parsed)
    requires tags != [] && |files| == |tags|
    ensures r.Parsed? ==>
      && [Listed(tags[0])] + (AllListed(tags[1..]) + r.tags) == AllListed(tags) + r.tags
      && files[0] + (Joined(files[1..]) + r.file) == Joined(files) + r.file
  {
    hide Listed;
  }

  // A tag that is neither audio, video nor script data, by the low five bits of its type, is not listed.
  lemma UnknownStops(w: seq<byte>)
    requires |w| > 11 && w[0] % 32 != 8 && w[0] % 32 != 9 && w[0] % 32 != 18
    ensures ParseTags(w) == Parsed(UnknownTag, [], 11, [])
  {
  }

  // An audio or video tag that is cut off inside its data is listed, and stops the parser.
  lemma CutStops(t: Tag, k: nat)
    requires t.Valid() && (t.tagType == 0x08 || t.tagType == 0x09) && 0 < k < |t.data|
    ensures ParseTags(t.Header() + t.data[..k]) == Parsed(UnknownTag, [Listed(t)], 11, [])
  {
    hide Tag.Header, TagIn, DataSize, Listed;
    HeaderListed(t, t.data[..k]);
  }

  // So is one with a wrong size field behind it; its data has gone to the file.
  lemma WrongSizeStops(t: Tag, file: seq<byte>, rest: seq<byte>)
    requires t.Valid() && (t.tagType == 0x08 || t.tagType == 0x09) && t.prev != |t.data| + 11
    requires Accepted(t.(prev := |t.data| + 11), file)
    ensures ParseTags(t.Bytes() + rest) == Parsed(TagSizeMismatch, [Listed(t)], 11 + |t.data|, file)
  {
    hide Tag.Header, TagIn, DataSize, ParseData, Accepted, Listed;
    var right := t.(prev := |t.data| + 11);
    AcceptedFits(right, file);
    var v := Be32(t.prev) + rest;
    Regroup4(t.Header(), t.data, Be32(t.prev), rest);
    HeaderListed(t, t.data + v);
    DataAccepted(right, file, v);
    var w := t.Header() + (t.data + v);
    SplitAt(t.data, v);
    assert w[11 + |t.data|..] == w[11..][|t.data|..] == v;
    PrevIs(t.prev, rest);
  }

  // And a video tag of frame type 5 that is not six bytes long.
  lemma WrongInfoStops(t: Tag, rest: seq<byte>)
    requires t.Valid() && t.tagType == 0x09 && |t.data| >= 5 && t.data[0] / 16 == 5 && |t.data| != 6
    ensures ParseTags(t.Bytes() + rest) == Parsed(VideoTagSizeMismatch, [Listed(t)], 11, [])
  {
    hide Tag.Header, TagIn, DataSize, Listed;
    Regroup4(t.Header(), t.data, Be32(t.prev), rest);
    HeaderListed(t, t.data + (Be32(t.prev) + rest));
  }

  // Tags that are neither plain audio nor plain video are listed and passed over, whatever is in and behind them.
  lemma OthersPass(t: Tag, rest: seq<byte>)
    requires t.Valid() && t.tagType != 0x08 && t.tagType != 0x09
    requires t.tagType % 32 == 8 || t.tagType % 32 == 9 || t.tagType % 32 == 18
    ensures var r := ParseTags(rest);
      ParseTags(t.Bytes() + rest)
      == if r.PastEnd? then PastEnd else Parsed(r.code, [Listed(t)] + r.tags, 15 + |t.data| + r.used, r.file)
  {
    hide Tag.Header, TagIn, DataSize, Listed;
    var v := Be32(t.prev) + rest;
    Regroup4(t.Header(), t.data, Be32(t.prev), rest);
    HeaderListed(t, t.data + v);
    var w := t.Header() + (t.data + v);
    SplitAt(t.data, v);
    SplitAt(Be32(t.prev), rest);
    assert w[15 + |t.data|..] == w[11..][|t.data|..][4..];
    var r := ParseTags(rest);
    assert r.Parsed? ==> [] + r.file == r.file;
  }

  // Fewer than twelve bytes are the end of the file.
  lemma ShortEnds(w: seq<byte>)
    requires |w| <= 11
    ensures ParseTags(w) == Parsed(StreamOk, [], 0, [])
  {
  }
}
