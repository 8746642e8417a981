// The checker's parser over a buffer (FlvCheck.cpp, ParseBody and ParseBodyTag): FLV tags are listed, and AVC video tags
// become Annex B units in a file (section E.4.1 of the Adobe Flash Video File Format Specification 10.1; section B.1 of
// ITU-T H.264). Chunk streams played by FlvRead pass it.
module FlvParse {
  import opened Bytes
  import opened ChunkReader
  import opened Flv
  import opened FlvRead

  datatype Code = StreamOk | FileNotExist | DataBufferNull | UnknownTag | TagSizeMismatch | VideoTagSizeMismatch

  // FLV_TAG; three-byte fields are kept least significant byte first.
  type Three = s: seq<byte> | |s| == 3 witness [0, 0, 0]

  datatype FlvTag = FlvTag(tagType: byte, dataSize: Three, timestamp: Three, timestampExt: byte, streamId: Three)

  const START_CODE: seq<byte> := [0, 0, 0, 1]

  function Swapped(s: Three): Three {
    [s[2], s[1], s[0]]
  }

  function FromLe24(s: Three): (x: nat)
    ensures x < B24
  {
    s[0] as int + s[1] as int * 0x100 + s[2] as int * 0x1_0000
  }

  // The 11 bytes of a tag's header.
  function TagIn(h: seq<byte>): FlvTag
    requires |h| >= 11
  {
    FlvTag(h[0], Swapped(h[1..4]), Swapped(h[4..7]), h[7], Swapped(h[8..11]))
  }

  // ---------- One tag's data ----------

  // What goes to the file. Overrun where the parser would read past the end of its buffer.
  datatype Data = Overrun | Data(code: Code, file: seq<byte>)

  // Length-prefixed units, while fewer bytes than the tag's size have been counted; left may end up below 0.
  function Units(w: seq<byte>, left: int): (r: Data)
    ensures r.Data? ==> r.code == StreamOk
    decreases |w|
  {
    if left <= 0 then Data(StreamOk, [])
    else if |w| < 4 then Overrun
    else
      var k: nat := FromBe32(w);
      if |w| < 4 + k then Overrun
      else
        var r := Units(w[4 + k..], left - 4 - k);
        if r.Overrun? then Overrun else Data(StreamOk, START_CODE + w[4..4 + k] + r.file)
  }

  // The decoder configuration: one parameter set of each kind.
  function Sets(w: seq<byte>): Data {
    if |w| < 8 then Overrun
    else
      var a := FromBe16(w[6..]);
      if |w| < 8 + a + 3 then Overrun
      else
        var b := FromBe16(w[9 + a..]);
        if |w| < 11 + a + b then Overrun
        else Data(StreamOk, START_CODE + w[8..8 + a] + START_CODE + w[11 + a..11 + a + b])
  }

  // ParseBodyTag, on the buffer from the tag's data on.
  function ParseData(w: seq<byte>, tagType: byte, size: nat): Data {
    if w == [] then Data(DataBufferNull, [])
    else if |w| < size then Data(UnknownTag, [])
    else if tagType != VIDEO then Data(StreamOk, [])
    else if |w| < 5 then Overrun
    else
      var frameType, codec := w[0] / 16, w[0] % 16;
      if frameType == 5 then
        if |w| < 6 then Overrun else Data(if size != 6 then VideoTagSizeMismatch else StreamOk, [])
      else if codec != 7 then Data(StreamOk, [])
      else if w[1] == 0 then Sets(w[5..])
      else Units(w[5..], size - 5)
  }

  // ---------- The list of tags ----------

  // The result code, the tags listed, the bytes passed and what went to the file.
  datatype Parsed = PastEnd | Parsed(code: Code, tags: seq<FlvTag>, used: nat, file: seq<byte>)

  function After(t: FlvTag, n: nat, file: seq<byte>, r: Parsed): Parsed {
    if r.PastEnd? then PastEnd else Parsed(r.code, [t] + r.tags, n + r.used, file + r.file)
  }

  predicate KnownType(x: byte) {
    x % 0x20 == AUDIO || x % 0x20 == VIDEO || x % 0x20 == INFO
  }

  // The loop of ParseBody, from a tag's first byte on. Tags that are neither audio nor video are passed over unchecked.
  function ParseTags(w: seq<byte>): Parsed
    decreases |w|
  {
    if |w| <= 11 then Parsed(StreamOk, [], 0, [])
    else
      var t, d := TagIn(w), DataSize(w);
      if !KnownType(w[0]) then Parsed(UnknownTag, [], 11, [])
      else if w[0] != AUDIO && w[0] != VIDEO then
        After(t, 15 + d, [], ParseTags(if 15 + d <= |w| then w[15 + d..] else []))
      else
        var x := ParseData(w[11..], w[0], d);
        if x.Overrun? then PastEnd
        else if x.code != StreamOk then Parsed(x.code, [t], 11, x.file)
        else if |w| < 15 + d then PastEnd
        else if FromBe32(w[11 + d..]) != d + 11 then Parsed(TagSizeMismatch, [t], 11 + d, x.file)
        else After(t, 15 + d, x.file, ParseTags(w[15 + d..]))
  }

  // ---------- Tags that pass ----------

  // Length-prefixed units.
  function Prefixed(units: seq<seq<byte>>): seq<byte> {
    if units == [] then [] else Be32(|units[0]|) + units[0] + Prefixed(units[1..])
  }

  function AnnexB(units: seq<seq<byte>>): seq<byte> {
    if units == [] then [] else START_CODE + units[0] + AnnexB(units[1..])
  }

  predicate UnitsFit(units: seq<seq<byte>>) {
    forall u | u in units :: |u| < B32
  }

  // A tag the checker accepts, and what it adds to the file.
  predicate Accepted(t: Tag, file: seq<byte>) {
    && t.Valid() && t.prev == |t.data| + 11
    && if t.tagType == VIDEO then
         && |t.data| >= 5
         && var frameType, codec := t.data[0] / 16, t.data[0] % 16;
         && if frameType == 5 then |t.data| == 6 && file == []
            else if codec != 7 then file == []
            else if t.data[1] == 0 then Sets(t.data[5..]) == Data(StreamOk, file)
            else Units(t.data[5..], |t.data| - 5) == Data(StreamOk, file)
       else (t.tagType == AUDIO || t.tagType == INFO) && file == []
  }

  predicate AllAccepted(tags: seq<Tag>, files: seq<seq<byte>>) {
    |files| == |tags| && forall i | 0 <= i < |tags| :: Accepted(tags[i], files[i])
  }

  lemma UnitsStep(w: seq<byte>, left: int, k: nat)
    requires left > 0 && |w| >= 4 && k == FromBe32(w) && |w| >= 4 + k
    ensures Units(w, left) ==
            var r := Units(w[4 + k..], left - 4 - k);
            if r.Overrun? then Overrun else Data(StreamOk, START_CODE + w[4..4 + k] + r.file)
  {
  }

  lemma UnitsRoom(w: seq<byte>, left: int)
    requires Units(w, left).Data? && left > 0
    ensures |w| >= 4 && FromBe32(w) + 4 <= |w|
  {
  }

  // More bytes behind do not matter.
  lemma {:induction false} UnitsMore(w: seq<byte>, left: int, v: seq<byte>)
    requires Units(w, left).Data?
    ensures Units(w + v, left) == Units(w, left)
    decreases |w|
  {
    if left > 0 {
      hide Units, FromBe32;
      UnitsRoom(w, left);
      FromBe32More(w, v);
      var k: nat := FromBe32(w);
      UnitsStep(w, left, k);
      UnitsStep(w + v, left, k);
      assert (w + v)[4 + k..] == w[4 + k..] + v && (w + v)[4..4 + k] == w[4..4 + k];
      UnitsMore(w[4 + k..], left - 4 - k, v);
    }
  }

  lemma SetsMore(w: seq<byte>, v: seq<byte>)
    requires Sets(w).Data?
    ensures Sets(w + v) == Sets(w)
  {
    var a := FromBe16(w[6..]);
    FrontSame(w, v, 6);
    FrontSame(w, v, 9 + a);
    var b := FromBe16(w[9 + a..]);
    assert (w + v)[8..8 + a] == w[8..8 + a] && (w + v)[11 + a..11 + a + b] == w[11 + a..11 + a + b];
  }

  lemma FrontSame(w: seq<byte>, v: seq<byte>, i: nat)
    requires i + 2 <= |w|
    ensures FromBe16((w + v)[i..]) == FromBe16(w[i..])
  {
  }

  lemma DataAccepted(t: Tag, file: seq<byte>, v: seq<byte>)
    requires Accepted(t, file) && |v| >= 4
    ensures ParseData(t.data + v, t.tagType, |t.data|) == Data(StreamOk, file)
  {
    hide Units, Sets;
    if t.tagType == VIDEO {
      assert (t.data + v)[5..] == t.data[5..] + v;
      var frameType, codec := t.data[0] / 16, t.data[0] % 16;
      if frameType != 5 && codec == 7 {
        if t.data[1] == 0 {
          SetsMore(t.data[5..], v);
        } else {
          UnitsMore(t.data[5..], |t.data| - 5, v);
        }
      }
    }
  }

  // A listed tag.
  function Listed(t: Tag): FlvTag {
    TagIn(t.Header())
  }

  function AllListed(tags: seq<Tag>): (r: seq<FlvTag>)
    ensures |r| == |tags| && forall i | 0 <= i < |tags| :: r[i] == Listed(tags[i])
  {
    if tags == [] then [] else [Listed(tags[0])] + AllListed(tags[1..])
  }

  lemma HeaderListed(t: Tag, rest: seq<byte>)
    requires t.Valid() && |rest| > 0
    ensures var w := t.Header() + rest;
      TagIn(w) == Listed(t) && DataSize(w) == |t.data| && w[0] == t.tagType && w[11..] == rest
  {
    HeaderParts(t, rest);
    var w, h := t.Header() + rest, t.Header();
    assert w[1..4] == h[1..4] && w[4..7] == h[4..7] && w[8..11] == h[8..11] && w[7] == h[7];
  }

  lemma OneParsed(t: Tag, file: seq<byte>, rest: seq<byte>)
    requires Accepted(t, file)
    ensures ParseTags(t.Bytes() + rest) == After(Listed(t), 15 + |t.data|, file, ParseTags(rest))
  {
    hide Tag.Header, TagIn, DataSize, ParseData, Accepted;
    var v := Be32(t.prev) + rest;
    Regroup4(t.Header(), t.data, Be32(t.prev), rest);
    AcceptedFits(t, file);
    HeaderListed(t, t.data + v);
    DataAccepted(t, file, v);
    var w := t.Header() + (t.data + v);
    SplitAt(t.data, v);
    SplitAt(Be32(t.prev), rest);
    Be32RoundTrip(t.prev);
    assert w[11 + |t.data|..] == w[11..][|t.data|..] == v;
    assert w[15 + |t.data|..] == v[4..] == rest;
    PrevIs(t.prev, rest);
  }

  lemma PrevIs(x: u32, rest: seq<byte>)
    ensures FromBe32(Be32(x) + rest) == x
  {
    Be32RoundTrip(x);
  }

  lemma AcceptedFits(t: Tag, file: seq<byte>)
    requires Accepted(t, file)
    ensures t.Valid() && t.prev == |t.data| + 11 && KnownType(t.tagType)
    ensures t.tagType == AUDIO || t.tagType == VIDEO || (t.tagType == INFO && file == [])
  {
  }

  function Joined(files: seq<seq<byte>>): seq<byte> {
    if files == [] then [] else files[0] + Joined(files[1..])
  }

  // A list of acceptable tags is accepted whole: every tag is listed, every byte passed.
  lemma {:induction false} TagsParsed(tags: seq<Tag>, files: seq<seq<byte>>)
    requires AllAccepted(tags, files)
    ensures ParseTags(TagsBytes(tags)) == Parsed(StreamOk, AllListed(tags), |TagsBytes(tags)|, Joined(files))
    decreases |tags|
  {
    hide Tag.Bytes, Accepted, Listed, ParseTags;
    if tags == [] {
      NothingParsed();
    } else {
      OneParsed(tags[0], files[0], TagsBytes(tags[1..]));
      OneTagLong(tags[0]);
      TagsParsed(tags[1..], files[1..]);
    }
  }

  lemma NothingParsed()
    ensures ParseTags([]) == Parsed(StreamOk, [], 0, [])
  {
  }

  // Units that fill a tag come out as Annex B: start code and unit, one after the other, as many bytes as went in.
  lemma {:induction false} UnitsConvert(units: seq<seq<byte>>)
    requires UnitsFit(units)
    ensures Units(Prefixed(units), |Prefixed(units)|) == Data(StreamOk, AnnexB(units))
    ensures |AnnexB(units)| == |Prefixed(units)|
    decreases |units|
  {
    if units != [] {
      hide Units, FromBe32, Be32;
      var u, more := units[0], Prefixed(units[1..]);
      UnitsConvert(units[1..]);
      assert Prefixed(units) == Be32(|u|) + (u + more);
      UnitFirst(u, more, |Prefixed(units)|);
    }
  }

  lemma UnitFirst(u: seq<byte>, more: seq<byte>, left: int)
    requires |u| < B32 && left > 0 && Units(more, left - 4 - |u|).Data?
    ensures Units(Be32(|u|) + (u + more), left)
         == Data(StreamOk, START_CODE + u + Units(more, left - 4 - |u|).file)
  {
    hide Units, FromBe32, Be32;
    var w := Be32(|u|) + (u + more);
    PrevIs(|u|, u + more);
    SplitAt(Be32(|u|), u + more);
    assert w[4..4 + |u|] == w[4..][..|u|] == u;
    assert w[4 + |u|..] == w[4..][|u|..] == more;
    UnitsStep(w, left, |u|);
  }

  // ---------- Layouts ----------

  // What is in a tag as far as the checker looks: length-prefixed AVC units, AVC parameter sets, or anything else.
  datatype Content = Plain | AvcUnits(units: seq<seq<byte>>) | AvcConfig(sps: seq<byte>, pps: seq<byte>)

  // The decoder configuration behind its five header bytes: six bytes, the sequence parameter set, a count byte, the
  // picture parameter set, and whatever follows.
  predicate ConfigLaidOut(w: seq<byte>, sps: seq<byte>, pps: seq<byte>) {
    && |sps| < B16 && |pps| < B16
    && |w| >= 6 + (2 + |sps|) + 1 + (2 + |pps|)
    && w[6..8] == Be16(|sps|) && w[8..8 + |sps|] == sps
    && w[9 + |sps|..11 + |sps|] == Be16(|pps|) && w[11 + |sps|..11 + |sps| + |pps|] == pps
  }

  // A complete tag with such content. A video tag has its five header bytes.
  predicate LaidOut(t: Tag, c: Content) {
    && t.Valid() && t.prev == |t.data| + 11
    && if t.tagType != VIDEO then (t.tagType == AUDIO || t.tagType == INFO) && c.Plain?
       else
         && |t.data| >= 5
         && var frameType, codec := t.data[0] / 16, t.data[0] % 16;
         && match c
            case Plain => if frameType == 5 then |t.data| == 6 else codec != 7
            case AvcUnits(units) =>
              frameType != 5 && codec == 7 && t.data[1] != 0 && UnitsFit(units) && t.data[5..] == Prefixed(units)
            case AvcConfig(sps, pps) =>
              frameType != 5 && codec == 7 && t.data[1] == 0 && ConfigLaidOut(t.data[5..], sps, pps)
  }

  // What it adds to the file.
  function AnnexBOf(c: Content): seq<byte> {
    match c
    case Plain => []
    case AvcUnits(units) => AnnexB(units)
    case AvcConfig(sps, pps) => START_CODE + sps + START_CODE + pps
  }

  lemma Be16At(w: seq<byte>, i: nat, x: nat)
    requires i + 2 <= |w| && w[i..i + 2] == Be16(x) && x < B16
    ensures FromBe16(w[i..]) == x
  {
    Be16RoundTrip(x);
    assert w[i..][..2] == w[i..i + 2];
    assert w[i..][0] == w[i..i + 2][0] && w[i..][1] == w[i..i + 2][1];
  }

  lemma Be16Here(w: seq<byte>, i: nat)
    requires i + 2 <= |w|
    ensures w[i..i + 2] == Be16(FromBe16(w[i..]))
  {
    QuotientIs(FromBe16(w[i..]), 0x100, w[i], w[i + 1]);
  }

  // Parameter sets are read if and only if they are laid out so, and then they are what goes to the file.
  lemma SetsIff(w: seq<byte>, sps: seq<byte>, pps: seq<byte>)
    ensures ConfigLaidOut(w, sps, pps) ==> Sets(w) == Data(StreamOk, AnnexBOf(AvcConfig(sps, pps)))
    ensures Sets(w).Data? ==> exists a, b :: ConfigLaidOut(w, a, b)
  {
    if ConfigLaidOut(w, sps, pps) {
      Be16At(w, 6, |sps|);
      Be16At(w, 9 + |sps|, |pps|);
    }
    if Sets(w).Data? {
      var k := FromBe16(w[6..]);
      var n := FromBe16(w[9 + k..]);
      Be16Here(w, 6);
      Be16Here(w, 9 + k);
      assert ConfigLaidOut(w, w[8..8 + k], w[11 + k..11 + k + n]);
    }
  }

  // Complete tags are accepted. An AVC tag of units adds its size less five bytes to the file.
  lemma LaidOutAccepted(t: Tag, c: Content)
    requires LaidOut(t, c)
    ensures Accepted(t, AnnexBOf(c))
    ensures c.AvcUnits? ==> |AnnexBOf(c)| == |t.data| - 5
  {
    hide Units, Sets, ConfigLaidOut;
    match c
    case Plain =>
    case AvcUnits(units) => UnitsConvert(units);
    case AvcConfig(sps, pps) => SetsIff(t.data[5..], sps, pps);
  }

  predicate AllLaidOut(tags: seq<Tag>, contents: seq<Content>) {
    |contents| == |tags| && forall i | 0 <= i < |tags| :: LaidOut(tags[i], contents[i])
  }

  function Files(contents: seq<Content>): (r: seq<seq<byte>>)
    ensures |r| == |contents| && forall i | 0 <= i < |contents| :: r[i] == AnnexBOf(contents[i])
  {
    if contents == [] then [] else [AnnexBOf(contents[0])] + Files(contents[1..])
  }

  // ---------- What the listed tags say ----------

  // TAG_INFO, without the clock reading and the download action.
  datatype TagInfo = TagInfo(tagType: nat, tagSize: nat, timestamp: u32, timestampSrc: nat, timestampExt: nat,
                             streamId: nat)

  // FormatFlvTag2TagInfo, for one tag.
  function InfoOf(t: FlvTag): TagInfo {
    TagInfo(t.tagType, FromLe24(t.dataSize), t.timestampExt as int * B24 + FromLe24(t.timestamp), FromLe24(t.timestamp),
            t.timestampExt, FromLe24(t.streamId))
  }

  lemma SwappedIs(s: seq<byte>)
    requires |s| == 3
    ensures FromLe24(Swapped(s)) == FromBe24(s)
  {
  }

  // Type, length, 32-bit time and stream id of every listed tag are the tag's own.
  lemma InfoIsTag(t: Tag)
    requires t.Valid()
    ensures var i := InfoOf(Listed(t));
      && i.tagType == t.tagType && i.tagSize == |t.data| && i.timestamp == t.time && i.streamId == t.streamId
      && i.timestampSrc == t.time % B24 && i.timestampExt == t.time / B24
  {
    hide Be24, TimeBytes;
    var h := t.Header();
    assert h[1..4] == Be24(|t.data|) && h[4..8] == TimeBytes(t.time) && h[8..11] == Be24(t.streamId);
    SwappedIs(h[1..4]);
    SwappedIs(h[8..11]);
    Be24RoundTrip(|t.data|);
    Be24RoundTrip(t.streamId);
    TimeParts(h, t.time);
  }

  lemma TimeParts(h: seq<byte>, time: u32)
    requires |h| == 11 && h[4..8] == TimeBytes(time)
    ensures FromLe24(Swapped(h[4..7])) == time % B24 && h[7] == time / B24
  {
    hide Be24;
    assert h[4..7] == h[4..8][..3] == Be24(time);
    assert h[7] == h[4..8][3];
    SwappedIs(h[4..7]);
    Be24RoundTrip(time);
  }

  // ---------- Records made by the player ----------

  // The tags made of packets that carry one tag each.
  function MuxTags(packets: seq<Packet>, resumeTS: u32): seq<Tag> {
    if packets == [] then []
    else
      var n, p := |packets| - 1, packets[|packets| - 1];
      MuxTags(packets[..n], resumeTS) + if TooSmall(p) then [] else [MuxTag(p.Message(), resumeTS)]
  }

  lemma {:induction false} RecordsAreTags(packets: seq<Packet>, resumeTS: u32, records: seq<seq<byte>>)
    requires RecordsOf(packets, resumeTS, records) && SingleTags(packets)
    ensures FlvRead.Flatten(records) == TagsBytes(MuxTags(packets, resumeTS))
    decreases |packets|
  {
    hide Tag.Bytes, TagsBytes, TooSmall;
    if packets == [] {
      NoTags();
    } else {
      var n, p := |packets| - 1, packets[|packets| - 1];
      if TooSmall(p) {
        RecordsAreTags(packets[..n], resumeTS, records);
        assert MuxTags(packets[..n], resumeTS) + [] == MuxTags(packets[..n], resumeTS);
      } else {
        RecordsAreTags(packets[..n], resumeTS, records[..|records| - 1]);
        assert p in packets;
        TagsBytesConcat(MuxTags(packets[..n], resumeTS), [MuxTag(p.Message(), resumeTS)]);
        OneTagBytes(MuxTag(p.Message(), resumeTS));
      }
    }
  }

  lemma NoTags()
    ensures TagsBytes([]) == []
  {
  }

  // Mux and checker agree: the records made of audio, video and info packets, whatever the resume time, are accepted
  // whole, the checker lists exactly their tags, and their AVC units and parameter sets go to the file in order.
  lemma MuxPasses(packets: seq<Packet>, resumeTS: u32, records: seq<seq<byte>>, contents: seq<Content>)
    requires RecordsOf(packets, resumeTS, records) && SingleTags(packets)
    requires AllLaidOut(MuxTags(packets, resumeTS), contents)
    ensures ParseTags(FlvRead.Flatten(records))
         == Parsed(StreamOk, AllListed(MuxTags(packets, resumeTS)), |FlvRead.Flatten(records)|, Joined(Files(contents)))
  {
    hide ParseTags, RecordsOf, MuxTags, TagsBytes, Accepted, LaidOut;
    var tags := MuxTags(packets, resumeTS);
    forall i | 0 <= i < |tags|
      ensures Accepted(tags[i], Files(contents)[i])
    {
      LaidOutAccepted(tags[i], contents[i]);
    }
    RecordsAreTags(packets, resumeTS, records);
    TagsParsed(tags, Files(contents));
  }

  // The same for a whole file as RTMP_Read hands it out: its 9-byte header passed, ParseBody skips four bytes more.
  lemma FilePasses(kinds: Kinds, packets: seq<Packet>, resumeTS: u32, records: seq<seq<byte>>, contents: seq<Content>)
    requires RecordsOf(packets, resumeTS, records) && SingleTags(packets)
    requires AllLaidOut(MuxTags(packets, resumeTS), contents)
    ensures var file := FlvHeader(kinds) + FlvRead.Flatten(records);
      ParseTags(file[9 + 4..])
      == Parsed(StreamOk, AllListed(MuxTags(packets, resumeTS)), |file| - 13, Joined(Files(contents)))
  {
    hide ParseTags, RecordsOf, MuxTags, FlvHeader, AllLaidOut;
    MuxPasses(packets, resumeTS, records, contents);
    SplitAt(FlvHeader(kinds), FlvRead.Flatten(records));
  }
}
