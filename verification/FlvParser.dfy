// ParseBody and ParseBodyTag as they run (FlvCheck.cpp): a pointer and a count of bytes read advance through the
// buffer, tags are pushed onto a list, units are written to a file.
module FlvParser {
  import opened Bytes
  import opened Flv
  import opened FlvParse

  method ReadTag(buffer: array<byte>, at: nat) returns (t: FlvTag)
    requires at + 11 <= buffer.Length
    ensures t == TagIn(buffer[at..])
  {
    var pointer := at;
    var tagType := buffer[pointer];
    pointer := pointer + 1;
    var dataSize := [buffer[pointer + 2], buffer[pointer + 1], buffer[pointer]];
    pointer := pointer + 3;
    var timestamp := [buffer[pointer + 2], buffer[pointer + 1], buffer[pointer]];
    pointer := pointer + 3;
    var ext := buffer[pointer];
    pointer := pointer + 1;
    t := FlvTag(tagType, dataSize, timestamp, ext, [buffer[pointer + 2], buffer[pointer + 1], buffer[pointer]]);
    ghost var h := buffer[at..];
    assert h[1..4] == [h[1], h[2], h[3]] && h[4..7] == [h[4], h[5], h[6]] && h[8..11] == [h[8], h[9], h[10]];
  }

  // What was parsed before, in front of r.
  function Behind(tags: seq<FlvTag>, used: nat, file: seq<byte>, r: Parsed): Parsed {
    if r.PastEnd? then PastEnd else Parsed(r.code, tags + r.tags, used + r.used, file + r.file)
  }

  lemma BehindTwice(tags: seq<FlvTag>, used: nat, file: seq<byte>, t: FlvTag, n: nat, f: seq<byte>, r: Parsed)
    ensures Behind(tags, used, file, After(t, n, f, r)) == Behind(tags + [t], used + n, file + f, r)
  {
    assert r.Parsed? ==> tags + ([t] + r.tags) == tags + [t] + r.tags && file + (f + r.file) == file + f + r.file;
  }

  // One unfolding of ParseTags.
  lemma TagStep(w: seq<byte>)
    requires |w| > 11
    ensures ParseTags(w) ==
            var t, d := TagIn(w), DataSize(w);
            if !KnownType(w[0]) then Parsed(UnknownTag, [], 11, [])
            else if w[0] != AUDIO && w[0] != VIDEO then
              After(t, 15 + d, [], ParseTags(if 15 + d <= |w| then w[15 + d..] else []))
            else
              var x := ParseData(w[11..], w[0], d);
              if x.Overrun? then PastEnd
              else if x.code != StreamOk then Parsed(x.code, [t], 11, x.file)
              else if |w| < 15 + d then PastEnd
              else if FromBe32(w[11 + d..]) != d + 11 then Parsed(TagSizeMismatch, [t], 11 + d, x.file)
              else After(t, 15 + d, x.file, ParseTags(w[15 + d..]))
  {
  }

  lemma MediaStep(w: seq<byte>, t: FlvTag, d: nat)
    requires |w| > 11 && t == TagIn(w) && d == DataSize(w) && (w[0] == AUDIO || w[0] == VIDEO)
    ensures ParseTags(w) ==
            var x := ParseData(w[11..], w[0], d);
            if x.Overrun? then PastEnd
            else if x.code != StreamOk then Parsed(x.code, [t], 11, x.file)
            else if |w| < 15 + d then PastEnd
            else if FromBe32(w[11 + d..]) != d + 11 then Parsed(TagSizeMismatch, [t], 11 + d, x.file)
            else After(t, 15 + d, x.file, ParseTags(w[15 + d..]))
  {
    hide ParseTags, ParseData, TagIn, DataSize, After, FromBe32;
    TagStep(w);
  }

  lemma SizeOf(w: seq<byte>)
    requires |w| > 11
    ensures FromLe24(TagIn(w).dataSize) == DataSize(w) && TagIn(w).tagType == w[0]
  {
  }

  lemma DropTwice(s: seq<byte>, i: nat, k: nat)
    requires i + k <= |s|
    ensures s[i..][k..] == s[i + k..]
  {
  }

  class Checker {
    var vFlvTag: seq<FlvTag>
    var h264File: seq<byte>
    var bufferRead: nat

    constructor (bufferRead: nat)
      ensures vFlvTag == [] && h264File == [] && this.bufferRead == bufferRead
    {
      vFlvTag, h264File, this.bufferRead := [], [], bufferRead;
    }

    method WriteUnit(unit: seq<byte>)
      modifies this`h264File
      ensures h264File == old(h264File) + (START_CODE + unit)
    {
      h264File := h264File + START_CODE;
      h264File := h264File + unit;
      assert old(h264File) + START_CODE + unit == old(h264File) + (START_CODE + unit);
    }

    // The parameter sets of a decoder configuration.
    method WriteSets(buffer: array<byte>, at: nat)
      requires at <= buffer.Length && Sets(buffer[at..]).Data?
      modifies this`h264File
      ensures h264File == old(h264File) + Sets(buffer[at..]).file
    {
      ghost var w := buffer[at..];
      var pointer := at + 6;
      var spsLength := FromBe16(buffer[pointer..]);
      assert buffer[pointer..] == w[6..];
      pointer := pointer + 2;
      WriteUnit(buffer[pointer..pointer + spsLength]);
      assert buffer[pointer..pointer + spsLength] == w[8..8 + spsLength];
      pointer := pointer + spsLength + 1;
      var ppsLength := FromBe16(buffer[pointer..]);
      assert buffer[pointer..] == w[9 + spsLength..];
      pointer := pointer + 2;
      assert buffer[pointer..pointer + ppsLength] == w[11 + spsLength..11 + spsLength + ppsLength];
      WriteUnit(buffer[pointer..pointer + ppsLength]);
      Regroup(old(h264File), START_CODE, w[8..8 + spsLength], START_CODE, w[11 + spsLength..11 + spsLength + ppsLength]);
    }

    lemma Regroup(a: seq<byte>, b: seq<byte>, c: seq<byte>, d: seq<byte>, e: seq<byte>)
      ensures a + (b + c) + (d + e) == a + (b + c + d + e)
    {
    }

    // One unit after the other, as long as the tag's size has not been counted.
    method WriteUnits(buffer: array<byte>, at: nat, tagSize: nat)
      requires at <= buffer.Length && Units(buffer[at..], tagSize - 5).Data?
      modifies this`h264File
      ensures h264File == old(h264File) + Units(buffer[at..], tagSize - 5).file
    {
      hide Units, FromBe32;
      ghost var all := old(h264File) + Units(buffer[at..], tagSize - 5).file;
      var countsize, pointer := 2 + 3, at;
      while countsize < tagSize
        invariant pointer <= buffer.Length && Units(buffer[pointer..], tagSize - countsize).Data?
        invariant h264File + Units(buffer[pointer..], tagSize - countsize).file == all
        decreases buffer.Length - pointer
      {
        ghost var w, left := buffer[pointer..], tagSize - countsize;
        UnitsRoom(w, left);
        var templength: nat := FromBe32(buffer[pointer..]);
        UnitsStep(w, left, templength);
        ghost var more := Units(w[4 + templength..], left - 4 - templength).file;
        pointer := pointer + 4;
        assert buffer[pointer..pointer + templength] == w[4..4 + templength];
        Regroup3(h264File, START_CODE, w[4..4 + templength], more);
        WriteUnit(buffer[pointer..pointer + templength]);
        pointer := pointer + templength;
        DropTwice(buffer[..], pointer - 4 - templength, 4 + templength);
        assert w == buffer[..][pointer - 4 - templength..] && buffer[pointer..] == buffer[..][pointer..];
        countsize := countsize + templength + 4;
      }
      NoUnits(buffer[pointer..], tagSize - countsize);
      assert h264File + [] == h264File;
    }

    lemma Regroup3(a: seq<byte>, b: seq<byte>, c: seq<byte>, d: seq<byte>)
      ensures a + (b + c + d) == a + (b + c) + d
    {
    }

    lemma NoUnits(w: seq<byte>, left: int)
      requires left <= 0
      ensures Units(w, left) == Data(StreamOk, [])
    {
    }

    method ParseBodyTag(buffer: array<byte>, at: nat, tagType: byte, tagSize: nat) returns (code: Code)
      requires at <= buffer.Length && ParseData(buffer[at..], tagType, tagSize).Data?
      modifies this`h264File
      ensures var r := ParseData(buffer[at..], tagType, tagSize);
        code == r.code && h264File == old(h264File) + r.file
    {
      hide Units, Sets;
      var length := buffer.Length - at;
      assert h264File + [] == h264File;
      if length == 0 {
        return DataBufferNull;
      }
      if length < tagSize {
        return UnknownTag;
      }
      code := StreamOk;
      if tagType == VIDEO {
        var pointer := at;
        var frameType, codecID := buffer[pointer] / 16, buffer[pointer] % 16;
        pointer := pointer + 1;
        var packetType := buffer[pointer];
        pointer := pointer + 1;
        pointer := pointer + 3;
        assert buffer[pointer..] == buffer[at..][5..];
        if frameType == 5 {
          if tagSize != 1 + 1 + 3 + 1 {
            code := VideoTagSizeMismatch;
          }
        } else if codecID == 7 {
          if packetType == 0 {
            SetsOk(buffer[pointer..]);
            WriteSets(buffer, pointer);
          } else {
            WriteUnits(buffer, pointer, tagSize);
          }
        }
      }
    }

    lemma SetsOk(w: seq<byte>)
      ensures Sets(w).Data? ==> Sets(w).code == StreamOk
    {
    }

    // ParseBody, from the size field in front of the first tag on. fileOpen says whether there is a file to write to.
    method ParseBody(buffer: array<byte>, fileOpen: bool) returns (code: Code)
      requires ParseTags(if bufferRead + 4 <= buffer.Length then buffer[bufferRead + 4..] else []).Parsed?
      modifies this
      ensures
        if buffer.Length == 0 || !fileOpen then
          code == (if buffer.Length == 0 then DataBufferNull else FileNotExist)
          && vFlvTag == old(vFlvTag) && h264File == old(h264File) && bufferRead == old(bufferRead)
        else
          var r := ParseTags(if old(bufferRead) + 4 <= buffer.Length then buffer[old(bufferRead) + 4..] else []);
          && code == r.code && vFlvTag == old(vFlvTag) + r.tags
          && h264File == old(h264File) + r.file && bufferRead == old(bufferRead) + 4 + r.used
    {
      hide ParseTags;
      if buffer.Length == 0 {
        return DataBufferNull;
      }
      if !fileOpen {
        return FileNotExist;
      }
      code := StreamOk;
      bufferRead := bufferRead + 4;
      ghost var whole := Behind(vFlvTag, bufferRead, h264File, ParseTags(Left(buffer[..], bufferRead)));
      LeftIs(buffer[..], bufferRead);
      while bufferRead + 11 < buffer.Length
        invariant whole.Parsed? && code == StreamOk
        invariant whole == Behind(vFlvTag, bufferRead, h264File, ParseTags(Left(buffer[..], bufferRead)))
        decreases buffer.Length - bufferRead
      {
        LeftIs(buffer[..], bufferRead);
        code := ParseTag(buffer);
        if code != StreamOk {
          break;
        }
      }
      if code == StreamOk {
        Finished(buffer[..], bufferRead);
        assert vFlvTag + [] == vFlvTag && h264File + [] == h264File;
      }
    }

    // Where a turn of the loop leaves things: further on in the same parse, or at its end.
    ghost predicate Reached(buffer: seq<byte>, whole: Parsed, code: Code)
      reads this
    {
      if code == StreamOk then whole == Behind(vFlvTag, bufferRead, h264File, ParseTags(Left(buffer, bufferRead)))
      else whole == Parsed(code, vFlvTag, bufferRead, h264File)
    }

    // One turn of the loop.
    method ParseTag(buffer: array<byte>) returns (code: Code)
      requires bufferRead + 11 < buffer.Length && ParseTags(buffer[bufferRead..]).Parsed?
      modifies this
      ensures bufferRead > old(bufferRead)
      ensures Reached(buffer[..], Behind(old(vFlvTag), old(bufferRead), old(h264File), ParseTags(buffer[old(bufferRead)..])),
                      code)
    {
      hide ParseTags, ParseData, TagIn, DataSize, After, Behind, Left, FromBe32, FromLe24;
      ghost var w, tags, used, file := buffer[bufferRead..], vFlvTag, bufferRead, h264File;
      TagStep(w);
      SizeOf(w);
      var tagItem := ReadTag(buffer, bufferRead);
      var tagType := tagItem.tagType % 0x20;
      if tagType != AUDIO && tagType != VIDEO && tagType != INFO {
        bufferRead := bufferRead + 11;
        StopsBare(tags, used, file, UnknownTag, 11);
        return UnknownTag;
      }
      var dataSize := FromLe24(tagItem.dataSize);
      if tagItem.tagType != AUDIO && tagItem.tagType != VIDEO {
        bufferRead := bufferRead + 11;
        vFlvTag := vFlvTag + [tagItem];
        bufferRead := bufferRead + dataSize + 4;
        BehindTwice(tags, used, file, tagItem, 15 + dataSize, [], ParseTags(Left(buffer[..], bufferRead)));
        LeftAfter(buffer[..], used, 15 + dataSize);
        assert file + [] == file;
        return StreamOk;
      }
      code := ParseMedia(buffer, tagItem, dataSize);
    }

    // An audio or video tag: its data, then its size field.
    method ParseMedia(buffer: array<byte>, tagItem: FlvTag, dataSize: nat) returns (code: Code)
      requires bufferRead + 11 < buffer.Length && ParseTags(buffer[bufferRead..]).Parsed?
      requires tagItem == TagIn(buffer[bufferRead..]) && dataSize == DataSize(buffer[bufferRead..])
      requires tagItem.tagType == buffer[bufferRead] && (tagItem.tagType == AUDIO || tagItem.tagType == VIDEO)
      modifies this
      ensures bufferRead > old(bufferRead)
      ensures Reached(buffer[..], Behind(old(vFlvTag), old(bufferRead), old(h264File), ParseTags(buffer[old(bufferRead)..])),
                      code)
    {
      hide ParseTags, ParseData, TagIn, DataSize, After, Behind, Left, FromBe32;
      ghost var w, tags, used, file := buffer[bufferRead..], vFlvTag, bufferRead, h264File;
      MediaStep(w, tagItem, dataSize);
      ghost var x := ParseData(w[11..], w[0], dataSize);
      assert buffer[bufferRead + 11..] == w[11..];
      bufferRead := bufferRead + 11;
      vFlvTag := vFlvTag + [tagItem];
      code := ParseBodyTag(buffer, bufferRead, tagItem.tagType, dataSize);
      StopsAt(tags, used, file, code, tagItem, 11, x.file);
      if code != StreamOk {
        return;
      }
      StopsAt(tags, used, file, TagSizeMismatch, tagItem, 11 + dataSize, x.file);
      bufferRead := bufferRead + dataSize;
      LeftAfter(buffer[..], used, 15 + dataSize);
      assert buffer[bufferRead..] == w[11 + dataSize..];
      var preTagSize: nat := FromBe32(buffer[bufferRead..]);
      if preTagSize != dataSize + 11 {
        return TagSizeMismatch;
      }
      bufferRead := bufferRead + 4;
      BehindTwice(tags, used, file, tagItem, 15 + dataSize, x.file, ParseTags(Left(buffer[..], bufferRead)));
    }
  }

  lemma StopsAt(tags: seq<FlvTag>, used: nat, file: seq<byte>, code: Code, t: FlvTag, n: nat, f: seq<byte>)
    ensures Behind(tags, used, file, Parsed(code, [t], n, f)) == Parsed(code, tags + [t], used + n, file + f)
  {
  }

  lemma StopsBare(tags: seq<FlvTag>, used: nat, file: seq<byte>, code: Code, n: nat)
    ensures Behind(tags, used, file, Parsed(code, [], n, [])) == Parsed(code, tags, used + n, file)
  {
    assert tags + [] == tags && file + [] == file;
  }

  // The bytes from position i on, if it is not past the end.
  function Left(s: seq<byte>, i: nat): seq<byte> {
    if i <= |s| then s[i..] else []
  }

  lemma LeftIs(s: seq<byte>, i: nat)
    ensures i <= |s| ==> Left(s, i) == s[i..]
  {
  }

  lemma LeftAfter(s: seq<byte>, i: nat, k: nat)
    requires i <= |s|
    ensures Left(s, i + k) == if k <= |s[i..]| then s[i..][k..] else []
  {
  }

  lemma Finished(s: seq<byte>, i: nat)
    requires i + 11 >= |s|
    ensures ParseTags(Left(s, i)) == Parsed(StreamOk, [], 0, [])
  {
  }

  // FormatFlvTag2TagInfo: the listed tags as records; the download action is noted on the first one only.
  datatype Action = Normal | Other(code: nat)

  datatype Noted = Noted(info: TagInfo, action: Action, actionTime: nat)

  method Format(vFlvTag: seq<FlvTag>, action: Action, actionTime: nat, before: seq<Noted>) returns (vTagInfo: seq<Noted>)
    ensures |vTagInfo| == |before| + |vFlvTag| && vTagInfo[..|before|] == before
    ensures forall i | 0 <= i < |vFlvTag| ::
      vTagInfo[|before| + i]
      == Noted(InfoOf(vFlvTag[i]), if i == 0 then action else Normal, if i == 0 && action != Normal then actionTime else 0)
  {
    vTagInfo := before;
    var bRecord := false;
    for i := 0 to |vFlvTag|
      invariant |vTagInfo| == |before| + i && vTagInfo[..|before|] == before
      invariant i > 0 ==> bRecord == (action != Normal)
      invariant i == 0 ==> !bRecord
      invariant forall k | 0 <= k < i ::
        vTagInfo[|before| + k]
        == Noted(InfoOf(vFlvTag[k]), if k == 0 then action else Normal, if k == 0 && action != Normal then actionTime else 0)
    {
      var t := vFlvTag[i];
      var item := Noted(TagInfo(t.tagType, FromLe24(t.dataSize), t.timestampExt as int * B24 + FromLe24(t.timestamp),
                                FromLe24(t.timestamp), t.timestampExt, FromLe24(t.streamId)), Normal, 0);
      if action != Normal && !bRecord {
        item := item.(action := action, actionTime := actionTime);
        bRecord := true;
      }
      vTagInfo := vTagInfo + [item];
    }
  }
}
