// The repair loop of Read_1_Packet (librtmp/rtmp.c): the output holds a copy of the aggregate packet, which is put
// right in place while the packet itself is only read.
module FlvRepair {
  import opened Buffer
  import opened Bytes
  import opened Flv

  lemma NoPatch(s: seq<byte>, i: nat, old4: seq<byte>)
    requires i + |old4| <= |s| && s[i..i + |old4|] == old4
    ensures PatchedTo(s, s, i, old4)
  {
  }

  lemma TimeField(w: seq<byte>, i: nat, s: seq<byte>)
    requires |s| > 11 && i + 11 <= |w| && w[i..i + 11] == s[..11]
    ensures w[i + 4..i + 8] == s[4..8] && TimeOf(s[4..8]) == TimeOf(s[4..])
  {
    SliceOfSlice(w, i, i + 8, i + 11);
    assert w[i + 4..i + 8] == w[i..i + 8][4..];
    assert s[4..8] == s[..11][..8][4..];
  }

  // Moves the time of the tag at out[i..] unless it is right already; returns it.
  method FixTime(out: array<byte>, i: nat, s: seq<byte>, delta: u32) returns (time: u32)
    requires |s| > 11 && i + 11 <= out.Length && out[i..i + 11] == s[..11]
    modifies out
    ensures time == Wrap(TimeOf(s[4..]) + delta)
    ensures Patched(out, old(out[..]), i + 4, TimeBytes(time))
  {
    time := TimeOf(s[4..]);
    if delta != 0 {
      time := Wrap(time + delta);
      ghost var s0 := out[..];
      var next := EncodeInt24(out, i + 4, time);
      ghost var s1 := out[..];
      out[next] := time / B24;
      assert PatchedTo(s1, out[..], i + 7, [time / B24]);
      PatchAgain(s0, s1, out[..], i + 4, Be24(time), [time / B24]);
    } else {
      TimeKept(s[4..8]);
      TimeField(out[..], i, s);
      NoPatch(out[..], i + 4, s[4..8]);
    }
  }

  // Writes the size field at out[j..] unless it is right already.
  method FixSize(out: array<byte>, j: nat, present: bool, s: seq<byte>, size: u32)
    requires j + 4 <= out.Length && (present ==> |s| == 4 && out[j..j + 4] == s)
    modifies out
    ensures Patched(out, old(out[..]), j, Be32(size))
  {
    if present && FromBe32(s) == size {
      Be32Kept(s);
      NoPatch(out[..], j, s);
    } else {
      var _ := EncodeInt32(out, j, size);
    }
  }

  // A tag put right in place: its time, then its size field, with whatever follows kept.
  lemma TagPut(s: seq<byte>, x: seq<byte>, d: nat, delta: u32)
    requires 11 < |s| <= |x| && s == x[..|s|] && d == DataSize(s) && 11 + d <= |s| && 15 + d <= |x|
    ensures Put(Put(x, 4, TimeBytes(Wrap(TimeOf(s[4..]) + delta))), 11 + d, Be32(d + 11))
         == MovedHead(s, delta) + s[11..11 + d] + Be32(d + 11) + x[15 + d..]
  {
    var time := TimeBytes(Wrap(TimeOf(s[4..]) + delta));
    var y := Put(x, 4, time);
    assert y[..11 + d] == MovedHead(s, delta) + s[11..11 + d];
    assert y[15 + d..] == x[15 + d..];
  }

  function FixedTag(s: seq<byte>, delta: u32): (r: seq<byte>)
    requires |s| > 11 && 11 + DataSize(s) <= |s|
    ensures |r| == 15 + DataSize(s)
  {
    MovedHead(s, delta) + s[11..11 + DataSize(s)] + Be32(DataSize(s) + 11)
  }

  // What the bytes s, with the four bytes behind them, have become once their first tag has been looked at.
  function OneTagOn(s: seq<byte>, delta: u32, stale: seq<byte>): seq<byte>
    requires |s| > 11 && |stale| == 4
  {
    if 11 + DataSize(s) > |s| then Repair(s, delta, stale) + stale
    else FixedTag(s, delta) + (s + stale)[15 + DataSize(s)..]
  }

  lemma HeadOnly(s: seq<byte>, stale: seq<byte>, delta: u32)
    requires |s| > 11 && |stale| == 4 && 11 + DataSize(s) > |s|
    ensures Put(s + stale, 4, TimeBytes(Wrap(TimeOf(s[4..]) + delta))) == OneTagOn(s, delta, stale)
  {
  }

  lemma FieldIn(a: seq<byte>, x: seq<byte>, b: seq<byte>, j: nat)
    requires j + 4 <= |x|
    ensures (a + x + b)[|a| + j..|a| + j + 4] == x[j..j + 4]
  {
  }

  lemma SameField(x: seq<byte>, s: seq<byte>, j: nat)
    requires j + 4 <= |s| <= |x| && x[j..] == (s + x[|s|..])[j..]
    ensures x[j..j + 4] == s[j..j + 4]
  {
    var y := s + x[|s|..];
    assert x[j..j + 4] == x[j..][..4];
    assert y[j..j + 4] == y[j..][..4];
    assert y[j..j + 4] == s[j..j + 4];
  }

  // The size field of the tag at the front of s, after its time has been written: x is what the output holds there.
  method RepairSize(s: seq<byte>, out: array<byte>, i: nat, delta: u32, ghost a: seq<byte>, ghost x: seq<byte>, ghost b: seq<byte>)
    requires |a| == i && 11 < |s| && |x| == |s| + 4 && 11 + DataSize(s) <= |s|
    requires out[..] == a + x + b && x[15 + DataSize(s) - 4..] == (s + x[|s|..])[15 + DataSize(s) - 4..]
    modifies out
    ensures out[..] == a + Put(x, 11 + DataSize(s), Be32(DataSize(s) + 11)) + b
  {
    hide PatchedTo, Put, Be32;
    var dataSize := DataSize(s);
    var j := 11 + dataSize;
    if 4 + j > |s| {
      FixSize(out, i + j, false, [], dataSize + 11);
    } else {
      FieldIn(a, x, b, j);
      assert out[i + j..i + j + 4] == out[..][i + j..i + j + 4];
      SameField(x, s, j);
      FixSize(out, i + j, true, s[j..j + 4], dataSize + 11);
    }
    PatchMiddle(a, x, b, out[..], j, Be32(dataSize + 11));
  }

  // The time and the size field of one tag, each written only if it has to be.
  method RepairTag(s: seq<byte>, out: array<byte>, i: nat, delta: u32,
                   ghost a: seq<byte>, ghost stale: seq<byte>, ghost b: seq<byte>) returns (time: u32)
    requires |a| == i && |s| > 11 && |stale| == 4 && out[..] == a + (s + stale) + b
    modifies out
    ensures time == Wrap(TimeOf(s[4..]) + delta)
    ensures out[..] == a + OneTagOn(s, delta, stale) + b
  {
    hide Repair, MovedHead, DataSize, OneTagOn, TimeOf;
    ghost var x := s + stale;
    assert out[i..i + 11] == x[..11] == s[..11];
    time := FixTime(out, i, s, delta);
    PatchMiddle(a, x, b, out[..], 4, TimeBytes(time));
    if 11 + DataSize(s) > |s| {
      HeadOnly(s, stale, delta);
    } else {
      TimePut(s, stale, 4, TimeBytes(time), 11 + DataSize(s));
      RepairSize(s, out, i, delta, a, Put(x, 4, TimeBytes(time)), b);
      TagPut(s, x, DataSize(s), delta);
      OneTagIs(s, delta, stale);
    }
  }

  lemma TimePut(s: seq<byte>, stale: seq<byte>, k: nat, time: seq<byte>, j: nat)
    requires k + |time| <= j <= |s|
    ensures var x := Put(s + stale, k, time);
      x[j..] == (s + stale)[j..] && x[|s|..] == stale
  {
  }

  lemma OneTagIs(s: seq<byte>, delta: u32, stale: seq<byte>)
    requires |s| > 11 && |stale| == 4 && 11 + DataSize(s) <= |s|
    ensures OneTagOn(s, delta, stale)
         == MovedHead(s, delta) + s[11..11 + DataSize(s)] + Be32(DataSize(s) + 11) + (s + stale)[15 + DataSize(s)..]
  {
  }

  // The output while the loop runs: front is done, s and the four bytes behind it are to come.
  ghost predicate Midway(out: seq<byte>, front: seq<byte>, s: seq<byte>, stale: seq<byte>, post: seq<byte>, goal: seq<byte>,
                         delta: u32)
    requires |stale| == 4
  {
    out == front + (s + stale) + post && front + Repair(s, delta, stale) == goal
  }

  lemma Unfold(s: seq<byte>, delta: u32, stale: seq<byte>)
    requires |stale| == 4 && |s| > 11 && 11 + DataSize(s) <= |s|
    ensures var d := DataSize(s);
      Repair(s, delta, stale)
      == FixedTag(s, delta) + if 15 + d <= |s| then Repair(s[15 + d..], delta, stale) else stale[15 + d - |s|..]
  {
    hide MovedHead;
  }

  // One tag of Look.
  lemma LookOne(s: seq<byte>, delta: u32, seen: Seen)
    ensures |s| <= 11 ==> Look(s, delta, seen) == seen
    ensures |s| > 11 ==>
      var seen' := Seen(Wrap(TimeOf(s[4..]) + delta), seen.audio || s[0] == AUDIO, seen.video || s[0] == VIDEO);
      Look(s, delta, seen) == if 15 + DataSize(s) > |s| then seen' else Look(s[15 + DataSize(s)..], delta, seen')
  {
  }

  lemma TagMidway(out: seq<byte>, front: seq<byte>, s: seq<byte>, stale: seq<byte>, post: seq<byte>, goal: seq<byte>,
                  delta: u32)
    requires |stale| == 4 && |s| > 11 && 11 + DataSize(s) <= |s|
    requires front + Repair(s, delta, stale) == goal
    requires out == front + OneTagOn(s, delta, stale) + post
    ensures 15 + DataSize(s) <= |s| ==>
      Midway(out, front + FixedTag(s, delta), s[15 + DataSize(s)..], stale, post, goal, delta)
    ensures 15 + DataSize(s) > |s| ==> out == goal + post && |goal| == |front| + |s| + 4
  {
    hide Repair, FixedTag, DataSize, MovedHead;
    Unfold(s, delta, stale);
    var d, tag := DataSize(s), FixedTag(s, delta);
    DropConcat(s, stale, 15 + d);
    if 15 + d <= |s| {
      Regroup(front, tag, Repair(s[15 + d..], delta, stale));
      Regroup(front, tag, s[15 + d..] + stale);
    } else {
      Regroup(front, tag, stale[15 + d - |s|..]);
    }
  }

  lemma DropConcat<T>(s: seq<T>, t: seq<T>, k: nat)
    requires k <= |s| + |t|
    ensures (s + t)[k..] == if k <= |s| then s[k..] + t else t[k - |s|..]
  {
  }

  // Nothing more to repair: the data is shorter than the tag says, or too short for a tag.
  lemma Rest(out: seq<byte>, front: seq<byte>, s: seq<byte>, stale: seq<byte>, post: seq<byte>, goal: seq<byte>,
             delta: u32)
    requires |stale| == 4 && front + Repair(s, delta, stale) == goal
    requires |s| > 11 ==> 11 + DataSize(s) > |s| && out == front + OneTagOn(s, delta, stale) + post
    requires |s| <= 11 ==> out == front + (s + stale) + post
    ensures out == goal + stale + post && |goal| == |front| + |s|
  {
    hide MovedHead;
    assert front + (Repair(s, delta, stale) + stale) == goal + stale;
  }

  // The loop. out holds pre, the packet, and at least four more bytes.
  method RepairInPlace(body: seq<byte>, out: array<byte>, at: nat, delta: u32, seen0: Seen,
                       ghost pre: seq<byte>, ghost stale: seq<byte>, ghost post: seq<byte>)
    returns (seen: Seen, extra: nat)
    requires |pre| == at && |stale| == 4 && out[..] == pre + (body + stale) + post
    modifies out
    ensures extra == |Repair(body, delta, stale)| - |body|
    ensures out[..] == pre + Repair(body, delta, stale) + (if extra == 0 then stale else []) + post
    ensures seen == Look(body, delta, seen0)
  {
    hide MovedHead, FixedTag, DataSize, OneTagOn, Repair, Look, TimeOf;
    seen, extra := seen0, 0;
    var pos := 0;
    ghost var front := pre;
    ghost var goal, end := pre + Repair(body, delta, stale), Look(body, delta, seen0);
    assert body[0..] == body;
    while pos + 11 < |body|
      invariant pos <= |body| ==>
        && |front| == at + pos && extra == 0
        && Midway(out[..], front, body[pos..], stale, post, goal, delta)
        && Look(body[pos..], delta, seen) == end
      invariant pos > |body| ==>
        extra == 4 && |goal| == at + |body| + 4 && out[..] == goal + post && seen == end
    {
      var s := body[pos..];
      var dataSize := DataSize(s);
      LookOne(s, delta, seen);
      var time := RepairTag(s, out, at + pos, delta, front, stale, post);
      seen := Seen(time, seen.audio || s[0] == AUDIO, seen.video || s[0] == VIDEO);
      if pos + 11 + dataSize > |body| {
        Rest(out[..], front, s, stale, post, goal, delta);
        return;
      }
      TagMidway(out[..], front, s, stale, post, goal, delta);
      if pos + 11 + dataSize + 4 > |body| {
        extra := 4;
      } else {
        assert s[15 + dataSize..] == body[pos + dataSize + 15..];
      }
      front := front + FixedTag(s, delta);
      pos := pos + dataSize + 15;
    }
    if pos <= |body| {
      LookOne(body[pos..], delta, seen);
      Rest(out[..], front, body[pos..], stale, post, goal, delta);
    } else {
      assert goal + [] == goal;
    }
  }
}
