// What the checker reports, from the list of tags alone (FlvCheck.cpp, CheckFlvData): counts, small tags, kinds out of
// step, flags and frame rates.
module FlvReport {
  import opened Bytes
  import opened FlvStats

  // ---------- Counts ----------

  function Sizes(tags: seq<Item>): nat {
    if tags == [] then 0 else Sizes(tags[..|tags| - 1]) + tags[|tags| - 1].size
  }

  // How many tags there are of a type.
  function Number(tags: seq<Item>, tagType: nat): nat {
    if tags == [] then 0
    else Number(tags[..|tags| - 1], tagType) + if tags[|tags| - 1].tagType == tagType then 1 else 0
  }

  // A tag that is neither audio, video nor script data.
  predicate Strange(t: Item) {
    t.tagType != 8 && t.tagType != 9 && t.tagType != 18
  }

  lemma StepCounts(l: Limits, s: Scan, t: Item)
    ensures var r := Step(l, s, t).0;
      && r.stats.mediaSize == s.stats.mediaSize + t.size
      && r.stats.audioTagNum == s.stats.audioTagNum + (if t.tagType == 8 then 1 else 0)
      && r.stats.videoTagNum == s.stats.videoTagNum + (if t.tagType == 9 then 1 else 0)
      && (r.unknown <==> s.unknown || Strange(t))
  {
    hide Difference, Effective, Behind, Wrap, Added;
  }

  // Sizes and tags are counted, effective or not.
  lemma {:induction false} CountsAre(l: Limits, s: Scan, tags: seq<Item>)
    ensures var r := Scanned(l, s, tags).0;
      && r.stats.mediaSize == s.stats.mediaSize + Sizes(tags)
      && r.stats.audioTagNum == s.stats.audioTagNum + Number(tags, 8)
      && r.stats.videoTagNum == s.stats.videoTagNum + Number(tags, 9)
      && (r.unknown <==> s.unknown || exists t | t in tags :: Strange(t))
    decreases |tags|
  {
    hide Step, Strange;
    if tags != [] {
      var n := |tags| - 1;
      CountsAre(l, s, tags[..n]);
      StepCounts(l, Scanned(l, s, tags[..n]).0, tags[n]);
      assert tags == tags[..n] + [tags[n]];
    }
  }

  // ---------- Small tags, and the two kinds out of step ----------

  // The tag as it is counted, if it is: not the first of its kind in a segment.
  function Counted(kind: Kind, s: Scan, t: Item): seq<Item> {
    var d := DeltaOf(kind, s, t);
    if d == [] then [] else [t.(sub := d[0])]
  }

  // The time of the last tag of the other kind, when the scan is at s.
  function OtherLast(kind: Kind, s: Scan): u32 {
    if kind.Audio? then s.videoLast else s.audioLast
  }

  function Small(kind: Kind, st: Stats): seq<Item> {
    if kind.Audio? then st.aInvalid else st.vInvalid
  }

  // How often a tag of this kind is said to have been far behind the other kind.
  function Alone(kind: Kind, st: Stats): nat {
    if kind.Audio? then st.videoOnly else st.audioOnly
  }

  // A counted tag of this kind that has a time and is a second or more behind the other kind.
  predicate FarBehind(kind: Kind, s: Scan, t: Item) {
    && Counted(kind, s, t) != [] && t.time != 0
    && OtherLast(kind, s) > 1000 && t.time + 1000 <= OtherLast(kind, s)
  }

  lemma StepOthers(l: Limits, kind: Kind, s: Scan, t: Item)
    ensures var c, st := Counted(kind, s, t), Step(l, s, t).0.stats;
      && Small(kind, st) == Small(kind, s.stats) + (if t.size < l.minSize then c else [])
      && Alone(kind, st) == Alone(kind, s.stats) + (if FarBehind(kind, s, t) then 1 else 0)
  {
    hide Difference, Effective, Wrap;
    assert Small(kind, s.stats) + [] == Small(kind, s.stats);
  }

  // A tag is handed back with its difference if it is counted, else as it was.
  lemma StepItem(l: Limits, s: Scan, t: Item)
    ensures Step(l, s, t).1 == if Counted(Audio, s, t) != [] then Counted(Audio, s, t)[0]
                               else if Counted(Video, s, t) != [] then Counted(Video, s, t)[0] else t
  {
    hide Difference, Effective, Behind, Wrap, Added;
  }

  lemma {:induction false} ItemsAre(l: Limits, s: Scan, tags: seq<Item>, i: nat)
    requires i < |tags|
    ensures |Scanned(l, s, tags).1| == |tags|
    ensures var s1, t := Scanned(l, s, tags[..i]).0, tags[i];
      Scanned(l, s, tags).1[i] == if Counted(Audio, s1, t) != [] then Counted(Audio, s1, t)[0]
                                  else if Counted(Video, s1, t) != [] then Counted(Video, s1, t)[0] else t
    decreases |tags|
  {
    hide Step, Counted;
    var n := |tags| - 1;
    ManyItems(l, s, tags);
    if i < n {
      ItemsAre(l, s, tags[..n], i);
      assert tags[..n][..i] == tags[..i];
    } else {
      ManyItems(l, s, tags[..n]);
      StepItem(l, Scanned(l, s, tags[..n]).0, tags[n]);
    }
  }

  lemma {:induction false} ManyItems(l: Limits, s: Scan, tags: seq<Item>)
    ensures |Scanned(l, s, tags).1| == |tags|
    decreases |tags|
  {
    hide Step;
    if tags != [] {
      ManyItems(l, s, tags[..|tags| - 1]);
    }
  }

  // Counted tags under the least size are listed, with their differences.
  function SmallOf(l: Limits, kind: Kind, s: Scan, tags: seq<Item>): seq<Item>
    decreases |tags|
  {
    if tags == [] then []
    else
      var n := |tags| - 1;
      var c := Counted(kind, Scanned(l, s, tags[..n]).0, tags[n]);
      SmallOf(l, kind, s, tags[..n]) + if tags[n].size < l.minSize then c else []
  }

  // Counted tags far behind the other kind are counted.
  function AloneOf(l: Limits, kind: Kind, s: Scan, tags: seq<Item>): nat
    decreases |tags|
  {
    if tags == [] then 0
    else
      var n := |tags| - 1;
      AloneOf(l, kind, s, tags[..n]) + if FarBehind(kind, Scanned(l, s, tags[..n]).0, tags[n]) then 1 else 0
  }

  lemma {:induction false} OthersAre(l: Limits, kind: Kind, s: Scan, tags: seq<Item>)
    ensures var st := Scanned(l, s, tags).0.stats;
      && Small(kind, st) == Small(kind, s.stats) + SmallOf(l, kind, s, tags)
      && Alone(kind, st) == Alone(kind, s.stats) + AloneOf(l, kind, s, tags)
    decreases |tags|
  {
    hide Step, Counted, Small, Alone, FarBehind;
    if tags != [] {
      var n := |tags| - 1;
      OthersAre(l, kind, s, tags[..n]);
      StepOthers(l, kind, Scanned(l, s, tags[..n]).0, tags[n]);
    }
  }

  // ---------- What is reported ----------

  // For a fresh record: each flag says what it is named for.
  lemma FlagsSay(l: Limits, stats: Stats, tags: seq<Item>)
    requires stats.vAbnormal == [] && stats.aAbnormal == [] && stats.videoOnly == stats.audioOnly == 0
    ensures var s := Begin(stats);
      var flags := Finished(Scanned(l, s, tags).0).1;
      && (flags.unknownTag <==> exists t | t in tags :: Strange(t))
      && (flags.videoOnly <==> AloneOf(l, Audio, s, tags) > 0)
      && (flags.audioOnly <==> AloneOf(l, Video, s, tags) > 0)
      && (flags.videoLag <==> exists d | d in Deltas(l, Video, s, tags) :: d >= l.video)
      && (flags.audioLag <==> exists d | d in Deltas(l, Audio, s, tags) :: d >= l.audio)
  {
    hide Scanned, Deltas, AloneOf, SmallOf, Strange, AtLeast, Below;
    var s := Begin(stats);
    CountsAre(l, s, tags);
    OthersAre(l, Audio, s, tags);
    OthersAre(l, Video, s, tags);
    ListsAre(l, Audio, s, tags);
    ListsAre(l, Video, s, tags);
    assert [] + AtLeast(Deltas(l, Audio, s, tags), l.audio) == AtLeast(Deltas(l, Audio, s, tags), l.audio);
    assert [] + AtLeast(Deltas(l, Video, s, tags), l.video) == AtLeast(Deltas(l, Video, s, tags), l.video);
    SomeAtLeast(Deltas(l, Audio, s, tags), l.audio);
    SomeAtLeast(Deltas(l, Video, s, tags), l.video);
  }

  lemma {:induction false} SomeAtLeast(ds: seq<i32>, limit: int)
    ensures AtLeast(ds, limit) != [] <==> exists d | d in ds :: d >= limit
    decreases |ds|
  {
    if ds != [] {
      var init, last := ds[..|ds| - 1], ds[|ds| - 1];
      SomeAtLeast(init, limit);
      assert ds == init + [last];
      assert forall d | d in ds :: d in init || d == last;
      assert last in ds && forall d | d in init :: d in ds;
      if AtLeast(init, limit) != [] {
        var d :| d in init && d >= limit;
        assert d in ds;
      }
    }
  }

  // The frame rates of a fresh record: video tags in a thousand time units, over the media length reported and over the
  // video length; fewer than ten are too few.
  lemma RatesAre(l: Limits, stats: Stats, tags: seq<Item>)
    requires stats.mediaLength == 0 && stats.videoTagNum == 0 && stats.avFPS == stats.realFPS == 0
    ensures var (st, flags) := Finished(Scanned(l, Begin(stats), tags).0);
      var frames, video := Number(tags, 9) * 1000 % 0x1_0000_0000, Wrap(Spans(l, Video, Segments(tags)));
      && (st.mediaLength != 0 ==> st.avFPS == frames / st.mediaLength)
      && (video != 0 ==> st.realFPS == frames / video)
      && (flags.lowFps <==> st.avFPS < 10)
  {
    hide Scanned, Spans;
    StartsAtNothing(l, Begin(stats), tags);
    CountsAre(l, Begin(stats), tags);
    LengthIs(l, Video, stats, tags);
  }

  // The scan itself leaves the rates alone.
  lemma {:induction false} StartsAtNothing(l: Limits, s: Scan, tags: seq<Item>)
    ensures var r := Scanned(l, s, tags).0.stats;
      r.avFPS == s.stats.avFPS && r.realFPS == s.stats.realFPS
    decreases |tags|
  {
    hide Step;
    if tags != [] {
      StartsAtNothing(l, s, tags[..|tags| - 1]);
      StepRates(l, Scanned(l, s, tags[..|tags| - 1]).0, tags[|tags| - 1]);
    }
  }

  lemma StepRates(l: Limits, s: Scan, t: Item)
    ensures Step(l, s, t).0.stats.avFPS == s.stats.avFPS && Step(l, s, t).0.stats.realFPS == s.stats.realFPS
  {
    hide Difference, Effective, Behind, Wrap, Added;
  }
}
