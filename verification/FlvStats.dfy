// The checker's statistics over a list of tags (FlvCheck.cpp, CheckFlvData): the plain scan of model 0 and the one of
// model 1, which also watches arrival times.
module FlvStats {
  import opened Bytes

  const AUDIO := 8
  const VIDEO := 9
  const SCRIPT := 18
  const STUTTER_TIME := 1000
  const STUTTER_FPS := 10

  // TAG_INFO: its action is Normal unless something happened to the download in front of the tag.
  datatype Item = Item(tagType: nat, size: nat, time: u32, sub: i32, arrival: u32, normal: bool)

  // AUDIO_STUTTER_NUM, VIDEO_STUTTER_NUM and MIN_FLV_TAGSIZE.
  datatype Limits = Limits(audio: i32, video: i32, minSize: nat)

  // STATIC_INFO, but for the dynamic lists.
  datatype Stats = Stats(mediaSize: nat, audioTagNum: nat, videoTagNum: nat, mediaLength: u32,
                         aAbnormal: seq<i32>, aTransmitAb: seq<i32>, aInvalid: seq<Item>,
                         vAbnormal: seq<i32>, vTransmitAb: seq<i32>, vInvalid: seq<Item>,
                         videoOnly: nat, audioOnly: nat, avFPS: nat, realFPS: nat)

  // The scan's locals, and the statistics so far.
  datatype Scan = Scan(stats: Stats, audioLast: u32, videoLast: u32, scriptLast: u32, firstAudio: bool, firstVideo: bool,
                       videoLength: u32, unknown: bool)

  // What model 1 adds.
  datatype Dynamic = Dynamic(scan: Scan, audioFirst: u32, videoFirst: u32, audioTotal: u32, videoTotal: u32,
                             aDynamicAb: seq<u32>, vDynamicAb: seq<u32>)

  // push_back, if c.
  function Added<T>(s: seq<T>, x: T, c: bool): seq<T> {
    if c then s + [x] else s
  }

  // (int32_t) of a difference of two uint32_t.
  function Difference(a: u32, b: u32): i32 {
    var d := Wrap(a - b);
    if d < 0x8000_0000 then d else d - B32
  }

  function Begin(stats: Stats): Scan {
    Scan(stats, 0, 0, 0, true, true, 0, false)
  }

  function BeginDynamic(stats: Stats, aDynamicAb: seq<u32>, vDynamicAb: seq<u32>): Dynamic {
    Dynamic(Begin(stats), 0, 0, 0, 0, aDynamicAb, vDynamicAb)
  }

  predicate Effective(l: Limits, t: Item, scriptLast: u32) {
    t.size >= l.minSize && t.time >= scriptLast
  }

  predicate Behind(t: Item, other: u32) {
    t.time != 0 && other > STUTTER_TIME && t.time <= other - STUTTER_TIME
  }

  // ---------- Model 0 ----------

  function AudioStep(l: Limits, s: Scan, t: Item): (Scan, Item) {
    var s1 := s.(stats := s.stats.(audioTagNum := s.stats.audioTagNum + 1));
    if s.firstAudio then
      (if Effective(l, t, s.scriptLast) then s1.(firstAudio := false, audioLast := t.time) else s1, t)
    else
      var d := Difference(t.time, s.audioLast);
      var t1 := t.(sub := d);
      var st := s1.stats;
      (s1.(audioLast := t.time,
           stats := st.(mediaLength := Wrap(st.mediaLength + d),
                        aAbnormal := Added(st.aAbnormal, d, l.audio <= d),
                        aTransmitAb := Added(st.aTransmitAb, d, l.audio > d && 0 > d),
                        videoOnly := st.videoOnly + if Behind(t, s.videoLast) then 1 else 0,
                        aInvalid := Added(st.aInvalid, t1, t.size < l.minSize))), t1)
  }

  function VideoStep(l: Limits, s: Scan, t: Item): (Scan, Item) {
    var s1 := s.(stats := s.stats.(videoTagNum := s.stats.videoTagNum + 1));
    if s.firstVideo then
      (if Effective(l, t, s.scriptLast) then s1.(firstVideo := false, videoLast := t.time) else s1, t)
    else
      var d := Difference(t.time, s.videoLast);
      var t1 := t.(sub := d);
      var st := s1.stats;
      (s1.(videoLast := t.time, videoLength := Wrap(s.videoLength + d),
           stats := st.(vAbnormal := Added(st.vAbnormal, d, l.video <= d),
                        vTransmitAb := Added(st.vTransmitAb, d, l.video > d && 0 > d),
                        audioOnly := st.audioOnly + if Behind(t, s.audioLast) then 1 else 0,
                        vInvalid := Added(st.vInvalid, t1, t.size < l.minSize))), t1)
  }

  // Size counted, and on an action both kinds of tag start afresh.
  function Entered(s: Scan, t: Item): Scan {
    var s1 := s.(stats := s.stats.(mediaSize := s.stats.mediaSize + t.size));
    if t.normal then s1 else s1.(firstAudio := true, firstVideo := true)
  }

  function Step(l: Limits, s: Scan, t: Item): (Scan, Item) {
    var s1 := Entered(s, t);
    if t.tagType == AUDIO then AudioStep(l, s1, t)
    else if t.tagType == VIDEO then VideoStep(l, s1, t)
    else if t.tagType == SCRIPT then (s1.(scriptLast := t.time, firstAudio := true, firstVideo := true), t)
    else (s1.(unknown := true), t)
  }

  function Scanned(l: Limits, s: Scan, tags: seq<Item>): (Scan, seq<Item>)
    decreases |tags|
  {
    if tags == [] then (s, [])
    else
      var n := |tags| - 1;
      var r := Scanned(l, s, tags[..n]);
      var x := Step(l, r.0, tags[n]);
      (x.0, r.1 + [x.1])
  }

  // ---------- Model 1 ----------

  function AudioWatched(l: Limits, d: Dynamic, t: Item): (Dynamic, Item) {
    var s := d.scan;
    var s1 := s.(stats := s.stats.(audioTagNum := s.stats.audioTagNum + 1));
    if s.firstAudio then
      (if Effective(l, t, s.scriptLast) then
         d.(scan := s1.(firstAudio := false, audioLast := t.time), audioFirst := t.arrival)
       else d.(scan := s1), t)
    else
      var sub := Difference(t.time, s.audioLast);
      var t1 := t.(sub := sub);
      var length := Wrap(s1.stats.mediaLength + sub);
      var total := Wrap(d.audioTotal + Difference(t.arrival, d.audioFirst));
      var st := s1.stats.(mediaLength := length,
                          aAbnormal := Added(s1.stats.aAbnormal, sub, l.audio <= sub),
                          aTransmitAb := Added(s1.stats.aTransmitAb, sub, l.audio > sub && 0 > sub),
                          videoOnly := s1.stats.videoOnly + if Behind(t, s.videoLast) then 1 else 0,
                          aInvalid := Added(s1.stats.aInvalid, t1, t.size < l.minSize));
      (d.(scan := s1.(audioLast := t.time, stats := st), audioTotal := total,
          aDynamicAb := Added(d.aDynamicAb, Wrap(total - length), total > Wrap(length + l.audio))), t1)
  }

  function VideoWatched(l: Limits, d: Dynamic, t: Item): (Dynamic, Item) {
    var s := d.scan;
    var s1 := s.(stats := s.stats.(videoTagNum := s.stats.videoTagNum + 1));
    if s.firstVideo then
      (if Effective(l, t, s.scriptLast) then
         d.(scan := s1.(firstVideo := false, videoLast := t.time), videoFirst := t.arrival)
       else d.(scan := s1), t)
    else
      var sub := Difference(t.time, s.videoLast);
      var t1 := t.(sub := sub);
      var length := Wrap(s.videoLength + sub);
      var total := Wrap(d.videoTotal + Difference(t.arrival, d.videoFirst));
      var st := s1.stats.(vAbnormal := Added(s1.stats.vAbnormal, sub, l.video <= sub),
                          vTransmitAb := Added(s1.stats.vTransmitAb, sub, l.video > sub && 0 > sub),
                          audioOnly := s1.stats.audioOnly + if Behind(t, s.audioLast) then 1 else 0,
                          vInvalid := Added(s1.stats.vInvalid, t1, t.size < l.minSize));
      (d.(scan := s1.(videoLast := t.time, videoLength := length, stats := st), videoTotal := total,
          vDynamicAb := Added(d.vDynamicAb, Wrap(total - length), total > Wrap(length + l.video))), t1)
  }

  function DynamicStep(l: Limits, d: Dynamic, t: Item): (Dynamic, Item) {
    var d1 := d.(scan := Entered(d.scan, t));
    if t.tagType == AUDIO then AudioWatched(l, d1, t)
    else if t.tagType == VIDEO then VideoWatched(l, d1, t)
    else if t.tagType == SCRIPT then
      (d1.(scan := d1.scan.(scriptLast := t.time, firstAudio := true, firstVideo := true)), t)
    else (d1.(scan := d1.scan.(unknown := true)), t)
  }

  function DynamicScanned(l: Limits, d: Dynamic, tags: seq<Item>): (Dynamic, seq<Item>)
    decreases |tags|
  {
    if tags == [] then (d, [])
    else
      var n := |tags| - 1;
      var r := DynamicScanned(l, d, tags[..n]);
      var x := DynamicStep(l, r.0, tags[n]);
      (x.0, r.1 + [x.1])
  }

  // ---------- The end of both ----------

  datatype Flags = Flags(unknownTag: bool, videoOnly: bool, audioOnly: bool, videoLag: bool, audioLag: bool, lowFps: bool)

  function Finished(s: Scan): (Stats, Flags) {
    var st := s.stats;
    var n := Wrap(st.videoTagNum * 1000);
    var st1 := if st.mediaLength != 0 then st.(avFPS := n / st.mediaLength)
               else if s.videoLength != 0 then st.(avFPS := n / s.videoLength, mediaLength := s.videoLength)
               else st;
    var st2 := if s.videoLength != 0 then st1.(realFPS := n / s.videoLength) else st1;
    (st2, Flags(s.unknown, st2.videoOnly > 0, st2.audioOnly > 0, |st2.vAbnormal| > 0, |st2.aAbnormal| > 0,
                st2.avFPS < STUTTER_FPS))
  }

  // ---------- The two models agree ----------

  lemma StepsAgree(l: Limits, d: Dynamic, t: Item)
    ensures DynamicStep(l, d, t).0.scan == Step(l, d.scan, t).0 && DynamicStep(l, d, t).1 == Step(l, d.scan, t).1
  {
    hide Difference, Effective, Behind, Wrap, Added, Entered;
  }

  // Over every list of tags model 1 gives what model 0 gives: statistics, flags and tag differences. Only its dynamic
  // lists are its own.
  lemma {:induction false} ModelsAgree(l: Limits, stats: Stats, tags: seq<Item>, a: seq<u32>, v: seq<u32>)
    ensures var d, s := DynamicScanned(l, BeginDynamic(stats, a, v), tags), Scanned(l, Begin(stats), tags);
      d.0.scan == s.0 && d.1 == s.1 && Finished(d.0.scan) == Finished(s.0)
    decreases |tags|
  {
    hide DynamicStep, Step, Finished;
    if tags != [] {
      var n := |tags| - 1;
      ModelsAgree(l, stats, tags[..n], a, v);
      StepsAgree(l, DynamicScanned(l, BeginDynamic(stats, a, v), tags[..n]).0, tags[n]);
    }
  }

  // ---------- Lengths ----------

  // The scan treats audio and video tags alike, each with its own locals, length and lists.
  datatype Kind = Audio | Video {
    function TagType(): nat {
      if Audio? then AUDIO else VIDEO
    }

    // Whether the next tag of this kind is the first, and the time of the last one.
    predicate First(s: Scan) {
      if Audio? then s.firstAudio else s.firstVideo
    }

    function Last(s: Scan): u32 {
      if Audio? then s.audioLast else s.videoLast
    }

    function Length(s: Scan): u32 {
      if Audio? then s.stats.mediaLength else s.videoLength
    }

    function Limit(l: Limits): i32 {
      if Audio? then l.audio else l.video
    }

    function Abnormal(st: Stats): seq<i32> {
      if Audio? then st.aAbnormal else st.vAbnormal
    }

    function OutOfOrder(st: Stats): seq<i32> {
      if Audio? then st.aTransmitAb else st.vTransmitAb
    }

    // The arrival of the first tag, the sum of the later ones' distances from it, and the list model 1 makes of them.
    function FirstArrival(d: Dynamic): u32 {
      if Audio? then d.audioFirst else d.videoFirst
    }

    function Total(d: Dynamic): u32 {
      if Audio? then d.audioTotal else d.videoTotal
    }

    function Late(d: Dynamic): seq<u32> {
      if Audio? then d.aDynamicAb else d.vDynamicAb
    }
  }

  // A stretch of tags without a script tag or an action in it; base is the time of the last script tag before it.
  datatype Segment = Segment(base: u32, tags: seq<Item>)

  // The segments of a list: a tag with an action opens one, a script tag closes one.
  function Segments(tags: seq<Item>): (r: seq<Segment>)
    ensures |r| > 0
    decreases |tags|
  {
    if tags == [] then [Segment(0, [])]
    else
      var n := |tags| - 1;
      Placed(Opened(Segments(tags[..n]), tags[n]), tags[n])
  }

  function Opened(gs: seq<Segment>, t: Item): (r: seq<Segment>)
    requires gs != []
    ensures r != []
  {
    if t.normal then gs else gs + [Segment(gs[|gs| - 1].base, [])]
  }

  function Placed(gs: seq<Segment>, t: Item): (r: seq<Segment>)
    requires gs != []
    ensures r != []
  {
    if t.tagType == SCRIPT then gs + [Segment(t.time, [])]
    else
      var k := |gs| - 1;
      gs[..k] + [gs[k].(tags := gs[k].tags + [t])]
  }

  // A segment's tags of one kind from its first effective one on.
  function Own(l: Limits, kind: Kind, base: u32, tags: seq<Item>): seq<Item>
    decreases |tags|
  {
    if tags == [] then []
    else
      var n := |tags| - 1;
      var r, t := Own(l, kind, base, tags[..n]), tags[n];
      if t.tagType == kind.TagType() && (r != [] || (t.size >= l.minSize && t.time >= base)) then r + [t] else r
  }

  function Span(l: Limits, kind: Kind, g: Segment): int {
    var ts := Own(l, kind, g.base, g.tags);
    if ts == [] then 0 else ts[|ts| - 1].time as int - ts[0].time as int
  }

  function Spans(l: Limits, kind: Kind, gs: seq<Segment>): int {
    if gs == [] then 0 else Spans(l, kind, gs[..|gs| - 1]) + Span(l, kind, gs[|gs| - 1])
  }

  // What the scan knows of the segment it is in; start is the length it began with.
  ghost predicate InSegment(l: Limits, kind: Kind, start: u32, s: Scan, gs: seq<Segment>)
    requires gs != []
  {
    var g := gs[|gs| - 1];
    var ts := Own(l, kind, g.base, g.tags);
    && s.scriptLast == g.base && kind.First(s) == (ts == [])
    && (ts != [] ==> kind.Last(s) == ts[|ts| - 1].time)
    && kind.Length(s) == Wrap(start + Spans(l, kind, gs))
  }

  lemma DifferenceIs(a: u32, b: u32, x: int)
    ensures Wrap(Wrap(x) + Difference(a, b)) == Wrap(x + a - b)
  {
    var d := Wrap(a - b);
    WrapBoth(x, a - b);
    if d >= 0x8000_0000 {
      AddMultiple(Wrap(x) + d, -1);
    }
  }

  lemma SpansLast(l: Limits, kind: Kind, gs: seq<Segment>, g: Segment)
    ensures Spans(l, kind, gs + [g]) == Spans(l, kind, gs) + Span(l, kind, g)
  {
    assert (gs + [g])[..|gs|] == gs;
  }

  lemma NoneYet(l: Limits, kind: Kind, base: u32)
    ensures Own(l, kind, base, []) == [] && Span(l, kind, Segment(base, [])) == 0
  {
  }

  // What a step does to the scan's view of the tags of one kind.
  lemma StepOne(l: Limits, kind: Kind, s: Scan, t: Item)
    ensures var s' := Step(l, s, t).0;
      var first, own := kind.First(s) || !t.normal, t.tagType == kind.TagType();
      if t.tagType == SCRIPT then s'.scriptLast == t.time && kind.First(s') && kind.Length(s') == kind.Length(s)
      else
        && s'.scriptLast == s.scriptLast
        && if own && first then
             && kind.Length(s') == kind.Length(s)
             && kind.First(s') == !Effective(l, t, s.scriptLast) && (!kind.First(s') ==> kind.Last(s') == t.time)
           else if own then
             && !kind.First(s') && kind.Last(s') == t.time
             && kind.Length(s') == Wrap(kind.Length(s) + Difference(t.time, kind.Last(s)))
           else kind.First(s') == first && kind.Last(s') == kind.Last(s) && kind.Length(s') == kind.Length(s)
  {
    hide Difference, Effective, Behind, Wrap, Added;
  }

  lemma OneMoreTag(l: Limits, kind: Kind, g: Segment, t: Item)
    ensures var ts := Own(l, kind, g.base, g.tags);
      Own(l, kind, g.base, g.tags + [t])
      == if t.tagType == kind.TagType() && (ts != [] || (t.size >= l.minSize && t.time >= g.base)) then ts + [t] else ts
  {
    assert (g.tags + [t])[..|g.tags|] == g.tags;
  }

  // One tag more makes a segment longer by the time since the last tag of the kind.
  lemma SpanGrows(l: Limits, kind: Kind, g: Segment, t: Item)
    ensures var ts := Own(l, kind, g.base, g.tags);
      Span(l, kind, g.(tags := g.tags + [t]))
      == Span(l, kind, g) + if t.tagType == kind.TagType() && ts != [] then t.time as int - ts[|ts| - 1].time else 0
  {
    hide Own, Effective, Kind.TagType;
    OneMoreTag(l, kind, g, t);
  }

  lemma SpansGrow(l: Limits, kind: Kind, gs: seq<Segment>, t: Item)
    requires gs != [] && t.tagType != SCRIPT
    ensures var g := gs[|gs| - 1];
      Spans(l, kind, Placed(gs, t)) == Spans(l, kind, gs) - Span(l, kind, g) + Span(l, kind, g.(tags := g.tags + [t]))
  {
    hide Span;
    var k, g := |gs| - 1, gs[|gs| - 1];
    SpansLast(l, kind, gs[..k], g);
    SpansLast(l, kind, gs[..k], g.(tags := g.tags + [t]));
    assert gs[..k] + [g] == gs;
  }

  // A tag in the middle of a segment.
  lemma StepInside(l: Limits, kind: Kind, start: u32, s: Scan, gs: seq<Segment>, t: Item)
    requires gs != [] && InSegment(l, kind, start, s, gs) && t.tagType != SCRIPT && (t.normal || kind.First(s))
    ensures InSegment(l, kind, start, Step(l, s, t).0, Placed(gs, t))
  {
    hide Step, Own, Span, Spans, Kind.First, Kind.Last, Kind.Length, Kind.TagType, Difference, Wrap;
    StepOne(l, kind, s, t);
    OneMoreTag(l, kind, gs[|gs| - 1], t);
    SpanGrows(l, kind, gs[|gs| - 1], t);
    SpansGrow(l, kind, gs, t);
    DifferenceIs(t.time, kind.Last(s), start + Spans(l, kind, gs));
  }

  lemma StepScript(l: Limits, kind: Kind, start: u32, s: Scan, gs: seq<Segment>, t: Item)
    requires gs != [] && InSegment(l, kind, start, s, gs) && t.tagType == SCRIPT
    ensures InSegment(l, kind, start, Step(l, s, t).0, Placed(gs, t))
  {
    hide Step, Own, Kind.First, Kind.Last, Kind.Length;
    StepOne(l, kind, s, t);
    NoneYet(l, kind, t.time);
    SpansLast(l, kind, gs, Segment(t.time, []));
  }

  // An action starts a segment before the tag is looked at.
  lemma ActionOpens(l: Limits, kind: Kind, start: u32, s: Scan, gs: seq<Segment>, t: Item)
    requires gs != [] && InSegment(l, kind, start, s, gs) && !t.normal
    ensures InSegment(l, kind, start, s.(firstAudio := true, firstVideo := true), Opened(gs, t))
  {
    hide Own;
    NoneYet(l, kind, gs[|gs| - 1].base);
    SpansLast(l, kind, gs, Segment(gs[|gs| - 1].base, []));
  }

  lemma ActionFirst(l: Limits, kind: Kind, s: Scan, t: Item)
    requires !t.normal
    ensures var s' := s.(firstAudio := true, firstVideo := true);
      Step(l, s, t) == Step(l, s', t) && kind.First(s')
  {
  }

  lemma StepSegment(l: Limits, kind: Kind, start: u32, s: Scan, gs: seq<Segment>, t: Item)
    requires gs != [] && InSegment(l, kind, start, s, gs)
    ensures InSegment(l, kind, start, Step(l, s, t).0, Placed(Opened(gs, t), t))
  {
    hide Step, InSegment, Placed, Kind.First;
    var s1 := s;
    if t.normal {
      assert Opened(gs, t) == gs;
    } else {
      ActionOpens(l, kind, start, s, gs, t);
      ActionFirst(l, kind, s, t);
      s1 := s.(firstAudio := true, firstVideo := true);
    }
    if t.tagType == SCRIPT {
      StepScript(l, kind, start, s1, Opened(gs, t), t);
    } else {
      StepInside(l, kind, start, s1, Opened(gs, t), t);
    }
  }

  lemma NothingScanned(l: Limits, kind: Kind, stats: Stats)
    ensures InSegment(l, kind, kind.Length(Begin(stats)), Begin(stats), Segments([]))
  {
    NoneYet(l, kind, 0);
    SpansLast(l, kind, [], Segment(0, []));
    assert [] + [Segment(0, [])] == Segments([]);
  }

  lemma {:induction false} ScanInSegment(l: Limits, kind: Kind, stats: Stats, tags: seq<Item>)
    ensures InSegment(l, kind, kind.Length(Begin(stats)), Scanned(l, Begin(stats), tags).0, Segments(tags))
    decreases |tags|
  {
    hide Step, InSegment, Placed, Opened, Kind.Length;
    if tags == [] {
      NothingScanned(l, kind, stats);
    } else {
      var n := |tags| - 1;
      ScanInSegment(l, kind, stats, tags[..n]);
      StepSegment(l, kind, kind.Length(Begin(stats)), Scanned(l, Begin(stats), tags[..n]).0, Segments(tags[..n]), tags[n]);
    }
  }

  // The scan counts, modulo 2^32, the sum over the segments of last minus first effective time of a kind.
  lemma LengthIs(l: Limits, kind: Kind, stats: Stats, tags: seq<Item>)
    ensures kind.Length(Scanned(l, Begin(stats), tags).0)
         == Wrap(kind.Length(Begin(stats)) + Spans(l, kind, Segments(tags)))
  {
    hide Scanned, Spans, Own, Kind.Length, Kind.First, Kind.Last;
    ScanInSegment(l, kind, stats, tags);
  }

  lemma VideoLengthIs(l: Limits, stats: Stats, tags: seq<Item>)
    ensures Scanned(l, Begin(stats), tags).0.videoLength == Wrap(Spans(l, Video, Segments(tags)))
  {
    hide Scanned, Spans;
    LengthIs(l, Video, stats, tags);
  }

  // The media length of a fresh record is that of its audio tags or, if that is 0, that of its video tags.
  lemma MediaLengthIs(l: Limits, stats: Stats, tags: seq<Item>)
    requires stats.mediaLength == 0
    ensures var audio, video := Wrap(Spans(l, Audio, Segments(tags))), Wrap(Spans(l, Video, Segments(tags)));
      Finished(Scanned(l, Begin(stats), tags).0).0.mediaLength == if audio != 0 then audio else video
  {
    hide Scanned, Spans;
    LengthIs(l, Audio, stats, tags);
    LengthIs(l, Video, stats, tags);
  }

  // ---------- Late arrivals ----------

  // How much later than the first the others arrived, added up.
  function Lag(own: seq<Item>): int {
    if |own| <= 1 then 0 else Lag(own[..|own| - 1]) + own[|own| - 1].arrival - own[0].arrival
  }

  function Lags(l: Limits, kind: Kind, gs: seq<Segment>): int {
    if gs == [] then 0
    else Lags(l, kind, gs[..|gs| - 1]) + Lag(Own(l, kind, gs[|gs| - 1].base, gs[|gs| - 1].tags))
  }

  // One entry for each tag of the kind, but for the first of a segment, by which the arrivals have fallen behind the
  // length by more than the threshold.
  function LateList(l: Limits, kind: Kind, start: u32, tags: seq<Item>): seq<u32>
    decreases |tags|
  {
    if tags == [] then []
    else
      var n, gs := |tags| - 1, Segments(tags);
      var g := gs[|gs| - 1];
      var total, length := Wrap(Lags(l, kind, gs)), Wrap(start + Spans(l, kind, gs));
      Added(LateList(l, kind, start, tags[..n]), Wrap(total - length),
            tags[n].tagType == kind.TagType() && |Own(l, kind, g.base, g.tags)| > 1 && total > Wrap(length + kind.Limit(l)))
  }

  // What model 1 knows of the arrivals in the segment it is in.
  ghost predicate InArrivals(l: Limits, kind: Kind, d: Dynamic, gs: seq<Segment>)
    requires gs != []
  {
    var own := Own(l, kind, gs[|gs| - 1].base, gs[|gs| - 1].tags);
    && (own != [] ==> kind.FirstArrival(d) == own[0].arrival)
    && kind.Total(d) == Wrap(Lags(l, kind, gs))
  }

  // What a step does to the arrivals.
  lemma StepArrival(l: Limits, kind: Kind, d: Dynamic, t: Item)
    ensures var d' := DynamicStep(l, d, t).0;
      var first, own := kind.First(d.scan) || !t.normal, t.tagType == kind.TagType();
      if own && !first then
        && kind.FirstArrival(d') == kind.FirstArrival(d)
        && kind.Total(d') == Wrap(kind.Total(d) + Difference(t.arrival, kind.FirstArrival(d)))
        && kind.Late(d') == Added(kind.Late(d), Wrap(kind.Total(d') - kind.Length(d'.scan)),
                                  kind.Total(d') > Wrap(kind.Length(d'.scan) + kind.Limit(l)))
      else
        && kind.Total(d') == kind.Total(d) && kind.Late(d') == kind.Late(d)
        && kind.FirstArrival(d')
           == if own && Effective(l, t, d.scan.scriptLast) then t.arrival else kind.FirstArrival(d)
  {
    hide Difference, Effective, Behind, Wrap, Added;
  }

  lemma LagMore(own: seq<Item>, t: Item)
    ensures Lag(own + [t]) == Lag(own) + if own == [] then 0 else t.arrival as int - own[0].arrival
  {
    assert (own + [t])[..|own|] == own;
  }

  lemma LagsLast(l: Limits, kind: Kind, gs: seq<Segment>, g: Segment)
    ensures Lags(l, kind, gs + [g]) == Lags(l, kind, gs) + Lag(Own(l, kind, g.base, g.tags))
  {
    assert (gs + [g])[..|gs|] == gs;
  }

  // The last segment of a list and the tags of the kind in it, before and after one more tag; an action or a script
  // tag leaves nothing before it.
  lemma OwnStep(l: Limits, kind: Kind, gs: seq<Segment>, t: Item)
    requires gs != []
    ensures var g, g' := gs[|gs| - 1], Placed(Opened(gs, t), t)[|Placed(Opened(gs, t), t)| - 1];
      var before := if t.normal then Own(l, kind, g.base, g.tags) else [];
      var own := Own(l, kind, g'.base, g'.tags);
      var counts := t.tagType == kind.TagType() && (before != [] || (t.size >= l.minSize && t.time >= g.base));
      && own == (if t.tagType == SCRIPT then [] else if counts then before + [t] else before)
      && Lags(l, kind, Placed(Opened(gs, t), t))
         == Lags(l, kind, gs) + if counts && before != [] then t.arrival as int - before[0].arrival else 0
  {
    hide Own, Effective, Lag, Lags, Kind.TagType;
    var g := gs[|gs| - 1];
    NoneYet(l, kind, g.base);
    NoneYet(l, kind, t.time);
    LagNone();
    LagsLast(l, kind, gs, Segment(g.base, []));
    var os := Opened(gs, t);
    var o := os[|os| - 1];
    KindIsNot(kind, t);
    if t.tagType == SCRIPT {
      LagsLast(l, kind, os, Segment(t.time, []));
    } else {
      OneMoreTag(l, kind, o, t);
      LagMore(Own(l, kind, o.base, o.tags), t);
      LagsLast(l, kind, os[..|os| - 1], o);
      LagsLast(l, kind, os[..|os| - 1], o.(tags := o.tags + [t]));
      assert os[..|os| - 1] + [o] == os;
    }
  }

  lemma LagNone()
    ensures Lag([]) == 0
  {
  }

  lemma KindIsNot(kind: Kind, t: Item)
    ensures t.tagType == SCRIPT ==> t.tagType != kind.TagType()
  {
  }

  // One more tag.
  lemma ArrivalsStep(l: Limits, kind: Kind, start: u32, d: Dynamic, gs: seq<Segment>, t: Item)
    requires gs != [] && InSegment(l, kind, start, d.scan, gs) && InArrivals(l, kind, d, gs)
    ensures var d', gs' := DynamicStep(l, d, t).0, Placed(Opened(gs, t), t);
      var own := Own(l, kind, gs'[|gs'| - 1].base, gs'[|gs'| - 1].tags);
      var total, length := Wrap(Lags(l, kind, gs')), Wrap(start + Spans(l, kind, gs'));
      && InSegment(l, kind, start, d'.scan, gs') && InArrivals(l, kind, d', gs')
      && kind.Late(d') == Added(kind.Late(d), Wrap(total - length),
           t.tagType == kind.TagType() && |own| > 1 && total > Wrap(length + kind.Limit(l)))
  {
    hide DynamicStep, Step, Own, Lags, Spans, Placed, Opened, Wrap, Difference, Kind.TagType, Kind.Limit,
      Kind.First, Kind.Last, Kind.Length, Kind.FirstArrival, Kind.Total, Kind.Late;
    StepsAgree(l, d, t);
    StepSegment(l, kind, start, d.scan, gs, t);
    StepArrival(l, kind, d, t);
    OwnStep(l, kind, gs, t);
    KindIsNot(kind, t);
    DifferenceIs(t.arrival, kind.FirstArrival(d), Lags(l, kind, gs));
  }

  // Model 1's list of late arrivals, from the segments alone.
  lemma {:induction false} LateListIs(l: Limits, kind: Kind, stats: Stats, tags: seq<Item>, a: seq<u32>, v: seq<u32>)
    ensures var d, d0 := DynamicScanned(l, BeginDynamic(stats, a, v), tags).0, BeginDynamic(stats, a, v);
      var start := kind.Length(d0.scan);
      && InSegment(l, kind, start, d.scan, Segments(tags)) && InArrivals(l, kind, d, Segments(tags))
      && kind.Late(d) == kind.Late(d0) + LateList(l, kind, start, tags)
    decreases |tags|
  {
    hide DynamicStep, InSegment, InArrivals, Placed, Opened, Own, Lags, Spans, Kind.Late, Kind.Length, Kind.Limit,
      Kind.TagType;
    var d0 := BeginDynamic(stats, a, v);
    if tags == [] {
      NothingScanned(l, kind, stats);
      NothingArrived(l, kind, d0);
      assert kind.Late(d0) + [] == kind.Late(d0);
    } else {
      var n, t := |tags| - 1, tags[|tags| - 1];
      LateListIs(l, kind, stats, tags[..n], a, v);
      var d := DynamicScanned(l, d0, tags[..n]).0;
      ArrivalsStep(l, kind, kind.Length(d0.scan), d, Segments(tags[..n]), t);
    }
  }

  lemma NothingArrived(l: Limits, kind: Kind, d: Dynamic)
    requires d.audioTotal == d.videoTotal == 0
    ensures InArrivals(l, kind, d, Segments([]))
  {
    NoneYet(l, kind, 0);
    LagsLast(l, kind, [], Segment(0, []));
    assert [] + [Segment(0, [])] == Segments([]);
  }

  // ---------- Abnormal and out-of-order differences ----------

  // The difference a tag is counted with, if it is one of its kind and not the first.
  function DeltaOf(kind: Kind, s: Scan, t: Item): seq<i32> {
    var s1 := Entered(s, t);
    if t.tagType == kind.TagType() && !kind.First(s1) then [Difference(t.time, kind.Last(s1))] else []
  }

  // The differences counted for the tags of one kind, in order.
  function Deltas(l: Limits, kind: Kind, s: Scan, tags: seq<Item>): seq<i32>
    decreases |tags|
  {
    if tags == [] then []
    else
      var n := |tags| - 1;
      Deltas(l, kind, s, tags[..n]) + DeltaOf(kind, Scanned(l, s, tags[..n]).0, tags[n])
  }

  function AtLeast(ds: seq<i32>, limit: int): seq<i32> {
    if ds == [] then []
    else AtLeast(ds[..|ds| - 1], limit) + if ds[|ds| - 1] >= limit then [ds[|ds| - 1]] else []
  }

  function Below(ds: seq<i32>, limit: int): seq<i32> {
    if ds == [] then []
    else Below(ds[..|ds| - 1], limit) + if ds[|ds| - 1] < limit then [ds[|ds| - 1]] else []
  }

  lemma StepAdds(l: Limits, kind: Kind, s: Scan, t: Item)
    ensures var ds, st, limit := DeltaOf(kind, s, t), Step(l, s, t).0.stats, kind.Limit(l);
      if ds == [] then kind.Abnormal(st) == kind.Abnormal(s.stats) && kind.OutOfOrder(st) == kind.OutOfOrder(s.stats)
      else
        && kind.Abnormal(st) == Added(kind.Abnormal(s.stats), ds[0], limit <= ds[0])
        && kind.OutOfOrder(st) == Added(kind.OutOfOrder(s.stats), ds[0], limit > ds[0] && 0 > ds[0])
  {
    hide Difference, Effective, Behind, Wrap, Added;
  }

  lemma StepLists(l: Limits, kind: Kind, s: Scan, t: Item)
    ensures var ds, st := DeltaOf(kind, s, t), Step(l, s, t).0.stats;
      && kind.Abnormal(st) == kind.Abnormal(s.stats) + AtLeast(ds, kind.Limit(l))
      && kind.OutOfOrder(st) == kind.OutOfOrder(s.stats) + Below(ds, Min0(kind.Limit(l)))
  {
    hide Step, DeltaOf, Kind.Abnormal, Kind.OutOfOrder, Kind.Limit;
    StepAdds(l, kind, s, t);
    AtMostOne(kind, s, t);
    var ds := DeltaOf(kind, s, t);
    if ds != [] {
      assert ds == [ds[0]] && ds[..0] == [];
    }
  }

  function Min0(x: int): int {
    if x < 0 then x else 0
  }

  lemma FilterMore(a: seq<i32>, b: seq<i32>, limit: int)
    requires |b| <= 1
    ensures AtLeast(a + b, limit) == AtLeast(a, limit) + AtLeast(b, limit)
    ensures Below(a + b, limit) == Below(a, limit) + Below(b, limit)
  {
    if b == [] {
      assert a + b == a;
    } else {
      assert (a + b)[..|a|] == a && b[..0] == [];
    }
  }

  // The lists hold exactly the differences of at least the threshold, and those below 0 and the threshold.
  lemma {:induction false} ListsAre(l: Limits, kind: Kind, s: Scan, tags: seq<Item>)
    ensures var st, ds := Scanned(l, s, tags).0.stats, Deltas(l, kind, s, tags);
      && kind.Abnormal(st) == kind.Abnormal(s.stats) + AtLeast(ds, kind.Limit(l))
      && kind.OutOfOrder(st) == kind.OutOfOrder(s.stats) + Below(ds, Min0(kind.Limit(l)))
    decreases |tags|
  {
    hide Step, Entered, DeltaOf, Kind.Abnormal, Kind.OutOfOrder, Kind.Limit;
    if tags != [] {
      var n, t := |tags| - 1, tags[|tags| - 1];
      ListsAre(l, kind, s, tags[..n]);
      var before := Scanned(l, s, tags[..n]).0;
      StepLists(l, kind, before, t);
      AtMostOne(kind, before, t);
      FilterMore(Deltas(l, kind, s, tags[..n]), DeltaOf(kind, before, t), kind.Limit(l));
      FilterMore(Deltas(l, kind, s, tags[..n]), DeltaOf(kind, before, t), Min0(kind.Limit(l)));
    }
  }

  lemma AtMostOne(kind: Kind, s: Scan, t: Item)
    ensures |DeltaOf(kind, s, t)| <= 1
  {
  }

  // With a positive threshold no difference is in both lists, and together they hold no more than were counted.
  lemma {:induction false} ListsApart(ds: seq<i32>, limit: int)
    requires limit > 0
    ensures Below(ds, Min0(limit)) == Below(ds, 0)
    ensures forall x | x in AtLeast(ds, limit) :: x !in Below(ds, 0)
    ensures |AtLeast(ds, limit)| + |Below(ds, 0)| <= |ds|
    decreases |ds|
  {
    OnlyAbove(ds, limit);
    OnlyBelow(ds, 0);
    if ds != [] {
      ListsApart(ds[..|ds| - 1], limit);
    }
  }

  lemma {:induction false} OnlyAbove(ds: seq<i32>, limit: int)
    ensures forall x | x in AtLeast(ds, limit) :: x >= limit
    decreases |ds|
  {
    if ds != [] {
      OnlyAbove(ds[..|ds| - 1], limit);
    }
  }

  lemma {:induction false} OnlyBelow(ds: seq<i32>, limit: int)
    ensures forall x | x in Below(ds, limit) :: x < limit
    decreases |ds|
  {
    if ds != [] {
      OnlyBelow(ds[..|ds| - 1], limit);
    }
  }

  // For a fresh record: every counted difference is in at most one of its kind's two lists.
  lemma KindListsApart(l: Limits, kind: Kind, stats: Stats, tags: seq<Item>)
    requires kind.Limit(l) > 0 && kind.Abnormal(stats) == [] && kind.OutOfOrder(stats) == []
    ensures var st := Scanned(l, Begin(stats), tags).0.stats;
      && (forall x | x in kind.Abnormal(st) :: x !in kind.OutOfOrder(st) && x >= kind.Limit(l))
      && (forall x | x in kind.OutOfOrder(st) :: x < 0)
      && |kind.Abnormal(st)| + |kind.OutOfOrder(st)| <= |Deltas(l, kind, Begin(stats), tags)|
  {
    hide Scanned, Deltas, AtLeast, Below, Kind.Abnormal, Kind.OutOfOrder, Kind.Limit;
    var ds, limit := Deltas(l, kind, Begin(stats), tags), kind.Limit(l);
    ListsAre(l, kind, Begin(stats), tags);
    ListsApart(ds, limit);
    OnlyAbove(ds, limit);
    OnlyBelow(ds, 0);
    assert [] + AtLeast(ds, limit) == AtLeast(ds, limit);
    assert [] + Below(ds, 0) == Below(ds, 0);
  }
}
