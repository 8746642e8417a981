// CheckFlvData as it runs (FlvCheck.cpp): one of two loops over the tags, statistics and first-tag flags updated on the
// way, each counted tag marked with its difference in place.
module FlvChecker {
  import opened Bytes
  import opened FlvStats

  class Checker {
    const l: Limits
    var statInfo: Stats  // STATIC_INFO
    var aDynamicAb: seq<u32>
    var vDynamicAb: seq<u32>

    constructor (l: Limits)
      ensures this.l == l
      ensures statInfo == Stats(0, 0, 0, 0, [], [], [], [], [], [], 0, 0, 0, 0) && aDynamicAb == vDynamicAb == []
    {
      this.l := l;
      statInfo := Stats(0, 0, 0, 0, [], [], [], [], [], [], 0, 0, 0, 0);
      aDynamicAb, vDynamicAb := [], [];
    }

    // ---------- Model 0 ----------

    method AudioTag(s0: Scan, t: Item) returns (s: Scan, t1: Item)
      ensures (s, t1) == AudioStep(l, s0, t)
    {
      hide Difference;
      s, t1 := s0, t;
      var st := s.stats;
      st := st.(audioTagNum := st.audioTagNum + 1);
      if s.firstAudio {
        if t.size >= l.minSize && t.time >= s.scriptLast {
          s := s.(firstAudio := false, audioLast := t.time);
        }
        s := s.(stats := st);
        return;
      }
      var timeStampSub := Difference(t.time, s.audioLast);
      s := s.(audioLast := t.time);
      t1 := t.(sub := timeStampSub);
      st := st.(mediaLength := Wrap(st.mediaLength + timeStampSub));
      if l.audio <= timeStampSub {
        st := st.(aAbnormal := st.aAbnormal + [timeStampSub]);
      } else if 0 > timeStampSub {
        st := st.(aTransmitAb := st.aTransmitAb + [timeStampSub]);
      }
      if t.time != 0 && s.videoLast > STUTTER_TIME {
        if t.time <= s.videoLast - STUTTER_TIME {
          st := st.(videoOnly := st.videoOnly + 1);
        }
      }
      if t.size < l.minSize {
        st := st.(aInvalid := st.aInvalid + [t1]);
      }
      s := s.(stats := st);
    }

    method VideoTag(s0: Scan, t: Item) returns (s: Scan, t1: Item)
      ensures (s, t1) == VideoStep(l, s0, t)
    {
      hide Difference;
      s, t1 := s0, t;
      var st := s.stats;
      st := st.(videoTagNum := st.videoTagNum + 1);
      if s.firstVideo {
        if t.size >= l.minSize && t.time >= s.scriptLast {
          s := s.(firstVideo := false, videoLast := t.time);
        }
        s := s.(stats := st);
        return;
      }
      var timeStampSub := Difference(t.time, s.videoLast);
      s := s.(videoLast := t.time);
      t1 := t.(sub := timeStampSub);
      s := s.(videoLength := Wrap(s.videoLength + timeStampSub));
      if l.video <= timeStampSub {
        st := st.(vAbnormal := st.vAbnormal + [timeStampSub]);
      } else if 0 > timeStampSub {
        st := st.(vTransmitAb := st.vTransmitAb + [timeStampSub]);
      }
      if t.time != 0 && s.audioLast > STUTTER_TIME {
        if t.time <= s.audioLast - STUTTER_TIME {
          st := st.(audioOnly := st.audioOnly + 1);
        }
      }
      if t.size < l.minSize {
        st := st.(vInvalid := st.vInvalid + [t1]);
      }
      s := s.(stats := st);
    }

    method Enter(s0: Scan, t: Item) returns (s: Scan)
      ensures s == Entered(s0, t)
    {
      s := s0.(stats := s0.stats.(mediaSize := s0.stats.mediaSize + t.size));
      if !t.normal {
        s := s.(firstAudio := true, firstVideo := true);
      }
    }

    method PlainTag(s0: Scan, t: Item) returns (s: Scan, t1: Item)
      ensures (s, t1) == Step(l, s0, t)
    {
      hide AudioStep, VideoStep, Entered;
      s := Enter(s0, t);
      t1 := t;
      if t.tagType == AUDIO {
        s, t1 := AudioTag(s, t);
      } else if t.tagType == VIDEO {
        s, t1 := VideoTag(s, t);
      } else if t.tagType == SCRIPT {
        s := s.(scriptLast := t.time, firstAudio := true, firstVideo := true);
      } else {
        s := s.(unknown := true);
      }
    }

    // ---------- Model 1: the first loop's branches again, with the arrival times added ----------

    method DynamicAudioTag(d0: Dynamic, t: Item) returns (d: Dynamic, t1: Item)
      ensures (d, t1) == AudioWatched(l, d0, t)
    {
      hide Difference;
      d, t1 := d0, t;
      var s, st := d.scan, d.scan.stats;
      st := st.(audioTagNum := st.audioTagNum + 1);
      if s.firstAudio {
        if t.size >= l.minSize && t.time >= s.scriptLast {
          s := s.(firstAudio := false, audioLast := t.time);
          d := d.(audioFirst := t.arrival);
        }
        d := d.(scan := s.(stats := st));
        return;
      }
      var timeStampSub := Difference(t.time, s.audioLast);
      s := s.(audioLast := t.time);
      t1 := t.(sub := timeStampSub);
      st := st.(mediaLength := Wrap(st.mediaLength + timeStampSub));
      d := d.(audioTotal := Wrap(d.audioTotal + Difference(t.arrival, d.audioFirst)));
      if l.audio <= timeStampSub {
        st := st.(aAbnormal := st.aAbnormal + [timeStampSub]);
      } else if 0 > timeStampSub {
        st := st.(aTransmitAb := st.aTransmitAb + [timeStampSub]);
      }
      if t.time != 0 && s.videoLast > STUTTER_TIME {
        if t.time <= s.videoLast - STUTTER_TIME {
          st := st.(videoOnly := st.videoOnly + 1);
        }
      }
      if d.audioTotal > Wrap(st.mediaLength + l.audio) {
        d := d.(aDynamicAb := d.aDynamicAb + [Wrap(d.audioTotal - st.mediaLength)]);
      }
      if t.size < l.minSize {
        st := st.(aInvalid := st.aInvalid + [t1]);
      }
      d := d.(scan := s.(stats := st));
    }

    method DynamicVideoTag(d0: Dynamic, t: Item) returns (d: Dynamic, t1: Item)
      ensures (d, t1) == VideoWatched(l, d0, t)
    {
      hide Difference;
      d, t1 := d0, t;
      var s, st := d.scan, d.scan.stats;
      st := st.(videoTagNum := st.videoTagNum + 1);
      if s.firstVideo {
        if t.size >= l.minSize && t.time >= s.scriptLast {
          s := s.(firstVideo := false, videoLast := t.time);
          d := d.(videoFirst := t.arrival);
        }
        d := d.(scan := s.(stats := st));
        return;
      }
      var timeStampSub := Difference(t.time, s.videoLast);
      s := s.(videoLast := t.time);
      t1 := t.(sub := timeStampSub);
      s := s.(videoLength := Wrap(s.videoLength + timeStampSub));
      d := d.(videoTotal := Wrap(d.videoTotal + Difference(t.arrival, d.videoFirst)));
      if l.video <= timeStampSub {
        st := st.(vAbnormal := st.vAbnormal + [timeStampSub]);
      } else if 0 > timeStampSub {
        st := st.(vTransmitAb := st.vTransmitAb + [timeStampSub]);
      }
      if t.time != 0 && s.audioLast > STUTTER_TIME {
        if t.time <= s.audioLast - STUTTER_TIME {
          st := st.(audioOnly := st.audioOnly + 1);
        }
      }
      if d.videoTotal > Wrap(s.videoLength + l.video) {
        d := d.(vDynamicAb := d.vDynamicAb + [Wrap(d.videoTotal - s.videoLength)]);
      }
      if t.size < l.minSize {
        st := st.(vInvalid := st.vInvalid + [t1]);
      }
      d := d.(scan := s.(stats := st));
    }

    method DynamicTag(d0: Dynamic, t: Item) returns (d: Dynamic, t1: Item)
      ensures (d, t1) == DynamicStep(l, d0, t)
    {
      hide AudioWatched, VideoWatched, Entered;
      var s := Enter(d0.scan, t);
      d := d0.(scan := s);
      t1 := t;
      if t.tagType == AUDIO {
        d, t1 := DynamicAudioTag(d, t);
      } else if t.tagType == VIDEO {
        d, t1 := DynamicVideoTag(d, t);
      } else if t.tagType == SCRIPT {
        d := d.(scan := s.(scriptLast := t.time, firstAudio := true, firstVideo := true));
      } else {
        d := d.(scan := s.(unknown := true));
      }
    }

    // ---------- The whole check ----------

    method Finish(s: Scan) returns (flags: Flags)
      modifies this`statInfo
      ensures (statInfo, flags) == Finished(s)
    {
      var st := s.stats;
      var n := Wrap(st.videoTagNum * 1000);
      if st.mediaLength != 0 {
        st := st.(avFPS := n / st.mediaLength);
      } else if s.videoLength != 0 {
        st := st.(avFPS := n / s.videoLength);
        st := st.(mediaLength := s.videoLength);
      }
      if s.videoLength != 0 {
        st := st.(realFPS := n / s.videoLength);
      }
      statInfo := st;
      flags := Flags(s.unknown, st.videoOnly > 0, st.audioOnly > 0, |st.vAbnormal| > 0, |st.aAbnormal| > 0,
                     st.avFPS < STUTTER_FPS);
    }

    // CheckFlvData: both models give the same statistics and flags and mark the tags alike; model 0 leaves the dynamic
    // lists alone.
    method CheckFlvData(a: array<Item>, model: int) returns (flags: Flags)
      modifies this, a
      ensures var s := Scanned(l, Begin(old(statInfo)), old(a[..]));
        (statInfo, flags) == Finished(s.0) && a[..] == s.1
      ensures model == 0 ==> aDynamicAb == old(aDynamicAb) && vDynamicAb == old(vDynamicAb)
      ensures model != 0 ==>
        var d := DynamicScanned(l, BeginDynamic(old(statInfo), old(aDynamicAb), old(vDynamicAb)), old(a[..])).0;
        aDynamicAb == d.aDynamicAb && vDynamicAb == d.vDynamicAb
    {
      hide Step, DynamicStep, Finished, Scanned, DynamicScanned;
      var s;
      if model == 0 {
        s := PlainLoop(a);
      } else {
        ModelsAgree(l, statInfo, a[..], aDynamicAb, vDynamicAb);
        var d := DynamicLoop(a);
        s, aDynamicAb, vDynamicAb := d.scan, d.aDynamicAb, d.vDynamicAb;
      }
      flags := Finish(s);
    }

    method PlainLoop(a: array<Item>) returns (s: Scan)
      modifies a
      ensures (s, a[..]) == Scanned(l, Begin(statInfo), old(a[..]))
    {
      hide Step;
      s := Scan(statInfo, 0, 0, 0, true, true, 0, false);
      ghost var tags := a[..];
      for i := 0 to a.Length
        invariant (s, a[..i]) == Scanned(l, Begin(statInfo), tags[..i])
        invariant a[i..] == tags[i..]
      {
        NextTag(tags, i);
        assert a[i] == a[i..][0] == tags[i];
        var t;
        s, t := PlainTag(s, a[i]);
        a[i] := t;
        assert a[..i + 1] == a[..i] + [a[i]];
        assert a[i + 1..] == tags[i + 1..];
      }
      assert tags[..a.Length] == tags && a[..a.Length] == a[..];
    }

    method DynamicLoop(a: array<Item>) returns (d: Dynamic)
      modifies a
      ensures (d, a[..]) == DynamicScanned(l, BeginDynamic(statInfo, aDynamicAb, vDynamicAb), old(a[..]))
    {
      hide DynamicStep;
      d := Dynamic(Scan(statInfo, 0, 0, 0, true, true, 0, false), 0, 0, 0, 0, aDynamicAb, vDynamicAb);
      ghost var tags := a[..];
      for i := 0 to a.Length
        invariant (d, a[..i]) == DynamicScanned(l, BeginDynamic(statInfo, aDynamicAb, vDynamicAb), tags[..i])
        invariant a[i..] == tags[i..]
      {
        NextTag(tags, i);
        assert a[i] == a[i..][0] == tags[i];
        var t;
        d, t := DynamicTag(d, a[i]);
        a[i] := t;
        assert a[..i + 1] == a[..i] + [a[i]];
        assert a[i + 1..] == tags[i + 1..];
      }
      assert tags[..a.Length] == tags && a[..a.Length] == a[..];
    }

    lemma NextTag(tags: seq<Item>, i: nat)
      requires i < |tags|
      ensures tags[..i + 1][..i] == tags[..i] && tags[..i + 1][i] == tags[i]
    {
    }
  }
}
