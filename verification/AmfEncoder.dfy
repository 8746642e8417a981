// The AMF0 encoders (librtmp/amf.c): an output pointer advances through a buffer of limited room.
module AmfEncoder {
  import opened Amf
  import opened Buffer
  import opened Bytes

  // An encoder that started at `at` with room up to `end` wrote r there, if r is something, and returned where it ended,
  // or else NULL; it touched nothing outside its room.
  ghost predicate WroteTo(before: seq<byte>, after: seq<byte>, at: nat, end: nat, r: Option<seq<byte>>, next: Option<nat>) {
    && at <= end <= |before| == |after|
    && after[..at] == before[..at] && after[end..] == before[end..]
    && if r.None? then next.None?
       else next == Some(at + |r.value|) && at + |r.value| <= end && after[at..at + |r.value|] == r.value
  }

  ghost predicate Wrote(a: array<byte>, before: seq<byte>, at: nat, end: nat, r: Option<seq<byte>>, next: Option<nat>)
    reads a
  {
    WroteTo(before, a[..], at, end, r, next)
  }

  lemma PatchIsWritten(before: seq<byte>, after: seq<byte>, at: nat, end: nat, s: seq<byte>)
    requires PatchedTo(before, after, at, s) && at + |s| <= end <= |before|
    ensures WroteTo(before, after, at, end, Some(s), Some(at + |s|))
  {
    assert after[end..] == after[at + |s|..][end - at - |s|..];
    assert before[end..] == before[at + |s|..][end - at - |s|..];
  }

  // An encoder that goes on where another one stopped: what was written before stays.
  lemma WrittenKeeps(before: seq<byte>, middle: seq<byte>, after: seq<byte>, at: nat, end: nat, s: seq<byte>,
                     r: Option<seq<byte>>, next: Option<nat>)
    requires WroteTo(before, middle, at, end, Some(s), Some(at + |s|))
    requires WroteTo(middle, after, at + |s|, end, r, next)
    ensures WroteTo(before, after, at, end, Some(s), Some(at + |s|))
  {
    var k := at + |s|;
    assert after[..at] == after[..k][..at] == middle[..k][..at] == middle[..at];
    assert after[at..k] == after[..k][at..] == middle[..k][at..] == middle[at..k];
  }

  lemma WrittenThen(before: seq<byte>, middle: seq<byte>, after: seq<byte>, at: nat, end: nat, s: seq<byte>,
                    r: Option<seq<byte>>, next: Option<nat>)
    requires WroteTo(before, middle, at, end, Some(s), Some(at + |s|))
    requires WroteTo(middle, after, at + |s|, end, r, next)
    ensures WroteTo(before, after, at, end, if r.Some? then Some(s + r.value) else None, next)
  {
    WrittenKeeps(before, middle, after, at, end, s, r, next);
    var k := at + |s|;
    if r.Some? {
      Rejoin(after, at, k, k + |r.value|);
    }
  }

  lemma Untouched(s: seq<byte>, at: nat, end: nat)
    requires at <= end <= |s|
    ensures WroteTo(s, s, at, end, None, None) && WroteTo(s, s, at, end, Some([]), Some(at))
  {
  }

  method EncodeInt16(a: array<byte>, i: nat, x: nat) returns (next: nat)
    requires i + 2 <= a.Length
    modifies a
    ensures next == i + 2 && Patched(a, old(a[..]), i, Be16(x))
  {
    a[i + 1] := x % 0x100;
    a[i] := x / 0x100 % 0x100;
    next := i + 2;
  }

  method EncodeByte(a: array<byte>, i: nat, x: byte) returns (next: nat)
    requires i < a.Length
    modifies a
    ensures next == i + 1 && Patched(a, old(a[..]), i, [x])
  {
    a[i] := x;
    next := i + 1;
  }

  method EncodeTextHead(a: array<byte>, at: nat, n: nat) returns (next: nat)
    requires at + |TextHead(n)| <= a.Length
    modifies a
    ensures next == at + |TextHead(n)| && Patched(a, old(a[..]), at, TextHead(n))
  {
    hide PatchedTo;
    ghost var s0 := a[..];
    next := EncodeByte(a, at, if n < B16 then STRING else LONG_STRING);
    ghost var s1 := a[..];
    if n < B16 {
      next := EncodeInt16(a, next, n);
      PatchAgain(s0, s1, a[..], at, [STRING], Be16(n));
    } else {
      next := EncodeInt32(a, next, n);
      PatchAgain(s0, s1, a[..], at, [LONG_STRING], Be32(n));
    }
  }

  method EncodeString(a: array<byte>, at: nat, end: nat, s: seq<byte>) returns (next: Option<nat>)
    requires at <= end <= a.Length
    modifies a
    ensures Wrote(a, old(a[..]), at, end, EncodeText(s, end - at), next)
  {
    hide PatchedTo, WroteTo, TextHead;
    if (|s| < B16 && at + 1 + 2 + |s| > end) || at + 1 + 4 + |s| > end {
      Untouched(a[..], at, end);
      return None;
    }
    ghost var s0 := a[..];
    var i := EncodeTextHead(a, at, |s|);
    ghost var s1 := a[..];
    Copy(a, i, s);
    PatchAgain(s0, s1, a[..], at, TextHead(|s|), s);
    PatchIsWritten(s0, a[..], at, end, TextHead(|s|) + s);
    next := Some(i + |s|);
  }

  method EncodeNumber(a: array<byte>, at: nat, end: nat, bits: Double) returns (next: Option<nat>)
    requires at <= end <= a.Length
    modifies a
    ensures Wrote(a, old(a[..]), at, end, EncodeValue(Number(bits), end - at), next)
  {
    Untouched(a[..], at, end);
    if at + 1 + 8 > end {
      return None;
    }
    ghost var s0 := a[..];
    var i := EncodeByte(a, at, NUMBER);
    ghost var s1 := a[..];
    Copy(a, i, bits);
    PatchAgain(s0, s1, a[..], at, [NUMBER], bits);
    PatchIsWritten(s0, a[..], at, end, [NUMBER] + bits);
    next := Some(i + 8);
  }

  method EncodeBoolean(a: array<byte>, at: nat, end: nat, b: bool) returns (next: Option<nat>)
    requires at <= end <= a.Length
    modifies a
    ensures Wrote(a, old(a[..]), at, end, EncodeValue(Boolean(b), end - at), next)
  {
    Untouched(a[..], at, end);
    if at + 2 > end {
      return None;
    }
    ghost var s0 := a[..];
    a[at] := BOOLEAN;
    a[at + 1] := if b then 0x01 else 0x00;
    PatchIsWritten(s0, a[..], at, end, [BOOLEAN, if b then 1 else 0]);
    next := Some(at + 2);
  }

  // The loop over the members: it stops at the first one that fails.
  method EncodeMembers(a: array<byte>, at: nat, end: nat, props: seq<Prop>) returns (next: nat)
    requires at <= end <= a.Length
    modifies a
    ensures next <= end && Wrote(a, old(a[..]), at, end, Some(EncodeProps(props, end - at)), Some(next))
    decreases props, 0
  {
    hide WroteTo, EncodeProp, EncodeProps;
    ghost var s0 := a[..];
    ghost var done: seq<byte> := [];
    next := at;
    Untouched(s0, at, end);
    assert props[0..] == props;
    for i := 0 to |props|
      invariant next == at + |done| <= end
      invariant Wrote(a, s0, at, end, Some(done), Some(next))
      invariant done + EncodeProps(props[i..], end - next) == EncodeProps(props, end - at)
    {
      ghost var s1 := a[..];
      PropsStep(done, props, i, end - next);
      var res := EncodeMember(a, next, end, props[i]);
      ghost var r := EncodeProp(props[i], end - next);
      WrittenThen(s0, s1, a[..], at, end, done, r, res);
      WrittenKeeps(s0, s1, a[..], at, end, done, r, res);
      WroteWhere(s1, a[..], next, end, r, res);
      if res.None? {
        return;
      }
      done := done + r.value;
      next := res.value;
    }
    NoProps(done, props, end - next);
  }

  lemma PropsStep(done: seq<byte>, props: seq<Prop>, i: nat, room: nat)
    requires i < |props|
    ensures var r := EncodeProp(props[i], room);
      done + EncodeProps(props[i..], room)
      == if r.None? then done else done + r.value + EncodeProps(props[i + 1..], room - |r.value|)
  {
    hide EncodeProp;
    assert props[i..][0] == props[i] && props[i..][1..] == props[i + 1..];
    var r := EncodeProp(props[i], room);
    if r.Some? {
      var more := EncodeProps(props[i + 1..], room - |r.value|);
      assert done + (r.value + more) == done + r.value + more;
    } else {
      assert done + [] == done;
    }
  }

  lemma NoProps(done: seq<byte>, props: seq<Prop>, room: nat)
    ensures done + EncodeProps(props[|props|..], room) == done
  {
  }

  lemma WroteWhere(before: seq<byte>, after: seq<byte>, at: nat, end: nat, r: Option<seq<byte>>, next: Option<nat>)
    requires WroteTo(before, after, at, end, r, next)
    ensures r.None? <==> next.None?
    ensures r.Some? ==> next == Some(at + |r.value|) && at + |r.value| <= end
  {
  }

  method EncodeName(a: array<byte>, at: nat, end: nat, p: Prop) returns (next: nat)
    requires at + |NameBytes(p)| <= end <= a.Length
    modifies a
    ensures next == at + |NameBytes(p)|
    ensures Wrote(a, old(a[..]), at, end, Some(NameBytes(p)), Some(next))
  {
    next := at;
    ghost var s0 := a[..];
    Untouched(s0, at, end);
    if !p.value.Null? && |p.name| > 0 {
      next := EncodeInt16(a, at, |p.name|);
      ghost var s1 := a[..];
      Copy(a, next, p.name);
      next := next + |p.name|;
      PatchAgain(s0, s1, a[..], at, Be16(|p.name|), p.name);
      PatchIsWritten(s0, a[..], at, end, NameBytes(p));
    }
  }

  // AMFProp_Encode.
  method EncodeMember(a: array<byte>, at: nat, end: nat, p: Prop) returns (next: Option<nat>)
    requires at <= end <= a.Length
    modifies a
    ensures Wrote(a, old(a[..]), at, end, EncodeProp(p, end - at), next)
    decreases p
  {
    hide WroteTo, NameBytes, EncodeValue;
    NameFits(p, end - at);
    Untouched(a[..], at, end);
    if p.value.Invalid? {
      return None;
    }
    if !p.value.Null? && at + |p.name| + 2 + 1 >= end {
      return None;
    }
    ghost var s0 := a[..];
    var i := EncodeName(a, at, end, p);
    ghost var s1 := a[..];
    next := EncodePayload(a, i, end, p.value);
    WrittenThen(s0, s1, a[..], at, end, NameBytes(p), EncodeValue(p.value, end - i), next);
  }

  lemma NameFits(p: Prop, room: int)
    ensures !p.value.Null? && room > |p.name| + 3 ==> |NameBytes(p)| <= room
    ensures p.value.Null? ==> NameBytes(p) == []
    ensures p.value.Invalid? ==> EncodeValue(p.value, room - |NameBytes(p)|).None?
  {
  }

  method EncodePayload(a: array<byte>, at: nat, end: nat, v: Value) returns (next: Option<nat>)
    requires at <= end <= a.Length
    modifies a
    ensures Wrote(a, old(a[..]), at, end, EncodeValue(v, end - at), next)
    decreases v, 1
  {
    Untouched(a[..], at, end);
    match v
    case Number(bits) => next := EncodeNumber(a, at, end, bits);
    case Boolean(b) => next := EncodeBoolean(a, at, end, b);
    case String(s) => next := EncodeString(a, at, end, s);
    case Null =>
      if at + 1 >= end {
        return None;
      }
      ghost var s0 := a[..];
      var i := EncodeByte(a, at, NULL);
      PatchIsWritten(s0, a[..], at, end, [NULL]);
      next := Some(i);
    case Object(props) => next := EncodeObject(a, at, end, props);
    case EcmaArray(props) => next := EncodeEcmaArray(a, at, end, props);
    case StrictArray(props) => next := EncodeArray(a, at, end, props);
    case _ => next := None;
  }

  // AMF_Encode.
  method EncodeObject(a: array<byte>, at: nat, end: nat, props: seq<Prop>) returns (next: Option<nat>)
    requires at <= end <= a.Length
    modifies a
    ensures Wrote(a, old(a[..]), at, end, EncodeValue(Object(props), end - at), next)
    decreases props, 2
  {
    hide WroteTo, EncodeProps;
    Untouched(a[..], at, end);
    if at + 4 >= end {
      return None;
    }
    ghost var s0 := a[..];
    var i := EncodeByte(a, at, OBJECT);
    PatchIsWritten(s0, a[..], at, end, [OBJECT]);
    next := EncodeBody(a, at, i, end, props, s0, [OBJECT]);
  }

  // AMF_EncodeEcmaArray.
  method EncodeEcmaArray(a: array<byte>, at: nat, end: nat, props: seq<Prop>) returns (next: Option<nat>)
    requires at <= end <= a.Length
    modifies a
    ensures Wrote(a, old(a[..]), at, end, EncodeValue(EcmaArray(props), end - at), next)
    decreases props, 2
  {
    hide WroteTo, EncodeProps;
    Untouched(a[..], at, end);
    if at + 4 >= end {
      return None;
    }
    ghost var s0 := a[..];
    var i := EncodeCount(a, at, end, ECMA_ARRAY, |props|);
    next := EncodeBody(a, at, i, end, props, s0, [ECMA_ARRAY] + Be32(|props|));
  }

  // AMF_EncodeArray: no end marker.
  method EncodeArray(a: array<byte>, at: nat, end: nat, props: seq<Prop>) returns (next: Option<nat>)
    requires at <= end <= a.Length
    modifies a
    ensures Wrote(a, old(a[..]), at, end, EncodeValue(StrictArray(props), end - at), next)
    decreases props, 2
  {
    hide WroteTo, EncodeProps;
    Untouched(a[..], at, end);
    if at + 4 >= end {
      return None;
    }
    ghost var s0 := a[..];
    var i := EncodeCount(a, at, end, STRICT_ARRAY, |props|);
    ghost var s1 := a[..];
    i := EncodeMembers(a, i, end, props);
    next := Some(i);
    WrittenThen(s0, s1, a[..], at, end, [STRICT_ARRAY] + Be32(|props|), Some(EncodeProps(props, end - at - 5)), next);
  }

  method EncodeCount(a: array<byte>, at: nat, end: nat, marker: byte, n: nat) returns (next: nat)
    requires at + 5 <= end <= a.Length
    modifies a
    ensures next == at + 5 && Wrote(a, old(a[..]), at, end, Some([marker] + Be32(n)), Some(next))
  {
    ghost var s0 := a[..];
    next := EncodeByte(a, at, marker);
    ghost var s1 := a[..];
    next := EncodeInt32(a, next, n);
    PatchAgain(s0, s1, a[..], at, [marker], Be32(n));
    PatchIsWritten(s0, a[..], at, end, [marker] + Be32(n));
  }

  // Members and end marker, behind what has been written already.
  method EncodeBody(a: array<byte>, ghost at: nat, i: nat, end: nat, props: seq<Prop>, ghost s0: seq<byte>,
                    ghost head: seq<byte>)
    returns (next: Option<nat>)
    requires i == at + |head| <= end <= a.Length && Wrote(a, s0, at, end, Some(head), Some(i))
    modifies a
    ensures var body := EncodeProps(props, end - i);
      Wrote(a, s0, at, end, if end - i - |body| <= 3 then None else Some(head + body + END_MARK), next)
    decreases props, 1
  {
    hide WroteTo, EncodeProps;
    ghost var s1 := a[..];
    ghost var body := EncodeProps(props, end - i);
    var k := EncodeMembers(a, i, end, props);
    ghost var s2 := a[..];
    WrittenThen(s0, s1, s2, at, end, head, Some(body), Some(k));
    WroteWhere(s1, s2, i, end, Some(body), Some(k));
    if k + 3 >= end {
      Untouched(s2, k, end);
      WrittenThen(s0, s2, s2, at, end, head + body, None, None);
      return None;
    }
    k := EncodeInt24(a, k, OBJECT_END);
    assert Be24(OBJECT_END) == END_MARK;
    PatchIsWritten(s2, a[..], k - 3, end, END_MARK);
    next := Some(k);
    WrittenThen(s0, s2, a[..], at, end, head + body, Some(END_MARK), next);
  }
}
