// Decoding what was encoded (librtmp/amf.c).
module AmfRoundTrip {
  import opened Amf
  import opened AmfDecode
  import opened Bytes

  // ---------- The full encoding ----------

  function ValueBytes(v: Value): (s: seq<byte>)
    ensures |s| >= 1
    decreases v
  {
    match v
    case Number(bits) => [NUMBER] + bits
    case Boolean(b) => [BOOLEAN, if b then 1 else 0]
    case String(s) => TextHead(|s|) + s
    case Null => [NULL]
    case Object(props) => [OBJECT] + (PropsBytes(props) + END_MARK)
    case EcmaArray(props) => [ECMA_ARRAY] + (Be32(|props|) + (PropsBytes(props) + END_MARK))
    case StrictArray(props) => [STRICT_ARRAY] + (Be32(|props|) + PropsBytes(props))
    case _ => [NULL]
  }

  function PropBytes(p: Prop): seq<byte>
    decreases p
  {
    NameBytes(p) + ValueBytes(p.value)
  }

  function PropsBytes(props: seq<Prop>): seq<byte>
    decreases props
  {
    if props == [] then [] else PropBytes(props[0]) + PropsBytes(props[1..])
  }

  // Values that survive: no dates and documents, which the encoder refuses; members of objects and ECMA arrays have a
  // name of 1 to 65535 bytes and are not null; elements of strict arrays have none. Counts are C ints.
  predicate Storable(v: Value)
    decreases v
  {
    match v
    case Number(_) => true
    case Boolean(_) => true
    case String(s) => |s| < 0x8000_0000
    case Null => true
    case Object(props) => StorableProps(props, true)
    case EcmaArray(props) => StorableProps(props, true)
    case StrictArray(props) => StorableProps(props, false) && |props| < 0x8000_0000
    case _ => false
  }

  predicate StorableProp(p: Prop, named: bool)
    decreases p
  {
    (if named then 0 < |p.name| < B16 && !p.value.Null? else p.name == []) && Storable(p.value)
  }

  predicate StorableProps(props: seq<Prop>, named: bool)
    decreases props
  {
    props == [] || (StorableProp(props[0], named) && StorableProps(props[1..], named))
  }

  // What the encoder writes in full: the same, but members of objects and ECMA arrays may be null or have no name. (A
  // null's name is not written; 0x500 bytes is more than any name in use.)
  predicate Encodable(v: Value)
    decreases v
  {
    match v
    case Number(_) => true
    case Boolean(_) => true
    case String(s) => |s| < 0x8000_0000
    case Null => true
    case Object(props) => EncodableProps(props, true)
    case EcmaArray(props) => EncodableProps(props, true)
    case StrictArray(props) => EncodableProps(props, false) && |props| < 0x8000_0000
    case _ => false
  }

  predicate EncodableProp(p: Prop, named: bool)
    decreases p
  {
    && (if named then |p.name| < if p.value.Null? then 0x500 else B16 else p.name == [])
    && Encodable(p.value)
  }

  predicate EncodableProps(props: seq<Prop>, named: bool)
    decreases props
  {
    props == [] || (EncodableProp(props[0], named) && EncodableProps(props[1..], named))
  }

  // Storable is Encodable without such members, at any depth.
  lemma {:induction false} StorableIsEncodable(v: Value)
    requires Storable(v)
    ensures Encodable(v)
    decreases v
  {
    match v
    case Object(props) => StorablePropsAreEncodable(props, true);
    case EcmaArray(props) => StorablePropsAreEncodable(props, true);
    case StrictArray(props) => StorablePropsAreEncodable(props, false);
    case _ =>
  }

  lemma {:induction false} StorablePropsAreEncodable(props: seq<Prop>, named: bool)
    requires StorableProps(props, named)
    ensures EncodableProps(props, named)
    decreases props
  {
    if props != [] {
      StorableIsEncodable(props[0].value);
      StorablePropsAreEncodable(props[1..], named);
    }
  }

  // ---------- Enough room ----------

  // With two bytes to spare nothing is cut short.
  lemma {:induction false} ValueFits(v: Value, room: int)
    requires Encodable(v) && room >= |ValueBytes(v)| + 2
    ensures EncodeValue(v, room) == Some(ValueBytes(v))
    decreases v
  {
    hide EncodeProps, PropsBytes, EncodableProps;
    match v
    case Object(props) =>
      PropsFit(props, room - 1, true);
      assert [OBJECT] + PropsBytes(props) + END_MARK == ValueBytes(v);
    case EcmaArray(props) =>
      PropsFit(props, room - 5, true);
      assert [ECMA_ARRAY] + Be32(|props|) + PropsBytes(props) + END_MARK == ValueBytes(v);
    case StrictArray(props) =>
      PropsFit(props, room - 5, false);
      assert [STRICT_ARRAY] + Be32(|props|) + PropsBytes(props) == ValueBytes(v);
    case _ =>
  }

  lemma {:induction false} PropFits(p: Prop, room: int, named: bool)
    requires EncodableProp(p, named) && room >= |PropBytes(p)| + 2
    ensures EncodeProp(p, room) == Some(PropBytes(p))
    decreases p
  {
    hide EncodeValue;
    ValueFits(p.value, room - |NameBytes(p)|);
    if !p.value.Null? {
      TwoBytes(p.value);
    }
  }

  lemma TwoBytes(v: Value)
    requires Encodable(v) && !v.Null?
    ensures |ValueBytes(v)| >= 2
  {
  }

  lemma {:induction false} PropsFit(props: seq<Prop>, room: int, named: bool)
    requires EncodableProps(props, named) && room >= |PropsBytes(props)| + 2
    ensures EncodeProps(props, room) == PropsBytes(props)
    decreases props
  {
    hide EncodeProp, PropBytes;
    if props != [] {
      PropFits(props[0], room, named);
      PropsFit(props[1..], room - |PropBytes(props[0])|, named);
    }
  }

  // ---------- Decoding it ----------

  ghost predicate Holds(mem: Memory, p: nat, s: seq<byte>) {
    Slice(mem, p, |s|) == s
  }

  lemma HoldsBoth(mem: Memory, p: nat, a: seq<byte>, b: seq<byte>)
    requires Holds(mem, p, a + b)
    ensures Holds(mem, p, a) && Holds(mem, p + |a|, b)
  {
    var s := Slice(mem, p, |a + b|);
    assert forall i | 0 <= i < |a| :: mem(p + i) == s[i] == a[i];
    assert forall i | 0 <= i < |b| :: mem(p + |a| + i) == s[|a| + i] == b[i];
  }

  lemma HoldsByte(mem: Memory, p: nat, x: byte, s: seq<byte>)
    requires Holds(mem, p, [x] + s)
    ensures mem(p) == x && Holds(mem, p + 1, s)
  {
    HoldsBoth(mem, p, [x], s);
    assert Slice(mem, p, 1)[0] == mem(p + 0);
  }

  lemma ShortDecodes(mem: Memory, p: nat, n: nat, s: seq<byte>)
    requires |s| < B16 && Holds(mem, p, Be16(|s|)) && Holds(mem, p + 2, s) && n >= 2 + |s|
    ensures DecodeFlat(mem, p, STRING, n) == Used(2 + |s|, String(s))
  {
    Be16RoundTrip(|s|);
  }

  lemma LongDecodes(mem: Memory, p: nat, n: nat, s: seq<byte>)
    requires |s| < 0x8000_0000 && Holds(mem, p, Be32(|s|)) && Holds(mem, p + 4, s) && n >= 4 + |s|
    ensures DecodeFlat(mem, p, LONG_STRING, n) == Used(4 + |s|, String(s))
  {
    hide Be32, FromBe32;
    Be32RoundTrip(|s|);
  }

  lemma TextDecodes(mem: Memory, p: nat, n: nat, s: seq<byte>)
    requires Holds(mem, p, TextHead(|s|) + s) && n >= |TextHead(|s|)| + |s| && |s| < 0x8000_0000
    ensures DecodeFlat(mem, p + 1, mem(p), n - 1) == Used(|TextHead(|s|)| + |s| - 1, String(s))
    ensures mem(p) == STRING || mem(p) == LONG_STRING
  {
    hide Holds, DecodeFlat;
    HoldsBoth(mem, p, TextHead(|s|), s);
    if |s| < B16 {
      HoldsByte(mem, p, STRING, Be16(|s|));
      ShortDecodes(mem, p + 1, n - 1, s);
    } else {
      HoldsByte(mem, p, LONG_STRING, Be32(|s|));
      LongDecodes(mem, p + 1, n - 1, s);
    }
  }

  lemma FlatDecodes(mem: Memory, p: nat, n: nat, v: Value)
    requires v.Number? || v.Boolean? || v.String? || v.Null?
    requires Holds(mem, p, ValueBytes(v)) && n >= |ValueBytes(v)| && Storable(v)
    ensures DecodeFlat(mem, p + 1, mem(p), n - 1) == Used(|ValueBytes(v)| - 1, v)
    ensures mem(p) != OBJECT && mem(p) != ECMA_ARRAY && mem(p) != STRICT_ARRAY
  {
    match v
    case Number(bits) => HoldsByte(mem, p, NUMBER, bits);
    case Boolean(b) =>
      HoldsByte(mem, p, BOOLEAN, [if b then 1 else 0]);
      assert Slice(mem, p + 1, 1)[0] == mem(p + 1 + 0);
    case String(s) =>
      TextDecodes(mem, p, n, s);
    case Null =>
      HoldsByte(mem, p, NULL, []);
  }

  lemma CountIs(mem: Memory, p: nat, k: nat)
    requires Holds(mem, p, Be32(k)) && k < 0x8000_0000
    ensures Count(mem, p) == k
  {
    hide Be32, FromBe32;
    Be32RoundTrip(k);
  }

  lemma {:induction false} ValueDecodes(mem: Memory, p: nat, n: nat, v: Value)
    requires Storable(v) && Holds(mem, p, ValueBytes(v)) && n >= |ValueBytes(v)|
    ensures DecodeValue(mem, p + 1, mem(p), n - 1) == Used(|ValueBytes(v)| - 1, v)
    decreases v
  {
    hide DecodeFlat, DecodeObject, DecodeArray, PropsBytes, Holds, StorableProps;
    match v
    case Object(props) =>
      HoldsByte(mem, p, OBJECT, PropsBytes(props) + END_MARK);
      ObjectDecodes(mem, p + 1, n - 1, props);
    case EcmaArray(props) =>
      var body := PropsBytes(props) + END_MARK;
      HoldsByte(mem, p, ECMA_ARRAY, Be32(|props|) + body);
      HoldsBoth(mem, p + 1, Be32(|props|), body);
      ObjectDecodes(mem, p + 5, n - 5, props);
    case StrictArray(props) =>
      HoldsByte(mem, p, STRICT_ARRAY, Be32(|props|) + PropsBytes(props));
      HoldsBoth(mem, p + 1, Be32(|props|), PropsBytes(props));
      CountIs(mem, p + 1, |props|);
      ArrayDecodes(mem, p + 5, n - 5, props);
    case _ => FlatDecodes(mem, p, n, v);
  }

  lemma StorableFits(x: Prop, named: bool)
    requires StorableProp(x, named)
    ensures x.value.Null? || |ValueBytes(x.value)| >= 2
  {
    if !x.value.Null? {
      StorableIsEncodable(x.value);
      TwoBytes(x.value);
    }
  }

  lemma {:induction false} PropDecodes(mem: Memory, p: nat, n: nat, x: Prop, named: bool)
    requires StorableProp(x, named) && Holds(mem, p, PropBytes(x)) && n >= |PropBytes(x)|
    ensures DecodeProp(mem, p, n, named) == Used(|PropBytes(x)|, x)
    decreases x
  {
    hide DecodeValue, ValueBytes, Holds;
    HoldsBoth(mem, p, NameBytes(x), ValueBytes(x.value));
    var k := |NameBytes(x)|;
    ValueDecodes(mem, p + k, n - k, x.value);
    if named {
      HoldsBoth(mem, p, Be16(|x.name|), x.name);
      HoldsIs(mem, p, Be16(|x.name|));
      HoldsIs(mem, p + 2, x.name);
      Be16RoundTrip(|x.name|);
      StorableFits(x, named);
    }
  }

  lemma HoldsIs(mem: Memory, p: nat, s: seq<byte>)
    requires Holds(mem, p, s)
    ensures Slice(mem, p, |s|) == s
  {
  }

  // A member's name cannot be taken for the end marker.
  lemma NotTheEnd(mem: Memory, p: nat, x: Prop, more: seq<byte>)
    requires 0 < |x.name| < B16 && !x.value.Null? && Holds(mem, p, PropBytes(x) + more)
    ensures FromBe24(Slice(mem, p, 3)) != OBJECT_END
  {
    HoldsBoth(mem, p, PropBytes(x), more);
    HoldsBoth(mem, p, NameBytes(x), ValueBytes(x.value));
    HoldsBoth(mem, p, Be16(|x.name|), x.name);
    Be16RoundTrip(|x.name|);
    assert Slice(mem, p, 2) == Slice(mem, p, 3)[..2];
  }

  lemma TheEnd(mem: Memory, p: nat, n: int)
    requires Holds(mem, p, END_MARK) && n >= 3
    ensures DecodeObject(mem, p, n, true) == Used(3, [])
  {
  }

  lemma JoinFirst(props: seq<Prop>, k: nat, m: nat)
    requires props != []
    ensures Join(k, [props[0]], Used(m, props[1..])) == Used(k + m, props)
  {
    assert props == [props[0]] + props[1..];
  }

  lemma {:induction false} ObjectDecodes(mem: Memory, p: nat, n: nat, props: seq<Prop>)
    requires StorableProps(props, true) && Holds(mem, p, PropsBytes(props) + END_MARK)
    requires n >= |PropsBytes(props)| + 3
    ensures DecodeObject(mem, p, n, true) == Used(|PropsBytes(props)| + 3, props)
    decreases props
  {
    hide Holds, PropBytes, DecodeProp, Join, Slice;
    if props == [] {
      assert PropsBytes(props) + END_MARK == END_MARK;
      TheEnd(mem, p, n);
    } else {
      var x, more := props[0], PropsBytes(props[1..]) + END_MARK;
      Regroup(PropBytes(x), PropsBytes(props[1..]), END_MARK);
      HoldsBoth(mem, p, PropBytes(x), more);
      NotTheEnd(mem, p, x, more);
      PropDecodes(mem, p, n, x, true);
      var k := |PropBytes(x)|;
      ObjectDecodes(mem, p + k, n - k, props[1..]);
      JoinFirst(props, k, |PropsBytes(props[1..])| + 3);
    }
  }

  lemma {:induction false} ArrayDecodes(mem: Memory, p: nat, n: nat, props: seq<Prop>)
    requires StorableProps(props, false) && Holds(mem, p, PropsBytes(props)) && n >= |PropsBytes(props)|
    ensures DecodeArray(mem, p, n, |props|) == Used(|PropsBytes(props)|, props)
    decreases props
  {
    hide Holds, PropBytes, StorableProp, DecodeProp, Join;
    if props != [] {
      var x := props[0];
      HoldsBoth(mem, p, PropBytes(x), PropsBytes(props[1..]));
      PropDecodes(mem, p, n, x, false);
      var k := |PropBytes(x)|;
      NotEmpty(x);
      ArrayDecodes(mem, p + k, n - k, props[1..]);
      JoinFirst(props, k, |PropsBytes(props[1..])|);
    }
  }

  lemma NotEmpty(p: Prop)
    ensures |PropBytes(p)| >= 1
  {
    hide ValueBytes;
  }

  // ---------- What does not come back ----------

  predicate Gives<T(==)>(r: Result<T>, v: T) {
    r.Used? && r.v == v
  }

  // The next member decodes to something else, so the list does.
  lemma OtherFirst(mem: Memory, p: nat, n: int, props: seq<Prop>)
    requires n > 0 && props != [] && !Gives(DecodeProp(mem, p, n, true), props[0])
    ensures !Gives(DecodeObject(mem, p, n, true), props)
  {
    hide DecodeProp;
  }

  // A byte other than 0 in front makes a name of 256 bytes and more, one of 5 and more makes one of 0x500.
  lemma NameFrom(mem: Memory, p: nat, n: nat)
    requires mem(p) != 0
    ensures var r := DecodeProp(mem, p, n, true);
      r.Used? ==> |r.v.name| >= mem(p) as int * 0x100
  {
    hide DecodeValue;
    var s := Slice(mem, p, 2);
    assert s[0] == mem(p + 0);
  }

  // A null member is written without its name: the type byte 5 is taken for the length of a name.
  lemma NullMemberIsLost(mem: Memory, p: nat, n: nat, props: seq<Prop>)
    requires props != [] && props[0].value.Null? && |props[0].name| < 0x500
    requires n > 0 && Holds(mem, p, PropsBytes(props) + END_MARK)
    ensures !Gives(DecodeObject(mem, p, n, true), props)
  {
    hide DecodeProp, DecodeObject, Holds;
    Regroup(PropBytes(props[0]), PropsBytes(props[1..]), END_MARK);
    assert PropBytes(props[0]) == [NULL];
    HoldsByte(mem, p, NULL, PropsBytes(props[1..]) + END_MARK);
    NameFrom(mem, p, n);
    OtherFirst(mem, p, n, props);
  }

  // So is a member without a name, unless it is a number: its type byte is taken for the length of a name.
  lemma UnnamedIsLost(mem: Memory, p: nat, n: nat, props: seq<Prop>)
    requires props != [] && props[0].name == [] && Encodable(props[0].value) && !props[0].value.Number?
    requires n > 0 && Holds(mem, p, PropsBytes(props) + END_MARK)
    ensures !Gives(DecodeObject(mem, p, n, true), props)
  {
    hide DecodeProp, DecodeObject, Encodable;
    Regroup(PropBytes(props[0]), PropsBytes(props[1..]), END_MARK);
    HoldsBoth(mem, p, PropBytes(props[0]), PropsBytes(props[1..]) + END_MARK);
    TypeByte(mem, p, props[0]);
    NameFrom(mem, p, n);
    OtherFirst(mem, p, n, props);
  }

  lemma TypeByte(mem: Memory, p: nat, x: Prop)
    requires (x.name == [] || x.value.Null?) && Holds(mem, p, PropBytes(x))
    ensures mem(p) == 0 ==> x.value.Number?
    ensures x.value.Null? ==> mem(p) == NULL
  {
    assert PropBytes(x) == ValueBytes(x.value);
    var s := Slice(mem, p, |PropBytes(x)|);
    assert s[0] == mem(p + 0);
  }

  // An unnamed number, as it is written and as it is read.
  lemma NumberWritten(mem: Memory, w: nat, x: Prop)
    requires x.name == [] && x.value.Number? && Holds(mem, w, PropBytes(x))
    ensures |PropBytes(x)| == 9 && mem(w) == 0 && Slice(mem, w + 1, 8) == x.value.bits
  {
    assert PropBytes(x) == [NUMBER] + x.value.bits;
    HoldsByte(mem, w, NUMBER, x.value.bits);
  }

  lemma NumberRead(mem: Memory, p: nat, n: nat, x: Prop)
    requires x.name == [] && x.value.Number? && Gives(DecodeProp(mem, p, n, true), x)
    ensures mem(p) == mem(p + 1) == mem(p + 2) == 0 && Slice(mem, p + 3, 8) == x.value.bits
    ensures DecodeProp(mem, p, n, true).n == 11
  {
    hide DecodeObject, DecodeArray;
    var s := Slice(mem, p, 2);
    assert s[0] == mem(p + 0) && s[1] == mem(p + 1);
  }

  lemma {:induction false} ZerosSpread(mem: Memory, a: nat, d: nat, k: nat)
    requires d >= 1 && forall y: nat | a <= y < a + d :: mem(y) == 0
    requires forall y: nat | a <= y < a + k :: mem(y + d) == mem(y)
    ensures forall y: nat | a <= y < a + d + k :: mem(y) == 0
  {
    if k > 0 {
      ZerosSpread(mem, a, d, k - 1);
      assert mem(a + k - 1 + d) == mem(a + k - 1);
    }
  }

  // Read from where zeros start, the number is all zeros, and so is all that has been read.
  lemma NumberIsZero(mem: Memory, w: nat, ahead: nat, n: nat, x: Prop)
    requires x.name == [] && x.value.Number? && Holds(mem, w, PropBytes(x))
    requires forall y: nat | w <= y < w + ahead :: mem(y) == 0
    requires Gives(DecodeProp(mem, w + ahead, n, true), x)
    ensures forall y: nat | w <= y < w + ahead + 11 :: mem(y) == 0
  {
    hide DecodeProp;
    NumberWritten(mem, w, x);
    NumberRead(mem, w + ahead, n, x);
    var a, d := w + 1, ahead + 2;
    forall y: nat | a <= y < a + 8
      ensures mem(y + d) == mem(y)
    {
      assert Slice(mem, w + 1, 8)[y - a] == mem(y);
      assert Slice(mem, w + ahead + 3, 8)[y - a] == mem(w + ahead + 3 + (y - a));
    }
    ZerosSpread(mem, a, d, 8);
  }

  lemma OtherRest(k: nat, props: seq<Prop>, r: Result<seq<Prop>>)
    requires props != [] && !Gives(r, props[1..])
    ensures !Gives(Join(k, [props[0]], r), props)
  {
    if r.Used? {
      assert ([props[0]] + r.v)[1..] == r.v;
    }
  }

  lemma NotTaken(mem: Memory, p: nat, n: int, props: seq<Prop>)
    requires props != [] && (n > 0 ==> !Gives(DecodeProp(mem, p, n, true), props[0]))
    ensures !Gives(DecodeObject(mem, p, n, true), props)
  {
    if n > 0 {
      OtherFirst(mem, p, n, props);
    }
  }

  // If the first member is read as it is, the rest decides.
  lemma NextIs(mem: Memory, p: nat, n: nat, props: seq<Prop>)
    requires n > 0 && props != [] && Gives(DecodeProp(mem, p, n, true), props[0])
    requires var k := DecodeProp(mem, p, n, true).n;
      !Gives(DecodeObject(mem, p + k, n - k, true), props[1..])
    ensures !Gives(DecodeObject(mem, p, n, true), props)
  {
    hide DecodeProp, Join;
    var k := DecodeProp(mem, p, n, true).n;
    OtherRest(k, props, DecodeObject(mem, p + k, n - k, true));
  }

  lemma EndIsAhead(mem: Memory, w: nat, ahead: nat, n: int)
    requires Holds(mem, w, PropsBytes([]) + END_MARK) && n + ahead >= 3 && ahead >= 2
    requires forall y: nat | w <= y < w + ahead :: mem(y) == 0
    ensures !Gives(DecodeObject(mem, w + ahead, n, true), [])
  {
    assert PropsBytes([]) + END_MARK == END_MARK;
    var s := Slice(mem, w, 3);
    assert s[2] == mem(w + 2) == OBJECT_END;
    assert ahead == 2;
    assert Slice(mem, w + 2, 3)[0] == mem(w + 2 + 0);
  }

  lemma StartsWithZero(mem: Memory, w: nat, x: Prop)
    requires Holds(mem, w, PropBytes(x)) && EncodableProp(x, true)
    ensures mem(w) == 0 && mem(w + 1) == 0 ==> x.name == [] && x.value.Number?
  {
    if x.name == [] || x.value.Null? {
      TypeByte(mem, w, x);
    } else {
      Regroup(Be16(|x.name|), x.name, ValueBytes(x.value));
      HoldsBoth(mem, w, Be16(|x.name|), x.name + ValueBytes(x.value));
      Be16RoundTrip(|x.name|);
      assert Slice(mem, w, 2)[0] == mem(w + 0) && Slice(mem, w, 2)[1] == mem(w + 1);
    }
  }

  // A number without a name is taken for one with an empty name only if it is all zeros, and then it takes two bytes of
  // what follows. Those must be the start of another such number; so the reader gets further and further ahead of the
  // writer, and is ahead of the end marker in the end. The writer is at w, the reader `ahead` bytes further on.
  lemma {:induction false} ZerosAreLost(mem: Memory, w: nat, ahead: nat, n: int, props: seq<Prop>)
    requires EncodableProps(props, true) && Holds(mem, w, PropsBytes(props) + END_MARK)
    requires n + ahead >= |PropsBytes(props)| + 3
    requires forall y: nat | w <= y < w + ahead :: mem(y) == 0
    requires ahead >= 2 || (ahead == 0 && props != [] && props[0].name == [] && props[0].value.Number?)
    ensures !Gives(DecodeObject(mem, w + ahead, n, true), props)
    decreases props
  {
    hide Holds, DecodeProp, DecodeObject, PropBytes, Gives, Join;
    if props == [] {
      EndIsAhead(mem, w, ahead, n);
    } else {
      var x, more := props[0], PropsBytes(props[1..]) + END_MARK;
      Regroup(PropBytes(x), PropsBytes(props[1..]), END_MARK);
      HoldsBoth(mem, w, PropBytes(x), more);
      if ahead >= 2 {
        StartsWithZero(mem, w, x);
      }
      NumberWritten(mem, w, x);
      if n > 0 && Gives(DecodeProp(mem, w + ahead, n, true), x) {
        NumberIsZero(mem, w, ahead, n, x);
        NumberRead(mem, w + ahead, n, x);
        ZerosAreLost(mem, w + 9, ahead + 2, n - 11, props[1..]);
        NextIs(mem, w + ahead, n, props);
      } else {
        NotTaken(mem, w + ahead, n, props);
      }
    }
  }

  // A value with a null or unnamed member anywhere in it is not what is decoded, whatever lies behind it.
  lemma {:induction false} ValueIsLost(mem: Memory, p: nat, n: nat, v: Value)
    requires Encodable(v) && !Storable(v) && Holds(mem, p, ValueBytes(v)) && n >= |ValueBytes(v)|
    ensures !Gives(DecodeValue(mem, p + 1, mem(p), n - 1), v)
    decreases v
  {
    hide DecodeFlat, DecodeObject, DecodeArray, PropsBytes, Holds, StorableProps, EncodableProps;
    match v
    case Object(props) =>
      HoldsByte(mem, p, OBJECT, PropsBytes(props) + END_MARK);
      ObjectIsLost(mem, p + 1, n - 1, props);
    case EcmaArray(props) =>
      var body := PropsBytes(props) + END_MARK;
      HoldsByte(mem, p, ECMA_ARRAY, Be32(|props|) + body);
      HoldsBoth(mem, p + 1, Be32(|props|), body);
      ObjectIsLost(mem, p + 5, n - 5, props);
    case StrictArray(props) =>
      HoldsByte(mem, p, STRICT_ARRAY, Be32(|props|) + PropsBytes(props));
      HoldsBoth(mem, p + 1, Be32(|props|), PropsBytes(props));
      CountIs(mem, p + 1, |props|);
      ArrayIsLost(mem, p + 5, n - 5, props);
    case _ =>
  }

  lemma {:induction false} ObjectIsLost(mem: Memory, p: nat, n: nat, props: seq<Prop>)
    requires EncodableProps(props, true) && !StorableProps(props, true)
    requires Holds(mem, p, PropsBytes(props) + END_MARK) && n >= |PropsBytes(props)| + 3
    ensures !Gives(DecodeObject(mem, p, n, true), props)
    decreases props
  {
    hide Holds, DecodeProp, DecodeObject, PropBytes, Gives;
    var x, more := props[0], PropsBytes(props[1..]) + END_MARK;
    Regroup(PropBytes(x), PropsBytes(props[1..]), END_MARK);
    HoldsBoth(mem, p, PropBytes(x), more);
    if x.value.Null? {
      NullMemberIsLost(mem, p, n, props);
    } else if x.name == [] {
      if x.value.Number? {
        ZerosAreLost(mem, p, 0, n, props);
      } else {
        UnnamedIsLost(mem, p, n, props);
      }
    } else if !Storable(x.value) {
      PropIsLost(mem, p, n, x, true);
      OtherFirst(mem, p, n, props);
    } else {
      PropDecodes(mem, p, n, x, true);
      ObjectIsLost(mem, p + |PropBytes(x)|, n - |PropBytes(x)|, props[1..]);
      IsGiven(DecodeProp(mem, p, n, true), x);
      NextIs(mem, p, n, props);
    }
  }

  lemma IsGiven<T>(r: Result<T>, v: T)
    requires r.Used? && r.v == v
    ensures Gives(r, v)
  {
  }

  lemma {:induction false} PropIsLost(mem: Memory, p: nat, n: nat, x: Prop, named: bool)
    requires EncodableProp(x, named) && !Storable(x.value) && (named ==> x.name != [])
    requires Holds(mem, p, PropBytes(x)) && n >= |PropBytes(x)|
    ensures !Gives(DecodeProp(mem, p, n, named), x)
    decreases x
  {
    hide DecodeValue, ValueBytes, Holds, Storable;
    HoldsBoth(mem, p, NameBytes(x), ValueBytes(x.value));
    var k := |NameBytes(x)|;
    NullIsStorable(x.value);
    ValueIsLost(mem, p + k, n - k, x.value);
    if named {
      HoldsBoth(mem, p, Be16(|x.name|), x.name);
      HoldsIs(mem, p, Be16(|x.name|));
      Be16RoundTrip(|x.name|);
    }
  }

  lemma NullIsStorable(v: Value)
    ensures v.Null? ==> Storable(v)
  {
  }

  lemma {:induction false} ArrayIsLost(mem: Memory, p: nat, n: nat, props: seq<Prop>)
    requires EncodableProps(props, false) && !StorableProps(props, false)
    requires Holds(mem, p, PropsBytes(props)) && n >= |PropsBytes(props)|
    ensures !Gives(DecodeArray(mem, p, n, |props|), props)
    decreases props
  {
    hide Holds, DecodeProp, PropBytes, Join;
    var x := props[0];
    HoldsBoth(mem, p, PropBytes(x), PropsBytes(props[1..]));
    NotEmpty(x);
    if Storable(x.value) {
      PropDecodes(mem, p, n, x, false);
      var k := |PropBytes(x)|;
      ArrayIsLost(mem, p + k, n - k, props[1..]);
      OtherRest(k, props, DecodeArray(mem, p + k, n - k, |props| - 1));
    } else {
      PropIsLost(mem, p, n, x, false);
      var r := DecodeProp(mem, p, n, false);
      if r.Used? {
        OtherHead(r.n, r.v, DecodeArray(mem, p + r.n, n - r.n, |props| - 1), props);
      }
    }
  }

  lemma OtherHead(k: nat, x: Prop, r: Result<seq<Prop>>, props: seq<Prop>)
    requires props != [] && x != props[0]
    ensures !Gives(Join(k, [x], r), props)
  {
    if r.Used? {
      assert ([x] + r.v)[0] == x;
    }
  }

  // The round trip, and exactly when there is one: an object or ECMA array that the encoder writes in full is decoded
  // to itself, using exactly its bytes, if and only if no member of it or of anything in it is null or without a name.
  lemma ObjectExactIff(mem: Memory, p: nat, n: nat, props: seq<Prop>)
    requires EncodableProps(props, true) && Holds(mem, p, PropsBytes(props) + END_MARK) && n >= |PropsBytes(props)| + 3
    ensures DecodeObject(mem, p, n, true) == Used(|PropsBytes(props)| + 3, props) <==> StorableProps(props, true)
    ensures Gives(DecodeObject(mem, p, n, true), props) <==> StorableProps(props, true)
  {
    hide DecodeObject, Holds, StorableProps, EncodableProps, PropsBytes;
    if StorableProps(props, true) {
      ObjectDecodes(mem, p, n, props);
    } else {
      ObjectIsLost(mem, p, n, props);
    }
  }

  lemma PropExactIff(mem: Memory, p: nat, n: nat, x: Prop, named: bool)
    requires EncodableProp(x, named) && Holds(mem, p, PropBytes(x)) && n >= |PropBytes(x)|
    ensures DecodeProp(mem, p, n, named) == Used(|PropBytes(x)|, x) <==> StorableProp(x, named)
  {
    hide DecodeProp, Storable, Holds, ValueBytes;
    if StorableProp(x, named) {
      PropDecodes(mem, p, n, x, named);
    } else if named && (x.value.Null? || x.name == []) {
      TypeByte(mem, p, x);
      if x.value.Number? {
        NumberWritten(mem, p, x);
        if Gives(DecodeProp(mem, p, n, true), x) {
          NumberRead(mem, p, n, x);
        }
      } else {
        NameFrom(mem, p, n);
      }
    } else {
      PropIsLost(mem, p, n, x, named);
    }
  }

  // Encoding with two bytes to spare, then decoding: a property comes back, using exactly the bytes written, if and only
  // if it is storable.
  lemma RoundTrip(mem: Memory, p: nat, n: nat, x: Prop, named: bool, room: int)
    requires EncodableProp(x, named) && room >= |PropBytes(x)| + 2
    ensures EncodeProp(x, room).Some?
    ensures var s := EncodeProp(x, room).value;
      Holds(mem, p, s) && n >= |s| ==> (DecodeProp(mem, p, n, named) == Used(|s|, x) <==> StorableProp(x, named))
  {
    hide EncodeProp, DecodeProp, PropBytes, StorableProp;
    PropFits(x, room, named);
    if Holds(mem, p, PropBytes(x)) && n >= |PropBytes(x)| {
      PropExactIff(mem, p, n, x, named);
    }
  }

  // ---------- Values one after the other, without names: the body of a command ----------

  // A number whose first two payload bytes, behind its type byte 0, complete an end marker.
  predicate LooksLikeEnd(v: Value) {
    v.Number? && v.bits[0] == 0 && v.bits[1] == OBJECT_END
  }

  lemma FirstThree(mem: Memory, p: nat, v: Value, more: seq<byte>)
    requires Storable(v) && Holds(mem, p, ValueBytes(v) + more)
    ensures FromBe24(Slice(mem, p, 3)) == OBJECT_END <==> LooksLikeEnd(v)
  {
    HoldsBoth(mem, p, ValueBytes(v), more);
    assert mem(p) == Slice(mem, p, |ValueBytes(v)|)[0];
    assert Slice(mem, p, 3)[0] == mem(p);
    if v.Number? {
      HoldsByte(mem, p, NUMBER, v.bits);
      assert Slice(mem, p, 3)[1] == Slice(mem, p + 1, 8)[0] == v.bits[0];
      assert Slice(mem, p, 3)[2] == Slice(mem, p + 1, 8)[1] == v.bits[1];
    }
  }

  lemma JoinApart(k: nat, x: Prop, a: Result<seq<Prop>>, b: Result<seq<Prop>>)
    ensures Join(k, [x], a) == Join(k, [x], b) <==> a == b
  {
    if a.Used? && b.Used? && Join(k, [x], a) == Join(k, [x], b) {
      assert ([x] + a.v)[1..] == a.v && ([x] + b.v)[1..] == b.v;
    }
  }

  predicate AnyLooksLikeEnd(props: seq<Prop>) {
    exists x | x in props :: LooksLikeEnd(x.value)
  }

  // They come back, all of them and to the last byte, if and only if none is such a number.
  lemma {:induction false} CommandDecodes(mem: Memory, p: nat, props: seq<Prop>)
    requires StorableProps(props, false) && Holds(mem, p, PropsBytes(props))
    ensures DecodeObject(mem, p, |PropsBytes(props)|, false) == Used(|PropsBytes(props)|, props)
            <==> !AnyLooksLikeEnd(props)
    decreases props
  {
    hide Holds, ValueBytes, Storable, DecodeProp, Join, Slice, LooksLikeEnd;
    if props != [] {
      var x, n := props[0], |PropsBytes(props)|;
      HoldsBoth(mem, p, PropBytes(x), PropsBytes(props[1..]));
      PropDecodes(mem, p, n, x, false);
      assert PropBytes(x) == ValueBytes(x.value);
      FirstThree(mem, p, x.value, PropsBytes(props[1..]));
      NumberIsLong(x.value);
      var k := |PropBytes(x)|;
      NotEmpty(x);
      CommandDecodes(mem, p + k, props[1..]);
      var rest := DecodeObject(mem, p + k, n - k, false);
      JoinFirst(props, k, n - k);
      JoinApart(k, x, rest, Used(n - k, props[1..]));
      assert AnyLooksLikeEnd(props) <==> LooksLikeEnd(x.value) || AnyLooksLikeEnd(props[1..]);
    }
  }

  lemma NumberIsLong(v: Value)
    ensures LooksLikeEnd(v) ==> |ValueBytes(v)| >= 3
  {
  }
}
