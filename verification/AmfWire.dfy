// AMF0 values byte by byte (librtmp/amf.c; Adobe's Action Message Format, AMF 0): what the encoder writes, and what the
// decoder makes of every type byte.
module AmfWire {
  import opened Amf
  import opened AmfDecode
  import opened AmfRoundTrip
  import opened Bytes
  import opened Octets

  // The bytes of a value: a type byte and what belongs to it.
  ghost predicate IsValue(s: seq<byte>, v: Value)
    decreases v
  {
    && s != []
    && match v
       case Number(bits) => s[0] == 0x00 && s[1..] == bits
       case Boolean(b) => s == [0x01, if b then 1 else 0]
       case String(text) =>
         if |text| <= 65535 then |s| >= 3 && s[0] == 0x02 && BigEndian(s[1..3]) == |text| && s[3..] == text
         else |s| >= 5 && s[0] == 0x0c && BigEndian(s[1..5]) == |text| && s[5..] == text
       case Null => s == [0x05]
       case Object(props) =>
         |s| >= 4 && s[0] == 0x03 && AreMembers(s[1..|s| - 3], props) && s[|s| - 3..] == [0, 0, 0x09]
       case EcmaArray(props) =>
         && |s| >= 8 && s[0] == 0x08 && BigEndian(s[1..5]) == |props| % 0x1_0000_0000
         && AreMembers(s[5..|s| - 3], props) && s[|s| - 3..] == [0, 0, 0x09]
       case StrictArray(props) =>
         |s| >= 5 && s[0] == 0x0a && BigEndian(s[1..5]) == |props| && AreMembers(s[5..], props)
       case _ => false
  }

  // A member: the length of its name, the name, and the value; only the value if it has no name or is null.
  ghost predicate IsMember(s: seq<byte>, p: Prop)
    decreases p
  {
    if p.name == [] || p.value.Null? then IsValue(s, p.value)
    else
      && |s| > 2 + |p.name| && BigEndian(s[..2]) == |p.name| && s[2..2 + |p.name|] == p.name
      && IsValue(s[2 + |p.name|..], p.value)
  }

  ghost predicate AreMembers(s: seq<byte>, props: seq<Prop>)
    decreases props
  {
    if props == [] then s == []
    else exists k :: 0 <= k <= |s| && IsMember(s[..k], props[0]) && AreMembers(s[k..], props[1..])
  }

  lemma Parts(a: seq<byte>, b: seq<byte>, c: seq<byte>)
    ensures (a + b + c)[..|a|] == a && (a + b + c)[|a|..|a| + |b|] == b && (a + b + c)[|a| + |b|..] == c
  {
  }

  // The three containers, given the bytes of their members.
  lemma ObjectIs(props: seq<Prop>, body: seq<byte>)
    requires AreMembers(body, props)
    ensures IsValue([0x03] + (body + END_MARK), Object(props))
  {
    hide AreMembers;
    Parts([0x03], body, END_MARK);
    Regroup([0x03], body, END_MARK);
  }

  lemma EcmaIs(props: seq<Prop>, body: seq<byte>)
    requires AreMembers(body, props)
    ensures IsValue([0x08] + (Be32(|props|) + (body + END_MARK)), EcmaArray(props))
  {
    hide AreMembers, BigEndian, Be32;
    Count32(|props|);
    var h := [0x08] + Be32(|props|);
    Parts(h, body, END_MARK);
    assert [0x08] + (Be32(|props|) + (body + END_MARK)) == h + body + END_MARK;
    assert (h + body + END_MARK)[1..5] == Be32(|props|);
  }

  lemma StrictIs(props: seq<Prop>, body: seq<byte>)
    requires AreMembers(body, props) && |props| < 0x8000_0000
    ensures IsValue([0x0a] + (Be32(|props|) + body), StrictArray(props))
  {
    hide AreMembers, BigEndian, Be32;
    Be32Is(|props|);
    Parts([0x0a], Be32(|props|), body);
    Regroup([0x0a], Be32(|props|), body);
  }

  lemma {:induction false} ValueIs(v: Value)
    requires Encodable(v)
    ensures IsValue(ValueBytes(v), v)
    decreases v
  {
    hide PropsBytes, AreMembers, BigEndian, EncodableProps;
    match v
    case Number(bits) => assert ValueBytes(v)[1..] == bits;
    case Boolean(_) =>
    case String(text) => TextIs(text);
    case Null =>
    case Object(props) =>
      MembersAre(props, true);
      ObjectIs(props, PropsBytes(props));
    case EcmaArray(props) =>
      MembersAre(props, true);
      EcmaIs(props, PropsBytes(props));
    case StrictArray(props) =>
      MembersAre(props, false);
      StrictIs(props, PropsBytes(props));
    case _ =>
  }

  lemma Count32(n: nat)
    ensures BigEndian(Be32(n)) == n % 0x1_0000_0000
  {
    Big4(Be32(n));
    Be32RoundTrip(n);
  }

  lemma TextIs(text: seq<byte>)
    requires |text| < 0x8000_0000
    ensures IsValue(TextHead(|text|) + text, String(text))
  {
    hide BigEndian;
    var s := TextHead(|text|) + text;
    if |text| <= 65535 {
      Be16Is(|text|);
      assert s[1..3] == Be16(|text|);
    } else {
      Be32Is(|text|);
      assert s[1..5] == Be32(|text|);
    }
  }

  lemma {:induction false} MemberIs(p: Prop, named: bool)
    requires EncodableProp(p, named)
    ensures IsMember(PropBytes(p), p)
    decreases p
  {
    hide IsValue, ValueBytes, BigEndian, Encodable;
    ValueIs(p.value);
    if p.name == [] || p.value.Null? {
      assert PropBytes(p) == ValueBytes(p.value);
    } else {
      Be16Is(|p.name|);
      Parts(Be16(|p.name|), p.name, ValueBytes(p.value));
    }
  }

  lemma {:induction false} MembersAre(props: seq<Prop>, named: bool)
    requires EncodableProps(props, named)
    ensures AreMembers(PropsBytes(props), props)
    decreases props
  {
    hide IsMember, PropBytes, EncodableProp;
    if props != [] {
      MemberIs(props[0], named);
      MembersAre(props[1..], named);
      var s, k := PropsBytes(props), |PropBytes(props[0])|;
      assert s[..k] == PropBytes(props[0]) && s[k..] == PropsBytes(props[1..]);
    }
  }

  // What the encoder writes, given room for it and two bytes to spare, is the property as the standard has it.
  lemma EncodedIs(p: Prop, named: bool, room: int)
    requires EncodableProp(p, named) && room >= |PropBytes(p)| + 2
    ensures EncodeProp(p, room).Some? && IsMember(EncodeProp(p, room).value, p)
  {
    hide EncodeProp, IsMember, EncodableProp;
    PropFits(p, room, named);
    MemberIs(p, named);
  }

  // The least room it needs: a number nine bytes, a boolean or a null two, a string five more than its length, an empty
  // object or strict array five, an empty ECMA array nine. An object or ECMA array never fills its room. Dates and
  // documents are not written at all.
  lemma RoomIs(v: Value, room: int)
    ensures v.Number? ==> (EncodeValue(v, room).Some? <==> room >= 9)
    ensures v.Boolean? || v.Null? ==> (EncodeValue(v, room).Some? <==> room >= 2)
    ensures v.String? ==> (EncodeValue(v, room).Some? <==> room >= 5 + |v.s|)
    ensures v.Date? || v.XmlDoc? || v.Invalid? ==> EncodeValue(v, room).None?
    ensures v.Object? || v.EcmaArray? ==> (EncodeValue(v, room).Some? ==> |EncodeValue(v, room).value| < room)
    ensures v == Object([]) || v == StrictArray([]) ==> (EncodeValue(v, room).Some? <==> room >= 5)
    ensures v == EcmaArray([]) ==> (EncodeValue(v, room).Some? <==> room >= 9)
  {
  }

  // A member that is not null needs four bytes more than its name, whatever its value, and room for that behind the name.
  lemma MemberRoomIs(p: Prop, room: int)
    requires p.name != [] && !p.value.Null?
    ensures EncodeProp(p, room).Some?
            <==> room >= |p.name| + 4 && EncodeValue(p.value, room - 2 - |p.name|).Some?
  {
  }

  // ---------- What the decoder makes of a type byte ----------

  // n bytes at p: those of a value that holds no members.
  lemma SimpleDecodes(mem: Memory, p: nat, n: nat)
    requires n >= 1
    ensures var r, x := DecodeProp(mem, p, n, false), mem(p);
      && (x == 0x00 ==> r == if n < 9 then Bad else Used(9, Prop([], Number(Slice(mem, p + 1, 8)))))
      && (x == 0x01 ==> r == if n < 2 then Bad else Used(2, Prop([], Boolean(mem(p + 1) != 0))))
      && (x == 0x05 || x == 0x06 || x == 0x0d ==> r == Used(1, Prop([], Null)))
      && (x == 0x0b ==> r == if n < 11 then Bad
            else Used(11, Prop([], Date(Slice(mem, p + 1, 8), BigEndian(Slice(mem, p + 9, 2))))))
      && (x == 0x04 || x == 0x07 || x == 0x09 || x == 0x0e || x >= 0x10 ==> r.Bad?)
  {
    hide DecodeObject, DecodeArray, BigEndian;
    Slice2(mem, p + 9);
  }

  lemma Slice2(mem: Memory, p: nat)
    ensures FromBe16(Slice(mem, p, 2)) == BigEndian(Slice(mem, p, 2))
  {
    FromBe16Is(Slice(mem, p, 2));
    assert Slice(mem, p, 2)[..2] == Slice(mem, p, 2);
  }

  lemma Slice4(mem: Memory, p: nat)
    ensures FromBe32(Slice(mem, p, 4)) == BigEndian(Slice(mem, p, 4))
  {
    FromBe32Is(Slice(mem, p, 4));
    assert Slice(mem, p, 4)[..4] == Slice(mem, p, 4);
  }

  // Texts: a string has a length of two bytes, a long string and a document one of four.
  lemma TextDecodesAs(mem: Memory, p: nat, n: nat)
    requires n >= 1
    ensures var r, x := DecodeProp(mem, p, n, false), mem(p);
      && (x == 0x02 ==>
            var k := BigEndian(Slice(mem, p + 1, 2));
            r == if n < 3 + k then Bad else Used(3 + k, Prop([], String(Slice(mem, p + 3, k)))))
      && (x == 0x0c || x == 0x0f ==>
            var k := BigEndian(Slice(mem, p + 1, 4));
            r == if n < 5 + k then Bad
                 else Used(5 + k, Prop([], if x == 0x0f then XmlDoc(Slice(mem, p + 5, k)) else String(Slice(mem, p + 5, k)))))
  {
    hide DecodeObject, DecodeArray, BigEndian, FromBe16, FromBe32;
    Slice2(mem, p + 1);
    Slice4(mem, p + 1);
  }

  // A named member: at least four bytes, a length of two, a name that leaves something behind it, and then a value as
  // without a name.
  lemma NamedDecodes(mem: Memory, p: nat, n: nat)
    ensures var r, k := DecodeProp(mem, p, n, true), BigEndian(Slice(mem, p, 2));
      if n < 4 || n <= 2 + k then r.Bad?
      else
        var x := DecodeProp(mem, p + 2 + k, n - 2 - k, false);
        if x.Bad? then r.Bad? else r == Used(2 + k + x.n, Prop(Slice(mem, p + 2, k), x.v.value)) && x.v.name == []
  {
    hide DecodeValue, BigEndian, FromBe16;
    Slice2(mem, p);
  }

  // Nothing decodes from nothing; objects end at 00 00 09, at the end of their bytes, or with a member that cannot be
  // decoded or claims more bytes than there are.
  lemma ObjectEnds(mem: Memory, p: nat, n: int, named: bool)
    ensures n <= 0 ==> DecodeObject(mem, p, n, named) == Used(0, [])
    ensures n == 0 ==> DecodeProp(mem, p, 0, named).Bad?
    ensures n >= 3 && mem(p) == 0 && mem(p + 1) == 0 && mem(p + 2) == 9 ==> DecodeObject(mem, p, n, named) == Used(3, [])
    ensures n >= 3 && !(mem(p) == 0 && mem(p + 1) == 0 && mem(p + 2) == 9) ==>
      var r := DecodeProp(mem, p, n, named);
      (r.Bad? || r.n > n ==> DecodeObject(mem, p, n, named).Bad?)
  {
    hide DecodeProp;
    var s := Slice(mem, p, 3);
    assert s[0] == mem(p + 0) && s[1] == mem(p + 1) && s[2] == mem(p + 2);
    NothingDecodes(mem, p, named);
  }

  lemma NothingDecodes(mem: Memory, p: nat, named: bool)
    ensures DecodeProp(mem, p, 0, named).Bad?
  {
  }
}
