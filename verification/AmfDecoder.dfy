// The AMF0 decoders as they run (librtmp/amf.c): a size counts down, a pointer advances, members are collected in a
// list that grows by sixteen.
module AmfDecoder {
  import opened Amf
  import opened AmfDecode
  import opened Bytes

  // AMFObject: o_props and o_num.
  class PropList {
    var props: array<Prop>
    var num: nat

    // There is room for the properties held, and unless it is time to grow, for one more.
    ghost predicate Valid()
      reads this
    {
      num <= props.Length && (num % 16 == 0 || num < props.Length) && props.Length % 16 == 0
    }

    ghost function Contents(): seq<Prop>
      reads this, props
      requires Valid()
    {
      props[..num]
    }

    constructor ()
      ensures Valid() && Contents() == [] && fresh(props)
    {
      props, num := new Prop[0], 0;
    }

    // AMF_AddProp.
    method AddProp(p: Prop)
      requires Valid()
      modifies this, props
      ensures Valid() && Contents() == old(Contents()) + [p]
      ensures props == old(props) || fresh(props)
    {
      if num % 16 == 0 {
        var more := new Prop[num + 16](_ => Prop([], Null));
        forall i | 0 <= i < num {
          more[i] := props[i];
        }
        assert more[..num] == props[..num];
        props := more;
      }
      props[num] := p;
      num := num + 1;
    }
  }

  method DecodeText(mem: Memory, p: nat, n: nat, long: bool) returns (nRes: int, s: seq<byte>)
    ensures var head := if long then 4 else 2;
      var k: nat := if long then FromBe32(Slice(mem, p, 4)) else FromBe16(Slice(mem, p, 2));
      if n < k + head then nRes == -1 else nRes == head + k && s == Slice(mem, p + head, k)
  {
    s := [];
    if long {
      var nStringSize: nat := FromBe32(Slice(mem, p, 4));
      if n < nStringSize + 4 {
        return -1, s;
      }
      return 4 + nStringSize, Slice(mem, p + 4, nStringSize);
    }
    var nStringSize := FromBe16(Slice(mem, p, 2));
    if n < nStringSize + 2 {
      return -1, s;
    }
    return 2 + nStringSize, Slice(mem, p + 2, nStringSize);
  }

  // The switch over the type byte: the types that hold no members.
  method DecodeSimple(mem: Memory, p: nat, marker: byte, size: nat) returns (nRes: int, v: Value)
    ensures var r := DecodeFlat(mem, p, marker, size);
      if r.Bad? then nRes == -1 else nRes == r.n && v == r.v
  {
    hide Slice, FromBe16, FromBe32;
    v := Invalid;
    match marker
    case 0x00 =>
      if size < 8 {
        return -1, v;
      }
      return 8, Number(Slice(mem, p, 8));
    case 0x01 =>
      if size < 1 {
        return -1, v;
      }
      return 1, Boolean(mem(p) != 0);
    case 0x02 =>
      var s;
      nRes, s := DecodeText(mem, p, size, false);
      v := String(s);
    case 0x05 | 0x06 | 0x0d =>
      return 0, Null;
    case 0x0b =>
      if size < 10 {
        return -1, v;
      }
      return 10, Date(Slice(mem, p, 8), FromBe16(Slice(mem, p + 8, 2)));
    case 0x0c | 0x0f =>
      var s;
      nRes, s := DecodeText(mem, p, size, true);
      v := if marker == XML_DOC then XmlDoc(s) else String(s);
    case _ =>
      return -1, v;
  }

  // And those that do.
  method DecodePayload(mem: Memory, p: nat, marker: byte, size: nat) returns (nRes: int, v: Value)
    ensures var r := DecodeValue(mem, p, marker, size);
      if r.Bad? then nRes == -1 else nRes == r.n && v == r.v
    decreases size, 2
  {
    hide DecodeFlat, DecodeObject, DecodeArray, Slice;
    v := Invalid;
    match marker
    case 0x03 =>
      var props;
      nRes, props := Decode(mem, p, size, true);
      v := Object(props);
    case 0x08 =>
      var props;
      nRes, props := Decode(mem, p + 4, size - 4, true);
      if nRes == -1 {
        return;
      }
      return nRes + 4, EcmaArray(props);
    case 0x0a =>
      var props;
      nRes, props := DecodeElements(mem, p + 4, size - 4, Count(mem, p));
      if nRes == -1 {
        return;
      }
      return nRes + 4, StrictArray(props);
    case _ =>
      nRes, v := DecodeSimple(mem, p, marker, size);
  }

  // AMFProp_Decode.
  method DecodeMember(mem: Memory, p: nat, size: nat, named: bool) returns (nRes: int, prop: Prop)
    ensures var r := DecodeProp(mem, p, size, named);
      if r.Bad? then nRes == -1 else nRes == r.n && prop == r.v
    decreases size, 0
  {
    hide DecodeValue;
    var nSize, q := size, p;
    prop := Prop([], Invalid);
    if nSize == 0 {
      return -1, prop;
    }
    if named && nSize < 4 {
      return -1, prop;
    }
    if named {
      var nNameSize := FromBe16(Slice(mem, q, 2));
      if nNameSize > nSize - 2 {
        return -1, prop;
      }
      prop := prop.(name := Slice(mem, q + 2, nNameSize));
      nSize := nSize - (2 + nNameSize);
      q := q + 2 + nNameSize;
    }
    if nSize == 0 {
      return -1, prop;
    }
    nSize := nSize - 1;
    var v;
    nRes, v := DecodePayload(mem, q + 1, mem(q), nSize);
    if nRes == -1 {
      return;
    }
    prop := prop.(value := v);
    nRes := size - (nSize - nRes);
  }

  lemma JoinTwice(n: nat, props: seq<Prop>, k: nat, p: Prop, r: Result<seq<Prop>>)
    ensures Join(n, props, Join(k, [p], r)) == Join(n + k, props + [p], r)
  {
    assert r.Used? ==> props + ([p] + r.v) == props + [p] + r.v;
  }

  lemma JoinEnd(n: nat, props: seq<Prop>, k: nat)
    ensures Join(n, props, Used(k, [])) == Used(n + k, props)
    ensures Join(n, props, Bad) == Bad
  {
    assert props + [] == props;
  }

  lemma ObjectStep(mem: Memory, p: nat, n: int, named: bool)
    ensures DecodeObject(mem, p, n, named) ==
            if n <= 0 then Used(0, [])
            else if n >= 3 && FromBe24(Slice(mem, p, 3)) == OBJECT_END then Used(3, [])
            else
              var r := DecodeProp(mem, p, n, named);
              if r.Bad? || r.n > n then Bad
              else Join(r.n, [r.v], DecodeObject(mem, p + r.n, n - r.n, named))
  {
  }

  lemma ArrayStep(mem: Memory, p: nat, n: int, len: int)
    ensures DecodeArray(mem, p, n, len) ==
            if len <= 0 then Used(0, [])
            else if n <= 0 then Bad
            else
              var r := DecodeProp(mem, p, n, false);
              if r.Bad? then Bad else Join(r.n, [r.v], DecodeArray(mem, p + r.n, n - r.n, len - 1))
  {
  }

  // AMF_Decode.
  method Decode(mem: Memory, p: nat, size: int, named: bool) returns (nRes: int, props: seq<Prop>)
    ensures var r := DecodeObject(mem, p, size, named);
      if r.Bad? then nRes == -1 else nRes == r.n && props == r.v
    ensures -1 <= nRes <= Max0(size)
    decreases Max0(size), 1
  {
    hide DecodeProp, DecodeObject, Join, Slice;
    ghost var whole := DecodeObject(mem, p, size, named);
    var obj := new PropList();
    var nSize, q := size, p;
    props := [];
    JoinEnd(0, [], 0);
    JoinNothing(whole);
    while nSize > 0
      invariant obj.Valid() && fresh(obj) && fresh(obj.props)
      invariant nSize <= size && q == p + size - nSize && (size >= 0 ==> nSize >= 0) && (size < 0 ==> nSize == size)
      invariant whole == Join(size - nSize, obj.Contents(), DecodeObject(mem, q, nSize, named))
      decreases nSize
    {
      ghost var n, held := nSize, obj.Contents();
      ObjectStep(mem, q, nSize, named);
      if nSize >= 3 && FromBe24(Slice(mem, q, 3)) == OBJECT_END {
        JoinEnd(size - nSize, held, 3);
        nSize := nSize - 3;
        props := obj.props[..obj.num];
        return size - nSize, props;
      }
      var prop;
      nRes, prop := DecodeMember(mem, q, nSize, named);
      if nRes == -1 {
        JoinEnd(size - nSize, held, 0);
        return -1, props;
      }
      nSize := nSize - nRes;
      if nSize < 0 {
        JoinEnd(size - n, held, 0);
        return -1, props;
      }
      JoinTwice(size - n, held, nRes, prop, DecodeObject(mem, q + nRes, nSize, named));
      q := q + nRes;
      obj.AddProp(prop);
    }
    ObjectStep(mem, q, nSize, named);
    JoinEnd(size - nSize, obj.Contents(), 0);
    nRes, props := size - nSize, obj.props[..obj.num];
  }

  lemma JoinNothing(r: Result<seq<Prop>>)
    ensures Join(0, [], r) == r
  {
    assert r.Used? ==> [] + r.v == r.v;
  }

  // AMF_DecodeArray.
  method DecodeElements(mem: Memory, p: nat, size: int, len: int) returns (nRes: int, props: seq<Prop>)
    ensures var r := DecodeArray(mem, p, size, len);
      if r.Bad? then nRes == -1 else nRes == r.n && props == r.v
    decreases Max0(size), 1
  {
    hide DecodeProp, DecodeArray, Join;
    ghost var whole := DecodeArray(mem, p, size, len);
    var obj := new PropList();
    var nSize, q, nArrayLen := size, p, len;
    props := [];
    JoinNothing(whole);
    while nArrayLen > 0
      invariant obj.Valid() && fresh(obj) && fresh(obj.props)
      invariant nSize <= size && q == p + size - nSize && (nArrayLen < len ==> size > 0)
      invariant whole == Join(size - nSize, obj.Contents(), DecodeArray(mem, q, nSize, nArrayLen))
    {
      ghost var n, held := nSize, obj.Contents();
      ArrayStep(mem, q, nSize, nArrayLen);
      nArrayLen := nArrayLen - 1;
      if nSize <= 0 {
        JoinEnd(size - nSize, held, 0);
        return -1, props;
      }
      var prop;
      nRes, prop := DecodeMember(mem, q, nSize, false);
      if nRes == -1 {
        JoinEnd(size - nSize, held, 0);
        return -1, props;
      }
      nSize := nSize - nRes;
      JoinTwice(size - n, held, nRes, prop, DecodeArray(mem, q + nRes, nSize, nArrayLen));
      q := q + nRes;
      obj.AddProp(prop);
    }
    ArrayStep(mem, q, nSize, nArrayLen);
    JoinEnd(size - nSize, obj.Contents(), 0);
    nRes, props := size - nSize, obj.props[..obj.num];
  }
}
