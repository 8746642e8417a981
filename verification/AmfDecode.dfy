// What the AMF0 decoders compute (librtmp/amf.c). The AMF3 marker counts as a decoding failure.
module AmfDecode {
  import opened Amf
  import opened Bytes

  // The decoders are given a pointer and a size, and sometimes read past that size: memory goes on behind the buffer.
  type Memory = nat -> byte

  function Slice(mem: Memory, p: nat, k: nat): (s: seq<byte>)
    ensures |s| == k && forall i | 0 <= i < k :: s[i] == mem(p + i)
  {
    seq(k, i requires 0 <= i < k => mem(p + i))
  }

  // -1, or the count of bytes used and what they hold. The count may exceed the size given.
  datatype Result<+T> = Bad | Used(n: nat, v: T)

  function Max0(n: int): nat {
    if n < 0 then 0 else n
  }

  // A 32-bit count, taken as a C int.
  function Count(mem: Memory, p: nat): i32 {
    var x := FromBe32(Slice(mem, p, 4));
    if x < 0x8000_0000 then x else x - B32
  }

  // AMFProp_Decode behind the type byte, with n bytes left: the types that hold no members.
  function DecodeFlat(mem: Memory, p: nat, marker: byte, n: nat): Result<Value> {
    if marker == NUMBER then
      if n < 8 then Bad else Used(8, Number(Slice(mem, p, 8)))
    else if marker == BOOLEAN then
      if n < 1 then Bad else Used(1, Boolean(mem(p) != 0))
    else if marker == STRING then
      var k := FromBe16(Slice(mem, p, 2));
      if n < k + 2 then Bad else Used(2 + k, String(Slice(mem, p + 2, k)))
    else if marker == NULL || marker == UNDEFINED || marker == UNSUPPORTED then
      Used(0, Null)
    else if marker == DATE then
      if n < 10 then Bad else Used(10, Date(Slice(mem, p, 8), FromBe16(Slice(mem, p + 8, 2))))
    else if marker == LONG_STRING || marker == XML_DOC then
      var k := FromBe32(Slice(mem, p, 4));
      if n < k + 4 then Bad
      else
        var s := Slice(mem, p + 4, k);
        Used(4 + k, if marker == XML_DOC then XmlDoc(s) else String(s))
    else Bad
  }

  function DecodeValue(mem: Memory, p: nat, marker: byte, n: nat): Result<Value>
    decreases n, 2
  {
    if marker == OBJECT then
      var r := DecodeObject(mem, p, n, true);
      if r.Bad? then Bad else Used(r.n, Object(r.v))
    else if marker == ECMA_ARRAY then
      var r := DecodeObject(mem, p + 4, n - 4, true);
      if r.Bad? then Bad else Used(4 + r.n, EcmaArray(r.v))
    else if marker == STRICT_ARRAY then
      var r := DecodeArray(mem, p + 4, n - 4, Count(mem, p));
      if r.Bad? then Bad else Used(4 + r.n, StrictArray(r.v))
    else DecodeFlat(mem, p, marker, n)
  }

  // AMFProp_Decode.
  function DecodeProp(mem: Memory, p: nat, n: nat, named: bool): (r: Result<Prop>)
    ensures r.Used? ==> r.n >= 1
    decreases n, 0
  {
    if n == 0 || (named && n < 4) then Bad
    else
      var k := if named then FromBe16(Slice(mem, p, 2)) else 0;
      if named && k > n - 2 then Bad
      else
        var name := if named then Slice(mem, p + 2, k) else [];
        var skip := if named then 2 + k else 0;
        if n == skip then Bad
        else
          var r := DecodeValue(mem, p + skip + 1, mem(p + skip), n - skip - 1);
          if r.Bad? then Bad else Used(skip + 1 + r.n, Prop(name, r.v))
  }

  // AMF_Decode: members up to the end marker or the end of the buffer.
  function DecodeObject(mem: Memory, p: nat, n: int, named: bool): (r: Result<seq<Prop>>)
    ensures r.Used? ==> r.n <= Max0(n)
    decreases Max0(n), 1
  {
    if n <= 0 then Used(0, [])
    else if n >= 3 && FromBe24(Slice(mem, p, 3)) == OBJECT_END then Used(3, [])
    else
      var r := DecodeProp(mem, p, n, named);
      if r.Bad? || r.n > n then Bad
      else
        Join(r.n, [r.v], DecodeObject(mem, p + r.n, n - r.n, named))
  }

  // AMF_DecodeArray: len members, without names.
  function DecodeArray(mem: Memory, p: nat, n: int, len: int): Result<seq<Prop>>
    decreases Max0(n), 1
  {
    if len <= 0 then Used(0, [])
    else if n <= 0 then Bad
    else
      var r := DecodeProp(mem, p, n, false);
      if r.Bad? then Bad else Join(r.n, [r.v], DecodeArray(mem, p + r.n, n - r.n, len - 1))
  }

  function Join(n: nat, props: seq<Prop>, r: Result<seq<Prop>>): Result<seq<Prop>> {
    if r.Bad? then Bad else Used(n + r.n, props + r.v)
  }

  // ---------- Nothing past the buffer matters ----------

  ghost predicate Agree(a: Memory, b: Memory, p: nat, n: int) {
    forall i: nat | p <= i < p + n :: a(i) == b(i)
  }

  predicate Within<T>(r: Result<T>, n: int) {
    r.Used? && r.n <= n
  }

  // Two results are the same unless both are failures: -1, or more bytes used than there are.
  ghost predicate Same<T>(a: Result<T>, b: Result<T>, n: int) {
    Within(a, n) || Within(b, n) ==> a == b
  }

  lemma SliceSame(a: Memory, b: Memory, p: nat, n: int, q: nat, k: nat)
    requires Agree(a, b, p, n) && p <= q && q + k <= p + n
    ensures Slice(a, q, k) == Slice(b, q, k)
  {
  }

  lemma AgreeFrom(a: Memory, b: Memory, p: nat, n: int, k: nat)
    requires Agree(a, b, p, n)
    ensures Agree(a, b, p + k, n - k)
  {
  }

  lemma FlatLocal(a: Memory, b: Memory, p: nat, marker: byte, n: nat)
    requires Agree(a, b, p, n)
    ensures Same(DecodeFlat(a, p, marker, n), DecodeFlat(b, p, marker, n), n)
  {
    if marker == NUMBER && n >= 8 {
      SliceSame(a, b, p, n, p, 8);
    } else if marker == STRING && n >= 2 {
      SliceSame(a, b, p, n, p, 2);
      var k := FromBe16(Slice(a, p, 2));
      if n >= k + 2 {
        SliceSame(a, b, p, n, p + 2, k);
      }
    } else if marker == DATE && n >= 10 {
      SliceSame(a, b, p, n, p, 8);
      SliceSame(a, b, p, n, p + 8, 2);
    } else if n >= 4 {
      SliceSame(a, b, p, n, p, 4);
      var k: nat := FromBe32(Slice(a, p, 4));
      if n >= k + 4 {
        SliceSame(a, b, p, n, p + 4, k);
      }
    }
  }

  lemma {:induction false} ValueLocal(a: Memory, b: Memory, p: nat, marker: byte, n: nat)
    requires Agree(a, b, p, n)
    ensures Same(DecodeValue(a, p, marker, n), DecodeValue(b, p, marker, n), n)
    decreases n, 2
  {
    hide DecodeFlat, DecodeObject, DecodeArray;
    FlatLocal(a, b, p, marker, n);
    if marker == OBJECT {
      ObjectLocal(a, b, p, n, true);
    } else if n >= 4 {
      AgreeFrom(a, b, p, n, 4);
      SliceSame(a, b, p, n, p, 4);
      if marker == ECMA_ARRAY {
        ObjectLocal(a, b, p + 4, n - 4, true);
      } else if marker == STRICT_ARRAY {
        ArrayLocal(a, b, p + 4, n - 4, Count(a, p));
      }
    }
  }

  lemma {:induction false} PropLocal(a: Memory, b: Memory, p: nat, n: nat, named: bool)
    requires Agree(a, b, p, n)
    ensures Same(DecodeProp(a, p, n, named), DecodeProp(b, p, n, named), n)
    decreases n, 0
  {
    hide DecodeValue;
    if n > 0 && (named ==> n >= 4) {
      if named {
        SliceSame(a, b, p, n, p, 2);
      }
      var k := if named then FromBe16(Slice(a, p, 2)) else 0;
      if named ==> k <= n - 2 {
        if named {
          SliceSame(a, b, p, n, p + 2, k);
        }
        var skip := if named then 2 + k else 0;
        if skip < n {
          AgreeFrom(a, b, p, n, skip + 1);
          ValueLocal(a, b, p + skip + 1, a(p + skip), n - skip - 1);
        }
      }
    }
  }

  // AMF_Decode gives the same answer whatever lies behind the n bytes.
  lemma {:induction false} ObjectLocal(a: Memory, b: Memory, p: nat, n: int, named: bool)
    requires Agree(a, b, p, n)
    ensures DecodeObject(a, p, n, named) == DecodeObject(b, p, n, named)
    decreases Max0(n), 1
  {
    hide DecodeProp, Agree, Slice, FromBe24;
    if n > 0 {
      if n >= 3 {
        SliceSame(a, b, p, n, p, 3);
      }
      PropLocal(a, b, p, n, named);
      var r := DecodeProp(a, p, n, named);
      if r.Used? && r.n <= n {
        AgreeFrom(a, b, p, n, r.n);
        ObjectLocal(a, b, p + r.n, n - r.n, named);
      }
    }
  }

  lemma {:induction false} ArrayLocal(a: Memory, b: Memory, p: nat, n: nat, len: int)
    requires Agree(a, b, p, n)
    ensures Same(DecodeArray(a, p, n, len), DecodeArray(b, p, n, len), n)
    decreases n, 1
  {
    hide DecodeProp;
    if len > 0 && n > 0 {
      PropLocal(a, b, p, n, false);
      var r := DecodeProp(a, p, n, false);
      if r.Used? && r.n <= n {
        AgreeFrom(a, b, p, n, r.n);
        ArrayLocal(a, b, p + r.n, n - r.n, len - 1);
      }
    }
  }

  // A strict array cut off behind its type byte makes AMFProp_Decode claim more bytes than it was given, depending on
  // what lies behind them; AMF_Decode turns every such claim into a failure.
  lemma CutArrayOverruns(mem: Memory, p: nat)
    requires mem(p) == STRICT_ARRAY && Count(mem, p + 1) <= 0
    ensures DecodeProp(mem, p, 1, false) == Used(5, Prop([], StrictArray([])))
    ensures DecodeObject(mem, p, 1, false) == Bad
  {
    assert DecodeValue(mem, p + 1, STRICT_ARRAY, 0) == Used(4, StrictArray([]));
    assert DecodeProp(mem, p, 1, false) == Used(5, Prop([], StrictArray([])));
  }
}
