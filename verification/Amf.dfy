// AMF0 values and their encoding (librtmp/amf.c).
module Amf {
  import opened Bytes

  const NUMBER: byte := 0x00
  const BOOLEAN: byte := 0x01
  const STRING: byte := 0x02
  const OBJECT: byte := 0x03
  const NULL: byte := 0x05
  const UNDEFINED: byte := 0x06
  const ECMA_ARRAY: byte := 0x08
  const OBJECT_END: byte := 0x09
  const STRICT_ARRAY: byte := 0x0a
  const DATE: byte := 0x0b
  const LONG_STRING: byte := 0x0c
  const UNSUPPORTED: byte := 0x0d
  const XML_DOC: byte := 0x0f

  // A double is its 8 bytes, most significant first.
  type Double = s: seq<byte> | |s| == 8 witness [0, 0, 0, 0, 0, 0, 0, 0]

  // AMFObjectProperty without its name. Null stands for undefined and unsupported too, as in the decoder.
  datatype Value =
    | Number(bits: Double)
    | Boolean(value: bool)
    | String(s: seq<byte>)
    | Null
    | Object(props: seq<Prop>)
    | EcmaArray(props: seq<Prop>)
    | StrictArray(props: seq<Prop>)
    | Date(bits: Double, offset: nat)
    | XmlDoc(s: seq<byte>)
    | Invalid

  datatype Prop = Prop(name: seq<byte>, value: Value)

  const END_MARK: seq<byte> := [0, 0, OBJECT_END]

  // ---------- What the encoder writes into room bytes; None for its NULL result ----------

  function EncodeText(s: seq<byte>, room: int): Option<seq<byte>> {
    if room < 5 + |s| then None else Some(TextHead(|s|) + s)
  }

  function TextHead(n: nat): (s: seq<byte>)
    ensures |s| == if n < B16 then 3 else 5
  {
    if n < B16 then [STRING] + Be16(n) else [LONG_STRING] + Be32(n)
  }

  function EncodeValue(v: Value, room: int): (r: Option<seq<byte>>)
    ensures r.Some? ==> 1 <= |r.value| <= room
    decreases v
  {
    match v
    case Number(bits) => if room < 9 then None else Some([NUMBER] + bits)
    case Boolean(b) => if room < 2 then None else Some([BOOLEAN, if b then 1 else 0])
    case String(s) => EncodeText(s, room)
    case Null => if room <= 1 then None else Some([NULL])
    case Object(props) =>
      if room <= 4 then None
      else
        var body := EncodeProps(props, room - 1);
        if room - 1 - |body| <= 3 then None else Some([OBJECT] + body + END_MARK)
    case EcmaArray(props) =>
      if room <= 4 then None
      else
        var body := EncodeProps(props, room - 5);
        if room - 5 - |body| <= 3 then None else Some([ECMA_ARRAY] + Be32(|props|) + body + END_MARK)
    case StrictArray(props) =>
      if room <= 4 then None
      else Some([STRICT_ARRAY] + Be32(|props|) + EncodeProps(props, room - 5))
    case _ => None
  }

  // An empty name, and the name of a null, is not written.
  function NameBytes(p: Prop): seq<byte> {
    if p.value.Null? || p.name == [] then [] else Be16(|p.name|) + p.name
  }

  function EncodeProp(p: Prop, room: int): (r: Option<seq<byte>>)
    ensures r.Some? ==> 1 <= |r.value| <= room
    decreases p
  {
    if !p.value.Null? && room <= |p.name| + 3 then None
    else
      var r := EncodeValue(p.value, room - |NameBytes(p)|);
      if r.None? then None else Some(NameBytes(p) + r.value)
  }

  // Members up to the first one that does not fit or cannot be encoded.
  function EncodeProps(props: seq<Prop>, room: int): (s: seq<byte>)
    requires room >= 0
    ensures |s| <= room
    decreases props
  {
    if props == [] then []
    else
      var r := EncodeProp(props[0], room);
      if r.None? then [] else r.value + EncodeProps(props[1..], room - |r.value|)
  }
}
