// Numbers in bytes, as the standards write them: the one definition the layouts of chunks, FLV tags and AMF0 values are
// stated with.
module Octets {
  import opened Bytes

  // The most significant byte first.
  function BigEndian(s: seq<byte>): nat {
    if s == [] then 0 else 0x100 * BigEndian(s[..|s| - 1]) + s[|s| - 1]
  }

  // The least significant byte first.
  function LittleEndian(s: seq<byte>): nat {
    if s == [] then 0 else s[0] as int + 0x100 * LittleEndian(s[1..])
  }

  lemma Big2(s: seq<byte>)
    requires |s| == 2
    ensures BigEndian(s) == s[0] as int * 0x100 + s[1]
  {
    var a := s[..1];
    assert a[..0] == [] && BigEndian(a) == a[0];
  }

  lemma Big3(s: seq<byte>)
    requires |s| == 3
    ensures BigEndian(s) == s[0] as int * 0x1_0000 + s[1] as int * 0x100 + s[2]
  {
    var a := s[..2];
    Big2(a);
    assert BigEndian(s) == 0x100 * BigEndian(a) + s[2];
  }

  lemma Big4(s: seq<byte>)
    requires |s| == 4
    ensures BigEndian(s) == s[0] as int * 0x100_0000 + s[1] as int * 0x1_0000 + s[2] as int * 0x100 + s[3]
  {
    var a := s[..3];
    Big3(a);
    assert BigEndian(s) == 0x100 * BigEndian(a) + s[3];
  }

  lemma Little2(s: seq<byte>)
    requires |s| == 2
    ensures LittleEndian(s) == s[0] as int + s[1] as int * 0x100
  {
    var a := s[1..];
    assert a[1..] == [] && LittleEndian(a) == s[1];
  }

  lemma Little4(s: seq<byte>)
    requires |s| == 4
    ensures LittleEndian(s) == s[0] as int + s[1] as int * 0x100 + s[2] as int * 0x1_0000 + s[3] as int * 0x100_0000
  {
    var a, b, c := s[1..], s[2..], s[3..];
    assert a[1..] == b && b[1..] == c && c[1..] == [];
    assert LittleEndian(c) == s[3];
    assert LittleEndian(b) == s[2] as int + 0x100 * LittleEndian(c);
    assert LittleEndian(a) == s[1] as int + 0x100 * LittleEndian(b);
  }

  // What the encoders write.
  lemma Be16Is(x: nat)
    requires x < 0x1_0000
    ensures BigEndian(Be16(x)) == x
  {
    Big2(Be16(x));
    Be16RoundTrip(x);
  }

  lemma Be24Is(x: nat)
    requires x < 0x100_0000
    ensures BigEndian(Be24(x)) == x
  {
    Big3(Be24(x));
    Be24RoundTrip(x);
  }

  lemma Be32Is(x: nat)
    requires x < 0x1_0000_0000
    ensures BigEndian(Be32(x)) == x
  {
    Big4(Be32(x));
    Be32RoundTrip(x);
  }

  lemma Le32Is(x: i32)
    ensures LittleEndian(Le32(x)) == if x >= 0 then x else x + 0x1_0000_0000
  {
    Little4(Le32(x));
    Le32RoundTrip(x);
  }

  // What the decoders read.
  lemma FromBe16Is(s: seq<byte>)
    requires |s| >= 2
    ensures FromBe16(s) == BigEndian(s[..2])
  {
    Big2(s[..2]);
  }

  lemma FromBe24Is(s: seq<byte>)
    requires |s| >= 3
    ensures FromBe24(s) == BigEndian(s[..3])
  {
    Big3(s[..3]);
  }

  lemma FromBe32Is(s: seq<byte>)
    requires |s| >= 4
    ensures FromBe32(s) == BigEndian(s[..4])
  {
    Big4(s[..4]);
  }
}
