// Fixed-width integers as they travel on the wire (librtmp/amf.c, librtmp/rtmp.c).
// C's unsigned arithmetic is written out: every u32 operation that can wrap is reduced modulo 2^32.
module Bytes {
  const B16 := 0x1_0000
  const B24 := 0x100_0000
  const B32 := 0x1_0000_0000

  type byte = b: int | 0 <= b < 0x100
  type u32 = x: int | 0 <= x < 0x1_0000_0000
  type i32 = x: int | -0x8000_0000 <= x < 0x8000_0000

  datatype Option<+T> = None | Some(value: T)

  function Min(a: nat, b: nat): nat {
    if a < b then a else b
  }

  // The value of a C uint32_t expression whose exact value is x.
  function Wrap(x: int): u32 {
    x % B32
  }

  function Be16(x: nat): (s: seq<byte>)
    ensures |s| == 2
  {
    [x / 0x100 % 0x100, x % 0x100]
  }

  function Be24(x: nat): (s: seq<byte>)
    ensures |s| == 3
  {
    [x / 0x1_0000 % 0x100, x / 0x100 % 0x100, x % 0x100]
  }

  function Be32(x: nat): (s: seq<byte>)
    ensures |s| == 4
  {
    [x / 0x100_0000 % 0x100, x / 0x1_0000 % 0x100, x / 0x100 % 0x100, x % 0x100]
  }

  // A two's complement int, least significant byte first.
  function Le32(x: i32): (s: seq<byte>)
    ensures |s| == 4
  {
    var u := Wrap(x);
    [u % 0x100, u / 0x100 % 0x100, u / 0x1_0000 % 0x100, u / 0x100_0000 % 0x100]
  }

  function FromBe16(s: seq<byte>): (x: nat)
    requires |s| >= 2
    ensures x < B16
  {
    s[0] as int * 0x100 + s[1]
  }

  function FromBe24(s: seq<byte>): (x: nat)
    requires |s| >= 3
    ensures x < B24
  {
    s[0] as int * 0x1_0000 + s[1] as int * 0x100 + s[2]
  }

  function FromBe32(s: seq<byte>): (x: u32)
    requires |s| >= 4
  {
    s[0] as int * 0x100_0000 + s[1] as int * 0x1_0000 + s[2] as int * 0x100 + s[3]
  }

  function FromLe32(s: seq<byte>): (x: i32)
    requires |s| >= 4
  {
    var u := s[0] as int + s[1] as int * 0x100 + s[2] as int * 0x1_0000 + s[3] as int * 0x100_0000;
    if u < 0x8000_0000 then u else u - B32
  }

  lemma Be16RoundTrip(x: nat)
    ensures FromBe16(Be16(x)) == x % B16
  {
  }

  lemma QuotientIs(x: int, d: int, q: int, r: int)
    requires 0 <= r < d && x == q * d + r
    ensures x / d == q && x % d == r
  {
    var k, r' := x / d - q, x % d;
    assert k * d == r - r' by {
      assert x == x / d * d + r';
      assert k * d == x / d * d - q * d;
    }
    if k >= 1 {
      NonNegativeProduct(k - 1, d);
    } else if k <= -1 {
      NonNegativeProduct(-k - 1, d);
    }
  }

  lemma NonNegativeProduct(a: nat, d: nat)
    ensures a * d >= 0
  {
  }

  // The base-256 digits of x, least significant first, and what is left above them.
  lemma Digits(x: nat) returns (d0: byte, d1: byte, d2: byte, d3: byte, high: nat)
    ensures x == high * B32 + d3 as int * 0x100_0000 + d2 as int * 0x1_0000 + d1 as int * 0x100 + d0
    ensures x % 0x100 == d0 && x / 0x100 % 0x100 == d1
    ensures x / 0x1_0000 % 0x100 == d2 && x / 0x100_0000 % 0x100 == d3
  {
    var x1 := x / 0x100;
    var x2 := x1 / 0x100;
    var x3 := x2 / 0x100;
    d0, d1, d2, d3, high := x % 0x100, x1 % 0x100, x2 % 0x100, x3 % 0x100, x3 / 0x100;
    QuotientIs(x, 0x1_0000, x2, d1 as int * 0x100 + d0);
    QuotientIs(x, 0x100_0000, x3, d2 as int * 0x1_0000 + d1 as int * 0x100 + d0);
  }

  lemma Be24RoundTrip(x: nat)
    ensures FromBe24(Be24(x)) == x % B24
  {
    var d0, d1, d2, d3, high := Digits(x);
    QuotientIs(x, B24, high * 0x100 + d3, d2 as int * 0x1_0000 + d1 as int * 0x100 + d0);
  }

  lemma Be32RoundTrip(x: nat)
    ensures FromBe32(Be32(x)) == x % B32
  {
    var d0, d1, d2, d3, high := Digits(x);
    QuotientIs(x, B32, high, d3 as int * 0x100_0000 + d2 as int * 0x1_0000 + d1 as int * 0x100 + d0);
  }

  lemma Le32RoundTrip(x: i32)
    ensures FromLe32(Le32(x)) == x
  {
    var u := Wrap(x);
    var d0, d1, d2, d3, high := Digits(u);
    QuotientIs(u, B32, high, d3 as int * 0x100_0000 + d2 as int * 0x1_0000 + d1 as int * 0x100 + d0);
  }

  // Modular arithmetic on 32-bit clocks, one fact at a time.
  lemma WrapAdd(a: int, b: int)
    ensures Wrap(Wrap(a) + b) == Wrap(a + b)
  {
    assert a == a / B32 * B32 + a % B32;
    AddMultiple(a % B32 + b, a / B32);
  }

  lemma WrapBoth(a: int, b: int)
    ensures Wrap(Wrap(a) + Wrap(b)) == Wrap(a + b)
  {
    WrapAdd(a, Wrap(b));
    WrapAdd(b, a);
  }

  lemma AddMultiple(x: int, k: int)
    ensures Wrap(x + k * B32) == Wrap(x)
  {
    var q, r := x / B32, x % B32;
    assert x + k * B32 == (q + k) * B32 + r;
  }

  lemma SplitAt<T>(a: seq<T>, b: seq<T>)
    ensures (a + b)[..|a|] == a
    ensures (a + b)[|a|..] == b
  {
  }

  lemma SplitAt3<T>(a: seq<T>, b: seq<T>, c: seq<T>)
    ensures (a + b + c)[..|a|] == a
    ensures (a + b + c)[|a|..] == b + c
    ensures (a + b + c)[|a| + |b|..] == c
  {
  }

  lemma Regroup<T>(a: seq<T>, b: seq<T>, c: seq<T>)
    ensures a + b + c == a + (b + c)
  {
  }

  lemma Rejoin<T>(s: seq<T>, lo: nat, mid: nat, hi: nat)
    requires lo <= mid <= hi <= |s|
    ensures s[lo..hi] == s[lo..mid] + s[mid..hi]
  {
  }

  // Bytes behind the four do not matter.
  lemma FromBe32More(s: seq<byte>, v: seq<byte>)
    requires |s| >= 4
    ensures FromBe32(s + v) == FromBe32(s)
  {
  }
}
