// The bit stream itself (h264bitstream/bs.h): a byte pointer and a count of bits left in the byte, buffer bytes changed
// bit by bit.
module BitStream {
  import opened Bits
  import opened Bytes

  // ---------- Bytes as bits ----------

  // Bit j of a byte, the most significant first.
  function ByteBit(x: byte, j: nat): bool
    requires j < 8
  {
    x / Pow2(7 - j) % 2 == 1
  }

  function BitsOf(s: seq<byte>): (r: seq<bool>)
    ensures |r| == 8 * |s|
    ensures forall i | 0 <= i < 8 * |s| :: r[i] == ByteBit(s[i / 8], i % 8)
  {
    seq(8 * |s|, i requires 0 <= i < 8 * |s| => ByteBit(s[i / 8], i % 8))
  }

  lemma PowSum(a: nat, b: nat)
    ensures Pow2(a + b) == Pow2(a) * Pow2(b)
  {
    if a > 0 {
      PowSum(a - 1, b);
    }
  }

  // Clearing and setting the bit with k bits below it, as bs_write_u1 does it.
  function SetBit(x: byte, k: nat, b: bool): int
    requires k < 8
  {
    var w := Pow2(k);
    x - x / w % 2 * w + if b then w else 0
  }

  // The same, one bit at a time from below.
  function BitUp(x: nat, i: nat): bool {
    if i == 0 then x % 2 == 1 else BitUp(x / 2, i - 1)
  }

  function SetUp(x: nat, k: nat, b: bool): nat {
    if k == 0 then x - x % 2 + if b then 1 else 0 else 2 * SetUp(x / 2, k - 1, b) + x % 2
  }

  lemma {:induction false} BitUpIs(x: nat, i: nat)
    ensures BitUp(x, i) == (x / Pow2(i) % 2 == 1)
    decreases i
  {
    if i > 0 {
      BitUpIs(x / 2, i - 1);
      HalfThenMore(x, Pow2(i - 1));
    }
  }

  lemma {:induction false} SetUpIs(x: nat, k: nat, b: bool)
    ensures SetUp(x, k, b) == x - x / Pow2(k) % 2 * Pow2(k) + if b then Pow2(k) else 0
    decreases k
  {
    if k > 0 {
      var w := Pow2(k - 1);
      SetUpIs(x / 2, k - 1, b);
      HalfThenMore(x, w);
      var t := x / 2 / w % 2;
      assert t == x / (2 * w) % 2;
      OneOrNone(t, w);
    }
  }

  lemma OneOrNone(t: nat, w: nat)
    requires t < 2
    ensures 2 * (t * w) == t * (2 * w)
  {
  }

  lemma {:induction false} SetUpSets(x: nat, k: nat, b: bool, i: nat)
    ensures BitUp(SetUp(x, k, b), i) == if i == k then b else BitUp(x, i)
    decreases k
  {
    if k > 0 && i > 0 {
      SetUpSets(x / 2, k - 1, b, i - 1);
    }
  }

  lemma {:induction false} SetUpFits(x: nat, k: nat, b: bool, n: nat)
    requires x < Pow2(n) && k < n
    ensures SetUp(x, k, b) < Pow2(n)
    decreases k
  {
    var w := Pow2(n - 1);
    assert Pow2(n) == 2 * w && x / 2 < w;
    if k > 0 {
      SetUpFits(x / 2, k - 1, b, n - 1);
      assert SetUp(x / 2, k - 1, b) <= w - 1;
    }
  }

  // Setting a bit sets it and no other, and leaves a byte.
  lemma SetBitSets(x: byte, k: nat, b: bool, j: nat)
    requires k < 8 && j < 8
    ensures 0 <= SetBit(x, k, b) < 0x100
    ensures ByteBit(SetBit(x, k, b), j) == if j == 7 - k then b else ByteBit(x, j)
  {
    hide Pow2;
    Pow8();
    SetUpIs(x, k, b);
    SetUpFits(x, k, b, 8);
    SetUpSets(x, k, b, 7 - j);
    BitUpIs(x, 7 - j);
    BitUpIs(SetBit(x, k, b), 7 - j);
  }

  lemma OneBitSet(s: seq<byte>, p: nat, j: nat, b: bool)
    requires p < |s| && j < 8
    ensures 0 <= SetBit(s[p], 7 - j, b) < 0x100
    ensures BitsOf(s[p := SetBit(s[p], 7 - j, b)]) == Spliced(BitsOf(s), 8 * p + j, [b])
  {
    hide SetBit, ByteBit;
    SetBitSets(s[p], 7 - j, b, j);
    var t: seq<byte> := s[p := SetBit(s[p], 7 - j, b)];
    forall i | 0 <= i < 8 * |s|
      ensures BitsOf(t)[i] == Spliced(BitsOf(s), 8 * p + j, [b])[i]
    {
      SetBitSets(s[p], 7 - j, b, i % 8);
      Position(i, p, j);
    }
  }

  lemma Position(i: nat, p: nat, j: nat)
    requires j < 8
    ensures i == 8 * p + j <==> i / 8 == p && i % 8 == j
  {
  }

  lemma {:induction false} LowBits(n: nat, v: nat)
    ensures UBits(n, v) == UBits(n, v % Pow2(n))
    decreases n
  {
    if n > 0 {
      LowBits(n - 1, v / 2);
      HalfOfRest(v, Pow2(n - 1));
    }
  }

  lemma HalfOfRest(v: nat, w: nat)
    requires w > 0
    ensures v % (2 * w) / 2 == v / 2 % w && v % (2 * w) % 2 == v % 2
  {
    var q, r := v / (2 * w), v % (2 * w);
    var h := q * w;
    assert v == 2 * h + r by {
      assert v == q * (2 * w) + r;
    }
    QuotientIs(v / 2, w, q, r / 2);
  }

  // A whole byte written at once.
  lemma ByteSet(s: seq<byte>, p: nat, v: nat)
    requires p < |s|
    ensures BitsOf(s[p := v % 0x100]) == Spliced(BitsOf(s), 8 * p, UBits(8, v))
  {
    hide ByteBit;
    Pow8();
    LowBits(8, v);
    var x: byte := v % 0x100;
    forall i | 0 <= i < 8 * |s|
      ensures BitsOf(s[p := x])[i] == Spliced(BitsOf(s), 8 * p, UBits(8, v))[i]
    {
      BitOfByte(x, i % 8);
      Position(i, p, i % 8);
    }
  }

  lemma BitOfByte(x: byte, j: nat)
    requires j < 8
    ensures UBits(8, x)[j] == ByteBit(x, j)
  {
    BitOfNumber(8, x, j);
  }

  // A whole byte read at once.
  lemma ByteRead(s: seq<byte>, p: nat)
    requires p < |s|
    ensures ReadU(BitsOf(s), 8 * p, 8) == s[p]
  {
    hide ByteBit, UBits;
    Pow8();
    forall j | 0 <= j < 8
      ensures BitsAt(BitsOf(s), 8 * p, 8)[j] == UBits(8, s[p])[j]
    {
      BitOfByte(s[p], j);
      Position(8 * p + j, p, j);
    }
    assert BitsAt(BitsOf(s), 8 * p, 8) == UBits(8, s[p]);
    ValueOfBits(8, s[p]);
  }

  method LookUp(v: nat) returns (len: nat)
    requires v < B32
    ensures len == BitLength(v)
  {
    hide BitLength, LenTable;
    LookedUpIsLength(v);
    if v >= 0x0100_0000 {
      len := 24 + LenTable()[v / 0x100_0000];
    } else if v >= 0x0001_0000 {
      len := 16 + LenTable()[v / 0x1_0000];
    } else if v >= 0x0000_0100 {
      len := 8 + LenTable()[v / 0x100];
    } else {
      len := LenTable()[v];
    }
  }

  // ---------- The stream ----------

  class Stream {
    const buf: array<byte>  // end is behind its last byte
    var start: nat
    var p: nat
    var bitsLeft: nat

    ghost predicate Valid()
      reads this
    {
      1 <= bitsLeft <= 8
    }

    // The bit position from the front of the buffer.
    ghost function Pos(): nat
      reads this
      requires Valid()
    {
      8 * p + 8 - bitsLeft
    }

    ghost function Content(): seq<bool>
      reads this, buf
    {
      BitsOf(buf[..])
    }

    constructor (buf: array<byte>)
      ensures Valid() && this.buf == buf && Pos() == 0
    {
      this.buf := buf;
      start, p, bitsLeft := 0, 0, 8;
    }

    // bs_clone.
    constructor Clone(src: Stream)
      requires src.Valid()
      ensures Valid() && buf == src.buf && Pos() == src.Pos()
    {
      buf := src.buf;
      start, p, bitsLeft := src.p, src.p, src.bitsLeft;
    }

    predicate Eof()
      reads this
    {
      p >= buf.Length
    }

    lemma EofIs()
      requires Valid()
      ensures Eof() <==> Pos() >= |Content()|
    {
    }

    lemma BitHere()
      requires Valid()
      ensures !Eof() ==> BitAt(Content(), Pos()) == ByteBit(buf[p], 8 - bitsLeft)
      ensures Eof() ==> !BitAt(Content(), Pos())
    {
      Position(Pos(), p, 8 - bitsLeft);
    }

    method ReadU1() returns (r: nat)
      requires Valid()
      modifies this`p, this`bitsLeft
      ensures Valid() && Pos() == old(Pos()) + 1
      ensures r == if BitAt(Content(), old(Pos())) then 1 else 0
    {
      BitHere();
      r := 0;
      bitsLeft := bitsLeft - 1;
      if !Eof() {
        r := buf[p] / Pow2(bitsLeft) % 2;
      }
      if bitsLeft == 0 {
        p := p + 1;
        bitsLeft := 8;
      }
    }

    method WriteU1(v: nat)
      requires Valid()
      modifies this`p, this`bitsLeft, buf
      ensures Valid() && Pos() == old(Pos()) + 1
      ensures Content() == Spliced(old(Content()), old(Pos()), [v % 2 == 1])
    {
      hide SetBit, ByteBit;
      EofIs();
      bitsLeft := bitsLeft - 1;
      if !Eof() {
        OneBitSet(buf[..], p, 7 - bitsLeft, v % 2 == 1);
        buf[p] := SetBit(buf[p], bitsLeft, v % 2 == 1);
      } else {
        assert Content() == Spliced(Content(), 8 * p + 7 - bitsLeft, [v % 2 == 1]);
      }
      if bitsLeft == 0 {
        p := p + 1;
        bitsLeft := 8;
      }
    }

    method ReadUn(n: nat) returns (r: nat)
      requires Valid() && n <= 32
      modifies this`p, this`bitsLeft
      ensures Valid() && Pos() == old(Pos()) + n
      ensures r == ReadU(Content(), old(Pos()), n)
    {
      hide BitsOf, Value, BitsAt;
      r := 0;
      ghost var bits, pos := Content(), Pos();
      NoBits(bits, pos, n);
      for i := 0 to n
        invariant Valid() && Pos() == pos + i
        invariant r == Value(BitsAt(bits, pos, i)) * Pow2(n - i)
      {
        OneMoreBit(bits, pos, i, n);
        var b := ReadU1();
        r := r + b * Pow2(n - i - 1);
      }
    }

    method WriteUn(n: nat, v: nat)
      requires Valid() && n <= 32 && v < B32
      modifies this`p, this`bitsLeft, buf
      ensures Valid() && Pos() == old(Pos()) + n
      ensures Content() == Spliced(old(Content()), old(Pos()), UBits(n, v))
    {
      hide BitsOf, UBits, Spliced;
      ghost var bits, pos := Content(), Pos();
      NothingWritten(bits, pos, UBits(n, v));
      for i := 0 to n
        invariant Valid() && Pos() == pos + i
        invariant Content() == Spliced(bits, pos, UBits(n, v)[..i])
      {
        BitOfNumber(n, v, i);
        WriteU1(v / Pow2(n - i - 1) % 2);
        SplicedTwice(bits, pos, UBits(n, v)[..i], [UBits(n, v)[i]]);
        assert UBits(n, v)[..i] + [UBits(n, v)[i]] == UBits(n, v)[..i + 1];
      }
    }

    method ReadU8() returns (r: nat)
      requires Valid()
      modifies this`p, this`bitsLeft
      ensures Valid() && Pos() == old(Pos()) + 8
      ensures r == ReadU(Content(), old(Pos()), 8)
    {
      hide BitsOf, ReadU;
      if bitsLeft == 8 && !Eof() {
        ByteRead(buf[..], p);
        r := buf[p];
        p := p + 1;
        return;
      }
      r := ReadUn(8);
    }

    method WriteU8(v: nat)
      requires Valid() && v < B32
      modifies this`p, this`bitsLeft, buf
      ensures Valid() && Pos() == old(Pos()) + 8
      ensures Content() == Spliced(old(Content()), old(Pos()), UBits(8, v))
    {
      hide BitsOf, UBits, Spliced;
      if bitsLeft == 8 && !Eof() {
        ByteSet(buf[..], p, v);
        buf[p] := v % 0x100;
        p := p + 1;
        return;
      }
      WriteUn(8, v);
    }

    // More than 30 zeros in front of a code overflow an int.
    method ReadUeCode() returns (r: nat)
      requires Valid() && CountZeros(Content(), Pos(), 0) <= 30
      modifies this`p, this`bitsLeft
      ensures Valid() && (r, Pos()) == ReadUe(Content(), old(Pos()))
    {
      hide BitsOf, ReadU, Pow2, CountZeros, BitAt;
      ghost var bits, pos := Content(), Pos();
      var i := 0;
      ghost var zeros := CountZeros(bits, pos, 0);
      var b := ReadU1();
      EofIs();
      CountStep(bits, pos, 0);
      while b == 0 && i < 32 && !Eof()
        invariant Valid() && Pos() == pos + i + 1 && i <= 32
        invariant b == if BitAt(bits, pos + i) then 1 else 0
        invariant zeros == if b == 0 && i < 32 && !Eof() then CountZeros(bits, pos + i + 1, i + 1) else i
        invariant Eof() <==> Pos() >= |bits|
        decreases 32 - i
      {
        i := i + 1;
        b := ReadU1();
        EofIs();
        CountStep(bits, pos + i, i);
      }
      r := ReadUn(i);
      r := r + Pow2(i) - 1;
    }

    method WriteUeCode(v: nat)
      requires Valid() && v <= 65534
      modifies this`p, this`bitsLeft, buf
      ensures Valid() && Pos() == old(Pos()) + |UeBits(v)|
      ensures Content() == Spliced(old(Content()), old(Pos()), UeBits(v))
    {
      hide BitsOf, UBits, Spliced, BitLength, LenTable, Pow2;
      ghost var code := UeBits(v);
      if v == 0 {
        ShortestCode();
        WriteU1(1);
        return;
      }
      var v1 := v + 1;
      DigitsOf(v);
      var len := LookUp(v1);
      LeadingZeros(len - 1, len, v1);
      WriteUn(2 * len - 1, v1);
    }

    method ReadSeCode() returns (r: int)
      requires Valid() && CountZeros(Content(), Pos(), 0) <= 30
      modifies this`p, this`bitsLeft
      ensures Valid() && r == SeOf(ReadUe(Content(), old(Pos())).0) && Pos() == ReadUe(Content(), old(Pos())).1
    {
      hide BitsOf, ReadUe;
      r := ReadUeCode();
      if r % 2 == 1 {
        r := (r + 1) / 2;
      } else {
        r := -(r / 2);
      }
    }

    method WriteSeCode(v: int)
      requires Valid() && -32767 <= v <= 32767
      modifies this`p, this`bitsLeft, buf
      ensures Valid() && Pos() == old(Pos()) + |UeBits(SeIndex(v))|
      ensures Content() == Spliced(old(Content()), old(Pos()), UeBits(SeIndex(v)))
    {
      hide BitsOf, UeBits, Spliced;
      if v <= 0 {
        WriteUeCode(-v * 2);
      } else {
        WriteUeCode(v * 2 - 1);
      }
    }

    // bs_next_bits: the next n bits, without moving on.
    method NextBits(n: nat) returns (r: nat)
      requires Valid() && n <= 32
      ensures r == ReadU(Content(), Pos(), n)
    {
      hide ReadU, BitsOf;
      var b := new Stream.Clone(this);
      r := b.ReadUn(n);
    }

    method Write(x: Item)
      requires Valid() && x.Valid()
      modifies this`p, this`bitsLeft, buf
      ensures Valid() && Pos() == old(Pos()) + |Code(x)|
      ensures Content() == Spliced(old(Content()), old(Pos()), Code(x))
    {
      hide BitsOf, UBits, UeBits, Spliced;
      match x
      case U(n, v) =>
        Pow32();
        PowMonotone(n, 32);
        WriteUn(n, v);
      case U8(v) => WriteU8(v);
      case Ue(v) => WriteUeCode(v);
      case Se(v) => WriteSeCode(v);
    }

    method ReadBack(x: Item) returns (r: int)
      requires Valid() && x.Valid() && HoldsAt(Content(), Pos(), Code(x))
      modifies this`p, this`bitsLeft
      ensures Valid() && r == x.Number() && Pos() == old(Pos()) + |Code(x)|
    {
      hide BitsOf, UBits, UeBits, ReadU, ReadUe, HoldsAt;
      ItemReadsBack(Content(), Pos(), x);
      match x
      case U(n, _) => r := ReadUn(n);
      case U8(_) => r := ReadU8();
      case Ue(v) =>
        FewZeros(Content(), Pos(), v);
        r := ReadUeCode();
      case Se(v) =>
        FewZeros(Content(), Pos(), SeIndex(v));
        r := ReadSeCode();
    }
  }

  // Any list of values that fits is written, then read back from where it starts: the values come back, both sides end
  // at the same bit, and no other bit has changed.
  method WriteAndReadBack(b: Stream, items: seq<Item>) returns (got: seq<int>)
    requires b.Valid() && b.Pos() + |Codes(items)| <= |b.Content()| && forall x | x in items :: x.Valid()
    modifies b, b.buf
    ensures b.Valid() && b.Pos() == old(b.Pos()) + |Codes(items)|
    ensures got == Numbers(items)
    ensures b.Content()[..old(b.Pos())] == old(b.Content())[..old(b.Pos())]
    ensures b.Content()[b.Pos()..] == old(b.Content())[b.Pos()..]
  {
    hide BitsOf, Spliced, Code, Codes, HoldsAt;
    ghost var bits, pos, all := b.Content(), b.Pos(), Codes(items);
    var r := new Stream.Clone(b);
    NothingWritten(bits, pos, all);
    ghost var done: seq<bool> := [];
    assert items[0..] == items && [] + Codes(items) == Codes(items);
    for i := 0 to |items|
      invariant b.Valid() && r.Valid() && r.Pos() == pos && b.Pos() == pos + |done|
      invariant b.Content() == Spliced(bits, pos, done)
      invariant done + Codes(items[i..]) == all
    {
      FirstCode(items, i, done);
      b.Write(items[i]);
      SplicedTwice(bits, pos, done, Code(items[i]));
      done := done + Code(items[i]);
    }
    NoCodes(items, done);
    SplicedHolds(bits, pos, all);
    got := [];
    done := [];
    assert items[0..] == items && [] + Codes(items) == Codes(items) && [] + Numbers(items) == Numbers(items);
    for i := 0 to |items|
      invariant b.Valid() && b.Pos() == pos + |all|
      invariant r.Valid() && r.Pos() == pos + |done| && b.Content() == Spliced(bits, pos, all)
      invariant done + Codes(items[i..]) == all && got + Numbers(items[i..]) == Numbers(items)
      invariant HoldsAt(r.Content(), r.Pos(), Codes(items[i..]))
    {
      FirstCode(items, i, done);
      HoldsParts(r.Content(), r.Pos(), Code(items[i]), Codes(items[i + 1..]));
      var x := r.ReadBack(items[i]);
      FirstNumber(items, i, got);
      got := got + [x];
      done := done + Code(items[i]);
    }
    assert items[|items|..] == [] && got + [] == got;
  }

  lemma CountStep(bits: seq<bool>, pos: nat, i: nat)
    requires i <= 32
    ensures CountZeros(bits, pos, i)
         == if !BitAt(bits, pos) && i < 32 && pos + 1 < |bits| then CountZeros(bits, pos + 1, i + 1) else i
  {
  }

  lemma Pow32()
    ensures Pow2(32) == B32
  {
    hide Pow2;
    assert Pow2(8) == 256 by {
      Pow8();
    }
    PowSum(8, 8);
    assert Pow2(16) == 65536;
    PowSum(16, 16);
  }

  lemma Pow8()
    ensures Pow2(8) == 256
  {
    assert Pow2(4) == 16;
  }

  lemma {:induction false} PowMonotone(n: nat, m: nat)
    requires n <= m
    ensures Pow2(n) <= Pow2(m)
    decreases m
  {
    if n < m {
      PowMonotone(n, m - 1);
    }
  }

  lemma FewZeros(bits: seq<bool>, pos: nat, v: nat)
    requires v <= 65534 && HoldsAt(bits, pos, UeBits(v))
    ensures CountZeros(bits, pos, 0) <= 30
  {
    hide UBits, BitLength, CountZeros, Pow2, HoldsAt;
    DigitsOf(v);
    var n := BitLength(v + 1);
    TopBit(n, v + 1);
    var low := UBits(n - 1, v + 1 - Pow2(n - 1));
    HoldsParts(bits, pos, Zeros(n - 1), [true] + low);
    HoldsParts(bits, pos + n - 1, [true], low);
    ZerosCounted(bits, pos, 0, n - 1);
  }

  lemma ShortestCode()
    ensures UeBits(0) == [true]
  {
  }

  lemma NoBits(bits: seq<bool>, pos: nat, n: nat)
    ensures Value(BitsAt(bits, pos, 0)) * Pow2(n) == 0
  {
  }

  lemma OneMoreBit(bits: seq<bool>, pos: nat, i: nat, n: nat)
    requires i < n
    ensures Value(BitsAt(bits, pos, i + 1)) * Pow2(n - i - 1)
         == Value(BitsAt(bits, pos, i)) * Pow2(n - i) + (if BitAt(bits, pos + i) then 1 else 0) * Pow2(n - i - 1)
  {
    hide BitAt;
    assert BitsAt(bits, pos, i + 1) == BitsAt(bits, pos, i) + [BitAt(bits, pos + i)];
    ValueExtends(BitsAt(bits, pos, i), BitAt(bits, pos + i));
    Distribute(Value(BitsAt(bits, pos, i)), if BitAt(bits, pos + i) then 1 else 0, Pow2(n - i - 1));
  }

  lemma Distribute(a: nat, b: nat, w: nat)
    ensures (2 * a + b) * w == a * (2 * w) + b * w
  {
  }

  lemma NothingWritten(bits: seq<bool>, pos: nat, s: seq<bool>)
    ensures Spliced(bits, pos, s[..0]) == bits && Spliced(bits, pos, []) == bits
  {
  }

  lemma SplicedHolds(bits: seq<bool>, pos: nat, s: seq<bool>)
    requires pos + |s| <= |bits|
    ensures HoldsAt(Spliced(bits, pos, s), pos, s)
    ensures Spliced(bits, pos, s)[..pos] == bits[..pos] && Spliced(bits, pos, s)[pos + |s|..] == bits[pos + |s|..]
  {
  }

  lemma FirstCode(items: seq<Item>, i: nat, done: seq<bool>)
    requires i < |items|
    ensures Codes(items[i..]) == Code(items[i]) + Codes(items[i + 1..])
    ensures done + Codes(items[i..]) == done + Code(items[i]) + Codes(items[i + 1..])
  {
    hide Code;
    assert items[i..][0] == items[i] && items[i..][1..] == items[i + 1..];
  }

  lemma NoCodes(items: seq<Item>, done: seq<bool>)
    ensures done + Codes(items[|items|..]) == done
  {
  }

  lemma FirstNumber(items: seq<Item>, i: nat, got: seq<int>)
    requires i < |items|
    ensures got + Numbers(items[i..]) == got + [items[i].Number()] + Numbers(items[i + 1..])
  {
    assert items[i..][0] == items[i] && items[i..][1..] == items[i + 1..];
  }
}
