// Bit strings and Exp-Golomb codes (h264bitstream/bs.h; sections 9.1 and 9.1.1 of ITU-T H.264).
module Bits {
  import opened Bytes

  function Pow2(n: nat): (w: nat)
    ensures w >= 1
  {
    if n == 0 then 1 else 2 * Pow2(n - 1)
  }

  // ---------- Numbers in bits, most significant first ----------

  function UBits(n: nat, v: nat): (s: seq<bool>)
    ensures |s| == n
  {
    if n == 0 then [] else UBits(n - 1, v / 2) + [v % 2 == 1]
  }

  function Value(s: seq<bool>): nat {
    if s == [] then 0 else 2 * Value(s[..|s| - 1]) + if s[|s| - 1] then 1 else 0
  }

  lemma {:induction false} ValueOfBits(n: nat, v: nat)
    requires v < Pow2(n)
    ensures Value(UBits(n, v)) == v
    decreases n
  {
    if n > 0 {
      ValueOfBits(n - 1, v / 2);
      assert UBits(n, v)[..n - 1] == UBits(n - 1, v / 2);
    }
  }

  lemma HalfThenMore(v: nat, w: nat)
    requires w > 0
    ensures v / 2 / w == v / (2 * w)
  {
    var q, r := v / 2 / w, v / 2 % w;
    assert v / 2 == q * w + r;
    QuotientIs(v, 2 * w, q, 2 * r + v % 2);
  }

  // Bit i is the one a shift by n - 1 - i brings to the front.
  lemma {:induction false} BitOfNumber(n: nat, v: nat, i: nat)
    requires i < n
    ensures UBits(n, v)[i] == (v / Pow2(n - 1 - i) % 2 == 1)
    decreases n
  {
    if i < n - 1 {
      BitOfNumber(n - 1, v / 2, i);
      HalfThenMore(v, Pow2(n - 2 - i));
    }
  }

  lemma {:induction false} ValueExtends(s: seq<bool>, b: bool)
    ensures Value(s + [b]) == 2 * Value(s) + if b then 1 else 0
  {
    assert (s + [b])[..|s|] == s;
  }

  function Zeros(n: nat): (s: seq<bool>)
    ensures |s| == n && forall i | 0 <= i < n :: !s[i]
  {
    seq(n, _ => false)
  }

  // A number shorter than its field is written with leading zeros.
  lemma {:induction false} LeadingZeros(k: nat, n: nat, v: nat)
    requires v < Pow2(n)
    ensures UBits(k + n, v) == Zeros(k) + UBits(n, v)
    decreases n
  {
    if n == 0 {
      AllZero(k);
    } else {
      LeadingZeros(k, n - 1, v / 2);
    }
  }

  lemma {:induction false} AllZero(k: nat)
    ensures UBits(k, 0) == Zeros(k)
  {
    if k > 0 {
      AllZero(k - 1);
    }
  }

  // ---------- Bit lengths ----------

  function BitLength(v: nat): (n: nat)
    ensures n >= 1
  {
    if v <= 1 then 1 else 1 + BitLength(v / 2)
  }

  lemma {:induction false} LengthIs(v: nat)
    requires v >= 1
    ensures Pow2(BitLength(v) - 1) <= v < Pow2(BitLength(v))
  {
    if v > 1 {
      LengthIs(v / 2);
    }
  }

  lemma {:induction false} LengthUpTo(v: nat, n: nat)
    requires v < Pow2(n) && n >= 1
    ensures BitLength(v) <= n
    decreases n
  {
    if v > 1 {
      LengthUpTo(v / 2, n - 1);
    }
  }

  function Rows(n: nat, x: nat): (s: seq<nat>)
    ensures |s| == n && forall i | 0 <= i < n :: s[i] == x
  {
    seq(n, _ => x)
  }

  function Row(i: nat): nat
    requires i < 256
  {
    if i < 2 then 1 else if i < 4 then 2 else if i < 8 then 3 else if i < 16 then 4 else if i < 32 then 5
    else if i < 64 then 6 else if i < 128 then 7 else 8
  }

  // len_table, row by row.
  function LenTable(): (t: seq<nat>)
    ensures |t| == 256
    ensures forall i | 0 <= i < 256 :: t[i] == Row(i)
  {
    [1] + [1] + Rows(2, 2) + Rows(4, 3) + Rows(8, 4) + Rows(16, 5) + Rows(32, 6) + Rows(64, 7) + Rows(128, 8)
  }

  lemma SmallLength(x: nat)
    requires x < 16
    ensures BitLength(x) == Row(x)
  {
    assert BitLength(x / 2 / 2 / 2) == 1;
    assert BitLength(x / 2 / 2) == if x / 4 <= 1 then 1 else 2;
  }

  lemma TableIsLength(x: nat)
    requires x < 256
    ensures LenTable()[x] == BitLength(x)
  {
    hide BitLength, LenTable;
    if x < 16 {
      SmallLength(x);
    } else {
      SixteenthLength(x);
      SmallLength(x / 16);
    }
  }

  lemma EightMore(v: nat)
    requires v >= 256
    ensures BitLength(v) == 8 + BitLength(v / 256)
  {
    SixteenthLength(v);
    SixteenthLength(v / 16);
  }

  lemma SixteenthLength(v: nat)
    requires v >= 16
    ensures BitLength(v) == 4 + BitLength(v / 16)
  {
    assert BitLength(v) == 1 + BitLength(v / 2);
    assert BitLength(v / 2) == 1 + BitLength(v / 2 / 2);
    assert BitLength(v / 2 / 2) == 1 + BitLength(v / 2 / 2 / 2);
  }

  // The length bs_write_ue looks up.
  function LookedUp(v: nat): nat
    requires v < B32
  {
    if v >= 0x100_0000 then 24 + LenTable()[v / 0x100_0000]
    else if v >= 0x1_0000 then 16 + LenTable()[v / 0x1_0000]
    else if v >= 0x100 then 8 + LenTable()[v / 0x100]
    else LenTable()[v]
  }

  // The table gives the true length of every 32-bit number but 0.
  lemma LookedUpIsLength(v: nat)
    requires v < B32
    ensures LookedUp(v) == BitLength(v)
  {
    hide LenTable, BitLength;
    if v >= 0x100_0000 {
      EightMore(v);
      EightMore(v / 256);
      EightMore(v / 256 / 256);
      TableIsLength(v / 0x100_0000);
    } else if v >= 0x1_0000 {
      EightMore(v);
      EightMore(v / 256);
      TableIsLength(v / 0x1_0000);
    } else if v >= 0x100 {
      EightMore(v);
      TableIsLength(v / 0x100);
    } else {
      TableIsLength(v);
    }
  }

  // ---------- What is written ----------

  // One value, as the writer is given it.
  datatype Item = U(n: nat, u: nat) | U8(u8: nat) | Ue(ue: nat) | Se(se: int) {
    predicate Valid() {
      match this
      case U(n, v) => n <= 32 && v < Pow2(n)
      case U8(v) => v < 256
      case Ue(v) => v <= 65534
      case Se(v) => -32767 <= v <= 32767
    }

    function Number(): int {
      match this
      case U(_, v) => v
      case U8(v) => v
      case Ue(v) => v
      case Se(v) => v
    }
  }

  // v + 1 in binary, after one zero less than it has digits.
  function UeBits(v: nat): (s: seq<bool>)
    ensures |s| == 2 * BitLength(v + 1) - 1
  {
    Zeros(BitLength(v + 1) - 1) + UBits(BitLength(v + 1), v + 1)
  }

  // Signed values in the order 0, 1, -1, 2, -2.
  function SeIndex(v: int): nat {
    if v <= 0 then -v * 2 else v * 2 - 1
  }

  function SeOf(r: nat): int {
    if r % 2 == 1 then (r + 1) / 2 else -(r / 2)
  }

  function Code(x: Item): seq<bool> {
    match x
    case U(n, v) => UBits(n, v)
    case U8(v) => UBits(8, v)
    case Ue(v) => UeBits(v)
    case Se(v) => UeBits(SeIndex(v))
  }

  function Codes(items: seq<Item>): seq<bool> {
    if items == [] then [] else Code(items[0]) + Codes(items[1..])
  }

  // Bits written at pos; those that fall behind the end are dropped.
  function Spliced(bits: seq<bool>, pos: nat, s: seq<bool>): (r: seq<bool>)
    ensures |r| == |bits|
    ensures forall i | 0 <= i < |r| :: r[i] == if pos <= i < pos + |s| then s[i - pos] else bits[i]
  {
    seq(|bits|, i requires 0 <= i < |bits| => if pos <= i < pos + |s| then s[i - pos] else bits[i])
  }

  lemma SplicedTwice(bits: seq<bool>, pos: nat, s: seq<bool>, t: seq<bool>)
    ensures Spliced(Spliced(bits, pos, s), pos + |s|, t) == Spliced(bits, pos, s + t)
  {
  }

  // ---------- What is read ----------

  // Behind the end there are zeros.
  function BitAt(bits: seq<bool>, pos: nat): bool {
    pos < |bits| && bits[pos]
  }

  function BitsAt(bits: seq<bool>, pos: nat, n: nat): (s: seq<bool>)
    ensures |s| == n && forall i | 0 <= i < n :: s[i] == BitAt(bits, pos + i)
  {
    seq(n, i requires 0 <= i < n => BitAt(bits, pos + i))
  }

  function ReadU(bits: seq<bool>, pos: nat, n: nat): nat {
    Value(BitsAt(bits, pos, n))
  }

  // The zeros in front of a code, from i of them on: up to the first one bit, at most 32 and not past the end.
  function CountZeros(bits: seq<bool>, pos: nat, i: nat): (r: nat)
    requires i <= 32
    ensures i <= r <= 32
    decreases 32 - i
  {
    if !BitAt(bits, pos) && i < 32 && pos + 1 < |bits| then CountZeros(bits, pos + 1, i + 1) else i
  }

  // The value read and the position behind it.
  function ReadUe(bits: seq<bool>, pos: nat): (nat, nat) {
    var z := CountZeros(bits, pos, 0);
    (ReadU(bits, pos + z + 1, z) + Pow2(z) - 1, pos + 2 * z + 1)
  }

  // A reader asks for the kind of value the writer wrote.
  function Read(bits: seq<bool>, pos: nat, x: Item): (int, nat) {
    match x
    case U(n, _) => (ReadU(bits, pos, n), pos + n)
    case U8(_) => (ReadU(bits, pos, 8), pos + 8)
    case Ue(_) => ReadUe(bits, pos)
    case Se(_) => (SeOf(ReadUe(bits, pos).0), ReadUe(bits, pos).1)
  }

  function ReadAll(bits: seq<bool>, pos: nat, items: seq<Item>): (seq<int>, nat)
    decreases |items|
  {
    if items == [] then ([], pos)
    else
      var r := Read(bits, pos, items[0]);
      var more := ReadAll(bits, r.1, items[1..]);
      ([r.0] + more.0, more.1)
  }

  function Numbers(items: seq<Item>): seq<int> {
    if items == [] then [] else [items[0].Number()] + Numbers(items[1..])
  }

  // ---------- Reading back ----------

  predicate HoldsAt(bits: seq<bool>, pos: nat, s: seq<bool>) {
    pos + |s| <= |bits| && bits[pos..pos + |s|] == s
  }

  lemma HoldsParts(bits: seq<bool>, pos: nat, a: seq<bool>, b: seq<bool>)
    requires HoldsAt(bits, pos, a + b)
    ensures HoldsAt(bits, pos, a) && HoldsAt(bits, pos + |a|, b)
  {
    var s := bits[pos..pos + |a + b|];
    assert bits[pos..pos + |a|] == s[..|a|];
    assert bits[pos + |a|..pos + |a| + |b|] == s[|a|..];
  }

  lemma UReadsBack(bits: seq<bool>, pos: nat, n: nat, v: nat)
    requires HoldsAt(bits, pos, UBits(n, v)) && v < Pow2(n)
    ensures ReadU(bits, pos, n) == v
  {
    ValueOfBits(n, v);
    assert BitsAt(bits, pos, n) == bits[pos..pos + n];
  }

  lemma {:induction false} ZerosCounted(bits: seq<bool>, pos: nat, i: nat, k: nat)
    requires i <= k <= 31 && HoldsAt(bits, pos, Zeros(k - i)) && HoldsAt(bits, pos + k - i, [true])
    ensures CountZeros(bits, pos, i) == k
    decreases k - i
  {
    if i < k {
      assert Zeros(k - i) == [false] + Zeros(k - i - 1);
      HoldsParts(bits, pos, [false], Zeros(k - i - 1));
      HoldsOne(bits, pos, false);
      ZerosCounted(bits, pos + 1, i + 1, k);
    } else {
      HoldsOne(bits, pos, true);
    }
  }

  lemma HoldsOne(bits: seq<bool>, pos: nat, b: bool)
    requires HoldsAt(bits, pos, [b])
    ensures pos < |bits| && bits[pos] == b
  {
    assert bits[pos..pos + 1][0] == bits[pos];
  }

  // A number's own digits start with a one.
  lemma TopBit(n: nat, w: nat)
    requires n >= 1 && Pow2(n - 1) <= w < Pow2(n)
    ensures UBits(n, w) == [true] + UBits(n - 1, w - Pow2(n - 1))
  {
    if n > 1 {
      TopBit(n - 1, w / 2);
      assert (w - Pow2(n - 1)) / 2 == w / 2 - Pow2(n - 2);
    }
  }

  lemma DigitsOf(v: nat)
    requires v + 1 < 0x8000_0000
    ensures var n, w := BitLength(v + 1), v + 1;
      && 1 <= n <= 31 && Pow2(n - 1) <= w < Pow2(n) && Pow2(n) == 2 * Pow2(n - 1)
      && (v <= 65534 ==> n <= 16)
  {
    hide BitLength, Pow2;
    LengthIs(v + 1);
    Pow31();
    LengthUpTo(v + 1, 31);
    PowStep(BitLength(v + 1));
    if v <= 65534 {
      LengthUpTo(v + 1, 16);
    }
  }

  lemma PowStep(n: nat)
    requires n >= 1
    ensures Pow2(n) == 2 * Pow2(n - 1)
  {
  }

  lemma Pow31()
    ensures Pow2(16) == 65536 && Pow2(31) == 0x8000_0000
  {
    assert Pow2(4) == 16;
    assert Pow2(8) == 256;
    assert Pow2(12) == 4096;
    assert Pow2(16) == 65536;
    assert Pow2(20) == 1048576;
    assert Pow2(24) == 16777216;
    assert Pow2(28) == 268435456;
  }

  // Every code of up to 30 leading zeros, more than the writer can make, is read as what it says.
  lemma UeReadsBack(bits: seq<bool>, pos: nat, v: nat)
    requires v + 1 < 0x8000_0000 && HoldsAt(bits, pos, UeBits(v))
    ensures ReadUe(bits, pos) == (v, pos + |UeBits(v)|)
  {
    hide UBits, BitLength, CountZeros, Value, HoldsAt, Pow2;
    var w, n := v + 1, BitLength(v + 1);
    DigitsOf(v);
    TopBit(n, w);
    var low := w - Pow2(n - 1);
    HoldsParts(bits, pos, Zeros(n - 1), [true] + UBits(n - 1, low));
    HoldsParts(bits, pos + n - 1, [true], UBits(n - 1, low));
    ZerosCounted(bits, pos, 0, n - 1);
    UReadsBack(bits, pos + n, n - 1, low);
  }

  lemma ItemReadsBack(bits: seq<bool>, pos: nat, x: Item)
    requires x.Valid() && HoldsAt(bits, pos, Code(x))
    ensures Read(bits, pos, x) == (x.Number(), pos + |Code(x)|)
  {
    hide UBits, UeBits, ReadUe, HoldsAt;
    match x
    case U(n, v) => UReadsBack(bits, pos, n, v);
    case U8(v) =>
      assert Pow2(8) == 256;
      UReadsBack(bits, pos, 8, v);
    case Ue(v) => UeReadsBack(bits, pos, v);
    case Se(v) => UeReadsBack(bits, pos, SeIndex(v));
  }

  // Any mixed list of values, at any alignment, comes back; the reader ends where the writer did.
  lemma {:induction false} ReadsBack(bits: seq<bool>, pos: nat, items: seq<Item>)
    requires HoldsAt(bits, pos, Codes(items)) && forall x | x in items :: x.Valid()
    ensures ReadAll(bits, pos, items) == (Numbers(items), pos + |Codes(items)|)
    decreases |items|
  {
    hide Code, Read, HoldsAt;
    if items != [] {
      HoldsParts(bits, pos, Code(items[0]), Codes(items[1..]));
      ItemReadsBack(bits, pos, items[0]);
      ReadsBack(bits, pos + |Code(items[0])|, items[1..]);
    }
  }

  // Written into a buffer with room for them, they can be read back, and no bit outside is changed.
  lemma WrittenReadsBack(bits: seq<bool>, pos: nat, items: seq<Item>)
    requires pos + |Codes(items)| <= |bits| && forall x | x in items :: x.Valid()
    ensures var r := Spliced(bits, pos, Codes(items));
      && ReadAll(r, pos, items) == (Numbers(items), pos + |Codes(items)|)
      && |r| == |bits| && r[..pos] == bits[..pos] && r[pos + |Codes(items)|..] == bits[pos + |Codes(items)|..]
  {
    hide Codes, ReadAll;
    ReadsBack(Spliced(bits, pos, Codes(items)), pos, items);
  }

  // ---------- The codes as the standard has them ----------

  // The code of v has a zero for each doubling that v + 1 is, a one, and what is left of v + 1 in as many bits: a value
  // from 2^k - 1 to 2^(k + 1) - 2 has k zeros and 2k + 1 bits.
  lemma {:induction false} UeCodeIs(v: nat, k: nat)
    requires Pow2(k) - 1 <= v <= 2 * Pow2(k) - 2
    ensures UeBits(v) == Zeros(k) + [true] + UBits(k, v + 1 - Pow2(k)) && |UeBits(v)| == 2 * k + 1
  {
    var w := v + 1;
    LengthIs(w);
    LengthUnique(w, BitLength(w), k + 1);
    TopBit(k + 1, w);
    assert Zeros(k) + ([true] + UBits(k, w - Pow2(k))) == Zeros(k) + [true] + UBits(k, w - Pow2(k));
  }

  lemma {:induction false} LengthUnique(w: nat, a: nat, b: nat)
    requires a >= 1 && b >= 1 && Pow2(a - 1) <= w < Pow2(a) && Pow2(b - 1) <= w < Pow2(b)
    ensures a == b
  {
    if a < b {
      PowGrows(a, b - 1);
    } else if b < a {
      PowGrows(b, a - 1);
    }
  }

  lemma {:induction false} PowGrows(a: nat, b: nat)
    requires a <= b
    ensures Pow2(a) <= Pow2(b)
    decreases b - a
  {
    if a < b {
      PowGrows(a, b - 1);
    }
  }

  // The reader counts zeros up to the first one bit, but no more than 32, and stops at the last bit there is.
  lemma {:induction false} ZerosAre(bits: seq<bool>, pos: nat, i: nat)
    requires i <= 32
    ensures var k := CountZeros(bits, pos, i) - i;
      && 0 <= k <= 32 - i
      && (forall j | pos <= j < pos + k :: !BitAt(bits, j))
      && (k == 32 - i || BitAt(bits, pos + k) || pos + k + 1 >= |bits|)
      && (k > 0 ==> pos + k < |bits|)
    decreases 32 - i
  {
    if !BitAt(bits, pos) && i < 32 && pos + 1 < |bits| {
      ZerosAre(bits, pos + 1, i + 1);
    }
  }

  // Signed values take the codes in the order 0, 1, -1, 2, -2: each positive value the one in front of its negative.
  lemma SeOrder(v: int)
    requires v > 0
    ensures SeIndex(0) == 0 && SeIndex(1) == 1
    ensures SeIndex(-v) == SeIndex(v) + 1 && SeIndex(v + 1) == SeIndex(v) + 2
    ensures SeOf(SeIndex(v)) == v && SeOf(SeIndex(-v)) == -v
  {
  }

  // A fixed-length number has its most significant bit first: bit i of n is worth 2^(n - 1 - i).
  lemma {:induction false} ValueOfFirst(s: seq<bool>)
    requires s != []
    ensures Value(s) == (if s[0] then Pow2(|s| - 1) else 0) + Value(s[1..])
    decreases |s|
  {
    var n := |s| - 1;
    if n == 0 {
      assert s[..0] == [] && s[1..] == [];
    } else {
      ValueOfFirst(s[..n]);
      assert s[..n][1..] == s[1..][..n - 1] && s[1..][n - 1] == s[n];
    }
  }

  // Behind the end the reader reads zeros, as if they were there.
  lemma PastTheEnd(bits: seq<bool>, pos: nat, n: nat)
    ensures ReadU(bits, pos, n) == ReadU(bits + Zeros(pos + n), pos, n)
    ensures pos >= |bits| ==> ReadU(bits, pos, n) == 0
  {
    assert BitsAt(bits, pos, n) == BitsAt(bits + Zeros(pos + n), pos, n);
    if pos >= |bits| {
      assert BitsAt(bits, pos, n) == Zeros(n);
      NoValue(n);
    }
  }

  lemma {:induction false} NoValue(n: nat)
    ensures Value(Zeros(n)) == 0
  {
    if n > 0 {
      assert Zeros(n)[..n - 1] == Zeros(n - 1);
      NoValue(n - 1);
    }
  }
}
