// The block cipher loop of DecodeTEA (librtmp/rtmp.c), against XXTEA encryption.
module Tea {
  import opened Bytes

  const DELTA: u32 := 0x9e37_79b9

  type CipherKey = k: seq<u32> | |k| == 4 witness [0, 0, 0, 0]

  // Neighbours z and y, sum and key word, mixed.
  type Mixer = (u32, u32, u32, u32) -> u32

  // The macro MX.
  function Mix(z: u32, y: u32, sum: u32, k: u32): u32 {
    var a, b, s, w := z as bv32, y as bv32, sum as bv32, k as bv32;
    ((((a >> 5) ^ (b << 2)) + ((b >> 3) ^ (a << 4))) ^ ((s ^ b) + (w ^ a))) as int
  }

  // The key word for position p in a round: (p & 3) ^ e with e = sum >> 2 & 3.
  function KeyIndex(p: nat, sum: u32): nat
    ensures KeyIndex(p, sum) < 4
  {
    (((p % 4) as bv2) ^ ((sum / 4 % 4) as bv2)) as int
  }

  // What a round adds to, or takes from, word p: it depends on the word's neighbours, not on the word.
  function MixAt(f: Mixer, k: CipherKey, v: seq<u32>, p: nat, sum: u32): u32
    requires p < |v|
  {
    var z := v[if p == 0 then |v| - 1 else p - 1];
    var y := v[if p == |v| - 1 then 0 else p + 1];
    f(z, y, sum, k[KeyIndex(p, sum)])
  }

  // ---------- Encryption: the reference ----------

  function EncryptWord(f: Mixer, k: CipherKey, v: seq<u32>, p: nat, sum: u32): (r: seq<u32>)
    requires p < |v|
    ensures |r| == |v|
  {
    v[p := Wrap(v[p] + MixAt(f, k, v, p, sum))]
  }

  // Words 0 to p, in order.
  function EncryptUpTo(f: Mixer, k: CipherKey, v: seq<u32>, p: nat, sum: u32): (r: seq<u32>)
    requires p < |v|
    ensures |r| == |v|
  {
    EncryptWord(f, k, if p == 0 then v else EncryptUpTo(f, k, v, p - 1, sum), p, sum)
  }

  // The sum after i rounds.
  function SumOf(i: nat): u32 {
    Wrap(i * DELTA)
  }

  function Encrypt(f: Mixer, k: CipherKey, v: seq<u32>, rounds: nat): (r: seq<u32>)
    requires v != []
    ensures |r| == |v|
    decreases rounds
  {
    if rounds == 0 then v else EncryptUpTo(f, k, Encrypt(f, k, v, rounds - 1), |v| - 1, SumOf(rounds))
  }

  // ---------- Decryption ----------

  function DecryptWord(f: Mixer, k: CipherKey, v: seq<u32>, p: nat, sum: u32): (r: seq<u32>)
    requires p < |v|
    ensures |r| == |v|
  {
    v[p := Wrap(v[p] - MixAt(f, k, v, p, sum))]
  }

  // Words p down to 0.
  function DecryptDownFrom(f: Mixer, k: CipherKey, v: seq<u32>, p: nat, sum: u32): (r: seq<u32>)
    requires p < |v|
    ensures |r| == |v|
    decreases p
  {
    var w := DecryptWord(f, k, v, p, sum);
    if p == 0 then w else DecryptDownFrom(f, k, w, p - 1, sum)
  }

  function Decrypt(f: Mixer, k: CipherKey, v: seq<u32>, rounds: nat): (r: seq<u32>)
    requires v != []
    ensures |r| == |v|
    decreases rounds
  {
    if rounds == 0 then v else Decrypt(f, k, DecryptDownFrom(f, k, v, |v| - 1, SumOf(rounds)), rounds - 1)
  }

  lemma WordBack(f: Mixer, k: CipherKey, v: seq<u32>, p: nat, sum: u32)
    requires p < |v| && |v| >= 2
    ensures DecryptWord(f, k, EncryptWord(f, k, v, p, sum), p, sum) == v
  {
    var m: int := MixAt(f, k, v, p, sum);
    var w := EncryptWord(f, k, v, p, sum);
    assert MixAt(f, k, w, p, sum) == m;
    WrapAdd(v[p] + m, -m);
  }

  lemma {:induction false} RoundBack(f: Mixer, k: CipherKey, v: seq<u32>, p: nat, sum: u32)
    requires p < |v| && |v| >= 2
    ensures DecryptDownFrom(f, k, EncryptUpTo(f, k, v, p, sum), p, sum) == v
    decreases p
  {
    hide EncryptWord, DecryptWord;
    WordBack(f, k, if p == 0 then v else EncryptUpTo(f, k, v, p - 1, sum), p, sum);
    if p > 0 {
      RoundBack(f, k, v, p - 1, sum);
    }
  }

  // Decryption undoes encryption, for every key and every text of two words or more.
  lemma {:induction false} DecryptsEncrypted(f: Mixer, k: CipherKey, v: seq<u32>, rounds: nat)
    requires |v| >= 2
    ensures Decrypt(f, k, Encrypt(f, k, v, rounds), rounds) == v
    decreases rounds
  {
    hide EncryptUpTo, DecryptDownFrom;
    if rounds > 0 {
      RoundBack(f, k, Encrypt(f, k, v, rounds - 1), |v| - 1, SumOf(rounds));
      DecryptsEncrypted(f, k, v, rounds - 1);
    }
  }

  // DELTA is odd, so it has an inverse modulo 2^32.
  const INVERSE: u32 := 0x144c_bc89

  // DELTA * INVERSE == CARRY * 2^32 + 1.
  const CARRY: nat := 210485888

  // The sum is not 0 again before 2^32 rounds: the loop condition counts the rounds.
  lemma SumIsNotZero(i: nat)
    requires 0 < i < B32
    ensures SumOf(i) != 0
  {
    if SumOf(i) == 0 {
      OnlyMultiples(i, i * DELTA / B32);
    }
  }

  lemma OnlyMultiples(i: nat, q: int)
    requires i * DELTA == q * B32
    ensures i == (q * INVERSE - i * CARRY) * B32
  {
    assert i == i * (DELTA * INVERSE - CARRY * B32);
  }

  lemma SumStep(i: nat)
    requires i > 0
    ensures Wrap(SumOf(i) - DELTA) == SumOf(i - 1)
  {
    var d: int := DELTA;
    WrapAdd(i * DELTA, -d);
    assert i * DELTA - DELTA == (i - 1) * DELTA;
  }

  // One round in place. y is the word decrypted last, z the one in front of the next.
  method DecryptRound(k: CipherKey, v: array<u32>, sum: u32, y0: u32) returns (y: u32)
    requires v.Length > 0 && y0 == v[0]
    modifies v
    ensures v[..] == DecryptDownFrom(Mix, k, old(v[..]), v.Length - 1, sum) && y == v[0]
  {
    hide Mix, KeyIndex, Wrap;
    ghost var goal := DecryptDownFrom(Mix, k, v[..], v.Length - 1, sum);
    y := y0;
    var z;
    var p := v.Length - 1;
    while p > 0
      invariant 0 <= p < v.Length
      invariant y == v[if p == v.Length - 1 then 0 else p + 1]
      invariant DecryptDownFrom(Mix, k, v[..], p, sum) == goal
    {
      ghost var s := v[..];
      z := v[p - 1];
      v[p] := Wrap(v[p] - Mix(z, y, sum, k[KeyIndex(p, sum)]));
      y := v[p];
      assert v[..] == DecryptWord(Mix, k, s, p, sum);
      p := p - 1;
    }
    ghost var s := v[..];
    z := v[v.Length - 1];
    v[0] := Wrap(v[0] - Mix(z, y, sum, k[KeyIndex(0, sum)]));
    y := v[0];
    assert v[..] == DecryptWord(Mix, k, s, 0, sum);
  }

  // The loop runs exactly 6 + 52/n rounds, although its condition only looks at the sum.
  method DecodeWords(k: CipherKey, v: array<u32>) returns (ghost rounds: nat)
    requires v.Length > 0
    modifies v
    ensures rounds == 6 + 52 / v.Length
    ensures v[..] == Decrypt(Mix, k, old(v[..]), 6 + 52 / v.Length)
  {
    hide DecryptDownFrom, SumOf;
    var y := v[0];
    var q := 6 + 52 / v.Length;
    var sum := Wrap(q * DELTA);
    SumStarts(q);
    ghost var i := q;
    rounds := 0;
    SumEnds();
    while sum != 0
      invariant 0 <= i <= q && sum == SumOf(i) && y == v[0] && rounds == q - i
      invariant Decrypt(Mix, k, v[..], i) == Decrypt(Mix, k, old(v[..]), q)
      decreases i
    {
      y := DecryptRound(k, v, sum, y);
      SumStep(i);
      sum := Wrap(sum - DELTA);
      i := i - 1;
      rounds := rounds + 1;
    }
    if i > 0 {
      SumIsNotZero(i);
    }
  }

  lemma SumStarts(q: nat)
    ensures SumOf(q) == Wrap(q * DELTA)
  {
  }

  lemma SumEnds()
    ensures SumOf(0) == 0
  {
  }

  // ---------- The cipher is XXTEA ----------

  // The key word of position p: e, bits 2 and 3 of the sum, changes the order of the words in a fixed way.
  lemma KeyOrder(p: nat, sum: u32)
    ensures var e, i := sum / 4 % 4, p % 4;
      && (e == 0 ==> KeyIndex(p, sum) == i)
      && (e == 1 ==> KeyIndex(p, sum) == if i % 2 == 0 then i + 1 else i - 1)
      && (e == 2 ==> KeyIndex(p, sum) == if i < 2 then i + 2 else i - 2)
      && (e == 3 ==> KeyIndex(p, sum) == 3 - i)
  {
  }

  // A word is changed by what is in front of it, what is behind it and its key word; the first and the last are neighbours.
  lemma NeighboursMix(f: Mixer, k: CipherKey, v: seq<u32>, p: nat, sum: u32)
    requires p < |v|
    ensures MixAt(f, k, v, p, sum) == f(v[(p + |v| - 1) % |v|], v[(p + 1) % |v|], sum, k[KeyIndex(p, sum)])
    ensures EncryptWord(f, k, v, p, sum)[p] == (v[p] + MixAt(f, k, v, p, sum)) % 0x1_0000_0000
  {
    hide KeyIndex;
    RoundAbout(p, |v|);
  }

  lemma RoundAbout(p: nat, n: nat)
    requires p < n
    ensures (p + n - 1) % n == if p == 0 then n - 1 else p - 1
    ensures (p + 1) % n == if p == n - 1 then 0 else p + 1
  {
    if p > 0 {
      QuotientIs(p + n - 1, n, 1, p - 1);
    }
  }

  // The macro MX on some inputs: a neighbour alone, sum and key alone, and all of them, with carries lost at the top.
  lemma MixVectors()
    ensures Mix(0x12345678, 0x9abcdef0, 0x9e3779b9, 0xdeadbeef) == 0x4b505a31
    ensures Mix(0x20, 0x0, 0x0, 0x0) == 0x221
    ensures Mix(0x0, 0x8, 0x0, 0x0) == 0x29
    ensures Mix(0x0, 0x0, 0x7, 0x9) == 0x10
    ensures Mix(0x80000000, 0x40000001, 0x1, 0x2) == 0xcc000006
  {
  }

  // The constant is the golden section of 2^32, rounded down.
  lemma GoldenDelta()
    ensures DELTA * DELTA + DELTA * B32 < B32 * B32 < (DELTA as int + 1) * (DELTA as int + 1) + (DELTA as int + 1) * B32
  {
  }
}
