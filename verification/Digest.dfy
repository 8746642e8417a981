// Where a handshake block keeps its digest and its Diffie-Hellman key (librtmp/handshake.h): positions are computed from
// bytes of the block itself.
module Digest {
  import opened Buffer
  import opened Bytes

  const SIG_SIZE := 1536
  const DIGEST_SIZE := 32
  const KEY_SIZE := 128

  type Sig = s: seq<byte> | |s| == 1536 witness seq(1536, _ => 0)
  type Hash = s: seq<byte> | |s| == 32 witness seq(32, _ => 0)
  type Key = s: seq<byte> | |s| == 128 witness seq(128, _ => 0)

  // HMAC-SHA256 of a message under a key; nothing about it is assumed.
  type Hmac = (seq<byte>, seq<byte>) -> Hash

  // Scheme 0 is GetDHOffset1 and GetDigestOffset1, scheme 1 the other two (digoff, dhoff).
  type Scheme = n: nat | n < 2

  // The four bytes a position is computed from.
  function DHSource(scheme: Scheme): nat {
    if scheme == 0 then 1532 else 768
  }

  function DigestSource(scheme: Scheme): nat {
    if scheme == 0 then 8 else 772
  }

  function Sum4(s: Sig, i: nat): nat
    requires i + 4 <= SIG_SIZE
  {
    s[i] as int + s[i + 1] as int + s[i + 2] as int + s[i + 3] as int
  }

  function DHOffset(scheme: Scheme, s: Sig): nat {
    Sum4(s, DHSource(scheme)) % 632 + if scheme == 0 then 772 else 8
  }

  function DigestOffset(scheme: Scheme, s: Sig): nat {
    Sum4(s, DigestSource(scheme)) % 728 + if scheme == 0 then 12 else 776
  }

  // The bound each offset function checks before it gives up.
  function DHLimit(scheme: Scheme): nat {
    if scheme == 0 then 1531 else 767
  }

  function DigestLimit(scheme: Scheme): nat {
    match scheme
    case 0 => 771
    case _ => 1535
  }

  // The exits cannot be reached, and the bounds are tight: some block gets as far as each of them.
  lemma OffsetsInBounds(scheme: Scheme, s: Sig)
    ensures DHOffset(scheme, s) + KEY_SIZE <= DHLimit(scheme)
    ensures DigestOffset(scheme, s) + DIGEST_SIZE <= DigestLimit(scheme)
    ensures exists t: Sig :: DHOffset(scheme, t) + KEY_SIZE == DHLimit(scheme)
    ensures exists t: Sig :: DigestOffset(scheme, t) + DIGEST_SIZE == DigestLimit(scheme)
  {
    var a: Sig := Filled(DHSource(scheme), [255, 255, 121, 0]);
    var b: Sig := Filled(DigestSource(scheme), [255, 255, 217, 0]);
    assert DHOffset(scheme, a) + KEY_SIZE == DHLimit(scheme);
    assert DigestOffset(scheme, b) + DIGEST_SIZE == DigestLimit(scheme);
  }

  function Filled(i: nat, x: seq<byte>): (s: Sig)
    requires |x| == 4 && i + 4 <= SIG_SIZE
    ensures forall k | 0 <= k < 4 :: s[i + k] == x[k]
  {
    seq(SIG_SIZE, k requires 0 <= k < SIG_SIZE => if i <= k < i + 4 then x[k - i] else 0)
  }

  predicate Apart(i: nat, n: nat, j: nat, m: nat) {
    i + n <= j || j + m <= i
  }

  // Key, digest and the bytes their positions come from do not overlap, nor touch the time and version in front.
  lemma RegionsApart(scheme: Scheme, s: Sig)
    ensures var k, d := DHOffset(scheme, s), DigestOffset(scheme, s);
      && Apart(k, KEY_SIZE, d, DIGEST_SIZE)
      && Apart(k, KEY_SIZE, DHSource(scheme), 4) && Apart(k, KEY_SIZE, DigestSource(scheme), 4)
      && Apart(d, DIGEST_SIZE, DHSource(scheme), 4) && Apart(d, DIGEST_SIZE, DigestSource(scheme), 4)
      && Apart(DHSource(scheme), 4, DigestSource(scheme), 4)
      && 8 <= k <= SIG_SIZE - KEY_SIZE && 8 <= d <= SIG_SIZE - DIGEST_SIZE && 8 <= DHSource(scheme)
  {
  }

  lemma PutKeeps(s: Sig, i: nat, x: seq<byte>, j: nat, n: nat)
    requires i + |x| <= SIG_SIZE && j + n <= SIG_SIZE && Apart(i, |x|, j, n)
    ensures Put(s, i, x)[j..j + n] == s[j..j + n]
    ensures Put(s, i, x)[i..i + |x|] == x
  {
  }

  lemma SumFrom(s: Sig, t: Sig, i: nat)
    requires i + 4 <= SIG_SIZE && s[i..i + 4] == t[i..i + 4]
    ensures Sum4(s, i) == Sum4(t, i)
  {
    assert s[i..i + 4][0] == t[i] && s[i..i + 4][1] == t[i + 1] && s[i..i + 4][2] == t[i + 2] && s[i..i + 4][3] == t[i + 3];
  }

  // ---------- Digests ----------

  // The block without the digest.
  function Without(s: Sig, pos: nat): (m: seq<byte>)
    requires pos + DIGEST_SIZE <= SIG_SIZE
    ensures |m| == SIG_SIZE - DIGEST_SIZE
  {
    s[..pos] + s[pos + DIGEST_SIZE..]
  }

  predicate DigestOk(h: Hmac, s: Sig, pos: nat, key: seq<byte>)
    requires pos + DIGEST_SIZE <= SIG_SIZE
  {
    s[pos..pos + DIGEST_SIZE] == h(Without(s, pos), key)
  }

  lemma PutWithout(s: Sig, pos: nat, x: Hash)
    requires pos + DIGEST_SIZE <= SIG_SIZE
    ensures Without(Put(s, pos, x), pos) == Without(s, pos)
  {
  }

  function WithKey(s: Sig, scheme: Scheme, dh: Option<Key>): Sig {
    RegionsApart(scheme, s);
    if dh.Some? then Put(s, DHOffset(scheme, s), dh.value) else s
  }

  function WithDigest(h: Hmac, s: Sig, scheme: Scheme, key: seq<byte>): Sig {
    RegionsApart(scheme, s);
    var pos := DigestOffset(scheme, s);
    Put(s, pos, h(Without(s, pos), key))
  }

  // The block as it is sent: the key, if there is one, then the digest, each at its computed position.
  function Signed(h: Hmac, s: Sig, scheme: Scheme, dh: Option<Key>, key: seq<byte>): Sig {
    WithDigest(h, WithKey(s, scheme, dh), scheme, key)
  }

  lemma OnePut(s: Sig, scheme: Scheme, i: nat, x: seq<byte>)
    requires 8 <= i && i + |x| <= SIG_SIZE
    requires Apart(i, |x|, DHSource(scheme), 4) && Apart(i, |x|, DigestSource(scheme), 4)
    ensures DHOffset(scheme, Put(s, i, x)) == DHOffset(scheme, s)
    ensures DigestOffset(scheme, Put(s, i, x)) == DigestOffset(scheme, s)
    ensures Put(s, i, x)[..8] == s[..8]
  {
    PutKeeps(s, i, x, DHSource(scheme), 4);
    PutKeeps(s, i, x, DigestSource(scheme), 4);
    SumFrom(Put(s, i, x), s, DHSource(scheme));
    SumFrom(Put(s, i, x), s, DigestSource(scheme));
  }

  // Positions are stable: whoever recomputes them on the finished block finds the digest and the key, the digest
  // verifies whatever the hash function is, and time and version are as they were.
  lemma SignedIsStable(h: Hmac, s: Sig, scheme: Scheme, dh: Option<Key>, key: seq<byte>)
    ensures var r := Signed(h, s, scheme, dh, key);
      var k, d := DHOffset(scheme, r), DigestOffset(scheme, r);
      && k == DHOffset(scheme, s) && k + KEY_SIZE <= SIG_SIZE
      && d == DigestOffset(scheme, s) && d + DIGEST_SIZE <= SIG_SIZE
      && DigestOk(h, r, d, key)
      && (dh.Some? ==> r[k..k + KEY_SIZE] == dh.value)
      && r[..8] == s[..8]
  {
    hide DHOffset, DigestOffset, Put, Without;
    RegionsApart(scheme, s);
    var k, d := DHOffset(scheme, s), DigestOffset(scheme, s);
    var s1: Sig := s;
    if dh.Some? {
      OnePut(s, scheme, k, dh.value);
      PutKeeps(s, k, dh.value, d, DIGEST_SIZE);
      s1 := Put(s, k, dh.value);
      RegionsApart(scheme, s1);
    }
    var x := h(Without(s1, d), key);
    OnePut(s1, scheme, d, x);
    PutKeeps(s1, d, x, k, KEY_SIZE);
    PutWithout(s1, d, x);
  }

  // ---------- The functions themselves ----------

  // GetDHOffset1 and GetDHOffset2.
  method GetDHOffset(scheme: Scheme, a: array<byte>) returns (res: nat)
    requires a.Length == SIG_SIZE
    ensures res == DHOffset(scheme, a[..])
  {
    var ptr := DHSource(scheme);
    var offset: nat := a[ptr];
    ptr := ptr + 1;
    offset := offset + a[ptr];
    ptr := ptr + 1;
    offset := offset + a[ptr];
    ptr := ptr + 1;
    offset := offset + a[ptr];
    res := offset % 632 + if scheme == 0 then 772 else 8;
    if res + 128 > DHLimit(scheme) {
      assert false;  // exit(1)
    }
  }

  // GetDigestOffset1 and GetDigestOffset2.
  method GetDigestOffset(scheme: Scheme, a: array<byte>) returns (res: nat)
    requires a.Length == SIG_SIZE
    ensures res == DigestOffset(scheme, a[..])
  {
    var ptr := DigestSource(scheme);
    var offset: nat := a[ptr];
    ptr := ptr + 1;
    offset := offset + a[ptr];
    ptr := ptr + 1;
    offset := offset + a[ptr];
    ptr := ptr + 1;
    offset := offset + a[ptr];
    res := offset % 728 + if scheme == 0 then 12 else 776;
    if res + 32 > DigestLimit(scheme) {
      assert false;  // exit(1)
    }
  }

  method CalculateDigest(h: Hmac, digestPos: nat, a: array<byte>, key: seq<byte>) returns (digest: Hash)
    requires a.Length == SIG_SIZE && digestPos + DIGEST_SIZE <= SIG_SIZE
    ensures digest == h(Without(a[..], digestPos), key)
  {
    var messageLen := SIG_SIZE - DIGEST_SIZE;
    var message := new byte[messageLen](_ => 0);
    Copy(message, 0, a[..digestPos]);
    ghost var s := message[..];
    var tail := a[digestPos + DIGEST_SIZE..];
    Copy(message, digestPos, tail);
    assert message[..digestPos] == s[..digestPos] == s[0..digestPos];
    assert message[..] == message[..digestPos] + message[digestPos..digestPos + |tail|];
    digest := h(message[..], key);
  }

  method VerifyDigest(h: Hmac, digestPos: nat, a: array<byte>, key: seq<byte>) returns (ok: bool)
    requires a.Length == SIG_SIZE && digestPos + DIGEST_SIZE <= SIG_SIZE
    ensures ok == DigestOk(h, a[..], digestPos, key)
  {
    var calcDigest := CalculateDigest(h, digestPos, a, key);
    ok := a[digestPos..digestPos + DIGEST_SIZE] == calcDigest;
  }
}
