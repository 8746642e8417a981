// What the two ends of a handshake send and accept (librtmp/handshake.h, HandShake and SHandShake), as functions of what
// they have received, their random bytes and clocks, and the ciphers.
module HandshakeSpec {
  import opened Bytes
  import opened Digest

  // The words of the two keys, and the 32 bytes both end in.
  const GENUINE: seq<byte> := [0x47, 0x65, 0x6e, 0x75, 0x69, 0x6e, 0x65, 0x20, 0x41, 0x64, 0x6f, 0x62, 0x65, 0x20]
  const PLAYER: seq<byte> := [0x46, 0x6c, 0x61, 0x73, 0x68, 0x20, 0x50, 0x6c, 0x61, 0x79, 0x65, 0x72, 0x20]
  const MEDIA: seq<byte> := [0x46, 0x6c, 0x61, 0x73, 0x68, 0x20, 0x4d, 0x65, 0x64, 0x69, 0x61, 0x20]
  const SERVER: seq<byte> := [0x53, 0x65, 0x72, 0x76, 0x65, 0x72, 0x20]
  const ONE: seq<byte> := [0x30, 0x30, 0x31]
  const COMMON: seq<byte> := [
    0xf0, 0xee, 0xc2, 0x4a, 0x80, 0x68, 0xbe, 0xe8, 0x2e, 0x00, 0xd0, 0xd1, 0x02, 0x9e, 0x7e, 0x57,
    0x6e, 0xec, 0x5d, 0x2d, 0x29, 0x80, 0x6f, 0xab, 0x93, 0xb8, 0xe6, 0x36, 0xcf, 0xeb, 0x31, 0xae]

  // The parts of the keys a server's and a client's first block is signed with, and the whole keys.
  const FMS_SIGN: seq<byte> := GENUINE + MEDIA + SERVER + ONE
  const FP_SIGN: seq<byte> := GENUINE + PLAYER + ONE
  const FMS_KEY: seq<byte> := FMS_SIGN + COMMON
  const FP_KEY: seq<byte> := FP_SIGN + COMMON

  type Word = s: seq<byte> | |s| == 4 witness [0, 0, 0, 0]
  type Block = s: seq<byte> | |s| == 8 witness [0, 0, 0, 0, 0, 0, 0, 0]
  type Random = s: seq<byte> | |s| == 1528 witness seq(1528, _ => 0)

  // The ciphers. pub is a private number's public key, shared the secret computed from the other side's public key, if
  // that is acceptable; sig8 and sig9 are the block ciphers of handshake types 8 and 9.
  datatype Crypto = Crypto(hmac: Hmac, pub: nat -> Key, shared: (nat, Key) -> Option<Key>,
                           sig8: (Block, nat) -> Block, sig9: (Block, nat) -> Block)

  // An RC4 key and how much of its keystream has been used.
  datatype Rc4 = Rc4(key: seq<byte>, used: nat)

  datatype Keys = Keys(keyIn: Rc4, keyOut: Rc4)

  // InitRC4Encryption.
  function InitKeys(c: Crypto, secret: Key, pubIn: Key, pubOut: Key): Keys {
    Keys(Rc4(c.hmac(pubOut, secret)[..16], 0), Rc4(c.hmac(pubIn, secret)[..16], 0))
  }

  function Advanced(k: Keys, n: nat): Keys {
    Keys(k.keyIn.(used := k.keyIn.used + n), k.keyOut.(used := k.keyOut.used + n))
  }

  function Part(h: Hash, i: nat): Block
    requires i + 8 <= 32
  {
    h[i..i + 8]
  }

  function Ciphered(f: (Block, nat) -> Block, digest: Hash, sig: Hash): Hash {
    f(Part(sig, 0), digest[0] % 15) + f(Part(sig, 8), digest[8] % 15)
    + f(Part(sig, 16), digest[16] % 15) + f(Part(sig, 24), digest[24] % 15)
  }

  // The signature over a block, keyed by the digest of the other side's first block.
  function Signature(c: Crypto, kind: byte, block: Sig, digest: Hash, key: seq<byte>): Hash {
    var d := c.hmac(digest, key);
    var sig := c.hmac(block[..SIG_SIZE - DIGEST_SIZE], d);
    if kind == 8 then Ciphered(c.sig8, d, sig) else if kind == 9 then Ciphered(c.sig9, d, sig) else sig
  }

  function WithSignature(block: Sig, sig: Hash): Sig {
    block[..SIG_SIZE - DIGEST_SIZE] + sig
  }

  // The scheme a received first block was signed by, the expected one tried first.
  function FindScheme(c: Crypto, s: Sig, first: Scheme, key: seq<byte>): Option<Scheme> {
    RegionsApart(first, s);
    var other: Scheme := 1 - first;
    RegionsApart(other, s);
    if DigestOk(c.hmac, s, DigestOffset(first, s), key) then Some(first)
    else if DigestOk(c.hmac, s, DigestOffset(other, s), key) then Some(other)
    else None
  }

  function DigestIn(scheme: Scheme, s: Sig): Hash {
    RegionsApart(scheme, s);
    s[DigestOffset(scheme, s)..DigestOffset(scheme, s) + DIGEST_SIZE]
  }

  function KeyIn(scheme: Scheme, s: Sig): Key {
    RegionsApart(scheme, s);
    s[DHOffset(scheme, s)..DHOffset(scheme, s) + KEY_SIZE]
  }

  // What a side brings along: its clock, its random bytes, its private number. extra is the client's second block.
  datatype Party = Party(time: Word, random: Random, priv: nat, extra: Sig)

  // encrypted is RTMPE; otherwise a client with an SWF to verify (swf) signs without encrypting.
  datatype Mode = Mode(encrypted: bool, swf: bool) {
    predicate Signs() {
      encrypted || swf
    }
  }

  function FirstScheme(encrypted: bool): Scheme {
    if encrypted then 1 else 0
  }

  function PlainSig(p: Party, version: Word): Sig {
    p.time + version + p.random
  }

  function FirstSig(c: Crypto, p: Party, version: Word, signs: bool, encrypted: bool, key: seq<byte>): Sig {
    var s := PlainSig(p, version);
    if signs then Signed(c.hmac, s, FirstScheme(encrypted), if encrypted then Some(c.pub(p.priv)) else None, key) else s
  }

  // ---------- The client ----------

  function ClientKind(mode: Mode): byte {
    if mode.encrypted then 6 else 3
  }

  function ClientVersion(mode: Mode): Word {
    if mode.encrypted then [128, 0, 3, 2] else if mode.swf then [10, 0, 45, 2] else [0, 0, 0, 0]
  }

  function ClientSig(c: Crypto, mode: Mode, p: Party): Sig {
    FirstSig(c, p, ClientVersion(mode), mode.Signs(), mode.encrypted, FP_SIGN)
  }

  // After the other side's first block: whether the exchange is a signed one, the keys, and this side's second block.
  datatype Middle = Refused | Middle(signs: bool, keys: Option<Keys>, reply: Sig)

  // Keys from the other side's block theirs, laid out by scheme, and this side's, mine.
  function Exchange(c: Crypto, priv: nat, theirs: Sig, scheme: Scheme, mine: Key): Option<Keys> {
    var secret := c.shared(priv, KeyIn(scheme, theirs));
    if secret.None? then None else Some(InitKeys(c, secret.value, KeyIn(scheme, theirs), mine))
  }

  function ClientMiddle(c: Crypto, mode: Mode, p: Party, kind: byte, serverSig: Sig): Middle {
    if !mode.Signs() || (kind == 3 && serverSig[4] == 0) then Middle(false, None, serverSig)
    else
      var scheme := FindScheme(c, serverSig, FirstScheme(mode.encrypted), FMS_SIGN);
      if scheme.None? then Refused
      else
        var mine := KeyIn(FirstScheme(mode.encrypted), ClientSig(c, mode, p));
        var keys := if mode.encrypted then Exchange(c, p.priv, serverSig, scheme.value, mine) else None;
        if mode.encrypted && keys.None? then Refused
        else
          Middle(true, keys, WithSignature(p.extra, Signature(c, kind, p.extra, DigestIn(scheme.value, serverSig), FP_KEY)))
  }

  // The keys in force from then on, if the other side's second block is accepted. A plain exchange accepts anything.
  datatype Outcome = Failure | Success(keys: Option<Keys>)

  function Accept(m: Middle, second: Sig, expected: Hash): Outcome
    requires m.Middle?
  {
    if !m.signs then Success(None)
    else if second[SIG_SIZE - DIGEST_SIZE..] != expected then Failure
    else Success(if m.keys.Some? then Some(Advanced(m.keys.value, SIG_SIZE)) else None)
  }

  function ClientEnd(c: Crypto, mode: Mode, p: Party, kind: byte, m: Middle, second: Sig): Outcome
    requires m.Middle?
  {
    Accept(m, second,
           Signature(c, kind, second, DigestIn(FirstScheme(mode.encrypted), ClientSig(c, mode, p)), FMS_KEY))
  }

  // ---------- The server ----------

  // What the server makes of the client's type byte and block: the type it answers with, and the kind of exchange.
  datatype Terms = Unknown | Terms(kind: byte, encrypted: bool, signs: bool)

  function TermsOf(kind: byte, clientSig: Sig): Terms {
    if kind == 3 then Terms(3, false, clientSig[4] != 0)
    else if kind == 6 || kind == 8 then Terms(if clientSig[4] == 128 then 8 else kind, true, true)
    else Unknown
  }

  function ServerSig(c: Crypto, t: Terms, p: Party): Sig
    requires t.Terms?
  {
    FirstSig(c, p, if t.signs then [3, 5, 1, 1] else [0, 0, 0, 0], t.signs, t.encrypted, FMS_SIGN)
  }

  function ServerMiddle(c: Crypto, t: Terms, p: Party, clientSig: Sig): Middle
    requires t.Terms?
  {
    if !t.signs then Middle(false, None, clientSig)
    else
      var scheme := FindScheme(c, clientSig, FirstScheme(t.encrypted), FP_SIGN);
      if scheme.None? then Refused
      else
        var mine := KeyIn(FirstScheme(t.encrypted), ServerSig(c, t, p));
        var keys := if t.encrypted then Exchange(c, p.priv, clientSig, scheme.value, mine) else None;
        if t.encrypted && keys.None? then Refused
        else
          Middle(true, keys, WithSignature(clientSig,
            Signature(c, t.kind, clientSig, DigestIn(scheme.value, clientSig), FMS_KEY)))
  }

  function ServerEnd(c: Crypto, t: Terms, p: Party, m: Middle, second: Sig): Outcome
    requires t.Terms? && m.Middle?
  {
    Accept(m, second, Signature(c, t.kind, second, DigestIn(FirstScheme(t.encrypted), ServerSig(c, t, p)), FP_KEY))
  }
}
