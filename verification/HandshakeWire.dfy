// What the two sides of a handshake put on the wire, byte by byte (librtmp/handshake.h).
module HandshakeWire {
  import opened Bytes
  import opened Digest
  import opened HandshakeRun
  import opened HandshakeSpec

  predicate Spells(s: seq<byte>, text: string) {
    |s| == |text| && forall i | 0 <= i < |s| :: s[i] == text[i] as int
  }

  // The names the keys begin with.
  lemma Words()
    ensures Spells(GENUINE, "Genuine Adobe ") && Spells(PLAYER, "Flash Player ") && Spells(MEDIA, "Flash Media ")
    ensures Spells(SERVER, "Server ") && Spells(ONE, "001")
  {
  }

  lemma KeysBegin()
    ensures |FP_SIGN| == 30 && FP_KEY[..30] == FP_SIGN && |FP_KEY| == 62
    ensures |FMS_SIGN| == 36 && FMS_KEY[..36] == FMS_SIGN && |FMS_KEY| == 68
  {
  }

  // The sum of the four bytes at i.
  function SumAt(s: Sig, i: nat): nat
    requires i + 4 <= 1536
  {
    s[i] as int + s[i + 1] as int + s[i + 2] as int + s[i + 3] as int
  }

  // Where the digest and the public key of a block are: in the first half of the block, the digest, and in the second the
  // key, if it is only signed; the other way round if it is encrypted.
  function DigestPlace(s: Sig, encrypted: bool): nat {
    if encrypted then 776 + SumAt(s, 772) % 728 else 12 + SumAt(s, 8) % 728
  }

  function KeyPlace(s: Sig, encrypted: bool): nat {
    if encrypted then 8 + SumAt(s, 768) % 632 else 772 + SumAt(s, 1532) % 632
  }

  // The digest at that place is that of all the other bytes under the key.
  predicate Verifies(s: Sig, c: Crypto, encrypted: bool, key: seq<byte>) {
    var d := DigestPlace(s, encrypted);
    s[d..d + 32] == c.hmac(s[..d] + s[d + 32..], key)
  }

  // A signed first block: its 32-byte digest is that of all its other bytes under the key, and an encrypted one has the
  // side's public key in it.
  predicate IsSigned(s: Sig, c: Crypto, p: Party, encrypted: bool, key: seq<byte>) {
    && Verifies(s, c, encrypted, key)
    && (encrypted ==> s[KeyPlace(s, true)..KeyPlace(s, true) + 128] == c.pub(p.priv))
  }

  lemma SignedAt(r: Sig, c: Crypto, p: Party, encrypted: bool, key: seq<byte>)
    requires var scheme := FirstScheme(encrypted);
      var k, d := DHOffset(scheme, r), DigestOffset(scheme, r);
      && k + KEY_SIZE <= SIG_SIZE && d + DIGEST_SIZE <= SIG_SIZE && DigestOk(c.hmac, r, d, key)
      && (encrypted ==> r[k..k + KEY_SIZE] == c.pub(p.priv))
    ensures IsSigned(r, c, p, encrypted, key)
  {
  }

  lemma FrontKept(r: Sig, p: Party, version: Word)
    requires r[..8] == PlainSig(p, version)[..8]
    ensures r[..4] == p.time && r[4..8] == version
  {
    var s := PlainSig(p, version);
    assert r[..4] == r[..8][..4] && s[..8][..4] == p.time;
    assert r[4..8] == r[..8][4..] && s[..8][4..] == version;
  }

  lemma SignedBlock(c: Crypto, p: Party, version: Word, encrypted: bool, key: seq<byte>)
    ensures var s := FirstSig(c, p, version, true, encrypted, key);
      IsSigned(s, c, p, encrypted, key) && s[..4] == p.time && s[4..8] == version
  {
    hide Signed, IsSigned, DHOffset, DigestOffset, DigestOk, PlainSig;
    var scheme, s := FirstScheme(encrypted), PlainSig(p, version);
    var dh := if encrypted then Some(c.pub(p.priv)) else None;
    SignedIsStable(c.hmac, s, scheme, dh, key);
    SignedAt(Signed(c.hmac, s, scheme, dh, key), c, p, encrypted, key);
    FrontKept(Signed(c.hmac, s, scheme, dh, key), p, version);
  }

  // The client's first message: type byte 6 if encrypted, else 3, and its block; its time, the version 128.0.3.2, or
  // 10.0.45.2 with an SWF to verify, or none; then random bytes, with the digest in them under the player's name.
  lemma ClientHello(u: Setup)
    ensures ClientKind(u.mode) == if u.mode.encrypted then 6 else 3
    ensures var s := FromClient(u);
      && s[..4] == u.clientParty.time
      && s[4..8] == (if u.mode.encrypted then [128, 0, 3, 2] else if u.mode.swf then [10, 0, 45, 2] else [0, 0, 0, 0])
      && (u.mode.Signs() ==> IsSigned(s, u.c, u.clientParty, u.mode.encrypted, FP_SIGN))
      && (!u.mode.Signs() ==> s[8..] == u.clientParty.random)
  {
    hide Signed, IsSigned;
    SignedBlock(u.c, u.clientParty, ClientVersion(u.mode), u.mode.encrypted, FP_SIGN);
  }

  // The server's: type byte 8 if encrypted, else 3; version 3.5.1.1 if it signs, under the media server's name.
  lemma ServerHello(u: Setup)
    requires u.Commutes()
    ensures TermsOf(ClientKind(u.mode), FromClient(u)).Terms?
    ensures TermsOf(ClientKind(u.mode), FromClient(u)).kind == if u.mode.encrypted then 8 else 3
    ensures var s := FromServer(u);
      && s[..4] == u.serverParty.time
      && s[4..8] == (if u.mode.encrypted || u.mode.swf then [3, 5, 1, 1] else [0, 0, 0, 0])
      && (u.mode.Signs() ==> IsSigned(s, u.c, u.serverParty, u.mode.encrypted, FMS_SIGN))
      && (!u.mode.Signs() ==> s[8..] == u.serverParty.random)
  {
    hide Signed, IsSigned;
    ServerUnderstands(u);
    SignedBlock(u.c, u.serverParty, [3, 5, 1, 1], u.mode.encrypted, FMS_SIGN);
  }

  // A second block: as many bytes of `block` as leave room for a signature, then the hash of those bytes under a key that
  // is itself the other side's digest hashed under this side's name; in exchanges of types 8 and 9 each eight bytes of it
  // are enciphered by the key that a byte of that key selects.
  predicate IsReply(reply: Sig, c: Crypto, kind: nat, block: Sig, digest: Hash, name: seq<byte>) {
    var k := c.hmac(digest, name);
    var h := c.hmac(block[..1504], k);
    && reply[..1504] == block[..1504]
    && if kind == 8 then
         && reply[1504..1512] == c.sig8(h[0..8], k[0] % 15) && reply[1512..1520] == c.sig8(h[8..16], k[8] % 15)
         && reply[1520..1528] == c.sig8(h[16..24], k[16] % 15) && reply[1528..] == c.sig8(h[24..32], k[24] % 15)
       else if kind == 9 then
         && reply[1504..1512] == c.sig9(h[0..8], k[0] % 15) && reply[1512..1520] == c.sig9(h[8..16], k[8] % 15)
         && reply[1520..1528] == c.sig9(h[16..24], k[16] % 15) && reply[1528..] == c.sig9(h[24..32], k[24] % 15)
       else reply[1504..] == h
  }

  lemma EightsAre(a: Hash, b: Hash)
    ensures a == b <==> a[0..8] == b[0..8] && a[8..16] == b[8..16] && a[16..24] == b[16..24] && a[24..32] == b[24..32]
  {
    assert a == a[0..8] + a[8..16] + a[16..24] + a[24..32] && b == b[0..8] + b[8..16] + b[16..24] + b[24..32];
  }

  // A block that starts like `block` is such a reply exactly if it ends in the signature.
  lemma ReplyIff(reply: Sig, c: Crypto, kind: byte, block: Sig, digest: Hash, name: seq<byte>)
    requires reply[..1504] == block[..1504]
    ensures IsReply(reply, c, kind, block, digest, name) <==> reply[1504..] == Signature(c, kind, block, digest, name)
  {
    var sig, tail := Signature(c, kind, block, digest, name), reply[1504..];
    EightsAre(tail, sig);
    assert tail[0..8] == reply[1504..1512] && tail[8..16] == reply[1512..1520];
    assert tail[16..24] == reply[1520..1528] && tail[24..32] == reply[1528..];
    if kind == 8 || kind == 9 {
      CipheredParts(if kind == 8 then c.sig8 else c.sig9, c.hmac(digest, name), c.hmac(block[..1504], c.hmac(digest, name)));
    }
  }

  lemma CipheredParts(f: (Block, nat) -> Block, k: Hash, h: Hash)
    ensures var sig := Ciphered(f, k, h);
      && sig[0..8] == f(h[0..8], k[0] % 15) && sig[8..16] == f(h[8..16], k[8] % 15)
      && sig[16..24] == f(h[16..24], k[16] % 15) && sig[24..32] == f(h[24..32], k[24] % 15)
  {
  }

  lemma ReplyIs(c: Crypto, kind: byte, block: Sig, digest: Hash, name: seq<byte>)
    ensures IsReply(WithSignature(block, Signature(c, kind, block, digest, name)), c, kind, block, digest, name)
  {
    hide IsReply, Signature;
    var sig := Signature(c, kind, block, digest, name);
    var reply := WithSignature(block, sig);
    assert reply[..1504] == block[..1504] && reply[1504..] == sig;
    ReplyIff(reply, c, kind, block, digest, name);
  }

  lemma DigestIs(scheme: Scheme, s: Sig)
    ensures var d := DigestPlace(s, scheme == 1);
      d + 32 <= 1536 && DigestIn(scheme, s) == s[d..d + 32]
  {
    RegionsApart(scheme, s);
  }

  // The second messages: unsigned sides send each other's block back. Otherwise the server signs the client's block,
  // answering its digest under the whole key of the media server, and the client a block of its own, answering the
  // server's digest under the whole key of the player.
  lemma Replies(u: Setup)
    requires u.Commutes()
    ensures ServerMid(u).Middle? && ClientMid(u).Middle?
    ensures !u.mode.Signs() ==> ServerMid(u).reply == FromClient(u) && ClientMid(u).reply == FromServer(u)
    ensures u.mode.Signs() ==>
      var e := u.mode.encrypted;
      var d, d' := DigestPlace(FromClient(u), e), DigestPlace(FromServer(u), e);
      && d + 32 <= 1536 && d' + 32 <= 1536
      && IsReply(ServerMid(u).reply, u.c, if e then 8 else 3, FromClient(u), FromClient(u)[d..d + 32], FMS_KEY)
      && IsReply(ClientMid(u).reply, u.c, if e then 8 else 3, u.clientParty.extra, FromServer(u)[d'..d' + 32], FP_KEY)
  {
    hide Signature, WithSignature, DigestIn, ClientSig, ServerSig, IsReply, ClientKeys, ServerKeys, DigestPlace;
    var e := u.mode.encrypted;
    DigestIs(FirstScheme(e), FromClient(u));
    DigestIs(FirstScheme(e), FromServer(u));
    ReplyIs(u.c, Agreed(u).kind, FromClient(u), DigestIn(FirstScheme(e), FromClient(u)), FMS_KEY);
    ReplyIs(u.c, Agreed(u).kind, u.clientParty.extra, DigestIn(FirstScheme(e), FromServer(u)), FP_KEY);
  }

  // ---------- What a side accepts, whoever is at the other end ----------

  lemma SchemeIs(s: Sig, c: Crypto, e: bool, name: seq<byte>)
    ensures var scheme: Scheme := if e then 1 else 0;
      && DigestOffset(scheme, s) + 32 <= 1536
      && (DigestOk(c.hmac, s, DigestOffset(scheme, s), name) <==> Verifies(s, c, e, name))
      && KeyPlace(s, e) + 128 <= 1536 && KeyIn(scheme, s) == s[KeyPlace(s, e)..KeyPlace(s, e) + 128]
  {
    RegionsApart(if e then 1 else 0, s);
  }

  // The layout a block is read by: the expected one if its digest verifies there, else the other one if it does there.
  lemma SchemeFound(s: Sig, c: Crypto, e: bool, name: seq<byte>)
    ensures FindScheme(c, s, FirstScheme(e), name) ==
            if Verifies(s, c, e, name) then Some(FirstScheme(e))
            else if Verifies(s, c, !e, name) then Some(FirstScheme(!e)) else None
  {
    hide Verifies, DigestOk, DigestOffset, KeyIn, KeyPlace;
    SchemeIs(s, c, true, name);
    SchemeIs(s, c, false, name);
  }

  // The public key in it.
  function KeyFound(s: Sig, e: bool): Key {
    SumsFit(s, e);
    s[KeyPlace(s, e)..KeyPlace(s, e) + 128]
  }

  lemma SumsFit(s: Sig, e: bool)
    ensures KeyPlace(s, e) + 128 <= 1536
  {
  }

  // A client that signs refuses a server's first block exactly if its digest verifies in neither layout, or, encrypted,
  // if the public key found in it is not acceptable. But a server of type 3 without a version does not sign, and is taken
  // as it is.
  lemma ClientRefuses(c: Crypto, mode: Mode, p: Party, kind: byte, s: Sig)
    ensures !mode.Signs() || (kind == 3 && s[4] == 0) ==> ClientMiddle(c, mode, p, kind, s) == Middle(false, None, s)
    ensures mode.Signs() && !(kind == 3 && s[4] == 0) ==>
      (ClientMiddle(c, mode, p, kind, s).Refused?
       <==> (!Verifies(s, c, true, FMS_SIGN) && !Verifies(s, c, false, FMS_SIGN))
            || (mode.encrypted && c.shared(p.priv, KeyFound(s, Verifies(s, c, true, FMS_SIGN))).None?))
  {
    hide FindScheme, Verifies, ClientSig, Signature, WithSignature, DigestIn, KeyIn, InitKeys, DigestOk, DigestOffset,
      KeyPlace;
    SchemeFound(s, c, mode.encrypted, FMS_SIGN);
    SchemeIs(s, c, true, FMS_SIGN);
    SchemeIs(s, c, false, FMS_SIGN);
  }

  // So does a server with a client's.
  lemma ServerRefuses(c: Crypto, t: Terms, p: Party, s: Sig)
    requires t.Terms?
    ensures !t.signs ==> ServerMiddle(c, t, p, s) == Middle(false, None, s)
    ensures t.signs ==>
      (ServerMiddle(c, t, p, s).Refused?
       <==> (!Verifies(s, c, true, FP_SIGN) && !Verifies(s, c, false, FP_SIGN))
            || (t.encrypted && c.shared(p.priv, KeyFound(s, Verifies(s, c, true, FP_SIGN))).None?))
  {
    hide FindScheme, Verifies, ServerSig, Signature, WithSignature, DigestIn, KeyIn, InitKeys, DigestOk, DigestOffset,
      KeyPlace;
    SchemeFound(s, c, t.encrypted, FP_SIGN);
    SchemeIs(s, c, true, FP_SIGN);
    SchemeIs(s, c, false, FP_SIGN);
  }

  // The server's terms: types 6 and 8 are encrypted and answered with 8 if the client's version starts with 128, else
  // with their own; type 3 is signed exactly if there is a version; no other type is answered.
  lemma TermsAre(kind: byte, s: Sig)
    ensures TermsOf(kind, s).Unknown? <==> kind != 3 && kind != 6 && kind != 8
    ensures kind == 3 ==> TermsOf(kind, s) == Terms(3, false, s[4] != 0)
    ensures kind == 6 || kind == 8 ==> TermsOf(kind, s).encrypted && TermsOf(kind, s).signs
    ensures kind == 6 || kind == 8 ==> TermsOf(kind, s).kind == if s[4] == 128 then 8 else kind
  {
  }

  // At the end, a side that has signed succeeds exactly if the other side's second block is signed, in answer to its own
  // digest, under the other side's whole key; one that has not succeeds with anything.
  lemma ClientEndIff(c: Crypto, mode: Mode, p: Party, kind: byte, m: Middle, second: Sig)
    requires m.Middle?
    ensures var s := ClientSig(c, mode, p);
      var d := DigestPlace(s, mode.encrypted);
      && d + 32 <= 1536
      && (ClientEnd(c, mode, p, kind, m, second).Success?
          <==> m.signs ==> IsReply(second, c, kind, second, s[d..d + 32], FMS_KEY))
  {
    hide Signature, IsReply, ClientSig, DigestIn, DigestPlace;
    var scheme, s := FirstScheme(mode.encrypted), ClientSig(c, mode, p);
    DigestIs(scheme, s);
    ReplyIff(second, c, kind, second, DigestIn(scheme, s), FMS_KEY);
  }

  lemma ServerEndIff(c: Crypto, t: Terms, p: Party, m: Middle, second: Sig)
    requires t.Terms? && m.Middle?
    ensures var s := ServerSig(c, t, p);
      var d := DigestPlace(s, t.encrypted);
      && d + 32 <= 1536
      && (ServerEnd(c, t, p, m, second).Success?
          <==> m.signs ==> IsReply(second, c, t.kind, second, s[d..d + 32], FP_KEY))
  {
    hide Signature, IsReply, ServerSig, DigestIn, DigestPlace;
    var scheme, s := FirstScheme(t.encrypted), ServerSig(c, t, p);
    DigestIs(scheme, s);
    ReplyIff(second, c, t.kind, second, DigestIn(scheme, s), FP_KEY);
  }
}
