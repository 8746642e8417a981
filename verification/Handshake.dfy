// HandShake and SHandShake as they run (librtmp/handshake.h): blocks filled, patched and signed in place, up to each
// read from the other side.
module Handshake {
  import opened Buffer
  import opened Bytes
  import opened Digest
  import opened HandshakeSpec

  method NewBlock(time: Word, version: Word, random: Random) returns (a: array<byte>)
    ensures fresh(a) && a.Length == SIG_SIZE && a[..] == time + version + random
  {
    a := new byte[SIG_SIZE](_ => 0);
    ghost var s0 := a[..];
    Copy(a, 0, time);
    ghost var s1 := a[..];
    Copy(a, 4, version);
    PatchAgain(s0, s1, a[..], 0, time, version);
    ghost var s2 := a[..];
    Copy(a, 8, random);
    PatchAgain(s0, s2, a[..], 0, time + version, random);
    assert a[..] == a[0..0 + |time + version + random|];
  }

  lemma PatchIsPut(before: seq<byte>, after: seq<byte>, i: nat, s: seq<byte>)
    requires PatchedTo(before, after, i, s)
    ensures after == Put(before, i, s)
  {
    assert after == after[..i] + after[i..i + |s|] + after[i + |s|..];
  }

  // The public key, if there is one, and the digest go where the block's own bytes say.
  method SignBlock(c: Crypto, a: array<byte>, scheme: Scheme, dh: Option<Key>, key: seq<byte>)
    returns (dhPos: nat, digestPos: nat)
    requires a.Length == SIG_SIZE
    modifies a
    ensures a[..] == Signed(c.hmac, old(a[..]), scheme, dh, key)
    ensures digestPos == DigestOffset(scheme, a[..])
    ensures dhPos == DHOffset(scheme, a[..])
  {
    hide Signed, DHOffset, DigestOffset, WithKey, WithDigest;
    ghost var s0 := a[..];
    SignedIsStable(c.hmac, s0, scheme, dh, key);
    SignedIs(c.hmac, s0, scheme, dh, key);
    dhPos := PutKey(a, scheme, dh);
    KeyedIsStable(s0, scheme, dh);
    digestPos := PutDigest(c, a, scheme, key);
  }

  lemma SignedIs(h: Hmac, s: Sig, scheme: Scheme, dh: Option<Key>, key: seq<byte>)
    ensures Signed(h, s, scheme, dh, key) == WithDigest(h, WithKey(s, scheme, dh), scheme, key)
  {
  }

  lemma KeyedIsStable(s: Sig, scheme: Scheme, dh: Option<Key>)
    ensures DigestOffset(scheme, WithKey(s, scheme, dh)) == DigestOffset(scheme, s)
  {
    hide DHOffset, DigestOffset, Put;
    RegionsApart(scheme, s);
    if dh.Some? {
      OnePut(s, scheme, DHOffset(scheme, s), dh.value);
    }
  }

  method PutKey(a: array<byte>, scheme: Scheme, dh: Option<Key>) returns (dhPos: nat)
    requires a.Length == SIG_SIZE
    modifies a
    ensures a[..] == WithKey(old(a[..]), scheme, dh) && dhPos == DHOffset(scheme, old(a[..]))
  {
    hide DHOffset, PatchedTo, Put;
    ghost var s := a[..];
    RegionsApart(scheme, s);
    dhPos := GetDHOffset(scheme, a);
    if dh.Some? {
      Copy(a, dhPos, dh.value);
      PatchIsPut(s, a[..], dhPos, dh.value);
    }
  }

  method PutDigest(c: Crypto, a: array<byte>, scheme: Scheme, key: seq<byte>) returns (digestPos: nat)
    requires a.Length == SIG_SIZE
    modifies a
    ensures a[..] == WithDigest(c.hmac, old(a[..]), scheme, key) && digestPos == DigestOffset(scheme, old(a[..]))
  {
    hide DigestOffset, PatchedTo, Put, Without;
    ghost var s := a[..];
    RegionsApart(scheme, s);
    digestPos := GetDigestOffset(scheme, a);
    var digest := CalculateDigest(c.hmac, digestPos, a, key);
    Copy(a, digestPos, digest);
    PatchIsPut(s, a[..], digestPos, digest);
  }

  // The position of the other side's digest, by the expected scheme or else the other one.
  method FindDigest(c: Crypto, a: array<byte>, first: Scheme, key: seq<byte>) returns (scheme: Option<Scheme>, pos: nat)
    requires a.Length == SIG_SIZE
    ensures scheme == FindScheme(c, a[..], first, key)
    ensures scheme.Some? ==> pos == DigestOffset(scheme.value, a[..]) && pos + DIGEST_SIZE <= SIG_SIZE
  {
    RegionsApart(first, a[..]);
    pos := GetDigestOffset(first, a);
    var ok := VerifyDigest(c.hmac, pos, a, key);
    if ok {
      return Some(first), pos;
    }
    var other: Scheme := 1 - first;
    RegionsApart(other, a[..]);
    pos := GetDigestOffset(other, a);
    ok := VerifyDigest(c.hmac, pos, a, key);
    scheme := if ok then Some(other) else None;
  }

  // The blocks of a signature from the i-th byte on, enciphered.
  function CipheredFrom(f: (Block, nat) -> Block, digest: Hash, sig: Hash, i: nat): (s: seq<byte>)
    requires i % 8 == 0 && i <= 32
    ensures |s| == 32 - i
    decreases 32 - i
  {
    if i == 32 then [] else f(Part(sig, i), digest[i] % 15) + CipheredFrom(f, digest, sig, i + 8)
  }

  lemma CipheredIs(f: (Block, nat) -> Block, digest: Hash, sig: Hash)
    ensures CipheredFrom(f, digest, sig, 0) == Ciphered(f, digest, sig)
  {
    assert CipheredFrom(f, digest, sig, 24) == f(Part(sig, 24), digest[24] % 15) + CipheredFrom(f, digest, sig, 32);
    assert CipheredFrom(f, digest, sig, 16) == f(Part(sig, 16), digest[16] % 15) + CipheredFrom(f, digest, sig, 24);
    assert CipheredFrom(f, digest, sig, 8) == f(Part(sig, 8), digest[8] % 15) + CipheredFrom(f, digest, sig, 16);
  }

  // The loop over the signature, eight bytes at a time, in place.
  method Encipher(f: (Block, nat) -> Block, digest: Hash, a: array<byte>, at: nat)
    requires at + 32 <= a.Length
    modifies a
    ensures Patched(a, old(a[..]), at, Ciphered(f, digest, old(a[at..at + 32])))
  {
    hide PatchedTo, Ciphered, CipheredFrom, Part;
    ghost var before, sig: Hash := a[..], a[at..at + 32];
    ghost var done: seq<byte> := [];
    NothingPatched(before, at);
    var i := 0;
    while i < 32
      invariant i % 8 == 0 && i <= 32 && |done| == i
      invariant Patched(a, before, at, done)
      invariant done + CipheredFrom(f, digest, sig, i) == CipheredFrom(f, digest, sig, 0)
    {
      ghost var s := a[..];
      PartBehind(before, s, at, done);
      var block: Block := a[at + i..at + i + 8];
      var out := f(block, digest[i] % 15);
      Copy(a, at + i, out);
      PatchAgain(before, s, a[..], at, done, out);
      OneCiphered(f, digest, sig, i, done, out);
      done := done + out;
      i := i + 8;
    }
    NoneLeft(f, digest, sig, done);
    CipheredIs(f, digest, sig);
  }

  lemma NoneLeft(f: (Block, nat) -> Block, digest: Hash, sig: Hash, done: seq<byte>)
    ensures done + CipheredFrom(f, digest, sig, 32) == done
  {
  }

  lemma OneCiphered(f: (Block, nat) -> Block, digest: Hash, sig: Hash, i: nat, done: seq<byte>, out: Block)
    requires i % 8 == 0 && i < 32 && out == f(Part(sig, i), digest[i] % 15)
    ensures done + CipheredFrom(f, digest, sig, i) == done + out + CipheredFrom(f, digest, sig, i + 8)
  {
    assert done + (out + CipheredFrom(f, digest, sig, i + 8)) == done + out + CipheredFrom(f, digest, sig, i + 8);
  }

  lemma NothingPatched(s: seq<byte>, at: nat)
    requires at <= |s|
    ensures PatchedTo(s, s, at, [])
  {
  }

  lemma PartBehind(before: seq<byte>, after: seq<byte>, at: nat, s: seq<byte>)
    requires PatchedTo(before, after, at, s) && |s| % 8 == 0 && |s| < 32 && at + 32 <= |before|
    ensures after[at + |s|..at + |s| + 8] == Part(before[at..at + 32], |s|)
  {
    var k := |s|;
    assert after[at + k..at + k + 8] == after[at + k..][..8] == before[at + k..][..8];
    assert before[at + k..][..8] == before[at..at + 32][k..k + 8];
  }

  lemma PatchTwice(before: seq<byte>, middle: seq<byte>, after: seq<byte>, at: nat, s: seq<byte>, t: seq<byte>)
    requires PatchedTo(before, middle, at, s) && PatchedTo(middle, after, at, t) && |s| == |t|
    ensures PatchedTo(before, after, at, t)
  {
  }

  // The signature over the block in a goes to a[at..].
  method PutSignature(c: Crypto, kind: byte, block: Sig, digest: Hash, key: seq<byte>, a: array<byte>, at: nat)
    requires at + DIGEST_SIZE <= a.Length
    modifies a
    ensures Patched(a, old(a[..]), at, Signature(c, kind, block, digest, key))
  {
    hide PatchedTo, Ciphered;
    ghost var before := a[..];
    var digestResp := c.hmac(digest, key);
    var sig := c.hmac(block[..SIG_SIZE - DIGEST_SIZE], digestResp);
    Copy(a, at, sig);
    ghost var middle := a[..];
    PatchHolds(before, middle, at, sig);
    if kind == 8 {
      Encipher(c.sig8, digestResp, a, at);
      PatchTwice(before, middle, a[..], at, sig, Ciphered(c.sig8, digestResp, sig));
    } else if kind == 9 {
      Encipher(c.sig9, digestResp, a, at);
      PatchTwice(before, middle, a[..], at, sig, Ciphered(c.sig9, digestResp, sig));
    }
  }

  lemma PatchHolds(before: seq<byte>, after: seq<byte>, at: nat, s: seq<byte>)
    requires PatchedTo(before, after, at, s)
    ensures |before| == |after| && at + |s| <= |after| && after[at..at + |s|] == s
  {
  }

  // A block's last 32 bytes become the signature over the rest.
  method Reply(c: Crypto, kind: byte, a: array<byte>, digest: Hash, key: seq<byte>)
    requires a.Length == SIG_SIZE
    modifies a
    ensures a[..] == WithSignature(old(a[..]), Signature(c, kind, old(a[..]), digest, key))
  {
    hide Signature;
    var block: Sig := a[..];
    PutSignature(c, kind, block, digest, key, a, SIG_SIZE - DIGEST_SIZE);
    var sig := Signature(c, kind, block, digest, key);
    PatchIsPut(block, a[..], SIG_SIZE - DIGEST_SIZE, sig);
    assert block[SIG_SIZE..] == [];
    assert WithSignature(block, sig) + [] == WithSignature(block, sig);
  }

  method Genuine(c: Crypto, kind: byte, block: Sig, digest: Hash, key: seq<byte>) returns (ok: bool)
    ensures ok == (block[SIG_SIZE - DIGEST_SIZE..] == Signature(c, kind, block, digest, key))
  {
    hide Signature;
    var signature := new byte[DIGEST_SIZE](_ => 0);
    PutSignature(c, kind, block, digest, key, signature, 0);
    PatchHolds(seq(DIGEST_SIZE, _ => 0), signature[..], 0, Signature(c, kind, block, digest, key));
    assert signature[..] == signature[0..0 + DIGEST_SIZE];
    ok := signature[..] == block[SIG_SIZE - DIGEST_SIZE..];
  }

  method TakeDigest(a: array<byte>, scheme: Scheme, pos: nat) returns (digest: Hash)
    requires a.Length == SIG_SIZE && pos == DigestOffset(scheme, a[..])
    ensures digest == DigestIn(scheme, a[..])
  {
    hide DigestOffset;
    RegionsApart(scheme, a[..]);
    digest := a[pos..pos + DIGEST_SIZE];
  }

  method TakeKey(a: array<byte>, scheme: Scheme, pos: nat) returns (key: Key)
    requires a.Length == SIG_SIZE && pos == DHOffset(scheme, a[..])
    ensures key == KeyIn(scheme, a[..])
  {
    hide DHOffset;
    RegionsApart(scheme, a[..]);
    key := a[pos..pos + KEY_SIZE];
  }

  // The secret and the two RC4 keys.
  method ComputeKeys(c: Crypto, priv: nat, theirs: Sig, scheme: Scheme, mine: Key) returns (keys: Option<Keys>)
    ensures keys == Exchange(c, priv, theirs, scheme, mine)
  {
    RegionsApart(scheme, theirs);
    var dhPos := DHOffset(scheme, theirs);
    var pubKeyIn: Key := theirs[dhPos..dhPos + KEY_SIZE];
    var secret := c.shared(priv, pubKeyIn);
    if secret.None? {
      return None;
    }
    keys := Some(InitKeys(c, secret.value, pubKeyIn, mine));
  }

  // HandShake's locals between two reads, and the connection's keys.
  class ClientSide {
    const c: Crypto
    const mode: Mode
    const party: Party
    var clientsig: array<byte>
    var digestPosClient: nat
    var dhPosClient: nat
    var signs: bool
    var keys: Option<Keys>
    var linkKeys: Option<Keys>  // Link.rc4keyIn and rc4keyOut

    // The block sent, and where its digest and key are.
    ghost predicate Sent()
      reads this, clientsig
    {
      && clientsig.Length == SIG_SIZE && clientsig[..] == ClientSig(c, mode, party)
      && (mode.Signs() ==>
            && digestPosClient == DigestOffset(FirstScheme(mode.encrypted), clientsig[..])
            && dhPosClient == DHOffset(FirstScheme(mode.encrypted), clientsig[..]))
    }

    constructor (c: Crypto, mode: Mode, party: Party)
      ensures this.c == c && this.mode == mode && this.party == party && fresh(clientsig)
    {
      this.c, this.mode, this.party := c, mode, party;
      clientsig := new byte[0];
      digestPosClient, dhPosClient, signs, keys, linkKeys := 0, 0, false, None, None;
    }

    method Start() returns (sent: seq<byte>)
      modifies this
      ensures Sent() && fresh(clientsig) && linkKeys == None
      ensures sent == [ClientKind(mode)] + ClientSig(c, mode, party)
    {
      hide Signed, DHOffset, DigestOffset;
      signs := mode.encrypted || mode.swf;
      linkKeys := None;
      var offalg: Scheme := if mode.encrypted then 1 else 0;
      clientsig := NewBlock(party.time, ClientVersion(mode), party.random);
      if signs {
        dhPosClient, digestPosClient :=
          SignBlock(c, clientsig, offalg, if mode.encrypted then Some(c.pub(party.priv)) else None, FP_SIGN);
      }
      sent := [if mode.encrypted then 0x06 else 0x03] + clientsig[..];
    }

    // This side's middle is m.
    ghost predicate At(m: Middle)
      reads this
    {
      m.Middle? && signs == m.signs && keys == m.keys
    }

    method Continue(kind: byte, serversig: array<byte>) returns (ok: bool, sent: seq<byte>)
      requires Sent() && serversig.Length == SIG_SIZE
      modifies this
      ensures Sent() && linkKeys == old(linkKeys)
      ensures var m := ClientMiddle(c, mode, party, kind, serversig[..]);
        && ok == m.Middle?
        && (ok ==> At(m) && sent == m.reply)
    {
      hide Signed, Signature, FindScheme, DHOffset, DigestOffset, WithSignature, ClientSig, DigestIn, KeyIn, Exchange;
      signs, keys := mode.encrypted || mode.swf, None;
      if signs && kind == 3 && serversig[4] == 0 {
        signs := false;
      }
      if !signs {
        return true, serversig[..];
      }
      var scheme, digestPosServer := FindDigest(c, serversig, if mode.encrypted then 1 else 0, FMS_SIGN);
      if scheme.None? {
        return false, [];
      }
      if mode.encrypted {
        var mine := TakeKey(clientsig, FirstScheme(mode.encrypted), dhPosClient);
        keys := ComputeKeys(c, party.priv, serversig[..], scheme.value, mine);
        if keys.None? {
          return false, [];
        }
      }
      var digest := TakeDigest(serversig, scheme.value, digestPosServer);
      sent := SecondBlock(kind, digest);
      ok := true;
    }

    // Random bytes with a signature over them.
    method SecondBlock(kind: byte, digest: Hash) returns (sent: seq<byte>)
      ensures sent == WithSignature(party.extra, Signature(c, kind, party.extra, digest, FP_KEY))
    {
      hide Signature, WithSignature;
      var reply := new byte[SIG_SIZE](i requires 0 <= i < SIG_SIZE => party.extra[i]);
      assert reply[..] == party.extra;
      Reply(c, kind, reply, digest, FP_KEY);
      sent := reply[..];
    }

    method Finish(kind: byte, serversig: array<byte>, ghost m: Middle) returns (ok: bool)
      requires Sent() && At(m) && serversig.Length == SIG_SIZE && linkKeys == None && (m.keys.Some? ==> mode.Signs())
      requires m.signs ==> mode.Signs()
      modifies this`linkKeys
      ensures var out := ClientEnd(c, mode, party, kind, m, serversig[..]);
        && ok == out.Success?
        && (ok && m.signs ==> linkKeys == out.keys)
        && (!(ok && m.signs) ==> linkKeys == None)
    {
      hide Signature, ClientSig, DigestOffset, DigestIn;
      if !signs {
        return true;
      }
      var digest := TakeDigest(clientsig, FirstScheme(mode.encrypted), digestPosClient);
      ok := Genuine(c, kind, serversig[..], digest, FMS_KEY);
      if ok && keys.Some? {
        linkKeys := Some(Advanced(keys.value, SIG_SIZE));
      }
    }
  }

  // SHandShake's locals between two reads.
  class ServerSide {
    const c: Crypto
    const party: Party
    var serversig: array<byte>
    var digestPosServer: nat
    var dhPosServer: nat
    var keys: Option<Keys>
    var linkKeys: Option<Keys>

    ghost predicate Sent(t: Terms)
      reads this, serversig
    {
      && t.Terms? && serversig.Length == SIG_SIZE && serversig[..] == ServerSig(c, t, party)
      && (t.signs ==>
            && digestPosServer == DigestOffset(FirstScheme(t.encrypted), serversig[..])
            && dhPosServer == DHOffset(FirstScheme(t.encrypted), serversig[..]))
    }

    constructor (c: Crypto, party: Party)
      ensures this.c == c && this.party == party && fresh(serversig)
    {
      this.c, this.party := c, party;
      serversig := new byte[0];
      digestPosServer, dhPosServer, keys, linkKeys := 0, 0, None, None;
    }

    // The first block, answering the client's.
    method Answer(kind: byte, clientsig: array<byte>) returns (terms: Terms, sent: seq<byte>)
      requires clientsig.Length == SIG_SIZE
      modifies this
      ensures terms == TermsOf(kind, clientsig[..])
      ensures terms.Terms? ==>
        Sent(terms) && fresh(serversig) && linkKeys == None && sent == [terms.kind] + ServerSig(c, terms, party)
    {
      hide Signed, DHOffset, DigestOffset;
      var encrypted, signs, kind' := false, false, kind;
      if kind == 6 || kind == 8 {
        encrypted, signs := true, true;
        if clientsig[4] == 128 {
          kind' := 8;
        }
      } else if kind != 3 {
        return Unknown, [];
      }
      if !signs && clientsig[4] != 0 {
        signs := true;
      }
      terms := Terms(kind', encrypted, signs);
      linkKeys := None;
      serversig := NewBlock(party.time, if signs then [3, 5, 1, 1] else [0, 0, 0, 0], party.random);
      if signs {
        dhPosServer, digestPosServer := SignBlock(c, serversig, if encrypted then 1 else 0,
                                                  if encrypted then Some(c.pub(party.priv)) else None, FMS_SIGN);
      }
      sent := [kind'] + serversig[..];
    }

    // The second block: the client's own, its end replaced by the signature.
    method Respond(terms: Terms, clientsig: array<byte>) returns (ok: bool)
      requires Sent(terms) && clientsig.Length == SIG_SIZE && clientsig != serversig
      modifies this`keys, clientsig
      ensures Sent(terms)
      ensures var m := ServerMiddle(c, terms, party, old(clientsig[..]));
        && ok == m.Middle?
        && (ok ==> keys == m.keys && clientsig[..] == m.reply)
    {
      hide Signed, Signature, FindScheme, DHOffset, DigestOffset, WithSignature, ServerSig, DigestIn, KeyIn, Exchange;
      keys := None;
      if !terms.signs {
        return true;
      }
      var scheme, digestPosClient := FindDigest(c, clientsig, if terms.encrypted then 1 else 0, FP_SIGN);
      if scheme.None? {
        return false;
      }
      if terms.encrypted {
        var mine := TakeKey(serversig, FirstScheme(terms.encrypted), dhPosServer);
        keys := ComputeKeys(c, party.priv, clientsig[..], scheme.value, mine);
        if keys.None? {
          return false;
        }
      }
      var digest := TakeDigest(clientsig, scheme.value, digestPosClient);
      Reply(c, terms.kind, clientsig, digest, FMS_KEY);
      ok := true;
    }

    method Finish(terms: Terms, clientsig: array<byte>, ghost m: Middle) returns (ok: bool)
      requires Sent(terms) && clientsig.Length == SIG_SIZE && linkKeys == None
      requires m.Middle? && m.signs == terms.signs && m.keys == keys
      modifies this`linkKeys
      ensures var out := ServerEnd(c, terms, party, m, clientsig[..]);
        && ok == out.Success?
        && (ok && m.signs ==> linkKeys == out.keys)
        && (!(ok && m.signs) ==> linkKeys == None)
    {
      hide Signature, ServerSig, DigestOffset, DigestIn;
      if !terms.signs {
        return true;
      }
      var digest := TakeDigest(serversig, FirstScheme(terms.encrypted), digestPosServer);
      ok := Genuine(c, terms.kind, clientsig[..], digest, FP_KEY);
      if ok && keys.Some? {
        linkKeys := Some(Advanced(keys.value, SIG_SIZE));
      }
    }
  }
}
