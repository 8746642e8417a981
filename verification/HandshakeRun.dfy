// A client and a server shaking hands over two reliable byte channels (librtmp/handshake.h): every schedule of their
// moves ends with both sides satisfied and, when encrypted, with crossed keys.
module HandshakeRun {
  import opened Bytes
  import opened Digest
  import opened HandshakeSpec

  datatype Client = Fresh | AwaitFirst | AwaitSecond(kind: byte, middle: Middle) | ClientDone(out: Outcome)

  datatype Server = Listening | AwaitReply(terms: Terms, middle: Middle) | ServerDone(out: Outcome)

  // Both ends, and the bytes under way in each direction.
  datatype System = System(client: Client, server: Server, toServer: seq<byte>, toClient: seq<byte>)

  datatype Setup = Setup(c: Crypto, mode: Mode, clientParty: Party, serverParty: Party) {
    // Diffie-Hellman: both sides compute the same secret from each other's public keys.
    predicate Commutes() {
      var a, b := clientParty.priv, serverParty.priv;
      c.shared(a, c.pub(b)).Some? && c.shared(a, c.pub(b)) == c.shared(b, c.pub(a))
    }
  }

  datatype Who = TheClient | TheServer

  // A side can move unless it has finished or waits for bytes that are not there.
  predicate CanMove(sys: System, who: Who) {
    match who
    case TheClient =>
      (match sys.client
       case Fresh => true
       case AwaitFirst => |sys.toClient| >= 1 + SIG_SIZE
       case AwaitSecond(_, m) => m.Middle? && |sys.toClient| >= SIG_SIZE
       case ClientDone(_) => false)
    case TheServer =>
      (match sys.server
       case Listening => |sys.toServer| >= 1 + SIG_SIZE
       case AwaitReply(t, m) => t.Terms? && m.Middle? && |sys.toServer| >= SIG_SIZE
       case ServerDone(_) => false)
  }

  // From one blocking read to the next.
  function Move(u: Setup, sys: System, who: Who): System
    requires CanMove(sys, who)
  {
    match who
    case TheClient =>
      (match sys.client
       case Fresh =>
         sys.(client := AwaitFirst, toServer := sys.toServer + [ClientKind(u.mode)] + ClientSig(u.c, u.mode, u.clientParty))
       case AwaitFirst =>
         var kind, sig := sys.toClient[0], sys.toClient[1..1 + SIG_SIZE];
         var rest := sys.toClient[1 + SIG_SIZE..];
         var m := ClientMiddle(u.c, u.mode, u.clientParty, kind, sig);
         if m.Refused? then sys.(client := ClientDone(Failure), toClient := rest)
         else sys.(client := AwaitSecond(kind, m), toServer := sys.toServer + m.reply, toClient := rest)
       case AwaitSecond(kind, m) =>
         sys.(client := ClientDone(ClientEnd(u.c, u.mode, u.clientParty, kind, m, sys.toClient[..SIG_SIZE])),
              toClient := sys.toClient[SIG_SIZE..])
       case ClientDone(_) => sys)
    case TheServer =>
      (match sys.server
       case Listening =>
         var kind, sig := sys.toServer[0], sys.toServer[1..1 + SIG_SIZE];
         var rest := sys.toServer[1 + SIG_SIZE..];
         var t := TermsOf(kind, sig);
         if t.Unknown? then sys.(server := ServerDone(Failure), toServer := rest)
         else
           var first := sys.toClient + [t.kind] + ServerSig(u.c, t, u.serverParty);
           var m := ServerMiddle(u.c, t, u.serverParty, sig);
           if m.Refused? then sys.(server := ServerDone(Failure), toServer := rest, toClient := first)
           else sys.(server := AwaitReply(t, m), toServer := rest, toClient := first + m.reply)
       case AwaitReply(t, m) =>
         sys.(server := ServerDone(ServerEnd(u.c, t, u.serverParty, m, sys.toServer[..SIG_SIZE])),
              toServer := sys.toServer[SIG_SIZE..])
       case ServerDone(_) => sys)
  }

  const START := System(Fresh, Listening, [], [])

  // A schedule: who is to move next, over and over; whoever cannot move waits.
  function Run(u: Setup, sys: System, schedule: seq<Who>): System
    decreases |schedule|
  {
    if schedule == [] then sys
    else Run(u, if CanMove(sys, schedule[0]) then Move(u, sys, schedule[0]) else sys, schedule[1..])
  }

  // ---------- What each side sends ----------

  lemma FirstSigIs(c: Crypto, p: Party, version: Word, encrypted: bool, key: seq<byte>)
    ensures var s, scheme := FirstSig(c, p, version, true, encrypted, key), FirstScheme(encrypted);
      && FindScheme(c, s, scheme, key) == Some(scheme)
      && (encrypted ==> KeyIn(scheme, s) == c.pub(p.priv))
      && s[4] == version[0]
  {
    hide DHOffset, DigestOffset, DigestOk, Signed;
    var scheme, s := FirstScheme(encrypted), PlainSig(p, version);
    var dh := if encrypted then Some(c.pub(p.priv)) else None;
    SignedIsStable(c.hmac, s, scheme, dh, key);
    assert s[4] == version[0];
    assert Signed(c.hmac, s, scheme, dh, key)[..8][4] == s[..8][4];
  }

  function Agreed(u: Setup): Terms {
    Terms(if u.mode.encrypted then 8 else 3, u.mode.encrypted, u.mode.Signs())
  }

  function FromClient(u: Setup): Sig {
    ClientSig(u.c, u.mode, u.clientParty)
  }

  function FromServer(u: Setup): Sig {
    ServerSig(u.c, Agreed(u), u.serverParty)
  }

  function ServerKeys(u: Setup): Option<Keys>
    requires u.Commutes()
  {
    if u.mode.encrypted then
      Some(InitKeys(u.c, u.c.shared(u.serverParty.priv, u.c.pub(u.clientParty.priv)).value,
                    u.c.pub(u.clientParty.priv), u.c.pub(u.serverParty.priv)))
    else None
  }

  function ClientKeys(u: Setup): Option<Keys>
    requires u.Commutes()
  {
    if u.mode.encrypted then
      Some(InitKeys(u.c, u.c.shared(u.clientParty.priv, u.c.pub(u.serverParty.priv)).value,
                    u.c.pub(u.serverParty.priv), u.c.pub(u.clientParty.priv)))
    else None
  }

  // The middle of the exchange on both sides, in every mode.
  function ServerMid(u: Setup): Middle
    requires u.Commutes()
  {
    if !u.mode.Signs() then Middle(false, None, FromClient(u))
    else
      Middle(true, ServerKeys(u), WithSignature(FromClient(u),
        Signature(u.c, Agreed(u).kind, FromClient(u), DigestIn(FirstScheme(u.mode.encrypted), FromClient(u)), FMS_KEY)))
  }

  function ClientMid(u: Setup): Middle
    requires u.Commutes()
  {
    if !u.mode.Signs() then Middle(false, None, FromServer(u))
    else
      Middle(true, ClientKeys(u), WithSignature(u.clientParty.extra,
        Signature(u.c, Agreed(u).kind, u.clientParty.extra, DigestIn(FirstScheme(u.mode.encrypted), FromServer(u)), FP_KEY)))
  }

  lemma ServerUnderstands(u: Setup)
    requires u.Commutes()
    ensures TermsOf(ClientKind(u.mode), FromClient(u)) == Agreed(u)
    ensures ServerMiddle(u.c, Agreed(u), u.serverParty, FromClient(u)) == ServerMid(u)
  {
    hide FindScheme, DHOffset, DigestOffset, Signed, Signature, WithSignature, InitKeys;
    FirstSigIs(u.c, u.clientParty, ClientVersion(u.mode), u.mode.encrypted, FP_SIGN);
    FirstSigIs(u.c, u.serverParty, [3, 5, 1, 1], u.mode.encrypted, FMS_SIGN);
    if !u.mode.Signs() {
      assert FromClient(u)[4] == ClientVersion(u.mode)[0];
    }
  }

  lemma ClientUnderstands(u: Setup)
    requires u.Commutes()
    ensures ClientMiddle(u.c, u.mode, u.clientParty, Agreed(u).kind, FromServer(u)) == ClientMid(u)
  {
    hide FindScheme, DHOffset, DigestOffset, Signed, Signature, WithSignature, InitKeys;
    FirstSigIs(u.c, u.clientParty, ClientVersion(u.mode), u.mode.encrypted, FP_SIGN);
    FirstSigIs(u.c, u.serverParty, [3, 5, 1, 1], u.mode.encrypted, FMS_SIGN);
  }

  // A signature covers everything in front of it, so it is accepted where it is.
  lemma SignatureOver(c: Crypto, kind: byte, block: Sig, digest: Hash, key: seq<byte>)
    ensures var sig := Signature(c, kind, block, digest, key);
      && WithSignature(block, sig)[SIG_SIZE - DIGEST_SIZE..] == sig
      && Signature(c, kind, WithSignature(block, sig), digest, key) == sig
  {
    hide Ciphered;
    var sig := Signature(c, kind, block, digest, key);
    assert WithSignature(block, sig)[..SIG_SIZE - DIGEST_SIZE] == block[..SIG_SIZE - DIGEST_SIZE];
  }

  function Done(k: Option<Keys>): Outcome {
    Success(if k.Some? then Some(Advanced(k.value, SIG_SIZE)) else None)
  }

  lemma BothAccept(u: Setup)
    requires u.Commutes()
    ensures ClientEnd(u.c, u.mode, u.clientParty, Agreed(u).kind, ClientMid(u), ServerMid(u).reply) == Done(ClientKeys(u))
    ensures ServerEnd(u.c, Agreed(u), u.serverParty, ServerMid(u), ClientMid(u).reply) == Done(ServerKeys(u))
  {
    hide Signature, WithSignature, DigestIn, ClientSig, ServerSig, InitKeys;
    var scheme := FirstScheme(u.mode.encrypted);
    SignatureOver(u.c, Agreed(u).kind, FromClient(u), DigestIn(scheme, FromClient(u)), FMS_KEY);
    SignatureOver(u.c, Agreed(u).kind, u.clientParty.extra, DigestIn(scheme, FromServer(u)), FP_KEY);
  }

  // ---------- Every schedule ----------

  // The states a run can be in.
  predicate Good(u: Setup, sys: System)
    requires u.Commutes()
  {
    var hello := [ClientKind(u.mode)] + FromClient(u);
    var answer := [Agreed(u).kind] + FromServer(u);
    var m, n := ClientMid(u), ServerMid(u);
    || sys == START
    || sys == System(AwaitFirst, Listening, hello, [])
    || sys == System(AwaitFirst, AwaitReply(Agreed(u), n), [], answer + n.reply)
    || sys == System(AwaitSecond(Agreed(u).kind, m), AwaitReply(Agreed(u), n), m.reply, n.reply)
    || sys == System(ClientDone(Done(ClientKeys(u))), AwaitReply(Agreed(u), n), m.reply, [])
    || sys == System(AwaitSecond(Agreed(u).kind, m), ServerDone(Done(ServerKeys(u))), [], n.reply)
    || sys == System(ClientDone(Done(ClientKeys(u))), ServerDone(Done(ServerKeys(u))), [], [])
  }

  // Moves left.
  function Left(sys: System): nat {
    (match sys.client case Fresh => 3 case AwaitFirst => 2 case AwaitSecond(_, _) => 1 case ClientDone(_) => 0)
    + (match sys.server case Listening => 2 case AwaitReply(_, _) => 1 case ServerDone(_) => 0)
  }

  lemma Hello(x: byte, s: seq<byte>)
    ensures ([x] + s)[0] == x && ([x] + s)[1..1 + |s|] == s && ([x] + s)[1 + |s|..] == []
    ensures [] + [x] + s == [x] + s
  {
  }

  lemma Answer(x: byte, s: seq<byte>, r: seq<byte>)
    ensures ([x] + s + r)[0] == x && ([x] + s + r)[1..1 + |s|] == s && ([x] + s + r)[1 + |s|..] == r
    ensures [] + r == r && r[..|r|] == r && r[|r|..] == []
  {
  }

  lemma MoveKeeps(u: Setup, sys: System, who: Who)
    requires u.Commutes() && Good(u, sys) && CanMove(sys, who)
    ensures Good(u, Move(u, sys, who)) && Left(Move(u, sys, who)) == Left(sys) - 1
  {
    hide ClientSig, ServerSig, ClientMiddle, ServerMiddle, ClientEnd, ServerEnd, TermsOf, ClientMid, ServerMid, Done,
      ClientKeys, ServerKeys, ClientKind;
    ServerUnderstands(u);
    ClientUnderstands(u);
    BothAccept(u);
    MiddlesAre(u);
    Hello(ClientKind(u.mode), FromClient(u));
    Hello(Agreed(u).kind, FromServer(u));
    Answer(Agreed(u).kind, FromServer(u), ServerMid(u).reply);
    Answer(Agreed(u).kind, FromServer(u), ClientMid(u).reply);
  }

  lemma MiddlesAre(u: Setup)
    requires u.Commutes()
    ensures ClientMid(u).Middle? && ServerMid(u).Middle?
  {
  }

  // No deadlock: until both sides are done, one of them can move.
  lemma NoDeadlock(u: Setup, sys: System)
    requires u.Commutes() && Good(u, sys)
    ensures Left(sys) > 0 ==> CanMove(sys, TheClient) || CanMove(sys, TheServer)
  {
    hide ClientSig, ServerSig, ClientMid, ServerMid, Done, ClientKeys, ServerKeys, ClientKind;
    MiddlesAre(u);
  }

  lemma {:induction false} RunKeeps(u: Setup, sys: System, schedule: seq<Who>)
    requires u.Commutes() && Good(u, sys)
    ensures Good(u, Run(u, sys, schedule))
    decreases |schedule|
  {
    hide Good, Move, CanMove;
    if schedule != [] {
      if CanMove(sys, schedule[0]) {
        MoveKeeps(u, sys, schedule[0]);
        RunKeeps(u, Move(u, sys, schedule[0]), schedule[1..]);
      } else {
        RunKeeps(u, sys, schedule[1..]);
      }
    }
  }

  // The sides' keys, crossed: what one encrypts with is what the other decrypts with, at the same place in the keystream.
  predicate Crossed(a: Keys, b: Keys, used: nat) {
    a.keyOut == b.keyIn && a.keyIn == b.keyOut && a.keyOut.used == a.keyIn.used == used
  }

  // A side's keys for an exchange with secret s: it enciphers with the first 16 bytes of the other side's public key
  // hashed under s, and deciphers with those of its own.
  predicate KeysFrom(k: Keys, c: Crypto, s: Key, mine: Key, theirs: Key) {
    k.keyOut.key == c.hmac(theirs, s)[..16] && k.keyIn.key == c.hmac(mine, s)[..16]
  }

  lemma KeysCross(u: Setup)
    requires u.Commutes()
    ensures u.mode.encrypted ==>
      && ClientKeys(u).Some? && ServerKeys(u).Some?
      && Crossed(Advanced(ClientKeys(u).value, SIG_SIZE), Advanced(ServerKeys(u).value, SIG_SIZE), SIG_SIZE)
    ensures u.mode.encrypted ==>
      var a, b := u.c.pub(u.clientParty.priv), u.c.pub(u.serverParty.priv);
      var secret := u.c.shared(u.clientParty.priv, b).value;
      && KeysFrom(Advanced(ClientKeys(u).value, SIG_SIZE), u.c, secret, a, b)
      && KeysFrom(Advanced(ServerKeys(u).value, SIG_SIZE), u.c, secret, b, a)
    ensures !u.mode.encrypted ==> ClientKeys(u) == ServerKeys(u) == None
  {
  }

  // Handshake agreement, in every mode and for every schedule: as long as a side is not done one of them can move;
  // once both are, both have succeeded, no byte is left in either direction, and in encrypted mode the keys are those of
  // the shared secret, crossed, with both keystreams advanced by 1536 bytes.
  lemma Agreement(u: Setup, schedule: seq<Who>)
    requires u.Commutes()
    ensures var sys := Run(u, START, schedule);
      if Left(sys) > 0 then CanMove(sys, TheClient) || CanMove(sys, TheServer)
      else
        && sys.client.ClientDone? && sys.client.out.Success? && sys.server.ServerDone? && sys.server.out.Success?
        && sys.toServer == sys.toClient == []
        && if u.mode.encrypted then
             && sys.client.out.keys.Some? && sys.server.out.keys.Some?
             && Crossed(sys.client.out.keys.value, sys.server.out.keys.value, SIG_SIZE)
             && var a, b := u.c.pub(u.clientParty.priv), u.c.pub(u.serverParty.priv);
             var secret := u.c.shared(u.clientParty.priv, b).value;
             && KeysFrom(sys.client.out.keys.value, u.c, secret, a, b)
             && KeysFrom(sys.server.out.keys.value, u.c, secret, b, a)
           else sys.client.out.keys == sys.server.out.keys == None
  {
    hide ClientSig, ServerSig, ClientMid, ServerMid, ClientKeys, ServerKeys, ClientKind, Crossed, KeysFrom;
    assert Good(u, START);
    RunKeeps(u, START, schedule);
    NoDeadlock(u, Run(u, START, schedule));
    KeysCross(u);
  }

  // A fair schedule gets there: five rounds in which each side has its turn.
  lemma {:induction false} RoundsEnd(u: Setup, sys: System, schedule: seq<Who>, rounds: nat)
    requires u.Commutes() && Good(u, sys) && Left(sys) <= rounds && |schedule| == 2 * rounds
    requires forall i | 0 <= i < rounds :: {schedule[2 * i], schedule[2 * i + 1]} == {TheClient, TheServer}
    ensures Left(Run(u, sys, schedule)) == 0
    decreases rounds
  {
    hide Good, Move, CanMove, Left;
    if rounds > 0 {
      var a, b := schedule[0], schedule[1];
      assert schedule[2 * 0] == a && schedule[2 * 0 + 1] == b;
      var s1 := if CanMove(sys, a) then Move(u, sys, a) else sys;
      var s2 := if CanMove(s1, b) then Move(u, s1, b) else s1;
      if CanMove(sys, a) {
        MoveKeeps(u, sys, a);
      }
      NoDeadlock(u, sys);
      if CanMove(s1, b) {
        MoveKeeps(u, s1, b);
      }
      assert Run(u, sys, schedule) == Run(u, s1, schedule[1..]) == Run(u, s2, schedule[1..][1..]);
      assert schedule[1..][1..] == schedule[2..];
      forall i | 0 <= i < rounds - 1
        ensures {schedule[2..][2 * i], schedule[2..][2 * i + 1]} == {TheClient, TheServer}
      {
        assert {schedule[2 * (i + 1)], schedule[2 * (i + 1) + 1]} == {TheClient, TheServer};
      }
      RoundsEnd(u, s2, schedule[2..], rounds - 1);
    }
  }
}
