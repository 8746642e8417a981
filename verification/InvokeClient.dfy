// The playing client itself (librtmp/rtmp.c): m_methodCalls grows by sixteen slots and is compacted in place, and
// HandleInvoke follows the state machine of Invoke.
module InvokeClient {
  import opened Invoke

  // RTMP_METHOD.
  datatype Method = Method(name: string, num: int)

  const NO_METHOD := Method("", 0)

  function Stripped(calls: seq<Call>): (s: seq<Method>)
    ensures |s| == |calls|
    ensures forall i | 0 <= i < |calls| :: s[i] == Method(calls[i].name, calls[i].txn)
  {
    seq(|calls|, i requires 0 <= i < |calls| => Method(calls[i].name, calls[i].txn))
  }

  lemma StrippedWithout(calls: seq<Call>, i: nat)
    requires i < |calls|
    ensures Stripped(Without(calls, i)) == Stripped(calls)[..i] + Stripped(calls)[i + 1..]
  {
  }

  lemma StrippedMore(calls: seq<Call>, c: Call)
    ensures Stripped(calls + [c]) == Stripped(calls) + [Method(c.name, c.txn)]
  {
  }

  // The first index whose slot is as wanted is the index the state machine means.
  lemma FirstTxnIs(calls: seq<Call>, txn: int, i: nat)
    requires i <= |calls| && (forall j | 0 <= j < i :: calls[j].txn != txn) && (i < |calls| ==> calls[i].txn == txn)
    ensures FirstByTxn(calls, txn) == i
  {
  }

  lemma FirstNameIs(calls: seq<Call>, name: string, i: nat)
    requires i <= |calls| && (forall j | 0 <= j < i :: calls[j].name != name) && (i < |calls| ==> calls[i].name == name)
    ensures FirstByName(calls, name) == i
  {
  }

  class Client {
    const cfg: Config
    var methodCalls: array<Method>
    var numCalls: nat
    var numInvokes: nat
    var playing: bool
    var streamId: int
    var bwCheckCounter: nat
    var pausing: nat
    var connected: bool
    ghost var w: World

    // The slots in use are the pending calls; there is room for them and, unless it is time to grow, for one more.
    ghost predicate Valid()
      reads this, methodCalls
    {
      && numCalls <= methodCalls.Length && (numCalls % 16 == 0 || numCalls < methodCalls.Length)
      && methodCalls.Length % 16 == 0
      && methodCalls[..numCalls] == Stripped(w.calls)
      && w.invokes == numInvokes && w.playing == playing && w.streamId == streamId
      && w.checks == bwCheckCounter && w.pausing == pausing && w.connected == connected
    }

    constructor (cfg: Config)
      ensures Valid() && w == INITIAL && this.cfg == cfg && fresh(methodCalls)
    {
      this.cfg := cfg;
      methodCalls, numCalls, numInvokes := new Method[0], 0, 0;
      playing, streamId, bwCheckCounter, pausing, connected := false, -1, 0, 0, false;
      w := INITIAL;
    }

    // AV_queue.
    method Queue(name: string, txn: int)
      requires Valid()
      modifies this`methodCalls, this`numCalls, this`w, methodCalls
      ensures Valid() && w == AskAs(old(w), name, txn)
      ensures methodCalls == old(methodCalls) || fresh(methodCalls)
    {
      hide Stripped;
      if numCalls % 16 == 0 {
        Grow();
      }
      StrippedMore(w.calls, Call(name, txn, w.ids));
      ghost var s := methodCalls[..numCalls];
      methodCalls[numCalls] := Method(name, txn);
      numCalls := numCalls + 1;
      assert methodCalls[..numCalls] == s + [Method(name, txn)];
      w := AskAs(w, name, txn);
    }

    // realloc.
    method Grow()
      requires Valid() && numCalls % 16 == 0
      modifies this`methodCalls
      ensures Valid() && numCalls < methodCalls.Length && fresh(methodCalls)
    {
      var more := new Method[numCalls + 16](_ => NO_METHOD);
      forall i | 0 <= i < numCalls {
        more[i] := methodCalls[i];
      }
      assert more[..numCalls] == methodCalls[..numCalls];
      methodCalls := more;
    }

    // AV_erase: the slots behind move up by one.
    method Erase(i: nat)
      requires i < numCalls <= methodCalls.Length
      modifies this`numCalls, methodCalls
      ensures numCalls == old(numCalls) - 1
      ensures methodCalls[..numCalls] == old(methodCalls[..i]) + old(methodCalls[i + 1..numCalls])
    {
      ghost var s := methodCalls[..];
      numCalls := numCalls - 1;
      var k := i;
      while k < numCalls
        invariant i <= k <= numCalls == old(numCalls) - 1 && methodCalls.Length == |s|
        invariant forall j | 0 <= j < i :: methodCalls[j] == s[j]
        invariant forall j | i <= j < k :: methodCalls[j] == s[j + 1]
        invariant forall j | k <= j <= numCalls :: methodCalls[j] == s[j]
      {
        methodCalls[k] := methodCalls[k + 1];
        k := k + 1;
      }
      methodCalls[k] := NO_METHOD;
      Erased(s, methodCalls[..], i, numCalls);
      assert methodCalls[..][..numCalls] == methodCalls[..numCalls];
    }

    static lemma Erased(before: seq<Method>, after: seq<Method>, i: nat, n: nat)
      requires i <= n < |before| == |after|
      requires forall j | 0 <= j < i :: after[j] == before[j]
      requires forall j | i <= j < n :: after[j] == before[j + 1]
      ensures after[..n] == before[..i] + before[i + 1..n + 1]
    {
    }

    // Takes call i out of the table.
    method Take(i: nat, answered: bool) returns (name: string)
      requires Valid() && i < numCalls
      modifies this`numCalls, this`w, methodCalls
      ensures Valid() && name == old(w).calls[i].name
      ensures w == if answered then Answer(old(w), i) else DropAt(old(w), i)
    {
      name := methodCalls[i].name;
      StrippedWithout(w.calls, i);
      assert methodCalls[..i] == Stripped(w.calls)[..i];
      assert methodCalls[i + 1..numCalls] == Stripped(w.calls)[i + 1..];
      Erase(i);
      w := if answered then Answer(w, i) else DropAt(w, i);
    }

    method DropFirst(name: string)
      requires Valid()
      modifies this`numCalls, this`w, methodCalls
      ensures Valid() && w == DropNamed(old(w), name)
    {
      for i := 0 to numCalls
        invariant Valid() && w == old(w) && numCalls == old(numCalls)
        invariant forall j | 0 <= j < i :: w.calls[j].name != name
      {
        assert methodCalls[i] == Stripped(w.calls)[i];
        if methodCalls[i].name == name {
          FirstNameIs(w.calls, name, i);
          var dropped := Take(i, false);
          return;
        }
      }
      FirstNameIs(w.calls, name, numCalls);
    }

    // A request: numbered, and queued by RTMP_SendPacket if its text fits.
    method Request(name: string)
      requires Valid()
      modifies this, methodCalls
      ensures Valid() && w == Ask(cfg, old(w), name)
      ensures methodCalls == old(methodCalls) || fresh(methodCalls)
    {
      numInvokes := numInvokes + 1;
      w := w.(invokes := w.invokes + 1);
      if cfg.fits(name) {
        Queue(name, numInvokes);
      }
    }

    method Notify(name: string)
      requires Valid()
      modifies this`numInvokes, this`w
      ensures Valid() && w == Tell(cfg, old(w), name)
    {
      numInvokes := numInvokes + 1;
      w := w.(invokes := w.invokes + 1);
      if cfg.fits(name) {
        NotifyAs(name, numInvokes);
      }
    }

    // A command that carries a number of its own.
    method NotifyAs(name: string, txn: int)
      requires Valid()
      modifies this`w
      ensures Valid() && w == TellAs(old(w), name, txn)
    {
      w := TellAs(w, name, txn);
    }

    // RTMP_Close.
    method CloseConnection()
      requires Valid()
      modifies this
      ensures Valid() && w == Close(cfg, old(w)) && fresh(methodCalls)
    {
      if connected && streamId > 0 {
        Notify("deleteStream");
      }
      methodCalls, numCalls, numInvokes := new Method[0], 0, 0;
      playing, streamId, bwCheckCounter, connected := false, -1, 0, false;
      w := World([], 0, w.ids, false, -1, 0, w.pausing, false, [], w.past + [w.log]);
    }

    method ConnectAnswered(hasToken: bool)
      requires Valid()
      modifies this, methodCalls
      ensures Valid() && w == AfterConnect(cfg, old(w), hasToken)
      ensures methodCalls == old(methodCalls) || fresh(methodCalls)
    {
      hide Ask, Tell, TellAs, Valid;
      if cfg.token && hasToken && cfg.fits("secureTokenResponse") {
        NotifyAs("secureTokenResponse", 0);
      }
      Request(CREATE);
      if cfg.usher {
        Notify("NetStream.Authenticate.UsherToken");
      }
      if cfg.subscribe {
        Request("FCSubscribe");
      } else if cfg.live {
        Request("FCSubscribe");
      }
    }

    method CreateAnswered(id: int)
      requires Valid()
      modifies this, methodCalls
      ensures Valid() && w == AfterCreate(cfg, old(w), id)
      ensures methodCalls == old(methodCalls) || fresh(methodCalls)
    {
      hide Ask;
      streamId := id;
      w := w.(streamId := id);
      if cfg.playlist && cfg.fits("set_playlist") {
        Queue("set_playlist", 0);
      }
      Request(PLAY);
    }

    method SetPlaying()
      requires Valid()
      modifies this`playing, this`w
      ensures Valid() && w == old(w).(playing := true)
    {
      playing := true;
      w := w.(playing := true);
    }

    // A _result: the first pending call with its number is answered.
    method HandleResult(c: Command)
      requires Valid()
      modifies this, methodCalls
      ensures Valid() && w == Result(cfg, old(w), c)
      ensures methodCalls == old(methodCalls) || fresh(methodCalls)
    {
      hide AfterConnect, AfterCreate, Answer;
      var i := FindTxn(c.txn);
      if i == numCalls {
        return;
      }
      var name := Take(i, true);
      if name == CONNECT {
        ConnectAnswered(c.hasToken);
      } else if name == CREATE {
        CreateAnswered(c.streamId);
      } else if name == PLAY || name == "publish" {
        SetPlaying();
      }
    }

    method FindTxn(txn: int) returns (i: nat)
      requires Valid()
      ensures i == FirstByTxn(w.calls, txn) <= numCalls == |w.calls|
    {
      i := 0;
      while i < numCalls
        invariant i <= numCalls
        invariant forall j | 0 <= j < i :: w.calls[j].txn != txn
      {
        assert methodCalls[i] == methodCalls[..numCalls][i] == Stripped(w.calls)[i];
        if methodCalls[i].num == txn {
          break;
        }
        i := i + 1;
      }
      assert numCalls == |methodCalls[..numCalls]|;
      FirstTxnIs(w.calls, txn, i);
    }

    method HandleStatus(code: string) returns (over: bool)
      requires Valid()
      modifies this, methodCalls
      ensures Valid() && w == Status(cfg, old(w), code) && over == (!Failed(code) && Over(code))
      ensures methodCalls == old(methodCalls) || fresh(methodCalls)
    {
      hide Ask, Close, DropNamed, Stripped;
      over := false;
      if Failed(code) {
        streamId := -1;
        w := w.(streamId := -1);
        CloseConnection();
      } else if code == "NetStream.Play.Start" || code == "NetStream.Play.PublishNotify" {
        SetPlaying();
        DropFirst(PLAY);
      } else if code == "NetStream.Publish.Start" {
        SetPlaying();
        DropFirst("publish");
      } else if Over(code) {
        CloseConnection();
        over := true;
      } else if code == "NetStream.Pause.Notify" && (pausing == 1 || pausing == 2) {
        Request("pause");
        pausing := 3;
        w := w.(pausing := 3);
      }
    }

    // HandleInvoke.
    method HandleInvoke(c: Command) returns (over: bool)
      requires Valid()
      modifies this, methodCalls
      ensures Valid() && w == HandleCommand(cfg, old(w), c)
      ensures methodCalls == old(methodCalls) || fresh(methodCalls)
      ensures over == (c.verb == "onFCUnsubscribe" || (c.verb == "onStatus" && !Failed(c.code) && Over(c.code)))
    {
      hide Result, Status, Close, DropNamed, Tell, TellAs, Failed, Over;
      over := false;
      if c.verb == "_result" {
        HandleResult(c);
      } else if c.verb == "onBWDone" {
        if bwCheckCounter == 0 {
          Notify("_checkbw");
        }
      } else if c.verb == "onFCUnsubscribe" {
        CloseConnection();
        over := true;
      } else if c.verb == "ping" {
        NotifyAs("pong", c.txn);
      } else if c.verb == "_onbwcheck" {
        TellAsChecks(w, c.txn);
        NotifyAs("_result", c.txn);
        bwCheckCounter := bwCheckCounter + 1;
        w := w.(checks := w.checks + 1);
      } else if c.verb == "_onbwdone" {
        DropFirst("_checkbw");
      } else if c.verb == "close" {
        CloseConnection();
      } else if c.verb == "onStatus" {
        over := HandleStatus(c.code);
      } else if c.verb == "playlist_ready" {
        DropFirst("set_playlist");
      }
    }

    // Whatever happens next: the client goes where the state machine says.
    method Do(op: Op)
      requires Valid()
      modifies this, methodCalls
      ensures Valid() && w == Step(cfg, old(w), op)
      ensures methodCalls == old(methodCalls) || fresh(methodCalls)
    {
      hide Ask, HandleCommand, DropAt;
      match op
      case Connect =>
        connected := true;
        w := w.(connected := true);
        Request(CONNECT);
      case Pause => Request("pause");
      case Seek => Request("seek");
      case Drop(i) =>
        assert numCalls == |methodCalls[..numCalls]|;
        if i < numCalls {
          var dropped := Take(i, false);
        }
      case Noise =>
      case Handle(c) => var over := HandleInvoke(c);
    }
  }

  // Any run of a fresh client keeps its requests in order: numbers distinct, each answered at most once, play last.
  method Serve(client: Client, ops: seq<Op>)
    requires client.Valid() && client.w == INITIAL
    modifies client, client.methodCalls
    ensures client.Valid() && client.w == Run(client.cfg, INITIAL, ops) && Inv(client.w)
    ensures forall i, j | 0 <= i < j < client.numCalls ::
      client.methodCalls[i].num == 0 || client.methodCalls[i].num != client.methodCalls[j].num
  {
    hide Inv, Step, Stripped;
    StartsGood();
    for i := 0 to |ops|
      invariant client.Valid() && Inv(client.w)
      invariant client.methodCalls == old(client.methodCalls) || fresh(client.methodCalls)
      invariant Run(client.cfg, client.w, ops[i..]) == Run(client.cfg, INITIAL, ops)
    {
      assert ops[i..][0] == ops[i] && ops[i..][1..] == ops[i + 1..];
      StepKeeps(client.cfg, client.w, ops[i]);
      client.Do(ops[i]);
    }
    NumbersDiffer(client.w, client.methodCalls[..client.numCalls]);
    forall i, j | 0 <= i < j < client.numCalls
      ensures client.methodCalls[i].num == 0 || client.methodCalls[i].num != client.methodCalls[j].num
    {
      assert client.methodCalls[i] == client.methodCalls[..client.numCalls][i];
      assert client.methodCalls[j] == client.methodCalls[..client.numCalls][j];
    }
  }

  lemma NumbersDiffer(w: World, s: seq<Method>)
    requires Inv(w) && s == Stripped(w.calls)
    ensures forall i, j | 0 <= i < j < |s| :: s[i].num == 0 || s[i].num != s[j].num
  {
  }
}
