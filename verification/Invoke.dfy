// Requests and responses of a playing client (librtmp/rtmp.c): the table of pending calls and what HandleInvoke does
// with a server's command, as a state machine that keeps a log.
module Invoke {

  // A request sent with its transaction number and kept until it is answered. id tells requests apart.
  datatype Call = Call(name: string, txn: int, id: nat)

  // Told is a command sent without waiting for an answer; Dropped a request forgotten without one.
  datatype Event = Asked(call: Call) | Told(name: string, txn: int) | Answered(call: Call) | Dropped(call: Call)

  // What of the settings matters. fits says whether a command's text, with the user's strings, fits its packet.
  datatype Config = Config(token: bool, usher: bool, subscribe: bool, live: bool, playlist: bool, fits: string -> bool)

  // The state of the connection, its log, and the logs of the connections before it.
  datatype World = World(calls: seq<Call>, invokes: nat, ids: nat, playing: bool, streamId: int, checks: nat,
                         pausing: nat, connected: bool, log: seq<Event>, past: seq<seq<Event>>)

  // A decoded command from the server: its name, transaction number, and what else HandleInvoke looks at.
  datatype Command = Command(verb: string, txn: int, streamId: int, code: string, hasToken: bool)

  datatype Op = Connect | Pause | Seek | Drop(i: nat) | Noise | Handle(c: Command)

  const CONNECT := "connect"
  const CREATE := "createStream"
  const PLAY := "play"

  // ---------- Sending ----------

  // A command with the next transaction number, kept if it is sent at all.
  function Ask(cfg: Config, w: World, name: string): World {
    var w1 := w.(invokes := w.invokes + 1);
    if cfg.fits(name) then AskAs(w1, name, w1.invokes) else w1
  }

  function AskAs(w: World, name: string, txn: int): World {
    var c := Call(name, txn, w.ids);
    w.(calls := w.calls + [c], ids := w.ids + 1, log := w.log + [Asked(c)])
  }

  function Tell(cfg: Config, w: World, name: string): World {
    var w1 := w.(invokes := w.invokes + 1);
    if cfg.fits(name) then TellAs(w1, name, w1.invokes) else w1
  }

  function TellAs(w: World, name: string, txn: int): World {
    w.(log := w.log + [Told(name, txn)])
  }

  // ---------- The table ----------

  function FirstByTxn(calls: seq<Call>, txn: int): (i: nat)
    ensures i <= |calls| && (i < |calls| ==> calls[i].txn == txn)
    ensures forall j | 0 <= j < i :: calls[j].txn != txn
  {
    if calls == [] || calls[0].txn == txn then 0 else 1 + FirstByTxn(calls[1..], txn)
  }

  function FirstByName(calls: seq<Call>, name: string): (i: nat)
    ensures i <= |calls| && (i < |calls| ==> calls[i].name == name)
    ensures forall j | 0 <= j < i :: calls[j].name != name
  {
    if calls == [] || calls[0].name == name then 0 else 1 + FirstByName(calls[1..], name)
  }

  function Without(calls: seq<Call>, i: nat): seq<Call>
    requires i < |calls|
  {
    calls[..i] + calls[i + 1..]
  }

  function Answer(w: World, i: nat): World
    requires i < |w.calls|
  {
    w.(calls := Without(w.calls, i), log := w.log + [Answered(w.calls[i])])
  }

  function DropAt(w: World, i: nat): World
    requires i < |w.calls|
  {
    w.(calls := Without(w.calls, i), log := w.log + [Dropped(w.calls[i])])
  }

  function DropNamed(w: World, name: string): World {
    var i := FirstByName(w.calls, name);
    if i < |w.calls| then DropAt(w, i) else w
  }

  // RTMP_Close.
  function Close(cfg: Config, w: World): World {
    var w1 := if w.connected && w.streamId > 0 then Tell(cfg, w, "deleteStream") else w;
    World([], 0, w1.ids, false, -1, 0, w1.pausing, false, [], w1.past + [w1.log])
  }

  // ---------- HandleInvoke ----------

  function AfterConnect(cfg: Config, w: World, hasToken: bool): World {
    var w1 := if cfg.token && hasToken && cfg.fits("secureTokenResponse") then TellAs(w, "secureTokenResponse", 0) else w;
    var w2 := Ask(cfg, w1, CREATE);
    var w3 := if cfg.usher then Tell(cfg, w2, "NetStream.Authenticate.UsherToken") else w2;
    if cfg.subscribe || cfg.live then Ask(cfg, w3, "FCSubscribe") else w3
  }

  function AfterCreate(cfg: Config, w: World, streamId: int): World {
    var w1 := w.(streamId := streamId);
    var w2 := if cfg.playlist && cfg.fits("set_playlist") then AskAs(w1, "set_playlist", 0) else w1;
    Ask(cfg, w2, PLAY)
  }

  function Result(cfg: Config, w: World, c: Command): World {
    var i := FirstByTxn(w.calls, c.txn);
    if i == |w.calls| then w
    else
      var name, w1 := w.calls[i].name, Answer(w, i);
      if name == CONNECT then AfterConnect(cfg, w1, c.hasToken)
      else if name == CREATE then AfterCreate(cfg, w1, c.streamId)
      else if name == PLAY || name == "publish" then w1.(playing := true)
      else w1
  }

  predicate Failed(code: string) {
    code == "NetStream.Failed" || code == "NetStream.Play.Failed" || code == "NetStream.Play.StreamNotFound"
    || code == "NetConnection.Connect.InvalidApp"
  }

  predicate Over(code: string) {
    code == "NetStream.Play.Complete" || code == "NetStream.Play.Stop" || code == "NetStream.Play.UnpublishNotify"
  }

  function Status(cfg: Config, w: World, code: string): World {
    if Failed(code) then Close(cfg, w.(streamId := -1))
    else if code == "NetStream.Play.Start" || code == "NetStream.Play.PublishNotify" then
      DropNamed(w.(playing := true), PLAY)
    else if code == "NetStream.Publish.Start" then DropNamed(w.(playing := true), "publish")
    else if Over(code) then Close(cfg, w)
    else if code == "NetStream.Pause.Notify" && (w.pausing == 1 || w.pausing == 2) then
      Ask(cfg, w, "pause").(pausing := 3)
    else w
  }

  function HandleCommand(cfg: Config, w: World, c: Command): World {
    if c.verb == "_result" then Result(cfg, w, c)
    else if c.verb == "onBWDone" then if w.checks == 0 then Tell(cfg, w, "_checkbw") else w
    else if c.verb == "onFCUnsubscribe" || c.verb == "close" then Close(cfg, w)
    else if c.verb == "ping" then TellAs(w, "pong", c.txn)
    else if c.verb == "_onbwcheck" then TellAs(w, "_result", c.txn).(checks := w.checks + 1)
    else if c.verb == "_onbwdone" then DropNamed(w, "_checkbw")
    else if c.verb == "onStatus" then Status(cfg, w, c.code)
    else if c.verb == "playlist_ready" then DropNamed(w, "set_playlist")
    else w
  }

  function Step(cfg: Config, w: World, op: Op): World {
    match op
    case Connect => Ask(cfg, w.(connected := true), CONNECT)
    case Pause => Ask(cfg, w, "pause")
    case Seek => Ask(cfg, w, "seek")
    case Drop(i) => if i < |w.calls| then DropAt(w, i) else w
    case Noise => w
    case Handle(c) => HandleCommand(cfg, w, c)
  }

  const INITIAL := World([], 0, 0, false, -1, 0, 0, false, [], [])

  function Run(cfg: Config, w: World, ops: seq<Op>): World
    decreases |ops|
  {
    if ops == [] then w else Run(cfg, Step(cfg, w, ops[0]), ops[1..])
  }

  // ---------- What every run keeps ----------

  // Pending requests have different numbers (but for those sent with number 0), none beyond the counter.
  predicate Numbered(w: World) {
    && (forall i | 0 <= i < |w.calls| :: 0 <= w.calls[i].txn <= w.invokes)
    && (forall i, j | 0 <= i < j < |w.calls| :: w.calls[i].txn == 0 || w.calls[i].txn != w.calls[j].txn)
  }

  predicate AnsweredIn(log: seq<Event>, name: string) {
    exists e | e in log :: e.Answered? && e.call.name == name
  }

  // Play is sent only after an answer to a createStream, and that only after an answer to a connect.
  predicate Allowed(log: seq<Event>, name: string) {
    && (name == PLAY ==> AnsweredIn(log, CREATE))
    && (name == CREATE ==> AnsweredIn(log, CONNECT))
  }

  // A request is answered or dropped once at most, and only after it was sent.
  predicate Open(log: seq<Event>, c: Call) {
    Asked(c) in log && Answered(c) !in log && Dropped(c) !in log
  }

  predicate Follows(log: seq<Event>, e: Event) {
    match e
    case Asked(c) => Allowed(log, c.name) && Asked(c) !in log
    case Told(_, _) => true
    case Answered(c) => Open(log, c)
    case Dropped(c) => Open(log, c)
  }

  predicate Orderly(log: seq<Event>)
    decreases |log|
  {
    log == [] || (Orderly(log[..|log| - 1]) && Follows(log[..|log| - 1], log[|log| - 1]))
  }

  // Whatever is in the log was sent with an id already used up.
  predicate Used(log: seq<Event>, ids: nat) {
    forall e | e in log && !e.Told? :: e.call.id < ids
  }

  // What is pending is what was sent and not answered or dropped since the connection was made.
  ghost predicate Pending(w: World) {
    && (forall i | 0 <= i < |w.calls| :: Open(w.log, w.calls[i]))
    && (forall i, j | 0 <= i < j < |w.calls| :: w.calls[i].id != w.calls[j].id)
    && (forall c | Open(w.log, c) :: c in w.calls)
  }

  ghost predicate Inv(w: World) {
    && Numbered(w) && Pending(w) && Used(w.log, w.ids) && Orderly(w.log)
    && (forall log | log in w.past :: Orderly(log))
  }

  lemma Appended(log: seq<Event>, e: Event)
    requires Orderly(log) && Follows(log, e)
    ensures Orderly(log + [e])
  {
    assert (log + [e])[..|log|] == log;
  }

  lemma LogMore(log: seq<Event>, e: Event, name: string)
    ensures AnsweredIn(log, name) ==> AnsweredIn(log + [e], name)
    ensures e.Answered? && e.call.name == name ==> AnsweredIn(log + [e], name)
  {
    assert e in log + [e];
    if AnsweredIn(log, name) {
      var x :| x in log && x.Answered? && x.call.name == name;
      assert x in log + [e];
    }
  }

  lemma OpenMore(log: seq<Event>, e: Event, c: Call)
    ensures Open(log + [e], c)
            <==> (Open(log, c) && e != Answered(c) && e != Dropped(c))
                 || (e == Asked(c) && Answered(c) !in log && Dropped(c) !in log)
  {
  }

  // A number is taken: nothing pending has it.
  lemma Counted(w: World)
    requires Inv(w)
    ensures Inv(w.(invokes := w.invokes + 1))
    ensures forall c | c in w.calls :: c.txn < w.invokes + 1
  {
  }

  lemma OnlyNumbers(w: World, w': World)
    requires Inv(w) && w' == w.(playing := w'.playing, streamId := w'.streamId, checks := w'.checks, pausing := w'.pausing,
                                connected := w'.connected)
    ensures Inv(w')
  {
  }

  lemma TellAsKeeps(w: World, name: string, txn: int)
    requires Inv(w)
    ensures Inv(TellAs(w, name, txn))
  {
    hide Orderly;
    var e := Told(name, txn);
    Appended(w.log, e);
    forall c: Call
      ensures Open(w.log + [e], c) <==> Open(w.log, c)
    {
      OpenMore(w.log, e, c);
    }
  }

  lemma AskedIsPending(w: World, c: Call)
    requires Pending(w) && Used(w.log, c.id)
    ensures Pending(w.(calls := w.calls + [c], log := w.log + [Asked(c)]))
    ensures Asked(c) !in w.log
  {
    hide Open;
    assert Answered(c) !in w.log && Dropped(c) !in w.log && Asked(c) !in w.log;
    forall x: Call
      ensures Open(w.log + [Asked(c)], x) <==> Open(w.log, x) || x == c
    {
      OpenMore(w.log, Asked(c), x);
    }
    forall x | x in w.calls
      ensures x.id < c.id
    {
      OpenIsUsed(w.log, x, c.id);
    }
  }

  lemma OpenIsUsed(log: seq<Event>, c: Call, ids: nat)
    requires Open(log, c) && Used(log, ids)
    ensures c.id < ids
  {
  }

  lemma UsedMore(log: seq<Event>, e: Event, ids: nat)
    requires Used(log, ids) && (e.Told? || e.call.id <= ids)
    ensures Used(log + [e], ids + 1)
  {
  }

  lemma AskAsKeeps(w: World, name: string, txn: int)
    requires Inv(w) && Allowed(w.log, name)
    requires txn == 0 || (txn == w.invokes && forall c | c in w.calls :: c.txn < txn)
    ensures Inv(AskAs(w, name, txn))
  {
    hide Orderly, Pending, Used, Allowed;
    var c := Call(name, txn, w.ids);
    AskedIsPending(w, c);
    Appended(w.log, Asked(c));
    UsedMore(w.log, Asked(c), w.ids);
    PendingSame(AskAs(w, name, txn), w.(calls := w.calls + [c], log := w.log + [Asked(c)]));
  }

  lemma PendingSame(a: World, b: World)
    requires a.calls == b.calls && a.log == b.log
    ensures Pending(a) <==> Pending(b)
  {
    hide Open;
  }

  // Taking request i out of the table, with the event that says so.
  lemma RemoveKeeps(w: World, i: nat, e: Event)
    requires Inv(w) && i < |w.calls| && (e == Answered(w.calls[i]) || e == Dropped(w.calls[i]))
    ensures Inv(w.(calls := Without(w.calls, i), log := w.log + [e]))
  {
    hide Orderly, Pending, Numbered, Used, Without;
    PendingLess(w, i, e);
    NumberedLess(w, i, w.log + [e]);
    Appended(w.log, e);
    UsedAgain(w, i, e);
  }

  lemma UsedAgain(w: World, i: nat, e: Event)
    requires Used(w.log, w.ids) && Pending(w)
    requires i < |w.calls| && (e == Answered(w.calls[i]) || e == Dropped(w.calls[i]))
    ensures Used(w.log + [e], w.ids)
  {
  }

  lemma NumberedLess(w: World, i: nat, log: seq<Event>)
    requires Numbered(w) && i < |w.calls|
    ensures Numbered(w.(calls := Without(w.calls, i), log := log))
  {
  }

  lemma PendingLess(w: World, i: nat, e: Event)
    requires Pending(w) && i < |w.calls| && (e == Answered(w.calls[i]) || e == Dropped(w.calls[i]))
    ensures Pending(w.(calls := Without(w.calls, i), log := w.log + [e]))
    ensures Follows(w.log, e)
  {
    var c := w.calls[i];
    forall x: Call
      ensures Open(w.log + [e], x) <==> Open(w.log, x) && x != c
    {
      OpenMore(w.log, e, x);
    }
    hide Open;
    RemainIn(w.calls, i);
  }

  lemma RemainIn(calls: seq<Call>, i: nat)
    requires i < |calls| && forall a, b | 0 <= a < b < |calls| :: calls[a].id != calls[b].id
    ensures forall x :: x in Without(calls, i) <==> x in calls && x != calls[i]
  {
    forall x | x in calls && x != calls[i]
      ensures x in Without(calls, i)
    {
      var k :| 0 <= k < |calls| && calls[k] == x;
      assert Without(calls, i)[if k < i then k else k - 1] == x;
    }
  }

  lemma AskKeeps(cfg: Config, w: World, name: string)
    requires Inv(w) && Allowed(w.log, name)
    ensures Inv(Ask(cfg, w, name))
    ensures forall x :: AnsweredIn(w.log, x) ==> AnsweredIn(Ask(cfg, w, name).log, x)
  {
    hide Inv, AskAs;
    Counted(w);
    var w1 := w.(invokes := w.invokes + 1);
    if cfg.fits(name) {
      AskAsKeeps(w1, name, w1.invokes);
      AskLogs(w1, name, w1.invokes);
    }
  }

  lemma AskLogs(w: World, name: string, txn: int)
    ensures forall x :: AnsweredIn(w.log, x) ==> AnsweredIn(AskAs(w, name, txn).log, x)
  {
    hide AnsweredIn;
    forall x: string
      ensures AnsweredIn(w.log, x) ==> AnsweredIn(AskAs(w, name, txn).log, x)
    {
      LogMore(w.log, Asked(Call(name, txn, w.ids)), x);
    }
  }

  lemma TellKeeps(cfg: Config, w: World, name: string)
    requires Inv(w)
    ensures Inv(Tell(cfg, w, name))
  {
    hide Inv, TellAs;
    Counted(w);
    var w1 := w.(invokes := w.invokes + 1);
    TellAsKeeps(w1, name, w1.invokes);
  }

  lemma CloseKeeps(cfg: Config, w: World)
    requires Inv(w)
    ensures Inv(Close(cfg, w))
  {
    hide Tell, Pending, Numbered, Orderly;
    TellKeeps(cfg, w, "deleteStream");
    var w1 := if w.connected && w.streamId > 0 then Tell(cfg, w, "deleteStream") else w;
    assert Inv(w1);
    NothingPending(Close(cfg, w));
  }

  lemma NothingPending(w: World)
    requires w.calls == [] && w.log == []
    ensures Numbered(w) && Pending(w) && Orderly(w.log)
  {
  }

  lemma DropNamedKeeps(w: World, name: string)
    requires Inv(w)
    ensures Inv(DropNamed(w, name))
  {
    hide Inv;
    var i := FirstByName(w.calls, name);
    if i < |w.calls| {
      RemoveKeeps(w, i, Dropped(w.calls[i]));
    }
  }

  lemma AfterConnectKeeps(cfg: Config, w: World, hasToken: bool)
    requires Inv(w) && AnsweredIn(w.log, CONNECT)
    ensures Inv(AfterConnect(cfg, w, hasToken))
  {
    hide Inv, Ask, Tell, AnsweredIn;
    TellAsKeeps(w, "secureTokenResponse", 0);
    LogMore(w.log, Told("secureTokenResponse", 0), CONNECT);
    var w1 := if cfg.token && hasToken && cfg.fits("secureTokenResponse") then TellAs(w, "secureTokenResponse", 0) else w;
    AskKeeps(cfg, w1, CREATE);
    var w2 := Ask(cfg, w1, CREATE);
    TellKeeps(cfg, w2, "NetStream.Authenticate.UsherToken");
    var w3 := if cfg.usher then Tell(cfg, w2, "NetStream.Authenticate.UsherToken") else w2;
    AskKeeps(cfg, w3, "FCSubscribe");
  }

  lemma AfterCreateKeeps(cfg: Config, w: World, streamId: int)
    requires Inv(w) && AnsweredIn(w.log, CREATE)
    ensures Inv(AfterCreate(cfg, w, streamId))
  {
    hide Inv, Ask, AskAs, AnsweredIn;
    var w1 := w.(streamId := streamId);
    OnlyNumbers(w, w1);
    AskAsKeeps(w1, "set_playlist", 0);
    AskLogs(w1, "set_playlist", 0);
    var w2 := if cfg.playlist && cfg.fits("set_playlist") then AskAs(w1, "set_playlist", 0) else w1;
    AskKeeps(cfg, w2, PLAY);
  }

  lemma ResultKeeps(cfg: Config, w: World, c: Command)
    requires Inv(w)
    ensures Inv(Result(cfg, w, c))
  {
    hide Inv, AfterConnect, AfterCreate, AnsweredIn, Without;
    var i := FirstByTxn(w.calls, c.txn);
    if i < |w.calls| {
      var name, w1 := w.calls[i].name, Answer(w, i);
      RemoveKeeps(w, i, Answered(w.calls[i]));
      LogMore(w.log, Answered(w.calls[i]), name);
      if name == CONNECT {
        AfterConnectKeeps(cfg, w1, c.hasToken);
      } else if name == CREATE {
        AfterCreateKeeps(cfg, w1, c.streamId);
      } else {
        OnlyNumbers(w1, w1.(playing := true));
      }
    }
  }

  lemma StatusKeeps(cfg: Config, w: World, code: string)
    requires Inv(w)
    ensures Inv(Status(cfg, w, code))
  {
    hide Inv, Close, DropNamed, Ask;
    OnlyNumbers(w, w.(streamId := -1));
    CloseKeeps(cfg, w.(streamId := -1));
    CloseKeeps(cfg, w);
    OnlyNumbers(w, w.(playing := true));
    DropNamedKeeps(w.(playing := true), PLAY);
    DropNamedKeeps(w.(playing := true), "publish");
    AskKeeps(cfg, w, "pause");
    OnlyNumbers(Ask(cfg, w, "pause"), Ask(cfg, w, "pause").(pausing := 3));
  }

  lemma HandleKeeps(cfg: Config, w: World, c: Command)
    requires Inv(w)
    ensures Inv(HandleCommand(cfg, w, c))
  {
    hide Inv, Close, DropNamed, Tell, TellAs, Status, Result;
    ResultKeeps(cfg, w, c);
    TellKeeps(cfg, w, "_checkbw");
    CloseKeeps(cfg, w);
    TellAsKeeps(w, "pong", c.txn);
    TellAsKeeps(w, "_result", c.txn);
    TellAsChecks(w, c.txn);
    OnlyNumbers(TellAs(w, "_result", c.txn), TellAs(w, "_result", c.txn).(checks := w.checks + 1));
    DropNamedKeeps(w, "_checkbw");
    DropNamedKeeps(w, "set_playlist");
    StatusKeeps(cfg, w, c.code);
  }

  lemma TellAsChecks(w: World, txn: int)
    ensures TellAs(w, "_result", txn).checks == w.checks
  {
  }

  lemma StepKeeps(cfg: Config, w: World, op: Op)
    requires Inv(w)
    ensures Inv(Step(cfg, w, op))
  {
    hide Inv, Ask, HandleCommand, AnsweredIn, Without;
    match op
    case Connect =>
      OnlyNumbers(w, w.(connected := true));
      AskKeeps(cfg, w.(connected := true), CONNECT);
    case Pause => AskKeeps(cfg, w, "pause");
    case Seek => AskKeeps(cfg, w, "seek");
    case Drop(i) =>
      if i < |w.calls| {
        RemoveKeeps(w, i, Dropped(w.calls[i]));
      }
    case Noise =>
    case Handle(c) => HandleKeeps(cfg, w, c);
  }

  // Whatever the server sends and the caller does.
  lemma {:induction false} RunKeeps(cfg: Config, w: World, ops: seq<Op>)
    requires Inv(w)
    ensures Inv(Run(cfg, w, ops))
    decreases |ops|
  {
    hide Inv, Step;
    if ops != [] {
      StepKeeps(cfg, w, ops[0]);
      RunKeeps(cfg, Step(cfg, w, ops[0]), ops[1..]);
    }
  }

  lemma StartsGood()
    ensures Inv(INITIAL)
  {
    NothingPending(INITIAL);
  }

  // ---------- What that means ----------

  // In an orderly log, every event fits what came before it.
  lemma {:induction false} EachFollows(log: seq<Event>, k: nat)
    requires Orderly(log) && k < |log|
    ensures Orderly(log[..k]) && Follows(log[..k], log[k])
    decreases |log|
  {
    if k < |log| - 1 {
      EachFollows(log[..|log| - 1], k);
      assert log[..|log| - 1][..k] == log[..k];
    } else {
      assert log[..k] == log[..|log| - 1];
    }
  }

  // Behind every play there is a chain: connect asked and answered, createStream asked and answered, then play.
  lemma PlayComesLast(log: seq<Event>, p: nat) returns (a: nat, b: nat, c: nat, d: nat)
    requires Orderly(log) && p < |log| && log[p].Asked? && log[p].call.name == PLAY
    ensures a < b < c < d < p
    ensures log[b].Answered? && log[b].call.name == CONNECT && log[a] == Asked(log[b].call)
    ensures log[d].Answered? && log[d].call.name == CREATE && log[c] == Asked(log[d].call)
  {
    EachFollows(log, p);
    c, d := AnsweredAfterAsked(log, p, CREATE);
    EachFollows(log, c);
    a, b := AnsweredAfterAsked(log, c, CONNECT);
  }

  lemma AnsweredAfterAsked(log: seq<Event>, p: nat, name: string) returns (i: nat, j: nat)
    requires Orderly(log) && p <= |log| && AnsweredIn(log[..p], name)
    ensures i < j < p && log[j].Answered? && log[j].call.name == name && log[i] == Asked(log[j].call)
  {
    hide Orderly;
    var e :| e in log[..p] && e.Answered? && e.call.name == name;
    j :| 0 <= j < p && log[..p][j] == e;
    EachFollows(log, j);
    i :| 0 <= i < j && log[..j][i] == Asked(e.call);
  }

  // No request is answered twice.
  lemma AnsweredOnce(log: seq<Event>, i: nat, j: nat)
    requires Orderly(log) && i < j < |log| && log[i].Answered? && log[j].Answered?
    ensures log[i].call != log[j].call
  {
    EachFollows(log, j);
    assert log[i] == log[..j][i];
  }

  // Request and response safety, over every run from a fresh connection.
  lemma RunsAreSafe(cfg: Config, ops: seq<Op>)
    ensures var w := Run(cfg, INITIAL, ops);
      && Numbered(w) && Orderly(w.log) && (forall log | log in w.past :: Orderly(log))
      && (forall c :: c in w.calls <==> Open(w.log, c))
  {
    hide Step, Orderly, Numbered;
    StartsGood();
    RunKeeps(cfg, INITIAL, ops);
  }
}
