// What a playing client does with each command it is sent (librtmp/rtmp.c, HandleInvoke): that answers have the effects
// they are waited for, and that a server that answers gets the stream started.
module InvokeReplies {
  import opened Invoke

  // c is the first pending call with the number of the command.
  predicate Matches(w: World, i: nat, txn: int) {
    i < |w.calls| && w.calls[i].txn == txn && forall j | 0 <= j < i :: w.calls[j].txn != txn
  }

  // The table without entry i.
  predicate Removed(after: seq<Call>, before: seq<Call>, i: nat) {
    i < |before| && after == before[..i] + before[i + 1..]
  }

  function Reply(txn: int, streamId: int, hasToken: bool): Op {
    Handle(Command("_result", txn, streamId, "", hasToken))
  }

  lemma FirstIs(calls: seq<Call>, txn: int, i: nat)
    requires i <= |calls| && (i < |calls| ==> calls[i].txn == txn) && forall j | 0 <= j < i :: calls[j].txn != txn
    ensures FirstByTxn(calls, txn) == i
  {
  }

  lemma FirstNamed(calls: seq<Call>, name: string, i: nat)
    requires i <= |calls| && (i < |calls| ==> calls[i].name == name) && forall j | 0 <= j < i :: calls[j].name != name
    ensures FirstByName(calls, name) == i
  {
  }

  // A connect is answered: a createStream with the next number goes out, and is waited for.
  lemma ConnectAnswered(cfg: Config, w: World, i: nat, c: Command)
    requires Inv(w) && c.verb == "_result" && Matches(w, i, c.txn) && w.calls[i].name == "connect"
    requires cfg.fits("createStream")
    ensures var w' := Step(cfg, w, Handle(c));
      var create := Call("createStream", w.invokes + 1, w.ids);
      && Answered(w.calls[i]) in w'.log && Asked(create) in w'.log
      && create in w'.calls && w.calls[i] !in w'.calls
      && (forall x | x in w.calls :: x.txn < create.txn)
  {
    hide Inv, Orderly;
    FirstIs(w.calls, c.txn, i);
    StepKeeps(cfg, w, Handle(c));
    ConnectLog(cfg, w, i, c);
    Counted(w);
    IsPending(Step(cfg, w, Handle(c)), Call("createStream", w.invokes + 1, w.ids), w.calls[i]);
  }

  lemma IsPending(w: World, asked: Call, gone: Call)
    requires Inv(w) && Answered(gone) in w.log
    ensures gone !in w.calls
  {
  }

  // A list of one, if c.
  function If<T>(c: bool, x: T): seq<T> {
    if c then [x] else []
  }

  lemma AskIs(cfg: Config, w: World, name: string)
    ensures var w', call, sent := Ask(cfg, w, name), Call(name, w.invokes + 1, w.ids), cfg.fits(name);
      w' == w.(calls := w.calls + If(sent, call), invokes := w.invokes + 1, ids := w.ids + (if sent then 1 else 0),
               log := w.log + If(sent, Asked(call)))
  {
    assert w.calls + [] == w.calls && w.log + [] == w.log;
  }

  lemma TellIs(cfg: Config, w: World, name: string)
    ensures Tell(cfg, w, name)
         == w.(invokes := w.invokes + 1, log := w.log + If(cfg.fits(name), Told(name, w.invokes + 1)))
  {
    assert w.log + [] == w.log;
  }

  // Everything that goes out then, in order: the answer to the secure token, if there is one, createStream, the usher's
  // token, and a subscription for live or subscribed streams.
  lemma ConnectLog(cfg: Config, w: World, i: nat, c: Command)
    requires c.verb == "_result" && Matches(w, i, c.txn) && w.calls[i].name == "connect" && cfg.fits("createStream")
    ensures var w', create := Step(cfg, w, Handle(c)), Call("createStream", w.invokes + 1, w.ids);
      var n, sub := w.invokes + 1 + (if cfg.usher then 1 else 0), cfg.subscribe || cfg.live;
      var follow := Call("FCSubscribe", n + 1, w.ids + 1);
      && w'.calls == w.calls[..i] + w.calls[i + 1..] + [create] + If(sub && cfg.fits("FCSubscribe"), follow)
      && w'.log == w.log + [Answered(w.calls[i])]
           + If(cfg.token && c.hasToken && cfg.fits("secureTokenResponse"), Told("secureTokenResponse", 0))
           + [Asked(create)]
           + If(cfg.usher && cfg.fits("NetStream.Authenticate.UsherToken"), Told("NetStream.Authenticate.UsherToken", n))
           + If(sub && cfg.fits("FCSubscribe"), Asked(follow))
      && w'.invokes == n + (if sub then 1 else 0)
      && w' == w.(calls := w'.calls, invokes := w'.invokes, ids := w'.ids, log := w'.log)
  {
    hide AfterConnect;
    FirstIs(w.calls, c.txn, i);
    AfterConnectIs(cfg, Answer(w, i), c.hasToken);
  }

  lemma TokenIs(cfg: Config, w: World, send: bool)
    ensures (if send then TellAs(w, "secureTokenResponse", 0) else w)
         == w.(log := w.log + If(send, Told("secureTokenResponse", 0)))
  {
    assert w.log + [] == w.log;
  }

  lemma MaybeTell(cfg: Config, w: World, c: bool, name: string)
    ensures (if c then Tell(cfg, w, name) else w)
         == w.(invokes := w.invokes + (if c then 1 else 0), log := w.log + If(c && cfg.fits(name), Told(name, w.invokes + 1)))
  {
    TellIs(cfg, w, name);
    assert w.log + [] == w.log;
  }

  lemma MaybeAsk(cfg: Config, w: World, c: bool, name: string)
    ensures var call, sent := Call(name, w.invokes + 1, w.ids), c && cfg.fits(name);
      (if c then Ask(cfg, w, name) else w)
      == w.(calls := w.calls + If(sent, call), invokes := w.invokes + (if c then 1 else 0),
            ids := w.ids + (if sent then 1 else 0), log := w.log + If(sent, Asked(call)))
  {
    AskIs(cfg, w, name);
    assert w.calls + [] == w.calls && w.log + [] == w.log;
  }

  // The first two commands, and the other two.
  function FirstTwo(cfg: Config, w: World, hasToken: bool): World {
    var send := cfg.token && hasToken && cfg.fits("secureTokenResponse");
    Ask(cfg, if send then TellAs(w, "secureTokenResponse", 0) else w, "createStream")
  }

  function LastTwo(cfg: Config, w: World): World {
    var w1 := if cfg.usher then Tell(cfg, w, "NetStream.Authenticate.UsherToken") else w;
    if cfg.subscribe || cfg.live then Ask(cfg, w1, "FCSubscribe") else w1
  }

  lemma FirstTwoAre(cfg: Config, w: World, hasToken: bool)
    requires cfg.fits("createStream")
    ensures var create := Call("createStream", w.invokes + 1, w.ids);
      FirstTwo(cfg, w, hasToken)
      == w.(calls := w.calls + [create], invokes := w.invokes + 1, ids := w.ids + 1,
            log := w.log + If(cfg.token && hasToken && cfg.fits("secureTokenResponse"), Told("secureTokenResponse", 0))
              + [Asked(create)])
  {
    hide Ask, TellAs, If;
    var send := cfg.token && hasToken && cfg.fits("secureTokenResponse");
    TokenIs(cfg, w, send);
    AskSent(cfg, if send then TellAs(w, "secureTokenResponse", 0) else w, "createStream");
  }

  lemma LastTwoAre(cfg: Config, w: World)
    ensures var w', n, sub := LastTwo(cfg, w), w.invokes + (if cfg.usher then 1 else 0), cfg.subscribe || cfg.live;
      var follow := Call("FCSubscribe", n + 1, w.ids);
      w' == w.(calls := w.calls + If(sub && cfg.fits("FCSubscribe"), follow),
               invokes := n + (if sub then 1 else 0), ids := w'.ids,
               log := w.log
                 + If(cfg.usher && cfg.fits("NetStream.Authenticate.UsherToken"), Told("NetStream.Authenticate.UsherToken", n))
                 + If(sub && cfg.fits("FCSubscribe"), Asked(follow)))
  {
    hide Ask, Tell;
    MaybeTell(cfg, w, cfg.usher, "NetStream.Authenticate.UsherToken");
    var w1 := if cfg.usher then Tell(cfg, w, "NetStream.Authenticate.UsherToken") else w;
    MaybeAsk(cfg, w1, cfg.subscribe || cfg.live, "FCSubscribe");
  }

  lemma AfterConnectIs(cfg: Config, w: World, hasToken: bool)
    requires cfg.fits("createStream")
    ensures var w', create := AfterConnect(cfg, w, hasToken), Call("createStream", w.invokes + 1, w.ids);
      var n, sub := w.invokes + 1 + (if cfg.usher then 1 else 0), cfg.subscribe || cfg.live;
      var follow := Call("FCSubscribe", n + 1, w.ids + 1);
      w' == w.(calls := w.calls + [create] + If(sub && cfg.fits("FCSubscribe"), follow),
               invokes := n + (if sub then 1 else 0), ids := w'.ids,
               log := w.log + If(cfg.token && hasToken && cfg.fits("secureTokenResponse"), Told("secureTokenResponse", 0))
                 + [Asked(create)]
                 + If(cfg.usher && cfg.fits("NetStream.Authenticate.UsherToken"), Told("NetStream.Authenticate.UsherToken", n))
                 + If(sub && cfg.fits("FCSubscribe"), Asked(follow)))
  {
    BothTwo(cfg, w, hasToken);
    hide Ask, Tell, TellAs, If, FirstTwo, LastTwo, AfterConnect;
    FirstTwoAre(cfg, w, hasToken);
    LastTwoAre(cfg, FirstTwo(cfg, w, hasToken));
  }

  lemma BothTwo(cfg: Config, w: World, hasToken: bool)
    ensures AfterConnect(cfg, w, hasToken) == LastTwo(cfg, FirstTwo(cfg, w, hasToken))
  {
    hide Ask, Tell, TellAs;
  }

  lemma AskSent(cfg: Config, w: World, name: string)
    requires cfg.fits(name)
    ensures var call := Call(name, w.invokes + 1, w.ids);
      Ask(cfg, w, name)
      == w.(calls := w.calls + [call], invokes := w.invokes + 1, ids := w.ids + 1, log := w.log + [Asked(call)])
  {
  }

  // A createStream is answered: the stream id is kept, and a play with the next number goes out, last, and is waited for.
  lemma CreateAnswered(cfg: Config, w: World, i: nat, c: Command)
    requires Inv(w) && c.verb == "_result" && Matches(w, i, c.txn) && w.calls[i].name == "createStream" && cfg.fits("play")
    ensures var w' := Step(cfg, w, Handle(c));
      var list := cfg.playlist && cfg.fits("set_playlist");
      var play := Call("play", w.invokes + 1, w.ids + if list then 1 else 0);
      && w'.streamId == c.streamId && w'.invokes == w.invokes + 1 == play.txn
      && w'.log == w.log + [Answered(w.calls[i])]
           + (if list then [Asked(Call("set_playlist", 0, w.ids))] else []) + [Asked(play)]
      && play in w'.calls && w.calls[i] !in w'.calls && w'.past == w.past && w'.playing == w.playing
  {
    hide Inv, Orderly;
    FirstIs(w.calls, c.txn, i);
    StepKeeps(cfg, w, Handle(c));
    IsPending(Step(cfg, w, Handle(c)), w.calls[i], w.calls[i]);
  }

  // A play is answered, or a publish: the client is playing.
  lemma PlayAnswered(cfg: Config, w: World, i: nat, c: Command)
    requires c.verb == "_result" && Matches(w, i, c.txn) && (w.calls[i].name == "play" || w.calls[i].name == "publish")
    ensures var w' := Step(cfg, w, Handle(c));
      && w'.playing && Removed(w'.calls, w.calls, i) && w'.log == w.log + [Answered(w.calls[i])]
      && w' == w.(playing := true, calls := w'.calls, log := w'.log)
  {
    FirstIs(w.calls, c.txn, i);
  }

  // Another request is answered: it is waited for no longer. An answer to nothing changes nothing.
  lemma OtherAnswered(cfg: Config, w: World, i: nat, c: Command)
    requires c.verb == "_result" && Matches(w, i, c.txn)
    requires var name := w.calls[i].name;
      name != "connect" && name != "createStream" && name != "play" && name != "publish"
    ensures var w' := Step(cfg, w, Handle(c));
      && Removed(w'.calls, w.calls, i) && w' == w.(calls := w'.calls, log := w.log + [Answered(w.calls[i])])
  {
    FirstIs(w.calls, c.txn, i);
  }

  lemma NothingAnswered(cfg: Config, w: World, c: Command)
    requires c.verb == "_result" && forall x | x in w.calls :: x.txn != c.txn
    ensures Step(cfg, w, Handle(c)) == w
  {
    FirstIs(w.calls, c.txn, |w.calls|);
  }

  // After connect; after its answer, in front of createStream there is nothing; after the answer to that, play is the
  // only one with its number.
  lemma Connected(cfg: Config)
    requires cfg.fits("connect")
    ensures Step(cfg, INITIAL, Connect).calls == [Call("connect", 1, 0)]
    ensures var w := Step(cfg, INITIAL, Connect);
      w.connected && w.invokes == 1 && w.ids == 1 && !w.playing
  {
  }

  lemma CreateWaits(cfg: Config, w: World, hasToken: bool)
    requires cfg.fits("createStream") && w.calls == [Call("connect", 1, 0)] && w.invokes == 1
    ensures var w' := Step(cfg, w, Reply(1, 0, hasToken));
      && w'.calls != [] && w'.calls[0].name == "createStream" && w'.calls[0].txn == 2
      && (forall j | 0 < j < |w'.calls| :: w'.calls[j].name == "FCSubscribe")
      && w'.invokes == 2 + (if cfg.usher then 1 else 0) + (if cfg.subscribe || cfg.live then 1 else 0)
      && w'.connected == w.connected
  {
    hide Step;
    ConnectLog(cfg, w, 0, Command("_result", 1, 0, "", hasToken));
  }

  lemma PlayWaits(cfg: Config, w: World, streamId: int)
    requires cfg.fits("play") && w.calls != [] && w.calls[0].name == "createStream" && w.calls[0].txn == 2
    requires Numbered(w) && w.invokes >= 2
    ensures var w' := Step(cfg, w, Reply(2, streamId, false));
      && w'.calls != [] && Matches(w', |w'.calls| - 1, w.invokes + 1) && w'.calls[|w'.calls| - 1].name == "play"
      && w'.streamId == streamId && w'.invokes == w.invokes + 1 && w'.connected == w.connected
  {
    FirstIs(w.calls, 2, 0);
    var rest := w.calls[..0] + w.calls[1..];
    assert forall j | 0 <= j < |rest| :: rest[j] == w.calls[j + 1] && rest[j].txn <= w.invokes;
  }

  // A server that answers connect, createStream and play, in that order, gets the client to play the stream it names,
  // whatever else the client is set up to send.
  lemma StreamStarts(cfg: Config, streamId: int, hasToken: bool)
    requires cfg.fits("connect") && cfg.fits("createStream") && cfg.fits("play")
    ensures var n := 3 + (if cfg.usher then 1 else 0) + (if cfg.subscribe || cfg.live then 1 else 0);
      var w := Run(cfg, INITIAL, [Connect, Reply(1, 0, hasToken), Reply(2, streamId, false), Reply(n, 0, false)]);
      w.playing && w.streamId == streamId && w.connected && w.invokes == n
  {
    var n := 3 + (if cfg.usher then 1 else 0) + (if cfg.subscribe || cfg.live then 1 else 0);
    var ops := [Connect, Reply(1, 0, hasToken), Reply(2, streamId, false), Reply(n, 0, false)];
    hide Step, Inv, Numbered;
    StartsGood();
    StepKeeps(cfg, INITIAL, Connect);
    Connected(cfg);
    var w1 := Step(cfg, INITIAL, Connect);
    StepKeeps(cfg, w1, ops[1]);
    CreateWaits(cfg, w1, hasToken);
    var w2 := Step(cfg, w1, ops[1]);
    GoodIsNumbered(w2);
    PlayWaits(cfg, w2, streamId);
    var w3 := Step(cfg, w2, ops[2]);
    PlayAnswered(cfg, w3, |w3.calls| - 1, ops[3].c);
    FourSteps(cfg, ops);
  }

  lemma GoodIsNumbered(w: World)
    requires Inv(w)
    ensures Numbered(w)
  {
  }

  lemma FourSteps(cfg: Config, ops: seq<Op>)
    requires |ops| == 4
    ensures Run(cfg, INITIAL, ops) == Step(cfg, Step(cfg, Step(cfg, Step(cfg, INITIAL, ops[0]), ops[1]), ops[2]), ops[3])
  {
    hide Step;
    var w1 := Step(cfg, INITIAL, ops[0]);
    var w2 := Step(cfg, w1, ops[1]);
    var w3 := Step(cfg, w2, ops[2]);
    assert Run(cfg, INITIAL, ops) == Run(cfg, w1, ops[1..]);
    assert Run(cfg, w1, ops[1..]) == Run(cfg, w2, ops[1..][1..]);
    assert Run(cfg, w2, ops[1..][1..]) == Run(cfg, w3, ops[1..][1..][1..]);
    assert ops[1..][1..][1..] == [ops[3]] && [ops[3]][1..] == [];
    assert Run(cfg, w3, [ops[3]]) == Run(cfg, Step(cfg, w3, ops[3]), []);
  }

  // ---------- Other commands ----------

  // RTMP_Close: a live stream is deleted first; then nothing is waited for, and the next connection starts afresh.
  predicate Closed(w': World, w: World, cfg: Config) {
    && w'.calls == [] && w'.invokes == 0 && !w'.playing && w'.streamId == -1 && !w'.connected && w'.log == []
    && w'.ids == w.ids && w'.checks == 0 && w'.pausing == w.pausing
    && |w'.past| == |w.past| + 1 && w'.past[..|w.past|] == w.past
    && w'.past[|w.past|]
       == w.log + if w.connected && w.streamId > 0 && cfg.fits("deleteStream") then [Told("deleteStream", w.invokes + 1)] else []
  }

  // The first pending request of that name is forgotten, if there is one.
  predicate Forgotten(w': World, w: World, name: string) {
    if exists x | x in w.calls :: x.name == name then
      && w' == w.(calls := w'.calls, log := w'.log)
      && exists i | 0 <= i < |w.calls| ::
           && w.calls[i].name == name && (forall j | 0 <= j < i :: w.calls[j].name != name)
           && Removed(w'.calls, w.calls, i) && w'.log == w.log + [Dropped(w.calls[i])]
    else w' == w
  }

  lemma DropIs(w: World, name: string)
    ensures Forgotten(DropNamed(w, name), w, name)
  {
    var i := FirstByName(w.calls, name);
    if i < |w.calls| {
      assert w.calls[i] in w.calls;
    }
  }

  lemma CloseIs(cfg: Config, w: World)
    ensures Closed(Close(cfg, w), w, cfg)
  {
    assert w.log + [] == w.log;
  }

  // Commands other than answers: bandwidth checks and pings are answered, with their own number; the end of a
  // subscription or of the connection closes it.
  lemma CommandsDo(cfg: Config, w: World, c: Command)
    ensures c.verb == "ping" ==> Step(cfg, w, Handle(c)) == w.(log := w.log + [Told("pong", c.txn)])
    ensures c.verb == "_onbwcheck" ==>
      Step(cfg, w, Handle(c)) == w.(log := w.log + [Told("_result", c.txn)], checks := w.checks + 1)
    ensures c.verb == "onBWDone" ==>
      Step(cfg, w, Handle(c))
      == if w.checks > 0 then w
         else w.(invokes := w.invokes + 1,
                 log := w.log + if cfg.fits("_checkbw") then [Told("_checkbw", w.invokes + 1)] else [])
    ensures c.verb == "close" || c.verb == "onFCUnsubscribe" ==> Closed(Step(cfg, w, Handle(c)), w, cfg)
    ensures c.verb == "_onbwdone" ==> Forgotten(Step(cfg, w, Handle(c)), w, "_checkbw")
    ensures c.verb == "playlist_ready" ==> Forgotten(Step(cfg, w, Handle(c)), w, "set_playlist")
    ensures c.verb == "onFCSubscribe" || c.verb == "_error" ==> Step(cfg, w, Handle(c)) == w
  {
    hide Closed, Forgotten, Close, DropNamed;
    CloseIs(cfg, w);
    DropIs(w, "_checkbw");
    DropIs(w, "set_playlist");
    assert w.log + [] == w.log;
  }

  // A status: failures and the end of the play close the connection.
  lemma StatusCloses(cfg: Config, w: World, c: Command)
    requires c.verb == "onStatus"
    ensures c.code == "NetStream.Failed" || c.code == "NetStream.Play.Failed" || c.code == "NetStream.Play.StreamNotFound"
            || c.code == "NetConnection.Connect.InvalidApp" ==>
      Closed(Step(cfg, w, Handle(c)), w.(streamId := -1), cfg)
    ensures c.code == "NetStream.Play.Complete" || c.code == "NetStream.Play.Stop"
            || c.code == "NetStream.Play.UnpublishNotify" ==>
      Closed(Step(cfg, w, Handle(c)), w, cfg)
  {
    hide Closed, Close, DropNamed, Ask;
    CloseIs(cfg, w);
    CloseIs(cfg, w.(streamId := -1));
  }

  // The start of a play sets the client playing, and a play still waited for is forgotten.
  lemma StatusStarts(cfg: Config, w: World, c: Command)
    requires c.verb == "onStatus"
    ensures c.code == "NetStream.Play.Start" || c.code == "NetStream.Play.PublishNotify" ==>
      Forgotten(Step(cfg, w, Handle(c)), w.(playing := true), "play")
    ensures c.code == "NetStream.Publish.Start" ==>
      Forgotten(Step(cfg, w, Handle(c)), w.(playing := true), "publish")
  {
    hide Forgotten, Close, DropNamed, Ask;
    DropIs(w.(playing := true), "play");
    DropIs(w.(playing := true), "publish");
  }

  // A pause that was asked for is asked for once more.
  lemma StatusPauses(cfg: Config, w: World, c: Command)
    requires c.verb == "onStatus" && c.code == "NetStream.Pause.Notify"
    ensures w.pausing != 1 && w.pausing != 2 ==> Step(cfg, w, Handle(c)) == w
    ensures w.pausing == 1 || w.pausing == 2 ==>
      var w', pause := Step(cfg, w, Handle(c)), Call("pause", w.invokes + 1, w.ids);
      && w'.pausing == 3 && w'.invokes == w.invokes + 1
      && w'.log == w.log + If(cfg.fits("pause"), Asked(pause)) && w'.calls == w.calls + If(cfg.fits("pause"), pause)
  {
    hide Close, DropNamed;
    assert w.log + [] == w.log && w.calls + [] == w.calls;
  }
}
