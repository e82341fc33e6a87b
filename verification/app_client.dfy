/** The chat page of public/app.js: which stream it asks the server for, how
    it reads the server's messages, and how `pump` reveals queued chat messages
    in batches. The `await` in `pump` is an explicit `Resume` step. */
module AppClient {
  import opened Wrappers
  import opened JsText
  import Bots
  import ChatManager

  const BatchSize: nat := 6

  /** A query string, as its name/value pairs in order. */
  type Query = seq<(string, string)>

  /** `URLSearchParams.get(name)`: the value of the first pair with that name. */
  function Get(q: Query, name: string): (r: Option<string>)
    ensures r.None? <==> forall i :: 0 <= i < |q| ==> q[i].0 != name
    ensures r.Some? ==> exists i :: 0 <= i < |q| && q[i] == (name, r.value) && forall j :: 0 <= j < i ==> q[j].0 != name
  {
    if |q| == 0 then None
    else if q[0].0 == name then Some(q[0].1)
    else
      var r := Get(q[1..], name);
      assert forall i :: 1 <= i < |q| ==> q[i] == q[1..][i - 1];
      r
  }

  /** `a || b` on a parameter: a missing or empty value falls back. */
  function OrElse(a: Option<string>, b: string): (r: string)
    ensures a.Some? && a.value != "" ==> r == a.value
    ensures !(a.Some? && a.value != "") ==> r == b
  {
    if a.Some? && a.value != "" then a.value else b
  }

  /** `qs.get("channelId") || ""`. */
  function ChannelIdOf(q: Query): (id: string)
    ensures id != "" ==> Get(q, "channelId") == Some(id)
    ensures id == "" <==> OrElse(Get(q, "channelId"), "") == ""
  {
    OrElse(Get(q, "channelId"), "")
  }

  /** `qs.get("liveId") || qs.get("videoId") || ""`: the live id, or else the
      video id. */
  function LiveIdOf(q: Query): (id: string)
    ensures id != "" <==> OrElse(Get(q, "liveId"), "") != "" || OrElse(Get(q, "videoId"), "") != ""
    ensures OrElse(Get(q, "liveId"), "") != "" ==> id == Get(q, "liveId").value
    ensures OrElse(Get(q, "liveId"), "") == "" ==> id == OrElse(Get(q, "videoId"), "")
  {
    OrElse(Get(q, "liveId"), OrElse(Get(q, "videoId"), ""))
  }

  /** `qs.get("handle") || (channelId.startsWith("@") ? channelId : "")`: the
      handle, or else a channel id written as an `@` handle. */
  function HandleOf(q: Query): (h: string)
    ensures OrElse(Get(q, "handle"), "") != "" ==> h == Get(q, "handle").value
    ensures h == "" <==> OrElse(Get(q, "handle"), "") == "" && !StartsWith(ChannelIdOf(q), "@")
    ensures OrElse(Get(q, "handle"), "") == "" && StartsWith(ChannelIdOf(q), "@") ==> h == ChannelIdOf(q)
  {
    var channelId := ChannelIdOf(q);
    OrElse(Get(q, "handle"), if StartsWith(channelId, "@") then channelId else "")
  }

  /** `if (channelId || liveId || handle) connect()`: the page opens a socket
      exactly when one of the four parameters it reads is set and not empty. */
  function Connects(q: Query): (opens: bool)
    ensures opens <==>
      || OrElse(Get(q, "channelId"), "") != ""
      || OrElse(Get(q, "liveId"), "") != ""
      || OrElse(Get(q, "videoId"), "") != ""
      || OrElse(Get(q, "handle"), "") != ""
  {
    ChannelIdOf(q) != "" || LiveIdOf(q) != "" || HandleOf(q) != ""
  }

  /** The parameters `connect` sets on the socket URL: only the non-empty ones,
      `liveId` first, then `channelId`, then `handle`. */
  function ConnectParams(liveId: string, channelId: string, handle: string): (q: Query)
    ensures forall i :: 0 <= i < |q| ==> q[i].1 != ""
    ensures |q| <= 3
  {
    (if liveId != "" then [("liveId", liveId)] else [])
    + (if channelId != "" then [("channelId", channelId)] else [])
    + (if handle != "" then [("handle", handle)] else [])
  }

  /** The server reads back what the page set, and finds nothing it did not. */
  lemma ConnectParamsRead(liveId: string, channelId: string, handle: string)
    ensures Get(ConnectParams(liveId, channelId, handle), "channelId") == if channelId != "" then Some(channelId) else None
    ensures Get(ConnectParams(liveId, channelId, handle), "liveId") == if liveId != "" then Some(liveId) else None
    ensures Get(ConnectParams(liveId, channelId, handle), "handle") == if handle != "" then Some(handle) else None
  {
    var q := ConnectParams(liveId, channelId, handle);
    if channelId != "" {
      assert ("channelId", channelId) in q;
    }
    if liveId != "" {
      assert q[0] == ("liveId", liveId);
    }
    if handle != "" {
      assert q[|q| - 1] == ("handle", handle);
    }
  }

  /** The server's handler reads only `channelId`: a page opened with only a
      live id or a handle connects, and the server turns the socket away. */
  lemma ServerNeedsChannel<M>(q: Query, reg: ChatManager.Registry<M>, ytReady: bool, ws: ChatManager.ClientId, attach: ChatManager.Attach)
    ensures
      var sent := ConnectParams(LiveIdOf(q), ChannelIdOf(q), HandleOf(q));
      var (_, accepted) := ChatManager.Connect(reg, Get(sent, "channelId"), ytReady, ws, attach);
      accepted <==> ChannelIdOf(q) != "" && ytReady
  {
    ConnectParamsRead(LiveIdOf(q), ChannelIdOf(q), HandleOf(q));
  }

  /** A message from the server, as `onmessage` distinguishes it. Optional
      strings are "" when missing. */
  datatype WsMessage<M> =
    | ErrorMessage(message: string, details: string)
    /** `author` is `data.author.name`, "" when missing */
    | Chat(author: string, data: M)
    /** any other type, or text that is not JSON */
    | Ignored

  const LogPrefix := "[overlay] "

  /** The text logged for an error message: the prefix, the message or
      "Server error" when it is missing, and the details in parentheses when
      there are any. */
  function ErrorText(message: string, details: string): (t: string)
    ensures |t| >= |LogPrefix| && t[..|LogPrefix|] == LogPrefix
    ensures message != "" ==> |t| >= |LogPrefix| + |message| && t[|LogPrefix|..|LogPrefix| + |message|] == message
    ensures message == "" ==> |t| >= |LogPrefix| + 12 && t[|LogPrefix|..|LogPrefix| + 12] == "Server error"
    ensures details == "" <==> |t| == |LogPrefix| + |if message != "" then message else "Server error"|
    ensures details != "" ==> |t| >= |details| + 3 && t[|t| - |details| - 3..] == " (" + details + ")"
    ensures details != "" ==> |t| == |LogPrefix| + |if message != "" then message else "Server error"| + |details| + 3
  {
    var m := if message != "" then message else "Server error";
    var d := if details != "" then " (" + details + ")" else "";
    var t := LogPrefix + m + d;
    assert t[..|LogPrefix|] == LogPrefix;
    assert t[|LogPrefix|..|LogPrefix| + |m|] == m;
    t
  }

  datatype Page<M> = Page(queue: seq<M>, pumping: bool, batches: seq<seq<M>>)

  function InitialPage<M>(): (p: Page<M>)
    ensures Inv(p)
  {
    Page([], false, [])
  }

  /** When `pump` is not running nothing waits in the queue, and every batch
      revealed holds one to six messages. */
  predicate Inv<M>(p: Page<M>) {
    && (!p.pumping ==> p.queue == [])
    && forall i :: 0 <= i < |p.batches| ==> 0 < |p.batches[i]| <= BatchSize
  }

  /** One turn of `pump`'s loop: `queue.splice(0, 6)` revealed as a batch, or
      the end of the loop on an empty queue. */
  function PumpTurn<M>(p: Page<M>): (p': Page<M>)
    requires p.pumping
    ensures |p.queue| == 0 ==> p' == p.(pumping := false)
    ensures |p.queue| > 0 ==> p'.pumping && |p'.batches| == |p.batches| + 1 && p'.batches[..|p.batches|] == p.batches
    ensures |p.queue| > 0 ==>
      var b := p'.batches[|p'.batches| - 1];
      && 0 < |b| <= BatchSize
      && b + p'.queue == p.queue
      && (|p'.queue| > 0 ==> |b| == BatchSize)
  {
    if |p.queue| == 0 then p.(pumping := false)
    else
      var n := if |p.queue| < BatchSize then |p.queue| else BatchSize;
      assert p.queue[..n] + p.queue[n..] == p.queue;
      p.(queue := p.queue[n..], batches := p.batches + [p.queue[..n]])
  }

  /** `queue.push(msg.data); pump()`: a call while `pump` runs returns at once;
      otherwise `pump` starts and reveals the first batch before its first
      `await`. */
  function Push<M>(p: Page<M>, m: M): (p': Page<M>)
    ensures p'.pumping
    ensures p.pumping ==> p' == p.(queue := p.queue + [m])
  {
    var p1 := p.(queue := p.queue + [m]);
    if p.pumping then p1 else PumpTurn(p1.(pumping := true))
  }

  /** The `await` in `pump` resolves and the loop goes on. */
  function Resume<M>(p: Page<M>): (p': Page<M>)
    ensures !p.pumping ==> p' == p
  {
    if p.pumping then PumpTurn(p) else p
  }

  /** `onmessage`: errors are logged, chat from blocked bots dropped, other
      chat pushed; any other message is ignored. */
  function OnMessage<M>(p: Page<M>, msg: WsMessage<M>): (res: (Page<M>, Option<string>))
    ensures msg.ErrorMessage? <==> res.1.Some?
    ensures msg.ErrorMessage? ==> res == (p, Some(ErrorText(msg.message, msg.details)))
    ensures msg.Chat? && !Bots.IsBlockedBot(msg.author) ==> res.0 == Push(p, msg.data)
    ensures !(msg.Chat? && !Bots.IsBlockedBot(msg.author)) ==> res.0 == p
  {
    match msg
    case ErrorMessage(m, d) => (p, Some(ErrorText(m, d)))
    case Chat(author, data) => if Bots.IsBlockedBot(author) then (p, None) else (Push(p, data), None)
    case Ignored => (p, None)
  }

  datatype Event<M> = Receive(msg: WsMessage<M>) | Tick

  function Step<M>(p: Page<M>, e: Event<M>): Page<M> {
    match e
    case Receive(msg) => OnMessage(p, msg).0
    case Tick => Resume(p)
  }

  /** The page after a sequence of events. */
  function Run<M>(events: seq<Event<M>>): Page<M> {
    if |events| == 0 then InitialPage()
    else Step(Run(events[..|events| - 1]), events[|events| - 1])
  }

  /** The chat messages the page keeps, in arrival order. */
  function Accepted<M>(events: seq<Event<M>>): seq<M> {
    if |events| == 0 then []
    else
      var e := events[|events| - 1];
      Accepted(events[..|events| - 1])
      + if e.Receive? && e.msg.Chat? && !Bots.IsBlockedBot(e.msg.author) then [e.msg.data] else []
  }

  function Flatten<M>(bs: seq<seq<M>>): seq<M> {
    if |bs| == 0 then [] else Flatten(bs[..|bs| - 1]) + bs[|bs| - 1]
  }

  lemma PumpTurnKeeps<M>(p: Page<M>)
    requires p.pumping && Inv(p)
    ensures Inv(PumpTurn(p))
    ensures Flatten(PumpTurn(p).batches) + PumpTurn(p).queue == Flatten(p.batches) + p.queue
  {
    var p' := PumpTurn(p);
    if |p.queue| > 0 {
      var b := p'.batches[|p'.batches| - 1];
      assert p'.batches[..|p'.batches| - 1] == p.batches;
      assert Flatten(p'.batches) == Flatten(p.batches) + b;
    }
  }

  /** Nothing is lost, duplicated or reordered: the batches revealed so far
      followed by the waiting queue are exactly the chat messages accepted, in
      order, and every batch holds one to six messages. */
  lemma {:induction false} RunReveals<M>(events: seq<Event<M>>)
    ensures Inv(Run(events))
    ensures Flatten(Run(events).batches) + Run(events).queue == Accepted(events)
  {
    if |events| > 0 {
      var init := events[..|events| - 1];
      var e := events[|events| - 1];
      RunReveals(init);
      var p := Run(init);
      match e
      case Tick =>
        if p.pumping {
          PumpTurnKeeps(p);
        }
      case Receive(msg) =>
        if msg.Chat? && !Bots.IsBlockedBot(msg.author) {
          var p1 := p.(queue := p.queue + [msg.data]);
          if !p.pumping {
            PumpTurnKeeps(p1.(pumping := true));
          }
        }
    }
  }
}
