/** The per-channel `ChatManager` of server.js and the `managers` map of the
    WebSocket connection handler. Timers become explicit steps: a pending
    `flushTimer` is a count of scheduled flush callbacks, and the 800 ms poll is
    a `LoopTick` step whose attach outcome is a parameter. Sockets are opaque
    client ids; a broadcast records the batch and the clients it went to. */
module ChatManager {
  import opened Wrappers

  type ClientId = nat

  /** One `broadcast({ type: "batch", messages })` call. */
  datatype Broadcast<M> = Broadcast(to: set<ClientId>, messages: seq<M>)

  datatype Manager<M> = Manager(
    channelId: string,
    clients: set<ClientId>,
    outQueue: seq<M>,
    /** flush callbacks scheduled and not yet run */
    pendingFlushes: nat,
    stopped: bool,
    /** the poll timer is armed */
    timerArmed: bool,
    hasLivechat: bool,
    waitingShown: bool,
    /** the broadcasts made so far, oldest first */
    sent: seq<Broadcast<M>>)

  /** `new ChatManager(channelId, yt)`. */
  function NewManager<M>(channelId: string): (m: Manager<M>)
    ensures m.channelId == channelId && m.clients == {} && m.outQueue == [] && m.sent == []
    ensures Inv(m)
  {
    Manager(channelId, {}, [], 0, false, false, false, false, [])
  }

  /** At most one flush is scheduled, queued messages always have one, and no
      broadcast is empty. */
  predicate Inv<M>(m: Manager<M>) {
    && m.pendingFlushes <= 1
    && (|m.outQueue| > 0 ==> m.pendingFlushes == 1)
    && (forall i :: 0 <= i < |m.sent| ==> |m.sent[i].messages| > 0)
  }

  /** `addClient(ws)`. */
  function AddClient<M>(m: Manager<M>, ws: ClientId): (m': Manager<M>)
    ensures m'.clients == m.clients + {ws}
    ensures m' == m.(clients := m'.clients)
  {
    m.(clients := m.clients + {ws})
  }

  /** The `close` handler `addClient` installs. */
  function CloseClient<M>(m: Manager<M>, ws: ClientId): (m': Manager<M>)
    ensures m'.clients == m.clients - {ws}
    ensures m' == m.(clients := m'.clients)
  {
    m.(clients := m.clients - {ws})
  }

  /** `enqueueMessage(message)`: queue it, and schedule a flush unless one is
      already scheduled. */
  function Enqueue<M>(m: Manager<M>, msg: M): (m': Manager<M>)
    ensures m'.outQueue == m.outQueue + [msg]
    ensures m.pendingFlushes > 0 ==> m'.pendingFlushes == m.pendingFlushes
    ensures m.pendingFlushes == 0 ==> m'.pendingFlushes == 1
    ensures m'.sent == m.sent && m'.clients == m.clients
    ensures Inv(m) ==> Inv(m')
  {
    m.(outQueue := m.outQueue + [msg], pendingFlushes := if m.pendingFlushes > 0 then m.pendingFlushes else 1)
  }

  /** The flush callback: the whole queue goes out as one batch to the current
      clients, nothing goes out when the queue is empty, and the queue is left
      empty. Without a scheduled callback nothing happens. */
  function Flush<M>(m: Manager<M>): (m': Manager<M>)
    ensures m.pendingFlushes == 0 ==> m' == m
    ensures m.pendingFlushes > 0 ==> m'.outQueue == [] && m'.pendingFlushes == m.pendingFlushes - 1
    ensures m.pendingFlushes > 0 && |m.outQueue| > 0 ==> m'.sent == m.sent + [Broadcast(m.clients, m.outQueue)]
    ensures |m.outQueue| == 0 ==> m'.sent == m.sent
    ensures Inv(m) ==> Inv(m')
  {
    if m.pendingFlushes == 0 then m
    else
      var batch := m.outQueue;
      var sent := if |batch| > 0 then m.sent + [Broadcast(m.clients, batch)] else m.sent;
      m.(outQueue := [], sent := sent, pendingFlushes := m.pendingFlushes - 1)
  }

  /** `stop()`: the poll timer is cleared and the live chat dropped. */
  function Stop<M>(m: Manager<M>): (m': Manager<M>)
    ensures m'.stopped && !m'.timerArmed && !m'.hasLivechat
    ensures m'.clients == m.clients && m'.outQueue == m.outQueue && m'.sent == m.sent
    ensures Inv(m) ==> Inv(m')
  {
    m.(stopped := true, timerArmed := false, hasLivechat := false)
  }

  /** Outcome of `attach()`: a live chat was found and attached, or it threw. */
  datatype Attach = Attached | Failed

  /** One run of `loop()`. A stopped manager does nothing and re-arms nothing;
      otherwise it attaches when it has no live chat, and re-arms the timer
      whatever happened. */
  function LoopTick<M>(m: Manager<M>, attach: Attach): (m': Manager<M>)
    ensures m.stopped ==> m' == m
    ensures !m.stopped ==> m'.timerArmed
    ensures !m.stopped && m.hasLivechat ==> m' == m.(timerArmed := true)
    ensures !m.stopped && !m.hasLivechat ==> (m'.hasLivechat <==> attach == Attached)
    ensures !m.stopped && !m.hasLivechat && attach == Failed ==> m'.waitingShown
    ensures m'.clients == m.clients && m'.outQueue == m.outQueue && m'.sent == m.sent
  {
    if m.stopped then m
    else if m.hasLivechat then m.(timerArmed := true)
    else
      match attach
      case Attached => m.(hasLivechat := true, waitingShown := false, timerArmed := true)
      case Failed => m.(waitingShown := true, timerArmed := true)
  }

  /** `start()`: clears the stop flag and runs the loop once. */
  function Start<M>(m: Manager<M>, attach: Attach): (m': Manager<M>)
    ensures !m'.stopped && m'.timerArmed
    ensures m'.clients == m.clients && m'.outQueue == m.outQueue && m'.sent == m.sent
  {
    LoopTick(m.(stopped := false), attach)
  }

  /** The live chat's `end` and `error` events: back to silent waiting. */
  function ChatEnded<M>(m: Manager<M>): (m': Manager<M>)
    ensures !m'.hasLivechat && m'.waitingShown
    ensures m'.clients == m.clients && m'.outQueue == m.outQueue && m'.sent == m.sent
  {
    m.(hasLivechat := false, waitingShown := true)
  }

  /** What can happen to a manager. */
  datatype Event<M> =
    | Enq(msg: M)
    | FlushFires
    | Add(ws: ClientId)
    | Close(ws: ClientId)
    | Halt
    | Tick(attach: Attach)
    | Ended

  function Step<M>(m: Manager<M>, e: Event<M>): Manager<M> {
    match e
    case Enq(msg) => Enqueue(m, msg)
    case FlushFires => Flush(m)
    case Add(ws) => AddClient(m, ws)
    case Close(ws) => CloseClient(m, ws)
    case Halt => Stop(m)
    case Tick(a) => LoopTick(m, a)
    case Ended => ChatEnded(m)
  }

  /** The manager after a sequence of events. */
  function Run<M>(m: Manager<M>, events: seq<Event<M>>): Manager<M> {
    if |events| == 0 then m else Step(Run(m, events[..|events| - 1]), events[|events| - 1])
  }

  /** The messages enqueued by a sequence of events, in order. */
  function Enqueued<M>(events: seq<Event<M>>): seq<M> {
    if |events| == 0 then []
    else
      var e := events[|events| - 1];
      Enqueued(events[..|events| - 1]) + if e.Enq? then [e.msg] else []
  }

  /** The messages of a list of broadcasts, in order. */
  function Delivered<M>(sent: seq<Broadcast<M>>): seq<M> {
    if |sent| == 0 then [] else Delivered(sent[..|sent| - 1]) + sent[|sent| - 1].messages
  }

  /** From a fresh manager, every enqueued message is either broadcast or still
      queued, exactly once and in the order it was enqueued; at most one flush
      is ever pending and no broadcast is empty. */
  lemma {:induction false} RunConserves<M>(channelId: string, events: seq<Event<M>>)
    ensures Inv(Run(NewManager(channelId), events))
    ensures
      var m := Run(NewManager(channelId), events);
      Delivered(m.sent) + m.outQueue == Enqueued(events)
  {
    if |events| > 0 {
      var prefix := events[..|events| - 1];
      var e := events[|events| - 1];
      RunConserves(channelId, prefix);
      var m := Run(NewManager<M>(channelId), prefix);
      var m' := Step(m, e);
      assert Run(NewManager(channelId), events) == m';
      match e {
        case Enq(msg) =>
          assert Delivered(m'.sent) + m'.outQueue == (Delivered(m.sent) + m.outQueue) + [msg];
        case FlushFires =>
          if m.pendingFlushes > 0 && |m.outQueue| > 0 {
            assert m'.sent[..|m'.sent| - 1] == m.sent;
            assert Delivered(m'.sent) == Delivered(m.sent) + m.outQueue;
          }
        case Add(_) =>
        case Close(_) =>
        case Halt =>
        case Tick(_) =>
        case Ended =>
      }
    }
  }

  /** The `managers` map: one manager per channel, stored under its own id. */
  type Registry<M> = map<string, Manager<M>>

  predicate RegistryInv<M>(reg: Registry<M>) {
    forall k :: k in reg ==> reg[k].channelId == k
  }

  /** The connection handler: a connection without a `channelId`, or arriving
      while the YouTube client cannot be created, is closed and changes nothing.
      Otherwise the channel's manager gains the client, and a channel seen for
      the first time gets a new, started manager. Managers are never removed. */
  function Connect<M>(reg: Registry<M>, channelId: Option<string>, ytReady: bool, ws: ClientId, attach: Attach)
    : (res: (Registry<M>, bool))
    ensures !res.1 <==> channelId.None? || channelId.value == "" || !ytReady
    ensures !res.1 ==> res.0 == reg
    ensures res.1 ==>
      var ch := channelId.value;
      && res.0.Keys == reg.Keys + {ch}
      && (forall k :: k in reg && k != ch ==> res.0[k] == reg[k])
      && (ch in reg ==> res.0[ch] == AddClient(reg[ch], ws))
      && (ch !in reg ==> res.0[ch].clients == {ws} && res.0[ch].channelId == ch && !res.0[ch].stopped)
    ensures RegistryInv(reg) ==> RegistryInv(res.0)
    ensures reg.Keys <= res.0.Keys
  {
    if channelId.None? || channelId.value == "" || !ytReady then (reg, false)
    else
      var ch := channelId.value;
      var mgr := if ch in reg then reg[ch] else Start(NewManager(ch), attach);
      (reg[ch := AddClient(mgr, ws)], true)
  }

  /** A later connection for a channel joins the manager the first one created:
      two connections never make two managers. */
  lemma {:induction false} ConnectTwice<M>(reg: Registry<M>, ch: string, ws1: ClientId, ws2: ClientId, a1: Attach, a2: Attach)
    requires ch != "" && ch !in reg
    ensures
      var r1 := Connect(reg, Some(ch), true, ws1, a1).0;
      var r2 := Connect(r1, Some(ch), true, ws2, a2).0;
      && r2.Keys == reg.Keys + {ch}
      && r2[ch].clients == {ws1, ws2}
      && r2[ch] == AddClient(r1[ch], ws2)
  {
    var r1 := Connect(reg, Some(ch), true, ws1, a1).0;
    assert ch in r1;
  }
}
