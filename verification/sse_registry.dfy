/** The server of index.js: its `activeChats` map, which holds both the open
    event-stream connections of an overlay (under the overlay id) and the
    running LiveChat instance (under `instance_<overlay id>`), the chat-item to
    message mapping, the fan-out of each message, and the validation of
    `/generate-overlay`. Connections and LiveChat instances are opaque ids. The
    map does not keep its two kinds of entry apart: where a route finds the
    other kind under its key, the JavaScript call it makes throws, and the model
    returns `None`. */
module SseRegistry {
  import opened Wrappers
  import NameColors
  import CompactNumber
  import Sse

  type ConnId = nat
  type ChatId = nat

  datatype Slot = Conns(conns: seq<ConnId>) | Instance(chat: ChatId)

  type Registry = map<string, Slot>

  /** No overlay keeps an empty connection list. */
  predicate ListsNonEmpty(reg: Registry) {
    forall k :: k in reg && reg[k].Conns? ==> |reg[k].conns| > 0
  }

  /** `connections.indexOf(res)`. */
  function IndexOf(s: seq<ConnId>, c: ConnId): (i: int)
    ensures -1 <= i < |s|
    ensures i == -1 <==> c !in s
    ensures i >= 0 ==> s[i] == c && c !in s[..i]
  {
    if |s| == 0 then -1
    else if s[0] == c then 0
    else
      var j := IndexOf(s[1..], c);
      assert j >= 0 ==> s[..j + 1] == [s[0]] + s[1..][..j];
      if j < 0 then -1 else j + 1
  }

  /** `splice(index, 1)` when the connection was found. */
  function RemoveFirst(s: seq<ConnId>, c: ConnId): seq<ConnId> {
    var i := IndexOf(s, c);
    if i < 0 then s else s[..i] + s[i + 1..]
  }

  /** Removal takes away one copy of the connection, if it has one, and keeps
      every other entry. */
  lemma RemoveFirstCounts(s: seq<ConnId>, c: ConnId)
    ensures multiset(RemoveFirst(s, c)) == multiset(s) - multiset{c}
    ensures |RemoveFirst(s, c)| == if c in s then |s| - 1 else |s|
  {
    var i := IndexOf(s, c);
    if i >= 0 {
      assert RemoveFirst(s, c) == s[..i] + s[i + 1..];
      SpliceCounts(s, i);
    } else {
      assert RemoveFirst(s, c) == s;
      AbsentCounts(s, c);
    }
  }

  lemma AbsentCounts(s: seq<ConnId>, c: ConnId)
    requires c !in s
    ensures multiset(s) - multiset{c} == multiset(s)
  {
    assert multiset(s)[c] == 0;
  }

  lemma SpliceCounts(s: seq<ConnId>, i: nat)
    requires i < |s|
    ensures multiset(s[..i] + s[i + 1..]) == multiset(s) - multiset{s[i]}
  {
    var a, b := s[..i], s[i + 1..];
    assert s == a + [s[i]] + b;
    assert multiset(s) == multiset(a) + multiset{s[i]} + multiset(b);
    assert multiset(a + b) == multiset(a) + multiset(b);
  }

  /** `GET /stream/:overlayId`: the response joins the end of the overlay's
      list, which is created when the overlay has none. */
  function StreamConnect(reg: Registry, id: string, c: ConnId): (r: Option<Registry>)
    ensures r.None? <==> id in reg && reg[id].Instance?
    ensures r.Some? ==> r.value == reg[id := Conns((if id in reg then reg[id].conns else []) + [c])]
    ensures r.Some? && ListsNonEmpty(reg) ==> ListsNonEmpty(r.value)
  {
    if id !in reg then
      assert [] + [c] == [c];
      Some(reg[id := Conns([c])])
    else
      match reg[id]
      case Instance(_) => None
      case Conns(cs) => Some(reg[id := Conns(cs + [c])])
  }

  /** The `close` handler: the first occurrence of the response leaves the
      list, and the overlay's key goes exactly when its list becomes empty. */
  function StreamClose(reg: Registry, id: string, c: ConnId): (r: Option<Registry>)
    ensures r.None? <==> id in reg && reg[id].Instance?
    ensures id !in reg ==> r == Some(reg)
    ensures r.Some? && id in reg ==>
      var rest := RemoveFirst(reg[id].conns, c);
      && (id !in r.value <==> rest == [])
      && (rest != [] ==> r.value[id] == Conns(rest))
    ensures r.Some? ==> forall k :: k != id ==> (k in r.value <==> k in reg) && (k in reg ==> r.value[k] == reg[k])
    ensures r.Some? && ListsNonEmpty(reg) ==> ListsNonEmpty(r.value)
  {
    if id !in reg then Some(reg)
    else
      match reg[id]
      case Instance(_) => None
      case Conns(cs) =>
        var rest := RemoveFirst(cs, c);
        if |rest| == 0 then Some(reg - {id}) else Some(reg[id := Conns(rest)])
  }

  /** A connection that opens and closes again leaves the registry as it found it. */
  lemma ConnectThenClose(reg: Registry, id: string, c: ConnId)
    requires ListsNonEmpty(reg)
    requires id in reg ==> reg[id].Conns? && c !in reg[id].conns
    ensures StreamConnect(reg, id, c).Some?
    ensures StreamClose(StreamConnect(reg, id, c).value, id, c) == Some(reg)
  {
    var cs := if id in reg then reg[id].conns else [];
    var r := StreamConnect(reg, id, c).value;
    assert RemoveFirst(cs + [c], c) == cs by {
      RemoveFirstLast(cs, c);
    }
    if id !in reg {
      assert r - {id} == reg;
    } else {
      assert r[id := Conns(cs)] == reg;
    }
  }

  lemma RemoveFirstLast(s: seq<ConnId>, c: ConnId)
    requires c !in s
    ensures RemoveFirst(s + [c], c) == s
  {
    var t := s + [c];
    var i := IndexOf(t, c);
    assert t[|s|] == c;
    assert forall j :: 0 <= j < |s| ==> t[j] == s[j];
    assert t[..|s|] == s;
  }

  /** The key the LiveChat instance of an overlay is stored under. */
  function InstanceKey(overlayId: string): string {
    "instance_" + overlayId
  }

  /** A route's answer. */
  datatype Reply =
    | Success
    | OverlayCreated(overlayUrl: string, overlayId: string)
    | Error(status: nat, message: string)

  /** `POST /start-chat` once `liveChat.start()` has answered `started`: on
      success the instance is stored unless the key is already taken, so the
      first instance stays. */
  function StartChat(reg: Registry, overlayId: string, chat: ChatId, started: bool): (res: (Registry, Reply))
    ensures !started ==> res == (reg, Error(500, "Failed to start chat monitoring"))
    ensures started ==> res.1 == Success
    ensures started && InstanceKey(overlayId) !in reg ==> res.0 == reg[InstanceKey(overlayId) := Instance(chat)]
    ensures InstanceKey(overlayId) in reg ==> res.0 == reg
    ensures ListsNonEmpty(reg) ==> ListsNonEmpty(res.0)
  {
    var key := InstanceKey(overlayId);
    if !started then (reg, Error(500, "Failed to start chat monitoring"))
    else if key !in reg then (reg[key := Instance(chat)], Success)
    else (reg, Success)
  }

  /** `POST /stop-chat`: a stored instance is stopped and removed; with none the
      route changes nothing; either way it answers success. The second
      component is the instance stopped. */
  function StopChat(reg: Registry, overlayId: string): (r: Option<(Registry, Option<ChatId>)>)
    ensures r.None? <==> InstanceKey(overlayId) in reg && reg[InstanceKey(overlayId)].Conns?
    ensures InstanceKey(overlayId) !in reg ==> r == Some((reg, None))
    ensures r.Some? && InstanceKey(overlayId) in reg ==>
      r.value == (reg - {InstanceKey(overlayId)}, Some(reg[InstanceKey(overlayId)].chat))
    ensures r.Some? && ListsNonEmpty(reg) ==> ListsNonEmpty(r.value.0)
  {
    var key := InstanceKey(overlayId);
    if key !in reg then Some((reg, None))
    else
      match reg[key]
      case Conns(_) => None
      case Instance(chat) => Some((reg - {key}, Some(chat)))
  }

  /** Starting and then stopping an overlay's chat stops the instance that was
      started and leaves no instance behind. */
  lemma StartThenStop(reg: Registry, overlayId: string, chat: ChatId)
    requires InstanceKey(overlayId) !in reg
    ensures
      var started := StartChat(reg, overlayId, chat, true).0;
      StopChat(started, overlayId) == Some((reg, Some(chat)))
  {
    var started := StartChat(reg, overlayId, chat, true).0;
    assert started - {InstanceKey(overlayId)} == reg;
  }

  /** The routes together with the LiveChat instances started for one overlay
      that are still running. Each running instance fans every chat item out
      to the overlay's connections, so `|running|` is the number of frames a
      connection receives per chat item. */
  datatype Monitor = Monitor(reg: Registry, running: seq<ChatId>)

  /** The instance `/stop-chat` can reach: the one stored under the overlay's
      instance key. */
  function Stored(reg: Registry, overlayId: string): seq<ChatId> {
    var key := InstanceKey(overlayId);
    if key in reg && reg[key].Instance? then [reg[key].chat] else []
  }

  /** Every running instance is the stored one, so `/stop-chat` can stop it. */
  predicate Tracked(m: Monitor, overlayId: string) {
    m.running == Stored(m.reg, overlayId)
  }

  /** The running instances other than `chat`. */
  function Without(running: seq<ChatId>, chat: ChatId): (r: seq<ChatId>)
    ensures forall i :: 0 <= i < |r| ==> r[i] != chat
    ensures (forall i :: 0 <= i < |running| ==> running[i] != chat) ==> r == running
  {
    if |running| == 0 then []
    else if running[0] == chat then Without(running[1..], chat)
    else [running[0]] + Without(running[1..], chat)
  }

  /** `POST /start-chat` as written: `liveChat.start()` has already run when the
      instance key is checked, so a started instance keeps running even when
      the key is taken and it is never stored. */
  function StartMonitor(m: Monitor, overlayId: string, chat: ChatId, started: bool): (m': Monitor)
    ensures m'.reg == StartChat(m.reg, overlayId, chat, started).0
    ensures started ==> m'.running == m.running + [chat]
    ensures !started ==> m'.running == m.running
  {
    Monitor(StartChat(m.reg, overlayId, chat, started).0, if started then m.running + [chat] else m.running)
  }

  /** `POST /start-chat` with the redundant instance stopped at once when one is
      already stored, so that an overlay has at most one monitor. */
  function StartMonitorFixed(m: Monitor, overlayId: string, chat: ChatId, started: bool): (m': Monitor)
    ensures m'.reg == StartChat(m.reg, overlayId, chat, started).0
    ensures started && InstanceKey(overlayId) !in m.reg ==> m'.running == m.running + [chat]
    ensures !(started && InstanceKey(overlayId) !in m.reg) ==> m'.running == m.running
  {
    var stores := started && InstanceKey(overlayId) !in m.reg;
    Monitor(StartChat(m.reg, overlayId, chat, started).0, if stores then m.running + [chat] else m.running)
  }

  /** `POST /stop-chat`: the stored instance, if any, stops running. */
  function StopMonitor(m: Monitor, overlayId: string): (r: Option<Monitor>)
    ensures r.None? <==> StopChat(m.reg, overlayId).None?
    ensures r.Some? ==> r.value.reg == StopChat(m.reg, overlayId).value.0
    ensures r.Some? && StopChat(m.reg, overlayId).value.1.None? ==> r.value.running == m.running
    ensures r.Some? && StopChat(m.reg, overlayId).value.1.Some? ==>
      r.value.running == Without(m.running, StopChat(m.reg, overlayId).value.1.value)
  {
    match StopChat(m.reg, overlayId)
    case None => None
    case Some((reg', stopped)) =>
      Some(Monitor(reg', if stopped.Some? then Without(m.running, stopped.value) else m.running))
  }

  /** As written, a second successful start for an overlay leaves two
      instances running, so every chat item reaches each connection twice;
      `/stop-chat` then stops only the first, and the second keeps running with
      no stored key through which any later `/stop-chat` could reach it. */
  lemma StartTwiceOrphans(reg: Registry, overlayId: string, c1: ChatId, c2: ChatId)
    requires InstanceKey(overlayId) !in reg && c1 != c2
    ensures
      var m2 := StartMonitor(StartMonitor(Monitor(reg, []), overlayId, c1, true), overlayId, c2, true);
      && |m2.running| == 2
      && !Tracked(m2, overlayId)
      && StopMonitor(m2, overlayId).Some?
      && StopMonitor(m2, overlayId).value.running == [c2]
      && StopMonitor(StopMonitor(m2, overlayId).value, overlayId) == StopMonitor(m2, overlayId)
  {
    var m1 := StartMonitor(Monitor(reg, []), overlayId, c1, true);
    var m2 := StartMonitor(m1, overlayId, c2, true);
    assert m1.reg == reg[InstanceKey(overlayId) := Instance(c1)];
    assert m2.reg == m1.reg && m2.running == [c1, c2];
    assert Without([c1, c2], c1) == [c2] by {
      assert [c1, c2][1..] == [c2];
      assert Without([c2], c1) == [c2] + Without([], c1);
    }
    var m3 := StopMonitor(m2, overlayId).value;
    assert m3.reg == reg;
  }

  /** With the redundant instance stopped, starting keeps every running
      instance reachable by `/stop-chat`, so an overlay never has more than one
      monitor and no chat item is written twice. */
  lemma StartFixedTracked(m: Monitor, overlayId: string, chat: ChatId, started: bool)
    requires Tracked(m, overlayId)
    ensures Tracked(StartMonitorFixed(m, overlayId, chat, started), overlayId)
    ensures |StartMonitorFixed(m, overlayId, chat, started).running| <= 1
  {
  }

  /** For a tracked overlay, `/stop-chat` leaves nothing running. */
  lemma StopTracked(m: Monitor, overlayId: string)
    requires Tracked(m, overlayId)
    ensures StopMonitor(m, overlayId).Some? ==>
      StopMonitor(m, overlayId).value.running == [] && Tracked(StopMonitor(m, overlayId).value, overlayId)
  {
    var key := InstanceKey(overlayId);
    if key in m.reg && m.reg[key].Instance? {
      assert [m.reg[key].chat][1..] == [];
    }
  }

  /** An element of `chatItem.message`. */
  datatype RawPart =
    /** an item with a `text` key */
    | TextItem(text: string)
    | EmojiItem(url: string, alt: string, isCustomEmoji: bool)

  /** An element of the message sent to the overlay. */
  datatype Part =
    | TextPart(content: string)
    | EmojiPart(url: string, alt: string, isCustomEmoji: bool)

  /** The `chatItem.message.map(...)` callback. */
  function MapPart(p: RawPart): (q: Part)
    ensures q.TextPart? <==> p.TextItem?
  {
    match p
    case TextItem(t) => TextPart(t)
    case EmojiItem(u, a, c) => EmojiPart(u, a, c)
  }

  /** Reads a sent part back as the item it came from. */
  function UnmapPart(q: Part): RawPart {
    match q
    case TextPart(t) => TextItem(t)
    case EmojiPart(u, a, c) => EmojiItem(u, a, c)
  }

  /** The mapped parts, in order; each one reads back as the item it came
      from, so the mapping loses nothing. */
  function MapParts(ps: seq<RawPart>): (qs: seq<Part>)
    ensures |qs| == |ps|
    ensures forall i :: 0 <= i < |ps| ==> qs[i] == MapPart(ps[i]) && UnmapPart(qs[i]) == ps[i]
  {
    seq(|ps|, i requires 0 <= i < |ps| => MapPart(ps[i]))
  }

  /** A chat item as the youtube-chat library reports it. */
  datatype ChatItem = ChatItem(
    authorName: string,
    authorBadge: Option<string>,
    isMembership: bool,
    isVerified: bool,
    isOwner: bool,
    isModerator: bool,
    message: seq<RawPart>,
    timestamp: int)

  datatype BadgeFlags = BadgeFlags(
    isMembership: bool, isVerified: bool, isOwner: bool, isModerator: bool, customBadge: Option<string>)

  /** The message object built for an item, without its random `id`. */
  datatype OutMessage = OutMessage(
    name: string, color: string, badges: BadgeFlags, message: seq<Part>, timestamp: int)

  function ToMessage(item: ChatItem): (m: OutMessage)
    ensures m.name == item.authorName
    ensures m.color == NameColors.UsernameColor(item.authorName) && m.color in NameColors.UsernamePalette
    ensures m.badges == BadgeFlags(item.isMembership, item.isVerified, item.isOwner, item.isModerator, item.authorBadge)
    ensures |m.message| == |item.message|
    ensures forall i :: 0 <= i < |item.message| ==> m.message[i] == MapPart(item.message[i])
    ensures m.timestamp == item.timestamp
  {
    OutMessage(
      item.authorName,
      NameColors.UsernameColor(item.authorName),
      BadgeFlags(item.isMembership, item.isVerified, item.isOwner, item.isModerator, item.authorBadge),
      MapParts(item.message),
      item.timestamp)
  }

  /** The message keeps every field of the item: two items that give the same
      message are the same item. */
  lemma ToMessageInjective(a: ChatItem, b: ChatItem)
    requires ToMessage(a) == ToMessage(b)
    ensures a == b
  {
    var qa, qb := MapParts(a.message), MapParts(b.message);
    assert forall i :: 0 <= i < |a.message| ==> a.message[i] == UnmapPart(qa[i]) == UnmapPart(qb[i]) == b.message[i];
  }

  /** One `client.write(...)`. */
  datatype Write = Write(conn: ConnId, text: string)

  /** The `chat` handler's send: one frame of the serialised message to every
      connection registered for the overlay at that moment, in list order. */
  function Fanout(reg: Registry, overlayId: string, json: string): (ws: Option<seq<Write>>)
    ensures ws.None? <==> overlayId in reg && reg[overlayId].Instance?
    ensures overlayId !in reg ==> ws == Some([])
    ensures ws.Some? && overlayId in reg ==>
      && |ws.value| == |reg[overlayId].conns|
      && forall i :: 0 <= i < |ws.value| ==> ws.value[i] == Write(reg[overlayId].conns[i], Sse.Frame(json))
  {
    if overlayId !in reg then Some([])
    else
      match reg[overlayId]
      case Instance(_) => None
      case Conns(cs) => Some(seq(|cs|, i requires 0 <= i < |cs| => Write(cs[i], Sse.Frame(json))))
  }

  /** The text one connection receives from a series of fan-outs. */
  function Received(writes: seq<Write>, c: ConnId): string {
    if |writes| == 0 then ""
    else (if writes[0].conn == c then writes[0].text else "") + Received(writes[1..], c)
  }

  /** A connection registered once receives exactly one frame per message, and
      the event stream reads back as that message. */
  lemma FanoutOnce(reg: Registry, overlayId: string, json: string, c: ConnId)
    requires overlayId in reg && reg[overlayId].Conns?
    requires multiset(reg[overlayId].conns)[c] == 1
    requires Sse.SingleLine(json)
    ensures Received(Fanout(reg, overlayId, json).value, c) == Sse.Frame(json)
    ensures Sse.Interpret(Received(Fanout(reg, overlayId, json).value, c), "") == [json]
  {
    var ws := Fanout(reg, overlayId, json).value;
    ReceivedOne(ws, reg[overlayId].conns, c, Sse.Frame(json));
    Sse.FrameRead(json, "");
    assert Sse.Frame(json) + "" == Sse.Frame(json);
  }

  lemma {:induction false} ReceivedOne(ws: seq<Write>, cs: seq<ConnId>, c: ConnId, text: string)
    requires |ws| == |cs|
    requires forall i :: 0 <= i < |ws| ==> ws[i] == Write(cs[i], text)
    ensures multiset(cs)[c] == 0 ==> Received(ws, c) == ""
    ensures multiset(cs)[c] == 1 ==> Received(ws, c) == text
  {
    if |ws| > 0 {
      assert cs == [cs[0]] + cs[1..];
      ReceivedOne(ws[1..], cs[1..], c, text);
      if cs[0] == c {
        assert text + "" == text;
      }
    }
  }

  /** `POST /generate-overlay`: a missing or empty channel id is refused with
      400; otherwise the overlay id is built from the clock reading `now` and
      the random base-36 text `rand`. */
  function GenerateOverlay(channelId: Option<string>, now: nat, rand: string, protocol: string, host: string)
    : (reply: Reply)
    ensures channelId.None? || channelId.value == "" <==> reply == Error(400, "Channel ID is required")
    ensures reply.OverlayCreated? ==>
      && reply.overlayId == "overlay_" + CompactNumber.Decimal(now) + "_" + rand
      && reply.overlayUrl == protocol + "://" + host + "/overlay/" + reply.overlayId
    ensures reply.Error? || reply.OverlayCreated?
  {
    if channelId.None? || channelId.value == "" then Error(400, "Channel ID is required")
    else
      var overlayId := "overlay_" + CompactNumber.Decimal(now) + "_" + rand;
      OverlayCreated(protocol + "://" + host + "/overlay/" + overlayId, overlayId)
  }
}
