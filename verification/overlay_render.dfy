/** The message pipeline of public/overlay.js: WebSocket messages land in an
    `inbox`, one animation frame moves the inbox to the `renderQueue`, and each
    `drainRender` frame turns at most 50 queued payloads into lines, skipping
    bots, appends them to the stack, trims the stack to `--max-keep` lines and
    feeds the speed meter. Animation frames are explicit steps; the 10 ms frame
    budget is a bound on the loop's iterations, given as a parameter. */
module OverlayRender {
  import opened Wrappers
  import opened HtmlEscape
  import Bots
  import Hype

  const MaxPerFrame: nat := 50
  const DefaultMaxKeep: nat := 600

  /** A queued payload; strings are "" when missing. */
  datatype Payload = Payload(
    typ: string,
    author: string,
    html: string,
    isMod: bool,
    isOwner: bool,
    isMember: bool,
    /** `member_badges` when it is an array */
    memberBadges: Option<seq<string>>)

  /** The arguments of one `buildLine` call. */
  datatype Line = Line(author: string, html: string, isMod: bool, isOwner: bool, isMember: bool, memberBadges: seq<string>)

  predicate IsSystem(p: Payload) {
    p.typ == "system"
  }

  /** A payload `drainRender` renders rather than skips. */
  predicate Shown(p: Payload) {
    IsSystem(p) || !Bots.IsBot(p.author)
  }

  /** The line of a rendered payload: system lines are signed "System", others
      by their author, or "User" when it is missing. */
  function BuildLine(p: Payload): (l: Line)
    ensures IsSystem(p) ==> l.author == "System"
    ensures !IsSystem(p) ==> l.author == (if p.author != "" then p.author else "User")
    ensures l.author != ""
    ensures l.memberBadges == p.memberBadges.GetOr([])
  {
    Line(
      if IsSystem(p) then "System" else if p.author != "" then p.author else "User",
      p.html, p.isMod, p.isOwner, p.isMember, p.memberBadges.GetOr([]))
  }

  /** The line a payload renders to: none for a bot. */
  function LineOf(p: Payload): (ls: seq<Line>)
    ensures |ls| <= 1
  {
    if Shown(p) then [BuildLine(p)] else []
  }

  /** Whether a payload counts towards the speed meter. */
  function MeterCount(p: Payload): (n: nat)
    ensures n <= |LineOf(p)|
  {
    if Shown(p) && !IsSystem(p) then 1 else 0
  }

  /** `f` applied to each element in turn, the results concatenated. */
  function ConcatMap<T, U>(f: T -> seq<U>, xs: seq<T>): seq<U> {
    if |xs| == 0 then [] else ConcatMap(f, xs[..|xs| - 1]) + f(xs[|xs| - 1])
  }

  /** The sum of `g` over the elements. */
  function SumMap<T>(g: T -> nat, xs: seq<T>): nat {
    if |xs| == 0 then 0 else SumMap(g, xs[..|xs| - 1]) + g(xs[|xs| - 1])
  }

  lemma ConcatMapSnoc<T, U>(f: T -> seq<U>, g: T -> nat, xs: seq<T>, x: T)
    ensures ConcatMap(f, xs + [x]) == ConcatMap(f, xs) + f(x)
    ensures SumMap(g, xs + [x]) == SumMap(g, xs) + g(x)
  {
    assert (xs + [x])[..|xs|] == xs;
  }

  lemma {:induction false} ConcatMapAppend<T, U>(f: T -> seq<U>, a: seq<T>, b: seq<T>)
    ensures ConcatMap(f, a + b) == ConcatMap(f, a) + ConcatMap(f, b)
    decreases |b|
  {
    if |b| == 0 {
      assert a + b == a;
    } else {
      var b' := b[..|b| - 1];
      assert (a + b)[..|a + b| - 1] == a + b';
      ConcatMapAppend(f, a, b');
    }
  }

  lemma {:induction false} ConcatMapBounds<T, U>(f: T -> seq<U>, g: T -> nat, xs: seq<T>)
    requires forall x :: |f(x)| <= 1 && g(x) <= |f(x)|
    ensures |ConcatMap(f, xs)| <= |xs|
    ensures SumMap(g, xs) <= |ConcatMap(f, xs)|
  {
    if |xs| > 0 {
      ConcatMapBounds(f, g, xs[..|xs| - 1]);
    }
  }

  /** The lines rendered from consumed payloads, in order. */
  function Render(ps: seq<Payload>): seq<Line> {
    ConcatMap(LineOf, ps)
  }

  /** How many rendered payloads are not system lines. */
  function NonSystem(ps: seq<Payload>): nat {
    SumMap(MeterCount, ps)
  }

  /** Each payload renders to at most one line, and the speed meter counts at
      most the lines rendered. */
  lemma RenderBounds(ps: seq<Payload>)
    ensures |Render(ps)| <= |ps|
    ensures NonSystem(ps) <= |Render(ps)|
  {
    ConcatMapBounds(LineOf, MeterCount, ps);
  }

  /** Rendering works payload by payload: the lines of a queue are the lines
      of its parts. */
  lemma RenderAppend(a: seq<Payload>, b: seq<Payload>)
    ensures Render(a + b) == Render(a) + Render(b)
  {
    ConcatMapAppend(LineOf, a, b);
  }

  /** A reference reading of the same rendering, payload by payload from the
      front: the shown payloads, each as its line. */
  function ShownLines(ps: seq<Payload>): seq<Line> {
    if |ps| == 0 then []
    else (if Shown(ps[0]) then [BuildLine(ps[0])] else []) + ShownLines(ps[1..])
  }

  lemma {:induction false} ShownLinesAppend(a: seq<Payload>, b: seq<Payload>)
    ensures ShownLines(a + b) == ShownLines(a) + ShownLines(b)
  {
    if |a| == 0 {
      assert a + b == b;
    } else {
      var head := if Shown(a[0]) then [BuildLine(a[0])] else [];
      calc {
        ShownLines(a + b);
        == { ConsSplit(a, b); }
        head + ShownLines(a[1..] + b);
        == { ShownLinesAppend(a[1..], b); }
        head + (ShownLines(a[1..]) + ShownLines(b));
        == { AppendAssoc(head, ShownLines(a[1..]), ShownLines(b)); }
        ShownLines(a) + ShownLines(b);
      }
    }
  }

  lemma ShownLinesSnoc(ps: seq<Payload>, p: Payload)
    ensures ShownLines(ps + [p]) == ShownLines(ps) + LineOf(p)
  {
    ShownLinesAppend(ps, [p]);
    assert [p][1..] == [];
  }

  /** The frame loop renders exactly the payloads that are shown, in order, and
      nothing else: bot messages never become lines. */
  lemma {:induction false} RenderIsShownLines(ps: seq<Payload>)
    ensures Render(ps) == ShownLines(ps)
    decreases |ps|
  {
    if |ps| > 0 {
      var init, last := ps[..|ps| - 1], ps[|ps| - 1];
      assert init + [last] == ps;
      RenderIsShownLines(init);
      ConcatMapSnoc(LineOf, MeterCount, init, last);
      ShownLinesSnoc(init, last);
    }
  }

  /** The loop of one `drainRender` frame, which may run `budget` iterations
      before the frame's time is up: it consumes payloads from the front of the
      queue, renders those not from bots, and stops after 50 rendered lines, on
      an empty queue, or when the time is up. */
  method DrainRender(queue: seq<Payload>, budget: nat) returns (lines: seq<Line>, consumed: nat, nonSystem: nat)
    ensures consumed <= |queue| && consumed <= budget
    ensures lines == Render(queue[..consumed])
    ensures nonSystem == NonSystem(queue[..consumed])
    ensures |lines| <= MaxPerFrame
    ensures consumed < |queue| ==> |lines| == MaxPerFrame || consumed == budget
    ensures budget > 0 && |queue| > 0 ==> consumed > 0
  {
    lines, consumed, nonSystem := DrainLoop(LineOf, MeterCount, queue, budget, MaxPerFrame);
  }

  /** The loop itself, for any rendering `f` that makes at most one line of a
      payload and any meter count `g`: it stops at `cap` lines, at the end of
      the queue, or after `budget` payloads. */
  method DrainLoop<T, U>(f: T -> seq<U>, g: T -> nat, queue: seq<T>, budget: nat, cap: nat)
    returns (lines: seq<U>, consumed: nat, counted: nat)
    requires forall x :: |f(x)| <= 1
    ensures consumed <= |queue| && consumed <= budget
    ensures lines == ConcatMap(f, queue[..consumed])
    ensures counted == SumMap(g, queue[..consumed])
    ensures |lines| <= cap
    ensures consumed < |queue| ==> |lines| == cap || consumed == budget
    ensures budget > 0 && |queue| > 0 && cap > 0 ==> consumed > 0
  {
    consumed := 0;
    lines := [];
    counted := 0;
    while consumed < |queue| && |lines| < cap && consumed < budget
      invariant consumed <= |queue| && consumed <= budget
      invariant lines == ConcatMap(f, queue[..consumed])
      invariant counted == SumMap(g, queue[..consumed])
      invariant |lines| <= cap
    {
      var p := queue[consumed];
      assert queue[..consumed + 1] == queue[..consumed] + [p];
      ConcatMapSnoc(f, g, queue[..consumed], p);
      lines := lines + f(p);
      counted := counted + g(p);
      consumed := consumed + 1;
    }
  }

  /** `parseInt(--max-keep) || 600`, where 0 stands for a missing or
      unparsable setting. */
  function MaxKeep(setting: nat): (n: nat)
    ensures n > 0
    ensures setting == 0 ==> n == DefaultMaxKeep
    ensures setting > 0 ==> n == setting
  {
    if setting == 0 then DefaultMaxKeep else setting
  }

  /** The stack trimming loop: the oldest lines go until at most `keep` remain. */
  function KeepLast(stack: seq<Line>, keep: nat): (r: seq<Line>)
    ensures |r| == if |stack| > keep then keep else |stack|
    ensures r == stack[|stack| - |r|..]
  {
    if |stack| > keep then stack[|stack| - keep..] else stack
  }

  /** A message the overlay receives over the WebSocket. */
  datatype WsMessage =
    | Status(text: string)
    | Single(message: Payload)
    | Batch(messages: seq<Payload>)
    /** any other type, or text that is not JSON */
    | Ignored

  datatype Overlay = Overlay(
    inbox: seq<Payload>,
    rafPending: bool,
    renderQueue: seq<Payload>,
    draining: bool,
    stack: seq<Line>,
    hype: Hype.HypeState)

  /** Nothing waits without a frame requested to move it along. */
  predicate Inv(o: Overlay) {
    && (|o.inbox| > 0 ==> o.rafPending)
    && (|o.renderQueue| > 0 ==> o.draining)
  }

  /** Payloads received and not yet consumed, oldest first. */
  function Pending(o: Overlay): seq<Payload> {
    o.renderQueue + o.inbox
  }

  /** The payloads `onmessage` pushes for a message. */
  function Incoming(msg: WsMessage): seq<Payload> {
    match msg
    case Status(text) => [Payload("system", "System", Escape(text), false, false, false, None)]
    case Single(m) => [m]
    case Batch(ms) => ms
    case Ignored => []
  }

  /** `ws.onmessage`: the message's payloads join the inbox and a frame is
      requested, unless the message is of another type. */
  function OnMessage(o: Overlay, msg: WsMessage): (o': Overlay)
    ensures o'.inbox == o.inbox + Incoming(msg)
    ensures Pending(o') == Pending(o) + Incoming(msg)
    ensures msg.Ignored? ==> o' == o
    ensures !msg.Ignored? ==> o' == o.(inbox := o'.inbox, rafPending := true)
    ensures msg.Status? ==> o'.inbox[|o'.inbox| - 1].author == "System" && NoMarkup(o'.inbox[|o'.inbox| - 1].html)
    ensures Inv(o) ==> Inv(o')
  {
    if msg.Ignored? then
      assert o.inbox + [] == o.inbox;
      o
    else o.(inbox := o.inbox + Incoming(msg), rafPending := true)
  }

  /** The frame `scheduleFlush` requested: the whole inbox moves to the render
      queue, and draining starts if it is not already running. */
  function FlushFrame(o: Overlay): (o': Overlay)
    ensures o'.inbox == [] && !o'.rafPending
    ensures o'.renderQueue == o.renderQueue + o.inbox
    ensures Pending(o') == Pending(o)
    ensures |o.inbox| > 0 ==> o'.draining
    ensures |o.inbox| == 0 ==> o'.draining == o.draining
    ensures o'.stack == o.stack && o'.hype == o.hype
    ensures Inv(o) ==> Inv(o')
  {
    var batch := o.inbox;
    if |batch| > 0 then
      o.(inbox := [], rafPending := false, renderQueue := o.renderQueue + batch, draining := true)
    else
      assert o.renderQueue + [] == o.renderQueue;
      o.(rafPending := false)
  }

  lemma ConsSplit<T>(a: seq<T>, b: seq<T>)
    requires |a| > 0
    ensures (a + b)[0] == a[0] && (a + b)[1..] == a[1..] + b
  {
  }

  lemma AppendAssoc<T>(a: seq<T>, b: seq<T>, c: seq<T>)
    ensures (a + b) + c == a + (b + c)
  {
  }

  /** One `drainRender` frame at clock reading `now`. When lines were rendered
      they join the stack, which is then trimmed, and the speed meter records
      the non-system ones among them; another frame is requested while payloads
      remain. */
  method DrainFrame(o: Overlay, budget: nat, now: int, maxKeepSetting: nat) returns (o': Overlay)
    ensures o'.inbox == o.inbox && o'.rafPending == o.rafPending
    ensures |o'.renderQueue| <= |o.renderQueue| && o'.renderQueue == o.renderQueue[|o.renderQueue| - |o'.renderQueue|..]
    ensures budget > 0 && |o.renderQueue| > 0 ==> |o'.renderQueue| < |o.renderQueue|
    ensures Pending(o) == o.renderQueue[..|o.renderQueue| - |o'.renderQueue|] + Pending(o')
    ensures
      var rendered := Render(o.renderQueue[..|o.renderQueue| - |o'.renderQueue|]);
      && |rendered| <= MaxPerFrame
      && (|rendered| > 0 ==> o'.stack == KeepLast(o.stack + rendered, MaxKeep(maxKeepSetting)))
      && (|rendered| == 0 ==> o'.stack == o.stack)
    ensures
      var consumed := o.renderQueue[..|o.renderQueue| - |o'.renderQueue|];
      var counted := NonSystem(consumed);
      && (|Render(consumed)| > 0 && counted > 0 ==> o'.hype == Hype.RecordMessages(o.hype, counted, now))
      && (|Render(consumed)| == 0 || counted == 0 ==> o'.hype == o.hype)
    ensures o'.draining <==> |o'.renderQueue| > 0
    ensures Hype.Inv(o.hype) ==> Hype.Inv(o'.hype)
    ensures Inv(o) ==> Inv(o')
  {
    var lines, consumed, nonSystem := DrainRender(o.renderQueue, budget);
    var rest := o.renderQueue[consumed..];
    assert |o.renderQueue| - |rest| == consumed;
    assert o.renderQueue == o.renderQueue[..consumed] + rest;
    AppendAssoc(o.renderQueue[..consumed], rest, o.inbox);
    var stack := o.stack;
    var hype := o.hype;
    if |lines| > 0 {
      if nonSystem > 0 {
        hype := Hype.RecordMessages(hype, nonSystem, now);
      }
      stack := KeepLast(stack + lines, MaxKeep(maxKeepSetting));
    }
    o' := Overlay(o.inbox, o.rafPending, rest, |rest| > 0, stack, hype);
  }
}
