# YouTube live-chat overlay: a Dafny model of its message logic

The repository relays the chat of a YouTube live stream to a browser overlay.
There are two servers:

- `server.js` picks the live stream with the most viewers. It turns YouTube
  chat actions into chat messages with escaped HTML and badge flags. It sends
  them in batches over a WebSocket, through one `ChatManager` per channel.
- `index.js` is an older server. It keeps server-sent-event (SSE) subscribers
  per overlay id, maps chat items to messages coloured by a string hash, and
  writes each one as a `data:` frame.

Two browser scripts show the chat:

- `public/overlay.js` queues incoming messages and renders at most 50 lines
  per animation frame, skipping chat bots. It colours names with a 32-bit hash,
  turns emoji into image URLs, and shows a "hype" image when more than 500
  messages arrive within a minute, at most once every 30 minutes.
- `public/app.js` derives the stream to ask for from the page's query string,
  drops messages from two bots, and reveals chat in batches of six.

The model describes this logic with immutable datatypes and pure functions.
A few short methods hold the loops. Timers, animation frames and awaited
promises become explicit step functions. Clock readings, random ids and the
outcome of library calls are parameters.

| module | file | models |
|---|---|---|
| `Wrappers` | wrappers.dfy | `Option`; JavaScript `a \|\| b` over optional values |
| `JsText` | text.dfy | `toLowerCase` (ASCII), `\s`, `trim`, `replace(/^@+/, "")`, UTF-16 encoding (section 2.2 of RFC 2781) |
| `HtmlEscape` | html.dfy | the `escapeHtml`/`esc` helper, which is defined identically four times (twice in server.js) |
| `Int32` | int32.dfy | ToInt32 (section 7.1.6 of ECMA-262), `<<`, `Math.imul` |
| `NameColors` | name_colors.dfy | `getUsernameColor` (index.js) and `nameColor` with its cache (overlay.js) |
| `Emoji` | emoji.dfy | `emojiToCodepoints`, `getEmojiImageUrl` |
| `CompactNumber` | compact_number.dfy | `parseCompactNumber` |
| `LiveSelect` | live_select.dfy | `liveViewerCount`, the most-viewers `reduce` of `resolveLiveInfo` |
| `RunsHtml` | runs_html.dfy | `pickThumbUrl`, `runsToHtml`, `textToHtml` fallbacks |
| `ChatPayload` | chat_payload.dfy | `normalizeActions`, `parseActions` |
| `ChatManager` | chat_manager.dfy | `ChatManager` and the `managers` map of the WebSocket handler |
| `Sse` | sse.dfy | `data:` framing and what an event-stream reader gets back (section 9.2.6 of the HTML Living Standard) |
| `SseRegistry` | sse_registry.dfy | the `activeChats` map, the chat-item mapping, `/generate-overlay` |
| `Bots` | bots.dfy | `isBot` (overlay.js), `isBlockedBot` (app.js) |
| `Hype` | hype.dfy | `recordMessages`, `triggerHype` |
| `OverlayRender` | overlay_render.dfy | `onmessage`, `scheduleFlush`, `enqueueRender`, `drainRender` |
| `AppClient` | app_client.dfy | query parameters, `connect`, `onmessage`, `pump` |

Where the code and its documentation disagree, the model follows the code:

- `server.js` never removes a manager from `managers`. It never calls
  `ChatManager.stop()` and never drops a closed client's channel, so a channel's
  stream keeps polling after its last viewer leaves. `ChatManager.Connect` only
  ever adds keys.
- `public/app.js` sends `liveId` and `handle` as well as `channelId`. The
  WebSocket handler of `server.js` reads only `channelId`. A page opened with
  only `?liveId=` or `?handle=` connects and is turned away
  (`AppClient.ServerNeedsChannel`).
- `index.js` keeps SSE connection lists and `LiveChat` instances in the same
  map. Instances sit under `instance_<overlayId>`. When an overlay id collides
  with such a key, the JavaScript throws: `push`, `indexOf` or `stop` is called
  on the wrong kind of value. The model returns `None` in those cases.

## Model

| member | source | states |
|---|---|---|
| Wrappers.FirstSome | server.js:459 | `a \|\| b` over optional arrays: the result is the first present value, and it is absent only when all are absent |
| JsText.Lower | public/overlay.js:120 | lower-casing keeps the length and maps each character on its own |
| JsText.RemoveSpaces | public/overlay.js:120 | `replace(/\s+/g, "")` leaves no whitespace character, never lengthens the string, and leaves a string without whitespace unchanged |
| JsText.RemoveSpacesAppend | public/overlay.js:120 | whitespace is removed from each part of a concatenation separately, so the kept characters stay in order |
| JsText.RemoveSpacesOne | public/overlay.js:120 | a single character is dropped exactly when it is whitespace; with the append lemma this fixes the result as the non-whitespace characters in order |
| JsText.TrimThenRemoveSpaces | public/app.js:23 | trimming before stripping all whitespace makes no difference |
| JsText.StripLeadingAts | server.js:345-347 | `replace(/^@+/, "")` removes exactly the leading run of '@', and the result does not start with '@' |
| JsText.Utf16 | public/overlay.js:171-179 | the UTF-16 code units of a string, at least one per character |
| HtmlEscape.Escape | public/overlay.js:356-368 | escaped text holds no `<`, `>`, `"` or `'`, and is never shorter than the input |
| HtmlEscape.EscapeIdentity | public/app.js:12-20 | escaping changes a string exactly when it holds one of the five special characters |
| HtmlEscape.EscapeAppend | server.js:441-452 | escaping works character by character: it distributes over concatenation |
| HtmlEscape.UnescapeEscape | server.js:421-432 | decoding the five entities inverts escaping, so no text is lost |
| Int32.ToInt32 | public/overlay.js:114 | `\| 0` yields a signed 32-bit integer congruent to its argument modulo 2^32 |
| Int32.ToInt32Unique | public/overlay.js:114 | that 32-bit value is the only one congruent to the argument |
| Int32.ShiftLeft | index.js:25 | `x << n` is a signed 32-bit integer congruent to x·2^n |
| Int32.Imul | public/overlay.js:114 | `Math.imul` is a signed 32-bit integer congruent to the exact product |
| NameColors.UsernameColor | index.js:17-28 | the colour is always one of the 15 palette entries, and the empty name gets '#FF0000' |
| NameColors.SameHashModulo32 | index.js:23-26 | index.js keeps its hash unwrapped except for the `<<` step, yet after wrapping it equals the `Math.imul` hash of overlay.js |
| NameColors.OverlayHashWraps | public/overlay.js:113-114 | the `Math.imul(31,h)+c \| 0` loop equals the exact polynomial hash wrapped once to 32 bits |
| NameColors.FreshNameColor | public/overlay.js:111-118 | the colour is always one of the 14 palette entries |
| NameColors.NameColor | public/overlay.js:111-118 | the cache then holds the name, other entries are untouched, a cached name returns its cached colour, and a sound cache returns what a fresh computation gives |
| Emoji.Decode | public/overlay.js:171-177 | decoding yields at most one code point per code unit, each at most 0x10FFFF |
| Emoji.Combine | public/overlay.js:174 | a surrogate pair decodes to a supplementary code point (0x10000 to 0x10FFFF) |
| Emoji.WithoutSelectors | public/overlay.js:178 | the filter drops exactly the variation selectors 0xFE0E and 0xFE0F, keeps every other code point, and leaves a list without selectors unchanged |
| Emoji.WithoutSelectorsAppend | public/overlay.js:178 | the filter works on each part of a concatenation separately, so the kept code points stay in order and keep their counts |
| Emoji.WithoutSelectorsOne | public/overlay.js:178 | a single code point is dropped exactly when it is a selector |
| Emoji.EmojiToCodepoints | public/overlay.js:171-179 | the loop that skips the second unit of a pair computes the decoding with selectors removed |
| Emoji.DecodeUtf16 | public/overlay.js:171-177 | decoding the UTF-16 form of a string gives back its characters |
| Emoji.ParseHexOfHex | public/overlay.js:163 | `toString(16)` loses nothing: parsing the hex digits gives back the number |
| Emoji.JoinHexRoundTrip | public/overlay.js:163 | the "-"-joined hex list splits and parses back to the code points |
| Emoji.HexFieldsOfJoin | public/overlay.js:163 | the joined list has one field per code point, each that code point's hex |
| Emoji.EmojiStyle | public/overlay.js:161 | a missing or empty parameter means "twitter"; otherwise the parameter is lower-cased letter by letter |
| Emoji.AranjaStyle | public/overlay.js:167 | the style is always apple, google or facebook, and a supported style is kept |
| Emoji.EmojiImageUrl | public/overlay.js:162-170 | twitter and twemoji use the jsdelivr path; apple, google and facebook use their own Aranja path; any other style falls back to apple |
| CompactNumber.ParseCompactNumber | server.js:281-292 | the result is -1 exactly for a missing or empty string, or one whose first `[\d.]` character, once commas are removed, is neither a digit nor a dot directly followed by a digit (so "a.b5" gives -1); otherwise it is at least 0 |
| CompactNumber.ParsePrinted | server.js:283-291 | a whole number n, with any non-numeric text before it and an optional k/m/b suffix in either case after optional whitespace, parses to n·1, n·10^3, n·10^6 or n·10^9 |
| CompactNumber.ParseIgnoresCommas | server.js:283 | commas anywhere in the text do not change the result |
| CompactNumber.ParseMantissa | server.js:285-286 | `parseFloat` of the matched run fails exactly when the run starts with neither a digit nor a dot followed by a digit |
| CompactNumber.RoundHalfUp | server.js:291 | `Math.round` gives the nearest integer, with halves rounded up |
| CompactNumber.Multiplier | server.js:287-290 | the suffix multiplier is 1, 10^3, 10^6 or 10^9 |
| CompactNumber.DecimalValue | index.js:43 | the decimal digits printed for a number read back as that number |
| LiveSelect.ViewerCount | server.js:239-265 | without a numeric field the count is at least -1, and at least 0 once some text parses |
| LiveSelect.ViewerCountSources | server.js:239-265 | the first finite numeric field is the count; without one, the first text that parses gives the count; when no text parses, the count is the parse of the whole item (-1 when that fails too) |
| LiveSelect.FirstCount | server.js:255-259 | the loop returns the value at the first position holding a count, and nothing exactly when no entry is a count |
| LiveSelect.Lives | server.js:200 | the filter keeps exactly the live items and leaves an all-live list unchanged |
| LiveSelect.LivesAppend | server.js:200 | the filter works on each part of a concatenation separately, so live items keep their order, which decides ties |
| LiveSelect.LivesOne | server.js:200 | a single item is kept exactly when it is live |
| LiveSelect.MostViewedUnique | server.js:205-209 | at most one position in a list of viewer counts is the earliest one that no other count exceeds |
| LiveSelect.PickMostViewed | server.js:205-209 | the strict-`>` reduce over the live items' viewer counts returns the earliest position of maximal count |
| LiveSelect.VideoIdOf | server.js:209 | `id` is preferred; `video_id` is used only when `id` is empty; nothing when both are empty |
| LiveSelect.ChooseLiveVideo | server.js:200-211 | with live items, the result is `best?.id \|\| best?.video_id` of the most viewed live item; nothing is chosen when nothing is live; something is chosen when the live items carry ids |
| RunsHtml.PickThumbUrl | server.js:399-402 | the url is the last thumbnail's, else the first's, and non-empty; there is none exactly for a non-array, an empty array, or two empty urls |
| RunsHtml.AltText | server.js:461 | the alt is never empty; it is `shortcuts[0]`, else the label, else "emoji" |
| RunsHtml.RunHtml | server.js:455-468 | a text run gives its escaped text; an emoji with an image gives the `<img>` tag; one without gives its escaped alt; any other run adds nothing; only image tags carry markup |
| RunsHtml.RunsToHtml | server.js:440-472 | without emoji image runs the HTML carries no markup |
| RunsHtml.RunsToHtmlAppend | server.js:453-470 | the runs render one after another, in order |
| RunsHtml.RunsWithoutImages | server.js:440-470 | without emoji images the HTML carries no markup, and decoding it gives the plain text of the runs |
| RunsHtml.TextToHtml | server.js:414-436 | a value with runs renders through `runsToHtml`; a string or an object without runs is escaped; a missing value gives "" |
| RunsHtml.TextWithoutImages | server.js:405-437 | a text without emoji images produces no markup, and decoding its entities gives back the text a reader sees |
| ChatPayload.AnyBadge | server.js:360-368 | a flag is set exactly when some badge's lower-cased tooltip-or-label contains the keyword |
| ChatPayload.MemberBadges | server.js:371-383 | at most one url per badge, each taken from a member badge that has thumbnails |
| ChatPayload.MemberBadgesAppend | server.js:372-383 | member badge urls keep badge order |
| ChatPayload.MemberBadgesImplyMember | server.js:366-383 | a message with member badge urls is flagged as from a member |
| ChatPayload.Author | server.js:337-347 | the author never starts with '@'; it is "User" when every name field is missing; otherwise it is the first present of `author.name`, `author_name.text` and `authorName`, with its leading '@'s removed |
| ChatPayload.ParseAction | server.js:322-394 | an action yields a message exactly when its type is empty or AddChatItemAction and its item type is one of the three message kinds; the message is well formed |
| ChatPayload.ParseActionText | server.js:349-355 | a chat message whose text has no emoji images carries no markup, and decoding it gives back the item's text |
| ChatPayload.ParseActions | server.js:320-397 | the output is never longer than the input, and every message is well formed |
| ChatPayload.ParseActionsAppend | server.js:322 | the output keeps input order: parsing distributes over concatenation |
| ChatPayload.ParseActionsOne | server.js:322-394 | a single action yields its message, or nothing when it is filtered out |
| ChatPayload.NormalizeActions | server.js:307-318 | an array is kept; `actions` wins over `action`; an object with neither but with its own `type`, `item` or `item_type` becomes the one-element list of itself; the result is empty exactly in the listed cases |
| ChatPayload.HandleEvent | server.js:149-153 | a chat event yields at most one message per action, and a missing event yields none |
| ChatManager.NewManager | server.js:47-62 | a new manager has no clients, no queue and nothing sent |
| ChatManager.AddClient | server.js:64-67 | adding a client changes only the client set |
| ChatManager.CloseClient | server.js:66 | a closed client leaves the set, and nothing else changes |
| ChatManager.Enqueue | server.js:75-78 | the message joins the queue, and a flush is scheduled only if none is pending |
| ChatManager.Flush | server.js:79-86 | a flush sends the whole queue as one batch in order, sends nothing for an empty queue, and leaves the queue empty |
| ChatManager.Stop | server.js:89-96 | stop clears the timer and the live chat and keeps the clients and the queue |
| ChatManager.LoopTick | server.js:103-115 | a stopped loop does nothing; otherwise it re-arms, attaches when needed, and marks waiting on failure |
| ChatManager.Start | server.js:98-101 | start clears the stopped flag and runs the loop once |
| ChatManager.ChatEnded | server.js:163-177 | end and error drop the live chat and return to waiting |
| ChatManager.RunConserves | server.js:75-87 | over any run, at most one flush is pending, and the batches sent followed by the queue are exactly the messages enqueued, in order |
| ChatManager.Connect | server.js:475-498 | a connection is turned away exactly without a channel id or a YouTube client; otherwise the channel's manager is created once and the client joins it, and other channels are untouched |
| ChatManager.ConnectTwice | server.js:492-498 | a second connection for a channel joins the first one's manager |
| Sse.FrameRead | index.js:131 | a reader of one `data:` frame gets back exactly the JSON written |
| Sse.FramesRead | index.js:128-133 | a stream of frames reads back as the messages written, in order |
| SseRegistry.IndexOf | index.js:75 | `indexOf` is -1 exactly when the connection is absent; otherwise it is the first position holding it |
| SseRegistry.RemoveFirstCounts | index.js:75-78 | close removes one occurrence of the connection and nothing else |
| SseRegistry.StreamConnect | index.js:66-69 | the connection is appended to the overlay's list, which is created if absent |
| SseRegistry.StreamClose | index.js:72-83 | the first occurrence is removed, the others keep their order, the key is deleted exactly when the list becomes empty, and other keys are untouched |
| SseRegistry.ConnectThenClose | index.js:55-83 | connecting and then closing a new connection restores the registry |
| SseRegistry.StartChat | index.js:144-152 | a failed start gives 500 "Failed to start chat monitoring"; a successful one stores the instance only if none is stored |
| SseRegistry.StopChat | index.js:163-175 | stop deletes a stored instance, is a no-op otherwise, and succeeds |
| SseRegistry.StartThenStop | index.js:150-171 | starting and then stopping an overlay's chat restores the registry |
| SseRegistry.StartMonitor | index.js:142-152 | as written: a started instance runs whether or not it is stored |
| SseRegistry.StartTwiceOrphans | index.js:142-152 | as written: two successful starts leave two instances running, and after `/stop-chat` one keeps running out of reach |
| SseRegistry.StartMonitorFixed | index.js:142-152 | corrected: an instance runs only when it is the one stored |
| SseRegistry.StopMonitor | index.js:163-175 | `/stop-chat` stops the stored instance only |
| SseRegistry.StartFixedTracked | index.js:142-152 | corrected: every running instance stays the stored one, so an overlay has at most one monitor |
| SseRegistry.StopTracked | index.js:163-175 | for a tracked overlay, `/stop-chat` leaves nothing running |
| SseRegistry.MapParts | index.js:112-123 | the part mapping keeps length and order, with text parts for items with text and emoji parts otherwise, and each part reads back as the item it came from |
| SseRegistry.ToMessageInjective | index.js:99-125 | the message loses no field of the chat item: two items giving the same message are the same item |
| SseRegistry.Fanout | index.js:128-133 | one frame is written to every connection registered for the overlay, in list order |
| SseRegistry.FanoutOnce | index.js:128-133 | a connection registered once receives exactly one frame, which reads back as the JSON |
| SseRegistry.GenerateOverlay | index.js:36-47 | a missing channel id gives 400 "Channel ID is required"; otherwise the id is `overlay_<time>_<random>` and the url ends in `/overlay/<id>` |
| Bots.BlockedIsBot | public/app.js:22-25 | every name app.js blocks is one overlay.js drops; "streamlabs" is the one name overlay.js drops and app.js keeps |
| Bots.BlockedKey | public/app.js:23 | trimming first does not change the key app.js compares |
| Bots.LetterNames | public/overlay.js:119-122 | for a lower-case name the overlay drops exactly nightbot, streamlabs and streamelements, and the app only nightbot and streamelements |
| Hype.Initial | public/overlay.js:34-38 | the page starts with no arrivals and the image hidden |
| Hype.DropLeading | public/overlay.js:75 | the `shift` loop removes a prefix of entries all older than the cutoff and keeps the first newer one |
| Hype.DropLeadingSorted | public/overlay.js:73-76 | on a sorted list, dropping the leading old entries drops every old entry |
| Hype.DropOld | public/overlay.js:75 | the `while` loop computes that suffix, and on a sorted list the entries not older than the cutoff |
| Hype.RecordMessages | public/overlay.js:71-77 | count arrivals at now are added; the first remaining entry is within 60 seconds; hype is attempted only when more than 500 remain; with a steady clock the window is sorted and holds exactly the last minute's arrivals |
| Hype.TriggerHype | public/overlay.js:78-92 | within 30 minutes of the last hype, or before the image loads, nothing changes; otherwise the hype time is now, and the image is shown with an 8-second timer only if it was hidden |
| Hype.HideTick | public/overlay.js:87-91 | the timer hides the image and clears itself, keeping the hype time |
| Hype.ShowsSpaced | public/overlay.js:78-92 | two appearances of the image are at least 30 minutes apart |
| OverlayRender.BuildLine | public/overlay.js:290-296 | system lines are signed "System" and others by their author or "User"; member badges are kept only when they are an array |
| OverlayRender.RenderIsShownLines | public/overlay.js:286-305 | the frame loop renders exactly the shown payloads (system lines, and chat not from bots) in queue order |
| OverlayRender.RenderBounds | public/overlay.js:286-305 | each payload renders to at most one line, and the payloads fed to the speed meter are never more than the lines rendered |
| OverlayRender.RenderAppend | public/overlay.js:281-306 | rendering a queue renders its parts one after another |
| OverlayRender.DrainRender | public/overlay.js:276-306 | the frame consumes a prefix of the queue, renders at most 50 lines from it in order, counts the non-system ones, and stops only on an empty queue, 50 lines, or the frame's time; with any time left it consumes at least one payload |
| OverlayRender.KeepLast | public/overlay.js:312 | trimming keeps the newest `maxKeep` lines in order |
| OverlayRender.MaxKeep | public/overlay.js:310-311 | a missing or zero `--max-keep` means 600, and a positive one is used as given |
| OverlayRender.OnMessage | public/overlay.js:141-155 | status, single and batch messages append their payloads to the inbox in order and request a frame; a status becomes an escaped "System" line; other messages change nothing |
| OverlayRender.FlushFrame | public/overlay.js:126-134 | the frame moves the whole inbox to the render queue and starts draining if it received anything |
| OverlayRender.DrainFrame | public/overlay.js:276-318 | the queue loses only the consumed prefix; rendered lines join the trimmed stack; when lines were rendered and some were not system lines, the meter records their number at the frame's clock; another frame is requested exactly while payloads remain |
| AppClient.Get | public/app.js:1-4 | `get` finds the first value of the name and is absent exactly when no pair has that name |
| AppClient.ChannelIdOf | public/app.js:2 | the channel id is the first `channelId` value, or "" when it is missing or empty |
| AppClient.LiveIdOf | public/app.js:3 | `liveId` when it is set and not empty, otherwise `videoId`, otherwise "" |
| AppClient.HandleOf | public/app.js:4 | `handle` when it is set and not empty, otherwise a channel id that starts with '@', otherwise "" |
| AppClient.Connects | public/app.js:204 | the page connects exactly when one of `channelId`, `liveId`, `videoId` or `handle` is set and not empty |
| AppClient.ConnectParams | public/app.js:175-177 | only non-empty values are set, at most three |
| AppClient.ConnectParamsRead | public/app.js:175-177 | the server reads back each parameter that was set, and finds none for an empty value |
| AppClient.ServerNeedsChannel | server.js:477-482 | the server accepts the page's socket exactly when the page has a channel id and YouTube is ready |
| AppClient.ErrorText | public/app.js:185-188 | the logged text is "[overlay] " followed by the message, or "Server error" without one, and, exactly when details are present, " (details)" directly after it, with nothing in between |
| AppClient.PumpTurn | public/app.js:147-167 | one turn reveals up to six messages from the front of the queue, fewer only when the queue runs out; on an empty queue pumping stops |
| AppClient.Push | public/app.js:143-146 | pushing while pumping only queues; pump is never entered twice |
| AppClient.OnMessage | public/app.js:181-198 | errors are logged and change nothing; chat from blocked bots is dropped; other chat is queued and pumped; other messages are ignored |
| AppClient.RunReveals | public/app.js:143-198 | over any run, the batches revealed followed by the queue are exactly the accepted chat messages in order; each batch holds one to six; when not pumping the queue is empty |

## Left out

- Network and library calls are not modelled: `youtubei.js`, `youtube-chat`, Express routes, WebSocket and SSE transports, and `readyState` checks. Their outcomes are parameters: `ytReady`, the `Attach` result, `started`, and the `Received` writes.
- Timers, `requestAnimationFrame`, `await` and `performance.now` are explicit steps. The 10 ms frame budget is an iteration bound given to `DrainRender`.
- `Date.now` and `Math.random` are parameters. The random `id` of index.js messages is not part of `OutMessage`.
- The DOM, CSS, layout, animation, audio and image-loading fallbacks are not modelled.
- `Text#toHTML()`, and the `toText` fallbacks that call `toString` or `JSON.stringify`, depend on library objects. `textToHtml` is modelled from its runs path on. `liveViewerCount`'s last-resort parse takes the stringified item as a given string.
- `resolveLiveInfo`'s second and third strategies, the `/live` endpoint and the first live found, only call the library.
- CompactNumber.ParseCompactNumber: decimal mantissas use exact rationals with round-half-up, not IEEE doubles. Results for mantissas that need more than double precision, and the `Infinity` of a run longer than about 308 digits, are not modelled.
- JsText.Lower: only A–Z are lower-cased. The one non-ASCII character that `toLowerCase` turns into a single ASCII letter is U+212A KELVIN SIGN, which becomes 'k'. No bot name or badge keyword contains a 'k', so the bot filters and badge flags give the same verdicts.
- Emoji.EmojiStyle: "facebook" contains a 'k'. A style parameter spelled with U+212A, such as "FACEBOO\u212A", selects the facebook set in the browser, but the model's style is not "facebook" and `Emoji.AranjaStyle` falls back to apple.
- Strings are sequences of Unicode scalar values. Lone surrogates in JavaScript strings are not modelled, so `Emoji.EmojiToCodepoints` works on code units produced by `JsText.Utf16`.
- NameColors.UsernameColor: the hash uses exact integers with only the `<<` step wrapped, as index.js does. JavaScript doubles stay exact only for names shorter than about 2 million characters.
- Values of the wrong JavaScript type are not modelled: an object where a string or array is expected, a truthy non-array `thumbnails`, or a string `evt` in `normalizeActions`. Missing values are `None` or "".
- OverlayRender.MaxKeep: a negative or non-numeric `--max-keep` is read as 0, meaning 600. In the browser a negative value (`?keep=-1`) makes the trimming loop of public/overlay.js:312 run on past the empty stack, where `removeChild(null)` throws; `drainRender` then stops before clearing `draining`, so no frame is requested again and the overlay stops rendering for good. The model's states cannot express that failure.
- Hype.TriggerHype: the `if (!now) now = Date.now()` fallback is not modelled; the clock reading is always given.
- Hype.ShowsSpaced: states the cooldown for one show–hide–show sequence, not for arbitrary traces.
- Hype.RecordMessages: sortedness and the exact window are promised only when the clock does not go back. That is the only case in which the source keeps them.
- The `ChatManager.broadcast` JSON encoding and `index.js`'s `JSON.stringify` are not modelled. Frames carry the JSON text as a given single-line string.
- The 15-minute audio interval, the hype image candidate list and the font size of overlay.js are not modelled.

## Findings

| source | as written | input that shows it | evidently intended | confidence | as-written member | corrected member |
|---|---|---|---|---|---|---|
| index.js:142-152 | `liveChat.start()` runs before the instance key is checked. When an instance is already stored, the new one is never stored and never stopped. | two successful `POST /start-chat` for the same overlay: both instances write every chat item, so each connection receives it twice, and after `POST /stop-chat` the second instance keeps running with no key left to stop it | one monitor per overlay: the redundant instance is stopped at once | medium, not executed | SseRegistry.StartTwiceOrphans | SseRegistry.StartFixedTracked |
