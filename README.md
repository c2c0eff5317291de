# mirror-bridge: text mirroring through a shared worker

A Dafny model of the text-mirroring relay of mirror-bridge. Two or more
browser pages each hold a text editor and a status line. Each page connects
to one shared worker. When the user types into one page, that page posts
`{ type: 'mirror', source, text }` to the worker. The worker forwards the
message, unchanged, to every other connected port in the order the ports
connected. Every other page whose filter accepts the message then copies
`text` into its own editor; a bridge whose id equals the sender's drops it.
The receiving page raises a `programmaticUpdate` flag around that write.
A received text is not posted again because the receive handler never
posts and a script write to `editor.value` dispatches no `input` event. The
flag guard in the input handler would stop a post only if an `input` event
were dispatched while the flag is up.

The model has five modules: one per source file, one for the shared
message shape, and one that puts the parts together:

- `Messages` (`messages.dfy`): the message as a receiving client sees it.
  `Falsy` stands for a value that fails the `msg && …` test; `Obj(kind,
  source, text)` stands for any other value (`kind` is the JavaScript
  property `type`, a reserved word in Dafny). It also holds the payload
  constructor and the three status texts.
- `SharedWorker` (`sharedworker.dfy`): the worker. `Fanout` is a function
  that specifies the posts made for one relayed message, and a family of
  lemmas is proved about it. The class `Hub` holds `ports` and a log of
  every `postMessage` the worker has made. `Hub.OnMessage` is the loop over
  `ports`, proved to append exactly `Fanout`.
- `Bridge` (`mirrorbridge.dfy`): the reusable `MirrorBridge` class, with
  its inbound filter `Accepts`.
- `MainPage` (`mainpage.dfy`): the stand-alone page script, with id `'main'`
  and a filter that does not test `source`.
- `Scenario` (`scenario.dfy`): clients and worker together. In each
  direction, an edit on one client reaches the other client, nothing is
  posted back to the sender's port, and the receiver posts nothing.

Ports are opaque identities (`nat`). A `postMessage` call is an append to a
log: the worker's `log` of `(port, msg)` pairs, or a client's `outbox`.

The relay in these files is deliberately small. There is no envelope with
`action`, `id` or `replyTo`, no request/reply correlation, no timeouts, no
presence heartbeat, no peer states and no handler registry. Messages are
plain `type`/`source`/`text` objects. The worker never removes a port, so
`ports` only grows. The model describes this behaviour and little beyond
it; where it admits more than the source can do, "## Left out" says so.

## Model

| member | source | states |
|---|---|---|
| SharedWorker.Fanout | MirrorBridge/Web/js/sharedworker.js:11-16 | relaying makes at most one post per registered port; every post goes to a port other than the sender and carries the received message unchanged |
| SharedWorker.FanoutOrder | MirrorBridge/Web/js/sharedworker.js:11-16 | the addressees are exactly the registered ports other than the sender, in registration order (checked against an independent head-first definition, `Without`) |
| SharedWorker.FanoutMembership | MirrorBridge/Web/js/sharedworker.js:11-14 | a post of `m` to `p` is made if and only if `p` is registered, `p` is not the sender, and `m` is the received message |
| SharedWorker.FanoutCount | MirrorBridge/Web/js/sharedworker.js:11-14 | the number of posts is the number of entries in `ports` minus the sender's entries |
| SharedWorker.RelayReaches | MirrorBridge/Web/js/sharedworker.js:11-14 | a relay reaches every registered port other than the sender with the received message, and addresses nothing to the sender |
| SharedWorker.FanoutCountRegisteredOnce | MirrorBridge/Web/js/sharedworker.js:11-14 | a sender registered once causes exactly one post fewer than there are registered ports |
| SharedWorker.RecipientsAppend | MirrorBridge/Web/js/sharedworker.js:11-14 | the addressees of two runs of posts in a row are those of the first run followed by those of the second |
| SharedWorker.WithoutAppend | MirrorBridge/Web/js/sharedworker.js:11-12 | dropping the sender from a concatenation drops it from each part |
| SharedWorker.Hub.constructor | MirrorBridge/Web/js/sharedworker.js:2 | the worker starts with no ports and has made no posts |
| SharedWorker.Hub.Connect | MirrorBridge/Web/js/sharedworker.js:4-6 | the new port is appended at the end; earlier ports keep their positions; the length grows by one; no post is made |
| SharedWorker.Hub.Post | MirrorBridge/Web/js/sharedworker.js:14 | one post is appended to the log; `ports` is unchanged |
| SharedWorker.Hub.OnMessage | MirrorBridge/Web/js/sharedworker.js:8-17 | the handler exists only on a registered port; `ports` is unchanged; the log grows by exactly `Fanout(ports, sender, msg)`; no new post goes to the sender, and each new post carries `msg` |
| Bridge.PayloadAcceptedIffForeign | MirrorBridge/Web/js/mirrorbridge.js:37-46 | a payload posted by id `X` is ignored by the bridge with id `X` and accepted by every bridge with another id |
| Bridge.MirrorBridge.constructor | MirrorBridge/Web/js/mirrorbridge.js:3-24 | once both elements exist: the id and the editor text are as given, the flag is down, status is "연결됨" (connected), and nothing has been posted |
| Bridge.MirrorBridge.Create | MirrorBridge/Web/js/mirrorbridge.js:3-15 | a missing editor fails with "editor element not found"; otherwise a missing status element fails with "status element not found"; otherwise a fresh bridge with the given id and editor text, status "연결됨" (connected), the flag down, nothing posted and no status reset pending |
| Bridge.MirrorBridge.SetStatus | MirrorBridge/Web/js/mirrorbridge.js:50-52 | the status text becomes the argument; nothing else changes |
| Bridge.MirrorBridge.PostMirror | MirrorBridge/Web/js/mirrorbridge.js:45-48 | exactly one message `{type:'mirror', source: clientId, text}` is posted; nothing else changes |
| Bridge.MirrorBridge.OnInput | MirrorBridge/Web/js/mirrorbridge.js:27-32 | with the flag up, nothing changes; with it down, the current editor text is posted, status becomes "전송됨" (sent), and one status reset is scheduled; the editor is never changed |
| Bridge.MirrorBridge.Edit | MirrorBridge/Web/js/mirrorbridge.js:27-30 | user typing: the editor holds the typed text, and the input handler posts exactly that text unless the flag is up |
| Bridge.MirrorBridge.StatusTimerFired | MirrorBridge/Web/js/mirrorbridge.js:31 | a scheduled reset sets status back to "연결됨" (connected) and is consumed; the editor and outbox are unchanged |
| Bridge.MirrorBridge.OnMessage | MirrorBridge/Web/js/mirrorbridge.js:35-43 | a present `mirror` message from another id sets the editor to its text and status to "외부에서 업데이트됨" (updated from outside), and leaves the flag down; any other message changes nothing; nothing is posted |
| MainPage.Accepts | WebView2MirroringApp/Web/js/main.js:13 | only present mirror messages pass, and the verdict is the same whatever the message's `source` |
| MainPage.FilterComparedToBridge | WebView2MirroringApp/Web/js/main.js:13 | the page accepts its own `'main'` payload, which a bridge with id `'main'` drops; the bridge's filter is exactly the page's filter plus the sender test |
| MainPage.Page.constructor | WebView2MirroringApp/Web/js/main.js:1-22 | the page starts with the flag down, status "연결됨" (connected), and nothing posted |
| MainPage.Page.OnMessage | WebView2MirroringApp/Web/js/main.js:11-19 | any present `mirror` message, whatever its `source`, sets the editor to its text and status to "외부에서 업데이트됨" (updated from outside), with the flag down afterwards; falsy and non-mirror messages change nothing |
| MainPage.Page.OnInput | WebView2MirroringApp/Web/js/main.js:24-30 | with the flag up, nothing changes; with it down, `{type:'mirror', source:'main', text: editor.value}` is posted, status becomes "전송됨" (sent), and one reset is scheduled |
| MainPage.Page.Edit | WebView2MirroringApp/Web/js/main.js:24-28 | user typing: the editor holds the typed text, which is posted with source `'main'` unless the flag is up |
| MainPage.Page.StatusTimerFired | WebView2MirroringApp/Web/js/main.js:29 | a scheduled reset sets status back to "연결됨" (connected) and is consumed |
| Scenario.BridgeToBridge | MirrorBridge/Web/js/mirrorbridge.js:27-47 | two bridges with distinct ids on distinct registered ports: after an edit at A, B's editor equals A's text, B shows "updated", at least one post reached B's port, none went to A's port, B posted nothing, A has one more status reset pending and B none more |
| Scenario.PageToBridge | WebView2MirroringApp/Web/js/main.js:24-27 | the page `'main'` and a bridge with another id: an edit on the page reaches the bridge, nothing goes back to the page, the bridge posts nothing, and only the page gains a pending status reset |
| Scenario.BridgeToPage | WebView2MirroringApp/Web/js/main.js:11-18 | a bridge and the page: an edit on the bridge reaches the page, nothing goes back to the bridge, the page posts nothing, and only the bridge gains a pending status reset |

`Messages.IsMirror` and `Bridge.Accepts` define the inbound tests at
`MirrorBridge/Web/js/mirrorbridge.js:37` and `WebView2MirroringApp/Web/js/main.js:13`,
and `Messages.MirrorPayload` defines the payload literal at
`MirrorBridge/Web/js/mirrorbridge.js:46` and `WebView2MirroringApp/Web/js/main.js:26`.
Their properties are stated by `Bridge.PayloadAcceptedIffForeign`,
`MainPage.FilterComparedToBridge`, `MainPage.Accepts` and the
`OnMessage`, `OnInput` and `PostMirror` rows above.

## Left out

- The desktop hosts (`MirrorBridge/MirroringMain/MainForm.cs`, `MirrorBridge/WinFormsApp/MainForm.cs`): window layout, WebView2 environment creation and navigation are host plumbing over a library that is not part of this model.
- Registering one port twice: the model's `Hub.Connect` accepts a port id that is already in `ports`. The browser hands `onconnect` a fresh port every time, so the source can never register one port twice. The model is more general here: the fan-out lemmas count one post per entry other than the sender, and `FanoutCountRegisteredOnce` gives the source's `|ports| - 1` case.
- `MirrorBridge/Web/js/sub.js` has no logic of its own. It only builds a bridge with id `'sub'`, which is the bridge of the `PageToBridge` and `BridgeToPage` scenarios.
- `new SharedWorker(...)`, `port.start()`, the worker path, `document.getElementById` and `console.log` are browser I/O. Ports are opaque ids, and `postMessage` is an append to a log.
- The stand-alone page is modelled only when both of its elements exist: `MainPage.Page`'s constructor takes the editor's current text. In the script, a missing status element throws at its first status write, and a missing editor throws when the input listener is attached; neither failure is modelled.
- Element lookup by id string in the bridge constructor is DOM I/O. `Create` takes the lookup's outcome: an element's current text, or `None` for an element that was not found.
- `setTimeout(..., 600)`: the clock is not modelled. A scheduled reset is a counter, and the environment fires a reset by calling `StatusTimerFired`. Nothing here says when that happens or how it interleaves with other events.
- Bridge.MirrorBridge.SetStatus: the `if (this.status)` test is not modelled. The constructor has already refused a missing status element, so the test always passes.
- A `text` property that is missing or is not a string is not modelled. The browser would turn it into a string when setting `editor.value`. `text` is always a string here.
- An `input` event during the programmatic write is not modelled. Setting `editor.value` from a script dispatches no `input` event, and the flag is lowered before the handler returns. So between events the flag is always down (`Valid()`), and the guard in `OnInput` is proved for whatever flag value it meets.
- Disconnect handling, request/reply correlation, timeouts, presence heartbeats, peer states and handler registries are not present in the source files, so they are not modelled.
