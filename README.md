# WebSocket chat with auto-reconnect: a verified model

This project models two parts of a small WebSocket chat.

- **The server hub** (`WebSocketApp/WebSocketApp/Program.cs`):
  - A registry maps each accepted socket to a display name.
  - The `/ws` handler admits a request, runs the socket's receive loop, and cleans up in `finally`.
  - `BroadcastMessage` sends a text to every registered socket that is Open.
- **The client chat page** (`WebSocketClient/client/src/components/ChatRoom.jsx`), without its rendering:
  - how a received message updates the participant count and the message log;
  - which messages are styled as notifications;
  - the guards around connecting, reconnecting once, and sending.

The two parts meet in the wire format. The server writes
`"<name> joined the chat. Users online: <n>"` and the matching `left` text. The
client reads the count back with `includes`, `split` and `parseInt`.

Modules:

- `Wrappers`: an `Option` type.
- `Text`: substring search (`includes`, the first occurrence) and joining.
- `Decimal`: the decimal text of a natural number.
- `Wire`: the three server message formats.
- `Registry`: `ConcurrentDictionary.TryAdd` and `TryRemove` as values.
- `BroadcastHub`: the hub.
  - Class `Hub` holds the registry `clients`, each socket's `state`, and each socket's `outbox`.
  - `outbox` is what the socket was sent, oldest first. Sending is appending to it.
  - Receiving is taking the next `Frame` (text, binary or close) of a sequence given by the caller.
  - When that sequence runs out, the peer is gone: the receive faults and the socket is Aborted.
- `JsText`: JavaScript `String.prototype.split` with a string separator, and `parseInt(s, 10)`.
- `ChatRoom`: count extraction, the notification test, and class `ChatClient` for the page's state and event handlers.
- `WireRoundTrip`: what the client reads from what the server writes.

Inputs from outside the code are parameters:

- whether the request is a WebSocket request;
- the values of the `name` query parameter;
- the frames the peer sends;
- on the client, the events of the browser socket and of the timer.

Each handler step runs atomically, one after another.

## Model

| member | source | states |
|---|---|---|
| BroadcastHub.Hub.constructor | WebSocketApp/WebSocketApp/Program.cs:10 | The registry starts empty, with no sockets and no outboxes. |
| BroadcastHub.Hub.Admit | WebSocketApp/WebSocketApp/Program.cs:14-27 | Status 400 exactly when the request is not a WebSocket request or `name` converts to the empty string (absent, or every value empty). Then nothing changes. Otherwise a fresh Open socket is registered under the name before the announcement. The join text carries the registry size after insertion. It reaches every Open registered socket, the newcomer included. |
| BroadcastHub.Hub.Handle | WebSocketApp/WebSocketApp/Program.cs:14-43 | The whole handler, with no other socket acting meanwhile. Status 400 leaves everything unchanged. Otherwise the newcomer hears its join text and its chat lines, but not its leave text. Each already-Open participant hears all three, in order. Every other socket hears nothing. The registry ends as it began, and one identity is used up exactly when the request was upgraded. |
| BroadcastHub.Hub.Serve | WebSocketApp/WebSocketApp/Program.cs:29-38 | After the receive loop, however it ended, the socket is unregistered. It ends CloseReceived or Aborted. The leave text, with the size after removal, reaches the Open members except the leaver. |
| BroadcastHub.Hub.Cleanup | WebSocketApp/WebSocketApp/Program.cs:33-38 | The socket is removed from the registry; removing an absent socket is a no-op. The size drops by one only if it was present. The leave text with the new size goes to the remaining Open members. The leaver's own outbox is unchanged. |
| BroadcastHub.QueryValue | WebSocketApp/WebSocketApp/Program.cs:16-17 | The `name` parameter converts to the empty string exactly when every value is empty (or there is none); a single value converts to itself. |
| BroadcastHub.QueryValueIgnoresEmpty | WebSocketApp/WebSocketApp/Program.cs:16 | Empty values, wherever they stand among the others, do not change the converted name. |
| BroadcastHub.NonEmptyValues | WebSocketApp/WebSocketApp/Program.cs:16 | The conversion keeps exactly the non-empty values. |
| BroadcastHub.NonEmptyValuesCounts | WebSocketApp/WebSocketApp/Program.cs:16 | Each non-empty value is kept as many times as it occurs, and the empty values are all dropped. |
| BroadcastHub.OpenMembers | WebSocketApp/WebSocketApp/Program.cs:67-69 | A broadcast reaches exactly the registered sockets in state Open; with an empty registry, none. |
| BroadcastHub.Hub.Broadcast | WebSocketApp/WebSocketApp/Program.cs:64-74 | Exactly one copy of the message is appended to each Open registered socket and to nothing else. Registry and states are unchanged. With an empty registry nothing changes. |
| BroadcastHub.SendToOpen | WebSocketApp/WebSocketApp/Program.cs:67-73 | The `foreach` over the registry, in any order, yields exactly `AppendTo` of the Open members. |
| BroadcastHub.AppendTo | WebSocketApp/WebSocketApp/Program.cs:67-73 | Each target's outbox gains the message at its end. Every other outbox is unchanged. No outbox is created or dropped. |
| BroadcastHub.AppendToNobody | WebSocketApp/WebSocketApp/Program.cs:67 | A broadcast with no targets changes no outbox. |
| BroadcastHub.OpenMembersAdmit | WebSocketApp/WebSocketApp/Program.cs:24-27 | Registering a socket that is Open adds exactly that socket to the broadcast targets. |
| BroadcastHub.OpenMembersRemove | WebSocketApp/WebSocketApp/Program.cs:35-37 | Unregistering a socket that is no longer Open removes exactly that socket from the broadcast targets. |
| BroadcastHub.Hub.ReceiveMessages | WebSocketApp/WebSocketApp/Program.cs:46-62 | A socket not Open receives nothing and changes nothing. Otherwise, each text frame before the first close frame becomes `"<name>: <payload>"` for the Open members, the sender included, in arrival order. Binary frames are ignored. The socket ends CloseReceived at a close frame, or Aborted when the peer is gone. |
| BroadcastHub.ReceiveLoop | WebSocketApp/WebSocketApp/Program.cs:49-61 | The same loop on the registry, states and outboxes as values. |
| BroadcastHub.DeliverUntilClose | WebSocketApp/WebSocketApp/Program.cs:49-61 | The loop stops exactly at the exit point: the first close frame, or the end of the frames. The outboxes hold the chat lines of all frames handled. |
| BroadcastHub.DeliverFrame | WebSocketApp/WebSocketApp/Program.cs:51-56 | One received frame: a text frame is broadcast as one chat line, and any other frame sends nothing. |
| BroadcastHub.DeliveryStep | WebSocketApp/WebSocketApp/Program.cs:52-56 | Handling one more frame extends the delivered chat lines by that frame's line, if it is a text frame. |
| BroadcastHub.ChatLines | WebSocketApp/WebSocketApp/Program.cs:52-55 | At most one chat line per frame handled, and none when no handled frame is a text frame. |
| BroadcastHub.AppendAll | WebSocketApp/WebSocketApp/Program.cs:55 | After a run of broadcasts to fixed targets, each target's outbox ends with the whole run in order. The others are unchanged. |
| BroadcastHub.AppendAllSnoc | WebSocketApp/WebSocketApp/Program.cs:55 | One more broadcast extends a run of broadcasts. |
| BroadcastHub.CloseIndex | WebSocketApp/WebSocketApp/Program.cs:57-60 | The loop's exit point: the first close frame, or the end of the frames. |
| BroadcastHub.CloseIndexIs | WebSocketApp/WebSocketApp/Program.cs:57-60 | An index with no close frame before it, and a close frame or the end at it, is that exit point. |
| BroadcastHub.SessionDelivery | WebSocketApp/WebSocketApp/Program.cs:27-37 | What each socket has heard after join, chat and leave. |
| Registry.TryAdd | WebSocketApp/WebSocketApp/Program.cs:24 | Inserts only an absent key and reports whether it did. An existing entry is untouched, and the size grows by exactly one on insertion. |
| Registry.TryAddPresentIsNoOp | WebSocketApp/WebSocketApp/Program.cs:24 | Adding a key that is already registered leaves the registry unchanged and reports false. |
| Registry.TryRemove | WebSocketApp/WebSocketApp/Program.cs:35 | Removes the key if present and returns its value; otherwise nothing changes. |
| Registry.TryRemoveIdempotent | WebSocketApp/WebSocketApp/Program.cs:35 | Removing twice is removing once. The second removal finds nothing. |
| Registry.TryAddThenRemove | WebSocketApp/WebSocketApp/Program.cs:24-35 | Removing a key just added restores the registry and returns the added value. |
| Text.Join | WebSocketApp/WebSocketApp/Program.cs:16 | Joining no values gives the empty string, one value gives itself, and several start with the first. |
| Wire.JoinAnnouncement | WebSocketApp/WebSocketApp/Program.cs:27 | The join text starts with the name and ends with the separator `"Users online: "` and the count's digits. |
| Wire.LeaveAnnouncement | WebSocketApp/WebSocketApp/Program.cs:37 | The leave text starts with the name and ends with the separator and the count's digits. |
| Wire.ChatLine | WebSocketApp/WebSocketApp/Program.cs:55 | A chat line is the name, two characters, then the payload unchanged. |
| Decimal.Format | WebSocketApp/WebSocketApp/Program.cs:27 | The count's text is a non-empty digit run with no leading zero except for 0 itself. |
| Decimal.ValueOfFormat | WebSocketApp/WebSocketApp/Program.cs:27 | The count's text denotes the count. |
| Text.FindFrom | WebSocketClient/client/src/components/ChatRoom.jsx:36 | The first occurrence at or after a position, or the knowledge that there is none. |
| Text.Contains | WebSocketClient/client/src/components/ChatRoom.jsx:35 | `includes` never finds a text longer than the message, and always finds the empty text. |
| Text.ContainsIff | WebSocketClient/client/src/components/ChatRoom.jsx:35 | `includes` holds exactly when the text occurs at some position. |
| JsText.Split | WebSocketClient/client/src/components/ChatRoom.jsx:36 | `split` always yields at least one piece. |
| JsText.SplitMoreThanOne | WebSocketClient/client/src/components/ChatRoom.jsx:36 | There is a second piece exactly when the separator occurs. |
| JsText.SplitPiecesFree | WebSocketClient/client/src/components/ChatRoom.jsx:36 | No piece contains the separator. |
| JsText.SplitFirst | WebSocketClient/client/src/components/ChatRoom.jsx:36 | The first piece is the text before the first separator. The second piece is the first piece of the rest. |
| JsText.SplitJoin | WebSocketClient/client/src/components/ChatRoom.jsx:36 | Joining the pieces with the separator gives back the text. |
| JsText.TrimStart | WebSocketClient/client/src/components/ChatRoom.jsx:36 | `parseInt` skips exactly the leading white space. |
| JsText.DigitRun | WebSocketClient/client/src/components/ChatRoom.jsx:36 | `parseInt` reads the longest prefix of decimal digits. |
| JsText.ParseInt | WebSocketClient/client/src/components/ChatRoom.jsx:36 | A non-empty run of digits parses to the number it denotes. |
| JsText.ParseSigned | WebSocketClient/client/src/components/ChatRoom.jsx:36 | After the white space: digits alone give their value, and a negative result needs a leading minus sign. |
| JsText.ParseIntSkipsSpace | WebSocketClient/client/src/components/ChatRoom.jsx:36 | Leading white space does not change the result. |
| JsText.ParseIntNaN | WebSocketClient/client/src/components/ChatRoom.jsx:36-37 | NaN exactly when no digit follows the white space and the optional sign. |
| JsText.ParseIntFormat | WebSocketClient/client/src/components/ChatRoom.jsx:36 | The decimal text of a count parses to that count. |
| JsText.ParseIntUndefined | WebSocketClient/client/src/components/ChatRoom.jsx:36 | With no second piece, `parseInt(undefined)` is NaN. |
| JsText.DigitRunOf | WebSocketClient/client/src/components/ChatRoom.jsx:36 | Digits followed by text that does not start with a digit: `parseInt` reads exactly those digits. |
| JsText.ParseIntDigitsThenText | WebSocketClient/client/src/components/ChatRoom.jsx:36 | Digits followed by any text not starting with a digit parse to the value of the digits. |
| JsText.ParseIntMinusDigitsThenText | WebSocketClient/client/src/components/ChatRoom.jsx:36 | The same after a minus sign gives the negated value. |
| JsText.ParseIntPlusDigitsThenText | WebSocketClient/client/src/components/ChatRoom.jsx:36 | The same after a plus sign gives the value itself. |
| JsText.ParseIntNonNumericStart | WebSocketClient/client/src/components/ChatRoom.jsx:36 | Text whose first character is neither white space, a sign nor a digit parses to NaN. |
| ChatRoom.ExtractCount | WebSocketClient/client/src/components/ChatRoom.jsx:35-37 | A count is found only in a message that contains the label and the separator. |
| ChatRoom.ExtractSecondPiece | WebSocketClient/client/src/components/ChatRoom.jsx:35-36 | With the label present and a second piece, the count is that piece parsed. |
| ChatRoom.NextUserCount | WebSocketClient/client/src/components/ChatRoom.jsx:35-37 | The count changes only to a number the message carries. Without the separator it is unchanged. When a number is found, it becomes the count. |
| ChatRoom.IsNotification | WebSocketClient/client/src/components/ChatRoom.jsx:105 | A message is styled as a notification exactly when `"joined"` or `"left"` occurs somewhere in it. |
| ChatRoom.ChatClient.constructor | WebSocketClient/client/src/components/ChatRoom.jsx:4-11 | Initial state: empty name, log and input; disconnected; count 0; no socket and no timer handle. |
| ChatRoom.ChatClient.SetUserName | WebSocketClient/client/src/components/ChatRoom.jsx:85 | Typing sets the name. |
| ChatRoom.ChatClient.SetInputMessage | WebSocketClient/client/src/components/ChatRoom.jsx:114 | Typing sets the message box. |
| ChatRoom.ChatClient.ConnectWebSocket | WebSocketClient/client/src/components/ChatRoom.jsx:13-24 | Nothing happens with an empty name or an Open socket. Otherwise a new Connecting socket replaces the current one. |
| ChatRoom.ChatClient.OnOpen | WebSocketClient/client/src/components/ChatRoom.jsx:26-30 | Connected. The pending reconnect is cancelled, but the stored timer handle stays. |
| ChatRoom.ChatClient.OnMessage | WebSocketClient/client/src/components/ChatRoom.jsx:32-41 | The count becomes `NextUserCount`. The message is appended at the end of the log, and earlier entries keep their order. |
| ChatRoom.ChatClient.OnClose | WebSocketClient/client/src/components/ChatRoom.jsx:47-57 | Disconnected. A reconnect is scheduled only if no timer handle was ever stored, so at most one reconnect is ever scheduled. |
| ChatRoom.ChatClient.ReconnectTimerFires | WebSocketClient/client/src/components/ChatRoom.jsx:52-55 | The scheduled reconnect runs `connectWebSocket` with its guards. |
| ChatRoom.ChatClient.SendMessage | WebSocketClient/client/src/components/ChatRoom.jsx:70-75 | With a socket and connected, the box's text is sent and the box cleared. Otherwise nothing changes. |
| WireRoundTrip.AnnouncementCountRoundTrip | WebSocketClient/client/src/components/ChatRoom.jsx:35-37 | The client reads back the count of every join and leave text. The condition is that the name, followed by a space, does not contain `"Users online: "`. |
| WireRoundTrip.NameEndingInLabelLosesCount | WebSocketClient/client/src/components/ChatRoom.jsx:35-37 | A name without the separator is not enough. For the name `"Users online:"` the client parses the phrase, gets NaN, and loses the count. |
| WireRoundTrip.CountAfterSeparator | WebSocketClient/client/src/components/ChatRoom.jsx:35-37 | Any text, the separator and a count yield the count, if the separator first occurs there. |
| WireRoundTrip.SeparatorFirstAt | WebSocketClient/client/src/components/ChatRoom.jsx:36 | The separator first occurs where it was put, when nothing before it, run into the label, spells it. |
| WireRoundTrip.DigitsStayWhole | WebSocketClient/client/src/components/ChatRoom.jsx:36 | Splitting a digit run leaves it whole. |
| WireRoundTrip.AnnouncementPrefixClean | WebSocketApp/WebSocketApp/Program.cs:27 | Under the name condition, the announcement text before the count holds no separator. |
| WireRoundTrip.ChatLineSetsCount | WebSocketApp/WebSocketApp/Program.cs:55 | A chat line whose text is the separator and a number sets every client's count to that number, when the sender's name followed by `": Users online:"` does not contain the separator. |
| WireRoundTrip.AnnouncementsAreNotifications | WebSocketClient/client/src/components/ChatRoom.jsx:105 | Join and leave texts are always styled as notifications. |
| WireRoundTrip.WordAroundColon | WebSocketClient/client/src/components/ChatRoom.jsx:105 | A word without colon or space occurs in `"a: b"` exactly when it occurs in `a` or in `b`. |
| WireRoundTrip.ChatLineNotificationIff | WebSocketClient/client/src/components/ChatRoom.jsx:105 | A chat line is styled as a notification exactly when the sender's name or the text contains `"joined"` or `"left"`. |

## Left out

**Hosting and I/O**
- ASP.NET hosting, routing and the listening URL (Program.cs lines 5-9, 12, 76): framework plumbing.
- `Console.WriteLine` logging, and the client's `console` calls and `onerror` handler: they only log.
- UTF-8 encoding and decoding, and the 4 KB receive buffer. A payload is a string, and one text frame is one message. A message longer than the buffer, which the server would split into several, is not modelled.
- Exceptions from `SendAsync` and `AcceptWebSocketAsync` are not modelled. The only receive failure modelled is the peer vanishing, which aborts the socket.

**Concurrency**
- The thread safety of `ConcurrentDictionary` and the interleaving of handler tasks are not modelled.
- `BroadcastHub.Hub.Handle` covers one request with no other socket acting while it runs. Each step is atomic.
- `BroadcastHub.ReceiveLoop` runs the loop over the registry, states and outboxes as values. Nothing else changes them while it runs.

**Modelling choices in the hub**
- A `StringValues` holding no value converts to null rather than the empty string. Both are rejected by the same test, so `BroadcastHub.QueryValue` uses the empty string for both.
- Accepted sockets get fresh identities. So `TryAdd` in `BroadcastHub.Hub.Admit` always inserts, and its duplicate-key branch is stated on `Registry.TryAdd` and `Registry.TryAddPresentIsNoOp` alone.
- A socket's state changes only at the end of its own receive loop. A peer-initiated close during a broadcast is not modelled.
- The client's socket states are reduced to Connecting, Open and Closed. Events from a socket that has already been replaced are not modelled.

**The client page**
- React rendering, styles, the `isNameEntered` flag and the `useEffect` lifecycle (ChatRoom.jsx lines 60-68, 77-138) are not modelled. This includes the effect's cleanup that closes the socket.
- `ChatRoom.ChatClient.ReconnectTimerFires`: the 3000 ms delay of `setTimeout` is not modelled; the timer is a flag that a later event fires.
- The callback reads the current name, not the one captured by `useCallback`. The two differ only if the name changes after joining, which the page's input does not allow.
- `encodeURIComponent` and the connection URL: a library call. The name reaches the server as given.

**Parsing and round-trip**
- `JsText.ParseInt`: JavaScript numbers are doubles. The rounding of values above 2^53 (about 16 digits) and the `Infinity` that `parseInt` returns past about 309 digits are not modelled; the result is the exact integer.
- `WireRoundTrip.AnnouncementCountRoundTrip` holds under a condition on the name that the server does not check. `WireRoundTrip.NameEndingInLabelLosesCount` shows that the weaker condition, "the name does not contain the separator", is not enough.
