# Temporary chat rooms: the room engine in Dafny

This project models the in-memory room engine of a temporary group chat.
Rooms are created under fresh ids. People join a room under a name that
must be unique in that room. They exchange messages that expire together
at the end of each ten-minute cycle, counted from the room's creation.
The project also models the small client-side helpers and state updaters
of the chat page that mirror this engine.

Modules, one per concern:

- `Wrappers`: `Option`, standing for JavaScript's `null` / `undefined`.
- `OrderedSet`: a JavaScript `Set`, and the key order of a `Map`, kept as a
  duplicate-free sequence in insertion order, with `add` and `delete`.
- `Cycle`: `MESSAGE_EXPIRY` and the cycle-boundary formula of
  `cleanExpiredMessages`.
- `Protocol`: stored messages, socket events with their payloads, and the
  effects a handler returns instead of emitting.
- `RoomServer`: the store `activeRooms` as class `Server`. Its fields are
  `rooms`, a map from room id to a `Room` value, and `order`, the Map's key
  order. `Connection` holds one socket's `username` and `roomId`. Every
  socket handler and the periodic sweep is a method of `Server`.
- `Decimal`: `Number.prototype.toString()` for the small whole numbers of
  the countdown, and its inverse.
- `ChatClient`: `formatTime`, `getProgressColor`, the countdown, and class
  `ChatRoomState` with the page's state. One method per socket listener and
  one for the timer tick.
- `Scenarios`: two end-to-end scenarios composed from the handlers, with their outcomes proved.

Clock readings (`Date.now`) and fresh ids (`uuidv4`) are parameters. What a
handler would send over socket.io is returned as a list of `Effect`s:

- `Emit(scope, event)`, where the scope is the sender, the whole room, or
  the room without the sender;
- `Subscribe(roomId)` for `socket.join`;
- `ScheduleCleanup(roomId, delay)` for the `setTimeout` of the empty-room
  deletion.

When that timer fires, the environment calls `Server.DeleteIfEmpty`. Each
tick of the periodic timer is one call of `Server.Sweep`.

The model follows the code where an idealised design would differ:

- An unknown room id is an error (`Room not found`) in `check_username`,
  `join_room` and `send_message`. Nothing is created on lookup.
- The cycle boundary is not clamped when the clock reads earlier than the
  room's creation. The index is then negative (`Cycle.CycleStartBeforeCreation`).
- `typing` and `stop_typing` are relayed unconditionally. The server keeps
  no typing state and does no debouncing.
- The sweep empties rooms of expired messages. It announces
  `messages_cleared` whenever the boundary is truthy, whether or not it
  moved. It deletes no rooms.
- Empty rooms are deleted only by the timer that a disconnect starts. That
  timer deletes the room if it is empty when it fires, however recently the
  last member left.
- `send_message` does not require the sender to have joined. The stored
  message then carries no user name.

Two details of the JavaScript are kept explicit:

- Truthiness. `disconnect` acts only when `socket.roomId` and
  `socket.username` are non-empty strings, so a member who joined under the
  empty name is never removed (`Scenarios.EmptyNameStays`). The sweep
  announces only a boundary other than 0.
- The two clock reads of `send_message`. The timestamp is read first, and
  `cleanExpiredMessages` reads the clock again.

## Model

| member | source | states |
|---|---|---|
| `Cycle.CycleStart` | server.js:40 | the boundary is aligned with the creation time (a whole number of 600000 ms windows away) and its window contains `now`: `start <= now < start + 600000`, for every clock reading |
| `Cycle.CycleStartUnique` | server.js:40 | any aligned boundary whose window contains `now` is the computed boundary, so the formula picks the window holding `now` |
| `Cycle.CycleStartMonotonic` | server.js:40 | the boundary never moves backwards as the clock advances |
| `Cycle.CycleStartIdempotent` | server.js:40 | recomputing the boundary at the boundary itself gives it back |
| `Cycle.CycleStartBeforeCreation` | server.js:40 | with no clamp, a reading before creation puts the boundary at least one window before the creation time |
| `Cycle.CycleStartAfterCreation` | server.js:40 | from the creation time on, the boundary is never before the creation time |
| `OrderedSet.Add` | client/src/components/ChatRoom.jsx:333 | `Set.add`: the members are the old ones plus `x`; a new `x` goes last and the rest keep their places; a present `x` changes nothing; no duplicates are introduced |
| `OrderedSet.Remove` | server.js:154 | `Set.delete`: exactly `x` disappears, every other element stays; an absent `x` changes nothing; a present one shrinks the set by one; no duplicates are introduced |
| `OrderedSet.RemoveConcat` | server.js:154 | deletion distributes over concatenation, so the survivors keep their relative order |
| `RoomServer.KeepCurrent` | server.js:41-43 | the filter never lengthens the log |
| `RoomServer.KeepCurrentExactly` | server.js:41-43 | a message is kept iff it was in the log and is stamped at or after the boundary |
| `RoomServer.KeepCurrentConcat` | server.js:41-43 | the filter distributes over concatenation: relative order is preserved |
| `RoomServer.KeepCurrentAllCurrent` | server.js:41-43 | a log whose messages are all current passes unchanged |
| `RoomServer.KeepCurrentIdempotent` | server.js:41-43 | filtering twice with the same boundary equals filtering once |
| `RoomServer.Prune` | server.js:36-47 | cleaning a room keeps its creation time and members and never lengthens its log |
| `RoomServer.PruneKeepsCurrentCycle` | server.js:36-47 | after cleaning, the log holds exactly the old log's messages stamped at or after the current cycle start |
| `RoomServer.PruneIdempotent` | server.js:36-47 | two clean-ups at the same time leave the room as one does |
| `RoomServer.SynchronizedClear` | server.js:40-43 | a message sent 599 s after creation is kept at 599.999 s and dropped at 600.001 s |
| `RoomServer.JoinThenLeaveRestoresMembers` | server.js:102-154 | adding a new name and then deleting it gives back the same member list in the same order |
| `RoomServer.ClearedAnnouncement` | server.js:177-180 | a room produces one `messages_cleared` with its current boundary iff it exists and the boundary is not 0, and nothing otherwise |
| `RoomServer.SweepEffects` | server.js:176-180 | the sweep's announcements, room by room in key order: at most one per swept room |
| `RoomServer.SweepEffectsExactly` | server.js:175-182 | an effect is in a sweep's output iff it is the announcement of one of the swept rooms |
| `RoomServer.SweptRooms` | server.js:175-182 | cleaning rooms one after the other keeps the set of room ids, and every room's creation time and members |
| `RoomServer.SweptRoomsExactly` | server.js:175-182 | over distinct ids, each listed room is cleaned exactly once at `now` and every unlisted room is untouched |
| `RoomServer.SweptRoomsAllCurrent` | server.js:175-182 | a sweep over every stored id leaves each room cleaned once, holding only messages of its current cycle |
| `RoomServer.Truthy` | server.js:151 | defines JavaScript truthiness of an optional string: set and not empty (`undefined` and `""` are falsy) |
| `RoomServer.Connection.constructor` | server.js:100-101 | a new socket is bound to no user name and no room until a join sets both |
| `RoomServer.Server.constructor` | server.js:33 | the store starts empty |
| `RoomServer.Server.CleanExpiredMessages` | server.js:36-47 | an unknown room: returns null and changes nothing. A known room: returns its current cycle start, replaces only that room's log by the filtered log, and leaves every other room and the key order alone |
| `RoomServer.Server.CreateRoom` | server.js:52-61 | the id now maps to a room created now with no members and no messages; all other rooms are unchanged; a new id goes last in the key order |
| `RoomServer.Server.CheckUsername` | server.js:68-83 | one reply to the sender, available iff the room exists and the name is not a member; the error is "Room not found" or "Username already taken", and no error accompanies an available name; nothing changes |
| `RoomServer.Server.JoinRoom` | server.js:85-115 | an unknown room or a taken name: one error to the sender, with room, members, log and binding unchanged. Otherwise the connection is bound to (room, name) and exactly that name is added (one more member). The log is cleaned, and every message sent to the joiner lies in the current cycle. The effects are subscribe, `room_joined` to the joiner, then `user_joined` with the member list to the room |
| `RoomServer.Server.Typing` | server.js:117-119 | `user_typing` with the payload's name goes to the rest of the room, unconditionally |
| `RoomServer.Server.StopTyping` | server.js:121-123 | `user_stopped_typing` with the payload's name goes to the rest of the room, unconditionally |
| `RoomServer.Server.SendMessage` | server.js:125-148 | an unknown room: one error to the sender and no change. Otherwise the room's log is cleaned, then the message is appended at its end with the connection's (possibly absent) name and the given timestamp, and it is broadcast to the room. Nothing else changes |
| `RoomServer.Server.Disconnect` | server.js:150-171 | with no truthy binding, or a room no longer stored, nothing happens. Otherwise only that name leaves the members (one fewer if it was there). The room gets `user_left` with the new list, and the deletion is scheduled after one window iff the room is now empty |
| `RoomServer.Server.DeleteIfEmpty` | server.js:162-167 | the room is removed, from the map and from the key order, iff it is still stored and has no members; otherwise nothing changes |
| `RoomServer.Server.SweepRoom` | server.js:176-180 | one step of the sweep: only that room, if stored, is cleaned at `now`; its announcement is `messages_cleared` with the boundary iff the room exists and the boundary is not 0 |
| `RoomServer.Server.Sweep` | server.js:175-182 | every room keeps its place and is cleaned at `now`, so all stored messages lie in their room's current cycle; the effects are the announcements for the rooms in key order |
| `Scenarios.AliceSaysHi` | server.js:52-182 | room created at 0, alice joins, says "hi" at 10 s: she is the only member, the message is broadcast, and a sweep at 601 s leaves an empty log and announces boundary 600000 |
| `Scenarios.EmptyNameStays` | server.js:150-154 | a member who joined under the empty name is still a member after disconnecting, and nothing is emitted |
| `Decimal.NatToString` | client/src/components/ChatRoom.jsx:38-40 | decimal digits with no leading zero, one digit exactly below 10, that parse back to the number |
| `ChatClient.PadStart2` | client/src/components/ChatRoom.jsx:40 | strings of two or more characters are unchanged; shorter ones are left-filled with '0' to length two |
| `ChatClient.FormatTime` | client/src/components/ChatRoom.jsx:37-41 | "m:ss": a colon third from the end, decimal minutes `s div 60` before it and exactly two digits with value `s mod 60` after it; the minutes carry no leading zero (a text starting with '0' is "0:ss") |
| `ChatClient.FormatTimeRoundTrip` | client/src/components/ChatRoom.jsx:37-41 | reading the text back as `m*60 + ss` gives the seconds it came from |
| `ChatClient.ProgressColor` | client/src/components/ChatRoom.jsx:43-47 | green iff more than 300 s are left, yellow iff 120 < t <= 300, red iff t <= 120 |
| `ChatClient.ProgressColorNeverRelaxes` | client/src/components/ChatRoom.jsx:43-47 | as the time left decreases, the colour only moves green to yellow to red |
| `ChatClient.CeilDiv1000` | client/src/components/ChatRoom.jsx:277 | the ceiling of a millisecond count in seconds: `(q-1)*1000 < d <= q*1000` |
| `ChatClient.Remaining` | client/src/components/ChatRoom.jsx:274-279 | never negative; 0 iff the next cycle has begun; otherwise the remaining milliseconds rounded up to whole seconds; at most 600 once the cycle has started |
| `ChatClient.CountdownFromServerBoundary` | client/src/components/ChatRoom.jsx:274-279 | at the same clock reading, the countdown from the server's current boundary shows 1 to 600 seconds |
| `ChatClient.RollOverMatchesServer` | client/src/components/ChatRoom.jsx:281-285 | at the same clock reading, when the countdown hits 0 within the following window, the rolled-over start equals the server's boundary at that time |
| `ChatClient.ChatRoomState.constructor` | client/src/components/ChatRoom.jsx:195-205 | the initial state: no messages, members or typists; 600 s left; no creation time or cycle start; empty error; not joined |
| `ChatClient.ChatRoomState.ChangeUsername` | client/src/components/ChatRoom.jsx:400-403 | the name is replaced and the error cleared; nothing else changes |
| `ChatClient.ChatRoomState.Tick` | client/src/components/ChatRoom.jsx:271-293 | without a truthy cycle start nothing changes. Otherwise the time left becomes the countdown (at most 600 once the cycle has started). At 0 the messages are emptied and the cycle start advances by exactly 600000. Nothing else changes |
| `ChatClient.ChatRoomState.OnRoomJoined` | client/src/components/ChatRoom.jsx:298-302 | messages, creation time and cycle start are replaced by the payload's, nothing else changes |
| `ChatClient.ChatRoomState.OnReceiveMessage` | client/src/components/ChatRoom.jsx:304-311 | the message is appended at the end; exactly its sender leaves the typing set, the other typists keeping their order (a nameless message leaves the set as it was); nothing else changes |
| `ChatClient.ChatRoomState.OnMessagesCleared` | client/src/components/ChatRoom.jsx:313-316 | messages become empty and the cycle start becomes the payload's, nothing else changes |
| `ChatClient.ChatRoomState.OnUserJoined` | client/src/components/ChatRoom.jsx:318-320 | the member list becomes the payload's list, nothing else changes |
| `ChatClient.ChatRoomState.OnUserLeft` | client/src/components/ChatRoom.jsx:322-329 | the member list becomes the payload's list and exactly the leaver leaves the typing set |
| `ChatClient.ChatRoomState.OnUserTyping` | client/src/components/ChatRoom.jsx:331-335 | the local name changes nothing; any other name is added to the typing set, and nothing else changes |
| `ChatClient.ChatRoomState.OnUserStoppedTyping` | client/src/components/ChatRoom.jsx:337-343 | exactly that user leaves the typing set, nothing else changes |
| `ChatClient.ChatRoomState.OnUsernameChecked` | client/src/components/ChatRoom.jsx:345-353 | unavailable: the error becomes the payload's, and the joined flag and everything else are unchanged, with no request. Available: the error is cleared, `join_room` is requested for (room, name) and the page is marked joined |
| `ChatClient.ChatRoomState.OnError` | client/src/components/ChatRoom.jsx:355-363 | "Username already taken" un-joins the page and shows the message; any other error changes nothing and asks to navigate home |

## Left out

- The Express app, CORS settings, HTTP framing of POST `/api/rooms`, the JSON response and the health check (server.js:1-27, 49, 60, 184-192). These are library plumbing; room creation itself is `Server.CreateRoom`.
- socket.io delivery. Emits are returned as effects. Which sockets a room scope reaches (the sockets that were subscribed) is not modelled.
- Timers. `setTimeout` (server.js:162) becomes a `ScheduleCleanup` effect plus `Server.DeleteIfEmpty`. `setInterval` (server.js:175, ChatRoom.jsx:290) becomes calls of `Server.Sweep` and `ChatRoomState.Tick`. The timer handles and their cancellation are not modelled.
- `uuidv4`, `Date.now` and `console.log`. Ids and clock readings are parameters; logging has no effect on state.
- RoomServer.Server.Sweep: takes one clock reading for all rooms, while the source reads the clock once per room inside `cleanExpiredMessages`.
- Room objects are values in the map. The source's handlers hold a reference to the room object and mutate it; no other code shares that reference, so values behave alike.
- Payload shapes are modelled as well-typed. Missing or non-string fields in a client's payload (`undefined` room ids or names) are not modelled.
- Decimal.NatToString: prints plain digits for every natural number. JavaScript numbers are IEEE doubles, exact only up to 2^53, and `toString()` switches to exponent notation from 1e21. Neither arises here: `formatTime` only receives the time left, at most a few hundred seconds.
- ChatClient.CountdownFromServerBoundary, ChatClient.RollOverMatchesServer: the server's and the client's clocks are one reading. Skew between the two machines is not modelled; a client clock behind the server's can show more than 600 s.
- ChatClient.FormatTime: defined for non-negative seconds only. The time left is never negative: it starts at 600 and is clamped by `Math.max(0, …)`.
- The client's progress-bar percentage `(timeLeft/600)*100` (ChatRoom.jsx:628), which is floating-point arithmetic.
- The client's outgoing emitters and typing debounce: `handleTyping`, `checkUsername`, `joinRoom` and `sendMessage` (ChatRoom.jsx:378-418). They are UI handlers driven by timers and input.
- The room validation by `fetch`, the `loading`/`error` page state and `navigate` (ChatRoom.jsx:226-264). `OnError` returns the request to navigate home rather than navigating.
- React rendering, MUI styles, the emoji picker and scrolling (ChatRoom.jsx:49-188, 215-224, 266-268, 420-853); Home.jsx, App.jsx and config.js (UI, theming and constants).
