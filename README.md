# Filezy signaling relay, modelled in Dafny

Filezy lets the participants of a named room set up direct WebRTC links to
each other. A small socket.io server only bootstraps those links. It keeps a
registry from socket id to room id (`socketToRoom`). It forwards the
negotiation messages `offer`, `answer` and `ice` with `io.to(target)`. It
broadcasts `chat-message` to a room and announces `user-left` when a socket
disconnects.

The model is the class `Relay.SignalingServer` (relay.dfy). Its state has
three parts:

- `connected`: the ids of the open sockets;
- `socketToRoom`: the registry;
- `rooms`: the socket.io adapter's rooms, each a duplicate-free sequence of
  socket ids in the order they joined (a JavaScript `Set` iterates in
  insertion order).

There is one method per event handler: `OnConnection`, `OnJoinRoom`,
`OnOffer`, `OnAnswer`, `OnIce`, `OnChatMessage` and `OnDisconnect`. Node runs
one handler at a time, so each method is one atomic step. It returns the
deliveries the handler causes as (recipient, event) pairs, in emission order.
`Valid()` is the invariant every step keeps (`Relay.Inv`):

- rooms are non-empty and duplicate-free;
- every room member is connected;
- every connected socket is a member of the room named by its own id;
- every socket whose recorded room id is truthy is connected and is a member
  of that room.

The lemmas `ConnectKeepsInv`, `JoinKeepsInv` and `LeaveKeepsInv` show that
each change of state keeps it.

The behaviour follows the code:

- `join-room` only adds the socket to the room and overwrites its registry
  entry. A socket can therefore sit in several rooms, of which only the last
  one joined is recorded.
- `offer`, `answer` and `ice` use `io.to(target)`, which reaches every member
  of the room named `target`. That is the socket whose id is `target`, plus
  any socket that joined a room of that name, so an offer addressed to a room
  name reaches the whole room (`Scenarios.OfferToRoom`). The relay does not
  check that the target shares the sender's room.
- Chat uses `io.to(roomId)` and reaches the sender too. `user-left` uses
  `socket.to(roomId)`, which skips every socket in the room named by the
  sender's id. The sender has already left that room, so usually only the
  sender is skipped. A socket that joined a room named after the sender is
  skipped as well, and is not told that the sender left
  (`Scenarios.OwnRoomJoinedByName`).
- `if (roomId)` is JavaScript truthiness, so the empty room name counts as no
  room. A socket that joined `""` gets no chat fan-out, and its registry entry
  is never deleted on disconnect (`Scenarios.EmptyRoomName`).

The socket.io version is not pinned by the code; the model follows socket.io 4.
Two adapter behaviours are stated assumptions. First, on connection
a socket joins the room named by its own id. Room names and socket ids
therefore share one namespace, and `io.to(name)` reaches the members of the
room called `name`; a name that is no room reaches nobody. Second, on
disconnect the adapter removes the socket from every room and drops rooms left
empty (`Relay.LeaveAll`); this happens before the `disconnect` handler runs.

Files:

- seqs.dfy: set-as-sequence operations and their lemmas;
- relay.dfy: the relay;
- scenarios.dfy: event sequences on a fresh server.

## Model

| member | source | states |
|---|---|---|
| Relay.SignalingServer.constructor | server.js:16-17 | the relay starts with no sockets, an empty registry and no rooms, and the invariant holds |
| Relay.SignalingServer.OnConnection | server.js:19-20 | a new socket is connected and becomes a member of the room named by its id, appended if a room of that name already exists; the registry and every other room are unchanged; the invariant is kept |
| Relay.SignalingServer.OnJoinRoom | server.js:23-37 | the registry becomes the old one with `s` mapped to `r`, and no other entry changes; `s` is appended to room `r` unless it is already a member, and earlier rooms keep it; exactly one `all-users` delivery goes to `s` alone; it lists the members of `r` from before the join without `s`, in join order, which is exactly those members when `s` was new; it never contains `s`; it holds every other member of `r` and nothing else, without duplicates |
| Relay.SignalingServer.OnOffer | server.js:40-45 | the recipients are exactly the members of the room named `target`, in join order, each reached once; every delivery carries the unchanged `sdp` with `callerId` equal to the sender and goes to a connected socket; a connected socket whose id is `target` receives it exactly once; a name that is no room reaches nobody; the state is not changed |
| Relay.SignalingServer.OnAnswer | server.js:48-53 | the recipients are exactly the members of the room named `target`, in join order, each reached once; every delivery carries the unchanged `sdp` with `callerId` equal to the sender and goes to a connected socket; a connected socket whose id is `target` receives it exactly once; a name that is no room reaches nobody; the state is not changed |
| Relay.SignalingServer.OnIce | server.js:56-61 | the recipients are exactly the members of the room named `target`, in join order, each reached once; every delivery carries the unchanged `candidate` with `callerId` equal to the sender and goes to a connected socket; a connected socket whose id is `target` receives it exactly once; a name that is no room reaches nobody; the state is not changed |
| Relay.SignalingServer.OnChatMessage | server.js:64-71 | with a truthy recorded room, every member of that room receives the unchanged message exactly once, in join order, and the sender is among them; no one else receives it, and every recipient is connected; with no entry, or the empty room name, nothing is delivered |
| Relay.SignalingServer.OnDisconnect | server.js:74-81 | with a truthy recorded room `r`, exactly the members of `r` other than `s` that are not in the room named by `s` receive `user-left(s)`, once each, in join order, and all of them are connected; when no socket joined a room named after `s` that is every other member of `r`; `s` receives none, and `s`'s registry entry is deleted while the other entries stay; otherwise nothing is emitted and the registry is unchanged; `s` is no longer connected and is in no room |
| Relay.SignalingServer.MembersValid | server.js:27-28 | a room read from the adapter lists each member once, every member is connected, and a connected socket is a member of the room named by its own id |
| Relay.SignalingServer.LookupValid | server.js:65-66 | a truthy registry entry belongs to a connected socket that is a member of the recorded room |
| Relay.SignalingServer.Emit | server.js:41-44 | `io.to(name).emit` reaches exactly the members of the room called `name`, in join order, with the same event, and each member once when the room has no duplicates |
| Relay.Truthy | server.js:66 | `if (roomId)` holds exactly when the entry exists and is not the empty string |
| Relay.ConnectKeepsInv | server.js:19-20 | a connection that joins the socket's own-id room keeps the invariant |
| Relay.JoinKeepsInv | server.js:24-25 | joining a room and overwriting the registry entry keeps the invariant |
| Relay.LeaveKeepsInv | server.js:74-78 | the adapter's clean-up keeps the invariant, both when the entry is then deleted and when a missing or empty entry stays |
| Relay.LeaveAll | server.js:74 | the adapter's clean-up before `disconnect`: the socket is in no room afterwards, every other membership is kept, no new one appears, and no room is left empty |
| Relay.Fanout | server.js:69 | a room emit reaches the listed sockets in list order, each with the same event |
| Relay.FanoutOnce | server.js:77 | a room emit to duplicate-free members reaches each member exactly once and nobody else |
| Relay.FanoutOnceAll | server.js:69 | the same for every socket at once |
| Relay.BroadcastExcept | server.js:77 | `socket.to(room).emit` reaches, in join order, exactly the members of the room that are not in the excluded room, each once when the room has no duplicates, and every member when nothing is excluded |
| Seqs.Add | server.js:24 | `socket.join` as a `Set` insertion: the socket becomes a member, no other id appears, earlier members keep their positions, and no duplicates arise |
| Seqs.Without | server.js:33 | the roster filter keeps exactly the ids different from the joiner |
| Seqs.Minus | server.js:77 | the broadcast's exclusion keeps exactly the ids not in the excluded room |
| Seqs.MinusNothing | server.js:77 | excluding nothing keeps every id, in order |
| Seqs.MinusNoDup | server.js:77 | excluding ids from a `Set`'s members leaves no duplicates |
| Seqs.Count | server.js:69 | the number of deliveries a socket gets is at most their total, and positive exactly when the socket is among the recipients |
| Seqs.WithoutAdd | server.js:24-33 | filtering the joiner out of the room after it joined gives the room as it was before the join, minus the joiner |
| Seqs.WithoutAbsent | server.js:33 | filtering out an id that is absent leaves the roster unchanged, order included |
| Seqs.WithoutAppend | server.js:33 | filtering commutes with concatenation, so the roster keeps the join order |
| Seqs.WithoutNoDup | server.js:28-33 | a roster drawn from a `Set` has no duplicates |
| Seqs.CountNoDup | server.js:28 | a `Set` holds each id at most once |
| Scenarios.Lobby | server.js:23-69 | `a` and `b` are in a room when `c` joins: `c` is told `[a, b]`; `a`'s chat reaches `a`, `b` and `c` once each |
| Scenarios.LobbyDeparture | server.js:40-78 | with `a`, `b` and `c` in a room, `a`'s disconnect notifies `[b, c]` in join order, and an offer to `a` after it left reaches nobody |
| Scenarios.OwnRoomJoinedByName | server.js:23-77 | when `b` has joined the room named by `a`'s id, `a`'s disconnect notifies nobody, although `b` shares `a`'s recorded room |
| Scenarios.OfferToRoom | server.js:40-45 | with `a` and `b` in a room, `c`'s offer whose target is the room's name reaches `a` and `b` |
| Scenarios.Rejoin | server.js:23-79 | a socket that joins a second room has only that room recorded: its chat reaches only that room; it stays a member of the first room until it disconnects; the first room's members are never told `user-left` |
| Scenarios.EmptyRoomName | server.js:66-78 | a socket that joined the room `""` gets no chat fan-out and no `user-left` broadcast, and its registry entry survives its disconnection |

## Left out

- HTTP server creation, CORS and transport options, the port, `listen`, and every `console.log` (server.js:1-14, 84-89). These are configuration and I/O with no state logic.
- The socket.io transport and adapter are not modelled beyond their room bookkeeping: the `rooms` map and the two assumptions above. Socket ids are taken to be fresh on connection; how the transport generates them is not modelled.
- Payloads are opaque strings. Handler arguments that are not strings, and their JavaScript truthiness, are not modelled. That covers a `join-room` with a number or `null`, and an `offer` with no `target` field.
- Client code is not modelled: lib/socket.ts, app/page.tsx and components/ are UI, and the Supabase calls are foreign. The peer-session state machine, negotiation and renegotiation, ICE buffering, glare avoidance and chunked file transfer live in `@/hooks/useWebRTC` and `@/hooks/useChat`, which are not part of this model. Their properties (one offer per pair, buffered ICE applied in order, file round trip) are left out with them.
- Concurrency between handlers is not modelled: Node runs them one at a time.
