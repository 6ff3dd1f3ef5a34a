/**
 The signaling relay: a socket.io server that keeps a registry from socket id
 to room id and routes the WebRTC negotiation messages (offer, answer, ice),
 room chat and departure notices between connected sockets.

 Each socket.io event handler runs to completion before the next one starts,
 so every handler is one method of `SignalingServer` that updates the state and
 returns the deliveries it causes, in the order the server emits them.

 The socket.io adapter is an outside collaborator; the model follows socket.io 4
 and relies on two of its behaviours:
  - on connection a socket joins the room named by its own id, so room names
    and socket ids share one namespace and `io.to(name)` reaches the members
    of the room called `name`, whether it is a socket id or a joined room;
  - when a socket disconnects it is removed from every room it joined, and a
    room left empty disappears.
 */
module Relay {
  import opened Seqs

  type SocketId = string
  type RoomId = string

  /** A message body the relay forwards without looking inside it. */
  type Payload = string

  datatype Option<T> = None | Some(value: T)

  /** What a socket receives: the event name and its payload. */
  datatype Event =
    | AllUsers(users: seq<SocketId>)
    | Offer(sdp: Payload, callerId: SocketId)
    | Answer(sdp: Payload, callerId: SocketId)
    | Ice(candidate: Payload, callerId: SocketId)
    | ChatMessage(message: Payload)
    | UserLeft(id: SocketId)

  /** One emitted event on its way to one socket. */
  datatype Delivery = Delivery(recipient: SocketId, event: Event)

  /** The recipients of a list of deliveries, in order. */
  function Recipients(out: seq<Delivery>): seq<SocketId> {
    seq(|out|, i requires 0 <= i < |out| => out[i].recipient)
  }

  /** A room broadcast: the same event once to each listed socket, in list order. */
  function Fanout(members: seq<SocketId>, ev: Event): (out: seq<Delivery>)
    ensures Recipients(out) == members
    ensures forall d | d in out :: d.event == ev
  {
    seq(|members|, i requires 0 <= i < |members| => Delivery(members[i], ev))
  }

  /** A broadcast to duplicate-free members reaches each member exactly once and nobody else. */
  lemma FanoutOnce(members: seq<SocketId>, ev: Event, m: SocketId)
    requires NoDup(members)
    ensures Count(Recipients(Fanout(members, ev)), m) == if m in members then 1 else 0
  {
    CountNoDup(members, m);
  }

  /** FanoutOnce for every socket at once. */
  lemma FanoutOnceAll(members: seq<SocketId>, ev: Event)
    ensures NoDup(members) ==>
      forall m :: Count(Recipients(Fanout(members, ev)), m) == if m in members then 1 else 0
  {
    forall m | NoDup(members) ensures Count(Recipients(Fanout(members, ev)), m) == if m in members then 1 else 0 {
      FanoutOnce(members, ev, m);
    }
  }

  /**
   A broadcast that skips the sockets of an excluded room: the same event once
   to each listed socket not in `except`, in list order.
   */
  function BroadcastExcept(members: seq<SocketId>, except: seq<SocketId>, ev: Event): (out: seq<Delivery>)
    ensures Recipients(out) == Minus(members, except)
    ensures forall d | d in out :: d.event == ev
    ensures except == [] ==> Recipients(out) == members
    ensures NoDup(members) ==>
      forall m :: Count(Recipients(out), m) == if m in members && m !in except then 1 else 0
  {
    MinusNothing(members);
    if NoDup(members) then
      MinusNoDup(members, except);
      FanoutOnceAll(Minus(members, except), ev);
      Fanout(Minus(members, except), ev)
    else
      Fanout(Minus(members, except), ev)
  }

  /** JavaScript truthiness of a looked-up room id: of `undefined` and the strings, only `undefined` and `""` are falsy. */
  predicate Truthy(v: Option<RoomId>): (b: bool)
    ensures b <==> v !in {None, Some("")}
  {
    v.Some? && v.value != ""
  }

  /**
   The adapter's clean-up on disconnect: `s` leaves every room, every other
   membership stays, and rooms that become empty are dropped.
   */
  function LeaveAll(rooms: map<RoomId, seq<SocketId>>, s: SocketId): (r: map<RoomId, seq<SocketId>>)
    ensures forall q | q in r :: s !in r[q] && r[q] != []
    ensures forall q, t | q in r && t in r[q] :: q in rooms && t in rooms[q]
    ensures forall q, t | q in rooms && t in rooms[q] && t != s :: q in r && t in r[q]
  {
    map q | q in rooms && Without(rooms[q], s) != [] :: Without(rooms[q], s)
  }

  /** A room of the adapter, read as empty when it does not exist. */
  function RoomOf(rooms: map<RoomId, seq<SocketId>>, r: RoomId): seq<SocketId> {
    if r in rooms then rooms[r] else []
  }

  /**
   The relay's invariant over its three parts: rooms are non-empty and
   duplicate-free, their members are connected, every connected socket is in
   the room named by its id, and a socket with a truthy registry entry is
   connected and a member of that room.
   */
  ghost predicate Inv(connected: set<SocketId>, registry: map<SocketId, RoomId>, rooms: map<RoomId, seq<SocketId>>) {
    && (forall q | q in rooms :: rooms[q] != [] && NoDup(rooms[q]))
    && (forall q, t | q in rooms && t in rooms[q] :: t in connected)
    && (forall t | t in connected :: t in RoomOf(rooms, t))
    && (forall t | t in registry && registry[t] != "" :: t in connected && t in RoomOf(rooms, registry[t]))
  }

  /** A new socket joining the room named by its id keeps the invariant. */
  lemma ConnectKeepsInv(connected: set<SocketId>, registry: map<SocketId, RoomId>, rooms: map<RoomId, seq<SocketId>>, s: SocketId)
    requires Inv(connected, registry, rooms)
    ensures Inv(connected + {s}, registry, rooms[s := Add(RoomOf(rooms, s), s)])
  {
    var own := Add(RoomOf(rooms, s), s);
    var rooms' := rooms[s := own];
    assert NoDup(own) && s in own;
    forall q, t | q in rooms' && t in rooms'[q] ensures t in connected + {s} {
      if q != s {
        assert t in rooms[q];
      }
    }
    forall t | t in connected + {s} ensures t in RoomOf(rooms', t) {
      if t != s {
        assert t in RoomOf(rooms, t);
      }
    }
    forall t | t in registry && registry[t] != "" ensures t in RoomOf(rooms', registry[t]) {
      assert t in RoomOf(rooms, registry[t]);
    }
  }

  /** A connected socket joining a room and being recorded there keeps the invariant. */
  lemma JoinKeepsInv(connected: set<SocketId>, registry: map<SocketId, RoomId>, rooms: map<RoomId, seq<SocketId>>, s: SocketId, r: RoomId)
    requires Inv(connected, registry, rooms) && s in connected
    ensures Inv(connected, registry[s := r], rooms[r := Add(RoomOf(rooms, r), s)])
  {
    var joined := Add(RoomOf(rooms, r), s);
    var rooms', registry' := rooms[r := joined], registry[s := r];
    assert NoDup(joined) && s in joined;
    forall q, t | q in rooms' && t in rooms'[q] ensures t in connected {
      if q != r {
        assert t in rooms[q];
      }
    }
    forall t | t in connected ensures t in RoomOf(rooms', t) {
      assert t in RoomOf(rooms, t);
    }
    forall t | t in registry' && registry'[t] != "" ensures t in connected && t in RoomOf(rooms', registry'[t]) {
      if t != s {
        assert t in RoomOf(rooms, registry[t]);
      }
    }
  }

  /**
   A socket leaving every room and closing keeps the invariant, whether its
   registry entry is deleted or, when it is missing or empty, kept.
   */
  lemma LeaveKeepsInv(connected: set<SocketId>, registry: map<SocketId, RoomId>, rooms: map<RoomId, seq<SocketId>>, s: SocketId)
    requires Inv(connected, registry, rooms)
    ensures Inv(connected - {s}, registry - {s}, LeaveAll(rooms, s))
    ensures s !in registry || registry[s] == "" ==> Inv(connected - {s}, registry, LeaveAll(rooms, s))
  {
    var rooms' := LeaveAll(rooms, s);
    forall q | q in rooms' ensures NoDup(rooms'[q]) {
      WithoutNoDup(rooms[q], s);
    }
    forall t | t in connected - {s} ensures t in RoomOf(rooms', t) {
      assert t in RoomOf(rooms, t);
    }
    forall t | t in registry && t != s && registry[t] != "" ensures t in RoomOf(rooms', registry[t]) {
      assert t in RoomOf(rooms, registry[t]);
    }
  }

  class SignalingServer {
    /** Ids of the sockets the transport currently holds open. */
    var connected: set<SocketId>
    /** The registry from socket id to the room it last asked to join. */
    var socketToRoom: map<SocketId, RoomId>
    /** The adapter's rooms, each listing its members in the order they joined. */
    var rooms: map<RoomId, seq<SocketId>>

    /** The invariant every handler keeps; see `Inv`. */
    ghost predicate Valid()
      reads this
    {
      Inv(connected, socketToRoom, rooms)
    }

    /** `io.sockets.adapter.rooms.get(r)`, with a missing room read as empty. */
    function Members(r: RoomId): seq<SocketId>
      reads this
    {
      RoomOf(rooms, r)
    }

    /** A room lists each member once, all of them connected, and a connected socket is in the room named by its id. */
    lemma MembersValid(r: RoomId)
      requires Valid()
      ensures NoDup(Members(r)) && forall t | t in Members(r) :: t in connected
      ensures r in connected ==> r in Members(r)
    {
    }

    /** `socketToRoom[s]`, with `undefined` as `None`. */
    function Lookup(s: SocketId): Option<RoomId>
      reads this
    {
      if s in socketToRoom then Some(socketToRoom[s]) else None
    }

    /** A truthy registry entry names a room the socket is a member of. */
    lemma LookupValid(s: SocketId)
      requires Valid() && Truthy(Lookup(s))
      ensures s in connected && s in Members(Lookup(s).value)
    {
    }

    /** `io.to(name).emit(ev)`: one delivery to each member of the room called `name`, in join order. */
    function Emit(name: RoomId, ev: Event): (out: seq<Delivery>)
      reads this
      ensures Recipients(out) == Members(name)
      ensures forall d | d in out :: d.event == ev
      ensures NoDup(Members(name)) ==> forall m :: Count(Recipients(out), m) == if m in Members(name) then 1 else 0
    {
      FanoutOnceAll(Members(name), ev);
      Fanout(Members(name), ev)
    }

    /** Server start: no sockets, an empty registry, no rooms. */
    constructor ()
      ensures Valid()
      ensures connected == {} && socketToRoom == map[] && rooms == map[]
    {
      connected := {};
      socketToRoom := map[];
      rooms := map[];
    }

    /**
     A new connection with a fresh id: the adapter puts the socket in the room
     named by its id; the registry is not touched.
     */
    method OnConnection(s: SocketId)
      requires Valid() && s !in connected
      modifies this
      ensures Valid()
      ensures connected == old(connected) + {s}
      ensures rooms == old(rooms)[s := Add(old(Members(s)), s)]
      ensures socketToRoom == old(socketToRoom)
    {
      ConnectKeepsInv(connected, socketToRoom, rooms, s);
      connected := connected + {s};
      rooms := rooms[s := Add(Members(s), s)];
    }

    /**
     `join-room`: `s` is added to room `r` (keeping any earlier room), the
     registry entry for `s` is overwritten with `r`, and `s` alone is sent the
     other members of `r`.
     */
    method OnJoinRoom(s: SocketId, r: RoomId) returns (out: seq<Delivery>)
      requires Valid() && s in connected
      modifies this
      ensures Valid()
      ensures socketToRoom == old(socketToRoom)[s := r]
      ensures rooms == old(rooms)[r := Add(old(Members(r)), s)]
      ensures connected == old(connected)
      ensures |out| == 1 && out[0].recipient == s && out[0].event.AllUsers?
      ensures out[0].event.users == Without(old(Members(r)), s)
      ensures s !in old(Members(r)) ==> out[0].event.users == old(Members(r))
      ensures forall u | u in out[0].event.users :: u in Members(r) && u != s
      ensures forall u | u in Members(r) && u != s :: u in out[0].event.users
      ensures NoDup(out[0].event.users)
    {
      JoinKeepsInv(connected, socketToRoom, rooms, s, r);
      var joined := Add(Members(r), s);
      MembersValid(r);
      rooms := rooms[r := joined];
      socketToRoom := socketToRoom[s := r];
      out := [Delivery(s, AllUsers(Without(joined, s)))];
      WithoutAdd(old(Members(r)), s);
      WithoutNoDup(joined, s);
      if s !in old(Members(r)) {
        WithoutAbsent(old(Members(r)), s);
      }
    }

    /**
     `offer`: the description is forwarded unchanged, tagged with the sender's id, to every
     member of the room called `target`: the socket with that id, and anyone
     who joined a room of that name. A name nobody holds reaches nobody.
     */
    method OnOffer(s: SocketId, target: RoomId, sdp: Payload) returns (out: seq<Delivery>)
      requires Valid()
      ensures forall d | d in out :: d.event == Offer(sdp, s) && d.recipient in connected
      ensures Recipients(out) == Members(target)
      ensures forall m :: Count(Recipients(out), m) == if m in Members(target) then 1 else 0
      ensures target in connected ==> Count(Recipients(out), target) == 1
      ensures target !in rooms ==> out == []
    {
      MembersValid(target);
      out := Emit(target, Offer(sdp, s));
    }

    /**
     `answer`: the description is forwarded unchanged, tagged with the sender's id, to every
     member of the room called `target`: the socket with that id, and anyone
     who joined a room of that name. A name nobody holds reaches nobody.
     */
    method OnAnswer(s: SocketId, target: RoomId, sdp: Payload) returns (out: seq<Delivery>)
      requires Valid()
      ensures forall d | d in out :: d.event == Answer(sdp, s) && d.recipient in connected
      ensures Recipients(out) == Members(target)
      ensures forall m :: Count(Recipients(out), m) == if m in Members(target) then 1 else 0
      ensures target in connected ==> Count(Recipients(out), target) == 1
      ensures target !in rooms ==> out == []
    {
      MembersValid(target);
      out := Emit(target, Answer(sdp, s));
    }

    /**
     `ice`: the candidate is forwarded unchanged, tagged with the sender's id, to every
     member of the room called `target`: the socket with that id, and anyone
     who joined a room of that name. A name nobody holds reaches nobody.
     */
    method OnIce(s: SocketId, target: RoomId, candidate: Payload) returns (out: seq<Delivery>)
      requires Valid()
      ensures forall d | d in out :: d.event == Ice(candidate, s) && d.recipient in connected
      ensures Recipients(out) == Members(target)
      ensures forall m :: Count(Recipients(out), m) == if m in Members(target) then 1 else 0
      ensures target in connected ==> Count(Recipients(out), target) == 1
      ensures target !in rooms ==> out == []
    {
      MembersValid(target);
      out := Emit(target, Ice(candidate, s));
    }

    /**
     `chat-message`: when the sender's recorded room is truthy, the payload goes
     once to every member of that room, the sender included; otherwise nowhere.
     */
    method OnChatMessage(s: SocketId, message: Payload) returns (out: seq<Delivery>)
      requires Valid()
      ensures forall d | d in out :: d.event == ChatMessage(message) && d.recipient in connected
      ensures !Truthy(Lookup(s)) ==> out == []
      ensures Truthy(Lookup(s)) ==> Recipients(out) == Members(socketToRoom[s])
      ensures forall m :: Count(Recipients(out), m) ==
                (if Truthy(Lookup(s)) && m in Members(socketToRoom[s]) then 1 else 0)
      ensures Truthy(Lookup(s)) ==> Count(Recipients(out), s) == 1
    {
      var roomId := Lookup(s);
      if Truthy(roomId) {
        MembersValid(roomId.value);
        LookupValid(s);
        out := Emit(roomId.value, ChatMessage(message));
      } else {
        out := [];
      }
    }

    /**
     `disconnect`: the adapter first removes `s` from every room; then, when the
     recorded room is truthy, `socket.to(roomId)` tells `user-left(s)` once to
     each member of that room that is not in the room named by `s` (which `s`
     itself has already left, but another socket may have joined by name), and
     the registry entry for `s` is deleted. A falsy entry stays.
     */
    method OnDisconnect(s: SocketId) returns (out: seq<Delivery>)
      requires Valid() && s in connected
      modifies this
      ensures Valid()
      ensures connected == old(connected) - {s}
      ensures rooms == LeaveAll(old(rooms), s)
      ensures forall d | d in out :: d.event == UserLeft(s) && d.recipient != s && d.recipient in connected
      ensures old(Truthy(Lookup(s))) ==> socketToRoom == old(socketToRoom) - {s}
      ensures old(Truthy(Lookup(s))) ==>
                Recipients(out) == Minus(Without(old(Members(socketToRoom[s])), s), Members(s))
      ensures old(Truthy(Lookup(s))) && Members(s) == [] ==>
                Recipients(out) == Without(old(Members(socketToRoom[s])), s)
      ensures !old(Truthy(Lookup(s))) ==> socketToRoom == old(socketToRoom) && out == []
      ensures forall m :: Count(Recipients(out), m) ==
                (if old(Truthy(Lookup(s))) && m != s && m in old(Members(socketToRoom[s])) && m !in Members(s)
                 then 1 else 0)
    {
      var roomId := Lookup(s);
      ghost var before := if Truthy(roomId) then Members(roomId.value) else [];
      if Truthy(roomId) {
        MembersValid(roomId.value);
      }
      LeaveKeepsInv(connected, socketToRoom, rooms, s);
      rooms := LeaveAll(rooms, s);
      connected := connected - {s};
      if Truthy(roomId) {
        // The sender has already left every room; the sockets still in the room named by it are skipped too.
        var others := Members(roomId.value);
        var skipped := Members(s);
        assert others == Without(before, s);
        WithoutNoDup(before, s);
        out := BroadcastExcept(others, skipped, UserLeft(s));
        socketToRoom := socketToRoom - {s};
      } else {
        out := [];
      }
    }
  }
}
