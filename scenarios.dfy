/**
 Event sequences run against a fresh relay, each showing one behaviour of the
 handlers that only appears across several events.
 */
module Scenarios {
  import opened Seqs
  import opened Relay

  /** Sockets a, b and c connect to a fresh relay. */
  method ConnectThree(a: SocketId, b: SocketId, c: SocketId, lobby: RoomId) returns (srv: SignalingServer)
    requires a != b && b != c && a != c && lobby != a && lobby != b && lobby != c
    ensures fresh(srv) && srv.Valid()
    ensures a in srv.connected && b in srv.connected && c in srv.connected
    ensures srv.Members(a) == [a] && srv.Members(lobby) == [] && srv.socketToRoom == map[]
  {
    srv := new SignalingServer();
    srv.OnConnection(a);
    srv.OnConnection(b);
    srv.OnConnection(c);
  }

  /**
   One `join-room` step: `s`, not yet a member of `r`, joins it while its
   members are `before`, and is told `before`.
   */
  method JoinStep(srv: SignalingServer, s: SocketId, r: RoomId, before: seq<SocketId>) returns (roster: seq<SocketId>)
    requires srv.Valid() && s in srv.connected && srv.Members(r) == before && s !in before
    modifies srv
    ensures srv.Valid() && srv.connected == old(srv.connected)
    ensures srv.Members(r) == before + [s] && roster == before && srv.Lookup(s) == Some(r)
    ensures srv.rooms == old(srv.rooms)[r := before + [s]]
    ensures srv.socketToRoom == old(srv.socketToRoom)[s := r]
  {
    var reply := srv.OnJoinRoom(s, r);
    roster := reply[0].event.users;
  }

  /** Sockets a, b and c connect; a joins lobby. */
  method OneInLobby(a: SocketId, b: SocketId, c: SocketId, lobby: RoomId) returns (srv: SignalingServer)
    requires a != b && b != c && a != c && lobby != a && lobby != b && lobby != c
    ensures fresh(srv) && srv.Valid()
    ensures a in srv.connected && b in srv.connected && c in srv.connected
    ensures srv.Lookup(a) == Some(lobby) && srv.Members(lobby) == [a] && srv.Members(a) == [a]
  {
    srv := ConnectThree(a, b, c, lobby);
    var roster := JoinStep(srv, a, lobby, []);
    assert [] + [a] == [a];
  }

  /** Then b joins lobby too. */
  method PairInLobby(a: SocketId, b: SocketId, c: SocketId, lobby: RoomId) returns (srv: SignalingServer)
    requires a != b && b != c && a != c && lobby != a && lobby != b && lobby != c
    ensures fresh(srv) && srv.Valid()
    ensures a in srv.connected && b in srv.connected && c in srv.connected
    ensures srv.Lookup(a) == Some(lobby) && srv.Members(lobby) == [a, b] && srv.Members(a) == [a]
  {
    srv := OneInLobby(a, b, c, lobby);
    var roster := JoinStep(srv, b, lobby, [a]);
  }

  /** Then c joins lobby too; c is told [a, b]. */
  method JoinLobby(a: SocketId, b: SocketId, c: SocketId, lobby: RoomId) returns (srv: SignalingServer, roster: seq<SocketId>)
    requires a != b && b != c && a != c && lobby != a && lobby != b && lobby != c
    ensures fresh(srv) && srv.Valid()
    ensures a in srv.connected && b in srv.connected && c in srv.connected
    ensures srv.Lookup(a) == Some(lobby) && srv.Members(lobby) == [a, b, c] && srv.Members(a) == [a]
    ensures roster == [a, b]
  {
    srv := PairInLobby(a, b, c, lobby);
    roster := JoinStep(srv, c, lobby, [a, b]);
  }

  /**
   Sockets a and b are in lobby when c joins: c is told [a, b] in join order,
   and a's chat reaches a, b and c once each.
   */
  method Lobby(a: SocketId, b: SocketId, c: SocketId, lobby: RoomId, hello: Payload)
    returns (roster: seq<SocketId>, chat: seq<Delivery>)
    requires a != b && b != c && a != c && lobby != "" && lobby != a && lobby != b && lobby != c
    ensures roster == [a, b]
    ensures forall m :: Count(Recipients(chat), m) == (if m == a || m == b || m == c then 1 else 0)
    ensures forall d | d in chat :: d.event == ChatMessage(hello)
  {
    var srv;
    srv, roster := JoinLobby(a, b, c, lobby);
    chat := srv.OnChatMessage(a, hello);
  }

  /**
   With a, b and c in lobby, a's departure is announced to b and c in join
   order, and an offer sent to a after it left reaches nobody.
   */
  method LobbyDeparture(a: SocketId, b: SocketId, c: SocketId, lobby: RoomId, sdp: Payload)
    returns (left: seq<Delivery>, late: seq<Delivery>)
    requires a != b && b != c && a != c && lobby != "" && lobby != a && lobby != b && lobby != c
    ensures Recipients(left) == [b, c]
    ensures forall d | d in left :: d.event == UserLeft(a)
    ensures late == []
  {
    var srv, roster := JoinLobby(a, b, c, lobby);
    assert Without([a, b, c], a) == [b, c] by {
      assert Without([c], a) == [c] + Without([], a);
      assert Without([b, c], a) == [b] + Without([c], a);
      assert Without([a, b, c], a) == [] + Without([b, c], a);
    }
    assert Without([a], a) == [] + Without([], a);
    left := srv.OnDisconnect(a);
    assert srv.Members(a) == [];
    late := srv.OnOffer(b, a, sdp);
  }

  /**
   An `offer` whose target names a room rather than a socket reaches every
   member of that room: a and b are in lobby, and c's offer to lobby reaches both.
   */
  method OfferToRoom(a: SocketId, b: SocketId, c: SocketId, lobby: RoomId, sdp: Payload)
    returns (out: seq<Delivery>)
    requires a != b && b != c && a != c && lobby != a && lobby != b && lobby != c
    ensures Recipients(out) == [a, b]
    ensures forall d | d in out :: d.event == Offer(sdp, c)
  {
    var srv := PairInLobby(a, b, c, lobby);
    out := srv.OnOffer(c, lobby, sdp);
  }

  /** With a and b in lobby, b joins the room named by a's id. */
  method ShareOwnRoom(a: SocketId, b: SocketId, c: SocketId, lobby: RoomId) returns (srv: SignalingServer)
    requires a != b && b != c && a != c && lobby != a && lobby != b && lobby != c
    ensures fresh(srv) && srv.Valid() && a in srv.connected
    ensures srv.Lookup(a) == Some(lobby) && srv.Members(lobby) == [a, b] && srv.Members(a) == [a, b]
  {
    srv := PairInLobby(a, b, c, lobby);
    var roster := JoinStep(srv, b, a, [a]);
  }

  /**
   `socket.to(roomId)` skips every socket in the room named by the sender's
   id: when b has joined the room named a, a's departure from lobby is
   announced to nobody, though b shares lobby with it.
   */
  method OwnRoomJoinedByName(a: SocketId, b: SocketId, c: SocketId, lobby: RoomId) returns (left: seq<Delivery>)
    requires a != b && b != c && a != c && lobby != "" && lobby != a && lobby != b && lobby != c
    ensures left == []
  {
    var srv := ShareOwnRoom(a, b, c, lobby);
    assert Without([a, b], a) == [b] by {
      assert Without([b], a) == [b] + Without([], a);
      assert Without([a, b], a) == [] + Without([b], a);
    }
    left := srv.OnDisconnect(a);
    assert srv.Members(a) == [b];
    assert Minus([b], [b]) == [] + Minus([], [b]);
  }

  /** Sockets s and t connect to a fresh relay. */
  method ConnectTwo(s: SocketId, t: SocketId, r1: RoomId, r2: RoomId) returns (srv: SignalingServer)
    requires s != t && r1 != s && r1 != t && r2 != s && r2 != t
    ensures fresh(srv) && srv.Valid()
    ensures s in srv.connected && t in srv.connected
    ensures srv.Members(r1) == [] && srv.Members(r2) == []
  {
    srv := new SignalingServer();
    srv.OnConnection(s);
    srv.OnConnection(t);
  }

  /** Sockets s and t connect; t joins r1. */
  method OneInFirstRoom(s: SocketId, t: SocketId, r1: RoomId, r2: RoomId) returns (srv: SignalingServer)
    requires s != t && r1 != r2 && r1 != s && r1 != t && r2 != s && r2 != t
    ensures fresh(srv) && srv.Valid()
    ensures s in srv.connected && t in srv.connected
    ensures srv.Members(r2) == [] && srv.Members(r1) == [t]
  {
    srv := ConnectTwo(s, t, r1, r2);
    var roster := JoinStep(srv, t, r1, []);
    assert [] + [t] == [t];
  }

  /** Then s joins r1 too. */
  method ShareFirstRoom(s: SocketId, t: SocketId, r1: RoomId, r2: RoomId) returns (srv: SignalingServer)
    requires s != t && r1 != r2 && r1 != s && r1 != t && r2 != s && r2 != t
    ensures fresh(srv) && srv.Valid()
    ensures s in srv.connected && t in srv.connected
    ensures srv.Members(r2) == [] && srv.Members(r1) == [t, s]
  {
    srv := OneInFirstRoom(s, t, r1, r2);
    var roster := JoinStep(srv, s, r1, [t]);
  }

  /** Then s goes on to join r2. */
  method JoinTwice(s: SocketId, t: SocketId, r1: RoomId, r2: RoomId) returns (srv: SignalingServer)
    requires s != t && r1 != r2 && r1 != s && r1 != t && r2 != s && r2 != t
    ensures fresh(srv) && srv.Valid()
    ensures s in srv.connected && t in srv.connected
    ensures srv.Lookup(s) == Some(r2) && srv.Members(r2) == [s] && srv.Members(r1) == [t, s]
  {
    srv := ShareFirstRoom(s, t, r1, r2);
    var roster := JoinStep(srv, s, r2, []);
    assert [] + [s] == [s];
  }

  /**
   Socket s joins r1 (where t is) and then r2. Only r2 is recorded: s's chat
   reaches only the members of r2, s stays listed in r1 until it disconnects,
   and t, in r1, is never told that s left.
   */
  method Rejoin(s: SocketId, t: SocketId, r1: RoomId, r2: RoomId, message: Payload)
    returns (chat: seq<Delivery>, stillInFirst: bool, left: seq<Delivery>)
    requires s != t && r1 != r2 && r1 != "" && r2 != "" && r1 != s && r1 != t && r2 != s && r2 != t
    ensures Recipients(chat) == [s]
    ensures stillInFirst
    ensures left == []
  {
    var srv := JoinTwice(s, t, r1, r2);
    chat := srv.OnChatMessage(s, message);
    stillInFirst := s in srv.Members(r1);
    left := srv.OnDisconnect(s);
    assert Without([s], s) == [] + Without([], s);
  }

  /**
   The empty room name is falsy in JavaScript: a socket that joined "" gets no
   chat fan-out, and its registry entry outlives its disconnection.
   */
  method EmptyRoomName(s: SocketId, t: SocketId, message: Payload)
    returns (chat: seq<Delivery>, left: seq<Delivery>, stale: Option<RoomId>)
    requires s != t && s != "" && t != ""
    ensures chat == [] && left == []
    ensures stale == Some("")
  {
    var srv := new SignalingServer();
    srv.OnConnection(s);
    srv.OnConnection(t);
    var reply := srv.OnJoinRoom(t, "");
    reply := srv.OnJoinRoom(s, "");
    chat := srv.OnChatMessage(s, message);
    left := srv.OnDisconnect(s);
    stale := srv.Lookup(s);
  }
}
