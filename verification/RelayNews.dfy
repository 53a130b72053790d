/** In every run of the relay, what reaches the others in a room: one message for each event. */
module RelayNews {
  import opened Operations
  import opened RelayState
  import opened RelayReplies
  import opened RelayRuns

  /** A registered connection is registered under one name. */
  lemma OneName(s: System, d: Conn)
    requires Inv(s) && Registered(s, d)
    ensures d in s.server.open && d in s.server.outboxes
    ensures var peers := s.server.rooms[s.clients[d].roomId].peers;
            (set n | n in peers && peers[n] == d) == {s.clients[d].clientId}
  {
    var k := s.clients[d].roomId;
    assert PeerFits(s, k, s.clients[d].clientId);
    forall n | n in s.server.rooms[k].peers && s.server.rooms[k].peers[n] == d ensures n == s.clients[d].clientId {
      assert PeerFits(s, k, n);
    }
  }

  lemma OneCopy(was: seq<Message>, now: seq<Message>, m: Message, copies: nat)
    requires Gains(was, now, [], m, copies) && copies == 1
    ensures now == was + [m]
  {
  }

  /** A new operation reaches everybody in the room once, its sender included, under the sender's room and name. */
  lemma OperationReaches(states: seq<System>, events: seq<Event>, i: nat, c: Conn, op: Operation, d: Conn)
    requires Run(states, events) && i < |states| && Registered(states[i], c) && Registered(states[i], d)
    requires states[i].clients[c].roomId == states[i].clients[d].roomId
    requires forall j :: 0 <= j < |states[i].server.rooms[states[i].clients[c].roomId].log| ==>
               states[i].server.rooms[states[i].clients[c].roomId].log[j].opId != op.opId
    ensures var s, client := states[i], states[i].clients[c];
            var t := OperationHandled(s.server, c, client.roomId, client.clientId, op);
            && d in s.server.outboxes && d in t.outboxes
            && t.outboxes[d] == s.server.outboxes[d] + [Broadcasted(client.roomId, client.clientId, op)]
  {
    var s, client := states[i], states[i].clients[c];
    RunKeepsInv(states, events, i);
    assert PeerFits(s, client.roomId, client.clientId);
    OneName(s, d);
    OperationTells(s.server, c, client.roomId, client.clientId, op);
    var t := OperationHandled(s.server, c, client.roomId, client.clientId, op);
    OneCopy(s.server.outboxes[d], t.outboxes[d], Broadcasted(client.roomId, client.clientId, op), 1);
  }

  /** When a registered connection closes, everybody else in its room hears once who is left. */
  lemma ClosingReaches(states: seq<System>, events: seq<Event>, i: nat, c: Conn, d: Conn)
    returns (names: seq<string>)
    requires Run(states, events) && i < |states| && Registered(states[i], c) && Registered(states[i], d) && c != d
    requires states[i].clients[c].roomId == states[i].clients[d].roomId
    ensures var s, client := states[i], states[i].clients[c];
            var t := Closed(s.server, c);
            && Lists(names, s.server.rooms[client.roomId].peers - {client.clientId})
            && d in s.server.outboxes && d in t.outboxes
            && t.outboxes[d] == s.server.outboxes[d] + [Presence(client.roomId, names)]
  {
    var s, client := states[i], states[i].clients[c];
    RunKeepsInv(states, events, i);
    assert PeerFits(s, client.roomId, client.clientId);
    OneName(s, d);
    var peers := s.server.rooms[client.roomId].peers;
    var left := peers - {client.clientId};
    assert (set n | n in left && left[n] == d) == (set n | n in peers && peers[n] == d);
    ClosingTells(s.server, c);
    var t := Closed(s.server, c);
    names :| ClosedTold(s.server, t, c, names);
    OneCopy(s.server.outboxes[d], t.outboxes[d], Presence(client.roomId, names), 1);
  }

  /** When another connection joins, everybody already in the room hears once who is there. */
  lemma JoiningReaches(states: seq<System>, events: seq<Event>, i: nat, c: Conn, d: Conn) returns (names: seq<string>)
    requires Run(states, events) && i < |states| && Registered(states[i], d) && c != d
    requires c in states[i].clients && states[i].clients[c].roomId == states[i].clients[d].roomId
    requires states[i].clients[c].clientId != states[i].clients[d].clientId
    ensures var s, client := states[i], states[i].clients[c];
            var t := JoinHandled(s.server, c, client.roomId, client.clientId);
            && client.roomId in t.rooms && Lists(names, t.rooms[client.roomId].peers)
            && d in s.server.outboxes && d in t.outboxes
            && t.outboxes[d] == s.server.outboxes[d] + [Presence(client.roomId, names)]
  {
    RunKeepsInv(states, events, i);
    names := JoinReaches(states[i], c, d);
  }

  /** A name taken by another connection does not change how often one is registered. */
  lemma SameNames(peers: map<string, Conn>, n: string, c: Conn, d: Conn)
    requires c != d && (n in peers ==> peers[n] != d)
    ensures var now := peers[n := c];
            (set x | x in now && now[x] == d) == (set x | x in peers && peers[x] == d)
  {
  }

  lemma JoinReaches(s: System, c: Conn, d: Conn) returns (names: seq<string>)
    requires Inv(s) && Registered(s, d) && c != d && c in s.clients
    requires s.clients[c].roomId == s.clients[d].roomId && s.clients[c].clientId != s.clients[d].clientId
    ensures var client := s.clients[c];
            var t := JoinHandled(s.server, c, client.roomId, client.clientId);
            && client.roomId in t.rooms && Lists(names, t.rooms[client.roomId].peers)
            && d in s.server.outboxes && d in t.outboxes
            && t.outboxes[d] == s.server.outboxes[d] + [Presence(client.roomId, names)]
  {
    var roomId, clientId := s.clients[c].roomId, s.clients[c].clientId;
    var room := s.server.rooms[roomId];
    OneName(s, d);
    assert PeerFits(s, roomId, clientId) && PeerFits(s, roomId, s.clients[d].clientId);
    JoinTells(s.server, c, roomId, clientId);
    names := WelcomeReaches(s.server, JoinHandled(s.server, c, roomId, clientId), c, d, roomId, clientId);
  }

  lemma WelcomeReaches(s: Server, t: Server, c: Conn, d: Conn, roomId: string, clientId: string)
    returns (names: seq<string>)
    requires ToldOfJoin(s, t, c, roomId, clientId)
    requires roomId in s.rooms && d in s.outboxes && d in s.open && c != d
    requires clientId in s.rooms[roomId].peers ==> s.rooms[roomId].peers[clientId] != d
    requires |set n | n in s.rooms[roomId].peers && s.rooms[roomId].peers[n] == d| == 1
    ensures roomId in t.rooms && Lists(names, t.rooms[roomId].peers)
    ensures d in t.outboxes && t.outboxes[d] == s.outboxes[d] + [Presence(roomId, names)]
  {
    names :| JoinTold(s, t, c, roomId, clientId, names);
    var room := s.rooms[roomId];
    var now := room.peers[clientId := c];
    SameNames(room.peers, clientId, c, d);
    EverybodyWelcomed(s, t, c, roomId, clientId, names, d);
    WelcomeIsPresence(s, t, c, Joined(roomId, clientId, names, room.log), now, d);
  }

  lemma EverybodyWelcomed(s: Server, t: Server, c: Conn, roomId: string, clientId: string, names: seq<string>, d: Conn)
    requires JoinTold(s, t, c, roomId, clientId, names) && roomId in s.rooms
    ensures Welcomed(s, t, c, Joined(roomId, clientId, names, s.rooms[roomId].log),
                     s.rooms[roomId].peers[clientId := c], d)
  {
    var peers := (if roomId in s.rooms then s.rooms[roomId].peers else map[])[clientId := c];
    var log := if roomId in s.rooms then s.rooms[roomId].log else [];
    assert peers == s.rooms[roomId].peers[clientId := c] && log == s.rooms[roomId].log;
    assert Welcomed(s, t, c, Joined(roomId, clientId, names, log), peers, d);
  }

  lemma WelcomeIsPresence(s: Server, t: Server, c: Conn, answer: Message, peers: map<string, Conn>, d: Conn)
    requires answer.Joined? && d in s.outboxes && d in t.outboxes && d in s.open && c != d
    requires Welcomed(s, t, c, answer, peers, d)
    requires |set n | n in peers && peers[n] == d| == 1
    ensures t.outboxes[d] == s.outboxes[d] + [Presence(answer.roomId, answer.peers)]
  {
    OneCopy(s.outboxes[d], t.outboxes[d], Presence(answer.roomId, answer.peers), 1);
  }
}
