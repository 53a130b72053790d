/** What the relay server tells whom, message by message (server.rs, room.rs). */
module RelayReplies {
  import opened Operations
  import opened RelayState

  /** `now` is `was`, then `first`, then copies of one message. */
  ghost predicate Gains(was: seq<Message>, now: seq<Message>, first: seq<Message>, m: Message, copies: nat) {
    && |now| == |was| + |first| + copies
    && now[..|was| + |first|] == was + first
    && forall i :: |was| + |first| <= i < |now| ==> now[i] == m
  }

  /** Every open connection gets the message once for each name it is registered under. */
  ghost predicate AllGet(was: Server, now: Server, peers: map<string, Conn>, m: Message) {
    && now.outboxes.Keys == was.outboxes.Keys
    && forall d :: d in was.outboxes ==>
         Gains(was.outboxes[d], now.outboxes[d], [], m,
               if d in was.open then |set n | n in peers && peers[n] == d| else 0)
  }

  /** Nobody but `c` gets anything, and `c` gets one message, if it is open. */
  ghost predicate OnlyGets(was: Server, now: Server, c: Conn, m: Message) {
    && now.outboxes.Keys == was.outboxes.Keys
    && forall d :: d in was.outboxes ==>
         now.outboxes[d] == was.outboxes[d] + if d == c && d in was.open then [m] else []
  }

  // --- joining --------------------------------------------------------------------------

  /** The joiner gets the whole log and the names, then everybody registered gets the names. */
  ghost predicate JoinTold(was: Server, now: Server, c: Conn, roomId: string, clientId: string, names: seq<string>) {
    var peers := (if roomId in was.rooms then was.rooms[roomId].peers else map[])[clientId := c];
    var log := if roomId in was.rooms then was.rooms[roomId].log else [];
    && Lists(names, peers)
    && now.rooms == was.rooms[roomId := RoomView(peers, log)]
    && now.joined == was.joined[c := Membership(roomId, clientId)] && now.open == was.open
    && now.outboxes.Keys == was.outboxes.Keys
    && forall d {:trigger Welcomed(was, now, c, Joined(roomId, clientId, names, log), peers, d)} ::
         Welcomed(was, now, c, Joined(roomId, clientId, names, log), peers, d)
  }

  /** The joiner gets the answer first; everybody registered gets the presence that goes with it. */
  ghost predicate Welcomed(was: Server, now: Server, c: Conn, answer: Message, peers: map<string, Conn>, d: Conn)
    requires answer.Joined?
  {
    d in was.outboxes && d in now.outboxes ==>
      Gains(was.outboxes[d], now.outboxes[d], if d == c && d in was.open then [answer] else [],
            Presence(answer.roomId, answer.peers), if d in was.open then |set n | n in peers && peers[n] == d| else 0)
  }

  ghost predicate ToldOfJoin(was: Server, now: Server, c: Conn, roomId: string, clientId: string) {
    exists names :: JoinTold(was, now, c, roomId, clientId, names)
  }

  lemma CopiesGain(was: seq<Message>, first: seq<Message>, m: Message, copies: nat)
    ensures Gains(was, was + first + Copies(m, copies), first, m, copies)
  {
  }

  lemma JoinTells(s: Server, c: Conn, roomId: string, clientId: string)
    ensures ToldOfJoin(s, JoinHandled(s, c, roomId, clientId), c, roomId, clientId)
  {
    var t := JoinHandled(s, c, roomId, clientId);
    var room := RoomOrNew(s, roomId);
    var peers := room.peers[clientId := c];
    var names := PeerNames(peers);
    forall d ensures Welcomed(s, t, c, Joined(roomId, clientId, names, room.log), peers, d) {
      if d in s.outboxes { JoinWelcomes(s, c, roomId, clientId, d); }
    }
    assert JoinTold(s, t, c, roomId, clientId, names);
  }

  lemma JoinWelcomes(s: Server, c: Conn, roomId: string, clientId: string, d: Conn)
    requires d in s.outboxes
    ensures var room := RoomOrNew(s, roomId);
            var peers := room.peers[clientId := c];
            Welcomed(s, JoinHandled(s, c, roomId, clientId), c,
                     Joined(roomId, clientId, PeerNames(peers), room.log), peers, d)
  {
    var room := RoomOrNew(s, roomId);
    var peers := room.peers[clientId := c];
    var names := PeerNames(peers);
    var first := if d == c && d in s.open then [Joined(roomId, clientId, names, room.log)] else [];
    var copies := if d in s.open then |NamesOf(peers, d)| else 0;
    CopiesGain(s.outboxes[d], first, Presence(roomId, names), copies);
    assert JoinHandled(s, c, roomId, clientId).outboxes[d] ==
           s.outboxes[d] + first + Copies(Presence(roomId, names), copies);
  }

  // --- operations -----------------------------------------------------------------------

  /**
   * Before the join and after a replacement the sender alone gets an error; a new operation goes
   * to everybody registered, under the sender's room and name; a known one to nobody.
   */
  ghost predicate OperationTold(was: Server, now: Server, c: Conn, roomId: string, clientId: string, op: Operation) {
    && now.joined == was.joined && now.open == was.open
    && if !(c in was.joined && was.joined[c].roomId == roomId && was.joined[c].clientId == clientId) then
         now.rooms == was.rooms
         && OnlyGets(was, now, c, Error("client must join the room before sending operations"))
       else if roomId !in was.rooms then
         now == was
       else if !(clientId in was.rooms[roomId].peers && was.rooms[roomId].peers[clientId] == c) then
         now.rooms == was.rooms
         && OnlyGets(was, now, c, Error("stale connection replaced by a newer session"))
       else if exists i :: 0 <= i < |was.rooms[roomId].log| && was.rooms[roomId].log[i].opId == op.opId then
         now == was
       else
         && now.rooms == was.rooms[roomId := RoomView(was.rooms[roomId].peers, was.rooms[roomId].log + [op])]
         && AllGet(was, now, was.rooms[roomId].peers, Broadcasted(was.joined[c].roomId, was.joined[c].clientId, op))
  }

  lemma OperationTells(s: Server, c: Conn, roomId: string, clientId: string, op: Operation)
    ensures OperationTold(s, OperationHandled(s, c, roomId, clientId, op), c, roomId, clientId, op)
  {
  }

  // --- closing --------------------------------------------------------------------------

  /** The connection is the one registered under the name it joined with. */
  ghost predicate Current(s: Server, c: Conn) {
    c in s.joined && s.joined[c].roomId in s.rooms
    && s.joined[c].clientId in s.rooms[s.joined[c].roomId].peers
    && s.rooms[s.joined[c].roomId].peers[s.joined[c].clientId] == c
  }

  /**
   * When the registered connection closes, the others in the room get the names that are left, and
   * a room without any is dropped. When a replaced connection closes, nobody gets anything.
   */
  ghost predicate ClosedTold(was: Server, now: Server, c: Conn, names: seq<string>) {
    && now.joined == was.joined && now.open == was.open - {c}
    && if Current(was, c) then
         var k := was.joined[c].roomId;
         var left := was.rooms[k].peers - {was.joined[c].clientId};
         && now.rooms == (if left == map[] then was.rooms - {k} else was.rooms[k := RoomView(left, was.rooms[k].log)])
         && Lists(names, left) && AllGet(was, now, left, Presence(k, names))
       else
         && now.outboxes == was.outboxes
         && forall k :: k in was.rooms && was.rooms[k].peers != map[] ==> k in now.rooms && now.rooms[k] == was.rooms[k]
  }

  ghost predicate ToldOfClosing(was: Server, now: Server, c: Conn) {
    exists names :: ClosedTold(was, now, c, names)
  }

  lemma ClosingTells(s: Server, c: Conn)
    ensures ToldOfClosing(s, Closed(s, c), c)
  {
    if Current(s, c) {
      CurrentTells(s, c);
    } else {
      assert ClosedTold(s, Closed(s, c), c, []);
    }
  }

  lemma CurrentTells(s: Server, c: Conn)
    requires Current(s, c)
    ensures ToldOfClosing(s, Closed(s, c), c)
  {
    var k := s.joined[c].roomId;
    var left := s.rooms[k].peers - {s.joined[c].clientId};
    var names := PeerNames(left);
    BroadcastTells(s.outboxes, s.open, left, Presence(k, names));
    assert ClosedTold(s, Closed(s, c), c, names);
  }

  lemma BroadcastTells(out: Outboxes, open: set<Conn>, peers: map<string, Conn>, m: Message)
    ensures Broadcast(out, open, peers, m).Keys == out.Keys
    ensures forall d :: d in out ==>
              Gains(out[d], Broadcast(out, open, peers, m)[d], [], m,
                    if d in open then |set n | n in peers && peers[n] == d| else 0)
  {
    forall d | d in out
      ensures Gains(out[d], Broadcast(out, open, peers, m)[d], [], m,
                    if d in open then |set n | n in peers && peers[n] == d| else 0)
    {
      var copies := if d in open then |NamesOf(peers, d)| else 0;
      CopiesGain(out[d], [], m, copies);
      assert Broadcast(out, open, peers, m)[d] == out[d] + [] + Copies(m, copies);
    }
  }
}
