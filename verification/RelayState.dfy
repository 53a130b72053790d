/** The relay server's state and the effect of each lock-held region on it (room.rs, server.rs). */
module RelayState {
  import opened Ids
  import opened Sorting
  import opened Operations
  import opened OperationLogs

  /** A connection, compared as `same_channel` compares senders. */
  type Conn = nat

  datatype Message =
    | Joined(roomId: string, clientId: string, peers: seq<string>, opLog: seq<Operation>)
    | Presence(roomId: string, peers: seq<string>)
    | Broadcasted(roomId: string, clientId: string, op: Operation)
    | Error(text: string)

  datatype RoomView = RoomView(peers: map<string, Conn>, log: seq<Operation>)

  datatype Membership = Membership(roomId: string, clientId: string)

  /**
   * The rooms, the `joined_room` of each connection, and every connection's outbox since it
   * opened. Sends to a connection that is no longer open are lost.
   */
  datatype Server = Server(
    rooms: map<string, RoomView>,
    joined: map<Conn, Membership>,
    outboxes: map<Conn, seq<Message>>,
    open: set<Conn>)

  type Outboxes = map<Conn, seq<Message>>

  /** `b` is greater at the first position where the two differ, or continues where `a` ends. */
  ghost predicate NameBefore(a: string, b: string) {
    exists k :: 0 <= k <= |a| && k < |b| && a[..k] == b[..k] && (k == |a| || a[k] < b[k])
  }

  /** Every name once, in ascending order. */
  ghost predicate Lists(names: seq<string>, peers: map<string, Conn>) {
    && |names| == |peers| && (forall n :: n in names <==> n in peers)
    && (forall i, j {:trigger NameBefore(names[i], names[j])} ::
          0 <= i < j < |names| ==> NameBefore(names[i], names[j]))
  }

  function PeerNames(peers: map<string, Conn>): (names: seq<string>)
    ensures Lists(names, peers)
  {
    LexStrictTotal();
    SortedNames(peers);
    Listing(peers.Keys, LexLess)
  }

  lemma SortedNames(peers: map<string, Conn>)
    requires StrictTotal(LexLess)
    ensures Lists(Listing(peers.Keys, LexLess), peers)
  {
    var names := Listing(peers.Keys, LexLess);
    forall i, j | 0 <= i < j < |names| ensures NameBefore(names[i], names[j]) {
      LexIsFirstDifference(names[i], names[j]);
    }
    ListingOnce(peers.Keys, LexLess);
    assert |peers.Keys| == |peers|;
  }

  ghost function Copies(message: Message, n: nat): seq<Message> {
    seq(n, i => message)
  }

  ghost function NamesOf(peers: map<string, Conn>, c: Conn): set<string> {
    set n | n in peers && peers[n] == c
  }

  ghost function Sent(out: Outboxes, open: set<Conn>, c: Conn, message: Message): Outboxes {
    if c in out && c in open then out[c := out[c] + [message]] else out
  }

  /** Every registered peer gets one copy for each name it is registered under. */
  ghost function Broadcast(out: Outboxes, open: set<Conn>, peers: map<string, Conn>, message: Message): Outboxes {
    map c | c in out :: out[c] + (if c in open then Copies(message, |NamesOf(peers, c)|) else [])
  }

  ghost function Opened(s: Server, c: Conn): Server {
    s.(outboxes := s.outboxes[c := []], open := s.open + {c})
  }

  ghost function RoomOrNew(s: Server, roomId: string): RoomView {
    if roomId in s.rooms then s.rooms[roomId] else RoomView(map[], [])
  }

  /** `handle_join`, and the connection's `joined_room` afterwards. */
  ghost function JoinHandled(s: Server, c: Conn, roomId: string, clientId: string): Server {
    var was := RoomOrNew(s, roomId);
    var room := was.(peers := was.peers[clientId := c]);
    var names := PeerNames(room.peers);
    var out := Sent(s.outboxes, s.open, c, Joined(roomId, clientId, names, room.log));
    Server(s.rooms[roomId := room],
           s.joined[c := Membership(roomId, clientId)],
           Broadcast(out, s.open, room.peers, Presence(roomId, names)),
           s.open)
  }

  ghost predicate IsActiveSender(room: RoomView, clientId: string, c: Conn) {
    clientId in room.peers && room.peers[clientId] == c
  }

  const NOT_JOINED := "client must join the room before sending operations"
  const STALE := "stale connection replaced by a newer session"

  /** The operation branch of `handle_connection`. */
  ghost function OperationHandled(s: Server, c: Conn, roomId: string, clientId: string, op: Operation): Server {
    if !(c in s.joined && s.joined[c] == Membership(roomId, clientId)) then
      s.(outboxes := Sent(s.outboxes, s.open, c, Error(NOT_JOINED)))
    else if roomId !in s.rooms then s
    else
      var room := s.rooms[roomId];
      if !IsActiveSender(room, clientId, c) then
        s.(outboxes := Sent(s.outboxes, s.open, c, Error(STALE)))
      else if Logged(room.log, op.opId) then s
      else
        s.(rooms := s.rooms[roomId := room.(log := room.log + [op])],
           outboxes := Broadcast(s.outboxes, s.open, room.peers, Broadcasted(roomId, clientId, op)))
  }

  /** The end of `handle_connection`: leave the room joined last, and drop it if it is empty. */
  ghost function Closed(s: Server, c: Conn): Server {
    var open := s.open - {c};
    if c in s.joined && s.joined[c].roomId in s.rooms then
      var Membership(roomId, clientId) := s.joined[c];
      var room := s.rooms[roomId];
      var same := IsActiveSender(room, clientId, c);
      var left := if same then room.(peers := room.peers - {clientId}) else room;
      var out := if same
                 then Broadcast(s.outboxes, s.open, left.peers, Presence(roomId, PeerNames(left.peers)))
                 else s.outboxes;
      Server(if left.peers == map[] then s.rooms - {roomId} else s.rooms[roomId := left], s.joined, out, open)
    else
      s.(open := open)
  }

  lemma BroadcastToNobody(out: Outboxes, open: set<Conn>, message: Message)
    ensures Broadcast(out, open, map[], message) == out
  {
    forall c | c in out ensures Broadcast(out, open, map[], message)[c] == out[c] {
      assert NamesOf(map[], c) == {};
    }
  }

  /** Sending to one more registered name is one more step of a broadcast. */
  lemma BroadcastOneMore(out: Outboxes, open: set<Conn>, peers: map<string, Conn>, n: string, c: Conn, message: Message)
    requires n !in peers
    ensures Sent(Broadcast(out, open, peers, message), open, c, message) ==
              Broadcast(out, open, peers[n := c], message)
  {
    var l := Sent(Broadcast(out, open, peers, message), open, c, message);
    var r := Broadcast(out, open, peers[n := c], message);
    forall d | d in out ensures l[d] == r[d] {
      NamesOneMore(peers, n, c, d);
      var k := |NamesOf(peers, d)|;
      assert Copies(message, k + 1) == Copies(message, k) + [message];
      assert out[d] + Copies(message, k) + [message] == out[d] + (Copies(message, k) + [message]);
    }
  }

  lemma NamesOneMore(peers: map<string, Conn>, n: string, c: Conn, d: Conn)
    requires n !in peers
    ensures |NamesOf(peers[n := c], d)| == |NamesOf(peers, d)| + (if d == c then 1 else 0)
  {
    assert NamesOf(peers[n := c], d) == NamesOf(peers, d) + (if d == c then {n} else {});
  }
}
