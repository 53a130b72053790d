/**
 * A relay server and its clients over whole runs. Each connection joins once, its channels to and
 * from the server are first-in first-out, and its client starts with an empty document.
 */
module RelayRuns {
  import opened Ids
  import opened Operations
  import opened OperationLogs
  import opened Denotation
  import Settling
  import opened RelayState

  datatype Request =
    | JoinRequest
    | OperationRequest(op: Operation)

  /** `own` are the operations the client issued, `read` how much of its outbox it has handled. */
  datatype Client = Client(
    roomId: string,
    clientId: string,
    ops: OpSet,
    own: set<ElementId>,
    outgoing: seq<Request>,
    read: nat)

  datatype System = System(server: Server, clients: map<Conn, Client>, issued: OpSet)

  datatype Event =
    | Connect(c: Conn, roomId: string, clientId: string)
    | Edit(c: Conn, op: Operation)
    | ServerReads(c: Conn)
    | ClientReads(c: Conn)
    | Close(c: Conn)

  ghost predicate Init(s: System) {
    s == System(Server(map[], map[], map[], {}), map[], map[])
  }

  ghost function Handle(server: Server, c: Conn, client: Client, request: Request): Server {
    match request
    case JoinRequest => JoinHandled(server, c, client.roomId, client.clientId)
    case OperationRequest(op) => OperationHandled(server, c, client.roomId, client.clientId, op)
  }

  /** What a client does with a message from the server. */
  ghost function Apply(ops: OpSet, message: Message): OpSet {
    match message
    case Joined(_, _, _, opLog) => ReceiveAll(ops, opLog)
    case Broadcasted(_, _, op) => Receive(ops, op)
    case _ => ops
  }

  ghost predicate CanRead(s: System, c: Conn) {
    c in s.clients && c in s.server.outboxes && s.clients[c].read < |s.server.outboxes[c]|
  }

  ghost predicate Enabled(s: System, e: Event) {
    match e
    case Connect(c, _, _) => c !in s.server.outboxes && c !in s.clients && c !in s.server.joined
    case Edit(c, op) => c in s.clients && s.clients[c].read > 0 && op.opId !in s.issued
    case ServerReads(c) => c in s.clients && s.clients[c].outgoing != []
    case ClientReads(c) => CanRead(s, c)
    case Close(c) => c in s.clients
  }

  ghost function Next(s: System, e: Event): System
    requires Enabled(s, e)
  {
    match e
    case Connect(c, roomId, clientId) =>
      s.(server := Opened(s.server, c),
         clients := s.clients[c := Client(roomId, clientId, map[], {}, [JoinRequest], 0)])
    case Edit(c, op) =>
      var client := s.clients[c];
      s.(clients := s.clients[c := client.(ops := client.ops[op.opId := op],
                                           own := client.own + {op.opId},
                                           outgoing := client.outgoing + [OperationRequest(op)])],
         issued := s.issued[op.opId := op])
    case ServerReads(c) =>
      var client := s.clients[c];
      s.(server := Handle(s.server, c, client, client.outgoing[0]),
         clients := s.clients[c := client.(outgoing := client.outgoing[1..])])
    case ClientReads(c) =>
      var client := s.clients[c];
      s.(clients := s.clients[c := client.(ops := Apply(client.ops, s.server.outboxes[c][client.read]),
                                           read := client.read + 1)])
    case Close(c) =>
      s.(server := Closed(s.server, c), clients := s.clients - {c})
  }

  ghost predicate Run(states: seq<System>, events: seq<Event>) {
    && |states| == |events| + 1 && Init(states[0])
    && forall i :: 0 <= i < |events| ==> Enabled(states[i], events[i]) && states[i + 1] == Next(states[i], events[i])
  }

  // --- the operations in an outbox ------------------------------------------------------

  ghost function OpsIn(message: Message): seq<Operation> {
    match message
    case Joined(_, _, _, opLog) => opLog
    case Broadcasted(_, _, op) => [op]
    case _ => []
  }

  /** The joined log and the later operation messages of an outbox, as one list. */
  ghost function Stream(outbox: seq<Message>): seq<Operation> {
    if outbox == [] then [] else Stream(outbox[..|outbox| - 1]) + OpsIn(outbox[|outbox| - 1])
  }

  lemma {:induction false} StreamSilent(outbox: seq<Message>, message: Message, n: nat)
    requires OpsIn(message) == []
    ensures Stream(outbox + Copies(message, n)) == Stream(outbox)
  {
    if n == 0 {
      assert outbox + Copies(message, 0) == outbox;
    } else {
      StreamSilent(outbox, message, n - 1);
      assert outbox + Copies(message, n) == outbox + Copies(message, n - 1) + [message];
    }
  }

  // --- what every step keeps ------------------------------------------------------------

  ghost predicate Issued(issued: OpSet, log: seq<Operation>) {
    forall i {:trigger log[i]} :: 0 <= i < |log| ==> log[i].opId in issued && issued[log[i].opId] == log[i]
  }

  ghost predicate RoomFits(s: System, k: string) {
    k in s.server.rooms ==>
      && s.server.rooms[k].peers != map[]
      && DistinctIds(s.server.rooms[k].log)
      && Issued(s.issued, s.server.rooms[k].log)
  }

  /** A registered peer is a live connection that joined as that peer, and its stream is the log. */
  ghost predicate PeerFits(s: System, k: string, n: string) {
    k in s.server.rooms && n in s.server.rooms[k].peers ==>
      var c := s.server.rooms[k].peers[n];
      && c in s.clients && c in s.server.open && c in s.server.outboxes
      && c in s.server.joined && s.server.joined[c] == Membership(k, n)
      && Stream(s.server.outboxes[c]) == s.server.rooms[k].log
  }

  ghost predicate Registered(s: System, c: Conn) {
    c in s.clients && s.clients[c].roomId in s.server.rooms &&
    IsActiveSender(s.server.rooms[s.clients[c].roomId], s.clients[c].clientId, c)
  }

  ghost predicate Sending(client: Client, id: ElementId) {
    exists i :: 0 <= i < |client.outgoing| && client.outgoing[i].OperationRequest? && client.outgoing[i].op.opId == id
  }

  /** Requests wait behind the join, and carry the client's own operations. */
  ghost predicate OutgoingFits(s: System, c: Conn)
    requires c in s.clients
  {
    var client := s.clients[c];
    && (forall i {:trigger client.outgoing[i]} :: 0 <= i < |client.outgoing| && client.outgoing[i].OperationRequest? ==>
          var op := client.outgoing[i].op;
          op.opId in client.own && op.opId in s.issued && s.issued[op.opId] == op)
    && (if c in s.server.joined
        then s.server.joined[c] == Membership(client.roomId, client.clientId) &&
             forall i :: 0 <= i < |client.outgoing| ==> client.outgoing[i].OperationRequest?
        else client.outgoing == [JoinRequest] && client.read == 0 && client.own == {})
  }

  ghost predicate Knows(s: System, c: Conn, id: ElementId)
    requires c in s.clients && c in s.server.outboxes && s.clients[c].read <= |s.server.outboxes[c]|
  {
    id in s.clients[c].ops <==>
      Logged(Stream(s.server.outboxes[c][..s.clients[c].read]), id) || id in s.clients[c].own
  }

  ghost predicate OwnReaches(s: System, c: Conn, id: ElementId) {
    Registered(s, c) && id in s.clients[c].own ==>
      Logged(s.server.rooms[s.clients[c].roomId].log, id) || Sending(s.clients[c], id)
  }

  ghost predicate ClientFits(s: System, c: Conn) {
    c in s.clients ==>
      && c in s.server.outboxes && c in s.server.open
      && s.clients[c].read <= |s.server.outboxes[c]|
      && (c !in s.server.joined ==> s.server.outboxes[c] == [])
      && Issued(s.issued, Stream(s.server.outboxes[c]))
      && OutgoingFits(s, c)
      && Included(s.clients[c].ops, s.issued)
      && (forall id {:trigger Knows(s, c, id)} :: Knows(s, c, id))
      && (forall id {:trigger OwnReaches(s, c, id)} :: OwnReaches(s, c, id))
  }

  ghost predicate Inv(s: System) {
    && Keyed(s.issued)
    && (forall k {:trigger RoomFits(s, k)} :: RoomFits(s, k))
    && (forall k, n {:trigger PeerFits(s, k, n)} :: PeerFits(s, k, n))
    && (forall c {:trigger ClientFits(s, c)} :: ClientFits(s, c))
  }

  // --- what a server step adds to the outboxes ------------------------------------------

  /** Every outbox of `was` continues in `now`, its stream extended by `more`. */
  ghost predicate Continues(was: Outboxes, now: Outboxes, d: Conn, more: seq<Operation>) {
    d in was ==> d in now && was[d] <= now[d] && Stream(now[d]) == Stream(was[d]) + more
  }

  lemma SentContinues(out: Outboxes, open: set<Conn>, c: Conn, message: Message, d: Conn)
    requires c in open
    ensures Continues(out, Sent(out, open, c, message), d, if d == c then OpsIn(message) else [])
  {
    if d in out {
      assert Stream(out[d]) + [] == Stream(out[d]);
    }
  }

  lemma SilentContinues(out: Outboxes, open: set<Conn>, peers: map<string, Conn>, message: Message, d: Conn)
    requires OpsIn(message) == []
    ensures Continues(out, Broadcast(out, open, peers, message), d, [])
  {
    if d in out {
      StreamSilent(out[d], message, |NamesOf(peers, d)|);
      assert Stream(out[d]) + [] == Stream(out[d]);
      assert out[d] + [] == out[d];
    }
  }

  lemma BroadcastContinues(out: Outboxes, open: set<Conn>, peers: map<string, Conn>, message: Message,
                           d: Conn, n: string)
    requires d in open ==> NamesOf(peers, d) == if n in peers && peers[n] == d then {n} else {}
    requires n in peers && peers[n] == d ==> d in open
    ensures Continues(out, Broadcast(out, open, peers, message), d,
                      if n in peers && peers[n] == d then OpsIn(message) else [])
  {
    if d in out {
      if n in peers && peers[n] == d {
        assert Copies(message, 1) == [message];
      } else {
        assert Copies(message, 0) == [];
        assert out[d] + [] == out[d];
        assert Stream(out[d]) + [] == Stream(out[d]);
      }
    }
  }

  /** A join hands the room's log to the joiner, and nothing but presence to the others. */
  lemma JoinContinues(server: Server, c: Conn, k: string, n: string, d: Conn)
    requires c in server.open
    ensures Continues(server.outboxes, JoinHandled(server, c, k, n).outboxes, d,
                      if d == c then RoomOrNew(server, k).log else [])
  {
    var room := RoomOrNew(server, k).(peers := RoomOrNew(server, k).peers[n := c]);
    var joined := Joined(k, n, PeerNames(room.peers), room.log);
    var out := Sent(server.outboxes, server.open, c, joined);
    SentContinues(server.outboxes, server.open, c, joined, d);
    SilentContinues(out, server.open, room.peers, Presence(k, PeerNames(room.peers)), d);
    if d in server.outboxes {
      assert Stream(out[d]) + [] == Stream(out[d]);
    }
  }

  // --- preservation ---------------------------------------------------------------------

  lemma IssuedMore(issued: OpSet, op: Operation, log: seq<Operation>)
    requires Issued(issued, log) && op.opId !in issued
    ensures Issued(issued[op.opId := op], log)
  {
  }

  lemma LoggedMore(log: seq<Operation>, more: seq<Operation>, id: ElementId)
    ensures Logged(log + more, id) <==> Logged(log, id) || Logged(more, id)
  {
    if Logged(log, id) {
      var i :| 0 <= i < |log| && log[i].opId == id;
      assert (log + more)[i].opId == id;
    }
    if Logged(more, id) {
      var i :| 0 <= i < |more| && more[i].opId == id;
      assert (log + more)[|log| + i].opId == id;
    }
  }

  /** A client that did not act fits after a step that only extends its outbox and its room's log. */
  lemma OtherClientFits(s: System, t: System, d: Conn, more: seq<Operation>)
    requires ClientFits(s, d) && d in s.clients && d in t.clients && t.clients[d] == s.clients[d]
    requires Continues(s.server.outboxes, t.server.outboxes, d, more) && d in t.server.open
    requires d in s.server.joined <==> d in t.server.joined
    requires d in s.server.joined ==> t.server.joined[d] == s.server.joined[d]
    requires d !in t.server.joined ==> t.server.outboxes[d] == []
    requires Included(s.issued, t.issued) && Issued(t.issued, more)
    requires Registered(t, d) ==>
               && Registered(s, d)
               && var k := s.clients[d].roomId;
                  forall id :: Logged(s.server.rooms[k].log, id) ==> Logged(t.server.rooms[k].log, id)
    ensures ClientFits(t, d)
  {
    var was, now := s.server.outboxes[d], t.server.outboxes[d];
    assert now[..s.clients[d].read] == was[..s.clients[d].read];
    assert OutgoingFits(t, d);
    forall id ensures Knows(t, d, id) { assert Knows(s, d, id); }
    forall id ensures OwnReaches(t, d, id) { assert OwnReaches(s, d, id); }
  }

  lemma SameOutbox(out: Outboxes, d: Conn)
    ensures Continues(out, out, d, [])
  {
    if d in out { assert Stream(out[d]) + [] == Stream(out[d]); }
  }

  /** A connection is registered nowhere but under the name it joined with. */
  lemma NamesOfPeer(s: System, k: string, d: Conn)
    requires Inv(s) && k in s.server.rooms
    ensures NamesOf(s.server.rooms[k].peers, d) ==
              if d in s.server.joined && s.server.joined[d].roomId == k &&
                 IsActiveSender(s.server.rooms[k], s.server.joined[d].clientId, d)
              then {s.server.joined[d].clientId} else {}
  {
    forall n | n in NamesOf(s.server.rooms[k].peers, d)
      ensures d in s.server.joined && s.server.joined[d] == Membership(k, n)
    {
      assert PeerFits(s, k, n);
    }
  }

  lemma ConnectKeepsInv(s: System, c: Conn, roomId: string, clientId: string)
    requires Inv(s) && Enabled(s, Connect(c, roomId, clientId))
    ensures Inv(Next(s, Connect(c, roomId, clientId)))
  {
    var t := Next(s, Connect(c, roomId, clientId));
    forall k ensures RoomFits(t, k) { assert RoomFits(s, k); }
    forall k, n ensures PeerFits(t, k, n) { assert PeerFits(s, k, n); }
    forall d ensures ClientFits(t, d) {
      assert ClientFits(s, d);
      if d == c {
        NewClientFits(t, c);
      } else if d in s.clients {
        SameOutbox(s.server.outboxes, d);
        OtherClientFits(s, t, d, []);
      }
    }
  }

  lemma NewClientFits(t: System, c: Conn)
    requires c in t.clients && c in t.server.outboxes && c in t.server.open && t.server.outboxes[c] == []
    requires c !in t.server.joined
    requires t.clients[c].ops == map[] && t.clients[c].own == {}
    requires t.clients[c].outgoing == [JoinRequest] && t.clients[c].read == 0
    ensures ClientFits(t, c)
  {
    assert OutgoingFits(t, c);
    forall id ensures Knows(t, c, id) {}
    forall id ensures OwnReaches(t, c, id) {}
  }

  // --- an edit --------------------------------------------------------------------------

  lemma EditKeepsInv(s: System, c: Conn, op: Operation)
    requires Inv(s) && Enabled(s, Edit(c, op))
    ensures Inv(Next(s, Edit(c, op)))
  {
    var t := Next(s, Edit(c, op));
    forall k ensures RoomFits(t, k) {
      assert RoomFits(s, k);
      if k in s.server.rooms { IssuedMore(s.issued, op, s.server.rooms[k].log); }
    }
    forall k, n ensures PeerFits(t, k, n) { assert PeerFits(s, k, n); }
    forall d ensures ClientFits(t, d) {
      assert ClientFits(s, d);
      if d == c {
        EditorFits(s, c, op);
      } else if d in s.clients {
        SameOutbox(s.server.outboxes, d);
        OtherClientFits(s, t, d, []);
      }
    }
  }

  lemma EditorFits(s: System, c: Conn, op: Operation)
    requires ClientFits(s, c) && Enabled(s, Edit(c, op))
    ensures ClientFits(Next(s, Edit(c, op)), c)
  {
    var t := Next(s, Edit(c, op));
    var client, edited := s.clients[c], t.clients[c];
    IssuedMore(s.issued, op, Stream(s.server.outboxes[c]));
    assert edited.outgoing == client.outgoing + [OperationRequest(op)];
    assert OutgoingFits(t, c) by {
      assert OutgoingFits(s, c);
      forall i | 0 <= i < |edited.outgoing| && edited.outgoing[i].OperationRequest?
        ensures edited.outgoing[i].op.opId in edited.own && edited.outgoing[i].op.opId in t.issued
        ensures t.issued[edited.outgoing[i].op.opId] == edited.outgoing[i].op
      {
        if i < |client.outgoing| { assert edited.outgoing[i] == client.outgoing[i]; }
      }
    }
    forall id ensures Knows(t, c, id) { assert Knows(s, c, id); }
    forall id ensures OwnReaches(t, c, id) {
      assert OwnReaches(s, c, id);
      if Sending(client, id) || id == op.opId { EditedSends(client, edited, op, id); }
    }
  }

  lemma EditedSends(client: Client, edited: Client, op: Operation, id: ElementId)
    requires edited.outgoing == client.outgoing + [OperationRequest(op)]
    requires Sending(client, id) || id == op.opId
    ensures Sending(edited, id)
  {
    if Sending(client, id) {
      var i :| 0 <= i < |client.outgoing| && client.outgoing[i].OperationRequest? && client.outgoing[i].op.opId == id;
      assert edited.outgoing[i] == client.outgoing[i];
    } else {
      assert edited.outgoing[|client.outgoing|] == OperationRequest(op);
    }
  }

  // --- a client reads -------------------------------------------------------------------

  lemma ClientReadsKeepsInv(s: System, c: Conn)
    requires Inv(s) && CanRead(s, c)
    ensures Inv(Next(s, ClientReads(c)))
  {
    var t := Next(s, ClientReads(c));
    forall k ensures RoomFits(t, k) { assert RoomFits(s, k); }
    forall k, n ensures PeerFits(t, k, n) { assert PeerFits(s, k, n); }
    forall d ensures ClientFits(t, d) {
      assert ClientFits(s, d);
      if d == c {
        ReaderFits(s, c);
      } else if d in s.clients {
        SameOutbox(s.server.outboxes, d);
        OtherClientFits(s, t, d, []);
      }
    }
  }

  lemma {:induction false} ReceivedLogged(ops: OpSet, log: seq<Operation>, id: ElementId)
    ensures id in ReceiveAll(ops, log) <==> id in ops || Logged(log, id)
  {
    if log != [] {
      var n := |log| - 1;
      ReceivedLogged(ops, log[..n], id);
      LoggedMore(log[..n], [log[n]], id);
      assert log == log[..n] + [log[n]];
      assert Logged([log[n]], id) <==> id == log[n].opId by {
        if id == log[n].opId { assert [log[n]][0].opId == id; }
      }
    }
  }

  lemma {:induction false} ReceivedIncluded(ops: OpSet, log: seq<Operation>, issued: OpSet)
    requires Included(ops, issued) && Issued(issued, log)
    ensures Included(ReceiveAll(ops, log), issued)
  {
    if log != [] {
      var n := |log| - 1;
      assert forall i :: 0 <= i < n ==> log[..n][i] == log[i];
      ReceivedIncluded(ops, log[..n], issued);
    }
  }

  lemma {:induction false} StreamPart(outbox: seq<Message>, i: nat)
    requires i < |outbox|
    ensures Stream(outbox[..i + 1]) == Stream(outbox[..i]) + OpsIn(outbox[i])
    ensures Stream(outbox[..i + 1]) <= Stream(outbox)
    decreases |outbox| - i
  {
    assert outbox[..i + 1][..i] == outbox[..i];
    if i + 1 < |outbox| {
      StreamPart(outbox, i + 1);
    } else {
      assert outbox[..i + 1] == outbox;
    }
  }

  lemma IssuedPart(issued: OpSet, log: seq<Operation>, a: seq<Operation>, b: seq<Operation>)
    requires Issued(issued, log) && a + b <= log
    ensures Issued(issued, b)
  {
    forall i | 0 <= i < |b| ensures b[i].opId in issued && issued[b[i].opId] == b[i] {
      assert log[|a| + i] == (a + b)[|a| + i] == b[i];
    }
  }

  lemma ReaderFits(s: System, c: Conn)
    requires ClientFits(s, c) && CanRead(s, c)
    ensures ClientFits(Next(s, ClientReads(c)), c)
  {
    var t := Next(s, ClientReads(c));
    var client, outbox := s.clients[c], s.server.outboxes[c];
    var message := outbox[client.read];
    StreamPart(outbox, client.read);
    IssuedPart(s.issued, Stream(outbox), Stream(outbox[..client.read]), OpsIn(message));
    ReceivedIncluded(client.ops, OpsIn(message), s.issued);
    assert OutgoingFits(s, c) && OutgoingFits(t, c);
    forall id ensures Knows(t, c, id) {
      assert Knows(s, c, id);
      ReceivedLogged(client.ops, OpsIn(message), id);
      LoggedMore(Stream(outbox[..client.read]), OpsIn(message), id);
    }
    forall id ensures OwnReaches(t, c, id) {
      assert OwnReaches(s, c, id);
      assert Sending(client, id) ==> Sending(t.clients[c], id);
    }
  }

  // --- the server handles a join --------------------------------------------------------

  lemma JoinKeepsInv(s: System, c: Conn)
    requires Inv(s) && Enabled(s, ServerReads(c)) && s.clients[c].outgoing[0].JoinRequest?
    ensures Inv(Next(s, ServerReads(c)))
  {
    var t := Next(s, ServerReads(c));
    var client := s.clients[c];
    assert ClientFits(s, c) && OutgoingFits(s, c);
    forall k ensures RoomFits(t, k) { assert RoomFits(s, k); }
    forall k, n ensures PeerFits(t, k, n) { JoinedPeerFits(s, c, k, n); }
    forall d ensures ClientFits(t, d) {
      assert ClientFits(s, d);
      if d == c {
        JoinerFits(s, c);
      } else if d in s.clients {
        BystanderOfJoinFits(s, c, d);
      }
    }
  }

  lemma RoomOrNewIssued(s: System, k: string)
    requires Inv(s)
    ensures Issued(s.issued, RoomOrNew(s.server, k).log)
  {
    assert RoomFits(s, k);
  }

  lemma JoinedPeerFits(s: System, c: Conn, k: string, n: string)
    requires Inv(s) && Enabled(s, ServerReads(c)) && s.clients[c].outgoing[0].JoinRequest?
    ensures PeerFits(Next(s, ServerReads(c)), k, n)
  {
    var t := Next(s, ServerReads(c));
    var client := s.clients[c];
    assert ClientFits(s, c) && OutgoingFits(s, c) && PeerFits(s, k, n);
    if k in t.server.rooms && n in t.server.rooms[k].peers {
      var d := t.server.rooms[k].peers[n];
      JoinContinues(s.server, c, client.roomId, client.clientId, d);
      if k == client.roomId && n == client.clientId {
        assert Stream(s.server.outboxes[c]) == [];
        assert [] + RoomOrNew(s.server, k).log == RoomOrNew(s.server, k).log;
      } else {
        assert Stream(s.server.outboxes[d]) + [] == Stream(s.server.outboxes[d]);
      }
    }
  }

  lemma JoinerFits(s: System, c: Conn)
    requires Inv(s) && Enabled(s, ServerReads(c)) && s.clients[c].outgoing[0].JoinRequest?
    ensures ClientFits(Next(s, ServerReads(c)), c)
  {
    var t := Next(s, ServerReads(c));
    var client := s.clients[c];
    assert ClientFits(s, c) && OutgoingFits(s, c);
    JoinContinues(s.server, c, client.roomId, client.clientId, c);
    RoomOrNewIssued(s, client.roomId);
    assert [] + RoomOrNew(s.server, client.roomId).log == RoomOrNew(s.server, client.roomId).log;
    assert OutgoingFits(t, c);
    forall id ensures Knows(t, c, id) {
      assert Knows(s, c, id);
      assert t.server.outboxes[c][..0] == [];
    }
    forall id ensures OwnReaches(t, c, id) {}
  }

  lemma BystanderOfJoinFits(s: System, c: Conn, d: Conn)
    requires Inv(s) && Enabled(s, ServerReads(c)) && s.clients[c].outgoing[0].JoinRequest?
    requires d in s.clients && d != c
    ensures ClientFits(Next(s, ServerReads(c)), d)
  {
    var t := Next(s, ServerReads(c));
    var client := s.clients[c];
    assert ClientFits(s, c) && OutgoingFits(s, c) && ClientFits(s, d) && OutgoingFits(s, d);
    JoinContinues(s.server, c, client.roomId, client.clientId, d);
    if d !in s.server.joined { JoinSkipsOutsiders(s, c, d); }
    OtherClientFits(s, t, d, []);
  }

  lemma JoinSkipsOutsiders(s: System, c: Conn, d: Conn)
    requires Inv(s) && Enabled(s, ServerReads(c)) && s.clients[c].outgoing[0].JoinRequest?
    requires d in s.server.outboxes && d != c && d !in s.server.joined
    ensures Next(s, ServerReads(c)).server.outboxes[d] == s.server.outboxes[d]
  {
    var k, n := s.clients[c].roomId, s.clients[c].clientId;
    var peers := RoomOrNew(s.server, k).peers;
    if k in s.server.rooms { NamesOfPeer(s, k, d); }
    assert NamesOf(peers[n := c], d) == NamesOf(peers, d) - {n};
    assert NamesOf(peers[n := c], d) == {};
    assert s.server.outboxes[d] + Copies(Presence(k, PeerNames(peers[n := c])), 0) == s.server.outboxes[d];
  }

  // --- the server handles an operation --------------------------------------------------

  /** The operation is one the sender still has to have logged. */
  ghost predicate Appends(s: System, c: Conn, op: Operation) {
    && c in s.clients && c in s.server.joined
    && s.server.joined[c] == Membership(s.clients[c].roomId, s.clients[c].clientId)
    && Registered(s, c) && !Logged(s.server.rooms[s.clients[c].roomId].log, op.opId)
  }

  lemma OperationContinues(s: System, c: Conn, op: Operation, d: Conn)
    requires Inv(s) && c in s.clients && c in s.server.open && d in s.server.outboxes
    requires d in s.clients ==> d in s.server.open
    ensures var client := s.clients[c];
            var now := OperationHandled(s.server, c, client.roomId, client.clientId, op);
            Continues(s.server.outboxes, now.outboxes, d,
                      if Appends(s, c, op) && d in s.server.joined && s.server.joined[d].roomId == client.roomId &&
                         IsActiveSender(s.server.rooms[client.roomId], s.server.joined[d].clientId, d)
                      then [op] else [])
  {
    var k, n := s.clients[c].roomId, s.clients[c].clientId;
    if Appends(s, c, op) {
      var peers := s.server.rooms[k].peers;
      NamesOfPeer(s, k, d);
      var m := if d in s.server.joined then s.server.joined[d].clientId else n;
      if m in peers && peers[m] == d { assert PeerFits(s, k, m); }
      BroadcastContinues(s.server.outboxes, s.server.open, peers, Broadcasted(k, n, op), d, m);
    } else {
      SentContinues(s.server.outboxes, s.server.open, c, Error(NOT_JOINED), d);
      SentContinues(s.server.outboxes, s.server.open, c, Error(STALE), d);
      SameOutbox(s.server.outboxes, d);
    }
  }

  lemma OperationSkipsOutsiders(s: System, c: Conn, op: Operation, d: Conn)
    requires Inv(s) && c in s.clients && c in s.server.joined && d in s.server.outboxes && d !in s.server.joined
    ensures var client := s.clients[c];
            OperationHandled(s.server, c, client.roomId, client.clientId, op).outboxes[d] == s.server.outboxes[d]
  {
    var k := s.clients[c].roomId;
    if Appends(s, c, op) {
      NamesOfPeer(s, k, d);
      assert s.server.outboxes[d] + Copies(Broadcasted(k, s.clients[c].clientId, op), 0) == s.server.outboxes[d];
    }
  }

  lemma OperationKeepsInv(s: System, c: Conn)
    requires Inv(s) && Enabled(s, ServerReads(c)) && s.clients[c].outgoing[0].OperationRequest?
    ensures Inv(Next(s, ServerReads(c)))
  {
    var t := Next(s, ServerReads(c));
    forall k ensures RoomFits(t, k) { AppendedRoomFits(s, c, k); }
    forall k, n ensures PeerFits(t, k, n) { AppendedPeerFits(s, c, k, n); }
    forall d ensures ClientFits(t, d) {
      assert ClientFits(s, d);
      if d == c {
        SenderFits(s, c);
      } else if d in s.clients {
        BystanderOfOperationFits(s, c, d);
      }
    }
  }

  lemma SenderFacts(s: System, c: Conn)
    requires Inv(s) && Enabled(s, ServerReads(c)) && s.clients[c].outgoing[0].OperationRequest?
    ensures ClientFits(s, c) && OutgoingFits(s, c) && c in s.server.joined && c in s.server.open
    ensures var op := s.clients[c].outgoing[0].op;
            op.opId in s.clients[c].own && op.opId in s.issued && s.issued[op.opId] == op && Issued(s.issued, [op])
    ensures s.server.joined[c] == Membership(s.clients[c].roomId, s.clients[c].clientId)
  {
    assert ClientFits(s, c) && OutgoingFits(s, c);
    assert s.clients[c].outgoing[0].OperationRequest?;
  }

  lemma AppendedRoomFits(s: System, c: Conn, k: string)
    requires Inv(s) && Enabled(s, ServerReads(c)) && s.clients[c].outgoing[0].OperationRequest?
    ensures RoomFits(Next(s, ServerReads(c)), k)
  {
    SenderFacts(s, c);
    assert RoomFits(s, k);
    var op := s.clients[c].outgoing[0].op;
    if k == s.clients[c].roomId && Appends(s, c, op) {
      NewIdStaysDistinct(s.server.rooms[k].log, op);
    }
  }

  lemma NewIdStaysDistinct(log: seq<Operation>, op: Operation)
    requires DistinctIds(log) && !Logged(log, op.opId)
    ensures DistinctIds(log + [op])
  {
  }

  lemma AppendedPeerFits(s: System, c: Conn, k: string, n: string)
    requires Inv(s) && Enabled(s, ServerReads(c)) && s.clients[c].outgoing[0].OperationRequest?
    ensures PeerFits(Next(s, ServerReads(c)), k, n)
  {
    SenderFacts(s, c);
    assert PeerFits(s, k, n);
    if k in s.server.rooms && n in s.server.rooms[k].peers {
      var d := s.server.rooms[k].peers[n];
      OperationContinues(s, c, s.clients[c].outgoing[0].op, d);
      assert Stream(s.server.outboxes[d]) + [] == Stream(s.server.outboxes[d]);
    }
  }

  lemma OperationGrowsLogs(s: System, c: Conn, op: Operation, k: string, id: ElementId)
    requires c in s.clients && k in s.server.rooms
    ensures var now := OperationHandled(s.server, c, s.clients[c].roomId, s.clients[c].clientId, op);
            && k in now.rooms && now.rooms[k].peers == s.server.rooms[k].peers
            && (Logged(s.server.rooms[k].log, id) ==> Logged(now.rooms[k].log, id))
  {
    LoggedMore(s.server.rooms[k].log, [op], id);
  }

  lemma BystanderOfOperationFits(s: System, c: Conn, d: Conn)
    requires Inv(s) && Enabled(s, ServerReads(c)) && s.clients[c].outgoing[0].OperationRequest?
    requires d in s.clients && d != c
    ensures ClientFits(Next(s, ServerReads(c)), d)
  {
    var t, op := Next(s, ServerReads(c)), s.clients[c].outgoing[0].op;
    SenderFacts(s, c);
    assert ClientFits(s, d) && OutgoingFits(s, d);
    OperationContinues(s, c, op, d);
    if d !in s.server.joined { OperationSkipsOutsiders(s, c, op, d); }
    var k := s.clients[d].roomId;
    if k in s.server.rooms {
      forall id | Logged(s.server.rooms[k].log, id) ensures Logged(t.server.rooms[k].log, id) {
        OperationGrowsLogs(s, c, op, k, id);
      }
    }
    var more := if Appends(s, c, op) && d in s.server.joined && s.server.joined[d].roomId == s.clients[c].roomId &&
                   IsActiveSender(s.server.rooms[s.clients[c].roomId], s.server.joined[d].clientId, d)
                then [op] else [];
    OtherClientFits(s, t, d, more);
  }

  lemma SenderFits(s: System, c: Conn)
    requires Inv(s) && Enabled(s, ServerReads(c)) && s.clients[c].outgoing[0].OperationRequest?
    ensures ClientFits(Next(s, ServerReads(c)), c)
  {
    var t := Next(s, ServerReads(c));
    var client, op := s.clients[c], s.clients[c].outgoing[0].op;
    SenderFacts(s, c);
    OperationContinues(s, c, op, c);
    var was, now := s.server.outboxes[c], t.server.outboxes[c];
    assert now[..client.read] == was[..client.read];
    var more := if Appends(s, c, op) then [op] else [];
    assert OutgoingFits(t, c) by { TailOutgoingFits(s, c); }
    forall id ensures Knows(t, c, id) { assert Knows(s, c, id); }
    forall id ensures OwnReaches(t, c, id) { OwnStillReaches(s, c, id); }
  }

  lemma TailOutgoingFits(s: System, c: Conn)
    requires Inv(s) && Enabled(s, ServerReads(c)) && s.clients[c].outgoing[0].OperationRequest?
    ensures OutgoingFits(Next(s, ServerReads(c)), c)
  {
    SenderFacts(s, c);
    var t := Next(s, ServerReads(c));
    assert t.server.joined == s.server.joined;
    forall i | 0 <= i < |t.clients[c].outgoing|
      ensures t.clients[c].outgoing[i] == s.clients[c].outgoing[i + 1]
    {
    }
  }

  lemma OwnStillReaches(s: System, c: Conn, id: ElementId)
    requires Inv(s) && Enabled(s, ServerReads(c)) && s.clients[c].outgoing[0].OperationRequest?
    ensures OwnReaches(Next(s, ServerReads(c)), c, id)
  {
    var t := Next(s, ServerReads(c));
    var client, op := s.clients[c], s.clients[c].outgoing[0].op;
    SenderFacts(s, c);
    assert OwnReaches(s, c, id);
    if Registered(t, c) && id in client.own {
      OperationGrowsLogs(s, c, op, client.roomId, id);
      if id == op.opId {
        LoggedMore(s.server.rooms[client.roomId].log, [op], id);
        assert [op][0].opId == id;
      } else if Sending(client, id) {
        var i :| 0 <= i < |client.outgoing| && client.outgoing[i].OperationRequest? && client.outgoing[i].op.opId == id;
        assert t.clients[c].outgoing[i - 1] == client.outgoing[i];
      }
    }
  }

  // --- a connection closes --------------------------------------------------------------

  lemma CloseContinues(server: Server, c: Conn, d: Conn)
    ensures Continues(server.outboxes, Closed(server, c).outboxes, d, [])
  {
    SameOutbox(server.outboxes, d);
    if c in server.joined && server.joined[c].roomId in server.rooms {
      var peers := server.rooms[server.joined[c].roomId].peers - {server.joined[c].clientId};
      SilentContinues(server.outboxes, server.open, peers, Presence(server.joined[c].roomId, PeerNames(peers)), d);
    }
  }

  lemma CloseSkipsOutsiders(s: System, c: Conn, d: Conn)
    requires Inv(s) && d in s.server.outboxes && d !in s.server.joined
    ensures Closed(s.server, c).outboxes[d] == s.server.outboxes[d]
  {
    if c in s.server.joined && s.server.joined[c].roomId in s.server.rooms {
      var k, n := s.server.joined[c].roomId, s.server.joined[c].clientId;
      NamesOfPeer(s, k, d);
      var peers := s.server.rooms[k].peers - {n};
      assert NamesOf(peers, d) == NamesOf(s.server.rooms[k].peers, d) - {n} == {};
      assert s.server.outboxes[d] + Copies(Presence(k, PeerNames(peers)), 0) == s.server.outboxes[d];
    }
  }

  lemma CloseKeepsInv(s: System, c: Conn)
    requires Inv(s) && Enabled(s, Close(c))
    ensures Inv(Next(s, Close(c)))
  {
    var t := Next(s, Close(c));
    forall k ensures RoomFits(t, k) { assert RoomFits(s, k); }
    forall k, n ensures PeerFits(t, k, n) { ClosedPeerFits(s, c, k, n); }
    forall d ensures ClientFits(t, d) {
      assert ClientFits(s, d);
      if d in t.clients {
        assert OutgoingFits(s, d);
        CloseContinues(s.server, c, d);
        if d !in s.server.joined { CloseSkipsOutsiders(s, c, d); }
        OtherClientFits(s, t, d, []);
      }
    }
  }

  /** What a room that is kept has kept. */
  lemma ClosedRoom(server: Server, c: Conn, k: string, n: string)
    requires k in Closed(server, c).rooms && n in Closed(server, c).rooms[k].peers
    ensures var now := Closed(server, c);
            && k in server.rooms && n in server.rooms[k].peers
            && now.rooms[k].log == server.rooms[k].log
            && now.rooms[k].peers[n] == server.rooms[k].peers[n]
            && now.joined == server.joined && now.open == server.open - {c}
            && now.outboxes.Keys == server.outboxes.Keys
    ensures c in server.joined && server.joined[c] == Membership(k, n) ==> server.rooms[k].peers[n] != c
  {
  }

  lemma ClosedPeerFits(s: System, c: Conn, k: string, n: string)
    requires Inv(s) && Enabled(s, Close(c))
    ensures PeerFits(Next(s, Close(c)), k, n)
  {
    var now := Closed(s.server, c);
    if k in now.rooms && n in now.rooms[k].peers {
      assert PeerFits(s, k, n);
      ClosedRoom(s.server, c, k, n);
      var d := now.rooms[k].peers[n];
      CloseContinues(s.server, c, d);
      assert Stream(s.server.outboxes[d]) + [] == Stream(s.server.outboxes[d]);
    }
  }

  // --- over whole runs ------------------------------------------------------------------

  lemma StepKeepsInv(s: System, e: Event)
    requires Inv(s) && Enabled(s, e)
    ensures Inv(Next(s, e))
  {
    match e
    case Connect(c, roomId, clientId) => ConnectKeepsInv(s, c, roomId, clientId);
    case Edit(c, op) => EditKeepsInv(s, c, op);
    case ServerReads(c) =>
      if s.clients[c].outgoing[0].JoinRequest? { JoinKeepsInv(s, c); } else { OperationKeepsInv(s, c); }
    case ClientReads(c) => ClientReadsKeepsInv(s, c);
    case Close(c) => CloseKeepsInv(s, c);
  }

  lemma {:induction false} RunKeepsInv(states: seq<System>, events: seq<Event>, i: nat)
    requires Run(states, events) && i < |states|
    ensures Inv(states[i])
  {
    if i == 0 {
      forall c ensures ClientFits(states[0], c) {}
    } else {
      RunKeepsInv(states, events, i - 1);
      StepKeepsInv(states[i - 1], events[i - 1]);
    }
  }

  /** For every registered connection, the joined log and the later operations are the room's log. */
  lemma StreamIsTheLog(states: seq<System>, events: seq<Event>, i: nat, k: string, n: string)
    requires Run(states, events) && i < |states|
    requires k in states[i].server.rooms && n in states[i].server.rooms[k].peers
    ensures var s, c := states[i].server, states[i].server.rooms[k].peers[n];
            && c in s.open && c in states[i].clients && c in s.outboxes
            && c in s.joined && s.joined[c] == Membership(k, n)
            && Stream(s.outboxes[c]) == s.rooms[k].log
            && DistinctIds(s.rooms[k].log)
  {
    RunKeepsInv(states, events, i);
    assert PeerFits(states[i], k, n) && RoomFits(states[i], k);
  }

  /** A client with nothing left to send or to read. */
  ghost predicate Drained(s: System, c: Conn) {
    && Registered(s, c) && s.clients[c].outgoing == []
    && c in s.server.outboxes && s.clients[c].read == |s.server.outboxes[c]|
  }

  lemma DrainedHoldsTheLog(s: System, c: Conn, id: ElementId)
    requires Inv(s) && Drained(s, c)
    ensures id in s.clients[c].ops <==> Logged(s.server.rooms[s.clients[c].roomId].log, id)
    ensures id in s.clients[c].ops ==> id in s.issued && s.clients[c].ops[id] == s.issued[id]
  {
    var client := s.clients[c];
    assert ClientFits(s, c) && Knows(s, c, id) && OwnReaches(s, c, id);
    assert PeerFits(s, client.roomId, client.clientId);
    assert s.server.outboxes[c][..client.read] == s.server.outboxes[c];
  }

  lemma DrainedAgree(s: System, c: Conn, d: Conn)
    requires Inv(s) && Drained(s, c) && Drained(s, d) && s.clients[c].roomId == s.clients[d].roomId
    ensures s.clients[c].ops == s.clients[d].ops
  {
    forall id
      ensures id in s.clients[c].ops <==> id in s.clients[d].ops
      ensures id in s.clients[c].ops ==> s.clients[c].ops[id] == s.clients[d].ops[id]
    {
      DrainedHoldsTheLog(s, c, id);
      DrainedHoldsTheLog(s, d, id);
    }
    Settling.SameMap(s.clients[c].ops, s.clients[d].ops);
  }

  /** Clients of one room with nothing left to send or read show the same text. */
  lemma RelayConverges(states: seq<System>, events: seq<Event>, i: nat, c: Conn, d: Conn)
    requires Run(states, events) && i < |states|
    requires Drained(states[i], c) && Drained(states[i], d)
    requires states[i].clients[c].roomId == states[i].clients[d].roomId
    ensures states[i].clients[c].ops == states[i].clients[d].ops
    ensures Text(states[i].clients[c].ops) == Text(states[i].clients[d].ops)
  {
    RunKeepsInv(states, events, i);
    DrainedAgree(states[i], c, d);
  }

  /** No room is kept empty, and only the connection registered for a client extends its log. */
  lemma LogsGrowBySenders(s: System, e: Event, k: string)
    requires Inv(s) && Enabled(s, e) && k in s.server.rooms && k in Next(s, e).server.rooms
    ensures s.server.rooms[k].peers != map[]
    ensures s.server.rooms[k].log <= Next(s, e).server.rooms[k].log
    ensures Next(s, e).server.rooms[k].log != s.server.rooms[k].log ==>
              e.ServerReads? && Registered(s, e.c) && s.clients[e.c].roomId == k &&
              s.clients[e.c].outgoing[0].OperationRequest? &&
              Next(s, e).server.rooms[k].log == s.server.rooms[k].log + [s.clients[e.c].outgoing[0].op]
  {
    assert RoomFits(s, k);
  }

  /** Closing a connection whose name was taken over leaves every room as it is. */
  lemma ClosingReplacedConnection(s: System, c: Conn)
    requires Inv(s) && c in s.clients && !Registered(s, c)
    ensures Next(s, Close(c)).server.rooms == s.server.rooms
  {
    assert ClientFits(s, c) && OutgoingFits(s, c);
    assert RoomFits(s, s.clients[c].roomId);
  }
}
