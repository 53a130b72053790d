/** Relay rooms and the relay server (room.rs, server.rs), each lock-held region one method. */
module Relay {
  import opened Operations
  import opened OperationLogs
  import opened RelayState
  import opened RelayReplies

  /** The outbound channels. */
  class Network {
    var queues: Outboxes
    var open: set<Conn>

    constructor ()
      ensures queues == map[] && open == {}
    {
      queues := map[];
      open := {};
    }

    method Send(c: Conn, message: Message)
      modifies this`queues
      ensures queues == Sent(old(queues), open, c, message)
    {
      if c in queues && c in open {
        queues := queues[c := queues[c] + [message]];
      }
    }
  }

  class Room {
    const roomId: string
    const opLog: OperationLog
    var peers: map<string, Conn>

    ghost predicate Valid()
      reads opLog
    {
      opLog.Valid()
    }

    ghost function View(): RoomView
      reads this, opLog
    {
      RoomView(peers, opLog.operations)
    }

    constructor (roomId: string)
      ensures Valid() && this.roomId == roomId && fresh(opLog)
      ensures View() == RoomView(map[], [])
    {
      this.roomId := roomId;
      opLog := new OperationLog();
      peers := map[];
    }

    method AddPeer(clientId: string, sender: Conn)
      modifies this
      ensures peers == old(peers)[clientId := sender]
    {
      peers := peers[clientId := sender];
    }

    predicate IsActive(clientId: string, sender: Conn)
      reads this
    {
      clientId in peers && peers[clientId] == sender
    }

    /** Removes the peer unless its name has been taken over by another connection. */
    method RemovePeer(clientId: string, sender: Conn) returns (removed: bool)
      modifies this
      ensures removed <==> old(IsActive(clientId, sender))
      ensures peers == if removed then old(peers) - {clientId} else old(peers)
    {
      var same := IsActive(clientId, sender);
      if same {
        peers := peers - {clientId};
        removed := true;
      } else {
        removed := false;
      }
    }

    method AppendOperation(operation: Operation) returns (isNew: bool)
      requires Valid()
      modifies opLog
      ensures Valid()
      ensures isNew <==> !Logged(old(opLog.operations), operation.opId)
      ensures opLog.operations == Appended(old(opLog.operations), operation)
    {
      isNew := opLog.Append(operation);
    }

    /** Sends a message to every registered peer, in an arbitrary order. */
    method BroadcastAll(net: Network, message: Message)
      modifies net`queues
      ensures net.queues == Broadcast(old(net.queues), net.open, peers, message)
    {
      var rest := peers.Keys;
      ghost var done: map<string, Conn> := map[];
      BroadcastToNobody(net.queues, net.open, message);
      while rest != {}
        invariant rest <= peers.Keys
        invariant done == peers - rest
        invariant net.queues == Broadcast(old(net.queues), net.open, done, message)
        decreases rest
      {
        var clientId :| clientId in rest;
        BroadcastOneMore(old(net.queues), net.open, done, clientId, peers[clientId], message);
        net.Send(peers[clientId], message);
        rest := rest - {clientId};
        done := done[clientId := peers[clientId]];
      }
      assert peers - {} == peers;
    }
  }

  class RelayServer {
    const net: Network
    var rooms: map<string, Room>
    var joined: map<Conn, Membership>
    /** What the rooms hold, which room each log belongs to, and the objects of them all. */
    ghost var views: map<string, RoomView>
    ghost var owner: map<OperationLog, string>
    ghost var repr: set<object>

    ghost predicate RoomValid(k: string)
      requires k in rooms
      reads this, repr
    {
      && rooms[k] in repr && rooms[k].opLog in repr
      && rooms[k].roomId == k && rooms[k].Valid()
      && rooms[k].opLog in owner && owner[rooms[k].opLog] == k
      && k in views && views[k] == rooms[k].View()
    }

    ghost predicate Valid()
      reads this, repr
    {
      && net !in repr && this !in repr
      && views.Keys == rooms.Keys
      && (forall k {:trigger RoomValid(k)} :: k in rooms ==> RoomValid(k))
    }

    ghost function View(): Server
      reads this, net
    {
      Server(views, joined, net.queues, net.open)
    }

    constructor ()
      ensures Valid() && fresh(net) && fresh(repr) && View() == Server(map[], map[], map[], {})
    {
      net := new Network();
      rooms := map[];
      joined := map[];
      views := map[];
      owner := map[];
      repr := {};
    }

    /** A new connection: an empty outbox. */
    method Accept(c: Conn)
      requires Valid() && c !in net.queues
      modifies net
      ensures Valid() && View() == Opened(old(View()), c)
    {
      net.queues := net.queues[c := []];
      net.open := net.open + {c};
    }

    /** `handle_join`, together with the assignment to `joined_room` that follows it. */
    method HandleJoin(c: Conn, roomId: string, clientId: string)
      requires Valid()
      modifies this, net, repr
      ensures Valid() && fresh(repr - old(repr))
      ensures View() == JoinHandled(old(View()), c, roomId, clientId)
      ensures ToldOfJoin(old(View()), View(), c, roomId, clientId)
    {
      JoinTells(View(), c, roomId, clientId);
      TakeIn(c, roomId, clientId);
    }

    /** The body of `HandleJoin`. */
    method TakeIn(c: Conn, roomId: string, clientId: string)
      requires Valid()
      modifies this, net, repr
      ensures Valid() && fresh(repr - old(repr))
      ensures View() == JoinHandled(old(View()), c, roomId, clientId)
    {
      var room := EnterRoom(c, roomId, clientId);
      label entered:
      Announce(room, c, clientId);
      joined := joined[c := Membership(roomId, clientId)];
      forall k | k in rooms ensures RoomValid(k) {
        assert old@entered(RoomValid(k));
      }
    }

    /** Creates the room if there is none, and registers the peer. */
    method EnterRoom(c: Conn, roomId: string, clientId: string) returns (room: Room)
      requires Valid()
      modifies this`rooms, this`views, this`owner, this`repr, repr
      ensures Valid() && fresh(repr - old(repr)) && roomId in rooms && room == rooms[roomId]
      ensures room.roomId == roomId && roomId in views && views[roomId] == room.View()
      ensures var was := RoomOrNew(old(View()), roomId);
              views == old(views)[roomId := was.(peers := was.peers[clientId := c])]
    {
      EnsureRoom(roomId);
      room := rooms[roomId];
      assert RoomValid(roomId);
      Register(roomId, clientId, c);
      assert RoomValid(roomId);
    }

    method EnsureRoom(roomId: string)
      requires Valid()
      modifies this`rooms, this`views, this`owner, this`repr
      ensures Valid() && fresh(repr - old(repr)) && old(repr) <= repr && roomId in rooms
      ensures views == old(views)[roomId := RoomOrNew(old(View()), roomId)]
    {
      if roomId !in rooms {
        var room := new Room(roomId);
        rooms := rooms[roomId := room];
        repr := repr + {room, room.opLog};
        views := views[roomId := room.View()];
        owner := owner[room.opLog := roomId];
        forall k | k in rooms && k != roomId ensures RoomValid(k) {
          assert old(RoomValid(k));
        }
        assert RoomValid(roomId);
      }
    }

    method Register(roomId: string, clientId: string, c: Conn)
      requires Valid() && roomId in rooms
      modifies this`views, rooms[roomId]
      ensures Valid() && roomId in old(views)
      ensures views == old(views)[roomId := old(views)[roomId].(peers := old(views)[roomId].peers[clientId := c])]
    {
      assert RoomValid(roomId);
      rooms[roomId].AddPeer(clientId, c);
      views := views[roomId := rooms[roomId].View()];
      forall k | k in rooms && k != roomId ensures RoomValid(k) {
        assert old(RoomValid(k));
      }
    }

    /** The join response first, then everybody's presence. */
    method Announce(room: Room, c: Conn, clientId: string)
      modifies net`queues
      ensures net.queues ==
                Broadcast(Sent(old(net.queues), net.open, c,
                               Joined(room.roomId, clientId, PeerNames(room.peers), room.opLog.operations)),
                          net.open, room.peers, Presence(room.roomId, PeerNames(room.peers)))
    {
      var names := PeerNames(room.peers);
      var opLog := room.opLog.Cloned();
      net.Send(c, Joined(room.roomId, clientId, names, opLog));
      room.BroadcastAll(net, Presence(room.roomId, names));
    }

    /** The operation branch of the message loop. */
    method HandleOperation(c: Conn, roomId: string, clientId: string, op: Operation)
      requires Valid()
      modifies this`views, net`queues, repr
      ensures Valid() && View() == OperationHandled(old(View()), c, roomId, clientId, op)
      ensures OperationTold(old(View()), View(), c, roomId, clientId, op)
    {
      OperationTells(View(), c, roomId, clientId, op);
      if !(c in joined && joined[c] == Membership(roomId, clientId)) {
        net.Send(c, Error(NOT_JOINED));
        return;
      }
      if roomId in rooms {
        assert RoomValid(roomId);
        if !rooms[roomId].IsActive(clientId, c) {
          net.Send(c, Error(STALE));
          return;
        }
        var isNew := AppendIn(roomId, op);
        if isNew {
          rooms[roomId].BroadcastAll(net, Broadcasted(roomId, clientId, op));
        }
      }
    }

    method AppendIn(roomId: string, op: Operation) returns (isNew: bool)
      requires Valid() && roomId in rooms
      modifies this`views, rooms[roomId].opLog
      ensures Valid() && roomId in old(views)
      ensures rooms[roomId].peers == old(views)[roomId].peers
      ensures isNew <==> !Logged(old(views)[roomId].log, op.opId)
      ensures views == old(views)[roomId := old(views)[roomId].(log := Appended(old(views)[roomId].log, op))]
    {
      assert RoomValid(roomId);
      isNew := rooms[roomId].AppendOperation(op);
      views := views[roomId := rooms[roomId].View()];
      forall k | k in rooms && k != roomId ensures RoomValid(k) {
        assert old(RoomValid(k));
      }
    }

    /** What happens after the message loop of a connection ended. */
    method HandleClose(c: Conn)
      requires Valid()
      modifies this`rooms, this`views, net, repr
      ensures Valid() && View() == Closed(old(View()), c)
      ensures ToldOfClosing(old(View()), View(), c)
    {
      ClosingTells(View(), c);
      if c in joined && joined[c].roomId in rooms {
        var Membership(roomId, clientId) := joined[c];
        var room := rooms[roomId];
        assert RoomValid(roomId);
        var removed := LeaveRoom(c, roomId, clientId);
        if removed {
          room.BroadcastAll(net, Presence(roomId, PeerNames(room.peers)));
        }
      }
      net.open := net.open - {c};
    }

    /** Unregisters the peer if it is still this connection, and drops the room if it is empty. */
    method LeaveRoom(c: Conn, roomId: string, clientId: string) returns (removed: bool)
      requires Valid() && roomId in rooms
      modifies this`rooms, this`views, rooms[roomId]
      ensures Valid() && roomId in old(views)
      ensures removed <==> IsActiveSender(old(views)[roomId], clientId, c)
      ensures var was := old(views)[roomId];
              var left := if removed then was.(peers := was.peers - {clientId}) else was;
              && old(rooms[roomId]).peers == left.peers
              && views == if left.peers == map[] then old(views) - {roomId} else old(views)[roomId := left]
    {
      assert RoomValid(roomId);
      var room := rooms[roomId];
      removed := room.RemovePeer(clientId, c);
      if room.peers == map[] {
        rooms := rooms - {roomId};
        views := views - {roomId};
      } else {
        views := views[roomId := room.View()];
      }
      forall k | k in rooms && k != roomId ensures RoomValid(k) {
        assert old(RoomValid(k));
      }
    }
  }
}
