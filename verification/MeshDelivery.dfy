/** A message is handled: the mesh keeps its invariant. */
module MeshDelivery {
  import opened Ids
  import opened Operations
  import opened MeshState
  import opened MeshSystem

  /** What `q` sends in answer to the message at the head of its queue from `p`. */
  ghost predicate Answers(s: Mesh, p: string, q: string, y: string, m: Msg)
    requires HasMail(s, p, q)
  {
    y in s.peers[q].out &&
    match s.peers[p].out[q][0]
    case Op(op) => s.peers[q].syncReady && op.opId !in s.peers[q].ops && y != p && m == Op(op)
    case Request => s.peers[q].syncReady && y == p && m == Snap(s.peers[q].ops)
    case Snap(ops) => !s.peers[q].syncReady && y in s.peers[q].pendingRequests && m == Snap(ops)
  }

  /** The messages on their way after a delivery: all but the one delivered, and the answers. */
  lemma DeliverFlight(s: Mesh, p: string, q: string, x: string, y: string, m: Msg)
    requires Inv(s) && HasMail(s, p, q)
    ensures var t := Next(s, Deliver(p, q));
            && (InFlight(s, x, y, m) ==> InFlight(t, x, y, m) || (x == p && y == q && m == s.peers[p].out[q][0]))
            && (InFlight(t, x, y, m) ==> InFlight(s, x, y, m) || (x == q && Answers(s, p, q, y, m)))
            && (x == q && Answers(s, p, q, y, m) ==> InFlight(t, x, y, m))
  {
    assert PeerFits(s, p);
    var t := Next(s, Deliver(p, q));
    var queue := s.peers[p].out[q];
    assert queue == [queue[0]] + queue[1..];
    if x == q && y in s.peers[q].out {
      AnswerOut(s, p, q, y);
    }
  }

  lemma AnswerOut(s: Mesh, p: string, q: string, y: string)
    requires HasMail(s, p, q) && p != q && y in s.peers[q].out
    ensures var was, now := s.peers[q].out[y], Next(s, Deliver(p, q)).peers[q];
            y in now.out && (now.out[y] == was || exists m :: Answers(s, p, q, y, m) && now.out[y] == was + [m])
    ensures (exists m :: Answers(s, p, q, y, m)) ==> Next(s, Deliver(p, q)).peers[q].out[y] != s.peers[q].out[y]
  {
    var was, now := s.peers[q].out[y], Next(s, Deliver(p, q)).peers[q];
    match s.peers[p].out[q][0]
    case Op(op) => assert Answers(s, p, q, y, Op(op)) ==> now.out[y] == was + [Op(op)];
    case Request => assert Answers(s, p, q, y, Snap(s.peers[q].ops)) ==> now.out[y] == was + [Snap(s.peers[q].ops)];
    case Snap(ops) => assert Answers(s, p, q, y, Snap(ops)) ==> now.out[y] == was + [Snap(ops)];
  }

  /** A peer after a delivery, but for its queues. */
  lemma DeliverPeer(s: Mesh, p: string, q: string, x: string)
    requires Inv(s) && HasMail(s, p, q) && x in s.peers
    ensures var t := Next(s, Deliver(p, q));
            && p != q && x in t.peers
            && t.peers[x].out.Keys == s.peers[x].out.Keys
            && Included(s.peers[x].ops, t.peers[x].ops)
            && (s.peers[x].syncReady ==> t.peers[x].syncReady)
            && (x != q ==> t.peers[x] == s.peers[x].(out := t.peers[x].out))
            && (x == q ==> t.peers[x] == OnMessage(s.peers[x], s.peers[p].out[q][0], p))
  {
    assert PeerFits(s, p) && PeerFits(s, q);
    OnMessageKeeps(s.peers[q], s.peers[p].out[q][0], p);
  }

  lemma DeliverPeers(s: Mesh, p: string, q: string)
    requires Inv(s) && HasMail(s, p, q)
    ensures var t := Next(s, Deliver(p, q));
            && p != q && t.peers.Keys == s.peers.Keys
            && (forall x :: x in s.peers ==>
                  && t.peers[x].out.Keys == s.peers[x].out.Keys
                  && Included(s.peers[x].ops, t.peers[x].ops)
                  && (s.peers[x].syncReady ==> t.peers[x].syncReady)
                  && (x != q ==> t.peers[x] == s.peers[x].(out := t.peers[x].out)))
  {
    forall x | x in s.peers
      ensures var t := Next(s, Deliver(p, q));
              && x in t.peers
              && t.peers[x].out.Keys == s.peers[x].out.Keys
              && Included(s.peers[x].ops, t.peers[x].ops)
              && (s.peers[x].syncReady ==> t.peers[x].syncReady)
              && (x != q ==> t.peers[x] == s.peers[x].(out := t.peers[x].out))
    {
      DeliverPeer(s, p, q, x);
    }
    DeliverPeer(s, p, q, p);
  }

  lemma DeliveredFits(s: Mesh, p: string, q: string)
    requires Inv(s) && HasMail(s, p, q)
    ensures InFlight(s, p, q, s.peers[p].out[q][0]) && FlightFits(s, p, q, s.peers[p].out[q][0])
    ensures PeerFits(s, p) && PeerFits(s, q)
  {
    assert s.peers[p].out[q][0] in s.peers[p].out[q];
  }

  lemma DeliverPeerFits(s: Mesh, p: string, q: string, x: string)
    requires Inv(s) && HasMail(s, p, q)
    ensures PeerFits(Next(s, Deliver(p, q)), x)
  {
    DeliveredFits(s, p, q);
    assert PeerFits(s, x);
    if x in s.peers { DeliverPeer(s, p, q, x); }
  }

  lemma DeliverFlightFits(s: Mesh, p: string, q: string, x: string, y: string, m: Msg)
    requires Inv(s) && HasMail(s, p, q)
    ensures FlightFits(Next(s, Deliver(p, q)), x, y, m)
  {
    DeliveredFits(s, p, q);
    DeliverFlight(s, p, q, x, y, m);
    assert FlightFits(s, x, y, m) && RequestFits(s, q, y) && PeerFits(s, x);
    if x in s.peers { DeliverPeer(s, p, q, x); }
  }

  lemma DeliverHas(s: Mesh, p: string, q: string, x: string, op: Operation)
    requires Inv(s) && HasMail(s, p, q) && Has(s, x, op)
    ensures Has(Next(s, Deliver(p, q)), x, op)
  {
    DeliverPeer(s, p, q, x);
  }

  lemma DeliverBufferFits(s: Mesh, p: string, q: string, x: string, r: Remote)
    requires Inv(s) && HasMail(s, p, q)
    ensures BufferFits(Next(s, Deliver(p, q)), x, r)
  {
    DeliveredFits(s, p, q);
    assert BufferFits(s, x, r);
    if x in s.peers { DeliverPeer(s, p, q, x); }
    if Has(s, r.source, r.op) { DeliverHas(s, p, q, r.source, r.op); }
  }

  lemma DeliverRequestFits(s: Mesh, p: string, q: string, x: string, y: string)
    requires Inv(s) && HasMail(s, p, q)
    ensures RequestFits(Next(s, Deliver(p, q)), x, y)
  {
    DeliveredFits(s, p, q);
    assert RequestFits(s, x, y);
    if x in s.peers { DeliverPeer(s, p, q, x); }
  }

  /** An operation on its way stays so, or `q` now has it or keeps it. */
  lemma DeliverOp(s: Mesh, p: string, q: string, x: string, y: string, id: ElementId)
    requires Inv(s) && HasMail(s, p, q) && y in s.peers && OpInFlight(s, x, y, id)
    ensures var t := Next(s, Deliver(p, q));
            OpInFlight(t, x, y, id) ||
            (x == p && y == q && (if s.peers[q].syncReady then id in t.peers[q].ops else OpBuffered(t.peers[q], id)))
  {
    var t := Next(s, Deliver(p, q));
    DeliveredFits(s, p, q);
    var op: Operation :| op.opId == id && InFlight(s, x, y, Op(op));
    DeliverFlight(s, p, q, x, y, Op(op));
    if !InFlight(t, x, y, Op(op)) && !s.peers[q].syncReady {
      assert t.peers[q].pendingRemote == s.peers[q].pendingRemote + [Remote(op, p)];
      assert Remote(op, p) in t.peers[q].pendingRemote;
    }
  }

  lemma DeliverBuffered(s: Mesh, p: string, q: string, y: string, id: ElementId)
    requires Inv(s) && HasMail(s, p, q) && y in s.peers && OpBuffered(s.peers[y], id)
    ensures OpBuffered(Next(s, Deliver(p, q)).peers[y], id)
  {
    DeliveredFits(s, p, q);
    var r :| r in s.peers[y].pendingRemote && r.op.opId == id;
    assert r in Next(s, Deliver(p, q)).peers[y].pendingRemote;
  }

  /** What a synchronised peer newly knows it sends on, except to where it came from. */
  lemma DeliverNews(s: Mesh, p: string, q: string, y: string, id: ElementId)
    requires Inv(s) && HasMail(s, p, q) && s.peers[q].syncReady && y in s.peers && y != q
    requires id in Next(s, Deliver(p, q)).peers[q].ops && id !in s.peers[q].ops
    ensures OpInFlight(Next(s, Deliver(p, q)), q, y, id) || (y == p && id in s.peers[p].ops && s.peers[p].syncReady)
  {
    DeliveredFits(s, p, q);
    var op := s.peers[p].out[q][0].op;
    DeliverFlight(s, p, q, q, y, Op(op));
  }

  lemma DeliverSnapFits(s: Mesh, p: string, q: string, x: string, y: string, ops: OpSet, id: ElementId)
    requires Inv(s) && HasMail(s, p, q)
    ensures SnapFits(Next(s, Deliver(p, q)), x, y, ops, id)
  {
    var t := Next(s, Deliver(p, q));
    DeliverPeers(s, p, q);
    DeliveredFits(s, p, q);
    DeliverFlight(s, p, q, x, y, Snap(ops));
    if InFlight(t, x, y, Snap(ops)) && y in t.peers && !t.peers[y].syncReady && id in t.peers[x].ops && id !in ops {
      if InFlight(s, x, y, Snap(ops)) {
        assert SnapFits(s, x, y, ops, id) && FlightFits(s, x, y, Snap(ops)) && PeerFits(s, x);
        if id !in s.peers[x].ops {
          DeliverNews(s, p, q, y, id);
        } else if OpInFlight(s, x, y, id) {
          DeliverOp(s, p, q, x, y, id);
        } else {
          DeliverBuffered(s, p, q, y, id);
        }
      }
    }
  }

  lemma DeliverEdgeSynced(s: Mesh, p: string, q: string, y: string)
    requires Inv(s) && HasMail(s, p, q)
    ensures EdgeSynced(Next(s, Deliver(p, q)), y)
  {
    DeliveredFits(s, p, q);
    assert EdgeSynced(s, y);
    if y in s.peers { DeliverPeer(s, p, q, y); }
    if y in s.provider && s.provider[y] in s.peers { DeliverPeer(s, p, q, s.provider[y]); }
  }

  lemma DeliverEdgeForth(s: Mesh, p: string, q: string, y: string, id: ElementId)
    requires Inv(s) && HasMail(s, p, q) && AdoptedFrom(s, y)
    ensures var t := Next(s, Deliver(p, q));
            y in t.peers && s.provider[y] in t.peers && Reaches(t, s.provider[y], y, t.peers[y].ops, id)
  {
    var t := Next(s, Deliver(p, q));
    var P := s.provider[y];
    DeliverPeers(s, p, q);
    DeliveredFits(s, p, q);
    assert EdgeFits(s, y, id) && EdgeSynced(s, y) && PeerFits(s, y);
    if id in t.peers[P].ops && id !in t.peers[y].ops {
      if id !in s.peers[P].ops {
        DeliverNews(s, p, q, y, id);
      } else if OpInFlight(s, P, y, id) {
        DeliverOp(s, p, q, P, y, id);
      } else {
        DeliverBuffered(s, p, q, y, id);
      }
    }
  }

  lemma DeliverEdgeBack(s: Mesh, p: string, q: string, y: string, id: ElementId)
    requires Inv(s) && HasMail(s, p, q) && AdoptedFrom(s, y)
    ensures var t := Next(s, Deliver(p, q));
            y in t.peers && s.provider[y] in t.peers &&
            (id in t.peers[y].ops ==> id in t.peers[s.provider[y]].ops || OpInFlight(t, y, s.provider[y], id))
  {
    var t := Next(s, Deliver(p, q));
    var P := s.provider[y];
    DeliverPeers(s, p, q);
    DeliveredFits(s, p, q);
    assert EdgeFits(s, y, id) && EdgeSynced(s, y) && PeerFits(s, y);
    if id in t.peers[y].ops && id !in t.peers[P].ops {
      if id !in s.peers[y].ops {
        DeliverNews(s, p, q, P, id);
      } else {
        DeliverOp(s, p, q, y, P, id);
      }
    }
  }

  /** A peer that adopts a snapshot: the snapshot, what follows it and the buffer are all there is. */
  lemma DeliverAdopts(s: Mesh, p: string, q: string, id: ElementId)
    requires Inv(s) && HasMail(s, p, q) && !s.peers[q].syncReady && Next(s, Deliver(p, q)).peers[q].syncReady
    ensures EdgeFits(Next(s, Deliver(p, q)), q, id)
  {
    var t := Next(s, Deliver(p, q));
    DeliverPeers(s, p, q);
    DeliveredFits(s, p, q);
    var ops := s.peers[p].out[q][0].ops;
    assert SnapFits(s, p, q, ops, id);
    if OpInFlight(s, p, q, id) { DeliverOp(s, p, q, p, q, id); }
    if OpBuffered(s.peers[q], id) { DeliverBuffered(s, p, q, q, id); }
  }

  lemma DeliverEdgeFits(s: Mesh, p: string, q: string, y: string, id: ElementId)
    requires Inv(s) && HasMail(s, p, q)
    ensures EdgeFits(Next(s, Deliver(p, q)), y, id)
  {
    DeliverPeers(s, p, q);
    if AdoptedFrom(s, y) {
      DeliverEdgeForth(s, p, q, y, id);
      DeliverEdgeBack(s, p, q, y, id);
    } else if AdoptedFrom(Next(s, Deliver(p, q)), y) {
      DeliverAdopts(s, p, q, id);
    }
  }

  lemma DeliverAwaits(s: Mesh, p: string, q: string, y: string)
    requires Inv(s) && HasMail(s, p, q)
    ensures Awaits(Next(s, Deliver(p, q)), y)
  {
    var t := Next(s, Deliver(p, q));
    DeliverPeers(s, p, q);
    DeliveredFits(s, p, q);
    if y in t.peers && !t.peers[y].syncReady && y in t.provider && t.provider[y] in t.peers {
      var P := s.provider[y];
      assert Awaits(s, y) && PeerFits(s, P) && PeerFits(s, y);
      if InFlight(s, y, P, Request) {
        DeliverFlight(s, p, q, y, P, Request);
        DeliverFlight(s, p, q, P, y, Snap(s.peers[P].ops));
      } else if y in s.peers[P].pendingRequests && !s.peers[P].syncReady {
        if P == q && s.peers[p].out[q][0].Snap? {
          DeliverFlight(s, p, q, P, y, Snap(s.peers[p].out[q][0].ops));
        }
      } else {
        var ops :| InFlight(s, P, y, Snap(ops));
        DeliverFlight(s, p, q, P, y, Snap(ops));
      }
    }
  }

  lemma DeliverKeepsInv(s: Mesh, p: string, q: string)
    requires Inv(s) && Enabled(s, Deliver(p, q))
    ensures Inv(Next(s, Deliver(p, q)))
  {
    var t := Next(s, Deliver(p, q));
    DeliverPeers(s, p, q);
    forall x ensures PeerFits(t, x) && EdgeSynced(t, x) && Awaits(t, x) {
      DeliverPeerFits(s, p, q, x);
      DeliverEdgeSynced(s, p, q, x);
      DeliverAwaits(s, p, q, x);
    }
    forall x, y ensures FounderFits(t, x, y) && RequestFits(t, x, y) {
      assert FounderFits(s, x, y);
      DeliverRequestFits(s, p, q, x, y);
    }
    forall x, y, m ensures FlightFits(t, x, y, m) { DeliverFlightFits(s, p, q, x, y, m); }
    forall x, r ensures BufferFits(t, x, r) { DeliverBufferFits(s, p, q, x, r); }
    forall x, y, ops, id ensures SnapFits(t, x, y, ops, id) { DeliverSnapFits(s, p, q, x, y, ops, id); }
    forall y, id ensures EdgeFits(t, y, id) { DeliverEdgeFits(s, p, q, y, id); }
  }
}
