/** A peer sees an operation first, by typing or from its buffer: the mesh keeps its invariant. */
module MeshSpread {
  import opened Ids
  import opened Operations
  import opened MeshState
  import opened MeshSystem

  /** A synchronised peer learns an operation and sends it to everybody but `except`, who have it. */
  ghost predicate CanSpread(s: Mesh, q: string, op: Operation, except: set<string>) {
    && q in s.peers && s.peers[q].syncReady && op.opId !in s.peers[q].ops
    && (op.opId in s.issued ==> s.issued[op.opId] == op)
    && (forall y :: y in except ==> Has(s, y, op) && s.peers[y].syncReady)
  }

  ghost function Spread(s: Mesh, q: string, op: Operation, except: set<string>): Mesh
    requires q in s.peers
  {
    s.(peers := s.peers[q := s.peers[q].(ops := s.peers[q].ops[op.opId := op],
                                         out := SendAll(s.peers[q].out, Op(op), except))],
       issued := s.issued[op.opId := op])
  }

  lemma SpreadFlight(s: Mesh, q: string, op: Operation, except: set<string>, x: string, y: string, m: Msg)
    requires q in s.peers
    ensures InFlight(Spread(s, q, op, except), x, y, m) <==>
              InFlight(s, x, y, m) || (x == q && y in s.peers[q].out && y !in except && m == Op(op))
  {
  }

  /** Where the news goes, or where it is known already. */
  lemma SpreadNews(s: Mesh, q: string, op: Operation, except: set<string>, y: string)
    requires Inv(s) && CanSpread(s, q, op, except) && y in s.peers && y != q
    ensures OpInFlight(Spread(s, q, op, except), q, y, op.opId) || (op.opId in s.peers[y].ops && s.peers[y].syncReady)
  {
    assert PeerFits(s, q);
    SpreadFlight(s, q, op, except, q, y, Op(op));
  }

  lemma SpreadReaches(s: Mesh, q: string, op: Operation, except: set<string>, x: string, y: string,
                      base: OpSet, base': OpSet, id: ElementId)
    requires Inv(s) && CanSpread(s, q, op, except) && x in s.peers && y in s.peers && x != y
    requires Reaches(s, x, y, base, id) && Included(base, base')
    requires op.opId in s.peers[y].ops && s.peers[y].syncReady ==> op.opId in base'
    ensures Reaches(Spread(s, q, op, except), x, y, base', id)
  {
    var t := Spread(s, q, op, except);
    if x == q && id == op.opId { SpreadNews(s, q, op, except, y); }
    assert OpBuffered(s.peers[y], id) ==> OpBuffered(t.peers[y], id);
  }

  lemma SpreadSnapFits(s: Mesh, q: string, op: Operation, except: set<string>, x: string, y: string,
                       ops: OpSet, id: ElementId)
    requires Inv(s) && CanSpread(s, q, op, except)
    ensures SnapFits(Spread(s, q, op, except), x, y, ops, id)
  {
    var t := Spread(s, q, op, except);
    SpreadFlight(s, q, op, except, x, y, Snap(ops));
    assert SnapFits(s, x, y, ops, id) && PeerFits(s, x);
    if InFlight(s, x, y, Snap(ops)) && y in s.peers && !s.peers[y].syncReady {
      SpreadReaches(s, q, op, except, x, y, ops, ops, id);
    }
  }

  lemma SpreadEdgeFits(s: Mesh, q: string, op: Operation, except: set<string>, y: string, id: ElementId)
    requires Inv(s) && CanSpread(s, q, op, except)
    ensures EdgeFits(Spread(s, q, op, except), y, id)
  {
    var t := Spread(s, q, op, except);
    assert EdgeFits(s, y, id) && PeerFits(s, y);
    if AdoptedFrom(s, y) {
      var p := s.provider[y];
      SpreadReaches(s, q, op, except, p, y, s.peers[y].ops, t.peers[y].ops, id);
      if y == q && id == op.opId { SpreadNews(s, q, op, except, p); }
    }
  }

  lemma SpreadAwaits(s: Mesh, q: string, op: Operation, except: set<string>, y: string)
    requires Inv(s) && CanSpread(s, q, op, except)
    ensures Awaits(Spread(s, q, op, except), y)
  {
    assert Awaits(s, y) && PeerFits(s, y);
    if y in s.peers && !s.peers[y].syncReady && y in s.provider {
      var p := s.provider[y];
      SpreadFlight(s, q, op, except, y, p, Request);
      if ops :| InFlight(s, p, y, Snap(ops)) {
        SpreadFlight(s, q, op, except, p, y, Snap(ops));
      }
    }
  }

  lemma SpreadPeerFits(s: Mesh, q: string, op: Operation, except: set<string>, x: string)
    requires Inv(s) && CanSpread(s, q, op, except)
    ensures PeerFits(Spread(s, q, op, except), x)
  {
    assert PeerFits(s, x);
    assert SendAll(s.peers[q].out, Op(op), except).Keys == s.peers[q].out.Keys;
  }

  lemma SpreadFlightFits(s: Mesh, q: string, op: Operation, except: set<string>, x: string, y: string, m: Msg)
    requires Inv(s) && CanSpread(s, q, op, except)
    ensures FlightFits(Spread(s, q, op, except), x, y, m)
  {
    SpreadFlight(s, q, op, except, x, y, m);
    assert FlightFits(s, x, y, m);
  }

  lemma SpreadKeepsInv(s: Mesh, q: string, op: Operation, except: set<string>)
    requires Inv(s) && CanSpread(s, q, op, except)
    ensures Inv(Spread(s, q, op, except))
  {
    var t := Spread(s, q, op, except);
    forall x ensures PeerFits(t, x) && EdgeSynced(t, x) && Awaits(t, x) {
      SpreadPeerFits(s, q, op, except, x);
      assert EdgeSynced(s, x);
      SpreadAwaits(s, q, op, except, x);
    }
    forall x, y ensures FounderFits(t, x, y) && RequestFits(t, x, y) {
      assert FounderFits(s, x, y) && RequestFits(s, x, y);
    }
    forall x, y, m ensures FlightFits(t, x, y, m) { SpreadFlightFits(s, q, op, except, x, y, m); }
    forall x, r ensures BufferFits(t, x, r) { assert BufferFits(s, x, r); }
    forall x, y, ops, id ensures SnapFits(t, x, y, ops, id) { SpreadSnapFits(s, q, op, except, x, y, ops, id); }
    forall y, id ensures EdgeFits(t, y, id) { SpreadEdgeFits(s, q, op, except, y, id); }
  }

  lemma EditKeepsInv(s: Mesh, p: string, op: Operation)
    requires Inv(s) && Enabled(s, Edit(p, op))
    ensures Inv(Next(s, Edit(p, op)))
  {
    assert PeerFits(s, p);
    SpreadKeepsInv(s, p, op, {});
    assert Next(s, Edit(p, op)) == Spread(s, p, op, {});
  }

  // --- replaying the buffer -------------------------------------------------------------

  /** The first buffered operation, known by now, leaves the buffer. */
  ghost function Unbuffered(s: Mesh, q: string): Mesh
    requires q in s.peers && s.peers[q].pendingRemote != []
  {
    s.(peers := s.peers[q := s.peers[q].(pendingRemote := s.peers[q].pendingRemote[1..])])
  }

  lemma UnbufferedReaches(s: Mesh, q: string, x: string, y: string, base: OpSet, id: ElementId)
    requires q in s.peers && s.peers[q].pendingRemote != [] && x in s.peers && y in s.peers
    requires Reaches(s, x, y, base, id)
    requires y == q ==> s.peers[q].pendingRemote[0].op.opId in base
    ensures Reaches(Unbuffered(s, q), x, y, base, id)
  {
    var t := Unbuffered(s, q);
    if OpInFlight(s, x, y, id) {
      var op: Operation :| op.opId == id && InFlight(s, x, y, Op(op));
      assert InFlight(t, x, y, Op(op));
    }
    if OpBuffered(s.peers[y], id) && (y != q || id != s.peers[q].pendingRemote[0].op.opId) {
      var r :| r in s.peers[y].pendingRemote && r.op.opId == id;
      var list := s.peers[q].pendingRemote;
      assert list == [list[0]] + list[1..];
      assert r in t.peers[y].pendingRemote;
    }
  }

  lemma UnbufferedKeepsInv(s: Mesh, q: string)
    requires Inv(s) && Enabled(s, Replay(q)) && s.peers[q].pendingRemote[0].op.opId in s.peers[q].ops
    ensures Inv(Unbuffered(s, q))
  {
    var t := Unbuffered(s, q);
    forall x, y, m ensures InFlight(t, x, y, m) <==> InFlight(s, x, y, m) {}
    forall x, y, m ensures FlightFits(t, x, y, m) { assert FlightFits(s, x, y, m); }
    forall x ensures PeerFits(t, x) && EdgeSynced(t, x) && Awaits(t, x) {
      assert PeerFits(s, x) && EdgeSynced(s, x) && Awaits(s, x);
    }
    forall x, y ensures FounderFits(t, x, y) && RequestFits(t, x, y) {
      assert FounderFits(s, x, y) && RequestFits(s, x, y);
    }
    forall x, r ensures BufferFits(t, x, r) { assert BufferFits(s, x, r); }
    forall x, y, ops, id ensures SnapFits(t, x, y, ops, id) {
      assert SnapFits(s, x, y, ops, id);
      if InFlight(s, x, y, Snap(ops)) && y in s.peers && !s.peers[y].syncReady {
        UnbufferedReaches(s, q, x, y, ops, id);
      }
    }
    forall y, id ensures EdgeFits(t, y, id) { UnbufferedEdgeFits(s, q, y, id); }
  }

  lemma UnbufferedEdgeFits(s: Mesh, q: string, y: string, id: ElementId)
    requires Inv(s) && Enabled(s, Replay(q)) && s.peers[q].pendingRemote[0].op.opId in s.peers[q].ops
    ensures EdgeFits(Unbuffered(s, q), y, id)
  {
    var t := Unbuffered(s, q);
    assert EdgeFits(s, y, id);
    if AdoptedFrom(s, y) {
      var p := s.provider[y];
      UnbufferedReaches(s, q, p, y, s.peers[y].ops, id);
      if OpInFlight(s, y, p, id) {
        var op: Operation :| op.opId == id && InFlight(s, y, p, Op(op));
        assert InFlight(t, y, p, Op(op));
      }
    }
  }

  lemma ReplayKeepsInv(s: Mesh, q: string)
    requires Inv(s) && Enabled(s, Replay(q))
    ensures Inv(Next(s, Replay(q)))
  {
    var r := s.peers[q].pendingRemote[0];
    assert BufferFits(s, q, r) && PeerFits(s, r.source);
    if r.op.opId in s.peers[q].ops {
      UnbufferedKeepsInv(s, q);
      assert Next(s, Replay(q)) == Unbuffered(s, q);
    } else {
      SpreadKeepsInv(s, q, r.op, {r.source});
      var t := Spread(s, q, r.op, {r.source});
      UnbufferedKeepsInv(t, q);
      assert t.issued == s.issued;
      assert Next(s, Replay(q)) == Unbuffered(t, q);
    }
  }
}
