/** The first peer, and others that enter: the mesh keeps its invariant. */
module MeshEntry {
  import opened Ids
  import opened Operations
  import opened MeshState
  import opened MeshSystem

  lemma FoundKeepsInv(s: Mesh, p: string)
    requires Inv(s) && Enabled(s, Found(p))
    ensures Inv(Next(s, Found(p)))
  {
    var t := Next(s, Found(p));
    assert s.provider == map[];
    forall x, y, m ensures !InFlight(t, x, y, m) {}
    forall x ensures PeerFits(t, x) {}
    forall x, y ensures FounderFits(t, x, y) {}
  }

  lemma EnterFlight(s: Mesh, p: string, provider: string, x: string, y: string, m: Msg)
    requires Enabled(s, Enter(p, provider)) && PeerFits(s, x)
    ensures InFlight(Next(s, Enter(p, provider)), x, y, m) <==>
              InFlight(s, x, y, m) || (x == p && y == provider && m == Request)
  {
    if x in s.peers { assert p !in s.peers[x].out; }
  }

  lemma EnterReaches(s: Mesh, p: string, provider: string, x: string, y: string, base: OpSet, id: ElementId)
    requires Inv(s) && Enabled(s, Enter(p, provider)) && x in s.peers && y in s.peers && Reaches(s, x, y, base, id)
    ensures Reaches(Next(s, Enter(p, provider)), x, y, base, id)
  {
    assert PeerFits(s, x);
    if OpInFlight(s, x, y, id) {
      var op: Operation :| op.opId == id && InFlight(s, x, y, Op(op));
      EnterFlight(s, p, provider, x, y, Op(op));
    }
  }

  lemma EnterKeys(s: Mesh, p: string, provider: string)
    requires Enabled(s, Enter(p, provider))
    ensures Entered(s, p, provider).Keys == s.peers.Keys + {p}
    ensures |Entered(s, p, provider)| == |s.peers| + 1
  {
    var peers := Entered(s, p, provider);
    assert peers.Keys == s.peers.Keys + {p};
    assert |peers| == |peers.Keys| && |s.peers| == |s.peers.Keys|;
  }

  lemma EnteredPeer(s: Mesh, p: string, provider: string, x: string)
    requires Enabled(s, Enter(p, provider)) && x in s.peers
    requires s.peers[x].out.Keys == s.peers.Keys - {x}
    ensures x in Entered(s, p, provider) && Entered(s, p, provider)[x] == s.peers[x].(out := s.peers[x].out[p := []])
    ensures Entered(s, p, provider)[x].out.Keys == s.peers.Keys + {p} - {x}
  {
    assert (s.peers[x].out[p := []]).Keys == s.peers[x].out.Keys + {p};
  }

  lemma EnteringPeer(s: Mesh, p: string, provider: string)
    requires Enabled(s, Enter(p, provider))
    ensures p in Entered(s, p, provider)
    ensures var peer := Entered(s, p, provider)[p];
            && peer.ops == map[] && !peer.syncReady && peer.out.Keys == s.peers.Keys + {p} - {p}
  {
    var peer := Entered(s, p, provider)[p];
    forall r ensures r in peer.out <==> r in s.peers.Keys + {p} - {p} {}
  }

  lemma EnterPeerFits(s: Mesh, p: string, provider: string, x: string)
    requires Inv(s) && Enabled(s, Enter(p, provider))
    ensures PeerFits(Next(s, Enter(p, provider)), x)
  {
    assert PeerFits(s, x) && PeerFits(s, provider);
    EnterKeys(s, p, provider);
    if x in s.peers {
      EnteredPeer(s, p, provider, x);
    } else if x == p {
      EnteringPeer(s, p, provider);
    }
  }

  lemma EnterEdgeFits(s: Mesh, p: string, provider: string, y: string, id: ElementId)
    requires Inv(s) && Enabled(s, Enter(p, provider))
    ensures EdgeFits(Next(s, Enter(p, provider)), y, id)
  {
    assert EdgeFits(s, y, id) && PeerFits(s, y);
    if AdoptedFrom(s, y) {
      var P := s.provider[y];
      EnterReaches(s, p, provider, P, y, s.peers[y].ops, id);
      if OpInFlight(s, y, P, id) {
        var op: Operation :| op.opId == id && InFlight(s, y, P, Op(op));
        EnterFlight(s, p, provider, y, P, Op(op));
      }
    }
  }

  lemma EnterAwaits(s: Mesh, p: string, provider: string, y: string)
    requires Inv(s) && Enabled(s, Enter(p, provider))
    ensures Awaits(Next(s, Enter(p, provider)), y)
  {
    assert Awaits(s, y) && PeerFits(s, y) && PeerFits(s, p);
    EnterFlight(s, p, provider, y, provider, Request);
    if y in s.peers && y in s.provider {
      var P := s.provider[y];
      assert PeerFits(s, P);
      EnterFlight(s, p, provider, y, P, Request);
      if ops :| InFlight(s, P, y, Snap(ops)) { EnterFlight(s, p, provider, P, y, Snap(ops)); }
    }
  }

  lemma EnterFlightFits(s: Mesh, p: string, provider: string, x: string, y: string, m: Msg)
    requires Inv(s) && Enabled(s, Enter(p, provider))
    ensures FlightFits(Next(s, Enter(p, provider)), x, y, m)
  {
    assert PeerFits(s, x) && FlightFits(s, x, y, m);
    EnterFlight(s, p, provider, x, y, m);
  }

  lemma EnterSnapFits(s: Mesh, p: string, provider: string, x: string, y: string, ops: OpSet, id: ElementId)
    requires Inv(s) && Enabled(s, Enter(p, provider))
    ensures SnapFits(Next(s, Enter(p, provider)), x, y, ops, id)
  {
    assert PeerFits(s, x) && SnapFits(s, x, y, ops, id);
    EnterFlight(s, p, provider, x, y, Snap(ops));
    if InFlight(s, x, y, Snap(ops)) && y in s.peers && !s.peers[y].syncReady {
      EnterReaches(s, p, provider, x, y, ops, id);
    }
  }

  lemma EnterKeepsInv(s: Mesh, p: string, provider: string)
    requires Inv(s) && Enabled(s, Enter(p, provider))
    ensures Inv(Next(s, Enter(p, provider)))
  {
    var t := Next(s, Enter(p, provider));
    forall x ensures PeerFits(t, x) { EnterPeerFits(s, p, provider, x); }
    forall x ensures EdgeSynced(t, x) {
      assert EdgeSynced(s, x) && PeerFits(s, x);
    }
    forall x ensures Awaits(t, x) { EnterAwaits(s, p, provider, x); }
    forall x, y ensures FounderFits(t, x, y) && RequestFits(t, x, y) {
      assert FounderFits(s, x, y) && RequestFits(s, x, y);
    }
    forall x, y, m ensures FlightFits(t, x, y, m) { EnterFlightFits(s, p, provider, x, y, m); }
    forall x, r ensures BufferFits(t, x, r) { assert BufferFits(s, x, r); }
    forall x, y, ops, id ensures SnapFits(t, x, y, ops, id) { EnterSnapFits(s, p, provider, x, y, ops, id); }
    forall y, id ensures EdgeFits(t, y, id) { EnterEdgeFits(s, p, provider, y, id); }
  }
}
