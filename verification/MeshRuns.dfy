/** The mesh over whole runs: nothing is lost, and when nothing is on its way all agree. */
module MeshRuns {
  import opened Ids
  import opened Operations
  import opened Denotation
  import Settling
  import opened MeshState
  import opened MeshSystem
  import opened MeshDelivery
  import opened MeshSpread
  import opened MeshEntry

  lemma StepKeepsInv(s: Mesh, e: Event)
    requires Inv(s) && Enabled(s, e)
    ensures Inv(Next(s, e))
  {
    match e
    case Found(p) => FoundKeepsInv(s, p);
    case Enter(p, provider) => EnterKeepsInv(s, p, provider);
    case Edit(p, op) => EditKeepsInv(s, p, op);
    case Deliver(p, q) => DeliverKeepsInv(s, p, q);
    case Replay(q) => ReplayKeepsInv(s, q);
  }

  lemma {:induction false} RunKeepsInv(states: seq<Mesh>, events: seq<Event>, i: nat)
    requires Run(states, events) && i < |states|
    ensures Inv(states[i])
  {
    if i > 0 {
      RunKeepsInv(states, events, i - 1);
      StepKeepsInv(states[i - 1], events[i - 1]);
    }
  }

  /**
   * Once a peer has adopted another's snapshot, whatever one of the two has seen, the other has
   * seen, or it is on its way there, or waits in the buffer of the one that adopted.
   */
  lemma NothingIsLost(states: seq<Mesh>, events: seq<Event>, i: nat, q: string, id: ElementId)
    requires Run(states, events) && i < |states| && AdoptedFrom(states[i], q)
    ensures var s := states[i];
            var p := s.provider[q];
            && (id in s.peers[p].ops ==> id in s.peers[q].ops || OpInFlight(s, p, q, id) || OpBuffered(s.peers[q], id))
            && (id in s.peers[q].ops ==> id in s.peers[p].ops || OpInFlight(s, q, p, id))
  {
    RunKeepsInv(states, events, i);
    assert EdgeFits(states[i], q, id);
  }

  /** The step puts `m` into the queue from `x` to `y`. */
  ghost predicate Adds(s: Mesh, t: Mesh, x: string, y: string, m: Msg) {
    && x in s.peers && x in t.peers && y in s.peers[x].out && y in t.peers[x].out
    && t.peers[x].out[y] == s.peers[x].out[y] + [m]
  }

  /** A peer passes an operation on in the one step in which it sees it first. */
  lemma SentWhenFirstSeen(s: Mesh, e: Event, x: string, y: string, op: Operation)
    requires Inv(s) && Enabled(s, e) && Adds(s, Next(s, e), x, y, Op(op))
    ensures op.opId !in s.peers[x].ops && op.opId in Next(s, e).peers[x].ops
  {
    assert PeerFits(s, x);
    assert Next(s, e).peers[x].out[y][|s.peers[x].out[y]|] == Op(op);
    match e
    case Deliver(p, q) =>
      assert PeerFits(s, p);
      DeliverPeer(s, p, q, x);
      if x == q { AnswerOut(s, p, q, y); }
    case Edit(p, o) =>
    case Replay(q) =>
    case _ =>
  }

  lemma StepKeepsOps(s: Mesh, e: Event, x: string)
    requires Inv(s) && Enabled(s, e) && x in s.peers
    ensures x in Next(s, e).peers && Included(s.peers[x].ops, Next(s, e).peers[x].ops)
  {
    match e
    case Deliver(p, q) => DeliverPeer(s, p, q, x);
    case Edit(p, op) => assert PeerFits(s, p);
    case _ =>
  }

  lemma {:induction false} RunKeepsOps(states: seq<Mesh>, events: seq<Event>, i: nat, j: nat, x: string)
    requires Run(states, events) && i <= j < |states| && x in states[i].peers
    ensures x in states[j].peers && Included(states[i].peers[x].ops, states[j].peers[x].ops)
  {
    if i < j {
      RunKeepsOps(states, events, i, j - 1, x);
      RunKeepsInv(states, events, j - 1);
      StepKeepsOps(states[j - 1], events[j - 1], x);
    }
  }

  /** In a whole run, no peer passes an operation on in two different steps, to whomever. */
  lemma SentOnce(states: seq<Mesh>, events: seq<Event>, i: nat, j: nat, x: string, y: string, z: string,
                 a: Operation, b: Operation)
    requires Run(states, events) && i < j < |events|
    requires Adds(states[i], states[i + 1], x, y, Op(a)) && Adds(states[j], states[j + 1], x, z, Op(b))
    ensures a.opId != b.opId
  {
    RunKeepsInv(states, events, i);
    RunKeepsInv(states, events, j);
    SentWhenFirstSeen(states[i], events[i], x, y, a);
    SentWhenFirstSeen(states[j], events[j], x, z, b);
    RunKeepsOps(states, events, i + 1, j, x);
  }

  /** Nothing is on its way and nothing is kept for later. */
  ghost predicate Quiet(s: Mesh) {
    && (forall p, q :: p in s.peers && q in s.peers[p].out ==> s.peers[p].out[q] == [])
    && (forall p :: p in s.peers ==> s.peers[p].syncReady ==> s.peers[p].pendingRemote == [])
  }

  lemma {:induction false} QuietIsSynced(s: Mesh, q: string)
    requires Inv(s) && Quiet(s) && q in s.peers
    ensures s.peers[q].syncReady && s.peers[q].pendingRemote == []
    decreases if q in s.rank then s.rank[q] else 0
  {
    assert PeerFits(s, q);
    if q in s.provider {
      QuietIsSynced(s, s.provider[q]);
      assert Awaits(s, q) && PeerFits(s, s.provider[q]);
    }
  }

  /** A peer agrees with the one it adopted from, and so with the founder. */
  lemma {:induction false} QuietAgrees(s: Mesh, q: string, founder: string)
    requires Inv(s) && Quiet(s) && q in s.peers && founder in s.peers && founder !in s.provider
    ensures s.peers[q].ops == s.peers[founder].ops
    decreases if q in s.rank then s.rank[q] else 0
  {
    assert PeerFits(s, q);
    if q in s.provider {
      var p := s.provider[q];
      assert PeerFits(s, p);
      QuietAgrees(s, p, founder);
      QuietIsSynced(s, q);
      forall id ensures id in s.peers[q].ops <==> id in s.peers[p].ops {
        assert EdgeFits(s, q, id);
      }
      Settling.SameMap(s.peers[q].ops, s.peers[p].ops);
    } else {
      assert FounderFits(s, q, founder);
    }
  }

  lemma {:induction false} FounderOf(s: Mesh, q: string) returns (founder: string)
    requires Inv(s) && q in s.peers
    ensures founder in s.peers && founder !in s.provider
    decreases if q in s.rank then s.rank[q] else 0
  {
    assert PeerFits(s, q);
    if q in s.provider {
      assert PeerFits(s, s.provider[q]);
      founder := FounderOf(s, s.provider[q]);
    } else {
      founder := q;
    }
  }

  /** When nothing is on its way any more, every peer is synchronised and all agree. */
  lemma QuietAgreement(s: Mesh, p: string, q: string)
    requires Inv(s) && Quiet(s) && p in s.peers && q in s.peers
    ensures s.peers[p].syncReady && s.peers[p].ops == s.peers[q].ops
  {
    var founder := FounderOf(s, p);
    QuietIsSynced(s, p);
    QuietAgrees(s, p, founder);
    QuietAgrees(s, q, founder);
  }

  /** At the end of every run in which nothing is on its way any more, all show the same text. */
  lemma MeshConverges(states: seq<Mesh>, events: seq<Event>, i: nat, p: string, q: string)
    requires Run(states, events) && i < |states| && Quiet(states[i])
    requires p in states[i].peers && q in states[i].peers
    ensures states[i].peers[p].syncReady && states[i].peers[q].syncReady
    ensures states[i].peers[p].ops == states[i].peers[q].ops
    ensures Text(states[i].peers[p].ops) == Text(states[i].peers[q].ops)
  {
    RunKeepsInv(states, events, i);
    QuietAgreement(states[i], p, q);
    QuietAgreement(states[i], q, p);
  }
}
