/** Once nobody types any more, the mesh comes to rest, in every order of delivery. */
module MeshQuiets {
  import opened Ids
  import opened Operations
  import opened Denotation
  import opened Sums
  import opened MeshState
  import opened MeshSystem
  import opened MeshDelivery
  import opened MeshRuns

  ghost function Unsynced(s: Mesh): set<string> {
    set p | p in s.peers && !s.peers[p].syncReady
  }

  /** Who has still to see which operation. */
  ghost function Unseen(s: Mesh): set<(string, ElementId)> {
    set p, id | p in s.peers && id in s.issued && id !in s.peers[p].ops :: (p, id)
  }

  function Weight(m: Msg): nat {
    match m
    case Op(_) => 2
    case Request => 3
    case Snap(_) => 2
  }

  ghost function QueueWeight(queue: seq<Msg>): nat {
    if queue == [] then 0 else QueueWeight(queue[..|queue| - 1]) + Weight(queue[|queue| - 1])
  }

  ghost function QueueLoad(out: Outgoing): string -> nat {
    (q: string) => if q in out then QueueWeight(out[q]) else 0
  }

  ghost function PeerLoad(p: Peer): nat {
    Sum(p.out.Keys, QueueLoad(p.out)) + |p.pendingRemote|
  }

  ghost function Loads(peers: map<string, Peer>): string -> nat {
    (p: string) => if p in peers then PeerLoad(peers[p]) else 0
  }

  /** Messages on their way and buffered operations, weighted. */
  ghost function Load(s: Mesh): nat {
    Sum(s.peers.Keys, Loads(s.peers))
  }

  /** Lexicographically: unsynchronised peers, unseen operations, load. */
  ghost predicate Descends(s: Mesh, t: Mesh) {
    || |Unsynced(t)| < |Unsynced(s)|
    || (|Unsynced(t)| == |Unsynced(s)| && |Unseen(t)| < |Unseen(s)|)
    || (|Unsynced(t)| == |Unsynced(s)| && |Unseen(t)| == |Unseen(s)| && Load(t) < Load(s))
  }

  ghost predicate IsDelivery(e: Event) {
    e.Deliver? || e.Replay?
  }

  lemma SubsetShrinks<T>(a: set<T>, b: set<T>)
    requires a < b
    ensures |a| < |b|
  {
    var rest := b - a;
    assert b == a + rest;
    assert rest != {};
  }

  // --- what gets lighter ----------------------------------------------------------------

  lemma {:induction false} QueuePop(queue: seq<Msg>)
    requires queue != []
    ensures QueueWeight(queue) == Weight(queue[0]) + QueueWeight(queue[1..])
  {
    if |queue| == 1 {
      assert queue[..0] == [] == queue[1..];
    } else {
      var n := |queue| - 1;
      QueuePop(queue[..n]);
      assert queue[1..][..n - 1] == queue[..n][1..];
    }
  }

  lemma OutChange(p: Peer, p': Peer, q: string)
    requires p'.out.Keys == p.out.Keys && q in p.out
    requires forall r :: r in p.out && r != q ==> p'.out[r] == p.out[r]
    ensures PeerLoad(p') + QueueWeight(p.out[q]) + |p.pendingRemote| ==
              PeerLoad(p) + QueueWeight(p'.out[q]) + |p'.pendingRemote|
  {
    SumChange(p.out.Keys, QueueLoad(p.out), QueueLoad(p'.out), q);
  }

  lemma PeerChange(s: Mesh, t: Mesh, q: string)
    requires t.peers.Keys == s.peers.Keys && q in s.peers
    requires forall r :: r in s.peers && r != q ==> t.peers[r] == s.peers[r]
    ensures Load(t) + PeerLoad(s.peers[q]) == Load(s) + PeerLoad(t.peers[q])
  {
    SumChange(s.peers.Keys, Loads(s.peers), Loads(t.peers), q);
  }

  /** Taking the head of a queue lightens the sender by its weight. */
  lemma SentLighter(s: Mesh, p: string, q: string)
    requires HasMail(s, p, q)
    ensures var was := s.peers[p];
            PeerLoad(was.(out := was.out[q := was.out[q][1..]])) + Weight(was.out[q][0]) == PeerLoad(was)
  {
    var was := s.peers[p];
    var now := was.(out := was.out[q := was.out[q][1..]]);
    assert now.out.Keys == was.out.Keys;
    OutChange(was, now, q);
    QueuePop(was.out[q]);
  }

  /** A receiver that learns nothing new takes on less than the message weighed. */
  lemma ReceiverTakesLess(p: Peer, m: Msg, from: string)
    requires m.Snap? ==> p.syncReady
    requires m.Op? && p.syncReady ==> m.op.opId in p.ops
    ensures PeerLoad(OnMessage(p, m, from)) < PeerLoad(p) + Weight(m)
  {
    if m.Request? && p.syncReady && from in p.out {
      var now := OnMessage(p, m, from);
      assert now.out.Keys == p.out.Keys;
      OutChange(p, now, from);
    }
  }

  lemma PeerReplaced(s: Mesh, q: string, now: Peer)
    requires q in s.peers
    ensures Load(s.(peers := s.peers[q := now])) + PeerLoad(s.peers[q]) == Load(s) + PeerLoad(now)
  {
    PeerChange(s, s.(peers := s.peers[q := now]), q);
  }

  /** The head of the queue from `p` to `q` taken out. */
  ghost function Taken(s: Mesh, p: string, q: string): Mesh
    requires HasMail(s, p, q)
  {
    s.(peers := s.peers[p := s.peers[p].(out := s.peers[p].out[q := s.peers[p].out[q][1..]])])
  }

  lemma DeliverIsTakeAndHandle(s: Mesh, p: string, q: string)
    requires HasMail(s, p, q)
    ensures q in Taken(s, p, q).peers && Next(s, Deliver(p, q)) ==
              var mid := Taken(s, p, q);
              mid.(peers := mid.peers[q := OnMessage(mid.peers[q], s.peers[p].out[q][0], p)])
  {
  }

  lemma DeliveryLighter(s: Mesh, p: string, q: string)
    requires HasMail(s, p, q) && p != q
    requires var m, peer := s.peers[p].out[q][0], s.peers[q];
             (m.Snap? ==> peer.syncReady) && (m.Op? && peer.syncReady ==> m.op.opId in peer.ops)
    ensures Load(Next(s, Deliver(p, q))) < Load(s)
  {
    var mid := Taken(s, p, q);
    var m := s.peers[p].out[q][0];
    SentLighter(s, p, q);
    PeerReplaced(s, p, mid.peers[p]);
    ReceiverTakesLess(mid.peers[q], m, p);
    PeerReplaced(mid, q, OnMessage(mid.peers[q], m, p));
    DeliverIsTakeAndHandle(s, p, q);
  }

  lemma ReplayLighter(s: Mesh, q: string)
    requires Enabled(s, Replay(q)) && s.peers[q].pendingRemote[0].op.opId in s.peers[q].ops
    ensures Load(Next(s, Replay(q))) < Load(s)
  {
    PeerChange(s, Next(s, Replay(q)), q);
  }

  // --- every delivery descends ----------------------------------------------------------

  /** One peer learns something: the others stay as they are, and nothing new is issued. */
  lemma LearningDescends(s: Mesh, t: Mesh, q: string, id: ElementId)
    requires t.peers.Keys == s.peers.Keys && t.issued == s.issued && q in s.peers
    requires forall x :: x in s.peers ==>
               Included(s.peers[x].ops, t.peers[x].ops) && t.peers[x].syncReady == s.peers[x].syncReady
    requires id in s.issued && id !in s.peers[q].ops && id in t.peers[q].ops
    ensures Descends(s, t)
  {
    assert Unsynced(t) == Unsynced(s);
    assert (q, id) in Unseen(s) && (q, id) !in Unseen(t);
    forall x | x in Unseen(t) ensures x in Unseen(s) {}
    SubsetShrinks(Unseen(t), Unseen(s));
  }

  lemma SyncingDescends(s: Mesh, t: Mesh, q: string)
    requires t.peers.Keys == s.peers.Keys && q in s.peers
    requires forall x :: x in s.peers && s.peers[x].syncReady ==> t.peers[x].syncReady
    requires !s.peers[q].syncReady && t.peers[q].syncReady
    ensures Descends(s, t)
  {
    assert q in Unsynced(s) && q !in Unsynced(t);
    SubsetShrinks(Unsynced(t), Unsynced(s));
  }

  lemma LighterDescends(s: Mesh, t: Mesh)
    requires t.peers.Keys == s.peers.Keys && t.issued == s.issued
    requires forall x :: x in s.peers ==>
               t.peers[x].ops == s.peers[x].ops && t.peers[x].syncReady == s.peers[x].syncReady
    requires Load(t) < Load(s)
    ensures Descends(s, t)
  {
    assert Unsynced(t) == Unsynced(s);
    assert Unseen(t) == Unseen(s);
  }

  lemma SnapDeliverDescends(s: Mesh, p: string, q: string)
    requires Inv(s) && HasMail(s, p, q) && s.peers[p].out[q][0].Snap? && !s.peers[q].syncReady
    ensures Descends(s, Next(s, Deliver(p, q)))
  {
    DeliverPeers(s, p, q);
    DeliverPeer(s, p, q, q);
    SyncingDescends(s, Next(s, Deliver(p, q)), q);
  }

  lemma NewsDeliverDescends(s: Mesh, p: string, q: string)
    requires Inv(s) && HasMail(s, p, q) && s.peers[p].out[q][0].Op?
    requires s.peers[q].syncReady && s.peers[p].out[q][0].op.opId !in s.peers[q].ops
    ensures Descends(s, Next(s, Deliver(p, q)))
  {
    var t, id := Next(s, Deliver(p, q)), s.peers[p].out[q][0].op.opId;
    DeliverPeer(s, p, q, q);
    DeliveredFits(s, p, q);
    forall x | x in s.peers
      ensures Included(s.peers[x].ops, t.peers[x].ops) && t.peers[x].syncReady == s.peers[x].syncReady
    {
    }
    LearningDescends(s, t, q, id);
  }

  lemma StaleDeliver(s: Mesh, p: string, q: string, x: string)
    requires Inv(s) && HasMail(s, p, q) && x in s.peers
    requires var m, peer := s.peers[p].out[q][0], s.peers[q];
             (m.Snap? ==> peer.syncReady) && (m.Op? && peer.syncReady ==> m.op.opId in peer.ops)
    ensures var t := Next(s, Deliver(p, q));
            x in t.peers && t.peers[x].ops == s.peers[x].ops && t.peers[x].syncReady == s.peers[x].syncReady
  {
    DeliverPeer(s, p, q, x);
  }

  lemma StaleDeliverDescends(s: Mesh, p: string, q: string)
    requires Inv(s) && HasMail(s, p, q)
    requires var m, peer := s.peers[p].out[q][0], s.peers[q];
             (m.Snap? ==> peer.syncReady) && (m.Op? && peer.syncReady ==> m.op.opId in peer.ops)
    ensures Descends(s, Next(s, Deliver(p, q)))
  {
    var t := Next(s, Deliver(p, q));
    DeliverPeer(s, p, q, p);
    DeliveryLighter(s, p, q);
    forall x | x in s.peers
      ensures t.peers[x].ops == s.peers[x].ops && t.peers[x].syncReady == s.peers[x].syncReady
    {
      StaleDeliver(s, p, q, x);
    }
    LighterDescends(s, t);
  }

  lemma DeliverDescends(s: Mesh, p: string, q: string)
    requires Inv(s) && HasMail(s, p, q)
    ensures Descends(s, Next(s, Deliver(p, q)))
  {
    var m := s.peers[p].out[q][0];
    if m.Snap? && !s.peers[q].syncReady {
      SnapDeliverDescends(s, p, q);
    } else if m.Op? && s.peers[q].syncReady && m.op.opId !in s.peers[q].ops {
      NewsDeliverDescends(s, p, q);
    } else {
      StaleDeliverDescends(s, p, q);
    }
  }

  lemma ReplayDescends(s: Mesh, q: string)
    requires Inv(s) && Enabled(s, Replay(q))
    ensures Descends(s, Next(s, Replay(q)))
  {
    var t := Next(s, Replay(q));
    var r := s.peers[q].pendingRemote[0];
    assert BufferFits(s, q, r) && PeerFits(s, r.source);
    if r.op.opId in s.peers[q].ops {
      ReplayLighter(s, q);
      LighterDescends(s, t);
    } else {
      LearningDescends(s, t, q, r.op.opId);
    }
  }

  /** Every delivery and every replay makes the measure smaller, so there is no endless run of them. */
  lemma DeliveryDescends(s: Mesh, e: Event)
    requires Inv(s) && Enabled(s, e) && IsDelivery(e)
    ensures Descends(s, Next(s, e)) && Inv(Next(s, e))
  {
    StepKeepsInv(s, e);
    match e
    case Deliver(p, q) => DeliverDescends(s, p, q);
    case Replay(q) => ReplayDescends(s, q);
  }

  /** A state that is not quiet can deliver or replay something. */
  lemma SomethingToDo(s: Mesh) returns (e: Event)
    requires Inv(s) && !Quiet(s)
    ensures IsDelivery(e) && Enabled(s, e)
  {
    if p, q :| p in s.peers && q in s.peers[p].out && s.peers[p].out[q] != [] {
      assert PeerFits(s, p);
      e := Deliver(p, q);
    } else {
      var p :| p in s.peers && s.peers[p].syncReady && s.peers[p].pendingRemote != [];
      e := Replay(p);
    }
  }

  ghost predicate Deliveries(states: seq<Mesh>, events: seq<Event>) {
    && |states| == |events| + 1
    && forall i :: 0 <= i < |events| ==>
         IsDelivery(events[i]) && Enabled(states[i], events[i]) && states[i + 1] == Next(states[i], events[i])
  }

  lemma DeliverFirst(s: Mesh, e: Event, rest: seq<Mesh>, more: seq<Event>)
    requires IsDelivery(e) && Enabled(s, e) && Deliveries(rest, more) && rest[0] == Next(s, e)
    ensures Deliveries([s] + rest, [e] + more)
  {
    var states, events := [s] + rest, [e] + more;
    forall i | 0 <= i < |events|
      ensures IsDelivery(events[i]) && Enabled(states[i], events[i]) && states[i + 1] == Next(states[i], events[i])
    {
      if i > 0 {
        assert events[i] == more[i - 1] && states[i] == rest[i - 1] && states[i + 1] == rest[i];
      }
    }
  }

  /** Deliveries lead from any reachable state to one where all peers agree. */
  lemma {:induction false} ComesToRest(s: Mesh) returns (states: seq<Mesh>, events: seq<Event>)
    requires Inv(s)
    ensures Deliveries(states, events) && states[0] == s
    ensures Inv(states[|events|]) && Quiet(states[|events|])
    decreases |Unsynced(s)|, |Unseen(s)|, Load(s)
  {
    if Quiet(s) {
      states, events := [s], [];
    } else {
      var e := SomethingToDo(s);
      DeliveryDescends(s, e);
      var rest, more := ComesToRest(Next(s, e));
      DeliverFirst(s, e, rest, more);
      states, events := [s] + rest, [e] + more;
    }
  }

  /** Whatever happened, once nobody types any more the messages still on their way make all agree. */
  lemma InTheEndAllAgree(run: seq<Mesh>, past: seq<Event>) returns (states: seq<Mesh>, events: seq<Event>)
    requires Run(run, past)
    ensures Deliveries(states, events) && states[0] == run[|past|] && Quiet(states[|events|])
    ensures var end := states[|events|].peers;
            forall p, q :: p in end && q in end ==> end[p].syncReady && Text(end[p].ops) == Text(end[q].ops)
  {
    RunKeepsInv(run, past, |past|);
    states, events := ComesToRest(run[|past|]);
    var s := states[|events|];
    forall p, q | p in s.peers && q in s.peers
      ensures s.peers[p].syncReady && Text(s.peers[p].ops) == Text(s.peers[q].ops)
    {
      QuietAgreement(s, p, q);
    }
  }
}
