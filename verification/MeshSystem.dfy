/**
 * The P2P mesh as a step system, and what every step keeps: a peer enters, adopts the snapshot of
 * one peer already there, and forwards what it sees first. Channels are reliable and first-in
 * first-out; nobody leaves. The signaling server is one step in which the entering peer and the
 * others learn of each other.
 */
module MeshSystem {
  import opened Ids
  import opened Operations
  import opened MeshState

  /** `provider` names whose snapshot a peer asks for; `rank` counts the peers before it. */
  datatype Mesh = Mesh(peers: map<string, Peer>, issued: OpSet, provider: map<string, string>, rank: map<string, nat>)

  datatype Event =
    | Found(p: string)
    | Enter(p: string, provider: string)
    | Edit(p: string, op: Operation)
    | Deliver(p: string, q: string)
    | Replay(q: string)

  ghost predicate Init(s: Mesh) {
    s == Mesh(map[], map[], map[], map[])
  }

  ghost predicate HasMail(s: Mesh, p: string, q: string) {
    p in s.peers && q in s.peers && q in s.peers[p].out && s.peers[p].out[q] != []
  }

  ghost predicate Enabled(s: Mesh, e: Event) {
    match e
    case Found(p) => s.peers == map[]
    case Enter(p, provider) => p !in s.peers && provider in s.peers
    case Edit(p, op) => p in s.peers && s.peers[p].syncReady && op.opId !in s.issued
    case Deliver(p, q) => HasMail(s, p, q)
    case Replay(q) => q in s.peers && s.peers[q].syncReady && s.peers[q].pendingRemote != []
  }

  /** The entering peer knows everybody and asks its provider; everybody learns of it. */
  ghost function Entered(s: Mesh, p: string, provider: string): map<string, Peer> {
    map q | q in s.peers.Keys + {p} ::
      if q == p
      then Peer(map[], false, [], {}, map r | r in s.peers :: if r == provider then [Request] else [])
      else s.peers[q].(out := s.peers[q].out[p := []])
  }

  ghost function Next(s: Mesh, e: Event): Mesh
    requires Enabled(s, e)
  {
    match e
    case Found(p) =>
      s.(peers := map[p := Peer(map[], true, [], {}, map[])], rank := s.rank[p := 0])
    case Enter(p, provider) =>
      Mesh(Entered(s, p, provider), s.issued, s.provider[p := provider], s.rank[p := |s.peers|])
    case Edit(p, op) =>
      s.(peers := s.peers[p := Edited(s.peers[p], op)], issued := s.issued[op.opId := op])
    case Deliver(p, q) =>
      var m := s.peers[p].out[q][0];
      var sent := s.peers[p := s.peers[p].(out := s.peers[p].out[q := s.peers[p].out[q][1..]])];
      s.(peers := sent[q := OnMessage(sent[q], m, p)])
    case Replay(q) =>
      s.(peers := s.peers[q := Replayed(s.peers[q])])
  }

  ghost predicate Run(states: seq<Mesh>, events: seq<Event>) {
    && |states| == |events| + 1 && Init(states[0])
    && forall i :: 0 <= i < |events| ==> Enabled(states[i], events[i]) && states[i + 1] == Next(states[i], events[i])
  }

  // --- what every step keeps ------------------------------------------------------------

  /** `m` is on its way from `p` to `q`. */
  ghost predicate InFlight(s: Mesh, p: string, q: string, m: Msg) {
    p in s.peers && q in s.peers[p].out && m in s.peers[p].out[q]
  }

  ghost predicate OpInFlight(s: Mesh, p: string, q: string, id: ElementId) {
    exists op: Operation :: op.opId == id && InFlight(s, p, q, Op(op))
  }

  ghost predicate OpBuffered(peer: Peer, id: ElementId) {
    exists r :: r in peer.pendingRemote && r.op.opId == id
  }

  ghost predicate Has(s: Mesh, p: string, op: Operation) {
    p in s.peers && op.opId in s.peers[p].ops && s.peers[p].ops[op.opId] == op
  }

  /** Every peer's operations are issued ones, and its mesh is everybody else. */
  ghost predicate PeerFits(s: Mesh, p: string) {
    p in s.peers ==>
      && Included(s.peers[p].ops, s.issued)
      && s.peers[p].out.Keys == s.peers.Keys - {p}
      && p in s.rank && s.rank[p] < |s.peers| && (p !in s.provider ==> s.peers[p].syncReady)
      && (p in s.provider ==> s.provider[p] in s.peers && s.provider[p] in s.rank && s.rank[s.provider[p]] < s.rank[p])
      && (!s.peers[p].syncReady ==> s.peers[p].ops == map[])
      && (s.peers[p].syncReady ==> s.peers[p].pendingRequests == {})
  }

  /** Only one peer has no provider. */
  ghost predicate FounderFits(s: Mesh, p: string, q: string) {
    p in s.peers && q in s.peers && p !in s.provider && q !in s.provider ==> p == q
  }

  /** What is sent was seen by the sender. */
  ghost predicate FlightFits(s: Mesh, p: string, q: string, m: Msg) {
    InFlight(s, p, q, m) ==>
      match m
      case Op(op) => Has(s, p, op) && s.peers[p].syncReady
      case Request => p in s.provider && s.provider[p] == q
      case Snap(ops) => Included(ops, s.peers[p].ops) && s.peers[p].syncReady && q in s.provider && s.provider[q] == p
  }

  ghost predicate BufferFits(s: Mesh, q: string, r: Remote) {
    q in s.peers && r in s.peers[q].pendingRemote ==> Has(s, r.source, r.op)
  }

  ghost predicate RequestFits(s: Mesh, q: string, p: string) {
    q in s.peers && p in s.peers[q].pendingRequests ==>
      p in s.peers && p in s.provider && s.provider[p] == q
  }

  /** Everything `p` has seen is in `base`, or on its way from `p` to `q`, or in `q`'s buffer. */
  ghost predicate Reaches(s: Mesh, p: string, q: string, base: OpSet, id: ElementId)
    requires p in s.peers && q in s.peers
  {
    id in s.peers[p].ops ==> id in base || OpInFlight(s, p, q, id) || OpBuffered(s.peers[q], id)
  }

  ghost predicate SnapFits(s: Mesh, p: string, q: string, ops: OpSet, id: ElementId) {
    InFlight(s, p, q, Snap(ops)) && q in s.peers && !s.peers[q].syncReady ==> Reaches(s, p, q, ops, id)
  }

  ghost predicate AdoptedFrom(s: Mesh, q: string) {
    q in s.peers && s.peers[q].syncReady && q in s.provider && s.provider[q] in s.peers
  }

  /** A peer that adopted a snapshot and the peer it came from keep telling each other everything. */
  ghost predicate EdgeFits(s: Mesh, q: string, id: ElementId) {
    AdoptedFrom(s, q) ==>
      var p := s.provider[q];
      && Reaches(s, p, q, s.peers[q].ops, id)
      && (id in s.peers[q].ops ==> id in s.peers[p].ops || OpInFlight(s, q, p, id))
  }

  ghost predicate EdgeSynced(s: Mesh, q: string) {
    AdoptedFrom(s, q) ==> s.peers[s.provider[q]].syncReady
  }

  /** A peer that waits for its snapshot has asked, is on the list, or is being answered. */
  ghost predicate Awaits(s: Mesh, q: string) {
    q in s.peers && !s.peers[q].syncReady && q in s.provider && s.provider[q] in s.peers ==>
      var p := s.provider[q];
      InFlight(s, q, p, Request) || (q in s.peers[p].pendingRequests && !s.peers[p].syncReady) ||
      exists ops :: InFlight(s, p, q, Snap(ops))
  }

  ghost predicate Inv(s: Mesh) {
    && Keyed(s.issued) && s.provider.Keys <= s.peers.Keys
    && (forall p {:trigger PeerFits(s, p)} :: PeerFits(s, p))
    && (forall p, q {:trigger FounderFits(s, p, q)} :: FounderFits(s, p, q))
    && (forall p, q, m {:trigger FlightFits(s, p, q, m)} :: FlightFits(s, p, q, m))
    && (forall q, r {:trigger BufferFits(s, q, r)} :: BufferFits(s, q, r))
    && (forall q, p {:trigger RequestFits(s, q, p)} :: RequestFits(s, q, p))
    && (forall p, q, ops, id {:trigger SnapFits(s, p, q, ops, id)} :: SnapFits(s, p, q, ops, id))
    && (forall q, id {:trigger EdgeFits(s, q, id)} :: EdgeFits(s, q, id))
    && (forall q {:trigger EdgeSynced(s, q)} :: EdgeSynced(s, q))
    && (forall q {:trigger Awaits(s, q)} :: Awaits(s, q))
  }
}
