/**
 * One peer of the P2P mesh and what its handlers do (sessionManager.ts, p2pMeshTransport.ts).
 * `out` holds, for each peer of the mesh, the messages sent to it that it has not handled yet.
 */
module MeshState {
  import opened Operations

  datatype Msg =
    | Op(op: Operation)
    | Request
    | Snap(ops: OpSet)

  /** A remote operation kept until the first synchronisation. */
  datatype Remote = Remote(op: Operation, source: string)

  type Outgoing = map<string, seq<Msg>>

  datatype Peer = Peer(
    ops: OpSet,
    syncReady: bool,
    pendingRemote: seq<Remote>,
    pendingRequests: set<string>,
    out: Outgoing)

  /** `sendDataMessage`: nothing is sent to a peer that is not in the mesh. */
  ghost function Send(out: Outgoing, to: string, m: Msg): Outgoing {
    if to in out then out[to := out[to] + [m]] else out
  }

  /** `broadcastDataMessage` */
  ghost function SendAll(out: Outgoing, m: Msg, except: set<string>): Outgoing {
    map q | q in out :: if q in except then out[q] else out[q] + [m]
  }

  /** `handleTransportOperation` once synchronised: an operation seen first is passed on. */
  ghost function Operated(p: Peer, op: Operation, source: string): Peer {
    if op.opId in p.ops then p
    else p.(ops := p.ops[op.opId := op], out := SendAll(p.out, Op(op), {source}))
  }

  ghost function OnOperation(p: Peer, op: Operation, source: string): Peer {
    if !p.syncReady then p.(pendingRemote := p.pendingRemote + [Remote(op, source)])
    else Operated(p, op, source)
  }

  ghost function OnRequest(p: Peer, from: string): Peer {
    if !p.syncReady then p.(pendingRequests := p.pendingRequests + {from})
    else p.(out := Send(p.out, from, Snap(p.ops)))
  }

  /** `flushPendingSnapshotRequests` */
  ghost function SendEach(out: Outgoing, tos: set<string>, m: Msg): Outgoing {
    map q | q in out :: if q in tos then out[q] + [m] else out[q]
  }

  ghost function OnSnapshot(p: Peer, ops: OpSet): Peer {
    if p.syncReady then p
    else p.(ops := ops, syncReady := true, pendingRequests := {},
            out := SendEach(p.out, p.pendingRequests, Snap(ops)))
  }

  ghost function OnMessage(p: Peer, m: Msg, from: string): Peer {
    match m
    case Op(op) => OnOperation(p, op, from)
    case Request => OnRequest(p, from)
    case Snap(ops) => OnSnapshot(p, ops)
  }

  /** One round of the loop that replays the operations kept before synchronisation. */
  ghost function Replayed(p: Peer): Peer
    requires p.syncReady && p.pendingRemote != []
  {
    Operated(p.(pendingRemote := p.pendingRemote[1..]), p.pendingRemote[0].op, p.pendingRemote[0].source)
  }

  /** A local operation, applied and sent to everybody. */
  ghost function Edited(p: Peer, op: Operation): Peer {
    p.(ops := p.ops[op.opId := op], out := SendAll(p.out, Op(op), {}))
  }

  ghost function EditedAll(p: Peer, ops: seq<Operation>): Peer {
    if ops == [] then p else Edited(EditedAll(p, ops[..|ops| - 1]), ops[|ops| - 1])
  }

  /** No handler forgets an operation, a mesh peer or the synchronisation. */
  lemma OnMessageKeeps(p: Peer, m: Msg, from: string)
    requires p.syncReady || p.ops == map[]
    ensures var now := OnMessage(p, m, from);
            now.out.Keys == p.out.Keys && Included(p.ops, now.ops) && (p.syncReady ==> now.syncReady)
  {
    match m
    case Op(op) => assert SendAll(p.out, m, {from}).Keys == p.out.Keys;
    case Request =>
    case Snap(ops) => assert SendEach(p.out, p.pendingRequests, m).Keys == p.out.Keys;
  }
}
