/** The session of one peer of the mesh (sessionManager.ts): what its handlers do to the replica. */
module Sessions {
  import opened Ids
  import opened Wrappers
  import opened Sorting
  import opened Operations
  import opened Denotation
  import opened LocalEdits
  import opened Snapshots
  import opened MeshState
  import opened Batches
  import opened DocumentAdapter
  import opened Issuing
  import opened Splice
  import opened TextCrdts

  datatype DataMessage =
    | OperationMessage(op: Operation)
    | SnapshotRequest
    | SnapshotMessage(snapshot: Snapshot)

  /** For each peer, what was handed to the transport for it and not handled there yet. */
  type Channels = map<string, seq<DataMessage>>

  // --- messages, and what they stand for ------------------------------------------------

  /** A snapshot stands for the operations it describes. */
  ghost predicate Carries(m: DataMessage, v: Msg) {
    match m
    case OperationMessage(op) => v == Op(op)
    case SnapshotRequest => v == Request
    case SnapshotMessage(s) => v.Snap? && Describes(s, v.ops)
  }

  ghost predicate CarriesAll(queue: seq<DataMessage>, v: seq<Msg>) {
    |queue| == |v| && forall i :: 0 <= i < |queue| ==> Carries(queue[i], v[i])
  }

  ghost predicate MatchesAt(out: Channels, v: Outgoing, p: string) {
    (p in out <==> p in v) && (p in out && p in v ==> CarriesAll(out[p], v[p]))
  }

  ghost predicate Matches(out: Channels, v: Outgoing) {
    forall p {:trigger MatchesAt(out, v, p)} :: MatchesAt(out, v, p)
  }

  function Sent(out: Channels, to: string, m: DataMessage): Channels {
    if to in out then out[to := out[to] + [m]] else out
  }

  function Broadcast(out: Channels, m: DataMessage, except: set<string>): Channels {
    map q | q in out :: if q in except then out[q] else out[q] + [m]
  }

  lemma SentMatches(out: Channels, v: Outgoing, to: string, m: DataMessage, w: Msg)
    requires Matches(out, v) && Carries(m, w)
    ensures Matches(Sent(out, to, m), Send(v, to, w))
  {
    forall p ensures MatchesAt(Sent(out, to, m), Send(v, to, w), p) {
      assert MatchesAt(out, v, p) && MatchesAt(out, v, to);
    }
  }

  lemma BroadcastMatches(out: Channels, v: Outgoing, m: DataMessage, w: Msg, except: set<string>)
    requires Matches(out, v) && Carries(m, w)
    ensures Matches(Broadcast(out, m, except), SendAll(v, w, except))
  {
    forall p ensures MatchesAt(Broadcast(out, m, except), SendAll(v, w, except), p) {
      assert MatchesAt(out, v, p);
    }
  }

  /** Those in `to` got one snapshot more, of these operations; nobody else got anything. */
  ghost predicate GotSnapshotAt(was: Channels, now: Channels, to: set<string>, ops: OpSet, q: string) {
    (q in was <==> q in now) &&
    (q in was && q in now ==>
       if q !in to then now[q] == was[q]
       else
         && |now[q]| == |was[q]| + 1 && now[q][..|was[q]|] == was[q]
         && now[q][|was[q]|].SnapshotMessage? && Describes(now[q][|was[q]|].snapshot, ops))
  }

  ghost predicate GotSnapshots(was: Channels, now: Channels, to: set<string>, ops: OpSet) {
    forall q {:trigger GotSnapshotAt(was, now, to, ops, q)} :: GotSnapshotAt(was, now, to, ops, q)
  }

  /** Everybody but those in `except` got these operations, in their order. */
  ghost predicate GotOperationsAt(was: Channels, now: Channels, except: set<string>, s: seq<Operation>, q: string) {
    (q in was <==> q in now) &&
    (q in was && q in now ==>
       if q in except then now[q] == was[q]
       else
         && |now[q]| == |was[q]| + |s| && now[q][..|was[q]|] == was[q]
         && forall i :: 0 <= i < |s| ==> now[q][|was[q]| + i] == OperationMessage(s[i]))
  }

  ghost predicate GotOperations(was: Channels, now: Channels, except: set<string>, s: seq<Operation>) {
    forall q {:trigger GotOperationsAt(was, now, except, s, q)} :: GotOperationsAt(was, now, except, s, q)
  }

  lemma GotOneMore(was: Channels, mid: Channels, to: set<string>, ops: OpSet, p: string, m: DataMessage)
    requires GotSnapshots(was, mid, to, ops) && p !in to && m.SnapshotMessage? && Describes(m.snapshot, ops)
    ensures GotSnapshots(was, Sent(mid, p, m), to + {p}, ops)
  {
    forall q ensures GotSnapshotAt(was, Sent(mid, p, m), to + {p}, ops, q) {
      assert GotSnapshotAt(was, mid, to, ops, q);
    }
  }

  lemma GotOneOperation(was: Channels, mid: Channels, except: set<string>, s: seq<Operation>, op: Operation)
    requires GotOperations(was, mid, except, s)
    ensures GotOperations(was, Broadcast(mid, OperationMessage(op), except), except, s + [op])
  {
    var now := Broadcast(mid, OperationMessage(op), except);
    forall q ensures GotOperationsAt(was, now, except, s + [op], q) {
      assert GotOperationsAt(was, mid, except, s, q);
    }
  }

  lemma GotNothing(was: Channels, to: set<string>, ops: OpSet)
    ensures GotSnapshots(was, was, {}, ops) && GotOperations(was, was, to, [])
  {
    forall q ensures GotSnapshotAt(was, was, {}, ops, q) && GotOperationsAt(was, was, to, [], q) {}
  }

  lemma SendEachToNobody(v: Outgoing, m: Msg)
    ensures SendEach(v, {}, m) == v
  {
  }

  lemma SendEachMore(v: Outgoing, tos: set<string>, to: string, m: Msg)
    requires to !in tos
    ensures SendEach(v, tos + {to}, m) == Send(SendEach(v, tos, m), to, m)
  {
    var a, b := SendEach(v, tos + {to}, m), Send(SendEach(v, tos, m), to, m);
    assert a.Keys == b.Keys;
    assert forall q :: q in a ==> a[q] == b[q];
  }

  // --- several local operations ---------------------------------------------------------

  lemma {:induction false} EditedAllKeeps(p: Peer, s: seq<Operation>)
    ensures EditedAll(p, s) == p.(ops := EditedAll(p, s).ops, out := EditedAll(p, s).out)
  {
    if s != [] { EditedAllKeeps(p, s[..|s| - 1]); }
  }

  /** Operations that nobody has yet, numbered one after the other, are all new. */
  lemma {:induction false} EditedAllReceives(p: Peer, s: seq<Operation>, replicaId: string, counter: u64)
    requires Numbered(s, counter, replicaId) && OwnIdsCounted(p.ops, replicaId, counter)
    ensures EditedAll(p, s).ops == ReceiveAll(p.ops, s)
  {
    if s != [] {
      var n := |s| - 1;
      EditedAllReceives(p, s[..n], replicaId, counter);
      LastIsNew(p.ops, s, replicaId, counter);
    }
  }

  lemma LastIsNew(ops: OpSet, s: seq<Operation>, replicaId: string, counter: u64)
    requires Numbered(s, counter, replicaId) && OwnIdsCounted(ops, replicaId, counter) && s != []
    ensures s[|s| - 1].opId !in ReceiveAll(ops, s[..|s| - 1])
  {
    var n := |s| - 1;
    ReceiveAllIds(ops, s[..n], s[n].opId);
    forall i | 0 <= i < n ensures s[..n][i].opId != s[n].opId {
      assert s[..n][i] == s[i];
    }
  }

  /** A new operation is received and goes to everybody but its source; a known one changes nothing. */
  ghost predicate PassedOn(ops: OpSet, ops': OpSet, was: Channels, now: Channels, op: Operation, source: string) {
    if op.opId in ops then ops' == ops && now == was
    else ops' == ops[op.opId := op] && GotOperations(was, now, {source}, [op])
  }

  /** All the others are known, and the first of them has been asked for a snapshot. */
  ghost predicate FirstAsked(out: Channels, others: seq<string>)
    requires others != []
  {
    forall q {:trigger AskedAt(out, others, q)} :: AskedAt(out, others, q)
  }

  ghost predicate AskedAt(out: Channels, others: seq<string>, q: string)
    requires others != []
  {
    (q in out <==> q in others) && (q in out ==> out[q] == if q == others[0] then [SnapshotRequest] else [])
  }

  // --- how a peer begins ----------------------------------------------------------------

  ghost function NewPeer(): Peer {
    Peer(map[], false, [], {}, map[])
  }

  ghost function Founder(ops: OpSet): Peer {
    Peer(ops, true, [], {}, map[])
  }

  ghost function Entrant(existing: seq<string>): Peer
    requires existing != []
  {
    Peer(map[], false, [], {}, map r | r in existing :: if r == existing[0] then [Request] else [])
  }

  lemma NothingSent(out: Channels)
    requires Matches(out, map[])
    ensures out == map[]
  {
    forall p ensures p !in out { assert MatchesAt(out, map[], p); }
  }

  // --- the session ----------------------------------------------------------------------

  class SessionManager {
    const clientId: string
    const seedText: string
    var crdt: TextCrdt
    var syncReady: bool
    var seedSent: bool
    var documentShadowText: string
    /** Operations kept for the replay after synchronisation, or not replayed yet. */
    var pendingRemoteOperations: seq<Remote>
    var pendingSnapshotRequests: set<string>
    var out: Channels
    /** This peer as the mesh sees it. */
    ghost var view: Peer

    ghost predicate Valid()
      reads this, crdt
    {
      && crdt.Valid() && crdt.replicaId == clientId
      && view.ops == crdt.received && view.syncReady == syncReady
      && view.pendingRemote == pendingRemoteOperations && view.pendingRequests == pendingSnapshotRequests
      && Matches(out, view.out)
    }

    constructor (clientId: string, seedText: string)
      ensures Valid() && fresh(crdt) && this.clientId == clientId && this.seedText == seedText && !seedSent
      ensures view == NewPeer() && crdt.counter == 0
    {
      this.clientId := clientId;
      this.seedText := seedText;
      crdt := new TextCrdt(clientId);
      syncReady := false;
      seedSent := false;
      documentShadowText := seedText;
      pendingRemoteOperations := [];
      pendingSnapshotRequests := {};
      out := map[];
      view := NewPeer();
    }

    /** `handleTransportJoined`: the first peer seeds the document, any other asks for a snapshot. */
    method HandleTransportJoined(existingPeerIds: seq<string>)
      requires Valid() && view == NewPeer() && crdt.counter == 0
      requires !seedSent && |seedText| <= U64_MAX
      modifies this, crdt
      ensures Valid() && crdt == old(crdt)
      ensures existingPeerIds == [] ==>
                && view == Founder(ReceiveAll(map[], RunOps(clientId, 0, Root, seedText)))
                && Text(crdt.received) == seedText
      ensures existingPeerIds != [] ==> view == Entrant(existingPeerIds)
      ensures existingPeerIds == [] ==> crdt.counter == |seedText| && syncReady && out == map[]
      ensures existingPeerIds != [] ==> !syncReady && FirstAsked(out, existingPeerIds)
    {
      if existingPeerIds == [] {
        BecomeFounder();
      } else {
        AskForSnapshot(existingPeerIds);
      }
    }

    /** Seeds the document, and is synchronised. */
    method BecomeFounder()
      requires Valid() && view == NewPeer() && crdt.counter == 0
      requires !seedSent && |seedText| <= U64_MAX
      modifies this, crdt
      ensures Valid() && crdt == old(crdt)
      ensures view == Founder(ReceiveAll(map[], RunOps(clientId, 0, Root, seedText)))
      ensures Text(crdt.received) == seedText && crdt.counter == |seedText| && syncReady && out == map[]
    {
      NothingSent(out);
      SeedCrdtFromDocument();
      syncReady := true;
      view := view.(syncReady := true);
      FlushPendingSnapshotRequests();
      NothingSent(out);
    }

    /** Knows the peers already there, and asks the first of them. */
    method AskForSnapshot(existingPeerIds: seq<string>)
      requires Valid() && view == NewPeer() && existingPeerIds != []
      modifies this`out, this`view
      ensures Valid() && view == Entrant(existingPeerIds) && FirstAsked(out, existingPeerIds)
    {
      out := Sent(map r | r in existingPeerIds :: [], existingPeerIds[0], SnapshotRequest);
      view := Entrant(existingPeerIds);
      forall p ensures MatchesAt(out, view.out, p) && AskedAt(out, existingPeerIds, p) {}
    }

    method SeedCrdtFromDocument()
      requires Valid() && crdt.received == map[] && crdt.counter == 0 && out == map[] && !seedSent
      requires |seedText| <= U64_MAX
      modifies this, crdt
      ensures Valid() && crdt == old(crdt) && seedSent
      ensures view == old(view).(ops := ReceiveAll(map[], RunOps(clientId, 0, Root, seedText)))
      ensures Text(crdt.received) == seedText && out == old(out) && crdt.counter == |seedText|
    {
      seedSent := true;
      if seedText == "" {
        EmptyText();
        return;
      }
      var operations := InsertSeed();
      for i := 0 to |operations|
        invariant out == map[]
        modifies this`out
      {
        BroadcastOperation(operations[i], {});
      }
    }

    /** The seed goes in front of nothing. */
    method InsertSeed() returns (operations: seq<Operation>)
      requires Valid() && crdt.received == map[] && crdt.counter == 0 && 0 < |seedText| <= U64_MAX
      modifies this`view, crdt
      ensures Valid() && operations == RunOps(clientId, 0, Root, seedText)
      ensures view == old(view).(ops := ReceiveAll(map[], operations))
      ensures Text(crdt.received) == seedText && crdt.counter == |seedText|
    {
      EmptyText();
      var r := crdt.Insert(0, seedText);
      operations := r.value;
      view := view.(ops := crdt.received);
    }

    /** `transport.sendOperation` */
    method BroadcastOperation(op: Operation, except: set<string>)
      modifies this`out
      ensures out == Broadcast(old(out), OperationMessage(op), except)
    {
      out := Broadcast(out, OperationMessage(op), except);
    }

    /** The signaling server announced another peer: one not known yet is, with nothing sent to it. */
    method PeerJoined(p: string)
      requires Valid()
      modifies this`out, this`view
      ensures Valid() && view == if p in old(view).out then old(view) else old(view).(out := old(view).out[p := []])
    {
      assert MatchesAt(out, view.out, p);
      if p in out {
        return;
      }
      out := out[p := []];
      view := view.(out := view.out[p := []]);
      forall q ensures MatchesAt(out, view.out, q) {
        assert old(MatchesAt(out, view.out, q));
      }
    }

    method HandleTransportOperation(op: Operation, source: string)
      requires Valid()
      modifies this`pendingRemoteOperations, this`out, this`view, crdt
      ensures Valid() && view == OnOperation(old(view), op, source)
      ensures crdt.counter >= old(crdt.counter)
      ensures !old(syncReady) ==>
                && pendingRemoteOperations == old(pendingRemoteOperations) + [Remote(op, source)]
                && out == old(out) && crdt.received == old(crdt.received)
      ensures old(syncReady) ==>
                && pendingRemoteOperations == old(pendingRemoteOperations)
                && PassedOn(old(crdt.received), crdt.received, old(out), out, op, source)
    {
      if !syncReady {
        pendingRemoteOperations := pendingRemoteOperations + [Remote(op, source)];
        view := view.(pendingRemote := pendingRemoteOperations);
        return;
      }
      Operate(op, source);
    }

    /** Applies an operation, and passes it on if it was not seen before. */
    method Operate(op: Operation, source: string)
      requires Valid()
      modifies this`out, this`view, crdt
      ensures Valid() && view == Operated(old(view), op, source)
      ensures crdt.counter >= old(crdt.counter)
      ensures PassedOn(old(crdt.received), crdt.received, old(out), out, op, source)
    {
      GotNothing(out, {source}, view.ops);
      GotOneOperation(out, out, {source}, [], op);
      assert [] + [op] == [op];
      var alreadySeen := crdt.HasSeen(op);
      var _ := crdt.ApplyOperation(op);
      if !alreadySeen {
        BroadcastMatches(out, view.out, OperationMessage(op), Op(op), {source});
        BroadcastOperation(op, {source});
        view := Operated(view, op, source);
      }
    }

    method HandleSnapshotRequest(from: string)
      requires Valid()
      modifies this`pendingSnapshotRequests, this`out, this`view
      ensures Valid() && view == OnRequest(old(view), from)
      ensures if old(syncReady) then
                pendingSnapshotRequests == old(pendingSnapshotRequests)
                && GotSnapshots(old(out), out, {from}, crdt.received)
              else pendingSnapshotRequests == old(pendingSnapshotRequests) + {from} && out == old(out)
    {
      if !syncReady {
        pendingSnapshotRequests := pendingSnapshotRequests + {from};
        view := view.(pendingRequests := pendingSnapshotRequests);
        return;
      }
      SendSnapshot(from);
      view := OnRequest(view, from);
    }

    /** `transport.sendSnapshot(to, crdt.snapshot())` */
    method SendSnapshot(to: string)
      requires Valid()
      modifies this`out
      ensures Matches(out, Send(view.out, to, Snap(view.ops)))
      ensures exists m: DataMessage ::
                m.SnapshotMessage? && Describes(m.snapshot, crdt.received) && out == Sent(old(out), to, m)
      ensures GotSnapshots(old(out), out, {to}, crdt.received)
    {
      GotNothing(out, {}, crdt.received);
      var s := crdt.TakeSnapshot();
      GotOneMore(out, out, {}, crdt.received, to, SnapshotMessage(s));
      assert {} + {to} == {to};
      SentMatches(out, view.out, to, SnapshotMessage(s), Snap(view.ops));
      out := Sent(out, to, SnapshotMessage(s));
    }

    method FlushPendingSnapshotRequests()
      requires Valid()
      modifies this`pendingSnapshotRequests, this`out, this`view
      ensures Valid()
      ensures view == if syncReady
                      then old(view).(pendingRequests := {},
                                      out := SendEach(old(view).out, old(view).pendingRequests, Snap(old(view).ops)))
                      else old(view)
      ensures if syncReady then GotSnapshots(old(out), out, old(pendingSnapshotRequests), crdt.received)
              else out == old(out)
    {
      if !syncReady {
        return;
      }
      GotNothing(out, {}, crdt.received);
      var clientIds := pendingSnapshotRequests;
      ghost var was := view;
      pendingSnapshotRequests := {};
      view := view.(pendingRequests := {});
      SendEachToNobody(was.out, Snap(was.ops));
      while clientIds != {}
        invariant Valid() && clientIds <= was.pendingRequests
        invariant view == was.(pendingRequests := {},
                               out := SendEach(was.out, was.pendingRequests - clientIds, Snap(was.ops)))
        invariant GotSnapshots(old(out), out, was.pendingRequests - clientIds, was.ops)
        decreases clientIds
      {
        var to :| to in clientIds;
        ghost var mid := out;
        SendSnapshot(to);
        ghost var m: DataMessage :|
          m.SnapshotMessage? && Describes(m.snapshot, crdt.received) && out == Sent(mid, to, m);
        GotOneMore(old(out), mid, was.pendingRequests - clientIds, was.ops, to, m);
        SendEachMore(was.out, was.pendingRequests - clientIds, to, Snap(was.ops));
        assert was.pendingRequests - clientIds + {to} == was.pendingRequests - (clientIds - {to});
        view := view.(out := Send(view.out, to, Snap(view.ops)));
        clientIds := clientIds - {to};
      }
      assert was.pendingRequests - {} == was.pendingRequests;
    }

    /**
     * `handleSnapshot`, up to the replay of the operations kept: a new replica takes the place of
     * the old one, and whoever asked this peer meanwhile is answered.
     */
    method HandleSnapshot(snapshot: Snapshot, ghost ops: OpSet)
      requires Valid() && Describes(snapshot, ops)
      modifies this
      ensures Valid() && view == OnSnapshot(old(view), ops)
      ensures if old(syncReady) then crdt == old(crdt) && crdt.counter == old(crdt.counter) else fresh(crdt)
      ensures !old(syncReady) ==> OwnIdsCounted(ops, clientId, crdt.counter)
      ensures pendingRemoteOperations == old(pendingRemoteOperations) && syncReady
      ensures if old(syncReady) then out == old(out)
              else
                && crdt.received == ops && pendingSnapshotRequests == {}
                && GotSnapshots(old(out), out, old(pendingSnapshotRequests), ops)
    {
      if syncReady {
        return;
      }
      crdt := new TextCrdt.FromSnapshot(snapshot, clientId, ops);
      syncReady := true;
      seedSent := true;
      view := view.(ops := ops, syncReady := true);
      FlushPendingSnapshotRequests();
    }

    /** The other end takes the first message that is on its way to `q`. */
    method HandOver(q: string) returns (m: DataMessage)
      requires Valid() && q in out && out[q] != []
      modifies this`out, this`view
      ensures Valid() && q in old(view).out && old(view).out[q] != []
      ensures m == old(out)[q][0] && Carries(m, old(view).out[q][0])
      ensures view == old(view).(out := old(view).out[q := old(view).out[q][1..]])
    {
      assert MatchesAt(out, view.out, q);
      m := out[q][0];
      out := out[q := out[q][1..]];
      view := view.(out := view.out[q := view.out[q][1..]]);
      forall p ensures MatchesAt(out, view.out, p) {
        assert old(MatchesAt(out, view.out, p));
      }
    }

    /** `handleDataMessage`, for a message that stands for `v`. */
    method HandleDataMessage(peerId: string, m: DataMessage, ghost v: Msg)
      requires Valid() && Carries(m, v)
      modifies this, crdt
      ensures Valid() && view == OnMessage(old(view), v, peerId)
      ensures crdt == old(crdt) || fresh(crdt)
      ensures old(syncReady) ==> crdt == old(crdt) && crdt.counter >= old(crdt.counter)
    {
      match m
      case OperationMessage(op) => HandleTransportOperation(op, peerId);
      case SnapshotRequest => HandleSnapshotRequest(peerId);
      case SnapshotMessage(s) => HandleSnapshot(s, v.ops);
    }

    /** One round of the replay. */
    method ReplayNext()
      requires Valid() && syncReady && pendingRemoteOperations != []
      modifies this`pendingRemoteOperations, this`out, this`view, crdt
      ensures Valid() && view == Replayed(old(view)) && crdt.counter >= old(crdt.counter)
      ensures pendingRemoteOperations == old(pendingRemoteOperations)[1..]
      ensures PassedOn(old(crdt.received), crdt.received, old(out), out,
                       old(pendingRemoteOperations)[0].op, old(pendingRemoteOperations)[0].source)
    {
      var r := pendingRemoteOperations[0];
      pendingRemoteOperations := pendingRemoteOperations[1..];
      view := view.(pendingRemote := pendingRemoteOperations);
      Operate(r.op, r.source);
    }

    // --- local edits ----------------------------------------------------------------------

    /** `renderCrdtToDocument` went through: the document shows the replica's text. */
    method Rendered()
      requires Valid()
      modifies this`documentShadowText
      ensures Valid() && documentShadowText == Text(crdt.received)
    {
      documentShadowText := crdt.ToText();
    }

    /**
     * Takes over an edit of the document, if the document showed the replica's text before and
     * the changes explain what it shows now. Everything issued is sent. A replica whose counter
     * is not behind then has the document's text.
     */
    method HandleLocalDocumentChange(documentText: string, changes: seq<Change>)
      returns (edited: bool, issued: seq<Operation>)
      requires Valid() && OneLineage(crdt.received, clientId, crdt.counter) && crdt.counter + Costs(changes) <= U64_MAX
      modifies this`documentShadowText, this`out, this`view, crdt
      ensures Valid() && OneLineage(crdt.received, clientId, crdt.counter)
      ensures edited <==>
                && syncReady && old(documentShadowText) == Text(old(crdt.received))
                && Amended(old(documentShadowText), Sort(changes, Later)) == Ok(documentText)
      ensures !edited ==>
                && issued == [] && view == old(view) && out == old(out)
                && crdt.received == old(crdt.received) && crdt.counter == old(crdt.counter)
                && documentShadowText == old(documentShadowText)
      ensures edited ==>
                && view == EditedAll(old(view), issued) && documentShadowText == documentText
                && Issues(old(crdt.received), old(crdt.counter), crdt.received, crdt.counter, clientId, issued)
                && |Text(crdt.received)| == |documentText| && GotOperations(old(out), out, {}, issued)
      ensures edited && Dominates(old(crdt.received), old(crdt.counter)) ==> Text(crdt.received) == documentText
    {
      if !syncReady {
        return false, [];
      }
      var crdtText := crdt.ToText();
      if documentShadowText != crdtText {
        return false, [];
      }
      var next := ApplyTextChanges(documentShadowText, changes);
      if next != Ok(documentText) {
        return false, [];
      }
      edited := true;
      issued := TakeOver(changes, documentText);
    }

    /** The replica makes the changes, and everybody is told. */
    method TakeOver(changes: seq<Change>, documentText: string) returns (issued: seq<Operation>)
      requires Valid() && OneLineage(crdt.received, clientId, crdt.counter) && crdt.counter + Costs(changes) <= U64_MAX
      requires Amended(Text(crdt.received), Sort(changes, Later)) == Ok(documentText)
      modifies this`documentShadowText, this`out, this`view, crdt
      ensures Valid() && OneLineage(crdt.received, clientId, crdt.counter)
      ensures view == EditedAll(old(view), issued) && documentShadowText == documentText
      ensures GotOperations(old(out), out, {}, issued)
      ensures Issues(old(crdt.received), old(crdt.counter), crdt.received, crdt.counter, clientId, issued)
      ensures |Text(crdt.received)| == |documentText|
      ensures Dominates(old(crdt.received), old(crdt.counter)) ==> Text(crdt.received) == documentText
    {
      ghost var counter := crdt.counter;
      issued := Translate(changes, documentText);
      documentShadowText := documentText;
      SendOperations(issued, counter);
    }

    /** The replica takes the same changes as the string took. */
    method Translate(changes: seq<Change>, ghost text: string) returns (issued: seq<Operation>)
      requires Valid() && OneLineage(crdt.received, clientId, crdt.counter) && crdt.counter + Costs(changes) <= U64_MAX
      requires Amended(Text(crdt.received), Sort(changes, Later)) == Ok(text)
      modifies crdt
      ensures crdt.Valid() && OneLineage(crdt.received, clientId, crdt.counter)
      ensures Issues(old(crdt.received), old(crdt.counter), crdt.received, crdt.counter, clientId, issued)
      ensures |Text(crdt.received)| == |text|
      ensures Dominates(old(crdt.received), old(crdt.counter)) ==> Text(crdt.received) == text
    {
      forall c | c in changes ensures c.rangeOffset >= 0 {
        SortMembers(changes, c);
        AmendedInside(Text(crdt.received), Sort(changes, Later), c);
      }
      EffectiveSuffices(Text(crdt.received), Sort(changes, Later));
      var r := ChangesToOperations(changes, crdt);
      issued := r.value;
    }

    /** Sends operations that the replica already has. */
    method SendOperations(operations: seq<Operation>, ghost counter: u64)
      requires crdt.Valid() && crdt.replicaId == clientId
      requires view.syncReady == syncReady && view.pendingRemote == pendingRemoteOperations
      requires view.pendingRequests == pendingSnapshotRequests && Matches(out, view.out)
      requires crdt.received == ReceiveAll(view.ops, operations)
      requires OwnIdsCounted(view.ops, clientId, counter) && Numbered(operations, counter, clientId)
      modifies this`out, this`view
      ensures Valid() && view == EditedAll(old(view), operations)
      ensures GotOperations(old(out), out, {}, operations)
    {
      GotNothing(out, {}, view.ops);
      for i := 0 to |operations|
        invariant Matches(out, EditedAll(view, operations[..i]).out)
        invariant GotOperations(old(out), out, {}, operations[..i])
        modifies this`out
      {
        assert operations[..i + 1][..i] == operations[..i];
        var op := operations[i];
        assert operations[..i + 1] == operations[..i] + [op];
        GotOneOperation(old(out), out, {}, operations[..i], op);
        BroadcastMatches(out, EditedAll(view, operations[..i]).out, OperationMessage(op), Op(op), {});
        BroadcastOperation(op, {});
      }
      assert operations[..|operations|] == operations;
      EditedAllKeeps(view, operations);
      EditedAllReceives(view, operations, clientId, counter);
      view := EditedAll(view, operations);
    }
  }

  /** Changes that a string takes start inside it. */
  lemma {:induction false} AmendedInside(text: string, cs: seq<Change>, c: Change)
    requires Amended(text, cs).Ok? && c in cs
    ensures c.rangeOffset >= 0
  {
    var n := |cs| - 1;
    if c != cs[n] {
      assert cs == cs[..n] + [cs[n]];
      AmendedInside(text, cs[..n], c);
    }
  }

  lemma EmptyText()
    ensures Visible(map[]) == [] && Text(map[]) == ""
  {
    VisibleInOrder(map[]);
    assert forall x :: x !in Visible(map[]);
  }
}
