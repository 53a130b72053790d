/** What a session does to its peer is a step, or several, of the mesh. */
module SessionSteps {
  import opened Ids
  import opened Operations
  import opened Batches
  import opened LocalEdits
  import opened MeshState
  import opened MeshSystem
  import MeshDelivery
  import opened MeshLineage
  import opened DocumentAdapter
  import opened Issuing
  import opened Sessions

  /** The object is peer `c.clientId` of the mesh. */
  ghost predicate Plays(c: SessionManager, s: Counted)
    reads c, c.crdt
  {
    && c.Valid() && c.clientId in s.mesh.peers && s.mesh.peers[c.clientId] == c.view
    && c.clientId in s.counters && s.counters[c.clientId] == c.crdt.counter
  }

  /** The mesh takes the step, and the counters stay as they are but for one. */
  ghost function Stepped(s: Counted, e: Event, p: string, counter: u64): Counted
    requires Enabled(s.mesh, e)
  {
    Counted(Next(s.mesh, e), s.counters[p := counter])
  }

  /** Handling the message at the head of a queue is its delivery. */
  method Deliver(c: SessionManager, p: string, m: DataMessage, ghost s: Counted) returns (ghost t: Counted)
    requires MeshLineage.Inv(s) && Plays(c, s) && p != c.clientId && HasMail(s.mesh, p, c.clientId)
    requires Carries(m, s.mesh.peers[p].out[c.clientId][0])
    modifies c, c.crdt
    ensures MeshLineage.Step(s, Event.Deliver(p, c.clientId), t) && Plays(c, t)
  {
    ghost var e := Event.Deliver(p, c.clientId);
    c.HandleDataMessage(p, m, s.mesh.peers[p].out[c.clientId][0]);
    t := Stepped(s, e, c.clientId, c.crdt.counter);
    MeshDelivery.DeliverPeers(s.mesh, p, c.clientId);
    forall x ensures CounterMoves(s, t, x) {}
  }

  /** For the sender, a delivery is the message leaving the head of its queue; the receiver gets it. */
  method HandOver(c: SessionManager, q: string, ghost s: Counted, ghost t: Counted) returns (m: DataMessage)
    requires MeshLineage.Inv(s) && Plays(c, s) && HasMail(s.mesh, c.clientId, q)
    requires MeshLineage.Step(s, Event.Deliver(c.clientId, q), t)
    requires c.clientId in t.counters && t.counters[c.clientId] == s.counters[c.clientId]
    modifies c
    ensures Plays(c, t) && Carries(m, s.mesh.peers[c.clientId].out[q][0])
  {
    assert PeerFits(s.mesh, c.clientId);
    assert MatchesAt(c.out, c.view.out, q);
    m := c.HandOver(q);
  }

  /** The peers an event is about; entering is about everybody. */
  ghost predicate Concerns(e: Event, x: string) {
    match e
    case Deliver(p, q) => x == p || x == q
    case Replay(q) => x == q
    case Edit(p, _) => x == p
    case _ => true
  }

  /** For everybody else a step is none. */
  lemma OthersUnmoved(c: SessionManager, s: Counted, e: Event, t: Counted)
    requires MeshLineage.Inv(s) && Plays(c, s) && MeshLineage.Step(s, e, t) && !Concerns(e, c.clientId)
    requires c.clientId in t.counters && t.counters[c.clientId] == s.counters[c.clientId]
    ensures Plays(c, t)
  {
    StepIsEnabled(s, e, t);
  }

  method Replay(c: SessionManager, ghost s: Counted) returns (ghost t: Counted)
    requires MeshLineage.Inv(s) && Plays(c, s) && c.syncReady && c.pendingRemoteOperations != []
    modifies c, c.crdt
    ensures MeshLineage.Step(s, Event.Replay(c.clientId), t) && Plays(c, t)
  {
    c.ReplayNext();
    t := Stepped(s, Event.Replay(c.clientId), c.clientId, c.crdt.counter);
    forall x ensures CounterMoves(s, t, x) {}
  }

  /** A peer that finds others there enters as the mesh has it enter. */
  method Enter(c: SessionManager, existing: seq<string>, ghost s: Counted) returns (ghost t: Counted)
    requires MeshLineage.Inv(s)
    requires c.Valid() && c.view == NewPeer() && c.crdt.counter == 0 && !c.seedSent && |c.seedText| <= U64_MAX
    requires c.clientId !in s.mesh.peers && existing != [] && forall r :: r in existing <==> r in s.mesh.peers
    modifies c, c.crdt
    ensures MeshLineage.Step(s, Event.Enter(c.clientId, existing[0]), t) && Plays(c, t)
  {
    assert existing[0] in s.mesh.peers;
    ghost var e := Event.Enter(c.clientId, existing[0]);
    t := Stepped(s, e, c.clientId, c.crdt.counter);
    assert Entrant(existing).out == t.mesh.peers[c.clientId].out;
    c.HandleTransportJoined(existing);
    t := Stepped(s, e, c.clientId, c.crdt.counter);
    forall x ensures CounterMoves(s, t, x) {}
  }

  /** Everybody else learns of a peer that enters. */
  method LearnOf(c: SessionManager, p: string, provider: string, ghost s: Counted, ghost t: Counted)
    requires MeshLineage.Inv(s) && Plays(c, s) && p !in s.mesh.peers && provider in s.mesh.peers
    requires t == Stepped(s, Event.Enter(p, provider), p, 0)
    modifies c
    ensures MeshLineage.Step(s, Event.Enter(p, provider), t) && Plays(c, t)
  {
    assert PeerFits(s.mesh, c.clientId);
    c.PeerJoined(p);
    forall x ensures CounterMoves(s, t, x) {}
  }

  // --- local edits ----------------------------------------------------------------------

  /** `states` are what issuing `ops` one by one at peer `p` leads through. */
  ghost predicate Edits(states: seq<Counted>, p: string, ops: seq<Operation>) {
    && |states| == |ops| + 1
    && forall i :: 0 <= i < |ops| ==> MeshLineage.Step(states[i], Edit(p, ops[i]), states[i + 1])
  }

  ghost function AfterEdits(s: Counted, p: string, ops: seq<Operation>): Counted
    requires p in s.mesh.peers && p in s.counters && s.counters[p] + |ops| <= U64_MAX
  {
    Counted(s.mesh.(peers := s.mesh.peers[p := EditedAll(s.mesh.peers[p], ops)],
                    issued := ReceiveAll(s.mesh.issued, ops)),
            s.counters[p := s.counters[p] + |ops|])
  }

  /** Operations that a peer may issue one after the other. */
  ghost predicate Own(s: Counted, p: string, ops: seq<Operation>) {
    && p in s.mesh.peers && s.mesh.peers[p].syncReady
    && p in s.counters && s.counters[p] + |ops| <= U64_MAX
    && Numbered(ops, s.counters[p], p) && RefersBack(s.mesh.peers[p].ops, ops)
  }

  lemma EditStep(s: Counted, p: string, ops: seq<Operation>, n: nat)
    requires MeshLineage.Inv(s) && Own(s, p, ops) && n < |ops|
    ensures MeshLineage.Step(AfterEdits(s, p, ops[..n]), Edit(p, ops[n]), AfterEdits(s, p, ops[..n + 1]))
  {
    var t, u := AfterEdits(s, p, ops[..n]), AfterEdits(s, p, ops[..n + 1]);
    EditNext(s, p, ops, n);
    EditOwn(s, p, ops, n);
    forall x ensures CounterMoves(t, u, x) {}
  }

  lemma EditNext(s: Counted, p: string, ops: seq<Operation>, n: nat)
    requires MeshLineage.Inv(s) && Own(s, p, ops) && n < |ops|
    ensures var t := AfterEdits(s, p, ops[..n]).mesh;
            Enabled(t, Edit(p, ops[n])) && Next(t, Edit(p, ops[n])) == AfterEdits(s, p, ops[..n + 1]).mesh
  {
    assert ops[..n + 1][..n] == ops[..n];
    CountedIsNew(s, p, ops);
    EditedAllKeeps(s.mesh.peers[p], ops[..n]);
    ReceiveAllIds(s.mesh.issued, ops[..n], ops[n].opId);
  }

  lemma EditOwn(s: Counted, p: string, ops: seq<Operation>, n: nat)
    requires MeshLineage.Inv(s) && Own(s, p, ops) && n < |ops|
    ensures OwnNext(AfterEdits(s, p, ops[..n]), p, ops[n], AfterEdits(s, p, ops[..n + 1]))
  {
    CountedLineage(s, p);
    EditedAllReceives(s.mesh.peers[p], ops[..n], p, s.counters[p]);
  }

  /** They can be issued one by one, with the same outcome for the peer. */
  lemma EditsAreSteps(s: Counted, p: string, ops: seq<Operation>) returns (states: seq<Counted>)
    requires MeshLineage.Inv(s) && Own(s, p, ops)
    ensures Edits(states, p, ops) && states[0] == s && states[|ops|] == AfterEdits(s, p, ops)
  {
    states := seq(|ops| + 1, i requires 0 <= i <= |ops| => AfterEdits(s, p, ops[..i]));
    forall i | 0 <= i < |ops| ensures MeshLineage.Step(states[i], Edit(p, ops[i]), states[i + 1]) {
      EditStep(s, p, ops, i);
    }
    assert ops[..0] == [] && ops[..|ops|] == ops;
    assert s.mesh.peers[p := s.mesh.peers[p]] == s.mesh.peers && s.counters[p := s.counters[p]] == s.counters;
  }

  lemma IssuedIsOwn(s: Counted, p: string, now: OpSet, counter: u64, ops: seq<Operation>)
    requires p in s.mesh.peers && s.mesh.peers[p].syncReady && p in s.counters
    requires Issues(s.mesh.peers[p].ops, s.counters[p], now, counter, p, ops)
    ensures Own(s, p, ops) && AfterEdits(s, p, ops).counters[p] == counter
    ensures AfterEdits(s, p, ops).mesh.peers[p] == EditedAll(s.mesh.peers[p], ops)
  {
  }

  /** An edit of the document is a run of the peer's edit steps, in every reachable state of the mesh. */
  method ChangeDocument(c: SessionManager, documentText: string, changes: seq<Change>, ghost s: Counted)
    returns (edited: bool, issued: seq<Operation>, ghost states: seq<Counted>)
    requires MeshLineage.Inv(s) && Plays(c, s) && c.crdt.counter + Costs(changes) <= U64_MAX
    modifies c, c.crdt
    ensures Edits(states, c.clientId, issued) && states[0] == s && Plays(c, states[|issued|])
    ensures edited ==> c.documentShadowText == documentText
  {
    CountedLineage(s, c.clientId);
    edited, issued := c.HandleLocalDocumentChange(documentText, changes);
    if edited {
      IssuedIsOwn(s, c.clientId, c.crdt.received, c.crdt.counter, issued);
      states := EditsAreSteps(s, c.clientId, issued);
    } else {
      states := [s];
    }
  }

  /** A founder seeds the document: it founds the mesh and then issues the seed. */
  method Found(c: SessionManager, ghost s: Counted)
    returns (ghost founded: Counted, ghost seed: seq<Operation>, ghost states: seq<Counted>)
    requires MeshLineage.Inv(s) && s.mesh.peers == map[]
    requires c.Valid() && c.view == NewPeer() && c.crdt.counter == 0 && !c.seedSent && |c.seedText| <= U64_MAX
    modifies c, c.crdt
    ensures MeshLineage.Step(s, Event.Found(c.clientId), founded)
    ensures Edits(states, c.clientId, seed) && states[0] == founded && Plays(c, states[|seed|])
  {
    founded := Stepped(s, Event.Found(c.clientId), c.clientId, 0);
    forall x ensures CounterMoves(s, founded, x) {}
    StepKeepsCounted(s, Event.Found(c.clientId), founded);
    seed := RunOps(c.clientId, 0, Root, c.seedText);
    CountedLineage(founded, c.clientId);
    RunRefersBack(map[], c.clientId, 0, Root, c.seedText);
    FounderIsEdited(seed, c.clientId);
    states := EditsAreSteps(founded, c.clientId, seed);
    c.HandleTransportJoined([]);
  }

  /** A founder that seeded the document is one that then issued the seed. */
  lemma {:induction false} FounderIsEdited(seed: seq<Operation>, clientId: string)
    requires Numbered(seed, 0, clientId)
    ensures Founder(ReceiveAll(map[], seed)) == EditedAll(Founder(map[]), seed)
  {
    if seed != [] {
      FounderIsEdited(seed[..|seed| - 1], clientId);
    }
    EditedAllReceives(Founder(map[]), seed, clientId, 0);
  }
}
