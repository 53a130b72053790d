/**
 * The mesh with the counters of its replicas: every peer issues under its own name and counts, so
 * no identifier is issued twice and every local edit finds its preconditions met.
 */
module MeshLineage {
  import opened Ids
  import opened Operations
  import opened LocalEdits
  import opened Issuing
  import opened MeshSystem
  import opened MeshRuns

  datatype Counted = Counted(mesh: Mesh, counters: map<string, u64>)

  /** A counter never falls, unless the peer takes over a snapshot. */
  ghost predicate CounterMoves(s: Counted, t: Counted, x: string) {
    x in s.mesh.peers && x in s.counters && x in t.counters && s.mesh.peers[x].syncReady ==>
      s.counters[x] <= t.counters[x]
  }

  /** A local operation carries the next own identifier and refers to what its peer has. */
  ghost predicate OwnNext(s: Counted, p: string, op: Operation, t: Counted) {
    && p in s.mesh.peers && p in s.counters && p in t.counters && s.counters[p] < U64_MAX
    && op.opId == ElementId(s.counters[p] + 1, p) && t.counters[p] == s.counters[p] + 1
    && forall x :: RefersTo(op, x) ==> x in s.mesh.peers[p].ops
  }

  /** The guard of an edit is the peer's own: nothing is said about what others have issued. */
  ghost predicate Possible(s: Counted, e: Event) {
    match e
    case Edit(p, op) => p in s.mesh.peers && s.mesh.peers[p].syncReady
    case _ => Enabled(s.mesh, e)
  }

  ghost predicate Step(s: Counted, e: Event, t: Counted) {
    && Possible(s, e) && (Enabled(s.mesh, e) ==> t.mesh == Next(s.mesh, e))
    && t.counters.Keys == t.mesh.peers.Keys
    && (forall x {:trigger CounterMoves(s, t, x)} :: CounterMoves(s, t, x))
    && (e.Edit? ==> OwnNext(s, e.p, e.op, t))
  }

  ghost predicate Init(s: Counted) {
    MeshSystem.Init(s.mesh) && s.counters == map[]
  }

  ghost predicate Run(states: seq<Counted>, events: seq<Event>) {
    && |states| == |events| + 1 && Init(states[0])
    && forall i :: 0 <= i < |events| ==> Step(states[i], events[i], states[i + 1])
  }

  // --- what every step keeps ------------------------------------------------------------

  /** Only synchronised peers have issued, each no more than it has counted. */
  ghost predicate Authored(s: Counted, id: ElementId) {
    id in s.mesh.issued ==>
      && id.replicaId in s.mesh.peers && s.mesh.peers[id.replicaId].syncReady
      && id.replicaId in s.counters && id.counter <= s.counters[id.replicaId]
  }

  ghost predicate RefersToIssued(issued: OpSet, id: ElementId, x: ElementId) {
    id in issued && RefersTo(issued[id], x) ==> x in issued
  }

  ghost predicate Inv(s: Counted) {
    && MeshSystem.Inv(s.mesh) && s.counters.Keys == s.mesh.peers.Keys
    && (forall id {:trigger Authored(s, id)} :: Authored(s, id))
    && (forall id, x {:trigger RefersToIssued(s.mesh.issued, id, x)} :: RefersToIssued(s.mesh.issued, id, x))
  }

  /** The next own identifier is new to the whole mesh. */
  lemma OwnNextIsNew(s: Counted, p: string, op: Operation, t: Counted)
    requires Inv(s) && OwnNext(s, p, op, t)
    ensures op.opId !in s.mesh.issued
  {
    assert Authored(s, op.opId);
  }

  lemma StepIsEnabled(s: Counted, e: Event, t: Counted)
    requires Inv(s) && Step(s, e, t)
    ensures Enabled(s.mesh, e) && t.mesh == Next(s.mesh, e) && MeshSystem.Inv(t.mesh)
  {
    if e.Edit? { OwnNextIsNew(s, e.p, e.op, t); }
    StepKeepsInv(s.mesh, e);
  }

  lemma SyncKept(s: Counted, e: Event, x: string)
    requires MeshSystem.Inv(s.mesh) && Enabled(s.mesh, e) && x in s.mesh.peers && s.mesh.peers[x].syncReady
    ensures x in Next(s.mesh, e).peers && Next(s.mesh, e).peers[x].syncReady
  {
    match e
    case Deliver(p, q) => MeshDelivery.DeliverPeer(s.mesh, p, q, x);
    case _ =>
  }

  lemma StepAuthored(s: Counted, e: Event, t: Counted, id: ElementId)
    requires Inv(s) && Step(s, e, t)
    ensures Authored(t, id)
  {
    StepIsEnabled(s, e, t);
    assert Authored(s, id) && CounterMoves(s, t, id.replicaId);
    if id in s.mesh.issued { SyncKept(s, e, id.replicaId); }
    if e.Edit? { SyncKept(s, e, e.p); }
  }

  lemma StepKeepsCounted(s: Counted, e: Event, t: Counted)
    requires Inv(s) && Step(s, e, t)
    ensures Inv(t)
  {
    StepIsEnabled(s, e, t);
    forall id ensures Authored(t, id) { StepAuthored(s, e, t, id); }
    forall id, x ensures RefersToIssued(t.mesh.issued, id, x) {
      assert RefersToIssued(s.mesh.issued, id, x);
      if e.Edit? { assert PeerFits(s.mesh, e.p); }
    }
  }

  lemma {:induction false} RunKeepsCounted(states: seq<Counted>, events: seq<Event>, i: nat)
    requires Run(states, events) && i < |states|
    ensures Inv(states[i])
  {
    if i > 0 {
      RunKeepsCounted(states, events, i - 1);
      StepKeepsCounted(states[i - 1], events[i - 1], states[i]);
    }
  }

  // --- what it means for local edits ----------------------------------------------------

  /** None of the operations has an identifier that was issued, and no two have the same. */
  ghost predicate AllNew(s: Mesh, ops: seq<Operation>) {
    && (forall i :: 0 <= i < |ops| ==> ops[i].opId !in s.issued)
    && (forall i, j :: 0 <= i < j < |ops| ==> ops[i].opId != ops[j].opId)
  }

  lemma CountedIsNew(s: Counted, p: string, ops: seq<Operation>)
    requires Inv(s) && p in s.counters && Numbered(ops, s.counters[p], p)
    ensures AllNew(s.mesh, ops)
  {
    forall i | 0 <= i < |ops| ensures ops[i].opId !in s.mesh.issued { assert Authored(s, ops[i].opId); }
  }

  lemma CountedLineage(s: Counted, p: string)
    requires Inv(s) && p in s.mesh.peers
    ensures OneLineage(s.mesh.peers[p].ops, p, s.counters[p])
  {
    var ops := s.mesh.peers[p].ops;
    assert PeerFits(s.mesh, p);
    forall id | id in ops && id.replicaId == p ensures id.counter <= s.counters[p] { assert Authored(s, id); }
    forall id, x | id in ops && RefersTo(ops[id], x) && x.replicaId == p ensures x.counter <= s.counters[p] {
      assert RefersTo(s.mesh.issued[id], x);
      assert RefersToIssued(s.mesh.issued, id, x) && Authored(s, x);
    }
  }

  /** In every run: what local edits require of a replica holds, and what they issue is new. */
  lemma LocalEditsArePossible(states: seq<Counted>, events: seq<Event>, i: nat, p: string, ops: seq<Operation>)
    requires Run(states, events) && i < |states| && p in states[i].mesh.peers
    ensures p in states[i].counters
    ensures OneLineage(states[i].mesh.peers[p].ops, p, states[i].counters[p])
    ensures Numbered(ops, states[i].counters[p], p) ==> AllNew(states[i].mesh, ops)
  {
    RunKeepsCounted(states, events, i);
    CountedLineage(states[i], p);
    if Numbered(ops, states[i].counters[p], p) { CountedIsNew(states[i], p, ops); }
  }

  /** A run with counters is a run of the mesh, whose guards it meets. */
  lemma CountedRun(states: seq<Counted>, events: seq<Event>)
    requires Run(states, events)
    ensures MeshSystem.Run(seq(|states|, i requires 0 <= i < |states| => states[i].mesh), events)
  {
    forall i | 0 <= i < |events|
      ensures Enabled(states[i].mesh, events[i]) && states[i + 1].mesh == Next(states[i].mesh, events[i])
    {
      RunKeepsCounted(states, events, i);
      assert Step(states[i], events[i], states[i + 1]);
      StepIsEnabled(states[i], events[i], states[i + 1]);
    }
  }
}
