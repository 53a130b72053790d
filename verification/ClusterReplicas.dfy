/** The methods of the replica class carry out the steps of the cluster. */
module ClusterReplicas {
  import opened Ids
  import opened Operations
  import opened Tree
  import opened Denotation
  import opened Settling
  import opened TextCrdts
  import opened Cluster

  /** The object is replica `c.replicaId` of the system. */
  ghost predicate Plays(c: TextCrdt, s: System)
    reads c
  {
    && c.Valid() && c.replicaId in s.replicas
    && s.replicas[c.replicaId].ops == c.received && s.replicas[c.replicaId].counter == c.counter
  }

  method Start(r: string, ghost s: System) returns (c: TextCrdt, ghost s': System)
    ensures fresh(c) && c.replicaId == r && Plays(c, s')
    ensures Step(s, Event.Start(r), s')
  {
    c := new TextCrdt(r);
    s' := s.(replicas := s.replicas[r := Replica(map[], 0, {})]);
  }

  method Join(r: string, from: TextCrdt, ghost s: System) returns (c: TextCrdt, ghost s': System)
    requires Plays(from, s)
    ensures fresh(c) && c.replicaId == r && Plays(c, s')
    ensures Step(s, Event.Join(r, from.replicaId), s')
  {
    var snapshot := from.TakeSnapshot();
    c := new TextCrdt.FromSnapshot(snapshot, r, from.received);
    s' := s.(replicas := s.replicas[r := Replica(c.received, c.counter, c.received.Keys)]);
  }

  /** The counter of a replica covers what has taken effect: `apply_insert_inner` and its sibling raise it. */
  lemma ReplicaCounts(c: TextCrdt, was: Replica, now: Replica)
    requires c.Valid() && now.ops == c.received && now.counter == c.counter && now.adopted == was.adopted
    requires Counts(was, c.replicaId) && was.counter <= now.counter && was.adopted <= was.ops.Keys
    ensures Counts(now, c.replicaId)
  {
    StateIsDenotation(c);
    forall id | id in now.ops && id.replicaId == c.replicaId && Noted(now, id) ensures id.counter <= now.counter {
      assert Noted(was, id) || InEffect(now.ops, id);
      assert Counted(c.counter, c.replicaId, c.received, c.pendingInserts, c.pendingDeletes, id);
    }
  }

  method Deliver(c: TextCrdt, op: Operation, ghost s: System) returns (ghost s': System)
    requires Inv(s) && Plays(c, s) && op.opId in s.issued && s.issued[op.opId] == op
    modifies c
    ensures Plays(c, s') && Step(s, Event.Deliver(c.replicaId, op.opId), s')
  {
    ghost var was := s.replicas[c.replicaId];
    var _ := c.ApplyOperation(op);
    ghost var now := Replica(c.received, c.counter, was.adopted);
    assert ReplicaFits(s, c.replicaId);
    ReplicaCounts(c, was, now);
    s' := s.(replicas := s.replicas[c.replicaId := now]);
  }

  lemma PresentIsLive(ops: OpSet, elements: Elements, pi: OpSet, pd: OpSet, k: ParentId)
    requires Partial(ops, elements, pi, pd) && HasParent(elements, k)
    ensures LiveAnchor(ParentsOf(ops), k)
  {
    if k.Element? { assert Fits(ops, elements, k.id); }
  }

  /** One character of a local insertion. */
  method InsertCharacter(c: TextCrdt, parentId: ParentId, value: char, ghost s: System)
    returns (op: Operation, ghost s': System)
    requires Inv(s) && Plays(c, s) && Ahead(s, c.replicaId) && c.counter < U64_MAX && HasParent(c.elements, parentId)
    modifies c
    ensures Plays(c, s') && Step(s, Issue(c.replicaId, op), s')
    ensures op.Insert? && op.parentId == parentId && op.value == value
  {
    OwnLineage(s, c.replicaId);
    PresentIsLive(c.received, c.elements, c.pendingInserts, c.pendingDeletes, parentId);
    op := c.InsertOne(parentId, value);
    s' := System(s.replicas[c.replicaId := Issued(s.replicas[c.replicaId], op)], Receive(s.issued, op));
  }

  /** One character of a local deletion. */
  method DeleteCharacter(c: TextCrdt, targetId: ElementId, ghost s: System)
    returns (op: Operation, ghost s': System)
    requires Inv(s) && Plays(c, s) && Ahead(s, c.replicaId) && c.counter < U64_MAX && targetId in c.elements
    modifies c
    ensures Plays(c, s') && Step(s, Issue(c.replicaId, op), s')
    ensures op.Delete? && op.targetId == targetId
  {
    OwnLineage(s, c.replicaId);
    PresentIsLive(c.received, c.elements, c.pendingInserts, c.pendingDeletes, Element(targetId));
    op := c.DeleteOne(targetId);
    s' := System(s.replicas[c.replicaId := Issued(s.replicas[c.replicaId], op)], Receive(s.issued, op));
  }
}
