/**
 * Replicas that edit and exchange operations in any interleaving: operations may be delivered late,
 * out of order and repeatedly. A replica may start empty or from another's snapshot, under a new
 * name or under one that was used before; then it takes the place of the one that had it. Each
 * iteration of a local edit is one step. The steps are those of the replica class.
 */
module Cluster {
  import opened Ids
  import opened Operations
  import opened Tree
  import opened Denotation
  import opened Settling
  import opened LocalEdits
  import opened EditEffects

  /** `adopted` holds the identifiers in the snapshot that the replica started from. */
  datatype Replica = Replica(ops: OpSet, counter: u64, adopted: set<ElementId>)

  /** `issued` holds every operation any replica has issued. */
  datatype System = System(replicas: map<string, Replica>, issued: OpSet)

  datatype Event =
    | Start(r: string)
    | Join(r: string, from: string)
    | Issue(r: string, op: Operation)
    | Deliver(r: string, id: ElementId)

  /** A local operation names something in the issuer's own document. */
  ghost predicate RefersToLive(ops: OpSet, op: Operation) {
    match op
    case Insert(_, parentId, _) => LiveAnchor(ParentsOf(ops), parentId)
    case Delete(_, targetId) => IsLive(ops, targetId)
  }

  /** The operation was received and is not buffered. */
  ghost predicate InEffect(ops: OpSet, id: ElementId) {
    id in ops && IsLive(ops, if ops[id].Insert? then id else ops[id].targetId)
  }

  ghost predicate Noted(rep: Replica, id: ElementId) {
    id in rep.adopted || InEffect(rep.ops, id)
  }

  /**
   * Whatever was issued under the name, by this replica or by one before it, was in the snapshot
   * or has taken effect.
   */
  ghost predicate CaughtUp(s: System, r: string) {
    r in s.replicas && forall id {:trigger Noted(s.replicas[r], id)} ::
      id in s.issued && id.replicaId == r ==> Noted(s.replicas[r], id)
  }

  /** The counter covers whatever was issued under the name: later identifiers are all new. */
  ghost predicate Ahead(s: System, r: string) {
    r in s.replicas && OwnIdsCounted(s.issued, r, s.replicas[r].counter)
  }

  /** The counter covers what was adopted and what has taken effect, but not what is queued. */
  ghost predicate Counts(rep: Replica, r: string) {
    forall id {:trigger Noted(rep, id)} ::
      id in rep.ops && id.replicaId == r && Noted(rep, id) ==> id.counter <= rep.counter
  }

  ghost predicate Step(s: System, e: Event, s': System) {
    match e
    case Start(r) =>
      s' == s.(replicas := s.replicas[r := Replica(map[], 0, {})])
    case Join(r, from) =>
      && from in s.replicas && r in s'.replicas
      && var ops := s.replicas[from].ops;
         && OwnIdsCounted(ops, r, s'.replicas[r].counter)
         && s' == s.(replicas := s.replicas[r := Replica(ops, s'.replicas[r].counter, ops.Keys)])
    case Issue(r, op) =>
      && Ahead(s, r) && s.replicas[r].counter < U64_MAX
      && op.opId == ElementId(s.replicas[r].counter + 1, r)
      && RefersToLive(s.replicas[r].ops, op)
      && s' == System(s.replicas[r := Issued(s.replicas[r], op)], Receive(s.issued, op))
    case Deliver(r, id) =>
      && r in s.replicas && id in s.issued && r in s'.replicas
      && Delivered(s.replicas[r], s.issued[id], s'.replicas[r], r)
      && s' == s.(replicas := s.replicas[r := s'.replicas[r]])
  }

  ghost function Issued(was: Replica, op: Operation): Replica
    requires was.counter < U64_MAX
  {
    Replica(Receive(was.ops, op), was.counter + 1, was.adopted)
  }

  /** The counter moves to an own operation if it moves at all. */
  ghost predicate Delivered(was: Replica, op: Operation, now: Replica, r: string) {
    && now.ops == Receive(was.ops, op) && now.adopted == was.adopted
    && now.counter >= was.counter && Counts(now, r)
    && (now.counter > was.counter ==> ElementId(now.counter, r) in now.ops)
  }

  ghost predicate Init(s: System) {
    s == System(map[], map[])
  }

  // --- what every step keeps ------------------------------------------------------------

  /** Everything issued takes effect once everything is received. */
  ghost predicate Grounded(ops: OpSet) {
    forall id {:trigger GroundedAt(ops, id)} :: GroundedAt(ops, id)
  }

  ghost predicate GroundedAt(ops: OpSet, id: ElementId) {
    id in ops ==> InEffect(ops, id)
  }

  ghost predicate ReplicaFits(s: System, r: string)
    requires r in s.replicas
  {
    && Included(s.replicas[r].ops, s.issued)
    && s.replicas[r].adopted <= s.replicas[r].ops.Keys && Counts(s.replicas[r], r)
  }

  ghost predicate Inv(s: System) {
    && Keyed(s.issued) && Grounded(s.issued)
    && (forall r {:trigger ReplicaFits(s, r)} :: r in s.replicas ==> ReplicaFits(s, r))
  }

  lemma GroundedMore(ops: OpSet, op: Operation)
    requires Grounded(ops) && op.opId !in ops && RefersToLive(ops, op)
    ensures Grounded(ops[op.opId := op])
  {
    var ops' := ops[op.opId := op];
    forall id ensures GroundedAt(ops', id) {
      assert GroundedAt(ops, id);
      if id == op.opId {
        NewIsLive(ops, op);
      } else if id in ops {
        LiveStable(ops, ops', if ops[id].Insert? then id else ops[id].targetId);
      }
    }
  }

  lemma NewIsLive(ops: OpSet, op: Operation)
    requires op.opId !in ops && RefersToLive(ops, op)
    ensures IsLive(ops[op.opId := op], if op.Insert? then op.opId else op.targetId)
  {
    var ops' := ops[op.opId := op];
    match op
    case Insert(_, parentId, _) =>
      if parentId.Element? { LiveStable(ops, ops', parentId.id); }
      ChildPath(ParentsOf(ops'), op.opId);
    case Delete(_, targetId) => LiveStable(ops, ops', targetId);
  }

  lemma RefersToLiveStable(ops: OpSet, later: OpSet, op: Operation)
    requires Included(ops, later) && RefersToLive(ops, op)
    ensures RefersToLive(later, op)
  {
    match op
    case Insert(_, parentId, _) => if parentId.Element? { LiveStable(ops, later, parentId.id); }
    case Delete(_, targetId) => LiveStable(ops, later, targetId);
  }

  lemma RefIsReceived(ops: OpSet, id: ElementId, x: ElementId)
    requires Grounded(ops) && id in ops && RefersTo(ops[id], x)
    ensures x in ops
  {
    assert GroundedAt(ops, id);
    if ops[id].Insert? { LivePath(ParentsOf(ops), id); }
    LivePath(ParentsOf(ops), x);
  }

  /** A replica that is ahead has the name to itself: nothing issued refers beyond its counter. */
  lemma AheadLineage(s: System, r: string)
    requires Inv(s) && Ahead(s, r)
    ensures OneLineage(s.issued, r, s.replicas[r].counter)
  {
    forall id, x | id in s.issued && RefersTo(s.issued[id], x) && x.replicaId == r
      ensures x.counter <= s.replicas[r].counter
    {
      RefIsReceived(s.issued, id, x);
    }
  }

  /** Being ahead is exactly what keeps all later identifiers of a replica new. */
  lemma AheadIff(s: System, r: string)
    requires r in s.replicas
    ensures Ahead(s, r) <==> forall k: u64 :: k > s.replicas[r].counter ==> ElementId(k, r) !in s.issued
  {
    if forall k: u64 :: k > s.replicas[r].counter ==> ElementId(k, r) !in s.issued {
      forall id | id in s.issued && id.replicaId == r ensures id.counter <= s.replicas[r].counter {
        assert id == ElementId(id.counter, r);
      }
    }
  }

  /** A replica that has caught up is ahead. */
  lemma CaughtUpIsAhead(s: System, r: string)
    requires Inv(s) && CaughtUp(s, r)
    ensures Ahead(s, r)
  {
    var rep := s.replicas[r];
    assert ReplicaFits(s, r);
    forall id | id in s.issued && id.replicaId == r ensures id.counter <= rep.counter {
      assert Noted(rep, id);
    }
  }

  // --- issuing --------------------------------------------------------------------------

  /** What is in effect stays in effect. */
  lemma StillInEffect(ops: OpSet, later: OpSet, id: ElementId)
    requires Included(ops, later) && InEffect(ops, id)
    ensures InEffect(later, id)
  {
    LiveStable(ops, later, if ops[id].Insert? then id else ops[id].targetId);
  }

  lemma IssuedIsNew(s: System, r: string, op: Operation, s': System)
    requires Inv(s) && Step(s, Issue(r, op), s')
    ensures op.opId !in s.issued && op.opId !in s.replicas[r].ops
    ensures Included(s.issued, s'.issued) && RefersToLive(s.issued, op)
  {
    assert ReplicaFits(s, r);
    AheadLineage(s, r);
    NextIsFresh(s.issued, r, s.replicas[r].counter);
    RefersToLiveStable(s.replicas[r].ops, s.issued, op);
  }

  lemma IssuerFits(s: System, r: string, op: Operation, s': System)
    requires Inv(s) && Step(s, Issue(r, op), s')
    ensures ReplicaFits(s', r)
  {
    assert ReplicaFits(s, r);
    IssuedIsNew(s, r, op, s');
    AheadLineage(s, r);
    var was, now := s.replicas[r], s'.replicas[r];
    forall id | id in now.ops && id.replicaId == r && Noted(now, id) ensures id.counter <= now.counter {
      if id != op.opId { assert id in s.issued; }
    }
  }

  lemma IssueKeepsInv(s: System, r: string, op: Operation, s': System)
    requires Inv(s) && Step(s, Issue(r, op), s')
    ensures Inv(s') && Included(s.issued, s'.issued)
  {
    IssuedIsNew(s, r, op, s');
    GroundedMore(s.issued, op);
    IssuerFits(s, r, op, s');
    forall q | q in s'.replicas ensures ReplicaFits(s', q) {
      if q != r { assert ReplicaFits(s, q); }
    }
  }

  // --- the other steps ------------------------------------------------------------------

  lemma NewReplicaKeepsInv(s: System, r: string, rep: Replica)
    requires Inv(s) && Included(rep.ops, s.issued) && rep.adopted <= rep.ops.Keys && Counts(rep, r)
    ensures Inv(s.(replicas := s.replicas[r := rep]))
  {
    var s' := s.(replicas := s.replicas[r := rep]);
    forall q | q in s'.replicas ensures ReplicaFits(s', q) {
      if q != r { assert ReplicaFits(s, q); }
    }
  }

  lemma StepKeepsInv(s: System, e: Event, s': System)
    requires Inv(s) && Step(s, e, s')
    ensures Inv(s') && Included(s.issued, s'.issued)
  {
    match e
    case Start(r) => NewReplicaKeepsInv(s, r, Replica(map[], 0, {}));
    case Join(r, from) =>
      assert ReplicaFits(s, from);
      NewReplicaKeepsInv(s, r, s'.replicas[r]);
    case Issue(r, op) => IssueKeepsInv(s, r, op, s');
    case Deliver(r, id) =>
      assert ReplicaFits(s, r);
      NewReplicaKeepsInv(s, r, s'.replicas[r]);
  }

  /** What the local edits require of a replica, it has while it is ahead. */
  lemma OwnLineage(s: System, r: string)
    requires Inv(s) && Ahead(s, r)
    ensures OneLineage(s.replicas[r].ops, r, s.replicas[r].counter)
  {
    AheadLineage(s, r);
    assert ReplicaFits(s, r);
    var ops := s.replicas[r].ops;
    forall id, x | id in ops && RefersTo(ops[id], x) && x.replicaId == r
      ensures x.counter <= s.replicas[r].counter
    {
      assert RefersTo(s.issued[id], x);
    }
  }

  // --- catching up ----------------------------------------------------------------------

  /** A name nobody has used, or a snapshot with everything issued under the name: caught up at once. */
  lemma CaughtUpAtOnce(s: System, e: Event, s': System, r: string)
    requires Inv(s) && Step(s, e, s') && Begins(e, r)
    requires forall id :: id in s.issued && id.replicaId == r ==> e.Join? && id in s.replicas[e.from].ops
    ensures CaughtUp(s', r)
  {
  }

  ghost predicate Begins(e: Event, r: string) {
    e == Start(r) || (e.Join? && e.r == r)
  }

  /** Having received everything is enough, whatever the replica started from. */
  lemma CaughtUpByReceiving(s: System, r: string)
    requires Inv(s) && r in s.replicas && s.issued.Keys <= s.replicas[r].ops.Keys
    ensures CaughtUp(s, r)
  {
    assert ReplicaFits(s, r);
    forall id ensures id in s.issued <==> id in s.replicas[r].ops { assert id in s.issued ==> id in s.issued.Keys; }
    SameMap(s.issued, s.replicas[r].ops);
    forall id | id in s.issued ensures Noted(s.replicas[r], id) {
      assert GroundedAt(s.issued, id);
    }
  }

  /** A replica that has caught up stays so, until another takes its name. */
  lemma StaysCaughtUp(s: System, e: Event, s': System, r: string)
    requires Inv(s) && Step(s, e, s') && CaughtUp(s, r) && !Begins(e, r)
    ensures CaughtUp(s', r)
  {
    var was, now := s.replicas[r], s'.replicas[r];
    forall id | id in s'.issued && id.replicaId == r ensures Noted(now, id) {
      if e.Issue? && id == e.op.opId {
        IssuedIsNew(s, e.r, e.op, s');
        NewIsLive(was.ops, e.op);
      } else {
        assert Noted(was, id);
        if InEffect(was.ops, id) { StillInEffect(was.ops, now.ops, id); }
      }
    }
  }

  /** A replica that is ahead stays so, until another takes its name. */
  lemma StaysAhead(s: System, e: Event, s': System, r: string)
    requires Inv(s) && Step(s, e, s') && Ahead(s, r) && !Begins(e, r)
    ensures Ahead(s', r)
  {
  }

  /**
   * A replica that starts anew under a used name can be behind: without operation 1 of that name
   * it comes up with the identifier 1 again.
   */
  lemma RestartRepeats(r: string, value: char) returns (s: System, s': System)
    ensures Inv(s) && Step(s, Start(r), s') && !Ahead(s', r)
    ensures ElementId(s'.replicas[r].counter + 1, r) in s'.issued
  {
    var id := ElementId(1, r);
    var op := Insert(id, Root, value);
    var empty := System(map[r := Replica(map[], 0, {})], map[]);
    s := System(map[r := Issued(empty.replicas[r], op)], map[id := op]);
    assert Inv(empty) && Ahead(empty, r) && Step(empty, Issue(r, op), s);
    IssueKeepsInv(empty, r, op, s);
    s' := s.(replicas := s.replicas[r := Replica(map[], 0, {})]);
    assert id in s'.issued;
  }
}
