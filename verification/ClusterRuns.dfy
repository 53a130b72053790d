/** Whole histories of the replicas: convergence, and identifiers that stay unique. */
module ClusterRuns {
  import opened Ids
  import opened Operations
  import opened Tree
  import opened Denotation
  import opened Settling
  import opened LocalEdits
  import opened DocumentOrder
  import opened Cluster

  /** A finite history of the system. */
  ghost predicate Run(states: seq<System>, events: seq<Event>) {
    && |states| == |events| + 1 && Init(states[0])
    && forall i :: 0 <= i < |events| ==> Step(states[i], events[i], states[i + 1])
  }

  lemma {:induction false} RunKeepsInv(states: seq<System>, events: seq<Event>, i: nat)
    requires Run(states, events) && i < |states|
    ensures Inv(states[i])
  {
    if i > 0 {
      RunKeepsInv(states, events, i - 1);
      StepKeepsInv(states[i - 1], events[i - 1], states[i]);
    }
  }

  lemma {:induction false} IssuedGrows(states: seq<System>, events: seq<Event>, i: nat, j: nat)
    requires Run(states, events) && i <= j < |states|
    ensures Included(states[i].issued, states[j].issued)
  {
    if i < j {
      IssuedGrows(states, events, i, j - 1);
      RunKeepsInv(states, events, j - 1);
      StepKeepsInv(states[j - 1], events[j - 1], states[j]);
    }
  }

  // --- strong eventual consistency ------------------------------------------------------

  /**
   * Two replicas, at two moments of one history, that have received operations with the same
   * identifiers have received the same operations, and show the same text.
   */
  lemma StrongEventualConsistency(states: seq<System>, events: seq<Event>, i: nat, j: nat, p: string, q: string)
    requires Run(states, events) && i <= j < |states|
    requires p in states[i].replicas && q in states[j].replicas
    requires states[i].replicas[p].ops.Keys == states[j].replicas[q].ops.Keys
    ensures states[i].replicas[p].ops == states[j].replicas[q].ops
    ensures Text(states[i].replicas[p].ops) == Text(states[j].replicas[q].ops)
  {
    RunKeepsInv(states, events, i);
    RunKeepsInv(states, events, j);
    IssuedGrows(states, events, i, j);
    assert ReplicaFits(states[i], p) && ReplicaFits(states[j], q);
    var a, b := states[i].replicas[p].ops, states[j].replicas[q].ops;
    forall id | id in a ensures a[id] == b[id] { assert id in b.Keys; }
    SameMap(a, b);
  }

  /** A replica that has received everything issued so far has nothing left in its buffers. */
  lemma NothingStaysPending(states: seq<System>, events: seq<Event>, i: nat, r: string)
    requires Run(states, events) && i < |states| && r in states[i].replicas
    requires states[i].issued.Keys <= states[i].replicas[r].ops.Keys
    ensures PendingInsertsOf(states[i].replicas[r].ops) == map[]
    ensures PendingDeletesOf(states[i].replicas[r].ops) == map[]
  {
    var s := states[i];
    RunKeepsInv(states, events, i);
    assert ReplicaFits(s, r);
    forall id ensures id in s.issued <==> id in s.replicas[r].ops { assert id in s.issued ==> id in s.issued.Keys; }
    SameMap(s.issued, s.replicas[r].ops);
    forall id
      ensures id !in PendingInsertsOf(s.issued) && id !in PendingDeletesOf(s.issued)
    {
      assert GroundedAt(s.issued, id);
    }
  }

  // --- identifiers ----------------------------------------------------------------------

  /**
   * At any moment of any history, the identifiers a replica would come up with from then on are
   * all new if and only if its counter covers what was issued under its name; then the local
   * edits find their preconditions met.
   */
  lemma NextIdentifierIsNew(states: seq<System>, events: seq<Event>, i: nat, r: string)
    requires Run(states, events) && i < |states| && r in states[i].replicas
    ensures var s, counter := states[i], states[i].replicas[r].counter;
            && (Ahead(s, r) <==> forall k: u64 :: k > counter ==> ElementId(k, r) !in s.issued)
            && (Ahead(s, r) ==> OneLineage(s.replicas[r].ops, r, counter))
            && (CaughtUp(s, r) ==> Ahead(s, r))
  {
    RunKeepsInv(states, events, i);
    AheadIff(states[i], r);
    if CaughtUp(states[i], r) { CaughtUpIsAhead(states[i], r); }
    if Ahead(states[i], r) { OwnLineage(states[i], r); }
  }

  /** Once ahead, a replica is ahead for as long as it keeps its name. */
  lemma {:induction false} AheadForGood(states: seq<System>, events: seq<Event>, i: nat, j: nat, r: string)
    requires Run(states, events) && i <= j < |states| && Ahead(states[i], r)
    requires forall k :: i <= k < j ==> !Begins(events[k], r)
    ensures Ahead(states[j], r)
  {
    if i < j {
      AheadForGood(states, events, i, j - 1, r);
      RunKeepsInv(states, events, j - 1);
      StaysAhead(states[j - 1], events[j - 1], states[j], r);
    }
  }

  /** Whatever it started from: a replica that has caught up has done so for as long as it lives. */
  lemma {:induction false} CaughtUpForGood(states: seq<System>, events: seq<Event>, i: nat, j: nat, r: string)
    requires Run(states, events) && i <= j < |states| && CaughtUp(states[i], r)
    requires forall k :: i <= k < j ==> !Begins(events[k], r)
    ensures CaughtUp(states[j], r)
  {
    if i < j {
      CaughtUpForGood(states, events, i, j - 1, r);
      RunKeepsInv(states, events, j - 1);
      StaysCaughtUp(states[j - 1], events[j - 1], states[j], r);
    }
  }

  /** A replica that begins has a new name, or a snapshot with everything issued under its name. */
  ghost predicate TakesOver(s: System, e: Event) {
    forall id :: id in s.issued && Begins(e, id.replicaId) ==>
      e.Join? && e.from in s.replicas && id in s.replicas[e.from].ops
  }

  /**
   * If every replica that begins takes over what was issued under its name, then every replica
   * has caught up at all times, also those that took a used name: local edits are always possible
   * and never repeat an identifier.
   */
  lemma {:induction false} AdoptedNamesStayFresh(states: seq<System>, events: seq<Event>, i: nat, r: string)
    requires Run(states, events) && i < |states| && r in states[i].replicas
    requires forall k :: 0 <= k < i ==> TakesOver(states[k], events[k])
    ensures CaughtUp(states[i], r) && Ahead(states[i], r)
    ensures forall k: u64 :: k > states[i].replicas[r].counter ==> ElementId(k, r) !in states[i].issued
  {
    var s, e := states[i - 1], events[i - 1];
    RunKeepsInv(states, events, i - 1);
    assert Step(s, e, states[i]) && TakesOver(s, e);
    if Begins(e, r) {
      CaughtUpAtOnce(s, e, states[i], r);
    } else {
      AdoptedNamesStayFresh(states, events, i - 1, r);
      StaysCaughtUp(s, e, states[i], r);
    }
    NextIdentifierIsNew(states, events, i, r);
  }

  /** What any replica shows at any time is in the order of the final document. */
  lemma OneOrderForAll(states: seq<System>, events: seq<Event>, i: nat, j: nat, r: string)
    requires Run(states, events) && i <= j < |states| && r in states[i].replicas
    ensures var ops := states[i].replicas[r].ops;
            Document(ops) == Keep(Document(states[j].issued), LiveIds(ParentsOf(ops)))
  {
    RunKeepsInv(states, events, i);
    IssuedGrows(states, events, i, j);
    assert ReplicaFits(states[i], r);
    EarlierIsSubsequence(states[i].replicas[r].ops, states[j].issued);
  }
}
