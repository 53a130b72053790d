/** Snapshots as values: what they say about a set of operations, and the counter they imply. */
module Snapshots {
  import opened Ids
  import opened Keys
  import opened Wrappers
  import opened Sorting
  import opened Operations
  import opened Preorder
  import opened Denotation
  import opened Settling
  import opened LocalEdits

  /** `s` lists what the operations `ops` denote. */
  ghost predicate Describes(s: Snapshot, ops: OpSet) {
    && Keyed(ops)
    && (forall e :: e in s.elements <==> e.id in ElementsOf(ops) && ElementsOf(ops)[e.id] == e)
    && (forall key :: key in s.seenOpIds <==> key in SeenOf(ops))
    && (forall op :: op in s.pendingInserts <==>
          op.opId in PendingInsertsOf(ops) && PendingInsertsOf(ops)[op.opId] == op)
    && (forall op :: op in s.pendingDeletes <==>
          op.opId in PendingDeletesOf(ops) && PendingDeletesOf(ops)[op.opId] == op)
  }

  /** The counter in a key of the given replica. */
  function CounterIn(key: string, replicaId: string): Option<u64> {
    match SplitOpKey(key)
    case Some((replica, counter)) => if replica == replicaId then ParseU64(counter) else None
    case None => None
  }

  ghost predicate OwnAtMost(id: ElementId, replicaId: string, max: u64) {
    id.replicaId == replicaId ==> id.counter <= max
  }

  ghost predicate KeyAtMost(key: string, replicaId: string, max: u64) {
    CounterIn(key, replicaId).Some? ==> CounterIn(key, replicaId).value <= max
  }

  /** Some entry of the snapshot accounts for `max`. */
  ghost predicate Attained(s: Snapshot, replicaId: string, max: u64) {
    || max == 0
    || (s.replicaId == replicaId && max == s.counter)
    || (exists e :: e in s.elements && e.id == ElementId(max, replicaId))
    || (exists op :: op in s.pendingInserts && op.opId == ElementId(max, replicaId))
    || (exists op :: op in s.pendingDeletes && op.opId == ElementId(max, replicaId))
    || (exists key :: key in s.seenOpIds && CounterIn(key, replicaId) == Some(max))
  }

  /** The largest counter the snapshot mentions for a replica. */
  method MaxCounterForReplica(s: Snapshot, replicaId: string) returns (max: u64)
    ensures s.replicaId == replicaId ==> s.counter <= max
    ensures forall e :: e in s.elements ==> OwnAtMost(e.id, replicaId, max)
    ensures forall op :: op in s.pendingInserts + s.pendingDeletes ==> OwnAtMost(op.opId, replicaId, max)
    ensures forall key :: key in s.seenOpIds ==> KeyAtMost(key, replicaId, max)
    ensures Attained(s, replicaId, max)
  {
    max := if s.replicaId == replicaId then s.counter else 0;
    for i := 0 to |s.elements|
      invariant s.replicaId == replicaId ==> s.counter <= max
      invariant forall j :: 0 <= j < i ==> OwnAtMost(s.elements[j].id, replicaId, max)
      invariant Attained(s, replicaId, max)
    {
      var id := s.elements[i].id;
      if id.replicaId == replicaId && id.counter > max {
        max := id.counter;
        assert s.elements[i] in s.elements && id == ElementId(max, replicaId);
      }
    }
    var ops := s.pendingInserts + s.pendingDeletes;
    for i := 0 to |ops|
      invariant s.replicaId == replicaId ==> s.counter <= max
      invariant forall e :: e in s.elements ==> OwnAtMost(e.id, replicaId, max)
      invariant forall j :: 0 <= j < i ==> OwnAtMost(ops[j].opId, replicaId, max)
      invariant Attained(s, replicaId, max)
    {
      var id := ops[i].opId;
      if id.replicaId == replicaId && id.counter > max {
        max := id.counter;
        assert ops[i] in s.pendingInserts || ops[i] in s.pendingDeletes;
        assert id == ElementId(max, replicaId);
      }
    }
    for i := 0 to |s.seenOpIds|
      invariant s.replicaId == replicaId ==> s.counter <= max
      invariant forall e :: e in s.elements ==> OwnAtMost(e.id, replicaId, max)
      invariant forall op :: op in ops ==> OwnAtMost(op.opId, replicaId, max)
      invariant forall j :: 0 <= j < i ==> KeyAtMost(s.seenOpIds[j], replicaId, max)
      invariant Attained(s, replicaId, max)
    {
      match CounterIn(s.seenOpIds[i], replicaId)
      case None =>
      case Some(counter) =>
        if counter > max {
          max := counter;
          assert s.seenOpIds[i] in s.seenOpIds;
        }
    }
  }

  /** The adopted counter covers every identifier the replica may have used before. */
  lemma SeenKeysBoundOwnIds(s: Snapshot, ops: OpSet, replicaId: string, max: u64)
    requires Describes(s, ops)
    requires forall key :: key in s.seenOpIds ==> KeyAtMost(key, replicaId, max)
    ensures OwnIdsCounted(ops, replicaId, max)
  {
    forall id | id in ops && id.replicaId == replicaId ensures id.counter <= max {
      KeyRoundTrip(id);
      assert Key(id) in SeenOf(ops);
      assert KeyAtMost(Key(id), replicaId, max);
    }
  }

  // --- rebuilding the child index -------------------------------------------------------

  /** The entry for `k` holds the children of `k` among the elements looked at so far. */
  ghost predicate CollectedAt(elements: Elements, children: map<ParentId, seq<ElementId>>,
                              done: set<ElementId>, k: ParentId)
  {
    && (k in children ==> NoDuplicates(children[k]))
    && (k in children ==>
          forall id :: id in children[k] <==> id in done && id in elements && elements[id].parentId == k)
    && (k == Root || (k.id in done && k.id in elements) ==> k in children)
    && (k in children ==> k == Root || k.id in done ||
                          exists id :: id in done && id in elements && elements[id].parentId == k)
    && (forall id :: id in done && id in elements && elements[id].parentId == k ==> k in children)
  }

  ghost predicate Collected(elements: Elements, children: map<ParentId, seq<ElementId>>, done: set<ElementId>) {
    forall k {:trigger CollectedAt(elements, children, done, k)} :: CollectedAt(elements, children, done, k)
  }

  function Entry(children: map<ParentId, seq<ElementId>>, k: ParentId): seq<ElementId> {
    if k in children then children[k] else []
  }

  /** `entry(parent).or_default().push(id)`, then `entry(own).or_default()`. */
  function Collect(children: map<ParentId, seq<ElementId>>, id: ElementId, parentId: ParentId)
    : map<ParentId, seq<ElementId>>
  {
    var pushed := children[parentId := Entry(children, parentId) + [id]];
    pushed[Element(id) := Entry(pushed, Element(id))]
  }

  lemma CollectOne(elements: Elements, children: map<ParentId, seq<ElementId>>, done: set<ElementId>, id: ElementId)
    requires Collected(elements, children, done) && id in elements && id !in done
    ensures Collected(elements, Collect(children, id, elements[id].parentId), done + {id})
  {
    var children' := Collect(children, id, elements[id].parentId);
    forall k ensures CollectedAt(elements, children', done + {id}, k) {
      assert CollectedAt(elements, children, done, k);
    }
  }

  lemma CollectedAll(elements: Elements, children: map<ParentId, seq<ElementId>>, k: ParentId)
    requires CollectedAt(elements, children, elements.Keys, k)
    ensures k in children ==> Sort(children[k], Above) == Kids(ParentsIn(elements), k)
    ensures Closed(elements) ==> (k in children <==> HasParent(elements, k))
  {
    if k in children {
      AboveTotal();
      SortIsListing(children[k], Above);
      assert Elems(children[k]) == ChildSet(ParentsIn(elements), k);
    }
    forall id | Closed(elements) && id in elements && elements[id].parentId == k ensures HasParent(elements, k) {
      assert HasParent(elements, elements[id].parentId);
    }
  }

  // --- restoring the other maps ---------------------------------------------------------

  /** `elements` holds, under each identifier, some listed entry of that identifier. */
  ghost predicate Restored(list: seq<CharElement>, elements: Elements) {
    && (forall id :: id in elements ==> elements[id].id == id && elements[id] in list)
    && (forall e :: e in list ==> e.id in elements)
  }

  ghost predicate RestoredOps(list: seq<Operation>, ops: OpSet) {
    && (forall id :: id in ops ==> ops[id].opId == id && ops[id] in list)
    && (forall op :: op in list ==> op.opId in ops)
  }

  lemma RestoredElements(s: Snapshot, ops: OpSet, elements: Elements)
    requires Describes(s, ops) && Restored(s.elements, elements)
    ensures elements == ElementsOf(ops)
  {
    forall id ensures id in elements <==> id in ElementsOf(ops) {
      if id in ElementsOf(ops) { assert ElementsOf(ops)[id].id == id && ElementsOf(ops)[id] in s.elements; }
    }
    SameMap(elements, ElementsOf(ops));
  }

  lemma RestoredBuffers(s: Snapshot, ops: OpSet, pi: OpSet, pd: OpSet)
    requires Describes(s, ops) && RestoredOps(s.pendingInserts, pi) && RestoredOps(s.pendingDeletes, pd)
    ensures pi == PendingInsertsOf(ops) && pd == PendingDeletesOf(ops)
  {
    forall id ensures id in pi <==> id in PendingInsertsOf(ops) {
      if id in PendingInsertsOf(ops) { assert PendingInsertsOf(ops)[id].opId == id; }
    }
    SameMap(pi, PendingInsertsOf(ops));
    forall id ensures id in pd <==> id in PendingDeletesOf(ops) {
      if id in PendingDeletesOf(ops) { assert PendingDeletesOf(ops)[id].opId == id; }
    }
    SameMap(pd, PendingDeletesOf(ops));
  }

  /** A restored state, with its index rebuilt and its counter adopted, is the settled one. */
  lemma RestoredIsSettled(s: Snapshot, ops: OpSet, replicaId: string, counter: u64, elements: Elements,
                          children: map<ParentId, seq<ElementId>>, seen: set<string>, pi: OpSet, pd: OpSet)
    requires Describes(s, ops)
    requires forall key :: key in s.seenOpIds ==> KeyAtMost(key, replicaId, counter)
    requires Restored(s.elements, elements)
    requires RestoredOps(s.pendingInserts, pi) && RestoredOps(s.pendingDeletes, pd)
    requires Closed(elements) ==> Indexed(elements, children)
    requires forall key :: key in seen <==> key in s.seenOpIds
    ensures Partial(ops, elements, pi, pd) && Quiescent(elements, pi, pd)
    ensures Indexed(elements, children) && Recorded(seen, ops)
    ensures forall k :: k in pi ==> pi[k].Insert?
    ensures forall k :: k in pd ==> pd[k].Delete?
    ensures OwnIdsCounted(ops, replicaId, counter) && Covers(counter, replicaId, ops, pi, pd)
  {
    RestoredElements(s, ops, elements);
    RestoredBuffers(s, ops, pi, pd);
    DenotationIsSettled(ops);
    PartialIsClosed(ops, elements, pi, pd);
    RecordedIsSeenOf(seen, ops);
    assert seen == SeenOf(ops);
    SeenKeysBoundOwnIds(s, ops, replicaId, counter);
    forall id ensures Counted(counter, replicaId, ops, pi, pd, id) {}
  }

  // --- listing the maps -----------------------------------------------------------------

  predicate ElementBefore(a: CharElement, b: CharElement) {
    Less(a.id, b.id)
  }

  predicate OperationBefore(a: Operation, b: Operation) {
    Less(a.opId, b.opId)
  }

  lemma ElementsListed(elements: Elements)
    requires forall id :: id in elements ==> elements[id].id == id
    ensures SortedBy(ValueList(elements), ElementBefore)
    ensures forall e :: e in ValueList(elements) <==> e.id in elements && elements[e.id] == e
  {
    forall e ensures e in ValueList(elements) <==> e.id in elements && elements[e.id] == e {
      ValueListed(elements, e);
    }
  }

  lemma OperationsListed(ops: OpSet)
    requires forall id :: id in ops ==> ops[id].opId == id
    ensures SortedBy(ValueList(ops), OperationBefore)
    ensures forall op :: op in ValueList(ops) <==> op.opId in ops && ops[op.opId] == op
  {
    forall op ensures op in ValueList(ops) <==> op.opId in ops && ops[op.opId] == op {
      ValueListed(ops, op);
    }
  }

  lemma PartialIds(ops: OpSet, elements: Elements, pi: OpSet, pd: OpSet, id: ElementId)
    requires Partial(ops, elements, pi, pd)
    ensures id in elements ==> elements[id].id == id
    ensures id in pi ==> pi[id].opId == id
    ensures id in pd ==> pd[id].opId == id
  {
    assert id in elements ==> Fits(ops, elements, id);
    assert InsertWaits(ops, elements, pi, id) && DeleteWaits(ops, elements, pd, id);
  }
}
