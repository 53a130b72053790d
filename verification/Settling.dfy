/**
 * States on the way to the denotation: some of the received operations have taken effect and
 * the others wait in the buffers. Once no buffered operation is ready, the state is the
 * denotation, whatever the order in which operations took effect.
 */
module Settling {
  import opened Ids
  import opened Sorting
  import opened Operations
  import opened Tree
  import opened Preorder
  import opened Denotation

  type Elements = map<ElementId, CharElement>

  /** `has_parent` */
  predicate HasParent(elements: Elements, k: ParentId) {
    k.Element? ==> k.id in elements
  }

  /** `id` is an element for the insert of that name, below the root or another element. */
  ghost predicate Fits(ops: OpSet, elements: Elements, id: ElementId) {
    && id in elements && id in ops && ops[id].Insert? && IsLive(ops, id)
    && elements[id].id == id
    && elements[id].value == ops[id].value
    && elements[id].parentId == ops[id].parentId
    && HasParent(elements, ops[id].parentId)
  }

  /** `id` is buffered exactly when it names an insert that did not take effect. */
  ghost predicate InsertWaits(ops: OpSet, elements: Elements, pi: OpSet, id: ElementId) {
    && (id in pi <==> id in ops && ops[id].Insert? && id !in elements)
    && (id in pi ==> pi[id] == ops[id])
  }

  /** `d` is a buffered delete, or its target is an element. */
  ghost predicate DeleteWaits(ops: OpSet, elements: Elements, pd: OpSet, d: ElementId) {
    && (d in pd ==> d in ops && ops[d].Delete? && pd[d] == ops[d])
    && (d in ops && ops[d].Delete? && d !in pd ==> ops[d].targetId in elements)
  }

  /** Some delete of `id` took effect. */
  ghost predicate Struck(ops: OpSet, pd: OpSet, id: ElementId) {
    exists d :: DeletedBy(ops, d, id) && d !in pd
  }

  ghost predicate Marked(ops: OpSet, elements: Elements, pd: OpSet, id: ElementId)
    requires id in elements
  {
    elements[id].deleted <==> Struck(ops, pd, id)
  }

  /** `elements` are inserts that took effect, `pi` and `pd` the operations that did not yet. */
  ghost predicate Partial(ops: OpSet, elements: Elements, pi: OpSet, pd: OpSet) {
    && Keyed(ops)
    && (forall id {:trigger Fits(ops, elements, id)} :: id in elements ==> Fits(ops, elements, id))
    && (forall id {:trigger InsertWaits(ops, elements, pi, id)} :: InsertWaits(ops, elements, pi, id))
    && (forall d {:trigger DeleteWaits(ops, elements, pd, d)} :: DeleteWaits(ops, elements, pd, d))
    && (forall id {:trigger Marked(ops, elements, pd, id)} :: id in elements ==> Marked(ops, elements, pd, id))
  }

  ghost predicate InsertStuck(elements: Elements, pi: OpSet, id: ElementId) {
    id in pi && pi[id].Insert? ==> !HasParent(elements, pi[id].parentId)
  }

  ghost predicate DeleteStuck(elements: Elements, pd: OpSet, d: ElementId) {
    d in pd && pd[d].Delete? ==> pd[d].targetId !in elements
  }

  /** No buffered operation could take effect now. */
  ghost predicate Quiescent(elements: Elements, pi: OpSet, pd: OpSet) {
    && (forall id {:trigger InsertStuck(elements, pi, id)} :: InsertStuck(elements, pi, id))
    && (forall d {:trigger DeleteStuck(elements, pd, d)} :: DeleteStuck(elements, pd, d))
  }

  ghost predicate Counted(counter: u64, replicaId: string, ops: OpSet, pi: OpSet, pd: OpSet, id: ElementId) {
    id in ops && id !in pi && id !in pd && id.replicaId == replicaId ==> id.counter <= counter
  }

  /** The counter is at least that of every operation of this replica that took effect. */
  ghost predicate Covers(counter: u64, replicaId: string, ops: OpSet, pi: OpSet, pd: OpSet) {
    forall id {:trigger Counted(counter, replicaId, ops, pi, pd, id)} :: Counted(counter, replicaId, ops, pi, pd, id)
  }

  lemma LiveIsPresent(ops: OpSet, elements: Elements, pi: OpSet, pd: OpSet, id: ElementId)
    requires Partial(ops, elements, pi, pd) && Quiescent(elements, pi, pd)
    requires IsLive(ops, id)
    ensures id in elements
  {
    var f := ParentsOf(ops);
    forall x | x in f && (f[x].Element? ==> f[x].id in elements.Keys) ensures x in elements.Keys {
      assert InsertWaits(ops, elements, pi, x) && InsertStuck(elements, pi, x);
    }
    LiveLeast(f, elements.Keys, id);
  }

  lemma SettledElements(ops: OpSet, elements: Elements, pi: OpSet, pd: OpSet)
    requires Partial(ops, elements, pi, pd) && Quiescent(elements, pi, pd)
    ensures forall id :: id in elements <==> IsLive(ops, id)
    ensures elements == ElementsOf(ops)
  {
    forall id ensures id in elements <==> IsLive(ops, id) {
      if IsLive(ops, id) { LiveIsPresent(ops, elements, pi, pd, id); }
      if id in elements { assert Fits(ops, elements, id); }
    }
    var target := ElementsOf(ops);
    forall id ensures id in elements <==> id in target {
      if id in elements { assert Fits(ops, elements, id); }
    }
    forall id | id in elements ensures elements[id] == target[id] {
      assert Fits(ops, elements, id);
      StruckIsTombstoned(ops, elements, pi, pd, id);
    }
    SameMap(elements, target);
  }

  lemma SameMap<K, V>(a: map<K, V>, b: map<K, V>)
    requires forall k :: k in a <==> k in b
    requires forall k :: k in a ==> a[k] == b[k]
    ensures a == b
  {
  }

  /** The fixpoint is the denotation. */
  lemma SettledIsDenotation(ops: OpSet, elements: Elements, pi: OpSet, pd: OpSet)
    requires Partial(ops, elements, pi, pd) && Quiescent(elements, pi, pd)
    ensures elements == ElementsOf(ops)
    ensures pi == PendingInsertsOf(ops)
    ensures pd == PendingDeletesOf(ops)
  {
    SettledElements(ops, elements, pi, pd);
    forall id
      ensures id in pi <==> id in PendingInsertsOf(ops)
      ensures id in pi ==> pi[id] == PendingInsertsOf(ops)[id]
    {
      assert InsertWaits(ops, elements, pi, id);
    }
    SameMap(pi, PendingInsertsOf(ops));
    forall d ensures d in pd <==> d in PendingDeletesOf(ops) {
      assert DeleteWaits(ops, elements, pd, d) && DeleteStuck(elements, pd, d);
    }
    forall d | d in pd ensures pd[d] == ops[d] {
      assert DeleteWaits(ops, elements, pd, d);
    }
    SameMap(pd, PendingDeletesOf(ops));
  }

  lemma StruckIsTombstoned(ops: OpSet, elements: Elements, pi: OpSet, pd: OpSet, id: ElementId)
    requires Partial(ops, elements, pi, pd) && Quiescent(elements, pi, pd) && id in elements
    ensures elements[id].deleted <==> Tombstoned(ops, id)
  {
    assert Marked(ops, elements, pd, id);
    if Tombstoned(ops, id) {
      var d :| DeletedBy(ops, d, id);
      assert DeleteWaits(ops, elements, pd, d) && DeleteStuck(elements, pd, d);
    }
  }

  /** The denotation is a settled state. */
  lemma DenotationIsSettled(ops: OpSet)
    requires Keyed(ops)
    ensures Partial(ops, ElementsOf(ops), PendingInsertsOf(ops), PendingDeletesOf(ops))
    ensures Quiescent(ElementsOf(ops), PendingInsertsOf(ops), PendingDeletesOf(ops))
  {
    var f := ParentsOf(ops);
    var elements, pi, pd := ElementsOf(ops), PendingInsertsOf(ops), PendingDeletesOf(ops);
    forall id ensures id in elements <==> IsLive(ops, id) {
      if IsLive(ops, id) { LivePath(f, id); }
    }
    forall id | id in elements ensures Fits(ops, elements, id) {
      LivePath(f, id);
    }
    forall id ensures InsertStuck(elements, pi, id) {
      if id in pi && HasParent(elements, pi[id].parentId) { ChildPath(f, id); }
    }
    forall id | id in elements ensures Marked(ops, elements, pd, id) {
      if Tombstoned(ops, id) {
        var d :| DeletedBy(ops, d, id);
        assert d !in pd;
      }
    }
  }

  lemma LiveStable(ops: OpSet, ops': OpSet, id: ElementId)
    requires Included(ops, ops') && IsLive(ops, id)
    ensures IsLive(ops', id)
  {
    PathStable(ParentsOf(ops), ParentsOf(ops'), id);
  }

  /** A new operation may always be buffered first. */
  lemma BufferedInsert(ops: OpSet, elements: Elements, pi: OpSet, pd: OpSet, op: Operation)
    requires Partial(ops, elements, pi, pd) && op.opId !in ops && op.Insert?
    ensures Partial(ops[op.opId := op], elements, pi[op.opId := op], pd)
  {
    StillPlaced(ops, elements, pi, pd, op);
    var ops', pi' := ops[op.opId := op], pi[op.opId := op];
    forall id ensures InsertWaits(ops', elements, pi', id) {
      assert InsertWaits(ops, elements, pi, id);
    }
    forall d ensures DeleteWaits(ops', elements, pd, d) {
      assert DeleteWaits(ops, elements, pd, d);
    }
    forall id | id in elements ensures Marked(ops', elements, pd, id) {
      assert Marked(ops, elements, pd, id);
      StruckBuffered(ops, pd, op, id);
    }
  }

  lemma BufferedDelete(ops: OpSet, elements: Elements, pi: OpSet, pd: OpSet, op: Operation)
    requires Partial(ops, elements, pi, pd) && op.opId !in ops && op.Delete?
    ensures Partial(ops[op.opId := op], elements, pi, pd[op.opId := op])
  {
    StillPlaced(ops, elements, pi, pd, op);
    var ops', pd' := ops[op.opId := op], pd[op.opId := op];
    forall id ensures InsertWaits(ops', elements, pi, id) {
      assert InsertWaits(ops, elements, pi, id);
    }
    forall d ensures DeleteWaits(ops', elements, pd', d) {
      assert DeleteWaits(ops, elements, pd, d);
    }
    forall id | id in elements ensures Marked(ops', elements, pd', id) {
      assert Marked(ops, elements, pd, id);
      StruckBuffered(ops, pd, op, id);
    }
  }

  lemma StillPlaced(ops: OpSet, elements: Elements, pi: OpSet, pd: OpSet, op: Operation)
    requires Partial(ops, elements, pi, pd) && op.opId !in ops
    ensures forall id {:trigger Fits(ops[op.opId := op], elements, id)} ::
              id in elements ==> Fits(ops[op.opId := op], elements, id)
    ensures op.opId !in elements
  {
    var ops' := ops[op.opId := op];
    assert op.opId in elements ==> Fits(ops, elements, op.opId);
    forall id | id in elements ensures Fits(ops', elements, id) {
      assert Fits(ops, elements, id);
      LiveStable(ops, ops', id);
    }
  }

  lemma StruckBuffered(ops: OpSet, pd: OpSet, op: Operation, id: ElementId)
    requires op.opId !in ops
    ensures Struck(ops[op.opId := op], if op.Delete? then pd[op.opId := op] else pd, id) <==> Struck(ops, pd, id)
  {
    var ops' := ops[op.opId := op];
    if Struck(ops, pd, id) {
      var d :| DeletedBy(ops, d, id) && d !in pd;
      assert DeletedBy(ops', d, id);
    }
  }

  /** A buffered insert whose anchor is present takes effect. */
  lemma InsertTakesEffect(ops: OpSet, elements: Elements, pi: OpSet, pd: OpSet, id: ElementId)
    requires Partial(ops, elements, pi, pd)
    requires id in pi && pi[id].Insert? && HasParent(elements, pi[id].parentId)
    ensures id !in elements && pi[id].opId == id
    ensures Partial(ops, elements[id := CharElement(id, pi[id].value, pi[id].parentId, false)], pi - {id}, pd)
  {
    var op := pi[id];
    var elements', pi' := elements[id := CharElement(id, op.value, op.parentId, false)], pi - {id};
    assert InsertWaits(ops, elements, pi, id);
    if op.parentId.Element? {
      assert Fits(ops, elements, op.parentId.id);
    }
    ChildPath(ParentsOf(ops), id);
    forall x | x in elements' ensures Fits(ops, elements', x) {
      if x != id { assert Fits(ops, elements, x); }
    }
    forall x ensures InsertWaits(ops, elements', pi', x) {
      assert InsertWaits(ops, elements, pi, x);
    }
    forall d ensures DeleteWaits(ops, elements', pd, d) {
      assert DeleteWaits(ops, elements, pd, d);
    }
    forall d ensures !(DeletedBy(ops, d, id) && d !in pd) {
      assert DeleteWaits(ops, elements, pd, d);
    }
    forall x | x in elements' ensures Marked(ops, elements', pd, x) {
      if x != id { assert Marked(ops, elements, pd, x); }
    }
  }

  /** A buffered delete whose target is present takes effect. */
  lemma DeleteTakesEffect(ops: OpSet, elements: Elements, pi: OpSet, pd: OpSet, d: ElementId)
    requires Partial(ops, elements, pi, pd)
    requires d in pd && pd[d].Delete? && pd[d].targetId in elements
    ensures pd[d].opId == d
    ensures Partial(ops, elements[pd[d].targetId := elements[pd[d].targetId].(deleted := true)], pi, pd - {d})
  {
    var t := pd[d].targetId;
    var elements', pd' := elements[t := elements[t].(deleted := true)], pd - {d};
    assert DeleteWaits(ops, elements, pd, d);
    forall x | x in elements' ensures Fits(ops, elements', x) {
      assert Fits(ops, elements, x);
    }
    forall x ensures InsertWaits(ops, elements', pi, x) {
      assert InsertWaits(ops, elements, pi, x);
    }
    forall x ensures DeleteWaits(ops, elements', pd', x) {
      assert DeleteWaits(ops, elements, pd, x);
    }
    forall x | x in elements' ensures Marked(ops, elements', pd', x) {
      assert Marked(ops, elements, pd, x);
      StruckByOneMore(ops, pd, d, x);
    }
  }

  lemma StruckByOneMore(ops: OpSet, pd: OpSet, d: ElementId, x: ElementId)
    requires d in pd && d in ops && ops[d].Delete?
    ensures Struck(ops, pd - {d}, x) <==> Struck(ops, pd, x) || x == ops[d].targetId
  {
    if x == ops[d].targetId {
      assert DeletedBy(ops, d, x) && d !in pd - {d};
    }
    if Struck(ops, pd, x) {
      var e :| DeletedBy(ops, e, x) && e !in pd;
      assert e !in pd - {d};
    }
  }

  /** Taking one operation from the buffers and counting it keeps the counter a bound. */
  lemma CountedStep(counter: u64, counter': u64, replicaId: string, ops: OpSet, pi: OpSet, pd: OpSet, id: ElementId)
    requires Covers(counter, replicaId, ops, pi, pd) && counter <= counter'
    requires id.replicaId == replicaId ==> id.counter <= counter'
    ensures Covers(counter', replicaId, ops, pi - {id}, pd)
    ensures Covers(counter', replicaId, ops, pi, pd - {id})
  {
    forall x ensures Counted(counter', replicaId, ops, pi - {id}, pd, x) {
      assert Counted(counter, replicaId, ops, pi, pd, x);
    }
    forall x ensures Counted(counter', replicaId, ops, pi, pd - {id}, x) {
      assert Counted(counter, replicaId, ops, pi, pd, x);
    }
  }

  // --- the child index ------------------------------------------------------------------

  ghost predicate Closed(elements: Elements) {
    forall id {:trigger elements[id].parentId} :: id in elements ==> HasParent(elements, elements[id].parentId)
  }

  /** The entry for `k` lists the children of `k`, highest identifier first. */
  ghost predicate IndexedAt(elements: Elements, children: map<ParentId, seq<ElementId>>, k: ParentId) {
    && (k in children <==> HasParent(elements, k))
    && (k in children ==> children[k] == Kids(ParentsIn(elements), k))
  }

  ghost predicate Indexed(elements: Elements, children: map<ParentId, seq<ElementId>>) {
    forall k {:trigger IndexedAt(elements, children, k)} :: IndexedAt(elements, children, k)
  }

  lemma IndexedIsIndexOf(elements: Elements, children: map<ParentId, seq<ElementId>>)
    ensures Indexed(elements, children) <==> children == IndexOf(elements)
  {
    var index := IndexOf(elements);
    forall k ensures k in index <==> HasParent(elements, k) {
      assert k == Root || k == Element(k.id);
    }
    if Indexed(elements, children) {
      forall k
        ensures k in children <==> k in index
        ensures k in children ==> children[k] == index[k]
      {
        assert IndexedAt(elements, children, k);
      }
      SameMap(children, index);
    }
  }

  lemma PartialIsClosed(ops: OpSet, elements: Elements, pi: OpSet, pd: OpSet)
    requires Partial(ops, elements, pi, pd)
    ensures Closed(elements)
  {
    forall id | id in elements ensures HasParent(elements, elements[id].parentId) {
      assert Fits(ops, elements, id);
    }
  }

  lemma EmptyIndex()
    ensures Indexed(map[], map[Root := []])
  {
    DescendingEmpty();
    forall k ensures IndexedAt(map[], map[Root := []], k) {
      assert ChildSet(ParentsIn(map[]), k) == {};
    }
  }

  /** Pushing a new element onto its siblings and sorting them maintains the child index. */
  lemma IndexWithChild(elements: Elements, children: map<ParentId, seq<ElementId>>, e: CharElement)
    requires Indexed(elements, children)
    requires Closed(elements) && e.id !in elements && HasParent(elements, e.parentId)
    ensures e.parentId in children && Element(e.id) !in children
    ensures Indexed(elements[e.id := e],
                    children[e.parentId := Sort(children[e.parentId] + [e.id], Above)][Element(e.id) := []])
  {
    assert IndexedAt(elements, children, e.parentId) && IndexedAt(elements, children, Element(e.id));
    var elements' := elements[e.id := e];
    var children' := children[e.parentId := Sort(children[e.parentId] + [e.id], Above)][Element(e.id) := []];
    KidsWithChild(elements, e, e.parentId);
    forall k ensures IndexedAt(elements', children', k) {
      assert IndexedAt(elements, children, k);
      KidsWithChild(elements, e, k);
      IndexedWithChild(elements, children, e, children'[e.parentId], k);
    }
  }

  lemma IndexedWithChild(elements: Elements, children: map<ParentId, seq<ElementId>>, e: CharElement,
                         siblings: seq<ElementId>, k: ParentId)
    requires e.id !in elements && HasParent(elements, e.parentId)
    requires IndexedAt(elements, children, k)
    requires siblings == Kids(ParentsIn(elements[e.id := e]), e.parentId)
    requires k == Element(e.id) ==> Kids(ParentsIn(elements[e.id := e]), k) == []
    requires k != e.parentId && k != Element(e.id) ==>
               Kids(ParentsIn(elements[e.id := e]), k) == Kids(ParentsIn(elements), k)
    ensures IndexedAt(elements[e.id := e], children[e.parentId := siblings][Element(e.id) := []], k)
  {
  }

  lemma KidsWithChild(elements: Elements, e: CharElement, k: ParentId)
    requires Closed(elements) && e.id !in elements && HasParent(elements, e.parentId)
    ensures k == e.parentId ==>
              Kids(ParentsIn(elements[e.id := e]), k) == Sort(Kids(ParentsIn(elements), k) + [e.id], Above)
    ensures k == Element(e.id) ==> Kids(ParentsIn(elements[e.id := e]), k) == []
    ensures k != e.parentId && k != Element(e.id) ==>
              Kids(ParentsIn(elements[e.id := e]), k) == Kids(ParentsIn(elements), k)
  {
    ChildSetWithChild(elements, e, k);
    var s := ChildSet(ParentsIn(elements), k);
    assert s + {} == s;
    PushAndSort(s, e.id);
    DescendingEmpty();
  }

  lemma ChildSetWithChild(elements: Elements, e: CharElement, k: ParentId)
    requires Closed(elements) && e.id !in elements && HasParent(elements, e.parentId)
    ensures e.id !in ChildSet(ParentsIn(elements), k)
    ensures ChildSet(ParentsIn(elements[e.id := e]), k) ==
              ChildSet(ParentsIn(elements), k) + (if k == e.parentId then {e.id} else {})
    ensures k == Element(e.id) ==> ChildSet(ParentsIn(elements[e.id := e]), k) == {}
  {
    forall id | id in ChildSet(ParentsIn(elements), k) ensures k != Element(e.id) {
      assert HasParent(elements, elements[id].parentId);
    }
  }

  lemma DescendingEmpty()
    ensures Descending({}) == []
  {
    AboveTotal();
  }

  /** Tombstones leave the child index as it is. */
  lemma IndexIgnoresTombstones(elements: Elements, children: map<ParentId, seq<ElementId>>, id: ElementId)
    requires Indexed(elements, children) && id in elements
    ensures Indexed(elements[id := elements[id].(deleted := true)], children)
  {
    var elements' := elements[id := elements[id].(deleted := true)];
    assert ParentsIn(elements') == ParentsIn(elements);
    forall k ensures IndexedAt(elements', children, k) {
      assert IndexedAt(elements, children, k);
    }
  }

  /** In a settled state a live node is an element, its tombstone is right, and so are its children. */
  lemma SettledNode(ops: OpSet, elements: Elements, children: map<ParentId, seq<ElementId>>,
                    pi: OpSet, pd: OpSet, id: ElementId)
    requires Partial(ops, elements, pi, pd) && Quiescent(elements, pi, pd) && Indexed(elements, children)
    requires IsLive(ops, id)
    ensures id in elements && elements[id].id == id
    ensures elements[id].value == ValueOf(ops, id)
    ensures !elements[id].deleted <==> id in VisibleIds(ops)
    ensures Element(id) in children && children[Element(id)] == Kids(ParentsOf(ops), Element(id))
  {
    LiveIsPresent(ops, elements, pi, pd, id);
    assert Fits(ops, elements, id);
    StruckIsTombstoned(ops, elements, pi, pd, id);
    SettledChildren(ops, elements, children, pi, pd, Element(id));
  }

  lemma SettledChildren(ops: OpSet, elements: Elements, children: map<ParentId, seq<ElementId>>,
                        pi: OpSet, pd: OpSet, k: ParentId)
    requires Partial(ops, elements, pi, pd) && Quiescent(elements, pi, pd) && Indexed(elements, children)
    requires LiveAnchor(ParentsOf(ops), k)
    ensures k in children && children[k] == Kids(ParentsOf(ops), k)
  {
    if k.Element? { LiveIsPresent(ops, elements, pi, pd, k.id); }
    assert IndexedAt(elements, children, k);
    forall id ensures id in ChildSet(ParentsIn(elements), k) <==> id in ChildSet(ParentsOf(ops), k) {
      if id in ChildSet(ParentsIn(elements), k) { assert Fits(ops, elements, id); }
      if id in ChildSet(ParentsOf(ops), k) {
        ChildPath(ParentsOf(ops), id);
        LiveIsPresent(ops, elements, pi, pd, id);
        assert Fits(ops, elements, id);
      }
    }
    assert ChildSet(ParentsIn(elements), k) == ChildSet(ParentsOf(ops), k);
  }
}
