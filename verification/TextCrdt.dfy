/** The replica (text_crdt.rs): its maps, its local edits, remote operations and snapshots. */
module TextCrdts {
  import opened Ids
  import opened Keys
  import opened Wrappers
  import opened Sequences
  import opened Sorting
  import opened Operations
  import opened Tree
  import opened Preorder
  import opened Denotation
  import opened Settling
  import opened StackWalk
  import opened LocalEdits
  import opened Splice
  import opened EditEffects
  import opened StrikeEffects
  import opened Snapshots

  function Raise(counter: u64, replicaId: string, id: ElementId): u64 {
    if id.replicaId == replicaId && id.counter > counter then id.counter else counter
  }

  ghost function Strike(elements: Elements, id: ElementId): Elements
    requires id in elements
  {
    elements[id := elements[id].(deleted := true)]
  }

  ghost function Put(elements: Elements, op: Operation): Elements
    requires op.Insert?
  {
    elements[op.opId := CharElement(op.opId, op.value, op.parentId, false)]
  }

  /** A new operation that is not ready is buffered, and nothing becomes ready. */
  lemma Queue(counter: u64, replicaId: string, ops: OpSet, elements: Elements, pi: OpSet, pd: OpSet, op: Operation)
    requires Partial(ops, elements, pi, pd) && Quiescent(elements, pi, pd) && op.opId !in ops
    requires Covers(counter, replicaId, ops, pi, pd)
    requires if op.Insert? then !HasParent(elements, op.parentId) else op.targetId !in elements
    ensures var pi' := if op.Insert? then pi[op.opId := op] else pi;
            var pd' := if op.Delete? then pd[op.opId := op] else pd;
            && Partial(ops[op.opId := op], elements, pi', pd') && Quiescent(elements, pi', pd')
            && Covers(counter, replicaId, ops[op.opId := op], pi', pd')
  {
    var ops' := ops[op.opId := op];
    var pi' := if op.Insert? then pi[op.opId := op] else pi;
    var pd' := if op.Delete? then pd[op.opId := op] else pd;
    if op.Insert? { BufferedInsert(ops, elements, pi, pd, op); } else { BufferedDelete(ops, elements, pi, pd, op); }
    forall id ensures InsertStuck(elements, pi', id) {
      assert InsertStuck(elements, pi, id);
    }
    forall id ensures DeleteStuck(elements, pd', id) {
      assert DeleteStuck(elements, pd, id);
    }
    forall id ensures Counted(counter, replicaId, ops', pi', pd', id) {
      assert Counted(counter, replicaId, ops, pi, pd, id);
    }
  }

  /** A new operation that is ready takes effect at once. */
  lemma TakeEffect(counter: u64, replicaId: string, ops: OpSet, elements: Elements, pi: OpSet, pd: OpSet, op: Operation)
    requires Partial(ops, elements, pi, pd) && op.opId !in ops
    requires Covers(counter, replicaId, ops, pi, pd)
    requires if op.Insert? then HasParent(elements, op.parentId) else op.targetId in elements
    ensures Closed(elements) && op.opId !in elements
    ensures Partial(ops[op.opId := op], if op.Insert? then Put(elements, op) else Strike(elements, op.targetId), pi, pd)
    ensures Covers(Raise(counter, replicaId, op.opId), replicaId, ops[op.opId := op], pi, pd)
  {
    var ops', counter' := ops[op.opId := op], Raise(counter, replicaId, op.opId);
    PartialIsClosed(ops, elements, pi, pd);
    StillPlaced(ops, elements, pi, pd, op);
    assert InsertWaits(ops, elements, pi, op.opId) && DeleteWaits(ops, elements, pd, op.opId);
    if op.Insert? {
      BufferedInsert(ops, elements, pi, pd, op);
      InsertTakesEffect(ops', elements, pi[op.opId := op], pd, op.opId);
      assert pi[op.opId := op] - {op.opId} == pi;
    } else {
      BufferedDelete(ops, elements, pi, pd, op);
      DeleteTakesEffect(ops', elements, pi, pd[op.opId := op], op.opId);
      assert pd[op.opId := op] - {op.opId} == pd;
    }
    forall id ensures Counted(counter', replicaId, ops', pi, pd, id) {
      assert Counted(counter, replicaId, ops, pi, pd, id);
    }
  }

  lemma NewIsNotBuffered(ops: OpSet, elements: Elements, pi: OpSet, pd: OpSet, id: ElementId)
    requires Partial(ops, elements, pi, pd) && id !in ops
    ensures id !in pi && id !in pd
  {
    assert InsertWaits(ops, elements, pi, id) && DeleteWaits(ops, elements, pd, id);
  }

  lemma BufferedIsReceived(ops: OpSet, elements: Elements, pi: OpSet, pd: OpSet, id: ElementId)
    requires Partial(ops, elements, pi, pd) && (id in pi || id in pd)
    ensures id in ops
  {
    assert InsertWaits(ops, elements, pi, id) && DeleteWaits(ops, elements, pd, id);
  }

  lemma OneMore(m: OpSet, op: Operation)
    requires op.opId !in m
    ensures |m[op.opId := op]| == |m| + 1
  {
  }

  /** The characters of `output`, by identifier. */
  ghost function IdsOf(output: seq<CharElement>): seq<ElementId> {
    seq(|output|, i requires 0 <= i < |output| => output[i].id)
  }

  lemma IdsOfPush(output: seq<CharElement>, e: CharElement)
    ensures IdsOf(output + [e]) == IdsOf(output) + [e.id]
  {
  }

  /** An operation nobody refers to unlocks nothing. */
  lemma NothingUnlocked(ops: OpSet, elements: Elements, pi: OpSet, pd: OpSet, op: Operation)
    requires Partial(ops, elements, pi, pd) && Quiescent(elements, pi, pd)
    requires Unreferenced(ops, op.opId)
    ensures op.Insert? ==> Quiescent(Put(elements, op), pi, pd)
    ensures op.Delete? && op.targetId in elements ==> Quiescent(Strike(elements, op.targetId), pi, pd)
  {
    forall id
      ensures op.Insert? ==> InsertStuck(Put(elements, op), pi, id)
      ensures op.Delete? && op.targetId in elements ==> InsertStuck(Strike(elements, op.targetId), pi, id)
    {
      assert InsertStuck(elements, pi, id) && InsertWaits(ops, elements, pi, id);
      assert id in ops ==> !RefersTo(ops[id], op.opId);
    }
    forall id
      ensures op.Insert? ==> DeleteStuck(Put(elements, op), pd, id)
      ensures op.Delete? && op.targetId in elements ==> DeleteStuck(Strike(elements, op.targetId), pd, id)
    {
      assert DeleteStuck(elements, pd, id) && DeleteWaits(ops, elements, pd, id);
      assert id in ops ==> !RefersTo(ops[id], op.opId);
    }
  }

  /**
   * A local insert does not look at the buffers: that loses nothing if and only if nothing
   * buffered refers to the new identifier.
   */
  lemma DrainNotNeededIff(ops: OpSet, elements: Elements, pi: OpSet, pd: OpSet, op: Operation)
    requires Partial(ops, elements, pi, pd) && Quiescent(elements, pi, pd)
    requires op.Insert? && op.opId !in elements
    requires forall id :: id in pi ==> pi[id].Insert?
    requires forall id :: id in pd ==> pd[id].Delete?
    ensures Quiescent(Put(elements, op), pi, pd) <==> Unreferenced(pi, op.opId) && Unreferenced(pd, op.opId)
  {
    forall id
      ensures InsertStuck(Put(elements, op), pi, id) <==> id in pi ==> !RefersTo(pi[id], op.opId)
      ensures DeleteStuck(Put(elements, op), pd, id) <==> id in pd ==> !RefersTo(pd[id], op.opId)
    {
      assert InsertStuck(elements, pi, id) && DeleteStuck(elements, pd, id);
    }
  }

  /** With `d` buffered, whose target is the next identifier, a local insert leaves `d` buffered and ready. */
  lemma LocalInsertLeavesReady(d: ElementId, replicaId: string, value: char)
    requires d != ElementId(1, replicaId)
    ensures var op := Insert(ElementId(1, replicaId), Root, value);
            var ops := map[d := Delete(d, op.opId)];
            && Partial(ops, map[], map[], ops) && Quiescent(map[], map[], ops)
            && !Quiescent(Put(map[], op), map[], ops)
  {
    var op := Insert(ElementId(1, replicaId), Root, value);
    var ops := map[d := Delete(d, op.opId)];
    forall id ensures InsertWaits(ops, map[], map[], id) && DeleteWaits(ops, map[], ops, id) {}
    forall id ensures InsertStuck(map[], map[], id) && DeleteStuck(map[], ops, id) {}
    assert RefersTo(ops[d], op.opId);
    DrainNotNeededIff(ops, map[], map[], ops, op);
  }

  lemma ElementIsReceived(ops: OpSet, elements: Elements, pi: OpSet, pd: OpSet, k: ParentId)
    requires Partial(ops, elements, pi, pd) && HasParent(elements, k)
    ensures k.Element? ==> k.id in ops
  {
    if k.Element? { assert Fits(ops, elements, k.id); }
  }

  lemma StillCovers(counter: u64, counter': u64, replicaId: string, ops: OpSet, pi: OpSet, pd: OpSet)
    requires Covers(counter, replicaId, ops, pi, pd) && counter <= counter'
    ensures Covers(counter', replicaId, ops, pi, pd)
  {
    forall id ensures Counted(counter', replicaId, ops, pi, pd, id) {
      assert Counted(counter, replicaId, ops, pi, pd, id);
    }
  }

  lemma AnchorOf(visible: seq<CharElement>, index: nat)
    requires index <= |visible|
    ensures |IdsOf(visible)| == |visible|
    ensures AnchorAt(IdsOf(visible), index) == if index == 0 then Root else Element(visible[index - 1].id)
    ensures index > 0 ==> visible[index - 1] in visible
  {
  }

  lemma TargetsOf(visible: seq<CharElement>, index: nat, count: nat)
    requires index + count <= |visible|
    ensures |IdsOf(visible)| == |visible|
    ensures IdsOf(visible[index..index + count]) == IdsOf(visible)[index..index + count]
    ensures forall e :: e in visible[index..index + count] ==> e in visible
  {
  }

  lemma IsRunOp(replicaId: string, counter: u64, anchor: ParentId, text: string, k: nat,
                parentId: ParentId, op: Operation)
    requires counter + |text| <= U64_MAX && k < |text|
    requires parentId == if k == 0 then anchor else Element(ElementId(counter + k, replicaId))
    requires op == Insert(ElementId(counter + k + 1, replicaId), parentId, text[k])
    ensures op == RunOps(replicaId, counter, anchor, text)[k]
  {
  }

  /** The next operation of a list is issued. */
  lemma OneMoreIssued(ops: OpSet, was: OpSet, list: seq<Operation>, k: nat, op: Operation)
    requires k < |list| && op == list[k] && op.opId !in was && was == ReceiveAll(ops, list[..k])
    ensures list[..k + 1] == list[..k] + [op] && was[op.opId := op] == ReceiveAll(ops, list[..k + 1])
  {
    assert list[..k + 1][..k] == list[..k];
  }

  class TextCrdt {
    const replicaId: string
    var counter: u64
    var elements: map<ElementId, CharElement>
    var children: map<ParentId, seq<ElementId>>
    var seenOpIds: set<string>
    var pendingInserts: OpSet
    var pendingDeletes: OpSet
    /** Every operation received so far, local ones included. */
    ghost var received: OpSet

    /** Each received operation took effect or is buffered, though buffered ones may be ready. */
    ghost predicate Reflects()
      reads this
    {
      && Partial(received, elements, pendingInserts, pendingDeletes)
      && (forall k :: k in pendingInserts ==> pendingInserts[k].Insert?)
      && (forall k :: k in pendingDeletes ==> pendingDeletes[k].Delete?)
      && Indexed(elements, children)
      && Covers(counter, replicaId, received, pendingInserts, pendingDeletes)
    }

    /** No buffered operation is ready: the state is what `received` denotes. */
    ghost predicate Valid()
      reads this
    {
      Reflects() && Quiescent(elements, pendingInserts, pendingDeletes) && Recorded(seenOpIds, received)
    }

    constructor (replicaId: string)
      ensures Valid() && received == map[] && counter == 0 && this.replicaId == replicaId
    {
      this.replicaId := replicaId;
      counter := 0;
      elements := map[];
      children := map[Root := []];
      seenOpIds := {};
      pendingInserts := map[];
      pendingDeletes := map[];
      received := map[];
      new;
      EmptyIndex();
      RecordedIsSeenOf(seenOpIds, received);
    }

    method NextOperationId() returns (id: ElementId)
      requires counter < U64_MAX
      modifies this`counter
      ensures counter == old(counter) + 1
      ensures id == ElementId(counter, replicaId)
    {
      counter := counter + 1;
      id := ElementId(counter, replicaId);
    }

    method RecordSeen(id: ElementId)
      modifies this`seenOpIds
      ensures seenOpIds == old(seenOpIds) + {Key(id)}
    {
      seenOpIds := seenOpIds + {Key(id)};
    }

    method ApplyInsertInner(op: Operation)
      requires op.Insert? && Closed(elements) && HasParent(elements, op.parentId)
      requires Indexed(elements, children)
      modifies this`elements, this`children, this`counter
      ensures Indexed(elements, children)
      ensures op.opId in old(elements) ==> elements == old(elements) && counter == old(counter)
      ensures op.opId !in old(elements) ==>
                && elements == old(elements)[op.opId := CharElement(op.opId, op.value, op.parentId, false)]
                && counter == Raise(old(counter), replicaId, op.opId)
    {
      if op.opId in elements {
        return;
      }
      var e := CharElement(op.opId, op.value, op.parentId, false);
      IndexWithChild(elements, children, e);
      elements := elements[op.opId := e];

      var siblings := (if op.parentId in children then children[op.parentId] else []) + [op.opId];
      children := children[op.parentId := Sort(siblings, Above)];
      if Element(op.opId) !in children {
        children := children[Element(op.opId) := []];
      }

      if op.opId.replicaId == replicaId && op.opId.counter > counter {
        counter := op.opId.counter;
      }
    }

    method ApplyDeleteInner(op: Operation)
      requires op.Delete? && Indexed(elements, children)
      modifies this`elements, this`counter
      ensures Indexed(elements, children)
      ensures counter == Raise(old(counter), replicaId, op.opId)
      ensures elements == if op.targetId in old(elements)
                          then old(elements)[op.targetId := old(elements)[op.targetId].(deleted := true)]
                          else old(elements)
    {
      if op.targetId in elements {
        IndexIgnoresTombstones(elements, children, op.targetId);
        elements := elements[op.targetId := elements[op.targetId].(deleted := true)];
      }
      if op.opId.replicaId == replicaId && op.opId.counter > counter {
        counter := op.opId.counter;
      }
    }

    /**
     * Applies buffered operations until none is ready. The ready ones of a round are taken in an
     * arbitrary order, as hash maps give them.
     */
    method DrainPending() returns (drained: nat)
      requires Reflects()
      modifies this`elements, this`children, this`counter, this`pendingInserts, this`pendingDeletes
      ensures Reflects() && Quiescent(elements, pendingInserts, pendingDeletes)
      ensures drained == |old(pendingInserts)| + |old(pendingDeletes)| - |pendingInserts| - |pendingDeletes|
      ensures pendingInserts.Keys <= old(pendingInserts).Keys && pendingDeletes.Keys <= old(pendingDeletes).Keys
      ensures counter >= old(counter)
      ensures counter > old(counter) ==> ElementId(counter, replicaId) in received
    {
      drained := 0;
      var progressed := true;
      while progressed
        invariant Reflects()
        invariant drained == |old(pendingInserts)| + |old(pendingDeletes)| - |pendingInserts| - |pendingDeletes|
        invariant pendingInserts.Keys <= old(pendingInserts).Keys && pendingDeletes.Keys <= old(pendingDeletes).Keys
        invariant !progressed ==> Quiescent(elements, pendingInserts, pendingDeletes)
        invariant counter >= old(counter)
        invariant counter > old(counter) ==> ElementId(counter, replicaId) in received
        decreases |pendingInserts| + |pendingDeletes| + (if progressed then 1 else 0)
      {
        ghost var before := |pendingInserts| + |pendingDeletes|;
        var inserted := DrainInserts();
        var deleted := DrainDeletes();
        drained := drained + inserted + deleted;
        progressed := inserted + deleted > 0;
      }
    }

    /** The inserts of one round: those ready at its beginning. */
    method DrainInserts() returns (n: nat)
      requires Reflects()
      modifies this`elements, this`children, this`counter, this`pendingInserts
      ensures Reflects()
      ensures n == |old(pendingInserts)| - |pendingInserts|
      ensures pendingInserts.Keys <= old(pendingInserts).Keys
      ensures n == 0 ==> elements == old(elements)
      ensures n == 0 ==> forall k :: k in pendingInserts ==> !HasParent(elements, pendingInserts[k].parentId)
      ensures counter >= old(counter)
      ensures counter > old(counter) ==> ElementId(counter, replicaId) in received
    {
      n := 0;
      var ready := set k | k in pendingInserts && HasParent(elements, pendingInserts[k].parentId);
      while ready != {}
        invariant Reflects()
        invariant n == |old(pendingInserts)| - |pendingInserts|
        invariant pendingInserts.Keys <= old(pendingInserts).Keys
        invariant forall k :: k in ready ==> k in pendingInserts && HasParent(elements, pendingInserts[k].parentId)
        invariant n == 0 ==> elements == old(elements)
        invariant n == 0 ==>
                    forall k :: k in pendingInserts && k !in ready ==> !HasParent(elements, pendingInserts[k].parentId)
        invariant counter >= old(counter)
        invariant counter > old(counter) ==> ElementId(counter, replicaId) in received
        decreases ready
      {
        var key :| key in ready;
        ready := ready - {key};
        if key in pendingInserts {
          ReleaseInsert(key);
          n := n + 1;
        }
      }
    }

    /** Takes a ready insert out of its buffer and applies it. */
    method ReleaseInsert(key: ElementId)
      requires Reflects() && key in pendingInserts && HasParent(elements, pendingInserts[key].parentId)
      modifies this`elements, this`children, this`counter, this`pendingInserts
      ensures Reflects()
      ensures pendingInserts == old(pendingInserts) - {key} && |pendingInserts| == |old(pendingInserts)| - 1
      ensures elements.Keys == old(elements).Keys + {key}
      ensures counter >= old(counter)
      ensures counter > old(counter) ==> ElementId(counter, replicaId) in received
    {
      var op := pendingInserts[key];
      InsertTakesEffect(received, elements, pendingInserts, pendingDeletes, key);
      CountedStep(counter, Raise(counter, replicaId, key), replicaId, received, pendingInserts, pendingDeletes, key);
      PartialIsClosed(received, elements, pendingInserts, pendingDeletes);
      BufferedIsReceived(received, elements, pendingInserts, pendingDeletes, key);
      pendingInserts := pendingInserts - {key};
      ApplyInsertInner(op);
    }

    /** The deletes of one round. */
    method DrainDeletes() returns (n: nat)
      requires Reflects()
      modifies this`elements, this`counter, this`pendingDeletes
      ensures Reflects() && elements.Keys == old(elements).Keys
      ensures n == |old(pendingDeletes)| - |pendingDeletes|
      ensures pendingDeletes.Keys <= old(pendingDeletes).Keys
      ensures n == 0 ==> forall k :: k in pendingDeletes ==> pendingDeletes[k].targetId !in elements
      ensures counter >= old(counter)
      ensures counter > old(counter) ==> ElementId(counter, replicaId) in received
    {
      n := 0;
      var ready := set k | k in pendingDeletes && pendingDeletes[k].targetId in elements;
      while ready != {}
        invariant Reflects() && elements.Keys == old(elements).Keys
        invariant n == |old(pendingDeletes)| - |pendingDeletes|
        invariant pendingDeletes.Keys <= old(pendingDeletes).Keys
        invariant forall k :: k in ready ==> k in pendingDeletes && pendingDeletes[k].targetId in elements
        invariant n == 0 ==> forall k :: k in pendingDeletes && k !in ready ==> pendingDeletes[k].targetId !in elements
        invariant counter >= old(counter)
        invariant counter > old(counter) ==> ElementId(counter, replicaId) in received
        decreases ready
      {
        var key :| key in ready;
        ready := ready - {key};
        if key in pendingDeletes {
          ReleaseDelete(key);
          n := n + 1;
        }
      }
    }

    /** Takes a ready delete out of its buffer and applies it. */
    method ReleaseDelete(key: ElementId)
      requires Reflects() && key in pendingDeletes && pendingDeletes[key].targetId in elements
      modifies this`elements, this`counter, this`pendingDeletes
      ensures Reflects()
      ensures pendingDeletes == old(pendingDeletes) - {key} && |pendingDeletes| == |old(pendingDeletes)| - 1
      ensures elements.Keys == old(elements).Keys
      ensures counter >= old(counter)
      ensures counter > old(counter) ==> ElementId(counter, replicaId) in received
    {
      var op := pendingDeletes[key];
      DeleteTakesEffect(received, elements, pendingInserts, pendingDeletes, key);
      CountedStep(counter, Raise(counter, replicaId, key), replicaId, received, pendingInserts, pendingDeletes, key);
      BufferedIsReceived(received, elements, pendingInserts, pendingDeletes, key);
      pendingDeletes := pendingDeletes - {key};
      ApplyDeleteInner(op);
    }

    // --- local edits ----------------------------------------------------------------------

    /**
     * Inserts `text` at visible position `index`. Nothing buffered may refer to the identifiers
     * it issues, since buffered operations are not looked at.
     */
    method Insert(index: nat, text: string) returns (r: Result<seq<Operation>, ApplyError>)
      requires Valid() && OneLineage(received, replicaId, counter) && counter + |text| <= U64_MAX
      modifies this
      ensures Valid() && OneLineage(received, replicaId, counter)
      ensures index > |old(Visible(received))| ==>
                && r == Err(OutOfRange(index, |old(Visible(received))|))
                && received == old(received) && counter == old(counter)
      ensures index <= |old(Visible(received))| ==>
                && r == Ok(RunOps(replicaId, old(counter), AnchorAt(old(Visible(received)), index), text))
                && received == ReceiveAll(old(received), r.value)
                && counter == old(counter) + |text|
      ensures index <= |old(Visible(received))| && text != [] ==>
                var j := old(Landing(received, replicaId, counter, index));
                j <= |old(Text(received))|
                && Text(received) == old(Text(received))[..j] + text + old(Text(received))[j..]
    {
      var visible := VisibleElements();
      assert |visible| == |IdsOf(visible)|;
      if index > |visible| {
        return Err(OutOfRange(index, |visible|));
      }
      var parentId := if index == 0 then Root else Element(visible[index - 1].id);
      AnchorOf(visible, index);
      var ops := InsertRun(parentId, text);
      if text != [] {
        RunText(old(received), replicaId, old(counter), index, text);
      }
      r := Ok(ops);
    }

    /** The loop of `Insert`: one operation for each character, anchored to the one before. */
    method InsertRun(anchor: ParentId, text: string) returns (ops: seq<Operation>)
      requires Valid() && OneLineage(received, replicaId, counter) && counter + |text| <= U64_MAX
      requires HasParent(elements, anchor)
      modifies this
      ensures Valid() && OneLineage(received, replicaId, counter)
      ensures ops == RunOps(replicaId, old(counter), anchor, text)
      ensures received == ReceiveAll(old(received), ops)
      ensures counter == old(counter) + |text|
    {
      var parentId := anchor;
      ops := [];
      ghost var run := RunOps(replicaId, counter, anchor, text);
      for k := 0 to |text|
        invariant Valid() && OneLineage(received, replicaId, counter)
        invariant counter == old(counter) + k
        invariant HasParent(elements, parentId)
        invariant parentId == if k == 0 then anchor else Element(ElementId(old(counter) + k, replicaId))
        invariant ops == run[..k] && received == ReceiveAll(old(received), run[..k])
      {
        var op := InsertNext(parentId, text, k, anchor, old(received), old(counter));
        parentId := Element(op.opId);
        ops := ops + [op];
      }
      assert run[..|text|] == run;
    }

    /** The character at `k` of a run, those before it having been inserted. */
    method InsertNext(parentId: ParentId, text: string, k: nat,
                      ghost anchor: ParentId, ghost ops: OpSet, ghost from: u64)
      returns (op: Operation)
      requires Valid() && OneLineage(received, replicaId, counter) && HasParent(elements, parentId)
      requires k < |text| && from + |text| <= U64_MAX && counter == from + k
      requires parentId == if k == 0 then anchor else Element(ElementId(from + k, replicaId))
      requires received == ReceiveAll(ops, RunOps(replicaId, from, anchor, text)[..k])
      modifies this
      ensures Valid() && OneLineage(received, replicaId, counter) && counter == from + k + 1
      ensures op.opId == ElementId(counter, replicaId) && op.opId in elements
      ensures op == RunOps(replicaId, from, anchor, text)[k]
      ensures received == ReceiveAll(ops, RunOps(replicaId, from, anchor, text)[..k + 1])
    {
      ghost var was := received;
      op := InsertOne(parentId, text[k]);
      IsRunOp(replicaId, from, anchor, text, k, parentId, op);
      OneMoreIssued(ops, was, RunOps(replicaId, from, anchor, text), k, op);
    }

    /** One round of the loop of `Insert`. */
    method InsertOne(parentId: ParentId, value: char) returns (op: Operation)
      requires Valid() && OneLineage(received, replicaId, counter) && counter < U64_MAX
      requires HasParent(elements, parentId)
      modifies this
      ensures Valid() && OneLineage(received, replicaId, counter)
      ensures counter == old(counter) + 1
      ensures op == Operation.Insert(ElementId(counter, replicaId), parentId, value)
      ensures op.opId !in old(received) && op.opId in elements
      ensures received == old(received)[op.opId := op]
    {
      NextIsFresh(received, replicaId, counter);
      var opId := NextOperationId();
      op := Operation.Insert(opId, parentId, value);
      ElementIsReceived(received, elements, pendingInserts, pendingDeletes, parentId);
      LineageStep(received, replicaId, old(counter), op);
      NothingUnlocked(received, elements, pendingInserts, pendingDeletes, op);
      RecordedMore(seenOpIds, received, op);
      StillCovers(old(counter), counter, replicaId, received, pendingInserts, pendingDeletes);
      RecordSeen(opId);
      Enact(op);
    }

    /** Tombstones `count` visible characters from position `index`. */
    method Delete(index: nat, count: nat) returns (r: Result<seq<Operation>, ApplyError>)
      requires Valid() && OneLineage(received, replicaId, counter) && counter + count <= U64_MAX
      modifies this
      ensures Valid() && OneLineage(received, replicaId, counter)
      ensures index + count > |old(Visible(received))| ==>
                && r == Err(OutOfRange(index, |old(Visible(received))|))
                && received == old(received) && counter == old(counter)
      ensures index + count <= |old(Visible(received))| ==>
                && r == Ok(StrikeOps(replicaId, old(counter), old(Visible(received))[index..index + count]))
                && received == ReceiveAll(old(received), r.value)
                && counter == old(counter) + count
                && |Text(old(received))| == |old(Visible(received))|
                && Text(received) == old(Text(received))[..index] + old(Text(received))[index + count..]
    {
      var visible := VisibleElements();
      assert |visible| == |IdsOf(visible)|;
      var length := |visible|;
      if index + count > length {
        return Err(OutOfRange(index, length));
      }
      TargetsOf(visible, index, count);
      var ops := DeleteRun(visible[index..index + count]);
      StrikeText(old(received), replicaId, old(counter), index, count);
      r := Ok(ops);
    }

    /** The loop of `Delete`: one operation for each element. */
    method DeleteRun(targets: seq<CharElement>) returns (ops: seq<Operation>)
      requires Valid() && OneLineage(received, replicaId, counter) && counter + |targets| <= U64_MAX
      requires forall e :: e in targets ==> e.id in elements
      modifies this
      ensures Valid() && OneLineage(received, replicaId, counter)
      ensures ops == StrikeOps(replicaId, old(counter), IdsOf(targets))
      ensures received == ReceiveAll(old(received), ops)
      ensures counter == old(counter) + |targets|
    {
      ops := [];
      ghost var all := StrikeOps(replicaId, counter, IdsOf(targets));
      for k := 0 to |targets|
        invariant Valid() && OneLineage(received, replicaId, counter)
        invariant counter == old(counter) + k
        invariant elements.Keys == old(elements).Keys
        invariant ops == all[..k]
        invariant received == ReceiveAll(old(received), ops)
      {
        ghost var was := received;
        var op := DeleteOne(targets[k].id);
        OneMoreIssued(old(received), was, all, k, op);
        ops := ops + [op];
      }
    }

    /** One round of the loop of `Delete`. */
    method DeleteOne(targetId: ElementId) returns (op: Operation)
      requires Valid() && OneLineage(received, replicaId, counter) && counter < U64_MAX
      requires targetId in elements
      modifies this
      ensures Valid() && OneLineage(received, replicaId, counter)
      ensures counter == old(counter) + 1
      ensures op == Operation.Delete(ElementId(counter, replicaId), targetId)
      ensures op.opId !in old(received) && elements.Keys == old(elements).Keys
      ensures received == old(received)[op.opId := op]
    {
      NextIsFresh(received, replicaId, counter);
      var opId := NextOperationId();
      op := Operation.Delete(opId, targetId);
      ElementIsReceived(received, elements, pendingInserts, pendingDeletes, Element(targetId));
      LineageStep(received, replicaId, old(counter), op);
      NothingUnlocked(received, elements, pendingInserts, pendingDeletes, op);
      RecordedMore(seenOpIds, received, op);
      StillCovers(old(counter), counter, replicaId, received, pendingInserts, pendingDeletes);
      RecordSeen(opId);
      Enact(op);
    }

    // --- remote operations ----------------------------------------------------------------

    method ApplyOperation(op: Operation) returns (r: ApplyResult)
      requires Valid()
      modifies this`counter, this`elements, this`children, this`seenOpIds, this`pendingInserts, this`pendingDeletes,
               this`received
      ensures Valid()
      ensures received == Receive(old(received), op)
      ensures r.opId == Key(op.opId)
      ensures r.status.Duplicate? <==> op.opId in old(received)
      ensures r.status.Queued? <==>
                op.opId !in old(received) && (op.opId in pendingInserts || op.opId in pendingDeletes)
      ensures r.drained == if r.status.Applied? then old(PendingCount()) - PendingCount() else 0
      ensures !r.status.Applied? ==> elements == old(elements) && counter == old(counter)
      ensures r.status.Duplicate? ==> PendingCount() == old(PendingCount())
      ensures r.status.Queued? ==> PendingCount() == old(PendingCount()) + 1
      ensures counter >= old(counter)
      ensures counter > old(counter) ==> ElementId(counter, replicaId) in received
    {
      var opKey := Key(op.opId);
      RecordedIff(seenOpIds, received, op.opId);
      if opKey in seenOpIds {
        return ApplyResult(Duplicate, opKey, 0);
      }
      RecordedMore(seenOpIds, received, op);
      seenOpIds := seenOpIds + {opKey};
      var status, drained := Accept(op);
      r := ApplyResult(status, opKey, drained);
    }

    /** Buffers a new operation, or lets it and whatever it unlocks take effect. */
    method Accept(op: Operation) returns (status: ApplyStatus, drained: nat)
      requires Reflects() && Quiescent(elements, pendingInserts, pendingDeletes) && op.opId !in received
      modifies this`counter, this`elements, this`children, this`pendingInserts, this`pendingDeletes, this`received
      ensures Reflects() && Quiescent(elements, pendingInserts, pendingDeletes)
      ensures received == old(received)[op.opId := op]
      ensures !status.Duplicate?
      ensures status.Queued? <==> (op.opId in pendingInserts || op.opId in pendingDeletes)
      ensures status.Queued? ==>
                && elements == old(elements) && counter == old(counter)
                && PendingCount() == old(PendingCount()) + 1 && drained == 0
      ensures status.Applied? ==> drained == old(PendingCount()) - PendingCount()
      ensures counter >= old(counter)
      ensures counter > old(counter) ==> ElementId(counter, replicaId) in received
    {
      if !IsReady(op) {
        Hold(op);
        return Queued, 0;
      }
      Enact(op);
      drained := DrainPending();
      status := Applied;
    }

    /** The anchor of an insert, or the target of a delete, is present. */
    predicate IsReady(op: Operation)
      reads this`elements
    {
      match op
      case Insert(_, parentId, _) => HasParent(elements, parentId)
      case Delete(_, targetId) => targetId in elements
    }

    /** Buffers an operation that is not ready. */
    method Hold(op: Operation)
      requires Reflects() && Quiescent(elements, pendingInserts, pendingDeletes)
      requires op.opId !in received && !IsReady(op)
      modifies this`pendingInserts, this`pendingDeletes, this`received
      ensures Reflects() && Quiescent(elements, pendingInserts, pendingDeletes)
      ensures received == old(received)[op.opId := op]
      ensures (op.opId in pendingInserts || op.opId in pendingDeletes)
      ensures PendingCount() == old(PendingCount()) + 1
    {
      NewIsNotBuffered(received, elements, pendingInserts, pendingDeletes, op.opId);
      Queue(counter, replicaId, received, elements, pendingInserts, pendingDeletes, op);
      OneMore(pendingInserts, op);
      OneMore(pendingDeletes, op);
      match op {
        case Insert(_, _, _) => pendingInserts := pendingInserts[op.opId := op];
        case Delete(_, _) => pendingDeletes := pendingDeletes[op.opId := op];
      }
      received := received[op.opId := op];
    }

    /** Lets a new operation that is ready take effect. */
    method Enact(op: Operation)
      requires Reflects() && op.opId !in received && IsReady(op)
      modifies this`counter, this`elements, this`children, this`received
      ensures Reflects()
      ensures received == old(received)[op.opId := op]
      ensures op.opId !in pendingInserts && op.opId !in pendingDeletes
      ensures elements == if op.Insert? then Put(old(elements), op) else Strike(old(elements), op.targetId)
      ensures counter == Raise(old(counter), replicaId, op.opId)
    {
      NewIsNotBuffered(received, elements, pendingInserts, pendingDeletes, op.opId);
      TakeEffect(counter, replicaId, received, elements, pendingInserts, pendingDeletes, op);
      received := received[op.opId := op];
      match op
      case Insert(_, _, _) => ApplyInsertInner(op);
      case Delete(_, _) => ApplyDeleteInner(op);
    }

    method HasSeen(op: Operation) returns (seen: bool)
      requires Valid()
      ensures seen <==> op.opId in received
    {
      RecordedIff(seenOpIds, received, op.opId);
      seen := Key(op.opId) in seenOpIds;
    }

    function PendingCount(): nat
      reads this
    {
      |pendingInserts| + |pendingDeletes|
    }

    // --- reading the document -------------------------------------------------------------

    /** The visible characters in document order, found by a depth-first walk with a stack. */
    method VisibleElements() returns (output: seq<CharElement>)
      requires Valid()
      ensures IdsOf(output) == Visible(received)
      ensures forall e :: e in output ==> e.id in elements && elements[e.id] == e
    {
      ghost var f := ParentsOf(received);
      ghost var visited: seq<ElementId> := [];
      output := [];
      SettledChildren(received, elements, children, pendingInserts, pendingDeletes, Root);
      StartStack(f);
      Neutral(Document(received));
      var root := if Root in children then children[Root] else [];
      var stack := Reverse(root);
      while stack != []
        invariant AllLive(f, stack)
        invariant visited + Unstack(f, stack) == Document(received)
        invariant IdsOf(output) == Keep(visited, VisibleIds(received))
        invariant forall e :: e in output ==> e.id in elements && elements[e.id] == e
        decreases |Document(received)| - |visited|
      {
        var id := stack[|stack| - 1];
        ghost var before := Unstack(f, stack);
        PopAndPush(f, stack);
        SettledNode(received, elements, children, pendingInserts, pendingDeletes, id);
        KeepPush(visited, id, VisibleIds(received));
        stack := stack[..|stack| - 1];
        if id in elements {
          if !elements[id].deleted {
            IdsOfPush(output, elements[id]);
            output := output + [elements[id]];
          }
          if Element(id) in children {
            stack := stack + Reverse(children[Element(id)]);
          }
        }
        Associative(visited, [id], Unstack(f, stack));
        visited := visited + [id];
      }
      Neutral(visited);
    }

    method ToText() returns (text: string)
      requires Valid()
      ensures text == Text(received)
    {
      var visible := VisibleElements();
      VisibleInOrder(received);
      forall i | 0 <= i < |visible| ensures visible[i].value == ValueOf(received, Visible(received)[i]) {
        assert visible[i] in visible && visible[i].id == IdsOf(visible)[i];
        assert Visible(received)[i] in VisibleIds(received);
        SettledNode(received, elements, children, pendingInserts, pendingDeletes, visible[i].id);
      }
      text := seq(|visible|, i requires 0 <= i < |visible| => visible[i].value);
    }

    method VisibleLength() returns (n: nat)
      requires Valid()
      ensures n == |Text(received)|
    {
      var visible := VisibleElements();
      assert |visible| == |IdsOf(visible)|;
      n := |visible|;
    }

    method IdAtVisibleIndex(index: nat) returns (id: Option<ElementId>)
      requires Valid()
      ensures id == if index < |Visible(received)| then Some(Visible(received)[index]) else None
    {
      var visible := VisibleElements();
      assert |visible| == |IdsOf(visible)|;
      if index < |visible| {
        assert visible[index].id == IdsOf(visible)[index];
        id := Some(visible[index].id);
      } else {
        id := None;
      }
    }

    // --- snapshots ------------------------------------------------------------------------

    /** The whole state as lists, each sorted. */
    method TakeSnapshot() returns (s: Snapshot)
      requires Valid()
      ensures Describes(s, received)
      ensures s.replicaId == replicaId && s.counter == counter
      ensures SortedBy(s.elements, ElementBefore) && SortedBy(s.seenOpIds, LexLess)
      ensures SortedBy(s.pendingInserts, OperationBefore) && SortedBy(s.pendingDeletes, OperationBefore)
    {
      forall id
        ensures id in elements ==> elements[id].id == id
        ensures id in pendingInserts ==> pendingInserts[id].opId == id
        ensures id in pendingDeletes ==> pendingDeletes[id].opId == id
      {
        PartialIds(received, elements, pendingInserts, pendingDeletes, id);
      }
      LexStrictTotal();
      s := Snapshot(replicaId, counter, ValueList(elements), Listing(seenOpIds, LexLess),
                    ValueList(pendingInserts), ValueList(pendingDeletes));
      ElementsListed(elements);
      OperationsListed(pendingInserts);
      OperationsListed(pendingDeletes);
      RecordedIsSeenOf(seenOpIds, received);
      SettledIsDenotation(received, elements, pendingInserts, pendingDeletes);
    }

    /**
     * Rebuilds a replica from a snapshot under a replica id of its own. If the snapshot describes
     * a set of operations, the new replica is as if it had received them one by one.
     */
    constructor FromSnapshot(s: Snapshot, replicaId: string, ghost ops: OpSet)
      ensures this.replicaId == replicaId
      ensures Restored(s.elements, elements)
      ensures forall k :: k in children ==> children[k] == Kids(ParentsIn(elements), k)
      ensures forall key :: key in seenOpIds <==> key in s.seenOpIds
      ensures RestoredOps(s.pendingInserts, pendingInserts) && RestoredOps(s.pendingDeletes, pendingDeletes)
      ensures Attained(s, replicaId, counter)
      ensures s.replicaId == replicaId ==> s.counter <= counter
      ensures Describes(s, ops) ==> Valid() && received == ops && OwnIdsCounted(ops, replicaId, counter)
    {
      this.replicaId := replicaId;
      counter := 0;
      elements := map[];
      children := map[Root := []];
      seenOpIds := {};
      pendingInserts := map[];
      pendingDeletes := map[];
      received := ops;
      new;
      Restore(s);
      if Describes(s, ops) {
        RestoredIsSettled(s, ops, replicaId, counter, elements, children, seenOpIds, pendingInserts, pendingDeletes);
      }
    }

    /** The body of `FromSnapshot`, on an empty replica. */
    method Restore(s: Snapshot)
      requires elements == map[] && seenOpIds == {}
      modifies this`counter, this`elements, this`children, this`seenOpIds, this`pendingInserts, this`pendingDeletes
      ensures Restored(s.elements, elements)
      ensures forall k :: k in children ==> children[k] == Kids(ParentsIn(elements), k)
      ensures Closed(elements) ==> Indexed(elements, children)
      ensures forall key :: key in seenOpIds <==> key in s.seenOpIds
      ensures RestoredOps(s.pendingInserts, pendingInserts) && RestoredOps(s.pendingDeletes, pendingDeletes)
      ensures Attained(s, replicaId, counter)
      ensures s.replicaId == replicaId ==> s.counter <= counter
      ensures forall key :: key in s.seenOpIds ==> KeyAtMost(key, replicaId, counter)
    {
      counter := MaxCounterForReplica(s, replicaId);
      RestoreElements(s.elements);
      RebuildChildren();
      RestoreSeen(s.seenOpIds);
      pendingInserts := RestoreOps(s.pendingInserts);
      pendingDeletes := RestoreOps(s.pendingDeletes);
    }

    method RestoreSeen(list: seq<string>)
      requires seenOpIds == {}
      modifies this`seenOpIds
      ensures forall key :: key in seenOpIds <==> key in list
    {
      for i := 0 to |list|
        invariant forall key :: key in seenOpIds <==> key in list[..i]
      {
        assert list[..i + 1] == list[..i] + [list[i]];
        seenOpIds := seenOpIds + {list[i]};
      }
      assert list[..|list|] == list;
    }

    method RestoreElements(list: seq<CharElement>)
      requires elements == map[]
      modifies this`elements
      ensures Restored(list, elements)
    {
      for i := 0 to |list|
        invariant Restored(list[..i], elements)
      {
        assert list[..i + 1] == list[..i] + [list[i]];
        elements := elements[list[i].id := list[i]];
      }
      assert list[..|list|] == list;
    }

    /** The child index from the elements alone, whatever the order in which they are visited. */
    method RebuildChildren()
      modifies this`children
      ensures forall k :: k in children ==> children[k] == Kids(ParentsIn(elements), k)
      ensures Closed(elements) ==> Indexed(elements, children)
    {
      children := map[Root := []];
      var rest := elements.Keys;
      while rest != {}
        invariant rest <= elements.Keys
        invariant Collected(elements, children, elements.Keys - rest)
        decreases rest
      {
        var id :| id in rest;
        CollectOne(elements, children, elements.Keys - rest, id);
        assert elements.Keys - (rest - {id}) == elements.Keys - rest + {id};
        children := Collect(children, id, elements[id].parentId);
        rest := rest - {id};
      }
      assert elements.Keys - rest == elements.Keys;
      ghost var collected := children;
      var keys := children.Keys;
      while keys != {}
        invariant keys <= children.Keys && children.Keys == collected.Keys
        invariant forall k :: k in children ==>
                    children[k] == if k in keys then collected[k] else Sort(collected[k], Above)
        decreases keys
      {
        var k :| k in keys;
        children := children[k := Sort(children[k], Above)];
        keys := keys - {k};
      }
      forall k
        ensures k in children ==> children[k] == Kids(ParentsIn(elements), k)
        ensures Closed(elements) ==> IndexedAt(elements, children, k)
      {
        assert CollectedAt(elements, collected, elements.Keys, k);
        CollectedAll(elements, collected, k);
      }
    }
  }

  method RestoreOps(list: seq<Operation>) returns (ops: OpSet)
    ensures RestoredOps(list, ops)
  {
    ops := map[];
    for i := 0 to |list|
      invariant RestoredOps(list[..i], ops)
    {
      assert list[..i + 1] == list[..i] + [list[i]];
      ops := ops[list[i].opId := list[i]];
    }
    assert list[..|list|] == list;
  }

  // --- identifiers ----------------------------------------------------------------------

  /**
   * A queued operation does not raise the counter: the next identifier has been received before
   * if and only if an operation that carries it is queued.
   */
  lemma NextIsSeenIff(c: TextCrdt)
    requires c.Valid() && c.counter < U64_MAX
    ensures var next := ElementId(c.counter + 1, c.replicaId);
            next in c.received <==> next in c.pendingInserts || next in c.pendingDeletes
  {
    var next := ElementId(c.counter + 1, c.replicaId);
    assert Counted(c.counter, c.replicaId, c.received, c.pendingInserts, c.pendingDeletes, next);
    if next in c.pendingInserts || next in c.pendingDeletes {
      BufferedIsReceived(c.received, c.elements, c.pendingInserts, c.pendingDeletes, next);
    }
  }

  lemma NothingToHoldOn(ops: OpSet, id: ElementId, x: ElementId)
    requires ops.Keys == {id} && ops[id].Insert? && ops[id].parentId == Element(x)
    ensures !IsLive(ops, id)
  {
    var f := ParentsOf(ops);
    if Live(f, id) {
      LivePath(f, id);
      LivePath(f, x);
      assert false;
    }
  }

  lemma NotLiveIsQueued(c: TextCrdt, id: ElementId)
    requires c.Valid() && id in c.received && c.received[id].Insert? && !IsLive(c.received, id)
    ensures id in c.pendingInserts
  {
    StateIsDenotation(c);
  }

  /** A replica to which an own operation comes back too early issues its identifier again. */
  method QueuedIdentifierComesAgain(replicaId: string, x: ElementId, value: char)
    returns (c: TextCrdt, id: ElementId)
    ensures c.Reflects() && id == ElementId(1, replicaId) && id in c.received && id in c.pendingInserts
  {
    c := new TextCrdt(replicaId);
    var own := ElementId(1, replicaId);
    var _ := c.ApplyOperation(Insert(own, Element(x), value));
    NothingToHoldOn(c.received, own, x);
    NotLiveIsQueued(c, own);
    id := c.NextOperationId();
    StillCovers(0, c.counter, replicaId, c.received, c.pendingInserts, c.pendingDeletes);
  }

  // --- convergence ----------------------------------------------------------------------

  /** A replica's whole state is a function of the operations it received. */
  lemma StateIsDenotation(c: TextCrdt)
    requires c.Valid()
    ensures c.elements == ElementsOf(c.received)
    ensures c.children == IndexOf(ElementsOf(c.received))
    ensures c.seenOpIds == SeenOf(c.received)
    ensures c.pendingInserts == PendingInsertsOf(c.received)
    ensures c.pendingDeletes == PendingDeletesOf(c.received)
  {
    SettledIsDenotation(c.received, c.elements, c.pendingInserts, c.pendingDeletes);
    IndexedIsIndexOf(c.elements, c.children);
    RecordedIsSeenOf(c.seenOpIds, c.received);
  }

  /**
   * Replicas that saw the same operation identifiers, in whatever order and however often, are in
   * the same state. One identifier is taken to name one operation everywhere.
   */
  lemma Convergence(a: TextCrdt, b: TextCrdt)
    requires a.Valid() && b.Valid()
    requires a.seenOpIds == b.seenOpIds
    requires forall id :: id in a.received && id in b.received ==> a.received[id] == b.received[id]
    ensures a.received == b.received
    ensures a.elements == b.elements && a.children == b.children
    ensures a.pendingInserts == b.pendingInserts && a.pendingDeletes == b.pendingDeletes
    ensures Text(a.received) == Text(b.received)
  {
    forall id ensures id in a.received <==> id in b.received {
      RecordedIff(a.seenOpIds, a.received, id);
      RecordedIff(b.seenOpIds, b.received, id);
    }
    SameMap(a.received, b.received);
    StateIsDenotation(a);
    StateIsDenotation(b);
  }
}
