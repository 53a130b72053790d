/** Operations, elements, snapshots and results (operation.rs, snapshot.rs, error.rs). */
module Operations {
  import opened Ids

  datatype Operation =
    | Insert(opId: ElementId, parentId: ParentId, value: char)
    | Delete(opId: ElementId, targetId: ElementId)

  datatype CharElement = CharElement(id: ElementId, value: char, parentId: ParentId, deleted: bool)

  datatype ApplyStatus = Applied | Duplicate | Queued

  datatype ApplyResult = ApplyResult(status: ApplyStatus, opId: string, drained: nat)

  datatype ApplyError = OutOfRange(index: nat, length: nat)

  datatype Snapshot = Snapshot(
    replicaId: string,
    counter: u64,
    elements: seq<CharElement>,
    seenOpIds: seq<string>,
    pendingInserts: seq<Operation>,
    pendingDeletes: seq<Operation>)

  /** A set of operations with distinct identifiers, as a map from identifier to operation. */
  type OpSet = map<ElementId, Operation>

  ghost predicate Keyed(ops: OpSet) {
    forall id :: id in ops ==> ops[id].opId == id
  }

  /** Receiving an operation: the first one with a given identifier counts. */
  ghost function Receive(ops: OpSet, op: Operation): OpSet {
    if op.opId in ops then ops else ops[op.opId := op]
  }

  ghost function ReceiveAll(ops: OpSet, s: seq<Operation>): OpSet {
    if s == [] then ops else Receive(ReceiveAll(ops, s[..|s| - 1]), s[|s| - 1])
  }

  ghost predicate Included(a: OpSet, b: OpSet) {
    forall id :: id in a ==> id in b && b[id] == a[id]
  }

  lemma {:induction false} ReceiveAllIncludes(ops: OpSet, s: seq<Operation>)
    ensures Included(ops, ReceiveAll(ops, s))
  {
    if s != [] {
      ReceiveAllIncludes(ops, s[..|s| - 1]);
    }
  }

  lemma {:induction false} ReceiveAllConcat(ops: OpSet, s: seq<Operation>, t: seq<Operation>)
    ensures ReceiveAll(ops, s + t) == ReceiveAll(ReceiveAll(ops, s), t)
  {
    if t == [] {
      assert s + t == s;
    } else {
      ReceiveAllConcat(ops, s, t[..|t| - 1]);
      assert (s + t)[..|s + t| - 1] == s + t[..|t| - 1];
    }
  }

  /** The identifiers received are those there were and those of the list, in whatever order. */
  lemma {:induction false} ReceiveAllIds(ops: OpSet, s: seq<Operation>, id: ElementId)
    ensures id in ReceiveAll(ops, s) <==> id in ops || exists i :: 0 <= i < |s| && s[i].opId == id
  {
    if s != [] {
      var n := |s| - 1;
      ReceiveAllIds(ops, s[..n], id);
      assert forall i :: 0 <= i < n ==> s[..n][i] == s[i];
    }
  }
}
