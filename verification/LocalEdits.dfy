/** The operations a local edit issues. */
module LocalEdits {
  import opened Ids
  import opened Operations

  /** The anchor for visible position `index`: the visible character before it, or the root. */
  function AnchorAt(visible: seq<ElementId>, index: nat): ParentId
    requires index <= |visible|
  {
    if index == 0 then Root else Element(visible[index - 1])
  }

  /** One insert for each character, each anchored to the one before. */
  function RunOps(replicaId: string, counter: u64, anchor: ParentId, text: string): (ops: seq<Operation>)
    requires counter + |text| <= U64_MAX
    ensures |ops| == |text|
  {
    seq(|text|, k requires 0 <= k < |text| =>
      Insert(ElementId(counter + 1 + k, replicaId),
             if k == 0 then anchor else Element(ElementId(counter + k, replicaId)),
             text[k]))
  }

  /** One delete for each of the named characters. */
  function StrikeOps(replicaId: string, counter: u64, targets: seq<ElementId>): (ops: seq<Operation>)
    requires counter + |targets| <= U64_MAX
    ensures |ops| == |targets|
  {
    seq(|targets|, k requires 0 <= k < |targets| =>
      Delete(ElementId(counter + 1 + k, replicaId), targets[k]))
  }

  // --- what keeps a replica's identifiers its own ---------------------------------------

  ghost predicate RefersTo(op: Operation, id: ElementId) {
    (op.Insert? && op.parentId == Element(id)) || (op.Delete? && op.targetId == id)
  }

  /** Every operation received that carries this replica's identifier was counted. */
  ghost predicate OwnIdsCounted(ops: OpSet, replicaId: string, counter: u64) {
    forall id :: id in ops && id.replicaId == replicaId ==> id.counter <= counter
  }

  /** No operation received refers to an identifier this replica has still to issue. */
  ghost predicate OwnRefsCounted(ops: OpSet, replicaId: string, counter: u64) {
    forall id, r {:trigger RefersTo(ops[id], r)} ::
      id in ops && RefersTo(ops[id], r) && r.replicaId == replicaId ==> r.counter <= counter
  }

  ghost predicate OneLineage(ops: OpSet, replicaId: string, counter: u64) {
    OwnIdsCounted(ops, replicaId, counter) && OwnRefsCounted(ops, replicaId, counter)
  }

  ghost predicate Unreferenced(ops: OpSet, id: ElementId) {
    forall x {:trigger RefersTo(ops[x], id)} :: x in ops ==> !RefersTo(ops[x], id)
  }
}
