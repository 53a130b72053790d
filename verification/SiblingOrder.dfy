/**
 * The document order in plain terms: an anchor before what hangs on it, siblings from the higher
 * counter and then the greater replica id down, and everything below a sibling along with it.
 */
module SiblingOrder {
  import opened Ids
  import opened Operations
  import opened Paths
  import opened Tree
  import opened Preorder
  import opened Denotation
  import opened Splice

  /** What comes before by root paths stands before in the document, and the other way round. */
  lemma StandsBefore(ops: OpSet, a: ElementId, b: ElementId)
    requires IsLive(ops, a) && IsLive(ops, b)
    ensures Before(ParentsOf(ops), a, b) <==>
              exists i, j :: 0 <= i < j < |Document(ops)| && Document(ops)[i] == a && Document(ops)[j] == b
  {
    var f, t := ParentsOf(ops), Document(ops);
    TraversalSorted(f);
    var i :| 0 <= i < |t| && t[i] == a;
    var j :| 0 <= j < |t| && t[j] == b;
    if Before(f, a, b) { NeverBeforeItself(f, t, i, j); }
  }

  /** Two characters at one anchor, by their own paths. */
  lemma SiblingsByIdentifier(f: Parents, a: ElementId, b: ElementId)
    requires Live(f, a) && Live(f, b) && a in f && b in f && f[a] == f[b] && Less(b, a)
    ensures Before(f, a, b)
  {
    LivePath(f, a);
    LivePath(f, b);
    PathLessCommon(AnchorPath(f, f[a]), [a], [b]);
  }

  /** The higher counter comes first, whatever the replica ids. */
  lemma HigherCounterFirst(ops: OpSet, a: ElementId, b: ElementId)
    requires a in ops && b in ops && ops[a].Insert? && ops[b].Insert? && IsLive(ops, a) && IsLive(ops, b)
    requires ops[a].parentId == ops[b].parentId && a.counter > b.counter
    ensures exists i, j :: 0 <= i < j < |Document(ops)| && Document(ops)[i] == a && Document(ops)[j] == b
  {
    SiblingsByIdentifier(ParentsOf(ops), a, b);
    StandsBefore(ops, a, b);
  }

  /**
   * With equal counters, the one comes first whose replica id is greater at the first position
   * where they differ, or continues where the other ends.
   */
  lemma GreaterReplicaFirst(ops: OpSet, a: ElementId, b: ElementId, k: nat)
    requires a in ops && b in ops && ops[a].Insert? && ops[b].Insert? && IsLive(ops, a) && IsLive(ops, b)
    requires ops[a].parentId == ops[b].parentId && a.counter == b.counter
    requires k <= |b.replicaId| && k < |a.replicaId| && b.replicaId[..k] == a.replicaId[..k]
    requires k == |b.replicaId| || b.replicaId[k] < a.replicaId[k]
    ensures exists i, j :: 0 <= i < j < |Document(ops)| && Document(ops)[i] == a && Document(ops)[j] == b
  {
    LexIsFirstDifference(b.replicaId, a.replicaId);
    SiblingsByIdentifier(ParentsOf(ops), a, b);
    StandsBefore(ops, a, b);
  }

  /** A character comes after the one it is anchored to. */
  lemma AnchorFirst(ops: OpSet, id: ElementId)
    requires id in ops && ops[id].Insert? && IsLive(ops, id) && ops[id].parentId.Element?
    ensures exists i, j :: 0 <= i < j < |Document(ops)|
              && Document(ops)[i] == ops[id].parentId.id && Document(ops)[j] == id
  {
    var f := ParentsOf(ops);
    LivePath(f, id);
    PathLessPrefix(PathOf(f, ops[id].parentId.id), PathOf(f, id));
    StandsBefore(ops, ops[id].parentId.id, id);
  }

  /** Everything at or below a sibling comes before everything at or below a later one. */
  lemma SubtreesFollowSiblings(ops: OpSet, a: ElementId, b: ElementId, x: ElementId, y: ElementId)
    requires a in ops && b in ops && ops[a].Insert? && ops[b].Insert? && ops[a].parentId == ops[b].parentId
    requires IsLive(ops, a) && IsLive(ops, b) && IsLive(ops, x) && IsLive(ops, y)
    requires PathOf(ParentsOf(ops), a) <= PathOf(ParentsOf(ops), x)
    requires PathOf(ParentsOf(ops), b) <= PathOf(ParentsOf(ops), y)
    requires Before(ParentsOf(ops), a, b)
    ensures exists i, j :: 0 <= i < j < |Document(ops)| && Document(ops)[i] == x && Document(ops)[j] == y
  {
    var f := ParentsOf(ops);
    LivePath(f, a);
    LivePath(f, b);
    var pp := AnchorPath(f, f[a]);
    PathLessCommon(pp, [a], [b]);
    WalkStep(pp, a, PathOf(f, x), PathOf(f, y));
    StandsBefore(ops, x, y);
  }

  /** "a" typed by A and "b" typed by B at the start of an empty document read "ba" everywhere. */
  lemma ConcurrentCharacters()
    ensures var a, b := ElementId(1, "A"), ElementId(1, "B");
            Text(map[a := Insert(a, Root, 'a'), b := Insert(b, Root, 'b')]) == "ba"
  {
    var a, b := ElementId(1, "A"), ElementId(1, "B");
    var ops := map[a := Insert(a, Root, 'a'), b := Insert(b, Root, 'b')];
    var f := ParentsOf(ops);
    ChildPath(f, a);
    ChildPath(f, b);
    LexIsFirstDifference(a.replicaId, b.replicaId);
    assert a.replicaId[..0] == b.replicaId[..0];
    SiblingsByIdentifier(f, b, a);
    assert VisibleIds(ops) == {a, b};
    VisibleUnique(ops, [b, a]);
  }
}
