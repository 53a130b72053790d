/** One order for all replicas and all times, and what it means for runs of typed characters. */
module DocumentOrder {
  import opened Ids
  import opened Operations
  import opened Paths
  import opened Tree
  import opened Preorder
  import opened Denotation
  import opened Splice
  import opened EditEffects

  lemma AncestryStable(ops: OpSet, later: OpSet, id: ElementId)
    requires Included(ops, later) && IsLive(ops, id)
    ensures IsLive(later, id) && PathOf(ParentsOf(later), id) == PathOf(ParentsOf(ops), id)
  {
    PathStable(ParentsOf(ops), ParentsOf(later), id);
  }

  /** Of two characters one comes first, and no operation received later swaps them. */
  lemma OrderIsTotalAndFixed(ops: OpSet, later: OpSet, a: ElementId, b: ElementId)
    requires Included(ops, later) && IsLive(ops, a) && IsLive(ops, b) && a != b
    ensures Before(ParentsOf(ops), a, b) <==> !Before(ParentsOf(ops), b, a)
    ensures Before(ParentsOf(later), a, b) <==> Before(ParentsOf(ops), a, b)
  {
    AncestryStable(ops, later, a);
    AncestryStable(ops, later, b);
    var p, q := PathOf(ParentsOf(ops), a), PathOf(ParentsOf(ops), b);
    PathLessTotal(p, q);
    if p == q { PathsDiffer(ParentsOf(ops), a, b); }
    PathLessIrreflexive(p);
    if PathLess(p, q) && PathLess(q, p) { PathLessTransitive(p, q, p); }
  }

  /** Every earlier document, tombstones included, is a subsequence of every later one. */
  lemma EarlierIsSubsequence(ops: OpSet, later: OpSet)
    requires Included(ops, later)
    ensures Document(ops) == Keep(Document(later), LiveIds(ParentsOf(ops)))
  {
    var f, g := ParentsOf(ops), ParentsOf(later);
    var kept := Keep(Document(later), LiveIds(f));
    TraversalSorted(g);
    KeepInOrder(g, Document(later), LiveIds(f));
    forall x ensures x in kept <==> Live(f, x) {
      KeepMembers(Document(later), LiveIds(f), x);
      if Live(f, x) {
        LivePath(f, x);
        AncestryStable(ops, later, x);
      }
    }
    forall x | x in kept ensures PathOf(g, x) == PathOf(f, x) {
      AncestryStable(ops, later, x);
    }
    assert InOrder(f, kept);
    TraversalUnique(f, kept);
  }

  // --- runs -----------------------------------------------------------------------------

  /** Characters each of which is anchored to the one before. */
  ghost predicate IsRun(f: Parents, ids: seq<ElementId>) {
    && ids != []
    && (forall i :: 0 <= i < |ids| ==> Live(f, ids[i]))
    && (forall i :: 0 < i < |ids| ==> ids[i] in f && f[ids[i]] == Element(ids[i - 1]))
  }

  ghost predicate Descends(f: Parents, root: ElementId, x: ElementId) {
    PathOf(f, root) <= PathOf(f, x)
  }

  lemma {:induction false} RunDescends(f: Parents, ids: seq<ElementId>, i: nat)
    requires IsRun(f, ids) && i < |ids|
    ensures Descends(f, ids[0], ids[i])
  {
    if i > 0 {
      RunDescends(f, ids, i - 1);
      LivePath(f, ids[i]);
    }
  }

  /** Whatever stands between two characters of a run is below the run's first character. */
  lemma BetweenIsBelow(f: Parents, ids: seq<ElementId>, i: nat, k: nat, x: ElementId)
    requires IsRun(f, ids) && i < |ids| && k < |ids| && Live(f, x)
    requires Before(f, ids[i], x) && Before(f, x, ids[k])
    ensures Descends(f, ids[0], x)
  {
    RunDescends(f, ids, i);
    RunDescends(f, ids, k);
    var p, q, y := PathOf(f, ids[0]), PathOf(f, ids[k]), PathOf(f, x);
    if PathLess(y, p) {
      if p != PathOf(f, ids[i]) {
        PathLessPrefix(p, PathOf(f, ids[i]));
        PathLessTransitive(y, p, PathOf(f, ids[i]));
      }
      PathLessTransitive(y, PathOf(f, ids[i]), y);
      PathLessIrreflexive(y);
    }
    if PathLess(q, y) {
      PathLessTransitive(q, y, q);
      PathLessIrreflexive(q);
    }
    PathBetween(p, y, q);
  }

  /** Two runs typed at the same place never mix: no character of one is inside the other. */
  lemma RunsStayApart(f: Parents, a: seq<ElementId>, b: seq<ElementId>, i: nat, j: nat, k: nat)
    requires IsRun(f, a) && IsRun(f, b) && i < |a| && k < |a| && j < |b|
    requires a[0] in f && b[0] in f && f[a[0]] == f[b[0]] && a[0] != b[0]
    ensures !(Before(f, a[i], b[j]) && Before(f, b[j], a[k]))
  {
    if Before(f, a[i], b[j]) && Before(f, b[j], a[k]) {
      BetweenIsBelow(f, a, i, k, b[j]);
      RunDescends(f, b, j);
      BelowChild(f, a[0], b[j]);
      BelowChild(f, b[0], b[j]);
    }
  }

  lemma BelowChild(f: Parents, c: ElementId, x: ElementId)
    requires Live(f, c) && Descends(f, c, x)
    ensures c in f && |AnchorPath(f, f[c])| < |PathOf(f, x)| && PathOf(f, x)[|AnchorPath(f, f[c])|] == c
  {
    LivePath(f, c);
  }

  /** What `insert` issues is a run, wherever and whenever it has been received. */
  lemma {:induction false} IssuedRun(ops: OpSet, replicaId: string, counter: u64,
                                     anchor: ParentId, text: string, n: nat)
    requires 0 < n <= |text| && counter + |text| <= U64_MAX && LiveAnchor(ParentsOf(ops), anchor)
    requires forall k :: 0 <= k < |text| ==> HasRunOp(ops, replicaId, counter, anchor, text, k)
    ensures IsRun(ParentsOf(ops), RunIds(replicaId, counter, n))
  {
    var f, ids := ParentsOf(ops), RunIds(replicaId, counter, n);
    assert HasRunOp(ops, replicaId, counter, anchor, text, n - 1);
    if n > 1 {
      IssuedRun(ops, replicaId, counter, anchor, text, n - 1);
      assert ids == RunIds(replicaId, counter, n - 1) + [ids[n - 1]];
      assert Live(f, RunIds(replicaId, counter, n - 1)[n - 2]);
    }
    ChildPath(f, ids[n - 1]);
  }
}
