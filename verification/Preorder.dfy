/** The recursive depth-first order of the tree, and why it is the order of root paths. */
module Preorder {
  import opened Ids
  import opened Sorting
  import opened Paths
  import opened Tree

  ghost function ChildSet(f: Parents, k: ParentId): set<ElementId> {
    set id | id in f && f[id] == k
  }

  /** The children of an anchor, highest identifier first. */
  ghost function Kids(f: Parents, k: ParentId): seq<ElementId> {
    Descending(ChildSet(f, k))
  }

  /** The live nodes whose path is longer than `d`: what bounds the depth of the recursion. */
  ghost function Deeper(f: Parents, d: nat): set<ElementId> {
    set id | id in f && Live(f, id) && |PathOf(f, id)| > d
  }

  ghost predicate AtDepth(f: Parents, ids: seq<ElementId>, d: nat) {
    forall i :: 0 <= i < |ids| ==> Live(f, ids[i]) && |PathOf(f, ids[i])| == d + 1
  }

  lemma KidsDeeper(f: Parents, id: ElementId)
    requires Live(f, id)
    ensures AtDepth(f, Kids(f, Element(id)), |PathOf(f, id)|)
    ensures Deeper(f, |PathOf(f, id)|) < Deeper(f, |PathOf(f, id)| - 1)
  {
    var kids := Kids(f, Element(id));
    forall i | 0 <= i < |kids|
      ensures Live(f, kids[i]) && |PathOf(f, kids[i])| == |PathOf(f, id)| + 1
    {
      assert kids[i] in ChildSet(f, Element(id));
      ChildPath(f, kids[i]);
    }
    LivePath(f, id);
    assert id in Deeper(f, |PathOf(f, id)| - 1) && id !in Deeper(f, |PathOf(f, id)|);
  }

  /** Each of the nodes `ids` followed by everything below it, in turn. */
  ghost function Walk(f: Parents, ids: seq<ElementId>, d: nat): seq<ElementId>
    requires AtDepth(f, ids, d)
    decreases Deeper(f, d), |ids|
  {
    if ids == [] then [] else
      KidsDeeper(f, ids[0]);
      [ids[0]] + Walk(f, Kids(f, Element(ids[0])), d + 1) + Walk(f, ids[1..], d)
  }

  lemma RootKids(f: Parents)
    ensures AtDepth(f, Kids(f, Root), 0)
  {
    forall i | 0 <= i < |Kids(f, Root)|
      ensures Live(f, Kids(f, Root)[i]) && |PathOf(f, Kids(f, Root)[i])| == 1
    {
      assert Kids(f, Root)[i] in ChildSet(f, Root);
      ChildPath(f, Kids(f, Root)[i]);
    }
  }

  /** The whole document, tombstones included. */
  ghost function Traversal(f: Parents): seq<ElementId> {
    RootKids(f);
    Walk(f, Kids(f, Root), 0)
  }

  ghost predicate SiblingsAt(f: Parents, pp: Path, ids: seq<ElementId>) {
    && SortedBy(ids, Above)
    && forall i :: 0 <= i < |ids| ==> Live(f, ids[i]) && PathOf(f, ids[i]) == pp + [ids[i]]
  }

  /** Nodes at or below one of `ids`, all children of the node at `pp`. */
  ghost predicate AtOrBelow(f: Parents, pp: Path, ids: seq<ElementId>, x: ElementId) {
    Live(f, x) && pp < PathOf(f, x) && PathOf(f, x)[|pp|] in ids
  }

  lemma KidsAreSiblings(f: Parents, k: ParentId)
    requires LiveAnchor(f, k)
    ensures SiblingsAt(f, AnchorPath(f, k), Kids(f, k))
  {
    var kids := Kids(f, k);
    forall i | 0 <= i < |kids|
      ensures Live(f, kids[i]) && PathOf(f, kids[i]) == AnchorPath(f, k) + [kids[i]]
    {
      assert kids[i] in ChildSet(f, k);
      ChildPath(f, kids[i]);
    }
  }

  /** A walk meets exactly the nodes at or below its starting points. */
  lemma {:induction false} WalkMembers(f: Parents, pp: Path, ids: seq<ElementId>, x: ElementId)
    requires SiblingsAt(f, pp, ids)
    ensures AtDepth(f, ids, |pp|)
    ensures x in Walk(f, ids, |pp|) <==> AtOrBelow(f, pp, ids, x)
    decreases Deeper(f, |pp|), |ids|
  {
    if ids != [] {
      var id := ids[0];
      var below := pp + [id];
      KidsDeeper(f, id);
      KidsAreSiblings(f, Element(id));
      WalkMembers(f, below, Kids(f, Element(id)), x);
      WalkMembers(f, pp, ids[1..], x);
      assert AtOrBelow(f, pp, ids, x) <==>
             x == id || AtOrBelow(f, below, Kids(f, Element(id)), x) || AtOrBelow(f, pp, ids[1..], x)
      by {
        FirstOrRest(f, pp, ids, x);
      }
    }
  }

  lemma FirstOrRest(f: Parents, pp: Path, ids: seq<ElementId>, x: ElementId)
    requires SiblingsAt(f, pp, ids) && ids != []
    ensures AtOrBelow(f, pp, ids, x) <==>
              x == ids[0] || AtOrBelow(f, pp + [ids[0]], Kids(f, Element(ids[0])), x) || AtOrBelow(f, pp, ids[1..], x)
  {
    var id := ids[0];
    if Live(f, x) && pp < PathOf(f, x) && PathOf(f, x)[|pp|] == id {
      var px := PathOf(f, x);
      assert pp + [id] <= px;
      if |px| == |pp| + 1 {
        LivePath(f, x);
        assert x == id;
      } else {
        AncestorPath(f, x, |pp| + 1);
        assert f[px[|pp| + 1]] == Element(px[|pp|]);
        assert px[|pp| + 1] in ChildSet(f, Element(id));
      }
    }
    if AtOrBelow(f, pp + [id], Kids(f, Element(id)), x) {
      assert PathOf(f, x)[|pp|] == (pp + [id])[|pp|] == id;
    }
    assert ids == [id] + ids[1..];
  }

  /** A walk over descending siblings is in document order. */
  lemma {:induction false} WalkInOrder(f: Parents, pp: Path, ids: seq<ElementId>)
    requires SiblingsAt(f, pp, ids)
    ensures AtDepth(f, ids, |pp|)
    ensures InOrder(f, Walk(f, ids, |pp|))
    decreases Deeper(f, |pp|), |ids|
  {
    if ids != [] {
      var id := ids[0];
      KidsDeeper(f, id);
      KidsAreSiblings(f, Element(id));
      WalkInOrder(f, pp + [id], Kids(f, Element(id)));
      WalkInOrder(f, pp, ids[1..]);
      FirstThenRest(f, pp, ids);
    }
  }

  lemma FirstThenRest(f: Parents, pp: Path, ids: seq<ElementId>)
    requires SiblingsAt(f, pp, ids) && ids != []
    requires AtDepth(f, ids[1..], |pp|) && AtDepth(f, Kids(f, Element(ids[0])), |pp| + 1)
    requires InOrder(f, Walk(f, Kids(f, Element(ids[0])), |pp| + 1)) && InOrder(f, Walk(f, ids[1..], |pp|))
    ensures InOrder(f, [ids[0]] + Walk(f, Kids(f, Element(ids[0])), |pp| + 1) + Walk(f, ids[1..], |pp|))
  {
    var id := ids[0];
    var inner := Walk(f, Kids(f, Element(id)), |pp| + 1);
    var rest := Walk(f, ids[1..], |pp|);
    KidsAreSiblings(f, Element(id));
    forall y | y in inner ensures pp + [id] < PathOf(f, y) {
      WalkMembers(f, pp + [id], Kids(f, Element(id)), y);
    }
    forall y | y in rest ensures pp < PathOf(f, y) && Above(id, PathOf(f, y)[|pp|]) {
      WalkMembers(f, pp, ids[1..], y);
    }
    Assemble(f, pp, id, inner, rest);
  }

  /** A node, then what is below it, then what is at or below its lower siblings. */
  lemma Assemble(f: Parents, pp: Path, id: ElementId, inner: seq<ElementId>, rest: seq<ElementId>)
    requires Live(f, id) && PathOf(f, id) == pp + [id]
    requires InOrder(f, inner) && InOrder(f, rest)
    requires forall y :: y in inner ==> pp + [id] < PathOf(f, y)
    requires forall y :: y in rest ==> pp < PathOf(f, y) && Above(id, PathOf(f, y)[|pp|])
    ensures InOrder(f, [id] + inner + rest)
  {
    forall y | y in inner ensures Before(f, id, y) {
      PathLessPrefix(PathOf(f, id), PathOf(f, y));
    }
    forall x, y | (x == id || x in inner) && y in rest ensures Before(f, x, y) {
      WalkStep(pp, id, PathOf(f, x), PathOf(f, y));
    }
    var less := (a, b) => Before(f, a, b);
    assert SortedBy([id], less) && SortedBy(inner, less) && SortedBy(rest, less);
    ConcatSorted([id], inner, less);
    ConcatSorted([id] + inner, rest, less);
    var w := [id] + inner + rest;
    forall i, j | 0 <= i < j < |w| ensures Before(f, w[i], w[j]) {
      assert less(w[i], w[j]);
    }
  }

  lemma WalkStep(pp: Path, id: ElementId, px: Path, py: Path)
    requires pp + [id] <= px && pp < py && Above(id, py[|pp|])
    ensures PathLess(px, py)
  {
    assert px == pp + px[|pp|..] && py == pp + py[|pp|..];
    PathLessCommon(pp, px[|pp|..], py[|pp|..]);
  }

  /** The traversal lists every live node, once, in the order of root paths. */
  lemma TraversalSorted(f: Parents)
    ensures InOrder(f, Traversal(f))
    ensures forall x :: x in Traversal(f) <==> Live(f, x)
    ensures NoDuplicates(Traversal(f))
  {
    KidsAreSiblings(f, Root);
    WalkInOrder(f, [], Kids(f, Root));
    forall x ensures x in Traversal(f) <==> Live(f, x) {
      WalkMembers(f, [], Kids(f, Root), x);
      if Live(f, x) {
        AncestorPath(f, x, 0);
        assert PathOf(f, x)[0] in ChildSet(f, Root);
      }
    }
    var t := Traversal(f);
    forall i, j | 0 <= i < j < |t| ensures t[i] != t[j] {
      NeverBeforeItself(f, t, i, j);
    }
  }

  /** Whatever lists the live nodes in document order is the traversal. */
  lemma TraversalUnique(f: Parents, s: seq<ElementId>)
    requires InOrder(f, s) && forall x :: x in s <==> Live(f, x)
    ensures s == Traversal(f)
  {
    TraversalSorted(f);
    InOrderUnique(f, s, Traversal(f));
  }
}
