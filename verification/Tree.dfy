/**
 * The tree that anchors describe, and its depth-first order. A node counts as live when its
 * anchors lead to the root; anchors may also dangle or run in a circle.
 */
module Tree {
  import opened Ids
  import opened Sorting
  import opened Paths

  type Parents = map<ElementId, ParentId>

  /** `p` runs from a child of the root down to `id`, one anchor at a time. */
  ghost predicate Traces(f: Parents, p: Path, id: ElementId) {
    && p != [] && p[|p| - 1] == id
    && p[0] in f && f[p[0]] == Root
    && forall i :: 0 < i < |p| ==> p[i] in f && f[p[i]] == Element(p[i - 1])
  }

  ghost predicate Live(f: Parents, id: ElementId) {
    exists p :: Traces(f, p, id)
  }

  /** The path from the root to `id`, empty for a node that is not live. */
  ghost function PathOf(f: Parents, id: ElementId): Path {
    if Live(f, id) then var p :| Traces(f, p, id); p else []
  }

  ghost function AnchorPath(f: Parents, k: ParentId): Path {
    match k
    case Root => []
    case Element(id) => PathOf(f, id)
  }

  ghost predicate LiveAnchor(f: Parents, k: ParentId) {
    k.Element? ==> Live(f, k.id)
  }

  ghost function LiveIds(f: Parents): set<ElementId> {
    set id | id in f && Live(f, id)
  }

  ghost predicate Before(f: Parents, a: ElementId, b: ElementId) {
    PathLess(PathOf(f, a), PathOf(f, b))
  }

  lemma {:induction false} TraceUnique(f: Parents, p: Path, q: Path, id: ElementId)
    requires Traces(f, p, id) && Traces(f, q, id)
    ensures p == q
  {
    assert |p| > 1 ==> f[p[|p| - 1]] == Element(p[|p| - 2]);
    assert |q| > 1 ==> f[q[|q| - 1]] == Element(q[|q| - 2]);
    if |p| > 1 && |q| > 1 {
      var i, j := |p| - 1, |q| - 1;
      assert p[i] == q[j] && f[p[i]] == Element(p[i - 1]) && f[q[j]] == Element(q[j - 1]);
      assert p == p[..i] + [id] && q == q[..j] + [id];
      TraceUnique(f, p[..i], q[..j], p[i - 1]);
    }
  }

  lemma PathIs(f: Parents, p: Path, id: ElementId)
    requires Traces(f, p, id)
    ensures Live(f, id) && PathOf(f, id) == p
  {
    TraceUnique(f, p, PathOf(f, id), id);
  }

  /** A node below a live anchor is live, and its path extends the anchor's. */
  lemma ChildPath(f: Parents, id: ElementId)
    requires id in f && LiveAnchor(f, f[id])
    ensures Live(f, id) && PathOf(f, id) == AnchorPath(f, f[id]) + [id]
  {
    PathIs(f, AnchorPath(f, f[id]) + [id], id);
  }

  /** Every node on the path of a live node is live, and its own path is the part up to it. */
  lemma AncestorPath(f: Parents, id: ElementId, k: nat)
    requires Live(f, id) && k < |PathOf(f, id)|
    ensures PathOf(f, id)[k] in f && Live(f, PathOf(f, id)[k])
    ensures PathOf(f, PathOf(f, id)[k]) == PathOf(f, id)[..k + 1]
    ensures AnchorPath(f, f[PathOf(f, id)[k]]) == PathOf(f, id)[..k]
  {
    var p := PathOf(f, id);
    PathIs(f, p[..k + 1], p[k]);
    if k > 0 {
      PathIs(f, p[..k], p[k - 1]);
    }
  }

  /** A live node is in the map, its anchor is live, and its path ends with the node itself. */
  lemma LivePath(f: Parents, id: ElementId)
    requires Live(f, id)
    ensures id in f && LiveAnchor(f, f[id])
    ensures PathOf(f, id) == AnchorPath(f, f[id]) + [id]
  {
    var p := PathOf(f, id);
    AncestorPath(f, id, |p| - 1);
    if |p| > 1 { AncestorPath(f, id, |p| - 2); }
    assert p == p[..|p| - 1] + [id];
  }

  /** The live nodes are the least set that contains every node whose anchor is the root or in it. */
  lemma {:induction false} LiveLeast(f: Parents, s: set<ElementId>, id: ElementId)
    requires forall x :: x in f && (f[x].Element? ==> f[x].id in s) ==> x in s
    requires Live(f, id)
    ensures id in s
    decreases |PathOf(f, id)|
  {
    LivePath(f, id);
    if f[id].Element? {
      LiveLeast(f, s, f[id].id);
    }
  }

  /** More nodes leave the paths of the live ones as they are. */
  lemma PathStable(f: Parents, g: Parents, id: ElementId)
    requires forall x :: x in f ==> x in g && g[x] == f[x]
    requires Live(f, id)
    ensures Live(g, id) && PathOf(g, id) == PathOf(f, id)
  {
    PathIs(g, PathOf(f, id), id);
  }

  lemma PathsDiffer(f: Parents, a: ElementId, b: ElementId)
    requires Live(f, a) && Live(f, b) && PathOf(f, a) == PathOf(f, b)
    ensures a == b
  {
  }

  // --- the sorted traversal -------------------------------------------------------------

  ghost predicate InOrder(f: Parents, s: seq<ElementId>) {
    && (forall x :: x in s ==> Live(f, x))
    && (forall i, j :: 0 <= i < j < |s| ==> Before(f, s[i], s[j]))
  }

  lemma NeverBeforeItself(f: Parents, s: seq<ElementId>, i: nat, j: nat)
    requires InOrder(f, s) && i < |s| && j < |s| && Before(f, s[i], s[j])
    ensures i < j && s[i] != s[j]
  {
    PathLessIrreflexive(PathOf(f, s[i]));
    if j < i {
      PathLessTransitive(PathOf(f, s[i]), PathOf(f, s[j]), PathOf(f, s[i]));
    }
  }

  lemma BeforeAsymmetric(f: Parents)
    ensures Asymmetric((a, b) => Before(f, a, b))
  {
    forall a, b | Before(f, a, b) ensures !Before(f, b, a) {
      var p, q := PathOf(f, a), PathOf(f, b);
      PathLessIrreflexive(p);
      if PathLess(q, p) { PathLessTransitive(p, q, p); }
    }
  }

  /** A list in document order is determined by the set of its nodes. */
  lemma InOrderUnique(f: Parents, s: seq<ElementId>, t: seq<ElementId>)
    requires InOrder(f, s) && InOrder(f, t)
    requires forall x :: x in s <==> x in t
    ensures s == t
  {
    BeforeAsymmetric(f);
    SortedUnique(s, t, (a, b) => Before(f, a, b));
  }
}
