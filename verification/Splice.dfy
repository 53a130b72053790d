/**
 * Where characters land. A new character goes after its anchor and after everything below those
 * children of the anchor that have a higher identifier; the rest of the document keeps its order.
 */
module Splice {
  import opened Ids
  import opened Sorting
  import opened Operations
  import opened Paths
  import opened Tree
  import opened Preorder
  import opened Denotation
  import opened LocalEdits

  /** `y` lies at or below a child of anchor `k` that is higher than `n`. */
  ghost predicate UnderHigher(f: Parents, k: ParentId, n: ElementId, y: ElementId) {
    AnchorPath(f, k) < PathOf(f, y) && Less(n, PathOf(f, y)[|AnchorPath(f, k)|])
  }

  ghost function HigherIds(ops: OpSet, k: ParentId, n: ElementId): set<ElementId> {
    set y | y in ops && UnderHigher(ParentsOf(ops), k, n, y)
  }

  /** The visible characters that a new character `n` at anchor `k` has to pass. */
  ghost function Passed(ops: OpSet, k: ParentId, n: ElementId): nat {
    |Keep(Visible(ops), HigherIds(ops, k, n))|
  }

  // --- a new leaf -----------------------------------------------------------------------

  ghost predicate Fresh(f: Parents, n: ElementId) {
    n !in f && forall y :: y in f ==> f[y] != Element(n)
  }

  lemma NewLeafLive(f: Parents, n: ElementId, k: ParentId, y: ElementId)
    requires Fresh(f, n) && LiveAnchor(f, k)
    ensures Live(f[n := k], y) <==> Live(f, y) || y == n
  {
    var g := f[n := k];
    if Live(f, y) {
      PathStable(f, g, y);
    }
    if k.Element? {
      LivePath(f, k.id);
      PathStable(f, g, k.id);
    }
    if y == n {
      ChildPath(g, n);
    } else if Live(g, y) {
      TraceWithoutLeaf(f, n, k, PathOf(g, y), y);
    }
  }

  lemma TraceWithoutLeaf(f: Parents, n: ElementId, k: ParentId, p: Path, y: ElementId)
    requires Fresh(f, n) && k != Element(n) && y != n && Traces(f[n := k], p, y)
    ensures Traces(f, p, y)
  {
    var g := f[n := k];
    forall i | 0 <= i < |p| ensures p[i] in f && g[p[i]] == f[p[i]] {
      if i + 1 < |p| { assert g[p[i + 1]] == Element(p[i]); }
    }
  }

  lemma NewLeafPath(f: Parents, n: ElementId, k: ParentId, y: ElementId)
    requires Fresh(f, n) && LiveAnchor(f, k)
    ensures Live(f, y) ==> PathOf(f[n := k], y) == PathOf(f, y)
    ensures PathOf(f[n := k], n) == AnchorPath(f, k) + [n]
  {
    var g := f[n := k];
    if Live(f, y) { PathStable(f, g, y); }
    if k.Element? { PathStable(f, g, k.id); }
    ChildPath(g, n);
  }

  /** What comes before a new leaf. */
  lemma BeforeNewLeaf(f: Parents, n: ElementId, k: ParentId, y: ElementId)
    requires Fresh(f, n) && LiveAnchor(f, k) && Live(f, y)
    ensures Before(f[n := k], y, n) <==>
              (k.Element? && (y == k.id || Before(f, y, k.id))) || UnderHigher(f, k, n, y)
  {
    NewLeafPath(f, n, k, y);
    var pp, py := AnchorPath(f, k), PathOf(f, y);
    if |pp| < |py| { AncestorPath(f, y, |pp|); }
    BeforeNewChild(pp, n, py);
    if k.Element? && py == pp { PathsDiffer(f, y, k.id); }
  }

  // --- lists in document order ----------------------------------------------------------

  lemma {:induction false} KeepSorted(s: seq<ElementId>, keep: set<ElementId>, less: (ElementId, ElementId) -> bool)
    requires SortedBy(s, less)
    ensures SortedBy(Keep(s, keep), less)
  {
    if s != [] {
      KeepSorted(s[1..], keep, less);
      var r := Keep(s[1..], keep);
      forall x | x in r ensures less(s[0], x) {
        KeepMembers(s[1..], keep, x);
      }
      ConcatSorted([s[0]], r, less);
    }
  }

  lemma KeepInOrder(f: Parents, s: seq<ElementId>, keep: set<ElementId>)
    requires InOrder(f, s)
    ensures InOrder(f, Keep(s, keep))
  {
    var less := (a, b) => Before(f, a, b);
    assert SortedBy(s, less);
    KeepSorted(s, keep, less);
    var r := Keep(s, keep);
    forall x | x in r ensures Live(f, x) {
      KeepMembers(s, keep, x);
    }
    forall i, j | 0 <= i < j < |r| ensures Before(f, r[i], r[j]) {
      assert less(r[i], r[j]);
    }
  }

  lemma VisibleInOrder(ops: OpSet)
    ensures InOrder(ParentsOf(ops), Visible(ops))
    ensures forall x :: x in Visible(ops) <==> x in VisibleIds(ops)
  {
    TraversalSorted(ParentsOf(ops));
    KeepInOrder(ParentsOf(ops), Document(ops), VisibleIds(ops));
    forall x ensures x in Visible(ops) <==> x in VisibleIds(ops) {
      KeepMembers(Document(ops), VisibleIds(ops), x);
    }
  }

  lemma VisibleUnique(ops: OpSet, s: seq<ElementId>)
    requires InOrder(ParentsOf(ops), s) && forall x :: x in s <==> x in VisibleIds(ops)
    ensures s == Visible(ops)
  {
    VisibleInOrder(ops);
    InOrderUnique(ParentsOf(ops), s, Visible(ops));
  }

  /** How many nodes at the front of `s` come before `n`. */
  ghost function Rank(g: Parents, s: seq<ElementId>, n: ElementId): (m: nat)
    ensures m <= |s|
  {
    if s == [] || !Before(g, s[0], n) then 0 else 1 + Rank(g, s[1..], n)
  }

  lemma {:induction false} RankSplits(g: Parents, s: seq<ElementId>, n: ElementId, i: nat)
    requires InOrder(g, s) && i < |s|
    ensures Before(g, s[i], n) <==> i < Rank(g, s, n)
  {
    if Before(g, s[0], n) {
      if i > 0 { RankSplits(g, s[1..], n, i - 1); }
    } else if i > 0 && Before(g, s[i], n) {
      PathLessTransitive(PathOf(g, s[0]), PathOf(g, s[i]), PathOf(g, n));
    }
  }

  lemma AroundRank(g: Parents, s: seq<ElementId>, n: ElementId, i: nat)
    requires InOrder(g, s) && Live(g, n) && n !in s && i < |s|
    ensures if i < Rank(g, s, n) then Before(g, s[i], n) else Before(g, n, s[i])
  {
    RankSplits(g, s, n, i);
    PathLessTotal(PathOf(g, s[i]), PathOf(g, n));
    if PathOf(g, s[i]) == PathOf(g, n) { PathsDiffer(g, s[i], n); }
  }

  lemma SplicedInOrder(g: Parents, s: seq<ElementId>, n: ElementId)
    requires InOrder(g, s) && Live(g, n) && n !in s
    ensures InOrder(g, s[..Rank(g, s, n)] + [n] + s[Rank(g, s, n)..])
  {
    var m := Rank(g, s, n);
    var less := (a, b) => Before(g, a, b);
    forall i | 0 <= i < |s| ensures if i < m then less(s[i], n) else less(n, s[i]) {
      AroundRank(g, s, n, i);
    }
    assert SortedBy(s, less);
    SplicedSorted(s, m, n, less);
    var w := s[..m] + [n] + s[m..];
    forall i, j | 0 <= i < j < |w| ensures Before(g, w[i], w[j]) {
      assert less(w[i], w[j]);
    }
  }

  // --- counting -------------------------------------------------------------------------

  lemma {:induction false} KeepSplit(s: seq<ElementId>, keep: set<ElementId>, m: nat)
    requires m <= |s|
    requires forall i :: 0 <= i < |s| ==> (s[i] in keep <==> i < m)
    ensures Keep(s, keep) == s[..m]
  {
    if s != [] {
      var m' := if m == 0 then 0 else m - 1;
      forall i | 0 <= i < |s[1..]| ensures s[1..][i] in keep <==> i < m' {
        assert s[1..][i] == s[i + 1];
      }
      KeepSplit(s[1..], keep, m');
      if m > 0 { assert s[..m] == [s[0]] + s[1..][..m']; }
    }
  }

  lemma {:induction false} KeepDisjoint(s: seq<ElementId>, a: set<ElementId>, b: set<ElementId>)
    requires a !! b
    ensures |Keep(s, a + b)| == |Keep(s, a)| + |Keep(s, b)|
  {
    if s != [] { KeepDisjoint(s[1..], a, b); }
  }

  lemma {:induction false} KeepNone(s: seq<ElementId>, keep: set<ElementId>)
    requires forall x :: x in s ==> x !in keep
    ensures Keep(s, keep) == []
  {
    if s != [] { KeepNone(s[1..], keep); }
  }

  // --- one character --------------------------------------------------------------------

  /** `op` inserts a character nobody has referred to yet at a live anchor. */
  ghost predicate Inserts(ops: OpSet, op: Operation) {
    && op.Insert? && op.opId !in ops && LiveAnchor(ParentsOf(ops), op.parentId)
    && Unreferenced(ops, op.opId)
  }

  lemma InsertedVisible(ops: OpSet, op: Operation)
    requires Inserts(ops, op)
    ensures ParentsOf(ops[op.opId := op]) == ParentsOf(ops)[op.opId := op.parentId]
    ensures Fresh(ParentsOf(ops), op.opId)
    ensures VisibleIds(ops[op.opId := op]) == VisibleIds(ops) + {op.opId}
    ensures op.opId !in VisibleIds(ops)
  {
    var ops', f := ops[op.opId := op], ParentsOf(ops);
    assert ParentsOf(ops') == f[op.opId := op.parentId];
    forall y | y in f ensures f[y] != Element(op.opId) {
      assert !RefersTo(ops[y], op.opId);
    }
    forall d ensures !DeletedBy(ops, d, op.opId) {
      assert d in ops ==> !RefersTo(ops[d], op.opId);
    }
    forall y ensures y in VisibleIds(ops') <==> y in VisibleIds(ops) + {op.opId} {
      NewLeafLive(f, op.opId, op.parentId, y);
      TombstonesUnchanged(ops, op, y);
    }
  }

  lemma TombstonesUnchanged(ops: OpSet, op: Operation, y: ElementId)
    requires op.Insert? && op.opId !in ops
    ensures Tombstoned(ops[op.opId := op], y) <==> Tombstoned(ops, y)
  {
    var ops' := ops[op.opId := op];
    if Tombstoned(ops', y) {
      var d :| DeletedBy(ops', d, y);
      assert DeletedBy(ops, d, y);
    }
    if Tombstoned(ops, y) {
      var d :| DeletedBy(ops, d, y);
      assert DeletedBy(ops', d, y);
    }
  }

  /** A new character is spliced into the visible text; the others keep their order. */
  lemma InsertSplices(ops: OpSet, op: Operation)
    requires Inserts(ops, op)
    ensures var m := Rank(ParentsOf(ops[op.opId := op]), Visible(ops), op.opId);
            Visible(ops[op.opId := op]) == Visible(ops)[..m] + [op.opId] + Visible(ops)[m..]
  {
    var ops', n, v := ops[op.opId := op], op.opId, Visible(ops);
    var g := ParentsOf(ops');
    OldVisible(ops, op);
    SplicedInOrder(g, v, n);
    var m := Rank(g, v, n);
    forall y ensures y in v[..m] + [n] + v[m..] <==> y in VisibleIds(ops') {
      SplicedElements(v, m, n, y);
    }
    VisibleUnique(ops', v[..m] + [n] + v[m..]);
  }

  /** The characters visible before are still in order, with the same paths. */
  lemma OldVisible(ops: OpSet, op: Operation)
    requires Inserts(ops, op)
    ensures InOrder(ParentsOf(ops[op.opId := op]), Visible(ops))
    ensures forall y :: y in Visible(ops) || y == op.opId <==> y in VisibleIds(ops[op.opId := op])
    ensures Live(ParentsOf(ops[op.opId := op]), op.opId) && op.opId !in Visible(ops)
  {
    var f, n, k, v := ParentsOf(ops), op.opId, op.parentId, Visible(ops);
    var g := ParentsOf(ops[op.opId := op]);
    InsertedVisible(ops, op);
    VisibleInOrder(ops);
    forall y | y in v ensures Live(g, y) && PathOf(g, y) == PathOf(f, y) {
      NewLeafLive(f, n, k, y);
      NewLeafPath(f, n, k, y);
    }
    NewLeafLive(f, n, k, n);
  }

  /** The splice position: right after the visible anchor, but past higher siblings' subtrees. */
  lemma InsertPosition(ops: OpSet, op: Operation, i: nat)
    requires Inserts(ops, op) && i <= |Visible(ops)| && op.parentId == AnchorAt(Visible(ops), i)
    ensures Rank(ParentsOf(ops[op.opId := op]), Visible(ops), op.opId) == i + Passed(ops, op.parentId, op.opId)
  {
    var f, n, k, v := ParentsOf(ops), op.opId, op.parentId, Visible(ops);
    var g := ParentsOf(ops[op.opId := op]);
    InsertedVisible(ops, op);
    VisibleInOrder(ops);
    var upTo := set j | 0 <= j < i :: v[j];
    var higher := HigherIds(ops, k, n);
    forall j | 0 <= j < |v|
      ensures v[j] in upTo <==> j < i
      ensures v[j] in upTo ==> v[j] !in higher
      ensures Before(g, v[j], n) <==> v[j] in upTo + higher
    {
      FrontOrHigher(ops, op, i, j);
      if v[j] in upTo {
        var l :| 0 <= l < i && v[l] == v[j];
        OnceInOrder(f, v, l, j);
      }
    }
    var m := Rank(g, v, n);
    OldVisible(ops, op);
    forall j | 0 <= j < |v| ensures v[j] in upTo + higher <==> j < m {
      RankSplits(g, v, n, j);
    }
    CountSplit(v, upTo, higher, i, m);
  }

  /** If `a` picks the first `i` of `v`, and `a` and `b` together the first `m`, then `b` picks `m - i`. */
  lemma CountSplit(v: seq<ElementId>, a: set<ElementId>, b: set<ElementId>, i: nat, m: nat)
    requires i <= |v| && m <= |v|
    requires forall j :: 0 <= j < |v| ==> (v[j] in a <==> j < i) && (v[j] in a ==> v[j] !in b)
    requires forall j :: 0 <= j < |v| ==> (v[j] in a + b <==> j < m)
    ensures m == i + |Keep(v, b)|
  {
    KeepSplit(v, a + b, m);
    KeepSplit(v, a, i);
    forall x | x in v ensures x in a + (b - a) <==> x in a + b {}
    KeepSame(v, a + b, a + (b - a));
    KeepSame(v, b, b - a);
    KeepDisjoint(v, a, b - a);
  }

  lemma OnceInOrder(f: Parents, s: seq<ElementId>, i: nat, j: nat)
    requires InOrder(f, s) && i < |s| && j < |s| && s[i] == s[j]
    ensures i == j
  {
    if i < j { NeverBeforeItself(f, s, i, j); }
    if j < i { NeverBeforeItself(f, s, j, i); }
  }

  lemma FrontOrHigher(ops: OpSet, op: Operation, i: nat, j: nat)
    requires Inserts(ops, op) && i <= |Visible(ops)| && op.parentId == AnchorAt(Visible(ops), i)
    requires j < |Visible(ops)|
    ensures Visible(ops)[j] in ops
    ensures Before(ParentsOf(ops[op.opId := op]), Visible(ops)[j], op.opId) <==>
              j < i || Visible(ops)[j] in HigherIds(ops, op.parentId, op.opId)
    ensures j < i ==> Visible(ops)[j] !in HigherIds(ops, op.parentId, op.opId)
  {
    var v := Visible(ops);
    InsertedVisible(ops, op);
    VisibleInOrder(ops);
    assert v[j] in VisibleIds(ops);
    ListedBeforeLeaf(ParentsOf(ops), v, op.opId, op.parentId, i, j);
  }

  lemma ListedBeforeLeaf(f: Parents, v: seq<ElementId>, n: ElementId, k: ParentId, i: nat, j: nat)
    requires InOrder(f, v) && i <= |v| && j < |v| && k == AnchorAt(v, i)
    requires Fresh(f, n)
    ensures Before(f[n := k], v[j], n) <==> j < i || UnderHigher(f, k, n, v[j])
    ensures j < i ==> !UnderHigher(f, k, n, v[j])
  {
    BeforeNewLeaf(f, n, k, v[j]);
    if i > 0 {
      FrontOf(f, v, i - 1, j);
      if j < i { NotAbove(f, v, i - 1, n, j); }
    }
  }

  lemma FrontOf(f: Parents, v: seq<ElementId>, i: nat, j: nat)
    requires InOrder(f, v) && i < |v| && j < |v|
    ensures v[j] == v[i] || Before(f, v[j], v[i]) <==> j <= i
  {
    if v[j] == v[i] { OnceInOrder(f, v, j, i); }
    if Before(f, v[j], v[i]) { NeverBeforeItself(f, v, j, i); }
  }

  lemma NotAbove(f: Parents, v: seq<ElementId>, i: nat, n: ElementId, j: nat)
    requires InOrder(f, v) && i < |v| && j <= i
    ensures !UnderHigher(f, Element(v[i]), n, v[j])
  {
    if UnderHigher(f, Element(v[i]), n, v[j]) {
      PathLessPrefix(PathOf(f, v[i]), PathOf(f, v[j]));
      NeverBeforeItself(f, v, i, j);
    }
  }
}
