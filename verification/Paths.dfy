/**
 * Root paths and their order: a path precedes its extensions, and at the first place where two
 * paths part the one through the higher sibling comes first. This is the order in which a
 * depth-first walk over descending siblings meets the nodes.
 */
module Paths {
  import opened Ids

  type Path = seq<ElementId>

  predicate PathLess(p: Path, q: Path) {
    q != [] && (p == [] || Above(p[0], q[0]) || (p[0] == q[0] && PathLess(p[1..], q[1..])))
  }

  lemma {:induction false} PathLessIrreflexive(p: Path)
    ensures !PathLess(p, p)
  {
    if p != [] {
      LessIrreflexive(p[0]);
      PathLessIrreflexive(p[1..]);
    }
  }

  lemma {:induction false} PathLessTransitive(p: Path, q: Path, r: Path)
    requires PathLess(p, q) && PathLess(q, r)
    ensures PathLess(p, r)
  {
    if p != [] {
      LessIrreflexive(p[0]);
      if p[0] == q[0] == r[0] {
        PathLessTransitive(p[1..], q[1..], r[1..]);
      } else if Above(p[0], q[0]) && Above(q[0], r[0]) {
        LessTransitive(r[0], q[0], p[0]);
      }
    }
  }

  lemma {:induction false} PathLessTotal(p: Path, q: Path)
    ensures PathLess(p, q) || p == q || PathLess(q, p)
  {
    if p != [] && q != [] {
      LessTotal(p[0], q[0]);
      if p[0] == q[0] {
        PathLessTotal(p[1..], q[1..]);
        assert p == [p[0]] + p[1..] && q == [q[0]] + q[1..];
      }
    }
  }

  /** A common beginning does not affect the order. */
  lemma {:induction false} PathLessCommon(c: Path, p: Path, q: Path)
    ensures PathLess(c + p, c + q) == PathLess(p, q)
  {
    if c == [] {
      assert c + p == p && c + q == q;
    } else {
      LessIrreflexive(c[0]);
      PathLessCommon(c[1..], p, q);
      assert (c + p)[1..] == c[1..] + p && (c + q)[1..] == c[1..] + q;
    }
  }

  lemma PathLessPrefix(p: Path, q: Path)
    requires p <= q && p != q
    ensures PathLess(p, q)
  {
    PathLessCommon(p, [], q[|p|..]);
    assert p + [] == p && p + q[|p|..] == q;
  }

  /** Paths that part stay in order under any extension. */
  lemma {:induction false} PathLessExtend(p: Path, q: Path, x: Path, y: Path)
    requires PathLess(p, q) && !(p <= q)
    ensures PathLess(p + x, q + y)
  {
    assert p != [];
    LessIrreflexive(p[0]);
    if p[0] == q[0] {
      assert !(p[1..] <= q[1..]) by {
        assert p == [p[0]] + p[1..] && q == [q[0]] + q[1..];
      }
      PathLessExtend(p[1..], q[1..], x, y);
      assert (p + x)[1..] == p[1..] + x && (q + y)[1..] == q[1..] + y;
    }
  }

  /** Whatever lies between a path and one of its extensions extends that path too. */
  lemma {:induction false} PathBetween(p: Path, x: Path, q: Path)
    requires p <= q && !PathLess(x, p) && !PathLess(q, x)
    ensures p <= x
  {
    PathLessTotal(p, x);
    assert p + q[|p|..] == q && x + [] == x;
    if !(p <= x) {
      PathLessExtend(p, x, q[|p|..], []);
    }
  }

  /**
   * What comes before a new child `x` of the node at `pp`: that node, whatever precedes it,
   * and everything below its children that are higher than `x`.
   */
  lemma {:induction false} BeforeNewChild(pp: Path, x: ElementId, y: Path)
    requires !(pp + [x] <= y)
    ensures PathLess(y, pp + [x]) <==>
              PathLess(y, pp) || y == pp || (pp < y && Less(x, y[|pp|]))
  {
    if pp <= y {
      assert y == pp + y[|pp|..];
      PathLessCommon(pp, y[|pp|..], [x]);
      PathLessCommon(pp, y[|pp|..], []);
      assert pp + [] == pp;
      if y != pp {
        assert y[|pp|] == y[|pp|..][0];
        assert y == pp + [y[|pp|]] + y[|pp| + 1..];
      }
    } else if PathLess(y, pp) {
      if y <= pp {
        PathLessPrefix(y, pp + [x]);
      } else {
        PathLessExtend(y, pp, [], [x]);
        assert y + [] == y;
      }
    } else {
      PathLessTotal(y, pp);
      PathLessExtend(pp, y, [x], []);
      assert y + [] == y;
      if PathLess(y, pp + [x]) {
        PathLessTransitive(y, pp + [x], y);
        PathLessIrreflexive(y);
      }
    }
  }
}
