/** The library sort, and the one sorted list that holds a given finite set. */
module Sorting {
  import opened Ids

  ghost predicate StrictTotal<T(!new)>(less: (T, T) -> bool) {
    && (forall a :: !less(a, a))
    && (forall a, b, c :: less(a, b) && less(b, c) ==> less(a, c))
    && (forall a, b :: less(a, b) || a == b || less(b, a))
  }

  ghost predicate SortedBy<T>(s: seq<T>, less: (T, T) -> bool) {
    forall i, j :: 0 <= i < j < |s| ==> less(s[i], s[j])
  }

  ghost predicate NoDuplicates<T>(s: seq<T>) {
    forall i, j :: 0 <= i < j < |s| ==> s[i] != s[j]
  }

  lemma {:induction false} LeastExists<T(!new)>(s: set<T>, less: (T, T) -> bool)
    requires StrictTotal(less) && s != {}
    ensures exists m :: m in s && forall x :: x in s && x != m ==> less(m, x)
  {
    var y :| y in s;
    if s != {y} {
      assert s == (s - {y}) + {y};
      LeastExists(s - {y}, less);
      var m :| m in s - {y} && forall x :: x in s - {y} && x != m ==> less(m, x);
      var w := if less(y, m) then y else m;
      forall x | x in s && x != w ensures less(w, x) {
        assert x == y || x == m || less(m, x);
      }
    }
  }

  ghost function Elems<T>(s: seq<T>): set<T> {
    set x | x in s
  }

  /** A list without repetitions is as long as the set of its elements is large. */
  lemma {:induction false} CountOnce<T>(s: seq<T>)
    requires NoDuplicates(s)
    ensures |Elems(s)| == |s|
  {
    if s != [] {
      CountOnce(s[1..]);
      assert s == [s[0]] + s[1..];
      assert Elems(s) == Elems(s[1..]) + {s[0]};
    }
  }

  /** The elements of `s`, least first. */
  function Listing<T(==, !new)>(s: set<T>, less: (T, T) -> bool): (r: seq<T>)
    requires StrictTotal(less)
    ensures SortedBy(r, less)
    ensures forall x :: x in r <==> x in s
  {
    if s == {} then [] else
      LeastExists(s, less);
      var m :| m in s && forall x :: x in s && x != m ==> less(m, x);
      [m] + Listing(s - {m}, less)
  }

  lemma ListingOnce<T(!new)>(s: set<T>, less: (T, T) -> bool)
    requires StrictTotal(less)
    ensures |Listing(s, less)| == |s|
  {
    var r := Listing(s, less);
    assert NoDuplicates(r);
    CountOnce(r);
    assert Elems(r) == s;
  }

  ghost predicate Asymmetric<T(!new)>(less: (T, T) -> bool) {
    forall a, b :: less(a, b) ==> !less(b, a)
  }

  lemma TailElements<T(!new)>(s: seq<T>, less: (T, T) -> bool, x: T)
    requires Asymmetric(less) && SortedBy(s, less) && s != []
    ensures x in s[1..] <==> x in s && x != s[0]
  {
    if x in s[1..] {
      var k :| 1 <= k < |s| && s[k] == x;
      assert less(s[0], s[k]);
    }
  }

  /** A strictly sorted list is determined by the set of its elements. */
  lemma {:induction false} SortedUnique<T(!new)>(s: seq<T>, t: seq<T>, less: (T, T) -> bool)
    requires Asymmetric(less) && SortedBy(s, less) && SortedBy(t, less)
    requires forall x :: x in s <==> x in t
    ensures s == t
  {
    assert t == [] || t[0] in s;
    if s != [] {
      assert s[0] in t;
      var i :| 0 <= i < |t| && t[i] == s[0];
      var j :| 0 <= j < |s| && s[j] == t[0];
      assert s[0] == t[0];
      forall x ensures x in s[1..] <==> x in t[1..] {
        TailElements(s, less, x);
        TailElements(t, less, x);
      }
      SortedUnique(s[1..], t[1..], less);
      assert s == [s[0]] + s[1..] && t == [t[0]] + t[1..];
    }
  }

  lemma SplicedElements<T>(s: seq<T>, m: nat, n: T, x: T)
    requires m <= |s|
    ensures x in s[..m] + [n] + s[m..] <==> x in s || x == n
  {
    assert s == s[..m] + s[m..];
  }

  /** A value fits between those it follows and those it precedes. */
  lemma SplicedSorted<T>(s: seq<T>, m: nat, n: T, less: (T, T) -> bool)
    requires SortedBy(s, less) && m <= |s|
    requires forall i :: 0 <= i < m ==> less(s[i], n)
    requires forall i :: m <= i < |s| ==> less(n, s[i])
    ensures SortedBy(s[..m] + [n] + s[m..], less)
  {
  }

  lemma ConcatSorted<T>(s: seq<T>, t: seq<T>, less: (T, T) -> bool)
    requires SortedBy(s, less) && SortedBy(t, less)
    requires forall x, y :: x in s && y in t ==> less(x, y)
    ensures SortedBy(s + t, less)
  {
    var w := s + t;
    forall i, j | 0 <= i < j < |w| ensures less(w[i], w[j]) {
      if i < |s| <= j {
        assert w[i] in s && w[j] in t;
      }
    }
  }

  function Place<T>(x: T, s: seq<T>, less: (T, T) -> bool): (r: seq<T>)
    ensures multiset(r) == multiset(s) + multiset{x}
  {
    if s == [] then [x]
    else if less(s[0], x) then
      assert s == [s[0]] + s[1..];
      [s[0]] + Place(x, s[1..], less)
    else [x] + s
  }

  /** `sort_by`: the standard library's sort, written as insertion sort. */
  function Sort<T>(s: seq<T>, less: (T, T) -> bool): (r: seq<T>)
    ensures multiset(r) == multiset(s)
  {
    if s == [] then [] else
      assert s == [s[0]] + s[1..];
      Place(s[0], Sort(s[1..], less), less)
  }

  lemma {:induction false} PlaceSorted<T(!new)>(x: T, s: seq<T>, less: (T, T) -> bool)
    requires StrictTotal(less) && SortedBy(s, less) && x !in s
    ensures SortedBy(Place(x, s, less), less)
  {
    if s != [] && less(s[0], x) {
      PlaceSorted(x, s[1..], less);
      var r := Place(x, s[1..], less);
      assert multiset(r) == multiset(s[1..]) + multiset{x};
      forall j | 0 <= j < |r| ensures less(s[0], r[j]) {
        assert r[j] in multiset(r);
        if r[j] != x { assert r[j] in s[1..]; }
      }
    }
  }

  /** Sorting a list without repetitions gives the listing of its elements. */
  lemma {:induction false} SortIsListing<T(!new)>(s: seq<T>, less: (T, T) -> bool)
    requires StrictTotal(less) && NoDuplicates(s)
    ensures Sort(s, less) == Listing(Elems(s), less)
  {
    SortSorted(s, less);
    var r := Sort(s, less);
    forall x ensures x in r <==> x in s {
      assert x in multiset(r) <==> x in multiset(s);
    }
    SortedUnique(r, Listing(Elems(s), less), less);
  }

  lemma {:induction false} SortSorted<T(!new)>(s: seq<T>, less: (T, T) -> bool)
    requires StrictTotal(less) && NoDuplicates(s)
    ensures SortedBy(Sort(s, less), less)
  {
    if s != [] {
      SortSorted(s[1..], less);
      var r := Sort(s[1..], less);
      forall z | z in r ensures z in s[1..] {
        assert z in multiset(r);
      }
      PlaceSorted(s[0], r, less);
    }
  }

  lemma AboveTotal()
    ensures StrictTotal(Above)
  {
    forall a ensures !Above(a, a) { LessIrreflexive(a); }
    forall a, b, c | Above(a, b) && Above(b, c) ensures Above(a, c) { LessTransitive(c, b, a); }
    forall a, b ensures Above(a, b) || a == b || Above(b, a) { LessTotal(a, b); }
  }

  lemma LessStrictTotal()
    ensures StrictTotal(Less)
  {
    forall a ensures !Less(a, a) { LessIrreflexive(a); }
    forall a, b, c | Less(a, b) && Less(b, c) ensures Less(a, c) { LessTransitive(a, b, c); }
    forall a, b ensures Less(a, b) || a == b || Less(b, a) { LessTotal(a, b); }
  }

  lemma LexStrictTotal()
    ensures StrictTotal(LexLess)
  {
    forall a ensures !LexLess(a, a) { LexIrreflexive(a); }
    forall a, b, c | LexLess(a, b) && LexLess(b, c) ensures LexLess(a, c) { LexTransitive(a, b, c); }
    forall a, b ensures LexLess(a, b) || a == b || LexLess(b, a) { LexTotal(a, b); }
  }

  /** Highest identifier first: the order of siblings. */
  function Descending(s: set<ElementId>): (r: seq<ElementId>)
    ensures SortedBy(r, Above)
    ensures forall x :: x in r <==> x in s
  {
    AboveTotal();
    Listing(s, Above)
  }

  /** Lowest identifier first: the order of snapshot lists. */
  function Ascending(s: set<ElementId>): (r: seq<ElementId>)
    ensures SortedBy(r, Less)
    ensures forall x :: x in r <==> x in s
  {
    LessStrictTotal();
    Listing(s, Less)
  }

  /** The values of a map, in the order of their identifiers. */
  function ValueList<V>(m: map<ElementId, V>): (list: seq<V>)
    ensures |list| == |Ascending(m.Keys)|
    ensures forall i :: 0 <= i < |list| ==> Ascending(m.Keys)[i] in m && list[i] == m[Ascending(m.Keys)[i]]
  {
    var ids := Ascending(m.Keys);
    assert forall i :: 0 <= i < |ids| ==> ids[i] in m.Keys;
    seq(|ids|, i requires 0 <= i < |ids| => m[ids[i]])
  }

  lemma ValueListed<V>(m: map<ElementId, V>, v: V)
    ensures v in ValueList(m) <==> exists id :: id in m && m[id] == v
  {
    var ids, list := Ascending(m.Keys), ValueList(m);
    if id :| id in m && m[id] == v {
      assert id in ids;
      var i :| 0 <= i < |ids| && ids[i] == id;
      assert list[i] == v;
    }
    if v in list {
      var i :| 0 <= i < |list| && list[i] == v;
      assert ids[i] in m && m[ids[i]] == v;
    }
  }

  /** Pushing a new sibling and sorting again keeps the list of siblings sorted. */
  lemma PushAndSort(s: set<ElementId>, x: ElementId)
    requires x !in s
    ensures Sort(Descending(s) + [x], Above) == Descending(s + {x})
  {
    AboveTotal();
    SortIsListing(Descending(s) + [x], Above);
    PushedElements(Descending(s), x);
    assert Elems(Descending(s)) == s;
  }

  lemma PushedElements<T>(s: seq<T>, x: T)
    ensures Elems(s + [x]) == Elems(s) + {x}
  {
  }

}
