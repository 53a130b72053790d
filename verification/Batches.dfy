/** What a batch of editor changes means: replacement of all its ranges at once. */
module Batches {
  import opened Wrappers
  import opened Sequences
  import opened Sorting

  datatype Change = Change(rangeOffset: int, rangeLength: int, text: string)

  datatype RangeError = RangeError(start: int, length: int, documentLength: nat)

  /** The order in which changes are made: the last range first. */
  predicate Later(a: Change, b: Change) {
    a.rangeOffset > b.rangeOffset
  }

  predicate InRange(text: string, c: Change) {
    0 <= c.rangeOffset && 0 <= c.rangeLength && c.rangeOffset + c.rangeLength <= |text|
  }

  function Replace(text: string, c: Change): string
    requires InRange(text, c)
  {
    text[..c.rangeOffset] + c.text + text[c.rangeOffset + c.rangeLength..]
  }

  function ApplyOne(text: string, c: Change): Result<string, RangeError> {
    if InRange(text, c) then Ok(Replace(text, c)) else Err(RangeError(c.rangeOffset, c.rangeLength, |text|))
  }

  /** The changes one after the other, each in the coordinates the ones before it left. */
  function Amended(text: string, cs: seq<Change>): Result<string, RangeError> {
    if cs == [] then Ok(text)
    else
      var before := Amended(text, cs[..|cs| - 1]);
      if before.Ok? then ApplyOne(before.value, cs[|cs| - 1]) else before
  }

  /** The changes before `i` can be made, and the one at `i` reaches outside the text they leave. */
  ghost predicate FailsAt(text: string, cs: seq<Change>, i: nat, error: RangeError) {
    && i < |cs| && Amended(text, cs[..i]).Ok?
    && var t, c := Amended(text, cs[..i]).value, cs[i];
       && (c.rangeOffset < 0 || c.rangeLength < 0 || c.rangeOffset + c.rangeLength > |t|)
       && error.start == c.rangeOffset && error.length == c.rangeLength && error.documentLength == |t|
  }

  ghost predicate FailsSomewhere(text: string, cs: seq<Change>, error: RangeError) {
    exists i :: FailsAt(text, cs, i, error)
  }

  lemma {:induction false} ErrorStays(text: string, cs: seq<Change>, n: nat)
    requires n <= |cs| && Amended(text, cs[..n]).Err?
    ensures Amended(text, cs) == Amended(text, cs[..n])
  {
    if n == |cs| {
      assert cs[..n] == cs;
    } else {
      assert cs[..|cs| - 1][..n] == cs[..n];
      ErrorStays(text, cs[..|cs| - 1], n);
    }
  }

  // --- all at once ----------------------------------------------------------------------

  /** Ranges in the original text that do not overlap and start at different places. */
  ghost predicate Disjoint(cs: seq<Change>) {
    forall i, j {:trigger Apart(cs[i], cs[j])} :: 0 <= i < |cs| && 0 <= j < |cs| && i != j ==> Apart(cs[i], cs[j])
  }

  ghost predicate Apart(a: Change, b: Change) {
    || (a.rangeOffset < b.rangeOffset && a.rangeOffset + a.rangeLength <= b.rangeOffset)
    || (b.rangeOffset < a.rangeOffset && b.rangeOffset + b.rangeLength <= a.rangeOffset)
  }

  ghost predicate AllInRange(text: string, cs: seq<Change>) {
    forall c :: c in cs ==>
      0 <= c.rangeOffset && 0 <= c.rangeLength && c.rangeOffset + c.rangeLength <= |text|
  }

  ghost predicate StartsAt(cs: seq<Change>, p: nat) {
    exists c :: c in cs && c.rangeOffset == p
  }

  ghost predicate Covered(cs: seq<Change>, p: nat) {
    exists c :: c in cs && c.rangeOffset <= p < c.rangeOffset + c.rangeLength
  }

  /** What stands at position `p` of the original text afterwards. */
  ghost function Piece(text: string, cs: seq<Change>, p: nat): string {
    (if StartsAt(cs, p) then (var c :| c in cs && c.rangeOffset == p; c.text) else "") +
    (if p < |text| && !Covered(cs, p) then [text[p]] else "")
  }

  ghost function From(text: string, cs: seq<Change>, p: nat): string
    requires p <= |text|
    decreases |text| - p
  {
    Piece(text, cs, p) + (if p < |text| then From(text, cs, p + 1) else "")
  }

  /** The text with every range replaced; the order of the changes does not matter. */
  ghost function Replaced(text: string, cs: seq<Change>): string {
    From(text, cs, 0)
  }

  lemma Unique(cs: seq<Change>, a: Change, b: Change)
    requires Disjoint(cs) && a in cs && b in cs && a.rangeOffset == b.rangeOffset
    ensures a == b
  {
    var i :| 0 <= i < |cs| && cs[i] == a;
    var j :| 0 <= j < |cs| && cs[j] == b;
    assert i == j || Apart(cs[i], cs[j]);
  }

  lemma SamePiece(text: string, cs: seq<Change>, ds: seq<Change>, p: nat)
    requires Disjoint(cs) && Disjoint(ds)
    requires forall c: Change ::
               c.rangeOffset <= p && (p == c.rangeOffset || p < c.rangeOffset + c.rangeLength) ==>
                 (c in cs <==> c in ds)
    ensures Piece(text, cs, p) == Piece(text, ds, p)
  {
    forall a, b | a in cs && b in cs && a.rangeOffset == p && b.rangeOffset == p ensures a == b { Unique(cs, a, b); }
    forall a, b | a in ds && b in ds && a.rangeOffset == p && b.rangeOffset == p ensures a == b { Unique(ds, a, b); }
    assert StartsAt(cs, p) <==> StartsAt(ds, p);
    assert Covered(cs, p) <==> Covered(ds, p);
  }

  /** Both lists hold `c`, or neither does, or it ends before `p`. */
  ghost predicate AlikeAt(cs: seq<Change>, ds: seq<Change>, p: nat, c: Change) {
    c.rangeOffset >= p || c.rangeOffset + c.rangeLength > p ==> (c in cs <==> c in ds)
  }

  ghost predicate Alike(cs: seq<Change>, ds: seq<Change>, p: nat) {
    forall c {:trigger AlikeAt(cs, ds, p, c)} :: AlikeAt(cs, ds, p, c)
  }

  lemma {:induction false} SameFrom(text: string, cs: seq<Change>, ds: seq<Change>, p: nat)
    requires Disjoint(cs) && Disjoint(ds) && p <= |text| && Alike(cs, ds, p)
    ensures From(text, cs, p) == From(text, ds, p)
    decreases |text| - p
  {
    forall c ensures AlikeAt(cs, ds, p + 1, c)
      ensures c.rangeOffset <= p && (p == c.rangeOffset || p < c.rangeOffset + c.rangeLength) ==> (c in cs <==> c in ds)
    {
      assert AlikeAt(cs, ds, p, c);
    }
    SamePiece(text, cs, ds, p);
    if p < |text| { SameFrom(text, cs, ds, p + 1); }
  }

  lemma AlikeAfter(ds: seq<Change>, c: Change, p: nat)
    requires c.rangeOffset < p && c.rangeOffset + c.rangeLength <= p
    ensures Alike(ds + [c], ds, p)
  {
    forall x ensures AlikeAt(ds + [c], ds, p, x) {
      assert x in ds + [c] <==> x in ds || x == c;
    }
  }

  /** Before the first range nothing changes. */
  lemma {:induction false} Untouched(text: string, cs: seq<Change>, p: nat, q: nat)
    requires p <= q <= |text| && forall c :: c in cs ==> c.rangeOffset >= q
    ensures From(text, cs, p) == text[p..q] + From(text, cs, q)
    decreases q - p
  {
    if p < q {
      Untouched(text, cs, p + 1, q);
      PieceBefore(text, cs, p);
      Associative([text[p]], text[p + 1..q], From(text, cs, q));
      assert text[p..q] == [text[p]] + text[p + 1..q];
    }
  }

  lemma PieceBefore(text: string, cs: seq<Change>, p: nat)
    requires p < |text| && forall c :: c in cs ==> c.rangeOffset > p
    ensures Piece(text, cs, p) == [text[p]]
  {
    assert !StartsAt(cs, p) && !Covered(cs, p);
  }

  /** The rest of a replaced range is gone. */
  lemma {:induction false} Skipped(text: string, cs: seq<Change>, c: Change, p: nat)
    requires Disjoint(cs) && c in cs && InRange(text, c)
    requires c.rangeOffset < p <= c.rangeOffset + c.rangeLength
    ensures From(text, cs, p) == From(text, cs, c.rangeOffset + c.rangeLength)
    decreases c.rangeOffset + c.rangeLength - p
  {
    if p < c.rangeOffset + c.rangeLength {
      Skipped(text, cs, c, p + 1);
      PieceInside(text, cs, c, p);
    }
  }

  lemma PieceInside(text: string, cs: seq<Change>, c: Change, p: nat)
    requires Disjoint(cs) && c in cs && c.rangeOffset < p < c.rangeOffset + c.rangeLength
    ensures Piece(text, cs, p) == ""
  {
    NothingStartsInside(cs, c, p);
    assert Covered(cs, p);
  }

  /** At the start of the first of the ranges. */
  lemma PieceAtStart(text: string, ds: seq<Change>, c: Change)
    requires Disjoint(ds + [c]) && InRange(text, c)
    requires forall d :: d in ds ==> c.rangeOffset < d.rangeOffset
    ensures Piece(text, ds + [c], c.rangeOffset) ==
              c.text + if c.rangeLength == 0 then Piece(text, ds, c.rangeOffset) else ""
  {
    var cs, o := ds + [c], c.rangeOffset;
    assert c in cs;
    forall a | a in cs && a.rangeOffset == o ensures a == c {}
    assert StartsAt(cs, o) && !StartsAt(ds, o) && !Covered(ds, o);
    assert Covered(cs, o) <==> c.rangeLength > 0;
  }

  lemma DisjointPrefix(ds: seq<Change>, c: Change)
    requires Disjoint(ds + [c])
    ensures Disjoint(ds)
  {
    var cs := ds + [c];
    forall i, j | 0 <= i < |ds| && 0 <= j < |ds| && i != j ensures Apart(ds[i], ds[j]) {
      assert Apart(cs[i], cs[j]);
    }
  }

  lemma NothingStartsInside(cs: seq<Change>, c: Change, p: nat)
    requires Disjoint(cs) && c in cs && c.rangeOffset < p < c.rangeOffset + c.rangeLength
    ensures !StartsAt(cs, p)
  {
    var i :| 0 <= i < |cs| && cs[i] == c;
    forall b | b in cs ensures b.rangeOffset != p {
      var j :| 0 <= j < |cs| && cs[j] == b;
      if i != j { assert Apart(cs[i], cs[j]); }
    }
  }

  /** A range that comes before all others is replaced by its text. */
  lemma FirstRange(text: string, ds: seq<Change>, c: Change)
    requires Disjoint(ds + [c]) && InRange(text, c)
    requires forall d :: d in ds ==> c.rangeOffset < d.rangeOffset && c.rangeOffset + c.rangeLength <= d.rangeOffset
    ensures From(text, ds + [c], c.rangeOffset) == c.text + From(text, ds, c.rangeOffset + c.rangeLength)
  {
    var cs := ds + [c];
    assert c in cs;
    PieceAtStart(text, ds, c);
    DisjointPrefix(ds, c);
    if c.rangeLength > 0 {
      AlikeAfter(ds, c, c.rangeOffset + c.rangeLength);
      ReplacedFirst(text, cs, ds, c);
    } else {
      AlikeAfter(ds, c, c.rangeOffset + 1);
      InsertedFirst(text, cs, ds, c);
    }
  }

  lemma ReplacedFirst(text: string, cs: seq<Change>, ds: seq<Change>, c: Change)
    requires Disjoint(cs) && Disjoint(ds) && c in cs && InRange(text, c) && c.rangeLength > 0
    requires Alike(cs, ds, c.rangeOffset + c.rangeLength)
    requires Piece(text, cs, c.rangeOffset) == c.text
    ensures From(text, cs, c.rangeOffset) == c.text + From(text, ds, c.rangeOffset + c.rangeLength)
  {
    Skipped(text, cs, c, c.rangeOffset + 1);
    SameFrom(text, cs, ds, c.rangeOffset + c.rangeLength);
  }

  lemma InsertedFirst(text: string, cs: seq<Change>, ds: seq<Change>, c: Change)
    requires Disjoint(cs) && Disjoint(ds) && InRange(text, c)
    requires Alike(cs, ds, c.rangeOffset + 1)
    requires Piece(text, cs, c.rangeOffset) == c.text + Piece(text, ds, c.rangeOffset)
    ensures From(text, cs, c.rangeOffset) == c.text + From(text, ds, c.rangeOffset)
  {
    var o := c.rangeOffset;
    FromIs(text, cs, o);
    FromIs(text, ds, o);
    if o < |text| { SameFrom(text, cs, ds, o + 1); }
    Prefixed(c.text, Piece(text, cs, o), Piece(text, ds, o), Rest(text, ds, o));
  }

  ghost function Rest(text: string, cs: seq<Change>, p: nat): string {
    if p < |text| then From(text, cs, p + 1) else ""
  }

  lemma FromIs(text: string, cs: seq<Change>, p: nat)
    requires p <= |text|
    ensures From(text, cs, p) == Piece(text, cs, p) + Rest(text, cs, p)
  {
  }

  lemma Prefixed(x: string, a: string, b: string, rest: string)
    requires a == x + b
    ensures a + rest == x + (b + rest)
  {
  }

  lemma ReplaceFirst(text: string, t: string, c: Change, rest: string)
    requires InRange(text, c) && t == text[..c.rangeOffset + c.rangeLength] + rest
    ensures InRange(t, c) && Replace(t, c) == text[..c.rangeOffset] + (c.text + rest)
  {
    var end := c.rangeOffset + c.rangeLength;
    assert t[..end] == text[..end] && t[end..] == rest;
    assert t[..c.rangeOffset] == text[..end][..c.rangeOffset] == text[..c.rangeOffset];
  }

  lemma LastIsFirstRange(ds: seq<Change>, d: Change)
    requires ds != [] && SortedBy(ds, Later) && Disjoint(ds) && d in ds[..|ds| - 1]
    ensures var c := ds[|ds| - 1]; c.rangeOffset < d.rangeOffset && c.rangeOffset + c.rangeLength <= d.rangeOffset
  {
    var i :| 0 <= i < |ds| - 1 && ds[i] == d;
    assert Later(ds[i], ds[|ds| - 1]) && Apart(ds[i], ds[|ds| - 1]);
  }

  lemma NoChange(text: string)
    ensures Replaced(text, []) == text
  {
    Untouched(text, [], 0, |text|);
    assert Piece(text, [], |text|) == "";
  }

  /** One more change, whose range comes before the others. */
  lemma FoldOneMore(text: string, before: seq<Change>, c: Change)
    requires Disjoint(before + [c]) && InRange(text, c)
    requires forall d :: d in before ==> c.rangeOffset < d.rangeOffset && c.rangeOffset + c.rangeLength <= d.rangeOffset
    ensures ApplyOne(Replaced(text, before), c) == Ok(Replaced(text, before + [c]))
  {
    Untouched(text, before, 0, c.rangeOffset + c.rangeLength);
    Untouched(text, before + [c], 0, c.rangeOffset);
    FirstRange(text, before, c);
    ReplaceFirst(text, Replaced(text, before), c, From(text, before, c.rangeOffset + c.rangeLength));
  }

  /** Made from the last range to the first, the changes do not disturb one another. */
  lemma {:induction false} DescendingFold(text: string, ds: seq<Change>)
    requires SortedBy(ds, Later) && Disjoint(ds) && AllInRange(text, ds)
    ensures Amended(text, ds) == Ok(Replaced(text, ds))
  {
    if ds == [] {
      NoChange(text);
    } else {
      var before, c := ds[..|ds| - 1], ds[|ds| - 1];
      assert ds == before + [c] && c in ds;
      DisjointPrefix(before, c);
      DescendingFold(text, before);
      forall d | d in before ensures c.rangeOffset < d.rangeOffset && c.rangeOffset + c.rangeLength <= d.rangeOffset {
        LastIsFirstRange(ds, d);
      }
      FoldOneMore(text, before, c);
    }
  }

  // --- sorting the changes --------------------------------------------------------------

  lemma {:induction false} PlaceLater(x: Change, s: seq<Change>)
    requires SortedBy(s, Later) && forall y :: y in s ==> y.rangeOffset != x.rangeOffset
    ensures SortedBy(Place(x, s, Later), Later)
  {
    if s != [] && Later(s[0], x) {
      PlaceLater(x, s[1..]);
      var r := Place(x, s[1..], Later);
      assert multiset(r) == multiset(s[1..]) + multiset{x};
      forall j | 0 <= j < |r| ensures Later(s[0], r[j]) {
        assert r[j] in multiset(r);
        if r[j] != x { assert r[j] in s[1..]; }
      }
    }
  }

  /** The changes at one offset, in their order. */
  ghost function AtOffset(cs: seq<Change>, o: int): seq<Change> {
    if cs == [] then [] else (if cs[0].rangeOffset == o then [cs[0]] else []) + AtOffset(cs[1..], o)
  }

  /** Later ranges first. */
  ghost predicate WeaklyDescends(s: seq<Change>) {
    forall i, j :: 0 <= i < j < |s| ==> s[i].rangeOffset >= s[j].rangeOffset
  }

  lemma {:induction false} PlaceDescends(x: Change, s: seq<Change>)
    requires WeaklyDescends(s)
    ensures WeaklyDescends(Place(x, s, Later))
  {
    if s != [] && Later(s[0], x) {
      PlaceDescends(x, s[1..]);
      var rest := Place(x, s[1..], Later);
      forall j | 0 <= j < |rest| ensures s[0].rangeOffset >= rest[j].rangeOffset {
        assert rest[j] in multiset(rest);
        if rest[j] != x { assert rest[j] in s[1..]; }
      }
    }
  }

  lemma AtOffsetFirst(x: Change, s: seq<Change>, o: int)
    ensures AtOffset([x] + s, o) == (if x.rangeOffset == o then [x] else []) + AtOffset(s, o)
  {
    assert ([x] + s)[1..] == s;
  }

  /** A change is placed before those that were there with its offset. */
  lemma {:induction false} PlaceKeepsOrder(x: Change, s: seq<Change>, o: int)
    ensures AtOffset(Place(x, s, Later), o) == (if x.rangeOffset == o then [x] else []) + AtOffset(s, o)
  {
    if s != [] && Later(s[0], x) {
      PlaceKeepsOrder(x, s[1..], o);
      AtOffsetFirst(s[0], Place(x, s[1..], Later), o);
      NeverBoth(if s[0].rangeOffset == o then [s[0]] else [], if x.rangeOffset == o then [x] else [],
                AtOffset(s[1..], o));
    } else {
      AtOffsetFirst(x, s, o);
    }
  }

  lemma NeverBoth<T>(a: seq<T>, b: seq<T>, c: seq<T>)
    requires a == [] || b == []
    ensures a + (b + c) == b + (a + c)
  {
  }

  /** Whatever the changes: later ranges come first, and changes at one offset keep their order. */
  lemma {:induction false} SortIsStable(cs: seq<Change>, o: int)
    ensures WeaklyDescends(Sort(cs, Later))
    ensures AtOffset(Sort(cs, Later), o) == AtOffset(cs, o)
  {
    if cs != [] {
      SortIsStable(cs[1..], o);
      PlaceDescends(cs[0], Sort(cs[1..], Later));
      PlaceKeepsOrder(cs[0], Sort(cs[1..], Later), o);
    }
  }

  lemma SortMembers(cs: seq<Change>, c: Change)
    ensures c in Sort(cs, Later) <==> c in cs
  {
    assert c in multiset(Sort(cs, Later)) <==> c in multiset(cs);
  }

  lemma {:induction false} SortDescends(cs: seq<Change>)
    requires Disjoint(cs)
    ensures SortedBy(Sort(cs, Later), Later)
  {
    if cs != [] {
      var rest := cs[1..];
      assert forall i :: 0 <= i < |rest| ==> rest[i] == cs[i + 1];
      SortDescends(rest);
      forall y | y in Sort(rest, Later) ensures y.rangeOffset != cs[0].rangeOffset {
        SortMembers(rest, y);
        var i :| 0 <= i < |rest| && rest[i] == y;
        assert Apart(cs[0], cs[i + 1]);
      }
      PlaceLater(cs[0], Sort(rest, Later));
    }
  }

  lemma SortDisjoint(cs: seq<Change>)
    requires Disjoint(cs)
    ensures Disjoint(Sort(cs, Later))
  {
    var ds := Sort(cs, Later);
    SortDescends(cs);
    forall i, j | 0 <= i < |ds| && 0 <= j < |ds| && i != j ensures Apart(ds[i], ds[j]) {
      SortMembers(cs, ds[i]);
      SortMembers(cs, ds[j]);
      var a :| 0 <= a < |cs| && cs[a] == ds[i];
      var b :| 0 <= b < |cs| && cs[b] == ds[j];
      assert if i < j then Later(ds[i], ds[j]) else Later(ds[j], ds[i]);
      assert a != b;
      assert Apart(cs[a], cs[b]);
    }
  }

  /** Disjoint changes in the coordinates of the original text are all made at once. */
  lemma SimultaneousReplacement(text: string, cs: seq<Change>)
    requires Disjoint(cs) && AllInRange(text, cs)
    ensures Amended(text, Sort(cs, Later)) == Ok(Replaced(text, cs))
  {
    var ds := Sort(cs, Later);
    SortDescends(cs);
    SortDisjoint(cs);
    forall c ensures (c in ds <==> c in cs) && AlikeAt(ds, cs, 0, c) { SortMembers(cs, c); }
    DescendingFold(text, ds);
    SameFrom(text, ds, cs, 0);
  }
}
