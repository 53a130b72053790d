/** The exact effect of a local edit on the visible text. */
module EditEffects {
  import opened Ids
  import opened Operations
  import opened Tree
  import opened Denotation
  import opened LocalEdits
  import opened Splice

  /** Where the first character of a run inserted at visible position `i` lands. */
  ghost function Landing(ops: OpSet, replicaId: string, counter: u64, i: nat): nat
    requires i <= |Visible(ops)| && counter < U64_MAX
  {
    i + Passed(ops, AnchorAt(Visible(ops), i), ElementId(counter + 1, replicaId))
  }

  ghost function RunIds(replicaId: string, counter: u64, n: nat): seq<ElementId>
    requires counter + n <= U64_MAX
  {
    seq(n, k requires 0 <= k < n => ElementId(counter + 1 + k, replicaId))
  }

  lemma NextIsFresh(ops: OpSet, replicaId: string, counter: u64)
    requires OneLineage(ops, replicaId, counter) && counter < U64_MAX
    ensures ElementId(counter + 1, replicaId) !in ops
    ensures Unreferenced(ops, ElementId(counter + 1, replicaId))
  {
  }

  /** A local operation that refers to something already there keeps the lineage. */
  lemma LineageStep(ops: OpSet, replicaId: string, counter: u64, op: Operation)
    requires OneLineage(ops, replicaId, counter) && counter < U64_MAX
    requires op.opId == ElementId(counter + 1, replicaId)
    requires forall r :: RefersTo(op, r) ==> r in ops
    ensures OneLineage(ops[op.opId := op], replicaId, counter + 1)
  {
    var ops' := ops[op.opId := op];
    forall id, r | id in ops' && RefersTo(ops'[id], r) && r.replicaId == replicaId
      ensures r.counter <= counter + 1
    {
      if id != op.opId { assert RefersTo(ops[id], r); } else { assert r in ops; }
    }
  }

  lemma LeafPassesNothing(ops: OpSet, k: ElementId, n: ElementId)
    requires Unreferenced(ops, k) && IsLive(ops, k)
    ensures Passed(ops, Element(k), n) == 0
  {
    var f := ParentsOf(ops);
    forall c | c in f ensures f[c] != Element(k) {
      assert !RefersTo(ops[c], k);
    }
    VisibleInOrder(ops);
    forall y | y in Visible(ops) ensures !UnderHigher(f, Element(k), n, y) {
      if PathOf(f, k) < PathOf(f, y) { ChildOnPath(f, Element(k), y); }
    }
    KeepNone(Visible(ops), HigherIds(ops, Element(k), n));
  }

  lemma AnchorIsLive(ops: OpSet, i: nat)
    requires i <= |Visible(ops)|
    ensures LiveAnchor(ParentsOf(ops), AnchorAt(Visible(ops), i))
    ensures i > 0 ==> Visible(ops)[i - 1] in ops
  {
    VisibleInOrder(ops);
    if i > 0 { assert Visible(ops)[i - 1] in VisibleIds(ops); }
  }

  /** One character at visible position `i` lands past the subtrees of its higher siblings. */
  lemma CharacterSplices(ops: OpSet, i: nat, op: Operation)
    requires Inserts(ops, op) && i <= |Visible(ops)| && op.parentId == AnchorAt(Visible(ops), i)
    ensures var v, j := Visible(ops), i + Passed(ops, op.parentId, op.opId);
            j <= |v| && Visible(ops[op.opId := op]) == v[..j] + [op.opId] + v[j..]
  {
    InsertSplices(ops, op);
    InsertPosition(ops, op, i);
  }

  // --- a run of characters --------------------------------------------------------------

  ghost function RunState(ops: OpSet, replicaId: string, counter: u64, anchor: ParentId, text: string, n: nat): OpSet
    requires counter + |text| <= U64_MAX && n <= |text|
  {
    ReceiveAll(ops, RunOps(replicaId, counter, anchor, text)[..n])
  }

  lemma RunStateStep(ops: OpSet, replicaId: string, counter: u64, anchor: ParentId, text: string, n: nat)
    requires counter + |text| <= U64_MAX && n < |text|
    ensures RunState(ops, replicaId, counter, anchor, text, n + 1) ==
              Receive(RunState(ops, replicaId, counter, anchor, text, n), RunOps(replicaId, counter, anchor, text)[n])
  {
    var run := RunOps(replicaId, counter, anchor, text);
    assert run[..n + 1][..n] == run[..n];
  }

  /** The `n`th operation of a run was received as issued. */
  ghost predicate HasRunOp(now: OpSet, replicaId: string, counter: u64, anchor: ParentId, text: string, k: nat)
    requires counter + |text| <= U64_MAX && k < |text|
  {
    var op := RunOps(replicaId, counter, anchor, text)[k];
    op.opId in now && now[op.opId] == op
  }

  /** While a run is issued, every one of its identifiers is fresh. */
  lemma {:induction false} RunLineage(ops: OpSet, replicaId: string, counter: u64,
                                      anchor: ParentId, text: string, n: nat)
    requires OneLineage(ops, replicaId, counter) && counter + |text| <= U64_MAX && n <= |text|
    requires anchor.Element? ==> anchor.id in ops
    ensures var now := RunState(ops, replicaId, counter, anchor, text, n);
            && OneLineage(now, replicaId, counter + n)
            && (n > 0 ==> ElementId(counter + n, replicaId) in now)
  {
    if n > 0 {
      var was := RunState(ops, replicaId, counter, anchor, text, n - 1);
      var op := RunOps(replicaId, counter, anchor, text)[n - 1];
      RunLineage(ops, replicaId, counter, anchor, text, n - 1);
      RunStateStep(ops, replicaId, counter, anchor, text, n - 1);
      NextIsFresh(was, replicaId, counter + n - 1);
      ReceiveAllIncludes(ops, RunOps(replicaId, counter, anchor, text)[..n - 1]);
      LineageStep(was, replicaId, counter + n - 1, op);
    }
  }

  /** Every operation of the run was received as issued, and nothing refers to the last one. */
  lemma {:induction false} RunReceived(ops: OpSet, replicaId: string, counter: u64,
                                       anchor: ParentId, text: string, n: nat)
    requires OneLineage(ops, replicaId, counter) && counter + |text| <= U64_MAX && n <= |text|
    requires anchor.Element? ==> anchor.id in ops
    ensures var now := RunState(ops, replicaId, counter, anchor, text, n);
            && (n > 0 ==> Unreferenced(now, ElementId(counter + n, replicaId)))
            && (forall k :: 0 <= k < n ==> HasRunOp(now, replicaId, counter, anchor, text, k))
  {
    if n > 0 {
      var was := RunState(ops, replicaId, counter, anchor, text, n - 1);
      var op := RunOps(replicaId, counter, anchor, text)[n - 1];
      RunReceived(ops, replicaId, counter, anchor, text, n - 1);
      RunLineage(ops, replicaId, counter, anchor, text, n - 1);
      RunStateStep(ops, replicaId, counter, anchor, text, n - 1);
      NextIsFresh(was, replicaId, counter + n - 1);
      var now := was[op.opId := op];
      ReceiveAllIncludes(ops, RunOps(replicaId, counter, anchor, text)[..n - 1]);
      forall k | 0 <= k < n - 1 ensures HasRunOp(now, replicaId, counter, anchor, text, k) {
        assert HasRunOp(was, replicaId, counter, anchor, text, k);
      }
    }
  }

  /** After `n` characters of a run: they stand together where the first one landed. */
  lemma {:induction false} RunPrefix(ops: OpSet, replicaId: string, counter: u64, i: nat, text: string, n: nat)
    requires OneLineage(ops, replicaId, counter) && counter + |text| <= U64_MAX
    requires i <= |Visible(ops)| && 0 < n <= |text|
    ensures var v, j := Visible(ops), Landing(ops, replicaId, counter, i);
            j <= |v| && Visible(RunState(ops, replicaId, counter, AnchorAt(v, i), text, n)) ==
                          v[..j] + RunIds(replicaId, counter, n) + v[j..]
  {
    var v := Visible(ops);
    if n == 1 {
      RunStep(ops, replicaId, counter, i, text, 0);
      FirstOfRun(ops, replicaId, counter, i, RunOps(replicaId, counter, AnchorAt(v, i), text)[0]);
    } else {
      RunPrefix(ops, replicaId, counter, i, text, n - 1);
      var was := RunState(ops, replicaId, counter, AnchorAt(v, i), text, n - 1);
      RunStep(ops, replicaId, counter, i, text, n - 1);
      NextOfRun(v, was, replicaId, counter, Landing(ops, replicaId, counter, i), n - 1,
                RunOps(replicaId, counter, AnchorAt(v, i), text)[n - 1]);
    }
  }

  lemma RunStep(ops: OpSet, replicaId: string, counter: u64, i: nat, text: string, n: nat)
    requires OneLineage(ops, replicaId, counter) && counter + |text| <= U64_MAX
    requires i <= |Visible(ops)| && n < |text|
    ensures var was := RunState(ops, replicaId, counter, AnchorAt(Visible(ops), i), text, n);
            var op := RunOps(replicaId, counter, AnchorAt(Visible(ops), i), text)[n];
            && op.opId !in was && Unreferenced(was, op.opId)
            && (n > 0 ==> Unreferenced(was, ElementId(counter + n, replicaId)))
            && RunState(ops, replicaId, counter, AnchorAt(Visible(ops), i), text, n + 1) == was[op.opId := op]
  {
    AnchorIsLive(ops, i);
    RunLineage(ops, replicaId, counter, AnchorAt(Visible(ops), i), text, n);
    RunReceived(ops, replicaId, counter, AnchorAt(Visible(ops), i), text, n);
    RunStateStep(ops, replicaId, counter, AnchorAt(Visible(ops), i), text, n);
    NextIsFresh(RunState(ops, replicaId, counter, AnchorAt(Visible(ops), i), text, n), replicaId, counter + n);
  }

  lemma FirstOfRun(ops: OpSet, replicaId: string, counter: u64, i: nat, op: Operation)
    requires counter < U64_MAX && i <= |Visible(ops)|
    requires op.Insert? && op.opId == ElementId(counter + 1, replicaId) && op.parentId == AnchorAt(Visible(ops), i)
    requires op.opId !in ops && Unreferenced(ops, op.opId)
    ensures var v, j := Visible(ops), Landing(ops, replicaId, counter, i);
            j <= |v| && Visible(ops[op.opId := op]) == v[..j] + RunIds(replicaId, counter, 1) + v[j..]
  {
    AnchorIsLive(ops, i);
    CharacterSplices(ops, i, op);
    assert RunIds(replicaId, counter, 1) == [op.opId];
  }

  lemma NextOfRun(v: seq<ElementId>, was: OpSet, replicaId: string, counter: u64, j: nat, n: nat, op: Operation)
    requires 0 < n && counter + n < U64_MAX && j <= |v|
    requires Visible(was) == v[..j] + RunIds(replicaId, counter, n) + v[j..]
    requires Unreferenced(was, ElementId(counter + n, replicaId))
    requires op.Insert? && op.opId == ElementId(counter + n + 1, replicaId)
    requires op.opId !in was && Unreferenced(was, op.opId)
    requires op.parentId == Element(ElementId(counter + n, replicaId))
    ensures Visible(was[op.opId := op]) == v[..j] + RunIds(replicaId, counter, n + 1) + v[j..]
  {
    var last, ids := ElementId(counter + n, replicaId), RunIds(replicaId, counter, n);
    var w := Visible(was);
    assert w[j + n - 1] == ids[n - 1] == last;
    AnchorIsLive(was, j + n);
    LeafPassesNothing(was, last, op.opId);
    CharacterSplices(was, j + n, op);
    assert RunIds(replicaId, counter, n + 1) == ids + [op.opId];
    Respliced(v, j, ids, op.opId);
  }

  lemma Respliced(v: seq<ElementId>, j: nat, ids: seq<ElementId>, n: ElementId)
    requires j <= |v|
    ensures var w := v[..j] + ids + v[j..];
            w[..j + |ids|] + [n] + w[j + |ids|..] == v[..j] + (ids + [n]) + v[j..]
  {
    var w := v[..j] + ids + v[j..];
    assert w[..j + |ids|] == v[..j] + ids;
    assert w[j + |ids|..] == v[j..];
  }

  /** `insert(i, s)` turns text `T` into `T[..j] + s + T[j..]`, where `j` is the landing position. */
  lemma RunText(ops: OpSet, replicaId: string, counter: u64, i: nat, text: string)
    requires OneLineage(ops, replicaId, counter) && 0 < |text| && counter + |text| <= U64_MAX
    requires i <= |Visible(ops)|
    ensures var j := Landing(ops, replicaId, counter, i);
            && j <= |Text(ops)|
            && Text(ReceiveAll(ops, RunOps(replicaId, counter, AnchorAt(Visible(ops), i), text))) ==
                 Text(ops)[..j] + text + Text(ops)[j..]
  {
    var anchor, v, j := AnchorAt(Visible(ops), i), Visible(ops), Landing(ops, replicaId, counter, i);
    var run := RunOps(replicaId, counter, anchor, text);
    var ids := RunIds(replicaId, counter, |text|);
    RunPrefix(ops, replicaId, counter, i, text, |text|);
    assert run[..|text|] == run;
    var now := ReceiveAll(ops, run);
    AnchorIsLive(ops, i);
    RunLineage(ops, replicaId, counter, anchor, text, |text|);
    RunReceived(ops, replicaId, counter, anchor, text, |text|);
    ReceiveAllIncludes(ops, run);
    VisibleInOrder(ops);
    forall k | 0 <= k < |v| ensures ValueOf(now, v[k]) == ValueOf(ops, v[k]) {
      assert v[k] in VisibleIds(ops);
    }
    forall k | 0 <= k < |text| ensures ValueOf(now, ids[k]) == text[k] {
      assert HasRunOp(now, replicaId, counter, anchor, text, k);
    }
    SplicedValues(ops, now, v, j, ids, text);
  }

  lemma SplicedValues(ops: OpSet, now: OpSet, v: seq<ElementId>, j: nat, ids: seq<ElementId>, text: string)
    requires j <= |v| && |ids| == |text|
    requires forall k :: 0 <= k < |v| ==> ValueOf(now, v[k]) == ValueOf(ops, v[k])
    requires forall k :: 0 <= k < |ids| ==> ValueOf(now, ids[k]) == text[k]
    ensures Values(now, v[..j] + ids + v[j..]) == Values(ops, v)[..j] + text + Values(ops, v)[j..]
  {
  }

  /**
   * A run lands exactly at its position if and only if no visible character lies under a child
   * of the anchor that is higher than the new identifier.
   */
  lemma LandsAtIndexIff(ops: OpSet, replicaId: string, counter: u64, i: nat)
    requires i <= |Visible(ops)| && counter < U64_MAX
    ensures Landing(ops, replicaId, counter, i) == i <==>
              forall y :: y in Visible(ops) ==>
                !UnderHigher(ParentsOf(ops), AnchorAt(Visible(ops), i), ElementId(counter + 1, replicaId), y)
  {
    var v, f := Visible(ops), ParentsOf(ops);
    var k, n := AnchorAt(v, i), ElementId(counter + 1, replicaId);
    var higher := HigherIds(ops, k, n);
    VisibleInOrder(ops);
    forall y | y in v ensures y in higher <==> UnderHigher(f, k, n, y) {
      assert y in VisibleIds(ops);
    }
    if forall y :: y in v ==> !UnderHigher(f, k, n, y) {
      KeepNone(v, higher);
    } else {
      var y :| y in v && UnderHigher(f, k, n, y);
      KeepMembers(v, higher, y);
    }
  }

  /** The counter is at least that of every character inserted below anchor `k`. */
  ghost predicate DominatesChildren(ops: OpSet, k: ParentId, counter: u64) {
    forall id :: id in ops && ops[id].Insert? && ops[id].parentId == k ==> id.counter <= counter
  }

  /** A replica whose counter is at least those of the anchor's children inserts where it is told. */
  lemma DominantLandsAtIndex(ops: OpSet, replicaId: string, counter: u64, i: nat)
    requires i <= |Visible(ops)| && counter < U64_MAX
    requires DominatesChildren(ops, AnchorAt(Visible(ops), i), counter)
    ensures Landing(ops, replicaId, counter, i) == i
  {
    var f, k, n := ParentsOf(ops), AnchorAt(Visible(ops), i), ElementId(counter + 1, replicaId);
    AnchorIsLive(ops, i);
    forall y | y in Visible(ops) ensures !UnderHigher(f, k, n, y) {
      VisibleInOrder(ops);
      var d := |AnchorPath(f, k)|;
      if d < |PathOf(f, y)| && AnchorPath(f, k) < PathOf(f, y) {
        ChildOnPath(f, k, y);
      }
    }
    LandsAtIndexIff(ops, replicaId, counter, i);
  }

  lemma ChildOnPath(f: Parents, k: ParentId, y: ElementId)
    requires Live(f, y) && LiveAnchor(f, k) && AnchorPath(f, k) < PathOf(f, y)
    ensures PathOf(f, y)[|AnchorPath(f, k)|] in f && f[PathOf(f, y)[|AnchorPath(f, k)|]] == k
  {
    var d := |AnchorPath(f, k)|;
    AncestorPath(f, y, d);
    if k.Element? {
      LivePath(f, k.id);
      assert PathOf(f, y)[d - 1] == AnchorPath(f, k)[d - 1] == k.id;
    }
  }
}
