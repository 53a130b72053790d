/** The exact effect of a local deletion on the visible text. */
module StrikeEffects {
  import opened Ids
  import opened Sorting
  import opened Operations
  import opened Tree
  import opened Denotation
  import opened LocalEdits
  import opened Splice
  import opened EditEffects

  lemma DeleteHides(ops: OpSet, op: Operation)
    requires op.Delete? && op.opId !in ops
    ensures ParentsOf(ops[op.opId := op]) == ParentsOf(ops)
    ensures VisibleIds(ops[op.opId := op]) == VisibleIds(ops) - {op.targetId}
  {
    var now := ops[op.opId := op];
    assert ParentsOf(now) == ParentsOf(ops);
    forall id ensures Tombstoned(now, id) <==> Tombstoned(ops, id) || id == op.targetId {
      if Tombstoned(ops, id) {
        var d :| DeletedBy(ops, d, id);
        assert DeletedBy(now, d, id);
      }
      if Tombstoned(now, id) && id != op.targetId {
        var d :| DeletedBy(now, d, id);
        assert DeletedBy(ops, d, id);
      }
      if id == op.targetId { assert DeletedBy(now, op.opId, id); }
    }
  }

  ghost function StrikeState(ops: OpSet, replicaId: string, counter: u64, targets: seq<ElementId>, n: nat): OpSet
    requires counter + |targets| <= U64_MAX && n <= |targets|
  {
    ReceiveAll(ops, StrikeOps(replicaId, counter, targets)[..n])
  }

  lemma {:induction false} StrikePrefix(ops: OpSet, replicaId: string, counter: u64, targets: seq<ElementId>, n: nat)
    requires OneLineage(ops, replicaId, counter) && counter + |targets| <= U64_MAX && n <= |targets|
    requires forall t :: t in targets ==> t in ops
    ensures var now := StrikeState(ops, replicaId, counter, targets, n);
            && OneLineage(now, replicaId, counter + n)
            && Included(ops, now)
            && ParentsOf(now) == ParentsOf(ops)
            && VisibleIds(now) == VisibleIds(ops) - Elems(targets[..n])
  {
    if n > 0 {
      var all := StrikeOps(replicaId, counter, targets);
      var was := StrikeState(ops, replicaId, counter, targets, n - 1);
      var op := all[n - 1];
      StrikePrefix(ops, replicaId, counter, targets, n - 1);
      assert all[..n][..n - 1] == all[..n - 1];
      NextIsFresh(was, replicaId, counter + n - 1);
      assert targets[n - 1] in ops;
      LineageStep(was, replicaId, counter + n - 1, op);
      DeleteHides(was, op);
      assert targets[..n] == targets[..n - 1] + [targets[n - 1]];
      assert Elems(targets[..n]) == Elems(targets[..n - 1]) + {targets[n - 1]};
    } else {
      assert Elems(targets[..0]) == {};
    }
  }

  lemma CutOut(s: seq<ElementId>, less: (ElementId, ElementId) -> bool, i: nat, n: nat, x: ElementId)
    requires SortedBy(s, less) && i + n <= |s| && Asymmetric(less)
    ensures SortedBy(s[..i] + s[i + n..], less)
    ensures x in s[..i] + s[i + n..] <==> x in s && x !in s[i..i + n]
  {
    assert s == s[..i] + s[i..i + n] + s[i + n..];
    forall a, b | 0 <= a < b < |s| ensures s[a] != s[b] {
      assert less(s[a], s[b]);
    }
  }

  lemma VisibleReceived(ops: OpSet)
    ensures forall t :: t in Visible(ops) ==> t in ops
  {
    VisibleInOrder(ops);
    forall t | t in Visible(ops) ensures t in ops { assert t in VisibleIds(ops); }
  }

  /** Deleting `n` characters at `i` removes exactly those from the visible list. */
  lemma StrikeVisible(ops: OpSet, replicaId: string, counter: u64, i: nat, n: nat)
    requires OneLineage(ops, replicaId, counter) && counter + n <= U64_MAX && i + n <= |Visible(ops)|
    ensures var now := ReceiveAll(ops, StrikeOps(replicaId, counter, Visible(ops)[i..i + n]));
            && OneLineage(now, replicaId, counter + n)
            && Included(ops, now)
            && Visible(now) == Visible(ops)[..i] + Visible(ops)[i + n..]
  {
    var targets := Visible(ops)[i..i + n];
    VisibleReceived(ops);
    forall t | t in targets ensures t in ops { assert t in Visible(ops); }
    StrikePrefix(ops, replicaId, counter, targets, n);
    var all := StrikeOps(replicaId, counter, targets);
    assert all[..n] == all && targets[..n] == targets;
    StruckVisible(ops, ReceiveAll(ops, all), i, n);
  }

  /** `delete(i, n)` turns text `T` into `T[..i] + T[i + n..]`. */
  lemma StrikeText(ops: OpSet, replicaId: string, counter: u64, i: nat, n: nat)
    requires OneLineage(ops, replicaId, counter) && counter + n <= U64_MAX && i + n <= |Visible(ops)|
    ensures Text(ReceiveAll(ops, StrikeOps(replicaId, counter, Visible(ops)[i..i + n]))) ==
              Text(ops)[..i] + Text(ops)[i + n..]
  {
    StrikeVisible(ops, replicaId, counter, i, n);
    VisibleReceived(ops);
    CutValues(ops, ReceiveAll(ops, StrikeOps(replicaId, counter, Visible(ops)[i..i + n])), Visible(ops), i, n);
  }

  lemma CutValues(ops: OpSet, now: OpSet, v: seq<ElementId>, i: nat, n: nat)
    requires i + n <= |v| && Included(ops, now) && forall t :: t in v ==> t in ops
    ensures Values(now, v[..i] + v[i + n..]) == Values(ops, v)[..i] + Values(ops, v)[i + n..]
  {
    forall k | 0 <= k < |v| ensures ValueOf(now, v[k]) == ValueOf(ops, v[k]) {
      assert v[k] in v;
    }
  }

  lemma StruckVisible(ops: OpSet, now: OpSet, i: nat, n: nat)
    requires i + n <= |Visible(ops)| && ParentsOf(now) == ParentsOf(ops)
    requires VisibleIds(now) == VisibleIds(ops) - Elems(Visible(ops)[i..i + n])
    ensures Visible(now) == Visible(ops)[..i] + Visible(ops)[i + n..]
  {
    var f, v := ParentsOf(ops), Visible(ops);
    var w := v[..i] + v[i + n..];
    var less := (a, b) => Before(f, a, b);
    VisibleInOrder(ops);
    BeforeAsymmetric(f);
    assert SortedBy(v, less);
    forall x ensures x in w <==> x in VisibleIds(now) {
      CutOut(v, less, i, n, x);
    }
    forall k | 0 <= k < |w| ensures Live(f, w[k]) {
      assert w[k] in VisibleIds(now);
    }
    forall a, b | 0 <= a < b < |w| ensures Before(f, w[a], w[b]) {
      CutOut(v, less, i, n, w[a]);
      assert less(w[a], w[b]);
    }
    VisibleUnique(now, w);
  }
}
