/** Element identifiers, insertion anchors and their order (crates/crdt-core/src/id.rs). */
module Ids {
  const U64_MAX: nat := 0xFFFF_FFFF_FFFF_FFFF

  type u64 = x: nat | x <= U64_MAX

  datatype ElementId = ElementId(counter: u64, replicaId: string)

  datatype ParentId = Root | Element(id: ElementId)

  /** `str` comparison: by scalar values, a proper prefix first. */
  predicate LexLess(a: string, b: string) {
    b != [] && (a == [] || a[0] < b[0] || (a[0] == b[0] && LexLess(a[1..], b[1..])))
  }

  /** `Ord for ElementId`: by counter, then by replica id. */
  predicate Less(a: ElementId, b: ElementId) {
    a.counter < b.counter || (a.counter == b.counter && LexLess(a.replicaId, b.replicaId))
  }

  /** `compare_element_id_descending(a, b)` is `Ordering::Less`: `a` is listed before `b`. */
  predicate Above(a: ElementId, b: ElementId) {
    Less(b, a)
  }

  /** `b` is greater at the first position where the two differ, or continues where `a` ends. */
  lemma {:induction false} LexIsFirstDifference(a: string, b: string)
    ensures LexLess(a, b) <==>
              exists k :: 0 <= k <= |a| && k < |b| && a[..k] == b[..k] && (k == |a| || a[k] < b[k])
  {
    if a != [] && b != [] && a[0] == b[0] {
      LexIsFirstDifference(a[1..], b[1..]);
      if LexLess(a, b) {
        var k :| 0 <= k <= |a[1..]| && k < |b[1..]| && a[1..][..k] == b[1..][..k]
                 && (k == |a[1..]| || a[1..][k] < b[1..][k]);
        assert a[..k + 1] == [a[0]] + a[1..][..k] && b[..k + 1] == [b[0]] + b[1..][..k];
      }
      if k :| 0 <= k <= |a| && k < |b| && a[..k] == b[..k] && (k == |a| || a[k] < b[k]) {
        assert k > 0;
        assert a[1..][..k - 1] == a[..k][1..] == b[..k][1..] == b[1..][..k - 1];
      }
    } else if LexLess(a, b) {
      assert a[..0] == b[..0];
    } else {
      assert forall k :: 0 < k <= |a| && k < |b| ==> a[..k][0] == a[0] && b[..k][0] == b[0];
    }
  }

  lemma {:induction false} LexIrreflexive(a: string)
    ensures !LexLess(a, a)
  {
    if a != [] {
      LexIrreflexive(a[1..]);
    }
  }

  lemma {:induction false} LexTransitive(a: string, b: string, c: string)
    requires LexLess(a, b) && LexLess(b, c)
    ensures LexLess(a, c)
  {
    if a != [] && a[0] == b[0] && b[0] == c[0] {
      LexTransitive(a[1..], b[1..], c[1..]);
    }
  }

  lemma {:induction false} LexTotal(a: string, b: string)
    ensures LexLess(a, b) || a == b || LexLess(b, a)
  {
    if a != [] && b != [] && a[0] == b[0] {
      LexTotal(a[1..], b[1..]);
      assert a == [a[0]] + a[1..] && b == [b[0]] + b[1..];
    }
  }

  lemma LessIrreflexive(a: ElementId)
    ensures !Less(a, a)
  {
    LexIrreflexive(a.replicaId);
  }

  lemma LessTransitive(a: ElementId, b: ElementId, c: ElementId)
    requires Less(a, b) && Less(b, c)
    ensures Less(a, c)
  {
    if a.counter == b.counter == c.counter {
      LexTransitive(a.replicaId, b.replicaId, c.replicaId);
    }
  }

  lemma LessTotal(a: ElementId, b: ElementId)
    ensures Less(a, b) || a == b || Less(b, a)
  {
    LexTotal(a.replicaId, b.replicaId);
  }
}
