/**
 * What a replica's state must be, as a function of the set of operations it has received:
 * the inserts whose anchors lead to the root make up the document, tombstoned by the deletes
 * that name them; the rest is pending.
 */
module Denotation {
  import opened Ids
  import opened Keys
  import opened Sequences
  import opened Operations
  import opened Tree
  import opened Preorder

  ghost function ParentsOf(ops: OpSet): Parents {
    map id | id in ops && ops[id].Insert? :: ops[id].parentId
  }

  ghost predicate IsLive(ops: OpSet, id: ElementId) {
    Live(ParentsOf(ops), id)
  }

  ghost predicate DeletedBy(ops: OpSet, d: ElementId, id: ElementId) {
    d in ops && ops[d].Delete? && ops[d].targetId == id
  }

  ghost predicate Tombstoned(ops: OpSet, id: ElementId) {
    exists d :: DeletedBy(ops, d, id)
  }

  ghost function ElementsOf(ops: OpSet): map<ElementId, CharElement> {
    map id | id in ops && ops[id].Insert? && IsLive(ops, id) ::
      CharElement(id, ops[id].value, ops[id].parentId, Tombstoned(ops, id))
  }

  ghost function ParentsIn(elements: map<ElementId, CharElement>): Parents {
    map id | id in elements :: elements[id].parentId
  }

  /** The child index of a set of elements: every anchor's children, highest identifier first. */
  ghost function IndexOf(elements: map<ElementId, CharElement>): map<ParentId, seq<ElementId>> {
    map k | k in {Root} + (set id | id in elements :: Element(id)) :: Kids(ParentsIn(elements), k)
  }

  ghost function PendingInsertsOf(ops: OpSet): OpSet {
    map id | id in ops && ops[id].Insert? && !IsLive(ops, id) :: ops[id]
  }

  ghost function PendingDeletesOf(ops: OpSet): OpSet {
    map id | id in ops && ops[id].Delete? && !IsLive(ops, ops[id].targetId) :: ops[id]
  }

  ghost function SeenOf(ops: OpSet): set<string> {
    set id | id in ops :: Key(id)
  }

  ghost predicate RecordedAt(seen: set<string>, ops: OpSet, key: string) {
    key in seen <==> exists id :: id in ops && Key(id) == key
  }

  /** `seen` holds the keys of the received operations. */
  ghost predicate Recorded(seen: set<string>, ops: OpSet) {
    forall key {:trigger RecordedAt(seen, ops, key)} :: RecordedAt(seen, ops, key)
  }

  lemma RecordedIsSeenOf(seen: set<string>, ops: OpSet)
    ensures Recorded(seen, ops) <==> seen == SeenOf(ops)
  {
    if Recorded(seen, ops) {
      forall key ensures key in seen <==> key in SeenOf(ops) {
        assert RecordedAt(seen, ops, key);
      }
    }
  }

  /** An operation was recorded exactly when it was received. */
  lemma RecordedIff(seen: set<string>, ops: OpSet, id: ElementId)
    requires Recorded(seen, ops)
    ensures Key(id) in seen <==> id in ops
  {
    assert RecordedAt(seen, ops, Key(id));
    forall x | x in ops && Key(x) == Key(id) ensures x == id { KeyInjective(x, id); }
  }

  lemma RecordedMore(seen: set<string>, ops: OpSet, op: Operation)
    requires Recorded(seen, ops)
    ensures Recorded(seen + {Key(op.opId)}, ops[op.opId := op])
  {
    var seen', ops' := seen + {Key(op.opId)}, ops[op.opId := op];
    forall key ensures RecordedAt(seen', ops', key) {
      assert RecordedAt(seen, ops, key);
      if exists id :: id in ops && Key(id) == key {
        var id :| id in ops && Key(id) == key;
        assert id in ops';
      }
      assert key == Key(op.opId) ==> op.opId in ops' && Key(op.opId) == key;
    }
  }

  // --- the document ---------------------------------------------------------------------

  ghost function Document(ops: OpSet): seq<ElementId> {
    Traversal(ParentsOf(ops))
  }

  ghost function VisibleIds(ops: OpSet): set<ElementId> {
    set id | id in ops && IsLive(ops, id) && !Tombstoned(ops, id)
  }

  ghost function Keep(s: seq<ElementId>, keep: set<ElementId>): seq<ElementId> {
    if s == [] then [] else (if s[0] in keep then [s[0]] else []) + Keep(s[1..], keep)
  }

  ghost function Visible(ops: OpSet): seq<ElementId> {
    Keep(Document(ops), VisibleIds(ops))
  }

  ghost function ValueOf(ops: OpSet, id: ElementId): char {
    if id in ops && ops[id].Insert? then ops[id].value else '?'
  }

  ghost function Values(ops: OpSet, ids: seq<ElementId>): string {
    seq(|ids|, i requires 0 <= i < |ids| => ValueOf(ops, ids[i]))
  }

  ghost function Text(ops: OpSet): string {
    Values(ops, Visible(ops))
  }

  lemma {:induction false} KeepConcat(s: seq<ElementId>, t: seq<ElementId>, keep: set<ElementId>)
    ensures Keep(s + t, keep) == Keep(s, keep) + Keep(t, keep)
  {
    if s == [] {
      assert s + t == t;
    } else {
      KeepConcat(s[1..], t, keep);
      assert (s + t)[1..] == s[1..] + t;
      Associative(if s[0] in keep then [s[0]] else [], Keep(s[1..], keep), Keep(t, keep));
    }
  }

  lemma KeepPush(s: seq<ElementId>, x: ElementId, keep: set<ElementId>)
    ensures Keep(s + [x], keep) == Keep(s, keep) + (if x in keep then [x] else [])
  {
    KeepConcat(s, [x], keep);
    assert Keep([x], keep) == if x in keep then [x] else [];
  }

  lemma {:induction false} KeepMembers(s: seq<ElementId>, keep: set<ElementId>, x: ElementId)
    ensures x in Keep(s, keep) <==> x in s && x in keep
  {
    if s != [] {
      KeepMembers(s[1..], keep, x);
      assert s == [s[0]] + s[1..];
    }
  }

  lemma {:induction false} KeepSame(s: seq<ElementId>, a: set<ElementId>, b: set<ElementId>)
    requires forall x :: x in s ==> (x in a <==> x in b)
    ensures Keep(s, a) == Keep(s, b)
  {
    if s != [] {
      KeepSame(s[1..], a, b);
    }
  }
}
