/** What local edits issue: operations of the replica's own, and a counter that stays ahead. */
module Issuing {
  import opened Ids
  import opened Operations
  import opened Tree
  import opened Denotation
  import opened LocalEdits
  import opened EditEffects

  /** No character of the document has a higher counter. */
  ghost predicate Dominates(ops: OpSet, counter: u64) {
    forall id :: id in ElementsOf(ops) ==> id.counter <= counter
  }

  lemma DominatesAnchors(ops: OpSet, counter: u64, i: nat)
    requires Dominates(ops, counter) && i <= |Visible(ops)|
    ensures DominatesChildren(ops, AnchorAt(Visible(ops), i), counter)
  {
    var f, k := ParentsOf(ops), AnchorAt(Visible(ops), i);
    AnchorIsLive(ops, i);
    forall id | id in ops && ops[id].Insert? && ops[id].parentId == k ensures id.counter <= counter {
      ChildPath(f, id);
      assert id in ElementsOf(ops);
    }
  }

  /** What a local edit issues is the replica's own and later than anything before. */
  ghost predicate OwnNews(ops: OpSet, now: OpSet, replicaId: string, counter: u64) {
    && Included(ops, now)
    && forall id :: id in now && id !in ops ==> id.replicaId == replicaId && id.counter > counter
  }

  /** A local edit makes no operation live that was received before. */
  lemma NothingOldGoesLive(ops: OpSet, now: OpSet, replicaId: string, counter: u64, id: ElementId)
    requires OneLineage(ops, replicaId, counter) && OwnNews(ops, now, replicaId, counter)
    requires IsLive(now, id)
    ensures IsLive(ops, id) || id !in ops
  {
    var f, g := ParentsOf(ops), ParentsOf(now);
    var s := set x | x in now && (IsLive(ops, x) || x !in ops);
    forall x | x in g && (g[x].Element? ==> g[x].id in s) ensures x in s {
      if x in ops {
        NewAnchorIsOld(ops, now, replicaId, counter, x);
        ChildPath(f, x);
      }
    }
    LiveLeast(g, s, id);
  }

  lemma NewAnchorIsOld(ops: OpSet, now: OpSet, replicaId: string, counter: u64, x: ElementId)
    requires OneLineage(ops, replicaId, counter) && OwnNews(ops, now, replicaId, counter)
    requires x in ops && ops[x].Insert?
    ensures ops[x].parentId.Element? && ops[x].parentId.id in now ==> ops[x].parentId.id in ops
  {
    if ops[x].parentId.Element? { assert RefersTo(ops[x], ops[x].parentId.id); }
  }

  /** Every local edit keeps the counter ahead. */
  lemma EditKeepsDominance(ops: OpSet, now: OpSet, replicaId: string, counter: u64, counter': u64)
    requires Dominates(ops, counter) && OneLineage(ops, replicaId, counter) && counter <= counter'
    requires OwnNews(ops, now, replicaId, counter) && OwnIdsCounted(now, replicaId, counter')
    ensures Dominates(now, counter')
  {
    forall id | id in ElementsOf(now) ensures id.counter <= counter' {
      NothingOldGoesLive(ops, now, replicaId, counter, id);
      if id in ops { assert id in ElementsOf(ops); }
    }
  }

  lemma NewsOf(ops: OpSet, s: seq<Operation>, replicaId: string, counter: u64)
    requires Numbered(s, counter, replicaId)
    ensures OwnNews(ops, ReceiveAll(ops, s), replicaId, counter)
  {
    ReceiveAllIncludes(ops, s);
    forall id | id in ReceiveAll(ops, s) && id !in ops ensures id.replicaId == replicaId && id.counter > counter {
      ReceiveAllIds(ops, s, id);
    }
  }

  // --- a list of operations -------------------------------------------------------------

  /** Operations numbered one after the other. */
  ghost predicate Numbered(s: seq<Operation>, counter: u64, replicaId: string) {
    forall i :: 0 <= i < |s| ==> s[i].opId.counter == counter + 1 + i && s[i].opId.replicaId == replicaId
  }

  /** Each operation refers to what was there or to what was issued before it. */
  ghost predicate RefersBack(was: OpSet, s: seq<Operation>) {
    forall i, x {:trigger RefersTo(s[i], x)} ::
      0 <= i < |s| && RefersTo(s[i], x) ==> x in ReceiveAll(was, s[..i])
  }

  lemma RefersBackConcat(was: OpSet, s: seq<Operation>, t: seq<Operation>)
    requires RefersBack(was, s) && RefersBack(ReceiveAll(was, s), t)
    ensures RefersBack(was, s + t)
  {
    forall i, x | 0 <= i < |s + t| && RefersTo((s + t)[i], x) ensures x in ReceiveAll(was, (s + t)[..i]) {
      if i < |s| {
        assert (s + t)[..i] == s[..i] && RefersTo(s[i], x);
      } else {
        assert (s + t)[..i] == s + t[..i - |s|] && RefersTo(t[i - |s|], x);
        ReceiveAllConcat(was, s, t[..i - |s|]);
      }
    }
  }

  lemma RunRefersBack(was: OpSet, replicaId: string, counter: u64, anchor: ParentId, text: string)
    requires OneLineage(was, replicaId, counter) && counter + |text| <= U64_MAX
    requires anchor.Element? ==> anchor.id in was
    ensures RefersBack(was, RunOps(replicaId, counter, anchor, text))
  {
    var s := RunOps(replicaId, counter, anchor, text);
    forall i, x | 0 <= i < |s| && RefersTo(s[i], x) ensures x in ReceiveAll(was, s[..i]) {
      RunLineage(was, replicaId, counter, anchor, text, i);
      ReceiveAllIncludes(was, s[..i]);
    }
  }

  lemma StrikesReferBack(was: OpSet, replicaId: string, counter: u64, targets: seq<ElementId>)
    requires counter + |targets| <= U64_MAX && forall t :: t in targets ==> t in was
    ensures RefersBack(was, StrikeOps(replicaId, counter, targets))
  {
    var s := StrikeOps(replicaId, counter, targets);
    forall i, x | 0 <= i < |s| && RefersTo(s[i], x) ensures x in ReceiveAll(was, s[..i]) {
      assert targets[i] in was;
      ReceiveAllIncludes(was, s[..i]);
    }
  }

  /** What an edit did to the replica: operations of its own, and a counter that counts them. */
  ghost predicate Issues(was: OpSet, counter: u64, now: OpSet, counter': u64, replicaId: string, s: seq<Operation>) {
    && now == ReceiveAll(was, s) && counter' == counter + |s|
    && Numbered(s, counter, replicaId) && RefersBack(was, s) && OwnNews(was, now, replicaId, counter)
    && (Dominates(was, counter) && OneLineage(was, replicaId, counter) ==> Dominates(now, counter'))
  }

  lemma NothingIssued(was: OpSet, counter: u64, replicaId: string)
    ensures Issues(was, counter, was, counter, replicaId, [])
  {
  }

  lemma IssuedMore(was: OpSet, counter: u64, mid: OpSet, counter': u64, now: OpSet, counter'': u64, replicaId: string,
                   s: seq<Operation>, t: seq<Operation>)
    requires Issues(was, counter, mid, counter', replicaId, s) && Issues(mid, counter', now, counter'', replicaId, t)
    requires OneLineage(mid, replicaId, counter')
    ensures Issues(was, counter, now, counter'', replicaId, s + t)
  {
    ReceiveAllConcat(was, s, t);
    RefersBackConcat(was, s, t);
  }

  lemma EditIssues(was: OpSet, counter: u64, now: OpSet, counter': u64, replicaId: string, s: seq<Operation>)
    requires OneLineage(was, replicaId, counter) && OneLineage(now, replicaId, counter')
    requires now == ReceiveAll(was, s) && counter' == counter + |s|
    requires Numbered(s, counter, replicaId) && RefersBack(was, s)
    ensures Issues(was, counter, now, counter', replicaId, s)
  {
    NewsOf(was, s, replicaId, counter);
    if Dominates(was, counter) { EditKeepsDominance(was, now, replicaId, counter, counter'); }
  }
}
