/** The stack of the iterative depth-first walk, read as the part of the document still to come. */
module StackWalk {
  import opened Sequences
  import opened Ids
  import opened Tree
  import opened Preorder

  function Reverse<T>(s: seq<T>): (r: seq<T>)
    ensures |r| == |s|
    ensures forall i :: 0 <= i < |s| ==> r[i] == s[|s| - 1 - i]
  {
    if s == [] then [] else Reverse(s[1..]) + [s[0]]
  }

  ghost predicate AllLive(f: Parents, ids: seq<ElementId>) {
    forall i :: 0 <= i < |ids| ==> Live(f, ids[i])
  }

  ghost function Subtree(f: Parents, id: ElementId): seq<ElementId>
    requires Live(f, id)
  {
    Walk(f, [id], |PathOf(f, id)| - 1)
  }

  /** The last node of the stack with everything below it, then the one under it, and so on. */
  ghost function Unstack(f: Parents, stack: seq<ElementId>): seq<ElementId>
    requires AllLive(f, stack)
  {
    if stack == [] then [] else
      Subtree(f, stack[|stack| - 1]) + Unstack(f, stack[..|stack| - 1])
  }

  lemma SubtreeUnfold(f: Parents, id: ElementId)
    requires Live(f, id)
    ensures AtDepth(f, Kids(f, Element(id)), |PathOf(f, id)|)
    ensures Subtree(f, id) == [id] + Walk(f, Kids(f, Element(id)), |PathOf(f, id)|)
  {
    KidsDeeper(f, id);
    assert [id][1..] == [];
    assert Walk(f, [id][1..], |PathOf(f, id)| - 1) == [];
  }

  lemma PushOne(f: Parents, stack: seq<ElementId>, id: ElementId)
    requires AllLive(f, stack) && Live(f, id)
    ensures AllLive(f, stack + [id])
    ensures Unstack(f, stack + [id]) == Subtree(f, id) + Unstack(f, stack)
  {
    assert (stack + [id])[..|stack|] == stack;
  }

  lemma WalkUnfold(f: Parents, ids: seq<ElementId>, d: nat)
    requires AtDepth(f, ids, d) && ids != []
    ensures Walk(f, ids, d) == Subtree(f, ids[0]) + Walk(f, ids[1..], d)
  {
    SubtreeUnfold(f, ids[0]);
  }

  /** Pushing siblings in reverse order puts their walk in front of what was left to do. */
  lemma {:induction false} PushReversed(f: Parents, stack: seq<ElementId>, ids: seq<ElementId>, d: nat)
    requires AllLive(f, stack) && AtDepth(f, ids, d)
    ensures AllLive(f, stack + Reverse(ids))
    ensures Unstack(f, stack + Reverse(ids)) == Walk(f, ids, d) + Unstack(f, stack)
  {
    if ids == [] {
      assert stack + Reverse(ids) == stack;
      assert Walk(f, ids, d) + Unstack(f, stack) == Unstack(f, stack);
    } else {
      var rest := stack + Reverse(ids[1..]);
      PushReversed(f, stack, ids[1..], d);
      Associative(stack, Reverse(ids[1..]), [ids[0]]);
      PushOne(f, rest, ids[0]);
      WalkUnfold(f, ids, d);
      Regroup(Unstack(f, stack + Reverse(ids)), Subtree(f, ids[0]), Unstack(f, rest),
              Walk(f, ids[1..], d), Unstack(f, stack), Walk(f, ids, d));
    }
  }

  lemma Regroup<T>(all: seq<T>, first: seq<T>, more: seq<T>, rest: seq<T>, under: seq<T>, walk: seq<T>)
    requires all == first + more && more == rest + under && walk == first + rest
    ensures all == walk + under
  {
  }

  /** Popping a node and pushing its children in reverse order removes just that node from the walk. */
  lemma PopAndPush(f: Parents, stack: seq<ElementId>)
    requires AllLive(f, stack) && stack != []
    ensures var id, rest := stack[|stack| - 1], stack[..|stack| - 1];
            var next := rest + Reverse(Kids(f, Element(id)));
            AllLive(f, next) && Unstack(f, stack) == [id] + Unstack(f, next)
  {
    var id, rest := stack[|stack| - 1], stack[..|stack| - 1];
    SubtreeUnfold(f, id);
    PushReversed(f, rest, Kids(f, Element(id)), |PathOf(f, id)|);
    Split(Unstack(f, stack), id, Walk(f, Kids(f, Element(id)), |PathOf(f, id)|), Unstack(f, rest),
          Subtree(f, id), Unstack(f, rest + Reverse(Kids(f, Element(id)))));
  }

  lemma Split<T>(all: seq<T>, x: T, walk: seq<T>, rest: seq<T>, sub: seq<T>, next: seq<T>)
    requires all == sub + rest && sub == [x] + walk && next == walk + rest
    ensures all == [x] + next
  {
  }

  lemma Neutral<T>(s: seq<T>)
    ensures [] + s == s && s + [] == s
  {
  }

  /** The walk starts with the children of the root on the stack. */
  lemma StartStack(f: Parents)
    ensures AllLive(f, Reverse(Kids(f, Root)))
    ensures Unstack(f, Reverse(Kids(f, Root))) == Traversal(f)
  {
    RootKids(f);
    PushReversed(f, [], Kids(f, Root), 0);
    Neutral(Reverse(Kids(f, Root)));
    Neutral(Traversal(f));
  }
}
