/** Editor changes, as a plain string and as local edits of the replica (documentAdapter.ts). */
module DocumentAdapter {
  import opened Ids
  import opened Wrappers
  import opened Sorting
  import opened Operations
  import opened Tree
  import opened Denotation
  import opened LocalEdits
  import opened EditEffects
  import opened StrikeEffects
  import opened Splice
  import opened Batches
  import opened Issuing
  import opened Placements
  import opened TextCrdts

  /** The changes one after the other, the last range first; an error names the first bad range. */
  method ApplyTextChanges(text: string, changes: seq<Change>) returns (r: Result<string, RangeError>)
    ensures r == Amended(text, Sort(changes, Later))
    ensures r.Err? ==> FailsSomewhere(text, Sort(changes, Later), r.error)
    ensures Disjoint(changes) && AllInRange(text, changes) ==> r == Ok(Replaced(text, changes))
  {
    if Disjoint(changes) && AllInRange(text, changes) { SimultaneousReplacement(text, changes); }
    var nextText := text;
    var sorted := Sort(changes, Later);
    for i := 0 to |sorted|
      invariant Amended(text, sorted[..i]) == Ok(nextText)
    {
      var change := sorted[i];
      var start, end := change.rangeOffset, change.rangeOffset + change.rangeLength;
      OneMoreAmended(text, sorted, i, nextText);
      if start < 0 || end < start || end > |nextText| {
        ErrorStays(text, sorted, i + 1);
        assert FailsAt(text, sorted, i, RangeError(start, change.rangeLength, |nextText|));
        return Err(RangeError(start, change.rangeLength, |nextText|));
      }
      nextText := Replace(nextText, change);
    }
    assert sorted[..|sorted|] == sorted;
    r := Ok(nextText);
  }

  lemma OneMoreAmended(text: string, cs: seq<Change>, i: nat, t: string)
    requires i < |cs| && Amended(text, cs[..i]) == Ok(t)
    ensures Amended(text, cs[..i + 1]) == ApplyOne(t, cs[i])
  {
    assert cs[..i + 1][..i] == cs[..i];
  }

  // --- changes that issue operations ----------------------------------------------------

  /** How many operations a change issues. */
  function Cost(c: Change): nat {
    (if c.rangeLength > 0 then c.rangeLength else 0) + |c.text|
  }

  function Costs(cs: seq<Change>): nat {
    if cs == [] then 0 else Cost(cs[0]) + Costs(cs[1..])
  }

  lemma {:induction false} PlaceCosts(x: Change, s: seq<Change>)
    ensures Costs(Place(x, s, Later)) == Cost(x) + Costs(s)
  {
    if s != [] && Later(s[0], x) {
      PlaceCosts(x, s[1..]);
    }
  }

  lemma {:induction false} SortCosts(cs: seq<Change>)
    ensures Costs(Sort(cs, Later)) == Costs(cs)
  {
    if cs != [] {
      SortCosts(cs[1..]);
      PlaceCosts(cs[0], Sort(cs[1..], Later));
    }
  }

  /** A change that issues nothing, wherever it is. */
  predicate Idle(c: Change) {
    c.rangeLength <= 0 && c.text == ""
  }

  /** Deletion is skipped when the length is not positive. */
  function Clamped(c: Change): Change {
    if c.rangeLength < 0 then c.(rangeLength := 0) else c
  }

  /** The changes that the replica gets to see. */
  function Effective(cs: seq<Change>): seq<Change> {
    if cs == [] then []
    else
      var last := cs[|cs| - 1];
      Effective(cs[..|cs| - 1]) + if Idle(last) then [] else [Clamped(last)]
  }

  /** What the editor accepts as a string, the replica accepts as edits. */
  lemma {:induction false} EffectiveSuffices(text: string, cs: seq<Change>)
    requires Amended(text, cs).Ok?
    ensures Amended(text, Effective(cs)) == Amended(text, cs)
  {
    if cs != [] {
      EffectiveSuffices(text, cs[..|cs| - 1]);
      EffectiveStep(text, cs);
      EditOneSuffices(Amended(text, cs[..|cs| - 1]).value, cs[|cs| - 1]);
    }
  }

  lemma EditOneSuffices(text: string, c: Change)
    requires InRange(text, c)
    ensures EditOne(text, c) == ApplyOne(text, c)
  {
    if Idle(c) { assert Replace(text, c) == text; }
  }

  ghost function EditOne(text: string, c: Change): Result<string, RangeError> {
    if Idle(c) then Ok(text) else ApplyOne(text, Clamped(c))
  }

  lemma EffectiveStep(text: string, cs: seq<Change>)
    requires cs != []
    ensures var before := Amended(text, Effective(cs[..|cs| - 1]));
            Amended(text, Effective(cs)) == if before.Ok? then EditOne(before.value, cs[|cs| - 1]) else before
  {
    var before, last := Effective(cs[..|cs| - 1]), cs[|cs| - 1];
    if !Idle(last) {
      assert Effective(cs) == before + [Clamped(last)];
      assert (before + [Clamped(last)])[..|before|] == before;
    } else {
      assert Effective(cs) == before;
    }
  }

  lemma {:induction false} EffectiveErrorStays(text: string, cs: seq<Change>, n: nat)
    requires n <= |cs| && Amended(text, Effective(cs[..n])).Err?
    ensures Amended(text, Effective(cs)) == Amended(text, Effective(cs[..n]))
  {
    if n == |cs| {
      assert cs[..n] == cs;
    } else {
      assert cs[..|cs| - 1][..n] == cs[..n];
      EffectiveErrorStays(text, cs[..|cs| - 1], n);
      EffectiveStep(text, cs);
    }
  }

  // --- one change -----------------------------------------------------------------------

  /** The edit does to the text what is expected, and fails as expected. */
  ghost predicate Does(was: OpSet, counter: u64, now: OpSet, counter': u64, replicaId: string,
                       r: Result<seq<Operation>, ApplyError>, expected: Result<string, RangeError>)
  {
    match r
    case Err(OutOfRange(index, length)) =>
      expected.Err? && index == expected.error.start && length == expected.error.documentLength && Included(was, now)
    case Ok(s) =>
      && expected.Ok? && |Text(now)| == |expected.value| && Issues(was, counter, now, counter', replicaId, s)
      && (Dominates(was, counter) ==> Text(now) == expected.value)
  }

  ghost function CutOne(text: string, c: Change): Result<string, RangeError>
    requires c.rangeOffset >= 0
  {
    if c.rangeLength <= 0 then Ok(text)
    else if c.rangeOffset + c.rangeLength > |text| then Err(RangeError(c.rangeOffset, c.rangeLength, |text|))
    else Ok(text[..c.rangeOffset] + text[c.rangeOffset + c.rangeLength..])
  }

  ghost function PutOne(text: string, c: Change): Result<string, RangeError>
    requires c.rangeOffset >= 0
  {
    if c.text == "" then Ok(text)
    else if c.rangeOffset > |text| then Err(RangeError(c.rangeOffset, c.rangeLength, |text|))
    else Ok(text[..c.rangeOffset] + c.text + text[c.rangeOffset..])
  }

  /** Deleting a range and inserting at its start is replacing it. */
  lemma CutAndPut(text: string, c: Change)
    requires c.rangeOffset >= 0
    ensures var cut := CutOne(text, c);
            if cut.Err? then EditOne(text, c) == cut
            else var put := PutOne(cut.value, c);
                 if put.Ok? then EditOne(text, c) == put
                 else EditOne(text, c).Err? && EditOne(text, c).error.start == put.error.start
                      && EditOne(text, c).error.documentLength == put.error.documentLength
  {
    if c.rangeLength > 0 && c.rangeOffset + c.rangeLength <= |text| {
      var head, tail := text[..c.rangeOffset], text[c.rangeOffset + c.rangeLength..];
      assert (head + tail)[..c.rangeOffset] == head && (head + tail)[c.rangeOffset..] == tail;
      assert c.text == "" ==> head + c.text + tail == head + tail;
    }
  }

  method DeleteRange(crdt: TextCrdt, c: Change) returns (r: Result<seq<Operation>, ApplyError>)
    requires crdt.Valid() && OneLineage(crdt.received, crdt.replicaId, crdt.counter)
    requires 0 <= c.rangeOffset && crdt.counter + Cost(c) <= U64_MAX
    modifies crdt
    ensures crdt.Valid() && OneLineage(crdt.received, crdt.replicaId, crdt.counter)
    ensures Does(old(crdt.received), old(crdt.counter), crdt.received, crdt.counter, crdt.replicaId, r,
                 CutOne(Text(old(crdt.received)), c))
    ensures r.Ok? ==> |r.value| == Cost(c) - |c.text| && Ok(Text(crdt.received)) == CutOne(Text(old(crdt.received)), c)
    ensures StageOf(crdt.received, crdt.counter) ==
              if r.Ok? then Removed(StageOf(old(crdt.received), old(crdt.counter)), crdt.replicaId, c)
              else StageOf(old(crdt.received), old(crdt.counter))
  {
    if c.rangeLength <= 0 {
      NothingIssued(crdt.received, crdt.counter, crdt.replicaId);
      return Ok([]);
    }
    ghost var was, from := crdt.received, crdt.counter;
    r := crdt.Delete(c.rangeOffset, c.rangeLength);
    CutDoes(was, from, crdt.received, crdt.counter, crdt.replicaId, r, c);
  }

  /** What `Delete` ensures, in terms of the text. */
  lemma CutDoes(was: OpSet, counter: u64, now: OpSet, counter': u64, replicaId: string,
                r: Result<seq<Operation>, ApplyError>, c: Change)
    requires OneLineage(was, replicaId, counter) && OneLineage(now, replicaId, counter')
    requires 0 <= c.rangeOffset && 0 < c.rangeLength && counter + c.rangeLength <= U64_MAX
    requires c.rangeOffset + c.rangeLength > |Visible(was)| ==>
               r == Err(OutOfRange(c.rangeOffset, |Visible(was)|)) && now == was
    requires c.rangeOffset + c.rangeLength <= |Visible(was)| ==>
               && r == Ok(StrikeOps(replicaId, counter, Visible(was)[c.rangeOffset..c.rangeOffset + c.rangeLength]))
               && now == ReceiveAll(was, r.value) && counter' == counter + c.rangeLength
    ensures Does(was, counter, now, counter', replicaId, r, CutOne(Text(was), c))
    ensures r.Ok? ==> Struck(was, counter, now, counter', replicaId, r.value, c)
  {
    if r.Ok? { CutSucceeds(was, counter, now, counter', replicaId, r.value, c); }
  }

  /** The range is gone, and the operations that took it out are the replica's own. */
  ghost predicate Struck(was: OpSet, counter: u64, now: OpSet, counter': u64, replicaId: string,
                         s: seq<Operation>, c: Change)
    requires 0 <= c.rangeOffset
  {
    && |s| == c.rangeLength && Issues(was, counter, now, counter', replicaId, s)
    && CutOne(Text(was), c) == Ok(Text(now))
    && StageOf(now, counter') == Removed(StageOf(was, counter), replicaId, c)
  }

  /** `s` are the deletes that take out the range of `c`. */
  ghost predicate Strikes(was: OpSet, counter: u64, replicaId: string, s: seq<Operation>, c: Change) {
    && OneLineage(was, replicaId, counter) && counter + c.rangeLength <= U64_MAX
    && 0 <= c.rangeOffset && 0 < c.rangeLength && c.rangeOffset + c.rangeLength <= |Visible(was)|
    && s == StrikeOps(replicaId, counter, Visible(was)[c.rangeOffset..c.rangeOffset + c.rangeLength])
  }

  lemma CutSucceeds(was: OpSet, counter: u64, now: OpSet, counter': u64, replicaId: string,
                    s: seq<Operation>, c: Change)
    requires Strikes(was, counter, replicaId, s, c) && OneLineage(now, replicaId, counter')
    requires now == ReceiveAll(was, s) && counter' == counter + c.rangeLength
    ensures Struck(was, counter, now, counter', replicaId, s, c)
  {
    StrikesPlaced(was, counter, replicaId, s, c);
    StrikesText(was, counter, replicaId, s, c);
    StrikesIssue(was, counter, now, counter', replicaId, s, c);
  }

  lemma StrikesPlaced(was: OpSet, counter: u64, replicaId: string, s: seq<Operation>, c: Change)
    requires Strikes(was, counter, replicaId, s, c)
    ensures Removed(StageOf(was, counter), replicaId, c) == StageOf(ReceiveAll(was, s), counter + c.rangeLength)
  {
    CutIsExact(was, replicaId, counter, c, s);
  }

  lemma StrikesText(was: OpSet, counter: u64, replicaId: string, s: seq<Operation>, c: Change)
    requires Strikes(was, counter, replicaId, s, c)
    ensures CutOne(Text(was), c) == Ok(Text(ReceiveAll(was, s)))
  {
    var o, n := c.rangeOffset, c.rangeLength;
    StruckText(was, counter, replicaId, s, o, n);
    CutOneIs(Text(was), c, Text(ReceiveAll(was, s)));
  }

  lemma StruckText(was: OpSet, counter: u64, replicaId: string, s: seq<Operation>, o: nat, n: nat)
    requires OneLineage(was, replicaId, counter) && counter + n <= U64_MAX && o + n <= |Visible(was)|
    requires s == StrikeOps(replicaId, counter, Visible(was)[o..o + n])
    ensures o + n <= |Text(was)| && Text(ReceiveAll(was, s)) == Text(was)[..o] + Text(was)[o + n..]
  {
    StrikeText(was, replicaId, counter, o, n);
  }

  lemma CutOneIs(text: string, c: Change, cut: string)
    requires 0 <= c.rangeOffset && 0 < c.rangeLength && c.rangeOffset + c.rangeLength <= |text|
    requires cut == text[..c.rangeOffset] + text[c.rangeOffset + c.rangeLength..]
    ensures CutOne(text, c) == Ok(cut)
  {
  }

  lemma StrikesIssue(was: OpSet, counter: u64, now: OpSet, counter': u64, replicaId: string,
                     s: seq<Operation>, c: Change)
    requires Strikes(was, counter, replicaId, s, c) && OneLineage(now, replicaId, counter')
    requires now == ReceiveAll(was, s) && counter' == counter + c.rangeLength
    ensures |s| == c.rangeLength && Issues(was, counter, now, counter', replicaId, s)
  {
    TargetsReceived(was, c.rangeOffset, c.rangeLength);
    StrikesReferBack(was, replicaId, counter, Visible(was)[c.rangeOffset..c.rangeOffset + c.rangeLength]);
    EditIssues(was, counter, now, counter', replicaId, s);
  }

  lemma TargetsReceived(ops: OpSet, i: nat, n: nat)
    requires i + n <= |Visible(ops)|
    ensures forall t :: t in Visible(ops)[i..i + n] ==> t in ops
  {
    VisibleReceived(ops);
    assert forall t :: t in Visible(ops)[i..i + n] ==> t in Visible(ops);
  }

  method InsertText(crdt: TextCrdt, c: Change) returns (r: Result<seq<Operation>, ApplyError>)
    requires crdt.Valid() && OneLineage(crdt.received, crdt.replicaId, crdt.counter)
    requires 0 <= c.rangeOffset && crdt.counter + |c.text| <= U64_MAX
    modifies crdt
    ensures crdt.Valid() && OneLineage(crdt.received, crdt.replicaId, crdt.counter)
    ensures Does(old(crdt.received), old(crdt.counter), crdt.received, crdt.counter, crdt.replicaId, r,
                 PutOne(Text(old(crdt.received)), c))
    ensures r.Ok? ==> |r.value| == |c.text|
    ensures StageOf(crdt.received, crdt.counter) ==
              if r.Ok? then Landed(StageOf(old(crdt.received), old(crdt.counter)), crdt.replicaId, c)
              else StageOf(old(crdt.received), old(crdt.counter))
  {
    if c.text == "" {
      NothingIssued(crdt.received, crdt.counter, crdt.replicaId);
      return Ok([]);
    }
    ghost var was, from := crdt.received, crdt.counter;
    r := crdt.Insert(c.rangeOffset, c.text);
    PutDoes(was, from, crdt.received, crdt.counter, crdt.replicaId, r, c);
  }

  /** What `Insert` ensures, in terms of the text. */
  lemma PutDoes(was: OpSet, counter: u64, now: OpSet, counter': u64, replicaId: string,
                r: Result<seq<Operation>, ApplyError>, c: Change)
    requires OneLineage(was, replicaId, counter) && OneLineage(now, replicaId, counter')
    requires 0 <= c.rangeOffset && c.text != "" && counter + |c.text| <= U64_MAX
    requires c.rangeOffset > |Visible(was)| ==>
               r == Err(OutOfRange(c.rangeOffset, |Visible(was)|)) && now == was
    requires c.rangeOffset <= |Visible(was)| ==>
               && r == Ok(RunOps(replicaId, counter, AnchorAt(Visible(was), c.rangeOffset), c.text))
               && now == ReceiveAll(was, r.value) && counter' == counter + |c.text|
    ensures Does(was, counter, now, counter', replicaId, r, PutOne(Text(was), c))
    ensures r.Ok? ==> |r.value| == |c.text| && StageOf(now, counter') == Landed(StageOf(was, counter), replicaId, c)
  {
    if r.Ok? {
      PutIsExact(was, replicaId, counter, c);
      AnchorIsLive(was, c.rangeOffset);
      RunRefersBack(was, replicaId, counter, AnchorAt(Visible(was), c.rangeOffset), c.text);
      EditIssues(was, counter, now, counter', replicaId, r.value);
      PutText(was, counter, now, replicaId, c);
    }
  }

  lemma PutText(was: OpSet, counter: u64, now: OpSet, replicaId: string, c: Change)
    requires OneLineage(was, replicaId, counter)
    requires 0 <= c.rangeOffset <= |Visible(was)| && c.text != "" && counter + |c.text| <= U64_MAX
    requires now == ReceiveAll(was, RunOps(replicaId, counter, AnchorAt(Visible(was), c.rangeOffset), c.text))
    ensures PutOne(Text(was), c).Ok? && |Text(now)| == |PutOne(Text(was), c).value|
    ensures Dominates(was, counter) ==> Text(now) == PutOne(Text(was), c).value
  {
    RunText(was, replicaId, counter, c.rangeOffset, c.text);
    if Dominates(was, counter) {
      DominatesAnchors(was, counter, c.rangeOffset);
      DominantLandsAtIndex(was, replicaId, counter, c.rangeOffset);
    }
  }

  /** One round of the loop of `ChangesToOperations`. */
  method ChangeToOperations(crdt: TextCrdt, c: Change) returns (r: Result<seq<Operation>, ApplyError>)
    requires crdt.Valid() && OneLineage(crdt.received, crdt.replicaId, crdt.counter)
    requires 0 <= c.rangeOffset && crdt.counter + Cost(c) <= U64_MAX
    modifies crdt
    ensures crdt.Valid() && OneLineage(crdt.received, crdt.replicaId, crdt.counter)
    ensures Does(old(crdt.received), old(crdt.counter), crdt.received, crdt.counter, crdt.replicaId, r,
                 EditOne(Text(old(crdt.received)), c))
    ensures r.Ok? ==> |r.value| == Cost(c)
    ensures var was := StageOf(old(crdt.received), old(crdt.counter));
            StageOf(crdt.received, crdt.counter) ==
              if r.Ok? then Landed(Removed(was, crdt.replicaId, c), crdt.replicaId, c) else was
  {
    ghost var was, from := crdt.received, crdt.counter;
    var deleted := DeleteRange(crdt, c);
    if deleted.Err? {
      CutAndPut(Text(was), c);
      return deleted;
    }
    ghost var mid, some := crdt.received, crdt.counter;
    var inserted := InsertText(crdt, c);
    if inserted.Err? { NothingRemoved(was, from, mid, some, crdt.replicaId, c); }
    TwoEdits(was, from, mid, some, crdt.received, crdt.counter, crdt.replicaId, deleted.value, inserted, c);
    r := if inserted.Err? then inserted else Ok(deleted.value + inserted.value);
  }

  /** Where a range was removed, the new text fits: an edit that fails has done nothing. */
  lemma NothingRemoved(was: OpSet, counter: u64, mid: OpSet, counter': u64, replicaId: string, c: Change)
    requires 0 <= c.rangeOffset && Ok(Text(mid)) == CutOne(Text(was), c) && PutOne(Text(mid), c).Err?
    requires StageOf(mid, counter') == Removed(StageOf(was, counter), replicaId, c)
    ensures StageOf(mid, counter') == StageOf(was, counter)
  {
  }

  lemma TwoEdits(was: OpSet, counter: u64, mid: OpSet, counter': u64, now: OpSet, counter'': u64, replicaId: string,
                 s: seq<Operation>, r: Result<seq<Operation>, ApplyError>, c: Change)
    requires 0 <= c.rangeOffset && OneLineage(was, replicaId, counter) && OneLineage(mid, replicaId, counter')
    requires Does(was, counter, mid, counter', replicaId, Ok(s), CutOne(Text(was), c))
    requires Ok(Text(mid)) == CutOne(Text(was), c)
    requires Does(mid, counter', now, counter'', replicaId, r, PutOne(Text(mid), c))
    ensures Does(was, counter, now, counter'', replicaId, if r.Err? then r else Ok(s + r.value), EditOne(Text(was), c))
  {
    CutAndPut(Text(was), c);
    if r.Ok? { IssuedMore(was, counter, mid, counter', now, counter'', replicaId, s, r.value); }
  }

  // --- a batch --------------------------------------------------------------------------

  /** The changes made so far had their effect. */
  ghost predicate Made(was: OpSet, counter: u64, now: OpSet, counter': u64, replicaId: string,
                       s: seq<Operation>, done: seq<Change>)
  {
    && Issues(was, counter, now, counter', replicaId, s)
    && (var text := Amended(Text(was), Effective(done));
        text.Ok? && |text.value| == |Text(now)| && (Dominates(was, counter) ==> text.value == Text(now)))
    && StageOf(now, counter') == Placed(StageOf(was, counter), replicaId, done)
  }

  /** Whether an edit fits depends on the length of the text alone. */
  lemma SameLengthEdit(a: string, b: string, c: Change)
    requires |a| == |b|
    ensures var x, y := EditOne(a, c), EditOne(b, c);
            if x.Ok? then y.Ok? && |x.value| == |y.value| else x == y
  {
  }

  lemma NoneMade(was: OpSet, counter: u64, replicaId: string)
    ensures Made(was, counter, was, counter, replicaId, [], [])
  {
  }

  lemma OneMoreMade(was: OpSet, counter: u64, mid: OpSet, counter': u64, now: OpSet, counter'': u64, replicaId: string,
                    s: seq<Operation>, t: seq<Operation>, cs: seq<Change>, i: nat)
    requires i < |cs| && Made(was, counter, mid, counter', replicaId, s, cs[..i])
    requires OneLineage(was, replicaId, counter) && OneLineage(mid, replicaId, counter')
    requires Does(mid, counter', now, counter'', replicaId, Ok(t), EditOne(Text(mid), cs[i]))
    requires StageOf(now, counter'') == Landed(Removed(StageOf(mid, counter'), replicaId, cs[i]), replicaId, cs[i])
    ensures Made(was, counter, now, counter'', replicaId, s + t, cs[..i + 1])
  {
    assert cs[..i + 1][..i] == cs[..i];
    EffectiveStep(Text(was), cs[..i + 1]);
    PlacedMore(StageOf(was, counter), replicaId, cs, i);
    SameLengthEdit(Text(mid), Amended(Text(was), Effective(cs[..i])).value, cs[i]);
    IssuedMore(was, counter, mid, counter', now, counter'', replicaId, s, t);
  }

  lemma StopsAt(was: OpSet, counter: u64, mid: OpSet, counter': u64, now: OpSet, counter'': u64, replicaId: string,
                s: seq<Operation>, error: ApplyError, cs: seq<Change>, i: nat)
    requires i < |cs| && Made(was, counter, mid, counter', replicaId, s, cs[..i])
    requires Does(mid, counter', now, counter'', replicaId, Err(error), EditOne(Text(mid), cs[i]))
    ensures Does(was, counter, now, counter'', replicaId, Err(error), Amended(Text(was), Effective(cs)))
  {
    var text := Amended(Text(was), Effective(cs[..i])).value;
    IncludedThrough(was, mid, now);
    SameLengthEdit(Text(mid), text, cs[i]);
    EffectiveStops(Text(was), cs, i, text);
  }

  /** The batch stopped at change `i`, which does not fit; exactly the changes before it were made. */
  ghost predicate Stopped(g: Stage, replicaId: string, cs: seq<Change>, i: nat, now: Stage, error: ApplyError) {
    && i < |cs| && now == Placed(g, replicaId, cs[..i]) && EditOne(now.text, cs[i]).Err?
    && error.index == cs[i].rangeOffset && error.length == |now.text|
  }

  ghost predicate StoppedSomewhere(g: Stage, replicaId: string, cs: seq<Change>, now: Stage, error: ApplyError) {
    exists i :: Stopped(g, replicaId, cs, i, now, error)
  }

  lemma StopsHere(was: OpSet, counter: u64, mid: OpSet, counter': u64, now: OpSet, counter'': u64, replicaId: string,
                  s: seq<Operation>, error: ApplyError, cs: seq<Change>, i: nat)
    requires i < |cs| && Made(was, counter, mid, counter', replicaId, s, cs[..i])
    requires Does(mid, counter', now, counter'', replicaId, Err(error), EditOne(Text(mid), cs[i]))
    requires StageOf(now, counter'') == StageOf(mid, counter')
    ensures StoppedSomewhere(StageOf(was, counter), replicaId, cs, StageOf(now, counter''), error)
  {
    assert Stopped(StageOf(was, counter), replicaId, cs, i, StageOf(now, counter''), error);
  }

  lemma IncludedThrough(a: OpSet, b: OpSet, c: OpSet)
    requires Included(a, b) && Included(b, c)
    ensures Included(a, c)
  {
  }

  lemma EffectiveStops(text: string, cs: seq<Change>, i: nat, t: string)
    requires i < |cs| && Amended(text, Effective(cs[..i])) == Ok(t) && EditOne(t, cs[i]).Err?
    ensures Amended(text, Effective(cs)) == EditOne(t, cs[i])
  {
    assert cs[..i + 1][..i] == cs[..i];
    EffectiveStep(text, cs[..i + 1]);
    EffectiveErrorStays(text, cs, i + 1);
  }

  lemma DisjointIsEffective(text: string, changes: seq<Change>)
    requires Disjoint(changes) && AllInRange(text, changes)
    ensures Amended(text, Effective(Sort(changes, Later))) == Ok(Replaced(text, changes))
  {
    SimultaneousReplacement(text, changes);
    EffectiveSuffices(text, Sort(changes, Later));
  }

  /**
   * Turns a batch into operations. It fails exactly where the same changes to a string would fail,
   * and then exactly the changes before have been made. In every case the text is the old one with
   * each change made put where it lands; a replica whose counter is not behind ends with the text
   * that the batch makes of the text it had.
   */
  method ChangesToOperations(changes: seq<Change>, crdt: TextCrdt) returns (r: Result<seq<Operation>, ApplyError>)
    requires crdt.Valid() && OneLineage(crdt.received, crdt.replicaId, crdt.counter)
    requires forall c :: c in changes ==> c.rangeOffset >= 0
    requires crdt.counter + Costs(changes) <= U64_MAX
    modifies crdt
    ensures crdt.Valid() && OneLineage(crdt.received, crdt.replicaId, crdt.counter)
    ensures Does(old(crdt.received), old(crdt.counter), crdt.received, crdt.counter, crdt.replicaId, r,
                 Amended(Text(old(crdt.received)), Effective(Sort(changes, Later))))
    ensures r.Ok? ==> StageOf(crdt.received, crdt.counter) ==
                        Placed(StageOf(old(crdt.received), old(crdt.counter)), crdt.replicaId, Sort(changes, Later))
    ensures r.Err? ==> StoppedSomewhere(StageOf(old(crdt.received), old(crdt.counter)), crdt.replicaId,
                                        Sort(changes, Later), StageOf(crdt.received, crdt.counter), r.error)
    ensures Dominates(old(crdt.received), old(crdt.counter)) && Disjoint(changes)
              && AllInRange(Text(old(crdt.received)), changes) ==>
              r.Ok? && Text(crdt.received) == Replaced(Text(old(crdt.received)), changes)
  {
    ghost var was := crdt.received;
    SortCosts(changes);
    forall c | c in Sort(changes, Later) ensures c.rangeOffset >= 0 { SortMembers(changes, c); }
    r := ChangesInOrder(Sort(changes, Later), crdt);
    if Disjoint(changes) && AllInRange(Text(was), changes) { DisjointIsEffective(Text(was), changes); }
  }

  /** The loop of `ChangesToOperations`, over the sorted changes. */
  method ChangesInOrder(sorted: seq<Change>, crdt: TextCrdt) returns (r: Result<seq<Operation>, ApplyError>)
    requires crdt.Valid() && OneLineage(crdt.received, crdt.replicaId, crdt.counter)
    requires forall c :: c in sorted ==> c.rangeOffset >= 0
    requires crdt.counter + Costs(sorted) <= U64_MAX
    modifies crdt
    ensures crdt.Valid() && OneLineage(crdt.received, crdt.replicaId, crdt.counter)
    ensures Does(old(crdt.received), old(crdt.counter), crdt.received, crdt.counter, crdt.replicaId, r,
                 Amended(Text(old(crdt.received)), Effective(sorted)))
    ensures r.Ok? ==> StageOf(crdt.received, crdt.counter) ==
                        Placed(StageOf(old(crdt.received), old(crdt.counter)), crdt.replicaId, sorted)
    ensures r.Err? ==> StoppedSomewhere(StageOf(old(crdt.received), old(crdt.counter)), crdt.replicaId,
                                        sorted, StageOf(crdt.received, crdt.counter), r.error)
  {
    ghost var was, from := crdt.received, crdt.counter;
    var operations: seq<Operation> := [];
    NoneMade(was, from, crdt.replicaId);
    for i := 0 to |sorted|
      invariant crdt.Valid() && OneLineage(crdt.received, crdt.replicaId, crdt.counter)
      invariant crdt.counter + Costs(sorted[i..]) <= U64_MAX
      invariant Made(was, from, crdt.received, crdt.counter, crdt.replicaId, operations, sorted[..i])
    {
      ghost var mid, some := crdt.received, crdt.counter;
      assert sorted[i..][1..] == sorted[i + 1..];
      var issued := ChangeToOperations(crdt, sorted[i]);
      match issued {
        case Err(error) =>
          StopsAt(was, from, mid, some, crdt.received, crdt.counter, crdt.replicaId, operations, error, sorted, i);
          StopsHere(was, from, mid, some, crdt.received, crdt.counter, crdt.replicaId, operations, error, sorted, i);
          return issued;
        case Ok(ops) =>
          OneMoreMade(was, from, mid, some, crdt.received, crdt.counter, crdt.replicaId, operations, ops, sorted, i);
          operations := operations + ops;
      }
    }
    assert sorted[..|sorted|] == sorted;
    r := Ok(operations);
  }

  // --- a counter that is behind ---------------------------------------------------------

  lemma OneCharacter(x: ElementId, value: char)
    ensures var ops := map[x := Insert(x, Root, value)];
            Visible(ops) == [x] && Live(ParentsOf(ops), x) && PathOf(ParentsOf(ops), x) == [x] && Text(ops) == [value]
  {
    var ops := map[x := Insert(x, Root, value)];
    ChildPath(ParentsOf(ops), x);
    assert VisibleIds(ops) == {x};
    VisibleUnique(ops, [x]);
  }

  /** A replica that has issued nothing is told to put `y` at the start of "x", and makes it "xy". */
  lemma BehindMisplaces(x: ElementId, replicaId: string)
    requires x.counter > 1 && x.replicaId != replicaId
    ensures var ops := map[x := Insert(x, Root, 'x')];
            && OneLineage(ops, replicaId, 0) && Visible(ops) == [x] && Text(ops) == "x"
            && Text(ReceiveAll(ops, RunOps(replicaId, 0, Root, "y"))) == "xy"
  {
    var ops := map[x := Insert(x, Root, 'x')];
    OneCharacter(x, 'x');
    assert UnderHigher(ParentsOf(ops), Root, ElementId(1, replicaId), x);
    LandsAtIndexIff(ops, replicaId, 0, 0);
    RunText(ops, replicaId, 0, 0, "y");
    assert Landing(ops, replicaId, 0, 0) == 1;
  }
}
