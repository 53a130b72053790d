/** Where the characters of an editor change go, whatever the counter: the exact text after it. */
module Placements {
  import opened Ids
  import opened Operations
  import opened Denotation
  import opened LocalEdits
  import opened EditEffects
  import opened StrikeEffects
  import opened Batches

  /** A replica in the course of a batch. */
  datatype Stage = Stage(ops: OpSet, counter: u64, text: string)

  ghost function StageOf(ops: OpSet, counter: u64): Stage {
    Stage(ops, counter, Text(ops))
  }

  /** The range is taken out of the text, if there is one to take out. */
  ghost function Removed(g: Stage, replicaId: string, c: Change): Stage {
    var o, n := c.rangeOffset, c.rangeLength;
    if 0 <= o && 0 < n && o + n <= |Visible(g.ops)| && o + n <= |g.text| && g.counter + n <= U64_MAX then
      Stage(ReceiveAll(g.ops, StrikeOps(replicaId, g.counter, Visible(g.ops)[o..o + n])),
            g.counter + n, g.text[..o] + g.text[o + n..])
    else g
  }

  /** The new text goes where its first character lands. */
  ghost function Landed(g: Stage, replicaId: string, c: Change): Stage {
    var o := c.rangeOffset;
    if c.text != "" && 0 <= o <= |Visible(g.ops)| && g.counter + |c.text| <= U64_MAX then
      var j := Landing(g.ops, replicaId, g.counter, o);
      if j <= |g.text| then
        Stage(ReceiveAll(g.ops, RunOps(replicaId, g.counter, AnchorAt(Visible(g.ops), o), c.text)),
              g.counter + |c.text|, g.text[..j] + c.text + g.text[j..])
      else g
    else g
  }

  /** The changes one after the other. */
  ghost function Placed(g: Stage, replicaId: string, cs: seq<Change>): Stage {
    if cs == [] then g
    else
      var before := Placed(g, replicaId, cs[..|cs| - 1]);
      Landed(Removed(before, replicaId, cs[|cs| - 1]), replicaId, cs[|cs| - 1])
  }

  lemma CutIsExact(ops: OpSet, replicaId: string, counter: u64, c: Change, s: seq<Operation>)
    requires OneLineage(ops, replicaId, counter)
    requires 0 <= c.rangeOffset && 0 < c.rangeLength && c.rangeOffset + c.rangeLength <= |Visible(ops)|
    requires counter + c.rangeLength <= U64_MAX
    requires s == StrikeOps(replicaId, counter, Visible(ops)[c.rangeOffset..c.rangeOffset + c.rangeLength])
    ensures Removed(StageOf(ops, counter), replicaId, c) == StageOf(ReceiveAll(ops, s), counter + c.rangeLength)
  {
    StrikeText(ops, replicaId, counter, c.rangeOffset, c.rangeLength);
    assert |Text(ops)| == |Visible(ops)|;
    RemovedIs(StageOf(ops, counter), replicaId, c, s, Text(ReceiveAll(ops, s)));
  }

  lemma RemovedIs(g: Stage, replicaId: string, c: Change, s: seq<Operation>, text: string)
    requires 0 <= c.rangeOffset && 0 < c.rangeLength && c.rangeOffset + c.rangeLength <= |Visible(g.ops)| == |g.text|
    requires g.counter + c.rangeLength <= U64_MAX
    requires s == StrikeOps(replicaId, g.counter, Visible(g.ops)[c.rangeOffset..c.rangeOffset + c.rangeLength])
    requires text == g.text[..c.rangeOffset] + g.text[c.rangeOffset + c.rangeLength..]
    ensures Removed(g, replicaId, c) == Stage(ReceiveAll(g.ops, s), g.counter + c.rangeLength, text)
  {
  }

  lemma PutIsExact(ops: OpSet, replicaId: string, counter: u64, c: Change)
    requires OneLineage(ops, replicaId, counter)
    requires 0 <= c.rangeOffset <= |Visible(ops)| && c.text != "" && counter + |c.text| <= U64_MAX
    ensures Landed(StageOf(ops, counter), replicaId, c) ==
              StageOf(ReceiveAll(ops, RunOps(replicaId, counter, AnchorAt(Visible(ops), c.rangeOffset), c.text)),
                      counter + |c.text|)
  {
    RunText(ops, replicaId, counter, c.rangeOffset, c.text);
  }

  lemma PlacedMore(g: Stage, replicaId: string, cs: seq<Change>, i: nat)
    requires i < |cs|
    ensures Placed(g, replicaId, cs[..i + 1]) ==
              Landed(Removed(Placed(g, replicaId, cs[..i]), replicaId, cs[i]), replicaId, cs[i])
  {
    assert cs[..i + 1][..i] == cs[..i];
  }
}
