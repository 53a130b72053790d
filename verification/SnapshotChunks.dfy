/** Snapshots too large for one message: cut into chunks, and put together again (p2pMeshTransport.ts). */
module SnapshotChunks {
  import opened Wrappers
  import opened Keys

  const SNAPSHOT_CHUNK_SIZE: nat := 16 * 1024

  datatype ChunkMessage = ChunkMessage(snapshotId: string, index: nat, total: nat, chunk: string)

  type Slots = seq<Option<string>>

  // --- cutting --------------------------------------------------------------------------

  /** `Math.ceil(length / SNAPSHOT_CHUNK_SIZE)` */
  function TotalOf(length: nat): nat {
    (length + SNAPSHOT_CHUNK_SIZE - 1) / SNAPSHOT_CHUNK_SIZE
  }

  /** `slice(start, end)`, which stops at the end of the string. */
  function Slice(s: string, from: nat, to: nat): string {
    if from >= |s| || from >= to then "" else if to <= |s| then s[from..to] else s[from..]
  }

  function ChunkAt(encoded: string, index: nat): string {
    Slice(encoded, index * SNAPSHOT_CHUNK_SIZE, (index + 1) * SNAPSHOT_CHUNK_SIZE)
  }

  /** The messages that carry a snapshot, in the order in which they are sent. */
  method Cut(snapshotId: string, encoded: string) returns (messages: seq<ChunkMessage>)
    ensures |messages| == TotalOf(|encoded|)
    ensures forall i :: 0 <= i < |messages| ==>
              messages[i] == ChunkMessage(snapshotId, i, |messages|, ChunkAt(encoded, i))
    ensures forall i :: 0 <= i < |messages| ==>
              if i + 1 < |messages| then |messages[i].chunk| == 16384 else 0 < |messages[i].chunk| <= 16384
  {
    var total := TotalOf(|encoded|);
    messages := [];
    for index := 0 to total
      invariant |messages| == index
      invariant forall i :: 0 <= i < index ==> messages[i] == ChunkMessage(snapshotId, i, total, ChunkAt(encoded, i))
      invariant forall i :: 0 <= i < index ==>
                  if i + 1 < total then |messages[i].chunk| == 16384 else 0 < |messages[i].chunk| <= 16384
    {
      ChunkLength(encoded, index);
      messages := messages + [ChunkMessage(snapshotId, index, total, ChunkAt(encoded, index))];
    }
  }

  lemma ChunkLength(encoded: string, index: nat)
    requires index < TotalOf(|encoded|)
    ensures if index + 1 < TotalOf(|encoded|) then |ChunkAt(encoded, index)| == 16384
            else 0 < |ChunkAt(encoded, index)| <= 16384
  {
  }

  /** `join("")`, an undefined slot giving nothing. */
  function Join(slots: Slots): string {
    if slots == [] then ""
    else
      var last := slots[|slots| - 1];
      Join(slots[..|slots| - 1]) + if last.Some? then last.value else ""
  }

  function AllSlots(encoded: string, n: nat): Slots {
    seq(n, i requires 0 <= i < n => Some(ChunkAt(encoded, i)))
  }

  lemma SliceMore(s: string, a: nat, b: nat)
    requires a <= b
    ensures Slice(s, 0, a) + Slice(s, a, b) == Slice(s, 0, b)
  {
    if a < b <= |s| {
      assert s[0..b] == s[0..a] + s[a..b];
    } else if a < |s| {
      assert s[0..] == s[0..a] + s[a..];
    }
  }

  /** The first `n` chunks make up the beginning of the string. */
  lemma {:induction false} JoinPrefix(encoded: string, n: nat)
    requires n <= TotalOf(|encoded|)
    ensures Join(AllSlots(encoded, n)) == Slice(encoded, 0, n * SNAPSHOT_CHUNK_SIZE)
  {
    if n > 0 {
      JoinPrefix(encoded, n - 1);
      assert AllSlots(encoded, n)[..n - 1] == AllSlots(encoded, n - 1);
      SliceMore(encoded, (n - 1) * SNAPSHOT_CHUNK_SIZE, n * SNAPSHOT_CHUNK_SIZE);
    }
  }

  lemma JoinAll(encoded: string)
    ensures Join(AllSlots(encoded, TotalOf(|encoded|))) == encoded
  {
    JoinPrefix(encoded, TotalOf(|encoded|));
    assert TotalOf(|encoded|) * SNAPSHOT_CHUNK_SIZE >= |encoded|;
  }

  // --- the buffers ----------------------------------------------------------------------

  function EmptySlots(total: nat): Slots {
    seq(total, _ => None)
  }

  function FilledSlots(slots: Slots): nat {
    if slots == [] then 0 else FilledSlots(slots[..|slots| - 1]) + if slots[|slots| - 1].Some? then 1 else 0
  }

  ghost predicate Complete(slots: Slots) {
    forall i :: 0 <= i < |slots| ==> slots[i].Some?
  }

  lemma {:induction false} EmptyFilled(total: nat)
    ensures FilledSlots(EmptySlots(total)) == 0
  {
    if total > 0 {
      EmptyFilled(total - 1);
      assert EmptySlots(total)[..total - 1] == EmptySlots(total - 1);
    }
  }

  lemma {:induction false} FillOne(slots: Slots, i: nat, chunk: string)
    requires i < |slots|
    ensures FilledSlots(slots[i := Some(chunk)]) == FilledSlots(slots) + if slots[i].Some? then 0 else 1
  {
    var n := |slots| - 1;
    if i < n {
      FillOne(slots[..n], i, chunk);
      assert slots[i := Some(chunk)][..n] == slots[..n][i := Some(chunk)];
    } else {
      assert slots[i := Some(chunk)][..n] == slots[..n];
    }
  }

  lemma {:induction false} AllFilled(slots: Slots)
    ensures FilledSlots(slots) <= |slots|
    ensures FilledSlots(slots) == |slots| <==> Complete(slots)
  {
    if slots != [] {
      var n := |slots| - 1;
      AllFilled(slots[..n]);
      assert slots == slots[..n] + [slots[n]];
      assert Complete(slots) <==> Complete(slots[..n]) && slots[n].Some?;
    }
  }

  /** What a receiver holds: for each key, the slots of a snapshot not yet complete. */
  type Buffers = map<string, Slots>

  function BufferKey(peerId: string, snapshotId: string): string {
    peerId + ":" + snapshotId
  }

  ghost function SlotsFor(b: Buffers, key: string, total: nat): Slots {
    if key in b && |b[key]| == total then b[key] else EmptySlots(total)
  }

  ghost function SlotsAfter(b: Buffers, key: string, m: ChunkMessage): Slots
    requires m.index < m.total
  {
    SlotsFor(b, key, m.total)[m.index := Some(m.chunk)]
  }

  /** A chunk fills its slot; the last one missing completes the snapshot and frees the buffer. */
  ghost function After(b: Buffers, key: string, m: ChunkMessage): Buffers
    requires m.index < m.total
  {
    if Complete(SlotsAfter(b, key, m)) then b - {key} else b[key := SlotsAfter(b, key, m)]
  }

  ghost function Yield(b: Buffers, key: string, m: ChunkMessage): Option<string>
    requires m.index < m.total
  {
    if Complete(SlotsAfter(b, key, m)) then Some(Join(SlotsAfter(b, key, m))) else None
  }

  class SnapshotChunkBuffer {
    ghost const key: string
    const total: nat
    var chunks: Slots
    var received: nat

    ghost predicate Valid()
      reads this
    {
      |chunks| == total && received == FilledSlots(chunks)
    }

    constructor (ghost key: string, total: nat)
      ensures Valid() && chunks == EmptySlots(total) && this.key == key && this.total == total
    {
      this.key := key;
      this.total := total;
      chunks := EmptySlots(total);
      received := 0;
      EmptyFilled(total);
    }

    method Put(index: nat, chunk: string)
      requires Valid() && index < total
      modifies this
      ensures Valid() && chunks == old(chunks)[index := Some(chunk)]
    {
      FillOne(chunks, index, chunk);
      if chunks[index] == None {
        received := received + 1;
      }
      chunks := chunks[index := Some(chunk)];
    }
  }

  class SnapshotReceiver {
    var snapshotChunks: map<string, SnapshotChunkBuffer>
    ghost var repr: set<object>
    ghost var buffers: Buffers

    ghost predicate BufferFits(k: string)
      requires k in snapshotChunks
      reads this, repr
    {
      var buffer := snapshotChunks[k];
      && buffer in repr && buffer.key == k && buffer.Valid()
      && k in buffers && buffers[k] == buffer.chunks
    }

    ghost predicate Valid()
      reads this, repr
    {
      && this !in repr && buffers.Keys == snapshotChunks.Keys
      && forall k {:trigger BufferFits(k)} :: k in snapshotChunks ==> BufferFits(k)
    }

    constructor ()
      ensures Valid() && fresh(repr) && buffers == map[]
    {
      snapshotChunks := map[];
      repr := {};
      buffers := map[];
    }

    /** `handleSnapshotChunk`; the completed string goes to the decoder. */
    method HandleSnapshotChunk(peerId: string, m: ChunkMessage) returns (encoded: Option<string>)
      requires Valid() && m.index < m.total
      modifies this, repr
      ensures Valid() && fresh(repr - old(repr))
      ensures buffers == After(old(buffers), BufferKey(peerId, m.snapshotId), m)
      ensures encoded == Yield(old(buffers), BufferKey(peerId, m.snapshotId), m)
    {
      var key := BufferKey(peerId, m.snapshotId);
      var buffer := Fill(key, m);
      AllFilled(buffer.chunks);
      if buffer.received < buffer.total {
        return None;
      }
      snapshotChunks := snapshotChunks - {key};
      buffers := buffers - {key};
      encoded := Some(Join(buffer.chunks));
    }

    /** Puts the chunk into its slot. */
    method Fill(key: string, m: ChunkMessage) returns (buffer: SnapshotChunkBuffer)
      requires Valid() && m.index < m.total
      modifies this, repr
      ensures Valid() && fresh(repr - old(repr))
      ensures key in snapshotChunks && buffer == snapshotChunks[key] && buffer.total == m.total && buffer.Valid()
      ensures buffer.chunks == SlotsAfter(old(buffers), key, m)
      ensures buffers == old(buffers)[key := buffer.chunks]
    {
      buffer := BufferFor(key, m.total);
      assert BufferFits(key);
      label found:
      buffer.Put(m.index, m.chunk);
      buffers := buffers[key := buffer.chunks];
      forall k | k in snapshotChunks && k != key ensures BufferFits(k) {
        assert old@found(BufferFits(k));
      }
      assert BufferFits(key);
    }

    /** The buffer for the key, a new one if there is none of the right size. */
    method BufferFor(key: string, total: nat) returns (buffer: SnapshotChunkBuffer)
      requires Valid()
      modifies this
      ensures Valid() && fresh(repr - old(repr))
      ensures key in snapshotChunks && buffer == snapshotChunks[key] && buffer.total == total
      ensures buffers == old(buffers)[key := SlotsFor(old(buffers), key, total)]
    {
      if key !in snapshotChunks || snapshotChunks[key].total != total {
        buffer := new SnapshotChunkBuffer(key, total);
        assert forall k :: k in snapshotChunks ==> BufferFits(k);
        snapshotChunks := snapshotChunks[key := buffer];
        repr := repr + {buffer};
        buffers := buffers[key := buffer.chunks];
      } else {
        assert BufferFits(key);
        buffer := snapshotChunks[key];
      }
    }
  }

  // --- every order of arrival -----------------------------------------------------------

  /** A chunk as it arrives, with the key of its buffer. */
  datatype Arrival = Arrival(key: string, m: ChunkMessage)

  ghost predicate WellFormed(arrivals: seq<Arrival>) {
    forall i :: 0 <= i < |arrivals| ==> arrivals[i].m.index < arrivals[i].m.total
  }

  ghost function BuffersAfter(arrivals: seq<Arrival>): Buffers
    requires WellFormed(arrivals)
  {
    if arrivals == [] then map[]
    else
      var last := arrivals[|arrivals| - 1];
      After(BuffersAfter(arrivals[..|arrivals| - 1]), last.key, last.m)
  }

  /** What the `n`th arrival completes. */
  ghost function YieldOf(arrivals: seq<Arrival>, n: nat): Option<string>
    requires WellFormed(arrivals) && n < |arrivals|
  {
    Yield(BuffersAfter(arrivals[..n]), arrivals[n].key, arrivals[n].m)
  }

  /** All arrivals under `key` are chunks of `encoded`; there may be any others. */
  ghost predicate Genuine(arrivals: seq<Arrival>, key: string, encoded: string) {
    forall i :: 0 <= i < |arrivals| && arrivals[i].key == key ==> IsChunk(arrivals[i].m, encoded)
  }

  ghost predicate IsChunk(m: ChunkMessage, encoded: string) {
    m.total == TotalOf(|encoded|) && m.index < m.total && m.chunk == ChunkAt(encoded, m.index)
  }

  ghost predicate AllIn(got: set<nat>, total: nat) {
    forall i: nat :: i < total ==> i in got
  }

  /** The chunks that arrived since the snapshot was last completed. */
  ghost function Since(arrivals: seq<Arrival>, key: string, total: nat): set<nat> {
    if arrivals == [] then {}
    else
      var last := arrivals[|arrivals| - 1];
      var before := Since(arrivals[..|arrivals| - 1], key, total);
      if last.key != key then before
      else if AllIn(before + {last.m.index}, total) then {}
      else before + {last.m.index}
  }

  /** The buffer holds exactly those chunks, each in its slot; there is none if there are none. */
  ghost predicate Holds(b: Buffers, key: string, encoded: string, got: set<nat>) {
    && (key in b <==> got != {})
    && (key in b ==> HoldsSlots(b[key], encoded, got))
  }

  ghost predicate HoldsSlots(slots: Slots, encoded: string, got: set<nat>) {
    && |slots| == TotalOf(|encoded|) && (forall i :: i in got ==> i < |slots|)
    && forall i :: 0 <= i < |slots| ==> slots[i] == if i in got then Some(ChunkAt(encoded, i)) else None
  }

  lemma SlotsHold(b: Buffers, key: string, encoded: string, got: set<nat>, m: ChunkMessage)
    requires Holds(b, key, encoded, got) && IsChunk(m, encoded)
    ensures HoldsSlots(SlotsAfter(b, key, m), encoded, got + {m.index})
    ensures Complete(SlotsAfter(b, key, m)) <==> AllIn(got + {m.index}, m.total)
  {
    var slots, now := SlotsAfter(b, key, m), got + {m.index};
    assert HoldsSlots(slots, encoded, now);
    if Complete(slots) {
      forall i: nat | i < m.total ensures i in now { assert slots[i].Some?; }
    } else {
      var i: nat :| i < |slots| && slots[i].None?;
      assert i !in now;
    }
  }

  lemma CompleteIsAll(slots: Slots, encoded: string, got: set<nat>)
    requires HoldsSlots(slots, encoded, got) && Complete(slots)
    ensures Join(slots) == encoded
  {
    assert slots == AllSlots(encoded, |slots|);
    JoinAll(encoded);
  }

  lemma {:induction false} BuffersHold(arrivals: seq<Arrival>, key: string, encoded: string)
    requires WellFormed(arrivals) && Genuine(arrivals, key, encoded)
    ensures Holds(BuffersAfter(arrivals), key, encoded, Since(arrivals, key, TotalOf(|encoded|)))
  {
    if arrivals != [] {
      var n := |arrivals| - 1;
      BuffersHold(arrivals[..n], key, encoded);
      if arrivals[n].key == key {
        var got := Since(arrivals[..n], key, TotalOf(|encoded|));
        SlotsHold(BuffersAfter(arrivals[..n]), key, encoded, got, arrivals[n].m);
      }
    }
  }

  /** In every order, with repetitions and other snapshots in between: what completes is the string. */
  lemma OnlyTheString(arrivals: seq<Arrival>, key: string, encoded: string, n: nat)
    requires WellFormed(arrivals) && Genuine(arrivals, key, encoded) && n < |arrivals| && arrivals[n].key == key
    ensures YieldOf(arrivals, n) ==
              if AllIn(Since(arrivals[..n], key, TotalOf(|encoded|)) + {arrivals[n].m.index}, TotalOf(|encoded|))
              then Some(encoded) else None
  {
    var b, m, got := BuffersAfter(arrivals[..n]), arrivals[n].m, Since(arrivals[..n], key, TotalOf(|encoded|));
    BuffersHold(arrivals[..n], key, encoded);
    SlotsHold(b, key, encoded, got, m);
    if Complete(SlotsAfter(b, key, m)) {
      CompleteIsAll(SlotsAfter(b, key, m), encoded, got + {m.index});
    }
  }

  ghost predicate Arrived(arrivals: seq<Arrival>, key: string, i: nat) {
    exists j :: 0 <= j < |arrivals| && arrivals[j].key == key && arrivals[j].m.index == i
  }

  ghost predicate Completed(arrivals: seq<Arrival>, key: string, encoded: string)
    requires WellFormed(arrivals)
  {
    exists n :: 0 <= n < |arrivals| && arrivals[n].key == key && YieldOf(arrivals, n) == Some(encoded)
  }

  lemma CompletedBefore(arrivals: seq<Arrival>, key: string, encoded: string, n: nat)
    requires WellFormed(arrivals) && n <= |arrivals| && Completed(arrivals[..n], key, encoded)
    ensures Completed(arrivals, key, encoded)
  {
    var k :| 0 <= k < n && arrivals[k].key == key && YieldOf(arrivals[..n], k) == Some(encoded);
    SameYield(arrivals, n, k);
  }

  lemma SameYield(arrivals: seq<Arrival>, n: nat, k: nat)
    requires WellFormed(arrivals) && k < n <= |arrivals|
    ensures YieldOf(arrivals[..n], k) == YieldOf(arrivals, k)
  {
    assert arrivals[..n][..k] == arrivals[..k];
    assert arrivals[..n][k] == arrivals[k];
  }

  /** As long as nothing has been completed, everything that arrived is held. */
  lemma {:induction false} HeldUntilCompleted(arrivals: seq<Arrival>, key: string, encoded: string, i: nat)
    requires WellFormed(arrivals) && Genuine(arrivals, key, encoded) && Arrived(arrivals, key, i)
    ensures i in Since(arrivals, key, TotalOf(|encoded|)) || Completed(arrivals, key, encoded)
  {
    var n := |arrivals| - 1;
    if Arrived(arrivals[..n], key, i) {
      HeldUntilCompleted(arrivals[..n], key, encoded, i);
      if Completed(arrivals[..n], key, encoded) { CompletedBefore(arrivals, key, encoded, n); }
    } else {
      assert arrivals == arrivals[..n] + [arrivals[n]];
    }
    if arrivals[n].key == key { OnlyTheString(arrivals, key, encoded, n); }
  }

  lemma NoneIsNotAll(total: nat)
    requires total > 0
    ensures !AllIn({}, total)
  {
    var none: set<nat>, first: nat := {}, 0;
    assert first !in none;
  }

  lemma {:induction false} NeverAllHeld(arrivals: seq<Arrival>, key: string, total: nat)
    requires total > 0
    ensures !AllIn(Since(arrivals, key, total), total)
  {
    NoneIsNotAll(total);
    if arrivals != [] { NeverAllHeld(arrivals[..|arrivals| - 1], key, total); }
  }

  /** Once every chunk has arrived at least once, the snapshot has been completed. */
  lemma EveryChunkSuffices(arrivals: seq<Arrival>, key: string, encoded: string)
    requires WellFormed(arrivals) && Genuine(arrivals, key, encoded) && encoded != ""
    requires forall i: nat :: i < TotalOf(|encoded|) ==> Arrived(arrivals, key, i)
    ensures Completed(arrivals, key, encoded)
  {
    var total := TotalOf(|encoded|);
    NeverAllHeld(arrivals, key, total);
    BuffersHold(arrivals, key, encoded);
    if !Completed(arrivals, key, encoded) {
      forall i: nat | i < total ensures i in Since(arrivals, key, total) {
        HeldUntilCompleted(arrivals, key, encoded, i);
      }
    }
  }

  // --- keys -----------------------------------------------------------------------------

  /** The identifier a sender gives to a snapshot: its name, the time and a random number. */
  function SnapshotId(clientId: string, time: string, nonce: string): string {
    clientId + ":" + time + ":" + nonce
  }

  /** Snapshots of different senders, or of one sender at different times, never share a buffer. */
  lemma KeysDiffer(p: string, time: string, nonce: string, q: string, time': string, nonce': string)
    requires ':' !in time && ':' !in nonce && ':' !in time' && ':' !in nonce'
    requires BufferKey(p, SnapshotId(p, time, nonce)) == BufferKey(q, SnapshotId(q, time', nonce'))
    ensures p == q && time == time' && nonce == nonce'
  {
    KeySplits(p, time, nonce);
    KeySplits(q, time', nonce');
    Doubled(p, q);
  }

  /** The colons of time and number come last in a key. */
  lemma KeySplits(p: string, time: string, nonce: string)
    requires ':' !in time && ':' !in nonce
    ensures var r := SplitOpKey(BufferKey(p, SnapshotId(p, time, nonce)));
            r.Some? && r.value.1 == nonce && SplitOpKey(r.value.0) == Some((p + ":" + p, time))
  {
    SplitTwice(p + ":" + p, time, nonce);
    assert BufferKey(p, SnapshotId(p, time, nonce)) == (p + ":" + p) + ":" + time + ":" + nonce;
  }

  lemma Doubled(p: string, q: string)
    requires p + ":" + p == q + ":" + q
    ensures p == q
  {
    var pp, qq := p + ":" + p, q + ":" + q;
    assert |pp| == |qq|;
    assert pp[..|p|] == p && qq[..|q|] == q;
  }

  lemma SplitTwice(name: string, time: string, nonce: string)
    requires ':' !in time && ':' !in nonce
    ensures SplitOpKey(name + ":" + time + ":" + nonce) == Some((name + ":" + time, nonce))
    ensures SplitOpKey(name + ":" + time) == Some((name, time))
  {
    SplitOnce(name + ":" + time, nonce);
    SplitOnce(name, time);
  }

  lemma SplitOnce(s: string, t: string)
    requires ':' !in t
    ensures SplitOpKey(s + ":" + t) == Some((s, t))
  {
    LastColonAfter(s, t);
    var w := s + ":" + t;
    assert w[..|s|] == s && w[|s| + 1..] == t;
  }
}
