/**
 * The relay with the counters of its clients: when no name is used by two connections, and each
 * client issues under its name and counts, no identifier is issued twice and every local edit
 * finds its preconditions met.
 */
module RelayLineage {
  import opened Ids
  import opened Operations
  import opened LocalEdits
  import opened RelayState
  import opened RelayRuns

  /** `names` are those of all connections so far. */
  datatype Counted = Counted(system: System, counters: map<Conn, u64>, names: set<string>)

  ghost predicate CounterMoves(s: Counted, t: Counted, c: Conn) {
    c in s.system.clients && c in t.system.clients ==>
      c in s.counters && c in t.counters && s.counters[c] <= t.counters[c]
  }

  /** A local operation carries the next own identifier and refers to what its client has. */
  ghost predicate OwnNext(s: Counted, c: Conn, op: Operation, t: Counted) {
    && c in s.system.clients && c in s.counters && c in t.counters && s.counters[c] < U64_MAX
    && op.opId == ElementId(s.counters[c] + 1, s.system.clients[c].clientId)
    && t.counters[c] == s.counters[c] + 1
    && forall x :: RefersTo(op, x) ==> x in s.system.clients[c].ops
  }

  /** The guard of an edit is the client's own: nothing is said about what others have issued. */
  ghost predicate Possible(s: Counted, e: Event) {
    match e
    case Edit(c, op) => c in s.system.clients && s.system.clients[c].read > 0
    case Connect(c, _, clientId) => Enabled(s.system, e) && clientId !in s.names
    case _ => Enabled(s.system, e)
  }

  ghost predicate Step(s: Counted, e: Event, t: Counted) {
    && Possible(s, e) && (Enabled(s.system, e) ==> t.system == Next(s.system, e))
    && t.names == (if e.Connect? then s.names + {e.clientId} else s.names)
    && t.system.clients.Keys <= t.counters.Keys
    && (forall c {:trigger CounterMoves(s, t, c)} :: CounterMoves(s, t, c))
    && (e.Edit? ==> OwnNext(s, e.c, e.op, t))
  }

  ghost predicate Init(s: Counted) {
    RelayRuns.Init(s.system) && s.names == {}
  }

  ghost predicate Run(states: seq<Counted>, events: seq<Event>) {
    && |states| == |events| + 1 && Init(states[0])
    && forall i :: 0 <= i < |events| ==> Step(states[i], events[i], states[i + 1])
  }

  /** A client has counted whatever was issued under its name. */
  ghost predicate CountedBy(s: Counted, id: ElementId, c: Conn) {
    id in s.system.issued && c in s.system.clients && s.system.clients[c].clientId == id.replicaId ==>
      c in s.counters && id.counter <= s.counters[c]
  }

  ghost predicate NameFits(s: Counted, c: Conn, d: Conn) {
    c in s.system.clients ==>
      && s.system.clients[c].clientId in s.names
      && (d in s.system.clients && s.system.clients[d].clientId == s.system.clients[c].clientId ==> c == d)
  }

  ghost predicate RefersToIssued(issued: OpSet, id: ElementId, x: ElementId) {
    id in issued && RefersTo(issued[id], x) ==> x in issued
  }

  ghost predicate Inv(s: Counted) {
    && RelayRuns.Inv(s.system)
    && (forall id, x {:trigger RefersToIssued(s.system.issued, id, x)} :: RefersToIssued(s.system.issued, id, x))
    && s.system.clients.Keys <= s.counters.Keys
    && (forall id :: id in s.system.issued ==> id.replicaId in s.names)
    && (forall id, c {:trigger CountedBy(s, id, c)} :: CountedBy(s, id, c))
    && (forall c, d {:trigger NameFits(s, c, d)} :: NameFits(s, c, d))
  }

  /** The guard that the runs of the relay take for granted: the identifier is new. */
  lemma StepIsEnabled(s: Counted, e: Event, t: Counted)
    requires Inv(s) && Step(s, e, t)
    ensures Enabled(s.system, e) && t.system == Next(s.system, e) && RelayRuns.Inv(t.system)
  {
    if e.Edit? { assert CountedBy(s, e.op.opId, e.c); }
    StepKeepsInv(s.system, e);
  }

  lemma StepRefersToIssued(s: Counted, e: Event, t: Counted, id: ElementId, x: ElementId)
    requires Inv(s) && Step(s, e, t) && Enabled(s.system, e)
    ensures RefersToIssued(t.system.issued, id, x)
  {
    assert RefersToIssued(s.system.issued, id, x);
    if e.Edit? { assert ClientFits(s.system, e.c); }
  }

  lemma ClientKept(s: Counted, e: Event, c: Conn)
    requires Enabled(s.system, e) && c in Next(s.system, e).clients && !(e.Connect? && e.c == c)
    ensures c in s.system.clients && Next(s.system, e).clients[c].clientId == s.system.clients[c].clientId
  {
  }

  lemma StepKeepsCounted(s: Counted, e: Event, t: Counted)
    requires Inv(s) && Step(s, e, t)
    ensures Inv(t)
  {
    StepIsEnabled(s, e, t);
    forall id, x ensures RefersToIssued(t.system.issued, id, x) { StepRefersToIssued(s, e, t, id, x); }
    forall id | id in t.system.issued ensures id.replicaId in t.names {
      if e.Edit? { assert NameFits(s, e.c, e.c); }
    }
    forall c, d ensures NameFits(t, c, d) {
      assert NameFits(s, c, d) && NameFits(s, d, c);
      if c in t.system.clients && !(e.Connect? && e.c == c) { ClientKept(s, e, c); }
      if d in t.system.clients && !(e.Connect? && e.c == d) { ClientKept(s, e, d); }
    }
    forall id, c ensures CountedBy(t, id, c) {
      assert CountedBy(s, id, c) && CounterMoves(s, t, c);
      if e.Edit? { assert NameFits(s, e.c, c); }
      if c in t.system.clients && !(e.Connect? && e.c == c) { ClientKept(s, e, c); }
    }
  }

  lemma {:induction false} RunKeepsCounted(states: seq<Counted>, events: seq<Event>, i: nat)
    requires Run(states, events) && i < |states|
    ensures Inv(states[i])
  {
    if i == 0 {
      forall c ensures ClientFits(states[0].system, c) {}
    } else {
      RunKeepsCounted(states, events, i - 1);
      StepKeepsCounted(states[i - 1], events[i - 1], states[i]);
    }
  }

  /** A run with counters is a run of the relay, whose guards it meets. */
  lemma CountedRun(states: seq<Counted>, events: seq<Event>)
    requires Run(states, events)
    ensures RelayRuns.Run(seq(|states|, i requires 0 <= i < |states| => states[i].system), events)
  {
    forall i | 0 <= i < |events|
      ensures Enabled(states[i].system, events[i]) && states[i + 1].system == Next(states[i].system, events[i])
    {
      RunKeepsCounted(states, events, i);
      assert Step(states[i], events[i], states[i + 1]);
      StepIsEnabled(states[i], events[i], states[i + 1]);
    }
  }

  // --- what it means for local edits ----------------------------------------------------

  lemma CountedLineage(s: Counted, c: Conn)
    requires Inv(s) && c in s.system.clients
    ensures OneLineage(s.system.clients[c].ops, s.system.clients[c].clientId, s.counters[c])
  {
    var ops, name := s.system.clients[c].ops, s.system.clients[c].clientId;
    assert ClientFits(s.system, c);
    forall id | id in ops && id.replicaId == name ensures id.counter <= s.counters[c] {
      assert CountedBy(s, id, c);
    }
    forall id, x | id in ops && RefersTo(ops[id], x) && x.replicaId == name ensures x.counter <= s.counters[c] {
      assert RefersTo(s.system.issued[id], x);
      assert RefersToIssued(s.system.issued, id, x) && CountedBy(s, x, c);
    }
  }

  /** In every run: what local edits require of a replica holds, and what it issues next is new. */
  lemma LocalEditsArePossible(states: seq<Counted>, events: seq<Event>, i: nat, c: Conn)
    requires Run(states, events) && i < |states| && c in states[i].system.clients
    ensures var s, name := states[i], states[i].system.clients[c].clientId;
            && c in s.counters && OneLineage(s.system.clients[c].ops, name, s.counters[c])
            && forall k: u64 :: k > s.counters[c] ==> ElementId(k, name) !in s.system.issued
  {
    RunKeepsCounted(states, events, i);
    var s, name := states[i], states[i].system.clients[c].clientId;
    CountedLineage(s, c);
    forall k: u64 | k > s.counters[c] ensures ElementId(k, name) !in s.system.issued {
      assert CountedBy(s, ElementId(k, name), c);
    }
  }
}
