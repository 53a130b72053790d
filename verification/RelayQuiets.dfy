/** Once nobody types any more, the relay and its clients come to rest, in every order of reading. */
module RelayQuiets {
  import opened Denotation
  import opened Sums
  import opened RelayState
  import opened RelayRuns

  ghost function ToSend(clients: map<Conn, Client>): Conn -> nat {
    (c: Conn) => if c in clients then |clients[c].outgoing| else 0
  }

  ghost function Outgoing(s: System): nat {
    Sum(s.clients.Keys, ToSend(s.clients))
  }

  ghost function ToRead(s: System): Conn -> nat {
    (c: Conn) =>
      if c in s.clients && CanRead(s, c) then |s.server.outboxes[c]| - s.clients[c].read else 0
  }

  ghost function Unread(s: System): nat {
    Sum(s.clients.Keys, ToRead(s))
  }

  /** Lexicographically: requests on their way to the server, messages on their way from it. */
  ghost predicate Descends(s: System, t: System) {
    Outgoing(t) < Outgoing(s) || (Outgoing(t) == Outgoing(s) && Unread(t) < Unread(s))
  }

  ghost predicate IsReading(e: Event) {
    e.ServerReads? || e.ClientReads?
  }

  lemma ServerReadsDescends(s: System, c: Conn)
    requires Enabled(s, ServerReads(c))
    ensures Descends(s, Next(s, ServerReads(c)))
  {
    var t := Next(s, ServerReads(c));
    assert t.clients.Keys == s.clients.Keys;
    SumChange(s.clients.Keys, ToSend(s.clients), ToSend(t.clients), c);
  }

  lemma ClientReadsDescends(s: System, c: Conn)
    requires Enabled(s, ClientReads(c))
    ensures Descends(s, Next(s, ClientReads(c)))
  {
    var t := Next(s, ClientReads(c));
    assert t.clients.Keys == s.clients.Keys;
    SumSame(s.clients.Keys, ToSend(s.clients), ToSend(t.clients));
    SumChange(s.clients.Keys, ToRead(s), ToRead(t), c);
  }

  /** Whoever reads makes the measure smaller, so there is no endless run of readings. */
  lemma ReadingDescends(s: System, e: Event)
    requires Inv(s) && Enabled(s, e) && IsReading(e)
    ensures Descends(s, Next(s, e)) && Inv(Next(s, e))
  {
    StepKeepsInv(s, e);
    match e
    case ServerReads(c) => ServerReadsDescends(s, c);
    case ClientReads(c) => ClientReadsDescends(s, c);
  }

  /** Nobody has anything to read. */
  ghost predicate AtRest(s: System) {
    forall c :: c in s.clients ==> s.clients[c].outgoing == [] && !CanRead(s, c)
  }

  lemma SomethingToRead(s: System) returns (e: Event)
    requires !AtRest(s)
    ensures IsReading(e) && Enabled(s, e)
  {
    var c :| c in s.clients && (s.clients[c].outgoing != [] || CanRead(s, c));
    e := if s.clients[c].outgoing != [] then ServerReads(c) else ClientReads(c);
  }

  ghost predicate Readings(states: seq<System>, events: seq<Event>) {
    && |states| == |events| + 1
    && forall i :: 0 <= i < |events| ==>
         IsReading(events[i]) && Enabled(states[i], events[i]) && states[i + 1] == Next(states[i], events[i])
  }

  lemma ReadFirst(s: System, e: Event, rest: seq<System>, more: seq<Event>)
    requires IsReading(e) && Enabled(s, e) && Readings(rest, more) && rest[0] == Next(s, e)
    ensures Readings([s] + rest, [e] + more)
  {
    var states, events := [s] + rest, [e] + more;
    forall i | 0 <= i < |events|
      ensures IsReading(events[i]) && Enabled(states[i], events[i]) && states[i + 1] == Next(states[i], events[i])
    {
      if i > 0 {
        assert events[i] == more[i - 1] && states[i] == rest[i - 1] && states[i + 1] == rest[i];
      }
    }
  }

  /** Readings lead from any reachable state to one at rest. */
  lemma {:induction false} ComesToRest(s: System) returns (states: seq<System>, events: seq<Event>)
    requires Inv(s)
    ensures Readings(states, events) && states[0] == s
    ensures Inv(states[|events|]) && AtRest(states[|events|])
    decreases Outgoing(s), Unread(s)
  {
    if AtRest(s) {
      states, events := [s], [];
    } else {
      var e := SomethingToRead(s);
      ReadingDescends(s, e);
      var rest, more := ComesToRest(Next(s, e));
      ReadFirst(s, e, rest, more);
      states, events := [s] + rest, [e] + more;
    }
  }

  lemma RestIsDrained(s: System, c: Conn)
    requires Inv(s) && AtRest(s) && Registered(s, c)
    ensures Drained(s, c)
  {
    assert ClientFits(s, c);
  }

  ghost predicate ShareRoom(s: System, c: Conn, d: Conn) {
    Registered(s, c) && Registered(s, d) && s.clients[c].roomId == s.clients[d].roomId
  }

  /** Whatever happened, the messages still to be read make all clients of a room agree. */
  lemma InTheEndAllAgree(run: seq<System>, past: seq<Event>) returns (states: seq<System>, events: seq<Event>)
    requires Run(run, past)
    ensures Readings(states, events) && states[0] == run[|past|]
    ensures var end := states[|events|];
            && (forall c :: Registered(end, c) ==> Drained(end, c))
            && (forall c, d :: ShareRoom(end, c, d) ==> Text(end.clients[c].ops) == Text(end.clients[d].ops))
  {
    RunKeepsInv(run, past, |past|);
    states, events := ComesToRest(run[|past|]);
    var end := states[|events|];
    forall c | Registered(end, c) ensures Drained(end, c) { RestIsDrained(end, c); }
    forall c, d | ShareRoom(end, c, d)
      ensures Text(end.clients[c].ops) == Text(end.clients[d].ops)
    {
      DrainedAgree(end, c, d);
    }
  }
}
