/** The message queue kept for each peer of the mesh (p2pMeshTransport.ts). */
module PeerQueue {
  import opened Sequences

  const DATA_CHANNEL_BUFFER_HIGH_WATERMARK: nat := 16 * 1024 * 16

  /** A message as it goes over a channel, with its size in bytes. */
  datatype Message = Message(payload: string, size: nat)

  datatype SendAttemptResult = Sent | Retry | Failed

  predicate Oversized(m: Message, limit: nat) {
    0 < limit < m.size
  }

  /** The messages that a channel with this limit can carry, in order. */
  ghost function Fitting(ms: seq<Message>, limit: nat): seq<Message> {
    if ms == [] then []
    else
      var last := ms[|ms| - 1];
      Fitting(ms[..|ms| - 1], limit) + if Oversized(last, limit) then [] else [last]
  }

  lemma {:induction false} FittingConcat(s: seq<Message>, t: seq<Message>, limit: nat)
    ensures Fitting(s + t, limit) == Fitting(s, limit) + Fitting(t, limit)
  {
    if t == [] {
      assert s + t == s;
    } else {
      var n := |t| - 1;
      FittingConcat(s, t[..n], limit);
      assert s + t == (s + t[..n]) + [t[n]];
      Associative(Fitting(s, limit), Fitting(t[..n], limit), if Oversized(t[n], limit) then [] else [t[n]]);
    }
  }

  /** A message that fits is never lost. */
  lemma {:induction false} FittingKeeps(ms: seq<Message>, limit: nat, m: Message)
    ensures m in Fitting(ms, limit) <==> m in ms && !Oversized(m, limit)
  {
    if ms != [] {
      FittingKeeps(ms[..|ms| - 1], limit, m);
      assert ms == ms[..|ms| - 1] + [ms[|ms| - 1]];
    }
  }

  /** One message leaves the queue. */
  lemma OneSettled(accepted: seq<Message>, settled: nat, queue: seq<Message>, limit: nat)
    requires settled <= |accepted| && queue == accepted[settled..] && queue != []
    ensures settled + 1 <= |accepted| && accepted[settled + 1..] == queue[1..]
    ensures Fitting(accepted[..settled + 1], limit) ==
              Fitting(accepted[..settled], limit) + if Oversized(queue[0], limit) then [] else [queue[0]]
    ensures [queue[0]] + queue[1..] == queue
  {
    assert queue[0] == accepted[settled];
    assert accepted[..settled + 1] == accepted[..settled] + [queue[0]];
  }

  /** What matters when a message is handed to a peer. */
  datatype PeerView = PeerView(accepted: seq<Message>, queued: seq<Message>, open: bool, limit: nat)

  /** The message would be next in line for an open channel that cannot carry it. */
  ghost predicate TurnedDown(v: PeerView, m: Message) {
    v.open && v.queued == [] && Oversized(m, v.limit)
  }

  /** The messages a peer has been given after one more is offered. */
  ghost function Taken(v: PeerView, m: Message, excepted: bool): seq<Message> {
    if excepted || TurnedDown(v, m) then v.accepted else v.accepted + [m]
  }

  // --- what a channel was offered -------------------------------------------------------

  /** A message handed to the channel, whether it was taken, and what the channel held afterwards. */
  datatype Offer = Offer(m: Message, taken: bool, buffered: nat)

  ghost function MessagesOf(offers: seq<Offer>): seq<Message> {
    seq(|offers|, i requires 0 <= i < |offers| => offers[i].m)
  }

  ghost predicate AllTaken(offers: seq<Offer>) {
    forall i :: 0 <= i < |offers| ==> offers[i].taken && offers[i].buffered < 262144
  }

  ghost predicate Refused(offers: seq<Offer>) {
    offers != [] && !offers[|offers| - 1].taken
  }

  ghost predicate Full(offers: seq<Offer>) {
    offers != [] && offers[|offers| - 1].taken && offers[|offers| - 1].buffered >= 262144
  }

  /** `left` is what is left of `queue` when everything before was offered in order, or was too large. */
  ghost predicate Gone(queue: seq<Message>, left: seq<Message>, offered: seq<Message>, limit: nat) {
    |left| <= |queue| && left == queue[|queue| - |left|..] && offered == Fitting(queue[..|queue| - |left|], limit)
  }

  /**
   * A flush offered the channel the messages of `queue` from the front, leaving out those too
   * large. It stops with something left only if the channel refused the next message, is closed,
   * or held 262144 bytes after the last one it took; and no earlier offer was a reason to stop.
   */
  ghost predicate Flushed(queue: seq<Message>, left: seq<Message>, offers: seq<Offer>, limit: nat, open: bool) {
    && (if Refused(offers)
        then left != [] && offers[|offers| - 1].m == left[0]
             && Gone(queue, left, MessagesOf(offers[..|offers| - 1]), limit)
        else Gone(queue, left, MessagesOf(offers), limit))
    && (offers != [] ==> AllTaken(offers[..|offers| - 1]))
    && (left != [] ==> !open || Refused(offers) || Full(offers))
  }

  /** One round of a flush: whether it goes on, what is left, and what the channel was offered. */
  ghost predicate Rounded(queue: seq<Message>, left: seq<Message>, offers: seq<Offer>, limit: nat,
                          open: bool, more: bool)
    requires queue != []
  {
    if offers == [] then
      if more then Oversized(queue[0], limit) && left == queue[1..] else !open && left == queue
    else
      && |offers| == 1 && offers[0].m == queue[0] && !Oversized(queue[0], limit)
      && left == (if offers[0].taken then queue[1..] else queue)
      && (more <==> offers[0].taken && offers[0].buffered < 262144)
  }

  lemma OneMoreGone(queue: seq<Message>, mid: seq<Message>, offered: seq<Message>, limit: nat)
    requires Gone(queue, mid, offered, limit) && mid != []
    ensures Gone(queue, mid[1..], offered + if Oversized(mid[0], limit) then [] else [mid[0]], limit)
  {
    var n := |queue| - |mid|;
    assert mid[0] == queue[n];
    assert queue[..n + 1][..n] == queue[..n];
  }

  lemma OfferedMore(offers: seq<Offer>, o: Offer)
    ensures MessagesOf(offers + [o]) == MessagesOf(offers) + [o.m]
    ensures AllTaken(offers) && o.taken && o.buffered < 262144 ==> AllTaken(offers + [o])
    ensures (offers + [o])[..|offers|] == offers
  {
  }

  /** A round after which the flush goes on. */
  lemma GoesOn(queue: seq<Message>, mid: seq<Message>, was: seq<Offer>, left: seq<Message>, round: seq<Offer>,
               limit: nat, open: bool)
    requires Gone(queue, mid, MessagesOf(was), limit) && AllTaken(was) && mid != []
    requires Rounded(mid, left, round, limit, open, true)
    ensures Gone(queue, left, MessagesOf(was + round), limit) && AllTaken(was + round)
  {
    OneMoreGone(queue, mid, MessagesOf(was), limit);
    if round == [] {
      assert was + round == was;
    } else {
      OfferedMore(was, round[0]);
      assert was + round == was + [round[0]];
    }
  }

  /** A round after which it stops. */
  lemma StopsHere(queue: seq<Message>, mid: seq<Message>, was: seq<Offer>, left: seq<Message>, round: seq<Offer>,
                  limit: nat, open: bool)
    requires Gone(queue, mid, MessagesOf(was), limit) && AllTaken(was) && mid != []
    requires Rounded(mid, left, round, limit, open, false)
    ensures Flushed(queue, left, was + round, limit, open)
  {
    if round == [] {
      assert was + round == was;
      EverythingTaken(queue, mid, was, limit, open);
    } else {
      OneMoreGone(queue, mid, MessagesOf(was), limit);
      OfferedMore(was, round[0]);
      assert was + round == was + [round[0]];
    }
  }

  lemma EverythingTaken(queue: seq<Message>, left: seq<Message>, offers: seq<Offer>, limit: nat, open: bool)
    requires Gone(queue, left, MessagesOf(offers), limit) && AllTaken(offers) && (left == [] || !open)
    ensures Flushed(queue, left, offers, limit, open)
  {
  }

  /** The state of a flush between two rounds, and after the last. */
  ghost predicate InFlush(queue: seq<Message>, left: seq<Message>, offers: seq<Offer>, limit: nat,
                          open: bool, more: bool)
  {
    && |left| <= |queue|
    && (if more then Gone(queue, left, MessagesOf(offers), limit) && AllTaken(offers)
        else Flushed(queue, left, offers, limit, open))
    && (offers == [] && |left| == |queue| ==> more && open)
  }

  lemma FlushBegins(queue: seq<Message>, limit: nat)
    ensures InFlush(queue, queue, [], limit, true, true)
  {
  }

  /** What was offered since `was` is the rest. */
  lemma TheRest(was: seq<Offer>, since: seq<Offer>)
    ensures was <= was + since && (was + since)[|was|..] == since
  {
  }

  lemma FlushStalls(queue: seq<Message>, left: seq<Message>, was: seq<Offer>, since: seq<Offer>, limit: nat, open: bool)
    requires Flushed(queue, left, since, limit, open)
    ensures var all := was + since;
            left != [] ==> !open || Full(all) || (Refused(all) && all[|all| - 1].m == left[0])
  {
    if since != [] { assert (was + since)[|was + since| - 1] == since[|since| - 1]; }
  }

  /** A flush whose first message fits offers the channel something. */
  lemma SomethingOffered(queue: seq<Message>, left: seq<Message>, offers: seq<Offer>, limit: nat, open: bool)
    requires queue != [] && Flushed(queue, left, offers, limit, open) && (|left| < |queue| || offers != [])
    ensures offers != [] || Oversized(queue[0], limit)
  {
    if offers == [] {
      var gone := queue[..|queue| - |left|];
      FittingKeeps(gone, limit, queue[0]);
      assert queue[0] in gone by { assert gone[0] == queue[0]; }
      assert MessagesOf(offers) == [];
    }
  }

  lemma OneRound(queue: seq<Message>, mid: seq<Message>, was: seq<Offer>, wasOpen: bool,
                 left: seq<Message>, round: seq<Offer>, limit: nat, open: bool, more: bool)
    requires InFlush(queue, mid, was, limit, wasOpen, true) && mid != []
    requires Rounded(mid, left, round, limit, open, more) && (wasOpen ==> round != [] || more)
    ensures InFlush(queue, left, was + round, limit, open, more)
  {
    if more {
      GoesOn(queue, mid, was, left, round, limit, open);
    } else {
      StopsHere(queue, mid, was, left, round, limit, open);
    }
  }

  lemma FlushEnds(queue: seq<Message>, left: seq<Message>, offers: seq<Offer>, limit: nat, open: bool, more: bool)
    requires InFlush(queue, left, offers, limit, open, more) && (more ==> left == [])
    ensures Flushed(queue, left, offers, limit, open)
    ensures queue != [] ==> |left| < |queue| || offers != []
  {
    if more { EverythingTaken(queue, left, offers, limit, open); }
  }

  /** A channel: what becomes of it, and whether it takes a message, is not up to the program. */
  class DataChannel {
    const maxMessageSize: nat
    var open: bool
    var bufferedAmount: nat
    var sent: seq<Message>
    ghost var offers: seq<Offer>
    ghost var owner: MeshPeer?

    constructor (maxMessageSize: nat)
      ensures this.maxMessageSize == maxMessageSize && sent == [] && offers == [] && owner == null
    {
      this.maxMessageSize := maxMessageSize;
      open := false;
      bufferedAmount := 0;
      sent := [];
      offers := [];
      owner := null;
    }

    method SendMessage(m: Message) returns (taken: bool)
      modifies this`open, this`bufferedAmount, this`sent, this`offers
      ensures sent == if taken then old(sent) + [m] else old(sent)
      ensures offers == old(offers) + [Offer(m, taken, bufferedAmount)]
    {
      taken := *;
      open := *;
      bufferedAmount := *;
      if taken { sent := sent + [m]; }
      offers := offers + [Offer(m, taken, bufferedAmount)];
    }
  }

  class MeshPeer {
    const clientId: string
    var dataChannel: DataChannel?
    var channelOpen: bool
    var flushTimer: bool
    var queuedMessages: seq<Message>
    /** The messages taken on for this peer, and how many of them have left the queue. */
    ghost var accepted: seq<Message>
    ghost var settled: nat

    ghost predicate Valid()
      reads this, dataChannel
    {
      && settled <= |accepted| && queuedMessages == accepted[settled..]
      && (dataChannel == null ==> settled == 0)
      && (dataChannel != null ==>
            dataChannel.owner == this && dataChannel.sent == Fitting(accepted[..settled], dataChannel.maxMessageSize))
    }

    ghost function View(): PeerView
      reads this, dataChannel
    {
      PeerView(accepted, queuedMessages, IsOpen(), Limit())
    }

    ghost function Offers(): seq<Offer>
      reads this, dataChannel
    {
      if dataChannel == null then [] else dataChannel.offers
    }

    /** What the channel was offered since `was`. */
    ghost function Since(was: seq<Offer>): seq<Offer>
      reads this, dataChannel
    {
      if |was| <= |Offers()| then Offers()[|was|..] else []
    }

    ghost function Limit(): nat
      reads this, dataChannel
    {
      if dataChannel == null then 0 else dataChannel.maxMessageSize
    }

    predicate IsOpen()
      reads this, dataChannel
    {
      channelOpen && dataChannel != null && dataChannel.open
    }

    /** Whatever waits will be looked at again: by the timer, or when the channel opens. */
    predicate Awake()
      reads this, dataChannel
    {
      queuedMessages != [] ==> flushTimer || !IsOpen()
    }

    constructor (clientId: string)
      ensures Valid() && Awake() && this.clientId == clientId && accepted == [] && dataChannel == null
    {
      this.clientId := clientId;
      dataChannel := null;
      channelOpen := false;
      flushTimer := false;
      queuedMessages := [];
      accepted := [];
      settled := 0;
    }

    method Attach(channel: DataChannel)
      requires Valid() && dataChannel == null && channel.sent == [] && channel.owner == null
      modifies this`dataChannel, channel`owner
      ensures Valid() && dataChannel == channel && channel.owner == this
    {
      channel.owner := this;
      dataChannel := channel;
    }

    /** The channel reports that it is open. */
    method MarkOpen(hello: Message) returns (greeted: bool)
      requires Valid()
      modifies this, dataChannel
      ensures Valid() && Awake() && dataChannel == old(dataChannel)
      ensures accepted == if greeted then old(accepted) + [hello] else old(accepted)
      ensures channelOpen && Stalled() && old(Offers()) <= Offers()
      ensures greeted || (old(queuedMessages) == [] && Oversized(hello, Limit()))
      ensures old(dataChannel != null && dataChannel.open) ==>
                |Offers()| > |old(Offers())|
                || Oversized((old(queuedMessages) + [hello])[0], Limit())
    {
      channelOpen := true;
      greeted := SendDataMessage(hello);
      FlushQueue();
    }

    method MarkClosed()
      requires Valid()
      modifies this`channelOpen, this`flushTimer
      ensures Valid() && Awake() && !channelOpen && !flushTimer
    {
      channelOpen := false;
      flushTimer := false;
    }

    /** Sends the message now, or refuses it now, or leaves it to be tried again. */
    method TrySend(m: Message) returns (r: SendAttemptResult)
      modifies dataChannel
      ensures dataChannel != null ==> dataChannel.owner == old(dataChannel.owner)
      ensures r.Failed? <==> old(IsOpen()) && Oversized(m, dataChannel.maxMessageSize)
      ensures r.Sent? ==> old(IsOpen())
      ensures dataChannel != null ==>
                dataChannel.sent == if r.Sent? then old(dataChannel.sent) + [m] else old(dataChannel.sent)
      ensures if old(IsOpen()) && !Oversized(m, Limit())
              then Offers() == old(Offers()) + [Offer(m, r.Sent?, dataChannel.bufferedAmount)]
              else Offers() == old(Offers()) && IsOpen() == old(IsOpen())
    {
      if !channelOpen || dataChannel == null || !dataChannel.open {
        return Retry;
      }
      if dataChannel.maxMessageSize > 0 && m.size > dataChannel.maxMessageSize {
        return Failed;
      }
      var taken := dataChannel.SendMessage(m);
      r := if taken then Sent else Retry;
    }

    /**
     * Takes on a message, now or for later. It is turned down only if it is next in line, the
     * channel is open, and it is larger than the channel can carry.
     */
    method SendDataMessage(m: Message) returns (ok: bool)
      requires Valid()
      modifies this, dataChannel
      ensures Valid() && dataChannel == old(dataChannel) && channelOpen == old(channelOpen)
      ensures old(Awake()) ==> Awake()
      ensures accepted == if ok then old(accepted) + [m] else old(accepted)
      ensures settled >= old(settled)
      ensures !ok <==> TurnedDown(old(View()), m)
      ensures !ok ==> queuedMessages == [] && dataChannel.sent == old(dataChannel.sent)
      ensures old(Offers()) <= Offers()
      ensures old(IsOpen()) && !Oversized((old(queuedMessages) + [m])[0], Limit()) ==> |Offers()| > |old(Offers())|
      ensures !old(IsOpen()) ==> queuedMessages == old(queuedMessages) + [m] && Offers() == old(Offers())
      ensures old(IsOpen()) && old(queuedMessages) == [] ==> HandedOver(m, old(Offers()))
      ensures old(IsOpen()) && old(queuedMessages) != [] ==> FlushedFrom(old(queuedMessages) + [m], old(Offers()))
    {
      if !IsOpen() {
        Enqueue(m);
        return true;
      }
      if queuedMessages != [] {
        Enqueue(m);
        ghost var queue, was := queuedMessages, Offers();
        FlushQueue();
        SomethingOffered(queue, queuedMessages, Since(was), Limit(), IsOpen());
        return true;
      }
      ok := SendNow(m);
    }

    /** The channel was offered the message, unless it is too large; if it refused, the message waits. */
    ghost predicate HandedOver(m: Message, was: seq<Offer>)
      reads this, dataChannel
    {
      if Oversized(m, Limit()) then Offers() == was && queuedMessages == []
      else
        && |Offers()| == |was| + 1 && Offers()[..|was|] == was && Offers()[|was|].m == m
        && queuedMessages == if Offers()[|was|].taken then [] else [m]
    }

    /** Something waits only because the channel refused the next message, is closed, or holds enough. */
    ghost predicate Stalled()
      reads this, dataChannel
    {
      queuedMessages != [] ==>
        !IsOpen() || Full(Offers())
        || (Refused(Offers()) && Offers()[|Offers()| - 1].m == queuedMessages[0])
    }

    /** The queue was flushed, and its head was offered to the channel or left out as too large. */
    ghost predicate FlushedFrom(queue: seq<Message>, was: seq<Offer>)
      reads this, dataChannel
    {
      && was <= Offers() && Flushed(queue, queuedMessages, Since(was), Limit(), IsOpen())
      && (queue != [] ==> |queuedMessages| < |queue| || |Offers()| > |was|)
    }

    /** The message is next in line. */
    method SendNow(m: Message) returns (ok: bool)
      requires Valid() && queuedMessages == [] && IsOpen()
      modifies this`queuedMessages, this`accepted, this`settled, this`flushTimer, dataChannel
      ensures Valid() && Awake()
      ensures accepted == if ok then old(accepted) + [m] else old(accepted)
      ensures settled >= old(settled)
      ensures !ok <==> Oversized(m, dataChannel.maxMessageSize)
      ensures !ok ==> queuedMessages == [] && dataChannel.sent == old(dataChannel.sent)
      ensures dataChannel == old(dataChannel) && HandedOver(m, old(Offers()))
    {
      assert accepted[..settled] == accepted;
      var r := TrySend(m);
      match r
      case Sent =>
        accepted := accepted + [m];
        settled := |accepted|;
        assert accepted[..settled] == accepted;
        ok := true;
      case Retry =>
        Enqueue(m);
        flushTimer := true;
        ok := true;
      case Failed =>
        ok := false;
    }

    method Enqueue(m: Message)
      requires Valid()
      modifies this`queuedMessages, this`accepted
      ensures Valid() && accepted == old(accepted) + [m] && queuedMessages == old(queuedMessages) + [m]
    {
      assert (accepted + [m])[..settled] == accepted[..settled];
      queuedMessages := queuedMessages + [m];
      accepted := accepted + [m];
    }

    /** Sends from the front of the queue until it is empty or the channel has enough. */
    method FlushQueue()
      requires Valid()
      modifies this`queuedMessages, this`settled, this`flushTimer, dataChannel
      ensures Valid() && Awake() && settled >= old(settled)
      ensures Stalled() && old(Offers()) <= Offers()
      ensures if old(IsOpen()) then FlushedFrom(old(queuedMessages), old(Offers()))
              else queuedMessages == old(queuedMessages) && Offers() == old(Offers())
    {
      flushTimer := false;
      if !IsOpen() {
        return;
      }
      ghost var queue, was, since := queuedMessages, Offers(), [];
      FlushBegins(queue, Limit());
      var more := true;
      while more && queuedMessages != []
        invariant Valid() && dataChannel != null && settled >= old(settled)
        invariant more || flushTimer
        invariant Offers() == was + since
        invariant InFlush(queue, queuedMessages, since, Limit(), IsOpen(), more)
        decreases |queuedMessages| + if more then 1 else 0
      {
        ghost var mid, open := queuedMessages, IsOpen();
        ghost var round;
        more, round := SendFirst();
        OneRound(queue, mid, since, open, queuedMessages, round, Limit(), IsOpen(), more);
        Associative(was, since, round);
        since := since + round;
      }
      FlushEnds(queue, queuedMessages, since, Limit(), IsOpen(), more);
      TheRest(was, since);
      FlushStalls(queue, queuedMessages, was, since, Limit(), IsOpen());
    }

    /** One round of the loop of `FlushQueue`. */
    method SendFirst() returns (more: bool, ghost round: seq<Offer>)
      requires Valid() && dataChannel != null && queuedMessages != []
      modifies this`queuedMessages, this`settled, this`flushTimer, dataChannel
      ensures Valid() && settled >= old(settled)
      ensures |queuedMessages| <= |old(queuedMessages)| && (more ==> |queuedMessages| < |old(queuedMessages)|)
      ensures more || flushTimer
      ensures Offers() == old(Offers()) + round
      ensures Rounded(old(queuedMessages), queuedMessages, round, Limit(), IsOpen(), more)
      ensures old(IsOpen()) ==> round != [] || more
    {
      OneSettled(accepted, settled, queuedMessages, dataChannel.maxMessageSize);
      var message := queuedMessages[0];
      queuedMessages := queuedMessages[1..];
      ghost var offered := IsOpen() && !Oversized(message, Limit());
      var r := TrySend(message);
      round := if offered then [Offer(message, r.Sent?, dataChannel.bufferedAmount)] else [];
      if r.Retry? {
        queuedMessages := [message] + queuedMessages;
        flushTimer := true;
        return false, round;
      }
      settled := settled + 1;
      if r.Failed? {
        return true, round;
      }
      if dataChannel.bufferedAmount >= DATA_CHANNEL_BUFFER_HIGH_WATERMARK {
        flushTimer := true;
        return false, round;
      }
      more := true;
    }

    /** The timer set by an earlier flush. */
    method TimerFires()
      requires Valid() && flushTimer
      modifies this`queuedMessages, this`settled, this`flushTimer, dataChannel
      ensures Valid() && Awake() && Stalled() && settled >= old(settled)
      ensures old(IsOpen()) ==> FlushedFrom(old(queuedMessages), old(Offers()))
    {
      flushTimer := false;
      FlushQueue();
    }
  }

  /** What was sent, followed by what still can be, is what was taken on: in order, and once. */
  lemma FirstInFirstOut(p: MeshPeer)
    requires p.Valid() && p.dataChannel != null
    ensures var limit := p.dataChannel.maxMessageSize;
            p.dataChannel.sent + Fitting(p.queuedMessages, limit) == Fitting(p.accepted, limit)
    ensures p.queuedMessages == [] ==>
              forall m :: m in p.accepted && !Oversized(m, p.dataChannel.maxMessageSize) ==> m in p.dataChannel.sent
  {
    var limit := p.dataChannel.maxMessageSize;
    FittingConcat(p.accepted[..p.settled], p.accepted[p.settled..], limit);
    assert p.accepted[..p.settled] + p.accepted[p.settled..] == p.accepted;
    forall m | m in p.accepted && !Oversized(m, limit) ensures p.queuedMessages == [] ==> m in p.dataChannel.sent {
      FittingKeeps(p.accepted, limit, m);
    }
  }

  type Views = map<string, PeerView>

  /** Peer `p` was offered the message if it is not excepted and not among `rest`. */
  ghost predicate OfferedAt(before: Views, now: Views, rest: set<string>, m: Message, except: string, p: string) {
    p in before && p in now ==>
      && (p in rest || p == except ==> now[p] == before[p])
      && (p !in rest ==> now[p].accepted == Taken(before[p], m, p == except))
  }

  ghost predicate Offered(before: Views, now: Views, rest: set<string>, m: Message, except: string) {
    now.Keys == before.Keys &&
    forall p {:trigger OfferedAt(before, now, rest, m, except, p)} :: OfferedAt(before, now, rest, m, except, p)
  }

  ghost predicate SomeoneTook(before: Views, rest: set<string>, m: Message, except: string) {
    exists p :: p in before && p !in rest && p != except && !TurnedDown(before[p], m)
  }

  lemma OfferedOneMore(before: Views, mid: Views, now: Views, rest: set<string>, m: Message, except: string, p: string)
    requires Offered(before, mid, rest, m, except) && p in rest && p in before
    requires now.Keys == mid.Keys && forall q :: q in mid && q != p ==> now[q] == mid[q]
    requires if p == except then now[p] == mid[p] else now[p].accepted == Taken(mid[p], m, false)
    ensures Offered(before, now, rest - {p}, m, except)
    ensures SomeoneTook(before, rest - {p}, m, except) <==>
              SomeoneTook(before, rest, m, except) || (p != except && !TurnedDown(mid[p], m))
  {
    assert OfferedAt(before, mid, rest, m, except, p);
    forall q ensures OfferedAt(before, now, rest - {p}, m, except, q) {
      assert OfferedAt(before, mid, rest, m, except, q);
    }
  }

  /** All peers of the mesh, by name. */
  class MeshTransport {
    var meshPeers: map<string, MeshPeer>
    /** The peers and their channels. */
    ghost var repr: set<object>

    ghost predicate PeerFits(p: string)
      requires p in meshPeers
      reads this, repr
    {
      && meshPeers[p] in repr && meshPeers[p].clientId == p
      && (meshPeers[p].dataChannel != null ==> meshPeers[p].dataChannel in repr)
      && meshPeers[p].Valid()
    }

    ghost predicate Valid()
      reads this, repr
    {
      this !in repr && forall p {:trigger PeerFits(p)} :: p in meshPeers ==> PeerFits(p)
    }

    ghost function ViewOf(p: string): PeerView
      requires p in meshPeers && PeerFits(p)
      reads this, repr
    {
      meshPeers[p].View()
    }

    ghost function Views(): Views
      requires Valid()
      reads this, repr
    {
      map p | p in meshPeers :: ViewOf(p)
    }

    /** Gives the message to every peer but one, in an arbitrary order. */
    method BroadcastDataMessage(m: Message, exceptClientId: string) returns (sent: bool)
      requires Valid()
      modifies repr
      ensures Valid()
      ensures Offered(old(Views()), Views(), {}, m, exceptClientId)
      ensures sent <==> SomeoneTook(old(Views()), {}, m, exceptClientId)
    {
      sent := false;
      ghost var before := Views();
      forall p ensures OfferedAt(before, before, meshPeers.Keys, m, exceptClientId, p) {}
      var rest := meshPeers.Keys;
      while rest != {}
        invariant rest <= meshPeers.Keys && Valid()
        invariant Offered(before, Views(), rest, m, exceptClientId)
        invariant sent <==> SomeoneTook(before, rest, m, exceptClientId)
        decreases rest
      {
        var p :| p in rest;
        ghost var mid := Views();
        if p != exceptClientId {
          var ok := SendDataMessage(p, m);
          sent := ok || sent;
        }
        OfferedOneMore(before, mid, Views(), rest, m, exceptClientId, p);
        rest := rest - {p};
      }
    }

    method SendDataMessage(p: string, m: Message) returns (ok: bool)
      requires Valid()
      modifies repr
      ensures Valid()
      ensures p !in meshPeers ==> !ok && Views() == old(Views())
      ensures p in meshPeers ==>
                && ok == !TurnedDown(old(Views())[p], m)
                && Views()[p].accepted == Taken(old(Views())[p], m, false)
                && forall q :: q in meshPeers && q != p ==> Views()[q] == old(Views())[q]
    {
      if p !in meshPeers {
        return false;
      }
      assert PeerFits(p);
      ok := meshPeers[p].SendDataMessage(m);
      forall q | q in meshPeers && q != p ensures PeerFits(q) && ViewOf(q) == old(ViewOf(q)) {
        assert old(PeerFits(q));
      }
      assert PeerFits(p);
    }
  }
}
