/** Whole runs of the server: any sequence of events, for any number of clients, with any clock readings, refines the
same run of `ServerModel`.
*/
module ServerRuns {
  import opened Bytes
  import opened ByteNums
  import opened Frames
  import opened Clients
  import opened Servers
  import opened ServerModel
  import opened TimeWheels
  import Http
  import Timers
  import TimerRuns

  // ---- The server and its model ----

  /** The bytes of a close frame are left open, and so are those of an echo of two to the 63 bytes or more. */
  ghost predicate Renders(x: Item, o: Sent) {
    match o
    case SentResponse(acceptKey) => x == Item(Handshake, Http.Print(Http.Response(acceptKey)))
    case SentGreeting => x == Item(Application, [0x81, 0x0B] + Http.Ascii("hello world"))
    case SentEcho(message) =>
      && x.kind == Application
      && (|message| < TWO_64 / 2 ==> WellFormed(TextFrame(message)) && x.data == EncodeFrame(TextFrame(message)))
    case SentPing => x == Item(Heartbeat, [0x89, 0x00])
    case SentPong => x == Item(Control, [0x8A, 0x00])
    case SentClose => x.kind == Control
  }

  ghost predicate Shows(items: seq<Item>, sent: seq<Sent>) {
    |items| == |sent| && forall i :: 0 <= i < |items| ==> Renders(items[i], sent[i])
  }

  ghost predicate PeerMatches(c: Client, p: Peer)
    reads c
  {
    && p.state == c.state && p.headers == c.headers && p.decodeBuffer == c.decodeBuffer && p.waitClose == c.waitClose
    && p.heartbeatId == c.heartbeatId && p.calls == c.calls && Shows(c.passed, p.sent)
  }

  /** The server is as the model says, client by client, with its wheel as the model's flat timer. */
  ghost predicate Matches(s: Server, m: Model)
    reads s, s.clients.Values, s.wheel
  {
    && s.heartbeat == m.heartbeat && s.signedChar == m.signedChar && s.wheel.Abs() == m.timer
    && s.clients.Keys == m.peers.Keys
    && forall fd :: fd in s.clients ==> PeerMatches(s.clients[fd], m.peers[fd])
  }

  /** The event can come, and lies in what the model covers. */
  predicate Possible(s: Server, e: Event)
    reads s, s.clients.Values, s.wheel
  {
    match e
    case Accepted(fd) => fd !in s.clients
    case Arrived(fd, data, _, _, request, rest) =>
      data != [] && (fd in s.clients ==>
        if s.clients[fd].state.Start? then Scannable(request, rest, data, s.heartbeat, s.wheel.nextId)
        else Readable(data, s.signedChar))
    case _ => true
  }

  lemma ShowsMore(items: seq<Item>, sent: seq<Sent>, x: Item, o: Sent)
    requires Shows(items, sent) && Renders(x, o)
    ensures Shows(items + [x], sent + [o])
  {
    hide Renders;
  }

  lemma ShowsPings(items: seq<Item>, sent: seq<Sent>, n: nat)
    requires Shows(items, sent)
    ensures Shows(items + Pings(n), sent + PingsSent(n))
  {
    assert Renders(PingItem(), SentPing);
    hide Renders, PingItem;
  }

  lemma ShowsAnswer(before: seq<Item>, after: seq<Item>, reply: Reply, sent: seq<Sent>)
    requires Shows(before, sent) && Answered(before, after, reply)
    ensures Shows(after, sent + Answer(reply))
  {
    if reply == Silence {
      assert sent + [] == sent;
    } else {
      assert after == before + [after[|before|]];
      ShowsMore(before, sent, after[|before|], if reply == Pong then SentPong else SentClose);
    }
  }

  lemma ShowsEcho(before: seq<Item>, after: seq<Item>, message: seq<byte>, sent: seq<Sent>)
    requires Shows(before, sent) && Echoed(before, after, message)
    ensures Shows(after, sent + [SentEcho(message)])
  {
    hide Shows, WellFormed, TextFrame, EncodeFrame;
    var x := after[|before|];
    assert after == before + [x];
    ShowsMore(before, sent, x, SentEcho(message));
  }

  // ---- What a run does to the wheel ----

  ghost predicate HeartbeatOp(op: Timers.Op) {
    match op
    case Add(_, expire, count, immediate, delay) =>
      expire == 3000 && count == 0xFFFF_FFFF && !immediate && delay == 0
    case _ => true
  }

  function Checks(ops: seq<Timers.Op>): seq<int> {
    if ops == [] then [] else (if ops[0].Check? then [ops[0].now] else []) + Checks(ops[1..])
  }

  function Clocks(events: seq<Event>): seq<int> {
    if events == [] then [] else (if events[0].Clock? then [events[0].now] else []) + Clocks(events[1..])
  }

  lemma {:induction false} ChecksConcat(a: seq<Timers.Op>, b: seq<Timers.Op>)
    ensures Checks(a + b) == Checks(a) + Checks(b)
    decreases |a|
  {
    if a == [] {
      assert a + b == b;
    } else {
      var first := if a[0].Check? then [a[0].now] else [];
      assert (a + b)[1..] == a[1..] + b && (a + b)[0] == a[0];
      ChecksConcat(a[1..], b);
      assert first + (Checks(a[1..]) + Checks(b)) == first + Checks(a[1..]) + Checks(b);
    }
  }

  lemma {:induction false} RunConcat(s: Timers.Flat, a: seq<Timers.Op>, b: seq<Timers.Op>)
    ensures Timers.Run(s, a + b) == Timers.Run(Timers.Run(s, a), b)
    decreases |a|
  {
    if a == [] {
      assert a + b == b;
    } else {
      assert (a + b)[1..] == a[1..] + b;
      RunConcat(Timers.Apply(s, a[0]), a[1..], b);
    }
  }

  function EraseOf(id: nat): seq<Timers.Op> {
    if id == 0 then [] else [Timers.Erase(id)]
  }

  function AddAt(now: int): Timers.Op {
    Timers.Add(now, HEARTBEAT_MS, Timers.FULL_CIRCLE, false, 0)
  }

  lemma RunOne(s: Timers.Flat, op: Timers.Op)
    ensures Timers.Run(s, []) == s && Timers.Run(s, [op]) == Timers.Apply(s, op)
    ensures Checks([]) == [] && Checks([op]) == if op.Check? then [op.now] else []
  {
    assert [op][1..] == [];
    assert Timers.Run(Timers.Apply(s, op), []) == Timers.Apply(s, op);
  }

  lemma DropRuns(s: Timers.Flat, id: nat)
    requires !s.stuck
    ensures Timers.Run(s, EraseOf(id)) == Dropped(s, id) && Checks(EraseOf(id)) == []
  {
    hide Timers.EraseTask;
    RunOne(s, Timers.Erase(id));
  }

  // ---- What a run does to its clients ----

  /** The clients that were registered `before` move onward, and every other one is new. */
  twostate predicate Grown(s: Server, before: map<int, Client>)
    reads s`clients, before.Values
  {
    && (forall d :: d in s.clients.Values ==> d in before.Values || !old(allocated(d)))
    && (forall d :: d in before.Values ==> d.Onward())
  }

  /** A client that still has the heartbeat task it had `before`. */
  twostate predicate Beating(s: Server, d: Client)
    reads s`clients, d
  {
    d in s.clients.Values && d.heartbeatId == old(d.heartbeatId) != 0
  }

  /** What a run over `events` does: the wheel performs `ops`, which check it at each clock reading and erase no task of
      a client that keeps it; and the clients move onward. */
  twostate predicate Ran(s: Server, before: map<int, Client>, new events: seq<Event>, new ops: seq<Timers.Op>)
    reads s, s.wheel, before.Values
  {
    && s.wheel.Abs() == Timers.Run(old(s.wheel.Abs()), ops)
    && Checks(ops) == Clocks(events) && (forall i :: 0 <= i < |ops| ==> HeartbeatOp(ops[i]))
    && (forall d :: d in before.Values && Beating(s, d) ==> TimerRuns.Untouched(d.heartbeatId, ops))
    && Grown(s, before)
  }

  // ---- One event ----

  lemma Known(s: Server)
    requires s.Valid()
    ensures forall fd :: fd in s.clients ==> s.clients[fd].fd == fd
    ensures forall d :: d in s.clients.Values ==> s.Live(d)
    ensures forall d :: d in s.clients.Values ==>
      d.heartbeatId < 0x1_0000_0000 && (d.heartbeatId != 0 ==> !d.state.Start?)
    ensures forall d, d' :: d in s.clients.Values && d' in s.clients.Values && d.heartbeatId == d'.heartbeatId != 0 ==>
      d == d'
    ensures forall fd :: fd in s.clients ==> (s.clients[fd] in s.wbClients <==> s.clients[fd].state == Connected)
    ensures forall d :: d in s.clients.Values ==> d.heartbeatId < s.wheel.nextId
    ensures forall i :: 0 <= i < |s.wheel.log| ==> 1 <= s.wheel.log[i].id < s.wheel.nextId
    ensures !s.wheel.Abs().stuck
  {
    hide Indexed, AllPlaced, Recorded, Server.Steady, Lifecycle, Conserved, Beats, DataOf;
    forall d | d in s.clients.Values ensures s.Live(d) && d.Ok() {
      var fd := KeyOf(s.clients, d);
    }
    forall d | d in s.clients.Values && d.heartbeatId != 0
      ensures d.heartbeatId in s.wheel.idMap && d == s.hooks[d.heartbeatId]
    {
      assert s.Live(d);
    }
  }

  lemma OneEvent(s: Timers.Flat, e: Event)
    ensures Checks([]) == []
    ensures Clocks([e]) == if e.Clock? then [e.now] else []
    ensures Timers.Run(s, []) == s
    ensures forall id :: TimerRuns.Untouched(id, [])
  {
    assert [e][1..] == [];
  }

  lemma OneErase(id: nat)
    ensures forall i :: 0 <= i < |EraseOf(id)| ==> HeartbeatOp(EraseOf(id)[i])
    ensures id < 0x1_0000_0000 ==>
      forall id' :: id' != id ==> TimerRuns.Untouched(id', EraseOf(id))
  {
    if id < 0x1_0000_0000 {
      SmallKey(id);
    }
  }

  method StepAccepted(s: Server, e: Event, ghost m: Model) returns (ghost ops: seq<Timers.Op>)
    requires s.Settled() && Matches(s, m) && e.Accepted? && e.fd !in s.clients
    modifies s, s.clients.Values, s.wheel, s.wheel.tv
    ensures s.Settled() && Ran(s, old(s.clients), [e], ops)
    ensures Matches(s, After(m, e))
  {
    hide Matches, PeerMatches, After, Server.Valid, TimeWheel.Abs;
    Known(s);
    OneEvent(s.wheel.Abs(), e);
    var c := s.Accept(e.fd);
    ops := [];
    NewMatches(c);
    AcceptedMatches(s, e, m);
  }

  lemma NewMatches(c: Client)
    requires c.state == Start && c.headers == map[] && c.decodeBuffer == [] && !c.waitClose && c.heartbeatId == 0
    requires c.calls == [] && c.passed == []
    ensures PeerMatches(c, NEW_PEER)
  {
  }

  method StepHungUp(s: Server, e: Event, ghost m: Model) returns (ghost ops: seq<Timers.Op>)
    requires s.Settled() && Matches(s, m) && e.HungUp?
    modifies s, s.clients.Values, s.wheel, s.wheel.tv
    ensures s.Settled() && Ran(s, old(s.clients), [e], ops)
    ensures Matches(s, After(m, e))
  {
    hide Matches, PeerMatches, After, Server.Valid, TimeWheel.Abs, Dropped, EraseOf;
    Known(s);
    OneEvent(s.wheel.Abs(), e);
    ops := [];
    if e.fd in s.clients {
      DropRuns(s.wheel.Abs(), s.clients[e.fd].heartbeatId);
      OneErase(s.clients[e.fd].heartbeatId);
      ops := EraseOf(s.clients[e.fd].heartbeatId);
    }
    s.HangUp(e.fd);
    Known(s);
    HungUpMatches(s, e, m);
  }

  method StepWritable(s: Server, e: Event, ghost m: Model) returns (ghost ops: seq<Timers.Op>)
    requires s.Settled() && Matches(s, m) && e.Writable?
    modifies s, s.clients.Values, s.wheel, s.wheel.tv
    ensures s.Settled() && Ran(s, old(s.clients), [e], ops)
    ensures Matches(s, After(m, e))
  {
    hide Matches, PeerMatches, After, Server.Valid, TimeWheel.Abs, Client.Onward, TimerRuns.Untouched, HeartbeatOp;
    hide Timers.Run, Timers.Apply, Clocks, Checks, Server.Flushed, Server.Quiet, Server.Promoted;
    Known(s);
    OneEvent(s.wheel.Abs(), e);
    ops := [];
    s.OnWritable(e.fd);
    WrittenOnward(s, e.fd);
    Known(s);
    WritableMatches(s, e, m);
  }

  twostate lemma WrittenOnward(s: Server, new fd: int)
    requires unchanged(s`clients) && (fd !in s.clients ==> forall d :: d in s.clients.Values ==> unchanged(d))
    requires fd in s.clients ==> s.Flushed(s.clients[fd])
    requires forall d :: d in s.clients.Values ==>
      && d.heartbeatId == old(d.heartbeatId) && d.pings == old(d.pings)
      && (d !in s.At(fd) ==>
        d.state == old(d.state) && d.calls == old(d.calls) && d.wire == old(d.wire) && d.refused == old(d.refused))
    requires fd in s.clients ==>
      if old(s.clients[fd].state) == WaitShake then s.Promoted(s.clients[fd]) else s.Quiet(s.clients[fd])
    ensures forall d :: d in old(s.clients.Values) ==> d.Onward()
    ensures forall d :: d in old(s.clients.Values) && old(d.state) == Connected ==>
      d.state == Connected && d.calls == old(d.calls)
  {
    hide DataOf, HelloItem;
  }

  method StepClock(s: Server, e: Event, ghost m: Model) returns (ghost ops: seq<Timers.Op>)
    requires s.Settled() && Matches(s, m) && e.Clock?
    modifies s, s.clients.Values, s.wheel, s.wheel.tv
    ensures s.Settled() && Ran(s, old(s.clients), [e], ops)
    ensures Matches(s, After(m, e))
  {
    hide Matches, PeerMatches, After, Server.Valid, TimeWheel.Abs, Timers.CheckTicks, TimerRuns.Untouched, HeartbeatOp;
    hide Timers.Run, Timers.Apply, Clocks, Checks, Server.Pinged, Client.Onward;
    Known(s);
    OneEvent(s.wheel.Abs(), e);
    OneCheck(s.wheel.Abs(), e.now);
    ops := [Timers.Check(e.now)];
    s.OnHeartbeats(e.now);
    Known(s);
    PingedOnward(s);
    ClockMatches(s, e, m);
  }

  twostate lemma PingedOnward(s: Server)
    requires unchanged(s`clients) && old(s.wheel.log) <= s.wheel.log && s.Pinged(s.wheel.log[|old(s.wheel.log)|..])
    requires forall d :: d in s.clients.Values ==>
      && d.heartbeatId == old(d.heartbeatId) && d.state == old(d.state) && d.calls == old(d.calls)
      && d.wire == old(d.wire) && d.refused == old(d.refused)
    ensures forall d :: d in old(s.clients.Values) ==> d.Onward()
  {
    hide PingsAfter, PassedAfter;
    PingsExtend();
  }

  lemma OneCheck(s: Timers.Flat, now: int)
    requires !s.stuck
    ensures var ops := [Timers.Check(now)];
      && Timers.Run(s, ops) == Timers.CheckTicks(s, now) && Checks(ops) == [now] && HeartbeatOp(ops[0])
      && forall id :: TimerRuns.Untouched(id, ops)
  {
    RunOne(s, Timers.Check(now));
  }

  lemma PingsExtend()
    ensures forall before, news, id :: before <= PingsAfter(before, news, id)
    ensures forall before, news, id :: before <= PassedAfter(before, news, id)
  {
  }

  // ---- A batch of bytes ----

  /** The opening request of a client, or bytes for a socket that is not registered. */
  method StepOpening(s: Server, e: Event, ghost m: Model) returns (ghost ops: seq<Timers.Op>)
    requires s.Settled() && Matches(s, m) && e.Arrived? && Possible(s, e)
    requires e.fd in s.clients ==> s.clients[e.fd].state.Start?
    modifies s, s.clients.Values, s.wheel, s.wheel.tv
    ensures s.Settled() && Ran(s, old(s.clients), [e], ops)
    ensures Matches(s, After(m, e))
  {
    hide Matches, PeerMatches, After, Server.Valid, TimeWheel.Abs, StaysInside;
    hide Server.Opened, Server.Early, Server.Received;
    hide WithHeartbeat, Http.Upgrades, Http.Complete;
    Known(s);
    ghost var flat := s.wheel.Abs();
    OneEvent(flat, e);
    AddRuns(flat, e.now);
    s.OnData(e.fd, e.data, e.acceptKey, e.now, e.request, e.rest);
    ops := if s.wheel.Abs() == flat then [] else [AddAt(e.now)];
    if e.fd in old(s.clients) {
      OpenedOnward(s, e);
      OpeningMatches(s, e, m);
    } else {
      AbsentMatches(s, e, m);
    }
  }

  /** A batch of frames. */
  method StepFrames(s: Server, e: Event, ghost m: Model) returns (ghost ops: seq<Timers.Op>)
    requires s.Settled() && Matches(s, m) && e.Arrived? && Possible(s, e)
    requires e.fd in s.clients && !s.clients[e.fd].state.Start?
    modifies s, s.clients.Values, s.wheel, s.wheel.tv
    ensures s.Settled() && Ran(s, old(s.clients), [e], ops)
    ensures Matches(s, After(m, e))
  {
    hide Matches, PeerMatches, After, Server.Valid, TimeWheel.Abs, StaysInside;
    hide Server.Opened, Server.Early, Server.Received;
    hide Dropped, EraseOf, ReplyTo, Http.Upgrades, Http.Complete, TimerRuns.Untouched, HeartbeatOp, Client.Onward;
    hide Timers.Run, Checks, Clocks;
    Known(s);
    ghost var flat, c := s.wheel.Abs(), s.clients[e.fd];
    OneEvent(flat, e);
    s.OnData(e.fd, e.data, e.acceptKey, e.now, e.request, e.rest);
    ghost var reply := ReplyTo(e.data, old(c.decodeBuffer), s.signedChar, old(c.waitClose));
    ghost var id := if reply == Closing then old(c.heartbeatId) else 0;
    DropRuns(flat, id);
    OneErase(id);
    ops := EraseOf(id);
    if old(c.state).WaitShake? {
      EarlyOnward(s, e);
    } else {
      ReceivedOnward(s, e);
    }
    OthersOnward(s, e.fd);
    FramesMatches(s, e, m);
  }

  twostate lemma OthersOnward(s: Server, new fd: int)
    requires fd in old(s.clients) && old(s.clients)[fd].Onward()
    requires forall d :: d in old(s.clients.Values) && d != old(s.clients)[fd] ==> unchanged(d)
    ensures forall d :: d in old(s.clients.Values) ==> d.Onward()
  {
  }

  lemma AddRuns(s: Timers.Flat, now: int)
    requires !s.stuck
    ensures Timers.Run(s, [AddAt(now)]) == WithHeartbeat(s, now) && Checks([AddAt(now)]) == []
  {
    hide Timers.AddTask;
    RunOne(s, AddAt(now));
  }

  twostate lemma OpenedOnward(s: Server, new e: Event)
    requires e.Arrived? && e.fd in old(s.clients) && old(s.clients[e.fd].state).Start?
    requires s.Opened(old(s.clients)[e.fd], e.request, e.acceptKey)
    ensures old(s.clients)[e.fd].Onward()
  {
    hide Http.Upgrades, Http.Complete, Http.EmplaceAll, Http.Entries, Http.SwitchingProtocols;
  }

  twostate lemma EarlyOnward(s: Server, new e: Event)
    requires e.Arrived? && e.fd in old(s.clients) && old(s.clients[e.fd].state).WaitShake?
    requires s.Early(old(s.clients)[e.fd], e.data)
    ensures old(s.clients)[e.fd].Onward()
    ensures var c := old(s.clients)[e.fd];
      ReplyTo(e.data, old(c.decodeBuffer), s.signedChar, old(c.waitClose)) == Closing ==> c.heartbeatId == 0
    ensures s.clients == old(s.clients) || s.clients == old(s.clients) - {old(s.clients)[e.fd].fd}
  {
    hide ReplyTo, Absorb, Closes;
  }

  twostate lemma ReceivedOnward(s: Server, new e: Event)
    requires e.Arrived? && e.fd in old(s.clients) && old(s.clients[e.fd].state).Connected?
    requires s.Received(old(s.clients)[e.fd], e.data)
    ensures old(s.clients)[e.fd].Onward()
    ensures var c := old(s.clients)[e.fd];
      ReplyTo(e.data, old(c.decodeBuffer), s.signedChar, old(c.waitClose)) == Closing ==> c.heartbeatId == 0
    ensures s.clients == old(s.clients) || s.clients == old(s.clients) - {old(s.clients)[e.fd].fd}
  {
    hide ReplyTo, Receive, Closes, CallsFor, WellFormed, TextFrame, EncodeFrame;
  }

  // ---- The model's steps ----

  twostate lemma AcceptedMatches(s: Server, new e: Event, new m: Model)
    requires old(Matches(s, m)) && e.Accepted? && e.fd !in old(s.clients)
    requires unchanged(s.wheel) && forall fd :: fd in old(s.clients) ==> unchanged(old(s.clients)[fd])
    requires s.clients.Keys == old(s.clients).Keys + {e.fd}
    requires forall fd :: fd in old(s.clients) ==> s.clients[fd] == old(s.clients)[fd]
    requires PeerMatches(s.clients[e.fd], NEW_PEER)
    ensures Matches(s, After(m, e))
  {
    hide Shows, TimeWheel.Abs;
  }

  twostate lemma HungUpMatches(s: Server, new e: Event, new m: Model)
    requires old(Matches(s, m)) && e.HungUp?
    requires s.clients == old(s.clients) - {e.fd}
    requires forall fd :: fd in old(s.clients) ==> unchanged(old(s.clients)[fd])
    requires s.wheel.Abs()
          == if e.fd in old(s.clients) then Dropped(old(s.wheel.Abs()), old(s.clients[e.fd].heartbeatId))
             else old(s.wheel.Abs())
    ensures Matches(s, After(m, e))
  {
    hide Shows, TimeWheel.Abs;
  }

  twostate lemma WritableMatches(s: Server, new e: Event, new m: Model)
    requires old(Matches(s, m)) && e.Writable? && unchanged(s`clients) && unchanged(s.wheel)
    requires e.fd !in s.clients ==> forall d :: d in s.clients.Values ==> unchanged(d)
    requires forall d :: d in s.clients.Values ==>
      && d.headers == old(d.headers) && d.decodeBuffer == old(d.decodeBuffer) && d.waitClose == old(d.waitClose)
      && d.heartbeatId == old(d.heartbeatId)
      && (d !in s.At(e.fd) ==> d.state == old(d.state) && d.calls == old(d.calls))
    requires e.fd in s.clients ==>
      if old(s.clients[e.fd].state) == WaitShake then s.Promoted(s.clients[e.fd]) else s.Quiet(s.clients[e.fd])
    requires forall fd :: fd in s.clients ==> s.clients[fd].fd == fd
    requires forall fd :: fd in s.clients ==> (s.clients[fd] in s.wbClients <==> s.clients[fd].state == Connected)
    ensures Matches(s, After(m, e))
  {
    hide Shows, TimeWheel.Abs, HelloItem;
    forall fd | fd in s.clients
      ensures fd in After(m, e).peers && PeerMatches(s.clients[fd], After(m, e).peers[fd])
    {
      var d := s.clients[fd];
      assert old(PeerMatches(d, m.peers[fd])) && d in s.clients.Values;
      ShowsGreeting(old(d.passed), m.peers[fd].sent);
    }
  }

  lemma ShowsGreeting(items: seq<Item>, sent: seq<Sent>)
    requires Shows(items, sent)
    ensures Shows(items + [HelloItem()], sent + [SentGreeting])
  {
    hide HelloItem, Http.Ascii;
    HelloBytes();
    ShowsMore(items, sent, HelloItem(), SentGreeting);
  }

  twostate lemma ClockMatches(s: Server, new e: Event, new m: Model)
    requires old(Matches(s, m)) && e.Clock? && unchanged(s`clients)
    requires s.wheel.Abs() == Timers.CheckTicks(old(s.wheel.Abs()), e.now) && old(s.wheel.log) <= s.wheel.log
    requires s.Pinged(s.wheel.log[|old(s.wheel.log)|..])
    requires forall d :: d in s.clients.Values ==>
      && d.headers == old(d.headers) && d.decodeBuffer == old(d.decodeBuffer) && d.waitClose == old(d.waitClose)
      && d.heartbeatId == old(d.heartbeatId) && d.state == old(d.state) && d.calls == old(d.calls)
    requires forall d :: d in s.clients.Values ==>
      d.heartbeatId < old(s.wheel.nextId) && d.heartbeatId < s.wheel.nextId
    requires forall i :: 0 <= i < |s.wheel.log| ==> 1 <= s.wheel.log[i].id < s.wheel.nextId
    requires forall i :: 0 <= i < |old(s.wheel.log)| ==> 1 <= old(s.wheel.log)[i].id < old(s.wheel.nextId)
    ensures Matches(s, After(m, e))
  {
    hide Shows, Timers.CheckTicks, Pings, PingsSent, CallsOf, Pinged, TasksOf, FiredOf;
    forall fd | fd in s.clients ensures PeerMatches(s.clients[fd], After(m, e).peers[fd]) {
      var d := s.clients[fd];
      var news := s.wheel.log[|old(s.wheel.log)|..];
      PingedPeer(m.peers[fd], m.timer, s.wheel.Abs(), old(s.wheel.log), s.wheel.log, old(s.wheel.nextId),
                 s.wheel.nextId);
      ShowsPings(old(d.passed), m.peers[fd].sent, |CallsOf(news, d.heartbeatId)|);
    }
  }

  lemma PingedPeer(
    p: Peer, before: Timers.Flat, after: Timers.Flat, log0: seq<Timers.Firing>, log: seq<Timers.Firing>, n0: nat,
    n: nat)
    requires before.fired == FiredOf(log0, n0) && after.fired == FiredOf(log, n) && log0 <= log
    requires p.heartbeatId < n0 && p.heartbeatId < n && forall i :: 0 <= i < |log| ==> log[i].id != 0
    ensures Pinged(p, before, after) == p.(sent := p.sent + PingsSent(|CallsOf(log[|log0|..], p.heartbeatId)|))
  {
    hide CallsOf;
    PingCount(log0, log, p.heartbeatId);
    CallsListed(log0, n0);
    CallsListed(log, n);
    if p.heartbeatId == 0 {
      assert p.sent + PingsSent(0) == p.sent;
    }
  }

  lemma PingCount(log0: seq<Timers.Firing>, log: seq<Timers.Firing>, id: nat)
    requires log0 <= log && forall i :: 0 <= i < |log| ==> log[i].id != 0
    ensures |CallsOf(log, id)| == |CallsOf(log0, id)| + |CallsOf(log[|log0|..], id)|
    ensures id == 0 ==> CallsOf(log[|log0|..], id) == []
  {
    assert log0 + log[|log0|..] == log;
    CallsOfConcat(log0, log[|log0|..], id);
    if id == 0 {
      NoCalls(log[|log0|..], 0);
    }
  }

  twostate lemma AbsentMatches(s: Server, new e: Event, new m: Model)
    requires old(Matches(s, m)) && e.Arrived? && e.fd !in s.clients && unchanged(s`clients)
    requires s.wheel.Abs() == old(s.wheel.Abs()) && forall fd :: fd in s.clients ==> unchanged(s.clients[fd])
    ensures Matches(s, After(m, e))
  {
    hide Shows, TimeWheel.Abs;
  }

  twostate lemma OpeningMatches(s: Server, new e: Event, new m: Model)
    requires old(Matches(s, m)) && e.Arrived? && e.data != []
    requires e.fd in old(s.clients) && old(s.clients[e.fd].state).Start?
    requires Scannable(e.request, e.rest, e.data, s.heartbeat, old(s.wheel.nextId))
    requires s.Opened(old(s.clients)[e.fd], e.request, e.acceptKey)
    requires s.Scheduled(old(s.clients)[e.fd], e.request, e.now) && unchanged(s`clients)
    requires forall fd :: fd in s.clients && fd != e.fd ==> unchanged(s.clients[fd])
    ensures Matches(s, After(m, e))
  {
    hide Shows, TasksOf, FiredOf, WithHeartbeat, Answered, Scannable;
    hide Http.Upgrades, Http.Complete, Http.EmplaceAll, Http.Entries, Http.SwitchingProtocols;
    var c, p := s.clients[e.fd], m.peers[e.fd];
    hide Http.Print, Http.Response;
    Http.ResponsePrinted(e.acceptKey);
    ShowsMore(old(c.passed), p.sent, Item(Handshake, Http.SwitchingProtocols(e.acceptKey)), SentResponse(e.acceptKey));
    if Answered(old(c.passed), c.passed, Closing) {
      ShowsAnswer(old(c.passed), c.passed, Closing, p.sent);
    }
  }

  twostate lemma FramesMatches(s: Server, new e: Event, new m: Model)
    requires old(Matches(s, m)) && e.Arrived? && Readable(e.data, s.signedChar)
    requires e.fd in old(s.clients) && !old(s.clients[e.fd].state).Start? && old(s.clients)[e.fd].fd == e.fd
    requires old(s.clients[e.fd].state).WaitShake? ==> s.Early(old(s.clients)[e.fd], e.data)
    requires old(s.clients[e.fd].state).Connected? ==> s.Received(old(s.clients)[e.fd], e.data)
    requires s.Unscheduled(old(s.clients)[e.fd], e.data)
    requires forall fd :: fd in old(s.clients) && fd != e.fd ==> unchanged(old(s.clients)[fd])
    ensures Matches(s, After(m, e))
  {
    hide Shows, TimeWheel.Abs, Dropped, Answered, Echoed, StaysInside, DataBatch, ReplyTo, Absorb, Receive, Closes;
    var c, p := old(s.clients)[e.fd], m.peers[e.fd];
    var reply := ReplyTo(e.data, p.decodeBuffer, m.signedChar, p.waitClose);
    OneMessage(e.data, p.decodeBuffer, m.signedChar);
    var messages := Receive(e.data, p.decodeBuffer, m.signedChar).1;
    if p.state.Connected? && messages != [] {
      assert Echoes(messages) == [SentEcho(messages[0])];
      ShowsEcho(old(c.passed), c.passed, messages[0], p.sent);
    } else {
      ShowsAnswer(old(c.passed), c.passed, reply, p.sent);
    }
    assert c.fd in s.clients ==> PeerMatches(c, Framed(m, p, e.data));
  }

  lemma OneMessage(data: seq<byte>, acc: seq<byte>, signedChar: bool)
    ensures |Receive(data, acc, signedChar).1| <= 1
  {
    hide Absorb;
  }

  // ---- Runs ----

  lemma ImpossibleStays(s: Server, e: Event, m: Model)
    requires Matches(s, m) && !Possible(s, e)
    ensures After(m, e) == m
  {
    hide Readable, Scannable, Shows, TasksOf, FiredOf;
  }

  /** One event; one that cannot come, or that the model leaves out, is passed over. */
  method Step(s: Server, e: Event, ghost m: Model) returns (ghost ops: seq<Timers.Op>)
    requires s.Settled() && Matches(s, m)
    modifies s, s.clients.Values, s.wheel, s.wheel.tv
    ensures s.Settled() && Ran(s, old(s.clients), [e], ops)
    ensures Matches(s, After(m, e))
  {
    hide Matches, After, Server.Valid, TimeWheel.Abs, Readable, Scannable;
    if !Possible(s, e) {
      Known(s);
      OneEvent(s.wheel.Abs(), e);
      ops := [];
      ImpossibleStays(s, e, m);
      return;
    }
    hide Ran;
    match e {
      case Accepted(_) => ops := StepAccepted(s, e, m);
      case HungUp(_) => ops := StepHungUp(s, e, m);
      case Arrived(fd, _, _, _, _, _) =>
        if fd in s.clients && !s.clients[fd].state.Start? {
          ops := StepFrames(s, e, m);
        } else {
          ops := StepOpening(s, e, m);
        }
      case Writable(_) => ops := StepWritable(s, e, m);
      case Clock(_) => ops := StepClock(s, e, m);
    }
  }

  lemma FirstEvent(events: seq<Event>)
    requires events != []
    ensures Clocks(events) == Clocks([events[0]]) + Clocks(events[1..])
  {
    assert [events[0]][1..] == [];
  }

  lemma NoEvents(s: Timers.Flat)
    ensures Timers.Run(s, []) == s && forall id :: TimerRuns.Untouched(id, [])
    ensures Checks([]) == [] && Clocks([]) == []
  {
  }

  /** The events one after the other. */
  method Perform(s: Server, events: seq<Event>, ghost m: Model) returns (ghost ops: seq<Timers.Op>)
    requires s.Settled() && Matches(s, m)
    modifies s, s.clients.Values, s.wheel, s.wheel.tv
    ensures s.Settled() && Ran(s, old(s.clients), events, ops)
    ensures Matches(s, AfterAll(m, events))
    decreases |events|
  {
    hide Matches, After, Server.Valid, TimeWheel.Abs, HeartbeatOp, TimerRuns.Untouched, Timers.Run, Checks, Clocks;
    if events == [] {
      NoEvents(s.wheel.Abs());
      Known(s);
      ops := [];
      return;
    }
    Known(s);
    FirstEvent(events);
    ghost var ops1 := Step(s, events[0], m);
    label mid:
    ghost var ops2 := Perform(s, events[1..], After(m, events[0]));
    ops := ops1 + ops2;
    assert s.wheel.Abs() == Timers.Run(old(s.wheel.Abs()), ops) by {
      RunConcat(old(s.wheel.Abs()), ops1, ops2);
    }
    assert Checks(ops) == Clocks(events) by {
      ChecksConcat(ops1, ops2);
    }
    assert Grown(s, old(s.clients));
    forall d | d in old(s.clients).Values && Beating(s, d) ensures TimerRuns.Untouched(d.heartbeatId, ops) {
      assert d in old@mid(s.clients).Values && old@mid(d.heartbeatId) == d.heartbeatId;
      UntouchedConcat(ops1, ops2, d.heartbeatId);
    }
  }

  lemma UntouchedConcat(a: seq<Timers.Op>, b: seq<Timers.Op>, id: nat)
    requires TimerRuns.Untouched(id, a) && TimerRuns.Untouched(id, b)
    ensures TimerRuns.Untouched(id, a + b)
  {
  }

  // ---- What runs promise ----

  /** The heartbeat of a client that keeps it went on time: the pings of the client are the callbacks of its task, which
      came at its due ticks and without end. */
  twostate predicate Timely(s: Server, d: Client)
    reads s, s.wheel, d
  {
    var before, now, id := old(s.wheel.Abs()), s.wheel.Abs(), d.heartbeatId;
    && id in before.tasks && id in before.fired && TimerRuns.OnTime(before, now, id)
    && TimerRuns.Rounds(before, now, id) && id in now.tasks && d.pings == now.fired[id]
  }

  lemma KnownTask(s: Server, d: Client)
    requires s.Settled() && d in s.clients.Values && d.heartbeatId != 0
    ensures TimerRuns.Sound(s.wheel.Abs()) && d.heartbeatId in s.wheel.Abs().tasks
    ensures d.heartbeatId in s.wheel.Abs().fired && d.pings == s.wheel.Abs().fired[d.heartbeatId]
    ensures s.wheel.Abs().tasks[d.heartbeatId].interval == 3000
    ensures s.wheel.Abs().tasks[d.heartbeatId].count == 0xFFFF_FFFF
  {
    hide Indexed, AllPlaced, CallsOf, TimerRuns.Sound, TimerRuns.Paced, TimerRuns.Apart;
    hide Client.Ok;
    var fd := KeyOf(s.clients, d);
    assert s.Live(d) && d.heartbeatId in s.wheel.idMap;
    EndlessMap(s.wheel.idMap, s.wheel.current);
    CallsListed(s.wheel.log, s.wheel.nextId);
    assert s.wheel.log[..s.served] == s.wheel.log && Recorded(d, s.wheel.log);
  }

  /** Any sequence of events, of any clients, one after the other. */
  method Replay(s: Server, events: seq<Event>, ghost m: Model) returns (ghost ops: seq<Timers.Op>)
    requires s.Settled() && Matches(s, m)
    modifies s, s.clients.Values, s.wheel, s.wheel.tv
    ensures s.Settled() && Ran(s, old(s.clients), events, ops)
    ensures Matches(s, AfterAll(m, events))
    ensures forall d :: d in old(s.clients.Values) && Beating(s, d) ==> Timely(s, d)
  {
    ghost var clients, before := s.clients, s.wheel.Abs();
    hide Matches, AfterAll, Server.Valid, TimeWheel.Abs;
    hide TimerRuns.Sound, TimerRuns.OnTime, TimerRuns.Rounds, TimerRuns.Untouched;
    hide HeartbeatOp, Client.Onward;
    forall d | d in clients.Values && d.heartbeatId != 0
      ensures TimerRuns.Sound(before) && d.heartbeatId in before.tasks && d.heartbeatId in before.fired
    {
      KnownTask(s, d);
    }
    ops := Perform(s, events, m);
    forall d | d in clients.Values && Beating(s, d) ensures Timely(s, d) {
      KnownTask(s, d);
      TimerRuns.ServedAtDueTick(before, d.heartbeatId, ops);
      TimerRuns.RoundsOverRuns(before, d.heartbeatId, ops);
    }
  }

  /** After the first `n` calls comes one at `due`, and then, as soon as the timer is past `next`, one at `next`. */
  ghost predicate CalledNext(fs: seq<Timers.Firing>, current: int, n: nat, due: int, next: int) {
    && |fs| > n && fs[n].tick == due
    && (current <= next ==> |fs| == n + 1)
    && (next < current ==> |fs| > n + 1 && fs[n + 1].tick == next)
  }

  lemma OnSchedule(s: Timers.Flat, s': Timers.Flat, id: nat, before: seq<Timers.Firing>, due: int)
    requires id in s.tasks && id in s.fired && TimerRuns.OnTime(s, s', id)
    requires s.fired[id] == before + [Timers.Firing(id, due, false)]
    ensures id in s'.fired && CalledNext(s'.fired[id], s'.current, |before|, due, s.tasks[id].due)
  {
    var n := |s.fired[id]|;
    assert s.fired[id][|before|] == Timers.Firing(id, due, false);
    if s.tasks[id].due < s'.current {
      var f := Timers.Firing(id, s.tasks[id].due, Timers.LastRound(s.tasks[id].count));
      assert (s.fired[id] + [f])[n] == f && (s.fired[id] + [f])[..n] == s.fired[id];
    }
  }

  /** A clock reading `now` at which a client's heartbeat is due. */
  method DueClock(s: Server, e: Event, ghost id: nat, ghost m: Model)
    requires s.Settled() && Matches(s, m) && e.Clock?
    requires id in s.wheel.Abs().tasks && TimerRuns.Sound(s.wheel.Abs())
    requires var t := s.wheel.Abs().tasks[id];
      t.interval == 3000 && t.count == 0xFFFF_FFFF && t.due <= e.now && e.now + 3000 <= t.due + 0x1_0000_0000
    modifies s, s.clients.Values, s.wheel, s.wheel.tv
    ensures s.Settled() && Matches(s, After(m, e)) && Grown(s, old(s.clients))
    ensures var before, after := old(s.wheel.Abs()), s.wheel.Abs();
      && id in before.fired && id in after.fired && id in after.tasks && after.tasks[id].due == e.now + 3000
      && after.fired[id] == before.fired[id] + [Timers.Firing(id, before.tasks[id].due, false)]
  {
    hide Server.Valid, Matches, TimerRuns.Sound, TimerRuns.Untouched, TimeWheel.Abs, HeartbeatOp, Timers.Run, After;
    TimerOf(s, m);
    ClockModel(m, e, id);
    ghost var ops := Step(s, e, m);
    TimerOf(s, After(m, e));
  }

  lemma ClockModel(m: Model, e: Event, id: nat)
    requires e.Clock? && TimerRuns.Sound(m.timer) && id in m.timer.tasks
    requires var t := m.timer.tasks[id];
      t.interval == 3000 && t.count == 0xFFFF_FFFF && t.due <= e.now && e.now + 3000 <= t.due + 0x1_0000_0000
    ensures var before, after := m.timer, After(m, e).timer;
      && id in before.fired && id in after.fired && id in after.tasks && after.tasks[id].due == e.now + 3000
      && after.fired[id] == before.fired[id] + [Timers.Firing(id, before.tasks[id].due, false)]
  {
    hide Timers.CheckTicks, TimerRuns.Sound;
    TimerRuns.NotOverdue(m.timer, id);
    TimerRuns.NextDue(m.timer, id, e.now);
  }

  /** When a client's next ping comes: a clock reading `e.now` at which its heartbeat is due has it pinged for that due
      tick, and, as long as it keeps its heartbeat, next at the tick 3000 after `e.now`, not before and not later. */
  method PingPeriod(s: Server, fd: int, e: Event, events: seq<Event>, ghost m: Model)
    requires s.Settled() && Matches(s, m) && e.Clock? && fd in s.clients
    requires s.clients[fd].heartbeatId in s.wheel.Abs().tasks
    requires var due := s.wheel.Abs().tasks[s.clients[fd].heartbeatId].due;
      due <= e.now && e.now + 3000 <= due + 0x1_0000_0000
    modifies s, s.clients.Values, s.wheel, s.wheel.tv
    ensures s.Settled() && Matches(s, AfterAll(After(m, e), events))
    ensures var d := old(s.clients)[fd];
      Beating(s, d) ==>
        var due := old(s.wheel.Abs().tasks[s.clients[fd].heartbeatId].due);
        CalledNext(d.pings, s.wheel.current, |old(s.clients[fd].pings)|, due, e.now + 3000)
  {
    hide Server.Valid, Matches, After, AfterAll, TimerRuns.Sound, TimerRuns.Rounds, TimerRuns.OnTime, HeartbeatOp;
    hide TimerRuns.Untouched, Timers.Run, TasksOf, FiredOf, CalledNext;
    ghost var d, id, before := s.clients[fd], s.clients[fd].heartbeatId, s.wheel.Abs();
    NoTaskZero(s);
    KnownTask(s, d);
    Known(s);
    DueClock(s, e, id, m);
    label mid:
    ghost var middle := s.wheel.Abs();
    ghost var ops := Replay(s, events, After(m, e));
    if Beating(s, d) {
      assert old@mid(d in s.clients.Values) && old@mid(d.heartbeatId) == id;
      OnSchedule(middle, s.wheel.Abs(), id, before.fired[id], before.tasks[id].due);
    }
  }

  ghost predicate CalledFrom(fs: seq<Timers.Firing>, current: int, tick: int) {
    if current <= tick then fs == [] else fs != [] && fs[0].tick == tick
  }

  lemma FirstOnSchedule(s: Timers.Flat, s': Timers.Flat, id: nat)
    requires id in s.tasks && id in s.fired && TimerRuns.OnTime(s, s', id) && s.fired[id] == []
    ensures id in s'.fired && CalledFrom(s'.fired[id], s'.current, s.tasks[id].due)
  {
    var f := Timers.Firing(id, s.tasks[id].due, Timers.LastRound(s.tasks[id].count));
    assert ([] + [f])[0] == f;
  }

  /** An opening request that asks for a WebSocket. */
  ghost predicate Welcome(s: Server, e: Event)
    reads s, s.clients.Values, s.wheel
  {
    && e.Arrived? && e.fd in s.clients && s.clients[e.fd].state.Start? && s.heartbeat && Possible(s, e)
    && Http.Complete(e.request.headers)
    && Http.Upgrades(Http.EmplaceAll(s.clients[e.fd].headers, Http.Entries(e.request)))
  }

  method WelcomeArrived(s: Server, e: Event, ghost m: Model)
    requires s.Settled() && Matches(s, m) && Welcome(s, e)
    requires s.wheel.current <= e.now + 3000 <= s.wheel.current + 0xFFFF_FFFF
    modifies s, s.clients.Values, s.wheel, s.wheel.tv
    ensures s.Settled() && Matches(s, After(m, e)) && Grown(s, old(s.clients))
    ensures e.fd in s.clients && s.clients[e.fd].state.WaitShake? && s.clients[e.fd].heartbeatId == old(s.wheel.nextId)
    ensures var id, flat := old(s.wheel.nextId), s.wheel.Abs();
      id in flat.tasks && flat.tasks[id].due == e.now + 3000 && id in flat.fired && flat.fired[id] == []
  {
    WelcomeModel(s, e, m);
    hide Server.Valid, Matches, Possible, Welcome, After, HeartbeatOp, TimerRuns.Untouched, Timers.Run, TimeWheel.Abs;
    ghost var ops := Step(s, e, m);
    PeerOf(s, After(m, e), e.fd);
  }

  lemma WelcomeModel(s: Server, e: Event, m: Model)
    requires Matches(s, m) && Welcome(s, e)
    requires s.wheel.current <= e.now + 3000 <= s.wheel.current + 0xFFFF_FFFF
    ensures var m', id := After(m, e), s.wheel.nextId;
      && e.fd in m'.peers && m'.peers[e.fd].state.WaitShake? && m'.peers[e.fd].heartbeatId == id
      && id in m'.timer.tasks && m'.timer.tasks[id].due == e.now + 3000
      && id in m'.timer.fired && m'.timer.fired[id] == []
  {
    hide Http.Upgrades, Http.Complete, Http.EmplaceAll, Http.Entries, Scannable, Shows, TasksOf, FiredOf;
    TimerRuns.AddedTask(m.timer, e.now, 3000, 0xFFFF_FFFF, false, 0);
  }

  lemma PeerOf(s: Server, m: Model, fd: int)
    requires Matches(s, m) && fd in m.peers
    ensures fd in s.clients && s.clients[fd].state == m.peers[fd].state
    ensures s.clients[fd].heartbeatId == m.peers[fd].heartbeatId && s.wheel.Abs() == m.timer
  {
  }

  /** When a client's first ping comes: as long as it keeps the heartbeat that its handshake at the time `e.now` gave
      it, at the tick 3000 after that, not before and not later. */
  method FirstPing(s: Server, e: Event, events: seq<Event>, ghost m: Model)
    requires s.Settled() && Matches(s, m) && Welcome(s, e)
    requires s.wheel.current <= e.now + 3000 <= s.wheel.current + 0xFFFF_FFFF
    modifies s, s.clients.Values, s.wheel, s.wheel.tv
    ensures s.Settled() && Matches(s, AfterAll(After(m, e), events))
    ensures var d := old(s.clients)[e.fd];
      d in s.clients.Values && d.heartbeatId == old(s.wheel.nextId) ==>
        CalledFrom(d.pings, s.wheel.current, e.now + 3000)
  {
    hide Server.Valid, Matches, After, AfterAll, TimerRuns.Sound, TimerRuns.Rounds, TimerRuns.OnTime, HeartbeatOp;
    hide TimerRuns.Untouched, Timers.Run, TasksOf, FiredOf, CalledFrom;
    ghost var d, id := s.clients[e.fd], s.wheel.nextId;
    Known(s);
    WelcomeArrived(s, e, m);
    Known(s);
    label mid:
    ghost var middle := s.wheel.Abs();
    ghost var ops := Replay(s, events, After(m, e));
    if d in s.clients.Values && d.heartbeatId == id {
      assert old@mid(d in s.clients.Values) && old@mid(d.heartbeatId) == id;
      KnownTask(s, d);
      FirstOnSchedule(middle, s.wheel.Abs(), id);
    }
  }

  lemma TimerOf(s: Server, m: Model)
    requires Matches(s, m)
    ensures s.wheel.Abs() == m.timer
  {
  }

  lemma NoTaskZero(s: Server)
    requires s.Valid()
    ensures 0 !in s.wheel.Abs().tasks
  {
    EndlessMap(s.wheel.idMap, s.wheel.current);
  }

  /** Message isolation on the server itself: the application's calls for a connected client with an empty decode buffer
      are exactly the whole messages that its peer sent over the run, whatever other clients do in between. */
  method Converse(s: Server, events: seq<Event>, fd: int, ghost bs: seq<Batch>, ghost m: Model)
    requires s.Settled() && Matches(s, m) && fd in s.clients
    requires s.clients[fd].state.Connected? && s.clients[fd].decodeBuffer == [] && Spared(events, fd)
    requires forall i :: 0 <= i < |bs| ==> Sendable(bs[i], s.signedChar)
    requires BatchesFor(events, fd) == WireAll(bs, s.signedChar)
    modifies s, s.clients.Values, s.wheel, s.wheel.tv
    ensures s.Settled() && fd in s.clients && s.clients[fd].state.Connected? && s.clients[fd].decodeBuffer == []
    ensures s.clients[fd].calls == old(s.clients[fd].calls) + CallsFor(Messages(bs))
  {
    hide Server.Valid, TimeWheel.Abs, Sendable, WireAll, AfterAll, BatchesFor, Spared, CallsFor, Shows;
    RunIsolated(m, events, fd, bs);
    ghost var ops := Replay(s, events, m);
  }

  // ---- What holds in every reachable state ----

  /** Bytes written plus bytes queued are the bytes passed to `send_buffer`, in order, exactly when no write was
      refused; and write interest is registered exactly while something is queued. */
  ghost predicate OutputKept(c: Client)
    reads c
  {
    && (c.wire + Concat(c.queue) == DataOf(c.passed) <==> !c.refused)
    && (c.armed <==> c.queue != [])
  }

  /** Exactly one 101 response comes before any application message, and the connected callback ran once, before every
      receive callback. */
  ghost predicate ResponseFirst(c: Client)
    reads c
  {
    && (forall i :: 0 <= i < |c.passed| && c.passed[i].kind == Application ==>
         exists h :: 0 <= h < i && c.passed[h].kind == Handshake
                  && forall j :: 0 <= j < |c.passed| && c.passed[j].kind == Handshake ==> j == h)
    && (forall i :: 0 <= i < |c.calls| ==> (c.calls[i] == ConnectedCall <==> i == 0))
    && (c.calls != [] <==> c.state == Connected)
  }

  /** As many pings were passed as calls of heartbeat tasks were served, and these calls are a heartbeat apart. */
  ghost predicate PingsApart(c: Client)
    reads c
  {
    && Beats(c.passed) == |c.pings|
    && forall i :: 0 < i < |c.pings| ==> c.pings[i].tick - c.pings[i - 1].tick >= 3000
  }

  /** The application's set is exactly the connected clients of the registry, whose keys are their sockets. */
  ghost predicate SetAgrees(s: Server)
    reads s, s.clients.Values
  {
    && s.wbClients == (set fd | fd in s.clients && s.clients[fd].state == Connected :: s.clients[fd])
    && forall fd :: fd in s.clients ==> s.clients[fd].fd == fd
  }

  /** Every heartbeat task belongs to one live client that stores its id, no client has two, and erasing a client's
      stored task finds it, so that it never leaves the wheel locked. */
  ghost predicate TasksAgree(s: Server)
    reads s, s.clients.Values, s.wheel
  {
    && (forall id :: id in s.wheel.Abs().tasks ==>
         exists fd :: fd in s.clients && s.clients[fd].heartbeatId == id)
    && (forall fd :: fd in s.clients && s.clients[fd].heartbeatId != 0 ==>
         var id := s.clients[fd].heartbeatId;
         id in s.wheel.Abs().tasks && !Timers.EraseTask(s.wheel.Abs(), id).stuck)
    && (forall f, g :: f in s.clients && g in s.clients && s.clients[f].heartbeatId == s.clients[g].heartbeatId != 0 ==>
         f == g)
  }

  lemma OutputConserved(c: Client)
    requires c.Ok()
    ensures OutputKept(c)
  {
    hide Lifecycle;
    assert |c.wire + Concat(c.queue)| == |c.wire| + |Concat(c.queue)|;
  }

  lemma OneResponseFirst(c: Client)
    requires c.Ok()
    ensures ResponseFirst(c)
  {
    hide Conserved;
    forall i | 0 <= i < |c.passed| && c.passed[i].kind == Application
      ensures exists h :: 0 <= h < i && c.passed[h].kind == Handshake
               && forall j :: 0 <= j < |c.passed| && c.passed[j].kind == Handshake ==> j == h
    {
      assert c.passed[c.shake].kind == Handshake;
    }
  }

  lemma ClientPromises(s: Server, fd: int)
    requires s.Valid() && fd in s.clients
    ensures OutputKept(s.clients[fd]) && ResponseFirst(s.clients[fd]) && PingsApart(s.clients[fd])
  {
    hide Indexed, AllPlaced, Lifecycle, Conserved, OutputKept, ResponseFirst, CallsOf, Server.Steady;
    OutputConserved(s.clients[fd]);
    OneResponseFirst(s.clients[fd]);
    assert Recorded(s.clients[fd], s.wheel.log[..s.served]);
  }

  lemma ApplicationSetAgrees(s: Server)
    requires s.Valid()
    ensures SetAgrees(s)
  {
    hide Indexed, AllPlaced, Recorded, Server.Steady;
    hide Client.Ok;
    forall c | c in s.wbClients
      ensures c in set fd | fd in s.clients && s.clients[fd].state == Connected :: s.clients[fd]
    {
      assert s.Live(c);
    }
  }

  lemma HeartbeatsAgree(s: Server)
    requires s.Valid()
    ensures TasksAgree(s)
  {
    hide Indexed, AllPlaced, CallsOf, Recorded, Server.Steady;
    hide Client.Ok;
    EndlessMap(s.wheel.idMap, s.wheel.current);
    forall id | id in s.wheel.Abs().tasks ensures exists fd :: fd in s.clients && s.clients[fd].heartbeatId == id {
      assert s.Live(s.hooks[id]) && s.hooks[id].heartbeatId == id;
    }
    forall fd | fd in s.clients && s.clients[fd].heartbeatId != 0
      ensures Timers.Key(s.clients[fd].heartbeatId) == s.clients[fd].heartbeatId
    {
      assert s.clients[fd].heartbeatId in s.wheel.idMap;
      SmallKey(s.clients[fd].heartbeatId);
    }
  }

  /** Whatever events a new server sees, in whatever order. */
  method FromStart(heartbeat: bool, signedChar: bool, now: ClockMs, events: seq<Event>)
    returns (s: Server, ghost ops: seq<Timers.Op>)
    ensures fresh(s) && s.Settled() && s.heartbeat == heartbeat && s.signedChar == signedChar
    ensures Matches(s, AfterAll(NewModel(heartbeat, signedChar, now), events))
    ensures s.wheel.Abs() == Timers.Run(Timers.Start(now), ops)
    ensures Checks(ops) == Clocks(events) && forall i :: 0 <= i < |ops| ==> HeartbeatOp(ops[i])
    ensures SetAgrees(s) && TasksAgree(s)
    ensures forall fd :: fd in s.clients ==>
      OutputKept(s.clients[fd]) && ResponseFirst(s.clients[fd]) && PingsApart(s.clients[fd])
  {
    hide Server.Valid, TimeWheel.Abs, SetAgrees, TasksAgree, OutputKept, ResponseFirst, PingsApart, HeartbeatOp;
    s := new Server(heartbeat, signedChar, now);
    ops := Replay(s, events, NewModel(heartbeat, signedChar, now));
    ApplicationSetAgrees(s);
    HeartbeatsAgree(s);
    forall fd | fd in s.clients
      ensures OutputKept(s.clients[fd]) && ResponseFirst(s.clients[fd]) && PingsApart(s.clients[fd])
    {
      ClientPromises(s, fd);
    }
  }

}
