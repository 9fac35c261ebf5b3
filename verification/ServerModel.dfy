/** The server as a pure state machine over its events, without buffers, queues, sockets or a wheel of slots.

`ServerRuns` proves that the server refines it; here is what it promises over whole runs.
*/
module ServerModel {
  import opened Bytes
  import opened ByteNums
  import opened Frames
  import opened Clients
  import opened Servers
  import opened TimeWheels
  import Http
  import Timers
  import Utf8

  /** What the event loop can report. In a client's first state the bytes of `Arrived` are the printed `request` and
      `rest`. */
  datatype Event =
    | Accepted(fd: int)
    | HungUp(fd: int)
    | Arrived(
        fd: int, data: seq<byte>, acceptKey: seq<byte>, now: ClockMs, request: Http.Request, rest: seq<byte>)
    | Writable(fd: int)
    | Clock(now: ClockMs)

  /** What the server sends to a client. */
  datatype Sent =
    | SentResponse(acceptKey: seq<byte>)
    | SentGreeting
    | SentEcho(message: seq<byte>)
    | SentPing
    | SentPong
    | SentClose

  datatype Peer = Peer(
    state: ConnState, headers: Http.Headers, decodeBuffer: seq<byte>, waitClose: bool, heartbeatId: nat,
    calls: seq<Call>, sent: seq<Sent>)

  const NEW_PEER: Peer := Peer(Start, map[], [], false, 0, [], [])

  /** The flat timer holds the heartbeats. */
  datatype Model = Model(heartbeat: bool, signedChar: bool, peers: map<int, Peer>, timer: Timers.Flat)

  /** A batch of frames on which the walk stays in bounds. */
  predicate Readable(data: seq<byte>, signedChar: bool) {
    data != [] && (DataBatch(data) ==> StaysInside(data, signedChar))
  }

  /** The opening request is well-formed text, and an id is left for the heartbeat. */
  predicate Scannable(request: Http.Request, rest: seq<byte>, data: seq<byte>, heartbeat: bool, nextId: nat) {
    Http.WellFormed(request) && data == Http.Print(request) + rest && (heartbeat ==> nextId < 0x1_0000_0000)
  }

  // ---- The steps ----

  function Answer(reply: Reply): seq<Sent> {
    match reply
    case Silence => []
    case Pong => [SentPong]
    case Closing => [SentClose]
  }

  function Echoes(messages: seq<seq<byte>>): seq<Sent> {
    seq(|messages|, i requires 0 <= i < |messages| => SentEcho(messages[i]))
  }

  /** The opening request. */
  function Opening(m: Model, p: Peer, r: Http.Request, acceptKey: seq<byte>): Peer {
    var headers := Http.EmplaceAll(p.headers, Http.Entries(r));
    if !Http.Complete(r.headers) then p.(headers := headers)
    else if Http.Upgrades(headers) then
      p.(headers := headers, state := WaitShake, heartbeatId := if m.heartbeat then m.timer.nextId else 0,
         sent := p.sent + [SentResponse(acceptKey)])
    else p.(headers := headers, sent := p.sent + [SentClose])
  }

  /** A batch of frames. */
  ghost function Framed(m: Model, p: Peer, data: seq<byte>): Peer {
    var reply := ReplyTo(data, p.decodeBuffer, m.signedChar, p.waitClose);
    var p' := p.(waitClose := p.waitClose || |data| < 2, heartbeatId := if reply == Closing then 0 else p.heartbeatId);
    if p.state.Connected? then
      var (buffer, messages) := Receive(data, p.decodeBuffer, m.signedChar);
      p'.(decodeBuffer := buffer, calls := p.calls + CallsFor(messages),
          sent := p.sent + if messages == [] then Answer(reply) else Echoes(messages))
    else
      p'.(decodeBuffer := Absorb(data, p.decodeBuffer, m.signedChar).0, sent := p.sent + Answer(reply))
  }

  ghost function Arrive(
    m: Model, fd: int, data: seq<byte>, acceptKey: seq<byte>, now: ClockMs, r: Http.Request, rest: seq<byte>): Model
    requires fd in m.peers
  {
    var p := m.peers[fd];
    if p.state.Start? then
      if !Scannable(r, rest, data, m.heartbeat, m.timer.nextId) then m
      else
        var p' := Opening(m, p, r, acceptKey);
        m.(peers := m.peers[fd := p'],
           timer := if m.heartbeat && p'.state.WaitShake? then WithHeartbeat(m.timer, now) else m.timer)
    else if !Readable(data, m.signedChar) then m
    else
      var reply := ReplyTo(data, p.decodeBuffer, m.signedChar, p.waitClose);
      m.(peers := if Closes(data, p.waitClose) then m.peers - {fd} else m.peers[fd := Framed(m, p, data)],
         timer := Dropped(m.timer, if reply == Closing then p.heartbeatId else 0))
  }

  /** The greeting that every connected client gets when `fd` becomes connected. */
  function Greeted(p: Peer): Peer {
    if p.state.Connected? then p.(sent := p.sent + [SentGreeting]) else p
  }

  function Connect(m: Model, fd: int): Model
    requires fd in m.peers
  {
    var peers := m.peers[fd := m.peers[fd].(state := Connected, calls := [ConnectedCall])];
    m.(peers := map f | f in peers :: Greeted(peers[f]))
  }

  function PingsSent(n: nat): seq<Sent> {
    seq(n, _ => SentPing)
  }

  /** A ping for each new callback of the client's heartbeat task. */
  function Pinged(p: Peer, before: Timers.Flat, after: Timers.Flat): Peer {
    var id := p.heartbeatId;
    if id in before.fired && id in after.fired && |before.fired[id]| <= |after.fired[id]| then
      p.(sent := p.sent + PingsSent(|after.fired[id]| - |before.fired[id]|))
    else p
  }

  function Check(m: Model, now: int): Model {
    var timer := Timers.CheckTicks(m.timer, now);
    m.(peers := map fd | fd in m.peers :: Pinged(m.peers[fd], m.timer, timer), timer := timer)
  }

  /** One event. One that cannot come, or on which the source reads out of bounds, changes nothing. */
  ghost function After(m: Model, e: Event): Model {
    match e
    case Accepted(fd) => if fd in m.peers then m else m.(peers := m.peers[fd := NEW_PEER])
    case HungUp(fd) =>
      if fd !in m.peers then m
      else m.(peers := m.peers - {fd}, timer := Dropped(m.timer, m.peers[fd].heartbeatId))
    case Arrived(fd, data, acceptKey, now, r, rest) =>
      if data == [] || fd !in m.peers then m else Arrive(m, fd, data, acceptKey, now, r, rest)
    case Writable(fd) => if fd in m.peers && m.peers[fd].state.WaitShake? then Connect(m, fd) else m
    case Clock(now) => Check(m, now)
  }

  ghost function AfterAll(m: Model, events: seq<Event>): Model
    decreases |events|
  {
    if events == [] then m else AfterAll(After(m, events[0]), events[1..])
  }

  function NewModel(heartbeat: bool, signedChar: bool, now: int): Model {
    Model(heartbeat, signedChar, map[], Timers.Start(now))
  }

  // ---- What one client hears over a run ----

  /** The peer or the network ends the connection of `fd`. */
  predicate Ends(e: Event, fd: int) {
    match e
    case HungUp(fd') => fd' == fd
    case Arrived(fd', data, _, _, _, _) =>
      fd' == fd && |data| >= 2 && Opcode(Header(data[0], data[1])) == CLOSE
    case _ => false
  }

  ghost predicate Spared(events: seq<Event>, fd: int) {
    forall i :: 0 <= i < |events| ==> !Ends(events[i], fd)
  }

  function BatchOf(e: Event, fd: int): seq<seq<byte>> {
    if e.Arrived? && e.fd == fd then [e.data] else []
  }

  /** The batches that the events bring for `fd`. */
  function BatchesFor(events: seq<Event>, fd: int): seq<seq<byte>> {
    if events == [] then [] else BatchOf(events[0], fd) + BatchesFor(events[1..], fd)
  }

  function ReadableOnly(batches: seq<seq<byte>>, signedChar: bool): seq<seq<byte>> {
    if batches == [] then []
    else (if Readable(batches[0], signedChar) then [batches[0]] else []) + ReadableOnly(batches[1..], signedChar)
  }

  /** From `acc` and `calls`, the batches lead to `acc'` in the decode buffer and to the calls `calls'`. */
  ghost predicate Hands(
    batches: seq<seq<byte>>, acc: seq<byte>, calls: seq<Call>, acc': seq<byte>, calls': seq<Call>, signedChar: bool) {
    var (buffer, messages) := ReceiveAll(ReadableOnly(batches, signedChar), acc, signedChar);
    acc' == buffer && calls' == calls + CallsFor(messages)
  }

  lemma HandsNothing(acc: seq<byte>, calls: seq<Call>, signedChar: bool)
    ensures Hands([], acc, calls, acc, calls, signedChar)
  {
    assert CallsFor([]) == [];
  }

  lemma CallsForConcat(a: seq<seq<byte>>, b: seq<seq<byte>>)
    ensures CallsFor(a + b) == CallsFor(a) + CallsFor(b)
  {
  }

  lemma HandsMore(
    data: seq<byte>, rest: seq<seq<byte>>, acc: seq<byte>, calls: seq<Call>, acc': seq<byte>, calls': seq<Call>,
    signedChar: bool)
    requires var (buffer, messages) :=
        if Readable(data, signedChar) then Receive(data, acc, signedChar) else (acc, []);
      Hands(rest, buffer, calls + CallsFor(messages), acc', calls', signedChar)
    ensures Hands([data] + rest, acc, calls, acc', calls', signedChar)
  {
    hide Readable, Receive;
    var all, tail := ReadableOnly([data] + rest, signedChar), ReadableOnly(rest, signedChar);
    assert ([data] + rest)[1..] == rest;
    if Readable(data, signedChar) {
      var (buffer, messages) := Receive(data, acc, signedChar);
      assert all == [data] + tail && all[1..] == tail;
      CallsForConcat(messages, ReceiveAll(tail, buffer, signedChar).1);
    } else {
      assert all == tail && calls + CallsFor([]) == calls;
    }
  }

  /** One event, for a connected client whose connection it does not end. */
  lemma EventHeard(m: Model, e: Event, fd: int)
    requires fd in m.peers && m.peers[fd].state.Connected? && !Ends(e, fd)
    ensures fd in After(m, e).peers
    ensures var p, p' := m.peers[fd], After(m, e).peers[fd];
      && p'.state.Connected?
      && if e.Arrived? && e.fd == fd && Readable(e.data, m.signedChar) then
           var (buffer, messages) := Receive(e.data, p.decodeBuffer, m.signedChar);
           p'.decodeBuffer == buffer && p'.calls == p.calls + CallsFor(messages)
         else p'.decodeBuffer == p.decodeBuffer && p'.calls == p.calls
  {
    hide Receive, Timers.CheckTicks, StaysInside, DataBatch, CallsFor, ReplyTo, Dropped, WithHeartbeat, Scannable;
    hide Http.Upgrades, Http.Complete, Http.EmplaceAll, Http.Entries, Absorb;
  }

  /** Over any run in which the connection of a connected client is not ended, the client stays connected and is handed
      the messages of its own batches, whatever happens to other clients in between. */
  lemma {:induction false} RunHeard(m: Model, events: seq<Event>, fd: int)
    requires fd in m.peers && m.peers[fd].state.Connected? && Spared(events, fd)
    ensures fd in AfterAll(m, events).peers
    ensures var p, p' := m.peers[fd], AfterAll(m, events).peers[fd];
      && p'.state.Connected?
      && Hands(BatchesFor(events, fd), p.decodeBuffer, p.calls, p'.decodeBuffer, p'.calls, m.signedChar)
    decreases |events|
  {
    hide After, Hands, Receive, Readable, Ends, CallsFor;
    var p := m.peers[fd];
    if events == [] {
      HandsNothing(p.decodeBuffer, p.calls, m.signedChar);
    } else {
      var e, m1, rest := events[0], After(m, events[0]), events[1..];
      EventHeard(m, e, fd);
      SameFlags(m, e);
      assert Spared(rest, fd);
      RunHeard(m1, rest, fd);
      var p' := AfterAll(m1, rest).peers[fd];
      if e.Arrived? && e.fd == fd {
        assert p.calls + CallsFor([]) == p.calls by {
          CallsForNone();
        }
        HandsMore(e.data, BatchesFor(rest, fd), p.decodeBuffer, p.calls, p'.decodeBuffer, p'.calls, m.signedChar);
      } else {
        assert [] + BatchesFor(rest, fd) == BatchesFor(rest, fd);
      }
    }
  }

  lemma CallsForNone()
    ensures CallsFor([]) == []
  {
  }

  lemma SameFlags(m: Model, e: Event)
    ensures After(m, e).heartbeat == m.heartbeat && After(m, e).signedChar == m.signedChar
  {
    hide Timers.CheckTicks, Opening, Framed, Readable, Scannable, ReplyTo;
  }

  // ---- Messages over a run ----

  lemma MessageReadable(fs: seq<Frame>, signedChar: bool)
    requires WholeMessage(fs, signedChar)
    ensures Readable(EncodeFrames(fs), signedChar)
  {
    hide Decoded, StaysInside, HeaderOf, EncodeFrames, EncodeFrame, Utf8.Text, AllClean, WellFormed, Payloads;
    FramesStart(fs);
    Reassembly(fs, [], signedChar);
    DecodedInside(EncodeFrames(fs), [], signedChar);
  }

  lemma BeatReadable(f: Frame, signedChar: bool)
    requires Sendable(Beat(f), signedChar)
    ensures Readable(EncodeFrame(f), signedChar)
  {
    hide StaysInside, HeaderOf, Opcode;
    FirstHeader(f);
  }

  lemma {:induction false} WiresReadable(bs: seq<Batch>, signedChar: bool)
    requires forall i :: 0 <= i < |bs| ==> Sendable(bs[i], signedChar)
    ensures forall i :: 0 <= i < |WireAll(bs, signedChar)| ==> Readable(WireAll(bs, signedChar)[i], signedChar)
    decreases |bs|
  {
    hide Readable, WholeMessage, EncodeFrames, EncodeFrame;
    if bs != [] {
      assert Sendable(bs[0], signedChar);
      match bs[0] {
        case Message(fs) => MessageReadable(fs, signedChar);
        case Beat(f) => BeatReadable(f, signedChar);
      }
      WiresReadable(bs[1..], signedChar);
      assert WireAll(bs, signedChar) == [Wire(bs[0], signedChar)] + WireAll(bs[1..], signedChar);
    }
  }

  lemma {:induction false} AllReadable(batches: seq<seq<byte>>, signedChar: bool)
    requires forall i :: 0 <= i < |batches| ==> Readable(batches[i], signedChar)
    ensures ReadableOnly(batches, signedChar) == batches
    decreases |batches|
  {
    hide Readable;
    if batches != [] {
      AllReadable(batches[1..], signedChar);
    }
  }

  /** Message isolation over runs: a connected client with an empty decode buffer whose connection is not ended, and
      whose peer sends whole messages, one per batch and mixed with pings and pongs, has exactly those messages handed
      to the application, whatever else happens to it and to other clients in between. */
  lemma RunIsolated(m: Model, events: seq<Event>, fd: int, bs: seq<Batch>)
    requires fd in m.peers && m.peers[fd].state.Connected? && m.peers[fd].decodeBuffer == [] && Spared(events, fd)
    requires forall i :: 0 <= i < |bs| ==> Sendable(bs[i], m.signedChar)
    requires BatchesFor(events, fd) == WireAll(bs, m.signedChar)
    ensures fd in AfterAll(m, events).peers
    ensures var p' := AfterAll(m, events).peers[fd];
      p'.state.Connected? && p'.decodeBuffer == [] && p'.calls == m.peers[fd].calls + CallsFor(Messages(bs))
  {
    hide Sendable, Readable, WireAll, ReceiveAll, AfterAll, CallsFor, BatchesFor, ReadableOnly;
    WiresReadable(bs, m.signedChar);
    AllReadable(WireAll(bs, m.signedChar), m.signedChar);
    MessagesIsolated(bs, m.signedChar);
    RunHeard(m, events, fd);
  }

  lemma MessageCloses(fs: seq<Frame>, waitClose: bool, signedChar: bool)
    requires WholeMessage(fs, signedChar)
    ensures !Closes(EncodeFrames(fs), waitClose)
  {
    hide EncodeFrames, HeaderOf, WellFormed, Opcode;
    FramesStart(fs);
    FirstHeader(fs[0]);
    DataIsNoControl(fs[0].bits & 0x0F);
  }

  /** What a whole message does in each state past the first. */
  lemma MessageTaken(m: Model, fd: int, fs: seq<Frame>, key: seq<byte>, now: ClockMs, r: Http.Request)
    requires fd in m.peers && !m.peers[fd].state.Start? && WholeMessage(fs, m.signedChar)
    ensures var e := Arrived(fd, EncodeFrames(fs), key, now, r, []);
      fd in After(m, e).peers && After(m, e).signedChar == m.signedChar
    ensures var p, p' := m.peers[fd], After(m, Arrived(fd, EncodeFrames(fs), key, now, r, [])).peers[fd];
      var all := p.decodeBuffer + Payloads(fs);
      && p'.state == p.state
      && (p.state.WaitShake? ==> p'.decodeBuffer == all && p'.calls == p.calls)
      && (p.state.Connected? && !LoneText(fs) ==> p'.decodeBuffer == [] && p'.calls == p.calls + [ReceivedCall(all)])
  {
    hide Receive, Absorb, Readable, ReplyTo, Closes, Utf8.Text, EncodeFrames, Payloads, Dropped, AllClean;
    var p := m.peers[fd];
    FramesStart(fs);
    MessageReadable(fs, m.signedChar);
    MessageCloses(fs, p.waitClose, m.signedChar);
    AbsorbMessage(fs, p.decodeBuffer, m.signedChar);
    ReceiveMessage(fs, p.decodeBuffer, m.signedChar);
    assert CallsFor([p.decodeBuffer + Payloads(fs)]) == [ReceivedCall(p.decodeBuffer + Payloads(fs))];
  }

  /** A whole message that arrives while the client still waits for its 101 response to be written is not handed on;
      it is put in front of the first message after that. */
  lemma EarlyMessageLeaks(
    m: Model, fd: int, early: seq<Frame>, next: seq<Frame>, key: seq<byte>, now: ClockMs, r: Http.Request)
    requires fd in m.peers && m.peers[fd].state.WaitShake? && m.peers[fd].decodeBuffer == []
    requires WholeMessage(early, m.signedChar)
    ensures WholeMessage(next, m.signedChar) && !LoneText(next) ==>
      var e, e' :=
        Arrived(fd, EncodeFrames(early), key, now, r, []), Arrived(fd, EncodeFrames(next), key, now, r, []);
      var m' := AfterAll(m, [e, Writable(fd), e']);
      && fd in m'.peers
      && m'.peers[fd].calls == [ConnectedCall, ReceivedCall(Payloads(early) + Payloads(next))]
  {
    hide Arrive, EncodeFrames, Payloads, AllClean;
    if !WholeMessage(next, m.signedChar) {
      return;
    }
    var e, e' := Arrived(fd, EncodeFrames(early), key, now, r, []), Arrived(fd, EncodeFrames(next), key, now, r, []);
    var events := [e, Writable(fd), e'];
    assert [] + Payloads(early) == Payloads(early);
    var m1 := After(m, e);
    MessageTaken(m, fd, early, key, now, r);
    var m2 := After(m1, Writable(fd));
    MessageTaken(m2, fd, next, key, now, r);
    var m3 := After(m2, e');
    assert events[1..] == [Writable(fd), e'] && events[1..][1..] == [e'] && events[1..][1..][1..] == [];
    assert AfterAll(m, events) == AfterAll(m1, events[1..]) == AfterAll(m2, [e']) == AfterAll(m3, []) == m3;
  }
}
