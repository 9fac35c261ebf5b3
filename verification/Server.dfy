/** The WebSocket server with its application: registry of clients, events of the loop, heartbeat tasks and the set of
connected clients the application keeps.

The events are `Accept`, `HangUp`, `OnData`, `OnWritable` and `OnHeartbeats`, in any order; the other methods are their
parts.
*/
module Servers {
  import opened Bytes
  import opened ByteNums
  import opened Frames
  import opened Clients
  import opened TimeWheels
  import Http
  import Timers
  import TimerRuns
  import Utf8

  const HEARTBEAT_MS: SpanMs := 3000

  const HELLO: seq<byte> := Http.Ascii("hello world")

  lemma HelloFits()
    ensures |HELLO| == 11 && WellFormed(TextFrame(HELLO))
  {
    TextBits();
  }

  function PingFrame(): seq<byte> {
    [0x89, 0x00]
  }

  function PongFrame(): seq<byte> {
    [0x8A, 0x00]
  }

  /** Every three seconds, without end. */
  predicate IsHeartbeat(n: TimeNode) {
    n.count == 0xFFFF_FFFF && n.interval == 3000
  }

  /** What the server itself answers to a batch of frames. */
  datatype Reply = Silence | Pong | Closing

  ghost function ReplyTo(data: seq<byte>, acc: seq<byte>, signedChar: bool, waitClose: bool): Reply {
    if |data| < 2 then Closing
    else
      var op := Opcode(Header(data[0], data[1]));
      if op == CLOSE then (if waitClose then Silence else Closing)
      else if op == PING then Pong
      else if IsData(op) && Decoded(data, acc, signedChar).Failure? then Closing
      else Silence
  }

  /** The bytes of a close frame are left open. */
  ghost predicate Answered(before: seq<Item>, after: seq<Item>, reply: Reply) {
    match reply
    case Silence => after == before
    case Pong => after == before + [Item(Control, PongFrame())]
    case Closing => exists data :: after == before + [Item(Control, data)]
  }

  ghost predicate OneControl(before: seq<Item>, after: seq<Item>) {
    exists data :: after == before + [Item(Control, data)]
  }

  /** The answer to a batch that is too short for a header or starts with a control frame, by the opcode in the low four
      bits of its first byte: a close frame is answered with one, a ping with an empty pong, a pong with nothing. */
  ghost predicate ControlAnswered(data: seq<byte>, waitClose: bool, before: seq<Item>, after: seq<Item>) {
    && (|data| < 2 ==> OneControl(before, after))
    && (|data| >= 2 && data[0] & 0x0F == 0x8 ==> if waitClose then after == before else OneControl(before, after))
    && (|data| >= 2 && data[0] & 0x0F == 0x9 ==> after == before + [Item(Control, [0x8A, 0x00])])
    && (|data| >= 2 && data[0] & 0x0F == 0xA ==> after == before)
  }

  /** The message came back as one application message: a text frame in the shortest form. */
  ghost predicate Echoed(before: seq<Item>, after: seq<Item>, message: seq<byte>) {
    && (exists frame :: after == before + [Item(Application, frame)])
    && (|message| < TWO_64 / 2 ==>
          WellFormed(TextFrame(message)) && after == before + [Item(Application, EncodeFrame(TextFrame(message)))])
  }

  class Server {
    const heartbeat: bool
    const signedChar: bool
    const wheel: TimeWheel
    var clients: map<int, Client>
    /** The client that the callback of each pending task has captured. */
    var hooks: map<nat, Client>
    /** `wb_clients` of the application. */
    var wbClients: set<Client>
    /** How many of the wheel's calls were served; between events, all of them. */
    ghost var served: nat

    ghost predicate Live(c: Client)
      reads this`clients
    {
      c.fd in clients && clients[c.fd] == c
    }

    /** The client that socket `fd` belongs to. */
    ghost function At(fd: int): set<Client>
      reads this`clients
    {
      if fd in clients then {clients[fd]} else {}
    }

    ghost predicate Registry()
      reads this, clients.Values
    {
      && (forall fd :: fd in clients ==> clients[fd].fd == fd && clients[fd].Ok())
      && (forall fd :: fd in clients ==> (clients[fd] in wbClients <==> clients[fd].state == Connected))
      && (forall c :: c in wbClients ==> Live(c))
    }

    /** Every pending task is the heartbeat of a live client that stores its id, and every stored id is pending. */
    ghost predicate Heartbeats()
      reads this, clients.Values, wheel
    {
      && hooks.Keys == wheel.idMap.Keys
      && (forall id :: id in hooks ==>
            Live(hooks[id]) && hooks[id].heartbeatId == id && IsHeartbeat(wheel.idMap[id]))
      && (forall fd :: fd in clients && clients[fd].heartbeatId != 0 ==>
            clients[fd].heartbeatId in hooks && hooks[clients[fd].heartbeatId] == clients[fd])
      && (!heartbeat ==> hooks == map[])
    }

    /** The wheel is as a run leaves it, and keeps the calls of each task a heartbeat apart. */
    ghost predicate Steady()
      reads this`served, wheel
    {
      && TimerRuns.Sound(wheel.Abs()) && TimerRuns.Paced(wheel.Abs(), HEARTBEAT_MS)
      && served <= |wheel.log|
    }

    ghost predicate Records()
      reads this, clients.Values, wheel
    {
      && served <= |wheel.log|
      && forall fd :: fd in clients ==> Recorded(clients[fd], wheel.log[..served])
    }

    ghost predicate Valid()
      reads this, clients.Values, wheel, wheel.tv
    {
      && wheel.Valid() && !wheel.locked && wheel.nextId <= 0x1_0000_0000
      && Registry() && Heartbeats() && Steady() && Records()
    }

    /** What holds between events. */
    ghost predicate Settled()
      reads this, clients.Values, wheel, wheel.tv
    {
      Valid() && served == |wheel.log|
    }

    constructor (heartbeat: bool, signedChar: bool, now: ClockMs)
      ensures Settled() && clients == map[] && this.heartbeat == heartbeat && this.signedChar == signedChar
      ensures fresh(wheel) && fresh(wheel.tv) && wheel.Abs() == Timers.Start(now)
    {
      this.heartbeat, this.signedChar := heartbeat, signedChar;
      wheel := new TimeWheel(now);
      clients, hooks, wbClients, served := map[], map[], {}, 0;
      new;
      EmptyTasks(wheel);
    }

    /** Changes of one client that keep its own invariant, its state, its task and its pings keep the server's. */
    twostate lemma Touched(c: Client)
      requires old(Valid()) && unchanged(this) && unchanged(wheel) && unchanged(wheel.tv)
      requires forall fd :: fd in clients && clients[fd] != c ==> unchanged(clients[fd])
      requires c.Ok() && (c.state == Connected <==> old(c.state) == Connected) && c.heartbeatId == old(c.heartbeatId)
      requires c.pings == old(c.pings)
      ensures Valid()
    {
      hide Indexed, AllPlaced, Lifecycle, Conserved, CallsOf, TimerRuns.Sound, TimerRuns.Paced, TimerRuns.Apart;
      assert wheel.Valid();
      RecordsKept();
    }

    /** Forgetting clients or their tasks keeps the records of the others. */
    twostate lemma RecordsKept()
      requires old(Records()) && wheel.log == old(wheel.log) && served == old(served)
      requires forall fd :: fd in clients ==>
        && fd in old(clients) && clients[fd] == old(clients)[fd] && clients[fd].pings == old(clients[fd].pings)
        && (clients[fd].heartbeatId == 0 || clients[fd].heartbeatId == old(clients[fd].heartbeatId))
      ensures Records()
    {
      hide CallsOf, TimerRuns.Apart;
      forall fd | fd in clients ensures Recorded(clients[fd], wheel.log[..served]) {
        assert old(Recorded(clients[fd], wheel.log[..served]));
      }
    }

    /** Erases the heartbeat task of `c`. */
    method EraseHeartbeat(c: Client)
      requires Valid() && Live(c) && c.heartbeatId != 0
      modifies this`hooks, wheel, wheel.tv
      ensures wheel.Valid() && !wheel.locked && Steady()
      ensures wheel.Abs() == Timers.EraseTask(old(wheel.Abs()), c.heartbeatId) && wheel.log == old(wheel.log)
      ensures wheel.nextId == old(wheel.nextId)
      ensures hooks == old(hooks) - {c.heartbeatId} && wheel.idMap == old(wheel.idMap) - {c.heartbeatId}
    {
      hide Indexed, AllPlaced, TasksOf, FiredOf, Timers.EraseTask, Timers.Key, Lifecycle, Conserved;
      hide TimerRuns.Sound, TimerRuns.Paced, Recorded;
      EraseSteady(wheel.Abs(), c.heartbeatId);
      var found := wheel.EraseTask(c.heartbeatId);
      SmallKey(c.heartbeatId);
      hooks := hooks - {c.heartbeatId};
    }

    /** A client whose task was erased and forgotten. */
    twostate lemma Stopped(c: Client)
      requires old(Valid()) && old(Live(c)) && unchanged(`clients) && unchanged(`wbClients) && unchanged(`served)
      requires forall fd :: fd in clients && clients[fd] != c ==> unchanged(clients[fd])
      requires c.Ok() && c.state == old(c.state) && c.heartbeatId == 0 && c.pings == old(c.pings)
      requires wheel.Valid() && !wheel.locked && wheel.nextId == old(wheel.nextId) && wheel.log == old(wheel.log)
      requires Steady()
      requires hooks == old(hooks) - {old(c.heartbeatId)} && wheel.idMap == old(wheel.idMap) - {old(c.heartbeatId)}
      ensures Valid()
    {
      hide Indexed, AllPlaced, Recorded, Steady;
      hide Client.Ok;
      RecordsKept();
      assert Registry();
      StoppedTask(c);
    }

    twostate lemma StoppedTask(c: Client)
      requires old(Registry()) && old(Heartbeats()) && old(Live(c)) && unchanged(`clients)
      requires forall fd :: fd in clients && clients[fd] != c ==> unchanged(clients[fd])
      requires c.heartbeatId == 0
      requires hooks == old(hooks) - {old(c.heartbeatId)} && wheel.idMap == old(wheel.idMap) - {old(c.heartbeatId)}
      ensures Heartbeats()
    {
      hide Client.Ok;
      forall id | id in hooks ensures Live(hooks[id]) && hooks[id].heartbeatId == id {
        assert id in old(hooks) && old(Live(hooks[id]));
      }
    }

    /** A client that left the registry along with its task. */
    twostate lemma Removed(c: Client)
      requires old(Valid()) && old(Live(c)) && unchanged(c) && unchanged(`served)
      requires clients == old(clients) - {c.fd} && wbClients == old(wbClients) - {c}
      requires forall fd :: fd in clients ==> unchanged(clients[fd])
      requires wheel.Valid() && !wheel.locked && wheel.nextId == old(wheel.nextId) && wheel.log == old(wheel.log)
      requires Steady()
      requires hooks == old(hooks) - {c.heartbeatId} && wheel.idMap == old(wheel.idMap) - {c.heartbeatId}
      ensures Valid()
    {
      hide Indexed, AllPlaced, Recorded, Steady;
      hide Client.Ok;
      forall d | d in wbClients ensures Live(d) {
        assert old(Live(d));
      }
      assert Registry();
      RemovedTask(c);
      RecordsKept();
    }

    twostate lemma RemovedTask(c: Client)
      requires old(Registry()) && old(Heartbeats()) && old(Live(c)) && unchanged(c) && clients == old(clients) - {c.fd}
      requires forall fd :: fd in clients ==> unchanged(clients[fd])
      requires hooks == old(hooks) - {c.heartbeatId} && wheel.idMap == old(wheel.idMap) - {c.heartbeatId}
      ensures Heartbeats()
    {
      hide Client.Ok;
      forall id | id in hooks ensures Live(hooks[id]) && hooks[id].heartbeatId == id {
        assert old(Live(hooks[id])) && id in old(hooks) && hooks[id] == old(hooks)[id];
      }
    }

    lemma LiveFacts(c: Client)
      requires Valid() && Live(c)
      ensures c.Ok() && 0 !in hooks && 0 !in wheel.idMap
      ensures c.heartbeatId != 0 ==> c.heartbeatId in hooks
    {
      hide Indexed, AllPlaced, Recorded, TimerRuns.Sound, TimerRuns.Paced;
    }

    lemma WheelFacts()
      requires Valid()
      ensures wheel.Valid() && !wheel.locked && Steady()
    {
    }

    /** Queues a close frame, whose bytes are left open. */
    method SendClose(c: Client)
      requires Valid() && Live(c)
      modifies c`queue, c`armed, c`passed
      ensures Valid() && exists data :: c.passed == old(c.passed) + [Item(Control, data)]
    {
      hide Valid, Lifecycle, Conserved, Beats;
      LiveFacts(c);
      assert |[0x88 as byte]| >= 1;
      var frame: seq<byte> :| |frame| >= 1;
      c.SendControl(frame);
      Touched(c);
    }

    /** Queues a close frame and stops the heartbeat; the connection itself stays. */
    method CloseWebsocketClient(c: Client)
      requires Valid() && Live(c)
      modifies this`hooks, c`queue, c`armed, c`passed, c`heartbeatId, wheel, wheel.tv
      ensures Valid() && c.heartbeatId == 0
      ensures wheel.Abs() == Dropped(old(wheel.Abs()), old(c.heartbeatId)) && wheel.log == old(wheel.log)
      ensures Answered(old(c.passed), c.passed, Closing)
    {
      hide Indexed, AllPlaced, TasksOf, FiredOf, Lifecycle, Conserved, Registry, Heartbeats, Steady, Records;
      hide Timers.EraseTask;
      SendClose(c);
      if heartbeat && c.heartbeatId != 0 {
        StopHeartbeat(c);
      } else if !heartbeat {
        NoHeartbeat(c);
      }
    }

    method StopHeartbeat(c: Client)
      requires Valid() && Live(c) && c.heartbeatId != 0
      modifies this`hooks, c`heartbeatId, wheel, wheel.tv
      ensures Valid() && c.heartbeatId == 0
      ensures wheel.Abs() == Timers.EraseTask(old(wheel.Abs()), old(c.heartbeatId)) && wheel.log == old(wheel.log)
    {
      hide Valid, Steady, TimeWheel.Valid, TimeWheel.Abs, Timers.EraseTask;
      LiveFacts(c);
      EraseHeartbeat(c);
      c.heartbeatId := 0;
      Stopped(c);
    }

    lemma NoHeartbeat(c: Client)
      requires Valid() && Live(c) && !heartbeat
      ensures c.heartbeatId == 0
    {
    }

    /** Takes the client out of the registry, tells the application, and deletes it. */
    method CloseClient(c: Client)
      requires Valid() && Live(c)
      modifies this`clients, this`wbClients, this`hooks, wheel, wheel.tv
      ensures Valid()
      ensures wheel.Abs() == Dropped(old(wheel.Abs()), c.heartbeatId) && wheel.log == old(wheel.log)
      ensures clients == old(clients) - {c.fd} && wbClients == old(wbClients) - {c}
      ensures hooks == old(hooks) - {c.heartbeatId}
    {
      hide Valid, Client.Ok, Steady, TimeWheel.Valid, TimeWheel.Abs, Timers.EraseTask;
      LiveFacts(c);
      WheelFacts();
      if c.heartbeatId != 0 {
        EraseHeartbeat(c);
      }
      clients := clients - {c.fd};
      wbClients := wbClients - {c};
      Removed(c);
    }

    /** `decode_proto_data` for a client whose handshake was accepted. */
    method DecodeFrames(c: Client, data: seq<byte>) returns (deliver: bool)
      requires Valid() && Live(c) && !c.state.Start? && data != []
      requires DataBatch(data) ==> StaysInside(data, signedChar)
      modifies this`clients, this`wbClients, this`hooks, c`queue, c`armed, c`passed, c`heartbeatId, c`decodeBuffer,
        c`wbHeader, c`isStreaming, c`recvBuffer, c`waitClose, wheel, wheel.tv
      ensures Valid() && wheel.log == old(wheel.log)
      ensures c.state == old(c.state) && c.calls == old(c.calls) && c.waitClose == (old(c.waitClose) || |data| < 2)
      ensures var reply := ReplyTo(data, old(c.decodeBuffer), signedChar, old(c.waitClose));
        && Answered(old(c.passed), c.passed, reply)
        && c.heartbeatId == (if reply == Closing then 0 else old(c.heartbeatId))
        && wheel.Abs() == Dropped(old(wheel.Abs()), if reply == Closing then old(c.heartbeatId) else 0)
      ensures clients == if Closes(data, old(c.waitClose)) then old(clients) - {c.fd} else old(clients)
      ensures ControlAnswered(data, old(c.waitClose), old(c.passed), c.passed)
      ensures (c.decodeBuffer, deliver) == Absorb(data, old(c.decodeBuffer), signedChar)
    {
      hide Indexed, AllPlaced, TasksOf, FiredOf, Lifecycle, Conserved, Decoded, Opcode, Fin, Absorb, IsControl;
      hide Valid, ReplyTo, Answered, IsData, StaysInside, TimeWheel.Abs;
      AbsorbNothing(data, c.decodeBuffer, signedChar);
      ReplyCases(data, c.decodeBuffer, signedChar, c.waitClose);
      ghost var reply := ReplyTo(data, c.decodeBuffer, signedChar, c.waitClose);
      StoreBatch(c, data);
      deliver := false;
      if |data| < 2 {
        RejectShort(c);
      } else if IsControl(Opcode(c.wbHeader)) {
        HandleControl(c, Opcode(c.wbHeader));
      } else {
        deliver := HandleData(c);
      }
      AnswerBytes(data, old(c.decodeBuffer), signedChar, old(c.waitClose), old(c.passed), c.passed);
    }

    /** Keeps the batch in the receive buffer, and its header. */
    method StoreBatch(c: Client, data: seq<byte>)
      requires Valid() && Live(c)
      modifies c`recvBuffer, c`wbHeader
      ensures Valid() && fresh(c.recvBuffer) && c.recvBuffer[..] == data
      ensures |data| >= 2 ==> c.wbHeader == Header(data[0], data[1])
    {
      hide Valid, Lifecycle, Conserved, Beats;
      LiveFacts(c);
      StoreBytes(c, data);
      if |data| >= 2 {
        c.wbHeader := Header(data[0], data[1]);
      }
      Touched(c);
    }

    method StoreBytes(c: Client, data: seq<byte>)
      requires Valid() && Live(c)
      modifies c`recvBuffer
      ensures Valid() && fresh(c.recvBuffer) && c.recvBuffer[..] == data
    {
      hide Valid, Lifecycle, Conserved, Beats;
      LiveFacts(c);
      c.recvBuffer := new byte[|data|](i requires 0 <= i < |data| => data[i]);
      Touched(c);
    }

    method StoreHeaders(c: Client, headers: Http.Headers)
      requires Valid() && Live(c)
      modifies c`headers
      ensures Valid() && c.headers == headers
    {
      hide Valid, Lifecycle, Conserved, Beats;
      LiveFacts(c);
      c.headers := headers;
      Touched(c);
    }

    /** A batch too short for a header. */
    method RejectShort(c: Client)
      requires Valid() && Live(c)
      modifies this`hooks, c`queue, c`armed, c`passed, c`heartbeatId, c`waitClose, wheel, wheel.tv
      ensures Valid() && c.waitClose && c.heartbeatId == 0
      ensures wheel.Abs() == Dropped(old(wheel.Abs()), old(c.heartbeatId)) && wheel.log == old(wheel.log)
      ensures Answered(old(c.passed), c.passed, Closing)
    {
      hide Indexed, AllPlaced, Lifecycle, Conserved;
      LiveFacts(c);
      hide Valid, Answered;
      c.waitClose := true;
      Touched(c);
      CloseWebsocketClient(c);
    }

    method HandleControl(c: Client, op: byte)
      requires Valid() && Live(c) && IsControl(op)
      modifies this`clients, this`wbClients, this`hooks, c`queue, c`armed, c`passed, c`heartbeatId, wheel, wheel.tv
      ensures Valid() && wheel.log == old(wheel.log)
      ensures c.state == old(c.state) && c.calls == old(c.calls) && c.waitClose == old(c.waitClose)
      ensures clients == if op == CLOSE && !old(c.waitClose) then old(clients) - {c.fd} else old(clients)
      ensures c.decodeBuffer == old(c.decodeBuffer)
      ensures var reply := if op == PING then Pong else if op == CLOSE && !old(c.waitClose) then Closing else Silence;
        && Answered(old(c.passed), c.passed, reply)
        && c.heartbeatId == (if reply == Closing then 0 else old(c.heartbeatId))
        && wheel.Abs() == Dropped(old(wheel.Abs()), if reply == Closing then old(c.heartbeatId) else 0)
    {
      hide Valid, Lifecycle, Conserved, Beats, Timers.EraseTask;
      LiveFacts(c);
      if op == CLOSE {
        if !c.waitClose {
          CloseWebsocketClient(c);
          CloseClient(c);
        }
      } else if op == PING {
        c.SendControl(PongFrame());
        Touched(c);
      }
    }

    /** Decodes the batch in the receive buffer unless its opcode is unknown; a batch that violates the protocol gets a
        close frame. */
    method HandleData(c: Client) returns (deliver: bool)
      requires Valid() && Live(c) && c.recvBuffer.Length >= 2 && c.recvBuffer as object != wheel.tv as object
      requires c.wbHeader == Header(c.recvBuffer[0], c.recvBuffer[1]) && !IsControl(Opcode(c.wbHeader))
      requires IsData(Opcode(c.wbHeader)) ==> StaysInside(c.recvBuffer[..], signedChar)
      modifies this`hooks, c`queue, c`armed, c`passed, c`heartbeatId, c`decodeBuffer, c`wbHeader, c`isStreaming,
        c.recvBuffer, wheel, wheel.tv
      ensures Valid() && wheel.log == old(wheel.log)
      ensures c.state == old(c.state) && c.calls == old(c.calls) && c.waitClose == old(c.waitClose)
      ensures var failed := IsData(Opcode(old(c.wbHeader)))
                         && Decoded(old(c.recvBuffer[..]), old(c.decodeBuffer), signedChar).Failure?;
        && Answered(old(c.passed), c.passed, if failed then Closing else Silence)
        && c.heartbeatId == (if failed then 0 else old(c.heartbeatId))
        && wheel.Abs() == Dropped(old(wheel.Abs()), if failed then old(c.heartbeatId) else 0)
      ensures (c.decodeBuffer, deliver) == Absorb(old(c.recvBuffer[..]), old(c.decodeBuffer), signedChar)
    {
      hide Valid, Lifecycle, Conserved, Beats, Decoded, Opcode, Fin, IsControl;
      hide Timers.EraseTask, StaysInside;
      LiveFacts(c);
      DecodedInside(c.recvBuffer[..], c.decodeBuffer, signedChar);
      var op := Opcode(c.wbHeader);
      if op == TEXT || op == BINARY || op == CONTINUATION {
        var flag := c.DecodeDataFrames(signedChar);
        Touched(c);
        if flag != NoError {
          CloseWebsocketClient(c);
          return false;
        }
      }
      return Fin(c.wbHeader);
    }

    /** A client whose heartbeat was just added. */
    twostate lemma Armed(c: Client)
      requires old(Valid()) && old(Live(c)) && unchanged(`clients) && unchanged(`wbClients) && heartbeat
      requires forall fd :: fd in clients && clients[fd] != c ==> unchanged(clients[fd])
      requires c.Ok() && c.state == old(c.state) && old(c.heartbeatId) == 0 && c.heartbeatId == old(wheel.nextId)
      requires c.pings == old(c.pings) == []
      requires wheel.nextId == c.heartbeatId + 1 && wheel.nextId <= 0x1_0000_0000
      requires wheel.Valid() && !wheel.locked && wheel.log == old(wheel.log) && unchanged(`served) && Steady()
      requires c.heartbeatId in wheel.idMap && IsHeartbeat(wheel.idMap[c.heartbeatId])
      requires wheel.idMap == old(wheel.idMap)[c.heartbeatId := wheel.idMap[c.heartbeatId]]
      requires hooks == old(hooks)[c.heartbeatId := c]
      ensures Valid()
    {
      hide Indexed, AllPlaced, Recorded, Steady;
      hide Client.Ok;
      assert c.heartbeatId !in old(wheel.idMap) && c.heartbeatId != 0;
      assert Registry();
      assert forall fd :: fd in clients ==> Recorded(clients[fd], wheel.log[..served]) by {
        forall fd | fd in clients ensures Recorded(clients[fd], wheel.log[..served]) {
          assert old(Recorded(clients[fd], wheel.log[..served]));
          if clients[fd] == c {
            NewRecord(c, wheel.log[..served]);
          }
        }
      }
    }

    method IssueHeartbeat(now: ClockMs) returns (id: nat)
      requires Valid() && wheel.nextId < 0x1_0000_0000
      modifies wheel, wheel.tv
      ensures wheel.Valid() && !wheel.locked && Steady() && wheel.nextId == id + 1 && id == old(wheel.nextId)
      ensures wheel.Abs() == WithHeartbeat(old(wheel.Abs()), now) && wheel.log == old(wheel.log)
      ensures id in wheel.idMap && IsHeartbeat(wheel.idMap[id])
      ensures wheel.idMap == old(wheel.idMap)[id := wheel.idMap[id]]
    {
      hide Indexed, AllPlaced, TasksOf, FiredOf, Registry, Heartbeats, Records, TimerRuns.Sound, TimerRuns.Paced;
      AddSteady(wheel.Abs(), now);
      id := wheel.AddTask(now, HEARTBEAT_MS, Timers.FULL_CIRCLE, false, 0);
    }

    method AddHeartbeat(c: Client, now: ClockMs)
      requires Valid() && Live(c) && heartbeat && c.heartbeatId == 0 && !c.state.Start? && wheel.nextId < 0x1_0000_0000
      requires c.pings == []
      modifies this`hooks, c`heartbeatId, wheel, wheel.tv
      ensures Valid() && c.heartbeatId == old(wheel.nextId) && wheel.log == old(wheel.log)
      ensures wheel.Abs() == WithHeartbeat(old(wheel.Abs()), now)
    {
      hide Valid, Lifecycle, Conserved, Beats, Steady, TimeWheel.Valid, TimeWheel.Abs;
      LiveFacts(c);
      var id := IssueHeartbeat(now);
      hooks := hooks[id := c];
      c.heartbeatId := id;
      Armed(c);
    }

    /** `websocket_shake_hands`, and the heartbeat that follows a good one. `acceptKey` is the digest of the client's
        key. */
    method ShakeHands(c: Client, acceptKey: seq<byte>, now: ClockMs)
      requires Valid() && Live(c) && c.state.Start? && (heartbeat ==> wheel.nextId < 0x1_0000_0000)
      modifies this`hooks, c`queue, c`armed, c`passed, c`state, c`shake, c`heartbeatId, wheel, wheel.tv
      ensures Valid() && wheel.log == old(wheel.log)
      ensures wheel.Abs() == if heartbeat && Http.Upgrades(c.headers) then WithHeartbeat(old(wheel.Abs()), now)
                             else old(wheel.Abs())
      ensures Http.Upgrades(c.headers) ==>
        && c.state == WaitShake
        && c.passed == old(c.passed) + [Item(Handshake, Http.SwitchingProtocols(acceptKey))]
        && c.passed == old(c.passed) + [Item(Handshake, Http.Print(Http.Response(acceptKey)))]
        && c.heartbeatId == (if heartbeat then old(wheel.nextId) else 0)
      ensures !Http.Upgrades(c.headers) ==>
        c.state == Start && c.heartbeatId == old(c.heartbeatId) && Answered(old(c.passed), c.passed, Closing)
    {
      hide Valid, Lifecycle, Conserved, Beats, Http.Upgrades, Http.SwitchingProtocols;
      LiveFacts(c);
      hide Http.Print, Http.Response;
      if Http.Upgrades(c.headers) {
        Http.ResponsePrinted(acceptKey);
        assert c.heartbeatId == 0 && c.pings == [];
        c.ShakeHands(Http.SwitchingProtocols(acceptKey));
        Touched(c);
        if heartbeat {
          AddHeartbeat(c, now);
        }
      } else {
        CloseWebsocketClient(c);
      }
    }

    // ---- Events ----

    method Accept(fd: int) returns (c: Client)
      requires Valid() && fd !in clients
      modifies this`clients
      ensures Valid() && fresh(c) && c.fd == fd && clients == old(clients)[fd := c]
      ensures c.state == Start && c.queue == [] && c.decodeBuffer == [] && c.headers == map[] && c.heartbeatId == 0
      ensures c.passed == [] && c.wire == [] && c.calls == [] && !c.waitClose && !c.refused
    {
      hide Valid, Client.Ok;
      c := new Client(fd);
      clients := clients[fd := c];
      Joined(c);
    }

    /** A new client in the registry. */
    twostate lemma Joined(new c: Client)
      requires old(Valid()) && c.fd !in old(clients) && clients == old(clients)[c.fd := c]
      requires unchanged(`hooks) && unchanged(`wbClients) && unchanged(`served)
      requires unchanged(wheel) && unchanged(wheel.tv)
      requires forall fd :: fd in old(clients) ==> unchanged(clients[fd])
      requires fresh(c) && c.Ok() && c.state == Start && c.heartbeatId == 0 && c.pings == []
      ensures Valid()
    {
      hide Indexed, AllPlaced, CallsOf, TimerRuns.Sound, TimerRuns.Paced, TimeWheel.Abs;
      hide Client.Ok;
      assert wheel.Valid() && Registry();
      assert Heartbeats() && Records();
    }

    /** The peer hung up, in whatever state the client was. */
    method HangUp(fd: int)
      requires Valid()
      modifies this`clients, this`wbClients, this`hooks, wheel, wheel.tv
      ensures Valid() && clients == old(clients) - {fd} && wheel.log == old(wheel.log)
      ensures wheel.Abs() == if fd in old(clients) then Dropped(old(wheel.Abs()), old(clients[fd].heartbeatId))
                             else old(wheel.Abs())
      ensures fd !in old(clients) ==> wbClients == old(wbClients) && hooks == old(hooks)
      ensures fd in old(clients) ==> wbClients == old(wbClients) - {old(clients)[fd]}
    {
      hide Valid, TimeWheel.Abs;
      if fd in clients {
        KnownFd(fd);
        CloseClient(clients[fd]);
      }
    }

    /** A batch of bytes arrives. In the first state it is the opening request; afterwards it is frames, which must not
        lead the walk out of the buffer. */
    method OnData(
      fd: int, data: seq<byte>, acceptKey: seq<byte>, now: ClockMs, ghost r: Http.Request, ghost rest: seq<byte>)
      requires Valid() && data != []
      requires fd in clients && clients[fd].state.Start? ==>
        Http.WellFormed(r) && data == Http.Print(r) + rest && (heartbeat ==> wheel.nextId < 0x1_0000_0000)
      requires fd in clients && !clients[fd].state.Start? && DataBatch(data) ==> StaysInside(data, signedChar)
      modifies this`clients, this`wbClients, this`hooks, At(fd), wheel, wheel.tv
      ensures Valid() && wheel.log == old(wheel.log)
      ensures fd !in old(clients) ==> clients == old(clients) && wheel.Abs() == old(wheel.Abs())
      ensures fd in old(clients) ==>
        var c := old(clients)[fd];
        match old(c.state)
        case Start => clients == old(clients) && Opened(c, r, acceptKey) && Scheduled(c, r, now)
        case WaitShake => Early(c, data) && Unscheduled(c, data)
        case Connected => Received(c, data) && Unscheduled(c, data)
      ensures fd in old(clients) && !old(clients[fd].state).Start? ==>
        var c := old(clients)[fd];
        && ControlAnswered(data, old(c.waitClose), old(c.passed), c.passed)
        && (fd !in clients <==> |data| >= 2 && data[0] & 0x0F == 0x8 && !old(c.waitClose))
    {
      hide Valid, Decoded, Opened, Scheduled, Unscheduled, StaysInside, TimeWheel.Abs, ControlAnswered;
      hide FramesKept, Receive, Absorb, ReplyTo, Answered, Echoed, CallsFor;
      ControlBatches(data, [], signedChar, false);
      hide Http.Upgrades, Http.Complete, Http.WellFormed, Http.Print;
      if fd !in clients {
        return;
      }
      var c := clients[fd];
      KnownFd(fd);
      if c.state == Start {
        OpenRequest(c, data, acceptKey, now, r, rest);
      } else {
        TakeFrames(c, data);
      }
    }

    /** A batch for a client past the handshake, up to the receive callback. */
    method TakeFrames(c: Client, data: seq<byte>)
      requires Valid() && Live(c) && !c.state.Start? && data != []
      requires DataBatch(data) ==> StaysInside(data, signedChar)
      modifies this`clients, this`wbClients, this`hooks, c`queue, c`armed, c`passed, c`heartbeatId, c`decodeBuffer,
        c`wbHeader, c`isStreaming, c`recvBuffer, c`waitClose, c`calls, wheel, wheel.tv
      ensures Valid() && wheel.log == old(wheel.log)
      ensures Unscheduled(c, data) && ControlAnswered(data, old(c.waitClose), old(c.passed), c.passed)
      ensures old(c.state) == WaitShake ==> Early(c, data)
      ensures old(c.state) == Connected ==> Received(c, data)
    {
      hide Valid, Decoded, Absorb, ReplyTo, Answered, Echoed, StaysInside, TimeWheel.Abs;
      DeliveredInSilence(data, c.decodeBuffer, signedChar, c.waitClose);
      ControlBatches(data, c.decodeBuffer, signedChar, c.waitClose);
      var deliver := DecodeFrames(c, data);
      if deliver && c.state == Connected {
        DeliverTo(c);
      }
    }

    /** What no batch of bytes changes. */
    twostate predicate Kept(c: Client)
      reads c
    {
      c.wire == old(c.wire) && c.refused == old(c.refused) && c.pings == old(c.pings)
    }

    /** What the opening request does to its client. */
    twostate predicate Opened(c: Client, r: Http.Request, acceptKey: seq<byte>)
      reads c, wheel
    {
      && c.headers == Http.EmplaceAll(old(c.headers), Http.Entries(r))
      && c.calls == old(c.calls) && c.decodeBuffer == old(c.decodeBuffer) && c.waitClose == old(c.waitClose) && Kept(c)
      && (c.state == Start ==> c.heartbeatId == old(c.heartbeatId))
      && if !Http.Complete(r.headers) then c.state == Start && c.passed == old(c.passed)
         else if Http.Upgrades(c.headers) then
           c.state == WaitShake && c.passed == old(c.passed) + [Item(Handshake, Http.SwitchingProtocols(acceptKey))]
           && c.heartbeatId == (if heartbeat then old(wheel.nextId) else 0)
         else c.state == Start && Answered(old(c.passed), c.passed, Closing)
    }

    /** An accepted handshake adds one heartbeat task; nothing else happens to the wheel. */
    twostate predicate Scheduled(c: Client, r: Http.Request, now: ClockMs)
      reads c, wheel
    {
      wheel.Abs() == if heartbeat && Http.Complete(r.headers) && Http.Upgrades(c.headers)
                     then WithHeartbeat(old(wheel.Abs()), now) else old(wheel.Abs())
    }

    /** A batch that is answered with a close frame erases the heartbeat task of its client; nothing else happens to the
        wheel. */
    twostate predicate Unscheduled(c: Client, data: seq<byte>)
      reads c, wheel
    {
      var reply := ReplyTo(data, old(c.decodeBuffer), signedChar, old(c.waitClose));
      wheel.Abs() == Dropped(old(wheel.Abs()), if reply == Closing then old(c.heartbeatId) else 0)
    }

    twostate predicate FramesKept(c: Client, data: seq<byte>)
      reads c
    {
      && Kept(c) && c.headers == old(c.headers) && c.waitClose == (old(c.waitClose) || |data| < 2)
      && c.heartbeatId
         == (if ReplyTo(data, old(c.decodeBuffer), signedChar, old(c.waitClose)) == Closing then 0
             else old(c.heartbeatId))
    }

    /** Frames that arrive before the client counts as connected are decoded but never handed on. */
    twostate predicate Early(c: Client, data: seq<byte>)
      reads this`clients, c
    {
      && c.state == WaitShake && c.calls == old(c.calls) && FramesKept(c, data)
      && Answered(old(c.passed), c.passed, ReplyTo(data, old(c.decodeBuffer), signedChar, old(c.waitClose)))
      && clients == (if Closes(data, old(c.waitClose)) then old(clients) - {c.fd} else old(clients))
      && c.decodeBuffer == Absorb(data, old(c.decodeBuffer), signedChar).0
    }

    /** A connected client hands on what `Receive` says; the application echoes each message. */
    twostate predicate Received(c: Client, data: seq<byte>)
      reads this`clients, c
    {
      && c.state == Connected && FramesKept(c, data)
      && var (buffer, messages) := Receive(data, old(c.decodeBuffer), signedChar);
         && clients == (if Closes(data, old(c.waitClose)) then old(clients) - {c.fd} else old(clients))
         && c.decodeBuffer == buffer && c.calls == old(c.calls) + CallsFor(messages)
         && if messages == []
            then Answered(old(c.passed), c.passed, ReplyTo(data, old(c.decodeBuffer), signedChar, old(c.waitClose)))
            else Echoed(old(c.passed), c.passed, messages[0])
    }

    method OpenRequest(
      c: Client, data: seq<byte>, acceptKey: seq<byte>, now: ClockMs, ghost r: Http.Request, ghost rest: seq<byte>)
      requires Valid() && Live(c) && c.state.Start? && (heartbeat ==> wheel.nextId < 0x1_0000_0000)
      requires Http.WellFormed(r) && data == Http.Print(r) + rest
      modifies this`hooks, c`queue, c`armed, c`passed, c`state, c`shake, c`heartbeatId, c`headers, c`recvBuffer,
        wheel, wheel.tv
      ensures Valid() && Opened(c, r, acceptKey) && Scheduled(c, r, now) && wheel.log == old(wheel.log)
    {
      hide Valid, TimeWheel.Abs, Answered;
      hide Http.Upgrades, Http.SwitchingProtocols, Http.EmplaceAll, Http.Entries, Http.Complete;
      hide Http.WellFormed, Http.Print, Http.Response;
      var ok, headers := Http.DecodeHttpHeader(data, c.headers, r, rest);
      StoreHeaders(c, headers);
      if ok {
        StoreBytes(c, data);
        ShakeHands(c, acceptKey, now);
      }
    }

    method DeliverTo(c: Client)
      requires Valid() && Live(c) && c.state == Connected
      modifies c`queue, c`armed, c`passed, c`calls, c`decodeBuffer
      ensures Valid() && c.state == Connected && c.decodeBuffer == []
      ensures c.calls == old(c.calls) + [ReceivedCall(old(c.decodeBuffer))]
      ensures Echoed(old(c.passed), c.passed, old(c.decodeBuffer))
    {
      hide Valid, Lifecycle, Conserved, Beats, WellFormed, TextFrame, EncodeFrame;
      LiveFacts(c);
      c.Deliver();
      Touched(c);
    }

    /** The socket takes data again: the queue is written out; the first such write after the handshake makes the client
        connected, and the application greets every connected client. */
    method OnWritable(fd: int)
      requires Valid()
      modifies this`wbClients, At(fd)`state, At(fd)`calls, At(fd)`wire, At(fd)`refused,
        clients.Values`queue, clients.Values`armed, clients.Values`passed
      ensures Valid()
      ensures fd !in clients ==> unchanged(`wbClients) && forall d :: d in clients.Values ==> unchanged(d)
      ensures fd in clients ==> Flushed(clients[fd])
      ensures fd in clients && old(clients[fd].state) != WaitShake ==> Quiet(clients[fd])
      ensures fd in clients && old(clients[fd].state) == WaitShake ==> Promoted(clients[fd])
    {
      hide Valid, Flushed, Quiet, Promoted;
      if fd in clients {
        KnownFd(fd);
        Flush(clients[fd]);
      }
    }

    /** What a write event does to the output of its client. */
    twostate predicate Flushed(c: Client)
      reads c
    {
      && (old(c.refused) ==> c.refused) && (!c.refused ==> c.wire == DataOf(old(c.passed)))
      && old(c.wire) <= c.wire
    }

    /** A write event for a client that does not wait for its 101 response. */
    twostate predicate Quiet(c: Client)
      reads this, clients.Values, c
    {
      && wbClients == old(wbClients)
      && c.state == old(c.state) && c.calls == old(c.calls) && c.passed == old(c.passed) && c.queue == [] && !c.armed
      && forall d :: d in clients.Values && old(allocated(d)) && d != c ==> unchanged(d)
    }

    /** The client becomes connected, and every connected client is greeted. */
    twostate predicate Promoted(c: Client)
      reads this, clients.Values, c
    {
      && wbClients == old(wbClients) + {c}
      && c.state == Connected && c.calls == [ConnectedCall] && old(c.calls) == []
      && forall d :: d in clients.Values && old(allocated(d)) ==>
           d.passed == (if d in wbClients then old(d.passed) + [HelloItem()] else old(d.passed))
    }

    method Flush(c: Client)
      requires Valid() && Live(c)
      modifies this`wbClients, c`state, c`calls, c`wire, c`refused,
        clients.Values`queue, clients.Values`armed, clients.Values`passed
      ensures Valid() && Flushed(c)
      ensures old(c.state) != WaitShake ==> Quiet(c)
      ensures old(c.state) == WaitShake ==> Promoted(c)
    {
      hide Valid, HelloItem, DataOf;
      assert c in clients.Values;
      DrainOf(c);
      if c.state == WaitShake {
        Promote(c);
      }
    }

    /** The sent callback of a client that waited for it, with the application's connected callback. */
    method Promote(c: Client)
      requires Valid() && Live(c) && c.state == WaitShake
      modifies this`wbClients, c`state, c`calls, clients.Values`queue, clients.Values`armed, clients.Values`passed
      ensures Valid() && Promoted(c)
    {
      hide Valid, HelloItem;
      ConnectOf(c);
      Greet();
    }

    method DrainOf(c: Client)
      requires Valid() && Live(c)
      modifies c`queue, c`armed, c`wire, c`refused
      ensures Valid() && c.queue == [] && !c.armed && (old(c.refused) ==> c.refused) && old(c.wire) <= c.wire
      ensures !c.refused <==> c.wire == DataOf(c.passed)
    {
      hide Valid, Lifecycle, Conserved, Beats;
      LiveFacts(c);
      c.Drain();
      Touched(c);
    }

    /** The state change and the entry into the application's set. */
    method ConnectOf(c: Client)
      requires Valid() && Live(c) && c.state == WaitShake
      modifies this`wbClients, c`state, c`calls
      ensures Valid() && c.state == Connected && c.calls == [ConnectedCall] && wbClients == old(wbClients) + {c}
      ensures old(c.calls) == []
    {
      hide Indexed, AllPlaced, Conserved, Recorded, Steady, Heartbeats;
      c.Connect();
      wbClients := wbClients + {c};
      Entered(c);
    }

    /** A client that entered the application's set when it became connected. */
    twostate lemma Entered(c: Client)
      requires old(Valid()) && old(Live(c)) && unchanged(`clients) && unchanged(`hooks) && unchanged(`served)
      requires unchanged(wheel) && unchanged(wheel.tv)
      requires forall fd :: fd in clients && clients[fd] != c ==> unchanged(clients[fd])
      requires c.Ok() && c.state == Connected && c.heartbeatId == old(c.heartbeatId) && c.pings == old(c.pings)
      requires wbClients == old(wbClients) + {c}
      ensures Valid()
    {
      hide Indexed, AllPlaced, Recorded, Steady;
      hide Client.Ok;
      assert wheel.Valid() && Registry();
      assert Steady() by {
        EnteredSteady();
      }
      RecordsKept();
    }

    twostate lemma EnteredSteady()
      requires old(Steady()) && unchanged(wheel) && unchanged(`served)
      ensures Steady()
    {
    }

    /** The connected callback's loop over the application's set. */
    method Greet()
      requires Valid()
      modifies clients.Values`queue, clients.Values`armed, clients.Values`passed
      ensures Valid()
      ensures forall d :: d in clients.Values ==>
        d.passed == if d in wbClients then old(d.passed) + [HelloItem()] else old(d.passed)
    {
      hide Valid, HelloItem;
      var todo := wbClients;
      while todo != {}
        invariant Valid() && todo <= wbClients
        invariant forall d :: d in clients.Values ==>
          d.passed == if d in wbClients && d !in todo then old(d.passed) + [HelloItem()] else old(d.passed)
        decreases |todo|
      {
        var v :| v in todo;
        Member(v);
        GreetOne(v);
        todo := todo - {v};
      }
    }

    method GreetOne(c: Client)
      requires Valid() && Live(c) && c.state == Connected
      modifies c`queue, c`armed, c`passed
      ensures Valid() && c.passed == old(c.passed) + [HelloItem()]
    {
      hide Valid, Lifecycle, Conserved, Beats, WellFormed, TextFrame, EncodeFrame;
      LiveFacts(c);
      HelloFits();
      c.Send(HELLO);
      Touched(c);
    }

    lemma Member(c: Client)
      requires Valid() && c in wbClients
      ensures Live(c) && c in clients.Values && c.state == Connected
    {
      assert Live(c);
    }

    /** What serving `news` does: each client gets a ping for each call of its heartbeat task, and nothing else. */
    twostate predicate Pinged(new news: seq<Timers.Firing>)
      reads this`clients, clients.Values
    {
      forall d :: d in clients.Values && old(allocated(d)) ==>
        && d.pings == PingsAfter(old(d.pings), news, d.heartbeatId)
        && d.passed == PassedAfter(old(d.passed), news, d.heartbeatId)
    }

    /** As many more items as pings, each an empty ping frame. */
    twostate predicate PingBytes()
      reads this`clients, clients.Values
    {
      forall d :: d in clients.Values && old(allocated(d)) ==>
        && old(d.pings) <= d.pings
        && |d.passed| - |old(d.passed)| == |d.pings| - |old(d.pings)|
        && d.passed == old(d.passed) + d.passed[|old(d.passed)|..]
        && forall i :: |old(d.passed)| <= i < |d.passed| ==> d.passed[i] == Item(Heartbeat, [0x89, 0x00])
    }

    twostate lemma PingsAreBytes(new news: seq<Timers.Firing>)
      requires Pinged(news)
      ensures PingBytes()
    {
      hide CallsOf;
    }

    /** The wheel's thread reaches the clock reading `now`; every heartbeat that is due sends a ping to its client,
        which is live. */
    method OnHeartbeats(now: ClockMs)
      requires Settled()
      modifies this`served, clients.Values`queue, clients.Values`armed, clients.Values`passed, clients.Values`pings,
        wheel, wheel.tv
      ensures Settled() && wheel.Abs() == Timers.CheckTicks(old(wheel.Abs()), now) && old(wheel.log) <= wheel.log
      ensures forall i :: |old(wheel.log)| <= i < |wheel.log| ==>
        wheel.log[i].id in hooks && Live(hooks[wheel.log[i].id])
      ensures var news := wheel.log[|old(wheel.log)|..];
        Pinged(news)
      ensures PingBytes()
    {
      hide Valid, Timers.CheckTicks, TimeWheel.Abs, PingsAfter, PassedAfter;
      var start := |wheel.log|;
      CheckWheel(now);
      var news := wheel.log[start..];
      ServeCalls(start);
      assert forall k :: 0 <= k < |news| ==> news[k] == wheel.log[start + k];
      forall k | start <= k < |wheel.log| ensures wheel.log[k].id in hooks && Live(hooks[wheel.log[k].id]) {
        assert wheel.log[k] == news[k - start];
        Hooked(wheel.log[k].id);
      }
      PingsAreBytes(news);
    }

    /** A check of the wheel keeps all heartbeat tasks, and calls only their callbacks. */
    method CheckWheel(now: ClockMs)
      requires Valid()
      modifies wheel, wheel.tv
      ensures Valid() && wheel.Abs() == Timers.CheckTicks(old(wheel.Abs()), now) && old(wheel.log) <= wheel.log
      ensures forall i :: |old(wheel.log)| <= i < |wheel.log| ==> wheel.log[i].id in hooks
    {
      hide Valid, Indexed, AllPlaced, TasksOf, FiredOf, CallsOf, Timers.CheckTicks, TimerRuns.Sound, TimerRuns.Paced;
      ghost var s0, m0, log0 := wheel.Abs(), wheel.idMap, wheel.log;
      CheckFacts();
      CheckSteady(s0, now);
      EndlessMap(m0, wheel.current);
      wheel.Check(now);
      EndlessCheck(s0, now);
      EndlessMap(wheel.idMap, wheel.current);
      CallsListed(log0, wheel.nextId);
      CallsListed(wheel.log, wheel.nextId);
      NewCalls(log0, wheel.log, wheel.nextId, s0.tasks.Keys);
      Checked();
    }

    lemma CheckFacts()
      requires Valid()
      ensures wheel.Valid() && !wheel.locked && Steady() && hooks.Keys == wheel.idMap.Keys
      ensures forall id :: id in wheel.idMap ==> IsHeartbeat(wheel.idMap[id])
    {
      hide Indexed, AllPlaced, Recorded, Steady;
    }

    /** The wheel was checked: its heartbeat tasks are the same, its log longer. */
    twostate lemma Checked()
      requires old(Valid()) && unchanged(this) && forall fd :: fd in clients ==> unchanged(clients[fd])
      requires wheel.Valid() && !wheel.locked && wheel.nextId == old(wheel.nextId) && old(wheel.log) <= wheel.log
      requires wheel.idMap.Keys == old(wheel.idMap).Keys && Steady()
      requires forall id :: id in wheel.idMap ==> IsHeartbeat(wheel.idMap[id])
      ensures Valid()
    {
      hide Indexed, AllPlaced, CallsOf, TimerRuns.Sound, TimerRuns.Paced, TimerRuns.Apart, TimeWheel.Abs;
      hide Client.Ok;
      assert wheel.log[..served] == old(wheel.log[..served]);
      assert Registry() && Heartbeats();
    }

    /** Serves all calls from number `k` on. */
    method ServeCalls(k: nat)
      requires Valid() && k == served <= |wheel.log| && forall i :: k <= i < |wheel.log| ==> wheel.log[i].id in hooks
      modifies this`served, clients.Values`queue, clients.Values`armed, clients.Values`passed, clients.Values`pings
      ensures Valid() && served == |wheel.log|
      ensures Pinged(old(wheel.log[k..]))
      decreases |wheel.log| - k
    {
      hide PingsAfter, PassedAfter, Valid, TimeWheel.Abs, PingItem;
      if k == |wheel.log| {
        assert wheel.log[k..] == [];
        NoPings();
      } else {
        NextPing(wheel.log, k);
        ServeCall(k);
        assert clients == old(clients) && wheel.log == old(wheel.log);
        ServeCalls(k + 1);
        assert clients == old(clients);
      }
    }

    twostate predicate PingedOne(new call: Timers.Firing)
      reads this`clients, clients.Values
    {
      forall d :: d in clients.Values && old(allocated(d)) ==>
        && d.pings == (if call.id == d.heartbeatId then old(d.pings) + [call] else old(d.pings))
        && d.passed == (if call.id == d.heartbeatId then old(d.passed) + [PingItem()] else old(d.passed))
    }

    /** Serves call number `k`, the next one: its client is pinged, and nothing else happens to any client. */
    method ServeCall(k: nat)
      requires Valid() && k == served < |wheel.log| && wheel.log[k].id in hooks
      modifies this`served, clients.Values`queue, clients.Values`armed, clients.Values`passed, clients.Values`pings
      ensures Valid() && served == old(served) + 1
      ensures PingedOne(old(wheel.log[k]))
    {
      hide Valid;
      Hooked(wheel.log[k].id);
      PingOne(hooks[wheel.log[k].id]);
    }

    /** Serves the next call, which is one of the heartbeat task of `c`. */
    method PingOne(c: Client)
      requires Valid() && Live(c) && served < |wheel.log| && wheel.log[served].id == c.heartbeatId != 0
      modifies this`served, c`queue, c`armed, c`passed, c`pings
      ensures Valid() && served == old(served) + 1
      ensures c.passed == old(c.passed) + [PingItem()] && c.pings == old(c.pings) + [wheel.log[old(served)]]
    {
      hide Valid, Lifecycle, Conserved, Beats;
      LiveFacts(c);
      c.Ping(PingFrame(), wheel.log[served]);
      served := served + 1;
      Served(c);
    }

    /** The next call was served with a ping to its client. */
    twostate lemma Served(c: Client)
      requires old(Valid()) && old(Live(c)) && unchanged(`clients) && unchanged(`hooks) && unchanged(`wbClients)
      requires unchanged(wheel) && unchanged(wheel.tv)
      requires forall fd :: fd in clients && clients[fd] != c ==> unchanged(clients[fd])
      requires old(served) < |wheel.log| && wheel.log[old(served)].id == c.heartbeatId != 0
      requires served == old(served) + 1 && c.pings == old(c.pings) + [wheel.log[old(served)]]
      requires c.Ok() && c.state == old(c.state) && c.heartbeatId == old(c.heartbeatId)
      ensures Valid()
    {
      hide Indexed, AllPlaced, CallsOf, TimerRuns.Apart;
      hide Client.Ok, TimerRuns.Sound, TimerRuns.Paced, TimeWheel.Abs;
      assert wheel.Valid() && Registry();
      forall fd | fd in clients ensures Recorded(clients[fd], wheel.log[..served]) {
        assert old(Recorded(clients[fd], wheel.log[..served]));
        NextCall(wheel.log, old(served), clients[fd].heartbeatId);
        if clients[fd] == c {
          Paced(c.heartbeatId);
          ServedApart(wheel.log, served, c.heartbeatId);
        }
      }
    }

    /** The calls of one task are a heartbeat apart. */
    lemma Paced(id: nat)
      requires Steady() && wheel.Valid() && id in wheel.idMap
      ensures TimerRuns.Apart(CallsOf(wheel.log, id), HEARTBEAT_MS)
    {
      hide TimerRuns.Apart, CallsOf, Indexed, AllPlaced;
      CallsListed(wheel.log, wheel.nextId);
      assert id in wheel.Abs().fired;
    }

    lemma Hooked(id: nat)
      requires Valid() && id in hooks
      ensures Live(hooks[id]) && hooks[id] in clients.Values && hooks[id].heartbeatId == id && id != 0
      ensures forall d :: d in clients.Values && d.heartbeatId == id ==> d == hooks[id]
    {
      hide Indexed, AllPlaced, Lifecycle, Conserved, Recorded, Steady;
      assert id in wheel.idMap;
      forall d | d in clients.Values && d.heartbeatId == id ensures d == hooks[id] {
        var fd := KeyOf(clients, d);
      }
    }

    lemma KnownFd(fd: int)
      requires Valid() && fd in clients
      ensures clients[fd].fd == fd && Live(clients[fd]) && clients[fd].Ok()
    {
    }
  }

  lemma KeyOf(m: map<int, Client>, d: Client) returns (fd: int)
    requires d in m.Values
    ensures fd in m && m[fd] == d
  {
    if forall fd :: fd in m ==> m[fd] != d {
      assert false;
    }
    fd :| fd in m && m[fd] == d;
  }

  function HelloItem(): Item {
    HelloFits();
    Item(Application, EncodeFrame(TextFrame(HELLO)))
  }

  /** The greeting on the wire. */
  lemma HelloBytes()
    ensures HelloItem() == Item(Application, [0x81, 0x0B] + Http.Ascii("hello world"))
  {
    hide Num, ToByte;
    HelloFits();
    var e := EncodeFrame(TextFrame(HELLO));
    FrameBytes(TextFrame(HELLO));
    hide EncodeFrame;
    ElevenByte(e[1]);
    assert e[2..] == HELLO;
    assert e == [e[0], e[1]] + e[2..];
  }

  lemma ElevenByte(b: byte)
    requires b < 0x80 && Num(b & 0x7F) == 11
    ensures b == 0x0B
  {
    assert b & 0x7F == b;
    assert Num(0x0B) == 11;
    hide Num;
    NumInjective(b, 0x0B);
  }

  function PingItem(): Item {
    Item(Heartbeat, PingFrame())
  }

  function Pings(n: nat): seq<Item> {
    seq(n, _ => PingItem())
  }

  ghost predicate AllEndless(s: Timers.Flat) {
    forall id :: id in s.tasks ==> s.tasks[id].count == Timers.FULL_CIRCLE
  }

  lemma EndlessMap(m: map<nat, TimeNode>, c: int)
    ensures TasksOf(m, c).Keys == m.Keys
    ensures forall id :: id in m ==>
      TasksOf(m, c)[id].count == m[id].count && TasksOf(m, c)[id].interval == m[id].interval
  {
  }

  /** Tasks without end stay, and only they are called. */
  lemma {:induction false} EndlessCheck(s: Timers.Flat, now: int)
    requires AllEndless(s)
    ensures var s' := Timers.CheckTicks(s, now);
      && AllEndless(s') && s'.tasks.Keys == s.tasks.Keys && s'.fired.Keys == s.fired.Keys
      && (forall id :: id in s.fired && id !in s.tasks ==> s'.fired[id] == s.fired[id])
      && (forall id :: id in s.tasks ==> s'.tasks[id].interval == s.tasks[id].interval)
    decreases now + 1 - s.current
  {
    if s.current <= now {
      EndlessCheck(Timers.Tick(s, now), now);
    }
  }

  lemma {:induction false} CallsOfConcat(a: seq<Timers.Firing>, b: seq<Timers.Firing>, id: nat)
    ensures CallsOf(a + b, id) == CallsOf(a, id) + CallsOf(b, id)
    decreases |b|
  {
    if b == [] {
      assert a + b == a;
    } else {
      assert (a + b)[..|a + b| - 1] == a + b[..|b| - 1];
      CallsOfConcat(a, b[..|b| - 1], id);
    }
  }

  lemma {:induction false} CallCounts(b: seq<Timers.Firing>, i: nat)
    requires i < |b|
    ensures CallsOf(b, b[i].id) != []
    decreases |b|
  {
    if i < |b| - 1 {
      CallCounts(b[..|b| - 1], i);
    }
  }

  lemma CallsListed(log: seq<Timers.Firing>, nextId: nat)
    ensures forall id :: 1 <= id < nextId ==> id in FiredOf(log, nextId) && FiredOf(log, nextId)[id] == CallsOf(log, id)
    ensures forall id :: id in FiredOf(log, nextId) ==> 1 <= id < nextId
  {
    hide CallsOf;
  }

  lemma NewCallShows(log0: seq<Timers.Firing>, b: seq<Timers.Firing>, i: nat)
    requires i < |b|
    ensures CallsOf(log0 + b, b[i].id) != CallsOf(log0, b[i].id)
  {
    hide CallsOf;
    CallCounts(b, i);
    CallsOfConcat(log0, b, b[i].id);
    assert |CallsOf(log0 + b, b[i].id)| > |CallsOf(log0, b[i].id)|;
  }

  lemma NewCalls(log0: seq<Timers.Firing>, log: seq<Timers.Firing>, nextId: nat, known: set<nat>)
    requires log0 <= log && forall i :: 0 <= i < |log| ==> 1 <= log[i].id < nextId
    requires forall id :: 1 <= id < nextId && id !in known ==> CallsOf(log, id) == CallsOf(log0, id)
    ensures forall i :: |log0| <= i < |log| ==> log[i].id in known
  {
    hide CallsOf;
    var b := log[|log0|..];
    assert log == log0 + b;
    forall i | |log0| <= i < |log| ensures log[i].id in known {
      assert b[i - |log0|] == log[i];
      NewCallShows(log0, b, i - |log0|);
    }
  }

  lemma NextCall(log: seq<Timers.Firing>, k: nat, id: nat)
    requires k < |log|
    ensures CallsOf(log[..k + 1], id) == CallsOf(log[..k], id) + if log[k].id == id then [log[k]] else []
  {
    assert log[..k + 1][..k] == log[..k];
  }

  /** The pings of a client once the calls `news` were served. */
  ghost function PingsAfter(before: seq<Timers.Firing>, news: seq<Timers.Firing>, id: nat): seq<Timers.Firing> {
    before + CallsOf(news, id)
  }

  /** What a client has been passed once the calls `news` were served. */
  ghost function PassedAfter(before: seq<Item>, news: seq<Timers.Firing>, id: nat): seq<Item> {
    before + Pings(|CallsOf(news, id)|)
  }

  lemma NoPings()
    ensures forall before, id :: PingsAfter(before, [], id) == before
    ensures forall before, id :: PassedAfter(before, [], id) == before
  {
  }

  lemma NextPing(log: seq<Timers.Firing>, k: nat)
    requires k < |log|
    ensures forall before, id ::
      PingsAfter(before, log[k..], id)
      == PingsAfter(if log[k].id == id then before + [log[k]] else before, log[k + 1..], id)
    ensures forall before, id ::
      PassedAfter(before, log[k..], id)
      == PassedAfter(if log[k].id == id then before + [PingItem()] else before, log[k + 1..], id)
  {
    hide CallsOf;
    assert log[k..] == [log[k]] + log[k + 1..];
    forall id ensures CallsOf(log[k..], id) == (if log[k].id == id then [log[k]] else []) + CallsOf(log[k + 1..], id) {
      CallsOfConcat([log[k]], log[k + 1..], id);
      NextCall([log[k]], 0, id);
      assert [log[k]][..0] == [] && [log[k]][..1] == [log[k]];
      NoCalls([], id);
    }
    forall before, id
      ensures PassedAfter(before, log[k..], id)
           == PassedAfter(if log[k].id == id then before + [PingItem()] else before, log[k + 1..], id)
    {
      var n := |CallsOf(log[k + 1..], id)|;
      assert Pings(n + 1) == [PingItem()] + Pings(n);
    }
  }

  lemma ServedApart(log: seq<Timers.Firing>, k: nat, id: nat)
    requires k <= |log| && TimerRuns.Apart(CallsOf(log, id), HEARTBEAT_MS)
    ensures TimerRuns.Apart(CallsOf(log[..k], id), HEARTBEAT_MS)
  {
    CallsOfConcat(log[..k], log[k..], id);
    assert log[..k] + log[k..] == log;
    ApartPrefix(CallsOf(log[..k], id), CallsOf(log[k..], id));
  }

  lemma ApartPrefix(a: seq<Timers.Firing>, b: seq<Timers.Firing>)
    requires TimerRuns.Apart(a + b, HEARTBEAT_MS)
    ensures TimerRuns.Apart(a, HEARTBEAT_MS)
  {
    forall i | 0 < i < |a| ensures a[i].tick - a[i - 1].tick >= HEARTBEAT_MS {
      assert (a + b)[i] == a[i] && (a + b)[i - 1] == a[i - 1];
    }
  }

  /** The pings of a client are a heartbeat apart, and those of a client with a task are the served calls of that
      task. */
  ghost predicate Recorded(c: Client, log: seq<Timers.Firing>)
    reads c
  {
    && TimerRuns.Apart(c.pings, HEARTBEAT_MS)
    && (c.heartbeatId != 0 ==> c.pings == CallsOf(log, c.heartbeatId))
  }

  lemma NewRecord(c: Client, log: seq<Timers.Firing>)
    requires c.pings == [] && forall i :: 0 <= i < |log| ==> log[i].id != c.heartbeatId
    ensures Recorded(c, log)
  {
    NoCalls(log, c.heartbeatId);
  }

  /** The flat timer without the task of a client that stores `id`, zero standing for no task. */
  function Dropped(s: Timers.Flat, id: nat): Timers.Flat {
    if id == 0 then s else Timers.EraseTask(s, id)
  }

  /** The flat timer with one heartbeat task more, which has no end. */
  function WithHeartbeat(s: Timers.Flat, now: int): Timers.Flat {
    Timers.AddTask(s, now, HEARTBEAT_MS, Timers.FULL_CIRCLE, false, 0)
  }

  lemma EraseSteady(s: Timers.Flat, id: nat)
    requires TimerRuns.Sound(s) && TimerRuns.Paced(s, HEARTBEAT_MS) && !s.stuck
    ensures TimerRuns.Sound(Timers.EraseTask(s, id)) && TimerRuns.Paced(Timers.EraseTask(s, id), HEARTBEAT_MS)
  {
    hide TimerRuns.Sound, TimerRuns.Paced, Timers.EraseTask;
    TimerRuns.ApplySound(s, Timers.Erase(id));
    TimerRuns.ApplyPaced(s, Timers.Erase(id), HEARTBEAT_MS);
  }

  lemma AddSteady(s: Timers.Flat, now: int)
    requires TimerRuns.Sound(s) && TimerRuns.Paced(s, HEARTBEAT_MS) && !s.stuck
    ensures TimerRuns.Sound(WithHeartbeat(s, now)) && TimerRuns.Paced(WithHeartbeat(s, now), HEARTBEAT_MS)
  {
    hide TimerRuns.Sound, TimerRuns.Paced, Timers.AddTask;
    var op := Timers.Add(now, HEARTBEAT_MS, Timers.FULL_CIRCLE, false, 0);
    TimerRuns.ApplySound(s, op);
    TimerRuns.ApplyPaced(s, op, HEARTBEAT_MS);
  }

  lemma CheckSteady(s: Timers.Flat, now: int)
    requires TimerRuns.Sound(s) && TimerRuns.Paced(s, HEARTBEAT_MS)
    ensures TimerRuns.Sound(Timers.CheckTicks(s, now)) && TimerRuns.Paced(Timers.CheckTicks(s, now), HEARTBEAT_MS)
  {
    TimerRuns.CheckSound(s, now);
    TimerRuns.CheckPaced(s, now, HEARTBEAT_MS);
  }

  function CallsFor(messages: seq<seq<byte>>): seq<Call> {
    seq(|messages|, i requires 0 <= i < |messages| => ReceivedCall(messages[i]))
  }

  /** A batch that completes a message is not answered by the server itself, and closes nothing. */
  lemma DeliveredInSilence(data: seq<byte>, acc: seq<byte>, signedChar: bool, waitClose: bool)
    ensures Absorb(data, acc, signedChar).1 ==> ReplyTo(data, acc, signedChar, waitClose) == Silence
    ensures Absorb(data, acc, signedChar).1 ==> !Closes(data, waitClose)
    ensures forall before, after :: Answered(before, after, Silence) ==> after == before
  {
    hide Decoded, Opcode, Fin;
  }

  lemma ReplyCases(data: seq<byte>, acc: seq<byte>, signedChar: bool, waitClose: bool)
    ensures var reply := ReplyTo(data, acc, signedChar, waitClose);
      if |data| < 2 then reply == Closing
      else
        var op := Opcode(Header(data[0], data[1]));
        if IsControl(op) then
          reply == if op == PING then Pong else if op == CLOSE && !waitClose then Closing else Silence
        else
          reply == if IsData(op) && Decoded(data, acc, signedChar).Failure? then Closing else Silence
  {
    hide Decoded, Opcode;
  }

  lemma AnswerBytes(
    data: seq<byte>, acc: seq<byte>, signedChar: bool, waitClose: bool, before: seq<Item>, after: seq<Item>)
    requires Answered(before, after, ReplyTo(data, acc, signedChar, waitClose))
    ensures ControlAnswered(data, waitClose, before, after)
  {
    hide Decoded;
  }

  /** Which batches close the connection, and which ones leave the decode buffer alone, by their first byte. */
  lemma ControlBatches(data: seq<byte>, acc: seq<byte>, signedChar: bool, waitClose: bool)
    ensures Closes(data, waitClose) <==> |data| >= 2 && data[0] & 0x0F == 0x8 && !waitClose
    ensures |data| < 2 || 0x8 <= data[0] & 0x0F <= 0xA ==> Absorb(data, acc, signedChar) == (acc, false)
    ensures |data| >= 2 && (0x2 < data[0] & 0x0F < 0x8 || 0xA < data[0] & 0x0F) ==>
      Absorb(data, acc, signedChar) == (acc, data[0] >= 0x80)
    ensures |data| >= 2 ==> (DataBatch(data) <==> data[0] & 0x0F <= 0x2)
  {
    hide Decoded;
  }

  /** Of all whole messages, only unfragmented text that is not UTF-8, together with what the decode buffer held, is
      answered at once: with a close frame. */
  lemma MessageAnswer(fs: seq<Frame>, acc: seq<byte>, signedChar: bool, waitClose: bool)
    requires WholeMessage(fs, signedChar)
    ensures ReplyTo(EncodeFrames(fs), acc, signedChar, waitClose)
         == if LoneText(fs) && !Utf8.Text(acc + Payloads(fs)) then Closing else Silence
  {
    hide Decoded, EncodeFrames, EncodeFrame, HeaderOf, Utf8.Text, AllClean, Fin, Opcode, Payloads, WellFormed;
    Reassembly(fs, acc, signedChar);
    FramesStart(fs);
    FirstHeader(fs[0]);
    DataIsNoControl(fs[0].bits & 0x0F);
  }

  lemma AbsorbNothing(data: seq<byte>, acc: seq<byte>, signedChar: bool)
    ensures |data| < 2 || IsControl(Opcode(Header(data[0], data[1]))) ==> Absorb(data, acc, signedChar) == (acc, false)
    ensures |data| >= 2 && Opcode(Header(data[0], data[1])) == CLOSE ==> IsControl(Opcode(Header(data[0], data[1])))
    ensures |data| >= 2 && IsData(Opcode(Header(data[0], data[1]))) ==> !IsControl(Opcode(Header(data[0], data[1])))
  {
    hide Decoded, Opcode, Fin;
  }

  /** A close frame from the peer, unless the server has asked for the close. */
  predicate Closes(data: seq<byte>, waitClose: bool) {
    |data| >= 2 && Opcode(Header(data[0], data[1])) == CLOSE && !waitClose
  }

  lemma SmallKey(id: nat)
    requires id < 0x1_0000_0000
    ensures Timers.Key(id) == id
  {
  }

  lemma EmptyTasks(w: TimeWheel)
    requires w.Abs().tasks == map[]
    ensures w.idMap == map[]
  {
  }
}
