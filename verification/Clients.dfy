/** One connected client: its output queue, its receive path and the history of what happened to it. */
module Clients {
  import opened Bytes
  import opened ByteNums
  import opened Frames
  import opened Unmasking
  import Http
  import Timers
  import Utf8

  /** `connection_state`. */
  datatype ConnState = Start | WaitShake | Connected

  function Rank(s: ConnState): nat {
    match s
    case Start => 0
    case WaitShake => 1
    case Connected => 2
  }

  /** What one call of `send_buffer` passes: the 101 response, an application message, the ping of a heartbeat, or
      another control frame. */
  datatype Kind = Handshake | Application | Heartbeat | Control
  datatype Item = Item(kind: Kind, data: seq<byte>)

  /** The calls of the application's callbacks for one client. */
  datatype Call = ConnectedCall | ReceivedCall(message: seq<byte>)

  ghost function DataOf(items: seq<Item>): seq<byte> {
    if items == [] then [] else DataOf(items[..|items| - 1]) + items[|items| - 1].data
  }

  lemma DataOfSnoc(items: seq<Item>, x: Item)
    ensures DataOf(items + [x]) == DataOf(items) + x.data
  {
    assert (items + [x])[..|items|] == items;
  }

  ghost function Beats(items: seq<Item>): nat {
    if items == [] then 0
    else Beats(items[..|items| - 1]) + if items[|items| - 1].kind == Heartbeat then 1 else 0
  }

  lemma BeatsSnoc(items: seq<Item>, x: Item)
    ensures Beats(items + [x]) == Beats(items) + if x.kind == Heartbeat then 1 else 0
  {
    assert (items + [x])[..|items|] == items;
  }

  /** In state `s` exactly one 101 response was passed (none in the first state), at `shake`, and application
      messages only in the last state and only after it. */
  ghost predicate Lifecycle(s: ConnState, passed: seq<Item>, shake: nat, calls: seq<Call>) {
    && (s.Start? ==> forall i :: 0 <= i < |passed| ==> passed[i].kind == Control)
    && (!s.Start? ==> shake < |passed| && forall i :: 0 <= i < |passed| ==>
          && (passed[i].kind == Handshake <==> i == shake)
          && (passed[i].kind == Application ==> shake < i && s.Connected?))
    && (s.Connected? <==> calls != [])
    && (forall i :: 0 <= i < |calls| ==> (calls[i] == ConnectedCall <==> i == 0))
  }

  /** What was written plus what is queued is what was passed, in order; exactly as long as no write was refused. */
  ghost predicate Conserved(wire: seq<byte>, queue: seq<seq<byte>>, passed: seq<Item>, refused: bool) {
    if refused then |wire| + |Concat(queue)| < |DataOf(passed)| else wire + Concat(queue) == DataOf(passed)
  }

  // ---- What a batch of received bytes does to the decode buffer ----

  predicate IsControl(op: byte) {
    op == CLOSE || op == PONG || op == PING
  }

  predicate IsData(op: byte) {
    op == TEXT || op == BINARY || op == CONTINUATION
  }

  predicate DataBatch(data: seq<byte>) {
    |data| >= 2 && IsData(Opcode(Header(data[0], data[1])))
  }

  /** The decode buffer after `decode_proto_data` on a batch, and its result: whether the receive callback is due. */
  ghost function Absorb(data: seq<byte>, acc: seq<byte>, signedChar: bool): (seq<byte>, bool) {
    if |data| < 2 then (acc, false)
    else
      var h := Header(data[0], data[1]);
      if IsControl(Opcode(h)) then (acc, false)
      else if IsData(Opcode(h)) then
        match Decoded(data, acc, signedChar)
        case Success(buffer, last) => (buffer, Fin(last))
        case Failure(_, buffer) => (buffer, false)
        case OutOfBounds => (acc, false)
      else (acc, Fin(h))
  }

  /** What a batch means for a connected client: its decode buffer, and the messages handed to the application. */
  ghost function Receive(data: seq<byte>, acc: seq<byte>, signedChar: bool): (seq<byte>, seq<seq<byte>>) {
    var (buffer, due) := Absorb(data, acc, signedChar);
    if due then ([], [buffer]) else (buffer, [])
  }

  ghost function ReceiveAll(batches: seq<seq<byte>>, acc: seq<byte>, signedChar: bool): (seq<byte>, seq<seq<byte>>)
    decreases |batches|
  {
    if batches == [] then (acc, [])
    else
      var (acc1, messages1) := Receive(batches[0], acc, signedChar);
      var (acc2, messages2) := ReceiveAll(batches[1..], acc1, signedChar);
      (acc2, messages1 + messages2)
  }

  /** What a peer sends in one batch: a whole message in one or more frames, or a lone ping or pong. */
  datatype Batch = Message(frames: seq<Frame>) | Beat(frame: Frame)

  /** All frames of one message, of a size and with lengths that the platform reads. */
  predicate WholeMessage(fs: seq<Frame>, signedChar: bool) {
    && Fragments(fs) && fs[|fs| - 1].fin && |EncodeFrames(fs)| < TWO_64 / 2 && IsData(fs[0].bits & 0x0F)
    && AllClean(fs, signedChar)
  }

  ghost predicate Sendable(b: Batch, signedChar: bool) {
    match b
    case Message(fs) => WholeMessage(fs, signedChar) && (LoneText(fs) ==> Utf8.Text(Payloads(fs)))
    case Beat(f) => WellFormed(f) && (f.bits & 0x0F == PING || f.bits & 0x0F == PONG)
  }

  ghost function Wire(b: Batch, signedChar: bool): seq<byte>
    requires Sendable(b, signedChar)
  {
    match b
    case Message(fs) => EncodeFrames(fs)
    case Beat(f) => EncodeFrame(f)
  }

  ghost function WireAll(bs: seq<Batch>, signedChar: bool): seq<seq<byte>>
    requires forall i :: 0 <= i < |bs| ==> Sendable(bs[i], signedChar)
  {
    if bs == [] then [] else [Wire(bs[0], signedChar)] + WireAll(bs[1..], signedChar)
  }

  function Messages(bs: seq<Batch>): seq<seq<byte>> {
    if bs == [] then []
    else (if bs[0].Message? then [Payloads(bs[0].frames)] else []) + Messages(bs[1..])
  }

  /** A whole message goes behind what the decode buffer held; it is handed on unless it is unfragmented text and the
      two together are not UTF-8. */
  lemma AbsorbMessage(fs: seq<Frame>, acc: seq<byte>, signedChar: bool)
    requires WholeMessage(fs, signedChar)
    ensures Absorb(EncodeFrames(fs), acc, signedChar)
         == (acc + Payloads(fs), !LoneText(fs) || Utf8.Text(acc + Payloads(fs)))
  {
    hide Decoded, EncodeFrames, EncodeFrame, HeaderOf, Utf8.Text, AllClean, Fin, Opcode, Payloads, WellFormed;
    Reassembly(fs, acc, signedChar);
    FramesStart(fs);
    FirstHeader(fs[0]);
    FirstHeader(fs[|fs| - 1]);
    DataIsNoControl(fs[0].bits & 0x0F);
  }

  /** Fragments that leave their message to be continued go behind what the decode buffer held, and nothing is handed
      on. */
  lemma AbsorbFragments(fs: seq<Frame>, acc: seq<byte>, signedChar: bool)
    requires Fragments(fs) && !fs[|fs| - 1].fin && fs[|fs| - 1].payload == [] && AllClean(fs, signedChar)
    requires |EncodeFrames(fs)| < TWO_64 / 2 && IsData(fs[0].bits & 0x0F)
    ensures Absorb(EncodeFrames(fs), acc, signedChar) == (acc + Payloads(fs), false)
  {
    hide Walk, EncodeFrames, EncodeFrame, HeaderOf, Utf8.Text, AllClean, Fin, Opcode, Payloads, WellFormed;
    assert [] + EncodeFrames(fs) == EncodeFrames(fs);
    WalkUnfinished([], fs, acc, signedChar);
    FramesStart(fs);
    FirstHeader(fs[0]);
    FirstHeader(fs[|fs| - 1]);
    DataIsNoControl(fs[0].bits & 0x0F);
  }

  /** Up to the first misread frame, payloads are kept in the decode buffer although nothing is handed on. */
  lemma AbsorbMisread(fs: seq<Frame>, acc: seq<byte>, signedChar: bool)
    requires Fragments(fs) && FirstMisread(fs, signedChar) < |fs| && |EncodeFrames(fs)| < TWO_64 / 2
    requires IsData(fs[0].bits & 0x0F)
    ensures var k := FirstMisread(fs, signedChar);
      Misread(fs[k], acc).Failure? ==> Absorb(EncodeFrames(fs), acc, signedChar) == (acc + Payloads(fs[..k]), false)
  {
    hide Walk, EncodeFrames, EncodeFrame, HeaderOf, Utf8.Text, CleanFrame, Fin, Opcode, Payloads, WellFormed;
    hide ReadLength;
    assert [] + EncodeFrames(fs) == EncodeFrames(fs);
    WalkMisread([], fs, acc, signedChar);
    FramesStart(fs);
    FirstHeader(fs[0]);
    DataIsNoControl(fs[0].bits & 0x0F);
  }

  lemma ReceiveMessage(fs: seq<Frame>, acc: seq<byte>, signedChar: bool)
    requires WholeMessage(fs, signedChar)
    ensures Receive(EncodeFrames(fs), acc, signedChar)
         == if LoneText(fs) && !Utf8.Text(acc + Payloads(fs)) then (acc + Payloads(fs), [])
            else ([], [acc + Payloads(fs)])
  {
    hide Absorb, EncodeFrames, Utf8.Text, Payloads, AllClean;
    AbsorbMessage(fs, acc, signedChar);
  }

  lemma DataIsNoControl(op: byte)
    requires IsData(op)
    ensures !IsControl(op)
  {
  }

  lemma ReceiveBeat(f: Frame, acc: seq<byte>, signedChar: bool)
    requires Sendable(Beat(f), signedChar)
    ensures Receive(EncodeFrame(f), acc, signedChar) == (acc, [])
  {
    hide Decoded, HeaderOf, Fin, Opcode;
    FirstHeader(f);
  }

  /** Message isolation: from an empty decode buffer, any sequence of whole messages, one per batch and mixed with pings
      and pongs, reaches the application as exactly the sequence of payloads. */
  lemma {:induction false} MessagesIsolated(bs: seq<Batch>, signedChar: bool)
    requires forall i :: 0 <= i < |bs| ==> Sendable(bs[i], signedChar)
    ensures ReceiveAll(WireAll(bs, signedChar), [], signedChar) == ([], Messages(bs))
    decreases |bs|
  {
    hide Sendable, Receive, EncodeFrames, EncodeFrame;
    if bs != [] {
      assert Sendable(bs[0], signedChar);
      IsolatedStep(bs[0], signedChar);
      MessagesIsolated(bs[1..], signedChar);
      assert WireAll(bs, signedChar)[1..] == WireAll(bs[1..], signedChar);
    }
  }

  lemma IsolatedStep(b: Batch, signedChar: bool)
    requires Sendable(b, signedChar)
    ensures Receive(Wire(b, signedChar), [], signedChar)
         == ([], if b.Message? then [Payloads(b.frames)] else [])
  {
    hide Receive, Decoded, HeaderOf, EncodeFrames, EncodeFrame, Utf8.Text;
    match b
    case Message(fs) =>
      assert [] + Payloads(fs) == Payloads(fs);
      ReceiveMessage(fs, [], signedChar);
    case Beat(f) =>
      ReceiveBeat(f, [], signedChar);
  }

  /** A whole message is received alone exactly when the decode buffer was empty before and the message is not rejected
      as text. */
  lemma StaleBufferLeaks(fs: seq<Frame>, acc: seq<byte>, signedChar: bool)
    requires WholeMessage(fs, signedChar)
    ensures Receive(EncodeFrames(fs), acc, signedChar).1 == [Payloads(fs)]
       <==> acc == [] && (LoneText(fs) ==> Utf8.Text(Payloads(fs)))
  {
    hide Receive, Utf8.Text, EncodeFrames, AllClean, Payloads;
    ReceiveMessage(fs, acc, signedChar);
    assert |acc + Payloads(fs)| == |acc| + |Payloads(fs)|;
    assert acc == [] ==> acc + Payloads(fs) == Payloads(fs);
  }

  /** Unfragmented text that is not UTF-8. */
  ghost predicate Rejected(fs: seq<Frame>) {
    Fragments(fs) && LoneText(fs) && !Utf8.Text(Payloads(fs))
  }

  /** A text that was rejected is put in front of the next message, or rejected with it. */
  lemma RejectedTextLeaks(bad: seq<Frame>, next: seq<Frame>, signedChar: bool)
    requires WholeMessage(bad, signedChar)
    ensures Rejected(bad) && WholeMessage(next, signedChar) ==>
      var both := Payloads(bad) + Payloads(next);
      ReceiveAll([EncodeFrames(bad), EncodeFrames(next)], [], signedChar)
      == if LoneText(next) && !Utf8.Text(both) then (both, []) else ([], [both])
  {
    hide Receive, Utf8.Text, EncodeFrames, AllClean, Payloads;
    if !Rejected(bad) || !WholeMessage(next, signedChar) {
      return;
    }
    var batches := [EncodeFrames(bad), EncodeFrames(next)];
    assert [] + Payloads(bad) == Payloads(bad);
    ReceiveMessage(bad, [], signedChar);
    ReceiveMessage(next, Payloads(bad), signedChar);
    assert batches[1..] == [EncodeFrames(next)] && batches[1..][1..] == [];
    var last := Receive(EncodeFrames(next), Payloads(bad), signedChar);
    assert ReceiveAll([], last.0, signedChar) == (last.0, []);
    assert last.1 + [] == last.1;
    assert ReceiveAll(batches[1..], Payloads(bad), signedChar) == last;
    assert [] + last.1 == last.1;
  }

  // ---- The client ----

  lemma SendKeepsConserved(wire: seq<byte>, queue: seq<seq<byte>>, passed: seq<Item>, refused: bool, x: Item)
    requires Conserved(wire, queue, passed, refused)
    ensures Conserved(wire, queue + [x.data], passed + [x], refused)
  {
    DataOfSnoc(passed, x);
    ConcatSnoc(queue, x.data);
    assert wire + (Concat(queue) + x.data) == wire + Concat(queue) + x.data;
  }

  /** While the first bytes of a popped message are still to be written. */
  ghost predicate Writing(wire: seq<byte>, left: seq<byte>, queue: seq<seq<byte>>, passed: seq<Item>, refused: bool) {
    if refused then |wire| + |left| + |Concat(queue)| < |DataOf(passed)|
    else wire + left + Concat(queue) == DataOf(passed)
  }

  lemma PopMessage(wire: seq<byte>, queue: seq<seq<byte>>, passed: seq<Item>, refused: bool)
    requires Conserved(wire, queue, passed, refused) && queue != []
    ensures Writing(wire, queue[0], queue[1..], passed, refused)
  {
    assert wire + (queue[0] + Concat(queue[1..])) == wire + queue[0] + Concat(queue[1..]);
  }

  lemma WritePrefix(
    wire: seq<byte>, left: seq<byte>, queue: seq<seq<byte>>, passed: seq<Item>, refused: bool, k: nat)
    requires Writing(wire, left, queue, passed, refused) && k <= |left|
    ensures Writing(wire + left[..k], left[k..], queue, passed, refused)
  {
    assert wire + left[..k] + left[k..] == wire + left by {
      assert left[..k] + left[k..] == left;
    }
  }

  lemma MessageDone(wire: seq<byte>, left: seq<byte>, queue: seq<seq<byte>>, passed: seq<Item>, refused: bool)
    requires Writing(wire, left, queue, passed, refused)
    ensures left == [] ==> Conserved(wire, queue, passed, refused)
    ensures left != [] ==> Conserved(wire, queue, passed, true)
  {
    if left == [] {
      assert wire + left == wire;
    } else if !refused {
      assert |wire + left + Concat(queue)| == |wire| + |left| + |Concat(queue)|;
    }
  }

  lemma LifecycleSend(s: ConnState, passed: seq<Item>, shake: nat, calls: seq<Call>, x: Item)
    requires Lifecycle(s, passed, shake, calls)
    requires match x.kind
             case Handshake => false
             case Application => s.Connected?
             case Heartbeat => !s.Start?
             case Control => true
    ensures Lifecycle(s, passed + [x], shake, calls)
  {
  }

  lemma LifecycleShake(passed: seq<Item>, shake: nat, x: Item)
    requires Lifecycle(Start, passed, shake, []) && x.kind == Handshake
    ensures Lifecycle(WaitShake, passed + [x], |passed|, [])
  {
  }

  lemma LifecycleConnect(passed: seq<Item>, shake: nat)
    requires Lifecycle(WaitShake, passed, shake, [])
    ensures Lifecycle(Connected, passed, shake, [ConnectedCall])
  {
  }

  lemma LifecycleReceive(passed: seq<Item>, shake: nat, calls: seq<Call>, message: seq<byte>)
    requires Lifecycle(Connected, passed, shake, calls)
    ensures Lifecycle(Connected, passed, shake, calls + [ReceivedCall(message)])
  {
  }

  class Client {
    const fd: int
    var state: ConnState
    var queue: seq<seq<byte>>
    /** Write interest is registered with the event queue. */
    var armed: bool
    var recvBuffer: array<byte>
    var decodeBuffer: seq<byte>
    var wbHeader: Header
    var isStreaming: bool
    var waitClose: bool
    var heartbeatId: nat
    var headers: Http.Headers

    ghost var passed: seq<Item>
    /** The calls of the client's heartbeat task that were served, each with a ping in `passed`. */
    ghost var pings: seq<Timers.Firing>
    /** The position of the 101 response in `passed`, once there is one. */
    ghost var shake: nat
    ghost var calls: seq<Call>
    ghost var wire: seq<byte>
    /** Some write was refused with data left. */
    ghost var refused: bool

    ghost predicate Flow()
      reads this
    {
      && (armed <==> queue != [])
      && (forall i :: 0 <= i < |queue| ==> queue[i] != [])
      && Conserved(wire, queue, passed, refused)
    }

    /** What holds of a client between events. */
    ghost predicate Ok()
      reads this
    {
      && Flow() && Lifecycle(state, passed, shake, calls)
      && Beats(passed) == |pings| && (state.Start? ==> heartbeatId == 0 && pings == [])
    }

    /** The state moves only forward, histories only grow, and a heartbeat that was given up is not taken up again. */
    twostate predicate Onward()
      reads this
    {
      && Rank(old(state)) <= Rank(state)
      && old(calls) <= calls && old(passed) <= passed && old(wire) <= wire && old(pings) <= pings
      && (old(refused) ==> refused)
      && (!old(state).Start? ==> heartbeatId == old(heartbeatId) || heartbeatId == 0)
    }

    constructor (fd: int)
      ensures Ok() && this.fd == fd && state == Start && passed == [] && wire == [] && !refused && pings == []
      ensures heartbeatId == 0 && decodeBuffer == [] && headers == map[] && !waitClose && queue == [] && calls == []
    {
      this.fd := fd;
      state, queue, armed, decodeBuffer, wbHeader := Start, [], false, [], Header(0, 0);
      isStreaming, waitClose, heartbeatId, headers := false, false, 0, map[];
      recvBuffer := new byte[0];
      passed, shake, calls, wire, refused, pings := [], 0, [], [], false, [];
    }

    /** `send_buffer`: queues the bytes and registers write interest. */
    method SendBuffer(data: seq<byte>, ghost kind: Kind)
      requires Flow() && data != []
      modifies this`queue, this`armed, this`passed
      ensures Flow() && passed == old(passed) + [Item(kind, data)]
      ensures Beats(passed) == old(Beats(passed)) + if kind == Heartbeat then 1 else 0
    {
      BeatsSnoc(passed, Item(kind, data));
      SendKeepsConserved(wire, queue, passed, refused, Item(kind, data));
      queue := queue + [data];
      armed := true;
      passed := passed + [Item(kind, data)];
    }

    method SendControl(data: seq<byte>)
      requires Ok() && data != []
      modifies this`queue, this`armed, this`passed
      ensures Ok() && passed == old(passed) + [Item(Control, data)]
    {
      LifecycleSend(state, passed, shake, calls, Item(Control, data));
      SendBuffer(data, Control);
    }

    /** The ping that a call of the client's heartbeat task sends. */
    method Ping(data: seq<byte>, ghost call: Timers.Firing)
      requires Ok() && !state.Start? && data != []
      modifies this`queue, this`armed, this`passed, this`pings
      ensures Ok() && passed == old(passed) + [Item(Heartbeat, data)] && pings == old(pings) + [call]
    {
      LifecycleSend(state, passed, shake, calls, Item(Heartbeat, data));
      SendBuffer(data, Heartbeat);
      pings := pings + [call];
    }

    /** An application message. */
    method Send(payload: seq<byte>)
      requires Ok() && state == Connected
      modifies this`queue, this`armed, this`passed
      ensures Ok() && exists frame :: passed == old(passed) + [Item(Application, frame)]
      ensures |payload| < TWO_64 / 2 ==>
        WellFormed(TextFrame(payload)) && passed == old(passed) + [Item(Application, EncodeFrame(TextFrame(payload)))]
    {
      hide WellFormed, TextFrame, EncodeFrame, Conserved;
      var frame := SendFrame(payload);
      LifecycleSend(state, passed, shake, calls, Item(Application, frame));
      SendBuffer(frame, Application);
    }

    /** Queues the 101 response and waits for it to be written. */
    method ShakeHands(response: seq<byte>)
      requires Ok() && state.Start? && response != []
      modifies this`queue, this`armed, this`passed, this`state, this`shake
      ensures Ok() && state == WaitShake && passed == old(passed) + [Item(Handshake, response)]
    {
      hide Conserved;
      assert calls == [];
      LifecycleShake(passed, shake, Item(Handshake, response));
      shake := |passed|;
      SendBuffer(response, Handshake);
      state := WaitShake;
    }

    /** The write after which the client counts as connected. */
    method Connect()
      requires Ok() && state == WaitShake
      modifies this`state, this`calls
      ensures Ok() && state == Connected && calls == [ConnectedCall]
    {
      hide Conserved;
      assert calls == [];
      LifecycleConnect(passed, shake);
      state, calls := Connected, [ConnectedCall];
    }

    /** The receive callback of the application, which echoes the message. */
    method Deliver()
      requires Ok() && state == Connected
      modifies this`queue, this`armed, this`passed, this`calls, this`decodeBuffer
      ensures Ok() && calls == old(calls) + [ReceivedCall(old(decodeBuffer))] && decodeBuffer == []
      ensures exists frame :: passed == old(passed) + [Item(Application, frame)]
      ensures |old(decodeBuffer)| < TWO_64 / 2 ==>
        && WellFormed(TextFrame(old(decodeBuffer)))
        && passed == old(passed) + [Item(Application, EncodeFrame(TextFrame(old(decodeBuffer))))]
    {
      hide Conserved, WellFormed, TextFrame, EncodeFrame;
      LifecycleReceive(passed, shake, calls, decodeBuffer);
      calls := calls + [ReceivedCall(decodeBuffer)];
      Send(decodeBuffer);
      decodeBuffer := [];
    }

    /** One write to the socket: refused for now, or any positive prefix is taken. */
    method Write(data: seq<byte>) returns (ret: int)
      requires data != []
      ensures ret == -1 || 1 <= ret <= |data|
    {
      if * {
        return -1;
      }
      assert 1 <= |data|;
      var taken: nat :| 1 <= taken <= |data|;
      return taken;
    }

    /** The write event: pops and writes every queued message, then takes the write interest back. A refused write drops
        the rest of its message. */
    method Drain()
      requires Flow()
      modifies this`queue, this`armed, this`wire, this`refused
      ensures Flow() && queue == [] && !armed && old(wire) <= wire && (old(refused) ==> refused)
      ensures !refused <==> wire == DataOf(passed)
    {
      hide Conserved, Writing;
      while queue != []
        invariant forall i :: 0 <= i < |queue| ==> queue[i] != []
        invariant Conserved(wire, queue, passed, refused) && old(wire) <= wire && (old(refused) ==> refused)
        decreases |queue|
      {
        PopMessage(wire, queue, passed, refused);
        var buffer := queue[0];
        queue := queue[1..];
        ghost var popped := queue;
        while true
          invariant queue == popped
          invariant buffer != [] && Writing(wire, buffer, queue, passed, refused) && old(wire) <= wire
          invariant old(refused) ==> refused
          decreases |buffer|
        {
          var ret := Write(buffer);
          if ret < 0 {
            MessageDone(wire, buffer, queue, passed, refused);
            refused := true;
            break;
          }
          WritePrefix(wire, buffer, queue, passed, refused, ret);
          wire := wire + buffer[..ret];
          if ret >= |buffer| {
            MessageDone(wire, buffer[ret..], queue, passed, refused);
            break;
          }
          buffer := buffer[ret..];
        }
      }
      armed := false;
      DrainedOut(wire, passed, refused);
    }

    /** `decode_websocket_data_frame`: walks the frames of the receive buffer, unmasks them in place, appends their
        payloads to the decode buffer and checks unfragmented text. */
    method DecodeDataFrames(signedChar: bool) returns (flag: CloseFlag)
      requires recvBuffer.Length >= 2 && wbHeader == Header(recvBuffer[0], recvBuffer[1])
      requires Decoded(recvBuffer[..], decodeBuffer, signedChar) != OutOfBounds
      modifies this`decodeBuffer, this`wbHeader, this`isStreaming, recvBuffer
      ensures isStreaming == (old(isStreaming) || !Fin(old(wbHeader)))
      ensures match Decoded(old(recvBuffer[..]), old(decodeBuffer), signedChar)
              case Success(buffer, header) => flag == NoError && decodeBuffer == buffer && wbHeader == header
              case Failure(f, buffer) => flag == f != NoError && decodeBuffer == buffer && wbHeader == old(wbHeader)
              case OutOfBounds => false
    {
      hide Fin, Opcode, Walk, Utf8.Text;
      if !Fin(wbHeader) {
        isStreaming := true;
      }
      var ok, last := WalkFrames(signedChar);
      if !ok {
        return ProtocolError;
      }
      if Opcode(wbHeader) == TEXT && Fin(wbHeader) {
        var valid := Utf8.ValidateUtf8(decodeBuffer);
        if !valid {
          return InternalUtf8;
        }
      }
      wbHeader := last;
      return NoError;
    }

    /** The loop over the frames. */
    method WalkFrames(signedChar: bool) returns (ok: bool, header: Header)
      requires recvBuffer.Length >= 2 && Walk(recvBuffer[..], 2, wbHeader, decodeBuffer, signedChar) != OutOfBounds
      modifies this`decodeBuffer, recvBuffer
      ensures Walk(old(recvBuffer[..]), 2, wbHeader, old(decodeBuffer), signedChar)
           == if ok then Success(decodeBuffer, header) else Failure(ProtocolError, decodeBuffer)
    {
      hide WalkFrame, Masked, Fin, HasMask;
      ghost var data, w := recvBuffer[..], Walk(recvBuffer[..], 2, wbHeader, decodeBuffer, signedChar);
      var p: nat := 2;
      header := wbHeader;
      while true
        invariant p <= recvBuffer.Length && recvBuffer[p..] == data[p..]
        invariant Walk(data, p, header, decodeBuffer, signedChar) == w != OutOfBounds
        decreases recvBuffer.Length - p
      {
        var good, q, len := ReadHeader(p, header, signedChar, data);
        if !good {
          return false, header;
        }
        ghost var payload := if HasMask(header) then Masked(data[q..q + len], data[q - 4..q]) else data[q..q + len];
        ghost var round := WalkFrame(data, p, header, decodeBuffer, signedChar);
        UnmaskPayload(p, header, q, len, data);
        assert recvBuffer[q..q + len] == payload;
        decodeBuffer := decodeBuffer + recvBuffer[q..q + len];
        if Fin(header) || q >= recvBuffer.Length {
          return true, header;
        }
        var r := q + len;
        SuffixAt(recvBuffer[..], data, r);
        assert round == Next(r + 2, Header(data[r], data[r + 1]), decodeBuffer);
        header := Header(recvBuffer[r], recvBuffer[r + 1]);
        p := r + 2;
      }
    }

    /** Leaves the payload at `q` unmasked, if it was masked, and what follows it as it was received. */
    method UnmaskPayload(p: nat, header: Header, q: nat, len: nat, ghost data: seq<byte>)
      requires p <= q && q + len <= recvBuffer.Length == |data| && (HasMask(header) ==> p + 4 <= q)
      requires recvBuffer[p..] == data[p..]
      modifies recvBuffer
      ensures recvBuffer[q..q + len]
           == if HasMask(header) then Masked(data[q..q + len], data[q - 4..q]) else data[q..q + len]
      ensures recvBuffer[q + len..] == data[q + len..]
    {
      hide HasMask, Masked;
      Suffix(recvBuffer[..], data, p, q, q + len);
      Suffix(recvBuffer[..], data, p, q + len, |data|);
      if HasMask(header) {
        Suffix(recvBuffer[..], data, p, q - 4, q);
        var mask := recvBuffer[q - 4..q];
        ghost var before := recvBuffer[..];
        Unmask(recvBuffer, q, len, mask);
        Unmasked(before, recvBuffer[..], data, p, q, len, mask);
      }
    }

    /** The length and the bounds of the frame whose header ends at `p`. */
    method ReadHeader(p: nat, header: Header, signedChar: bool, ghost data: seq<byte>)
      returns (good: bool, q: nat, len: nat)
      requires p <= recvBuffer.Length == |data| && recvBuffer[p..] == data[p..]
      requires Walk(data, p, header, decodeBuffer, signedChar) != OutOfBounds
      ensures var round := WalkFrame(data, p, header, decodeBuffer, signedChar);
        if !good then round == Stop(Failure(ProtocolError, decodeBuffer))
        else
          && p <= q && q + len <= |data| && (HasMask(header) ==> p + 4 <= q)
          && var payload := if HasMask(header) then Masked(data[q..q + len], data[q - 4..q]) else data[q..q + len];
             if Fin(header) || q >= |data| then round == Stop(Success(decodeBuffer + payload, header))
             else q + len + 2 <= |data|
                  && round == Next(q + len + 2, Header(data[q + len], data[q + len + 1]), decodeBuffer + payload)
    {
      hide Masked, Fin, HasMask, PayloadRound, ReadLength, Len7, Num;
      var ok, first := true, p;
      ok, first, len := ReadPayloadLength(p, header, signedChar, data);
      if !ok {
        return false, p, len;
      }
      q := if HasMask(header) then first + 4 else first;
      assert WalkFrame(data, p, header, decodeBuffer, signedChar) == PayloadRound(data, q, len, header, decodeBuffer);
      PayloadCases(data, q, len, header, decodeBuffer);
      good := (len + 2) % TWO_64 <= recvBuffer.Length;
    }

    /** The length field of that header: absent, two bytes or eight. */
    method ReadPayloadLength(p: nat, header: Header, signedChar: bool, ghost data: seq<byte>)
      returns (good: bool, q: nat, len: nat)
      requires p <= recvBuffer.Length == |data| && recvBuffer[p..] == data[p..]
      requires Walk(data, p, header, decodeBuffer, signedChar) != OutOfBounds
      ensures var ext := Extension(header);
        if good then
          && (ext == 2 ==> |data| >= 4) && (ext == 8 ==> |data| >= 8) && q == p + ext && q <= |data|
          && len == if ext == 0 then Num(Len7(header)) else ReadLength(data[p..q], signedChar)
        else (ext == 2 && |data| < 4) || (ext == 8 && |data| < 8)
    {
      hide PayloadRound, ReadLength, Len7, Num, HasMask;
      q, len := p, 0;
      if Len7(header) < 0x7E {
        return true, p, Num(Len7(header));
      }
      var ext := if Len7(header) == 0x7E then 2 else 8;
      LongField(header);
      if recvBuffer.Length < (if ext == 2 then 4 else 8) {
        return false, p, 0;
      }
      assert p + ext <= |data|;
      Suffix(recvBuffer[..], data, p, p, p + ext);
      len := ReadLengthBytes(p, ext, signedChar);
      return true, p + ext, len;
    }

    method ReadLengthBytes(p: nat, ext: nat, signedChar: bool) returns (len: nat)
      requires p + ext <= recvBuffer.Length
      ensures len == ReadLength(recvBuffer[p..p + ext], signedChar)
    {
      hide CharValue, ShiftOr;
      len := 0;
      assert recvBuffer[p..p + 0] == [];
      for i := 0 to ext
        invariant len == ReadLength(recvBuffer[p..p + i], signedChar)
      {
        var next := ShiftOr(len, CharValue(recvBuffer[p + i], signedChar));
        assert recvBuffer[p..p + i + 1][..i] == recvBuffer[p..p + i];
        assert next == ReadLength(recvBuffer[p..p + i + 1], signedChar);
        len := next;
      }
    }
  }

  lemma PayloadCases(data: seq<byte>, q: nat, len: nat, h: Header, acc: seq<byte>)
    requires (HasMask(h) ==> 4 <= q) && PayloadRound(data, q, len, h, acc) != Stop(OutOfBounds)
    ensures (len + 2) % TWO_64 > |data| ==> PayloadRound(data, q, len, h, acc) == Stop(Failure(ProtocolError, acc))
    ensures (len + 2) % TWO_64 <= |data| ==>
      && q + len <= |data|
      && var payload := if HasMask(h) then Masked(data[q..q + len], data[q - 4..q]) else data[q..q + len];
         if Fin(h) || q >= |data| then PayloadRound(data, q, len, h, acc) == Stop(Success(acc + payload, h))
         else q + len + 2 <= |data|
              && PayloadRound(data, q, len, h, acc)
              == Next(q + len + 2, Header(data[q + len], data[q + len + 1]), acc + payload)
  {
    hide Masked, Fin, HasMask;
  }

  lemma LongField(h: Header)
    ensures Len7(h) >= 0x7E ==> Len7(h) == 0x7E || Len7(h) == 0x7F
  {
  }

  lemma DrainedOut(wire: seq<byte>, passed: seq<Item>, refused: bool)
    requires Conserved(wire, [], passed, refused)
    ensures !refused <==> wire == DataOf(passed)
  {
    assert wire + Concat([]) == wire;
  }

  lemma Suffix(a: seq<byte>, b: seq<byte>, p: nat, i: nat, j: nat)
    requires |a| == |b| && p <= i <= j <= |a| && a[p..] == b[p..]
    ensures a[i..j] == b[i..j]
  {
    assert forall k :: p <= k < |a| ==> a[k] == a[p..][k - p] && b[k] == b[p..][k - p];
  }

  lemma SuffixAt(a: seq<byte>, b: seq<byte>, r: nat)
    requires |a| == |b| && r + 2 <= |a| && a[r..] == b[r..]
    ensures a[r] == b[r] && a[r + 1] == b[r + 1] && a[r + 2..] == b[r + 2..]
  {
    assert a[r] == a[r..][0] && a[r + 1] == a[r..][1];
    Suffix(a, b, r, r + 2, |a|);
  }

  /** Unmasking one payload yields its bytes and leaves what follows as it was received. */
  lemma Unmasked(before: seq<byte>, after: seq<byte>, data: seq<byte>, p: nat, q: nat, len: nat, mask: seq<byte>)
    requires |before| == |data| && p <= q && q + len <= |data| && before[p..] == data[p..] && |mask| == 4
    requires after == before[..q] + Masked(before[q..q + len], mask) + before[q + len..]
    ensures |after| == |data| && after[q..q + len] == Masked(data[q..q + len], mask)
        && after[q + len..] == data[q + len..]
  {
    Suffix(before, data, p, q, q + len);
    Suffix(before, data, p, q + len, |data|);
    hide Masked;
  }
}
