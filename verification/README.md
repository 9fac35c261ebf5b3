# WebSocket server: a verified model

This project models the C++ WebSocket server of `websocket_decoder/` in Dafny and proves what its parts promise:

- `Slots`, `TimeWheels`: the hierarchical timing wheel (256 near slots, four levels of 64 slots), as a class whose 512
  lists, id index and clock change in place. `Timers` is the flat timer the wheel stands for, `TimerRuns` what the flat
  timer promises over whole runs, `WheelRuns` the refinement of whole runs.
- `ByteNums`, `Bytes`, `Frames`, `Unmasking`, `Utf8`: the frame codec of RFC 6455 (sections 5.2 to 5.4) and the UTF-8
  check (section 3 of RFC 3629).
- `Http`: the scanner of the opening request.
- `Clients`, `Servers`: one connected client, and the server with its registry, heartbeat tasks, event handlers and the
  set of clients that the application of `main.cpp` keeps.
- `ServerModel`, `ServerRuns`: the server as a pure state machine over its events (accepted connection, hang-up, bytes,
  writable socket, clock reading), and the proof that the server refines it over any sequence of events of any number of
  clients, together with what holds in every state that a new server reaches.

How state is modelled:

- A method whose effect matters to other parts states its whole effect: the wheel's methods give the new flat timer
  (`Abs()`) as a function of the old one, and the server's events give the new registry, the new fields of the clients
  they touch and the new flat timer; their `modifies` clauses name the fields that change.
- A client's history is kept in ghost fields: what was passed to `send_buffer`, what was written, the callbacks of the
  application, and the heartbeat callbacks that were answered with a ping.
- A list node never changes while it is in a list, so a list is a sequence of node values, and an iterator of the index
  is the node it points to. The node's `list` is the number of the list that holds it.
- The wheel's spin lock is the flag `locked`: `erase_task` returns without releasing it when the id is unknown. In the
  flat timer such a state is `stuck`, and no later operation takes effect.
- What goes over the wire and when timers fire is also stated in bytes and numbers, apart from the functions that the
  methods refine: frames (`Frames.FrameBytes`, `Frames.SendFrame`), accepted text (`Utf8.TextRanges`), the 101 response
  (`Http.ResponsePrinted`), pings and pongs, and due ticks (`TimerRuns.FirstCallback`, `TimerRuns.NextDue`).
- The signedness of `char` is a parameter, `signedChar`, because length bytes are read through `char`.
- Clock readings, accepted connections, the digest of the client's key, the number of bytes a socket write takes (any
  positive prefix, or a refusal) and the bytes of a close frame are inputs or left open.
- Operations run one at a time. A run passes over an event that cannot come (a socket accepted twice) or that the model
  leaves out: an opening request that is not well-formed, frames whose walk leaves the receive buffer, and a handshake
  once heartbeat ids need more than 32 bits.

Where the code does not do what its own design suggests, the model follows the code:

- A length byte with its top bit set is misread where `char` is signed: a payload of 128 to 253 bytes in the two-byte
  length form is a protocol error, and one of 254 or 255 bytes gets past the bounds test, whose sum wraps around, and
  leads the walk out of the buffer (`Frames.SignedCharPayload`). `Frames.Reassembly` and `Frames.SendRoundTrip` give the
  exact condition and the exact outcome. The server's events leave out all input on which the walk leaves the buffer, so
  on a platform with a signed `char` also such a frame of 254 or 255 bytes.
- A receive buffer that ends on a fragment boundary is walked past its end unless the last fragment is empty
  (`Frames.WalkUnfinished`).
- A task can be served more than once by one check (`TimerRuns.TwiceInOneCheck` says exactly when).
- A re-arm waits for less than its interval when the interval exceeds 2^32 ticks (`TimerRuns.RearmWaits`); a circle count
  of zero never ends (`TimerRuns.RoundsOverRuns`).
- A counted task that made its last callback is no longer pending, so erasing it by id leaves the lock held
  (`TimerRuns.EraseAfterLastRound`); an id of more than 32 bits is cut off by `erase_task` (`TimerRuns.EraseRemoves`).
- A refused write drops the rest of its message (`ServerRuns.FromStart`).
- The UTF-8 check accepts overlong forms, surrogates and values past the last code point (`Utf8.TextIsEncoding`).
- Bytes left in the decode buffer by frames that came too early or by a rejected message are put in front of the next
  message (`Clients.StaleBufferLeaks`, `Clients.RejectedTextLeaks`, `ServerModel.EarlyMessageLeaks`).

## Model

| member | source | states |
|---|---|---|
| Slots.LevelBranch | websocket_decoder/private/time_wheel.h:137-152 | an expiry between a level's scale and the next one's goes to a slot of that level within the 512 lists, inside the placement bound and outside the level's window that holds the clock |
| Slots.NearBranch | websocket_decoder/private/time_wheel.h:134-146 | an expiry less than 256 ticks ahead, or already past, goes to the near slot that is served at that tick, or next |
| Slots.DrainedWindow | websocket_decoder/private/time_wheel.h:195-204 | every node in a slot that is drained at tick `c` expires inside the window of that level starting at `c` |
| Slots.KeptOutsideWindow | websocket_decoder/private/time_wheel.h:167-172 | every node of a draining level in another slot expires after that window |
| Slots.ChainCondition | websocket_decoder/private/time_wheel.h:169-172 | the cascade chain goes on to the next level exactly when all clock bits below that level's shift are zero |
| Slots.Advance | websocket_decoder/private/time_wheel.h:174-177 | after draining, the near slot of the tick holds exactly the due nodes, and all others stay well placed for the next tick |
| TimeWheels.AppendKeepsIndex | websocket_decoder/private/time_wheel.h:155-160 | appending a node and pointing its id at it keeps the index a bijection with the stored nodes, each knowing its list |
| TimeWheels.TakeKeepsIndex | websocket_decoder/private/time_wheel.h:195-197 | moving a list out takes exactly the ids whose node names that list |
| TimeWheels.RemoveKeepsIndex | websocket_decoder/private/time_wheel.h:101-102 | erasing a node from its list and its id from the index keeps the bijection |
| TimeWheels.ChainEnds | websocket_decoder/private/time_wheel.h:169-172 | where a level's window does not start, no higher slot needs draining, so the short-circuit loses nothing |
| TimeWheels.CascadeKeepsTasks | websocket_decoder/private/time_wheel.h:195-204 | cascading changes no task's due tick, interval or count |
| TimeWheels.TimeWheel.constructor | websocket_decoder/private/time_wheel.h:53-65 | a new wheel stands for the flat timer without tasks |
| TimeWheels.TimeWheel.ChooseList | websocket_decoder/private/time_wheel.h:133-153 | with `size_t` wrap-around and clamp, the chosen list obeys the placement bound and the stored expiry is served at the clamped, never past, due tick |
| TimeWheels.TimeWheel.AddNode | websocket_decoder/private/time_wheel.h:133-161 | the node is appended to its list and indexed, nothing else changes |
| TimeWheels.TimeWheel.AddTask | websocket_decoder/private/time_wheel.h:80-92 | adds exactly one flat task, under a new id, due at the time of the call plus expiry and delay, or plus the delay alone if immediate, kept between the clock and 2^32 - 1 ticks ahead of it |
| TimeWheels.TimeWheel.EraseTask | websocket_decoder/private/time_wheel.h:94-105 | removes exactly the task of the 32-bit key; the lock is released exactly when there was one |
| TimeWheels.TimeWheel.Cascade | websocket_decoder/private/time_wheel.h:195-204 | drains one slot: its nodes move to strictly lower levels with all else unchanged, no other node moves; reports whether the slot number is not zero |
| TimeWheels.TimeWheel.CascadeChain | websocket_decoder/private/time_wheel.h:167-172 | a slot is drained if and only if it is the current one of a level whose lower clock bits are all zero |
| TimeWheels.TimeWheel.ServeNode | websocket_decoder/private/time_wheel.h:180-190 | one moved-out node is dropped from the index exactly when its count is one, and otherwise put back, due its interval after the clock reading, kept between the clock and 2^32 - 1 ticks ahead of it |
| TimeWheels.TimeWheel.Serve | websocket_decoder/private/time_wheel.h:176-191 | each moved-out node makes one callback and is re-armed, or dropped from the index on its last round |
| TimeWheels.TimeWheel.Tick | websocket_decoder/private/time_wheel.h:167-191 | one round of the loop is one tick of the flat timer: exactly the tasks due now fire, once each |
| TimeWheels.TimeWheel.Check | websocket_decoder/private/time_wheel.h:163-193 | a check is all flat ticks up to the clock reading |
| WheelRuns.Replay | websocket_decoder/private/time_wheel.h:80-204 | any sequence of adds, erases and checks on the wheel refines the same sequence on the flat timer |
| WheelRuns.ReachableSound | websocket_decoder/private/time_wheel.h:80-204 | every state reached from a new wheel is one from which the run theorems below apply |
| TimerRuns.RunSound | websocket_decoder/private/time_wheel.h:163-193 | in every reachable state no pending task is overdue, callbacks of one id come at strictly increasing past ticks, and none follows a final one |
| TimerRuns.ServedAtDueTick | websocket_decoder/private/time_wheel.h:133-193 | over every run that does not erase it, a pending task is untouched until its due tick and served exactly once, at that tick |
| TimerRuns.FirstCallback | websocket_decoder/private/time_wheel.h:80-92 | over every run that does not erase it, a new task is called first at the tick it was added for, a past one at the next tick, one too far ahead 2^32 - 1 ticks later; until then it is pending and not called |
| TimerRuns.FirstCallbackFromStart | websocket_decoder/private/time_wheel.h:53-92 | on a new timer, a check that reads an earlier tick does not call an added task, one that reads its tick or a later one has called it, first at that very tick |
| TimerRuns.NextDue | websocket_decoder/private/time_wheel.h:182-189 | a check that serves a task with rounds left sets it to be due next at the clock reading plus its interval, or 2^32 ticks after its due tick where that comes first, as long as this lies after the check; it calls it once and takes one off its count |
| TimerRuns.EveryTick | websocket_decoder/private/time_wheel.h:182-189 | a task without end and with an interval below one tick is called at its due tick and then at every tick that the check still reaches from the one its interval asks for |
| TimerRuns.CheckReaches | websocket_decoder/private/time_wheel.h:163-176 | a check processes exactly the ticks up to the clock reading |
| TimerRuns.RoundsOverRuns | websocket_decoder/private/time_wheel.h:182-190 | over every run that does not erase it, a task of count n fires at most n times, is done exactly on the n-th and pending before; one of count zero or `FULL_CIRCLE` is never done; firings are at least the interval apart, up to the clamp |
| TimerRuns.RearmWaits | websocket_decoder/private/time_wheel.h:148-151 | a re-arm waits its full interval if and only if the interval is at most 2^32 ticks |
| TimerRuns.TwiceInOneCheck | websocket_decoder/private/time_wheel.h:163-193 | a check that serves a task serves it again if and only if the task has rounds left and either its interval is below one tick and the check is late, or the clamp cut its wait short within the check |
| TimerRuns.OncePerCheck | websocket_decoder/private/time_wheel.h:163-193 | with an interval of at least one tick, a check less than 2^32 ticks behind serves no task twice |
| TimerRuns.EraseRemoves | websocket_decoder/private/time_wheel.h:94-105 | erasing a pending id removes that task and nothing else if and only if the id fits 32 bits |
| TimerRuns.ApplyPaced | websocket_decoder/private/time_wheel.h:80-193 | if every task ever added has an interval of at least g ticks (g up to 2^32), the callbacks of every id, erased or not, stay at least g ticks apart under every operation |
| TimerRuns.EraseAfterLastRound | websocket_decoder/private/time_wheel.h:97-100 | on every run that is not stuck, erasing a counted task by its id leaves the lock held if and only if it has made all its callbacks |
| Utf8.ValidateUtf8 | websocket_decoder/websocket_server.cpp:358-390 | accepts exactly the concatenations of lead bytes each followed by the announced number of continuation bytes |
| Utf8.CharacterRanges | websocket_decoder/websocket_server.cpp:362-386 | a character is one to four bytes, the first below 0x80, in 0xC0..0xDF, in 0xE0..0xEF or in 0xF0..0xF7 and every later one in 0x80..0xBF |
| Utf8.TextRanges | websocket_decoder/websocket_server.cpp:358-390 | a string is accepted if and only if it is empty or bytes in those ranges followed by an accepted string |
| Utf8.Rejections | websocket_decoder/websocket_server.cpp:376-390 | after an accepted text, a first byte in 0x80..0xBF or from 0xF8 on, a cut-off character and one interrupted by a byte outside 0x80..0xBF are rejected, whatever follows |
| Utf8.TextPrefix | websocket_decoder/websocket_server.cpp:358-390 | after an accepted text, what follows is judged on its own, so acceptance is closed under concatenation |
| Utf8.ValueInDigits | websocket_decoder/websocket_server.cpp:362-386 | the code point of a character is the number whose digits to the base 64 its bytes hold above the start of their range |
| Utf8.EncodedTextAccepted | websocket_decoder/websocket_server.cpp:358-390 | the RFC 3629 encoding of every sequence of scalar values is accepted |
| Utf8.CharacterIsEncoding | websocket_decoder/websocket_server.cpp:362-386 | an accepted character is an RFC 3629 encoding if and only if it spells a scalar value in the shortest form |
| Utf8.TextIsEncoding | websocket_decoder/websocket_server.cpp:358-390 | an accepted text is the RFC 3629 encoding of some sequence of scalar values if and only if every one of its characters spells a scalar value in the shortest form |
| Utf8.OverlongAccepted | websocket_decoder/websocket_server.cpp:362-386 | the overlong form of NUL is accepted although no scalar value is encoded so |
| Frames.HeaderBits | websocket_decoder/websocket_server.h:47-78 | final bit, opcode, mask bit and length field are read back as they were written |
| Frames.FrameBytes | websocket_decoder/websocket_server.cpp:297-337 | a frame byte by byte: final bit, reserved bits and opcode; mask bit and 7-bit field; no, two or eight length bytes spelling the length with the highest first; key; payload, each byte XORed with the key byte of its position |
| Frames.LengthRoundTrip | websocket_decoder/websocket_server.cpp:302-314 | the byte-shifting reader inverts the big-endian writer on bytes the platform reads as unsigned |
| Frames.DirtyLength | websocket_decoder/websocket_server.cpp:305-313 | where `char` is signed, a length byte with its top bit set makes the length read close to 2^64 |
| Frames.MaskTwice | websocket_decoder/websocket_server.cpp:322-337 | unmasking twice with one key restores the payload |
| Unmasking.Unmask | websocket_decoder/websocket_server.cpp:322-337 | the in-place loop over 32-bit words and the tail loop XOR every payload byte with the key byte of its position and change nothing else |
| Frames.WalkMessage | websocket_decoder/websocket_server.cpp:297-347 | where every length is read right, the walk over a message's frames yields all payloads in order and the final header |
| Frames.WalkMisread | websocket_decoder/websocket_server.cpp:302-319 | otherwise the walk stops at the first misread frame, with the payloads before it: a protocol error, or out of bounds when the length reads as 2^64 - 2 or more and the bounds test wraps around |
| Frames.WalkUnfinished | websocket_decoder/websocket_server.cpp:339-347 | a buffer ending on a fragment boundary stays in bounds if and only if its last fragment is empty |
| Frames.DecodedInside | websocket_decoder/websocket_server.cpp:297-347 | whether decoding a buffer stays in bounds does not depend on what was decoded before it |
| Frames.Reassembly | websocket_decoder/websocket_server.cpp:287-356 | for every split into frames, length form and keys, decoding appends exactly the message and keeps the final header, if and only if lengths are read right and unfragmented text is UTF-8; otherwise the outcome is that of the first misread frame, or the rejection of the text with the buffer it leaves |
| Frames.SendFrame | websocket_decoder/websocket_server.cpp:136-163 | builds 0x81, then the size, or 0x7E and two bytes, or 0x7F and eight bytes that spell it with the highest first and no mask bit, then the payload: the final, unmasked text frame in the shortest length form |
| Frames.SendIsShortest | websocket_decoder/websocket_server.cpp:143-156 | no other well-formed frame with the same payload, masked or not, is shorter |
| Frames.SendRoundTrip | websocket_decoder/websocket_server.cpp:136-163 | decoding what was sent gives the payload back if and only if it is UTF-8 and its length is read right |
| Frames.SignedCharPayload | websocket_decoder/websocket_server.cpp:305-319 | with a signed `char`, a sent payload of 128 to 253 bytes is a protocol error and one of 254 or 255 bytes leads the walk out of the buffer |
| Clients.Client.DecodeDataFrames | websocket_decoder/websocket_server.cpp:287-356 | the in-place decoder computes the outcome that the frame layout prescribes, in decode buffer, header and close flag |
| Http.DecodeHttpHeader | websocket_decoder/http_server.cpp:16-71 | on every well-formed request, whatever follows it, the scan stays in bounds, enters method, path and headers in order, and succeeds if and only if no key or value is empty |
| Http.FirstEntryWins | websocket_decoder/http_server.cpp:28-64 | the map keeps what was there before and else the first entry of each name |
| Http.HeadersRecovered | websocket_decoder/http_server.cpp:16-71 | scanning inverts printing: method, path and the first header of every other name, and nothing else |
| Http.PrintedBytes | websocket_decoder/http_server.cpp:16-71 | the printed form that the scanner inverts, with its separators 0x20, 0x3A 0x20 and 0x0D 0x0A |
| Http.AsciiBytes | websocket_decoder/websocket_server.cpp:206-216 | the bytes of header names and values have the numbers of their characters |
| Http.HandshakeDecision | websocket_decoder/websocket_server.cpp:206-220 | the handshake of a new client is accepted if and only if the first `Upgrade` and `Connection` headers of its request ask for a WebSocket and a key is given |
| Http.ResponsePrinted | websocket_decoder/websocket_server.cpp:240-246 | the response is the printed form of `HTTP/1.1`, `101`, `Switching Protocols` with the headers `Upgrade: websocket`, `Connection: Upgrade` and `Sec-WebSocket-Accept` with the accept key |
| Http.ResponseRecovered | websocket_decoder/websocket_server.cpp:240-246 | scanning the response gives back the status 101, both headers that confirm the upgrade, and exactly the accept key |
| Clients.MessagesIsolated | websocket_decoder/websocket_server.cpp:174-183 | from an empty decode buffer, whole messages, one per batch and mixed with pings and pongs, are received as exactly their payloads in order and leave the buffer empty (`ServerRuns.Converse` carries this to the server's runs) |
| Clients.AbsorbMessage | websocket_decoder/websocket_server.cpp:51-101 | a whole message is put behind what the decode buffer held, and handed on if and only if it is not unfragmented text or the two together are UTF-8 |
| Clients.AbsorbFragments | websocket_decoder/websocket_server.cpp:51-101 | fragments that leave their message to be continued go behind what the decode buffer held, and nothing is handed on |
| Clients.AbsorbMisread | websocket_decoder/websocket_server.cpp:51-101 | when a misread length is reported as an error, the payloads before it stay in the decode buffer and nothing is handed on |
| Clients.ReceiveMessage | websocket_decoder/websocket_server.cpp:86-100 | for a connected client such a message is handed on with what the buffer held in front and the buffer is emptied, or rejected and kept |
| Clients.StaleBufferLeaks | websocket_decoder/websocket_server.cpp:174-183 | any whole message is received alone if and only if the decode buffer was empty before and the message is not rejected as text |
| Clients.RejectedTextLeaks | websocket_decoder/websocket_server.cpp:348-352 | an unfragmented text rejected as not UTF-8 comes back in front of the next message, or is rejected with it |
| Clients.Client.SendBuffer | websocket_decoder/tcp_server.cpp:180-186 | queues the bytes, registers write interest and keeps output conservation |
| Clients.Client.Drain | websocket_decoder/tcp_server.cpp:120-149 | terminates with an empty queue and no write interest; everything ever passed is on the wire, in order, if and only if no write was refused |
| Servers.EndlessCheck | websocket_decoder/private/time_wheel.h:182-186 | a check keeps all tasks without end and calls only their callbacks |
| Servers.Server.Accept | websocket_decoder/tcp_server.cpp:71-86 | registers a new client in the first state under its socket |
| Servers.Server.HangUp | websocket_decoder/tcp_server.cpp:65-69 | removes the client from registry and application set, erases its heartbeat task from the flat timer, and changes nothing else of it |
| Servers.Server.CloseClient | websocket_decoder/tcp_server.cpp:248-258 | removes exactly this client, and the flat timer loses exactly its heartbeat task |
| Servers.Server.CloseWebsocketClient | websocket_decoder/websocket_server.cpp:107-125 | queues one close frame and erases the client's heartbeat task from the flat timer, the client staying registered |
| Servers.Server.ShakeHands | websocket_decoder/websocket_server.cpp:206-226 | a good request gets exactly the 101 response with the accept key, waits for it and, with heartbeats on, one task without end; any other gets a close frame |
| Servers.Server.DecodeFrames | websocket_decoder/websocket_server.cpp:51-101 | what each kind of batch does to decode buffer, output, heartbeat, flat timer and registry, and whether the receive callback is due; a ping (first byte ending in 0x9) is answered with the bytes 0x8A 0x00, a pong with nothing, a first close frame with one |
| Servers.Server.OnData | websocket_decoder/tcp_server.cpp:87-113 | the effect of a batch in each connection state, on this client only, and on the flat timer; messages are handed on and echoed only when connected; control frames are answered as in `DecodeFrames`, and exactly a first close frame ends the registration |
| Servers.Server.OnWritable | websocket_decoder/tcp_server.cpp:114-153 | writes the queue; the first write after the handshake connects the client and greets every connected client once |
| Servers.Server.OnHeartbeats | websocket_decoder/websocket_server.cpp:256-261 | the flat timer is checked, each new callback queues the bytes 0x89 0x00 at its own client, which is live, and no other field changes |
| Servers.ControlBatches | websocket_decoder/websocket_server.cpp:51-101 | by the first byte: which batches close the connection, which leave the decode buffer alone, and which are decoded as data |
| Servers.MessageAnswer | websocket_decoder/websocket_server.cpp:51-101 | of all whole messages only rejected text is answered at once, with a close frame |
| Servers.HelloBytes | websocket_decoder/main.cpp:27-37 | the greeting on the wire is 0x81 0x0B and `hello world` |
| ServerModel.RunHeard | websocket_decoder/tcp_server.cpp:87-113 | over any run that does not end its connection, a connected client stays connected and is handed exactly the messages of its own batches, whatever other clients do in between |
| ServerModel.RunIsolated | websocket_decoder/websocket_server.cpp:174-183 | over such a run, from an empty decode buffer, a peer's whole messages reach the application as exactly their payloads in order |
| ServerModel.EarlyMessageLeaks | websocket_decoder/websocket_server.cpp:174-201 | a whole message that comes before the 101 response is written is not handed on, and comes back in front of the first message after it |
| ServerRuns.Step | websocket_decoder/tcp_server.cpp:54-153 | each event takes the server as the state machine's step takes the model: registry, connection states, headers, decode buffers, callbacks, everything sent, and the flat timer |
| ServerRuns.Replay | websocket_decoder/tcp_server.cpp:36-158 | any sequence of events refines the same run of the state machine; states only move forward and histories only grow; the wheel is checked once per clock reading; a client that keeps its heartbeat is pinged exactly at the due ticks of its task |
| ServerRuns.Converse | websocket_decoder/websocket_server.cpp:174-183 | the application's calls for a connected client with an empty decode buffer are exactly its peer's whole messages, in order, with the events of other clients interleaved |
| ServerRuns.FirstPing | websocket_decoder/websocket_server.cpp:256-261 | a client that keeps the heartbeat of its handshake is pinged first at the tick 3000 after the handshake's time, not before and not later, whatever events follow |
| ServerRuns.PingPeriod | websocket_decoder/websocket_server.cpp:256-261 | when a clock reading finds a client's heartbeat due, it is pinged once, and next, as long as it keeps its heartbeat, at the tick 3000 after that reading |
| ServerRuns.FromStart | websocket_decoder/tcp_server.cpp:36-158 | in every state reached from a new server: the model's state; the application's set is the connected clients; heartbeat tasks and stored ids agree and erasing one never leaves the lock held; written plus queued bytes are the bytes passed exactly when no write was refused; one 101 response comes before every application message and one connected callback before every receive callback; pings to one client are at least 3000 ticks apart |

## Left out

- Expiry tasks (`time_wheel_id_`): adding them, firing them and erasing them on a pong or in the destructor are not part of this model, because a second close frame overwrites the id of the first task and a fired task's id is erased again by the destructor, so that no stored id is known to be pending; so a close frame in answer to the server's own leaves the client as it is and the wheel of a server holds heartbeat tasks only.
- Concurrency inside one wheel operation: `current_`, `tv_` and `id_map_` are also touched outside the lock; the claims are for operations that run one at a time.
- Callbacks that add or erase tasks while a check is under way: a callback is an entry in the wheel's log, and the server serves the new entries after the check.
- The order of tasks due on one tick: cascading does not keep it, and the flat timer does not fix it.
- Wrap-around of the 64-bit id counter, and heartbeat ids of more than 32 bits in the server.
- `stop_time_wheel`, the sleeping loop and thread affinity: they have no effect on the state of the wheel.
- Reads past the receive buffer: the decoder is specified on input on which the source stays in bounds, which `Frames.StaysInside` decides (a misread length of 2^64 - 2 or more is not such input); the terminating NUL that a string keeps behind its bytes counts as outside.
- Payloads of 2 GiB and more, where the unmasking loop's `int` counters overflow.
- ServerRuns.Step: passes over opening requests that are not well-formed text, frames whose walk leaves the receive buffer, and handshakes once heartbeat ids need more than 32 bits, because the source's result there is undefined or lies outside the other limits listed here.
- Servers.Server.SendClose: does not model the bytes of the close frame, because the source builds them from a header that is not NUL-terminated and one narrowed character.
- Error paths of the event loop: end of stream together with data, failing receives, writes that return zero or fail for good, and uses of a client after it was deleted.
- Http.DecodeHttpHeader: does not cover malformed text, on which the source has no bounds to stop at.
- SHA-1 and base64 of the accept key, client ids, addresses, logging, sockets and epoll: foreign calls.
- The plain TCP and HTTP servers as applications of their own, and the destructors of the servers.
- The Qt client of `tcp_connector/` and the build files.
