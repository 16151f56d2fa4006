# A verified model of h9d

h9d is a CAN-bus daemon: clients talk to it over TCP, it talks to nodes over one or more CAN
interfaces. Its difficult part is a handful of small concurrent state machines joined by
byte-level codecs. This project models them, joins those that work together, and proves what they are for.

`dafny verify dfyconfig.toml` checks everything (Dafny 4.11).

| file | what it models |
|---|---|
| `Common.dfy` | integer ranges, division facts, network byte order |
| `Frames.dfy` | the frame, its 29-bit identifier, its 13-byte serialised form, the `H9Frame` object |
| `HexText.dfy` | hexadecimal text, as printed with leading zeros and as `std::stoi` reads it |
| `Slcan.dfy` | the SLCAN text codec and the serial driver that reassembles it from reads |
| `Tcp.dfy` | length-prefixed messages over TCP: the resumable receiver, the sender |
| `Bus.dfy`, `BusObjects.dfy` | the send / acknowledge / forward engine, as a machine of interleaved steps and as objects sharing references |
| `Contents.dfy` | what is in the frames the bus holds and hands out, over whole runs |
| `Correlation.dfy`, `CorrelationObjects.dfy` | the frame comparator and the promise whose sequence number becomes known late |
| `Requests.dfy` | requests and replies, on top of the numbers a bus hands out |
| `Serial.dfy` | the serial driver joined to the bus engine: what it reads is what the engine is told |
| `EndToEnd.dfy` | requests joined to the bus engine: clients, bus thread, drivers and node in one system |
| `IntelHex.dfy`, `Uploader.dfy`, `Flashing.dfy` | loading an Intel HEX file, the host half of the page protocol, and both against a bootloader |
| `Registers.dfy` | integer registers on the wire |
| `Workers.dfy`, `ClientQueue.dfy` | a semaphore-guarded work queue and an edge-triggered notification queue |
| `Metrics.dfy`, `MetricNames.dfy` | the JSON tree built from counters, and the dotted names cut into its paths |

## How it is built

Each concurrent part is a value-level state machine: a datatype for the shared state, an event
per atomic step cut at the lock boundaries, and history fields that record what was pushed,
handed out or acknowledged. Invariants are proved of every step, so the results hold for every
interleaving. Beside the machine stand the program's objects, as classes whose methods change
fields in place; each method is proved to be one or more steps of the machine. Sequential code
with loops is written with loops and proved against a function on the inputs.

Modelling decisions:

- Field widths and frame type numbers are those of doc/Frame.md, but for BOOTLOADER_TURNED_ON (see
  below); the header that defines them is not part of this model. Unsigned arithmetic is written
  with explicit remainders.
- A read from a socket or a serial line returns an arbitrary amount of what is in flight. The
  kernel's choices are the list `grants` in `Tcp`, the chunks of text in `Slcan`.
- The asynchronous event is a flag that `wait` consumes (it is edge-triggered); sockets are
  level-triggered.
- A promise is the list of values it has been given, so that setting it twice would show.
- Undefined behaviour and thrown exceptions appear as flags or constructors (`Fault`, `aborted`,
  `overrun`, `emptyFront`, `overflow`, `assertFailed`), and are proved not to arise, or excluded
  by a hypothesis that says so.

## What is proved false, and exactly when

- `send` reports success after a partial write of the length prefix without sending the rest of
  it. It succeeds exactly if its first write takes something and the following ones take the whole
  text (`Tcp.SendSucceeds`); what it has then written is the message's wire form if and only if the
  first write took the whole prefix (`Tcp.SentIsWire`). With the text `[7]` and writes taking 2 and 1
  bytes it returns 1 with `[0, 0, 7]` on the wire (`Tcp.HalfALength`). `recv` returns 0, "closed",
  for an empty message and cuts a message at a NUL: delivery is exact if and only if there is
  neither (`Tcp.DeliveredExactly`).
- Sequence numbers are taken modulo 32. Futures hold only replies to their own requests, in
  every run, if and only if late replies and promise lifetimes together span at most 32 numbers
  (`Requests.WindowIsExact`).
- When one `wait` reports a client's socket and its asynchronous event together, only the socket
  is served and the event is used up. Messages are then stranded for good; this happens if and
  only if some wait reported both (`ClientQueue.StrandedIffBoth`, `ClientQueue.StrandedForever`).
  It takes one message pushed before the wait (`ClientQueue.OneIsStranded`).
- The HEX reader never moves backwards. Records land at their addresses if and only if the
  addresses ascend (`IntelHex.InPlaceIffAscending`, `IntelHex.DescendingIsMisplaced`).
- A counter put into an empty metrics tree is found again under its name if and only if the name
  ends in an untagged segment and no segment repeats the argument of the tag before it
  (`Metrics.FoundIffProper`). Under `a[b=c]` the value takes the place of the tagged item, and the
  name leads nowhere (`Metrics.TaggedEndIsLost`).
- `send_frame` returns once every endpoint has settled the frame, if the bus has an endpoint at all
  (`Bus.Completion`, `Bus.SendFrameReturns`); with none it never returns
  (`Bus.NobodyToAcknowledge`), although the frame is dequeued (`Bus.OneFrameToNobody`).

Where code and documentation disagree the code is followed:

- src/bus_driver/slcan_driver.h speaks of `z`/`Z` acknowledgements; the code takes a bare CR or BELL.
- src/bus_driver/bus_driver.h says the driver assigns sequence numbers; src/h9d/bus.cc does.
- doc/Frame.md lists BOOTLOADER_TURNED_ON as a broadcast, always numbered 0, with eight data
  bytes. In src/common/h9_frame.h it is the fifth enumerator, among the unicast types, and
  src/h9d/bus.cc counts it among the types that take a sequence number: here it is type 4.
  src/h9fwupload/firmware_uploader.cc expects five bytes of it (for its banner only).
- The Intel HEX specification ends a file at a type 01 record; the reader ignores such records.

## Model

| member | source | states |
|---|---|---|
| Frames.CanIdThenBack | src/common/h9_frame.cc:69-101 | setting a frame's identifier from `can_id()` of f gives back f's identity if and only if f's fields fit their bit widths; dlc and data are untouched |
| Frames.BackThenCanId | src/common/h9_frame.cc:69-101 | every 29-bit value is the identifier of the frame it decodes to, and that frame's fields fit |
| Frames.Layout | src/common/h9_frame.cc:69-101 | where the fields lie in the identifier, bit by bit; a frame is a broadcast exactly if bit 28 is set |
| Frames.ByteRouteIsWordRoute | src/common/h9_frame.cc:122-150 | the byte-sliced `deserialize` agrees with assembling the 32-bit word first, on any 13 bytes; the data length is capped at 8 |
| Frames.SerializeRoundTrip | src/common/h9_frame.cc:103-150 | `deserialize` of `serialize` returns every field meaningful for the frame's kind if and only if the fields fit and dlc is at most 8; the data bytes always return |
| Frames.H9Frame.GetCanId | src/common/h9_frame.cc:69-87 | shifting the masked fields in one after another gives the packed identifier |
| Frames.H9Frame.SetCanId | src/common/h9_frame.cc:89-101 | unpacks in place; only the fields of the decoded kind change |
| Frames.H9Frame.Serialize | src/common/h9_frame.cc:103-120 | identifier in network order, dlc, eight data bytes |
| Frames.H9Frame.Deserialize | src/common/h9_frame.cc:130-150 | loads the object from 13 bytes, in place, without going through the identifier |
| Frames.H9Frame.SetData | src/common/h9_frame.cc:192-201 | takes at most eight bytes, their number becomes the dlc, later bytes stay |
| HexText.HexRoundTrip | src/bus_driver/slcan_driver.cc:87-100 | zero-padded hexadecimal of any number that fits the width reads back as that number |
| HexText.StoiOfDigits | src/bus_driver/slcan_driver.cc:106-119 | text made of hexadecimal digits only is read as their value, up to the largest int |
| HexText.DigitsAre | src/bus_driver/slcan_driver.cc:106-119 | the digits are sixteen characters in either case, each with its value, and nothing else is one |
| HexText.FormIsRead | src/bus_driver/slcan_driver.cc:106-119 | blanks, a sign or none, 0x or nothing, digits as far as they go, anything after: `std::stoi` returns the signed value, or throws when it is no int |
| HexText.ReadHasForm | src/bus_driver/slcan_driver.cc:106-119 | every text it reads has that form, so on all others it throws |
| HexText.CapitalsRead | src/bus_driver/slcan_driver.cc:106-119 | any text is read alike in capitals and in small letters |
| Slcan.BuildSlcanMsg | src/bus_driver/slcan_driver.cc:87-100 | the formatting loop writes T, eight identifier digits, the length digit, two digits a byte and CR |
| Slcan.ParseSlcanMsg | src/bus_driver/slcan_driver.cc:102-124 | the parsing loop computes the specified parse on any text: too short texts, fields that `std::stoi` reads in its own way (blanks, sign, 0x, digit prefix), and those on which it throws |
| Slcan.TextRoundTrip | src/bus_driver/slcan_driver.cc:87-124 | for every well-formed frame with dlc at most 8, parsing the built message returns the same identifier, dlc and first dlc data bytes, whatever memory held before |
| Slcan.CapitalsParsed | src/bus_driver/slcan_driver.cc:102-124 | any message is parsed alike in capitals, so the round trip holds for these too |
| Slcan.CutShortIs | src/bus_driver/slcan_driver.cc:102-124 | a built message with data digits missing at its end: with two or more it is too short; with one its last byte is the digit that is there |
| Slcan.NoLength | src/bus_driver/slcan_driver.cc:103-107 | under ten characters a message is too short; at ten, without a length digit, it throws |
| Slcan.TooManyBytes | src/bus_driver/slcan_driver.cc:107-117 | a length digit over 8 is a fault exactly if the message is as long as it says |
| Slcan.NegativeByte | src/bus_driver/slcan_driver.cc:114-117 | a data byte written with a minus sign counts from 256 down |
| Slcan.NegativeIdentifier | src/bus_driver/slcan_driver.cc:106-122 | an identifier written with a minus sign counts from 2^32 down |
| Slcan.SplitIsTheSplit | src/bus_driver/slcan_driver.cc:137-144 | a text is cut after each CR or BELL and nowhere else, and nothing is lost |
| Slcan.StreamIsSplitOnce | src/bus_driver/slcan_driver.cc:126-196 | feeding a stream byte by byte has the effect of splitting it once at CR/BELL and handling the messages in order; the unfinished rest stays buffered |
| Slcan.ChunkingIsIrrelevant | src/bus_driver/slcan_driver.cc:126-153 | two chunkings of the same stream leave the driver in the same state, frames, acknowledgements and faults included |
| Slcan.FeedChunksIsFeedAll | src/bus_driver/slcan_driver.cc:126-153 | reading in chunks equals reading the joined stream |
| Slcan.WireEndToEnd | src/bus_driver/slcan_driver.cc:87-196 | any list of well-formed frames, written as text and read back in any chunks, arrives complete, in order, and with no acknowledgement made up |
| Slcan.MixedStream | src/bus_driver/slcan_driver.cc:126-196 | frames, CR and BELL verdicts and answers of other kinds in any order, read in any chunks: the frames arrive complete and in order, as many verdicts as sends are outstanding are passed on, in order, CR as success and BELL as failure, and nothing else has an effect |
| Slcan.CaseIsIrrelevant | src/bus_driver/slcan_driver.cc:126-196 | any stream has the same effect in capitals |
| Slcan.MalformedFed | src/bus_driver/slcan_driver.cc:186-195 | a malformed message is dropped if it is too short and ends in CR, and otherwise stops the process |
| Slcan.QueueOnlyGrows | src/bus_driver/slcan_driver.cc:171-196 | frames already decoded never influence decoding; new ones are appended behind them |
| Slcan.SlcanDriver.SendData | src/bus_driver/slcan_driver.cc:155-169 | puts on the line as much of the built message as the port takes, and counts one more outstanding send unless it takes nothing; the number taken is returned |
| Slcan.SlcanDriver.ParseBuf | src/bus_driver/slcan_driver.cc:171-196 | a bare CR or BELL acknowledges only while sends are outstanding; a T message yields a frame with the driver's name; a malformed one is dropped, or throws: when a number cannot be read, and when it is too short and ends in BELL |
| Slcan.SlcanDriver.RecvData | src/bus_driver/slcan_driver.cc:126-153 | reads the port only when no decoded frame waits, and says whether more frames are buffered |
| Slcan.SlcanDriver.ReceiveLoop | src/h9d/bus.cc:144-167 | the bus's receive loop returns every frame of one read in order and leaves the driver's queue empty |
| Slcan.SlcanDriver.ReceiveAll | src/h9d/bus.cc:138-173 | over all reads the frames come out as if the joined stream had been decoded, none stranded |
| Tcp.RecvStepFrames | src/common/tcp_socket.cc:133-191 | one call of `recv` either delivers the first message still due, taking not a byte more, or keeps the exact partial state for the next call |
| Tcp.RecvStepProgress | src/common/tcp_socket.cc:133-191 | a call with bytes in flight uses up what the kernel granted, so retrying ends |
| Tcp.NothingInFlight | src/common/tcp_socket.cc:133-191 | with nothing in flight, `recv` returns 0 exactly if the peer has closed, and else that there is nothing now, keeping what it has |
| Tcp.UpToNul | src/common/tcp_socket.cc:186-190 | the text delivered is what precedes the first NUL |
| Tcp.Framing | src/common/tcp_socket.cc:133-191 | under every fragmentation, split headers and would-block results included, retrying delivers a prefix of the sent messages, in order, and all of them up to the first empty one once everything has been read |
| Tcp.DeliveredExactly | src/common/tcp_socket.cc:133-191 | reading the stream to its end delivers exactly the sent messages if and only if none is empty and none contains a NUL |
| Tcp.SentIsWire | src/common/tcp_socket.cc:193-218 | when `send` reports success, what it has written is the message's wire form if and only if its first write took the whole length prefix |
| Tcp.SendSucceeds | src/common/tcp_socket.cc:193-218 | it reports success exactly if the first write takes something and the writes after it, up to the first refusal, take the whole text; and then the whole text follows what was taken of the prefix |
| Tcp.HalfALength | src/common/tcp_socket.cc:200-217 | an input on which it reports success with half of the prefix missing |
| Tcp.TCPSocket.Recv | src/common/tcp_socket.cc:133-191 | the resumable receiver over the header and data buffers is the specified step; no write falls outside either buffer |
| Tcp.TCPSocket.RecvData | src/common/tcp_socket.cc:168-191 | the half entered with a complete header |
| Tcp.TCPSocket.Finish | src/common/tcp_socket.cc:186-190 | the completed message is terminated, copied out up to its first NUL, and the object starts over |
| Tcp.TCPSocket.Send | src/common/tcp_socket.cc:193-218 | for whatever the kernel accepts: return value, bytes on the wire and grants used are those of the specified step |
| Tcp.TCPSocket.SendText | src/common/tcp_socket.cc:206-217 | the loop over the text is its specification, from any point of the stream |
| Bus.WakeUpStep | src/h9d/bus.cc:126-176 | a non-empty queue implies a pending event, a bus thread inside its drain loop, or a client that owes a trigger; every step keeps this |
| Bus.WakeUpAlways | src/h9d/bus.cc:108-258 | no wake-up is lost in any run |
| Bus.BackToWaiting | src/h9d/bus.cc:108-176 | from every reachable state the bus thread, left to itself, is back waiting after finitely many steps, with the send queue empty if it was draining |
| Bus.EventIsServed | src/h9d/bus.cc:108-136 | and if an event was pending, taking it leads back to waiting with both queues empty and no event pending |
| Bus.ConservedStep | src/h9d/bus.cc:16-106 | every step keeps: queues hold what was pushed and not dequeued, in order; each endpoint has been given exactly the dequeued frames less those that came from it |
| Bus.SettledStep | src/h9d/bus_endpoint.cc:16-48 | every step keeps: pending frames are a FIFO of what was given; a frame's counters are the acknowledgements at its places; promise set exactly when complete |
| Bus.DriversStep | src/bus_driver/slcan_driver.cc:155-185 | a serial driver's count of outstanding sends equals the length of its endpoint's pending list; the other drivers leave none pending and report only success |
| Bus.NumberedStep | src/h9d/bus.cc:31-61 | the k-th sequenced, non-raw local frame carries k mod 32, in every reachable state |
| Bus.RequestsAreSequenced | src/h9d/bus.cc:35-57 | the types that take a number are the unicast ones but for the five by which a node answers |
| Bus.InvAlways | src/h9d/bus.cc:108-258 | all of the above in every state reachable from start-up, over every interleaving of clients, bus thread and drivers |
| Bus.Merge | src/h9d/bus.cc:67-105 | in every reachable state: what an endpoint has been given, and the frame in hand if its turn is still to come, and what is queued, are together all local frames in queue order and all frames from other endpoints in reception order; nothing duplicated, dropped or echoed |
| Bus.NothingLeftBehind | src/h9d/bus.cc:126-136 | when the bus thread sleeps with no event due, both queues are empty and every endpoint has everything |
| Bus.HeldOrSettled | src/h9d/bus_endpoint.cc:16-48 | counted over the endpoints: those holding a frame and the acknowledgements it has had add up to those that were given it |
| Bus.Completion | src/h9d/busframe.cc:71-92 | for every local frame dequeued, in every reachable state: endpoints still to be given it + endpoints holding it + successes + failures = endpoints; its promise has its one value if and only if there are endpoints and the first two are zero |
| Bus.SendFrameReturns | src/h9d/bus.cc:237-241 | the blocking `send_frame` of the k-th frame dequeued, if that takes a number, returns exactly then, and returns the number of sequenced frames dequeued before it, mod 32 |
| Bus.NobodyToAcknowledge | src/h9d/bus.cc:237-241 | on a bus without endpoints it never returns, in any run |
| Bus.OneFrameToNobody | src/h9d/bus.cc:16-81 | a run from start-up without endpoints in which a request is dequeued and its sender waits |
| Bus.AckAttribution | src/h9d/bus_endpoint.cc:16-48 | the i-th acknowledgement passed on settles the i-th frame given, success or failure as the byte says; a surplus one changes nothing |
| Bus.OnlySerialFails | src/h9d/busframe.cc:80-92 | on a bus without serial endpoints no frame ever fails: a promise that is set reports success on all endpoints |
| Bus.NoPromise | src/h9d/busframe.cc:71-92 | forwarded frames, queued frames, and frames on a bus without endpoints never have their promise set; no promise is set twice |
| Bus.CountersGrow | src/h9d/busframe.cc:80-92 | a step adds at most one acknowledgement to a frame; a dequeued frame's contents never change again |
| Bus.OnlyStamped | src/h9d/bus.cc:31-61 | over all steps a frame's contents change only when it is dequeued for sending, and only in source and, for the sequenced types, number; raw frames go out as queued |
| Contents.KeptAlways | src/h9d/bus.cc:16-106 | in every run, every frame the bus holds is as it was pushed or heard, but for what is stamped on local ones when dequeued and for the endpoint's name on those heard; with forwarding all that is heard is kept, and without it nothing |
| Contents.GivenAsHeard | src/h9d/bus.cc:144-167 | in every run: the foreign frames an endpoint has been given, then those still waiting for it, are exactly the frames heard on the other endpoints, in order, unchanged but for the endpoint's name |
| Contents.SentAsPushed | src/h9d/bus.cc:16-81 | in every run: the k-th frame dequeued, if local, goes out as pushed when raw, and else with the bus's number as source and, if its type takes a number, the count of such frames before it mod 32 |
| Bus.PromiseSetOnce | src/h9d/busframe.cc:71-92 | the promise is set in the very step that brings the last missing acknowledgement, also inside the send loop, and never changes |
| Bus.OneFrameAcknowledged | src/h9d/bus.cc:237-258 | a run from start-up, for any request: pushed, stamped with number 0, handed to a serial endpoint, acknowledged; the promise then holds that number and the outcome |
| BusObjects.BusFrame.ActivateSendFinishPromise | src/h9d/busframe.cc:71-74 | arms the frame for that many endpoints |
| BusObjects.BusFrame.IncSendCounter | src/h9d/busframe.cc:80-85 | counts a success and sets the promise with number, source and counts when that was the last |
| BusObjects.BusFrame.IncSendFailCounter | src/h9d/busframe.cc:87-92 | counts a failure likewise |
| BusObjects.BusEndpoint.AckCallback | src/h9d/bus_endpoint.cc:16-25 | takes the oldest pending frame, if any, and counts it |
| BusObjects.BusEndpoint.SendFrame | src/h9d/bus_endpoint.cc:44-48 | pends the frame; a driver that acknowledges at once settles it before returning |
| BusObjects.Bus.constructor | src/h9d/bus.cc:180-200 | starts in the machine's initial state |
| BusObjects.Bus.Enqueue | src/h9d/bus.cc:243-252 | the locked part is the machine's Push |
| BusObjects.Bus.SendFrameNoblock | src/h9d/bus.cc:243-258 | pushes, and triggers exactly if the queue was empty |
| BusObjects.Bus.OneSends | src/h9d/bus.cc:243-258 | the same as a run of one or two steps that keeps the machine's invariant |
| BusObjects.Bus.OthersSend | src/h9d/bus.cc:243-258 | any number of them one after another |
| BusObjects.Bus.GiveTo | src/h9d/bus.cc:67-77 | one endpoint and one shared frame object change, as the machine says, and no other |
| BusObjects.Bus.Stamp | src/h9d/bus.cc:31-61 | source and modulo-32 number for frames that are not raw |
| BusObjects.Bus.TakeSend | src/h9d/bus.cc:16-61 | dequeues, arms and stamps: the machine's RunSend |
| BusObjects.Bus.TakeForward | src/h9d/bus.cc:83-92 | dequeues a received frame: the machine's RunForward |
| BusObjects.Bus.Turn | src/h9d/bus.cc:67-105 | one turn of either loop over the endpoints, skipping a frame's origin |
| BusObjects.Bus.HandOut | src/h9d/bus.cc:67-105 | the whole loop, keeping the invariant at every turn |
| BusObjects.Bus.RecvThreadSend | src/h9d/bus.cc:16-81 | a run of the machine; returns whether there was a frame |
| BusObjects.Bus.RecvThreadForward | src/h9d/bus.cc:83-106 | a run of the machine; returns whether there was a frame |
| BusObjects.Bus.DrainRound | src/h9d/bus.cc:128-134 | one round of the drain, other threads queuing any frames between its halves: a run of the machine; it continues exactly if a queue had something |
| BusObjects.Bus.Drain | src/h9d/bus.cc:127-136 | with other threads queuing any frames in any of its rounds: a run of the machine that ends with both queues empty |
| BusObjects.Bus.OnAsyncEvent | src/h9d/bus.cc:125-136 | consumes the event and drains likewise; with nobody queuing, no event is pending afterwards |
| BusObjects.Bus.RecvFrame | src/h9d/bus.cc:155-164 | queues a received frame under its endpoint's name and triggers if the queue was empty |
| BusObjects.Bus.Acknowledge | src/h9d/bus_endpoint.cc:16-25 | the callback, seen from the bus: the machine's Callback |
| BusObjects.Bus.AckByte | src/bus_driver/slcan_driver.cc:171-185 | counts down and calls back only while sends are outstanding |
| Serial.DriverDrivesBus | src/bus_driver/slcan_driver.cc:126-196 | any text read by the driver of an endpoint, in any state: the engine, told one event a message, ends with the driver's count of outstanding sends, has seen exactly the acknowledgements the driver passed on, and has queued exactly the frames it decoded, field by field, if it forwards, and none if not |
| Serial.FramesTold | src/bus_driver/slcan_driver.cc:186-195 | the frames among those events are the ones put into the driver's queue, in order |
| Correlation.Narrows | src/h9d/h9framecomparator.cc:33-99 | adding a sequence number only strengthens the comparison, and with no override makes it demand that number |
| Correlation.MainAlone | src/h9d/h9framecomparator.cc:33-61 | with no alternate field set, a frame matches exactly if it has every value that was set |
| Correlation.EitherSet | src/h9d/h9framecomparator.cc:63-99 | with one set, it matches exactly if it matches by the main set, or by the alternate set and the number, which the override replaces |
| Correlation.FirstMatchIs | src/h9d/raw_node.h:44-59 | the specification: the first frame in order that matches, or nothing when none does |
| Correlation.ReplayFindsFirst | src/h9d/raw_node.h:61-74 | the replay loop gives the promise the first stored frame that matches in full and stops there |
| Correlation.RefinedAlways | src/h9d/raw_node.cc:19-46 | the refinement holds of every promise of a node in every run |
| Correlation.DeferredMatching | src/h9d/raw_node.h:27-79 | for every interleaving of receptions with the arrival of the number, the future gets exactly the first frame since creation that matches comparator and number, at most one value, and a promise leaves the set only so or by being destroyed |
| CorrelationObjects.H9FrameComparator.constructor | src/h9d/h9framecomparator.cc:11-26 | compares nothing yet |
| CorrelationObjects.H9FrameComparator.SetSeqnum | src/h9d/h9framecomparator.cc:146-149 | the field is compared from now on; the mask bits of all others are as before |
| CorrelationObjects.H9FrameComparator.SetSourceId | src/h9d/h9framecomparator.cc:156-159 | likewise for the source |
| CorrelationObjects.H9FrameComparator.SetType | src/h9d/h9framecomparator.cc:166-169 | likewise for the type |
| CorrelationObjects.H9FrameComparator.SetTypeInAlternateSet | src/h9d/h9framecomparator.cc:171-174 | likewise for the alternate type |
| CorrelationObjects.H9FrameComparator.SetFirstDataByte | src/h9d/h9framecomparator.cc:202-205 | likewise for the first data byte |
| CorrelationObjects.H9FrameComparator.SetData | src/h9d/h9framecomparator.cc:186-192 | likewise for the data, copied |
| CorrelationObjects.H9FrameComparator.Eq | src/h9d/h9framecomparator.cc:33-61 | true exactly if every field set agrees |
| CorrelationObjects.H9FrameComparator.EqAlternateSet | src/h9d/h9framecomparator.cc:63-92 | true exactly if some alternate field is set and all agree, the override replacing the number |
| CorrelationObjects.H9FrameComparator.Equals | src/h9d/h9framecomparator.cc:94-99 | the source and either set |
| CorrelationObjects.RegisterComparator | src/h9d/raw_node.cc:316-320 | the setters called by the register requests build the comparator the end-to-end result speaks of |
| CorrelationObjects.FramePromise.OnFrame | src/h9d/raw_node.h:44-59 | stores, fulfils or ignores; true exactly on a full match |
| CorrelationObjects.FramePromise.SetComparatorSeqnum | src/h9d/raw_node.h:61-74 | the loop computes the replay |
| CorrelationObjects.RawNode.CreateFramePromise | src/h9d/raw_node.cc:32-39 | the machine's Create |
| CorrelationObjects.RawNode.DestroyFramePromise | src/h9d/raw_node.cc:41-46 | the machine's Destroy |
| CorrelationObjects.RawNode.OfferToAll | src/h9d/raw_node.cc:21-28 | iterating and erasing at once offers the frame to every promise that was in the set, exactly once |
| CorrelationObjects.RawNode.OnFrameRecv | src/h9d/raw_node.cc:19-30 | the machine's Recv |
| CorrelationObjects.RawNode.AssignSeqnum | src/h9d/raw_node.h:61-74 | the machine's SetSeqnum |
| Requests.InvAlways | src/h9d/raw_node.cc:315-354 | over every interleaving of clients, bus thread and node: each promise was made before its request took a number, and knows that number mod 32 |
| Requests.AcceptedReplies | src/h9d/raw_node.cc:315-354 | a register request accepts exactly the REG_VALUE of its register and the COMMAND_ERRORs of its node, and once it knows its number those with that number |
| Requests.FollowsBus | src/h9d/bus.cc:31-61 | one step: dequeuing a frame takes here the number the bus machine stamps, and none of its other steps takes one |
| Requests.OwnRepliesAlways | src/h9d/raw_node.cc:183-372 | with late replies and lifetimes within 32 numbers every future holds the first reply to its own request that its comparator accepts, and holds nothing only if no such reply came while it waited |
| Requests.WindowIsExact | src/h9d/raw_node.cc:315-354 | futures hold only replies to their own requests, in every run, if and only if late replies and lifetimes span at most 32 numbers |
| EndToEnd.StepRefined | src/h9d/bus.cc:16-61 | a step of the joined system is at most one action of the requests' own model, enabled there; and every request whose frame has been dequeued owns the number stamped on that frame |
| EndToEnd.RunRefined | src/h9d/raw_node.cc:315-354 | over whole runs: every run of clients, bus engine, drivers and node is a run of the requests' model, with the same numbers taken, where a promise learns the number in its own frame's send result |
| EndToEnd.OwnRepliesOverTheBus | src/h9d/raw_node.cc:315-354 | from start-up, over every interleaving of all of them: within the window of 32 numbers every future holds the first reply to its own request that its comparator accepts, and holds nothing only if none came while it waited |
| IntelHex.Hex2BinLoop | src/h9fwupload/h9fwupload.cc:132-150 | the loop over two characters, stopping at NUL, computes the specified byte for any characters |
| IntelHex.ReadsDigits | src/h9fwupload/h9fwupload.cc:132-150 | two digits in either case are read as their value, a digit before NUL as its own, and of any other character the low four bits count |
| IntelHex.GoodIsZeroSum | src/h9fwupload/h9fwupload.cc:198-204 | the program's comparison is the specification's rule that all bytes of a record sum to 0 mod 256 |
| IntelHex.EncodeRoundTrip | src/h9fwupload/h9fwupload.cc:173-188 | a record written as text, in small letters or capitals, is read back field by field; a type 04 record has two payload bytes whatever its size field says |
| IntelHex.CapitalsLoad | src/h9fwupload/h9fwupload.cc:152-235 | any file is loaded alike in capitals |
| IntelHex.UpperAddress | src/h9fwupload/h9fwupload.cc:206-228 | a good type 04 record sets the upper 16 bits of the addresses that follow; from 128 KiB on reading stops |
| IntelHex.LoadedIsMap | src/h9fwupload/h9fwupload.cc:152-235 | a checksum-correct file with ascending addresses below 128 KiB is loaded as its memory map, 0xff in every gap, and the length is the end of its last data record |
| IntelHex.BadChecksum | src/h9fwupload/h9fwupload.cc:200-223 | any data or type 04 record with a bad checksum, once reached, leaves length 0 |
| IntelHex.InPlaceIffAscending | src/h9fwupload/h9fwupload.cc:188-197 | every record read lands at its own address if and only if the addresses ascend without overlap |
| IntelHex.DescendingIsMisplaced | src/h9fwupload/h9fwupload.cc:188-197 | two records in descending order: the second lands behind the first |
| IntelHex.WritePayload | src/h9fwupload/h9fwupload.cc:192-197 | the copying loop overlays the payload and adds it to the checksum |
| IntelHex.TakeData | src/h9fwupload/h9fwupload.cc:189-204 | a type 00 record, good or bad |
| IntelHex.TakeBase | src/h9fwupload/h9fwupload.cc:206-228 | a type 04 record: good, bad, or beyond the flash |
| IntelHex.TakeLine | src/h9fwupload/h9fwupload.cc:169-228 | one line, whatever its type |
| IntelHex.ReadIhex | src/h9fwupload/h9fwupload.cc:152-235 | buffer and length are those of the specified load, for any lines as `getline` leaves them in its buffer, whatever lies behind them there, as long as no record reads past that buffer or writes past the 128 KiB |
| Uploader.FirmwareUploader.Turn | src/h9fwupload/firmware_uploader.cc:24-104 | one turn of the loop: what is sent and how place, page and counters change, foreign frames being ignored |
| Uploader.FirmwareUploader.Upload | src/h9fwupload/firmware_uploader.cc:19-105 | the frames sent, the counters and the end, for any sequence of received frames |
| Uploader.HostCounts | src/h9fwupload/firmware_uploader.cc:19-105 | for any sequence of received frames: every frame sent is addressed to the node, of one of the three kinds and with 2, 8 or 0 data bytes; the counters are the frames sent and the frames the node had sent until the end |
| Uploader.HostSends | src/h9fwupload/firmware_uploader.cc:90-103 | the k-th PAGE_FILL carries the k-th eight bytes of the image |
| Uploader.HostAnswers | src/h9fwupload/firmware_uploader.cc:42-104 | the host answers the three reply types of its node, each with one frame, and takes no notice of other nodes |
| Flashing.InvStep | src/h9fwupload/firmware_uploader.cc:19-105 | exactly one message is under way between host and bootloader, and both agree on page and place, whatever else is on the bus |
| Flashing.StepDecreases | src/h9fwupload/firmware_uploader.cc:24-104 | every arrival of that message reduces the work left; nothing increases it |
| Flashing.UploadIsRight | src/h9fwupload/firmware_uploader.cc:19-105 | every frame sent is addressed to the node; pages written are the image's, in order; the image is never read past its end; QUIT_BOOTLOADER is sent last and once, with exactly ceil(size / page size) pages written |
| Flashing.UploadEnds | src/h9fwupload/firmware_uploader.cc:19-105 | the number of arrivals is bounded, and when nothing is under way the host has quit and the bootloader has been left, in both start modes |
| Flashing.FlashIsFile | src/h9fwupload/h9fwupload.cc:78-122 | load and upload together: the flash equals the file's memory map, 0xff in the gaps |
| Registers.BigEndianRoundTrip | src/h9d/raw_node.cc:285-301 | a number that fits its width survives network byte order |
| Registers.ByteOf | src/h9d/raw_node.cc:285-301 | its k-th byte has the weight of network byte order |
| Registers.WidthIs | src/h9d/node.cc:188-228 | the width used is the smallest of 1, 2 and 4 bytes that has as many bits as the register |
| Registers.ValueIffEchoed | src/h9d/node.cc:184-239 | a value is returned if and only if the reply is a REG_VALUE of the register's width carrying it; every other length is refused |
| Registers.RefusalsAre | src/h9d/node.cc:191-204 | which replies lead to a timeout, a node error, a size mismatch or a malformed frame, each if and only if |
| Registers.MalformedReplies | src/h9d/raw_node.cc:315-354 | among the replies a register request accepts, malformed are exactly those of one wrong length |
| Registers.RegisterRoundTrip | src/h9d/node.cc:184-239 | for the smallest sufficient width: the SET_REG payload, echoed, reads back as v mod 2^size, which is v when v fits |
| Registers.CopyValue | src/h9d/raw_node.cc:341-345 | copies what the reply carries, at most as much as the buffer takes |
| Registers.CopiedBackIs | src/h9d/raw_node.cc:258-262 | `set_reg` returns as many bytes as the shorter of value and reply has; a length given for the buffer is kept to if and only if the reply is longer than the value or fits the buffer |
| Registers.SetReg | src/h9d/raw_node.cc:234-279 | payload sent, return value, and every byte of the caller's buffer afterwards, for every reply and for none, with or without such a buffer |
| Registers.GetReg | src/h9d/raw_node.cc:315-354 | return value, and every byte of the caller's buffer afterwards, for every reply and for none, also of another length |
| Registers.HostToNetwork | src/h9d/raw_node.cc:285-301 | the bytes in memory after htons/htonl |
| Registers.NetworkToHost | src/h9d/raw_node.cc:360-372 | the number ntohs/ntohl make of them |
| Registers.Node.Convert | src/h9d/node.cc:191-204 | negative returns become timeouts, malformed frames or the node's error; a wrong length is a size mismatch |
| Registers.ConvertedIsDecoded | src/h9d/node.cc:191-204 | what the node makes of the raw node's return value is the decoding of the reply that the other results speak of |
| Registers.Node.SetRegister | src/h9d/node.cc:184-239 | payload is the register number and v mod 2^size in network order in the smallest of 1, 2 and 4 bytes that has size bits; missing and read-only registers send nothing |
| Registers.Node.GetRegister | src/h9d/node.cc:316-383 | the outcome for every reply, by that same width; missing and write-only registers fail |
| Registers.Node.GetRegValueFromFrame | src/h9d/node.cc:495-535 | register number and value of a reported register, decoded by that same width |
| Workers.InvAlways | src/h9d/dev_workers.cc:10-52 | in every reachable state: queue length = permits + workers about to pop + producers about to release |
| Workers.QueueIsSafe | src/h9d/dev_workers.cc:10-52 | the front is never taken from an empty queue, tasks are handed out once each in push order, and a queued task nobody is bringing or fetching has a permit |
| Workers.FullTurn | src/h9d/dev_workers.cc:10-28 | a whole turn takes the oldest task and a permit and leaves the worker ready for the next |
| Workers.WithinBound | src/h9d/dev_workers.h:30-30 | the semaphore does not overflow while no more tasks are queued than it can count |
| Workers.OverflowIsExact | src/h9d/dev_workers.h:30-30 | it overflows exactly when there have been more than 65535 permits |
| Workers.DevWorkers.constructor | src/h9d/dev_workers.cc:30-38 | starts in the machine's initial state, where the invariant holds, with any number of workers (the program always starts five) |
| Workers.DevWorkers.DevPeriodicTask | src/h9d/dev_workers.cc:40-45 | push, then release |
| Workers.DevWorkers.UpdateDevState | src/h9d/dev_workers.cc:47-52 | push, then release |
| Workers.DevWorkers.WorkerTurn | src/h9d/dev_workers.cc:11-16 | the task taken is the oldest queued, which exists |
| ClientQueue.InvAlways | src/h9d/tcpclientthread.cc:131-148 | a pending event implies a queued message and no drain that will see it, in every reachable state |
| ClientQueue.QueueIsSafe | src/h9d/tcpclientthread.cc:131-148 | the assertion never fails and messages leave in the order pushed |
| ClientQueue.StrandedIffBoth | src/h9d/tcpclientthread.cc:24-32 | messages are stranded if and only if some wait reported the socket and the event together |
| ClientQueue.OneIsStranded | src/h9d/tcpclientthread.cc:24-32 | an input on which it happens: one message pushed, then a wait that reports both |
| ClientQueue.StrandedForever | src/h9d/tcpclientthread.cc:244-251 | once stranded, no message is taken any more, whatever happens |
| ClientQueue.AllSent | src/h9d/tcpclientthread.cc:24-32 | otherwise a thread waiting with no event pending has sent everything |
| ClientQueue.RunningIffNothingFailed | src/h9d/tcpclientthread.cc:24-32 | the thread is to go on exactly as long as no send or receive has failed and nobody has closed the connection |
| ClientQueue.NeverWaitsAgain | src/h9d/tcpclientthread.cc:24-32 | after such a failure it never waits again and stops at the next turn of its loop |
| ClientQueue.BackToWaiting | src/h9d/tcpclientthread.cc:24-148 | from every reachable state the thread, left to itself, comes back to waiting, or stops if it is to; on the way it sends everything queued if it was draining, and nothing otherwise |
| ClientQueue.TCPClientThread.SendMsg | src/h9d/tcpclientthread.cc:244-251 | pushes and triggers exactly on a queue of one |
| ClientQueue.TCPClientThread.SendFirst | src/h9d/tcpclientthread.cc:134-147 | one turn of the drain, other threads pushing any messages while it sends: a run of the machine; what they leave behind has an event pending |
| ClientQueue.TCPClientThread.Take | src/h9d/tcpclientthread.cc:135-141 | the locked part: the machine's Pop, on a queue that is never empty |
| ClientQueue.TCPClientThread.PushAll | src/h9d/tcpclientthread.cc:244-251 | any number of pushes one after another |
| ClientQueue.TCPClientThread.Finish | src/h9d/tcpclientthread.cc:142-147 | the message is written, and the loop left if that was the last |
| ClientQueue.TCPClientThread.ThreadSendAsyncMsg | src/h9d/tcpclientthread.cc:131-148 | the do-while loop, other threads pushing any messages whenever it is unlocked, is a run of the machine; whatever it leaves in the queue has an event pending, and with nobody pushing it has sent everything |
| Metrics.LookupInserted | src/h9d/metrics_collector.cc:26-66 | a counter put into the tree is found under its name |
| Metrics.LookupKept | src/h9d/metrics_collector.cc:26-66 | a later insertion disturbs no earlier one |
| Metrics.AcceptsKept | src/h9d/metrics_collector.cc:33-62 | nor does it make a later name impossible to insert |
| Metrics.NothingElse | src/h9d/metrics_collector.cc:26-66 | an insertion makes no other number be found under any name |
| Metrics.FoundIffProper | src/h9d/metrics_collector.cc:30-64 | put into an empty tree, a counter is found under its name if and only if the name ends untagged and no segment repeats the argument of the tag before it |
| Metrics.TaggedEndIsLost | src/h9d/metrics_collector.cc:37-62 | an input on which it is lost: `a[b=c]`, whose item is replaced by the number |
| Metrics.InsertTidy | src/h9d/metrics_collector.cc:26-66 | an insertion keeps the shape: items of an array are objects with exactly one tag, the tags of an array differ in argument or value, no null is left, strings are tags only |
| Metrics.TreeAgrees | src/h9d/metrics_collector.cc:21-68 | for names that part and are used consistently: the document has that shape, each counter's value stands at a place with its name, and every leaf anywhere in it is a tag, the uptime, or a counter's value under its name |
| Metrics.OnePlaceEach | src/h9d/metrics_collector.cc:21-68 | no two places of the document have the same name |
| Metrics.FindItem | src/h9d/metrics_collector.cc:39-44 | the loop finds the first item carrying the tag |
| Metrics.InsertCounter | src/h9d/metrics_collector.cc:26-66 | the walk down and the assignment compute the specified insertion, for every name that can be walked, tagged at its end or not |
| MetricNames.MetricsToJson | src/h9d/metrics_collector.cc:21-68 | the document built from counters given by their dotted names is the specified one, and agrees with them |
| MetricNames.ParseName | src/h9d/metrics_collector.cc:26-36 | the loop over the pieces between dots cuts any name as specified |
| MetricNames.NameRoundTrip | src/h9d/metrics_collector.cc:26-36 | the name written from any list of segments, tagged or not, is cut into just these |
| MetricNames.EndpointCounter | src/h9d/bus_endpoint.cc:15-16 | the counters of an endpoint lie below the item tagged with its name |
| MetricNames.WordsAre | src/h9d/metrics_collector.cc:25-25 | the characters of a segment are the 64 of the pattern |
| MetricNames.TagCounts | src/h9d/metrics_collector.cc:25-36 | a complete tag counts whatever follows it in the piece |
| MetricNames.NoTagNoArgument | src/h9d/metrics_collector.cc:25-36 | without one a word is a segment of its own |
| MetricNames.LeadingSkipped | src/h9d/metrics_collector.cc:25-30 | what precedes the first word of a piece is passed over |

## Left out

- Sockets, TTY, epoll/kqueue, `getaddrinfo`, logging, metrics increments and exceptions from system calls: the kernel's part is an arbitrary choice of amounts and orders.
- Slcan.WireEndToEnd: assumes that the port takes each message whole; after a short write `send_data` does not write the rest, and the stream is then not that of the frames.
- Tcp.TCPSocket.Recv: the timeout argument and the error codes are one result -1 for "nothing now or an error".
- Bus.AckAttribution: acknowledgements arrive in the receiving phase for serial endpoints; the other drivers acknowledge inside the send loop, which `Bus.StepHand` models. Drivers that fail to send throw, and are left out.
- BusObjects.Bus.Drain: other threads queue between the two halves of a round, not inside the loop over the endpoints, where only the machine in `Bus` has them; the loop over sockets of `recv_thread` is modelled one frame or acknowledgement at a time.
- BusObjects.Bus.GiveTo: the map of endpoints is a fixed list; drivers cannot be added while the bus runs.
- Correlation.Matches: `H9FrameComparator::operator<` and the observer registry built on it; the alternate match of `RawNode::reset`, which compares a sequence number that broadcast decoding never sets.
- Requests.OwnRepliesAlways: assumes that everything that looks like a reply from the node is one and echoes its request's number, as doc/Frame.md demands of nodes; replies to raw frames or to other programs on the bus are excluded. Time is counted in sequence numbers taken, not in seconds.
- CorrelationObjects.FramePromise.SetComparatorSeqnum: erasing the promise from the node's set is done by `AssignSeqnum`, which holds the lock in the program as well.
- CorrelationObjects.FramePromise.OnFrame: the promise keeps its comparator as a value and compares with `Correlation.Matches`, to which `H9FrameComparator.Equals` is proved equal.
- ClientQueue.TCPClientThread.ThreadSendAsyncMsg: other threads push while the queue is unlocked; pushing and raising the event is one step there, since the program does both under the lock.
- IntelHex.ReadIhex: a line shorter than the record it announces is read on into what an earlier line left in the buffer, which the model follows; records that read past the buffer, or write past the 128 KiB, are excluded by its requires, since what the program then touches is not its own.
- Uploader.FirmwareUploader.Upload: reads the frames received as a list that ends, where the program waits for ever; the progress bar, and with it an image of length 0 (a division by zero), are left out.
- Flashing.UploadIsRight: a bootloader that restarts in the middle of an upload; `upload` then keeps its place in the image.
- Registers.Node.SetRegister: registers of 31 and 32 bits (the mask is undefined there), float, string and blob registers.
- Registers.Node.GetRegister: 32-bit registers, which are read as floats; string and blob registers.
- Registers.Node.GetRegValueFromFrame: string and blob registers; frames of other types.
- Workers.WithinBound: the semaphore's maximum is 65535; that fewer tasks are queued is a hypothesis on the run.
- ClientQueue.AllSent: what happens to messages after the socket has failed; they count as handed to it.
- Metrics.InsertCounter: the moving pointer into the tree is the path walked so far, climbed again after the assignment; updating nodes in place is not modelled. Names that cannot be walked, for which the JSON library throws, are excluded by its requires.
- JSON values and JSON-RPC dispatch, configuration and URI parsing, the command-line client, the sniffer and statistics printers, Python virtual nodes, device classes: plumbing, or easy members.
