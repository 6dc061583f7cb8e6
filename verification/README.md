# Verified model of the cube firmware and its backend

The project models, in Dafny 4.11, the parts of the repository that carry state or arithmetic worth proving:

- the **MQTT client** of `components/mqtt/esp-mqtt`: the packet printer and readers (`MqttMsg`, `MqttParse`,
  `Varint`), the MQTT 5.0 PUBLISH with its property section (`Mqtt5Properties`, `Mqtt5Msg`), the outbox (`Outbox`),
  the client object with the fragmenting sender and the task pass (`Client`, `Transport`), and the incremental
  receiver with chunked delivery (`Framing`, `Receiver`);
- what **whole runs** of that client guarantee: `ClientModel` and `Steps` (the operations as functions), `Ledger` and
  `History` (what the log records), `Runs`, `Session` and `TaskLoop` (calls and passes as runs), `Conservation`,
  `Guarantees`, `Resends`, `Identifiers`, `OutboxLimit`, `KeepaliveDeadline`; and where the guarantees stop (`Drift`,
  `Limits`);
- what **each step** does, in plain fields, indices and bytes and without the functions that define it: `Receptions`
  (incoming packets), `Passes` (the task), `Calls` (the application), `WireFormat` (the packets);
- the **frame buffer** of `components/esp_ssd1306`: pixels, lines, circles and wrap-around scrolling
  (`Bits`, `Display`, `Line`, `Circle`, `WrapAround`);
- the **session service** of the backend (`CubeService`).

`dafny verify dfyconfig.toml` checks everything.

## How it is built

Code that changes things in place is a class with the same fields (`Connection`, `Outbox`, `Client`, `Receiver`,
`Display`, `CubeService`), and its loops are loops. Each operation is tied to a function of the old state or to the
bytes the standard prescribes, and the theorems are about those.

- A packet is a byte sequence built in one piece (`PublishPacket`, `Publish5Packet`). The printer that works
  right-aligned in a small buffer, the loop that refills the buffer, partial writes and the outbox copy are all
  proved to yield that sequence. The readers are proved to be its inverse, in both directions for MQTT 3.1.1.
- `ClientModel` gives each operation of the client as a function on states that carry a log of writes, removals and
  events, and the connection fields that outlive a message: fragment offset and total, the last id, the pending QoS. The
  methods of `Client` are proved to compute these functions from any such state, and what they put on the wire is what
  the log gained. `Runs` composes the functions into runs of any length; `Session` proves that any sequence of calls on
  the object is such a run, `TaskLoop` that passes over a stream of packets are one that handles these packets.
- The guarantees come in three strengths. `Conservation` is about all runs. `Guarantees` asks that a new message gets an
  id no stored message has (`Legal`). `Resends` asks besides that no QoS > 0 publish meets a misleading fragment offset.
- The transport may move any number of bytes per call, time out or fail. It counts the writes it refused and the reads that
  brought less than asked for, so that the methods can promise to stop for no other reason. Clock readings are parameters.
- An image is the set of lit points. The line has a closed form, the circle is the set of nearest pixels, a scroll
  is a rotation; the drawing methods are proved to paint exactly those sets.
- A run of the session service is compared with `Timeline`, the list of sessions that a cube's own events stand for.

## Findings

Where the code does not do what one would expect, it is modelled as it is. A lemma shows the case, or gives the exact
condition under which the code is fine.

- A receiver interrupted inside a packet of fewer than six bytes takes a buffered byte with the top bit set for an
  unfinished length (mqtt_client.c:1232-1233). `Framing.ImmuneExactly` gives the exact set of packets that are safe.
- The size check for large messages leaves out the two topic-length bytes (mqtt_client.c:1277), so a header up to two
  bytes longer than the in-buffer gets through; `Receiver.DeliverPublish` shows that its events are then wrong.
- A timeout in the middle of a chunked delivery counts as success (mqtt_client.c:1108-1113), and the rest of the
  payload is then read as the next packet.
- A fragmented publish that is skipped or whose first write fails leaves its fragment offset behind
  (mqtt_client.c:2097-2162), and so does every fragmented enqueue. An unfragmented publish on a shorter topic then believes
  to owe bytes when its packet is out, and sends memory from in front of the payload after it. `MqttMsg.SurplusExactly`
  gives the exact condition, `StaleOffsetIsReachable` a run that gets there, and `PacketSentTwice` what it does to the
  DUP flag. Only the two theorems of `Resends` are about runs in which no QoS > 0 publish meets that condition.
- A fragmented message that enqueue prints but does not store leaves the fragment total set, as does one whose length
  cannot be encoded (`EnqueueLeavesTotal`, `PublishLeavesTotal`). The next message other than a publish, if only an
  acknowledgement, then announces a wrong length (`StaleTotalCorruptsNext`, `StaleTotalIsReachable`).
- `fini_message` also moves the fragment offset back on every message (mqtt_msg.c:130), modulo 2^32, by up to three. Until
  this adds up to nearly 2^31 an unfragmented packet does not notice: the loop only takes more of it for sent
  (`Drift.RunDriftDecides`).
- Stored QoS 0 messages all have id zero, so marking the sent one marks the next (`MarkingExactly`, `MarkedUnsent`),
  and the reporting expiry loop stops early at one (`ReportingAgreesExactly`).
- Unsubscribe is not checked against the outbox limit, and runs of it pass any bound (`UnsubscribeBreaksBound`).
- Circles that leave the range of a byte come back in on the other side (`WrappedCircleIsWrong`, `CircleRightExactly`).
- The `return` in `CubeService` for an unchanged side leaves only the lambda, so a second session is opened
  (`TidyExactly`, `RepeatedSideLeavesSessionOpen`).

## Conventions and assumptions

- API calls and task passes are single steps of a run. That is an assumption: the API lock is held over each of them, but
  enqueue and subscribe check limit and connection before they take it (mqtt_client.c:1880-1888, 2187-2194), and an event
  handler, which runs inside a pass, may publish because the lock is recursive.
- Legal runs draw no id that a stored message has. With incremental ids this is proved
  (`SequentialRunsAreLegal`); sdkconfig.esp32dev selects random ids, for which it is an assumption.
- `before` is the memory in front of a payload, as far as a send loop with a surplus reads it; `Session` takes 2^32 bytes,
  which is always enough. For a null payload of length zero the C reads near address zero instead. The surplus is below
  2^31 plus the payload length, so sums of the two may exceed a C `int`; the model does not wrap them.
- The body of a CONNECT is a parameter, and so is the broker's answer to it.
- sdkconfig.esp32dev also leaves MQTT 5.0 off; its code is modelled on its own.
- Buffers: the out-buffer has at least 7 bytes (an acknowledgement fits) and fewer than 2^30, the in-buffer at least 9
  (the reads of the fixed header stay inside). Lengths are mathematical integers, faithful below 2^31; where `size_t` or
  `uint8_t` wraps, it does in the model.
- The keepalive period is a positive even number of milliseconds; the code computes it from whole seconds.
- A remaining length above 268435455 makes the C write a fifth byte into a four-byte array before it is rejected; the
  model lets that byte exist, so that the rejection is reachable.
- Out of bounds reads of a reader are excluded by its `requires` (`IdReadable`, `Readable5`).
- Item handles and the sequence `origin` stand for pointer identity in the outbox.
- `processEvent` reads the clock twice; both readings are part of the event. Ties in the query for the newest open
  session may be broken either way.

## Model

| member | source | states |
|---|---|---|
| `Varint.RoundTrip` | components/mqtt/esp-mqtt/lib/mqtt5_msg.c:36-63 | a remaining length or property length of any size reads back as itself, whatever follows it, and the reader consumes exactly its bytes |
| `Varint.EncodedLength` | components/mqtt/esp-mqtt/lib/mqtt_msg.c:106-124 | the encoding has at most 1, 2, 3 or 4 bytes exactly for values below 128, 16384, 2097152 and up to 268435455 |
| `Varint.ReadStable` | components/mqtt/esp-mqtt/lib/mqtt_msg.c:141-159 | more input after a complete length field changes neither its value nor its size |
| `Varint.FieldShape` | components/mqtt/esp-mqtt/lib/mqtt_msg.c:146-152 | every byte of a length field but the last has the top bit set, the last has it clear |
| `Varint.FieldFromShape` | components/mqtt/esp-mqtt/lib/mqtt_msg.c:146-152 | conversely, such a run of bytes is a complete length field of exactly that size |
| `Varint.Generate` | components/mqtt/esp-mqtt/lib/mqtt5_msg.c:36-48 | the loop produces the encoding, for any length |
| `Varint.Read` | components/mqtt/esp-mqtt/lib/mqtt5_msg.c:50-63 | the loop that adds up seven-bit groups returns the value and the size of the field as defined by recursion, and stops at the end of the buffer |
| `MqttMsg.FirstByteRoundTrip` | components/mqtt/esp-mqtt/lib/include/mqtt_msg.h:96-123 | type, DUP, QoS and RETAIN read back from a first byte as they were put in; setting DUP changes nothing else |
| `MqttMsg.FirstByteInverse` | components/mqtt/esp-mqtt/lib/include/mqtt_msg.h:96-123 | every byte is the first byte built from the four fields read off it |
| `MqttMsg.PacketWellFormed` | components/mqtt/esp-mqtt/lib/mqtt_msg.c:583-617 | a packet printed from a valid first byte and a body of at most 268435455 bytes is well formed, and its header is one byte longer than its length field |
| `MqttMsg.WrongRemainingLength` | components/mqtt/esp-mqtt/lib/mqtt_msg.c:98-139 | a header that announces another length than its body has does not make a packet |
| `MqttMsg.PrintedExactly` | components/mqtt/esp-mqtt/lib/mqtt_msg.c:98-139 | what fini_message prints is a packet if and only if no fragment total is pending or the total is that of this very message; then it is the packet the standard gives |
| `MqttMsg.SurplusExactly` | components/mqtt/esp-mqtt/mqtt_client.c:2114-2145 | for every prior fragment offset: the send loop stops after the packet if and only if the packet is fragmented, or the offset neither reaches beyond its header nor lies so far back that the difference leaves the range of an int; with an offset that reaches beyond, it sends as many bytes more |
| `MqttMsg.AllocatedClosedForm` | components/mqtt/esp-mqtt/lib/mqtt_msg.c:63-83 | the k-th id after the first is the first plus k, counted modulo 65535 and never zero |
| `MqttMsg.AllocationWindow` | components/mqtt/esp-mqtt/lib/mqtt_msg.c:63-83 | any 65535 consecutive ids are pairwise distinct; the one after them repeats the first |
| `MqttMsg.Connection.AppendString` | components/mqtt/esp-mqtt/lib/mqtt_msg.c:49-61 | appends the two length bytes and the text, or fails and changes nothing if they do not fit |
| `MqttMsg.Connection.AppendMessageId` | components/mqtt/esp-mqtt/lib/mqtt_msg.c:63-83 | appends the given id or a newly allocated one; fails if two bytes do not fit |
| `MqttMsg.Connection.PlaceHeader` | components/mqtt/esp-mqtt/lib/mqtt_msg.c:126-138 | the header lands directly before the body behind the reserved five bytes; the fragment offset moves back by the unused ones, modulo 2^32 |
| `MqttMsg.Connection.FiniMessage` | components/mqtt/esp-mqtt/lib/mqtt_msg.c:98-139 | the finished message is first byte, remaining length and body; the announced length is the body length unless a fragment total is set; longer than 268435455 fails |
| `MqttMsg.Connection.AppendPayload` | components/mqtt/esp-mqtt/lib/mqtt_msg.c:463-475 | a payload that does not fit is cut at the end of the buffer and the two fragment fields record the cut; otherwise it is appended whole |
| `MqttMsg.Connection.MsgPublish` | components/mqtt/esp-mqtt/lib/mqtt_msg.c:439-477 | with a payload or no total pending: exactly when the header fits and the length is encodable the out-buffer holds the one-shot PUBLISH packet, or its longest prefix with the fragment fields set; a null payload under a pending total announces that total; the fragment fields and the id counter afterwards, in every case |
| `MqttMsg.Connection.MsgAck` | components/mqtt/esp-mqtt/lib/mqtt_msg.c:479-513 | PUBACK, PUBREC, PUBREL and PUBCOMP are printed with the id given or, for zero, the next one, whatever fragment total is pending; the fragment fields and the id counter afterwards |
| `MqttMsg.Connection.MsgEmpty` | components/mqtt/esp-mqtt/lib/mqtt_msg.c:561-577 | PINGREQ and DISCONNECT are printed, whatever fragment total is pending; the fragment fields afterwards |
| `MqttMsg.Connection.MsgConnect` | components/mqtt/esp-mqtt/lib/mqtt_msg.c:340-437 | the end of the CONNECT printer: a body that fits is printed, one that does not fails; the fragment fields afterwards |
| `MqttMsg.Connection.MsgSubscribe` | components/mqtt/esp-mqtt/lib/mqtt_msg.c:515-540 | exactly when every filter is named and all fit, the id, then each filter with its length and QoS, in order; an id is drawn in any case |
| `MqttMsg.Connection.MsgUnsubscribe` | components/mqtt/esp-mqtt/lib/mqtt_msg.c:542-559 | exactly when the filter is not empty and fits, the id and the filter with its length; an id is drawn exactly for a filter |
| `MqttParse.GetTotalLength` | components/mqtt/esp-mqtt/lib/mqtt_msg.c:141-159 | the loop computes total length and header length of the packet |
| `MqttParse.GetPublishTopic` | components/mqtt/esp-mqtt/lib/mqtt_msg.c:192-216 | returns the slice of the topic, or null if the packet is too short for it |
| `MqttParse.GetPublishData` | components/mqtt/esp-mqtt/lib/mqtt_msg.c:218-264 | returns the slice of the payload behind topic and id, or null if there is none |
| `MqttParse.GetId` | components/mqtt/esp-mqtt/lib/mqtt_msg.c:278-338 | returns the packet id of every packet type that has one, from an excerpt of a longer packet too |
| `MqttParse.PublishRoundTrip` | components/mqtt/esp-mqtt/lib/mqtt_msg.c:439-477 | every PUBLISH the printer can build is well formed, and all readers return the topic, payload (null if empty), QoS, RETAIN and id that went in |
| `MqttParse.ReadThenPrint` | components/mqtt/esp-mqtt/lib/mqtt_msg.c:192-264 | conversely, a PUBLISH with the shortest length encoding and DUP clear is exactly the packet printed from the values read off it |
| `MqttParse.AckRoundTrip` | components/mqtt/esp-mqtt/lib/mqtt_msg.c:278-317 | each acknowledgement is well formed and carries type and id back to the readers |
| `Outbox.Outbox.Enqueue` | components/mqtt/esp-mqtt/lib/mqtt_outbox.c:42-65 | the item joins both stretches of the message, is QUEUED, and goes to the tail; size grows by its length |
| `Outbox.Outbox.Dequeue` | components/mqtt/esp-mqtt/lib/mqtt_outbox.c:78-90 | returns the first item in the given state without removing it |
| `Outbox.Outbox.DeleteItem` | components/mqtt/esp-mqtt/lib/mqtt_outbox.c:92-105 | removes exactly the item with that pointer, if it is in the queue, and keeps size the sum of the lengths |
| `Outbox.Outbox.Delete` | components/mqtt/esp-mqtt/lib/mqtt_outbox.c:119-134 | removes the first item with that id and type, if any |
| `Outbox.Outbox.SetPending` | components/mqtt/esp-mqtt/lib/mqtt_outbox.c:136-144 | changes the state of the first item with that id and nothing else |
| `Outbox.Outbox.SetTick` | components/mqtt/esp-mqtt/lib/mqtt_outbox.c:154-162 | changes the tick of the first item with that id and nothing else |
| `Outbox.Outbox.DeleteSingleExpired` | components/mqtt/esp-mqtt/lib/mqtt_outbox.c:164-180 | removes the first expired item and returns its id, or -1 if there is none |
| `Outbox.Outbox.DeleteExpired` | components/mqtt/esp-mqtt/lib/mqtt_outbox.c:182-197 | leaves exactly the items not older than the timeout, in order, and returns how many went |
| `Outbox.Outbox.DeleteAllItems` | components/mqtt/esp-mqtt/lib/mqtt_outbox.c:204-213 | empties the queue; size is zero again |
| `Outbox.Outbox.DeleteExpiredReporting` | components/mqtt/esp-mqtt/mqtt_client.c:1530-1546 | the reporting loop terminates; what it leaves and the ids it reports are those of the one-at-a-time recursion |
| `Outbox.KeptSkips` | components/mqtt/esp-mqtt/lib/mqtt_outbox.c:164-197 | removing the first expired item does not change what bulk expiry leaves, and it is the first of what bulk expiry drops |
| `Outbox.ReportingAgrees` | components/mqtt/esp-mqtt/mqtt_client.c:1530-1546 | with positive ids, one-at-a-time expiry leaves the queue of bulk expiry and reports the removed ids in order |
| `Outbox.ReportingAgreesExactly` | components/mqtt/esp-mqtt/mqtt_client.c:1530-1546 | for all queues: it leaves that queue if and only if no expired message with a non-positive id stands before another expired one |
| `Outbox.TotalLengthSplits` | components/mqtt/esp-mqtt/lib/mqtt_outbox.c:42-65 | the size of a queue is the sum of the sizes of its parts |
| `Outbox.FirstHasHandle` | components/mqtt/esp-mqtt/lib/mqtt_outbox.c:92-105 | deleting by pointer the item that a search returned removes the item at the found place |
| `Outbox.KeptKeepsHandles` | components/mqtt/esp-mqtt/lib/mqtt_outbox.c:182-197 | expiry keeps the survivors in enqueue order, and only survivors |
| `Client.Client.Write` | components/mqtt/esp-mqtt/mqtt_client.c:700-722 | whatever the transport accepts per call, all bytes are sent in order, or a proper prefix of them, and the latter only where the transport refused a write |
| `Client.Client.MakePublish` | components/mqtt/esp-mqtt/mqtt_client.c:1996-2021 | the printer call: the id, how the built packet stands in buffer and fragment fields for any fields before, how many bytes the send loop will take beyond it, and the fields left when it cannot be built |
| `Client.Client.StorePublish` | components/mqtt/esp-mqtt/mqtt_client.c:1177-1202 | the outbox copy of a publish is the whole packet, also when only its first fragment is in the out-buffer |
| `Client.Client.EnqueuePublish` | components/mqtt/esp-mqtt/mqtt_client.c:2023-2050 | a publish that can be built is stored exactly for QoS > 0 or on request, as the one-shot packet, and the fragment total is clear again exactly if it was stored or not fragmented |
| `Client.Client.SendFragment` | components/mqtt/esp-mqtt/mqtt_client.c:2119-2145 | one round sends the next stretch, clears the fragment fields, and leaves the stretch after it in the out-buffer with the loop variables in step; a failed write leaves the fields |
| `Client.Client.SendFragments` | components/mqtt/esp-mqtt/mqtt_client.c:2114-2145 | the loop terminates; for every buffer size and pattern of partial writes success means that exactly the packet and its surplus were sent, failure that a proper prefix was |
| `Client.Client.SendPublish` | components/mqtt/esp-mqtt/mqtt_client.c:2097-2169 | the state after the send loop: expiry when not connected, abort on failure, tick and TRANSMITTED on success, and the fragment fields in each case |
| `Client.Client.Publish` | components/mqtt/esp-mqtt/mqtt_client.c:2052-2169 | for all inputs, fragment fields and write outcomes: new state, bytes sent and return code of a publish, of the given length or, for a C string, up to its terminator; what a successful one sends is the one-shot packet and then the surplus, which is empty exactly as SurplusExactly says; less goes out only where the transport refused a write; the stored copy is the packet |
| `Client.Client.Enqueue` | components/mqtt/esp-mqtt/mqtt_client.c:2171-2211 | for all inputs and fragment fields, with the length given or that of the C string: new state, with the fragment fields and the id counter it leaves, and return code of the non-blocking enqueue, with the outbox limit and the unstored QoS 0 case |
| `Client.Client.Subscribe` | components/mqtt/esp-mqtt/mqtt_client.c:1872-1938 | limit check, id, packet stored and marked TRANSMITTED, written once; new state, bytes sent and the exact condition for success, for every input and write outcome |
| `Client.Client.Unsubscribe` | components/mqtt/esp-mqtt/mqtt_client.c:1946-1994 | likewise, without a limit check |
| `Client.Client.RemoveInitiator` | components/mqtt/esp-mqtt/mqtt_client.c:1166-1175 | an acknowledgement removes the first message with its id and type and reports success exactly then |
| `Client.Client.Dispatch` | components/mqtt/esp-mqtt/mqtt_client.c:1351-1491 | for every packet type: the change of the outbox, whose content Receptions states, that exactly the protocol answer is sent or, where the transport refused to go on, a prefix of it, and when the result is ESP_OK |
| `Client.Client.ResendQueued` | components/mqtt/esp-mqtt/mqtt_client.c:1494-1528 | the stored copy gets DUP exactly for a transmitted QoS > 0 PUBLISH; those bytes are sent; a QoS 0 PUBLISH then leaves the outbox; failure aborts |
| `Client.Client.Transmit` | components/mqtt/esp-mqtt/mqtt_client.c:1669-1683 | one QUEUED message goes out, or else the first TRANSMITTED one again, as Passes states in full; the log records exactly what was sent, and exactly the refused writes as incomplete |
| `Client.Client.ProcessKeepalive` | components/mqtt/esp-mqtt/mqtt_client.c:672-698 | ping sent, timeout noticed or nothing to do, as a function of the keepalive fields, the clock and a pending fragment total; what is sent is the ping or a prefix of it |
| `Client.Client.Iterate` | components/mqtt/esp-mqtt/mqtt_client.c:1648-1696 | one pass of the CONNECTED branch, from any state: new state for every input and write outcome, that the bytes sent are an answer, the writes the log records, and a ping, in this order, and that exactly the refused writes were cut short |
| `Client.Client.Connect` | components/mqtt/esp-mqtt/mqtt_client.c:724-758 | the CONNECT is written whole or the attempt fails; connected with fresh keepalive and refresh ticks exactly if it was and the broker accepts |
| `Client.Client.Stop` | components/mqtt/esp-mqtt/mqtt_client.c:1820-1854 | a connected client says DISCONNECT first and does not stop if none can be built; the end of the task drops every stored message, each recorded once |
| `Runs.RunKeeps` | components/mqtt/esp-mqtt/mqtt_client.c:1576-1735 | every run whose new ids no stored message has, whatever fragment fields its publishes meet, keeps the invariant that ties the states of stored messages and the order of writes to the log |
| `Runs.ApplyKeeps` | components/mqtt/esp-mqtt/mqtt_client.c:1576-1735 | each single operation keeps that invariant |
| `Session.Perform` | components/mqtt/esp-mqtt/mqtt_client.c:1576-2211 | one call on the client object, with any arguments that fit their lengths: the state moves as the operation of the same call moves it, and ids are those of the incremental allocator |
| `Session.Drive` | components/mqtt/esp-mqtt/mqtt_client.c:1576-2211 | any sequence of such calls on a new client: the object ends in the state of a run whose operations are those of the calls in order, and the run is legal if stored ids stay recent |
| `Conservation.RunBooked` | components/mqtt/esp-mqtt/mqtt_client.c:1576-2211 | every run at all keeps the books: stored messages are copies of what was enqueued, entries of the log stand, and nothing is unaccounted for |
| `Conservation.Conserved` | components/mqtt/esp-mqtt/lib/mqtt_outbox.c:92-134 | in every run, whatever ids it draws, every message ever enqueued is stored or has left, never both, and has left at most once |
| `Conservation.SurvivorsKeepOrder` | components/mqtt/esp-mqtt/lib/mqtt_outbox.c:42-65 | in every run, what is stored is in enqueue order with id, type, QoS and bytes as they came, but for DUP |
| `Conservation.NoWriteAfterRemoval` | components/mqtt/esp-mqtt/lib/mqtt_outbox.c:92-134 | in every run, nothing is written for a message that has left the outbox |
| `Conservation.WritesCarryTheirPacket` | components/mqtt/esp-mqtt/mqtt_client.c:700-722 | in every run, what is written for a message begins with its packet, with or without DUP, or is the beginning of it if the write broke off |
| `Conservation.PublishedEventsAreRemovals` | components/mqtt/esp-mqtt/mqtt_client.c:1166-1175 | in every run, every PUBLISHED event follows the removal of a PUBLISH with its id, and no two events share one |
| `Guarantees.NeverFallsBack` | components/mqtt/esp-mqtt/mqtt_client.c:1412-1477 | between any two moments of any run with distinct live ids a QoS > 0 message only moves up QUEUED, TRANSMITTED, ACKNOWLEDGED, removed; what was removed does not come back |
| `Guarantees.NoPublishAfterPubrec` | components/mqtt/esp-mqtt/mqtt_client.c:1427-1444 | in such runs, after the PUBREC of a message was processed its PUBLISH is never written again |
| `Guarantees.FirstTransmissionsInOrder` | components/mqtt/esp-mqtt/mqtt_client.c:1670-1675 | in such runs, the QoS > 0 messages the task sends out of QUEUED go out in enqueue order, across any interleaving |
| `Guarantees.UpdatesReachTheirMessage` | components/mqtt/esp-mqtt/lib/mqtt_outbox.c:67-76 | in every legal run set_pending, set_tick and delete by a stored non-zero id reach the message that carries it |
| `Resends.DupMarksResends` | components/mqtt/esp-mqtt/mqtt_client.c:1494-1528 | if besides no QoS > 0 publish meets a misleading fragment offset: a complete write of a QoS > 0 message has DUP set if and only if it was completely written before, and differs from the stored packet in that bit only |
| `Resends.BrokenWritesArePrefixes` | components/mqtt/esp-mqtt/mqtt_client.c:700-722 | in the same runs an incomplete write sent a proper prefix of what a complete one would have sent at that moment |
| `Identifiers.NextIdIsFresh` | components/mqtt/esp-mqtt/lib/mqtt_msg.c:63-83 | while all stored ids stem from the last 65534 allocations, the next id belongs to no stored message |
| `Identifiers.SequentialRunsAreLegal` | components/mqtt/esp-mqtt/lib/mqtt_msg.c:63-83 | from any tracked state: a run whose ids come from the incremental allocator is legal if at no moment a stored id is older than that |
| `Identifiers.RunsFromStartAreLegal` | components/mqtt/esp-mqtt/lib/mqtt_msg.c:63-83 | in particular every such run from the start |
| `OutboxLimit.OutboxLimitHolds` | components/mqtt/esp-mqtt/mqtt_client.c:2085-2092 | with a limit set, no run without unsubscribe stores more than the limit plus one out-buffer |
| `OutboxLimit.UnsubscribesPileUp` | components/mqtt/esp-mqtt/mqtt_client.c:1946-1994 | for every k up to the 65535 ids there is a legal run in which k UNSUBSCRIBE packets of any size are stored at once |
| `OutboxLimit.UnsubscribeBreaksBound` | components/mqtt/esp-mqtt/mqtt_client.c:1946-1994 | so for every limit below what 65535 packets can hold, a legal run stores more than limit and out-buffer together |
| `OutboxLimit.UnsubscribeReachesAnySize` | components/mqtt/esp-mqtt/mqtt_client.c:1946-1994 | and with a limit of one byte, a legal run stores more than any number below 65535 times the longest packet |
| `Limits.SkippedPublishLeavesOffset` | components/mqtt/esp-mqtt/mqtt_client.c:2097-2162 | a fragmented publish while not connected leaves exactly this fragment offset and no total |
| `Limits.StaleOffsetIsReachable` | components/mqtt/esp-mqtt/mqtt_client.c:2114-2162 | a concrete legal run, an offline publish of 300 bytes and a connect, after which a publish of 10 bytes sends 92 bytes too many |
| `Limits.StaleOffsetBreaksDup` | components/mqtt/esp-mqtt/mqtt_client.c:2146-2162 | if the transport fails among those bytes, the packet is out whole, yet stays QUEUED and is sent again with DUP clear |
| `Limits.PacketSentTwice` | components/mqtt/esp-mqtt/mqtt_client.c:1670-1675 | in a run: from any state with such a surplus and nothing stored, a publish that breaks right behind its packet, a connect and a pass send the whole packet twice, both times with DUP clear |
| `Limits.EnqueueLeavesOffset` | components/mqtt/esp-mqtt/mqtt_client.c:2171-2211 | every fragmented message that is enqueued, stored or not, leaves such an offset |
| `Drift.OffsetIsDrift` | components/mqtt/esp-mqtt/lib/mqtt_msg.c:126-138 | in every run that keeps no fragmented message back the offset is, below zero and modulo 2^32, what the messages since the last publish that went out have moved it; an operation moves it by at most six |
| `Drift.RunDriftDecides` | components/mqtt/esp-mqtt/mqtt_client.c:2114-2145 | in such a run an unfragmented publish sends its packet and nothing more if and only if that drift, modulo 2^32, is below 2^31 less the packet, or close enough to 2^32 to be covered by the header |
| `Drift.SmallDriftMeansStops` | components/mqtt/esp-mqtt/mqtt_client.c:2052-2211 | so no publish of such a run is misled while the drift stays below a fixed bound |
| `Drift.FewOperationsDriftLittle` | components/mqtt/esp-mqtt/mqtt_client.c:2052-2211 | which 300 million operations do not reach, whether or not a publish goes out among them |
| `Limits.EnqueueLeavesTotal` | components/mqtt/esp-mqtt/mqtt_client.c:2171-2211 | enqueue leaves a fragment total if and only if a fragmented message passes the limit and is then not stored: QoS 0 without store, or too long to be encoded |
| `Limits.PublishLeavesTotal` | components/mqtt/esp-mqtt/mqtt_client.c:2052-2169 | publish leaves one if and only if a fragmented message passes the limit and is too long to be encoded |
| `Limits.StaleTotalCorruptsNext` | components/mqtt/esp-mqtt/lib/mqtt_msg.c:98-139 | after an enqueue the next message that is not a publish is a packet if and only if the enqueue left no total |
| `Limits.StaleTotalIsReachable` | components/mqtt/esp-mqtt/mqtt_client.c:2171-2211 | in a run: after one unstored QoS 0 enqueue of 300 bytes, into an out-buffer of 256, no message but a publish is a packet |
| `Limits.MarkingExactly` | components/mqtt/esp-mqtt/mqtt_client.c:1670-1675 | sending the first QUEUED message leaves all others unchanged if and only if it is not a QoS 0 publish that went out whole while the first other message with id zero is not yet TRANSMITTED |
| `Limits.MarkedUnsent` | components/mqtt/esp-mqtt/mqtt_client.c:1670-1675 | in a run: two QoS 0 messages are stored and a pass sends the first; the second is then TRANSMITTED and nothing of it was written |
| `ClientModel.RecordedTwice` | components/mqtt/esp-mqtt/mqtt_client.c:1576-1735 | what was sent over two stretches of a run is what the log gained over both |
| `Receptions.PublishAcknowledged` | components/mqtt/esp-mqtt/mqtt_client.c:1412-1477 | in every state of a legal run, and over exactly the fields named: a PUBACK or PUBCOMP whose id a stored PUBLISH carries removes that message and no other, keeps the order of the rest, and adds exactly its removal and the PUBLISHED event to the log |
| `Receptions.RequestAcknowledged` | components/mqtt/esp-mqtt/mqtt_client.c:1352-1374 | likewise SUBACK and UNSUBACK with the SUBSCRIBE and UNSUBSCRIBE of their id |
| `Receptions.StrayAcknowledgement` | components/mqtt/esp-mqtt/mqtt_client.c:1166-1175 | an acknowledgement of nothing that is stored changes nothing |
| `Receptions.PubrecReceived` | components/mqtt/esp-mqtt/mqtt_client.c:1427-1444 | a PUBREC makes exactly the message with its id ACKNOWLEDGED, where it stands, and records it |
| `Receptions.PubrecUnknown` | components/mqtt/esp-mqtt/mqtt_client.c:1427-1444 | without such a message, or if no PUBREL can be printed, nothing stored changes |
| `Receptions.PingrespReceived` | components/mqtt/esp-mqtt/mqtt_client.c:1478-1487 | a PINGRESP ends the wait for it and restarts the keepalive period |
| `Receptions.NothingStoredChanges` | components/mqtt/esp-mqtt/mqtt_client.c:1375-1461 | every other packet leaves outbox, log, connection and clocks alone |
| `Receptions.AnswerBytes` | components/mqtt/esp-mqtt/mqtt_client.c:1375-1461 | byte for byte: QoS 1 is answered with PUBACK, QoS 2 with PUBREC, PUBREC with PUBREL, PUBREL with PUBCOMP, with the id of the packet, and nothing else is answered |
| `Receptions.ReceptionFails` | components/mqtt/esp-mqtt/mqtt_client.c:1351-1491 | the exact cases in which handling a packet ends the connection |
| `Receptions.PassReceives` | components/mqtt/esp-mqtt/mqtt_client.c:1648-1696 | a pass with a packet is the handling of that packet and then a pass without one, or ends with the connection if the handling fails |
| `Receptions.PassFails` | components/mqtt/esp-mqtt/mqtt_client.c:1649-1660 | a disconnect request or a failed reception ends the connection and touches nothing stored |
| `Receptions.AcknowledgedForGood` | components/mqtt/esp-mqtt/mqtt_client.c:1412-1477 | in every legal run: once a pass handles the acknowledgement of a stored PUBLISH, removal and event are the next two log entries, and whatever follows, the message is never stored or written again |
| `Passes.ExpiryExactly` | components/mqtt/esp-mqtt/mqtt_client.c:1530-1548 | exactly the messages older than 30 seconds leave, each with one entry in the log; the others stay, in order |
| `Passes.PassExpires` | components/mqtt/esp-mqtt/mqtt_client.c:1662-1668 | a pass that receives nothing is the same pass over the queue without the expired messages |
| `Passes.QueuedGoesOut` | components/mqtt/esp-mqtt/mqtt_client.c:1670-1675 | in every connected state of a legal run: the first QUEUED message is written as stored; it becomes TRANSMITTED if it goes out whole, and otherwise stays QUEUED and the connection ends; no other message changes |
| `Passes.UnreliableGoesOut` | components/mqtt/esp-mqtt/mqtt_client.c:1670-1675 | a stored QoS 0 publish leaves with a whole write; the first other message with id zero is then TRANSMITTED and nothing else changes |
| `Passes.TransmittedGoesOutAgain` | components/mqtt/esp-mqtt/mqtt_client.c:1676-1683 | with nothing QUEUED or expired, the first TRANSMITTED message is written again if and only if at least the retransmit time has passed since the last retransmission and more than that since its tick, both below 2^63: its bytes with DUP for a PUBLISH, as far as they went; otherwise the log stays as it is |
| `Passes.UnreliableGoesOutAgain` | components/mqtt/esp-mqtt/mqtt_client.c:1676-1683 | a QoS 0 publish that was marked TRANSMITTED unsent is written at the same moment, as stored and without DUP, and leaves if it goes out whole |
| `Passes.NothingGoesOut` | components/mqtt/esp-mqtt/mqtt_client.c:1662-1683 | with nothing QUEUED or TRANSMITTED a pass writes nothing and keeps what is stored, and the connection stands unless keepalive or refresh end it |
| `Passes.IdlePassStands` | components/mqtt/esp-mqtt/mqtt_client.c:1648-1696 | whatever is stored: a pass that receives nothing keeps the connection if and only if its writes go out whole and neither keepalive nor refresh ends it |
| `Passes.MaintenanceExactly` | components/mqtt/esp-mqtt/mqtt_client.c:1685-1694 | the PINGREQ goes out exactly after half a period without one pending; the connection ends if and only if it does not go out whole, a PINGRESP is a whole period late, or the refresh time is reached |
| `Passes.KeepaliveSucceeds` | components/mqtt/esp-mqtt/mqtt_client.c:672-698 | when the keepalive step reports success |
| `Passes.PingBytes` | components/mqtt/esp-mqtt/lib/mqtt_msg.c:561-570 | a PINGREQ is the bytes C0 00 |
| `Calls.StoredBytes` | components/mqtt/esp-mqtt/lib/mqtt_outbox.c:42-65 | the size the limit is compared with is the sum over the stored messages |
| `Calls.PublishConnected` | components/mqtt/esp-mqtt/mqtt_client.c:2052-2169 | a QoS > 0 message within the limit that can be built: stored at the tail with its packet under its id, written, and TRANSMITTED with the time of the write if that went out whole; otherwise QUEUED, and the connection ends |
| `Calls.PublishUnconnected` | components/mqtt/esp-mqtt/mqtt_client.c:2099-2112 | without a connection it is stored as QUEUED |
| `Calls.PublishUnreliable` | components/mqtt/esp-mqtt/mqtt_client.c:2097-2169 | a QoS 0 publish is never stored: it is written, or without a connection dropped |
| `Calls.SurplusBytes` | components/mqtt/esp-mqtt/mqtt_client.c:2114-2145 | which bytes of memory a publish sends beyond its packet |
| `Calls.PublishRefused` | components/mqtt/esp-mqtt/mqtt_client.c:2085-2096 | a message over the outbox limit changes nothing; one that cannot be built stores and sends nothing |
| `Calls.EnqueueExactly` | components/mqtt/esp-mqtt/mqtt_client.c:2171-2211 | a message is stored, QUEUED at the tail, if and only if it is within the limit, can be built, and is of QoS > 0 or to be stored |
| `Calls.SubscribeExactly` | components/mqtt/esp-mqtt/mqtt_client.c:1872-1938 | a SUBSCRIBE is stored and written if and only if the client is connected, the outbox within its limit, every filter named, and the packet fits |
| `Calls.UnsubscribeExactly` | components/mqtt/esp-mqtt/mqtt_client.c:1946-1994 | an UNSUBSCRIBE likewise, whatever the outbox holds |
| `Calls.ConnectExactly` | components/mqtt/esp-mqtt/mqtt_client.c:724-758 | connected afterwards if and only if the broker accepts a CONNECT that fits; the outbox stays |
| `Calls.LossExactly` | components/mqtt/esp-mqtt/mqtt_client.c:822-840 | a lost connection leaves outbox, log, ids and clocks as they are |
| `Calls.StopExactly` | components/mqtt/esp-mqtt/mqtt_client.c:1820-1854 | afterwards nothing is stored and nobody is connected; each message dropped has its entry in the log, in order; the goodbye is the bytes E0 00 |
| `WireFormat.BigEndian` | components/mqtt/esp-mqtt/lib/mqtt_msg.c:49-61 | numbers go out with the high byte first, and of a longer one the low sixteen bits |
| `WireFormat.FromBigEndian` | components/mqtt/esp-mqtt/lib/mqtt_msg.c:192-216 | and are read that way |
| `WireFormat.NextIdExactly` | components/mqtt/esp-mqtt/lib/mqtt_msg.c:63-83 | the id after 65535 is one, after any other the next number |
| `WireFormat.LengthBytes` | components/mqtt/esp-mqtt/lib/mqtt_msg.c:106-124 | the one to four bytes of every length field |
| `WireFormat.FirstBytes` | components/mqtt/esp-mqtt/lib/mqtt_msg.c:98-139 | the first byte of every packet the client sends |
| `WireFormat.PacketTypes` | components/mqtt/esp-mqtt/lib/include/mqtt_msg.h:48-61 | which first bytes are which of the packets the client handles |
| `WireFormat.ValidFirstBytes` | components/mqtt/esp-mqtt/lib/mqtt_msg.c:583-617 | the 23 first bytes that are accepted |
| `WireFormat.PublishFlags` | components/mqtt/esp-mqtt/lib/include/mqtt_msg.h:96-123 | which bits of a PUBLISH are DUP, QoS and RETAIN |
| `WireFormat.PacketBytes` | components/mqtt/esp-mqtt/lib/mqtt_msg.c:98-139 | a packet is its first byte, the length of its body, and the body |
| `WireFormat.PublishBytes` | components/mqtt/esp-mqtt/lib/mqtt_msg.c:439-477 | the bytes of a PUBLISH, one by one |
| `WireFormat.SubscribeBytes` | components/mqtt/esp-mqtt/lib/mqtt_msg.c:515-540 | the bytes each filter adds to a SUBSCRIBE |
| `WireFormat.SubscribeStart` | components/mqtt/esp-mqtt/lib/mqtt_msg.c:515-540 | what a SUBSCRIBE begins with |
| `WireFormat.UnsubscribeBytes` | components/mqtt/esp-mqtt/lib/mqtt_msg.c:542-559 | the bytes of an UNSUBSCRIBE body |
| `WireFormat.PrintingExactly` | components/mqtt/esp-mqtt/lib/mqtt_msg.c:98-139 | for any fragment fields: the bytes printed, the length announced, and the offset afterwards |
| `WireFormat.AppendingExactly` | components/mqtt/esp-mqtt/lib/mqtt_msg.c:463-475 | the fragment fields a payload leaves, cut or whole |
| `WireFormat.FirstSentExactly` | components/mqtt/esp-mqtt/mqtt_client.c:2119-2145 | what the send loop takes for sent after its first write, and how many bytes it sends too many |
| `WireFormat.PublishFitsExactly` | components/mqtt/esp-mqtt/lib/mqtt_msg.c:439-477 | which publishes can be built |
| `WireFormat.IdDrawnExactly` | components/mqtt/esp-mqtt/lib/mqtt_msg.c:439-461 | when building one draws an id |
| `WireFormat.PublishParts` | components/mqtt/esp-mqtt/lib/mqtt_msg.c:192-216 | where topic and payload of a PUBLISH begin, and when the topic reader gives up |
| `WireFormat.PayloadPart` | components/mqtt/esp-mqtt/lib/mqtt_msg.c:218-264 | which bytes of a PUBLISH are its payload, and when the reader gives up |
| `WireFormat.PublishIdPart` | components/mqtt/esp-mqtt/lib/mqtt_msg.c:278-317 | where a PUBLISH keeps its id |
| `WireFormat.AckId` | components/mqtt/esp-mqtt/lib/mqtt_msg.c:278-338 | an acknowledgement keeps it in bytes two and three |
| `WireFormat.EventFields` | components/mqtt/esp-mqtt/mqtt_client.c:1061-1099 | where the topic and the id that the events carry stand in the packet |
| `WireFormat.Publish5Bytes` | components/mqtt/esp-mqtt/lib/mqtt5_msg.c:723-807 | the bytes of an MQTT 5.0 PUBLISH |
| `WireFormat.SectionPart` | components/mqtt/esp-mqtt/lib/mqtt5_msg.c:302-330 | where topic, properties and payload of an MQTT 5.0 PUBLISH lie |
| `WireFormat.PropertiesBytes` | components/mqtt/esp-mqtt/lib/mqtt5_msg.c:745-791 | the property section byte by byte: identifiers, values and their order |
| `WireFormat.UserPropertyBytes` | components/mqtt/esp-mqtt/lib/mqtt5_msg.c:745-791 | and its user properties |
| `WireFormat.CutOffProperty` | components/mqtt/esp-mqtt/lib/mqtt5_msg.c:331-401 | a property that the end of its section cuts off is not read as a whole one |
| `WireFormat.OtherProperties` | components/mqtt/esp-mqtt/lib/mqtt5_msg.c:331-401 | the properties that are read but never written, and that all others are refused |
| `Framing.HeaderDecides` | components/mqtt/esp-mqtt/lib/mqtt_msg.c:141-159 | whoever has the fixed header of a packet computes its total length |
| `Framing.ImmuneExactly` | components/mqtt/esp-mqtt/mqtt_client.c:1232-1233 | a packet is read correctly however it is interrupted if and only if it has six bytes or more or one of its last two bytes has the top bit clear |
| `Framing.AckCanBeMisread` | components/mqtt/esp-mqtt/mqtt_client.c:1232-1233 | a PUBACK interrupted before its last byte is misread exactly if both id bytes have the top bit set |
| `Receiver.Receiver.ReadLength` | components/mqtt/esp-mqtt/mqtt_client.c:1232-1250 | the length loop consumes top-bit bytes up to the first clear one, at most six bytes in all, and keeps the stream |
| `Receiver.Receiver.TargetOfLarge` | components/mqtt/esp-mqtt/mqtt_client.c:1254-1290 | only a PUBLISH may exceed the in-buffer; then the target is the full buffer |
| `Receiver.Receiver.ReadFixedHeader` | components/mqtt/esp-mqtt/mqtt_client.c:1210-1250 | when the header is there it is the header of the next packet, and no byte beyond the packet was taken, if and only if the resumption was safe |
| `Receiver.Receiver.ReceiveBody` | components/mqtt/esp-mqtt/mqtt_client.c:1251-1307 | the rest of the packet, or of what the in-buffer holds of it, is awaited and nothing beyond is taken |
| `Receiver.Receiver.MessageReceive` | components/mqtt/esp-mqtt/mqtt_client.c:1204-1311 | however the transport cuts the stream: 1 leaves exactly the next packet if and only if the resumption was safe; 0 and -1 leave a proper prefix of it, and only after a read that brought less than asked for; -2 means failure or too large |
| `Receiver.Receiver.ProcessReceive` | components/mqtt/esp-mqtt/mqtt_client.c:1313-1351 | a packet of any size that can be received is handed on, with type, QoS and id read off the buffer, the events of a PUBLISH and the buffer empty again, or the stream is as before; what stands in the buffer is the packet, or its beginning, if and only if the resumption was safe; without a packet it fails if and only if the transport broke, or something was buffered and this pass added nothing |
| `Receiver.Receiver.ReceiveAll` | components/mqtt/esp-mqtt/mqtt_client.c:1204-1351 | over any schedule of short reads and timeouts the packets of a stream, small or large, arrive whole, in order and exactly once, and each PUBLISH is delivered with all its payload, up to the first unsafe resumption, failure or delivery cut short; every round without a packet had a read that brought less than asked for, and a failure means that the transport broke or a packet stalled; immune packets never meet an unsafe resumption |
| `Receiver.Receiver.FirstEvent` | components/mqtt/esp-mqtt/mqtt_client.c:1061-1099 | the first DATA event carries topic, payload so far, offset zero, the total payload length, the message id and the flags |
| `Receiver.Receiver.DeliverPublish` | components/mqtt/esp-mqtt/mqtt_client.c:1045-1120 | if the header fits the in-buffer the events join to a prefix of the payload, to all of it exactly if no read failed; offsets, totals, topic, id and flags are as documented; if the header does not fit, never |
| `TaskLoop.Pass` | components/mqtt/esp-mqtt/mqtt_client.c:1648-1696 | one pass with the receiver: what the client handles is exactly the packet of the stream, SUBACK and PUBLISH succeed as their delivery does, a pass that finds nothing is idle, and it fails if and only if the transport broke or a packet stalled |
| `TaskLoop.AllSeenExactly` | components/mqtt/esp-mqtt/mqtt_client.c:1341-1351 | what a pass sees of a packet: type, QoS and id |
| `TaskLoop.PassesExactly` | components/mqtt/esp-mqtt/mqtt_client.c:1576-1735 | the run of the passes has one operation for each |
| `TaskLoop.RunTask` | components/mqtt/esp-mqtt/mqtt_client.c:1576-1735 | over any schedule: receiver and client together end where a legal run ends whose passes, at their times, handle the packets of the stream in order, each once and nothing else, and the events are those of the packets; all other passes are idle, no more of them than reads that brought less than asked for, and none fails before the transport breaks or a packet stalls |
| `KeepaliveDeadline.HasTimedOutMeansElapsed` | components/mqtt/esp-mqtt/mqtt_client.c:666-670 | the wrapping comparison is true if and only if the elapsed time reaches the timeout, both below 2^63 |
| `KeepaliveDeadline.PassKeepsDeadline` | components/mqtt/esp-mqtt/mqtt_client.c:1648-1696 | one pass within K/2 of the last keeps every standing connection within its deadline |
| `KeepaliveDeadline.DeadlineHolds` | components/mqtt/esp-mqtt/mqtt_client.c:672-698 | over all runs with passes at most K/2 apart, a connection standing after a pass is younger than K/2, or than K with a ping pending |
| `KeepaliveDeadline.SilentBrokerIsDropped` | components/mqtt/esp-mqtt/mqtt_client.c:672-698 | a broker that sends no PINGRESP is dropped by the first check K after the connect or last PINGRESP, hence within K + D |
| `Mqtt5Msg.BeNByte` | components/mqtt/esp-mqtt/lib/mqtt5_msg.c:107-111 | the number loop writes the bytes of a value most significant first |
| `Mqtt5Msg.AppendProperty` | components/mqtt/esp-mqtt/lib/mqtt5_msg.c:90-119 | a property is written exactly if it fits: type, number or length, data |
| `Mqtt5Msg.ShiftRight` | components/mqtt/esp-mqtt/lib/mqtt5_msg.c:77-82 | the in-place loop moves the property bytes right without losing one |
| `Mqtt5Msg.UpdatePropertyLength` | components/mqtt/esp-mqtt/lib/mqtt5_msg.c:65-88 | the one-byte placeholder becomes the length field in front of the same property bytes, or the call fails exactly if the buffer is too small; nothing is written past its end |
| `Mqtt5Msg.AppendSection` | components/mqtt/esp-mqtt/lib/mqtt5_msg.c:745-791 | the property section is appended exactly if it fits |
| `Mqtt5Msg.MsgPublish5` | components/mqtt/esp-mqtt/lib/mqtt5_msg.c:723-807 | exactly when header and section fit the out-buffer holds the one-shot MQTT 5.0 PUBLISH or its longest prefix with the fragment fields set |
| `Mqtt5Properties.PropertiesRoundTrip` | components/mqtt/esp-mqtt/lib/mqtt5_msg.c:331-401 | the section reads back as the properties that were set, user properties in order |
| `Mqtt5Msg.ReadProperties` | components/mqtt/esp-mqtt/lib/mqtt5_msg.c:331-401 | the decoding loop computes the recursive decoding |
| `Mqtt5Msg.GetPublishPropertyPayload` | components/mqtt/esp-mqtt/lib/mqtt5_msg.c:302-410 | topic, properties and payload as the packet lays them out, or null for the cases the reader gives up on |
| `Mqtt5Msg.Publish5RoundTrip` | components/mqtt/esp-mqtt/lib/mqtt5_msg.c:302-410 | every unfragmented MQTT 5.0 PUBLISH with a section below 65536 bytes is well formed and reads back with its topic, properties, ordered user properties and payload |
| `Bits.SameBits` | components/esp_ssd1306/ssd1306.c:337-374 | a byte is determined by its eight bits |
| `Bits.RotateByte` | components/esp_ssd1306/ssd1306.c:1455-1464 | reverses the bits of a byte |
| `Display.Display.SetPixel` | components/esp_ssd1306/ssd1306.c:337-374 | sets or clears exactly that pixel in both flip modes, and nothing off the panel |
| `Display.PaintedExactly` | components/esp_ssd1306/ssd1306.c:337-374 | painted points are lit, or dark when inverted; all others stay |
| `Display.Display.LitExactly` | components/esp_ssd1306/ssd1306.c:337-374 | which bit of which byte a pixel is, on an upright and on a flipped panel |
| `WrapAround.SidewaysExactly` | components/esp_ssd1306/ssd1306.c:1289-1315 | RIGHT and LEFT rotate exactly the rows of the selected pages by one column |
| `WrapAround.UpwardsExactly` | components/esp_ssd1306/ssd1306.c:1316-1410 | DOWN and UP rotate exactly the selected columns by one row |
| `CubeService.NewestExactly` | Cube_Backend/src/main/java/pl/danielstrielnikow/cube_backend/service/CubeService.java:30 | the session an event closes is one without an end that started last, wherever it stands in the table |
| `CubeService.EventExactly` | Cube_Backend/src/main/java/pl/danielstrielnikow/cube_backend/service/CubeService.java:24-58 | what an accepted event stores, written out: the chosen session ended now with its length in whole seconds, and a new one opened for a positive side |
| `Line.LineConnects` | components/esp_ssd1306/ssd1306.c:448-462 | the line has max(dx, dy) + 1 pixels from end to end, each an 8-neighbour of the one before |
| `Line.LineIsInjective` | components/esp_ssd1306/ssd1306.c:448-462 | no pixel of a line comes twice |
| `Line.LineIsClose` | components/esp_ssd1306/ssd1306.c:448-462 | after a steps along x and b along y, 2*|b*dx - a*dy| <= max(dx, dy) |
| `Line.MinorUnique` | components/esp_ssd1306/ssd1306.c:453-461 | the exact rounding of the line, ties included: only one position keeps the error term between zero and the longer side |
| `Line.MinorSteps` | components/esp_ssd1306/ssd1306.c:453-461 | the error term is the closed-form remainder, and one step updates both as the loop does |
| `Line.EndsOnlyAtEnd` | components/esp_ssd1306/ssd1306.c:450-452 | only the last pixel is the end point, so the loop stops there and not before |
| `Line.LineOnScreen` | components/esp_ssd1306/ssd1306.c:384-396 | all pixels of a clamped line lie on the panel |
| `Line.SetLine` | components/esp_ssd1306/ssd1306.c:377-465 | after clamping, exactly the pixels of the line change, for all end points, in both modes |
| `Circle.CircleExactly` | components/esp_ssd1306/ssd1306.c:468-505 | which pixels the circle consists of: the larger offset is the integer nearest to the circle at the smaller one, on every side of the centre |
| `Circle.NearestUnique` | components/esp_ssd1306/ssd1306.c:468-505 | the integer nearest to the circle at an offset is unique |
| `Circle.CircleIsAccurate` | components/esp_ssd1306/ssd1306.c:468-505 | every pixel of the circle satisfies |a^2 + b^2 - r^2| <= its larger offset |
| `Circle.CircleGoesOn` | components/esp_ssd1306/ssd1306.c:468-505 | the circle has no gaps: short of the diagonal every pixel of an octant has an 8-neighbour at the next offset, and at the diagonal it neighbours its mirror image |
| `Circle.TrackGoesOn` | components/esp_ssd1306/ssd1306.c:483-491 | the loop keeps f = (x+1)^2 + y(y-1) - r^2, ddF_x = 2x+1, ddF_y = -2y, and y the nearest integer |
| `Circle.TermsFit` | components/esp_ssd1306/ssd1306.c:469-491 | the error terms fit sixteen bits throughout, after the last round as well |
| `Circle.SetCircle` | components/esp_ssd1306/ssd1306.c:468-505 | exactly the pixels of the 8-fold symmetric circle change, after the conversion of their coordinates to uint8_t |
| `Circle.CircleIsClipped` | components/esp_ssd1306/ssd1306.c:343-349 | if no coordinate wraps onto the panel, the pixels drawn are exactly the on-screen part of the circle |
| `Circle.SmallCirclesDoNotWrap` | components/esp_ssd1306/ssd1306.c:343-349 | this holds for all centres and radii below 128 |
| `Circle.WrappedCircleIsWrong` | components/esp_ssd1306/ssd1306.c:343-349 | a circle of any radius but 128 whose outermost pixel on some side, right, left, below or above, comes back onto the panel shows pixels that do not belong to it |
| `Circle.CircleWrapsExactly` | components/esp_ssd1306/ssd1306.c:343-349 | for radii up to 128 and a centre on a row of the panel, what is shown is the on-screen part of the circle if and only if the circle does not reach past column 255, or has centre column and radius 128 |
| `Circle.CircleRightExactly` | components/esp_ssd1306/ssd1306.c:343-349 | for radii below 128 and any centre it is that if and only if no pixel of the circle is brought onto the panel by the conversion |
| `WrapAround.ShiftUp` | components/esp_ssd1306/ssd1306.c:1329-1344 | the byte work of SCROLL_UP: rows shift by one across the page boundary, in both flip modes |
| `WrapAround.ShiftDown` | components/esp_ssd1306/ssd1306.c:1378-1393 | the byte work of SCROLL_DOWN, likewise |
| `WrapAround.RotateRight` | components/esp_ssd1306/ssd1306.c:1294-1300 | one page moves right by one column, the last coming in first; all other pages stay |
| `WrapAround.RotateLeft` | components/esp_ssd1306/ssd1306.c:1306-1312 | likewise to the left |
| `WrapAround.BytesUp` | components/esp_ssd1306/ssd1306.c:1322-1360 | every selected column of every page is shifted, the last page fed from the saved first one |
| `WrapAround.BytesDown` | components/esp_ssd1306/ssd1306.c:1370-1408 | likewise downwards, the first page fed from the saved last one |
| `WrapAround.WrapAround` | components/esp_ssd1306/ssd1306.c:1283-1410 | the image after a scroll is the rotation by one of each selected column or page; everything else stays |
| `WrapAround.ScrollBack` | components/esp_ssd1306/ssd1306.c:1283-1410 | opposite directions undo each other |
| `WrapAround.TimesMeans` | components/esp_ssd1306/ssd1306.c:1283-1410 | after n scrolls each selected pixel is the one n places away, modulo height or width |
| `WrapAround.FullTurn` | components/esp_ssd1306/ssd1306.c:1283-1410 | height many vertical or 128 horizontal scrolls are the identity |
| `CubeService.CubeService.FindOpen` | Cube_Backend/src/main/java/pl/danielstrielnikow/cube_backend/service/CubeService.java:30 | an open session of the cube with the latest start, if there is one |
| `CubeService.CubeService.ProcessEvent` | Cube_Backend/src/main/java/pl/danielstrielnikow/cube_backend/service/CubeService.java:24-81 | for every event and table: the new table and the outcome; an unknown cube or a null side changes nothing |
| `CubeService.OthersUntouched` | Cube_Backend/src/main/java/pl/danielstrielnikow/cube_backend/service/CubeService.java:24-58 | an event changes no session of another cube, never the cube, side or start of any session, and of its own cube's sessions only the one chosen as the newest open one |
| `CubeService.RunSound` | Cube_Backend/src/main/java/pl/danielstrielnikow/cube_backend/model/WorkSession.java:31-37 | every stored session has a positive side, ends no earlier than it starts, and carries its length in whole seconds |
| `CubeService.RunTidy` | Cube_Backend/src/main/java/pl/danielstrielnikow/cube_backend/service/CubeService.java:29-58 | if no event of a cube repeats its side, then with a non-decreasing clock the cube has at most one open session, the newest, with the side of its last event, and closed ones do not overlap, whatever other cubes do |
| `CubeService.TidyExactly` | Cube_Backend/src/main/java/pl/danielstrielnikow/cube_backend/service/CubeService.java:32-34 | with a strictly increasing clock this holds if and only if no event repeats the side of the cube's previous event |
| `CubeService.RepeatTangles` | Cube_Backend/src/main/java/pl/danielstrielnikow/cube_backend/service/CubeService.java:32-34 | an event that repeats the side leaves two open sessions |
| `CubeService.RepeatedSideLeavesSessionOpen` | Cube_Backend/src/main/java/pl/danielstrielnikow/cube_backend/service/CubeService.java:32-34 | two events with side 3 and then a sleep: the older session stays open |
| `CubeService.RunHistory` | Cube_Backend/src/main/java/pl/danielstrielnikow/cube_backend/service/CubeService.java:24-58 | the sessions of a cube are exactly those its events stand for: each lasts until the cube's next event |
| `CubeService.CubesAreIndependent` | Cube_Backend/src/main/java/pl/danielstrielnikow/cube_backend/service/CubeService.java:24-58 | what is stored for a cube depends on that cube's events alone, however they are interleaved with others |

## Left out

- Client.Client.Publish: excludes a null payload while a fragment total is pending, where the C copies from a null pointer, and a null payload with a negative length, which passes a negative number to the limit check.
- Client.Client.Enqueue: the same two exclusions.
- Client.Client.Dispatch: whether the packet could be delivered is an input, which `TaskLoop` takes from the receiver; the events of a SUBACK, whose reader assumes a one-byte length, are not modelled.
- Client.Client.MakePublish: excludes a null payload while a fragment total is pending.
- Client.Client.EnqueuePublish: the same exclusion.
- MqttMsg.Connection.MsgConnect: from the finished body on; flags and strings of the CONNECT are not modelled.
- Client.Client.Connect: the CONNECT body and what comes of the CONNACK are given.
- Client.Client.Stop: a call on a client that does not run, or from its own task, is refused at once and is not modelled.
- OutboxLimit.UnsubscribeReachesAnySize: stops at 65535 packets, because stored non-zero ids are distinct in legal runs; its topics are longer than 65535 bytes, whose two-byte length field wraps, while those of UnsubscribeBreaksBound need not be.
- Receiver.Receiver.ReceiveAll: packets that fit the in-buffer, or PUBLISHes whose header does; MessageReceive and DeliverPublish say what becomes of the others.
- TaskLoop.RunTask: starts from a standing connection and ends with it; the state of the buffer after a failure is not carried into the next connection, which empties it.
- Mqtt5Msg.AppendProperty: its variable-length form is only used by the subscribe builder and is not modelled.
- Mqtt5Msg.ReadProperties: for sections whose properties end where the section does; the C reads on past a property that runs over the end.
- Mqtt5Msg.GetPublishPropertyPayload: the same, and packets whose reads would leave the buffer.
- Mqtt5Msg.MsgPublish5: without a response-information string, whose concatenation reuses the response topic.
- Circle.CircleIsClipped: gives a sufficient condition; some circles that wrap still land on pixels of their own or off the panel, and radii above 128 have no exact condition here.
- Circle.WrappedCircleIsWrong: leaves out radius 128, where the outermost pixels of opposite sides may meet; CircleWrapsExactly decides it for centres on a row of the panel.
- CubeService.CubeService.ProcessEvent: without the web-socket messages it sends along.
- CONNECT and CONNACK, reconnect timing, TLS, WebSocket and URI handling, client configuration: foreign calls and copying.
- MQTT 5.0 flow control and topic aliases across reconnects: the counter test in the code does not give the bound of section 4.9 of MQTT 5.0.
- Allocation failure and the lifetime of pointers: allocation succeeds in the model.
- The `ssd1306` functions for text, bitmaps, rectangles, pages and hardware scrolling, and all I2C traffic.
- `lib/cube_logic`, `src/main.c`, `type_utils.c`, and the UDP, web-socket and repository classes of the backend: wiring and small tables.
