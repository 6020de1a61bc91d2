# Protocol engines of lib60870-C: model and proofs

A Dafny model of the protocol engines of lib60870-C and the codecs beneath them. Run `dafny verify dfyconfig.toml`.

- **IEC 60870-5-104** (sections 5.1, 5.2 and 5.5): `Cs104Station` is what one connection does, as functions on the list of
  unconfirmed frames; `Cs104Connection` is the object with its ring of k slots, updated in place, and refines it;
  `Cs104System` puts two stations on FIFO channels and proves what holds in every run; `Cs104Control` starts, stops and
  tests the connection; `Cs104Timers` and `Cs104Deadlines` add time;
  `Cs104Frame` and `Cs104Receive` are the octets and their reassembly from a TCP stream, and `Cs104Octets` puts the two
  stations on octet streams.
- **ASDUs** (section 7.2.2 of IEC 60870-5-101): `Asdu` validates, `AsduBuilder` builds and parses.
- **Link layer** (IEC 60870-5-2, frames of section 6.2.4.2 of IEC 60870-5-1): `Ft12`, `Ft12Standard` and
  `Ft12Transceiver` are the frames and octets; `LinkBalanced` and `LinkUnbalanced` the alternating-bit protocols over lossy
  channels, `LinkBalancedService` and `LinkUnbalancedService` what each service does from end to end, `LinkBus` and
  `LinkBusTiming` the scheduling of slaves, and `LinkBusSystem` a master and all its slaves on one bus; the
  `...Station` modules are the objects that refine them. `LinkFrames` is shared vocabulary.
- **Data structures**: `Cs101Queue` (drop-oldest ring), `CpTime` (CP56Time2a, section 7.2.6.18 of IEC 60870-5-101),
  `FileServer`, `FileServerDownload` and `FileServerPlugin` (file download with checksums). `Bytes`, `Rings` and `Wrappers` are shared.

Each object is a class whose methods change its fields as the source does; their postconditions equate the new state
with a function of the old one, and the lemmas about runs are about these functions. Times are unbounded integers in
milliseconds and one call reads the clock once. `x & mask` on octets is written with `/` and `%`.

Some expected properties do not hold of the code. For each the model keeps the code's behaviour and shows an input where
it fails. The exact condition is proved for the full window at k = 32768, types 110 to 113 in sequence form, years outside
2000 to 2099, 256-octet queue entries, frame octets that no check covers, link tests requested while user data awaits
confirmation, messages that survive a broken link, messages overtaken by their repetition, files with empty or more than 255
sections, and both file checksums. For
late answers to polls, and for DFC and unasked status responses on the bus, the condition used is sufficient, and
families of failing cases show that it cannot be dropped.

The `...Station` modules, `Cs104Connection` and `FileServerPlugin` show that the objects, updated in place, do what the
specification functions say; the results about runs are about these functions.

## Model

| member | source | states |
|---|---|---|
| Cs104System.NoRunFails | lib60870-C/src/iec60870/cs104/cs104_connection.c:1220-1342 | over reliable FIFO channels, in any interleaving of both stations' sends, receives, confirmations, timeouts, U-frames and closing, with k <= 32767: no sequence error, no rejected N(R), no unreadable ASDU; each application has received a prefix of what the other sent, across any number of wraps at 32768 |
| Cs104System.WindowHoldsLastSent | lib60870-C/src/iec60870/cs104/cs104_connection.c:263-297 | in every reachable state the window of either station holds at most k frames, the last ones sent, with consecutive numbers up to sendCount |
| Cs104System.Accounting | lib60870-C/src/iec60870/cs104/cs104_connection.c:234-248 | in both directions: the unconfirmed counter is receiveCount minus the last N(R) transmitted (in an I- or S-frame) modulo 32768, and confirmed <= acknowledged <= delivered <= sent at every moment |
| Cs104System.LoopConfirms | lib60870-C/src/iec60870/cs104/cs104_connection.c:960-971 | the confirm step leaves fewer than w frames unconfirmed |
| Cs104System.LoopKeepsBound | lib60870-C/src/iec60870/cs104/cs104_connection.c:1585-1589 | in every run in which a station comes to the confirm step after each message, it has fewer than w frames unconfirmed after each iteration |
| Cs104System.ActKeepsLoopBound | lib60870-C/src/iec60870/cs104/cs104_connection.c:960-971 | every action inside or outside that loop keeps the bound |
| Cs104System.DrainedChannelsSettle | lib60870-C/src/iec60870/cs104/cs104_connection.c:1262-1281 | once both channels are empty everything sent is delivered in both directions and each sender holds exactly the frames its peer has not acknowledged |
| Cs104System.DrainedChannelsLeaveRoom | lib60870-C/src/iec60870/cs104/cs104_connection.c:278-297 | hence with 0 < w <= k, whenever both channels are empty and the peer is through its loop, a station can send; for both stations and every run |
| Cs104System.OctetsCarryFrames | lib60870-C/src/iec60870/cs104/cs104_connection.c:1220-1242 | every frame under way survives encoding and decoding whatever the receive buffer held before |
| Cs104System.Reachable | lib60870-C/src/iec60870/cs104/cs104_connection.c:1220-1342 | the invariant relating windows, counters, histories and both channels holds in every reachable state |
| Cs104System.NextKeepsInv | lib60870-C/src/iec60870/cs104/cs104_connection.c:1220-1342 | every step of either station keeps that invariant |
| Cs104System.ReadI | lib60870-C/src/iec60870/cs104/cs104_connection.c:1221-1282 | receiving an information frame keeps it |
| Cs104System.ReadS | lib60870-C/src/iec60870/cs104/cs104_connection.c:1323-1336 | receiving a supervisory frame keeps it |
| Cs104System.WriteData | lib60870-C/src/iec60870/cs104/cs104_connection.c:278-297 | sending an ASDU keeps it |
| Cs104System.WriteAck | lib60870-C/src/iec60870/cs104/cs104_connection.c:222-231 | transmitting an N(R) keeps it |
| Cs104System.NumberIsAccepted | lib60870-C/src/iec60870/cs104/cs104_connection.c:651-735 | an N(R) read from the channel is accepted and confirms only delivered frames |
| Cs104System.TimeoutsKeepInv | lib60870-C/src/iec60870/cs104/cs104_connection.c:1344-1420 | the timeout handler keeps it |
| Cs104Control.EveryRunAnswers | lib60870-C/src/iec60870/cs104/cs104_connection.c:1282-1320 | in every run of two stations, whatever the windows: the control frames a station writes are, in order, one STARTDT or STOPDT activation per request of its user, one STARTDT_CON per STARTDT_ACT read and one TESTFR_CON per TESTFR_ACT read, and no others but test frames; and its connection state is what the last request, STARTDT_ACT, STARTDT_CON or STOPDT_CON made it |
| Cs104Control.ActAnswers | lib60870-C/src/iec60870/cs104/cs104_connection.c:1282-1320 | every action keeps this |
| Cs104Control.StartHandshake | lib60870-C/src/iec60870/cs104/cs104_connection.c:1302-1316 | the octets of the start request make the other end active and are answered by the octets of STARTDT_CON, which make the requester active, whatever the two were doing |
| Cs104Control.StopHandshake | lib60870-C/src/iec60870/cs104/cs104_connection.c:1806-1830 | a stop request acknowledges what is outstanding, then asks with the octets of STOPDT_ACT; STOPDT_CON makes the requester inactive |
| Cs104Control.TestHandshake | lib60870-C/src/iec60870/cs104/cs104_connection.c:1290-1301 | the octets of a test frame are answered by those of TESTFR_CON, which settle all unanswered tests; neither changes a connection state |
| Cs104Control.WhichFramesClose | lib60870-C/src/iec60870/cs104/cs104_connection.c:1219-1342 | a received frame closes the connection if and only if it is an information frame out of sequence, without an ASDU or with an unreadable one, or confirms what is not pending; every other one restarts T3, and only an information frame delivers |
| Cs104Station.AcceptedNumbers | lib60870-C/src/iec60870/cs104/cs104_connection.c:651-735 | an N(R) is accepted exactly if it is the base (oldest - 1, or sendCount when nothing is pending), which drops nothing, or the number of a pending frame, which drops that frame and all older ones |
| Cs104Station.AcknowledgeKeepsWindow | lib60870-C/src/iec60870/cs104/cs104_connection.c:651-735 | acceptance leaves a consecutive suffix whose base is the N(R) and changes nothing else |
| Cs104Station.DropKeepsWindow | lib60870-C/src/iec60870/cs104/cs104_connection.c:700-733 | dropping the oldest d entries moves the base by d and keeps the rest consecutive |
| Cs104Station.SendKeepsWindow | lib60870-C/src/iec60870/cs104/cs104_connection.c:278-297 | sending keeps the window consecutive and fails exactly when it holds k frames |
| Cs104Station.FullAcknowledgement | lib60870-C/src/iec60870/cs104/cs104_connection.c:651-735 | acknowledging the newest frame empties the window if and only if it holds fewer than 32768 frames: why the system results need k <= 32767 |
| Cs104Connection.AcceptanceTest | lib60870-C/src/iec60870/cs104/cs104_connection.c:660-693 | the two-case test with and without counter overflow and with oldest - 1 accepts exactly the distances 0 to n |
| Cs104Connection.RemovalTest | lib60870-C/src/iec60870/cs104/cs104_connection.c:695-733 | during removal the entry that ends the loop is the confirmed one, and the early exit fires only when nothing is confirmed |
| Cs104Connection.AcceptsPending | lib60870-C/src/iec60870/cs104/cs104_connection.c:660-693 | that test decides acceptance for the numbers a window holds |
| Cs104Connection.RemovesPending | lib60870-C/src/iec60870/cs104/cs104_connection.c:695-733 | and the removal loop's conditions drop exactly the acknowledged prefix |
| Cs104Connection.Connection.constructor | lib60870-C/src/iec60870/cs104/cs104_connection.c:609-650 | fresh connection: the start state of the specification |
| Cs104Connection.Connection.IsSentBufferFull | lib60870-C/src/iec60870/cs104/cs104_connection.c:263-276 | true if and only if the window holds exactly k frames |
| Cs104Connection.Connection.SendIMessage | lib60870-C/src/iec60870/cs104/cs104_connection.c:233-249 | writes the encoded frame with N(S) = sendCount and N(R) = receiveCount, advances sendCount modulo 32768 and clears the unconfirmed count and T2 |
| Cs104Connection.Connection.SendIMessageAndUpdateSentASDUs | lib60870-C/src/iec60870/cs104/cs104_connection.c:277-297 | appends the sent number to the ring and writes the frame |
| Cs104Connection.Connection.SendASDU | lib60870-C/src/iec60870/cs104/cs104_connection.c:322-347 | sends unless the window is full; refines Cs104Station.Send on the ring buffer |
| Cs104Connection.Connection.IsSequenceNumberValid | lib60870-C/src/iec60870/cs104/cs104_connection.c:651-693 | decides Cs104Station.Acknowledge for any number, with wrap and when empty |
| Cs104Connection.Connection.RemoveConfirmed | lib60870-C/src/iec60870/cs104/cs104_connection.c:695-733 | the do-while loop terminates and leaves exactly the unacknowledged suffix in the ring |
| Cs104Connection.Connection.CheckSequenceNumber | lib60870-C/src/iec60870/cs104/cs104_connection.c:651-735 | refines Cs104Station.Acknowledge on the ring buffer; nothing changes on rejection |
| Cs104Connection.Connection.SendSMessage | lib60870-C/src/iec60870/cs104/cs104_connection.c:222-231 | writes the encoded S-frame with N(R) = receiveCount |
| Cs104Connection.Connection.ConfirmOutstandingMessages | lib60870-C/src/iec60870/cs104/cs104_connection.c:1171-1178 | refines Cs104Station.Confirm |
| Cs104Connection.Connection.ConfirmIfNecessary | lib60870-C/src/iec60870/cs104/cs104_connection.c:1585-1589 | refines the confirm step of the loop |
| Cs104Connection.Connection.ReceiveIFrame | lib60870-C/src/iec60870/cs104/cs104_connection.c:1240-1281 | refines Cs104Station.ReceiveI |
| Cs104Connection.Connection.CheckIMessage | lib60870-C/src/iec60870/cs104/cs104_connection.c:1221-1281 | decodes the octets and handles a frame in information format |
| Cs104Connection.Connection.CheckUMessage | lib60870-C/src/iec60870/cs104/cs104_connection.c:1282-1322 | refines CheckMessage for every U-frame; what it answers and when the connection is active is Cs104Control.EveryRunAnswers |
| Cs104Connection.Connection.CheckMessage | lib60870-C/src/iec60870/cs104/cs104_connection.c:1219-1342 | handling the octets of a buffer is handling the frame they decode to |
| Cs104Connection.Connection.HandleT3Timeout | lib60870-C/src/iec60870/cs104/cs104_connection.c:1355-1376 | T3 supervision with at most three unanswered tests |
| Cs104Connection.Connection.HandleTimeouts | lib60870-C/src/iec60870/cs104/cs104_connection.c:1344-1420 | refines Cs104Station.HandleTimeouts |
| Cs104Connection.Connection.SendStartDT | lib60870-C/src/iec60870/cs104/cs104_connection.c:1779-1800 | refines Cs104Station.SendStartDt |
| Cs104Connection.Connection.SendStopDT | lib60870-C/src/iec60870/cs104/cs104_connection.c:1806-1830 | refines Cs104Station.SendStopDt: outstanding frames are acknowledged first |
| Cs104Timers.AcknowledgedInTime | lib60870-C/src/iec60870/cs104/cs104_connection.c:1157-1178 | for every interleaving of arrivals and sends polled every d ms: lastConfirmationTime is the arrival of the oldest unacknowledged frame and none stays unacknowledged longer than T2 + d |
| Cs104Timers.TickKeepsT2 | lib60870-C/src/iec60870/cs104/cs104_connection.c:1226-1230 | every event keeps the relation between T2 and the arrival times |
| Cs104Timers.DeadPeerIsDetected | lib60870-C/src/iec60870/cs104/cs104_connection.c:1355-1376 | from any reachable state, if no frame arrives any more the connection is given up within 4 * (T3 + d) |
| Cs104Timers.DeadPeerIsDetectedByT1 | lib60870-C/src/iec60870/cs104/cs104_connection.c:1371-1394 | if T1 + d <= T3, from any reachable state a silent peer is given up within T3 + T1 + 2 d: T1 of the test frame ends before the next one is due; the application must not start or stop data transfer meanwhile, which restarts T1 |
| Cs104Timers.SilenceAdvancesT3 | lib60870-C/src/iec60870/cs104/cs104_connection.c:1355-1376 | every T3 period of silence is one more unanswered test |
| Cs104Timers.AtMostThreeTests | lib60870-C/src/iec60870/cs104/cs104_connection.c:1297-1301 | between two TESTFR_CON at most three TESTFR_ACT are sent, up to and including the event that takes the connection down |
| Cs104Deadlines.PollDecides | lib60870-C/src/iec60870/cs104/cs104_connection.c:1344-1420 | in every run a poll closes the connection if and only if a fourth test is due, or T1 has passed since an activation or test that no U-frame has answered, or T1 since the oldest unacknowledged ASDU was sent; it writes a test frame if and only if T3 has passed since the peer was last heard or tested, and an acknowledgement if and only if T2 has passed since the oldest unacknowledged frame arrived |
| Cs104Deadlines.AcknowledgesWhenDue | lib60870-C/src/iec60870/cs104/cs104_connection.c:960-971 | besides polls an S-frame is written if and only if w frames (any, while being stopped) are unacknowledged behind a message, or any on a stop request; it carries the receive count and sets lastConfirmationTime |
| Cs104Deadlines.RunKeeps | lib60870-C/src/iec60870/cs104/cs104_connection.c:1344-1420 | the timers and send times of a connection are those of its history: last frame heard or tested, last unanswered activation, send times of the pending ASDUs |
| Cs104Frame.DecodeEncode | lib60870-C/src/iec60870/cs104/cs104_connection.c:1219-1242 | format, N(S), N(R) and ASDU decoded from a buffer that starts with an encoded frame are those encoded |
| Cs104Frame.FormatOfControlOctet | lib60870-C/src/iec60870/cs104/cs104_connection.c:1222-1322 | the first control octet alone decides the format, for any octets |
| Cs104Frame.EncodeInjective | lib60870-C/src/iec60870/cs104/cs104_frame.c:163-175 | different frames never share their octets |
| Cs104Frame.T104Frame.constructor | lib60870-C/src/iec60870/cs104/cs104_frame.c:125-139 | an empty frame behind six APCI octets |
| Cs104Frame.T104Frame.SetNextByte | lib60870-C/src/iec60870/cs104/cs104_frame.c:177-183 | appends one octet to the ASDU |
| Cs104Frame.T104Frame.AppendBytes | lib60870-C/src/iec60870/cs104/cs104_frame.c:185-198 | appends the octets in order to the ASDU, in place |
| Cs104Frame.T104Frame.PrepareToSend | lib60870-C/src/iec60870/cs104/cs104_frame.c:163-175 | the buffer then holds exactly the encoded information frame |
| Cs104Receive.SplitAppend | lib60870-C/src/iec60870/cs104/cs104_connection.c:1088-1155 | parsing may stop anywhere and resume with the left-over octets: chunking does not matter |
| Cs104Receive.FramesRoundTrip | lib60870-C/src/iec60870/cs104/cs104_connection.c:1088-1155 | the octets of any frame list split into exactly these frames |
| Cs104Receive.CutAnywhere | lib60870-C/src/iec60870/cs104/cs104_connection.c:1088-1155 | any prefix of such a stream is free of errors and holds the first frames and part of the next |
| Cs104Receive.FramesDecode | lib60870-C/src/iec60870/cs104/cs104_connection.c:1219-1242 | each of them decodes to itself whatever is left in the receive buffer |
| Cs104Octets.NoOctetRunFails | lib60870-C/src/iec60870/cs104/cs104_connection.c:1088-1342 | two stations over octet streams delivered in any portions: no wrong start octet, sequence error, rejected N(R) or unreadable ASDU, and each application has received a prefix of what the other sent |
| Cs104Octets.RunRefines | lib60870-C/src/iec60870/cs104/cs104_connection.c:1088-1342 | every run on octets is, message by message, a run on frames |
| Cs104Octets.StepARefines | lib60870-C/src/iec60870/cs104/cs104_connection.c:1088-1342 | every step on octets is the same step on frames or none |
| Cs104Octets.CallTakes | lib60870-C/src/iec60870/cs104/cs104_connection.c:1088-1155 | one call of receiveMessage on a stream of frames gets nothing yet or exactly the next frame |
| Cs104Receive.Receiver.ReceiveMessage | lib60870-C/src/iec60870/cs104/cs104_connection.c:1088-1155 | for every behaviour of the socket the messages emitted so far and the partial one in the buffer are the batch split of the octets consumed, and one call adds at most one message; -1 only for a socket failure or a wrong start octet |
| Cs104Receive.Receiver.ReceiveRest | lib60870-C/src/iec60870/cs104/cs104_connection.c:1107-1155 | the same from the length octet on |
| Cs104Receive.Receiver.ReceiveBody | lib60870-C/src/iec60870/cs104/cs104_connection.c:1126-1151 | the same from the body on |
| Cs104Receive.Receiver.ReadInto | lib60870-C/src/iec60870/cs104/cs104_connection.c:1070-1080 | reads up to size octets into the buffer from a position on |
| Asdu.AcceptedElementsAreComplete | lib60870-C/src/iec60870/cs101/cs101_asdu.c:380-418 | if createFromBufferEx accepts an ASDU of a type in the size table, every readable element is complete, in both forms (types 110 to 113 in sequence form: only the first) |
| Asdu.FoundElementsAreThere | lib60870-C/src/iec60870/cs101/cs101_asdu.c:697-1684 | conversely, for any octets: an element that is found exists, is the only one if its type allows no other, and all its octets, a segment's own length included, are in the payload |
| Asdu.TablesAgree | lib60870-C/src/iec60870/cs101/cs101_asdu.c:79-273 | the size table and the readers agree on element sizes and on single-object types |
| Asdu.TimeTagsAddUp | lib60870-C/src/iec60870/cs101/cs101_asdu.c:79-155 | the sizes of the time-tagged types are those of the plain ones plus 3 or 7 octets |
| Asdu.ParameterTypesInSequenceForm | lib60870-C/src/iec60870/cs101/cs101_asdu.c:697-1684 | types 110 to 113 in sequence form, any accepted ASDU: element i is complete if and only if i + 1 strides of address and element fit the payload, so all are if and only if n strides fit |
| Asdu.ParameterTypesCounterexample | lib60870-C/src/iec60870/cs101/cs101_asdu.c:697-1684 | an accepted two-element ASDU of type 110 whose second element is not found |
| AsduBuilder.BuildThenParse | lib60870-C/src/iec60870/cs101/cs101_asdu.c:474-524 | adding any list of objects in either mode and parsing the octets gives back exactly the accepted objects by index; the count stays off the SQ bit and the maximum size is kept |
| AsduBuilder.WholeListThenParse | lib60870-C/src/iec60870/cs101/cs101_asdu.c:474-524 | a list is accepted whole, and then read back whole, if and only if it has one type, consecutive addresses in sequence form, at most 127 objects and fits the maximum size |
| AsduBuilder.AddOutcome | lib60870-C/src/iec60870/cs101/cs101_asdu.c:474-524 | addInformationObject accepts an object if and only if the list is empty or open for it (type, count below 127, consecutive address in sequence form) and it fits; and what it changes |
| AsduBuilder.AddKeepsBuilt | lib60870-C/src/iec60870/cs101/cs101_asdu.c:474-524 | one more object keeps the ASDU the concatenation of its objects under a correct qualifier |
| AsduBuilder.AddAllBuilds | lib60870-C/src/iec60870/cs101/cs101_asdu.c:474-524 | and so does any list |
| AsduBuilder.BuiltIsAccepted | lib60870-C/src/iec60870/cs101/cs101_asdu.c:380-418 | what is built is accepted by createFromBufferEx |
| AsduBuilder.BuiltReadsBack | lib60870-C/src/iec60870/cs101/cs101_asdu.c:697-1684 | and every element of it reads back |
| AsduBuilder.ElementRoundTrip | lib60870-C/src/iec60870/cs101/cs101_information_objects.c:278-378 | the element octets of the four types decode to value and quality |
| AsduBuilder.AddressRoundTrip | lib60870-C/src/iec60870/cs101/cs101_information_objects.c:219-256 | an object address that fits sizeOfIOA octets decodes to itself |
| AsduBuilder.HeaderReadsBack | lib60870-C/src/iec60870/cs101/cs101_asdu.c:323-366 | isTest, isNegative, getCOT, getOA, getCA and isSequence return what the ASDU was initialised with: the cause exactly if below 64, the common address exactly if it fits |
| AsduBuilder.BuiltHeaderReadsBack | lib60870-C/src/iec60870/cs101/cs101_asdu.c:534-606 | and they do after any list of objects has been added, with the count and type of the accepted ones |
| AsduBuilder.StaticAsdu.constructor | lib60870-C/src/iec60870/cs101/cs101_asdu.c:323-366 | the header octets of initializeStatic, which HeaderReadsBack reads back |
| AsduBuilder.StaticAsdu.SetTest | lib60870-C/src/iec60870/cs101/cs101_asdu.c:543-550 | changes the test bit as the getters read it and nothing else |
| AsduBuilder.StaticAsdu.SetNegative | lib60870-C/src/iec60870/cs101/cs101_asdu.c:561-568 | changes the negative bit and nothing else |
| AsduBuilder.StaticAsdu.SetCot | lib60870-C/src/iec60870/cs101/cs101_asdu.c:585-592 | changes the cause, to its argument modulo 64, and nothing else |
| AsduBuilder.StaticAsdu.SetCa | lib60870-C/src/iec60870/cs101/cs101_asdu.c:607-640 | changes the common address, to the nearest one in range, and nothing else |
| AsduBuilder.StaticAsdu.AddInformationObject | lib60870-C/src/iec60870/cs101/cs101_asdu.c:474-524 | writes the payload and qualifier in place; refines Add |
| AsduBuilder.StaticAsdu.EncodeObject | lib60870-C/src/iec60870/cs101/cs101_information_objects.c:278-300 | space check, address and element octets |
| AsduBuilder.StaticAsdu.EncodeBase | lib60870-C/src/iec60870/cs101/cs101_information_objects.c:218-231 | the address octets, only outside a sequence |
| AsduBuilder.StaticAsdu.EncodeSinglePoint | lib60870-C/src/iec60870/cs101/cs101_information_objects.c:281-300 | the octet of a single point |
| AsduBuilder.StaticAsdu.EncodeStepPosition | lib60870-C/src/iec60870/cs101/cs101_information_objects.c:393-415 | the octets of a step position with its transient bit |
| AsduBuilder.StaticAsdu.EncodeBitString32 | lib60870-C/src/iec60870/cs101/cs101_information_objects.c:1342-1370 | the octets of a 32-bit string |
| AsduBuilder.StaticAsdu.EncodeMeasuredValueScaled | lib60870-C/src/iec60870/cs101/cs101_information_objects.c:1731-1746 | the octets of a scaled value, negative ones in two's complement |
| Cs101Queue.EveryRunConsistent | lib60870-C/src/iec60870/cs101/cs101_queue.c:97-219 | for every capacity >= 1 and every sequence of enqueue, dequeue and flush: the contents are the newest entries added, in order and at most capacity many; entries leave in the order added, none twice; each is taken, waiting, dropped or flushed |
| Cs101Queue.BurstKeepsNewest | lib60870-C/src/iec60870/cs101/cs101_queue.c:97-148 | any number of additions leaves the newest `capacity` entries |
| Cs101Queue.SlotsEnqueued | lib60870-C/src/iec60870/cs101/cs101_queue.c:104-134 | the slot arithmetic of enqueue, with wrap, restart at slot 0 and removal, is appending with drop-oldest |
| Cs101Queue.SlotsDequeued | lib60870-C/src/iec60870/cs101/cs101_queue.c:163-173 | the slot arithmetic of dequeue is removing the head |
| Cs101Queue.StoredWhole | lib60870-C/src/iec60870/cs101/cs101_queue.c:136-145 | the 8-bit size loses an ASDU exactly if it has 256 octets |
| Cs101Queue.Queue.constructor | lib60870-C/src/iec60870/cs101/cs101_queue.c:39-61 | an empty queue of the given or default capacity |
| Cs101Queue.Queue.Enqueue | lib60870-C/src/iec60870/cs101/cs101_queue.c:96-150 | refines the bounded list on the ring array |
| Cs101Queue.Queue.Encode | lib60870-C/src/iec60870/cs101/cs101_queue.c:136-145 | writes the octets over the slot's buffer and sets the 8-bit size |
| Cs101Queue.Queue.Dequeue | lib60870-C/src/iec60870/cs101/cs101_queue.c:155-176 | hands out the oldest entry, or nothing |
| Cs101Queue.Queue.HasWaitingAsdu | lib60870-C/src/iec60870/cs101/cs101_queue.c:181-197 | reports the type of the oldest entry |
| Cs101Queue.Queue.IsFull | lib60870-C/src/iec60870/cs101/cs101_queue.c:199-203 | true exactly at capacity |
| Cs101Queue.Queue.Flush | lib60870-C/src/iec60870/cs101/cs101_queue.c:211-219 | empties it |
| Rings.RingAdvance | lib60870-C/src/iec60870/cs101/cs101_queue.c:163-173 | moving the first slot on, with wrap, drops the head |
| Rings.RingAppend | lib60870-C/src/iec60870/cs104/cs104_connection.c:278-297 | a ring is full exactly if the slot behind the newest is the oldest; otherwise storing there appends |
| Rings.RingReplace | lib60870-C/src/iec60870/cs101/cs101_queue.c:126-134 | storing into a full ring drops the head |
| CpTime.MkTimeCountsSeconds | lib60870-C/src/iec60870/apl/cpXXtime2a.c:293-305 | for every valid date from 1970 on the closed formula equals the year-by-year and month-by-month Gregorian day count |
| CpTime.ClosedYear | lib60870-C/src/iec60870/apl/cpXXtime2a.c:293-305 | at every new year |
| CpTime.ClosedMonth | lib60870-C/src/iec60870/apl/cpXXtime2a.c:293-305 | at every first of a month |
| CpTime.StrictlyIncreasing | lib60870-C/src/iec60870/apl/cpXXtime2a.c:293-305 | a later time has a larger second count |
| CpTime.Injective | lib60870-C/src/iec60870/apl/cpXXtime2a.c:293-305 | different valid times have different second counts |
| CpTime.GmtimeUnique | lib60870-C/src/iec60870/apl/cpXXtime2a.c:476-490 | the broken-down time of a second count exists and is the only valid one my_mktime maps back |
| CpTime.RoundTrip | lib60870-C/src/iec60870/apl/cpXXtime2a.c:476-528 | toMsTimestamp(setFromMsTimestamp(t)) = t if and only if the year of t is 2000 to 2099 |
| CpTime.UsableRange | lib60870-C/src/iec60870/apl/cpXXtime2a.c:634-640 | which is 946684800000 <= t < 4102444800000 |
| CpTime.OtherYear | lib60870-C/src/iec60870/apl/cpXXtime2a.c:511-528 | read back with another year the count differs, even for February 29 |
| CpTime.DecodeInjective | lib60870-C/src/iec60870/apl/cpXXtime2a.c:543-680 | the bit fields determine the seven octets |
| CpTime.LayoutReadsBack | lib60870-C/src/iec60870/apl/cpXXtime2a.c:545-680 | octets decode to given fields if and only if they are the layout of section 7.2.6.18 of IEC 60870-5-101 |
| CpTime.CP56Time2a.SetMillisecond | lib60870-C/src/iec60870/apl/cpXXtime2a.c:84-96 | replaces the millisecond of the shared word and nothing else, with C's arithmetic for any argument |
| CpTime.CP56Time2a.SetSecond | lib60870-C/src/iec60870/apl/cpXXtime2a.c:104-115 | replaces the second and nothing else, with C's arithmetic for any argument |
| CpTime.CP56Time2a.SetMinute | lib60870-C/src/iec60870/apl/cpXXtime2a.c:123-127 | replaces the minute bits and nothing else |
| CpTime.CP56Time2a.SetHour | lib60870-C/src/iec60870/apl/cpXXtime2a.c:586-590 | replaces the hour bits and nothing else |
| CpTime.CP56Time2a.SetDayOfWeek | lib60870-C/src/iec60870/apl/cpXXtime2a.c:598-602 | replaces the day-of-week bits and nothing else |
| CpTime.CP56Time2a.SetDayOfMonth | lib60870-C/src/iec60870/apl/cpXXtime2a.c:610-614 | replaces the day bits and nothing else |
| CpTime.CP56Time2a.SetMonth | lib60870-C/src/iec60870/apl/cpXXtime2a.c:622-626 | replaces the month bits and nothing else |
| CpTime.CP56Time2a.SetYear | lib60870-C/src/iec60870/apl/cpXXtime2a.c:634-640 | stores C's remainder of the year by 100 in seven bits and keeps the reserved bit |
| CpTime.CP56Time2a.SetFromMsTimestamp | lib60870-C/src/iec60870/apl/cpXXtime2a.c:476-509 | the octets afterwards hold exactly the broken-down time |
| CpTime.CP56Time2a.ToMsTimestamp | lib60870-C/src/iec60870/apl/cpXXtime2a.c:511-528 | computes the milliseconds of the fields |
| CpTime.StoreAndRead | lib60870-C/src/iec60870/apl/cpXXtime2a.c:476-528 | storing into the octets and reading them gives the timestamp back exactly in the usable range |
| Ft12.StreamRoundTrip | lib60870-C/src/iec60870/link_layer/serial_transceiver_ft_1_2.c:110-196 | reading any concatenation of frames yields the frames one by one, for address lengths 0 to 2 |
| Ft12.OnlyStartsAreRead | lib60870-C/src/iec60870/link_layer/serial_transceiver_ft_1_2.c:110-196 | only the three start octets begin a message, of the size its kind has, and with enough octets they always do |
| Ft12.BroadcastIsLargest | lib60870-C/src/iec60870/link_layer/link_layer.c:148-158 | the broadcast address is the largest of its size, all octets ff |
| Ft12Standard.FramesAreMessages | lib60870-C/src/iec60870/link_layer/link_layer.c:208-328 | every frame written is a message of the standard, every octet of it, and stands for that frame |
| Ft12Standard.MessagesAreFrames | lib60870-C/src/iec60870/link_layer/link_layer.c:208-328 | and every message of the standard is what is written for the frame it stands for |
| Ft12.FrameRoundTrip | lib60870-C/src/iec60870/link_layer/link_layer.c:750-862 | the parser recovers control bits, function code, address and user data of every frame |
| Ft12.FixedRoundTrip | lib60870-C/src/iec60870/link_layer/link_layer.c:216-263 | for fixed frames |
| Ft12.VariableRoundTrip | lib60870-C/src/iec60870/link_layer/link_layer.c:265-328 | for variable length frames |
| Ft12.ControlRoundTrip | lib60870-C/src/iec60870/link_layer/link_layer.c:225-239 | the control octet carries function code and bits |
| Ft12.SecondaryAccepts | lib60870-C/src/iec60870/link_layer/link_layer.c:624-733 | an unbalanced slave hands over exactly the primary's frames that are addressed to it, and broadcasts only as user data without reply |
| Ft12.OneOctetDetected | lib60870-C/src/iec60870/link_layer/link_layer.c:624-733 | changing one length, control, address, user data or checksum octet of any frame never reaches a handler through either parser |
| Ft12.OneOctetDetectedOnStream | lib60870-C/src/iec60870/link_layer/serial_transceiver_ft_1_2.c:110-196 | the same on a stream with anything behind the frame: whatever the reader hands over, possibly of another size because the length octet changed, reaches no handler |
| Ft12.UncheckedOctets | lib60870-C/src/iec60870/link_layer/link_layer.c:750-830 | the second start octet and the end octet are never looked at |
| Ft12.FirstOctet | lib60870-C/src/iec60870/link_layer/link_layer.c:764-830 | a wrong first octet: exactly when the frame still gets through, and as what |
| Ft12.FirstOctetAtSlave | lib60870-C/src/iec60870/link_layer/link_layer.c:624-733 | the same for an unbalanced slave: exactly when such a frame gets through |
| Ft12.SlaveFilters | lib60870-C/src/iec60870/link_layer/link_layer.c:624-733 | whatever the buffer holds, the slave's parser hands over exactly what the other one does and its address, broadcast and PRM filter lets through |
| Ft12.ChecksumDetects | lib60870-C/src/iec60870/link_layer/link_layer.c:817-830 | one wrong octet in a summed range or its checksum makes them differ |
| Bytes.SumDetectsOneOctet | lib60870-C/src/iec60870/link_layer/link_layer.c:817-830 | the 8-bit sum notices every change of a single octet |
| Ft12Transceiver.LinkLayer.ReadNextMessage | lib60870-C/src/iec60870/link_layer/serial_transceiver_ft_1_2.c:110-196 | hands over only the complete message at the head of the stream; without timeouts on the way it hands over every complete one; an octet that starts none discards the input |
| Ft12Transceiver.LinkLayer.ReadBytesWithTimeout | lib60870-C/src/iec60870/link_layer/serial_transceiver_ft_1_2.c:92-108 | reads octets into the buffer up to the count or the first timeout |
| Ft12Transceiver.LinkLayer.Checksum | lib60870-C/src/iec60870/link_layer/link_layer.c:817-823 | the loop computes the 8-bit sum of the range |
| Ft12Transceiver.LinkLayer.SendFixedFrame | lib60870-C/src/iec60870/link_layer/link_layer.c:216-263 | writes exactly the fixed frame |
| Ft12Transceiver.LinkLayer.SendVariableLengthFrame | lib60870-C/src/iec60870/link_layer/link_layer.c:265-328 | writes exactly the variable length frame, or nothing if it does not fit the length octet |
| Ft12Transceiver.LinkLayer.SendSingleCharCharacter | lib60870-C/src/iec60870/link_layer/link_layer.c:208-214 | writes the single character |
| Ft12Transceiver.LinkLayer.HandleMessage | lib60870-C/src/iec60870/link_layer/link_layer.c:750-862 | parses the buffer as ParsePrimary says |
| Ft12Transceiver.LinkLayer.HandleMessageSecondary | lib60870-C/src/iec60870/link_layer/link_layer.c:624-733 | parses the buffer as ParseSecondary says |
| LinkFrames.FramesCarry | lib60870-C/src/iec60870/link_layer/link_layer.c:208-328 | requests and responses survive the octet level, with their address and direction |
| LinkBalanced.EverySessionSafe | lib60870-C/src/iec60870/link_layer/link_layer.c:1291-1463 | one session from agreeing frame count bits, over FIFO channels that lose and delay but do not duplicate: user data is delivered in order and at most once, at most the last is missing, and what the primary treats as confirmed has been delivered, for every schedule of timeouts, repetitions, losses and link test requests that cannot take the place of unaccepted user data; the clock may go back unless such a late test waits |
| LinkBalanced.DisagreeingSessionIsDeaf | lib60870-C/src/iec60870/link_layer/link_layer.c:934-968 | a session that begins with disagreeing bits, which a reset may leave behind: whatever happens, nothing is delivered and nothing confirmed, at most one ASDU is taken, and when the session ends the bits agree again |
| LinkBalanced.StepKeepsInv | lib60870-C/src/iec60870/link_layer/link_layer.c:950-1012 | every event keeps the alternating-bit invariant or ends the session safely |
| LinkBalanced.TestKeepsInv | lib60870-C/src/iec60870/link_layer/link_layer.c:1522-1526 | outside the states in which unaccepted user data awaits confirmation and may still be repeated (the repetitions are not over, and the next one may be due before they are) a link test request is harmless; in particular whenever nothing awaits confirmation (AvailableMayTest) |
| LinkBalanced.SecondaryReceivesKeepsInv | lib60870-C/src/iec60870/link_layer/link_layer.c:950-1012 | a repeated frame is dropped silently, a new one delivered |
| LinkBalanced.PrimaryReceivesKeepsInv | lib60870-C/src/iec60870/link_layer/link_layer.c:1186-1212 | an acknowledgement settles the service |
| LinkBalanced.UnacceptedRuns | lib60870-C/src/iec60870/link_layer/link_layer.c:1425-1463 | repetition before acceptance |
| LinkBalanced.AcceptedRuns | lib60870-C/src/iec60870/link_layer/link_layer.c:1425-1463 | repetition after acceptance |
| LinkBalanced.LosslessExchange | lib60870-C/src/iec60870/link_layer/link_layer.c:1400-1423 | without losses an exchange delivers and confirms the data |
| LinkBalanced.LateTestRequestLosesData | lib60870-C/src/iec60870/link_layer/link_layer.c:1425-1463 | in exactly those states a link test request has a continuation, on a clock that never goes back, in which the test is repeated in place of the data and data never delivered is treated as confirmed |
| LinkBalancedService.SetUpKeepsPrimarysBit | lib60870-C/src/iec60870/link_layer/link_layer.c:1302-1371 | from an idle primary with nothing under way the set-up ends available, with the secondary's frame count bit true and the primary's unchanged, nothing delivered or confirmed and empty channels |
| LinkBalancedService.SessionBegins | lib60870-C/src/iec60870/link_layer/link_layer.c:963-977 | a session begun by a set-up starts with agreeing bits if and only if the primary's bit is true |
| LinkBalancedService.FirstMessageArrives | lib60870-C/src/iec60870/link_layer/link_layer.c:1075-1102 | the first message of a new primary is delivered and confirmed, whatever bit the secondary had |
| LinkBalancedService.SetUpIsRetried | lib60870-C/src/iec60870/link_layer/link_layer.c:1317-1369 | a set-up that is not answered is given up after the timeout, not before, and begun again |
| LinkBalancedService.SetUpGoesOn | lib60870-C/src/iec60870/link_layer/link_layer.c:1333-1369 | a set-up that waits for nothing goes on by itself |
| LinkBalancedService.ClockSetBack | lib60870-C/src/iec60870/link_layer/link_layer.c:1317-1435 | a clock that was set back restarts the timeouts |
| LinkBalancedService.WhatIsSentNext | lib60870-C/src/iec60870/link_layer/link_layer.c:1371-1420 | a link test goes out if and only if asked for or nothing was received for longer than the idle timeout; otherwise the next user data |
| LinkBalancedService.TestIsAnswered | lib60870-C/src/iec60870/link_layer/link_layer.c:979-991 | an undisturbed test is acknowledged and ends available with agreeing bits and no test due |
| LinkBalancedService.LostMessageRepeated | lib60870-C/src/iec60870/link_layer/link_layer.c:1422-1463 | a lost message is delivered once by its repetition and acknowledged; after a lost acknowledgement the repetition is dropped silently, so that a delivered message stays unconfirmed |
| LinkBalancedService.RepeatsUntilOver | lib60870-C/src/iec60870/link_layer/link_layer.c:1422-1463 | no repetition before the timeout, repetitions until timeoutRepeat, and then the session ends |
| LinkBalancedService.DataAnswered | lib60870-C/src/iec60870/link_layer/link_layer.c:993-1012 | data is delivered once and acknowledged if and only if the application accepts it |
| LinkBalancedService.NoReplyDelivered | lib60870-C/src/iec60870/link_layer/link_layer.c:1014-1024 | user data without reply is delivered and never answered |
| LinkBalancedService.OthersAnswered | lib60870-C/src/iec60870/link_layer/link_layer.c:950-1045 | what every other request is answered, and which frame count bit is expected next |
| LinkBalancedService.ResponseToService | lib60870-C/src/iec60870/link_layer/link_layer.c:1136-1289 | which responses end a service, which make the primary BUSY and which end the session |
| LinkBalancedService.ResponseToSetUp | lib60870-C/src/iec60870/link_layer/link_layer.c:1136-1289 | the same during the set-up, with the reset as the only request written |
| LinkBalancedService.ResponseOutOfTurn | lib60870-C/src/iec60870/link_layer/link_layer.c:1136-1289 | the same without a service under way |
| LinkBalancedStation.SecondaryBalanced.HandleMessage | lib60870-C/src/iec60870/link_layer/link_layer.c:950-1060 | refines HandleRequest; LinkBalancedService states what each request is answered |
| LinkBalancedStation.SecondaryBalanced.CheckFcb | lib60870-C/src/iec60870/link_layer/link_layer.c:934-948 | toggles the expected bit exactly on a match |
| LinkBalancedStation.PrimaryBalanced.HandleMessage | lib60870-C/src/iec60870/link_layer/link_layer.c:1136-1289 | refines Receive, for every function code and state |
| LinkBalancedStation.PrimaryBalanced.RunAvailable | lib60870-C/src/iec60870/link_layer/link_layer.c:1379-1423 | refines RunAvailable |
| LinkBalancedStation.PrimaryBalanced.RunStateMachine | lib60870-C/src/iec60870/link_layer/link_layer.c:1291-1476 | refines Run, for every state |
| LinkUnbalanced.EverySessionSafe | lib60870-C/src/iec60870/link_layer/link_layer.c:1957-2208 | one session from agreeing bits with each request or reply lost or received before the timeout: messages reach the slave and polled ASDUs reach the master in order and at most once, and exactly once whenever the connection is available again |
| LinkUnbalanced.StepKeepsInv | lib60870-C/src/iec60870/link_layer/link_layer.c:1740-1909 | every event keeps the invariant or ends the session safely |
| LinkUnbalanced.SlaveReceivesPoll | lib60870-C/src/iec60870/link_layer/link_layer.c:414-473 | a new poll takes one ASDU and stores it |
| LinkUnbalanced.SlaveReceivesPollAgain | lib60870-C/src/iec60870/link_layer/link_layer.c:434-446 | a repeated poll of either class gets the stored answer again and takes nothing |
| LinkUnbalanced.SlaveReceivesData | lib60870-C/src/iec60870/link_layer/link_layer.c:543-577 | a repeated message is acknowledged again but not delivered again |
| LinkUnbalanced.MasterReceivesAnswer | lib60870-C/src/iec60870/link_layer/link_layer.c:1860-1885 | an answer completes the poll |
| LinkUnbalanced.RepeatedPollIsClassTwo | lib60870-C/src/iec60870/link_layer/link_layer.c:2177-2205 | a class 1 poll is repeated as a class 2 poll unless class 1 data was asked for again |
| LinkUnbalanced.LateAnswerReceivedTwice | lib60870-C/src/iec60870/link_layer/link_layer.c:2160-2208 | an answer that arrives after the repetition is received twice: why the session result assumes it does not |
| LinkUnbalanced.OvertakenMessageHarms | lib60870-C/src/iec60870/link_layer/link_layer.c:2126-2160 | in every state in which a message or its acknowledgement is under way, a run that repeats the message opens a continuation, with nothing else overtaken, in which the second acknowledgement confirms a message that never arrived |
| LinkUnbalanced.RunWithoutRepetition | lib60870-C/src/iec60870/link_layer/link_layer.c:2117-2208 | conversely a run that repeats nothing keeps the invariant or ends the session safely, whatever is under way |
| LinkUnbalanced.BrokenLink | lib60870-C/src/iec60870/link_layer/link_layer.c:2117-2141 | a message sent over a link that breaks before the slave gets it is confirmed over the next link, but reaches the slave's application if and only if the service that broke had begun with the master's frame count bit false |
| LinkUnbalanced.RetainedMessage | lib60870-C/src/iec60870/link_layer/link_layer.c:1957-2032 | a message that waits while the link is set up again is confirmed, and is delivered if and only if the master's bit is true |
| LinkUnbalanced.SetUpKeepsMastersBit | lib60870-C/src/iec60870/link_layer/link_layer.c:1836-1850 | the usual set-up leaves the master's frame count bit as it is; the reset makes the slave's true |
| LinkUnbalanced.DeliveryOutcome | lib60870-C/src/iec60870/link_layer/link_layer.c:543-577 | one lossless exchange from any bits: confirmed, delivered if and only if the bits agreed, and they agree afterwards |
| LinkUnbalancedService.PollTakesItsClass | lib60870-C/src/iec60870/link_layer/link_layer.c:415-541 | a new poll takes the data of its own class, answers with it or with no data, and every answer carries the present access demand |
| LinkUnbalancedService.RepeatedPollAnswered | lib60870-C/src/iec60870/link_layer/link_layer.c:434-446 | a repeated poll takes nothing and is answered with the stored data and the present access demand |
| LinkUnbalancedService.PollExchange | lib60870-C/src/iec60870/link_layer/link_layer.c:2085-2110 | one undisturbed poll: the master receives exactly the data of the class it asked for, class 1 before class 2, and asks for class 1 next if and only if the slave demands it |
| LinkUnbalancedService.DemandIsServed | lib60870-C/src/iec60870/link_layer/link_layer.c:1936-1940 | while the slave demands access the master fetches its class 1 data, all of it and in order, however much there is |
| LinkUnbalancedService.DemandIsRemembered | lib60870-C/src/iec60870/link_layer/link_layer.c:1936-1940 | in any state a response with ACD makes the next run of an available connection poll class 1, unless a test or message goes first |
| LinkUnbalancedService.LostMessageRepeated | lib60870-C/src/iec60870/link_layer/link_layer.c:2118-2160 | a message whose request or acknowledgement is lost once is repeated, delivered once and confirmed |
| LinkUnbalancedService.LostPollRepeated | lib60870-C/src/iec60870/link_layer/link_layer.c:2164-2208 | a poll whose answer is lost ends with that answer; a lost poll is repeated as class 2 and ends with class 2 data |
| LinkUnbalancedService.ResetAnswered | lib60870-C/src/iec60870/link_layer/link_layer.c:369-412 | either reset is acknowledged and makes the expected bit true, unless it carries a frame count bit |
| LinkUnbalancedService.OthersAnswered | lib60870-C/src/iec60870/link_layer/link_layer.c:351-366 | the status carries the access demand; link tests and unknown services are refused |
| LinkUnbalancedService.NoReplyDelivered | lib60870-C/src/iec60870/link_layer/link_layer.c:583-600 | user data without reply is delivered and never answered, and ignored with a frame count bit |
| LinkUnbalancedService.UncountedIsNew | lib60870-C/src/iec60870/link_layer/link_layer.c:415-581 | requests without a valid frame count bit are new every time |
| LinkUnbalancedService.BroadcastDelivered | lib60870-C/src/iec60870/link_layer/link_layer.c:2395-2408 | the octets of a broadcast reach the application of every slave, and no slave answers or changes |
| LinkUnbalancedService.ResponseToMessage | lib60870-C/src/iec60870/link_layer/link_layer.c:1740-1946 | only ACK confirms a message; which other responses end the service, make the connection BUSY or end the session |
| LinkUnbalancedService.ResponseToPoll | lib60870-C/src/iec60870/link_layer/link_layer.c:1740-1946 | only user data is received, and which responses end a poll |
| LinkUnbalancedService.ResponseToSetUp | lib60870-C/src/iec60870/link_layer/link_layer.c:1740-1946 | what each response does during the set-up |
| LinkUnbalancedService.ResponseOutOfTurn | lib60870-C/src/iec60870/link_layer/link_layer.c:1740-1946 | what each response does without a service under way |
| LinkUnbalancedService.WaitsForTimeout | lib60870-C/src/iec60870/link_layer/link_layer.c:1957-2208 | before its timeout a waiting connection writes nothing and stays as it is |
| LinkUnbalancedService.TimeoutActs | lib60870-C/src/iec60870/link_layer/link_layer.c:1957-2208 | behind it a set-up is given up for a while and a service is repeated until its repetitions are over |
| LinkUnbalancedService.SetUpGoesOn | lib60870-C/src/iec60870/link_layer/link_layer.c:1982-2056 | a set-up begins with the status request and goes on by itself when it waits for nothing, then with a true frame count bit |
| LinkUnbalancedService.ClockSetBack | lib60870-C/src/iec60870/link_layer/link_layer.c:1967-2125 | a clock that was set back restarts the timeouts |
| LinkUnbalancedService.LinkTestRefused | lib60870-C/src/iec60870/link_layer/link_layer.c:2060-2073 | a link test goes first and is refused; the connection stays in its request state with the test still asked for |
| LinkUnbalancedStation.SecondaryUnbalanced.HandleMessage | lib60870-C/src/iec60870/link_layer/link_layer.c:342-611 | refines HandleRequest; LinkUnbalancedService states what each request is answered and what data a poll takes |
| LinkUnbalancedStation.SecondaryUnbalanced.HandlePoll | lib60870-C/src/iec60870/link_layer/link_layer.c:414-541 | refines Poll for both classes |
| LinkUnbalancedStation.SlaveConnection.HandleMessage | lib60870-C/src/iec60870/link_layer/link_layer.c:1740-1946 | refines HandleResponse |
| LinkUnbalancedStation.SlaveConnection.HandleService | lib60870-C/src/iec60870/link_layer/link_layer.c:1788-1932 | refines HandleService |
| LinkUnbalancedStation.SlaveConnection.RunStateMachine | lib60870-C/src/iec60870/link_layer/link_layer.c:1957-2218 | refines RunConnection, for every state |
| LinkUnbalancedStation.SlaveConnection.RunAvailable | lib60870-C/src/iec60870/link_layer/link_layer.c:2047-2115 | refines RunAvailable |
| LinkUnbalancedStation.SlaveConnection.RunWaiting | lib60870-C/src/iec60870/link_layer/link_layer.c:2117-2208 | repetition and giving up |
| LinkUnbalancedStation.SlaveConnection.SendConfirmed | lib60870-C/src/iec60870/link_layer/link_layer.c:2315-2334 | accepts a message only if none is waiting |
| LinkUnbalancedStation.PrimaryUnbalanced.RunStateMachine | lib60870-C/src/iec60870/link_layer/link_layer.c:2395-2430 | refines RunBus; a pending broadcast goes out first |
| LinkUnbalancedStation.PrimaryUnbalanced.SelectSlave | lib60870-C/src/iec60870/link_layer/link_layer.c:2410-2424 | refines Select |
| LinkUnbalancedStation.PrimaryUnbalanced.AddSlaveConnection | lib60870-C/src/iec60870/link_layer/link_layer.c:2243-2253 | appends a fresh connection unless the address is known |
| LinkUnbalancedStation.PrimaryUnbalanced.GetSlaveConnection | lib60870-C/src/iec60870/link_layer/link_layer.c:2220-2241 | finds the slave with an address, or none |
| LinkUnbalancedStation.PrimaryUnbalanced.HandleMessage | lib60870-C/src/iec60870/link_layer/link_layer.c:2374-2393 | a response reaches the slave with its address, a single character the current slave, and no one else |
| LinkBus.EachSlaveOnce | lib60870-C/src/iec60870/link_layer/link_layer.c:2410-2424 | among any n consecutive turns each of the n slaves has exactly one, whatever responses and requests come in between |
| LinkBus.TurnsInOrder | lib60870-C/src/iec60870/link_layer/link_layer.c:2410-2424 | turns are given strictly in list order |
| LinkBusSystem.EverySlaveSafe | lib60870-C/src/iec60870/link_layer/link_layer.c:1740-2430 | a master and n slaves on one bus, from the creation of the master and any state of the slaves, any history of runs, losses, replies by address or as a single character, and requests of the application, each frame lost or received before the timeout: for every slave both directions are in order and at most once, and exactly once whenever its connection is available, up to and including the event that ends its first session |
| LinkBusSystem.EveryLaterSessionSafe | lib60870-C/src/iec60870/link_layer/link_layer.c:1740-2430 | the same for every later session of a slave that starts with agreeing bits, in any state of the rest of the bus |
| LinkBusSystem.SessionBegins | lib60870-C/src/iec60870/link_layer/link_layer.c:1788-1797 | a session begins when the reset is acknowledged, and with agreeing bits if and only if the master's bit is true |
| LinkBusSystem.EverySlaveItsSession | lib60870-C/src/iec60870/link_layer/link_layer.c:2374-2430 | each slave and its connection go through exactly their share of the bus history, as a session of LinkUnbalanced |
| LinkBusSystem.EverySlaveItsShare | lib60870-C/src/iec60870/link_layer/link_layer.c:2374-2430 | every event is, for each slave, one event of its own session or none |
| LinkBusSystem.OneFrameOnBus | lib60870-C/src/iec60870/link_layer/link_layer.c:2408-2424 | in every reachable state at most one frame is under way on the whole bus, and it belongs to the slave whose turn it is |
| LinkBusSystem.ResponseFindsSlave | lib60870-C/src/iec60870/link_layer/link_layer.c:2374-2393 | hence a response reaches the connection of the slave that sent it, by its address or, as a single character, as the current slave |
| LinkBusSystem.EveryRunKeepsInv | lib60870-C/src/iec60870/link_layer/link_layer.c:2374-2430 | the invariant behind both holds in every reachable state |
| LinkBusSystem.StepKeepsInv | lib60870-C/src/iec60870/link_layer/link_layer.c:2374-2430 | every event keeps it |
| LinkBusSystem.RunsAsBus | lib60870-C/src/iec60870/link_layer/link_layer.c:2395-2430 | a run of this system is a run of the bus of LinkBus, whose turn results apply |
| LinkBusTiming.SendConfirmEnds | lib60870-C/src/iec60870/link_layer/link_layer.c:2126-2141 | a silent slave leaves SEND_CONFIRM with waitingForResponse = false at the first run after originalSendTime + timeoutRepeat + timeoutForAck |
| LinkBusTiming.SilentSlaveReleased | lib60870-C/src/iec60870/link_layer/link_layer.c:1957-2218 | from a run on, with a monotone clock and runs every d ms, a silent slave in any waiting state but BUSY loses its turn by a deadline computed from the state |
| LinkBusTiming.EverySlaveServed | lib60870-C/src/iec60870/link_layer/link_layer.c:2395-2430 | from the start of the master on, for any history of runs, responses and application requests: once the bus has run beyond the end of the present turn and n - 1 longest turns, each of the n slaves has had its turn, silent or not, and exactly one among the first n |
| LinkBusTiming.TurnsKeepPace | lib60870-C/src/iec60870/link_layer/link_layer.c:2395-2430 | every further turn begins within timeoutRepeat + 3 timeoutForAck + 5 d of the one before |
| LinkBusTiming.BusTurnsInOrder | lib60870-C/src/iec60870/link_layer/link_layer.c:2410-2424 | and the turns follow the list, by LinkBus.TurnsInOrder |
| LinkBusTiming.ReachableSlaveReleased | lib60870-C/src/iec60870/link_layer/link_layer.c:1957-2218 | whatever happened to a connection before, a silent slave loses its turn within timeoutRepeat + 2 timeoutForAck + 3 d of the next run unless the connection is BUSY |
| LinkBusTiming.EveryConnectionSound | lib60870-C/src/iec60870/link_layer/link_layer.c:1740-2218 | the timing facts behind this hold after any runs, responses and requests under a monotone clock |
| LinkBusTiming.RunKeepsSound | lib60870-C/src/iec60870/link_layer/link_layer.c:1957-2218 | every run keeps them and leaves a waiting connection timed from this run on |
| LinkBusTiming.ResponseKeepsSound | lib60870-C/src/iec60870/link_layer/link_layer.c:1740-1946 | every response keeps them; one that makes the master write a request restarts the timing |
| LinkBusTiming.SilentRun | lib60870-C/src/iec60870/link_layer/link_layer.c:1957-2218 | one run either ends the turn by that deadline or does not move it |
| LinkBusTiming.BusyNeverReleased | lib60870-C/src/iec60870/link_layer/link_layer.c:1749-1776 | after a response with DFC in SEND_CONFIRM no run ever ends the turn: why these results assume none there |
| LinkBusTiming.StatusForResetKeepsTurn | lib60870-C/src/iec60870/link_layer/link_layer.c:1836-1862 | a slave that answers the reset with a status of link, and so on, keeps the turn through any list of rounds at any times: every run finds the connection waiting and leaves it waiting; why a waiting connection is taken to get a status of link only on request |
| LinkBusTiming.BusyForResetKeepsTurn | lib60870-C/src/iec60870/link_layer/link_layer.c:1749-1776 | and so does a slave that acknowledges the reset with DFC and reports its status before the timeout, any number of times |
| LinkBusTiming.AnswerOnTime | lib60870-C/src/iec60870/link_layer/link_layer.c:1740-1946 | a cooperative response, DFC and status outside those cases included, never delays the next turn |
| FileServer.EverySectionSpelled | lib60870-C/src/file-service/file_server.c:200-240 | in any run: segments have 1 to maxSegmentSize octets and, when LAST SEGMENT goes out, are the section; its checksum is the section's if and only if this is not the first transmission since CALL FILE or no abandoned transfer left a section checksum |
| FileServer.EveryLastSectionCovers | lib60870-C/src/file-service/file_server.c:578-611 | in any run the LAST SECTION checksum covers the accepted sections if and only if the stale checksum and the rejected transmissions add up to 0 modulo 256 |
| FileServer.EveryRunAccounts | lib60870-C/src/file-service/file_server.c:243-264 | the section and file checksums account for every octet sent since CALL FILE, in every run of requests, acknowledgements, timeouts and task runs |
| FileServer.TaskKeepsAccounts | lib60870-C/src/file-service/file_server.c:876-908 | every run of the task keeps these accounts |
| FileServer.RequestKeepsAccounts | lib60870-C/src/file-service/file_server.c:272-868 | every request keeps them |
| FileServer.TransmissionCompletes | lib60870-C/src/file-service/file_server.c:880-900 | an undisturbed section goes out completely, in full-size segments except the last, closed by one LAST SEGMENT with the byte sum on top of the checksum it began with, whatever time passes between runs |
| FileServer.AllSections | lib60870-C/src/file-service/file_server.c:578-611 | a master that accepts sections 1 to n in order has the whole file |
| FileServerDownload.DownloadFollowsFile | lib60870-C/src/file-service/file_server.c:271-909 | from any idle server, a master whose turns are in time is announced sections 1, 2, 3, ... of the file in order with their lengths, whether it takes or declines them and however often it rejects one; it receives exactly the sections it takes, whole and in order; LAST SECTION comes as soon as the next section is absent, empty or number 256 |
| FileServerDownload.DownloadCompletes | lib60870-C/src/file-service/file_server.c:577-611 | a master that takes every section has the leading non-empty ones, up to number 255, and the whole file if and only if it has at most 255 sections, none of them empty; LAST SECTION has the next number, and the acknowledgement of the file makes the server idle |
| FileServerDownload.TurnMovesOn | lib60870-C/src/file-service/file_server.c:577-611 | one turn of the master moves the server on by one section, and is possible only while one is announced |
| FileServerDownload.AnnouncementsAreTrue | lib60870-C/src/file-service/file_server.c:271-868 | every reply names the section the server stands at: SECTION READY with its length, LAST SECTION only if it is absent or empty, FILE READY positive if and only if the file is selected |
| FileServerDownload.OthersGetNothing | lib60870-C/src/file-service/file_server.c:876-900 | the task sends if and only if a section is transmitted and the connection is the one that selected the file |
| FileServerDownload.SelectionOutcome | lib60870-C/src/file-service/file_server.c:646-705 | a file is found and selected, not ready, or unknown for one of two reasons, each with its reply |
| FileServerDownload.WrongFileRefused | lib60870-C/src/file-service/file_server.c:723-800 | a call for another file is returned with the reason and changes nothing |
| FileServerDownload.AbsentSectionRefused | lib60870-C/src/file-service/file_server.c:812-838 | a call for an absent or empty section is returned negative and the server goes on waiting |
| FileServerDownload.IdleOutcome | lib60870-C/src/file-service/file_server.c:500-632 | an idle server returns acknowledgements, ignores calls and forgets a deselected file |
| FileServerDownload.OutOfTurnIgnored | lib60870-C/src/file-service/file_server.c:500-868 | requests out of turn and unknown qualifiers are ignored |
| FileServerDownload.FileAckEnds | lib60870-C/src/file-service/file_server.c:512-552 | either acknowledgement of the file ends a complete transfer |
| FileServerDownload.UnexpectedAckAbandons | lib60870-C/src/file-service/file_server.c:512-620 | an acknowledgement that does not fit the phase abandons the transfer |
| FileServerDownload.AbandonedIsSilent | lib60870-C/src/file-service/file_server.c:500-868 | an abandoned transfer answers nothing, whatever comes, until the timeout |
| FileServerDownload.TimeoutEnds | lib60870-C/src/file-service/file_server.c:902-909 | after the timeout the server is idle unless it is sending segments |
| FileServer.RepeatedSectionCountsTwice | lib60870-C/src/file-service/file_server.c:556-570 | a section accepted after one rejection is counted twice in LAST SECTION |
| FileServer.AbandonedTransferSpoilsNext | lib60870-C/src/file-service/file_server.c:903-907 | a transfer abandoned in mid-section spoils the checksum of the next one |
| FileServerPlugin.CalculateChecksum | lib60870-C/src/file-service/file_server.c:186-198 | the loop computes the 8-bit sum |
| FileServerPlugin.MaxDataSize | lib60870-C/src/iec60870/cs101/cs101_information_objects.c:7760-7767 | a full segment fills the ASDU exactly |
| FileServerPlugin.SegmentRoundTrip | lib60870-C/src/iec60870/cs101/cs101_information_objects.c:7689-7711 | a segment is encoded if and only if its ASDU keeps the maximum size, and its address, file name, section and data read back |
| FileServerPlugin.Plugin.constructor | lib60870-C/src/file-service/file_server.c:917-940 | a fresh server |
| FileServerPlugin.Plugin.SendSegment | lib60870-C/src/file-service/file_server.c:200-240 | refines SendSegment, or reports the end of the section |
| FileServerPlugin.Plugin.SendLastSegment | lib60870-C/src/file-service/file_server.c:242-264 | adds the section checksum to the file's and clears it |
| FileServerPlugin.Plugin.RunTask | lib60870-C/src/file-service/file_server.c:875-909 | refines RunTask; its second addition of the section checksum adds 0 |
| FileServerPlugin.Plugin.HandleAck | lib60870-C/src/file-service/file_server.c:498-633 | refines HandleAck, for every qualifier and state; FileServerDownload states what is announced next |
| FileServerPlugin.Plugin.HandleCallSection | lib60870-C/src/file-service/file_server.c:765-840 | refines HandleCallSection; FileServerDownload states what is announced next |
| FileServerPlugin.Plugin.HandleSelect | lib60870-C/src/file-service/file_server.c:654-705 | refines HandleSelect |
| FileServerPlugin.Plugin.HandleCallFile | lib60870-C/src/file-service/file_server.c:723-760 | refines HandleCallFile |
| FileServerPlugin.Plugin.HandleAsdu | lib60870-C/src/file-service/file_server.c:271-868 | timeout first, then the request |

## Left out

- Sockets, TLS, serial port settings, threads, locks, semaphores, allocation, debug output, raw message callbacks.
- IEC 60870-5-7 security and plugins of a connection (treated as absent); CS 101 command dispatch; TypeID and cause tables.
- A closed CS 104 connection (state IDLE) and reconnecting: the model covers one open socket.
- T1 supervision of I-frames: handled by `HandleTimeouts`, but no bound is claimed, because the send time is taken from the
  wall clock and compared with the monotonic one.
- The progress of a CS 104 run beyond `DrainedChannelsLeaveRoom`: no fairness of the application is assumed.
- AsduBuilder.BuildThenParse: four monitoring types (single point, step position, bit string, scaled value); the other types
  have the same shape, and floating-point values are not modelled.
- CP16, CP24 and CP32 time types, and the flag setters of CP56Time2a (invalid, substituted, summer time).
- `gmtime_r` is specified as the only valid Gregorian time of a second count, not modelled.
- Cs104Connection.Connection.constructor: excludes k = 0, for which the source divides by zero, and k above 32768, for
  which the numbers in the window are no longer distinct.
- Cs101Queue.Queue.constructor: excludes a capacity of 0 and negative ones other than -1, for which the source writes
  outside its array.
- Link layers: the user-visible link state and its callbacks, the idle timeout of an unbalanced slave, and the handling of
  negative user data lengths, which the parsers pass on for malformed frames that no station sends.
- LinkBalanced.EverySessionSafe: frames of an earlier session that are still under way when a link reset has begun the
  next one are not modelled; both kinds of session start with empty channels.
- LinkBalancedService.LostMessageRepeated: the secondary does not acknowledge a repetition, so that a lost acknowledgement is
  never made up for; only the loss of the message itself is.
- LinkUnbalanced.EverySessionSafe: the link test service of the unbalanced master, which a slave of this library answers as
  not implemented, is not part of a session.
- LinkUnbalanced.LateAnswerReceivedTwice: that no answer to a poll arrives after its repetition is sufficient for
  exactly-once delivery; an exact condition is given for messages (OvertakenMessageHarms), not for polls.
- The application is taken to fill the buffer it is offered for user data, not to return a frame of its own.
- LinkBusSystem.EverySlaveSafe: the link test service, frames overtaken by a timeout, and the pending broadcast are not part
  of the histories; LateAnswerReceivedTwice shows what an overtaken answer does.
- Cs104Timers.DeadPeerIsDetectedByT1: with T1 + d > T3 the next test frame may restart T1 before it has ended, and only
  the bound of DeadPeerIsDetected is claimed.
- LinkBusTiming.EverySlaveServed: DFC while the connection waits for an acknowledgement of user data or of a reset, and
  status responses nobody asked for while it waits, are excluded; `BusyNeverReleased`, `BusyForResetKeepsTurn` and
  `StatusForResetKeepsTurn` show why.
- Upload of files to the server (FILE READY from the master, section ready, segments received), directory requests, and the
  encodings of the file objects other than segments; one file provider that always answers the same is assumed.
- FileServer.EverySectionSpelled: the recipient of a segment is only told apart as the selecting connection or another one.
