# Verification of an ESP8266 gateway: MQTT client, JSON scanner, RS-485 bus, port cache

The gateway connects modules on an RS-485 bus to the network. This project models four of its components in
Dafny and proves what they promise. Bytes are numbers below 256 or bit vectors. The operations that update state in C
update it here too, as methods with loops over arrays and fields; each is proved equal to a function, and the
properties are then proved about that function. Main results:

- **MQTT client** (`libs/mqtt.c`). Every packet is stated byte by byte, every call by the sizes of packets and block,
  every send by times and states, and every response by what it completes, queues and returns. The send queue, two
  growing ends in one block of memory, is a queue of messages. In every session a client can be brought into - any
  calls, any clock, any network, any broker - packet ids are unambiguous, QoS 2 messages go out one at a time and in
  order, every other packet goes out for the first time in queue order, each packet is sent as it was queued (with DUP
  on QoS 1 resends, and once if no answer is due), and QoS 2 messages are delivered at most once. A PUBLISH that asks
  for an answer stays queued until one is processed, which may also be one of the wrong type. Exactly once fails even
  in an ordinary exchange, because a released PUBREC stays in the queue until some later packet lacks room; which QoS 2
  PUBLISHes are delivered is stated exactly. Errors are final: once the send buffer has been full, a session without a
  reconnect callback queues nothing any more. The packet-id register runs through one cycle of all 65535 non-zero
  words. However a stream of bytes is portioned, the receive half ends in the same session with the same status.
- **JSON** (`libs/mjson.c`). The scanner reports exactly the tokens of a printed tree, with any whitespace, up to its
  depth limit, and on any other text does what recursive descent does, trailing commas accepted. `mjson_find` only
  counts depths: it always finds what the recursive lookup finds, but it can also find a value where that lookup fails
  (`$.x.a.b` in `{"x":{"a":1},"y":[{"b":5}]}` yields 5). When it does is stated exactly, for a single path by the keys
  behind the point of failure and for all paths at once by the tree alone. For paths with array indices it is stated
  path by path: `$[0].b` in `[{"a":1},{"b":2}]` yields 2, as a key of an element is looked for in all elements from
  there on.
- **RS-485 bus** (`comm.c`, `crc16.c`). The receiver accepts exactly the frames for the controller behind at most four
  bytes of noise, with at most 57 content bytes, and says of every other reply what is wrong with it. A frame carries
  its address and checksum in hexadecimal digits, most significant first. The table CRC is the bitwise CRC; it detects
  bursts of up to 16 bits, any change within two adjacent bytes, any odd number of flipped bits, and two flipped bits
  at any distance but the multiples of 32767. One damaged byte in a reply is noticed unless it turns a content byte
  into ETX and the bytes behind it happen to be the right checksum.
- **Port cache** (`module_manager.c`). A pass over all ports is a function of what becomes of each command. What
  becomes of every port, and whether cache and module then agree, is stated by the replies to its commands, and which
  errors are counted. A reply that `sscanf` cannot read is passed over without being counted, so a pass that counted no
  error need not end in agreement. If modules answer what they are asked or not at all, such a pass does end in
  agreement, and always in the same one.

## Layout

| file | contents |
|---|---|
| `ShiftRegister.dfy` | shift registers over GF(2): additivity, orbits, polynomials |
| `ShiftOrbits.dfy`, `PacketId.dfy` | many steps of a register as one multiplication; the packet-id register and its period |
| `MqttTypes.dfy`, `MqttPacket.dfy`, `MqttConnect.dfy`, `MqttCodec.dfy` | packets: formats, round trips, the packing and unpacking loops |
| `MqttWire.dfy` | the packets byte by byte, in the numbers of MQTT 3.1.1 |
| `MqttQueue.dfy` | the send queue in its block of memory |
| `MqttSession.dfy` | the client's calls as functions on sessions, and runs of calls |
| `MqttDiscipline.dfy`, `MqttRuns.dfy` | what every step, and so every run, keeps |
| `MqttRequests.dfy`, `MqttSending.dfy`, `MqttResponses.dfy` | what a request, a send and a response do, by sizes, times and ids |
| `MqttEffects.dfy`, `MqttGuarantees.dfy`, `MqttDeliveries.dfy`, `MqttAnswers.dfy` | what errors and sends leave possible, what follows for users, which messages are delivered, which wait for an answer |
| `MqttReceive.dfy` | the receive loop on a stream of bytes |
| `MqttClient.dfy` | the client updated in place |
| `MjsonText.dfy`, `MjsonScanner.dfy`, `MjsonGrammar.dfy` | JSON texts, the scanner on printed trees, and on any text |
| `MjsonFind.dfy`, `MjsonPath.dfy`, `MjsonMarks.dfy`, `MjsonKeys.dfy` | the callback, paths, and what the callback does on a tree |
| `MjsonLookup.dfy`, `MjsonElements.dfy` | what it finds compared with the lookup by keys, and by keys and element numbers |
| `MjsonStrings.dfy`, `Mjson.dfy` | strings read by their path, and the loops |
| `Crc16.dfy`, `CrcErrors.dfy`, `CrcDistance.dfy` | the CRC and the errors it detects |
| `Comm.dfy`, `CommErrors.dfy`, `CommWire.dfy`, `CommDriver.dfy` | frames and receiver, damaged replies, frames and errors byte by byte, the loops over the UART |
| `ModuleManager.dfy`, `ModuleContent.dfy` | the port cache, and cutting replies into their parts |
| `Bytes.dfy`, `Octets.dfy`, `Wrappers.dfy` | bytes and slices, bytes as bit vectors, optional values |

`readme.md` describes the frame only up to ETX; `comm.c` appends four hexadecimal digits of the CRC and demands them
in replies. The model follows the code.

## Model

| member | source | states |
|---|---|---|
| PacketId.Period | libs/mqtt.c:84-90 | from any non-zero word the register is back at it after 65535 steps and not before |
| PacketId.OneCycle | libs/mqtt.c:84-90 | from any non-zero word the register reaches any other within 65535 steps |
| PacketId.NextIdFresh | libs/mqtt.c:77-103 | the search for an id ends after at most one step more than there are messages, at the first unused word; it is not zero |
| PacketId.FirstIds | libs/mqtt.c:77-103 | the first ids of a client are B451, EE28 and 7714, and one in use is passed over |
| MqttClient.Client.NextPid | libs/mqtt.c:77-103 | the two nested loops end, with the register at that id |
| MqttPacket.LengthRoundTrip | libs/mqtt.c:981-1091 | a remaining length below 2^28 reads back as written, and takes just its own bytes |
| MqttPacket.PublishRoundTrip | libs/mqtt.c:1262-1373 | unpacking a packed PUBLISH gives flags, topic, id and payload, and consumes exactly its bytes whatever follows; the packet is within the room given |
| MqttPacket.PublishRoundTripsIff | libs/mqtt.c:1262-1373 | the round trip holds exactly for topics below 65536 bytes and packets of at least 4 bytes behind the header |
| MqttPacket.PubxxxRoundTrip | libs/mqtt.c:1376-1436 | PUBACK, PUBREC, PUBREL and PUBCOMP read back with their type and id |
| MqttConnect.ConnectRoundTrip | libs/mqtt.c:1094-1213 | if what is asked for can be said in a CONNECT, a broker that reads the packet by section 3.1 of MQTT 3.1.1 gets client id, will, user, password, flags and keep-alive as asked for, with nothing left over; the packet is within the room given |
| MqttConnect.ConnectRoundTripsIff | libs/mqtt.c:1094-1213 | it does so exactly if every string and the will message are shorter than 65536 bytes, client id, will topic and user name are UTF-8 without NUL, and a password comes with a user name; otherwise nothing that may follow the packet makes it come out right |
| MqttConnect.PasswordAlone | libs/mqtt.c:1152-1166 | a password without a user name is packed all the same, into what is no CONNECT |
| MqttConnect.IllFormedClientId | libs/mqtt.c:1117-1125 | so is a client id that is not UTF-8 |
| MqttConnect.BodyFillsRemaining | libs/mqtt.c:1094-1213 | the packet is as long as its header says exactly if the strings are; otherwise it is shorter |
| MqttPacket.UnpackStable | libs/mqtt.c:1692-1731 | a packet or error found in a buffer stays the same whatever arrives behind it |
| MqttPacket.UnpackWithinExtent | libs/mqtt.c:1692-1731 | a packet is found as soon as its own bytes are there |
| MqttWire.UnpackSays | libs/mqtt.c:1692-1731 | what is made of any packet, whatever its first byte, length and contents: the error, or each field by its place in the packet; nothing that follows changes it |
| MqttWire.UnpackWaits | libs/mqtt.c:981-1037 | a forbidden type or wrong flags are refused before the packet is whole; otherwise its rest is waited for |
| MqttWire.LengthTooLong | libs/mqtt.c:1003-1021 | four length bytes with the top bit set are an error, fewer wait for the next |
| MqttWire.LengthBytes | libs/mqtt.c:1064-1079 | the length in one to four bytes, by table 2.4 of MQTT 3.1.1 |
| MqttWire.PublishBytes | libs/mqtt.c:1262-1325 | a PUBLISH is its flags, length, topic behind its length, id unless the QoS is 0, and payload |
| MqttWire.AcknowledgementBytes | libs/mqtt.c:1376-1409 | the four acknowledgements are four bytes: type and flags, 2, and the id |
| MqttWire.BareBytes | libs/mqtt.c:1244-1260 | PINGREQ and DISCONNECT are two bytes |
| MqttWire.SubscribeRoundTripsIff | libs/mqtt.c:1462-1525 | a broker that reads a packed SUBSCRIBE by section 3.8 gets id, topic and QoS as asked for exactly if the id is not 0, the topic is UTF-8 of 1 to 65535 bytes and the QoS at most 2 |
| MqttWire.UnsubscribeRoundTripsIff | libs/mqtt.c:1543-1600 | the same of an UNSUBSCRIBE, by section 3.10 |
| MqttCodec.PackFixedHeader | libs/mqtt.c:1039-1091 | writes exactly the header bytes or reports why not, and nothing outside the room given |
| MqttCodec.PackRequest | libs/mqtt.c:1244-1600 | each request is written piece by piece as its format says, the return value is its length, 0 for want of room, or the error; no byte outside the room changes |
| MqttCodec.UnpackHeader | libs/mqtt.c:981-1037 | the shift loop decodes the fixed header as the format says |
| MqttCodec.UnpackResponse | libs/mqtt.c:1692-1731 | the functions for the single packet types together decode the buffer as the packet formats say |
| MqttQueue.MessageQueue.Register | libs/mqtt.c:1615-1628 | appends one message with the next bytes of the block, all others stay as they are |
| MqttQueue.MessageQueue.Clean | libs/mqtt.c:1630-1674 | removes exactly the complete messages at the head; the bytes and fields of all survivors are unchanged, and no byte from the first header on is written |
| MqttQueue.DoneIsLongest | libs/mqtt.c:1633-1635 | what is removed is the longest prefix of complete messages |
| MqttQueue.LayoutDrop | libs/mqtt.c:1646-1671 | moving bytes and headers and bumping the starts back leaves headers that describe the surviving messages |
| MqttQueue.MessageQueue.FindMessage | libs/mqtt.c:1676-1688 | returns the first message of that type that carries the id, or is not complete if no id is given |
| MqttQueue.MessageQueue.Poke | libs/mqtt.c:604-606 | setting a flag in one packet changes no other packet and no byte from the first header on |
| MqttQueue.MessageQueue.CurrSz | libs/mqtt.h:1083-1083 | the room left is what remains of the block after all packets, their headers and one more header |
| MqttDiscipline.AppendKeeps | libs/mqtt.c:1615-1628 | queueing a message that clashes with none keeps all invariants of a session |
| MqttDiscipline.CleanKeeps | libs/mqtt.c:1630-1674 | so does cleaning the queue |
| MqttDiscipline.FinishKeeps | libs/mqtt.c:797-815 | so does completing a message, for a PUBREC once its delivery is released |
| MqttDiscipline.TransmitKeeps | libs/mqtt.c:547-621 | so does sending a message in its turn |
| MqttDiscipline.ClosedByRelease | libs/mqtt.c:797-806 | a QoS 2 delivery that is no longer open was followed by a PUBREL with its id |
| MqttRuns.DrawnIdIsFresh | libs/mqtt.c:91-101 | the id drawn for a request is carried by no queued message and is not zero |
| MqttRuns.SendFromKeeps | libs/mqtt.c:512-621 | the send loop keeps the invariants: whatever the clock and the network do, it respects the QoS 2 discipline |
| MqttRuns.HandleKeeps | libs/mqtt.c:713-874 | so does the reaction to any response |
| MqttRuns.Reachable | libs/mqtt.c:224-884 | the invariants hold after every run of calls, sends, responses and failures |
| MqttGuarantees.AcknowledgementIsUnambiguous | libs/mqtt.c:1676-1688 | in every reachable session at most one queued message matches a PUBACK, PUBREC, PUBREL, PUBCOMP, SUBACK or UNSUBACK |
| MqttGuarantees.OneQos2InFlight | libs/mqtt.c:527-538 | when a QoS 2 PUBLISH waits for its answer, all earlier ones are complete and no other one waits |
| MqttGuarantees.Qos2InPublishOrder | libs/mqtt.c:527-545 | QoS 2 PUBLISHes are sent in the order they were published, resends included |
| MqttGuarantees.FirstSentInQueueOrder | libs/mqtt.c:512-621 | every other packet that is sent at all was first sent before anything queued behind it |
| MqttGuarantees.SentAsQueued | libs/mqtt.c:573-621 | a packet is sent byte for byte as it was queued; only the DUP flag of a resent QoS 1 PUBLISH changes, to 1 |
| MqttGuarantees.SentAtMostOnce | libs/mqtt.c:588-600 | PUBACK, PUBCOMP, DISCONNECT and QoS 0 PUBLISH are sent at most once in any run |
| MqttGuarantees.DeliveredAtMostOnce | libs/mqtt.c:746-815 | between two callbacks for QoS 2 PUBLISHes with one id a PUBREL with that id was processed |
| MqttGuarantees.RunAdvances | libs/mqtt.c:513-621 | however a run goes on, no message falls back in state, and no packet or event is forgotten |
| MqttGuarantees.SendLeavesNothingElse | libs/mqtt.c:512-638 | after a send without error only QoS 2 PUBLISHes can be left unsent, and the PINGREQ it may have queued last |
| MqttGuarantees.RecvIsRun | libs/mqtt.c:640-884 | what a receive call does to the session is a run of responses and failures only, so all guarantees hold across it |
| MqttRequests.RequestDoes | libs/mqtt.c:198-221 | what becomes of any request, by sizes: in error nothing; a guard of its packet or a length of 2^28 and more is its error; else it is queued, beside all messages if they leave place for it and one more header, or beside what is left without the complete ones at the head; else the send buffer is full |
| MqttRequests.AcceptedIff | libs/mqtt.c:198-221 | a request is accepted exactly if the client is not in error, the request well-formed, and there is place for it beside those that are left |
| MqttRequests.CallDoes | libs/mqtt.c:224-496 | each call of the API makes its request, with a fresh non-zero id where it carries one; connecting also sets the keep-alive time and ends the wait for it |
| MqttRequests.PublishedAsAsked | libs/mqtt.c:262-294 | the packet an accepted mqtt_publish leaves as the last message has a fresh non-zero id and reads back as the topic, payload and flags given, if the topic is shorter than 65536 bytes and the packet has at least 4 bytes behind its header |
| MqttRequests.SubscribedAsAsked | libs/mqtt.c:380-408 | so has that of mqtt_subscribe, and a broker reads the topic and QoS from it, if the topic is UTF-8 of 1 to 65535 bytes and the QoS at most 2 |
| MqttRequests.UnsubscribedAsAsked | libs/mqtt.c:410-435 | so has that of mqtt_unsubscribe, and a broker reads the topic from it, if that is UTF-8 of 1 to 65535 bytes |
| MqttSending.LoopDoes | libs/mqtt.c:512-621 | the loop over the queue, message by message: new ones and those whose answer is late go out, but for QoS 2 PUBLISHes behind an unfinished one, up to one that fails; each is left complete or waiting by its type and first byte, and nothing else changes but times, timeouts and the error |
| MqttSending.SendDoes | libs/mqtt.c:498-638 | a send does nothing after an error other than a full send buffer; else it runs the loop and, if that went well, queues a PINGREQ exactly if more than three quarters of the keep-alive time have passed since the last message went out |
| MqttSending.TimeoutIsThirty | libs/mqtt.c:104-140 | the response timeout of every session is 30 seconds |
| MqttSending.LateIsSentAgain | libs/mqtt.c:519-545 | in every session, a send without error sends a message that waits for its answer once more exactly if more than 30 seconds have passed since it was sent, unless it is a QoS 2 PUBLISH behind an unfinished one |
| MqttResponses.ResponseDoes | libs/mqtt.c:713-874 | every response: which message it completes, that its absence is an error, what a return code or 0x80 makes of it, which acknowledgement is requested, when the callback is called, the return value and the error |
| MqttEffects.ErrorsAreFinal | libs/mqtt.c:198-221 | after the first error, a full send buffer included, no run of calls clears it or queues another packet, not even an acknowledgement |
| MqttDeliveries.OpenIffOwed | libs/mqtt.c:746-815 | in every reachable session the PUBRECs not complete are those of the deliveries not yet released |
| MqttDeliveries.DeliveredIff | libs/mqtt.c:746-762 | in every reachable session a repeated QoS 2 PUBLISH is dropped, and a new one is delivered exactly if there is no error, no released PUBREC with its id is still queued, and a PUBREC finds room |
| MqttDeliveries.ExactlyOnceFails | libs/mqtt.c:746-750 | after CONNECT, CONNACK, PUBLISH, PUBREC, PUBREL and PUBCOMP, all sent and complete, a new PUBLISH under the same id is dropped however often it is repeated |
| MqttAnswers.AtLeastOnce | libs/mqtt.c:764-796 | in every run a PUBLISH of QoS 1 or 2 that was accepted is complete or removed only if a PUBACK or PUBREC with its id was processed while it was pending in the queue |
| MqttAnswers.AnswerIsTaken | libs/mqtt.c:764-796 | in every reachable session either of the two completes it, a PUBREC unless a PUBREL with the id is queued; the type is not compared with the QoS |
| MqttReceive.ParseContinues | libs/mqtt.c:668-884 | the packets of a stream can be cut out portion by portion |
| MqttReceive.CallsProcess | libs/mqtt.c:640-884 | as many receive calls as there are portions do with the stream what would be done were it all there at once |
| MqttReceive.PacketByPacket | libs/mqtt.c:647-720 | calls on a stream in whatever portions end with the error of the first packet, with too small a buffer if it does not fit, or with the error of its handler; or they wait for its rest; else it is handled, and all goes on as if the stream began behind it |
| MqttReceive.ChunkingIrrelevant | libs/mqtt.c:647-684 | two portionings of one stream of bytes lead to the same session, status and buffer once there were as many calls as portions, errors included |
| MqttReceive.StreamIsHandled | libs/mqtt.c:640-884 | while whole packets that fit the buffer arrive, exactly the packets received are handled in order, the only errors are those of handlers, and less than a packet stays in the buffer |
| MqttClient.Client.TryPack | libs/mqtt.c:198-221 | the macro on the real queue does to the session what the model says, errors and second attempt included |
| MqttClient.Client.Publish | libs/mqtt.c:262-294 | mqtt_publish does to the session what the model says |
| MqttClient.Client.Send | libs/mqtt.c:498-638 | the send loop with its flags, times and states does to the session what the model says |
| MqttClient.Client.Handle | libs/mqtt.c:713-874 | the switch over the responses does to the session what the model says |
| MqttClient.Client.Recv | libs/mqtt.c:640-884 | filling, shifting and handling the buffer does to the session and the buffer what the model says; used and free bytes add up to the buffer |
| MjsonText.BodyIsPassed | libs/mjson.c:32-44 | a string is passed exactly to its closing quote, whatever escapes it holds |
| MjsonText.EscTable | libs/mjson.c:24-30 | the seven escapes, by their characters |
| MjsonText.StringRoundTrip | libs/mjson.c:24-44 | an escaped text is passed to its closing quote, and unescaped to itself exactly if the buffer is longer than the text |
| MjsonText.ReadsIff | libs/mjson.c:257-272 | of the strings of RFC 8259, mjson_unescape reads exactly those without an escaped slash or code point, if the buffer is longer than their text |
| MjsonText.JsonNumberIsNumber | libs/mjson.c:93-97 | every number of RFC 8259 is taken whole |
| MjsonText.NumberStops | libs/mjson.c:93-97 | and no further than it reaches |
| MjsonScanner.ValueIsScanned | libs/mjson.c:46-150 | inside any brackets, a printed value is scanned to the pre-order events of its tree with their offsets and lengths |
| MjsonScanner.ValueTooDeep | libs/mjson.c:72-82 | a value nested beyond 20 brackets ends the scan with TOO_DEEP |
| MjsonScanner.DocumentIsScanned | libs/mjson.c:46-150 | a whole text is scanned to its events, ending right behind the value, exactly if its depth is at most 20; otherwise the result is TOO_DEEP |
| MjsonMarks.FindIsTrack | libs/mjson.c:171-239 | on every tree and path of keys and indices mjson_find returns what one pass over the values, arrays, commas and keys at their depths finds |
| MjsonGrammar.ScanIsDescent | libs/mjson.c:46-150 | on every text, JSON or not, the state machine with its stack of brackets reports the events of recursive descent over values, elements and members, and ends where it does or with its error |
| MjsonGrammar.CommaBeforeBracket | libs/mjson.c:46-150 | so `[true,]` is accepted |
| MjsonPath.PathPrints | libs/mjson.c:171-239 | the text of a path with keys and a number |
| MjsonKeys.FindIsFlat | libs/mjson.c:171-239 | on every path of keys it returns what one pass over the keys and their depths finds |
| MjsonLookup.FindAgreesIff | libs/mjson.c:171-239 | what the recursive first-match lookup finds is found; the two disagree exactly if the parts that lookup could not follow occur one behind the other as ever deeper keys of the text behind, none of them after a key at the depth already reached |
| MjsonStrings.LookupLocates | libs/mjson.c:171-239 | what that lookup returns is the token and the place of the text of the value at the path |
| MjsonLookup.AgreesOnAllPathsIff | libs/mjson.c:171-239 | they agree on all paths exactly if no value a path leads to has, before any key as deep as it, a key one deeper behind it that it lacks itself |
| MjsonLookup.FindIsLookup | libs/mjson.c:171-239 | they agree on every path if no array holds an object with entries |
| MjsonLookup.FindGoesAstray | libs/mjson.c:202-210 | the concrete text and path on which they do not |
| MjsonElements.ElementsAgreeIff | libs/mjson.c:171-239 | on every path of keys and indices, what the lookup by keys and element numbers finds is found; the two disagree exactly if the parts that lookup could not follow occur one behind the other in the text behind, commas of objects counted, none of them after a key at the depth already reached |
| MjsonElements.ReachOfKeys | libs/mjson.c:202-210 | on paths of keys that lookup is the lookup by keys |
| MjsonElements.KeyOfElement | libs/mjson.c:183-210 | in an array `$[i].key` finds the key in the first element from number i on that has it |
| MjsonElements.ElementGoesAstray | libs/mjson.c:183-210 | so in an array of two objects it finds the key of the second one, asked for that of the first |
| MjsonStrings.GetStringReads | libs/mjson.c:257-280 | a string printed with its escapes is read back from its path, exactly if the buffer is longer than the string |
| MjsonStrings.GetStringReadsIff | libs/mjson.c:257-280 | any string of RFC 8259 is read from its path exactly if it has no escaped slash or code point and the buffer is longer than its text |
| Mjson.Esc | libs/mjson.c:24-30 | the search through the table translates as the pairs say, in both directions |
| Mjson.Pass | libs/mjson.c:32-44 | the loop finds the closing quote |
| Mjson.GetData.Callback | libs/mjson.c:171-230 | the callback, array indices included, updates its data as the automaton says |
| Mjson.Scanner | libs/mjson.c:46-150 | the loop with its array of open brackets calls back with exactly the events of the scan until one stops it |
| Mjson.Find | libs/mjson.c:232-239 | mjson_find returns what the scan and the automaton give |
| Mjson.UnescapeInto | libs/mjson.c:257-272 | the buffer receives the unescaped text and a NUL, or -1 is returned; nothing behind the room given changes |
| Mjson.GetString | libs/mjson.c:274-280 | mjson_get_string returns the unescaped string at the path |
| Crc16.TableEntry | crc16.c:6-39 | each of the 256 table entries is eight shift steps of its index |
| Crc16.UpdateIsBitwise | crc16.c:41-49 | a table step is eight shift and XOR steps with the polynomial 0xA001, for every checksum and byte |
| CrcErrors.Calculate | crc16.c:51-58 | the loop computes the checksum of the bytes it is given |
| CrcErrors.BurstDetected | crc16.c:41-58 | messages of any length that differ only within 16 consecutive bits have different checksums |
| CrcErrors.AdjacentBytesDetected | crc16.c:41-58 | so have messages that differ in at most two adjacent bytes |
| CrcErrors.OddFlipsDetected | crc16.c:41-58 | so have messages that differ in an odd number of bits |
| CrcDistance.TwoFlipsDetectedIff | crc16.c:41-58 | messages that differ in just two bits have different checksums exactly if the distance of the bits is no multiple of 32767, so always if they have at most 4095 bytes |
| CommWire.CheckValue | crc16.c:41-58 | the checksum of "123456789" is 4B37, that of nothing FFFF |
| Octets.NumberByBits | crc16.c:41-49 | a byte is the number its bits weigh |
| CommWire.FrameBytes | comm.c:45-57 | a frame byte by byte: SOH, two digits that read as the address, a colon, the command, STX, the content, ETX, and four digits that read as the CRC of all that, for every address |
| CommWire.AddressReads | comm.c:50-50 | the two digits of an address, read most significant first, are the address |
| CommWire.ChecksumReads | comm.c:54-54 | so are the four digits of a checksum |
| Comm.FrameIsReceived | comm.c:45-57 | a frame behind at most four bytes of noise is received, with its content cut to the buffer, whatever follows |
| Comm.LongContentIsRefused | comm.c:153-155 | more than 57 content bytes are a full receive buffer |
| Comm.AcceptsExactlyFrames | comm.c:74-176 | a reply is accepted if and only if it holds such a frame |
| CommWire.WrongHeader | comm.c:106-144 | the first wrong byte of a header is reported as a wrong address, a wrong command or a syntax error by its place |
| CommWire.TooMuchNoise | comm.c:107-115 | five bytes without SOH are no start |
| CommWire.WrongDigit | comm.c:161-170 | a wrong digit of the checksum is a wrong checksum |
| CommWire.BrokenOff | comm.c:94-99 | a frame that breaks off anywhere is a timeout |
| CommErrors.SingleByteDamaged | comm.c:89-175 | a reply with one damaged byte is accepted exactly if a content byte became ETX and the next four bytes are the checksum up to there |
| CommErrors.WronglyAccepted | comm.c:145-170 | such a reply exists for every command |
| CommErrors.DamagedContentRefused | comm.c:145-170 | content damaged by a burst of at most 16 bits, an odd number of flipped bits or two of them is refused if that brings in no ETX |
| CommDriver.SendCommand | comm.c:45-72 | the frame is printed into the transmit buffer with its checksum behind it, and exactly it goes out |
| CommDriver.ByteIsHeard | comm.c:92-99 | a byte is heard exactly if it is there at the latest at the 10000th poll |
| CommDriver.ReceiveResponse | comm.c:74-176 | the loop returns what the state machine says of the bytes heard before the line falls silent, and stays within its buffers |
| ModuleManager.DecimalScans | module_manager.c:130-132 | a printed number is read back |
| ModuleManager.DecimalPrints | module_manager.c:283-283 | numbers are printed in decimal |
| ModuleManager.NumberIsScanned | module_manager.c:130-132 | a number is read behind blanks and in front of anything but a digit, with its sign |
| ModuleManager.NoNumberIsScanned | module_manager.c:130-132 | any other beginning is not a number |
| ModuleManager.Told | module_manager.c:278-284 | the module is told the value if it is in range, else the end of the range nearer to it, the maximum if the range is empty; of a binary port 0 as 0 and all else as 1 |
| ModuleManager.ToldIffInRange | module_manager.c:278-284 | it is told the value itself exactly if that is in range |
| ModuleManager.ReplyIsJudged | module_manager.c:106-118 | a lost reply and one that starts with NAK are counted, each as what it is; every other reply is read |
| ModuleManager.Manager.SetPortValue | module_manager.c:268-323 | the module is told the value cut to its range; the cache takes the value itself, exactly if the reply is neither lost nor a refusal; a lost reply is one more communication error and -1, a refusal one more operation error and -2 |
| ModuleManager.Manager.UpdatePort | module_manager.c:101-149 | one turn of the innermost loop does to cache, module and counters what the function of the replies says, an unreadable reply included |
| ModuleManager.Manager.UpdateChannel | module_manager.c:70-149 | so does the loop over the ports of a channel, after a bulk read if there is one; no other channel changes |
| ModuleManager.Manager.UpdateValues | module_manager.c:54-155 | so does the loop over all channels of all modules |
| ModuleManager.AgreementIff | module_manager.c:101-149 | after any pass, by the replies to the commands of its turn: a port to be ignored is untouched; one to be read took over the value its reply said, and kept its own without one; one to be written was told the value of the cache, cut to its range, exactly if the reply said another and the write got through; so for each it is stated exactly when cache and module agree |
| ModuleManager.ChannelErrors | module_manager.c:90-149 | the errors counted for a channel are exactly the lost replies and the refusals among its commands, the bulk read left out |
| ModuleManager.PortCommands | module_manager.c:101-149 | a port takes a read unless it is ignored or was read in bulk, and a write exactly if it is to be written and another value was read |
| ModuleManager.FinePass | module_manager.c:54-155 | a pass in which every command is answered counts no error |
| ModuleManager.OnlyBulkFails | module_manager.c:88-99 | a bulk read may fail in any way without an error |
| ModuleManager.UnclearReplyIsNoError | module_manager.c:130-132 | a reply that cannot be read is passed over without an error, and cache and module stay different |
| ModuleManager.CountedNothingMeansAgreement | module_manager.c:54-155 | if the modules answer what they are asked or not at all, a pass that counted no error leaves R caches equal to the module, W modules equal to the cache exactly if it is within minimum and maximum (0 or 1 if binary) or they were before, and N ports untouched |
| ModuleManager.ForcedPassCopies | module_manager.c:121-138 | a forced pass over such modules that counted no error copies all values and writes nothing |
| ModuleManager.PassesAgree | module_manager.c:90-122 | two passes over the same caches and modules that counted no error end with the same caches and modules, whichever way they read |
| ModuleManager.AgreementIsStable | module_manager.c:54-155 | once cache and such a module agree, further passes change nothing, even if they fail |
| ModuleContent.SplitJoins | module_manager.c:544-562 | the parts of a reply, joined by colons, are the reply; only the last may hold a colon, and there are as many as colons allow up to the maximum |
| ModuleContent.ParseContent | module_manager.c:544-562 | cutting the buffer in place leaves exactly these parts as strings at the pointers returned |

## Left out

- MqttQueue.MessageQueue.Clean: the headers live in an array of their own, one place a header, and not in the bytes of the block; that packets and headers stay apart is stated by sizes and by the bytes never written.
- MqttClient.Client.Unsubscribe: the id is drawn under the lock, while `libs/mqtt.c:413-416` draws it before; the function is not called in this firmware.
- MqttClient.Client.Recv: a PUBLISH whose topic length exceeds its packet, which makes the source read on behind it, is excluded; a socket error is a separate call between receive calls.
- MqttClient.Client.NextPid: the queue has fewer than 65535 messages, else the source may search for ever; the block of memory is assumed smaller than that many headers.
- MqttClient.Client.Send: `mqtt_pal_sendall` takes a whole message or fails, as `libs/mqtt_pal.c:77-121` does, so `send_offset` stays 0; the clock may give any value at each reading.
- The response time average of the client, reconnecting (`mqtt_reconnect`, `mqtt_reinit`), the inspector callback and `mqtt_sync` itself, which calls the two halves.
- MqttCodec.PackRequest: a SUBSCRIBE or UNSUBSCRIBE holds one topic, which is all the client ever passes; the functions take several.
- MjsonText.NumberStops: `strtod` is the scanner of decimal numbers within the text; its hexadecimal numbers, infinities and reading behind the end of the text are not modelled.
- MjsonLookup.AgreesOnAllPathsIff: speaks of paths of keys; for paths with indices there is MjsonElements.ElementsAgreeIff, path by path.
- MjsonElements.ElementsAgreeIff: texts deeper than 20 brackets, where a value may be found before the scan fails; indices with leading zeros.
- Mjson.GetData.Callback: an index is its decimal digits, where `strtod` also takes signs, blanks and fractions; a path that does not close its bracket ends there, where the source reads on behind it.
- `mjson_get_hex`, `mjson_get_number`, `mjson_get_bool`, `mjson_next`.
- CommDriver.SendCommand: addresses are bytes; contents have at most 52 bytes, which is what fits the transmit buffer, and no NUL; pins, delays and FIFO flushing are not modelled.
- ModuleManager.Manager.SetPortValue: float and text channels; `sscanf` and `sprintf` take numbers of any size.
- ModuleManager.Manager.UpdatePort: float channels; the text of a reply that was not due stands for all that the receive buffer then holds.
- ModuleManager.Manager.UpdateChannel: binary channels with 50 or more ports, for which the source reads a stale buffer.
- ModuleManager.Manager.UpdateValues: mutexes, and the discovery of modules.
- The web server, telnet, configuration storage, TLS, sockets and the web pages.
