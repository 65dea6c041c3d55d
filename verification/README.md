# Verification of the libmosquitto client core

libmosquitto 1.4.5 is an MQTT client library in C. These modules model four parts of it, which share
the client structure, and prove what they promise.

| files | part |
|---|---|
| `Topics.dfy` | topic filter checks, the tokeniser, and the scanner that matches topics against filters |
| `Codec.dfy`, `Wire.dfy` | the remaining-length codec, packet streams, PUBLISH and CONNECT as values, and a one-shot parser |
| `PacketBuffer.dfy`, `PacketReader.dfy`, `ReadSteps.dfy`, `PacketWriter.dfy`, `EndToEnd.dfy` | packet buffers, the resumable reader and its step function, the output queue, and both together |
| `Engine.dfy` | the QoS 1 and 2 message engine as a function from state and event to state |
| `MessageLists.dfy`, `Execution.dfy`, `StaleTail.dfy` | the same on linked lists, as in the source; in which runs they do what `Engine` does, and what they do in another |
| `Window.dfy`, `Limits.dfy`, `ClosedWindow.dfy`, `ClosedForGood.dfy`, `DeadWindow.dfy`, `Fate.dfy`, `Published.dfy`, `Order.dfy`, `OrderLost.dfy`, `DupAfterReset.dfy`, `ClearAgain.dfy`, `Qos2Sender.dfy`, `Qos2Repeat.dfy`, `Qos2Barred.dfy`, `Qos2Receiver.dfy`, `Answers.dfy`, `Retries.dfy`, `RetryTimes.dfy`, `Ids.dfy` | what holds of the engine over all its runs |
| `Connection.dfy`, `OtherEnd.dfy` | the engine with its sends going through the output queue, up to what is read at the other end |
| `Timers.dfy` | keepalive and reconnect delay |
| `Runs.dfy` | runs of a step function, used by the engine and the timers |

How the model is built:

- What the C code changes step by step is a class with the same fields, or a loop. Integers that can wrap
  have the width of the C type.
- The network is a script: each read or write is granted some number of bytes, would block, or fails. Every
  result holds for all scripts. For the engine, whose sends only succeed or fail, the script is a sequence of
  truth values. Clock readings are parameters.
- Logs record what leaves the model: packets sent, bytes written, calls of `on_publish`, `on_message` and
  `on_disconnect`. Callbacks are assumed to be set, and not to call the library.
- A public call, or the handling of one packet, is one step.
- A followed run is a sequence of events in which no message of QoS 1 or 2 is published behind a reset that found
  incoming messages and no outgoing one, up to the next reset (`Execution.NeverStale`). The linked lists do what
  the engine does exactly in these runs (`Execution.Execute`), so it is these that results about whole runs of the
  engine carry over to.
- Names follow the C code: `_mosquitto_message_queue` with direction out is `QueueOut`, and so on. Comments
  name the C function where the name differs.

Where the code differs from its documentation or from the standard, the model follows the code:

- The matcher does not find two kinds of matches of filters that end in `/#` (`Topics.Deviates`). It never
  finds one that is not there.
- The reset does not clear its local pointer between the two lists (`messages_mosq.c:157`, `:180`, `:210`), so with
  incoming messages only, the tail pointer of the empty outgoing list is then the last incoming message, and a message
  published next is linked behind that one. Its acknowledgement finds nothing and is not reported, its slot of
  the window stays taken, and the next reset takes it out of the incoming list (`StaleTail.Lost`), or follows a null
  pointer (`StaleTail.NullPointer`); the engine would have reported it (`StaleTail.EngineReports`).
- After a reset, `inflight_messages` counts all messages of QoS 1 and 2, also those it has just marked as
  waiting. The window is smaller from then on by that number. `ClosedWindow.StallsExactly` says when it is
  closed altogether, `ClosedWindow.ResetStalls` which resets do that (with QoS 1, those that find at least
  2 * limit - 1 messages, the first ones of which have been transmitted), and `ClosedWindow.StallReached` gives
  the run. Waiting messages of QoS 2 can close it for good, at every limit (`ClosedForGood.ClosedForGoodExactly`,
  `DeadWindow.DeadLasts`, `DeadWindow.DeadReached`); with a limit of 1, one message listed at a reset is enough
  (`DeadWindow.DeadForGood`).
- An answer to a message that is not in flight lowers the counter all the same, so that the limit can be
  exceeded later. `Limits.LimitExactly` and `Limits.StrayAnswer` say when.
- The reset marks by position, whatever a QoS 2 message was waiting for, so a message can be published again
  after its PUBREC (`Qos2Sender.PublishedAgain`; `Qos2Repeat.NotRepeatedExactly` says when, and
  `Qos2Barred.RepeatedAfterResetExactly` with a peer that answers active messages only), and a message can
  overtake one in front of it (`OrderLost.ResetLosesOrder`; `Order.ResetOrderlyExactly`). It leaves the DUP flag
  alone, and the retry pass behind it sets it on every active message, so the first PUBLISH of a message can carry DUP
  (`DupAfterReset.FirstPublishWithDup`, `DupAfterReset.RetryDupsExactly`), and a repeated one need not
  (`ClearAgain.SentTwiceClear`, `ClearAgain.NotClearAgainExactly`).
- There is no duplicate check for incoming QoS 2 messages (`Qos2Receiver.RepeatedPublishDeliveredTwice`).
- The reader takes a command byte of 0 for no command yet: a read that falls short right behind it makes it
  forgotten. On two zero bytes it hands over a packet or not, by where the reads fall short
  (`ReadSteps.TwoZeros`); `ReadSteps.DeterminedExactly` says for which streams that can happen. No MQTT packet
  starts with 0.
- A failed promotion keeps the acknowledgement that caused it from being reported (`Fate.AckReports`).
- The reconnect delay is quadratic and starts at 0 with backoff, and constant without; `mosquitto.h` documents
  doubling and an arithmetic series (`Timers.HeaderExamples`).
- The keepalive check can call `on_disconnect` twice in one call (`Timers.DisconnectsReported`), and restarts
  its clocks even when the PINGREQ could not be queued: a silent peer is never noticed exactly when no ping is
  (`Timers.StaysOpenExactly`). A PINGREQ that is queued but whose send reports failure is not noted, so that two
  can be outstanding (`Timers.TwoPings`).

`dafny verify dfyconfig.toml` checks all of it.

## Model

| member | source | states |
|---|---|---|
| `Topics.SubTopicCheck` | libcar/util_mosq.c:196-217 | succeeds exactly for filters of at most 65535 characters in which a level holding `+` is just `+` and a level holding `#` is just `#` and last |
| `Topics.PubTopicCheck` | libcar/util_mosq.c:174-187 | succeeds exactly for topics of at most 65535 characters without `+` and `#` |
| `Topics.CharsOkIsWellFormed` | libcar/util_mosq.c:196-217 | the check's character-by-character rule and the rule on levels say the same, from any character on |
| `Topics.TopicMatchesSub` | libcar/util_mosq.c:220-295 | on every accepted non-empty filter and topic: yes exactly when section 4.7 of MQTT 3.1.1 says so (with the rule on `$`) and the pair is not of the two deviating shapes; so a yes is always right; the results for empty strings |
| `Topics.RunCursors` | libcar/util_mosq.c:240-294 | the two-cursor loop decides what the recursive scan decides, and leaves the result alone when both strings are empty |
| `Topics.ScanCorrect` | libcar/util_mosq.c:240-294 | from every pair of cursor positions the scan reaches: it says yes exactly when the rests match level by level and do not deviate |
| `Topics.DeviationsOccur` | libcar/util_mosq.c:240-294 | both deviating shapes occur: `+/#` does not get `a`, and `/#` does not get `/`, although both match |
| `Topics.LevelsJoin` | libcar/mosquitto.c:1351-1408 | the levels of a string: one more than there are separators, none holds a separator, and joining them gives the string |
| `Topics.SplitIsUnique` | libcar/mosquitto.c:1351-1408 | any list of separator-free levels is the levels of its join, so there is no other split |
| `Topics.CountLevels` | libcar/mosquitto.c:1362-1372 | the counting loop: the number of separators plus one |
| `Topics.FillTokens` | libcar/mosquitto.c:1377-1403 | the loop that cuts at separators stores each level in its place, the empty ones as null |
| `Topics.StoreToken` | libcar/mosquitto.c:1384-1399 | the loop body stores the characters from `start` to `stop`, and nothing if there are none |
| `Topics.CopyRange` | libcar/mosquitto.c:1396-1398 | the inner copy loop |
| `Topics.Tokenise` | libcar/mosquitto.c:1351-1408 | one entry for each level, in order, null for an empty level |
| `Topics.TokensJoin` | libcar/mosquitto.c:1351-1408 | the entries, joined with `/` and null read as empty, are the argument; their number is the number of `/` plus one |
| `Codec.FourDigits` | libcar/util_mosq.c:41-78 | four digits are enough exactly up to 268435455 |
| `Codec.LengthDigits` | libcar/util_mosq.c:49-62 | the digits one by one: seven bits each, from the lowest on, and 128 added on all but the last |
| `Codec.LengthRoundTrip` | libcar/net_mosq.c:952-986 | the reader's multiplier loop gives back every length the encoder can encode, whatever follows the digits |
| `Codec.ParseLengthBounds` | libcar/net_mosq.c:952-986 | a length that is read fits 268435455 and used one to four digits; the running value stays below the multiplier |
| `Codec.ShortestEncoding` | libcar/util_mosq.c:41-78 | no digits that decode to the same length are fewer than the encoder's |
| `Codec.LengthFromSnoc` | libcar/net_mosq.c:956-966 | one more digit: the fifth is refused, else the value grows by the digit times the multiplier |
| `Codec.ParseStreamSplit` | libcar/net_mosq.c:888-1050 | parsing a stream in two parts gives the packets of parsing it at once |
| `Codec.ParseEncodeAll` | libcar/net_mosq.c:888-1050 | parsing the encodings of any packets gives these packets and nothing left |
| `Codec.ParsePrefix` | libcar/net_mosq.c:888-1050 | parsing any front of such a stream gives the first of the packets |
| `Wire.ReadStringBack` | libcar/net_mosq.c:602-653 | a length-prefixed string of up to 65535 bytes can be read back in front of anything |
| `Wire.PublishRoundTrip` | libcar/read_handle.c:64-113 | decoding what the PUBLISH writer lays out gives the message back: flags, QoS, topic, id, payload; and the size is the remaining length |
| `Wire.PublishLayout` | libcar/send_mosq.c:270-279 | where length, topic, id and payload stand in the body of a PUBLISH, the high byte of a number first |
| `Wire.DecodesExactly` | libcar/read_handle.c:64-113 | which packets the PUBLISH handler takes, by the bytes of the body: the topic is there and does not start with NUL, the QoS is not 3, and an id is there if the QoS asks for one |
| `Wire.HeaderBits` | libcar/send_mosq.c:263 | the bits of the PUBLISH header byte |
| `Wire.ConnectFills` | libcar/send_client_mosq.c:76-135 | the CONNECT layout never exceeds the length computed for it, and fills it exactly when every string fits a 16-bit length |
| `Wire.FlagBits` | libcar/send_client_mosq.c:111-121 | the bits of the CONNECT flag byte |
| `Wire.ConnectRoundTrip` | libcar/send_client_mosq.c:63-135 | a parser after section 3.1 of MQTT 3.1.1, which asks for the type 0x10 and the two protocol names and is driven by the flag byte, recovers every field for both protocol versions and every combination of will, user name and password |
| `PacketBuffer.Packet.EncodeDigits` | libcar/util_mosq.c:49-62 | the digit loop: five digits exactly when the length is over 268435455, else the encoding of the length |
| `PacketBuffer.Packet.Alloc` | libcar/util_mosq.c:41-78 | fails exactly for lengths over 268435455; else the buffer is as long as header and body, and the fixed header is in front of the cursor |
| `PacketBuffer.Packet.WriteByte` | libcar/net_mosq.c:573-580 | appends a byte in front of the cursor, within the buffer |
| `PacketBuffer.Packet.WriteBytes` | libcar/net_mosq.c:593-600 | appends bytes |
| `PacketBuffer.Packet.WriteUint16` | libcar/net_mosq.c:649-653 | appends a 16-bit number, high byte first |
| `PacketBuffer.Packet.WriteString` | libcar/net_mosq.c:625-630 | appends the length modulo 65536 and as many bytes |
| `PacketBuffer.Packet.WritePublishBody` | libcar/send_mosq.c:270-279 | appends topic, id if QoS is not 0, and payload |
| `PacketBuffer.Packet.WriteConnectHead` | libcar/send_client_mosq.c:99-122 | appends protocol name, version, flags and keepalive |
| `PacketBuffer.Packet.WriteWill` | libcar/send_client_mosq.c:126-129 | appends will topic and payload if there is a will |
| `PacketBuffer.Packet.WriteCredentials` | libcar/send_client_mosq.c:130-135 | appends the user name, and the password only behind a user name |
| `PacketBuffer.Packet.WriteConnectBody` | libcar/send_client_mosq.c:98-135 | appends the whole CONNECT body |
| `PacketBuffer.Packet.ReadByte` | libcar/net_mosq.c:562-571 | takes the next byte, or fails with nothing taken |
| `PacketBuffer.Packet.ReadUint16` | libcar/net_mosq.c:632-647 | takes a number of two bytes, or fails with nothing taken |
| `PacketBuffer.Packet.ReadString` | libcar/net_mosq.c:602-623 | takes a length and so many bytes; fails exactly when they are not there |
| `PacketBuffer.Packet.ReadBytes` | libcar/net_mosq.c:582-591 | takes so many bytes; fails exactly when they are not there |
| `PacketBuffer.Packet.HandlePublish` | libcar/read_handle.c:64-113 | accepts exactly the bodies that decode (non-empty topic, QoS not 3, all fields there), and yields what they decode to; the packet is left as it was |
| `PacketBuffer.Packet.ReadIdAndPayload` | libcar/read_handle.c:92-113 | the id when QoS is not 0, and the rest as payload |
| `PacketBuffer.Packet.HandleSuback` | libcar/read_handle_shared.c:178-192 | fails exactly for bodies under two bytes; else id and granted QoS bytes are together the body |
| `PacketBuffer.Packet.FillGranted` | libcar/read_handle_shared.c:184-192 | the loop copies every byte that is left, in order |
| `PacketBuffer.BuildPublish` | libcar/send_mosq.c:248-282 | fails exactly for a remaining length over 268435455; else the packet holds the encoding of the message, to the last byte |
| `PacketBuffer.BuildConnect` | libcar/send_client_mosq.c:33-146 | the buffer is never overrun, and the cursor ends at `packet_length` exactly when every string fits; then the packet holds the encoding |
| `PacketBuffer.BuildCommandWithMid` | libcar/send_mosq.c:200-224 | holds command, length 2 and the id |
| `PacketBuffer.BuildSimpleCommand` | libcar/send_mosq.c:227-246 | holds command and length 0 |
| `ReadSteps.NoZeroPrefix` | libcar/net_mosq.c:915-942 | a stream without zero command bytes has none in any front of it |
| `ReadSteps.ParsedNext` | libcar/net_mosq.c:888-1050 | on every stream, feeding the saved fields one more byte gives what a one-shot parse with that byte gives |
| `ReadSteps.FollowsParser` | libcar/net_mosq.c:888-1050 | on a stream without zero commands the fields, and the packets handed over, are those of parsing the bytes at once, wherever reads fell short |
| `ReadSteps.ShortageMatters` | libcar/net_mosq.c:915-942 | behind any packets, a zero command and one more byte: the result differs by whether a read fell short between the two |
| `ReadSteps.DeterminedExactly` | libcar/net_mosq.c:915-942 | for every stream: the result at each point is independent of where reads fell short exactly when the stream without its last byte has no zero command |
| `ReadSteps.TwoZeros` | libcar/net_mosq.c:915-942 | the shortest case: `0, 0` in one go hands over a packet without a body, and with a shortage between them it hands over nothing |
| `PacketReader.Reader.PacketCleanup` | libcar/net_mosq.c:132-145 | all fields of the packet being read are those of no packet |
| `PacketReader.Reader.Connect` | libcar/mosquitto.c:492-500 | a new connection starts with nothing consumed and nothing saved |
| `PacketReader.Reader.NextRead` | libcar/net_mosq.c:655-701 | a read gives 1 to `count` of the bytes to come, in order, or would block, or fails; it takes nothing else |
| `PacketReader.Reader.NetRead` | libcar/net_mosq.c:655-701 | the same, and the bytes or the shortage are what the step function sees next |
| `PacketReader.Reader.ReadCommand` | libcar/net_mosq.c:915-942 | the command byte is saved, or nothing is taken; the fields are those of the step function |
| `PacketReader.Reader.TakeDigit` | libcar/net_mosq.c:956-966 | the saved fields are those of the step function with one more digit; a fifth digit is refused, exactly then; no 32-bit overflow |
| `PacketReader.Reader.ReadDigits` | libcar/net_mosq.c:953-983 | stops with the length complete, or with the fields of the digits so far saved, or refused because they are too many |
| `PacketReader.Reader.ReadLength` | libcar/net_mosq.c:952-993 | the same, and the body buffer has the length read |
| `PacketReader.Reader.ReadChunk` | libcar/net_mosq.c:994-1000 | the bytes of one read go behind those of the body that are there |
| `PacketReader.Reader.ReadBody` | libcar/net_mosq.c:994-1027 | the buffer holds the body bytes read so far, whenever reads fall short |
| `PacketReader.Reader.PacketHandle` | libcar/read_handle.c:32-62 | an unknown type is a protocol error; the PUBLISH case finds the message the body decodes to |
| `PacketReader.Reader.FinishPacket` | libcar/net_mosq.c:1029-1049 | the complete packet goes to the handler once, and the next starts afresh |
| `PacketReader.Reader.Fill` | libcar/net_mosq.c:915-1027 | command, length and body, resumed wherever the last call stopped |
| `PacketReader.Reader.PacketRead` | libcar/net_mosq.c:888-1050 | one call hands over at most one packet; no byte is lost or repeated; the saved fields are those of the step function on the bytes and shortages seen; a protocol error without a packet is a length of more than four digits; without a packet and without such an error the last read took nothing, and the call fails exactly when that read did |
| `PacketReader.Reader.HandleError` | libcar/mosquitto.c:1112-1131 | an error closes the socket, and counts as a success while the client is disconnecting |
| `PacketReader.Reader.LoopRead` | libcar/mosquitto.c:1133-1165 | reads exactly as many packets as messages are in flight, but at least one; fewer only on an error, which closes the socket and is returned unless the client is disconnecting, when the last network call would have blocked, a write by a handler included, or before the connection is made; no byte lost |
| `PacketReader.Reader.Refines` | libcar/net_mosq.c:888-1050 | for every stream without zero command bytes and every way it was split: the packets handled are those of parsing the consumed bytes at once, and the saved fields are those of the bytes left over |
| `PacketWriter.Sender.Conserved` | libcar/net_mosq.c:751-882 | the bytes on the wire, the unsent tail of the current packet's buffer and the buffers of the waiting packets are together all that was queued since the connect, in order; an announced connection starts with the bytes of its CONNECT; `on_publish` was called for each PUBLISH of QoS 0 written to its end, in order, with its id |
| `PacketWriter.Sender.NothingAfterDisconnect` | libcar/net_mosq.c:825-860 | once a DISCONNECT is written the socket is closed, and its bytes are the last on the wire |
| `PacketWriter.Sender.LinkLast` | libcar/net_mosq.c:158-165 | the new packet is the last of the list, and the tail pointer points to it |
| `PacketWriter.Sender.Append` | libcar/net_mosq.c:155-165 | queues the packet's bytes behind all others |
| `PacketWriter.Sender.Advance` | libcar/net_mosq.c:864-872 | the head of the list becomes the current packet; the tail pointer is the true tail whenever the list is not empty |
| `PacketWriter.Sender.NetWrite` | libcar/net_mosq.c:703-749 | a write puts a front of the bytes offered on the wire, or would block, or fails |
| `PacketWriter.Sender.WriteChunk` | libcar/net_mosq.c:781-788 | offers the rest of the buffer and moves the cursor behind what was taken: the wire has exactly the next bytes of the packet queued, and less is left |
| `PacketWriter.Sender.WriteCurrent` | libcar/net_mosq.c:781-806 | repeats this to the end of the packet, a shortage or an error; what is on the wire is the packets done and the front of the current one, up to the cursor |
| `PacketWriter.Sender.Complete` | libcar/net_mosq.c:816-860 | calls `on_publish` with the packet's id exactly for a PUBLISH of QoS 0, whatever DUP and RETAIN, and closes the socket exactly for a DISCONNECT |
| `PacketWriter.Sender.FinishCurrent` | libcar/net_mosq.c:816-880 | one packet done and the next one current; the pointers agree with the queue; a DISCONNECT stops the loop |
| `PacketWriter.Sender.WriteOne` | libcar/net_mosq.c:778-880 | one turn of the loop keeps queue, wire and reports in balance |
| `PacketWriter.Sender.WriteAll` | libcar/net_mosq.c:778-882 | the loop ends only with the queue empty, behind a DISCONNECT, or at a write that took nothing, whose error it returns; every write before took something; queue, wire and reports are in balance |
| `PacketWriter.Sender.PacketWrite` | libcar/net_mosq.c:751-882 | the same from a call on: nothing is written without a socket or before the connection is made; what was written stays written |
| `PacketWriter.FailsByAWrite` | libcar/net_mosq.c:781-806 | the writer fails only by a write that fails: with ConnLost on a reset, else with Errno; a write that would block ends it without an error |
| `PacketWriter.Sender.PacketQueue` | libcar/net_mosq.c:147-197 | the packet is queued once, with its bytes and id; outside callbacks and threads it is written at once, as far as PacketWrite gets; else nothing is written |
| `PacketWriter.Sender.Drain` | libcar/mosquitto.c:504-519 | no packet is left, current or waiting |
| `PacketWriter.Sender.Restart` | libcar/mosquitto.c:504-545 | the new connection has nothing queued and nothing written |
| `PacketWriter.Sender.SendConnect` | libcar/send_client_mosq.c:33-146 | the CONNECT is the first packet queued, unless it is too large |
| `PacketWriter.Sender.Reconnect` | libcar/mosquitto.c:474-545 | after it the CONNECT alone is queued or written, exactly when the socket opened and the CONNECT could be built |
| `PacketWriter.Sender.Disconnect` | libcar/mosquitto.c:547-557 | queues a DISCONNECT if there is a connection |
| `PacketWriter.Sender.SendPublish` | libcar/send_mosq.c:84-177 | refused without a connection or over the length limit, else queued with the encoding of the message |
| `PacketWriter.Sender.SendSimpleCommand` | libcar/send_mosq.c:227-246 | queues the two bytes |
| `PacketWriter.Sender.SendCommandWithMid` | libcar/send_mosq.c:200-224 | queues the four bytes |
| `EndToEnd.ProperRaw` | libcar/send_mosq.c:248-282 | what the writer builds for a message is a packet the PUBLISH handler takes it from again |
| `EndToEnd.MessagesFound` | libcar/read_handle.c:64-113 | the handler finds in the packets of any queue exactly its messages, in order |
| `EndToEnd.Delivered` | libcar/net_mosq.c:751-1050 | sender and reader in any states their operations reach, the reader having taken a front of the bytes on the sender's wire: the messages handed over are the first of those queued, in order, with dup, QoS, retain, topic, id and payload, and all of them once all bytes are through |
| `EndToEnd.AllWritten` | libcar/net_mosq.c:751-882 | the bytes on the wire are all that was queued once nothing is current or waiting |
| `EndToEnd.ReportedAtWrite` | libcar/net_mosq.c:816-823 | at a write on_publish is called with the ids of the messages of QoS 0 among the packets written to their end, in order, and of no other, whatever DUP and RETAIN |
| `EndToEnd.EndsAtType14` | libcar/net_mosq.c:825-860 | a packet of type 14 (DISCONNECT) written to its end is the last: the socket is closed and nothing is written behind it |
| `Connection.Transmit` | libcar/send_mosq.c:38-246 | each send puts its packet behind the queue, a PUBLISH unless the socket is closed or it is too large; a send that succeeds has queued it |
| `Connection.PromoteRest` | libcar/messages_mosq.c:249-273 | promotion with these sends does what the engine does for the results they had |
| `Connection.PerformStep` | libcar/read_handle.c:32-62 | one event with its sends: the engine has made the step for exactly these results and used all of them, and the packets queued are those it sent, in order |
| `Connection.Endpoint.Perform` | libcar/read_handle.c:32-62 | one event: it is recorded with the sends it made, and the endpoint is still accounted for; only its own packets and new ones are touched, so events can follow each other |
| `Connection.Execute` | libcar/read_handle.c:32-62 | through any sequence of events, reconnects and commands, the endpoint is accounted for, with all of them recorded |
| `Connection.Endpoint.Accounts` | libcar/read_handle.c:32-62 | what that means: the state is that of the engine's run with the results the sends had; and behind the CONNECT the queue has had what the engine sent since, in order, but for refused PUBLISH packets, whose send failed |
| `Connection.Endpoint.Reconnect` | libcar/mosquitto.c:474-545 | a reconnect starts anew, with the CONNECT first and the engine reset |
| `Connection.Endpoint.Lists` | libcar/messages_mosq.c:83-389 | the linked lists, run through the same events with the same results, are in the same state, if that is a followed run |
| `Connection.Received` | libcar/net_mosq.c:751-1050 | a reader that has taken some of the bytes written has found the first of the messages the engine sent since the connect, in order, and all of them once all bytes are through |
| `OtherEnd.KnownExactly` | libcar/read_handle.c:32-62 | the reader refuses exactly the packet types without a case in the switch |
| `OtherEnd.AckRead` | libcar/send_mosq.c:67-246 | by the numbers of the standard: a PUBACK starts with 0x40, a PUBREC with 0x50, a PUBREL with 0x62, a PUBCOMP with 0x70, and the id follows in two bytes, the high one first |
| `OtherEnd.AllReceived` | libcar/net_mosq.c:751-1050 | a reader that has taken some of the bytes written has been given the CONNECT with all its fields, and then exactly the packets the engine sent, of all five types and with their ids, the PINGREQ and DISCONNECT packets between, in order; and all of them once all bytes are through |
| `OtherEnd.ZerosReported` | libcar/net_mosq.c:816-823 | on_publish is called at a write for the messages of QoS 0 the engine sent, when they are written to their end, in order, and never for one of QoS 1 or 2 |
| `MessageLists.MessageList.Append` | libcar/messages_mosq.c:125-150 | with the tail pointer right: the message is the last of the list, the tail pointer and the length agree; with a stale one of an empty list: it is linked behind what that points to, the list stays empty, and the length counts it |
| `MessageLists.MessageList.Search` | libcar/messages_mosq.c:224-247 | the first message with the id, and the one before it |
| `MessageLists.MessageList.Bypass` | libcar/messages_mosq.c:226-238 | leads the pointers around the node: they form the list without it, and no value changes |
| `MessageLists.MessageList.Detach` | libcar/messages_mosq.c:226-238 | takes the node out: the list is the one without it, the length falls by one, and the tail pointer is right again if it was; the test for an empty list is dead |
| `MessageLists.MessageList.Unlink` | libcar/messages_mosq.c:224-247 | removes the first message with the id, or changes nothing |
| `MessageLists.MessageList.ResetTimes` | libcar/messages_mosq.c:160-184 | the incoming half of the reset, for lists of any messages: what it makes of the list and its counter is the walk of WalkExactly, it fails where that does, by following a null pointer, and otherwise the tail pointer is right; a list of QoS 2 keeps its nodes |
| `MessageLists.WalkExactly` | libcar/messages_mosq.c:160-184 | what is left of any incoming list: the QoS 2 messages with timestamp 0, but the message behind a first one without QoS 2 is passed over and left as it is; the counter counts those taken out too; a null pointer is followed exactly when the list is one message without QoS 2 |
| `MessageLists.Client.SendPacket` | libcar/send_mosq.c:84 | a packet is sent, with the result the network gives |
| `MessageLists.Client.MidGenerate` | libcar/util_mosq.c:148-167 | the next id, never 0 |
| `MessageLists.Client.QueueOut` | libcar/messages_mosq.c:117-152 | listed last; counted, and the caller told to start it, exactly when there is room |
| `MessageLists.Client.ListNew` | libcar/mosquitto.c:593-618 | the new message is listed last, waiting or started |
| `MessageLists.Client.ListAndStart` | libcar/mosquitto.c:610-618 | started and sent exactly when there is room |
| `MessageLists.Client.EnqueueMessage` | libcar/mosquitto.c:576-622 | the new state is that of the engine's listing: started and sent exactly when there is room |
| `MessageLists.Client.AppendStale` | libcar/messages_mosq.c:125-139 | with an empty outgoing list and a tail pointer into the incoming one: the message is linked behind that node there, what stood behind the node is cut off, the outgoing list stays empty, and its counter counts the message |
| `MessageLists.Client.EnqueueStale` | libcar/mosquitto.c:559-624 | so a publish then counts, starts and sends as the engine's does, but the message is not in the outgoing list |
| `MessageLists.Client.Publish` | libcar/mosquitto.c:559-624 | the argument errors, exactly; otherwise the new state is that of the engine's publish, and the result says whether the packet could be sent |
| `MessageLists.Client.StartMessage` | libcar/messages_mosq.c:253-265 | one promotion: counted, the state its QoS waits in, sent with its DUP flag |
| `MessageLists.Client.PromoteWaiting` | libcar/messages_mosq.c:249-273 | the promotion loop does what the engine's promotion does, and returns its result |
| `MessageLists.Client.UnlinkOut` | libcar/messages_mosq.c:222-247 | unlinked and no longer counted |
| `MessageLists.Client.HandlePubackComp` | libcar/read_handle_shared.c:60-92 | the new state is that of the engine's acknowledgement |
| `MessageLists.Client.PromoteAndReport` | libcar/read_handle_shared.c:79-88 | promotes behind a removal, and calls `on_publish` exactly when every promotion could be sent |
| `MessageLists.Client.OutUpdate` | libcar/messages_mosq.c:371-389 | the first message with the id gets state and time, or nothing changes |
| `MessageLists.Client.HandlePubrec` | libcar/read_handle_shared.c:94-116 | the new state is that of the engine's PUBREC; an unknown id is an error and no PUBREL is sent |
| `MessageLists.Client.ResetMessage` | libcar/messages_mosq.c:191-209 | one turn of the reset loop, tested against the messages counted so far |
| `MessageLists.Client.ResetWalk` | libcar/messages_mosq.c:187-211 | the pointer loop resets every message by the number counted up to it; it returns the last message, and with an empty list the pointer it began with |
| `MessageLists.Client.ResetOutLoop` | libcar/messages_mosq.c:187-211 | the loop resets every message as the engine does, counts them, and keeps the list; the tail pointer is its last message, or what the incoming loop left when it is empty |
| `MessageLists.Client.ReconnectReset` | libcar/messages_mosq.c:154-212 | for any two lists: the incoming one is walked, the outgoing one reset; behind it the tail pointer of the outgoing list is right exactly when that list is not empty or the incoming one is; with incoming messages of QoS 2 only, the new state is that of the engine's reset |
| `MessageLists.Client.RetryMessage` | libcar/messages_mosq.c:324-348 | one turn of the retry loop |
| `MessageLists.Client.RetryPass` | libcar/messages_mosq.c:316-352 | the loop over a list: its new messages, and the packets sent in order |
| `MessageLists.Client.RetryCheck` | libcar/messages_mosq.c:354-363 | the new state is that of the engine's retry: the outgoing list, then the incoming one, each with its own reading of the clock |
| `MessageLists.Client.QueueIn` | libcar/messages_mosq.c:141-150 | listed last |
| `MessageLists.Client.HandlePublish` | libcar/read_handle.c:120-153 | the new state is that of the engine's receive, by QoS |
| `MessageLists.Client.DetachIn` | libcar/messages_mosq.c:278-308 | the first message with the id is removed, or nothing changes |
| `MessageLists.Client.HandlePubrel` | libcar/read_handle_shared.c:118-161 | the new state is that of the engine's PUBREL; the header bits are only tested for protocol 3.1.1 |
| `MessageLists.Client.PassOnMessage` | libcar/read_handle_shared.c:144-155 | the first message with the id leaves the list and is delivered, or nothing happens |
| `MessageLists.Client.Perform` | libcar/read_handle.c:32-62 | for every event but a publish behind a stale tail pointer the new state is one step of the engine; the pointer gets stale exactly by a reset that finds incoming messages only, and stays so until the next |
| `Execution.Execute` | libcar/messages_mosq.c:83-389 | the linked lists, counters and logs are those of the engine's run exactly through the followed runs, with the accounts of what was published (Fate.RunAccounted) and of the QoS 2 messages that arrived (Qos2Receiver.IncomingAlwaysQos2); in every other one they part at the first message published behind a stale tail pointer, which is then not in the outgoing list though counted as listed |
| `Execution.PartedUnaccounted` | libcar/messages_mosq.c:125-139 | there that message is in none of the three places of Fate.RunAccounted |
| `StaleTail.EngineReports` | libcar/read_handle_shared.c:79-88 | a run that is not followed: receive a QoS 2 message, reconnect, publish with QoS 1, get the PUBACK. The engine reports the message and frees the slot |
| `StaleTail.Published` | libcar/messages_mosq.c:125-139 | the lists in this run: the message stands behind the received one in the incoming list, counted and in flight |
| `StaleTail.Lost` | libcar/messages_mosq.c:160-181 | its PUBACK finds nothing; the next reset takes it out of the incoming list, and it is in no list and not reported |
| `StaleTail.NullPointer` | libcar/messages_mosq.c:174-181 | if the received message is released first, that reset follows a null pointer |
| `Window.PromoteCounts` | libcar/messages_mosq.c:249-273 | promotion moves counter and active messages together and respects the limit |
| `Window.ResetActive` | libcar/messages_mosq.c:187-211 | with a limit a reset leaves at most limit - 1 messages active |
| `Window.StepMoves` | libcar/messages_mosq.c:117-277 | for every state and event: the difference between `inflight_messages` and the active messages is changed only by a reset, which makes it the number of waiting ones, and by answers to messages not in flight, which lower it by 1 |
| `Window.WindowSafe` | libcar/messages_mosq.c:117-277 | over every followed run in which the peer answers active messages only: the difference is what the last reset left waiting, so never negative; and with a limit the active messages never exceed it |
| `Window.StalledUntilReset` | libcar/messages_mosq.c:135-139 | when the difference reaches the limit, no message is started until the next reset, so none is sent with DUP clear, whatever is published or acknowledged (ClosedWindow.StallsExactly also has the retries) |
| `Window.ResetLeaves` | libcar/messages_mosq.c:187-211 | a reset of n messages, n not below the limit, leaves a difference of at least n - limit + 1, and exactly that for QoS 1 |
| `Window.LimitBroken` | libcar/messages_mosq.c:239-241 | a run in which an acknowledgement of a message never sent lets the active messages exceed the limit |
| `Limits.LimitExactly` | libcar/messages_mosq.c:117-277 | for every state with a limit: the active messages never exceed it in any run answering active messages exactly when the difference is not negative and they do not exceed it now |
| `Limits.StrayAnswer` | libcar/messages_mosq.c:239-241 | so behind an answer to a message not in flight the limit holds for good exactly when the difference is at least 1 before it and the active messages, with the one a PUBREC makes active, are within the limit |
| `ClosedWindow.StallsExactly` | libcar/messages_mosq.c:117-352 | for every state with a limit and distinct listed ids: no run without a reset publishes a message never transmitted before, be it with DUP clear or as a retry, exactly when the difference is at least the limit and every message a retry publishes has been transmitted |
| `ClosedWindow.ResetStalls` | libcar/messages_mosq.c:187-211 | with QoS 1 only, a reset closes the window in this way exactly when it finds at least 2 * limit - 1 messages and the first limit - 1 of them have been transmitted |
| `ClosedWindow.StallReached` | libcar/messages_mosq.c:187-211 | and this happens: from a new client, publish at least so many messages and reconnect |
| `ClosedForGood.ClosedForGoodExactly` | libcar/messages_mosq.c:117-352 | for every state with a limit and distinct listed ids: no run answering active messages, through any number of resets, publishes a message never transmitted before exactly when no run without a reset does, a message waits behind limit - 1 waiting messages of QoS 2, and the messages of QoS 1 that fewer of these stand in front of have been transmitted |
| `ClosedForGood.Qos1ComesOut` | libcar/messages_mosq.c:187-211 | so with QoS 1 only and a limit above 1 the window is never closed for good |
| `DeadWindow.DeadLasts` | libcar/messages_mosq.c:187-211 | for every limit: when no message is in flight, counter and list have reached the limit and only QoS 2 messages stand in front of its end, this stays so over every followed run answering active messages, through any number of resets; what is listed stays listed, and no PUBLISH of QoS 1 or 2 is sent at all |
| `DeadWindow.DeadReached` | libcar/messages_mosq.c:187-211 | it is reached for every limit: publish at least 2 * limit - 1 messages of QoS 2, reconnect, and have the active ones acknowledged |
| `DeadWindow.DeadForGood` | libcar/messages_mosq.c:187-211 | with a limit of 1, a reset that finds any message leads to it |
| `Fate.AckContents` | libcar/messages_mosq.c:222-277 | an acknowledgement takes out the first message with the id and changes no other content or the order |
| `Fate.StepAccounted` | libcar/messages_mosq.c:83-277 | every step of the engine, and so every event of a followed run, keeps the account of the published messages |
| `Fate.RunAccounted` | libcar/messages_mosq.c:83-277 | over every followed run, whatever peer and network do: every published message of QoS 1 or 2 is in exactly one place, listed (in publish order), acknowledged and reported once with its id, or acknowledged without a report; and `out_queue_len` is the length of the list |
| `Fate.PromoteSucceeds` | libcar/messages_mosq.c:249-273 | promotion succeeds exactly when the next sends do, as many as messages wait from there on, but at most as there are free slots; then so many packets were sent; else it stopped at the first that failed |
| `Fate.AckReports` | libcar/read_handle_shared.c:79-88 | an acknowledgement is reported exactly when it names a listed message and the sends its removal makes room for, counted before, succeed |
| `Fate.RunReports` | libcar/read_handle_shared.c:79-88 | over every followed run, if all sends succeed, every message acknowledged is reported |
| `Published.PublishedAreEvents` | libcar/mosquitto.c:573-609 | the messages these accounts call published are those of the publish events with QoS 1 or 2, in order, each with the id of its draw |
| `Published.EachInOnePlace` | libcar/messages_mosq.c:83-277 | so over every followed run each message published with QoS 1 or 2 is listed (in publish order), acknowledged and reported once with its id, or acknowledged without a report |
| `Published.ZerosSentOnce` | libcar/mosquitto.c:573-578 | over every run the PUBLISH packets of QoS 0 are the messages published with it, in order, each sent once, at once and with DUP clear |
| `Order.PromotesOne` | libcar/messages_mosq.c:249-273 | with room for at most one message an acknowledgement starts the first waiting one and no other |
| `Order.StepOrderly` | libcar/messages_mosq.c:117-277 | every step keeps: active messages form a prefix, none waits while there is room; of a reset it asks the condition of ResetOrderlyExactly |
| `Order.ResetOrderlyExactly` | libcar/messages_mosq.c:187-211 | a reset keeps this exactly when, in front of the end of the window, waiting QoS 2 messages are followed by such messages only, and there are none if the list is shorter than the limit |
| `Order.RunOrderly` | libcar/messages_mosq.c:117-277 | over every followed run answering active messages: it holds after each step exactly when every reset meets that condition |
| `Order.WaitsWhenFull` | libcar/messages_mosq.c:135-139 | in such runs a message waits only while there is a limit and the messages in flight, with those the last reset left waiting, have reached it |
| `OrderLost.ResetLosesOrder` | libcar/messages_mosq.c:198-206 | a run in which a reset does not: a waiting QoS 2 message stays waiting while the QoS 1 message behind it is activated |
| `Order.Qos1Orderly` | libcar/messages_mosq.c:117-277 | with QoS 1 only, every followed run does, through any number of reconnects |
| `Order.StepInOrder` | libcar/mosquitto.c:608-622 | every step keeps the transmission order and the DUP rule |
| `Order.ResetInOrderExactly` | libcar/messages_mosq.c:187-211 | a reset keeps the transmission order exactly when there is no limit or it turns no active message into a waiting one and no waiting one into an active one, stated by position and state |
| `Order.RunInOrder` | libcar/mosquitto.c:608-622 | in followed runs with such resets only: the PUBLISH packets with DUP clear are the published messages in publish order, each once, up to those still waiting; a DUP packet repeats one of them; active messages are a prefix and no slot is idle |
| `Published.EachSentInOrder` | libcar/mosquitto.c:608-622 | so in these runs the PUBLISH packets with DUP clear are the messages of the publish events, in order, each once, up to those still waiting |
| `DupAfterReset.RetryDupsExactly` | libcar/messages_mosq.c:330 | the retry behind a reset sends DUP packets only as repeats exactly when the waiting QoS 1 messages in front of the end of the window have been transmitted |
| `DupAfterReset.FirstPublishWithDup` | libcar/messages_mosq.c:199 | a run in which they have not: the first PUBLISH of a message is a retry with DUP set, although the counter leaves no room to start any |
| `ClearAgain.NotClearAgainExactly` | libcar/messages_mosq.c:187-211 | the opposite: for every message in flight with DUP clear, no run that gives its id to no new message sends it with DUP clear a second time exactly when it stands in front of the end of the window or there is no limit |
| `ClearAgain.SentTwiceClear` | libcar/messages_mosq.c:249-273 | a run in which that happens: limit 2, publish two messages of QoS 1, reconnect, acknowledge the first |
| `Qos2Sender.PubrecReleases` | libcar/read_handle_shared.c:94-116 | a PUBREC for an active message with a unique id releases it and sends a PUBREL |
| `Qos2Sender.ResetReleased` | libcar/messages_mosq.c:187-211 | a reset keeps the release exactly when the message is in front of the end of the window or there is no limit |
| `Qos2Sender.StepSettled` | libcar/messages_mosq.c:83-389 | no other step undoes a release or publishes the message |
| `Qos2Sender.NeverPublishedAgain` | libcar/messages_mosq.c:324-348 | a message in front of the end of the window at its PUBREC: over every followed run that gives its id to no new message, through any number of resets, no PUBLISH with its id is sent, and it stays released and in front until it is removed |
| `Qos2Sender.PublishedAgain` | libcar/messages_mosq.c:198-206 | an input behind it: a run in which a reset takes the release back and the message is published a second time |
| `Qos2Repeat.NotRepeatedExactly` | libcar/messages_mosq.c:187-211 | for every released message: no run that gives its id to no new message publishes it again, whatever the peer answers, exactly when it stands in front of the end of the window |
| `Qos2Repeat.LimitOneNeverAgain` | libcar/messages_mosq.c:187-211 | with a limit of 1 a reset takes every release back, and with a peer that answers active messages only the message is still not published again |
| `Qos2Barred.NeverPublishedExactly` | libcar/messages_mosq.c:117-352 | for every waiting QoS 2 message and every limit, with a peer that answers active messages only: no run that gives its id to no new message publishes it exactly when the difference is at least the limit and a message waits behind limit - 1 waiting messages of QoS 2 |
| `Qos2Barred.RepeatedAfterResetExactly` | libcar/messages_mosq.c:187-211 | for every released message at a reset, and such a peer: no run from there publishes it again exactly when it stands in front of the end of the window, or the waiting QoS 2 messages there and the QoS 2 messages behind it, but for the last of the list, are limit - 1 or more |
| `Qos2Receiver.IncomingAlwaysQos2` | libcar/read_handle.c:143-149 | over every followed run and for each id: the messages delivered, followed by those listed, are the QoS 2 messages of the PUBLISH packets that arrived, first in first out (so none is lost, and each copy is delivered at most once); the list holds QoS 2 messages waiting for PUBREL only, so the reset takes none out; StaleTail.Lost reaches its deletion branch in another run |
| `Qos2Receiver.DeliveredOnPubrel` | libcar/read_handle_shared.c:144-155 | only a PUBREL with its id delivers a QoS 2 message, and only one |
| `Qos2Receiver.RepeatedPublishDeliveredTwice` | libcar/read_handle.c:143-149 | there is no duplicate check: a PUBLISH repeated before its PUBREL is delivered twice |
| `Answers.EachAnsweredOnce` | libcar/read_handle_shared.c:118-161 | over every followed run the PUBACKs and PUBCOMPs sent are one for each PUBLISH of QoS 1 and each well-formed PUBREL, in the order these arrived |
| `Answers.AnswersAtOnce` | libcar/read_handle_shared.c:94-161 | in every state a step sends, but for PUBLISH packets and retry passes, its answer and nothing else: a PUBACK to QoS 1, a PUBREC to QoS 2, a PUBREL to a PUBREC with the id of a listed message, a PUBCOMP to a PUBREL |
| `Answers.ArrivedDelivered` | libcar/read_handle.c:120-142 | over every followed run the messages of QoS 0 and 1 are delivered once for each arrival, in order |
| `Retries.OnePacketEach` | libcar/messages_mosq.c:324-348 | one pass sends exactly one packet for each message in flight stamped more than message_retry seconds ago, in list order, of the type fixed by its state, stamps it and sets its DUP flag, and leaves the others untouched |
| `Retries.SecondPassIsIdle` | libcar/messages_mosq.c:324-348 | a second pass at the same time changes and sends nothing |
| `Retries.ResetRetriesAll` | libcar/messages_mosq.c:154-212 | after a reset, a pass at a time beyond `message_retry` repeats every active message of both lists once |
| `RetryTimes.PassWaits` | libcar/messages_mosq.c:324-348 | by the times of the events alone: over every followed run a pass behind it repeats exactly the messages in flight for which more than message_retry seconds have passed since their publish, their PUBREC, their arrival or the pass that repeated them last (a reset counts as time 0), in list order: with a DUP PUBLISH, a PUBREL behind their PUBREC, or a PUBREC for an incoming one |
| `RetryTimes.RepeatedExactly` | libcar/messages_mosq.c:324-348 | with distinct ids listed: a pass sends for a listed message exactly when it is in flight and more than message_retry seconds have passed since then |
| `Ids.KthId` | libcar/util_mosq.c:148-167 | the k-th id is ((k - 1) mod 65535) + 1 |
| `Ids.SameId` | libcar/util_mosq.c:148-167 | two draws give the same id exactly when a multiple of 65535 lies between them |
| `Ids.ConsecutiveDistinct` | libcar/util_mosq.c:148-167 | any 65535 ids drawn in a row are distinct |
| `Ids.ListedDistinct` | libcar/mosquitto.c:573-609 | over every followed run, two listed messages share an id exactly when a multiple of 65535 ids was drawn from one to the other; the listed ids are distinct while at most 65535 ids were drawn, counting the oldest listed one |
| `Timers.KeptAlive` | libcar/mosquitto.c:1074-1110 | after each call with a keepalive time, either the connection is closed or the ages of the last messages and of the ping waited for are below it |
| `Timers.ClosesExactly` | libcar/mosquitto.c:1074-1110 | on the fields: exactly which calls close the connection |
| `Timers.PingsExactly` | libcar/util_mosq.c:83-118 | on the fields: exactly which calls queue a ping |
| `Timers.AgesExactly` | libcar/util_mosq.c:112-118 | on the fields: what a call makes of the times of the last messages |
| `Timers.BusyKept` | libcar/util_mosq.c:111-118 | over every run: a link on which, before every call, a packet was written and one read less than the keepalive time ago stays open, and no ping is sent |
| `Timers.PromptKept` | libcar/mosquitto.c:1088-1091 | over every run: a connected link stays open, however many pings are sent, as long as each is answered before the first call that ends the keepalive time after it, and no call lasts that long |
| `Timers.ReconnectedAfresh` | libcar/mosquitto.c:474-503 | a reconnect starts afresh: until the keepalive time has passed no call closes the connection or sends a ping |
| `Timers.DisconnectsReported` | libcar/util_mosq.c:109-144 | how often `on_disconnect` is called in one call, and with what: twice exactly when an idle connection is closed while its ping is late as well |
| `Timers.PingsCounted` | libcar/util_mosq.c:112-118 | over every run the pings outstanding are the one `ping_t` stands for and those whose send failed behind the queueing; so when there is at most one |
| `Timers.TwoPings` | libcar/util_mosq.c:112-118 | two are outstanding when a PINGREQ gets stuck in the queue and the next check sends another |
| `Timers.SilentPeerDropped` | libcar/util_mosq.c:83-146 | a silent peer is disconnected within twice the sum of the keepalive time and the time between calls, if pings can be queued |
| `Timers.PingCloses` | libcar/mosquitto.c:1088-1091 | with the peer silent, a ping that is queued is followed by a close at the first call the keepalive time later |
| `Timers.ClosedWithin` | libcar/mosquitto.c:1088-1091 | so the connection is closed within the keepalive time and the time between calls of the first ping queued, whatever became of earlier and later ones |
| `Timers.StaysOpenExactly` | libcar/util_mosq.c:112-118 | over endless schedules: a connected link to a silent peer stays open for good exactly when no ping the check sends is queued |
| `Timers.StepSpaced` | libcar/mosquitto.c:1083-1087 | a call on an open connection makes a retry check exactly when the last one is two clock seconds back |
| `Timers.RetriesSpaced` | libcar/mosquitto.c:1083-1087 | over every run, whatever the clock does, two retry checks are at least two clock seconds apart |
| `Timers.Session.LoopMisc` | libcar/mosquitto.c:1074-1110 | the new fields, the result code, and the bound of KeptAlive |
| `Timers.BackoffDelay` | libcar/mosquitto.c:1042-1052 | with backoff and a limit below 2^30, the delay of turn k is the smaller of base * k * k and the limit |
| `Timers.BackoffWraps` | libcar/mosquitto.c:1042-1052 | with a limit of 2^30 or more and a base of 2^30 the product wraps: the third delay is 0 |
| `Timers.BackoffExact` | libcar/mosquitto.c:1042-1052 | 2^30 is the exact bound: the delays are as meant for every base exactly when the limit is below it |
| `Timers.ConstantDelay` | libcar/mosquitto.c:1044-1052 | without backoff every delay is the smaller of base and limit |
| `Timers.DelaysRise` | libcar/mosquitto.c:1033-1069 | no delay of an outage exceeds the limit, whatever the limit; with a limit below 2^30, or without backoff, the delays never fall; with backoff and a positive base they reach such a limit and stay |
| `Timers.HeaderExamples` | libcar/mosquitto.h:1248-1254 | the documented examples, as the code computes them: 2, 2, 2, ... and 0, 3, 12, 27, 30 |
| `Timers.Outage` | libcar/mosquitto.c:1033-1069 | begun with any count, the loop sleeps exactly the delays from that count on until an attempt succeeds, and leaves the count of that turn |
| `Timers.CountIsTurns` | libcar/mosquitto.c:1000-1069 | through any sequence of outages and successful calls the next outage has the delays of a single one since the last successful call |
| `Timers.Session.Execute` | libcar/mosquitto.c:1074-1110 | through any sequence of events the fields are those of the run the results above are about |

## Left out

- Topics.TopicMatchesSub: nothing is stated for filters and topics the checks refuse.
- Topics.Tokenise: null arguments and allocation failures are not modelled.
- PacketBuffer.BuildPublish: requires the bounds mosquitto_publish has checked (topic of 1 to 65535 bytes, payload up to 268435455), since the sum is an `int` in the source.
- PacketBuffer.BuildConnect: requires the sum of the lengths to be below 2^31, where the source's arithmetic would overflow; a CONNECT with a string over 65535 bytes is shown to leave its buffer unfilled, and its bytes are not described further. Protocol values other than 3.1 and 3.1.1, which the source refuses, are not modelled.
- PacketReader.Reader.Refines: covers streams without a zero command byte; on the others the reader follows the step function of ReadSteps, and no one-shot parse describes it (ReadSteps.DeterminedExactly).
- PacketReader.Reader.PacketHandle: the results of the handlers other than the PUBLISH parser are a script; the handlers themselves are modelled on the engine (MessageLists.Client), and the two are not one object. The times of the last messages are in Timers only.
- PacketReader.Reader.HandleError: its call of `on_disconnect` is not logged there; Timers has the calls of the keepalive check.
- PacketWriter.Sender.Reconnect: the SOCKS branch is not modelled; the tail pointer may be stale after the drain, as in the source.
- EndToEnd.Delivered: both ends are this library's code, connected by a byte stream that loses nothing; a broker between them is not part of this model. A PUBLISH of QoS 0 is taken to carry packet id 0, since the reader leaves it so.
- Execution.Execute: a run that is not followed is described up to the first message published behind a stale tail pointer, that event included; what comes behind it is shown for the run of StaleTail only. All results about whole runs of the engine are about the lists only as far as the runs are followed.
- MessageLists.Client.ReconnectReset: behind a null pointer followed, nothing is stated but which messages are left.
- MessageLists.MessageList: the two pointer pairs and counters of the client structure are two objects of one class; messages are not freed, so a stale tail pointer always points to a message here, where the source may have freed it; and PUBREL and PUBACK handlers take the packet id as a parameter (reading it is PacketBuffer.Packet.ReadUint16).
- MessageLists.Client.SendPacket: no packet is built or queued there, a script decides whether the send succeeds. Connection.Endpoint has the sends go through the queue, on the engine as a value; Connection.Endpoint.Lists shows that the lists are in the same state, in a followed run.
- Window.WindowSafe: assumes acknowledgements name active messages only; Limits.LimitExactly and Limits.StrayAnswer say what happens otherwise. The limit does not change during a run.
- ClosedWindow.StallsExactly: the listed ids are taken to be distinct; Ids.ListedDistinct says when they are. A message counts as transmitted when a PUBLISH with its id, topic, payload, QoS and retain flag was sent. The same holds of ClosedForGood.ClosedForGoodExactly.
- Connection.Endpoint.Perform: the packets that make no use of the engine are PINGREQ and DISCONNECT only; SUBSCRIBE and UNSUBSCRIBE are not queued there. What arrives is an event, not read from a socket.
- OtherEnd.AllReceived: the reader goes by the numbers of the standard; that the client's own packet handler has no case for CONNECT and DISCONNECT (OtherEnd.KnownExactly) is left aside there.
- Timers.PromptKept: the connection state does not change and no reconnect happens meanwhile, and the clock does not go back.
- Fate.RunAccounted: an acknowledged message whose follow-on promotion failed to send is not reported by the source; it is kept apart, not counted as a loss.
- Qos2Sender.NeverPublishedAgain: assumes that no new message gets the id; Ids.ListedDistinct says when ids come round. The same holds of Qos2Repeat, Qos2Barred and ClearAgain.
- Qos2Barred.RepeatedAfterResetExactly: says of the state a reset finds what follows from there; which answers before a reset lead to such a state is not stated. It, and Qos2Barred.NeverPublishedExactly, take fewer than 65535 messages to be listed.
- Timers.PingsCounted: clock readings are positive, since the source takes a time of 0 for no ping.
- Timers.Outage: the outcomes of the attempts are an input, and errors that end mosquitto_loop_forever are not modelled.
- Memory exhaustion: allocation succeeds.
- Threads and mutexes: steps are atomic; Sender.threaded only decides who writes.
- Sockets, select, name lookup, TLS, SRV records, logging, the SOCKS5 client: foreign code or not compiled in.
- SUBSCRIBE, UNSUBSCRIBE, CONNACK, UNSUBACK and PINGREQ handling: no property beyond those of the parts they are made of.
- The broker, bridge and WebSocket branches, the Java and C++ bindings and the command-line programs.
