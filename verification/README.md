# Firmir D-Bus client: a verified model

This project models the D-Bus client of Firmir in Dafny 4.11 and proves what its
code promises: the wire codec of the library and the independent codec of the
example client, the resumable message reader, the connection with its handshake,
serials and replies, and the event bookkeeping between objects.
`dafny verify dfyconfig.toml` checks the whole project.

## How it is laid out

Each part has a specification on values and, where the source changes state, classes
whose methods are proved equal to it; the theorems are about the specification.

| file | what it holds |
|---|---|
| Basics, ByteOrder, Values | bytes, words, byte swapping, padding, single typed values |
| Fields, Messages | header fields and whole messages of both codecs |
| Refusals, StrangeFields | what the parsers refuse, told from the bytes, and the unknown fields they pass over |
| Literals | words, fields and whole messages as plain numbers |
| LibraryCodec, ExampleCodec | readers, writers and message objects of both, in place |
| Interop | each codec against the other, streams of messages |
| Sockets, Framing | the socket, `readFd` and the frames of an undivided stream |
| Blocking, BlockingClient, Delivery | the blocking reader as specification, end to end |
| ConnectionModel | every method of the connection as a function on its whole state |
| ConnectionProofs, ConnectionRuns, ConnectionTheorems | invariants of all lives, and what they mean |
| Settling | the whole connection does not depend on how its input is cut |
| Welcome | what the bus has to send, and which writes have to succeed, for the connection to come up |
| Handlers | when user handlers run, and what they send |
| Wrapping | lives in which the serial counter comes round |
| ClientConnection | connection and reply objects, in place |
| EventWorld | runs of a program with events: create, connect, emit at any depth, destroy |
| EventObjects | sources, handlers and callbacks, in place, and the programs that use them |

## How to read it

- A byte string is a sequence of numbers below 256; machine words are bounded
  numbers, and every 8- and 32-bit truncation of the source is written out. The host
  is little-endian. An endianness byte is kept as it is; only `'B'` makes a codec swap.
- `Miss` is a refused read (an empty optional, or an exception). `Overrun` and
  `Crashed` stand for the source reading past its buffer, which one wrapping sum
  allows; a connection that gets there is `halted`, and so is one whose search for a
  free serial has no end.
- A socket is a script: chunks of bytes, would-blocks, a break. A write succeeds or
  fails as a whole. User handlers are a plan: for every event the list of messages
  they send. All theorems hold for every script, every write outcome and every plan.
- `Steady` is what holds between any two steps of a connection. `LifeKeeps` proves it
  for every life, `Live` for the object; the lemmas of `ConnectionTheorems` take it as
  their premise and say what it means.
- A run over event objects is a sequence of steps. What a callback does stands between
  the step that calls it and the next step of its emission, so emissions nest as deep
  as the callbacks make them. `Program` runs on real objects, and its runs are proved
  to be runs of that machine.
- Where the source and its comments differ from what one would expect (no big-endian
  reading in the library, the 32-bit header sum, a header field that reaches into the
  body or past the frame, serial 0 and a used serial after the wrap, a reply that dies
  before its connection), the model follows the code, gives an input on which it shows,
  and proves the exact condition.

## Model

| member | source | states |
|---|---|---|
| ByteOrder.BswapInvolution | dbus/message.cpp:19-33 | swapping a 2-, 4- or 8-byte word twice gives the word back |
| ByteOrder.WireRoundTrip | dbus/message.cpp:225-253 | a reader takes off the wire the word a writer put, in either byte order |
| ByteOrder.BigIsReversedLittle | dbus/message.cpp:375-406 | big-endian output is the little-endian output backwards, most significant byte first |
| Literals.WordDigits | dbus/message.cpp:375-406 | a word's bytes after 'l' (108) are its digits in base 256, least significant first, and after 'B' (66) the same backwards |
| ByteOrder.PadShift | dbus/message.cpp:458-463 | offsets that differ by whole 8-byte blocks are padded alike, which is why separately built buffers can be glued |
| Values.StringRoundTrip | dbus/message.cpp:333-346 | a written string reads back exactly when its length fits 32 bits |
| Values.SignatureRoundTrip | dbus/message.cpp:443-449 | a written signature reads back exactly when its length fits 8 bits |
| Values.StringInBounds | dbus/message.cpp:335-345 | a string read leaves the cursor inside the buffer exactly when the length word is not 2^32-1 or the buffer really is that long |
| Values.StringOverrunExample | dbus/message.cpp:336 | four bytes on which the wrapping sum lets the read through |
| Values.ValuesRoundTrip | dbus/message.cpp:205-449 | any list of typed values reads back from any multiple of 8, in either byte order, whatever surrounds it |
| Literals.WordBytes | dbus/message.cpp:363-406 | every word begins at the next multiple of its width, after zeros |
| Literals.IntBytes | dbus/message.cpp:408-433 | signed words are two's complement, booleans a 32-bit one or zero |
| Literals.LengthFirst | dbus/message.cpp:435-449 | texts are a 32-bit length word, signatures a length byte, then the bytes and a NUL |
| Literals.BoolMeans | dbus/message.cpp:324-331 | every word but 0 reads as true |
| Refusals.CursorLeft | dbus/message.cpp:263-361 | where a refused read of a word, text or signature leaves the cursor |
| Fields.GetFields | dbus/message.cpp:103-161 | the header loop terminates and never leaves the buffer, on any bytes and any path |
| Fields.LoopStaysInside | dbus/message.cpp:97-163 | it reads past the buffer only if that holds a word 2^32-1, and each field consumes at least a byte |
| Fields.FieldOverruns | dbus/message.cpp:108-160 | reading a field runs past the buffer if and only if it is a text whose length word is 2^32-1 and the buffer does not hold it |
| Fields.LoopOverruns | dbus/message.cpp:97-163 | the loop runs past the buffer if and only if the last field it begins to read is such a text |
| Refusals.FieldRefused | dbus/message.cpp:108-160 | on arbitrary bytes: a field is refused if and only if its code, signature or value is not all there or a NUL is another byte |
| Refusals.UnknownField | dbus/message.cpp:122-160 | a field of another signature than s, o, g, u is never refused, and leaves the cursor right behind its signature |
| Refusals.LoopRefuses | dbus/message.cpp:103-161 | the header array is refused if and only if the last field the loop begins to read is |
| Refusals.LibraryRefuses | dbus/message.cpp:59-163 | what the library refuses of a complete frame: another version or such an array |
| Refusals.ExampleRefuses | examples/dbus/dbus-message.h:316-352 | what the example refuses: another byte order or version, such an array, a body that is not there |
| Literals.FieldsSay | dbus/message.cpp:122-160 | of each of the nine codes the last field of its type counts, and everything else counts for nothing |
| Fields.FieldsRoundTrip | dbus/message.cpp:165-203 | either loop reads back exactly the fields written and stops at the end of the array |
| Fields.StoreRestores | examples/dbus/dbus-message.h:388-416 | the stored fields rebuild the header record in either writing order, for every subset of the nine fields |
| Fields.PutFieldsShift | dbus/message.cpp:451-463 | a header array written at offset 0 is the one written at any multiple of 8 |
| Fields.ArraySize | examples/dbus/dbus-message.h:418-441 | padded to 8, an array's length is the sum of its padded fields, whatever their order and byte order |
| Fields.ArrayBoundsTexts | examples/dbus/dbus-message.h:245-249 | in an array below 2^32 bytes no string length is cut |
| Messages.ExampleReads | examples/dbus/dbus-message.h:316-385 | the example parser recovers a message from either codec's bytes, whatever follows, exactly when the body length fits |
| Messages.FixedRoundTrip | dbus/message.cpp:59-95 | the fixed header survives exactly for version 1 and a byte order the library really reads |
| Messages.LibraryRoundTrip | dbus/message.cpp:451-512 | serialised then read: all fields, the exact length and the cursor on the body are restored if and only if version, byte order and lengths allow it; no premise |
| Messages.BigEndianIsLost | dbus/message.cpp:70 | a big-endian message the library cannot read back |
| Literals.NineByLibrary | dbus/message.cpp:165-203 | a record with all nine fields, byte by byte, in the library's order |
| Literals.NineByExample | examples/dbus/dbus-message.h:368-378 | the same in the example's order |
| Literals.AnswerIsRead | dbus/message.cpp:467-512 | a reply (or error) with its serial and a name, byte by byte: written as these bytes, and read from them by both parsers |
| Literals.HelloBytes | dbus/connection.cpp:213-217 | Hello as it goes out under serial 1, all 128 bytes |
| StrangeFields.StrangeFieldsPassed | dbus/message.cpp:103-161 | unknown fields among the known ones, in either order, with values that end before the next multiple of 8: both parsers read the same message |
| StrangeFields.StrangeFrame | dbus/message.cpp:467-512 | the resumable reader too, and what follows stays in the stream |
| Literals.StrangeIsRead | dbus/message.cpp:122-160 | a 24-byte frame with one such field |
| Interop.SameLength | dbus/message.cpp:180-202 | both codecs lay out every message in the same number of bytes; the library always produces them, the example unless the signature has more than 255 bytes |
| Interop.EachReadsTheOther | examples/dbus/dbus-message.h:334-351 | a little-endian message from either codec is the same record to both parsers, which agree on its length |
| Interop.SameFieldOrder | examples/dbus/dbus-message.h:368-378 | for which headers the two field orders coincide |
| Interop.SameBytes | dbus/message.cpp:180-202 | the two codecs write the same bytes exactly for those headers |
| Interop.UniqueSplit | examples/dbus/dbus-message.h:334-350 | a stream splits into serialised messages in one way only, even from mixed codecs and byte orders |
| LibraryCodec.Reader.Align | dbus/message.cpp:210-223 | the cursor moves to the boundary, or stays where it is when that lies outside |
| LibraryCodec.Reader.ReadByte | dbus/message.cpp:255-261 | value and new cursor, or a refusal that keeps the cursor |
| LibraryCodec.Reader.ReadWord | dbus/message.cpp:263-285 | value and new cursor, or the cursor after a failed bounds check |
| LibraryCodec.Reader.ReadInt | dbus/message.cpp:287-312 | the typed read of signed words |
| LibraryCodec.Reader.ReadBool | dbus/message.cpp:324-331 | the typed read of booleans |
| LibraryCodec.Reader.ReadString | dbus/message.cpp:333-346 | the string read of the specification, with its cursor on every path |
| LibraryCodec.Reader.ReadSignature | dbus/message.cpp:348-361 | the signature read; it never overruns |
| LibraryCodec.Reader.ReadField | dbus/message.cpp:108-160 | one field after alignment |
| LibraryCodec.Writer.Align | dbus/message.cpp:363-368 | zeros up to the boundary |
| LibraryCodec.Writer.WriteWord | dbus/message.cpp:375-406 | padding and the word in the writer's byte order |
| LibraryCodec.Writer.WriteInt | dbus/message.cpp:408-421 | the typed write of signed words |
| LibraryCodec.Writer.WriteBool | dbus/message.cpp:430-433 | the typed write of booleans |
| LibraryCodec.Writer.WriteString | dbus/message.cpp:435-441 | length word, bytes and NUL after what was there |
| LibraryCodec.Writer.WriteSignature | dbus/message.cpp:443-449 | length byte, bytes and NUL after what was there |
| LibraryCodec.MessageObject.SerializeDynamic | dbus/message.cpp:165-203 | the present fields, in the library's order |
| LibraryCodec.MessageObject.SerializeFixed | dbus/message.cpp:85-95 | the 16-byte header |
| LibraryCodec.MessageObject.Serialize | dbus/message.cpp:451-465 | two buffers, padding and body, and both length fields updated |
| LibraryCodec.MessageObject.ReadFixed | dbus/message.cpp:59-83 | the fixed header of a buffer, with the cursor after it |
| LibraryCodec.MessageObject.ReadDynamic | dbus/message.cpp:97-163 | the loop over the header array: fields stored, validity and cursor on every path |
| LibraryCodec.MessageObject.EnsureHasData | dbus/message.cpp:469-479 | only what is missing is read; a faulty read loses what it got |
| LibraryCodec.MessageObject.ReadFd | dbus/message.cpp:467-512 | one call: result, message object and remaining input as specified |
| ExampleCodec.BackPatch | examples/dbus/dbus-message.h:262-273 | the patched array is the one written with its length known, exactly when the length word is 4-aligned or nothing is patched |
| ExampleCodec.MisalignedPatch | examples/dbus/dbus-message.h:262-273 | a misaligned array that comes out wrong |
| ExampleCodec.Reader.Align | examples/dbus/dbus-message.h:81-86 | the boundary, or an exception |
| ExampleCodec.Reader.ReadU32 | examples/dbus/dbus-message.h:90 | the word read, or an exception |
| ExampleCodec.Reader.ReadString | examples/dbus/dbus-message.h:112-121 | the string read, or an exception |
| ExampleCodec.Reader.ReadSignature | examples/dbus/dbus-message.h:124-133 | the signature read, or an exception |
| ExampleCodec.Reader.ReadFields | examples/dbus/dbus-message.h:336-343 | the header loop with strict alignment |
| ExampleCodec.Writer.Align | examples/dbus/dbus-message.h:212-214 | the byte-by-byte loop adds exactly the padding |
| ExampleCodec.Writer.WriteSignature | examples/dbus/dbus-message.h:251-256 | refuses exactly the signatures longer than 255 |
| ExampleCodec.Writer.WriteHeader | examples/dbus/dbus-message.h:368-378 | the present fields, in the example's order; throws exactly on a long signature |
| ExampleCodec.Writer.WriteArray | examples/dbus/dbus-message.h:262-273 | placeholder, fields, patched length |
| ExampleCodec.Serialize | examples/dbus/dbus-message.h:356-385 | the bytes of the specification, or an exception exactly on a long signature |
| ExampleCodec.Parse | examples/dbus/dbus-message.h:316-352 | the record, or which refusal |
| Sockets.FillTakes | dbus/message.cpp:35-55 | what an exact read takes is the front of the pending bytes; it is short only when the socket made it so |
| Sockets.FillIsBurst | dbus/message.cpp:35-55 | an exact read goes on until it has enough or nothing more is there, takes all that is there up to that, and fails if and only if a fault comes first |
| Sockets.Socket.ReadExact | dbus/message.cpp:35-55 | the loop keeps what came before a would-block and loses it on a fault |
| Framing.ReadFdTells | dbus/message.cpp:467-512 | one call from any stopping point: each of the four results tells what the undivided stream starts with, and no byte is lost or duplicated |
| Framing.FailureLeaves | dbus/message.cpp:482-512 | a failed call empties the buffer and leaves the fixed header that had come and the fields stored before the refused one |
| Framing.DriveFollowsStream | dbus/connection.cpp:155-163 | for every script and number of calls the delivered messages are the front of the stream's frames; the buffer is an unfinished frame and holds no byte of the next |
| Framing.ChunkIndependence | dbus/message.cpp:467-512 | enough calls deliver exactly the frames of the stream however it is cut and whether or not the connection breaks behind it; what stops them is fixed by the bytes and the break |
| Framing.LostExactly | dbus/message.cpp:467-512 | for which streams the library runs past its buffer: a whole frame whose last field read is overlong |
| Blocking.LostExample | dbus/message.cpp:336 | a 24-byte frame on which both readers do |
| Blocking.SameFrameLength | dbus/message.cpp:497-499 | both readers take the same number of bytes exactly when the 32-bit header sum does not wrap |
| Blocking.WrappedHeaderExample | dbus/message.cpp:497 | a header on which they differ |
| Blocking.LoopsAgree | examples/dbus/dbus-message.h:336-343 | where alignment fits, strict and lenient header loop do the same |
| Blocking.SameVerdict | examples/dbus/dbus-message.h:336-351 | on a complete little-endian frame whose header sum does not wrap the two parsers agree, unless the last field reaches past its array: then the library accepts and the example refuses |
| Blocking.FramingRefinesBlocking | examples/dbus/main.cpp:99-183 | on a stream that starts with a little-endian header both wait, both refuse, or both read the same message and leave the same rest, if and only if: the version is 1, the header sum does not wrap and no complete frame's last field overruns its array; or the version is another and the whole frame is there; or the sum wraps and not even the library's shorter frame is there. On an overrun the library accepts what the blocking reader refuses |
| Blocking.OverrunExample | dbus/message.cpp:502-511 | 32 bytes the library reads as a message, with its cursor past the body, and the blocking reader refuses |
| Blocking.VersionExample | dbus/message.cpp:491-495 | 16 bytes of another version: refused by the library, waited on by the blocking reader |
| BlockingClient.ReadExact | examples/dbus/main.cpp:75-93 | exactly the next bytes, or waits, or throws, each exactly when it must |
| BlockingClient.ReadMessage | examples/dbus/main.cpp:99-183 | the four reads and the parse amount to the one-shot reader; where that would wait, a connection that ends or fails makes it throw |
| Delivery.ResumableRefinesBlocking | dbus/message.cpp:467-512 | for every stream, cutting and break: as long as headers are little-endian, of version 1 and without wrap, the resumable reader delivers what the blocking one returns; where that then waits, throws or runs past its buffer and the two read alike, the resumable one delivers no more and holds the rest, fails or runs past its buffer; after an overrunning field it delivers more |
| Delivery.EndToEnd | dbus/connection.cpp:155-163 | whatever little-endian messages either codec sends, exactly these arrive, in order, and the reader is as new, or fails if the connection then breaks |
| Delivery.BlockingReadsBack | examples/dbus/main.cpp:99-183 | the blocking reader returns every message either codec sends, in either byte order, and leaves what follows |
| ConnectionModel.FirstFree | dbus/connection.cpp:296-297 | the search ends at the first serial not taken, cyclically |
| ConnectionModel.RunIsCounted | dbus/connection.cpp:296-297 | pigeonhole: fewer than 2^32 entries cannot block the search |
| ConnectionProofs.SendKeeps | dbus/connection.cpp:288-314 | sending keeps all invariants and touches nothing that was there |
| ConnectionProofs.ReactKeeps | dbus/connection.cpp:135-143 | so do handlers that send any number of messages |
| ConnectionProofs.HandleNameKeeps | dbus/connection.cpp:225-257 | the reply to Hello leads to Connected only with a name, otherwise to Error |
| ConnectionRuns.CompletionKeeps | dbus/connection.cpp:276-279 | the completed reply was empty, its entry survives its handlers, and every other entry too |
| ConnectionRuns.HandleKeeps | dbus/connection.cpp:259-286 | an incoming message completes the one outstanding request it answers and takes its entry from the table, or, when it answers none, changes nothing; every other entry stays |
| ConnectionRuns.ReadMessagesKeeps | dbus/connection.cpp:145-170 | reading keeps the invariants; the frames handed on are those of the undivided stream |
| ConnectionRuns.DoAuthKeeps | dbus/connection.cpp:172-208 | so does the byte-wise handshake |
| ConnectionRuns.DoGetNameKeeps | dbus/connection.cpp:210-238 | so does sending Hello after handlers have run |
| ConnectionRuns.StartKeeps | dbus/connection.cpp:58-109 | so does construction, whichever write fails |
| ConnectionRuns.LifeKeeps | dbus/connection.cpp:145-314 | every connection is steady after any life |
| ConnectionTheorems.ReplyCorrelation | dbus/connection.cpp:259-314 | each request is either waiting or answered by a frame with its serial; the table is injective, its replies are empty, none finishes twice |
| ConnectionTheorems.SerialsCovered | dbus/connection.cpp:259-314 | in every life, wrapped or not, the serials sent are those outstanding and those answered |
| ConnectionTheorems.SerialsPartition | dbus/connection.cpp:288-314 | before the wrap none is both |
| ConnectionTheorems.SendKeepsPartition | dbus/connection.cpp:296-299 | a send leaves that so if and only if it was so and the first free serial has not been answered before |
| Wrapping.ReuseLife | dbus/connection.cpp:296-312 | lives in which it is lost: Hello answered, then 2^32 sends, the last of which gets serial 1 again |
| Wrapping.ReuseExample | dbus/connection.cpp:296-312 | such a life for a given input |
| ConnectionTheorems.StrayReplyIgnored | dbus/connection.cpp:273-274 | the next frame changes nothing if and only if it answers no entry of the table; while no answered serial is in use again a second answer to a finished request is such a frame |
| ConnectionTheorems.EraseIsExact | dbus/connection.cpp:276-279 | the erase after re-entrant handlers removes the answered entry only, and that entry's reply had no result; nothing is erased if a handler never returns |
| Handlers.FinishedRuns | dbus/pending-reply.cpp:17-26 | a frame that completes a reply other than Hello's: the reply holds it, its handlers have one turn, and what they send is tried in their order and logged as far as it can be written |
| Handlers.HelloRuns | dbus/connection.cpp:225-257 | the frame that answers Hello gives one turn to the handlers of the state entered, Connected or Error |
| Handlers.HelloComesAfter | dbus/connection.cpp:210-223 | what handlers send at GettingName goes out before Hello |
| Handlers.TurnsOfLife | dbus/connection.cpp:135-143 | over every life handlers have had exactly one turn for each state entered and each reply finished other than Hello's |
| ConnectionTheorems.SendTakesFirstFree | dbus/connection.cpp:296-312 | every send takes the first free serial and overwrites no entry; before the wrap it is the attempt's number |
| ConnectionTheorems.ZeroSerial | dbus/connection.cpp:296-299 | on every connection that may send, a message gets serial 0 if and only if 0 is free and the counter stands at 0 or finds all serials from where it stands up to 2^32-1 taken |
| ConnectionTheorems.WrapGivesZero | dbus/connection.cpp:299 | the first time: the send after 2^32-1 attempts gets serial 0 |
| Wrapping.ZeroLife | dbus/connection.cpp:288-314 | lives in which that happens: an accepted line and 2^32-1 sends; after one more, with nothing answered, the search has no end |
| Wrapping.ZeroExample | dbus/connection.cpp:288-314 | such a life for a given input |
| ConnectionTheorems.SearchEndsUnlessFull | dbus/connection.cpp:296-297 | the search has an end exactly when some serial is free |
| ConnectionTheorems.OutputShape | dbus/connection.cpp:95-108 | output is NUL, the authentication line, BEGIN, then whole messages with increasing serials |
| ConnectionTheorems.WrittenCarries | dbus/connection.cpp:296-312 | in every life, what is written for a request is its own fixed header with the serial under which the reply is awaited, in bytes 8 to 11 |
| ConnectionTheorems.WrittenReads | dbus/connection.cpp:296-312 | and, if it is not big-endian and fits, a frame that reads as that message under that serial, and no more |
| ConnectionTheorems.ConnectedMeans | dbus/connection.cpp:193-256 | Connected implies OK, BEGIN written, and a non-error reply to this connection's Hello naming it |
| ConnectionTheorems.StateOnlyMovesForward | dbus/connection.cpp:135-153 | the state never goes back and Error is for good |
| ConnectionTheorems.AuthHandover | dbus/connection.cpp:172-208 | in every state, whether the line is accepted, refused, broken off or still being read: what is kept is the line without newline and carriage returns, the line is the input up to the first newline or as much of it as was read, and the frames start at the next byte |
| ConnectionTheorems.InputConserved | dbus/connection.cpp:145-170 | no input byte is lost or read twice |
| Settling.SettlesByBytes | dbus/connection.cpp:145-286 | connections that differ only in how their input is cut end up the same, on sockets that break behind it and on sockets that do not |
| ConnectionTheorems.EveryLife | dbus/connection.cpp:42-314 | all of this in one place, for every life and however it goes on: output shape, correlation, the serials sent and their partition, the handover, conservation of input, what Connected means, and a state that only moves forward |
| Settling.LivesSettleAlike | dbus/connection.cpp:58-286 | two new connections fed with the same bytes, in whatever pieces and with or without a break behind them, end up the same |
| Welcome.ComesUp | dbus/connection.cpp:58-286 | whatever handlers send (fewer than 2^32-1 messages are planned), whichever writes fail and however the input is cut: the connection ends Connected under a name if and only if the bus is reachable, the four writes of the handshake succeed, the socket does not break, the input has a line beginning with OK, the first frame behind it that answers Hello is a return whose body starts with that name, and no frame is refused |
| Welcome.MessagesBringItUp | dbus/connection.cpp:172-286 | the same for the messages a bus sends, from either codec: whether and under which name the connection comes up depends on these writes, the line and the first message that answers Hello |
| Welcome.BusGivesName | dbus/connection.cpp:240-257 | an OK line and one return to Hello that carries the name bring the connection up under it |
| Literals.GreetingIsUnderstood | dbus/connection.cpp:172-257 | the bytes of an OK line and of a reply to Hello bring the connection up under the name in them; those of an error do not |
| Welcome.SendAllSends | dbus/connection.cpp:288-314 | messages handlers send take the next serials and leave every entry in place, whichever writes fail |
| ClientConnection.PendingReply.SetMessage | dbus/pending-reply.cpp:17-26 | the first message is kept and announced, a second refused |
| ClientConnection.Connection.FindSerial | dbus/connection.cpp:296-297 | the loop on nextSerial stops at the first free serial |
| ClientConnection.Connection.Encode | dbus/connection.cpp:299-300 | the message's bytes under its serial |
| ClientConnection.Connection.Send | dbus/connection.cpp:288-314 | the whole new state, and the reply object that waits |
| ClientConnection.Connection.UpdateState | dbus/connection.cpp:135-143 | the new state and what its handlers did |
| ClientConnection.Connection.Start | dbus/connection.cpp:58-109 | the whole new state, whichever write fails |
| ClientConnection.Connection.DoAuth | dbus/connection.cpp:172-208 | the whole new state after the bytes there are |
| ClientConnection.Connection.DoGetName | dbus/connection.cpp:210-238 | the whole new state, with Hello awaited |
| ClientConnection.Connection.HandleName | dbus/connection.cpp:240-257 | the whole new state after the reply to Hello |
| ClientConnection.Connection.HandleBusMsg | dbus/connection.cpp:259-286 | the whole new state after a message |
| ClientConnection.Connection.ReadData | dbus/connection.cpp:145-170 | the whole new state after one readiness event |
| ClientConnection.Live | dbus/connection.cpp:42-314 | any life of the object ends in the model's state, and steady |
| EventWorld.DestroyIsExact | core/firmir-object.cpp:11-17 | no living source keeps a destroyed handler; the two sides still agree if and only if nobody else handled the destroyed object's events |
| EventWorld.RunsAreTwoSided | core/firmir-object.cpp:11-44 | over every run of create, connect, emit and destroy: handler and source know of each other after every step if and only if no object is destroyed while another handles its events; then no destructor visits an object that is gone |
| EventWorld.ReplyDiesFirst | dbus/connection.cpp:225-280 | a reply destroyed before the connection that handles its event leaves it a dangling reference, which the connection's destructor follows |
| EventWorld.EmissionCallsSnapshot | core/firmir-object.cpp:25-44 | an emission's own calls are exactly the callbacks registered when it began, each handler's in order, whatever is connected, destroyed or emitted meanwhile; the emissions around it are untouched |
| EventWorld.RegisteredIsHeard | core/firmir-object.cpp:11-23 | after every run, what is registered for a handler and an event of a source is what was connected since both were last created, in order |
| EventWorld.EmissionCallsConnected | core/firmir-object.cpp:25-44 | in every run an emission calls, handler after handler, each of them once, exactly the callbacks connected since handler and source were last created, in the order of connection |
| EventObjects.EventObject.ConnectTo | core/firmir-object.cpp:19-23 | one callback more for this event and handler, the source known to the handler, nothing else changed |
| EventObjects.EventObject.Destruct | core/firmir-object.cpp:11-17 | the object is erased from every event of every source it knows |
| EventObjects.Program.EmitEvent | core/firmir-object.cpp:25-44 | called are exactly the callbacks registered on entry, each handler's in order, whatever they create, connect, destroy or emit; the whole is a run of the state machine |
| EventObjects.Program.Perform | core/firmir-object.cpp:11-44 | a program's actions on real objects, one after the other, are the steps that name the same objects; for each callback called one list of the plan is used up |
| EventObjects.Program.ReplyDiesFirst | dbus/connection.cpp:225-280 | on real objects: the connection keeps a reference to the reply that is gone |
| EventObjects.Live | core/firmir-object.cpp:11-44 | any program's objects are what a run of the state machine makes of them, so their two sides agree if every destroyed object had no other handler |

## Left out

- Kernel calls (`socket`, `fcntl`, `connect`, epoll): reads follow a script, writes are all-or-nothing, and whether a socket could be connected is a parameter.
- The value of `errno` after an end of file and short writes: below the level of the socket model; an end of file is a break.
- `getPath`, the environment and `uidToHex`: the authentication line is a parameter.
- User handlers that do more than send, in particular destroy the connection or run an event loop of their own.
- The caller's Message object, which keeps the serial and lengths `send` gave it: messages handed to `send` are values.
- ClientConnection.Connection.Send: the empty-bytes check after serialisation is not a branch, because a serialised message has at least 16 bytes.
- ConnectionTheorems.SerialsPartition: stated before the serial counter wraps; afterwards SerialsCovered still holds, and SendKeepsPartition says which sends break the partition.
- EventObjects.Program.EmitEvent: the order among the handlers of an event is any order, as the container leaves it open; event arguments and the warning for an empty callback are not modelled.
- The memory of a destroyed object: what its address would yield is not modelled, only that a destructor goes there (`strayed`).
- Blocking.FramingRefinesBlocking: stated for streams that start with a little-endian header; the library takes the words of every header for little-endian (Messages.BigEndianIsLost), so a big-endian stream is another stream to it.
- Welcome.ComesUp: stated for plans of fewer than 2^32-1 messages; with more, handlers alone can take the serial of Hello or every serial there is (Wrapping.ZeroLife).
- `readDouble` and `writeDouble`, which move the 64-bit pattern like the other 8-byte words.
- `core/event-loop.cpp`, `core/firmir-timer.cpp`, `core/firmir-types.cpp`, `core/firmir-logging.cpp`, the printers and accessors: thin wrappers and output.
- Message destructors and the copying and moving of messages: message values are immutable here.
