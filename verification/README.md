# A verified model of the Socket.IO and Engine.IO servers

This project models, in Dafny 4.11, the parts of the repository that decide what its users get:

- **Engine.IO payloads** (`StringCodec`, `BinaryCodec`, their `…Laws` and `…Outcomes`, on top of `Nom`, `Decimal`,
  `Base64`, `Utf8` and `EnginePacket`). The decoders are built from the results and combinators of nom 5: `alt` and `fold_many0` go on
  after a recoverable error only, `digit1` and `take_till1` are greedy. Checked 32-bit and unsigned arithmetic that
  would panic is an outcome of its own.
- **Socket.IO packets with attachments** (`PacketValue`, `Attachments`, `SocketPacket`, `Multipart`). The encoder's walk
  pushes binaries onto a shared list, the decoder's walk removes them from a shared map, and a slot in each connection
  collects them one message at a time.
- **The text of Socket.IO packets** (`ProtoText`, `ProtoTextLaws`), with the JSON library as a parameter.
- **The Engine.IO socket**, once with handlers that run one at a time (`EngineSocket`, `EngineSocketLaws`,
  `EngineSocketCallbacks`), and once with handlers that take the lock anew for every step, under every interleaving
  (`SocketInterleaving`): any number of sends, closes and polling flushes, and the one event loop that runs what the
  transport's events call for. `SocketConservation`, `SocketClosing`
  and `SocketOrder` hold what is true of all these runs, `SocketRefinement` proves that a handler let run alone does what
  the first model says, and `SocketRaces` holds runs that show where conditions come from.
- **The Socket.IO registry** of connections, socket lookup and namespaces, again once with handlers that run one at a
  time (`Registry`, `RegistryLaws`) and once as concurrent tasks under every interleaving (`RegistryInterleaving`,
  `RegistryRaces`), with a proof that a task let run alone does what the first model says (`RegistryRefinement`).

Code that works by changing things in place is a class or a loop proved against a function on values; what the code
promises is then proved about that function. A property of runs is a property of every sequence of inputs or, in the
interleaved models, of every sequence of steps of any number of tasks.

Several promises turn out not to hold of the code as it stands. Each is stated with the exact condition under which it
does hold:

- A payload comes back if and only if every packet in it survives, which is a condition on each packet's first byte or
  character, its length and its place (`StringCodecLaws.RoundTrip`, `BinaryCodecLaws.RoundTrip`). Packets without data
  never survive: text leaves them out (`StringCodecOutcomes.RoundTripOfData`), and in bytes the first of them ends the
  decoding (`BinaryCodecOutcomes.EmptyEndsDecoding`).
- Objects come back from the encoder as arrays, so a packet value comes back if and only if it holds none
  (`Attachments.RoundTrip`).
- No text decodes to the header of a packet with attachments, not even one that the encoder has written
  (`ProtoTextLaws.NeverMultipart`, `ProtoTextLaws.BinaryPacketsAreRejected`), and no packet with an id comes back
  (`ProtoTextLaws.PlainRoundTrip`).
- When the socket's handlers interleave, packets are handed over in order if and only if batches are handed over in the
  order of their taking (`SocketOrder.InOrderIff`), which nothing ensures (`SocketRaces.OrderIsLost`); and a closed socket
  has an empty buffer and no callback pending if and only if no send pushes after the close
  (`SocketClosing.BufferEmptyIff`, `NothingPendingIff`), which its second step does not look for (`SocketRaces.Stranded`).
- Closing a connection leaves its sockets in their namespaces (`RegistryLaws.CloseLeavesMembers`); namespaces hold only
  live sockets if and only if no connection that was there has been closed (`RegistryLaws.MembersAreLiveIff`).
- When the registry's handlers interleave, the lookup ends up as the inverse of the connections' socket sets if and only
  if no connection is stored over another one and no socket is entered after its connection has been swept
  (`RegistryRaces.InverseIff`); otherwise it keeps an entry for a socket that nobody has, for good
  (`RegistryInterleaving.StaleForever`). And every namespace stays filed if and only if none is filed over another one
  (`RegistryRaces.AllFiledIff`).

Check everything with `dafny verify dfyconfig.toml`.

## Model

| member | source | states |
|---|---|---|
| Nom.Take | engine_io_parser/src/string.rs:162 | `take` succeeds exactly when there is enough, splits the input and fails recoverably |
| Nom.TakeWhile1 | engine_io_parser/src/string.rs:258 | `digit1` and `take_till1` take the longest non-empty accepted prefix or fail recoverably |
| Nom.FoldMany0Loop | engine_io_parser/src/string.rs:175-184 | the loop with its mutated accumulator equals the recursive `FoldMany0`, for every parser that only consumes |
| EnginePacket.TypeOf | engine_io_parser/src/packet.rs:23-39 | exactly 0 to 6 are packet types, and each is the index of its type |
| Decimal.ValueOfToText | engine_io_parser/src/string.rs:229-235 | `to_string` on an unsigned number reads back as that number |
| Base64.DecodeEncode | engine_io_parser/src/string.rs:215-216 | decoding undoes encoding on all bytes |
| Base64.EncodeDecode | engine_io_parser/src/string.rs:215-216 | on padded text, encoding undoes decoding, so no two padded texts decode alike |
| Base64.FirstSymbolDigit | engine_io_parser/src/string.rs:232 | an encoding starts with a digit exactly when the first byte is 208 to 247 |
| Utf8.ValidEncode | engine_io_parser/src/binary.rs:253 | the bytes of a text are accepted as UTF-8 |
| Utf8.ValidOnlyEncode | engine_io_parser/src/binary.rs:162 | bytes accepted as UTF-8 are the bytes of some text |
| StringCodecLaws.TakeNumber | engine_io_parser/src/string.rs:257-273 | a number in front of anything but a digit is read as itself if it fits the width, and is a failure if it does not |
| StringCodecLaws.ParseTextFrame | engine_io_parser/src/string.rs:159-173 | what follows the colon of a text packet is read as its type and its text, leaving what comes behind, when no digit follows the type |
| StringCodecLaws.ParseBinaryFrame | engine_io_parser/src/string.rs:207-226 | what follows the colon of a packet of bytes is read as its type and its bytes, leaving what comes behind, when no digit follows the type |
| StringCodec.DecodePayloadLoop | engine_io_parser/src/string.rs:65-75 | the loop decodes what the specification `DecodePayload` says |
| StringCodec.EncodePayloadLoop | engine_io_parser/src/string.rs:238-255 | the accumulating loop writes the encodings one after the other |
| StringCodecLaws.ParseSurvivor | engine_io_parser/src/string.rs:186-226 | a packet whose data does not run into its type comes back from in front of any text, leaving that text |
| StringCodecLaws.ParseCasualty | engine_io_parser/src/string.rs:257-264 | a packet whose data runs into its type, or that is too long, does not come back, whatever follows |
| StringCodecLaws.ParseCut | engine_io_parser/src/string.rs:186-226 | a survivor cut short anywhere is a recoverable error, never a failure or a panic |
| StringCodecLaws.EncodePayloadAppend | engine_io_parser/src/string.rs:238-255 | encoding distributes over concatenation |
| StringCodecLaws.Truncation | engine_io_parser/src/string.rs:175-226 | a payload cut at any position decodes to exactly the packets that are whole before it |
| StringCodecLaws.RoundTrip | engine_io_parser/src/string.rs:175-255 | decoding an encoded payload gives the packets back if and only if each of them survives |
| StringCodecLaws.SizeBound | engine_io_parser/src/string.rs:159-226 | on every input the no-progress guard is never hit, the rest is a suffix, and each packet accounts for its data and three characters |
| StringCodecLaws.PacketRoundTrip | engine_io_parser/src/string.rs:28-32 | a packet on its own comes back if and only if it is text that does not start with a digit; other data that does not comes back as the text it is written in |
| StringCodecOutcomes.EmptyIsSkipped | engine_io_parser/src/string.rs:238-255 | packets without data leave no trace in a payload |
| StringCodecOutcomes.RoundTripOfData | engine_io_parser/src/string.rs:175-255 | for every list, decoding gives exactly the packets with data, if and only if those survive |
| StringCodecOutcomes.LengthOutcome | engine_io_parser/src/string.rs:186-198 | on any input that starts with digits: a length too wide fails, one without a colon ends the decoding, 0 underflows, any other leads to what follows the colon |
| StringCodecOutcomes.TextFrameOutcome | engine_io_parser/src/string.rs:159-173 | on any input that starts with digits: too wide a type fails, an unknown one or missing data ends the decoding, otherwise all the digits are the type and the data follows |
| StringCodecOutcomes.Base64FrameOutcome | engine_io_parser/src/string.rs:207-226 | the same behind a `b`, where data that is not base64 fails |
| StringCodecOutcomes.DecodeAfter | engine_io_parser/src/string.rs:175-184 | what follows packets that come back anywhere is decoded as if they were not there |
| StringCodecOutcomes.BadBase64IsRejected | engine_io_parser/src/string.rs:215-224 | one packet whose text is not base64 has the whole payload refused |
| StringCodecOutcomes.DocumentedExample | engine_io_parser/src/string.rs:140-152 | the documented example of an encoded payload |
| StringCodecOutcomes.Base64Vectors | engine_io_parser/src/string.rs:232 | the test vectors of RFC 4648, and the two last symbols of its alphabet |
| BinaryCodec.EncodePacketLength | engine_io_parser/src/binary.rs:222-235 | the loop yields the digits, lowest first, that denote the number, with no redundant zero |
| BinaryCodec.LengthDigits | engine_io_parser/src/binary.rs:222-235 | digits are 0 to 9, denote the number, and end in no zero unless the number is 0 |
| BinaryCodec.ParsePacketLengthLoop | engine_io_parser/src/binary.rs:205-220 | with every power, product and sum checked against 32 bits, the loop overflows exactly when there are over ten digits or the number needs over 32 bits |
| BinaryCodecLaws.ParseTextFrame | engine_io_parser/src/binary.rs:157-175 | text that starts with no digit is read as its type and its UTF-8 bytes, leaving what comes behind; text that does never comes back |
| BinaryCodecLaws.ParseBinaryFrame | engine_io_parser/src/binary.rs:139-155 | bytes are read as their type and themselves, leaving what comes behind |
| BinaryCodec.DecodePayloadLoop | engine_io_parser/src/binary.rs:177-186 | the loop decodes what the specification `DecodePayload` says |
| BinaryCodec.EncodePacketInPayloadInto | engine_io_parser/src/binary.rs:271-301 | pushing piece by piece gives the encoding of the specification |
| BinaryCodec.EncodePayloadLoop | engine_io_parser/src/binary.rs:303-308 | the accumulating loop writes the encodings one after the other |
| BinaryCodecLaws.LengthField | engine_io_parser/src/binary.rs:205-235 | an encoded length and the separator parse back, leaving the separator first, exactly for lengths below 2^32; longer ones overflow |
| BinaryCodecLaws.ParseEncoded | engine_io_parser/src/binary.rs:139-203 | in front of anything that does not start with a digit a packet comes back, as bytes, exactly if it survives |
| BinaryCodecLaws.ParseCut | engine_io_parser/src/binary.rs:188-220 | a survivor cut short anywhere is a recoverable error, never a failure or an overflow |
| BinaryCodecLaws.EncodePayloadAppend | engine_io_parser/src/binary.rs:303-308 | encoding distributes over concatenation |
| BinaryCodecLaws.Truncation | engine_io_parser/src/binary.rs:177-220 | a payload cut at any position decodes to exactly the packets that are whole before it |
| BinaryCodecLaws.RoundTrip | engine_io_parser/src/binary.rs:157-308 | decoding an encoded payload gives the number, order, types and data bytes back if and only if each packet survives |
| BinaryCodecLaws.EncodingTellsApart | engine_io_parser/src/binary.rs:271-308 | survivors with the same encoding have the same types and bytes, and are the same if all are bytes |
| BinaryCodecLaws.SizeBound | engine_io_parser/src/binary.rs:139-203 | on every input the no-progress guard is never hit, the rest is a suffix, and each packet accounts for its data and four bytes |
| BinaryCodecLaws.PacketRoundTrip | engine_io_parser/src/binary.rs:248-269 | a packet on its own comes back if it is bytes, and is refused otherwise |
| BinaryCodecOutcomes.TextFrameOutcome | engine_io_parser/src/binary.rs:157-175 | on any input that starts with digits: the first digit is the type, an unknown one or missing data ends the decoding, and data that is not the UTF-8 of some text fails |
| BinaryCodecOutcomes.NoTextIsRejected | engine_io_parser/src/binary.rs:162-173 | a payload whose first packet is announced as text, of any type, and is none is refused, whatever follows |
| BinaryCodecOutcomes.TextKindGivesText | engine_io_parser/src/binary.rs:194-197 | whatever is decoded from a packet announced as text is the encoding of some text |
| BinaryCodecOutcomes.BadStarts | engine_io_parser/src/binary.rs:188-203 | a kind other than text and bytes is refused, and a length of 0 underflows |
| BinaryCodecOutcomes.DecodeAfter | engine_io_parser/src/binary.rs:177-186 | what follows packets that come back is decoded as if they were not there |
| BinaryCodecOutcomes.EmptyEndsDecoding | engine_io_parser/src/binary.rs:299 | a packet without data ends the decoding: the packets before it come out, and it and those after it are lost |
| BinaryCodecOutcomes.PongExample | engine_io_parser/src/binary.rs:267-299 | the bytes of a packet without data, in a payload and alone |
| BinaryCodecOutcomes.DocumentedExample | engine_io_parser/src/binary.rs:120-132 | the documented example of an encoded payload |
| PacketValue.MakePlaceholder | socket_io_parser/src/encoder.rs:120-125 | the placeholder is recognised as one, with its own number |
| PacketValue.Lookup | socket_io_parser/src/packet.rs:161-162 | the value found is that of the first such key, and nothing is found only where there is no such key |
| PacketValue.PlaceholderIff | socket_io_parser/src/packet.rs:158-173 | an object is a placeholder for an index if and only if its marker is true and its number is that unsigned one |
| Attachments.AttachmentList.Deconstruct | socket_io_parser/src/encoder.rs:46-71 | the walk appends the binaries in traversal order and numbers their placeholders from the length of the list on |
| Attachments.AttachmentList.DeconstructAll | socket_io_parser/src/encoder.rs:55-64 | the same for the values of an array or an object |
| Attachments.NumberedIndices | socket_io_parser/src/encoder.rs:46-71 | placeholders are numbered consecutively, once each and in traversal order, and there are no other objects |
| Attachments.AttachmentPool.Reconstruct | socket_io_parser/src/decoder.rs:102-134 | the walk that removes from the shared map equals the pure `Reconstructed`, and removes exactly the numbers it met |
| Attachments.AttachmentPool.ReconstructAll | socket_io_parser/src/decoder.rs:111-131 | the same for the values of an array or an object |
| Attachments.FirstPlaceholderWins | socket_io_parser/src/decoder.rs:117-124 | the first placeholder for an index gets the attachment; repeated and unknown indices become null |
| Attachments.PlugNothing | socket_io_parser/src/packet.rs:116-138 | without placeholders the result is the plain conversion |
| Attachments.PlugOwn | socket_io_parser/src/decoder.rs:102-134 | nothing but the placeholders is replaced: arrays and objects keep their shape and keys, and all else is converted plainly |
| Attachments.Conservation | socket_io_parser/src/decoder.rs:163-179 | binaries in the result and entries left in the map are together the received buffers, as a multiset |
| Attachments.RoundTrip | socket_io_parser/src/encoder.rs:46-71 | putting attachments back gives the value with objects turned into arrays, which is the value if and only if it has none; no attachment is left over |
| Attachments.ObjectsAreLost | socket_io_parser/src/encoder.rs:61-64 | turning objects into arrays changes a value exactly if it holds one |
| SocketPacket.CollectedEncoded | socket_io_parser/src/decoder.rs:163-183 | collecting what was encoded gives the packet, but for objects in its data; without a namespace it is for the root |
| Multipart.DefaultDecoder.DecodeBinaryData | socket_io_parser/src/decoder.rs:147-153 | a buffer too many is refused without change; any other is appended, and the result says if the packet is ready |
| Multipart.DefaultDecoder.CollectPacket | socket_io_parser/src/decoder.rs:163-183 | a packet is collected exactly when all buffers are there |
| Multipart.Connection.SetDecoder | socket_io_server/src/connection.rs:134-142 | a decoder is accepted exactly when the slot is empty; otherwise the slot stays as it is |
| Multipart.Connection.DecodeBinaryData | socket_io_server/src/connection.rs:113-132 | taking the decoder out and putting it back does one step of the slot's state machine; the collecting never fails |
| Multipart.Connection.HandleIncoming | socket_io_server/src/server.rs:331-385 | a header or an attachment does one step of the slot's state machine |
| Multipart.AlwaysIncomplete | socket_io_server/src/connection.rs:113-142 | over every run the slot is empty or holds fewer buffers than announced, so no buffer is ever refused as one too many |
| Multipart.Reassembly | socket_io_server/src/connection.rs:113-142 | over every run exactly those packets come out that can be read off the messages alone: each accepted header with as many of the following attachments as it announces, in order, later headers in between being ignored |
| Multipart.ReactionAt | socket_io_server/src/server.rs:331-385 | over every run the reaction to each message follows from how many attachments are missing before it: a packet comes out exactly on the last one missing, a header in the middle is a sequence error, an attachment without header is refused |
| Multipart.StreamComposition | socket_io_parser/src/encoder.rs:24-43 | the messages of any sequence of encoded packets give these packets in order, but for objects, and leave the slot empty |
| Multipart.StreamUnchanged | socket_io_parser/src/encoder.rs:24-43 | they come out unchanged if and only if none holds an object |
| ProtoText.EncodePacket | socket_io_parser/src/encoder.rs:75-117 | joining the pushed pieces gives the text of the specification, and the attachments are the binaries in order |
| ProtoTextLaws.WrittenParts | socket_io_parser/src/encoder.rs:75-117 | the text is made of digits for the type, digits for the number of binaries and a hyphen for the binary types, the namespace and a comma unless it is the root, digits for the id, and the data, each number being the right one |
| ProtoText.DigitsToU32Loop | socket_io_parser/src/decoder.rs:335-340 | with every 32-bit operation checked, the loop yields ten times the number, or overflows exactly when there are over nine digits or that does not fit |
| ProtoTextLaws.NeverMultipart | socket_io_parser/src/decoder.rs:191-236 | no text decodes to a header with attachments, or to any packet of a binary type |
| ProtoTextLaws.BinaryPacketsAreRejected | socket_io_parser/src/encoder.rs:86-91 | what the encoder writes for a packet of a binary type is always rejected |
| ProtoTextLaws.PlainRoundTrip | socket_io_parser/src/decoder.rs:191-293 | a packet without attachments comes back, objects as arrays, if and only if it has no id, its namespace starts with a slash and has no comma, and its data is right for its type |
| ProtoTextLaws.ConnectReplyIsRejected | socket_io_parser/src/encoder.rs:61-64 | a connect packet that carries an object is rejected by the decoder, as the object was written as an array |
| ProtoTextLaws.NamespaceReadsBack | socket_io_parser/src/decoder.rs:249-261 | a path and its comma are read as that path, leaving what follows |
| ProtoTextLaws.UnendedNamespaceIsRejected | socket_io_parser/src/decoder.rs:253-257 | a text that ends in a namespace without its comma is refused |
| ProtoTextLaws.IdIsRefused | socket_io_parser/src/decoder.rs:263-278 | an encoded id, which no hyphen follows, is an error; no id is read as none |
| ProtoTextLaws.IdIsReadTenfold | socket_io_parser/src/decoder.rs:263-293 | a text with a path and an id that has its hyphen is decoded with ten times the id, or overflows; data that is no JSON counts as null; and data that is wrong for the type is refused |
| ProtoTextLaws.DecodedIsProper | socket_io_parser/src/decoder.rs:295-321 | whatever is decoded has a path for its namespace and data that is right for its type |
| EngineSocket.Socket.DoOpen | engine_io_server/src/socket.rs:192-206 | the new state is that of `OpenSocket`: open, with the open packet sent and announced |
| EngineSocket.Socket.DoClose | engine_io_server/src/socket.rs:208-225 | the new state is that of `CloseSocket` |
| EngineSocket.Socket.DoSendPacket | engine_io_server/src/socket.rs:227-246 | the new state is that of `SendPacket` |
| EngineSocket.Socket.DoFlush | engine_io_server/src/socket.rs:310-383 | the new state is that of `Flush` |
| EngineSocket.Socket.DoOnClose | engine_io_server/src/socket.rs:409-429 | the new state is that of `OnClose` |
| EngineSocket.Socket.DoOnTransportError | engine_io_server/src/socket.rs:431-447 | the new state is that of `OnTransportError` |
| EngineSocket.Socket.DoOnPacket | engine_io_server/src/socket.rs:450-511 | the new state is that of `OnPacket` |
| EngineSocket.Socket.DoOnDrain | engine_io_server/src/socket.rs:517-537 | the new state is that of `OnDrain` |
| EngineSocket.Socket.Handle | engine_io_server/src/socket.rs:540-569 | one turn of the event loop, or one call, is one step of the run |
| EngineSocket.OrderedDelivery | engine_io_server/src/socket.rs:227-383 | until the socket is closed, batches handed over and buffer are the accepted packets in order; callbacks run, flushed and pending are the registered ones in order, for framed and unframed transports; one writable flush hands over the rest |
| EngineSocketLaws.ReadyFollowsInputs | engine_io_server/src/socket.rs:208-443 | the ready state is a function of the closes and errors alone: the server's first close fixes how to close, errors count only before it, the transport's end is final |
| EngineSocketLaws.FollowsInputs | engine_io_server/src/socket.rs:192-511 | over every run, what is accepted, registered, announced and handed over follows from the inputs alone: pongs for pings, heartbeats and messages in order, the one closing event with the reason of the input that closed, and a batch for every input that meets a writable transport, of all that has been accepted since the last one, announced before and after |
| EngineSocketLaws.UnwritableGetsNothing | engine_io_server/src/socket.rs:317-322 | over every run nothing is handed over on inputs that find the transport not writable |
| EngineSocketCallbacks.DrainsRunBatches | engine_io_server/src/socket.rs:517-537 | with nothing buffered, each drain runs the oldest flushed batch: so many drains run so many batches, in order, and leave the rest |
| EngineSocketCallbacks.EverythingRuns | engine_io_server/src/socket.rs:517-537 | after as many writable drains as there are batches flushed and to come of what is in the buffer, a socket that is not closed has run every callback it was given, in order: each drain flushes first |
| EngineSocketCallbacks.PollingBatches | engine_io_server/src/socket.rs:344-363 | over every run with a polling transport, each buffer handed over has exactly one batch, of the callbacks that were pending then, and the batches not yet run are the last ones |
| EngineSocketCallbacks.WebSocketBatches | engine_io_server/src/socket.rs:344-363 | over every run with a WebSocket, each flushed batch is exactly one callback, and they are the next of those registered |
| EngineSocket.GracefulClose | engine_io_server/src/socket.rs:208-225 | while closing, the transport is gone if and only if everything accepted has been handed over, and a writable flush is enough for that |
| EngineSocket.AbruptClose | engine_io_server/src/socket.rs:409-429 | a close by the transport loses exactly the packets not handed over, which come last |
| EngineSocket.CallbacksRunOnce | engine_io_server/src/socket.rs:517-537 | the callbacks that have run are the first registered, in order, each once |
| EngineSocket.NothingAcceptedAfterClose | engine_io_server/src/socket.rs:227-229 | once the socket is closing nothing is accepted or registered, over any run |
| EngineSocket.ClosedIsAbsorbing | engine_io_server/src/socket.rs:409-447 | a closed socket stays closed, without transport, buffer and callbacks, sends nothing and announces its end once |
| SocketConservation.Conservation | engine_io_server/src/socket.rs:227-383 | under every interleaving each accepted packet and each registered callback is in exactly one place, so nothing is handed over or run more often than it was accepted |
| SocketRefinement.SoloRun | engine_io_server/src/socket.rs:310-383 | a task that alone takes steps ends, in the state of `Complete` |
| SocketRefinement.SoloFlush | engine_io_server/src/socket.rs:310-383 | the steps of a flush, uninterrupted, are the atomic flush |
| SocketRefinement.SoloSend | engine_io_server/src/socket.rs:227-246 | the steps of a send, uninterrupted, are the atomic send |
| SocketRefinement.SoloOnClose | engine_io_server/src/socket.rs:409-429 | the steps of a close by the transport, uninterrupted, are the atomic one |
| SocketRefinement.SoloError | engine_io_server/src/socket.rs:431-443 | the steps of a transport error, uninterrupted, are the atomic handler |
| SocketRefinement.SoloCall | engine_io_server/src/socket.rs:208-246 | a send, a close or a polling flush started by the server and let run is the atomic one |
| SocketRefinement.SoloTurn | engine_io_server/src/socket.rs:540-569 | one turn of the event loop, for any event and let run, is one step of the atomic model |
| SocketRefinement.SoloOpening | engine_io_server/src/socket.rs:192-206 | the opening, let run, is that of the atomic model |
| SocketOrder.InOrderIff | engine_io_server/src/socket.rs:310-338 | where nothing is discarded and no packet is accepted twice, packets are handed over in the order of acceptance throughout the run if and only if every flush hands its batch over before any that was taken later |
| SocketOrder.OrderedUnderOneFlush | engine_io_server/src/socket.rs:310-338 | this is so, repeated packets or not, as long as no two flushes hold packets, and the rest is then in line in the hands of the flushes and in the buffer |
| SocketOrder.UnwritableGetsNothing | engine_io_server/src/socket.rs:317-338 | under every interleaving nothing is handed over while the transport is not writable, but by flushes that have found it writable before |
| SocketRaces.OrderIsLost | engine_io_server/src/socket.rs:310-338 | an interleaving of two sends on an open socket hands the later packet over first |
| SocketClosing.OneCloseEvent | engine_io_server/src/socket.rs:409-429 | under every interleaving of sends, closes and polling flushes with the one event loop the end is announced at most once, and between turns exactly if the socket is closed |
| SocketClosing.ClosedForGood | engine_io_server/src/socket.rs:409-416 | under every interleaving a closed socket stays closed |
| SocketClosing.ClosedSettles | engine_io_server/src/socket.rs:227-322 | once closed, with all handlers past their checks finished, the socket neither accepts nor hands over, under every interleaving |
| SocketClosing.BufferEmptyIff | engine_io_server/src/socket.rs:227-246 | a closed socket never has a packet in its buffer, throughout the run, if and only if no send pushes its packet after the close |
| SocketClosing.NothingPendingIff | engine_io_server/src/socket.rs:227-246 | a closed socket never has a callback pending, throughout the run, if and only if no send registers one after the close |
| SocketRaces.Stranded | engine_io_server/src/socket.rs:227-246 | an interleaving of a send and a turn of the event loop leaves an accepted packet in a closed socket |
| Registry.FirstMatchInRange | socket_io_server/src/server.rs:517-520 | the descriptor found is the first that matches; none is found exactly when none matches |
| Registry.Shared.DoGetOrCreate | socket_io_server/src/server.rs:244-261 | the name gets its slash, the namespace is there afterwards, and it is new exactly if it was not there |
| Registry.Shared.FindMatch | socket_io_server/src/server.rs:517-520 | the search loop finds the first match |
| Registry.Shared.DoMatchDynamic | socket_io_server/src/server.rs:505-530 | the first matching descriptor adopts the namespace if that is new; without a match nothing changes |
| Registry.Shared.DoAddConnection | socket_io_server/src/server.rs:534-567 | the new state and the socket's id are those of `AddConnection` |
| Registry.Shared.DoConnect | socket_io_server/src/server.rs:405-457 | the new state and the reply are those of `HandleConnect` |
| Registry.Shared.DoRemoveConnection | socket_io_server/src/server.rs:569-579 | the loop over the sockets leaves the state of `RemoveConnection`, and reports whether there was a connection |
| Registry.Shared.Drop | socket_io_server/src/connection.rs:159-169 | the destructor's loop takes each recorded socket out of its namespace |
| Registry.Shared.Handle | socket_io_server/src/server.rs:263-307 | one event or call is one step of the run |
| RegistryLaws.LookupIsInverse | socket_io_server/src/server.rs:532-579 | over every run the lookup is exactly the inverse of the connections' socket sets, these are disjoint, and live sockets are in their namespaces |
| RegistryLaws.NamespacesAreFiled | socket_io_server/src/server.rs:505-528 | over every run each key starts with a slash and is its namespace's name, a descriptor's members are exactly the namespaces made for it, it was the first to match them, and no two descriptors share a member |
| RegistryLaws.ConnectOutcome | socket_io_server/src/server.rs:405-530 | a client is refused if and only if the name as given is unknown and no descriptor matches it, and then nothing changes; otherwise exactly one new socket is added to the connection, the lookup and the namespace with its slash, even where the connection has joined before, and a new namespace is a new member of the first matching descriptor and of no other |
| RegistryLaws.CloseLeavesMembers | socket_io_server/src/server.rs:569-579 | a close removes the connection and takes exactly its sockets out of the lookup, and none out of the namespaces |
| RegistryLaws.DropTakesOutRecorded | socket_io_server/src/connection.rs:159-169 | dropping a connection takes exactly its recorded sockets out of their namespaces, and no namespace away |
| RegistryLaws.MembersAreLiveIff | socket_io_server/src/server.rs:569-579 | over every run the namespaces hold only connected sockets if and only if no close met a connection that was there |
| RegistryLaws.NoPacketIsRouted | socket_io_server/src/connection.rs:144-156 | as the records stay empty, no packet is ever passed on to a socket |
| RegistryLaws.NamespacesAreForGood | socket_io_server/src/server.rs:244-261 | over every further run no namespace goes, loses a member or changes hands between descriptors |
| RegistryInterleaving.StepKeeps | socket_io_server/src/server.rs:263-307 | every step of every task keeps the invariants below |
| RegistryInterleaving.LookupUnderRaces | socket_io_server/src/server.rs:532-579 | under every interleaving a stored connection's socket is looked up to it or its entering is pending, no lookup leads to another connection than the socket was created under, and no socket is in two connections |
| RegistryInterleaving.LookupAtRest | socket_io_server/src/server.rs:534-567 | when all tasks have finished, every socket of a stored connection can be looked up |
| RegistryInterleaving.MembersUnderRaces | socket_io_server/src/connection.rs:74-84 | under every interleaving a namespace object holds exactly the sockets created for it |
| RegistryInterleaving.StaleForever | socket_io_server/src/server.rs:569-579 | a lookup entry that nobody owns and no task mentions stays under every continuation |
| RegistryRaces.InverseIff | socket_io_server/src/server.rs:534-579 | when all tasks have finished, the lookup is the inverse of the socket sets if and only if no connection was stored over another one and no socket was entered after its connection had gone and been swept |
| RegistryRaces.FirstConnectsRace | socket_io_server/src/server.rs:540-567 | two racing first joins of one client leave an entry that nobody owns |
| RegistryRaces.CloseOvertakesIndex | socket_io_server/src/server.rs:564-575 | a close between a join's two writes leaves an entry that nobody owns |
| RegistryRaces.AllFiledIff | socket_io_server/src/server.rs:244-261 | every namespace ever made can be found under its name if and only if none was put where another had been put since its name was looked for |
| RegistryRaces.FirstJoinsRace | socket_io_server/src/server.rs:253-260 | two racing first joins of one namespace put their sockets into different objects, one of which is not filed |
| RegistryRefinement.ConnectAlone | socket_io_server/src/server.rs:479-493 | the steps of a join, uninterrupted, give the state of the atomic model |
| RegistryRefinement.CloseAlone | socket_io_server/src/server.rs:569-579 | the steps of a close, uninterrupted and with the sockets taken in any order, give the state of the atomic model |

## Left out

- HTTP, WebSocket, headers, cookies, JSONP, the handshake's metadata and the warp adapter: input and output.
- Timers and other stubs (`set_ping_timeout`, `get_available_upgrades`, `setup_connect_timer`, `clear_connect_timer`, `handle_upgrade`, the default storage): unwritten in the source; the timers are modelled as doing nothing.
- EngineSocket.Socket.DoOnPacket: packets of types that the source answers with `todo!` do nothing in the model, and an upgrade packet does nothing because the upgrade state never leaves its first value.
- EngineSocket.Socket.DoOnTransportError: the error event is left out, because its send is never awaited; so it is in the interleaved model.
- Channel capacity, lagging receivers and the awaiting of sends: a send is an append to a trace.
- EngineSocket.Socket.DoClose: the source takes the write lock a second time while it holds it; the model has one critical section.
- Wrap-around in release builds: arithmetic that overflows panics, as in development builds.
- The positions that nom attaches to its errors, which every caller drops.
- JSON text: the JSON library is a parameter, and the laws about text ask of it that the one value at hand reads back and that arrays, objects and strings start as JSON says.
- PacketValue: the keys of an object are kept in insertion order and taken to be distinct, as `IndexMap` makes them, and folds over them insert in that order.
- Random socket ids: they are counted up, so fresh ids are the model's assumption.
- Registry.Shared.DoAddConnection: connections and namespaces are values in the maps, so that a connection's own lock and the sharing of a namespace object are not part of it; the interleaved model keeps namespace objects apart by reference.
- RegistryInterleaving.MembersUnderRaces: a join inserts its socket into the connection and adds it to the namespace in one step, although the source takes two; the connection's entry stays locked between them, so only a reader of the namespace could tell.
- RegistryInterleaving: the search through the descriptors and their members, as the tasks only find or make a namespace.
- RegistryRefinement.ConnectAlone: it starts where the namespace's name is settled, after the search through the descriptors.
- FilteredNamespace, rooms and broadcasting: they end in the unwritten storage.
- The serde serializer and the `packet_data` macro: thin glue.
