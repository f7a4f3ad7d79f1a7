# nbio: protocol and queue model

A Dafny model of the parts of nbio, the non-blocking network library, that hold its state machines:
the incremental HTTP/1.x parser, the WebSocket codec, the write queue of a connection, the job
queues, the task pool, the body buffer and the size-class allocator. Each part is written in the
form the program has (classes with fields, loops over buffers, interleaved atomic steps), and each
is proved against an independent description of what it is for.

## What is proved

**HTTP parsing.** `HttpMachine` describes the parser as a machine that is fed one byte at a time.
`HttpParser.Parser.Parse`, with its cursor, its half-packet cache and its jump over bodies, is proved
to do to every read what the machine does to its bytes. From that follow: network segmentation is
invisible (`HttpSegmentation`), for every cut that passes the read limit; pipelined messages do not
influence each other (`HttpPipelining`); and requests and responses, with sized or chunked body, any
fields, any trailers and any reason phrase, are read back from their bytes with nothing left over
exactly under stated conditions (`HttpGrammar`, `HttpChunked`, `HttpMessages`). For every stream, what the
processor refuses first decides the error and the record (`HttpRefusals`, `HttpAnswers`). Each error
occurs exactly in the stated state at the stated byte (`HttpErrors`), and the looser forms that the
parser takes as well are in `HttpLoose`. `Upgrade.Serve` composes the parser and the WebSocket reader
over any cut of a stream that changes protocol in the middle.

**WebSocket (RFC 6455).** Masking by blocks of 64-bit words is the byte-wise definition of section
5.3 (`WsMask`). Frame reading is monotone in its input, so cuts are invisible (`WsFrame`, `WsReader`,
`WsConn`). Of all frames that the format can lay out, those that are taken and the error of every other
are stated bit by bit (`WsAnyFrame`). Messages are reassembled from runs of frames (section 5.4), with control frames in
between (`WsFragments`). What the writer lays out, in frames of any size and for both roles, a peer
reads back, from any cut, exactly when it is within the peer's limit (`WsWriter`, `WsRoundTrip`).

**Write queue.** `WriteQueue.Conn` runs Write, Sendfile, flush and close against a kernel that
answers as it likes (`Kernel`); `SendfileRun` and `FlushRun` say what the replies decide. Bytes sent
followed by bytes queued are the bytes accepted; `left` is the number of buffered bytes and stays
within the limit; write interest is registered exactly while data waits; flush, whichever way it ends,
ends so exactly when the replies that its calls meet say so; a call closes the connection exactly when
it meets one of the stated causes; onClose runs at most once and every buffer and descriptor is released
exactly once.

**Queues with one runner.** `JobQueue` is a first-in first-out queue seen from outside. The job list
of a connection (`ConnJobs`), the timer's asynchronous calls (`TimerJobs`) and the WebSocket send
queue (`WsSendQueue`, `WsSendMessages`) are each shown to take only its steps, under every interleaving.

**Task pool.** `TaskPool` interleaves single atomic additions. The counter is accounted for exactly,
workers never exceed the maximum, tasks are conserved, and the condition under which a wake-up is
lost is stated exactly. Queued tasks leave in their order (`TaskPoolOrder`); all tasks can be finished
without another call exactly when the dispatcher is not abandoned, and after Stop everybody can leave
(`TaskPoolProgress`).

**Buffers.** `BodyReader.Reader` is a queue of bytes. `Allocator.Aligned` keeps its buckets and never
gives one array to two holders.

## Where the program does not do what one would expect

The code is followed; each of these is stated as a result.

- Sendfile reports the whole range as sent. The report is true exactly when its calls meet no end of the
  file and, if they meet a full socket, the descriptor can be duplicated (`KeepsWord`, `EarlyEndLoses`).
- Flush does not return exactly when, in its run, a file range of no bytes or a range of a file that has
  ended comes to the head of the list (`Flush`, `Drive`, `EmptyRangeHangs`, `EndedFileHangs`).
- A short `Writev` keeps its word exactly when it reached into the last slice (`ConservedIff`,
  `SecondSliceLost`).
- A status line is read exactly when its reason phrase starts with a letter, apart from what stands
  before the first letter. After a reason without a letter or a space, such as the empty one, the next
  line is taken for the reason: the first header field is lost (`ReasonRead`, `NextLineLost`,
  `EmptyReason`).
- A reason phrase, or a trailer value, is delivered as written exactly when, besides, it has no space;
  otherwise its first word is (`ReasonKept`, `NotFound`, `TrailerKept`, `TwoWords`).
- A field with an empty value is delivered with the space before it as its value (`FieldKept`).
- A trailer field with an empty value is not struck off the announced ones, so that the message fails.
  A chunked body is read exactly when its trailer fields fit the announcement: every announced name
  comes with a value, and no value after that (`ChunkedRoundTrip`, `FittingNames`, `EmptyTrailerFails`).
- A response without a length ends at its blank line, and its body is read as the next response
  (`BodyUntilClose`).
- A request target in absolute or authority form is refused (`TargetExact`).
- A frame with an opcode from 11 on passes the frame check and is refused as an invalid fragment; a length
  need not be in its shortest form (`AnyFrame`, `AnyFrameDrained`).
- A control frame counts against the message limit together with the partial message: a ping inside a
  message can end the connection with 1009. A control message longer than the maximal frame is cut,
  and refused by the peer (`ControlRoundTrip`, `PingInside`).
- A continuation frame with nothing to continue starts a message, which has no type (`MessagesTyped`,
  `ContinuationAlone`).
- After a failed write the send queue goes on accepting frames until the close, and writes none of them
  (`WrittenExact`, `AcceptedInVain`).
- Frames on a bounded send queue are whole messages exactly when no message finds room for its first
  frame and not for all (`WholeMessages`, `ThreeOnTwo`).
- An empty WebSocket message is written and read but never dispatched (`RoundTrip`).
- The task pool can lose a wake-up (`WatchedExact`, `WakeUpLost`), and tasks are then left unfinished
  until another call comes (`ProgressExact`).
- A task that a caller puts into the pool's queue after Stop can be left there for good (`LeftInQueue`,
  `EndIsFinal`).
- The name of a header field, or the version of a request, ends at its first space; what follows it is
  dropped (`FirstWordOfName`, `FirstWordOfVersion`).
- A message with both Transfer-Encoding and Content-Length is chunked, and its Content-Length is ignored;
  of several Content-Length values the first counts, and a plus sign before it is taken (`FramingExact`,
  `LengthNumber`).
- The allocator keeps its buckets for a foreign buffer exactly when its capacity is that of a class,
  is not a multiple of 32, or is above the maximum (`FreeExact`, `ForeignCapacity`).

## Model

| member | source | states |
|---|---|---|
| `HttpMachine.FeedAllAppend` | nbhttp/parser.go:166-725 | reading a stream in two parts is reading it whole, for every state and every split |
| `HttpMachine.DeadStays` | nbhttp/parser.go:217-705 | after the first error further bytes change nothing |
| `HttpMachine.UpgradedHands` | nbhttp/parser.go:203-222 | once a protocol is installed every later byte is handed to it, in order |
| `HttpMachine.StepOrderly` | nbhttp/parser.go:217-705 | a step outside a body hands no bytes on, enters a body only with a positive length and nothing held, and installs a protocol only between messages with nothing held |
| `HttpMachine.FeedAllWellFormed` | nbhttp/parser.go:508-521 | in every reachable state a body in progress is longer than the bytes held, and an upgraded parser holds none |
| `HttpMachine.FeedAllOpen` | nbhttp/parser.go:102-108 | bytes never close the parser, and the cached token grows by at most the bytes read |
| `HttpMachine.BodyBytes` | nbhttp/parser.go:508-521 | inside a body or chunk nothing is delivered before the last byte, and then the whole body at once; what becomes of it is in HttpRefusals.BodyAnswered |
| `HttpMachine.TrailerNamesFail` | nbhttp/parser.go:808-818 | the first forbidden trailer name decides the result for any list that continues it |
| `HttpMachine.TrailerSetFail` | nbhttp/parser.go:794-820 | the first bad Trailer value decides the result for all values |
| `HttpHeaders.TrimTrailingSpaces` | nbhttp/parser.go:753-761 | the backward scan removes exactly the trailing spaces, and leaves a value of spaces only |
| `HttpHeaders.NamesOf` | nbhttp/parser.go:795-819 | the names of one value, single or comma separated, are added, or the first forbidden one is the error |
| `HttpHeaders.CollectTrailers` | nbhttp/parser.go:793-821 | the loop over all values collects the canonical names or stops at the first forbidden one |
| `HttpParser.ByteAhead` | nbhttp/parser.go:218-224 | one turn of the loop outside a body keeps cursor, token start and machine in step, slices in bounds |
| `HttpParser.BodyAhead` | nbhttp/parser.go:508-521 | the jump over a complete body never moves the cursor backward, also when resuming from a cached part |
| `HttpParser.Parser.constructor` | nbhttp/parser.go:844-867 | a new parser is the fresh machine of its side |
| `HttpParser.Parser.Parse` | nbhttp/parser.go:166-725 | a read does what feeding its bytes one by one to the machine does: events, first error, state, fields, cache; closed and over-long reads change nothing |
| `HttpParser.Parser.Scan` | nbhttp/parser.go:217-705 | the loop terminates, with every slice in bounds, at the machine fed with all bytes, or hands the rest to the new protocol |
| `HttpParser.Parser.TakeBody` | nbhttp/parser.go:578-591 | a body or chunk that is complete is delivered whole and the cursor moves forward to its last byte |
| `HttpParser.Parser.TakeByte` | nbhttp/parser.go:217-705 | one byte outside a body is the machine's step, with the token start moved as the state says |
| `HttpParser.Parser.HandOff` | nbhttp/parser.go:203-215 | the bytes after the handshake go to the new protocol and the cache is dropped |
| `HttpSegmentation.CallsAreOneFeed` | nbhttp/parser.go:190-201 | a cut that passes the read limit is the stream fed at once; any other ends with the too-long error after some of its reads |
| `HttpSegmentation.WithinLimit` | nbhttp/parser.go:194-198 | a stream within the read limit as a whole passes the check however it is cut |
| `HttpSegmentation.SegmentationInvisible` | nbhttp/parser.go:166-725 | two cuts of one stream give the same messages, events, first error, state, fields and cached bytes |
| `HttpSegmentation.UpgradeHandsRest` | nbhttp/parser.go:203-222 | over any cut, the bytes handed to the new protocol are exactly those after the handshake, and none stays cached |
| `HttpSegmentation.ReadLoop` | nbhttp/parser.go:166-725 | the parser object over any list of reads ends where the machine does, stopping at the first error |
| `HttpPipelining.StepClean` | nbhttp/parser.go:217-705 | which fields may be non-empty, state by state, is kept by every step, and only the end of a message leads to the initial state |
| `HttpPipelining.ReachableClean` | nbhttp/parser.go:828-839 | that holds in every reachable state |
| `HttpPipelining.StepAlike` | nbhttp/parser.go:217-705 | parsers that differ only in a stale content length or chunk size take the same step |
| `HttpPipelining.FeedAllAlike` | nbhttp/parser.go:217-705 | and agree on every further stream: a stale length is always overwritten before it is read |
| `HttpPipelining.FreshAgain` | nbhttp/parser.go:828-839 | after each complete message the parser is equivalent to a new one |
| `HttpPipelining.Pipelined` | nbhttp/parser.go:828-839 | what follows complete messages is parsed as at the start of a connection |
| `HttpPipelining.PipelinedAll` | nbhttp/parser.go:828-839 | the record of any concatenation of complete messages is the concatenation of their records |
| `FormatInt.FitsBuffer` | nbhttp/response.go:602-618 | every number of 31 bits has at most ten digits, so the index never underflows |
| `FormatInt.Format` | nbhttp/response.go:602-618 | the backward loop lays down the digits of the number, or gives nothing outside 31 bits |
| `FormatInt.DigitsValue` | nbhttp/response.go:602-618 | the printed digits have the value of the number, in base 10 and 16 |
| `FormatInt.ParseFormat` | nbhttp/parser.go:147-159 | the chunk-size and length parsers invert the printer below their cutoff |
| `HttpGrammar.FeedToken` | nbhttp/parser.go:227-248 | a token of any length and the byte that ends it give the step that the ending byte makes on the whole token |
| `HttpGrammar.RequestLineRoundTrip` | nbhttp/parser.go:227-290 | every valid request line is delivered as its method, target and version |
| `HttpGrammar.TargetExact` | nbhttp/parser.go:248-268 | a target is read if and only if it starts with a slash or an asterisk and the processor takes it; otherwise the error and the record are stated |
| `HttpGrammar.ReasonExact` | nbhttp/parser.go:336-367 | a line where a reason is expected, whatever it holds: skipped with its line end, refused, or heard from its first letter |
| `HttpGrammar.StatusLineRoundTrip` | nbhttp/parser.go:291-367 | every status line, whatever its reason: delivered as its version, code and the word at the first letter of its reason, refused if a space comes before that, or still waiting for a reason |
| `HttpGrammar.ReasonRead` | nbhttp/parser.go:336-367 | the line is delivered with the first word of its reason if and only if the reason starts with a letter |
| `HttpGrammar.NextLineLost` | nbhttp/parser.go:336-346 | after a reason without letter and space the next line is delivered as the reason |
| `HttpGrammar.EmptyReason` | nbhttp/parser.go:336-346 | the field Host: a after an empty reason becomes the reason Host: |
| `HttpGrammar.ReasonKept` | nbhttp/parser.go:336-361 | the line is delivered with its reason as written if and only if that starts with a letter and has no space |
| `HttpGrammar.NotFound` | nbhttp/parser.go:347-361 | the reason Not Found is delivered as Not |
| `HttpGrammar.FieldRoundTrip` | nbhttp/parser.go:375-490 | every field line, with a value or without, is delivered under its canonical key, an empty value as a space, and kept for the framing |
| `HttpGrammar.FieldKept` | nbhttp/parser.go:435-462 | a field is delivered as written if and only if its value is not empty |
| `HttpChunked.FeedSize` | nbhttp/parser.go:522-576 | the size line that formatInt prints is read back and leads to data, trailer or tail |
| `HttpChunked.ChunkRoundTrip` | nbhttp/parser.go:522-602 | a chunk is delivered with exactly its bytes |
| `HttpChunked.ChunksRoundTrip` | nbhttp/parser.go:522-602 | a list of chunks is delivered in order, each once |
| `HttpChunked.LastChunk` | nbhttp/parser.go:561-576 | the zero chunk leads to the trailers if any are announced, else to the tail |
| `HttpChunked.TrailerRoundTrip` | nbhttp/parser.go:604-689 | every trailer field: with a value it is delivered up to the first space and struck off, or refused when nothing announced is left; without one it is delivered as a space and not struck off |
| `HttpChunked.TrailerKept` | nbhttp/parser.go:645-684 | an announced field is delivered as written if and only if its value is not empty and has no space, and struck off if and only if it is not empty |
| `HttpChunked.TwoWords` | nbhttp/parser.go:665-684 | of a value of two words the first is delivered |
| `HttpChunked.TrailersRoundTrip` | nbhttp/parser.go:604-689 | any list of trailer fields after any announcement is delivered in order, with the names that come with a value struck off, unless one comes with a value when nothing announced is left |
| `HttpChunked.ChunkedRoundTrip` | nbhttp/parser.go:522-702 | for any chunks, announcement and trailer fields the body is read to its end if and only if the fields fit the announcement; then all is delivered in order, then the message, consuming every byte |
| `HttpChunked.FeedTrailers` | nbhttp/parser.go:611-624 | the same for the part after the last chunk; a missing announced name is the error that the code gives for it |
| `HttpChunked.FittingNames` | nbhttp/parser.go:611-684 | fields of different names, announced as they are, fit if and only if each has a value |
| `HttpChunked.EmptyTrailerFails` | nbhttp/parser.go:648-657 | one announced trailer field without a value makes the message fail |
| `HttpMessages.FieldsRoundTrip` | nbhttp/parser.go:375-490 | any list of fields, with values or without, is delivered in order |
| `HttpMessages.SplitJoin` | nbhttp/parser.go:808-818 | comma-joined trailer names come apart into themselves |
| `HttpMessages.Announced` | nbhttp/parser.go:780-825 | parseTrailer finds exactly the announced names |
| `HttpMessages.FramingRead` | nbhttp/parser.go:728-825 | the length, coding and trailer names read at the blank line are those of the body that was framed |
| `HttpMessages.ContentRoundTrip` | nbhttp/parser.go:491-702 | the body after the blank line, empty, sized or chunked, is read if and only if its trailers fit, and then delivered and ends the message |
| `HttpMessages.RequestRoundTrip` | nbhttp/parser.go:217-705 | every valid request is read to its end if and only if its trailers fit, and then is one message and leaves the parser as new |
| `HttpMessages.ResponseRoundTrip` | nbhttp/parser.go:217-705 | the same for every response whose reason has a letter with no space before it; with a space first it is refused, without either the rest is read as the reason |
| `HttpRefusals.FirstRefusal` | nbhttp/processor.go:98-103 | the event up to which a refused record goes is the first at which the processor is asked and refuses; there is none if and only if none is refused |
| `HttpRefusals.StepAnswers` | nbhttp/parser.go:217-705 | a byte has the effect it has when nothing is refused, unless it completes a target or version that is refused, which is then the error |
| `HttpRefusals.BodyAnswered` | nbhttp/parser.go:508-521 | the last byte of a body or chunk: refused, it ends the connection with that error and the body in the record; taken, a sized body ends its message and a chunk awaits its line end |
| `HttpRefusals.JudgedRecord` | nbhttp/parser.go:260-268 | an event decides the fate of the connection if and only if it is the first one that is refused |
| `HttpRefusals.RefusalExact` | nbhttp/parser.go:166-725 | for every stream and every processor: the parser does what it does when nothing is refused, or, if something in that record is, ends with the first refusal and the record up to it |
| `HttpAnswers.RequestVersion` | nbhttp/parser.go:274-290 | the version of a request, taken or refused |
| `HttpAnswers.ResponseVersion` | nbhttp/parser.go:298-310 | the version of a response, taken or refused |
| `HttpAnswers.VersionRefused` | nbhttp/parser.go:298-310 | a response whose version is refused ends there, whatever follows |
| `HttpAnswers.RequestExact` | nbhttp/parser.go:217-705 | every valid request before any processor: delivered if and only if its trailers fit and nothing is refused; the first refused target, version or body decides error and record |
| `HttpAnswers.ResponseExact` | nbhttp/parser.go:217-705 | the same for every response with a word in its reason |
| `HttpErrors.CharTables` | nbhttp/table.go:26-104 | the token characters are those of section 5.6.2 of RFC 9110; letters, digits and hexadecimal digits are the ASCII ones |
| `HttpErrors.MethodTable` | nbhttp/table.go:10-24 | the valid methods are the ten known ones |
| `HttpErrors.MethodChars` | nbhttp/table.go:115-124 | a method may start with exactly the letters that occur in a method, in either case |
| `HttpErrors.MethodExact` | nbhttp/parser.go:227-247 | a word is read as a method if and only if it starts with such a letter and is one of the ten in upper case; otherwise it is an invalid method |
| `HttpErrors.RequestLineErrors` | nbhttp/parser.go:227-290 | each error of the request line, if and only if: the states and bytes at which it occurs |
| `HttpErrors.StatusLineErrors` | nbhttp/parser.go:291-367 | the same for the status line |
| `HttpErrors.HeaderErrors` | nbhttp/parser.go:375-507 | the same for the header fields |
| `HttpErrors.ChunkErrors` | nbhttp/parser.go:522-603 | the same for chunk sizes and the line ends of chunks |
| `HttpErrors.TrailerErrors` | nbhttp/parser.go:604-689 | the same for the trailer fields |
| `HttpErrors.TrimExact` | nbhttp/parser.go:738-740 | trimming takes off the spaces, tabs and line ends at both ends, and only those |
| `HttpErrors.NamesExact` | nbhttp/parser.go:808-818 | a list of trailer names is an error if and only if one of them is a framing field, and otherwise the set of those that are not blank |
| `HttpErrors.SetExact` | nbhttp/parser.go:794-820 | the same for all values of the Trailer field |
| `HttpErrors.FramingExact` | nbhttp/parser.go:727-828 | the blank line: with Transfer-Encoding the message is chunked whatever Content-Length says, or one of two errors; otherwise Content-Length decides; the trailer names are those announced |
| `HttpLoose.MagnitudeExact` | nbhttp/parser.go:147-160 | a string has a value in a base if and only if all of it is digits of the base |
| `HttpLoose.UpperSame` | nbhttp/parser.go:147-160 | upper-case and lower-case digits have the same value |
| `HttpLoose.AnySize` | nbhttp/parser.go:522-577 | every size line, with digits of either case, any zeros and any extension: the size is the value of its digits if below two to the 62nd, and otherwise an error |
| `HttpLoose.UpperSize` | nbhttp/parser.go:522-577 | a size printed in upper case after a zero is read like the one printed |
| `HttpLoose.LengthNumber` | nbhttp/parser.go:748-777 | the first Content-Length value, with a sign and trailing spaces or without: the length, or the error for a negative or too large one |
| `HttpLoose.LengthNoNumber` | nbhttp/parser.go:748-777 | a Content-Length with anything but digits after its sign is an error |
| `HttpLoose.FirstWordOfVersion` | nbhttp/parser.go:274-290 | only the first word of a version counts |
| `HttpLoose.FirstWordOfName` | nbhttp/parser.go:416-434 | what follows a space in a field name is dropped |
| `HttpLoose.SpacesBeforeValue` | nbhttp/parser.go:435-465 | any number of spaces before a field value is like one |
| `HttpMessages.BodyUntilClose` | nbhttp/parser.go:491-506 | a response without a length is delivered without a body, and its body read as the next response |
| `WsMask.MaskedTwice` | nbhttp/websocket/conn.go:1218-1252 | masking twice with one key restores the bytes |
| `WsMask.WordXor` | nbhttp/websocket/conn.go:1219-1225 | a little-endian 64-bit word combined with the doubled key is its eight bytes combined with the key bytes |
| `WsMask.MaskXOR` | nbhttp/websocket/conn.go:1218-1252 | the loops by 64 bytes, 8 bytes and single bytes together combine byte i with key byte i mod 4 and touch nothing else |
| `WsFrame.PutGet` | nbhttp/websocket/conn.go:337-350 | big-endian lengths of any width are read back |
| `WsFrame.NextFrameMonotone` | nbhttp/websocket/conn.go:313-386 | more bytes never change a frame or an error that fewer bytes decided |
| `WsFrame.LengthRead` | nbhttp/websocket/conn.go:337-353 | the three length encodings the writer chooses are read back with their header length and mask bit |
| `WsFrame.ReadWritten` | nbhttp/websocket/conn.go:892-948 | nextFrame takes off what writeFrame lays out: same opcode, FIN and payload, masked or not, whatever follows |
| `WsFrame.ReadRefused` | nbhttp/websocket/conn.go:354-360 | a written frame that passes the message limit together with the partial message is refused |
| `WsFrame.ReadFragmented` | nbhttp/websocket/conn.go:1128-1130 | a written control frame without FIN is refused |
| `WsAnyFrame.WireRead` | nbhttp/websocket/conn.go:328-380 | every header, with any bits and its length in any of the three forms, is read back with its payload |
| `WsAnyFrame.AnyFrame` | nbhttp/websocket/conn.go:313-386 | a complete frame is taken if and only if it is within the limit, is no close, ping or pong above 125 bytes, has no reserved bit and no opcode from 3 to 7, has FIN if its opcode is above 7, and starts no message inside another; otherwise the first of these is the error |
| `WsAnyFrame.PartOfFrame` | nbhttp/websocket/conn.go:367-382 | a proper part of such a frame is no frame yet |
| `WsAnyFrame.AnyFrameDrained` | nbhttp/websocket/conn.go:540-585 | what the reader does with every frame: each error, with 1009 sent when something is too long; control frames passed on at once; opcodes above 10 refused; data put where it belongs |
| `WsAnyFrame.EncodeIsLayout` | nbhttp/websocket/conn.go:892-948 | a written frame is the one with no reserved bit and the shortest length form |
| `WsAnyFrame.LongControlRefused` | nbhttp/websocket/conn.go:362-365 | a written close, ping or pong above 125 bytes, with any key, is refused and answered with 1009 |
| `WsAnyFrame.NegativeLength` | nbhttp/websocket/conn.go:343-350 | a 64-bit length is refused as negative if and only if its first bit is set, whatever else the frame says |
| `WsReader.DeliverBounded` | nbhttp/websocket/conn.go:354-360 | the partial message stays within the message limit |
| `WsReader.DrainAppend` | nbhttp/websocket/conn.go:459-582 | draining early and again with more bytes is draining once |
| `WsReader.DrainDrains` | nbhttp/websocket/conn.go:576-582 | Parse leaves no complete frame in the cache |
| `WsReader.SegmentationInvisible` | nbhttp/websocket/conn.go:391-585 | any cut that passes the read limit gives the events, first error, cache and partial message of the whole stream in one read |
| `WsReader.TooLongCut` | nbhttp/websocket/conn.go:421-425 | any other cut ends with the too-long error, after the reads before it have had the effect of their bytes in one read |
| `WsReader.WithinLimit` | nbhttp/websocket/conn.go:421-425 | a stream within the read limit passes the check however it is cut |
| `WsConn.Reader.constructor` | nbhttp/websocket/conn.go:1041-1065 | a new reader has no cache, no partial message and no events |
| `WsConn.Reader.TakeFrame` | nbhttp/websocket/conn.go:313-386 | the in-place reader takes the specified frame and leaves the bytes after it untouched, so none is unmasked twice |
| `WsConn.Reader.Unmask` | nbhttp/websocket/conn.go:373-377 | unmasking in the cache gives the payload and changes no byte after the frame |
| `WsConn.Reader.Dispatch` | nbhttp/websocket/conn.go:476-534 | a frame has the specified effect on message, type, expectation and events |
| `WsConn.Reader.Parse` | nbhttp/websocket/conn.go:391-585 | one read does what the specification does; empty and closed reads change nothing |
| `WsConn.ReadLoop` | nbhttp/websocket/conn.go:391-585 | any list of reads ends where the specification does, stopping at the first error |
| `WsFragments.ControlStep` | nbhttp/websocket/conn.go:529-534 | a control frame between fragments is delivered in place and leaves the partial message alone |
| `WsFragments.DataStep` | nbhttp/websocket/conn.go:478-528 | a data frame extends the open run, and with FIN delivers it as one message of its first frame's type |
| `WsFragments.Reassembly` | nbhttp/websocket/conn.go:459-582 | draining any cache, to its end or to an error, gives the events of the frames taken, each where its frame stands, and every run of data frames that ends in FIN has a typed frame at most at its start |
| `WsFragments.Projections` | nbhttp/websocket/conn.go:476-534 | of those events the messages are the runs that end in FIN put together, with their first frame's type, and the control messages are the control frames |
| `WsFragments.StreamReassembled` | nbhttp/websocket/conn.go:391-585 | both for every stream read by a new connection, whether it ends open, with the open run as partial message, or in an error, with the close frame that answers it |
| `WsFragments.MessagesTyped` | nbhttp/websocket/conn.go:1118-1135 | every message of a stream is text or binary if and only if no run delivered starts with a continuation frame |
| `WsFragments.ContinuationAlone` | nbhttp/websocket/conn.go:1118-1135 | a continuation frame with nothing to continue is delivered as a message without a type |
| `WsWriter.Writer.constructor` | nbhttp/websocket/conn.go:1041-1065 | a new writer has sent nothing |
| `WsWriter.Writer.WriteFrame` | nbhttp/websocket/conn.go:892-1001 | the bytes put together in the buffer are the specified frame, masked for a client; the error is that of the write |
| `WsWriter.Writer.WriteMessage` | nbhttp/websocket/conn.go:664-727 | a message is cut into frames of the maximal size, opcode on the first, FIN on the last, written up to the first write that fails; closed and over-long control writes send nothing |
| `WsWriter.MadeExact` | nbhttp/websocket/conn.go:715-718 | all writes are made if none fails; otherwise the last one made fails, and no earlier one |
| `WsRoundTrip.MessageDelivered` | nbhttp/websocket/conn.go:707-726 | the frames of a message, followed by anything, leave the reader with its message delivered and the rest to read |
| `WsRoundTrip.MessageRefused` | nbhttp/websocket/conn.go:354-360 | the frames of a message that passes the limit end with 1009, whatever their size |
| `WsRoundTrip.RoundTrip` | nbhttp/websocket/conn.go:664-727 | for every payload, frame size, key and role a fresh peer gets exactly the message, and is fresh again, if the payload is within its limit, and refuses it otherwise |
| `WsRoundTrip.RoundTripAnyCut` | nbhttp/websocket/conn.go:391-585 | the same from any cut of the bytes |
| `WsRoundTrip.ControlRoundTrip` | nbhttp/websocket/conn.go:674-678 | a control message reaches the peer at once, also inside a fragmented message, if and only if it fits one frame, has at most 125 bytes and is within the limit together with the partial message; otherwise it is refused, in the stated way |
| `WsRoundTrip.PingInside` | nbhttp/websocket/conn.go:354-360 | a ping of one byte inside a message that fills the limit ends the connection with 1009 |
| `Upgrade.Serve` | nbhttp/parser.go:203-222 | read by read, parser and WebSocket reader together end as if the bytes after the handshake had come in one read; the reader's first error ends the reading and is returned |
| `WriteList.SnocList` | conn_unix.go:37-43 | an entry at the end adds its bytes at the end of the queued stream |
| `WriteList.GrowLast` | conn_unix.go:49-68 | bytes joined to the tail buffer go to the end of the queued stream |
| `WriteList.SwapOwned` | conn_unix.go:58-65 | a tail that moves to a larger buffer releases the old one and owns the new one |
| `WriteList.PopBytes` | conn_unix.go:900-917 | what the kernel took from the head is what the queued stream loses at its front |
| `WriteList.PopOwned` | conn_unix.go:909-914 | an entry sent completely is released once |
| `WriteQueue.Conn.constructor` | conn_unix.go:94-150 | a new connection has nothing queued, accepted or watched |
| `WriteQueue.Conn.NewToWriteBuf` | conn_unix.go:33-69 | bytes are appended to the stream and counted, with every buffer owned once; they join the last entry if and only if it is a buffer that stays within 65536 bytes, and are a new entry otherwise |
| `WriteQueue.Conn.NewToWriteFile` | conn_unix.go:72-78 | a file range is appended to the stream and not counted as buffered |
| `WriteQueue.Conn.CloseNow` | conn_unix.go:1024-1047 | every entry is released and onClose is called for the only time |
| `WriteQueue.Conn.CloseWithError` | conn_unix.go:1002-1021 | the connection is closed; closing again changes nothing |
| `WriteQueue.Conn.SendHead` | conn_unix.go:900-939 | one kernel reply on the head keeps conservation, accounting, limit and ownership, and takes from the head what it says |
| `WriteQueue.Conn.Flush` | conn_unix.go:809-973 | flush keeps the invariants under any replies; it reports a broken socket and closes if and only if its run meets one, does not return if and only if its run brings an empty range, or a range of a file that has ended, to the head, and otherwise leaves exactly what its calls have left |
| `FlushRun.Ends` | conn_unix.go:942-969 | the call at which the loop ends decides whether it hangs and whether it breaks |
| `FlushRun.EndsOneWay` | conn_unix.go:942-969 | every loop ends in exactly one of three ways: hanging, broken, or with a list left because nothing is to send or the socket is full |
| `FlushRun.HangsOnEnd` | conn_unix.go:918-939 | without an empty range on the list only a file that ends while queued makes flush hang |
| `FlushRun.EmptyRangeHangs` | conn_unix.go:918-939 | a range of no bytes at the head makes flush hang under any replies |
| `FlushRun.EndedFileHangs` | conn_unix.go:920-938 | a file of two bytes that ends after the first makes flush hang |
| `WriteQueue.Conn.Write` | conn_unix.go:363-395 | all bytes are accepted, sent or queued behind what waits, or nothing is accepted and the connection is closed; which of the two, how many bytes go out at once and what is added to the list are stated; interest is registered exactly while data waits |
| `WriteQueue.Conn.WriteLocked` | conn_unix.go:715-746 | an overflowing write is refused before any byte is sent; otherwise the error is exactly a first reply that breaks the socket when nothing is queued, that reply says how many bytes go out at once, and the rest is queued |
| `WriteQueue.Conn.Range` | sendfile_unix.go:42-45 | the range never reaches beyond the file |
| `WriteQueue.Conn.Wanted` | sendfile_unix.go:42-45 | the range asked for: the rest of the file when the number is not positive or too large, else as many bytes |
| `WriteQueue.Conn.Sendfile` | sendfile_unix.go:23-112 | the bytes taken are the stated part of the file, in order; on an empty list the number reported is the number taken if and only if the replies are truthful; a non-empty list, a failed dup, errors and empty ranges have the stated results |
| `WriteQueue.Conn.SendDirect` | sendfile_unix.go:70-110 | the direct loop takes exactly what the run of kernel replies lets it take, and queues the rest with interest registered |
| `SendfileRun.RunExact` | sendfile_unix.go:77-109 | how the direct loop ends, in terms of the replies that its calls meet |
| `SendfileRun.CallSize` | sendfile_unix.go:77-79 | on a socket that takes all it is offered, k calls send exactly up to k times 4 MiB |
| `SendfileRun.KeepsWord` | sendfile_unix.go:77-111 | Sendfile reports what it has taken if and only if its calls meet no end of the file, and a full socket only with a descriptor to spare; it takes all if and only if, besides, they meet no broken socket |
| `WriteQueue.EarlyEndLoses` | sendfile_unix.go:87-89 | a call on a file that has ended reports the whole of it as sent, without an error, and sends nothing |
| `WriteQueue.Drive` | conn_unix.go:363-395 | over every run of Write, Sendfile, flush and close: while open, wire and queue together are, call by call, the payloads written and the stated share of each file range, and interest is registered exactly while data waits; once closed, the wire is a start of the payloads accepted and of what the closing call offered; the run stops at a flush if and only if that flush hangs, which takes an empty range or a reply that a file has ended; a call closes the connection if and only if it is a write above the limit, a call that meets a broken socket, or a close; a flush that returns leaves what its calls have left |
| `WriteQueue.Perform` | conn_unix.go:363-395 | one operation of such a run |
| `Writev.Requeue` | conn_unix.go:765-790 | the requeue loop queues the rest of the slice in which the write stopped |
| `Writev.ConservedIff` | conn_unix.go:749-797 | sent and queued bytes are all bytes if and only if the write reached into the last slice that is not empty |
| `Writev.SecondSliceLost` | conn_unix.go:770-790 | of two slices of one byte each, with one byte written, the second is lost |
| `JobQueue.NextInOrder` | conn.go:185-261 | steps of a first-in first-out queue keep what has started a prefix of what was accepted |
| `ConnJobs.TakeStep` | conn.go:244-258 | the runner never finds a job already taken, and ends exactly when the list is empty |
| `ConnJobs.StepKeeps` | conn.go:185-261 | every locked section and every job is a step of a first-in first-out queue |
| `ConnJobs.ExactlyOnceInOrder` | conn.go:185-261 | at most one runner, one exactly while jobs are listed, jobs start once each in order of acceptance, and an idle connection has started all |
| `ConnJobs.AcceptedExact` | conn.go:185-223 | on every run the connection is closed if and only if a close was among its steps, and the jobs accepted are those submitted by MustExecute, and by Execute before the close, in order |
| `ConnJobs.ClosedRejects` | conn.go:187-190 | after the close Execute accepts nothing on any continuation |
| `ConnJobs.CloseJobLast` | nbhttp/engine.go:1185-1199 | the close job, accepted after the close, starts after every job that Execute accepted |
| `ConnJobs.Drains` | conn.go:225-261 | from every reachable state a number of steps of the runner alone, known beforehand, starts every accepted job and empties the list |
| `ConnJobs.SubmittedStarts` | conn.go:185-261 | a job submitted by Execute while open is started by the runner's own steps |
| `TimerJobs.StepKeeps` | timer/timer.go:77-113 | every step of Async and its runner is a step of a first-in first-out queue |
| `TimerJobs.ExactlyOnceInOrder` | timer/timer.go:77-113 | at most one runner, one exactly while the list is not empty, functions called once each in order, all of them once idle |
| `TimerJobs.AcceptedExact` | timer/timer.go:77-82 | the functions accepted are all those submitted, in order |
| `TimerJobs.Drains` | timer/timer.go:83-112 | from every reachable state a number of steps of the runner alone, known beforehand, calls every accepted function and empties the list |
| `WsSendQueue.ProceedStep` | nbhttp/websocket/conn.go:970-988 | while open the writer never finds a buffer already taken |
| `WsSendQueue.StepKeeps` | nbhttp/websocket/conn.go:950-995 | senders, writer and close each take a step of a first-in first-out queue and keep every buffer owned once |
| `WsSendQueue.EachOnce` | nbhttp/websocket/conn.go:846-851 | at most one writer, frames written once each in order, no buffer freed twice, and all freed once closed and the writer gone |
| `WsSendQueue.Drains` | nbhttp/websocket/conn.go:960-994 | while no write has failed, the writer's own steps write every accepted frame and empty the queue |
| `WsSendQueue.BrokenStays` | nbhttp/websocket/conn.go:965-968 | after a failed write no frame is ever written again |
| `WsSendQueue.WrittenExact` | nbhttp/websocket/conn.go:960-994 | the writer alone can write every accepted frame if and only if no write has failed, or none was left |
| `WsSendQueue.AcceptedInVain` | nbhttp/websocket/conn.go:950-968 | a run in which a frame is accepted after a failed write and never written |
| `WsSendQueue.Ends` | nbhttp/websocket/conn.go:831-851 | from every reachable state the close and at most two steps of the writer leave no writer, and every buffer freed exactly once |
| `WsSendMessages.QueuedExact` | nbhttp/websocket/conn.go:707-724 | how many frames of a message a bounded queue accepts |
| `WsSendMessages.FramesAreSends` | nbhttp/websocket/conn.go:707-724 | writing a message is a run of single frames, so the results on those runs hold of it |
| `WsSendMessages.TagsCount` | nbhttp/websocket/conn.go:950-955 | the framing of a run has one mark for each accepted frame |
| `WsSendMessages.WholeMessages` | nbhttp/websocket/conn.go:950-954 | the accepted frames are whole messages, one after the other, if and only if no message found room for its first frame and not for all |
| `WsSendMessages.ThreeOnTwo` | nbhttp/websocket/conn.go:950-954 | of a message of three frames a queue of two accepts two, without an end |
| `TaskPool.NewPool` | taskpool/taskpool.go:132-160 | a new pool satisfies the invariant, with the maximum asked for or one |
| `TaskPool.StepKeeps` | taskpool/taskpool.go:30-127 | every atomic step keeps the counter equation, the bound on workers and the one place of every task |
| `TaskPool.Safety` | taskpool/taskpool.go:30-127 | the same over every interleaving |
| `TaskPool.AcquireExact` | taskpool/taskpool.go:30-36 | an acquire succeeds if and only if the pool is not stopped and slots in use plus failed acquires in flight are below the maximum |
| `TaskPool.StoppedShrinks` | taskpool/taskpool.go:122-127 | after Stop the slots in use only get fewer: no worker starts |
| `TaskPool.NeverTwice` | taskpool/taskpool.go:52-69 | a finished task stays finished and is never queued or run again |
| `TaskPool.WatchedExact` | taskpool/taskpool.go:74-89 | a waiting dispatcher keeps someone who will wake it over a step if and only if the step is not a retry that fails with every slot free and no token or signal left |
| `TaskPool.AlwaysWatched` | taskpool/taskpool.go:41-47 | a waiting dispatcher has, throughout a run, someone who will wake it if and only if the run has no such retry |
| `TaskPool.StuckStays` | taskpool/taskpool.go:78-84 | once nobody is left to wake it, only another Go or Stop changes that |
| `TaskPool.WakeUpLost` | taskpool/taskpool.go:30-36 | a run that ends with tasks waiting, every slot free, and nobody to wake the dispatcher |
| `TaskPoolOrder.EnabledExact` | taskpool/taskpool.go:30-127 | each atomic step happens if and only if its stated condition holds |
| `TaskPoolOrder.QueueStep` | taskpool/taskpool.go:77-114 | a step leaves the queue alone, takes its first task, or adds a task that a caller carries at its end |
| `TaskPoolOrder.QueueShifts` | taskpool/taskpool.go:77-114 | over every run, the queue is later what is left of it after its first tasks, with other tasks behind |
| `TaskPoolOrder.FirstInFirstOut` | taskpool/taskpool.go:77-114 | on every run of a new pool, of two queued tasks the later is never gone before the earlier |
| `TaskPoolOrder.LifeCycle` | taskpool/taskpool.go:52-117 | a task gets a slot, or the dispatcher, only from where it may wait for it, and before no older queued task |
| `TaskPoolOrder.EndOfTask` | taskpool/taskpool.go:52-117 | a task is finished only by running, and dropped only where its caller or the dispatcher waits in a closed pool |
| `TaskPoolOrder.FinishedRan` | taskpool/taskpool.go:52-69 | a task that is finished was running at some point of the run |
| `TaskPoolProgress.Finishes` | taskpool/taskpool.go:41-117 | a pool that is neither stopped nor abandoned finishes every submitted task by its own steps |
| `TaskPoolProgress.AbandonedStays` | taskpool/taskpool.go:78-84 | an abandoned pool stays so under its own steps, with its task unfinished |
| `TaskPoolProgress.ProgressExact` | taskpool/taskpool.go:41-117 | every submitted task can be finished without another call if and only if the dispatcher is not abandoned |
| `TaskPoolProgress.NoneMissedFinishes` | taskpool/taskpool.go:41-89 | on every run without a missed wake-up every submitted task can be finished |
| `TaskPoolProgress.StopEnds` | taskpool/taskpool.go:122-127 | from every state, Stop and then the pool's own steps let all callers, workers and the dispatcher leave; every task has run, was dropped or is left in the queue |
| `TaskPoolProgress.EndIsFinal` | taskpool/taskpool.go:74-89 | what is then in the queue stays there for good |
| `TaskPoolProgress.LeftInQueue` | taskpool/taskpool.go:113-116 | a run in which a task is left in the queue of a stopped pool |
| `BodyReader.Reader.constructor` | nbhttp/body.go:192-202 | a new body is empty |
| `BodyReader.Reader.Append` | nbhttp/body.go:151-187 | data is added at the end, or refused exactly when it would exceed the body limit |
| `BodyReader.Reader.Read` | nbhttp/body.go:33-77 | the next bytes are delivered, as many as asked for or left; end of file exactly when closed or nothing is left; the guard for an empty list is never met |
| `BodyReader.Reader.Close` | nbhttp/body.go:82-100 | every buffer still in use is freed once, unread bytes are discarded, a second close does nothing |
| `BodyReader.Reader.RawBodyBuffers` | nbhttp/body.go:129-139 | the slices are non-empty and together are the unread bytes |
| `SizeClass.PoolBySize` | mempool/aligned_allocator.go:34-41 | the search finds the least class that holds the size, or 255 when there is none |
| `SizeClass.PoolSizes` | mempool/aligned_allocator.go:24-32 | class k has size 32 shifted left by k |
| `SizeClass.InitTables` | mempool/aligned_allocator.go:23-46 | the tables map every size up to 32768 to the least class that holds it |
| `SizeClass.FreeExact` | mempool/aligned_allocator.go:123-131 | Free files every capacity under its own class if and only if it is a class, not a multiple of 32, or too large |
| `SizeClass.ForeignCapacity` | mempool/aligned_allocator.go:123-131 | a foreign buffer of 96 bytes is filed under 128, where Malloc(100) finds it |
| `Allocator.Aligned.constructor` | mempool/aligned_allocator.go:23-57 | a new allocator has correct tables and empty buckets |
| `Allocator.Aligned.Get` | mempool/aligned_allocator.go:73-75 | an array from a bucket has the size of the class and is held by nobody else; it is the one picked, which leaves the bucket, or a new one |
| `Allocator.Aligned.Malloc` | mempool/aligned_allocator.go:66-81 | the least class that fits, the exact length above the maximum, nothing for a negative size; no other holder's array changes |
| `Allocator.Aligned.Realloc` | mempool/aligned_allocator.go:84-94 | as much of the contents as fits is kept, in the same array if and only if its capacity is enough, else in a new one with the old freed |
| `Allocator.Aligned.Append` | mempool/aligned_allocator.go:98-108 | the contents are the old ones and the new bytes, in the same array if and only if there is room; no other holder's array changes |
| `Allocator.Aligned.Free` | mempool/aligned_allocator.go:123-131 | a buffer freed by its holder has no holder, and goes to the end of the bucket of its size if and only if that is at most 32768 |
| `Allocator.Aligned.FreeThenMalloc` | mempool/aligned_allocator.go:66-131 | a freed buffer within the maximum can be given out again to the next caller |

## Left out

- Compression and decompression of WebSocket messages, and with them the length limit on decompressed data and the UTF-8 checks.
- The standard library functions that the parser calls (URL and version parsing, canonical header keys, case mapping) are parameters of the HTTP model; the round trips ask of them only what `StandardLibrary` in HttpMessages.dfy says.
- The Processor is a recorder of events; whether it rejects a URL, version or body, and whether a message installs a new protocol, is a fixed function of the events so far, decided when the message is complete.
- HttpParser.Parser.Parse: the fields that the states share are one record, so that update of single fields in place is not visible in the class; buffers of the cache are values, so their return to the pool is not modelled.
- The HTTP parser's CloseAndClean and the deadlines set between requests.
- HttpMessages.RequestRoundTrip: valid means one space between the parts and before a field value, a value that does not start with a space, chunk sizes without extensions, and framing fields laid out once; the parser accepts more, some of which is in HttpLoose. All trailer fields sent are announced; other announcements are in HttpChunked.ChunkedRoundTrip.
- FormatInt.Format: bases 10 and 16 only, the ones in use.
- The rest of Response: head encoding, chunk output and flushing.
- WsConn.Reader.Parse: messageHandler is set; the handlers are a recorder of events, do not close the connection, and the panic handler is not modelled.
- WsReader.SegmentationInvisible: cached bytes and partial message together are below 2^63, which a Go slice guarantees.
- HttpParser.Parser.HandOff: the error that the new protocol returns is not part of the parser model; Upgrade.Serve, which runs both, returns it.
- WsWriter.Writer.WriteMessage: payloads below 2^63 - 14 bytes and opcodes of four bits; frames go to the connection at once, the asynchronous queue being WsSendQueue; whether a failed write sent part of its frame is open.
- WsSendMessages.WholeMessages: the frames of a message are queued in one step, as the lock is held; WriteFrame of a single frame without FIN is not part of its runs.
- WsSendQueue.EachOnce: the writes themselves may fail at any time but are not tied to the write queue of the connection below.
- WriteQueue.Conn.Flush: level-triggered polling only; re-arming for oneshot events, AsyncRead, dialing connections, UDP, write deadlines and the written-size callback are not modelled.
- WriteQueue.Conn.Flush: a run of kernel replies is finite, after which the socket is full; a file that has ended stays so, and does not grow again while flush asks for more of it.
- WriteQueue.Conn.Sendfile: errors of Seek, Stat and SetNonblock, a nil file, and a duplicated descriptor with number 0.
- Writev.Requeue: the requeue arithmetic only; the path with data already queued, on which an empty slice becomes an entry that cannot be retired, is not modelled.
- The job queues, the send queue and the task pool are state machines over values, one step per locked section or atomic operation, because several goroutines act on them; slices that keep their capacity when reset are not modelled.
- ConnJobs.ExactlyOnceInOrder: the executor runs every function that it is given; jobs that panic are recovered and count as run.
- TaskPool.Safety: the counter does not wrap around, a worker may find the queue empty although a caller is just arriving, and the select statements choose freely among what is ready.
- TaskPool.AlwaysWatched: that someone will wake the dispatcher, not that the scheduler lets it happen.
- BodyReader.Reader.Read: one goroutine at a time; Close during a Read of another goroutine is not modelled.
- Allocator.Aligned.Malloc: a buffer is a slice from the start of its array, named by a number; the pool may give any array of the bucket or a new one, and arrays that the garbage collector drops from a pool are not modelled. AppendString is Append.
- Sockets, pollers and system calls, TLS, proxies, dialing, logging, engine start and stop, and the Windows files.
