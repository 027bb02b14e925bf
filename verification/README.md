# EHS: a verified model of its parsers, protocols and byte algorithms

EHS is an embedded HTTP server library with a WebSocket stack among its samples. This project models the
parts of it that keep state across calls, in the form the source has (classes whose methods update their
fields, over a value-level specification of every step), and proves what those parts promise over all inputs,
all cuts of a byte stream and all interleavings of threads.

| part | files |
|---|---|
| WebSocket frames, endpoint, closing handshake (RFC 6455) | `WsFrame`, `WsFrameInvariant`, `WsCodec`, `WsEndpoint`, `WsSession`, `WsStream`, `WsHandshake` |
| HTTP requests, pipelining, chunked coding (RFC 2616) | `HttpSyntax`, `HttpRequest`, `HttpFields`, `HttpConnection`, `HttpSplit`, `HttpChunks`, `HttpStream`, `HttpMessages`, `HttpExamples` |
| dispatch of requests to threads | `EhsConnectionState`, `Dispatch`, `DispatchAccounting`, `DispatchLifetime`, `DispatchPending`, `DispatchLocks`, `DispatchThreads`, `DispatchOrder`, `DispatchRuns`, `EhsServer` |
| SHA-1 (FIPS PUB 180-1), UTF-8 (RFC 3629), Base64 (RFC 4648) | `BitFacts`, `Words`, `Sha1`, `Sha1Abc`, `Utf8`, `Base64` |
| shared definitions | `Bytes`, `Lists` |

`dafny verify dfyconfig.toml` checks everything.

How it is built: a method of a class is proved equal to a function on the value of its fields (`Consume` to
`Consumed`, `ParseData` to `Parse`, `AddBuffer` to `AfterRead`, `AddRxData` to `Rx`, `SendResponse` to `Sent`),
and the theorems are about these functions. The codecs are also compared with definitions that do not mention
the code: an encoder for section 5.2 of RFC 6455, the padded message and block function of FIPS PUB 180-1, the
octet sequences of section 4 of RFC 3629, the 24-bit groups of RFC 4648. What these definitions and the code have
in common is said once more without either: encodings octet by octet (`WsCodec.EncodingSays`), word operations bit
by bit and as numbers (`Words`), a whole digest (`Sha1Abc.DigestOfAbc`), requests by the lines of their message
(`HttpMessages.RequestTells`), replies by what is transmitted of them (`EhsServer.RepliesInOrder`), the order in
which threads get requests (`DispatchOrder.EveryRequestInOrder`). `EHSConnection` appears as two
classes, one for its reading side (`HttpConnection`) and one for its queues, counters and replies
(`EhsServer`), which share no more than the request count. The thread protocol is a state machine
whose steps lie between two lock operations. The invariants of `Dispatch`, `DispatchAccounting`,
`DispatchLifetime` and `DispatchPending` hold for every interleaving of enabled steps, which are more than the
code has; a feasible run (`DispatchLocks.Feasible`) is one in which, besides, no step locks the mutex of a
connection that another thread holds, and threads are created and look for requests as the mode of the server
says, `SERVERRUNNING_THREADPOOL` or `SERVERRUNNING_ONETHREADPERREQUEST`. Results about these modes are about
feasible runs, and every run exhibited in `DispatchRuns` is one. The application of a WebSocket endpoint is an
arbitrary function from what has happened so far to what it sends in a callback.

## What the code does not do

Each of these is proved, with the exact condition under which the code does meet the expectation and with an
input or a run for which it does not.

- The invariant documented for `consume` (samples/wsframe.h:207-213) fails exactly when a whole, acceptable
  header declares more than 100000000 bytes: the thrown string literal passes by the recovery code and leaves a
  parser that asks for no byte and throws again on every call (`WsFrameInvariant.ConsumeKeeps`,
  `WsCodec.HeaderVerdict`; ten such bytes in `WsStream.OversizedJams`).
- The first frame error is rethrown as a plain `std::exception` (samples/wsframe.h:304), which no handler in
  `AddRxData` catches. The rest of that read is lost and no close frame is sent. This happens exactly on
  streams made of valid messages after which the endpoint goes on and then of a header that breaks the rules
  (`WsStream.SlicedExactly`; two bytes in `WsStream.ReservedBitIsSliced`).
- An application that sends a message of more than 100000000 bytes from inside a callback has its endpoint close
  the session: the exception of `set_payload` is caught by `AddRxData` and answered with a close frame of code
  1009, and the rest of the read is lost (`WsStream.LeftExactly`; one ping in `WsStream.TalkerIsLeft`). This is
  the only way to the state CLOSING (`WsHandshake.ClosingExactly`).
- How the bytes are cut into reads matters exactly on streams with one of these two
  (`WsStream.FragmentationIndependence`).
- A close frame with code 1006 makes `AddRxData` throw a string literal for as long as the endpoint lives
  (`WsEndpoint.OnReadyKeeps`, `WsSession.JammedStays`; four bytes in `WsStream.Close1006Jams`).
- How an HTTP stream is cut into reads makes no difference exactly when what has been received has no CRLF
  where a request line is due and does not end inside the data of a chunk (`HttpStream.SplitIndependence`). In a
  stream of pipelined messages the latter are exactly the positions after at least one and at or before the
  last byte of a chunk's data (`HttpMessages.PartOfStream`). Streams from a new connection on are in
  `HttpExamples.CutChunkIsRejected` and `HttpExamples.BlankLines`.
- A trailer with more than one line makes a chunked request invalid, and no other trailer does
  (`HttpChunks.ChunkedRoundTrip`; a request in `HttpExamples.TwoTrailerLines`).
- `CheckDone` answers yes exactly when reading has ended and at most as many requests are queued, with threads
  or abandoned as immediate error replies were sent (`DispatchLifetime.RemovalExact`); a run of a thread pool in
  which such a reply deletes a connection with an unanswered request is `DispatchRuns.ReplyHidesRequest`.
- A connection can be deleted while the thread that has just sent its last reply is still to lock its mutex
  once more at the end of `AddResponse` (ehs.cpp:893-897), exactly when the sweep comes to it after reading has
  ended and nothing else is outstanding for it (`DispatchLifetime.DeletedUnderThread`,
  `DispatchLifetime.DanglingExactly`). An ordinary reply that closes the connection is enough, in a thread pool
  (`DispatchRuns.FreedRun`).
- `m_nRequestsPending` is incremented under the mutex of a connection (ehs.cpp:260) and decremented under the
  mutex of the server (ehs.cpp:512), so the two can overlap and an update can be lost. The number is right at
  every moment of a run exactly when no two updates overlap (`DispatchPending.PendingIsTotal`). A run with a lost
  update is `DispatchRuns.LostUpdateRun`, with one thread per request: `AddBuffer` gives up the mutex of the
  connection while it creates the thread (ehs.cpp:266-275), so this thread can take the request while the next
  one is being read, and the two updates then overlap.
- The accept flag is set with no thread in the accept section exactly when an exception was thrown there
  (`DispatchLifetime.OrphanedExactly`), and then for good (`DispatchLifetime.OrphanStays`); such a run, of a
  thread pool, is `DispatchRuns.ThrowRun`.
- A response whose declared content length exceeds its body is sent with memory behind the body
  (ehs.cpp:976-980), exactly then (`EhsServer.OwnBytesExactly`; a reply in `EhsServer.OverReadsOne`).

## Model

| member | source | states |
|---|---|---|
| `WsFrame.Parser.Consume` | samples/wsframe.h:222-307 | One call in place does to state, bytes needed, degraded flag, header and payload buffers, and to the stream, what the value-level step says, error outcomes included |
| `WsFrame.Parser.ProcessExtendedHeader` | samples/wsframe.h:653-716 | Length forms, minimality checks, the implementation limit and the payload buffer, in place |
| `WsFrame.Parser.ProcessPayload` | samples/wsframe.h:717-725 | Octet i of a masked payload is combined in place with octet i modulo 4 of the last four octets of the header, and an unmasked payload stays as it is |
| `WsFrame.Parser.Recover` | samples/wsframe.h:276-290 | The discarding loop stops right behind the first 0x88 byte or at the end of the stream |
| `WsFrame.Parser.SetOpcode` | samples/wsframe.h:365-380 | Accepts exactly the unreserved opcodes that fit the length already set, and changes only the low four bits |
| `WsFrame.Parser.SetPayload` | samples/wsframe.h:400-414 | Refuses exactly the payloads over the limit or too long for a control frame, and then changes nothing; otherwise stores the payload, the length code and the length in network byte order, keeping the mask bit |
| `WsFrameInvariant.ConsumeKeeps` | samples/wsframe.h:205-307 | Every call keeps the write indices in bounds and takes at least one byte; the documented invariant holds afterwards unless the call throws the string literal |
| `WsFrameInvariant.DegradedIsMinimal` | samples/wsframe.h:653-716 | A parser that resumes after an error cannot fail on a length |
| `WsFrameInvariant.WedgedStays` | samples/wsframe.h:706-712 | After an oversized frame every call throws again and consumes nothing |
| `WsFrameInvariant.CutConsume` | samples/wsframe.h:222-307 | One call on two pieces of input equals a call on the first and then one on the second, in every state |
| `WsFrameInvariant.RecoverySkips` | samples/wsframe.h:276-306 | After the first error everything before the next 0x88 is dropped, and the parser then is a fresh one that has read this byte, but for the degraded flag |
| `WsFrameInvariant.RecoveryWaits` | samples/wsframe.h:276-290 | Input without 0x88 is swallowed whole and the parser stays in recovery |
| `WsCodec.DecodeEncode` | samples/wsframe.h:222-307 | A fresh parser turns every message encoded as section 5 of RFC 6455 says, masked as in section 5.3 or not, back into FIN, opcode and payload and takes exactly its octets from the stream |
| `WsCodec.EncodingSays` | samples/wsframe.h:653-725 | What an encoded message is, octet by octet: FIN and opcode, mask bit and short length, the longer lengths in network byte order with leading zeros, the key, the payload |
| `WsCodec.ValidSays` | samples/wsframe.h:762-782 | Which messages there are: the six opcodes by number, control frames whole and of at most 125 octets, no payload of more than 100000000 |
| `WsCodec.ReadyFrameSays` | samples/wsframe.h:313-320 | The ready frame shows FIN, opcode and the unmasked payload, and its header string is the encoded header |
| `WsCodec.LengthFormUnique` | samples/wsframe.h:653-693 | A header that passes the checks carries the only length form the encoder would write, across 125/126 and 65535/65536 |
| `WsCodec.HeaderIsEncoded` | samples/wsframe.h:653-782 | Every header the checks let through is the encoding of what it says |
| `WsCodec.AcceptsExactlyEncodings` | samples/wsframe.h:222-307 | A fresh parser reaches READY without an error on exactly the streams that start with an encoded message |
| `WsCodec.HeaderVerdict` | samples/wsframe.h:653-782 | For every whole header: frame error if and only if the basic checks or minimality fail, string literal and a stuck parser if and only if it is acceptable but declares more than the limit |
| `WsEndpoint.Build` | samples/wsendpoint.h:229-239 | The setter sequence of all senders yields the encoded frame, or the setter's refusal |
| `WsEndpoint.AckIsValid` | samples/wsendpoint.h:368-413 | For every remote code but 1006 the acknowledgement fits 125 octets, so building it never throws; its code is neither invalid nor reserved; a valid remote code is echoed with its reason |
| `WsEndpoint.AckSays` | samples/wsendpoint.h:368-413 | The acknowledgement on the wire for every close frame but 1006: 1000 for an empty one or 1005, an echo for a code that may be used, otherwise 1002 with the reason text |
| `WsEndpoint.NoticeSays` | samples/wsendpoint.h:182-215 | The close frame with which a message over the limit is answered has code 1009 and the text of the exception |
| `WsEndpoint.MessageWire` | samples/wsendpoint.h:89-97 | A text message goes out with first octet 0x81 and a binary one with 0x82, with the length in its shortest form and the payload unmasked |
| `WsEndpoint.FramesSay` | samples/wsendpoint.h:229-239 | What the application sends in a callback goes out in order, up to the first message over the limit |
| `WsEndpoint.OnReadyKeeps` | samples/wsendpoint.h:170-220 | A ready frame is handled and leaves a fresh parser, whatever the application sends in the callback, except for the 1006 close, which throws and changes nothing; the loop is left only with the session no longer open |
| `WsEndpoint.RxTurnKeeps` | samples/wsendpoint.h:170-220 | Every turn of the receive loop that goes on has taken a byte, so the loop ends; which exceptions leave it, and in what state |
| `WsEndpoint.WsEndpoint.AddRxData` | samples/wsendpoint.h:170-220 | The receive loop in place: parser, session and the log of callbacks and sent frames after a read, and how the call ends |
| `WsEndpoint.WsEndpoint.ProcessControl` | samples/wsendpoint.h:415-444 | Dispatch of control frames, with the callbacks and answers they cause |
| `WsEndpoint.WsEndpoint.SendPong` | samples/wsendpoint.h:283-305 | A pong goes out only in OPEN; its octets are 0x8A, the length and the payload |
| `WsEndpoint.WsEndpoint.SendClose` | samples/wsendpoint.h:319-360 | Only in OPEN and with one of the codes 1000-1003, 1007-1011 and 3000-4999; then CLOSING and one frame with code and reason, octet by octet |
| `WsEndpoint.WsEndpoint.SendCloseAck` | samples/wsendpoint.h:368-413 | The acknowledgement, then shutdown; the exception for 1006 changes nothing |
| `WsEndpoint.WsEndpoint.Shutdown` | samples/wsendpoint.h:257-269 | `on_close` is called exactly on entering CLOSED, in that state |
| `WsEndpoint.WsEndpoint.Callback` | samples/wsendpoint.h:229-245 | A callback with what the application sends in it: every frame up to the first message over the limit, whose exception ends the callback |
| `WsStream.BadHeaderExactly` | samples/wsframe.h:222-307 | A fresh parser ends with the sliced error if and only if the bytes start with a header that breaks the rules of the first two octets or of the minimal length |
| `WsStream.SlicedExactly` | samples/wsframe.h:292-306 | A read slices a frame error if and only if its bytes are valid messages after which the endpoint goes on, and then such a header |
| `WsStream.LeftExactly` | samples/wsendpoint.h:182-215 | A read is left early with the session not closed if and only if its bytes are such messages, and then one in whose callback the application sends a message over the limit |
| `WsStream.FragmentationIndependence` | samples/wsendpoint.h:170-220 | After any earlier bytes, a read may be cut anywhere without a difference to parser, session, callbacks and answers, if and only if the bytes received so far offend in neither way |
| `WsStream.DegradedIsIndependent` | samples/wsframe.h:292-306 | Once an error was sliced nothing is dropped any more, and reads may be cut anywhere |
| `WsStream.JammedIsIndependent` | samples/wsframe.h:706-712 | The same once a string literal was thrown |
| `WsStream.AnyFragmentation` | samples/wsendpoint.h:170-220 | A stream that does not offend has the same effect in any number of reads |
| `WsStream.ReservedBitIsSliced` | samples/wsframe.h:292-306 | A header with a reserved bit and a close frame in one read: the close frame is lost; in the next read it closes the session |
| `WsStream.OversizedJams` | samples/wsframe.h:706-712 | A header that declares 100000001 bytes breaks the documented invariant, and every further read throws |
| `WsStream.Close1006Jams` | samples/wsendpoint.h:375-379 | A close frame with code 1006 leaves the session open, and every further read throws |
| `WsStream.TalkerIsLeft` | samples/wsendpoint.h:182-215 | An application that answers every callback with 100000001 bytes: after one ping the session is CLOSING, and what follows in the same read is lost |
| `WsSession.MessagesSurviveFragmentation` | samples/wsendpoint.h:170-220 | However a sequence of valid messages is cut into reads, the handler sees exactly these messages, unmasked and in order, up to the one that ends the session, if none of its callbacks sends a message over the limit |
| `WsSession.ThrowEndsCall` | samples/wsframe.h:292-306 | Whatever ends a call early on a prefix of a read makes the rest of the read disappear |
| `WsSession.JammedStays` | samples/wsendpoint.h:375-379 | After a string literal was thrown every further read throws it again and changes nothing |
| `WsHandshake.HandshakeSafety` | samples/wsendpoint.h:170-444 | Over every run of reads and application sends, in callbacks and between reads: the log has the shape of a correct session, CLOSING does not lead back to OPEN, CLOSED is final, and after it only application data is sent |
| `WsHandshake.ShapeSays` | samples/wsendpoint.h:257-444 | What that shape means: CLOSED if and only if `on_close` was called, at most once; at most one close frame, either the answer to a message over the limit or a valid acknowledgement directly before `on_close`; no pong after it, and nothing but data after `on_close` |
| `WsHandshake.ClosingExactly` | samples/wsendpoint.h:170-220 | A turn of the receive loop enters CLOSING if and only if a message other than a close frame gets ready in it and the application sends a message over the limit in the callback |
| `HttpSyntax.NextLineStable` | httprequest.cpp:636-647 | A line that is there stays the first line whatever arrives behind it |
| `HttpSyntax.ChunkSizeRoundTrip` | httprequest.cpp:493-522 | Every length that fits `size_t` is read back from its hexadecimal line, with or without an extension |
| `HttpSyntax.ChunkSizeSays` | httprequest.cpp:493-522 | Any spelling of a length, in upper, lower or mixed case and with leading zeros, is read as the number it stands for, or as the largest `unsigned long` if that is smaller |
| `HttpSyntax.ChunkSizeOnly` | httprequest.cpp:493-522 | Every line with a chunk length is hexadecimal digits, an extension without carriage returns, and CRLF |
| `HttpRequest.TurnProgress` | httprequest.cpp:276-598 | Every turn shortens the buffer or moves to a state of lower rank, also when the empty trailer is pushed back |
| `HttpRequest.ParseSuffix` | httprequest.cpp:264-600 | Parsing leaves a suffix of the buffer |
| `HttpRequest.HttpRequest.ParseData` | httprequest.cpp:264-600 | The loop over the request's fields and the caller's buffer, in place, against the recursive specification |
| `HttpFields.NamesAgree` | ehstypes.h.in:47-55 | Header names are the same if and only if they differ in the case of letters at most |
| `HttpFields.HeadersAre` | httprequest.cpp:311-404 | Header lines are accepted if and only if each is one of a field that is new or may be repeated, or a continuation; then every field has the values of its lines in order, joined by ", ", continuations by " " |
| `HttpMessages.HeadVerdict` | httprequest.cpp:264-404 | A head made of whole lines is accepted if and only if the method is one of eight, the lines are acceptable, and HTTP/1.1 comes with a host; otherwise the request is invalid |
| `HttpMessages.ValidExactly` | httprequest.cpp:264-600 | The messages that the parser completes are those with an acceptable head followed by what it announces: nothing, as many bytes as declared, or chunks |
| `HttpMessages.RequestTells` | httprequest.cpp:264-600 | The completed request has method, URI and version of the request line, the fields of the header lines and the body of the message, read off the message alone |
| `HttpConnection.CutParse` | httprequest.cpp:264-600 | How parsing a longer buffer relates to parsing its beginning, for each reason to stop |
| `HttpConnection.EHSConnection.AddBuffer` | ehs.cpp:236-290 | Verdict, stored buffer, current request and queue of completed requests after a read; the outer loop ends |
| `HttpConnection.BufferBounded` | ehs.cpp:246-253 | The stored bytes never exceed the maximum request size and are the last ones received; which verdict a read gets, as equivalences: refused exactly when the limit would be exceeded, and then nothing changes |
| `HttpStream.StopsExactly` | httprequest.cpp:276-598 | The parser leaves bytes unread without a verdict in exactly two cases: a CRLF where a request line is due, and a stream that ends inside the data of a chunk |
| `HttpStream.SplitIndependence` | ehs.cpp:236-290 | It makes no difference whether the following bytes come with this read or the next, if and only if neither is the case for what has been received |
| `HttpStream.AnySplit` | ehs.cpp:236-290 | A stream without a CRLF where a request line is due, cut anywhere but inside chunk data, gives the same completed requests, request in progress, verdict and rest as in one read |
| `HttpStream.PlainSplit` | ehs.cpp:236-290 | If no request that the stream completes or begins is chunked, it may be cut anywhere |
| `HttpStream.SplitsAgree` | ehs.cpp:236-290 | Two such cuts of a stream agree with the size check in force, however long the stream is, if no single read is refused |
| `HttpMessages.PumpMessages` | ehs.cpp:254-290 | A stream of well-formed messages in one read queues exactly these requests, in order, each as its message tells |
| `HttpMessages.PartOfStream` | httprequest.cpp:264-600 | At every position of such a stream the parser waits for more, except inside the data of a chunk, where it stops early |
| `HttpMessages.MessagesSurviveCuts` | ehs.cpp:236-290 | Cut anywhere but inside chunk data, a stream of pipelined well-formed messages queues exactly these requests, in order, each with the method, URI, version, fields and body that its message tells |
| `HttpMessages.FirstMessages` | ehs.cpp:236-290 | The same from a new connection on, with the requests numbered from 1 |
| `HttpMessages.BlankEndsRead` | httprequest.cpp:284-291 | A CRLF between two pipelined requests leaves everything behind it unread until more bytes arrive |
| `HttpChunks.ChunkedRoundTrip` | httprequest.cpp:406-525 | A chunked body ends with the concatenation of its chunks and leaves exactly the bytes behind it; complete if and only if the trailer has at most one line and a multipart body passes its check |
| `HttpChunks.CutOfBody` | httprequest.cpp:406-525 | The positions of a whole chunked body, last-chunk line and trailer included, at which a read must not end, exactly: after at least one byte of a chunk's data and at or before its last |
| `HttpChunks.PlainChunkIsValid` | httprequest.cpp:493-522 | Any data, spelled with its hexadecimal length, meets the conditions of the round trip |
| `HttpExamples.UploadInOneRead` | httprequest.cpp:406-525 | A literal chunked request on a new connection is accepted in one read, with its body |
| `HttpExamples.CutChunkIsRejected` | httprequest.cpp:474-482 | The same bytes cut after the first byte of the chunk are rejected |
| `HttpExamples.TwoTrailerLines` | httprequest.cpp:406-456 | A literal chunked request with two trailer lines is rejected |
| `HttpExamples.BlankLines` | httprequest.cpp:289-291 | Two blank lines on a new connection: skipped in two reads, the second one left over in one |
| `EhsConnectionState.CheckDoneExact` | ehs.cpp:313-328 | From the conservation law: done if and only if reading has ended and no more requests are outstanding than immediate replies were sent |
| `EhsConnectionState.NothingOutstanding` | ehs.cpp:313-328 | Without immediate replies a connection is done only when nothing is queued, with a thread or abandoned |
| `Dispatch.LockStep` | ehs.cpp:673-793 | Every step of every thread keeps: one holder of the server mutex, at most one thread in the accept section and only while the flag is set, no duplicate connections, all iterators inside the list |
| `Dispatch.ChangersAreAlone` | ehs.cpp:786-790 | Whoever inserts or erases holds the accept token and the mutex, and no other thread is walking over the list |
| `Dispatch.WalksAreStable` | ehs.cpp:795-881 | While a thread walks over the list, locked or not, no step of another thread changes it |
| `DispatchAccounting.CountsStep` | ehs.cpp:255-328 | Every step of every thread keeps queued + active + responses = max(requests - 1, 0) for each connection, with one more while a request is being handed over, and active = requests with threads + abandoned - immediate replies |
| `DispatchAccounting.HandOverStep` | ehs.cpp:255-281 | A current request is in the queue exactly while one thread is between queueing it and creating the next |
| `DispatchAccounting.EveryRun` | ehs.cpp:673-748 | All these invariants hold after every interleaving from the start |
| `DispatchLifetime.WorkIsAlive` | ehs.cpp:140-168 | Without immediate replies no connection of which a thread has an unanswered request has been deleted |
| `DispatchLifetime.RemovalExact` | ehs.cpp:155-168 | The removal test in every reachable state, as an equivalence |
| `DispatchLifetime.DeletedUnderThread` | ehs.cpp:883-898 | When a connection is deleted under a thread that is still in `AddResponse` after its reply was counted, as an equivalence on the state before the step |
| `DispatchLifetime.DanglingExactly` | ehs.cpp:883-898 | Over every run: a thread is left with a deleted connection if and only if that has happened and the thread has not moved since |
| `DispatchLifetime.IteratorsAreLive` | ehs.cpp:795-881 | An iterator that is not at the end points to an existing connection |
| `DispatchLifetime.HeldStep` | ehs.cpp:705-746 | Every step but an exception leaves a set accept flag with a thread in the section |
| `DispatchLifetime.OrphanedExactly` | ehs.cpp:641-660 | Over every run: the flag is set with nobody in the section if and only if an exception was thrown there |
| `DispatchLifetime.OrphanStays` | ehs.cpp:673-748 | From then on no thread ever enters the section again |
| `DispatchPending.PendingStep` | ehs.cpp:486-548 | Every step moves `m_nRequestsPending` and the sum of all queue lengths together (but for a request just queued or just taken), apart from what a store overwrites |
| `DispatchPending.PendingIsDrifted` | ehs.cpp:486-548 | After every run without immediate replies the number is off by the sum of what stores have overwritten |
| `DispatchPending.SkewExactly` | include/ehs/ehsserver.h:105 | A store overwrites something if and only if another thread has stored since the value was loaded |
| `DispatchPending.PendingIsTotal` | ehs.cpp:486-548 | In a run without immediate replies the number is right at every moment if and only if no two updates of it overlap |
| `DispatchLocks.OwnedStays` | ehs.cpp:236-310 | While a thread holds the mutex of a connection in `AddBuffer`, no step another thread can take changes that connection or takes the mutex away |
| `DispatchLocks.EveryWaitIsSeen` | ehs.cpp:673-748 | A step that only a mutex prevents is that of a thread which waits for the holder, so that the next two are about all waits |
| `DispatchLocks.WaitsEnd` | ehs.cpp:240-302 | The lock order: a chain of waits has at most two links, and the thread in the middle is scanning for requests with the mutex of the server |
| `DispatchLocks.NoDeadlock` | ehs.cpp:673-793 | After every feasible run, in either mode: if a thread waits for a mutex, its holder, or the one the holder waits for, has a next step, and the run goes on with it |
| `DispatchThreads.OneThreadEach` | ehs.cpp:263-276 | One thread per request: as many threads have been created as requests were announced, or one less while the thread that queued the last one is still to go on |
| `DispatchThreads.EveryRequestIsServed` | ehs.cpp:263-276 | One thread per request, over every feasible run: there are at least as many threads that have still to look for a request, are looking or are due to be created as there are requests in all queues, and without the one that is looking if all it has still to visit is empty |
| `DispatchThreads.NoneLeftBehind` | ehs.cpp:673-690 | Hence, when nobody is looking or queueing, every queued request has a thread of its own that has still to look |
| `DispatchOrder.EveryRequestInOrder` | ehs.cpp:255-310 | Over every run the requests of a connection handed to threads, followed by its queue, are the requests 1, 2, and so on up to the last completed one: each once and in order, also for a deleted connection |
| `DispatchRuns.FreedRun` | ehs.cpp:883-898 | A feasible run of a thread pool in which an ordinary closing reply leaves its thread with a deleted connection |
| `DispatchRuns.LostUpdateRun` | ehs.cpp:255-276 | A feasible run with one thread per request in which two updates overlap: one request is queued and the number says none |
| `DispatchRuns.ReplyHidesRequest` | ehs.cpp:836-844 | A feasible run of a thread pool in which an immediate reply deletes a connection with a queued request |
| `DispatchRuns.ThrowRun` | ehs.cpp:718-733 | A feasible run of a thread pool that loses the accept flag to an exception |
| `EhsServer.EHSConnection.GetNextRequest` | ehs.cpp:299-310 | None exactly on an empty queue, with nothing changed; otherwise the result in front of the new queue is the old one, and one more is active |
| `EhsServer.EHSConnection.TestDone` | ehs.cpp:313-328 | The test, and that the socket is closed exactly when it succeeds and the client had not disconnected |
| `EhsServer.EHSConnection.SendResponse` | ehs.cpp:900-995 | To a connected client the whole head of an HTTP response goes first, and exactly if that worked out, the code is not 101 and the declared length is positive, so many bytes of the body; a generic response goes as it is; when reading ends, as an equivalence; counters |
| `EhsServer.EHSConnection.AddResponse` | ehs.cpp:883-898 | The queue is drained from the front, each response transmitted as above, one after the other; reading ends exactly if one of them gives up |
| `EhsServer.EHSConnection.ReplyAtOnce` | ehs.cpp:836-873 | What an immediate error reply does to counters and flags |
| `EhsServer.OwnBytesExactly` | ehs.cpp:976-980 | Only bytes of the responses are sent, if and only if no transmitted body is shorter than its declared length |
| `EhsServer.RepliesConserve` | ehs.cpp:883-995 | Every HTTP response answers exactly one request, sent or not, and keeps the conservation law |
| `EhsServer.RepliesInOrder` | ehs.cpp:883-995 | What is sent for a queue is the concatenation of what each response consists of, in queue order, and nothing for a disconnected client |
| `EhsServer.SentAllFlags` | ehs.cpp:883-995 | Reading ends if and only if it had ended or a response gave up: the first transmission failed, a generic body is empty, or one other than 101 says close; each HTTP response is counted once |
| `EhsServer.RemovedExactly` | ehs.cpp:138-153 | What one idle sweep removes, as an equivalence: nothing outstanding, and closed for reading or timed out |
| `EhsServer.AroundCovers` | ehs.cpp:499-508 | The circular walk comes by every position exactly once |
| `EhsServer.EHSServer.GetNextRequest` | ehs.cpp:486-522 | For every start: NULL if and only if all queues are empty; otherwise the result is the head of the first non-empty queue in circular order, which loses just this request and counts it as active; everything else unchanged, pending one less |
| `EhsServer.EHSServer.RemoveEHSConnection` | ehs.cpp:524-548 | Removes the connection, or fails on NULL, or on a second occurrence after having removed the first |
| `EhsServer.LiveSays` | ehs.cpp:155-168 | Which connections a removal leaves and which sockets it closes, by flags and counters alone |
| `EhsServer.LiveInOrder` | ehs.cpp:155-168 | Those that are left keep the order they had |
| `EhsServer.EHSServer.RemoveFinishedConnections` | ehs.cpp:155-168 | The restarting loop removes exactly the finished connections, keeps the order of the others and closes each socket once unless its client had disconnected |
| `EhsServer.EHSServer.ClearIdleConnections` | ehs.cpp:138-153 | Ends reading exactly on connections with idle handling whose last activity is longer ago than the timeout and which have no pending requests, then removes exactly the finished ones |
| `Sha1.SHA1.Input` | samples/sha1.cpp:180-217 | Appends to the message, whatever the cut; corrupted exactly from 2^64 bits on or after the digest was computed |
| `Sha1.SHA1.ProcessMessageBlock` | samples/sha1.cpp:416-503 | The eighty rounds in place are the block function of the standard, whose operations and constants the next rows pin |
| `Words.RotateUp` | samples/sha1.cpp:592-595 | The circular shift by n takes bit i to bit i + n below 32 |
| `Words.RotateAround` | samples/sha1.cpp:592-595 | and to bit i + n - 32 beyond |
| `Words.ChooseBits` | samples/sha1.cpp:451-459 | Truth table: the bit of the first word chooses between those of the other two |
| `Words.ParityBits` | samples/sha1.cpp:462-470 | Truth table: the sum of three bits |
| `Words.MajorityBits` | samples/sha1.cpp:473-482 | Truth table: the majority of three bits |
| `Words.MixBits` | samples/sha1.cpp:440-443 | Truth table: the sum of the four bits in the schedule |
| `Words.PlusNumber` | samples/sha1.cpp:496-500 | The sum of two words is that of their numbers modulo 2^32 |
| `Sha1.WordIsBE` | samples/sha1.cpp:432-438 | A word of a block is the number that its four octets are in network byte order |
| `Sha1.RootsOf` | samples/sha1.cpp:418-423 | The four constants are the square roots of 2, 3, 5 and 10 times 2^30, rounded down |
| `Sha1Abc.DigestOfAbc` | samples/sha1.cpp:105-217 | The digest of "abc" as the standard gives it, by all eighty rounds; it pins the initial words too |
| `Sha1.SHA1.PadMessage` | samples/sha1.cpp:526-571 | Both padding branches end with the hash of the whole message |
| `Sha1.LastBlocksShape` | samples/sha1.cpp:536-556 | The padding of the standard fits one block up to 55 left-over octets and takes two beyond |
| `Sha1.LengthOctetsAreBE` | samples/sha1.cpp:558-569 | The two-word bit count is stored as the 64-bit number in network byte order |
| `Sha1.SHA1.Result` | samples/sha1.cpp:139-160 | The digest of everything passed in, unless corrupted; asking again gives the same |
| `Sha1.DigestOfPieces` | samples/sha1.cpp:105-217 | For every partition of a message below 2^64 bits the digest is the one the standard defines; beyond, there is none |
| `Utf8.DecodeSays` | samples/wsutf8.h:36-46 | One table step is the transition of the automaton and the shift of the code point |
| `Utf8.CharDecodes` | samples/wsutf8.h:36-46 | The encoding of any scalar value leads from ACCEPT to ACCEPT and leaves that code point |
| `Utf8.RejectStays` | samples/wsutf8.h:30-46 | REJECT is absorbing |
| `Utf8.AcceptsExactlyUtf8` | samples/wsutf8.h:19-46 | A byte string is accepted if and only if it is the concatenation of encoded scalar values, and the code points met on the way are these |
| `Utf8.Validator.Decode` | samples/wsutf8.h:75-82 | The loop over the fields, from any state, stopping at the first octet that leads to REJECT |
| `Utf8.Validate` | samples/wsutf8.h:105-111 | True exactly for well-formed UTF-8 |
| `Base64.Encode` | samples/base64.cpp:40-81 | The grouping loop and its tail produce the encoding of section 4 of RFC 4648 |
| `Base64.EncodedLength` | samples/base64.cpp:40-81 | Output length 4 * ceil(n / 3) |
| `Base64.SextetsAreDigits` | samples/base64.cpp:50-53 | The shifts and masks are the digits of the 24-bit group |
| `Base64.SixesMakeGroup` | samples/base64.cpp:50-53 | The four digits side by side are the three octets side by side |
| `Base64.DigitSays` | samples/base64.cpp:30-33 | Which character stands for which value |
| `Base64.FoundAt` | samples/base64.cpp:35-37 | What the search finds for a character of the alphabet is its place |
| `Base64.Vectors` | samples/base64.cpp:40-81 | The seven test vectors of section 10 of RFC 4648 |
| `Base64.Decode` | samples/base64.cpp:83-122 | The decoding loop, with its tail that looks up NUL characters, against its specification |
| `Base64.RoundTrip` | samples/base64.cpp:40-122 | Decoding undoes encoding for every byte string |
| `Base64.EncodeThenDecode` | samples/base64.cpp:40-122 | The same about the two loops as they are |

## Left out

- Sockets, TLS, `select`, clocks and randomness: reads are arbitrary byte strings, sends are recorded, the outcome of a transmission, the time and the random start of a scan are parameters.
- Regular expressions and conversions of header values (httprequest.cpp:271-272, 296, 493): the request line, header, continuation, list and number forms are arbitrary functions of a complete line; the chunk-size line is modelled exactly.
- Form data, cookies and trimming of header values: they do not influence the parser states. Multipart bodies: their check is an arbitrary function of content type and body.
- The error `ADDBUFFER_NORESOURCE` (ehs.cpp:264-272): thread creation always succeeds; its immediate reply is covered by the ones of the other errors.
- Masked sending by the server and the random masking key: not used by the endpoint. `set_status`, RSV bits of outgoing frames and the logging helpers: no endpoint method uses them.
- Message reassembly and rejection of unmasked client frames: the code has neither.
- Callbacks that feed bytes back into the endpoint, or throw anything but the exception of a message over the limit: a run of the endpoint is sequential, and its lock is not modelled. An application that catches that exception inside the callback is one that does not send the message. `do_response` only records.
- Host byte order and `unsigned long`: multi-byte fields are written and read in network byte order as `htons` and its relatives do, and `unsigned long` has 64 bits.
- The condition variable: a waiting thread may wake up at any time, which allows more than the broadcasts of the code; that a signal comes is not part of "no deadlock". What an access to deleted memory does is not modelled, only whether it can happen; a data race on `m_nRequestsPending` is a load and a store that other steps may come between, and no more.
- Start and end of the server and of its threads: a feasible run is one of a server that keeps running, whose thread initialisation handlers succeed and whose accepting thread is known from the start; the single-threaded mode is a pool of one.
- `ClearIdleConnections` and `AddResponse` in `EhsServer` are the calls of one thread; what other threads do between their steps is the subject of `Dispatch` and `DispatchAccounting`.
- Raw mode after a 101 response (ehs.cpp:804-818): `SendResponse` enters it; what a raw socket handler does with later reads is application code, and for the counters such a read is one that changes nothing or ends reading.
- Order of responses to pipelined requests: the code sends them in order of completion.
- URI routing, `Datum`, response phrases, HTTP dates, debugging aids and the sample programs: no state to speak of.
