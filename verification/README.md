# QuicFrame: a verified model

QuicFrame is an RPC framework over QUIC: a Go server (router, middleware, streaming responses)
and clients in Rust and JavaScript that speak one length-prefixed frame protocol. This project
models the parts of it that keep state, loop or compute, in Dafny, and proves what those parts
promise over whole runs. `dafny verify dfyconfig.toml` checks everything.

The code that changes things in place (frame buffer, stream writer, request context, rate limiter,
router, chat hub, certificate manager, connection pool, the read and retry loops) is written as
classes and methods with loops. Each is verified against a function of the old state, and the
theorems are about those functions.

| file | what it models |
|---|---|
| `Options.dfy` | a value that may be missing |
| `Frames.dfy` | the frame codec, three writers and the one-shot reader |
| `FrameBuffers.dfy` | the JavaScript incremental parser, compared with one-shot reading |
| `Messages.dfy` | payload structures; MessagePack is an encoder and a decoder passed in |
| `StreamWriters.dfy` | one stream writer shared by any number of goroutines |
| `Readers.dfy` | the Rust and the JavaScript stream reader |
| `EndToEnd.dfy` | concurrent writers, bytes, arbitrary cuts, readers |
| `Dispatch.dfy` | one request: dispatcher, handler, after-hooks, and which frames can be sent |
| `Sessions.dfy` | opening a stream from the clients; from a handler's actions to both clients |
| `SkippedFrames.dfy` | what unknown frame types do to the JavaScript reader |
| `RateLimits.dfy` | token buckets with idle eviction |
| `Paths.dfy`, `Routing.dfy` | path algebra, pattern matching, dispatch, middleware, groups |
| `ChatHub.dfy`, `ChatDelivery.dfy` | the chat hub of the streaming demo, and all its interleavings |
| `ChatOrder.dfy` | exactly when sends can overtake each other, and when they can be lost |
| `Rotation.dfy` | certificate rotation as a timed state machine |
| `Retries.dfy`, `Pools.dfy` | the Rust client's retry loop and connection pool |

## Main results

- **Streaming, end to end** (`EndToEnd.Delivery`, `EndToEnd.ReadersSeeEveryWriter`,
  `Sessions.DispatchReachesClients`). For every interleaving of any number of goroutines writing to
  and closing a stream, every point at which the transport may fail for good, and every way of
  cutting the bytes into chunks, both clients see exactly the chunks of the messages that came
  through whole: once each, in lock order, every writer's own order kept. Chunk numbers are 0, 1, 2
  and so on exactly if no frame is refused before one that is accepted
  (`StreamWriters.NumberingExactly`, `StreamWriters.GapsExactly`).
- **Replies** (`Dispatch.ServeAnswers`, `Dispatch.OperationExactly`, `Dispatch.AnswerExactly`). What a
  request is answered with, field by field: what the handler's first claim says, failing that the
  error of a handler that failed, failing that what a hook says.
- **Wire grammar** (`Dispatch.AnswerGrammar`, and for the bytes `Dispatch.AnswerBytesExactly`). Whatever bytes a client sends and whatever handler and
  hooks do, the server sends nothing, a pong, one error, one response, or a response and its
  stream; the one exception, exactly, is a handler that fails without replying and a hook that
  then replies.
- **Incremental parsing** (`FrameBuffers.IncrementalAgreesExactly`) and **codec**
  (`Frames.ParseFrameExact`, `Frames.UniqueParse`, `Frames.WritersAgree`).
- **Rate limiting** (`RateLimits.VerdictExactly`, `RateLimits.EvictionUnobservableExactly`, `RateLimits.AdmissionBoundExactly`).
  A request is admitted exactly if every window that ends with it has room for one more. Pruning
  changes no verdict, and the window bound holds with pruning, exactly if an idle bucket
  refills within the idle timeout (or nothing is admitted at all).
- **Routing** (`Routing.PatternReadsBack`, `Routing.RouteMatchesExactly`, `Routing.MatchExactly`, `Routing.RoundTripsExactly`, `Routing.GroupPatternExactly`,
  `Routing.ExecutionOrder`).
- **Chat hub** (`ChatDelivery.ExactlyOneRoute`, `ChatOrder.LogOrderExactly`,
  `ChatOrder.LossExactly`, `ChatDelivery.PanicExactly`).
- **Certificates** (`Rotation.Alive`, `Rotation.IntervalExactly`, `Rotation.RotationRate`).
- **Retries and pool** (`Retries.RequestFaithful`, `Retries.PanicFreeExactly`,
  `Pools.PoolInvariant`, `Pools.OpensBoundedExactly`).

## Where the code does not do what one would expect

Each of these is kept as the code has it, with the exact condition and a concrete input.

- The Go and Rust writers narrow the length to 32 bits before comparing it with the 64 MiB cap
  (`protocol/codec.go:22-23`, `sdk/rust/src/protocol.rs:105-106`): `Frames.GoRoundTripExact`,
  `Frames.WritersDisagreeExactly`; input `Frames.NarrowedLengthExample`.
- `tryRead` accepts any announced length, zero and oversize included
  (`sdk/js/src/protocol.js:83-97`): `FrameBuffers.TryParseAgreesExactly`,
  `FrameBuffers.IncrementalAgreesExactly`; inputs `FrameBuffers.OversizeExample`,
  `FrameBuffers.ZeroLengthExample`.
- The dispatcher's own 500 does not set the sent flag (`framework/app.go:315-316`):
  `Dispatch.GrammarExactly`, `Dispatch.AnswerBytesExactly`; input `Dispatch.RepliesTwiceExample`.
- `docs/protocol.md:76` has chunk numbers increase by one; a refused frame uses up a number too
  (`framework/context.go:295-298`): `StreamWriters.NumberingExactly`, `StreamWriters.GapsExactly`,
  `Dispatch.OpenedStreamNumbering`; input `StreamWriters.GapExample`.
- `stream()` of the JavaScript client drops what its own buffer still holds
  (`sdk/js/src/client.js:261-275`): `Sessions.HeadBoundary`; input `Sessions.SessionLosesExample`.
- `QfStream.next` reads from the transport after an unknown frame before it looks at its buffer
  again (`sdk/js/src/client.js:92-101`): `SkippedFrames.SkippingExactly`; input
  `SkippedFrames.SkippedExample`.
- The JavaScript reader cannot tell a stream that was cut off from one that ended; the Rust reader
  reports the difference and loses the chunks: `Readers.JsDelivers`, `Readers.RustDelivers`; input
  `Readers.CutOffExample`.
- A group prefix that ends in a slash leaves an empty segment (`framework/router.go:178-180`):
  `Routing.GroupPatternExactly`; input `Routing.DoubleSlashExample`.
- Publishing sends after releasing the lock (`examples/streaming-demo/main.go:103-110`), so sends may
  overtake each other: `ChatOrder.LogOrderExactly`; input `ChatOrder.ReorderingRun`. They may meet a
  closed channel, and then the other subscribers lose the event too: `ChatDelivery.PanicExactly`,
  `ChatOrder.LossExactly`; input `ChatOrder.PanickingRun`.
- The pool's comment says it panics for `max_connections` 0 (`sdk/rust/src/transport.rs:177`); the
  code opens a connection for every acquire: `Pools.OpensBoundedExactly`; input
  `Pools.ZeroMaximumReopens`.
- The retry delay is a checked 32-bit power times a duration (`sdk/rust/src/client.rs:238`):
  `Retries.PanicFreeExactly`; input `Retries.PanicExample`.

## Model

| member | source | states |
|---|---|---|
| `Frames.LengthRoundTrip` | protocol/codec.go:27-28 | reading the big-endian length back gives the length, for all 32-bit lengths |
| `Frames.LengthInjective` | protocol/codec.go:50 | and every four bytes are the encoding of the length they are read as |
| `Frames.BigEndianShift` | protocol/codec.go:27-28 | appending a byte to the length appends it to its encoding: the most significant byte comes first |
| `Frames.LayoutExample` | protocol/codec.go:11-14 | a response with the payload 0xC0 is the bytes 0, 0, 0, 2, 2, 0xC0 |
| `Frames.ParseFrameExact` | protocol/codec.go:44-61 | ReadFrame returns (type, payload) and leaves rest if and only if the input is the encoding of that frame followed by rest |
| `Frames.ParseFailsExactly` | protocol/codec.go:44-58 | which inputs are rejected as a short header, a bad length or a short body; the length is judged before the body is read |
| `Frames.ParseAllOfEncoded` | protocol/codec.go:44-61 | reading frame after frame from a concatenation of encodings gives those frames back, then whatever follows them |
| `Frames.ParseAllReencodes` | protocol/codec.go:15-61 | every run of successful reads re-encodes to exactly the bytes consumed, and stops only where no frame can be read |
| `Frames.UniqueParse` | protocol/codec.go:42-61 | a byte string has only one reading as frames followed by an unreadable tail |
| `Frames.PrefixOfEncoded` | protocol/codec.go:44-58 | any prefix of a frame sequence is whole frames followed by a tail on which ReadFrame reports a short read |
| `Frames.WritersAgree` | sdk/rust/src/protocol.rs:97-119 | within the cap the Go, Rust and JavaScript writers emit the same documented bytes, and up to 2^32 - 2 payload bytes they refuse the same payloads |
| `Frames.WritersDisagreeExactly` | protocol/codec.go:22-25 | the exact payload sizes at which the Go writer and the JavaScript writer differ, and those at which a checked Rust build does |
| `Frames.GoRoundTripExact` | protocol/codec.go:15-40 | write-then-read gives the frame back for every following input if and only if type and payload are at most 67108864 bytes |
| `Frames.NarrowedLengthExample` | protocol/codec.go:21-25 | a payload the Go writer accepts and its own reader rejects |
| `Frames.WriteFrame` | protocol/codec.go:15-40 | three writes put exactly the frame on the stream, its length with the most significant byte first, or the part of it the transport took, and success means all of it; an oversize frame writes nothing |
| `Frames.RustWriteFrame` | sdk/rust/src/protocol.rs:97-119 | the same bytes from the Rust writer, with the overflow of its length computation |
| `Frames.JsEncodeFrame` | sdk/js/src/protocol.js:40-55 | filling the buffer by offset produces the documented layout, byte by byte, or refuses above the cap |
| `Frames.ByteReader.ReadFull` | sdk/rust/src/protocol.rs:133-134 | all the bytes asked for in order, or an error at the end of the stream |
| `Frames.ByteReader.ReadFrame` | protocol/codec.go:44-61 | the reading loop agrees with the parse of the remaining bytes, error cases and what each leaves unread included; what was read is laid out as documented |
| `FrameBuffers.TryParseAgreesExactly` | sdk/js/src/protocol.js:83-97 | tryRead and ReadFrame agree on a buffer exactly unless it holds a complete frame of invalid length |
| `FrameBuffers.TryParseWhole` | sdk/js/src/protocol.js:83-97 | a frame laid out with any 32-bit length is taken off the buffer whole, type, payload and the rest |
| `FrameBuffers.DrainAppend` | sdk/js/src/protocol.js:70-98 | draining early and carrying the rest over gives the same frames and the same remainder as draining late |
| `FrameBuffers.DrainIsOneShot` | sdk/js/src/protocol.js:83-97 | draining a whole input gives the frames and the remainder of repeated ReadFrame |
| `FrameBuffers.IncrementalAgrees` | sdk/js/src/protocol.js:63-98 | push and drain over any cutting of the input gives what repeated ReadFrame gives on the uncut input |
| `FrameBuffers.IncrementalAgreesExactly` | sdk/js/src/protocol.js:63-98 | exactly the inputs on which every cutting agrees with repeated ReadFrame |
| `FrameBuffers.FramesSurviveCutting` | sdk/js/src/protocol.js:63-98 | well-formed frames come back once each and in order under every cutting, and an incomplete tail is what stays in the buffer |
| `FrameBuffers.OversizeExample` | sdk/js/src/protocol.js:83-97 | a complete frame above the cap is rejected by repeated ReadFrame and handed out by the buffer, type and payload intact |
| `FrameBuffers.ZeroLengthExample` | sdk/js/src/protocol.js:86-97 | before its empty payload is decoded, the frame of a zero-length header differs depending on the cut |
| `FrameBuffers.Concat` | sdk/js/src/protocol.js:71-73 | the merged array is the buffer followed by the chunk |
| `FrameBuffers.FrameBuffer.Push` | sdk/js/src/protocol.js:70-75 | the buffer always equals the unconsumed suffix of everything pushed |
| `FrameBuffers.FrameBuffer.TryRead` | sdk/js/src/protocol.js:83-97 | takes exactly the first frame off the buffer, decodable or not, or changes nothing; what was taken and what is left make up what was pushed |
| `Messages.WireIsEncoding` | protocol/codec.go:15-40 | messages accepted without narrowing travel as the reference encoding of their frames |
| `Messages.MessageLaidOut` | protocol/types.go:19-27 | every message travels under the type byte of the protocol: 1 request, 2 response, 3 chunk, 4 end marker, 5 error, 7 pong |
| `Messages.WriteMessage` | protocol/codec.go:15-40 | one message on the transport: its bytes after those already there, as far as the transport takes them |
| `StreamWriters.StreamWriter.Write` | framework/context.go:284-300 | an open writer numbers the chunk, counts on, and puts exactly that chunk on the transport or nothing of a refused one; the returned count and error; a closed one does nothing |
| `StreamWriters.StreamWriter.Close` | framework/context.go:303-316 | the first close sends one end marker, any further one changes nothing and succeeds |
| `StreamWriters.FoldShape` | framework/context.go:284-316 | whatever operations are performed, the wire holds chunks of this request and at most one end marker, which is last and empty |
| `StreamWriters.ClosedForGood` | framework/context.go:287-289 | after a close no operation changes the writer or adds a message |
| `StreamWriters.Numbering` | framework/context.go:290-295 | with every frame within the cap the k-th message carries number k (in 64 bits) and the end marker the number of chunks, and it is there exactly if the writer was closed |
| `StreamWriters.NumbersIncrease` | framework/context.go:290-299 | with refused frames the numbers still strictly increase, until the counter wraps |
| `StreamWriters.NumberingExactly` | framework/context.go:290-299 | the k-th message carries number k (in 64 bits) if and only if every accepted frame comes after a number of refused ones that the 64-bit counter does not show |
| `StreamWriters.GapsExactly` | framework/context.go:290-299 | until the counter wraps, the numbers are 0, 1, 2 and so on if and only if no frame is refused before one that is accepted |
| `StreamWriters.GapExample` | framework/context.go:295-298 | a refused chunk and then an accepted one: the first message on the wire carries number 1 |
| `StreamWriters.Linearized` | framework/context.go:283-316 | any interleaving of goroutines leaves writer and wire as one goroutine would that performs the operations in lock order |
| `StreamWriters.ProgramOrder` | framework/context.go:283-316 | the wire holds of each goroutine exactly the writes it performed before the close, in its program's order |
| `StreamWriters.TurnsAreTaken` | framework/context.go:283-316 | every time a goroutine takes the lock it performs its next operation, until it has none left |
| `Readers.StreamHandle.Next` | sdk/rust/src/client.rs:65-85 | every outcome of next, decoding failures and unexpected types included, and the bytes consumed |
| `Readers.RustNextExactly` | sdk/rust/src/client.rs:65-85 | which input gives a chunk, the end, the server's error, a codec error, an I/O error or an unexpected type |
| `Readers.StreamHandle.CollectAll` | sdk/rust/src/client.rs:88-94 | the loop returns all chunks up to the end marker or the first error |
| `Readers.RustDelivers` | sdk/rust/src/client.rs:65-94 | the Rust client gets the meaning of the stream; one that was cut off is an error |
| `Readers.QfStream.Next` | sdk/js/src/client.js:73-104 | the loop over buffer and transport, done flag included, for arbitrary chunks |
| `Readers.JsReactExactly` | sdk/js/src/client.js:79-94 | which frame gives a value, the end or an exception, and which of them end the stream |
| `Readers.OverForGood` | sdk/js/src/client.js:74 | once it reported the end a stream reports nothing else and takes nothing more |
| `Readers.TryParsePrefix` | sdk/js/src/client.js:77-102 | a frame is found in the buffer as soon as it is complete, and then it is the frame that was sent |
| `Readers.JsDelivers` | sdk/js/src/client.js:73-104 | the JavaScript client yields the meaning of the stream under every cutting of its bytes |
| `Readers.CutOffExample` | sdk/js/src/client.js:97-101 | a chunk with and without its end marker: the same values in JavaScript, an error in Rust |
| `EndToEnd.MeaningOfStream` | docs/streaming.md:97 | a stream as the writer produces it means its chunks in order, then its end |
| `EndToEnd.WholeMessages` | framework/context.go:297-299 | what a transport that failed after n bytes carried: whole messages, as many as fit, and an incomplete one |
| `EndToEnd.Delivery` | framework/context.go:284-316 | every interleaving, every failure point and every cutting: both clients see exactly the chunks of the messages that came through whole, once each, in lock order |
| `EndToEnd.ReadersSeeEveryWriter` | sdk/js/src/client.js:73-104 | with a close and every frame within the cap both readers see the end, every value read has an owner, and the values of each goroutine are exactly its writes before the close, in its program's order |
| `EndToEnd.LogIsMerge` | framework/context.go:283-300 | the values on the wire that belong to a goroutine are its entries in the lock order |
| `Dispatch.ActionConsistent` | framework/context.go:208-263 | the invariant every context operation keeps: nothing on the wire before the sent flag, one response after it, a stream only behind a response that opened it |
| `Dispatch.OperationExactly` | framework/context.go:208-263 | one operation: the first claim puts exactly what it says on the wire, status, merged headers, body, code, message and data; a later one changes nothing |
| `Dispatch.AnsweredOnce` | framework/context.go:241-263 | what an operation says determines the message |
| `Dispatch.LastHeaderCounts` | framework/context.go:86-91 | of the values set for a header the last one counts |
| `Dispatch.ConsistentAfter` | framework/context.go:208-316 | the same for every sequence of operations |
| `Dispatch.FirstReplyDecides` | framework/context.go:209-211 | the first operation that claims the response decides: exactly its status, headers, body or error goes out, with the headers set before it; later ones add nothing but chunks of its stream |
| `Dispatch.ServeAnswers` | framework/app.go:312-325 | the answer to a request: the handler's first claim, else its failure as an error 500 with its text, else the first claim of a hook, else nothing |
| `Dispatch.AnswerExactly` | framework/app.go:273-297 | pings, requests, malformed requests, other types and unreadable input: the messages each is answered with |
| `Dispatch.GrammarExactly` | framework/app.go:312-325 | the messages of a dispatch follow the wire grammar if and only if the request is not answered twice |
| `Dispatch.RepliesTwiceExample` | framework/app.go:314-325 | a silent failure and a replying hook: two responses on one stream |
| `Dispatch.OpenedStream` | framework/context.go:225-239 | behind the first message of a dispatch the wire holds exactly what the stream writer makes of the operations performed on it, and only a response that opens a stream has anything behind it |
| `Dispatch.OpenedStreamNumbering` | framework/context.go:284-316 | chunk numbers of a dispatch strictly increase, and are 0, 1, 2 and so on, end marker included, if and only if no frame was refused before one that was accepted |
| `Dispatch.AnswerGrammar` | framework/app.go:273-326 | the grammar for every input a client can send, pings, unknown types and malformed frames included |
| `Dispatch.AnswerBytesExactly` | framework/app.go:273-326 | the bytes on the wire are all or the beginning of a grammatical answer if and only if the request is not answered twice or the transport stopped within the first answer |
| `Dispatch.Context.WriteResponse` | framework/context.go:241-263 | the first reply wins and carries this id, status and body and the merged headers; success means the frame went out whole |
| `Dispatch.Context.Error` | framework/context.go:208-221 | an error frame with this code, message and data, at most once; data that cannot be marshalled claims the response and sends nothing |
| `Dispatch.Context.NewStream` | framework/context.go:225-239 | the opening response carries this status and these headers; a fresh writer is handed out exactly if it went out whole |
| `Dispatch.Context.Perform` | framework/context.go:186-316 | every operation takes the context, its writer and the transport to the state the specification gives |
| `Dispatch.DispatchStream` | framework/app.go:273-326 | the bytes on the stream are those of the answer, as far as the transport took them |
| `Sessions.JsOpenStream` | sdk/js/src/client.js:261-275 | the loop that looks for the response head, and what it hands on |
| `Sessions.HeadByType` | sdk/js/src/client.js:262-273 | what opening does with the first frame, by its type: the head opens, an error refuses, any other frame is passed over and the bytes behind it kept |
| `Sessions.RustOpenExactly` | sdk/rust/src/client.rs:337-365 | what the Rust client makes of the first frame: only a streaming response opens, only an error frame is the server's error |
| `Sessions.JsErrorHead` | sdk/js/src/client.js:266-270 | an error instead of the head is reported with its code, however it was cut |
| `Sessions.NoHead` | sdk/js/src/client.js:263-264 | a stream that stops before its head is complete is an error 500 in JavaScript and an I/O error in Rust |
| `Sessions.HeadBoundary` | sdk/js/src/client.js:261-275 | the head is found under every cutting; the body is handed on without what shared a chunk with the head, so nothing is lost if and only if a cut falls between them |
| `Sessions.SessionDelivers` | sdk/js/src/client.js:237-276 | with such a cut the whole stream is delivered |
| `Sessions.SessionLosesExample` | sdk/js/src/client.js:261-275 | head and body in one chunk: the client sees an empty stream |
| `Sessions.ResponseReachesClients` | sdk/rust/src/client.rs:337-365 | both clients find the head and then the chunks of the stream behind it |
| `Sessions.DispatchReachesClients` | framework/app.go:273-326 | from a handler's actions to the values both clients read |
| `Sessions.ErrorReachesClients` | framework/app.go:314-317 | a request answered with an error: both clients report its code, however the bytes are cut |
| `SkippedFrames.HarmlessIsDelivered` | sdk/js/src/client.js:92-102 | if nothing is left to yield behind the first unknown frame, every cutting delivers the stream without the frames it skips |
| `SkippedFrames.HarmfulIsLost` | sdk/js/src/client.js:92-102 | otherwise the reader loses values when everything arrives at once |
| `SkippedFrames.SkippingExactly` | sdk/js/src/client.js:92-102 | exactly the frame sequences delivered under every cutting |
| `SkippedFrames.SkippedExample` | sdk/js/src/client.js:92-97 | a pong in front of a chunk, received together: the chunk is lost and the stream ends |
| `RateLimits.AdmitAlike` | middleware/ratelimit.go:92-110 | tables that differ only in full buckets give the same verdict and stay that way |
| `RateLimits.PruneKeepsAlike` | middleware/ratelimit.go:81-88 | pruning removes only buckets that are full, if an idle bucket refills within the timeout |
| `RateLimits.TablesStayAlike` | middleware/ratelimit.go:77-114 | over every run the pruned table gives the verdicts of a table that is never pruned |
| `RateLimits.Balance` | middleware/ratelimit.go:98-110 | requests admitted since any instant plus tokens held never exceed the burst plus the refill since then |
| `RateLimits.NeverEvictingBounded` | middleware/ratelimit.go:92-114 | without pruning, at most burst plus rate times width is admitted per key in any window of any run |
| `RateLimits.DoubleBurstTells` | middleware/ratelimit.go:83-87 | a run on which pruning too early changes verdicts and breaks the bound |
| `RateLimits.EvictionUnobservableExactly` | middleware/ratelimit.go:67-90 | pruning is unobservable over all runs if and only if idle buckets refill within the idle timeout, or nothing is admitted |
| `RateLimits.AdmissionBoundExactly` | middleware/ratelimit.go:92-114 | the window bound holds over all runs with pruning under that condition and no other |
| `RateLimits.VerdictExactly` | middleware/ratelimit.go:106-113 | every verdict of every run by counting alone: a request is admitted if and only if, for every window ending with it, one more than was admitted of its key is at most burst plus rate times width |
| `RateLimits.LastFull` | middleware/ratelimit.go:98 | what a bucket holds is the burst plus the refill since it was last full, less what was admitted since |
| `RateLimits.PartialRefillExample` | middleware/ratelimit.go:109 | a bucket emptied half a second ago admits |
| `RateLimits.DefaultsRefill` | middleware/ratelimit.go:34-60 | with burst and idle timeout defaulted the condition holds exactly for rates of at least 1/600 per second |
| `RateLimits.DefaultsExactly` | middleware/ratelimit.go:34-60 | settings that are given are kept; a missing burst is the whole part of the rate and at least one, the interval 5 and the timeout 10 minutes |
| `RateLimits.RateLimiter.Allow` | middleware/ratelimit.go:92-113 | one request: the verdict and the whole new table, this key seen now, other keys untouched |
| `RateLimits.RateLimiter.CleanupTick` | middleware/ratelimit.go:81-88 | one pass deletes exactly the entries idle for longer than the timeout at the moment the pass comes to them |
| `Paths.JoinSplit` | framework/router.go:114-120 | joining the segments of a string gives the string |
| `Paths.SplitAtSlash` | framework/router.go:119 | splitting distributes over a slash |
| `Paths.SplitJoin` | framework/router.go:119 | splitting a join of slash-free segments gives the segments |
| `Paths.TrimExact` | framework/router.go:115 | trimming finds the one core without outer slashes |
| `Paths.OuterSlashesIgnored` | framework/router.go:115 | any number of extra outer slashes changes no segment |
| `Paths.SplitPathExact` | framework/router.go:114-120 | the segments of a path are the one slash-free list that joins to the trimmed path; first and last are not empty |
| `Paths.SplitPathConcatExactly` | framework/router.go:178-180 | exactly the prefixes and paths whose segments follow each other when the strings are concatenated |
| `Routing.ParsePatternParts` | framework/router.go:94-112 | the loop classifies every segment of the pattern in order |
| `Routing.PatternReadsBack` | framework/router.go:94-112 | a list of segments written down as texts, ":names" and "*names" is what its pattern text parses to, whatever slashes are around it |
| `Routing.NamelessWildcard` | framework/router.go:101-106 | a bare star is the wildcard named "wildcard" |
| `Routing.MatchSegments` | framework/router.go:123-150 | the two-index loop computes the bindings, a later parameter overwriting an earlier one of the same name |
| `Routing.MatchesByPosition` | framework/router.go:123-150 | any pattern matches exactly the paths whose segments agree with its texts before the first wildcard and number as many, or more than come before the wildcard |
| `Routing.ParamsByPosition` | framework/router.go:134-139 | any pattern: a parameter is the segment at its position, a wildcard the rest of the path, and the last of several with one name counts |
| `Routing.RouteMatchesExactly` | framework/router.go:94-150 | from pattern text to match: exactly the paths with these texts and as many segments, or going on at a wildcard |
| `Routing.UserRouteExample` | framework/router.go:94-150 | "/users/:id" serves "/users/7" and not "/users/7/posts" |
| `Routing.MatchExactly` | framework/router.go:123-150 | for distinct names and a wildcard only at the end, the match returns P if and only if P binds exactly the names and filling the pattern with P gives the path |
| `Routing.PathRoundTrip` | framework/router.go:94-150 | the pattern filled with what was matched and joined with slashes is the path without its outer slashes |
| `Routing.RoundTripsExactly` | framework/router.go:123-150 | exactly the patterns for which every match can be filled back |
| `Routing.RepeatedNameExample` | framework/router.go:134-135 | a repeated name loses a value |
| `Routing.GroupPatternExactly` | framework/router.go:178-180 | exactly the prefixes and paths for which a group route is the group's segments followed by the route's |
| `Routing.GroupPattern` | framework/router.go:178-180 | so it is for a prefix without a final slash and a path with one initial slash |
| `Routing.DoubleSlashExample` | framework/router.go:178-180 | a prefix and a path for which it is not |
| `Routing.ApplyMiddleware` | framework/router.go:156-161 | the backward loop makes the first layer the outermost |
| `Routing.WrappedTwice` | framework/app.go:312 | application layers around group layers around the handler are one list of layers |
| `Routing.ExecutionOrder` | framework/router.go:154-161 | layers are entered in declaration order and left in reverse; the handler runs exactly if all call next; one that does not cuts off exactly those behind it |
| `Routing.Router.Add` | framework/router.go:58-66 | a route is appended with its middleware already applied |
| `Routing.Router.Match` | framework/router.go:70-90 | the earliest route matching path and method; 405 exactly if only the method fails everywhere; 404 exactly if no pattern matches |
| `Routing.Group.Use` | framework/router.go:173-176 | later middleware leaves the routes already registered as they are |
| `Routing.Group.Handle` | framework/router.go:178-180 | a group route is the concatenated pattern with the middleware present at that time |
| `ChatHub.ChatHub.EnsureRoomLocked` | examples/streaming-demo/main.go:113-125 | the room that exists, or a new empty one, is in the table afterwards |
| `ChatHub.ChatHub.Subscribe` | examples/streaming-demo/main.go:62-86 | channel, membership and history snapshot of one locked section |
| `ChatHub.ChatHub.PublishLocked` | examples/streaming-demo/main.go:88-103 | the event enters the sliding history and the subscribers of that instant are copied |
| `ChatHub.ChatHub.Send` | examples/streaming-demo/main.go:105-110 | a non-blocking send into a queue of 32 |
| `ChatHub.ChatHub.Publish` | examples/streaming-demo/main.go:88-111 | every subscriber's channel is offered the event exactly once and no other channel changes; it panics exactly if one of them is closed, and then each was offered the event or left alone |
| `ChatHub.ChatHub.Unsubscribe` | examples/streaming-demo/main.go:73-83 | membership ends and the channel closes, once |
| `ChatDelivery.SubscribeKeeps` | examples/streaming-demo/main.go:62-86 | a subscription keeps the invariant of all runs |
| `ChatDelivery.PublishKeeps` | examples/streaming-demo/main.go:88-103 | so does a publisher's locked section |
| `ChatDelivery.DeliverKeeps` | examples/streaming-demo/main.go:105-110 | and a send to an open channel |
| `ChatDelivery.PanicKeeps` | examples/streaming-demo/main.go:105-110 | and a send to a closed one |
| `ChatDelivery.UnsubscribeKeeps` | examples/streaming-demo/main.go:73-83 | and leaving |
| `ChatDelivery.RunKeeps` | examples/streaming-demo/main.go:51-125 | the invariant holds after every interleaving of subscriptions, locked sections, sends, receives and departures |
| `ChatDelivery.ExactlyOneRoute` | examples/streaming-demo/main.go:62-111 | an event reaches a subscriber through at most one of snapshot and channel and at most once; every event published while it is subscribed was queued, met a full queue, is still to be sent, or was lost to a panic; no event crosses rooms |
| `ChatDelivery.HistoryIsRecent` | examples/streaming-demo/main.go:92-97 | a room's history is exactly the last 120 events published to it, in lock order, after every run |
| `ChatDelivery.LossNeedsLeaving` | examples/streaming-demo/main.go:73-110 | no publisher panics and no event is lost before somebody leaves |
| `ChatDelivery.SubsequenceOfLog` | examples/streaming-demo/main.go:62-111 | if publishers in a room do not overlap, snapshot, received and queued events together are a duplicate-free subsequence of the room's log |
| `ChatDelivery.OverlapReorders` | examples/streaming-demo/main.go:103-110 | two overlapping publishers can reach a subscriber in the opposite order |
| `ChatDelivery.PanicExactly` | examples/streaming-demo/main.go:79-110 | a send panics if and only if its subscriber has left since the list was copied, and then nobody left on the list gets the event |
| `ChatOrder.StaysSettled` | examples/streaming-demo/main.go:103-110 | that condition is kept by all sends and receives |
| `ChatOrder.LogOrderExactly` | examples/streaming-demo/main.go:88-111 | at any moment of any run snapshot, received and queued events stay in log order however the sends under way go on, if and only if they are in order now and, unless the subscriber has left, at most one publisher has still to send to it, one that published after everything it got |
| `ChatOrder.LossExactly` | examples/streaming-demo/main.go:73-110 | at any moment of any run an event can still be lost for a subscriber if and only if it is lost already, or its publisher has still to send it both to this subscriber and to one that has left |
| `ChatOrder.ReorderingRun` | examples/streaming-demo/main.go:88-111 | a run in which a subscriber gets two events in the wrong order |
| `ChatOrder.PanickingRun` | examples/streaming-demo/main.go:79-110 | a run in which a publisher panics |
| `Rotation.GenerateFacts` | pki/pki.go:111-114 | a generated window is exactly 13 days, has begun, and ends 13 days less a minute from now up to rounding |
| `Rotation.LoadOrCreateExactly` | pki/pki.go:42-54 | a stored certificate is kept exactly if it loads and has more than 24 hours left; a new one is backdated by a minute and valid for 13 days |
| `Rotation.TickExactly` | pki/pki.go:177-184 | a tick replaces the certificate exactly if it loads, has less than 24 hours left and a new one can be generated |
| `Rotation.Checked` | pki/pki.go:177-184 | at the last successful check the stored certificate had begun and had a day left |
| `Rotation.Alive` | pki/pki.go:37-55 | whatever was on disk and whichever ticks fail, what is left of the stored certificate is a day less the time since the last successful check, at every instant |
| `Rotation.Remaining` | pki/pki.go:170-191 | with a successful tick at least every I, at least a day less I is left at every instant |
| `Rotation.IntervalExactly` | pki/pki.go:176-184 | the certificate is inside its window at every instant of every such run if and only if the interval is at most a day |
| `Rotation.ExpiresBetweenTicks` | pki/pki.go:173-184 | with a longer interval, a run of a regular ticker in which the certificate expires |
| `Rotation.RotationsApart` | pki/pki.go:176-184 | two successive rotations are more than 12 days less a minute apart, up to rounding |
| `Rotation.RotationRate` | pki/pki.go:170-191 | so a run holds at most one rotation more than fit into it at that distance |
| `Rotation.Manager.GenerateIdentity` | pki/pki.go:100-166 | the stored certificate is replaced by one generated now |
| `Rotation.Manager.LoadOrCreateIdentity` | pki/pki.go:37-55 | the stored certificate is kept only if it loads and has more than a day left; otherwise a new one is stored, or startup fails and nothing changes |
| `Rotation.Manager.Watch` | pki/pki.go:172-189 | the watcher's loop takes the stored certificate through the given ticks, failing loads and generations included |
| `Retries.Request` | sdk/rust/src/client.rs:235-254 | the loop's outcome, number of attempts and total sleep, machine overflow included |
| `Retries.RequestFaithful` | sdk/rust/src/client.rs:235-254 | at most max_retries + 1 attempts, stopping at the first that is not a transport failure, otherwise the last error; base * (2^k - 1) slept before the k-th retry's attempt |
| `Retries.PanicFreeExactly` | sdk/rust/src/client.rs:238 | no sequence of results makes a request panic if and only if the last delay the settings allow can be computed: at most 32 retries in a checked build, and a delay that fits a duration |
| `Retries.PanicExample` | sdk/rust/src/client.rs:236-238 | 33 retries in a checked build against a server that is never reached |
| `Pools.Pool.Evict` | sdk/rust/src/transport.rs:182 | the pool keeps exactly its live connections, in order |
| `Pools.Pool.GetConnection` | sdk/rust/src/transport.rs:178-204 | the earliest pooled connection that is not dead, and nothing opened; without one, a connection opened for the caller exactly if connecting succeeds and the endpoint is open, pooled if there is room, whatever dies meanwhile |
| `Pools.Pool.Close` | sdk/rust/src/transport.rs:207-213 | the pool is emptied, every connection it opened is dead and the endpoint closed |
| `Pools.RunKeeps` | sdk/rust/src/transport.rs:178-213 | the pool's invariant over every interleaving of acquires, connection deaths and closes |
| `Pools.PoolInvariant` | sdk/rust/src/transport.rs:173-204 | never more than one connection nor more than the maximum; an acquire with a live pooled connection gets one and opens nothing, one without connects, and a successful connect hands out what was opened for it |
| `Pools.CloseEnds` | sdk/rust/src/transport.rs:207-213 | after a close, whatever follows, nobody is handed a connection |
| `Pools.OpensBoundedExactly` | sdk/rust/src/transport.rs:199-201 | successful opens number at most one more than deaths, over all runs, if and only if the maximum is at least one |
| `Pools.ZeroMaximumReopens` | sdk/rust/src/transport.rs:178-204 | a maximum of zero: two acquires, two connections, nothing died |

## Left out

- QUIC, WebTransport, TLS, x509 and PEM, files, the fetch fallback, FFI memory, React apps, JWT,
  validation, logging and pings from the clients: library or operating-system behaviour.
- MessagePack bytes: an encoder and a decoder are parameters, related by a round trip where a
  theorem needs it; a payload decodes to one message or to none. Bytes of another message type are
  an error in the model, where the libraries fill in the fields they find; the second decoding of
  chunk data in the JavaScript client belongs to the application and is left out.
- Transports that fail once and then recover: a transport takes some number of bytes and then fails
  for good.
- Handlers and after-hooks are sequences of context operations performed one after the other, for
  all sequences; a context used from several goroutines at once is not modelled, a stream writer is.
- `url.Parse` and query strings: matching starts from the extracted path. Upper-casing of methods
  is a parameter of the router.
- `normalizeRoomName`: trimming and lower-casing happen before the model's room name; only the
  default room is modelled. `sanitizeChatName` and `sanitizeModuleName` are left out as easy.
- Reuse of subscriber identities: the hub draws them from a nanosecond clock; the runs of the model
  do not repeat them. Positions of events in the room's log are the model's own, no branch reads them.
- ChatHub.ChatHub.Publish: one publisher by itself; interference between its lock phase and its
  sends, including panics, is in the runs of ChatDelivery.
- RateLimits.RateLimiter.Allow: lookup and token request are one step with one clock reading, where
  the code has two critical sections; negative and infinite rates and floating-point rounding are
  left out.
- Rotation.Manager.GenerateIdentity: a generation that fails changes nothing; one that fails after
  writing the certificate but before the key is not modelled.
- Retries.Request: the attempts' results are given from outside; timeouts and the merging of default
  headers are not part of it, and the 32-bit width of the retry limit is not used.
- `tlsutil` certificate reuse, the server's wait group, `prepend` and header-requirement middleware.
