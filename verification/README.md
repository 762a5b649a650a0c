# Verified model of the rocks proxy

This project models three parts of rocks and proves what they guarantee.

* **The SOCKS5 side** (`src/socks5`, `src/req_addr.rs`, `src/client_manager.rs`, `src/connection.rs`). The
  handshake is a protocol of exact reads and writes: `Handshake.React` is what happens at each
  `read_exact`, `Handshake.Run` the whole handshake over the client's bytes, and `Handshake.Deliver` the
  task that is suspended at each read and resumed as bytes arrive. `Incoming` holds the objects and methods
  of the source, each proved to follow `Run`; `Codec` the address format of RFC 1928; `Wire` says the same in
  the bytes that go over the wire; `Relay` the two-way
  copy of a tunnel; `Session` the driver of one client from its first byte to the end of its tunnel.
* **The HTTP header parser** (`src/http_parse`). `Lines` defines splitting a whole stream at CR LF;
  `LineParsers` and `HeaderParsers` hold the incremental parser and the header assembler; `LineRuns` and
  `HeaderTimings` are about their whole runs, in terms of the stream and of where it is cut.
* **The future combinators** (`src/future_ext.rs`). `Futures` defines one poll of a tree of `alt`, `join`
  and `join_on_ok` and the meaning of a tree; `FutureNodes` is the same poll on objects that advance their
  inner futures and fill their slots in place.

What the environment decides is quantified over: the client's bytes and how they are cut up, the number of
bytes (`room`) a connection takes before writing to it fails, whether debug logging is on (`debug`), the
outcome of the connect, the schedule of the two copies, and the ready times of futures. A read that meets
end of stream is an I/O error, and a panic is a result of its own (`Panicked`, `Panic`, `Crash`, `Misuse`).

## Where the code falls short

The model does what the code does. Where the code misses what it is for, the property is stated with the
exact condition under which it holds, next to a reference that meets it always.

* An IPv4 port is assembled from the last octet and the high port byte (`src/req_addr.rs:34`). Reading back,
  echoing and dialling an IPv4 address are right exactly when both port bytes equal the last octet
  (`Codec.Faithful`); IPv6 and domain addresses are always right.
* A domain name of 254 or 255 bytes overruns the request buffer and panics (`src/socks5/incoming.rs:134,168`;
  `Codec.Readable`, `Session.LongNamePanics`). A reply to a name of 255 bytes would overrun the reply buffer
  (`src/socks5/incoming.rs:188,217`; `Codec.Printable`), but no session reaches it.
* A request for an unknown address type is answered twice (`src/socks5/incoming.rs:174-183`), exactly when the
  first reply fits (`Session.SecondReplyIff`).
* A domain that is not UTF-8 panics instead of being refused when debug logging is on
  (`src/socks5/incoming.rs:171`; in `Requests.Decided`).
* The line parser misses a CR LF whose LF comes alone in a chunk (`src/http_parse/line_parser.rs:16`), and panics
  on an LF at the start of a line while `saw_return` is stale (`src/http_parse/line_parser.rs:16-19`). These two
  calls (`LineParsers.Hazard`) are the only ones that go wrong, and `LineRuns.Dangerous` reads them off the
  stream and its cuts: a run is right exactly when no byte is dangerous (`LineRuns.RunAgreesIff`). It panics
  exactly at the dangerous bytes of the second kind (`LineRuns.Crashes`, `LineRuns.PanicsIff`); without a panic no
  byte is lost, even where a CR LF was missed (`LineRuns.RejoinIff`).
* The header assembler loses the bytes of a line that is spread over several calls
  (`src/http_parse/mod.rs:61`): what it hands over is right exactly when every earlier chunk ended where a line
  ends and no line that ends in CR is followed by one that begins with LF (`HeaderParsers.HeaderBlockIff`). When it
  hands over, and the line count, depend only on the line parser: they are right exactly when no byte is
  dangerous (`HeaderTimings.HandsOverIff`, `HeaderTimings.LinesCountedIff`), and before an empty line all calls
  ask for more exactly when it does not panic (`HeaderTimings.AsksForMoreIff`).

## Model

| member | source | states |
|---|---|---|
| Bytes.Word | src/req_addr.rs:34-50 | shifting the high byte left by eight and or-ing the low byte is 256 times the one plus the other |
| Utf8Encoding.ValidIff | src/req_addr.rs:54 | the bytes accepted as UTF-8 are exactly the encodings of sequences of Unicode scalar values |
| Utf8Encoding.AsciiIsValid | src/req_addr.rs:54 | all bytes below 0x80 are valid, so every ASCII name is |
| Codec.DecodeEncode | src/socks5/incoming.rs:192-217 | the reference decoder reads every printed address back, whatever follows it |
| Codec.EncodeDecode | src/socks5/incoming.rs:192-217 | every byte string the reference decoder accepts is printed again exactly |
| Codec.EncodingPrefixFree | src/socks5/incoming.rs:192-217 | printed addresses are injective and prefix-free |
| Codec.SegmentsRoundTrip | src/socks5/incoming.rs:198-206 | splitting eight segments into bytes and joining them again is lossless |
| Codec.BytesRoundTrip | src/req_addr.rs:41-48 | joining sixteen bytes into segments and splitting them again is lossless |
| Codec.ParseV6IsSegmentsOf | src/req_addr.rs:37-52 | the IPv6 parser joins the first sixteen bytes into segments and the last two into the port |
| Codec.ReadVersusDecode | src/socks5/incoming.rs:153-173 | on any bytes, how the source's reader relates to the reference decoder: accepted addresses, readable ones, panics |
| Codec.ReadEncoded | src/socks5/incoming.rs:153-173 | what the source reads off any well-formed address with any suffix; names over 253 bytes panic |
| Codec.ReadRoundTripIff | src/req_addr.rs:27-57 | the source's parsers invert its printer exactly on readable, faithful addresses |
| Codec.ReadAgreesWithDecode | src/req_addr.rs:27-57 | whatever the source accepts is well formed, and is the reference decoding up to the IPv4 port |
| Codec.CanonicalIff | src/req_addr.rs:27-57 | re-printing what was accepted gives the bytes read, except IPv4 with port bytes other than the last octet |
| Codec.PortCounterexample | src/req_addr.rs:33-35 | 10.0.0.1:80 is read as port 256 |
| Handshake.SegmentationIndependence | src/socks5/incoming.rs:90-185 | for every cutting of the client's bytes the suspended task ends as one run over the concatenation: outcome or pending read, bytes written, bytes unread |
| Handshake.RunResumes | src/socks5/incoming.rs:90-185 | a waiting run, given more bytes, goes on as the run over all of them |
| Handshake.FinishedIgnoresTheRest | src/socks5/incoming.rs:90-185 | a finished handshake has read exactly the bytes it consumed; anything may follow |
| Handshake.PrefixWaits | src/socks5/incoming.rs:90-185 | on every proper prefix of what it reads the handshake waits and has said no more than the start of what it will say |
| Handshake.WriteFailureTruncates | src/socks5/incoming.rs:96-101 | wherever writing fails, the client has exactly that many bytes of what it would have received |
| Requests.NegotiationDecides | src/socks5/incoming.rs:103-131 | without an offer of NO AUTHENTICATION at most a refusal is written and nothing accepted; with one, the request follows the selection |
| Requests.RequestDecides | src/socks5/incoming.rs:133-185 | the complete account of a request: replies written, bytes read, result, for every input and failure point |
| Requests.DebugLoggingPanics | src/socks5/incoming.rs:166-173 | one request that is refused, or panics the proxy when debug logging is on |
| Requests.AcceptsWellFormed | src/socks5/incoming.rs:103-185 | every greeting with a readable CONNECT request is accepted, consuming exactly those bytes |
| Requests.AcceptedIsWellFormed | src/socks5/incoming.rs:103-185 | nothing else is accepted: an accepted stream is greeting, CONNECT request and unread rest |
| Wire.Selection | src/socks5/incoming.rs:103-131 | in bytes: a greeting that lists method 0 is answered 05 00 and the request is served; any other is answered 05 FF |
| Wire.OtherVersion | src/socks5/incoming.rs:106-113 | in bytes: a greeting of another version than 5 gets no answer |
| Wire.AcceptsIPv4 | src/socks5/incoming.rs:103-185 | in bytes: 05 01 xx 01 with four address and two port bytes is accepted, having been answered 05 00 only, with the port of the last octet and the first port byte |
| Wire.AcceptsIPv6 | src/socks5/incoming.rs:103-185 | in bytes: 05 01 xx 04 with sixteen address and two port bytes is accepted, eight segments and the port, high bytes first |
| Wire.AcceptsDomain | src/socks5/incoming.rs:103-185 | in bytes: 05 01 xx 03 with a name of at most 253 bytes and two port bytes is accepted |
| Wire.BadNameRequest | src/socks5/incoming.rs:166-183 | in bytes: a name that is not UTF-8 is answered 05 08 with 127.0.0.1 and port 0, or panics when debug logging is on |
| Wire.LongNameRequest | src/socks5/incoming.rs:166-169 | in bytes: a name of 254 or 255 bytes panics once its length is read |
| Wire.OtherCommand | src/socks5/incoming.rs:146-151 | in bytes: every command but 1 is answered 05 07 with 127.0.0.1 and port 0 |
| Wire.OtherType | src/socks5/incoming.rs:174-183 | in bytes: every address type but 1, 3 and 4 is answered 05 08, twice unless the first answer does not fit |
| Wire.OtherRequestVersion | src/socks5/incoming.rs:138-144 | in bytes: a request of another version than 5 gets no answer |
| Wire.IPv4Reply | src/socks5/incoming.rs:187-221 | in bytes: 05, code, 00, 01, the octets, the port with its high byte first |
| Wire.IPv6Reply | src/socks5/incoming.rs:187-221 | in bytes: 05, code, 00, 04, each segment and the port with its high byte first |
| Wire.DomainReply | src/socks5/incoming.rs:187-221 | in bytes: 05, code, 00, 03, length, name, the port with its high byte first |
| Incoming.Socks5Connected.ReadExact | src/socks5/incoming.rs:90-95 | fills the slice from the stream, NotConnected without one |
| Incoming.Socks5Connected.WriteAll | src/socks5/incoming.rs:96-101 | appends to the stream up to its failure point, NotConnected without one |
| Incoming.Socks5Connected.SendFinalResponse | src/socks5/incoming.rs:187-221 | the buffer laid out in place is the reply of RFC 1928, or the call panics exactly for names over 254 bytes |
| Incoming.PutHost | src/socks5/incoming.rs:192-215 | address type and address laid out from index 3, nothing in front touched |
| Incoming.PutSegments | src/socks5/incoming.rs:198-206 | the segment loop writes the sixteen bytes, at position 4 + 2k after k segments |
| Incoming.PutPort | src/socks5/incoming.rs:216-218 | with the port behind the address the buffer holds the whole reply |
| Incoming.Socks5Connected.AuthenticateClient | src/socks5/incoming.rs:103-131 | leaves the request as the next bytes, or fails as the handshake run does |
| Incoming.Socks5Connected.ReadTail | src/socks5/incoming.rs:153-173 | the second read of a request takes exactly the address and port and parses them |
| Incoming.Socks5Connected.GetRequest | src/socks5/incoming.rs:133-185 | bytes read, bytes written and result are those of the run from behind the negotiation |
| Incoming.Socks5Connected.NextRequest | src/socks5/incoming.rs:28-33 | bytes read, bytes written and result are those of the whole run |
| Incoming.Socks5Connected.Abort | src/socks5/incoming.rs:34-37 | sends one final reply whose second byte is 1, 3, 4, 5 or 6 for general failure, network unreachable, host unreachable, refused, timed out |
| Incoming.Socks5Connected.ReadyForConnect | src/socks5/incoming.rs:38-47 | hands over the stream exactly when the Success reply went out, and keeps none |
| Incoming.ReasonsDistinguish | src/socks5/incoming.rs:78-88 | the five connect errors have five codes, none used for anything else |
| Incoming.HandoverIsFinal | src/socks5/incoming.rs:38-47 | on values: after the hand-over no sequence of calls touches the tunnel; each gives NotConnected or panics before writing |
| Incoming.OneOwner | src/socks5/incoming.rs:38-47 | on values: over any sequence of calls the stream has one owner; a hand-over is one call, behind a complete Success reply, and all later calls are turned away |
| Incoming.Execute | src/socks5/incoming.rs:26-48 | one call on the object: its stream, the stream handed over and the answer are those of the call on values |
| Incoming.ExecuteAll | src/socks5/incoming.rs:26-48 | any sequence of calls on the object does as on values: without a stream all are turned away and no stream may change; with one, it stays or is handed over once, behind a complete Success reply |
| Relay.DirectionsAreIndependent | src/connection.rs:42-44 | under any interleaving each direction ends as if copied alone |
| Relay.Conserved | src/connection.rs:42-43 | delivered, buffered and pending bytes always make up the source, in order |
| Relay.TunnelIsFaithful | src/connection.rs:42-54 | each side has received a prefix of what the other sent at every moment, and everything when the result is Ok |
| Relay.CanCompleteIff | src/connection.rs:42-54 | whatever the schedule so far, the transfer can go on to an Ok with both directions delivered exactly when no copy has met an error |
| Relay.BrokenOnlyByFailure | src/connection.rs:42-54 | the result blames a copy only if an error event of that very direction occurred |
| Relay.StatusIff | src/connection.rs:42-43 | for every schedule a copy has ended badly exactly when the first event that could end it is an error of it, well exactly when it is the end of a source delivered in full, and otherwise runs |
| Relay.OutcomeIff | src/connection.rs:44-54 | for every schedule: unfinished while a copy has not ended; else an error of the second copy if it ended badly, whatever the first did; else of the first if that did; else Ok |
| Relay.Bicopy | src/connection.rs:31-55 | moves the bytes of both streams as the two interleaved copies do and combines their results as `join!` does |
| Relay.CopyStep | src/connection.rs:42-43 | one step of a copy on the streams |
| Session.TranscriptSafety | src/client_manager.rs:11-41 | the client receives the beginning of selection, final replies, tunnel; replies only after NO AUTHENTICATION, Success only after a successful connect, tunnel bytes only behind a complete Success reply |
| Session.SecondReplyIff | src/socks5/incoming.rs:174-183 | at most one final reply, except two for an unknown address type, exactly when the first fits |
| Session.SecondReplyExample | src/socks5/incoming.rs:174-183 | one request that is answered twice in every world |
| Session.EchoIff | src/client_manager.rs:11-29 | a well-formed client gets one reply, with code 0 for a connect that succeeds, 1 for an unsupported outgoing type or a general failure, 3, 4, 5 and 6 for the other errors; the selection and that reply are what it receives, as far as writing succeeds; it echoes the request's address bytes, and that address is dialled, exactly for faithful addresses |
| Session.IPv4Session | src/client_manager.rs:11-29 | in bytes: the address dialled and the reply for an IPv4 request |
| Session.IPv6Session | src/client_manager.rs:11-29 | in bytes: the address dialled and the reply for an IPv6 request |
| Session.DomainSession | src/client_manager.rs:11-29 | in bytes: the address dialled and the reply for a domain request |
| Session.TunnelCarriesTheRest | src/client_manager.rs:18-29 | the target receives a prefix of the bytes behind the request, the client a prefix of the target's, all of them after an Ok |
| Session.LongNamePanics | src/socks5/incoming.rs:166-169 | a name of 254 or 255 bytes panics after the method selection, with no reply |
| Session.HandleClient | src/client_manager.rs:11-41 | bytes to the client, bytes to the target, address dialled and stream hand-over are those of `Serve` |
| Session.ProcessRequest | src/client_manager.rs:18-29 | the reply for the outcome of the connect, and the tunnel behind a complete Success reply |
| Lines.SplitConcat | src/http_parse/mod.rs:23-32 | splitting the front first and carrying the unfinished line over gives the lines of the whole |
| Lines.JoinSplit | src/http_parse/line_parser.rs:14-40 | of the reference: its lines each followed by CR LF, then its rest, are the stream |
| Lines.SplitJoin | src/http_parse/line_parser.rs:14-40 | CR LF free lines joined and split come back, also those ending in CR or beginning with LF |
| Lines.SplitIff | src/http_parse/line_parser.rs:14-40 | splitting is the only way to take a stream apart into CR LF free lines, each followed by CR LF, and a CR LF free rest |
| LineParsers.LineParser.ParseLineHttp | src/http_parse/line_parser.rs:14-40 | the scanning loop answers with the first CR LF and leaves `buf` and `saw_return` as specified, or panics |
| LineParsers.ParseChunks | src/http_parse/mod.rs:23-33 | driving the object with all chunks of a stream, re-offering what is left of each, gives the lines and the state of the run on values |
| LineParsers.CountInRange | src/http_parse/line_parser.rs:14-40 | a returned count lies between 1 and the length offered |
| LineParsers.CallAgreesIff | src/http_parse/line_parser.rs:14-40 | from every reachable state a call returns the first line of pending and offered bytes exactly when it is no hazard, and keeps the invariant |
| LineRuns.RunAgreesIff | src/http_parse/line_parser.rs:14-40 | for every chunking of every stream the lines are those of the whole stream and `buf` the bytes behind the last CR LF, exactly when no byte is dangerous, which is a condition on the stream and its cuts alone |
| LineRuns.SmoothIffOrderly | src/http_parse/line_parser.rs:14-40 | some call of a run is a hazard exactly when some byte is dangerous: a chunk that is an LF behind a CR, or an LF at a stale line start whose chunk goes on |
| LineRuns.JoinedLinesComeBackIff | src/http_parse/line_parser.rs:14-40 | joined lines, cut up in any way and parsed, come back unchanged exactly when no byte is dangerous |
| LineRuns.PanicsIff | src/http_parse/line_parser.rs:16-19 | for every chunking of every stream: the parser panics exactly when an LF is at a stale line start and its chunk goes on, given the stream and its cuts |
| LineRuns.RejoinIff | src/http_parse/line_parser.rs:14-40 | for every chunking of every stream: returned lines each followed by CR LF, then `buf`, are a prefix of the stream, and all of it exactly when the parser does not panic - also when it missed a CR LF |
| LineRuns.MissedLine | src/http_parse/line_parser.rs:16-19 | a fresh parser misses the CR LF of a line whose LF comes alone |
| LineRuns.StaleFlagPanics | src/http_parse/line_parser.rs:16-19 | a fresh parser panics on an empty `buf` in its second chunk |
| HeaderParsers.HttpHeaderParser.ParseHttp | src/http_parse/mod.rs:22-63 | the loop computes what is handed to httparse, and terminates |
| HeaderParsers.ParseHttpChunks | src/http_parse/mod.rs:22-63 | calling the object with chunk after chunk ends as the run on values |
| HeaderParsers.CallWhileInStep | src/http_parse/mod.rs:22-63 | while every chunk ends a line, a call keeps data and line count equal to the stream's, hands over its block, crashes on a stale pair, or falls behind for good |
| HeaderParsers.NeverRight | src/http_parse/mod.rs:25-35 | once bytes are lost, the pair handed over is never the right one |
| HeaderParsers.HeaderBlockIff | src/http_parse/mod.rs:22-63 | for every chunking of a stream with a complete header block, the right (data, capacity) is handed over by the call that completes it and no earlier one, exactly when earlier chunks end lines and no stale pair occurs; the right capacity is 0 if the first line is empty, else one less than the lines in front of the empty one |
| HeaderParsers.ExpectedIsBlock | src/http_parse/mod.rs:22-63 | the reference run is a function of the stream: its block, its count, and the first call that completes it |
| HeaderParsers.BlockIsLines | src/http_parse/mod.rs:27-34 | the block is the lines up to and including the first empty one, and its count that of the lines before |
| HeaderParsers.MidLineCounterexample | src/http_parse/mod.rs:27-61 | a request line in two chunks is handed over without its first part |
| HeaderParsers.StaleCounterexample | src/http_parse/mod.rs:22-33 | a complete header block in one chunk that panics |
| HeaderTimings.HandsOverIff | src/http_parse/mod.rs:22-35 | for every chunking of a stream with an empty line the call that hands over does so at the first one, with one header less than there are lines before it, exactly when no byte up to there is dangerous - also when cuts are in mid-line |
| HeaderTimings.TimingIsRight | src/http_parse/mod.rs:22-62 | for every chunking of every stream without a dangerous byte in its block: the calls before the block is complete ask for more, and the one that completes it hands over with the right capacity; of a stream without an empty line the run is right exactly when the line parser does not panic |
| HeaderTimings.LinesCountedIff | src/http_parse/mod.rs:22-33 | for every chunking of a stream without an empty line, all calls ask for more and `lines_cnt` is the number of lines completed, exactly when no byte is dangerous |
| HeaderTimings.AsksForMoreIff | src/http_parse/mod.rs:22-33 | for every chunking of a stream without an empty line: every call asks for more exactly when the line parser does not panic, as the stream and its cuts decide, and otherwise some call panics |
| HeaderTimings.NeverEarly | src/http_parse/mod.rs:22-33 | whatever the chunks, no call hands over before an empty line has been offered |
| HeaderTimings.RightByAccident | src/http_parse/mod.rs:22-35 | a run with a dangerous byte that hands over in the right call with the right capacity, at a later empty line |
| HeaderTimings.DataIsTaken | src/http_parse/mod.rs:23-33 | what a call adds to `data` is exactly what it has taken as lines, and nothing of the rest of its input |
| Futures.OnePoll | src/future_ext.rs:40-154 | one poll takes any tree from its n-th state to the next, answering as its meaning says |
| Futures.TreeCompletes | src/future_ext.rs:40-154 | every tree completes at exactly the poll given by maximum and minimum, with exactly that value, never polling a completed future or reaching `unreachable!()` |
| Futures.SourceCompletes | src/future_ext.rs:40-154 | a source completes at the poll its time names, with its value |
| Futures.JoinOfSides | src/future_ext.rs:59-106 | join of any two trees gives both values, the first on the left, at the later of the times at which they complete alone |
| Futures.AltOfSides | src/future_ext.rs:29-57 | alt of any two trees gives the value of the earlier side in its place, or both at once |
| Futures.JoinOnOkOfSides | src/future_ext.rs:109-158 | join_on_ok of any two trees gives a strictly earlier error alone, or both results at the later time |
| Futures.EachSourcePolledUntil | src/future_ext.rs:40-154 | each source is polled until it or a node above it completes, and not once more |
| Futures.SlotsAreSound | src/future_ext.rs:80-153 | in every reachable state at most one slot of a node is filled, with the value of its own completed side |
| Futures.JoinAssociative | src/future_ext.rs:59-106 | both nestings of three futures complete at the same poll with the same values |
| Futures.JoinAssociativePolls | src/future_ext.rs:59-106 | and every source of the three is polled equally often |
| Futures.JoinCommutative | src/future_ext.rs:59-106 | swapped sides complete alike, with pair, states and slots swapped |
| Futures.JoinOnOkCompletes | src/future_ext.rs:109-158 | a strictly earlier failure completes at once with that error alone; otherwise both results at the later time |
| FutureNodes.FutureNode.Poll | src/future_ext.rs:40-154 | polling the objects in place is the poll of the tree they stand for |
| FutureNodes.PollRepeatedly | src/future_ext.rs:40-154 | polling the objects again and again is the run on the tree, and a fresh tree completes at the poll and with the value it means |
| FutureNodes.FutureNode.Combine | src/future_ext.rs:59-106 | takes ownership of two futures, the first on the left |
| FutureNodes.RunJoin | src/future_ext.rs:59-106 | on objects: join completes at the later time with both values, the first on the left |
| FutureNodes.RunAlt | src/future_ext.rs:29-57 | on objects: alt completes at the earlier time with the value of that side in its place, or both |
| FutureNodes.RunJoinOnOk | src/future_ext.rs:109-158 | on objects: join_on_ok completes with a strictly earlier error alone, or with both results at the later time |

## Left out

- Handshake.Deliver: the suspended task is modelled on values; wakers, pinning and allocation are not part of it.
- Futures.Source: what an inner future does is reduced to the poll of the root at which it becomes ready, and polling it again counts as misuse.
- FutureNodes.FutureNode: one class with a kind stands for the three generic future types and the opaque ones inside them.
- Relay.Half.Step: tokio's `copy` is any interleaving of partial reads and writes; an error can come at any step, and a connection's write budget is not consulted inside the tunnel.
- HeaderTimings.TimingIsRight: for streams with an empty line it goes one way, because the converse is false (`HeaderTimings.RightByAccident`); the exact conditions are those of `HeaderTimings.HandsOverIff`, and for the calls before that line of `HeaderTimings.AsksForMoreIff`.
- HeaderParsers.RunHttp: a run ends with the first call that hands over; httparse, request building and later calls on the same parser are not modelled.
- Incoming.Verdict: a read that fails for another reason than end of stream is not told apart from it.
- Socket accept, bind, connect, name resolution and the operating system's error numbers.
- Logging other than the panic it can cause, configuration, command line and `Display`.
- `drop_guard`, `FlagFuture`, memory ordering and unsafe code.
- `src/tls_stream.rs`, `src/wsocket.rs`, `src/stream_wrap.rs`, `src/hyper_tls_server.rs` and `src/rocks`: glue over libraries that are not part of this model.
