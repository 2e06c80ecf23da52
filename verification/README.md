# nanosrv, modelled and verified in Dafny

nanosrv is an event-driven network library: a port to C++ of a C web server library, with a thread-sharded
accept loop of its own. Most of it is hand-written state machines over mutable buffers. This project models those
machines in the form the code has (loops over variables, classes whose methods update fields, in-place moves in one
receive buffer, threads as steps of a relation) and proves what each of them is for.

| part | files | what is proved |
|---|---|---|
| JSON path queries | `Json*.dfy` | the one-pass automaton against recursive lookup; exactly for which paths all that is selected is found, and all that is missing reported, in documents with plain keys and in all documents |
| Sharded hand-off | `Sharded*.dfy` | an invariant over every interleaving of acceptor, workers, `stop` and `drain`, and its consequences |
| WebSocket | `Ws*.dfy` | frame round trip, independence of segmentation, delivery of every legal stream, the in-place code against the stream function |
| HTTP | `Http*.dfy` | written heads read back part by part, stability of parsing, chunked coding both ways, pipelining over any events, the in-place code against the stream function |
| Glob matching | `Match.dfy` | the single-backtrack loop against the declarative relation, and exactly for which subjects, and which patterns of characters and stars, they agree |
| SHA-1 | `Sha1.dfy` | the in-place schedule and rotated registers against FIPS 180-4, splitting and padding |
| Base64 | `Base64.dfy` | two encoders and a decoder, round trip for every byte string |
| Printing | `PrintBuffer.dfy`, `Fmt.dfy` | contents and linear cost of geometric growth, integers digit by digit |
| DNS names | `Dns.dfy` | the question written decodes to the name, and exactly for which names |
| Addresses | `Address.dfy` | every printed address is read back, `::` is filled as RFC 4291 says |
| Timers | `Timer.dfy`, `TimerList.dfy` | expiries per period, the grid, once-only timers; the linked list cut and extended under the walk |
| Manager | `Manager.dfy`, `Chains.dfy` | connection list, recycled pool and counters under every operation, and under a walk during which connections arrive and are marked; chains of `next` fields |
| Buffers | `IoBuf.dfy`, `Bytes.dfy`, `Sequences.dfy`, `Numbers.dfy`, `Wrappers.dfy` | the growable buffer under the parsers, sequence and arithmetic facts |

The usual shape: a datatype holds a snapshot of the state, a pure function says what one operation makes of it, a class
with the fields of the source carries methods with the loops of the source, and each method's contract ties its
effect to that function. What the source promises is then proved of the functions, for all inputs, all splits or all
runs. For a promise that the code does not keep there is the exact condition under which it is kept.

Where the code and what one might take it to promise differ, the code was followed:

- `json_get` answers some failing lookups from a sibling (`JsonGet.TrapIsAnswered`), takes the first member for one whose name is empty (`JsonGet.EmptyNameAnswersFirst`) and a key with a dot or an opening bracket in it for several segments of the path (`JsonGet.DottedIsAnswered`, at an input `JsonGet.DottedKeyAnswered`; what is left of lookup then is `JsonGet.SelectedFoundAnyKeysIff` and `JsonGet.MissingReportedAnyKeysIff`), and stops reading an exponent once it has reached 308 (`JsonTokens.NumberConsumedIff`).
- `match` lets `*` cross a slash and makes `#` stop at one in some patterns (`Match.ExactIffNoSlash`, `Match.ExactIffTame`).
- `skip_chunk` calls a size line that is cut after three bytes an error (`Http.ChunkedClearIff`).
- `Connection: close` is honoured only when the handler has answered before it returns; a request answered later does not end the stream (`Http.AnsweredLater`, at an input `HttpHead.LateAnswerToClose`).
- The HTTP/1.0 exemption from chunked coding can never hold for a request (`Http.Http10NeverExempts`).
- `http_parse` returns 0, "not yet complete", for a complete head with a stray CR in its first line (`HttpParse.StrayCrIff`, at an input `HttpParse.StrayCrHead`), and the connection is stuck for good (`Http.StuckForGood`).
- A stray continuation frame and a message begun inside another one are glued instead of refused (`WsMessages.StrayContinuation`, `WsMessages.NestedStart`).
- With one worker the first client has the id reserved for wake-ups (`ShardedRuns.WakeIdCollidesIff`).
- `dns_send` drops labels that end beyond 250 bytes (`Dns.QuestionAsksIff`).

Verify with `dafny verify dfyconfig.toml`, adding `--resource-limit 2000000 --verification-time-limit 0`.

## Model

| member | source | states |
|---|---|---|
| `JsonGet.Get` | `projects/nanosrv/json.cpp:161-329` | The loop of `json_get`, run on the real variables and the 30-entry nesting buffer, answers offset and token length (or -1, -2, -3) exactly as the automaton `Json.Query` prescribes, for every text and every path. |
| `JsonGet.Scanner.Turn` | `projects/nanosrv/json.cpp:202-327` | One turn of the loop makes the transition that the automaton makes in that state on that character. |
| `JsonGet.Scanner.Value` | `projects/nanosrv/json.cpp:207-264` | The case S_VALUE: containers opened, closed or descended into, scalars passed, the answer given when the path ends here. |
| `JsonGet.Scanner.OpenObject` | `projects/nanosrv/json.cpp:212-221` | `{`: too deep at thirty, one path segment entered when the path asks for a member here, the bracket pushed in place. |
| `JsonGet.Scanner.OpenArray` | `projects/nanosrv/json.cpp:222-236` | `[`: too deep at thirty, the wanted index read from the path when the path asks for one here, the bracket pushed. |
| `JsonGet.Scanner.Scalar` | `projects/nanosrv/json.cpp:239-264` | Literals, numbers, strings, and everything that is no value. |
| `JsonGet.Scanner.Key` | `projects/nanosrv/json.cpp:266-299` | The case S_KEY: the key moves the path cursor exactly when it is the next name of the path, and the early answers "not found". |
| `JsonGet.Scanner.CommaOrEnd` | `projects/nanosrv/json.cpp:309-325` | The case S_COMMA_OR_EOO. |
| `JsonGet.Scanner.Close` | `projects/nanosrv/json.cpp:190-200` | The macro MG_EOO: index test, bracket test, one level up, and then the answer or the next index. |
| `JsonGet.Scanner.FinishValue` | `projects/nanosrv/json.cpp:181-188` | The macro MG_CHECKRET and the index step after it. |
| `JsonGet.PassString` | `projects/nanosrv/json.cpp:22-35` | `pass_string` returns the length up to the closing quote, or -2 when there is none. |
| `JsonGet.NumberLength` | `projects/nanosrv/json.cpp:37-97` | The number of characters that `atod` reports as consumed. |
| `JsonGet.PassIndex` | `projects/nanosrv/json.cpp:227-231` | The loop over the digits of a path index. |
| `JsonTokens.StringConsumed` | `projects/nanosrv/json.cpp:22-35` | `pass_string` finds the closing quote of every RFC 8259 string, whatever escapes it holds. |
| `JsonTokens.NumberConsumedIff` | `projects/nanosrv/json.cpp:37-97` | A printed number is consumed whole if and only if the digits of its exponent before the last spell less than 308. |
| `JsonGet.NumberAnsweredIff` | `projects/nanosrv/json.cpp:248-263` | The query `$` on a number answers the whole number if and only if its exponent is that short. |
| `JsonTokens.IndexReadBack` | `projects/nanosrv/json.cpp:225-234` | The decimal index printed in a path is read back as that index. |
| `JsonGet.SelectedIsFound` | `projects/nanosrv/json.cpp:161-329` | For every document nested at most 30 deep, printed with any white space, and every path without an empty name that recursive lookup resolves, the answer is exactly the offset and the length of the selected value; this when no key of the document has a dot or an opening bracket in it, or the only member name of the path is its last segment, in which case the keys are any. |
| `JsonGet.SelectedFoundIff` | `projects/nanosrv/json.cpp:161-329` | For every path: everything it selects in documents whose keys have no dot and no opening bracket is found so, if and only if none of its names is empty, or it can be followed in no document at all (more than thirty segments, or a name that cannot be a key). |
| `JsonGet.SelectedFoundAnyKeysIff` | `projects/nanosrv/json.cpp:161-329` | For every path: everything it selects in documents with any keys is found so, if and only if none of its names is empty and every segment before the last is an index, or it selects nothing in any document. |
| `JsonGet.LureIsAnswered` | `projects/nanosrv/json.cpp:266-299` | For every path with an empty name that can be followed there is a document in which another value is answered than the one selected, and one in which nothing is selected and a value is answered. |
| `JsonGet.EmptyNameAnswersFirst` | `projects/nanosrv/json.cpp:280-296` | In `{"a":1,"":2}` the path `$.` selects the 2 at offset 10 and is answered with the 1 at offset 5. |
| `JsonGet.DottedIsAnswered` | `projects/nanosrv/json.cpp:280-296` | For every path with a member name before its last segment that can be followed there is a document, with the rest of the path as a key, in which another value is answered than the one selected, and one in which nothing is selected and a value is answered. |
| `JsonGet.DottedKeyAnswered` | `projects/nanosrv/json.cpp:280-296` | In `{"a.b":1}` the path `$.a.b`, which has neither an empty name nor an index, selects nothing and is answered with the 1. |
| `JsonGet.FoundOrMissing` | `projects/nanosrv/json.cpp:161-329` | Whatever the path and the keys, a valid document is never refused as invalid or too deep; and a value is answered only for paths that can be followed: in documents with plain keys at most thirty segments, with any keys at most thirty levels, since one key may pass the first name and all that comes after it. |
| `JsonGet.OffsetPointsAt` | `projects/nanosrv/json.cpp:161-329` | At that offset and with that length stands the printed form of the value that lookup selects. |
| `JsonGet.MissingIsReported` | `projects/nanosrv/json.cpp:161-329` | A lookup that fails is reported as not found whenever no array index comes before the last segment of the path and no name is empty, in documents whose keys have no dot and no opening bracket, and with any keys for paths of one segment. |
| `JsonGet.TrapIsAnswered` | `projects/nanosrv/json.cpp:225-234` | For every path without an empty name that can be followed and has an index before its last segment there is a document in which the lookup fails and a value is answered all the same, taken from a sibling. |
| `JsonGet.MissingReportedIff` | `projects/nanosrv/json.cpp:161-329` | For every path: all its failing lookups in documents whose keys have no dot and no opening bracket are reported, if and only if no index comes before its last segment and none of its names is empty, or it can be followed in no document at all. |
| `JsonGet.MissingReportedAnyKeysIff` | `projects/nanosrv/json.cpp:161-329` | For every path: all its failing lookups in documents with any keys are reported, if and only if it has at most one segment and that is no empty name, or it can be followed in no document, not even by a key that joins several of its segments. |
| `JsonGet.SelectedComplete` | `projects/nanosrv/json.cpp:161-329` | A path that selects something has no more segments than the document has levels, and only names that can be keys. |
| `ShardedRuns.StepKeepsInv` | `projects/nanosrv/sharded.cpp:58-106` | Every atomic step of the acceptor, of a worker or of another thread keeps the invariant: slots counted, cap kept, one holder for every descriptor, wake-up behind every queued connection, ids partitioned, end of the run explained. |
| `ShardedRuns.RunKeepsInv` | `projects/nanosrv/sharded.cpp:237-340` | The invariant holds in every state of every interleaving from the entry of the loops of `run()` on. |
| `ShardedRuns.SlotsAndCap` | `projects/nanosrv/sharded.cpp:210-228` | `live_conns_` equals the slots reserved and not pushed, plus queued, plus popped and not adopted, plus adopted without a delivered close, and a positive cap is never exceeded. |
| `ShardedRuns.HeldOnceThenClosedOnce` | `projects/nanosrv/sharded.cpp:197-234` | Every accepted descriptor is held by exactly one party until it is closed, and it is closed exactly once. |
| `ShardedRuns.NoLostHandoff` | `projects/nanosrv/sharded.cpp:229-295` | In a running manager, outside the push-to-wake window of a worker, a nonempty queue has a datagram pending in its pipe, or its worker is not between an empty drain and the end of its wait. |
| `ShardedRuns.HandoffIsReached` | `projects/nanosrv/sharded.cpp:271-295` | From such a state the worker alone can take the head of its queue within six own steps, woken by the pipe and not by the fallback timeout. |
| `ShardedRuns.HandoffByAnySchedule` | `projects/nanosrv/sharded.cpp:271-295` | In a running manager whose drain deadline has not passed, every schedule of own steps of the worker takes the head of its queue, at the latest after two steps for each connection it serves, one for each datagram in the pipe and six more, whichever connections it closes on the way. |
| `ShardedRuns.DrainEndsEmpty` | `projects/nanosrv/sharded.cpp:303-312` | Once `run()` has ended through the test `live_conns_ == 0` while draining, in every later state all queues are empty, no worker holds a connection and nothing is in the hands of the acceptor. |
| `ShardedRuns.EndsEmptyUnlessForced` | `projects/nanosrv/sharded.cpp:278-312` | Without `stop()` and without an elapsed deadline `running_` is cleared only when nothing is queued, adopted or counted. |
| `ShardedRuns.FinishedCount` | `projects/nanosrv/sharded.cpp:314-337` | After the final flush every queue is empty, every worker has left its loop and `live_conns_` counts exactly the connections the workers still own. |
| `ShardedRuns.IdsRoute` | `projects/nanosrv/sharded.cpp:119-137` | Two connections alive at the same time have different ids, and the id modulo N names the worker, as `ShardedManager::wakeup` assumes. |
| `ShardedRuns.WakeIdIsFree` | `projects/nanosrv/sharded.cpp:43-53` | With two workers or more no adopted connection ever has the id reserved for wake-ups. |
| `ShardedRuns.WakeIdCollidesIff` | `projects/nanosrv/sharded.cpp:119-137` | A run in which an adopted connection has that id exists if and only if there is a single worker. |
| `ShardedRuns.FirstPush` | `projects/nanosrv/sharded.cpp:203-234` | A run that leads from the accept of the first connection to its push, on the single worker used for the collision. |
| `Sharded.RoundRobin` | `projects/nanosrv/sharded.cpp:227-228` | The worker picked is one of the N workers, whatever the counter has reached. |
| `ShardedInvariant.WorkerKeepsCounts` | `projects/nanosrv/sharded.cpp:58-106` | Pop, adopt, failed adoption, wait and close of a worker keep slot count, cap and single holders, and never raise the count. |
| `ShardedInvariant.AdmitKeepsCounts` | `projects/nanosrv/sharded.cpp:203-228` | So do the steps of the accept handler up to the choice of a worker: drain test, cap test, detach, reserve. |
| `ShardedInvariant.HandoffKeepsCounts` | `projects/nanosrv/sharded.cpp:229-233` | So do push and wake. |
| `ShardedInvariant.FlushKeepsCounts` | `projects/nanosrv/sharded.cpp:326-337` | So does closing the descriptors still queued at the end. |
| `WsFrame.WireRead` | `projects/nanosrv/ws.cpp:68-128` | A frame in any of the three length forms, masked or not, with up to 2^30 bytes of payload and followed by anything, is read back by `ws_process`: its length, its flags and its original payload. |
| `WsFrame.PrefixWaits` | `projects/nanosrv/ws.cpp:72-98` | On every proper prefix of a frame `ws_process` returns 0 and changes no byte. |
| `WsFrame.LaterBytes` | `projects/nanosrv/ws.cpp:72-98` | Bytes that arrive later do not change what is read of a complete frame, and are not touched. |
| `WsFrame.MaskedTwice` | `projects/nanosrv/ws.cpp:93-97` | Masking twice with the same key gives the payload back. |
| `WsConnection.Process` | `projects/nanosrv/ws.cpp:68-99` | `ws_process` on the block of the buffer: header fields, returned length, and the payload unmasked where it stands, nothing else changed. |
| `WsConnection.ReadMsg` | `projects/nanosrv/ws.cpp:70-88` | The header fields in the order in which the code tests the length forms. |
| `WsConnection.Unmask` | `projects/nanosrv/ws.cpp:93-97` | The in-place exclusive or with the four bytes before the payload. |
| `WsConnection.Connection.Mkhdr` | `projects/nanosrv/ws.cpp:101-128` | `mkhdr` writes the RFC 6455 header with the shortest length form, and for a client four fresh random key bytes. |
| `WsConnection.Connection.Mask` | `projects/nanosrv/ws.cpp:130-138` | `ws_mask` masks the last bytes of the send buffer with the four bytes before them, for a client only. |
| `WsConnection.Connection.SendFrame` | `projects/nanosrv/ws.cpp:140-151` | `ws_send` appends exactly the wire form of a final frame with this opcode and payload and returns its length. |
| `WsConnection.Connection.Wrap` | `projects/nanosrv/ws.cpp:333-345` | `ws_wrap` turns the last bytes of the send buffer into the very same wire form. |
| `WsConnection.Connection.Slide` | `projects/nanosrv/ws.cpp:338-341` | The overlapping move that makes room for the header leaves what is before it and the payload as they were. |
| `WsConnection.Connection.Close` | `projects/nanosrv/ws.cpp:156-163` | A close frame is sent and the connection put into draining state. |
| `WsConnection.Connection.Act` | `projects/nanosrv/ws.cpp:228-254` | The switch on the opcode: events and replies in the order of the code. |
| `WsConnection.Connection.CutFrame` | `projects/nanosrv/ws.cpp:256-265` | The three ways in which a frame is cut out of the receive buffer, with the new `ofs`. |
| `WsConnection.SettledIs` | `projects/nanosrv/ws.cpp:256-265` | After each of them the bytes before `ofs` are the message so far and the bytes behind it the unread ones. |
| `WsConnection.Connection.Complete` | `projects/nanosrv/ws.cpp:266-273` | After the last fragment the glued message is delivered with the flags of its first frame and removed. |
| `WsConnection.Connection.Turn` | `projects/nanosrv/ws.cpp:198-274` | One turn of the loop on both buffers does what the pure transition on kept bytes, unread bytes, events and sent bytes does. |
| `WsConnection.Connection.OnRead` | `projects/nanosrv/ws.cpp:194-275` | A whole READ event leaves buffers, events and sent frames as the stream function `Consume` says. |
| `WsConnection.Connection.Receive` | `projects/nanosrv/ws.cpp:189-277` | The same for bytes that have just arrived from the socket. |
| `WsConnection.Connection.ReceiveAll` | `projects/nanosrv/ws.cpp:189-277` | Any number of such arrivals, one after the other, leave buffers, events and sent frames as `WsStream.Feed` says of the pieces. |
| `WsConnection.Peer.LegalStreamReceived` | `projects/nanosrv/ws.cpp:189-277` | So a new connection that receives a legal stream in any pieces ends with every message delivered once and in order, nothing left in its receive buffer, and in its send buffer exactly the frames that answer control frames. |
| `WsStream.ConsumeMore` | `projects/nanosrv/ws.cpp:194-275` | Reading a part of the stream and then the rest is reading it all at once. |
| `WsStream.CutsDoNotMatter` | `projects/nanosrv/ws.cpp:194-275` | However the bytes are split over READ events the same events and replies happen in the same order up to the first protocol error, and without one the same bytes stay buffered. |
| `WsStream.FramesConsumed` | `projects/nanosrv/ws.cpp:194-275` | Frames that are no violation are handled one after the other with their original payloads. |
| `WsStream.ClosesIff` | `projects/nanosrv/ws.cpp:208-227` | The connection is closed with status 1002 if and only if some frame is an unmasked client frame or a fragmented or overlong control frame. |
| `WsMessages.LegalStreamDelivered` | `projects/nanosrv/ws.cpp:189-277` | For every stream that is legal by section 5.4 of RFC 6455, split in any way, each message is delivered whole, once and in order with its first flags; control frames and later fragments are announced and answered; nothing stays in the buffer. |
| `WsMessages.StrayContinuation` | `projects/nanosrv/ws.cpp:256-273` | Outside that legality: a final continuation with no message open is accepted and its first byte taken for flags. |
| `WsMessages.NestedStart` | `projects/nanosrv/ws.cpp:256-273` | Outside that legality: a message begun inside an unfinished one is glued onto it, flags byte included. |
| `IoBuf.Roundup` | `projects/nanosrv/iobuf.cpp:7-10` | The result is a multiple of the alignment that holds the size and exceeds it by less than the alignment. |
| `IoBuf.RoundupTwice` | `projects/nanosrv/iobuf.cpp:49-55` | A size already rounded is met exactly by `iobuf_resize`, so the test after the resize in `iobuf_add` succeeds. |
| `IoBuf.IoBuf.Resize` | `projects/nanosrv/iobuf.cpp:12-39` | `iobuf_resize`: new size, contents kept as far as they fit, bytes copied only when the size changes. |
| `IoBuf.IoBuf.Add` | `projects/nanosrv/iobuf.cpp:49-64` | `iobuf_add` inserts the bytes at the offset and moves up what follows; behind the end, as far as the block reaches, it puts them there and the contents grow over the gap. |
| `IoBuf.IoBuf.Open` | `projects/nanosrv/iobuf.cpp:49-64` | `iobuf_add` without data makes room at the offset, also behind the end. |
| `IoBuf.IoBuf.Append` | `projects/nanosrv/iobuf.cpp:49-64` | `iobuf_add` at the end appends. |
| `IoBuf.IoBuf.Del` | `projects/nanosrv/iobuf.cpp:66-78` | `iobuf_del` removes the range, cut off at the end of the contents, and keeps the bytes on both sides. |
| `HttpParse.RequestLength` | `projects/nanosrv/http.cpp:219-231` | The loop of `http_get_request_len` returns the end of the head, 0 while it is incomplete, -1 at the first byte that cannot be in it. |
| `HttpParse.ParseStays` | `projects/nanosrv/http.cpp:339-430` | Once the head is complete or refused, what `http_parse` returns does not change with the bytes that arrive later: no byte behind the head is ever looked at. |
| `HttpParse.ParseWaits` | `projects/nanosrv/http.cpp:339-351` | Of every proper prefix of a parsed head `http_parse` says that it is not yet complete. |
| `HttpParse.StrayCrIff` | `projects/nanosrv/http.cpp:339-401` | Of a complete head `http_parse` says that it is not yet complete if and only if a CR without LF stands in its first line. |
| `HttpParse.StrayCrHead` | `projects/nanosrv/http.cpp:264-277` | The eight bytes `G / `, CR, `H`, LF, LF are such a head. |
| `HttpScan.ParseMessage` | `projects/nanosrv/http.cpp:339-430` | `http_parse` as loops over the bytes of the head gives the answer that the theorems on heads speak about. |
| `HttpScan.ParseHeaders` | `projects/nanosrv/http.cpp:279-337` | The loop over the lines, with its five counters, gives the headers in order, or refuses a header given again or a line that is none, or reports too many. |
| `HttpScan.ParseLine` | `projects/nanosrv/http.cpp:292-309` | One line: name, colon, value without the blanks around it. |
| `HttpScan.CountAll` | `projects/nanosrv/http.cpp:310-321` | The counters recognise exactly the second occurrence of a header that may come only once. |
| `HttpScan.PassToken` | `projects/nanosrv/http.cpp:249-262` | The loop over printable characters, UTF-8 sequences included. |
| `HttpScan.PassLine` | `projects/nanosrv/http.cpp:264-277` | `skiptorn`: the end of the text and the start of the next line, and nothing for a stray CR. |
| `HttpScan.FindHeader` | `projects/nanosrv/http.cpp:233-243` | `http_get_header` returns the first header of that name. |
| `HttpScan.ReadSize` | `projects/nanosrv/http.cpp:24-49` | `to_size_t`: digits between blanks, without overflow of 64 bits. |
| `HttpScan.FindLength` | `projects/nanosrv/http.cpp:403-427` | The length of the body, from Content-Length, status 204 or none. |
| `HttpHead.HeadRead` | `projects/nanosrv/http.cpp:339-430` | Every head that RFC 9112 writes, whatever follows it, is read as the parts it was written from: its length, method, target cut at the question mark, version, and all fields in order with the blanks around their values gone, or the refusal that its fields call for. |
| `HttpHead.CollectedIff` | `projects/nanosrv/http.cpp:279-337` | All fields are kept, in order, if and only if there are at most thirty and no header that may come only once comes twice. |
| `HttpHead.AcceptedIff` | `projects/nanosrv/http.cpp:339-430` | A written request is accepted if and only if its fields fit so and the length it declares is a number that can be added to that of the head. |
| `HttpHead.TargetCut` | `projects/nanosrv/http.cpp:385-390` | The target is the path, and after the first question mark the query. |
| `HttpHead.SizeRead` | `projects/nanosrv/http.cpp:24-49` | `to_size_t` gives back every number written in decimal digits, and refuses those beyond 64 bits. |
| `HttpHead.PlainClear` | `projects/nanosrv/http.cpp:778-783` | A written request with a body of the declared length, with or without `Connection: close`, is delivered as soon as it is complete, whatever follows, and not before. |
| `HttpHead.ChunkedClear` | `projects/nanosrv/http.cpp:742-777` | A written request with chunks of any sizes is delivered whole, whatever follows, and no part of it is; no part of it is an error if and only if all its chunks are shorter than 16 bytes. |
| `HttpHead.MessagesDelivered` | `projects/nanosrv/http.cpp:637-800` | Any written requests with any bodies and chunks, with or without `Connection: close`, sent one after the other come out as head and body as they were meant: once each, in order, whatever READ and POLL events their bytes arrive in and whenever answers finish. The connection drains if and only if a delivered request that says close has been answered at once; `error()` is called only when the bytes of some event end inside a size line, with three bytes of it or more there. |
| `HttpHead.LateAnswerToClose` | `projects/nanosrv/http.cpp:785-795` | `GET / HTTP/1.1` with the only field `Connection: close`, sent twice in one go and answered late, is delivered twice. |
| `Http.Http10NeverExempts` | `projects/nanosrv/http.cpp:687-691` | The HTTP/1.0 exemption from chunked coding never applies to a request, since the version is always eight bytes long. |
| `HttpChunk.SkipChunkLoop` | `projects/nanosrv/http.cpp:612-635` | `skip_chunk`: bounds on the digits, overflow, the byte just after the buffered ones, "more" and "error" in the order of the code. |
| `HttpChunk.ChunkRead` | `projects/nanosrv/http.cpp:458-635` | A chunk written by `http_write_chunk`, followed by anything, is read back: prefix length and data length. |
| `HttpChunk.ChunkPrefix` | `projects/nanosrv/http.cpp:612-635` | A proper prefix of a chunk is reported as an error exactly when it is cut inside the size line with three bytes or more buffered (the byte after a final CR permitting), and otherwise as incomplete. |
| `HttpChunk.HexReadBack` | `projects/nanosrv/http.cpp:458-465` | `%lx` and `str_to_num` in base 16 are inverse for all 32-bit sizes. |
| `HttpChunk.WrittenDecoded` | `projects/nanosrv/http.cpp:751-768` | For every list of chunks the decoded body is their concatenation, exactly the encoded bytes are consumed and what follows does not matter. |
| `HttpChunk.PartialBody` | `projects/nanosrv/http.cpp:751-758` | While the zero chunk is incomplete the first pass asks for more, or fails exactly at a cut size line. |
| `HttpChunk.Search` | `projects/nanosrv/http.cpp:751-758` | The first pass finds the zero chunk and moves nothing. |
| `HttpChunk.SecondPass` | `projects/nanosrv/http.cpp:760-768` | The overlapping moves of the second pass leave the concatenated data right after the head and every byte after the zero chunk as it was. |
| `HttpChunk.RelocatedMore` | `projects/nanosrv/http.cpp:762-768` | Moving the data of one chunk down does not disturb the chunks not yet read. |
| `HttpChunk.MoveChunk` | `projects/nanosrv/http.cpp:762-768` | One turn of the second pass. |
| `HttpChunk.Dechunk` | `projects/nanosrv/http.cpp:742-777` | The chunked branch: while the zero chunk is missing, or on an error, no byte is moved or consumed; otherwise the body is decoded in place. |
| `Http.Pipelined` | `projects/nanosrv/http.cpp:637-800` | For every stream of requests that are read whole, whatever their `Connection` headers, every split into READ events, any POLL events and any times at which answers finish: each request is delivered once, in order; the bytes consumed are exactly those of the delivered requests; what is left is not yet a request unless an answer is being generated or the connection drains; it drains if and only if a delivered request that says close has been answered at once; and `error()` is called only when the bytes of some event end in a place where `skip_chunk` fails. |
| `Http.ClearNeverFails` | `projects/nanosrv/http.cpp:742-783` | For streams of requests no part of which fails, `error()` is never called. |
| `Http.AnsweredLater` | `projects/nanosrv/http.cpp:785-795` | Two requests in one READ event, the first answered only later: both are delivered and nothing is left, even if the first says close. |
| `Http.AnsweredAtOnce` | `projects/nanosrv/http.cpp:788-794` | A request that says close and is answered before its handler returns makes the connection drain and leaves what follows it in the buffer. |
| `Http.BusyWaits` | `projects/nanosrv/http.cpp:644-646` | While `is_resp` is set nothing is delivered and nothing consumed. |
| `Http.StuckForGood` | `projects/nanosrv/http.cpp:637-673` | Behind such a head nothing is ever delivered: over all later events the connection only collects what arrives. |
| `Http.LengthRequestClear` | `projects/nanosrv/http.cpp:778-783` | Every request whose body length is given by its head is delivered as soon as it is complete, whatever follows, and not before, with its `Connection: close` if it has one. |
| `Http.ChunkedRequestRead` | `projects/nanosrv/http.cpp:742-777` | A chunked request of any chunk sizes followed by anything is delivered with its head and the joined chunks, and nothing behind it is consumed. |
| `Http.ChunkedRequestPart` | `projects/nanosrv/http.cpp:742-758` | Part of a chunked request waits, or fails exactly when it is cut inside a size line. |
| `Http.ChunkedReadable` | `projects/nanosrv/http.cpp:742-777` | So every chunked request is read whole, whatever follows, and no part of it is delivered. |
| `Http.ChunkedClearIff` | `projects/nanosrv/http.cpp:612-624` | A chunked request may be cut anywhere if and only if every chunk is shorter than 16 bytes. |
| `HttpConnection.Connection.TakePlain` | `projects/nanosrv/http.cpp:778-783` | A message of known length is ready exactly when head and body are there, and head followed by body are then exactly the bytes used; this is what `Http.Next` finds in the stream. |
| `HttpConnection.Connection.TakeChunks` | `projects/nanosrv/http.cpp:742-777` | The chunked branch on the receive buffer at `ofs`: message, bytes used, unread bytes unchanged. |
| `HttpConnection.Connection.TakeBody` | `projects/nanosrv/http.cpp:687-783` | The choice between the two, and the refusal of other transfer codings. |
| `HttpConnection.Connection.Turn` | `projects/nanosrv/http.cpp:644-795` | One turn of the loop of `http_cb` on the receive buffer and the flags. |
| `HttpConnection.Connection.OnEvent` | `projects/nanosrv/http.cpp:637-800` | The loop of `http_cb` on READ or POLL leaves log, flags and buffer as `Http.Serve` says, the processed bytes deleted; after a transfer coding that is not understood nothing is deleted, and the unread bytes stand at the end. |
| `HttpConnection.Connection.Receive` | `projects/nanosrv/http.cpp:637-800` | Bytes that arrive from the socket, followed by the event, are a step of the run about which `Http.Pipelined` speaks. |
| `Match.Match` | `projects/nanosrv/str.cpp:87-126` | The backtracking loop, with its lexicographic measure on last wildcard, retry place and pattern place, answers what the cursor machine `Scan` says. |
| `Match.LastWildcardSuffices` | `projects/nanosrv/str.cpp:107-114` | Forgetting all wildcards but the last loses no match, for every subject without a slash and every tame pattern. |
| `Match.ScanIsHope` | `projects/nanosrv/str.cpp:92-121` | From every reachable cursor the loop succeeds exactly when the current place or a later choice for the last wildcard can still be completed. |
| `Match.MatchIsGlob` | `projects/nanosrv/str.cpp:87-126` | `match` decides the declarative glob relation for every subject without a slash, and on every subject for tame patterns: no `#` before a `*`, and behind each `*` up to the next wildcard no `?` and no slash in the first place, unless the next wildcard follows it. All patterns without `*` are tame. |
| `Match.ExactIffNoSlash` | `projects/nanosrv/str.cpp:87-126` | A subject is matched as the glob relation says by all patterns if and only if it contains no slash. |
| `Match.ExactIffTame` | `projects/nanosrv/str.cpp:87-126` | A pattern of characters and stars is matched as the glob relation says against all subjects if and only if every `*` before a slash has another `*` right behind that slash. |
| `Match.LeapMatches` | `projects/nanosrv/str.cpp:111-114` | Otherwise the loop matches a subject with one slash more than the pattern has, which a `*` has swallowed. |
| `Match.SlashesMatch` | `projects/nanosrv/str.cpp:87-126` | By the glob relation a subject has exactly the slashes of such a pattern. |
| `Match.RetryIsFair` | `projects/nanosrv/str.cpp:111-114` | For tame patterns the `*` never takes a slash when the loop tries again. |
| `Match.NothingLeft` | `projects/nanosrv/str.cpp:111-117` | And giving up at a slash, or at the end, misses no match. |
| `Match.HashStarMissesSlash` | `projects/nanosrv/str.cpp:111-114` | The pattern `#*`, which stands for every text, misses exactly the subjects with a slash. |
| `Match.StarJumpsSlash` | `projects/nanosrv/str.cpp:111-114` | `*` matches across a slash in `/a/b` against `*/b`. |
| `Sha1.Rewritten` | `projects/nanosrv/crypto/sha1.cpp:37-51` | The rewritten choice and majority functions equal those of section 4.1.1 of FIPS 180-4. |
| `Sha1.SwapIsBigEndian` | `projects/nanosrv/crypto/sha1.cpp:16-24` | The rotate-and-mask of `blk0` turns a little-endian load into the big-endian word. |
| `Sha1.NextWord` | `projects/nanosrv/crypto/sha1.cpp:16-36` | `blk0` and `blk` yield word i of the 80-word schedule and keep the sixteen slots ready for the next round. |
| `Sha1.R` | `projects/nanosrv/crypto/sha1.cpp:37-51` | A macro call is one round of section 6.1.2 with the registers in rotated parts. |
| `Sha1.FiveRounds` | `projects/nanosrv/crypto/sha1.cpp:64-68` | After five macro calls every register has its own part again. |
| `Sha1.TwentyRounds` | `projects/nanosrv/crypto/sha1.cpp:64-143` | Twenty rounds of one constant. |
| `Sha1.Transform` | `projects/nanosrv/crypto/sha1.cpp:53-156` | `sha1_transform` with its 16-word in-place schedule is the compression function of section 6.1.2, on machines of either byte order. |
| `Sha1.HashAppend` | `projects/nanosrv/crypto/sha1.cpp:168-188` | Hashing complete blocks first and the rest afterwards is hashing it all. |
| `Sha1.CountStep` | `projects/nanosrv/crypto/sha1.cpp:173-176` | The carry test and the three 32-bit additions keep the 64-bit count of bits, for every length. |
| `Sha1.CountBytes` | `projects/nanosrv/crypto/sha1.cpp:195-199` | The eight bytes written are the bit count modulo 2^64, highest byte first. |
| `Sha1.Context.constructor` | `projects/nanosrv/crypto/sha1.cpp:158-166` | `sha1_init`: the initial value of section 5.3.1 and nothing absorbed. |
| `Sha1.Context.AddCount` | `projects/nanosrv/crypto/sha1.cpp:173-177` | Count and place in the buffer. |
| `Sha1.Context.Blocks` | `projects/nanosrv/crypto/sha1.cpp:178-184` | The buffer filled up, and every further complete block. |
| `Sha1.Context.Update` | `projects/nanosrv/crypto/sha1.cpp:168-188` | After any sequence of updates the context is the one for the concatenated message, so the split does not matter. |
| `Sha1.Context.AddZeros` | `projects/nanosrv/crypto/sha1.cpp:200-205` | The zero bytes of section 5.1.1, one update at a time. |
| `Sha1.Context.Final` | `projects/nanosrv/crypto/sha1.cpp:190-214` | `sha1_final` returns the digest of the padded message of everything absorbed. |
| `Base64.PrintBase64` | `projects/nanosrv/printf.cpp:153-173` | The block encoder `bcpy` emits the RFC 4648 encoding. |
| `Base64.UpdateProgress` | `projects/nanosrv/base64.cpp:39-54` | One byte more, with the pending bits taken from the output buffer, extends the output as the block encoding does. |
| `Base64.Put` | `projects/nanosrv/base64.cpp:39-54` | `base64_update` writes two characters at the place and nothing else. |
| `Base64.Update` | `projects/nanosrv/base64.cpp:39-54` | The same against the bytes put so far: characters, pending bits and returned place. |
| `Base64.FinalIsEncoded` | `projects/nanosrv/base64.cpp:56-69` | A last zero update and the padding turn the progress into the encoding. |
| `Base64.Final` | `projects/nanosrv/base64.cpp:56-69` | `base64_final` leaves the complete encoding, terminated. |
| `Base64.Encode` | `projects/nanosrv/base64.cpp:71-82` | `base64_encode` leaves the RFC 4648 encoding of every byte string, terminated, or returns 0 when the room is too small. |
| `Base64.Encoded` | `projects/nanosrv/base64.cpp:71-76` | The encoding has four characters for every three bytes begun. |
| `Base64.Decode` | `projects/nanosrv/base64.cpp:84-115` | `base64_decode` leaves the decoded bytes, terminated, and returns 0 for a bad length, too little room or a bad group. |
| `Base64.DecodeGroups` | `projects/nanosrv/base64.cpp:93-108` | The loop over groups of four. |
| `Base64.RoundTrip` | `projects/nanosrv/base64.cpp:71-115` | Decoding an encoding gives the bytes back, for every byte string. |
| `PrintBuffer.PutChar` | `projects/nanosrv/printf.cpp:5-27` | `pfn_iobuf_private`: a character appended, terminated, the size grown by one half or to what is needed; without growth as much as fits. |
| `PrintBuffer.CopiesAreLinear` | `projects/nanosrv/printf.cpp:8-20` | Appending n characters to an empty buffer copies at most 3n bytes over all reallocations, for every alignment. |
| `PrintBuffer.FixedHolds` | `projects/nanosrv/printf.cpp:21-27` | A buffer of fixed size ends with the text, or with as much of it as fits before a terminator. |
| `PrintBuffer.Print` | `projects/nanosrv/printf.cpp:5-27` | A text printed into an empty buffer is there, terminated, at that cost. |
| `Fmt.Lld` | `projects/nanosrv/fmt.cpp:134-159` | `lld` leaves the decimal or hexadecimal text of every 64-bit number, sign first. |
| `Fmt.PutReversed` | `projects/nanosrv/fmt.cpp:144-150` | The digits are written from the last to the first. |
| `Fmt.ReverseInPlace` | `projects/nanosrv/fmt.cpp:151-155` | The swaps reverse exactly that stretch of the buffer. |
| `Fmt.DecimalDigits` | `projects/nanosrv/fmt.cpp:147-158` | The digits in order are the decimal text, with the single digit 0 for zero. |
| `Dns.ParseName` | `projects/nanosrv/dns.cpp:35-80` | Decoding ends on every packet, a positive result lies within the packet, and text once decoded is only extended. |
| `Dns.ParseNameDepth` | `projects/nanosrv/dns.cpp:35-80` | The loop with bounded recursion writes the decoded name into `to`, terminated, when it fits, never writes outside it, and leaves a terminator in its last byte whenever it returns a positive length. |
| `Dns.PutLabel` | `projects/nanosrv/dns.cpp:64-74` | The copy of one label. |
| `Dns.Question` | `projects/nanosrv/dns.cpp:262-280` | The question that `dns_send` builds is the packed labels, the root label, type and class. |
| `Dns.QuestionDecoded` | `projects/nanosrv/dns.cpp:253-282` | The question decodes to the labels that end within the first 250 bytes of the name. |
| `Dns.QuestionAsksIff` | `projects/nanosrv/dns.cpp:253-282` | For names with labels of 1 to 63 bytes the question decodes to the name itself if and only if the name has at most 250 bytes. |
| `Timer.NeverTooOften` | `projects/nanosrv/timer.cpp:24-34` | At any polling times k expiries take at least k periods, and the deadline is never behind the clock nor more than a period ahead. |
| `Timer.OnTheGrid` | `projects/nanosrv/timer.cpp:24-34` | With polls at most one period apart the deadline stays at the arming time plus a multiple of the period and no expiry is lost. |
| `TimerList.Timers.Add` | `projects/nanosrv/timer.cpp:7-13` | `timer_init` on a newly allocated timer: it stands first, in no place of the list before, with no deadline; the chain of the others and all their fields are as they were. |
| `TimerList.Timers.Free` | `projects/nanosrv/timer.cpp:15-21` | `timer_free` walks the `next` fields to the timer and cuts out exactly it, wherever it stands, or changes nothing when it is not in the list. |
| `TimerList.Timers.Visit` | `projects/nanosrv/timer.cpp:39-57` | One timer of the walk: fields changed in place, function called, cut out of the list and freed, while `tmp` still leads to the next one. |
| `TimerList.Timers.Call` | `projects/nanosrv/timer.cpp:46-48` | A timer function that adds timers: they stand in front of the list, the last one first, and no other timer changes. |
| `TimerList.Timers.Poll` | `projects/nanosrv/timer.cpp:36-58` | The walk along `next` visits every timer of the list once although it frees timers under its own feet and called functions add others: functions called in order, timers left with their new fields, timers freed gone from memory, and those added standing in front, unvisited. |
| `TimerList.OrderKept` | `projects/nanosrv/timer.cpp:51-56` | A poll removes exactly the timers that are done for good and leaves the others in their order. |
| `Timer.OnceOnly` | `projects/nanosrv/timer.cpp:40-49` | A timer that does not repeat calls its function at most once over all polls. |
| `Timer.RepeatsByDeadline` | `projects/nanosrv/timer.cpp:38-48` | A repeating timer calls its function once for every expiry of its deadline, and exactly once more, at its first poll, with MG_TIMER_RUN_NOW and a period that is not 0. |
| `Address.Aton4` | `projects/nanosrv/net.cpp:48-71` | The loop of `aton4`. |
| `Address.ScanInto` | `projects/nanosrv/net.cpp:104-140` | The loop of `aton6`, writing groups into the address. |
| `Address.Aton6Into` | `projects/nanosrv/net.cpp:96-150` | `aton6` leaves the address that the text spells, moved and zero-filled at `::`, or refuses the text. |
| `Address.Ip4Read` | `projects/nanosrv/net.cpp:48-71` | The text printed for an IPv4 address is read back as its four bytes. |
| `Address.Ip6Read` | `projects/nanosrv/net.cpp:96-150` | The text printed for an IPv6 address is read back as its sixteen bytes, whatever the address held before. |
| `Address.PrintedIsRead` | `projects/nanosrv/net.cpp:152-157` | `aton` gives every address back from its printed form, with its family. |
| `Address.EightGroups` | `projects/nanosrv/net.cpp:96-150` | Eight groups of one to four digits, in brackets or not, are the address they spell. |
| `Address.DoubleColonRead` | `projects/nanosrv/net.cpp:141-146` | A text with one `::` and fewer than eight groups is zero-filled as section 2.2 of RFC 4291 says. |
| `Manager.Mgr.Alloc` | `projects/nanosrv/net.cpp:162-191` | `alloc_conn` takes the newest pooled block or a new one, in neither chain, and gives the next id. |
| `Manager.Mgr.Adopt` | `projects/nanosrv/net.cpp:162-191` | A new connection stands first in the list, with the next id, the others behind it unchanged. |
| `Manager.Mgr.Accept` | `projects/nanosrv/sock.cpp:560-617` | `accept_conn`: the cap decides; an adopted connection stands first in the list with an id of its own, and the counters agree. |
| `Manager.Mgr.Open` | `projects/nanosrv/net.cpp:235-311` | Client, listening and wrapped connections are listed and not counted as accepted. |
| `Manager.Mgr.Mark` | `projects/nanosrv/sock.cpp:1051-1058` | Setting `is_closing` leaves list, pool and counters sound. |
| `Manager.Mgr.Unlink` | `projects/nanosrv/net.cpp:204-204` | LIST_DELETE walks the `next` fields to the block and cuts out exactly it. |
| `Manager.Mgr.CountDown` | `projects/nanosrv/net.cpp:196-203` | The counters of a closed connection. |
| `Manager.Mgr.Recycle` | `projects/nanosrv/net.cpp:222-232` | The block goes to the pool while that has fewer than 64. |
| `Manager.Mgr.Close` | `projects/nanosrv/net.cpp:193-233` | `close_conn`: one connection leaves the list, is sent MG_EV_CLOSE, and list, pool and counters stay sound. |
| `Manager.Mgr.Poll` | `projects/nanosrv/sock.cpp:1020-1103` | The walk of `mgr_poll` with connections accepted, opened and marked at each visit: it closes, in order, exactly the connections of the list that are marked when their own visit ends, visits none of the new ones, and keeps them in front. |
| `Manager.GoneIff` | `projects/nanosrv/sock.cpp:1020-1103` | A connection goes in the walk if and only if it has been marked before it, or by what happens at the visit of a connection up to its own place in the list. |
| `Manager.Mgr.Visit` | `projects/nanosrv/sock.cpp:1020-1103` | One visit: the next pointer is read first, and stays right whatever happens. |
| `Manager.LinkedCut` | `projects/nanosrv/net.cpp:204-204` | Cutting a block out of one chain keeps both chains sound and disjoint. |
| `Manager.LinkedRecycle` | `projects/nanosrv/net.cpp:225-229` | Pushing it on the pool does too. |
| `Manager.AccountsAdd` | `projects/nanosrv/sock.cpp:589-600` | Counting an accepted connection keeps `num_accepted` equal to the accepted connections in the list and to accepts minus closes. |
| `Manager.AccountsRemove` | `projects/nanosrv/net.cpp:196-204` | So does counting a close. |
| `Manager.OpenOrClosedOnce` | `projects/nanosrv/net.cpp:193-233` | Every connection that has been sent MG_EV_OPEN is either in the list or has been sent MG_EV_CLOSE exactly once. |

## Left out

General

- Real sockets, poll and epoll, TLS, `connect_resolved`, resolv.conf, logging, the Python bindings, multipart, cookies, credentials, `url_encode` and printf formats beyond those the codecs use.
- Allocation always succeeds; out-of-memory branches are absent.
- The block of an `IoBuf` is a sequence held in a field, so two pointers into one block are not modelled, and a resize does not change addresses. The alignment of a buffer does not change.
- Handlers that edit `recv` while a protocol handler runs, and handlers that close or detach connections.

JSON

- `JsonGet.PassIndex`: a path index is an unbounded integer; the overflow of the `int` in the source, from 2^31 on, is not modelled.
- `JsonGet.NumberLength`: the value that `atod` computes is left out, only the consumed length matters to `json_get`.
- `JsonGet.SelectedIsFound`: names in a path have no `.`, no `[` and no NUL, since a path has no way to quote them; of equal keys lookup takes the first.
- `json_next` and the typed getters built on `json_get`.

Sharded manager

- `ShardedRuns.RunKeepsInv`: steps interleave with sequential consistency, the memory orders of the atomics are not modelled; one call of `run()`; `mark_draining`, handlers and timeouts inside a worker's poll are any order of closes.
- `ShardedRuns.NoLostHandoff`: a wake-up fails only while the pipe already holds datagrams.
- `ShardedRuns.IdsRoute`: ids are unbounded; worker managers are taken with the pipe connection of the wake-up in place, as `run()` leaves them.
- The counters `stat_accepted` of the workers and the thread hooks.

WebSocket

- The handshakes, the 3 MB limit on buffered bytes, and the closing that `error` causes for an unknown opcode (the event is recorded, the loop goes on as in the code).
- `WsStream.CutsDoNotMatter`: after a protocol error only the actions up to that error are compared, since later READ events meet the same frame again.

HTTP

- MG_EV_CLOSE and the delivery of partial bodies, the client side, `max_body_size` with its 413 reply, and the reply bytes for 411 and 431.
- `HttpConnection.Connection.OnEvent`: nothing is said of the receive buffer at events that come after one at which `error()` has been called, since the connection is then closed.
- `HttpScan.ParseMessage`: pointers are indices into the buffered bytes, and the parts of a message are copies of them.
- `HttpHead.HeadRead`: written heads have one space between the parts of the request line, CRLF at the end of each line, and visible ASCII in method, target, version and field names; UTF-8 there, repeated spaces and bare LF, which the code also accepts, are not written.
- `HttpHead.MessagesDelivered`: declared lengths stay below 2^64 - 1, which the code takes for no length at all.
- `Http.Pipelined`: the byte that happens to follow the buffered ones, which `skip_chunk` can read, is arbitrary at every event.

Codecs and the rest

- `Match.Match`: captures.
- `Match.ExactIffTame`: patterns that have a `?` or a `#` besides a `*`; for these `Match.MatchIsGlob` gives a sufficient condition.
- `PrintBuffer.Print`: the text is what a format expands to; formats are not interpreted.
- `Dns.ParseNameDepth`: packet headers, resource records and the matching of answers to requests.
- `Timer.OnTheGrid`: time is unbounded, the wrap of the 64-bit millisecond clock is not modelled.
- `TimerList.Timers.Poll`: timer functions add timers, they do not free any; a timer is a number and its fields are a map, and addresses are not given out twice.
- `Address.Aton6Into`: the numeric scope id after `%` is read but its value not kept; `Aton` itself is a function.
- `Base64.Decode`: a null source pointer.
- `Manager.Mgr.Accept`: DNS requests cancelled at close, UDP, and connections refused by the operating system; a block is a number and the fields of a connection are those the properties need.
- `Manager.Mgr.Poll`: what handlers do in the walk is accepting, opening and marking connections; the events they are sent, and the reasons for a mark, are left out.
