# A verified model of the caching HTTP proxy

The proxy reads GET requests from clients, answers them from an SQLite table or from the origin
server, and keeps connections open. This project models its three connected cores and proves what
they promise, for every input, every run and every interleaving.

**The message codec** (`Search`, `HeaderList`, `HeaderGrammar`, `HttpHeaders`, `CString`,
`HeaderCodec`, `HeaderMeaning`, `RequestLine`, `HttpRequest`, `RequestMeaning`, `HttpResponse`,
`RequestHistory`, `MessageCodec`). `HeaderGrammar` says what a header block is without a parser: physical lines up to the stop line,
grouped into logical headers with their continuation lines, and merged into an ordered list (RFC
2616, section 4.2). The classes `HttpHeaders`, `HttpRequest` and `HttpResponse` have the fields and
the loops of the program; each method is proved equal to a specification function, and the one-pass
parser equal to the grammar. On top of that stand the round trips: print-then-parse,
parse-print-parse, forwarding in origin form, the response fixpoint, each with the exact condition
under which it holds. `HeaderMeaning` and `RequestMeaning` say in plain terms which lines are accepted,
what is read from them and which exception the others get.

**Framing** (`Receive`, `Framing`, `ProxyServerClient`). A socket is the script of what its next
`recv` calls return. `recv_until` and `recv_nth` are proved to deliver the shortest whole-recv
prefix that completes the message. What `recv_until` establishes is what makes the parsers safe, and
the parse depends on nothing but the bytes through the first blank line.

**The shared cache** (`CacheDb`, `CacheMachine`, `ProxyServer`, `Connection`, `Coherence`, `Reuse`,
`Protocol`, `Joint`, `Simulation`, `Admission`). The table is a sequence of rows without a unique key.
`CacheMachine` is a state machine of any number of handlers, one SQL statement or clock reading a
step. `ProxyServer` is `onConnect` itself, with its flags and its do-while loop, running among
arbitrary statements of other handlers. `Coherence` is about one of them: relying on the others to
write nothing but answers of the origin, it guarantees the same of itself. `Protocol` says what can be
seen of it from outside: which bytes are sent and stored, under which key, which error response a
request gets, and when a connection ends. `Simulation` is about all of them: any number of `onConnect`
loops on one table, in any interleaving, is a run of the cache machine, and each connection in it is
a run of `onConnect` among the interludes that the others gave it; so the bound on duplicate rows, the transparency and the refinement of a map are theorems about
the program's handlers.

**Where an expected property is false.** The code is modelled as it is, the exact condition is
proved, and `EdgeCases` and `EdgeReplies` give inputs that fail:
- forwarding does not preserve a Host header with white space at its ends (a tab in the host is
  accepted), nor a path with `://`, nor fields with NULs: `ForwardingPreservesIff`; `TabInHost`,
  `SchemeInPath`, `NulInPath`;
- a response with a NUL is not a fixpoint: `ResponseFixpointIff`; `NulInStatus`;
- the cache key does not tell `GET a/b` from `GET http://a/b`: `KeyDeterminesHostAndPath`;
  `KeyCollision`;
- a reply is never returned when the recv that completes its header brings a part of its body and
  nothing follows the message: `FetchReturnsIff`, `OneMessageReturnsIff`; `HangingReply`;
- the stored response is more than the message unless the message's two boundaries fall between
  recvs: `EntireIsMessageIff`; `OverreadReply`;
- the receive loops do not return when every recv appends and the stream lacks what they wait for,
  zero-byte recvs included: `UntilReturnsIff`, `NthReturnsIff`; `ZeroRecvsSpin`;
- not every invalid request gets its 400: a port that is not a number up to 65535 takes the proxy
  down, as does a lone request line behind which `recv` returned 11: `FatalIff`, `AbortedIff`; `BadPortCrashes`,
  `EagainOverread`;
- the cache is transparent if and only if the origin keeps its answers until their Expires time:
  `TransparentIffStable`, whose proof runs the failing case.

**Readings of the code.** Bytes are Dafny `char`s; no proof depends on their range. `size - 2` is
the unsigned 64-bit subtraction. `Undefined` is the outcome of reading past the terminator of the
buffer. `boost::bad_lexical_cast` is not a `ParseException`, no handler catches it, and it is the
outcome `BadCast`, a crash of the proxy; the repository's README promises a 400 for every invalid
request, and the code is followed. A connect that fails shows in the send that follows it.
`lexical_cast<unsigned short>` takes an optional sign, and a minus wraps. `istringstream >> int`
gives 0 without digits and the nearest `int` out of range. `EAGAIN` is 11. A recv that has not
returned when its script ends is `Waiting`. A time-out of the client socket is a failed recv.

## Model

| member | source | states |
|---|---|---|
| Search.Memmem | compat.cc:11-37 | returns the least index at which the needle occurs, and NULL exactly when it occurs nowhere, for every haystack and needle, empty and too long ones included |
| Search.NextCrlfIsFind | http-headers.cc:44 | looking for the two bytes CR LF is searching for the string |
| CString.Strncpy | compat.cc:44-51 | copies up to the first NUL of the source, pads the rest of the field with NULs and writes nothing outside it |
| CString.Stpncpy | compat.cc:44-51 | one step of the cursor: field written, end pointer behind the last byte that is not a NUL |
| CString.FieldIs | compat.cc:44-51 | the bytes of a field are the C string filled up with NULs, or its beginning |
| CString.EmitAllPrints | http-headers.cc:110-126 | a sequence of copies leaves the visible text, stays within the total length for any contents, and fills it exactly when no field has a NUL |
| HeaderList.PositionIsFirst | http-headers.cc:138 | std::find: the first entry with the key, none exactly when the key is absent |
| HeaderList.LookupAfterModify | http-headers.cc:143-161 | FindHeader after ModifyHeader: the new value for that key, the old one for every other |
| HeaderList.RemoveKeepsOthers | http-headers.cc:135-141 | takes out one entry, keeps the order of the others, and the key is gone |
| HeaderList.HistoryMakesOrderedMap | http-headers.cc:129-161 | after any history of writes and removals: exactly the living keys, once each, in order of insertion, each with its last value |
| HttpHeaders.HttpHeaders.AddHeader | http-headers.cc:129-133 | appends, even if the key is there |
| HttpHeaders.HttpHeaders.RemoveHeader | http-headers.cc:135-141 | removes the first entry with the key, or nothing |
| HttpHeaders.HttpHeaders.ModifyHeader | http-headers.cc:143-151 | overwrites the first entry with the key, or appends one |
| HttpHeaders.HttpHeaders.FindHeader | http-headers.cc:153-161 | the value of the first entry with the key, or the empty string |
| HttpHeaders.HttpHeaders.ParseLine | http-headers.cc:50-79 | one line: a continuation extends and rewrites the pending header, another line begins one, the two exceptions in their cases |
| HttpHeaders.HttpHeaders.ParseHeaders | http-headers.cc:33-94 | the loop computes the one-pass specification on every buffer and starting list: outcome, end position and list |
| HttpHeaders.OnePassIsDeclarative | http-headers.cc:41-93 | that one-pass result is the declarative one: split at CRLF up to the stop line, join continuations, fold ModifyHeader, first error wins |
| HttpHeaders.LastHeaderWins | http-headers.cc:64-79 | FindHeader(k) after a parse is the value of the last logical header named k, folds included, or the old value |
| HeaderMeaning.TrimIff | http-headers.cc:74 | trimming takes all white space at both ends away and nothing else: the result is clean, and the text is it between white space |
| HeaderMeaning.HeaderLineMeans | http-headers.cc:65-78 | a line key, colon, white space, value, white space is the header of that key and value, with or without the white space; only the first colon counts |
| HeaderMeaning.HeaderLineIff | http-headers.cc:65-70 | a line is no header exactly when it has no colon |
| HeaderMeaning.LogicalOne | http-headers.cc:63-79 | a line that continues nothing, and is not continued, is a header of its own, or gets the exception for a missing colon |
| HeaderMeaning.LogicalFolded | http-headers.cc:50-62 | a line that begins with a space or a tab is added to the value before it, line break and all |
| HeaderMeaning.LogicalOrphan | http-headers.cc:50-53 | a block that begins with such a line gets the exception for it |
| HeaderMeaning.BlockExceptions | http-headers.cc:44-93 | which exception a block gets, texts written out, a wrong line before a wrong end |
| HeaderMeaning.ParsedEnds | http-headers.cc:85-93 | an accepted block ends inside the buffer, two bytes behind the start of a line whose first byte is CR or whose second byte is LF |
| HttpHeaders.HttpHeaders.GetTotalLength | http-headers.cc:96-108 | the sum of what FormatHeaders writes |
| HttpHeaders.HttpHeaders.FormatHeaders | http-headers.cc:110-126 | in bounds for any contents; exact text and end pointer exactly when there is no NUL |
| HeaderCodec.ParsePrinted | http-headers.cc:33-126 | a well-formed list, printed and followed by a blank line and anything else, parses back to itself, and all of the block is consumed |
| HeaderCodec.ParsedIsWellFormed | http-headers.cc:33-94 | every list that a parse can produce is well formed, NUL-free if the block was |
| HeaderCodec.RoundTripIffNulFree | http-headers.cc:33-126 | what FormatHeaders left in the buffer parses back to the list if and only if no field has a NUL |
| HeaderCodec.ParsePrintParse | http-headers.cc:33-126 | parse, print, parse equals parse, for every accepted NUL-free block |
| RequestLine.TokensAreWords | http-request.cc:46-49 | the tokens of a request line are non-empty and have no space |
| RequestMeaning.TokensIff | http-request.cc:46-49 | the tokens of a line are the words that it is made of, with any spaces before, between and after them |
| RequestMeaning.CastDigits | http-request.cc:95 | digits are read as their number, up to 65535 |
| RequestMeaning.CastSigned | http-request.cc:95 | a plus changes nothing, a minus wraps modulo 65536 |
| RequestMeaning.CastOthers | http-request.cc:95 | nothing else is a number |
| RequestMeaning.FirstDigit | http-request.cc:95 | the first digit is the most significant one |
| RequestMeaning.NoLeadingZero | http-request.cc:211 | a number is printed without leading zeros |
| RequestMeaning.NoSlashIff | http-request.cc:81-84 | an absolute target is rejected for its slash exactly when there is none behind the first "://" |
| RequestMeaning.OriginForm | http-request.cc:69-74 | without "://" the token is the path, and nothing else is set |
| RequestMeaning.ExplicitPort | http-request.cc:90-100 | an absolute target that names a port sets that port, host and path, and the Host header names the port unless it is 80 |
| RequestMeaning.ImplicitPort | http-request.cc:101-108 | one that names none sets port 80, and the Host header is the host |
| RequestMeaning.AcceptedIff | http-request.cc:35-127 | a request line is accepted if and only if it has three words, the first is GET, the second a path or an absolute target with a path and a port that is a number, and the third has "HTTP/" in it |
| RequestMeaning.AcceptedMeans | http-request.cc:35-127 | an accepted line sets the method, what its target sets, and the version from the sixth byte of its third word |
| RequestMeaning.AbsoluteLine | http-request.cc:35-127 | all fields that an accepted line with an absolute target gives a new request |
| RequestMeaning.LineExceptions | http-request.cc:52-124 | which exception every other line gets, texts written out, in the order in which the line is looked at |
| RequestLine.FindSchemeIsFind | http-request.cc:69 | the position of the first "://" |
| RequestLine.SplitIsLossless | http-request.cc:76-113 | an accepted absolute target is protocol, "://", host, optional ":" and port, path, put together; the host has no "/" and no ":", the path starts with "/" |
| RequestLine.SplitIsUnique | http-request.cc:76-113 | any such parts are the ones the parser finds |
| RequestLine.PortRoundTrip | http-request.cc:204-234 | a port printed in the Host header reads back |
| HttpRequest.HttpRequest.SetHost | http-request.cc:204-215 | host set, Host header rewritten in place or appended, nothing else changed |
| HttpRequest.HttpRequest.SetPort | http-request.cc:223-234 | port set, Host header rewritten likewise |
| HttpRequest.HttpRequest.ParseTarget | http-request.cc:68-113 | path only, or port, host and path in that order; the fields that stay set on each exception |
| HttpRequest.HttpRequest.ParseRequest | http-request.cc:35-131 | outcome and all fields of the object, on every buffer, from any earlier state, exceptions included |
| HttpRequest.HttpRequest.GetTotalLength | http-request.cc:134-151 | the sum of what FormatRequest writes; the exception for other methods |
| HttpRequest.HttpRequest.FormatRequest | http-request.cc:153-171 | never writes at or behind the total length; visible text of the fields; ends at the total length exactly when NUL-free |
| HttpResponse.SpacesInRange | http-response.cc:43-67 | the "HTTP/" test puts the first space at 5 or later, so no substr start is out of range |
| HttpResponse.HttpResponse.ParseResponse | http-response.cc:32-73 | outcome and all fields of the object, on every buffer |
| HttpResponse.HttpResponse.GetTotalLength | http-response.cc:76-92 | the sum of what FormatResponse writes |
| HttpResponse.HttpResponse.FormatResponse | http-response.cc:94-111 | in bounds for any contents; exact exactly when NUL-free |
| RequestHistory.HeadersAreOrderedMap | http-request.cc:204-234 | any sequence of ParseHeaders, ModifyHeader, RemoveHeader, SetHost and SetPort from a fresh object leaves distinct keys in order of first insertion, with the last values |
| RequestHistory.HostFollowsSetters | http-request.cc:204-234 | once a setter was called and nothing else edits Host, it is the host, with the port unless that is 80, whatever comes in between |
| RequestHistory.SettersCommute | http-request.cc:204-234 | SetHost and SetPort leave the same object in either order |
| MessageCodec.AcceptedShape | http-request.cc:35-131 | what every accepted request satisfies: GET, a path without spaces or CRLF, a host without "/", a nearly well-formed header list |
| MessageCodec.ForwardingPreservesIff | http-request.cc:35-171 | reparsing the forwarded bytes gives the same method, path, version and ordered headers, Host included, if and only if NUL-free, no "://" in the path, and Host trimmed |
| MessageCodec.KeyDeterminesHostAndPath | src/proxy-server.cc:244 | two accepted requests with one cache key have the same host and path if and only if both or neither have a host |
| MessageCodec.StatusLineIff | http-response.cc:43-69 | a status line is accepted if and only if it is "HTTP/", version, space, code, space and message, the first two without spaces, and those parts are the fields |
| MessageCodec.ResponseFixpointIff | http-response.cc:32-111 | format and reparse of an accepted response gives it back and ends at GetTotalLength if and only if NUL-free |
| Receive.RecvUntil | src/common.cc:11-35 | the loop computes the specification: result code, data, and what is left unread |
| Receive.RecvNth | src/common.cc:37-58 | likewise, for every length, negative ones included |
| Receive.UntilIsShortestPrefix | src/common.cc:11-35 | returns 1 if and only if some recvs complete the message; the data is then the shortest whole-recv prefix with the delimiter and exactly those recvs are used up |
| Receive.UntilReturnsIff | src/common.cc:16-33 | it never returns if and only if every recv appends and the stream lacks the delimiter; when every recv appends it returns 1 if and only if the stream has it |
| Receive.UntilTerminates | src/common.cc:16-33 | when every recv brings bytes and the delimiter is within the first n bytes, it returns within n recvs |
| Receive.UntilBreaksIff | src/common.cc:20-28 | it returns -1 if and only if a recv fails, and EAGAIN if and only if a recv does not append for its count of 11, before the message is complete |
| Receive.UntilBreaks | src/common.cc:20-28 | the data is then what came before that recv, whose own bytes are lost |
| Receive.ZeroRecvsSpin | src/common.cc:16-57 | on recvs of zero bytes, however many, neither loop returns |
| Receive.NthIsShortestPrefix | src/common.cc:37-58 | returns 1 if and only if the recvs reach the length; the data is the shortest such prefix, at least the length and below it plus 1023 |
| Receive.NthReturnsIff | src/common.cc:42-57 | it never returns if and only if every recv appends and the stream is too short; when every recv appends it returns 1 if and only if the stream has the length |
| Receive.NthTerminates | src/common.cc:42-57 | when every recv brings bytes and the stream has the length, it returns within that many recvs |
| Receive.NthBreaks | src/common.cc:46-53 | the same for recv_nth: the result code, the data and what is left unread when a recv breaks it off |
| Framing.UndefinedIffEmpty | http-headers.cc:41-42 | the unsigned size - 2 makes the loop leave its buffer if and only if the block is empty |
| Framing.RequestParts | http-request.cc:129-130 | a request parse leaves its buffer if and only if an accepted request line ends it |
| Framing.BadCastIff | http-request.cc:93-95 | bad_lexical_cast is thrown if and only if the line is a GET of an absolute target whose port text is not a number up to 65535 |
| Framing.FramedScan | http-headers.cc:41-82 | inside a frame the loop stops at the blank line at the latest and nothing behind it matters |
| Framing.FramedRequest | src/proxy-server.cc:174-182 | a framed request parse ends within the frame, reads nothing outside, and throws none of the missing-CRLF exceptions |
| Framing.FramedResponse | src/proxy-server-client.cc:97-109 | the same for responses, which cannot crash either |
| Framing.RequestIsLocal | src/proxy-server.cc:174-182 | the request parse depends only on the bytes through the first blank line |
| Framing.ResponseIsLocal | src/proxy-server-client.cc:97-109 | the response parse likewise |
| Framing.ChunkingIndependence | src/common.cc:16-33 | any two chunkings of one stream on which recv_until returns 1 parse to the same fields, headers and exception |
| Framing.ReceivedIsSafe | src/common.cc:16-33 | what recv_until returns with 1 is always framed |
| Framing.OverreadIff | src/proxy-server.cc:174-182 | the request parse leaves its buffer if and only if recv_until returned EAGAIN on exactly one accepted request line |
| ProxyServerClient.LengthIsReadBack | src/proxy-server-client.cc:117-118 | a Content-Length in decimal digits is read as that number, whatever follows it |
| ProxyServerClient.ExtractIntMeans | src/proxy-server-client.cc:117-118 | white space, a sign, digits and whatever follows are read as that number, as the nearest 32-bit value, or as 0 without digits |
| ProxyServerClient.ProxyServerClient.SendHttpRequest | src/proxy-server-client.cc:75-89 | sends one byte more than the formatted request, whose text it is exactly when no field has a NUL; a failing send is an exception |
| ProxyServerClient.ProxyServerClient.GetHttpResponse | src/proxy-server-client.cc:91-133 | the two receives with all their error exits, computed as specified |
| ProxyServerClient.AnswerIsConserved | src/proxy-server-client.cc:97-130 | a complete answer is exactly the bytes consumed, in order; header and body take the shortest whole-recv prefixes and nothing more |
| ProxyServerClient.EntireIsMessageIff | src/proxy-server-client.cc:97-130 | the answer kept is exactly the message if and only if the ends of its header and of its body both fall between recvs; otherwise it holds bytes from behind it |
| ProxyServerClient.FetchNeverCrashes | src/proxy-server-client.cc:91-133 | no reply of an origin makes the parse leave its buffer |
| ProxyServerClient.FetchExceptions | src/proxy-server-client.cc:91-133 | which failure leads to what, texts written out: EAGAIN to the 408 reply, a failed recv, a rejected header and a missing Content-Length to the exception |
| ProxyServerClient.FetchReturnsIff | src/proxy-server-client.cc:97-130 | with an accepted header in the stream the answer is returned if and only if Content-Length bytes come after the recv that completed the header; otherwise the call waits for ever |
| ProxyServerClient.OneMessageReturnsIff | src/proxy-server-client.cc:97-130 | a reply that is exactly one message is returned if and only if its body is empty or the end of its header falls between recvs |
| CacheDb.Database.Query | src/cache-db.cc:28-66 | the stepping loop returns the rows of the key, in order |
| CacheDb.Database.ContainsHostPathCache | src/cache-db.cc:74-84 | true exactly when there is a row of the key |
| CacheDb.Database.GetCache | src/cache-db.cc:97-101 | the oldest row of the key; out_of_range exactly when there is none |
| CacheDb.Database.InsertCache | src/cache-db.cc:86-90 | one more row, whether or not the key is there |
| CacheDb.Database.UpdateCache | src/cache-db.cc:103-107 | every row of the key is overwritten, no other |
| CacheDb.MatchingIsFirst | src/cache-db.cc:74-101 | counted exactly when found, and the row found is the first of the counted ones |
| CacheDb.InsertIsPutIfAbsent | src/cache-db.cc:86-90 | what can be read changes only if the key was absent |
| CacheDb.UpdateIsPutIfPresent | src/cache-db.cc:103-107 | what can be read changes only if the key was present, duplicates included |
| CacheMachine.StepKeepsInv | src/proxy-server.cc:244-320 | every step of every handler keeps: rows come from one single fetch each, seen keys stay, what is held or sent is an unexpired answer of the origin |
| CacheMachine.RunKeepsInv | src/proxy-server.cc:244-320 | so over every run; in particular getCache never misses the row that was counted |
| CacheMachine.KeysArePermanent | src/cache-db.cc:74-107 | no run removes a key |
| CacheMachine.RunIsTransparent | src/proxy-server.cc:244-320 | with an origin stable until its Expires times, each response equals what the origin would say at an instant of the request's lifetime, over all interleavings, duplicates and late updates |
| CacheMachine.TransparentIffStable | src/proxy-server.cc:244-320 | on all runs from the empty table the responses for a key are transparent if and only if the origin is stable for that key |
| CacheMachine.RowsBounded | src/proxy-server.cc:251-312 | rows and committed inserters of a key together never exceed max_connections |
| CacheMachine.BoundIsReached | src/proxy-server.cc:251-312 | that bound is exact: some run fills the table with max_connections rows of one key |
| CacheMachine.RunRefinesMap | src/cache-db.cc:74-107 | with any number of handlers every run is a run over a map, insert writing only absent keys, with the same handlers and responses |
| CacheMachine.SingleHandlerIsMap | src/cache-db.cc:74-107 | with one handler keys are unique and every store is a plain map write |
| ProxyServer.GetHttpRequest | src/proxy-server.cc:170-196 | request, 400 or 501, ProxyServerException, or crash, as specified on every script |
| Protocol.AskedIff | src/proxy-server.cc:170-196 | a request is read if and only if the bytes received with 1 or EAGAIN parse, and it is what the parse makes of them |
| Protocol.LostIff | src/proxy-server.cc:174-176 | the connection is lost if and only if a recv fails before the request is complete |
| Protocol.MuteIff | src/common.cc:16-33 | the handler waits for ever if and only if every recv appends and the stream has no blank line |
| Protocol.RefusedIff | src/proxy-server.cc:180-194 | on a complete request: refused if and only if the parse neither accepts it nor throws bad_lexical_cast; the 501 if and only if its first line has a first word that is not GET, else the 400, texts written out |
| ProxyServer.Handler.FetchRemote | src/proxy-server.cc:284-296 | a request to the origin gives what getHttpResponse makes of its connection, or the exception of a failing send |
| ProxyServer.Handler.ReadCache | src/proxy-server.cc:244-281 | the three flags stand for the step of the cache machine that comes next |
| ProxyServer.Handler.Answer | src/proxy-server.cc:244-312 | the try block makes exactly the steps of the cache machine, whatever others do between them |
| ProxyServer.Handler.SendHttpResponse | src/proxy-server.cc:198-202 | sends the bytes, or fails and sends none |
| ProxyServer.Handler.OnConnect | src/proxy-server.cc:206-338 | the do-while loop with its exceptions computes the turns of the connection, what was sent, and how it ended |
| Coherence.CacheDecision | src/proxy-server.cc:244-312 | the handler replies with the row it read and writes nothing exactly when that row was there and unexpired; any other reply is an answer of the origin given during the request, kept by one single statement, an insert if no row was counted and else an update; without a reply nothing is written |
| Protocol.KeyIff | src/proxy-server.cc:244 | accepted requests that name a host have the same cache key if and only if they have the same host and path |
| Protocol.ServeAnswers | src/proxy-server.cc:244-312 | every way in which a request is answered: a row of its key, the bytes fetched for its key and stored under it, or a failure and which fetch it came from |
| Protocol.MissSendsWhatCame | src/proxy-server.cc:284-320 | a reply that is not in the cache is all bytes received from the origin, status line, headers and body; the same bytes are stored, with the Expires value of the header that they begin with |
| Protocol.RunObeys | src/proxy-server.cc:229-332 | over every run, each reply is a row of its request's host and path or was fetched for it, each turn's own write is one row of that key, and its times are those of reading and sending |
| Protocol.CloseIsLast | src/proxy-server.cc:235-241 | over every run a request whose Connection header is exactly "close" is the last one read |
| Protocol.RunEndsBy | src/proxy-server.cc:229-332 | each of the four endings of a run if and only if its last turn is such; closed exactly when a request that asked for it has been answered |
| Coherence.AbortedIff | src/proxy-server.cc:229-332 | onConnect takes the proxy down if and only if the last bytes read are such that parsing them crashes, or an error response could not be sent |
| Reuse.SameReplyUntilExpired | src/proxy-server.cc:244-320 | while no one else writes a key, the reply to one request for it is the row then read from the cache, and every later request of the connection for it gets the same bytes up to that row's Expires time, duplicates or not |
| Coherence.ServeIsSound | src/proxy-server.cc:244-320 | relying on genuine writes by others, a request is answered with an unexpired answer of the origin, the table stays genuine, and nothing crashes |
| Coherence.FaithfulNeverCrashes | src/proxy-server-client.cc:91-133 | fetching never crashes a handler, whatever the origins send |
| Coherence.ConnectIsSound | src/proxy-server.cc:229-332 | the same for every turn of every run of onConnect |
| Coherence.ConnectIsTransparent | src/proxy-server.cc:229-332 | with a stable origin each response that onConnect sends is what the origin would say during the request |
| Connection.ConversationIsInOrder | src/proxy-server.cc:229-332 | the i-th turn is about the i-th reading of the stream, a refused request gets the error response of its own bytes; every turn but the last sends exactly one response; a "close" request is the last; the loop ends normally exactly after answering it |
| Connection.ResponseAt | src/proxy-server.cc:229-332 | the i-th bytes sent are the answer to the i-th reading: the 400 or 501 of exactly those bytes, or what the turn of that request ended with |
| Connection.FatalIff | src/proxy-server.cc:170-196 | reading crashes the handler if and only if the bytes have a first line with a bad port, or, after EAGAIN, are one accepted request line and nothing else |
| Connection.FatalAborts | src/proxy-server.cc:229-332 | such bytes end the run and the proxy |
| Connection.ReadingIgnoresChunking | src/proxy-server.cc:170-196 | two chunkings that complete the request give the same request or error response |
| Joint.StepRests | src/proxy-server.cc:229-332 | one step of a handler is the next part of onConnect on the view that it finds |
| Simulation.EventSimulates | src/proxy-server.cc:229-332 | every event of the whole proxy, a step of a handler, an opened connection, the clock, is a few actions of the cache machine |
| Simulation.RunSimulates | src/proxy-server.cc:229-332 | every run of any number of onConnect handlers on one table is a run of the cache machine |
| Simulation.ProxyIsCoherent | src/proxy-server.cc:229-332 | over all those runs: at most max_connections rows of a key, every response unexpired and transparent if the origin is stable, and the same responses as over a map |
| Simulation.EveryConnectionIsOnConnect | src/proxy-server.cc:206-338 | a connection that ended in such a run has the turns, the bytes sent and the ending of onConnect among the interludes the run gave it |
| Admission.Acceptor.Reap | src/proxy-server.cc:364-371 | the erase-with-decrement loop ends and leaves exactly the live ids, in order |
| Admission.Acceptor.Accept | src/proxy-server.cc:364-390 | reap, then drop exactly when the record is full, else record the id |
| Admission.DroppedIffFull | src/proxy-server.cc:374-377 | a connection is dropped exactly when max_connections handlers are running |
| Admission.NeverTooMany | src/proxy-server.cc:348-391 | over every sequence of arrivals the record covers the running handlers, without repeats, and neither exceeds max_connections |
| EdgeCases.KeyCollision | src/proxy-server.cc:244 | two accepted requests with one key, of which only one has a host |
| EdgeCases.PortIsRead | http-request.cc:90-100 | "GET http://host:port/path" reads back with that host, port and path, and with the Host header that names the port unless it is 80 |
| EdgeCases.TabInHost | http-request.cc:97-108 | an accepted request whose host ends in a tab, whose forwarded bytes do not read back as the same request |
| EdgeCases.SchemeInPath | http-request.cc:69-113 | the same for a path with "://" |
| EdgeCases.NulInPath | http-request.cc:161-165 | the same for a path with a NUL |
| EdgeCases.BadPortCrashes | http-request.cc:93-95 | a complete request for a port that is not a number, which takes the whole proxy down |
| EdgeReplies.HangingReply | src/proxy-server-client.cc:97-130 | a complete reply in one recv for which getHttpResponse waits for ever |
| EdgeReplies.OverreadReply | src/proxy-server-client.cc:97-130 | a reply of which more than the message is kept |
| EdgeReplies.NulInStatus | http-response.cc:94-111 | an accepted response that is not a fixpoint |
| EdgeCases.EagainOverread | src/proxy-server.cc:174-182 | a script of recvs on which the request parse leaves its buffer |

## Left out

- Sockets, addresses and threads (`createSocket`, `setup`, `connectServer`, `pthread_create`) are foreign calls; a socket is the script of its recvs, a connection to an origin either works or does not.
- SQLite and SQL text: each `Database` method is one atomic operation on the rows; texts with an apostrophe or a NUL, `SqliteException` and a failing statement are not modelled, and SELECT returns rows in insertion order.
- `strptime` and `timegm`: an arbitrary function from Expires text to time; the unset `tm` after an Expires text that does not parse is not modelled.
- Memory: the allocation and deletion of the `client` pointer (also of one that was never set), `thread_params`, and lengths beyond the range of `size_t`.
- CacheMachine.TransparentIffStable: the origin is a function of host + path and time, since the key leaves out the port; two ports of one host are one origin here.
- Pipelining: what follows the blank line in the last recv of a request is dropped, as the code drops it, and is not a second request.
- CacheDb.Database.Query: one SELECT by key; other SQL texts, and the `SqliteException` of a failing statement, are not modelled.
- ProxyServer.Handler.FetchRemote: what an origin answers does not depend on the bytes forwarded to it, because it is a function of host + path and time.
- Admission.Acceptor.Accept: does not model a failing `setsockopt` or thread creation, which end the accept loop; whether a recorded id is alive is given from outside, since the loop records descriptors and probes them as thread ids.
- HttpHeaders.HttpHeaders.ParseHeaders: its loop body is cut into the methods `FindLine`, `ParseLine` and `ParseBody`, and what both message printers do behind their first line is `FormatBlock`; the source has all of them in line.
- ProxyServer.Handler.OnConnect: the calls of `Yield` stand for the scheduler and are not in the source; the loop body is cut into the methods `TakeStep`, `TakeTurn`, `Answer`, `ReadCache`, `FetchRemote` and `Conclude`, which the source has in line.
- `boost` tokenizer, trim and lexical_cast and `istringstream` are specified by what they return, not by their code; white space is the six characters of the C locale.
- Debug output, `client.c`, `server.c`, the Python testers and the build scripts.
