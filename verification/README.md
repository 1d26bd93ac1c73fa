# Verified model of the HTTP and AI server

The project models four parts of the server and proves what they are relied on for. Modules
follow the source's components; stateful objects are classes whose methods are tied to value-level
functions (or, where the source leaves a choice open, to relations), and the theorems about runs,
encodings and bounds are lemmas about those.

* **Conversations** (`Messages`, `ChatAgents`, `MemoryManagement`, `SessionRefinement`): the
  LLM/tool loop, the group-preserving trimmer, saved histories, and the one buffer that serves all
  sessions. The model and the tools are arbitrary oracles; the disk is a map from paths to records.
* **Admission and failover** (`TokenBucket`, `CircuitBreakers`, `ModelRouting`, `ResponseCaching`,
  `Gateways`): the token bucket, the three-state breaker, ordered failover, the expiring
  oldest-out cache, and the cached gateway. Clock readings are parameters: seconds as reals for
  the bucket, nanoseconds elsewhere (whole-second truncation is modelled).
* **Wire formats** (`Text`, `ChunkedCoding`, `EventStreams`, `StreamWriting`, `Multipart`,
  `HttpRequests`, `HttpServing`, `HttpRoundTrip`, `HttpResponses`, `Encoders`): each printer is undone by a decoder
  written from the public standard, and each scanner undoes an encoder written from it. A `char`
  stands for one byte.
* **Indexes and search** (`Routing`, `VectorSearch`): route tables against the 405 index, dispatch,
  path parameters, top-k search and the Cauchy-Schwarz bound, over the reals.

`Wrappers` holds what they share: options, whole-second clocks, and a stand-in for the library sort.

Where the code departs from what one would expect, the model follows the code and the exact limit
is proved:

* An empty `WriteChunk` writes the last chunk, so chunks are received as written exactly when none
  is empty (`ChunksReceived`). Events with data arrive exactly when data has no carriage return,
  names no line break, and ids no line break or NUL. An event without data must have no `data` field
  among the lines of its frame; a name with a line break can put one there and so deliver a message
  (`EventsDelivered`, `NameTakenForData`).
* The multipart parser drops one trailing CRLF of a part's data, and takes a filename from the
  wrong place when the part name ends in `filename=`; the round trip holds exactly otherwise
  (`RoundTrip`). Whatever the body, it terminates exactly when every part it gets to has a blank
  line and a non-empty Content-Disposition (`TerminatesExactlyWhen`, with `EveryBodyDivides`); where
  it does not, the model's loop returns `Diverges`.
* A boundary parameter is extracted together with whatever follows it, unless that is only blanks,
  semicolons and carriage returns, with perhaps a quote at the end (`BoundaryExtracted`); a quoted
  one comes out right only at the end of the header (`QuotedBoundaryExtracted`).
* A request cut into segments is served correctly exactly when the first segment contains the blank
  line that ends the headers (`FragmentationIndependence`): an earlier cut is dispatched at once. So
  a request without a body is accepted even if its blank line never comes (`NoBlankLineAccepted`).
* A header name that is any prefix of `Content-Length`, the empty one included, is taken for
  Content-Length (`PrefixNameRefused`). A request is read as meant exactly when the headers so
  taken declare the length of its body (`WireRead`, `RequestRoundTrip`). A negative length is not
  refused but wraps around, and can come out as the length of the body (`NegativeLengthWraps`,
  `NegativeLengthServed`).
* The request that half-opens a breaker is not counted as a probe, so under any limits an episode
  can admit one more request than configured (`EpisodeBoundIsTight`).
* Cache keys of different requests collide when a content contains a bar that is followed, before
  the next bar, by a colon (`SplittableCollides`), when a role contains a colon
  (`RoleColonCollides`), or when the role of a later message contains a bar (`RoleBarCollides`); and
  every request with messages has the key of a bare model name with a bar (`ModelBarCollides`).
  Requests with no such content, role or model are told apart by their keys (`KeyDetermines`), and
  every other request with messages collides with one of them (`EveryKeyIsKeyable`). A bare model
  name that cannot be read as a key collides with nothing (`BareModelIsAlone`).
* A cache hit drops tool calls, reasoning and error text (`RepeatIsOnlyText`), so the reply to a
  request is the uncached one exactly when it was no hit or the uncached one has none of them
  (`CacheIsTransparent`).

`dafny verify dfyconfig.toml` checks the whole project.

## Model

| member | source | states |
|---|---|---|
| TokenBucket.RateLimiter.Allow | src/http/rate_limiter.cpp:13-29 | refills by the time elapsed, caps at the burst, and admits exactly when a whole token is left, as `Step` says |
| TokenBucket.RateLimiter.Reset | src/http/rate_limiter.cpp:31-35 | a reset bucket is a full one |
| TokenBucket.TokensInRange | src/http/rate_limiter.cpp:13-35 | in every reachable state the tokens lie between 0 and the burst |
| TokenBucket.WindowBound | src/http/rate_limiter.cpp:13-29 | between two calls with no reset between them at most `burst + rate * elapsed` requests are admitted |
| TokenBucket.GreedyIsOptimal | src/http/rate_limiter.cpp:13-29 | at every prefix at least as many requests are admitted as by any selection that keeps to the rate in every window |
| TokenBucket.GreedyConforms | src/http/rate_limiter.cpp:13-29 | the limiter's own decisions are such a selection, so the optimum is attained |
| TokenBucket.BurstAfterReset | src/http/rate_limiter.cpp:31-35 | after a reset as many requests as the burst has room for are all admitted |
| CircuitBreakers.CircuitBreaker.AllowRequest | src/http/model_router.cpp:19-46 | grant and state change in each of the three states, the elapsed time truncated to whole seconds |
| CircuitBreakers.CircuitBreaker.OnSuccess | src/http/model_router.cpp:48-55 | clears the failures and closes a half-open breaker |
| CircuitBreakers.CircuitBreaker.OnFailure | src/http/model_router.cpp:57-67 | counts and dates the failure, and opens a half-open breaker or one at its threshold |
| CircuitBreakers.BreakerInvariant | src/http/model_router.cpp:19-67 | over any interleaving: the failure count is the failures since the last success, the recorded time is the newest failure's, closed means below the threshold, and a half-open episode admits at most `half_open_max + 1` |
| CircuitBreakers.OpenWaitsForRecovery | src/http/model_router.cpp:26-36 | an open breaker admits a request if and only if the recovery time has passed since the newest failure |
| CircuitBreakers.RefusedExactlyWhen | src/http/model_router.cpp:19-46 | a request is refused if and only if the breaker is open and not recovered or the half-open episode has used its probes |
| CircuitBreakers.ReportsDecide | src/http/model_router.cpp:48-67 | any report ends a half-open episode; after a failure the breaker is closed exactly if it was closed and the failures since the last success are below the threshold |
| CircuitBreakers.EpisodeBoundIsTight | src/http/model_router.cpp:31-43 | for all limits some run reaches the bound of `half_open_max + 1` admissions in one episode |
| ModelRouting.ModelRouter.AddProvider | src/http/model_router.cpp:92-96 | a provider is appended with a fresh breaker of its own |
| ModelRouting.ModelRouter.Chat | src/http/model_router.cpp:98-155 | some heaviest-first order of the enabled providers is tried, and reply, gateway calls and all breakers are what `ChatOutcome` says for it |
| ModelRouting.FirstSuccess | src/http/model_router.cpp:127-154 | exactly the providers up to the first that succeeds get a turn and have their breakers changed; the reply is that provider's, or the failure of all |
| ModelRouting.CallsFollowOrder | src/http/model_router.cpp:121-150 | gateways are called in non-increasing weight order, each at most once |
| ModelRouting.CalledIffAllowed | src/http/model_router.cpp:127-140 | of the providers whose turn comes, exactly those are called whose breaker admits the request |
| ModelRouting.Failover | src/http/model_router.cpp:98-155 | on success every heavier enabled provider was refused or failed; an error comes back only if all enabled ones were refused or failed |
| ModelRouting.NeverHalfOpenBetweenCalls | src/http/model_router.cpp:127-150 | in any sequential run no breaker is half-open between two calls |
| ModelRouting.FailingProviderIsShed | src/http/model_router.cpp:19-67 | in a run lasting T, a provider that always fails is called at most `failure_threshold + T / recovery_timeout` times |
| ModelRouting.BreakersFollowReplies | src/http/model_router.cpp:127-150 | after any run a provider's breaker is what its events make of a new one: a request for each turn and, for each call made, success or failure as the gateway replied |
| ModelRouting.ChatHeard | src/http/model_router.cpp:98-155 | each call is for the model asked for or else the provider's own, all calls but the last failed, the reply is the last call's or the general failure, and breakers move by exactly what was heard |
| ModelRouting.NoProvidersConfigured | src/http/model_router.cpp:98-105 | a router without providers says so |
| ModelRouting.GoodProviderIsNeverRefused | src/http/model_router.cpp:127-143 | a provider that always succeeds is never refused by its breaker |
| Messages.SaveLoadRoundTrip | src/http/chat_agent.cpp:100-141 | loading the records that were saved gives the same history, tool calls included |
| Messages.ParsedExactlyWhen | src/http/chat_agent.cpp:122-141 | a record can be read if and only if its role is a string and its other texts, where present, are strings; absent ones are read as empty |
| Messages.LoadedExactly | src/http/chat_agent.cpp:122-141 | loading reads every record up to the first that cannot be read |
| ChatAgents.ChatAgent.Process | src/http/chat_agent.cpp:17-94 | history, answer and every request sent are those of `Converse`: user message, tool rounds, failure, natural answer or round limit |
| ChatAgents.ChatAgent.SaveHistory | src/http/chat_agent.cpp:100-120 | one record per message, in order |
| ChatAgents.ChatAgent.LoadHistory | src/http/chat_agent.cpp:122-141 | an unreadable file changes nothing; otherwise the history is cleared and refilled up to the first record that cannot be read |
| ChatAgents.ConverseWellFormed | src/http/chat_agent.cpp:17-94 | from a well-formed history every request sent, and the history left behind, answers each tool call at once, in order and exactly once |
| ChatAgents.TurnTranscript | src/http/chat_agent.cpp:17-94 | the first request is prompt, history and the user's text; each later one adds the previous reply's text, reasoning and calls and, per call, what the executor gave for its name and arguments; the answer is the reply to the last request or the closing text, and the history left is that conversation with the answer |
| ChatAgents.RoundsGrowth | src/http/chat_agent.cpp:24-91 | with at most k calls per reply the tool rounds add at most `max_tool_calls * (k + 1)` messages and a closing one, with at most `max_tool_calls` requests |
| MemoryManagement.MemoryManager.Process | src/http/memory_manager.cpp:19-46 | switches session, loads, trims, converses and saves, as `Serve` says of buffer, session and disk |
| MemoryManagement.MemoryManager.ClearSession | src/http/memory_manager.cpp:48-53 | empties the buffer and deletes only the named session's file |
| MemoryManagement.MemoryManager.TrimContext | src/http/memory_manager.cpp:55-104 | the scan removes exactly the prefix that `Cut` gives |
| MemoryManagement.TrimIsLongest | src/http/memory_manager.cpp:62-101 | on a well-formed history the longest whole-group prefix no longer than the excess is removed, and it falls short by at most one group |
| MemoryManagement.TrimmedKeeps | src/http/memory_manager.cpp:55-104 | trimming keeps a history well-formed, leaves at most `max(trim_threshold, max_context + k)` messages, never goes below `max_context` of those there were, and does not touch a history within both bounds |
| MemoryManagement.TrimDropsOldest | src/http/memory_manager.cpp:55-104 | trimming only drops oldest messages: a suffix is kept, and on a well-formed history over both limits the longest whole-group prefix within the excess goes |
| MemoryManagement.SessionsHaveOwnFiles | src/http/memory_manager.cpp:19-30 | different sessions have different files; no name is the name `default` |
| SessionRefinement.RunRefines | src/http/memory_manager.cpp:19-53 | under every interleaving of `Process` and `ClearSession`, with prompt and context limit changing from message to message, the shared buffer with its files gives the same turns as an independent map from sessions to histories |
| SessionRefinement.StepRefines | src/http/memory_manager.cpp:19-53 | each operation keeps the invariant that the buffer is empty or equals the file of the agent's session |
| SessionRefinement.SessionsAreIndependent | src/http/memory_manager.cpp:19-53 | what one session sees of a run is what it would see of its own operations alone |
| SessionRefinement.EveryRunIsSafe | src/http/chat_agent.cpp:17-94 | in every run, whatever prompts and context limits are set, every request is tool-well-formed and every saved history has at most `max(trim_threshold, max_context + k) + 2 + max_tool_calls * (k + 1)` messages for the limit then in force; each user message causes at most `max_tool_calls` requests |
| StreamWriting.StreamWriter.WriteChunk | src/http/stream_writer.cpp:16-27 | puts one chunk on an open connection, the header block before the first |
| StreamWriting.StreamWriter.WriteSSE | src/http/stream_writer.cpp:37-71 | puts one event frame, as one chunk, on an open connection |
| StreamWriting.StreamWriter.AddDataLines | src/http/stream_writer.cpp:53-63 | the loop writes one data line per piece between line feeds |
| StreamWriting.StreamWriter.End | src/http/stream_writer.cpp:83-96 | writes the last chunk and closes |
| StreamWriting.StreamWriter.SendHeaders | src/http/stream_writer.cpp:98-109 | writes the header block once |
| StreamWriting.WireFormat | src/http/stream_writer.cpp:16-109 | the bytes of any run are one header block and a chunked body, with nothing after the last chunk |
| StreamWriting.HeadDelivered | src/http/stream_writer.cpp:98-109 | whatever is written first, a client reads the head line by line, and the chunked body after it |
| StreamWriting.HeadFields | src/http/stream_writer.cpp:98-109 | that head has the status, message and content type given, and says chunked, close and no-cache |
| StreamWriting.ChunksReceived | src/http/stream_writer.cpp:16-96 | decoding by section 7.1 of RFC 9112 gives exactly the chunks written, ended exactly when the writer ended, if and only if no chunk was empty |
| StreamWriting.CleanEventsDelivered | src/http/stream_writer.cpp:37-109 | a client that reads the head, decodes the chunks because the head says chunked, and parses the stream by section 9.2.6 of the WHATWG HTML standard gets clean events as written, less one final line feed of data |
| StreamWriting.EventsDelivered | src/http/stream_writer.cpp:37-109 | any run of events is delivered as written if and only if every event with data is clean, none without data has a data field among its lines, and no event relies on a last id that such lines have changed; for runs with data that is cleanness alone |
| StreamWriting.NameTakenForData | src/http/stream_writer.cpp:44-65 | an event without data whose name holds a data line delivers a message nobody wrote |
| ChunkedCoding.HexRoundTrip | src/http/stream_writer.cpp:25 | the hexadecimal chunk size is read back as the size |
| EventStreams.OnlyCleanMessages | src/http/stream_writer.cpp:44-65 | no stream whatever can deliver a carriage return in data or a line break in an event name or id |
| Multipart.MultipartParser.Parse | src/http/multipart_parser.cpp:10-104 | fields, result and termination are those of `Parsed`, with the distance to the end of the body as measure |
| Multipart.MultipartParser.NextPart | src/http/multipart_parser.cpp:20-95 | one iteration of the loop: stop, hang, or a field and the next position |
| Multipart.MultipartParser.ParseHeaders | src/http/multipart_parser.cpp:134-152 | the header map of a block, up to its first empty line |
| Multipart.EncodeParse | src/http/multipart_parser.cpp:10-104 | a body encoded by section 4 of RFC 7578 is parsed to the end, giving one field per part, in order, with the departures `ReadField` names |
| Multipart.RoundTrip | src/http/multipart_parser.cpp:10-104 | names, filenames, content types, data and values all come back if and only if no data ends in CRLF and no part name ends in the filename trap |
| Multipart.FilenameRead | src/http/multipart_parser.cpp:75-85 | which filename is read from a disposition, the trap included |
| Multipart.EmptyLineEndsHeaders | src/http/multipart_parser.cpp:134-152 | nothing after an empty line of a header block is read |
| Multipart.TerminatesExactlyWhen | src/http/multipart_parser.cpp:10-104 | on a body cut at its delimiters the parser terminates if and only if every part before the first empty one is readable, and its fields are those of the parts before the one where it ends or hangs |
| Multipart.EveryBodyDivides | src/http/multipart_parser.cpp:20-37 | every body with a delimiter can be so cut: preamble, parts with the rest of their delimiter lines, and an end |
| Multipart.NoDelimiterNoFields | src/http/multipart_parser.cpp:20-23 | a body without a delimiter gives no fields, and parsing terminates |
| Multipart.HangsWithoutDisposition | src/http/multipart_parser.cpp:59-61 | a part without Content-Disposition, wherever it stands, makes the parser loop for ever |
| Multipart.HangsWithoutBlankLine | src/http/multipart_parser.cpp:40-42 | so does a part without a blank line |
| Multipart.ExtractBoundary | src/http/multipart_parser.cpp:154-175 | quotes, then trailing blanks, semicolons and carriage returns are removed |
| Multipart.BoundaryExtracted | src/http/multipart_parser.cpp:154-175 | a boundary followed by any text is extracted unchanged if and only if that text is only blanks, semicolons and carriage returns, then perhaps a quote, and the boundary starts with no quote and ends in none of these characters |
| Multipart.QuotedBoundaryExtracted | src/http/multipart_parser.cpp:160-173 | a quoted boundary followed by any text is extracted without its quotes if and only if that text is empty and the boundary ends in no blank, semicolon or carriage return |
| HttpRequests.HttpContext.ParseRequest | src/http/http_context.cpp:54-182 | result and request are those of `ParseOf`, for every input |
| HttpRequests.HttpContext.ParseRequestLine | src/http/http_context.cpp:81-104 | request line limits, words, method and version checks, in that order |
| HttpRequests.HttpContext.ParseHeaders | src/http/http_context.cpp:107-160 | the header loop with its size limit, up to the first empty line |
| HttpRequests.HttpContext.ParseHeaderLine | src/http/http_context.cpp:127-159 | one header line, with the Content-Length checks |
| HttpRequests.HeadIsStable | src/http/http_context.cpp:69-165 | once a blank line has arrived, request line and headers read the same whatever follows |
| HttpServing.HttpServer.OnMessage | src/http/http_server.cpp:59-73 | data is appended to what the connection has pending and handled |
| HttpServing.HttpServer.HandleRequest | src/http/http_server.cpp:75-141 | an incomplete request stays pending; any other verdict clears the connection's buffer and is answered: the error's status, the handler's, 500 for an exception, nothing for a stream, with the close decision |
| HttpServing.IncompleteNeedsBlankLine | src/http/http_context.cpp:163-176 | without a blank line the verdict is never `kIncomplete` |
| HttpServing.FragmentationIndependence | src/http/http_server.cpp:59-84 | a whole request in two or more segments is dispatched once, at the end and as if unsplit, if and only if the first segment contains the blank line |
| HttpServing.ConnectionsAreIndependent | src/http/http_server.cpp:64-69 | what is handled for a connection depends on its own segments only, under any interleaving |
| HttpServing.FragmentedRequestHandledOnce | src/http/http_server.cpp:59-141 | among any other traffic, a request split after its head is handled exactly once, as in one piece |
| HttpRoundTrip.WireRead | src/http/http_context.cpp:54-182 | a request with any headers is accepted if and only if they declare a length that its body has, then read as written with the body cut to that length; so it is read as meant if and only if they declare the length of the body |
| HttpRoundTrip.RequestRoundTrip | src/http/http_context.cpp:54-182 | a request written by section 3 of RFC 9112, its body announced, is parsed to the same method, path, version, headers and body if and only if no other header is taken for Content-Length, or there is no body and one declares 0 |
| HttpRoundTrip.PrefixNameRefused | src/http/http_context.cpp:140-153 | a well-formed request with a header named `C`, or not named at all, is refused |
| HttpRoundTrip.NegativeLengthWraps | src/http/http_context.cpp:31-42 | every negative decimal is read as a length, within the limit exactly when it is 0 or wraps around to at most the limit |
| HttpRoundTrip.NegativeLengthServed | src/http/http_context.cpp:31-42 | a request that declares `-v`, v positive, is read as meant if and only if v is below 2^64 and 2^64 - v is the length of its body |
| HttpRoundTrip.WrittenRequestServed | src/http/http_server.cpp:59-141 | such a request, cut up after its head, is dispatched once and as meant, under the same if-and-only-if |
| HttpRoundTrip.LengthParsed | src/http/http_context.cpp:31-42 | the decimal text of any 64-bit length is read as that length |
| HttpRoundTrip.LengthRead | src/http/http_context.cpp:31-42 | a length is blanks, a sign and digits with nothing but a NUL after them; minus negates modulo 2^64 and more than 64 bits saturate |
| HttpRoundTrip.NoDigitsNoLength | src/http/http_context.cpp:31-42 | text without a digit is no length |
| HttpRoundTrip.LengthNames | src/http/http_context.cpp:140-142 | the names taken for Content-Length are its beginnings in any mixture of cases, and the name with a NUL |
| HttpResponses.ResponseSent | src/http/http_server.cpp:95-163 | a request read as meant gets the handler's status, 500 if the handler throws or nothing if it streams, and the connection closes if and only if the version is 1.0 or the last Connection header reads `close` in any case |
| HttpResponses.UnknownMethodRefused | src/http/http_context.cpp:81-104 | a method other than the nine known ones is refused with 405 |
| HttpResponses.UnknownVersionRefused | src/http/http_context.cpp:81-104 | a version other than 1.0 and 1.1 is refused with 505 |
| HttpResponses.ShortLineRefused | src/http/http_context.cpp:81-104 | a request line of one or two words is refused with 400 |
| HttpResponses.LongRequestLineRefused | src/http/http_context.cpp:81-104 | a request line over 4096 bytes is refused with 400 |
| HttpResponses.NoColonRefused | src/http/http_context.cpp:127-131 | a header line without a colon is refused with 400 |
| HttpResponses.LongBodyRefused | src/http/http_context.cpp:140-156 | a declared length over 10485760 is refused with 413 |
| HttpResponses.LongHeadersRefused | src/http/http_context.cpp:107-126 | headers of more than 8192 bytes in all are refused with 400 |
| HttpResponses.TooLargeRefused | src/http/http_context.cpp:54-68 | more than 8192 + 10485760 bytes are refused with 413 |
| HttpResponses.NoBlankLineAccepted | src/http/http_context.cpp:107-126 | header lines that just end, with no length declared, make an accepted request without a body |
| HttpResponses.NoBlankLineRefused | src/http/http_context.cpp:163-171 | header lines that just end after declaring a length are refused with 400 |
| ResponseCaching.AiResponseCache.Get | src/http/ai_gateway.cpp:30-44 | a hit is the stored value below its time to live; an expired entry is erased |
| ResponseCaching.AiResponseCache.Set | src/http/ai_gateway.cpp:46-65 | just enough oldest entries make room, then the key is set |
| ResponseCaching.AiResponseCache.Oldest | src/http/ai_gateway.cpp:51-57 | the scan finds an entry no younger than any other |
| ResponseCaching.CacheIsFaithful | src/http/ai_gateway.cpp:30-70 | over any run: size bound, every held value is the latest set, and a missing unexpired key is no newer than any survivor |
| ResponseCaching.HitIsLatest | src/http/ai_gateway.cpp:30-44 | a hit returns the latest value set for its key, fewer whole seconds old than its time to live |
| ResponseCaching.ExpiredEntryGoes | src/http/ai_gateway.cpp:34-40 | looking a key up erases its entry if that has reached its time to live, and nothing else |
| ResponseCaching.RecentSetHits | src/http/ai_gateway.cpp:30-65 | a key set less than its time to live ago, with fewer than `max_entries` sets since, always hits |
| Gateways.BuildCacheKey | src/http/ai_gateway.cpp:320-327 | the loop builds role, colon, content and bar for each message, then the model |
| Gateways.KeyDetermines | src/http/ai_gateway.cpp:320-327 | with no colon in a role, no bar in a later role or the model, and no content that looks split, equal keys mean equal texts and models |
| Gateways.EveryKeyIsKeyable | src/http/ai_gateway.cpp:320-327 | those conditions are exact: any request with messages shares its key with one that meets them, and with one of different text or model unless it met them itself |
| Gateways.BareModelIsAlone | src/http/ai_gateway.cpp:320-327 | a request without messages whose model cannot be read as a key shares its key with no other request |
| Gateways.SplittableCollides | src/http/ai_gateway.cpp:320-327 | every content that looks split yields a different request under the same key |
| Gateways.RoleColonCollides | src/http/ai_gateway.cpp:320-327 | whenever a role contains a colon, a request of different text has the same key |
| Gateways.RoleBarCollides | src/http/ai_gateway.cpp:320-327 | whenever the role of a message after the first contains a bar, a request of different text has the same key |
| Gateways.ModelBarCollides | src/http/ai_gateway.cpp:320-327 | every request with messages shares its key with one of no messages, whose model name then contains a bar |
| Gateways.AiGateway.Chat | src/http/ai_gateway.cpp:83-159 | rate limit, cache lookup, upstream call and cache store, in that order |
| Gateways.CacheIsTransparent | src/http/ai_gateway.cpp:83-159 | with a deterministic upstream and plain requests under common sampling parameters, a cached reply succeeds exactly when an uncached one would, with the same content; it is the same reply if and only if it was no hit or carries only text |
| Gateways.RepeatIsOnlyText | src/http/ai_gateway.cpp:89-100 | a request repeated before its entry expires is answered with the stored text and nothing else, which is the first reply if and only if that was only text |
| Gateways.NothingUnderEmptyKey | src/http/ai_gateway.cpp:153-156 | no reply is ever stored under an empty key |
| Gateways.BodyCarriesRequest | src/http/ai_gateway.cpp:218-258 | the body sent carries all messages with their roles and contents, answered call ids, calls and reasoning; model and token limit or the configured ones; tools if there are any |
| Gateways.PlainRequestRecovered | src/http/ai_gateway.cpp:218-258 | a plain request that names its model and token limit is recovered from its body |
| Routing.SplitPath | src/http/router.cpp:16-28 | the non-empty parts between slashes |
| Routing.MatchPath | src/http/router.cpp:30-57 | same number of parts, literals equal, parameters collected |
| Routing.Router.RegisterRoute | src/http/router.cpp:71-82 | dynamic patterns are appended, static paths stored and indexed |
| Routing.Router.Route | src/http/router.cpp:140-166 | static, then dynamic, then 405, then 404 |
| Routing.Router.MatchDynamic | src/http/router.cpp:119-138 | the first registered pattern that matches wins |
| Routing.Router.AllowedMethods | src/http/router.cpp:168-184 | the indexed methods in order, joined by commas |
| Routing.TablesAgree | src/http/router.cpp:60-98 | after any registrations a method is indexed for a path exactly when its static table has the path; tables hold the latest static handlers and all dynamic patterns in order |
| Routing.DispatchMeetsRegistrations | src/http/router.cpp:100-166 | dispatch stated of the registrations alone: latest static handler, else first matching pattern, else 405 with exactly the methods registered, else 404 |
| Routing.NotAllowedOffersOthers | src/http/router.cpp:140-158 | a 405 never offers the method just refused |
| Routing.FirstMatchIsFirst | src/http/router.cpp:130-136 | the handler is that of the first matching pattern, with its parameters |
| Routing.AllowListsMethods | src/http/router.cpp:168-184 | read as a list, the Allow header names exactly the indexed methods |
| Routing.PathSplits | src/http/router.cpp:16-28 | splitting undoes joining for non-empty parts without slashes |
| Routing.ParametersReadBack | src/http/router.cpp:30-57 | a path built from a pattern with distinct names gives back exactly the values put in |
| Routing.MatchesExactlyWhen | src/http/router.cpp:30-57 | a pattern matches exactly the paths with as many parts, equal wherever the pattern's part does not start with a colon |
| Routing.MatchIsFilling | src/http/router.cpp:30-57 | a pattern with distinct names matches nothing but its fillings, and gives the values filled in |
| Routing.MethodNames | src/http/router.cpp:100-128 | the methods routed are GET, POST, PUT and DELETE, by exactly these names |
| Routing.StaticRouteServed | src/http/router.cpp:71-117 | a path registered without a colon runs the handler last registered for it |
| Routing.ParameterRouteServed | src/http/router.cpp:71-138 | a filling of a registered pattern runs that pattern's handler with the values, unless the path itself is registered or an earlier pattern matches |
| VectorSearch.CosineSimilarity | src/http/rag_pipeline.cpp:186-198 | the three sums and their quotient; 0 for unequal sizes, empty vectors and zero norms |
| VectorSearch.CauchySchwarz | src/http/rag_pipeline.cpp:189-194 | the loop's sums satisfy `dot * dot <= norm_a * norm_b` in any dimension |
| VectorSearch.CosineBounded | src/http/rag_pipeline.cpp:186-198 | every score lies between -1 and 1 |
| VectorSearch.ScoreIsScaledProduct | src/http/rag_pipeline.cpp:186-198 | the score times both norms is the inner product, and has its sign |
| VectorSearch.SelfSimilar | src/http/rag_pipeline.cpp:186-198 | a vector's score with itself is 1 |
| VectorSearch.NoSimilarity | src/http/rag_pipeline.cpp:186-196 | unequal sizes, empty and zero vectors score 0 |
| VectorSearch.DotIsLinear | src/http/rag_pipeline.cpp:189-194 | the loop's sum is symmetric and linear |
| VectorSearch.DotPicksComponents | src/http/rag_pipeline.cpp:189-194 | its sum with a unit vector is that component |
| VectorSearch.VectorStore.Search | src/http/rag_pipeline.cpp:112-136 | exactly `min(k, positively scored chunks)` distinct chunks, best first, none beaten by one left out |
| VectorSearch.TopKScoresUnique | src/http/rag_pipeline.cpp:125-126 | the scores of the results do not depend on how the sort orders ties |
| Encoders.PercentEncode | src/http/user_manager.cpp:242-253 | byte by byte, unreserved characters kept, others as uppercase percent triplets |
| Encoders.PercentRoundTrip | src/http/user_manager.cpp:242-253 | decoding by section 2.1 of RFC 3986 gives every byte string back |
| Encoders.PercentEscapes | src/http/user_manager.cpp:242-253 | the output has only unreserved characters and uppercase triplets |
| Encoders.UnreservedUnchanged | src/http/user_manager.cpp:242-253 | unreserved text is unchanged |
| Encoders.CanonicalQuery | src/http/user_manager.cpp:319-324 | encoded pairs joined by ampersands, in map order |
| Encoders.CanonicalRoundTrip | src/http/user_manager.cpp:319-324 | splitting and decoding the canonical string recovers the whole parameter map |
| Encoders.CanonicalInjective | src/http/user_manager.cpp:319-324 | distinct parameter maps give distinct strings |
| Encoders.Base64 | src/http/user_manager.cpp:261-280 | the loop over groups of three and the padding, for any length |
| Encoders.Base64RoundTrip | src/http/user_manager.cpp:261-280 | decoding by section 4 of RFC 4648 gives the bytes back, padding included |

## Left out

- Floating-point rounding: tokens, similarity scores and temperatures are reals.
- Mutexes: each locked method is one atomic step.
- `src/main.cpp`: its routes, tools and prompts are plumbing, and its direct use of the shared agent bypasses the memory manager, so it is not among the operations of the session refinement.
- HTTPS, TLS contexts, logging, graceful shutdown, static files, sessions, middleware, connection pools, configuration and the tool protocol server: I/O, or small maps and counters that would only add easy members.
- JSON text, curl, sockets, hashing, clocks and random tokens are library calls: oracles, parameters, or a byte log with a connected flag. Saving is taken to succeed; a record that cannot be read back is modelled.
- `WriteRaw` of the stream writer: it bypasses the framing that the theorems are about.
- `GetFieldValue`, `HasField`, `HasFile` and `GetFile` of the multipart parser: plain scans of the parsed fields.
- `AddDocumentChunked` of the retrieval pipeline: with a positive overlap its loop does not terminate on non-empty text.
- HttpServing.HttpServer.HandleRequest: does not model the response text and headers; middleware and handlers are a function of the request, so state of their own is not seen.
- ChatAgents.ChatAgent.Process: takes the system prompt as it is when the message comes in; the server sets it before it takes its lock, so another worker could change it between two rounds.
- HttpRequests.HttpContext.ParseHeaderLine: a header name of more than fifteen characters that begins with the NUL-terminated text of `Content-Length` makes the source read past its literal; the model then finds no match.
- ResponseCaching.AiResponseCache.Set: requires room for one entry, because with none the source dereferences the oldest of no entries.
- ResponseCaching.RecentSetHits: needs a strictly increasing clock, because among entries of one instant the source's hash order decides which goes.
- TokenBucket.WindowBound: assumes a rate and burst that are not negative, and a clock that does not run backwards.
- Routing.Router.RegisterRoute: the source's four static and four dynamic tables are entries of two maps keyed by method, and its four public registration methods are one.
- ModelRouting.SortByWeight: an insertion sort stands in for the library's unstable sort; the theorems hold for every order it could produce.
