# Verified model of the AppTheory request runtime

This project models the Go request runtime (`runtime/`) in Dafny and proves the properties its callers rely on.
`dafny verify dfyconfig.toml` checks all of it.

| modules | what they model |
|---|---|
| `RoutePatterns`, `RouteLanguages`, `RouteTable` | pattern parsing, matching, the specificity order, the growing route table, 404/405 |
| `ResponseLimits`, `LimiterRuns` | the size limiter as an object, its two sources alone, and both goroutines under every schedule |
| `ServeSpec`, `Serve`, `ServeProperties`, `ServeAnswers`, `Requests`, `Responses`, `Errors`, `Auth`, `Middleware` | the portable pipeline: specification, step-by-step program, what holds of every request, and what each kind of request is answered |
| `Base64`, `Headers`, `Vary` | the base64 length check, header canonicalization, the `Vary` merge |
| `Sse`, `EventStream`, `EventDelivery` | the event printer behind a size limit, and the client of sections 9.2.5 and 9.2.6 of the WHATWG HTML standard |
| `HashKeys`, `Decimal`, `SafeLog`, `Utf8`, `LogLines`, `Kinesis` | explicit hash keys, percent-encoded log values, log lines and failure reports |
| `Batch`, `EventContext`, `Timeout` | the two partial-failure loops, per-record contexts, the timeout race |
| `Text`, `Sorting`, `Bytes` | the parts of Go's `strings`, `unicode` and `sort` packages in use |

Strings are sequences of Unicode scalar values, bodies are sequences of bytes. Objects that the runtime updates in place
(router, limiter, app, serve state, event context) are classes; its loops are loops, each proved against a specification
function, and the promised properties are lemmas about those functions. Handlers, hooks and error responders are arbitrary
functions that may return, fail or panic. Goroutines are step functions run under an arbitrary schedule.

## What the proofs show about the code

- Specificity is semantic: a route that accepts strictly fewer path texts than another always wins, in whatever order the
  two were registered (`RouteTable.SmallerLanguageWins`). The advice in `docs/core-patterns.md` to register
  `/users/me` before `/users/{id}` is not needed; order only decides between routes whose counts are all equal. The
  comparison of segment counts in `routeMoreSpecific` is never decisive (`RouteTable.LengthNeverDecides`).
- A parameter whose name ends in `+` (`/{a+ }`) is stored under the text of a proxy, so its stored pattern reads back as a
  different pattern and a later `/{a+}` is refused as a duplicate (`RouteTable.PlusNameClashes`). It is the only such case.
- A pattern that repeats a name, such as `/{a}/{a}`, keeps only the last value. A pattern's matches can all be undone
  exactly when its names are pairwise distinct (`RouteLanguages.UndoableExactly`).
- The response limiter does not meter an erroring chunk. A `StreamChunk` may carry bytes beside its error;
  `limitBodyStream` forwards it whole (`runtime/response_limits.go:85-88`), so with a maximum of ten bytes a
  handler's erroring chunk of a hundred is sent (`LimiterRuns.ErrorChunkExceedsMax`). What the limiter grants is within
  the maximum in every interleaving, all bytes sent are exactly when that chunk has room
  (`LimiterRuns.AllBytesWithinMax`), and `CaptureBodyStream`, which drops the chunk's bytes, always keeps within it.
- The timeout error does not mean that the timeout passed: cancelling the parent context gives the same error
  (`Timeout.CancelledBeforeDeadline`).
- An observation can report no request id for a response that shows one: `finalizeP1Response` leaves the handler's or
  responder's own `x-request-id` alone where no id is known, because the id generator yielded a blank one or panicked
  (`ServeProperties.ForeignRequestId`, `ServeProperties.ForeignIdServed`).
- An event stream that the size limit cuts off never shows a client part of an event
  (`EventDelivery.DeliveredEvents`).
- Server-sent events read back exactly when no trimmed name or id contains a line break and no id contains a NUL. The
  printer checks neither (`Sse.PrintedEventsReadBack`).
- Under the flat legacy error format a portable error with code `EMPTY_BODY` or `INVALID_JSON` is recorded as
  `app.bad_request` but answered with status 500. With an explicit status the recorded code and the status agree only if
  that status happens to be the code's own (`Errors.ErrorStatusMatchesCode`).
- Every P2 request yields exactly one response and one observation, except that neither comes out when a custom error
  responder panics on the internal error it is asked to render for another panic, its own included
  (`ServeProperties.AlwaysServed`). A user clock that panics, which is read before the recovery is installed
  (`runtime/serve.go:265`) and again for the observation, escapes as well and is not modelled.
- The last check in `decodedBase64Len` (`runtime/request.go:101`) can never fire; an assertion in
  `Base64.DecodedBase64Len` proves it.
- The generic batch loop does not recover a panicking handler, the DynamoDB loop does and lists the record: their
  results agree exactly on batches without a panic (`Batch.LoopsAgree`).

## Model

| member | source | states |
|---|---|---|
| RoutePatterns.NormalizePathKeeps | runtime/request.go:115-130 | the path is the trimmed text before the query, given a leading slash if it has none |
| RoutePatterns.NormalizePathIdempotent | runtime/request.go:115-130 | normalizing again changes nothing if and only if the result does not end in white space |
| RoutePatterns.SplitPath | runtime/router.go:184-191 | the parts contain no slash and joined by slashes are the trimmed path without its leading slash; the root path has no parts |
| RoutePatterns.ParseSegments | runtime/router.go:197-219 | succeeds exactly when every segment parses and a proxy stands only last; then both lists are the segments and their canonical texts |
| RoutePatterns.SegmentReads | runtime/router.go:221-253 | which trimmed text is read as a literal, a parameter or a proxy, in braces or with a colon, and that everything else is refused |
| RoutePatterns.ParsePatternValid | runtime/router.go:197-253 | every parsed pattern has trimmed non-empty names and texts, no slash or query mark, and a proxy only in last place |
| RoutePatterns.ReparseSegment | runtime/router.go:221-253 | a canonical segment text parses back to its segment if and only if it is not a parameter whose name ends in "+" |
| RoutePatterns.SplitRendered | runtime/router.go:184-191 | joining clean path segments and splitting the path again changes nothing |
| RoutePatterns.ReparsePattern | runtime/router.go:95-109 | canonical pattern text parses back to the pattern if and only if no parameter name ends in "+" |
| RouteLanguages.MatchRoute | runtime/router.go:255-313 | matches exactly the accepted segment lists and returns their captures |
| RouteLanguages.CapturesRebuild | runtime/router.go:255-313 | substituting the captured parameters, the proxy value split at slashes, rebuilds exactly the request's segments |
| RouteLanguages.InstantiationAccepted | runtime/router.go:255-313 | every instantiation with non-empty values outside the proxy tail is accepted |
| RouteLanguages.MatchIsInstantiation | runtime/router.go:255-313 | a path matches with equal texts under equal names if and only if it is an instantiation of the pattern; the captures are one |
| RouteLanguages.DistinctNamesMatch | runtime/router.go:255-313 | with pairwise distinct names, matching succeeds if and only if an instantiation exists, and every match can be undone |
| RouteLanguages.RepeatedNameLosesText | runtime/router.go:295-313 | concrete input: with a repeated name, captures rebuild a different path |
| RouteLanguages.UndoableExactly | runtime/router.go:255-313 | every accepted path text is an instantiation of the pattern if and only if its names are pairwise distinct |
| RouteLanguages.FittingAccepted | runtime/router.go:184-313 | parts that agree with the static segments and are not blank are the split of a path text the pattern accepts |
| RouteLanguages.InclusionIsShape | runtime/router.go:255-313 | every path text accepted by one pattern is accepted by another if and only if a segment-by-segment test holds |
| RouteLanguages.SampleAccepted | runtime/router.go:255-313 | every pattern accepts an actual path text built from any plain filler and any proxy tail length |
| RouteLanguages.ShapeCounts | runtime/router.go:315-330 | inclusion never lowers the static count, nor on a tie the parameter count, and full ties mean equal languages |
| RouteTable.RegistrationKeepsTable | runtime/router.go:95-148 | one registration, successful or not, keeps order equal to index, counts matching segments and (method, pattern) pairs distinct |
| RouteTable.ReachableTableValid | runtime/router.go:91-148 | these hold after any sequence of registrations |
| RouteTable.RegisteredAsGiven | runtime/router.go:95-148 | a successful registration adds one route with the given pattern, handler and options under the method in capitals; a failed one adds none |
| RouteTable.RegistrationErrors | runtime/router.go:95-115 | a missing handler is reported before a bad pattern and that before a duplicate; a duplicate is exactly an existing method and canonical pattern |
| RouteTable.MethodCaseIgnored | runtime/router.go:96-156 | a route answers requests for its method in any case: registered as "get" it answers "GET" |
| RouteTable.StoredPatternReparses | runtime/router.go:95-148 | a stored pattern text parses to the stored segments if and only if no parameter name ends in "+" |
| RouteTable.SamePatternSameSegments | runtime/router.go:111-115 | without such names, equal canonical texts mean equal patterns, so only true duplicates are refused |
| RouteTable.PlusNameClashes | runtime/router.go:231-246 | for every name, the padded parameter spelling and the proxy spelling share one stored text |
| RouteTable.CountsGiveLength | runtime/router.go:117-130 | the three counts add up to the number of segments |
| RouteTable.LengthNeverDecides | runtime/router.go:325-327 | routes with equal counts have equally many segments |
| RouteTable.MoreSpecificStrictTotal | runtime/router.go:315-330 | on every reachable table the comparison is irreflexive, transitive and total |
| RouteTable.SmallerLanguageWins | runtime/router.go:315-330 | a strictly smaller accepted language makes a route more specific whatever the registration order |
| RouteTable.BestUnique | runtime/router.go:155-182 | at most one candidate is more specific than all others |
| RouteTable.BestExists | runtime/router.go:155-182 | where a candidate exists, a best one exists |
| RouteTable.BestIsSmallest | runtime/router.go:155-182 | no same-method match accepts a strictly smaller set of paths than the best one |
| RouteTable.BestExactly | runtime/router.go:315-330 | the best match is exactly the candidate with the most static segments, among those the most parameters, among those no proxy, among those the earliest registration |
| RouteTable.AcceptingMethodsExact | runtime/router.go:159-169 | the methods collected are exactly those of the routes that accept the path |
| RouteTable.FormatAllowHeader | runtime/router.go:332-347 | the header lists each non-blank method once, strictly sorted |
| RouteTable.AllowListsMethods | runtime/router.go:332-347 | that list is exactly the non-blank methods of the accepting routes |
| RouteTable.ResolutionResolves | runtime/serve.go:333-346 | a request is answered by its best match, or by 405 with the accepting methods, or by 404 |
| RouteTable.ResolutionKinds | runtime/serve.go:333-346 | 404 iff no route accepts the path; 405 iff some does but none with the method; a match iff one with the method does |
| RouteTable.ResolutionUnique | runtime/router.go:155-182 | the stated answer is determined by the table and the request |
| RouteTable.CountSegments | runtime/router.go:117-130 | the loop's counters equal the pattern's static and parameter counts and the presence of a proxy |
| RouteTable.Router.constructor | runtime/router.go:87-89 | a new table is empty and valid |
| RouteTable.Router.AddStrict | runtime/router.go:95-148 | the new state is the table extended by the canonical route, or unchanged with the error that applies |
| RouteTable.Router.Match | runtime/router.go:155-182 | the one-pass scan returns the unique maximum among same-method matches with its captures, and all accepting methods |
| RouteTable.Router.Answer | runtime/serve.go:333-346 | match and the 404/405 choice agree on the set of accepting routes |
| RouteTable.Router.Resolve | runtime/serve.go:333-346 | the answer is the one the table determines |
| ResponseLimits.Limiter.AllowChunk | runtime/response_limits.go:33-49 | a chunk is granted whole exactly when it fits and nothing tripped before; the count grows by what is granted |
| ResponseLimits.Limiter.ConsumeReader | runtime/response_limits.go:51-70 | the grant is the smaller of the request and what remains; overflow exactly when that is less than requested |
| ResponseLimits.ResponseSizeLimiter.constructor | runtime/response_limits.go:13-16 | the count starts at the length of the body |
| ResponseLimits.ResponseSizeLimiter.AllowChunk | runtime/response_limits.go:33-49 | the object's critical section performs the specified transition |
| ResponseLimits.ResponseSizeLimiter.ConsumeReader | runtime/response_limits.go:51-70 | the object's critical section performs the specified transition |
| ResponseLimits.LimitBodyReader | runtime/response_limits.go:103-148 | delivers exactly the first bytes that fit, however reads are split, then the source's own end if all fitted and the too-large error otherwise |
| ResponseLimits.SourceUpTo | runtime/response_limits.go:109-126 | a reader yields the data up to and with the first read that reports an end of file or error, and ends as that read says |
| ResponseLimits.PartTaken | runtime/response_limits.go:131-148 | passing on part of a read extends the delivered prefix of the source |
| ResponseLimits.LimitBodyStream | runtime/response_limits.go:76-101 | sends exactly the chunks before the first that does not fit, then the too-large error; or all data chunks and then the source's own erroring chunk whole, bytes included and uncounted |
| ResponseLimits.LetsThroughUnique | runtime/response_limits.go:76-101 | the place of the cut is determined by the chunks and the budget |
| ResponseLimits.FittingStreamUnchanged | runtime/response_limits.go:76-101 | a stream whose data fits, exactly or with room, passes unchanged up to and including its own erroring chunk |
| ResponseLimits.LimitedStreamFits | runtime/response_limits.go:76-101 | the chunks of a limited stream before an erroring one carry at most the budget and are a prefix of the source's |
| ResponseLimits.WholeStreamFits | runtime/response_limits.go:83-99 | all bytes of a limited stream are within the budget if and only if the source's erroring chunk, where the stream reaches it, fits beside the data |
| ResponseLimits.CutStreamEnds | runtime/response_limits.go:93-96 | a stream whose data does not fit ends in the too-large error, after exactly the chunks that fit |
| ResponseLimits.CaptureLimited | runtime/body_stream.go:42-74 | a capture of a limited stream has every chunk and the stream's own ending if all fits, otherwise the fitting chunks and the too-large error, unless cancelled first |
| ResponseLimits.ErrorChunkUnmetered | runtime/response_limits.go:85-88 | concrete input: for every budget, an erroring chunk with more bytes than that leaves the limited stream whole |
| ResponseLimits.CapturedWithinBudget | runtime/body_stream.go:42-74 | what a capture keeps of a limited stream is within the budget, wherever it stops |
| ResponseLimits.CaptureBodyStream | runtime/body_stream.go:42-74 | the body is the concatenation of the captured chunks, which are the source's up to the first of the cancellation, the erroring chunk and the end, and the ending says which |
| LimiterRuns.ReaderStepKeeps | runtime/response_limits.go:103-148 | every atomic step of the reader goroutine keeps the accounting and both sources' faithfulness |
| LimiterRuns.StreamStepKeeps | runtime/response_limits.go:76-101 | every atomic step of the stream goroutine keeps them too |
| LimiterRuns.RunInv | runtime/response_limits.go:8-148 | they hold in every state of every interleaving |
| LimiterRuns.NeverExceedsMax | runtime/response_limits.go:8-148 | in every interleaving body plus granted bytes stay within the maximum, and so does body plus delivered bytes before an erroring chunk; each source's output is a prefix of its data |
| LimiterRuns.AllBytesWithinMax | runtime/response_limits.go:76-148 | all bytes passed on, an erroring chunk's included, stay within the maximum under every schedule if and only if that chunk is out of reach, empty, or has room beside everything else |
| LimiterRuns.WorstSchedule | runtime/response_limits.go:76-148 | where the chunk has no room, a schedule that passes on more than the maximum |
| LimiterRuns.StreamRunsOut | runtime/response_limits.go:76-101 | run alone with room for its data, the stream goroutine passes on everything, the erroring chunk included |
| LimiterRuns.ReaderRunsOut | runtime/response_limits.go:103-148 | run alone, the reader goroutine passes on all its bytes or as many as still fit |
| LimiterRuns.ErrorChunkExceedsMax | runtime/response_limits.go:85-88 | concrete input: with a maximum of ten and an empty body, an erroring chunk of more than ten bytes is sent whole |
| LimiterRuns.TrippedFreezes | runtime/response_limits.go:37-46 | once tripped the limiter stays tripped and no non-empty data is granted |
| LimiterRuns.FittingNeverTrips | runtime/response_limits.go:33-70 | if body and both sources fit together, no interleaving trips the limiter |
| LimiterRuns.TripShown | runtime/response_limits.go:33-148 | in every state of every interleaving, a tripped limiter has been or is about to be reported to a consumer, unless that consumer left |
| LimiterRuns.FinishedRun | runtime/response_limits.go:76-148 | when both goroutines are done the limiter tripped iff the demand exceeded the maximum; if so at least one consumer received the too-large error, if not both received everything with the sources' own endings |
| Base64.DecodeEncode | runtime/request.go:55-59 | the RFC 4648 decoder undoes the encoder for every byte string |
| Base64.AlphabetTable | runtime/request.go:107-113 | the 64 characters of the alphabet in the order of their values |
| Base64.DecodesIffShaped | runtime/request.go:69-105 | decodable means alphabet characters, at most two final pads, and a length divisible by four |
| Base64.ShapedDecodes | runtime/request.go:95-104 | such a text decodes, to three bytes a quantum less one for each pad |
| Base64.BadCharacter | runtime/request.go:78-91 | a character rejected by the scan makes the text undecodable whatever follows |
| Base64.DecodedBase64Len | runtime/request.go:69-105 | succeeds exactly when the text without CR and LF decodes under section 4 of RFC 4648, and returns the decoded length |
| Base64.EncodedLength | runtime/request.go:69-105 | an encoding with CR and LF inserted anywhere decodes to the original bytes and measures as their number |
| Base64.BreaksIgnored | runtime/request.go:74-77 | inserting a CR or LF anywhere in any text does not change its measure |
| Requests.NormalizeRequest | runtime/request.go:35-67 | canonical parts and decoded body, invalid base64 rejected, decoded length over a positive maximum rejected |
| Requests.NormalizedBody | runtime/request.go:45-62 | a body that is not encoded is kept as it is and never refused; an encoded one is refused as bad or too large or replaced by its decoding |
| Requests.DecodedBodyWithinLimit | runtime/request.go:45-59 | a base64 body that passes is the decoding of the input and within the maximum |
| Requests.NormalizedParts | runtime/request.go:35-43 | method, path, headers and trace id of a normalized request are the canonical ones and the query is untouched |
| Headers.CanonicalizeHeaders | runtime/request.go:155-176 | the result is the merge in sorted key order, whatever order the map is enumerated in |
| Headers.MergeStep | runtime/request.go:165-174 | one key appends its values under its canonical name and leaves all else alone; a blank name adds nothing |
| Headers.CanonicalIsCanonical | runtime/request.go:155-176 | every resulting name is non-blank, trimmed and lower-case |
| Headers.CanonicalNames | runtime/request.go:155-176 | no resulting name has an ASCII capital, and every non-blank key's values are kept together under its own trimmed letters |
| Headers.KeysMerged | runtime/request.go:165-174 | keys that differ only in letter case and surrounding white space are merged, the values of the one that sorts first coming first |
| Text.SameNameExactly | runtime/request.go:169 | two keys have one stored name if and only if they differ only in the case of ASCII letters and in surrounding white space |
| Text.CanonicalNameSmall | runtime/request.go:169 | a stored name is the trimmed key without ASCII capitals, every other character unchanged |
| Text.SameMethodExactly | runtime/router.go:99 | two method names are stored alike if and only if they differ only in the case of ASCII letters and in surrounding white space |
| Text.TrimExact | runtime/request.go:169 | trimming takes nothing but white space from the ends |
| Headers.CanonicalFixed | runtime/request.go:155-176 | canonical headers are left unchanged |
| Headers.CanonicalIdempotent | runtime/request.go:155-176 | canonicalizing twice is canonicalizing once |
| Headers.ValuesConserved | runtime/request.go:155-176 | the multiset of values under non-blank keys is conserved |
| Vary.SplitCommaValues | runtime/cache.go:107-122 | exactly the trimmed non-blank parts, in order |
| Vary.NonBlankPartsExact | runtime/cache.go:112-120 | exactly the non-blank parts are kept, trimmed, each once and in order |
| Vary.CommaListReads | runtime/cache.go:107-122 | values printed with commas read back, each as often as it stands there |
| Vary.TokensExact | runtime/cache.go:78-101 | the tokens of header values are the small-lettered values between their commas |
| Vary.AddTokens | runtime/cache.go:78-101 | the accumulated list has no duplicates and holds exactly the tokens seen |
| Vary.Merge | runtime/cache.go:76-105 | the result is the strictly sorted union of both sides' tokens |
| Vary.VaryIdempotent | runtime/cache.go:76-105 | merging the same values in again changes nothing |
| Responses.NormalizeResponse | runtime/response.go:101-119 | default status, canonical headers, set-cookie values moved to the cookies |
| Responses.NormalizedIdempotent | runtime/response.go:101-119 | normalizing twice is normalizing once |
| Responses.NormalizedConserves | runtime/response.go:101-119 | headers and cookies together keep every value; no set-cookie value remains in the headers; other headers are as canonicalized |
| Responses.NormalizedRest | runtime/response.go:101-119 | the cookies that were there stay in front, a missing status becomes 200, and body and sources stay |
| Responses.LimitedSourcesKept | runtime/response_limits.go:8-24 | limiting keeps each source behind the limiter and everything else; without a maximum it does nothing |
| Responses.FinalizeResponse | runtime/serve.go:620-637 | request id and CORS headers are set on the canonical headers, with origin merged into vary |
| Responses.FinalizedHeaders | runtime/serve.go:620-637 | what each CORS header is for an origin that is let in and for any other; all other headers stay |
| Responses.OriginsAllowed | runtime/cors.go:53-70 | never a blank origin; with a list, exactly the listed ones or any under "*"; without, any unless credentials are allowed |
| Responses.AllowedHeaderNames | runtime/cors.go:72-80 | the configured names read back from the value; without any, two standard names if credentials are allowed |
| Responses.FinalizedCanonical | runtime/serve.go:620-637 | a finalized response has canonical headers |
| Responses.WithCorsTwice | runtime/serve.go:622-634 | adding the same request id and CORS headers again changes nothing |
| Responses.FinalizedIdempotent | runtime/serve.go:620-637 | finalizing twice is finalizing once |
| Responses.FinalizedRequestId | runtime/serve.go:622-624 | a known request id is the one value of x-request-id; without one the canonical headers' own values stay |
| Errors.RespondCode | runtime/errors.go:182-217 | status, headers and body fields of a response for an error code |
| Errors.RespondError | runtime/errors.go:243-258 | the response for any error: portable, legacy or foreign |
| Errors.StatusNumbers | runtime/errors.go:24-53 | the status of every code by its number; every other code is a 500 |
| Errors.CodeResponseParts | runtime/errors.go:182-217 | code, message, request id and trimmed trace id in the nested body, code and message alone in the flat one, legacy codes replaced only when nested; headers kept beside the content type |
| Errors.PortableResponseParts | runtime/errors.go:104-167 | a portable error counts before a legacy one, keeps its own ids and reports its own status |
| Errors.AppErrorParts | runtime/errors.go:253-256 | a legacy error is answered and recorded under its own code |
| Errors.ForeignErrorIsInternal | runtime/errors.go:257 | any other error is an internal error, recorded so and answered with 500 |
| Errors.ErrorStatusMatchesCode | runtime/errors.go:104-258 | the status sent is that of the recorded code if and only if an explicit status agrees with it or, without one, the format is nested or the code is not a legacy one |
| Errors.LegacyCodeMismatch | runtime/errors.go:104-145 | concrete input: under the legacy format, EMPTY_BODY without a status is recorded as a bad request and answered with 500 |
| Errors.PortableStatusMatches | runtime/errors.go:117-126 | for portable errors without a status the two agree iff the format is nested or the code is not a legacy one |
| Errors.BlankCodeIsUnknown | runtime/serve.go:436-449 | a code that is blank but not empty has status 500, the same as the internal code recorded for it |
| Auth.NormalizeScopeList | runtime/auth.go:70-92 | each trimmed non-blank scope once, at its first occurrence |
| Auth.NormalizedScopesExact | runtime/auth.go:70-92 | no duplicates, and exactly the non-blank trimmed scopes of the input |
| Auth.HasAllScopes | runtime/auth.go:106-113 | true iff every non-blank listed scope is held |
| Auth.HasAnyScope | runtime/auth.go:115-126 | true iff some non-blank listed scope is held or none is listed |
| Auth.Recognized | runtime/auth.go:22-68 | somebody is recognized exactly when the trimmed identity is not blank, under that identity and with exactly the non-blank trimmed scopes, each once |
| Middleware.App.Use | runtime/middleware.go:15-21 | a middleware is appended to the list; a nil one changes nothing |
| Middleware.App.ApplyMiddlewares | runtime/middleware.go:23-35 | the downward loop computes the right fold of the registered list |
| Middleware.LastIsInnermost | runtime/middleware.go:15-35 | registering one more middleware wraps the handler directly |
| Middleware.OrderOfEntryAndExit | runtime/middleware.go:23-35 | any middlewares that act before and after one call of their successor work on the context in registration order and on the outcome in the reverse order |
| Serve.Server.RespondToServeError | runtime/serve.go:177-189 | the custom responder's answer, or the error response with the trace id only where a request id is known |
| Serve.Server.Respond | runtime/serve.go:506-517 | the custom responder's answer, or the error response with the given headers and trace id |
| Serve.Server.ApplyPolicy | runtime/serve.go:461-496 | on P2 the hook's panic crashes, its error or non-blank code stops with that error, code, message and headers, and anything else passes; P1 never asks |
| Serve.Server.Authenticate | runtime/auth.go:22-50 | the principal hook is asked first, the identity hook only without one; blank is nobody, errors and panics are the hook's own |
| Serve.Server.Authorize | runtime/serve.go:519-558 | the hook's panic crashes and its error stops; nobody on a route that needs somebody stops as unauthorized, missing scopes stop as forbidden, and anything else passes with the principal recorded |
| Serve.Server.RunHandler | runtime/serve.go:359-380 | enters the wrapped handler once, and its response and recorded code are those of the handler's ending |
| Serve.Server.ServeMatched | runtime/serve.go:347-380 | policy, then authorization, then handler; entered exactly when both pass |
| Serve.Server.ServeNormalized | runtime/serve.go:313-380 | configure, size check, route and the rest refine the specified gate and ending |
| Serve.Server.ServePortableCore | runtime/serve.go:283-381 | the whole core: response, recorded code, remembered facts and handler entries are those specified |
| Serve.Server.ServePortable | runtime/serve.go:261-281 | after panic recovery and finalization: the specified response, one observation on P2 with that response's status and the recorded code, none on P1, and at most one entry of the handler |
| ServeProperties.PolicyExact | runtime/serve.go:461-496 | policy passes iff it is not asked, says nothing, or decides with a blank code |
| ServeProperties.AuthorizationExact | runtime/serve.go:519-558 | authorization passes iff no principal is asked for, or the hook succeeds and finds nobody where nobody is needed or somebody with all required and one any-of scope |
| ServeProperties.AuthenticatedIdentity | runtime/auth.go:22-68 | authentication never yields a blank identity |
| ServeProperties.PassedIsAuthorized | runtime/serve.go:519-558 | on a route that needs auth, the context passed on names a non-blank principal with the required scopes |
| ServeProperties.HandlerGuarded | runtime/serve.go:283-381 | the handler is entered only for a request that is no preflight, normalized, within the maximum on decoded bytes, routed to its best match and authorized for it |
| ServeProperties.HandlerEnteredExactly | runtime/serve.go:283-381 | the wrapped handler, its middlewares included, is entered if and only if every gate passes: id, preflight, normalization, size, route, configure, policy, authorization |
| ServeProperties.Base64PassesSizeCheck | runtime/serve.go:328-331 | base64 bodies never reach the later size rejection |
| ServeProperties.CrashesExactly | runtime/serve.go:283-381 | the pipeline ends in a panic if and only if something it asks panics: the id generator, configure, the policy, an auth hook or the wrapped handler |
| ServeProperties.AlwaysServed | runtime/serve.go:268-280 | no response is given if and only if the custom responder panics on the internal error, after something else panicked or it panicked itself on the first answer |
| ServeProperties.NothingServed | runtime/serve.go:268-280 | concrete input: with a responder that always panics and a panicking id generator, an empty request gets no response |
| ServeProperties.PanicsAreInternalErrors | runtime/serve.go:268-272 | without a custom responder every panic is answered with 500 and recorded as internal |
| ServeProperties.FinalizedStatus | runtime/serve.go:273-276 | finalization changes neither status, body nor cookies, so the observed status is the response's |
| ServeProperties.RequestIdEchoed | runtime/serve.go:273-276 | the response shows a known request id alone and otherwise whatever id the handler or responder set; shown and observed id agree if and only if an id is known or nobody else set one |
| ServeProperties.ForeignRequestId | runtime/serve.go:622-624 | concrete input: without a request id, a handler's own x-request-id is shown beside a blank observed id |
| ServeProperties.ForeignIdServed | runtime/serve.go:261-281 | concrete request: with a panicking id generator, an empty request is answered with the responder's id and observed with none |
| ServeProperties.EndingCode | runtime/serve.go:283-381 | on every path the recorded code is that of the error answered, up to the two legacy codes |
| ServeProperties.StatusMatchesRecordedCode | runtime/serve.go:261-281 | without a custom responder the response's status is that of the recorded code if and only if the error's status follows its code |
| ServeProperties.SucceededWithinLimit | runtime/serve.go:373-378 | a successful response's body is within the maximum, and its reader and stream go through one and the same limiter, whose count includes the body |
| ServeAnswers.UndecodableIsBadRequest | runtime/serve.go:302-306 | base64 that cannot be decoded is answered with 400, its code and message |
| ServeAnswers.OversizedIsTooLarge | runtime/serve.go:302-331 | a body over the maximum after decoding is answered with 413, an encoded one before configure is asked |
| ServeAnswers.UnknownPathIsNotFound | runtime/serve.go:333-346 | a path that no route accepts is answered with 404 |
| ServeAnswers.OtherMethodIsNotAllowed | runtime/serve.go:333-346 | a path that only routes of other methods accept is answered with 405 |
| ServeAnswers.NotAllowedListsMethods | runtime/serve.go:451-459 | its allow header lists, strictly sorted, exactly the non-blank methods that do accept the path |
| ServeAnswers.NobodyIsUnauthorized | runtime/serve.go:539-544 | nobody on a route that needs somebody is answered with 401 |
| ServeAnswers.MissingScopeIsForbidden | runtime/serve.go:549-555 | somebody without a required scope, or without any of the any-of scopes, is answered with 403 |
| ServeAnswers.PolicyAnswered | runtime/serve.go:482-495 | a policy's trimmed code, message and headers are answered as given, with a standard message for its code if it has none |
| ServeAnswers.AuthenticatedWhom | runtime/auth.go:22-50 | whom authentication finds from either hook, and that errors and panics are the hook's own |
| ServeAnswers.DenialParts | runtime/serve.go:506-555 | a denial has no headers, the request as the hook left it, and the request's trace id; the hook's own error has the context's |
| ServeAnswers.ReplyTracePrecedence | runtime/serve.go:177-189 | the remembered trace id before the request's own, trimmed, and none without a request id |
| ServeAnswers.NormalizationErrorShows | runtime/serve.go:401-406 | a responder is shown the normalized request with a too-large body and the original with an undecodable one |
| ServeAnswers.HandlerSees | runtime/serve.go:313-362 | behind hooks that leave the context alone, a handler sees the decoded body, canonical method, path and headers, the best match's parameters, the ids, tenant and remaining time, and the steps taken |
| ServeAnswers.OutcomeAnswered | runtime/serve.go:361-380 | what each handler outcome becomes: its own body, status and headers within the maximum, 413 over it, 500 for nothing, its own code for an error |
| ServeAnswers.PreflightAnswered | runtime/serve.go:298-300 | a preflight request is answered first, with 204 and the method it asks for |
| ServeAnswers.PreflightExactly | runtime/serve.go:597-602 | a preflight is an options request, in any case, that names a method |
| ServeAnswers.RequestIdPrecedence | runtime/serve.go:408-416 | the request's own trimmed id before the fallback before a new one |
| ServeAnswers.TenantPrecedence | runtime/serve.go:586-595 | the header's first tenant before the query's |
| ServeAnswers.AnySpellingFound | runtime/request.go:155-176 | a header sent under any spelling of its name is found under its canonical one |
| ServeAnswers.ObservedParts | runtime/serve.go:275 | what an observation reports, in terms of the request |
| ServeProperties.ServedWithinLimit | runtime/serve.go:373-378 | the finished response of every successful request streams through one limiter, under which body, delivered bytes and streamed data together stay within the maximum in every schedule; all bytes do if and only if an erroring chunk has room |
| Sse.FormatEvent | runtime/sse.go:43-79 | prints the event's frame, or fails exactly when its data cannot be encoded |
| Sse.WriteDataLines | runtime/sse.go:71-75 | one data line for each line, in order |
| Sse.SseBody | runtime/sse.go:82-91 | the body is the events' text in order, or an error when one cannot be encoded |
| Sse.StreamEvents | runtime/sse.go:130-161 | what is written is the body of whole events up to the first that cannot be encoded, the cancellation or the channel's end, or up to and with part of the one during which the reader leaves; the ending says which comes first |
| Sse.FrameRead | runtime/sse.go:43-79 | a client splits a printed event into its own lines whatever follows |
| Sse.ProcessFrame | runtime/sse.go:43-79 | a client with empty buffers dispatches exactly one message for it |
| Sse.BodyRead | runtime/sse.go:82-91 | a client that has read the printed events is in the state those events describe, whatever follows |
| Sse.CleanEventsReadBack | runtime/sse.go:43-91 | the WHATWG client reads clean events back, data newlines normalized, type defaulting to "message", id persisting |
| Sse.UncleanEventLost | runtime/sse.go:46-58 | one name or id with a line break, or id with a NUL, makes the readback differ |
| Sse.PrintedEventsReadBack | runtime/sse.go:43-91 | printed events read back if and only if every trimmed name and id stays on one line and no id has a NUL |
| Sse.DataDividedByStandard | runtime/sse.go:65-70 | data is printed in the lines into which the WHATWG standard divides it, at CRLF, CR and LF; a final CR is followed by an empty line |
| Sse.PayloadLines | runtime/sse.go:25-41 | text and bytes are printed as they are, a value as encoded, and a missing payload as one empty line |
| Sse.ShownData | runtime/sse.go:43-91 | a client shows each event's lines joined by LF, and text without CR exactly as it is |
| Sse.BrokenOffReadsWhole | runtime/sse.go:43-161 | a client that reads whole events and then a proper part of the next sees exactly the whole ones, wherever the part breaks off |
| EventDelivery.DeliveredEvents | runtime/response_limits.go:103-148 | of a printed event stream cut off at a size limit a client sees exactly the leading events whose bytes fit, even if the cut falls inside a character; something is cut off if and only if not all fit |
| EventDelivery.ReadEvents | runtime/response_limits.go:103-148 | the limited reader of an event stream, however it splits its reads, delivers just that, and ends with the too-large error if and only if not all events fit |
| EventDelivery.CutFalls | runtime/response_limits.go:51-70 | the cut falls into the first event that does not fit, after all bytes of those before it |
| Decimal.DropZerosValue | runtime/kinesis_producer.go:208-211 | dropping leading zeros keeps the number |
| Decimal.NumeralOrder | runtime/kinesis_producer.go:212-215 | for numerals, length-then-text order is numeric order |
| HashKeys.MaxKeyText | runtime/kinesis_producer.go:17 | the text constant denotes 2^128 - 1 |
| HashKeys.NormalizeExplicitHashKey | runtime/kinesis_producer.go:198-217 | a digit string is accepted iff its value is at most 2^128 - 1, and becomes the numeral of that value |
| HashKeys.NormalizedKeyIdempotent | runtime/kinesis_producer.go:198-217 | normalizing twice is normalizing once |
| HashKeys.NormalizedKeyInjective | runtime/kinesis_producer.go:198-217 | two accepted keys normalize alike iff they denote the same number |
| Utf8.DecodeEncode | runtime/safe_log.go:21-25 | the RFC 3629 decoder undoes the encoding of every valid text |
| Utf8.EncodedExamples | runtime/safe_log.go:21 | examples of section 7 of RFC 3629 |
| Utf8.OrderKept | runtime/request.go:164 | comparing two texts by code points and by their UTF-8 bytes, as Go sorts them, is the same |
| SafeLog.EscapeRune | runtime/safe_log.go:21-25 | the byte loop writes one escape for each byte of the character |
| SafeLog.LogSafeValue | runtime/safe_log.go:10-28 | the builder's text is the character-by-character encoding |
| SafeLog.SafeDecodes | runtime/safe_log.go:10-28 | percent-decoding (section 2.1 of RFC 3986) gives back the value's UTF-8 bytes |
| SafeLog.SafeRoundTrip | runtime/safe_log.go:10-28 | every value can be read back from its safe form |
| SafeLog.SafeHarmless | runtime/safe_log.go:10-32 | the safe form has no space, no control character and no "=" |
| SafeLog.SafeCodes | runtime/safe_log.go:30-32 | the same in code points: nothing up to the space, nothing from delete to the no-break space, no other space or separator |
| SafeLog.SafePlainText | runtime/safe_log.go:16-20 | visible ASCII text without "%" and "=" is logged as it is |
| SafeLog.SafeExamples | runtime/safe_log.go:21-25 | concrete characters in capital hexadecimal digits |
| LogLines.PrintParses | runtime/kinesis_producer.go:309-332 | a line of plain words splits uniquely into its tag and fields |
| Kinesis.RecordSafeLogText | runtime/kinesis_producer.go:219-231 | the exact text of a record line, with and without the hash key |
| Kinesis.RecordLogParses | runtime/kinesis_producer.go:219-237 | a record line reads back as its fields |
| Kinesis.RecordLogInjective | runtime/kinesis_producer.go:219-237 | equal record lines mean equal keys and data sizes |
| Kinesis.FailureLogParses | runtime/kinesis_producer.go:309-332 | a failure line reads back as its fields |
| Kinesis.FailureSafeLogText | runtime/kinesis_producer.go:309-332 | the exact text: which value stands under which key, in which order |
| Kinesis.FailureLogInjective | runtime/kinesis_producer.go:309-332 | no two failures share a line: every field can be recovered, with or without the hash key |
| Kinesis.ReportFailures | runtime/kinesis_producer.go:116-158 | rejects exactly the malformed calls; otherwise one failure, in order, for each result with an error code |
| Kinesis.ReportedFailure | runtime/kinesis_producer.go:290-307 | which part of its record and result each field of a failure comes from |
| Kinesis.AcceptedAt | runtime/kinesis_producer.go:182-288 | exactly which records and results are accepted, with the limits in bytes |
| Kinesis.AppendFailure | runtime/kinesis_producer.go:139-151 | adding one failure keeps the report exact |
| EventContext.EventContext.CloneForRecord | runtime/aws_event_context.go:26-38 | a fresh object with its own copy of the raw event and no values |
| EventContext.EventContext.Set | runtime/aws_event_context.go:61-73 | the trimmed key is updated and nothing else; a blank key changes nothing |
| EventContext.LastSetWins | runtime/aws_event_context.go:61-84 | a lookup gives what was last set under any spelling of the key |
| EventContext.NeverSetMissing | runtime/aws_event_context.go:75-84 | a lookup gives nothing where nothing was set |
| EventContext.GetSeesOwnSets | runtime/aws_event_context.go:61-84 | what a handler's `Get` returns is what the same handler last set under that key, or nothing if it set nothing |
| EventContext.RunHandler | runtime/aws_batch.go:43-45 | a handler that decides every step on what it has seen so far does on its context what it would do alone |
| EventContext.RunRecords | runtime/aws_batch.go:32-48 | each record's handler does and sees exactly what it would alone, contexts and raw events are fresh and pairwise distinct, and the shared context is untouched |
| Batch.BatchItemFailures | runtime/aws_batch.go:9-30 | the trimmed non-blank ids of failing records in order, all of them without a handler; nothing when a handler panics |
| Batch.RunStreamRecordHandler | runtime/aws_dynamodb.go:96-110 | a missing handler and a panic become the workload error |
| Batch.ServeDynamoDBStream | runtime/aws_dynamodb.go:74-94 | the failures of the generic loop on the panic-as-error handler, and one observation per record |
| Batch.LoopsAgree | runtime/aws_batch.go:9-30 | the generic loop on the panic-as-error handler returns the DynamoDB loop's list; on the handler itself it returns nothing iff some call panics, and that list otherwise |
| Batch.PanicsAreFailures | runtime/aws_dynamodb.go:96-110 | a panicking record is listed like a failing one |
| Batch.FailedIdsInOrder | runtime/aws_batch.go:9-30 | exactly the failing records with non-blank ids are reported, each once, in batch order |
| Timeout.TimeoutForContext | runtime/timeout_middleware.go:86-114 | operation before tenant before default, replaced by the wrapped 64-bit remaining time if that is known, positive and shorter; never longer than either |
| Timeout.TimeoutPrecedence | runtime/timeout_middleware.go:70-105 | operation before tenant before default, and thirty seconds where no default is set |
| Timeout.ChooseTimeout | runtime/timeout_middleware.go:16-27 | the handler is called directly iff no positive timeout is configured; otherwise the wait is positive and within the configured and the remaining time |
| Timeout.DeadlineNeverWraps | runtime/serve.go:604-618 | remaining milliseconds that come from a deadline convert without overflow |
| Timeout.RemainingTimeWraps | runtime/timeout_middleware.go:106-111 | concrete input: a remaining time of 585 years wraps around to less than a millisecond |
| Timeout.RunInv | runtime/timeout_middleware.go:39-55 | what every state of every interleaving of worker, clock, parent context and caller satisfies |
| Timeout.WorkerNeverBlocks | runtime/timeout_middleware.go:39-55 | the worker sends at most once and never blocks; the caller returns the worker's message or, once the deadline has passed or the parent is cancelled, the timeout error |
| Timeout.AnswerIsFinal | runtime/timeout_middleware.go:50-55 | once returned, the answer never changes |
| Timeout.ProgressPossible | runtime/timeout_middleware.go:39-55 | a caller with a result or a done context can return, and an unfinished worker can move |
| Timeout.NoCauseNoTimeout | runtime/timeout_middleware.go:50-55 | before the deadline and without a cancelled parent the only answer is the worker's own |
| Timeout.CancelledBeforeDeadline | runtime/timeout_middleware.go:50-55 | concrete run: a cancelled parent alone gives the timeout error before the deadline |

## Left out

- Letter case outside ASCII: Go's case mapping covers all of Unicode; here only the ASCII letters are mapped.
- Strings that are not valid UTF-8: Go strings may hold them, the model's may not.
- Serve.Server.ServePortable: the handler is entered at most once as the wrapped handler; a middleware that calls its successor several times, or not at all, is free to, as in the source. Observability hooks and clocks that panic are not modelled.
- Tier P0 (`serveP0`) has neither request ids nor limits, policy or authorization; its routing and error answers are the members used here for P1 and P2.
- Cookie parsing, source provenance and the trace header's syntax: the trace id is an arbitrary function of the headers.
- JSON encoding of error bodies and events: an arbitrary function, and for events one that may fail. Error details, timestamps and stack traces are not in the envelope.
- Clock readings, durations and random ids: parameters.
- Errors.RespondError: finds the portable or legacy error in the error value; walking a chain of wrapped errors is not modelled.
- Batch.ServeDynamoDBStream: a handler call is a function of the record and its position, so what handlers share is not tracked; registration by table name, stream ARNs and event middleware are left out.
- EventContext.RunRecords: a handler takes a bounded number of steps on its own context; the clock and id generator it can also ask are not modelled.
- ResponseLimits.LimitBodyReader: the 32 KiB buffer and the pipe are not modelled; a read returns any bytes.
- LimiterRuns.NeverExceedsMax: a pipe closed before or in the middle of a write is a step; a consumer that abandons the stream's channel is a schedule in which that goroutine does not move again.
- Sse.StreamEvents: a reader that leaves in the middle of a write leaves between two characters; cuts inside one are covered by EventDelivery.DeliveredEvents.
- Timeout.WorkerNeverBlocks: the copy of the context given to the worker and a missing handler are not modelled.
- Aliasing between a request and its context: hooks get values, so a hook that writes into a header or query map it was handed changes only its own context here.
- Nil against empty slices and maps, which the modelled code does not distinguish in its results.
- CORS configuration parsing, response constructors, `SetHeader`, cache-control and ETag helpers: none of the modelled members depends on them; a CORS configuration is taken as already parsed.
- Kinesis.ReportFailures: the error texts, the partial report returned beside an error and the summary line are not modelled.
- Request binding and validation, OpenAPI, AppSync and WebSocket adapters, event dispatch, the rate limiter and the generated CDK code.
