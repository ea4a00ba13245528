/** What the portable pipeline answers to a request, and what its handler gets to see, in terms of the
    request itself (`runtime/serve.go`). */
module ServeAnswers {
  import opened Text
  import opened Sorting
  import opened Bytes
  import opened Headers
  import opened Errors
  import opened Auth
  import opened RoutePatterns
  import opened RouteLanguages
  import opened RouteTable
  import opened Middleware
  import opened ServeSpec
  import opened ServeProperties
  import Rs = Responses
  import Rq = Requests
  import Base64

  // ----- how far a request gets -----

  /** A request id can be had, and the request is no preflight. */
  ghost predicate Proceeds(config: Config, req: Rq.Request, opts: ServeOptions) {
    RequestIdFor(config, Canonical(req.headers), opts).Some? && !IsPreflight(req.httpMethod, Canonical(req.headers))
  }

  /** The body as the handler should get it, if it can be decoded. */
  function BodyOf(req: Rq.Request): Option<seq<Byte>> {
    if req.isBase64 then Base64.Decode(Base64.Clean(req.body)) else Some(req.body)
  }

  function BodyFits(config: Config, req: Rq.Request): bool {
    BodyOf(req).Some? && (config.maxRequestBytes > 0 ==> |BodyOf(req).value| <= config.maxRequestBytes)
  }

  ghost function NormalizedRequest(config: Config, req: Rq.Request): Rq.Request {
    Rq.Normalized(req, config.maxRequestBytes, config.traceOf).0
  }

  ghost predicate ConfigureReturns(config: Config, req: Rq.Request, opts: ServeOptions) {
    !ConfigurePanics(opts, InitialContext(config, NormalizedRequest(config, req), FactsOf(config, req, opts)))
  }

  /** The request is looked up in the route table. */
  ghost predicate Routed(config: Config, req: Rq.Request, opts: ServeOptions) {
    Proceeds(config, req, opts) && BodyFits(config, req) && ConfigureReturns(config, req, opts)
  }

  lemma FittingNormalizes(config: Config, req: Rq.Request)
    requires BodyFits(config, req)
    ensures var (n, error) := Rq.Normalized(req, config.maxRequestBytes, config.traceOf);
            && error.None? && Some(n.body) == BodyOf(req)
            && n.httpMethod == CanonicalMethod(req.httpMethod) && n.path == NormalizePath(req.path)
            && n.headers == Canonical(req.headers) && n.query == req.query
  {
    hide Canonical, CanonicalMethod, NormalizePath, Base64.Decode, Base64.Clean, Rq.Normalized;
    Rq.NormalizedBody(req, config.maxRequestBytes, config.traceOf);
    Rq.NormalizedParts(req, config.maxRequestBytes, config.traceOf);
  }

  lemma RoutedGate(config: Config, routes: seq<Route<ContextHandler>>, req: Rq.Request, tier: Tier, opts: ServeOptions)
    requires ValidTable(routes) && Routed(config, req, opts)
    ensures GateOf(config, routes, req, tier, opts) ==
            GateAfterNormalize(config, routes, NormalizedRequest(config, req), FactsOf(config, req, opts), tier, opts)
  {
    FittingNormalizes(config, req);
    hide Canonical, IsPreflight, RequestIdFor, GateAfterNormalize, FactsOf, ValidTable, Rq.Normalized, CodeForError, TOO_LARGE, BodyFits,
         ConfigureReturns;
  }

  // ----- the status of an answer -----

  ghost predicate AnsweredWith(ending: Ending, code: string, message: string) {
    ending.Answered? && ending.error == NewAppError(code, message)
  }

  /** The body is that of this error, for this request id and some trace id. */
  ghost predicate TellsError(config: Config, r: Rs.Response, requestId: string, code: string, message: string) {
    exists traceId :: r.body == config.encode(CodeEnvelope(config.format, code, message, requestId, traceId))
  }

  /** A response is given, with this status and the body of this error. */
  ghost predicate Tells(config: Config, served: Option<Rs.Response>, requestId: string, status: int, code: string, message: string) {
    served.Some? && served.value.status == status && TellsError(config, served.value, requestId, code, message)
  }

  lemma AnswerStatus(
    config: Config, routes: seq<Route<ContextHandler>>, middlewares: seq<Wrapper<Context, Handling>>,
    req: Rq.Request, tier: Tier, opts: ServeOptions, code: string, message: string)
    requires ValidTable(routes) && opts.responder.None?
    requires AnsweredWith(EndingOf(config, routes, middlewares, req, tier, opts), code, message)
    ensures Tells(config, Served(config, routes, middlewares, req, tier, opts), FactsOf(config, req, opts).requestId,
                  StatusForCode(CanonicalCode(code)), code, message)
  {
    var facts, ending := FactsOf(config, req, opts), EndingOf(config, routes, middlewares, req, tier, opts);
    hide EndingOf, FactsOf, ValidTable, StatusForCode, CanonicalCode, Rs.Finalized, CodeEnvelope, CONTENT_TYPE, Canonical, ReplyTrace, INTERNAL;
    FinalizedStatus(config, opts, facts, req, ending);
  }

  lemma KnownCodes()
    ensures BAD_REQUEST == "app.bad_request" && UNAUTHORIZED == "app.unauthorized" && FORBIDDEN == "app.forbidden"
    ensures NOT_FOUND == "app.not_found" && METHOD_NOT_ALLOWED == "app.method_not_allowed" && TOO_LARGE == "app.too_large"
  {
  }

  lemma KnownStatuses()
    ensures StatusForCode(CanonicalCode(BAD_REQUEST)) == 400 && StatusForCode(CanonicalCode(UNAUTHORIZED)) == 401
    ensures StatusForCode(CanonicalCode(FORBIDDEN)) == 403 && StatusForCode(CanonicalCode(NOT_FOUND)) == 404
    ensures StatusForCode(CanonicalCode(METHOD_NOT_ALLOWED)) == 405 && StatusForCode(CanonicalCode(TOO_LARGE)) == 413
    ensures StatusForCode(CanonicalCode(INTERNAL)) == 500
    ensures BAD_REQUEST != TOO_LARGE
  {
    StatusNumbers(BAD_REQUEST);
  }

  /** A base64 body that cannot be decoded is answered with 400. */
  lemma UndecodableIsBadRequest(
    config: Config, routes: seq<Route<ContextHandler>>, middlewares: seq<Wrapper<Context, Handling>>,
    req: Rq.Request, tier: Tier, opts: ServeOptions)
    requires ValidTable(routes) && opts.responder.None? && Proceeds(config, req, opts)
    requires req.isBase64 && Base64.Decode(Base64.Clean(req.body)).None?
    ensures Tells(config, Served(config, routes, middlewares, req, tier, opts), FactsOf(config, req, opts).requestId,
                  400, "app.bad_request", "invalid base64")
  {
    KnownStatuses();
    Rq.NormalizedBody(req, config.maxRequestBytes, config.traceOf);
    hide Canonical, IsPreflight, RequestIdFor, GateAfterNormalize, FactsOf, ValidTable, Rq.Normalized, CodeForError, StatusForCode, CanonicalCode,
         TOO_LARGE, ReplyTrace, Served, Base64.Decode, Base64.Clean;
    AnswerStatus(config, routes, middlewares, req, tier, opts, BAD_REQUEST, "invalid base64");
    KnownCodes();
  }

  /** A body over a positive maximum, measured after decoding, is answered with 413: an encoded one before
      the configure hook is asked, any other one after it. */
  lemma OversizedIsTooLarge(
    config: Config, routes: seq<Route<ContextHandler>>, middlewares: seq<Wrapper<Context, Handling>>,
    req: Rq.Request, tier: Tier, opts: ServeOptions)
    requires ValidTable(routes) && opts.responder.None? && Proceeds(config, req, opts)
    requires BodyOf(req).Some? && config.maxRequestBytes > 0 && |BodyOf(req).value| > config.maxRequestBytes
    requires req.isBase64 || ConfigureReturns(config, req, opts)
    ensures Tells(config, Served(config, routes, middlewares, req, tier, opts), FactsOf(config, req, opts).requestId,
                  413, "app.too_large", "request too large")
  {
    KnownStatuses();
    Rq.NormalizedBody(req, config.maxRequestBytes, config.traceOf);
    hide Canonical, IsPreflight, RequestIdFor, FactsOf, ValidTable, Rq.Normalized, CodeForError, StatusForCode, CanonicalCode,
         ReplyTrace, Served, Base64.Decode, Base64.Clean, ResolutionOf, GateAfterMatch, InitialContext, METHOD_NOT_ALLOWED, NOT_FOUND;
    AnswerStatus(config, routes, middlewares, req, tier, opts, TOO_LARGE, "request too large");
    KnownCodes();
  }

  lemma RoutedResolution(config: Config, routes: seq<Route<ContextHandler>>, req: Rq.Request)
    requires ValidTable(routes) && BodyFits(config, req)
    ensures var n := NormalizedRequest(config, req);
            && n.path == NormalizePath(req.path) && n.httpMethod == CanonicalMethod(req.httpMethod)
            && CanonicalMethod(n.httpMethod) == CanonicalMethod(req.httpMethod)
            && Resolves(routes, n.httpMethod, n.path, ResolutionOf(routes, n.httpMethod, n.path))
  {
    FittingNormalizes(config, req);
    CanonicalMethodIdempotent(req.httpMethod);
    hide ValidTable, CanonicalMethod, NormalizePath, BodyFits, Rq.Normalized, ResolutionOf, Resolves;
    var n := NormalizedRequest(config, req);
    ResolutionResolves(routes, n.httpMethod, n.path);
  }

  /** A path that no route accepts is answered with 404. */
  lemma UnknownPathIsNotFound(
    config: Config, routes: seq<Route<ContextHandler>>, middlewares: seq<Wrapper<Context, Handling>>,
    req: Rq.Request, tier: Tier, opts: ServeOptions)
    requires ValidTable(routes) && opts.responder.None? && Routed(config, req, opts)
    requires forall k | 0 <= k < |routes| :: !RouteAccepts(routes[k], NormalizePath(req.path))
    ensures Tells(config, Served(config, routes, middlewares, req, tier, opts), FactsOf(config, req, opts).requestId,
                  404, "app.not_found", "not found")
  {
    KnownStatuses();
    var n := NormalizedRequest(config, req);
    hide Canonical, IsPreflight, RequestIdFor, FactsOf, ValidTable, Rq.Normalized, CodeForError, StatusForCode, CanonicalCode, BodyOf,
         ReplyTrace, Served, ResolutionOf, GateAfterMatch, InitialContext, TOO_LARGE, NormalizePath, CanonicalMethod, RouteAccepts, GateOf;
    RoutedResolution(config, routes, req);
    FittingNormalizes(config, req);
    ResolutionKinds(routes, n.httpMethod, n.path);
    RoutedGate(config, routes, req, tier, opts);
    AnswerStatus(config, routes, middlewares, req, tier, opts, NOT_FOUND, "not found");
    KnownCodes();
  }

  /** A path that only routes of other methods accept is answered with 405. */
  lemma OtherMethodIsNotAllowed(
    config: Config, routes: seq<Route<ContextHandler>>, middlewares: seq<Wrapper<Context, Handling>>,
    req: Rq.Request, tier: Tier, opts: ServeOptions)
    requires ValidTable(routes) && opts.responder.None? && Routed(config, req, opts)
    requires exists k | 0 <= k < |routes| :: RouteAccepts(routes[k], NormalizePath(req.path))
    requires forall k :: !Candidate(routes, CanonicalMethod(req.httpMethod), NormalizePath(req.path), k)
    ensures Tells(config, Served(config, routes, middlewares, req, tier, opts), FactsOf(config, req, opts).requestId,
                  405, "app.method_not_allowed", "method not allowed")
  {
    KnownStatuses();
    var n := NormalizedRequest(config, req);
    hide Canonical, IsPreflight, RequestIdFor, FactsOf, ValidTable, Rq.Normalized, CodeForError, StatusForCode, CanonicalCode, BodyOf,
         ReplyTrace, Served, ResolutionOf, GateAfterMatch, InitialContext, TOO_LARGE, NormalizePath, CanonicalMethod, RouteAccepts, GateOf;
    RoutedResolution(config, routes, req);
    FittingNormalizes(config, req);
    ResolutionKinds(routes, n.httpMethod, n.path);
    RoutedGate(config, routes, req, tier, opts);
    AnswerStatus(config, routes, middlewares, req, tier, opts, METHOD_NOT_ALLOWED, "method not allowed");
    KnownCodes();
  }

  /** Its `allow` header lists, strictly sorted, the methods of the routes that do accept the path. */
  lemma NotAllowedListsMethods(
    config: Config, routes: seq<Route<ContextHandler>>, middlewares: seq<Wrapper<Context, Handling>>,
    req: Rq.Request, tier: Tier, opts: ServeOptions)
    requires ValidTable(routes) && opts.responder.None? && Routed(config, req, opts)
    requires exists k | 0 <= k < |routes| :: RouteAccepts(routes[k], NormalizePath(req.path))
    requires forall k :: !Candidate(routes, CanonicalMethod(req.httpMethod), NormalizePath(req.path), k)
    ensures Served(config, routes, middlewares, req, tier, opts).Some?
    ensures exists names: seq<string> ::
              && ValuesOf(Served(config, routes, middlewares, req, tier, opts).value.headers, ALLOW) == [Join(names, ", ")]
              && ListsAcceptingMethods(routes, NormalizePath(req.path), names)
  {
    var n, facts := NormalizedRequest(config, req), FactsOf(config, req, opts);
    hide Canonical, IsPreflight, RequestIdFor, FactsOf, ValidTable, Rq.Normalized, CodeForError, StatusForCode, CanonicalCode, BodyOf,
         ReplyTrace, ServedResponse, ResolutionOf, GateAfterMatch, InitialContext, TOO_LARGE, METHOD_NOT_ALLOWED, NOT_FOUND, NormalizePath, CanonicalMethod,
         RouteAccepts, GateOf, ListsAcceptingMethods, ALLOW;
    RoutedResolution(config, routes, req);
    FittingNormalizes(config, req);
    ResolutionKinds(routes, n.httpMethod, n.path);
    RoutedGate(config, routes, req, tier, opts);
    var allow := ResolutionOf(routes, n.httpMethod, n.path).allow;
    AllowNamed();
    AllowKept(config, opts, facts, req, NewAppError(METHOD_NOT_ALLOWED, "method not allowed"), METHOD_NOT_ALLOWED, allow, n, facts.traceId);
  }

  const ALLOW := "allow"

  lemma AllowNamed()
    ensures map["allow" := [""]].Keys == {ALLOW}
  {
  }

  lemma AnswerServed(
    config: Config, opts: ServeOptions, facts: Facts, req: Rq.Request, error: AppError, code: string, headers: HeaderMap,
    n: Rq.Request, traceId: string)
    requires opts.responder.None?
    ensures ServedResponse(config, opts, facts, req, Answered(ErrorValue(None, Some(error)), code, headers, n, traceId)) ==
            Some(Rs.Finalized(ResponseForCode(config.format, config.encode, error.code, error.message, headers, facts.requestId, traceId),
                              facts.requestId, facts.origin, config.cors))
  {
    hide ResponseForCode, Rs.Finalized, ReplyTrace, INTERNAL;
  }

  lemma AllowKept(
    config: Config, opts: ServeOptions, facts: Facts, req: Rq.Request, error: ErrorValue, code: string, allow: string,
    n: Rq.Request, traceId: string)
    requires opts.responder.None? && error.portable.None? && error.app.Some?
    ensures var served := ServedResponse(config, opts, facts, req, Answered(error, code, map[ALLOW := [allow]], n, traceId));
            served.Some? && ValuesOf(served.value.headers, ALLOW) == [allow]
  {
    var a := error.app.value;
    var core := ResponseForCode(config.format, config.encode, a.code, a.message, map[ALLOW := [allow]], facts.requestId, traceId);
    hide ServedResponse, ResponseForCode, CanonicalName, Canonical, Rs.Finalized, ALLOW,
         Rs.REQUEST_ID, Rs.ALLOW_ORIGIN, Rs.VARY, Rs.ALLOW_CREDENTIALS, Rs.ALLOW_HEADERS, CONTENT_TYPE;
    AnswerServed(config, opts, facts, req, a, code, map[ALLOW := [allow]], n, traceId);
    AllowInAnswer(config.format, config.encode, a.code, a.message, allow, facts.requestId, traceId);
    AllowName();
    Rs.FinalizedHeaders(core, facts.requestId, facts.origin, config.cors);
  }

  lemma AllowName()
    ensures ALLOW != "" && CanonicalName(ALLOW) == ALLOW
    ensures ALLOW !in {Rs.REQUEST_ID, Rs.ALLOW_ORIGIN, Rs.VARY, Rs.ALLOW_CREDENTIALS, Rs.ALLOW_HEADERS, CONTENT_TYPE}
  {
    Rs.PlainNameCanonical(ALLOW);
    hide CanonicalName;
    Rs.HeaderNameLengths();
    hide Rs.REQUEST_ID, Rs.ALLOW_ORIGIN, Rs.ALLOW_CREDENTIALS, Rs.ALLOW_HEADERS;
  }

  lemma AllowInAnswer(
    format: Format, encode: Envelope -> seq<Byte>, code: string, message: string, allow: string, requestId: string, traceId: string)
    ensures var r := ResponseForCode(format, encode, code, message, map[ALLOW := [allow]], requestId, traceId);
            ValuesOf(Canonical(r.headers), ALLOW) == [allow]
  {
    hide CanonicalName, Canonical, CodeEnvelope, StatusForCode, CanonicalCode, ALLOW, CONTENT_TYPE,
         Rs.REQUEST_ID, Rs.ALLOW_ORIGIN, Rs.VARY, Rs.ALLOW_CREDENTIALS, Rs.ALLOW_HEADERS;
    AllowName();
    ContentTypeName();
    OneHeader(ALLOW, [allow]);
    var r := ResponseForCode(format, encode, code, message, map[ALLOW := [allow]], requestId, traceId);
    CanonicalFixed(r.headers);
  }

  lemma ContentTypeName()
    ensures CONTENT_TYPE != "" && CanonicalName(CONTENT_TYPE) == CONTENT_TYPE
  {
    Rs.PlainNameCanonical(CONTENT_TYPE);
    hide CanonicalName;
  }

  // ----- authorization -----

  /** The context in which authorization is asked for a matched route, if the policy lets it come to that. */
  ghost function AskedContext(
    config: Config, routes: seq<Route<ContextHandler>>, req: Rq.Request, tier: Tier, opts: ServeOptions): Option<Context>
    requires ValidTable(routes)
  {
    var ctx := MatchedContext(config, routes, NormalizedRequest(config, req), FactsOf(config, req, opts), opts);
    if ctx.None? then None
    else
      var policy := PolicyOf(config, tier, ctx.value, opts);
      if policy.PolicyPasses? then Some(policy.ctx) else None
  }

  /** Whom the auth hook finds, if it returns. */
  function Found(config: Config, ctx: Context): Outcome<Option<Principal>> {
    Authenticate(config, ctx.(trace := ctx.trace + ["auth"])).outcome
  }

  lemma AskedGate(
    config: Config, routes: seq<Route<ContextHandler>>, req: Rq.Request, tier: Tier, opts: ServeOptions, k: int)
    requires ValidTable(routes) && Routed(config, req, opts)
    requires Best(routes, CanonicalMethod(req.httpMethod), NormalizePath(req.path), k)
    ensures var ctx := AskedContext(config, routes, req, tier, opts);
            ctx.Some? ==>
              GateOf(config, routes, req, tier, opts) ==
              match AuthorizationOf(config, routes[k].options, ctx.value)
              case AuthStops(ending) => Stop(ending)
              case AuthPasses(allowed) => Run(routes[k], allowed.(trace := allowed.trace + ["handler"]))
  {
    hide Canonical, IsPreflight, RequestIdFor, FactsOf, ValidTable, Rq.Normalized, BodyOf, ReplyTrace, ResolutionOf, PolicyOf, AuthorizationOf,
         InitialContext, TOO_LARGE, METHOD_NOT_ALLOWED, NOT_FOUND, NormalizePath, CanonicalMethod, Best, GateOf;
    RoutedResolution(config, routes, req);
    FittingNormalizes(config, req);
    RoutedGate(config, routes, req, tier, opts);
    MatchedBest(routes, NormalizedRequest(config, req), k);
  }

  lemma MatchedBest(routes: seq<Route<ContextHandler>>, n: Rq.Request, k: int)
    requires ValidTable(routes) && Best(routes, CanonicalMethod(n.httpMethod), n.path, k)
    ensures 0 <= k < |routes| && Accepts(routes[k].segments, SplitPath(n.path))
    ensures ResolutionOf(routes, n.httpMethod, n.path) == Matched(routes[k], Captures(routes[k].segments, SplitPath(n.path)))
  {
    hide CanonicalMethod, ValidTable, MoreSpecific, SplitPath, Captures;
    BestAccepts(routes, CanonicalMethod(n.httpMethod), n.path, k);
    forall j | Best(routes, CanonicalMethod(n.httpMethod), n.path, j) ensures j == k {
      BestUnique(routes, CanonicalMethod(n.httpMethod), n.path, j, k);
    }
  }

  /** A route that needs somebody, for whom the auth hook finds nobody, is answered with 401. */
  lemma NobodyIsUnauthorized(
    config: Config, routes: seq<Route<ContextHandler>>, middlewares: seq<Wrapper<Context, Handling>>,
    req: Rq.Request, tier: Tier, opts: ServeOptions, k: int)
    requires ValidTable(routes) && opts.responder.None? && Routed(config, req, opts)
    requires Best(routes, CanonicalMethod(req.httpMethod), NormalizePath(req.path), k) && RequiresAuth(routes[k].options)
    requires var ctx := AskedContext(config, routes, req, tier, opts); ctx.Some? && Found(config, ctx.value) == Returned(None)
    ensures Tells(config, Served(config, routes, middlewares, req, tier, opts), FactsOf(config, req, opts).requestId,
                  401, "app.unauthorized", "unauthorized")
  {
    KnownStatuses();
    hide ValidTable, Served, GateOf, Routed, Best, AskedContext, Authenticate, StatusForCode, CanonicalCode, FORBIDDEN, UNAUTHORIZED, CanonicalMethod,
         NormalizePath, FactsOf, Rq.Normalized;
    AskedGate(config, routes, req, tier, opts, k);
    AnswerStatus(config, routes, middlewares, req, tier, opts, UNAUTHORIZED, "unauthorized");
    KnownCodes();
  }

  /** Somebody who lacks a required scope, or all of the any-of scopes, is answered with 403. */
  lemma MissingScopeIsForbidden(
    config: Config, routes: seq<Route<ContextHandler>>, middlewares: seq<Wrapper<Context, Handling>>,
    req: Rq.Request, tier: Tier, opts: ServeOptions, k: int, p: Principal)
    requires ValidTable(routes) && opts.responder.None? && Routed(config, req, opts)
    requires Best(routes, CanonicalMethod(req.httpMethod), NormalizePath(req.path), k)
    requires var ctx := AskedContext(config, routes, req, tier, opts); ctx.Some? && Found(config, ctx.value) == Returned(Some(p))
    requires !HoldsAll(p, routes[k].options.requiredScopes) || !HoldsAny(p, routes[k].options.requiredAnyScope)
    ensures Tells(config, Served(config, routes, middlewares, req, tier, opts), FactsOf(config, req, opts).requestId,
                  403, "app.forbidden", "forbidden")
  {
    KnownStatuses();
    NoScopesHeld(p);
    hide ValidTable, Served, GateOf, Routed, Best, AskedContext, Authenticate, StatusForCode, CanonicalCode, FORBIDDEN, UNAUTHORIZED, CanonicalMethod,
         NormalizePath, FactsOf, Rq.Normalized, HoldsAll, HoldsAny;
    AskedGate(config, routes, req, tier, opts, k);
    AnswerStatus(config, routes, middlewares, req, tier, opts, FORBIDDEN, "forbidden");
    KnownCodes();
  }

  lemma NoScopesHeld(p: Principal)
    ensures HoldsAll(p, []) && HoldsAny(p, [])
  {
  }

  /** A policy's code and message are answered as they are, trimmed, under the code's status; without a
      message there is one for the code. */
  lemma PolicyAnswered(config: Config, ctx: Context, opts: ServeOptions, d: Decision)
    requires config.policy.Some? && config.policy.value(ctx).outcome == Returned(Some(d)) && Trim(d.code) != ""
    ensures var v := PolicyOf(config, P2, ctx, opts); var after := config.policy.value(ctx).ctx;
            && v.PolicyStops? && v.ending.Answered?
            && v.ending.code == Trim(d.code) && v.ending.headers == d.headers
            && v.ending.request == after.request && v.ending.traceId == after.traceId
            && v.ending.error.portable.None? && v.ending.error.app.Some?
            && v.ending.error.app.value.code == Trim(d.code)
            && v.ending.error.app.value.message ==
               if Trim(d.message) != "" then Trim(d.message)
               else if Trim(d.code) == "app.rate_limited" then "rate limited"
               else if Trim(d.code) == "app.overloaded" then "overloaded"
               else "internal error"
  {
    hide Trim;
  }

  /** Whom authentication finds: the principal hook's principal if there is such a hook, with its identity
      trimmed and its scopes normalized; otherwise the identity hook's trimmed identity without any scopes;
      nobody for a blank identity or without a hook.  Errors and panics are the hook's own. */
  lemma AuthenticatedWhom(config: Config, ctx: Context)
    ensures var result := Authenticate(config, ctx);
            && (config.principalAuth.Some? ==>
                  var hook := config.principalAuth.value(ctx);
                  && result.ctx == hook.ctx
                  && (!hook.outcome.Returned? ==> result.outcome == hook.outcome)
                  && (hook.outcome.Returned? ==> result.outcome == Returned(Recognized(hook.outcome.value))))
            && (config.principalAuth.None? && config.auth.Some? ==>
                  var hook := config.auth.value(ctx);
                  && result.ctx == hook.ctx
                  && (hook.outcome.Panicked? ==> result.outcome == Panicked)
                  && (hook.outcome.Failed? ==> result.outcome == Failed(hook.outcome.error))
                  && (hook.outcome.Returned? ==>
                        result.outcome == Returned(if Trim(hook.outcome.value) == "" then None else Some(Principal(Trim(hook.outcome.value), [])))))
            && (config.principalAuth.None? && config.auth.None? ==> result == HookResult(Returned(None), ctx))
  {
    hide Recognized, Trim;
  }

  /** What a denial says: nothing in the headers, the request as the auth hook left it, and the trace id of
      the context for the hook's own error but of the request for a denial. */
  lemma DenialParts(config: Config, o: RouteOptions, ctx: Context)
    requires AuthorizationOf(config, o, ctx).AuthStops? && !AuthPanics(config, o, ctx)
    ensures var ending := AuthorizationOf(config, o, ctx).ending; var after := Authenticate(config, ctx.(trace := ctx.trace + ["auth"]));
            && ending.Answered? && ending.headers == map[] && ending.request == after.ctx.request
            && (after.outcome.Failed? ==>
                  ending.error == after.outcome.error && ending.code == CodeForError(after.outcome.error) && ending.traceId == after.ctx.traceId)
            && (after.outcome.Returned? ==> ending.traceId == after.ctx.request.traceId && ending.code in {"app.unauthorized", "app.forbidden"})
  {
    AuthCrashes(config, o, ctx);
    hide Recognized, Trim, HoldsAll, HoldsAny, CodeForError;
  }

  /** The trace id of an answer: the one remembered for the request or else the request's own, trimmed,
      and none where there is no request id. */
  lemma ReplyTracePrecedence(request: Rq.Request, requestId: string, traceId: string)
    ensures requestId == "" ==> ReplyTrace(request, requestId, traceId) == ""
    ensures requestId != "" && Trim(traceId) != "" ==> ReplyTrace(request, requestId, traceId) == Trim(traceId)
    ensures requestId != "" && Trim(traceId) == "" ==> ReplyTrace(request, requestId, traceId) == Trim(request.traceId)
  {
    hide Trim;
  }

  /** The request that a custom responder is shown with a normalization error: the normalized one if its
      body is too large, the original if it cannot be decoded. */
  lemma NormalizationErrorShows(
    config: Config, routes: seq<Route<ContextHandler>>, req: Rq.Request, tier: Tier, opts: ServeOptions)
    requires ValidTable(routes) && Proceeds(config, req, opts)
    requires Rq.Normalized(req, config.maxRequestBytes, config.traceOf).1.Some?
    ensures var gate := GateOf(config, routes, req, tier, opts);
            && gate.Stop? && gate.ending.Answered?
            && gate.ending.error == Rq.Normalized(req, config.maxRequestBytes, config.traceOf).1.value
            && gate.ending.request == (if BodyOf(req).Some? then NormalizedRequest(config, req) else req)
  {
    KnownStatuses();
    KnownCodes();
    Rq.NormalizedBody(req, config.maxRequestBytes, config.traceOf);
    hide Canonical, IsPreflight, RequestIdFor, GateAfterNormalize, FactsOf, ValidTable, Rq.Normalized, StatusForCode, TOO_LARGE, BAD_REQUEST,
         ReplyTrace, Base64.Decode, Base64.Clean, IsLegacyCode;
    PlainCodes();
  }

  lemma PlainCodes()
    ensures CanonicalCode("app.bad_request") == "app.bad_request" && CanonicalCode("app.too_large") == "app.too_large"
    ensures "app.bad_request" != "app.too_large"
  {
    assert "app.bad_request"[4] != "app.too_large"[4];
    assert "app.bad_request"[0] != EMPTY_BODY[0] && "app.bad_request"[0] != INVALID_JSON[0];
    assert "app.too_large"[0] != EMPTY_BODY[0] && "app.too_large"[0] != INVALID_JSON[0];
  }

  // ----- the handler -----

  /** No hook changes the context it is given. */
  ghost predicate HooksKeepContext(config: Config, opts: ServeOptions) {
    && (opts.configure.Some? ==> forall c :: opts.configure.value(c) == Some(c))
    && (config.policy.Some? ==> forall c :: config.policy.value(c).ctx == c)
    && (config.principalAuth.Some? ==> forall c :: config.principalAuth.value(c).ctx == c)
    && (config.auth.Some? ==> forall c :: config.auth.value(c).ctx == c)
  }

  lemma PolicyKeeps(config: Config, tier: Tier, ctx: Context, opts: ServeOptions)
    requires HooksKeepContext(config, opts) && PolicyOf(config, tier, ctx, opts).PolicyPasses?
    ensures PolicyOf(config, tier, ctx, opts).ctx == ctx
  {
    hide Trim;
  }

  lemma AuthorizationKeeps(config: Config, opts: ServeOptions, o: RouteOptions, ctx: Context)
    requires HooksKeepContext(config, opts) && AuthorizationOf(config, o, ctx).AuthPasses?
    ensures var allowed := AuthorizationOf(config, o, ctx).ctx;
            && allowed == ctx.(trace := allowed.trace, authIdentity := allowed.authIdentity, principal := allowed.principal)
            && allowed.trace == ctx.trace + (if o.optionalAuth || RequiresAuth(o) then ["auth"] else [])
            && (o.optionalAuth || RequiresAuth(o) ==>
                  && Found(config, ctx).Returned?
                  && (Found(config, ctx).value.Some? ==>
                        allowed.principal == Found(config, ctx).value && allowed.authIdentity == Found(config, ctx).value.value.identity)
                  && (Found(config, ctx).value.None? ==> allowed.principal == ctx.principal && allowed.authIdentity == ctx.authIdentity))
            && (!o.optionalAuth && !RequiresAuth(o) ==> allowed == ctx)
  {
    hide Recognized, Trim, HoldsAll, HoldsAny, UNAUTHORIZED, FORBIDDEN, CodeForError;
  }

  /** Behind hooks that leave the context alone, a handler sees the request: its body, decoded if it was
      encoded; its canonical method, path and headers; the parameters of the best match; the request id,
      trace id, tenant and remaining time; whoever the auth hook found; and the steps taken so far. */
  lemma HandlerSees(
    config: Config, routes: seq<Route<ContextHandler>>, req: Rq.Request, tier: Tier, opts: ServeOptions, k: int)
    requires ValidTable(routes) && HooksKeepContext(config, opts)
    requires Routed(config, req, opts) && Best(routes, CanonicalMethod(req.httpMethod), NormalizePath(req.path), k)
    requires GateOf(config, routes, req, tier, opts).Run?
    ensures var gate := GateOf(config, routes, req, tier, opts); var ctx, n := gate.ctx, NormalizedRequest(config, req);
            && gate.route == routes[k]
            && ctx.request == n && Some(ctx.request.body) == BodyOf(req)
            && Accepts(routes[k].segments, SplitPath(NormalizePath(req.path)))
            && ctx.params == Captures(routes[k].segments, SplitPath(NormalizePath(req.path)))
            && Some(ctx.requestId) == RequestIdFor(config, Canonical(req.headers), opts)
            && ctx.traceId == config.traceOf(Canonical(req.headers))
            && ctx.tenantId == TenantId(Canonical(req.headers), req.query)
            && ctx.remainingMs == config.remainingMs
            && ctx.trace == ["request_id", "recovery", "logging"] +
                 (if FirstHeader(Canonical(req.headers), "origin") != "" then ["cors"] else []) +
                 (if routes[k].options.optionalAuth || RequiresAuth(routes[k].options) then ["auth"] else []) + ["handler"]
  {
    var n, facts := NormalizedRequest(config, req), FactsOf(config, req, opts);
    hide Canonical, IsPreflight, RequestIdFor, ValidTable, Rq.Normalized, BodyOf, ReplyTrace, ResolutionOf, PolicyOf, AuthorizationOf,
         TOO_LARGE, METHOD_NOT_ALLOWED, NOT_FOUND, NormalizePath, CanonicalMethod, Best, GateOf, TenantId, FirstHeader, Captures, SplitPath, Accepts;
    FittingNormalizes(config, req);
    NormalizedTrace(config, req);
    RoutedResolution(config, routes, req);
    MatchedBest(routes, n, k);
    RoutedGate(config, routes, req, tier, opts);
    var ctx0 := InitialContext(config, n, facts).(params := Captures(routes[k].segments, SplitPath(n.path)));
    hide FactsOf;
    assert GateOf(config, routes, req, tier, opts) == GateAfterMatch(config, routes[k], ctx0, tier, opts);
    PolicyKeeps(config, tier, ctx0, opts);
    AuthorizationKeeps(config, opts, routes[k].options, ctx0);
    InitialParts(config, req, opts);
  }

  lemma NormalizedTrace(config: Config, req: Rq.Request)
    requires BodyFits(config, req)
    ensures NormalizedRequest(config, req).traceId == config.traceOf(Canonical(req.headers))
  {
    FittingNormalizes(config, req);
    hide Canonical, Rq.Normalized, BodyOf, CanonicalMethod, NormalizePath;
    Rq.NormalizedParts(req, config.maxRequestBytes, config.traceOf);
  }

  lemma InitialParts(config: Config, req: Rq.Request, opts: ServeOptions)
    requires Routed(config, req, opts)
    ensures var n := NormalizedRequest(config, req); var ctx := InitialContext(config, n, FactsOf(config, req, opts));
            && ctx.request == n && ctx.traceId == n.traceId && ctx.remainingMs == config.remainingMs
            && Some(ctx.requestId) == RequestIdFor(config, Canonical(req.headers), opts)
            && ctx.tenantId == TenantId(Canonical(req.headers), req.query)
            && ctx.principal == None && ctx.authIdentity == "" && ctx.params == map[]
            && ctx.trace == ["request_id", "recovery", "logging"] +
                 (if FirstHeader(Canonical(req.headers), "origin") != "" then ["cors"] else [])
  {
    FittingNormalizes(config, req);
    hide Canonical, IsPreflight, RequestIdFor, Rq.Normalized, BodyOf, CanonicalMethod, NormalizePath, TenantId, FirstHeader;
  }

  /** What a handler's outcome becomes: an outcome within the maximum is served with its own body and status,
      200 if it has none; one over it becomes a 413, a missing one a 500, and an error goes under its own
      code. */
  lemma OutcomeAnswered(config: Config, outcome: Handling, n: Rq.Request, facts: Facts)
    ensures var ending := EndingOfOutput(config, outcome, n, facts);
            match outcome
            case Panicked => ending == Crashed
            case Failed(e) => ending.Answered? && ending.error == e && ending.code == CodeForError(e) && ending.request == n
            case Returned(None) => AnsweredWith(ending, "app.internal", "internal error")
            case Returned(Some(out)) =>
              if config.maxResponseBytes > 0 && |out.body| > config.maxResponseBytes then AnsweredWith(ending, "app.too_large", "response too large")
              else
                && ending.Succeeded? && ending.output.body == out.body && ending.output.isBase64 == out.isBase64
                && ending.output.status == (if out.status == 0 then 200 else out.status)
                && ending.output.cookies == Rs.Normalized(out).cookies && ending.output.headers == Rs.Normalized(out).headers
  {
    if outcome.Returned? && outcome.value.Some? {
      Rs.NormalizedRest(outcome.value.value);
      hide Rs.Normalized, ReplyTrace, CodeForError;
      Rs.LimitedSourcesKept(Rs.Normalized(outcome.value.value), config.maxResponseBytes, config.newLimiter);
      hide Rs.LimitStreamed;
    } else {
      hide Rs.Normalized, ReplyTrace, CodeForError;
    }
  }

  // ----- preflight requests, ids and tenants -----

  /** A preflight request is answered before anything else with 204 and the method it asks for. */
  lemma PreflightAnswered(
    config: Config, routes: seq<Route<ContextHandler>>, middlewares: seq<Wrapper<Context, Handling>>,
    req: Rq.Request, tier: Tier, opts: ServeOptions)
    requires ValidTable(routes)
    requires RequestIdFor(config, Canonical(req.headers), opts).Some? && IsPreflight(req.httpMethod, Canonical(req.headers))
    ensures EndingOf(config, routes, middlewares, req, tier, opts) ==
            Preflighted(FirstHeader(Canonical(req.headers), "access-control-request-method"))
    ensures var r := PreflightResponse(FirstHeader(Canonical(req.headers), "access-control-request-method"));
            && r.status == 204 && r.body == []
            && r.headers == map["access-control-allow-methods" := [FirstHeader(Canonical(req.headers), "access-control-request-method")]]
  {
    hide Canonical, FirstHeader, RequestIdFor, IsPreflight, FactsOf, ValidTable, Rq.Normalized;
  }

  /** It is one exactly if its method is "options" in any case and it names a method it asks for. */
  lemma PreflightExactly(req: Rq.Request)
    ensures IsPreflight(req.httpMethod, Canonical(req.headers)) <==>
            && SameLetters(Trim(req.httpMethod), "OPTIONS")
            && |ValuesOf(Canonical(req.headers), "access-control-request-method")| > 0
            && ValuesOf(Canonical(req.headers), "access-control-request-method")[0] != ""
  {
    OptionsCanonical();
    SameMethodExactly(req.httpMethod, "OPTIONS");
    hide Canonical, CanonicalMethod, SameLetters, Trim;
  }

  lemma OptionsCanonical()
    ensures CanonicalMethod("OPTIONS") == "OPTIONS" && Trim("OPTIONS") == "OPTIONS"
  {
    assert IsTrimmed("OPTIONS");
    assert Upper("OPTIONS") == "OPTIONS";
  }

  /** A request's own id, trimmed, comes before the fallback, and that before a new one. */
  lemma RequestIdPrecedence(config: Config, h: HeaderMap, opts: ServeOptions)
    ensures var own := ValuesOf(h, "x-request-id"); var id := RequestIdFor(config, h, opts);
            && (own != [] && Trim(own[0]) != "" ==> id == Some(Trim(own[0])))
            && ((own == [] || Trim(own[0]) == "") && Trim(opts.fallbackRequestId) != "" ==> id == Some(Trim(opts.fallbackRequestId)))
            && ((own == [] || Trim(own[0]) == "") && Trim(opts.fallbackRequestId) == "" ==> id == config.newId)
  {
    BlankStaysBlank();
    hide Trim;
  }

  /** The tenant is the first one named in the header, or else in the query. */
  lemma TenantPrecedence(h: HeaderMap, query: map<string, seq<string>>)
    ensures var own, asked := ValuesOf(h, "x-tenant-id"), ValuesOf(query, "tenant");
            && (own != [] && own[0] != "" ==> TenantId(h, query) == own[0])
            && ((own == [] || own[0] == "") && asked != [] ==> TenantId(h, query) == asked[0])
            && ((own == [] || own[0] == "") && asked == [] ==> TenantId(h, query) == "")
  {
  }

  /** A header is found under any spelling of its name: whoever sends only `X-Request-Id` sends the id. */
  lemma AnySpellingFound(key: string, name: string, value: string)
    requires SameLetters(Trim(key), name) && NoCapitals(name) && name != ""
    ensures ValuesOf(Canonical(map[key := [value]]), name) == [value]
  {
    SpelledName(key, name);
    hide CanonicalName, Trim, SameLetters, NoCapitals;
    SingleHeader(key, value);
  }

  lemma SpelledName(key: string, name: string)
    requires SameLetters(Trim(key), name) && NoCapitals(name)
    ensures CanonicalName(key) == name
  {
    LowerSame(Trim(key), name);
    hide Trim;
    assert Lower(name) == name;
  }

  lemma SingleHeader(key: string, value: string)
    requires CanonicalName(key) != ""
    ensures Canonical(map[key := [value]]) == map[CanonicalName(key) := [value]]
  {
    hide CanonicalName;
    var h := map[key := [value]];
    SortedUnique(SortedListing(h.Keys), [key]);
    MergeNone(h, [key]);
    MergeStep(h, [key], 0);
    hide MergedUpTo;
    assert [] + [value] == [value];
  }

  /** What an observation reports: the request's canonical method and path, and the id, trace id and tenant
      that its headers and query give. */
  lemma ObservedParts(config: Config, req: Rq.Request, opts: ServeOptions, status: int, code: string)
    requires RequestIdFor(config, Canonical(req.headers), opts).Some?
    ensures var o := ObservationOf(FactsOf(config, req, opts), status, code);
            && o.httpMethod == CanonicalMethod(req.httpMethod) && o.path == NormalizePath(req.path)
            && Some(o.requestId) == RequestIdFor(config, Canonical(req.headers), opts)
            && o.traceId == config.traceOf(Canonical(req.headers))
            && o.tenantId == TenantId(Canonical(req.headers), req.query)
            && o.status == status && o.errorCode == code
  {
    hide Canonical, CanonicalMethod, NormalizePath, RequestIdFor, TenantId;
  }
}
