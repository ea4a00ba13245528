/** What the portable pipeline answers, as functions of the application's configuration, its
    routes and the request (`runtime/serve.go`).  Hooks and handlers are arbitrary functions of
    the request context that may return, fail or panic. */
module ServeSpec {
  import opened Text
  import opened Bytes
  import opened Headers
  import opened Errors
  import opened Auth
  import opened RoutePatterns
  import opened RouteTable
  import opened Middleware
  import Rs = Responses
  import Rq = Requests

  datatype Context = Context(
    request: Rq.Request, params: map<string, string>, requestId: string, traceId: string, tenantId: string,
    authIdentity: string, principal: Option<Principal>, remainingMs: int, trace: seq<string>)

  datatype Outcome<+T> = Returned(value: T) | Failed(error: ErrorValue) | Panicked

  /** A hook's outcome and the context as the hook leaves it. */
  datatype HookResult<+T> = HookResult(outcome: Outcome<T>, ctx: Context)

  type Handling = Outcome<Option<Rs.Response>>
  type ContextHandler = Handler<Context, Handling>

  datatype Decision = Decision(code: string, message: string, headers: HeaderMap)

  datatype Tier = P1 | P2

  /** `newId` is what the id generator yields for this request, if it does not panic; `newLimiter`
      is the identity of the limiter allocated for its response, if one is; `encode` and `traceOf` stand for the JSON encoder and the trace header parser. */
  datatype Config = Config(
    format: Format, encode: Envelope -> seq<Byte>, maxRequestBytes: int, maxResponseBytes: int, cors: Rs.CorsConfig,
    auth: Option<Context -> HookResult<string>>, principalAuth: Option<Context -> HookResult<Option<Principal>>>,
    policy: Option<Context -> HookResult<Option<Decision>>>, newId: Option<string>, traceOf: HeaderMap -> string,
    remainingMs: int, newLimiter: nat)

  /** A `configure` hook or error responder yields nothing when it panics. */
  datatype ServeOptions = ServeOptions(
    configure: Option<Context -> Option<Context>>,
    responder: Option<(ErrorValue, Rq.Request, string) -> Option<Rs.Response>>, fallbackRequestId: string)

  // ----- the parts of the request the pipeline looks at first -----

  function FirstHeader(h: HeaderMap, key: string): string {
    if |ValuesOf(h, key)| == 0 then "" else ValuesOf(h, key)[0]
  }

  /** `extractTenantID`. */
  function TenantId(h: HeaderMap, query: map<string, seq<string>>): string {
    if FirstHeader(h, "x-tenant-id") != "" then FirstHeader(h, "x-tenant-id") else FirstHeader(query, "tenant")
  }

  /** `isCorsPreflight`. */
  predicate IsPreflight(httpMethod: string, h: HeaderMap) {
    CanonicalMethod(httpMethod) == "OPTIONS" && FirstHeader(h, "access-control-request-method") != ""
  }

  /** `resolvePortableRequestID`; nothing when the id generator is asked and panics. */
  function RequestIdFor(config: Config, h: HeaderMap, opts: ServeOptions): Option<string> {
    if Trim(FirstHeader(h, "x-request-id")) != "" then Some(Trim(FirstHeader(h, "x-request-id")))
    else if Trim(opts.fallbackRequestId) != "" then Some(Trim(opts.fallbackRequestId))
    else config.newId
  }

  function PortableTrace(origin: string): seq<string> {
    ["request_id", "recovery", "logging"] + if origin != "" then ["cors"] else []
  }

  /** What the pipeline remembers about the request for finalization and observation. */
  datatype Facts = Facts(httpMethod: string, path: string, requestId: string, traceId: string, origin: string, tenantId: string)

  ghost function FactsOf(config: Config, req: Rq.Request, opts: ServeOptions): Facts {
    var h := Canonical(req.headers);
    var id := RequestIdFor(config, h, opts);
    var httpMethod, path := CanonicalMethod(req.httpMethod), NormalizePath(req.path);
    if id.None? then Facts(httpMethod, path, "", "", "", "")
    else Facts(httpMethod, path, id.value, config.traceOf(h), FirstHeader(h, "origin"), TenantId(h, req.query))
  }

  // ----- how a request ends -----

  datatype Ending =
    | Preflighted(requested: string)
    | Succeeded(output: Rs.Response)
    | Answered(error: ErrorValue, code: string, headers: HeaderMap, request: Rq.Request, traceId: string)
    | Crashed

  /** The trace id that `respondToServeError` reports: none when there is no request id. */
  function ReplyTrace(request: Rq.Request, requestId: string, traceId: string): string {
    if requestId == "" then ""
    else if Trim(traceId) != "" then Trim(traceId)
    else Trim(request.traceId)
  }

  /** An answer through `respondToServeError`. */
  function Reply(error: ErrorValue, code: string, request: Rq.Request, facts: Facts): Ending {
    Answered(error, code, map[], request, ReplyTrace(request, facts.requestId, facts.traceId))
  }

  datatype Gate = Stop(ending: Ending) | Run(route: Route<ContextHandler>, ctx: Context)

  // ----- policy and authorization -----

  function DefaultPolicyMessage(code: string): string {
    if code == RATE_LIMITED then "rate limited" else if code == OVERLOADED then "overloaded" else "internal error"
  }

  datatype PolicyVerdict = PolicyPasses(ctx: Context) | PolicyStops(ending: Ending)

  /** `applyPolicy`. */
  function PolicyOf(config: Config, tier: Tier, ctx: Context, opts: ServeOptions): (v: PolicyVerdict)
    ensures v.PolicyStops? ==> v.ending.Answered? || v.ending.Crashed?
    ensures tier == P1 ==> v == PolicyPasses(ctx)
  {
    if tier != P2 || config.policy.None? then PolicyPasses(ctx)
    else
      var result := config.policy.value(ctx);
      var after := result.ctx;
      match result.outcome
      case Panicked => PolicyStops(Crashed)
      case Failed(e) =>
        if opts.responder.Some? then PolicyStops(Answered(e, CodeForError(e), map[], after.request, after.traceId))
        else PolicyStops(Answered(InternalError(), INTERNAL, map[], after.request, after.traceId))
      case Returned(None) => PolicyPasses(after)
      case Returned(Some(d)) =>
        var code := Trim(d.code);
        if code == "" then PolicyPasses(after)
        else
          var message := if Trim(d.message) == "" then DefaultPolicyMessage(code) else Trim(d.message);
          PolicyStops(Answered(NewAppError(code, message), code, d.headers, after.request, after.traceId))
  }

  predicate RequiresAuth(o: RouteOptions) {
    o.authRequired || |o.requiredScopes| > 0 || |o.requiredAnyScope| > 0
  }

  /** `authenticate`: the principal the configured hook recognizes. */
  function Authenticate(config: Config, ctx: Context): HookResult<Option<Principal>> {
    if config.principalAuth.Some? then
      var result := config.principalAuth.value(ctx);
      match result.outcome
      case Returned(p) => HookResult(Returned(Recognized(p)), result.ctx)
      case _ => result
    else if config.auth.None? then HookResult(Returned(None), ctx)
    else
      var result := config.auth.value(ctx);
      match result.outcome
      case Returned(identity) =>
        HookResult(Returned(if Trim(identity) == "" then None else Some(Principal(Trim(identity), []))), result.ctx)
      case Failed(e) => HookResult(Failed(e), result.ctx)
      case Panicked => HookResult(Panicked, result.ctx)
  }

  datatype AuthVerdict = AuthPasses(ctx: Context) | AuthStops(ending: Ending)

  function Denied(code: string, message: string, ctx: Context): AuthVerdict {
    AuthStops(Answered(NewAppError(code, message), code, map[], ctx.request, ctx.request.traceId))
  }

  /** `authorize`. */
  ghost function AuthorizationOf(config: Config, o: RouteOptions, ctx0: Context): (v: AuthVerdict)
    ensures v.AuthStops? ==> v.ending.Answered? || v.ending.Crashed?
  {
    if !o.optionalAuth && !RequiresAuth(o) then AuthPasses(ctx0)
    else
      var result := Authenticate(config, ctx0.(trace := ctx0.trace + ["auth"]));
      var ctx := result.ctx;
      match result.outcome
      case Panicked => AuthStops(Crashed)
      case Failed(e) => AuthStops(Answered(e, CodeForError(e), map[], ctx.request, ctx.traceId))
      case Returned(None) =>
        if !RequiresAuth(o) then AuthPasses(ctx) else Denied(UNAUTHORIZED, "unauthorized", ctx)
      case Returned(Some(p)) =>
        var known := ctx.(authIdentity := p.identity, principal := Some(p));
        if |o.requiredScopes| > 0 && !HoldsAll(p, o.requiredScopes) then Denied(FORBIDDEN, "forbidden", known)
        else if |o.requiredAnyScope| > 0 && !HoldsAny(p, o.requiredAnyScope) then Denied(FORBIDDEN, "forbidden", known)
        else AuthPasses(known)
  }

  // ----- everything before the handler -----

  ghost function InitialContext(config: Config, normalized: Rq.Request, facts: Facts): Context {
    Context(normalized, map[], facts.requestId, normalized.traceId, TenantId(normalized.headers, normalized.query),
            "", None, config.remainingMs, PortableTrace(facts.origin))
  }

  ghost function GateAfterMatch(
    config: Config, route: Route<ContextHandler>, ctx: Context, tier: Tier, opts: ServeOptions): Gate
  {
    match PolicyOf(config, tier, ctx, opts)
    case PolicyStops(ending) => Stop(ending)
    case PolicyPasses(afterPolicy) =>
      match AuthorizationOf(config, route.options, afterPolicy)
      case AuthStops(ending) => Stop(ending)
      case AuthPasses(allowed) => Run(route, allowed.(trace := allowed.trace + ["handler"]))
  }

  ghost function GateAfterNormalize(
    config: Config, routes: seq<Route<ContextHandler>>, normalized: Rq.Request, facts: Facts, tier: Tier, opts: ServeOptions): Gate
    requires ValidTable(routes)
  {
    var ctx0 := InitialContext(config, normalized, facts);
    var configured := if opts.configure.None? then Some(ctx0) else opts.configure.value(ctx0);
    if configured.None? then Stop(Crashed)
    else if config.maxRequestBytes > 0 && |normalized.body| > config.maxRequestBytes then
      Stop(Reply(NewAppError(TOO_LARGE, "request too large"), TOO_LARGE, normalized, facts))
    else
      match ResolutionOf(routes, normalized.httpMethod, normalized.path)
      case Matched(route, params) =>
        GateAfterMatch(config, route, configured.value.(params := params), tier, opts)
      case MethodNotAllowed(allow) =>
        var error := NewAppError(METHOD_NOT_ALLOWED, "method not allowed");
        if opts.responder.Some? then Stop(Reply(error, METHOD_NOT_ALLOWED, normalized, facts))
        else Stop(Answered(error, METHOD_NOT_ALLOWED, map["allow" := [allow]], normalized, facts.traceId))
      case NotFound =>
        var error := NewAppError(NOT_FOUND, "not found");
        if opts.responder.Some? then Stop(Reply(error, NOT_FOUND, normalized, facts))
        else Stop(Answered(error, NOT_FOUND, map[], normalized, facts.traceId))
  }

  ghost function GateOf(
    config: Config, routes: seq<Route<ContextHandler>>, req: Rq.Request, tier: Tier, opts: ServeOptions): Gate
    requires ValidTable(routes)
  {
    var h := Canonical(req.headers);
    var facts := FactsOf(config, req, opts);
    if RequestIdFor(config, h, opts).None? then Stop(Crashed)
    else if IsPreflight(req.httpMethod, h) then Stop(Preflighted(FirstHeader(h, "access-control-request-method")))
    else
      var (normalized, error) := Rq.Normalized(req, config.maxRequestBytes, config.traceOf);
      if error.Some? then
        var code := CodeForError(error.value);
        Stop(Reply(error.value, code, if code == TOO_LARGE then normalized else req, facts))
      else GateAfterNormalize(config, routes, normalized, facts, tier, opts)
  }

  // ----- the handler and after -----

  ghost function EndingOfOutput(config: Config, outcome: Handling, normalized: Rq.Request, facts: Facts): Ending {
    match outcome
    case Panicked => Crashed
    case Failed(e) => Reply(e, CodeForError(e), normalized, facts)
    case Returned(None) => Reply(InternalError(), INTERNAL, normalized, facts)
    case Returned(Some(out)) =>
      var r := Rs.Normalized(out);
      if config.maxResponseBytes > 0 && |r.body| > config.maxResponseBytes then
        Reply(NewAppError(TOO_LARGE, "response too large"), TOO_LARGE, normalized, facts)
      else Succeeded(Rs.LimitStreamed(r, config.maxResponseBytes, config.newLimiter))
  }

  ghost function EndingOfGate(
    config: Config, middlewares: seq<Wrapper<Context, Handling>>, gate: Gate, normalized: Rq.Request, facts: Facts): Ending
  {
    match gate
    case Stop(ending) => ending
    case Run(route, ctx) => EndingOfOutput(config, Wrap(middlewares, route.handler)(ctx), normalized, facts)
  }

  ghost function EndingOf(
    config: Config, routes: seq<Route<ContextHandler>>, middlewares: seq<Wrapper<Context, Handling>>,
    req: Rq.Request, tier: Tier, opts: ServeOptions): Ending
    requires ValidTable(routes)
  {
    EndingOfGate(config, middlewares, GateOf(config, routes, req, tier, opts),
                 Rq.Normalized(req, config.maxRequestBytes, config.traceOf).0, FactsOf(config, req, opts))
  }

  /** The contexts with which the wrapped handler is entered: one, or none. */
  function Entries(gate: Gate): seq<Context> {
    if gate.Run? then [gate.ctx] else []
  }

  /** The response of an answer: the custom responder's, which may panic, or the error response. */
  ghost function AnswerResponse(
    config: Config, opts: ServeOptions, error: ErrorValue, headers: HeaderMap, request: Rq.Request, requestId: string, traceId: string)
    : Option<Rs.Response>
  {
    if opts.responder.Some? then opts.responder.value(error, request, requestId)
    else Some(ResponseForError(config.format, config.encode, error, headers, requestId, traceId))
  }

  function PreflightResponse(requested: string): Rs.Response {
    Rs.Response(204, map["access-control-allow-methods" := [requested]], [], [], None, None, false)
  }

  ghost function CoreResponse(config: Config, opts: ServeOptions, requestId: string, ending: Ending): Option<Rs.Response> {
    match ending
    case Preflighted(requested) => Some(PreflightResponse(requested))
    case Succeeded(output) => Some(output)
    case Answered(error, _, headers, request, traceId) => AnswerResponse(config, opts, error, headers, request, requestId, traceId)
    case Crashed => None
  }

  /** The ending after panic recovery: whatever panicked is answered as an internal error. */
  ghost function RecoveredEnding(config: Config, opts: ServeOptions, facts: Facts, req: Rq.Request, ending: Ending): Ending {
    if CoreResponse(config, opts, facts.requestId, ending).None? then Reply(InternalError(), INTERNAL, req, facts) else ending
  }

  /** The finished response, or nothing if the custom responder panics while answering a panic. */
  ghost function ServedResponse(config: Config, opts: ServeOptions, facts: Facts, req: Rq.Request, ending: Ending): Option<Rs.Response> {
    match CoreResponse(config, opts, facts.requestId, RecoveredEnding(config, opts, facts, req, ending))
    case None => None
    case Some(r) => Some(Rs.Finalized(r, facts.requestId, facts.origin, config.cors))
  }

  function RecordedCode(ending: Ending): string {
    if ending.Answered? then ending.code else ""
  }

  /** One completed request as the observability hooks see it. */
  datatype Observation = Observation(
    httpMethod: string, path: string, requestId: string, traceId: string, tenantId: string, status: int, errorCode: string)

  function ObservationOf(facts: Facts, status: int, errorCode: string): Observation {
    Observation(facts.httpMethod, facts.path, facts.requestId, facts.traceId, facts.tenantId, status, errorCode)
  }
}
