/** The portable pipeline step by step: preflight, normalize, size, route, policy, authorize,
    handler, limit and finalize, with panic recovery and observation (`runtime/serve.go`).
    A step that panics yields no response; `ServePortable` recovers. */
module Serve {
  import opened Text
  import opened Headers
  import opened Errors
  import opened Auth
  import opened RoutePatterns
  import opened RouteTable
  import opened Middleware
  import opened ServeSpec
  import Rs = Responses
  import Rq = Requests

  /** `portableServeState`. */
  class PortableState {
    var httpMethod: string
    var path: string
    var requestId: string
    var traceId: string
    var origin: string
    var tenantId: string
    var errorCode: string

    constructor ()
      ensures Facts() == ServeSpec.Facts("", "", "", "", "", "") && errorCode == ""
    {
      httpMethod, path, requestId, traceId, origin, tenantId, errorCode := "", "", "", "", "", "", "";
    }

    function Facts(): ServeSpec.Facts
      reads this
    {
      ServeSpec.Facts(httpMethod, path, requestId, traceId, origin, tenantId)
    }
  }

  class Server {
    const config: Config
    const router: Router<ContextHandler>
    const app: App<Context, Handling>
    /** Contexts with which the wrapped route handler was entered, in order. */
    var entered: seq<Context>
    /** Completed requests reported to the observability hooks, in order. */
    var observations: seq<Observation>

    constructor (config: Config, router: Router<ContextHandler>, app: App<Context, Handling>)
      ensures this.config == config && this.router == router && this.app == app
      ensures entered == [] && observations == []
    {
      this.config, this.router, this.app := config, router, app;
      entered, observations := [], [];
    }

    /** `respondToServeError`. */
    method RespondToServeError(opts: ServeOptions, err: ErrorValue, req: Rq.Request, requestId: string, traceId: string)
      returns (r: Option<Rs.Response>)
      ensures r == AnswerResponse(config, opts, err, map[], req, requestId, ReplyTrace(req, requestId, traceId))
    {
      hide Trim, ResponseForError;
      if opts.responder.Some? {
        return opts.responder.value(err, req, requestId);
      }
      var trace := Trim(req.traceId);
      if Trim(traceId) != "" {
        trace := Trim(traceId);
      }
      var out := RespondError(config.format, config.encode, err, map[], requestId, if requestId != "" then trace else "");
      return Some(out);
    }

    /** An answer given directly by policy, authorization or routing. */
    method Respond(opts: ServeOptions, err: ErrorValue, headers: HeaderMap, req: Rq.Request, requestId: string, traceId: string)
      returns (r: Option<Rs.Response>)
      ensures r == AnswerResponse(config, opts, err, headers, req, requestId, traceId)
    {
      hide ResponseForError;
      if opts.responder.Some? {
        return opts.responder.value(err, req, requestId);
      }
      var out := RespondError(config.format, config.encode, err, headers, requestId, traceId);
      return Some(out);
    }

    /** `applyPolicy`: either the context to go on with, or an answer with its code. */
    method ApplyPolicy(tier: Tier, ctx0: Context, opts: ServeOptions) returns (verdict: PolicyVerdict)
      ensures verdict == PolicyOf(config, tier, ctx0, opts)
    {
      hide Trim, CodeForError, RATE_LIMITED, OVERLOADED, INTERNAL;
      if tier != P2 || config.policy.None? {
        return PolicyPasses(ctx0);
      }
      var result := config.policy.value(ctx0);
      var ctx := result.ctx;
      match result.outcome {
        case Panicked => return PolicyStops(Crashed);
        case Failed(e) =>
          if opts.responder.Some? {
            return PolicyStops(Answered(e, CodeForError(e), map[], ctx.request, ctx.traceId));
          }
          return PolicyStops(Answered(InternalError(), INTERNAL, map[], ctx.request, ctx.traceId));
        case Returned(decision) =>
          if decision.None? {
            return PolicyPasses(ctx);
          }
          var code := Trim(decision.value.code);
          if code == "" {
            return PolicyPasses(ctx);
          }
          var message := Trim(decision.value.message);
          if message == "" {
            message := DefaultPolicyMessage(code);
          }
          return PolicyStops(Answered(NewAppError(code, message), code, decision.value.headers, ctx.request, ctx.traceId));
      }
    }

    /** `authenticate`: a principal hook is asked first, and an identity hook only if there is none. */
    method Authenticate(ctx: Context) returns (result: HookResult<Option<Principal>>)
      ensures result == ServeSpec.Authenticate(config, ctx)
    {
      hide Recognized, Trim;
      if config.principalAuth.Some? {
        result := config.principalAuth.value(ctx);
        if result.outcome.Returned? {
          result := HookResult(Returned(Recognized(result.outcome.value)), result.ctx);
        }
        return;
      }
      if config.auth.None? {
        return HookResult(Returned(None), ctx);
      }
      var found := config.auth.value(ctx);
      match found.outcome {
        case Panicked => return HookResult(Panicked, found.ctx);
        case Failed(e) => return HookResult(Failed(e), found.ctx);
        case Returned(name) =>
          var identity := Trim(name);
          if identity == "" {
            return HookResult(Returned(None), found.ctx);
          }
          return HookResult(Returned(Some(Principal(identity, []))), found.ctx);
      }
    }

    /** `authorize`: either the context to go on with, or a denial with its code. */
    method Authorize(o: RouteOptions, ctx0: Context) returns (verdict: AuthVerdict)
      ensures verdict == AuthorizationOf(config, o, ctx0)
    {
      hide ServeSpec.Authenticate, HoldsAll, HoldsAny, CodeForError;
      if !o.optionalAuth && !RequiresAuth(o) {
        return AuthPasses(ctx0);
      }
      var result := Authenticate(ctx0.(trace := ctx0.trace + ["auth"]));
      var ctx := result.ctx;
      match result.outcome {
        case Panicked => return AuthStops(Crashed);
        case Failed(e) => return AuthStops(Answered(e, CodeForError(e), map[], ctx.request, ctx.traceId));
        case Returned(principal) =>
          if principal.None? {
            if !RequiresAuth(o) {
              return AuthPasses(ctx);
            }
            return Denied(UNAUTHORIZED, "unauthorized", ctx);
          }
          var p := principal.value;
          ctx := ctx.(authIdentity := p.identity);
          ctx := ctx.(principal := Some(p));
          if |o.requiredScopes| > 0 {
            var ok := HasAllScopes(p, o.requiredScopes);
            if !ok {
              return Denied(FORBIDDEN, "forbidden", ctx);
            }
          }
          if |o.requiredAnyScope| > 0 {
            var ok := HasAnyScope(p, o.requiredAnyScope);
            if !ok {
              return Denied(FORBIDDEN, "forbidden", ctx);
            }
          }
          return AuthPasses(ctx);
      }
    }

    /** The handler and what follows it. */
    method RunHandler(route: Route<ContextHandler>, ctx: Context, normalized: Rq.Request, state: PortableState, opts: ServeOptions)
      returns (r: Option<Rs.Response>)
      modifies state`errorCode, this`entered
      ensures var ending := EndingOfOutput(config, Wrap(app.middlewares, route.handler)(ctx), normalized, state.Facts());
              && r == CoreResponse(config, opts, state.requestId, ending)
              && (r.Some? ==> state.errorCode == if ending.Answered? then ending.code else old(state.errorCode))
      ensures entered == old(entered) + [ctx]
    {
      hide CodeForError, Rs.Normalized, Rs.LimitStreamed, AnswerResponse, INTERNAL, TOO_LARGE;
      var handler := app.ApplyMiddlewares(route.handler);
      entered := entered + [ctx];
      var outcome := handler(ctx);
      match outcome {
        case Panicked => return None;
        case Failed(e) =>
          state.errorCode := CodeForError(e);
          r := RespondToServeError(opts, e, normalized, state.requestId, state.traceId);
        case Returned(None) =>
          state.errorCode := INTERNAL;
          r := RespondToServeError(opts, InternalError(), normalized, state.requestId, state.traceId);
        case Returned(Some(output)) =>
          var resp := Rs.NormalizeResponse(output);
          if config.maxResponseBytes > 0 && |resp.body| > config.maxResponseBytes {
            state.errorCode := TOO_LARGE;
            r := RespondToServeError(opts, NewAppError(TOO_LARGE, "response too large"), normalized, state.requestId, state.traceId);
          } else {
            r := Some(Rs.LimitStreamed(resp, config.maxResponseBytes, config.newLimiter));
          }
      }
    }

    /** Policy, authorization and handler for a matched route. */
    method ServeMatched(
      route: Route<ContextHandler>, ctx: Context, normalized: Rq.Request, tier: Tier, state: PortableState, opts: ServeOptions)
      returns (r: Option<Rs.Response>)
      requires state.errorCode == ""
      modifies state`errorCode, this`entered
      ensures var gate := GateAfterMatch(config, route, ctx, tier, opts);
              var ending := EndingOfGate(config, app.middlewares, gate, normalized, state.Facts());
              && r == CoreResponse(config, opts, state.requestId, ending)
              && (r.Some? ==> state.errorCode == RecordedCode(ending))
              && entered == old(entered) + Entries(gate)
    {
      hide PolicyOf, AuthorizationOf, EndingOfOutput, AnswerResponse;
      var policy := ApplyPolicy(tier, ctx, opts);
      if policy.PolicyStops? {
        r := StopWith(policy.ending, state, opts);
        return;
      }
      var verdict := Authorize(route.options, policy.ctx);
      if verdict.AuthStops? {
        r := StopWith(verdict.ending, state, opts);
        return;
      }
      r := RunHandler(route, verdict.ctx.(trace := verdict.ctx.trace + ["handler"]), normalized, state, opts);
    }

    /** Leaves the pipeline with a denial or a panic of a hook. */
    method StopWith(ending: Ending, state: PortableState, opts: ServeOptions) returns (r: Option<Rs.Response>)
      requires (ending.Answered? || ending.Crashed?) && state.errorCode == ""
      modifies state`errorCode
      ensures r == CoreResponse(config, opts, state.requestId, ending)
      ensures state.errorCode == RecordedCode(ending)
    {
      if ending.Crashed? {
        return None;
      }
      r := Respond(opts, ending.error, ending.headers, ending.request, state.requestId, ending.traceId);
      state.errorCode := ending.code;
    }

    /** Everything after normalization. */
    method ServeNormalized(normalized: Rq.Request, tier: Tier, state: PortableState, opts: ServeOptions)
      returns (r: Option<Rs.Response>)
      requires router.Valid() && state.errorCode == ""
      modifies state`errorCode, this`entered
      ensures var gate := GateAfterNormalize(config, router.routes, normalized, state.Facts(), tier, opts);
              var ending := EndingOfGate(config, app.middlewares, gate, normalized, state.Facts());
              && r == CoreResponse(config, opts, state.requestId, ending)
              && (r.Some? ==> state.errorCode == RecordedCode(ending))
              && entered == old(entered) + Entries(gate)
    {
      hide GateAfterMatch, ResolutionOf, InitialContext, EndingOfOutput, AnswerResponse, ValidTable, TOO_LARGE, METHOD_NOT_ALLOWED, NOT_FOUND,
           TenantId;
      var requestCtx := Context(
        normalized, map[], state.requestId, normalized.traceId, TenantId(normalized.headers, normalized.query),
        "", None, config.remainingMs, PortableTrace(state.origin));
      assert requestCtx == InitialContext(config, normalized, state.Facts()) by { InitialContextIs(normalized, state); }
      if opts.configure.Some? {
        var configured := opts.configure.value(requestCtx);
        if configured.None? {
          return None;
        }
        requestCtx := configured.value;
      }
      if config.maxRequestBytes > 0 && |normalized.body| > config.maxRequestBytes {
        state.errorCode := TOO_LARGE;
        r := RespondToServeError(opts, NewAppError(TOO_LARGE, "request too large"), normalized, state.requestId, state.traceId);
        return;
      }
      var found := router.Resolve(normalized.httpMethod, normalized.path);
      match found {
        case MethodNotAllowed(allow) =>
          state.errorCode := METHOD_NOT_ALLOWED;
          var error := NewAppError(METHOD_NOT_ALLOWED, "method not allowed");
          if opts.responder.Some? {
            r := RespondToServeError(opts, error, normalized, state.requestId, state.traceId);
          } else {
            r := Respond(opts, error, map["allow" := [allow]], normalized, state.requestId, state.traceId);
          }
        case NotFound =>
          state.errorCode := NOT_FOUND;
          var error := NewAppError(NOT_FOUND, "not found");
          if opts.responder.Some? {
            r := RespondToServeError(opts, error, normalized, state.requestId, state.traceId);
          } else {
            r := Respond(opts, error, map[], normalized, state.requestId, state.traceId);
          }
        case Matched(route, params) =>
          r := ServeMatched(route, requestCtx.(params := params), normalized, tier, state, opts);
      }
    }

    lemma InitialContextIs(normalized: Rq.Request, state: PortableState)
      ensures InitialContext(config, normalized, state.Facts()) ==
              Context(normalized, map[], state.requestId, normalized.traceId, TenantId(normalized.headers, normalized.query),
                      "", None, config.remainingMs, PortableTrace(state.origin))
    {
    }

    /** How a request can end, by the first thing that decides. */
    lemma EndingCases(req: Rq.Request, tier: Tier, opts: ServeOptions)
      requires router.Valid()
      ensures var h := Canonical(req.headers);
              var facts := FactsOf(config, req, opts);
              var gate := GateOf(config, router.routes, req, tier, opts);
              var ending := EndingOf(config, router.routes, app.middlewares, req, tier, opts);
              var (normalized, error) := Rq.Normalized(req, config.maxRequestBytes, config.traceOf);
              if RequestIdFor(config, h, opts).None? then gate.Stop? && ending == Crashed
              else if IsPreflight(req.httpMethod, h) then
                gate.Stop? && ending == Preflighted(FirstHeader(h, "access-control-request-method"))
              else if error.Some? then
                var code := CodeForError(error.value);
                gate.Stop? && ending == Reply(error.value, code, if code == TOO_LARGE then normalized else req, facts)
              else
                && gate == GateAfterNormalize(config, router.routes, normalized, facts, tier, opts)
                && ending == EndingOfGate(config, app.middlewares, gate, normalized, facts)
    {
      hide Canonical, RequestIdFor, IsPreflight, FirstHeader, CodeForError, GateAfterNormalize, EndingOfOutput, ValidTable, TOO_LARGE,
           Rq.Normalized, ReplyTrace, FactsOf;
    }

    lemma FactsCases(req: Rq.Request, opts: ServeOptions)
      ensures var h := Canonical(req.headers); var id := RequestIdFor(config, h, opts);
              FactsOf(config, req, opts) ==
              if id.None? then ServeSpec.Facts(CanonicalMethod(req.httpMethod), NormalizePath(req.path), "", "", "", "")
              else ServeSpec.Facts(CanonicalMethod(req.httpMethod), NormalizePath(req.path), id.value, config.traceOf(h),
                                   FirstHeader(h, "origin"), TenantId(h, req.query))
    {
      hide Canonical, RequestIdFor, FirstHeader, TenantId, CanonicalMethod, NormalizePath;
    }

    /** `servePortableCore`; no response means that something panicked. */
    method ServePortableCore(req: Rq.Request, tier: Tier, state: PortableState, opts: ServeOptions)
      returns (r: Option<Rs.Response>)
      requires router.Valid()
      requires state.Facts() == ServeSpec.Facts("", "", "", "", "", "") && state.errorCode == ""
      modifies state, this`entered
      ensures state.Facts() == FactsOf(config, req, opts)
      ensures var ending := EndingOf(config, router.routes, app.middlewares, req, tier, opts);
              && r == CoreResponse(config, opts, state.requestId, ending)
              && (r.Some? ==> state.errorCode == RecordedCode(ending))
      ensures entered == old(entered) + Entries(GateOf(config, router.routes, req, tier, opts))
    {
      hide Canonical, CanonicalMethod, NormalizePath, RequestIdFor, TenantId, IsPreflight, CodeForError, GateAfterNormalize, EndingOfOutput,
           AnswerResponse, ValidTable, Rq.WithCanonicalParts, TOO_LARGE, BAD_REQUEST, Rq.EMPTY, ReplyTrace, PreflightResponse,
           FirstHeader, Rq.Normalized, GateOf, EndingOf, FactsOf;
      EndingCases(req, tier, opts);
      FactsCases(req, opts);
      var headers := CanonicalizeHeaders(req.headers);
      state.httpMethod := CanonicalMethod(req.httpMethod);
      state.path := NormalizePath(req.path);
      var requestId := RequestIdFor(config, headers, opts);
      if requestId.None? {
        return None;
      }
      state.requestId := requestId.value;
      state.traceId := config.traceOf(headers);
      state.origin := FirstHeader(headers, "origin");
      state.tenantId := TenantId(headers, req.query);
      if IsPreflight(req.httpMethod, headers) {
        return Some(PreflightResponse(FirstHeader(headers, "access-control-request-method")));
      }
      var normalized, error := Rq.NormalizeRequest(req, config.maxRequestBytes, config.traceOf);
      if error.Some? {
        state.errorCode := CodeForError(error.value);
        r := RespondToServeError(opts, error.value, if state.errorCode == TOO_LARGE then normalized else req, state.requestId, state.traceId);
        return;
      }
      Rq.NormalizedParts(req, config.maxRequestBytes, config.traceOf);
      state.httpMethod := normalized.httpMethod;
      state.path := normalized.path;
      state.traceId := normalized.traceId;
      state.tenantId := TenantId(normalized.headers, normalized.query);
      r := ServeNormalized(normalized, tier, state, opts);
    }

    /** `servePortable`: the core with panic recovery, finalization and, on tier P2, one observation.
        No response means that the custom error responder panicked while answering a panic. */
    method ServePortable(req: Rq.Request, tier: Tier, opts: ServeOptions) returns (response: Option<Rs.Response>)
      requires router.Valid()
      modifies this`entered, this`observations
      ensures var facts := FactsOf(config, req, opts);
              var ending := EndingOf(config, router.routes, app.middlewares, req, tier, opts);
              && response == ServedResponse(config, opts, facts, req, ending)
              && observations == old(observations) +
                   if tier == P2 && response.Some? then
                     [ObservationOf(facts, response.value.status, RecordedCode(RecoveredEnding(config, opts, facts, req, ending)))]
                   else []
      ensures entered == old(entered) + Entries(GateOf(config, router.routes, req, tier, opts))
    {
      hide EndingOf, GateOf, FactsOf, AnswerResponse, Rs.Finalized, ValidTable, INTERNAL;
      var state := new PortableState();
      var resp := ServePortableCore(req, tier, state, opts);
      if resp.None? {
        state.errorCode := INTERNAL;
        resp := RespondToServeError(opts, InternalError(), req, state.requestId, state.traceId);
        if resp.None? {
          return None;
        }
      }
      var final := Rs.FinalizeResponse(resp.value, state.requestId, state.origin, config.cors);
      if tier == P2 {
        observations := observations + [Observation(state.httpMethod, state.path, state.requestId, state.traceId, state.tenantId, final.status, state.errorCode)];
      }
      return Some(final);
    }
  }
}
