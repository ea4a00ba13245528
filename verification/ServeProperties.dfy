/** What holds of every request the portable pipeline serves (`runtime/serve.go`). */
module ServeProperties {
  import opened Text
  import opened Headers
  import opened Errors
  import opened Auth
  import opened RouteLanguages
  import opened RouteTable
  import opened Middleware
  import opened ServeSpec
  import Rs = Responses
  import Rq = Requests
  import Limits = ResponseLimits
  import Runs = LimiterRuns
  import Base64

  // ----- when the handler runs -----

  /** The policy lets the request through exactly when it is not asked (tier P1, or no hook), has
      nothing to say, or decides with a blank code. */
  lemma PolicyExact(config: Config, tier: Tier, ctx: Context, opts: ServeOptions)
    ensures PolicyOf(config, tier, ctx, opts).PolicyPasses? <==>
            || tier == P1 || config.policy.None?
            || (var o := config.policy.value(ctx).outcome;
                o.Returned? && (o.value.None? || Trim(o.value.value.code) == ""))
  {
    hide Trim;
  }

  /** Authorization passes exactly when the route asks for no principal, or the auth hook neither
      fails nor panics and finds either nobody on a route that does not need anybody, or somebody
      who holds every required scope and at least one of the any-of scopes. */
  lemma AuthorizationExact(config: Config, o: RouteOptions, ctx: Context)
    ensures AuthorizationOf(config, o, ctx).AuthPasses? <==>
            || (!o.optionalAuth && !RequiresAuth(o))
            || (var found := Authenticate(config, ctx.(trace := ctx.trace + ["auth"])).outcome;
                && found.Returned?
                && (found.value.None? ==> !RequiresAuth(o))
                && (found.value.Some? ==>
                      HoldsAll(found.value.value, o.requiredScopes) && HoldsAny(found.value.value, o.requiredAnyScope)))
  {
    hide Authenticate, UNAUTHORIZED, FORBIDDEN, CodeForError;
  }

  /** A recognized principal is never blank. */
  lemma AuthenticatedIdentity(config: Config, ctx: Context)
    ensures var found := Authenticate(config, ctx).outcome;
            found.Returned? && found.value.Some? ==> found.value.value.identity != ""
  {
    hide Trim, NormalizedScopes;
  }

  ghost predicate Authorized(o: RouteOptions, ctx: Context) {
    RequiresAuth(o) ==>
      && ctx.principal.Some? && ctx.principal.value.identity != "" && ctx.authIdentity == ctx.principal.value.identity
      && HoldsAll(ctx.principal.value, o.requiredScopes) && HoldsAny(ctx.principal.value, o.requiredAnyScope)
  }

  lemma PassedIsAuthorized(config: Config, o: RouteOptions, ctx: Context)
    requires AuthorizationOf(config, o, ctx).AuthPasses?
    ensures Authorized(o, AuthorizationOf(config, o, ctx).ctx)
  {
    AuthenticatedIdentity(config, ctx.(trace := ctx.trace + ["auth"]));
    hide Authenticate, UNAUTHORIZED, FORBIDDEN, CodeForError;
  }

  /** The handler is entered only for a request that is not a preflight, normalizes, is within the
      maximum measured on decoded bytes, resolves to the best route of its method, and is authorized
      for that route. */
  lemma HandlerGuarded(
    config: Config, routes: seq<Route<ContextHandler>>, req: Rq.Request, tier: Tier, opts: ServeOptions)
    requires ValidTable(routes)
    ensures var gate := GateOf(config, routes, req, tier, opts);
            var (n, error) := Rq.Normalized(req, config.maxRequestBytes, config.traceOf);
            gate.Run? ==>
              && !IsPreflight(req.httpMethod, Canonical(req.headers))
              && error.None?
              && (config.maxRequestBytes > 0 ==> |n.body| <= config.maxRequestBytes)
              && (req.isBase64 ==> Base64.Decode(Base64.Clean(req.body)) == Some(n.body))
              && (exists k :: Best(routes, CanonicalMethod(n.httpMethod), n.path, k) && gate.route == routes[k])
              && Authorized(gate.route.options, gate.ctx)
  {
    DecodedBody(config, req);
    hide Canonical, IsPreflight, RequestIdFor, GateAfterNormalize, FactsOf, CodeForError, ValidTable, CanonicalMethod,
         Authorized, Base64.Decode, Base64.Clean, Rq.Normalized, TOO_LARGE, Best, Reply;
    if GateOf(config, routes, req, tier, opts).Run? {
      var (n, error) := Rq.Normalized(req, config.maxRequestBytes, config.traceOf);
      NormalizedGuarded(config, routes, n, FactsOf(config, req, opts), tier, opts);
    }
  }

  lemma DecodedBody(config: Config, req: Rq.Request)
    ensures var (n, error) := Rq.Normalized(req, config.maxRequestBytes, config.traceOf);
            req.isBase64 && error.None? ==> Base64.Decode(Base64.Clean(req.body)) == Some(n.body)
  {
    hide Base64.Decode, Base64.Clean, Rq.WithCanonicalParts, TOO_LARGE, BAD_REQUEST, Rq.EMPTY;
  }

  lemma NormalizedGuarded(
    config: Config, routes: seq<Route<ContextHandler>>, n: Rq.Request, facts: Facts, tier: Tier, opts: ServeOptions)
    requires ValidTable(routes)
    requires GateAfterNormalize(config, routes, n, facts, tier, opts).Run?
    ensures var gate := GateAfterNormalize(config, routes, n, facts, tier, opts);
            && (config.maxRequestBytes > 0 ==> |n.body| <= config.maxRequestBytes)
            && (exists k :: Best(routes, CanonicalMethod(n.httpMethod), n.path, k) && gate.route == routes[k])
            && Authorized(gate.route.options, gate.ctx)
  {
    hide ResolutionOf, GateAfterMatch, ValidTable, CanonicalMethod, Best, InitialContext, Authorized, Captures;
    ResolutionResolves(routes, n.httpMethod, n.path);
    var ctx0 := InitialContext(config, n, facts);
    var configured := if opts.configure.None? then Some(ctx0) else opts.configure.value(ctx0);
    var found := ResolutionOf(routes, n.httpMethod, n.path);
    MatchedGuarded(config, found.route, configured.value.(params := found.params), tier, opts);
  }

  lemma MatchedGuarded(config: Config, route: Route<ContextHandler>, ctx: Context, tier: Tier, opts: ServeOptions)
    requires GateAfterMatch(config, route, ctx, tier, opts).Run?
    ensures var gate := GateAfterMatch(config, route, ctx, tier, opts);
            gate.route == route && Authorized(route.options, gate.ctx)
            && PolicyOf(config, tier, ctx, opts).PolicyPasses?
  {
    hide PolicyOf, AuthorizationOf, HoldsAll, HoldsAny;
    PassedIsAuthorized(config, route.options, PolicyOf(config, tier, ctx, opts).ctx);
  }

  /** The context that policy and authorization see for a request that reaches them. */
  ghost function MatchedContext(
    config: Config, routes: seq<Route<ContextHandler>>, n: Rq.Request, facts: Facts, opts: ServeOptions): Option<Context>
    requires ValidTable(routes)
  {
    var ctx0 := InitialContext(config, n, facts);
    var configured := if opts.configure.None? then Some(ctx0) else opts.configure.value(ctx0);
    var found := ResolutionOf(routes, n.httpMethod, n.path);
    if configured.Some? && found.Matched? then Some(configured.value.(params := found.params)) else None
  }

  /** The handler is entered exactly when every gate lets the request through; whether policy and
      authorization do is settled by `PolicyExact` and `AuthorizationExact`. */
  lemma HandlerEnteredExactly(
    config: Config, routes: seq<Route<ContextHandler>>, req: Rq.Request, tier: Tier, opts: ServeOptions)
    requires ValidTable(routes)
    ensures var (n, error) := Rq.Normalized(req, config.maxRequestBytes, config.traceOf);
            var ctx := MatchedContext(config, routes, n, FactsOf(config, req, opts), opts);
            var found := ResolutionOf(routes, n.httpMethod, n.path);
            GateOf(config, routes, req, tier, opts).Run? <==>
              && RequestIdFor(config, Canonical(req.headers), opts).Some?
              && !IsPreflight(req.httpMethod, Canonical(req.headers))
              && error.None?
              && (config.maxRequestBytes > 0 ==> |n.body| <= config.maxRequestBytes)
              && (exists k :: Candidate(routes, CanonicalMethod(n.httpMethod), n.path, k))
              && ctx.Some?
              && (var policy := PolicyOf(config, tier, ctx.value, opts);
                  policy.PolicyPasses? && AuthorizationOf(config, found.route.options, policy.ctx).AuthPasses?)
  {
    hide Canonical, IsPreflight, RequestIdFor, FactsOf, CodeForError, ValidTable, CanonicalMethod, Candidate,
         Rq.Normalized, TOO_LARGE, ResolutionOf, PolicyOf, AuthorizationOf, InitialContext, GateAfterNormalize, MatchedContext;
    var (n, error) := Rq.Normalized(req, config.maxRequestBytes, config.traceOf);
    ResolutionKinds(routes, n.httpMethod, n.path);
    NormalizedEnteredExactly(config, routes, n, FactsOf(config, req, opts), tier, opts);
  }

  lemma NormalizedEnteredExactly(
    config: Config, routes: seq<Route<ContextHandler>>, n: Rq.Request, facts: Facts, tier: Tier, opts: ServeOptions)
    requires ValidTable(routes)
    ensures var ctx := MatchedContext(config, routes, n, facts, opts);
            var found := ResolutionOf(routes, n.httpMethod, n.path);
            && (ctx.Some? ==> found.Matched?)
            && (GateAfterNormalize(config, routes, n, facts, tier, opts).Run? <==>
                  && (config.maxRequestBytes > 0 ==> |n.body| <= config.maxRequestBytes)
                  && ctx.Some?
                  && (var policy := PolicyOf(config, tier, ctx.value, opts);
                      policy.PolicyPasses? && AuthorizationOf(config, found.route.options, policy.ctx).AuthPasses?))
  {
    hide ValidTable, CanonicalMethod, Candidate, TOO_LARGE, METHOD_NOT_ALLOWED, NOT_FOUND, ResolutionOf, PolicyOf, AuthorizationOf,
         InitialContext, Reply;
  }

  /** A base64 body never reaches the second size check over the maximum. */
  lemma Base64PassesSizeCheck(config: Config, req: Rq.Request)
    requires req.isBase64 && config.maxRequestBytes > 0
    requires Rq.Normalized(req, config.maxRequestBytes, config.traceOf).1.None?
    ensures |Rq.Normalized(req, config.maxRequestBytes, config.traceOf).0.body| <= config.maxRequestBytes
  {
    Rq.DecodedBodyWithinLimit(req, config.maxRequestBytes, config.traceOf);
  }

  // ----- when an answer is given -----

  predicate ConfigurePanics(opts: ServeOptions, ctx: Context) {
    opts.configure.Some? && opts.configure.value(ctx).None?
  }

  predicate PolicyPanics(config: Config, tier: Tier, ctx: Context) {
    tier == P2 && config.policy.Some? && config.policy.value(ctx).outcome.Panicked?
  }

  /** The auth hook that is asked, if the route wants a principal at all, panics. */
  predicate AuthPanics(config: Config, o: RouteOptions, ctx: Context) {
    var asked := ctx.(trace := ctx.trace + ["auth"]);
    && (o.optionalAuth || RequiresAuth(o))
    && if config.principalAuth.Some? then config.principalAuth.value(asked).outcome.Panicked?
       else config.auth.Some? && config.auth.value(asked).outcome.Panicked?
  }

  /** Policy, auth hook or handler panics for a matched route. */
  ghost predicate MatchedPanics(
    config: Config, middlewares: seq<Wrapper<Context, Handling>>, route: Route<ContextHandler>, ctx: Context, tier: Tier, opts: ServeOptions)
  {
    || PolicyPanics(config, tier, ctx)
    || (var policy := PolicyOf(config, tier, ctx, opts);
        && policy.PolicyPasses?
        && (|| AuthPanics(config, route.options, policy.ctx)
            || (var allowed := AuthorizationOf(config, route.options, policy.ctx);
                && allowed.AuthPasses?
                && Wrap(middlewares, route.handler)(allowed.ctx.(trace := allowed.ctx.trace + ["handler"])).Panicked?)))
  }

  /** Something that a request gets as far as asking panics: the id generator, the configure hook, the
      policy, an auth hook or the wrapped handler. */
  ghost predicate SomethingPanics(
    config: Config, routes: seq<Route<ContextHandler>>, middlewares: seq<Wrapper<Context, Handling>>,
    req: Rq.Request, tier: Tier, opts: ServeOptions)
    requires ValidTable(routes)
  {
    var (n, error) := Rq.Normalized(req, config.maxRequestBytes, config.traceOf);
    || RequestIdFor(config, Canonical(req.headers), opts).None?
    || (&& !IsPreflight(req.httpMethod, Canonical(req.headers)) && error.None?
        && NormalizedPanics(config, routes, middlewares, n, FactsOf(config, req, opts), tier, opts))
  }

  ghost predicate NormalizedPanics(
    config: Config, routes: seq<Route<ContextHandler>>, middlewares: seq<Wrapper<Context, Handling>>,
    n: Rq.Request, facts: Facts, tier: Tier, opts: ServeOptions)
    requires ValidTable(routes)
  {
    var ctx := MatchedContext(config, routes, n, facts, opts);
    || ConfigurePanics(opts, InitialContext(config, n, facts))
    || (&& (config.maxRequestBytes > 0 ==> |n.body| <= config.maxRequestBytes)
        && ctx.Some?
        && (var found := ResolutionOf(routes, n.httpMethod, n.path);
            found.Matched? && MatchedPanics(config, middlewares, found.route, ctx.value, tier, opts)))
  }

  lemma AuthCrashes(config: Config, o: RouteOptions, ctx: Context)
    ensures AuthorizationOf(config, o, ctx) == AuthStops(Crashed) <==> AuthPanics(config, o, ctx)
  {
    hide UNAUTHORIZED, FORBIDDEN, CodeForError, Recognized, Trim, HoldsAll, HoldsAny;
  }

  lemma PolicyCrashes(config: Config, tier: Tier, ctx: Context, opts: ServeOptions)
    ensures PolicyOf(config, tier, ctx, opts) == PolicyStops(Crashed) <==> PolicyPanics(config, tier, ctx)
  {
    hide Trim, DefaultPolicyMessage, CodeForError, INTERNAL;
  }

  lemma OutputCrashes(config: Config, outcome: Handling, n: Rq.Request, facts: Facts)
    ensures EndingOfOutput(config, outcome, n, facts).Crashed? <==> outcome.Panicked?
  {
    hide Rs.Normalized, Rs.LimitStreamed, CodeForError, ReplyTrace, TOO_LARGE, INTERNAL;
  }

  lemma MatchedCrashes(
    config: Config, middlewares: seq<Wrapper<Context, Handling>>, route: Route<ContextHandler>, ctx: Context,
    n: Rq.Request, facts: Facts, tier: Tier, opts: ServeOptions)
    ensures EndingOfGate(config, middlewares, GateAfterMatch(config, route, ctx, tier, opts), n, facts).Crashed? <==>
            MatchedPanics(config, middlewares, route, ctx, tier, opts)
  {
    hide PolicyOf, AuthorizationOf, PolicyPanics, AuthPanics, EndingOfOutput, Wrap;
    PolicyCrashes(config, tier, ctx, opts);
    var policy := PolicyOf(config, tier, ctx, opts);
    if policy.PolicyPasses? {
      AuthCrashes(config, route.options, policy.ctx);
      var allowed := AuthorizationOf(config, route.options, policy.ctx);
      if allowed.AuthPasses? {
        OutputCrashes(config, Wrap(middlewares, route.handler)(allowed.ctx.(trace := allowed.ctx.trace + ["handler"])), n, facts);
      }
    }
  }

  lemma NormalizedCrashes(
    config: Config, routes: seq<Route<ContextHandler>>, middlewares: seq<Wrapper<Context, Handling>>,
    n: Rq.Request, facts: Facts, tier: Tier, opts: ServeOptions)
    requires ValidTable(routes)
    ensures EndingOfGate(config, middlewares, GateAfterNormalize(config, routes, n, facts, tier, opts), n, facts).Crashed? <==>
            NormalizedPanics(config, routes, middlewares, n, facts, tier, opts)
  {
    hide ValidTable, ResolutionOf, GateAfterMatch, MatchedPanics, InitialContext, ReplyTrace, EndingOfOutput,
         TOO_LARGE, METHOD_NOT_ALLOWED, NOT_FOUND;
    var ctx := MatchedContext(config, routes, n, facts, opts);
    var found := ResolutionOf(routes, n.httpMethod, n.path);
    if ctx.Some? && found.Matched? {
      MatchedCrashes(config, middlewares, found.route, ctx.value, n, facts, tier, opts);
    }
  }

  /** The pipeline ends in a panic exactly when something that is asked panics. */
  lemma CrashesExactly(
    config: Config, routes: seq<Route<ContextHandler>>, middlewares: seq<Wrapper<Context, Handling>>,
    req: Rq.Request, tier: Tier, opts: ServeOptions)
    requires ValidTable(routes)
    ensures EndingOf(config, routes, middlewares, req, tier, opts).Crashed? <==>
            SomethingPanics(config, routes, middlewares, req, tier, opts)
  {
    hide Canonical, IsPreflight, RequestIdFor, GateAfterNormalize, NormalizedPanics, FactsOf, CodeForError, ValidTable,
         Rq.Normalized, ReplyTrace, EndingOfOutput, TOO_LARGE;
    var n := Rq.Normalized(req, config.maxRequestBytes, config.traceOf).0;
    NormalizedCrashes(config, routes, middlewares, n, FactsOf(config, req, opts), tier, opts);
  }

  /** The response to a request, if one is given. */
  ghost function Served(
    config: Config, routes: seq<Route<ContextHandler>>, middlewares: seq<Wrapper<Context, Handling>>,
    req: Rq.Request, tier: Tier, opts: ServeOptions): Option<Rs.Response>
    requires ValidTable(routes)
  {
    ServedResponse(config, opts, FactsOf(config, req, opts), req, EndingOf(config, routes, middlewares, req, tier, opts))
  }

  /** The custom responder panics on this error. */
  predicate ResponderPanics(opts: ServeOptions, error: ErrorValue, request: Rq.Request, requestId: string) {
    opts.responder.Some? && opts.responder.value(error, request, requestId).None?
  }

  ghost predicate FirstAnswerPanics(opts: ServeOptions, ending: Ending, requestId: string) {
    ending.Answered? && ResponderPanics(opts, ending.error, ending.request, requestId)
  }

  lemma ServedOrNot(config: Config, opts: ServeOptions, facts: Facts, req: Rq.Request, ending: Ending)
    ensures ServedResponse(config, opts, facts, req, ending).None? <==>
              && ResponderPanics(opts, InternalError(), req, facts.requestId)
              && (ending.Crashed? || FirstAnswerPanics(opts, ending, facts.requestId))
  {
    hide ResponseForError, Rs.Finalized, ReplyTrace, INTERNAL;
  }

  /** No response is given exactly when a custom responder panics on an internal error that it is asked
      to render because something else panicked, or because it panicked itself on the first answer. */
  lemma AlwaysServed(
    config: Config, routes: seq<Route<ContextHandler>>, middlewares: seq<Wrapper<Context, Handling>>,
    req: Rq.Request, tier: Tier, opts: ServeOptions)
    requires ValidTable(routes)
    ensures var id := FactsOf(config, req, opts).requestId;
            Served(config, routes, middlewares, req, tier, opts).None? <==>
              && ResponderPanics(opts, InternalError(), req, id)
              && (|| SomethingPanics(config, routes, middlewares, req, tier, opts)
                  || FirstAnswerPanics(opts, EndingOf(config, routes, middlewares, req, tier, opts), id))
  {
    hide EndingOf, FactsOf, SomethingPanics, ValidTable, ServedResponse, ResponderPanics, FirstAnswerPanics;
    CrashesExactly(config, routes, middlewares, req, tier, opts);
    ServedOrNot(config, opts, FactsOf(config, req, opts), req, EndingOf(config, routes, middlewares, req, tier, opts));
  }

  /** A responder that always panics. */
  function Unresponsive(): ServeOptions {
    ServeOptions(None, Some((error: ErrorValue, request: Rq.Request, requestId: string) => None), "")
  }

  /** With it, and an id generator that panics, an empty request gets no response at all. */
  lemma NothingServed(
    config: Config, routes: seq<Route<ContextHandler>>, middlewares: seq<Wrapper<Context, Handling>>, tier: Tier)
    requires ValidTable(routes) && config.newId.None?
    ensures Served(config, routes, middlewares, Rq.EMPTY, tier, Unresponsive()).None?
  {
    var opts := Unresponsive();
    NoIdCrashes(config, routes, middlewares, tier, opts);
    hide EndingOf, FactsOf, Served, ValidTable, SomethingPanics;
    AlwaysServed(config, routes, middlewares, Rq.EMPTY, tier, opts);
  }

  lemma BlankStaysBlank()
    ensures Trim("") == ""
  {
  }

  /** Without a custom responder every panic, in the id generator, a hook or the handler, is answered
      with status 500 and recorded as an internal error. */
  lemma PanicsAreInternalErrors(config: Config, opts: ServeOptions, facts: Facts, req: Rq.Request, ending: Ending)
    requires opts.responder.None? && ending.Crashed?
    ensures ServedResponse(config, opts, facts, req, ending).Some?
    ensures ServedResponse(config, opts, facts, req, ending).value.status == 500
    ensures RecordedCode(RecoveredEnding(config, opts, facts, req, ending)) == INTERNAL
  {
    hide Canonical, Rs.Finalized, CONTENT_TYPE, CodeEnvelope;
    FinalizedStatus(config, opts, facts, req, ending);
    assert StatusForCode(CanonicalCode(INTERNAL)) == 500;
  }

  lemma FinalizedStatus(config: Config, opts: ServeOptions, facts: Facts, req: Rq.Request, ending: Ending)
    ensures var core := CoreResponse(config, opts, facts.requestId, RecoveredEnding(config, opts, facts, req, ending));
            core.Some? ==>
              && ServedResponse(config, opts, facts, req, ending).value.status == core.value.status
              && ServedResponse(config, opts, facts, req, ending).value.body == core.value.body
              && ServedResponse(config, opts, facts, req, ending).value.cookies == core.value.cookies
  {
    hide AnswerResponse, Canonical, Rs.WithCors, Rs.WithRequestId;
  }

  /** The response before it is finalized, or after a panic the internal error's. */
  ghost function Unfinished(config: Config, opts: ServeOptions, facts: Facts, req: Rq.Request, ending: Ending): Option<Rs.Response> {
    CoreResponse(config, opts, facts.requestId, RecoveredEnding(config, opts, facts, req, ending))
  }

  /** The response's `x-request-id` is the request id alone, where one is known, and otherwise whatever
      the handler or responder has set.  So it agrees with the id that the observation reports exactly
      when an id is known or nobody else has set one. */
  lemma RequestIdEchoed(config: Config, opts: ServeOptions, facts: Facts, req: Rq.Request, ending: Ending, status: int, code: string)
    ensures var served, unfinished := ServedResponse(config, opts, facts, req, ending), Unfinished(config, opts, facts, req, ending);
            served.Some? ==>
              && unfinished.Some?
              && var shown, own := served.value.headers, Canonical(unfinished.value.headers);
                 && ValuesOf(shown, Rs.REQUEST_ID) == (if facts.requestId != "" then [facts.requestId] else ValuesOf(own, Rs.REQUEST_ID))
                 && (FirstHeader(shown, Rs.REQUEST_ID) == ObservationOf(facts, status, code).requestId <==>
                       facts.requestId != "" || FirstHeader(own, Rs.REQUEST_ID) == "")
  {
    hide CoreResponse, RecoveredEnding, Rs.Finalized, Rs.REQUEST_ID, Canonical;
    var core := Unfinished(config, opts, facts, req, ending);
    if core.Some? {
      Rs.FinalizedRequestId(core.value, facts.requestId, facts.origin, config.cors);
    }
  }

  /** A single canonical header stays as it is. */
  lemma OneHeader(name: string, values: seq<string>)
    requires name != "" && CanonicalName(name) == name
    ensures Canonical(map[name := values]) == map[name := values]
  {
    hide CanonicalName;
    CanonicalFixed(map[name := values]);
  }

  /** For example: without a request id, a handler's own `x-request-id: h` stands beside a blank observed id. */
  lemma ForeignRequestId(config: Config, opts: ServeOptions, facts: Facts, req: Rq.Request, out: Rs.Response)
    requires facts.requestId == "" && out.headers == map[Rs.REQUEST_ID := ["h"]]
    ensures ServedResponse(config, opts, facts, req, Succeeded(out)).Some?
    ensures FirstHeader(ServedResponse(config, opts, facts, req, Succeeded(out)).value.headers, Rs.REQUEST_ID) == "h"
  {
    hide Canonical, CanonicalName, Rs.Finalized, Rs.REQUEST_ID, Rs.VARY, Rs.ALLOW_ORIGIN, Rs.ALLOW_CREDENTIALS, Rs.ALLOW_HEADERS,
         INTERNAL, ReplyTrace, AnswerResponse;
    Rs.HeaderNames();
    OneHeader(Rs.REQUEST_ID, ["h"]);
    Rs.FinalizedRequestId(out, facts.requestId, facts.origin, config.cors);
  }

  /** A responder that sets an `x-request-id` of its own. */
  function OwnId(): ServeOptions {
    ServeOptions(None, Some((error: ErrorValue, request: Rq.Request, requestId: string) => Some(OwnIdResponse())), "")
  }

  /** The same for a whole request: with an id generator that panics, an empty request is answered with
      the responder's id and observed with none. */
  lemma ForeignIdServed(
    config: Config, routes: seq<Route<ContextHandler>>, middlewares: seq<Wrapper<Context, Handling>>, tier: Tier)
    requires ValidTable(routes) && config.newId.None?
    ensures var served := Served(config, routes, middlewares, Rq.EMPTY, tier, OwnId());
            served.Some? && FirstHeader(served.value.headers, Rs.REQUEST_ID) == "h"
    ensures FactsOf(config, Rq.EMPTY, OwnId()).requestId == ""
  {
    hide EndingOf, FactsOf, ValidTable, Rs.REQUEST_ID, ServedResponse, SomethingPanics;
    NoIdCrashes(config, routes, middlewares, tier, OwnId());
    var facts := FactsOf(config, Rq.EMPTY, OwnId());
    OwnIdAnswers(config, facts, Rq.EMPTY);
    ForeignRequestId(config, OwnId(), facts, Rq.EMPTY, OwnIdResponse());
  }

  function OwnIdResponse(): Rs.Response {
    Rs.Response(500, map[Rs.REQUEST_ID := ["h"]], [], [], None, None, false)
  }

  /** A panic answered by this responder is served like a handler's response with that id. */
  lemma OwnIdAnswers(config: Config, facts: Facts, req: Rq.Request)
    ensures ServedResponse(config, OwnId(), facts, req, Crashed) ==
            ServedResponse(config, OwnId(), facts, req, Succeeded(OwnIdResponse()))
  {
    hide OwnIdResponse, Rs.Finalized, ReplyTrace, INTERNAL, ResponseForError;
  }

  lemma NoIdCrashes(
    config: Config, routes: seq<Route<ContextHandler>>, middlewares: seq<Wrapper<Context, Handling>>, tier: Tier, opts: ServeOptions)
    requires ValidTable(routes) && config.newId.None? && opts.fallbackRequestId == ""
    ensures EndingOf(config, routes, middlewares, Rq.EMPTY, tier, opts) == Crashed
    ensures FactsOf(config, Rq.EMPTY, opts).requestId == ""
    ensures SomethingPanics(config, routes, middlewares, Rq.EMPTY, tier, opts)
  {
    CanonicalEmpty(map[]);
    BlankStaysBlank();
    assert RequestIdFor(config, Canonical(map[]), opts).None?;
    hide Canonical, RequestIdFor, EndingOf, ValidTable, CanonicalMethod, NormalizedPanics;
    CrashesExactly(config, routes, middlewares, Rq.EMPTY, tier, opts);
  }

  // ----- the recorded code and the status -----

  /** The code recorded for an answer is that of its error, up to the two legacy codes. */
  ghost predicate CodeOfError(ending: Ending) {
    ending.Answered? ==> CanonicalCode(ending.code) == CodeForError(ending.error)
  }

  lemma CanonicalCodeIdempotent(code: string)
    ensures CanonicalCode(CanonicalCode(code)) == CanonicalCode(code)
  {
    assert !IsLegacyCode(BAD_REQUEST);
  }

  lemma CodeForErrorCanonical(err: ErrorValue)
    ensures CanonicalCode(CodeForError(err)) == CodeForError(err)
  {
    assert !IsLegacyCode(INTERNAL);
    hide IsLegacyCode, Trim, INTERNAL;
    if err.portable.Some? { CanonicalCodeIdempotent(err.portable.value.code); }
    if err.app.Some? { CanonicalCodeIdempotent(err.app.value.code); }
    hide CanonicalCode;
  }

  lemma PolicyCode(config: Config, tier: Tier, ctx: Context, opts: ServeOptions)
    ensures PolicyOf(config, tier, ctx, opts).PolicyStops? ==> CodeOfError(PolicyOf(config, tier, ctx, opts).ending)
  {
    hide Trim, DefaultPolicyMessage, CanonicalCode, INTERNAL;
    CodeForErrorCanonical(InternalError());
    if tier == P2 && config.policy.Some? {
      var outcome := config.policy.value(ctx).outcome;
      if outcome.Failed? { CodeForErrorCanonical(outcome.error); }
    }
  }

  lemma AuthorizationCode(config: Config, o: RouteOptions, ctx: Context)
    ensures AuthorizationOf(config, o, ctx).AuthStops? ==> CodeOfError(AuthorizationOf(config, o, ctx).ending)
  {
    hide Authenticate, HoldsAll, HoldsAny, Trim, CanonicalCode, UNAUTHORIZED, FORBIDDEN;
    var outcome := Authenticate(config, ctx.(trace := ctx.trace + ["auth"])).outcome;
    if outcome.Failed? { CodeForErrorCanonical(outcome.error); }
  }

  lemma ReplyCode(err: ErrorValue, request: Rq.Request, facts: Facts)
    ensures CodeOfError(Reply(err, CodeForError(err), request, facts))
  {
    CodeForErrorCanonical(err);
    hide CodeForError, Trim;
  }

  lemma GateCode(config: Config, routes: seq<Route<ContextHandler>>, req: Rq.Request, tier: Tier, opts: ServeOptions)
    requires ValidTable(routes)
    ensures var gate := GateOf(config, routes, req, tier, opts); gate.Stop? ==> CodeOfError(gate.ending)
  {
    hide Canonical, IsPreflight, RequestIdFor, GateAfterNormalize, FactsOf, CodeForError, CodeOfError, ValidTable, Rq.Normalized, TOO_LARGE, Reply;
    var h, facts := Canonical(req.headers), FactsOf(config, req, opts);
    var (n, error) := Rq.Normalized(req, config.maxRequestBytes, config.traceOf);
    NormalizedCode(config, routes, n, facts, tier, opts);
    if error.Some? {
      ReplyCode(error.value, if CodeForError(error.value) == TOO_LARGE then n else req, facts);
    }
    PlainEndings(FirstHeader(h, "access-control-request-method"));
  }

  lemma PlainEndings(requested: string)
    ensures CodeOfError(Crashed) && CodeOfError(Preflighted(requested))
  {
  }

  lemma NormalizedCode(
    config: Config, routes: seq<Route<ContextHandler>>, n: Rq.Request, facts: Facts, tier: Tier, opts: ServeOptions)
    requires ValidTable(routes)
    ensures var gate := GateAfterNormalize(config, routes, n, facts, tier, opts); gate.Stop? ==> CodeOfError(gate.ending)
  {
    hide ResolutionOf, PolicyOf, AuthorizationOf, ValidTable, InitialContext, Trim, CanonicalCode, TOO_LARGE, METHOD_NOT_ALLOWED, NOT_FOUND;
    var ctx0 := InitialContext(config, n, facts);
    var configured := if opts.configure.None? then Some(ctx0) else opts.configure.value(ctx0);
    var found := ResolutionOf(routes, n.httpMethod, n.path);
    if configured.Some? && found.Matched? {
      var ctx := configured.value.(params := found.params);
      PolicyCode(config, tier, ctx, opts);
      if PolicyOf(config, tier, ctx, opts).PolicyPasses? {
        AuthorizationCode(config, found.route.options, PolicyOf(config, tier, ctx, opts).ctx);
      }
    }
  }

  lemma EndingCode(
    config: Config, routes: seq<Route<ContextHandler>>, middlewares: seq<Wrapper<Context, Handling>>,
    req: Rq.Request, tier: Tier, opts: ServeOptions)
    requires ValidTable(routes)
    ensures CodeOfError(EndingOf(config, routes, middlewares, req, tier, opts))
  {
    hide GateOf, FactsOf, ValidTable, Rs.Normalized, Rs.LimitStreamed, Rq.Normalized, CodeForError, CanonicalCode, Trim, TOO_LARGE, INTERNAL;
    GateCode(config, routes, req, tier, opts);
    var gate := GateOf(config, routes, req, tier, opts);
    if gate.Run? {
      OutputCode(config, Wrap(middlewares, gate.route.handler)(gate.ctx),
                 Rq.Normalized(req, config.maxRequestBytes, config.traceOf).0, FactsOf(config, req, opts));
    }
  }

  lemma OutputCode(config: Config, outcome: Handling, n: Rq.Request, facts: Facts)
    ensures CodeOfError(EndingOfOutput(config, outcome, n, facts))
  {
    hide Rs.Normalized, Rs.LimitStreamed, Trim, CanonicalCode, TOO_LARGE, INTERNAL;
    if outcome.Failed? { ReplyCode(outcome.error, n, facts); }
    ReplyCode(InternalError(), n, facts);
  }

  /** Without a custom responder, the status of every answered request is the status of its recorded
      code exactly when the error follows its code: always in the nested format unless the error
      carries an explicit status that differs. */
  lemma StatusMatchesRecordedCode(
    config: Config, routes: seq<Route<ContextHandler>>, middlewares: seq<Wrapper<Context, Handling>>,
    req: Rq.Request, tier: Tier, opts: ServeOptions)
    requires ValidTable(routes) && opts.responder.None?
    ensures var facts := FactsOf(config, req, opts);
            var ending := EndingOf(config, routes, middlewares, req, tier, opts);
            var final := RecoveredEnding(config, opts, facts, req, ending);
            final.Answered? ==>
              && ServedResponse(config, opts, facts, req, ending).Some?
              && (ServedResponse(config, opts, facts, req, ending).value.status == StatusForCode(CanonicalCode(RecordedCode(final))) <==>
                  StatusFollowsCode(config.format, final.error))
  {
    hide EndingOf, FactsOf, Rs.Finalized, ResponseForError, StatusFollowsCode, StatusForCode, CanonicalCode, CodeForError, ValidTable, Trim, INTERNAL;
    var facts := FactsOf(config, req, opts);
    var ending := EndingOf(config, routes, middlewares, req, tier, opts);
    var final := RecoveredEnding(config, opts, facts, req, ending);
    EndingCode(config, routes, middlewares, req, tier, opts);
    ReplyCode(InternalError(), req, facts);
    InternalCode();
    if final.Answered? {
      FinalizedStatus(config, opts, facts, req, ending);
      ErrorStatusMatchesCode(config.format, config.encode, final.error, final.headers, facts.requestId, final.traceId);
    }
  }

  lemma InternalCode()
    ensures CodeForError(InternalError()) == INTERNAL
  {
  }

  // ----- the response limit -----

  /** Whatever the response streams goes through this one limiter. */
  predicate StreamsThrough(r: Rs.Response, limiter: Rs.LimiterObject) {
    && (r.bodyReader.Some? ==> r.bodyReader.value.Limited? && r.bodyReader.value.limiter == limiter)
    && (r.bodyStream.Some? ==> r.bodyStream.value.Limited? && r.bodyStream.value.limiter == limiter)
  }

  /** A successful response respects the maximum: its body is within it, and whatever it streams, from
      a reader or a stream or both, goes through one limiter that has already counted the body. */
  lemma SucceededWithinLimit(config: Config, outcome: Handling, n: Rq.Request, facts: Facts)
    requires EndingOfOutput(config, outcome, n, facts).Succeeded? && config.maxResponseBytes > 0
    ensures var out := EndingOfOutput(config, outcome, n, facts).output;
            && |out.body| <= config.maxResponseBytes
            && StreamsThrough(out, Rs.LimiterObject(config.newLimiter, config.maxResponseBytes, |out.body|))
  {
    hide Rs.Normalized, ReplyTrace, TOO_LARGE, INTERNAL, CodeForError;
  }

  lemma StopsUnsuccessfully(config: Config, routes: seq<Route<ContextHandler>>, req: Rq.Request, tier: Tier, opts: ServeOptions)
    requires ValidTable(routes)
    ensures var gate := GateOf(config, routes, req, tier, opts); gate.Stop? ==> !gate.ending.Succeeded?
  {
    hide Canonical, IsPreflight, RequestIdFor, FactsOf, CodeForError, ValidTable, Rq.Normalized, ResolutionOf, PolicyOf,
         AuthorizationOf, InitialContext, ReplyTrace, TOO_LARGE, METHOD_NOT_ALLOWED, NOT_FOUND;
  }

  /** A successful request's ending comes from its handler's outcome. */
  lemma SucceededOutcome(
    config: Config, routes: seq<Route<ContextHandler>>, middlewares: seq<Wrapper<Context, Handling>>,
    req: Rq.Request, tier: Tier, opts: ServeOptions) returns (outcome: Handling)
    requires ValidTable(routes) && EndingOf(config, routes, middlewares, req, tier, opts).Succeeded?
    ensures EndingOf(config, routes, middlewares, req, tier, opts) ==
            EndingOfOutput(config, outcome, Rq.Normalized(req, config.maxRequestBytes, config.traceOf).0, FactsOf(config, req, opts))
  {
    StopsUnsuccessfully(config, routes, req, tier, opts);
    hide GateOf, FactsOf, Rq.Normalized, EndingOfOutput, ValidTable;
    var gate := GateOf(config, routes, req, tier, opts);
    outcome := Wrap(middlewares, gate.route.handler)(gate.ctx);
  }

  /** The finished response of a successful request: all it streams goes through one limiter, whose
      bounds hold with both sources running under any schedule. */
  lemma ServedWithinLimit(
    config: Config, routes: seq<Route<ContextHandler>>, middlewares: seq<Wrapper<Context, Handling>>,
    req: Rq.Request, tier: Tier, opts: ServeOptions, results: seq<Limits.ReadResult>, chunks: seq<Limits.StreamChunk>)
    requires ValidTable(routes) && config.maxResponseBytes > 0
    requires EndingOf(config, routes, middlewares, req, tier, opts).Succeeded?
    ensures var served := Served(config, routes, middlewares, req, tier, opts);
            && served.Some?
            && var limiter := Rs.LimiterObject(config.newLimiter, config.maxResponseBytes, |served.value.body|);
               StreamsThrough(served.value, limiter) && Bounded(limiter, results, chunks)
  {
    hide EndingOf, EndingOfOutput, FactsOf, Rq.Normalized, ValidTable, Bounded, ServedResponse;
    var outcome := SucceededOutcome(config, routes, middlewares, req, tier, opts);
    var n, facts := Rq.Normalized(req, config.maxRequestBytes, config.traceOf).0, FactsOf(config, req, opts);
    SucceededWithinLimit(config, outcome, n, facts);
    var ending := EndingOf(config, routes, middlewares, req, tier, opts);
    SourcesKept(config, opts, facts, req, ending);
    BoundedFrom(Rs.LimiterObject(config.newLimiter, config.maxResponseBytes, |ending.output.body|), results, chunks);
  }

  /** The limits that one limiter puts on a reader and a stream together, under every schedule: what it
      had counted, the delivered bytes and the streamed data never exceed the maximum; all bytes, those
      of the stream's last, erroring chunk included, stay within it exactly when that chunk has room. */
  ghost predicate Bounded(limiter: Rs.LimiterObject, results: seq<Limits.ReadResult>, chunks: seq<Limits.StreamChunk>) {
    var start := Runs.Start(limiter.max, limiter.emitted, results, chunks);
    && (forall schedule: seq<Runs.Move> ::
          var s := Runs.Run(start, schedule);
          limiter.emitted + |s.delivered| + Limits.Size(Limits.DataChunks(s.sent)) <= limiter.max)
    && ((forall schedule: seq<Runs.Move> :: Runs.WithinMax(limiter.max, limiter.emitted, Runs.Run(start, schedule))) <==>
        Runs.ErrorChunkHasRoom(limiter.max, limiter.emitted, results, chunks))
  }

  lemma BoundedFrom(limiter: Rs.LimiterObject, results: seq<Limits.ReadResult>, chunks: seq<Limits.StreamChunk>)
    requires limiter.emitted <= limiter.max
    ensures Bounded(limiter, results, chunks)
  {
    forall schedule: seq<Runs.Move>
      ensures var s := Runs.Run(Runs.Start(limiter.max, limiter.emitted, results, chunks), schedule);
              limiter.emitted + |s.delivered| + Limits.Size(Limits.DataChunks(s.sent)) <= limiter.max
    {
      Runs.NeverExceedsMax(limiter.max, limiter.emitted, results, chunks, schedule);
    }
    Runs.AllBytesWithinMax(limiter.max, limiter.emitted, results, chunks);
  }

  /** Finalization leaves a successful response's body and sources alone. */
  lemma SourcesKept(config: Config, opts: ServeOptions, facts: Facts, req: Rq.Request, ending: Ending)
    requires ending.Succeeded?
    ensures var served := ServedResponse(config, opts, facts, req, ending); var out := ending.output;
            && served.Some? && served.value.body == out.body
            && served.value.bodyReader == out.bodyReader && served.value.bodyStream == out.bodyStream
  {
    hide Rs.WithCors, Rs.WithRequestId, Canonical;
  }
}
