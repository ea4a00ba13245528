/** The growing route table: registration, the specificity order and the one-pass search
    (`runtime/router.go`). */
module RouteTable {
  import opened Text
  import opened Sorting
  import opened RoutePatterns
  import opened RouteLanguages

  datatype RouteOptions = RouteOptions(
    authRequired: bool, optionalAuth: bool, requiredScopes: seq<string>, requiredAnyScope: seq<string>)

  datatype Route<+H> = Route(
    httpMethod: string, pattern: string, segments: seq<Segment>, handler: H, options: RouteOptions,
    staticCount: nat, paramCount: nat, hasProxy: bool, order: nat)

  datatype RegistrationError = NilHandler | InvalidPattern | DuplicateRoute

  /** The arguments of one registration call. */
  datatype Registration<+H> = Registration(
    httpMethod: string, pattern: string, handler: Option<H>, options: RouteOptions)

  // ----- registration -----

  ghost predicate Registered<H>(routes: seq<Route<H>>, httpMethod: string, pattern: string) {
    exists i | 0 <= i < |routes| :: routes[i].httpMethod == httpMethod && routes[i].pattern == pattern
  }

  ghost function ErrorOf<H>(routes: seq<Route<H>>, reg: Registration<H>): Option<RegistrationError> {
    if reg.handler.None? then Some(NilHandler)
    else
      var segs := ParsePattern(reg.pattern);
      if segs.None? then Some(InvalidPattern)
      else if Registered(routes, CanonicalMethod(reg.httpMethod), RenderPattern(segs.value)) then Some(DuplicateRoute)
      else None
  }

  function NewRoute<H>(reg: Registration<H>, order: nat): Route<H>
    requires reg.handler.Some? && ParsePattern(reg.pattern).Some?
  {
    var segs := ParsePattern(reg.pattern).value;
    Route(CanonicalMethod(reg.httpMethod), RenderPattern(segs), segs, reg.handler.value, reg.options,
          StaticCount(segs), ParamCount(segs), EndsInProxy(segs), order)
  }

  ghost function AfterRegistration<H>(routes: seq<Route<H>>, reg: Registration<H>): seq<Route<H>> {
    if ErrorOf(routes, reg).Some? then routes else routes + [NewRoute(reg, |routes|)]
  }

  /** The table after a whole sequence of registration calls, some of which may fail. */
  ghost function AfterAll<H>(regs: seq<Registration<H>>): seq<Route<H>> {
    if regs == [] then [] else AfterRegistration(AfterAll(regs[..|regs| - 1]), regs[|regs| - 1])
  }

  ghost predicate ValidRoute<H>(r: Route<H>) {
    && ValidPattern(r.segments) && r.pattern == RenderPattern(r.segments)
    && CanonicalMethod(r.httpMethod) == r.httpMethod
    && r.staticCount == StaticCount(r.segments) && r.paramCount == ParamCount(r.segments)
    && r.hasProxy == EndsInProxy(r.segments)
  }

  /** What every reachable table satisfies. */
  ghost predicate ValidTable<H>(routes: seq<Route<H>>) {
    && (forall i | 0 <= i < |routes| :: ValidRoute(routes[i]) && routes[i].order == i)
    && (forall i, j | 0 <= i < j < |routes| ::
          routes[i].httpMethod != routes[j].httpMethod || routes[i].pattern != routes[j].pattern)
  }

  lemma NewRouteValid<H>(reg: Registration<H>, order: nat)
    requires reg.handler.Some? && ParsePattern(reg.pattern).Some?
    ensures ValidRoute(NewRoute(reg, order))
  {
    ParsePatternValid(reg.pattern);
    CanonicalMethodIdempotent(reg.httpMethod);
  }

  lemma RegistrationKeepsTable<H>(routes: seq<Route<H>>, reg: Registration<H>)
    requires ValidTable(routes)
    ensures ValidTable(AfterRegistration(routes, reg))
  {
    hide ValidRoute, CanonicalMethod, ParsePattern, RenderPattern;
    if ErrorOf(routes, reg).None? {
      NewRouteValid(reg, |routes|);
    }
  }

  /** Every table built by registration calls is valid. */
  lemma {:induction false} ReachableTableValid<H>(regs: seq<Registration<H>>)
    ensures ValidTable(AfterAll(regs))
  {
    if regs != [] {
      ReachableTableValid(regs[..|regs| - 1]);
      RegistrationKeepsTable(AfterAll(regs[..|regs| - 1]), regs[|regs| - 1]);
    }
  }

  /** A successful registration adds one route, for its own method in capitals, pattern, handler and
      options; a failed one adds none. */
  lemma RegisteredAsGiven<H>(routes: seq<Route<H>>, reg: Registration<H>)
    ensures var after := AfterRegistration(routes, reg);
            if ErrorOf(routes, reg).Some? then after == routes
            else
              var route := after[|routes|];
              && |after| == |routes| + 1 && after[..|routes|] == routes
              && ParsePattern(reg.pattern) == Some(route.segments)
              && reg.handler == Some(route.handler) && route.options == reg.options
              && NoSmallLetters(route.httpMethod) && SameLetters(Trim(reg.httpMethod), route.httpMethod)
  {
    CanonicalMethodCapital(reg.httpMethod);
    hide CanonicalMethod, ParsePattern, RenderPattern, Trim;
  }

  /** Which error a registration gets: a missing handler before a bad pattern before a duplicate, and
      none for a new method and pattern. */
  lemma RegistrationErrors<H>(routes: seq<Route<H>>, reg: Registration<H>)
    ensures ErrorOf(routes, reg) == Some(NilHandler) <==> reg.handler.None?
    ensures ErrorOf(routes, reg) == Some(InvalidPattern) <==> reg.handler.Some? && ParsePattern(reg.pattern).None?
    ensures ErrorOf(routes, reg) == Some(DuplicateRoute) <==>
              && reg.handler.Some? && ParsePattern(reg.pattern).Some?
              && exists i | 0 <= i < |routes| ::
                   && routes[i].httpMethod == CanonicalMethod(reg.httpMethod)
                   && routes[i].pattern == RenderPattern(ParsePattern(reg.pattern).value)
  {
    hide CanonicalMethod, ParsePattern, RenderPattern;
  }

  /** A route answers requests for its method in any case: registered as "get" it answers "GET". */
  lemma MethodCaseIgnored<H>(routes: seq<Route<H>>, reg: Registration<H>, name: string, path: string)
    requires ErrorOf(routes, reg).None? && AcceptsText(ParsePattern(reg.pattern).value, path)
    ensures Candidate(AfterRegistration(routes, reg), CanonicalMethod(name), path, |routes|) <==>
            SameLetters(Trim(reg.httpMethod), Trim(name))
  {
    SameMethodExactly(reg.httpMethod, name);
    hide CanonicalMethod, ParsePattern, RenderPattern, Trim, SameLetters, AcceptsText;
  }

  /** A stored pattern text parses to the stored segments exactly when no parameter name
      ends in '+'. */
  lemma StoredPatternReparses<H>(routes: seq<Route<H>>, i: nat)
    requires ValidTable(routes) && i < |routes|
    ensures ParsePattern(routes[i].pattern) == Some(routes[i].segments) <==>
            forall k | 0 <= k < |routes[i].segments| :: Reparses(routes[i].segments[k])
  {
    ReparsePattern(routes[i].segments);
  }

  /** Without such names, the duplicate check compares the parsed patterns themselves. */
  lemma SamePatternSameSegments(p: seq<Segment>, q: seq<Segment>)
    requires ValidPattern(p) && ValidPattern(q)
    requires forall k | 0 <= k < |p| :: Reparses(p[k])
    requires forall k | 0 <= k < |q| :: Reparses(q[k])
    ensures RenderPattern(p) == RenderPattern(q) <==> p == q
  {
    ReparsePattern(p);
    ReparsePattern(q);
  }

  /** With such a name two different patterns share one text, so the second is refused as a
      duplicate of the first: `/{a+ }` takes one segment, `/{a+}` any number. */
  lemma PlusNameClashes(name: string)
    requires ValidSegment(Proxy(name)) && Avoids(name, '/') && Avoids(name, '?')
    ensures ParsePattern("/" + ("{" + (name + "+") + " }")) == Some([Param(name + "+")])
    ensures ParsePattern("/" + ("{" + name + "+}")) == Some([Proxy(name)])
    ensures RenderPattern([Param(name + "+")]) == RenderPattern([Proxy(name)])
  {
    hide ParsePattern, ParseSegment;
    ParsePaddedParam(name + "+");
    ReparseProxy(name);
    ParseSingle("{" + (name + "+") + " }", Param(name + "+"));
    ParseSingle("{" + name + "+}", Proxy(name));
    assert Canonicals([Param(name + "+")])[0] == Canonicals([Proxy(name)])[0];
    assert Canonicals([Param(name + "+")]) == Canonicals([Proxy(name)]);
  }

  lemma TrimOneSpace(name: string)
    requires name != "" && IsTrimmed(name)
    ensures Trim(name + " ") == name
  {
    var s := name + " ";
    assert s[..|name|] == name;
    assert TrimLeft(s) == s;
    assert TrimRight(s) == TrimRight(name);
  }

  lemma ParsePaddedParam(name: string)
    requires name != "" && IsTrimmed(name)
    ensures ParseSegment("{" + name + " }") == Some(Param(name))
  {
    var text := "{" + name + " }";
    var inner := text[1..|text| - 1];
    assert IsTrimmed(text) && inner == name + " ";
    TrimOneSpace(name);
    hide Trim;
    assert Trim(text) == text;
  }

  lemma ParseSingle(raw: string, seg: Segment)
    requires raw != "" && IsTrimmed(raw) && Avoids(raw, '/') && Avoids(raw, '?')
    requires ParseSegment(raw) == Some(seg)
    ensures ParsePattern("/" + raw) == Some([seg])
  {
    hide ParseSegment;
    var path := "/" + raw;
    assert IsTrimmed(path);
    assert NormalizePath(path) == path;
    assert path[1..] == raw;
    assert SplitPath(path) == [raw];
    assert PieceParses([raw], 0);
    SegmentsUnique([raw], [seg]);
  }

  // ----- the specificity order -----

  /** `routeMoreSpecific`. */
  predicate MoreSpecific<H>(a: Route<H>, b: Route<H>) {
    if a.staticCount != b.staticCount then a.staticCount > b.staticCount
    else if a.paramCount != b.paramCount then a.paramCount > b.paramCount
    else if a.hasProxy != b.hasProxy then !a.hasProxy && b.hasProxy
    else if |a.segments| != |b.segments| then |a.segments| > |b.segments|
    else a.order < b.order
  }

  lemma {:induction false} CountsGiveLength(segs: seq<Segment>)
    requires ValidPattern(segs)
    ensures |segs| == StaticCount(segs) + ParamCount(segs) + if EndsInProxy(segs) then 1 else 0
  {
    if segs != [] {
      CountsGiveLength(segs[1..]);
      assert |segs| > 1 ==> !segs[0].Proxy? && EndsInProxy(segs[1..]) == EndsInProxy(segs);
    }
  }

  /** The length comparison is never reached with different lengths. */
  lemma LengthNeverDecides<H>(a: Route<H>, b: Route<H>)
    requires ValidRoute(a) && ValidRoute(b)
    requires a.staticCount == b.staticCount && a.paramCount == b.paramCount && a.hasProxy == b.hasProxy
    ensures |a.segments| == |b.segments|
  {
    CountsGiveLength(a.segments);
    CountsGiveLength(b.segments);
  }

  /** On a valid table the comparison is a strict total order. */
  lemma MoreSpecificStrictTotal<H>(routes: seq<Route<H>>)
    requires ValidTable(routes)
    ensures forall i | 0 <= i < |routes| :: !MoreSpecific(routes[i], routes[i])
    ensures forall i, j | 0 <= i < |routes| && 0 <= j < |routes| && i != j ::
              MoreSpecific(routes[i], routes[j]) <==> !MoreSpecific(routes[j], routes[i])
    ensures forall i, j, k | 0 <= i < |routes| && 0 <= j < |routes| && 0 <= k < |routes| ::
              MoreSpecific(routes[i], routes[j]) && MoreSpecific(routes[j], routes[k]) ==>
              MoreSpecific(routes[i], routes[k])
  {
    forall i, j | 0 <= i < |routes| && 0 <= j < |routes| && i != j
      ensures MoreSpecific(routes[i], routes[j]) <==> !MoreSpecific(routes[j], routes[i])
    {
      assert routes[i].order != routes[j].order;
    }
  }

  /** Accepting strictly fewer paths makes a route more specific, whatever the registration order. */
  lemma SmallerLanguageWins<H>(a: Route<H>, b: Route<H>)
    requires ValidRoute(a) && ValidRoute(b)
    requires Included(a.segments, b.segments) && !Included(b.segments, a.segments)
    ensures MoreSpecific(a, b)
  {
    InclusionIsShape(a.segments, b.segments);
    InclusionIsShape(b.segments, a.segments);
    ShapeCounts(a.segments, b.segments);
  }

  // ----- the search -----

  predicate RouteAccepts<H>(r: Route<H>, path: string) {
    AcceptsText(r.segments, path)
  }

  /** Methods of the accepting routes, in table order. */
  function AcceptingMethods<H>(routes: seq<Route<H>>, path: string): (methods: seq<string>)
  {
    if routes == [] then []
    else
      var n := |routes| - 1;
      AcceptingMethods(routes[..n], path) + if RouteAccepts(routes[n], path) then [routes[n].httpMethod] else []
  }

  ghost predicate Candidate<H>(routes: seq<Route<H>>, httpMethod: string, path: string, k: int) {
    0 <= k < |routes| && RouteAccepts(routes[k], path) && routes[k].httpMethod == httpMethod
  }

  /** Route `k` is a candidate more specific than every other candidate. */
  ghost predicate Best<H>(routes: seq<Route<H>>, httpMethod: string, path: string, k: int) {
    && Candidate(routes, httpMethod, path, k)
    && forall j | Candidate(routes, httpMethod, path, j) && j != k :: MoreSpecific(routes[k], routes[j])
  }

  ghost predicate BestMatch<H>(
    routes: seq<Route<H>>, httpMethod: string, path: string, route: Route<H>, params: map<string, string>)
  {
    exists k :: Best(routes, httpMethod, path, k) && route == routes[k] && params == Captures(route.segments, SplitPath(path))
  }

  /** The state of the scan after the first `n` routes: `at` is their best candidate, or -1. */
  ghost predicate ScanState<H>(routes: seq<Route<H>>, httpMethod: string, path: string, n: nat, at: int)
    requires n <= |routes|
  {
    if at == -1 then forall k | 0 <= k < n :: !Candidate(routes, httpMethod, path, k)
    else
      && at < n && Candidate(routes, httpMethod, path, at)
      && forall j | 0 <= j < n && Candidate(routes, httpMethod, path, j) && j != at :: MoreSpecific(routes[at], routes[j])
  }

  lemma ScanStep<H>(routes: seq<Route<H>>, httpMethod: string, path: string, n: nat, at: int)
    requires ValidTable(routes) && n < |routes| && ScanState(routes, httpMethod, path, n, at)
    ensures var next := if !Candidate(routes, httpMethod, path, n) then at
                        else if at == -1 || MoreSpecific(routes[n], routes[at]) then n
                        else at;
            ScanState(routes, httpMethod, path, n + 1, next)
  {
    MoreSpecificStrictTotal(routes);
    hide MoreSpecific, RouteAccepts, ValidTable;
  }

  lemma AcceptingMethodsStep<H>(routes: seq<Route<H>>, path: string, n: nat)
    requires n < |routes|
    ensures AcceptingMethods(routes[..n + 1], path) ==
            AcceptingMethods(routes[..n], path) + if RouteAccepts(routes[n], path) then [routes[n].httpMethod] else []
  {
    assert routes[..n + 1][..n] == routes[..n];
  }

  lemma BestUnique<H>(routes: seq<Route<H>>, httpMethod: string, path: string, j: int, k: int)
    requires ValidTable(routes)
    requires Best(routes, httpMethod, path, j) && Best(routes, httpMethod, path, k)
    ensures j == k
  {
    MoreSpecificStrictTotal(routes);
  }

  /** How two routes rank, key by key: static segments, then parameters, then no proxy, then the earlier
      registration. */
  ghost predicate RanksBefore<H>(routes: seq<Route<H>>, k: int, j: int)
    requires 0 <= k < |routes| && 0 <= j < |routes|
  {
    var p, q := routes[k].segments, routes[j].segments;
    && StaticCount(p) >= StaticCount(q)
    && (StaticCount(p) == StaticCount(q) ==>
          && ParamCount(p) >= ParamCount(q)
          && (ParamCount(p) == ParamCount(q) ==>
                && (EndsInProxy(p) ==> EndsInProxy(q))
                && (EndsInProxy(p) == EndsInProxy(q) ==> k <= j)))
  }

  lemma RanksExactly<H>(routes: seq<Route<H>>, k: int, j: int)
    requires ValidTable(routes) && 0 <= k < |routes| && 0 <= j < |routes| && k != j
    ensures MoreSpecific(routes[k], routes[j]) <==> RanksBefore(routes, k, j)
  {
    assert ValidRoute(routes[k]) && ValidRoute(routes[j]);
    hide ValidPattern, RenderPattern, CanonicalMethod, StaticCount, ParamCount, EndsInProxy;
    var a, b := routes[k], routes[j];
    if a.staticCount == b.staticCount && a.paramCount == b.paramCount && a.hasProxy == b.hasProxy {
      LengthNeverDecides(a, b);
    }
  }

  /** The best match is the candidate with the most static segments, among those the one with the most
      parameters, among those one without a proxy, and among those the one registered first. */
  lemma BestExactly<H>(routes: seq<Route<H>>, httpMethod: string, path: string, k: int)
    requires ValidTable(routes)
    ensures Best(routes, httpMethod, path, k) <==>
            && Candidate(routes, httpMethod, path, k)
            && forall j | Candidate(routes, httpMethod, path, j) :: RanksBefore(routes, k, j)
  {
    hide ValidTable, MoreSpecific, RanksBefore, RouteAccepts;
    if Candidate(routes, httpMethod, path, k) {
      RanksItself(routes, k);
      forall j | Candidate(routes, httpMethod, path, j) && j != k
        ensures MoreSpecific(routes[k], routes[j]) <==> RanksBefore(routes, k, j)
      {
        RanksExactly(routes, k, j);
      }
    }
  }

  lemma RanksItself<H>(routes: seq<Route<H>>, k: int)
    requires 0 <= k < |routes|
    ensures RanksBefore(routes, k, k)
  {
  }

  /** No candidate accepts a strictly smaller set of paths than the best one. */
  lemma BestIsSmallest<H>(routes: seq<Route<H>>, httpMethod: string, path: string, k: int, j: int)
    requires ValidTable(routes)
    requires Best(routes, httpMethod, path, k) && Candidate(routes, httpMethod, path, j)
    ensures Included(routes[j].segments, routes[k].segments) ==> Included(routes[k].segments, routes[j].segments)
  {
    if Included(routes[j].segments, routes[k].segments) && !Included(routes[k].segments, routes[j].segments) {
      SmallerLanguageWins(routes[j], routes[k]);
      MoreSpecificStrictTotal(routes);
    }
  }

  lemma {:induction false} AcceptingMethodsExact<H>(routes: seq<Route<H>>, path: string)
    ensures forall m :: m in AcceptingMethods(routes, path) <==> AcceptingMethod(routes, path, m)
  {
    hide AcceptsText;
    if routes != [] {
      var n := |routes| - 1;
      AcceptingMethodsExact(routes[..n], path);
      forall m ensures m in AcceptingMethods(routes, path) <==> AcceptingMethod(routes, path, m) {
        if AcceptingMethod(routes, path, m) {
          var i :| 0 <= i < |routes| && RouteAccepts(routes[i], path) && routes[i].httpMethod == m;
          if i < n { assert routes[..n][i] == routes[i]; }
        }
      }
    }
  }

  /** How the pipeline answers when the search is done: 404 when no route accepts the path,
      405 when only routes of other methods do. */
  datatype Resolution<+H> = Matched(route: Route<H>, params: map<string, string>) | MethodNotAllowed(allow: string) | NotFound

  /** The method names listed in an `Allow` header. */
  ghost function AllowedMethods(methods: seq<string>): (r: seq<string>)
    ensures StrictlySorted(r)
    ensures forall m :: m in r <==> exists i | 0 <= i < |methods| :: m == CanonicalMethod(methods[i]) && m != ""
  {
    SortedListing(set i | 0 <= i < |methods| && CanonicalMethod(methods[i]) != "" :: CanonicalMethod(methods[i]))
  }

  /** `formatAllowHeader`. */
  method FormatAllowHeader(methods: seq<string>) returns (header: string)
    ensures header == Join(AllowedMethods(methods), ", ")
  {
    hide CanonicalMethod, StrictlySorted;
    var names: set<string> := {};
    for i := 0 to |methods|
      invariant names == set k | 0 <= k < i && CanonicalMethod(methods[k]) != "" :: CanonicalMethod(methods[k])
    {
      var m := CanonicalMethod(methods[i]);
      if m == "" {
        continue;
      }
      names := names + {m};
    }
    var uniq := EnumerateSorted(names);
    header := Join(uniq, ", ");
  }

  ghost predicate AcceptingMethod<H>(routes: seq<Route<H>>, path: string, m: string) {
    exists k | 0 <= k < |routes| :: RouteAccepts(routes[k], path) && routes[k].httpMethod == m
  }

  /** `names` lists, strictly sorted, the non-blank methods of the routes accepting the path. */
  ghost predicate ListsAcceptingMethods<H>(routes: seq<Route<H>>, path: string, names: seq<string>) {
    StrictlySorted(names) && forall m :: m in names <==> m != "" && AcceptingMethod(routes, path, m)
  }

  ghost predicate AllowHeaderFor<H>(routes: seq<Route<H>>, path: string, allow: string) {
    exists names: seq<string> :: allow == Join(names, ", ") && ListsAcceptingMethods(routes, path, names)
  }

  /** The whole answer of the table to a request, stated from the set of accepting routes. */
  ghost predicate Resolves<H>(routes: seq<Route<H>>, name: string, path: string, r: Resolution<H>) {
    var httpMethod := CanonicalMethod(name);
    match r
    case Matched(route, params) =>
      BestMatch(routes, httpMethod, path, route, params)
    case MethodNotAllowed(allow) =>
      && (forall k :: !Candidate(routes, httpMethod, path, k))
      && (exists k | 0 <= k < |routes| :: RouteAccepts(routes[k], path))
      && AllowHeaderFor(routes, path, allow)
    case NotFound =>
      forall k | 0 <= k < |routes| :: !RouteAccepts(routes[k], path)
  }

  lemma {:induction false} ScanExists<H>(routes: seq<Route<H>>, httpMethod: string, path: string, n: nat) returns (at: int)
    requires ValidTable(routes) && n <= |routes|
    ensures at == -1 || 0 <= at < n
    ensures ScanState(routes, httpMethod, path, n, at)
  {
    hide ValidTable, MoreSpecific, RouteAccepts, ScanState;
    if n == 0 {
      at := -1;
      ScanStart(routes, httpMethod, path);
    } else {
      at := ScanExists(routes, httpMethod, path, n - 1);
      ScanStep(routes, httpMethod, path, n - 1, at);
      if Candidate(routes, httpMethod, path, n - 1) && (at == -1 || MoreSpecific(routes[n - 1], routes[at])) {
        at := n - 1;
      }
    }
  }

  lemma ScanStart<H>(routes: seq<Route<H>>, httpMethod: string, path: string)
    ensures ScanState(routes, httpMethod, path, 0, -1)
  {
    hide RouteAccepts;
  }

  /** Where there is a candidate there is a best one. */
  lemma BestExists<H>(routes: seq<Route<H>>, httpMethod: string, path: string)
    requires ValidTable(routes)
    ensures (exists k :: Candidate(routes, httpMethod, path, k)) ==> exists k :: Best(routes, httpMethod, path, k)
  {
    hide ValidTable, RouteAccepts, MoreSpecific;
    var at := ScanExists(routes, httpMethod, path, |routes|);
    if at != -1 {
      assert Best(routes, httpMethod, path, at);
    }
  }

  lemma BestAccepts<H>(routes: seq<Route<H>>, httpMethod: string, path: string, k: int)
    requires Best(routes, httpMethod, path, k)
    ensures Accepts(routes[k].segments, SplitPath(path))
  {
  }

  /** The resolution of a request. */
  ghost function ResolutionOf<H>(routes: seq<Route<H>>, name: string, path: string): (r: Resolution<H>)
    requires ValidTable(routes)
  {
    var httpMethod := CanonicalMethod(name);
    if exists k :: Best(routes, httpMethod, path, k) then
      var k :| Best(routes, httpMethod, path, k);
      BestAccepts(routes, httpMethod, path, k);
      Matched(routes[k], Captures(routes[k].segments, SplitPath(path)))
    else if exists k | 0 <= k < |routes| :: RouteAccepts(routes[k], path) then
      MethodNotAllowed(Join(AllowedMethods(AcceptingMethods(routes, path)), ", "))
    else NotFound
  }

  lemma ResolutionResolves<H>(routes: seq<Route<H>>, name: string, path: string)
    requires ValidTable(routes)
    ensures Resolves(routes, name, path, ResolutionOf(routes, name, path))
  {
    hide CanonicalMethod, ValidTable, RouteAccepts, AllowedMethods, MoreSpecific, ListsAcceptingMethods, SplitPath, Captures;
    BestExists(routes, CanonicalMethod(name), path);
    AllowListsMethods(routes, path, AcceptingMethods(routes, path));
    hide AcceptingMethods;
  }

  /** 404 exactly when no route accepts the path; 405 exactly when some does but none with the
      request's method; a match exactly when one with the request's method does. */
  lemma ResolutionKinds<H>(routes: seq<Route<H>>, name: string, path: string)
    requires ValidTable(routes)
    ensures var r := ResolutionOf(routes, name, path);
            && (r.NotFound? <==> forall k | 0 <= k < |routes| :: !RouteAccepts(routes[k], path))
            && (r.Matched? <==> exists k :: Candidate(routes, CanonicalMethod(name), path, k))
            && (r.MethodNotAllowed? <==>
                  && (exists k | 0 <= k < |routes| :: RouteAccepts(routes[k], path))
                  && (forall k :: !Candidate(routes, CanonicalMethod(name), path, k)))
  {
    hide RouteAccepts, CanonicalMethod, ValidTable, MoreSpecific, SplitPath, Captures, ResolutionOf;
    ResolutionResolves(routes, name, path);
  }

  class Router<H> {
    var routes: seq<Route<H>>

    ghost predicate Valid()
      reads this
    {
      ValidTable(routes)
    }

    constructor ()
      ensures Valid() && routes == []
    {
      routes := [];
    }

    /** `addStrict`: the route is appended with its canonical data, or the table is unchanged. */
    method AddStrict(name: string, patternText: string, handler: Option<H>, options: RouteOptions)
      returns (error: Option<RegistrationError>)
      requires Valid()
      modifies this
      ensures Valid()
      ensures var reg := Registration(name, patternText, handler, options);
              error == ErrorOf(old(routes), reg) && routes == AfterRegistration(old(routes), reg)
    {
      hide CanonicalMethod, NormalizePath, SplitPath, ValidTable, Parses, Segments, Canonicals, ParsePattern, RenderPattern,
           ValidPattern, StaticCount, ParamCount, EndsInProxy, Join;
      ghost var reg := Registration(name, patternText, handler, options);
      RegistrationKeepsTable(routes, reg);
      if handler.None? {
        return Some(NilHandler);
      }
      var httpMethod := CanonicalMethod(name);
      ParsedSegments(patternText);
      var ok, segments, canonical := ParseSegments(SplitPath(NormalizePath(patternText)));
      if !ok {
        return Some(InvalidPattern);
      }
      PatternText(segments);
      var pattern := if |canonical| == 0 then "/" else "/" + Join(canonical, "/");
      for i := 0 to |routes|
        invariant forall k | 0 <= k < i :: routes[k].httpMethod != httpMethod || routes[k].pattern != pattern
      {
        if routes[i].httpMethod == httpMethod && routes[i].pattern == pattern {
          return Some(DuplicateRoute);
        }
      }
      var staticCount, paramCount, hasProxy := CountSegments(segments);
      ParsePatternValid(patternText);
      ProxyIsLast(segments);
      assert ParsePattern(patternText) == Some(segments) && pattern == RenderPattern(segments);
      assert !Registered(routes, httpMethod, pattern);
      routes := routes + [Route(httpMethod, pattern, segments, handler.value, options,
                                staticCount, paramCount, hasProxy, |routes|)];
      return None;
    }

    /** `match`: the unique most specific route of the request's method that accepts the path,
        with its parameters, and the methods of every accepting route. */
    method Match(name: string, path: string) returns (best: Option<(Route<H>, map<string, string>)>, allowed: seq<string>)
      requires Valid()
      ensures allowed == AcceptingMethods(routes, path)
      ensures best.None? ==> forall k :: !Candidate(routes, CanonicalMethod(name), path, k)
      ensures best.Some? ==> BestMatch(routes, CanonicalMethod(name), path, best.value.0, best.value.1)
    {
      var httpMethod := CanonicalMethod(name);
      var parts := SplitPath(path);
      allowed := [];
      best := None;
      ghost var at := -1;
      assert AcceptingMethods(routes[..0], path) == [];
      hide Accepts, CanonicalMethod, ValidTable, MoreSpecific, AcceptingMethods, SplitPath;
      for i := 0 to |routes|
        invariant allowed == AcceptingMethods(routes[..i], path)
        invariant ScanState(routes, httpMethod, path, i, at)
        invariant best.None? <==> at == -1
        invariant best.Some? ==> best.value == (routes[at], Captures(routes[at].segments, parts))
      {
        AcceptingMethodsStep(routes, path, i);
        ScanStep(routes, httpMethod, path, i, at);
        var params, ok := MatchRoute(routes[i].segments, parts);
        if !ok {
          continue;
        }
        allowed := allowed + [routes[i].httpMethod];
        if routes[i].httpMethod != httpMethod {
          continue;
        }
        if best.None? || MoreSpecific(routes[i], best.value.0) {
          best := Some((routes[i], params));
          at := i;
        }
      }
      assert routes[..|routes|] == routes;
      assert best.Some? ==> Best(routes, httpMethod, path, at);
    }

    /** The match step of the pipeline with its 404 and 405 answers. */
    method Resolve(name: string, path: string) returns (r: Resolution<H>)
      requires Valid()
      ensures r == ResolutionOf(routes, name, path)
    {
      r := Answer(name, path);
      ResolutionResolves(routes, name, path);
      ResolutionUnique(routes, name, path, r, ResolutionOf(routes, name, path));
    }

    method Answer(name: string, path: string) returns (r: Resolution<H>)
      requires Valid()
      ensures Resolves(routes, name, path, r)
    {
      hide RouteAccepts, CanonicalMethod, ValidTable, AcceptingMethods, AllowedMethods, SplitPath, Captures, Best, ListsAcceptingMethods;
      var best, allowed := Match(name, path);
      AcceptingMethodsExact(routes, path);
      if best.Some? {
        return Matched(best.value.0, best.value.1);
      }
      if |allowed| > 0 {
        assert allowed[0] in allowed;
        var allow := FormatAllowHeader(allowed);
        AllowListsMethods(routes, path, allowed);
        return MethodNotAllowed(allow);
      }
      forall k | 0 <= k < |routes| ensures !RouteAccepts(routes[k], path) {
        assert routes[k].httpMethod !in allowed;
      }
      return NotFound;
    }
  }

  lemma AllowListsMethods<H>(routes: seq<Route<H>>, path: string, allowed: seq<string>)
    requires ValidTable(routes) && allowed == AcceptingMethods(routes, path)
    ensures ListsAcceptingMethods(routes, path, AllowedMethods(allowed))
  {
    AcceptingMethodsExact(routes, path);
    hide AcceptsText, AcceptingMethods, CanonicalMethod;
    forall i | 0 <= i < |allowed| ensures CanonicalMethod(allowed[i]) == allowed[i] {
      assert allowed[i] in allowed;
      var k :| 0 <= k < |routes| && RouteAccepts(routes[k], path) && routes[k].httpMethod == allowed[i];
      assert ValidRoute(routes[k]);
    }
  }

  lemma ParsedSegments(pattern: string)
    ensures var raws := SplitPath(NormalizePath(pattern));
            ParsePattern(pattern) == if Parses(raws) then Some(Segments(raws)) else None
  {
    hide SplitPath, NormalizePath, Parses;
  }

  lemma PatternText(segs: seq<Segment>)
    ensures RenderPattern(segs) == if |Canonicals(segs)| == 0 then "/" else "/" + Join(Canonicals(segs), "/")
  {
    hide Canonicals;
  }

  lemma ProxyIsLast(segs: seq<Segment>)
    requires ValidPattern(segs)
    ensures (exists i | 0 <= i < |segs| :: segs[i].Proxy?) <==> EndsInProxy(segs)
  {
  }

  method CountSegments(segs: seq<Segment>) returns (statics: nat, params: nat, hasProxy: bool)
    ensures statics == StaticCount(segs) && params == ParamCount(segs)
    ensures hasProxy <==> exists i | 0 <= i < |segs| :: segs[i].Proxy?
  {
    statics, params, hasProxy := 0, 0, false;
    for i := 0 to |segs|
      invariant statics + StaticCount(segs[i..]) == StaticCount(segs)
      invariant params + ParamCount(segs[i..]) == ParamCount(segs)
      invariant hasProxy <==> exists k | 0 <= k < i :: segs[k].Proxy?
    {
      assert segs[i..][1..] == segs[i + 1..];
      match segs[i]
      case Static(_) => statics := statics + 1;
      case Param(_) => params := params + 1;
      case Proxy(_) => hasProxy := true;
    }
  }

  /** A resolution is determined by the table and the request up to the one best route. */
  lemma ResolutionUnique<H>(routes: seq<Route<H>>, name: string, path: string, r: Resolution<H>, s: Resolution<H>)
    requires ValidTable(routes) && Resolves(routes, name, path, r) && Resolves(routes, name, path, s)
    ensures r == s
  {
    hide Accepts, CanonicalMethod, ValidTable;
    var m := CanonicalMethod(name);
    if r.Matched? && s.Matched? {
      var j :| Best(routes, m, path, j) && r.route == routes[j] && r.params == Captures(r.route.segments, SplitPath(path));
      var k :| Best(routes, m, path, k) && s.route == routes[k] && s.params == Captures(s.route.segments, SplitPath(path));
      BestUnique(routes, m, path, j, k);
    } else if r.MethodNotAllowed? && s.MethodNotAllowed? {
      var x: seq<string> :| r.allow == Join(x, ", ") && ListsAcceptingMethods(routes, path, x);
      var y: seq<string> :| s.allow == Join(y, ", ") && ListsAcceptingMethods(routes, path, y);
      SortedUnique(x, y);
    }
  }
}
