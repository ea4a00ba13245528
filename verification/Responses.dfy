/** Responses: normalization (`runtime/response.go`), the size limit put on streamed bodies
    (`runtime/response_limits.go:8-24`) and finalization with request id and CORS headers
    (`runtime/serve.go:620-637`, `runtime/cors.go`). */
module Responses {
  import opened Text
  import opened Bytes
  import opened Headers
  import V = Vary

  /** One limiter object: which it is, and the state it starts in.  Sources behind the same object
      draw on one counter. */
  datatype LimiterObject = LimiterObject(id: nat, max: int, emitted: nat)

  /** A streamed body: the handler's own source, or that source behind a limiter. */
  datatype BodySource = Source(id: nat) | Limited(source: BodySource, limiter: LimiterObject)

  datatype Response = Response(
    status: int, headers: HeaderMap, cookies: seq<string>, body: seq<Byte>,
    bodyReader: Option<BodySource>, bodyStream: Option<BodySource>, isBase64: bool)

  // ----- normalization -----

  ghost function Normalized(r: Response): Response {
    var headers := Canonical(r.headers);
    var moved := ValuesOf(headers, "set-cookie");
    r.(status := if r.status == 0 then 200 else r.status,
       headers := if |moved| > 0 then headers - {"set-cookie"} else headers,
       cookies := r.cookies + moved)
  }

  /** `normalizeResponse` of a response that is not nil. */
  method NormalizeResponse(r: Response) returns (out: Response)
    ensures out == Normalized(r)
  {
    out := r;
    if out.status == 0 {
      out := out.(status := 200);
    }
    var headers := CanonicalizeHeaders(out.headers);
    out := out.(headers := headers);
    var setCookies := ValuesOf(out.headers, "set-cookie");
    if |setCookies| > 0 {
      out := out.(cookies := out.cookies + setCookies);
      out := out.(headers := out.headers - {"set-cookie"});
    } else {
      assert out.cookies + setCookies == out.cookies;
    }
  }

  lemma NormalizedIdempotent(r: Response)
    ensures Normalized(Normalized(r)) == Normalized(r)
  {
    var headers := Canonical(r.headers);
    CanonicalIsCanonical(r.headers);
    var kept := Normalized(r).headers;
    assert IsCanonical(kept);
    CanonicalFixed(kept);
    hide Canonical, IsCanonical;
    assert ValuesOf(kept, "set-cookie") == [];
    assert Normalized(r).cookies + [] == Normalized(r).cookies;
  }

  /** Every header value ends up in the headers or, for set-cookie, in the cookies: none is lost
      and none invented. */
  lemma NormalizedConserves(r: Response)
    ensures multiset(Normalized(r).cookies) + AllValues(Normalized(r).headers) ==
            multiset(r.cookies) + AllValues(NonBlank(r.headers))
    ensures ValuesOf(Normalized(r).headers, "set-cookie") == []
    ensures forall name | name in Canonical(r.headers) && name != "set-cookie" ::
              name in Normalized(r).headers && Normalized(r).headers[name] == Canonical(r.headers)[name]
  {
    var headers := Canonical(r.headers);
    ValuesConserved(r.headers);
    hide Canonical, AllValues, NonBlank;
    var moved := ValuesOf(headers, "set-cookie");
    if |moved| > 0 {
      AllValuesRemove(headers, "set-cookie");
    } else {
      assert r.cookies + moved == r.cookies;
    }
  }

  /** What else normalization does: the cookies that were there stay in front, a missing status becomes
      200, and the body and what is streamed stay as they are. */
  lemma NormalizedRest(r: Response)
    ensures Normalized(r).cookies == r.cookies + ValuesOf(Canonical(r.headers), "set-cookie")
    ensures Normalized(r).status == (if r.status == 0 then 200 else r.status)
    ensures Normalized(r).body == r.body && Normalized(r).isBase64 == r.isBase64
    ensures Normalized(r).bodyReader == r.bodyReader && Normalized(r).bodyStream == r.bodyStream
  {
    hide Canonical;
  }

  // ----- the limit on streamed bodies -----

  /** `limitStreamedResponse`; `id` is the identity of the one limiter it allocates. */
  function LimitStreamed(r: Response, maxBytes: int, id: nat): Response {
    if maxBytes <= 0 || (r.bodyReader.None? && r.bodyStream.None?) then r
    else
      var limiter := LimiterObject(id, maxBytes, |r.body|);
      r.(bodyReader := if r.bodyReader.Some? then Some(Limited(r.bodyReader.value, limiter)) else None,
         bodyStream := if r.bodyStream.Some? then Some(Limited(r.bodyStream.value, limiter)) else None)
  }

  /** Limiting keeps each source, behind the limiter, and everything else; without a maximum it does
      nothing at all. */
  lemma LimitedSourcesKept(r: Response, maxBytes: int, id: nat)
    ensures var out := LimitStreamed(r, maxBytes, id);
            && out.(bodyReader := r.bodyReader, bodyStream := r.bodyStream) == r
            && out.bodyReader.Some? == r.bodyReader.Some? && out.bodyStream.Some? == r.bodyStream.Some?
            && (maxBytes <= 0 ==> out == r)
            && (maxBytes > 0 && r.bodyReader.Some? ==>
                  out.bodyReader.value.Limited? && out.bodyReader.value.source == r.bodyReader.value)
            && (maxBytes > 0 && r.bodyStream.Some? ==>
                  out.bodyStream.value.Limited? && out.bodyStream.value.source == r.bodyStream.value)
  {
  }

  // ----- finalization -----

  datatype CorsConfig = CorsConfig(allowedOrigins: Option<seq<string>>, allowCredentials: bool, allowHeaders: seq<string>)

  /** `corsOriginAllowed`. */
  predicate OriginAllowed(origin: string, cors: CorsConfig) {
    var trimmed := Trim(origin);
    && trimmed != ""
    && match cors.allowedOrigins
       case None => !cors.allowCredentials
       case Some(origins) => "*" in origins || trimmed in origins
  }

  /** `corsAllowHeadersValue`. */
  function AllowHeadersValue(cors: CorsConfig): string {
    if |cors.allowHeaders| > 0 then Join(cors.allowHeaders, ", ")
    else if cors.allowCredentials then "Content-Type, Authorization"
    else ""
  }

  /** Which origins are let in: never a blank one; a listed one, written with or without surrounding
      white space, always, as is any if the list has "*"; and with no list any origin, unless credentials
      are allowed. */
  lemma OriginsAllowed(origin: string, cors: CorsConfig)
    ensures Trim(origin) == "" ==> !OriginAllowed(origin, cors)
    ensures Trim(origin) != "" && cors.allowedOrigins.Some? ==>
              (OriginAllowed(origin, cors) <==>
                exists i | 0 <= i < |cors.allowedOrigins.value| ::
                  cors.allowedOrigins.value[i] == "*" || cors.allowedOrigins.value[i] == Trim(origin))
    ensures Trim(origin) != "" && cors.allowedOrigins.None? ==> (OriginAllowed(origin, cors) <==> !cors.allowCredentials)
  {
    hide Trim;
  }

  /** The value that lists the allowed request headers: the configured names, or two standard ones if
      there are none but credentials are allowed. */
  lemma AllowedHeaderNames(cors: CorsConfig)
    ensures cors.allowHeaders == [] && !cors.allowCredentials ==> AllowHeadersValue(cors) == ""
    ensures cors.allowHeaders == [] && cors.allowCredentials ==> AllowHeadersValue(cors) == "Content-Type, Authorization"
    ensures cors.allowHeaders != [] && AllAvoid(cors.allowHeaders, ',') && (forall i | 0 <= i < |cors.allowHeaders| :: cors.allowHeaders[i] != "" && IsTrimmed(cors.allowHeaders[i])) ==>
              |Split(AllowHeadersValue(cors), ',')| == |cors.allowHeaders| &&
              forall i | 0 <= i < |cors.allowHeaders| :: Trim(Split(AllowHeadersValue(cors), ',')[i]) == cors.allowHeaders[i]
  {
    if cors.allowHeaders != [] && AllAvoid(cors.allowHeaders, ',') {
      SplitSpaced(cors.allowHeaders);
      hide Split, Join, AllAvoid, Avoids;
      forall i | 0 <= i < |cors.allowHeaders| && cors.allowHeaders[i] != "" && IsTrimmed(cors.allowHeaders[i])
        ensures Trim(Split(AllowHeadersValue(cors), ',')[i]) == cors.allowHeaders[i]
      {
        TrimSpaced(cors.allowHeaders[i]);
      }
    }
  }

  lemma TrimSpaced(s: string)
    requires s != "" && IsTrimmed(s)
    ensures Trim(" " + s) == s && Trim(s) == s
  {
    TrimPadded(" ", s, "");
    assert " " + s + "" == " " + s;
  }

  /** Splitting a list joined by ", " at the commas leaves a space before every name but the first. */
  lemma {:induction false} SplitSpaced(names: seq<string>)
    requires |names| >= 1 && AllAvoid(names, ',')
    ensures Split(Join(names, ", "), ',') == Spaced(names)
  {
    hide Split, Avoids;
    if |names| == 1 {
      SplitOne(names[0]);
    } else {
      var rest := names[1..];
      SplitSpaced(rest);
      SpacedFirst(Join(rest, ", "));
      SplitCons(names[0], " " + Join(rest, ", "), ',');
      assert names[0] + ", " + Join(rest, ", ") == names[0] + [','] + (" " + Join(rest, ", "));
      SpacedTail(names);
    }
  }

  function Spaced(names: seq<string>): (parts: seq<string>)
    ensures |parts| == |names|
    ensures forall i | 0 <= i < |names| :: parts[i] == (if i == 0 then "" else " ") + names[i]
  {
    seq(|names|, i requires 0 <= i < |names| => (if i == 0 then "" else " ") + names[i])
  }

  lemma SplitOne(name: string)
    requires Avoids(name, ',')
    ensures Split(name, ',') == [name] == Spaced([name])
  {
    assert "" + name == name;
  }

  lemma SpacedTail(names: seq<string>)
    requires |names| > 1
    ensures Spaced(names) == [names[0]] + ([" " + Spaced(names[1..])[0]] + Spaced(names[1..])[1..])
  {
    assert "" + names[0] == names[0] && "" + names[1] == names[1];
  }

  /** A space in front of a text goes into its first part. */
  lemma SpacedFirst(text: string)
    ensures Split(" " + text, ',') == [" " + Split(text, ',')[0]] + Split(text, ',')[1..]
  {
    if Avoids(text, ',') {
      SplitNone(text);
      SplitNone(" " + text);
    } else {
      var i := IndexOf(text, ',');
      hide Split;
      SpaceBefore(text[..i], text[i + 1..]);
      assert text == text[..i] + [','] + text[i + 1..];
    }
  }

  lemma SplitNone(text: string)
    requires Avoids(text, ',')
    ensures Split(text, ',') == [text]
  {
  }

  lemma SpaceBefore(a: string, b: string)
    requires Avoids(a, ',')
    ensures Split(" " + (a + [','] + b), ',') == [" " + Split(a + [','] + b, ',')[0]] + Split(a + [','] + b, ',')[1..]
  {
    hide Split;
    SplitCons(a, b, ',');
    SplitCons(" " + a, b, ',');
    assert " " + (a + [','] + b) == (" " + a) + [','] + b;
  }

  const REQUEST_ID := "x-request-id"
  const VARY := "vary"
  const ALLOW_ORIGIN := "access-control-allow-origin"
  const ALLOW_CREDENTIALS := "access-control-allow-credentials"
  const ALLOW_HEADERS := "access-control-allow-headers"

  ghost function WithRequestId(h: HeaderMap, requestId: string): HeaderMap {
    if requestId != "" then h[REQUEST_ID := [requestId]] else h
  }

  ghost function WithCors(h: HeaderMap, origin: string, cors: CorsConfig): HeaderMap {
    if origin == "" || !OriginAllowed(origin, cors) then h
    else
      var h1 := h[ALLOW_ORIGIN := [origin]];
      var h2 := h1[VARY := V.VaryList(ValuesOf(h, VARY), ["origin"])];
      var h3 := if cors.allowCredentials then h2[ALLOW_CREDENTIALS := ["true"]] else h2;
      var allow := AllowHeadersValue(cors);
      if allow != "" then h3[ALLOW_HEADERS := [allow]] else h3
  }

  ghost function Finalized(r: Response, requestId: string, origin: string, cors: CorsConfig): Response {
    r.(headers := WithCors(WithRequestId(Canonical(r.headers), requestId), origin, cors))
  }

  /** `finalizeP1Response`. */
  method FinalizeResponse(r: Response, requestId: string, origin: string, cors: CorsConfig) returns (out: Response)
    ensures out == Finalized(r, requestId, origin, cors)
  {
    hide OriginAllowed, AllowHeadersValue;
    var headers := CanonicalizeHeaders(r.headers);
    if requestId != "" {
      headers := headers[REQUEST_ID := [requestId]];
    }
    ghost var before := headers;
    if origin != "" && OriginAllowed(origin, cors) {
      headers := headers[ALLOW_ORIGIN := [origin]];
      assert ValuesOf(headers, VARY) == ValuesOf(before, VARY);
      var vary := V.Merge(ValuesOf(headers, VARY), ["origin"]);
      headers := headers[VARY := vary];
      if cors.allowCredentials {
        headers := headers[ALLOW_CREDENTIALS := ["true"]];
      }
      var allowHeaders := AllowHeadersValue(cors);
      if allowHeaders != "" {
        headers := headers[ALLOW_HEADERS := [allowHeaders]];
      }
    }
    out := r.(headers := headers);
  }

  predicate PlainName(s: string) {
    s != "" && IsTrimmed(s) && forall i | 0 <= i < |s| :: LowerChar(s[i]) == s[i]
  }

  lemma PlainNameCanonical(s: string)
    requires PlainName(s)
    ensures CanonicalName(s) == s != ""
  {
    assert Lower(s) == s;
  }

  /** The header names written here are canonical and pairwise distinct. */
  lemma HeaderNames()
    ensures CanonicalName(REQUEST_ID) == REQUEST_ID != "" && CanonicalName(VARY) == VARY != ""
    ensures CanonicalName(ALLOW_ORIGIN) == ALLOW_ORIGIN != ""
    ensures CanonicalName(ALLOW_CREDENTIALS) == ALLOW_CREDENTIALS != ""
    ensures CanonicalName(ALLOW_HEADERS) == ALLOW_HEADERS != ""
    ensures REQUEST_ID != VARY && REQUEST_ID != ALLOW_ORIGIN && REQUEST_ID != ALLOW_CREDENTIALS && REQUEST_ID != ALLOW_HEADERS
    ensures VARY != ALLOW_ORIGIN && VARY != ALLOW_CREDENTIALS && VARY != ALLOW_HEADERS
    ensures ALLOW_ORIGIN != ALLOW_CREDENTIALS && ALLOW_ORIGIN != ALLOW_HEADERS && ALLOW_CREDENTIALS != ALLOW_HEADERS
  {
    hide CanonicalName, PlainName, REQUEST_ID, VARY, ALLOW_ORIGIN, ALLOW_CREDENTIALS, ALLOW_HEADERS;
    HeaderNameLengths();
    ShortNamesPlain();
    AllowOriginPlain();
    AllowCredentialsPlain();
    AllowHeadersPlain();
    PlainNameCanonical(REQUEST_ID);
    PlainNameCanonical(ALLOW_ORIGIN);
    PlainNameCanonical(VARY);
    PlainNameCanonical(ALLOW_CREDENTIALS);
    PlainNameCanonical(ALLOW_HEADERS);
  }

  lemma HeaderNameLengths()
    ensures |REQUEST_ID| == 12 && |VARY| == 4 && |ALLOW_ORIGIN| == 27 && |ALLOW_CREDENTIALS| == 32 && |ALLOW_HEADERS| == 28
  {
  }

  lemma ShortNamesPlain()
    ensures PlainName(REQUEST_ID) && PlainName(VARY)
  {
  }

  lemma AllowOriginPlain()
    ensures PlainName(ALLOW_ORIGIN)
  {
  }

  lemma AllowCredentialsPlain()
    ensures PlainName(ALLOW_CREDENTIALS)
  {
  }

  lemma AllowHeadersPlain()
    ensures PlainName(ALLOW_HEADERS)
  {
  }

  /** The headers of a finalized response.  For an origin that is let in: the origin itself, a `vary` that
      names it beside everything it named before, credentials if they are allowed and the allowed headers
      if there are any; for any other origin, what the response had.  Other headers stay. */
  lemma FinalizedHeaders(r: Response, requestId: string, origin: string, cors: CorsConfig)
    ensures var own := Canonical(r.headers); var h := Finalized(r, requestId, origin, cors).headers;
            && (origin != "" && OriginAllowed(origin, cors) ==>
                  && ValuesOf(h, ALLOW_ORIGIN) == [origin]
                  && ValuesOf(h, VARY) == V.VaryList(ValuesOf(own, VARY), ["origin"])
                  && ValuesOf(h, ALLOW_CREDENTIALS) == (if cors.allowCredentials then ["true"] else ValuesOf(own, ALLOW_CREDENTIALS))
                  && ValuesOf(h, ALLOW_HEADERS) ==
                     (if AllowHeadersValue(cors) != "" then [AllowHeadersValue(cors)] else ValuesOf(own, ALLOW_HEADERS)))
            && (origin == "" || !OriginAllowed(origin, cors) ==>
                  forall name | name in {ALLOW_ORIGIN, VARY, ALLOW_CREDENTIALS, ALLOW_HEADERS} :: ValuesOf(h, name) == ValuesOf(own, name))
            && (forall name | name !in {REQUEST_ID, ALLOW_ORIGIN, VARY, ALLOW_CREDENTIALS, ALLOW_HEADERS} ::
                  ValuesOf(h, name) == ValuesOf(own, name))
  {
    HeaderNames();
    hide OriginAllowed, AllowHeadersValue, V.VaryList, CanonicalName, Canonical,
         REQUEST_ID, VARY, ALLOW_ORIGIN, ALLOW_CREDENTIALS, ALLOW_HEADERS;
  }

  lemma FinalizedCanonical(r: Response, requestId: string, origin: string, cors: CorsConfig)
    ensures IsCanonical(Finalized(r, requestId, origin, cors).headers)
  {
    hide Canonical, CanonicalName, OriginAllowed, AllowHeadersValue, V.VaryList,
         REQUEST_ID, VARY, ALLOW_ORIGIN, ALLOW_CREDENTIALS, ALLOW_HEADERS;
    CanonicalIsCanonical(r.headers);
    HeaderNames();
  }

  /** Setting the same headers again changes nothing; the `Vary` merge is the only one that reads
      what is already there. */
  lemma WithCorsTwice(h: HeaderMap, origin: string, cors: CorsConfig, requestId: string)
    ensures var once := WithCors(WithRequestId(h, requestId), origin, cors);
            WithCors(WithRequestId(once, requestId), origin, cors) == once
  {
    hide OriginAllowed, AllowHeadersValue, V.VaryList, CanonicalName,
         REQUEST_ID, VARY, ALLOW_ORIGIN, ALLOW_CREDENTIALS, ALLOW_HEADERS;
    HeaderNames();
    V.VaryIdempotent(ValuesOf(WithRequestId(h, requestId), VARY), ["origin"]);
  }

  lemma FinalizedIdempotent(r: Response, requestId: string, origin: string, cors: CorsConfig)
    ensures var once := Finalized(r, requestId, origin, cors);
            Finalized(once, requestId, origin, cors) == once
  {
    FinalizedCanonical(r, requestId, origin, cors);
    CanonicalFixed(Finalized(r, requestId, origin, cors).headers);
    hide Canonical, IsCanonical, WithCors, WithRequestId;
    WithCorsTwice(Canonical(r.headers), origin, cors, requestId);
  }

  /** The finalized response carries the request id as its only one; without a request id it keeps
      whatever ids it came with. */
  lemma FinalizedRequestId(r: Response, requestId: string, origin: string, cors: CorsConfig)
    ensures ValuesOf(Finalized(r, requestId, origin, cors).headers, REQUEST_ID) ==
            if requestId != "" then [requestId] else ValuesOf(Canonical(r.headers), REQUEST_ID)
  {
    hide OriginAllowed, AllowHeadersValue, V.VaryList, CanonicalName, Canonical,
         REQUEST_ID, VARY, ALLOW_ORIGIN, ALLOW_CREDENTIALS, ALLOW_HEADERS;
    HeaderNames();
  }
}
