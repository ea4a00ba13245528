/** Requests and their normalization (`runtime/request.go:31-67`). */
module Requests {
  import opened Text
  import opened Bytes
  import opened Headers
  import opened Errors
  import RoutePatterns
  import Base64

  datatype Request = Request(
    httpMethod: string, path: string, query: map<string, seq<string>>, headers: HeaderMap,
    body: seq<Byte>, isBase64: bool, traceId: string)

  const EMPTY: Request := Request("", "", map[], map[], [], false, "")

  ghost function WithCanonicalParts(r: Request, traceOf: HeaderMap -> string): Request {
    var headers := Canonical(r.headers);
    r.(httpMethod := CanonicalMethod(r.httpMethod), path := RoutePatterns.NormalizePath(r.path),
       headers := headers, traceId := traceOf(headers))
  }

  /** `normalizeRequestWithMaxBytes`: the normalized request, and an error for invalid base64 or a
      base64 body whose decoded length exceeds a positive maximum. */
  ghost function Normalized(r: Request, maxBytes: int, traceOf: HeaderMap -> string): (Request, Option<ErrorValue>) {
    var out := WithCanonicalParts(r, traceOf);
    if !r.isBase64 then (out, None)
    else
      match Base64.Decode(Base64.Clean(r.body))
      case None => (EMPTY, Some(NewAppError(BAD_REQUEST, "invalid base64")))
      case Some(decoded) =>
        if maxBytes > 0 && |decoded| > maxBytes then (out, Some(NewAppError(TOO_LARGE, "request too large")))
        else (out.(body := decoded), None)
  }

  method NormalizeRequest(r: Request, maxBytes: int, traceOf: HeaderMap -> string)
    returns (out: Request, error: Option<ErrorValue>)
    ensures (out, error) == Normalized(r, maxBytes, traceOf)
  {
    hide CanonicalMethod, RoutePatterns.NormalizePath, Canonical, BAD_REQUEST, TOO_LARGE, Base64.Decode, Base64.Clean;
    out := r;
    out := out.(httpMethod := CanonicalMethod(r.httpMethod));
    out := out.(path := RoutePatterns.NormalizePath(r.path));
    var headers := CanonicalizeHeaders(r.headers);
    out := out.(headers := headers);
    out := out.(traceId := traceOf(headers));
    if r.isBase64 {
      var decodedLen := Base64.DecodedBase64Len(r.body);
      if decodedLen.None? {
        return EMPTY, Some(NewAppError(BAD_REQUEST, "invalid base64"));
      }
      if maxBytes > 0 && decodedLen.value > maxBytes {
        return out, Some(NewAppError(TOO_LARGE, "request too large"));
      }
      var decoded := Base64.Decode(Base64.Clean(r.body));
      out := out.(body := decoded.value);
    }
    return out, None;
  }

  /** A base64 body that passes normalization is within the maximum: the size check that follows
      can only reject bodies that were not encoded. */
  lemma DecodedBodyWithinLimit(r: Request, maxBytes: int, traceOf: HeaderMap -> string)
    requires r.isBase64 && maxBytes > 0 && Normalized(r, maxBytes, traceOf).1.None?
    ensures |Normalized(r, maxBytes, traceOf).0.body| <= maxBytes
    ensures Base64.Decode(Base64.Clean(r.body)) == Some(Normalized(r, maxBytes, traceOf).0.body)
  {
    hide WithCanonicalParts;
  }

  /** A body that is not encoded is taken as it is, whatever its size: only base64 bodies are refused here,
      as bad requests if they cannot be decoded and as too large if they decode to more than the maximum. */
  lemma NormalizedBody(r: Request, maxBytes: int, traceOf: HeaderMap -> string)
    ensures var (n, error) := Normalized(r, maxBytes, traceOf); var decoded := Base64.Decode(Base64.Clean(r.body));
            && n.isBase64 == (r.isBase64 && decoded.Some?)
            && (!r.isBase64 ==> error.None? && n.body == r.body)
            && (r.isBase64 && decoded.None? ==> error == Some(NewAppError("app.bad_request", "invalid base64")))
            && (r.isBase64 && decoded.Some? ==>
                  if maxBytes > 0 && |decoded.value| > maxBytes then
                    error == Some(NewAppError("app.too_large", "request too large"))
                  else
                    error.None? && n.body == decoded.value)
  {
    hide Canonical, CanonicalMethod, RoutePatterns.NormalizePath, Base64.Decode, Base64.Clean;
  }

  /** A normalized request has the canonical method, path and headers, and nothing else changed
      but the body. */
  lemma NormalizedParts(r: Request, maxBytes: int, traceOf: HeaderMap -> string)
    requires Normalized(r, maxBytes, traceOf).1.None?
    ensures var n := Normalized(r, maxBytes, traceOf).0;
            && n.httpMethod == CanonicalMethod(r.httpMethod) && n.path == RoutePatterns.NormalizePath(r.path)
            && n.headers == Canonical(r.headers) && n.traceId == traceOf(n.headers) && n.query == r.query
  {
    hide CanonicalMethod, RoutePatterns.NormalizePath, Canonical, BAD_REQUEST, TOO_LARGE, Base64.Decode, Base64.Clean, EMPTY;
  }
}
