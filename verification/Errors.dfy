/** Error codes, their HTTP statuses and the responses built from errors
    (`runtime/errors.go`, `runtime/error_constants.go`, `runtime/portable_error.go`). */
module Errors {
  import opened Text
  import opened Bytes
  import opened Headers
  import opened Responses

  const BAD_REQUEST := "app.bad_request"
  const VALIDATION_FAILED := "app.validation_failed"
  const UNAUTHORIZED := "app.unauthorized"
  const FORBIDDEN := "app.forbidden"
  const NOT_FOUND := "app.not_found"
  const METHOD_NOT_ALLOWED := "app.method_not_allowed"
  const CONFLICT := "app.conflict"
  const TOO_LARGE := "app.too_large"
  const TIMEOUT := "app.timeout"
  const RATE_LIMITED := "app.rate_limited"
  const OVERLOADED := "app.overloaded"
  const INTERNAL := "app.internal"
  const EMPTY_BODY := "EMPTY_BODY"
  const INVALID_JSON := "INVALID_JSON"
  const CONTENT_TYPE := "content-type"

  /** What `errors.As` finds in an error's chain: a portable error, a legacy app error, or neither. */
  datatype PortableError = PortableError(code: string, message: string, statusCode: int, requestId: string, traceId: string)
  datatype AppError = AppError(code: string, message: string)
  datatype ErrorValue = ErrorValue(portable: Option<PortableError>, app: Option<AppError>)

  datatype Format = Nested | FlatLegacy

  /** The fields of an error body, before JSON encoding. */
  datatype Envelope = Envelope(
    nested: bool, code: string, message: string, statusCode: Option<int>, requestId: string, traceId: string)

  function NewAppError(code: string, message: string): ErrorValue {
    ErrorValue(None, Some(AppError(code, message)))
  }

  function InternalError(): ErrorValue {
    NewAppError(INTERNAL, "internal error")
  }

  /** `statusForErrorCode`. */
  function StatusForCode(code: string): int {
    if code == BAD_REQUEST then 400
    else if code == VALIDATION_FAILED then 422
    else if code == UNAUTHORIZED then 401
    else if code == FORBIDDEN then 403
    else if code == NOT_FOUND then 404
    else if code == METHOD_NOT_ALLOWED then 405
    else if code == CONFLICT then 409
    else if code == TOO_LARGE then 413
    else if code == TIMEOUT then 408
    else if code == RATE_LIMITED then 429
    else if code == OVERLOADED then 503
    else 500
  }

  predicate IsLegacyCode(code: string) {
    code == EMPTY_BODY || code == INVALID_JSON
  }

  /** `canonicalRuntimeErrorCode`. */
  function CanonicalCode(code: string): string {
    if IsLegacyCode(code) then BAD_REQUEST else code
  }

  /** `canonicalHTTPErrorFields`. */
  function BodyFields(format: Format, code: string, message: string): (string, string) {
    if format == FlatLegacy then (code, message)
    else if code == EMPTY_BODY then (BAD_REQUEST, "request body is empty")
    else if code == INVALID_JSON then (BAD_REQUEST, "invalid json")
    else (code, message)
  }

  /** `errorCodeForError`: the code recorded for an error. */
  function CodeForError(err: ErrorValue): string {
    match err.portable
    case Some(p) => if Trim(p.code) != "" then CanonicalCode(p.code) else INTERNAL
    case None =>
      match err.app
      case Some(a) => CanonicalCode(a.code)
      case None => INTERNAL
  }

  /** An error response; `encode` stands for the JSON encoder. */
  ghost function ErrorResponse(
    status: int, headers: HeaderMap, envelope: Envelope, encode: Envelope -> seq<Byte>): Response
  {
    Response(status, Canonical(headers)[CONTENT_TYPE := ["application/json; charset=utf-8"]], [], encode(envelope),
             None, None, false)
  }

  function CodeEnvelope(format: Format, code: string, message: string, requestId: string, traceId: string): Envelope {
    var (bodyCode, bodyMessage) := BodyFields(format, code, message);
    Envelope(format == Nested, bodyCode, bodyMessage, None,
             if format == Nested then requestId else "", if format == Nested then Trim(traceId) else "")
  }

  /** `errorResponseWithRequestIDTraceIDAndFormat`. */
  ghost function ResponseForCode(
    format: Format, encode: Envelope -> seq<Byte>, code: string, message: string, headers: HeaderMap,
    requestId: string, traceId: string): Response
  {
    ErrorResponse(StatusForCode(CanonicalCode(code)), headers,
                  CodeEnvelope(format, code, message, requestId, traceId), encode)
  }

  method RespondCode(
    format: Format, encode: Envelope -> seq<Byte>, code: string, message: string, headers: HeaderMap,
    requestId: string, traceId: string) returns (r: Response)
    ensures r == ResponseForCode(format, encode, code, message, headers, requestId, traceId)
  {
    var out := CanonicalizeHeaders(headers);
    hide CanonicalCode, StatusForCode, Canonical, CodeEnvelope, CONTENT_TYPE;
    out := out[CONTENT_TYPE := ["application/json; charset=utf-8"]];
    r := Response(StatusForCode(CanonicalCode(code)), out, [],
                  encode(CodeEnvelope(format, code, message, requestId, traceId)), None, None, false);
  }

  function PortableStatus(format: Format, p: PortableError): int {
    var code := if p.code == "" then INTERNAL else p.code;
    if p.statusCode != 0 then p.statusCode else StatusForCode(BodyFields(format, code, p.message).0)
  }

  function PortableEnvelope(format: Format, p: PortableError, requestId: string): Envelope {
    var (bodyCode, bodyMessage) := BodyFields(format, if p.code == "" then INTERNAL else p.code, p.message);
    if format == Nested then
      Envelope(true, bodyCode, bodyMessage, if p.statusCode != 0 then Some(p.statusCode) else None,
               if p.requestId != "" then p.requestId else requestId, p.traceId)
    else
      Envelope(false, bodyCode, bodyMessage, None, "", "")
  }

  /** `responseForErrorWithRequestIDTraceIDAndFormat`. */
  ghost function ResponseForError(
    format: Format, encode: Envelope -> seq<Byte>, err: ErrorValue, headers: HeaderMap, requestId: string, traceId: string): Response
  {
    match err.portable
    case Some(p) =>
      var traced := if Trim(p.traceId) == "" && Trim(traceId) != "" then p.(traceId := Trim(traceId)) else p;
      ErrorResponse(PortableStatus(format, traced), headers, PortableEnvelope(format, traced, requestId), encode)
    case None =>
      match err.app
      case Some(a) => ResponseForCode(format, encode, a.code, a.message, headers, requestId, traceId)
      case None => ResponseForCode(format, encode, INTERNAL, "internal error", headers, requestId, traceId)
  }

  method RespondError(
    format: Format, encode: Envelope -> seq<Byte>, err: ErrorValue, extra: HeaderMap, requestId: string, traceId: string)
    returns (r: Response)
    ensures r == ResponseForError(format, encode, err, extra, requestId, traceId)
  {
    hide PortableStatus, PortableEnvelope, ResponseForCode, Canonical, CONTENT_TYPE, Trim, INTERNAL;
    match err.portable {
      case Some(p) =>
        var traced := p;
        if Trim(p.traceId) == "" && Trim(traceId) != "" {
          traced := p.(traceId := Trim(traceId));
        }
        var headers := CanonicalizeHeaders(extra);
        headers := headers[CONTENT_TYPE := ["application/json; charset=utf-8"]];
        r := Response(PortableStatus(format, traced), headers, [], encode(PortableEnvelope(format, traced, requestId)),
                      None, None, false);
      case None =>
        match err.app {
          case Some(a) => r := RespondCode(format, encode, a.code, a.message, extra, requestId, traceId);
          case None => r := RespondCode(format, encode, INTERNAL, "internal error", extra, requestId, traceId);
        }
    }
  }

  /** The status of every code by its number; any other code, an unknown or blank one, is a 500. */
  lemma StatusNumbers(code: string)
    ensures StatusForCode("app.bad_request") == 400 && StatusForCode("app.unauthorized") == 401
    ensures StatusForCode("app.forbidden") == 403 && StatusForCode("app.not_found") == 404
    ensures StatusForCode("app.method_not_allowed") == 405 && StatusForCode("app.timeout") == 408
    ensures StatusForCode("app.conflict") == 409 && StatusForCode("app.too_large") == 413
    ensures StatusForCode("app.validation_failed") == 422 && StatusForCode("app.rate_limited") == 429
    ensures StatusForCode("app.internal") == 500 && StatusForCode("app.overloaded") == 503
    ensures (code !in {"app.bad_request", "app.unauthorized", "app.forbidden", "app.not_found", "app.method_not_allowed",
                       "app.timeout", "app.conflict", "app.too_large", "app.validation_failed", "app.rate_limited",
                       "app.overloaded"}) ==> StatusForCode(code) == 500
  {
  }

  /** What an error response for a code carries: in the nested format the code, message, request id and
      trimmed trace id, a legacy code and its message being replaced; in the flat format code and message
      as given and no ids. */
  lemma CodeResponseParts(
    format: Format, encode: Envelope -> seq<Byte>, code: string, message: string, headers: HeaderMap,
    requestId: string, traceId: string)
    ensures var r := ResponseForCode(format, encode, code, message, headers, requestId, traceId);
            && ValuesOf(r.headers, "content-type") == ["application/json; charset=utf-8"]
            && (forall name | name != "content-type" :: ValuesOf(r.headers, name) == ValuesOf(Canonical(headers), name))
            && (format == FlatLegacy ==> r.body == encode(Envelope(false, code, message, None, "", "")))
            && (format == Nested ==>
                  r.body == encode(
                    if code == "EMPTY_BODY" then Envelope(true, "app.bad_request", "request body is empty", None, requestId, Trim(traceId))
                    else if code == "INVALID_JSON" then Envelope(true, "app.bad_request", "invalid json", None, requestId, Trim(traceId))
                    else Envelope(true, code, message, None, requestId, Trim(traceId))))
  {
    hide Canonical, Trim, StatusForCode, CanonicalCode;
  }

  /** An error that is neither portable nor a legacy one is an internal error, whatever it says. */
  lemma ForeignErrorIsInternal(
    format: Format, encode: Envelope -> seq<Byte>, headers: HeaderMap, requestId: string, traceId: string)
    ensures var err := ErrorValue(None, None);
            && CodeForError(err) == "app.internal"
            && ResponseForError(format, encode, err, headers, requestId, traceId) ==
               ResponseForCode(format, encode, "app.internal", "internal error", headers, requestId, traceId)
            && ResponseForError(format, encode, err, headers, requestId, traceId).status == 500
  {
    hide Canonical, CodeEnvelope;
    StatusNumbers(INTERNAL);
    hide StatusForCode;
  }

  /** A legacy error is answered and recorded under its own code and message. */
  lemma AppErrorParts(
    format: Format, encode: Envelope -> seq<Byte>, a: AppError, headers: HeaderMap, requestId: string, traceId: string)
    ensures var err := ErrorValue(None, Some(a));
            && CodeForError(err) == (if a.code == "EMPTY_BODY" || a.code == "INVALID_JSON" then "app.bad_request" else a.code)
            && ResponseForError(format, encode, err, headers, requestId, traceId) ==
               ResponseForCode(format, encode, a.code, a.message, headers, requestId, traceId)
  {
    hide ResponseForCode;
  }

  /** A portable error counts before any legacy one in the same chain.  It keeps its own request and trace
      ids where it has them, and in the nested format reports a status of its own. */
  lemma PortableResponseParts(
    encode: Envelope -> seq<Byte>, p: PortableError, app: Option<AppError>, headers: HeaderMap, requestId: string, traceId: string)
    requires p.code != "" && !IsLegacyCode(p.code)
    ensures Trim(p.code) != "" ==> CodeForError(ErrorValue(Some(p), app)) == p.code
    ensures Trim(p.code) == "" ==> CodeForError(ErrorValue(Some(p), app)) == "app.internal"
    ensures var r := ResponseForError(Nested, encode, ErrorValue(Some(p), app), headers, requestId, traceId);
            && r.status == (if p.statusCode != 0 then p.statusCode else StatusForCode(p.code))
            && r.body == encode(Envelope(
                 true, p.code, p.message, if p.statusCode != 0 then Some(p.statusCode) else None,
                 if p.requestId != "" then p.requestId else requestId,
                 if Trim(p.traceId) == "" && Trim(traceId) != "" then Trim(traceId) else p.traceId))
    ensures ResponseForError(FlatLegacy, encode, ErrorValue(Some(p), app), headers, requestId, traceId).body ==
            encode(Envelope(false, p.code, p.message, None, "", ""))
  {
    hide Canonical, Trim, StatusForCode, CONTENT_TYPE;
  }

  // ----- the recorded code and the status sent -----

  /** The status that goes with an error: an explicit one if it has one, otherwise the status of
      its recorded code.  Under the legacy format a portable error with one of the two legacy
      codes is the exception: it is recorded as a bad request but answered with 500. */
  predicate StatusFollowsCode(format: Format, err: ErrorValue) {
    err.portable.None? ||
    (if err.portable.value.statusCode != 0 then
       err.portable.value.statusCode == StatusForCode(CodeForError(err))
     else format == Nested || !IsLegacyCode(err.portable.value.code))
  }

  /** A code that is blank but not empty belongs to no known error. */
  lemma BlankCodeIsUnknown(code: string)
    requires code != "" && Trim(code) == ""
    ensures StatusForCode(CanonicalCode(code)) == 500 && StatusForCode(code) == 500
  {
    hide Trim, StatusForCode, CanonicalCode;
    if !IsSpace(code[0]) {
      StartsText(code);
    }
    UnknownStart(code);
    NotLegacy(code);
  }

  lemma StartsText(code: string)
    requires code != "" && !IsSpace(code[0])
    ensures Trim(code) != ""
  {
    assert TrimLeft(code) == code;
  }

  /** All known codes start with a letter. */
  lemma UnknownStart(code: string)
    requires code != "" && code[0] != 'a'
    ensures StatusForCode(code) == 500
  {
  }

  lemma NotLegacy(code: string)
    requires code != "" && code[0] != 'E' && code[0] != 'I'
    ensures CanonicalCode(code) == code
  {
  }

  /** The response's status is the one that belongs to the recorded code exactly under the
      condition above. */
  lemma ErrorStatusMatchesCode(
    format: Format, encode: Envelope -> seq<Byte>, err: ErrorValue, headers: HeaderMap, requestId: string, traceId: string)
    ensures ResponseForError(format, encode, err, headers, requestId, traceId).status == StatusForCode(CodeForError(err)) <==>
            StatusFollowsCode(format, err)
  {
    hide Canonical, CONTENT_TYPE;
    match err.portable {
      case None =>
      case Some(p) =>
        if p.statusCode == 0 {
          PortableStatusMatches(format, p);
        }
    }
  }

  /** For example: under the legacy format an empty request body reported with its legacy code and no
      status of its own is recorded as a bad request, whose status is 400, and answered with 500. */
  lemma LegacyCodeMismatch(encode: Envelope -> seq<Byte>, headers: HeaderMap, requestId: string, traceId: string)
    ensures var err := ErrorValue(Some(PortableError(EMPTY_BODY, "", 0, "", "")), None);
            && CodeForError(err) == BAD_REQUEST && StatusForCode(BAD_REQUEST) == 400
            && ResponseForError(FlatLegacy, encode, err, headers, requestId, traceId).status == 500
  {
    hide Canonical, CONTENT_TYPE;
    var p := PortableError(EMPTY_BODY, "", 0, "", "");
    assert IsLegacyCode(EMPTY_BODY) && Trim(EMPTY_BODY) != "" by { assert IsTrimmed(EMPTY_BODY); }
    assert PortableStatus(FlatLegacy, p) == StatusForCode(EMPTY_BODY) == 500;
    hide StatusForCode, IsLegacyCode, Trim;
  }

  lemma PortableStatusMatches(format: Format, p: PortableError)
    requires p.statusCode == 0
    ensures PortableStatus(format, p) == StatusForCode(CodeForError(ErrorValue(Some(p), None))) <==>
            format == Nested || !IsLegacyCode(p.code)
  {
    if p.code != "" && Trim(p.code) == "" {
      BlankCodeIsUnknown(p.code);
    }
  }
}
