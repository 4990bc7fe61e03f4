/**
 The configured request pipeline: a request interceptor that attaches the stored
 credential with the Bearer scheme (section 2.1 of RFC 6750), and a response
 interceptor that tears the session down on HTTP 401 and passes every reply on
 to the caller unchanged. Replies from the backend are inputs of the model.
 */
module HttpClient {
  import opened JsCore
  import opened Entities
  import opened BrowserStorage

  /** Why a request failed: no response at all, or an HTTP error response with its JSON body fields, taken to be strings when present. */
  datatype HttpError =
    | NoResponse
    | ErrorResponse(status: int, detail: Option<string>, message: Option<string>)

  /** What `await axios.…(…)` yields: the response data, or a rejection. */
  datatype Reply<+T> = Success(data: T) | Failure(error: HttpError)

  type Headers = map<string, string>

  const Authorization: string := "Authorization"
  const BearerPrefix: string := "Bearer "

  /** The request interceptor: adds `Authorization: Bearer <token>` exactly when a token is stored. */
  function AttachAuth(headers: Headers, storage: Storage): (r: Headers)
    ensures StoredToken(storage).Some? ==>
      Authorization in r && r[Authorization] == BearerPrefix + StoredToken(storage).value
    ensures StoredToken(storage).None? ==> r == headers
    ensures forall k :: k in headers && k != Authorization ==> k in r && r[k] == headers[k]
    ensures r.Keys <= headers.Keys + {Authorization}
  {
    match StoredToken(storage)
    case Some(token) => headers[Authorization := BearerPrefix + token]
    case None => headers
  }

  /** Reads the token back out of a Bearer credentials value. */
  function BearerToken(value: string): (r: Option<string>)
    ensures r.Some? <==> StartsWith(value, BearerPrefix)
    ensures r.Some? ==> value == BearerPrefix + r.value
  {
    if StartsWith(value, BearerPrefix) then Some(value[|BearerPrefix|..]) else None
  }

  /** The header the interceptor writes carries exactly the stored token. */
  lemma BearerRoundTrip(headers: Headers, storage: Storage)
    requires StoredToken(storage).Some?
    ensures BearerToken(AttachAuth(headers, storage)[Authorization]) == StoredToken(storage)
  {
    var v := AttachAuth(headers, storage)[Authorization];
    assert v[..|BearerPrefix|] == BearerPrefix;
    assert v[|BearerPrefix|..] == StoredToken(storage).value;
  }

  /** The `b64token` syntax of section 2.1 of RFC 6750. */
  predicate IsB64TokenChar(c: char) {
    ('A' <= c <= 'Z') || ('a' <= c <= 'z') || ('0' <= c <= '9')
    || c == '-' || c == '.' || c == '_' || c == '~' || c == '+' || c == '/'
  }

  /** `1*( ALPHA / DIGIT / "-" / "." / "_" / "~" / "+" / "/" ) *"="`. */
  predicate IsB64Token(t: string) {
    exists n {:trigger t[..n]} :: 1 <= n <= |t|
      && (forall i :: 0 <= i < n ==> IsB64TokenChar(t[i]))
      && (forall i :: n <= i < |t| ==> t[i] == '=')
  }

  /** `credentials = "Bearer" 1*SP b64token`. */
  predicate IsBearerCredentials(value: string) {
    exists sp {:trigger value[..sp]} :: 7 <= sp < |value|
      && value[..6] == "Bearer"
      && (forall i :: 6 <= i < sp ==> value[i] == ' ')
      && IsB64Token(value[sp..])
  }

  /** A stored token of the `b64token` form yields a header value of the RFC's `credentials` form. */
  lemma AttachedHeaderIsBearerCredentials(headers: Headers, storage: Storage)
    requires StoredToken(storage).Some? && IsB64Token(StoredToken(storage).value)
    ensures IsBearerCredentials(AttachAuth(headers, storage)[Authorization])
  {
    var v := AttachAuth(headers, storage)[Authorization];
    assert v[..6] == "Bearer";
    assert v[7..] == StoredToken(storage).value;
    assert v[..7] == v[..7];
  }

  predicate IsUnauthorized<T>(reply: Reply<T>) {
    reply.Failure? && reply.error.ErrorResponse? && reply.error.status == 401
  }

  /** The storage, the forced navigation and the reply the caller sees after the response interceptor. */
  datatype Intercepted<+T> = Intercepted(storage: Storage, redirect: Option<Route>, reply: Reply<T>)

  /** The response interceptor: success passes through; every error is still rejected to the caller, and a 401 first removes both session entries and sends the browser to /login. */
  function Intercept<T>(storage: Storage, reply: Reply<T>): (r: Intercepted<T>)
    ensures r.reply == reply
    ensures IsUnauthorized(reply) ==>
      r.storage == ClearSession(storage) && r.redirect == Some(LoginRoute)
    ensures !IsUnauthorized(reply) ==> r.storage == storage && r.redirect.None?
  {
    if IsUnauthorized(reply) then Intercepted(ClearSession(storage), Some(LoginRoute), reply)
    else Intercepted(storage, None, reply)
  }

  /** `err.response?.data?.message || fallback`. */
  function MessageOr(error: HttpError, fallback: string): (r: string)
    ensures error.ErrorResponse? && error.message.Some? && Truthy(error.message.value) ==>
      r == error.message.value
    ensures r == fallback || (error.ErrorResponse? && error.message == Some(r))
    ensures Truthy(fallback) ==> Truthy(r)
  {
    match error
    case ErrorResponse(_, _, message) => OrMissing(message, fallback)
    case NoResponse => fallback
  }

  /** `err.response?.data?.detail || err.response?.data?.message || fallback`. */
  function DetailOrMessageOr(error: HttpError, fallback: string): (r: string)
    ensures error.ErrorResponse? && error.detail.Some? && Truthy(error.detail.value) ==>
      r == error.detail.value
    ensures error.ErrorResponse? && !(error.detail.Some? && Truthy(error.detail.value)) ==>
      r == MessageOr(error, fallback)
    ensures error.NoResponse? ==> r == fallback
    ensures Truthy(fallback) ==> Truthy(r)
  {
    match error
    case ErrorResponse(_, detail, _) =>
      if detail.Some? && Truthy(detail.value) then detail.value else MessageOr(error, fallback)
    case NoResponse => fallback
  }
}
