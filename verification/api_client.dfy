/** URL building and response checking of the client's HTTP helpers
    (frontend/src/shared/api/client.ts). A response is abstract: its `ok`
    flag and what its body parses to. */
module ApiClient {
  import opened Wrappers
  import opened Text

  /** The base URL when the build sets none. */
  const DefaultApiUrl: string := "http://localhost:3000"

  /** `API_URL`: the configured base URL, or the default when unset. */
  function ApiUrl(configured: Option<string>): (url: string)
    ensures configured.Some? ==> url == configured.value
    ensures configured.None? ==> url == DefaultApiUrl
  {
    configured.GetOr(DefaultApiUrl)
  }

  /** The path with a leading slash added when it has none. */
  function NormalizePath(path: string): (p: string)
    ensures StartsWith(p, "/")
    ensures StartsWith(path, "/") ==> p == path
    ensures !StartsWith(path, "/") ==> p == "/" + path
  {
    if StartsWith(path, "/") then path else "/" + path
  }

  /** Normalising a normalised path changes nothing. */
  lemma NormalizeIdempotent(path: string)
    ensures NormalizePath(NormalizePath(path)) == NormalizePath(path)
  {
  }

  /** `buildUrl`: the base URL followed by the path, with exactly one slash
      inserted when the path does not start with one. */
  function BuildUrl(apiUrl: string, path: string): (url: string)
    ensures StartsWith(path, "/") ==> url == apiUrl + path
    ensures !StartsWith(path, "/") ==> url == apiUrl + "/" + path
    ensures StartsWith(url, apiUrl) && |url| > |apiUrl| && url[|apiUrl|] == '/'
  {
    var url := apiUrl + NormalizePath(path);
    assert url[..|apiUrl|] == apiUrl;
    url
  }

  /** A relative path and its slash-prefixed form name the same URL. */
  lemma LeadingSlashOptional(apiUrl: string, path: string)
    requires !StartsWith(path, "/")
    ensures BuildUrl(apiUrl, path) == BuildUrl(apiUrl, "/" + path)
  {
    assert StartsWith("/" + path, "/") by { assert ("/" + path)[..1] == "/"; }
  }

  /** What `res.json()` makes of a body: a parse failure, or a value and the
      body's `message` property when that is a string. */
  datatype Body<T> = Unparsable | Json(value: T, message: Option<string>)

  datatype Response<T> = Response(ok: bool, body: Body<T>)

  /** What the helpers throw: an `Error` with a message, or the parse error
      of a malformed body. */
  datatype ClientError = ErrorWithMessage(message: string) | InvalidJson

  /** `handleJsonOrThrow`: an ok response yields its parsed body (a malformed
      body throws the parse error). A failed response always throws
      `fallbackMessage`: the error the `try` block throws for a string
      `message`, like the parse error, is caught by the empty `catch`. */
  function HandleJsonOrThrow<T>(res: Response<T>, fallbackMessage: string): (r: Result<T, ClientError>)
    ensures res.ok && res.body.Json? ==> r == Ok(res.body.value)
    ensures res.ok && res.body.Unparsable? ==> r == Err(InvalidJson)
    ensures !res.ok ==> r == Err(ErrorWithMessage(fallbackMessage))
  {
    if res.ok then
      match res.body
      case Json(v, _) => Ok(v)
      case Unparsable => Err(InvalidJson)
    else
      Err(ErrorWithMessage(fallbackMessage))
  }

  /** The server's error message never reaches the caller: a failed response
      carrying message `m` fails with the fallback, not with `m`. */
  lemma ServerMessageSwallowed<T>(value: T, m: string, fallbackMessage: string)
    requires m != fallbackMessage
    ensures HandleJsonOrThrow(Response(false, Json(value, Some(m))), fallbackMessage)
      != Err(ErrorWithMessage(m))
  {
  }

  /** `ensureOkOrThrow`: passes on an ok response without reading its body,
      and otherwise fails with `fallbackMessage`. */
  function EnsureOkOrThrow<T>(res: Response<T>, fallbackMessage: string): (r: Outcome<ClientError>)
    ensures r.Pass? <==> res.ok
    ensures !res.ok ==> r == Fail(ErrorWithMessage(fallbackMessage))
  {
    if res.ok then Pass else Fail(HandleJsonOrThrow(res, fallbackMessage).error)
  }
}
