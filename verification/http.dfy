/** Request headers and response handling of lib/http.ts.  Headers are a map
    from header name to value; the token is passed in instead of being read
    from the authentication store, and the response is a plain record. */
module Http {
  import opened Wrappers
  import opened Text

  type Headers = map<string, string>

  const ContentType: string := "Content-Type"
  const CacheControl: string := "Cache-Control"
  const Pragma: string := "Pragma"
  const Authorization: string := "Authorization"

  /** A token worth sending: present, non-empty, and not a stringified
      `null`/`undefined` left behind by careless storage. */
  predicate UsableToken(token: Option<string>) {
    token.Some? && token.value != "" && token.value != "null" && token.value != "undefined"
  }

  /** `getAuthHeaders`: JSON and no-cache headers, plus a bearer token when usable. */
  function AuthHeaders(token: Option<string>): (h: Headers)
    ensures ContentType in h && h[ContentType] == "application/json"
    ensures CacheControl in h && h[CacheControl] == "no-store, no-cache, must-revalidate"
    ensures Pragma in h && h[Pragma] == "no-cache"
    ensures Authorization in h <==> UsableToken(token)
    ensures Authorization in h ==> h[Authorization] == "Bearer " + token.value
    ensures h.Keys <= {ContentType, CacheControl, Pragma, Authorization}
  {
    var base := map[ContentType := "application/json",
                    CacheControl := "no-store, no-cache, must-revalidate",
                    Pragma := "no-cache"];
    if UsableToken(token) then base[Authorization := "Bearer " + token.value] else base
  }

  /** The header object spread in `authFetch`: the caller's headers win on a
      shared name, and every default the caller did not name is kept. */
  function MergeHeaders(defaults: Headers, caller: Headers): (h: Headers)
    ensures h.Keys == defaults.Keys + caller.Keys
    ensures forall k :: k in caller ==> h[k] == caller[k]
    ensures forall k :: k in defaults && k !in caller ==> h[k] == defaults[k]
  {
    defaults + caller
  }

  /** The headers `authFetch` sends. */
  function RequestHeaders(token: Option<string>, caller: Headers): (h: Headers)
    ensures ContentType in h
    ensures Authorization in h <==> UsableToken(token) || Authorization in caller
  {
    MergeHeaders(AuthHeaders(token), caller)
  }

  /** A response as far as `asJson` looks at it: `text` is `None` when the
      body cannot be read. */
  datatype Response = Response(ok: bool, status: int, text: Option<string>)

  /** `asJson`: the body of a successful response (JSON decoding itself is not
      modelled); otherwise an error carrying the response text, or
      "HTTP {status}" when even the text cannot be read. */
  function AsJson(res: Response): (r: Result<string, string>)
    ensures r.Success? <==> res.ok
    ensures r.Success? && res.text.Some? ==> r.value == res.text.value
    ensures r.Failure? && res.text.Some? ==> r.error == res.text.value
    ensures r.Failure? && res.text.None? ==> r.error == "HTTP " + IntToString(res.status)
  {
    if !res.ok then
      match res.text
      case Some(t) => Failure(t)
      case None => Failure("HTTP " + IntToString(res.status))
    else Success(res.text.GetOr(""))
  }

  /** The header set a caller without its own headers sends is exactly the
      default one, and a caller that names Authorization replaces the token. */
  lemma CallerAuthorizationWins(token: Option<string>, caller: Headers)
    requires Authorization in caller
    ensures RequestHeaders(token, caller)[Authorization] == caller[Authorization]
    ensures RequestHeaders(token, map[]) == AuthHeaders(token)
  {
  }
}
