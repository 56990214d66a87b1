/**
 * The authentication middleware: which routes are public, and what happens to
 * a request on the way to the next handler. JWT parsing is an oracle: the
 * middleware only looks at whether `jwt.ParseWithClaims` reported an error.
 */
module Middlewares {
  import opened Wrappers
  import opened Strings
  import Http

  /** `PUBLIC_ENDPOINTS`: the routes reachable without a token. */
  const PublicEndpoints: seq<string> := ["/signup", "/login"]

  /** `shouldCheckToken`: a token is needed unless the route is exactly one of the public ones. */
  function ShouldCheckToken(route: string): (r: bool)
    ensures !r <==> route == "/signup" || route == "/login"
  {
    route !in PublicEndpoints
  }

  /** Matching is exact: a trailing slash or a query string does not make a route public. */
  lemma NearMissesNeedToken()
    ensures ShouldCheckToken("/") && ShouldCheckToken("/signup/") && ShouldCheckToken("/login?x")
  {
  }

  /** What the wrapped handler does with a request: pass it on, or answer with an error. */
  datatype Verdict = ServeNext | Reject(error: Http.Error)

  /**
   * The middleware's decision: the string it handed to the token parser (none
   * when it did not call the parser) and the verdict.
   */
  datatype Decision = Decision(parsed: Option<string>, verdict: Verdict)

  /**
   * `CheckAuthMiddleware` applied to one request with URL path `path` and
   * `Authorization` header `authorization` ("" when absent). `parses(t, k)`
   * stands for `jwt.ParseWithClaims(t, ...)` with key `k` returning no error.
   * Public routes go straight to the next handler without touching the header;
   * on protected routes the trimmed header is parsed with the server's secret,
   * and the request goes on, once, exactly when that succeeds; otherwise the
   * answer is 401 "Unauthorized" and the next handler is not called.
   */
  function CheckAuthMiddleware(path: string, authorization: string, jwtSecret: string,
                               parses: (string, string) -> bool): (d: Decision)
    ensures d.parsed.Some? <==> ShouldCheckToken(path)
    ensures d.parsed.Some? ==> d.parsed.value == TrimSpace(authorization)
    ensures d.verdict == ServeNext <==>
      (path == "/signup" || path == "/login" || parses(TrimSpace(authorization), jwtSecret))
    ensures d.verdict != ServeNext ==> d.verdict == Reject(Http.Error(Http.StatusUnauthorized, "Unauthorized"))
  {
    if !ShouldCheckToken(path) then
      Decision(None, ServeNext)
    else
      var tokenString := TrimSpace(authorization);
      if !parses(tokenString, jwtSecret) then
        Decision(Some(tokenString), Reject(Http.Error(Http.StatusUnauthorized, "Unauthorized")))
      else
        Decision(Some(tokenString), ServeNext)
  }
}
