/**
 * The authentication helpers: taking the bearer token out of a request, and
 * mapping the JWT library's verdict to the package's errors. Both are
 * functions, so neither has side effects.
 */
module Utils {
  import opened Wrappers
  import opened Strings

  /** `ErrMissingAuthHeader`, `ErrInvalidToken`, `ErrInvalidClaims`. */
  datatype AuthError = MissingAuthHeader | InvalidToken | InvalidClaims {
    function Message(): string {
      match this
      case MissingAuthHeader => "missing Authorization header"
      case InvalidToken => "invalid token"
      case InvalidClaims => "invalid token claims"
    }
  }

  /** The `(string, error)` pair `ExtractTokenFromRequest` returns. */
  datatype Extraction = Extraction(token: string, err: Option<AuthError>)

  /**
   * `ExtractTokenFromRequest`, given the `Authorization` header ("" when it is
   * absent). The token is always the trimmed header; it is rejected exactly
   * when nothing but white space was sent, and what is accepted is non-empty
   * and neither starts nor ends with white space.
   */
  function ExtractTokenFromRequest(authorization: string): (r: Extraction)
    ensures r.token == TrimSpace(authorization)
    ensures r.err.Some? <==> AllSpace(authorization)
    ensures r.err.Some? ==> r.err.value == MissingAuthHeader && r.token == ""
    ensures r.err.None? ==> r.token != "" && !IsSpace(r.token[0]) && !IsSpace(r.token[|r.token| - 1])
  {
    var tokenString := TrimSpace(authorization);
    if tokenString == "" then Extraction("", Some(MissingAuthHeader)) else Extraction(tokenString, None)
  }

  /**
   * What `jwt.ParseWithClaims` hands back, as far as the code looks at it:
   * whether it returned an error, the token's `Valid` flag, and the claims if
   * their dynamic type is the application's claims type `C`.
   */
  datatype ParseOutcome<C> = ParseOutcome(failed: bool, valid: bool, claims: Option<C>)

  /**
   * `ParseAndValidateToken`; `parse(t, k)` stands for the library parsing `t`
   * with key `k`. A parse error or an invalid token gives `ErrInvalidToken`;
   * a valid token gives its claims when they are of the application's type,
   * and `ErrInvalidClaims` when they are not.
   */
  function ParseAndValidateToken<C>(tokenString: string, jwtSecret: string,
                                    parse: (string, string) -> ParseOutcome<C>): (r: Result<C, AuthError>)
    ensures var p := parse(tokenString, jwtSecret);
      (r == Failure(InvalidToken) <==> p.failed || !p.valid)
    ensures var p := parse(tokenString, jwtSecret);
      (r == Failure(InvalidClaims) <==> !p.failed && p.valid && p.claims.None?)
    ensures var p := parse(tokenString, jwtSecret);
      (r.Success? <==> !p.failed && p.valid && p.claims.Some?)
    ensures r.Success? ==> Some(r.value) == parse(tokenString, jwtSecret).claims
  {
    var token := parse(tokenString, jwtSecret);
    if token.failed || !token.valid then Failure(InvalidToken)
    else if token.claims.Some? && token.valid then Success(token.claims.value)
    else Failure(InvalidClaims)
  }
}
