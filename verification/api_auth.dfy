/** The gate every admin route passes first (`lib/api-auth.ts`): a Bearer
    token in the `Authorization` header is tried first, the cookie session
    second, and a failed check picks its error message in a fixed order.

    The identity provider is an oracle: the answer it gives for a token, and
    the answer it gives for the request's cookie session, are parameters. */
module ApiAuth {
  import opened Wrappers
  import opened Js
  import Text
  import Http

  datatype User = User(id: string)

  /** An error object as the gate sees it: only its `message` matters, and
      a missing message reads like an empty one. */
  datatype Fault = Fault(message: string)

  /** What `auth.getUser()` on the token-scoped client produced. */
  datatype TokenReply =
    | Answered(user: Option<User>, error: Option<Fault>)
    | Threw(thrown: Fault)

  /** What `auth.getUser()` on the cookie-backed client produced. */
  datatype SessionReply = SessionReply(user: Option<User>, error: Option<Fault>)

  /** The database client handed back to the route. */
  datatype Client = CookieClient | TokenClient(token: string)

  datatype AuthResult = AuthResult(user: Option<User>, client: Client, error: Option<string>)

  const BearerPrefix := "Bearer "

  /** The token of an `Authorization` header: the text after an exact,
      case-sensitive `Bearer ` prefix. */
  function BearerToken(header: Option<string>): (r: Option<string>)
    ensures r.Some? <==> header.Some? && Text.StartsWith(header.value, BearerPrefix)
    ensures r.Some? ==> BearerPrefix + r.value == header.value
  {
    if header.Some? && Text.StartsWith(header.value, BearerPrefix)
    then Some(header.value[|BearerPrefix|..])
    else None
  }

  /** `error?.message` for the error a failed token check left behind. */
  function MessageOf(f: Option<Fault>): string
  {
    if f.Some? then f.value.message else ""
  }

  /** `checkApiAuth`. The token reply is only asked for when the header
      carries a Bearer token; the session reply is read only when the token
      path did not produce a user. */
  method CheckApiAuth(authHeader: Option<string>, tokenReply: string -> TokenReply, session: SessionReply)
    returns (r: AuthResult)
    // A token that resolves to a user with no error wins outright.
    ensures BearerToken(authHeader).Some? && tokenReply(BearerToken(authHeader).value).Answered?
            && tokenReply(BearerToken(authHeader).value).error.None?
            && tokenReply(BearerToken(authHeader).value).user.Some?
        ==> r == AuthResult(tokenReply(BearerToken(authHeader).value).user, TokenClient(BearerToken(authHeader).value), None)
    // Otherwise the cookie session decides, on the cookie client.
    ensures TokenUser(authHeader, tokenReply).None? ==> r.client == CookieClient
    ensures TokenUser(authHeader, tokenReply).None? && session.error.None? && session.user.Some?
        ==> r == AuthResult(session.user, CookieClient, None)
    ensures TokenUser(authHeader, tokenReply).None? && (session.error.Some? || session.user.None?)
        ==> r.user.None?
            && r.error == Some(FirstMessage(MessageOf(session.error), MessageOf(TokenFault(authHeader, tokenReply))))
    // A user comes back exactly when no error does, and an error is never empty.
    ensures r.user.Some? <==> r.error.None?
    ensures r.error.Some? ==> r.error.value != ""
  {
    var error: Option<Fault> := None;
    var token := BearerToken(authHeader);
    if token.Some? {
      var reply := tokenReply(token.value);
      if reply.Threw? {
        error := Some(reply.thrown);
      } else if reply.error.None? && reply.user.Some? {
        return AuthResult(reply.user, TokenClient(token.value), None);
      } else {
        error := reply.error;
      }
    }
    if session.error.Some? || session.user.None? {
      return AuthResult(None, CookieClient, Some(FirstMessage(MessageOf(session.error), MessageOf(error))));
    }
    return AuthResult(session.user, CookieClient, None);
  }

  /** `userError?.message || error?.message || 'No session found'`. */
  function FirstMessage(sessionMessage: string, tokenMessage: string): (r: string)
    ensures r != ""
    ensures sessionMessage != "" ==> r == sessionMessage
    ensures sessionMessage == "" && tokenMessage != "" ==> r == tokenMessage
    ensures sessionMessage == "" && tokenMessage == "" ==> r == "No session found"
  {
    if sessionMessage != "" then sessionMessage
    else if tokenMessage != "" then tokenMessage
    else "No session found"
  }

  /** The user the token path produces, if it produces one. */
  function TokenUser(authHeader: Option<string>, tokenReply: string -> TokenReply): Option<User>
  {
    var token := BearerToken(authHeader);
    if token.Some? && tokenReply(token.value).Answered?
       && tokenReply(token.value).error.None? && tokenReply(token.value).user.Some?
    then tokenReply(token.value).user
    else None
  }

  /** The error a failed token path leaves for the cookie fallback. */
  function TokenFault(authHeader: Option<string>, tokenReply: string -> TokenReply): Option<Fault>
  {
    var token := BearerToken(authHeader);
    if token.None? then None
    else match tokenReply(token.value)
      case Threw(f) => Some(f)
      case Answered(_, e) => e
  }

  /** `unauthorizedResponse(details)`: always 401 and "Unauthorized", with
      "Authentication required" for missing or empty details. */
  function UnauthorizedResponse(details: Option<string>): (r: Http.Response)
    ensures r.status == 401 && r.body.Object?
    ensures "error" in r.body.fields && r.body.fields["error"] == Str("Unauthorized")
    ensures "details" in r.body.fields
    ensures details.Some? && details.value != "" ==> r.body.fields["details"] == Str(details.value)
    ensures details.None? || details.value == "" ==> r.body.fields["details"] == Str("Authentication required")
  {
    Http.FailureWithDetails(401, "Unauthorized",
      if details.Some? && details.value != "" then details.value else "Authentication required")
  }

  /** `if (authError || !user) return unauthorizedResponse(authError)`, the
      first step of every admin handler. */
  function Guard(auth: AuthResult): (r: Option<Http.Response>)
    ensures r.None? <==> auth.user.Some? && (auth.error.None? || auth.error.value == "")
    ensures r.Some? ==> r.value.status == 401
  {
    if (auth.error.Some? && auth.error.value != "") || auth.user.None?
    then Some(UnauthorizedResponse(auth.error))
    else None
  }
}
