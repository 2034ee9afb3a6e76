/** The client half of the credential plumbing (`lib/api-helpers.ts`): the
    headers every admin request carries, and the `fetch` wrapper that adds
    them. The session is whatever `auth.getSession()` produced, given as a
    parameter. */
module ApiHelpers {
  import opened Wrappers
  import ApiAuth

  type Headers = map<string, string>

  datatype Session = Session(accessToken: Option<string>)

  /** `session?.access_token` is truthy. */
  predicate HasToken(session: Option<Session>)
  {
    session.Some? && session.value.accessToken.Some? && session.value.accessToken.value != ""
  }

  /** `getAuthHeaders(contentType = true)`. */
  method GetAuthHeaders(session: Option<Session>, contentType: bool := true) returns (headers: Headers)
    ensures "Content-Type" in headers <==> contentType
    ensures contentType ==> headers["Content-Type"] == "application/json"
    ensures "Authorization" in headers <==> HasToken(session)
    ensures HasToken(session) ==> headers["Authorization"] == ApiAuth.BearerPrefix + session.value.accessToken.value
    ensures headers.Keys <= {"Content-Type", "Authorization"}
  {
    headers := map[];
    if contentType {
      headers := headers["Content-Type" := "application/json"];
    }
    if HasToken(session) {
      headers := headers["Authorization" := "Bearer " + session.value.accessToken.value];
    }
  }

  /** The gate recovers exactly the session's token from the header built
      here. */
  lemma HeaderTokenRoundTrip(token: string)
    ensures ApiAuth.BearerToken(Some(ApiAuth.BearerPrefix + token)) == Some(token)
  {
    var h := ApiAuth.BearerPrefix + token;
    assert h[..|ApiAuth.BearerPrefix|] == ApiAuth.BearerPrefix;
    assert h[|ApiAuth.BearerPrefix|..] == token;
  }

  /** The request options `authFetch` passes on to `fetch`. */
  datatype RequestInit = RequestInit(requestMethod: Option<string>, credentials: string, headers: Headers)

  /** `authFetch(url, options)`: Content-Type is asked for unless the method
      is exactly "GET" (so also when no method is given), credentials are
      always included, and the caller's headers override the computed ones. */
  method AuthFetch(requestMethod: Option<string>, callerHeaders: Headers, session: Option<Session>)
    returns (init: RequestInit)
    ensures init.requestMethod == requestMethod && init.credentials == "include"
    ensures forall k :: k in callerHeaders ==> k in init.headers && init.headers[k] == callerHeaders[k]
    ensures "Content-Type" !in callerHeaders ==>
      ("Content-Type" in init.headers <==> requestMethod != Some("GET"))
    ensures "Content-Type" !in callerHeaders && requestMethod != Some("GET") ==>
      init.headers["Content-Type"] == "application/json"
    ensures "Authorization" !in callerHeaders ==>
      ("Authorization" in init.headers <==> HasToken(session))
    ensures "Authorization" !in callerHeaders && HasToken(session) ==>
      init.headers["Authorization"] == ApiAuth.BearerPrefix + session.value.accessToken.value
    ensures init.headers.Keys - callerHeaders.Keys <= {"Content-Type", "Authorization"}
  {
    var computed := GetAuthHeaders(session, requestMethod != Some("GET"));
    init := RequestInit(requestMethod, "include", computed + callerHeaders);
  }
}
