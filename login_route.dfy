/** `/api/admin/login`: the fixed admin credentials open a session by setting the
    session cookie; anything else leaves the cookies alone. */
module LoginRoute {
  import opened Wrappers
  import opened Auth

  /** `{ username, password }` of the JSON body; a field that is not there is None. */
  datatype Credentials = Credentials(username: Option<string>, password: Option<string>)

  datatype LoginResponse = LoggedIn | Unauthorized(error: string) | ServerError(error: string)
  {
    function Status(): nat
    {
      match this
      case LoggedIn => 200
      case Unauthorized(_) => 401
      case ServerError(_) => 500
    }
  }

  const SessionMaxAge: nat := 60 * 60 * 24

  predicate ValidCredentials(c: Credentials)
  {
    c.username == Some("admin") && c.password == Some("admin123")
  }

  /** The cookie a login sets: httpOnly, a day long, secure only in production. */
  function SessionCookieFor(production: bool): (c: Cookie)
    ensures c.value == SessionValue && c.httpOnly && c.maxAge == 86400 && c.secure == production
  {
    Cookie(SessionValue, true, production, SessionMaxAge)
  }

  /** A login attempt on the cookie store `cookies`: the response and the store
      after it. `body` is None when the request body is not a JSON object. */
  function Attempt(cookies: Cookies, body: Option<Credentials>, production: bool)
    : (r: (LoginResponse, Cookies))
    ensures r.0.LoggedIn? <==> body.Some? && ValidCredentials(body.value)
    ensures r.0.Unauthorized? <==> body.Some? && !ValidCredentials(body.value)
    ensures r.0.Unauthorized? ==> r.0.error == "Invalid credentials"
    ensures r.0.ServerError? <==> body.None?
    ensures r.0.ServerError? ==> r.0.error == "Authentication failed"
    ensures !r.0.LoggedIn? ==> r.1 == cookies
    ensures r.0.LoggedIn? ==> r.1 == cookies[SessionCookie := SessionCookieFor(production)]
  {
    if body.None? then (ServerError("Authentication failed"), cookies)
    else if ValidCredentials(body.value) then (LoggedIn, cookies[SessionCookie := SessionCookieFor(production)])
    else (Unauthorized("Invalid credentials"), cookies)
  }

  /** Login and `checkAuth` agree: after an attempt the session is valid iff it
      was before or the attempt succeeded. A failed attempt never ends a session. */
  lemma LoginOpensSession(cookies: Cookies, body: Option<Credentials>, production: bool)
    ensures var r := Attempt(cookies, body, production);
      (r.0.LoggedIn? ==> CheckAuth(r.1))
      && (CheckAuth(r.1) <==> r.0.LoggedIn? || CheckAuth(cookies))
  {
    CheckAuthCases(cookies, SessionCookie, SessionCookieFor(production));
  }

  /** Only the exact pair "admin" / "admin123" logs in. */
  lemma OnlyExactCredentials(user: string, password: string)
    ensures Attempt(map[], Some(Credentials(Some(user), Some(password))), false).0.LoggedIn?
            <==> user == "admin" && password == "admin123"
  {
  }

  /** `POST` on the browser's cookie store. */
  method Post(jar: CookieJar, body: Option<Credentials>, production: bool) returns (resp: LoginResponse)
    modifies jar
    ensures (resp, jar.cookies) == Attempt(old(jar.cookies), body, production)
  {
    if body.None? {
      return ServerError("Authentication failed");
    }
    var c := body.value;
    if ValidCredentials(c) {
      jar.Set(SessionCookie, SessionCookieFor(production));
      return LoggedIn;
    }
    resp := Unauthorized("Invalid credentials");
  }
}
