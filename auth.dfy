/** The admin session: a cookie store, and `checkAuth`, which accepts a request
    whose `admin-session` cookie reads exactly "authenticated". */
module Auth {

  /** A cookie as set by the server: its value and the options it was set with. */
  datatype Cookie = Cookie(value: string, httpOnly: bool, secure: bool, maxAge: nat)

  type Cookies = map<string, Cookie>

  const SessionCookie := "admin-session"
  const SessionValue := "authenticated"

  /** `checkAuth`: the session cookie is there and holds the session value. */
  predicate CheckAuth(cookies: Cookies)
  {
    SessionCookie in cookies && cookies[SessionCookie].value == SessionValue
  }

  /** Without the cookie, or with any other value in it, the check fails;
      other cookies play no part. */
  lemma CheckAuthCases(cookies: Cookies, name: string, c: Cookie)
    ensures SessionCookie !in cookies ==> !CheckAuth(cookies)
    ensures SessionCookie in cookies && cookies[SessionCookie].value != SessionValue ==> !CheckAuth(cookies)
    ensures name != SessionCookie ==> CheckAuth(cookies[name := c]) == CheckAuth(cookies)
    ensures CheckAuth(cookies[SessionCookie := c]) <==> c.value == SessionValue
  {
  }

  /** The browser's cookie store for the site. */
  class CookieJar {
    var cookies: Cookies

    constructor (cookies: Cookies)
      ensures this.cookies == cookies
    {
      this.cookies := cookies;
    }

    /** `cookieStore.set(name, value, options)`: replaces any cookie of that name. */
    method Set(name: string, c: Cookie)
      modifies this
      ensures cookies == old(cookies)[name := c]
    {
      cookies := cookies[name := c];
    }

    /** `checkAuth()` on this store. */
    method IsAuthenticated() returns (ok: bool)
      ensures ok <==> CheckAuth(cookies)
    {
      ok := CheckAuth(cookies);
    }
  }
}
