/**
 * The password gate: the `authenticator` middleware every request passes
 * through, and the POST handler of the login form mounted at '/auth'.
 */
module Auth {

  import opened Wrappers
  import opened JsText

  /** What the middleware does with a request: hand it on, or redirect the browser. */
  datatype Decision = Next | Redirect(location: string)

  /** The configured password is missing or empty, so the gate is off. */
  predicate Falsy(password: Option<string>)
  {
    password.None? || password.value == ""
  }

  /** The login page, its stylesheet and the static assets never need a session. */
  predicate Public(path: string)
  {
    path == "/auth/" || path == "/main.css" || IndexOf(path, "/static/") == 0
  }

  /**
   * `authenticator`: a request goes on when its path is public, its session is
   * authenticated or no password is configured; every other request is sent
   * to the login page.
   */
  function Authenticator(path: string, sessionAuth: bool, password: Option<string>): (d: Decision)
    ensures d == Next || d == Redirect("/auth/")
    ensures d.Redirect? ==> !sessionAuth && !Falsy(password)
    ensures Public(path) ==> d == Next
  {
    if Public(path) || sessionAuth || Falsy(password) then Next else Redirect("/auth/")
  }

  /** Any path that starts with '/static/' passes, whatever the session and the password. */
  lemma StaticAssetsPass(path: string, sessionAuth: bool, password: Option<string>)
    requires |path| >= 8 && path[..8] == "/static/"
    ensures Authenticator(path, sessionAuth, password) == Next
  {
    IndexOfZeroIsPrefix(path, "/static/");
  }

  /** The page a refused request is sent to is itself let through: the redirect cannot loop. */
  lemma RedirectTargetPasses(path: string, sessionAuth: bool, password: Option<string>)
    ensures var d := Authenticator(path, sessionAuth, password);
      d.Redirect? ==> Authenticator(d.location, sessionAuth, password) == Next
  {
  }

  /** With no password configured, or with an authenticated session, every path passes. */
  lemma OpenGate(path: string, sessionAuth: bool, password: Option<string>)
    requires sessionAuth || Falsy(password)
    ensures Authenticator(path, sessionAuth, password) == Next
  {
  }

  /**
   * Exactly the requests on a non-public path, without an authenticated session
   * and with a password configured, are redirected to the login page.
   */
  lemma RedirectedExactly(path: string, sessionAuth: bool, password: Option<string>)
    ensures Authenticator(path, sessionAuth, password) == Redirect("/auth/")
        <==> !Public(path) && !sessionAuth && !Falsy(password)
  {
  }

  /** '/auth' without its trailing slash is not public: it is redirected like any other page. */
  lemma LoginPathNeedsSlash()
    ensures Authenticator("/auth", false, Some("secret")) == Redirect("/auth/")
    ensures Authenticator("/static", false, Some("secret")) == Redirect("/auth/")
  {
    IndexOfZeroIsPrefix("/auth", "/static/");
    IndexOfZeroIsPrefix("/static", "/static/");
    assert "/auth" != "/auth/";
    assert "/auth"[1] != "/main.css"[1];
    assert "/static"[1] != "/auth/"[1];
    assert "/static"[1] != "/main.css"[1];
  }

  /** The `session.auth` flag of one browser session. */
  class Session {
    var auth: bool

    /** A new session is not authenticated. */
    constructor ()
      ensures !auth
    {
      auth := false;
    }

    /**
     * POST '/auth/': the submitted password, if it equals the configured one
     * (both may be absent), authenticates the session; a wrong one leaves the
     * session as it was. Either way the browser is sent to '/'.
     */
    method PostPassword(submitted: Option<string>, configured: Option<string>) returns (location: string)
      modifies this
      ensures auth == (old(auth) || submitted == configured)
      ensures location == "/"
    {
      if submitted == configured {
        auth := true;
      }
      location := "/";
    }

    /** What the middleware decides for this session. */
    function Decide(path: string, password: Option<string>): (d: Decision)
      reads this
      ensures auth ==> d == Next
    {
      Authenticator(path, auth, password)
    }
  }

  /**
   * After the right password is posted, every path passes for that session; a
   * wrong password never changes what the session may see.
   */
  method LoginThenBrowse(session: Session, submitted: Option<string>, password: Option<string>, path: string)
    returns (before: Decision, after: Decision)
    modifies session
    ensures before == Authenticator(path, old(session.auth), password)
    ensures submitted == password ==> after == Next
    ensures submitted != password ==> after == before
  {
    before := session.Decide(path, password);
    var location := session.PostPassword(submitted, password);
    after := session.Decide(path, password);
  }
}
